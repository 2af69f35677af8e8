/** The Go struct preview of a schema: the schema and every schema it
    reaches through its fields, each rendered as a Go `struct`
    (frontend/src/components/GoSchemaDisplay.tsx). */
module GoSchemaDisplay {
  import opened Wrappers
  import opened Text
  import opened ApexTypes

  /** `allSchemas.find(({ name }) => name === n)`: the first schema so named. */
  function Find(all: seq<Schema>, n: string): (r: Option<Schema>)
    ensures r.Some? ==> r.value in all && r.value.name == n
    ensures r.None? <==> n !in Names(all)
  {
    if all == [] then None
    else if all[0].name == n then Some(all[0])
    else
      var r := Find(all[1..], n);
      assert Names(all) == {all[0].name} + Names(all[1..]);
      r
  }

  /** The schema `find` returns is the first one with the name: every schema
      before it has another name. */
  lemma {:induction false} FindIsFirst(all: seq<Schema>, n: string)
    requires n in Names(all)
    ensures exists i :: 0 <= i < |all| && Find(all, n) == Some(all[i]) && forall j :: 0 <= j < i ==> all[j].name != n
  {
    if all[0].name != n {
      assert Names(all) == {all[0].name} + Names(all[1..]);
      FindIsFirst(all[1..], n);
      var i :| 0 <= i < |all[1..]| && Find(all[1..], n) == Some(all[1..][i])
               && forall j :: 0 <= j < i ==> all[1..][j].name != n;
      assert all[i + 1] == all[1..][i];
      forall j | 0 <= j < i + 1 ensures all[j].name != n {
        if j > 0 {
          assert all[j] == all[1..][j - 1];
        }
      }
      assert Find(all, n) == Some(all[i + 1]);
    } else {
      assert Find(all, n) == Some(all[0]);
    }
  }

  /** Every schema of the store carries a `fields` object (the store's
      schema type makes `fields` mandatory). */
  predicate AllHaveFields(all: seq<Schema>) {
    forall s :: s in all ==> s.fields.Some?
  }

  /** The field values of a schema (`Object.values(schema.fields)`). */
  function FieldValues(s: Schema): seq<FieldType>
    requires s.fields.Some?
  {
    Values(s.fields.value)
  }

  /** The name a field value would lead to: a string field names itself, an
      array field names its `arrayType`; anything else names nothing. */
  function Target(v: FieldType): string {
    match v
    case Named(n) => n
    case ArrayOf(t) => t
    case Unknown => ""
  }

  /** A field value is followed when its target is a non-empty name of an
      existing schema (an empty name is falsy and skipped). */
  predicate Follows(v: FieldType, all: seq<Schema>) {
    Target(v) != "" && Target(v) in Names(all)
  }

  /** The schema names a list of field values leads to. */
  function RefsOf(vs: seq<FieldType>, all: seq<Schema>): set<string> {
    set v | v in vs && Follows(v, all) :: Target(v)
  }

  /** The schema names one schema's fields lead to (none without fields). */
  function Refs(s: Schema, all: seq<Schema>): set<string> {
    if s.fields.Some? then RefsOf(FieldValues(s), all) else {}
  }

  /** No schema name occurs twice. */
  predicate DistinctNames(rs: seq<Schema>) {
    forall i, j :: 0 <= i < j < |rs| ==> rs[i].name != rs[j].name
  }

  /** The references of every schema, as a function. */
  function RefsIn(all: seq<Schema>): Schema -> set<string> {
    x => Refs(x, all)
  }

  /** Every schema of `rs` was reached either from one of the `roots` names
      or through `refs` of a schema listed before it. */
  predicate DiscoveredFrom(rs: seq<Schema>, refs: Schema -> set<string>, roots: set<string>) {
    forall k :: 0 <= k < |rs| ==>
      rs[k].name in roots || exists j :: 0 <= j < k && rs[k].name in refs(rs[j])
  }

  /** In a schema followed by what was discovered from its references, the
      entry at `k > 0` was reached from an earlier entry. */
  lemma DiscoveredConsAt(s: Schema, rest: seq<Schema>, refs: Schema -> set<string>, k: int)
    requires DiscoveredFrom(rest, refs, refs(s))
    requires 0 < k <= |rest|
    ensures exists j :: 0 <= j < k && ([s] + rest)[k].name in refs(([s] + rest)[j])
  {
    var res := [s] + rest;
    var c := rest[k - 1];
    assert res[k] == c;
    if c.name in refs(s) {
      assert res[0] == s;
    } else {
      var j :| 0 <= j < k - 1 && c.name in refs(rest[j]);
      assert res[j + 1] == rest[j];
    }
  }

  /** A schema followed by what was discovered from its own references. */
  lemma DiscoveredCons(s: Schema, rest: seq<Schema>, refs: Schema -> set<string>)
    requires DiscoveredFrom(rest, refs, refs(s))
    ensures DiscoveredFrom([s] + rest, refs, {s.name})
  {
    forall k | 0 < k < |[s] + rest|
      ensures exists j :: 0 <= j < k && ([s] + rest)[k].name in refs(([s] + rest)[j])
    {
      DiscoveredConsAt(s, rest, refs, k);
    }
  }

  /** Two discovered runs, one after the other, are discovered from the union
      of their roots. */
  lemma DiscoveredConcat(a: seq<Schema>, b: seq<Schema>, refs: Schema -> set<string>, ra: set<string>, rb: set<string>, roots: set<string>)
    requires DiscoveredFrom(a, refs, ra) && DiscoveredFrom(b, refs, rb)
    requires ra + rb <= roots
    ensures DiscoveredFrom(a + b, refs, roots)
  {
    var res := a + b;
    forall k | 0 <= k < |res|
      ensures res[k].name in roots || exists j :: 0 <= j < k && res[k].name in refs(res[j])
    {
      if k < |a| {
        assert res[k] == a[k];
        if a[k].name !in ra {
          var j :| 0 <= j < k && a[k].name in refs(a[j]);
          assert res[j] == a[j];
        }
      } else {
        assert res[k] == b[k - |a|];
        if b[k - |a|].name !in rb {
          var j :| 0 <= j < k - |a| && b[k - |a|].name in refs(b[j]);
          assert res[j + |a|] == b[j];
        }
      }
    }
  }

  lemma SubsetCardinality(a: set<string>, b: set<string>)
    requires a <= b
    ensures |a| <= |b|
  {
    assert b == a + (b - a);
  }

  lemma StrictSubsetCardinality(a: set<string>, b: set<string>)
    requires a < b
    ensures |a| < |b|
  {
    assert b == a + (b - a);
  }

  /** Depth-first collection from schema `s`, with the set `seen` of names
      already processed: the schemas emitted and the grown set. A schema
      already seen emits nothing; otherwise it comes first, followed by what
      its fields collect, field by field. */
  function Collect(s: Schema, all: seq<Schema>, seen: set<string>): (r: (seq<Schema>, set<string>))
    requires s in all && AllHaveFields(all)
    ensures seen <= r.1
    decreases |Names(all) - seen|, 0
  {
    if s.name in seen then ([], seen)
    else
      assert s.name in Names(all);
      StrictSubsetCardinality(Names(all) - (seen + {s.name}), Names(all) - seen);
      var inner := CollectFields(FieldValues(s), all, seen + {s.name});
      ([s] + inner.0, inner.1)
  }

  /** Collection over the field values `vs`, in order, threading `seen`. */
  function CollectFields(vs: seq<FieldType>, all: seq<Schema>, seen: set<string>): (r: (seq<Schema>, set<string>))
    requires AllHaveFields(all)
    ensures seen <= r.1
    decreases |Names(all) - seen|, 1, |vs|
  {
    if vs == [] then ([], seen)
    else if !Follows(vs[0], all) then CollectFields(vs[1..], all, seen)
    else
      var first := Collect(Find(all, Target(vs[0])).value, all, seen);
      SubsetCardinality(Names(all) - first.1, Names(all) - seen);
      var rest := CollectFields(vs[1..], all, first.1);
      (first.0 + rest.0, rest.1)
  }

  /** The references of a non-empty list of values split at its head. */
  lemma RefsOfCons(vs: seq<FieldType>, all: seq<Schema>)
    requires vs != []
    ensures RefsOf(vs, all) == RefsOf([vs[0]], all) + RefsOf(vs[1..], all)
  {
    assert vs == [vs[0]] + vs[1..];
  }

  lemma NamesConcat(a: seq<Schema>, b: seq<Schema>)
    ensures Names(a + b) == Names(a) + Names(b)
  {
    assert forall x :: x in a + b <==> x in a || x in b;
  }

  lemma DistinctConcat(a: seq<Schema>, b: seq<Schema>)
    requires DistinctNames(a) && DistinctNames(b)
    requires Names(a) !! Names(b)
    ensures DistinctNames(a + b)
  {
    forall i, j | 0 <= i < j < |a + b| ensures (a + b)[i].name != (a + b)[j].name {
      if i < |a| && j >= |a| {
        assert (a + b)[i] == a[i] && a[i].name in Names(a);
        assert (a + b)[j] == b[j - |a|] && b[j - |a|].name in Names(b);
      } else if j < |a| {
        assert (a + b)[i] == a[i] && (a + b)[j] == a[j];
      } else {
        assert (a + b)[i] == b[i - |a|] && (a + b)[j] == b[j - |a|];
      }
    }
  }

  /** Collection grows `seen` by exactly the names it emits. */
  lemma {:induction false} CollectGrowsSeen(s: Schema, all: seq<Schema>, seen: set<string>)
    requires s in all && AllHaveFields(all)
    ensures Collect(s, all, seen).1 == seen + Names(Collect(s, all, seen).0)
    decreases |Names(all) - seen|, 0
  {
    if s.name !in seen {
      assert s.name in Names(all);
      StrictSubsetCardinality(Names(all) - (seen + {s.name}), Names(all) - seen);
      CollectFieldsGrowSeen(FieldValues(s), all, seen + {s.name});
      NamesConcat([s], CollectFields(FieldValues(s), all, seen + {s.name}).0);
    }
  }

  lemma {:induction false} CollectFieldsGrowSeen(vs: seq<FieldType>, all: seq<Schema>, seen: set<string>)
    requires AllHaveFields(all)
    ensures CollectFields(vs, all, seen).1 == seen + Names(CollectFields(vs, all, seen).0)
    decreases |Names(all) - seen|, 1, |vs|
  {
    if vs != [] {
      if !Follows(vs[0], all) {
        CollectFieldsGrowSeen(vs[1..], all, seen);
      } else {
        var t := Find(all, Target(vs[0])).value;
        var first := Collect(t, all, seen);
        CollectGrowsSeen(t, all, seen);
        SubsetCardinality(Names(all) - first.1, Names(all) - seen);
        CollectFieldsGrowSeen(vs[1..], all, first.1);
        NamesConcat(first.0, CollectFields(vs[1..], all, first.1).0);
      }
    }
  }

  /** Collection emits only schemas of `all` whose names were not yet seen. */
  lemma {:induction false} CollectEmitsUnseen(s: Schema, all: seq<Schema>, seen: set<string>)
    requires s in all && AllHaveFields(all)
    ensures forall x :: x in Collect(s, all, seen).0 ==>
      x in all && x.name !in seen && (x == s || Find(all, x.name) == Some(x))
    decreases |Names(all) - seen|, 0
  {
    if s.name !in seen {
      assert s.name in Names(all);
      StrictSubsetCardinality(Names(all) - (seen + {s.name}), Names(all) - seen);
      CollectFieldsEmitUnseen(FieldValues(s), all, seen + {s.name});
    }
  }

  lemma {:induction false} CollectFieldsEmitUnseen(vs: seq<FieldType>, all: seq<Schema>, seen: set<string>)
    requires AllHaveFields(all)
    ensures forall x :: x in CollectFields(vs, all, seen).0 ==>
      x in all && x.name !in seen && Find(all, x.name) == Some(x)
    decreases |Names(all) - seen|, 1, |vs|
  {
    if vs != [] {
      if !Follows(vs[0], all) {
        CollectFieldsEmitUnseen(vs[1..], all, seen);
      } else {
        var t := Find(all, Target(vs[0])).value;
        var first := Collect(t, all, seen);
        CollectEmitsUnseen(t, all, seen);
        assert Find(all, t.name) == Some(t);
        SubsetCardinality(Names(all) - first.1, Names(all) - seen);
        CollectFieldsEmitUnseen(vs[1..], all, first.1);
      }
    }
  }

  /** Collection emits each schema name at most once. */
  lemma {:induction false} CollectDistinct(s: Schema, all: seq<Schema>, seen: set<string>)
    requires s in all && AllHaveFields(all)
    ensures DistinctNames(Collect(s, all, seen).0)
    decreases |Names(all) - seen|, 0
  {
    if s.name !in seen {
      assert s.name in Names(all);
      StrictSubsetCardinality(Names(all) - (seen + {s.name}), Names(all) - seen);
      var rest := CollectFields(FieldValues(s), all, seen + {s.name}).0;
      CollectFieldsDistinct(FieldValues(s), all, seen + {s.name});
      CollectFieldsEmitUnseen(FieldValues(s), all, seen + {s.name});
      assert Names([s]) == {s.name};
      DistinctConcat([s], rest);
    }
  }

  lemma {:induction false} CollectFieldsDistinct(vs: seq<FieldType>, all: seq<Schema>, seen: set<string>)
    requires AllHaveFields(all)
    ensures DistinctNames(CollectFields(vs, all, seen).0)
    decreases |Names(all) - seen|, 1, |vs|
  {
    if vs != [] {
      if !Follows(vs[0], all) {
        CollectFieldsDistinct(vs[1..], all, seen);
      } else {
        var t := Find(all, Target(vs[0])).value;
        var first := Collect(t, all, seen);
        CollectDistinct(t, all, seen);
        CollectGrowsSeen(t, all, seen);
        SubsetCardinality(Names(all) - first.1, Names(all) - seen);
        var rest := CollectFields(vs[1..], all, first.1).0;
        CollectFieldsDistinct(vs[1..], all, first.1);
        CollectFieldsEmitUnseen(vs[1..], all, first.1);
        DistinctConcat(first.0, rest);
      }
    }
  }

  /** Every name a collected schema's fields lead to is in the final set:
      nothing reachable is left unvisited. */
  lemma {:induction false} CollectClosed(s: Schema, all: seq<Schema>, seen: set<string>)
    requires s in all && AllHaveFields(all)
    ensures forall x :: x in Collect(s, all, seen).0 ==> Refs(x, all) <= Collect(s, all, seen).1
    decreases |Names(all) - seen|, 0
  {
    if s.name !in seen {
      assert s.name in Names(all);
      StrictSubsetCardinality(Names(all) - (seen + {s.name}), Names(all) - seen);
      CollectFieldsClosed(FieldValues(s), all, seen + {s.name});
    }
  }

  lemma {:induction false} CollectFieldsClosed(vs: seq<FieldType>, all: seq<Schema>, seen: set<string>)
    requires AllHaveFields(all)
    ensures RefsOf(vs, all) <= CollectFields(vs, all, seen).1
    ensures forall x :: x in CollectFields(vs, all, seen).0 ==> Refs(x, all) <= CollectFields(vs, all, seen).1
    decreases |Names(all) - seen|, 1, |vs|
  {
    if vs != [] {
      RefsOfCons(vs, all);
      if !Follows(vs[0], all) {
        CollectFieldsClosed(vs[1..], all, seen);
      } else {
        var t := Find(all, Target(vs[0])).value;
        var first := Collect(t, all, seen);
        CollectClosed(t, all, seen);
        CollectGrowsSeen(t, all, seen);
        SubsetCardinality(Names(all) - first.1, Names(all) - seen);
        CollectFieldsClosed(vs[1..], all, first.1);
        assert t.name in first.1 by {
          if t.name !in seen {
            assert first.0[0] == t;
          }
        }
      }
    }
  }

  /** Every collected schema after the first was reached from a field of an
      earlier one, so each of them is reachable from the root. */
  lemma {:induction false} CollectDiscovered(s: Schema, all: seq<Schema>, seen: set<string>)
    requires s in all && AllHaveFields(all)
    ensures DiscoveredFrom(Collect(s, all, seen).0, RefsIn(all), {s.name})
    decreases |Names(all) - seen|, 0
  {
    if s.name !in seen {
      assert s.name in Names(all);
      StrictSubsetCardinality(Names(all) - (seen + {s.name}), Names(all) - seen);
      CollectFieldsDiscovered(FieldValues(s), all, seen + {s.name});
      DiscoveredCons(s, CollectFields(FieldValues(s), all, seen + {s.name}).0, RefsIn(all));
    }
  }

  lemma {:induction false} CollectFieldsDiscovered(vs: seq<FieldType>, all: seq<Schema>, seen: set<string>)
    requires AllHaveFields(all)
    ensures DiscoveredFrom(CollectFields(vs, all, seen).0, RefsIn(all), RefsOf(vs, all))
    decreases |Names(all) - seen|, 1, |vs|
  {
    if vs != [] {
      RefsOfCons(vs, all);
      if !Follows(vs[0], all) {
        CollectFieldsDiscovered(vs[1..], all, seen);
        DiscoveredConcat([], CollectFields(vs[1..], all, seen).0, RefsIn(all), {}, RefsOf(vs[1..], all), RefsOf(vs, all));
        assert [] + CollectFields(vs[1..], all, seen).0 == CollectFields(vs, all, seen).0;
      } else {
        var t := Find(all, Target(vs[0])).value;
        var first := Collect(t, all, seen);
        CollectDiscovered(t, all, seen);
        SubsetCardinality(Names(all) - first.1, Names(all) - seen);
        CollectFieldsDiscovered(vs[1..], all, first.1);
        assert vs[0] in [vs[0]];
        DiscoveredConcat(first.0, CollectFields(vs[1..], all, first.1).0, RefsIn(all), {t.name}, RefsOf(vs[1..], all), RefsOf(vs, all));
      }
    }
  }

  /** `collectGoSchemasRecursively`: adds the schema's name to the shared
      `processed` set, then collects, field by field, every schema a field
      leads to. Returns the collected list and the set as it stands after. */
  method CollectGoSchemasRecursively(schema: Schema, allSchemas: seq<Schema>, processed: set<string>)
    returns (collected: seq<Schema>, processedAfter: set<string>)
    requires schema in allSchemas && AllHaveFields(allSchemas)
    ensures (collected, processedAfter) == Collect(schema, allSchemas, processed)
    decreases |Names(allSchemas) - processed|, 0
  {
    if schema.name in processed {
      return [], processed;
    }
    processedAfter := processed + {schema.name};
    collected := [schema];
    assert schema.name in Names(allSchemas);
    StrictSubsetCardinality(Names(allSchemas) - processedAfter, Names(allSchemas) - processed);
    var more;
    more, processedAfter := CollectFromFields(FieldValues(schema), allSchemas, processedAfter);
    collected := collected + more;
  }

  /** The `for ... of Object.values(schema.fields)` loop of
      `collectGoSchemasRecursively`: each value that names an existing schema,
      directly or as an array's element type, has that schema collected, and
      the results are appended in field order. */
  method CollectFromFields(values: seq<FieldType>, allSchemas: seq<Schema>, processed: set<string>)
    returns (collected: seq<Schema>, processedAfter: set<string>)
    requires AllHaveFields(allSchemas)
    ensures (collected, processedAfter) == CollectFields(values, allSchemas, processed)
    decreases |Names(allSchemas) - processed|, 1
  {
    collected := [];
    processedAfter := processed;
    var pending := values;
    assert CollectFields(values, allSchemas, processed).0 == collected + CollectFields(pending, allSchemas, processedAfter).0;
    while pending != []
      invariant processed <= processedAfter
      invariant CollectFields(values, allSchemas, processed).0 ==
                collected + CollectFields(pending, allSchemas, processedAfter).0
      invariant CollectFields(values, allSchemas, processed).1 ==
                CollectFields(pending, allSchemas, processedAfter).1
    {
      var value := pending[0];
      if Follows(value, allSchemas) {
        var referenced := Find(allSchemas, Target(value)).value;
        CollectFieldsFollow(collected, pending, allSchemas, processedAfter);
        SubsetCardinality(Names(allSchemas) - processedAfter, Names(allSchemas) - processed);
        var more;
        more, processedAfter := CollectGoSchemasRecursively(referenced, allSchemas, processedAfter);
        collected := collected + more;
      } else {
        CollectFieldsSkip(pending, allSchemas, processedAfter);
      }
      pending := pending[1..];
    }
    assert collected + [] == collected;
  }

  /** One step of `CollectFields` over a value that leads nowhere. */
  lemma CollectFieldsSkip(vs: seq<FieldType>, all: seq<Schema>, seen: set<string>)
    requires AllHaveFields(all) && vs != [] && !Follows(vs[0], all)
    ensures CollectFields(vs, all, seen) == CollectFields(vs[1..], all, seen)
  {
  }

  /** One step of `CollectFields` over a value that leads to a schema,
      after a prefix `done` already emitted. */
  lemma CollectFieldsFollow(done: seq<Schema>, vs: seq<FieldType>, all: seq<Schema>, seen: set<string>)
    requires AllHaveFields(all) && vs != [] && Follows(vs[0], all)
    ensures var first := Collect(Find(all, Target(vs[0])).value, all, seen);
      && done + CollectFields(vs, all, seen).0 == (done + first.0) + CollectFields(vs[1..], all, first.1).0
      && CollectFields(vs, all, seen).1 == CollectFields(vs[1..], all, first.1).1
  {
  }

  /** `Array.from(new Set(xs))`: the first occurrence of each name, in order. */
  function Dedup(xs: seq<string>, seen: set<string>): (r: seq<string>)
    ensures forall k :: 0 <= k < |r| ==> r[k] in xs && r[k] !in seen
    ensures forall i, j :: 0 <= i < j < |r| ==> r[i] != r[j]
    ensures forall x :: x in xs && x !in seen ==> x in r
  {
    if xs == [] then []
    else if xs[0] in seen then Dedup(xs[1..], seen)
    else
      var rest := Dedup(xs[1..], seen + {xs[0]});
      var r := [xs[0]] + rest;
      assert forall k :: 0 <= k < |rest| ==> rest[k] != xs[0];
      assert forall i, j :: 0 <= i < j < |r| ==> r[i] != r[j] by {
        forall i, j | 0 <= i < j < |r| ensures r[i] != r[j] {
          assert r[j] == rest[j - 1];
          if i > 0 {
            assert r[i] == rest[i - 1];
          }
        }
      }
      assert forall x :: x in xs && x !in seen ==> x in r by {
        forall x | x in xs && x !in seen ensures x in r {
          if x != xs[0] {
            assert x in xs[1..] by { assert xs == [xs[0]] + xs[1..]; }
          }
        }
      }
      r
  }

  /** Removing duplicates from a list without any changes nothing. */
  lemma {:induction false} DedupOfDistinct(xs: seq<string>, seen: set<string>)
    requires forall i, j :: 0 <= i < j < |xs| ==> xs[i] != xs[j]
    requires forall k :: 0 <= k < |xs| ==> xs[k] !in seen
    ensures Dedup(xs, seen) == xs
  {
    if xs != [] {
      forall k | 0 <= k < |xs[1..]| ensures xs[1..][k] !in seen + {xs[0]} {
        assert xs[1..][k] == xs[k + 1];
      }
      DedupOfDistinct(xs[1..], seen + {xs[0]});
    }
  }

  /** The names, in order, of a list of schemas. */
  function NameList(rs: seq<Schema>): (r: seq<string>)
    ensures |r| == |rs| && forall k :: 0 <= k < |rs| ==> r[k] == rs[k].name
  {
    seq(|rs|, k requires 0 <= k < |rs| => rs[k].name)
  }

  /** The memoised list of the component: empty when no schema is named
      `schemaName`; otherwise the names collected from it with a fresh
      `processed` set, without duplicates. */
  function PreviewNames(all: seq<Schema>, schemaName: string): seq<string>
    requires AllHaveFields(all)
  {
    match Find(all, schemaName)
    case None => []
    case Some(main) => Dedup(NameList(Collect(main, all, {}).0), {})
  }

  /** The preview names are exactly the names of the collected schemas. */
  lemma PreviewNamesCollected(all: seq<Schema>, schemaName: string)
    requires AllHaveFields(all) && schemaName in Names(all)
    ensures var main := Find(all, schemaName).value;
      PreviewNames(all, schemaName) == NameList(Collect(main, all, {}).0)
  {
    var main := Find(all, schemaName).value;
    var rs := Collect(main, all, {}).0;
    CollectDistinct(main, all, {});
    DedupOfDistinct(NameList(rs), {});
  }

  /** What `GoSchemaDisplay` shows: the not-found message for a name with no
      schema, or the Go structs of the collected schemas. */
  datatype Display = NotFound(schemaName: string) | Structs(text: string)

  /** Go type named by a string (`resolveGoType` on a string): the JSON
      primitives map to Go's, any other name is taken as a custom type. */
  function GoNamedType(n: string): (r: string)
    ensures n !in {"string", "number", "boolean"} ==> r == n
  {
    if n == "string" then "string"
    else if n == "number" then "float64"
    else if n == "boolean" then "bool"
    else n
  }

  /** Go type of a field value (`resolveGoType`): a name as above, an array
      becomes a slice of its element type, anything else `interface{}`. */
  function ResolveGoType(v: FieldType): (r: string)
    ensures v.Named? ==> r == GoNamedType(v.name)
    ensures v.ArrayOf? ==> r == "[]" + GoNamedType(v.arrayType)
    ensures v.Unknown? ==> r == "interface{}"
  {
    match v
    case Named(n) => GoNamedType(n)
    case ArrayOf(t) => "[]" + GoNamedType(t)
    case Unknown => "interface{}"
  }

  /** `capitalizeGo`: the first character upper-cased, the rest unchanged. */
  function CapitalizeGo(str: string): (r: string)
    ensures |r| == |str|
    ensures forall i :: 1 <= i < |str| ==> r[i] == str[i]
    ensures str != [] ==> r[0] == AsciiUpper(str[0])
  {
    if str == [] then [] else [AsciiUpper(str[0])] + str[1..]
  }

  /** Capitalising twice is capitalising once. */
  lemma CapitalizeGoIdempotent(str: string)
    ensures CapitalizeGo(CapitalizeGo(str)) == CapitalizeGo(str)
  {
    if str != [] {
      var c := CapitalizeGo(str);
      assert AsciiUpper(c[0]) == c[0];
      assert CapitalizeGo(c)[1..] == c[1..];
    }
  }

  /** The opening line of a struct. */
  function StructHeader(name: string): string {
    "type " + name + " struct {"
  }

  /** One struct field: the capitalised key, its Go type and a JSON tag
      holding the key as written. */
  function FieldLine(f: Field): string {
    "\t" + CapitalizeGo(f.key) + " " + ResolveGoType(f.value) + " `json:\"" + f.key + "\"`"
  }

  /** The field lines of a list of entries, in order. */
  function FieldLines(fs: seq<Field>): (r: seq<string>)
    ensures |r| == |fs| && forall k :: 0 <= k < |fs| ==> r[k] == FieldLine(fs[k])
  {
    seq(|fs|, k requires 0 <= k < |fs| => FieldLine(fs[k]))
  }

  /** The lines of one struct: header, a line per field, the closing brace
      and an empty line. */
  function StructLines(name: string, fs: seq<Field>): seq<string> {
    [StructHeader(name)] + FieldLines(fs) + ["}", ""]
  }

  /** The text `formatGoSchema` returns: empty for a schema without fields,
      otherwise every struct line newline-terminated. */
  function GoStruct(s: Schema): string {
    match s.fields
    case None => ""
    case Some(fs) => Lines(StructLines(s.name, fs))
  }

  /** `formatGoSchema`: appends the header, one line per field entry and the
      closing brace to a string, in entry order. The set of processed names it
      takes is always a fresh default, so its duplicate guard never fires. */
  method FormatGoSchema(schema: Schema) returns (result: string)
    ensures result == GoStruct(schema)
  {
    if schema.fields.None? {
      return "";
    }
    var fs := schema.fields.value;
    var header := [StructHeader(schema.name)];
    result := "type " + schema.name + " struct {\n";
    var i := 0;
    while i < |fs|
      invariant 0 <= i <= |fs|
      invariant result == Lines(header + FieldLines(fs[..i]))
    {
      var key := fs[i].key;
      var fieldType := ResolveGoType(fs[i].value);
      var line := "\t" + CapitalizeGo(key) + " " + fieldType + " `json:\"" + key + "\"`";
      assert line == FieldLine(fs[i]);
      LinesSnoc(header + FieldLines(fs[..i]), line);
      FieldLinesSnoc(fs, i);
      assert header + FieldLines(fs[..i + 1]) == header + FieldLines(fs[..i]) + [line];
      result := result + line + "\n";
      i := i + 1;
    }
    assert fs[..i] == fs;
    LinesConcat(header + FieldLines(fs), ["}", ""]);
    result := result + "}\n\n";
  }

  lemma FieldLinesSnoc(fs: seq<Field>, i: int)
    requires 0 <= i < |fs|
    ensures FieldLines(fs[..i + 1]) == FieldLines(fs[..i]) + [FieldLine(fs[i])]
  {
  }

  /** A string without newlines. */
  predicate OneLine(str: string) {
    '\n' !in str
  }

  /** The Go type of a value whose target has no newline has none either. */
  lemma ResolveGoTypeOneLine(v: FieldType)
    requires OneLine(Target(v))
    ensures OneLine(ResolveGoType(v))
  {
  }

  /** A capitalised one-line string is one line. */
  lemma CapitalizeGoOneLine(str: string)
    requires OneLine(str)
    ensures OneLine(CapitalizeGo(str))
  {
    var c := CapitalizeGo(str);
    forall i | 0 <= i < |c| ensures c[i] != '\n' {
      if i > 0 {
        assert c[i] == str[i];
      }
    }
  }

  /** A field line built from one-line parts reads back as one line. */
  lemma FieldLinePlain(f: Field)
    requires OneLine(f.key) && OneLine(Target(f.value))
    ensures PlainLine(FieldLine(f))
  {
    ResolveGoTypeOneLine(f.value);
    CapitalizeGoOneLine(f.key);
    var l := FieldLine(f);
    assert l[|l| - 1] == '`';
  }

  /** Every struct line built from one-line names reads back as one line. */
  lemma StructLinesPlain(name: string, fs: seq<Field>)
    requires OneLine(name)
    requires forall f :: f in fs ==> OneLine(f.key) && OneLine(Target(f.value))
    ensures forall k :: 0 <= k < |StructLines(name, fs)| ==> PlainLine(StructLines(name, fs)[k])
  {
    var ls := StructLines(name, fs);
    forall k | 0 <= k < |ls| ensures PlainLine(ls[k]) {
      if k == 0 {
        var h := StructHeader(name);
        assert h[|h| - 1] == '{';
      } else if k <= |fs| {
        assert ls[k] == FieldLine(fs[k - 1]);
        FieldLinePlain(fs[k - 1]);
      }
    }
  }

  /** Read back line by line, a struct yields its header, one line per field
      entry holding that entry's key and type, and the closing brace. */
  lemma GoStructReadsBack(s: Schema)
    requires s.fields.Some? && OneLine(s.name)
    requires forall f :: f in s.fields.value ==> OneLine(f.key) && OneLine(Target(f.value))
    ensures var ls := ScanLines(GoStruct(s));
      && |ls| == |s.fields.value| + 3
      && ls[0] == StructHeader(s.name)
      && (forall k :: 0 <= k < |s.fields.value| ==> ls[k + 1] == FieldLine(s.fields.value[k]))
      && ls[|ls| - 2] == "}" && ls[|ls| - 1] == ""
  {
    var fs := s.fields.value;
    var ls := StructLines(s.name, fs);
    assert GoStruct(s) == Lines(ls);
    StructLinesPlain(s.name, fs);
    ScanLinesOfLines(ls);
    assert ScanLines(GoStruct(s)) == ls;
    StructLinesShape(s.name, fs);
  }

  lemma StructLinesShape(name: string, fs: seq<Field>)
    ensures var ls := StructLines(name, fs);
      && |ls| == |fs| + 3 && ls[0] == StructHeader(name)
      && (forall k :: 0 <= k < |fs| ==> ls[k + 1] == FieldLine(fs[k]))
      && ls[|ls| - 2] == "}" && ls[|ls| - 1] == ""
  {
    BracketedShape(StructHeader(name), FieldLines(fs));
  }

  lemma BracketedShape(h: string, body: seq<string>)
    ensures var ls := [h] + body + ["}", ""];
      && |ls| == |body| + 3 && ls[0] == h
      && (forall k :: 0 <= k < |body| ==> ls[k + 1] == body[k])
      && ls[|ls| - 2] == "}" && ls[|ls| - 1] == ""
  { }

  /** `GoSchemaDisplay`: finds the named schema, collects it and every schema
      it reaches, and shows each one's struct, separated by newlines. */
  function SchemaPreview(all: seq<Schema>, schemaName: string): Display
    requires AllHaveFields(all)
  {
    var ns := PreviewNames(all, schemaName);
    if |ns| == 0 then NotFound(schemaName)
    else Structs(Join(seq(|ns|, i requires 0 <= i < |ns| =>
      match Find(all, ns[i]) case Some(x) => GoStruct(x) case None => ""), "\n"))
  }

  /** The schemas collected for the preview of an existing name: the named
      schema first, and each of them the one `find` returns for its name. */
  lemma PreviewCollected(all: seq<Schema>, schemaName: string)
    requires AllHaveFields(all) && schemaName in Names(all)
    ensures var main := Find(all, schemaName).value;
      var rs := Collect(main, all, {}).0;
      && rs != [] && rs[0] == main
      && PreviewNames(all, schemaName) == NameList(rs)
      && forall k :: 0 <= k < |rs| ==> Find(all, rs[k].name) == Some(rs[k])
  {
    var main := Find(all, schemaName).value;
    PreviewNamesCollected(all, schemaName);
    CollectEmitsUnseen(main, all, {});
  }

  /** The preview is "not found" exactly when no schema has the name. */
  lemma SchemaPreviewNotFound(all: seq<Schema>, schemaName: string)
    requires AllHaveFields(all)
    ensures SchemaPreview(all, schemaName).NotFound? <==> schemaName !in Names(all)
  {
    if schemaName in Names(all) {
      PreviewCollected(all, schemaName);
    }
  }

  /** For an existing name the preview lists that schema first, every name
      once, and only names of existing schemas. */
  lemma PreviewNamesDistinct(all: seq<Schema>, schemaName: string)
    requires AllHaveFields(all) && schemaName in Names(all)
    ensures var ns := PreviewNames(all, schemaName);
      && ns != [] && ns[0] == schemaName
      && (forall i, j :: 0 <= i < j < |ns| ==> ns[i] != ns[j])
      && (forall k :: 0 <= k < |ns| ==> ns[k] in Names(all))
  {
    var main := Find(all, schemaName).value;
    PreviewCollected(all, schemaName);
    CollectDistinct(main, all, {});
  }

  /** Nothing is missing from the preview: every schema a listed schema's
      fields lead to is listed too. */
  lemma PreviewNamesClosed(all: seq<Schema>, schemaName: string)
    requires AllHaveFields(all) && schemaName in Names(all)
    ensures var ns := PreviewNames(all, schemaName);
      forall k :: 0 <= k < |ns| ==>
        Find(all, ns[k]).Some? && Refs(Find(all, ns[k]).value, all) <= set m | m in ns
  {
    var main := Find(all, schemaName).value;
    PreviewCollected(all, schemaName);
    CollectGrowsSeen(main, all, {});
    CollectClosed(main, all, {});
    ListedClosed(all, Collect(main, all, {}).0, Collect(main, all, {}).1);
  }

  /** Schemas whose references all lie among their own names list their
      references. */
  lemma ListedClosed(all: seq<Schema>, rs: seq<Schema>, seen: set<string>)
    requires forall x :: x in rs ==> Refs(x, all) <= seen
    requires seen == {} + Names(rs)
    requires forall k :: 0 <= k < |rs| ==> Find(all, rs[k].name) == Some(rs[k])
    ensures var ns := NameList(rs);
      forall k :: 0 <= k < |ns| ==>
        Find(all, ns[k]).Some? && Refs(Find(all, ns[k]).value, all) <= set m | m in ns
  {
    var ns := NameList(rs);
    forall m | m in Names(rs) ensures m in ns {
      var x :| x in rs && x.name == m;
      var k :| 0 <= k < |rs| && rs[k] == x;
      assert ns[k] == m;
    }
    forall k | 0 <= k < |ns|
      ensures Find(all, ns[k]).Some? && Refs(Find(all, ns[k]).value, all) <= set m | m in ns
    {
      assert Find(all, ns[k]).value == rs[k];
    }
  }

  /** In a list of distinct `find` results discovered from its first entry,
      every name after the first is a reference of an earlier one. */
  lemma NamesReached(all: seq<Schema>, rs: seq<Schema>)
    requires rs != [] && DistinctNames(rs)
    requires DiscoveredFrom(rs, RefsIn(all), {rs[0].name})
    requires forall k :: 0 <= k < |rs| ==> Find(all, rs[k].name) == Some(rs[k])
    ensures var ns := NameList(rs);
      forall k :: 1 <= k < |ns| ==>
        exists j :: 0 <= j < k && Find(all, ns[j]).Some? && ns[k] in Refs(Find(all, ns[j]).value, all)
  {
    var ns := NameList(rs);
    forall k | 1 <= k < |ns|
      ensures exists j :: 0 <= j < k && Find(all, ns[j]).Some? && ns[k] in Refs(Find(all, ns[j]).value, all)
    {
      assert rs[k].name !in {rs[0].name};
      var j :| 0 <= j < k && rs[k].name in RefsIn(all)(rs[j]);
      assert Find(all, ns[j]) == Some(rs[j]);
    }
  }

  /** Nothing extra is in the preview: every listed schema after the first is
      reached through a field of one listed before it. */
  lemma PreviewNamesReached(all: seq<Schema>, schemaName: string)
    requires AllHaveFields(all) && schemaName in Names(all)
    ensures var ns := PreviewNames(all, schemaName);
      forall k :: 1 <= k < |ns| ==>
        exists j :: 0 <= j < k && Find(all, ns[j]).Some? && ns[k] in Refs(Find(all, ns[j]).value, all)
  {
    var main := Find(all, schemaName).value;
    var rs := Collect(main, all, {}).0;
    PreviewCollected(all, schemaName);
    CollectDistinct(main, all, {});
    CollectDiscovered(main, all, {});
    NamesReached(all, rs);
  }

}
