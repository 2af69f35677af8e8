/** The schema-field editor (`UpdateSchema`): the rows being edited and the
    required keys, their updaters, the save guard and the reset. */
module SchemaEditor {
  import opened Wrappers
  import opened Text

  /** A field's value as the editor handles it: a type name, or an object
      with a `type` and an `arrayType` (the array form). */
  datatype FieldValue = Plain(name: string) | ArrayValue(objType: string, arrayType: string)

  /** One editor row; `id` stands for the random UUID the row gets. */
  datatype Row = Row(id: int, key: string, value: FieldValue)

  /** The candidate key `new<i>`. */
  function NewKey(i: nat): string {
    "new" + Decimal(i)
  }

  /** JavaScript's `p in c` for an array `c` of length `n`: `p` is one of
      its property names, `length` or an index. */
  predicate IsArrayProperty(n: nat, p: string) {
    p == "length" || (n > 0 && (p == Decimal(n - 1) || IsArrayProperty(n - 1, p)))
  }

  /** No candidate key is an array property: indices are digits only. */
  lemma {:induction false} NewKeyNotProperty(n: nat, i: nat)
    ensures !IsArrayProperty(n, NewKey(i))
    decreases n
  {
    assert NewKey(i)[0] == 'n';
    if n > 0 {
      assert Decimal(n - 1)[0] != 'n';
      NewKeyNotProperty(n - 1, i);
    }
  }

  /** `i` is the first counter for which the `in` test of `addField` fails. */
  predicate FirstFree(n: nat, i: nat) {
    !IsArrayProperty(n, NewKey(i)) && forall k :: 0 <= k < i ==> IsArrayProperty(n, NewKey(k))
  }

  /** Whatever the rows, `addField` picks the key `new0`. */
  lemma AddFieldKeyIsNew0(n: nat, i: nat)
    requires FirstFree(n, i)
    ensures i == 0 && NewKey(i) == "new0"
  {
    NewKeyNotProperty(n, 0);
    assert Decimal(0) == "0";
  }

  /** The index of the first row with the id, or -1. */
  function FindIndex(rows: seq<Row>, id: int): (r: int)
    ensures -1 <= r < |rows|
    ensures r == -1 <==> forall j :: 0 <= j < |rows| ==> rows[j].id != id
    ensures r >= 0 ==> rows[r].id == id && forall j :: 0 <= j < r ==> rows[j].id != id
  {
    if rows == [] then -1
    else if rows[0].id == id then 0
    else var r := FindIndex(rows[1..], id); if r == -1 then -1 else r + 1
  }

  /** The common shape of the row updaters: find the row by id, leave the
      list alone when there is none, otherwise map that index through `f`. */
  function UpdateRow(rows: seq<Row>, id: int, f: Row -> Row): (r: seq<Row>)
    ensures |r| == |rows|
    ensures FindIndex(rows, id) == -1 ==> r == rows
    ensures FindIndex(rows, id) >= 0 ==> r == rows[FindIndex(rows, id) := f(rows[FindIndex(rows, id)])]
  {
    var index := FindIndex(rows, id);
    if index == -1 then rows
    else seq(|rows|, i requires 0 <= i < |rows| => if i == index then f(rows[i]) else rows[i])
  }

  function Rename(rows: seq<Row>, id: int, key: string): seq<Row> {
    UpdateRow(rows, id, (f: Row) => f.(key := key))
  }

  function SetArrayType(rows: seq<Row>, id: int, v: string): seq<Row> {
    UpdateRow(rows, id, (f: Row) => f.(value := ArrayValue("array", v)))
  }

  /** The value a type choice gives a field: `array` keeps an existing
      array type or starts with `string`; anything else is stored as is. */
  function ChosenType(prev: FieldValue, v: string): FieldValue {
    if v == "array" then ArrayValue(v, if prev.ArrayValue? then prev.arrayType else "string") else Plain(v)
  }

  function SetType(rows: seq<Row>, id: int, v: string): seq<Row> {
    UpdateRow(rows, id, (f: Row) => f.(value := ChosenType(f.value, v)))
  }

  /** Only the first row with the id changes, and only in the part edited;
      with no such row nothing changes. */
  lemma UpdatersTouchOneRow(rows: seq<Row>, id: int, s: string)
    ensures FindIndex(rows, id) == -1 ==>
              Rename(rows, id, s) == rows && SetArrayType(rows, id, s) == rows && SetType(rows, id, s) == rows
    ensures var k := FindIndex(rows, id);
            k >= 0 ==>
              (forall j :: 0 <= j < |rows| && j != k ==>
                 Rename(rows, id, s)[j] == rows[j] && SetArrayType(rows, id, s)[j] == rows[j] && SetType(rows, id, s)[j] == rows[j])
              && Rename(rows, id, s)[k] == Row(id, s, rows[k].value)
              && SetArrayType(rows, id, s)[k] == Row(id, rows[k].key, ArrayValue("array", s))
              && SetType(rows, id, s)[k] == Row(id, rows[k].key, ChosenType(rows[k].value, s))
  {
  }

  /** Choosing `array` keeps the array type already there, else uses
      `string`; choosing anything else drops it. */
  lemma ChosenTypeCases(prev: FieldValue, v: string)
    ensures v == "array" && prev.ArrayValue? ==> ChosenType(prev, v) == ArrayValue("array", prev.arrayType)
    ensures v == "array" && prev.Plain? ==> ChosenType(prev, v) == ArrayValue("array", "string")
    ensures v != "array" ==> ChosenType(prev, v) == Plain(v)
  {
  }

  /** `Array.from(new Set(xs))`: first occurrences, in order. */
  function Dedup(xs: seq<string>): (r: seq<string>)
    ensures forall x :: x in r <==> x in xs
    ensures forall i, j :: 0 <= i < j < |r| ==> r[i] != r[j]
  {
    if xs == [] then []
    else
      var r := Dedup(xs[..|xs| - 1]);
      if xs[|xs| - 1] in r then r else r + [xs[|xs| - 1]]
  }

  /** The required list after the checkbox of `key` changes. */
  function ToggleRequired(required: seq<string>, key: string, checked: bool): seq<string> {
    if checked then Dedup(required + [key]) else Remove(required, key)
  }

  /** `filter((i) => i !== key)`. */
  function Remove(xs: seq<string>, key: string): (r: seq<string>)
    ensures |r| <= |xs|
  {
    if xs == [] then [] else Remove(xs[..|xs| - 1], key) + if xs[|xs| - 1] == key then [] else [xs[|xs| - 1]]
  }

  lemma {:induction false} RemoveExactly(xs: seq<string>, key: string)
    ensures forall x :: x in Remove(xs, key) <==> x in xs && x != key
    decreases |xs|
  {
    if xs != [] {
      RemoveExactly(xs[..|xs| - 1], key);
      assert xs == xs[..|xs| - 1] + [xs[|xs| - 1]];
    }
  }

  /** Checking adds the key once, without duplicates; unchecking removes
      every occurrence; no other key is affected. */
  lemma ToggleRequiredEffect(required: seq<string>, key: string)
    ensures key in ToggleRequired(required, key, true) && !(key in ToggleRequired(required, key, false))
    ensures forall x :: x != key ==> (x in ToggleRequired(required, key, true) <==> x in required)
    ensures forall x :: x != key ==> (x in ToggleRequired(required, key, false) <==> x in required)
    ensures forall i, j :: 0 <= i < j < |ToggleRequired(required, key, true)| ==>
              ToggleRequired(required, key, true)[i] != ToggleRequired(required, key, true)[j]
  {
    RemoveExactly(required, key);
  }

  /** Deleting drops every row with the id. */
  function RemoveRows(rows: seq<Row>, id: int): (r: seq<Row>)
    ensures forall f :: f in r <==> f in rows && f.id != id
  {
    if rows == [] then []
    else RemoveRows(rows[..|rows| - 1], id) + if rows[|rows| - 1].id == id then [] else [rows[|rows| - 1]]
  }

  /** The keys of the rows, in order. */
  function Keys(rows: seq<Row>): (r: seq<string>)
    ensures |r| == |rows|
    ensures forall j :: 0 <= j < |rows| ==> r[j] == rows[j].key
  {
    seq(|rows|, j requires 0 <= j < |rows| => rows[j].key)
  }

  /** `new Set(keys)`: the keys of the rows as a set. */
  function KeySet(rows: seq<Row>): (r: set<string>)
    ensures |r| <= |rows|
    ensures forall j :: 0 <= j < |rows| ==> rows[j].key in r
    ensures forall k :: k in r ==> exists j :: 0 <= j < |rows| && rows[j].key == k
  {
    if rows == [] then {}
    else
      var n := |rows| - 1;
      var r := KeySet(rows[..n]);
      KeySetStep(rows, n, r);
      r + {rows[n].key}
  }

  /** The step of `KeySet`: the keys of all rows but the last, and the last
      row's key. */
  lemma KeySetStep(rows: seq<Row>, n: nat, r: set<string>)
    requires n + 1 == |rows|
    requires |r| <= n
    requires forall j :: 0 <= j < n ==> rows[..n][j].key in r
    requires forall k :: k in r ==> exists j :: 0 <= j < n && rows[..n][j].key == k
    ensures |r + {rows[n].key}| <= |rows|
    ensures forall j :: 0 <= j < |rows| ==> rows[j].key in r + {rows[n].key}
    ensures forall k :: k in r + {rows[n].key} ==> exists j :: 0 <= j < |rows| && rows[j].key == k
  {
    forall j | 0 <= j < n
      ensures rows[j].key in r
    {
      assert rows[..n][j] == rows[j];
    }
    forall k | k in r
      ensures exists j :: 0 <= j < |rows| && rows[j].key == k
    {
      var j :| 0 <= j < n && rows[..n][j].key == k;
      assert rows[j] == rows[..n][j];
    }
  }

  /** The save guard: the keys, as a set, are as many as the rows. */
  predicate KeysUnique(rows: seq<Row>) {
    |KeySet(rows)| == |rows|
  }

  /** No two rows share a key. */
  predicate DistinctKeys(rows: seq<Row>) {
    forall i, j :: 0 <= i < j < |rows| ==> rows[i].key != rows[j].key
  }

  /** The keys are as many as the rows exactly when no two rows share a key. */
  lemma {:induction false} KeysUniqueExactly(rows: seq<Row>)
    ensures KeysUnique(rows) <==> DistinctKeys(rows)
    decreases |rows|
  {
    if rows != [] {
      var n := |rows| - 1;
      var prefix := rows[..n];
      KeysUniqueExactly(prefix);
      assert KeySet(rows) == KeySet(prefix) + {rows[n].key};
      if rows[n].key in KeySet(prefix) {
        SharedLastKey(rows);
      } else {
        FreshLastKey(rows);
      }
    }
  }

  lemma SharedLastKey(rows: seq<Row>)
    requires rows != [] && rows[|rows| - 1].key in KeySet(rows[..|rows| - 1])
    ensures !KeysUnique(rows) && !DistinctKeys(rows)
  {
    var n := |rows| - 1;
    var prefix := rows[..n];
    assert KeySet(rows) == KeySet(prefix);
    var j :| 0 <= j < n && prefix[j].key == rows[n].key;
    assert rows[j].key == rows[n].key;
  }

  lemma FreshLastKey(rows: seq<Row>)
    requires rows != [] && rows[|rows| - 1].key !in KeySet(rows[..|rows| - 1])
    ensures KeysUnique(rows) <==> KeysUnique(rows[..|rows| - 1])
    ensures DistinctKeys(rows) <==> DistinctKeys(rows[..|rows| - 1])
  {
    var n := |rows| - 1;
    var prefix := rows[..n];
    assert KeySet(rows) == KeySet(prefix) + {rows[n].key};
    forall j | 0 <= j < n
      ensures rows[j].key != rows[n].key
    {
      assert prefix[j].key in KeySet(prefix);
    }
    DistinctSnoc(rows);
  }

  /** A row whose key no row has keeps the keys unique. */
  lemma FreshRowKeepsUnique(rows: seq<Row>, r: Row)
    requires forall f :: f in rows ==> f.key != r.key
    ensures KeysUnique(rows) ==> KeysUnique(rows + [r])
  {
    var after := rows + [r];
    assert after[..|rows|] == rows;
    forall j | 0 <= j < |rows|
      ensures rows[j].key != r.key
    {
      assert rows[j] in rows;
    }
    FreshLastKey(after);
  }

  /** Appending a row whose key is new keeps the keys distinct, and only then. */
  lemma DistinctSnoc(rows: seq<Row>)
    requires rows != [] && forall j :: 0 <= j < |rows| - 1 ==> rows[j].key != rows[|rows| - 1].key
    ensures DistinctKeys(rows) <==> DistinctKeys(rows[..|rows| - 1])
  {
    var prefix := rows[..|rows| - 1];
    if DistinctKeys(prefix) {
      forall i, j | 0 <= i < j < |rows|
        ensures rows[i].key != rows[j].key
      {
        if j < |prefix| {
          assert prefix[i] == rows[i] && prefix[j] == rows[j];
        }
      }
    }
    if DistinctKeys(rows) {
      forall i, j | 0 <= i < j < |prefix|
        ensures prefix[i].key != prefix[j].key
      {
        assert prefix[i] == rows[i] && prefix[j] == rows[j];
      }
    }
  }

  /** What `saveSchema` hands the store: the schema's name (where the store
      expects an index), the fields keyed by key, and the required list. */
  datatype SaveRequest = SaveRequest(name: string, fields: map<string, FieldValue>, required: seq<string>)

  /** The fields object built from the rows; for unique keys every row
      keeps its value. */
  function FieldsObject(rows: seq<Row>): (m: map<string, FieldValue>)
    ensures m.Keys == KeySet(rows)
  {
    if rows == [] then map[]
    else
      var n := |rows| - 1;
      FieldsObject(rows[..n])[rows[n].key := rows[n].value]
  }

  /** The editor of one schema. `formatted` and `schemaRequired` are the
      schema's own rows and required list, which `reset` restores. */
  class Editor {
    var fields: seq<Row>
    var required: seq<string>
    const name: string
    const formatted: seq<Row>
    const schemaRequired: seq<string>

    /** The rows start as the schema's entries, each with its id. */
    constructor (schemaName: string, entries: seq<(string, FieldValue)>, ids: seq<int>, schemaReq: seq<string>)
      requires |ids| == |entries|
      ensures name == schemaName && schemaRequired == schemaReq
      ensures |formatted| == |entries|
      ensures forall j :: 0 <= j < |entries| ==> formatted[j] == Row(ids[j], entries[j].0, entries[j].1)
      ensures fields == formatted && required == schemaReq && !IsDirty()
    {
      name := schemaName;
      schemaRequired := schemaReq;
      var rows := seq(|entries|, j requires 0 <= j < |entries| => Row(ids[j], entries[j].0, entries[j].1));
      formatted := rows;
      fields := rows;
      required := schemaReq;
    }

    predicate IsDirty()
      reads this
    {
      fields != formatted || required != schemaRequired
    }

    /** `addField` as written: the counter stops at the first `new<i>` that
      is not a property of the row array, and a `string` row with that key
      is appended. */
    method AddField(id: int)
      modifies this
      ensures exists i: nat :: FirstFree(|old(fields)|, i) && fields == old(fields) + [Row(id, NewKey(i), Plain("string"))]
      ensures required == old(required)
    {
      var c := fields;
      var i: nat := 0;
      while IsArrayProperty(|c|, NewKey(i))
        invariant forall k :: 0 <= k < i ==> IsArrayProperty(|c|, NewKey(k))
        invariant fields == old(fields) && required == old(required)
        decreases if IsArrayProperty(|c|, NewKey(i)) then 1 else 0
      {
        NewKeyNotProperty(|c|, i + 1);
        i := i + 1;
      }
      fields := c + [Row(id, NewKey(i), Plain("string"))];
    }

    /** The intended `addField`: the counter stops at the first `new<i>` no
      row uses as its key. */
    method AddFieldFixed(id: int)
      modifies this
      ensures exists i: nat :: fields == old(fields) + [Row(id, NewKey(i), Plain("string"))]
                               && forall f :: f in old(fields) ==> f.key != NewKey(i)
      ensures required == old(required)
      ensures KeysUnique(old(fields)) ==> KeysUnique(fields)
    {
      var c := fields;
      var i: nat := 0;
      while exists f :: f in c && f.key == NewKey(i)
        invariant forall k :: 0 <= k < i ==> NewKey(k) in Keys(c)
        invariant fields == old(fields) && required == old(required)
        decreases |c| - i
      {
        var f :| f in c && f.key == NewKey(i);
        assert NewKey(i) in Keys(c);
        NewKeysBound(c, i + 1);
        i := i + 1;
      }
      fields := c + [Row(id, NewKey(i), Plain("string"))];
      FreshRowKeepsUnique(c, Row(id, NewKey(i), Plain("string")));
    }

    /** The required checkbox of `key`. */
    method CheckRequired(key: string, checked: bool)
      modifies this
      ensures required == ToggleRequired(old(required), key, checked) && fields == old(fields)
    {
      required := ToggleRequired(required, key, checked);
    }

    method RenameField(id: int, key: string)
      modifies this
      ensures fields == Rename(old(fields), id, key) && required == old(required)
    {
      fields := Rename(fields, id, key);
    }

    method ChangeType(id: int, v: string)
      modifies this
      ensures fields == SetType(old(fields), id, v) && required == old(required)
    {
      fields := SetType(fields, id, v);
    }

    method ChangeArrayType(id: int, v: string)
      modifies this
      ensures fields == SetArrayType(old(fields), id, v) && required == old(required)
    {
      fields := SetArrayType(fields, id, v);
    }

    /** The delete button of a row: its key leaves `required`, its id leaves `fields`. */
    method DeleteRow(id: int, key: string)
      modifies this
      ensures required == Remove(old(required), key) && fields == RemoveRows(old(fields), id)
    {
      required := Remove(required, key);
      fields := RemoveRows(fields, id);
    }

    method Reset()
      modifies this
      ensures fields == formatted && required == schemaRequired && !IsDirty()
    {
      fields := formatted;
      required := schemaRequired;
    }

    /** `saveSchema`: nothing is sent when two rows share a key. */
    method SaveSchema() returns (request: Option<SaveRequest>)
      ensures request.None? <==> !DistinctKeys(fields)
      ensures request.Some? ==> request.value == SaveRequest(name, FieldsObject(fields), required)
    {
      var keys := Keys(fields);
      var uniqueKeys := KeySet(fields);
      KeysUniqueExactly(fields);
      if |keys| != |uniqueKeys| {
        return None;
      }
      request := Some(SaveRequest(name, FieldsObject(fields), required));
    }
  }

  /** `new0` .. `new<m-1>` all among the keys means at least `m` rows. */
  lemma NewKeysBound(c: seq<Row>, m: nat)
    requires forall k :: 0 <= k < m ==> NewKey(k) in Keys(c)
    ensures m <= |c|
  {
    var tried := set k | 0 <= k < m :: NewKey(k);
    assert tried <= KeySet(c);
    NewKeysCount(m);
    SubsetSize(tried, KeySet(c));
  }

  lemma {:induction false} NewKeysCount(m: nat)
    ensures |set k | 0 <= k < m :: NewKey(k)| == m
    decreases m
  {
    if m > 0 {
      NewKeysCount(m - 1);
      NewKeysSnoc(m - 1);
      var before := set k | 0 <= k < m - 1 :: NewKey(k);
      if NewKey(m - 1) in before {
        var k :| 0 <= k < m - 1 && NewKey(k) == NewKey(m - 1);
        NewKeyInjective(k, m - 1);
      }
    }
  }

  lemma NewKeysSnoc(m: nat)
    ensures (set k | 0 <= k < m + 1 :: NewKey(k)) == (set k | 0 <= k < m :: NewKey(k)) + {NewKey(m)}
  {
  }

  /** Distinct counters give distinct keys. */
  lemma NewKeyInjective(a: nat, b: nat)
    requires NewKey(a) == NewKey(b)
    ensures a == b
  {
    assert Decimal(a) == NewKey(a)[3..] && Decimal(b) == NewKey(b)[3..];
    DecimalInjective(a, b);
  }

  lemma SubsetSize(a: set<string>, b: set<string>)
    requires a <= b
    ensures |a| <= |b|
  {
    assert b == a + (b - a);
  }

  /** As written, adding two fields to any rows yields two rows keyed
      `new0`, and the save guard then refuses the schema. */
  lemma TwoAddsCollide(rows: seq<Row>, id1: int, id2: int, i1: nat, i2: nat)
    requires FirstFree(|rows|, i1) && FirstFree(|rows| + 1, i2)
    ensures var after := rows + [Row(id1, NewKey(i1), Plain("string"))] + [Row(id2, NewKey(i2), Plain("string"))];
            !KeysUnique(after)
  {
    AddFieldKeyIsNew0(|rows|, i1);
    AddFieldKeyIsNew0(|rows| + 1, i2);
    var after := rows + [Row(id1, NewKey(i1), Plain("string"))] + [Row(id2, NewKey(i2), Plain("string"))];
    KeysUniqueExactly(after);
    assert after[|rows|].key == after[|rows| + 1].key;
  }
}
