/** `generateTSTypes` (apex-utils.go): the text of `types.ts`, one exported
    object type per schema of the APEX document. */
module ApexTsTypes {
  import opened Wrappers
  import opened Text
  import opened ApexTypes
  import opened ApexNames
  import opened GoMaps

  /** The banner line and the blank line that open the file. */
  const Banner: seq<string> := ["/* Auto-generated TypeScript Types */", ""]

  function TypeHeader(name: string): string {
    "export type " + name + " = {"
  }

  /** A member: key, colon, TypeScript type of the key's value; never an
      optional marker. */
  function MemberLine(key: string, v: FieldType): string {
    "  " + key + ": " + TsType(v) + ";"
  }

  /** Every key visited is a key of the map. */
  predicate KeysIn(keys: seq<string>, m: map<string, FieldType>) {
    forall i :: 0 <= i < |keys| ==> keys[i] in m
  }

  /** The member lines of a decoded `fields` map, in the order its keys are
      visited. */
  function MemberLines(m: map<string, FieldType>, keys: seq<string>): (r: seq<string>)
    requires KeysIn(keys, m)
    ensures |r| == |keys|
    ensures forall i {:trigger r[i]} :: 0 <= i < |keys| ==> r[i] == MemberLine(keys[i], m[keys[i]])
  {
    if keys == [] then []
    else
      var n := |keys| - 1;
      MemberLines(m, keys[..n]) + [MemberLine(keys[n], m[keys[n]])]
  }

  /** `keys` is an order in which Go's `range` may visit the decoded fields
      of `s` (any order will do for a schema whose fields do not decode). */
  predicate OrderFits(s: Schema, keys: seq<string>) {
    s.fields.Some? ==> Enumerates(keys, FieldMap(s.fields.value).Keys)
  }

  /** `orders[k]` is a visiting order for the fields of `schemas[k]`. */
  predicate OrdersFit(schemas: seq<Schema>, orders: seq<seq<string>>) {
    |orders| == |schemas| && forall k :: 0 <= k < |schemas| ==> OrderFits(schemas[k], orders[k])
  }

  /** The lines one schema contributes: its header and, only when its fields
      decode as an object, one member line per key in the visiting order and
      the closing brace. */
  function TypeBlock(s: Schema, keys: seq<string>): seq<string>
    requires OrderFits(s, keys)
  {
    [TypeHeader(s.name)] + match s.fields case None => [] case Some(fs) => MemberLines(FieldMap(fs), keys) + ["}", ""]
  }

  /** The blocks of all schemas, in document order. */
  function TypeBlocks(schemas: seq<Schema>, orders: seq<seq<string>>): seq<string>
    requires OrdersFit(schemas, orders)
  {
    if schemas == [] then []
    else
      var n := |schemas| - 1;
      TypeBlocks(schemas[..n], orders[..n]) + TypeBlock(schemas[n], orders[n])
  }

  /** The whole `types.ts` text, for the given visiting orders. */
  function TypesFile(schemas: seq<Schema>, orders: seq<seq<string>>): string
    requires OrdersFit(schemas, orders)
  {
    Lines(Banner + TypeBlocks(schemas, orders))
  }

  /** `generateTSTypes`: appends a header per schema, then (unless the fields
      fail to decode, in which case it moves on) a member line per key of the
      decoded map, in Go's unspecified map order, and the closing brace. The
      file write is left out. */
  method GenerateTSTypes(apex: ApexData) returns (ts: string)
    ensures exists orders :: OrdersFit(apex.schemas, orders) && ts == TypesFile(apex.schemas, orders)
  {
    ts := "/* Auto-generated TypeScript Types */\n\n";
    ghost var orders: seq<seq<string>> := [];
    TypesFileStart(apex.schemas);
    var i := 0;
    while i < |apex.schemas|
      invariant 0 <= i <= |apex.schemas|
      invariant OrdersFit(apex.schemas[..i], orders)
      invariant ts == TypesFile(apex.schemas[..i], orders)
    {
      var block := TypeBlockText(apex.schemas[i]);
      ghost var keys :| OrderFits(apex.schemas[i], keys) && block == Lines(TypeBlock(apex.schemas[i], keys));
      TypesFileSnoc(apex.schemas, orders, keys, i);
      ts := ts + block;
      orders := orders + [keys];
      i := i + 1;
    }
    assert apex.schemas[..i] == apex.schemas;
  }

  lemma TypesFileStart(schemas: seq<Schema>)
    ensures OrdersFit(schemas[..0], [])
    ensures TypesFile(schemas[..0], []) == "/* Auto-generated TypeScript Types */\n\n"
  {
    assert Banner + TypeBlocks(schemas[..0], []) == Banner;
    assert Banner[1..][1..] == [];
  }

  lemma OrdersFitSnoc(schemas: seq<Schema>, orders: seq<seq<string>>, keys: seq<string>, i: int)
    requires 0 <= i < |schemas| && OrdersFit(schemas[..i], orders) && OrderFits(schemas[i], keys)
    ensures OrdersFit(schemas[..i + 1], orders + [keys])
  {
    var s := schemas[..i + 1];
    var o := orders + [keys];
    forall k | 0 <= k < |s|
      ensures OrderFits(s[k], o[k])
    {
      if k < i {
        assert s[k] == schemas[..i][k] && o[k] == orders[k];
      }
    }
  }

  lemma TypesFileSnoc(schemas: seq<Schema>, orders: seq<seq<string>>, keys: seq<string>, i: int)
    requires 0 <= i < |schemas| && OrdersFit(schemas[..i], orders) && OrderFits(schemas[i], keys)
    ensures OrdersFit(schemas[..i + 1], orders + [keys])
    ensures TypesFile(schemas[..i + 1], orders + [keys]) == TypesFile(schemas[..i], orders) + Lines(TypeBlock(schemas[i], keys))
  {
    TypeBlocksSnoc(schemas, orders, keys, i);
    BannerLinesConcat(TypeBlocks(schemas[..i], orders), TypeBlock(schemas[i], keys));
  }

  lemma TypeBlocksSnoc(schemas: seq<Schema>, orders: seq<seq<string>>, keys: seq<string>, i: int)
    requires 0 <= i < |schemas| && OrdersFit(schemas[..i], orders) && OrderFits(schemas[i], keys)
    ensures OrdersFit(schemas[..i + 1], orders + [keys])
    ensures TypeBlocks(schemas[..i + 1], orders + [keys]) == TypeBlocks(schemas[..i], orders) + TypeBlock(schemas[i], keys)
  {
    OrdersFitSnoc(schemas, orders, keys, i);
    var s := schemas[..i + 1];
    var o := orders + [keys];
    assert s[..i] == schemas[..i] && o[..i] == orders;
  }

  lemma BannerLinesConcat(before: seq<string>, block: seq<string>)
    ensures Lines(Banner + (before + block)) == Lines(Banner + before) + Lines(block)
  {
    assert Banner + (before + block) == (Banner + before) + block;
    LinesConcat(Banner + before, block);
  }

  /** One pass of the schema loop of `generateTSTypes`: the header, then,
      when the fields decode, the members in map order and the closing
      brace. */
  method TypeBlockText(schema: Schema) returns (text: string)
    ensures exists keys :: OrderFits(schema, keys) && text == Lines(TypeBlock(schema, keys))
  {
    var header := TypeHeader(schema.name);
    text := header + "\n";
    if schema.fields.None? {
      assert OrderFits(schema, []) && text == Lines(TypeBlock(schema, []));
      return;
    }
    var m := FieldMap(schema.fields.value);
    var keys := EnumerateSet(m.Keys);
    var members := MembersText(m, keys);
    LinesConcat([header], MemberLines(m, keys) + ["}", ""]);
    LinesConcat(MemberLines(m, keys), ["}", ""]);
    assert Lines(["}", ""]) == "}\n\n";
    text := text + members + "}\n\n";
    assert OrderFits(schema, keys) && text == Lines(TypeBlock(schema, keys));
  }

  /** The inner loop of `generateTSTypes`: one member line per key visited. */
  method MembersText(m: map<string, FieldType>, keys: seq<string>) returns (text: string)
    requires KeysIn(keys, m)
    ensures text == Lines(MemberLines(m, keys))
  {
    text := "";
    var j := 0;
    while j < |keys|
      invariant 0 <= j <= |keys|
      invariant text == Lines(MemberLines(m, keys[..j]))
    {
      var line := "  " + keys[j] + ": " + TsType(m[keys[j]]) + ";";
      LinesSnoc(MemberLines(m, keys[..j]), line);
      assert keys[..j + 1][..j] == keys[..j];
      text := text + line + "\n";
      j := j + 1;
    }
    assert keys[..j] == keys;
  }

  /** The schemas' `required` lists play no part: two documents whose schemas
      agree on names and fields produce the same types. */
  lemma {:induction false} TypesIgnoreRequired(a: seq<Schema>, b: seq<Schema>, orders: seq<seq<string>>)
    requires |a| == |b| && OrdersFit(a, orders)
    requires forall k :: 0 <= k < |a| ==> a[k].name == b[k].name && a[k].fields == b[k].fields
    ensures OrdersFit(b, orders) && TypeBlocks(a, orders) == TypeBlocks(b, orders)
    decreases |a|
  {
    forall k | 0 <= k < |b|
      ensures OrderFits(b[k], orders[k])
    {
      assert OrderFits(a[k], orders[k]);
    }
    if a != [] {
      var n := |a| - 1;
      OrdersFitPrefix(a, orders, n);
      forall k | 0 <= k < n
        ensures a[..n][k].name == b[..n][k].name && a[..n][k].fields == b[..n][k].fields
      {
        assert a[..n][k] == a[k] && b[..n][k] == b[k];
      }
      TypesIgnoreRequired(a[..n], b[..n], orders[..n]);
      assert TypeBlock(a[n], orders[n]) == TypeBlock(b[n], orders[n]);
    }
  }

  /** Every entry of every schema whose fields decode has a member line, with
      the value of the last entry of its key, whatever order Go visits the
      keys in. */
  lemma TypesListEveryField(schemas: seq<Schema>, orders: seq<seq<string>>, k: int, f: Field)
    requires OrdersFit(schemas, orders)
    requires 0 <= k < |schemas| && schemas[k].fields.Some? && f in schemas[k].fields.value
    ensures MemberLine(f.key, FieldMap(schemas[k].fields.value)[f.key]) in TypeBlocks(schemas, orders)
  {
    assert OrderFits(schemas[k], orders[k]);
    BlockHasMember(schemas[k], orders[k], f);
    BlocksContainBlock(schemas, orders, k, MemberLine(f.key, FieldMap(schemas[k].fields.value)[f.key]));
  }

  /** Every line of a schema's block is a line of the blocks of the list. */
  lemma {:induction false} BlocksContainBlock(schemas: seq<Schema>, orders: seq<seq<string>>, k: int, l: string)
    requires OrdersFit(schemas, orders) && 0 <= k < |schemas|
    requires OrderFits(schemas[k], orders[k]) && l in TypeBlock(schemas[k], orders[k])
    ensures l in TypeBlocks(schemas, orders)
    decreases |schemas|
  {
    var n := |schemas| - 1;
    TypeBlocksLast(schemas, orders);
    if k < n {
      assert schemas[..n][k] == schemas[k] && orders[..n][k] == orders[k];
      BlocksContainBlock(schemas[..n], orders[..n], k, l);
    }
  }

  /** The blocks of a non-empty list: those of all but the last schema, then
      the last schema's block. */
  lemma TypeBlocksLast(schemas: seq<Schema>, orders: seq<seq<string>>)
    requires OrdersFit(schemas, orders) && schemas != []
    ensures OrdersFit(schemas[..|schemas| - 1], orders[..|schemas| - 1])
    ensures OrderFits(schemas[|schemas| - 1], orders[|schemas| - 1])
    ensures forall l :: l in TypeBlocks(schemas, orders) <==>
      l in TypeBlocks(schemas[..|schemas| - 1], orders[..|schemas| - 1]) || l in TypeBlock(schemas[|schemas| - 1], orders[|schemas| - 1])
  {
    OrdersFitPrefix(schemas, orders, |schemas| - 1);
  }

  lemma OrdersFitPrefix(schemas: seq<Schema>, orders: seq<seq<string>>, n: int)
    requires OrdersFit(schemas, orders) && 0 <= n <= |schemas|
    ensures OrdersFit(schemas[..n], orders[..n])
  {
    forall k | 0 <= k < n
      ensures OrderFits(schemas[..n][k], orders[..n][k])
    {
      assert OrderFits(schemas[k], orders[k]);
    }
  }

  /** A decoded entry's key is visited, so its member line is in the block. */
  lemma BlockHasMember(s: Schema, keys: seq<string>, f: Field)
    requires OrderFits(s, keys) && s.fields.Some? && f in s.fields.value
    ensures MemberLine(f.key, FieldMap(s.fields.value)[f.key]) in TypeBlock(s, keys)
  {
    var m := FieldMap(s.fields.value);
    assert f.key in KeysOf(s.fields.value);
    EnumeratesKeysIn(keys, m);
    assert f.key in keys;
    var i :| 0 <= i < |keys| && keys[i] == f.key;
    var lines := MemberLines(m, keys);
    assert lines[i] == MemberLine(f.key, m[f.key]);
    var block := [TypeHeader(s.name)] + lines + ["}", ""];
    assert TypeBlock(s, keys) == block;
    assert block[i + 1] == lines[i];
  }

  /** Every line one visiting order yields, another order yields too. */
  lemma MemberLinesIncluded(m: map<string, FieldType>, o1: seq<string>, o2: seq<string>)
    requires KeysIn(o1, m) && KeysIn(o2, m)
    requires forall k :: k in m ==> k in o2
    ensures forall l :: l in MemberLines(m, o1) ==> l in MemberLines(m, o2)
  {
    forall l | l in MemberLines(m, o1)
      ensures l in MemberLines(m, o2)
    {
      var i :| 0 <= i < |o1| && MemberLines(m, o1)[i] == l;
      var key := o1[i];
      assert key in o2;
      var j :| 0 <= j < |o2| && o2[j] == key;
      assert MemberLines(m, o2)[j] == l;
    }
  }

  /** A visiting order visits only keys of the map. */
  lemma EnumeratesKeysIn(keys: seq<string>, m: map<string, FieldType>)
    requires Enumerates(keys, m.Keys)
    ensures KeysIn(keys, m)
  {
    forall i | 0 <= i < |keys|
      ensures keys[i] in m
    {
      assert keys[i] in keys;
    }
  }

  /** Visiting the keys in another order permutes the member lines and
      nothing else: each order yields one line per key, as many as there are
      keys. */
  lemma MemberLinesAnyOrder(m: map<string, FieldType>, o1: seq<string>, o2: seq<string>)
    requires Enumerates(o1, m.Keys) && Enumerates(o2, m.Keys)
    ensures |MemberLines(m, o1)| == |MemberLines(m, o2)| == |m.Keys|
    ensures forall l :: l in MemberLines(m, o1) <==> l in MemberLines(m, o2)
  {
    EnumeratesKeysIn(o1, m);
    EnumeratesKeysIn(o2, m);
    EnumeratesSize(o1, m.Keys);
    EnumeratesSize(o2, m.Keys);
    MemberLinesIncluded(m, o1, o2);
    MemberLinesIncluded(m, o2, o1);
  }

  // Brace balance of the generated text.

  /** +1 for a line opening a type, -1 for a line closing one. */
  function Delta(l: string): int {
    if StartsWith(l, "export type ") then 1 else if l == "}" then -1 else 0
  }

  /** Opened minus closed types over a list of lines. */
  function Balance(ls: seq<string>): int {
    if ls == [] then 0 else Delta(ls[0]) + Balance(ls[1..])
  }

  lemma {:induction false} BalanceConcat(a: seq<string>, b: seq<string>)
    ensures Balance(a + b) == Balance(a) + Balance(b)
  {
    if a != [] {
      assert (a + b)[1..] == a[1..] + b;
      BalanceConcat(a[1..], b);
    } else {
      assert a + b == b;
    }
  }

  lemma BalanceOne(l: string)
    ensures Balance([l]) == Delta(l)
  {
    assert [l][1..] == [];
  }

  /** A member line is indented, so it neither opens nor closes a type. */
  lemma MemberLineDelta(key: string, v: FieldType)
    ensures Delta(MemberLine(key, v)) == 0
  {
    var l := MemberLine(key, v);
    assert l[0] == ' ';
    assert !StartsWith(l, "export type ") by {
      if |"export type "| <= |l| {
        assert l[..|"export type "|][0] == ' ';
      }
    }
  }

  /** Member lines neither open nor close a type. */
  lemma {:induction false} MemberLinesBalance(m: map<string, FieldType>, keys: seq<string>)
    requires KeysIn(keys, m)
    ensures Balance(MemberLines(m, keys)) == 0
    decreases |keys|
  {
    if keys != [] {
      var n := |keys| - 1;
      var l := MemberLine(keys[n], m[keys[n]]);
      var init := MemberLines(m, keys[..n]);
      assert MemberLines(m, keys) == init + [l];
      MemberLinesBalance(m, keys[..n]);
      BalanceConcat(init, [l]);
      BalanceOne(l);
      MemberLineDelta(keys[n], m[keys[n]]);
    }
  }

  /** How many schemas' fields fail to decode. */
  function Undecoded(schemas: seq<Schema>): (n: nat)
    ensures n <= |schemas|
  {
    if schemas == [] then 0
    else Undecoded(schemas[..|schemas| - 1]) + if schemas[|schemas| - 1].fields.None? then 1 else 0
  }

  /** One schema's block is balanced when its fields decode and leaves its
      type open otherwise. */
  lemma TypeBlockBalance(s: Schema, keys: seq<string>)
    requires OrderFits(s, keys)
    ensures Balance(TypeBlock(s, keys)) == if s.fields.None? then 1 else 0
  {
    var h := [TypeHeader(s.name)];
    assert StartsWith(TypeHeader(s.name), "export type ");
    if s.fields.Some? {
      var m := FieldMap(s.fields.value);
      BalanceConcat(h, MemberLines(m, keys) + ["}", ""]);
      BalanceConcat(MemberLines(m, keys), ["}", ""]);
      MemberLinesBalance(m, keys);
    }
  }

  /** As written, `types.ts` is left with one unclosed type per schema whose
      fields fail to decode, whatever order the keys are visited in. */
  lemma {:induction false} TypeBlocksBalance(schemas: seq<Schema>, orders: seq<seq<string>>)
    requires OrdersFit(schemas, orders)
    ensures Balance(TypeBlocks(schemas, orders)) == Undecoded(schemas)
    decreases |schemas|
  {
    if schemas != [] {
      var n := |schemas| - 1;
      TypeBlocksBalance(schemas[..n], orders[..n]);
      BalanceConcat(TypeBlocks(schemas[..n], orders[..n]), TypeBlock(schemas[n], orders[n]));
      TypeBlockBalance(schemas[n], orders[n]);
    }
  }

  /** A schema `Broken` whose fields are not an object, followed by `User`:
      the header of `User` opens inside the still-open `Broken`. */
  lemma UnclosedTypeExample()
    ensures var broken := Schema("Broken", "Custom", None, []);
            var user := Schema("User", "Custom", Some([Field("id", Named("string"))]), []);
            OrdersFit([broken, user], [[], ["id"]])
            && TypeBlocks([broken, user], [[], ["id"]])
               == ["export type Broken = {", "export type User = {", "  id: string;", "}", ""]
            && Balance(TypeBlocks([broken, user], [[], ["id"]])) == 1
  {
    var broken := Schema("Broken", "Custom", None, []);
    var f := Field("id", Named("string"));
    var user := Schema("User", "Custom", Some([f]), []);
    var m := FieldMap([f]);
    assert m == map["id" := Named("string")] by {
      assert [f][..0] == [];
    }
    assert Enumerates(["id"], m.Keys);
    assert OrdersFit([broken, user], [[], ["id"]]);
    assert [broken, user][..1] == [broken];
    assert [[], ["id"]][..1] == [[]];
    assert [broken][..0] == [];
    assert TypeHeader("Broken") == "export type Broken = {";
    assert TypeBlock(broken, []) == [TypeHeader("Broken")];
    assert TypeBlocks([broken], [[]]) == TypeBlocks([], []) + TypeBlock(broken, []);
    assert MemberLine("id", Named("string")) == "  id: string;";
    assert MemberLines(m, ["id"]) == ["  id: string;"];
    assert TypeHeader("User") == "export type User = {";
    assert TypeBlock(user, ["id"]) == [TypeHeader("User")] + MemberLines(m, ["id"]) + ["}", ""];
    TypeBlocksBalance([broken, user], [[], ["id"]]);
  }

  /** The intended output: a schema whose fields fail to decode is skipped
      whole, header included. */
  function FixedTypeBlocks(schemas: seq<Schema>, orders: seq<seq<string>>): seq<string>
    requires OrdersFit(schemas, orders)
  {
    if schemas == [] then []
    else
      var n := |schemas| - 1;
      FixedTypeBlocks(schemas[..n], orders[..n]) + if schemas[n].fields.None? then [] else TypeBlock(schemas[n], orders[n])
  }

  /** Every type the intended output opens is closed again. */
  lemma {:induction false} FixedTypeBlocksBalanced(schemas: seq<Schema>, orders: seq<seq<string>>)
    requires OrdersFit(schemas, orders)
    ensures Balance(FixedTypeBlocks(schemas, orders)) == 0
    decreases |schemas|
  {
    if schemas != [] {
      var n := |schemas| - 1;
      FixedTypeBlocksBalanced(schemas[..n], orders[..n]);
      var tail := if schemas[n].fields.None? then [] else TypeBlock(schemas[n], orders[n]);
      BalanceConcat(FixedTypeBlocks(schemas[..n], orders[..n]), tail);
      TypeBlockBalance(schemas[n], orders[n]);
    }
  }

  /** When every schema's fields decode, the intended output is the written
      one. */
  lemma {:induction false} FixedTypeBlocksAgree(schemas: seq<Schema>, orders: seq<seq<string>>)
    requires OrdersFit(schemas, orders) && Undecoded(schemas) == 0
    ensures FixedTypeBlocks(schemas, orders) == TypeBlocks(schemas, orders)
    decreases |schemas|
  {
    if schemas != [] {
      var n := |schemas| - 1;
      FixedTypeBlocksAgree(schemas[..n], orders[..n]);
    }
  }
}
