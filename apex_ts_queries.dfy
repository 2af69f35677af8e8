/** `generateTSQueries` (apex-utils.go): the text of `queries.ts`, a
    react-query hook per GET operation of the APEX document. */
module ApexTsQueries {
  import opened Text
  import opened ApexTypes
  import opened ApexNames
  import opened GoMaps

  /** The comment banner and the two fixed imports. */
  const Preamble: string :=
    "/**\n * Auto-generated File - BSD\n */\n\nimport { UseQueryOptions, queryOptions } from '@tanstack/react-query';\nimport APEX from './apex';\n"

  /** Only an operation whose method is exactly `GET` (case matters) gets a
      hook. */
  predicate HasHook(op: Operation) {
    op.httpMethod == "GET"
  }

  /** The operations that get hooks, in document order. */
  function HookOps(ops: seq<Operation>): (r: seq<Operation>)
    ensures |r| <= |ops|
  {
    if ops == [] then []
    else
      var last := ops[|ops| - 1];
      HookOps(ops[..|ops| - 1]) + if HasHook(last) then [last] else []
  }

  /** The parameter declaration a hook and its query-key function take. */
  function ParamsDef(op: Operation): string {
    if op.querySchema != "" then "params: " + op.querySchema + ", " else ""
  }

  function ParamsArg(op: Operation): string {
    if op.querySchema != "" then "params" else ""
  }

  /** The literal pieces of the hook template, between its fifteen `%s`
      verbs. */
  const HookTemplate: seq<string> := [
    "\nexport function ",
    "<TData = Awaited<ReturnType<typeof APEX.",
    ">>, TError = Error>(",
    "opts: Omit<UseQueryOptions<Awaited<ReturnType<typeof APEX.",
    ">>, TError, TData, ",
    ">, 'queryKey' | 'queryFn'> = {}) {\n  return queryOptions({\n    ...opts,\n    queryKey: ",
    "(",
    "),\n    queryFn() {\n      return APEX.",
    "(",
    ");\n    },\n  });\n}\n\nexport function ",
    "(",
    ") {\n  return ['",
    "'",
    "] as const;\n}\n\nexport type ",
    " = ReturnType<typeof ",
    ">;"
  ]

  /** The hook `create<Name>Query`, the query-key function `get<Name>QueryKey`
      (the operation's name, then the parameters if any) and the query-key
      type `<Name>QueryKey` of one operation, preceded by a newline. */
  function QueryHook(op: Operation): string {
    var funcName := "create" + op.name + "Query";
    var keyFunc := "get" + op.name + "QueryKey";
    var keyType := op.name + "QueryKey";
    var keyParams := if ParamsArg(op) != "" then ", params" else "";
    Sprintf(HookTemplate, [funcName, op.name, ParamsDef(op), op.name, keyType, keyFunc, ParamsArg(op),
                           op.name, ParamsArg(op), keyFunc, ParamsDef(op), op.name, keyParams, keyType, keyFunc])
  }

  /** The hook texts, one per hooked operation, in document order. */
  function Hooks(ops: seq<Operation>): (r: seq<string>)
    ensures |r| == |HookOps(ops)|
    ensures forall k :: 0 <= k < |r| ==> r[k] == QueryHook(HookOps(ops)[k])
  {
    if ops == [] then []
    else
      var init, last := ops[..|ops| - 1], ops[|ops| - 1];
      assert HookOps(ops) == HookOps(init) + if HasHook(last) then [last] else [];
      Hooks(init) + if HasHook(last) then [QueryHook(last)] else []
  }

  /** The query-parameter types to import: the non-empty `querySchema` of
      every hooked operation. */
  function QueryTypes(ops: seq<Operation>): set<string> {
    set op | op in ops && HasHook(op) && op.querySchema != "" :: op.querySchema
  }

  /** The type import line, present only when there is something to import. */
  function ImportLine(xs: seq<string>): string {
    if xs == [] then "" else "import { " + Join(xs, ", ") + " } from './types';\n"
  }

  /** The whole `queries.ts`, given the order `xs` in which the map of query
      types was enumerated. */
  function QueriesFile(ops: seq<Operation>, xs: seq<string>): string {
    Preamble + ImportLine(xs) + "\n" + Join(Hooks(ops), "\n") + "\n"
  }

  /** `generateTSQueries`: collects a hook per GET operation and the query
      types they use, then writes the imports and the hooks. The file write is
      left out. */
  method GenerateTSQueries(apex: ApexData) returns (ts: string)
    ensures exists xs :: Enumerates(xs, QueryTypes(apex.operations)) && ts == QueriesFile(apex.operations, xs)
  {
    var ops := apex.operations;
    var usedQueryTypes: set<string> := {};
    var functionDefs: seq<string> := [];
    ts := Preamble;
    var i := 0;
    while i < |ops|
      invariant 0 <= i <= |ops|
      invariant usedQueryTypes == QueryTypes(ops[..i])
      invariant functionDefs == Hooks(ops[..i])
    {
      var op := ops[i];
      QueriesSnoc(ops, i);
      if op.httpMethod == "GET" {
        if op.querySchema != "" {
          usedQueryTypes := usedQueryTypes + {op.querySchema};
        }
        functionDefs := functionDefs + [QueryHook(op)];
      }
      i := i + 1;
    }
    assert ops[..i] == ops;
    var importTypes := EnumerateSet(usedQueryTypes);
    if |importTypes| > 0 {
      var importLine := "import { " + Join(importTypes, ", ") + " } from './types';\n";
      ts := ts + importLine;
    } else {
      assert ts == ts + ImportLine(importTypes);
    }
    ts := ts + "\n" + Join(functionDefs, "\n") + "\n";
  }

  /** One more operation adds its hook, and its query type, exactly when its
      method is `GET`. */
  lemma QueriesSnoc(ops: seq<Operation>, i: int)
    requires 0 <= i < |ops|
    ensures QueryTypes(ops[..i + 1])
            == QueryTypes(ops[..i]) + if HasHook(ops[i]) && ops[i].querySchema != "" then {ops[i].querySchema} else {}
    ensures Hooks(ops[..i + 1]) == Hooks(ops[..i]) + if HasHook(ops[i]) then [QueryHook(ops[i])] else []
  {
    assert ops[..i + 1] == ops[..i] + [ops[i]];
    assert ops[..i + 1][..i] == ops[..i];
    var a := HookOps(ops[..i]);
    assert HookOps(ops[..i + 1]) == a + if HasHook(ops[i]) then [ops[i]] else [];
  }

  /** An operation is hooked exactly when it is in the document and its method
      is `GET`. */
  lemma {:induction false} HookOpsExactly(ops: seq<Operation>, op: Operation)
    ensures op in HookOps(ops) <==> op in ops && HasHook(op)
    decreases |ops|
  {
    if ops != [] {
      var n := |ops| - 1;
      HookOpsExactly(ops[..n], op);
      assert ops == ops[..n] + [ops[n]];
    }
  }

  /** A lower-case `get` gets no hook, although the API client maps it to
      its `get` request function. */
  lemma LowerCaseGetHasNoHook(op: Operation)
    requires op.httpMethod == "get"
    ensures !HasHook(op) && TsMethod(op.httpMethod) == "get"
  {
    assert GoUpper("get") == "GET";
  }

  /** The type import line appears exactly when some GET operation has a
      query schema. */
  lemma ImportLineWhenUsed(ops: seq<Operation>, xs: seq<string>)
    requires Enumerates(xs, QueryTypes(ops))
    ensures ImportLine(xs) != "" <==> exists op :: op in ops && HasHook(op) && op.querySchema != ""
  {
    EnumeratesSize(xs, QueryTypes(ops));
    if exists op :: op in ops && HasHook(op) && op.querySchema != "" {
      var op :| op in ops && HasHook(op) && op.querySchema != "";
      assert op.querySchema in QueryTypes(ops);
    }
  }

  /** A hook names the query-parameter type in its signature exactly when its
      operation has a query schema. */
  lemma HookTakesParams(op: Operation)
    ensures ParamsDef(op) != "" <==> op.querySchema != ""
    ensures op.querySchema != "" ==> StartsWith(ParamsDef(op), "params: " + op.querySchema)
  {
  }
}
