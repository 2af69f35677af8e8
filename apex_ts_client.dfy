/** `generateTSImports`, `generateTSMethods` and `generateTSAPIClient`
    (apex-utils.go): the text of `apex.ts`, one request function per
    operation and a class exposing them. */
module ApexTsClient {
  import opened Text
  import opened ApexTypes
  import opened ApexNames
  import opened GoMaps

  // generateTSImports

  /** The non-empty schemas one operation names. */
  function OpSchemas(op: Operation): set<string> {
    (if op.querySchema != "" then {op.querySchema} else {})
    + (if op.bodySchema != "" then {op.bodySchema} else {})
    + (if op.responseSchema != "" then {op.responseSchema} else {})
  }

  /** Every non-empty query, body and response schema the operations name. */
  function UsedSchemas(ops: seq<Operation>): set<string> {
    if ops == [] then {} else UsedSchemas(ops[..|ops| - 1]) + OpSchemas(ops[|ops| - 1])
  }

  /** A name is used exactly when some operation names it; `""` never is. */
  lemma {:induction false} UsedSchemasExactly(ops: seq<Operation>, x: string)
    ensures x in UsedSchemas(ops) <==> exists op :: op in ops && x in OpSchemas(op)
    ensures "" !in UsedSchemas(ops)
    decreases |ops|
  {
    if ops != [] {
      var n := |ops| - 1;
      UsedSchemasExactly(ops[..n], x);
      assert ops == ops[..n] + [ops[n]];
      if x in UsedSchemas(ops[..n]) {
        var op :| op in ops[..n] && x in OpSchemas(op);
        assert op in ops;
      }
    }
  }

  lemma UsedSchemasSnoc(ops: seq<Operation>, i: int)
    requires 0 <= i < |ops|
    ensures UsedSchemas(ops[..i + 1]) == UsedSchemas(ops[..i]) + OpSchemas(ops[i])
  {
    assert ops[..i + 1][..i] == ops[..i];
  }

  /** A comma-separated list, in enumeration order, of exactly the names in `s`. */
  ghost predicate ListsExactly(r: string, s: set<string>) {
    exists xs :: Enumerates(xs, s) && r == Join(xs, ", ")
  }

  /** `generateTSImports`: the schemas the operations use, each once, in map
      order. */
  method GenerateTSImports(apex: ApexData) returns (r: string)
    ensures ListsExactly(r, UsedSchemas(apex.operations))
  {
    var ops := apex.operations;
    var usedSchemas: set<string> := {};
    var i := 0;
    while i < |ops|
      invariant 0 <= i <= |ops|
      invariant usedSchemas == UsedSchemas(ops[..i])
    {
      UsedSchemasSnoc(ops, i);
      if ops[i].querySchema != "" {
        usedSchemas := usedSchemas + {ops[i].querySchema};
      }
      if ops[i].bodySchema != "" {
        usedSchemas := usedSchemas + {ops[i].bodySchema};
      }
      if ops[i].responseSchema != "" {
        usedSchemas := usedSchemas + {ops[i].responseSchema};
      }
      i := i + 1;
    }
    assert ops[..i] == ops;
    var imports := EnumerateSet(usedSchemas);
    r := Join(imports, ", ");
  }

  /** The list is empty exactly when no operation names a schema. */
  lemma UsedSchemasEmpty(ops: seq<Operation>, r: string)
    requires ListsExactly(r, UsedSchemas(ops))
    ensures r == "" <==> forall op :: op in ops ==> op.querySchema == "" && op.bodySchema == "" && op.responseSchema == ""
  {
    var xs :| Enumerates(xs, UsedSchemas(ops)) && r == Join(xs, ", ");
    EnumeratesSize(xs, UsedSchemas(ops));
    UsedSchemasExactly(ops, "");
    if r == "" {
      JoinEmpty(xs, ", ");
      assert "" !in xs;
      forall op | op in ops
        ensures op.querySchema == "" && op.bodySchema == "" && op.responseSchema == ""
      {
        forall x | x in OpSchemas(op)
          ensures false
        {
          UsedSchemasExactly(ops, x);
        }
      }
    } else {
      assert xs != [];
      var x := xs[0];
      assert x in UsedSchemas(ops);
      UsedSchemasExactly(ops, x);
    }
  }

  /** A joined list is empty only when it is empty or its single item is. */
  lemma JoinEmpty(xs: seq<string>, sep: string)
    requires sep != "" && Join(xs, sep) == ""
    ensures xs == [] || (|xs| == 1 && xs[0] == "")
  {
    if |xs| > 1 {
      assert |Join(xs, sep)| >= |sep|;
    }
  }

  // generateTSMethods

  /** The request functions `generateTSMethods` imports, as written: the
      `tsMethod` of every operation. Its guard compares with `UnknownMethod`,
      which `tsMethod` never returns, so an unknown method contributes `""`. */
  function UsedMethods(ops: seq<Operation>): set<string> {
    if ops == [] then {}
    else
      var m := TsMethod(ops[|ops| - 1].httpMethod);
      UsedMethods(ops[..|ops| - 1]) + if m != "UnknownMethod" then {m} else {}
  }

  /** A request function is imported exactly when some operation maps to it. */
  lemma {:induction false} UsedMethodsExactly(ops: seq<Operation>, m: string)
    ensures m in UsedMethods(ops) <==> exists op :: op in ops && TsMethod(op.httpMethod) == m
    decreases |ops|
  {
    if ops != [] {
      var n := |ops| - 1;
      var init, last := ops[..n], ops[n];
      UsedMethodsExactly(init, m);
      UsedMethodsLast(ops);
      assert ops == init + [last];
      if m in UsedMethods(ops) {
        if m in UsedMethods(init) {
          var op :| op in init && TsMethod(op.httpMethod) == m;
          assert op in ops;
        } else {
          assert TsMethod(last.httpMethod) == m && last in ops;
        }
      }
      if exists op :: op in ops && TsMethod(op.httpMethod) == m {
        var op :| op in ops && TsMethod(op.httpMethod) == m;
        if op != last {
          assert op in init;
        }
      }
    }
  }

  /** `tsMethod` never yields the `"UnknownMethod"` the guard tests for, so
      every operation adds its request function. */
  lemma UsedMethodsLast(ops: seq<Operation>)
    requires ops != []
    ensures UsedMethods(ops) == UsedMethods(ops[..|ops| - 1]) + {TsMethod(ops[|ops| - 1].httpMethod)}
  {
    var m := TsMethod(ops[|ops| - 1].httpMethod);
    assert |m| <= 6 < |"UnknownMethod"|;
  }

  lemma UsedMethodsSnoc(ops: seq<Operation>, i: int)
    requires 0 <= i < |ops|
    ensures UsedMethods(ops[..i + 1]) == UsedMethods(ops[..i]) + {TsMethod(ops[i].httpMethod)}
  {
    assert ops[..i + 1][..i] == ops[..i];
  }

  /** `generateTSMethods`: the request functions the operations use, each
      once, in map order. */
  method GenerateTSMethods(apex: ApexData) returns (r: string)
    ensures ListsExactly(r, UsedMethods(apex.operations))
  {
    var ops := apex.operations;
    var usedMethods: set<string> := {};
    var i := 0;
    while i < |ops|
      invariant 0 <= i <= |ops|
      invariant usedMethods == UsedMethods(ops[..i])
    {
      UsedMethodsSnoc(ops, i);
      var method_ := TsMethod(ops[i].httpMethod);
      if method_ != "UnknownMethod" {
        usedMethods := usedMethods + {method_};
      }
      i := i + 1;
    }
    assert ops[..i] == ops;
    var methods := EnumerateSet(usedMethods);
    r := Join(methods, ", ");
  }

  /** As written, `""` is imported exactly when some operation's method is not
      one of the five verbs. */
  lemma UsedMethodsAdmitEmpty(ops: seq<Operation>)
    ensures "" in UsedMethods(ops) <==> exists op :: op in ops && GoUpper(op.httpMethod) !in Verbs
  {
    UsedMethodsExactly(ops, "");
  }

  lemma HeadIsUnknown()
    ensures TsMethod("HEAD") == "" && TsMethod("GET") == "get"
  {
    assert GoUpper("HEAD") == "HEAD";
    assert GoUpper("GET") == "GET";
  }

  /** A GET and a HEAD operation: the import list is `, get` or `get, `
      depending on map order, and the first gives `import { , get }`. */
  lemma EmptyMethodImportExample(r: string)
    requires ListsExactly(r, UsedMethods([
      Operation("ListUsers", "/api/users", "GET", "", "", ""),
      Operation("PingUsers", "/api/users", "HEAD", "", "", "")]))
    ensures r == ", get" || r == "get, "
  {
    GetHeadMethods();
    var xs :| Enumerates(xs, {"get", ""}) && r == Join(xs, ", ");
    TwoJoined(xs, "get", "");
  }

  /** A GET and a HEAD operation use the request functions `get` and `""`. */
  lemma GetHeadMethods()
    ensures UsedMethods([Operation("ListUsers", "/api/users", "GET", "", "", ""),
                         Operation("PingUsers", "/api/users", "HEAD", "", "", "")]) == {"get", ""}
  {
    var ops := [Operation("ListUsers", "/api/users", "GET", "", "", ""),
                Operation("PingUsers", "/api/users", "HEAD", "", "", "")];
    HeadIsUnknown();
    assert ops[..1][..0] == [];
    assert UsedMethods(ops[..1]) == {"get"};
  }

  /** Either order of a two-element set, joined with `, `. */
  lemma TwoJoined(xs: seq<string>, a: string, b: string)
    requires a != b && Enumerates(xs, {a, b})
    ensures Join(xs, ", ") == a + ", " + b || Join(xs, ", ") == b + ", " + a
  {
    EnumeratesSize(xs, {a, b});
    assert xs[0] in {a, b} && xs[1] in {a, b} && xs[0] != xs[1];
    assert Join(xs[1..], ", ") == xs[1];
  }

  /** The intended import set: the request functions of the operations whose
      method is one of the five verbs, and nothing else. */
  function KnownMethods(ops: seq<Operation>): set<string> {
    UsedMethods(ops) - {""}
  }

  /** The intended set holds only request-function names and imports the
      function of every operation with a verb. */
  lemma KnownMethodsCorrect(ops: seq<Operation>)
    ensures forall m :: m in KnownMethods(ops) ==> m in {"get", "post", "put", "delete", "patch"}
    ensures forall op :: op in ops && GoUpper(op.httpMethod) in Verbs ==> TsMethod(op.httpMethod) in KnownMethods(ops)
  {
    forall m | m in KnownMethods(ops)
      ensures m in {"get", "post", "put", "delete", "patch"}
    {
      UsedMethodsExactly(ops, m);
    }
    forall op | op in ops && GoUpper(op.httpMethod) in Verbs
      ensures TsMethod(op.httpMethod) in KnownMethods(ops)
    {
      UsedMethodsExactly(ops, TsMethod(op.httpMethod));
    }
  }

  // generateTSAPIClient

  /** The single parameter of a request function: the query schema when
      there is one, else the body schema, else none. */
  function ParamDef(op: Operation): string {
    if op.querySchema != "" then "params: " + op.querySchema
    else if op.bodySchema != "" then "body: " + op.bodySchema
    else ""
  }

  function ParamArg(op: Operation): string {
    if op.querySchema != "" then "params" else if op.bodySchema != "" then "body" else ""
  }

  /** The function is unary exactly when a query or body schema is set; a
      query schema wins, whatever the body schema. */
  lemma ParamPrecedence(op: Operation, body: string)
    ensures ParamArg(op) != "" <==> op.querySchema != "" || op.bodySchema != ""
    ensures op.querySchema != "" ==> ParamDef(op.(bodySchema := body)) == ParamDef(op) == "params: " + op.querySchema
    ensures op.querySchema == "" && op.bodySchema != "" ==> ParamDef(op) == "body: " + op.bodySchema
  {
  }

  /** The signature line of a request function. */
  function FnLine(op: Operation): string {
    "async function " + op.name + "(" + ParamDef(op) + "): Promise<" + op.responseSchema + "> {"
  }

  /** The call line: the request function of the method, typed by the
      response schema, on the endpoint, with the parameter if any. */
  function CallLine(op: Operation): string {
    "  return " + TsMethod(op.httpMethod) + "<" + op.responseSchema + ">('" + op.endpoint + "'"
    + (if ParamArg(op) != "" then ", " + ParamArg(op) else "") + ");"
  }

  /** The four lines of one request function. */
  function ClientFunction(op: Operation): (r: seq<string>)
    ensures |r| == 4
  {
    [FnLine(op), CallLine(op), "}", ""]
  }

  /** The request functions of all operations, in document order. */
  function ClientFunctions(ops: seq<Operation>): seq<string> {
    if ops == [] then [] else ClientFunctions(ops[..|ops| - 1]) + ClientFunction(ops[|ops| - 1])
  }

  function StaticLine(op: Operation): string {
    "  static " + op.name + " = " + op.name + ";"
  }

  function StaticLines(ops: seq<Operation>): (r: seq<string>)
    ensures |r| == |ops|
    ensures forall k :: 0 <= k < |ops| ==> r[k] == StaticLine(ops[k])
  {
    seq(|ops|, k requires 0 <= k < |ops| => StaticLine(ops[k]))
  }

  /** An import line for a non-empty list. */
  function ImportFrom(list: string, path: string): string {
    if list == "" then "" else "import { " + list + " } from '" + path + "';\n"
  }

  /** The whole `apex.ts`, given the joined request-function and type lists. */
  function ClientFile(ops: seq<Operation>, methods: string, types: string): string {
    "/* Auto-generated API Client */\n\n" + ImportFrom(methods, "./request") + ImportFrom(types, "./types") + "\n"
    + Lines(ClientFunctions(ops)) + Lines(["export default class APEX {"] + StaticLines(ops) + ["}"])
  }

  /** `generateTSAPIClient`: the imports, one request function per
      operation, then the class. The base URL it passes to `updateBaseURL`
      is returned; that rewrite and the file writes are left out. */
  method GenerateTSAPIClient(apex: ApexData, port: string) returns (ts: string, baseURL: string)
    ensures baseURL == "http://localhost:" + port
    ensures exists methods, types :: ListsExactly(methods, UsedMethods(apex.operations))
              && ListsExactly(types, UsedSchemas(apex.operations))
              && ts == ClientFile(apex.operations, methods, types)
  {
    baseURL := "http://localhost:" + port;
    var ops := apex.operations;
    var tsImports := GenerateTSMethods(apex);
    var tsTypes := GenerateTSImports(apex);
    var head := "/* Auto-generated API Client */\n\n" + ImportFrom(tsImports, "./request") + ImportFrom(tsTypes, "./types") + "\n";
    var body := ClientFunctionsText(ops);
    var tail := ClassText(ops);
    ts := head + body + tail;
    assert ts == ClientFile(ops, tsImports, tsTypes);
  }

  /** The first loop of `generateTSAPIClient`. */
  method ClientFunctionsText(ops: seq<Operation>) returns (text: string)
    ensures text == Lines(ClientFunctions(ops))
  {
    text := "";
    var i := 0;
    while i < |ops|
      invariant 0 <= i <= |ops|
      invariant text == Lines(ClientFunctions(ops[..i]))
    {
      var op := ops[i];
      ClientFunctionsSnoc(ops, i);
      ClientFunctionText(op);
      var block := FnLine(op) + "\n" + CallLine(op) + "\n" + "}\n\n";
      text := text + block;
      i := i + 1;
    }
    assert ops[..i] == ops;
  }

  lemma ClientFunctionsSnoc(ops: seq<Operation>, i: int)
    requires 0 <= i < |ops|
    ensures Lines(ClientFunctions(ops[..i + 1])) == Lines(ClientFunctions(ops[..i])) + Lines(ClientFunction(ops[i]))
  {
    assert ops[..i + 1][..i] == ops[..i];
    LinesConcat(ClientFunctions(ops[..i]), ClientFunction(ops[i]));
  }

  /** The text of one request function as the loop writes it. */
  lemma ClientFunctionText(op: Operation)
    ensures Lines(ClientFunction(op)) == FnLine(op) + "\n" + CallLine(op) + "\n" + "}\n\n"
  {
    FourLines(FnLine(op), CallLine(op));
  }

  lemma FourLines(fn: string, call: string)
    ensures Lines([fn, call, "}", ""]) == fn + "\n" + call + "\n" + "}\n\n"
  {
    var ls := [fn, call, "}", ""];
    assert ls[1..][1..] == ["}", ""] && ls[1..][1..][1..] == [""];
    assert Lines(["}", ""]) == "}\n\n";
    assert Lines(ls[1..]) == call + "\n" + "}\n\n";
  }

  /** The second loop of `generateTSAPIClient`: the class with one static
      member per operation. */
  method ClassText(ops: seq<Operation>) returns (text: string)
    ensures text == Lines(["export default class APEX {"] + StaticLines(ops) + ["}"])
  {
    text := "export default class APEX {\n";
    var i := 0;
    while i < |ops|
      invariant 0 <= i <= |ops|
      invariant text == Lines(["export default class APEX {"] + StaticLines(ops[..i]))
    {
      var line := "  static " + ops[i].name + " = " + ops[i].name + ";";
      ClassSnoc(ops, i);
      text := text + line + "\n";
      i := i + 1;
    }
    assert ops[..i] == ops;
    LinesSnoc(["export default class APEX {"] + StaticLines(ops), "}");
    text := text + "}\n";
  }

  lemma ClassSnoc(ops: seq<Operation>, i: int)
    requires 0 <= i < |ops|
    ensures Lines(["export default class APEX {"] + StaticLines(ops[..i + 1]))
            == Lines(["export default class APEX {"] + StaticLines(ops[..i])) + StaticLine(ops[i]) + "\n"
  {
    assert StaticLines(ops[..i + 1]) == StaticLines(ops[..i]) + [StaticLine(ops[i])];
    LinesSnoc(["export default class APEX {"] + StaticLines(ops[..i]), StaticLine(ops[i]));
    assert ["export default class APEX {"] + StaticLines(ops[..i + 1])
        == (["export default class APEX {"] + StaticLines(ops[..i])) + [StaticLine(ops[i])];
  }

  /** One request function per operation, in document order: block `k` of
      four lines is the function of operation `k`. */
  lemma ClientFunctionsLayout(ops: seq<Operation>)
    ensures |ClientFunctions(ops)| == 4 * |ops|
    ensures forall k :: 0 <= k < |ops| ==> ClientFunctions(ops)[4 * k..4 * k + 4] == ClientFunction(ops[k])
  {
    ClientFunctionsConcat(ops);
    if ops == [] {
      assert ClientFunctions(ops) == [];
    } else {
      BlockOf(ops, ClientFunction, 0);
    }
    forall k | 0 <= k < |ops|
      ensures ClientFunctions(ops)[4 * k..4 * k + 4] == ClientFunction(ops[k])
    {
      BlockOf(ops, ClientFunction, k);
    }
  }

  /** The blocks `f` gives the operations, one after another. */
  function Concat(ops: seq<Operation>, f: Operation -> seq<string>): seq<string> {
    if ops == [] then [] else Concat(ops[..|ops| - 1], f) + f(ops[|ops| - 1])
  }

  lemma {:induction false} ClientFunctionsConcat(ops: seq<Operation>)
    ensures ClientFunctions(ops) == Concat(ops, ClientFunction)
    decreases |ops|
  {
    if ops != [] {
      ClientFunctionsConcat(ops[..|ops| - 1]);
    }
  }

  /** With blocks of four lines, block `k` is operation `k`'s. */
  lemma {:induction false} BlockOf(ops: seq<Operation>, f: Operation -> seq<string>, k: int)
    requires forall op :: |f(op)| == 4
    requires 0 <= k < |ops|
    ensures |Concat(ops, f)| == 4 * |ops|
    ensures Concat(ops, f)[4 * k..4 * k + 4] == f(ops[k])
    decreases |ops|
  {
    var n := |ops| - 1;
    var a := Concat(ops[..n], f);
    var b := f(ops[n]);
    if n == 0 {
      assert a == [];
      SliceRight(a, b);
    } else {
      BlockOf(ops[..n], f, if k < n then k else 0);
      if k < n {
        assert ops[..n][k] == ops[k];
        SliceLeft(a, b, 4 * k, 4 * k + 4);
      } else {
        SliceRight(a, b);
      }
    }
  }

  lemma SliceLeft(a: seq<string>, b: seq<string>, lo: int, hi: int)
    requires 0 <= lo <= hi <= |a|
    ensures (a + b)[lo..hi] == a[lo..hi]
  {
  }

  lemma SliceRight(a: seq<string>, b: seq<string>)
    ensures (a + b)[|a|..|a| + |b|] == b
  {
  }
}
