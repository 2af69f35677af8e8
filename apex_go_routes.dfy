/** `generateGoRoutes` (apex-utils.go): the text of `routes.go`, the chi
    routes of every operation grouped by API namespace, with the secured ones
    behind the authentication middleware. */
module ApexGoRoutes {
  import opened Wrappers
  import opened Text
  import opened ApexTypes
  import opened ApexNames
  import opened GoMaps

  /** The namespace of an endpoint: its first `/`-separated piece once a
      leading `/api/` is dropped. The `"root"` fallback of the source is
      never taken, since splitting never yields an empty list. */
  function GroupName(endpoint: string): (g: string)
    ensures '/' !in g
  {
    Split(TrimPrefix(endpoint, "/api/"), '/')[0]
  }

  /** `/api/<g>/<rest>` and `/api/<g>` are in group `g`. */
  lemma GroupNameOfPath(g: string, rest: string)
    requires '/' !in g
    ensures GroupName("/api/" + g + "/" + rest) == g
    ensures GroupName("/api/" + g) == g
  {
    var p := "/api/" + g + "/" + rest;
    assert p[..5] == "/api/";
    var t := TrimPrefix(p, "/api/");
    assert t == g + "/" + rest by {
      assert "/api/" + t == p;
      assert t == p[5..];
    }
    assert t[|g|] == '/' && t[..|g|] == g;
    IndexOfIsFirst(t, '/', |g|);
    var q := "/api/" + g;
    assert q[..5] == "/api/";
    assert TrimPrefix(q, "/api/") == g by {
      assert q[5..] == g;
    }
  }

  /** A route is secured exactly when an endpoint with the operation's path
      lists the operation's method, as spelled, among its secured methods. */
  predicate IsSecured(op: Operation, endpoints: seq<Endpoint>) {
    exists i, j :: 0 <= i < |endpoints| && 0 <= j < |endpoints[i].secured|
                   && endpoints[i].path == op.endpoint && endpoints[i].secured[j] == op.httpMethod
  }

  /** The secured test of `generateGoRoutes`: a scan of every endpoint with
      the path, stopping the inner scan at the first matching method. */
  method SecuredRoute(op: Operation, endpoints: seq<Endpoint>) returns (isSecured: bool)
    ensures isSecured == IsSecured(op, endpoints)
  {
    isSecured := false;
    var i := 0;
    while i < |endpoints|
      invariant 0 <= i <= |endpoints|
      invariant isSecured == IsSecured(op, endpoints[..i])
    {
      var ep := endpoints[i];
      if ep.path == op.endpoint {
        var j := 0;
        while j < |ep.secured|
          invariant 0 <= j <= |ep.secured|
          invariant forall k :: 0 <= k < j ==> ep.secured[k] != op.httpMethod
        {
          if ep.secured[j] == op.httpMethod {
            isSecured := true;
            break;
          }
          j := j + 1;
        }
      }
      SecuredSnoc(op, endpoints, i);
      i := i + 1;
    }
    assert endpoints[..i] == endpoints;
  }

  lemma SecuredSnoc(op: Operation, endpoints: seq<Endpoint>, i: int)
    requires 0 <= i < |endpoints|
    ensures IsSecured(op, endpoints[..i + 1])
            == (IsSecured(op, endpoints[..i]) || (endpoints[i].path == op.endpoint && op.httpMethod in endpoints[i].secured))
  {
    var e := endpoints[..i + 1];
    if IsSecured(op, endpoints[..i]) {
      var a, b :| 0 <= a < i && 0 <= b < |endpoints[a].secured|
                  && endpoints[a].path == op.endpoint && endpoints[a].secured[b] == op.httpMethod;
      assert e[a] == endpoints[a];
    }
    if endpoints[i].path == op.endpoint && op.httpMethod in endpoints[i].secured {
      var b :| 0 <= b < |endpoints[i].secured| && endpoints[i].secured[b] == op.httpMethod;
      assert e[i] == endpoints[i];
    }
    if IsSecured(op, e) {
      var a, b :| 0 <= a < |e| && 0 <= b < |e[a].secured| && e[a].path == op.endpoint && e[a].secured[b] == op.httpMethod;
      if a < i {
        assert endpoints[..i][a] == e[a];
      }
    }
  }

  /** `r.<Method>("<path>", h.<Name>)`, indented by two spaces. */
  function RouteDefinition(op: Operation): string {
    "  r." + GoMethod(op.httpMethod) + "(\"" + op.endpoint + "\", h." + op.name + ")"
  }

  /** Go's `m[g] = append(m[g], x)`: a missing key starts from an empty list. */
  function Append(m: map<string, seq<string>>, g: string, x: string): (r: map<string, seq<string>>)
    ensures r.Keys == m.Keys + {g}
    ensures r[g] == (if g in m then m[g] else []) + [x]
    ensures forall h :: h in m && h != g ==> r[h] == m[h]
  {
    m[g := (if g in m then m[g] else []) + [x]]
  }

  /** The operation's route goes to group `g` on the side (open or secured)
      given by `secured`. */
  predicate Belongs(op: Operation, endpoints: seq<Endpoint>, secured: bool, g: string) {
    GroupName(op.endpoint) == g && IsSecured(op, endpoints) == secured
  }

  /** The route definitions, per group, of the operations whose secured
      status is `secured`, in document order. */
  function Groups(ops: seq<Operation>, endpoints: seq<Endpoint>, secured: bool): map<string, seq<string>> {
    if ops == [] then map[]
    else
      var op := ops[|ops| - 1];
      var m := Groups(ops[..|ops| - 1], endpoints, secured);
      if IsSecured(op, endpoints) == secured then Append(m, GroupName(op.endpoint), RouteDefinition(op)) else m
  }

  /** A group exists exactly when some operation belongs to it. */
  lemma {:induction false} GroupKeys(ops: seq<Operation>, endpoints: seq<Endpoint>, secured: bool, g: string)
    ensures g in Groups(ops, endpoints, secured) <==> exists op :: op in ops && Belongs(op, endpoints, secured, g)
    decreases |ops|
  {
    if ops != [] {
      var n := |ops| - 1;
      GroupKeys(ops[..n], endpoints, secured, g);
      GroupKeysStep(ops, endpoints, secured, g);
      SomeBelongsSnoc(ops, endpoints, secured, g);
    }
  }

  /** The last operation adds its own group and keeps the others. */
  lemma GroupKeysStep(ops: seq<Operation>, endpoints: seq<Endpoint>, secured: bool, g: string)
    requires ops != []
    ensures g in Groups(ops, endpoints, secured)
            <==> g in Groups(ops[..|ops| - 1], endpoints, secured) || Belongs(ops[|ops| - 1], endpoints, secured, g)
  { }

  /** Some operation of a non-empty list belongs to `g` exactly when one
      before the last does or the last one does. */
  lemma SomeBelongsSnoc(ops: seq<Operation>, endpoints: seq<Endpoint>, secured: bool, g: string)
    requires ops != []
    ensures (exists op :: op in ops && Belongs(op, endpoints, secured, g))
            <==> (exists op :: op in ops[..|ops| - 1] && Belongs(op, endpoints, secured, g))
                 || Belongs(ops[|ops| - 1], endpoints, secured, g)
  {
    var n := |ops| - 1;
    assert ops == ops[..n] + [ops[n]];
    if exists op :: op in ops[..n] && Belongs(op, endpoints, secured, g) {
      var op :| op in ops[..n] && Belongs(op, endpoints, secured, g);
      assert op in ops;
    }
    if exists op :: op in ops && Belongs(op, endpoints, secured, g) {
      var op :| op in ops && Belongs(op, endpoints, secured, g);
      if op != ops[n] {
        assert op in ops[..n];
      }
    }
    assert ops[n] in ops;
  }

  /** A group holds exactly the routes of the operations that belong to it. */
  lemma {:induction false} GroupRoutes(ops: seq<Operation>, endpoints: seq<Endpoint>, secured: bool, g: string, x: string)
    requires g in Groups(ops, endpoints, secured)
    ensures x in Groups(ops, endpoints, secured)[g]
            <==> exists op :: op in ops && Belongs(op, endpoints, secured, g) && RouteDefinition(op) == x
    decreases |ops|
  {
    var n := |ops| - 1;
    var last, init := ops[n], ops[..n];
    var m := Groups(init, endpoints, secured);
    var before := if g in m then m[g] else [];
    var added: seq<string> := if Belongs(last, endpoints, secured, g) then [RouteDefinition(last)] else [];
    GroupRoutesStep(ops, endpoints, secured, g);
    if g in m {
      GroupRoutes(init, endpoints, secured, g, x);
    } else {
      GroupKeys(init, endpoints, secured, g);
    }
    SomeRouteSnoc(ops, endpoints, secured, g, x);
    assert x in before + added <==> x in before || x in added;
  }

  /** The last operation adds its route to its own group, after the others. */
  lemma GroupRoutesStep(ops: seq<Operation>, endpoints: seq<Endpoint>, secured: bool, g: string)
    requires ops != [] && g in Groups(ops, endpoints, secured)
    ensures var m := Groups(ops[..|ops| - 1], endpoints, secured);
            var last := ops[|ops| - 1];
            Groups(ops, endpoints, secured)[g]
            == (if g in m then m[g] else []) + (if Belongs(last, endpoints, secured, g) then [RouteDefinition(last)] else [])
  { }

  /** Some operation of a non-empty list gives route `x` in group `g` exactly
      when one before the last does or the last one does. */
  lemma SomeRouteSnoc(ops: seq<Operation>, endpoints: seq<Endpoint>, secured: bool, g: string, x: string)
    requires ops != []
    ensures (exists op :: op in ops && Belongs(op, endpoints, secured, g) && RouteDefinition(op) == x)
            <==> (exists op :: op in ops[..|ops| - 1] && Belongs(op, endpoints, secured, g) && RouteDefinition(op) == x)
                 || (Belongs(ops[|ops| - 1], endpoints, secured, g) && RouteDefinition(ops[|ops| - 1]) == x)
  {
    var n := |ops| - 1;
    assert ops == ops[..n] + [ops[n]];
    if exists op :: op in ops[..n] && Belongs(op, endpoints, secured, g) && RouteDefinition(op) == x {
      var op :| op in ops[..n] && Belongs(op, endpoints, secured, g) && RouteDefinition(op) == x;
      assert op in ops;
    }
    if exists op :: op in ops && Belongs(op, endpoints, secured, g) && RouteDefinition(op) == x {
      var op :| op in ops && Belongs(op, endpoints, secured, g) && RouteDefinition(op) == x;
      if op != ops[n] {
        assert op in ops[..n];
      }
    }
    assert ops[n] in ops;
  }

  /** The fixed head of `routes.go`. */
  const Preamble: string :=
    "package routes\n\nimport (\n  \"github.com/go-chi/chi/v5\"\n  \"solar-system/genesis/handler\"\n)\n\n"

  function FuncName(g: string): string {
    "add" + Capitalize(g) + "Routes"
  }

  /** Each string with a prefix. */
  function Prefixed(prefix: string, xs: seq<string>): (r: seq<string>)
    ensures |r| == |xs|
    ensures forall k :: 0 <= k < |xs| ==> r[k] == prefix + xs[k]
  {
    seq(|xs|, k requires 0 <= k < |xs| => prefix + xs[k])
  }

  /** The two lines that open the sub-router of the secured routes. */
  const GroupLine := "  r.Group(func(r chi.Router) {"
  const UseLine := "    r.Use(h.AuthMiddleware)"
  const SubRouterHead: seq<string> := [GroupLine, UseLine]

  /** The lines of the group's function: its open routes, then, when the group
      has secured routes, a sub-router using the middleware holding them. */
  function GroupFunction(g: string, open: seq<string>, secured: Option<seq<string>>): seq<string> {
    ["func " + FuncName(g) + "(r chi.Router, h *handler.Handler) {"] + open
    + (match secured
       case None => []
       case Some(rs) => SubRouterHead + Prefixed("    ", rs) + ["  })"])
    + ["}", ""]
  }

  function Lookup(m: map<string, seq<string>>, g: string): Option<seq<string>> {
    if g in m then Some(m[g]) else None
  }

  /** The function of group `g`, from the open and the secured routes. */
  function GroupFunctionOf(g: string, open: map<string, seq<string>>, secured: map<string, seq<string>>): seq<string> {
    GroupFunction(g, if g in open then open[g] else [], Lookup(secured, g))
  }

  /** The group functions for the groups `gs`, in that order. */
  function GroupFunctions(gs: seq<string>, open: map<string, seq<string>>, secured: map<string, seq<string>>): seq<string> {
    if gs == [] then []
    else GroupFunctions(gs[..|gs| - 1], open, secured) + GroupFunctionOf(gs[|gs| - 1], open, secured)
  }

  function FuncNames(gs: seq<string>): (r: seq<string>)
    ensures |r| == |gs|
    ensures forall k :: 0 <= k < |gs| ==> r[k] == FuncName(gs[k])
  {
    seq(|gs|, k requires 0 <= k < |gs| => FuncName(gs[k]))
  }

  /** The calls of `MountRoutes`, one per function name. */
  function MountLines(names: seq<string>): (r: seq<string>)
    ensures |r| == |names|
    ensures forall k :: 0 <= k < |names| ==> r[k] == "  " + names[k] + "(r, h)"
  {
    seq(|names|, k requires 0 <= k < |names| => "  " + names[k] + "(r, h)")
  }

  const MountHead: string := "func MountRoutes(r *chi.Mux, h *handler.Handler) {"

  /** `routes.go` for the groups `gs`, and `MountRoutes` calling their functions in the same order. */
  function RoutesFile(gs: seq<string>, open: map<string, seq<string>>, secured: map<string, seq<string>>): string {
    Preamble + Lines(GroupFunctions(gs, open, secured)) + Lines([MountHead] + MountLines(FuncNames(gs)) + ["}"])
  }

  /** `generateGoRoutes` as written: the operations are sorted into open and
      secured groups, then a function is written for every group with an
      open route, in map order. The file write is left out. */
  method GenerateGoRoutes(apex: ApexData) returns (goCode: string)
    ensures exists gs :: (Enumerates(gs, Groups(apex.operations, apex.endpoints, false).Keys)
      && goCode == RoutesFile(gs, Groups(apex.operations, apex.endpoints, false), Groups(apex.operations, apex.endpoints, true)))
  {
    var routeGroups, securedGroups := SortRoutes(apex);
    var groups := EnumerateSet(routeGroups.Keys);
    var code, routeFuncNames := GroupFunctionsText(groups, routeGroups, securedGroups);
    var mount := MountText(routeFuncNames);
    goCode := Preamble + code + mount;
  }

  /** The first loop of `generateGoRoutes`. */
  method SortRoutes(apex: ApexData) returns (routeGroups: map<string, seq<string>>, securedGroups: map<string, seq<string>>)
    ensures routeGroups == Groups(apex.operations, apex.endpoints, false)
    ensures securedGroups == Groups(apex.operations, apex.endpoints, true)
  {
    var ops := apex.operations;
    routeGroups, securedGroups := map[], map[];
    var i := 0;
    while i < |ops|
      invariant 0 <= i <= |ops|
      invariant routeGroups == Groups(ops[..i], apex.endpoints, false)
      invariant securedGroups == Groups(ops[..i], apex.endpoints, true)
    {
      var op := ops[i];
      var groupName := GroupName(op.endpoint);
      var isSecured := SecuredRoute(op, apex.endpoints);
      var routeDefinition := "  r." + GoMethod(op.httpMethod) + "(\"" + op.endpoint + "\", h." + op.name + ")";
      GroupsSnoc(ops, apex.endpoints, i);
      if isSecured {
        securedGroups := Append(securedGroups, groupName, routeDefinition);
      } else {
        routeGroups := Append(routeGroups, groupName, routeDefinition);
      }
      i := i + 1;
    }
    assert ops[..i] == ops;
  }

  lemma GroupsSnoc(ops: seq<Operation>, endpoints: seq<Endpoint>, i: int)
    requires 0 <= i < |ops|
    ensures forall secured: bool :: Groups(ops[..i + 1], endpoints, secured)
              == if IsSecured(ops[i], endpoints) == secured
                 then Append(Groups(ops[..i], endpoints, secured), GroupName(ops[i].endpoint), RouteDefinition(ops[i]))
                 else Groups(ops[..i], endpoints, secured)
  {
    assert ops[..i + 1][..i] == ops[..i];
  }

  /** The group loop of `generateGoRoutes`: a function per group of `gs`,
      and the names of those functions. */
  method GroupFunctionsText(gs: seq<string>, open: map<string, seq<string>>, secured: map<string, seq<string>>)
    returns (code: string, routeFuncNames: seq<string>)
    ensures code == Lines(GroupFunctions(gs, open, secured))
    ensures routeFuncNames == FuncNames(gs)
  {
    code := "";
    routeFuncNames := [];
    var i := 0;
    while i < |gs|
      invariant 0 <= i <= |gs|
      invariant code == Lines(GroupFunctions(gs[..i], open, secured))
      invariant routeFuncNames == FuncNames(gs[..i])
    {
      var g := gs[i];
      var block := GroupFunctionText(g, if g in open then open[g] else [], Lookup(secured, g));
      GroupFunctionsSnoc(gs, i, open, secured);
      code := code + block;
      routeFuncNames := routeFuncNames + ["add" + Capitalize(g) + "Routes"];
      i := i + 1;
    }
    assert gs[..i] == gs;
  }

  lemma GroupFunctionsSnoc(gs: seq<string>, i: int, open: map<string, seq<string>>, secured: map<string, seq<string>>)
    requires 0 <= i < |gs|
    ensures Lines(GroupFunctions(gs[..i + 1], open, secured))
            == Lines(GroupFunctions(gs[..i], open, secured)) + Lines(GroupFunctionOf(gs[i], open, secured))
    ensures FuncNames(gs[..i + 1]) == FuncNames(gs[..i]) + [FuncName(gs[i])]
  {
    assert gs[..i + 1][..i] == gs[..i];
    LinesConcat(GroupFunctions(gs[..i], open, secured), GroupFunctionOf(gs[i], open, secured));
  }

  /** The `MountRoutes` function, a call per function name. */
  method MountText(routeFuncNames: seq<string>) returns (mount: string)
    ensures mount == Lines([MountHead] + MountLines(routeFuncNames) + ["}"])
  {
    mount := MountHead + "\n";
    assert mount == Lines([MountHead] + MountLines(routeFuncNames[..0]));
    var j := 0;
    while j < |routeFuncNames|
      invariant 0 <= j <= |routeFuncNames|
      invariant mount == Lines([MountHead] + MountLines(routeFuncNames[..j]))
    {
      MountSnoc(routeFuncNames, j);
      mount := mount + ("  " + routeFuncNames[j] + "(r, h)") + "\n";
      j := j + 1;
    }
    assert routeFuncNames[..j] == routeFuncNames;
    LinesSnoc([MountHead] + MountLines(routeFuncNames), "}");
    mount := mount + "}\n";
  }

  lemma MountSnoc(names: seq<string>, j: int)
    requires 0 <= j < |names|
    ensures Lines([MountHead] + MountLines(names[..j + 1]))
            == Lines([MountHead] + MountLines(names[..j])) + ("  " + names[j] + "(r, h)") + "\n"
  {
    assert MountLines(names[..j + 1]) == MountLines(names[..j]) + ["  " + names[j] + "(r, h)"];
    assert [MountHead] + MountLines(names[..j + 1]) == ([MountHead] + MountLines(names[..j])) + ["  " + names[j] + "(r, h)"];
    LinesSnoc([MountHead] + MountLines(names[..j]), "  " + names[j] + "(r, h)");
  }

  /** One group's function, written line by line. */
  method GroupFunctionText(g: string, open: seq<string>, secured: Option<seq<string>>) returns (text: string)
    ensures text == Lines(GroupFunction(g, open, secured))
  {
    var funcName := "add" + Capitalize(g) + "Routes";
    text := "func " + funcName + "(r chi.Router, h *handler.Handler) {" + "\n";
    var routes := LinesText("", open);
    text := text + routes;
    var sub := "";
    if secured.Some? {
      var inner := LinesText("    ", secured.value);
      SubRouterText(secured.value);
      sub := GroupLine + "\n" + UseLine + "\n" + inner + "  })\n";
    }
    text := text + sub + "}\n\n";
    GroupFunctionLines(g, open, secured);
  }

  lemma SubRouterHeadText()
    ensures Lines(SubRouterHead) == GroupLine + "\n" + UseLine + "\n"
  {
    assert SubRouterHead[1..] == [UseLine];
    assert [UseLine][1..] == [];
    assert Lines([UseLine]) == UseLine + "\n";
    assert Lines(SubRouterHead) == GroupLine + "\n" + (UseLine + "\n");
  }

  lemma SubRouterText(rs: seq<string>)
    ensures Lines(SubRouterHead + Prefixed("    ", rs) + ["  })"])
            == GroupLine + "\n" + UseLine + "\n" + Lines(Prefixed("    ", rs)) + "  })\n"
  {
    LinesConcat(SubRouterHead + Prefixed("    ", rs), ["  })"]);
    LinesConcat(SubRouterHead, Prefixed("    ", rs));
    SubRouterHeadText();
    assert Lines(["  })"]) == "  })" + "\n" + Lines([]);
  }

  lemma GroupFunctionLines(g: string, open: seq<string>, secured: Option<seq<string>>)
    ensures Lines(GroupFunction(g, open, secured))
            == "func " + ("add" + Capitalize(g) + "Routes") + "(r chi.Router, h *handler.Handler) {" + "\n" + Lines(Prefixed("", open))
               + (match secured
                  case None => ""
                  case Some(rs) => Lines(SubRouterHead + Prefixed("    ", rs) + ["  })"]))
               + "}\n\n"
  {
    var header := ["func " + FuncName(g) + "(r chi.Router, h *handler.Handler) {"];
    var sub := match secured
      case None => []
      case Some(rs) => SubRouterHead + Prefixed("    ", rs) + ["  })"];
    PrefixedEmpty(open);
    assert GroupFunction(g, open, secured) == header + open + sub + ["}", ""];
    LinesConcat(header + open + sub, ["}", ""]);
    LinesConcat(header + open, sub);
    LinesConcat(header, open);
    assert ["}", ""][1..][1..] == [];
  }

  lemma PrefixedEmpty(xs: seq<string>)
    ensures Prefixed("", xs) == xs
  {
    forall k | 0 <= k < |xs|
      ensures Prefixed("", xs)[k] == xs[k]
    {
      assert "" + xs[k] == xs[k];
    }
  }

  /** Lines written one by one with a prefix. */
  method LinesText(prefix: string, xs: seq<string>) returns (text: string)
    ensures text == Lines(Prefixed(prefix, xs))
  {
    text := "";
    var i := 0;
    while i < |xs|
      invariant 0 <= i <= |xs|
      invariant text == Lines(Prefixed(prefix, xs[..i]))
    {
      assert Prefixed(prefix, xs[..i + 1]) == Prefixed(prefix, xs[..i]) + [prefix + xs[i]];
      LinesSnoc(Prefixed(prefix, xs[..i]), prefix + xs[i]);
      text := text + (prefix + xs[i]) + "\n";
      i := i + 1;
    }
    assert xs[..i] == xs;
  }

  // A group whose routes are all secured.

  /** As written, a group with secured routes but no open route is in no
      enumeration of the open groups, so neither its function nor its mount
      call is written, and its secured routes are not served. */
  lemma SecuredOnlyGroupDropped(ops: seq<Operation>, endpoints: seq<Endpoint>, gs: seq<string>, g: string)
    requires Enumerates(gs, Groups(ops, endpoints, false).Keys)
    requires forall op :: op in ops && GroupName(op.endpoint) == g ==> IsSecured(op, endpoints)
    ensures g !in gs
  {
    GroupKeys(ops, endpoints, false, g);
  }

  /** One operation, `GET /api/me`, secured by its endpoint: `routes.go` has
      no route at all. */
  lemma SecuredOnlyExample(gs: seq<string>)
    requires Enumerates(gs, Groups([Operation("GetMe", "/api/me", "GET", "", "", "")],
                                   [Endpoint("/api/me", ["GET"], ["GET"])], false).Keys)
    ensures RoutesFile(gs, Groups([Operation("GetMe", "/api/me", "GET", "", "", "")], [Endpoint("/api/me", ["GET"], ["GET"])], false),
                       Groups([Operation("GetMe", "/api/me", "GET", "", "", "")], [Endpoint("/api/me", ["GET"], ["GET"])], true))
            == Preamble + MountHead + "\n}\n"
  {
    var op := Operation("GetMe", "/api/me", "GET", "", "", "");
    var eps := [Endpoint("/api/me", ["GET"], ["GET"])];
    NoOpenGroups(op, eps);
    EnumeratesSize(gs, {});
    EmptyRoutesFile(Groups([op], eps, false), Groups([op], eps, true));
  }

  lemma NoOpenGroups(op: Operation, eps: seq<Endpoint>)
    requires op == Operation("GetMe", "/api/me", "GET", "", "", "")
    requires eps == [Endpoint("/api/me", ["GET"], ["GET"])]
    ensures Groups([op], eps, false) == map[]
  {
    assert eps[0].secured[0] == op.httpMethod;
    assert IsSecured(op, eps);
    assert [op][..0] == [];
  }

  /** With no group, `routes.go` is the preamble and an empty `MountRoutes`. */
  lemma EmptyRoutesFile(open: map<string, seq<string>>, secured: map<string, seq<string>>)
    ensures RoutesFile([], open, secured) == Preamble + MountHead + "\n}\n"
  {
    var mount: seq<string> := [MountHead, "}"];
    assert Lines(GroupFunctions([], open, secured)) == "";
    assert [MountHead] + MountLines(FuncNames([])) + ["}"] == mount;
    assert mount[1..][1..] == [];
    assert Lines(mount[1..]) == "}\n";
    assert Lines(mount) == MountHead + "\n}\n";
  }

  /** The intended `generateGoRoutes`: a function for every group with any
      route, open or secured. */
  method GenerateGoRoutesFixed(apex: ApexData) returns (goCode: string)
    ensures exists gs :: (Enumerates(gs, Groups(apex.operations, apex.endpoints, false).Keys
                                        + Groups(apex.operations, apex.endpoints, true).Keys)
      && goCode == RoutesFile(gs, Groups(apex.operations, apex.endpoints, false), Groups(apex.operations, apex.endpoints, true)))
  {
    var routeGroups, securedGroups := SortRoutes(apex);
    var groups := EnumerateSet(routeGroups.Keys + securedGroups.Keys);
    var code, routeFuncNames := GroupFunctionsText(groups, routeGroups, securedGroups);
    var mount := MountText(routeFuncNames);
    goCode := Preamble + code + mount;
  }

  /** With the groups enumerated over open and secured keys together, every
      operation's route is written: an open one in its group's function, a
      secured one, indented, in that function's sub-router. */
  lemma EveryRouteWritten(ops: seq<Operation>, endpoints: seq<Endpoint>, gs: seq<string>, op: Operation)
    requires Enumerates(gs, Groups(ops, endpoints, false).Keys + Groups(ops, endpoints, true).Keys)
    requires op in ops
    ensures (if IsSecured(op, endpoints) then "    " + RouteDefinition(op) else RouteDefinition(op))
            in GroupFunctions(gs, Groups(ops, endpoints, false), Groups(ops, endpoints, true))
  {
    var open := Groups(ops, endpoints, false);
    var sec := Groups(ops, endpoints, true);
    var g := GroupName(op.endpoint);
    var s := IsSecured(op, endpoints);
    assert Belongs(op, endpoints, s, g);
    GroupKeys(ops, endpoints, s, g);
    GroupRoutes(ops, endpoints, s, g, RouteDefinition(op));
    assert g in gs;
    var k :| 0 <= k < |gs| && gs[k] == g;
    GroupFunctionHas(g, if g in open then open[g] else [], Lookup(sec, g));
    if s {
      var rs := sec[g];
      var j :| 0 <= j < |rs| && rs[j] == RouteDefinition(op);
    } else {
      var rs := open[g];
      var j :| 0 <= j < |rs| && rs[j] == RouteDefinition(op);
    }
    GroupFunctionsContain(gs, open, sec, k, if s then "    " + RouteDefinition(op) else RouteDefinition(op));
  }

  /** A group's function holds its open routes and, indented, its secured ones. */
  lemma GroupFunctionHas(g: string, open: seq<string>, secured: Option<seq<string>>)
    ensures forall j :: 0 <= j < |open| ==> open[j] in GroupFunction(g, open, secured)
    ensures secured.Some? ==> forall j :: 0 <= j < |secured.value| ==> "    " + secured.value[j] in GroupFunction(g, open, secured)
  {
    var header := ["func " + FuncName(g) + "(r chi.Router, h *handler.Handler) {"];
    var sub := match secured
      case None => []
      case Some(rs) => SubRouterHead + Prefixed("    ", rs) + ["  })"];
    var all := GroupFunction(g, open, secured);
    assert all == header + open + sub + ["}", ""];
    forall j | 0 <= j < |open|
      ensures open[j] in all
    {
      assert all[1 + j] == open[j];
    }
    if secured.Some? {
      forall j | 0 <= j < |secured.value|
        ensures "    " + secured.value[j] in all
      {
        assert sub[2 + j] == "    " + secured.value[j];
        assert all[1 + |open| + 2 + j] == sub[2 + j];
      }
    }
  }

  /** The functions for `gs` contain every line of each group's function. */
  lemma GroupFunctionsContain(gs: seq<string>, open: map<string, seq<string>>, secured: map<string, seq<string>>, k: int, x: string)
    requires 0 <= k < |gs| && x in GroupFunctionOf(gs[k], open, secured)
    ensures x in GroupFunctions(gs, open, secured)
  {
    var f := g => GroupFunctionOf(g, open, secured);
    GroupFunctionsFlat(gs, open, secured);
    FlatContains(gs, f, k, x);
  }

  /** The lines `f` gives for each of `gs`, one after another. */
  function Flat(gs: seq<string>, f: string -> seq<string>): seq<string> {
    if gs == [] then [] else Flat(gs[..|gs| - 1], f) + f(gs[|gs| - 1])
  }

  lemma {:induction false} FlatContains(gs: seq<string>, f: string -> seq<string>, k: int, x: string)
    requires 0 <= k < |gs| && x in f(gs[k])
    ensures x in Flat(gs, f)
    decreases |gs|
  {
    var n := |gs| - 1;
    assert Flat(gs, f) == Flat(gs[..n], f) + f(gs[n]);
    if k < n {
      assert gs[..n][k] == gs[k];
      FlatContains(gs[..n], f, k, x);
    }
  }

  lemma {:induction false} GroupFunctionsFlat(gs: seq<string>, open: map<string, seq<string>>, secured: map<string, seq<string>>)
    ensures GroupFunctions(gs, open, secured) == Flat(gs, g => GroupFunctionOf(g, open, secured))
    decreases |gs|
  {
    if gs != [] {
      GroupFunctionsFlat(gs[..|gs| - 1], open, secured);
    }
  }

  /** When no group is secured only, the written and the intended outputs
      range over the same groups. */
  lemma FixedAgreesWithoutSecuredOnlyGroups(ops: seq<Operation>, endpoints: seq<Endpoint>)
    requires forall op :: op in ops && IsSecured(op, endpoints)
               ==> exists o :: o in ops && Belongs(o, endpoints, false, GroupName(op.endpoint))
    ensures Groups(ops, endpoints, false).Keys + Groups(ops, endpoints, true).Keys == Groups(ops, endpoints, false).Keys
  {
    forall g | g in Groups(ops, endpoints, true)
      ensures g in Groups(ops, endpoints, false)
    {
      GroupKeys(ops, endpoints, true, g);
      var op :| op in ops && Belongs(op, endpoints, true, g);
      GroupKeys(ops, endpoints, false, g);
    }
  }
}
