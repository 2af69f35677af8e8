/** `generateGoHandlers` (apex-utils.go): one Go source file per API
    namespace, holding a handler stub per operation of that namespace. */
module ApexGoHandlers {
  import opened Wrappers
  import opened Text
  import opened ApexTypes
  import opened ApexNames
  import opened GoMaps
  import opened ApexGoRoutes

  /** The doc comment and the signature of an operation's handler. */
  function HandlerHeader(op: Operation): string {
    "\n// " + op.name + " handles " + op.httpMethod + " requests to " + op.endpoint + "\n"
    + ("func (h *Handler) " + op.name + "(") + "w http.ResponseWriter, r *http.Request) {\n"
  }

  /** The authentication check a secured handler starts with. */
  const AuthBlock: string :=
    "\n  userID, ok := GetUserID(r.Context())\n  if !ok {\n    http.Error(w, \"Unauthorized\", http.StatusUnauthorized)\n    return\n  }\n"

  /** `s` written `n` times. */
  function Repeat(s: string, n: nat): (r: string)
    ensures |r| == n * |s|
  {
    if n == 0 then "" else Repeat(s, n - 1) + s
  }

  lemma RepeatOnceMore(s: string, n: nat)
    ensures Repeat(s, n + 1) == Repeat(s, n) + s
  { }

  /** How often `x` occurs in `xs`. */
  function Count(xs: seq<string>, x: string): nat {
    if xs == [] then 0 else Count(xs[..|xs| - 1], x) + if xs[|xs| - 1] == x then 1 else 0
  }

  /** How many authentication checks the handler gets: one per pair of an
      endpoint with the operation's path and an equal secured method, since
      the scan does not stop at the first match. */
  function AuthCount(op: Operation, endpoints: seq<Endpoint>): nat {
    if endpoints == [] then 0
    else
      var ep := endpoints[|endpoints| - 1];
      AuthCount(op, endpoints[..|endpoints| - 1]) + if ep.path == op.endpoint then Count(ep.secured, op.httpMethod) else 0
  }

  /** The keys Go's decoder puts in a `map[string]string` from a schema's
      fields: every key of an object, whatever the type of its value, and no
      key at all when the fields are not an object. */
  function KeySet(fields: Option<seq<Field>>): set<string> {
    match fields
    case None => {}
    case Some(fs) => set f | f in fs :: f.key
  }

  /** The assignment of one query parameter to the field of the same name. */
  function QueryLine(key: string): string {
    "  params." + Capitalize(key) + " = query.Get(\"" + key + "\")\n"
  }

  /** The assignments for the keys, in the order given. */
  function QueryLines(keys: seq<string>): string {
    if keys == [] then "" else QueryLines(keys[..|keys| - 1]) + QueryLine(keys[|keys| - 1])
  }

  /** The assignments for every schema named `q`, each schema's keys in the
      order `orders` records for it. */
  function SchemaLines(q: string, schemas: seq<Schema>, orders: seq<seq<string>>): string
    requires |orders| == |schemas|
  {
    if schemas == [] then ""
    else
      var n := |schemas| - 1;
      SchemaLines(q, schemas[..n], orders[..n]) + if schemas[n].name == q then QueryLines(orders[n]) else ""
  }

  /** `orders` holds an iteration order of the keys of every schema the
      handler of `op` reads. */
  predicate OrdersFit(op: Operation, schemas: seq<Schema>, orders: seq<seq<string>>) {
    |orders| == |schemas| && (op.querySchema != "" ==> KeyOrders(op.querySchema, schemas, orders))
  }

  /** `orders[k]` enumerates the keys of every schema named `q`. */
  predicate KeyOrders(q: string, schemas: seq<Schema>, orders: seq<seq<string>>) {
    |orders| == |schemas|
    && forall k :: 0 <= k < |schemas| && schemas[k].name == q ==> Enumerates(orders[k], KeySet(schemas[k].fields))
  }

  function QueryHead(q: string): string {
    "\n  params := api." + q + "{}\n  query := r.URL.Query()\n"
  }

  /** The query-parameter block: present only when the operation has a query schema. */
  function QueryBlock(op: Operation, schemas: seq<Schema>, orders: seq<seq<string>>): string
    requires |orders| == |schemas|
  {
    if op.querySchema == "" then "" else QueryHead(op.querySchema) + SchemaLines(op.querySchema, schemas, orders)
  }

  /** The response type: the operation's response schema, or `interface{}`. */
  function ResponseType(op: Operation): string {
    if op.responseSchema == "" then "interface{}" else op.responseSchema
  }

  function ResponseBlock(responseSchema: string): string {
    "\n  // TODO: Implement Query Logic\n\n  " + ("response := api." + responseSchema + "{}") + "\n  h.JSON.Success(w, response)\n}\n"
  }

  /** The whole handler stub of one operation. */
  function Handler(op: Operation, endpoints: seq<Endpoint>, schemas: seq<Schema>, orders: seq<seq<string>>): string
    requires |orders| == |schemas|
  {
    HandlerHeader(op) + Repeat(AuthBlock, AuthCount(op, endpoints)) + QueryBlock(op, schemas, orders) + ResponseBlock(ResponseType(op))
  }

  /** `orders` has a list of key orders, one per schema, for every operation. */
  predicate Shaped(ops: seq<Operation>, schemas: seq<Schema>, orders: seq<seq<seq<string>>>) {
    |orders| == |ops| && forall i :: 0 <= i < |ops| ==> |orders[i]| == |schemas|
  }

  /** `orders[i]` fits the handler of `ops[i]`, for every operation. */
  predicate AllFit(ops: seq<Operation>, schemas: seq<Schema>, orders: seq<seq<seq<string>>>) {
    Shaped(ops, schemas, orders) && forall i :: 0 <= i < |ops| ==> OrdersFit(ops[i], schemas, orders[i])
  }

  /** The handlers per namespace, in document order. */
  function HandlerGroups(ops: seq<Operation>, endpoints: seq<Endpoint>, schemas: seq<Schema>, orders: seq<seq<seq<string>>>)
    : map<string, seq<string>>
    requires Shaped(ops, schemas, orders)
  {
    if ops == [] then map[]
    else
      var n := |ops| - 1;
      Append(HandlerGroups(ops[..n], endpoints, schemas, orders[..n]), GroupName(ops[n].endpoint),
             Handler(ops[n], endpoints, schemas, orders[n]))
  }

  const FileHead: string :=
    "package handler\n\nimport (\n  \"net/http\"\n  \"solar-system/genesis/api\"\n)\n\n"

  /** The contents written to `<group>.go`, per group. */
  function HandlerFiles(groups: map<string, seq<string>>): (files: map<string, string>)
    ensures files.Keys == groups.Keys
  {
    map g | g in groups :: FileHead + Join(groups[g], "\n")
  }

  /** `generateGoHandlers` as written, without the directory creation and
      the file writes: the file contents per group. */
  method GenerateGoHandlers(apex: ApexData) returns (files: map<string, string>)
    ensures exists orders :: (AllFit(apex.operations, apex.schemas, orders)
      && files == HandlerFiles(HandlerGroups(apex.operations, apex.endpoints, apex.schemas, orders)))
  {
    var ops := apex.operations;
    var handlerGroups: map<string, seq<string>> := map[];
    ghost var orders: seq<seq<seq<string>>> := [];
    var i := 0;
    while i < |ops|
      invariant 0 <= i <= |ops|
      invariant AllFit(ops[..i], apex.schemas, orders)
      invariant handlerGroups == HandlerGroups(ops[..i], apex.endpoints, apex.schemas, orders)
    {
      var op := ops[i];
      var groupName := GroupName(op.endpoint);
      var handlerFunc, order := HandlerText(op, apex.endpoints, apex.schemas);
      HandlerGroupsSnoc(ops, apex.endpoints, apex.schemas, orders, order, i);
      handlerGroups := Append(handlerGroups, groupName, handlerFunc);
      orders := orders + [order];
      i := i + 1;
    }
    assert ops[..i] == ops;
    var groups := EnumerateSet(handlerGroups.Keys);
    files := WriteFiles(groups, handlerGroups);
  }

  lemma HandlerGroupsSnoc(ops: seq<Operation>, endpoints: seq<Endpoint>, schemas: seq<Schema>,
                          orders: seq<seq<seq<string>>>, order: seq<seq<string>>, i: int)
    requires 0 <= i < |ops|
    requires AllFit(ops[..i], schemas, orders)
    requires OrdersFit(ops[i], schemas, order)
    ensures AllFit(ops[..i + 1], schemas, orders + [order])
    ensures HandlerGroups(ops[..i + 1], endpoints, schemas, orders + [order])
            == Append(HandlerGroups(ops[..i], endpoints, schemas, orders), GroupName(ops[i].endpoint),
                      Handler(ops[i], endpoints, schemas, order))
  {
    var ops1, orders1 := ops[..i + 1], orders + [order];
    assert ops1[..i] == ops[..i] && orders1[..i] == orders;
    assert ops1[i] == ops[i] && orders1[i] == order;
    AllFitSnoc(ops, schemas, orders, order, i);
    HandlerGroupsLast(ops1, endpoints, schemas, orders1);
  }

  lemma AllFitSnoc(ops: seq<Operation>, schemas: seq<Schema>, orders: seq<seq<seq<string>>>, order: seq<seq<string>>, i: int)
    requires 0 <= i < |ops|
    requires AllFit(ops[..i], schemas, orders)
    requires OrdersFit(ops[i], schemas, order)
    ensures AllFit(ops[..i + 1], schemas, orders + [order])
  {
    var ops1, orders1 := ops[..i + 1], orders + [order];
    forall j | 0 <= j < i + 1
      ensures |orders1[j]| == |schemas| && OrdersFit(ops1[j], schemas, orders1[j])
    {
      if j < i {
        assert ops1[j] == ops[..i][j] && orders1[j] == orders[j];
      }
    }
  }

  /** The last operation's handler is appended to its namespace's list. */
  lemma HandlerGroupsLast(ops: seq<Operation>, endpoints: seq<Endpoint>, schemas: seq<Schema>, orders: seq<seq<seq<string>>>)
    requires Shaped(ops, schemas, orders) && ops != []
    ensures Shaped(ops[..|ops| - 1], schemas, orders[..|ops| - 1])
    ensures HandlerGroups(ops, endpoints, schemas, orders)
            == Append(HandlerGroups(ops[..|ops| - 1], endpoints, schemas, orders[..|ops| - 1]),
                      GroupName(ops[|ops| - 1].endpoint), Handler(ops[|ops| - 1], endpoints, schemas, orders[|ops| - 1]))
  {
    var n := |ops| - 1;
    assert Shaped(ops[..n], schemas, orders[..n]);
  }

  /** Appending puts the value under its key. */
  lemma AppendHas(m: map<string, seq<string>>, g: string, x: string)
    ensures g in Append(m, g, x) && x in Append(m, g, x)[g]
  {
    assert Append(m, g, x)[g][|Append(m, g, x)[g]| - 1] == x;
  }

  /** Appending keeps every value already in the map. */
  lemma AppendKeeps(m: map<string, seq<string>>, g: string, x: string, h: string, v: string)
    requires h in m && v in m[h]
    ensures h in Append(m, g, x) && v in Append(m, g, x)[h]
  {
    var j :| 0 <= j < |m[h]| && m[h][j] == v;
    assert Append(m, g, x)[h][j] == v;
  }

  /** The write loop: one file per group of `gs`. */
  method WriteFiles(gs: seq<string>, handlerGroups: map<string, seq<string>>) returns (files: map<string, string>)
    requires Enumerates(gs, handlerGroups.Keys)
    ensures files == HandlerFiles(handlerGroups)
  {
    files := map[];
    var i := 0;
    while i < |gs|
      invariant 0 <= i <= |gs|
      invariant files.Keys == set g | g in gs[..i]
      invariant forall g :: g in files ==> files[g] == FileHead + Join(handlerGroups[g], "\n")
    {
      var groupName := gs[i];
      var handlerCode := "package handler\n\nimport (\n  \"net/http\"\n  \"solar-system/genesis/api\"\n)\n\n"
                         + Join(handlerGroups[groupName], "\n");
      assert gs[..i + 1] == gs[..i] + [groupName];
      files := files[groupName := handlerCode];
      i := i + 1;
    }
    assert gs[..i] == gs;
  }

  /** One operation's handler, built as `generateGoHandlers` appends its
      parts; `order` records the key order of every schema read. */
  method HandlerText(op: Operation, endpoints: seq<Endpoint>, schemas: seq<Schema>)
    returns (handlerFunc: string, ghost order: seq<seq<string>>)
    ensures OrdersFit(op, schemas, order)
    ensures handlerFunc == Handler(op, endpoints, schemas, order)
  {
    handlerFunc := HandlerHeader(op);
    var auth := AuthText(op, endpoints);
    handlerFunc := handlerFunc + auth;
    var query;
    query, order := QueryText(op, schemas);
    handlerFunc := handlerFunc + query;
    var responseSchema := op.responseSchema;
    if responseSchema == "" {
      responseSchema := "interface{}";
    }
    handlerFunc := handlerFunc + ResponseBlock(responseSchema);
  }

  /** The endpoint scan: an authentication check per matching secured method. */
  method AuthText(op: Operation, endpoints: seq<Endpoint>) returns (auth: string)
    ensures auth == Repeat(AuthBlock, AuthCount(op, endpoints))
  {
    auth := "";
    var i := 0;
    while i < |endpoints|
      invariant 0 <= i <= |endpoints|
      invariant auth == Repeat(AuthBlock, AuthCount(op, endpoints[..i]))
    {
      var ep := endpoints[i];
      AuthCountSnoc(op, endpoints, i);
      if ep.path == op.endpoint {
        auth := SecuredMethodsText(op.httpMethod, ep.secured, auth, AuthCount(op, endpoints[..i]));
      }
      i := i + 1;
    }
    assert endpoints[..i] == endpoints;
  }

  /** The scan of one matching endpoint's secured methods: a check per method
      equal to the operation's. */
  method SecuredMethodsText(m: string, secured: seq<string>, auth0: string, ghost n: nat) returns (auth: string)
    requires auth0 == Repeat(AuthBlock, n)
    ensures auth == Repeat(AuthBlock, n + Count(secured, m))
  {
    auth := auth0;
    ghost var c := 0;
    for j := 0 to |secured|
      invariant c == Count(secured[..j], m)
      invariant auth == Repeat(AuthBlock, n + c)
    {
      CountSnoc(secured, m, j);
      if secured[j] == m {
        RepeatOnceMore(AuthBlock, n + c);
        auth := auth + AuthBlock;
        c := c + 1;
      }
    }
    assert secured[..|secured|] == secured;
  }

  lemma AuthCountSnoc(op: Operation, endpoints: seq<Endpoint>, i: int)
    requires 0 <= i < |endpoints|
    ensures AuthCount(op, endpoints[..i + 1])
            == AuthCount(op, endpoints[..i]) + if endpoints[i].path == op.endpoint then Count(endpoints[i].secured, op.httpMethod) else 0
  {
    assert endpoints[..i + 1][..i] == endpoints[..i];
  }

  lemma CountSnoc(xs: seq<string>, x: string, j: int)
    requires 0 <= j < |xs|
    ensures Count(xs[..j + 1], x) == Count(xs[..j], x) + if xs[j] == x then 1 else 0
  {
    assert xs[..j + 1][..j] == xs[..j];
  }

  /** The query-parameter block, reading the keys of every schema named by
      the operation's query schema in map order. */
  method QueryText(op: Operation, schemas: seq<Schema>) returns (query: string, ghost order: seq<seq<string>>)
    ensures OrdersFit(op, schemas, order)
    ensures query == QueryBlock(op, schemas, order)
  {
    if op.querySchema == "" {
      order := seq(|schemas|, k => []);
      query := "";
    } else {
      var lines;
      lines, order := SchemaLinesText(op.querySchema, schemas);
      query := QueryHead(op.querySchema) + lines;
    }
  }

  /** The loop over the schemas named `q`, each one's keys in map order. */
  method SchemaLinesText(q: string, schemas: seq<Schema>) returns (lines: string, ghost order: seq<seq<string>>)
    ensures KeyOrders(q, schemas, order)
    ensures lines == SchemaLines(q, schemas, order)
  {
    lines := "";
    order := [];
    var k := 0;
    while k < |schemas|
      invariant 0 <= k <= |schemas|
      invariant KeyOrders(q, schemas[..k], order)
      invariant lines == SchemaLines(q, schemas[..k], order)
    {
      var schema := schemas[k];
      var keys: seq<string> := [];
      if schema.name == q {
        keys := EnumerateSet(KeySet(schema.fields));
        var fieldLines := QueryLinesText(keys);
        lines := lines + fieldLines;
      }
      SchemaLinesSnoc(q, schemas, order, keys, k);
      KeyOrdersSnoc(q, schemas, order, keys, k);
      order := order + [keys];
      k := k + 1;
    }
    assert schemas[..k] == schemas;
  }

  lemma SchemaLinesSnoc(q: string, schemas: seq<Schema>, order: seq<seq<string>>, keys: seq<string>, k: int)
    requires 0 <= k < |schemas| && |order| == k
    ensures SchemaLines(q, schemas[..k + 1], order + [keys])
            == SchemaLines(q, schemas[..k], order) + if schemas[k].name == q then QueryLines(keys) else ""
  {
    assert schemas[..k + 1][..k] == schemas[..k];
    assert (order + [keys])[..k] == order;
  }

  lemma KeyOrdersSnoc(q: string, schemas: seq<Schema>, order: seq<seq<string>>, keys: seq<string>, k: int)
    requires 0 <= k < |schemas| && KeyOrders(q, schemas[..k], order)
    requires schemas[k].name == q ==> Enumerates(keys, KeySet(schemas[k].fields))
    ensures KeyOrders(q, schemas[..k + 1], order + [keys])
  {
    var s := schemas[..k + 1];
    var o := order + [keys];
    forall m | 0 <= m < |s| && s[m].name == q
      ensures Enumerates(o[m], KeySet(s[m].fields))
    {
      if m < k {
        assert s[m] == schemas[..k][m] && o[m] == order[m];
      }
    }
  }

  /** The loop over one schema's keys. */
  method QueryLinesText(keys: seq<string>) returns (lines: string)
    ensures lines == QueryLines(keys)
  {
    lines := "";
    var i := 0;
    while i < |keys|
      invariant 0 <= i <= |keys|
      invariant lines == QueryLines(keys[..i])
    {
      assert keys[..i + 1][..i] == keys[..i];
      lines := lines + ("  params." + Capitalize(keys[i]) + " = query.Get(\"" + keys[i] + "\")\n");
      i := i + 1;
    }
    assert keys[..i] == keys;
  }

  // Properties.

  lemma {:induction false} CountPositive(xs: seq<string>, x: string)
    ensures Count(xs, x) > 0 <==> x in xs
    decreases |xs|
  {
    if xs != [] {
      var n := |xs| - 1;
      CountPositive(xs[..n], x);
      assert xs == xs[..n] + [xs[n]];
    }
  }

  /** A handler checks authentication exactly when its route is put behind
      the middleware in `routes.go`. */
  lemma {:induction false} AuthExactlyWhenSecured(op: Operation, endpoints: seq<Endpoint>)
    ensures AuthCount(op, endpoints) > 0 <==> IsSecured(op, endpoints)
    decreases |endpoints|
  {
    if endpoints == [] {
    } else {
      var n := |endpoints| - 1;
      AuthExactlyWhenSecured(op, endpoints[..n]);
      CountPositive(endpoints[n].secured, op.httpMethod);
      SecuredSnoc(op, endpoints, n);
      assert endpoints[..n + 1] == endpoints;
    }
  }

  /** The namespaces of the operations. */
  function Namespaces(ops: seq<Operation>): set<string> {
    if ops == [] then {} else Namespaces(ops[..|ops| - 1]) + {GroupName(ops[|ops| - 1].endpoint)}
  }

  lemma {:induction false} NamespacesExactly(ops: seq<Operation>, g: string)
    ensures g in Namespaces(ops) <==> exists op :: op in ops && GroupName(op.endpoint) == g
    decreases |ops|
  {
    if ops != [] {
      NamespacesExactly(ops[..|ops| - 1], g);
      SomeInNamespaceSnoc(ops, g);
    }
  }

  lemma SomeInNamespaceSnoc(ops: seq<Operation>, g: string)
    requires ops != []
    ensures (exists op :: op in ops && GroupName(op.endpoint) == g)
            <==> (exists op :: op in ops[..|ops| - 1] && GroupName(op.endpoint) == g) || GroupName(ops[|ops| - 1].endpoint) == g
  {
    var n := |ops| - 1;
    assert ops == ops[..n] + [ops[n]];
    if exists op :: op in ops && GroupName(op.endpoint) == g {
      var op :| op in ops && GroupName(op.endpoint) == g;
      if op != ops[n] {
        assert op in ops[..n];
      }
    }
    if exists op :: op in ops[..n] && GroupName(op.endpoint) == g {
      var op :| op in ops[..n] && GroupName(op.endpoint) == g;
      assert op in ops;
    }
    assert ops[n] in ops;
  }

  lemma {:induction false} HandlerGroupsNamespaces(ops: seq<Operation>, endpoints: seq<Endpoint>, schemas: seq<Schema>,
                                                   orders: seq<seq<seq<string>>>)
    requires Shaped(ops, schemas, orders)
    ensures HandlerGroups(ops, endpoints, schemas, orders).Keys == Namespaces(ops)
    decreases |ops|
  {
    if ops != [] {
      var n := |ops| - 1;
      assert Shaped(ops[..n], schemas, orders[..n]);
      HandlerGroupsNamespaces(ops[..n], endpoints, schemas, orders[..n]);
    }
  }

  /** A namespace gets a handler file exactly when some operation is in it. */
  lemma HandlerGroupKeys(ops: seq<Operation>, endpoints: seq<Endpoint>, schemas: seq<Schema>,
                         orders: seq<seq<seq<string>>>, g: string)
    requires Shaped(ops, schemas, orders)
    ensures g in HandlerGroups(ops, endpoints, schemas, orders) <==> exists op :: op in ops && GroupName(op.endpoint) == g
  {
    HandlerGroupsNamespaces(ops, endpoints, schemas, orders);
    NamespacesExactly(ops, g);
  }

  /** The handler files are exactly the route groups, open and secured
      together: unlike `routes.go`, a namespace whose routes are all secured
      still gets its handlers. */
  lemma HandlerFilesCoverRouteGroups(ops: seq<Operation>, endpoints: seq<Endpoint>, schemas: seq<Schema>,
                                     orders: seq<seq<seq<string>>>)
    requires Shaped(ops, schemas, orders)
    ensures HandlerFiles(HandlerGroups(ops, endpoints, schemas, orders)).Keys
            == Groups(ops, endpoints, false).Keys + Groups(ops, endpoints, true).Keys
  {
    var files := HandlerFiles(HandlerGroups(ops, endpoints, schemas, orders));
    forall g | g in files
      ensures g in Groups(ops, endpoints, false) || g in Groups(ops, endpoints, true)
    {
      HandlerGroupKeys(ops, endpoints, schemas, orders, g);
      var op :| op in ops && GroupName(op.endpoint) == g;
      assert Belongs(op, endpoints, IsSecured(op, endpoints), g);
      GroupKeys(ops, endpoints, IsSecured(op, endpoints), g);
    }
    forall g | g in Groups(ops, endpoints, false) || g in Groups(ops, endpoints, true)
      ensures g in files
    {
      var s := g in Groups(ops, endpoints, true);
      GroupKeys(ops, endpoints, s, g);
      HandlerGroupKeys(ops, endpoints, schemas, orders, g);
    }
  }

  /** Every operation's handler is in the file of its namespace. */
  lemma {:induction false} EveryHandlerWritten(ops: seq<Operation>, endpoints: seq<Endpoint>, schemas: seq<Schema>,
                                               orders: seq<seq<seq<string>>>, i: int)
    requires Shaped(ops, schemas, orders) && 0 <= i < |ops|
    ensures GroupName(ops[i].endpoint) in HandlerGroups(ops, endpoints, schemas, orders)
    ensures Handler(ops[i], endpoints, schemas, orders[i]) in HandlerGroups(ops, endpoints, schemas, orders)[GroupName(ops[i].endpoint)]
    decreases |ops|
  {
    var n := |ops| - 1;
    HandlerGroupsLast(ops, endpoints, schemas, orders);
    if i < n {
      EveryHandlerWritten(ops[..n], endpoints, schemas, orders[..n], i);
      assert ops[..n][i] == ops[i] && orders[..n][i] == orders[i];
      AppendKeeps(HandlerGroups(ops[..n], endpoints, schemas, orders[..n]), GroupName(ops[n].endpoint),
                  Handler(ops[n], endpoints, schemas, orders[n]),
                  GroupName(ops[i].endpoint), Handler(ops[i], endpoints, schemas, orders[i]));
    } else {
      AppendHas(HandlerGroups(ops[..n], endpoints, schemas, orders[..n]), GroupName(ops[n].endpoint),
                Handler(ops[n], endpoints, schemas, orders[n]));
    }
  }

  /** The handler declares the method the route of its operation calls. */
  lemma HandlerDeclaresName(op: Operation, endpoints: seq<Endpoint>, schemas: seq<Schema>, orders: seq<seq<string>>)
    requires |orders| == |schemas|
    ensures Contains(Handler(op, endpoints, schemas, orders), "func (h *Handler) " + op.name + "(")
  {
    var pre := "\n// " + op.name + " handles " + op.httpMethod + " requests to " + op.endpoint + "\n";
    var decl := "func (h *Handler) " + op.name + "(";
    var h := HandlerHeader(op);
    var auth := Repeat(AuthBlock, AuthCount(op, endpoints));
    var query := QueryBlock(op, schemas, orders);
    ContainsSelf(decl);
    ContainsConcat(pre, decl, decl);
    ContainsConcat(pre + decl, "w http.ResponseWriter, r *http.Request) {\n", decl);
    ContainsConcat(h, auth, decl);
    ContainsConcat(h + auth, query, decl);
    ContainsConcat(h + auth + query, ResponseBlock(ResponseType(op)), decl);
  }

  lemma QueryLinesContain(keys: seq<string>, key: string)
    requires key in keys
    ensures Contains(QueryLines(keys), QueryLine(key))
  {
    var k :| 0 <= k < |keys| && keys[k] == key;
    QueryLinesAreConcat(keys);
    ConcatContains(keys, QueryLine, k);
  }

  /** The texts `f` gives for each of `keys`, one after another. */
  function Concat(keys: seq<string>, f: string -> string): string {
    if keys == [] then "" else Concat(keys[..|keys| - 1], f) + f(keys[|keys| - 1])
  }

  lemma {:induction false} ConcatContains(keys: seq<string>, f: string -> string, k: int)
    requires 0 <= k < |keys|
    ensures Contains(Concat(keys, f), f(keys[k]))
    decreases |keys|
  {
    var n := |keys| - 1;
    ContainsSelf(f(keys[k]));
    if k < n {
      assert keys[..n][k] == keys[k];
      ConcatContains(keys[..n], f, k);
    }
    ContainsConcat(Concat(keys[..n], f), f(keys[n]), f(keys[k]));
  }

  lemma {:induction false} QueryLinesAreConcat(keys: seq<string>)
    ensures QueryLines(keys) == Concat(keys, QueryLine)
    decreases |keys|
  {
    if keys != [] {
      QueryLinesAreConcat(keys[..|keys| - 1]);
    }
  }

  lemma SchemaLinesContain(q: string, schemas: seq<Schema>, orders: seq<seq<string>>, k: int, key: string)
    requires |orders| == |schemas| && 0 <= k < |schemas| && schemas[k].name == q && key in orders[k]
    ensures Contains(SchemaLines(q, schemas, orders), QueryLine(key))
  {
    QueryLinesContain(orders[k], key);
    SchemaLinesContainText(q, schemas, orders, k, QueryLine(key));
  }

  /** Whatever the lines of one matching schema contain, all the lines do. */
  lemma {:induction false} SchemaLinesContainText(q: string, schemas: seq<Schema>, orders: seq<seq<string>>, k: int,
                                                  line: string)
    requires |orders| == |schemas| && 0 <= k < |schemas| && schemas[k].name == q
    requires Contains(QueryLines(orders[k]), line)
    ensures Contains(SchemaLines(q, schemas, orders), line)
    decreases |schemas|
  {
    var n := |schemas| - 1;
    var init := SchemaLines(q, schemas[..n], orders[..n]);
    var tail := if schemas[n].name == q then QueryLines(orders[n]) else "";
    assert SchemaLines(q, schemas, orders) == init + tail;
    if k < n {
      assert schemas[..n][k] == schemas[k] && orders[..n][k] == orders[k];
      SchemaLinesContainText(q, schemas[..n], orders[..n], k, line);
    }
    ContainsConcat(init, tail, line);
  }

  /** Every key of the query schema's fields, whatever its declared type,
      gets its `params.<Key> = query.Get("<key>")` assignment. */
  lemma QueryParamForEveryField(op: Operation, endpoints: seq<Endpoint>, schemas: seq<Schema>, orders: seq<seq<string>>,
                                k: int, key: string)
    requires OrdersFit(op, schemas, orders)
    requires op.querySchema != "" && 0 <= k < |schemas| && schemas[k].name == op.querySchema
    requires schemas[k].fields.Some? && exists f :: f in schemas[k].fields.value && f.key == key
    ensures Contains(Handler(op, endpoints, schemas, orders), QueryLine(key))
  {
    var f :| f in schemas[k].fields.value && f.key == key;
    assert key in KeySet(schemas[k].fields);
    SchemaLinesContain(op.querySchema, schemas, orders, k, key);
    ContainsConcat(QueryHead(op.querySchema), SchemaLines(op.querySchema, schemas, orders), QueryLine(key));
    var auth := HandlerHeader(op) + Repeat(AuthBlock, AuthCount(op, endpoints));
    ContainsConcat(auth, QueryBlock(op, schemas, orders), QueryLine(key));
    ContainsConcat(auth + QueryBlock(op, schemas, orders), ResponseBlock(ResponseType(op)), QueryLine(key));
  }

  /** A handler without query schema has no query block; one without
      response schema answers with `api.interface{}{}`. */
  lemma HandlerShape(op: Operation, endpoints: seq<Endpoint>, schemas: seq<Schema>, orders: seq<seq<string>>)
    requires |orders| == |schemas|
    ensures op.querySchema == "" ==> (Handler(op, endpoints, schemas, orders)
            == HandlerHeader(op) + Repeat(AuthBlock, AuthCount(op, endpoints)) + ResponseBlock(ResponseType(op)))
    ensures op.responseSchema == "" ==> Contains(ResponseBlock(ResponseType(op)), "response := api.interface{}{}")
  {
    if op.responseSchema == "" {
      var pre := "\n  // TODO: Implement Query Logic\n\n  ";
      var mid := "response := api." + "interface{}" + "{}";
      assert mid == "response := api.interface{}{}";
      ContainsSelf(mid);
      ContainsConcat(pre, mid, mid);
      ContainsConcat(pre + mid, "\n  h.JSON.Success(w, response)\n}\n", mid);
    }
  }
}
