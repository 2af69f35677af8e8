/** The front end's APEX store (`useApexStore`): the document being edited,
    the copy it was loaded as, and the edits of its three lists. Its record
    shapes are the front end's own, which differ from the backend's. */
module ApexStore {
  import opened Wrappers

  /** An endpoint as the front end declares it: one `secure` flag. */
  datatype StoreEndpoint = StoreEndpoint(path: string, methods: seq<string>, secure: bool)

  /** The object form of a field: a type name and an optional `required`. */
  datatype FieldObject = FieldObject(fieldType: string, required: Option<bool>)

  /** The four shapes a field may take: a type name, an object, a list of
      type names, a list of objects. */
  datatype SchemaField =
    | Basic(name: string)
    | Object(obj: FieldObject)
    | BasicList(names: seq<string>)
    | ObjectList(objs: seq<FieldObject>)

  /** A schema: its name and its fields keyed by field name. */
  datatype StoreSchema = StoreSchema(name: string, fields: map<string, SchemaField>)

  /** An operation; an absent optional schema is `None`. */
  datatype StoreOperation = StoreOperation(
    endpoint: string, httpMethod: string,
    querySchema: Option<string>, bodySchema: Option<string>, responseSchema: string)

  datatype StoreApex = StoreApex(endpoints: seq<StoreEndpoint>, schemas: seq<StoreSchema>, operations: seq<StoreOperation>)

  const EmptyStoreApex: StoreApex := StoreApex([], [], [])

  /** A schema name is given when present and non-empty (JavaScript truthiness). */
  predicate Given(s: Option<string>) {
    s.Some? && s.value != ""
  }

  /** The refinements of `OperationSchema`: one of the five methods; a GET
      carries no body schema; a POST, PUT or DELETE carries no query schema. */
  predicate ValidOperation(op: StoreOperation) {
    op.httpMethod in {"GET", "POST", "PUT", "DELETE", "PATCH"}
    && (op.httpMethod == "GET" ==> !Given(op.bodySchema))
    && (op.httpMethod in {"POST", "PUT", "DELETE"} ==> !Given(op.querySchema))
  }

  /** A PATCH is valid with any schemas; a GET may take a query schema but no
      body schema; a POST, PUT or DELETE may take a body schema but no query
      schema; any other method is invalid. */
  lemma OperationRules(op: StoreOperation)
    ensures op.httpMethod == "PATCH" ==> ValidOperation(op)
    ensures op.httpMethod == "GET" ==> (ValidOperation(op) <==> !Given(op.bodySchema))
    ensures op.httpMethod in {"POST", "PUT", "DELETE"} ==> (ValidOperation(op) <==> !Given(op.querySchema))
    ensures op.httpMethod !in {"GET", "POST", "PUT", "DELETE", "PATCH"} ==> !ValidOperation(op)
  {
  }

  /** What `ApexSchema.parse` accepts of a document of the right shape. */
  predicate Parses(raw: StoreApex) {
    forall op :: op in raw.operations ==> ValidOperation(op)
  }

  /** A copied list with `x` assigned at `index`: in range it replaces that
      element, one past the end it appends, and a negative index is a
      property that is not an element. */
  function SetAt<T>(s: seq<T>, index: int, x: T): (r: seq<T>)
    requires index <= |s|
    ensures 0 <= index < |s| ==> |r| == |s| && r[index] == x && forall j :: 0 <= j < |s| && j != index ==> r[j] == s[j]
    ensures index == |s| ==> r == s + [x]
    ensures index < 0 ==> r == s
  {
    if index < 0 then s else if index == |s| then s + [x] else s[index := x]
  }

  /** `splice(index, 1)` on a copy: a negative index counts from the end
      (clamped at 0), and an index past the end removes nothing. */
  function Splice<T>(s: seq<T>, index: int): (r: seq<T>)
  {
    var start := if index < 0 then (if |s| + index < 0 then 0 else |s| + index) else index;
    if start < |s| then s[..start] + s[start + 1..] else s
  }

  /** An in-range delete removes exactly that element and keeps the others in order. */
  lemma SpliceInRange<T>(s: seq<T>, index: int)
    requires 0 <= index < |s|
    ensures |Splice(s, index)| == |s| - 1
    ensures forall j :: 0 <= j < index ==> Splice(s, index)[j] == s[j]
    ensures forall j :: index <= j < |s| - 1 ==> Splice(s, index)[j] == s[j + 1]
    ensures multiset(Splice(s, index)) + multiset{s[index]} == multiset(s)
  {
    assert s == s[..index] + [s[index]] + s[index + 1..];
  }

  /** A negative index `-k` deletes the k-th element from the end, and the
      first one once `k` exceeds the length; an index at or past the end
      deletes nothing. */
  lemma SpliceOutOfRange<T>(s: seq<T>, index: int)
    ensures index >= |s| ==> Splice(s, index) == s
    ensures index < 0 && s != [] ==> Splice(s, index) == Splice(s, if |s| + index < 0 then 0 else |s| + index)
  {
  }

  /** The store. `apex` is the document being edited; `originalApex` the one
      last loaded. */
  class Store {
    var apex: StoreApex
    var originalApex: StoreApex

    constructor ()
      ensures apex == EmptyStoreApex && originalApex == EmptyStoreApex
      ensures !IsDirty()
    {
      apex := EmptyStoreApex;
      originalApex := EmptyStoreApex;
    }

    /** The document differs, deeply, from the one loaded. */
    predicate IsDirty()
      reads this
    {
      apex != originalApex
    }

    method Reset()
      modifies this
      ensures apex == old(originalApex) && originalApex == old(originalApex)
      ensures !IsDirty()
    {
      apex := originalApex;
    }

    method Clear()
      modifies this
      ensures apex == EmptyStoreApex && originalApex == old(originalApex)
    {
      apex := StoreApex([], [], []);
    }

    /** `loadApex`, given what the backend returned (`None` when the call
      failed): a document that parses becomes both copies; otherwise nothing
      changes. */
    method LoadApex(raw: Option<StoreApex>)
      modifies this
      ensures raw.Some? && Parses(raw.value) ==> apex == raw.value && originalApex == raw.value && !IsDirty()
      ensures !(raw.Some? && Parses(raw.value)) ==> apex == old(apex) && originalApex == old(originalApex)
    {
      if raw.Some? && Parses(raw.value) {
        apex, originalApex := raw.value, raw.value;
      }
    }

    method AddEndpoint(endpoint: StoreEndpoint)
      modifies this
      ensures apex == old(apex).(endpoints := old(apex).endpoints + [endpoint]) && originalApex == old(originalApex)
    {
      apex := apex.(endpoints := apex.endpoints + [endpoint]);
    }

    method UpdateEndpoint(index: int, updated: StoreEndpoint)
      requires index <= |apex.endpoints|
      modifies this
      ensures apex == old(apex).(endpoints := SetAt(old(apex).endpoints, index, updated)) && originalApex == old(originalApex)
    {
      var endpoints := apex.endpoints;
      endpoints := SetAt(endpoints, index, updated);
      apex := apex.(endpoints := endpoints);
    }

    method DeleteEndpoint(index: int)
      modifies this
      ensures apex == old(apex).(endpoints := Splice(old(apex).endpoints, index)) && originalApex == old(originalApex)
    {
      apex := apex.(endpoints := Splice(apex.endpoints, index));
    }

    method AddSchema(schema: StoreSchema)
      modifies this
      ensures apex == old(apex).(schemas := old(apex).schemas + [schema]) && originalApex == old(originalApex)
    {
      apex := apex.(schemas := apex.schemas + [schema]);
    }

    method UpdateSchema(index: int, updated: StoreSchema)
      requires index <= |apex.schemas|
      modifies this
      ensures apex == old(apex).(schemas := SetAt(old(apex).schemas, index, updated)) && originalApex == old(originalApex)
    {
      apex := apex.(schemas := SetAt(apex.schemas, index, updated));
    }

    method DeleteSchema(index: int)
      modifies this
      ensures apex == old(apex).(schemas := Splice(old(apex).schemas, index)) && originalApex == old(originalApex)
    {
      apex := apex.(schemas := Splice(apex.schemas, index));
    }

    method AddOperation(operation: StoreOperation)
      modifies this
      ensures apex == old(apex).(operations := old(apex).operations + [operation]) && originalApex == old(originalApex)
    {
      apex := apex.(operations := apex.operations + [operation]);
    }

    method UpdateOperation(index: int, updated: StoreOperation)
      requires index <= |apex.operations|
      modifies this
      ensures apex == old(apex).(operations := SetAt(old(apex).operations, index, updated)) && originalApex == old(originalApex)
    {
      apex := apex.(operations := SetAt(apex.operations, index, updated));
    }

    method DeleteOperation(index: int)
      modifies this
      ensures apex == old(apex).(operations := Splice(old(apex).operations, index)) && originalApex == old(originalApex)
    {
      apex := apex.(operations := Splice(apex.operations, index));
    }

    /** `saveApex` is a stub: it changes nothing. */
    method SaveApex(dir: string)
      ensures unchanged(this)
    {
    }
  }

  /** Editing then resetting leaves a clean store holding the loaded document;
      an add makes the store dirty until then. */
  method EditThenReset(store: Store, raw: StoreApex, op: StoreOperation)
    requires Parses(raw)
    modifies store
    ensures store.apex == raw && store.originalApex == raw && !store.IsDirty()
  {
    store.LoadApex(Some(raw));
    store.AddOperation(op);
    assert |store.apex.operations| == |raw.operations| + 1;
    assert store.IsDirty();
    store.Reset();
  }
}
