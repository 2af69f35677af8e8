/** The APEX document: endpoints, schemas and operations of a generated API
    (the `ApexData`, `Endpoint`, `Schema` and `Operation` records). */
module ApexTypes {
  import opened Wrappers

  /** The declared type of one schema field, as the JSON value holding it:
      a string (a primitive name such as "string", or the name of a schema),
      an array object `{"type": "array", "arrayType": X}` whose element type X
      is again a string, or any other JSON value. Since X is a string, arrays
      nest at most one level. A JSON `null` is decoded by the Go generators
      into a string without error, leaving it empty, so for them it is the
      string field `Named("")`; the front end's field type does not admit
      `null`. */
  datatype FieldType = Named(name: string) | ArrayOf(arrayType: string) | Unknown

  /** A JSON `null` field value, as the Go generators decode it. */
  const JsonNull: FieldType := Named("")

  /** One entry of a schema's `fields` object. */
  datatype Field = Field(key: string, value: FieldType)

  /** A schema. `fields` is `None` when the stored `fields` value is absent
      or is neither a JSON object nor `null` (the Go decoder then fails);
      otherwise it lists the object's entries in document order, and a `null`
      value, which Go decodes into an empty map, is `Some([])`. The front
      end's schema type makes `fields` a mandatory object. `kind` is the
      schema's `type` tag ("Query", "Body", "Response" or "Custom"). */
  datatype Schema = Schema(name: string, kind: string, fields: Option<seq<Field>>, required: seq<string>)

  /** An API route with its methods and the methods that need authentication. */
  datatype Endpoint = Endpoint(path: string, methods: seq<string>, secured: seq<string>)

  /** An operation binds one method of one endpoint to its schemas; an absent
      optional schema is the empty string, as Go's `omitempty` and the
      front end's falsy tests treat it. */
  datatype Operation = Operation(
    name: string, endpoint: string, httpMethod: string,
    querySchema: string, bodySchema: string, responseSchema: string)

  /** The whole `apex.json` document. */
  datatype ApexData = ApexData(endpoints: seq<Endpoint>, schemas: seq<Schema>, operations: seq<Operation>)

  const EmptyApex: ApexData := ApexData([], [], [])

  /** The names of a list of schemas. */
  function Names(schemas: seq<Schema>): set<string> {
    set s | s in schemas :: s.name
  }

  /** The keys of a list of entries. */
  function KeysOf(fs: seq<Field>): set<string> {
    set f | f in fs :: f.key
  }

  /** The map Go's decoder builds from a `fields` object: every key, holding
      the value of its last entry, since a repeated key overwrites the
      earlier one. */
  function FieldMap(fs: seq<Field>): (m: map<string, FieldType>)
    ensures m.Keys == KeysOf(fs)
  {
    if fs == [] then map[]
    else
      var init := fs[..|fs| - 1];
      var last := fs[|fs| - 1];
      assert fs == init + [last];
      FieldMap(init)[last.key := last.value]
  }

  /** An entry that no later entry repeats gives its key its value. */
  lemma {:induction false} FieldMapLast(fs: seq<Field>, i: int)
    requires 0 <= i < |fs| && forall j :: i < j < |fs| ==> fs[j].key != fs[i].key
    ensures fs[i].key in FieldMap(fs) && FieldMap(fs)[fs[i].key] == fs[i].value
    decreases |fs|
  {
    assert fs[i] in fs;
    var n := |fs| - 1;
    if i < n {
      var init := fs[..n];
      assert init[i] == fs[i];
      forall j | i < j < n
        ensures init[j].key != init[i].key
      {
        assert init[j] == fs[j];
      }
      FieldMapLast(init, i);
    }
  }

  /** The values of a schema's fields, in entry order (`Object.values`). */
  function Values(fs: seq<Field>): (vs: seq<FieldType>)
    ensures |vs| == |fs|
    ensures forall i :: 0 <= i < |fs| ==> vs[i] == fs[i].value
  {
    seq(|fs|, i requires 0 <= i < |fs| => fs[i].value)
  }
}
