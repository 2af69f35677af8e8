/** The name mappings of the code generators in apex-utils.go: field types to
    TypeScript and Go types, HTTP methods to client and router method names,
    and the capitalisation of field names. */
module ApexNames {
  import opened Wrappers
  import opened Text
  import opened ApexTypes
  import GoSchemaDisplay

  /** The five HTTP verbs the generators know, upper case. */
  const Verbs: set<string> := {"GET", "POST", "PUT", "DELETE", "PATCH"}

  /** `unicode.ToUpper` as far as it can produce an ASCII letter: the ASCII
      lower-case letters, dotless i and long s. Every other character is kept;
      the upper-case forms of the remaining characters are not ASCII, so this
      does not change which strings upper-case to an ASCII verb. */
  function GoUpperChar(c: char): (u: char)
    ensures 'A' <= u <= 'Z' ==> u == c || u == AsciiUpper(c) || c in {'ı', 'ſ'}
  {
    if 'a' <= c <= 'z' then AsciiUpper(c)
    else if c == 'ı' then 'I'
    else if c == 'ſ' then 'S'
    else c
  }

  /** `strings.ToUpper`, character by character, as above. */
  function GoUpper(s: string): (r: string)
    ensures |r| == |s| && forall i :: 0 <= i < |s| ==> r[i] == GoUpperChar(s[i])
  {
    seq(|s|, i requires 0 <= i < |s| => GoUpperChar(s[i]))
  }

  /** Upper-casing twice is upper-casing once. */
  lemma GoUpperIdempotent(s: string)
    ensures GoUpper(GoUpper(s)) == GoUpper(s)
  {
  }

  /** The JSON string the generators decode from `"` + `t` + `"` when they
      re-read an array's element type: `t` itself when it holds no quote, no
      backslash and no control character; otherwise the decoding fails. */
  function DecodeQuoted(t: string): (r: Option<string>)
    ensures r.Some? ==> r.value == t
    ensures r.None? <==> exists i :: 0 <= i < |t| && (t[i] == '"' || t[i] == '\\' || t[i] < ' ')
  {
    if forall i :: 0 <= i < |t| ==> t[i] != '"' && t[i] != '\\' && t[i] >= ' ' then Some(t) else None
  }

  /** `tsType` on a JSON string: the string itself, primitive or schema name. */
  function TsNamed(n: string): string {
    n
  }

  /** `tsType`: a string field is kept verbatim, an array field becomes its
      element's type followed by one `[]` (`any[]` when the element type does
      not re-decode), and any other value is `any`. */
  function TsType(v: FieldType): (r: string)
    ensures v.Named? ==> r == v.name
    ensures v.ArrayOf? && DecodeQuoted(v.arrayType).Some? ==> r == v.arrayType + "[]"
    ensures v.ArrayOf? && DecodeQuoted(v.arrayType).None? ==> r == "any[]"
    ensures v.Unknown? ==> r == "any"
  {
    match v
    case Named(n) => TsNamed(n)
    case ArrayOf(t) =>
      (match DecodeQuoted(t) case Some(x) => TsNamed(x) case None => "any") + "[]"
    case Unknown => "any"
  }

  /** A `null` field is typed `""` in TypeScript, and `interface{}` in Go
      unless some schema is named `""`. */
  lemma NullFieldTypes(names: set<string>)
    ensures TsType(JsonNull) == ""
    ensures "" !in names ==> GoType(JsonNull, names) == "interface{}"
  {
  }

  /** An array field's type is its element type as a string field, followed
      by exactly one `[]`, whenever the element type re-decodes. */
  lemma TsTypeArray(t: string)
    requires DecodeQuoted(t).Some?
    ensures TsType(ArrayOf(t)) == TsType(Named(t)) + "[]"
  {
  }

  /** `goType` on a JSON string: the primitives map to Go's, a schema name of
      `names` is kept, and any other name becomes `interface{}`. */
  function GoNamed(n: string, names: set<string>): (r: string)
    ensures r in {"string", "float64", "bool", "interface{}"} || (r == n && n in names)
    ensures n in names && n !in {"string", "number", "boolean"} ==> r == n
    ensures n !in names && n !in {"string", "number", "boolean"} ==> r == "interface{}"
  {
    if n == "string" then "string"
    else if n == "number" then "float64"
    else if n == "boolean" then "bool"
    else if n in names then n
    else "interface{}"
  }

  /** `goType`: as above for a string field; an array field becomes `[]` and
      its element's Go type (`[]interface{}` when the element type does not
      re-decode); any other value is `interface{}`. */
  function GoType(v: FieldType, names: set<string>): (r: string)
    ensures v.Named? ==> r == GoNamed(v.name, names)
    ensures v.ArrayOf? && DecodeQuoted(v.arrayType).Some? ==> r == "[]" + GoNamed(v.arrayType, names)
    ensures v.ArrayOf? && DecodeQuoted(v.arrayType).None? ==> r == "[]interface{}"
    ensures v.Unknown? ==> r == "interface{}"
  {
    match v
    case Named(n) => GoNamed(n, names)
    case ArrayOf(t) =>
      "[]" + (match DecodeQuoted(t) case Some(x) => GoNamed(x, names) case None => "interface{}")
    case Unknown => "interface{}"
  }

  /** The backend's Go types agree with the front end's preview whenever the
      named type is a primitive or an existing schema (and, for an array, its
      element type re-decodes). */
  lemma GoTypeAgreesWithPreview(v: FieldType, all: seq<Schema>)
    requires v.Named? || v.ArrayOf?
    requires v.ArrayOf? ==> DecodeQuoted(v.arrayType).Some?
    requires GoSchemaDisplay.Target(v) in Names(all) || GoSchemaDisplay.Target(v) in {"string", "number", "boolean"}
    ensures GoType(v, Names(all)) == GoSchemaDisplay.ResolveGoType(v)
  {
  }

  /** Where they differ: a name that is neither primitive nor a schema is kept
      by the preview but becomes `interface{}` in the generated Go. */
  lemma GoTypeUnknownName(n: string, all: seq<Schema>)
    requires n !in Names(all) && n !in {"string", "number", "boolean"}
    ensures GoType(Named(n), Names(all)) == "interface{}"
    ensures GoSchemaDisplay.ResolveGoType(Named(n)) == n
  {
  }

  /** Where they differ for arrays: an array of a name that is neither
      primitive nor a schema is `[]interface{}` in the generated Go, while the
      preview writes `[]` and the name. */
  lemma GoTypeUnknownArray(t: string, all: seq<Schema>)
    requires DecodeQuoted(t).Some?
    requires t !in Names(all) && t !in {"string", "number", "boolean"}
    ensures GoType(ArrayOf(t), Names(all)) == "[]interface{}"
    ensures GoSchemaDisplay.ResolveGoType(ArrayOf(t)) == "[]" + t
  {
  }

  /** `tsMethod`: the lower-case client function for a verb, matched after
      upper-casing, and `""` for anything else. */
  function TsMethod(m: string): (r: string)
    ensures |r| <= 6
  {
    var u := GoUpper(m);
    if u == "GET" then "get"
    else if u == "POST" then "post"
    else if u == "PUT" then "put"
    else if u == "DELETE" then "delete"
    else if u == "PATCH" then "patch"
    else ""
  }

  /** The client function is non-empty exactly for a verb, and is then the
      verb in lower case. */
  lemma TsMethodVerbs(m: string)
    ensures TsMethod(m) in {"get", "post", "put", "delete", "patch", ""}
    ensures TsMethod(m) != "" <==> GoUpper(m) in Verbs
    ensures TsMethod(m) != "" ==> TsMethod(m) == Lower(GoUpper(m))
  {
  }

  /** `goMethod`: the capitalised router method for a verb, matched after
      upper-casing, and `""` for anything else. */
  function GoMethod(m: string): (r: string)
    ensures r != "" <==> GoUpper(m) in Verbs
  {
    var u := GoUpper(m);
    if u == "GET" then "Get"
    else if u == "POST" then "Post"
    else if u == "PUT" then "Put"
    else if u == "DELETE" then "Delete"
    else if u == "PATCH" then "Patch"
    else ""
  }

  /** Both mappings ignore case: a method and its upper-case form map alike. */
  lemma MethodsIgnoreCase(m: string)
    ensures TsMethod(m) == TsMethod(GoUpper(m))
    ensures GoMethod(m) == GoMethod(GoUpper(m))
  {
    GoUpperIdempotent(m);
  }

  /** `capitalize`: the empty string stays empty; otherwise the first
      character is upper-cased and the rest kept. */
  function Capitalize(s: string): (r: string)
    ensures |r| == |s|
    ensures forall i :: 1 <= i < |s| ==> r[i] == s[i]
    ensures s != [] && s[0] < '\U{80}' ==> r[0] == AsciiUpper(s[0])
  {
    if s == [] then s
    else if s[0] < '\U{80}' then [AsciiUpper(s[0])] + s[1..]
    else s
  }

  /** The router method is the capitalised client method. */
  lemma GoMethodCapitalizesTsMethod(m: string)
    ensures GoMethod(m) == Capitalize(TsMethod(m))
  {
  }

  /** The backend's `capitalize` and the preview's `capitalizeGo` agree on
      every string that is empty or starts with an ASCII character. */
  lemma CapitalizeAgreesWithPreview(s: string)
    requires s == [] || s[0] < '\U{80}'
    ensures Capitalize(s) == GoSchemaDisplay.CapitalizeGo(s)
  {
  }
}
