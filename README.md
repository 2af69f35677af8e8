# bsd-genesis core, modelled in Dafny

bsd-genesis is a desktop app. Its Go backend and its React front end manage
"solar system" projects, and each project has these parts:

- an APEX document (`apex.json`) of endpoints, schemas and operations, from which the backend generates
  TypeScript types, react-query hooks, an API client, chi routes and Go handler stubs;
- a `.env` file holding the server port and the database DSN;
- a PostgreSQL connection, with a SQL-editor history;
- a git repository, with branches, stashes and merges;
- up to three client apps, called "planets" (web, mobile and desktop).

This project models the logic of that core and proves properties of the model:

- **the schema-to-type projections:**
  - the Go struct preview of the front end, with its depth-first, cycle-safe collection of referenced schemas;
  - the backend's `tsType`/`goType` mappings;
  - what each generator writes.
- **the front end's APEX store and schema-field editor.**
- **the `.env` line handling** (`PORT=` and `DSN=`), the SQL statements, the SQL-history edits and the connection state.
- **the git rules:**
  - stash recognition and numbering;
  - index bounds;
  - which branch is switched to;
  - commit-line formats;
  - merges.
- **the planet operations:**
  - the planet-type validation;
  - the listing of the planets present;
  - which processes the dev-server shutdown kills;
  - the local-URL extraction.
- **the new-project form:** the `nameToDir` mapping, the duplicate rule and the backend's option check.

Where a source function is a pure switch, expression or recursion, it is a Dafny `function`. Step-by-step code is written as Dafny `method`s with loops and invariants, each proved equal to a specification function:

- the generators' `+=` accumulation;
- `.env` scans;
- the delete loop;
- the stash listing;
- the planet marking;
- the PID scan.

State that the source updates in place is a `class`:

- `Store` for the zustand store;
- `Editor` for the component state of `UpdateSchema`;
- `Connection` for `a.db`;
- `Repository` for a git repository;
- `PlanetsFolder` for a project's `planets` directory.

Several things are parameters of the model, among them file contents, `ps aux` output, clone and process outcomes, UUIDs and clock times. Go map iteration order is left open: a result over a map is stated for *some* enumeration of its keys (`GoMaps.Enumerates`).

Modules, one per file: `Wrappers`, `Text` (strings, and the library calls the sources use), `GoMaps`, `ApexTypes`, `ApexNames`, `ApexTsTypes`, `ApexTsQueries`, `ApexTsClient`, `ApexGoRoutes`, `ApexGoHandlers`, `GoSchemaDisplay`, `ApexStore`, `SchemaEditor`, `ServerEnv`, `Database`, `Git`, `ClientsUtils`, `Clients`, `ProjectsUtils`, `FrontendUtils`, `ProjectsList`.

## Model

| member | source | states |
|---|---|---|
| ApexTypes.Values | frontend/src/components/GoSchemaDisplay.tsx:32 | `Object.values(fields)` keeps every field's value, in entry order |
| ApexTypes.FieldMap | apex-utils.go:76-77 | the decoded `fields` map holds exactly the object's keys |
| ApexTypes.FieldMapLast | apex-utils.go:76-77 | a key of the decoded map holds the value of the object's last entry with that key, so a repeated key collapses |
| GoMaps.EnumerateSet | apex-utils.go:235 | ranging over a set-valued map yields every key exactly once, in some order |
| GoMaps.EnumeratesSize | apex-utils.go:235 | an enumeration is as long as the set and is empty exactly when the set is |
| ApexNames.GoUpperChar | apex-utils.go:103 | `unicode.ToUpper` yields an ASCII capital only from that capital, its lower case, or the two runes `ı`/`ſ` |
| ApexNames.GoUpper | apex-utils.go:103 | `strings.ToUpper` maps each character on its own and keeps the length |
| ApexNames.GoUpperIdempotent | apex-utils.go:103 | upper-casing twice is the same as upper-casing once |
| ApexNames.DecodeQuoted | apex-utils.go:49-52 | re-quoting `arrayType` and decoding it gives back the same text unless the text holds a quote, a backslash or a control character |
| ApexNames.TsType | apex-utils.go:35-58 | a JSON string becomes its own text (primitive or schema name); an array field becomes its element type followed by `[]`, or `any[]` when the element type does not re-decode; any other value becomes `any` |
| ApexNames.TsTypeArray | apex-utils.go:49-52 | an array field becomes its element's string type followed by exactly one `[]` |
| ApexNames.NullFieldTypes | apex-utils.go:37-38 | a `null` field decodes as the empty string: `""` in TypeScript, `interface{}` in Go unless a schema is named `""` |
| ApexNames.GoNamed | apex-utils.go:408-425 | string/number/boolean map to string/float64/bool; another name survives only when it is a schema, else `interface{}` |
| ApexNames.GoType | apex-utils.go:408-438 | names map as above; an array field becomes `[]` followed by its element's Go type, or `[]interface{}` when the element type does not re-decode; any other value is `interface{}` |
| ApexNames.GoTypeAgreesWithPreview | apex-utils.go:408-438 | for primitive or existing-schema names, the backend's Go type equals the front-end preview's |
| ApexNames.GoTypeUnknownName | apex-utils.go:421-424 | an unknown name becomes `interface{}` in the backend but stays verbatim in the preview |
| ApexNames.GoTypeUnknownArray | apex-utils.go:421-437 | an array of an unknown element name is `[]interface{}` in the backend but `[]` and the name in the preview |
| ApexNames.TsMethod | apex-utils.go:102-117 | the client function name is at most six characters long (`delete` is the longest) |
| ApexNames.TsMethodVerbs | apex-utils.go:102-117 | the result is one of the five lower-case verbs or `""`; it is non-empty exactly when the upper-cased method is one of the five verbs, and is then that verb in lower case |
| ApexNames.GoMethod | apex-utils.go:440-455 | the result is non-empty exactly when the upper-cased method is one of the five verbs |
| ApexNames.MethodsIgnoreCase | apex-utils.go:102-117 | both method mappings ignore the case of their input |
| ApexNames.Capitalize | apex-utils.go:375-380 | `""` stays `""`; the length is kept; only the first character changes, and an ASCII one is upper-cased |
| ApexNames.GoMethodCapitalizesTsMethod | apex-utils.go:440-455 | the router method is always the capitalised client method |
| ApexNames.CapitalizeAgreesWithPreview | apex-utils.go:375-380 | `capitalize` agrees with the preview's `capitalizeGo` on empty or ASCII-initial strings |
| ApexTsTypes.MemberLines | apex-utils.go:82-84 | one `key: type;` line per key of the decoded map, in the order the keys are visited |
| ApexTsTypes.GenerateTSTypes | apex-utils.go:61-100 | the text is the banner and then each schema's block, in document order, with each block's members in some iteration order of its decoded keys |
| ApexTsTypes.TypeBlockText | apex-utils.go:73-85 | one schema's pass writes its header, then, when the fields decode, its members in some order of its keys and the closing brace |
| ApexTsTypes.MembersText | apex-utils.go:82-84 | the member loop writes one line per key visited, with that key's decoded value |
| ApexTsTypes.TypesFileStart | apex-utils.go:71 | before any schema, the file is the banner and a blank line |
| ApexTsTypes.TypesIgnoreRequired | apex-utils.go:82-84 | `Required` plays no part: no member is ever marked optional |
| ApexTsTypes.TypesListEveryField | apex-utils.go:76-84 | every entry of every decodable schema gets a member line carrying its key's last value, whatever the iteration order |
| ApexTsTypes.MemberLinesAnyOrder | apex-utils.go:82-84 | two iteration orders give the same member lines, as many as there are keys |
| ApexTsTypes.MemberLinesBalance | apex-utils.go:82-84 | member lines neither open nor close a type |
| ApexTsTypes.TypeBlockBalance | apex-utils.go:73-85 | a schema's block is balanced when its fields decode and leaves one type open otherwise |
| ApexTsTypes.TypeBlocksBalance | apex-utils.go:72-86 | the file has exactly one unclosed type per schema whose fields fail to decode |
| ApexTsTypes.UnclosedTypeExample | apex-utils.go:76-79 | a concrete document where the next schema's header lands inside an unclosed type |
| ApexTsTypes.FixedTypeBlocksBalanced | apex-utils.go:72-86 | if undecodable schemas are skipped whole, every opened type is closed |
| ApexTsTypes.FixedTypeBlocksAgree | apex-utils.go:72-86 | when every schema decodes, the corrected and the written output coincide |
| ApexTsQueries.HookOps | apex-utils.go:145-147 | the hooked operations are a subsequence of the operations |
| ApexTsQueries.Hooks | apex-utils.go:143-186 | one hook text per hooked operation, in document order |
| ApexTsQueries.GenerateTSQueries | apex-utils.go:120-215 | the text is the preamble, the import line for some enumeration of the query types, and then the hooks |
| ApexTsQueries.QueriesSnoc | apex-utils.go:143-158 | an operation adds a hook, and its query type, exactly when its method is `GET` |
| ApexTsQueries.HookOpsExactly | apex-utils.go:145-147 | an operation is hooked exactly when its method is exactly `GET` |
| ApexTsQueries.LowerCaseGetHasNoHook | apex-utils.go:145-147 | a lower-case `get` gets no hook, although the client maps it to `get` |
| ApexTsQueries.ImportLineWhenUsed | apex-utils.go:189-196 | the type import appears exactly when some GET operation has a query schema |
| ApexTsQueries.HookTakesParams | apex-utils.go:154-158 | a hook takes `params: <QuerySchema>` exactly when the operation has a query schema |
| ApexTsClient.UsedSchemasExactly | apex-utils.go:217-239 | a schema is imported exactly when some operation names it; `""` never is |
| ApexTsClient.GenerateTSImports | apex-utils.go:217-239 | the import list names each used schema exactly once, in some order |
| ApexTsClient.UsedSchemasEmpty | apex-utils.go:217-239 | the list is empty exactly when no operation names any schema |
| ApexTsClient.UsedMethodsExactly | apex-utils.go:242-258 | a request function is imported exactly when some operation's method maps to it |
| ApexTsClient.GenerateTSMethods | apex-utils.go:242-258 | the import list names each used request function exactly once, in some order |
| ApexTsClient.UsedMethodsAdmitEmpty | apex-utils.go:246-248 | `""` is imported exactly when some operation's method is not one of the five verbs |
| ApexTsClient.HeadIsUnknown | apex-utils.go:102-117 | `HEAD` maps to `""` and `GET` to `get` |
| ApexTsClient.EmptyMethodImportExample | apex-utils.go:246-248 | a GET and a HEAD operation give the list `, get` or `get, ` |
| ApexTsClient.KnownMethodsCorrect | apex-utils.go:242-258 | the corrected set holds only request-function names and covers every operation with a verb |
| ApexTsClient.ParamPrecedence | apex-utils.go:295-304 | a query schema wins over a body schema; with neither there is no parameter |
| ApexTsClient.StaticLines | apex-utils.go:319-323 | one static class member per operation |
| ApexTsClient.GenerateTSAPIClient | apex-utils.go:261-347 | the base URL is `http://localhost:<port>`; the text lists the used methods and schemas, the request functions and the class |
| ApexTsClient.ClientFunctionsText | apex-utils.go:287-317 | the function loop writes the four lines of each operation's function |
| ApexTsClient.ClientFunctionText | apex-utils.go:287-317 | one function is its signature, its call and its closing line |
| ApexTsClient.ClassText | apex-utils.go:319-323 | the class holds one static member per operation |
| ApexTsClient.ClientFunctionsLayout | apex-utils.go:287-317 | block `k` of four lines is exactly the function of operation `k` |
| ApexGoRoutes.GroupName | apex-utils.go:474-479 | the group is the first `/`-piece after `/api/`, and never holds a `/` |
| ApexGoRoutes.GroupNameOfPath | apex-utils.go:474-479 | `/api/<g>/…` and `/api/<g>` are both in group `g` |
| ApexGoRoutes.SecuredRoute | apex-utils.go:481-492 | a route is secured exactly when an endpoint with the same path lists its method among the secured ones |
| ApexGoRoutes.Append | apex-utils.go:495-500 | `m[g] = append(m[g], x)` adds `x` at the end of `g`'s list and changes no other key |
| ApexGoRoutes.GroupKeys | apex-utils.go:495-500 | a group exists exactly when some operation of that security falls into it |
| ApexGoRoutes.GroupRoutes | apex-utils.go:495-500 | a group holds exactly the route definitions of the operations that belong to it |
| ApexGoRoutes.Prefixed | apex-utils.go:517-519 | each line gets the prefix and the lines keep their order |
| ApexGoRoutes.FuncNames | apex-utils.go:511 | one function name per group, in the same order |
| ApexGoRoutes.MountLines | apex-utils.go:527-531 | one call per route function, in order |
| ApexGoRoutes.GenerateGoRoutes | apex-utils.go:457-542 | the text is the preamble, a function for each group with an open route (in some order), and `MountRoutes` |
| ApexGoRoutes.SortRoutes | apex-utils.go:467-501 | the first loop sorts every operation's route into its open or secured group |
| ApexGoRoutes.GroupFunctionsText | apex-utils.go:508-524 | the group loop writes every group's function and records its name |
| ApexGoRoutes.MountText | apex-utils.go:527-531 | `MountRoutes` calls every recorded function |
| ApexGoRoutes.GroupFunctionText | apex-utils.go:509-523 | one group's function holds its open routes, then its secured ones in a sub-router |
| ApexGoRoutes.SubRouterText | apex-utils.go:514-521 | the sub-router text uses `h.AuthMiddleware` and indents its routes |
| ApexGoRoutes.LinesText | apex-utils.go:512-519 | writing lines one by one with a prefix |
| ApexGoRoutes.SecuredOnlyGroupDropped | apex-utils.go:508-524 | a group whose routes are all secured gets no function and no mount call |
| ApexGoRoutes.SecuredOnlyExample | apex-utils.go:508-531 | one secured `GET /api/me` gives a `routes.go` with no route at all |
| ApexGoRoutes.EmptyRoutesFile | apex-utils.go:504-531 | with no group, the file is the preamble and an empty `MountRoutes` |
| ApexGoRoutes.GenerateGoRoutesFixed | apex-utils.go:508-531 | the corrected generator writes a function for every group that has any route |
| ApexGoRoutes.EveryRouteWritten | apex-utils.go:508-524 | in the corrected output every open route is in its group's function, and every secured one is in that function's sub-router |
| ApexGoRoutes.GroupFunctionHas | apex-utils.go:509-523 | a group's function contains all its open routes and, indented, all its secured ones |
| ApexGoRoutes.GroupFunctionsContain | apex-utils.go:508-524 | the written functions contain every line of each group's function |
| ApexGoRoutes.FixedAgreesWithoutSecuredOnlyGroups | apex-utils.go:508-524 | without secured-only groups, the corrected and the written versions range over the same groups |
| ApexGoHandlers.Repeat | apex-utils.go:574-588 | `n` copies of the text have `n` times its length |
| ApexGoHandlers.HandlerFiles | apex-utils.go:623-636 | one file per handler group, and no other |
| ApexGoHandlers.GenerateGoHandlers | apex-utils.go:544-639 | the files are those of the handler groups, with the schema keys read in some map order |
| ApexGoHandlers.WriteFiles | apex-utils.go:623-636 | the write loop produces each group's file |
| ApexGoHandlers.HandlerText | apex-utils.go:566-617 | one handler is its header, its auth checks, its query block and its response block |
| ApexGoHandlers.AuthText | apex-utils.go:574-588 | one auth check per (endpoint, secured method) pair matching the operation; the scan does not stop at the first match |
| ApexGoHandlers.QueryText | apex-utils.go:591-602 | the query block exists only with a query schema and reads every schema of that name |
| ApexGoHandlers.SchemaLinesText | apex-utils.go:593-600 | every schema named like the query schema contributes its key assignments |
| ApexGoHandlers.QueryLinesText | apex-utils.go:596-599 | one assignment per key |
| ApexGoHandlers.CountPositive | apex-utils.go:578-586 | the method occurs in a list exactly when its count there is positive |
| ApexGoHandlers.AuthExactlyWhenSecured | apex-utils.go:574-588 | a handler checks authentication exactly when `routes.go` puts its route behind the middleware |
| ApexGoHandlers.NamespacesExactly | apex-utils.go:561-565 | a namespace comes from some operation's endpoint |
| ApexGoHandlers.HandlerGroupsNamespaces | apex-utils.go:561-565 | the handler groups are exactly the operations' namespaces |
| ApexGoHandlers.HandlerGroupKeys | apex-utils.go:561-565 | a namespace gets a handler file exactly when some operation is in it |
| ApexGoHandlers.HandlerFilesCoverRouteGroups | apex-utils.go:561-565 | the handler files are exactly the route groups, open and secured together |
| ApexGoHandlers.EveryHandlerWritten | apex-utils.go:561-636 | every operation's handler is in the file of its namespace |
| ApexGoHandlers.HandlerDeclaresName | apex-utils.go:568-571 | a handler declares the method its route calls |
| ApexGoHandlers.QueryLinesContain | apex-utils.go:596-599 | every key gets its assignment |
| ApexGoHandlers.SchemaLinesContain | apex-utils.go:593-600 | every key of every matching schema gets its assignment |
| ApexGoHandlers.QueryParamForEveryField | apex-utils.go:591-602 | every field key of the query schema, of any declared type, is read from the query string |
| ApexGoHandlers.HandlerShape | apex-utils.go:591-616 | without a query schema there is no query block; without a response schema the response is `api.interface{}{}` |
| GoSchemaDisplay.Find | frontend/src/components/GoSchemaDisplay.tsx:42 | `find` returns a schema of that name from the list, and fails exactly when no schema has the name |
| GoSchemaDisplay.FindIsFirst | frontend/src/components/GoSchemaDisplay.tsx:42 | the schema `find` returns is the first in the list with that name: every schema before it is named otherwise |
| GoSchemaDisplay.Collect | frontend/src/components/GoSchemaDisplay.tsx:26-50 | collection only ever adds to the visited set |
| GoSchemaDisplay.CollectFields | frontend/src/components/GoSchemaDisplay.tsx:32-47 | the field loop only ever adds to the visited set |
| GoSchemaDisplay.CollectGrowsSeen | frontend/src/components/GoSchemaDisplay.tsx:27-44 | the visited set grows by exactly the names emitted |
| GoSchemaDisplay.CollectFieldsGrowSeen | frontend/src/components/GoSchemaDisplay.tsx:32-47 | the same for the field loop |
| GoSchemaDisplay.CollectEmitsUnseen | frontend/src/components/GoSchemaDisplay.tsx:27-44 | only schemas of the list whose names were not yet visited are emitted; after the root, only `find` results |
| GoSchemaDisplay.CollectFieldsEmitUnseen | frontend/src/components/GoSchemaDisplay.tsx:35-45 | the same for the field loop |
| GoSchemaDisplay.CollectDistinct | frontend/src/components/GoSchemaDisplay.tsx:27-28 | no schema name is emitted twice, self- and mutual references included |
| GoSchemaDisplay.CollectFieldsDistinct | frontend/src/components/GoSchemaDisplay.tsx:32-47 | the same for the field loop |
| GoSchemaDisplay.CollectClosed | frontend/src/components/GoSchemaDisplay.tsx:35-45 | every name a collected schema's fields lead to ends up visited |
| GoSchemaDisplay.CollectFieldsClosed | frontend/src/components/GoSchemaDisplay.tsx:35-45 | the same for the field loop |
| GoSchemaDisplay.CollectDiscovered | frontend/src/components/GoSchemaDisplay.tsx:30-45 | the root comes first; every later schema is referenced by a field of an earlier one |
| GoSchemaDisplay.CollectFieldsDiscovered | frontend/src/components/GoSchemaDisplay.tsx:32-47 | the same for the field loop |
| GoSchemaDisplay.CollectGoSchemasRecursively | frontend/src/components/GoSchemaDisplay.tsx:26-50 | the recursive method returns exactly the collection function's list and visited set |
| GoSchemaDisplay.CollectFromFields | frontend/src/components/GoSchemaDisplay.tsx:32-47 | the for-of loop returns exactly the field-collection function's list and set |
| GoSchemaDisplay.CollectFieldsSkip | frontend/src/components/GoSchemaDisplay.tsx:35-41 | a value that names no existing schema contributes nothing |
| GoSchemaDisplay.CollectFieldsFollow | frontend/src/components/GoSchemaDisplay.tsx:41-45 | a value naming a schema appends that schema's collection, in field order |
| GoSchemaDisplay.Dedup | frontend/src/components/GoSchemaDisplay.tsx:13 | `Array.from(new Set(xs))` lists only names of `xs`, lists none of them twice, and keeps every one |
| GoSchemaDisplay.DedupOfDistinct | frontend/src/components/GoSchemaDisplay.tsx:13 | removing duplicates from a list without any changes nothing |
| GoSchemaDisplay.NameList | frontend/src/components/GoSchemaDisplay.tsx:12 | `.map(({ name }) => name)` keeps the order |
| GoSchemaDisplay.PreviewNamesCollected | frontend/src/components/GoSchemaDisplay.tsx:8-14 | the memoised list is exactly the names of the collected schemas |
| GoSchemaDisplay.ResolveGoType | frontend/src/components/GoSchemaDisplay.tsx:74-93 | names map via the primitives or verbatim, arrays become `[]` plus the element type, anything else `interface{}` |
| GoSchemaDisplay.GoNamedType | frontend/src/components/GoSchemaDisplay.tsx:75-85 | any non-primitive name is returned verbatim, with no existence check |
| GoSchemaDisplay.CapitalizeGo | frontend/src/components/GoSchemaDisplay.tsx:95-97 | only the first character is upper-cased; the rest and the length are kept; `""` stays `""` |
| GoSchemaDisplay.CapitalizeGoIdempotent | frontend/src/components/GoSchemaDisplay.tsx:95-97 | capitalising twice is the same as capitalising once |
| GoSchemaDisplay.FieldLines | frontend/src/components/GoSchemaDisplay.tsx:62-66 | one struct line per field entry, in entry order |
| GoSchemaDisplay.FormatGoSchema | frontend/src/components/GoSchemaDisplay.tsx:53-70 | `''` without fields; otherwise the header, a tagged line per field and `}` followed by a blank line |
| GoSchemaDisplay.GoStructReadsBack | frontend/src/components/GoSchemaDisplay.tsx:60-68 | read back line by line, the struct gives its header, one line per field holding that field's key and type, and the closing brace |
| GoSchemaDisplay.PreviewCollected | frontend/src/components/GoSchemaDisplay.tsx:10-13 | the preview collects from the named schema, first in the list |
| GoSchemaDisplay.SchemaPreviewNotFound | frontend/src/components/GoSchemaDisplay.tsx:10-16 | "not found" is shown exactly when no schema has the name |
| GoSchemaDisplay.PreviewNamesDistinct | frontend/src/components/GoSchemaDisplay.tsx:10-13 | the root comes first, every name appears once, and only existing schemas appear |
| GoSchemaDisplay.PreviewNamesClosed | frontend/src/components/GoSchemaDisplay.tsx:26-50 | every schema a listed schema's fields lead to is listed too |
| GoSchemaDisplay.PreviewNamesReached | frontend/src/components/GoSchemaDisplay.tsx:26-50 | every listed schema after the first is referenced by one listed before it |
| ApexStore.OperationRules | frontend/src/hooks/useApexStore.ts:30-58 | PATCH is free; GET requires no body schema; POST/PUT/DELETE require no query schema; other methods are invalid |
| ApexStore.SetAt | frontend/src/hooks/useApexStore.ts:119-120 | an in-range assignment replaces exactly that element; at the end it appends; a negative index changes no element |
| ApexStore.SpliceInRange | frontend/src/hooks/useApexStore.ts:125-126 | an in-range delete removes exactly that element and keeps the others in order |
| ApexStore.SpliceOutOfRange | frontend/src/hooks/useApexStore.ts:125-126 | past the end nothing is removed; a negative index counts from the end |
| ApexStore.Store.constructor | frontend/src/hooks/useApexStore.ts:93-95 | both copies start empty and the store is clean |
| ApexStore.Store.Reset | frontend/src/hooks/useApexStore.ts:102 | `apex` becomes `originalApex`, and the store is then clean |
| ApexStore.Store.Clear | frontend/src/hooks/useApexStore.ts:103 | the three lists of `apex` are emptied and `originalApex` is kept |
| ApexStore.Store.LoadApex | frontend/src/hooks/useApexStore.ts:105-113 | a parsed load sets both copies to it and leaves the store clean; a failed load changes nothing |
| ApexStore.Store.AddEndpoint | frontend/src/hooks/useApexStore.ts:116 | appends the endpoint; the other lists and `originalApex` are unchanged |
| ApexStore.Store.UpdateEndpoint | frontend/src/hooks/useApexStore.ts:117-122 | assigns at the index, as above |
| ApexStore.Store.DeleteEndpoint | frontend/src/hooks/useApexStore.ts:123-128 | splices the index out of the endpoints |
| ApexStore.Store.AddSchema | frontend/src/hooks/useApexStore.ts:131 | appends the schema; the rest is unchanged |
| ApexStore.Store.UpdateSchema | frontend/src/hooks/useApexStore.ts:132-137 | assigns at the index |
| ApexStore.Store.DeleteSchema | frontend/src/hooks/useApexStore.ts:138-143 | splices the index out of the schemas |
| ApexStore.Store.AddOperation | frontend/src/hooks/useApexStore.ts:146 | appends the operation; the rest is unchanged |
| ApexStore.Store.UpdateOperation | frontend/src/hooks/useApexStore.ts:147-152 | assigns at the index |
| ApexStore.Store.DeleteOperation | frontend/src/hooks/useApexStore.ts:153-158 | splices the index out of the operations |
| ApexStore.Store.SaveApex | frontend/src/hooks/useApexStore.ts:161-164 | the stub changes nothing |
| ApexStore.EditThenReset | frontend/src/hooks/useApexStore.ts:98-109 | load, edit, reset leaves a clean store holding the loaded document |
| SchemaEditor.NewKeyNotProperty | frontend/src/components/UpdateSchema.tsx:59 | no `new<i>` is a property of an array |
| SchemaEditor.AddFieldKeyIsNew0 | frontend/src/components/UpdateSchema.tsx:58-61 | the counter always stops at 0, so the key is `new0` |
| SchemaEditor.FindIndex | frontend/src/components/UpdateSchema.tsx:143 | the first row with the id, or -1 exactly when there is none |
| SchemaEditor.UpdateRow | frontend/src/components/UpdateSchema.tsx:142-157 | with no matching id nothing changes; otherwise exactly that row is mapped |
| SchemaEditor.UpdatersTouchOneRow | frontend/src/components/UpdateSchema.tsx:140-243 | rename, arrayType and type edits change only the first row with the id, and only the part edited |
| SchemaEditor.ChosenTypeCases | frontend/src/components/UpdateSchema.tsx:226-238 | `array` keeps an existing array type or starts with `string`; any other choice is stored plain |
| SchemaEditor.Dedup | frontend/src/components/UpdateSchema.tsx:195 | `Array.from(new Set(..))` has the same members, without repeats |
| SchemaEditor.Remove | frontend/src/components/UpdateSchema.tsx:192-196 | filtering never lengthens the list |
| SchemaEditor.RemoveExactly | frontend/src/components/UpdateSchema.tsx:276-279 | the filter keeps exactly the other keys |
| SchemaEditor.ToggleRequiredEffect | frontend/src/components/UpdateSchema.tsx:192-196 | checking adds the key once with no duplicates; unchecking removes every occurrence; no other key is affected |
| SchemaEditor.RemoveRows | frontend/src/components/UpdateSchema.tsx:278 | deleting keeps exactly the rows with another id |
| SchemaEditor.Keys | frontend/src/components/UpdateSchema.tsx:74 | the keys of the rows, in order |
| SchemaEditor.KeySet | frontend/src/components/UpdateSchema.tsx:75 | the set of the rows' keys |
| SchemaEditor.KeysUniqueExactly | frontend/src/components/UpdateSchema.tsx:74-78 | the size test passes exactly when no two rows share a key |
| SchemaEditor.FieldsObject | frontend/src/components/UpdateSchema.tsx:84 | the fields object has exactly the rows' keys |
| SchemaEditor.Editor.constructor | frontend/src/components/UpdateSchema.tsx:27-46 | the rows start as the schema's entries, each with its id, and the editor is clean |
| SchemaEditor.Editor.AddField | frontend/src/components/UpdateSchema.tsx:56-71 | appends one `string` row keyed by the first counter the `in` test rejects; `required` is unchanged |
| SchemaEditor.Editor.AddFieldFixed | frontend/src/components/UpdateSchema.tsx:56-71 | appends one `string` row whose key no row has, so unique keys stay unique |
| SchemaEditor.Editor.CheckRequired | frontend/src/components/UpdateSchema.tsx:194-196 | `required` becomes the toggled list and the rows are unchanged |
| SchemaEditor.Editor.RenameField | frontend/src/components/UpdateSchema.tsx:202-216 | the rows become the renamed rows |
| SchemaEditor.Editor.ChangeType | frontend/src/components/UpdateSchema.tsx:220-243 | the rows become the retyped rows |
| SchemaEditor.Editor.ChangeArrayType | frontend/src/components/UpdateSchema.tsx:141-157 | the rows become those with the new array type |
| SchemaEditor.Editor.DeleteRow | frontend/src/components/UpdateSchema.tsx:276-279 | the key leaves `required` and the id's rows leave `fields` |
| SchemaEditor.Editor.Reset | frontend/src/components/UpdateSchema.tsx:90-93 | the rows and `required` are restored, and the editor is clean |
| SchemaEditor.Editor.SaveSchema | frontend/src/components/UpdateSchema.tsx:73-88 | nothing is sent exactly when two rows share a key; otherwise the name, the fields object and `required` are sent |
| SchemaEditor.NewKeysBound | frontend/src/components/UpdateSchema.tsx:59 | if `new0`..`new<m-1>` are all keys, there are at least `m` rows |
| SchemaEditor.TwoAddsCollide | frontend/src/components/UpdateSchema.tsx:56-78 | after two adds, two rows are keyed `new0` and the save guard refuses |
| ServerEnv.Trimmed | server.go:163 | every scanned line is trimmed, the count is kept |
| ServerEnv.FirstValue | server.go:162-168 | there is a value exactly when some trimmed line starts with the key |
| ServerEnv.FirstValueIsEarliest | server.go:162-167 | the value is that of the earliest key line, trimmed after the key |
| ServerEnv.GetPort | server.go:141-172 | the scan returns the port of the first `PORT=` line it reaches, or `8080`; lines after a scan error are not seen |
| ServerEnv.Rewritten | server.go:197-205 | every line is rewritten independently |
| ServerEnv.UpdatedLines | server.go:197-215 | every `PORT=` line is replaced, other lines are kept trimmed, and a port line is appended when there was none |
| ServerEnv.UpdatedContent | server.go:174-209 | the update fails before writing exactly when the file cannot be opened or cannot be scanned to its end, with the matching message |
| ServerEnv.UpdateOutcome | server.go:182-222 | the update succeeds exactly when the content is built and written; a failed write of a new file returns the write error, a failed rewrite its own message |
| ServerEnv.UpdatePort | server.go:174-225 | the method returns the update's outcome: the content written, or the open, read or write error |
| ServerEnv.PortAfterReadErrorMissed | server.go:160-209 | a port line after a scan error is missed: reading gives `8080` and updating fails |
| ServerEnv.RewriteLines | server.go:193-215 | the scan loop with its flag yields the updated lines |
| ServerEnv.PortLineSettled | server.go:200-214 | `PORT=<p>` with a clean `p` reads back as itself |
| ServerEnv.TrimmedLineSettled | server.go:198-203 | a trimmed scanned line reads back as itself |
| ServerEnv.WrittenIsLines | server.go:212-218 | the content is the updated lines, each followed by a newline |
| ServerEnv.EnvLinesSettled | server.go:198 | every line of a file before the update reads back as itself |
| ServerEnv.UpdatedLinesShape | server.go:197-215 | every port line after the update carries the new port, and there is one |
| ServerEnv.GetPortAfterUpdate | server.go:164-214 | after an update with a clean port, `GetPort` returns that port |
| ServerEnv.ReadBackSettled | server.go:161-218 | written lines that read back as themselves scan back unchanged |
| ServerEnv.FirstPortLine | server.go:162-167 | the first port line and no port line before it |
| ServerEnv.RewriteStable | server.go:197-205 | rewriting lines that already carry the new port changes nothing |
| ServerEnv.UpdatePortIdempotent | server.go:174-225 | updating twice with the same port writes the same file as once |
| Database.DsnFound | db.go:18-43 | a DSN is found exactly when some trimmed line the scanner reaches starts with `DSN=`; it is the earliest such line's value |
| Database.GetDSN | db.go:18-43 | the scan returns what the DSN function gives |
| Database.ColumnDefs | db.go:166-170 | one `"col" type` per column in iteration order |
| Database.CreateStatementColumns | db.go:162-171 | the statement starts with the quoted table's head and defines every column with its type |
| Database.DropStatement | db.go:245-248 | the statement is `DROP TABLE IF EXISTS "t" CASCADE;` around the name |
| Database.DropTableAcceptsEmptyName | db.go:234-248 | an empty table name is not refused |
| Database.LoadHistory | db.go:330-352 | a missing file is an empty history; a read or parse failure is an error |
| Database.SaveSQLQuery | db.go:355-384 | appends exactly one entry at the end and keeps the existing ones |
| Database.WithoutId | db.go:397-405 | filtering never lengthens the history |
| Database.DeleteSQLQuery | db.go:387-424 | the loop with its `found` flag gives the filtered list, or an error when no id matched |
| Database.WithoutIdExactly | db.go:397-405 | exactly the entries with another id are kept |
| Database.WithoutIdConcat | db.go:397-405 | filtering distributes over concatenation, so order is kept |
| Database.WithoutIdAbsent | db.go:397-405 | a history without the id is kept as is |
| Database.SaveThenDelete | db.go:355-424 | saving under a fresh id and deleting that id gives the history back |
| Database.Connection.constructor | db.go:45-93 | the backend starts with no connection |
| Database.Connection.ConnectDB | db.go:45-74 | a second connection is refused; a missing DSN is passed on; the connection is kept only if opening and pinging succeed |
| Database.Connection.DisconnectDB | db.go:76-93 | with no connection it succeeds and changes nothing; a failed close keeps the connection |
| Database.Connection.CreateTable | db.go:143-171 | errors in the order: connection, empty name, no column; otherwise the statement for some column order |
| Database.Connection.DropTable | db.go:234-248 | the drop statement, or the missing connection |
| Database.Connection.ExecuteSQLQuery | db.go:263-315 | one map per row when every row scans; a row that does not scan is an error |
| Database.RowToMap | db.go:305-308 | every column is a key, and a repeated column holds its last value |
| Git.StashMessage | git.go:351-394 | the stash message is always recognised as a stash, and gives back the user's text |
| Git.StashCommits | git.go:389-401 | the stash commits are a subsequence of the log |
| Git.StashCommitsMembers | git.go:394 | exactly the log's stash commits are kept |
| Git.StashesOfLog | git.go:389-401 | stash `k` carries index `k` and a stash message, and every stash commit of the log is listed |
| Git.StashesPrepend | git.go:351-401 | a new stash becomes stash 0 and the older ones move up by one |
| Git.StashAt | git.go:389-401 | the position in the log of stash `k` |
| Git.StashAtSplits | git.go:389-401 | the log before stash `k` holds the stashes below it, the log after it those above |
| Git.StashesFrom | git.go:437-440 | after a reset to stash `k`, it is stash 0 and the older ones follow, renumbered |
| Git.WithoutStash | git.go:450-479 | the log without stash `k`'s commit is one shorter |
| Git.StashesWithout | git.go:450-479 | removing stash `k`'s commit keeps the lower stashes and renumbers the higher ones down by one |
| Git.CommitLineInjective | git.go:183 | a commit line determines the short hash, the message and the time |
| Git.CommitHistoryOutcome | git.go:182-196 | succeeds exactly when the limit is not positive or the log is shorter than it; the error is never `stop` |
| Git.LimitReachedFails | git.go:183-196 | a one-commit log with limit 1 fails with `<nil>`, the text of `fmt.Errorf("%v", nil)` |
| Git.CommitHistoryFixed | git.go:182-196 | the corrected history has at most `limit` lines, newest first |
| Git.CommitHistoryAgrees | git.go:182-196 | where the written version succeeds, the two agree |
| Git.FirstOther | git.go:282-288 | the first listed branch other than the current one; none exactly when all are the current one |
| Git.FirstOtherIsFirst | git.go:282-288 | the branch chosen is the earliest one that differs |
| Git.DistinctHasOther | git.go:277-288 | with two or more distinct branches there is always an alternative |
| Git.ChooseAlternative | git.go:282-288 | the loop picks the first other branch, or `""` |
| Git.Without | git.go:296 | the list without the name has exactly the other branches |
| Git.WithoutDistinct | git.go:296 | removing a listed branch from a list without repeats removes one entry |
| Git.MergedHistory | git.go:517-525 | the merge commit's history is only the source's |
| Git.MergeDropsTargetCommits | git.go:517-525 | a commit only the target had is no longer reachable from it |
| Git.MergedHistoryFixed | git.go:517-525 | with both parents, the target history is kept and the unseen source commits follow |
| Git.Repository.constructor | git.go:32-52 | a repository whose branches are listed and whose head is one of them |
| Git.Repository.GitCommit | git.go:56-89 | the commit goes on top of the current branch; nothing else changes |
| Git.Repository.StashChanges | git.go:336-366 | the stash commit becomes stash 0 and the count grows by one |
| Git.Repository.GetAllStashes | git.go:374-410 | the loop lists exactly the stashes of the current log |
| Git.Repository.ApplyStash | git.go:413-447 | out-of-range indices are refused; otherwise the branch is reset to that stash, which becomes stash 0 |
| Git.Repository.DeleteStash | git.go:450-479 | out-of-range indices are refused; otherwise it removes `refs/stash/<hash>` and the log is unchanged |
| Git.Repository.DeleteStashFixed | git.go:450-479 | the stash commit leaves the log and the later stashes move down by one |
| Git.Repository.SwitchBranch | git.go:137-161 | an existing branch is checked out; another name fails and changes nothing |
| Git.Repository.CreateBranch | git.go:201-253 | an existing name aborts with `<nil>`; a new name is created and checked out, inserted into the listing with the other branches kept in order |
| Git.Repository.DeleteCurrentBranch | git.go:255-304 | refused with one branch; otherwise switches to the first other branch and deletes the old one |
| Git.Repository.MergeBranch | git.go:481-532 | checks out the target; with the source it commits with the source as the only parent |
| Git.Repository.MergeBranchFixed | git.go:481-532 | the merge keeps both histories reachable from the target |
| Git.Repository.GetCommitHistory | git.go:163-199 | the iteration gives exactly the commit-history function's result |
| Git.DeleteStashKeepsList | git.go:450-479 | deleting a stash as written leaves the stash list unchanged |
| ClientsUtils.SplitLineContained | clients-utils.go:20-22 | every line of a split occurs in the string |
| ClientsUtils.OccurrenceInLine | clients-utils.go:20-24 | an occurrence of a text without newlines lies within one line |
| ClientsUtils.RunningIffMentioned | clients-utils.go:12-27 | a server counts as running exactly when the listing mentions the path; a failed `ps` never does |
| ClientsUtils.DigitRun | clients-utils.go:32 | the longest leading run of digits (`\d+` is greedy) |
| ClientsUtils.MatchAt | clients-utils.go:32 | a match gives a capture of the URL's form that occurs in the log |
| ClientsUtils.FirstMatch | clients-utils.go:33 | the search from a position finds a URL of that form inside the log |
| ClientsUtils.ExtractLocalURL | clients-utils.go:30-38 | a non-empty result is `http://localhost:`, digits and an optional `/`, and occurs in the log |
| ClientsUtils.FirstMatchIsLeftmost | clients-utils.go:33 | the search finds the first position where a match starts, and nothing only when there is none |
| ClientsUtils.ExtractLocalURLIsLeftmost | clients-utils.go:33-37 | `""` exactly when nothing matches; otherwise the leftmost match's capture |
| Clients.ValidPlanetTypes | clients.go:16-26 | exactly `web`, `mobile` and `desktop` are accepted |
| Clients.Without | clients.go:137-165 | removing a folder keeps exactly the other entries |
| Clients.PlanetsFolder.constructor | clients.go:28-30 | a project's planets folder, present or not |
| Clients.PlanetsFolder.PlanetCheck | clients.go:139-155 | passes exactly for a valid type whose folder exists; an invalid type is reported first |
| Clients.PlanetsFolder.GetActivePlanets | clients.go:56-97 | three entries, web, mobile, desktop, each marked exactly when a directory of that name is listed; all false without the folder |
| Clients.PlanetsFolder.AddPlanetToProject | clients.go:14-49 | invalid type first, then an existing planet, then the clone's failure; success adds the planet's folder |
| Clients.PlanetsFolder.DeletePlanet | clients.go:137-165 | the guard's error, or the folder is removed |
| Clients.PlanetsFolder.OpenPlanetInVSCode | clients.go:100-135 | the guard's error, else the editor's start failure or success |
| Clients.PlanetsFolder.RunBash | clients.go:167-193 | the guard's message, else the command's output |
| Clients.PlanetsFolder.StartDevServer | clients.go:195-283 | the guard's error, else the log and the URL extracted from it, which is a local URL found in the log |
| Clients.PidOf | clients.go:305-308 | at most one PID per line |
| Clients.PidsExactly | clients.go:303-314 | every PID is the second field of a line that mentions the path, and every such line with two or more fields gives one |
| Clients.StopDevServer | clients.go:285-324 | a failed `ps` is an error; otherwise exactly those PIDs are killed and the result is `""` or the stopped message |
| Clients.KilledMeansRunning | clients.go:303-314 | a kill happens only while the server counts as running for the same listing |
| Clients.StatusMeansMentioned | clients.go:332-340 | a planet's status is true exactly when the listing was read and mentions the planet's folder |
| Clients.StopFindsRunning | clients.go:303-340 | whenever the shutdown kills something, the status read from the same listing reports the planet running |
| ProjectsUtils.NonEmpty | projects-utils.go:23 | the empty parts are dropped and the rest keep their order |
| ProjectsUtils.PathJoinCons | projects-utils.go:23 | joining a non-empty part in front adds it and a `/` |
| ProjectsUtils.SolarDirPath | projects-utils.go:22-24 | `getSolarDir(d)` is `d/genesis/solar-systems`, or the relative path for `""` |
| ProjectsUtils.ValidateProjectOptions | projects-utils.go:107-118 | nil exactly when dir, name and database are all non-empty; the first empty one is reported |
| ProjectsUtils.IncludedExactly | projects-utils.go:41-60 | a project is listed exactly when its entry is a directory whose `project.json` parsed, under the directory's own name |
| ProjectsUtils.IncludedConcat | projects-utils.go:41-60 | the scan keeps listing order |
| ProjectsUtils.GetProjectMetadata | projects-utils.go:27-63 | a listing error is returned; otherwise the loop yields the included projects |
| FrontendUtils.ReplaceSpaces | frontend/src/lib/utils.ts:9 | replacing spaces keeps the length |
| FrontendUtils.NameToDir | frontend/src/lib/utils.ts:8-10 | the directory has the name's length and no space |
| FrontendUtils.NameToDirChars | frontend/src/lib/utils.ts:9 | a space becomes `-`, a tab stays a tab, and every other character is lower-cased |
| FrontendUtils.NameToDirIdempotent | frontend/src/lib/utils.ts:9 | a directory name is its own directory name |
| FrontendUtils.NameToDirIgnoresCase | frontend/src/lib/utils.ts:9 | names that differ only in ASCII case share a directory |
| ProjectsList.HandleSubmit | frontend/src/routes/_layout/projects-list.lazy.tsx:104-130 | an empty name, then an unset database, is refused; a created project has the trimmed name, its `nameToDir`, and `postgres` |
| ProjectsList.AlreadyExistsIffClash | frontend/src/routes/_layout/projects-list.lazy.tsx:115-123 | a name is refused as existing exactly when a listed project has its directory or a name containing it, ignoring case |
| ProjectsList.CreatedIsFresh | frontend/src/routes/_layout/projects-list.lazy.tsx:113-130 | a created project's directory and name clash with no listed project |
| ProjectsList.WhitespaceOnlyName | frontend/src/routes/_layout/projects-list.lazy.tsx:105-118 | a whitespace name passes the empty check, and is refused whenever any project is listed; otherwise it is sent empty |
| ProjectsList.PayloadPassesValidation | frontend/src/types/schemas.ts:23-27 | the backend accepts a sent project exactly when its trimmed name is not empty |

## Left out

- File, process and network I/O are left out: every file write of the generators, `os.Stat`/`ReadDir`, `ensureDir`, `RemoveAll`, `git clone`, `code`, `bash`, `npm`, `ps`, `kill`, `openBrowser` and the sleeps. Where an outcome changes the result (file contents, listings, `ps` output, clone and start outcomes, the `.env` write in `UpdatePort`), it is a parameter. The remaining failures, among them `RemoveAll` in `DeletePlanet`, are left out.
- Log output (`fmt.Println`, `console.log`) and toasts are left out. Toast warnings are modelled as `Submit` outcomes.
- `generateGoStructs`, `updateBaseURL` (a regex rewrite of a file), `getApexData`, `GetApex`/`SaveApex` and the project create/delete steps after validation are not part of this model.
- Locking (`a.mu`) and the unguarded `a.db != nil` read are concurrency and are not modelled.
- Error texts drop the `: %v` detail that Go appends from a library error, and the `.env` path in "file not found".
- go-git's own error texts are approximated as `reference not found` and `invalid reference name`.
- Histories are linear lists of commits. The worktree, the index, empty-commit errors, `InitGitRepo`, `GetGitStatus`, `DiscardChanges`, `GetCurrentBranch` and `GetAllBranches` are left out; the last two are read directly from the model's state.
- ApexNames.Capitalize: Go's `capitalize` upper-cases the first *byte*. For a name that starts with a non-ASCII character, Go produces U+FFFD followed by that character's remaining UTF-8 bytes. Strings are modelled as characters, so such a name is kept unchanged.
- Git.Repository.CreateBranch: go-git lists loose branch references in name order and packed ones after them. Where the new branch lands in the listing is left open; the model promises only that the other branches keep their order.
- Case mapping (`toLowerCase`, `toUpperCase`, `strings.ToUpper`) is ASCII-only. The two non-ASCII runes that Go upper-cases to ASCII are the exception.
- Go map iteration order is unspecified. Results over a map are stated for some enumeration of its keys; no order is claimed.
- JSON decoding is abstracted. A field is a string, an array with `arrayType`, or anything else. A `null` field value is modelled as the empty string and a `null` `fields` value as an empty object, which is how Go decodes them; the front end's types admit neither. Array objects lacking `arrayType` are not distinguished.
- ApexNames.DecodeQuoted: an `arrayType` with a valid backslash escape is treated as undecodable, although Go would decode it.
- `filepath.Join` is modelled as joining non-empty parts with `/`. Its cleaning of `.` and `..` is not modelled.
- In `GetActivePlanets`, a `ReadDir` error after a successful `Stat` is left out. A failed `ensureDir` in `AddPlanetToProject` is also left out.
- Clients.PlanetsFolder.StartDevServer: the `StopDevServer` call it makes first, and the process start, are left out.
- Clients.GetDevServersStatus: one `ps aux` listing is assumed for all three checks, where the source runs `ps` three times.
- ApexStore.Store.UpdateEndpoint, ApexStore.Store.UpdateSchema, ApexStore.Store.UpdateOperation: an index beyond the end would leave holes in a JavaScript array; the model requires `index <= length`.
- `UpdateSchema.tsx` passes a schema name where the store expects an index (lines 79 and 119). The model keeps the two files as written: `SaveRequest` carries the name, and the store takes an index.
- The store's field union differs from the `{type: 'array', arrayType}` shape that the editor and the preview use. Each file's own shape is modelled.
- zod's parsing, key stripping and error reporting are library behaviour. `ApexStore.Parses` requires only that every operation satisfies the refinements.
- The generated handler for an operation without a response schema declares `api.interface{}{}`. That is not valid Go, and it is modelled as text.
- `DropTable` has no empty-name check, unlike `CreateTable` (`Database.DropTableAcceptsEmptyName`).
- `ApplyStash` hard-resets the branch to the stash commit, so the stashes newer than it leave the list. This is modelled as written.
- `Database.Connection.ExecuteSQLQuery` and `ProjectsUtils.GetProjectMetadata` return an empty list where Go returns a nil slice, so the JSON `null` the front end receives for no rows or no projects is not told apart from `[]`.
- Row values of `ExecuteSQLQuery` are a type parameter. A row that does not scan is modelled as a row of the wrong width.
- Pure UI, routing, hook plumbing, the generated Wails bindings, `util.go` and the sample data are not part of this model.

## Findings

| source | as written | input that shows it | evidently intended | confidence | as-written member | corrected member |
|---|---|---|---|---|---|---|
| apex-utils.go:72-86 | a schema whose `fields` fail to decode gets its `export type X = {` header but no members and no closing brace | schemas `Broken` (fields not an object) then `User`: `User`'s header opens inside `Broken` | skip such a schema whole, so every type is closed | high, not executed | ApexTsTypes.TypeBlocksBalance, ApexTsTypes.UnclosedTypeExample | ApexTsTypes.FixedTypeBlocksBalanced |
| apex-utils.go:246-248 | the guard tests for `"UnknownMethod"`, which `tsMethod` never returns, so `""` enters the imported set | a GET and a HEAD operation give `import { , get }` or `import { get,  }` | import only the request functions of known verbs | high, not executed | ApexTsClient.UsedMethodsAdmitEmpty, ApexTsClient.EmptyMethodImportExample | ApexTsClient.KnownMethodsCorrect |
| apex-utils.go:508-531 | only groups with an open route get a function and a mount call, so a group whose routes are all secured is never served | one operation `GET /api/me` whose endpoint secures `GET`: `routes.go` has no route | a function for every group with any route | high, not executed | ApexGoRoutes.SecuredOnlyGroupDropped, ApexGoRoutes.SecuredOnlyExample | ApexGoRoutes.GenerateGoRoutesFixed, ApexGoRoutes.EveryRouteWritten |
| frontend/src/components/UpdateSchema.tsx:56-71 | `` `new${i}` in c `` tests the array's properties, not the field keys, so every added field is keyed `new0` | any field list; adding twice gives two `new0` rows and the save is refused | pick the first `new<i>` that no row uses | high, not executed | SchemaEditor.Editor.AddField, SchemaEditor.TwoAddsCollide | SchemaEditor.Editor.AddFieldFixed |
| git.go:182-196 | reaching the limit returns `fmt.Errorf("%v", nil)`, whose text is not `stop`, so the call fails instead of stopping | a one-commit log with limit 1 | stop quietly and return the first `limit` lines | high, not executed | Git.CommitHistoryOutcome, Git.LimitReachedFails | Git.CommitHistoryFixed, Git.CommitHistoryAgrees |
| git.go:468-475 | `DeleteStash` removes the reference `refs/stash/<hash>`, which no operation creates, so the stash stays listed | any log with a stash; index 0 | remove the stash commit so the list shrinks by one | medium, not executed | Git.Repository.DeleteStash, Git.DeleteStashKeepsList | Git.Repository.DeleteStashFixed |
| git.go:517-525 | the merge commit's only parent is the source's tip, so the target's own commits become unreachable from it | a target with a commit the source lacks, merged with changes staged in the index (go-git releases whose `AllowEmptyCommits` defaults to false refuse the commit on a clean index, and the merge then fails with "Merge commit failed") | make both tips the merge commit's parents | high, not executed | Git.MergedHistory, Git.MergeDropsTargetCommits | Git.MergedHistoryFixed, Git.Repository.MergeBranchFixed |
