# graphql-toolkit loaders and resolver composition, in Dafny

This project models the schema-loading core of graphql-toolkit and its
resolver-composition utility, and proves properties of the model.

- **Pointer loading** (`loadTypedefs`, `src/loaders/load-typedefs.ts`):
  - A pointer argument is one string or an array of strings. Each pointer is
    classified as inline SDL, a file path or glob, or a URL.
  - Every source becomes a `{filePath, content}` record, in pointer order. A
    file is loaded by the loader its lower-cased extension selects.
  - When a kind filter is given and some definition was loaded, every record
    is filtered by kind.
  - Records with no definition left are dropped. When none remain, the call
    fails with an error that lists every pointer.
  - `LoadTypedefs.LoadTypedefs` is a method whose loop over the pointers is
    `LoadTypedefs.CollectPointers`. The loop is proved equal to the recursive
    function `Collect`, and the method to the specification function
    `LoadTypedefsSpec`. The lemmas beside them state what those functions
    guarantee.
- **JSON introspection files** (`loadFromJsonFile`,
  `src/loaders/load-from-json-file.ts`):
  - One byte-order mark is stripped and the text is parsed.
  - A truthy `data` envelope is unwrapped, and `__schema` is required.
  - The schema is then built, printed and parsed again.
  - The method settles an explicit promise state, where the first settle wins.
    This matches the source, which keeps running after rejecting empty
    content.
- **Operation documents** (`src/loaders/documents.ts`):
  - The `Kind` values are split into operation kinds and all the others.
  - `loadDocuments` is `loadTypedefs` with every non-operation kind filtered
    out. It is proved to return only operation and fragment definitions.
- **Resolver composition** (`src/utils/resolvers-composition.ts`):
  - A resolver map is the `root` field of the class
    `ResolversComposition.ResolverMap`. `get` and `set` are its cursor loops,
    proved against the recursive `GetPath` and `SetPath`.
  - `resolveRelevantMappings` expands `Type`, `Type.field` and `Type.*` paths
    into concrete paths.
  - `composeResolvers` first fills the `mappingResult` table, then rewrites
    each table path in place. It returns the same map.
  - `set` compares segment names, not positions, with the last segment. On a
    path such as `User.User` it therefore replaces the whole type
    (`RepeatedSegmentReplacesType`). The model keeps this behaviour as
    written.

External code is passed in as function-typed fields of a host record:
- the graphql parser and printer, and `buildClientSchema`;
- the file system;
- `JSON.parse`;
- glob expansion, the path-validity and glob tests, and the URL test;
- `fixWindowsPath`, `path.isAbsolute` and `path.resolve`;
- the gql-file, code-file and URL loaders;
- the resolver compositions themselves (`apply`).

`path.extname` (POSIX), ASCII `toLowerCase`, `split` and `filter` are modelled
in full. JavaScript's truthiness and `Object.keys` order are modelled for the
values the model has; "## Left out" lists where these differ from JavaScript
(integer numbers only, no integer-like key ordering, no inherited properties).

## Model

| member | source | states |
|---|---|---|
| `LoadTypedefs.NormalizeSchemaString` | src/loaders/load-typedefs.ts:139-145 | an array of pointers is used as given; a single pointer becomes a one-element list |
| `LoadTypedefs.ExtensionRegex` | src/loaders/load-typedefs.ts:126 | the extension test holds exactly when some dot is followed by one or more ASCII letters or digits up to the end of the string |
| `LoadTypedefs.IsSchemaString` | src/loaders/load-typedefs.ts:120-137 | a string ending in an extension is never SDL; any other string is SDL exactly when the parser accepts it |
| `LoadTypedefs.ExtensionShortCircuits` | src/loaders/load-typedefs.ts:126-128 | for a string with an extension, the answer does not depend on the parser |
| `LoadTypedefs.FilterFiles` | src/loaders/load-typedefs.ts:14-16 | the result keeps the input's order, and holds exactly the files that are not under node_modules and do not end in .d.ts, .spec.ts, .spec.js, .test.ts or .test.js, each as many times as the listing has it |
| `LoadTypedefs.LoaderFor` | src/loaders/load-typedefs.ts:101-110 | the JSON loader for `.json`, the gql loader for the three SDL extensions, the code loader for the four code extensions, and no loader otherwise, each as an if-and-only-if |
| `LoadTypedefs.LoaderOfIgnoresCase` | src/loaders/load-typedefs.ts:97 | two paths equal up to ASCII case get the same loader |
| `LoadTypedefs.LoadSingleFile` | src/loaders/load-typedefs.ts:96-118 | the document is that of the selected loader on the absolute, fixed path; a loader failure or an unknown extension gives no document |
| `LoadTypedefs.FileRecords` | src/loaders/load-typedefs.ts:56 | one record per listed file, in listing order, each carrying its own path and, as content, the document `loadSingleFile` gives that path with the call's `noRequire` and `tagPluck` |
| `LoadTypedefs.Append` | src/loaders/load-typedefs.ts:56 | an earlier error is kept; otherwise a failing step's error wins; otherwise the new records go after the old ones |
| `LoadTypedefs.FilterByKind` | src/loaders/load-typedefs.ts:78-84 | every record keeps its path and position; a loaded content keeps, in order, exactly its definitions whose kind is not filtered; a missing content stays missing |
| `LoadTypedefs.CollectPointers` | src/loaders/load-typedefs.ts:34-65 | the loop over the pointers equals the pointer-by-pointer collection, including stopping at the first remote failure |
| `LoadTypedefs.LoadTypedefs` | src/loaders/load-typedefs.ts:30-94 | the result equals the specification function; a success is non-empty and every returned record has at least one definition |
| `LoadTypedefs.ReturnedRecordsHaveDefinitions` | src/loaders/load-typedefs.ts:87-93 | a successful load returns at least one record, and every returned record loaded and has at least one definition |
| `LoadTypedefs.ResultIsRecordsWithDefinitions` | src/loaders/load-typedefs.ts:87-93 | once the pointers are collected, a successful load returns, in order, a subsequence of the kind-filtered records holding every one of them that has a definition, as many times as it occurs there; a failed load means none has one |
| `LoadTypedefs.CollectErrorPropagates` | src/loaders/load-typedefs.ts:58-64 | once a pointer fails to load, every longer pointer list fails with that error |
| `LoadTypedefs.CollectAppend` | src/loaders/load-typedefs.ts:34-65 | loading two pointer lists one after the other gives the records of the first list followed by those of the second |
| `LoadTypedefs.ResultRespectsFilter` | src/loaders/load-typedefs.ts:69-85 | with a non-empty kind filter, no returned definition has a filtered kind |
| `LoadTypedefs.FailureNamesEveryPointer` | src/loaders/load-typedefs.ts:87-91 | when the pointers load but nothing is left, the error is the aggregate error, and its message contains every pointer |
| `LoadTypedefs.NothingFoundRejects` | src/loaders/load-typedefs.ts:87-91 | pointers that each contribute no record make the call fail with the aggregate error |
| `LoadTypedefs.EmptyGlobContributesNothing` | src/loaders/load-typedefs.ts:45-56 | a glob pointer that lists no file contributes no record |
| `LoadTypedefs.InlineSchemaLoads` | src/loaders/load-typedefs.ts:35-39 | one inline SDL string whose definitions pass the filter loads as exactly one record: the string and its parse |
| `LoadTypedefs.FilteredSourceDropped` | src/loaders/load-typedefs.ts:78-87 | of two sources, the one whose definitions are all filtered out is dropped and the one with no filtered definition is returned unchanged |
| `Paths.Extname` | src/loaders/load-typedefs.ts:97 | the extension is non-empty exactly when the last segment is not `..` and has a dot after its first character; it is then a dot followed by no other dot and no separator, ending the path after its trailing slashes |
| `Paths.ExtnameToLower` | src/loaders/load-typedefs.ts:97 | the extension of the lower-cased path is the lower-cased extension |
| `Strings.ToLower` | src/loaders/load-typedefs.ts:97 | same length; each character is lower-cased on its own (ASCII) |
| `Strings.Split` | src/utils/resolvers-composition.ts:20 | there is always at least one piece, and no piece contains the separator |
| `Strings.JoinSplit` | src/utils/resolvers-composition.ts:20 | joining the pieces with the separator gives back the string |
| `Strings.SplitPieces` | src/utils/resolvers-composition.ts:22-57 | the number of pieces is the number of separators plus one |
| `Strings.JoinContainsEachPart` | src/loaders/load-typedefs.ts:90 | every pointer appears inside the joined list |
| `Strings.ContainsIff` | src/loaders/load-typedefs.ts:15 | `includes` holds exactly when the substring occurs at some position |
| `Seqs.FilterSpec` | src/loaders/load-typedefs.ts:15 | a filter keeps, in their original order, exactly the elements that pass, each as many times as it occurs |
| `Dicts.Dict.Put` | src/utils/resolvers-composition.ts:96 | assigning a present key keeps its position; a new key is appended to `Object.keys`; the representation invariant is preserved |
| `Dicts.PutAllLastWins` | src/utils/resolvers-composition.ts:95-104 | after a series of assignments, every written key holds its last write and every other key is unchanged |
| `GraphQL.KindIndex` | src/loaders/documents.ts:5 | every `Kind` value has a position in the enumeration |
| `GraphQL.ConcatAstEmpty` | src/loaders/load-typedefs.ts:67 | the concatenation is empty exactly when every document is empty |
| `JsonFile.StripBOM` | src/loaders/load-from-json-file.ts:8-18 | the result is a suffix of the content, at most one character shorter, and shorter exactly when the content starts with U+FEFF |
| `JsonFile.StripBOMRemovesOnlyOne` | src/loaders/load-from-json-file.ts:13-15 | of two leading marks only one is removed, so stripping is not idempotent |
| `JsonFile.ParseBOM` | src/loaders/load-from-json-file.ts:20-22 | the parser sees the content without its leading U+FEFF when there is one, and the content as read otherwise |
| `JsonFile.MarkedTextParsesAsUnmarked` | src/loaders/load-from-json-file.ts:20-22 | a file that starts with one byte-order mark parses as the same file without it |
| `JsonFile.Property` | src/loaders/load-from-json-file.ts:36-40 | reading a property throws exactly on `null`; on an object it is defined exactly when the key is present, and is then the member's value; on any other value it is `undefined` |
| `JsonFile.Unwrap` | src/loaders/load-from-json-file.ts:36-38 | a truthy `data` member replaces the value; otherwise the value is kept; `null` throws |
| `JsonFile.Settle` | src/loaders/load-from-json-file.ts:25-53 | a promise that has already settled stays as it was; an unsettled one takes the outcome |
| `JsonFile.LoadFromJsonFile` | src/loaders/load-from-json-file.ts:24-55 | the step-by-step execution settles with the specification outcome, including the first-rejection-wins case for empty content |
| `JsonFile.JsonLoadFulfilledIff` | src/loaders/load-from-json-file.ts:24-55 | the load succeeds with `doc` exactly when the file exists, is readable and non-empty, parses, has a truthy `__schema` after unwrapping, and builds, prints and re-parses to `doc` |
| `JsonFile.InvalidSchemaRejects` | src/loaders/load-from-json-file.ts:40-42 | an object without a truthy `data` and without a truthy `__schema` rejects with `Invalid schema provided!` |
| `JsonFile.DataEnvelopeIsValidated` | src/loaders/load-from-json-file.ts:36-47 | with a truthy `data` envelope, the outcome is that of validating the envelope's content |
| `JsonFile.FileFailures` | src/loaders/load-from-json-file.ts:26-53 | a missing file rejects with the locate message; an empty one rejects with the read message, whatever parsing would do |
| `Documents.NonOperationKinds` | src/loaders/documents.ts:5 | in enumeration order, exactly the kinds that are not operation kinds |
| `Documents.KindsPartition` | src/loaders/documents.ts:4-5 | every kind is in exactly one of the two lists: the operation kinds (operation and fragment definitions) or the non-operation kinds |
| `Documents.DocumentsAreOperations` | src/loaders/documents.ts:7-9 | every definition returned under the non-operation filter is an operation or a fragment |
| `Documents.LoadDocuments` | src/loaders/documents.ts:7-9 | the result is `loadTypedefs` of the one pointer with the non-operation filter, and it holds only operations and fragments |
| `ResolversComposition.Member` | src/utils/resolvers-composition.ts:64 | a property read throws exactly on `undefined` and `null`; on an object it gives the own property or `undefined`; on a primitive it gives `undefined` |
| `ResolversComposition.WithMember` | src/utils/resolvers-composition.ts:74 | an assignment succeeds exactly on an object, and then updates that one key |
| `ResolversComposition.MemberAfterWrite` | src/utils/resolvers-composition.ts:74-76 | after `obj[k] = x`, reading `k` gives `x` and reading any other key gives what it gave before |
| `ResolversComposition.Keys` | src/utils/resolvers-composition.ts:28 | `Object.keys` throws exactly on `undefined` and `null`, and lists an object's keys in insertion order; a primitive has none |
| `ResolversComposition.ResolverMap.Get` | src/utils/resolvers-composition.ts:60-67 | the cursor loop returns what the segments read left to right from the root give, or the first error |
| `ResolversComposition.GetPathSnoc` | src/utils/resolvers-composition.ts:63-65 | reading one more segment reads one more property of what the shorter path reached |
| `ResolversComposition.ResolverMap.Set` | src/utils/resolvers-composition.ts:69-78 | the cursor loop leaves the map equal to the value-level `set` of the path, or unchanged with the thrown error |
| `ResolversComposition.SetThenGet` | src/utils/resolvers-composition.ts:69-78 | when the last segment is not repeated, `get` of the path afterwards returns the value set |
| `ResolversComposition.SetLeavesOtherPaths` | src/utils/resolvers-composition.ts:69-78 | when the last segment is not repeated, every path that parts ways with the one set reads as before |
| `ResolversComposition.RepeatedSegmentReplacesType` | src/utils/resolvers-composition.ts:73-74 | on `T.T`, `set` replaces the type `T` by the value, which then holds itself under `T` |
| `ResolversComposition.FieldPaths` | src/utils/resolvers-composition.ts:33-47 | the two-segment expansion throws exactly when the resolver map is `undefined` or `null` |
| `ResolversComposition.FieldPathsExact` | src/utils/resolvers-composition.ts:33-47 | `.subscribe` is reported exactly when the type, the field and its `subscribe` are truthy; `.resolve` likewise; the bare path exactly when the field is a function; the report follows push order |
| `ResolversComposition.ReportedPathsResolve` | src/utils/resolvers-composition.ts:33-47 | every reported path is one that `get` reads a truthy value from |
| `ResolversComposition.RelevantPathsResolve` | src/utils/resolvers-composition.ts:19-58 | every path `resolveRelevantMappings` reports for a `Type`, `Type.field` or `Type.*` key is one that `get` reads a truthy value from |
| `ResolversComposition.FieldExpansionIsRecursiveCall` | src/utils/resolvers-composition.ts:27-30 | the recursive call on `${type}.${field}` is the `Type.field` branch, or nothing when the field name has a dot, or the `Type.*` expansion again when the field is `*` |
| `ResolversComposition.LongPathsExpandToNothing` | src/utils/resolvers-composition.ts:57 | a path with two or more dots expands to nothing |
| `ResolversComposition.ExpandFieldsSpec` | src/utils/resolvers-composition.ts:51-54 | the mapped expansion fails exactly when one field's expansion fails; otherwise it holds exactly the paths of the fields' expansions |
| `ResolversComposition.ExpandFieldsFlatten` | src/utils/resolvers-composition.ts:51-54 | when no field's expansion throws, the expansion of the field list is the fields' expansions concatenated in field order |
| `ResolversComposition.StarExpansion` | src/utils/resolvers-composition.ts:26-31 | `Type.*` fails exactly when the type cannot be listed or has a field named `*`; otherwise it holds exactly the field paths that are not keys of the mapping |
| `ResolversComposition.TypeExpansion` | src/utils/resolvers-composition.ts:49-54 | `Type` has the same failures and holds exactly the paths of all its fields, with nothing excluded |
| `ResolversComposition.AsArray` | src/utils/resolvers-composition.ts:96 | one composition becomes a one-element list; an array is used as given |
| `ResolversComposition.MappingTable` | src/utils/resolvers-composition.ts:89-107 | the table built by the first pass satisfies the dictionary invariant |
| `ResolversComposition.LaterEntryWins` | src/utils/resolvers-composition.ts:95-104 | a path is in the table exactly when some mapping key expands to it, and it holds the compositions of the last such key |
| `ResolversComposition.Record` | src/utils/resolvers-composition.ts:95-97 | the `forEach` loop writes each path with the compositions, in order |
| `ResolversComposition.ResolverMap.RecordFields` | src/utils/resolvers-composition.ts:99-105 | the per-field loop writes the expansions of every `Type.field`, in key order, or returns the first error |
| `ResolversComposition.ResolverMap.RecordEntry` | src/utils/resolvers-composition.ts:92-106 | one mapping key writes the expansion of its path, or of each of its fields |
| `ResolversComposition.ResolverMap.MappingResult` | src/utils/resolvers-composition.ts:89-107 | the loop over the mapping keys builds exactly the specified table, or returns the first error |
| `ResolversComposition.ComposeAllAppend` | src/utils/resolvers-composition.ts:110 | composing a concatenation nests the compositions, the first outermost |
| `ResolversComposition.RewriteAllFrame` | src/utils/resolvers-composition.ts:109-113 | the rewrites leave every path that parts ways with all rewritten paths unchanged |
| `ResolversComposition.RewriteAllEffect` | src/utils/resolvers-composition.ts:109-113 | when the rewritten paths are independent and none repeats its last segment, each holds its compositions applied to its old resolver |
| `ResolversComposition.ComposeLeavesOtherPaths` | src/utils/resolvers-composition.ts:109-115 | when the first pass succeeds and every table path is singly assigned (its last segment name occurs only at the end), every path that parts ways with all table paths reads as it did before `composeResolvers` |
| `ResolversComposition.ComposeRewritesEachPath` | src/utils/resolvers-composition.ts:109-115 | when the first pass succeeds, the table paths are independent (none a prefix of another) and singly assigned, and no rewrite throws, each table path was readable before and ends up holding its compositions applied to the resolver it held before |
| `ResolversComposition.ResolverMap.ComposeResolvers` | src/utils/resolvers-composition.ts:88-116 | the map ends as the specified outcome; the call returns the same map, or the thrown error with the rewrites made so far kept |

## Left out

- The graphql library is not part of this model. Parsing, printing, `buildClientSchema` and `concatAST`'s node structure are abstracted as oracles, and a definition is reduced to its kind and an opaque payload.
- The `Kind` list follows graphql-js 14 (43 values), because `graphql/language/kinds` is not part of this model.
- The file system, `glob`, `is-valid-path`, `is-glob`, `valid-url`, `fixWindowsPath`, `path.isAbsolute` and `path.resolve` are oracles. The gql-file, code-file and URL loaders, whose files are not part of this model, are oracles too.
- `options.ignore` given as a single string is modelled as a one-element list.
- Asynchrony is not modelled: `Promise.all` over a pointer's files and the awaits are evaluated in order. Interleaving of the loaders' side effects is not modelled.
- `debugLog` output is left out; it has no effect on results.
- JSON numbers are integers. Floating point is not modelled, and the number 0 (and the empty string) are the only falsy numbers (and strings).
- `toLowerCase` and the `/i` extension test are modelled for ASCII only.
- Windows path syntax is not modelled: `extname` is the POSIX one.
- `chainFunctions`, `asArray` and `flattenArray` come from helper files that are not part of this model. `chainFunctions([...fns, thunk])()` is modelled as applying the compositions right to left to the current resolver. What a composition returns is the `apply` oracle, and its side effects are not modelled. `apply` is total, so a composition that throws is not modelled; in JavaScript that exception leaves `composeResolvers` with the earlier paths already rewritten.
- The resolver map is a value, not a heap of shared objects. Aliasing is not modelled (the same object reachable under two paths is rewritten once per path in JavaScript), and neither is the self-reference `set` creates on `T.T`.
- ResolversComposition.ResolverMap.Set: when a `set` throws after an earlier assignment on the same path (possible only when the last segment name also occurs earlier), JavaScript keeps that assignment; the model leaves the map unchanged.
- Property reads on primitives give `undefined`. The model leaves out a string's `length` and index properties, and `Object.keys` of a string primitive (its indices in JavaScript) lists nothing.
- `Object.keys` lists integer-like keys before other keys in JavaScript. The model keeps insertion order for every key.
- The unbounded recursion of `Type.*` over a type with a field named `*` is modelled as the `RangeError` it ends in.
- After kind filtering, JavaScript turns a failed source's `null` content into a document whose `definitions` is `null`. The model keeps the content missing. Both are dropped by the non-empty filter, so results agree.
- Mapping values other than a function, an array or a per-field object are not modelled.
- ResolversComposition.FieldPaths: its own contract states only when it throws; what it reports is stated by `FieldPathsExact`.
- LoadTypedefs.ResultRespectsFilter: stated for a non-empty filter only; an empty or absent filter filters nothing.
- ResolversComposition.Member: inherited properties are not modelled. In JavaScript, reading `toString`, `constructor`, `valueOf` or `hasOwnProperty` on an object, or `call`, `apply`, `bind`, `name` or `length` on a function, gives a defined value; the model gives `undefined`, so a mapping key such as `Query.toString` reports no path.
- `LoadTypedefsOptions` keeps only `ignore`, `tagPluck` and `noRequire`. The other keys the source passes on to `loadFromUrl` (src/loaders/load-typedefs.ts:62) are not modelled.
- A URL loader that fulfils with `null` is not modelled: the URL oracle returns a document or an error.
