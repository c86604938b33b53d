/** The pointer loading pipeline: normalise the pointers, classify each one
    (inline SDL, file path or glob, URL), load every source into a
    `{filePath, content}` record in pointer order, filter the definitions by
    kind, keep the non-empty sources, and fail naming every pointer when
    none is left. The graphql parser, glob, path and URL helpers, the file
    loaders that are not part of this model, and remote loading are oracles
    held in a `Host`. */
module LoadTypedefs {
  import opened Results
  import opened GraphQL
  import opened Strings
  import opened Seqs
  import opened Paths
  import JsonFile

  /** The pointer argument: one string or an array of them. */
  datatype Pointers = Single(pointer: string) | Many(pointers: seq<string>)

  /** The recognised options: glob ignore patterns (empty when absent) and
      the two options forwarded to the code-file loader. */
  datatype LoadOptions = LoadOptions(ignore: seq<string>, tagPluck: map<string, string>, noRequire: bool)

  /** What `loadSingleFile` passes to the code-file loader. */
  datatype CodeOptions = CodeOptions(noRequire: bool, tagPluck: map<string, string>)

  datatype Host = Host(
    parse: string -> Result<AstDocument>,
    isUri: string -> bool,
    fixWindowsPath: string -> string,
    isValidPath: string -> bool,
    isGlob: string -> bool,
    glob: (string, string, seq<string>) -> seq<string>,
    isAbsolute: string -> bool,
    resolvePath: (string, string) -> string,
    file: string -> JsonFile.FileState,
    jsonParse: string -> Result<JsonFile.Json>,
    buildAndPrint: JsonFile.Json -> Result<string>,
    loadGqlFile: string -> Result<AstDocument>,
    loadCodeFile: (string, CodeOptions) -> Result<AstDocument>,
    loadFromUrl: (string, LoadOptions) -> Result<AstDocument>)

  /** The JSON loader sees the same file system and parser. */
  function JsonHostOf(host: Host): JsonFile.JsonHost {
    JsonFile.JsonHost(host.file, host.jsonParse, host.buildAndPrint, host.parse)
  }

  /** One loaded source; `content` is `None` when that source failed. */
  datatype DocumentFile = DocumentFile(filePath: string, content: Option<AstDocument>)

  // ---------------------------------------------------------------- pointers

  /** An array of pointers is used as it is; one pointer becomes a list of one. */
  function NormalizeSchemaString(pointers: Pointers): (r: seq<string>)
    ensures pointers.Many? ==> r == pointers.pointers
    ensures pointers.Single? ==> r == [pointers.pointer]
  {
    match pointers
    case Many(ps) => ps
    case Single(p) => [p]
  }

  /** How many ASCII letters and digits end `s`. */
  function TrailingAlnum(s: string): (n: nat)
    ensures n <= |s|
    ensures forall j :: |s| - n <= j < |s| ==> IsAsciiAlnum(s[j])
    ensures n < |s| ==> !IsAsciiAlnum(s[|s| - n - 1])
    decreases |s|
  {
    if s == [] || !IsAsciiAlnum(s[|s| - 1]) then 0
    else TrailingAlnum(s[..|s| - 1]) + 1
  }

  /** The test `/\.[a-z0-9]+$/i`: a dot followed by one or more ASCII
      letters or digits up to the end of the string. */
  predicate EndsWithExtension(s: string) {
    var n := TrailingAlnum(s);
    0 < n < |s| && s[|s| - n - 1] == '.'
  }

  /** The regular expression matches at position `i`. */
  ghost predicate ExtensionAt(s: string, i: int) {
    0 <= i < |s| - 1 && s[i] == '.' && forall j :: i < j < |s| ==> IsAsciiAlnum(s[j])
  }

  lemma ExtensionRegex(s: string)
    ensures EndsWithExtension(s) <==> exists i :: ExtensionAt(s, i)
  {
    var n := TrailingAlnum(s);
    if EndsWithExtension(s) {
      assert ExtensionAt(s, |s| - n - 1);
    }
    if i :| ExtensionAt(s, i) {
      // The dot stops the run of letters and digits, and nothing after it does.
      assert !IsAsciiAlnum(s[i]);
      assert n < |s| ==> |s| - n - 1 <= i;
    }
  }

  /** `isSchemaString`: a string ending in an extension is never SDL, and
      `parse` is not consulted; otherwise it is SDL exactly when it parses. */
  function IsSchemaString(s: string, parse: string -> Result<AstDocument>): (r: bool)
    ensures EndsWithExtension(s) ==> !r
    ensures !EndsWithExtension(s) ==> (r <==> parse(s).Ok?)
  {
    if EndsWithExtension(s) then false
    else parse(s).Ok?
  }

  /** Whatever the parser, a string ending in an extension is not SDL. */
  lemma ExtensionShortCircuits(s: string, parse1: string -> Result<AstDocument>, parse2: string -> Result<AstDocument>)
    requires exists i :: ExtensionAt(s, i)
    ensures !IsSchemaString(s, parse1) && !IsSchemaString(s, parse2)
  {
    ExtensionRegex(s);
  }

  // ------------------------------------------------------------------- files

  /** A file that is not vendored, not a declaration file and not a test. */
  predicate KeepFile(file: string) {
    && !Contains(file, "node_modules")
    && !EndsWith(file, ".d.ts")
    && !EndsWith(file, ".spec.ts")
    && !EndsWith(file, ".spec.js")
    && !EndsWith(file, ".test.ts")
    && !EndsWith(file, ".test.js")
  }

  /** `filterFiles`: the files to keep, in their original order. */
  function FilterFiles(files: seq<string>): (r: seq<string>)
    ensures Subsequence(r, files)
    ensures forall f :: f in r <==> f in files && KeepFile(f)
    ensures forall f :: multiset(r)[f] == if KeepFile(f) then multiset(files)[f] else 0
  {
    FilterSpec(files, KeepFile);
    Filter(files, KeepFile)
  }

  const GqlExtensions: seq<string> := [".gql", ".graphql", ".graphqls"]
  const CodeFileExtensions: seq<string> := [".ts", ".tsx", ".js", ".jsx"]

  datatype Loader = JsonLoader | GqlLoader | CodeLoader | NoLoader

  /** The loader for a (lower-cased) extension. */
  function LoaderFor(extension: string): (r: Loader)
    ensures r == JsonLoader <==> extension == ".json"
    ensures r == GqlLoader <==> extension in GqlExtensions
    ensures r == CodeLoader <==> extension in CodeFileExtensions
    ensures r == NoLoader <==> extension != ".json" && extension !in GqlExtensions && extension !in CodeFileExtensions
  {
    if extension == ".json" then JsonLoader
    else if extension in GqlExtensions then GqlLoader
    else if extension in CodeFileExtensions then CodeLoader
    else NoLoader
  }

  /** The loader `loadSingleFile` picks for a path. */
  function LoaderOf(filePath: string): Loader {
    LoaderFor(ToLower(Extname(filePath)))
  }

  /** Dispatch ignores the case of the path. */
  lemma LoaderOfIgnoresCase(p: string, q: string)
    requires ToLower(p) == ToLower(q)
    ensures LoaderOf(p) == LoaderOf(q)
  {
    ExtnameToLower(p);
    ExtnameToLower(q);
    LowerIdempotent(Extname(p));
    LowerIdempotent(Extname(q));
  }

  lemma LowerIdempotent(s: string)
    ensures ToLower(ToLower(s)) == ToLower(s)
  {
  }

  /** The absolute, separator-fixed path a loader is given. */
  function FullPath(filePath: string, cwd: string, host: Host): string {
    host.fixWindowsPath(if host.isAbsolute(filePath) then filePath else host.resolvePath(cwd, filePath))
  }

  /** `loadSingleFile`: the document the chosen loader produces; `None` for
      an unknown extension and whenever the loader fails. */
  function LoadSingleFile(filePath: string, options: CodeOptions, cwd: string, host: Host): (r: Option<AstDocument>)
    ensures LoaderOf(filePath) == NoLoader ==> r == None
    ensures LoaderOf(filePath) == JsonLoader ==>
      r == (match JsonFile.JsonLoadOutcome(FullPath(filePath, cwd, host), JsonHostOf(host))
            case Fulfilled(d) => Some(d)
            case Rejected(_) => None)
    ensures LoaderOf(filePath) == GqlLoader ==>
      (r.Some? <==> host.loadGqlFile(FullPath(filePath, cwd, host)).Ok?) &&
      (r.Some? ==> r.value == host.loadGqlFile(FullPath(filePath, cwd, host)).value)
    ensures LoaderOf(filePath) == CodeLoader ==>
      (r.Some? <==> host.loadCodeFile(FullPath(filePath, cwd, host), options).Ok?) &&
      (r.Some? ==> r.value == host.loadCodeFile(FullPath(filePath, cwd, host), options).value)
  {
    var fullPath := FullPath(filePath, cwd, host);
    match LoaderOf(filePath)
    case JsonLoader =>
      (match JsonFile.JsonLoadOutcome(fullPath, JsonHostOf(host))
       case Fulfilled(d) => Some(d)
       case Rejected(_) => None)
    case GqlLoader =>
      (match host.loadGqlFile(fullPath) case Ok(d) => Some(d) case Err(_) => None)
    case CodeLoader =>
      (match host.loadCodeFile(fullPath, options) case Ok(d) => Some(d) case Err(_) => None)
    case NoLoader => None
  }

  /** The records of the files of one path or glob pointer, in listing order. */
  function FileRecords(files: seq<string>, options: LoadOptions, cwd: string, host: Host): (r: seq<DocumentFile>)
    ensures |r| == |files|
    ensures forall i :: 0 <= i < |files| ==> r[i].filePath == files[i]
    ensures forall i :: 0 <= i < |files| ==>
      r[i].content == LoadSingleFile(files[i], CodeOptions(options.noRequire, options.tagPluck), cwd, host)
  {
    seq(|files|, i requires 0 <= i < |files| =>
      DocumentFile(files[i], LoadSingleFile(files[i], CodeOptions(options.noRequire, options.tagPluck), cwd, host)))
  }

  // ---------------------------------------------------------------- pipeline

  /** The records one pointer contributes; only remote loading can fail. */
  function PointerSources(pointer: string, options: LoadOptions, cwd: string, host: Host): Result<seq<DocumentFile>> {
    if IsSchemaString(pointer, host.parse) then
      Ok([DocumentFile(pointer, Some(host.parse(pointer).value))])
    else if !host.isUri(pointer) then
      var fixedPath := host.fixWindowsPath(pointer);
      if host.isValidPath(fixedPath) || host.isGlob(fixedPath) then
        var listed := if !host.isGlob(fixedPath) then [fixedPath] else host.glob(fixedPath, cwd, options.ignore);
        Ok(FileRecords(FilterFiles(listed), options, cwd, host))
      else Ok([])
    else
      match host.loadFromUrl(pointer, options)
      case Err(e) => Err(e)
      case Ok(d) => Ok([DocumentFile(pointer, Some(d))])
  }

  /** `found.push(...more)`, unless an earlier or this step threw. */
  function Append(found: Result<seq<DocumentFile>>, more: Result<seq<DocumentFile>>): (r: Result<seq<DocumentFile>>)
    ensures found.Err? ==> r == found
    ensures found.Ok? && more.Err? ==> r == Err(more.error)
    ensures found.Ok? && more.Ok? ==> r == Ok(found.value + more.value)
  {
    match found
    case Err(e) => Err(e)
    case Ok(prev) =>
      match more
      case Err(e) => Err(e)
      case Ok(added) => Ok(prev + added)
  }

  /** The records of all pointers, appended pointer by pointer, where
      `sources` gives the records of one pointer. */
  function Gather(pointers: seq<string>, sources: string -> Result<seq<DocumentFile>>): Result<seq<DocumentFile>>
    decreases |pointers|
  {
    if pointers == [] then Ok([])
    else
      var n := |pointers|;
      Append(Gather(pointers[..n - 1], sources), sources(pointers[n - 1]))
  }

  /** The records one pointer contributes, as a function of the pointer. */
  function SourcesOf(options: LoadOptions, cwd: string, host: Host): string -> Result<seq<DocumentFile>> {
    p => PointerSources(p, options, cwd, host)
  }

  /** The records of all pointers of one `loadTypedefs` call. */
  function Collect(pointers: seq<string>, options: LoadOptions, cwd: string, host: Host): Result<seq<DocumentFile>> {
    Gather(pointers, SourcesOf(options, cwd, host))
  }

  /** `found.map(a => a.content).filter(a => a)`. */
  function PresentContents(found: seq<DocumentFile>): seq<AstDocument>
    decreases |found|
  {
    if found == [] then []
    else (if found[0].content.Some? then [found[0].content.value] else []) + PresentContents(found[1..])
  }

  /** The definition test of the kind filter. */
  function KindAllowed(filterKinds: seq<Kind>): Definition -> bool {
    (d: Definition) => d.kind !in filterKinds
  }

  /** The per-source kind filter: every record keeps its path, and its
      definitions whose kind is not filtered, in order. */
  function FilterByKind(found: seq<DocumentFile>, filterKinds: seq<Kind>): (r: seq<DocumentFile>)
    ensures |r| == |found|
    ensures forall i :: 0 <= i < |found| ==>
      && r[i].filePath == found[i].filePath
      && (r[i].content.Some? <==> found[i].content.Some?)
      && (found[i].content.Some? ==> r[i].content.value == Filter(found[i].content.value, KindAllowed(filterKinds)))
    ensures forall i :: 0 <= i < |r| && r[i].content.Some? ==>
      forall d :: d in r[i].content.value <==> d in found[i].content.value && d.kind !in filterKinds
  {
    forall i | 0 <= i < |found| && found[i].content.Some? {
      FilterSpec(found[i].content.value, KindAllowed(filterKinds));
    }
    seq(|found|, i requires 0 <= i < |found| =>
      DocumentFile(found[i].filePath,
        if found[i].content.Some? then Some(Filter(found[i].content.value, KindAllowed(filterKinds))) else None))
  }

  /** The filter runs only when some kind is filtered and some definition
      was loaded. */
  predicate KindFilterActive(found: seq<DocumentFile>, filterKinds: Option<seq<Kind>>) {
    |ConcatAst(PresentContents(found))| > 0 && filterKinds.Some? && |filterKinds.value| > 0
  }

  function ApplyKindPolicy(found: seq<DocumentFile>, filterKinds: Option<seq<Kind>>): seq<DocumentFile> {
    if KindFilterActive(found, filterKinds) then FilterByKind(found, filterKinds.value) else found
  }

  /** A record that survives: it loaded and has at least one definition. */
  predicate HasDefinitions(f: DocumentFile) {
    f.content.Some? && |f.content.value| > 0
  }

  /** The aggregate error; it lists the pointers joined by ", ". */
  function NoDefinitionsError(pointers: seq<string>): Error {
    Error("Error", "Unable to find any GraphQL type defintions for the following pointers: " + Join(pointers, ", "))
  }

  /** The outcome of `loadTypedefs`. */
  function LoadTypedefsSpec(pointers: Pointers, options: LoadOptions, filterKinds: Option<seq<Kind>>,
                            cwd: string, host: Host): Result<seq<DocumentFile>>
  {
    var paths := NormalizeSchemaString(pointers);
    match Collect(paths, options, cwd, host)
    case Err(e) => Err(e)
    case Ok(found) =>
      var nonEmpty := Filter(ApplyKindPolicy(found, filterKinds), HasDefinitions);
      if nonEmpty == [] then Err(NoDefinitionsError(paths)) else Ok(nonEmpty)
  }

  /** The `for` loop of `loadTypedefs`: each pointer's records are appended
      to `found`, in pointer order; a failing remote load aborts the call. */
  method CollectPointers(schemasPaths: seq<string>, options: LoadOptions, cwd: string, host: Host)
    returns (r: Result<seq<DocumentFile>>)
    ensures r == Collect(schemasPaths, options, cwd, host)
  {
    var found: seq<DocumentFile> := [];
    for i := 0 to |schemasPaths|
      invariant Collect(schemasPaths[..i], options, cwd, host) == Ok(found)
    {
      assert schemasPaths[..i + 1][..i] == schemasPaths[..i];
      var schemaPath := schemasPaths[i];
      var added: seq<DocumentFile> := [];
      if IsSchemaString(schemaPath, host.parse) {
        added := [DocumentFile(schemaPath, Some(host.parse(schemaPath).value))];
      } else if !host.isUri(schemaPath) {
        var fixedPath := host.fixWindowsPath(schemaPath);
        if host.isValidPath(fixedPath) || host.isGlob(fixedPath) {
          var relevantFiles := FilterFiles(if !host.isGlob(fixedPath) then [fixedPath] else host.glob(fixedPath, cwd, options.ignore));
          added := FileRecords(relevantFiles, options, cwd, host);
        }
      } else {
        var content := host.loadFromUrl(schemaPath, options);
        if content.Err? {
          assert Collect(schemasPaths[..i + 1], options, cwd, host) == Err(content.error);
          CollectErrorPropagates(schemasPaths, i + 1, options, cwd, host);
          assert schemasPaths[..|schemasPaths|] == schemasPaths;
          return Err(content.error);
        }
        added := [DocumentFile(schemaPath, Some(content.value))];
      }
      assert PointerSources(schemaPath, options, cwd, host) == Ok(added);
      found := found + added;
    }
    assert schemasPaths[..|schemasPaths|] == schemasPaths;
    return Ok(found);
  }

  /** `loadTypedefs`: collect the records, let the kind filter replace
      `found`, and return the non-empty records, or the aggregate error when
      there are none. */
  method LoadTypedefs(pointers: Pointers, options: LoadOptions, filterKinds: Option<seq<Kind>>,
                      cwd: string, host: Host) returns (r: Result<seq<DocumentFile>>)
    ensures r == LoadTypedefsSpec(pointers, options, filterKinds, cwd, host)
    ensures r.Ok? ==> |r.value| > 0 && forall f :: f in r.value ==> HasDefinitions(f)
  {
    var schemasPaths := NormalizeSchemaString(pointers);
    var collected := CollectPointers(schemasPaths, options, cwd, host);
    if collected.Err? {
      return Err(collected.error);
    }
    var found := collected.value;
    var allFoundDocuments := ConcatAst(PresentContents(found));
    if |allFoundDocuments| > 0 && filterKinds.Some? && |filterKinds.value| > 0 {
      found := FilterByKind(found, filterKinds.value);
    }
    assert found == ApplyKindPolicy(collected.value, filterKinds);
    var nonEmpty := Filter(found, HasDefinitions);
    if |nonEmpty| == 0 {
      return Err(NoDefinitionsError(schemasPaths));
    }
    ReturnedRecordsHaveDefinitions(pointers, options, filterKinds, cwd, host);
    return Ok(nonEmpty);
  }

  // ------------------------------------------------------------------ lemmas

  /** A successful load returns at least one record, and every record it
      returns loaded and has a definition. */
  lemma ReturnedRecordsHaveDefinitions(pointers: Pointers, options: LoadOptions, filterKinds: Option<seq<Kind>>,
                                       cwd: string, host: Host)
    ensures var r := LoadTypedefsSpec(pointers, options, filterKinds, cwd, host);
      r.Ok? ==> |r.value| > 0 && forall f :: f in r.value ==> HasDefinitions(f)
  {
    var collected := Collect(NormalizeSchemaString(pointers), options, cwd, host);
    if collected.Ok? {
      FilterSpec(ApplyKindPolicy(collected.value, filterKinds), HasDefinitions);
    }
  }

  /** Once the pointers are collected, a successful load returns, in order
      and as often as they occur, exactly those records that pass the kind
      policy and have a definition; the load fails only when no such record
      exists. */
  lemma ResultIsRecordsWithDefinitions(pointers: Pointers, options: LoadOptions, filterKinds: Option<seq<Kind>>,
                                       cwd: string, host: Host)
    requires Collect(NormalizeSchemaString(pointers), options, cwd, host).Ok?
    ensures var policed := ApplyKindPolicy(Collect(NormalizeSchemaString(pointers), options, cwd, host).value, filterKinds);
      var r := LoadTypedefsSpec(pointers, options, filterKinds, cwd, host);
      (r.Ok? ==> Subsequence(r.value, policed) && forall f :: f in policed && HasDefinitions(f) ==> f in r.value) &&
      (r.Ok? ==> forall f :: multiset(r.value)[f] == if HasDefinitions(f) then multiset(policed)[f] else 0) &&
      (r.Err? ==> forall f :: f in policed ==> !HasDefinitions(f))
  {
    var found := Collect(NormalizeSchemaString(pointers), options, cwd, host).value;
    FilterSpec(ApplyKindPolicy(found, filterKinds), HasDefinitions);
  }

  /** Once a pointer fails, gathering the longer list fails with its error. */
  lemma {:induction false} GatherErrorPropagates(pointers: seq<string>, k: nat, sources: string -> Result<seq<DocumentFile>>)
    requires k <= |pointers|
    requires Gather(pointers[..k], sources).Err?
    ensures Gather(pointers, sources) == Gather(pointers[..k], sources)
    decreases |pointers| - k
  {
    if k < |pointers| {
      assert pointers[..k + 1][..k] == pointers[..k];
      GatherErrorPropagates(pointers, k + 1, sources);
    } else {
      assert pointers[..k] == pointers;
    }
  }

  /** Once a pointer fails, loading the longer list fails with its error. */
  lemma CollectErrorPropagates(pointers: seq<string>, k: nat, options: LoadOptions, cwd: string, host: Host)
    requires k <= |pointers|
    requires Collect(pointers[..k], options, cwd, host).Err?
    ensures Collect(pointers, options, cwd, host) == Collect(pointers[..k], options, cwd, host)
  {
    GatherErrorPropagates(pointers, k, SourcesOf(options, cwd, host));
  }

  /** One step of `Collect`: the records of all but the last pointer, then
      those of the last. */
  lemma CollectLast(pointers: seq<string>, options: LoadOptions, cwd: string, host: Host)
    requires pointers != []
    ensures var n := |pointers|;
      Collect(pointers, options, cwd, host) ==
        Append(Collect(pointers[..n - 1], options, cwd, host), PointerSources(pointers[n - 1], options, cwd, host))
  {
  }

  /** `Gather` on a list ending in `last`. */
  lemma GatherSnoc(ps: seq<string>, last: string, sources: string -> Result<seq<DocumentFile>>)
    ensures Gather(ps + [last], sources) == Append(Gather(ps, sources), sources(last))
  {
    assert (ps + [last])[..|ps|] == ps;
  }

  /** Gathering `ps1 + ps2` gives the records of `ps1` followed by those of
      `ps2`. */
  lemma {:induction false} GatherAppend(ps1: seq<string>, ps2: seq<string>, sources: string -> Result<seq<DocumentFile>>)
    requires Gather(ps1, sources).Ok? && Gather(ps2, sources).Ok?
    ensures Gather(ps1 + ps2, sources) == Ok(Gather(ps1, sources).value + Gather(ps2, sources).value)
    decreases |ps2|
  {
    if ps2 == [] {
      assert ps1 + ps2 == ps1;
      assert Gather(ps2, sources) == Ok([]);
      assert Gather(ps1, sources).value + [] == Gather(ps1, sources).value;
    } else {
      var init, last := ps2[..|ps2| - 1], ps2[|ps2| - 1];
      assert ps2 == init + [last];
      assert ps1 + ps2 == (ps1 + init) + [last];
      GatherSnoc(init, last, sources);
      GatherSnoc(ps1 + init, last, sources);
      GatherAppend(ps1, init, sources);
      var c1, c2 := Gather(ps1, sources).value, Gather(init, sources).value;
      var more := sources(last).value;
      assert (c1 + c2) + more == c1 + (c2 + more);
    }
  }

  /** Records are appended in pointer order: loading `ps1 + ps2` gives the
      records of `ps1` followed by those of `ps2`. */
  lemma CollectAppend(ps1: seq<string>, ps2: seq<string>, options: LoadOptions, cwd: string, host: Host)
    requires Collect(ps1, options, cwd, host).Ok? && Collect(ps2, options, cwd, host).Ok?
    ensures Collect(ps1 + ps2, options, cwd, host)
         == Ok(Collect(ps1, options, cwd, host).value + Collect(ps2, options, cwd, host).value)
  {
    GatherAppend(ps1, ps2, SourcesOf(options, cwd, host));
  }

  /** Without any loaded definition, no record has definitions. */
  lemma {:induction false} NoDefinitionsAnywhere(found: seq<DocumentFile>)
    requires ConcatAst(PresentContents(found)) == []
    ensures forall f :: f in found ==> !HasDefinitions(f)
    decreases |found|
  {
    if found != [] {
      var head := if found[0].content.Some? then [found[0].content.value] else [];
      assert PresentContents(found) == head + PresentContents(found[1..]);
      ConcatAppend(head, PresentContents(found[1..]));
      NoDefinitionsAnywhere(found[1..]);
      assert found == [found[0]] + found[1..];
    }
  }

  lemma {:induction false} ConcatAppend(xs: seq<AstDocument>, ys: seq<AstDocument>)
    ensures ConcatAst(xs + ys) == ConcatAst(xs) + ConcatAst(ys)
    decreases |xs|
  {
    if xs == [] {
      assert xs + ys == ys;
    } else {
      assert (xs + ys)[1..] == xs[1..] + ys;
      ConcatAppend(xs[1..], ys);
    }
  }

  /** When kinds are filtered, no returned definition has a filtered kind:
      either the filter ran, or nothing was loaded and the call failed. */
  lemma ResultRespectsFilter(pointers: Pointers, options: LoadOptions, filterKinds: seq<Kind>, cwd: string, host: Host)
    requires |filterKinds| > 0
    ensures var r := LoadTypedefsSpec(pointers, options, Some(filterKinds), cwd, host);
      r.Ok? ==> forall f, d :: f in r.value && d in f.content.value ==> d.kind !in filterKinds
  {
    var paths := NormalizeSchemaString(pointers);
    var r := LoadTypedefsSpec(pointers, options, Some(filterKinds), cwd, host);
    if r.Ok? {
      var found := Collect(paths, options, cwd, host).value;
      var policed := ApplyKindPolicy(found, Some(filterKinds));
      FilterSpec(policed, HasDefinitions);
      if !KindFilterActive(found, Some(filterKinds)) {
        NoDefinitionsAnywhere(found);
        FilterNone(found, HasDefinitions);
      } else {
        forall f, d | f in r.value && d in f.content.value ensures d.kind !in filterKinds {
          var i :| 0 <= i < |policed| && policed[i] == f;
        }
      }
    }
  }

  /** The single failure mode of the aggregation: when the pointers load
      but no source keeps a definition, the error lists every pointer. */
  lemma FailureNamesEveryPointer(pointers: Pointers, options: LoadOptions, filterKinds: Option<seq<Kind>>, cwd: string, host: Host)
    requires Collect(NormalizeSchemaString(pointers), options, cwd, host).Ok?
    ensures var r := LoadTypedefsSpec(pointers, options, filterKinds, cwd, host);
      r.Err? ==>
        && r.error == NoDefinitionsError(NormalizeSchemaString(pointers))
        && forall p :: p in NormalizeSchemaString(pointers) ==> Contains(r.error.message, p)
  {
    var paths := NormalizeSchemaString(pointers);
    var prefix := "Unable to find any GraphQL type defintions for the following pointers: ";
    forall p | p in paths ensures Contains(prefix + Join(paths, ", "), p) {
      var k :| 0 <= k < |paths| && paths[k] == p;
      JoinContainsEachPart(paths, ", ", k);
      ContainsAppend(prefix, Join(paths, ", "), p);
    }
  }

  /** Pointers that each contribute nothing (a glob that matches no file, an
      unknown path) make the call fail with the aggregate error. */
  lemma {:induction false} NothingFoundRejects(pointers: seq<string>, options: LoadOptions, filterKinds: Option<seq<Kind>>, cwd: string, host: Host)
    requires forall p :: p in pointers ==> PointerSources(p, options, cwd, host) == Ok([])
    ensures LoadTypedefsSpec(Many(pointers), options, filterKinds, cwd, host) == Err(NoDefinitionsError(pointers))
  {
    CollectNothing(pointers, options, cwd, host);
  }

  lemma {:induction false} CollectNothing(pointers: seq<string>, options: LoadOptions, cwd: string, host: Host)
    requires forall p :: p in pointers ==> PointerSources(p, options, cwd, host) == Ok([])
    ensures Collect(pointers, options, cwd, host) == Ok([])
    decreases |pointers|
  {
    if pointers != [] {
      var n := |pointers|;
      assert pointers[n - 1] in pointers;
      forall p | p in pointers[..n - 1] ensures PointerSources(p, options, cwd, host) == Ok([]) {
        assert p in pointers;
      }
      CollectNothing(pointers[..n - 1], options, cwd, host);
      CollectLast(pointers, options, cwd, host);
      var none: seq<DocumentFile> := [];
      assert PointerSources(pointers[n - 1], options, cwd, host) == Ok(none);
      assert Collect(pointers[..n - 1], options, cwd, host) == Ok(none);
      assert none + none == none;
    } else {
      assert Collect(pointers, options, cwd, host) == Ok([]);
    }
  }

  /** A glob that lists no file contributes no record. */
  lemma EmptyGlobContributesNothing(pointer: string, options: LoadOptions, cwd: string, host: Host)
    requires !IsSchemaString(pointer, host.parse) && !host.isUri(pointer)
    requires host.isGlob(host.fixWindowsPath(pointer))
    requires host.glob(host.fixWindowsPath(pointer), cwd, options.ignore) == []
    ensures PointerSources(pointer, options, cwd, host) == Ok([])
  {
  }

  /** Loading one inline SDL string whose definitions all pass the filter
      gives exactly one record: the string itself and its parse. */
  lemma InlineSchemaLoads(sdl: string, options: LoadOptions, filterKinds: Option<seq<Kind>>, cwd: string, host: Host)
    requires IsSchemaString(sdl, host.parse)
    requires |host.parse(sdl).value| > 0
    requires filterKinds.Some? ==> forall d :: d in host.parse(sdl).value ==> d.kind !in filterKinds.value
    ensures LoadTypedefsSpec(Single(sdl), options, filterKinds, cwd, host)
         == Ok([DocumentFile(sdl, Some(host.parse(sdl).value))])
  {
    var doc := host.parse(sdl).value;
    var found := [DocumentFile(sdl, Some(doc))];
    assert [sdl][..0] == [];
    assert PointerSources(sdl, options, cwd, host) == Ok(found);
    CollectLast([sdl], options, cwd, host);
    assert Collect([], options, cwd, host) == Ok([]);
    assert [] + found == found;
    assert Collect([sdl], options, cwd, host) == Ok(found);
    if KindFilterActive(found, filterKinds) {
      FilterAll(doc, KindAllowed(filterKinds.value));
      assert FilterByKind(found, filterKinds.value) == found;
    }
    FilterAll(found, HasDefinitions);
  }

  /** Of two loaded sources, one whose definitions are all filtered out is
      dropped and one with no filtered definition comes back unchanged. */
  lemma FilteredSourceDropped(kept: DocumentFile, dropped: DocumentFile, filterKinds: seq<Kind>)
    requires HasDefinitions(kept) && HasDefinitions(dropped) && |filterKinds| > 0
    requires forall d :: d in kept.content.value ==> d.kind !in filterKinds
    requires forall d :: d in dropped.content.value ==> d.kind in filterKinds
    ensures Filter(ApplyKindPolicy([kept, dropped], Some(filterKinds)), HasDefinitions) == [kept]
  {
    var found := [kept, dropped];
    assert found[1..] == [dropped];
    assert PresentContents([dropped]) == [dropped.content.value];
    assert PresentContents(found) == [kept.content.value, dropped.content.value];
    assert ConcatAst(PresentContents(found)) == kept.content.value + dropped.content.value;
    FilterAll(kept.content.value, KindAllowed(filterKinds));
    FilterNone(dropped.content.value, KindAllowed(filterKinds));
    var policed := FilterByKind(found, filterKinds);
    assert policed == [kept, DocumentFile(dropped.filePath, Some([]))];
  }
}
