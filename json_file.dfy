/** The JSON-introspection loader: read the file, drop a byte-order mark,
    parse the JSON, unwrap a `data` envelope, require `__schema`, then build
    a client schema, print it and parse the printed SDL. The file system,
    `JSON.parse`, `buildClientSchema` with the printer, and the SDL parser
    are oracles held in a `JsonHost`. */
module JsonFile {
  import opened Results
  import opened GraphQL

  /** A JSON value as `JSON.parse` returns it (numbers as integers). */
  datatype Json =
    | JNull
    | JBool(b: bool)
    | JNumber(n: int)
    | JString(s: string)
    | JArray(items: seq<Json>)
    | JObject(members: map<string, Json>)

  /** What `existsSync` and `readFileSync(path, 'utf8')` see at a path. */
  datatype FileState = Missing | Unreadable(error: Error) | Contents(text: string)

  datatype JsonHost = JsonHost(
    file: string -> FileState,
    jsonParse: string -> Result<Json>,
    buildAndPrint: Json -> Result<string>,
    parse: string -> Result<AstDocument>)

  /** U+FEFF, the byte-order mark as `readFileSync` decodes it. */
  const BOM: char := '\U{FEFF}'

  /** Removes one leading byte-order mark, if there is one. */
  function StripBOM(content: string): (r: string)
    ensures |content| - 1 <= |r| <= |content|
    ensures r == content[|content| - |r|..]
    ensures |r| < |content| <==> |content| > 0 && content[0] == BOM
  {
    if |content| > 0 && content[0] == BOM then content[1..] else content
  }

  /** Stripping is not idempotent: of two leading marks only one goes. */
  lemma StripBOMRemovesOnlyOne(rest: string)
    ensures StripBOM([BOM, BOM] + rest) == [BOM] + rest
    ensures StripBOM(StripBOM([BOM, BOM] + rest)) == rest
  {
    assert ([BOM, BOM] + rest)[1..] == [BOM] + rest;
    assert ([BOM] + rest)[1..] == rest;
  }

  /** `JSON.parse(stripBOM(content))`: a leading byte-order mark is not
      shown to the parser; any other text reaches it as read. */
  function ParseBOM(content: string, host: JsonHost): (r: Result<Json>)
    ensures |content| > 0 && content[0] == BOM ==> r == host.jsonParse(content[1..])
    ensures (|content| == 0 || content[0] != BOM) ==> r == host.jsonParse(content)
  {
    host.jsonParse(StripBOM(content))
  }

  /** A file that starts with one byte-order mark parses as the same file
      without it. */
  lemma MarkedTextParsesAsUnmarked(text: string, host: JsonHost)
    requires text == [] || text[0] != BOM
    ensures ParseBOM([BOM] + text, host) == ParseBOM(text, host)
  {
    assert ([BOM] + text)[1..] == text;
  }

  /** JavaScript truthiness of a property read (`None` is `undefined`). */
  predicate Truthy(v: Option<Json>) {
    match v
    case None => false
    case Some(JNull) => false
    case Some(JBool(b)) => b
    case Some(JNumber(n)) => n != 0
    case Some(JString(s)) => s != ""
    case Some(_) => true
  }

  /** `value[key]`: a member of an object, `undefined` on any other
      non-null value, a `TypeError` on `null`. */
  function Property(value: Json, key: string): (r: Result<Option<Json>>)
    ensures r.Err? <==> value.JNull?
    ensures r.Ok? && r.value.Some? ==> value.JObject? && key in value.members && r.value.value == value.members[key]
    ensures value.JObject? ==> r.Ok? && (r.value.Some? <==> key in value.members)
    ensures !value.JNull? && !value.JObject? ==> r == Ok(None)
  {
    match value
    case JNull => Err(Error("TypeError", "Cannot read property '" + key + "' of null"))
    case JObject(members) => Ok(if key in members then Some(members[key]) else None)
    case _ => Ok(None)
  }

  const InvalidSchema: Error := Error("Error", "Invalid schema provided!")

  function LocateFailure(path: string): string {
    "Unable to locate local introspection file: " + path
  }

  function ReadFailure(path: string): string {
    "Unable to read local introspection file: " + path
  }

  /** Replaces the parsed value by its `data` member when that member is truthy. */
  function Unwrap(value: Json): (r: Result<Json>)
    ensures value.JNull? <==> r.Err?
    ensures r.Ok? && Truthy(Property(value, "data").value) ==> r.value == value.members["data"]
    ensures r.Ok? && !Truthy(Property(value, "data").value) ==> r.value == value
  {
    match Property(value, "data")
    case Err(e) => Err(e)
    case Ok(data) => Ok(if Truthy(data) then data.value else value)
  }

  /** What follows a successful unwrap: `__schema` must be truthy, then the
      schema is built, printed and re-parsed; any error rejects. */
  function CheckSchema(introspection: Json, host: JsonHost): Settled<AstDocument>
    requires !introspection.JNull?
  {
    if !Truthy(Property(introspection, "__schema").value) then Rejected(Thrown(InvalidSchema))
    else match host.buildAndPrint(introspection)
      case Err(e) => Rejected(Thrown(e))
      case Ok(printed) =>
        match host.parse(printed)
        case Err(e) => Rejected(Thrown(e))
        case Ok(doc) => Fulfilled(doc)
  }

  /** The promise `loadFromJsonFile(path)` settles with: the first of
      resolve/reject that runs decides it. */
  function JsonLoadOutcome(path: string, host: JsonHost): Settled<AstDocument> {
    match host.file(path)
    case Missing => Rejected(Message(LocateFailure(path)))
    case Unreadable(e) => Rejected(Thrown(e))
    case Contents(text) =>
      if text == "" then Rejected(Message(ReadFailure(path)))
      else match ParseBOM(text, host)
        case Err(e) => Rejected(Thrown(e))
        case Ok(parsed) =>
          match Unwrap(parsed)
          case Err(e) => Rejected(Thrown(e))
          case Ok(introspection) => CheckSchema(introspection, host)
  }

  /** Settling a promise that has already settled has no effect. */
  function Settle(state: Option<Settled<AstDocument>>, outcome: Settled<AstDocument>): (r: Option<Settled<AstDocument>>)
    ensures r.Some?
    ensures state.Some? ==> r == state
    ensures state.None? ==> r == Some(outcome)
  {
    if state.None? then Some(outcome) else state
  }

  /** `loadFromJsonFile`, step by step. The empty-content rejection does not
      stop the executor: parsing goes on, and whatever it settles later is
      ignored because the promise is already rejected. */
  method LoadFromJsonFile(path: string, host: JsonHost) returns (outcome: Settled<AstDocument>)
    ensures outcome == JsonLoadOutcome(path, host)
  {
    var state: Option<Settled<AstDocument>> := None;
    var read := host.file(path);
    if read.Missing? {
      state := Settle(state, Rejected(Message(LocateFailure(path))));
    } else if read.Unreadable? {
      state := Settle(state, Rejected(Thrown(read.error)));
    } else {
      var fileContent := read.text;
      if fileContent == "" {
        state := Settle(state, Rejected(Message(ReadFailure(path))));
      }
      var parsed := ParseBOM(fileContent, host);
      if parsed.Err? {
        state := Settle(state, Rejected(Thrown(parsed.error)));
      } else {
        var introspection := parsed.value;
        var data := Property(introspection, "data");
        if data.Err? {
          state := Settle(state, Rejected(Thrown(data.error)));
        } else {
          if Truthy(data.value) {
            introspection := data.value.value;
          }
          var schema := Property(introspection, "__schema").value;
          if !Truthy(schema) {
            state := Settle(state, Rejected(Thrown(InvalidSchema)));
          } else {
            var printed := host.buildAndPrint(introspection);
            if printed.Err? {
              state := Settle(state, Rejected(Thrown(printed.error)));
            } else {
              var doc := host.parse(printed.value);
              if doc.Err? {
                state := Settle(state, Rejected(Thrown(doc.error)));
              } else {
                state := Settle(state, Fulfilled(doc.value));
              }
            }
          }
        }
      }
    }
    outcome := state.value;
  }

  /** The loader fulfils exactly when the file exists, is readable and
      non-empty, parses, and (after unwrapping `data`) has a truthy
      `__schema` that builds, prints and re-parses; the document is then the
      parse of the printed schema. */
  lemma {:induction false} JsonLoadFulfilledIff(path: string, host: JsonHost, doc: AstDocument)
    ensures JsonLoadOutcome(path, host) == Fulfilled(doc) <==>
      exists text, parsed, introspection, printed ::
        && host.file(path) == Contents(text) && text != ""
        && ParseBOM(text, host) == Ok(parsed)
        && Unwrap(parsed) == Ok(introspection)
        && Truthy(Property(introspection, "__schema").value)
        && host.buildAndPrint(introspection) == Ok(printed)
        && host.parse(printed) == Ok(doc)
  {
    if JsonLoadOutcome(path, host) == Fulfilled(doc) {
      var text := host.file(path).text;
      var parsed := ParseBOM(text, host).value;
      var introspection := Unwrap(parsed).value;
      var printed := host.buildAndPrint(introspection).value;
      assert host.parse(printed) == Ok(doc);
    }
  }

  /** A parsed object without a truthy `data` and without a truthy
      `__schema` rejects with the "Invalid schema provided!" error. */
  lemma InvalidSchemaRejects(path: string, host: JsonHost, text: string, members: map<string, Json>)
    requires host.file(path) == Contents(text) && text != ""
    requires ParseBOM(text, host) == Ok(JObject(members))
    requires !Truthy(Property(JObject(members), "data").value)
    requires !Truthy(Property(JObject(members), "__schema").value)
    ensures JsonLoadOutcome(path, host) == Rejected(Thrown(Error("Error", "Invalid schema provided!")))
  {
  }

  /** A truthy `data` envelope is what gets validated: the outcome is that
      of checking the envelope's content on its own. */
  lemma DataEnvelopeIsValidated(path: string, host: JsonHost, text: string, parsed: Json)
    requires host.file(path) == Contents(text) && text != ""
    requires ParseBOM(text, host) == Ok(parsed)
    requires parsed.JObject? && "data" in parsed.members && Truthy(Some(parsed.members["data"]))
    ensures JsonLoadOutcome(path, host) == CheckSchema(parsed.members["data"], host)
  {
  }

  /** A missing file rejects with the "Unable to locate" message; an empty
      one with the "Unable to read" message, whatever parsing would do. */
  lemma FileFailures(path: string, host: JsonHost)
    ensures host.file(path) == Missing ==>
      JsonLoadOutcome(path, host) == Rejected(Message("Unable to locate local introspection file: " + path))
    ensures host.file(path) == Contents("") ==>
      JsonLoadOutcome(path, host) == Rejected(Message("Unable to read local introspection file: " + path))
  {
  }
}
