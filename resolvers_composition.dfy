/** Resolver composition: a resolver map is a nested JavaScript value
    (types holding fields holding resolver functions or `{ resolve,
    subscribe }` objects). A composition mapping names paths into it
    (`Type`, `Type.field`, `Type.*`, or a type with per-field entries);
    `composeResolvers` expands those paths, then replaces the value at each
    concrete path by the compositions applied to it. */
module ResolversComposition {
  import opened Results
  import opened Strings
  import opened Seqs
  import opened Dicts

  /** A JavaScript value as the resolver map holds it. `Prim` is a boolean,
      number or string, with its truthiness; `Object` is a plain object,
      an array or (when `callable`) a function, with its own enumerable
      properties in `Object.keys` order. */
  datatype Value =
    | Undefined
    | Null
    | Prim(truthy: bool)
    | Object(callable: bool, props: Dict<Value>)

  predicate Truthy(v: Value) {
    match v
    case Undefined => false
    case Null => false
    case Prim(t) => t
    case Object(_, _) => true
  }

  function TypeError(message: string): Error {
    Error("TypeError", message)
  }

  /** `v[k]`: reading from `undefined` or `null` throws; a primitive has no
      own properties here. */
  function Member(v: Value, k: string): (r: Result<Value>)
    ensures r.Err? <==> v.Undefined? || v.Null?
    ensures v.Object? ==> r == Ok(if k in v.props.entries then v.props.entries[k] else Undefined)
    ensures v.Prim? ==> r == Ok(Undefined)
  {
    match v
    case Undefined => Err(TypeError("Cannot read property '" + k + "' of undefined"))
    case Null => Err(TypeError("Cannot read property '" + k + "' of null"))
    case Prim(_) => Ok(Undefined)
    case Object(_, props) => Ok(if k in props.entries then props.entries[k] else Undefined)
  }

  /** `v[k] = x` in strict mode: only an object accepts the property. */
  function WithMember(v: Value, k: string, x: Value): (r: Result<Value>)
    ensures r.Ok? <==> v.Object?
    ensures r.Ok? ==> r.value.Object? && r.value.callable == v.callable && r.value.props == v.props.Put(k, x)
  {
    match v
    case Object(c, props) => Ok(Object(c, props.Put(k, x)))
    case Prim(_) => Err(TypeError("Cannot create property '" + k + "' on primitive"))
    case _ => Err(TypeError("Cannot set property '" + k + "' of " + (if v.Null? then "null" else "undefined")))
  }

  /** Reading back a property just written gives the written value; any
      other property reads as before. */
  lemma MemberAfterWrite(v: Value, k: string, x: Value, k': string)
    requires WithMember(v, k, x).Ok?
    ensures Member(WithMember(v, k, x).value, k') == if k' == k then Ok(x) else Member(v, k')
  {
  }

  /** `Object.keys(v)`: throws on `undefined` and `null`. */
  function Keys(v: Value): (r: Result<seq<string>>)
    ensures r.Err? <==> v.Undefined? || v.Null?
    ensures v.Object? ==> r == Ok(v.props.keys)
    ensures v.Prim? ==> r == Ok([])
  {
    match v
    case Undefined => Err(TypeError("Cannot convert undefined or null to object"))
    case Null => Err(TypeError("Cannot convert undefined or null to object"))
    case Prim(_) => Ok([])
    case Object(_, props) => Ok(props.keys)
  }

  // ---------------------------------------------------------------------
  // get and set

  /** What `get` computes for the segments of a path: each segment read
      from the previous value, starting at the root. */
  function GetPath(v: Value, segs: seq<string>): Result<Value>
    decreases |segs|
  {
    if segs == [] then Ok(v)
    else match Member(v, segs[0])
      case Err(e) => Err(e)
      case Ok(child) => GetPath(child, segs[1..])
  }

  /** One more segment reads one more property of what the shorter path
      reached. */
  lemma {:induction false} GetPathSnoc(v: Value, segs: seq<string>, k: string)
    ensures GetPath(v, segs + [k]) ==
      match GetPath(v, segs)
      case Err(e) => Err(e)
      case Ok(d) => Member(d, k)
    decreases |segs|
  {
    if segs == [] {
      assert [] + [k] == [k];
      assert [k][1..] == [];
    } else {
      assert (segs + [k])[0] == segs[0];
      assert (segs + [k])[1..] == segs[1..] + [k];
      match Member(v, segs[0])
      case Err(e) =>
      case Ok(child) => GetPathSnoc(child, segs[1..], k);
    }
  }

  /** A path read from a readable first property is the rest of the path
      read from that property. */
  lemma GetPathCons(v: Value, k: string, rest: seq<string>)
    requires Member(v, k).Ok?
    ensures GetPath(v, [k] + rest) == GetPath(Member(v, k).value, rest)
  {
    assert ([k] + rest)[0] == k && ([k] + rest)[1..] == rest;
  }

  /** A read that fails at some segment fails for every longer path. */
  lemma {:induction false} GetPathErrPropagates(v: Value, segs: seq<string>, more: seq<string>)
    requires GetPath(v, segs).Err?
    ensures GetPath(v, segs + more) == GetPath(v, segs)
    decreases |segs|
  {
    assert segs != [];
    assert (segs + more)[0] == segs[0];
    assert (segs + more)[1..] == segs[1..] + more;
    match Member(v, segs[0])
    case Err(e) =>
    case Ok(child) => GetPathErrPropagates(child, segs[1..], more);
  }

  /** What `set` computes, as a value: at every step whose segment equals
      the LAST segment of the path, that property of the current value is
      assigned `val`; the cursor then moves into the property; the objects
      passed on the way hold the updated children. */
  function SetPath(v: Value, segs: seq<string>, val: Value): Result<Value>
    decreases |segs|
  {
    if segs == [] then Ok(v)
    else
      var k := segs[0];
      match (if k == segs[|segs| - 1] then WithMember(v, k, val) else Ok(v))
      case Err(e) => Err(e)
      case Ok(here) =>
        match Member(here, k)
        case Err(e) => Err(e)
        case Ok(child) =>
          match SetPath(child, segs[1..], val)
          case Err(e) => Err(e)
          case Ok(updated) => WithMember(here, k, updated)
  }

  /** The last segment does not occur earlier in the path, so `set`
      assigns once, at the end. */
  predicate LastOnlyAtEnd(segs: seq<string>) {
    forall j :: 0 <= j < |segs| - 1 ==> segs[j] != segs[|segs| - 1]
  }

  /** `set` compares segment NAMES with the last one, not positions: on
      `Type.Type` it first replaces the whole type by `val`, then writes
      `val` into itself under that name. */
  lemma RepeatedSegmentReplacesType(root: Value, t: string, val: Value)
    requires root.Object? && val.Object?
    ensures SetPath(root, [t, t], val).Ok?
    ensures GetPath(SetPath(root, [t, t], val).value, [t]) == WithMember(val, t, val)
  {
    var inner := WithMember(val, t, val).value;
    MemberAfterWrite(val, t, val, t);
    assert inner.props.Put(t, val) == inner.props;
    SetPathStep(val, [t], val);
    assert [t][1..] == [];
    assert SetPath(val, [t], val) == Ok(inner);
    var here := WithMember(root, t, val).value;
    MemberAfterWrite(root, t, val, t);
    SetPathStep(root, [t, t], val);
    assert [t, t][1..] == [t];
    var w := WithMember(here, t, inner).value;
    assert SetPath(root, [t, t], val) == Ok(w);
    MemberAfterWrite(here, t, inner, t);
    GetPathCons(w, t, []);
    assert [t] + [] == [t];
  }

  /** Two segment lists part ways: at some position both have a segment
      and the segments differ. */
  predicate Diverge(a: seq<string>, b: seq<string>)
    decreases |a|
  {
    |a| > 0 && |b| > 0 && (a[0] != b[0] || Diverge(a[1..], b[1..]))
  }

  /** After a successful `set` whose last segment is not repeated, `get` of
      the same path returns the value set. */
  lemma {:induction false} SetThenGet(v: Value, segs: seq<string>, val: Value)
    requires segs != [] && LastOnlyAtEnd(segs)
    requires SetPath(v, segs, val).Ok?
    ensures GetPath(SetPath(v, segs, val).value, segs) == Ok(val)
    decreases |segs|
  {
    var k := segs[0];
    var w := SetPath(v, segs, val).value;
    if |segs| == 1 {
      var here := WithMember(v, k, val).value;
      MemberAfterWrite(v, k, val, k);
      MemberAfterWrite(here, k, val, k);
      assert segs[1..] == [];
    } else {
      var rest := segs[1..];
      assert k != segs[|segs| - 1];
      assert rest[|rest| - 1] == segs[|segs| - 1];
      assert LastOnlyAtEnd(rest) by {
        forall j | 0 <= j < |rest| - 1 ensures rest[j] != rest[|rest| - 1] {
          assert rest[j] == segs[j + 1];
        }
      }
      var child := Member(v, k).value;
      SetThenGet(child, rest, val);
      var updated := SetPath(child, rest, val).value;
      MemberAfterWrite(v, k, updated, k);
    }
  }

  /** `set` with an unrepeated last segment leaves every path that parts
      ways with it as it was. */
  lemma {:induction false} SetLeavesOtherPaths(v: Value, segs: seq<string>, val: Value, q: seq<string>)
    requires LastOnlyAtEnd(segs) && Diverge(segs, q)
    requires SetPath(v, segs, val).Ok?
    ensures GetPath(SetPath(v, segs, val).value, q) == GetPath(v, q)
    decreases |segs|
  {
    var k := segs[0];
    var rest := segs[1..];
    var w := SetPath(v, segs, val).value;
    var here := (if k == segs[|segs| - 1] then WithMember(v, k, val) else Ok(v)).value;
    var child := Member(here, k).value;
    var updated := SetPath(child, rest, val).value;
    assert w == WithMember(here, k, updated).value;
    if q[0] != k {
      MemberAfterWrite(here, k, updated, q[0]);
      if k == segs[|segs| - 1] {
        MemberAfterWrite(v, k, val, q[0]);
      }
    } else {
      assert Diverge(rest, q[1..]);
      assert k != segs[|segs| - 1];
      assert rest[|rest| - 1] == segs[|segs| - 1];
      assert LastOnlyAtEnd(rest) by {
        forall j | 0 <= j < |rest| - 1 ensures rest[j] != rest[|rest| - 1] {
          assert rest[j] == segs[j + 1];
        }
      }
      SetLeavesOtherPaths(child, rest, val, q[1..]);
      MemberAfterWrite(v, k, updated, k);
    }
  }

  // ---------------------------------------------------------------------
  // resolveRelevantMappings

  /** The value at a path is readable and truthy. */
  predicate TruthyAt(root: Value, segs: seq<string>) {
    GetPath(root, segs).Ok? && Truthy(GetPath(root, segs).value)
  }

  /** The value at a path is readable and a function. */
  predicate CallableAt(root: Value, segs: seq<string>) {
    GetPath(root, segs).Ok? && GetPath(root, segs).value.Object? && GetPath(root, segs).value.callable
  }

  /** The two field properties whose paths `Type.field` reports. */
  const Subscribe: string := "subscribe"
  const Resolve: string := "resolve"

  lemma HookNamesHaveNoDot()
    ensures '.' !in Subscribe && '.' !in Resolve
  {
    assert forall i :: 0 <= i < |Subscribe| ==> Subscribe[i] != '.';
    assert forall i :: 0 <= i < |Resolve| ==> Resolve[i] != '.';
  }

  /** The paths `Type.field` may report, in the order they are pushed. */
  function Candidates(path: string): seq<string> {
    [path + "." + Subscribe, path + "." + Resolve, path]
  }

  /** The two-segment branch for `typeName.fieldName` (not `*`): when the
      type and the field are truthy, `.subscribe` and `.resolve` when those
      properties are truthy, then the bare path when the field is a
      function. */
  function FieldPaths(root: Value, typeName: string, fieldName: string): (r: Result<seq<string>>)
    ensures r.Err? <==> root.Undefined? || root.Null?
  {
    match Member(root, typeName)
    case Err(e) => Err(e)
    case Ok(typeValue) =>
      if !Truthy(typeValue) then Ok([])
      else
        var field := Member(typeValue, fieldName).value;
        if !Truthy(field) then Ok([])
        else
          var path := typeName + "." + fieldName;
          Ok((if Truthy(Member(field, Subscribe).value) then [path + "." + Subscribe] else [])
            + (if Truthy(Member(field, Resolve).value) then [path + "." + Resolve] else [])
            + (if field.Object? && field.callable then [path] else []))
  }

  /** The error `resolveRelevantMappings` ends in when a type has a field
      named `*`: `Type.*` expands `Type.*` again, without end. */
  const StackOverflow: Error := Error("RangeError", "Maximum call stack size exceeded")

  /** The recursive call for `${typeName}.${field}`, `field` a key of the
      type: a field name holding a dot makes a path of three or more
      segments; `*` re-enters the `Type.*` expansion it came from. */
  function ExpandField(root: Value, typeName: string, field: string): Result<seq<string>> {
    if '.' in field then Ok([])
    else if field == "*" then Err(StackOverflow)
    else FieldPaths(root, typeName, field)
  }

  /** `flattenArray(fields.map(field => ...))`: the expansions one after the
      other; the first that throws ends the map. */
  function ExpandFields(root: Value, typeName: string, fields: seq<string>): Result<seq<string>>
    decreases |fields|
  {
    if fields == [] then Ok([])
    else match ExpandField(root, typeName, fields[0])
      case Err(e) => Err(e)
      case Ok(first) =>
        match ExpandFields(root, typeName, fields[1..])
        case Err(e) => Err(e)
        case Ok(more) => Ok(first + more)
  }

  /** `Object.keys(resolvers[typeName])`. */
  function FieldNames(root: Value, typeName: string): Result<seq<string>> {
    match Member(root, typeName)
    case Err(e) => Err(e)
    case Ok(typeValue) => Keys(typeValue)
  }

  /** `Type.*`: the expansion of every field of the type, without the paths
      that are themselves keys of the mapping. */
  function StarPaths(root: Value, typeName: string, mappingKeys: set<string>): Result<seq<string>> {
    match FieldNames(root, typeName)
    case Err(e) => Err(e)
    case Ok(fields) =>
      match ExpandFields(root, typeName, fields)
      case Err(e) => Err(e)
      case Ok(paths) => Ok(Filter(paths, (p: string) => p !in mappingKeys))
  }

  /** `Type`: the expansion of every field of the type. */
  function TypePaths(root: Value, typeName: string): Result<seq<string>> {
    match FieldNames(root, typeName)
    case Err(e) => Err(e)
    case Ok(fields) => ExpandFields(root, typeName, fields)
  }

  /** `resolveRelevantMappings(resolvers, path, allMappings)`; a mapping
      entry is always truthy, so `!allMappings[p]` holds exactly when `p` is
      not a key of the mapping. */
  function RelevantPaths(root: Value, path: string, mappingKeys: set<string>): Result<seq<string>> {
    var segs := Split(path, '.');
    if |segs| == 2 then
      if segs[1] == "*" then StarPaths(root, segs[0], mappingKeys)
      else FieldPaths(root, segs[0], segs[1])
    else if |segs| == 1 then TypePaths(root, segs[0])
    else Ok([])
  }

  /** Every path `resolveRelevantMappings` reports is one `get` can read,
      and what it reads there is truthy. */
  lemma RelevantPathsResolve(root: Value, path: string, mappingKeys: set<string>, x: string)
    requires RelevantPaths(root, path, mappingKeys).Ok? && x in RelevantPaths(root, path, mappingKeys).value
    ensures TruthyAt(root, Split(x, '.'))
  {
    var segs := Split(path, '.');
    var t := segs[0];
    if |segs| == 2 && segs[1] != "*" {
      ReportedPathsResolve(root, t, segs[1], x);
    } else {
      if |segs| == 2 {
        StarExpansion(root, t, mappingKeys);
      } else {
        TypeExpansion(root, t);
      }
      var f :| f in FieldNames(root, t).value && ExpandField(root, t, f).Ok? && x in ExpandField(root, t, f).value;
      ReportedPathsResolve(root, t, f, x);
    }
  }

  /** Optional pushes of three items keep their order. */
  lemma PushOrder(a: string, b: string, c: string, x: bool, y: bool, z: bool)
    ensures Subsequence((if x then [a] else []) + (if y then [b] else []) + (if z then [c] else []), [a, b, c])
  {
    var tail := [a, b, c][1..];
    assert tail == [b, c] && tail[1..] == [c] && [c][1..] == [];
    var rz: seq<string> := if z then [c] else [];
    assert Subsequence(rz, [c]) by {
      if z { assert rz[1..] == []; }
    }
    var ryz := (if y then [b] else []) + rz;
    assert Subsequence(ryz, [b, c]) by {
      if y { assert ryz[0] == b && ryz[1..] == rz; } else { assert ryz == rz; }
    }
    var r := (if x then [a] else []) + ryz;
    if x { assert r[0] == a && r[1..] == ryz; } else { assert r == ryz; }
  }

  /** Splitting `t.f` and `t.f.g` on dots when no piece holds a dot. */
  lemma SplitFieldPath(t: string, f: string, g: string)
    requires '.' !in t && '.' !in f && '.' !in g
    ensures Split(t + "." + f, '.') == [t, f]
    ensures Split(t + "." + f + "." + g, '.') == [t, f, g]
  {
    SplitNoSeparator(f, '.');
    SplitNoSeparator(g, '.');
    assert t + "." + f == t + ['.'] + f;
    SplitJoined(t, '.', f);
    SplitJoined(f, '.', g);
    assert t + "." + f + "." + g == t + ['.'] + (f + ['.'] + g);
    SplitJoined(t, '.', f + ['.'] + g);
  }

  /** `Type.field` reports exactly the candidates whose target `get` finds:
      `.subscribe` and `.resolve` when those properties are truthy, the bare
      path when the field is a function, all only when the type and the
      field are truthy; and in push order. */
  lemma FieldPathsExact(root: Value, t: string, f: string)
    requires FieldPaths(root, t, f).Ok?
    ensures var r := FieldPaths(root, t, f).value;
      var p := t + "." + f;
      && Subsequence(r, Candidates(p))
      && (p + "." + Subscribe in r <==> TruthyAt(root, [t]) && TruthyAt(root, [t, f]) && TruthyAt(root, [t, f, Subscribe]))
      && (p + "." + Resolve in r <==> TruthyAt(root, [t]) && TruthyAt(root, [t, f]) && TruthyAt(root, [t, f, Resolve]))
      && (p in r <==> TruthyAt(root, [t]) && TruthyAt(root, [t, f]) && CallableAt(root, [t, f]))
  {
    var r := FieldPaths(root, t, f).value;
    var p := t + "." + f;
    var sub, res := p + "." + Subscribe, p + "." + Resolve;
    assert sub != p && res != p by {
      assert |sub| > |p| && |res| > |p|;
    }
    assert sub != res by {
      assert sub[|p| + 1] == 's' && res[|p| + 1] == 'r';
    }
    var typeValue := Member(root, t).value;
    FieldReads(root, t, f, Subscribe);
    FieldReads(root, t, f, Resolve);
    if !Truthy(typeValue) {
      assert r == [];
    } else {
      var field := Member(typeValue, f).value;
      if !Truthy(field) {
        assert r == [];
      } else {
        PushOrder(sub, res, p, Truthy(Member(field, Subscribe).value), Truthy(Member(field, Resolve).value),
          field.Object? && field.callable);
      }
    }
  }

  /** What `get` reads along `t`, `t.f` and `t.f.h`. */
  lemma FieldReads(root: Value, t: string, f: string, h: string)
    requires Member(root, t).Ok?
    ensures var typeValue := Member(root, t).value;
      && GetPath(root, [t]) == Ok(typeValue)
      && GetPath(root, [t, f]) == Member(typeValue, f)
      && (Member(typeValue, f).Ok? ==> GetPath(root, [t, f, h]) == Member(Member(typeValue, f).value, h))
  {
    var typeValue := Member(root, t).value;
    assert [t] == [t] + [] && [t, f] == [t] + [f] && [t, f, h] == [t] + [f, h];
    assert [f] == [f] + [] && [f, h] == [f] + [h] && [h] == [h] + [];
    GetPathCons(root, t, []);
    GetPathCons(root, t, [f]);
    GetPathCons(root, t, [f, h]);
    if Member(typeValue, f).Ok? {
      var field := Member(typeValue, f).value;
      GetPathCons(typeValue, f, []);
      GetPathCons(typeValue, f, [h]);
      if Member(field, h).Ok? {
        GetPathCons(field, h, []);
      } else {
        assert GetPath(field, [h]) == Member(field, h);
      }
    } else {
      assert GetPath(typeValue, [f]) == Member(typeValue, f);
      assert GetPath(typeValue, [f, h]) == Member(typeValue, f);
    }
  }

  /** The paths `Type.field` reports are paths `get` reads a truthy value
      from. */
  lemma ReportedPathsResolve(root: Value, t: string, f: string, x: string)
    requires '.' !in t && '.' !in f
    requires FieldPaths(root, t, f).Ok? && x in FieldPaths(root, t, f).value
    ensures TruthyAt(root, Split(x, '.'))
  {
    FieldPathsExact(root, t, f);
    HookNamesHaveNoDot();
    var p := t + "." + f;
    assert x in Candidates(p);
    if x == p + "." + Subscribe {
      SplitFieldPath(t, f, Subscribe);
    } else if x == p + "." + Resolve {
      SplitFieldPath(t, f, Resolve);
    } else {
      SplitFieldPath(t, f, Resolve);
    }
  }

  /** The recursive calls of the `Type` and `Type.*` branches, on
      `${typeName}.${field}`: a field name with a dot gives a path of three
      or more segments and expands to nothing; `*` expands `Type.*` again;
      any other name is the `Type.field` branch. */
  lemma {:induction false} FieldExpansionIsRecursiveCall(root: Value, t: string, f: string, mappingKeys: set<string>)
    requires '.' !in t
    ensures f != "*" ==> RelevantPaths(root, t + "." + f, mappingKeys) == ExpandField(root, t, f)
    ensures f == "*" ==> RelevantPaths(root, t + "." + f, mappingKeys) == StarPaths(root, t, mappingKeys)
  {
    assert t + "." + f == t + ['.'] + f;
    SplitJoined(t, '.', f);
    if '.' in f {
      SplitSeparatorPresent(f, '.');
    } else {
      SplitNoSeparator(f, '.');
      assert Split(t + "." + f, '.') == [t, f];
    }
  }

  /** A path with two or more dots expands to nothing. */
  lemma LongPathsExpandToNothing(root: Value, path: string, mappingKeys: set<string>)
    requires Occurrences(path, '.') >= 2
    ensures RelevantPaths(root, path, mappingKeys) == Ok([])
  {
    SplitPieces(path, '.');
  }

  /** When no field's expansion throws, the expansion of the list is the
      fields' expansions flattened in field order. */
  lemma {:induction false} ExpandFieldsFlatten(root: Value, t: string, fields: seq<string>)
    requires forall i :: 0 <= i < |fields| ==> ExpandField(root, t, fields[i]).Ok?
    ensures ExpandFields(root, t, fields) ==
      Ok(Flatten(seq(|fields|, i requires 0 <= i < |fields| => ExpandField(root, t, fields[i]).value)))
    decreases |fields|
  {
    if fields != [] {
      var parts := seq(|fields|, i requires 0 <= i < |fields| => ExpandField(root, t, fields[i]).value);
      forall i | 0 <= i < |fields[1..]| ensures ExpandField(root, t, fields[1..][i]).Ok? {
        assert fields[1..][i] == fields[i + 1];
      }
      ExpandFieldsFlatten(root, t, fields[1..]);
      assert parts[1..] == seq(|fields[1..]|, i requires 0 <= i < |fields[1..]| => ExpandField(root, t, fields[1..][i]).value);
    }
  }

  /** The expansion of a list of fields fails exactly when one field's
      does; otherwise it holds exactly the paths of the fields'. */
  lemma {:induction false} ExpandFieldsSpec(root: Value, t: string, fields: seq<string>)
    ensures ExpandFields(root, t, fields).Err? <==>
      exists i :: 0 <= i < |fields| && ExpandField(root, t, fields[i]).Err?
    ensures ExpandFields(root, t, fields).Ok? ==> forall x ::
      x in ExpandFields(root, t, fields).value <==>
        exists i :: 0 <= i < |fields| && ExpandField(root, t, fields[i]).Ok? && x in ExpandField(root, t, fields[i]).value
    decreases |fields|
  {
    if fields != [] {
      ExpandFieldsSpec(root, t, fields[1..]);
      var head := ExpandField(root, t, fields[0]);
      var tail := ExpandFields(root, t, fields[1..]);
      if exists i :: 0 <= i < |fields[1..]| && ExpandField(root, t, fields[1..][i]).Err? {
        var i :| 0 <= i < |fields[1..]| && ExpandField(root, t, fields[1..][i]).Err?;
        assert fields[1..][i] == fields[i + 1];
      }
      if exists i :: 0 <= i < |fields| && ExpandField(root, t, fields[i]).Err? {
        var i :| 0 <= i < |fields| && ExpandField(root, t, fields[i]).Err?;
        if i > 0 {
          assert fields[i] == fields[1..][i - 1];
        }
      }
      if head.Ok? && tail.Ok? {
        forall x | x in ExpandFields(root, t, fields).value
          ensures exists i :: 0 <= i < |fields| && ExpandField(root, t, fields[i]).Ok? && x in ExpandField(root, t, fields[i]).value
        {
          if x !in head.value {
            var i :| 0 <= i < |fields[1..]| && ExpandField(root, t, fields[1..][i]).Ok? && x in ExpandField(root, t, fields[1..][i]).value;
            assert fields[1..][i] == fields[i + 1];
          }
        }
        forall x | exists i :: 0 <= i < |fields| && ExpandField(root, t, fields[i]).Ok? && x in ExpandField(root, t, fields[i]).value
          ensures x in ExpandFields(root, t, fields).value
        {
          var i :| 0 <= i < |fields| && ExpandField(root, t, fields[i]).Ok? && x in ExpandField(root, t, fields[i]).value;
          if i > 0 {
            assert fields[i] == fields[1..][i - 1];
          }
        }
      }
    }
  }

  /** Once the type is readable, a field's expansion fails only for a
      field named `*`. */
  lemma ExpandFieldFails(root: Value, t: string, f: string)
    requires FieldNames(root, t).Ok?
    ensures ExpandField(root, t, f).Err? <==> f == "*"
  {
  }

  /** `Type.*`: it fails when the type cannot be read or listed, or has a
      field named `*`; otherwise it holds exactly the paths of the type's
      fields that are not keys of the mapping. */
  lemma StarExpansion(root: Value, t: string, mappingKeys: set<string>)
    ensures var r := StarPaths(root, t, mappingKeys);
      && (r.Err? <==> FieldNames(root, t).Err? || "*" in FieldNames(root, t).value)
      && (r.Ok? ==> forall x :: x in r.value <==>
            && x !in mappingKeys
            && exists f :: f in FieldNames(root, t).value && ExpandField(root, t, f).Ok? && x in ExpandField(root, t, f).value)
  {
    var names := FieldNames(root, t);
    if names.Ok? {
      var fields := names.value;
      ExpandFieldsSpec(root, t, fields);
      forall f ensures ExpandField(root, t, f).Err? <==> f == "*" {
        ExpandFieldFails(root, t, f);
      }
      var expanded := ExpandFields(root, t, fields);
      if "*" in fields {
        var i :| 0 <= i < |fields| && fields[i] == "*";
        assert ExpandField(root, t, fields[i]).Err?;
      }
      if expanded.Ok? {
        FilterSpec(expanded.value, (p: string) => p !in mappingKeys);
        forall x | x in expanded.value
          ensures exists f :: f in fields && ExpandField(root, t, f).Ok? && x in ExpandField(root, t, f).value
        {
          var i :| 0 <= i < |fields| && ExpandField(root, t, fields[i]).Ok? && x in ExpandField(root, t, fields[i]).value;
        }
        forall x | exists f :: f in fields && ExpandField(root, t, f).Ok? && x in ExpandField(root, t, f).value
          ensures x in expanded.value
        {
          var f :| f in fields && ExpandField(root, t, f).Ok? && x in ExpandField(root, t, f).value;
          var i :| 0 <= i < |fields| && fields[i] == f;
        }
      }
    }
  }

  /** `Type`: the same fields and failures as `Type.*`, with nothing
      excluded. */
  lemma TypeExpansion(root: Value, t: string)
    ensures var r := TypePaths(root, t);
      && (r.Err? <==> FieldNames(root, t).Err? || "*" in FieldNames(root, t).value)
      && (r.Ok? ==> forall x :: x in r.value <==>
            exists f :: f in FieldNames(root, t).value && ExpandField(root, t, f).Ok? && x in ExpandField(root, t, f).value)
  {
    var names := FieldNames(root, t);
    if names.Ok? {
      var fields := names.value;
      ExpandFieldsSpec(root, t, fields);
      forall f ensures ExpandField(root, t, f).Err? <==> f == "*" {
        ExpandFieldFails(root, t, f);
      }
      if "*" in fields {
        var i :| 0 <= i < |fields| && fields[i] == "*";
        assert ExpandField(root, t, fields[i]).Err?;
      }
      var expanded := ExpandFields(root, t, fields);
      if expanded.Ok? {
        forall x | x in expanded.value
          ensures exists f :: f in fields && ExpandField(root, t, f).Ok? && x in ExpandField(root, t, f).value
        {
          var i :| 0 <= i < |fields| && ExpandField(root, t, fields[i]).Ok? && x in ExpandField(root, t, fields[i]).value;
        }
        forall x | exists f :: f in fields && ExpandField(root, t, f).Ok? && x in ExpandField(root, t, f).value
          ensures x in expanded.value
        {
          var f :| f in fields && ExpandField(root, t, f).Ok? && x in ExpandField(root, t, f).value;
          var i :| 0 <= i < |fields| && fields[i] == f;
        }
      }
    }
  }

  // ---------------------------------------------------------------------
  // The composition mapping and `mappingResult`

  /** A resolvers composition `(next) => resolver`, known by identity; what
      it returns for a given resolver is up to `apply`. */
  datatype Composition = Composition(id: nat)

  /** A mapping value: one composition or an array of them. */
  datatype Compositions = One(composition: Composition) | Many(list: seq<Composition>)

  /** `asArray`. */
  function AsArray(c: Compositions): (r: seq<Composition>)
    ensures c.One? ==> r == [c.composition]
    ensures c.Many? ==> r == c.list
  {
    match c
    case One(f) => [f]
    case Many(fs) => fs
  }

  /** A key of the mapping names a path with its compositions, or a type
      with compositions per field name. */
  datatype MappingEntry = Direct(compositions: Compositions) | PerField(fields: Dict<Compositions>)

  type Mapping = Dict<MappingEntry>

  /** The table `mappingResult`: concrete path to compositions. */
  type Table = Dict<seq<Composition>>

  type Write = (string, seq<Composition>)

  ghost predicate ValidMapping(mapping: Mapping) {
    && mapping.Valid()
    && forall k :: k in mapping.entries && mapping.entries[k].PerField? ==> mapping.entries[k].fields.Valid()
  }

  /** `paths.forEach(path => mappingResult[path] = fns)` as a list of writes. */
  function Pairs(paths: seq<string>, fns: seq<Composition>): (w: seq<Write>)
    ensures |w| == |paths|
    ensures forall i :: 0 <= i < |w| ==> w[i] == (paths[i], fns)
  {
    seq(|paths|, i requires 0 <= i < |paths| => (paths[i], fns))
  }

  lemma PairsSnoc(paths: seq<string>, p: string, fns: seq<Composition>)
    ensures Pairs(paths + [p], fns) == Pairs(paths, fns) + [(p, fns)]
  {
  }

  /** The writes of the per-field entries `names` of the type key
      `typePath`, in order. */
  function FieldWrites(root: Value, mappingKeys: set<string>, typePath: string, fields: Dict<Compositions>, names: seq<string>): Result<seq<Write>>
    requires forall n :: n in names ==> n in fields.entries
    decreases |names|
  {
    if names == [] then Ok([])
    else
      var m := |names| - 1;
      match FieldWrites(root, mappingKeys, typePath, fields, names[..m])
      case Err(e) => Err(e)
      case Ok(before) =>
        match RelevantPaths(root, typePath + "." + names[m], mappingKeys)
        case Err(e) => Err(e)
        case Ok(paths) => Ok(before + Pairs(paths, AsArray(fields.entries[names[m]])))
  }

  /** The writes one mapping key makes. */
  function EntryWrites(root: Value, mappingKeys: set<string>, key: string, entry: MappingEntry): Result<seq<Write>>
    requires entry.PerField? ==> entry.fields.Valid()
  {
    match entry
    case Direct(c) =>
      (match RelevantPaths(root, key, mappingKeys)
       case Err(e) => Err(e)
       case Ok(paths) => Ok(Pairs(paths, AsArray(c))))
    case PerField(fields) => FieldWrites(root, mappingKeys, key, fields, fields.keys)
  }

  /** The writes of the mapping keys `keys`, in order. */
  function MappingWrites(root: Value, mapping: Mapping, keys: seq<string>): Result<seq<Write>>
    requires ValidMapping(mapping)
    requires forall k :: k in keys ==> k in mapping.entries
    decreases |keys|
  {
    if keys == [] then Ok([])
    else
      var m := |keys| - 1;
      match MappingWrites(root, mapping, keys[..m])
      case Err(e) => Err(e)
      case Ok(before) =>
        match EntryWrites(root, mapping.entries.Keys, keys[m], mapping.entries[keys[m]])
        case Err(e) => Err(e)
        case Ok(more) => Ok(before + more)
  }

  /** One more mapping key: its writes follow those of the keys before it. */
  lemma MappingWritesStep(root: Value, mapping: Mapping, keys: seq<string>, i: nat, before: seq<Write>, more: seq<Write>)
    requires ValidMapping(mapping)
    requires forall k :: k in keys ==> k in mapping.entries
    requires i < |keys|
    requires MappingWrites(root, mapping, keys[..i]) == Ok(before)
    requires EntryWrites(root, mapping.entries.Keys, keys[i], mapping.entries[keys[i]]) == Ok(more)
    ensures MappingWrites(root, mapping, keys[..i + 1]) == Ok(before + more)
  {
    assert keys[..i + 1][..i] == keys[..i] && keys[..i + 1][i] == keys[i];
  }

  /** A mapping key whose expansion throws ends the first pass with that error. */
  lemma MappingWritesStop(root: Value, mapping: Mapping, keys: seq<string>, i: nat, e: Error)
    requires ValidMapping(mapping)
    requires forall k :: k in keys ==> k in mapping.entries
    requires i < |keys|
    requires MappingWrites(root, mapping, keys[..i]).Ok?
    requires EntryWrites(root, mapping.entries.Keys, keys[i], mapping.entries[keys[i]]) == Err(e)
    ensures MappingWrites(root, mapping, keys) == Err(e)
  {
    assert keys[..i + 1][..i] == keys[..i] && keys[..i + 1][i] == keys[i];
    MappingWritesErr(root, mapping, keys, i + 1);
  }

  /** `mappingResult` after the first pass, or the error that pass throws. */
  function MappingTable(root: Value, mapping: Mapping): (r: Result<Table>)
    requires ValidMapping(mapping)
    ensures r.Ok? ==> r.value.Valid()
  {
    match MappingWrites(root, mapping, mapping.keys)
    case Err(e) => Err(e)
    case Ok(writes) => Ok(PutAll(Empty(), writes))
  }

  lemma {:induction false} FieldWritesErr(root: Value, mappingKeys: set<string>, typePath: string, fields: Dict<Compositions>, names: seq<string>, i: nat)
    requires i <= |names|
    requires forall n :: n in names ==> n in fields.entries
    requires FieldWrites(root, mappingKeys, typePath, fields, names[..i]).Err?
    ensures FieldWrites(root, mappingKeys, typePath, fields, names) == FieldWrites(root, mappingKeys, typePath, fields, names[..i])
    decreases |names|
  {
    if i < |names| {
      var m := |names| - 1;
      assert names[..m][..i] == names[..i];
      FieldWritesErr(root, mappingKeys, typePath, fields, names[..m], i);
    } else {
      assert names[..i] == names;
    }
  }

  lemma {:induction false} MappingWritesErr(root: Value, mapping: Mapping, keys: seq<string>, i: nat)
    requires ValidMapping(mapping)
    requires i <= |keys|
    requires forall k :: k in keys ==> k in mapping.entries
    requires MappingWrites(root, mapping, keys[..i]).Err?
    ensures MappingWrites(root, mapping, keys) == MappingWrites(root, mapping, keys[..i])
    decreases |keys|
  {
    if i < |keys| {
      var m := |keys| - 1;
      assert keys[..m][..i] == keys[..i];
      MappingWritesErr(root, mapping, keys[..m], i);
    } else {
      assert keys[..i] == keys;
    }
  }

  /** A later write to a concrete path replaces an earlier one: the table
      holds a path exactly when some key expands to it, with the
      compositions of the last such key. */
  lemma LaterEntryWins(root: Value, mapping: Mapping, path: string)
    requires ValidMapping(mapping)
    requires MappingWrites(root, mapping, mapping.keys).Ok?
    ensures var writes := MappingWrites(root, mapping, mapping.keys).value;
      var table := MappingTable(root, mapping).value;
      && (path in table.entries <==> Written(writes, path))
      && (Written(writes, path) ==> table.entries[path] == LastWrite(writes, path))
  {
    var writes := MappingWrites(root, mapping, mapping.keys).value;
    PutAllLastWins(Empty(), writes, path);
  }

  /** `relevantFields.forEach(path => { mappingResult[path] = fns; })`. */
  method Record(table: Table, paths: seq<string>, fns: seq<Composition>) returns (t: Table)
    ensures t == PutAll(table, Pairs(paths, fns))
  {
    t := table;
    for i := 0 to |paths|
      invariant t == PutAll(table, Pairs(paths[..i], fns))
    {
      PutAllSnoc(table, Pairs(paths[..i], fns), (paths[i], fns));
      assert paths[..i + 1] == paths[..i] + [paths[i]];
      PairsSnoc(paths[..i], paths[i], fns);
      t := t.Put(paths[i], fns);
    }
    assert paths[..|paths|] == paths;
  }

  // ---------------------------------------------------------------------
  // Rewriting the resolver map

  /** `chainFunctions([...fns, () => current])()`: the compositions applied
      to the current resolver, the last innermost. */
  function ComposeAll(fns: seq<Composition>, current: Value, apply: (Composition, Value) -> Value): Value
    decreases |fns|
  {
    if fns == [] then current else apply(fns[0], ComposeAll(fns[1..], current, apply))
  }

  /** Composing two lists is composing their concatenation: the first
      composition ends up outermost. */
  lemma {:induction false} ComposeAllAppend(a: seq<Composition>, b: seq<Composition>, current: Value, apply: (Composition, Value) -> Value)
    ensures ComposeAll(a + b, current, apply) == ComposeAll(a, ComposeAll(b, current, apply), apply)
    decreases |a|
  {
    if a == [] {
      assert a + b == b;
    } else {
      assert (a + b)[0] == a[0] && (a + b)[1..] == a[1..] + b;
      ComposeAllAppend(a[1..], b, current, apply);
    }
  }

  /** The resolver map after some rewrites, and the error that stopped them. */
  datatype Outcome = Outcome(root: Value, error: Option<Error>)

  /** One iteration of the second pass: `get` the path, compose, `set` the
      result. */
  function RewritePath(v: Value, path: string, fns: seq<Composition>, apply: (Composition, Value) -> Value): Outcome {
    var segs := Split(path, '.');
    match GetPath(v, segs)
    case Err(e) => Outcome(v, Some(e))
    case Ok(current) =>
      match SetPath(v, segs, ComposeAll(fns, current, apply))
      case Err(e) => Outcome(v, Some(e))
      case Ok(w) => Outcome(w, None)
  }

  /** The second pass over the table paths `paths`, in order, stopping at
      the first error. */
  function RewriteAll(v: Value, table: Table, paths: seq<string>, apply: (Composition, Value) -> Value): Outcome
    requires forall p :: p in paths ==> p in table.entries
    decreases |paths|
  {
    if paths == [] then Outcome(v, None)
    else
      var m := |paths| - 1;
      var before := RewriteAll(v, table, paths[..m], apply);
      if before.error.Some? then before
      else RewritePath(before.root, paths[m], table.entries[paths[m]], apply)
  }

  /** What `composeResolvers` leaves in the resolver map, and whether it
      throws. */
  function ComposeOutcome(v: Value, mapping: Mapping, apply: (Composition, Value) -> Value): Outcome
    requires ValidMapping(mapping)
  {
    match MappingTable(v, mapping)
    case Err(e) => Outcome(v, Some(e))
    case Ok(table) => RewriteAll(v, table, table.keys, apply)
  }

  lemma {:induction false} RewriteAllErr(v: Value, table: Table, paths: seq<string>, i: nat, apply: (Composition, Value) -> Value)
    requires i <= |paths|
    requires forall p :: p in paths ==> p in table.entries
    requires RewriteAll(v, table, paths[..i], apply).error.Some?
    ensures RewriteAll(v, table, paths, apply) == RewriteAll(v, table, paths[..i], apply)
    decreases |paths|
  {
    if i < |paths| {
      var m := |paths| - 1;
      assert paths[..m][..i] == paths[..i];
      RewriteAllErr(v, table, paths[..m], i, apply);
    } else {
      assert paths[..i] == paths;
    }
  }

  /** Every concrete path's segments: the last segment is not repeated. */
  predicate SinglyAssigned(paths: seq<string>) {
    forall p :: p in paths ==> LastOnlyAtEnd(Split(p, '.'))
  }

  /** The rewrites leave every path that parts ways with all rewritten
      paths as it was. */
  lemma {:induction false} RewriteAllFrame(v: Value, table: Table, paths: seq<string>, apply: (Composition, Value) -> Value, q: seq<string>)
    requires forall p :: p in paths ==> p in table.entries
    requires SinglyAssigned(paths)
    requires forall p :: p in paths ==> Diverge(Split(p, '.'), q)
    ensures GetPath(RewriteAll(v, table, paths, apply).root, q) == GetPath(v, q)
    decreases |paths|
  {
    if paths != [] {
      var m := |paths| - 1;
      assert forall p :: p in paths[..m] ==> p in paths;
      RewriteAllFrame(v, table, paths[..m], apply, q);
      var before := RewriteAll(v, table, paths[..m], apply);
      if before.error.None? {
        var segs := Split(paths[m], '.');
        var current := GetPath(before.root, segs);
        if current.Ok? {
          var val := ComposeAll(table.entries[paths[m]], current.value, apply);
          if SetPath(before.root, segs, val).Ok? {
            SetLeavesOtherPaths(before.root, segs, val, q);
          }
        }
      }
    }
  }

  /** Paths no two of which are one the prefix of the other. */
  predicate Independent(paths: seq<string>) {
    forall i, j :: 0 <= i < |paths| && 0 <= j < |paths| && i != j ==> Diverge(Split(paths[i], '.'), Split(paths[j], '.'))
  }

  /** Each of `paths` holds, in `w`, its compositions applied to what it
      held in `v`. */
  predicate Rewrote(v: Value, w: Value, table: Table, paths: seq<string>, apply: (Composition, Value) -> Value)
    requires forall p :: p in paths ==> p in table.entries
  {
    forall j :: 0 <= j < |paths| ==>
      && GetPath(v, Split(paths[j], '.')).Ok?
      && GetPath(w, Split(paths[j], '.')) ==
           Ok(ComposeAll(table.entries[paths[j]], GetPath(v, Split(paths[j], '.')).value, apply))
  }

  /** Rewriting one more path, independent of the earlier ones, keeps their
      rewrites and adds its own. */
  lemma RewriteOneMore(v: Value, before: Value, table: Table, prefix: seq<string>, p: string, apply: (Composition, Value) -> Value)
    requires forall q :: q in prefix + [p] ==> q in table.entries
    requires Rewrote(v, before, table, prefix, apply)
    requires forall q :: q in prefix ==> Diverge(Split(p, '.'), Split(q, '.'))
    requires LastOnlyAtEnd(Split(p, '.'))
    requires GetPath(v, Split(p, '.')).Ok? && GetPath(before, Split(p, '.')) == GetPath(v, Split(p, '.'))
    requires SetPath(before, Split(p, '.'), ComposeAll(table.entries[p], GetPath(v, Split(p, '.')).value, apply)).Ok?
    ensures Rewrote(v, SetPath(before, Split(p, '.'), ComposeAll(table.entries[p], GetPath(v, Split(p, '.')).value, apply)).value,
      table, prefix + [p], apply)
  {
    var segs := Split(p, '.');
    var val := ComposeAll(table.entries[p], GetPath(v, segs).value, apply);
    var w := SetPath(before, segs, val).value;
    SetThenGet(before, segs, val);
    var paths := prefix + [p];
    forall j | 0 <= j < |paths|
      ensures GetPath(v, Split(paths[j], '.')).Ok?
      ensures GetPath(w, Split(paths[j], '.')) ==
        Ok(ComposeAll(table.entries[paths[j]], GetPath(v, Split(paths[j], '.')).value, apply))
    {
      if j < |prefix| {
        assert paths[j] == prefix[j];
        SetLeavesOtherPaths(before, segs, val, Split(prefix[j], '.'));
      }
    }
  }

  /** Dropping the last of independent paths leaves independent paths, each
      of which parts ways with the dropped one. */
  lemma IndependentPrefix(paths: seq<string>)
    requires paths != [] && Independent(paths)
    ensures var m := |paths| - 1;
      && Independent(paths[..m])
      && forall q :: q in paths[..m] ==>
           Diverge(Split(q, '.'), Split(paths[m], '.')) && Diverge(Split(paths[m], '.'), Split(q, '.'))
  {
    var m := |paths| - 1;
    var prefix := paths[..m];
    forall i, j | 0 <= i < |prefix| && 0 <= j < |prefix| && i != j
      ensures Diverge(Split(prefix[i], '.'), Split(prefix[j], '.'))
    {
      assert prefix[i] == paths[i] && prefix[j] == paths[j];
    }
    forall q | q in prefix
      ensures Diverge(Split(q, '.'), Split(paths[m], '.')) && Diverge(Split(paths[m], '.'), Split(q, '.'))
    {
      var i :| 0 <= i < |prefix| && prefix[i] == q;
      assert paths[i] == q;
    }
  }

  /** A second pass that does not throw ends with the rewrite of its last
      path, after the earlier ones did not throw either. */
  lemma RewriteAllLast(v: Value, table: Table, paths: seq<string>, apply: (Composition, Value) -> Value)
    requires forall p :: p in paths ==> p in table.entries
    requires paths != []
    requires RewriteAll(v, table, paths, apply).error.None?
    ensures var m := |paths| - 1;
      var before := RewriteAll(v, table, paths[..m], apply);
      var segs := Split(paths[m], '.');
      && before.error.None?
      && GetPath(before.root, segs).Ok?
      && SetPath(before.root, segs, ComposeAll(table.entries[paths[m]], GetPath(before.root, segs).value, apply))
           == Ok(RewriteAll(v, table, paths, apply).root)
  {
  }

  /** When the rewritten paths are independent and none repeats its last
      segment, each ends up holding its compositions applied to the
      resolver it held before. */
  lemma {:induction false} RewriteAllEffect(v: Value, table: Table, paths: seq<string>, apply: (Composition, Value) -> Value)
    requires forall p :: p in paths ==> p in table.entries
    requires SinglyAssigned(paths) && Independent(paths)
    requires RewriteAll(v, table, paths, apply).error.None?
    ensures Rewrote(v, RewriteAll(v, table, paths, apply).root, table, paths, apply)
    decreases |paths|
  {
    if paths != [] {
      var m := |paths| - 1;
      var prefix := paths[..m];
      var p := paths[m];
      assert paths == prefix + [p];
      assert forall q :: q in prefix ==> q in paths;
      IndependentPrefix(paths);
      RewriteAllLast(v, table, paths, apply);
      var before := RewriteAll(v, table, prefix, apply);
      RewriteAllEffect(v, table, prefix, apply);
      RewriteAllFrame(v, table, prefix, apply, Split(p, '.'));
      RewriteOneMore(v, before.root, table, prefix, p, apply);
    }
  }

  /** `composeResolvers` rewrites only table paths: when every table path
      is singly assigned and the call does not throw, every path that parts
      ways with all of them reads as before. */
  lemma ComposeLeavesOtherPaths(v: Value, mapping: Mapping, apply: (Composition, Value) -> Value, q: seq<string>)
    requires ValidMapping(mapping)
    requires MappingTable(v, mapping).Ok?
    requires SinglyAssigned(MappingTable(v, mapping).value.keys)
    requires forall p :: p in MappingTable(v, mapping).value.keys ==> Diverge(Split(p, '.'), q)
    ensures GetPath(ComposeOutcome(v, mapping, apply).root, q) == GetPath(v, q)
  {
    var table := MappingTable(v, mapping).value;
    RewriteAllFrame(v, table, table.keys, apply, q);
  }

  /** When the table paths are independent and singly assigned and the
      call does not throw, each table path holds its compositions applied
      to the resolver it held before. */
  lemma ComposeRewritesEachPath(v: Value, mapping: Mapping, apply: (Composition, Value) -> Value, p: string)
    requires ValidMapping(mapping)
    requires MappingTable(v, mapping).Ok?
    requires var keys := MappingTable(v, mapping).value.keys; SinglyAssigned(keys) && Independent(keys)
    requires ComposeOutcome(v, mapping, apply).error.None?
    requires p in MappingTable(v, mapping).value.entries
    ensures GetPath(v, Split(p, '.')).Ok?
    ensures GetPath(ComposeOutcome(v, mapping, apply).root, Split(p, '.')) ==
      Ok(ComposeAll(MappingTable(v, mapping).value.entries[p], GetPath(v, Split(p, '.')).value, apply))
  {
    var table := MappingTable(v, mapping).value;
    RewriteAllEffect(v, table, table.keys, apply);
    var j :| 0 <= j < |table.keys| && table.keys[j] == p;
    assert Rewrote(v, ComposeOutcome(v, mapping, apply).root, table, table.keys, apply);
  }

  /** The objects the `set` cursor passed, innermost last, each holding the
      updated value of the next under its key: `inner` is the updated value
      below the last of them. */
  function Reattach(trail: seq<Value>, keys: seq<string>, inner: Result<Value>): Result<Value>
    requires |trail| == |keys|
    decreases |trail|
  {
    if trail == [] then inner
    else
      var m := |trail| - 1;
      Reattach(trail[..m], keys[..m],
        match inner
        case Err(e) => Err(e)
        case Ok(x) => WithMember(trail[m], keys[m], x))
  }

  lemma {:induction false} ReattachErr(trail: seq<Value>, keys: seq<string>, e: Error)
    requires |trail| == |keys|
    ensures Reattach(trail, keys, Err(e)) == Err(e)
    decreases |trail|
  {
    if trail != [] {
      ReattachErr(trail[..|trail| - 1], keys[..|trail| - 1], e);
    }
  }

  /** `inner` reattached below `here` under `k`. */
  function Attach(here: Value, k: string, inner: Result<Value>): Result<Value> {
    match inner
    case Err(e) => Err(e)
    case Ok(x) => WithMember(here, k, x)
  }

  lemma ReattachSnoc(trail: seq<Value>, keys: seq<string>, here: Value, k: string, inner: Result<Value>)
    requires |trail| == |keys|
    ensures Reattach(trail + [here], keys + [k], inner) == Reattach(trail, keys, Attach(here, k, inner))
  {
    assert (trail + [here])[..|trail|] == trail;
    assert (keys + [k])[..|keys|] == keys;
  }

  /** One step of the `set` cursor: the assignment (when the segment is the
      last one), the read of the property, and what remains below it. */
  lemma SetPathStep(deep: Value, rest: seq<string>, val: Value)
    requires rest != []
    ensures var k := rest[0];
      var here := if k == rest[|rest| - 1] then WithMember(deep, k, val) else Ok(deep);
      && (here.Err? ==> SetPath(deep, rest, val) == here)
      && (here.Ok? && Member(here.value, k).Err? ==> SetPath(deep, rest, val) == Member(here.value, k))
      && (here.Ok? && Member(here.value, k).Ok? ==>
            SetPath(deep, rest, val) == Attach(here.value, k, SetPath(Member(here.value, k).value, rest[1..], val)))
  {
  }

  /** A resolver map, updated in place by `set` and `composeResolvers`. */
  class ResolverMap {
    var root: Value

    constructor(root: Value)
      ensures this.root == root
    {
      this.root := root;
    }

    /** `get(obj, path)`: the cursor starts at the root and reads one
        segment after the other. */
    method Get(path: string) returns (r: Result<Value>)
      ensures r == GetPath(root, Split(path, '.'))
    {
      var segs := Split(path, '.');
      var deep := root;
      for i := 0 to |segs|
        invariant GetPath(root, segs[..i]) == Ok(deep)
      {
        var next := Member(deep, segs[i]);
        GetPathSnoc(root, segs[..i], segs[i]);
        assert segs[..i + 1] == segs[..i] + [segs[i]];
        if next.Err? {
          GetPathErrPropagates(root, segs[..i + 1], segs[i + 1..]);
          assert segs[..i + 1] + segs[i + 1..] == segs;
          return Err(next.error);
        }
        deep := next.value;
      }
      assert segs[..|segs|] == segs;
      return Ok(deep);
    }

    /** `set(obj, path, val)`: the cursor walks the segments; at every step
        whose segment equals the last one it assigns `val` to that property
        of the current object, then moves into the property. A thrown
        `TypeError` is returned and leaves the map as it was. */
    method Set(path: string, val: Value) returns (error: Option<Error>)
      modifies this
      ensures var r := SetPath(old(root), Split(path, '.'), val);
        && (r.Ok? ==> error == None && root == r.value)
        && (r.Err? ==> error == Some(r.error) && root == old(root))
    {
      var segs := Split(path, '.');
      var last := segs[|segs| - 1];
      var trail: seq<Value> := [];
      var deep := root;
      for i := 0 to |segs|
        invariant root == old(root)
        invariant |trail| == i
        invariant SetPath(root, segs, val) == Reattach(trail, segs[..i], SetPath(deep, segs[i..], val))
      {
        var k := segs[i];
        ghost var rest := segs[i..];
        assert rest[0] == k && rest[|rest| - 1] == last && rest[1..] == segs[i + 1..];
        SetPathStep(deep, rest, val);
        var here := if k == last then WithMember(deep, k, val) else Ok(deep);
        if here.Err? {
          ReattachErr(trail, segs[..i], here.error);
          return Some(here.error);
        }
        var next := Member(here.value, k);
        if next.Err? {
          ReattachErr(trail, segs[..i], next.error);
          return Some(next.error);
        }
        ReattachSnoc(trail, segs[..i], here.value, k, SetPath(next.value, segs[i + 1..], val));
        assert segs[..i + 1] == segs[..i] + [k];
        trail := trail + [here.value];
        deep := next.value;
      }
      assert segs[..|segs|] == segs;
      var r := Reattach(trail, segs, Ok(deep));
      if r.Err? {
        return Some(r.error);
      }
      root := r.value;
      return None;
    }
  
    /** The writes of one per-field mapping key into `table`:
        `Object.keys(mapping[key])`, each `key.field` expanded and recorded. */
    method RecordFields(mappingKeys: set<string>, key: string, fields: Dict<Compositions>, table: Table) returns (r: Result<Table>)
      requires fields.Valid()
      ensures var writes := FieldWrites(root, mappingKeys, key, fields, fields.keys);
        && (writes.Err? ==> r == Err(writes.error))
        && (writes.Ok? ==> r == Ok(PutAll(table, writes.value)))
    {
      var names := fields.keys;
      var t := table;
      ghost var more: seq<Write> := [];
      for j := 0 to |names|
        invariant FieldWrites(root, mappingKeys, key, fields, names[..j]) == Ok(more)
        invariant t == PutAll(table, more)
      {
        var name := names[j];
        assert names[..j + 1][..j] == names[..j] && names[..j + 1][j] == name;
        var paths := RelevantPaths(root, key + "." + name, mappingKeys);
        if paths.Err? {
          FieldWritesErr(root, mappingKeys, key, fields, names, j + 1);
          return Err(paths.error);
        }
        t := Record(t, paths.value, AsArray(fields.entries[name]));
        PutAllAppend(table, more, Pairs(paths.value, AsArray(fields.entries[name])));
        more := more + Pairs(paths.value, AsArray(fields.entries[name]));
      }
      assert names[..|names|] == names;
      return Ok(t);
    }

    /** The writes of one mapping key into `table`. */
    method RecordEntry(mappingKeys: set<string>, key: string, entry: MappingEntry, table: Table) returns (r: Result<Table>)
      requires entry.PerField? ==> entry.fields.Valid()
      ensures var writes := EntryWrites(root, mappingKeys, key, entry);
        && (writes.Err? ==> r == Err(writes.error))
        && (writes.Ok? ==> r == Ok(PutAll(table, writes.value)))
    {
      match entry {
        case Direct(c) =>
          var paths := RelevantPaths(root, key, mappingKeys);
          if paths.Err? {
            return Err(paths.error);
          }
          var t := Record(table, paths.value, AsArray(c));
          return Ok(t);
        case PerField(fields) =>
          r := RecordFields(mappingKeys, key, fields, table);
      }
    }

    /** The first pass of `composeResolvers`: every mapping key, in
        `Object.keys` order, expanded to concrete paths, each written into
        `mappingResult` with its compositions. */
    method MappingResult(mapping: Mapping) returns (r: Result<Table>)
      requires ValidMapping(mapping)
      ensures r == MappingTable(root, mapping)
    {
      var mappingKeys := mapping.entries.Keys;
      var keys := mapping.keys;
      var table := Empty<seq<Composition>>();
      ghost var writes: seq<Write> := [];
      for i := 0 to |keys|
        invariant MappingWrites(root, mapping, keys[..i]) == Ok(writes)
        invariant table == PutAll(Empty(), writes)
      {
        var key := keys[i];
        ghost var more := EntryWrites(root, mappingKeys, key, mapping.entries[key]);
        var next := RecordEntry(mappingKeys, key, mapping.entries[key], table);
        if next.Err? {
          MappingWritesStop(root, mapping, keys, i, next.error);
          return Err(next.error);
        }
        MappingWritesStep(root, mapping, keys, i, writes, more.value);
        PutAllAppend(Empty(), writes, more.value);
        table := next.value;
        writes := writes + more.value;
      }
      assert keys[..|keys|] == keys;
      return Ok(table);
    }

    /** `composeResolvers(resolvers, mapping)`: builds `mappingResult`, then
        for each of its paths, in order, replaces the resolver there by the
        compositions applied to it. It returns the same resolver map; when
        it throws, the rewrites made so far stay. */
    method ComposeResolvers(mapping: Mapping, apply: (Composition, Value) -> Value) returns (r: Result<ResolverMap>)
      requires ValidMapping(mapping)
      modifies this
      ensures var outcome := ComposeOutcome(old(root), mapping, apply);
        && root == outcome.root
        && (outcome.error.None? ==> r == Ok(this))
        && (outcome.error.Some? ==> r == Err(outcome.error.value))
    {
      var built := MappingResult(mapping);
      if built.Err? {
        return Err(built.error);
      }
      var table := built.value;
      var paths := table.keys;
      for i := 0 to |paths|
        invariant RewriteAll(old(root), table, paths[..i], apply) == Outcome(root, None)
      {
        var path := paths[i];
        assert paths[..i + 1][..i] == paths[..i] && paths[..i + 1][i] == path;
        var current := Get(path);
        if current.Err? {
          RewriteAllErr(old(root), table, paths, i + 1, apply);
          return Err(current.error);
        }
        var error := Set(path, ComposeAll(table.entries[path], current.value, apply));
        if error.Some? {
          RewriteAllErr(old(root), table, paths, i + 1, apply);
          return Err(error.value);
        }
      }
      assert paths[..|paths|] == paths;
      return Ok(this);
    }
  }
}
