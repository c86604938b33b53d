/** The POSIX `path.extname` the loader dispatch relies on: the part of the
    last path segment from its last dot, except for dot-files and `..`. */
module Paths {
  import opened Strings

  /** The path with its trailing `/` separators removed. */
  function StripTrailingSlashes(p: string): (r: string)
    ensures |r| <= |p| && r == p[..|r|]
    ensures r == [] || r[|r| - 1] != '/'
    ensures forall j :: |r| <= j < |p| ==> p[j] == '/'
    decreases |p|
  {
    if |p| > 0 && p[|p| - 1] == '/' then StripTrailingSlashes(p[..|p| - 1]) else p
  }

  /** `s.lastIndexOf(c)`: the last position holding `c`, or -1. */
  function LastIndexOf(s: string, c: char): (r: int)
    ensures -1 <= r < |s|
    ensures r >= 0 ==> s[r] == c
    ensures forall j :: r < j < |s| ==> s[j] != c
    decreases |s|
  {
    if s == [] then -1
    else if s[|s| - 1] == c then |s| - 1
    else LastIndexOf(s[..|s| - 1], c)
  }

  /** The last path segment, ignoring trailing separators. */
  function Basename(p: string): (r: string)
    ensures '/' !in r
  {
    var t := StripTrailingSlashes(p);
    t[LastIndexOf(t, '/') + 1..]
  }

  /** `path.extname`: from the last dot of the last segment to its end; empty
      when that segment has no dot, starts with its only dot, or is `..`. */
  function Extname(p: string): (r: string)
    ensures r == [] || (r[0] == '.' && '.' !in r[1..] && '/' !in r)
    ensures r != [] ==> EndsWith(StripTrailingSlashes(p), r)
    ensures var b := Basename(p);
      r != [] <==> b != ".." && exists i :: 0 < i < |b| && b[i] == '.'
  {
    SegmentExtension(Basename(p))
  }

  /** The extension of one path segment. */
  function SegmentExtension(base: string): (r: string)
    ensures r == [] || (r[0] == '.' && '.' !in r[1..])
    ensures r != [] ==> EndsWith(base, r)
    ensures r != [] <==> base != ".." && exists i :: 0 < i < |base| && base[i] == '.'
  {
    var dot := LastIndexOf(base, '.');
    assert (exists i :: 0 < i < |base| && base[i] == '.') ==> dot > 0;
    if dot <= 0 || base == ".." then ""
    else
      assert '.' !in base[dot..][1..] by {
        forall j | 0 <= j < |base[dot..][1..]| ensures base[dot..][1..][j] != '.' {
          assert base[dot..][1..][j] == base[dot + 1 + j];
        }
      }
      base[dot..]
  }

  /** Two strings agree on where a character sits when they agree on it
      position by position. */
  ghost predicate SamePositions(s: string, t: string, c: char) {
    |s| == |t| && forall j :: 0 <= j < |s| ==> (s[j] == c <==> t[j] == c)
  }

  lemma {:induction false} LastIndexOfSamePositions(s: string, t: string, c: char)
    requires SamePositions(s, t, c)
    ensures LastIndexOf(s, c) == LastIndexOf(t, c)
  {
  }

  lemma {:induction false} StripSamePositions(s: string, t: string)
    requires SamePositions(s, t, '/')
    ensures |StripTrailingSlashes(s)| == |StripTrailingSlashes(t)|
    decreases |s|
  {
    if |s| > 0 && s[|s| - 1] == '/' {
      StripSamePositions(s[..|s| - 1], t[..|t| - 1]);
    }
  }

  lemma ToLowerSlice(s: string, a: nat, b: nat)
    requires a <= b <= |s|
    ensures ToLower(s)[a..b] == ToLower(s[a..b])
  {
  }

  /** Lower-casing moves neither `/` nor `.`. */
  lemma ToLowerSamePositions(s: string, c: char)
    requires c == '/' || c == '.'
    ensures SamePositions(s, ToLower(s), c)
  {
  }

  /** Lower-casing a path lower-cases its last segment. */
  lemma BasenameToLower(p: string)
    ensures Basename(ToLower(p)) == ToLower(Basename(p))
  {
    var q := ToLower(p);
    ToLowerSamePositions(p, '/');
    StripSamePositions(p, q);
    var tp, tq := StripTrailingSlashes(p), StripTrailingSlashes(q);
    ToLowerSlice(p, 0, |tp|);
    assert tq == ToLower(tp);
    ToLowerSamePositions(tp, '/');
    LastIndexOfSamePositions(tp, tq, '/');
    ToLowerSlice(tp, LastIndexOf(tp, '/') + 1, |tp|);
  }

  /** Lower-casing a path lower-cases its extension: `extname` only looks at
      `/` and `.`, which lower-casing leaves where they are. */
  lemma ExtnameToLower(p: string)
    ensures Extname(ToLower(p)) == ToLower(Extname(p))
  {
    BasenameToLower(p);
    SegmentExtensionToLower(Basename(p));
  }

  lemma SegmentExtensionToLower(bp: string)
    ensures SegmentExtension(ToLower(bp)) == ToLower(SegmentExtension(bp))
  {
    var bq := ToLower(bp);
    ToLowerSamePositions(bp, '.');
    LastIndexOfSamePositions(bp, bq, '.');
    var dot := LastIndexOf(bp, '.');
    assert bq == ".." <==> bp == "..";
    if !(dot <= 0 || bp == "..") {
      ToLowerSlice(bp, dot, |bp|);
    }
  }
}
