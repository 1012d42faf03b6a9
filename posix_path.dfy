/**
 * The `posixpath` functions the model uses: `basename`, `dirname`, `join`
 * and `splitext`, on `/`-separated text.
 */
module PosixPath {
  import opened Strings

  /** `s.rfind(c)`: the index of the last occurrence of `c`, or -1. */
  function RFind<T(==)>(s: seq<T>, c: T): (i: int)
    ensures -1 <= i < |s|
    ensures i >= 0 ==> s[i] == c
    ensures forall k :: i < k < |s| ==> s[k] != c
  {
    if s == [] then -1
    else if s[|s| - 1] == c then |s| - 1
    else RFind(s[..|s| - 1], c)
  }

  /** `s.find(c)`: the index of the first occurrence of `c`, or -1. */
  function Find<T(==)>(s: seq<T>, c: T): (i: int)
    ensures -1 <= i < |s|
    ensures i >= 0 ==> s[i] == c
    ensures forall k :: 0 <= k < |s| && (i < 0 || k < i) ==> s[k] != c
  {
    if s == [] then -1
    else if s[0] == c then 0
    else var j := Find(s[1..], c); if j < 0 then -1 else j + 1
  }

  /** `posixpath.basename(p)`: everything after the last `/`. */
  function Basename(p: string): (r: string)
    ensures '/' !in r && EndsWith(p, r)
  {
    p[RFind(p, '/') + 1..]
  }

  predicate AllSlashes(s: string) {
    forall k :: 0 <= k < |s| ==> s[k] == '/'
  }

  /** `s.rstrip('/')`. */
  function RStripSlashes(s: string): (r: string)
    ensures StartsWith(s, r) && (r == [] || r[|r| - 1] != '/')
  {
    if s == [] || s[|s| - 1] != '/' then s else RStripSlashes(s[..|s| - 1])
  }

  /**
   * `posixpath.dirname(p)`: everything up to the last `/`, with trailing
   * slashes removed unless the head is made of slashes only.
   */
  function Dirname(p: string): (r: string)
    ensures StartsWith(p, r)
  {
    var head := p[..RFind(p, '/') + 1];
    if head != [] && !AllSlashes(head) then RStripSlashes(head) else head
  }

  /** `posixpath.join(a, b)`: an absolute `b` replaces `a`, otherwise a `/` separates them when needed. */
  function Join2(a: string, b: string): (r: string)
    ensures EndsWith(r, b)
  {
    if StartsWith(b, "/") then b
    else if a == [] || EndsWith(a, "/") then a + b
    else a + "/" + b
  }

  /** `posixpath.join(a, *parts)`. */
  function JoinAll(a: string, parts: seq<string>): string
    decreases |parts|
  {
    if parts == [] then a else JoinAll(Join2(a, parts[0]), parts[1..])
  }

  /**
   * `posixpath.splitext(p)`: the extension starts at the last `.` of the
   * last path component, unless every character before that dot in the
   * component is a dot too.
   */
  function SplitExt(p: string): (r: (string, string))
    ensures r.0 + r.1 == p
    ensures r.1 == [] || (r.1[0] == '.' && '.' !in r.1[1..] && '/' !in r.1)
  {
    var si := RFind(p, '/');
    var di := RFind(p, '.');
    if di > si && exists k :: si + 1 <= k < di && p[k] != '.' then
      assert p[..di] + p[di..] == p;
      (p[..di], p[di..])
    else (p, [])
  }

  predicate AllDots(s: string) {
    forall k :: 0 <= k < |s| ==> s[k] == '.'
  }

  /** A name made of dots alone has no extension. */
  lemma SplitExtAllDots(p: string)
    requires AllDots(p)
    ensures SplitExt(p) == (p, [])
  {
  }

  /** A name with a dot after its first character, and no later dot or slash, splits at that dot. */
  lemma SplitExtSimple(stem: string, ext: string)
    requires stem != [] && stem[0] != '.' && '/' !in stem
    requires ext != [] && ext[0] == '.' && '.' !in ext[1..] && '/' !in ext
    ensures SplitExt(stem + ext) == (stem, ext)
  {
    var p := stem + ext;
    var di := RFind(p, '.');
    var si := RFind(p, '/');
    assert p[|stem|] == '.';
    assert di == |stem| by {
      forall k | |stem| < k < |p| ensures p[k] != '.' {
        assert p[k] == ext[1..][k - |stem| - 1];
      }
    }
    assert si == -1 by {
      forall k | 0 <= k < |p| ensures p[k] != '/' {
        if k < |stem| { assert p[k] == stem[k]; } else { assert p[k] == ext[k - |stem|]; }
      }
    }
    assert p[0] == stem[0];
    assert p[..di] == stem;
  }
}
