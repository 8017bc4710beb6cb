/** The two functions of Go's `path/filepath` package that the tool relies on,
    `Base` and `Ext`, for a system whose only separator is '/'.
    Go strings are bytes; '/' and '.' are ASCII and never occur inside a
    multi-byte UTF-8 sequence, so working on characters gives the same answers. */
module FilePath {

  /** `p` with every trailing separator removed. */
  function TrimTrailingSeparators(p: string): (r: string)
    ensures |r| <= |p| && r == p[..|r|]
    ensures r == [] || r[|r| - 1] != '/'
    ensures forall i :: |r| <= i < |p| ==> p[i] == '/'
    decreases |p|
  {
    if p != [] && p[|p| - 1] == '/' then TrimTrailingSeparators(p[..|p| - 1]) else p
  }

  /** The characters of `p` after its last separator (all of `p` when it has none). */
  function LastElement(p: string): (r: string)
    ensures '/' !in r
    ensures |r| <= |p|
    ensures |r| < |p| ==> p[|p| - |r| - 1] == '/'
    decreases |p|
  {
    if p == [] || p[|p| - 1] == '/' then [] else LastElement(p[..|p| - 1]) + [p[|p| - 1]]
  }

  /** filepath.Base: the last element of `path`, ignoring trailing separators;
      "." for the empty path and "/" for a path made only of separators. */
  function Base(path: string): (r: string)
    ensures r != []
    ensures r == "/" || '/' !in r
    ensures path == [] ==> r == "."
    ensures r == "/" <==> path != [] && forall i :: 0 <= i < |path| ==> path[i] == '/'
  {
    if path == [] then "."
    else
      var e := LastElement(TrimTrailingSeparators(path));
      if e == [] then "/" else e
  }

  /** filepath.Ext: the suffix of `path` that starts at the last '.' of its
      last element, or "" when that element has no '.' (see ExtIsFinalSuffix). */
  function Ext(path: string): string
    decreases |path|
  {
    if path == [] || path[|path| - 1] == '/' then []
    else if path[|path| - 1] == '.' then "."
    else
      var e := Ext(path[..|path| - 1]);
      if e == [] then [] else e + [path[|path| - 1]]
  }

  /** What Ext promises: its result is a suffix of the last element that is
      either empty, when that element has no '.', or starts with a '.' and
      holds no other, so that only the final extension is split off. */
  lemma {:induction false} ExtIsFinalSuffix(path: string)
    ensures var r := Ext(path);
      && |r| <= |LastElement(path)| && r == path[|path| - |r|..] && '/' !in r
      && (r == [] <==> '.' !in LastElement(path))
      && (r != [] ==> r[0] == '.' && '.' !in r[1..])
    decreases |path|
  {
    if path != [] && path[|path| - 1] != '/' {
      var init, c := path[..|path| - 1], path[|path| - 1];
      assert path == init + [c];
      var last := LastElement(init);
      assert LastElement(path) == last + [c];
      MemberOfAppend('.', last, c);
      if c == '.' {
        assert Ext(path) == [c] == path[|path| - 1..];
      } else {
        ExtIsFinalSuffix(init);
        var e := Ext(init);
        if e != [] {
          assert Ext(path) == e + [c];
          assert path[|path| - |e| - 1..] == init[|init| - |e|..] + [c];
          assert (e + [c])[1..] == e[1..] + [c];
          MemberOfAppend('.', e[1..], c);
          MemberOfAppend('/', e, c);
        }
      }
    }
  }

  lemma MemberOfAppend(x: char, s: string, c: char)
    ensures x in s + [c] <==> x in s || x == c
  {
    assert (s + [c])[|s|] == c;
    assert forall i :: 0 <= i < |s| ==> (s + [c])[i] == s[i];
  }

  /** A string without separators is its own last element. */
  lemma {:induction false} LastElementOfSegment(s: string)
    requires '/' !in s
    ensures LastElement(s) == s
    decreases |s|
  {
    if s != [] {
      assert s[..|s| - 1] + [s[|s| - 1]] == s;
      LastElementOfSegment(s[..|s| - 1]);
    }
  }

  /** Separators appended to a string that does not end in one are trimmed away again. */
  lemma {:induction false} TrimAppendedSeparators(s: string, tail: string)
    requires s == [] || s[|s| - 1] != '/'
    requires forall i :: 0 <= i < |tail| ==> tail[i] == '/'
    ensures TrimTrailingSeparators(s + tail) == s
    decreases |tail|
  {
    if tail == [] {
      assert s + tail == s;
    } else {
      var p := s + tail;
      assert p[|p| - 1] == '/';
      assert p[..|p| - 1] == s + tail[..|tail| - 1];
      TrimAppendedSeparators(s, tail[..|tail| - 1]);
    }
  }

  /** The last element of `dir + seg` is `seg` when `dir` is empty or ends in a separator. */
  lemma {:induction false} LastElementOfJoin(dir: string, seg: string)
    requires dir == [] || dir[|dir| - 1] == '/'
    requires '/' !in seg
    ensures LastElement(dir + seg) == seg
    decreases |seg|
  {
    if seg == [] {
      assert dir + seg == dir;
    } else {
      var p := dir + seg;
      assert p[|p| - 1] == seg[|seg| - 1];
      assert p[..|p| - 1] == dir + seg[..|seg| - 1];
      LastElementOfJoin(dir, seg[..|seg| - 1]);
      assert seg[..|seg| - 1] + [seg[|seg| - 1]] == seg;
    }
  }

  /** Base undoes a join: whatever directory precedes a non-empty element,
      and however many separators follow it, Base gives back the element. */
  lemma BaseOfJoin(dir: string, seg: string, tail: string)
    requires dir == [] || dir[|dir| - 1] == '/'
    requires seg != [] && '/' !in seg
    requires forall i :: 0 <= i < |tail| ==> tail[i] == '/'
    ensures Base(dir + seg + tail) == seg
  {
    var s := dir + seg;
    assert s[|s| - 1] == seg[|seg| - 1];
    TrimAppendedSeparators(s, tail);
    LastElementOfJoin(dir, seg);
  }

  /** Ext of a name followed by "." and a dot-free, separator-free suffix is exactly that dotted suffix. */
  lemma {:induction false} ExtOfDotted(stem: string, suffix: string)
    requires '.' !in suffix && '/' !in suffix
    ensures Ext(stem + "." + suffix) == "." + suffix
    decreases |suffix|
  {
    var p := stem + "." + suffix;
    if suffix == [] {
      assert p[|p| - 1] == '.';
    } else {
      assert p[|p| - 1] == suffix[|suffix| - 1];
      assert p[..|p| - 1] == stem + "." + suffix[..|suffix| - 1];
      var init, c := suffix[..|suffix| - 1], suffix[|suffix| - 1];
      assert suffix == init + [c];
      ExtOfDotted(stem, init);
      assert "." + init + [c] == "." + suffix;
    }
  }
}
