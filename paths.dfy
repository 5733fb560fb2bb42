/**
 * Lexical model of the POSIX flavour of Python's pathlib, as the file
 * browser uses it: parsing a string into segments, `base / s`, `.parent`,
 * `.name`, `str(path)`, `resolve()` with symbolic links left out, and
 * `is_relative_to`.
 */
module Paths {

  /** An absolute path: its segments below the anchor "/"; [] is "/" itself. */
  type Path = seq<string>

  /** A segment that names an entry: not empty, not "." or "..", no slash. */
  predicate IsName(s: string)
  {
    s != "" && s != "." && s != ".." && '/' !in s
  }

  /** A normalised path, which is what resolve() returns. */
  predicate Normal(p: Path)
  {
    forall i :: 0 <= i < |p| ==> IsName(p[i])
  }

  predicate NoSlash(segs: seq<string>)
  {
    forall i :: 0 <= i < |segs| ==> '/' !in segs[i]
  }

  /** `s.split("/")`: the pieces between slashes, empty ones included. */
  function Split(s: string): (r: seq<string>)
    ensures |r| >= 1
    ensures NoSlash(r)
  {
    if s == [] then [""]
    else
      var rest := Split(s[1..]);
      if s[0] == '/' then [""] + rest
      else [[s[0]] + rest[0]] + rest[1..]
  }

  /** `"/".join(p)`. */
  function JoinSlash(p: seq<string>): string
  {
    if p == [] then ""
    else if |p| == 1 then p[0]
    else p[0] + "/" + JoinSlash(p[1..])
  }

  /** The segments pathlib keeps from a split: empty and "." segments go. */
  function Parts(segs: seq<string>): (r: seq<string>)
    ensures |r| <= |segs|
    ensures forall i :: 0 <= i < |r| ==> r[i] != "" && r[i] != "."
    ensures NoSlash(segs) ==> NoSlash(r)
  {
    if segs == [] then []
    else if segs[0] == "" || segs[0] == "." then Parts(segs[1..])
    else [segs[0]] + Parts(segs[1..])
  }

  /** The segments of `PurePosixPath(s)` below its anchor (".." is kept). */
  function Parse(s: string): (r: seq<string>)
    ensures NoSlash(r)
    ensures forall i :: 0 <= i < |r| ==> r[i] != "" && r[i] != "."
  {
    Parts(Split(s))
  }

  predicate IsAbsolute(s: string)
  {
    |s| > 0 && s[0] == '/'
  }

  /**
   * `base / s`: an absolute `s` replaces `base` altogether; a relative one
   * is appended to it segment by segment.
   */
  function JoinPath(base: Path, s: string): (r: Path)
    ensures NoSlash(base) ==> NoSlash(r)
    ensures !IsAbsolute(s) ==> IsRelativeTo(r, base) && r[|base|..] == Parse(s)
    ensures IsAbsolute(s) ==> r == Parse(s)
  {
    if IsAbsolute(s) then Parse(s) else base + Parse(s)
  }

  /** `.parent`, which is lexical; the parent of "/" is "/". */
  function Parent(p: Path): Path
  {
    if p == [] then [] else p[..|p| - 1]
  }

  /** `.name`: the last segment, "" for "/". */
  function Name(p: Path): string
  {
    if p == [] then "" else p[|p| - 1]
  }

  /** `str(p)` of an absolute path. */
  function Render(p: Path): string
  {
    "/" + JoinSlash(p)
  }

  /**
   * Lexical resolution of `segs` from the directory `cur`: ".." drops the
   * last segment (and stays put at "/"), "" and "." are dropped.
   */
  function ResolveFrom(cur: Path, segs: seq<string>): (r: Path)
    ensures Normal(cur) && NoSlash(segs) ==> Normal(r)
    ensures Normal(segs) ==> r == cur + segs
    decreases |segs|
  {
    if segs == [] then cur
    else if segs[0] == "" || segs[0] == "." then ResolveFrom(cur, segs[1..])
    else if segs[0] == ".." then ResolveFrom(Parent(cur), segs[1..])
    else ResolveFrom(cur + [segs[0]], segs[1..])
  }

  /** `resolve()` of an absolute path, symbolic links aside. */
  function Resolve(p: seq<string>): (r: Path)
    ensures NoSlash(p) ==> Normal(r)
    ensures Normal(p) ==> r == p
  {
    ResolveFrom([], p)
  }

  /** `p.is_relative_to(base)`: `base` is `p` or one of its parents, segment by segment. */
  predicate IsRelativeTo(p: Path, base: Path): (b: bool)
    ensures b ==> |base| <= |p| && p == base + p[|base|..]
    ensures b ==> forall i :: 0 <= i < |base| ==> p[i] == base[i]
    ensures |p| <= |base| ==> (b <==> p == base)
  {
    |base| <= |p| && p[..|base|] == base
  }

  /** `s.lstrip(chars)`. */
  function LStrip(s: string, chars: set<char>): (r: string)
    ensures |r| <= |s| && r == s[|s| - |r|..]
    ensures r == [] || r[0] !in chars
    ensures forall i :: 0 <= i < |s| - |r| ==> s[i] in chars
  {
    if s != [] && s[0] in chars then LStrip(s[1..], chars) else s
  }

  // ----------------------------------------------------------------------
  // Lemmas

  /** Joining the pieces of a split with "/" gives back the string. */
  lemma {:induction false} JoinSplit(s: string)
    ensures JoinSlash(Split(s)) == s
  {
    if s != [] {
      var rest := Split(s[1..]);
      JoinSplit(s[1..]);
      if s[0] == '/' {
        assert Split(s) == [""] + rest;
        assert JoinSlash(Split(s)) == "" + "/" + JoinSlash(rest);
        assert s == [s[0]] + s[1..];
      } else if |rest| == 1 {
        assert Split(s) == [[s[0]] + rest[0]];
        assert s == [s[0]] + s[1..];
      } else {
        var head := [s[0]] + rest[0];
        assert Split(s) == [head] + rest[1..];
        assert ([head] + rest[1..])[1..] == rest[1..];
        assert JoinSlash(rest) == rest[0] + "/" + JoinSlash(rest[1..]);
        assert s == [s[0]] + s[1..];
      }
    }
  }

  /** A string with no slash splits into itself. */
  lemma {:induction false} SplitNoSlash(s: string)
    requires '/' !in s
    ensures Split(s) == [s]
  {
    if s != [] {
      assert '/' !in s[1..];
      SplitNoSlash(s[1..]);
      assert s == [s[0]] + s[1..];
    }
  }

  /** Splitting distributes over a slash. */
  lemma {:induction false} SplitConcat(a: string, b: string)
    ensures Split(a + "/" + b) == Split(a) + Split(b)
    decreases |a|
  {
    if a == [] {
      assert a + "/" + b == ['/'] + b;
      SplitCons('/', b);
    } else {
      var t := a[1..] + "/" + b;
      assert a + "/" + b == [a[0]] + t;
      assert a == [a[0]] + a[1..];
      SplitConcat(a[1..], b);
      SplitCons(a[0], t);
      SplitCons(a[0], a[1..]);
      SplitConsAppend(a[0], a[1..], Split(b));
    }
  }

  /** The shape of one Split step, with the pieces after a slash appended. */
  lemma SplitConsAppend(c: char, t: string, tail: seq<string>)
    ensures var r := Split(t);
      (if c == '/' then [""] + (r + tail) else [[c] + (r + tail)[0]] + (r + tail)[1..])
      == (if c == '/' then [""] + r else [[c] + r[0]] + r[1..]) + tail
  {
    var r := Split(t);
    assert (r + tail)[0] == r[0];
    assert (r + tail)[1..] == r[1..] + tail;
    if c == '/' {
      assert [""] + (r + tail) == ([""] + r) + tail;
    } else {
      var h := [c] + r[0];
      assert [h] + (r[1..] + tail) == ([h] + r[1..]) + tail;
    }
  }

  /** One step of Split: the first character either ends a piece or starts one. */
  lemma SplitCons(c: char, t: string)
    ensures Split([c] + t) ==
      if c == '/' then [""] + Split(t) else [[c] + Split(t)[0]] + Split(t)[1..]
  {
    assert ([c] + t)[0] == c;
    assert ([c] + t)[1..] == t;
  }

  /** Splitting a "/"-join of slash-free segments gives the segments back. */
  lemma {:induction false} SplitJoin(p: seq<string>)
    requires |p| >= 1 && NoSlash(p)
    ensures Split(JoinSlash(p)) == p
  {
    if |p| == 1 {
      SplitNoSlash(p[0]);
    } else {
      SplitNoSlash(p[0]);
      assert NoSlash(p[1..]);
      SplitJoin(p[1..]);
      assert JoinSlash(p) == p[0] + "/" + JoinSlash(p[1..]);
      SplitConcat(p[0], JoinSlash(p[1..]));
      assert p == [p[0]] + p[1..];
    }
  }

  /** `str()` of a normalised path parses back to that path. */
  lemma {:induction false} ParseRender(p: Path)
    requires Normal(p)
    ensures Parse(Render(p)) == p
  {
    if p == [] {
      assert Render(p) == "/";
      assert Split("/") == [""] + Split("");
    } else {
      SplitConcat("", JoinSlash(p));
      assert Render(p) == "" + "/" + JoinSlash(p);
      SplitJoin(p);
      PartsOfNames(p);
      assert Split(Render(p)) == [""] + p;
    }
  }

  /** Parts keeps a sequence of names as it is. */
  lemma {:induction false} PartsOfNames(p: seq<string>)
    requires Normal(p)
    ensures Parts(p) == p
  {
    if p != [] {
      assert Normal(p[1..]);
      PartsOfNames(p[1..]);
      assert p == [p[0]] + p[1..];
    }
  }

  /** Resolving a concatenation resolves the first part, then the second. */
  lemma {:induction false} ResolveFromAppend(cur: Path, a: seq<string>, b: seq<string>)
    ensures ResolveFrom(cur, a + b) == ResolveFrom(ResolveFrom(cur, a), b)
    decreases |a|
  {
    if a == [] {
      assert a + b == b;
    } else {
      assert (a + b)[0] == a[0];
      assert (a + b)[1..] == a[1..] + b;
      var next := if a[0] == "" || a[0] == "." then cur
                  else if a[0] == ".." then Parent(cur)
                  else cur + [a[0]];
      assert ResolveFrom(cur, a + b) == ResolveFrom(next, a[1..] + b);
      assert ResolveFrom(cur, a) == ResolveFrom(next, a[1..]);
      ResolveFromAppend(next, a[1..], b);
    }
  }

  /**
   * is_relative_to is a prefix test on segments, not on strings: b/ys has
   * the string b/y as its prefix (as "/home/user2" has "/home/user"), yet
   * it is not below b/y.
   */
  lemma SegmentPrefixNotStringPrefix(b: Path, y: string, s: string)
    requires Normal(b) && IsName(y) && s != [] && '/' !in s
    ensures Render(b + [y + s]) == Render(b + [y]) + s
    ensures !IsRelativeTo(b + [y + s], b + [y])
  {
    JoinSlashSnoc(b, y);
    JoinSlashSnoc(b, y + s);
    var y' := (b + [y + s])[..|b + [y]|][|b|];
    assert y' == y + s && |y'| != |y|;
  }

  /** Joining one more segment on the right adds a slash and the segment. */
  lemma {:induction false} JoinSlashSnoc(b: seq<string>, z: string)
    ensures JoinSlash(b + [z]) == if b == [] then z else JoinSlash(b) + "/" + z
    decreases |b|
  {
    if b != [] {
      var t := b[1..];
      assert (b + [z])[0] == b[0] && (b + [z])[1..] == t + [z];
      JoinSlashSnoc(t, z);
      if t != [] {
        assert JoinSlash(b) == b[0] + "/" + JoinSlash(t);
      }
    }
  }
}
