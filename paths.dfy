/**
 * Paths as sequences of components, and the two string forms the organiser
 * meets: a value appended to a path with pathlib's `/` operator, and an
 * archive entry name written with '/' as the separator.
 */
module Paths {

  /** A path relative to the working directory, one component per element. */
  type Path = seq<string>

  /** A component a directory listing can hold: not empty, no separator. */
  predicate IsName(s: string) {
    s != "" && '/' !in s
  }

  /** "." and "..": names that always denote a directory, never a file of their own. */
  predicate IsDotName(s: string) {
    s == "." || s == ".."
  }

  predicate IsPath(p: Path) {
    forall k :: 0 <= k < |p| ==> IsName(p[k])
  }

  function Parent(p: Path): Path
    requires p != []
  {
    p[..|p| - 1]
  }

  /** The last component: a file's own name. */
  function Last(p: Path): string
    requires p != []
  {
    p[|p| - 1]
  }

  /** The components joined with '/', as `os.path.join` does on POSIX. */
  function Join(p: Path): string {
    if |p| == 0 then ""
    else if |p| == 1 then p[0]
    else p[0] + "/" + Join(p[1..])
  }

  /** `s` cut at every separator, as `str.split("/")` does; built one character at a time. */
  function Split(s: string): (r: Path)
    ensures |r| >= 1
    decreases |s|
  {
    if |s| == 0 then [""]
    else
      var rest := Split(s[1..]);
      if s[0] == '/' then [""] + rest else [[s[0]] + rest[0]] + rest[1..]
  }

  /** No piece of a split holds a separator. */
  lemma {:induction false} SplitPiecesHaveNoSlash(s: string)
    ensures forall k :: 0 <= k < |Split(s)| ==> '/' !in Split(s)[k]
    decreases |s|
  {
    if |s| > 0 {
      SplitPiecesHaveNoSlash(s[1..]);
    }
  }

  lemma JoinCons(a: string, rest: Path)
    requires rest != []
    ensures Join([a] + rest) == a + "/" + Join(rest)
  {
    assert ([a] + rest)[1..] == rest;
  }

  /** Joining the pieces of a split gives the string back. */
  lemma {:induction false} JoinSplit(s: string)
    ensures Join(Split(s)) == s
    decreases |s|
  {
    if |s| > 0 {
      var rest := Split(s[1..]);
      JoinSplit(s[1..]);
      if s[0] == '/' {
        JoinCons("", rest);
        assert s == "" + "/" + s[1..];
      } else {
        var head := [s[0]] + rest[0];
        if |rest| == 1 {
          assert Split(s) == [head];
          assert s == [s[0]] + s[1..];
        } else {
          JoinCons(rest[0], rest[1..]);
          assert rest == [rest[0]] + rest[1..];
          JoinCons(head, rest[1..]);
          assert s == [s[0]] + s[1..];
        }
      }
    }
  }

  /** A string without separators splits into itself alone. */
  lemma {:induction false} SplitName(a: string)
    requires '/' !in a
    ensures Split(a) == [a]
    decreases |a|
  {
    if |a| > 0 {
      SplitName(a[1..]);
      assert a == [a[0]] + a[1..];
    }
  }

  /** Splitting cuts at the first separator and goes on after it. */
  lemma {:induction false} SplitConcat(a: string, b: string)
    requires '/' !in a
    ensures Split(a + "/" + b) == [a] + Split(b)
    decreases |a|
  {
    var s := a + "/" + b;
    if |a| == 0 {
      assert s[1..] == b;
    } else {
      SplitConcat(a[1..], b);
      assert s[1..] == a[1..] + "/" + b;
      assert a == [a[0]] + a[1..];
    }
  }

  /** Splitting an entry name recovers the path it was joined from. */
  lemma {:induction false} SplitJoin(p: Path)
    requires p != [] && IsPath(p)
    ensures Split(Join(p)) == p
  {
    if |p| == 1 {
      SplitName(p[0]);
    } else {
      SplitJoin(p[1..]);
      SplitConcat(p[0], Join(p[1..]));
      assert p == [p[0]] + p[1..];
    }
  }

  /**
   * The components that pathlib appends for a relative value: the value is cut
   * at every separator and the empty and "." pieces are dropped, in order.
   */
  function Segments(v: string): (r: Path)
    ensures IsPath(r)
    ensures forall c :: c in r <==> c in Split(v) && c != "" && c != "."
  {
    SplitPiecesHaveNoSlash(v);
    Kept(Split(v))
  }

  function Kept(pieces: seq<string>): (r: Path)
    requires forall k :: 0 <= k < |pieces| ==> '/' !in pieces[k]
    ensures IsPath(r)
    ensures forall c :: c in r <==> c in pieces && c != "" && c != "."
  {
    if pieces == [] then []
    else
      var rest := Kept(pieces[1..]);
      assert forall c :: c in pieces <==> c == pieces[0] || c in pieces[1..];
      if pieces[0] == "" || pieces[0] == "." then rest else [pieces[0]] + rest
  }

  /** A value that is already a plain name stays a single component. */
  lemma SegmentsOfName(v: string)
    requires IsName(v) && v != "."
    ensures Segments(v) == [v]
  {
    SplitName(v);
    assert Kept([v]) == [v] + Kept([]);
  }

  /**
   * Components come in the order of the value: the value is cut at its first
   * separator and the rest follows, as pathlib's `p / "a/b"` is `p / "a" / "b"`.
   */
  lemma SegmentsConcat(a: string, b: string)
    requires '/' !in a
    ensures Segments(a + "/" + b) == (if a == "" || a == "." then [] else [a]) + Segments(b)
  {
    SplitConcat(a, b);
    SplitPiecesHaveNoSlash(b);
    var pieces := [a] + Split(b);
    assert pieces[1..] == Split(b);
  }

  /** An empty value adds no component: pathlib's `p / ""` is `p`. */
  lemma SegmentsOfEmpty()
    ensures Segments("") == []
  {
  }
}
