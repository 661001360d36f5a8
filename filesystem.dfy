/**
 * The part of the file system the organiser touches, as a value: the set of
 * directories and the map from file paths to their bytes, all relative to the
 * working directory (the empty path). Each operation returns `None` where the
 * real call raises an `OSError`, and then changes nothing.
 */
module FileSystem {

  import opened Wrappers
  import opened Paths

  type Content = seq<bv8>

  datatype Fs = Fs(dirs: set<Path>, files: map<Path, Content>)

  /** What every real directory tree satisfies. */
  ghost predicate WellFormed(fs: Fs) {
    && [] in fs.dirs
    && (forall p :: p in fs.dirs ==> IsPath(p))
    && (forall p :: p in fs.dirs && p != [] ==> Parent(p) in fs.dirs)
    && (forall p :: p in fs.files ==> p != [] && IsPath(p) && Parent(p) in fs.dirs && p !in fs.dirs)
  }

  function Prefixes(p: Path): set<Path> {
    set k | 0 <= k <= |p| :: p[..k]
  }

  /** Some non-empty prefix of `p`, `p` itself included, is an existing file. */
  predicate BlockedByFile(fs: Fs, p: Path) {
    exists k :: 1 <= k <= |p| && p[..k] in fs.files
  }

  /** `Path.mkdir(parents=True, exist_ok=True)` (app.py:49). */
  function MakeDirs(fs: Fs, p: Path): Option<Fs> {
    if BlockedByFile(fs, p) then None else Some(fs.(dirs := fs.dirs + Prefixes(p)))
  }

  /** `ensure_directory` (app.py:9-11): `os.makedirs` only when nothing exists at `p`. */
  function EnsureDirectory(fs: Fs, p: Path): Option<Fs> {
    if p in fs.dirs || p in fs.files then Some(fs) else MakeDirs(fs, p)
  }

  /**
   * `open(p, "wb").write(c)` (app.py:16-17, 33-34): fails when the parent is
   * not a directory, or when `p` names a directory, which a last component
   * "." or ".." always does.
   */
  function WriteFile(fs: Fs, p: Path, c: Content): Option<Fs> {
    if p == [] || Parent(p) !in fs.dirs || p in fs.dirs || IsDotName(Last(p)) then None
    else Some(fs.(files := fs.files[p := c]))
  }

  /** Where `shutil.copy(src, dst)` writes: into `dst` when it is a directory. */
  function CopyTarget(fs: Fs, src: Path, dst: Path): Path
    requires src != []
  {
    if dst in fs.dirs then dst + [Last(src)] else dst
  }

  /** `shutil.copy(src, dst)` (app.py:55): fails when `src` is not a file. */
  function Copy(fs: Fs, src: Path, dst: Path): Option<Fs> {
    if src == [] || src !in fs.files then None
    else WriteFile(fs, CopyTarget(fs, src, dst), fs.files[src])
  }

  /**
   * The files below `root`, keyed by their path relative to `root`, as
   * `os.walk` followed by `os.path.relpath` lists them (app.py:62-65).
   */
  function Walk(fs: Fs, root: Path): (t: map<Path, Content>)
    ensures forall q :: q in t <==> q != [] && root + q in fs.files
    ensures forall q :: q in t ==> t[q] == fs.files[root + q]
  {
    var below := set p | p in fs.files && |p| > |root| && p[..|root|] == root :: p[|root|..];
    assert forall q :: q != [] && root + q in fs.files ==> q in below by {
      forall q | q != [] && root + q in fs.files ensures q in below {
        var p := root + q;
        assert p[..|root|] == root && p[|root|..] == q;
      }
    }
    map q | q in below && root + q in fs.files :: fs.files[root + q]
  }

  /** Every prefix of an existing directory is an existing directory. */
  lemma {:induction false} AncestorsAreDirs(fs: Fs, p: Path)
    requires WellFormed(fs) && p in fs.dirs
    ensures Prefixes(p) <= fs.dirs
  {
    if p != [] {
      AncestorsAreDirs(fs, Parent(p));
      forall q | q in Prefixes(p) ensures q in fs.dirs {
        var k :| 0 <= k <= |p| && q == p[..k];
        if k < |p| {
          assert q == Parent(p)[..k];
        } else {
          assert q == p;
        }
      }
    }
  }

  lemma PrefixesExtend(p: Path, k: nat)
    requires 1 <= k <= |p|
    ensures Prefixes(p[..k]) == Prefixes(p[..k - 1]) + {p[..k]}
  {
    var a, b := p[..k], p[..k - 1];
    assert b == a[..k - 1];
    forall q | q in Prefixes(a) ensures q in Prefixes(b) + {a} {
      var j :| 0 <= j <= k && q == a[..j];
      if j < k {
        assert q == b[..j];
      } else {
        assert q == a;
      }
    }
    forall q | q in Prefixes(b) ensures q in Prefixes(a) {
      var j :| 0 <= j <= k - 1 && q == b[..j];
      assert q == a[..j];
    }
    assert a[..k] == a;
  }

  /** A path with an existing directory on it is never blocked by a file below it. */
  lemma DirIsNotBlocked(fs: Fs, p: Path)
    requires WellFormed(fs) && p in fs.dirs
    ensures !BlockedByFile(fs, p)
  {
    AncestorsAreDirs(fs, p);
    forall k | 1 <= k <= |p| ensures p[..k] !in fs.files {
      assert p[..k] in Prefixes(p);
    }
  }

  /**
   * Creating a directory that exists changes nothing, so creating the same
   * directory twice is the same as creating it once.
   */
  lemma MakeDirsIdempotent(fs: Fs, p: Path)
    requires WellFormed(fs)
    ensures p in fs.dirs ==> MakeDirs(fs, p) == Some(fs)
    ensures MakeDirs(fs, p).Some? ==> MakeDirs(MakeDirs(fs, p).value, p) == MakeDirs(fs, p)
  {
    if p in fs.dirs {
      DirIsNotBlocked(fs, p);
      AncestorsAreDirs(fs, p);
      assert fs.dirs + Prefixes(p) == fs.dirs;
    }
  }

  /** `mkdir` fails exactly when a file stands on the path; on success the directory and all its ancestors exist. */
  lemma MakeDirsKeepsWellFormed(fs: Fs, p: Path)
    requires WellFormed(fs) && IsPath(p)
    ensures MakeDirs(fs, p).None? <==> BlockedByFile(fs, p)
    ensures MakeDirs(fs, p).Some? ==>
      var fs' := MakeDirs(fs, p).value;
      WellFormed(fs') && Prefixes(p) <= fs'.dirs && fs'.files == fs.files
  {
    if !BlockedByFile(fs, p) {
      var fs' := MakeDirs(fs, p).value;
      forall q | q in fs'.dirs && q != [] ensures Parent(q) in fs'.dirs {
        if q in Prefixes(p) {
          var k :| 0 <= k <= |p| && q == p[..k];
          assert Parent(q) == p[..k - 1];
        }
      }
      forall q | q in fs'.dirs ensures IsPath(q) {
        if q in Prefixes(p) {
          var k :| 0 <= k <= |p| && q == p[..k];
        }
      }
    }
  }

  lemma WriteFileKeepsWellFormed(fs: Fs, p: Path, c: Content)
    requires WellFormed(fs) && IsPath(p)
    ensures WriteFile(fs, p, c).Some? ==> WellFormed(WriteFile(fs, p, c).value)
  {
  }

  /**
   * A copy writes the source's bytes at one target, a new name inside `dst`
   * when `dst` is a directory, and changes no other file and no directory.
   */
  lemma CopyWritesOnlyItsTarget(fs: Fs, src: Path, dst: Path)
    requires WellFormed(fs) && IsPath(dst)
    ensures Copy(fs, src, dst).Some? ==>
      && src in fs.files
      && var target := CopyTarget(fs, src, dst);
      && Copy(fs, src, dst).value == fs.(files := fs.files[target := fs.files[src]])
      && WellFormed(Copy(fs, src, dst).value)
      && (dst !in fs.dirs ==> target == dst)
  {
    if src in fs.files {
      var target := CopyTarget(fs, src, dst);
      assert IsPath(target);
    }
  }
}
