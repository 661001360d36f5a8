/**
 * The working directory as mutable state: the calls in app.py that create
 * directories and write files change it in place, each proved against the
 * matching function of module FileSystem.
 */
module LocalDisk {

  import opened Wrappers
  import opened Paths
  import FileSystem

  class Disk {
    var dirs: set<Path>
    var files: map<Path, FileSystem.Content>

    function State(): FileSystem.Fs
      reads this
    {
      FileSystem.Fs(dirs, files)
    }

    ghost predicate Valid()
      reads this
    {
      FileSystem.WellFormed(State())
    }

    constructor (fs: FileSystem.Fs)
      requires FileSystem.WellFormed(fs)
      ensures Valid() && State() == fs
    {
      dirs := fs.dirs;
      files := fs.files;
    }

    /** Creates `p` and its missing ancestors, one level at a time from the top. */
    method MakeDirs(p: Path) returns (ok: bool)
      requires Valid() && IsPath(p)
      modifies this
      ensures Valid()
      ensures FileSystem.MakeDirs(old(State()), p) == if ok then Some(State()) else None
      ensures ok <==> !FileSystem.BlockedByFile(old(State()), p)
      ensures ok ==> dirs == old(dirs) + FileSystem.Prefixes(p) && files == old(files)
      ensures !ok ==> State() == old(State())
    {
      FileSystem.MakeDirsKeepsWellFormed(State(), p);
      var k := 1;
      while k <= |p|
        invariant 1 <= k <= |p| + 1
        invariant files == old(files)
        invariant dirs == old(dirs) + FileSystem.Prefixes(p[..k - 1])
        invariant forall j :: 1 <= j < k ==> p[..j] !in files
      {
        if p[..k] in files {
          assert Parent(p[..k]) == p[..k - 1];
          FileSystem.AncestorsAreDirs(old(State()), p[..k - 1]);
          return false;
        }
        FileSystem.PrefixesExtend(p, k);
        dirs := dirs + {p[..k]};
        k := k + 1;
      }
      assert p[..|p|] == p;
      ok := true;
    }

    method EnsureDirectory(p: Path) returns (ok: bool)
      requires Valid() && IsPath(p)
      modifies this
      ensures Valid()
      ensures FileSystem.EnsureDirectory(old(State()), p) == if ok then Some(State()) else None
      ensures !ok ==> State() == old(State())
    {
      if p in dirs || p in files {
        ok := true;
      } else {
        ok := MakeDirs(p);
      }
    }

    method WriteFile(p: Path, c: FileSystem.Content) returns (ok: bool)
      requires Valid() && IsPath(p)
      modifies this
      ensures Valid()
      ensures FileSystem.WriteFile(old(State()), p, c) == if ok then Some(State()) else None
      ensures !ok ==> State() == old(State())
    {
      FileSystem.WriteFileKeepsWellFormed(State(), p, c);
      if p == [] || Parent(p) !in dirs || p in dirs || IsDotName(Last(p)) {
        ok := false;
      } else {
        files := files[p := c];
        ok := true;
      }
    }

    method Copy(src: Path, dst: Path) returns (ok: bool)
      requires Valid() && IsPath(dst)
      modifies this
      ensures Valid()
      ensures FileSystem.Copy(old(State()), src, dst) == if ok then Some(State()) else None
      ensures !ok ==> State() == old(State())
    {
      if src == [] || src !in files {
        ok := false;
      } else {
        var target := FileSystem.CopyTarget(State(), src, dst);
        FileSystem.CopyWritesOnlyItsTarget(State(), src, dst);
        ok := WriteFile(target, files[src]);
      }
    }
  }
}
