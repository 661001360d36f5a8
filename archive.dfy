/**
 * The zip step (app.py:61-66): one entry per file below the output root, named
 * by the file's relative path with '/' separators. The zip encoding itself is
 * not modelled; an archive is the map from entry name to entry bytes.
 */
module Archive {

  import opened Paths
  import opened FileSystem
  import opened LocalDisk

  type Entries = map<string, Content>

  /** The entry names of the files of `tree`. */
  function Names(tree: map<Path, Content>): set<string> {
    set q | q in tree :: Join(q)
  }

  /**
   * `entries` lists exactly the files of `tree`: one entry per file, named by
   * the file's joined path and holding its bytes, and no other entry.
   */
  ghost predicate IsListing(entries: Entries, tree: map<Path, Content>) {
    && entries.Keys == Names(tree)
    && (forall q {:trigger q in tree} :: q in tree ==> entries[Join(q)] == tree[q])
  }

  /** Extraction: every entry is written back to the path its name spells. */
  function Unpack(entries: Entries): (tree: map<Path, Content>)
    ensures forall e {:trigger Split(e)} :: e in entries ==> Split(e) in tree && tree[Split(e)] == entries[e]
    ensures forall q :: q in tree ==> Join(q) in entries && Split(Join(q)) == q
  {
    forall e1, e2 | e1 in entries && e2 in entries && Split(e1) == Split(e2) ensures e1 == e2 {
      JoinSplit(e1);
      JoinSplit(e2);
    }
    forall e | e in entries ensures Join(Split(e)) == e {
      JoinSplit(e);
    }
    map e | e in entries :: Split(e) := entries[e]
  }

  /** Distinct proper paths have distinct entry names. */
  lemma JoinInjective(p: Path, q: Path)
    requires p != [] && IsPath(p) && q != [] && IsPath(q)
    ensures Join(p) == Join(q) ==> p == q
  {
    SplitJoin(p);
    SplitJoin(q);
  }

  /** Unpacking a listing of a tree gives back the tree, file for file. */
  lemma UnpackListing(entries: Entries, tree: map<Path, Content>)
    requires IsListing(entries, tree)
    requires forall q :: q in tree ==> q != [] && IsPath(q)
    ensures Unpack(entries) == tree
  {
    var u := Unpack(entries);
    forall q | q in tree ensures q in u && u[q] == tree[q] {
      SplitJoin(q);
      assert Join(q) in Names(tree);
    }
    forall q | q in u ensures q in tree {
      ListedNameIsInTree(entries, tree, Join(q));
    }
    SameMaps(u, tree);
  }

  /** Each entry name of a listing splits back into a file of the tree. */
  lemma ListedNameIsInTree(entries: Entries, tree: map<Path, Content>, e: string)
    requires IsListing(entries, tree)
    requires forall q :: q in tree ==> q != [] && IsPath(q)
    requires e in entries
    ensures Split(e) in tree
  {
    var p :| p in tree && e == Join(p);
    SplitJoin(p);
  }

  lemma SameMaps<K, V>(a: map<K, V>, b: map<K, V>)
    requires forall k :: k in b ==> k in a && a[k] == b[k]
    requires forall k :: k in a ==> k in b
    ensures a == b
  {
  }

  /** The relative paths of a walk are proper paths. */
  lemma WalkPathsAreProper(fs: Fs, root: Path)
    requires WellFormed(fs)
    ensures forall q :: q in Walk(fs, root) ==> q != [] && IsPath(q)
  {
    forall q | q in Walk(fs, root) ensures IsPath(q) {
      assert forall k :: 0 <= k < |q| ==> q[k] == (root + q)[|root| + k];
    }
  }

  /** Every entry of a listed walk unpacks to a file below the root, never to a directory. */
  lemma WalkListingHasOnlyFiles(fs: Fs, root: Path, entries: Entries)
    requires WellFormed(fs) && IsListing(entries, Walk(fs, root))
    ensures forall e :: e in entries ==> root + Split(e) in fs.files && root + Split(e) !in fs.dirs
  {
    WalkPathsAreProper(fs, root);
    forall e | e in entries ensures root + Split(e) in fs.files {
      var q :| q in Walk(fs, root) && e == Join(q);
      SplitJoin(q);
    }
  }

  lemma NamesExtend(done: map<Path, Content>, rel: Path, c: Content)
    ensures Names(done[rel := c]) == Names(done) + {Join(rel)}
  {
    forall e | e in Names(done[rel := c]) ensures e in Names(done) + {Join(rel)} {
      var q :| q in done[rel := c] && e == Join(q);
      if q != rel {
        assert e in Names(done);
      }
    }
  }

  /** Adding one more file of the tree keeps the listing exact. */
  lemma ListingExtend(entries: Entries, done: map<Path, Content>, rel: Path, c: Content)
    requires IsListing(entries, done)
    requires rel !in done && rel != [] && IsPath(rel)
    requires forall q :: q in done ==> q != [] && IsPath(q)
    ensures IsListing(entries[Join(rel) := c], done[rel := c])
  {
    var key := Join(rel);
    NamesExtend(done, rel, c);
    forall q | q in done ensures entries[key := c][Join(q)] == done[q] {
      JoinInjective(q, rel);
    }
  }

  /**
   * Adds every file below `root` under its relative path, in an unspecified
   * order as `os.walk` gives them; the result does not depend on the order.
   */
  method Pack(disk: Disk, root: Path) returns (entries: Entries)
    requires disk.Valid()
    ensures IsListing(entries, Walk(disk.State(), root))
  {
    var tree := Walk(disk.State(), root);
    WalkPathsAreProper(disk.State(), root);
    var pending := tree.Keys;
    entries := map[];
    ghost var done: map<Path, Content> := map[];
    while pending != {}
      invariant pending <= tree.Keys
      invariant forall q :: q in tree ==> (q in done <==> q !in pending)
      invariant forall q :: q in done ==> q in tree && done[q] == tree[q]
      invariant IsListing(entries, done)
      decreases pending
    {
      var q :| q in pending;
      ListingExtend(entries, done, q, tree[q]);
      entries := entries[Join(q) := tree[q]];
      done := done[q := tree[q]];
      pending := pending - {q};
    }
    SameMaps(done, tree);
  }
}
