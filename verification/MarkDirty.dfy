/** Marking everything below a path dirty. */
module MarkDirty {
  import opened Common
  import opened Paths
  import opened Directory
  import opened Cache
  import opened CacheInvariant
  import opened CacheLog
  import Marks
  import DirtyLog

  /** Some inode is shown under the path `q`. */
  ghost predicate IsShownPath(c: Cache, q: Path) {
    exists i :: Shown(c, i) && c.files[DefaultOf(i)].path == q
  }

  /** A shown path at or below `at`. */
  ghost predicate Within(c: Cache, at: seq<string>, q: Path) {
    IsShownPath(c, q) && at <= Split(q)
  }

  lemma ShownPathFound(c: Cache, q: Path) returns (i: Inode)
    requires AllPlaced(c.tree, c.files) && IsShownPath(c, q)
    ensures Shown(c, i) && c.files[DefaultOf(i)].path == q && Lookup(c.tree, Split(q)) == Ok(DirEntry(i, File))
  {
    i :| Shown(c, i) && c.files[DefaultOf(i)].path == q;
    assert Placed(c.tree, i, c.files[DefaultOf(i)]);
  }

  lemma FilePrefix(t: Tree, at: seq<string>, path: seq<string>)
    requires IsFile(t, at) && Lookup(t, path).Ok? && at <= path
    ensures at == path
  {
    assert at == path[..|at|];
    if |at| < |path| {
      PrefixFound(t, path, |at|);
    }
  }

  /** Where a file is found, it is the only one shown at or below. */
  lemma WithinFile(c: Cache, at: seq<string>, inode: Inode, q: Path)
    requires IsTree(c.tree) && AllPlaced(c.tree, c.files)
    requires Lookup(c.tree, at) == Ok(DirEntry(inode, File))
    ensures Within(c, at, q) <==> Shown(c, inode) && c.files[DefaultOf(inode)].path == q
  {
    if Within(c, at, q) {
      var i := ShownPathFound(c, q);
      FilePrefix(c.tree, at, Split(q));
    }
    if Shown(c, inode) && c.files[DefaultOf(inode)].path == q {
      assert Placed(c.tree, inode, c.files[DefaultOf(inode)]);
      LookupInjective(c.tree, at, Split(q));
    }
  }

  lemma DirectoryPrefix(t: Tree, at: seq<string>, inode: Inode, path: seq<string>)
    requires Lookup(t, at) == Ok(DirEntry(inode, Directory)) && IsFile(t, path) && at <= path
    ensures |at| < |path| && Key(inode, path[|at|]) in t.dirs && at + [path[|at|]] <= path
  {
    assert at == path[..|at|];
    assert |at| == |path| ==> at == path;
    var next := path[..|at| + 1];
    assert next == at + [path[|at|]] && next[..|next| - 1] == at;
    if |next| < |path| {
      PrefixFound(t, path, |next|);
    } else {
      assert next == path;
    }
  }

  /** What is shown within a directory is within one of its entries. */
  lemma WithinDirectory(c: Cache, at: seq<string>, inode: Inode, q: Path)
    requires AllPlaced(c.tree, c.files)
    requires Lookup(c.tree, at) == Ok(DirEntry(inode, Directory)) && Within(c, at, q)
    ensures |at| < |Split(q)| && Key(inode, Split(q)[|at|]) in c.tree.dirs && Within(c, at + [Split(q)[|at|]], q)
  {
    var i := ShownPathFound(c, q);
    DirectoryPrefix(c.tree, at, inode, Split(q));
  }

  lemma ChildFound(t: Tree, at: seq<string>, key: Key)
    requires Lookup(t, at) == Ok(DirEntry(key.parent, Directory)) && key in t.dirs
    ensures Lookup(t, at + [key.name]) == Ok(t.dirs[key])
  {
    var path := at + [key.name];
    assert path[..|path| - 1] == at;
  }

  /** A file has no entries. */
  lemma FileIsLeaf(t: Tree, at: seq<string>, key: Key)
    requires IsTree(t) && Rooted(t) && key in t.dirs
    requires Lookup(t, at).Ok? && Lookup(t, at).value.inode == key.parent
    ensures Lookup(t, at).value.kind == Directory
  {
    assert IsDirectory(t, key.parent);
    if at != [] {
      var up := Lookup(t, at[..|at| - 1]).value;
      var k := Key(up.inode, at[|at| - 1]);
      assert t.dirs[k] == Lookup(t, at).value;
    }
  }

  method MarkFileDirty(c: Cache, log: DirtyLog.Log, inode: Inode) returns (r: DirtyLog.Log, ghost ps: seq<string>)
    ensures r == MarkedAll(log, ps)
    ensures forall q :: q in ps <==> Shown(c, inode) && c.files[DefaultOf(inode)].path == q
  {
    r, ps := log, [];
    if Shown(c, inode) {
      r := DirtyLog.MarkDirty(log, c.files[DefaultOf(inode)].path);
      ps := [c.files[DefaultOf(inode)].path];
      assert ps[..0] == [];
      assert MarkedAll(log, []) == log;
    }
  }

  /** A shown path within the entry `k` of the directory `at`. */
  ghost predicate WithinEntry(c: Cache, at: seq<string>, k: Key, q: Path) {
    Within(c, at + [k.name], q)
  }

  /** `ps` lists the paths shown within `at`. */
  ghost predicate AllWithin(c: Cache, at: seq<string>, ps: seq<string>) {
    forall q: Path :: q in ps <==> Within(c, at, q)
  }

  lemma WithinEntries(c: Cache, at: seq<string>, inode: Inode, q: Path)
    requires InPlace(c) && Rooted(c.tree) && Lookup(c.tree, at) == Ok(DirEntry(inode, Directory))
    ensures Within(c, at, q) <==> exists k | k in c.tree.dirs && k.parent == inode :: WithinEntry(c, at, k, q)
  {
    if Within(c, at, q) {
      WithinDirectory(c, at, inode, q);
      assert WithinEntry(c, at, Key(inode, Split(q)[|at|]), q);
    }
  }

  lemma FileHasNoEntries(t: Tree, at: seq<string>, inode: Inode)
    requires IsTree(t) && Rooted(t) && Lookup(t, at) == Ok(DirEntry(inode, File))
    ensures forall k | k in t.dirs :: k.parent != inode
  {
    forall k | k in t.dirs && k.parent == inode ensures false {
      FileIsLeaf(t, at, k);
    }
  }

  method MarkEntryDirty(c: Cache, log: DirtyLog.Log, k: Key, ghost at: seq<string>)
    returns (r: DirtyLog.Log, ghost ps: seq<string>)
    requires InPlace(c) && Rooted(c.tree) && Lookup(c.tree, at) == Ok(DirEntry(k.parent, Directory)) && k in c.tree.dirs
    ensures r == MarkedAll(log, ps) && forall q: Path :: q in ps <==> WithinEntry(c, at, k, q)
    decreases c.tree.next - k.parent, 0
  {
    var e := c.tree.dirs[k];
    ChildFound(c.tree, at, k);
    if e.kind == File {
      r, ps := MarkFileDirty(c, log, e.inode);
      forall q: Path ensures q in ps <==> WithinEntry(c, at, k, q) {
        WithinFile(c, at + [k.name], e.inode, q);
      }
    } else {
      r, ps := MarkDirDirty(c, log, e.inode, at + [k.name], Directory);
    }
  }

  /** Goes through the entries of a directory, in any order, and down into its directories. */
  method MarkDirDirty(c: Cache, log: DirtyLog.Log, inode: Inode, ghost at: seq<string>, ghost kind: Kind)
    returns (r: DirtyLog.Log, ghost ps: seq<string>)
    requires InPlace(c) && Rooted(c.tree) && Lookup(c.tree, at) == Ok(DirEntry(inode, kind))
    ensures r == MarkedAll(log, ps)
    ensures kind == Directory ==> AllWithin(c, at, ps)
    ensures kind == File ==> ps == []
    decreases c.tree.next - inode, 1
  {
    var left := set k | k in c.tree.dirs && k.parent == inode;
    ghost var all := left;
    if kind == File {
      FileHasNoEntries(c.tree, at, inode);
    }
    r, ps := log, [];
    while left != {}
      invariant left <= all && r == MarkedAll(log, ps) && (kind == File ==> ps == [])
      invariant forall q: Path :: q in ps <==> exists k | k in all && k !in left :: WithinEntry(c, at, k, q)
      decreases |left|
    {
      var k :| k in left;
      left := left - {k};
      ghost var qs;
      r, qs := MarkEntryDirty(c, r, k, at);
      MarkedAllConcat(log, ps, qs);
      ps := ps + qs;
    }
    if kind == Directory {
      forall q: Path ensures q in ps <==> Within(c, at, q) {
        WithinEntries(c, at, inode, q);
      }
    }
  }

  /** The shown paths at or below `path`, in the sense of `StartsWith`, or all of them. */
  ghost predicate Affected(c: Cache, path: Option<Path>, q: Path) {
    IsShownPath(c, q) && Marks.AtOrAbove(path, Some(q))
  }

  lemma AffectedIsWithin(c: Cache, path: Option<Path>, q: Path)
    ensures Affected(c, path, q) <==> Within(c, Components(path), q)
  {
    if path.Some? {
      StartsWithIsPrefix(q, path.value);
    }
  }

  lemma FoundPrefix(t: Tree, at: seq<string>, path: seq<string>)
    requires Lookup(t, path).Ok? && at <= path
    ensures Lookup(t, at).Ok?
  {
    assert at == path[..|at|];
    if |at| < |path| {
      PrefixFound(t, path, |at|);
    } else {
      assert at == path;
    }
  }

  lemma LookupErrors(t: Tree, cs: seq<string>)
    ensures Lookup(t, cs).Err? ==> Lookup(t, cs).error == NotFound || Lookup(t, cs).error == NotADirectory
  {
  }

  /** Nothing is shown below a path that is not found. */
  lemma NothingWithin(c: Cache, at: seq<string>, q: Path)
    requires AllPlaced(c.tree, c.files) && Lookup(c.tree, at).Err?
    ensures !Within(c, at, q)
  {
    if Within(c, at, q) {
      var i := ShownPathFound(c, q);
      FoundPrefix(c.tree, at, Split(q));
    }
  }

  method FindPath(t: Tree, path: Option<Path>) returns (r: Result<DirEntry, StorageError>)
    ensures r == Lookup(t, Components(path))
  {
    var cs := Components(path);
    var current := DirEntry(t.root, Directory);
    for i := 0 to |cs|
      invariant Lookup(t, cs[..i]) == Ok(current)
    {
      assert cs[..i + 1][..i] == cs[..i];
      if current.kind != Directory || Key(current.inode, cs[i]) !in t.dirs {
        LookupStops(t, cs, i + 1);
        return if current.kind != Directory then Err(NotADirectory) else Err(NotFound);
      }
      current := t.dirs[Key(current.inode, cs[i])];
    }
    assert cs[..|cs|] == cs;
    r := Ok(current);
  }

  /** The first error on the way is the answer. */
  lemma {:induction false} LookupStops(t: Tree, cs: seq<string>, i: nat)
    requires i <= |cs| && Lookup(t, cs[..i]).Err?
    ensures Lookup(t, cs) == Lookup(t, cs[..i])
    decreases |cs|
  {
    if i == |cs| {
      assert cs[..i] == cs;
    } else {
      assert cs[..|cs| - 1][..i] == cs[..i];
      LookupStops(t, cs[..|cs| - 1], i);
    }
  }

  /** Marks exactly the affected paths; fails only if a file is in the way. */
  method MarkDirtyRecursive(c: Cache, log: DirtyLog.Log, path: Option<Path>)
    returns (r: Result<DirtyLog.Log, StorageError>, ghost ps: seq<string>)
    requires InPlace(c) && Rooted(c.tree)
    ensures r.Err? <==> Lookup(c.tree, Components(path)) == Err(NotADirectory)
    ensures r.Ok? ==> r.value == MarkedAll(log, ps)
    ensures r.Ok? ==> forall q: Path :: q in ps <==> Affected(c, path, q)
  {
    var found := FindPath(c.tree, path);
    LookupErrors(c.tree, Components(path));
    ps := [];
    match found {
      case Ok(e) =>
        var log1, qs := MarkFileDirty(c, log, e.inode);
        var log2, rs := MarkDirDirty(c, log1, e.inode, Components(path), e.kind);
        MarkedAllConcat(log, qs, rs);
        r, ps := Ok(log2), qs + rs;
        forall q: Path ensures q in ps <==> Affected(c, path, q) {
          FoundAffected(c, path, e, q);
        }
      case Err(NotFound) =>
        r := Ok(log);
        forall q: Path ensures !Affected(c, path, q) {
          AffectedIsWithin(c, path, q);
          NothingWithin(c, Components(path), q);
        }
      case Err(e) => r := Err(e);
    }
  }

  lemma FoundAffected(c: Cache, path: Option<Path>, e: DirEntry, q: Path)
    requires InPlace(c) && Lookup(c.tree, Components(path)) == Ok(e)
    ensures e.kind == File ==> (Affected(c, path, q) <==> Shown(c, e.inode) && c.files[DefaultOf(e.inode)].path == q)
    ensures e.kind == Directory ==> (Affected(c, path, q) <==> Within(c, Components(path), q)) && !Shown(c, e.inode)
  {
    AffectedIsWithin(c, path, q);
    if e.kind == File {
      WithinFile(c, Components(path), e.inode, q);
    } else if Shown(c, e.inode) {
      assert Placed(c.tree, e.inode, c.files[DefaultOf(e.inode)]);
      LookupInjective(c.tree, Components(path), Split(c.files[DefaultOf(e.inode)].path));
    }
  }
}
