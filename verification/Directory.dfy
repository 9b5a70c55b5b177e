/** The directory table: names under inodes, and looking paths up in it. */
module Directory {
  import opened Common

  type Inode = nat

  datatype StorageError = NotFound | NotADirectory | IsADirectory

  datatype Kind = File | Directory

  datatype DirEntry = DirEntry(inode: Inode, kind: Kind)

  datatype Key = Key(parent: Inode, name: string)

  /** `next` is the inode that the allocator hands out next. */
  datatype Tree = Tree(root: Inode, next: Inode, dirs: map<Key, DirEntry>)

  /** One name further. */
  function Step(t: Tree, e: DirEntry, name: string): Result<DirEntry, StorageError> {
    if e.kind != Directory then Err(NotADirectory)
    else if Key(e.inode, name) in t.dirs then Ok(t.dirs[Key(e.inode, name)])
    else Err(NotFound)
  }

  /** Follows the names from the root, one after the other. */
  function Lookup(t: Tree, cs: seq<string>): Result<DirEntry, StorageError> {
    if cs == [] then Ok(DirEntry(t.root, Directory))
    else
      match Lookup(t, cs[..|cs| - 1])
      case Err(e) => Err(e)
      case Ok(e) => Step(t, e, cs[|cs| - 1])
  }

  function AddEntry(t: Tree, key: Key, kind: Kind): Tree {
    Tree(t.root, t.next + 1, t.dirs[key := DirEntry(t.next, kind)])
  }

  /** Descends from the root, making the directories that are missing. */
  function MkDirs(t: Tree, cs: seq<string>): Result<(Tree, Inode), StorageError> {
    if cs == [] then Ok((t, t.root))
    else
      match MkDirs(t, cs[..|cs| - 1])
      case Err(e) => Err(e)
      case Ok((u, at)) => MkDir(u, Key(at, cs[|cs| - 1]))
  }

  function MkDir(t: Tree, key: Key): Result<(Tree, Inode), StorageError> {
    if key !in t.dirs then Ok((AddEntry(t, key, Directory), t.next))
    else if t.dirs[key].kind != Directory then Err(NotADirectory)
    else Ok((t, t.dirs[key].inode))
  }

  datatype Created = Created(tree: Tree, parent: Inode, inode: Inode)

  /** The file with name `name` in the directory `dir`, made if it is missing. */
  function CreateFile(t: Tree, dir: seq<string>, name: string): Result<Created, StorageError> {
    match MkDirs(t, dir)
    case Err(e) => Err(e)
    case Ok((u, parent)) =>
      var key := Key(parent, name);
      if key !in u.dirs then Ok(Created(AddEntry(u, key, File), parent, u.next))
      else if u.dirs[key].kind != File then Err(IsADirectory)
      else Ok(Created(u, parent, u.dirs[key].inode))
  }

  /** Drops the names that `parent` has for `inode`. */
  function RemoveEntry(t: Tree, parent: Inode, inode: Inode): Tree {
    t.(dirs := t.dirs - set k | k in t.dirs && k.parent == parent && t.dirs[k].inode == inode)
  }

  // ---------------------------------------------------------------------
  // A tree
  // ---------------------------------------------------------------------

  ghost predicate IsDirectory(t: Tree, inode: Inode) {
    inode == t.root || exists k | k in t.dirs :: t.dirs[k] == DirEntry(inode, Directory)
  }

  /** One parent and one name for each inode, and parents older than children. */
  ghost predicate IsTree(t: Tree) {
    && t.root < t.next
    && (forall k | k in t.dirs :: k.parent < t.dirs[k].inode < t.next && t.root < t.dirs[k].inode)
    && (forall k, l | k in t.dirs && l in t.dirs && t.dirs[k].inode == t.dirs[l].inode :: k == l)
  }

  /** Everything hangs below the root, and only directories have children. */
  ghost predicate Rooted(t: Tree) {
    forall k | k in t.dirs :: IsDirectory(t, k.parent)
  }

  lemma LookupBelow(t: Tree, cs: seq<string>)
    requires IsTree(t) && Lookup(t, cs).Ok?
    ensures Lookup(t, cs).value.inode < t.next
    ensures Lookup(t, cs).value.inode == t.root <==> cs == []
  {
  }

  lemma SameEntrySameKey(t: Tree, k: Key, l: Key)
    requires IsTree(t) && k in t.dirs && l in t.dirs && t.dirs[k].inode == t.dirs[l].inode
    ensures k == l
  {
  }

  lemma SplitLast(cs: seq<string>)
    requires cs != []
    ensures cs == cs[..|cs| - 1] + [cs[|cs| - 1]]
  {
  }

  lemma IsChild(cs: seq<string>, dir: seq<string>, name: string)
    requires cs != []
    ensures cs == dir + [name] <==> cs[..|cs| - 1] == dir && cs[|cs| - 1] == name
  {
    SplitLast(cs);
  }

  /** A path that leads to an inode is the only one. */
  lemma {:induction false} LookupInjective(t: Tree, cs: seq<string>, ds: seq<string>)
    requires IsTree(t) && Lookup(t, cs).Ok? && Lookup(t, ds).Ok?
    requires Lookup(t, cs).value.inode == Lookup(t, ds).value.inode
    ensures cs == ds
  {
    LookupBelow(t, cs);
    LookupBelow(t, ds);
    if cs != [] {
      var m, n := |cs| - 1, |ds| - 1;
      SameEntrySameKey(t, Key(Lookup(t, cs[..m]).value.inode, cs[m]), Key(Lookup(t, ds[..n]).value.inode, ds[n]));
      LookupInjective(t, cs[..m], ds[..n]);
      SplitLast(cs);
      SplitLast(ds);
    }
  }

  /** What leads through a strict prefix of a found path is a directory. */
  lemma {:induction false} PrefixFound(t: Tree, cs: seq<string>, i: nat)
    requires i < |cs| && Lookup(t, cs).Ok?
    ensures Lookup(t, cs[..i]).Ok? && Lookup(t, cs[..i]).value.kind == Directory
    decreases |cs|
  {
    var n := |cs| - 1;
    if i < n {
      PrefixFound(t, cs[..n], i);
      assert cs[..n][..i] == cs[..i];
    }
  }

  // ---------------------------------------------------------------------
  // Adding an entry
  // ---------------------------------------------------------------------

  lemma StaysDirectory(t: Tree, u: Tree, inode: Inode)
    requires u.root == t.root && IsDirectory(t, inode)
    requires forall k | k in t.dirs && t.dirs[k].kind == Directory :: k in u.dirs && u.dirs[k] == t.dirs[k]
    ensures IsDirectory(u, inode)
  {
    if inode != t.root {
      var k :| k in t.dirs && t.dirs[k] == DirEntry(inode, Directory);
      assert k in u.dirs;
    }
  }

  lemma AddEntryKeepsTree(t: Tree, key: Key, kind: Kind)
    requires IsTree(t) && key !in t.dirs && key.parent < t.next
    ensures IsTree(AddEntry(t, key, kind))
  {
  }

  lemma AddEntryRooted(t: Tree, key: Key, kind: Kind)
    requires Rooted(t) && key !in t.dirs && IsDirectory(t, key.parent)
    ensures Rooted(AddEntry(t, key, kind))
  {
    var u := AddEntry(t, key, kind);
    forall k | k in u.dirs ensures IsDirectory(u, k.parent) {
      assert k == key || IsDirectory(t, k.parent);
      StaysDirectory(t, u, k.parent);
    }
  }

  /** What was found is still found, and nothing else is, unless `added`. */
  ghost predicate Grown(t: Tree, u: Tree, cs: seq<string>, added: bool) {
    && (Lookup(t, cs).Ok? ==> Lookup(u, cs) == Lookup(t, cs))
    && (Lookup(u, cs).Ok? ==> Lookup(t, cs).Ok? || added)
  }

  lemma StepAfterAdd(t: Tree, dir: seq<string>, name: string, kind: Kind, cs: seq<string>, last: string)
    requires IsTree(t) && Lookup(t, dir).Ok? && Lookup(t, dir).value.kind == Directory
    requires Lookup(t, cs).Ok?
    requires Key(Lookup(t, dir).value.inode, name) !in t.dirs
    ensures var u := AddEntry(t, Key(Lookup(t, dir).value.inode, name), kind);
            Step(u, Lookup(t, cs).value, last) ==
            if cs == dir && last == name then Ok(DirEntry(t.next, kind)) else Step(t, Lookup(t, cs).value, last)
  {
    if Lookup(t, cs).value.inode == Lookup(t, dir).value.inode {
      LookupInjective(t, cs, dir);
    }
  }

  lemma NothingBelowNew(t: Tree, key: Key, kind: Kind, name: string)
    requires IsTree(t) && key.parent < t.next
    ensures Key(t.next, name) !in AddEntry(t, key, kind).dirs
  {
  }

  lemma {:induction false} AddEntryKeepsLookup(t: Tree, key: Key, kind: Kind, cs: seq<string>)
    requires key !in t.dirs && Lookup(t, cs).Ok?
    ensures Lookup(AddEntry(t, key, kind), cs) == Lookup(t, cs)
  {
    if cs != [] {
      AddEntryKeepsLookup(t, key, kind, cs[..|cs| - 1]);
    }
  }

  lemma AddEntryFinds(t: Tree, dir: seq<string>, name: string, kind: Kind, cs: seq<string>)
    requires Lookup(t, dir).Ok? && Lookup(t, dir).value.kind == Directory && cs == dir + [name]
    requires Key(Lookup(t, dir).value.inode, name) !in t.dirs
    ensures var u := AddEntry(t, Key(Lookup(t, dir).value.inode, name), kind);
            Lookup(u, cs) == Ok(DirEntry(t.next, kind))
  {
    AddEntryKeepsLookup(t, Key(Lookup(t, dir).value.inode, name), kind, dir);
    IsChild(cs, dir, name);
  }

  lemma {:induction false} AddEntryAddsOne(t: Tree, dir: seq<string>, name: string, kind: Kind, cs: seq<string>)
    requires IsTree(t) && Lookup(t, dir).Ok? && Lookup(t, dir).value.kind == Directory && cs != dir + [name]
    requires Key(Lookup(t, dir).value.inode, name) !in t.dirs
    requires Lookup(AddEntry(t, Key(Lookup(t, dir).value.inode, name), kind), cs).Ok?
    ensures Lookup(t, cs).Ok?
  {
    if cs != [] {
      var n := |cs| - 1;
      LookupBelow(t, dir);
      NothingBelowNew(t, Key(Lookup(t, dir).value.inode, name), kind, cs[n]);
      if cs[..n] == dir + [name] {
        AddEntryFinds(t, dir, name, kind, cs[..n]);
        assert false;
      }
      AddEntryAddsOne(t, dir, name, kind, cs[..n]);
      AddEntryKeepsLookup(t, Key(Lookup(t, dir).value.inode, name), kind, cs[..n]);
      StepAfterAdd(t, dir, name, kind, cs[..n], cs[n]);
      IsChild(cs, dir, name);
    }
  }

  lemma AddEntryGrows(t: Tree, dir: seq<string>, name: string, kind: Kind, cs: seq<string>)
    requires IsTree(t) && Lookup(t, dir).Ok? && Lookup(t, dir).value.kind == Directory
    requires Key(Lookup(t, dir).value.inode, name) !in t.dirs
    ensures var u := AddEntry(t, Key(Lookup(t, dir).value.inode, name), kind);
            && Grown(t, u, cs, cs == dir + [name])
            && (cs == dir + [name] ==> Lookup(u, cs) == Ok(DirEntry(t.next, kind)))
  {
    var key := Key(Lookup(t, dir).value.inode, name);
    if Lookup(t, cs).Ok? {
      AddEntryKeepsLookup(t, key, kind, cs);
    }
    if cs == dir + [name] {
      AddEntryFinds(t, dir, name, kind, cs);
    } else if Lookup(AddEntry(t, key, kind), cs).Ok? {
      AddEntryAddsOne(t, dir, name, kind, cs);
    }
  }

  // ---------------------------------------------------------------------
  // Making directories
  // ---------------------------------------------------------------------

  ghost predicate GrownUpTo(t: Tree, u: Tree, cs: seq<string>, path: seq<string>) {
    Grown(t, u, cs, cs <= path)
  }

  ghost predicate IsFile(t: Tree, cs: seq<string>) {
    Lookup(t, cs).Ok? && Lookup(t, cs).value.kind == File
  }

  /** No prefix of `path`, itself included, leads to a file. */
  ghost predicate Clear(t: Tree, path: seq<string>) {
    forall i | 0 <= i <= |path| :: !IsFile(t, path[..i])
  }

  lemma ClearLast(t: Tree, path: seq<string>)
    requires path != []
    ensures Clear(t, path) <==> Clear(t, path[..|path| - 1]) && !IsFile(t, path)
  {
    var n := |path| - 1;
    assert path[..|path|] == path;
    if Clear(t, path) {
      forall i | 0 <= i <= n ensures !IsFile(t, path[..n][..i]) {
        assert path[..n][..i] == path[..i];
      }
    }
    if Clear(t, path[..n]) && !IsFile(t, path) {
      forall i | 0 <= i <= |path| ensures !IsFile(t, path[..i]) {
        assert i <= n ==> path[..n][..i] == path[..i];
      }
    }
  }

  /**
   * The directory is made unless a file is in the way; every path that was found is found as
   * before, and nothing but prefixes of the directory's own path is found in addition.
   */
  ghost predicate MkDirsPost(t: Tree, dir: seq<string>, r: Result<(Tree, Inode), StorageError>) {
    match r
    case Err(e) => e == NotADirectory && !Clear(t, dir)
    case Ok((u, inode)) =>
      && Clear(t, dir)
      && IsTree(u) && u.root == t.root && t.next <= u.next
      && Lookup(u, dir) == Ok(DirEntry(inode, Directory))
      && forall xs :: GrownUpTo(t, u, xs, dir)
  }

  lemma MkDirNew(t: Tree, u: Tree, at: Inode, cs: seq<string>)
    requires cs != [] && MkDirsPost(t, cs[..|cs| - 1], Ok((u, at)))
    requires Key(at, cs[|cs| - 1]) !in u.dirs
    ensures MkDirsPost(t, cs, MkDir(u, Key(at, cs[|cs| - 1])))
  {
    var n := |cs| - 1;
    var key := Key(at, cs[n]);
    var v := AddEntry(u, key, Directory);
    LookupBelow(u, cs[..n]);
    AddEntryKeepsTree(u, key, Directory);
    AddEntryGrows(u, cs[..n], cs[n], Directory, cs);
    SplitLast(cs);
    ClearLast(t, cs);
    assert GrownUpTo(t, u, cs, cs[..n]);
    forall xs ensures GrownUpTo(t, v, xs, cs) {
      assert GrownUpTo(t, u, xs, cs[..n]);
      AddEntryGrows(u, cs[..n], cs[n], Directory, xs);
    }
  }

  lemma MkDirOld(t: Tree, u: Tree, at: Inode, cs: seq<string>)
    requires cs != [] && MkDirsPost(t, cs[..|cs| - 1], Ok((u, at)))
    requires Key(at, cs[|cs| - 1]) in u.dirs
    ensures MkDirsPost(t, cs, MkDir(u, Key(at, cs[|cs| - 1])))
  {
    var n := |cs| - 1;
    ClearLast(t, cs);
    assert GrownUpTo(t, u, cs, cs[..n]);
    forall xs ensures GrownUpTo(t, u, xs, cs) {
      assert GrownUpTo(t, u, xs, cs[..n]);
    }
  }

  lemma {:induction false} MkDirsIsExact(t: Tree, cs: seq<string>)
    requires IsTree(t)
    ensures MkDirsPost(t, cs, MkDirs(t, cs))
  {
    if cs != [] {
      var n := |cs| - 1;
      MkDirsIsExact(t, cs[..n]);
      match MkDirs(t, cs[..n])
      case Err(_) => ClearLast(t, cs);
      case Ok((u, at)) =>
        if Key(at, cs[n]) in u.dirs {
          MkDirOld(t, u, at, cs);
        } else {
          MkDirNew(t, u, at, cs);
        }
    }
  }

  lemma {:induction false} MkDirsExisting(t: Tree, cs: seq<string>)
    requires Lookup(t, cs).Ok? && Lookup(t, cs).value.kind == Directory
    ensures MkDirs(t, cs) == Ok((t, Lookup(t, cs).value.inode))
  {
    if cs != [] {
      PrefixFound(t, cs, |cs| - 1);
      MkDirsExisting(t, cs[..|cs| - 1]);
    }
  }

  // ---------------------------------------------------------------------
  // Creating and removing files
  // ---------------------------------------------------------------------

  /**
   * Creation fails exactly when a file is on the way or a directory is at the path. Otherwise the
   * path leads to the file, every path that was found is found as before, and nothing but prefixes
   * of the path is found in addition.
   */
  ghost predicate CreatePost(t: Tree, path: seq<string>, r: Result<Created, StorageError>)
    requires path != []
  {
    var dir := path[..|path| - 1];
    match r
    case Err(e) =>
      || (e == NotADirectory && !Clear(t, dir))
      || (e == IsADirectory && Lookup(t, path).Ok? && Lookup(t, path).value.kind == Directory)
    case Ok(c) =>
      && Clear(t, dir)
      && (Lookup(t, path).Ok? ==> c.tree == t)
      && (!Lookup(t, path).Ok? ==> t.next <= c.inode)
      && IsTree(c.tree) && c.tree.root == t.root && t.next <= c.tree.next
      && Lookup(c.tree, dir) == Ok(DirEntry(c.parent, Directory))
      && Lookup(c.tree, path) == Ok(DirEntry(c.inode, File))
      && forall xs :: GrownUpTo(t, c.tree, xs, path)
  }

  lemma CreateNew(t: Tree, u: Tree, at: Inode, path: seq<string>)
    requires path != [] && MkDirsPost(t, path[..|path| - 1], Ok((u, at)))
    requires Key(at, path[|path| - 1]) !in u.dirs
    ensures CreatePost(t, path, Ok(Created(AddEntry(u, Key(at, path[|path| - 1]), File), at, u.next)))
  {
    var n := |path| - 1;
    var dir, key := path[..n], Key(at, path[n]);
    var v := AddEntry(u, key, File);
    SplitLast(path);
    LookupBelow(u, dir);
    AddEntryKeepsTree(u, key, File);
    AddEntryGrows(u, dir, path[n], File, dir);
    AddEntryGrows(u, dir, path[n], File, path);
    assert GrownUpTo(t, u, path, dir);
    forall xs ensures GrownUpTo(t, v, xs, path) {
      assert GrownUpTo(t, u, xs, dir);
      AddEntryGrows(u, dir, path[n], File, xs);
    }
  }

  lemma CreateOld(t: Tree, u: Tree, at: Inode, path: seq<string>)
    requires path != [] && MkDirsPost(t, path[..|path| - 1], Ok((u, at)))
    requires MkDirs(t, path[..|path| - 1]) == Ok((u, at))
    requires Key(at, path[|path| - 1]) in u.dirs
    ensures u == t && Lookup(t, path) == Ok(u.dirs[Key(at, path[|path| - 1])])
    ensures forall xs :: GrownUpTo(t, u, xs, path)
  {
    var n := |path| - 1;
    assert GrownUpTo(t, u, path, path[..n]);
    PrefixFound(t, path, n);
    MkDirsExisting(t, path[..n]);
    forall xs ensures GrownUpTo(t, u, xs, path) {
      assert GrownUpTo(t, u, xs, path[..n]);
    }
  }

  lemma CreateFileIsExact(t: Tree, path: seq<string>)
    requires IsTree(t) && path != []
    ensures CreatePost(t, path, CreateFile(t, path[..|path| - 1], path[|path| - 1]))
  {
    var n := |path| - 1;
    MkDirsIsExact(t, path[..n]);
    match MkDirs(t, path[..n])
    case Err(_) =>
    case Ok((u, at)) =>
      if Key(at, path[n]) in u.dirs {
        CreateOld(t, u, at, path);
      } else {
        CreateNew(t, u, at, path);
      }
  }

  /** Every name is as before or stands for a new inode. */
  ghost predicate OnlyNew(t: Tree, u: Tree) {
    t.next <= u.next
    && forall k | k in u.dirs :: (k in t.dirs && u.dirs[k] == t.dirs[k]) || t.next <= u.dirs[k].inode
  }

  lemma {:induction false} MkDirsOnlyNew(t: Tree, cs: seq<string>)
    requires MkDirs(t, cs).Ok?
    ensures OnlyNew(t, MkDirs(t, cs).value.0)
  {
    if cs != [] {
      MkDirsOnlyNew(t, cs[..|cs| - 1]);
    }
  }

  lemma CreateFileOnlyNew(t: Tree, dir: seq<string>, name: string)
    requires CreateFile(t, dir, name).Ok?
    ensures OnlyNew(t, CreateFile(t, dir, name).value.tree)
  {
    MkDirsOnlyNew(t, dir);
  }

  /** After a file's entry is dropped only its own path is no longer found. */
  lemma {:induction false} RemoveEntryShrinks(t: Tree, path: seq<string>, cs: seq<string>)
    requires IsTree(t) && IsFile(t, path) && path != [] && Lookup(t, path[..|path| - 1]).Ok?
    ensures var u := RemoveEntry(t, Lookup(t, path[..|path| - 1]).value.inode, Lookup(t, path).value.inode);
            && (Lookup(u, cs).Ok? <==> Lookup(t, cs).Ok? && cs != path)
            && (Lookup(u, cs).Ok? ==> Lookup(u, cs) == Lookup(t, cs))
  {
    if cs != [] {
      var n := |cs| - 1;
      RemoveEntryShrinks(t, path, cs[..n]);
      if Lookup(t, cs).Ok? {
        PrefixFound(t, cs, n);
        if Lookup(t, cs).value.inode == Lookup(t, path).value.inode {
          LookupInjective(t, cs, path);
        }
      }
    }
  }

  lemma RemoveEntryKeepsTree(t: Tree, parent: Inode, inode: Inode)
    requires IsTree(t)
    ensures IsTree(RemoveEntry(t, parent, inode))
  {
  }

  // ---------------------------------------------------------------------
  // Nothing is cut off from the root
  // ---------------------------------------------------------------------

  lemma {:induction false} MkDirsRooted(t: Tree, cs: seq<string>)
    requires Rooted(t) && MkDirs(t, cs).Ok?
    ensures Rooted(MkDirs(t, cs).value.0) && IsDirectory(MkDirs(t, cs).value.0, MkDirs(t, cs).value.1)
  {
    if cs != [] {
      MkDirsRooted(t, cs[..|cs| - 1]);
      var (u, at) := MkDirs(t, cs[..|cs| - 1]).value;
      var key := Key(at, cs[|cs| - 1]);
      if key !in u.dirs {
        AddEntryRooted(u, key, Directory);
        assert AddEntry(u, key, Directory).dirs[key] == DirEntry(u.next, Directory);
      }
    }
  }

  lemma CreateFileRooted(t: Tree, dir: seq<string>, name: string)
    requires Rooted(t) && CreateFile(t, dir, name).Ok?
    ensures Rooted(CreateFile(t, dir, name).value.tree)
  {
    MkDirsRooted(t, dir);
    var (u, at) := MkDirs(t, dir).value;
    if Key(at, name) !in u.dirs {
      AddEntryRooted(u, Key(at, name), File);
    }
  }

  lemma RemoveEntryRooted(t: Tree, key: Key)
    requires IsTree(t) && Rooted(t) && key in t.dirs && t.dirs[key].kind == File
    ensures Rooted(RemoveEntry(t, key.parent, t.dirs[key].inode))
  {
    var u := RemoveEntry(t, key.parent, t.dirs[key].inode);
    forall k | k in u.dirs ensures IsDirectory(u, k.parent) {
      assert IsDirectory(t, k.parent);
      StaysDirectory(t, u, k.parent);
    }
  }
}
