/** What every transaction on the cache keeps: names, ownership and the log, one after the other. */
module CacheInvariant {
  import opened Common
  import opened Paths
  import opened Directory
  import opened Cache
  import opened Ranges
  import ByteRangeSets
  import DirtyLog

  // ---------------------------------------------------------------------
  // Names
  // ---------------------------------------------------------------------

  /** The entry's path leads to its inode, and the path above to its parent. */
  ghost predicate Placed(t: Tree, inode: Inode, e: FileEntry) {
    var path := Split(e.path);
    && Lookup(t, path) == Ok(DirEntry(inode, File))
    && Lookup(t, path[..|path| - 1]) == Ok(DirEntry(e.parent, Directory))
  }

  ghost predicate AllPlaced(t: Tree, files: map<FileKey, FileEntry>) {
    forall k | k in files :: Placed(t, k.inode, files[k])
  }

  /** A mark keeps the parent under which its inode has its name, if it still has one. */
  ghost predicate MarksPlaced(t: Tree, pending: map<Unseen, Inode>) {
    forall m | m in pending ::
      m.inode < t.next && forall k | k in t.dirs && t.dirs[k].inode == m.inode :: k.parent == pending[m]
  }

  ghost predicate InPlace(c: Cache) {
    IsTree(c.tree) && AllPlaced(c.tree, c.files) && MarksPlaced(c.tree, c.pending)
  }

  lemma PlacedSame(t: Tree, inode: Inode, e: FileEntry, f: FileEntry)
    requires IsTree(t) && Placed(t, inode, e) && Placed(t, inode, f)
    ensures e.path == f.path && e.parent == f.parent
  {
    LookupInjective(t, Split(e.path), Split(f.path));
    SplitInjective(e.path, f.path);
  }

  /** All entries of an inode have the same path and the same parent. */
  lemma SamePlace(c: Cache, k: FileKey, l: FileKey)
    requires InPlace(c) && k in c.files && l in c.files && k.inode == l.inode
    ensures c.files[k].path == c.files[l].path && c.files[k].parent == c.files[l].parent
  {
    PlacedSame(c.tree, k.inode, c.files[k], c.files[l]);
  }

  /** Different inodes have different paths. */
  lemma SamePathSameInode(c: Cache, k: FileKey, l: FileKey)
    requires InPlace(c) && k in c.files && l in c.files && c.files[k].path == c.files[l].path
    ensures k.inode == l.inode
  {
    assert Placed(c.tree, k.inode, c.files[k]) && Placed(c.tree, l.inode, c.files[l]);
  }

  lemma PlacedName(t: Tree, inode: Inode, e: FileEntry)
    requires Placed(t, inode, e)
    ensures var path := Split(e.path);
            && Key(e.parent, path[|path| - 1]) in t.dirs
            && t.dirs[Key(e.parent, path[|path| - 1])] == DirEntry(inode, File)
  {
  }

  lemma NameIsUnique(t: Tree, inode: Inode, e: FileEntry, key: Key)
    requires IsTree(t) && Placed(t, inode, e) && key in t.dirs && t.dirs[key].inode == inode
    ensures key == Key(e.parent, Split(e.path)[|Split(e.path)| - 1])
  {
    PlacedName(t, inode, e);
  }

  lemma PlacedWithout(t: Tree, files: map<FileKey, FileEntry>, key: FileKey)
    requires AllPlaced(t, files)
    ensures AllPlaced(t, files - {key})
  {
  }

  lemma PlacedWith(t: Tree, files: map<FileKey, FileEntry>, key: FileKey, e: FileEntry)
    requires AllPlaced(t, files) && Placed(t, key.inode, e)
    ensures AllPlaced(t, files[key := e])
  {
  }

  lemma InstallInPlace(c: Cache, inode: Inode, peer: Peer, e: FileEntry, visible: bool)
    requires InPlace(c) && Placed(c.tree, inode, e)
    ensures InPlace(Install(c, inode, peer, e, visible))
  {
    PlacedWith(c.tree, c.files, EntryOf(inode, peer), e);
    PlacedWith(c.tree, c.files[EntryOf(inode, peer) := e], DefaultOf(inode), e);
  }

  lemma GrownPlaced(t: Tree, u: Tree, path: seq<string>, files: map<FileKey, FileEntry>)
    requires AllPlaced(t, files) && forall xs :: GrownUpTo(t, u, xs, path)
    ensures AllPlaced(u, files)
  {
    forall k | k in files ensures Placed(u, k.inode, files[k]) {
      var at := Split(files[k].path);
      assert GrownUpTo(t, u, at, path) && GrownUpTo(t, u, at[..|at| - 1], path);
    }
  }

  lemma MarksStayPlaced(t: Tree, u: Tree, pending: map<Unseen, Inode>)
    requires MarksPlaced(t, pending) && OnlyNew(t, u)
    ensures MarksPlaced(u, pending)
  {
  }

  /** The path leads to the inode that was found or made, and what could be found still can. */
  ghost predicate LocatedPost(c: Cache, path: Path, at: Place) {
    && InPlace(at.cache)
    && at.cache == c.(tree := at.cache.tree)
    && Lookup(at.cache.tree, Split(path)) == Ok(DirEntry(at.inode, File))
    && Lookup(at.cache.tree, Split(path)[..|Split(path)| - 1]) == Ok(DirEntry(at.parent, Directory))
    && (forall xs :: GrownUpTo(c.tree, at.cache.tree, xs, Split(path)))
    && OnlyNew(c.tree, at.cache.tree)
  }

  lemma LocateCreates(c: Cache, path: Path)
    requires IsTree(c.tree)
    ensures CreatePost(c.tree, Split(path), CreateFile(c.tree, Components(Parent(path)), Name(path)))
    ensures Components(Parent(path)) == Split(path)[..|Split(path)| - 1]
  {
    ParentComponents(path);
    CreateFileIsExact(c.tree, Split(path));
  }

  lemma LocateIsExact(c: Cache, path: Path)
    requires InPlace(c) && Locate(c, path).Ok?
    ensures LocatedPost(c, path, Locate(c, path).value)
  {
    LocateCreates(c, path);
    CreateFileOnlyNew(c.tree, Components(Parent(path)), Name(path));
    var u := Locate(c, path).value.cache.tree;
    GrownPlaced(c.tree, u, Split(path), c.files);
    MarksStayPlaced(c.tree, u, c.pending);
  }

  lemma ReceivedInPlace(at: Place, peer: Peer, n: Notification)
    requires n.Add? || n.Replace? || n.Catchup?
    requires InPlace(at.cache) && Placed(at.cache.tree, at.inode, FileEntry(n.path, n.version, at.parent, None))
    ensures InPlace(Received(at, peer, n))
  {
    var c, e := at.cache, FileEntry(n.path, n.version, at.parent, None);
    match n
    case Add(_, _) => InstallInPlace(c, at.inode, peer, e, !Shown(c, at.inode));
    case Replace(_, _, oldHash) => InstallInPlace(c, at.inode, peer, e, HasHash(c, DefaultOf(at.inode), oldHash));
    case Catchup(_, _) =>
      InstallInPlace(c.(pending := c.pending - {Unseen(peer, at.inode)}), at.inode, peer, e, !Shown(c, at.inode));
  }

  lemma ReceiveInPlace(c: Cache, peer: Peer, n: Notification)
    requires n.Add? || n.Replace? || n.Catchup?
    requires InPlace(c) && Receive(c, peer, n).Ok?
    ensures InPlace(Receive(c, peer, n).value)
  {
    LocateIsExact(c, n.path);
    ReceivedInPlace(Locate(c, n.path).value, peer, n);
  }

  lemma OthersStayPlaced(t: Tree, inode: Inode, e: FileEntry, other: Inode, f: FileEntry)
    requires IsTree(t) && Placed(t, inode, e) && Placed(t, other, f) && inode != other
    ensures Placed(RemoveEntry(t, e.parent, inode), other, f)
  {
    var path := Split(e.path);
    RemoveEntryShrinks(t, path, Split(f.path));
    RemoveEntryShrinks(t, path, Split(f.path)[..|Split(f.path)| - 1]);
  }

  lemma RemoveLastInPlace(c: Cache, inode: Inode, peer: Peer)
    requires InPlace(c) && EntryOf(inode, peer) in c.files && Holders(c, inode) <= {peer}
    ensures InPlace(RemoveLast(c, c.files[EntryOf(inode, peer)].parent, inode, peer))
  {
    var e := c.files[EntryOf(inode, peer)];
    var d := RemoveLast(c, e.parent, inode, peer);
    RemoveEntryKeepsTree(c.tree, e.parent, inode);
    forall k | k in d.files ensures Placed(d.tree, k.inode, d.files[k]) {
      if k.inode == inode {
        HoldersMember(c, inode, if k.who.Of? then k.who.peer else peer);
        assert false;
      }
      OthersStayPlaced(c.tree, inode, e, k.inode, c.files[k]);
    }
  }

  lemma RemoveOneInPlace(c: Cache, inode: Inode, peer: Peer, hint: Peer)
    requires InPlace(c) && Holders(c, inode) - {peer} != {}
    ensures InPlace(RemoveOne(c, inode, peer, hint))
  {
    OthersHaveEntries(c, inode, peer);
    var q := Successor(c, inode, Holders(c, inode) - {peer}, hint);
    var e := c.files[EntryOf(inode, q)];
    PlacedWithout(c.tree, c.files, EntryOf(inode, peer));
    PlacedWith(c.tree, c.files - {EntryOf(inode, peer)}, DefaultOf(inode), e);
  }

  ghost predicate ParentKnown(c: Cache, parent: Inode, inode: Inode, peer: Peer) {
    EntryOf(inode, peer) in c.files ==> c.files[EntryOf(inode, peer)].parent == parent
  }

  lemma RmFileEntryInPlace(c: Cache, parent: Inode, inode: Inode, peer: Peer, expected: Option<Hash>, hint: Peer)
    requires InPlace(c) && ParentKnown(c, parent, inode, peer)
    ensures InPlace(RmFileEntry(c, parent, inode, peer, expected, hint))
  {
    if EntryOf(inode, peer) in c.files {
      if Holders(c, inode) - {peer} == {} {
        RemoveLastInPlace(c, inode, peer);
      } else {
        RemoveOneInPlace(c, inode, peer, hint);
      }
    }
  }

  lemma UnlinkParent(c: Cache, peer: Peer, path: Path, oldHash: Hash, hint: Inode -> Peer)
    requires InPlace(c) && Unlink(c, peer, path, oldHash, hint).Ok?
    ensures var key := Key(Lookup(c.tree, Components(Parent(path))).value.inode, Name(path));
            key in c.tree.dirs && ParentKnown(c, key.parent, c.tree.dirs[key].inode, peer)
  {
    var key := Key(Lookup(c.tree, Components(Parent(path))).value.inode, Name(path));
    var inode := c.tree.dirs[key].inode;
    if EntryOf(inode, peer) in c.files {
      NameIsUnique(c.tree, inode, c.files[EntryOf(inode, peer)], key);
    }
  }

  lemma UnlinkInPlace(c: Cache, peer: Peer, path: Path, oldHash: Hash, hint: Inode -> Peer)
    requires InPlace(c) && Unlink(c, peer, path, oldHash, hint).Ok?
    ensures InPlace(Unlink(c, peer, path, oldHash, hint).value)
  {
    UnlinkParent(c, peer, path, oldHash, hint);
    var key := Key(Lookup(c.tree, Components(Parent(path))).value.inode, Name(path));
    var inode := c.tree.dirs[key].inode;
    RmFileEntryInPlace(c, key.parent, inode, peer, Some(oldHash), hint(inode));
  }

  lemma MarkAllInPlace(c: Cache, peer: Peer)
    requires InPlace(c)
    ensures InPlace(MarkAll(c, peer))
  {
    var pending := MarkAll(c, peer).pending;
    forall m | m in pending
      ensures m.inode < c.tree.next
      ensures forall k | k in c.tree.dirs && c.tree.dirs[k].inode == m.inode :: k.parent == pending[m]
    {
      if m.peer == peer && EntryOf(m.inode, peer) in c.files {
        PlacedName(c.tree, m.inode, c.files[EntryOf(m.inode, peer)]);
      } else {
        assert m in c.pending;
      }
    }
  }

  lemma MarkedParent(c: Cache, peer: Peer, inode: Inode)
    requires InPlace(c) && Unseen(peer, inode) in c.pending
    ensures ParentKnown(c, c.pending[Unseen(peer, inode)], inode, peer)
  {
    if EntryOf(inode, peer) in c.files {
      PlacedName(c.tree, inode, c.files[EntryOf(inode, peer)]);
    }
  }

  lemma SweepOneInPlace(c: Cache, peer: Peer, inode: Inode, hint: Inode -> Peer)
    requires InPlace(c)
    ensures InPlace(SweepOne(c, peer, inode, hint))
  {
    var m := Unseen(peer, inode);
    if m in c.pending {
      MarkedParent(c, peer, inode);
      RmFileEntryInPlace(c.(pending := c.pending - {m}), c.pending[m], inode, peer, None, hint(inode));
    }
  }

  lemma {:induction false} SweepInPlace(c: Cache, peer: Peer, order: seq<Inode>, hint: Inode -> Peer)
    requires InPlace(c)
    ensures InPlace(Sweep(c, peer, order, hint))
  {
    if order != [] {
      SweepInPlace(c, peer, order[..|order| - 1], hint);
      SweepOneInPlace(Sweep(c, peer, order[..|order| - 1], hint), peer, order[|order| - 1], hint);
    }
  }

  lemma UpdateInPlace(c: Cache, peer: Peer, n: Notification, hint: Inode -> Peer, order: seq<Inode>)
    requires InPlace(c) && Update(c, peer, n, hint, order).Ok?
    ensures InPlace(Update(c, peer, n, hint, order).value)
  {
    match n
    case Add(_, _) => ReceiveInPlace(c, peer, n);
    case Replace(_, _, _) => ReceiveInPlace(c, peer, n);
    case Catchup(_, _) => ReceiveInPlace(c, peer, n);
    case Remove(path, oldHash) => UnlinkInPlace(c, peer, path, oldHash, hint);
    case Drop(path, oldHash) => UnlinkInPlace(c, peer, path, oldHash, hint);
    case CatchupStart => MarkAllInPlace(c, peer);
    case CatchupComplete => SweepInPlace(c, peer, order, hint);
  }

  // ---------------------------------------------------------------------
  // Nothing is cut off from the root
  // ---------------------------------------------------------------------

  lemma RmFileEntryRooted(c: Cache, parent: Inode, inode: Inode, peer: Peer, expected: Option<Hash>, hint: Peer)
    requires InPlace(c) && ParentKnown(c, parent, inode, peer) && Rooted(c.tree)
    ensures Rooted(RmFileEntry(c, parent, inode, peer, expected, hint).tree)
  {
    if EntryOf(inode, peer) in c.files {
      var e := c.files[EntryOf(inode, peer)];
      PlacedName(c.tree, inode, e);
      RemoveEntryRooted(c.tree, Key(e.parent, Split(e.path)[|Split(e.path)| - 1]));
    }
  }

  lemma {:induction false} SweepRooted(c: Cache, peer: Peer, order: seq<Inode>, hint: Inode -> Peer)
    requires InPlace(c) && Rooted(c.tree)
    ensures Rooted(Sweep(c, peer, order, hint).tree)
  {
    if order != [] {
      var d, inode := Sweep(c, peer, order[..|order| - 1], hint), order[|order| - 1];
      SweepRooted(c, peer, order[..|order| - 1], hint);
      SweepInPlace(c, peer, order[..|order| - 1], hint);
      var m := Unseen(peer, inode);
      if m in d.pending {
        MarkedParent(d, peer, inode);
        RmFileEntryRooted(d.(pending := d.pending - {m}), d.pending[m], inode, peer, None, hint(inode));
      }
    }
  }

  lemma UnlinkRooted(c: Cache, peer: Peer, path: Path, oldHash: Hash, hint: Inode -> Peer)
    requires InPlace(c) && Rooted(c.tree) && Unlink(c, peer, path, oldHash, hint).Ok?
    ensures Rooted(Unlink(c, peer, path, oldHash, hint).value.tree)
  {
    UnlinkParent(c, peer, path, oldHash, hint);
    var key := Key(Lookup(c.tree, Components(Parent(path))).value.inode, Name(path));
    var inode := c.tree.dirs[key].inode;
    RmFileEntryRooted(c, key.parent, inode, peer, Some(oldHash), hint(inode));
  }

  lemma ReceiveRooted(c: Cache, peer: Peer, n: Notification)
    requires n.Add? || n.Replace? || n.Catchup?
    requires Rooted(c.tree) && Receive(c, peer, n).Ok?
    ensures Rooted(Receive(c, peer, n).value.tree)
  {
    CreateFileRooted(c.tree, Components(Parent(n.path)), Name(n.path));
  }

  lemma UpdateRooted(c: Cache, peer: Peer, n: Notification, hint: Inode -> Peer, order: seq<Inode>)
    requires InPlace(c) && Rooted(c.tree) && Update(c, peer, n, hint, order).Ok?
    ensures Rooted(Update(c, peer, n, hint, order).value.tree)
  {
    match n
    case Add(_, _) => ReceiveRooted(c, peer, n);
    case Replace(_, _, _) => ReceiveRooted(c, peer, n);
    case Catchup(_, _) => ReceiveRooted(c, peer, n);
    case Remove(path, oldHash) => UnlinkRooted(c, peer, path, oldHash, hint);
    case Drop(path, oldHash) => UnlinkRooted(c, peer, path, oldHash, hint);
    case CatchupStart =>
    case CatchupComplete => SweepRooted(c, peer, order, hint);
  }

  // ---------------------------------------------------------------------
  // Ownership
  // ---------------------------------------------------------------------

  /** There is a default entry exactly when some peer has an entry. */
  ghost predicate Paired(files: map<FileKey, FileEntry>) {
    && (forall k | k in files && k.who.Of? :: DefaultOf(k.inode) in files)
    && (forall k | k in files && k.who.Default? :: exists p :: EntryOf(k.inode, p) in files)
  }

  ghost predicate Owns(files: map<FileKey, FileEntry>, k: FileKey, id: BlobId) {
    k in files && files[k].blob == Some(id)
  }

  /** Every blob has exactly one entry that holds it, which is a default entry, and every held blob is there. */
  ghost predicate BlobsOwned(files: map<FileKey, FileEntry>, blobs: map<BlobId, BlobEntry>) {
    && (forall k, id | Owns(files, k, id) :: k.who.Default? && id in blobs)
    && (forall k, l, id | Owns(files, k, id) && Owns(files, l, id) :: k == l)
    && (forall id | id in blobs :: exists k :: Owns(files, k, id))
  }

  ghost predicate AreasWellFormed(blobs: map<BlobId, BlobEntry>) {
    forall id | id in blobs :: WellFormed(blobs[id].written)
  }

  ghost predicate Owned(c: Cache) {
    Paired(c.files) && BlobsOwned(c.files, c.blobs) && AreasWellFormed(c.blobs)
  }

  /** Entries without a blob come and go freely. */
  lemma BlobsIndifferent(files: map<FileKey, FileEntry>, next: map<FileKey, FileEntry>, blobs: map<BlobId, BlobEntry>)
    requires BlobsOwned(files, blobs)
    requires forall k, id :: Owns(next, k, id) <==> Owns(files, k, id)
    ensures BlobsOwned(next, blobs)
  {
    forall id | id in blobs ensures exists k :: Owns(next, k, id) {
      var k :| Owns(files, k, id);
      assert Owns(next, k, id);
    }
  }

  /** A default entry that goes takes its blob along. */
  lemma BlobsFollow(c: Cache, inode: Inode, next: map<FileKey, FileEntry>)
    requires BlobsOwned(c.files, c.blobs)
    requires forall k, id :: Owns(next, k, id) <==> Owns(c.files, k, id) && k != DefaultOf(inode)
    ensures BlobsOwned(next, BlobsWithout(c, inode))
  {
    var blobs := BlobsWithout(c, inode);
    forall id | id in blobs ensures exists k :: Owns(next, k, id) {
      var k :| Owns(c.files, k, id);
      assert Owns(next, k, id);
    }
    forall k, id | Owns(next, k, id) ensures k.who.Default? && id in blobs {
      assert Owns(c.files, k, id);
      if id !in blobs {
        assert Owns(c.files, DefaultOf(inode), id);
        assert false;
      }
    }
  }

  lemma PeersHoldNoBlob(files: map<FileKey, FileEntry>, blobs: map<BlobId, BlobEntry>, key: FileKey)
    requires BlobsOwned(files, blobs) && key in files && key.who.Of?
    ensures files[key].blob.None?
  {
    if files[key].blob.Some? {
      assert Owns(files, key, files[key].blob.value);
    }
  }

  lemma InstallPaired(c: Cache, inode: Inode, peer: Peer, e: FileEntry, visible: bool)
    requires Paired(c.files) && (visible || Shown(c, inode))
    ensures Paired(Install(c, inode, peer, e, visible).files)
  {
    var files := Install(c, inode, peer, e, visible).files;
    forall k | k in files && k.who.Default? ensures exists p :: EntryOf(k.inode, p) in files {
      if k.inode == inode {
        assert EntryOf(inode, peer) in files;
      } else {
        assert k in c.files;
        var p :| EntryOf(k.inode, p) in c.files;
        assert EntryOf(k.inode, p) in files;
      }
    }
  }

  lemma InstallBlobs(c: Cache, inode: Inode, peer: Peer, e: FileEntry, visible: bool)
    requires BlobsOwned(c.files, c.blobs) && AreasWellFormed(c.blobs) && e.blob.None?
    ensures var d := Install(c, inode, peer, e, visible); BlobsOwned(d.files, d.blobs) && AreasWellFormed(d.blobs)
  {
    var c1 := c.(files := c.files[EntryOf(inode, peer) := e]);
    BlobsIndifferent(c.files, c1.files, c.blobs);
    if visible {
      BlobsFollow(c1, inode, c1.files[DefaultOf(inode) := e]);
    }
  }

  lemma InstallOwned(c: Cache, inode: Inode, peer: Peer, e: FileEntry, visible: bool)
    requires Owned(c) && e.blob.None? && (visible || Shown(c, inode))
    ensures Owned(Install(c, inode, peer, e, visible))
  {
    InstallPaired(c, inode, peer, e, visible);
    InstallBlobs(c, inode, peer, e, visible);
  }

  lemma PeerIsShown(files: map<FileKey, FileEntry>, inode: Inode, peer: Peer)
    requires Paired(files) && EntryOf(inode, peer) in files
    ensures DefaultOf(inode) in files
  {
    assert EntryOf(inode, peer).who.Of?;
  }

  lemma ReceiveOwned(c: Cache, peer: Peer, n: Notification)
    requires n.Add? || n.Replace? || n.Catchup?
    requires Owned(c) && Receive(c, peer, n).Ok?
    ensures Owned(Receive(c, peer, n).value)
  {
    var at := Locate(c, n.path).value;
    var e := FileEntry(n.path, n.version, at.parent, None);
    match n
    case Add(_, _) => InstallOwned(at.cache, at.inode, peer, e, !Shown(at.cache, at.inode));
    case Replace(_, _, oldHash) =>
      if EntryOf(at.inode, peer) in c.files {
        PeerIsShown(c.files, at.inode, peer);
      }
      if Shown(c, at.inode) {
        InstallOwned(at.cache, at.inode, peer, e, HasHash(at.cache, DefaultOf(at.inode), oldHash));
      }
    case Catchup(_, _) =>
      var unmarked := at.cache.(pending := at.cache.pending - {Unseen(peer, at.inode)});
      InstallOwned(unmarked, at.inode, peer, e, !Shown(at.cache, at.inode));
  }

  lemma RemoveLastPaired(c: Cache, parent: Inode, inode: Inode, peer: Peer)
    requires Paired(c.files) && EntryOf(inode, peer) in c.files && Holders(c, inode) <= {peer}
    ensures Paired(RemoveLast(c, parent, inode, peer).files)
  {
    var files := RemoveLast(c, parent, inode, peer).files;
    forall k | k in files && k.who.Of? ensures DefaultOf(k.inode) in files {
      HoldersMember(c, inode, k.who.peer);
    }
    forall k | k in files && k.who.Default? ensures exists p :: EntryOf(k.inode, p) in files {
      var p :| EntryOf(k.inode, p) in c.files;
      assert EntryOf(k.inode, p) in files;
    }
  }

  lemma RemoveLastOwned(c: Cache, parent: Inode, inode: Inode, peer: Peer)
    requires Owned(c) && EntryOf(inode, peer) in c.files && Holders(c, inode) <= {peer}
    ensures Owned(RemoveLast(c, parent, inode, peer))
  {
    RemoveLastPaired(c, parent, inode, peer);
    PeersHoldNoBlob(c.files, c.blobs, EntryOf(inode, peer));
    BlobsFollow(c, inode, RemoveLast(c, parent, inode, peer).files);
  }

  lemma DroppedPaired(files: map<FileKey, FileEntry>, inode: Inode, peer: Peer, other: Peer)
    requires Paired(files) && EntryOf(inode, other) in files && other != peer
    ensures Paired(files - {EntryOf(inode, peer)})
  {
    var next := files - {EntryOf(inode, peer)};
    forall k | k in next && k.who.Default? ensures exists p :: EntryOf(k.inode, p) in next {
      if k.inode == inode {
        assert EntryOf(inode, other) in next;
      } else {
        var p :| EntryOf(k.inode, p) in files;
        assert EntryOf(k.inode, p) in next;
      }
    }
  }

  lemma DroppedOwned(c: Cache, inode: Inode, peer: Peer, other: Peer)
    requires Owned(c) && EntryOf(inode, other) in c.files && other != peer
    ensures Owned(c.(files := c.files - {EntryOf(inode, peer)}))
  {
    DroppedPaired(c.files, inode, peer, other);
    BlobsIndifferent(c.files, c.files - {EntryOf(inode, peer)}, c.blobs);
  }

  /** Showing a peer's entry is the same as receiving it again. */
  lemma WriteIsInstall(c: Cache, inode: Inode, peer: Peer)
    requires EntryOf(inode, peer) in c.files
    ensures var e := c.files[EntryOf(inode, peer)];
            WriteDefault(c, inode, e) == Install(c, inode, peer, e, true)
  {
    assert c.files[EntryOf(inode, peer) := c.files[EntryOf(inode, peer)]] == c.files;
  }

  lemma RemoveOneOwned(c: Cache, inode: Inode, peer: Peer, hint: Peer)
    requires Owned(c) && Holders(c, inode) - {peer} != {}
    ensures Owned(RemoveOne(c, inode, peer, hint))
  {
    OthersHaveEntries(c, inode, peer);
    var q := Successor(c, inode, Holders(c, inode) - {peer}, hint);
    var c1 := c.(files := c.files - {EntryOf(inode, peer)});
    DroppedOwned(c, inode, peer, q);
    PeersHoldNoBlob(c.files, c.blobs, EntryOf(inode, q));
    WriteIsInstall(c1, inode, q);
    InstallOwned(c1, inode, q, c.files[EntryOf(inode, q)], true);
  }

  lemma RmFileEntryOwned(c: Cache, parent: Inode, inode: Inode, peer: Peer, expected: Option<Hash>, hint: Peer)
    requires Owned(c)
    ensures Owned(RmFileEntry(c, parent, inode, peer, expected, hint))
  {
    if EntryOf(inode, peer) in c.files {
      if Holders(c, inode) - {peer} == {} {
        RemoveLastOwned(c, parent, inode, peer);
      } else {
        RemoveOneOwned(c, inode, peer, hint);
      }
    }
  }

  lemma {:induction false} SweepOwned(c: Cache, peer: Peer, order: seq<Inode>, hint: Inode -> Peer)
    requires Owned(c)
    ensures Owned(Sweep(c, peer, order, hint))
  {
    if order != [] {
      SweepOwned(c, peer, order[..|order| - 1], hint);
      var d, inode := Sweep(c, peer, order[..|order| - 1], hint), order[|order| - 1];
      var m := Unseen(peer, inode);
      if m in d.pending {
        RmFileEntryOwned(d.(pending := d.pending - {m}), d.pending[m], inode, peer, None, hint(inode));
      }
    }
  }

  lemma UnlinkOwned(c: Cache, peer: Peer, path: Path, oldHash: Hash, hint: Inode -> Peer)
    requires Owned(c) && Unlink(c, peer, path, oldHash, hint).Ok?
    ensures Owned(Unlink(c, peer, path, oldHash, hint).value)
  {
    var key := Key(Lookup(c.tree, Components(Parent(path))).value.inode, Name(path));
    var inode := c.tree.dirs[key].inode;
    RmFileEntryOwned(c, key.parent, inode, peer, Some(oldHash), hint(inode));
  }

  lemma UpdateOwned(c: Cache, peer: Peer, n: Notification, hint: Inode -> Peer, order: seq<Inode>)
    requires Owned(c) && Update(c, peer, n, hint, order).Ok?
    ensures Owned(Update(c, peer, n, hint, order).value)
  {
    match n
    case Add(_, _) => ReceiveOwned(c, peer, n);
    case Replace(_, _, _) => ReceiveOwned(c, peer, n);
    case Catchup(_, _) => ReceiveOwned(c, peer, n);
    case Remove(path, oldHash) => UnlinkOwned(c, peer, path, oldHash, hint);
    case Drop(path, oldHash) => UnlinkOwned(c, peer, path, oldHash, hint);
    case CatchupStart =>
    case CatchupComplete => SweepOwned(c, peer, order, hint);
  }

  // ---------------------------------------------------------------------
  // Blobs
  // ---------------------------------------------------------------------

  /** Only the blob of one default entry is different. */
  ghost predicate SameButBlob(c: Cache, d: Cache, inode: Inode) {
    && Shown(c, inode) && Shown(d, inode)
    && d.tree == c.tree && d.pending == c.pending && d.log == c.log
    && d.files == c.files[DefaultOf(inode) := d.files[DefaultOf(inode)]]
    && d.files[DefaultOf(inode)] == c.files[DefaultOf(inode)].(blob := d.files[DefaultOf(inode)].blob)
  }

  lemma SameButBlobInPlace(c: Cache, d: Cache, inode: Inode)
    requires InPlace(c) && SameButBlob(c, d, inode)
    ensures InPlace(d)
  {
    assert Placed(c.tree, inode, c.files[DefaultOf(inode)]);
    PlacedWith(c.tree, c.files, DefaultOf(inode), d.files[DefaultOf(inode)]);
  }

  lemma SameButBlobPaired(c: Cache, d: Cache, inode: Inode)
    requires Paired(c.files) && SameButBlob(c, d, inode)
    ensures Paired(d.files)
  {
    assert forall k :: k in d.files <==> k in c.files;
    forall k | k in d.files && k.who.Default? ensures exists p :: EntryOf(k.inode, p) in d.files {
      var p :| EntryOf(k.inode, p) in c.files;
      assert EntryOf(k.inode, p) in d.files;
    }
  }

  lemma WithBlobUnique(files: map<FileKey, FileEntry>, blobs: map<BlobId, BlobEntry>, key: FileKey, id: BlobId)
    requires BlobsOwned(files, blobs) && key in files && key.who.Default?
    requires files[key].blob == if id in blobs then Some(id) else None
    ensures var next := files[key := files[key].(blob := Some(id))];
            forall k, j :: Owns(next, k, j) <==> Owns(files, k, j) || (k == key && j == id)
    ensures forall k, j | Owns(files, k, j) && j == id :: k == key
  {
    assert id in blobs ==> Owns(files, key, id);
  }

  lemma WithBlobBlobs(c: Cache, inode: Inode, id: BlobId, b: BlobEntry)
    requires BlobsOwned(c.files, c.blobs) && Shown(c, inode)
    requires c.files[DefaultOf(inode)].blob == if id in c.blobs then Some(id) else None
    ensures BlobsOwned(WithBlob(c, inode, id, b).files, WithBlob(c, inode, id, b).blobs)
  {
    var d := WithBlob(c, inode, id, b);
    WithBlobUnique(c.files, c.blobs, DefaultOf(inode), id);
    forall j | j in d.blobs ensures exists k :: Owns(d.files, k, j) {
      if j == id {
        assert Owns(d.files, DefaultOf(inode), id);
      } else {
        var k :| Owns(c.files, k, j);
        assert Owns(d.files, k, j);
      }
    }
  }

  lemma WithBlobOwned(c: Cache, inode: Inode, id: BlobId, b: BlobEntry)
    requires Owned(c) && Shown(c, inode) && WellFormed(b.written)
    requires c.files[DefaultOf(inode)].blob == if id in c.blobs then Some(id) else None
    ensures SameButBlob(c, WithBlob(c, inode, id, b), inode) && Owned(WithBlob(c, inode, id, b))
  {
    SameButBlobPaired(c, WithBlob(c, inode, id, b), inode);
    WithBlobBlobs(c, inode, id, b);
  }

  lemma WithoutBlobOwned(c: Cache, d: Cache, inode: Inode)
    requires Owned(c) && SameButBlob(c, d, inode) && d.files[DefaultOf(inode)].blob.None?
    requires d.blobs == BlobsWithout(c, inode)
    ensures Owned(d)
  {
    SameButBlobPaired(c, d, inode);
    BlobsFollow(c, inode, d.files);
  }

  /** The entry shown for `inode` has the hash, and a blob with all of the file. */
  ghost predicate Filled(c: Cache, inode: Inode, hash: Hash) {
    && Shown(c, inode) && c.files[DefaultOf(inode)].version.hash == hash
    && c.files[DefaultOf(inode)].blob.Some? && c.files[DefaultOf(inode)].blob.value in c.blobs
    && forall x: nat ::
         Covers(c.blobs[c.files[DefaultOf(inode)].blob.value].written, x) <==>
           x < c.files[DefaultOf(inode)].version.size
  }

  /** The entry shown for `inode` has the hash, and a blob whose content was verified to have it. */
  ghost predicate Realizable(c: Cache, inode: Inode, hash: Hash) {
    && Shown(c, inode) && c.files[DefaultOf(inode)].version.hash == hash
    && c.files[DefaultOf(inode)].blob.Some? && c.files[DefaultOf(inode)].blob.value in c.blobs
    && c.blobs[c.files[DefaultOf(inode)].blob.value].contentHash == Some(hash)
  }

  lemma MoveInOwned(c: Cache, path: Path, hash: Hash)
    requires Owned(c) && MoveIntoBlobIfMatches(c, path, hash).Ok?
    ensures var d := MoveIntoBlobIfMatches(c, path, hash).value.0;
            && Owned(d)
            && (|| d == c
                || (Lookup(c.tree, Split(path)).Ok? && SameButBlob(c, d, Lookup(c.tree, Split(path)).value.inode)))
    ensures var (d, moved) := MoveIntoBlobIfMatches(c, path, hash).value;
            if moved then Lookup(c.tree, Split(path)).Ok? && Filled(d, Lookup(c.tree, Split(path)).value.inode, hash)
            else d == c
  {
    var r := MoveIntoBlobIfMatches(c, path, hash).value;
    if r.1 {
      var inode := Lookup(c.tree, Split(path)).value.inode;
      var e := c.files[DefaultOf(inode)];
      ByteRangeSets.SingleIsExact(0, e.version.size);
      var whole := ByteRangeSets.SingleOf(0, e.version.size);
      match e.blob
      case None => WithBlobOwned(c, inode, FreshId(c.blobs), NEW_BLOB.(written := whole));
      case Some(id) => WithBlobOwned(c, inode, id, c.blobs[id].(written := whole));
    }
  }

  lemma MoveOutOwned(c: Cache, path: Path, hash: Hash)
    requires Owned(c) && MoveBlobIfMatches(c, path, hash).Ok?
    ensures var d := MoveBlobIfMatches(c, path, hash).value.0;
            && Owned(d)
            && (|| d == c
                || (Lookup(c.tree, Split(path)).Ok? && SameButBlob(c, d, Lookup(c.tree, Split(path)).value.inode)))
    ensures var (d, moved) := MoveBlobIfMatches(c, path, hash).value;
            if moved
            then Lookup(c.tree, Split(path)).Ok? && Realizable(c, Lookup(c.tree, Split(path)).value.inode, hash)
            else d == c
  {
    var r := MoveBlobIfMatches(c, path, hash).value;
    if r.1 {
      WithoutBlobOwned(c, r.0, Lookup(c.tree, Split(path)).value.inode);
    }
  }

  lemma OpenOwned(c: Cache, inode: Inode)
    requires Owned(c) && OpenFile(c, inode).Ok?
    ensures var d := OpenFile(c, inode).value; Owned(d) && (d == c || SameButBlob(c, d, inode))
    ensures OpenFile(c, inode).value.files[DefaultOf(inode)].blob.Some?
  {
    if c.files[DefaultOf(inode)].blob.None? {
      WithBlobOwned(c, inode, FreshId(c.blobs), NEW_BLOB);
    }
  }

  lemma ExtendOwned(c: Cache, id: BlobId, areas: Boundaries)
    requires Owned(c) && WellFormed(areas) && id in c.blobs
    ensures Owned(ExtendLocalAvailability(c, id, areas).value)
  {
    ByteRangeSets.UnionIsExact(c.blobs[id].written, areas);
    SameBlobsOwned(c.files, c.blobs, ExtendLocalAvailability(c, id, areas).value.blobs);
  }

  lemma SameBlobsOwned(files: map<FileKey, FileEntry>, blobs: map<BlobId, BlobEntry>, next: map<BlobId, BlobEntry>)
    requires BlobsOwned(files, blobs) && next.Keys == blobs.Keys
    ensures BlobsOwned(files, next)
  {
  }

  // ---------------------------------------------------------------------
  // Runs
  // ---------------------------------------------------------------------

  ghost predicate Consistent(c: Cache) {
    InPlace(c) && Owned(c) && DirtyLog.Inverse(c.log) && DirtyLog.Bounded(c.log)
  }

  lemma AfterInPlace(c: Cache, a: Action)
    requires InPlace(c) && Owned(c) && Enabled(c, a)
    ensures InPlace(After(c, a))
  {
    if Act(c, a).Ok? {
      match a
      case Notify(peer, n, hint, order) => UpdateInPlace(c, peer, n, hint, order);
      case Open(inode) =>
        OpenOwned(c, inode);
        if After(c, a) != c { SameButBlobInPlace(c, After(c, a), inode); }
      case MoveOut(path, hash) =>
        MoveOutOwned(c, path, hash);
        if After(c, a) != c { SameButBlobInPlace(c, After(c, a), Lookup(c.tree, Split(path)).value.inode); }
      case MoveIn(path, hash) =>
        MoveInOwned(c, path, hash);
        if After(c, a) != c { SameButBlobInPlace(c, After(c, a), Lookup(c.tree, Split(path)).value.inode); }
      case Extend(_, _) =>
      case Verify(_, _) =>
      case LogOp(_, _) =>
    }
  }

  lemma AfterOwned(c: Cache, a: Action)
    requires Owned(c) && Enabled(c, a)
    ensures Owned(After(c, a))
  {
    if Act(c, a).Ok? {
      match a
      case Notify(peer, n, hint, order) => UpdateOwned(c, peer, n, hint, order);
      case Open(inode) => OpenOwned(c, inode);
      case MoveOut(path, hash) => MoveOutOwned(c, path, hash);
      case MoveIn(path, hash) => MoveInOwned(c, path, hash);
      case Extend(id, areas) => ExtendOwned(c, id, areas);
      case Verify(id, hash) => SameBlobsOwned(c.files, c.blobs, After(c, a).blobs);
      case LogOp(_, _) =>
    }
  }
}
