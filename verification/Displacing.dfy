/** Which transactions take the version that is shown, and its blob, away. */
module Displacing {
  import opened Common
  import opened Paths
  import opened Directory
  import opened Cache
  import opened CacheInvariant
  import opened BlobVersions

  /** The peer has an entry, and none of the others has the version shown. */
  ghost predicate GivenUp(c: Cache, inode: Inode, peer: Peer) {
    EntryOf(inode, peer) in c.files && !VersionHeld(c, inode, Holders(c, inode) - {peer})
  }

  /** The file that a path leads to, if it does. */
  ghost predicate LeadsTo(c: Cache, path: Path, inode: Inode) {
    && Lookup(c.tree, Components(Parent(path))).Ok?
    && Lookup(c.tree, Components(Parent(path))).value.kind == Directory
    && var key := Key(Lookup(c.tree, Components(Parent(path))).value.inode, Name(path));
       key in c.tree.dirs && c.tree.dirs[key] == DirEntry(inode, File)
  }

  ghost predicate NotificationDisplaces(c: Cache, peer: Peer, n: Notification, inode: Inode) {
    match n
    case Replace(path, _, oldHash) =>
      Locate(c, path).Ok? && Locate(c, path).value.inode == inode && HasHash(c, DefaultOf(inode), oldHash)
    case Remove(path, oldHash) =>
      LeadsTo(c, path, inode) && HasHash(c, EntryOf(inode, peer), oldHash) && GivenUp(c, inode, peer)
    case Drop(path, oldHash) =>
      LeadsTo(c, path, inode) && HasHash(c, EntryOf(inode, peer), oldHash) && GivenUp(c, inode, peer)
    case CatchupComplete => Unseen(peer, inode) in c.pending && GivenUp(c, inode, peer)
    case _ => false
  }

  /**
   * The version shown is replaced, or its last holder removes it or fails to report it in a catchup,
   * or its verified blob is moved away.
   */
  ghost predicate Displaces(c: Cache, a: Action, inode: Inode) {
    match a
    case Notify(peer, n, _, _) => NotificationDisplaces(c, peer, n, inode)
    case MoveOut(path, hash) =>
      && Lookup(c.tree, Split(path)).Ok? && Lookup(c.tree, Split(path)).value.inode == inode
      && Realizable(c, inode, hash)
    case _ => false
  }

  lemma ReceivedShown(at: Place, peer: Peer, n: Notification, inode: Inode, e: FileEntry)
    requires (n.Add? || n.Replace? || n.Catchup?) && ShownWith(at.cache, inode, e) && e.blob.Some?
    ensures ShownWith(Received(at, peer, n), inode, e) <==>
              !(n.Replace? && at.inode == inode && HasHash(at.cache, DefaultOf(inode), n.oldHash))
  {
  }

  lemma RmShown(c: Cache, parent: Inode, at: Inode, peer: Peer, expected: Option<Hash>, hint: Peer, inode: Inode,
                e: FileEntry)
    requires BlobsOwned(c.files, c.blobs) && ShownWith(c, inode, e) && e.blob.Some?
    ensures ShownWith(RmFileEntry(c, parent, at, peer, expected, hint), inode, e) <==>
              !(at == inode && GivenUp(c, inode, peer) &&
                (expected.None? || HasHash(c, EntryOf(inode, peer), expected.value)))
  {
    if at == inode && EntryOf(inode, peer) in c.files && Holders(c, inode) - {peer} != {} {
      OthersHaveEntries(c, inode, peer);
      var q := Successor(c, inode, Holders(c, inode) - {peer}, hint);
      PeersHoldNoBlob(c.files, c.blobs, EntryOf(inode, q));
    }
  }

  /** What belongs to the inode is the same in both. */
  ghost predicate Untouched(c: Cache, d: Cache, inode: Inode, peer: Peer) {
    && (forall k: FileKey | k.inode == inode :: k in c.files <==> k in d.files)
    && (forall k | k in c.files && k.inode == inode :: c.files[k] == d.files[k])
    && (Unseen(peer, inode) in c.pending <==> Unseen(peer, inode) in d.pending)
  }

  lemma SweepOneUntouched(c: Cache, peer: Peer, at: Inode, hint: Inode -> Peer, inode: Inode)
    requires at != inode
    ensures Untouched(c, SweepOne(c, peer, at, hint), inode, peer)
  {
    if EntryOf(at, peer) in c.files && Holders(c, at) - {peer} != {} {
      OthersHaveEntries(c, at, peer);
    }
  }

  lemma UntouchedTransitive(a: Cache, b: Cache, c: Cache, inode: Inode, peer: Peer)
    requires Untouched(a, b, inode, peer) && Untouched(b, c, inode, peer)
    ensures Untouched(a, c, inode, peer)
  {
  }

  lemma {:induction false} SweepUntouched(c: Cache, peer: Peer, order: seq<Inode>, hint: Inode -> Peer, inode: Inode)
    requires inode !in order
    ensures Untouched(c, Sweep(c, peer, order, hint), inode, peer)
  {
    if order != [] {
      var n := |order| - 1;
      SweepUntouched(c, peer, order[..n], hint, inode);
      SweepOneUntouched(Sweep(c, peer, order[..n], hint), peer, order[n], hint, inode);
      UntouchedTransitive(c, Sweep(c, peer, order[..n], hint), Sweep(c, peer, order, hint), inode, peer);
    }
  }

  lemma UntouchedGivenUp(c: Cache, d: Cache, inode: Inode, peer: Peer)
    requires Untouched(c, d, inode, peer)
    ensures GivenUp(c, inode, peer) <==> GivenUp(d, inode, peer)
  {
    assert Holders(c, inode) == Holders(d, inode);
  }

  lemma SweepOneShown(c: Cache, peer: Peer, hint: Inode -> Peer, inode: Inode, e: FileEntry)
    requires BlobsOwned(c.files, c.blobs) && ShownWith(c, inode, e) && e.blob.Some?
    ensures ShownWith(SweepOne(c, peer, inode, hint), inode, e) <==>
              !(Unseen(peer, inode) in c.pending && GivenUp(c, inode, peer))
    ensures Unseen(peer, inode) !in SweepOne(c, peer, inode, hint).pending
  {
    var m := Unseen(peer, inode);
    if m in c.pending {
      RmShown(c.(pending := c.pending - {m}), c.pending[m], inode, peer, None, hint(inode), inode, e);
      UntouchedGivenUpPending(c, m);
      RmPending(c.(pending := c.pending - {m}), c.pending[m], inode, peer, None, hint(inode));
    }
  }

  lemma UntouchedGivenUpPending(c: Cache, m: Unseen)
    ensures GivenUp(c, m.inode, m.peer) <==> GivenUp(c.(pending := c.pending - {m}), m.inode, m.peer)
  {
    assert Holders(c, m.inode) == Holders(c.(pending := c.pending - {m}), m.inode);
  }

  lemma RmPending(c: Cache, parent: Inode, at: Inode, peer: Peer, expected: Option<Hash>, hint: Peer)
    ensures RmFileEntry(c, parent, at, peer, expected, hint).pending == c.pending
  {
  }

  lemma {:induction false} SweptIsSeen(c: Cache, peer: Peer, order: seq<Inode>, hint: Inode -> Peer, inode: Inode)
    requires inode in order
    ensures Unseen(peer, inode) !in Sweep(c, peer, order, hint).pending
  {
    var n := |order| - 1;
    var d := Sweep(c, peer, order[..n], hint);
    if order[n] == inode {
      var m := Unseen(peer, inode);
      if m in d.pending {
        RmPending(d.(pending := d.pending - {m}), d.pending[m], inode, peer, None, hint(inode));
      }
    } else {
      SweptIsSeen(c, peer, order[..n], hint, inode);
      SweepOneUntouched(d, peer, order[n], hint, inode);
    }
  }

  lemma {:induction false} SweepShown(c: Cache, peer: Peer, order: seq<Inode>, hint: Inode -> Peer, inode: Inode,
                                      e: FileEntry)
    requires Owned(c) && ShownWith(c, inode, e) && e.blob.Some?
    ensures ShownWith(Sweep(c, peer, order, hint), inode, e) <==>
              !(inode in order && Unseen(peer, inode) in c.pending && GivenUp(c, inode, peer))
  {
    if order != [] {
      var n := |order| - 1;
      var d := Sweep(c, peer, order[..n], hint);
      assert Sweep(c, peer, order, hint) == SweepOne(d, peer, order[n], hint);
      if inode in order[..n] {
        SweepShown(c, peer, order[..n], hint, inode, e);
        SweptIsSeen(c, peer, order[..n], hint, inode);
        if order[n] != inode {
          SweepOneUntouched(d, peer, order[n], hint, inode);
        }
      } else {
        SweepUntouched(c, peer, order[..n], hint, inode);
        if order[n] == inode {
          FirstSweepShown(c, d, peer, order[..n], hint, inode, e);
        } else {
          SweepOneUntouched(d, peer, order[n], hint, inode);
        }
      }
    }
  }

  lemma FirstSweepShown(c: Cache, d: Cache, peer: Peer, order: seq<Inode>, hint: Inode -> Peer, inode: Inode,
                        e: FileEntry)
    requires Owned(c) && ShownWith(c, inode, e) && e.blob.Some? && d == Sweep(c, peer, order, hint)
    requires Untouched(c, d, inode, peer)
    ensures ShownWith(SweepOne(d, peer, inode, hint), inode, e) <==>
              !(Unseen(peer, inode) in c.pending && GivenUp(c, inode, peer))
  {
    SweepOwned(c, peer, order, hint);
    UntouchedGivenUp(c, d, inode, peer);
    SweepOneShown(d, peer, hint, inode, e);
  }

  lemma UnlinkShown(c: Cache, peer: Peer, path: Path, oldHash: Hash, hint: Inode -> Peer, inode: Inode, e: FileEntry)
    requires Owned(c) && ShownWith(c, inode, e) && e.blob.Some? && Unlink(c, peer, path, oldHash, hint).Ok?
    ensures ShownWith(Unlink(c, peer, path, oldHash, hint).value, inode, e) <==>
              !(LeadsTo(c, path, inode) && HasHash(c, EntryOf(inode, peer), oldHash) && GivenUp(c, inode, peer))
  {
    var key := Key(Lookup(c.tree, Components(Parent(path))).value.inode, Name(path));
    var at := c.tree.dirs[key].inode;
    RmShown(c, key.parent, at, peer, Some(oldHash), hint(at), inode, e);
    assert LeadsTo(c, path, at);
  }

  lemma UpdateShown(c: Cache, peer: Peer, n: Notification, hint: Inode -> Peer, order: seq<Inode>, inode: Inode,
                    e: FileEntry)
    requires Owned(c) && ShownWith(c, inode, e) && e.blob.Some? && Possible(c, peer, n, order)
    requires Update(c, peer, n, hint, order).Ok?
    ensures ShownWith(Update(c, peer, n, hint, order).value, inode, e) <==> !NotificationDisplaces(c, peer, n, inode)
  {
    match n
    case Add(_, _) => ReceivedShown(Locate(c, n.path).value, peer, n, inode, e);
    case Replace(_, _, _) => ReceivedShown(Locate(c, n.path).value, peer, n, inode, e);
    case Catchup(_, _) => ReceivedShown(Locate(c, n.path).value, peer, n, inode, e);
    case Remove(path, oldHash) => UnlinkShown(c, peer, path, oldHash, hint, inode, e);
    case Drop(path, oldHash) => UnlinkShown(c, peer, path, oldHash, hint, inode, e);
    case CatchupStart =>
    case CatchupComplete =>
      SweepShown(c, peer, order, hint, inode, e);
      assert Unseen(peer, inode) in c.pending ==> inode in Marked(c, peer);
  }

  lemma FailedUpdateDisplacesNothing(c: Cache, peer: Peer, n: Notification, hint: Inode -> Peer, order: seq<Inode>,
                                     inode: Inode)
    requires Update(c, peer, n, hint, order).Err?
    ensures !NotificationDisplaces(c, peer, n, inode)
  {
  }

  lemma BlobActionShown(c: Cache, a: Action, inode: Inode, e: FileEntry)
    requires Owned(c) && Enabled(c, a) && !a.Notify? && ShownWith(c, inode, e) && e.blob.Some?
    ensures ShownWith(After(c, a), inode, e) <==> !Displaces(c, a, inode)
  {
  }

  /** A version that has a blob is taken away, and its blob dropped, exactly by these transactions. */
  lemma DisplacesExactly(c: Cache, a: Action, inode: Inode, e: FileEntry)
    requires Owned(c) && Enabled(c, a) && ShownWith(c, inode, e) && e.blob.Some?
    ensures e.blob.value in c.blobs
    ensures ShownWith(After(c, a), inode, e) <==> !Displaces(c, a, inode)
    ensures e.blob.value in After(c, a).blobs <==> !Displaces(c, a, inode)
  {
    DroppedExactly(c, a, inode, e);
    if a.Notify? {
      if Act(c, a).Ok? {
        UpdateShown(c, a.peer, a.n, a.hint, a.order, inode, e);
      } else {
        FailedUpdateDisplacesNothing(c, a.peer, a.n, a.hint, a.order, inode);
      }
    } else {
      BlobActionShown(c, a, inode, e);
    }
  }

  /** The blob belongs to a version that is taken away. */
  ghost predicate DropsBlob(c: Cache, a: Action, id: BlobId) {
    exists i, e :: ShownWith(c, i, e) && e.blob == Some(id) && Displaces(c, a, i)
  }

  lemma DropsBlobExactly(c: Cache, a: Action, id: BlobId)
    requires Owned(c) && Enabled(c, a) && id in c.blobs
    ensures id !in After(c, a).blobs <==> DropsBlob(c, a, id)
  {
    var i, e := OwnerOf(c, id);
    DisplacesExactly(c, a, i, e);
    if DropsBlob(c, a, id) {
      var j, f :| ShownWith(c, j, f) && f.blob == Some(id) && Displaces(c, a, j);
      OwnerIsOne(c, i, e, j, f);
    }
  }
}
