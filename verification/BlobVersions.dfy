/** Which version a blob was made for. */
module BlobVersions {
  import opened Common
  import opened Paths
  import opened Directory
  import opened Cache
  import opened CacheInvariant
  import opened CacheLog

  /** An entry with a blob is as it was before, and so is every blob. */
  ghost predicate Inherits(c: Cache, d: Cache) {
    && (forall k | k in d.files && d.files[k].blob.Some? :: k in c.files && c.files[k] == d.files[k])
    && (forall id | id in d.blobs :: id in c.blobs && d.blobs[id] == c.blobs[id])
  }

  lemma InstallInherits(c: Cache, inode: Inode, peer: Peer, e: FileEntry, visible: bool)
    requires e.blob.None?
    ensures Inherits(c, Install(c, inode, peer, e, visible))
  {
  }

  lemma ReceivedInherits(at: Place, peer: Peer, n: Notification)
    requires n.Add? || n.Replace? || n.Catchup?
    ensures Inherits(at.cache, Received(at, peer, n))
  {
    var c, e := at.cache, FileEntry(n.path, n.version, at.parent, None);
    match n
    case Add(_, _) => InstallInherits(c, at.inode, peer, e, !Shown(c, at.inode));
    case Replace(_, _, oldHash) => InstallInherits(c, at.inode, peer, e, HasHash(c, DefaultOf(at.inode), oldHash));
    case Catchup(_, _) =>
      InstallInherits(c.(pending := c.pending - {Unseen(peer, at.inode)}), at.inode, peer, e, !Shown(c, at.inode));
  }

  lemma RemoveOneInherits(c: Cache, inode: Inode, peer: Peer, hint: Peer)
    requires BlobsOwned(c.files, c.blobs) && Holders(c, inode) - {peer} != {}
    ensures Inherits(c, RemoveOne(c, inode, peer, hint))
  {
    OthersHaveEntries(c, inode, peer);
    var q := Successor(c, inode, Holders(c, inode) - {peer}, hint);
    PeersHoldNoBlob(c.files, c.blobs, EntryOf(inode, q));
  }

  lemma RmFileEntryInherits(c: Cache, parent: Inode, inode: Inode, peer: Peer, expected: Option<Hash>, hint: Peer)
    requires BlobsOwned(c.files, c.blobs)
    ensures Inherits(c, RmFileEntry(c, parent, inode, peer, expected, hint))
  {
    if EntryOf(inode, peer) in c.files && Holders(c, inode) - {peer} != {} {
      RemoveOneInherits(c, inode, peer, hint);
    }
  }

  lemma InheritsTransitive(a: Cache, b: Cache, c: Cache)
    requires Inherits(a, b) && Inherits(b, c)
    ensures Inherits(a, c)
  {
  }

  lemma {:induction false} SweepInherits(c: Cache, peer: Peer, order: seq<Inode>, hint: Inode -> Peer)
    requires Owned(c)
    ensures Inherits(c, Sweep(c, peer, order, hint))
  {
    if order != [] {
      var d, inode := Sweep(c, peer, order[..|order| - 1], hint), order[|order| - 1];
      SweepInherits(c, peer, order[..|order| - 1], hint);
      SweepOwned(c, peer, order[..|order| - 1], hint);
      var m := Unseen(peer, inode);
      if m in d.pending {
        RmFileEntryInherits(d.(pending := d.pending - {m}), d.pending[m], inode, peer, None, hint(inode));
        InheritsTransitive(c, d, SweepOne(d, peer, inode, hint));
      }
    }
  }

  lemma UnlinkInherits(c: Cache, peer: Peer, path: Path, oldHash: Hash, hint: Inode -> Peer)
    requires Owned(c) && Unlink(c, peer, path, oldHash, hint).Ok?
    ensures Inherits(c, Unlink(c, peer, path, oldHash, hint).value)
  {
    var key := Key(Lookup(c.tree, Components(Parent(path))).value.inode, Name(path));
    var inode := c.tree.dirs[key].inode;
    RmFileEntryInherits(c, key.parent, inode, peer, Some(oldHash), hint(inode));
  }

  /** No notification lets a version inherit a blob. */
  lemma UpdateInherits(c: Cache, peer: Peer, n: Notification, hint: Inode -> Peer, order: seq<Inode>)
    requires Owned(c) && Update(c, peer, n, hint, order).Ok?
    ensures Inherits(c, Update(c, peer, n, hint, order).value)
  {
    match n
    case Add(_, _) => ReceivedInherits(Locate(c, n.path).value, peer, n);
    case Replace(_, _, _) => ReceivedInherits(Locate(c, n.path).value, peer, n);
    case Catchup(_, _) => ReceivedInherits(Locate(c, n.path).value, peer, n);
    case Remove(path, oldHash) => UnlinkInherits(c, peer, path, oldHash, hint);
    case Drop(path, oldHash) => UnlinkInherits(c, peer, path, oldHash, hint);
    case CatchupStart =>
    case CatchupComplete => SweepInherits(c, peer, order, hint);
  }

  // ---------------------------------------------------------------------
  // Runs
  // ---------------------------------------------------------------------

  ghost predicate ShownWith(c: Cache, inode: Inode, e: FileEntry) {
    Shown(c, inode) && c.files[DefaultOf(inode)] == e
  }

  /** The action gave the entry, shown without a blob before, a new blob. */
  ghost predicate Creates(c: Cache, a: Action, inode: Inode, e: FileEntry) {
    && ShownWith(c, inode, e.(blob := None)) && (a.Open? || a.MoveIn?)
    && e.blob.Some? && e.blob.value !in c.blobs
  }

  lemma BlobActionsShow(c: Cache, path: Path, hash: Hash, at: Inode, inode: Inode, e: FileEntry)
    requires e.blob.Some?
    ensures OpenFile(c, at).Ok? && ShownWith(OpenFile(c, at).value, inode, e) ==>
              ShownWith(c, inode, e) || Creates(c, Open(at), inode, e)
    ensures MoveIntoBlobIfMatches(c, path, hash).Ok? &&
              ShownWith(MoveIntoBlobIfMatches(c, path, hash).value.0, inode, e) ==>
              ShownWith(c, inode, e) || Creates(c, MoveIn(path, hash), inode, e)
    ensures MoveBlobIfMatches(c, path, hash).Ok? && ShownWith(MoveBlobIfMatches(c, path, hash).value.0, inode, e) ==>
              ShownWith(c, inode, e)
  {
  }

  lemma BlobCameFrom(c: Cache, a: Action, inode: Inode, e: FileEntry)
    requires Owned(c) && Enabled(c, a) && e.blob.Some? && ShownWith(After(c, a), inode, e)
    ensures ShownWith(c, inode, e) || Creates(c, a, inode, e)
  {
    if Act(c, a).Ok? {
      match a
      case Notify(peer, n, hint, order) => UpdateInherits(c, peer, n, hint, order);
      case Open(at) => BlobActionsShow(c, "a", 0, at, inode, e);
      case MoveOut(path, hash) => BlobActionsShow(c, path, hash, 0, inode, e);
      case MoveIn(path, hash) => BlobActionsShow(c, path, hash, 0, inode, e);
      case Extend(_, _) =>
      case Verify(_, _) =>
      case LogOp(_, _) =>
    }
  }

  ghost predicate ShownThroughout(states: seq<Cache>, inode: Inode, e: FileEntry, i: nat, j: nat)
    requires i <= j < |states|
  {
    forall m | i <= m <= j :: ShownWith(states[m], inode, e)
  }

  lemma CameFromAt(states: seq<Cache>, actions: seq<Action>, inode: Inode, e: FileEntry, i: nat, next: Cache)
    requires Run(states, actions) && Consistent(states[0]) && i < |actions| && next == states[i + 1]
    requires e.blob.Some? && ShownWith(next, inode, e)
    ensures ShownWith(states[i], inode, e) || Creates(states[i], actions[i], inode, e)
  {
    RunStep(states, actions, i, next);
    BlobCameFrom(states[i], actions[i], inode, e);
  }

  lemma NoBlobsNoneShown(c: Cache, inode: Inode, e: FileEntry)
    requires Owned(c) && c.blobs == map[] && e.blob.Some?
    ensures !ShownWith(c, inode, e)
  {
    if ShownWith(c, inode, e) {
      assert Owns(c.files, DefaultOf(inode), e.blob.value);
    }
  }

  /**
   * The version that is shown with a blob has been shown with that blob ever since the blob was
   * made for it. Its id may have been that of other blobs before.
   */
  lemma {:induction false} BlobOfVersion(states: seq<Cache>, actions: seq<Action>, inode: Inode, e: FileEntry, j: nat)
    returns (i: nat)
    requires Run(states, actions) && Consistent(states[0]) && states[0].blobs == map[]
    requires j <= |actions| && e.blob.Some? && ShownWith(states[j], inode, e)
    ensures 0 < i <= j && ShownThroughout(states, inode, e, i, j)
    ensures Creates(states[i - 1], actions[i - 1], inode, e)
  {
    NoBlobsNoneShown(states[0], inode, e);
    CameFromAt(states, actions, inode, e, j - 1, states[j]);
    if ShownWith(states[j - 1], inode, e) {
      i := BlobOfVersion(states, actions, inode, e, j - 1);
      StillShown(states, inode, e, i, j);
    } else {
      i := j;
    }
  }

  lemma StillShown(states: seq<Cache>, inode: Inode, e: FileEntry, i: nat, j: nat)
    requires i < j < |states| && ShownThroughout(states, inode, e, i, j - 1) && ShownWith(states[j], inode, e)
    ensures ShownThroughout(states, inode, e, i, j)
  {
  }

  lemma OwnerIsOne(c: Cache, i: Inode, e: FileEntry, j: Inode, f: FileEntry)
    requires BlobsOwned(c.files, c.blobs) && ShownWith(c, i, e) && ShownWith(c, j, f) && e.blob.Some? &&
               e.blob == f.blob
    ensures i == j && e == f
  {
    assert Owns(c.files, DefaultOf(i), e.blob.value) && Owns(c.files, DefaultOf(j), e.blob.value);
  }

  lemma OwnerOf(c: Cache, id: BlobId) returns (i: Inode, e: FileEntry)
    requires Owned(c) && id in c.blobs
    ensures ShownWith(c, i, e) && e.blob == Some(id)
  {
    var k :| Owns(c.files, k, id);
    i, e := k.inode, c.files[k];
  }

  /** The blob of an entry is dropped exactly if the entry is not shown with it any more. */
  lemma DroppedExactly(c: Cache, a: Action, inode: Inode, e: FileEntry)
    requires Owned(c) && Enabled(c, a) && e.blob.Some? && ShownWith(c, inode, e)
    ensures e.blob.value in c.blobs
    ensures e.blob.value in After(c, a).blobs <==> ShownWith(After(c, a), inode, e)
  {
    var d, id := After(c, a), e.blob.value;
    assert Owns(c.files, DefaultOf(inode), id);
    AfterOwned(c, a);
    if id in d.blobs {
      var i, f := OwnerOf(d, id);
      BlobCameFrom(c, a, i, f);
      OwnerIsOne(c, inode, e, i, f);
    } else if ShownWith(d, inode, e) {
      assert Owns(d.files, DefaultOf(inode), id);
    }
  }
}
