/** Which notifications mark which paths dirty. */
module Notices {
  import opened Common
  import opened Paths
  import opened Directory
  import opened Cache
  import opened CacheInvariant
  import opened CacheLog
  import opened Holdings
  import Catchup
  import DirtyLog

  /** The peer stops holding the file, and nobody else holds what is shown. */
  ghost predicate LosesShown(c: Cache, path: Path, peer: Peer) {
    Holding(c, path, peer).Some? && !ShownByOther(c, path, peer)
  }

  /**
   * The notification calls for a look at the path: something is shown for the first time, the version
   * shown is replaced, or its last holder gives it up.
   */
  ghost predicate CallsFor(c: Cache, peer: Peer, n: Notification, at: Path) {
    match n
    case Add(path, _) => at == path && Showing(c, at).None?
    case Catchup(path, _) => at == path && Showing(c, at).None?
    case Replace(path, _, oldHash) => at == path && Has(Showing(c, at), oldHash)
    case Remove(path, oldHash) => at == path && Has(Holding(c, at, peer), oldHash) && LosesShown(c, at, peer)
    case Drop(path, oldHash) => at == path && Has(Holding(c, at, peer), oldHash) && LosesShown(c, at, peer)
    case CatchupStart => false
    case CatchupComplete => Unreported(c, at, peer) && LosesShown(c, at, peer)
  }

  /** The path has a newer mark in `m` if `marked`, and otherwise the same or none as in `l`. */
  ghost predicate MarkedIf(l: DirtyLog.Log, m: DirtyLog.Log, path: string, marked: bool) {
    && l.counter <= m.counter
    && if marked then MarkedSince(m, path, l.counter) else SameMark(l, m, path)
  }

  ghost predicate SameMark(l: DirtyLog.Log, m: DirtyLog.Log, path: string) {
    (path in m.dirty <==> path in l.dirty) && (path in l.dirty ==> m.dirty[path] == l.dirty[path])
  }

  lemma MarkDirtyMarks(l: DirtyLog.Log, path: string, at: string)
    ensures MarkedIf(l, DirtyLog.MarkDirty(l, path), at, at == path)
  {
  }

  lemma InstallMarks(c: Cache, inode: Inode, peer: Peer, e: FileEntry, visible: bool, at: string)
    ensures MarkedIf(c.log, Install(c, inode, peer, e, visible).log, at, visible && at == e.path)
  {
    MarkDirtyMarks(c.log, e.path, at);
  }

  /** As `CallsFor`, in terms of entries. */
  ghost predicate Writes(c: Cache, inode: Inode, peer: Peer, n: Notification)
    requires n.Add? || n.Replace? || n.Catchup?
  {
    match n
    case Add(_, _) => EntryOf(inode, peer) !in c.files && !Shown(c, inode)
    case Replace(_, _, oldHash) => HasHash(c, DefaultOf(inode), oldHash)
    case Catchup(_, _) => !Shown(c, inode)
  }

  lemma ReceivedMarks(at: Place, peer: Peer, n: Notification, path: string)
    requires n.Add? || n.Replace? || n.Catchup?
    ensures MarkedIf(at.cache.log, Received(at, peer, n).log, path,
                     path == n.path && Writes(at.cache, at.inode, peer, n))
  {
    var c, e := at.cache, FileEntry(n.path, n.version, at.parent, None);
    match n
    case Add(_, _) => InstallMarks(c, at.inode, peer, e, !Shown(c, at.inode), path);
    case Replace(_, _, oldHash) => InstallMarks(c, at.inode, peer, e, HasHash(c, DefaultOf(at.inode), oldHash), path);
    case Catchup(_, _) =>
      InstallMarks(c.(pending := c.pending - {Unseen(peer, at.inode)}), at.inode, peer, e, !Shown(c, at.inode), path);
  }

  lemma WritesByVersion(c: Cache, b: Cache, inode: Inode, peer: Peer, n: Notification)
    requires n.Add? || n.Replace? || n.Catchup?
    requires VersionAt(b, DefaultOf(inode)) == Showing(c, n.path)
    requires EntryOf(inode, peer) in b.files ==> Shown(b, inode)
    ensures Writes(b, inode, peer, n) <==> CallsFor(c, peer, n, n.path)
  {
  }

  lemma WritesWhenCalledFor(c: Cache, peer: Peer, n: Notification)
    requires n.Add? || n.Replace? || n.Catchup?
    requires InPlace(c) && Paired(c.files) && Locate(c, n.path).Ok?
    ensures Writes(Locate(c, n.path).value.cache, Locate(c, n.path).value.inode, peer, n) <==>
              CallsFor(c, peer, n, n.path)
  {
    var at := Locate(c, n.path).value;
    LocatedHere(c, n.path, Default);
    if EntryOf(at.inode, peer) in c.files {
      PeerIsShown(c.files, at.inode, peer);
    }
    WritesByVersion(c, at.cache, at.inode, peer, n);
  }

  lemma ReceiveMarks(c: Cache, peer: Peer, n: Notification, at: Path)
    requires n.Add? || n.Replace? || n.Catchup?
    requires InPlace(c) && Owned(c) && Receive(c, peer, n).Ok?
    ensures MarkedIf(c.log, Receive(c, peer, n).value.log, at, CallsFor(c, peer, n, at))
  {
    LocatedHere(c, n.path, Default);
    WritesWhenCalledFor(c, peer, n);
    ReceivedMarks(Locate(c, n.path).value, peer, n, at);
  }

  // ---------------------------------------------------------------------
  // Removing a version
  // ---------------------------------------------------------------------

  lemma RemoveLastMarks(c: Cache, parent: Inode, inode: Inode, peer: Peer, at: Path)
    requires InPlace(c) && EntryOf(inode, peer) in c.files
    ensures MarkedIf(c.log, RemoveLast(c, parent, inode, peer).log, at, FileAt(c, at) == Some(inode))
  {
    PathOfEntry(c, at, EntryOf(inode, peer));
    if Shown(c, inode) {
      SamePlace(c, EntryOf(inode, peer), DefaultOf(inode));
    }
    MarkDirtyMarks(c.log, LastPath(c, inode, peer), at);
  }

  lemma RemoveOneMarks(c: Cache, inode: Inode, peer: Peer, hint: Peer, at: Path)
    requires InPlace(c) && Holders(c, inode) - {peer} != {}
    ensures MarkedIf(c.log, RemoveOne(c, inode, peer, hint).log, at,
                     FileAt(c, at) == Some(inode) && !VersionHeld(c, inode, Holders(c, inode) - {peer}))
  {
    OthersHaveEntries(c, inode, peer);
    var others := Holders(c, inode) - {peer};
    if !VersionHeld(c, inode, others) {
      var q := Successor(c, inode, others, hint);
      PathOfEntry(c, at, EntryOf(inode, q));
      MarkDirtyMarks(c.log, c.files[EntryOf(inode, q)].path, at);
    }
  }

  lemma LosesInEntries(c: Cache, inode: Inode, peer: Peer, at: Path)
    requires FileAt(c, at) == Some(inode) && EntryOf(inode, peer) in c.files
    ensures LosesShown(c, at, peer) <==> !VersionHeld(c, inode, Holders(c, inode) - {peer})
  {
    HeldIsShown(c, at, inode, peer);
  }

  lemma RmFileEntryMarks(c: Cache, parent: Inode, inode: Inode, peer: Peer, expected: Option<Hash>, hint: Peer,
                         at: Path)
    requires InPlace(c)
    ensures MarkedIf(c.log, RmFileEntry(c, parent, inode, peer, expected, hint).log, at,
                     FileAt(c, at) == Some(inode) && Goes(c, at, peer, expected) && LosesShown(c, at, peer))
  {
    var key := EntryOf(inode, peer);
    if FileAt(c, at) == Some(inode) {
      GoesIsExpected(c, inode, peer, expected, at);
    }
    if key in c.files && (expected.Some? ==> HasHash(c, key, expected.value)) {
      if FileAt(c, at) == Some(inode) {
        LosesInEntries(c, inode, peer, at);
      }
      if Holders(c, inode) - {peer} == {} {
        RemoveLastMarks(c, parent, inode, peer, at);
      } else {
        RemoveOneMarks(c, inode, peer, hint, at);
      }
    }
  }

  lemma UnlinkMarks(c: Cache, peer: Peer, path: Path, oldHash: Hash, hint: Inode -> Peer, at: Path)
    requires InPlace(c) && Unlink(c, peer, path, oldHash, hint).Ok?
    ensures MarkedIf(c.log, Unlink(c, peer, path, oldHash, hint).value.log, at,
                     CallsFor(c, peer, Remove(path, oldHash), at))
  {
    var parent, inode := UnlinkIs(c, peer, path, oldHash, hint);
    RmFileEntryMarks(c, parent, inode, peer, Some(oldHash), hint(inode), at);
    if FileAt(c, at) == Some(inode) {
      SamePath(c, path, at);
    }
  }

  // ---------------------------------------------------------------------
  // Sweeping
  // ---------------------------------------------------------------------

  lemma SweepOneMarks(c: Cache, peer: Peer, inode: Inode, hint: Inode -> Peer, at: Path)
    requires InPlace(c)
    ensures MarkedIf(c.log, SweepOne(c, peer, inode, hint).log, at,
                     FileAt(c, at) == Some(inode) && Unreported(c, at, peer) && LosesShown(c, at, peer))
  {
    var m := Unseen(peer, inode);
    if m in c.pending {
      var unmarked := c.(pending := c.pending - {m});
      SameTables(c, unmarked, at);
      SameLoses(c, unmarked, at, peer);
      RmFileEntryMarks(unmarked, c.pending[m], inode, peer, None, hint(inode), at);
    }
  }

  lemma SameLoses(c: Cache, d: Cache, at: Path, peer: Peer)
    requires SameAt(c, d, at)
    ensures LosesShown(c, at, peer) <==> LosesShown(d, at, peer)
  {
    assert forall p :: HeldByOther(c, at, peer, p) <==> HeldByOther(d, at, peer, p);
  }

  lemma MarkedIfBoth(a: DirtyLog.Log, b: DirtyLog.Log, c: DirtyLog.Log, path: string, first: bool, second: bool)
    requires MarkedIf(a, b, path, first) && MarkedIf(b, c, path, second)
    ensures MarkedIf(a, c, path, first || second)
  {
  }

  lemma {:induction false} SweepMarksPaths(c: Cache, peer: Peer, order: seq<Inode>, hint: Inode -> Peer, at: Path)
    requires InPlace(c)
    ensures MarkedIf(c.log, Sweep(c, peer, order, hint).log, at,
                     Unreported(c, at, peer) && LosesShown(c, at, peer) && FileAt(c, at).value in order)
  {
    if order != [] {
      var n := |order| - 1;
      var d, i := Sweep(c, peer, order[..n], hint), order[n];
      SweepMarksPaths(c, peer, order[..n], hint, at);
      SweepInPlace(c, peer, order[..n], hint);
      SweepOneMarks(d, peer, i, hint, at);
      SweptBefore(c, peer, order[..n], hint, i, at);
      MarkedIfBoth(c.log, d.log, SweepOne(d, peer, i, hint).log, at,
                   Unreported(c, at, peer) && LosesShown(c, at, peer) && FileAt(c, at).value in order[..n],
                   FileAt(d, at) == Some(i) && Unreported(d, at, peer) && LosesShown(d, at, peer));
      Catchup.InPrefix(order, if FileAt(c, at).Some? then FileAt(c, at).value else i);
    }
  }

  /** What is left to be swept is what it was at first. */
  lemma SweptBefore(c: Cache, peer: Peer, order: seq<Inode>, hint: Inode -> Peer, i: Inode, at: Path)
    requires InPlace(c)
    ensures var d := Sweep(c, peer, order, hint);
            (FileAt(d, at) == Some(i) && Unreported(d, at, peer) && LosesShown(d, at, peer)) <==>
            (FileAt(c, at) == Some(i) && Unreported(c, at, peer) && LosesShown(c, at, peer) && i !in order)
  {
    var d := Sweep(c, peer, order, hint);
    SweepMeans(c, peer, order, hint, at);
    Catchup.SweepMarks(c, peer, order, hint, Unseen(peer, i));
    if !(Unreported(c, at, peer) && FileAt(c, at).value in order) {
      assert SameAt(c, d, at);
      SameLoses(c, d, at, peer);
    }
  }

  /**
   * A notification gives a path a new mark exactly if it calls for one, and leaves the marks of all other
   * paths as they are.
   */
  lemma UpdateMarksExactly(c: Cache, peer: Peer, n: Notification, hint: Inode -> Peer, order: seq<Inode>, at: Path)
    requires InPlace(c) && Owned(c) && Possible(c, peer, n, order) && Update(c, peer, n, hint, order).Ok?
    ensures MarkedIf(c.log, Update(c, peer, n, hint, order).value.log, at, CallsFor(c, peer, n, at))
  {
    match n
    case Add(_, _) => ReceiveMarks(c, peer, n, at);
    case Replace(_, _, _) => ReceiveMarks(c, peer, n, at);
    case Catchup(_, _) => ReceiveMarks(c, peer, n, at);
    case Remove(path, oldHash) => UnlinkMarks(c, peer, path, oldHash, hint, at);
    case Drop(path, oldHash) => UnlinkMarks(c, peer, path, oldHash, hint, at);
    case CatchupStart =>
    case CatchupComplete =>
      SweepMarksPaths(c, peer, order, hint, at);
      if Unreported(c, at, peer) {
        assert Unseen(peer, FileAt(c, at).value).inode in Marked(c, peer);
      }
  }
}
