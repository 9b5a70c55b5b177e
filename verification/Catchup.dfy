/** Catching up with a peer: marking its files, hearing about them again, sweeping the rest. */
module Catchup {
  import opened Common
  import opened Paths
  import opened Directory
  import opened Cache
  import opened CacheInvariant
  import opened CacheLog

  // ---------------------------------------------------------------------
  // What is left alone
  // ---------------------------------------------------------------------

  ghost predicate SameEntry(c: Cache, d: Cache, key: FileKey) {
    (key in c.files <==> key in d.files) && (key in c.files ==> c.files[key] == d.files[key])
  }

  /** Entries and marks of a peer are the same in both. */
  ghost predicate Untouched(c: Cache, d: Cache, peer: Peer) {
    && (forall i :: SameEntry(c, d, EntryOf(i, peer)))
    && (forall i :: Unseen(peer, i) in c.pending <==> Unseen(peer, i) in d.pending)
  }

  /** Taking a peer's entry of one inode away leaves its other entries and all other peers alone. */
  lemma RmFileEntryExact(c: Cache, parent: Inode, inode: Inode, peer: Peer, expected: Option<Hash>, hint: Peer,
                         key: FileKey)
    requires key.who.Of?
    ensures var d := RmFileEntry(c, parent, inode, peer, expected, hint);
            && d.pending == c.pending
            && (key != EntryOf(inode, peer) ==> SameEntry(c, d, key))
            && (expected.None? ==> EntryOf(inode, peer) !in d.files)
  {
  }

  lemma UnlinkLeaves(c: Cache, peer: Peer, path: Path, oldHash: Hash, hint: Inode -> Peer, other: Peer)
    requires Unlink(c, peer, path, oldHash, hint).Ok? && other != peer
    ensures Untouched(c, Unlink(c, peer, path, oldHash, hint).value, other)
  {
    var d := Unlink(c, peer, path, oldHash, hint).value;
    var key := Key(Lookup(c.tree, Components(Parent(path))).value.inode, Name(path));
    var inode := c.tree.dirs[key].inode;
    RmFileEntryExact(c, key.parent, inode, peer, Some(oldHash), hint(inode), EntryOf(0, other));
    forall i ensures SameEntry(c, d, EntryOf(i, other)) {
      RmFileEntryExact(c, key.parent, inode, peer, Some(oldHash), hint(inode), EntryOf(i, other));
    }
  }

  lemma ReceivedLeaves(at: Place, peer: Peer, n: Notification, other: Peer)
    requires n.Add? || n.Replace? || n.Catchup?
    requires other != peer
    ensures Untouched(at.cache, Received(at, peer, n), other)
  {
  }

  // ---------------------------------------------------------------------
  // Sweeping
  // ---------------------------------------------------------------------

  lemma SweepOneExact(c: Cache, peer: Peer, inode: Inode, hint: Inode -> Peer, key: FileKey)
    requires key.who.Of?
    ensures var d := SweepOne(c, peer, inode, hint);
            && d.pending == c.pending - {Unseen(peer, inode)}
            && (key != EntryOf(inode, peer) ==> SameEntry(c, d, key))
            && (Unseen(peer, inode) in c.pending ==> EntryOf(inode, peer) !in d.files)
            && (Unseen(peer, inode) !in c.pending ==> d == c)
  {
    var m := Unseen(peer, inode);
    if m in c.pending {
      RmFileEntryExact(c.(pending := c.pending - {m}), c.pending[m], inode, peer, None, hint(inode), key);
    } else {
      assert c.pending - {m} == c.pending;
    }
  }

  ghost predicate Swept(c: Cache, peer: Peer, order: seq<Inode>, key: FileKey) {
    key.who == Of(peer) && Unseen(peer, key.inode) in c.pending && key.inode in order
  }

  lemma InPrefix<T>(s: seq<T>, x: T)
    requires s != []
    ensures x in s <==> x in s[..|s| - 1] || x == s[|s| - 1]
  {
    assert s == s[..|s| - 1] + [s[|s| - 1]];
  }

  lemma {:induction false} SweepMarks(c: Cache, peer: Peer, order: seq<Inode>, hint: Inode -> Peer, m: Unseen)
    ensures m in Sweep(c, peer, order, hint).pending <==> m in c.pending && !(m.peer == peer && m.inode in order)
  {
    if order != [] {
      var n := |order| - 1;
      SweepMarks(c, peer, order[..n], hint, m);
      SweepOneExact(Sweep(c, peer, order[..n], hint), peer, order[n], hint, EntryOf(0, peer));
      InPrefix(order, m.inode);
    }
  }

  /** A sweep removes exactly the peer's marked entries. */
  lemma {:induction false} SweepExact(c: Cache, peer: Peer, order: seq<Inode>, hint: Inode -> Peer, key: FileKey)
    requires key.who.Of?
    ensures Swept(c, peer, order, key) ==> key !in Sweep(c, peer, order, hint).files
    ensures !Swept(c, peer, order, key) ==> SameEntry(c, Sweep(c, peer, order, hint), key)
  {
    if order != [] {
      var n := |order| - 1;
      SweepExact(c, peer, order[..n], hint, key);
      SweepMarks(c, peer, order[..n], hint, Unseen(peer, key.inode));
      SweepOneExact(Sweep(c, peer, order[..n], hint), peer, order[n], hint, key);
      InPrefix(order, key.inode);
    }
  }

  lemma SweepLeaves(c: Cache, peer: Peer, order: seq<Inode>, hint: Inode -> Peer, other: Peer)
    requires other != peer
    ensures Untouched(c, Sweep(c, peer, order, hint), other)
  {
    forall i
      ensures SameEntry(c, Sweep(c, peer, order, hint), EntryOf(i, other))
      ensures Unseen(other, i) in c.pending <==> Unseen(other, i) in Sweep(c, peer, order, hint).pending
    {
      SweepExact(c, peer, order, hint, EntryOf(i, other));
      SweepMarks(c, peer, order, hint, Unseen(other, i));
    }
  }

  lemma UpdateLeaves(c: Cache, peer: Peer, n: Notification, hint: Inode -> Peer, order: seq<Inode>, other: Peer)
    requires Update(c, peer, n, hint, order).Ok? && other != peer
    ensures Untouched(c, Update(c, peer, n, hint, order).value, other)
  {
    match n
    case Add(_, _) => ReceivedLeaves(Locate(c, n.path).value, peer, n, other);
    case Replace(_, _, _) => ReceivedLeaves(Locate(c, n.path).value, peer, n, other);
    case Catchup(_, _) => ReceivedLeaves(Locate(c, n.path).value, peer, n, other);
    case Remove(path, oldHash) => UnlinkLeaves(c, peer, path, oldHash, hint, other);
    case Drop(path, oldHash) => UnlinkLeaves(c, peer, path, oldHash, hint, other);
    case CatchupStart =>
    case CatchupComplete => SweepLeaves(c, peer, order, hint, other);
  }

  /** Only a peer's own notifications touch its entries and marks. */
  lemma AfterLeaves(c: Cache, a: Action, other: Peer)
    requires Enabled(c, a) && (a.Notify? ==> a.peer != other)
    ensures Untouched(c, After(c, a), other)
  {
    if Act(c, a).Ok? && a.Notify? {
      UpdateLeaves(c, a.peer, a.n, a.hint, a.order, other);
    }
  }

  // ---------------------------------------------------------------------
  // Marks
  // ---------------------------------------------------------------------

  /** Whether the mark is there after the notification. */
  ghost predicate StaysMarked(c: Cache, peer: Peer, n: Notification, m: Unseen) {
    match n
    case CatchupStart => m in c.pending || (m.peer == peer && EntryOf(m.inode, peer) in c.files)
    case Catchup(path, _) =>
      m in c.pending && !(m.peer == peer && Locate(c, path).Ok? && Locate(c, path).value.inode == m.inode)
    case CatchupComplete => m in c.pending && m.peer != peer
    case _ => m in c.pending
  }

  lemma UnlinkKeepsMarks(c: Cache, peer: Peer, path: Path, oldHash: Hash, hint: Inode -> Peer)
    requires Unlink(c, peer, path, oldHash, hint).Ok?
    ensures Unlink(c, peer, path, oldHash, hint).value.pending == c.pending
  {
    var key := Key(Lookup(c.tree, Components(Parent(path))).value.inode, Name(path));
    var inode := c.tree.dirs[key].inode;
    RmFileEntryExact(c, key.parent, inode, peer, Some(oldHash), hint(inode), EntryOf(0, peer));
  }

  /**
   * The start of a catchup marks every file of the peer, a report takes one mark away and the completion
   * the rest. Nothing else does: a file that is removed in between leaves its mark.
   */
  lemma MarksExactly(c: Cache, peer: Peer, n: Notification, hint: Inode -> Peer, order: seq<Inode>, m: Unseen)
    requires Possible(c, peer, n, order) && Update(c, peer, n, hint, order).Ok?
    ensures m in Update(c, peer, n, hint, order).value.pending <==> StaysMarked(c, peer, n, m)
  {
    match n
    case Add(_, _) =>
    case Replace(_, _, _) =>
    case Catchup(_, _) =>
    case Remove(path, oldHash) => UnlinkKeepsMarks(c, peer, path, oldHash, hint);
    case Drop(path, oldHash) => UnlinkKeepsMarks(c, peer, path, oldHash, hint);
    case CatchupStart =>
      if m.peer == peer && EntryOf(m.inode, peer) in c.files {
        assert Unseen(peer, EntryOf(m.inode, peer).inode) in FilesOf(c, peer);
      }
    case CatchupComplete =>
      SweepMarks(c, peer, order, hint, m);
      assert m in c.pending && m.peer == peer ==> m.inode in Marked(c, peer);
  }

  // ---------------------------------------------------------------------
  // Catching up
  // ---------------------------------------------------------------------

  /** Whether the action is a report of the peer that is not turned down. */
  ghost predicate Reports(c: Cache, a: Action, peer: Peer) {
    a.Notify? && a.peer == peer && a.n.Catchup? && Receive(c, peer, a.n).Ok?
  }

  /** What the peer has reported so far: the last version under each path. */
  ghost function Reported(states: seq<Cache>, actions: seq<Action>, peer: Peer, start: nat,
                          end: nat): map<Path, Version>
    requires |states| == |actions| + 1 && start <= end <= |actions|
    decreases end
  {
    if start == end then map[]
    else Noted(Reported(states, actions, peer, start, end - 1), states[end - 1], actions[end - 1], peer)
  }

  ghost function Noted(reported: map<Path, Version>, c: Cache, a: Action, peer: Peer): map<Path, Version> {
    if Reports(c, a, peer) then reported[a.n.path := a.n.version] else reported
  }

  ghost predicate AsReported(e: FileEntry, reported: map<Path, Version>) {
    e.path in reported && reported[e.path] == e.version
  }

  ghost predicate ReportedAs(c: Cache, peer: Peer, inode: Inode, path: Path, v: Version) {
    var key := EntryOf(inode, peer);
    key in c.files && c.files[key].path == path && c.files[key].version == v && Unseen(peer, inode) !in c.pending
  }

  /** An entry is still marked or as reported, and every report has its unmarked entry. */
  ghost predicate Catching(c: Cache, peer: Peer, reported: map<Path, Version>) {
    && (forall i | EntryOf(i, peer) in c.files && Unseen(peer, i) !in c.pending ::
          AsReported(c.files[EntryOf(i, peer)], reported))
    && (forall path | path in reported :: exists i :: ReportedAs(c, peer, i, path, reported[path]))
  }

  /** The peer's entries are exactly the reported ones. */
  ghost predicate ExactlyReported(c: Cache, peer: Peer, reported: map<Path, Version>) {
    && (forall i | EntryOf(i, peer) in c.files ::
          AsReported(c.files[EntryOf(i, peer)], reported))
    && (forall path | path in reported :: exists i :: ReportedAs(c, peer, i, path, reported[path]))
  }

  lemma MarkAllCatching(c: Cache, peer: Peer)
    ensures Catching(MarkAll(c, peer), peer, map[])
  {
    var d := MarkAll(c, peer);
    forall i | EntryOf(i, peer) in d.files ensures Unseen(peer, i) in d.pending {
      assert EntryOf(i, peer).who == Of(peer);
      assert Unseen(peer, EntryOf(i, peer).inode) in FilesOf(c, peer);
    }
  }

  lemma UntouchedCatching(c: Cache, d: Cache, peer: Peer, reported: map<Path, Version>)
    requires Catching(c, peer, reported) && Untouched(c, d, peer)
    ensures Catching(d, peer, reported)
  {
    forall i | EntryOf(i, peer) in d.files && Unseen(peer, i) !in d.pending
      ensures AsReported(d.files[EntryOf(i, peer)], reported)
    {
      assert SameEntry(c, d, EntryOf(i, peer));
      assert Unseen(peer, i) in c.pending <==> Unseen(peer, i) in d.pending;
    }
    forall path | path in reported ensures exists i :: ReportedAs(d, peer, i, path, reported[path]) {
      var i :| ReportedAs(c, peer, i, path, reported[path]);
      assert SameEntry(c, d, EntryOf(i, peer));
      assert ReportedAs(d, peer, i, path, reported[path]);
    }
  }

  lemma ReportInstalled(c: Cache, peer: Peer, path: Path, v: Version)
    requires Receive(c, peer, Catchup(path, v)).Ok?
    ensures var inode, d := Locate(c, path).value.inode, Receive(c, peer, Catchup(path, v)).value;
            && ReportedAs(d, peer, inode, path, v)
            && (forall i | i != inode :: SameEntry(c, d, EntryOf(i, peer)))
            && (forall i | i != inode :: Unseen(peer, i) in c.pending <==> Unseen(peer, i) in d.pending)
  {
  }

  lemma ReportedElsewhere(c: Cache, peer: Peer, path: Path, v: Version, key: FileKey)
    requires InPlace(c) && Receive(c, peer, Catchup(path, v)).Ok? && key in c.files
    ensures c.files[key].path == path <==> key.inode == Locate(c, path).value.inode
  {
    LocateIsExact(c, path);
    var at := Locate(c, path).value;
    var e := FileEntry(path, v, at.parent, None);
    assert Placed(at.cache.tree, key.inode, c.files[key]);
    if key.inode == at.inode {
      PlacedSame(at.cache.tree, at.inode, e, c.files[key]);
    }
  }

  lemma ReportCatching(c: Cache, peer: Peer, path: Path, v: Version, reported: map<Path, Version>)
    requires InPlace(c) && Receive(c, peer, Catchup(path, v)).Ok? && Catching(c, peer, reported)
    ensures Catching(Receive(c, peer, Catchup(path, v)).value, peer, reported[path := v])
  {
    var inode, d := Locate(c, path).value.inode, Receive(c, peer, Catchup(path, v)).value;
    ReportInstalled(c, peer, path, v);
    forall i | EntryOf(i, peer) in d.files && Unseen(peer, i) !in d.pending
      ensures AsReported(d.files[EntryOf(i, peer)], reported[path := v])
    {
      if i != inode {
        assert SameEntry(c, d, EntryOf(i, peer));
        ReportedElsewhere(c, peer, path, v, EntryOf(i, peer));
      }
    }
    var after := reported[path := v];
    forall p | p in after ensures exists i :: ReportedAs(d, peer, i, p, after[p]) {
      if p == path {
        assert ReportedAs(d, peer, inode, path, v);
      } else {
        var i :| ReportedAs(c, peer, i, p, reported[p]);
        ReportedElsewhere(c, peer, path, v, EntryOf(i, peer));
        assert SameEntry(c, d, EntryOf(i, peer));
        assert ReportedAs(d, peer, i, p, reported[p]);
      }
    }
  }

  lemma SweepReported(c: Cache, peer: Peer, order: seq<Inode>, hint: Inode -> Peer, reported: map<Path, Version>)
    requires Catching(c, peer, reported) && forall i :: i in Marked(c, peer) <==> i in order
    ensures ExactlyReported(Sweep(c, peer, order, hint), peer, reported)
  {
    var d := Sweep(c, peer, order, hint);
    forall i | EntryOf(i, peer) in d.files ensures AsReported(d.files[EntryOf(i, peer)], reported) {
      SweepExact(c, peer, order, hint, EntryOf(i, peer));
      if Unseen(peer, i) in c.pending {
        assert Unseen(peer, i).inode in Marked(c, peer);
      }
    }
    forall path | path in reported ensures exists i :: ReportedAs(d, peer, i, path, reported[path]) {
      var i :| ReportedAs(c, peer, i, path, reported[path]);
      SweepExact(c, peer, order, hint, EntryOf(i, peer));
      SweepMarks(c, peer, order, hint, Unseen(peer, i));
      assert ReportedAs(d, peer, i, path, reported[path]);
    }
  }

  /** Between the start and the completion, the peer sends nothing but reports. */
  ghost predicate CatchupSession(actions: seq<Action>, peer: Peer, start: nat, end: nat) {
    && start < end < |actions|
    && actions[start].Notify? && actions[start].peer == peer && actions[start].n.CatchupStart?
    && actions[end].Notify? && actions[end].peer == peer && actions[end].n.CatchupComplete?
    && forall i | start < i < end :: actions[i].Notify? && actions[i].peer == peer ==> actions[i].n.Catchup?
  }

  lemma StartCatching(c: Cache, a: Action, peer: Peer)
    requires a.Notify? && a.peer == peer && a.n.CatchupStart?
    ensures Catching(After(c, a), peer, map[])
  {
    MarkAllCatching(c, peer);
  }

  lemma CatchingStep(c: Cache, a: Action, peer: Peer, reported: map<Path, Version>)
    requires Consistent(c) && Enabled(c, a) && Catching(c, peer, reported)
    requires a.Notify? && a.peer == peer ==> a.n.Catchup?
    ensures Catching(After(c, a), peer, Noted(reported, c, a, peer))
  {
    if a.Notify? && a.peer == peer {
      if Receive(c, peer, a.n).Ok? {
        ReportCatching(c, peer, a.n.path, a.n.version, reported);
      }
    } else {
      AfterLeaves(c, a, peer);
      UntouchedCatching(c, After(c, a), peer, reported);
    }
  }

  lemma SessionStep(states: seq<Cache>, actions: seq<Action>, peer: Peer, start: nat, end: nat, j: nat)
    requires Run(states, actions) && Consistent(states[0]) && CatchupSession(actions, peer, start, end)
    requires start + 1 < j <= end
    requires Catching(states[j - 1], peer, Reported(states, actions, peer, start + 1, j - 1))
    ensures Catching(states[j], peer, Reported(states, actions, peer, start + 1, j))
  {
    RunStep(states, actions, j - 1, states[j]);
    CatchingStep(states[j - 1], actions[j - 1], peer, Reported(states, actions, peer, start + 1, j - 1));
  }

  lemma {:induction false} SessionCatching(states: seq<Cache>, actions: seq<Action>, peer: Peer, start: nat,
                                           end: nat, j: nat)
    requires Run(states, actions) && Consistent(states[0]) && CatchupSession(actions, peer, start, end)
    requires start < j <= end
    ensures Catching(states[j], peer, Reported(states, actions, peer, start + 1, j))
  {
    if j == start + 1 {
      RunStep(states, actions, start, states[j]);
      StartCatching(states[start], actions[start], peer);
    } else {
      SessionCatching(states, actions, peer, start, end, j - 1);
      SessionStep(states, actions, peer, start, end, j);
    }
  }

  /**
   * After a catchup, whatever the peers and readers did meanwhile and in whatever state it began,
   * the peer's entries are exactly the reported paths with the versions reported last. The sweep
   * leaves the other peers alone.
   */
  lemma CatchupIsExact(states: seq<Cache>, actions: seq<Action>, peer: Peer, start: nat, end: nat, other: Peer)
    requires Run(states, actions) && Consistent(states[0]) && CatchupSession(actions, peer, start, end)
    ensures ExactlyReported(states[end + 1], peer, Reported(states, actions, peer, start + 1, end))
    ensures other != peer ==> Untouched(states[end], states[end + 1], other)
  {
    SessionCatching(states, actions, peer, start, end, end);
    var a := actions[end];
    RunStep(states, actions, end, states[end + 1]);
    SweepReported(states[end], peer, a.order, a.hint, Reported(states, actions, peer, start + 1, end));
    if other != peer {
      AfterLeaves(states[end], a, other);
    }
  }
}
