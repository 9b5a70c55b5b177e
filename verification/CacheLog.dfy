/** How the cache's transactions use the dirty log. */
module CacheLog {
  import opened Common
  import opened Paths
  import opened Directory
  import opened Cache
  import opened CacheInvariant
  import DirtyLog

  /** Marks one path after the other. */
  function MarkedAll(l: DirtyLog.Log, paths: seq<string>): DirtyLog.Log {
    if paths == [] then l else DirtyLog.MarkDirty(MarkedAll(l, paths[..|paths| - 1]), paths[|paths| - 1])
  }

  lemma {:induction false} MarkedAllConcat(l: DirtyLog.Log, ps: seq<string>, qs: seq<string>)
    ensures MarkedAll(l, ps + qs) == MarkedAll(MarkedAll(l, ps), qs)
  {
    if qs == [] {
      assert ps + qs == ps;
    } else {
      MarkedAllConcat(l, ps, qs[..|qs| - 1]);
      assert (ps + qs)[..|ps + qs| - 1] == ps + qs[..|qs| - 1];
    }
  }

  /** `path` was marked after the counter had reached `c`. */
  ghost predicate MarkedSince(l: DirtyLog.Log, path: string, c: nat) {
    path in l.dirty && l.dirty[path] > c
  }

  lemma {:induction false} MarkedAllKeeps(l: DirtyLog.Log, paths: seq<string>)
    requires DirtyLog.Inverse(l) && DirtyLog.Bounded(l)
    ensures DirtyLog.Inverse(MarkedAll(l, paths)) && DirtyLog.Bounded(MarkedAll(l, paths))
    ensures DirtyLog.FailuresLogged(l) ==> DirtyLog.FailuresLogged(MarkedAll(l, paths))
  {
    if paths != [] {
      var n := |paths| - 1;
      MarkedAllKeeps(l, paths[..n]);
      DirtyLog.MarkDirtyKeeps(MarkedAll(l, paths[..n]), paths[n]);
    }
  }

  lemma {:induction false} MarkedAllFollows(l: DirtyLog.Log, paths: seq<string>)
    ensures DirtyLog.Follows(l, MarkedAll(l, paths))
  {
    if paths != [] {
      MarkedAllFollows(l, paths[..|paths| - 1]);
    }
  }

  /** Exactly the marked paths have a newer counter, and every other path is as before. */
  lemma {:induction false} MarkedAllIsExact(l: DirtyLog.Log, paths: seq<string>, p: string)
    ensures p in paths ==> MarkedSince(MarkedAll(l, paths), p, l.counter)
    ensures p !in paths ==> (p in MarkedAll(l, paths).dirty <==> p in l.dirty)
    ensures p !in paths && p in l.dirty ==> MarkedAll(l, paths).dirty[p] == l.dirty[p]
  {
    if paths != [] {
      var n := |paths| - 1;
      MarkedAllIsExact(l, paths[..n], p);
      MarkedAllFollows(l, paths[..n]);
      assert paths == paths[..n] + [paths[n]];
    }
  }

  /** The same version under the same path is shown, or nothing both times. */
  ghost predicate SameShown(c: Cache, d: Cache, inode: Inode) {
    && (Shown(c, inode) <==> Shown(d, inode))
    && (Shown(c, inode) ==>
          && c.files[DefaultOf(inode)].path == d.files[DefaultOf(inode)].path
          && c.files[DefaultOf(inode)].version == d.files[DefaultOf(inode)].version)
  }

  /** The paths under which `inode` is shown before or after are among `paths`. */
  ghost predicate ShownAmong(c: Cache, d: Cache, inode: Inode, paths: seq<string>) {
    && (Shown(c, inode) ==> c.files[DefaultOf(inode)].path in paths)
    && (Shown(d, inode) ==> d.files[DefaultOf(inode)].path in paths)
  }

  /** The log changed by marking `paths`, and what is shown changed under these paths only. */
  ghost predicate Announced(c: Cache, d: Cache, paths: seq<string>) {
    && d.log == MarkedAll(c.log, paths)
    && forall inode :: SameShown(c, d, inode) || ShownAmong(c, d, inode, paths)
  }

  lemma AnnouncedBoth(a: Cache, b: Cache, c: Cache, ps: seq<string>, qs: seq<string>)
    requires Announced(a, b, ps) && Announced(b, c, qs)
    ensures Announced(a, c, ps + qs)
  {
    MarkedAllConcat(a.log, ps, qs);
    forall inode ensures SameShown(a, c, inode) || ShownAmong(a, c, inode, ps + qs) {
      assert SameShown(a, b, inode) || ShownAmong(a, b, inode, ps);
      assert SameShown(b, c, inode) || ShownAmong(b, c, inode, qs);
    }
  }

  lemma NothingAnnounced(c: Cache, d: Cache)
    requires d.log == c.log && forall inode :: SameShown(c, d, inode)
    ensures Announced(c, d, [])
  {
  }

  lemma OneAnnounced(c: Cache, d: Cache, at: Inode, path: string)
    requires d.log == DirtyLog.MarkDirty(c.log, path)
    requires forall inode | inode != at :: SameShown(c, d, inode)
    requires ShownAmong(c, d, at, [path])
    ensures Announced(c, d, [path])
  {
    assert [path][..|[path]| - 1] == [];
    assert MarkedAll(c.log, []) == c.log;
  }

  ghost predicate ShownAs(c: Cache, inode: Inode, path: string) {
    Shown(c, inode) ==> c.files[DefaultOf(inode)].path == path
  }

  lemma ShownAsPlaced(c: Cache, inode: Inode, e: FileEntry)
    requires InPlace(c) && Placed(c.tree, inode, e)
    ensures ShownAs(c, inode, e.path)
  {
    if Shown(c, inode) {
      PlacedSame(c.tree, inode, c.files[DefaultOf(inode)], e);
    }
  }

  lemma WriteDefaultAnnounced(c: Cache, inode: Inode, e: FileEntry)
    requires ShownAs(c, inode, e.path)
    ensures Announced(c, WriteDefault(c, inode, e), [e.path])
  {
    OneAnnounced(c, WriteDefault(c, inode, e), inode, e.path);
  }

  lemma InstallAnnounced(c: Cache, inode: Inode, peer: Peer, e: FileEntry, visible: bool)
    requires ShownAs(c, inode, e.path)
    ensures Announced(c, Install(c, inode, peer, e, visible), if visible then [e.path] else [])
  {
    var c1 := c.(files := c.files[EntryOf(inode, peer) := e]);
    NothingAnnounced(c, c1);
    if visible {
      WriteDefaultAnnounced(c1, inode, e);
      AnnouncedBoth(c, c1, WriteDefault(c1, inode, e), [], [e.path]);
      assert [] + [e.path] == [e.path];
    }
  }

  /** Something was announced that accounts for every change in what is shown. */
  ghost predicate Told(c: Cache, d: Cache) {
    exists paths :: Announced(c, d, paths)
  }

  lemma ToldBoth(a: Cache, b: Cache, c: Cache)
    requires Told(a, b) && Told(b, c)
    ensures Told(a, c)
  {
    var ps :| Announced(a, b, ps);
    var qs :| Announced(b, c, qs);
    AnnouncedBoth(a, b, c, ps, qs);
  }

  lemma LocatedShownAs(c: Cache, path: Path)
    requires InPlace(c) && Locate(c, path).Ok?
    ensures var at := Locate(c, path).value; at.cache == c.(tree := at.cache.tree) && ShownAs(at.cache, at.inode, path)
  {
    LocateIsExact(c, path);
    var at := Locate(c, path).value;
    ShownAsPlaced(at.cache, at.inode, FileEntry(path, Version(0, 0, 0), at.parent, None));
  }

  lemma CaughtUpTold(c: Cache, inode: Inode, peer: Peer, e: FileEntry)
    requires ShownAs(c, inode, e.path)
    ensures Told(c, CaughtUp(c, inode, peer, e))
  {
    var unmarked := c.(pending := c.pending - {Unseen(peer, inode)});
    NothingAnnounced(c, unmarked);
    InstallAnnounced(unmarked, inode, peer, e, !Shown(c, inode));
    ToldBoth(c, unmarked, CaughtUp(c, inode, peer, e));
  }

  lemma ReceivedTold(at: Place, peer: Peer, n: Notification)
    requires n.Add? || n.Replace? || n.Catchup?
    requires ShownAs(at.cache, at.inode, n.path)
    ensures Told(at.cache, Received(at, peer, n))
  {
    var c, e := at.cache, FileEntry(n.path, n.version, at.parent, None);
    NothingAnnounced(c, c);
    match n
    case Add(_, _) => InstallAnnounced(c, at.inode, peer, e, !Shown(c, at.inode));
    case Replace(_, _, oldHash) => InstallAnnounced(c, at.inode, peer, e, HasHash(c, DefaultOf(at.inode), oldHash));
    case Catchup(_, _) => CaughtUpTold(c, at.inode, peer, e);
  }

  lemma ReceiveTold(c: Cache, peer: Peer, n: Notification)
    requires n.Add? || n.Replace? || n.Catchup?
    requires InPlace(c) && Receive(c, peer, n).Ok?
    ensures Told(c, Receive(c, peer, n).value)
  {
    LocatedShownAs(c, n.path);
    var at := Locate(c, n.path).value;
    ReceivedTold(at, peer, n);
    NothingAnnounced(c, at.cache);
    ToldBoth(c, at.cache, Received(at, peer, n));
  }

  ghost predicate OnePath(files: map<FileKey, FileEntry>) {
    forall k, l | k in files && l in files && k.inode == l.inode :: files[k].path == files[l].path
  }

  lemma OnePathEach(c: Cache)
    requires InPlace(c)
    ensures OnePath(c.files)
  {
    forall k, l | k in c.files && l in c.files && k.inode == l.inode ensures c.files[k].path == c.files[l].path {
      SamePlace(c, k, l);
    }
  }

  lemma RemoveLastTold(c: Cache, parent: Inode, inode: Inode, peer: Peer)
    requires EntryOf(inode, peer) in c.files
    ensures Told(c, RemoveLast(c, parent, inode, peer))
  {
    OneAnnounced(c, RemoveLast(c, parent, inode, peer), inode, LastPath(c, inode, peer));
  }

  lemma RemoveOneTold(c: Cache, inode: Inode, peer: Peer, hint: Peer)
    requires OnePath(c.files) && Holders(c, inode) - {peer} != {}
    ensures Told(c, RemoveOne(c, inode, peer, hint))
  {
    OthersHaveEntries(c, inode, peer);
    var e := c.files[EntryOf(inode, Successor(c, inode, Holders(c, inode) - {peer}, hint))];
    var c1 := c.(files := c.files - {EntryOf(inode, peer)});
    NothingAnnounced(c, c1);
    WriteDefaultAnnounced(c1, inode, e);
    ToldBoth(c, c1, WriteDefault(c1, inode, e));
  }

  lemma RmFileEntryTold(c: Cache, parent: Inode, inode: Inode, peer: Peer, expected: Option<Hash>, hint: Peer)
    requires OnePath(c.files)
    ensures Told(c, RmFileEntry(c, parent, inode, peer, expected, hint))
  {
    NothingAnnounced(c, c);
    if EntryOf(inode, peer) in c.files {
      if Holders(c, inode) - {peer} == {} {
        RemoveLastTold(c, parent, inode, peer);
      } else {
        RemoveOneTold(c, inode, peer, hint);
      }
    }
  }

  lemma SweepOneTold(c: Cache, peer: Peer, inode: Inode, hint: Inode -> Peer)
    requires OnePath(c.files)
    ensures Told(c, SweepOne(c, peer, inode, hint))
  {
    NothingAnnounced(c, c);
    var m := Unseen(peer, inode);
    if m in c.pending {
      var unmarked := c.(pending := c.pending - {m});
      NothingAnnounced(c, unmarked);
      RmFileEntryTold(unmarked, c.pending[m], inode, peer, None, hint(inode));
      ToldBoth(c, unmarked, SweepOne(c, peer, inode, hint));
    }
  }

  lemma {:induction false} SweepTold(c: Cache, peer: Peer, order: seq<Inode>, hint: Inode -> Peer)
    requires InPlace(c)
    ensures Told(c, Sweep(c, peer, order, hint))
  {
    if order == [] {
      NothingAnnounced(c, c);
    } else {
      var d := Sweep(c, peer, order[..|order| - 1], hint);
      SweepTold(c, peer, order[..|order| - 1], hint);
      SweepInPlace(c, peer, order[..|order| - 1], hint);
      OnePathEach(d);
      SweepOneTold(d, peer, order[|order| - 1], hint);
      ToldBoth(c, d, Sweep(c, peer, order, hint));
    }
  }

  lemma UnlinkTold(c: Cache, peer: Peer, path: Path, oldHash: Hash, hint: Inode -> Peer)
    requires InPlace(c) && Unlink(c, peer, path, oldHash, hint).Ok?
    ensures Told(c, Unlink(c, peer, path, oldHash, hint).value)
  {
    var key := Key(Lookup(c.tree, Components(Parent(path))).value.inode, Name(path));
    var inode := c.tree.dirs[key].inode;
    OnePathEach(c);
    RmFileEntryTold(c, key.parent, inode, peer, Some(oldHash), hint(inode));
  }

  lemma UpdateTold(c: Cache, peer: Peer, n: Notification, hint: Inode -> Peer, order: seq<Inode>)
    requires InPlace(c) && Update(c, peer, n, hint, order).Ok?
    ensures Told(c, Update(c, peer, n, hint, order).value)
  {
    match n
    case Add(_, _) => ReceiveTold(c, peer, n);
    case Replace(_, _, _) => ReceiveTold(c, peer, n);
    case Catchup(_, _) => ReceiveTold(c, peer, n);
    case Remove(path, oldHash) => UnlinkTold(c, peer, path, oldHash, hint);
    case Drop(path, oldHash) => UnlinkTold(c, peer, path, oldHash, hint);
    case CatchupStart => NothingAnnounced(c, MarkAll(c, peer));
    case CatchupComplete => SweepTold(c, peer, order, hint);
  }

  // ---------------------------------------------------------------------
  // Runs
  // ---------------------------------------------------------------------

  ghost predicate Quiet(c: Cache, r: Result<Cache, StorageError>) {
    r.Ok? ==> r.value.log == c.log && forall inode :: SameShown(c, r.value, inode)
  }

  lemma BlobsQuiet(c: Cache, path: Path, hash: Hash, inode: Inode)
    ensures Quiet(c, OpenFile(c, inode))
    ensures Quiet(c, Committed(MoveBlobIfMatches(c, path, hash)))
    ensures Quiet(c, Committed(MoveIntoBlobIfMatches(c, path, hash)))
  {
  }

  lemma ActQuiet(c: Cache, a: Action)
    requires Enabled(c, a) && !a.LogOp? && !a.Notify?
    ensures Quiet(c, Act(c, a))
  {
    match a
    case Open(inode) => BlobsQuiet(c, "a", 0, inode);
    case MoveOut(path, hash) => BlobsQuiet(c, path, hash, 0);
    case MoveIn(path, hash) => BlobsQuiet(c, path, hash, 0);
    case Extend(_, _) =>
    case Verify(_, _) =>
  }

  lemma AfterTold(c: Cache, a: Action)
    requires InPlace(c) && Enabled(c, a) && !a.LogOp?
    ensures Told(c, After(c, a))
  {
    if Act(c, a).Err? {
      NothingAnnounced(c, c);
    } else if a.Notify? {
      UpdateTold(c, a.peer, a.n, a.hint, a.order);
    } else {
      ActQuiet(c, a);
      NothingAnnounced(c, After(c, a));
    }
  }

  lemma ToldLog(c: Cache, d: Cache)
    requires Told(c, d) && DirtyLog.Inverse(c.log) && DirtyLog.Bounded(c.log)
    ensures DirtyLog.Inverse(d.log) && DirtyLog.Bounded(d.log) && DirtyLog.Follows(c.log, d.log)
    ensures DirtyLog.FailuresLogged(c.log) ==> DirtyLog.FailuresLogged(d.log)
  {
    var paths :| Announced(c, d, paths);
    MarkedAllKeeps(c.log, paths);
    MarkedAllFollows(c.log, paths);
  }

  lemma AfterLog(c: Cache, a: Action)
    requires Consistent(c) && Enabled(c, a)
    ensures DirtyLog.Inverse(After(c, a).log) && DirtyLog.Bounded(After(c, a).log)
    ensures DirtyLog.Follows(c.log, After(c, a).log)
    ensures DirtyLog.FailuresLogged(c.log) && !(a.LogOp? && a.op.Pop?) ==> DirtyLog.FailuresLogged(After(c, a).log)
  {
    if a.LogOp? {
      DirtyLog.ApplyKeeps(c.log, a.op, a.strategy);
      DirtyLog.ApplyFollows(c.log, a.op, a.strategy);
    } else {
      AfterTold(c, a);
      ToldLog(c, After(c, a));
    }
  }

  /** Every transaction keeps names, ownership and log consistent. */
  lemma AfterKeeps(c: Cache, a: Action)
    requires Consistent(c) && Enabled(c, a)
    ensures Consistent(After(c, a))
  {
    AfterInPlace(c, a);
    AfterOwned(c, a);
    AfterLog(c, a);
  }

  lemma InitialConsistent(c: Cache)
    requires Initial(c)
    ensures Consistent(c)
  {
  }

  /** In every run, every state is consistent. */
  lemma {:induction false} RunKeeps(states: seq<Cache>, actions: seq<Action>, j: nat)
    requires Run(states, actions) && Consistent(states[0]) && j <= |actions|
    ensures Consistent(states[j])
  {
    if j > 0 {
      RunKeeps(states, actions, j - 1);
      assert StepAt(states, actions, j - 1);
      AfterKeeps(states[j - 1], actions[j - 1]);
    }
  }

  lemma AfterRooted(c: Cache, a: Action)
    requires InPlace(c) && Rooted(c.tree) && Enabled(c, a)
    ensures Rooted(After(c, a).tree)
  {
    if a.Notify? && Act(c, a).Ok? {
      UpdateRooted(c, a.peer, a.n, a.hint, a.order);
    }
  }

  lemma RootedStep(states: seq<Cache>, actions: seq<Action>, i: nat, next: Cache)
    requires Run(states, actions) && Consistent(states[0]) && i < |actions| && next == states[i + 1]
    requires Rooted(states[i].tree)
    ensures Rooted(next.tree)
  {
    RunStep(states, actions, i, next);
    AfterRooted(states[i], actions[i]);
  }

  /** In every run, everything in the directory table stays connected with the root. */
  lemma {:induction false} RunRooted(states: seq<Cache>, actions: seq<Action>, j: nat)
    requires Run(states, actions) && Consistent(states[0]) && Rooted(states[0].tree) && j <= |actions|
    ensures Rooted(states[j].tree)
  {
    if j > 0 {
      RunRooted(states, actions, j - 1);
      RootedStep(states, actions, j - 1, states[j]);
    }
  }

  lemma RunStep(states: seq<Cache>, actions: seq<Action>, i: nat, next: Cache)
    requires Run(states, actions) && Consistent(states[0]) && i < |actions| && next == states[i + 1]
    ensures Consistent(states[i]) && Enabled(states[i], actions[i]) && next == After(states[i], actions[i])
  {
    RunKeeps(states, actions, i);
    assert StepAt(states, actions, i);
  }

  /**
   * Whenever a transaction changes what is shown for an inode, it leaves the path dirty, with a
   * counter newer than any before.
   */
  lemma ChangeIsMarked(c: Cache, a: Action, inode: Inode)
    requires InPlace(c) && Enabled(c, a)
    ensures var d := After(c, a);
            || SameShown(c, d, inode)
            || ((Shown(c, inode) ==> MarkedSince(d.log, c.files[DefaultOf(inode)].path, c.log.counter))
                && (Shown(d, inode) ==> MarkedSince(d.log, d.files[DefaultOf(inode)].path, c.log.counter)))
  {
    if !a.LogOp? {
      AfterTold(c, a);
      ChangeAnnounced(c, After(c, a), inode);
    }
  }

  lemma ChangeAnnounced(c: Cache, d: Cache, inode: Inode)
    requires Told(c, d)
    ensures !SameShown(c, d, inode) && Shown(c, inode) ==>
              MarkedSince(d.log, c.files[DefaultOf(inode)].path, c.log.counter)
    ensures !SameShown(c, d, inode) && Shown(d, inode) ==>
              MarkedSince(d.log, d.files[DefaultOf(inode)].path, c.log.counter)
  {
    var paths :| Announced(c, d, paths);
    assert SameShown(c, d, inode) || ShownAmong(c, d, inode, paths);
    if Shown(c, inode) {
      MarkedAllIsExact(c.log, paths, c.files[DefaultOf(inode)].path);
    }
    if Shown(d, inode) {
      MarkedAllIsExact(c.log, paths, d.files[DefaultOf(inode)].path);
    }
  }
}
