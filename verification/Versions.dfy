/** Which version of a file is shown, and who holds it. */
module Versions {
  import opened Common
  import opened Paths
  import opened Directory
  import opened Cache
  import DirtyLog

  // ---------------------------------------------------------------------
  // The version shown is held by some peer
  // ---------------------------------------------------------------------

  /** The peer's entry has the hash of the version shown. */
  predicate HeldBy(c: Cache, inode: Inode, peer: Peer) {
    Shown(c, inode) && HasHash(c, EntryOf(inode, peer), c.files[DefaultOf(inode)].version.hash)
  }

  ghost predicate HeldAt(c: Cache, inode: Inode) {
    exists p :: HeldBy(c, inode, p)
  }

  ghost predicate Held(c: Cache) {
    forall i | Shown(c, i) :: HeldAt(c, i)
  }

  ghost predicate HeldByAnother(c: Cache, inode: Inode, peer: Peer) {
    exists p | p != peer :: HeldBy(c, inode, p)
  }

  /** All entries of an inode are the same in both. */
  ghost predicate SameInode(c: Cache, d: Cache, inode: Inode) {
    && (DefaultOf(inode) in c.files <==> DefaultOf(inode) in d.files)
    && (DefaultOf(inode) in c.files ==> c.files[DefaultOf(inode)].version == d.files[DefaultOf(inode)].version)
    && (forall p :: EntryOf(inode, p) in c.files <==> EntryOf(inode, p) in d.files)
    && (forall p | EntryOf(inode, p) in c.files ::
       c.files[EntryOf(inode, p)].version == d.files[EntryOf(inode, p)].version)
  }

  lemma SameInodeHeld(c: Cache, d: Cache, inode: Inode)
    requires SameInode(c, d, inode) && HeldAt(c, inode)
    ensures HeldAt(d, inode)
  {
    var p :| HeldBy(c, inode, p);
    assert HeldBy(d, inode, p);
  }

  /** What changes at one inode is held if it is held there. */
  lemma HeldElsewhere(c: Cache, d: Cache, at: Inode)
    requires Held(c) && forall i | i != at :: SameInode(c, d, i)
    ensures Held(d) <==> (Shown(d, at) ==> HeldAt(d, at))
  {
    forall i | i != at && Shown(d, i) ensures HeldAt(d, i) {
      assert SameInode(c, d, i) && Shown(c, i);
      SameInodeHeld(c, d, i);
    }
  }

  lemma HeldEverywhere(c: Cache, d: Cache)
    requires Held(c) && forall i :: SameInode(c, d, i)
    ensures Held(d)
  {
    forall i | Shown(d, i) ensures HeldAt(d, i) {
      assert SameInode(c, d, i) && Shown(c, i);
      SameInodeHeld(c, d, i);
    }
  }

  /** A peer that overwrites its entry without being shown loses the version, unless it had it not alone. */
  lemma InstallHeld(c: Cache, inode: Inode, peer: Peer, e: FileEntry, visible: bool)
    requires Held(c)
    ensures Held(Install(c, inode, peer, e, visible)) <==>
              || visible || !Shown(c, inode)
              || e.version.hash == c.files[DefaultOf(inode)].version.hash || HeldByAnother(c, inode, peer)
  {
    var d := Install(c, inode, peer, e, visible);
    HeldElsewhere(c, d, inode);
    if visible || (Shown(c, inode) && e.version.hash == c.files[DefaultOf(inode)].version.hash) {
      assert HeldBy(d, inode, peer);
    } else if Shown(c, inode) {
      assert forall p | p != peer :: HeldBy(c, inode, p) <==> HeldBy(d, inode, p);
      assert !HeldBy(d, inode, peer);
    }
  }

  lemma AddedHeld(c: Cache, inode: Inode, peer: Peer, e: FileEntry)
    requires Held(c)
    ensures Held(Added(c, inode, peer, e))
  {
    InstallHeld(c, inode, peer, e, !Shown(c, inode));
    if EntryOf(inode, peer) !in c.files && Shown(c, inode) {
      var p :| HeldBy(c, inode, p);
    }
  }

  lemma ReplacedHeld(c: Cache, inode: Inode, peer: Peer, e: FileEntry, oldHash: Hash)
    requires Held(c)
    ensures Held(Replaced(c, inode, peer, e, oldHash))
  {
    var current := HasHash(c, DefaultOf(inode), oldHash);
    InstallHeld(c, inode, peer, e, current);
    if !current && HasHash(c, EntryOf(inode, peer), oldHash) && Shown(c, inode) {
      var p :| HeldBy(c, inode, p);
    }
  }

  lemma RemoveLastHeld(c: Cache, parent: Inode, inode: Inode, peer: Peer)
    requires Held(c) && EntryOf(inode, peer) in c.files
    ensures Held(RemoveLast(c, parent, inode, peer))
  {
    HeldElsewhere(c, RemoveLast(c, parent, inode, peer), inode);
  }

  lemma RemoveOneHeldAt(c: Cache, inode: Inode, peer: Peer, hint: Peer)
    requires Holders(c, inode) - {peer} != {}
    ensures HeldAt(RemoveOne(c, inode, peer, hint), inode)
  {
    OthersHaveEntries(c, inode, peer);
    var d, others := RemoveOne(c, inode, peer, hint), Holders(c, inode) - {peer};
    var c1 := c.(files := c.files - {EntryOf(inode, peer)});
    if VersionHeld(c, inode, others) {
      var hash := c.files[DefaultOf(inode)].version.hash;
      var p :| p in others && EntryOf(inode, p) in c.files && c.files[EntryOf(inode, p)].version.hash == hash;
      assert d == c1 && HasHash(c1, EntryOf(inode, p), hash);
      assert HeldBy(d, inode, p);
    } else {
      var q := Successor(c, inode, others, hint);
      assert d == WriteDefault(c1, inode, c.files[EntryOf(inode, q)]);
      assert HeldBy(d, inode, q);
    }
  }

  lemma RemoveOneHeld(c: Cache, inode: Inode, peer: Peer, hint: Peer)
    requires Held(c) && Holders(c, inode) - {peer} != {}
    ensures Held(RemoveOne(c, inode, peer, hint))
  {
    OthersHaveEntries(c, inode, peer);
    RemoveOneHeldAt(c, inode, peer, hint);
    HeldElsewhere(c, RemoveOne(c, inode, peer, hint), inode);
  }

  lemma RmFileEntryHeld(c: Cache, parent: Inode, inode: Inode, peer: Peer, expected: Option<Hash>, hint: Peer)
    requires Held(c)
    ensures Held(RmFileEntry(c, parent, inode, peer, expected, hint))
  {
    if EntryOf(inode, peer) in c.files {
      if Holders(c, inode) - {peer} == {} {
        RemoveLastHeld(c, parent, inode, peer);
      } else {
        RemoveOneHeld(c, inode, peer, hint);
      }
    }
  }

  lemma {:induction false} SweepHeld(c: Cache, peer: Peer, order: seq<Inode>, hint: Inode -> Peer)
    requires Held(c)
    ensures Held(Sweep(c, peer, order, hint))
  {
    if order != [] {
      SweepHeld(c, peer, order[..|order| - 1], hint);
      var d, inode := Sweep(c, peer, order[..|order| - 1], hint), order[|order| - 1];
      var m := Unseen(peer, inode);
      if m in d.pending {
        HeldEverywhere(d, d.(pending := d.pending - {m}));
        RmFileEntryHeld(d.(pending := d.pending - {m}), d.pending[m], inode, peer, None, hint(inode));
      }
    }
  }

  lemma UnlinkHeld(c: Cache, peer: Peer, path: Path, oldHash: Hash, hint: Inode -> Peer)
    requires Held(c) && Unlink(c, peer, path, oldHash, hint).Ok?
    ensures Held(Unlink(c, peer, path, oldHash, hint).value)
  {
    var key := Key(Lookup(c.tree, Components(Parent(path))).value.inode, Name(path));
    var inode := c.tree.dirs[key].inode;
    RmFileEntryHeld(c, key.parent, inode, peer, Some(oldHash), hint(inode));
  }

  /**
   * The peer reports, in a catchup, another version than the one shown, of a file for which it
   * alone holds the version shown.
   */
  ghost predicate LosesVersion(c: Cache, peer: Peer, n: Notification) {
    n.Catchup? && Locate(c, n.path).Ok? &&
    var inode := Locate(c, n.path).value.inode;
    && Shown(c, inode)
    && n.version.hash != c.files[DefaultOf(inode)].version.hash
    && !HeldByAnother(c, inode, peer)
  }

  lemma ReceiveHeld(c: Cache, peer: Peer, n: Notification)
    requires n.Add? || n.Replace? || n.Catchup?
    requires Held(c) && Receive(c, peer, n).Ok?
    ensures Held(Receive(c, peer, n).value) <==> !LosesVersion(c, peer, n)
  {
    var at := Locate(c, n.path).value;
    var e := FileEntry(n.path, n.version, at.parent, None);
    HeldEverywhere(c, at.cache);
    match n
    case Add(_, _) => AddedHeld(at.cache, at.inode, peer, e);
    case Replace(_, _, oldHash) => ReplacedHeld(at.cache, at.inode, peer, e, oldHash);
    case Catchup(_, _) =>
      var unmarked := at.cache.(pending := at.cache.pending - {Unseen(peer, at.inode)});
      HeldEverywhere(c, unmarked);
      InstallHeld(unmarked, at.inode, peer, e, !Shown(c, at.inode));
      assert forall p :: HeldBy(c, at.inode, p) <==> HeldBy(unmarked, at.inode, p);
  }

  lemma UpdateHeld(c: Cache, peer: Peer, n: Notification, hint: Inode -> Peer, order: seq<Inode>)
    requires Held(c) && Update(c, peer, n, hint, order).Ok?
    ensures Held(Update(c, peer, n, hint, order).value) <==> !LosesVersion(c, peer, n)
  {
    match n
    case Add(_, _) => ReceiveHeld(c, peer, n);
    case Replace(_, _, _) => ReceiveHeld(c, peer, n);
    case Catchup(_, _) => ReceiveHeld(c, peer, n);
    case Remove(path, oldHash) => UnlinkHeld(c, peer, path, oldHash, hint);
    case Drop(path, oldHash) => UnlinkHeld(c, peer, path, oldHash, hint);
    case CatchupStart => HeldEverywhere(c, MarkAll(c, peer));
    case CatchupComplete => SweepHeld(c, peer, order, hint);
  }

  lemma BlobActionHeld(c: Cache, path: Path, hash: Hash, inode: Inode, i: Inode)
    ensures OpenFile(c, inode).Ok? ==> SameInode(c, OpenFile(c, inode).value, i)
    ensures MoveBlobIfMatches(c, path, hash).Ok? ==> SameInode(c, MoveBlobIfMatches(c, path, hash).value.0, i)
    ensures MoveIntoBlobIfMatches(c, path, hash).Ok? ==> SameInode(c, MoveIntoBlobIfMatches(c, path, hash).value.0, i)
  {
  }

  lemma OtherActionSame(c: Cache, a: Action, i: Inode)
    requires Enabled(c, a) && !a.Notify? && Act(c, a).Ok?
    ensures SameInode(c, Act(c, a).value, i)
  {
    match a
    case Open(inode) => BlobActionHeld(c, "a", 0, inode, i);
    case MoveOut(path, hash) => BlobActionHeld(c, path, hash, 0, i);
    case MoveIn(path, hash) => BlobActionHeld(c, path, hash, 0, i);
    case Extend(_, _) =>
    case Verify(_, _) =>
    case LogOp(_, _) =>
  }

  /**
   * Every transaction keeps the version shown in the hands of some peer, except for exactly those
   * catchup reports in which its only holder gives it up.
   */
  lemma AfterHeld(c: Cache, a: Action)
    requires Held(c) && Enabled(c, a)
    ensures Held(After(c, a)) <==> !(a.Notify? && LosesVersion(c, a.peer, a.n))
  {
    if Act(c, a).Ok? {
      if a.Notify? {
        UpdateHeld(c, a.peer, a.n, a.hint, a.order);
      } else {
        forall i ensures SameInode(c, After(c, a), i) {
          OtherActionSame(c, a, i);
        }
        HeldEverywhere(c, After(c, a));
      }
    }
  }

  ghost predicate NeverLoses(states: seq<Cache>, actions: seq<Action>, i: nat)
    requires i < |actions| && |states| == |actions| + 1
  {
    !(actions[i].Notify? && LosesVersion(states[i], actions[i].peer, actions[i].n))
  }

  /** In runs without such a report, the version shown is always held. */
  lemma {:induction false} RunHeld(states: seq<Cache>, actions: seq<Action>, j: nat)
    requires Run(states, actions) && Held(states[0]) && j <= |actions|
    requires forall i | 0 <= i < |actions| :: NeverLoses(states, actions, i)
    ensures Held(states[j])
  {
    if j > 0 {
      RunHeld(states, actions, j - 1);
      assert StepAt(states, actions, j - 1) && NeverLoses(states, actions, j - 1);
      AfterHeld(states[j - 1], actions[j - 1]);
    }
  }

  /** The peers that a file can be had from, at the version shown. */
  function FileAvailability(c: Cache, inode: Inode): Result<(FileEntry, set<Peer>), StorageError> {
    if !Shown(c, inode) then Err(NotFound)
    else
      var peers := set k | k in c.files && k.inode == inode && k.who.Of? && HeldBy(c, inode, k.who.peer) :: k.who.peer;
      if peers == {} then Err(NotFound) else Ok((c.files[DefaultOf(inode)], peers))
  }

  /** The answer names exactly the holders; there is one exactly when the version shown is held. */
  lemma AvailabilityIsExact(c: Cache, inode: Inode)
    ensures FileAvailability(c, inode).Ok? <==> HeldAt(c, inode)
    ensures FileAvailability(c, inode).Ok? ==>
              && FileAvailability(c, inode).value.0 == c.files[DefaultOf(inode)]
              && FileAvailability(c, inode).value.1 != {}
              && forall p :: p in FileAvailability(c, inode).value.1 <==> HeldBy(c, inode, p)
  {
    if Shown(c, inode) {
      var peers := set k | k in c.files && k.inode == inode && k.who.Of? && HeldBy(c, inode, k.who.peer) :: k.who.peer;
      forall p ensures p in peers <==> HeldBy(c, inode, p) {
        if HeldBy(c, inode, p) {
          assert EntryOf(inode, p).who.peer in peers;
        }
      }
    }
  }

  const TREE := Tree(1, 3, map[Key(1, "a") := DirEntry(2, File)])

  const NOTHING := Cache(Tree(1, 2, map[]), map[], map[], map[], DirtyLog.EMPTY)

  /** One peer, one file. */
  function OneFile(v: Version): Cache {
    var e := FileEntry("a", v, 1, None);
    Cache(TREE, map[DefaultOf(2) := e, EntryOf(2, "p") := e], map[], map[], DirtyLog.MarkDirty(DirtyLog.EMPTY, "a"))
  }

  lemma OneName()
    ensures Components(Parent("a")) == [] && Name("a") == "a"
  {
    assert Split("a") == ["a"];
    ParentComponents("a");
  }

  lemma OneFileLocated(v: Version)
    ensures Locate(OneFile(v), "a") == Ok(Place(OneFile(v), 1, 2))
  {
    OneName();
    assert MkDirs(TREE, []) == Ok((TREE, 1));
    assert CreateFile(TREE, [], "a") == Ok(Created(TREE, 1, 2));
  }

  lemma NothingLocated()
    ensures Locate(NOTHING, "a") == Ok(Place(NOTHING.(tree := TREE), 1, 2))
  {
    OneName();
    assert MkDirs(NOTHING.tree, []) == Ok((NOTHING.tree, 1));
    assert AddEntry(NOTHING.tree, Key(1, "a"), File) == TREE;
    assert CreateFile(NOTHING.tree, [], "a") == Ok(Created(TREE, 1, 2));
  }

  /** It is what the first notification of the first peer makes of nothing. */
  lemma OneFileAdded(v: Version)
    ensures Initial(NOTHING) && Receive(NOTHING, "p", Add("a", v)) == Ok(OneFile(v))
  {
    NothingLocated();
    var e := FileEntry("a", v, 1, None);
    assert Added(NOTHING.(tree := TREE), 2, "p", e) == OneFile(v);
  }

  lemma OneFileReported(v: Version, w: Version)
    ensures Receive(OneFile(v), "p", Catchup("a", w)) ==
            Ok(CaughtUp(OneFile(v), 2, "p", FileEntry("a", w, 1, None)))
  {
    OneFileLocated(v);
  }

  lemma OneFileAvailable(v: Version)
    ensures FileAvailability(OneFile(v), 2) == Ok((FileEntry("a", v, 1, None), {"p"}))
  {
    var c := OneFile(v);
    AvailabilityIsExact(c, 2);
    assert HeldBy(c, 2, "p");
    assert FileAvailability(c, 2).value.1 == {"p"};
  }

  lemma OneFileLost(v: Version, w: Version)
    requires v.hash != w.hash
    ensures var d := CaughtUp(OneFile(v), 2, "p", FileEntry("a", w, 1, None));
            FileAvailability(d, 2) == Err(NotFound) && Shown(d, 2) && d.files[DefaultOf(2)].version == v
  {
    var d := CaughtUp(OneFile(v), 2, "p", FileEntry("a", w, 1, None));
    AvailabilityIsExact(d, 2);
    forall p ensures !HeldBy(d, 2, p) {
    }
  }

  /**
   * A run from the beginning: the only peer adds a file and later reports another version of it in a
   * catchup. The first one is still shown, and nobody is left to ask for it.
   */
  lemma CatchupLosesVersion(v: Version, w: Version, hint: Inode -> Peer)
    returns (states: seq<Cache>, actions: seq<Action>)
    requires v.hash != w.hash
    ensures actions == [Notify("p", Add("a", v), hint, []), Notify("p", Catchup("a", w), hint, [])]
    ensures Run(states, actions) && Initial(states[0])
    ensures FileAvailability(states[1], 2) == Ok((FileEntry("a", v, 1, None), {"p"}))
    ensures Shown(states[2], 2) && states[2].files[DefaultOf(2)].version == v
    ensures FileAvailability(states[2], 2) == Err(NotFound)
  {
    actions := [Notify("p", Add("a", v), hint, []), Notify("p", Catchup("a", w), hint, [])];
    var c, d := OneFile(v), CaughtUp(OneFile(v), 2, "p", FileEntry("a", w, 1, None));
    states := [NOTHING, c, d];
    OneFileAdded(v);
    OneFileReported(v, w);
    assert StepAt(states, actions, 0) && StepAt(states, actions, 1);
    OneFileAvailable(v);
    OneFileLost(v, w);
  }
}
