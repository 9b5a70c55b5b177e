/** What the cache holds of a peer is what the peer has. */
module Mirrors {
  import opened Common
  import opened Paths
  import opened Directory
  import opened Cache
  import opened CacheInvariant
  import opened CacheLog
  import opened Holdings
  import Catchup
  import Versions

  /** The files that a peer has. */
  type Store = map<Path, Version>

  function In(store: Store, path: Path): Option<Version> {
    if path in store then Some(store[path]) else None
  }

  /** The peer notifies of what it does, or reports what it has. */
  ghost predicate Truthful(store: Store, n: Notification, next: Store) {
    match n
    case Add(path, v) => path !in store && next == store[path := v]
    case Replace(path, v, oldHash) => Has(In(store, path), oldHash) && next == store[path := v]
    case Remove(path, oldHash) => Has(In(store, path), oldHash) && next == store - {path}
    case Drop(path, oldHash) => Has(In(store, path), oldHash) && next == store - {path}
    case CatchupStart => next == store
    case Catchup(path, v) => In(store, path) == Some(v) && next == store
    case CatchupComplete => next == store
  }

  ghost predicate Mirrored(c: Cache, peer: Peer, store: Store) {
    forall path: Path :: Holding(c, path, peer) == In(store, path)
  }

  lemma InitialMirrored(c: Cache, peer: Peer)
    requires Initial(c)
    ensures Mirrored(c, peer, map[])
  {
  }

  // ---------------------------------------------------------------------
  // One step
  // ---------------------------------------------------------------------

  lemma FoundHasRoom(c: Cache, peer: Peer, path: Path, v: Version)
    requires InPlace(c) && FileAt(c, path).Some?
    ensures !NoRoom(c.tree, path) && Locate(c, path).Ok? && Receive(c, peer, Add(path, v)).Ok?
  {
    var cs := Split(path);
    var dir := cs[..|cs| - 1];
    forall i | 0 <= i <= |dir| ensures !IsFile(c.tree, dir[..i]) {
      PrefixFound(c.tree, cs, i);
      assert dir[..i] == cs[..i];
    }
    ReceiveFails(c, peer, Add(path, v));
  }

  /** A file that is held is found, and can be written and removed. */
  lemma HeldIsFound(c: Cache, peer: Peer, path: Path, oldHash: Hash, hint: Inode -> Peer)
    requires InPlace(c) && Holding(c, path, peer).Some?
    ensures Locate(c, path).Ok? && Unlink(c, peer, path, oldHash, hint).Ok?
  {
    UnlinkFails(c, peer, path, oldHash, hint);
    FoundHasRoom(c, peer, path, Version(0, 0, 0));
  }

  /** So nothing but a new file is ever turned down. */
  lemma OnlyAddFails(c: Cache, peer: Peer, n: Notification, hint: Inode -> Peer, order: seq<Inode>, store: Store,
                     next: Store)
    requires InPlace(c) && Mirrored(c, peer, store) && Truthful(store, n, next) && !n.Add?
    ensures Update(c, peer, n, hint, order).Ok?
  {
    match n
    case Replace(path, _, _) => HeldIsFound(c, peer, path, 0, hint);
    case Remove(path, oldHash) => HeldIsFound(c, peer, path, oldHash, hint);
    case Drop(path, oldHash) => HeldIsFound(c, peer, path, oldHash, hint);
    case Catchup(path, _) => HeldIsFound(c, peer, path, 0, hint);
    case CatchupStart =>
    case CatchupComplete =>
  }

  /** Something that the peer has was not reported in its catchup. */
  ghost predicate Overlooked(c: Cache, peer: Peer, store: Store) {
    exists path: Path :: path in store && Unreported(c, path, peer)
  }

  /** Why the cache does not follow: there is no room for a new file's name, or a catchup ends too early. */
  ghost predicate Misses(c: Cache, peer: Peer, n: Notification, store: Store) {
    (n.Add? && NoRoom(c.tree, n.path)) || (n.CatchupComplete? && Overlooked(c, peer, store))
  }

  lemma MeansMirrored(c: Cache, peer: Peer, n: Notification, d: Cache, store: Store, next: Store, path: Path)
    requires Mirrored(c, peer, store) && Truthful(store, n, next) && Means(c, peer, n, d, path)
    ensures Holding(d, path, peer) == In(next, path) <==>
              !(n.CatchupComplete? && path in store && Unreported(c, path, peer))
  {
    assert Holding(c, path, peer) == In(store, path);
  }

  lemma OwnMirrored(c: Cache, peer: Peer, n: Notification, hint: Inode -> Peer, order: seq<Inode>, store: Store,
                    next: Store)
    requires InPlace(c) && Owned(c) && Possible(c, peer, n, order) && Update(c, peer, n, hint, order).Ok?
    requires Mirrored(c, peer, store) && Truthful(store, n, next)
    ensures Mirrored(Update(c, peer, n, hint, order).value, peer, next) <==> !Misses(c, peer, n, store)
  {
    var d := Update(c, peer, n, hint, order).value;
    if n.Add? {
      ReceiveFails(c, peer, n);
    }
    forall path: Path
      ensures Holding(d, path, peer) == In(next, path) <==>
                !(n.CatchupComplete? && path in store && Unreported(c, path, peer))
    {
      UpdateMeans(c, peer, n, hint, order, path);
      MeansMirrored(c, peer, n, d, store, next, path);
    }
  }

  /** The peer's part in an action, if it has one. */
  predicate IsFrom(a: Action, peer: Peer) {
    a.Notify? && a.peer == peer
  }

  lemma OtherMeans(c: Cache, a: Action, peer: Peer, path: Path)
    requires InPlace(c) && Owned(c) && Enabled(c, a) && !IsFrom(a, peer)
    ensures Holding(After(c, a), path, peer) == Holding(c, path, peer)
  {
    if a.Notify? {
      if Act(c, a).Ok? {
        UpdateMeans(c, a.peer, a.n, a.hint, a.order, path);
      }
    } else {
      OthersMeanNothing(c, a, path);
    }
  }

  lemma OthersMirrored(c: Cache, a: Action, peer: Peer, store: Store)
    requires InPlace(c) && Owned(c) && Enabled(c, a) && !IsFrom(a, peer) && Mirrored(c, peer, store)
    ensures Mirrored(After(c, a), peer, store)
  {
    forall path: Path ensures Holding(After(c, a), path, peer) == In(store, path) {
      OtherMeans(c, a, peer, path);
    }
  }

  /** What the peer does in the meantime, if the action is one of its notifications. */
  ghost predicate Keeps(a: Action, peer: Peer, store: Store, next: Store) {
    if IsFrom(a, peer) then Truthful(store, a.n, next) else next == store
  }

  ghost predicate MissesBy(c: Cache, a: Action, peer: Peer, store: Store) {
    IsFrom(a, peer) && Misses(c, peer, a.n, store)
  }

  /** Every transaction of anybody keeps the cache in step with a truthful peer, except for exactly these. */
  lemma AfterMirrored(c: Cache, a: Action, peer: Peer, store: Store, next: Store)
    requires InPlace(c) && Owned(c) && Enabled(c, a) && Mirrored(c, peer, store) && Keeps(a, peer, store, next)
    ensures Mirrored(After(c, a), peer, next) <==> !MissesBy(c, a, peer, store)
  {
    if !IsFrom(a, peer) {
      OthersMirrored(c, a, peer, store);
    } else if Act(c, a).Ok? {
      OwnMirrored(c, peer, a.n, a.hint, a.order, store, next);
    } else {
      if !a.n.Add? {
        OnlyAddFails(c, peer, a.n, a.hint, a.order, store, next);
      }
      ReceiveFails(c, peer, a.n);
      assert Holding(c, a.n.path, peer) != In(next, a.n.path);
    }
  }

  // ---------------------------------------------------------------------
  // A mark that outlives its entry
  // ---------------------------------------------------------------------

  /** As long as somebody else holds the file, it keeps its inode. */
  lemma InodeStays(c: Cache, peer: Peer, path: Path, oldHash: Hash, hint: Inode -> Peer)
    requires InPlace(c) && SomeOther(c, path, peer) && Unlink(c, peer, path, oldHash, hint).Ok?
    ensures FileAt(Unlink(c, peer, path, oldHash, hint).value, path) == FileAt(c, path)
  {
    var parent, inode := UnlinkIs(c, peer, path, oldHash, hint);
    OthersAreHolders(c, path, inode, peer);
  }

  lemma ReceivedTree(at: Place, peer: Peer, n: Notification)
    requires n.Add? || n.Replace? || n.Catchup?
    ensures Received(at, peer, n).tree == at.cache.tree
  {
  }

  lemma LocatedAgain(c: Cache, path: Path)
    requires InPlace(c) && Locate(c, path).Ok? && FileAt(c, path).Some?
    ensures FileAt(Locate(c, path).value.cache, path) == FileAt(c, path)
  {
    LocateIsExact(c, path);
    assert GrownUpTo(c.tree, Locate(c, path).value.cache.tree, Split(path), Split(path));
  }

  lemma InodeIsFound(c: Cache, peer: Peer, n: Notification)
    requires (n.Add? || n.Replace? || n.Catchup?) && InPlace(c) && Receive(c, peer, n).Ok? && FileAt(c, n.path).Some?
    ensures FileAt(Receive(c, peer, n).value, n.path) == FileAt(c, n.path)
  {
    LocatedAgain(c, n.path);
    ReceivedTree(Locate(c, n.path).value, peer, n);
  }

  /** After the peer's catchup began, it removes a file that another peer holds, too. The mark stays. */
  lemma RemovedButMarked(c: Cache, peer: Peer, path: Path, oldHash: Hash, hint: Inode -> Peer)
    requires InPlace(c) && Owned(c) && Has(Holding(c, path, peer), oldHash) && SomeOther(c, path, peer)
    requires Unreported(c, path, peer)
    ensures var r := Unlink(c, peer, path, oldHash, hint);
            && r.Ok? && InPlace(r.value) && Owned(r.value)
            && Holding(r.value, path, peer).None? && FileAt(r.value, path).Some?
            && Unseen(peer, FileAt(r.value, path).value) in r.value.pending
  {
    HeldIsFound(c, peer, path, oldHash, hint);
    InodeStays(c, peer, path, oldHash, hint);
    UnlinkMeans(c, peer, path, oldHash, hint, path);
    Catchup.UnlinkKeepsMarks(c, peer, path, oldHash, hint);
    UnlinkInPlace(c, peer, path, oldHash, hint);
    UnlinkOwned(c, peer, path, oldHash, hint);
  }

  /** A file that is added under such a mark is taken for one that was not reported. */
  lemma AddedButMarked(c: Cache, peer: Peer, path: Path, v: Version)
    requires InPlace(c) && Owned(c) && Holding(c, path, peer).None? && Receive(c, peer, Add(path, v)).Ok?
    requires FileAt(c, path).Some? && Unseen(peer, FileAt(c, path).value) in c.pending
    ensures var d := Receive(c, peer, Add(path, v)).value;
            InPlace(d) && Owned(d) && Holding(d, path, peer) == Some(v) && Unreported(d, path, peer)
  {
    InodeIsFound(c, peer, Add(path, v));
    ReceiveMeans(c, peer, Add(path, v), path);
    Catchup.MarksExactly(c, peer, Add(path, v), i => peer, [], Unseen(peer, FileAt(c, path).value));
    ReceiveInPlace(c, peer, Add(path, v));
    ReceiveOwned(c, peer, Add(path, v));
  }

  /** So the completion of the catchup drops it, though the peer has it. */
  lemma StaleMarkDrops(c: Cache, peer: Peer, path: Path, oldHash: Hash, v: Version, hint: Inode -> Peer,
                       order: seq<Inode>)
    requires InPlace(c) && Owned(c) && Has(Holding(c, path, peer), oldHash) && SomeOther(c, path, peer)
    requires Unreported(c, path, peer)
    ensures var removed := Unlink(c, peer, path, oldHash, hint);
            removed.Ok? &&
            var added := Receive(removed.value, peer, Add(path, v));
            && added.Ok? && Holding(added.value, path, peer) == Some(v)
            && (Possible(added.value, peer, CatchupComplete, order) ==>
                  Holding(Sweep(added.value, peer, order, hint), path, peer).None?)
  {
    RemovedButMarked(c, peer, path, oldHash, hint);
    var b := Unlink(c, peer, path, oldHash, hint).value;
    FoundHasRoom(b, peer, path, v);
    AddedButMarked(b, peer, path, v);
    var d := Receive(b, peer, Add(path, v)).value;
    if Possible(d, peer, CatchupComplete, order) {
      SweepCompletes(d, peer, order, hint, path);
    }
  }

  // ---------------------------------------------------------------------
  // Runs
  // ---------------------------------------------------------------------

  /** A peer with its files, in step with the actions. */
  ghost predicate Acts(actions: seq<Action>, peer: Peer, stores: seq<Store>) {
    && |stores| == |actions| + 1
    && forall i | 0 <= i < |actions| :: Keeps(actions[i], peer, stores[i], stores[i + 1])
  }

  ghost predicate NeverMisses(states: seq<Cache>, actions: seq<Action>, peer: Peer, stores: seq<Store>, j: nat)
    requires |states| == |actions| + 1 == |stores| && j <= |actions|
  {
    forall i | 0 <= i < j :: !MissesBy(states[i], actions[i], peer, stores[i])
  }

  /**
   * Whatever the other peers, readers and streams do, the cache holds of a peer that tells the truth
   * exactly the files it has, as long as no new file is turned down and no catchup ends too early.
   */
  lemma {:induction false} RunMirrored(states: seq<Cache>, actions: seq<Action>, peer: Peer, stores: seq<Store>, j: nat)
    requires Run(states, actions) && Consistent(states[0]) && Acts(actions, peer, stores) && j <= |actions|
    requires Mirrored(states[0], peer, stores[0]) && NeverMisses(states, actions, peer, stores, j)
    ensures Mirrored(states[j], peer, stores[j])
  {
    if j > 0 {
      RunMirrored(states, actions, peer, stores, j - 1);
      RunStep(states, actions, j - 1, states[j]);
      assert Keeps(actions[j - 1], peer, stores[j - 1], stores[j - 1 + 1]);
      AfterMirrored(states[j - 1], actions[j - 1], peer, stores[j - 1], stores[j]);
    }
  }

  /** That holds from the beginning, when the peer has nothing and the cache is empty. */
  lemma MirroredFromStart(states: seq<Cache>, actions: seq<Action>, peer: Peer, stores: seq<Store>, j: nat, path: Path)
    requires Run(states, actions) && Initial(states[0]) && Acts(actions, peer, stores) && j <= |actions|
    requires stores[0] == map[] && NeverMisses(states, actions, peer, stores, j)
    ensures Holding(states[j], path, peer) == In(stores[j], path)
  {
    InitialConsistent(states[0]);
    InitialMirrored(states[0], peer);
    RunMirrored(states, actions, peer, stores, j);
  }

  /** Then a file can be had from exactly the peers that have the version shown. */
  lemma AvailableWhereMirrored(c: Cache, peer: Peer, store: Store, path: Path, inode: Inode)
    requires Mirrored(c, peer, store) && FileAt(c, path) == Some(inode)
    ensures var r := Versions.FileAvailability(c, inode);
            Showing(c, path).Some? && Has(In(store, path), Showing(c, path).value.hash) <==>
            r.Ok? && peer in r.value.1
  {
    Versions.AvailabilityIsExact(c, inode);
    assert Holding(c, path, peer) == In(store, path);
    if Showing(c, path).Some? && Has(In(store, path), Showing(c, path).value.hash) {
      assert Versions.HeldBy(c, inode, peer);
    }
  }
}
