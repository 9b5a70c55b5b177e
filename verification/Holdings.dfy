/** Who holds which version of a path, and which one is shown: what notifications mean, path by path. */
module Holdings {
  import opened Common
  import opened Paths
  import opened Directory
  import opened Cache
  import opened CacheInvariant
  import Catchup

  function VersionAt(c: Cache, key: FileKey): Option<Version> {
    if key in c.files then Some(c.files[key].version) else None
  }

  function FileAt(c: Cache, path: Path): Option<Inode> {
    match Lookup(c.tree, Split(path))
    case Ok(DirEntry(inode, File)) => Some(inode)
    case _ => None
  }

  /** The version of the path that the peer holds, as far as the cache knows. */
  function Holding(c: Cache, path: Path, peer: Peer): Option<Version> {
    match FileAt(c, path)
    case None => None
    case Some(inode) => VersionAt(c, EntryOf(inode, peer))
  }

  /** The version of the path that is shown. */
  function Showing(c: Cache, path: Path): Option<Version> {
    match FileAt(c, path)
    case None => None
    case Some(inode) => VersionAt(c, DefaultOf(inode))
  }

  predicate Has(v: Option<Version>, hash: Hash) {
    v.Some? && v.value.hash == hash
  }

  function Or(v: Option<Version>, w: Version): Option<Version> {
    if v.Some? then v else Some(w)
  }

  // ---------------------------------------------------------------------
  // What notifications mean
  // ---------------------------------------------------------------------

  ghost predicate OthersSame(c: Cache, d: Cache, path: Path, peer: Peer) {
    forall p | p != peer :: Holding(d, path, p) == Holding(c, path, p)
  }

  ghost predicate SameAt(c: Cache, d: Cache, path: Path) {
    Showing(d, path) == Showing(c, path) && forall p :: Holding(d, path, p) == Holding(c, path, p)
  }

  /** A peer that holds a version already keeps it, and what is shown stays. */
  ghost predicate AddedAt(c: Cache, d: Cache, path: Path, peer: Peer, v: Version) {
    && Holding(d, path, peer) == Or(Holding(c, path, peer), v)
    && Showing(d, path) == Or(Showing(c, path), v)
    && OthersSame(c, d, path, peer)
  }

  /** The peer gets the version if it replaces the one shown, which changes then, or the peer's own. */
  ghost predicate ReplacedAt(c: Cache, d: Cache, path: Path, peer: Peer, v: Version, oldHash: Hash) {
    var shown, own := Has(Showing(c, path), oldHash), Has(Holding(c, path, peer), oldHash);
    && Holding(d, path, peer) == (if shown || own then Some(v) else Holding(c, path, peer))
    && Showing(d, path) == (if shown then Some(v) else Showing(c, path))
    && OthersSame(c, d, path, peer)
  }

  ghost predicate ReportedAt(c: Cache, d: Cache, path: Path, peer: Peer, v: Version) {
    && Holding(d, path, peer) == Some(v)
    && Showing(d, path) == Or(Showing(c, path), v)
    && OthersSame(c, d, path, peer)
  }

  ghost predicate HeldByOther(c: Cache, path: Path, peer: Peer, p: Peer) {
    p != peer && Holding(c, path, p).Some?
  }

  ghost predicate SomeOther(c: Cache, path: Path, peer: Peer) {
    exists p :: HeldByOther(c, path, peer, p)
  }

  /** Another peer holds the version shown. */
  ghost predicate ShownByOther(c: Cache, path: Path, peer: Peer) {
    exists p :: HeldByOther(c, path, peer, p) && Has(Showing(c, path), Holding(c, path, p).value.hash)
  }

  ghost predicate NewestOther(c: Cache, path: Path, peer: Peer, p: Peer) {
    && HeldByOther(c, path, peer, p)
    && forall q | HeldByOther(c, path, peer, q) :: Holding(c, path, q).value.mtime <= Holding(c, path, p).value.mtime
  }

  /**
   * The peer holds the file no longer. What is shown stays if somebody else holds it; otherwise one of
   * the newest versions of the others is shown, or nothing if there are none.
   */
  ghost predicate GoneAt(c: Cache, d: Cache, path: Path, peer: Peer) {
    && Holding(d, path, peer).None? && OthersSame(c, d, path, peer)
    && (!SomeOther(c, path, peer) ==> Showing(d, path).None?)
    && (ShownByOther(c, path, peer) ==> Showing(d, path) == Showing(c, path))
    && (SomeOther(c, path, peer) && !ShownByOther(c, path, peer) ==>
          exists p :: NewestOther(c, path, peer, p) && Showing(d, path) == Holding(c, path, p))
  }

  ghost predicate RemovedAt(c: Cache, d: Cache, path: Path, peer: Peer, oldHash: Hash) {
    if Has(Holding(c, path, peer), oldHash) then GoneAt(c, d, path, peer) else SameAt(c, d, path)
  }

  /** The peer has not reported the path since its catchup began. */
  ghost predicate Unreported(c: Cache, path: Path, peer: Peer) {
    Holding(c, path, peer).Some? && Unseen(peer, FileAt(c, path).value) in c.pending
  }

  /** What a notification makes of the path `at`. It is about one path, or about all of the peer's. */
  ghost predicate Means(c: Cache, peer: Peer, n: Notification, d: Cache, at: Path) {
    match n
    case Add(path, v) => if at == path then AddedAt(c, d, at, peer, v) else SameAt(c, d, at)
    case Replace(path, v, oldHash) =>
      if at == path then ReplacedAt(c, d, at, peer, v, oldHash) else SameAt(c, d, at)
    case Remove(path, oldHash) => if at == path then RemovedAt(c, d, at, peer, oldHash) else SameAt(c, d, at)
    case Drop(path, oldHash) => if at == path then RemovedAt(c, d, at, peer, oldHash) else SameAt(c, d, at)
    case CatchupStart => SameAt(c, d, at)
    case Catchup(path, v) => if at == path then ReportedAt(c, d, at, peer, v) else SameAt(c, d, at)
    case CatchupComplete => if Unreported(c, at, peer) then GoneAt(c, d, at, peer) else SameAt(c, d, at)
  }

  // ---------------------------------------------------------------------
  // Receiving a version
  // ---------------------------------------------------------------------

  /** Entries that are there lead to a name; names that are not there yet have no entries. */
  lemma EntryIsOld(c: Cache, key: FileKey)
    requires InPlace(c) && key in c.files
    ensures key.inode < c.tree.next
  {
    LookupBelow(c.tree, Split(c.files[key].path));
  }

  lemma LocatedElsewhere(c: Cache, path: Path, at: Path)
    requires InPlace(c) && Locate(c, path).Ok? && at != path
    ensures FileAt(Locate(c, path).value.cache, at) == FileAt(c, at)
    ensures FileAt(c, at) != Some(Locate(c, path).value.inode)
  {
    LocateIsExact(c, path);
    var u := Locate(c, path).value.cache.tree;
    var p, q := Split(path), Split(at);
    assert GrownUpTo(c.tree, u, q, p);
    if p == q {
      SplitInjective(path, at);
    }
    if q <= p {
      assert p[..|q|] == q;
      PrefixFound(u, p, |q|);
    }
    if FileAt(c, at) == Some(Locate(c, path).value.inode) {
      LookupInjective(u, p, q);
    }
  }

  lemma LocatedHere(c: Cache, path: Path, who: Slot)
    requires InPlace(c) && Locate(c, path).Ok?
    ensures var at := Locate(c, path).value;
            && at.cache.files == c.files && at.cache.pending == c.pending && FileAt(at.cache, path) == Some(at.inode)
            && VersionAt(c, FileKey(at.inode, who)) ==
               match FileAt(c, path)
               case None => None
               case Some(i) => VersionAt(c, FileKey(i, who))
  {
    LocateIsExact(c, path);
    LocateCreates(c, path);
    var at := Locate(c, path).value;
    assert GrownUpTo(c.tree, at.cache.tree, Split(path), Split(path));
    if FileKey(at.inode, who) in c.files {
      EntryIsOld(c, FileKey(at.inode, who));
    }
  }

  lemma ReceivedAt(at: Place, peer: Peer, n: Notification)
    requires n.Add? || n.Replace? || n.Catchup?
    requires FileAt(at.cache, n.path) == Some(at.inode) && Paired(at.cache.files)
    ensures Means(at.cache, peer, n, Received(at, peer, n), n.path)
  {
    if EntryOf(at.inode, peer) in at.cache.files {
      PeerIsShown(at.cache.files, at.inode, peer);
    }
  }

  lemma ReceivedElsewhere(at: Place, peer: Peer, n: Notification, path: Path)
    requires (n.Add? || n.Replace? || n.Catchup?) && FileAt(at.cache, path) != Some(at.inode)
    ensures SameAt(at.cache, Received(at, peer, n), path)
  {
  }

  /** Making the name changes nothing that is held or shown. */
  lemma LocatedSame(c: Cache, path: Path, at: Path)
    requires InPlace(c) && Locate(c, path).Ok?
    ensures SameAt(c, Locate(c, path).value.cache, at)
  {
    LocatedHere(c, path, Default);
    if at == path {
      forall p ensures Holding(Locate(c, path).value.cache, at, p) == Holding(c, at, p) {
        LocatedHere(c, path, Of(p));
      }
    } else {
      LocatedElsewhere(c, path, at);
    }
  }

  lemma SameThenMeans(c: Cache, b: Cache, peer: Peer, n: Notification, d: Cache, at: Path)
    requires (n.Add? || n.Replace? || n.Catchup?) && SameAt(c, b, at) && Means(b, peer, n, d, at)
    ensures Means(c, peer, n, d, at)
  {
  }

  /** A file is on the way, or a directory at the path. */
  ghost predicate NoRoom(t: Tree, path: Path) {
    || !Clear(t, Split(path)[..|Split(path)| - 1])
    || (Lookup(t, Split(path)).Ok? && Lookup(t, Split(path)).value.kind == Directory)
  }

  lemma CreateFails(t: Tree, path: Path, r: Result<Created, StorageError>)
    requires CreatePost(t, Split(path), r)
    ensures r.Err? <==> NoRoom(t, path)
    ensures r == Err(IsADirectory) ==> Lookup(t, Split(path)).Ok?
    ensures r != Err(NotFound)
  {
    if r.Ok? && Lookup(t, Split(path)).Ok? {
      assert GrownUpTo(t, r.value.tree, Split(path), Split(path));
    }
  }

  /** A version of a file is turned down exactly if there is no room for the name. */
  lemma ReceiveFails(c: Cache, peer: Peer, n: Notification)
    requires (n.Add? || n.Replace? || n.Catchup?) && IsTree(c.tree)
    ensures Receive(c, peer, n).Err? <==> NoRoom(c.tree, n.path)
    ensures Receive(c, peer, n) == Err(IsADirectory) ==> Lookup(c.tree, Split(n.path)).Ok?
    ensures Receive(c, peer, n) != Err(NotFound)
  {
    LocateCreates(c, n.path);
    CreateFails(c.tree, n.path, CreateFile(c.tree, Components(Parent(n.path)), Name(n.path)));
  }

  lemma ReceiveMeans(c: Cache, peer: Peer, n: Notification, at: Path)
    requires n.Add? || n.Replace? || n.Catchup?
    requires InPlace(c) && Owned(c) && Receive(c, peer, n).Ok?
    ensures Means(c, peer, n, Receive(c, peer, n).value, at)
  {
    var place := Locate(c, n.path).value;
    LocatedHere(c, n.path, Default);
    LocatedSame(c, n.path, at);
    if at == n.path {
      ReceivedAt(place, peer, n);
    } else {
      LocatedElsewhere(c, n.path, at);
      ReceivedElsewhere(place, peer, n, at);
    }
    SameThenMeans(c, place.cache, peer, n, Received(place, peer, n), at);
  }

  // ---------------------------------------------------------------------
  // Removing a version
  // ---------------------------------------------------------------------

  /** The file keeps its name, or loses it together with its entries. */
  ghost predicate SameOrGone(c: Cache, d: Cache, path: Path) {
    FileAt(d, path) == FileAt(c, path) || FileAt(d, path).None?
  }

  lemma OthersAreHolders(c: Cache, path: Path, inode: Inode, peer: Peer)
    requires FileAt(c, path) == Some(inode)
    ensures forall p :: HeldByOther(c, path, peer, p) <==> p in Holders(c, inode) - {peer}
    ensures SomeOther(c, path, peer) <==> Holders(c, inode) - {peer} != {}
  {
    forall p ensures HeldByOther(c, path, peer, p) <==> p in Holders(c, inode) - {peer} {
      HoldersMember(c, inode, p);
    }
    if Holders(c, inode) - {peer} != {} {
      var p :| p in Holders(c, inode) - {peer};
      assert HeldByOther(c, path, peer, p);
    }
  }

  lemma PathOfEntry(c: Cache, path: Path, key: FileKey)
    requires InPlace(c) && key in c.files
    ensures FileAt(c, path) == Some(key.inode) <==> c.files[key].path == path
  {
    assert Placed(c.tree, key.inode, c.files[key]);
    if FileAt(c, path) == Some(key.inode) {
      LookupInjective(c.tree, Split(path), Split(c.files[key].path));
      SplitInjective(path, c.files[key].path);
    }
  }

  /** Of the last holder's file, only the name goes. */
  lemma RemoveLastNames(c: Cache, inode: Inode, peer: Peer, path: Path)
    requires InPlace(c) && EntryOf(inode, peer) in c.files
    ensures var d := RemoveLast(c, c.files[EntryOf(inode, peer)].parent, inode, peer);
            FileAt(d, path) == if FileAt(c, path) == Some(inode) then None else FileAt(c, path)
  {
    var e := c.files[EntryOf(inode, peer)];
    assert Placed(c.tree, inode, e);
    RemoveEntryShrinks(c.tree, Split(e.path), Split(path));
    PathOfEntry(c, path, EntryOf(inode, peer));
    if Split(path) == Split(e.path) {
      SplitInjective(path, e.path);
    }
  }

  /** All entries of the inode, the peer's being the last, are gone together with its name. */
  lemma LastGone(c: Cache, d: Cache, inode: Inode, peer: Peer, path: Path)
    requires Holders(c, inode) - {peer} == {} && d.files == c.files - {EntryOf(inode, peer), DefaultOf(inode)}
    requires FileAt(d, path) == if FileAt(c, path) == Some(inode) then None else FileAt(c, path)
    ensures if FileAt(c, path) == Some(inode) then GoneAt(c, d, path, peer) else SameAt(c, d, path)
  {
    if FileAt(c, path) == Some(inode) {
      OthersAreHolders(c, path, inode, peer);
      forall p | p != peer ensures Holding(c, path, p).None? {
        assert !HeldByOther(c, path, peer, p);
      }
    }
  }

  lemma RemoveLastMeans(c: Cache, inode: Inode, peer: Peer, path: Path)
    requires InPlace(c) && EntryOf(inode, peer) in c.files && Holders(c, inode) - {peer} == {}
    ensures var d := RemoveLast(c, c.files[EntryOf(inode, peer)].parent, inode, peer);
            && SameOrGone(c, d, path)
            && if FileAt(c, path) == Some(inode) then GoneAt(c, d, path, peer) else SameAt(c, d, path)
  {
    RemoveLastNames(c, inode, peer, path);
    LastGone(c, RemoveLast(c, c.files[EntryOf(inode, peer)].parent, inode, peer), inode, peer, path);
  }

  lemma HeldIsShown(c: Cache, path: Path, inode: Inode, peer: Peer)
    requires FileAt(c, path) == Some(inode)
    ensures VersionHeld(c, inode, Holders(c, inode) - {peer}) <==> ShownByOther(c, path, peer)
  {
    OthersAreHolders(c, path, inode, peer);
    if VersionHeld(c, inode, Holders(c, inode) - {peer}) {
      var hash := c.files[DefaultOf(inode)].version.hash;
      var p :| p in Holders(c, inode) - {peer} && HasHash(c, EntryOf(inode, p), hash);
      assert HeldByOther(c, path, peer, p);
    }
    if ShownByOther(c, path, peer) {
      var p :| HeldByOther(c, path, peer, p) && Has(Showing(c, path), Holding(c, path, p).value.hash);
      assert p in Holders(c, inode) - {peer};
    }
  }

  lemma NewestIsNewest(c: Cache, path: Path, inode: Inode, peer: Peer, p: Peer)
    requires FileAt(c, path) == Some(inode) && Newest(c, inode, Holders(c, inode) - {peer}, p)
    ensures NewestOther(c, path, peer, p)
  {
    OthersAreHolders(c, path, inode, peer);
  }

  lemma RemoveOneElsewhere(c: Cache, inode: Inode, peer: Peer, hint: Peer, path: Path)
    requires Holders(c, inode) - {peer} != {} && FileAt(c, path) != Some(inode)
    ensures SameAt(c, RemoveOne(c, inode, peer, hint), path)
  {
    OthersHaveEntries(c, inode, peer);
  }

  lemma RemoveOneGone(c: Cache, inode: Inode, peer: Peer, hint: Peer, path: Path)
    requires Holders(c, inode) - {peer} != {} && FileAt(c, path) == Some(inode)
    ensures GoneAt(c, RemoveOne(c, inode, peer, hint), path, peer)
  {
    OthersHaveEntries(c, inode, peer);
    OthersAreHolders(c, path, inode, peer);
    HeldIsShown(c, path, inode, peer);
    var others := Holders(c, inode) - {peer};
    if !VersionHeld(c, inode, others) {
      var p := Successor(c, inode, others, hint);
      NewestIsNewest(c, path, inode, peer, p);
      assert Showing(RemoveOne(c, inode, peer, hint), path) == Holding(c, path, p);
    }
  }

  /** The entry is there, and is the expected one if one is expected. */
  ghost predicate Goes(c: Cache, path: Path, peer: Peer, expected: Option<Hash>) {
    Holding(c, path, peer).Some? && (expected.Some? ==> Has(Holding(c, path, peer), expected.value))
  }

  ghost predicate RmMeans(c: Cache, inode: Inode, peer: Peer, expected: Option<Hash>, d: Cache, path: Path) {
    && SameOrGone(c, d, path)
    && if FileAt(c, path) == Some(inode) && Goes(c, path, peer, expected) then GoneAt(c, d, path, peer)
       else SameAt(c, d, path)
  }

  lemma GoesIsExpected(c: Cache, inode: Inode, peer: Peer, expected: Option<Hash>, path: Path)
    requires FileAt(c, path) == Some(inode)
    ensures Goes(c, path, peer, expected) <==>
              EntryOf(inode, peer) in c.files && (expected.Some? ==> HasHash(c, EntryOf(inode, peer), expected.value))
  {
  }

  lemma RemoveOneMeans(c: Cache, inode: Inode, peer: Peer, hint: Peer, path: Path)
    requires Holders(c, inode) - {peer} != {}
    ensures var d := RemoveOne(c, inode, peer, hint);
            && SameOrGone(c, d, path)
            && if FileAt(c, path) == Some(inode) then GoneAt(c, d, path, peer) else SameAt(c, d, path)
  {
    if FileAt(c, path) == Some(inode) {
      RemoveOneGone(c, inode, peer, hint, path);
    } else {
      RemoveOneElsewhere(c, inode, peer, hint, path);
    }
    RemoveOneTree(c, inode, peer, hint);
  }

  lemma RemoveOneTree(c: Cache, inode: Inode, peer: Peer, hint: Peer)
    requires Holders(c, inode) - {peer} != {}
    ensures RemoveOne(c, inode, peer, hint).tree == c.tree
  {
  }

  /** What becomes of each path when the peer's entry of one inode is removed. */
  lemma RmFileEntryMeans(c: Cache, parent: Inode, inode: Inode, peer: Peer, expected: Option<Hash>, hint: Peer,
                         path: Path)
    requires InPlace(c) && ParentKnown(c, parent, inode, peer)
    ensures RmMeans(c, inode, peer, expected, RmFileEntry(c, parent, inode, peer, expected, hint), path)
  {
    var key := EntryOf(inode, peer);
    if FileAt(c, path) == Some(inode) {
      GoesIsExpected(c, inode, peer, expected, path);
    }
    if key in c.files && (expected.Some? ==> HasHash(c, key, expected.value)) {
      if Holders(c, inode) - {peer} == {} {
        RemoveLastMeans(c, inode, peer, path);
      } else {
        RemoveOneMeans(c, inode, peer, hint, path);
      }
    }
  }

  lemma LookupByParent(t: Tree, path: Path)
    ensures var above := Lookup(t, Components(Parent(path)));
            Lookup(t, Split(path)) == if above.Ok? then Step(t, above.value, Name(path)) else above
  {
    ParentComponents(path);
  }

  /** Removing fails exactly if the path does not lead to a file, with the error of looking it up. */
  lemma UnlinkFails(c: Cache, peer: Peer, path: Path, oldHash: Hash, hint: Inode -> Peer)
    ensures match Lookup(c.tree, Split(path))
            case Err(e) => Unlink(c, peer, path, oldHash, hint) == Err(e)
            case Ok(DirEntry(_, Directory)) => Unlink(c, peer, path, oldHash, hint) == Err(IsADirectory)
            case Ok(DirEntry(_, File)) => Unlink(c, peer, path, oldHash, hint).Ok?
  {
    LookupByParent(c.tree, path);
  }

  lemma UnlinkNamed(c: Cache, peer: Peer, path: Path, oldHash: Hash, hint: Inode -> Peer)
    requires Unlink(c, peer, path, oldHash, hint).Ok?
    ensures var key := Key(Lookup(c.tree, Components(Parent(path))).value.inode, Name(path));
            key in c.tree.dirs && FileAt(c, path) == Some(c.tree.dirs[key].inode)
  {
    LookupByParent(c.tree, path);
  }

  lemma UnlinkIs(c: Cache, peer: Peer, path: Path, oldHash: Hash, hint: Inode -> Peer)
    returns (parent: Inode, inode: Inode)
    requires InPlace(c) && Unlink(c, peer, path, oldHash, hint).Ok?
    ensures FileAt(c, path) == Some(inode) && ParentKnown(c, parent, inode, peer)
    ensures Unlink(c, peer, path, oldHash, hint).value ==
            RmFileEntry(c, parent, inode, peer, Some(oldHash), hint(inode))
  {
    UnlinkNamed(c, peer, path, oldHash, hint);
    UnlinkParent(c, peer, path, oldHash, hint);
    var key := Key(Lookup(c.tree, Components(Parent(path))).value.inode, Name(path));
    parent, inode := key.parent, c.tree.dirs[key].inode;
  }

  lemma SamePath(c: Cache, path: Path, at: Path)
    requires InPlace(c) && FileAt(c, path).Some? && FileAt(c, at) == FileAt(c, path)
    ensures at == path
  {
    LookupInjective(c.tree, Split(at), Split(path));
    SplitInjective(at, path);
  }

  lemma RmIsRemoved(c: Cache, inode: Inode, peer: Peer, oldHash: Hash, d: Cache, path: Path, at: Path)
    requires InPlace(c) && FileAt(c, path) == Some(inode) && RmMeans(c, inode, peer, Some(oldHash), d, at)
    ensures if at == path then RemovedAt(c, d, at, peer, oldHash) else SameAt(c, d, at)
  {
    if FileAt(c, at) == Some(inode) {
      SamePath(c, path, at);
    }
  }

  lemma UnlinkMeans(c: Cache, peer: Peer, path: Path, oldHash: Hash, hint: Inode -> Peer, at: Path)
    requires InPlace(c) && Unlink(c, peer, path, oldHash, hint).Ok?
    ensures var d := Unlink(c, peer, path, oldHash, hint).value;
            if at == path then RemovedAt(c, d, at, peer, oldHash) else SameAt(c, d, at)
  {
    var parent, inode := UnlinkIs(c, peer, path, oldHash, hint);
    RmFileEntryMeans(c, parent, inode, peer, Some(oldHash), hint(inode), at);
    RmIsRemoved(c, inode, peer, oldHash, Unlink(c, peer, path, oldHash, hint).value, path, at);
  }

  // ---------------------------------------------------------------------
  // Sweeping
  // ---------------------------------------------------------------------

  lemma SweepOneMeans(c: Cache, peer: Peer, inode: Inode, hint: Inode -> Peer, path: Path)
    requires InPlace(c)
    ensures var d := SweepOne(c, peer, inode, hint);
            && SameOrGone(c, d, path)
            && if FileAt(c, path) == Some(inode) && Unreported(c, path, peer) then GoneAt(c, d, path, peer)
               else SameAt(c, d, path)
  {
    var m := Unseen(peer, inode);
    if m in c.pending {
      MarkedParent(c, peer, inode);
      var unmarked := c.(pending := c.pending - {m});
      RmFileEntryMeans(unmarked, c.pending[m], inode, peer, None, hint(inode), path);
      UnmarkedMeans(c, unmarked, inode, peer, SweepOne(c, peer, inode, hint), path);
    }
  }

  lemma UnmarkedMeans(c: Cache, b: Cache, inode: Inode, peer: Peer, d: Cache, path: Path)
    requires b.tree == c.tree && b.files == c.files && RmMeans(b, inode, peer, None, d, path)
    ensures SameOrGone(c, d, path)
    ensures if FileAt(c, path) == Some(inode) && Holding(c, path, peer).Some? then GoneAt(c, d, path, peer)
            else SameAt(c, d, path)
  {
    assert SameAt(c, b, path);
    if FileAt(c, path) == Some(inode) && Holding(c, path, peer).Some? {
      SameThenGone(c, b, d, path, peer);
    }
  }

  lemma SameThenGone(a: Cache, b: Cache, c: Cache, path: Path, peer: Peer)
    requires SameAt(a, b, path) && GoneAt(b, c, path, peer)
    ensures GoneAt(a, c, path, peer)
  {
    assert forall p :: HeldByOther(a, path, peer, p) <==> HeldByOther(b, path, peer, p);
    if SomeOther(a, path, peer) && !ShownByOther(a, path, peer) {
      var p :| NewestOther(b, path, peer, p) && Showing(c, path) == Holding(b, path, p);
      assert NewestOther(a, path, peer, p);
    }
  }

  lemma GoneThenSame(a: Cache, b: Cache, c: Cache, path: Path, peer: Peer)
    requires GoneAt(a, b, path, peer) && SameAt(b, c, path)
    ensures GoneAt(a, c, path, peer)
  {
  }

  /** Which of the paths that were gone through are gone. */
  ghost predicate SweptMeans(c: Cache, peer: Peer, order: seq<Inode>, d: Cache, path: Path) {
    && SameOrGone(c, d, path)
    && if Unreported(c, path, peer) && FileAt(c, path).value in order then GoneAt(c, d, path, peer)
       else SameAt(c, d, path)
  }

  lemma SweptNext(c: Cache, peer: Peer, order: seq<Inode>, d: Cache, i: Inode, next: Cache, path: Path)
    requires SweptMeans(c, peer, order, d, path) && SameOrGone(d, next, path)
    requires if FileAt(d, path) == Some(i) && Unreported(d, path, peer) then GoneAt(d, next, path, peer)
             else SameAt(d, next, path)
    requires Unseen(peer, i) in d.pending <==> Unseen(peer, i) in c.pending && i !in order
    ensures SweptMeans(c, peer, order + [i], next, path)
  {
    if Unreported(c, path, peer) && FileAt(c, path).value in order {
      GoneThenSame(c, d, next, path, peer);
    } else if Unreported(c, path, peer) && FileAt(c, path) == Some(i) {
      assert Holding(d, path, peer) == Holding(c, path, peer);
      SameThenGone(c, d, next, path, peer);
    }
  }

  lemma {:induction false} SweepMeans(c: Cache, peer: Peer, order: seq<Inode>, hint: Inode -> Peer, path: Path)
    requires InPlace(c)
    ensures SweptMeans(c, peer, order, Sweep(c, peer, order, hint), path)
  {
    if order != [] {
      var n := |order| - 1;
      var d := Sweep(c, peer, order[..n], hint);
      SweepMeans(c, peer, order[..n], hint, path);
      SweepInPlace(c, peer, order[..n], hint);
      SweepOneMeans(d, peer, order[n], hint, path);
      Catchup.SweepMarks(c, peer, order[..n], hint, Unseen(peer, order[n]));
      SweptNext(c, peer, order[..n], d, order[n], SweepOne(d, peer, order[n], hint), path);
      assert order[..n] + [order[n]] == order;
    }
  }

  lemma SweepCompletes(c: Cache, peer: Peer, order: seq<Inode>, hint: Inode -> Peer, at: Path)
    requires InPlace(c) && Possible(c, peer, CatchupComplete, order)
    ensures Means(c, peer, CatchupComplete, Sweep(c, peer, order, hint), at)
  {
    SweepMeans(c, peer, order, hint, at);
    if Unreported(c, at, peer) {
      assert Unseen(peer, FileAt(c, at).value).inode in Marked(c, peer);
    }
  }

  // ---------------------------------------------------------------------
  // Every transaction
  // ---------------------------------------------------------------------

  lemma SameTables(c: Cache, d: Cache, at: Path)
    requires d.tree == c.tree && forall k :: VersionAt(d, k) == VersionAt(c, k)
    ensures SameAt(c, d, at)
  {
  }

  lemma VersionsStay(c: Cache, a: Action, key: FileKey)
    requires Enabled(c, a) && !a.Notify?
    ensures After(c, a).tree == c.tree && VersionAt(After(c, a), key) == VersionAt(c, key)
  {
  }

  /**
   * Inodes, names and entries come to this: every notification that is accepted changes what is held
   * and shown under its own path, and nothing under any other, as its meaning says.
   */
  lemma UpdateMeans(c: Cache, peer: Peer, n: Notification, hint: Inode -> Peer, order: seq<Inode>, at: Path)
    requires InPlace(c) && Owned(c) && Possible(c, peer, n, order) && Update(c, peer, n, hint, order).Ok?
    ensures Means(c, peer, n, Update(c, peer, n, hint, order).value, at)
  {
    match n
    case Add(_, _) => ReceiveMeans(c, peer, n, at);
    case Replace(_, _, _) => ReceiveMeans(c, peer, n, at);
    case Catchup(_, _) => ReceiveMeans(c, peer, n, at);
    case Remove(path, oldHash) => UnlinkMeans(c, peer, path, oldHash, hint, at);
    case Drop(path, oldHash) => UnlinkMeans(c, peer, path, oldHash, hint, at);
    case CatchupStart => SameTables(c, MarkAll(c, peer), at);
    case CatchupComplete => SweepCompletes(c, peer, order, hint, at);
  }

  /** Blobs come and go, and the log changes, without any effect on what is held or shown. */
  lemma OthersMeanNothing(c: Cache, a: Action, at: Path)
    requires Enabled(c, a) && !a.Notify?
    ensures SameAt(c, After(c, a), at)
  {
    forall k ensures VersionAt(After(c, a), k) == VersionAt(c, k) {
      VersionsStay(c, a, k);
    }
    SameTables(c, After(c, a), at);
  }

  // ---------------------------------------------------------------------
  // The blob of what is shown
  // ---------------------------------------------------------------------

  /** Only files are shown. */
  lemma ShownIsFile(c: Cache, path: Path)
    requires InPlace(c) && Lookup(c.tree, Split(path)).Ok? && Shown(c, Lookup(c.tree, Split(path)).value.inode)
    ensures FileAt(c, path) == Some(Lookup(c.tree, Split(path)).value.inode)
  {
    var key := DefaultOf(Lookup(c.tree, Split(path)).value.inode);
    assert Placed(c.tree, key.inode, c.files[key]);
    LookupInjective(c.tree, Split(path), Split(c.files[key].path));
  }

  lemma ShownBlob(c: Cache, inode: Inode)
    requires Owned(c) && Shown(c, inode) && c.files[DefaultOf(inode)].blob.Some?
    ensures c.files[DefaultOf(inode)].blob.value in c.blobs
  {
    assert Owns(c.files, DefaultOf(inode), c.files[DefaultOf(inode)].blob.value);
  }

  /** What is found at the path, if it is shown at all, is a file, and its blob is there. */
  ghost predicate InGoodOrder(c: Cache, path: Path) {
    var at := Lookup(c.tree, Split(path));
    at.Ok? && Shown(c, at.value.inode) ==>
      && FileAt(c, path) == Some(at.value.inode)
      && (c.files[DefaultOf(at.value.inode)].blob.Some? ==> c.files[DefaultOf(at.value.inode)].blob.value in c.blobs)
  }

  lemma AlwaysInGoodOrder(c: Cache, path: Path)
    requires InPlace(c) && Owned(c)
    ensures InGoodOrder(c, path)
  {
    var at := Lookup(c.tree, Split(path));
    if at.Ok? && Shown(c, at.value.inode) {
      ShownIsFile(c, path);
      if c.files[DefaultOf(at.value.inode)].blob.Some? {
        ShownBlob(c, at.value.inode);
      }
    }
  }

  /** Data is moved in exactly if the path shows the version with the hash; that fails if it shows nothing. */
  ghost predicate MoveInExact(c: Cache, path: Path, hash: Hash, r: Result<(Cache, bool), StorageError>) {
    && (r.Ok? && r.value.1 <==> Has(Showing(c, path), hash))
    && (r.Err? <==> Showing(c, path).None? && Lookup(c.tree, Split(path)) != Err(NotFound))
    && (r.Ok? && !r.value.1 ==> r.value.0 == c)
  }

  lemma MovesInWhenInOrder(c: Cache, path: Path, hash: Hash)
    requires InGoodOrder(c, path)
    ensures MoveInExact(c, path, hash, MoveIntoBlobIfMatches(c, path, hash))
  {
  }

  lemma MovesInExactly(c: Cache, path: Path, hash: Hash)
    requires InPlace(c) && Owned(c)
    ensures MoveInExact(c, path, hash, MoveIntoBlobIfMatches(c, path, hash))
  {
    AlwaysInGoodOrder(c, path);
    MovesInWhenInOrder(c, path, hash);
  }

  /**
   * A blob is moved out exactly if the path shows the version with the hash and the content of its blob
   * was verified to have it; that fails if nothing is shown, or the version without a blob.
   */
  ghost predicate MoveOutExact(c: Cache, path: Path, hash: Hash, r: Result<(Cache, bool), StorageError>) {
    && (r.Ok? && r.value.1 <==> FileAt(c, path).Some? && Realizable(c, FileAt(c, path).value, hash))
    && (r.Err? <==>
          || Showing(c, path).None?
          || (Has(Showing(c, path), hash) && c.files[DefaultOf(FileAt(c, path).value)].blob.None?))
    && (r.Ok? && !r.value.1 ==> r.value.0 == c)
  }

  lemma MovesOutWhenInOrder(c: Cache, path: Path, hash: Hash)
    requires InGoodOrder(c, path)
    ensures MoveOutExact(c, path, hash, MoveBlobIfMatches(c, path, hash))
  {
  }

  lemma MovesOutExactly(c: Cache, path: Path, hash: Hash)
    requires InPlace(c) && Owned(c)
    ensures MoveOutExact(c, path, hash, MoveBlobIfMatches(c, path, hash))
  {
    AlwaysInGoodOrder(c, path);
    MovesOutWhenInOrder(c, path, hash);
  }

  /** A file can be opened exactly if it is shown; it keeps the blob it has, or gets a new and empty one. */
  lemma OpensExactly(c: Cache, inode: Inode)
    requires Owned(c)
    ensures OpenFile(c, inode).Ok? <==> Shown(c, inode)
    ensures Shown(c, inode) ==>
              var d, key := OpenFile(c, inode).value, DefaultOf(inode);
              if c.files[key].blob.Some? then d == c
              else
                && SameButBlob(c, d, inode) && d.files[key].blob.Some? && d.files[key].blob.value !in c.blobs
                && d.blobs == c.blobs[d.files[key].blob.value := BlobEntry([], None)]
  {
    if Shown(c, inode) && c.files[DefaultOf(inode)].blob.Some? {
      ShownBlob(c, inode);
    }
  }
}
