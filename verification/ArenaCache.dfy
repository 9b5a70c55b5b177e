/** The cache of one arena, working on its tables. */
module ArenaCache {
  import opened Common
  import opened Paths
  import opened Directory
  import opened Cache
  import opened Database
  import opened Engine
  import opened Blobs
  import MarkDirty
  import Versions
  import Catchup
  import CacheInvariant
  import ByteRangeSets

  // ---------------------------------------------------------------------
  // Loops over the tables
  // ---------------------------------------------------------------------

  /** Goes down from the root, making the directories that are missing. */
  method MakeDirs(t: Tree, path: Option<Path>) returns (r: Result<(Tree, Inode), StorageError>)
    ensures r == MkDirs(t, Components(path))
  {
    var cs := Components(path);
    var u, current := t, t.root;
    for i := 0 to |cs|
      invariant MkDirs(t, cs[..i]) == Ok((u, current))
    {
      assert cs[..i + 1][..i] == cs[..i];
      var key := Key(current, cs[i]);
      if key in u.dirs {
        if u.dirs[key].kind != Directory {
          MkDirsStops(t, cs, i + 1);
          return Err(NotADirectory);
        }
        current := u.dirs[key].inode;
      } else {
        current := u.next;
        u := AddEntry(u, key, Directory);
      }
    }
    assert cs[..|cs|] == cs;
    r := Ok((u, current));
  }

  lemma {:induction false} MkDirsStops(t: Tree, cs: seq<string>, i: nat)
    requires i <= |cs| && MkDirs(t, cs[..i]).Err?
    ensures MkDirs(t, cs) == MkDirs(t, cs[..i])
    decreases |cs|
  {
    if i == |cs| {
      assert cs[..i] == cs;
    } else {
      assert cs[..|cs| - 1][..i] == cs[..i];
      MkDirsStops(t, cs[..|cs| - 1], i);
    }
  }

  /** Whether one of the entries has the hash. */
  method AnyHolds(c: Cache, inode: Inode, peers: set<Peer>, hash: Hash) returns (b: bool)
    ensures b <==> HashHeld(c, inode, peers, hash)
  {
    var left := peers;
    b := false;
    while left != {} && !b
      invariant left <= peers
      invariant b ==> HashHeld(c, inode, peers, hash)
      invariant !b ==> forall p | p in peers && p !in left :: !HasHash(c, EntryOf(inode, p), hash)
      decreases |left|
    {
      var p :| p in left;
      left := left - {p};
      b := HasHash(c, EntryOf(inode, p), hash);
    }
  }

  /** One of the most recent entries: the first that the scan, in whatever order, meets. */
  method MostRecent(c: Cache, inode: Inode, peers: set<Peer>) returns (p: Peer)
    requires peers != {} && forall q | q in peers :: EntryOf(inode, q) in c.files
    ensures Newest(c, inode, peers, p)
  {
    p :| p in peers;
    var left := peers - {p};
    while left != {}
      invariant p in peers && left <= peers
      invariant forall q | q in peers && q !in left ::
                  c.files[EntryOf(inode, q)].version.mtime <= c.files[EntryOf(inode, p)].version.mtime
      decreases |left|
    {
      var q :| q in left;
      left := left - {q};
      if c.files[EntryOf(inode, q)].version.mtime > c.files[EntryOf(inode, p)].version.mtime {
        p := q;
      }
    }
  }

  /** The holders of the version shown, one after the other. */
  method FindAvailability(c: Cache, inode: Inode) returns (r: Result<(FileEntry, set<Peer>), StorageError>)
    ensures r == Versions.FileAvailability(c, inode)
  {
    if DefaultOf(inode) !in c.files {
      return Err(NotFound);
    }
    var e := c.files[DefaultOf(inode)];
    var left := Holders(c, inode);
    var peers := {};
    while left != {}
      invariant left <= Holders(c, inode)
      invariant forall p :: p in peers <==> p in Holders(c, inode) && p !in left && Versions.HeldBy(c, inode, p)
      decreases |left|
    {
      var p :| p in left;
      left := left - {p};
      HoldersMember(c, inode, p);
      if c.files[EntryOf(inode, p)].version.hash == e.version.hash {
        peers := peers + {p};
      }
    }
    AvailabilityHolders(c, inode, peers);
    return if peers == {} then Err(NotFound) else Ok((e, peers));
  }

  lemma AvailabilityHolders(c: Cache, inode: Inode, peers: set<Peer>)
    requires Shown(c, inode) && forall p :: p in peers <==> p in Holders(c, inode) && Versions.HeldBy(c, inode, p)
    ensures Versions.FileAvailability(c, inode) ==
              if peers == {} then Err(NotFound) else Ok((c.files[DefaultOf(inode)], peers))
  {
    Versions.AvailabilityIsExact(c, inode);
    forall p ensures p in peers <==> Versions.HeldBy(c, inode, p) {
      HoldersMember(c, inode, p);
    }
    if peers == {} {
      assert !Versions.HeldAt(c, inode);
    } else {
      var p :| p in peers;
      assert Versions.HeldBy(c, inode, p);
      assert peers == Versions.FileAvailability(c, inode).value.1;
    }
  }

  // ---------------------------------------------------------------------
  // Transactions
  // ---------------------------------------------------------------------

  /** Only the hints for the inodes that are swept matter. */
  lemma {:induction false} SweepHints(c: Cache, peer: Peer, order: seq<Inode>, h: Inode -> Peer, k: Inode -> Peer)
    requires forall i | i in order :: h(i) == k(i)
    ensures Sweep(c, peer, order, h) == Sweep(c, peer, order, k)
  {
    if order != [] {
      SweepHints(c, peer, order[..|order| - 1], h, k);
    }
  }

  function HintOf(hints: map<Inode, Peer>): Inode -> Peer {
    i => if i in hints then hints[i] else ""
  }

  lemma SweepNext(c: Cache, peer: Peer, order: seq<Inode>, hints: map<Inode, Peer>, i: Inode, h: Peer)
    requires i !in order
    ensures Sweep(c, peer, order + [i], HintOf(hints[i := h])) ==
            SweepOne(Sweep(c, peer, order, HintOf(hints)), peer, i, HintOf(hints[i := h]))
  {
    assert (order + [i])[..|order|] == order;
    SweepHints(c, peer, order, HintOf(hints), HintOf(hints[i := h]));
  }

  lemma StillMarked(c: Cache, peer: Peer, order: seq<Inode>, hint: Inode -> Peer, i: Inode)
    requires i in Marked(c, peer) && i !in order
    ensures Unseen(peer, i) in Sweep(c, peer, order, hint).pending
  {
    Catchup.SweepMarks(c, peer, order, hint, Unseen(peer, i));
  }

  predicate IsDone(c: Cache, peer: Peer, left: set<FileKey>, m: Unseen) {
    m.peer == peer && EntryOf(m.inode, peer) in c.files && EntryOf(m.inode, peer) !in left
  }

  /** The marks once all entries but those in `left` were gone through. */
  ghost predicate MarkedBut(c: Cache, peer: Peer, left: set<FileKey>, pending: map<Unseen, Inode>) {
    && (forall m :: m in pending <==> m in c.pending || IsDone(c, peer, left, m))
    && (forall m | m in pending ::
          pending[m] == if IsDone(c, peer, left, m) then c.files[EntryOf(m.inode, peer)].parent else c.pending[m])
  }

  lemma AllMarked(c: Cache, peer: Peer, pending: map<Unseen, Inode>)
    requires MarkedBut(c, peer, {}, pending)
    ensures pending == MarkAll(c, peer).pending
  {
    forall m ensures IsDone(c, peer, {}, m) <==> m in FilesOf(c, peer) {
      if IsDone(c, peer, {}, m) {
        assert Unseen(peer, EntryOf(m.inode, peer).inode) in FilesOf(c, peer);
      }
    }
  }

  lemma OneMarked(c: Cache, peer: Peer, left: set<FileKey>, pending: map<Unseen, Inode>, k: FileKey)
    requires MarkedBut(c, peer, left, pending) && k in left && k in c.files
    ensures MarkedBut(c, peer, left - {k},
                      if k.who == Of(peer) then pending[Unseen(peer, k.inode) := c.files[k].parent] else pending)
  {
    assert k.who == Of(peer) ==> k == EntryOf(k.inode, peer);
    forall m | m != Unseen(peer, k.inode) ensures IsDone(c, peer, left - {k}, m) <==> IsDone(c, peer, left, m) {
    }
  }

  /** The peer's files, one after the other, with their parents, on top of the marks that are there. */
  method WithPeerFiles(c: Cache, peer: Peer) returns (pending: map<Unseen, Inode>)
    ensures pending == MarkAll(c, peer).pending
  {
    pending := c.pending;
    var left := c.files.Keys;
    while left != {}
      invariant left <= c.files.Keys && MarkedBut(c, peer, left, pending)
      decreases |left|
    {
      var k :| k in left;
      OneMarked(c, peer, left, pending, k);
      left := left - {k};
      if k.who == Of(peer) {
        pending := pending[Unseen(peer, k.inode) := c.files[k].parent];
      }
    }
    AllMarked(c, peer, pending);
  }

  class ArenaCache {
    const db: ArenaDatabase
    const dirtyPaths: DirtyPaths
    const blobstore: Blobstore

    constructor (db: ArenaDatabase)
      ensures this.db == db && Valid()
    {
      this.db := db;
      dirtyPaths := new DirtyPaths(db);
      blobstore := new Blobstore(db);
    }

    ghost predicate Valid() {
      dirtyPaths.db == db && blobstore.db == db
    }

    method WriteFileEntry(inode: Inode, peer: Peer, e: FileEntry)
      modifies db`files
      ensures db.files == old(db.files)[EntryOf(inode, peer) := e]
    {
      db.files := db.files[EntryOf(inode, peer) := e];
    }

    /** The old default entry takes its blob along, and the change is reported. */
    method WriteDefaultFileEntry(inode: Inode, e: FileEntry)
      requires Valid()
      modifies db`files, db`blobs, db`dirty, db`dirtyLog, db`dirtyCounter, db`failedJobs
      ensures db.Contents() == WriteDefault(old(db.Contents()), inode, e)
    {
      var key := DefaultOf(inode);
      if key in db.files && db.files[key].blob.Some? {
        db.blobs := db.blobs - {db.files[key].blob.value};
      }
      dirtyPaths.MarkDirty(e.path);
      db.files := db.files[key := e];
    }

    /** Nobody else has the file. */
    method RemoveLastEntry(parent: Inode, inode: Inode, peer: Peer)
      requires Valid() && EntryOf(inode, peer) in db.files
      modifies db`tree, db`files, db`blobs, db`dirty, db`dirtyLog, db`dirtyCounter, db`failedJobs
      ensures db.Contents() == RemoveLast(old(db.Contents()), parent, inode, peer)
    {
      var key := EntryOf(inode, peer);
      var path := LastPath(db.Contents(), inode, peer);
      db.files := db.files - {key};
      dirtyPaths.MarkDirty(path);
      if DefaultOf(inode) in db.files && db.files[DefaultOf(inode)].blob.Some? {
        db.blobs := db.blobs - {db.files[DefaultOf(inode)].blob.value};
      }
      db.files := db.files - {DefaultOf(inode)};
      db.tree := RemoveEntry(db.tree, parent, inode);
      assert db.files == old(db.files) - {key, DefaultOf(inode)};
    }

    method RemoveFileEntry(parent: Inode, inode: Inode, peer: Peer, expected: Option<Hash>) returns (ghost hint: Peer)
      requires Valid()
      modifies db`tree, db`files, db`blobs, db`dirty, db`dirtyLog, db`dirtyCounter, db`failedJobs
      ensures db.Contents() == RmFileEntry(old(db.Contents()), parent, inode, peer, expected, hint)
    {
      hint := peer;
      var c := db.Contents();
      var key := EntryOf(inode, peer);
      if key !in db.files {
        return;
      }
      if expected.Some? && db.files[key].version.hash != expected.value {
        return;
      }
      var others := Holders(c, inode) - {peer};
      if others == {} {
        RemoveLastEntry(parent, inode, peer);
        return;
      }
      OthersHaveEntries(c, inode, peer);
      db.files := db.files - {key};
      if DefaultOf(inode) in db.files {
        var held := AnyHolds(c, inode, others, db.files[DefaultOf(inode)].version.hash);
        if held {
          return;
        }
      }
      var recent := MostRecent(c, inode, others);
      hint := recent;
      WriteDefaultFileEntry(inode, c.files[EntryOf(inode, recent)]);
    }

    /** Finds or makes the file's name. */
    method CreateFileAt(path: Path) returns (r: Result<(Inode, Inode), StorageError>)
      modifies db`tree
      ensures match Locate(old(db.Contents()), path)
              case Err(e) => r == Err(e) && unchanged(db)
              case Ok(at) => r == Ok((at.parent, at.inode)) && db.Contents() == at.cache
    {
      var dirs := MakeDirs(db.tree, Parent(path));
      match dirs {
        case Err(e) => r := Err(e);
        case Ok((t, parent)) =>
          var key := Key(parent, Name(path));
          if key !in t.dirs {
            db.tree := AddEntry(t, key, File);
            r := Ok((parent, t.next));
          } else if t.dirs[key].kind != File {
            r := Err(IsADirectory);
          } else {
            db.tree := t;
            r := Ok((parent, t.dirs[key].inode));
          }
      }
    }

    method UnlinkFile(peer: Peer, path: Path, oldHash: Hash)
      returns (r: Result<(), StorageError>, ghost hint: Inode -> Peer)
      requires Valid()
      modifies db`tree, db`files, db`blobs, db`dirty, db`dirtyLog, db`dirtyCounter, db`failedJobs
      ensures match Unlink(old(db.Contents()), peer, path, oldHash, hint)
              case Err(e) => r == Err(e) && unchanged(db)
              case Ok(c) => r.Ok? && db.Contents() == c
    {
      hint := i => peer;
      var parent := MarkDirty.FindPath(db.tree, Parent(path));
      if parent.Err? {
        return Err(parent.error), hint;
      }
      if parent.value.kind != Directory {
        return Err(NotADirectory), hint;
      }
      var key := Key(parent.value.inode, Name(path));
      if key !in db.tree.dirs {
        return Err(NotFound), hint;
      }
      if db.tree.dirs[key].kind != File {
        return Err(IsADirectory), hint;
      }
      ghost var h := RemoveFileEntry(parent.value.inode, db.tree.dirs[key].inode, peer, Some(oldHash));
      hint := i => h;
      r := Ok(());
    }

    /** Marks every file of the peer as not seen yet. */
    method MarkPeerFiles(peer: Peer)
      modifies db`pendingCatchup
      ensures db.Contents() == MarkAll(old(db.Contents()), peer)
    {
      var pending := WithPeerFiles(db.Contents(), peer);
      db.pendingCatchup := pending;
    }

    /** Takes the marks away, one after the other, each with the entry it stands for. */
    method DeleteMarkedFiles(peer: Peer) returns (ghost hint: Inode -> Peer, ghost order: seq<Inode>)
      requires Valid()
      modifies db`tree, db`files, db`pendingCatchup, db`blobs, db`dirty, db`dirtyLog, db`dirtyCounter, db`failedJobs
      ensures forall i :: i in Marked(old(db.Contents()), peer) <==> i in order
      ensures db.Contents() == Sweep(old(db.Contents()), peer, order, hint)
    {
      ghost var c := db.Contents();
      var left := Marked(db.Contents(), peer);
      ghost var hints := map[];
      order := [];
      while left != {}
        invariant forall i :: i in Marked(c, peer) <==> i in order || i in left
        invariant forall i | i in order :: i !in left
        invariant db.Contents() == Sweep(c, peer, order, HintOf(hints))
        decreases |left|
      {
        var i :| i in left;
        left := left - {i};
        StillMarked(c, peer, order, HintOf(hints), i);
        var parent := db.pendingCatchup[Unseen(peer, i)];
        db.pendingCatchup := db.pendingCatchup - {Unseen(peer, i)};
        ghost var h := RemoveFileEntry(parent, i, peer, None);
        SweepNext(c, peer, order, hints, i, h);
        order, hints := order + [i], hints[i := h];
      }
      hint := HintOf(hints);
    }

    /** What `Add`, `Replace` and `Catchup` do once the path has its inode. */
    method WriteReceived(parent: Inode, inode: Inode, peer: Peer, n: Notification)
      requires Valid() && (n.Add? || n.Replace? || n.Catchup?)
      modifies db`files, db`pendingCatchup, db`blobs, db`dirty, db`dirtyLog, db`dirtyCounter, db`failedJobs
      ensures db.Contents() == Received(Place(old(db.Contents()), parent, inode), peer, n)
    {
      var key, e := EntryOf(inode, peer), FileEntry(n.path, n.version, parent, None);
      match n {
        case Add(_, _) =>
          if key !in db.files {
            WriteFileEntry(inode, peer, e);
            if DefaultOf(inode) !in db.files {
              WriteDefaultFileEntry(inode, e);
            }
          }
        case Replace(_, _, oldHash) =>
          if HasHash(db.Contents(), DefaultOf(inode), oldHash) {
            WriteFileEntry(inode, peer, e);
            WriteDefaultFileEntry(inode, e);
          } else if HasHash(db.Contents(), key, oldHash) {
            WriteFileEntry(inode, peer, e);
          }
        case Catchup(_, _) =>
          db.pendingCatchup := db.pendingCatchup - {Unseen(peer, inode)};
          WriteFileEntry(inode, peer, e);
          if DefaultOf(inode) !in db.files {
            WriteDefaultFileEntry(inode, e);
          }
      }
    }

    method ReceiveFile(peer: Peer, n: Notification) returns (r: Result<(), StorageError>)
      requires Valid() && (n.Add? || n.Replace? || n.Catchup?)
      modifies db`tree, db`files, db`pendingCatchup, db`blobs, db`dirty, db`dirtyLog, db`dirtyCounter, db`failedJobs
      ensures match Receive(old(db.Contents()), peer, n)
              case Err(e) => r == Err(e) && unchanged(db)
              case Ok(c) => r.Ok? && db.Contents() == c
    {
      var made := CreateFileAt(n.path);
      match made {
        case Err(e) => r := Err(e);
        case Ok((parent, inode)) =>
          WriteReceived(parent, inode, peer, n);
          r := Ok(());
      }
    }

    /** One notification, in one transaction, which changes nothing if it fails. */
    method HandleNotification(peer: Peer, n: Notification)
      returns (r: Result<(), StorageError>, ghost hint: Inode -> Peer, ghost order: seq<Inode>)
      requires Valid()
      modifies db`tree, db`files, db`pendingCatchup, db`blobs, db`dirty, db`dirtyLog, db`dirtyCounter, db`failedJobs
      ensures Possible(old(db.Contents()), peer, n, order)
      ensures match Update(old(db.Contents()), peer, n, hint, order)
              case Err(e) => r == Err(e) && unchanged(db)
              case Ok(c) => r.Ok? && db.Contents() == c
    {
      hint, order := i => peer, [];
      match n {
        case Add(_, _) => r := ReceiveFile(peer, n);
        case Replace(_, _, _) => r := ReceiveFile(peer, n);
        case Catchup(_, _) => r := ReceiveFile(peer, n);
        case Remove(path, oldHash) => r, hint := UnlinkFile(peer, path, oldHash);
        case Drop(path, oldHash) => r, hint := UnlinkFile(peer, path, oldHash);
        case CatchupStart =>
          MarkPeerFiles(peer);
          r := Ok(());
        case CatchupComplete =>
          hint, order := DeleteMarkedFiles(peer);
          r := Ok(());
      }
    }

    /** A handle on the blob of the version shown; the blob is made if need be. */
    method Open(inode: Inode) returns (r: Result<Blob, StorageError>)
      requires Valid() && CacheInvariant.AreasWellFormed(db.blobs)
      modifies db`files, db`blobs
      ensures match OpenFile(old(db.Contents()), inode)
              case Err(e) => r == Err(e) && unchanged(db)
              case Ok(c) =>
                && r.Ok? && db.Contents() == c && fresh(r.value) && r.value.Valid() && r.value.store == blobstore
                && c.files[DefaultOf(inode)].blob == Some(r.value.id)
                && r.value.Value() == Handle(c.blobs[r.value.id].written, [], 0)
    {
      var key := DefaultOf(inode);
      if key !in db.files {
        return Err(NotFound);
      }
      var e := db.files[key];
      if e.blob.Some? {
        if e.blob.value !in db.blobs {
          return Err(NotFound);
        }
        var handle := new Blob(e.blob.value, e, db.blobs[e.blob.value], blobstore);
        return Ok(handle);
      }
      var id := blobstore.CreateEntry(NEW_BLOB);
      db.files := db.files[key := e.(blob := Some(id))];
      var made := new Blob(id, e, NEW_BLOB, blobstore);
      r := Ok(made);
    }

    /** Gives the verified blob of the version `hash` away. */
    method MoveBlob(path: Path, hash: Hash) returns (r: Result<bool, StorageError>)
      requires Valid()
      modifies db`files, db`blobs
      ensures match MoveBlobIfMatches(old(db.Contents()), path, hash)
              case Err(e) => r == Err(e) && unchanged(db)
              case Ok((c, moved)) => r == Ok(moved) && db.Contents() == c
    {
      var at := MarkDirty.FindPath(db.tree, Some(path));
      if at.Err? {
        return Err(at.error);
      }
      var key := DefaultOf(at.value.inode);
      if key !in db.files {
        return Err(NotFound);
      }
      var e := db.files[key];
      if e.version.hash != hash {
        return Ok(false);
      }
      if e.blob.None? || e.blob.value !in db.blobs {
        return Err(NotFound);
      }
      if db.blobs[e.blob.value].contentHash != Some(hash) {
        return Ok(false);
      }
      db.blobs := db.blobs - {e.blob.value};
      db.files := db.files[key := e.(blob := None)];
      r := Ok(true);
    }

    /** Declares the blob of the version `hash` complete. */
    method MoveIntoBlob(path: Path, hash: Hash) returns (r: Result<bool, StorageError>)
      requires Valid()
      modifies db`files, db`blobs
      ensures match MoveIntoBlobIfMatches(old(db.Contents()), path, hash)
              case Err(e) => r == Err(e) && unchanged(db)
              case Ok((c, moved)) => r == Ok(moved) && db.Contents() == c
    {
      var at := MarkDirty.FindPath(db.tree, Some(path));
      if at.Err? {
        return if at.error == NotFound then Ok(false) else Err(at.error);
      }
      var key := DefaultOf(at.value.inode);
      if key !in db.files {
        return Err(NotFound);
      }
      var e := db.files[key];
      if e.version.hash != hash {
        return Ok(false);
      }
      var whole := ByteRangeSets.SingleOf(0, e.version.size);
      if e.blob.Some? {
        var id := e.blob.value;
        if id !in db.blobs {
          return Err(NotFound);
        }
        db.blobs := db.blobs[id := db.blobs[id].(written := whole)];
        db.files := db.files[key := e.(blob := Some(id))];
        return Ok(true);
      }
      var id := blobstore.CreateEntry(NEW_BLOB.(written := whole));
      db.files := db.files[key := e.(blob := Some(id))];
      r := Ok(true);
    }
  }
}
