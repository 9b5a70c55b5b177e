/** The per-arena cache of remote files: what each transaction makes of the tables. */
module Cache {
  import opened Common
  import opened Paths
  import opened Directory
  import DirtyLog
  import opened Ranges
  import ByteRangeSets

  type Peer = string
  type BlobId = nat

  /** Content hashes; they are only ever compared. */
  type Hash = nat

  datatype Version = Version(size: u64, mtime: nat, hash: Hash)

  datatype FileEntry = FileEntry(path: Path, version: Version, parent: Inode, blob: Option<BlobId>)

  /** An inode has one entry for each peer that holds the file, and the default one that is shown. */
  datatype Slot = Default | Of(peer: Peer)

  datatype FileKey = FileKey(inode: Inode, who: Slot)

  datatype BlobEntry = BlobEntry(written: Boundaries, contentHash: Option<Hash>)

  datatype Unseen = Unseen(peer: Peer, inode: Inode)

  /** `pending` holds the files that a peer in catchup has not reported yet, with their parent. */
  datatype Cache = Cache(
    tree: Tree,
    files: map<FileKey, FileEntry>,
    pending: map<Unseen, Inode>,
    blobs: map<BlobId, BlobEntry>,
    log: DirtyLog.Log)

  function DefaultOf(inode: Inode): FileKey {
    FileKey(inode, Default)
  }

  function EntryOf(inode: Inode, peer: Peer): FileKey {
    FileKey(inode, Of(peer))
  }

  predicate Shown(c: Cache, inode: Inode) {
    DefaultOf(inode) in c.files
  }

  predicate HasHash(c: Cache, key: FileKey, hash: Hash) {
    key in c.files && c.files[key].version.hash == hash
  }

  // ---------------------------------------------------------------------
  // Entries
  // ---------------------------------------------------------------------

  /** The blob table without the blob of the default entry of `inode`. */
  function BlobsWithout(c: Cache, inode: Inode): map<BlobId, BlobEntry> {
    if DefaultOf(inode) in c.files && c.files[DefaultOf(inode)].blob.Some?
    then c.blobs - {c.files[DefaultOf(inode)].blob.value}
    else c.blobs
  }

  function WriteDefault(c: Cache, inode: Inode, e: FileEntry): Cache {
    c.(files := c.files[DefaultOf(inode) := e],
       blobs := BlobsWithout(c, inode),
       log := DirtyLog.MarkDirty(c.log, e.path))
  }

  /** Writes a peer's entry and, if `visible`, the default entry too. */
  function Install(c: Cache, inode: Inode, peer: Peer, e: FileEntry, visible: bool): Cache {
    var c1 := c.(files := c.files[EntryOf(inode, peer) := e]);
    if visible then WriteDefault(c1, inode, e) else c1
  }

  /** The peers with an entry for `inode`. */
  function Holders(c: Cache, inode: Inode): set<Peer> {
    set k | k in c.files && k.inode == inode && k.who.Of? :: k.who.peer
  }

  lemma HoldersMember(c: Cache, inode: Inode, peer: Peer)
    ensures peer in Holders(c, inode) <==> EntryOf(inode, peer) in c.files
  {
    if EntryOf(inode, peer) in c.files {
      assert EntryOf(inode, peer).who.peer in Holders(c, inode);
    }
  }

  ghost predicate Newest(c: Cache, inode: Inode, peers: set<Peer>, p: Peer) {
    && p in peers && EntryOf(inode, p) in c.files
    && forall q | q in peers && EntryOf(inode, q) in c.files ::
         c.files[EntryOf(inode, q)].version.mtime <= c.files[EntryOf(inode, p)].version.mtime
  }

  lemma {:induction false} NewestExists(c: Cache, inode: Inode, peers: set<Peer>) returns (p: Peer)
    requires peers != {} && forall q | q in peers :: EntryOf(inode, q) in c.files
    ensures Newest(c, inode, peers, p)
    decreases |peers|
  {
    p :| p in peers;
    var rest := peers - {p};
    assert peers == rest + {p};
    if rest != {} {
      var q := NewestExists(c, inode, rest);
      if c.files[EntryOf(inode, q)].version.mtime > c.files[EntryOf(inode, p)].version.mtime {
        p := q;
      }
    }
  }

  lemma SomeNewest(c: Cache, inode: Inode, peers: set<Peer>)
    requires peers != {} && forall q | q in peers :: EntryOf(inode, q) in c.files
    ensures exists p :: Newest(c, inode, peers, p)
  {
    var p := NewestExists(c, inode, peers);
  }

  /** One of the newest entries: the hinted one if it is among them. */
  ghost function Successor(c: Cache, inode: Inode, peers: set<Peer>, hint: Peer): (p: Peer)
    requires peers != {} && forall q | q in peers :: EntryOf(inode, q) in c.files
    ensures Newest(c, inode, peers, p)
    ensures Newest(c, inode, peers, hint) ==> p == hint
  {
    SomeNewest(c, inode, peers);
    if Newest(c, inode, peers, hint) then hint
    else
      var p :| Newest(c, inode, peers, p);
      p
  }

  ghost predicate HashHeld(c: Cache, inode: Inode, peers: set<Peer>, hash: Hash) {
    exists p | p in peers :: EntryOf(inode, p) in c.files && c.files[EntryOf(inode, p)].version.hash == hash
  }

  /** The path under which the last entries of `inode` are marked dirty. */
  function LastPath(c: Cache, inode: Inode, peer: Peer): Path
    requires EntryOf(inode, peer) in c.files
  {
    if DefaultOf(inode) in c.files then c.files[DefaultOf(inode)].path else c.files[EntryOf(inode, peer)].path
  }

  /** The last peer's entry goes, and with it the default entry, its blob and its name. */
  function RemoveLast(c: Cache, parent: Inode, inode: Inode, peer: Peer): Cache
    requires EntryOf(inode, peer) in c.files
  {
    Cache(RemoveEntry(c.tree, parent, inode),
          c.files - {EntryOf(inode, peer), DefaultOf(inode)},
          c.pending,
          BlobsWithout(c, inode),
          DirtyLog.MarkDirty(c.log, LastPath(c, inode, peer)))
  }

  /** Whether the version shown is held by one of `peers`. */
  ghost predicate VersionHeld(c: Cache, inode: Inode, peers: set<Peer>) {
    Shown(c, inode) && HashHeld(c, inode, peers, c.files[DefaultOf(inode)].version.hash)
  }

  /** One of several peers drops its entry; if the version shown goes with it, another one is shown. */
  ghost function RemoveOne(c: Cache, inode: Inode, peer: Peer, hint: Peer): Cache
    requires Holders(c, inode) - {peer} != {}
  {
    OthersHaveEntries(c, inode, peer);
    var others := Holders(c, inode) - {peer};
    var c1 := c.(files := c.files - {EntryOf(inode, peer)});
    if VersionHeld(c, inode, others) then c1
    else WriteDefault(c1, inode, c.files[EntryOf(inode, Successor(c, inode, others, hint))])
  }

  /** Removes a peer's entry, if it is there and has the expected hash. */
  ghost function RmFileEntry(c: Cache, parent: Inode, inode: Inode, peer: Peer, expected: Option<Hash>,
                             hint: Peer): Cache {
    var key := EntryOf(inode, peer);
    if key !in c.files || (expected.Some? && !HasHash(c, key, expected.value)) then c
    else if Holders(c, inode) - {peer} == {} then RemoveLast(c, parent, inode, peer)
    else RemoveOne(c, inode, peer, hint)
  }

  lemma OthersHaveEntries(c: Cache, inode: Inode, peer: Peer)
    ensures forall q | q in Holders(c, inode) - {peer} :: EntryOf(inode, q) in c.files
  {
    forall q | q in Holders(c, inode) - {peer} ensures EntryOf(inode, q) in c.files {
      HoldersMember(c, inode, q);
    }
  }

  // ---------------------------------------------------------------------
  // Notifications
  // ---------------------------------------------------------------------

  datatype Notification =
    | Add(path: Path, version: Version)
    | Replace(path: Path, version: Version, oldHash: Hash)
    | Remove(path: Path, oldHash: Hash)
    | Drop(path: Path, oldHash: Hash)
    | CatchupStart
    | Catchup(path: Path, version: Version)
    | CatchupComplete

  datatype Place = Place(cache: Cache, parent: Inode, inode: Inode)

  /** Finds or makes the name for a path. */
  function Locate(c: Cache, path: Path): Result<Place, StorageError> {
    match CreateFile(c.tree, Components(Parent(path)), Name(path))
    case Err(e) => Err(e)
    case Ok(made) => Ok(Place(c.(tree := made.tree), made.parent, made.inode))
  }

  function Added(c: Cache, inode: Inode, peer: Peer, e: FileEntry): Cache {
    if EntryOf(inode, peer) in c.files then c else Install(c, inode, peer, e, !Shown(c, inode))
  }

  /** Replaces the version shown or, failing that, the peer's own, if it is the expected one. */
  function Replaced(c: Cache, inode: Inode, peer: Peer, e: FileEntry, oldHash: Hash): Cache {
    var current := HasHash(c, DefaultOf(inode), oldHash);
    if current || HasHash(c, EntryOf(inode, peer), oldHash) then Install(c, inode, peer, e, current) else c
  }

  function CaughtUp(c: Cache, inode: Inode, peer: Peer, e: FileEntry): Cache {
    Install(c.(pending := c.pending - {Unseen(peer, inode)}), inode, peer, e, !Shown(c, inode))
  }

  /** The outcome of `Add`, `Replace` or `Catchup` once the path has its inode. */
  function Received(at: Place, peer: Peer, n: Notification): Cache
    requires n.Add? || n.Replace? || n.Catchup?
  {
    var e := FileEntry(n.path, n.version, at.parent, None);
    match n
    case Add(_, _) => Added(at.cache, at.inode, peer, e)
    case Replace(_, _, oldHash) => Replaced(at.cache, at.inode, peer, e, oldHash)
    case Catchup(_, _) => CaughtUp(at.cache, at.inode, peer, e)
  }

  function Receive(c: Cache, peer: Peer, n: Notification): Result<Cache, StorageError>
    requires n.Add? || n.Replace? || n.Catchup?
  {
    match Locate(c, n.path)
    case Err(e) => Err(e)
    case Ok(at) => Ok(Received(at, peer, n))
  }

  ghost function Unlink(c: Cache, peer: Peer, path: Path, oldHash: Hash,
                        hint: Inode -> Peer): Result<Cache, StorageError> {
    match Lookup(c.tree, Components(Parent(path)))
    case Err(e) => Err(e)
    case Ok(parent) =>
      if parent.kind != Directory then Err(NotADirectory)
      else
        var key := Key(parent.inode, Name(path));
        if key !in c.tree.dirs then Err(NotFound)
        else if c.tree.dirs[key].kind != File then Err(IsADirectory)
        else
          var inode := c.tree.dirs[key].inode;
          Ok(RmFileEntry(c, parent.inode, inode, peer, Some(oldHash), hint(inode)))
  }

  /** Marks every file of the peer; marks left by an earlier catchup stay. */
  function MarkAll(c: Cache, peer: Peer): Cache {
    c.(pending := map m | m in c.pending.Keys + FilesOf(c, peer) ::
         if EntryOf(m.inode, m.peer) in c.files && m.peer == peer
         then c.files[EntryOf(m.inode, peer)].parent
         else if m in c.pending then c.pending[m] else 0)
  }

  function FilesOf(c: Cache, peer: Peer): set<Unseen> {
    set k | k in c.files && k.who == Of(peer) :: Unseen(peer, k.inode)
  }

  /** The inodes a peer still has marked. */
  function Marked(c: Cache, peer: Peer): set<Inode> {
    set m | m in c.pending && m.peer == peer :: m.inode
  }

  /** Takes one mark of the peer away together with the entry it stands for. */
  ghost function SweepOne(c: Cache, peer: Peer, inode: Inode, hint: Inode -> Peer): Cache {
    var m := Unseen(peer, inode);
    if m !in c.pending then c
    else RmFileEntry(c.(pending := c.pending - {m}), c.pending[m], inode, peer, None, hint(inode))
  }

  ghost function Sweep(c: Cache, peer: Peer, order: seq<Inode>, hint: Inode -> Peer): Cache {
    if order == [] then c
    else SweepOne(Sweep(c, peer, order[..|order| - 1], hint), peer, order[|order| - 1], hint)
  }

  /**
   * One notification, as one transaction. `hint` says which entry a scan of the others meets first
   * among the newest, and `order` in which order marked files are swept; both are free.
   */
  ghost function Update(c: Cache, peer: Peer, n: Notification, hint: Inode -> Peer,
                        order: seq<Inode>): Result<Cache, StorageError>
  {
    match n
    case Add(_, _) => Receive(c, peer, n)
    case Replace(_, _, _) => Receive(c, peer, n)
    case Catchup(_, _) => Receive(c, peer, n)
    case Remove(path, oldHash) => Unlink(c, peer, path, oldHash, hint)
    case Drop(path, oldHash) => Unlink(c, peer, path, oldHash, hint)
    case CatchupStart => Ok(MarkAll(c, peer))
    case CatchupComplete => Ok(Sweep(c, peer, order, hint))
  }

  /** The order has to name every marked file. */
  ghost predicate Possible(c: Cache, peer: Peer, n: Notification, order: seq<Inode>) {
    n.CatchupComplete? ==> forall i :: i in Marked(c, peer) <==> i in order
  }

  // ---------------------------------------------------------------------
  // Blobs
  // ---------------------------------------------------------------------

  ghost predicate LastKey(blobs: map<BlobId, BlobEntry>, id: BlobId) {
    id in blobs && forall j | j in blobs :: j <= id
  }

  lemma {:induction false} LastKeyExists(blobs: map<BlobId, BlobEntry>, keys: set<BlobId>) returns (id: BlobId)
    requires keys == blobs.Keys && keys != {}
    ensures LastKey(blobs, id)
    decreases |keys|
  {
    id :| id in keys;
    var rest := blobs - {id};
    assert rest.Keys == keys - {id} && keys == rest.Keys + {id};
    if rest.Keys != {} {
      var j := LastKeyExists(rest, rest.Keys);
      if j > id { id := j; }
    }
  }

  lemma SomeLastKey(blobs: map<BlobId, BlobEntry>)
    requires blobs.Keys != {}
    ensures exists id :: LastKey(blobs, id)
  {
    var id := LastKeyExists(blobs, blobs.Keys);
  }

  /** One more than the last key. */
  ghost function FreshId(blobs: map<BlobId, BlobEntry>): (id: BlobId)
    ensures id !in blobs
  {
    if blobs.Keys == {} then 1
    else
      SomeLastKey(blobs);
      var last: BlobId :| LastKey(blobs, last);
      last + 1
  }

  const NEW_BLOB := BlobEntry([], None)

  /** The default entry of `inode` gets the blob `id`. */
  function WithBlob(c: Cache, inode: Inode, id: BlobId, b: BlobEntry): Cache
    requires DefaultOf(inode) in c.files
  {
    var key := DefaultOf(inode);
    c.(files := c.files[key := c.files[key].(blob := Some(id))], blobs := c.blobs[id := b])
  }

  /** Makes the blob of the version shown, if it has none yet. */
  ghost function OpenFile(c: Cache, inode: Inode): Result<Cache, StorageError> {
    if DefaultOf(inode) !in c.files then Err(NotFound)
    else
      match c.files[DefaultOf(inode)].blob
      case Some(id) => if id in c.blobs then Ok(c) else Err(NotFound)
      case None => Ok(WithBlob(c, inode, FreshId(c.blobs), NEW_BLOB))
  }

  /** Takes the blob of the version shown away, if its content was verified to be `hash`. */
  function MoveBlobIfMatches(c: Cache, path: Path, hash: Hash): Result<(Cache, bool), StorageError> {
    match Lookup(c.tree, Split(path))
    case Err(e) => Err(e)
    case Ok(at) =>
      var key := DefaultOf(at.inode);
      if key !in c.files then Err(NotFound)
      else if c.files[key].version.hash != hash then Ok((c, false))
      else
        match c.files[key].blob
        case None => Err(NotFound)
        case Some(id) =>
          if id !in c.blobs then Err(NotFound)
          else if c.blobs[id].contentHash != Some(hash) then Ok((c, false))
          else Ok((c.(files := c.files[key := c.files[key].(blob := None)], blobs := c.blobs - {id}), true))
  }

  /** Declares the blob of the version shown complete, making the blob if need be. */
  ghost function MoveIntoBlobIfMatches(c: Cache, path: Path, hash: Hash): Result<(Cache, bool), StorageError> {
    match Lookup(c.tree, Split(path))
    case Err(e) => if e == NotFound then Ok((c, false)) else Err(e)
    case Ok(at) =>
      var key := DefaultOf(at.inode);
      if key !in c.files then Err(NotFound)
      else if c.files[key].version.hash != hash then Ok((c, false))
      else
        var whole := ByteRangeSets.SingleOf(0, c.files[key].version.size);
        match c.files[key].blob
        case None => Ok((WithBlob(c, at.inode, FreshId(c.blobs), NEW_BLOB.(written := whole)), true))
        case Some(id) =>
          if id !in c.blobs then Err(NotFound)
          else Ok((WithBlob(c, at.inode, id, c.blobs[id].(written := whole)), true))
  }

  function Extended(blobs: map<BlobId, BlobEntry>, id: BlobId, areas: Boundaries): map<BlobId, BlobEntry>
    requires id in blobs
  {
    blobs[id := blobs[id].(written := ByteRangeSets.UnionOf(blobs[id].written, areas))]
  }

  function ExtendLocalAvailability(c: Cache, id: BlobId, areas: Boundaries): Result<Cache, StorageError> {
    if id !in c.blobs then Err(NotFound) else Ok(c.(blobs := Extended(c.blobs, id, areas)))
  }

  function SetContentHash(c: Cache, id: BlobId, hash: Hash): Result<Cache, StorageError> {
    if id !in c.blobs then Err(NotFound)
    else Ok(c.(blobs := c.blobs[id := c.blobs[id].(contentHash := Some(hash))]))
  }

  // ---------------------------------------------------------------------
  // Runs
  // ---------------------------------------------------------------------

  datatype Action =
    | Notify(peer: Peer, n: Notification, hint: Inode -> Peer, order: seq<Inode>)
    | Open(inode: Inode)
    | MoveOut(path: Path, hash: Hash)
    | MoveIn(path: Path, hash: Hash)
    | Extend(id: BlobId, areas: Boundaries)
    | Verify(id: BlobId, hash: Hash)
    | LogOp(op: DirtyLog.Op, strategy: DirtyLog.Strategy)

  ghost predicate Enabled(c: Cache, a: Action) {
    && (a.Notify? ==> Possible(c, a.peer, a.n, a.order))
    && (a.Extend? ==> WellFormed(a.areas))
    && (a.LogOp? ==> DirtyLog.Enabled(c.log, a.op))
  }

  ghost function Act(c: Cache, a: Action): Result<Cache, StorageError>
    requires Enabled(c, a)
  {
    match a
    case Notify(peer, n, hint, order) => Update(c, peer, n, hint, order)
    case Open(inode) => OpenFile(c, inode)
    case MoveOut(path, hash) => Committed(MoveBlobIfMatches(c, path, hash))
    case MoveIn(path, hash) => Committed(MoveIntoBlobIfMatches(c, path, hash))
    case Extend(id, areas) => ExtendLocalAvailability(c, id, areas)
    case Verify(id, hash) => SetContentHash(c, id, hash)
    case LogOp(op, strategy) => Ok(c.(log := DirtyLog.Apply(c.log, op, strategy)))
  }

  function Committed(r: Result<(Cache, bool), StorageError>): Result<Cache, StorageError> {
    match r
    case Err(e) => Err(e)
    case Ok((c, _)) => Ok(c)
  }

  /** A transaction that fails changes nothing. */
  ghost function After(c: Cache, a: Action): Cache
    requires Enabled(c, a)
  {
    match Act(c, a)
    case Err(_) => c
    case Ok(d) => d
  }

  ghost predicate StepAt(states: seq<Cache>, actions: seq<Action>, i: nat)
    requires i < |actions| && |states| == |actions| + 1
  {
    Enabled(states[i], actions[i]) && states[i + 1] == After(states[i], actions[i])
  }

  ghost predicate Run(states: seq<Cache>, actions: seq<Action>) {
    && |states| == |actions| + 1
    && forall i | 0 <= i < |actions| :: StepAt(states, actions, i)
  }

  predicate Initial(c: Cache) {
    c.files == map[] && c.pending == map[] && c.blobs == map[] && c.log == DirtyLog.EMPTY
    && c.tree.dirs == map[] && c.tree.root < c.tree.next
  }
}
