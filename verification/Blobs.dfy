/** Blobs: locally stored parts of cached files, and the handles that read and write them. */
module Blobs {
  import opened Common
  import opened Ranges
  import opened ByteRangeSets
  import opened Directory
  import opened Cache
  import opened CacheInvariant
  import opened Database

  // ---------------------------------------------------------------------
  // What is available of a file
  // ---------------------------------------------------------------------

  datatype Availability =
    | Missing
    | Partial(size: u64, areas: Boundaries)
    | Complete
    | Verified

  function LocalAvailability(blobs: map<BlobId, BlobEntry>, e: FileEntry): Result<Availability, StorageError> {
    match e.blob
    case None => Ok(Missing)
    case Some(id) =>
      if id !in blobs then Err(NotFound)
      else
        var b := blobs[id];
        var whole := SingleOf(0, e.version.size);
        if whole == IntersectionOf(whole, b.written) then
          Ok(if b.contentHash == Some(e.version.hash) then Verified else Complete)
        else if b.written == [] then Ok(Missing)
        else Ok(Partial(e.version.size, b.written))
  }

  ghost predicate WholeFile(areas: Boundaries, size: nat) {
    forall x: nat | x < size :: Covers(areas, x)
  }

  /** Intersecting with a file's range gives it back exactly when all of it is covered. */
  lemma WholeIntersection(areas: Boundaries, size: u64)
    requires WellFormed(areas)
    ensures SingleOf(0, size) == IntersectionOf(SingleOf(0, size), areas) <==> WholeFile(areas, size)
  {
    var whole := SingleOf(0, size);
    SingleIsExact(0, size);
    IntersectionIsExact(whole, areas);
    Canonical(whole, IntersectionOf(whole, areas));
    if whole == IntersectionOf(whole, areas) {
      forall x: nat | x < size ensures Covers(areas, x) {
        assert Covers(whole, x);
      }
    }
  }

  lemma EmptyIsNothing(areas: Boundaries)
    requires WellFormed(areas)
    ensures areas == [] <==> forall x: nat :: !Covers(areas, x)
  {
    if areas != [] {
      var x: nat := areas[0].at;
      assert Covers(areas, x);
      assert exists y: nat :: Covers(areas, y);
    }
  }

  /** The answer is what the written areas say: all of the file, none of it, or some. */
  lemma AvailabilityIsExact(blobs: map<BlobId, BlobEntry>, e: FileEntry)
    requires AreasWellFormed(blobs) && (e.blob.Some? ==> e.blob.value in blobs)
    ensures LocalAvailability(blobs, e).Ok?
    ensures var r := LocalAvailability(blobs, e).value;
            && ((r.Complete? || r.Verified?) <==>
               e.blob.Some? && WholeFile(blobs[e.blob.value].written, e.version.size))
            && (r.Verified? ==> blobs[e.blob.value].contentHash == Some(e.version.hash))
            && (r.Complete? ==> blobs[e.blob.value].contentHash != Some(e.version.hash))
            && (r.Missing? <==>
               e.blob.None? || (e.version.size > 0 && forall x: nat :: !Covers(blobs[e.blob.value].written, x)))
            && (r.Partial? ==> r == Partial(e.version.size, blobs[e.blob.value].written))
  {
    if e.blob.Some? {
      WholeIntersection(blobs[e.blob.value].written, e.version.size);
      assert e.version.size > 0 && WholeFile(blobs[e.blob.value].written, e.version.size) ==>
             Covers(blobs[e.blob.value].written, 0);
      EmptyIsNothing(blobs[e.blob.value].written);
    }
  }

  // ---------------------------------------------------------------------
  // One handle
  // ---------------------------------------------------------------------

  /** What can be read, what was written and not yet stored, and the position. */
  datatype Handle = Handle(available: Boundaries, pending: Boundaries, offset: u64)

  /** How much of `len` bytes can be read at `offset`; nothing means that reading fails. */
  function ReadableLength(available: Boundaries, size: u64, offset: u64, len: nat): Option<nat>
    requires WellFormed(available)
  {
    if len == 0 || offset >= size then Some(0)
    else
      ContainingRangeIsExact(available, offset);
      match ContainingRange(available, offset)
      case None => None
      case Some(r) => Some(if len < r.end - offset then len else r.end - offset)
  }

  ghost predicate AllCovered(available: Boundaries, start: nat, end: nat) {
    forall x: nat | start <= x < end :: Covers(available, x)
  }

  /** Only available bytes are read, as many as there are in a row, up to the number asked for. */
  lemma ReadableLengthIsExact(available: Boundaries, size: u64, offset: u64, len: nat)
    requires WellFormed(available)
    ensures var n := ReadableLength(available, size, offset, len);
            && (n.None? <==> len > 0 && offset < size && !Covers(available, offset))
            && (n.Some? ==> n.value <= len && AllCovered(available, offset, offset + n.value))
            && (n.Some? && n.value < len && offset < size ==> n.value > 0 && !Covers(available, offset + n.value))
  {
    ContainingRangeIsExact(available, offset);
  }

  /**
   * What can happen to a handle and to the areas stored for its blob. Storing the pending ranges
   * fails before anything is taken, or in the database if the blob is gone, or because the thread
   * that does it dies, after it was done or before. Other handles store areas, too. The blob may be
   * dropped under the handle, its id may then be handed out again, and data may be moved into it.
   */
  datatype Event =
    | Write(len: nat)
    | Seek(pos: u64)
    | StoreOk
    | FlushFails
    | StoreFails
    | TaskLost(done: bool)
    | Elsewhere(areas: Boundaries)
    | Dropped
    | HandedOut(areas: Boundaries)
    | Overwritten(areas: Boundaries)
    | Nothing

  /** `stored` are the areas that the table has for the blob's id, if it has any. */
  datatype Opened = Opened(handle: Handle, stored: Option<Boundaries>)

  ghost predicate CanHappen(o: Opened, e: Event) {
    match e
    case Write(len) => o.handle.offset + len <= U64_MAX
    case StoreOk => o.stored.Some?
    case StoreFails => o.stored.None?
    case TaskLost(done) => done ==> o.stored.Some?
    case Elsewhere(areas) => o.stored.Some? && WellFormed(areas)
    case Dropped => o.stored.Some?
    case HandedOut(areas) => o.stored.None? && WellFormed(areas)
    case Overwritten(areas) => o.stored.Some? && WellFormed(areas)
    case _ => true
  }

  function WithBytes(b: Boundaries, offset: u64, len: nat): Boundaries
    requires offset + len <= U64_MAX
  {
    if len == 0 then b else ByteRangeSets.Added(b, ByteRange(offset, offset + len))
  }

  lemma WithBytesIsExact(b: Boundaries, offset: u64, len: nat)
    requires WellFormed(b) && offset + len <= U64_MAX
    ensures WellFormed(WithBytes(b, offset, len))
    ensures forall x: nat :: Covers(WithBytes(b, offset, len), x) <==> Covers(b, x) || offset <= x < offset + len
  {
    if len > 0 {
      AddedIsExact(b, ByteRange(offset, offset + len));
    }
  }

  function Writing(h: Handle, len: nat): Handle
    requires h.offset + len <= U64_MAX
  {
    Handle(WithBytes(h.available, h.offset, len), WithBytes(h.pending, h.offset, len), h.offset + len)
  }

  function Happened(o: Opened, e: Event): Opened
    requires CanHappen(o, e)
  {
    var h := o.handle;
    match e
    case Write(len) => o.(handle := Writing(h, len))
    case Seek(pos) => o.(handle := h.(offset := pos))
    case StoreOk => Sent(o, true)
    case FlushFails => o
    case StoreFails => o
    case TaskLost(done) => Sent(o, done)
    case Elsewhere(areas) => o.(stored := Some(UnionOf(o.stored.value, areas)))
    case Dropped => o.(stored := None)
    case HandedOut(areas) => o.(stored := Some(areas))
    case Overwritten(areas) => o.(stored := Some(areas))
    case Nothing => o
  }

  /** The pending ranges are taken out, and stored if it gets that far. */
  function Sent(o: Opened, done: bool): Opened
    requires done ==> o.stored.Some?
  {
    var h := o.handle;
    if h.pending == [] then o
    else Opened(h.(pending := []), if done then Some(UnionOf(o.stored.value, h.pending)) else o.stored)
  }

  ghost predicate HandleOk(o: Opened) {
    && WellFormed(o.handle.available) && WellFormed(o.handle.pending)
    && (o.stored.Some? ==> WellFormed(o.stored.value))
  }

  ghost predicate IsStored(o: Opened, x: nat) {
    o.stored.Some? && Covers(o.stored.value, x)
  }

  /** What is available is stored or waiting to be. */
  ghost predicate Accounted(o: Opened) {
    forall x: nat | Covers(o.handle.available, x) :: IsStored(o, x) || Covers(o.handle.pending, x)
  }

  /** The byte is available and not waiting to be stored. */
  ghost predicate Settled(h: Handle, x: nat) {
    Covers(h.available, x) && !Covers(h.pending, x)
  }

  /**
   * The ways to lose track of available bytes: the thread dies with ranges that are not stored yet,
   * the blob is dropped, or it is overwritten with something that does not have them.
   */
  ghost predicate Forgets(o: Opened, e: Event) {
    match e
    case TaskLost(done) =>
      !done && exists x: nat :: Covers(o.handle.available, x) && Covers(o.handle.pending, x) && !IsStored(o, x)
    case Dropped => exists x: nat :: Settled(o.handle, x)
    case Overwritten(areas) => exists x: nat :: Settled(o.handle, x) && !Covers(areas, x)
    case _ => false
  }

  lemma SentOk(o: Opened, done: bool)
    requires HandleOk(o) && (done ==> o.stored.Some?)
    ensures HandleOk(Sent(o, done)) && Sent(o, done).handle.available == o.handle.available
    ensures forall x: nat :: IsStored(Sent(o, done), x) <==> IsStored(o, x) || (done && Covers(o.handle.pending, x))
    ensures o.handle.pending != [] ==> forall x: nat :: !Covers(Sent(o, done).handle.pending, x)
  {
    if done {
      UnionIsExact(o.stored.value, o.handle.pending);
    }
  }

  lemma HappenedOk(o: Opened, e: Event)
    requires HandleOk(o) && CanHappen(o, e)
    ensures HandleOk(Happened(o, e))
    ensures e.Write? || Happened(o, e).handle.available == o.handle.available
  {
    match e
    case Write(len) =>
      WithBytesIsExact(o.handle.available, o.handle.offset, len);
      WithBytesIsExact(o.handle.pending, o.handle.offset, len);
    case StoreOk => SentOk(o, true);
    case TaskLost(done) => SentOk(o, done);
    case Elsewhere(areas) => UnionIsExact(o.stored.value, areas);
    case _ =>
  }

  lemma SentAccounted(o: Opened, done: bool)
    requires HandleOk(o) && Accounted(o) && (done ==> o.stored.Some?)
    ensures Accounted(Sent(o, done)) <==> !Forgets(o, TaskLost(done))
  {
    SentOk(o, done);
    if !done && o.handle.pending != [] && Accounted(Sent(o, done)) {
      forall x: nat ensures !(Covers(o.handle.available, x) && Covers(o.handle.pending, x) && !IsStored(o, x)) {
        assert Covers(o.handle.available, x) ==> IsStored(Sent(o, done), x);
      }
    }
  }

  /** Which events lose track of available bytes, and exactly when. */
  lemma HappenedAccounted(o: Opened, e: Event)
    requires HandleOk(o) && Accounted(o) && CanHappen(o, e)
    ensures Accounted(Happened(o, e)) <==> !Forgets(o, e)
  {
    var t := Happened(o, e);
    match e
    case Write(len) =>
      WithBytesIsExact(o.handle.available, o.handle.offset, len);
      WithBytesIsExact(o.handle.pending, o.handle.offset, len);
    case StoreOk => SentAccounted(o, true);
    case TaskLost(done) => SentAccounted(o, done);
    case Elsewhere(areas) =>
      UnionIsExact(o.stored.value, areas);
      assert forall x: nat :: IsStored(o, x) ==> IsStored(t, x);
    case Dropped => OnlySettled(o, t, []);
    case Overwritten(areas) => OnlySettled(o, t, areas);
    case _ =>
  }

  lemma OnlySettled(o: Opened, t: Opened, areas: Boundaries)
    requires t.handle == o.handle && (if t.stored.Some? then t.stored.value == areas else areas == [])
    ensures Accounted(t) <==> !exists x: nat :: Settled(o.handle, x) && !Covers(areas, x)
  {
    assert forall x: nat :: !Covers([], x);
    assert forall x: nat :: IsStored(t, x) <==> Covers(areas, x);
    assert forall x: nat :: Settled(o.handle, x) <==> Covers(t.handle.available, x) && !Covers(t.handle.pending, x);
  }

  ghost predicate HappensAt(states: seq<Opened>, events: seq<Event>, i: nat)
    requires i < |events| && |states| == |events| + 1
  {
    CanHappen(states[i], events[i]) && states[i + 1] == Happened(states[i], events[i])
  }

  ghost predicate HandleRun(states: seq<Opened>, events: seq<Event>) {
    && |states| == |events| + 1 && HandleOk(states[0])
    && forall i | 0 <= i < |events| :: HappensAt(states, events, i)
  }

  lemma AvailableStep(o: Opened, e: Event, x: nat)
    requires HandleOk(o) && CanHappen(o, e)
    ensures HandleOk(Happened(o, e))
    ensures Covers(Happened(o, e).handle.available, x) <==>
              Covers(o.handle.available, x) || (e.Write? && o.handle.offset <= x < o.handle.offset + e.len)
  {
    HappenedOk(o, e);
    if e.Write? {
      WithBytesIsExact(o.handle.available, o.handle.offset, e.len);
    }
  }

  /** The event at `i` writes the byte `x`. */
  ghost predicate WritesByte(states: seq<Opened>, events: seq<Event>, i: nat, x: nat)
    requires i < |events| && |states| == |events| + 1
  {
    events[i].Write? && states[i].handle.offset <= x < states[i].handle.offset + events[i].len
  }

  /** In every run, what is available is what was at first, and everything written since. */
  lemma {:induction false} AvailableIsWritten(states: seq<Opened>, events: seq<Event>, j: nat, x: nat)
    requires HandleRun(states, events) && j <= |events|
    ensures HandleOk(states[j])
    ensures Covers(states[j].handle.available, x) <==>
              Covers(states[0].handle.available, x) || exists i | 0 <= i < j :: WritesByte(states, events, i, x)
  {
    if j > 0 {
      AvailableIsWritten(states, events, j - 1, x);
      assert HappensAt(states, events, j - 1);
      AvailableStep(states[j - 1], events[j - 1], x);
      assert Covers(states[j].handle.available, x) <==>
             Covers(states[j - 1].handle.available, x) || WritesByte(states, events, j - 1, x);
    }
  }

  /** The position: where it was last put, and as many bytes further as were written since. */
  ghost function Position(start: nat, events: seq<Event>, j: nat): nat
    requires j <= |events|
  {
    if j == 0 then start
    else
      match events[j - 1]
      case Seek(pos) => pos
      case Write(len) => Position(start, events, j - 1) + len
      case _ => Position(start, events, j - 1)
  }

  lemma {:induction false} PositionIsHistory(states: seq<Opened>, events: seq<Event>, j: nat)
    requires HandleRun(states, events) && j <= |events|
    ensures states[j].handle.offset == Position(states[0].handle.offset, events, j)
  {
    if j > 0 {
      PositionIsHistory(states, events, j - 1);
      assert HappensAt(states, events, j - 1);
    }
  }

  /** The pending ranges are taken, whether they get to be stored or not. */
  predicate Takes(e: Event) {
    e.StoreOk? || e.TaskLost?
  }

  /** The byte was pending at first or written since, and nothing has taken it. */
  ghost predicate WaitsAt(states: seq<Opened>, events: seq<Event>, j: nat, x: nat)
    requires j <= |events| && |states| == |events| + 1
  {
    if j == 0 then Covers(states[0].handle.pending, x)
    else !Takes(events[j - 1]) && (WritesByte(states, events, j - 1, x) || WaitsAt(states, events, j - 1, x))
  }

  lemma PendingStep(o: Opened, e: Event, x: nat)
    requires HandleOk(o) && CanHappen(o, e)
    ensures Covers(Happened(o, e).handle.pending, x) <==>
              && !Takes(e)
              && (Covers(o.handle.pending, x) || (e.Write? && o.handle.offset <= x < o.handle.offset + e.len))
  {
    if e.Write? {
      WithBytesIsExact(o.handle.pending, o.handle.offset, e.len);
    }
  }

  /** In every run, exactly the bytes written since the pending ranges were last taken are pending. */
  lemma {:induction false} PendingIsHistory(states: seq<Opened>, events: seq<Event>, j: nat, x: nat)
    requires HandleRun(states, events) && j <= |events|
    ensures Covers(states[j].handle.pending, x) <==> WaitsAt(states, events, j, x)
  {
    if j > 0 {
      PendingIsHistory(states, events, j - 1, x);
      AvailableIsWritten(states, events, j - 1, x);
      assert HappensAt(states, events, j - 1);
      PendingStep(states[j - 1], events[j - 1], x);
    }
  }

  ghost predicate NeverForgets(states: seq<Opened>, events: seq<Event>, j: nat)
    requires j <= |events| && |states| == |events| + 1
  {
    forall i | 0 <= i < j :: !Forgets(states[i], events[i])
  }

  /** In every run, everything available is stored or pending as long as nothing of that kind happens. */
  lemma {:induction false} AlwaysAccounted(states: seq<Opened>, events: seq<Event>, j: nat)
    requires HandleRun(states, events) && Accounted(states[0]) && j <= |events|
    requires NeverForgets(states, events, j)
    ensures Accounted(states[j])
  {
    if j > 0 {
      AlwaysAccounted(states, events, j - 1);
      AvailableIsWritten(states, events, j - 1, 0);
      assert HappensAt(states, events, j - 1);
      HappenedAccounted(states[j - 1], events[j - 1]);
    }
  }

  // ---------------------------------------------------------------------
  // The blob table
  // ---------------------------------------------------------------------

  method NextId(blobs: map<BlobId, BlobEntry>) returns (id: BlobId)
    ensures id == FreshId(blobs)
  {
    if blobs.Keys == {} {
      return 1;
    }
    SomeLastKey(blobs);
    var last :| last in blobs.Keys;
    var left := blobs.Keys - {last};
    while left != {}
      invariant last in blobs && left <= blobs.Keys && forall j | j in blobs :: j in left || j <= last
      decreases |left|
    {
      var j :| j in left;
      left := left - {j};
      if j > last { last := j; }
    }
    assert LastKey(blobs, last);
    assert forall j: BlobId | LastKey(blobs, j) :: j == last;
    id := last + 1;
  }

  class Blobstore {
    const db: ArenaDatabase

    constructor (db: ArenaDatabase)
      ensures this.db == db
    {
      this.db := db;
    }

    method CreateEntry(b: BlobEntry) returns (id: BlobId)
      modifies db`blobs
      ensures id == FreshId(old(db.blobs)) && db.blobs == old(db.blobs)[id := b]
    {
      id := NextId(db.blobs);
      db.blobs := db.blobs[id := b];
    }

    method Extend(id: BlobId, ranges: ByteRanges) returns (r: Result<(), StorageError>)
      requires ranges.Valid() && AreasWellFormed(db.blobs)
      modifies db`blobs
      ensures r == if id in old(db.blobs) then Ok(()) else Err(NotFound)
      ensures db.blobs == if id in old(db.blobs) then Extended(old(db.blobs), id, ranges.btree) else old(db.blobs)
      ensures AreasWellFormed(db.blobs)
    {
      if id !in db.blobs {
        return Err(NotFound);
      }
      var areas := new ByteRanges.Of(db.blobs[id].written);
      var all := areas.Union(ranges);
      db.blobs := db.blobs[id := db.blobs[id].(written := all.btree)];
      r := Ok(());
    }

    method MarkVerified(id: BlobId, hash: Hash) returns (r: Result<(), StorageError>)
      modifies db`blobs
      ensures match SetContentHash(old(db.Contents()), id, hash)
              case Err(e) => r == Err(e) && unchanged(db)
              case Ok(c) => r.Ok? && db.Contents() == c
    {
      if id !in db.blobs {
        return Err(NotFound);
      }
      db.blobs := db.blobs[id := db.blobs[id].(contentHash := Some(hash))];
      r := Ok(());
    }
  }

  datatype BlobError = Io | TaskGone | Storage(error: StorageError)

  /** How an attempt to store the pending ranges goes, as far as it is up to the environment. */
  datatype Attempt = Flushes | FlushError | Lost(done: bool)

  class Blob {
    const id: BlobId
    const size: u64
    const hash: Hash
    const store: Blobstore
    var available: ByteRanges
    var pending: ByteRanges
    var offset: u64

    ghost predicate Valid()
      reads this, available, pending
    {
      available != pending && available.Valid() && pending.Valid()
    }

    function Value(): Handle
      reads this, available, pending
    {
      Handle(available.btree, pending.btree, offset)
    }

    constructor (id: BlobId, e: FileEntry, b: BlobEntry, store: Blobstore)
      requires WellFormed(b.written)
      ensures Valid() && fresh(available) && fresh(pending)
      ensures Value() == Handle(b.written, [], 0)
      ensures this.id == id && size == e.version.size && hash == e.version.hash && this.store == store
    {
      this.id, this.store := id, store;
      size, hash := e.version.size, e.version.hash;
      available := new ByteRanges.Of(b.written);
      pending := new ByteRanges();
      offset := 0;
    }

    /** `len` bytes went to the file at the current position. */
    method PollWrite(len: nat)
      requires Valid() && offset + len <= U64_MAX
      modifies this`offset, available, pending
      ensures Valid() && Value() == Writing(old(Value()), len)
    {
      if len > 0 {
        var start, end := offset, offset + len;
        offset := end;
        available.Add(ByteRange(start, end));
        assert pending.btree == old(pending.btree) && pending.Valid();
        pending.Add(ByteRange(start, end));
        assert available.btree == WithBytes(old(available.btree), start, len);
        assert pending.btree == WithBytes(old(pending.btree), start, len);
      }
    }

    method SeekTo(pos: u64)
      modifies this`offset
      ensures Value() == old(Value()).(offset := pos)
    {
      offset := pos;
    }

    method Readable(at: u64, len: nat) returns (n: Option<nat>)
      requires Valid()
      ensures n == ReadableLength(available.btree, size, at, len)
    {
      if len == 0 || at >= size {
        return Some(0);
      }
      ContainingRangeIsExact(available.btree, at);
      match ContainingRange(available.btree, at) {
        case None => n := None;
        case Some(r) => n := Some(if len < r.end - at then len else r.end - at);
      }
    }

    /** The handle and the areas stored for its blob, if it is still there. */
    ghost function State(): Opened
      reads this, available, pending, store.db
    {
      Opened(Value(), if id in store.db.blobs then Some(store.db.blobs[id].written) else None)
    }

    ghost function EventOf(attempt: Attempt): Event
      reads store.db
    {
      match attempt
      case FlushError => FlushFails
      case Lost(done) => TaskLost(done && id in store.db.blobs)
      case Flushes => if id in store.db.blobs then StoreOk else StoreFails
    }

    /** Takes the pending ranges and stores them, unless the blob is gone or the thread never gets there. */
    method Send(reached: bool) returns (ranges: ByteRanges, sent: Result<(), StorageError>)
      requires Valid() && AreasWellFormed(store.db.blobs)
      modifies this`pending, store.db`blobs
      ensures Valid() && available == old(available) && fresh(pending) && AreasWellFormed(store.db.blobs)
      ensures pending.btree == [] && ranges == old(pending) && ranges.btree == old(pending.btree)
      ensures sent == if id in old(store.db.blobs) then Ok(()) else Err(NotFound)
      ensures store.db.blobs ==
                if reached && sent.Ok? then Extended(old(store.db.blobs), id, ranges.btree) else old(store.db.blobs)
    {
      ranges := pending;
      pending := new ByteRanges();
      if reached {
        sent := store.Extend(id, ranges);
      } else {
        sent := if id in store.db.blobs then Ok(()) else Err(NotFound);
      }
    }

    /** Stores the pending ranges; if the database refuses, they stay pending. */
    method UpdateDb(attempt: Attempt) returns (r: Result<(), BlobError>)
      requires Valid() && AreasWellFormed(store.db.blobs)
      modifies this`pending, store.db`blobs
      ensures Valid() && available == old(available) && AreasWellFormed(store.db.blobs)
      ensures State() == Happened(old(State()), old(EventOf(attempt)))
      ensures store.db.blobs.Keys == old(store.db.blobs).Keys
      ensures r.Ok? <==> old(pending.btree) == [] || (attempt.Flushes? && id in old(store.db.blobs))
    {
      if pending.btree == [] {
        return Ok(());
      }
      if attempt.FlushError? {
        return Err(Io);
      }
      var ranges, sent := Send(attempt.Flushes? || attempt.done);
      if attempt.Lost? {
        return Err(TaskGone);
      }
      if sent.Err? {
        pending.Extend(ranges.btree);
        UnionWithEmpty(ranges.btree);
        return Err(Storage(sent.error));
      }
      r := Ok(());
    }
  }
}
