/** Runs in which a handle outlives its blob. */
module ReusedIds {
  import opened Common
  import opened Ranges
  import opened ByteRangeSets
  import opened Directory
  import opened Cache
  import opened CacheInvariant
  import opened BlobVersions
  import Versions
  import opened Handles
  import opened Provenance
  import opened Accounting
  import Blobs

  // ---------------------------------------------------------------------
  // One file
  // ---------------------------------------------------------------------

  /** The file "a" of one peer, with or without a blob. */
  function FileOf(v: Version, blob: Option<BlobId>): FileEntry {
    FileEntry("a", v, 1, blob)
  }

  /** The only file of the only peer is shown at version `v`, with the first blob if there is one. */
  ghost predicate OneFile(c: Cache, v: Version, blobs: map<BlobId, BlobEntry>) {
    && c.tree == Versions.TREE && c.pending == map[] && c.blobs == blobs
    && c.files == map[DefaultOf(2) := FileOf(v, if 1 in blobs then Some(1) else None),
                      EntryOf(2, "p") := FileOf(v, None)]
  }

  lemma OpenOneFile(c: Cache, v: Version)
    requires OneFile(c, v, map[])
    ensures OpenFile(c, 2).Ok? && OneFile(OpenFile(c, 2).value, v, map[1 := NEW_BLOB])
  {
    assert FreshId(c.blobs) == 1;
  }

  lemma LocateOneFile(c: Cache, v: Version, blobs: map<BlobId, BlobEntry>)
    requires OneFile(c, v, blobs)
    ensures Locate(c, "a") == Ok(Place(c, 1, 2))
  {
    Versions.OneName();
    assert MkDirs(c.tree, []) == Ok((c.tree, 1));
    assert CreateFile(c.tree, [], "a") == Ok(Created(c.tree, 1, 2));
  }

  lemma ReplaceOneFile(c: Cache, v: Version, w: Version, b: BlobEntry)
    requires OneFile(c, v, map[1 := b])
    ensures Receive(c, "p", Replace("a", w, v.hash)).Ok?
    ensures OneFile(Receive(c, "p", Replace("a", w, v.hash)).value, w, map[])
  {
    LocateOneFile(c, v, map[1 := b]);
    assert map[1 := b] - {1} == map[];
  }

  lemma ReplaceAgain(c: Cache, v: Version, w: Version)
    requires OneFile(c, v, map[])
    ensures Receive(c, "p", Replace("a", w, v.hash)).Ok?
    ensures OneFile(Receive(c, "p", Replace("a", w, v.hash)).value, w, map[])
  {
    LocateOneFile(c, v, map[]);
  }

  // ---------------------------------------------------------------------
  // Steps
  // ---------------------------------------------------------------------

  function Replacing(v: Version, w: Version, hint: Inode -> Peer): Step {
    Transact(Notify("p", Replace("a", w, v.hash), hint, []))
  }

  function Adding(v: Version, hint: Inode -> Peer): Step {
    Transact(Notify("p", Add("a", v), hint, []))
  }

  /** A handle that was just opened on the first blob, made at `born`. */
  function Fresh(v: Version, born: nat): Held {
    Held(2, FileOf(v, Some(1)), born, Blobs.Handle([], [], 0), [], false)
  }

  /** There is no blob, and data was never moved in. */
  ghost predicate NoBlob(s: System, v: Version) {
    OneFile(s.cache, v, map[]) && s.born == map[] && s.filled == map[]
  }

  /** The version shown has the blob `b`, made at `born`. */
  ghost predicate WithBlob(s: System, v: Version, b: BlobEntry, born: nat) {
    OneFile(s.cache, v, map[1 := b]) && s.born == map[1 := born] && s.filled == map[]
  }

  lemma Added(v: Version, hint: Inode -> Peer)
    ensures Can(Beginning(Versions.NOTHING), Adding(v, hint))
    ensures var t := Next(Beginning(Versions.NOTHING), Adding(v, hint)); NoBlob(t, v) && t.handles == map[]
  {
    Versions.OneFileAdded(v);
  }

  lemma Opens(s: System, v: Version, h: nat)
    requires NoBlob(s, v) && h !in s.handles
    ensures Can(s, OpenAt(h, 2))
    ensures var t := Next(s, OpenAt(h, 2));
            WithBlob(t, v, NEW_BLOB, s.clock) && t.handles == s.handles[h := Fresh(v, s.clock)]
  {
    OpenOneFile(s.cache, v);
    OpeningIs(s, h, 2, OpenFile(s.cache, 2).value);
    assert Next(s, OpenAt(h, 2)).filled == map[];
  }

  lemma Replaces(s: System, v: Version, w: Version, b: BlobEntry, born: nat, hint: Inode -> Peer)
    requires WithBlob(s, v, b, born)
    ensures Can(s, Replacing(v, w, hint))
    ensures var t := Next(s, Replacing(v, w, hint)); NoBlob(t, w) && t.handles == s.handles
  {
    ReplaceOneFile(s.cache, v, w, b);
  }

  lemma ReplacesAgain(s: System, v: Version, w: Version, hint: Inode -> Peer)
    requires NoBlob(s, v)
    ensures Can(s, Replacing(v, w, hint))
    ensures var t := Next(s, Replacing(v, w, hint)); NoBlob(t, w) && t.handles == s.handles
  {
    ReplaceAgain(s.cache, v, w);
  }

  /** The handle with its first `n` bytes written. */
  function Wrote(v: Version, born: nat, n: u64): Held {
    Handles.Writing(Fresh(v, born), n)
  }

  lemma Writes(s: System, v: Version, b: BlobEntry, born: nat, h: nat, n: u64)
    requires WithBlob(s, v, b, born) && h in s.handles && s.handles[h] == Fresh(v, born)
    ensures Can(s, Write(h, n))
    ensures var t := Next(s, Write(h, n)); WithBlob(t, v, b, born) && t.handles == s.handles[h := Wrote(v, born, n)]
  {
    var t := Next(s, Write(h, n));
    assert t.born == map[1 := born] && t.filled == map[];
  }

  /** The first `n` bytes are available, and waiting to be stored. */
  ghost predicate Filling(g: Held, n: nat) {
    && g.handle.pending != [] && WellFormed(g.handle.pending)
    && (forall x: nat :: Covers(g.handle.pending, x) <==> x < n)
    && (forall x: nat :: Covers(g.handle.available, x) <==> x < n)
    && (forall x: nat :: Covers(g.wrote, x) <==> x < n)
  }

  lemma WroteIs(v: Version, born: nat, n: u64)
    requires n > 0
    ensures Filling(Wrote(v, born, n), n)
  {
    Blobs.WithBytesIsExact([], 0, n);
    assert Covers(Wrote(v, born, n).handle.pending, 0);
  }

  lemma Stores(s: System, v: Version, b: BlobEntry, born: nat, h: nat)
    requires WithBlob(s, v, b, born) && h in s.handles && s.handles[h].entry.blob == Some(1)
    requires s.handles[h].handle.pending != [] && WellFormed(s.handles[h].handle.pending)
    ensures Can(s, Store(h, Blobs.Flushes))
    ensures var t, g := Next(s, Store(h, Blobs.Flushes)), s.handles[h];
            && WithBlob(t, v, b.(written := UnionOf(b.written, g.handle.pending)), born)
            && t.handles == s.handles[h := g.(handle := g.handle.(pending := []))]
  {
    var t := Next(s, Store(h, Blobs.Flushes));
    assert t.born == map[1 := born] && t.filled == map[];
  }

  lemma Loses(s: System, v: Version, b: BlobEntry, born: nat, h: nat)
    requires WithBlob(s, v, b, born) && h in s.handles && s.handles[h].entry.blob == Some(1)
    requires WellFormed(s.handles[h].handle.pending)
    ensures Can(s, Store(h, Blobs.Lost(false)))
    ensures var t, g := Next(s, Store(h, Blobs.Lost(false))), s.handles[h];
            WithBlob(t, v, b, born) && t.handles == s.handles[h := g.(handle := g.handle.(pending := []))]
  {
    var t := Next(s, Store(h, Blobs.Lost(false)));
    assert t.born == map[1 := born] && t.filled == map[];
  }

  lemma Confirms(s: System, v: Version, b: BlobEntry, born: nat, h: nat)
    requires WithBlob(s, v, b, born) && h in s.handles && s.handles[h].entry.blob == Some(1)
    ensures Can(s, Confirm(h))
    ensures WithBlob(Next(s, Confirm(h)), v, b.(contentHash := Some(s.handles[h].entry.version.hash)), born)
  {
    var t := Next(s, Confirm(h));
    assert t.born == map[1 := born] && t.filled == map[];
  }

  // ---------------------------------------------------------------------
  // Runs
  // ---------------------------------------------------------------------

  /** A run from the very beginning that ends with `s`. */
  ghost predicate Reached(s: System, states: seq<System>, steps: seq<Step>) {
    SystemRun(states, steps) && states[0] == Beginning(Versions.NOTHING) && states[|steps|] == s
  }

  /** All that follows is therefore about sound states. */
  lemma ReachedSound(s: System, states: seq<System>, steps: seq<Step>)
    requires Reached(s, states, steps)
    ensures Sound(s)
  {
    BeginningSound(Versions.NOTHING);
    RunSound(states, steps, |steps|);
  }

  lemma OneMore(s: System, step: Step, t: System, states: seq<System>, steps: seq<Step>)
    returns (longer: seq<System>, all: seq<Step>)
    requires Reached(s, states, steps) && Can(s, step) && t == Next(s, step)
    ensures Reached(t, longer, all) && all == steps + [step]
  {
    longer, all := states + [t], steps + [step];
    forall i | 0 <= i < |all| ensures GoesAt(longer, all, i) {
      if i < |steps| {
        assert GoesAt(states, steps, i);
      }
    }
  }

  /** A file is added, and opened by handle 0. */
  lemma AddedAndOpened(v: Version, hint: Inode -> Peer) returns (s: System, states: seq<System>, steps: seq<Step>)
    ensures Reached(s, states, steps) && WithBlob(s, v, NEW_BLOB, 1) && s.handles == map[0 := Fresh(v, 1)] &&
              s.clock == 2
    ensures steps == [Adding(v, hint), OpenAt(0, 2)]
  {
    var s0 := Beginning(Versions.NOTHING);
    Added(v, hint);
    var s1 := Next(s0, Adding(v, hint));
    states, steps := OneMore(s0, Adding(v, hint), s1, [s0], []);
    Opens(s1, v, 0);
    s := Next(s1, OpenAt(0, 2));
    states, steps := OneMore(s1, OpenAt(0, 2), s, states, steps);
  }

  lemma AddedAndWritten(v: Version, n: u64, hint: Inode -> Peer)
    returns (s: System, states: seq<System>, steps: seq<Step>)
    ensures Reached(s, states, steps) && WithBlob(s, v, NEW_BLOB, 1) && s.handles == map[0 := Wrote(v, 1, n)] &&
              s.clock == 3
    ensures steps == [Adding(v, hint), OpenAt(0, 2), Write(0, n)]
  {
    s, states, steps := AddedAndOpened(v, hint);
    Writes(s, v, NEW_BLOB, 1, 0, n);
    var t := Next(s, Write(0, n));
    states, steps := OneMore(s, Write(0, n), t, states, steps);
    s := t;
  }

  /** Handle 0 has written a byte, the version is replaced, and handle 1 is opened. */
  lemma WrittenAndReplaced(v: Version, w: Version, hint: Inode -> Peer)
    returns (s: System, states: seq<System>, steps: seq<Step>)
    ensures Reached(s, states, steps) && WithBlob(s, w, NEW_BLOB, 4)
    ensures s.handles == map[0 := Wrote(v, 1, 1), 1 := Fresh(w, 4)]
    ensures steps == [Adding(v, hint), OpenAt(0, 2), Write(0, 1), Replacing(v, w, hint), OpenAt(1, 2)]
  {
    s, states, steps := AddedAndWritten(v, 1, hint);
    Replaces(s, v, w, NEW_BLOB, 1, hint);
    var s4 := Next(s, Replacing(v, w, hint));
    states, steps := OneMore(s, Replacing(v, w, hint), s4, states, steps);
    Opens(s4, w, 1);
    s := Next(s4, OpenAt(1, 2));
    states, steps := OneMore(s4, OpenAt(1, 2), s, states, steps);
  }

  lemma NotSourced(s: System, w: Version, b: BlobEntry)
    requires WithBlob(s, w, b, 4) && s.handles.Keys == {0, 1} && s.handles[0].born == 1 && s.handles[1] == Fresh(w, 4)
    ensures !Sourced(s, 1, 0)
  {
    forall h | h in s.handles ensures !WroteTo(s, s.handles[h], 1, 0) {
      assert h == 0 || h == 1;
    }
  }

  /** Handle 1 is on the blob, handle 0 is not, and the byte is there. */
  lemma OthersByte(s: System, w: Version, b: BlobEntry)
    requires WithBlob(s, w, b, 4) && s.handles.Keys == {0, 1} && s.handles[0].born == 1 && s.handles[1] == Fresh(w, 4)
    requires Covers(b.written, 0)
    ensures ShownWith(s.cache, 2, FileOf(w, Some(1))) && 1 in s.cache.blobs && Covers(s.cache.blobs[1].written, 0)
    ensures !Sourced(s, 1, 0) && !Genuine(s)
  {
    NotSourced(s, w, b);
    assert s.cache.blobs[1] == b;
  }

  lemma ByteStored(pending: Boundaries)
    requires WellFormed(pending) && Covers(pending, 0)
    ensures Covers(UnionOf(NEW_BLOB.written, pending), 0)
  {
    UnionIsExact(NEW_BLOB.written, pending);
  }

  lemma StoredInOther(s: System, g: Held, w: Version) returns (b: BlobEntry)
    requires WithBlob(s, w, NEW_BLOB, 4) && s.handles == map[0 := g, 1 := Fresh(w, 4)]
    requires g.born == 1 && g.entry.blob == Some(1) && Filling(g, 1)
    ensures Can(s, Store(0, Blobs.Flushes)) && Covers(b.written, 0)
    ensures var t := Next(s, Store(0, Blobs.Flushes));
            WithBlob(t, w, b, 4) && t.handles.Keys == {0, 1} && t.handles[0].born == 1 && t.handles[1] == Fresh(w, 4)
  {
    ByteStored(g.handle.pending);
    b := NEW_BLOB.(written := UnionOf(NEW_BLOB.written, g.handle.pending));
    Stores(s, w, NEW_BLOB, 4, 0);
  }

  /**
   * The id of the first version's blob is handed out again for the second one. Then the handle on
   * the first stores its byte in the second version's blob, through whose handle nothing was written.
   */
  lemma ReusedIdPollutes(v: Version, w: Version, hint: Inode -> Peer)
    returns (s: System, states: seq<System>, steps: seq<Step>)
    ensures Reached(s, states, steps)
    ensures steps == [Adding(v, hint), OpenAt(0, 2), Write(0, 1), Replacing(v, w, hint), OpenAt(1, 2),
                Store(0, Blobs.Flushes)]
    ensures ShownWith(s.cache, 2, FileOf(w, Some(1))) && 1 in s.cache.blobs && Covers(s.cache.blobs[1].written, 0)
    ensures !Sourced(s, 1, 0) && !Genuine(s)
  {
    s, states, steps := WrittenAndReplaced(v, w, hint);
    WroteIs(v, 1, 1);
    var b := StoredInOther(s, Wrote(v, 1, 1), w);
    var t := Next(s, Store(0, Blobs.Flushes));
    states, steps := OneMore(s, Store(0, Blobs.Flushes), t, states, steps);
    OthersByte(t, w, b);
    s := t;
  }

  /** A handle stores all it has written in its own blob. */
  lemma StoredInOwn(s: System, v: Version, g: Held, n: nat) returns (k: Held, b: BlobEntry)
    requires WithBlob(s, v, NEW_BLOB, 1) && s.handles == map[0 := g] && g.entry.blob == Some(1) && Filling(g, n)
    ensures k == g.(handle := g.handle.(pending := [])) && forall x: nat :: Covers(b.written, x) <==> x < n
    ensures Can(s, Store(0, Blobs.Flushes))
    ensures WithBlob(Next(s, Store(0, Blobs.Flushes)), v, b, 1)
    ensures Next(s, Store(0, Blobs.Flushes)).handles == map[0 := k]
  {
    k := g.(handle := g.handle.(pending := []));
    b := NEW_BLOB.(written := UnionOf(NEW_BLOB.written, g.handle.pending));
    UnionIsExact(NEW_BLOB.written, g.handle.pending);
    Stores(s, v, NEW_BLOB, 1, 0);
  }

  /** The handle has the first `n` bytes and nothing to store. */
  ghost predicate Settled(g: Held, v: Version, n: nat) {
    && g.entry == FileOf(v, Some(1)) && g.born == 1 && g.handle.pending == []
    && (forall x: nat :: Covers(g.handle.available, x) <==> x < n)
    && (forall x: nat :: Covers(g.wrote, x) <==> x < n)
  }

  lemma AddedAndStored(v: Version, n: u64, hint: Inode -> Peer)
    returns (s: System, g: Held, b: BlobEntry, states: seq<System>, steps: seq<Step>)
    requires n > 0
    ensures Reached(s, states, steps) && WithBlob(s, v, b, 1) && s.handles == map[0 := g] && s.clock == 4
    ensures Settled(g, v, n) && forall x: nat :: Covers(b.written, x) <==> x < n
    ensures steps == [Adding(v, hint), OpenAt(0, 2), Write(0, n), Store(0, Blobs.Flushes)]
  {
    s, states, steps := AddedAndWritten(v, n, hint);
    WroteIs(v, 1, n);
    g, b := StoredInOwn(s, v, Wrote(v, 1, n), n);
    var t := Next(s, Store(0, Blobs.Flushes));
    states, steps := OneMore(s, Store(0, Blobs.Flushes), t, states, steps);
    s := t;
  }

  lemma ForgottenByte(s: System, g: Held)
    requires s.handles == map[0 := g] && g.entry.blob == Some(1) && g.handle.pending == [] &&
               Covers(g.handle.available, 0)
    requires 1 in s.cache.blobs ==> s.cache.blobs[1].written == []
    ensures HandleThere(s, 0) && !Blobs.Accounted(View(s, s.handles[0]))
  {
    assert !Blobs.IsStored(View(s, s.handles[0]), 0) && !Covers(s.handles[0].handle.pending, 0);
  }

  /** All bytes are written and stored, and the version is replaced. */
  lemma StoredAndReplaced(v: Version, w: Version, n: u64, hint: Inode -> Peer)
    returns (s: System, g: Held, states: seq<System>, steps: seq<Step>)
    requires n > 0
    ensures Reached(s, states, steps) && NoBlob(s, w) && s.handles == map[0 := g] && s.clock == 5
    ensures Settled(g, v, n)
    ensures steps == [Adding(v, hint), OpenAt(0, 2), Write(0, n), Store(0, Blobs.Flushes), Replacing(v, w, hint)]
  {
    var b;
    s, g, b, states, steps := AddedAndStored(v, n, hint);
    Replaces(s, v, w, b, 1, hint);
    var t := Next(s, Replacing(v, w, hint));
    states, steps := OneMore(s, Replacing(v, w, hint), t, states, steps);
    s := t;
  }

  /**
   * A byte is written and stored, the version is replaced, and the handle takes for available what
   * is nowhere stored.
   */
  lemma ReplacingForgets(v: Version, w: Version, hint: Inode -> Peer)
    returns (s: System, states: seq<System>, steps: seq<Step>)
    ensures Reached(s, states, steps)
    ensures steps == [Adding(v, hint), OpenAt(0, 2), Write(0, 1), Store(0, Blobs.Flushes), Replacing(v, w, hint)]
    ensures HandleThere(s, 0) && Covers(s.handles[0].handle.available, 0) && !Blobs.Accounted(View(s, s.handles[0]))
  {
    var g;
    s, g, states, steps := StoredAndReplaced(v, w, 1, hint);
    ForgottenByte(s, g);
  }

  lemma LostFromOwn(s: System, v: Version, g: Held, n: nat) returns (k: Held)
    requires WithBlob(s, v, NEW_BLOB, 1) && s.handles == map[0 := g] && g.entry.blob == Some(1) && Filling(g, n)
    ensures k == g.(handle := g.handle.(pending := []))
    ensures Can(s, Store(0, Blobs.Lost(false)))
    ensures WithBlob(Next(s, Store(0, Blobs.Lost(false))), v, NEW_BLOB, 1)
    ensures Next(s, Store(0, Blobs.Lost(false))).handles == map[0 := k]
  {
    k := g.(handle := g.handle.(pending := []));
    Loses(s, v, NEW_BLOB, 1, 0);
  }

  /** A byte is written, and taken out of the pending ranges by a thread that dies before it is stored. */
  lemma DeadThreadForgets(v: Version, hint: Inode -> Peer) returns (s: System, states: seq<System>, steps: seq<Step>)
    ensures Reached(s, states, steps)
    ensures steps == [Adding(v, hint), OpenAt(0, 2), Write(0, 1), Store(0, Blobs.Lost(false))]
    ensures HandleThere(s, 0) && Covers(s.handles[0].handle.available, 0) && !Blobs.Accounted(View(s, s.handles[0]))
  {
    s, states, steps := AddedAndWritten(v, 1, hint);
    WroteIs(v, 1, 1);
    var g := LostFromOwn(s, v, Wrote(v, 1, 1), 1);
    var t := Next(s, Store(0, Blobs.Lost(false)));
    states, steps := OneMore(s, Store(0, Blobs.Lost(false)), t, states, steps);
    s := t;
    ForgottenByte(s, g);
  }

  /** The whole file is written and stored, its version is replaced, comes back, and is opened again. */
  lemma ReplacedTwice(v: Version, w: Version, hint: Inode -> Peer)
    returns (s: System, g: Held, states: seq<System>, steps: seq<Step>)
    requires v.size > 0
    ensures Reached(s, states, steps) && WithBlob(s, v, NEW_BLOB, 6) && s.handles == map[0 := g, 1 := Fresh(v, 6)]
    ensures Settled(g, v, v.size)
    ensures steps == [Adding(v, hint), OpenAt(0, 2), Write(0, v.size), Store(0, Blobs.Flushes), Replacing(v, w, hint),
                Replacing(w, v, hint), OpenAt(1, 2)]
  {
    s, g, states, steps := StoredAndReplaced(v, w, v.size, hint);
    ReplacesAgain(s, w, v, hint);
    var s6 := Next(s, Replacing(w, v, hint));
    states, steps := OneMore(s, Replacing(w, v, hint), s6, states, steps);
    Opens(s6, v, 1);
    s := Next(s6, OpenAt(1, 2));
    states, steps := OneMore(s6, OpenAt(1, 2), s, states, steps);
  }

  /** The first handle vouches for the new blob. */
  lemma ConfirmedOther(s: System, v: Version, g: Held)
    requires WithBlob(s, v, NEW_BLOB, 6) && s.handles == map[0 := g, 1 := Fresh(v, 6)] && g.entry == FileOf(v, Some(1))
    ensures Can(s, Confirm(0))
    ensures var t := Next(s, Confirm(0));
            && Realizable(t.cache, 2, v.hash) && t.cache.files[DefaultOf(2)] == FileOf(v, Some(1))
            && t.cache.blobs[1].written == []
  {
    Confirms(s, v, NEW_BLOB, 6, 0);
  }

  /**
   * Then the handle on the first blob, which has had the whole file, vouches for the second one, which
   * has no data at all and can now be moved out as verified.
   */
  lemma StaleConfirmMisleads(v: Version, w: Version, hint: Inode -> Peer)
    returns (s: System, states: seq<System>, steps: seq<Step>)
    requires v.size > 0
    ensures Reached(s, states, steps)
    ensures steps == [Adding(v, hint), OpenAt(0, 2), Write(0, v.size), Store(0, Blobs.Flushes), Replacing(v, w, hint),
                Replacing(w, v, hint), OpenAt(1, 2), Confirm(0)]
    ensures Realizable(s.cache, 2, v.hash) && s.cache.files[DefaultOf(2)] == FileOf(v, Some(1))
    ensures s.cache.blobs[1].written == []
  {
    var g;
    s, g, states, steps := ReplacedTwice(v, w, hint);
    ConfirmedOther(s, v, g);
    var t := Next(s, Confirm(0));
    states, steps := OneMore(s, Confirm(0), t, states, steps);
    s := t;
  }
}
