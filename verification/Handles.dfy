/**
 * Handles among everything else that uses the cache. Ids of blobs are handed out again, so a handle
 * may outlive the blob it was opened for and find another one in its place.
 */
module Handles {
  import opened Common
  import opened Ranges
  import opened ByteRangeSets
  import opened Paths
  import opened Directory
  import opened Cache
  import opened CacheInvariant
  import opened CacheLog
  import opened BlobVersions
  import Blobs

  /**
   * A handle: the entry it was opened for, when the blob of that entry was made, what is available
   * and pending, everything that was written through it, and whether it said that the content is right.
   */
  datatype Held = Held(
    inode: Inode,
    entry: FileEntry,
    born: nat,
    handle: Blobs.Handle,
    wrote: Boundaries,
    confirmed: bool)

  /**
   * `born` says when each blob in the table was made, and `filled` how much was last moved into it,
   * if anything was.
   */
  datatype System = System(
    cache: Cache,
    clock: nat,
    born: map<BlobId, nat>,
    filled: map<BlobId, nat>,
    handles: map<nat, Held>)

  /** `Confirm` comes after a successful `Store` when a handle marks its content as verified. */
  datatype Step =
    | Transact(a: Action)
    | OpenAt(h: nat, inode: Inode)
    | Write(h: nat, len: nat)
    | Seek(h: nat, pos: u64)
    | Store(h: nat, attempt: Blobs.Attempt)
    | Confirm(h: nat)

  ghost predicate HandleThere(s: System, h: nat) {
    h in s.handles && s.handles[h].entry.blob.Some?
  }

  /** Areas and content hashes are only ever recorded through handles. */
  ghost predicate Can(s: System, step: Step) {
    match step
    case Transact(a) => Enabled(s.cache, a) && !a.Open? && !a.Extend? && !a.Verify?
    case OpenAt(h, inode) => h !in s.handles && OpenFile(s.cache, inode).Ok?
    case Write(h, len) => HandleThere(s, h) && s.handles[h].handle.offset + len <= U64_MAX
    case Seek(h, _) => HandleThere(s, h)
    case Store(h, _) => HandleThere(s, h) && WellFormed(s.handles[h].handle.pending)
    case Confirm(h) => HandleThere(s, h)
  }

  /** Whether a thread gets to store the pending ranges. */
  predicate Reaches(attempt: Blobs.Attempt) {
    attempt.Flushes? || (attempt.Lost? && attempt.done)
  }

  /** What the step does in the database, if anything. */
  ghost function ActionOf(s: System, step: Step): Option<Action>
    requires Can(s, step)
  {
    match step
    case Transact(a) => Some(a)
    case OpenAt(_, inode) => Some(Open(inode))
    case Write(_, _) => None
    case Seek(_, _) => None
    case Store(h, attempt) =>
      var g := s.handles[h];
      if g.handle.pending != [] && Reaches(attempt) then Some(Extend(g.entry.blob.value, g.handle.pending)) else None
    case Confirm(h) => Some(Verify(s.handles[h].entry.blob.value, s.handles[h].entry.version.hash))
  }

  ghost function CacheAfter(s: System, step: Step): Cache
    requires Can(s, step)
  {
    match ActionOf(s, step)
    case None => s.cache
    case Some(a) => After(s.cache, a)
  }

  /** The blob that data is moved into, and how much. */
  ghost function Filling(c: Cache, step: Step): Option<(BlobId, nat)> {
    if step.Transact? && step.a.MoveIn? && MoveIntoBlobIfMatches(c, step.a.path, step.a.hash).Ok?
       && MoveIntoBlobIfMatches(c, step.a.path, step.a.hash).value.1
    then
      var e := c.files[DefaultOf(Lookup(c.tree, Split(step.a.path)).value.inode)];
      Some((if e.blob.Some? then e.blob.value else FreshId(c.blobs), e.version.size))
    else None
  }

  ghost predicate Fills(c: Cache, step: Step, id: BlobId) {
    Filling(c, step).Some? && Filling(c, step).value.0 == id
  }

  /**
   * When each blob was made. The first case fixes the value outside the domain, so that equal maps are
   * equal however they come about.
   */
  ghost function Born(s: System, d: Cache): map<BlobId, nat> {
    map id | id in d.blobs ::
      if id !in d.blobs then 0 else if id in s.cache.blobs && id in s.born then s.born[id] else s.clock
  }

  /** How much was last moved into each blob; the value is fixed outside the domain, as above. */
  ghost function Filled(s: System, step: Step, d: Cache): map<BlobId, nat> {
    map id | id in d.blobs && (Fills(s.cache, step, id) || (id in s.cache.blobs && id in s.filled)) ::
      if id !in d.blobs then 0
      else if Fills(s.cache, step, id) then Filling(s.cache, step).value.1
      else if id in s.cache.blobs && id in s.filled then s.filled[id] else 0
  }

  /** What becomes of the handle when it tries to store its pending ranges. */
  function Stored(g: Held, attempt: Blobs.Attempt, there: bool): Held {
    if attempt.FlushError? || (attempt.Flushes? && !there) then g else g.(handle := g.handle.(pending := []))
  }

  function Writing(g: Held, len: nat): Held
    requires g.handle.offset + len <= U64_MAX
  {
    g.(handle := Blobs.Writing(g.handle, len), wrote := Blobs.WithBytes(g.wrote, g.handle.offset, len))
  }

  ghost function Opening(s: System, inode: Inode, d: Cache): Held
    requires DefaultOf(inode) in d.files && d.files[DefaultOf(inode)].blob.Some?
    requires d.files[DefaultOf(inode)].blob.value in d.blobs
  {
    var e := d.files[DefaultOf(inode)];
    Held(inode, e, Born(s, d)[e.blob.value], Blobs.Handle(d.blobs[e.blob.value].written, [], 0), [], false)
  }

  ghost function HandlesAfter(s: System, step: Step, d: Cache): map<nat, Held>
    requires Can(s, step) && d == CacheAfter(s, step)
  {
    match step
    case Transact(_) => s.handles
    case OpenAt(h, inode) => s.handles[h := Opening(s, inode, d)]
    case Write(h, len) => s.handles[h := Writing(s.handles[h], len)]
    case Seek(h, pos) => s.handles[h := s.handles[h].(handle := s.handles[h].handle.(offset := pos))]
    case Store(h, attempt) =>
      s.handles[h := Stored(s.handles[h], attempt, s.handles[h].entry.blob.value in s.cache.blobs)]
    case Confirm(h) =>
      if s.handles[h].entry.blob.value in s.cache.blobs then s.handles[h := s.handles[h].(confirmed := true)]
      else s.handles
  }

  ghost function Next(s: System, step: Step): System
    requires Can(s, step)
  {
    var d := CacheAfter(s, step);
    System(d, s.clock + 1, Born(s, d), Filled(s, step, d), HandlesAfter(s, step, d))
  }

  // ---------------------------------------------------------------------
  // What a step does to the blobs
  // ---------------------------------------------------------------------

  /** The step stores the pending ranges of a handle on `id`. */
  ghost predicate Extends(s: System, step: Step, id: BlobId) {
    && step.Store? && HandleThere(s, step.h) && s.handles[step.h].entry.blob.value == id
    && s.handles[step.h].handle.pending != [] && Reaches(step.attempt)
  }

  ghost predicate Verifies(s: System, step: Step, id: BlobId) {
    step.Confirm? && HandleThere(s, step.h) && s.handles[step.h].entry.blob.value == id
  }

  /** What is in the table for `id` after the step. */
  ghost predicate Effect(s: System, step: Step, id: BlobId, b: BlobEntry) {
    var before := if id in s.cache.blobs then s.cache.blobs[id] else NEW_BLOB;
    if Fills(s.cache, step, id) then b == before.(written := SingleOf(0, Filling(s.cache, step).value.1))
    else if id !in s.cache.blobs then b == NEW_BLOB
    else if Extends(s, step, id) then b == before.(written := UnionOf(before.written, s.handles[step.h].handle.pending))
    else if Verifies(s, step, id) then b == before.(contentHash := Some(s.handles[step.h].entry.version.hash))
    else b == before
  }

  lemma OnlyDropped(c: Cache, a: Action, id: BlobId)
    requires Owned(c) && Enabled(c, a) && (a.Notify? || a.MoveOut? || a.LogOp?) && id in After(c, a).blobs
    ensures id in c.blobs && After(c, a).blobs[id] == c.blobs[id]
  {
    if Act(c, a).Ok? && a.Notify? {
      UpdateInherits(c, a.peer, a.n, a.hint, a.order);
    }
  }

  lemma MoveInBlobs(c: Cache, path: Path, hash: Hash, id: BlobId)
    requires id in After(c, MoveIn(path, hash)).blobs
    ensures var before := if id in c.blobs then c.blobs[id] else NEW_BLOB;
            var fill := Filling(c, Transact(MoveIn(path, hash)));
            After(c, MoveIn(path, hash)).blobs[id] ==
            if fill.Some? && fill.value.0 == id then before.(written := SingleOf(0, fill.value.1)) else before
    ensures id in c.blobs || Fills(c, Transact(MoveIn(path, hash)), id)
  {
  }

  lemma TransactEffect(s: System, a: Action, id: BlobId)
    requires Owned(s.cache) && Can(s, Transact(a)) && id in After(s.cache, a).blobs
    ensures Effect(s, Transact(a), id, After(s.cache, a).blobs[id])
  {
    if a.MoveIn? {
      MoveInBlobs(s.cache, a.path, a.hash, id);
    } else {
      OnlyDropped(s.cache, a, id);
    }
  }

  lemma StepEffect(s: System, step: Step, id: BlobId)
    requires Owned(s.cache) && Can(s, step) && id in CacheAfter(s, step).blobs
    ensures Effect(s, step, id, CacheAfter(s, step).blobs[id])
  {
    if step.Transact? {
      TransactEffect(s, step.a, id);
    }
  }

  /** Only transactions other than those of handles drop blobs. */
  lemma StepKeeps(s: System, step: Step, id: BlobId)
    requires Can(s, step) && !step.Transact? && id in s.cache.blobs
    ensures id in CacheAfter(s, step).blobs
  {
  }

  // ---------------------------------------------------------------------
  // What every step keeps
  // ---------------------------------------------------------------------

  ghost predicate BornOk(s: System) {
    && s.born.Keys == s.cache.blobs.Keys && s.filled.Keys <= s.cache.blobs.Keys
    && forall id | id in s.born :: s.born[id] < s.clock
  }

  ghost predicate TablesOk(s: System) {
    Consistent(s.cache) && BornOk(s)
  }

  ghost predicate Within(a: Boundaries, b: Boundaries) {
    forall x: nat | Covers(a, x) :: Covers(b, x)
  }

  ghost predicate Sane(g: Held) {
    && g.entry.blob.Some? && WellFormed(g.handle.available) && WellFormed(g.handle.pending) && WellFormed(g.wrote)
    && Within(g.handle.pending, g.wrote)
  }

  /** The blob that the handle was opened on is still there; it is not another one with the same id. */
  ghost predicate Current(s: System, g: Held) {
    g.entry.blob.Some? && g.entry.blob.value in s.born && s.born[g.entry.blob.value] == g.born
  }

  /** There is a later blob in its place. */
  ghost predicate Stale(s: System, g: Held) {
    g.entry.blob.Some? && g.entry.blob.value in s.born && s.born[g.entry.blob.value] > g.born
  }

  /** As long as its blob is there, the version that the handle was opened for is shown with it. */
  ghost predicate HeldOk(s: System, g: Held) {
    && Sane(g) && g.born < s.clock && (Current(s, g) ==> ShownWith(s.cache, g.inode, g.entry))
    && (g.entry.blob.value in s.born ==> Current(s, g) || Stale(s, g))
  }

  ghost predicate Sound(s: System) {
    TablesOk(s) && forall h | h in s.handles :: HeldOk(s, s.handles[h])
  }

  /** Opened on the same blob for the same entry. */
  predicate Alike(g: Held, k: Held) {
    k.inode == g.inode && k.entry == g.entry && k.born == g.born
  }

  /** The same handle later. */
  ghost predicate Same(g: Held, later: Held) {
    Alike(g, later) && Within(g.wrote, later.wrote)
  }

  lemma ActionEnabled(s: System, step: Step)
    requires Can(s, step) && ActionOf(s, step).Some?
    ensures Enabled(s.cache, ActionOf(s, step).value)
  {
  }

  lemma CacheConsistent(s: System, step: Step, d: Cache)
    requires Consistent(s.cache) && Can(s, step) && d == CacheAfter(s, step)
    ensures Consistent(d)
  {
    match ActionOf(s, step)
    case None =>
    case Some(a) =>
      ActionEnabled(s, step);
      AfterKeeps(s.cache, a);
  }

  lemma NextBorn(s: System, step: Step)
    requires BornOk(s) && Can(s, step)
    ensures BornOk(Next(s, step)) && Next(s, step).cache == CacheAfter(s, step)
  {
  }

  lemma NextTables(s: System, step: Step)
    requires TablesOk(s) && Can(s, step)
    ensures TablesOk(Next(s, step))
  {
    NextBorn(s, step);
    CacheConsistent(s, step, Next(s, step).cache);
  }

  /** A handle stays current exactly as long as its blob is in the table. */
  lemma NextCurrent(s: System, step: Step, g: Held)
    requires BornOk(s) && Can(s, step) && g.entry.blob.Some? && g.born < s.clock
    ensures Current(Next(s, step), g) <==> Current(s, g) && g.entry.blob.value in Next(s, step).cache.blobs
  {
  }

  lemma NextShown(s: System, step: Step, g: Held)
    requires TablesOk(s) && Can(s, step) && HeldOk(s, g) && Current(Next(s, step), g)
    ensures ShownWith(Next(s, step).cache, g.inode, g.entry)
  {
    NextCurrent(s, step, g);
    if ActionOf(s, step).Some? {
      ActionEnabled(s, step);
      DroppedExactly(s.cache, ActionOf(s, step).value, g.inode, g.entry);
    }
  }

  lemma WritingSane(g: Held, len: nat)
    requires Sane(g) && g.handle.offset + len <= U64_MAX
    ensures Sane(Writing(g, len)) && Same(g, Writing(g, len))
  {
    Blobs.WithBytesIsExact(g.handle.available, g.handle.offset, len);
    Blobs.WithBytesIsExact(g.handle.pending, g.handle.offset, len);
    Blobs.WithBytesIsExact(g.wrote, g.handle.offset, len);
  }

  lemma NextSame(s: System, step: Step, h: nat)
    requires Can(s, step) && h in s.handles && Sane(s.handles[h])
    ensures h in Next(s, step).handles && Sane(Next(s, step).handles[h]) && Same(s.handles[h], Next(s, step).handles[h])
  {
    if step.Write? && step.h == h {
      WritingSane(s.handles[h], step.len);
    }
  }

  lemma OpenedBlob(c: Cache, inode: Inode, d: Cache)
    requires Owned(c) && OpenFile(c, inode) == Ok(d)
    ensures DefaultOf(inode) in d.files && d.files[DefaultOf(inode)].blob.Some?
    ensures d.files[DefaultOf(inode)].blob.value in d.blobs &&
              WellFormed(d.blobs[d.files[DefaultOf(inode)].blob.value].written)
  {
    OpenOwned(c, inode);
  }

  lemma OpeningIs(s: System, h: nat, inode: Inode, d: Cache)
    requires Can(s, OpenAt(h, inode)) && OpenFile(s.cache, inode) == Ok(d)
    requires DefaultOf(inode) in d.files && d.files[DefaultOf(inode)].blob.Some?
    requires d.files[DefaultOf(inode)].blob.value in d.blobs
    ensures var t := Next(s, OpenAt(h, inode));
            && t.cache == d && t.born == Born(s, d) && t.clock == s.clock + 1
            && t.handles == s.handles[h := Opening(s, inode, d)]
  {
  }

  lemma OpeningSane(s: System, t: System, inode: Inode, d: Cache)
    requires BornOk(s) && t.cache == d && t.born == Born(s, d) && t.clock == s.clock + 1
    requires DefaultOf(inode) in d.files && d.files[DefaultOf(inode)].blob.Some?
    requires d.files[DefaultOf(inode)].blob.value in d.blobs &&
               WellFormed(d.blobs[d.files[DefaultOf(inode)].blob.value].written)
    ensures HeldOk(t, Opening(s, inode, d)) && Current(t, Opening(s, inode, d))
  {
  }

  lemma OpeningOk(s: System, h: nat, inode: Inode)
    requires Owned(s.cache) && BornOk(s) && Can(s, OpenAt(h, inode))
    ensures h in Next(s, OpenAt(h, inode)).handles
    ensures HeldOk(Next(s, OpenAt(h, inode)), Next(s, OpenAt(h, inode)).handles[h])
    ensures Current(Next(s, OpenAt(h, inode)), Next(s, OpenAt(h, inode)).handles[h])
  {
    var d := OpenFile(s.cache, inode).value;
    OpenedBlob(s.cache, inode, d);
    OpeningIs(s, h, inode, d);
    OpeningSane(s, Next(s, OpenAt(h, inode)), inode, d);
  }

  lemma NewIsOpened(s: System, step: Step, h: nat)
    requires Can(s, step) && h in Next(s, step).handles && h !in s.handles
    ensures step.OpenAt? && step.h == h
  {
  }

  lemma NextHandleOk(s: System, step: Step, t: System, h: nat)
    requires Sound(s) && Can(s, step) && t == Next(s, step) && h in t.handles
    ensures HeldOk(t, t.handles[h])
  {
    if h in s.handles {
      NextHeld(s, step, h);
    } else {
      NewIsOpened(s, step, h);
      OpeningOk(s, h, step.inode);
    }
  }

  lemma NextOk(s: System, step: Step)
    requires Sound(s) && Can(s, step)
    ensures Sound(Next(s, step))
  {
    NextTables(s, step);
    var t := Next(s, step);
    forall h | h in t.handles ensures HeldOk(t, t.handles[h]) {
      NextHandleOk(s, step, t, h);
    }
  }

  lemma NextHeld(s: System, step: Step, h: nat)
    requires Sound(s) && Can(s, step) && h in s.handles
    ensures h in Next(s, step).handles && HeldOk(Next(s, step), Next(s, step).handles[h])
  {
    var t := Next(s, step);
    NextSame(s, step, h);
    if Current(t, t.handles[h]) {
      assert Current(t, s.handles[h]);
      NextShown(s, step, s.handles[h]);
    }
  }

  // ---------------------------------------------------------------------
  // Runs
  // ---------------------------------------------------------------------

  ghost predicate GoesAt(states: seq<System>, steps: seq<Step>, i: nat)
    requires i < |steps| && |states| == |steps| + 1
  {
    Can(states[i], steps[i]) && states[i + 1] == Next(states[i], steps[i])
  }

  ghost predicate SystemRun(states: seq<System>, steps: seq<Step>) {
    && |states| == |steps| + 1
    && forall i | 0 <= i < |steps| :: GoesAt(states, steps, i)
  }

  function Beginning(c: Cache): System {
    System(c, 0, map[], map[], map[])
  }

  lemma BeginningSound(c: Cache)
    requires Initial(c)
    ensures Sound(Beginning(c))
  {
    InitialConsistent(c);
  }

  lemma GoesOn(states: seq<System>, steps: seq<Step>, i: nat, t: System)
    requires SystemRun(states, steps) && i < |steps| && t == states[i + 1] && Sound(states[i])
    ensures Can(states[i], steps[i]) && t == Next(states[i], steps[i]) && Sound(t)
  {
    assert GoesAt(states, steps, i);
    NextOk(states[i], steps[i]);
  }

  lemma {:induction false} RunSound(states: seq<System>, steps: seq<Step>, j: nat)
    requires SystemRun(states, steps) && Sound(states[0]) && j <= |steps|
    ensures Sound(states[j])
  {
    if j > 0 {
      RunSound(states, steps, j - 1);
      GoesOn(states, steps, j - 1, states[j]);
    }
  }

  ghost predicate Kept(states: seq<System>, id: BlobId, i: nat, j: nat)
    requires i <= j < |states|
  {
    forall m | i <= m <= j :: id in states[m].cache.blobs
  }

  lemma CurrentGoesOn(states: seq<System>, steps: seq<Step>, i: nat, t: System, h: nat)
    requires SystemRun(states, steps) && Sound(states[0]) && i < |steps| && t == states[i + 1] && h in states[i].handles
    ensures h in t.handles && Alike(states[i].handles[h], t.handles[h])
    ensures Current(t, t.handles[h]) <==>
              Current(states[i], states[i].handles[h]) && states[i].handles[h].entry.blob.value in t.cache.blobs
  {
    RunSound(states, steps, i);
    GoesOn(states, steps, i, t);
    NextSame(states[i], steps[i], h);
    NextCurrent(states[i], steps[i], states[i].handles[h]);
  }

  lemma KeptOneMore(states: seq<System>, id: BlobId, i: nat, j: nat)
    requires i < j < |states|
    ensures Kept(states, id, i, j) <==> Kept(states, id, i, j - 1) && id in states[j].cache.blobs
  {
  }

  /** The handle is the one opened as `g`, and it is current exactly as long as the blob was kept. */
  ghost predicate CurrentAsKept(states: seq<System>, h: nat, g: Held, i: nat, j: nat)
    requires i <= j < |states|
  {
    && h in states[j].handles && Alike(g, states[j].handles[h]) && g.entry.blob.Some?
    && (Current(states[j], states[j].handles[h]) <==> Kept(states, g.entry.blob.value, i, j))
  }

  lemma StillAsKept(states: seq<System>, steps: seq<Step>, h: nat, g: Held, i: nat, j: nat)
    requires SystemRun(states, steps) && Sound(states[0]) && i < j <= |steps|
    requires CurrentAsKept(states, h, g, i, j - 1)
    ensures CurrentAsKept(states, h, g, i, j)
  {
    CurrentGoesOn(states, steps, j - 1, states[j], h);
    KeptOneMore(states, g.entry.blob.value, i, j);
  }

  lemma {:induction false} CurrentSince(states: seq<System>, steps: seq<Step>, h: nat, g: Held, i: nat, j: nat)
    requires SystemRun(states, steps) && Sound(states[0]) && i <= j <= |steps|
    requires CurrentAsKept(states, h, g, i, i)
    ensures CurrentAsKept(states, h, g, i, j)
    decreases j
  {
    if i < j {
      CurrentSince(states, steps, h, g, i, j - 1);
      StillAsKept(states, steps, h, g, i, j);
    }
  }

  lemma CurrentIsThere(s: System, g: Held)
    requires Sound(s) && Current(s, g)
    ensures g.entry.blob.value in s.cache.blobs
  {
  }

  lemma KeptForNow(states: seq<System>, h: nat, i: nat)
    requires i < |states| && h in states[i].handles && Current(states[i], states[i].handles[h])
    requires states[i].handles[h].entry.blob.value in states[i].cache.blobs
    ensures CurrentAsKept(states, h, states[i].handles[h], i, i)
  {
  }

  lemma CurrentIsKept(states: seq<System>, steps: seq<Step>, i: nat, h: nat)
    requires SystemRun(states, steps) && Sound(states[0]) && i <= |steps|
    requires h in states[i].handles && Current(states[i], states[i].handles[h])
    ensures CurrentAsKept(states, h, states[i].handles[h], i, i)
  {
    RunSound(states, steps, i);
    CurrentIsThere(states[i], states[i].handles[h]);
    KeptForNow(states, h, i);
  }

  /** In every run, a handle is current exactly as long as its blob was not dropped since it was opened. */
  lemma CurrentIffKept(states: seq<System>, steps: seq<Step>, h: nat, i: nat, j: nat)
    requires SystemRun(states, steps) && Sound(states[0]) && i <= j <= |steps|
    requires h in states[i].handles && Current(states[i], states[i].handles[h])
    ensures h in states[j].handles && Alike(states[i].handles[h], states[j].handles[h])
    ensures Current(states[j], states[j].handles[h]) <==> Kept(states, states[i].handles[h].entry.blob.value, i, j)
  {
    CurrentIsKept(states, steps, i, h);
    CurrentSince(states, steps, h, states[i].handles[h], i, j);
  }
}
