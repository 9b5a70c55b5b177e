/** Whether what a handle takes to be available is stored, or waiting to be. */
module Accounting {
  import opened Common
  import opened Ranges
  import opened ByteRangeSets
  import opened Directory
  import opened Cache
  import opened CacheInvariant
  import opened Displacing
  import opened Handles
  import Blobs

  /** The handle and the areas stored under its blob's id. */
  ghost function View(s: System, g: Held): Blobs.Opened
    requires g.entry.blob.Some?
  {
    Blobs.Opened(g.handle, StoredFor(s.cache, g.entry.blob.value))
  }

  function StoredFor(c: Cache, id: BlobId): Option<Boundaries> {
    if id in c.blobs then Some(c.blobs[id].written) else None
  }

  /** What a transaction that is not the handle's own means for it. */
  ghost function TableEvent(s: System, step: Step, id: BlobId, d: Cache): Blobs.Event {
    if id in s.cache.blobs && id !in d.blobs then Blobs.Dropped
    else if id !in s.cache.blobs && id in d.blobs then Blobs.HandedOut(d.blobs[id].written)
    else if id in s.cache.blobs && Fills(s.cache, step, id)
    then Blobs.Overwritten(SingleOf(0, Filling(s.cache, step).value.1))
    else Blobs.Nothing
  }

  function AttemptEvent(attempt: Blobs.Attempt, there: bool): Blobs.Event {
    match attempt
    case FlushError => Blobs.FlushFails
    case Lost(done) => Blobs.TaskLost(done && there)
    case Flushes => if there then Blobs.StoreOk else Blobs.StoreFails
  }

  /** What a step means for the handle `h`. */
  ghost function EventOf(s: System, step: Step, h: nat): Blobs.Event
    requires Can(s, step) && HandleThere(s, h)
  {
    var id := s.handles[h].entry.blob.value;
    match step
    case Transact(_) => TableEvent(s, step, id, CacheAfter(s, step))
    case OpenAt(_, _) => TableEvent(s, step, id, CacheAfter(s, step))
    case Write(k, len) => if k == h then Blobs.Write(len) else Blobs.Nothing
    case Seek(k, pos) => if k == h then Blobs.Seek(pos) else Blobs.Nothing
    case Store(k, attempt) =>
      if k == h then AttemptEvent(attempt, id in s.cache.blobs)
      else if Extends(s, step, id) && id in s.cache.blobs then Blobs.Elsewhere(s.handles[k].handle.pending)
      else Blobs.Nothing
    case Confirm(_) => Blobs.Nothing
  }

  lemma AreasStay(s: System, step: Step, d: Cache)
    requires Owned(s.cache) && Can(s, step) && d == CacheAfter(s, step)
    ensures AreasWellFormed(d.blobs)
  {
    match ActionOf(s, step)
    case None =>
    case Some(a) =>
      ActionEnabled(s, step);
      AfterOwned(s.cache, a);
  }

  lemma TableChanges(s: System, step: Step, id: BlobId, d: Cache, o: Blobs.Opened)
    requires AreasWellFormed(d.blobs) && o.stored == StoredFor(s.cache, id)
    requires id in d.blobs ==> Effect(s, step, id, d.blobs[id]) && !Extends(s, step, id) && !Verifies(s, step, id)
    ensures Blobs.CanHappen(o, TableEvent(s, step, id, d))
    ensures Blobs.Happened(o, TableEvent(s, step, id, d)) == o.(stored := StoredFor(d, id))
  {
  }

  lemma TableIsEvent(s: System, step: Step, id: BlobId, d: Cache, o: Blobs.Opened)
    requires Owned(s.cache) && Can(s, step) && d == CacheAfter(s, step) && (step.Transact? || step.OpenAt?)
    requires o.stored == StoredFor(s.cache, id)
    ensures Blobs.CanHappen(o, TableEvent(s, step, id, d))
    ensures Blobs.Happened(o, TableEvent(s, step, id, d)) == o.(stored := StoredFor(d, id))
  {
    AreasStay(s, step, d);
    if id in d.blobs {
      StepEffect(s, step, id);
    }
    TableChanges(s, step, id, d, o);
  }

  lemma HandleStays(s: System, step: Step, h: nat)
    requires Can(s, step) && h in s.handles && (step.Transact? || step.h != h)
    ensures h in Next(s, step).handles && Next(s, step).handles[h] == s.handles[h]
  {
  }

  lemma StoreElsewhere(s: System, k: nat, attempt: Blobs.Attempt, id: BlobId)
    requires Can(s, Store(k, attempt))
    ensures StoredFor(CacheAfter(s, Store(k, attempt)), id) ==
            if Extends(s, Store(k, attempt), id) && id in s.cache.blobs
            then Some(UnionOf(s.cache.blobs[id].written, s.handles[k].handle.pending)) else StoredFor(s.cache, id)
  {
  }

  lemma StoreIsEvent(s: System, h: nat, attempt: Blobs.Attempt)
    requires Can(s, Store(h, attempt))
    ensures var g, t := s.handles[h], Next(s, Store(h, attempt));
            var e := AttemptEvent(attempt, g.entry.blob.value in s.cache.blobs);
            && h in t.handles && t.handles[h].entry == g.entry
            && Blobs.CanHappen(View(s, g), e) && View(t, t.handles[h]) == Blobs.Happened(View(s, g), e)
  {
    StoreElsewhere(s, h, attempt, s.handles[h].entry.blob.value);
  }

  lemma PlainIsEvent(s: System, step: Step, h: nat)
    requires Can(s, step) && HandleThere(s, h) && (step.Write? || step.Seek? || step.Confirm?)
    ensures var g, t := s.handles[h], Next(s, step);
            && HandleThere(t, h) && t.handles[h].entry == g.entry
            && Blobs.CanHappen(View(s, g), EventOf(s, step, h))
            && View(t, t.handles[h]) == Blobs.Happened(View(s, g), EventOf(s, step, h))
  {
  }

  /** Every step is one of the things that can happen to a handle. */
  lemma StepIsEvent(s: System, step: Step, h: nat)
    requires Owned(s.cache) && Can(s, step) && HandleThere(s, h)
    ensures var g, t := s.handles[h], Next(s, step);
            && HandleThere(t, h) && t.handles[h].entry == g.entry
            && Blobs.CanHappen(View(s, g), EventOf(s, step, h))
            && View(t, t.handles[h]) == Blobs.Happened(View(s, g), EventOf(s, step, h))
  {
    var id := s.handles[h].entry.blob.value;
    match step
    case Transact(_) =>
      HandleStays(s, step, h);
      TableIsEvent(s, step, id, CacheAfter(s, step), View(s, s.handles[h]));
    case OpenAt(_, _) =>
      HandleStays(s, step, h);
      TableIsEvent(s, step, id, CacheAfter(s, step), View(s, s.handles[h]));
    case Write(_, _) => PlainIsEvent(s, step, h);
    case Seek(_, _) => PlainIsEvent(s, step, h);
    case Store(k, attempt) =>
      if k == h {
        StoreIsEvent(s, h, attempt);
      } else {
        HandleStays(s, step, h);
        StoreElsewhere(s, k, attempt, id);
      }
    case Confirm(_) => PlainIsEvent(s, step, h);
  }

  // ---------------------------------------------------------------------
  // Losing track
  // ---------------------------------------------------------------------

  /**
   * The step makes the handle lose track of bytes: its own thread dies with ranges that are not
   * stored yet, or somebody else's transaction drops the blob under its id, or moves a file into it
   * that is too short.
   */
  ghost predicate Forgets(s: System, step: Step, h: nat)
    requires Can(s, step) && HandleThere(s, h)
  {
    var g := s.handles[h];
    var id := g.entry.blob.value;
    match step
    case Store(k, attempt) =>
      && k == h && attempt.Lost? && !(attempt.done && id in s.cache.blobs)
      && exists x: nat ::
           Covers(g.handle.available, x) && Covers(g.handle.pending, x) && !Blobs.IsStored(View(s, g), x)
    case Transact(a) =>
      && id in s.cache.blobs
      && (|| (DropsBlob(s.cache, a, id) && exists x: nat :: Blobs.Settled(g.handle, x))
          || (Fills(s.cache, step, id)
              && exists x: nat :: Blobs.Settled(g.handle, x) && x >= Filling(s.cache, step).value.1))
    case _ => false
  }

  lemma OverwrittenForgets(h: Blobs.Handle, size: u64)
    ensures (exists x: nat :: Blobs.Settled(h, x) && !Covers(SingleOf(0, size), x)) <==>
            (exists x: nat :: Blobs.Settled(h, x) && x >= size)
  {
    SingleIsExact(0, size);
    if x: nat :| Blobs.Settled(h, x) && x >= size {
      assert !Covers(SingleOf(0, size), x);
    }
  }

  lemma OpenDropsNothing(s: System, step: Step, id: BlobId)
    requires Can(s, step) && step.OpenAt?
    ensures !TableEvent(s, step, id, CacheAfter(s, step)).Dropped?
    ensures !TableEvent(s, step, id, CacheAfter(s, step)).Overwritten?
  {
    if id in s.cache.blobs {
      StepKeeps(s, step, id);
    }
  }

  lemma FillingDropsNothing(s: System, a: Action, id: BlobId)
    requires Fills(s.cache, Transact(a), id)
    ensures !DropsBlob(s.cache, a, id)
  {
  }

  lemma TransactForgets(s: System, a: Action, h: nat)
    requires Owned(s.cache) && Can(s, Transact(a)) && HandleThere(s, h)
    ensures Forgets(s, Transact(a), h) <==> Blobs.Forgets(View(s, s.handles[h]), EventOf(s, Transact(a), h))
  {
    TableForgets(s, a, s.handles[h].entry.blob.value, After(s.cache, a), View(s, s.handles[h]));
  }

  lemma TableForgets(s: System, a: Action, id: BlobId, d: Cache, o: Blobs.Opened)
    requires Owned(s.cache) && Enabled(s.cache, a) && d == After(s.cache, a)
    ensures Blobs.Forgets(o, TableEvent(s, Transact(a), id, d)) <==>
              && id in s.cache.blobs
              && (|| (DropsBlob(s.cache, a, id) && exists x: nat :: Blobs.Settled(o.handle, x))
                  || (Fills(s.cache, Transact(a), id)
                      && exists x: nat :: Blobs.Settled(o.handle, x) && x >= Filling(s.cache, Transact(a)).value.1))
  {
    if id in s.cache.blobs {
      DropsBlobExactly(s.cache, a, id);
    }
    if Fills(s.cache, Transact(a), id) {
      FillingDropsNothing(s, a, id);
    }
    TableForgetsIf(s, Transact(a), id, d.blobs.Keys, DropsBlob(s.cache, a, id), o, TableEvent(s, Transact(a), id, d));
  }

  lemma TableForgetsIf(s: System, step: Step, id: BlobId, left: set<BlobId>, drops: bool,
                       o: Blobs.Opened, e: Blobs.Event)
    requires id in s.cache.blobs ==> (id !in left <==> drops)
    requires Fills(s.cache, step, id) ==> !drops
    requires id in s.cache.blobs && id !in left ==> e == Blobs.Dropped
    requires id in s.cache.blobs && id in left ==>
               e == if Fills(s.cache, step, id) then Blobs.Overwritten(SingleOf(0, Filling(s.cache, step).value.1))
                    else Blobs.Nothing
    requires id !in s.cache.blobs ==> e.HandedOut? || e.Nothing?
    ensures Blobs.Forgets(o, e) <==>
              && id in s.cache.blobs
              && (|| (drops && exists x: nat :: Blobs.Settled(o.handle, x))
                  || (Fills(s.cache, step, id)
                      && exists x: nat :: Blobs.Settled(o.handle, x) && x >= Filling(s.cache, step).value.1))
  {
    if Fills(s.cache, step, id) {
      OverwrittenForgets(o.handle, Filling(s.cache, step).value.1);
    }
  }

  lemma ForgetsIsEvent(s: System, step: Step, h: nat)
    requires Owned(s.cache) && Can(s, step) && HandleThere(s, h)
    ensures Forgets(s, step, h) <==> Blobs.Forgets(View(s, s.handles[h]), EventOf(s, step, h))
  {
    var id := s.handles[h].entry.blob.value;
    match step
    case Transact(a) => TransactForgets(s, a, h);
    case OpenAt(_, _) => OpenDropsNothing(s, step, id);
    case _ =>
  }

  lemma ViewOk(s: System, h: nat)
    requires Sound(s) && h in s.handles
    ensures HandleThere(s, h) && Blobs.HandleOk(View(s, s.handles[h]))
  {
    assert HeldOk(s, s.handles[h]);
  }

  /** What is available stays stored or pending, except exactly through such a step. */
  lemma NextAccounted(s: System, step: Step, h: nat)
    requires Sound(s) && Can(s, step) && HandleThere(s, h) && Blobs.Accounted(View(s, s.handles[h]))
    ensures HandleThere(Next(s, step), h)
    ensures Blobs.Accounted(View(Next(s, step), Next(s, step).handles[h])) <==> !Forgets(s, step, h)
  {
    ViewOk(s, h);
    StepIsEvent(s, step, h);
    ForgetsIsEvent(s, step, h);
    Blobs.HappenedAccounted(View(s, s.handles[h]), EventOf(s, step, h));
  }

  lemma OpenedAccounted(s: System, h: nat, inode: Inode)
    requires Sound(s) && Can(s, OpenAt(h, inode))
    ensures HandleThere(Next(s, OpenAt(h, inode)), h)
    ensures Blobs.Accounted(View(Next(s, OpenAt(h, inode)), Next(s, OpenAt(h, inode)).handles[h]))
  {
    var d := OpenFile(s.cache, inode).value;
    OpenedBlob(s.cache, inode, d);
    OpeningIs(s, h, inode, d);
    OpenedView(s, Next(s, OpenAt(h, inode)), inode, d);
  }

  lemma OpenedView(s: System, t: System, inode: Inode, d: Cache)
    requires t.cache == d && DefaultOf(inode) in d.files && d.files[DefaultOf(inode)].blob.Some?
    requires d.files[DefaultOf(inode)].blob.value in d.blobs
    ensures Blobs.Accounted(View(t, Opening(s, inode, d)))
  {
    var o := View(t, Opening(s, inode, d));
    forall x: nat | Covers(o.handle.available, x) ensures Blobs.IsStored(o, x) {
    }
  }

  ghost predicate NeverForgets(states: seq<System>, steps: seq<Step>, h: nat, i: nat, j: nat)
    requires i <= j <= |steps| && |states| == |steps| + 1
  {
    forall m | i <= m < j :: Can(states[m], steps[m]) && HandleThere(states[m], h) ==> !Forgets(states[m], steps[m], h)
  }

  lemma AccountedGoesOn(states: seq<System>, steps: seq<Step>, h: nat, i: nat, t: System)
    requires SystemRun(states, steps) && Sound(states[0]) && i < |steps| && t == states[i + 1]
    requires HandleThere(states[i], h) && Blobs.Accounted(View(states[i], states[i].handles[h]))
    requires Can(states[i], steps[i]) ==> !Forgets(states[i], steps[i], h)
    ensures HandleThere(t, h) && Blobs.Accounted(View(t, t.handles[h]))
  {
    RunSound(states, steps, i);
    GoesOn(states, steps, i, t);
    NextAccounted(states[i], steps[i], h);
  }

  /** In every run, everything available to a handle is stored or pending from when it was opened until such a step. */
  lemma {:induction false} AlwaysAccounted(states: seq<System>, steps: seq<Step>, h: nat, inode: Inode, i: nat, j: nat)
    requires SystemRun(states, steps) && Sound(states[0]) && i < j <= |steps| && steps[i] == OpenAt(h, inode)
    requires NeverForgets(states, steps, h, i + 1, j)
    ensures HandleThere(states[j], h) && Blobs.Accounted(View(states[j], states[j].handles[h]))
    decreases j
  {
    if j == i + 1 {
      RunSound(states, steps, i);
      GoesOn(states, steps, i, states[j]);
      OpenedAccounted(states[i], h, inode);
    } else {
      AlwaysAccounted(states, steps, h, inode, i, j - 1);
      AccountedGoesOn(states, steps, h, j - 1, states[j]);
    }
  }
}
