/** Where the data recorded for a blob comes from. */
module Provenance {
  import opened Common
  import opened Ranges
  import opened ByteRangeSets
  import opened Directory
  import opened Cache
  import opened CacheInvariant
  import opened BlobVersions
  import opened Handles
  import Blobs

  // ---------------------------------------------------------------------
  // Where an update goes
  // ---------------------------------------------------------------------

  /** The update went to the blob of the entry that the handle was opened for. */
  ghost predicate ReachedOwn(s: System, t: System, g: Held) {
    && ShownWith(s.cache, g.inode, g.entry) && g.entry.blob.Some? && g.entry.blob.value in s.cache.blobs
    && t.cache.blobs == Extended(s.cache.blobs, g.entry.blob.value, g.handle.pending)
  }

  /** The update went to a blob that was made later, for the entry shown with it. */
  ghost predicate ReachedOther(s: System, t: System, g: Held) {
    && g.entry.blob.Some? && g.entry.blob.value in s.cache.blobs && Stale(s, g)
    && (exists i, e :: ShownWith(s.cache, i, e) && e.blob == g.entry.blob)
    && t.cache.blobs == Extended(s.cache.blobs, g.entry.blob.value, g.handle.pending)
  }

  ghost predicate Refused(s: System, t: System, h: nat) {
    t.cache == s.cache && t.handles == s.handles && h in s.handles
  }

  lemma StoreIs(s: System, h: nat)
    requires BornOk(s) && Can(s, Store(h, Blobs.Flushes)) && s.handles[h].handle.pending != []
    ensures var id, t := s.handles[h].entry.blob.value, Next(s, Store(h, Blobs.Flushes));
            if id in s.cache.blobs then t.cache.blobs == Extended(s.cache.blobs, id, s.handles[h].handle.pending)
            else Refused(s, t, h)
  {
  }

  /**
   * An update goes to the blob of the handle's own version if that is still there, is refused if
   * there is none with its id, and otherwise goes to another version's blob.
   */
  lemma StoreReaches(s: System, h: nat)
    requires Sound(s) && Can(s, Store(h, Blobs.Flushes)) && s.handles[h].handle.pending != []
    ensures var g, t := s.handles[h], Next(s, Store(h, Blobs.Flushes));
            && (Current(s, g) ==> ReachedOwn(s, t, g))
            && (Stale(s, g) ==> ReachedOther(s, t, g))
            && (g.entry.blob.value !in s.cache.blobs ==> Refused(s, t, h))
            && (Current(s, g) || Stale(s, g) || g.entry.blob.value !in s.cache.blobs)
  {
    var g := s.handles[h];
    assert HeldOk(s, g);
    StoreIs(s, h);
    if Stale(s, g) {
      var i, e := OwnerOf(s.cache, g.entry.blob.value);
    }
  }

  /**
   * In every run, the update of a handle goes to the blob made for its version exactly if that blob
   * was never dropped since the handle was opened. Otherwise it is refused, unless the id was
   * handed out again.
   */
  lemma UpdateReachesOwn(states: seq<System>, steps: seq<Step>, h: nat, i: nat, j: nat)
    requires SystemRun(states, steps) && Sound(states[0]) && i <= j < |steps|
    requires h in states[i].handles && Current(states[i], states[i].handles[h])
    requires steps[j] == Store(h, Blobs.Flushes)
    ensures h in states[j].handles
    ensures states[j].handles[h].handle.pending != [] ==>
              var id, g := states[i].handles[h].entry.blob.value, states[j].handles[h];
              && (Kept(states, id, i, j) <==> ReachedOwn(states[j], states[j + 1], g) && Current(states[j], g))
              && (!Kept(states, id, i, j) && id in states[j].cache.blobs ==> ReachedOther(states[j], states[j + 1], g))
              && (id !in states[j].cache.blobs ==> Refused(states[j], states[j + 1], h))
  {
    CurrentIffKept(states, steps, h, i, j);
    RunSound(states, steps, j);
    GoesOn(states, steps, j, states[j + 1]);
    if states[j].handles[h].handle.pending != [] {
      StoreReaches(states[j], h);
    }
  }

  // ---------------------------------------------------------------------
  // Bytes
  // ---------------------------------------------------------------------

  /** The handle was opened on this very blob, and the byte was written through it. */
  ghost predicate WroteTo(s: System, g: Held, id: BlobId, x: nat) {
    g.entry.blob == Some(id) && Current(s, g) && Covers(g.wrote, x)
  }

  /** The byte was moved into this blob, or written to it. */
  ghost predicate Sourced(s: System, id: BlobId, x: nat) {
    || (id in s.filled && x < s.filled[id])
    || exists h | h in s.handles :: WroteTo(s, s.handles[h], id, x)
  }

  /** Whatever the table says of a blob was moved into it or written through a handle on it. */
  ghost predicate Genuine(s: System) {
    forall id, x: nat | id in s.cache.blobs && Covers(s.cache.blobs[id].written, x) :: Sourced(s, id, x)
  }

  /** A handle stores ranges in a blob that it was not opened on, and these were not written to that blob. */
  ghost predicate Pollutes(s: System, step: Step) {
    && step.Store? && step.h in s.handles && Stale(s, s.handles[step.h])
    && Extends(s, step, s.handles[step.h].entry.blob.value)
    && exists x: nat ::
       Covers(s.handles[step.h].handle.pending, x) && !Sourced(s, s.handles[step.h].entry.blob.value, x)
  }

  lemma WroteStays(s: System, step: Step, h: nat, id: BlobId, x: nat)
    requires Sound(s) && Can(s, step) && h in s.handles && WroteTo(s, s.handles[h], id, x)
    requires id in Next(s, step).cache.blobs
    ensures h in Next(s, step).handles && WroteTo(Next(s, step), Next(s, step).handles[h], id, x)
  {
    NextSame(s, step, h);
    NextCurrent(s, step, s.handles[h]);
  }

  lemma FilledStays(s: System, step: Step, id: BlobId)
    requires Can(s, step) && id in s.filled && id in s.cache.blobs
    requires id in Next(s, step).cache.blobs && !Fills(s.cache, step, id)
    ensures id in Next(s, step).filled && Next(s, step).filled[id] == s.filled[id]
  {
  }

  lemma SourcedStays(s: System, step: Step, id: BlobId, x: nat)
    requires Sound(s) && Can(s, step) && Sourced(s, id, x) && id in s.cache.blobs
    requires id in Next(s, step).cache.blobs && !Fills(s.cache, step, id)
    ensures Sourced(Next(s, step), id, x)
  {
    if id in s.filled && x < s.filled[id] {
      FilledStays(s, step, id);
    } else {
      var h :| h in s.handles && WroteTo(s, s.handles[h], id, x);
      WroteStays(s, step, h, id, x);
    }
  }

  lemma FilledIs(s: System, step: Step, id: BlobId)
    requires Can(s, step) && id in CacheAfter(s, step).blobs && Fills(s.cache, step, id)
    ensures id in Next(s, step).filled && Next(s, step).filled[id] == Filling(s.cache, step).value.1
  {
  }

  /** Where a byte that the table has after the step comes from. */
  lemma ByteComesFrom(s: System, step: Step, id: BlobId, x: nat)
    requires Owned(s.cache) && Can(s, step) && id in CacheAfter(s, step).blobs
    requires Covers(CacheAfter(s, step).blobs[id].written, x)
    ensures
      || (Fills(s.cache, step, id) && x < Filling(s.cache, step).value.1)
      || (!Fills(s.cache, step, id) && id in s.cache.blobs && Covers(s.cache.blobs[id].written, x))
      || (Extends(s, step, id) && id in s.cache.blobs && Covers(s.handles[step.h].handle.pending, x))
  {
    StepEffect(s, step, id);
    if Fills(s.cache, step, id) {
      SingleIsExact(0, Filling(s.cache, step).value.1);
    } else if Extends(s, step, id) && id in s.cache.blobs {
      UnionIsExact(s.cache.blobs[id].written, s.handles[step.h].handle.pending);
    }
  }

  lemma PendingWrote(s: System, step: Step, id: BlobId, x: nat)
    requires Sound(s) && Can(s, step) && Extends(s, step, id) && Covers(s.handles[step.h].handle.pending, x)
    requires Current(s, s.handles[step.h])
    ensures Sourced(s, id, x)
  {
    assert HeldOk(s, s.handles[step.h]);
    assert WroteTo(s, s.handles[step.h], id, x);
  }

  lemma ByteSourced(s: System, step: Step, id: BlobId, x: nat)
    requires Sound(s) && Genuine(s) && Can(s, step) && !Pollutes(s, step)
    requires id in Next(s, step).cache.blobs && Covers(Next(s, step).cache.blobs[id].written, x)
    ensures Sourced(Next(s, step), id, x)
  {
    ByteComesFrom(s, step, id, x);
    if Fills(s.cache, step, id) {
      FilledIs(s, step, id);
      ExtendsFills(s, step, id);
    } else {
      if !Covers(s.cache.blobs[id].written, x) {
        assert HeldOk(s, s.handles[step.h]);
        if Current(s, s.handles[step.h]) {
          PendingWrote(s, step, id, x);
        }
      }
      SourcedStays(s, step, id, x);
    }
  }

  lemma ExtendsFills(s: System, step: Step, id: BlobId)
    ensures !(Extends(s, step, id) && Fills(s.cache, step, id))
  {
  }

  lemma SourcedBack(s: System, step: Step, id: BlobId, x: nat)
    requires Sound(s) && Can(s, step) && step.Store? && Sourced(Next(s, step), id, x)
    ensures Sourced(s, id, x)
  {
    var t := Next(s, step);
    StoreKeepsTables(s, step);
    if !(id in t.filled && x < t.filled[id]) {
      var h :| h in t.handles && WroteTo(t, t.handles[h], id, x);
      assert WroteTo(s, s.handles[h], id, x);
    }
  }

  lemma StoreKeepsTables(s: System, step: Step)
    requires BornOk(s) && Can(s, step) && step.Store?
    ensures Next(s, step).filled == s.filled && Next(s, step).born == s.born
    ensures Next(s, step).handles.Keys == s.handles.Keys
    ensures forall h | h in s.handles ::
              Alike(s.handles[h], Next(s, step).handles[h]) && Next(s, step).handles[h].wrote == s.handles[h].wrote
  {
    assert CacheAfter(s, step).blobs.Keys == s.cache.blobs.Keys;
  }

  lemma PolluteBreaks(s: System, step: Step)
    requires Sound(s) && Can(s, step) && Pollutes(s, step)
    ensures !Genuine(Next(s, step))
  {
    var g, t := s.handles[step.h], Next(s, step);
    var id := g.entry.blob.value;
    var x: nat :| Covers(g.handle.pending, x) && !Sourced(s, id, x);
    StepKeeps(s, step, id);
    StepEffect(s, step, id);
    ExtendsFills(s, step, id);
    assert HeldOk(s, g);
    UnionIsExact(s.cache.blobs[id].written, g.handle.pending);
    assert Covers(t.cache.blobs[id].written, x);
    if Sourced(t, id, x) {
      SourcedBack(s, step, id, x);
    }
  }

  /** Every step keeps this, except exactly when ranges are stored in a blob that they were not written to. */
  lemma NextGenuine(s: System, step: Step)
    requires Sound(s) && Genuine(s) && Can(s, step)
    ensures Genuine(Next(s, step)) <==> !Pollutes(s, step)
  {
    if Pollutes(s, step) {
      PolluteBreaks(s, step);
    } else {
      forall id, x: nat | id in Next(s, step).cache.blobs && Covers(Next(s, step).cache.blobs[id].written, x)
        ensures Sourced(Next(s, step), id, x)
      {
        ByteSourced(s, step, id, x);
      }
    }
  }

  /** The step stores or confirms something through a handle while another blob has the id of its own. */
  ghost predicate UsesStale(s: System, step: Step) {
    (step.Store? || step.Confirm?) && step.h in s.handles && Stale(s, s.handles[step.h])
  }

  lemma GenuineGoesOn(states: seq<System>, steps: seq<Step>, i: nat, t: System)
    requires SystemRun(states, steps) && Sound(states[0]) && i < |steps| && t == states[i + 1]
    requires Genuine(states[i]) && !UsesStale(states[i], steps[i])
    ensures Genuine(t)
  {
    RunSound(states, steps, i);
    GoesOn(states, steps, i, t);
    NextGenuine(states[i], steps[i]);
  }

  ghost predicate NoneStale(states: seq<System>, steps: seq<Step>, j: nat)
    requires j <= |steps| && |states| == |steps| + 1
  {
    forall i | 0 <= i < j :: !UsesStale(states[i], steps[i])
  }

  /**
   * In every run in which no handle is used to store anything while another blob has the id of its own, all
   * data recorded for a blob was moved into it or written through a handle on it.
   */
  lemma {:induction false} RunGenuine(states: seq<System>, steps: seq<Step>, j: nat)
    requires SystemRun(states, steps) && Sound(states[0]) && Genuine(states[0]) && j <= |steps|
    requires NoneStale(states, steps, j)
    ensures Genuine(states[j])
  {
    if j > 0 {
      RunGenuine(states, steps, j - 1);
      assert !UsesStale(states[j - 1], steps[j - 1]);
      GenuineGoesOn(states, steps, j - 1, states[j]);
    }
  }

  /** In such a state, a byte recorded for the version shown was moved in, or written through a handle on it. */
  lemma GenuineIsShown(s: System, inode: Inode, e: FileEntry, x: nat) returns (h: nat)
    requires Sound(s) && Genuine(s) && ShownWith(s.cache, inode, e) && e.blob.Some? && e.blob.value in s.cache.blobs
    requires Covers(s.cache.blobs[e.blob.value].written, x)
    ensures
      || (e.blob.value in s.filled && x < s.filled[e.blob.value])
      || (h in s.handles && s.handles[h].inode == inode && s.handles[h].entry == e && Covers(s.handles[h].wrote, x))
  {
    h := 0;
    if !(e.blob.value in s.filled && x < s.filled[e.blob.value]) {
      assert Sourced(s, e.blob.value, x);
      h :| h in s.handles && WroteTo(s, s.handles[h], e.blob.value, x);
      assert HeldOk(s, s.handles[h]);
      OwnerIsOne(s.cache, inode, e, s.handles[h].inode, s.handles[h].entry);
    }
  }

  // ---------------------------------------------------------------------
  // Content hashes
  // ---------------------------------------------------------------------

  /** The handle was opened on this very blob for a version with this hash, and confirmed it. */
  ghost predicate Vouches(s: System, g: Held, id: BlobId, hash: Hash) {
    g.entry.blob == Some(id) && Current(s, g) && g.confirmed && g.entry.version.hash == hash
  }

  ghost predicate VouchedFor(s: System, id: BlobId, hash: Hash) {
    exists h | h in s.handles :: Vouches(s, s.handles[h], id, hash)
  }

  ghost predicate Vouched(s: System) {
    forall id | id in s.cache.blobs && s.cache.blobs[id].contentHash.Some? ::
      VouchedFor(s, id, s.cache.blobs[id].contentHash.value)
  }

  /** A handle confirms the content of a blob that it was not opened on. */
  ghost predicate Misleads(s: System, step: Step) {
    && step.Confirm? && step.h in s.handles && Stale(s, s.handles[step.h])
    && !VouchedFor(s, s.handles[step.h].entry.blob.value, s.handles[step.h].entry.version.hash)
  }

  lemma ConfirmedStays(s: System, step: Step, h: nat)
    requires Can(s, step) && h in s.handles && s.handles[h].confirmed
    ensures h in Next(s, step).handles && Next(s, step).handles[h].confirmed
  {
  }

  lemma VouchesStays(s: System, step: Step, h: nat, id: BlobId, hash: Hash)
    requires Sound(s) && Can(s, step) && h in s.handles && Vouches(s, s.handles[h], id, hash)
    requires id in Next(s, step).cache.blobs
    ensures h in Next(s, step).handles && Vouches(Next(s, step), Next(s, step).handles[h], id, hash)
  {
    ConfirmedStays(s, step, h);
    NextSame(s, step, h);
    NextCurrent(s, step, s.handles[h]);
  }

  lemma VouchedForStays(s: System, step: Step, id: BlobId, hash: Hash)
    requires Sound(s) && Can(s, step) && VouchedFor(s, id, hash) && id in Next(s, step).cache.blobs
    ensures VouchedFor(Next(s, step), id, hash)
  {
    var h :| h in s.handles && Vouches(s, s.handles[h], id, hash);
    VouchesStays(s, step, h, id, hash);
  }

  lemma ConfirmVouches(s: System, h: nat, g: Held)
    requires Sound(s) && HandleThere(s, h) && g == s.handles[h] && Current(s, g)
    ensures VouchedFor(Next(s, Confirm(h)), g.entry.blob.value, g.entry.version.hash)
  {
    var t := Next(s, Confirm(h));
    StepKeeps(s, Confirm(h), g.entry.blob.value);
    NextSame(s, Confirm(h), h);
    NextCurrent(s, Confirm(h), g);
    assert Vouches(t, t.handles[h], g.entry.blob.value, g.entry.version.hash);
  }

  /** Where a content hash that the table has after the step comes from. */
  lemma HashComesFrom(s: System, step: Step, id: BlobId)
    requires Owned(s.cache) && Can(s, step) && id in CacheAfter(s, step).blobs
    requires CacheAfter(s, step).blobs[id].contentHash.Some?
    ensures id in s.cache.blobs
    ensures CacheAfter(s, step).blobs[id].contentHash ==
            if Verifies(s, step, id) then Some(s.handles[step.h].entry.version.hash) else s.cache.blobs[id].contentHash
  {
    StepEffect(s, step, id);
  }

  lemma NewHashVouched(s: System, h: nat)
    requires Sound(s) && Can(s, Confirm(h)) && !Misleads(s, Confirm(h)) &&
               s.handles[h].entry.blob.value in s.cache.blobs
    ensures VouchedFor(Next(s, Confirm(h)), s.handles[h].entry.blob.value, s.handles[h].entry.version.hash)
  {
    var g := s.handles[h];
    assert HeldOk(s, g);
    if Current(s, g) {
      ConfirmVouches(s, h, g);
    } else {
      StepKeeps(s, Confirm(h), g.entry.blob.value);
      VouchedForStays(s, Confirm(h), g.entry.blob.value, g.entry.version.hash);
    }
  }

  lemma HashVouched(s: System, step: Step, id: BlobId)
    requires Sound(s) && Vouched(s) && Can(s, step) && !Misleads(s, step)
    requires id in Next(s, step).cache.blobs && Next(s, step).cache.blobs[id].contentHash.Some?
    ensures VouchedFor(Next(s, step), id, Next(s, step).cache.blobs[id].contentHash.value)
  {
    HashComesFrom(s, step, id);
    if Verifies(s, step, id) {
      NewHashVouched(s, step.h);
    } else {
      VouchedForStays(s, step, id, s.cache.blobs[id].contentHash.value);
    }
  }

  lemma VouchedForBack(s: System, h: nat, t: System, id: BlobId, hash: Hash)
    requires Sound(s) && Can(s, Confirm(h)) && t == Next(s, Confirm(h)) && Stale(s, s.handles[h])
    requires VouchedFor(t, id, hash)
    ensures VouchedFor(s, id, hash)
  {
    ConfirmKeepsTables(s, h);
    var k :| k in t.handles && Vouches(t, t.handles[k], id, hash);
    assert k != h;
    assert Vouches(s, s.handles[k], id, hash);
  }

  lemma ConfirmKeepsTables(s: System, h: nat)
    requires BornOk(s) && Can(s, Confirm(h))
    ensures Next(s, Confirm(h)).born == s.born && Next(s, Confirm(h)).handles.Keys == s.handles.Keys
    ensures forall k | k in s.handles && k != h :: Next(s, Confirm(h)).handles[k] == s.handles[k]
    ensures Alike(s.handles[h], Next(s, Confirm(h)).handles[h])
  {
    assert CacheAfter(s, Confirm(h)).blobs.Keys == s.cache.blobs.Keys;
  }

  lemma MisleadBreaks(s: System, h: nat)
    requires Sound(s) && Can(s, Confirm(h)) && Misleads(s, Confirm(h))
    ensures !Vouched(Next(s, Confirm(h)))
  {
    var id, hash := s.handles[h].entry.blob.value, s.handles[h].entry.version.hash;
    StepKeeps(s, Confirm(h), id);
    StepEffect(s, Confirm(h), id);
    assert Next(s, Confirm(h)).cache.blobs[id].contentHash == Some(hash);
    if VouchedFor(Next(s, Confirm(h)), id, hash) {
      VouchedForBack(s, h, Next(s, Confirm(h)), id, hash);
    }
  }

  /** Every step keeps this, except exactly when a handle confirms the content of another blob. */
  lemma NextVouched(s: System, step: Step)
    requires Sound(s) && Vouched(s) && Can(s, step)
    ensures Vouched(Next(s, step)) <==> !Misleads(s, step)
  {
    if Misleads(s, step) {
      MisleadBreaks(s, step.h);
    } else {
      forall id | id in Next(s, step).cache.blobs && Next(s, step).cache.blobs[id].contentHash.Some?
        ensures VouchedFor(Next(s, step), id, Next(s, step).cache.blobs[id].contentHash.value)
      {
        HashVouched(s, step, id);
      }
    }
  }

  lemma VouchedGoesOn(states: seq<System>, steps: seq<Step>, i: nat, t: System)
    requires SystemRun(states, steps) && Sound(states[0]) && i < |steps| && t == states[i + 1]
    requires Vouched(states[i]) && !UsesStale(states[i], steps[i])
    ensures Vouched(t)
  {
    RunSound(states, steps, i);
    GoesOn(states, steps, i, t);
    NextVouched(states[i], steps[i]);
  }

  lemma {:induction false} RunVouched(states: seq<System>, steps: seq<Step>, j: nat)
    requires SystemRun(states, steps) && Sound(states[0]) && Vouched(states[0]) && j <= |steps|
    requires NoneStale(states, steps, j)
    ensures Vouched(states[j])
  {
    if j > 0 {
      RunVouched(states, steps, j - 1);
      assert !UsesStale(states[j - 1], steps[j - 1]);
      VouchedGoesOn(states, steps, j - 1, states[j]);
    }
  }

  /** The hash that was confirmed is that of the version shown. */
  lemma VouchedIsShown(s: System, inode: Inode, e: FileEntry)
    requires Sound(s) && Vouched(s) && ShownWith(s.cache, inode, e) && e.blob.Some? && e.blob.value in s.cache.blobs
    ensures s.cache.blobs[e.blob.value].contentHash in {None, Some(e.version.hash)}
  {
    if s.cache.blobs[e.blob.value].contentHash.Some? {
      var h :| h in s.handles && Vouches(s, s.handles[h], e.blob.value, s.cache.blobs[e.blob.value].contentHash.value);
      assert HeldOk(s, s.handles[h]);
      OwnerIsOne(s.cache, inode, e, s.handles[h].inode, s.handles[h].entry);
    }
  }
}
