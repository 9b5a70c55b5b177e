/** Runs in which an open comes late. */
module LateOpens {
  import opened Common
  import opened Ranges
  import opened ByteRangeSets
  import opened Directory
  import opened Cache
  import Versions
  import Blobs
  import opened Handles
  import opened Provenance
  import opened BlobFiles
  import opened ReusedIds

  function Plain(step: Step): Move {
    Move(step, false)
  }

  /** A run from the very beginning that ends with `k`. */
  ghost predicate DiskReached(k: Disk, states: seq<Disk>, moves: seq<Move>) {
    DiskRun(states, moves) && states[0] == DiskBeginning(Versions.NOTHING) && states[|moves|] == k
  }

  lemma OneMoreMove(k: Disk, m: Move, t: Disk, states: seq<Disk>, moves: seq<Move>)
    returns (longer: seq<Disk>, all: seq<Move>)
    requires DiskReached(k, states, moves) && BlobFiles.Can(k, m) && t == BlobFiles.Next(k, m)
    ensures DiskReached(t, longer, all) && all == moves + [m]
  {
    longer, all := states + [t], moves + [m];
    forall i | 0 <= i < |all| ensures BlobFiles.GoesAt(longer, all, i) {
      if i < |moves| {
        assert BlobFiles.GoesAt(states, moves, i);
      }
    }
  }

  /** All that follows is therefore about states in which every blob has its file. */
  lemma DiskReachedOk(k: Disk, states: seq<Disk>, moves: seq<Move>)
    requires DiskReached(k, states, moves)
    ensures Sound(k.sys) && FilesOk(k)
  {
    DiskBeginningOk(Versions.NOTHING);
    RunSystem(states, moves, |moves|);
    RunFiles(states, moves, |moves|);
  }

  /** The step goes on from a state of the system to a state of the disk. */
  lemma PlainGoesOn(k: Disk, states: seq<Disk>, moves: seq<Move>, step: Step)
    returns (t: Disk, longer: seq<Disk>, all: seq<Move>)
    requires DiskReached(k, states, moves) && Handles.Can(k.sys, step)
    ensures DiskReached(t, longer, all) && all == moves + [Plain(step)] && t.sys == Handles.Next(k.sys, step)
  {
    DiskReachedOk(k, states, moves);
    t := BlobFiles.Next(k, Plain(step));
    longer, all := OneMoreMove(k, Plain(step), t, states, moves);
  }

  lemma RunPrefix(states: seq<System>, steps: seq<Step>, ss: seq<System>, ps: seq<Step>, n: nat)
    requires SystemRun(states, steps) && n == |steps| - 1 && ss == states[..n + 1] && ps == steps[..n]
    ensures SystemRun(ss, ps) && ss[n] == states[n] && ss[0] == states[0]
    ensures Handles.Can(states[n], steps[n]) && states[n + 1] == Handles.Next(states[n], steps[n])
  {
    assert Handles.GoesAt(states, steps, n);
    forall i | 0 <= i < |ps| ensures Handles.GoesAt(ss, ps, i) {
      assert Handles.GoesAt(states, steps, i);
    }
  }

  /** Every run of the system is one of the disk in which no open is late. */
  lemma {:induction false} Lifted(s: System, states: seq<System>, steps: seq<Step>)
    returns (k: Disk, disks: seq<Disk>, moves: seq<Move>)
    requires Reached(s, states, steps)
    ensures DiskReached(k, disks, moves) && k.sys == s
    ensures |moves| == |steps| && forall i | 0 <= i < |steps| :: moves[i] == Plain(steps[i])
    decreases |steps|
  {
    if steps == [] {
      k, disks, moves := DiskBeginning(Versions.NOTHING), [DiskBeginning(Versions.NOTHING)], [];
    } else {
      var n := |steps| - 1;
      var ss, ps := states[..n + 1], steps[..n];
      RunPrefix(states, steps, ss, ps, n);
      k, disks, moves := Lifted(states[n], ss, ps);
      k, disks, moves := PlainGoesOn(k, disks, moves, steps[n]);
    }
  }

  function LateOpen(h: nat): Move {
    Move(OpenAt(h, 2), true)
  }

  /** What was written to the blob was written through the first handle. */
  lemma StillGenuine(s: System, v: Version, g: Held, b: BlobEntry, n: nat)
    requires ReusedIds.WithBlob(s, v, b, 1) && 0 in s.handles && s.handles[0] == g && Settled(g, v, n)
    requires forall x: nat :: Covers(b.written, x) <==> x < n
    ensures Genuine(s)
  {
    forall id, x: nat | id in s.cache.blobs && Covers(s.cache.blobs[id].written, x) ensures Sourced(s, id, x) {
      assert id == 1 && s.cache.blobs[1] == b;
      assert WroteTo(s, s.handles[0], 1, x);
    }
  }

  /** A handle that was just opened on the blob `b`. */
  function Reopened(v: Version, b: BlobEntry): Held {
    Held(2, FileOf(v, Some(1)), 1, Blobs.Handle(b.written, [], 0), [], false)
  }

  lemma OpensAgain(s: System, v: Version, b: BlobEntry, g: Held)
    requires ReusedIds.WithBlob(s, v, b, 1) && s.handles == map[0 := g]
    ensures Handles.Can(s, OpenAt(1, 2)) && HasBlob(s.cache, 2) && BlobOf(s.cache, 2) == 1
    ensures var t := Handles.Next(s, OpenAt(1, 2));
            ReusedIds.WithBlob(t, v, b, 1) && t.handles == map[0 := g, 1 := Reopened(v, b)]
  {
    OpeningIs(s, 1, 2, s.cache);
    var t := Handles.Next(s, OpenAt(1, 2));
    assert t.born == map[1 := 1] && t.filled == map[];
  }

  lemma EmptiesFile(k: Disk)
    requires Mapped(k) && Handles.Can(k.sys, OpenAt(1, 2)) && HasBlob(k.sys.cache, 2) && BlobOf(k.sys.cache, 2) == 1
    ensures BlobFiles.Can(k, LateOpen(1))
    ensures var t := BlobFiles.Next(k, LateOpen(1));
            t.sys == Handles.Next(k.sys, OpenAt(1, 2)) && t.at == k.at && 1 in t.at && t.data == k.data[k.at[1] := []]
  {
    LateMakesNone(k, LateOpen(1));
    LateLeavesTable(k, LateOpen(1));
  }

  lemma OpensLate(k: Disk, states: seq<Disk>, moves: seq<Move>, v: Version, g: Held, b: BlobEntry)
    returns (t: Disk, longer: seq<Disk>, all: seq<Move>)
    requires DiskReached(k, states, moves) && ReusedIds.WithBlob(k.sys, v, b, 1) && k.sys.handles == map[0 := g]
    ensures DiskReached(t, longer, all) && all == moves + [LateOpen(1)]
    ensures ReusedIds.WithBlob(t.sys, v, b, 1) && t.sys.handles == map[0 := g, 1 := Reopened(v, b)]
    ensures 1 in t.at && t.at[1] in t.data && t.data[t.at[1]] == []
  {
    DiskReachedOk(k, states, moves);
    OpensAgain(k.sys, v, b, g);
    EmptiesFile(k);
    t := BlobFiles.Next(k, LateOpen(1));
    longer, all := OneMoreMove(k, LateOpen(1), t, states, moves);
  }

  lemma EmptyIsNotBacked(k: Disk, v: Version, b: BlobEntry)
    requires ReusedIds.WithBlob(k.sys, v, b, 1) && Covers(b.written, 0)
    requires 1 in k.at && k.at[1] in k.data && k.data[k.at[1]] == []
    ensures !BackedAt(k)
  {
    assert !Covers(k.data[k.at[1]], 0);
    assert k.sys.cache.blobs[1] == b;
  }

  /**
   * A byte is written and stored; then an open that looked before the blob was made empties its file.
   * The byte is still recorded, and available to the new handle, though no handle ever wrote to another
   * blob than its own.
   */
  lemma LateOpenEmpties(v: Version, hint: Inode -> Peer) returns (k: Disk, states: seq<Disk>, moves: seq<Move>)
    ensures DiskReached(k, states, moves) && |moves| == 5
    ensures moves[0] == Plain(Adding(v, hint)) && moves[1] == Plain(OpenAt(0, 2)) && moves[2] == Plain(Write(0, 1))
    ensures moves[3] == Plain(Store(0, Blobs.Flushes)) && moves[4] == LateOpen(1)
    ensures !BackedAt(k) && Genuine(k.sys)
    ensures 1 in k.sys.handles && Covers(k.sys.handles[1].handle.available, 0)
  {
    var s, g, b, ss, steps := AddedAndStored(v, 1, hint);
    k, states, moves := Lifted(s, ss, steps);
    k, states, moves := OpensLate(k, states, moves, v, g, b);
    StillGenuine(k.sys, v, g, b, 1);
    EmptyIsNotBacked(k, v, b);
  }

  lemma StoresAfter(k: Disk, v: Version, g: Held, b: BlobEntry)
    requires Mapped(k) && ReusedIds.WithBlob(k.sys, v, NEW_BLOB, 1) && 0 in k.sys.handles && k.sys.handles[0] == g
    requires g.entry.blob == Some(1) && g.handle.pending != [] && WellFormed(g.handle.pending)
    requires b == NEW_BLOB.(written := UnionOf(NEW_BLOB.written, g.handle.pending))
    ensures BlobFiles.Can(k, Plain(Store(0, Blobs.Flushes)))
    ensures var t := BlobFiles.Next(k, Plain(Store(0, Blobs.Flushes)));
            ReusedIds.WithBlob(t.sys, v, b, 1) && t.at == k.at && t.data == k.data
  {
    Stores(k.sys, v, NEW_BLOB, 1, 0);
    StoreLeavesFiles(k, Plain(Store(0, Blobs.Flushes)));
  }

  /** A byte is written, the late open empties the file, and only then the byte is recorded. */
  lemma LateOpenLosesPending(v: Version, hint: Inode -> Peer) returns (k: Disk, states: seq<Disk>, moves: seq<Move>)
    ensures DiskReached(k, states, moves) && |moves| == 5
    ensures moves[0] == Plain(Adding(v, hint)) && moves[1] == Plain(OpenAt(0, 2)) && moves[2] == Plain(Write(0, 1))
    ensures moves[3] == LateOpen(1) && moves[4] == Plain(Store(0, Blobs.Flushes))
    ensures !BackedAt(k)
  {
    var s, ss, steps := AddedAndWritten(v, 1, hint);
    var g := Wrote(v, 1, 1);
    WroteIs(v, 1, 1);
    k, states, moves := Lifted(s, ss, steps);
    k, states, moves := OpensLate(k, states, moves, v, g, NEW_BLOB);
    k, states, moves := StoredTooLate(k, states, moves, v, g);
  }

  lemma StoredTooLate(k: Disk, states: seq<Disk>, moves: seq<Move>, v: Version, g: Held)
    returns (t: Disk, longer: seq<Disk>, all: seq<Move>)
    requires DiskReached(k, states, moves) && ReusedIds.WithBlob(k.sys, v, NEW_BLOB, 1)
    requires 0 in k.sys.handles && k.sys.handles[0] == g && g.entry.blob == Some(1) && ReusedIds.Filling(g, 1)
    requires 1 in k.at && k.at[1] in k.data && k.data[k.at[1]] == []
    ensures DiskReached(t, longer, all) && all == moves + [Plain(Store(0, Blobs.Flushes))] && !BackedAt(t)
  {
    DiskReachedOk(k, states, moves);
    var b := NEW_BLOB.(written := UnionOf(NEW_BLOB.written, g.handle.pending));
    StoresAfter(k, v, g, b);
    ByteStored(g.handle.pending);
    t := BlobFiles.Next(k, Plain(Store(0, Blobs.Flushes)));
    longer, all := OneMoreMove(k, Plain(Store(0, Blobs.Flushes)), t, states, moves);
    EmptyIsNotBacked(t, v, b);
  }
}
