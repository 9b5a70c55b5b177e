/**
 * The files behind the blobs. An open that finds no blob when it looks, but one when it comes to make
 * it, empties the file of the blob it finds.
 */
module BlobFiles {
  import opened Common
  import opened Ranges
  import opened ByteRangeSets
  import opened Directory
  import opened Cache
  import opened CacheInvariant
  import opened BlobVersions
  import Blobs
  import opened Handles
  import opened Provenance

  /** The file under each blob's path, what was written to each file, and the file each handle has open. */
  datatype Disk = Disk(sys: System, at: map<BlobId, nat>, data: map<nat, Boundaries>, on: map<nat, nat>)

  /**
   * A step, and whether it is an open that comes late. Since every blob is made for an entry that was
   * shown without one right before, an open that looked then can come at any time later.
   */
  datatype Move = Move(step: Step, late: bool)

  ghost predicate Mapped(k: Disk) {
    && k.at.Keys == k.sys.cache.blobs.Keys && k.on.Keys == k.sys.handles.Keys
    && (forall id | id in k.at :: k.at[id] in k.data)
    && (forall h | h in k.on :: k.on[h] in k.data)
  }

  ghost predicate HasBlob(c: Cache, inode: Inode) {
    Shown(c, inode) && c.files[DefaultOf(inode)].blob.Some? && c.files[DefaultOf(inode)].blob.value in c.blobs
  }

  function BlobOf(c: Cache, inode: Inode): BlobId
    requires Shown(c, inode) && c.files[DefaultOf(inode)].blob.Some?
  {
    c.files[DefaultOf(inode)].blob.value
  }

  ghost predicate Can(k: Disk, m: Move) {
    && Mapped(k) && Handles.Can(k.sys, m.step)
    && (m.late ==> m.step.OpenAt? && HasBlob(k.sys.cache, m.step.inode))
  }

  /** The blob for which the step makes a new file. */
  ghost function NewFile(s: System, step: Step): Option<BlobId> {
    if Filling(s.cache, step).Some? then Some(Filling(s.cache, step).value.0)
    else if step.OpenAt? && Shown(s.cache, step.inode) && s.cache.files[DefaultOf(step.inode)].blob.None?
    then Some(FreshId(s.cache.blobs))
    else None
  }

  ghost function AtAfter(k: Disk, m: Move): map<BlobId, nat>
    requires Can(k, m)
  {
    var left := k.at - (k.at.Keys - CacheAfter(k.sys, m.step).blobs.Keys);
    match NewFile(k.sys, m.step)
    case None => left
    case Some(id) => left[id := k.sys.clock]
  }

  /** The file that a late open empties. */
  ghost function Emptied(k: Disk, m: Move): nat
    requires Can(k, m) && m.late
  {
    k.at[BlobOf(k.sys.cache, m.step.inode)]
  }

  ghost function DataAfter(k: Disk, m: Move): map<nat, Boundaries>
    requires Can(k, m)
  {
    if NewFile(k.sys, m.step).Some? then
      k.data[k.sys.clock := if m.step.OpenAt? then [] else SingleOf(0, Filling(k.sys.cache, m.step).value.1)]
    else if m.late then k.data[Emptied(k, m) := []]
    else if m.step.Write? then
      var h := m.step.h;
      k.data[k.on[h] := Blobs.WithBytes(k.data[k.on[h]], k.sys.handles[h].handle.offset, m.step.len)]
    else k.data
  }

  /** The file that an open opens. */
  ghost function OpenedFile(k: Disk, inode: Inode): nat
    requires Mapped(k) && OpenFile(k.sys.cache, inode).Ok?
  {
    if k.sys.cache.files[DefaultOf(inode)].blob.None? then k.sys.clock else k.at[BlobOf(k.sys.cache, inode)]
  }

  ghost function OnAfter(k: Disk, m: Move): map<nat, nat>
    requires Can(k, m)
  {
    if m.step.OpenAt? then k.on[m.step.h := OpenedFile(k, m.step.inode)] else k.on
  }

  ghost function Next(k: Disk, m: Move): Disk
    requires Can(k, m)
  {
    Disk(Handles.Next(k.sys, m.step), AtAfter(k, m), DataAfter(k, m), OnAfter(k, m))
  }

  // ---------------------------------------------------------------------
  // What every step keeps
  // ---------------------------------------------------------------------

  /** Files are made one after the other, and every blob has its own. */
  ghost predicate FilesOk(k: Disk) {
    && Mapped(k)
    && (forall f | f in k.data :: f < k.sys.clock && WellFormed(k.data[f]))
    && (forall i, j | i in k.at && j in k.at && k.at[i] == k.at[j] :: i == j)
  }

  lemma NewFileIsThere(s: System, step: Step, id: BlobId)
    requires Handles.Can(s, step) && NewFile(s, step) == Some(id)
    ensures id in CacheAfter(s, step).blobs
    ensures step.OpenAt? ==> id !in s.cache.blobs && HasBlob(CacheAfter(s, step), step.inode)
    ensures step.OpenAt? ==> BlobOf(CacheAfter(s, step), step.inode) == id
  {
  }

  lemma BlobHasFile(s: System, step: Step, id: BlobId)
    requires Owned(s.cache) && Handles.Can(s, step) && id in CacheAfter(s, step).blobs && id !in s.cache.blobs
    ensures NewFile(s, step) == Some(id)
  {
    if step.Transact? {
      if step.a.MoveIn? {
        MoveInBlobs(s.cache, step.a.path, step.a.hash, id);
      } else {
        OnlyDropped(s.cache, step.a, id);
      }
    }
  }

  lemma AtKeys(k: Disk, m: Move)
    requires Owned(k.sys.cache) && Can(k, m)
    ensures AtAfter(k, m).Keys == CacheAfter(k.sys, m.step).blobs.Keys
  {
    var d := CacheAfter(k.sys, m.step);
    if NewFile(k.sys, m.step).Some? {
      NewFileIsThere(k.sys, m.step, NewFile(k.sys, m.step).value);
    }
    forall id | id in d.blobs ensures id in AtAfter(k, m) {
      if id !in k.sys.cache.blobs {
        BlobHasFile(k.sys, m.step, id);
      }
    }
  }

  lemma DataGrows(k: Disk, m: Move)
    requires Can(k, m)
    ensures k.data.Keys <= DataAfter(k, m).Keys
    ensures NewFile(k.sys, m.step).Some? ==> k.sys.clock in DataAfter(k, m)
    ensures DataAfter(k, m).Keys <= k.data.Keys + {k.sys.clock}
  {
  }

  lemma AtInData(k: Disk, m: Move, id: BlobId)
    requires Can(k, m) && id in AtAfter(k, m)
    ensures AtAfter(k, m)[id] in DataAfter(k, m)
    ensures AtAfter(k, m)[id] == if NewFile(k.sys, m.step) == Some(id) then k.sys.clock else k.at[id]
  {
    DataGrows(k, m);
  }

  lemma HandleKeys(s: System, step: Step)
    requires Handles.Can(s, step)
    ensures Handles.Next(s, step).handles.Keys == s.handles.Keys + if step.OpenAt? then {step.h} else {}
    ensures step.OpenAt? ==> step.h !in s.handles
  {
  }

  lemma OpenedInData(k: Disk, m: Move)
    requires Can(k, m) && m.step.OpenAt?
    ensures OpenedFile(k, m.step.inode) in DataAfter(k, m)
  {
    DataGrows(k, m);
  }

  lemma OnKeys(k: Disk, m: Move)
    requires Can(k, m)
    ensures OnAfter(k, m).Keys == Handles.Next(k.sys, m.step).handles.Keys
  {
    HandleKeys(k.sys, m.step);
  }

  lemma OnStays(k: Disk, m: Move, h: nat)
    requires Can(k, m) && h in k.on
    ensures h in OnAfter(k, m) && OnAfter(k, m)[h] == k.on[h]
  {
  }

  lemma OnInData(k: Disk, m: Move, h: nat)
    requires Can(k, m) && h in OnAfter(k, m)
    ensures OnAfter(k, m)[h] in DataAfter(k, m)
  {
    if h in k.on {
      OnStays(k, m, h);
      DataGrows(k, m);
    } else {
      OpenedInData(k, m);
    }
  }

  lemma NextMapped(k: Disk, m: Move)
    requires Owned(k.sys.cache) && Can(k, m)
    ensures Mapped(Next(k, m))
  {
    AtKeys(k, m);
    OnKeys(k, m);
    forall h | h in OnAfter(k, m) ensures OnAfter(k, m)[h] in DataAfter(k, m) {
      OnInData(k, m, h);
    }
    forall id | id in AtAfter(k, m) ensures AtAfter(k, m)[id] in DataAfter(k, m) {
      AtInData(k, m, id);
    }
    assert Next(k, m).sys.cache == CacheAfter(k.sys, m.step);
  }

  lemma DataWellFormed(k: Disk, m: Move, f: nat)
    requires FilesOk(k) && Can(k, m) && f in DataAfter(k, m)
    ensures f <= k.sys.clock && WellFormed(DataAfter(k, m)[f])
  {
    DataGrows(k, m);
    if NewFile(k.sys, m.step).Some? {
      if !m.step.OpenAt? {
        SingleIsExact(0, Filling(k.sys.cache, m.step).value.1);
      }
    } else if m.step.Write? {
      var h := m.step.h;
      Blobs.WithBytesIsExact(k.data[k.on[h]], k.sys.handles[h].handle.offset, m.step.len);
    }
  }

  lemma AtInjective(k: Disk, m: Move, i: BlobId, j: BlobId)
    requires FilesOk(k) && Can(k, m) && i in AtAfter(k, m) && j in AtAfter(k, m) && AtAfter(k, m)[i] == AtAfter(k, m)[j]
    ensures i == j
  {
    AtInData(k, m, i);
    AtInData(k, m, j);
  }

  lemma NextFiles(k: Disk, m: Move)
    requires Owned(k.sys.cache) && FilesOk(k) && Can(k, m)
    ensures FilesOk(Next(k, m))
  {
    NextMapped(k, m);
    forall f | f in DataAfter(k, m) ensures f <= k.sys.clock && WellFormed(DataAfter(k, m)[f]) {
      DataWellFormed(k, m, f);
    }
    forall i, j | i in AtAfter(k, m) && j in AtAfter(k, m) && AtAfter(k, m)[i] == AtAfter(k, m)[j] ensures i == j {
      AtInjective(k, m, i, j);
    }
    assert Next(k, m).sys.clock == k.sys.clock + 1;
  }

  // ---------------------------------------------------------------------
  // What the table says is there
  // ---------------------------------------------------------------------

  /** All that the table records for a blob is in its file. */
  ghost predicate Backed(k: Disk)
    requires Mapped(k)
  {
    forall id | id in k.at :: Handles.Within(k.sys.cache.blobs[id].written, k.data[k.at[id]])
  }

  /** A late open empties the file of a blob for which something is recorded. */
  ghost predicate Empties(k: Disk, m: Move)
    requires Can(k, m)
  {
    m.late && exists x: nat :: Covers(k.sys.cache.blobs[BlobOf(k.sys.cache, m.step.inode)].written, x)
  }

  /** A handle stores ranges in a blob whose file does not have them. */
  ghost predicate RecordsMissing(k: Disk, m: Move)
    requires Can(k, m)
  {
    m.step.Store? &&
    var id := k.sys.handles[m.step.h].entry.blob.value;
    && Extends(k.sys, m.step, id) && id in k.at
    && exists x: nat :: Covers(k.sys.handles[m.step.h].handle.pending, x) && !Covers(k.data[k.at[id]], x)
  }

  /** What the step does to a file that was there. */
  lemma FileAfter(k: Disk, m: Move, f: nat, x: nat)
    requires FilesOk(k) && Can(k, m) && f in k.data
    ensures f in DataAfter(k, m)
    ensures m.late && f == Emptied(k, m) ==> !Covers(DataAfter(k, m)[f], x)
    ensures !(m.late && f == Emptied(k, m)) && Covers(k.data[f], x) ==> Covers(DataAfter(k, m)[f], x)
  {
    DataGrows(k, m);
    LateMakesNone(k, m);
    if NewFile(k.sys, m.step).None? && m.step.Write? {
      var h := m.step.h;
      Blobs.WithBytesIsExact(k.data[k.on[h]], k.sys.handles[h].handle.offset, m.step.len);
    }
  }

  lemma LateMakesNone(k: Disk, m: Move)
    requires Can(k, m)
    ensures m.late ==> NewFile(k.sys, m.step).None? && !m.step.Write?
  {
  }

  /** The late open leaves the table alone. */
  lemma LateLeavesTable(k: Disk, m: Move)
    requires Can(k, m) && m.late
    ensures CacheAfter(k.sys, m.step) == k.sys.cache && AtAfter(k, m) == k.at
  {
    LateMakesNone(k, m);
    assert k.at - {} == k.at;
  }

  lemma EmptiesBreaks(k: Disk, m: Move)
    requires FilesOk(k) && Can(k, m) && Mapped(Next(k, m)) && Empties(k, m)
    ensures !Backed(Next(k, m))
  {
    var id := BlobOf(k.sys.cache, m.step.inode);
    var x: nat :| Covers(k.sys.cache.blobs[id].written, x);
    LateLeavesTable(k, m);
    FileAfter(k, m, k.at[id], x);
    assert id in Next(k, m).at && Next(k, m).sys.cache == k.sys.cache;
  }

  lemma StoreLeavesFiles(k: Disk, m: Move)
    requires Can(k, m) && m.step.Store?
    ensures AtAfter(k, m) == k.at && DataAfter(k, m) == k.data && !m.late
  {
    var d := CacheAfter(k.sys, m.step);
    assert d.blobs.Keys == k.sys.cache.blobs.Keys;
    assert k.at - {} == k.at;
  }

  lemma MissingBreaks(k: Disk, m: Move)
    requires Owned(k.sys.cache) && FilesOk(k) && Can(k, m) && Mapped(Next(k, m)) && RecordsMissing(k, m)
    ensures !Backed(Next(k, m))
  {
    var g := k.sys.handles[m.step.h];
    var id := g.entry.blob.value;
    var x: nat :| Covers(g.handle.pending, x) && !Covers(k.data[k.at[id]], x);
    StoreLeavesFiles(k, m);
    StepKeeps(k.sys, m.step, id);
    StepEffect(k.sys, m.step, id);
    UnionIsExact(k.sys.cache.blobs[id].written, g.handle.pending);
    assert Covers(Next(k, m).sys.cache.blobs[id].written, x) && id in Next(k, m).at;
  }

  lemma FilledIsBacked(k: Disk, m: Move, id: BlobId)
    requires Owned(k.sys.cache) && FilesOk(k) && Can(k, m) && NewFile(k.sys, m.step) == Some(id)
    requires id in AtAfter(k, m) && id in CacheAfter(k.sys, m.step).blobs
    ensures AtAfter(k, m)[id] in DataAfter(k, m)
    ensures Handles.Within(CacheAfter(k.sys, m.step).blobs[id].written, DataAfter(k, m)[AtAfter(k, m)[id]])
  {
    AtInData(k, m, id);
    StepEffect(k.sys, m.step, id);
    NewFileIsThere(k.sys, m.step, id);
  }

  lemma ByteIsBacked(k: Disk, m: Move, id: BlobId, x: nat)
    requires Owned(k.sys.cache) && FilesOk(k) && Can(k, m) && Backed(k) && !Empties(k, m) && !RecordsMissing(k, m)
    requires NewFile(k.sys, m.step) != Some(id) && id in k.at && id in CacheAfter(k.sys, m.step).blobs
    requires Covers(CacheAfter(k.sys, m.step).blobs[id].written, x)
    ensures k.at[id] in DataAfter(k, m) && Covers(DataAfter(k, m)[k.at[id]], x)
  {
    ByteComesFrom(k.sys, m.step, id, x);
    FileAfter(k, m, k.at[id], x);
    assert !Fills(k.sys.cache, m.step, id);
    if m.late {
      LateLeavesTable(k, m);
    }
    if Covers(k.sys.cache.blobs[id].written, x) {
      assert Handles.Within(k.sys.cache.blobs[id].written, k.data[k.at[id]]);
    }
  }

  lemma BlobIsBacked(k: Disk, m: Move, id: BlobId)
    requires Owned(k.sys.cache) && FilesOk(k) && Can(k, m) && Backed(k) && !Empties(k, m) && !RecordsMissing(k, m)
    requires id in AtAfter(k, m) && id in CacheAfter(k.sys, m.step).blobs
    ensures AtAfter(k, m)[id] in DataAfter(k, m)
    ensures Handles.Within(CacheAfter(k.sys, m.step).blobs[id].written, DataAfter(k, m)[AtAfter(k, m)[id]])
  {
    AtInData(k, m, id);
    if NewFile(k.sys, m.step) == Some(id) {
      FilledIsBacked(k, m, id);
    } else {
      forall x: nat | Covers(CacheAfter(k.sys, m.step).blobs[id].written, x)
        ensures Covers(DataAfter(k, m)[AtAfter(k, m)[id]], x)
      {
        ByteIsBacked(k, m, id, x);
      }
    }
  }

  /** Every step keeps this, except exactly such a late open, or an update with ranges that the file does not have. */
  lemma NextBacked(k: Disk, m: Move)
    requires Owned(k.sys.cache) && FilesOk(k) && Can(k, m) && Backed(k)
    ensures FilesOk(Next(k, m))
    ensures Backed(Next(k, m)) <==> !Empties(k, m) && !RecordsMissing(k, m)
  {
    NextFiles(k, m);
    if Empties(k, m) {
      EmptiesBreaks(k, m);
    } else if RecordsMissing(k, m) {
      MissingBreaks(k, m);
    } else {
      forall id | id in AtAfter(k, m)
        ensures Handles.Within(Next(k, m).sys.cache.blobs[id].written, DataAfter(k, m)[AtAfter(k, m)[id]])
      {
        BlobIsBacked(k, m, id);
      }
    }
  }

  // ---------------------------------------------------------------------
  // When an update has what it says
  // ---------------------------------------------------------------------

  /** The file that the handle has open is the one under its blob's path. */
  ghost predicate OnOwn(k: Disk, h: nat)
    requires Mapped(k) && h in k.on
  {
    && k.sys.handles[h].entry.blob.Some? && k.sys.handles[h].entry.blob.value in k.at
    && k.on[h] == k.at[k.sys.handles[h].entry.blob.value]
  }

  /** What waits to be stored is in the file that the handle has open. */
  ghost predicate PendingThere(k: Disk, h: nat)
    requires Mapped(k) && h in k.on
  {
    Handles.Within(k.sys.handles[h].handle.pending, k.data[k.on[h]])
  }

  /** The step empties that file while something waits. */
  ghost predicate EmptiesPending(k: Disk, m: Move, h: nat)
    requires Can(k, m) && h in k.on
  {
    m.late && Emptied(k, m) == k.on[h] && exists x: nat :: Covers(k.sys.handles[h].handle.pending, x)
  }

  lemma UpdateIsBacked(k: Disk, h: nat, attempt: Blobs.Attempt)
    requires Can(k, Move(Store(h, attempt), false)) && OnOwn(k, h) && PendingThere(k, h)
    ensures !RecordsMissing(k, Move(Store(h, attempt), false))
  {
  }

  lemma EntryStays(s: System, step: Step, h: nat)
    requires Handles.Can(s, step) && h in s.handles && Sane(s.handles[h])
    ensures h in Handles.Next(s, step).handles && Handles.Next(s, step).handles[h].entry == s.handles[h].entry
  {
    NextSame(s, step, h);
  }

  /** A handle stays on its blob's own file exactly until the blob is dropped or another file is moved there. */
  lemma NextOnOwn(k: Disk, m: Move, h: nat)
    requires Sound(k.sys) && FilesOk(k) && Can(k, m) && h in k.on
    ensures Mapped(Next(k, m)) && h in Next(k, m).on
    ensures OnOwn(Next(k, m), h) <==>
              var id := k.sys.handles[h].entry.blob;
              OnOwn(k, h) && id.value in Next(k, m).sys.cache.blobs && !Fills(k.sys.cache, m.step, id.value)
  {
    NextMapped(k, m);
    OnStays(k, m, h);
    assert HeldOk(k.sys, k.sys.handles[h]);
    EntryStays(k.sys, m.step, h);
    OnOwnAfter(k, m, h, k.sys.handles[h].entry.blob.value);
  }

  lemma OnOwnAfter(k: Disk, m: Move, h: nat, id: BlobId)
    requires Owned(k.sys.cache) && FilesOk(k) && Can(k, m) && h in k.on
    ensures (id in AtAfter(k, m) && AtAfter(k, m)[id] == k.on[h]) <==>
              && id in k.at && k.at[id] == k.on[h] && id in CacheAfter(k.sys, m.step).blobs
              && !Fills(k.sys.cache, m.step, id)
  {
    AtKeys(k, m);
    if id in AtAfter(k, m) {
      AtInData(k, m, id);
      if NewFile(k.sys, m.step) == Some(id) {
        NewFileIsThere(k.sys, m.step, id);
      } else if id !in k.sys.cache.blobs {
        BlobHasFile(k.sys, m.step, id);
      }
    }
  }

  /** What happens to the pending ranges of a handle. */
  lemma PendingAfter(s: System, step: Step, h: nat, x: nat)
    requires Handles.Can(s, step) && h in s.handles && Sane(s.handles[h])
    ensures h in Handles.Next(s, step).handles
    ensures Covers(Handles.Next(s, step).handles[h].handle.pending, x) ==>
              || Covers(s.handles[h].handle.pending, x)
              || (step.Write? && step.h == h
                  && s.handles[h].handle.offset <= x < s.handles[h].handle.offset + step.len)
    ensures step.OpenAt? ==> Handles.Next(s, step).handles[h] == s.handles[h]
  {
    if step.Write? && step.h == h {
      Blobs.WithBytesIsExact(s.handles[h].handle.pending, s.handles[h].handle.offset, step.len);
    }
  }

  lemma WrittenIsThere(k: Disk, h: nat, len: nat, late: bool, x: nat)
    requires FilesOk(k) && Can(k, Move(Write(h, len), late))
    requires k.sys.handles[h].handle.offset <= x < k.sys.handles[h].handle.offset + len
    ensures k.on[h] in DataAfter(k, Move(Write(h, len), late))
    ensures Covers(DataAfter(k, Move(Write(h, len), late))[k.on[h]], x)
  {
    Blobs.WithBytesIsExact(k.data[k.on[h]], k.sys.handles[h].handle.offset, len);
  }

  /** What waits to be stored stays in the handle's file, except exactly if a late open empties it. */
  lemma NextPending(k: Disk, m: Move, h: nat)
    requires Sound(k.sys) && FilesOk(k) && Can(k, m) && h in k.on && PendingThere(k, h)
    ensures Mapped(Next(k, m)) && h in Next(k, m).on
    ensures PendingThere(Next(k, m), h) <==> !EmptiesPending(k, m, h)
  {
    NextMapped(k, m);
    OnStays(k, m, h);
    assert HeldOk(k.sys, k.sys.handles[h]);
    if EmptiesPending(k, m, h) {
      var x: nat :| Covers(k.sys.handles[h].handle.pending, x);
      PendingAfter(k.sys, m.step, h, x);
      FileAfter(k, m, k.on[h], x);
    } else {
      forall x: nat | Covers(Next(k, m).sys.handles[h].handle.pending, x) ensures Covers(Next(k, m).data[k.on[h]], x) {
        PendingByteStays(k, m, h, x);
      }
    }
  }

  lemma PendingByteStays(k: Disk, m: Move, h: nat, x: nat)
    requires FilesOk(k) && Can(k, m) && h in k.on && Sane(k.sys.handles[h])
    requires PendingThere(k, h) && !EmptiesPending(k, m, h)
    requires h in Handles.Next(k.sys, m.step).handles
    requires Covers(Handles.Next(k.sys, m.step).handles[h].handle.pending, x)
    ensures k.on[h] in DataAfter(k, m) && Covers(DataAfter(k, m)[k.on[h]], x)
  {
    PendingAfter(k.sys, m.step, h, x);
    FileAfter(k, m, k.on[h], x);
    if !Covers(k.sys.handles[h].handle.pending, x) {
      WrittenIsThere(k, h, m.step.len, m.late, x);
    }
  }

  // ---------------------------------------------------------------------
  // Runs
  // ---------------------------------------------------------------------

  ghost predicate GoesAt(states: seq<Disk>, moves: seq<Move>, i: nat)
    requires i < |moves| && |states| == |moves| + 1
  {
    Can(states[i], moves[i]) && states[i + 1] == Next(states[i], moves[i])
  }

  ghost predicate DiskRun(states: seq<Disk>, moves: seq<Move>) {
    && |states| == |moves| + 1
    && forall i | 0 <= i < |moves| :: GoesAt(states, moves, i)
  }

  /** A state to begin with. */
  ghost predicate Fine(k: Disk) {
    Sound(k.sys) && FilesOk(k) && Backed(k)
  }

  function DiskBeginning(c: Cache): Disk {
    Disk(Beginning(c), map[], map[], map[])
  }

  lemma DiskBeginningOk(c: Cache)
    requires Initial(c)
    ensures Fine(DiskBeginning(c)) && AllPending(DiskBeginning(c))
  {
    BeginningSound(c);
  }

  ghost function SystemsOf(states: seq<Disk>): seq<System> {
    seq(|states|, i requires 0 <= i < |states| => states[i].sys)
  }

  ghost function StepsOf(moves: seq<Move>): seq<Step> {
    seq(|moves|, i requires 0 <= i < |moves| => moves[i].step)
  }

  /** Apart from the files, it is a run of the system. */
  lemma SystemsRun(states: seq<Disk>, moves: seq<Move>)
    requires DiskRun(states, moves)
    ensures SystemRun(SystemsOf(states), StepsOf(moves))
  {
    var ss, ps := SystemsOf(states), StepsOf(moves);
    forall i | 0 <= i < |ps| ensures Handles.GoesAt(ss, ps, i) {
      assert GoesAt(states, moves, i);
    }
  }

  lemma RunSystem(states: seq<Disk>, moves: seq<Move>, j: nat)
    requires DiskRun(states, moves) && Sound(states[0].sys) && j <= |moves|
    ensures Sound(states[j].sys)
  {
    SystemsRun(states, moves);
    RunSound(SystemsOf(states), StepsOf(moves), j);
  }

  lemma FilesGoOn(states: seq<Disk>, moves: seq<Move>, i: nat, t: Disk)
    requires DiskRun(states, moves) && Sound(states[0].sys) && i < |moves| && t == states[i + 1] && FilesOk(states[i])
    ensures Can(states[i], moves[i]) && t == Next(states[i], moves[i]) && FilesOk(t)
  {
    RunSystem(states, moves, i);
    assert GoesAt(states, moves, i);
    NextFiles(states[i], moves[i]);
  }

  lemma {:induction false} RunFiles(states: seq<Disk>, moves: seq<Move>, j: nat)
    requires DiskRun(states, moves) && Sound(states[0].sys) && FilesOk(states[0]) && j <= |moves|
    ensures FilesOk(states[j])
  {
    if j > 0 {
      RunFiles(states, moves, j - 1);
      FilesGoOn(states, moves, j - 1, states[j]);
    }
  }

  /** The step makes the table say more than the file has. */
  ghost predicate Misstates(k: Disk, m: Move) {
    Can(k, m) && (Empties(k, m) || RecordsMissing(k, m))
  }

  ghost predicate BackedAt(k: Disk) {
    Mapped(k) && Backed(k)
  }

  ghost predicate AllBacked(states: seq<Disk>, j: nat)
    requires j < |states|
  {
    forall i | 0 <= i <= j :: BackedAt(states[i])
  }

  ghost predicate NoneMisstates(states: seq<Disk>, moves: seq<Move>, j: nat)
    requires j <= |moves| && |states| == |moves| + 1
  {
    forall i | 0 <= i < j :: !Misstates(states[i], moves[i])
  }

  lemma BackedGoesOn(states: seq<Disk>, moves: seq<Move>, i: nat, t: Disk)
    requires DiskRun(states, moves) && Fine(states[0]) && i < |moves| && t == states[i + 1] && BackedAt(states[i])
    ensures BackedAt(t) <==> !Misstates(states[i], moves[i])
  {
    RunSystem(states, moves, i);
    RunFiles(states, moves, i);
    FilesGoOn(states, moves, i, t);
    NextBacked(states[i], moves[i]);
  }

  lemma AllBackedStep(states: seq<Disk>, moves: seq<Move>, j: nat)
    requires 0 < j <= |moves| && |states| == |moves| + 1
    ensures AllBacked(states, j) <==> AllBacked(states, j - 1) && BackedAt(states[j])
    ensures NoneMisstates(states, moves, j) <==>
              NoneMisstates(states, moves, j - 1) && !Misstates(states[j - 1], moves[j - 1])
  {
  }

  lemma BackedExactStep(states: seq<Disk>, moves: seq<Move>, j: nat)
    requires DiskRun(states, moves) && Fine(states[0]) && 0 < j <= |moves|
    requires AllBacked(states, j - 1) <==> NoneMisstates(states, moves, j - 1)
    ensures AllBacked(states, j) <==> NoneMisstates(states, moves, j)
  {
    AllBackedStep(states, moves, j);
    if AllBacked(states, j - 1) {
      BackedGoesOn(states, moves, j - 1, states[j]);
    }
  }

  /** In every run, the files have all that the table says exactly as long as there was no such step. */
  lemma {:induction false} RunBackedExact(states: seq<Disk>, moves: seq<Move>, j: nat)
    requires DiskRun(states, moves) && Fine(states[0]) && j <= |moves|
    ensures AllBacked(states, j) <==> NoneMisstates(states, moves, j)
  {
    if j > 0 {
      RunBackedExact(states, moves, j - 1);
      BackedExactStep(states, moves, j);
    }
  }

  /**
   * Neither is a file emptied for whose blob something is recorded or waits, nor does a handle store
   * anything while its file is not the one of its blob.
   */
  ghost predicate Careful(k: Disk, m: Move) {
    Can(k, m) ==>
      && !Empties(k, m)
      && (forall h | h in k.on :: !EmptiesPending(k, m, h))
      && (m.step.Store? ==> OnOwn(k, m.step.h))
  }

  ghost predicate AllPending(k: Disk) {
    Mapped(k) && forall h | h in k.on :: PendingThere(k, h)
  }

  lemma NextAllPending(k: Disk, m: Move)
    requires Sound(k.sys) && FilesOk(k) && Can(k, m) && AllPending(k) && Careful(k, m)
    ensures AllPending(Next(k, m))
  {
    NextMapped(k, m);
    forall h | h in Next(k, m).on ensures PendingThere(Next(k, m), h) {
      if h in k.on {
        NextPending(k, m, h);
      } else {
        OpenedPendsNothing(k.sys, m.step, h);
      }
    }
  }

  lemma OpenedPendsNothing(s: System, step: Step, h: nat)
    requires Handles.Can(s, step) && h !in s.handles && h in Handles.Next(s, step).handles
    ensures Handles.Next(s, step).handles[h].handle.pending == []
  {
  }

  lemma CarefulMisstatesNothing(k: Disk, m: Move)
    requires AllPending(k) && Careful(k, m)
    ensures !Misstates(k, m)
  {
    if Can(k, m) && m.step.Store? {
      assert PendingThere(k, m.step.h);
      UpdateIsBacked(k, m.step.h, m.step.attempt);
    }
  }

  lemma CarefulGoesOn(states: seq<Disk>, moves: seq<Move>, i: nat, t: Disk)
    requires DiskRun(states, moves) && Fine(states[0]) && i < |moves| && t == states[i + 1]
    requires BackedAt(states[i]) && AllPending(states[i]) && Careful(states[i], moves[i])
    ensures BackedAt(t) && AllPending(t)
  {
    RunSystem(states, moves, i);
    RunFiles(states, moves, i);
    FilesGoOn(states, moves, i, t);
    CarefulMisstatesNothing(states[i], moves[i]);
    BackedGoesOn(states, moves, i, t);
    NextAllPending(states[i], moves[i]);
  }

  ghost predicate AllCareful(states: seq<Disk>, moves: seq<Move>, j: nat)
    requires j <= |moves| && |states| == |moves| + 1
  {
    forall i | 0 <= i < j :: Careful(states[i], moves[i])
  }

  /** So it is in every run of careful steps. */
  lemma {:induction false} RunBacked(states: seq<Disk>, moves: seq<Move>, j: nat)
    requires DiskRun(states, moves) && Fine(states[0]) && AllPending(states[0])
    requires j <= |moves| && AllCareful(states, moves, j)
    ensures BackedAt(states[j]) && AllPending(states[j])
  {
    if j > 0 {
      RunBacked(states, moves, j - 1);
      assert Careful(states[j - 1], moves[j - 1]);
      CarefulGoesOn(states, moves, j - 1, states[j]);
    }
  }
}
