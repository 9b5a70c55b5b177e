/**
 * Job streams: each scans the log in one transaction and deletes from it in another, while the
 * cache, job reports and other streams go on in between.
 */
module Streams {
  import opened Common
  import opened Paths
  import opened Directory
  import opened Cache
  import opened CacheInvariant
  import opened CacheLog
  import DirtyLog

  /** What else a job depends on, such as marks and the local index. */
  type Tables = map<string, string>

  /** All that is known at some time. */
  datatype Known = Known(cache: Cache, tables: Tables)

  /** Whether a path calls for a job; finding out may fail. */
  type Jobs = (Known, string) -> Result<bool, StorageError>

  ghost predicate HasJob(jobs: Jobs, c: Known, path: string) {
    ValidPath(path) && jobs(c, path) == Ok(true)
  }

  /** Invalid paths are passed over. */
  ghost predicate NoJob(jobs: Jobs, c: Known, path: string) {
    ValidPath(path) ==> jobs(c, path) == Ok(false)
  }

  /** The counter of the job found, if any, and the last counter looked at, if any. */
  datatype Scan = Scan(job: Option<nat>, last: Option<nat>)

  ghost predicate Jobless(jobs: Jobs, c: Known, beg: nat, end: nat) {
    forall k | k in c.cache.log.log && DirtyLog.Within(k, beg, end) :: NoJob(jobs, c, c.cache.log.log[k])
  }

  ghost predicate NothingFrom(c: Cache, start: nat) {
    forall k | k in c.log.log :: k < start
  }

  /** The first entry from `start` on that calls for a job, else the last entry. */
  ghost predicate IsScan(jobs: Jobs, c: Known, start: nat, r: Scan) {
    var log := c.cache.log.log;
    match r.last
    case None => r.job.None? && NothingFrom(c.cache, start)
    case Some(l) =>
      && start <= l && l in log && Jobless(jobs, c, start, l)
      && match r.job
         case Some(k) => k == l && HasJob(jobs, c, log[l])
         case None => NoJob(jobs, c, log[l]) && NothingFrom(c.cache, l + 1)
  }

  /** Finding out about `l`, before which there is no job, fails. */
  ghost predicate FailsAt(jobs: Jobs, c: Known, start: nat, l: nat, e: StorageError) {
    && start <= l && l in c.cache.log.log && Jobless(jobs, c, start, l)
    && ValidPath(c.cache.log.log[l]) && jobs(c, c.cache.log.log[l]) == Err(e)
  }

  /** What a stream remembers between scanning and deleting. */
  datatype Found = Found(last: nat, snapshot: Known)

  /**
   * `offered` holds the counters that the stream's scans found to be jobs, `tails` the last ones of
   * scans that found none.
   */
  datatype Stream = Stream(start: nat, found: Option<Found>, offered: set<nat>, tails: set<nat>)

  datatype System = System(cache: Cache, tables: Tables, streams: map<nat, Stream>)

  datatype Step =
    | Transact(a: Action)
    | Change(tables: Tables)
    | Start(id: nat)
    | Look(id: nat, scan: Scan)
    | Sweep(id: nat)
    | Stop(id: nat)

  ghost predicate Can(jobs: Jobs, s: System, step: Step) {
    match step
    case Transact(a) => Enabled(s.cache, a) && !(a.LogOp? && (a.op.Delete? || a.op.Pop?))
    case Change(_) => true
    case Start(id) => id !in s.streams
    case Look(id, scan) =>
      id in s.streams && s.streams[id].found.None? && IsScan(jobs, Known(s.cache, s.tables), s.streams[id].start, scan)
    case Sweep(id) => id in s.streams && s.streams[id].found.Some?
    case Stop(id) => id in s.streams
  }

  function Looked(st: Stream, c: Known, scan: Scan): Stream {
    match scan.last
    case None => st
    case Some(l) =>
      if scan.job.Some? then st.(found := Some(Found(l, c)), offered := st.offered + {l})
      else st.(found := Some(Found(l, c)), tails := st.tails + {l})
  }

  /** The entries before the last one looked at, which gave no job, are deleted. */
  function Swept(st: Stream, l: DirtyLog.Log): DirtyLog.Log
    requires st.found.Some?
  {
    if st.found.value.last > st.start then DirtyLog.DeleteRange(l, st.start, st.found.value.last) else l
  }

  /** A stream may stop at any time: nobody listens any more, or a scan fails. */
  ghost function Next(jobs: Jobs, s: System, step: Step): System
    requires Can(jobs, s, step)
  {
    match step
    case Transact(a) => s.(cache := After(s.cache, a))
    case Change(tables) => s.(tables := tables)
    case Start(id) => s.(streams := s.streams[id := Stream(1, None, {}, {})])
    case Look(id, scan) => s.(streams := s.streams[id := Looked(s.streams[id], Known(s.cache, s.tables), scan)])
    case Sweep(id) =>
      var st := s.streams[id];
      System(s.cache.(log := Swept(st, s.cache.log)),
             s.tables,
             s.streams[id := st.(start := st.found.value.last + 1, found := None)])
    case Stop(id) => s.(streams := s.streams - {id})
  }

  // ---------------------------------------------------------------------
  // What every step keeps
  // ---------------------------------------------------------------------

  /** The stream has looked at this entry without deleting it. */
  ghost predicate Kept(st: Stream, k: nat) {
    k in st.offered || k in st.tails
  }

  /** What a stream found stays true of its snapshot, and what it kept is out of reach of its deletions. */
  ghost predicate StreamOk(jobs: Jobs, c: Cache, st: Stream) {
    && st.start <= c.log.counter + 1
    && (st.found.None? ==> forall k | k in st.offered + st.tails :: k < st.start)
    && (st.found.Some? ==>
          && st.start <= st.found.value.last <= st.found.value.snapshot.cache.log.counter
          && Jobless(jobs, st.found.value.snapshot, st.start, st.found.value.last)
          && DirtyLog.Follows(st.found.value.snapshot.cache.log, c.log)
          && forall k | k in st.offered + st.tails :: k < st.start || k == st.found.value.last)
  }

  ghost predicate SystemOk(jobs: Jobs, s: System) {
    Consistent(s.cache) && forall id | id in s.streams :: StreamOk(jobs, s.cache, s.streams[id])
  }

  lemma InitialSystemOk(jobs: Jobs, c: Cache, tables: Tables)
    requires Initial(c)
    ensures SystemOk(jobs, System(c, tables, map[]))
  {
    InitialConsistent(c);
  }

  lemma StreamFollows(jobs: Jobs, c: Cache, d: Cache, st: Stream)
    requires StreamOk(jobs, c, st) && DirtyLog.Follows(c.log, d.log)
    ensures StreamOk(jobs, d, st)
  {
    if st.found.Some? {
      DirtyLog.FollowsTransitive(st.found.value.snapshot.cache.log, c.log, d.log);
    }
  }

  lemma LookedOk(jobs: Jobs, c: Known, st: Stream, scan: Scan)
    requires StreamOk(jobs, c.cache, st) && st.found.None? && IsScan(jobs, c, st.start, scan)
    requires DirtyLog.Bounded(c.cache.log)
    ensures StreamOk(jobs, c.cache, Looked(st, c, scan))
  {
    var t := Looked(st, c, scan);
    forall k | k in t.offered + t.tails ensures k < st.start || scan.last == Some(k) {
      assert k in st.offered + st.tails || scan.last == Some(k);
    }
  }

  lemma SweptFollows(st: Stream, l: DirtyLog.Log)
    requires st.found.Some?
    ensures DirtyLog.Follows(l, Swept(st, l))
    ensures DirtyLog.Inverse(l) && DirtyLog.Bounded(l) ==>
              DirtyLog.Inverse(Swept(st, l)) && DirtyLog.Bounded(Swept(st, l))
  {
    if DirtyLog.Inverse(l) && DirtyLog.Bounded(l) {
      DirtyLog.DeleteRangeKeeps(l, st.start, st.found.value.last);
    }
  }

  lemma LogOnlyConsistent(c: Cache, l: DirtyLog.Log)
    requires Consistent(c) && DirtyLog.Inverse(l) && DirtyLog.Bounded(l)
    ensures Consistent(c.(log := l))
  {
  }

  lemma NextOk(jobs: Jobs, s: System, step: Step)
    requires SystemOk(jobs, s) && Can(jobs, s, step)
    ensures SystemOk(jobs, Next(jobs, s, step))
    ensures DirtyLog.Follows(s.cache.log, Next(jobs, s, step).cache.log)
  {
    var t := Next(jobs, s, step);
    match step
    case Transact(a) =>
      AfterKeeps(s.cache, a);
      AfterLog(s.cache, a);
      forall id | id in t.streams ensures StreamOk(jobs, t.cache, t.streams[id]) {
        StreamFollows(jobs, s.cache, t.cache, s.streams[id]);
      }
    case Change(_) =>
    case Start(_) =>
    case Look(id, scan) => LookedOk(jobs, Known(s.cache, s.tables), s.streams[id], scan);
    case Sweep(id) =>
      SweptFollows(s.streams[id], s.cache.log);
      LogOnlyConsistent(s.cache, t.cache.log);
      forall i | i in t.streams ensures StreamOk(jobs, t.cache, t.streams[i]) {
        StreamFollows(jobs, s.cache, t.cache, s.streams[i]);
      }
    case Stop(_) =>
  }

  // ---------------------------------------------------------------------
  // Deletions
  // ---------------------------------------------------------------------

  /** Whether a stream saw this entry in its snapshot, and no job for it. */
  ghost predicate SeenJobless(jobs: Jobs, st: Stream, k: nat, path: string) {
    && st.found.Some?
    && k in st.found.value.snapshot.cache.log.log && st.found.value.snapshot.cache.log.log[k] == path
    && NoJob(jobs, st.found.value.snapshot, path)
  }

  /**
   * A stream deletes nothing but entries that were in its snapshot and gave no job there, none of
   * them ever scanned by this stream as a job or as the last of a scan, and nothing marked since the
   * snapshot.
   */
  lemma SweepDeletesSeen(jobs: Jobs, c: Cache, st: Stream, k: nat)
    requires Consistent(c) && StreamOk(jobs, c, st) && st.found.Some? && k in c.log.log
    ensures k !in Swept(st, c.log).log ==> SeenJobless(jobs, st, k, c.log.log[k]) && !Kept(st, k)
    ensures k > st.found.value.snapshot.cache.log.counter ==> k in Swept(st, c.log).log
    ensures k in Swept(st, c.log).log ==>
              var path := c.log.log[k];
              Swept(st, c.log).log[k] == path && path in Swept(st, c.log).dirty && Swept(st, c.log).dirty[path] == k
  {
    SweptFollows(st, c.log);
    assert Kept(st, k) ==> k in st.offered + st.tails;
  }

  ghost predicate CanAt(jobs: Jobs, states: seq<System>, steps: seq<Step>, i: nat)
    requires i < |steps| && |states| == |steps| + 1
  {
    Can(jobs, states[i], steps[i]) && states[i + 1] == Next(jobs, states[i], steps[i])
  }

  ghost predicate SystemRun(jobs: Jobs, states: seq<System>, steps: seq<Step>) {
    && |states| == |steps| + 1
    && forall i | 0 <= i < |steps| :: CanAt(jobs, states, steps, i)
  }

  lemma SystemStepOk(jobs: Jobs, states: seq<System>, steps: seq<Step>, i: nat, t: System)
    requires SystemRun(jobs, states, steps) && i < |steps| && t == states[i + 1] && SystemOk(jobs, states[i])
    ensures Can(jobs, states[i], steps[i]) && t == Next(jobs, states[i], steps[i]) && SystemOk(jobs, t)
  {
    assert CanAt(jobs, states, steps, i);
    NextOk(jobs, states[i], steps[i]);
  }

  lemma {:induction false} SystemRunOk(jobs: Jobs, states: seq<System>, steps: seq<Step>, j: nat)
    requires SystemRun(jobs, states, steps) && SystemOk(jobs, states[0]) && j <= |steps|
    ensures SystemOk(jobs, states[j])
  {
    if j > 0 {
      SystemRunOk(jobs, states, steps, j - 1);
      SystemStepOk(jobs, states, steps, j - 1, states[j]);
    }
  }

  // ---------------------------------------------------------------------
  // No update is lost
  // ---------------------------------------------------------------------

  /** The reports that take the entry `k` out of the log: cleared, done, or given up after failing. */
  ghost predicate Settles(l: DirtyLog.Log, op: DirtyLog.Op, strategy: DirtyLog.Strategy, k: nat, path: string) {
    match op
    case Clear(p) => p == path
    case Done(c) => c == k
    case Failed(c, _) => c == k && strategy(DirtyLog.FailureCount(l, c)).None?
    case _ => false
  }

  /**
   * The step takes a mark of `path` newer than `c` out of the log, for a reason: a report about this
   * very mark, or a stream that looked at it after it was made and saw no job.
   */
  ghost predicate Handles(jobs: Jobs, s: System, step: Step, path: string, c: nat) {
    MarkedSince(s.cache.log, path, c) &&
    var k := s.cache.log.dirty[path];
    match step
    case Transact(a) => a.LogOp? && Settles(s.cache.log, a.op, a.strategy, k, path)
    case Change(_) => false
    case Start(_) => false
    case Look(_, _) => false
    case Sweep(id) =>
      && id in s.streams && SeenJobless(jobs, s.streams[id], k, path)
      && k !in Swept(s.streams[id], s.cache.log).log
    case Stop(_) => false
  }

  lemma LogOpKeepsMark(l: DirtyLog.Log, op: DirtyLog.Op, strategy: DirtyLog.Strategy, path: string, c: nat)
    requires DirtyLog.Inverse(l) && DirtyLog.Bounded(l) && MarkedSince(l, path, c) && !op.Delete? && !op.Pop?
    ensures MarkedSince(DirtyLog.Apply(l, op, strategy), path, c) <==> !Settles(l, op, strategy, l.dirty[path], path)
  {
    DirtyLog.ApplyDirty(l, op, strategy, path);
    DirtyLog.ApplyLog(l, op, strategy, l.dirty[path]);
    assert l.log[l.dirty[path]] == path;
  }

  /** A report takes an entry out of the log exactly if it settles it. */
  lemma SettlesExactly(l: DirtyLog.Log, op: DirtyLog.Op, strategy: DirtyLog.Strategy, k: nat)
    requires DirtyLog.Inverse(l) && DirtyLog.Bounded(l) && k in l.log && (op.Clear? || op.Done? || op.Failed?)
    ensures k !in DirtyLog.Apply(l, op, strategy).log <==> Settles(l, op, strategy, k, l.log[k])
  {
    DirtyLog.ApplyLog(l, op, strategy, k);
  }

  lemma ToldKeepsMark(c: Cache, d: Cache, path: string, n: nat)
    requires Told(c, d) && MarkedSince(c.log, path, n) && DirtyLog.Inverse(c.log) && DirtyLog.Bounded(c.log)
    ensures MarkedSince(d.log, path, n)
  {
    var paths :| Announced(c, d, paths);
    MarkedAllIsExact(c.log, paths, path);
    assert c.log.dirty[path] in c.log.log;
  }

  lemma TransactKeepsMark(c: Cache, a: Action, path: string, n: nat)
    requires Consistent(c) && Enabled(c, a) && !(a.LogOp? && (a.op.Delete? || a.op.Pop?)) && MarkedSince(c.log, path, n)
    ensures MarkedSince(After(c, a).log, path, n) <==>
              !(a.LogOp? && Settles(c.log, a.op, a.strategy, c.log.dirty[path], path))
  {
    if a.LogOp? {
      LogOpKeepsMark(c.log, a.op, a.strategy, path, n);
    } else {
      AfterTold(c, a);
      ToldKeepsMark(c, After(c, a), path, n);
    }
  }

  /** A mark is gone after a step exactly if the step handles it. */
  lemma NextKeepsMark(jobs: Jobs, s: System, step: Step, path: string, c: nat)
    requires SystemOk(jobs, s) && Can(jobs, s, step) && MarkedSince(s.cache.log, path, c)
    ensures MarkedSince(Next(jobs, s, step).cache.log, path, c) <==> !Handles(jobs, s, step, path, c)
  {
    match step
    case Transact(a) => TransactKeepsMark(s.cache, a, path, c);
    case Change(_) =>
    case Start(_) =>
    case Look(_, _) =>
    case Sweep(id) =>
      var k := s.cache.log.dirty[path];
      assert k in s.cache.log.log && s.cache.log.log[k] == path;
      SweepDeletesSeen(jobs, s.cache, s.streams[id], k);
    case Stop(_) =>
  }

  ghost predicate HandledBetween(jobs: Jobs, states: seq<System>, steps: seq<Step>, i: nat, j: nat, path: string,
                                 c: nat)
    requires i <= j <= |steps| && |states| == |steps| + 1
  {
    exists m | i <= m < j :: Handles(jobs, states[m], steps[m], path, c)
  }

  lemma {:induction false} MarkStays(jobs: Jobs, states: seq<System>, steps: seq<Step>, i: nat, j: nat, path: string,
                                     c: nat)
    requires SystemRun(jobs, states, steps) && SystemOk(jobs, states[0]) && i <= j <= |steps|
    requires MarkedSince(states[i].cache.log, path, c)
    ensures MarkedSince(states[j].cache.log, path, c) || HandledBetween(jobs, states, steps, i, j, path, c)
    decreases j
  {
    if i < j {
      MarkStays(jobs, states, steps, i, j - 1, path, c);
      if MarkedSince(states[j - 1].cache.log, path, c) {
        SystemRunOk(jobs, states, steps, j - 1);
        SystemStepOk(jobs, states, steps, j - 1, states[j]);
        NextKeepsMark(jobs, states[j - 1], steps[j - 1], path, c);
      }
    }
  }

  /** `path` is where `inode` is shown before or after, differently. */
  ghost predicate ChangesUnder(c: Cache, d: Cache, inode: nat, path: string) {
    && !SameShown(c, d, inode)
    && (|| (Shown(c, inode) && c.files[DefaultOf(inode)].path == path)
        || (Shown(d, inode) && d.files[DefaultOf(inode)].path == path))
  }

  lemma ChangeMarks(c: Cache, a: Action, inode: nat, path: string)
    requires Consistent(c) && Enabled(c, a) && ChangesUnder(c, After(c, a), inode, path)
    ensures MarkedSince(After(c, a).log, path, c.log.counter)
  {
    ChangeIsMarked(c, a, inode);
  }

  lemma StepMarks(jobs: Jobs, s: System, step: Step, t: System, inode: nat, path: string)
    requires SystemOk(jobs, s) && Can(jobs, s, step) && t == Next(jobs, s, step)
    requires ChangesUnder(s.cache, t.cache, inode, path)
    ensures MarkedSince(t.cache.log, path, s.cache.log.counter)
  {
    if step.Transact? {
      ChangeMarks(s.cache, step.a, inode, path);
    }
  }

  lemma ChangeAtStep(jobs: Jobs, states: seq<System>, steps: seq<Step>, i: nat, t: System, inode: nat, path: string)
    requires SystemRun(jobs, states, steps) && SystemOk(jobs, states[0]) && i < |steps| && t == states[i + 1]
    requires ChangesUnder(states[i].cache, t.cache, inode, path)
    ensures MarkedSince(t.cache.log, path, states[i].cache.log.counter)
  {
    SystemRunOk(jobs, states, steps, i);
    SystemStepOk(jobs, states, steps, i, t);
    StepMarks(jobs, states[i], steps[i], t, inode, path);
  }

  /**
   * When a step changes what is shown at `inode`, then at every later time its path is dirty, or a
   * mark made by this change or later was settled by a report about it or was looked at by a
   * stream, after the change, that saw no job for it. No interleaving loses the change.
   */
  lemma NoUpdateIsLost(jobs: Jobs, states: seq<System>, steps: seq<Step>, i: nat, j: nat, inode: nat, path: string)
    requires SystemRun(jobs, states, steps) && SystemOk(jobs, states[0]) && i < j <= |steps|
    requires ChangesUnder(states[i].cache, states[i + 1].cache, inode, path)
    ensures var c := states[i].cache.log.counter;
            || MarkedSince(states[j].cache.log, path, c)
            || HandledBetween(jobs, states, steps, i + 1, j, path, c)
  {
    ChangeAtStep(jobs, states, steps, i, states[i + 1], inode, path);
    MarkStays(jobs, states, steps, i + 1, j, path, states[i].cache.log.counter);
  }

  /** No stream ever deletes, in any run, an entry that it scanned itself as a job or as the last of a scan. */
  lemma KeptNeverDeleted(jobs: Jobs, states: seq<System>, steps: seq<Step>, i: nat, id: nat, k: nat)
    requires SystemRun(jobs, states, steps) && SystemOk(jobs, states[0]) && i < |steps|
    requires steps[i] == Sweep(id) && id in states[i].streams && Kept(states[i].streams[id], k)
    requires k in states[i].cache.log.log
    ensures k in states[i + 1].cache.log.log
  {
    SystemRunOk(jobs, states, steps, i);
    SystemStepOk(jobs, states, steps, i, states[i + 1]);
    SweepDeletesSeen(jobs, states[i].cache, states[i].streams[id], k);
  }

  // ---------------------------------------------------------------------
  // Streams look at everything
  // ---------------------------------------------------------------------

  /** Of the entries that the stream is past, only those it kept are left. */
  ghost predicate LookedAtAll(c: Cache, st: Stream) {
    && (forall k | k in c.log.log && k < st.start :: Kept(st, k))
    && (st.found.Some? ==> Kept(st, st.found.value.last))
  }

  ghost predicate AllLookAtAll(s: System) {
    forall id | id in s.streams :: LookedAtAll(s.cache, s.streams[id])
  }

  lemma LookedFollows(jobs: Jobs, c: Cache, d: Cache, st: Stream)
    requires LookedAtAll(c, st) && StreamOk(jobs, c, st) && DirtyLog.Follows(c.log, d.log)
    ensures LookedAtAll(d, st)
  {
  }

  lemma SweptLooked(jobs: Jobs, c: Cache, st: Stream)
    requires LookedAtAll(c, st) && StreamOk(jobs, c, st) && st.found.Some?
    ensures LookedAtAll(c.(log := Swept(st, c.log)), st.(start := st.found.value.last + 1, found := None))
  {
    var l, d := Swept(st, c.log), c.(log := Swept(st, c.log));
    forall k | k in l.log && k < st.found.value.last + 1 ensures Kept(st, k) {
      assert k in c.log.log && !(st.start <= k < st.found.value.last);
    }
  }

  lemma StreamLooks(jobs: Jobs, s: System, step: Step, t: System, id: nat)
    requires SystemOk(jobs, s) && Can(jobs, s, step) && t == Next(jobs, s, step) && AllLookAtAll(s)
    requires DirtyLog.Follows(s.cache.log, t.cache.log) && id in t.streams
    ensures LookedAtAll(t.cache, t.streams[id])
  {
    if step == Sweep(id) {
      SweptLooked(jobs, s.cache, s.streams[id]);
    } else if id in s.streams {
      LookedFollows(jobs, s.cache, t.cache, s.streams[id]);
    }
  }

  lemma NextLooks(jobs: Jobs, s: System, step: Step)
    requires SystemOk(jobs, s) && Can(jobs, s, step) && AllLookAtAll(s)
    ensures AllLookAtAll(Next(jobs, s, step))
  {
    NextOk(jobs, s, step);
    var t := Next(jobs, s, step);
    forall id | id in t.streams ensures LookedAtAll(t.cache, t.streams[id]) {
      StreamLooks(jobs, s, step, t, id);
    }
  }

  /**
   * In every run, an entry that is still in the log although a stream is past it was scanned by that
   * stream as a job, or was the last one of a scan that found no job. The latter it never deletes.
   */
  lemma {:induction false} StreamsLookAtAll(jobs: Jobs, states: seq<System>, steps: seq<Step>, j: nat)
    requires SystemRun(jobs, states, steps) && SystemOk(jobs, states[0]) && states[0].streams == map[] && j <= |steps|
    ensures AllLookAtAll(states[j])
  {
    if j > 0 {
      StreamsLookAtAll(jobs, states, steps, j - 1);
      SystemRunOk(jobs, states, steps, j - 1);
      SystemStepOk(jobs, states, steps, j - 1, states[j]);
      NextLooks(jobs, states[j - 1], steps[j - 1]);
    }
  }
}
