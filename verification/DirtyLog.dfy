/** The dirty-path log: three cross-indexed tables and a counter that only grows. */
module DirtyLog {
  import opened Common

  datatype Failure = Failure(count: nat, backoffUntil: nat)

  /**
   * `dirty` maps a path to its counter, `log` a counter to its path, `counter` is the last one
   * handed out and `failed` holds the jobs, by counter, that are to be retried.
   */
  datatype Log = Log(dirty: map<string, nat>, log: map<nat, string>, counter: nat, failed: map<nat, Failure>)

  const EMPTY := Log(map[], map[], 0, map[])

  /** From an attempt number to the delay before the next one, or nothing to give up. */
  type Strategy = nat -> Option<nat>

  // ---------------------------------------------------------------------
  // Transactions
  // ---------------------------------------------------------------------

  function MarkDirty(l: Log, path: string): Log {
    var c := l.counter + 1;
    var log := l.log[c := path];
    if path in l.dirty then
      Log(l.dirty[path := c], log - {l.dirty[path]}, c, l.failed - {l.dirty[path]})
    else
      Log(l.dirty[path := c], log, c, l.failed)
  }

  function ClearDirty(l: Log, path: string): Log {
    if path in l.dirty then
      Log(l.dirty - {path}, l.log - {l.dirty[path]}, l.counter, l.failed - {l.dirty[path]})
    else l
  }

  /** The entry with counter `c` leaves all three tables. */
  function Drop(l: Log, c: nat): Log {
    if c in l.log then Log(l.dirty - {l.log[c]}, l.log - {c}, l.counter, l.failed - {c}) else l
  }

  function JobDone(l: Log, c: nat): Log {
    Drop(l, c)
  }

  function FailureCount(l: Log, c: nat): nat {
    if c in l.failed then l.failed[c].count + 1 else 1
  }

  /** Times are in nanoseconds. */
  const SECOND: nat := 1_000_000_000

  /** Of a time, the table keeps the seconds only. */
  function Stored(time: nat): (t: nat)
    ensures time < t + SECOND && t <= time && t % SECOND == 0
    ensures time < SECOND ==> t == 0
    ensures SECOND <= time < 2 * SECOND ==> t == SECOND
  {
    time / SECOND * SECOND
  }

  /** What becomes of the tables, and when the job is to be retried. */
  function JobFailed(l: Log, c: nat, now: nat, strategy: Strategy): (Log, Option<nat>) {
    if c !in l.log then (l, None)
    else
      match strategy(FailureCount(l, c))
      case None => (Drop(l, c), None)
      case Some(delay) =>
        (l.(failed := l.failed[c := Failure(FailureCount(l, c), Stored(now + delay))]), Some(now + delay))
  }

  predicate Within(c: nat, beg: nat, end: nat) {
    beg <= c < end
  }

  function KeysWithin<T>(m: map<nat, T>, beg: nat, end: nat): set<nat> {
    set c | c in m && Within(c, beg, end)
  }

  function PathsWithin(l: Log, beg: nat, end: nat): set<string> {
    set c | c in l.log && Within(c, beg, end) :: l.log[c]
  }

  function DeleteRange(l: Log, beg: nat, end: nat): Log {
    Log(l.dirty - PathsWithin(l, beg, end),
        l.log - KeysWithin(l.log, beg, end),
        l.counter,
        l.failed - KeysWithin(l.failed, beg, end))
  }

  /** Removes the entry from the path table and the log, but not from the failed jobs. */
  function Popped(l: Log, c: nat): Log
    requires c in l.log
  {
    Log(l.dirty - {l.log[c]}, l.log - {c}, l.counter, l.failed)
  }

  // ---------------------------------------------------------------------
  // What every transaction keeps
  // ---------------------------------------------------------------------

  /** `dirty` and `log` are inverse to each other. */
  ghost predicate Inverse(l: Log) {
    && (forall p | p in l.dirty :: l.dirty[p] in l.log && l.log[l.dirty[p]] == p)
    && (forall c | c in l.log :: l.log[c] in l.dirty && l.dirty[l.log[c]] == c)
  }

  ghost predicate Bounded(l: Log) {
    forall c | c in l.log :: 1 <= c <= l.counter
  }

  ghost predicate FailuresLogged(l: Log) {
    l.failed.Keys <= l.log.Keys
  }

  ghost predicate Inv(l: Log) {
    Inverse(l) && Bounded(l) && FailuresLogged(l)
  }

  datatype Op =
    | Mark(path: string)
    | Clear(path: string)
    | Done(c: nat)
    | Failed(c: nat, now: nat)
    | Delete(beg: nat, end: nat)
    | Pop(c: nat)

  /** `Pop` takes the first entry of the log; every other operation is always possible. */
  ghost predicate Enabled(l: Log, op: Op) {
    op.Pop? ==> op.c in l.log && forall d | d in l.log :: op.c <= d
  }

  function Apply(l: Log, op: Op, strategy: Strategy): Log
    requires op.Pop? ==> op.c in l.log
  {
    match op
    case Mark(path) => MarkDirty(l, path)
    case Clear(path) => ClearDirty(l, path)
    case Done(c) => JobDone(l, c)
    case Failed(c, now) => JobFailed(l, c, now, strategy).0
    case Delete(beg, end) => DeleteRange(l, beg, end)
    case Pop(c) => Popped(l, c)
  }

  lemma MarkDirtyKeeps(l: Log, path: string)
    requires Inverse(l) && Bounded(l)
    ensures Inverse(MarkDirty(l, path)) && Bounded(MarkDirty(l, path))
    ensures FailuresLogged(l) ==> FailuresLogged(MarkDirty(l, path))
  {
  }

  lemma DropKeeps(l: Log, c: nat)
    requires Inverse(l) && Bounded(l)
    ensures Inverse(Drop(l, c)) && Bounded(Drop(l, c))
    ensures FailuresLogged(l) ==> FailuresLogged(Drop(l, c))
  {
  }

  lemma ClearIsDrop(l: Log, path: string)
    requires Inverse(l) && path in l.dirty
    ensures ClearDirty(l, path) == Drop(l, l.dirty[path])
  {
  }

  lemma DeleteRangeKeeps(l: Log, beg: nat, end: nat)
    requires Inverse(l) && Bounded(l)
    ensures Inverse(DeleteRange(l, beg, end)) && Bounded(DeleteRange(l, beg, end))
    ensures FailuresLogged(l) ==> FailuresLogged(DeleteRange(l, beg, end))
  {
    var d := DeleteRange(l, beg, end);
    forall c | c in d.log ensures d.log[c] in d.dirty && d.dirty[d.log[c]] == c {
      assert l.dirty[l.log[c]] == c;
    }
    forall p | p in d.dirty ensures d.dirty[p] in d.log && d.log[d.dirty[p]] == p {
      assert l.log[l.dirty[p]] == p;
    }
  }

  lemma PoppedKeeps(l: Log, c: nat)
    requires Inverse(l) && Bounded(l) && c in l.log
    ensures Inverse(Popped(l, c)) && Bounded(Popped(l, c))
    ensures FailuresLogged(l) ==> (FailuresLogged(Popped(l, c)) <==> c !in l.failed)
  {
  }

  /**
   * Every operation keeps the tables inverse to each other and below the counter. The failed jobs
   * stay a part of the log, except when the popped entry is a failed job.
   */
  lemma ApplyKeeps(l: Log, op: Op, strategy: Strategy)
    requires Inverse(l) && Bounded(l) && Enabled(l, op)
    ensures Inverse(Apply(l, op, strategy)) && Bounded(Apply(l, op, strategy))
    ensures FailuresLogged(l) ==> (FailuresLogged(Apply(l, op, strategy)) <==> !(op.Pop? && op.c in l.failed))
  {
    match op
    case Mark(path) => MarkDirtyKeeps(l, path);
    case Clear(path) =>
      if path in l.dirty {
        ClearIsDrop(l, path);
        DropKeeps(l, l.dirty[path]);
      }
    case Done(c) => DropKeeps(l, c);
    case Failed(c, now) => DropKeeps(l, c);
    case Delete(beg, end) => DeleteRangeKeeps(l, beg, end);
    case Pop(c) => PoppedKeeps(l, c);
  }

  /** A failed job that is popped leaves its failure behind. */
  lemma PopLeavesFailure()
    ensures var l := Log(map["a" := 1], map[1 := "a"], 1, map[1 := Failure(1, 5)]);
            Inv(l) && Enabled(l, Pop(1)) && !FailuresLogged(Popped(l, 1))
  {
    var l := Log(map["a" := 1], map[1 := "a"], 1, map[1 := Failure(1, 5)]);
    assert 1 in Popped(l, 1).failed.Keys;
  }

  // ---------------------------------------------------------------------
  // What every transaction does
  // ---------------------------------------------------------------------

  /**
   * The operation takes the entry `c` out of the log: its path is marked again or cleared, its job is
   * done or given up after failing, or it is deleted or popped.
   */
  ghost predicate Removes(l: Log, op: Op, strategy: Strategy, c: nat) {
    c in l.log &&
    match op
    case Mark(path) => l.log[c] == path
    case Clear(path) => l.log[c] == path
    case Done(d) => d == c
    case Failed(d, _) => d == c && strategy(FailureCount(l, c)).None?
    case Delete(beg, end) => beg <= c < end
    case Pop(d) => d == c
  }

  /** The operation records one more failure of the job `c`. */
  ghost predicate Records(l: Log, op: Op, strategy: Strategy, c: nat) {
    op.Failed? && op.c == c && c in l.log && strategy(FailureCount(l, c)).Some?
  }

  /** The operation makes the job forget its failures. A popped entry leaves them; deleting its counter takes them. */
  ghost predicate Forgets(l: Log, op: Op, strategy: Strategy, c: nat) {
    if op.Delete? then op.beg <= c < op.end else Removes(l, op, strategy, c) && !op.Pop?
  }

  /** The log has lost the removed entries, and gained the one just marked. */
  ghost predicate LogExact(l: Log, op: Op, strategy: Strategy, m: Log, c: nat) {
    && m.counter == l.counter + (if op.Mark? then 1 else 0)
    && (c in m.log <==> (c in l.log && !Removes(l, op, strategy, c)) || (op.Mark? && c == m.counter))
    && (c in m.log ==> m.log[c] == if op.Mark? && c == m.counter then op.path else l.log[c])
  }

  ghost predicate DirtyExact(l: Log, op: Op, strategy: Strategy, m: Log, p: string) {
    && (p in m.dirty <==> op == Mark(p) || (p in l.dirty && !Removes(l, op, strategy, l.dirty[p])))
    && (p in m.dirty ==> m.dirty[p] == if op == Mark(p) then m.counter else l.dirty[p])
  }

  ghost predicate FailedExact(l: Log, op: Op, strategy: Strategy, m: Log, c: nat) {
    && (c in m.failed <==> (c in l.failed && !Forgets(l, op, strategy, c)) || Records(l, op, strategy, c))
    && (c in m.failed ==>
          if Records(l, op, strategy, c) then
            && m.failed[c].count == (if c in l.failed then l.failed[c].count else 0) + 1
            && m.failed[c].backoffUntil == Stored(op.now + strategy(m.failed[c].count).value)
          else m.failed[c] == l.failed[c])
  }

  /** Whoever reports a failure hears when the job is retried, in full; nothing if it is not. */
  ghost predicate AnsweredExact(l: Log, op: Op, strategy: Strategy, m: Log)
    requires op.Failed?
  {
    var r := JobFailed(l, op.c, op.now, strategy).1;
    && (r.Some? <==> Records(l, op, strategy, op.c))
    && (r.Some? ==> op.c in m.failed && r.value >= op.now && strategy(m.failed[op.c].count) == Some(r.value - op.now))
  }

  lemma ApplyLog(l: Log, op: Op, strategy: Strategy, c: nat)
    requires Inverse(l) && Bounded(l) && Enabled(l, op)
    ensures LogExact(l, op, strategy, Apply(l, op, strategy), c)
  {
  }

  lemma ApplyDirty(l: Log, op: Op, strategy: Strategy, p: string)
    requires Inverse(l) && Bounded(l) && Enabled(l, op)
    ensures DirtyExact(l, op, strategy, Apply(l, op, strategy), p)
  {
    if p in l.dirty {
      assert l.dirty[p] in l.log && l.log[l.dirty[p]] == p;
    }
  }

  lemma ApplyFailed(l: Log, op: Op, strategy: Strategy, c: nat)
    requires Inverse(l) && Bounded(l) && Enabled(l, op)
    ensures FailedExact(l, op, strategy, Apply(l, op, strategy), c)
  {
  }

  /**
   * Every operation takes exactly the entries it is about out of all tables, and leaves every other
   * row and the counter alone; a mark adds one entry, and a failure that is not the last is counted.
   */
  lemma ApplyIsExact(l: Log, op: Op, strategy: Strategy, c: nat, p: string)
    requires Inverse(l) && Bounded(l) && Enabled(l, op)
    ensures LogExact(l, op, strategy, Apply(l, op, strategy), c)
    ensures DirtyExact(l, op, strategy, Apply(l, op, strategy), p)
    ensures FailedExact(l, op, strategy, Apply(l, op, strategy), c)
    ensures op.Failed? ==> AnsweredExact(l, op, strategy, Apply(l, op, strategy))
  {
    ApplyLog(l, op, strategy, c);
    ApplyDirty(l, op, strategy, p);
    ApplyFailed(l, op, strategy, c);
  }

  // ---------------------------------------------------------------------
  // Counters
  // ---------------------------------------------------------------------

  /**
   * What later states owe to an earlier one: counters handed out by then are only ever removed,
   * and never come to mean another path.
   */
  ghost predicate Follows(l: Log, later: Log) {
    && l.counter <= later.counter
    && (forall c | c in later.log && c <= l.counter :: c in l.log && later.log[c] == l.log[c])
  }

  lemma ApplyFollows(l: Log, op: Op, strategy: Strategy)
    requires Enabled(l, op)
    ensures Follows(l, Apply(l, op, strategy))
  {
  }

  ghost predicate Run(states: seq<Log>, ops: seq<Op>, strategy: Strategy) {
    && |states| == |ops| + 1
    && forall i | 0 <= i < |ops| ::
         Enabled(states[i], ops[i]) && states[i + 1] == Apply(states[i], ops[i], strategy)
  }

  lemma FollowsTransitive(a: Log, b: Log, c: Log)
    requires Follows(a, b) && Follows(b, c)
    ensures Follows(a, c)
  {
  }

  lemma {:induction false} RunFollows(states: seq<Log>, ops: seq<Op>, strategy: Strategy, i: nat, j: nat)
    requires Run(states, ops, strategy) && i <= j <= |ops|
    ensures Follows(states[i], states[j])
    decreases j
  {
    if i < j {
      RunFollows(states, ops, strategy, i, j - 1);
      ApplyFollows(states[j - 1], ops[j - 1], strategy);
      assert states[j - 1 + 1] == Apply(states[j - 1], ops[j - 1], strategy);
      FollowsTransitive(states[i], states[j - 1], states[j]);
    }
  }

  lemma {:induction false} RunKeeps(states: seq<Log>, ops: seq<Op>, strategy: Strategy, j: nat)
    requires Run(states, ops, strategy) && j <= |ops|
    requires Inverse(states[0]) && Bounded(states[0])
    ensures Inverse(states[j]) && Bounded(states[j])
    ensures FailuresLogged(states[0]) && (forall i | 0 <= i < j :: !ops[i].Pop?) ==> FailuresLogged(states[j])
  {
    if j > 0 {
      RunKeeps(states, ops, strategy, j - 1);
      ApplyKeeps(states[j - 1], ops[j - 1], strategy);
      assert states[j - 1 + 1] == Apply(states[j - 1], ops[j - 1], strategy);
    }
  }

  /**
   * Once a counter has left the log it never comes back, in any continuation of the run, and a
   * report about it changes nothing.
   */
  lemma CounterNeverReturns(states: seq<Log>, ops: seq<Op>, strategy: Strategy, i: nat, j: nat, c: nat, now: nat)
    requires Run(states, ops, strategy) && i <= j <= |ops|
    requires c <= states[i].counter && c !in states[i].log
    ensures c !in states[j].log
    ensures JobDone(states[j], c) == states[j]
    ensures JobFailed(states[j], c, now, strategy) == (states[j], None)
  {
    RunFollows(states, ops, strategy, i, j);
  }

  /** So a report about a job whose path was marked again leaves the newer mark alone. */
  lemma StaleReport(l: Log, path: string, now: nat, strategy: Strategy)
    requires Inv(l) && path in l.dirty
    ensures var c := l.dirty[path];
            var m := MarkDirty(l, path);
            && path in m.dirty && m.dirty[path] > c
            && JobDone(m, c) == m
            && JobFailed(m, c, now, strategy) == (m, None)
  {
  }

  // ---------------------------------------------------------------------
  // The log and the history
  // ---------------------------------------------------------------------

  /** The path is marked at step `i`, and up to `j` the entry is not removed. */
  ghost predicate StandsSince(states: seq<Log>, ops: seq<Op>, strategy: Strategy, i: nat, j: nat, path: string)
    requires |states| == |ops| + 1 && i < j <= |ops|
  {
    && ops[i] == Mark(path)
    && forall m | i < m < j :: !Removes(states[m], ops[m], strategy, states[i].counter + 1)
  }

  ghost predicate Stands(states: seq<Log>, ops: seq<Op>, strategy: Strategy, j: nat, path: string, c: nat)
    requires |states| == |ops| + 1 && j <= |ops|
  {
    exists i | 0 <= i < j :: StandsSince(states, ops, strategy, i, j, path) && c == states[i].counter + 1
  }

  lemma StandsNext(states: seq<Log>, ops: seq<Op>, strategy: Strategy, j: nat, path: string, c: nat)
    requires |states| == |ops| + 1 && j < |ops|
    ensures Stands(states, ops, strategy, j + 1, path, c) <==>
              || (ops[j] == Mark(path) && c == states[j].counter + 1)
              || (Stands(states, ops, strategy, j, path, c) && !Removes(states[j], ops[j], strategy, c))
  {
    if ops[j] == Mark(path) && c == states[j].counter + 1 {
      assert StandsSince(states, ops, strategy, j, j + 1, path);
    }
    if Stands(states, ops, strategy, j, path, c) && !Removes(states[j], ops[j], strategy, c) {
      var i :| 0 <= i < j && StandsSince(states, ops, strategy, i, j, path) && c == states[i].counter + 1;
      assert StandsSince(states, ops, strategy, i, j + 1, path);
    }
    if Stands(states, ops, strategy, j + 1, path, c) {
      var i :| 0 <= i < j + 1 && StandsSince(states, ops, strategy, i, j + 1, path) && c == states[i].counter + 1;
      if i < j {
        assert StandsSince(states, ops, strategy, i, j, path);
      }
    }
  }

  ghost predicate IsDirtyAs(l: Log, path: string, c: nat) {
    path in l.dirty && l.dirty[path] == c
  }

  lemma DirtyNext(l: Log, op: Op, strategy: Strategy, path: string, c: nat)
    requires Inverse(l) && Bounded(l) && Enabled(l, op)
    ensures IsDirtyAs(Apply(l, op, strategy), path, c) <==>
              || (op == Mark(path) && c == l.counter + 1)
              || (IsDirtyAs(l, path, c) && !Removes(l, op, strategy, c))
  {
    ApplyDirty(l, op, strategy, path);
    ApplyLog(l, op, strategy, c);
  }

  lemma RunAt(states: seq<Log>, ops: seq<Op>, strategy: Strategy, i: nat, next: Log)
    requires Run(states, ops, strategy) && states[0] == EMPTY && i < |ops| && next == states[i + 1]
    ensures Inverse(states[i]) && Bounded(states[i]) && Enabled(states[i], ops[i])
    ensures next == Apply(states[i], ops[i], strategy)
  {
    RunKeeps(states, ops, strategy, i);
  }

  /**
   * In every run that begins with empty tables, a path is dirty exactly if it was marked and nothing
   * has removed the mark since, and its counter is the one that it was marked with.
   */
  lemma {:induction false} DirtyIsHistory(states: seq<Log>, ops: seq<Op>, strategy: Strategy, j: nat, path: string,
                                          c: nat)
    requires Run(states, ops, strategy) && states[0] == EMPTY && j <= |ops|
    ensures IsDirtyAs(states[j], path, c) <==> Stands(states, ops, strategy, j, path, c)
  {
    if j > 0 {
      DirtyIsHistory(states, ops, strategy, j - 1, path, c);
      RunAt(states, ops, strategy, j - 1, states[j]);
      DirtyNext(states[j - 1], ops[j - 1], strategy, path, c);
      StandsNext(states, ops, strategy, j - 1, path, c);
    }
  }

  /** How often the job was reported to have failed while it was in the log. */
  ghost function Reports(states: seq<Log>, ops: seq<Op>, j: nat, c: nat): nat
    requires |states| == |ops| + 1 && j <= |ops|
  {
    if j == 0 then 0
    else
      Reports(states, ops, j - 1, c) +
      if ops[j - 1].Failed? && ops[j - 1].c == c && c in states[j - 1].log then 1 else 0
  }

  /**
   * The failures of a job in the log are counted from the first to the last: the strategy is asked
   * about the number of reports there were.
   */
  lemma {:induction false} FailuresAreCounted(states: seq<Log>, ops: seq<Op>, strategy: Strategy, j: nat, c: nat)
    requires Run(states, ops, strategy) && states[0] == EMPTY && j <= |ops|
    ensures c in states[j].log ==> FailureCount(states[j], c) == Reports(states, ops, j, c) + 1
    ensures c > states[j].counter ==> Reports(states, ops, j, c) == 0 && c !in states[j].failed
  {
    if j > 0 {
      FailuresAreCounted(states, ops, strategy, j - 1, c);
      RunAt(states, ops, strategy, j - 1, states[j]);
      ApplyLog(states[j - 1], ops[j - 1], strategy, c);
      ApplyFailed(states[j - 1], ops[j - 1], strategy, c);
    }
  }
}
