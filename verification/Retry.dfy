/** When failed jobs are offered again by a stream. */
module Retry {
  import opened Common
  import opened DirtyLog
  import opened Tables

  /** The greatest time, in nanoseconds. */
  const TIME_MAX: nat := 0xFFFF_FFFF_FFFF_FFFF * 1_000_000_000 + 999_999_999

  type Failures = map<nat, Failure>

  datatype Round = Round(backoff: nat, jobs: set<nat>)

  predicate Above(backoff: nat, bound: Option<nat>) {
    bound.Some? ==> backoff > bound.value
  }

  /** The job can be retried at `backoff`, which is above the bound and below the end of time. */
  predicate Due(failed: Failures, k: nat, bound: Option<nat>) {
    k in failed && Above(failed[k].backoffUntil, bound) && failed[k].backoffUntil < TIME_MAX
  }

  /** The jobs with the earliest backoff above the bound, all of them and no others. */
  ghost predicate IsRound(failed: Failures, bound: Option<nat>, r: Round) {
    && r.backoff < TIME_MAX && r.jobs != {}
    && (forall k | Due(failed, k, bound) :: r.backoff <= failed[k].backoffUntil)
    && (forall k :: k in r.jobs <==> Due(failed, k, bound) && failed[k].backoffUntil == r.backoff)
  }

  ghost predicate NoRound(failed: Failures, bound: Option<nat>) {
    forall k :: !Due(failed, k, bound)
  }

  lemma RoundUnique(failed: Failures, bound: Option<nat>, r: Round, q: Round)
    requires IsRound(failed, bound, r) && IsRound(failed, bound, q)
    ensures r == q && !NoRound(failed, bound)
  {
    var k :| k in r.jobs;
    var j :| j in q.jobs;
    assert Due(failed, k, bound) && Due(failed, j, bound);
  }

  /** What the loop has after the keys in `seen`. */
  ghost predicate Scanned(failed: Failures, bound: Option<nat>, seen: seq<nat>, earliest: nat, counters: seq<nat>) {
    && earliest <= TIME_MAX
    && (forall k | k in counters :: k in seen)
    && (forall k | k in counters && k in failed ::
       Above(failed[k].backoffUntil, bound) && failed[k].backoffUntil == earliest)
    && (forall k | k in seen && k in failed && Above(failed[k].backoffUntil, bound) ::
          failed[k].backoffUntil >= earliest && (failed[k].backoffUntil == earliest ==> k in counters))
    && (earliest < TIME_MAX ==> counters != [])
  }

  predicate Skipped(backoff: nat, bound: Option<nat>, earliest: nat) {
    !Above(backoff, bound) || backoff > earliest
  }

  lemma ScannedSkip(failed: Failures, bound: Option<nat>, seen: seq<nat>, earliest: nat, counters: seq<nat>, k: nat)
    requires Scanned(failed, bound, seen, earliest, counters)
    requires k in failed && Skipped(failed[k].backoffUntil, bound, earliest)
    ensures Scanned(failed, bound, seen + [k], earliest, counters)
  {
  }

  lemma ScannedTake(failed: Failures, bound: Option<nat>, seen: seq<nat>, earliest: nat, counters: seq<nat>, k: nat)
    requires Scanned(failed, bound, seen, earliest, counters) && k in failed && k !in seen
    requires !Skipped(failed[k].backoffUntil, bound, earliest)
    ensures var b := failed[k].backoffUntil;
            Scanned(failed, bound, seen + [k], b, (if b < earliest then [] else counters) + [k])
  {
    assert k in [k];
  }

  lemma ScannedAll(failed: Failures, bound: Option<nat>, seen: seq<nat>, earliest: nat, counters: seq<nat>)
    requires Scanned(failed, bound, seen, earliest, counters) && forall k :: k in seen <==> k in failed
    ensures earliest < TIME_MAX ==> IsRound(failed, bound, Round(earliest, set k | k in counters))
    ensures earliest == TIME_MAX ==> NoRound(failed, bound)
  {
    if earliest < TIME_MAX {
      var r := Round(earliest, set k | k in counters);
      assert counters[0] in r.jobs;
      forall k ensures k in r.jobs <==> Due(failed, k, bound) && failed[k].backoffUntil == r.backoff {
      }
    }
  }

  /** One pass over the failed jobs, in key order. */
  method EarliestBackoff(failed: Failures, bound: Option<nat>) returns (r: Option<(nat, seq<nat>)>)
    ensures r.None? <==> NoRound(failed, bound)
    ensures r.Some? ==> IsRound(failed, bound, Round(r.value.0, set k | k in r.value.1)) && Ascending(r.value.1)
  {
    var keys := ListKeys(failed, 0);
    var earliest: nat, counters: seq<nat> := TIME_MAX, [];
    for i := 0 to |keys|
      invariant Scanned(failed, bound, keys[..i], earliest, counters) && Ascending(counters)
    {
      var k := keys[i];
      var backoff := failed[k].backoffUntil;
      PrefixBelow(keys, i);
      if Skipped(backoff, bound, earliest) {
        ScannedSkip(failed, bound, keys[..i], earliest, counters, k);
      } else {
        ScannedTake(failed, bound, keys[..i], earliest, counters, k);
        if backoff < earliest {
          earliest, counters := backoff, [];
        }
        AscendingAppend(counters, k);
        counters := counters + [k];
      }
    }
    assert keys[..|keys|] == keys;
    ScannedAll(failed, bound, keys, earliest, counters);
    if earliest < TIME_MAX {
      RoundUnique(failed, bound, Round(earliest, set k | k in counters), Round(earliest, set k | k in counters));
      r := Some((earliest, counters));
    } else {
      r := None;
    }
  }

  // ---------------------------------------------------------------------
  // Rounds of one stream
  // ---------------------------------------------------------------------

  /** A job and the backoff of the round in which it was offered. */
  datatype Offer = Offer(job: nat, backoff: nat)

  /**
   * One stream among whatever else uses the log: the bound, the round it sleeps for, if any, the jobs
   * whose failure was recorded since it last looked, and the offers it made of jobs that have not
   * failed since.
   */
  datatype State = State(
    log: Log,
    clock: nat,
    bound: Option<nat>,
    armed: Option<Round>,
    unseen: set<nat>,
    offered: set<Offer>)

  /** `Rescan` looks for the next round, `Fire` wakes up after the round's backoff. */
  datatype Event =
    | Tick(now: nat)
    | Operate(op: Op)
    | Rescan(found: Option<Round>)
    | Fire
    | Cancel

  ghost predicate CanHappen(s: State, e: Event) {
    match e
    case Tick(now) => s.clock <= now
    case Operate(op) => Enabled(s.log, op) && (op.Failed? ==> op.now == s.clock)
    case Rescan(found) =>
      match found {
        case None => NoRound(s.log.failed, s.bound)
        case Some(r) => IsRound(s.log.failed, s.bound, r)
      }
    case Fire => s.armed.Some? && s.armed.value.backoff <= s.clock
    case Cancel => true
  }

  function Offers(r: Round): set<Offer> {
    set k | k in r.jobs :: Offer(k, r.backoff)
  }

  function OffersWithout(offered: set<Offer>, job: nat): set<Offer> {
    set o | o in offered && o.job != job
  }

  predicate Reports(l: Log, op: Op) {
    op.Failed? && op.c in l.log
  }

  /** A failure asks the stream to scan again; it may wake up for its round before that. */
  ghost function Operated(s: State, op: Op, strategy: Strategy): State
    requires Enabled(s.log, op)
  {
    var t := s.(log := Apply(s.log, op, strategy));
    if Reports(s.log, op) then t.(unseen := s.unseen + {op.c}, offered := OffersWithout(s.offered, op.c)) else t
  }

  ghost function Happened(s: State, e: Event, strategy: Strategy): State
    requires CanHappen(s, e)
  {
    match e
    case Tick(now) => s.(clock := now)
    case Operate(op) => Operated(s, op, strategy)
    case Rescan(found) => s.(armed := found, unseen := {})
    case Fire =>
      s.(bound := Some(s.armed.value.backoff), armed := None, offered := s.offered + Offers(s.armed.value))
    case Cancel => s.(armed := None)
  }

  /** Since it failed, the job was offered in a round that was not before `backoff`. */
  ghost predicate OfferedSince(offered: set<Offer>, job: nat, backoff: nat) {
    exists o | o in offered :: o.job == job && o.backoff >= backoff
  }

  /** Every failed job whose backoff is at or below the bound was offered, not before that backoff, since it failed. */
  ghost predicate BoundOk(s: State) {
    s.bound.Some? ==>
      forall k | k in s.log.failed && s.log.failed[k].backoffUntil <= s.bound.value ::
        OfferedSince(s.offered, k, s.log.failed[k].backoffUntil)
  }

  // ---------------------------------------------------------------------
  // When a job is missed
  // ---------------------------------------------------------------------

  /**
   * The stream is about to wake up although a failure that was recorded since it looked, of a job
   * that is not in the round, has its backoff at or before the round's.
   */
  ghost predicate SleepsThrough(s: State) {
    s.armed.Some? &&
    exists k | k in s.unseen ::
      && k in s.log.failed && k !in s.armed.value.jobs
      && Above(s.log.failed[k].backoffUntil, s.bound) && s.log.failed[k].backoffUntil <= s.armed.value.backoff
  }

  /** The failure is recorded with a backoff that the stream is past already. */
  ghost predicate FailsBehind(s: State, op: Op, strategy: Strategy) {
    Reports(s.log, op) && s.bound.Some? &&
    var delay := strategy(FailureCount(s.log, op.c));
    delay.Some? && Stored(op.now + delay.value) <= s.bound.value
  }

  ghost predicate Overtakes(s: State, e: Event, strategy: Strategy) {
    match e
    case Fire => SleepsThrough(s)
    case Operate(op) => FailsBehind(s, op, strategy)
    case _ => false
  }

  /** Apart from failures recorded since the scan, nothing is due before the round, and what is due then is in it. */
  ghost predicate ArmedOk(failed: Failures, bound: Option<nat>, unseen: set<nat>, r: Round) {
    && r.backoff < TIME_MAX && Above(r.backoff, bound)
    && forall k | Due(failed, k, bound) && k !in unseen ::
         r.backoff <= failed[k].backoffUntil && (failed[k].backoffUntil == r.backoff ==> k in r.jobs)
  }

  /** What every event keeps: the bound has passed and is not below any offer, and the next round is above. */
  ghost predicate Steady(s: State) {
    && (s.bound.Some? ==> s.bound.value <= s.clock && s.bound.value < TIME_MAX)
    && (forall o | o in s.offered :: s.bound.Some? && o.backoff <= s.bound.value)
    && (s.armed.Some? ==> ArmedOk(s.log.failed, s.bound, s.unseen, s.armed.value))
  }

  /** Every operation but a recorded failure only takes failures away. */
  lemma OnlyFailedAdds(l: Log, op: Op, strategy: Strategy, k: nat)
    requires Enabled(l, op) && k in Apply(l, op, strategy).failed
    ensures
      || (k in l.failed && Apply(l, op, strategy).failed[k] == l.failed[k] && !(Reports(l, op) && op.c == k))
      || (Reports(l, op) && op.c == k && strategy(FailureCount(l, k)).Some?
          && Apply(l, op, strategy).failed[k] ==
             Failure(FailureCount(l, k), Stored(op.now + strategy(FailureCount(l, k)).value)))
  {
  }

  lemma OperatedSteady(s: State, op: Op, strategy: Strategy)
    requires Steady(s) && Enabled(s.log, op)
    ensures Steady(Operated(s, op, strategy))
  {
    var t := Operated(s, op, strategy);
    if s.armed.Some? {
      forall k | Due(t.log.failed, k, t.bound) && k !in t.unseen ensures Due(s.log.failed, k, s.bound) {
        OnlyFailedAdds(s.log, op, strategy, k);
      }
    }
  }

  lemma HappenedSteady(s: State, e: Event, strategy: Strategy)
    requires Steady(s) && CanHappen(s, e)
    ensures Steady(Happened(s, e, strategy))
  {
    match e
    case Tick(_) =>
    case Operate(op) => OperatedSteady(s, op, strategy);
    case Rescan(found) =>
      if found.Some? {
        var k :| k in found.value.jobs;
        assert Due(s.log.failed, k, s.bound);
      }
    case Fire =>
    case Cancel =>
  }

  lemma OperatedKeepsOffers(s: State, op: Op, strategy: Strategy, k: nat, b: nat)
    requires Enabled(s.log, op) && OfferedSince(s.offered, k, b) && !(Reports(s.log, op) && op.c == k)
    ensures OfferedSince(Operated(s, op, strategy).offered, k, b)
  {
    var o :| o in s.offered && o.job == k && o.backoff >= b;
    assert o in Operated(s, op, strategy).offered;
  }

  lemma OperatedExact(s: State, op: Op, strategy: Strategy)
    requires BoundOk(s) && Enabled(s.log, op)
    ensures BoundOk(Operated(s, op, strategy)) <==> !FailsBehind(s, op, strategy)
  {
    var t := Operated(s, op, strategy);
    if FailsBehind(s, op, strategy) {
      assert op.c in t.log.failed && !OfferedSince(t.offered, op.c, t.log.failed[op.c].backoffUntil);
    } else if s.bound.Some? {
      forall k | k in t.log.failed && t.log.failed[k].backoffUntil <= s.bound.value
        ensures OfferedSince(t.offered, k, t.log.failed[k].backoffUntil)
      {
        OnlyFailedAdds(s.log, op, strategy, k);
        OperatedKeepsOffers(s, op, strategy, k, t.log.failed[k].backoffUntil);
      }
    }
  }

  lemma FireOffers(s: State, strategy: Strategy, k: nat)
    requires BoundOk(s) && Steady(s) && CanHappen(s, Fire) && !SleepsThrough(s)
    requires k in s.log.failed && s.log.failed[k].backoffUntil <= s.armed.value.backoff
    ensures OfferedSince(Happened(s, Fire, strategy).offered, k, s.log.failed[k].backoffUntil)
  {
    var r, b := s.armed.value, s.log.failed[k].backoffUntil;
    if Above(b, s.bound) {
      assert Due(s.log.failed, k, s.bound);
      assert k in r.jobs;
      assert Offer(k, r.backoff) in Offers(r);
    } else {
      var o :| o in s.offered && o.job == k && o.backoff >= b;
      assert o in Happened(s, Fire, strategy).offered;
    }
  }

  lemma FireExact(s: State, strategy: Strategy)
    requires BoundOk(s) && Steady(s) && CanHappen(s, Fire)
    ensures BoundOk(Happened(s, Fire, strategy)) <==> !SleepsThrough(s)
  {
    var t := Happened(s, Fire, strategy);
    if SleepsThrough(s) {
      var k :| k in s.unseen && k in s.log.failed && k !in s.armed.value.jobs
               && Above(s.log.failed[k].backoffUntil, s.bound) && s.log.failed[k].backoffUntil <= s.armed.value.backoff;
      assert !OfferedSince(t.offered, k, s.log.failed[k].backoffUntil);
    } else {
      forall k | k in t.log.failed && t.log.failed[k].backoffUntil <= t.bound.value
        ensures OfferedSince(t.offered, k, t.log.failed[k].backoffUntil)
      {
        FireOffers(s, strategy, k);
      }
    }
  }

  /** Whatever the delays and however late the stream is, a job is missed exactly through one of these two. */
  lemma StepExact(s: State, e: Event, strategy: Strategy)
    requires BoundOk(s) && Steady(s) && CanHappen(s, e)
    ensures BoundOk(Happened(s, e, strategy)) <==> !Overtakes(s, e, strategy)
  {
    match e
    case Tick(_) =>
    case Operate(op) => OperatedExact(s, op, strategy);
    case Rescan(_) =>
    case Fire => FireExact(s, strategy);
    case Cancel =>
  }

  // ---------------------------------------------------------------------
  // Runs
  // ---------------------------------------------------------------------

  ghost predicate HappensAt(states: seq<State>, events: seq<Event>, strategy: Strategy, i: nat)
    requires i < |events| && |states| == |events| + 1
  {
    CanHappen(states[i], events[i]) && states[i + 1] == Happened(states[i], events[i], strategy)
  }

  /** Any run of a stream, on any log. */
  ghost predicate RetryRun(states: seq<State>, events: seq<Event>, strategy: Strategy) {
    && |states| == |events| + 1
    && states[0].bound.None? && states[0].armed.None? && states[0].offered == {}
    && forall i | 0 <= i < |events| :: HappensAt(states, events, strategy, i)
  }

  lemma {:induction false} RunSteady(states: seq<State>, events: seq<Event>, strategy: Strategy, j: nat)
    requires RetryRun(states, events, strategy) && j <= |events|
    ensures Steady(states[j])
  {
    if j > 0 {
      RunSteady(states, events, strategy, j - 1);
      assert HappensAt(states, events, strategy, j - 1);
      HappenedSteady(states[j - 1], events[j - 1], strategy);
    }
  }

  /** Up to the `j`th state, no job was missed. */
  ghost predicate AllOk(states: seq<State>, j: nat)
    requires j < |states|
  {
    forall i | 0 <= i <= j :: BoundOk(states[i])
  }

  ghost predicate NoneOvertakes(states: seq<State>, events: seq<Event>, strategy: Strategy, j: nat)
    requires j <= |events| && |states| == |events| + 1
  {
    forall i | 0 <= i < j :: !Overtakes(states[i], events[i], strategy)
  }

  lemma StepAtExact(states: seq<State>, events: seq<Event>, strategy: Strategy, i: nat, t: State)
    requires RetryRun(states, events, strategy) && i < |events| && t == states[i + 1] && BoundOk(states[i])
    ensures BoundOk(t) <==> !Overtakes(states[i], events[i], strategy)
  {
    RunSteady(states, events, strategy, i);
    assert HappensAt(states, events, strategy, i);
    StepExact(states[i], events[i], strategy);
  }

  /** In every run, for every strategy: no job is missed up to some time exactly if nothing overtakes one before. */
  lemma {:induction false} RunExact(states: seq<State>, events: seq<Event>, strategy: Strategy, j: nat)
    requires RetryRun(states, events, strategy) && j <= |events|
    ensures AllOk(states, j) <==> NoneOvertakes(states, events, strategy, j)
  {
    if j > 0 {
      RunExact(states, events, strategy, j - 1);
      if BoundOk(states[j - 1]) {
        StepAtExact(states, events, strategy, j - 1, states[j]);
      }
      AllOkStep(states, events, strategy, j);
    }
  }

  lemma AllOkStep(states: seq<State>, events: seq<Event>, strategy: Strategy, j: nat)
    requires 0 < j <= |events| && |states| == |events| + 1
    ensures AllOk(states, j) <==> AllOk(states, j - 1) && BoundOk(states[j])
    ensures NoneOvertakes(states, events, strategy, j) <==>
              NoneOvertakes(states, events, strategy, j - 1) && !Overtakes(states[j - 1], events[j - 1], strategy)
  {
  }

  // ---------------------------------------------------------------------
  // Delays of a second or more
  // ---------------------------------------------------------------------

  /** If the event records a failure, the delay is a second or more. */
  ghost predicate LongDelay(s: State, e: Event, strategy: Strategy) {
    e.Operate? && Reports(s.log, e.op) ==>
      var delay := strategy(FailureCount(s.log, e.op.c));
      delay.Some? ==> delay.value >= SECOND
  }

  /** The stream does not sleep through a failure. */
  ghost predicate Prompt(s: State, e: Event) {
    e.Fire? ==> !SleepsThrough(s)
  }

  ghost predicate Promptly(states: seq<State>, events: seq<Event>, j: nat)
    requires j <= |events| && |states| == |events| + 1
  {
    forall i | 0 <= i < j :: Prompt(states[i], events[i])
  }

  /** With such delays, it is only a stream that is not prompt that misses a job. */
  lemma LongDelayOvertakes(s: State, e: Event, strategy: Strategy)
    requires Steady(s) && CanHappen(s, e) && LongDelay(s, e, strategy)
    ensures Overtakes(s, e, strategy) <==> !Prompt(s, e)
  {
  }

  ghost predicate LongDelaysUntil(states: seq<State>, events: seq<Event>, strategy: Strategy, j: nat)
    requires j <= |events| && |states| == |events| + 1
  {
    forall i | 0 <= i < j :: LongDelay(states[i], events[i], strategy)
  }

  /** In runs in which every delay is a second or more, no job is missed exactly if the stream is prompt. */
  lemma LongRunExact(states: seq<State>, events: seq<Event>, strategy: Strategy, j: nat)
    requires RetryRun(states, events, strategy) && j <= |events| && LongDelaysUntil(states, events, strategy, j)
    ensures AllOk(states, j) <==> Promptly(states, events, j)
  {
    RunExact(states, events, strategy, j);
    forall i | 0 <= i < j ensures Overtakes(states[i], events[i], strategy) <==> !Prompt(states[i], events[i]) {
      RunSteady(states, events, strategy, i);
      assert HappensAt(states, events, strategy, i) && LongDelay(states[i], events[i], strategy);
      LongDelayOvertakes(states[i], events[i], strategy);
    }
  }

  ghost predicate PromptRun(states: seq<State>, events: seq<Event>, strategy: Strategy) {
    RetryRun(states, events, strategy) && Promptly(states, events, |events|)
  }

  /** No delay is shorter than a second. */
  ghost predicate LongDelays(strategy: Strategy) {
    forall n | n >= 1 && strategy(n).Some? :: strategy(n).value >= SECOND
  }

  ghost predicate AlwaysOk(strategy: Strategy) {
    forall states, events | PromptRun(states, events, strategy) :: AllOk(states, |events|)
  }

  /** The run ends with `s`. */
  ghost predicate Reached(s: State, strategy: Strategy, states: seq<State>, events: seq<Event>) {
    RetryRun(states, events, strategy) && states[|events|] == s
  }

  lemma OneMore(s: State, e: Event, strategy: Strategy, states: seq<State>, events: seq<Event>)
    returns (longer: seq<State>, all: seq<Event>)
    requires Reached(s, strategy, states, events) && CanHappen(s, e)
    ensures Reached(Happened(s, e, strategy), strategy, longer, all) && longer[0] == states[0]
    ensures Promptly(states, events, |events|) && Prompt(s, e) ==> Promptly(longer, all, |all|)
  {
    longer, all := states + [Happened(s, e, strategy)], events + [e];
    forall i | 0 <= i < |all| ensures HappensAt(longer, all, strategy, i) {
      if i < |events| {
        assert HappensAt(states, events, strategy, i);
      }
    }
    forall i | 0 <= i < |all|
      ensures Promptly(states, events, |events|) && Prompt(s, e) ==> Prompt(longer[i], all[i])
    {
      assert i < |events| ==> longer[i] == states[i] && all[i] == events[i];
    }
  }

  // ---------------------------------------------------------------------
  // Delays below a second
  // ---------------------------------------------------------------------

  function FailAt(k: nat, now: nat): Event {
    Operate(Failed(k, now))
  }

  /**
   * Jobs 1 and 2 have failed `m` times, the stream has not offered anything yet, and all failures so
   * far have their backoff after `limit`.
   */
  ghost predicate BothFailed(s: State, m: nat, now: nat, limit: nat) {
    && s.clock == now && s.bound.None? && s.armed.None? && s.offered == {}
    && 1 in s.log.log && 2 in s.log.log && FailureCount(s.log, 1) == m + 1 && FailureCount(s.log, 2) == m + 1
    && forall k | k in s.log.failed :: s.log.failed[k].backoffUntil > limit
  }

  /** Job 2 fails once more, and is the only one in the next round. */
  lemma SecondJobFails(s: State, strategy: Strategy, m: nat, now: nat, limit: nat, b: nat) returns (t: State)
    requires BothFailed(s, m, now, limit) && strategy(m + 1).Some?
    requires b == Stored(now + strategy(m + 1).value) && b <= limit && b < TIME_MAX
    ensures CanHappen(s, FailAt(2, now))
    ensures t == Happened(s, FailAt(2, now), strategy) && CanHappen(t, Rescan(Some(Round(b, {2}))))
    ensures t.clock == now && t.bound.None? && t.offered == {}
    ensures 1 in t.log.log && FailureCount(t.log, 1) == m + 1
  {
    var r := Round(b, {2});
    t := Happened(s, FailAt(2, now), strategy);
    assert t.log.failed == s.log.failed[2 := Failure(m + 1, b)];
    assert IsRound(t.log.failed, None, r) by {
      assert 2 in r.jobs;
      forall k ensures k in r.jobs <==> Due(t.log.failed, k, None) && t.log.failed[k].backoffUntil == b {
      }
    }
  }

  /** If the delay is below a second, it is offered again right away. */
  lemma OfferedAtOnce(s: State, strategy: Strategy, now: nat)
    requires s.clock == now && s.bound.None? && s.offered == {} && CanHappen(s, Rescan(Some(Round(now, {2}))))
    ensures var s2 := Happened(s, Rescan(Some(Round(now, {2}))), strategy);
            && CanHappen(s2, Fire) && Prompt(s2, Fire)
            && Happened(s2, Fire, strategy) ==
               s.(bound := Some(now), armed := None, unseen := {}, offered := {Offer(2, now)})
  {
    assert Offers(Round(now, {2})) == {Offer(2, now)};
  }

  /** Then job 1 fails; the time that the table keeps is not above the bound. */
  lemma FirstJobMissed(t: State, strategy: Strategy, n: nat)
    requires t.clock == SECOND && t.bound == Some(SECOND) && BoundOk(t)
    requires 1 in t.log.log && FailureCount(t.log, 1) == n && strategy(n).Some? && strategy(n).value < SECOND
    ensures CanHappen(t, FailAt(1, SECOND)) && !BoundOk(Happened(t, FailAt(1, SECOND), strategy))
  {
    OperatedExact(t, Failed(1, SECOND), strategy);
  }

  lemma ShortDelayMissesJob(s: State, strategy: Strategy, n: nat, states: seq<State>, events: seq<Event>)
    returns (longer: seq<State>, all: seq<Event>)
    requires Reached(s, strategy, states, events) && Promptly(states, events, |events|)
    requires n >= 1 && BothFailed(s, n - 1, SECOND, SECOND) && strategy(n).Some? && strategy(n).value < SECOND
    ensures PromptRun(longer, all, strategy) && longer[0] == states[0] && !BoundOk(longer[|all|])
  {
    var s1 := SecondJobFails(s, strategy, n - 1, SECOND, SECOND, SECOND);
    OfferedAtOnce(s1, strategy, SECOND);
    var r := Rescan(Some(Round(SECOND, {2})));
    var s2 := Happened(s1, r, strategy);
    var t := Happened(s2, Fire, strategy);
    longer, all := OneMore(s, FailAt(2, SECOND), strategy, states, events);
    longer, all := OneMore(s1, r, strategy, longer, all);
    longer, all := OneMore(s2, Fire, strategy, longer, all);
    if BoundOk(t) {
      FirstJobMissed(t, strategy, n);
      longer, all := OneMore(t, FailAt(1, SECOND), strategy, longer, all);
    }
  }

  const TWO_PATHS: Log := Log(map["a" := 1, "b" := 2], map[1 := "a", 2 := "b"], 2, map[])

  /** Two jobs that have failed `m` times before. */
  function FailedBefore(m: nat): State {
    var f := Failure(m, 2 * SECOND);
    State(if m == 0 then TWO_PATHS else TWO_PATHS.(failed := map[1 := f, 2 := f]), SECOND, None, None, {}, {})
  }

  /** No prompt run misses a job exactly for the strategies whose delays are a second or more. */
  lemma RetryIsExact(strategy: Strategy)
    ensures AlwaysOk(strategy) <==> LongDelays(strategy)
  {
    if LongDelays(strategy) {
      forall states, events | PromptRun(states, events, strategy) ensures AllOk(states, |events|) {
        assert LongDelaysUntil(states, events, strategy, |events|);
        LongRunExact(states, events, strategy, |events|);
      }
    } else {
      var n :| n >= 1 && strategy(n).Some? && strategy(n).value < SECOND;
      var s := FailedBefore(n - 1);
      assert Reached(s, strategy, [s], []);
      var states, events := ShortDelayMissesJob(s, strategy, n, [s], []);
      assert !AllOk(states, |events|);
    }
  }

  // ---------------------------------------------------------------------
  // Starting with an empty log
  // ---------------------------------------------------------------------

  const START: State := State(EMPTY, 0, None, None, {}, {})

  /** A job can come to its `n`th failure only if the strategy does not give up before. */
  ghost predicate Met(strategy: Strategy, n: nat) {
    n >= 1 && forall m | 1 <= m <= n :: strategy(m).Some?
  }

  /** No delay that a job can meet is shorter than a second. */
  ghost predicate LongWhenMet(strategy: Strategy) {
    forall n | Met(strategy, n) :: strategy(n).value >= SECOND
  }

  ghost predicate AlwaysOkFromEmpty(strategy: Strategy) {
    forall states, events | PromptRun(states, events, strategy) && states[0] == START :: AllOk(states, |events|)
  }

  ghost predicate CountsMet(l: Log, strategy: Strategy) {
    forall k | k in l.failed :: Met(strategy, l.failed[k].count)
  }

  lemma HappenedMet(s: State, e: Event, strategy: Strategy)
    requires CountsMet(s.log, strategy) && CanHappen(s, e)
    ensures CountsMet(Happened(s, e, strategy).log, strategy)
    ensures LongWhenMet(strategy) ==> LongDelay(s, e, strategy)
  {
    if e.Operate? {
      forall k | k in Happened(s, e, strategy).log.failed
        ensures Met(strategy, Happened(s, e, strategy).log.failed[k].count)
      {
        OnlyFailedAdds(s.log, e.op, strategy, k);
      }
      if Reports(s.log, e.op) && strategy(FailureCount(s.log, e.op.c)).Some? {
        assert Met(strategy, FailureCount(s.log, e.op.c));
      }
    }
  }

  lemma {:induction false} EmptyRunMet(states: seq<State>, events: seq<Event>, strategy: Strategy, j: nat)
    requires RetryRun(states, events, strategy) && states[0] == START && j <= |events|
    ensures CountsMet(states[j].log, strategy)
    ensures LongWhenMet(strategy) ==> LongDelaysUntil(states, events, strategy, j)
  {
    if j > 0 {
      EmptyRunMet(states, events, strategy, j - 1);
      assert HappensAt(states, events, strategy, j - 1);
      HappenedMet(states[j - 1], events[j - 1], strategy);
    }
  }

  /** The paths of both jobs are marked, and the clock comes to `now`. */
  lemma TwoMarked(strategy: Strategy, now: nat) returns (states: seq<State>, events: seq<Event>)
    ensures Reached(START.(log := TWO_PATHS, clock := now), strategy, states, events)
    ensures Promptly(states, events, |events|) && states[0] == START
  {
    states, events := [START], [];
    var s1 := Happened(START, Operate(Mark("a")), strategy);
    var s2 := Happened(s1, Operate(Mark("b")), strategy);
    states, events := OneMore(START, Operate(Mark("a")), strategy, states, events);
    states, events := OneMore(s1, Operate(Mark("b")), strategy, states, events);
    states, events := OneMore(s2, Tick(now), strategy, states, events);
    assert s2.log == TWO_PATHS;
  }

  lemma BothFailAgain(s: State, strategy: Strategy, m: nat, now: nat, limit: nat)
    requires BothFailed(s, m, now, limit) && strategy(m + 1).Some? && Stored(now + strategy(m + 1).value) > limit
    ensures CanHappen(s, FailAt(1, now)) && CanHappen(Happened(s, FailAt(1, now), strategy), FailAt(2, now))
    ensures BothFailed(Happened(Happened(s, FailAt(1, now), strategy), FailAt(2, now), strategy), m + 1, now, limit)
  {
    var t := Happened(s, FailAt(1, now), strategy);
    var b := Stored(now + strategy(m + 1).value);
    assert t.log == s.log.(failed := s.log.failed[1 := Failure(m + 1, b)]) && t.offered == {};
    var u := Happened(t, FailAt(2, now), strategy);
    assert u.log == t.log.(failed := t.log.failed[2 := Failure(m + 1, b)]) && u.offered == {};
  }

  lemma {:induction false} FailTimes(strategy: Strategy, m: nat, now: nat, limit: nat)
    returns (s: State, states: seq<State>, events: seq<Event>)
    requires forall i | 1 <= i <= m :: strategy(i).Some? && Stored(now + strategy(i).value) > limit
    ensures BothFailed(s, m, now, limit) && Reached(s, strategy, states, events)
    ensures Promptly(states, events, |events|) && states[0] == START
  {
    if m == 0 {
      states, events := TwoMarked(strategy, now);
      s := START.(log := TWO_PATHS, clock := now);
    } else {
      s, states, events := FailTimes(strategy, m - 1, now, limit);
      BothFailAgain(s, strategy, m - 1, now, limit);
      var t := Happened(s, FailAt(1, now), strategy);
      states, events := OneMore(s, FailAt(1, now), strategy, states, events);
      states, events := OneMore(t, FailAt(2, now), strategy, states, events);
      s := Happened(t, FailAt(2, now), strategy);
    }
  }

  /** The first number of failures whose backoff, from `now` on, is not after the limit. */
  lemma {:induction false} FirstWithin(strategy: Strategy, n: nat, now: nat, limit: nat) returns (m: nat)
    requires Met(strategy, n) && Stored(now + strategy(n).value) <= limit
    ensures Met(strategy, m) && Stored(now + strategy(m).value) <= limit
    ensures forall i | 1 <= i < m :: strategy(i).Some? && Stored(now + strategy(i).value) > limit
  {
    if i :| 1 <= i < n && Stored(now + strategy(i).value) <= limit {
      m := FirstWithin(strategy, i, now, limit);
    } else {
      m := n;
    }
  }

  lemma ShortIsWithin(delay: nat)
    ensures delay < SECOND <==> Stored(SECOND + delay) <= SECOND
  {
  }

  /** From an empty log it is exactly the delays that a job can meet that have to be a second or more. */
  lemma EmptyRetryIsExact(strategy: Strategy)
    ensures AlwaysOkFromEmpty(strategy) <==> LongWhenMet(strategy)
  {
    if LongWhenMet(strategy) {
      forall states, events | PromptRun(states, events, strategy) && states[0] == START
        ensures AllOk(states, |events|)
      {
        EmptyRunMet(states, events, strategy, |events|);
        LongRunExact(states, events, strategy, |events|);
      }
    } else {
      var k :| Met(strategy, k) && strategy(k).value < SECOND;
      ShortIsWithin(strategy(k).value);
      var n := FirstWithin(strategy, k, SECOND, SECOND);
      ShortIsWithin(strategy(n).value);
      var s, states, events := FailTimes(strategy, n - 1, SECOND, SECOND);
      states, events := ShortDelayMissesJob(s, strategy, n, states, events);
      assert !AllOk(states, |events|);
    }
  }

  // ---------------------------------------------------------------------
  // Sleeping through a failure
  // ---------------------------------------------------------------------

  /** No retry that a job can meet ever comes due. */
  ghost predicate NeverDue(strategy: Strategy) {
    forall n | Met(strategy, n) :: Stored(strategy(n).value) >= TIME_MAX
  }

  ghost predicate LateOkFromEmpty(strategy: Strategy) {
    forall states, events | RetryRun(states, events, strategy) && states[0] == START :: AllOk(states, |events|)
  }

  ghost predicate Dormant(s: State, strategy: Strategy) {
    && s.bound.None? && s.armed.None? && CountsMet(s.log, strategy)
    && forall k | k in s.log.failed :: s.log.failed[k].backoffUntil >= TIME_MAX
  }

  lemma StoredGrows(a: nat, b: nat)
    requires a <= b
    ensures Stored(a) <= Stored(b)
  {
  }

  lemma NotARound(failed: Failures, bound: Option<nat>, r: Round)
    requires NoRound(failed, bound)
    ensures !IsRound(failed, bound, r)
  {
    if r.jobs != {} {
      var k :| k in r.jobs;
      assert !Due(failed, k, bound);
    }
  }

  lemma NewBackoff(l: Log, op: Op, strategy: Strategy)
    requires Reports(l, op) && op.c in Apply(l, op, strategy).failed
    ensures strategy(FailureCount(l, op.c)).Some? ==>
              Apply(l, op, strategy).failed[op.c].backoffUntil ==
              Stored(op.now + strategy(FailureCount(l, op.c)).value)
  {
  }

  lemma OldBackoff(l: Log, op: Op, strategy: Strategy, k: nat)
    requires Enabled(l, op) && k in Apply(l, op, strategy).failed && !(Reports(l, op) && op.c == k)
    ensures k in l.failed && Apply(l, op, strategy).failed[k] == l.failed[k]
  {
  }

  lemma OperatedDormant(l: Log, op: Op, strategy: Strategy, k: nat)
    requires Enabled(l, op) && CountsMet(l, strategy) && NeverDue(strategy) && k in Apply(l, op, strategy).failed
    requires forall j | j in l.failed :: l.failed[j].backoffUntil >= TIME_MAX
    requires CountsMet(Apply(l, op, strategy), strategy)
    ensures Apply(l, op, strategy).failed[k].backoffUntil >= TIME_MAX
  {
    if Reports(l, op) && op.c == k {
      OnlyFailedAdds(l, op, strategy, k);
      assert Met(strategy, FailureCount(l, k));
      StoredGrows(strategy(FailureCount(l, k)).value, op.now + strategy(FailureCount(l, k)).value);
      NewBackoff(l, op, strategy);
    } else {
      OldBackoff(l, op, strategy, k);
    }
  }

  lemma HappenedDormant(s: State, e: Event, strategy: Strategy)
    requires Dormant(s, strategy) && NeverDue(strategy) && CanHappen(s, e)
    ensures Dormant(Happened(s, e, strategy), strategy)
  {
    HappenedMet(s, e, strategy);
    if e.Operate? {
      forall k | k in Apply(s.log, e.op, strategy).failed
        ensures Apply(s.log, e.op, strategy).failed[k].backoffUntil >= TIME_MAX
      {
        OperatedDormant(s.log, e.op, strategy, k);
      }
    } else if e.Rescan? && e.found.Some? {
      NotARound(s.log.failed, s.bound, e.found.value);
    }
  }

  lemma {:induction false} RunDormant(states: seq<State>, events: seq<Event>, strategy: Strategy, j: nat)
    requires RetryRun(states, events, strategy) && states[0] == START && NeverDue(strategy) && j <= |events|
    ensures Dormant(states[j], strategy)
  {
    if j > 0 {
      RunDormant(states, events, strategy, j - 1);
      assert HappensAt(states, events, strategy, j - 1);
      HappenedDormant(states[j - 1], events[j - 1], strategy);
    }
  }

  /** Job 1 fails at the same time as job 2, but after the scan, and the stream wakes up for job 2. */
  lemma SleptThrough(s: State, strategy: Strategy, n: nat, b: nat) returns (t: State)
    requires n >= 1 && strategy(n).Some? && b == Stored(strategy(n).value) && b < TIME_MAX && s.clock == 0
    requires s.bound.None? && s.offered == {} && 1 in s.log.log && FailureCount(s.log, 1) == n
    requires s.armed == Some(Round(b, {2}))
    ensures CanHappen(s, FailAt(1, 0))
    ensures var u := Happened(s, FailAt(1, 0), strategy);
            && CanHappen(u, Tick(b)) && t == Happened(u, Tick(b), strategy)
            && CanHappen(t, Fire) && !BoundOk(Happened(t, Fire, strategy))
  {
    var u := Happened(s, FailAt(1, 0), strategy);
    t := Happened(u, Tick(b), strategy);
    assert t.log.failed[1] == Failure(n, b);
    assert !OfferedSince(Happened(t, Fire, strategy).offered, 1, b);
  }

  /** A run from an empty log in which a stream misses a job, for every strategy that lets any job be retried. */
  lemma LateStreamMissesJob(strategy: Strategy, k: nat) returns (states: seq<State>, events: seq<Event>)
    requires Met(strategy, k) && Stored(strategy(k).value) < TIME_MAX
    ensures RetryRun(states, events, strategy) && states[0] == START && !BoundOk(states[|events|])
  {
    var n := FirstWithin(strategy, k, 0, TIME_MAX - 1);
    var s;
    s, states, events := FailTimes(strategy, n - 1, 0, TIME_MAX - 1);
    var b := Stored(strategy(n).value);
    var r := Rescan(Some(Round(b, {2})));
    var s1 := SecondJobFails(s, strategy, n - 1, 0, TIME_MAX - 1, b);
    var s2 := Happened(s1, r, strategy);
    var t := SleptThrough(s2, strategy, n, b);
    states, events := OneMore(s, FailAt(2, 0), strategy, states, events);
    states, events := OneMore(s1, r, strategy, states, events);
    states, events := OneMore(s2, FailAt(1, 0), strategy, states, events);
    states, events := OneMore(Happened(s2, FailAt(1, 0), strategy), Tick(b), strategy, states, events);
    states, events := OneMore(t, Fire, strategy, states, events);
  }

  /** If streams may sleep through failures, only strategies that never let a job be retried miss none. */
  lemma LateIsExact(strategy: Strategy)
    ensures LateOkFromEmpty(strategy) <==> NeverDue(strategy)
  {
    if NeverDue(strategy) {
      forall states, events | RetryRun(states, events, strategy) && states[0] == START ensures AllOk(states, |events|) {
        forall i | 0 <= i <= |events| ensures BoundOk(states[i]) {
          RunDormant(states, events, strategy, i);
        }
      }
    } else {
      var k :| Met(strategy, k) && Stored(strategy(k).value) < TIME_MAX;
      var states, events := LateStreamMissesJob(strategy, k);
      assert !AllOk(states, |events|);
    }
  }

  // ---------------------------------------------------------------------
  // No offer twice
  // ---------------------------------------------------------------------

  lemma {:induction false} BoundGrows(states: seq<State>, events: seq<Event>, strategy: Strategy, i: nat, j: nat)
    requires RetryRun(states, events, strategy) && i <= j <= |events| && states[i].bound.Some?
    ensures states[j].bound.Some? && states[i].bound.value <= states[j].bound.value
    decreases j
  {
    if i < j {
      BoundGrows(states, events, strategy, i, j - 1);
      RunSteady(states, events, strategy, j - 1);
      assert HappensAt(states, events, strategy, j - 1);
    }
  }

  /** No stream offers the same job twice at the same backoff, whatever the delays. */
  lemma NeverOfferedTwice(states: seq<State>, events: seq<Event>, strategy: Strategy, i: nat, j: nat)
    requires RetryRun(states, events, strategy) && i < j < |events|
    requires events[i].Fire? && events[j].Fire? && states[i].armed.Some? && states[j].armed.Some?
    ensures Offers(states[i].armed.value) !! Offers(states[j].armed.value)
  {
    assert HappensAt(states, events, strategy, i);
    BoundGrows(states, events, strategy, i + 1, j);
    RunSteady(states, events, strategy, j);
  }
}
