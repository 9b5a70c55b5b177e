/** Many callers share one connection, and one of them replaces it when it breaks. */
module Reconnect {
  import opened Common

  const MAX_RETRY_COUNT: nat := 10

  type Caller = nat

  /** The number of connections made so far counts the first one. */
  datatype Reconnectable =
    | Connected(count: nat, confirmed: bool)
    | GiveUp

  /** What a call on the connection comes to. */
  datatype Response = Success | Shutdown | Send | Channel | DeadlineExceeded | Server

  // ---------------------------------------------------------------------
  // Trying again
  // ---------------------------------------------------------------------

  /** Whether the same connection is tried again, and how often it was by then. */
  function ShouldRetry(resp: Response, timeLeft: bool, retries: nat): (bool, nat) {
    if resp == DeadlineExceeded && timeLeft then (retries + 1 <= MAX_RETRY_COUNT, retries + 1) else (false, retries)
  }

  predicate ShouldReconnect(resp: Response) {
    resp == Shutdown || resp == Channel
  }

  /** How long to wait, how long connecting takes then, and whether it works. */
  datatype Attempt = Attempt(duration: nat, took: nat, works: bool)

  /** The attempts that the strategy allows, which may go on forever. */
  type Attempts = nat -> Option<Attempt>

  datatype Outcome = Replaced(state: Reconnectable) | OutOfTime

  /** The time when attempt `i` starts to wait. */
  function ClockAt(attempts: Attempts, now: nat, i: nat): nat {
    if i == 0 then now
    else
      match attempts(i - 1)
      case None => ClockAt(attempts, now, i - 1)
      case Some(a) => ClockAt(attempts, now, i - 1) + a.duration + a.took
  }

  /** The attempt would only begin after the deadline. */
  predicate TooLate(attempts: Attempts, now: nat, deadline: nat, i: nat) {
    attempts(i).Some? && ClockAt(attempts, now, i) + attempts(i).value.duration >= deadline
  }

  predicate FailsInTime(attempts: Attempts, now: nat, deadline: nat, i: nat) {
    attempts(i).Some? && !TooLate(attempts, now, deadline, i) && !attempts(i).value.works
  }

  /** Neither connected, nor out of time, nor given up so far. */
  ghost predicate StillTrying(attempts: Attempts, now: nat, deadline: nat, i: nat) {
    forall j | 0 <= j < i :: FailsInTime(attempts, now, deadline, j)
  }

  /** The first attempt that does not fail in time would begin too late. */
  ghost predicate LateAt(attempts: Attempts, now: nat, deadline: nat, i: nat) {
    StillTrying(attempts, now, deadline, i) && TooLate(attempts, now, deadline, i)
  }

  /** The first attempt that does not fail in time works. */
  ghost predicate ConnectsAt(attempts: Attempts, now: nat, deadline: nat, i: nat) {
    && StillTrying(attempts, now, deadline, i)
    && attempts(i).Some? && !TooLate(attempts, now, deadline, i) && attempts(i).value.works
  }

  /** All attempts fail in time, and there are no more. */
  ghost predicate GivesUpAt(attempts: Attempts, now: nat, deadline: nat, i: nat) {
    StillTrying(attempts, now, deadline, i) && attempts(i).None?
  }

  /** The outcome belongs to the first attempt that does not fail in time. */
  ghost predicate OutcomeAt(attempts: Attempts, now: nat, deadline: nat, count: nat, i: nat, r: Outcome) {
    || (LateAt(attempts, now, deadline, i) && r == OutOfTime)
    || (ConnectsAt(attempts, now, deadline, i) && r == Replaced(Connected(count + 1, true)))
    || (GivesUpAt(attempts, now, deadline, i) && r == Replaced(GiveUp))
  }

  /** There is only one. */
  lemma OutcomeUnique(attempts: Attempts, now: nat, deadline: nat, count: nat, i: nat, r: Outcome, j: nat, q: Outcome)
    requires OutcomeAt(attempts, now, deadline, count, i, r) && OutcomeAt(attempts, now, deadline, count, j, q)
    ensures i == j && r == q
  {
    assert !FailsInTime(attempts, now, deadline, i) && !FailsInTime(attempts, now, deadline, j);
  }

  /**
   * Waits and tries, as the strategy says, until one attempt works, time is up, or the strategy is.
   * That comes to an end if `end` is an attempt that does not fail in time.
   */
  method TryReconnect(attempts: Attempts, now: nat, deadline: nat, count: nat, ghost end: nat) returns (r: Outcome)
    requires !FailsInTime(attempts, now, deadline, end)
    ensures exists i | 0 <= i <= end :: OutcomeAt(attempts, now, deadline, count, i, r)
  {
    var clock, i := now, 0;
    while true
      invariant clock == ClockAt(attempts, now, i) && StillTrying(attempts, now, deadline, i) && i <= end
      decreases end - i
    {
      var attempt := attempts(i);
      if attempt.None? {
        assert OutcomeAt(attempts, now, deadline, count, i, Replaced(GiveUp));
        return Replaced(GiveUp);
      }
      if clock + attempt.value.duration >= deadline {
        assert OutcomeAt(attempts, now, deadline, count, i, OutOfTime);
        return OutOfTime;
      }
      clock := clock + attempt.value.duration + attempt.value.took;
      if attempt.value.works {
        assert OutcomeAt(attempts, now, deadline, count, i, Replaced(Connected(count + 1, true)));
        return Replaced(Connected(count + 1, true));
      }
      i := i + 1;
    }
  }

  lemma {:induction false} ClockGoesOn(attempts: Attempts, now: nat, deadline: nat, i: nat)
    requires StillTrying(attempts, now, deadline, i)
    requires forall j | 0 <= j < i && attempts(j).Some? :: attempts(j).value.duration >= 1
    ensures ClockAt(attempts, now, i) >= now + i
  {
    if i > 0 {
      ClockGoesOn(attempts, now, deadline, i - 1);
      assert FailsInTime(attempts, now, deadline, i - 1);
    }
  }

  /** There always is such an attempt if the strategy waits before each: time runs out even if it never ends. */
  lemma AlwaysEnds(attempts: Attempts, now: nat, deadline: nat) returns (end: nat)
    requires forall i: nat | attempts(i).Some? :: attempts(i).value.duration >= 1
    ensures !FailsInTime(attempts, now, deadline, end)
  {
    if StillTrying(attempts, now, deadline, deadline) {
      ClockGoesOn(attempts, now, deadline, deadline);
      end := deadline;
    } else {
      end :| 0 <= end < deadline && !FailsInTime(attempts, now, deadline, end);
    }
  }

  // ---------------------------------------------------------------------
  // The callers
  // ---------------------------------------------------------------------

  /** Where a caller is. `Calling` holds a read lock, `Reconnecting` the write lock. */
  datatype At =
    | Begin(retries: nat)
    | Calling(count: nat, confirmed: bool, retries: nat)
    | WantsToConfirm
    | WantsToReconnect(count: nat)
    | Reconnecting(count: nat)
    | Returned(resp: Response)

  /** `replaced` lists the counts of the connections that were replaced, by another or by giving up. */
  datatype State = State(shared: Reconnectable, callers: map<Caller, At>, replaced: seq<nat>, successes: nat)

  datatype Step =
    | Enter(c: Caller)
    | TakeReadLock(c: Caller)
    | Respond(c: Caller, resp: Response, timeLeft: bool)
    | Confirm(c: Caller)
    | TakeWriteLock(c: Caller)
    | Finish(c: Caller, outcome: Outcome)

  ghost predicate ReadLocked(s: State) {
    exists c | c in s.callers :: s.callers[c].Calling?
  }

  ghost predicate WriteLocked(s: State) {
    exists c | c in s.callers :: s.callers[c].Reconnecting?
  }

  ghost predicate Can(s: State, step: Step) {
    match step
    case Enter(c) => c !in s.callers || s.callers[c].Returned?
    case TakeReadLock(c) => c in s.callers && s.callers[c].Begin? && !WriteLocked(s)
    case Respond(c, _, _) => c in s.callers && s.callers[c].Calling?
    case Confirm(c) => c in s.callers && s.callers[c].WantsToConfirm? && !ReadLocked(s) && !WriteLocked(s)
    case TakeWriteLock(c) => c in s.callers && s.callers[c].WantsToReconnect? && !ReadLocked(s) && !WriteLocked(s)
    case Finish(c, outcome) =>
      && c in s.callers && s.callers[c].Reconnecting?
      && (outcome.Replaced? ==> outcome.state == GiveUp || outcome.state == Connected(s.callers[c].count + 1, true))
  }

  /** Where a caller goes once the call has come back. */
  function AfterResponse(at: At, resp: Response, timeLeft: bool): At
    requires at.Calling?
  {
    var (again, retries) := ShouldRetry(resp, timeLeft, at.retries);
    if again then Begin(retries)
    else if !at.confirmed then (if resp == Success then WantsToConfirm else Returned(resp))
    else if ShouldReconnect(resp) then WantsToReconnect(at.count)
    else Returned(resp)
  }

  function Moved(s: State, c: Caller, at: At): State {
    s.(callers := s.callers[c := at])
  }

  ghost function Next(s: State, step: Step): State
    requires Can(s, step)
  {
    match step
    case Enter(c) => Moved(s, c, Begin(0))
    case TakeReadLock(c) =>
      (match s.shared
       case GiveUp => Moved(s, c, Returned(Shutdown))
       case Connected(count, confirmed) => Moved(s, c, Calling(count, confirmed, s.callers[c].retries)))
    case Respond(c, resp, timeLeft) => Moved(s, c, AfterResponse(s.callers[c], resp, timeLeft))
    case Confirm(c) =>
      var t := Moved(s, c, Returned(Success));
      if s.shared.Connected? then t.(shared := s.shared.(confirmed := true)) else t
    case TakeWriteLock(c) =>
      var count := s.callers[c].count;
      if s.shared.Connected? && s.shared.count == count then Moved(s, c, Reconnecting(count)) else Moved(s, c, Begin(0))
    case Finish(c, outcome) =>
      (match outcome
       case OutOfTime => Moved(s, c, Returned(DeadlineExceeded))
       case Replaced(state) =>
         State(state, s.callers[c := Begin(0)], s.replaced + [s.callers[c].count],
               if state.Connected? then s.successes + 1 else s.successes))
  }

  // ---------------------------------------------------------------------
  // What every step keeps
  // ---------------------------------------------------------------------

  /** What a caller knows about the connection it saw. */
  ghost predicate Knows(shared: Reconnectable, at: At) {
    match at
    case Calling(count, confirmed, _) =>
      // While the read lock is held, nobody replaces or confirms the connection.
      shared == Connected(count, confirmed)
    case WantsToReconnect(count) =>
      shared.Connected? ==> count <= shared.count && (shared.count == count ==> shared.confirmed)
    case Reconnecting(count) => shared == Connected(count, true)
    case _ => true
  }

  ghost predicate Exclusive(callers: map<Caller, At>) {
    forall c, d | c in callers && d in callers && callers[c].Reconnecting? && c != d ::
      !callers[d].Calling? && !callers[d].Reconnecting?
  }

  /** The connections before the current one, in order, each once. */
  ghost predicate InOrder(s: State) {
    && (forall i | 0 <= i < |s.replaced| :: s.replaced[i] == i + 1)
    && (s.shared.Connected? ==> s.shared.count == |s.replaced| + 1 && s.successes == |s.replaced|)
    && (s.shared.GiveUp? ==> s.successes + 1 == |s.replaced|)
  }

  ghost predicate Inv(s: State) {
    && Exclusive(s.callers) && InOrder(s)
    && forall c | c in s.callers :: Knows(s.shared, s.callers[c])
  }

  predicate Initial(s: State) {
    s == State(Connected(1, false), map[], [], 0)
  }

  /** A confirmed connection stays so until it is given up, and giving up is for good. */
  ghost predicate Forward(a: Reconnectable, b: Reconnectable) {
    && (a.GiveUp? ==> b.GiveUp?)
    && (a.Connected? && b.Connected? ==> a.count <= b.count <= a.count + 1 && (a.confirmed ==> b.confirmed))
  }

  lemma FinishKeeps(s: State, c: Caller, outcome: Outcome)
    requires Inv(s) && Can(s, Finish(c, outcome))
    ensures Inv(Next(s, Finish(c, outcome))) && Forward(s.shared, Next(s, Finish(c, outcome)).shared)
    ensures s.shared.Connected? && s.shared.confirmed
  {
    var t := Next(s, Finish(c, outcome));
    assert Knows(s.shared, s.callers[c]);
    forall d | d in t.callers ensures Knows(t.shared, t.callers[d]) {
      if d != c {
        assert Knows(s.shared, s.callers[d]);
        assert !s.callers[d].Calling? && !s.callers[d].Reconnecting?;
      }
    }
  }

  lemma NextKeeps(s: State, step: Step)
    requires Inv(s) && Can(s, step)
    ensures Inv(Next(s, step)) && Forward(s.shared, Next(s, step).shared)
  {
    match step
    case Enter(_) =>
    case TakeReadLock(_) =>
    case Respond(c, _, _) => assert Knows(s.shared, s.callers[c]);
    case Confirm(_) =>
    case TakeWriteLock(c) => assert Knows(s.shared, s.callers[c]);
    case Finish(c, outcome) => FinishKeeps(s, c, outcome);
  }

  // ---------------------------------------------------------------------
  // Runs
  // ---------------------------------------------------------------------

  ghost predicate StepAt(states: seq<State>, steps: seq<Step>, i: nat)
    requires i < |steps| && |states| == |steps| + 1
  {
    Can(states[i], steps[i]) && states[i + 1] == Next(states[i], steps[i])
  }

  ghost predicate Run(states: seq<State>, steps: seq<Step>) {
    && |states| == |steps| + 1 && Initial(states[0])
    && forall i | 0 <= i < |steps| :: StepAt(states, steps, i)
  }

  lemma {:induction false} RunKeeps(states: seq<State>, steps: seq<Step>, j: nat)
    requires Run(states, steps) && j <= |steps|
    ensures Inv(states[j])
  {
    if j > 0 {
      RunKeeps(states, steps, j - 1);
      assert StepAt(states, steps, j - 1);
      NextKeeps(states[j - 1], steps[j - 1]);
    }
  }

  /** However many callers there are, no connection is replaced twice, and the count is one more than the successes. */
  lemma ReplacedOnce(states: seq<State>, steps: seq<Step>, j: nat)
    requires Run(states, steps) && j <= |steps|
    ensures forall k, l | 0 <= k < l < |states[j].replaced| :: states[j].replaced[k] != states[j].replaced[l]
    ensures states[j].shared.Connected? ==> states[j].shared.count == 1 + states[j].successes
  {
    RunKeeps(states, steps, j);
  }

  /** Whenever a connection is replaced, it is the current one, confirmed, and nobody is using it. */
  lemma OnlyConfirmedReplaced(states: seq<State>, steps: seq<Step>, i: nat)
    requires Run(states, steps) && i < |steps| && states[i + 1].replaced != states[i].replaced
    ensures states[i].shared.Connected? && states[i].shared.confirmed && !ReadLocked(states[i])
    ensures states[i + 1].replaced == states[i].replaced + [states[i].shared.count]
  {
    RunKeeps(states, steps, i);
    assert StepAt(states, steps, i);
    var c := steps[i].c;
    assert Knows(states[i].shared, states[i].callers[c]);
  }

  lemma ForwardTransitive(a: Reconnectable, b: Reconnectable, c: Reconnectable)
    requires Later(a, b) && Forward(b, c)
    ensures Later(a, c)
  {
  }

  /** Over any number of steps: given up stays given up, and confirmed stays confirmed. */
  ghost predicate Later(a: Reconnectable, b: Reconnectable) {
    && (a.GiveUp? ==> b.GiveUp?)
    && (a.Connected? && b.Connected? ==> a.count <= b.count && (a.confirmed ==> b.confirmed))
  }

  lemma {:induction false} RunForward(states: seq<State>, steps: seq<Step>, i: nat, j: nat)
    requires Run(states, steps) && i <= j <= |steps|
    ensures Later(states[i].shared, states[j].shared)
    decreases j
  {
    if i < j {
      RunForward(states, steps, i, j - 1);
      RunKeeps(states, steps, j - 1);
      assert StepAt(states, steps, j - 1);
      NextKeeps(states[j - 1], steps[j - 1]);
      ForwardTransitive(states[i].shared, states[j - 1].shared, states[j].shared);
    }
  }

  /** A caller tries a connection that answers too late no more than eleven times in a row. */
  ghost predicate FewRetries(s: State) {
    forall c | c in s.callers ::
      && (s.callers[c].Begin? ==> s.callers[c].retries <= MAX_RETRY_COUNT)
      && (s.callers[c].Calling? ==> s.callers[c].retries <= MAX_RETRY_COUNT)
  }

  lemma {:induction false} RunFewRetries(states: seq<State>, steps: seq<Step>, j: nat)
    requires Run(states, steps) && j <= |steps|
    ensures FewRetries(states[j])
  {
    if j > 0 {
      RunFewRetries(states, steps, j - 1);
      assert StepAt(states, steps, j - 1);
    }
  }

  /** Callers call on the connection there is, and return an error exactly if it was given up. */
  lemma CallsExactly(states: seq<State>, steps: seq<Step>, i: nat, c: Caller)
    requires Run(states, steps) && i < |steps| && steps[i] == TakeReadLock(c)
    ensures c in states[i + 1].callers && states[i + 1].shared == states[i].shared
    ensures states[i].shared.GiveUp? ==> states[i + 1].callers[c] == Returned(Shutdown)
    ensures states[i].shared.Connected? ==>
              states[i + 1].callers[c].Calling? && Knows(states[i].shared, states[i + 1].callers[c])
  {
    RunKeeps(states, steps, i + 1);
    assert StepAt(states, steps, i);
  }

  // ---------------------------------------------------------------------
  // Why connections are replaced
  // ---------------------------------------------------------------------

  /** The connection is gone: the request was not served and none will be. */
  predicate Dead(resp: Response) {
    match resp
    case Shutdown => true
    case Channel => true
    case _ => false
  }

  lemma RunAt(states: seq<State>, steps: seq<Step>, i: nat, next: State)
    requires Run(states, steps) && i < |steps| && next == states[i + 1]
    ensures Inv(states[i]) && Can(states[i], steps[i]) && next == Next(states[i], steps[i])
  {
    RunKeeps(states, steps, i);
    assert StepAt(states, steps, i);
  }

  /** At step `k`, the caller's call comes back with `resp`, on connection `count`. */
  ghost predicate RespondsAt(states: seq<State>, steps: seq<Step>, k: nat, c: Caller, resp: Response, count: nat,
                             confirmed: bool)
    requires k < |steps| && |states| == |steps| + 1
  {
    && steps[k].Respond? && steps[k].c == c && steps[k].resp == resp
    && c in states[k].callers && states[k].callers[c].Calling?
    && states[k].callers[c].count == count && states[k].callers[c].confirmed == confirmed
  }

  /** At step `k`, the caller finds the confirmed connection `count` dead. */
  ghost predicate DiesAt(states: seq<State>, steps: seq<Step>, k: nat, c: Caller, count: nat)
    requires k < |steps| && |states| == |steps| + 1
  {
    && states[k].shared == Connected(count, true)
    && exists resp | Dead(resp) :: RespondsAt(states, steps, k, c, resp, count, true)
  }

  /** Between `k` and `j`, the caller does nothing but ask for the write lock. */
  ghost predicate OnlyWaits(steps: seq<Step>, k: nat, j: nat, c: Caller)
    requires j <= |steps|
  {
    forall m | k < m < j && steps[m].c == c :: steps[m].TakeWriteLock?
  }

  ghost predicate AboutToReplace(s: State, c: Caller, count: nat) {
    c in s.callers && (s.callers[c] == WantsToReconnect(count) || s.callers[c] == Reconnecting(count))
  }

  lemma BecomesWanting(s: State, step: Step, c: Caller, count: nat)
    requires Inv(s) && Can(s, step) && AboutToReplace(Next(s, step), c, count) && !AboutToReplace(s, c, count)
    ensures step.Respond? && step.c == c && Dead(step.resp) && s.callers[c].Calling?
    ensures s.callers[c].count == count && s.callers[c].confirmed && s.shared == Connected(count, true)
  {
    if step.c in s.callers {
      assert Knows(s.shared, s.callers[step.c]);
    }
  }

  lemma StaysWanting(s: State, step: Step, c: Caller, count: nat)
    requires Can(s, step) && AboutToReplace(s, c, count) && AboutToReplace(Next(s, step), c, count)
    ensures step.c == c ==> step.TakeWriteLock?
  {
  }

  /** A caller that is about to replace a connection found it dead, confirmed as it was, and only waited since. */
  lemma {:induction false} WhyReplace(states: seq<State>, steps: seq<Step>, j: nat, c: Caller, count: nat)
    returns (k: nat)
    requires Run(states, steps) && j <= |steps| && AboutToReplace(states[j], c, count)
    ensures k < j && DiesAt(states, steps, k, c, count) && OnlyWaits(steps, k, j, c)
  {
    if j == 0 {
      assert false;
    }
    RunAt(states, steps, j - 1, states[j]);
    if AboutToReplace(states[j - 1], c, count) {
      k := WhyReplace(states, steps, j - 1, c, count);
      StaysWanting(states[j - 1], steps[j - 1], c, count);
    } else {
      k := j - 1;
      BecomesWanting(states[k], steps[k], c, count);
      assert RespondsAt(states, steps, k, c, steps[k].resp, count, true);
    }
  }

  /**
   * Whenever a connection is replaced, the caller who does it has found that very connection dead, in
   * its last call, when it was confirmed.
   */
  lemma ReplacedWhenDead(states: seq<State>, steps: seq<Step>, i: nat) returns (k: nat)
    requires Run(states, steps) && i < |steps| && states[i + 1].replaced != states[i].replaced
    ensures states[i].shared.Connected? && k < i
    ensures DiesAt(states, steps, k, steps[i].c, states[i].shared.count) && OnlyWaits(steps, k, i, steps[i].c)
  {
    RunAt(states, steps, i, states[i + 1]);
    var c := steps[i].c;
    assert Knows(states[i].shared, states[i].callers[c]);
    k := WhyReplace(states, steps, i, c, states[i].shared.count);
  }

  /** The caller has not begun another call. */
  ghost predicate SameCall(steps: seq<Step>, k: nat, j: nat, c: Caller)
    requires j <= |steps|
  {
    forall m | k < m < j && steps[m].c == c :: !steps[m].TakeReadLock? && !steps[m].Enter?
  }

  ghost predicate Gone(shared: Reconnectable, count: nat) {
    shared.GiveUp? || shared.count > count
  }

  /**
   * What a caller does that found connection `count` dead: it replaces it, or waits to, or goes on now
   * that it has been replaced or given up, or has run out of time.
   */
  ghost predicate DealsWith(s: State, c: Caller, count: nat) {
    c in s.callers &&
    match s.callers[c]
    case WantsToReconnect(n) => n == count
    case Reconnecting(n) => n == count
    case Begin(retries) => retries == 0 && Gone(s.shared, count)
    case Returned(resp) => resp == DeadlineExceeded
    case _ => false
  }

  lemma StaysGone(s: State, step: Step, count: nat)
    requires Inv(s) && Can(s, step) && Gone(s.shared, count)
    ensures Gone(Next(s, step).shared, count)
  {
    NextKeeps(s, step);
  }

  lemma NextDeals(s: State, step: Step, c: Caller, count: nat)
    requires Inv(s) && Can(s, step) && DealsWith(s, c, count)
    requires step.c == c ==> !step.TakeReadLock? && !step.Enter?
    ensures DealsWith(Next(s, step), c, count)
  {
    assert Knows(s.shared, s.callers[c]);
    if Gone(s.shared, count) {
      StaysGone(s, step, count);
    }
  }

  lemma DeadDeals(s: State, step: Step)
    requires Can(s, step) && step.Respond? && Dead(step.resp) && s.callers[step.c].confirmed
    ensures DealsWith(Next(s, step), step.c, s.callers[step.c].count)
  {
  }

  /** In every run, that is what it does until it calls again. It never returns what it found. */
  lemma {:induction false} DeadIsDealtWith(states: seq<State>, steps: seq<Step>, k: nat, j: nat, c: Caller, count: nat)
    requires Run(states, steps) && k < j <= |steps| && DiesAt(states, steps, k, c, count) && SameCall(steps, k, j, c)
    ensures DealsWith(states[j], c, count)
    decreases j
  {
    RunAt(states, steps, j - 1, states[j]);
    if j == k + 1 {
      DeadDeals(states[k], steps[k]);
    } else {
      DeadIsDealtWith(states, steps, k, j - 1, c, count);
      NextDeals(states[j - 1], steps[j - 1], c, count);
    }
  }

  // ---------------------------------------------------------------------
  // What callers return
  // ---------------------------------------------------------------------

  /** How many calls in a row, up to now, exceeded their deadline when there was time left for another. */
  ghost function Timeouts(steps: seq<Step>, c: Caller, j: nat): nat
    requires j <= |steps|
  {
    if j == 0 then 0
    else if steps[j - 1].c != c || steps[j - 1].TakeReadLock? then Timeouts(steps, c, j - 1)
    else if steps[j - 1].Respond? && steps[j - 1].resp == DeadlineExceeded && steps[j - 1].timeLeft
    then Timeouts(steps, c, j - 1) + 1
    else 0
  }

  ghost predicate HasTried(at: At, times: nat) {
    (at.Begin? || at.Calling?) ==> at.retries == times
  }

  lemma {:induction false} RetriesAreTimeouts(states: seq<State>, steps: seq<Step>, j: nat, c: Caller)
    requires Run(states, steps) && j <= |steps|
    ensures c in states[j].callers ==> HasTried(states[j].callers[c], Timeouts(steps, c, j))
  {
    if j > 0 {
      RetriesAreTimeouts(states, steps, j - 1, c);
      assert StepAt(states, steps, j - 1);
    }
  }

  /** The response asks for another try on the same connection: there was time left, and fewer than ten tries so far. */
  ghost predicate TriedAgain(steps: seq<Step>, i: nat)
    requires i < |steps| && steps[i].Respond?
  {
    steps[i].resp == DeadlineExceeded && steps[i].timeLeft && Timeouts(steps, steps[i].c, i) < MAX_RETRY_COUNT
  }

  /** Where the response at `i` leads, as far as it is up to what happened before. */
  ghost predicate LeadsOn(states: seq<State>, steps: seq<Step>, i: nat, at: At)
    requires i < |steps| && |states| == |steps| + 1 && steps[i].Respond?
    requires steps[i].c in states[i].callers && states[i].callers[steps[i].c].Calling?
  {
    var before, resp := states[i].callers[steps[i].c], steps[i].resp;
    && (at.Begin? <==> TriedAgain(steps, i))
    && (at.WantsToConfirm? <==> resp == Success && !before.confirmed)
    && (at.WantsToReconnect? <==> Dead(resp) && before.confirmed)
    && (at.WantsToReconnect? ==> at.count == before.count)
    && (!at.Begin? && !at.WantsToConfirm? && !at.WantsToReconnect? ==> at == Returned(resp))
  }

  /** Which responses are tried again, confirm the connection or have it replaced; all others are returned. */
  lemma RespondsExactly(states: seq<State>, steps: seq<Step>, i: nat)
    requires Run(states, steps) && i < |steps| && steps[i].Respond?
    ensures steps[i].c in states[i].callers && states[i].callers[steps[i].c].Calling?
    ensures steps[i].c in states[i + 1].callers && LeadsOn(states, steps, i, states[i + 1].callers[steps[i].c])
  {
    RunAt(states, steps, i, states[i + 1]);
    RetriesAreTimeouts(states, steps, i, steps[i].c);
  }

  /** The response is the caller's own: neither tried again nor that of a dead connection that was confirmed. */
  ghost predicate AnswersAt(states: seq<State>, steps: seq<Step>, i: nat, c: Caller, resp: Response)
    requires i < |steps| && |states| == |steps| + 1
  {
    && steps[i].Respond? && !TriedAgain(steps, i)
    && exists count, confirmed | !(confirmed && Dead(resp)) ::
         RespondsAt(states, steps, i, c, resp, count, confirmed)
  }

  /** Why a caller returns `resp`: its call says so, the connection was given up, or replacing it took too long. */
  ghost predicate ReturnsAt(states: seq<State>, steps: seq<Step>, i: nat, c: Caller, resp: Response)
    requires i < |steps| && |states| == |steps| + 1
  {
    || AnswersAt(states, steps, i, c, resp)
    || (steps[i] == TakeReadLock(c) && states[i].shared.GiveUp? && resp == Shutdown)
    || (steps[i] == Finish(c, OutOfTime) && resp == DeadlineExceeded)
  }

  ghost predicate OnlyConfirms(steps: seq<Step>, i: nat, j: nat, c: Caller)
    requires j <= |steps|
  {
    forall m | i < m < j && steps[m].c == c :: steps[m].Confirm?
  }

  /** The caller has an answer, and may still have to confirm the connection. */
  ghost predicate Answered(s: State, c: Caller, resp: Response) {
    c in s.callers && (s.callers[c] == Returned(resp) || (s.callers[c].WantsToConfirm? && resp == Success))
  }

  lemma StaysAnswered(s: State, step: Step, c: Caller, resp: Response)
    requires Can(s, step) && Answered(s, c, resp) && Answered(Next(s, step), c, resp)
    ensures step.c == c ==> step.Confirm?
  {
  }

  lemma BecomesAnswered(states: seq<State>, steps: seq<Step>, i: nat, c: Caller, resp: Response, next: State)
    requires Run(states, steps) && i < |steps| && next == states[i + 1]
    requires Answered(next, c, resp) && !Answered(states[i], c, resp)
    ensures ReturnsAt(states, steps, i, c, resp)
  {
    RunAt(states, steps, i, next);
    if steps[i].Respond? {
      RespondsExactly(states, steps, i);
      var at := states[i].callers[c];
      assert RespondsAt(states, steps, i, c, resp, at.count, at.confirmed);
    }
  }

  /**
   * What a caller has for an answer is what its last call came to, and never one of a dead connection
   * that was confirmed, nor one to try again; or that the connection was given up; or that replacing it
   * took too long.
   */
  lemma {:induction false} WhyAnswered(states: seq<State>, steps: seq<Step>, j: nat, c: Caller, resp: Response)
    returns (i: nat)
    requires Run(states, steps) && j <= |steps| && Answered(states[j], c, resp)
    ensures i < j && ReturnsAt(states, steps, i, c, resp) && OnlyConfirms(steps, i, j, c)
  {
    if j == 0 {
      assert false;
    }
    RunAt(states, steps, j - 1, states[j]);
    if Answered(states[j - 1], c, resp) {
      i := WhyAnswered(states, steps, j - 1, c, resp);
      StaysAnswered(states[j - 1], steps[j - 1], c, resp);
    } else {
      i := j - 1;
      BecomesAnswered(states, steps, i, c, resp, states[j]);
    }
  }

  // ---------------------------------------------------------------------
  // How connections are confirmed
  // ---------------------------------------------------------------------

  ghost predicate SucceedsBefore(states: seq<State>, steps: seq<Step>, j: nat)
    requires j <= |steps| && |states| == |steps| + 1
  {
    exists k, c | 0 <= k < j :: RespondsAt(states, steps, k, c, Success, 1, false)
  }

  lemma SucceedsLater(states: seq<State>, steps: seq<Step>, i: nat, j: nat)
    requires i <= j <= |steps| && |states| == |steps| + 1 && SucceedsBefore(states, steps, i)
    ensures SucceedsBefore(states, steps, j)
  {
    var k, c :| 0 <= k < i && RespondsAt(states, steps, k, c, Success, 1, false);
    assert RespondsAt(states, steps, k, c, Success, 1, false);
  }

  /** Only the first connection has to be confirmed. */
  ghost predicate FirstUnconfirmed(s: State) {
    && (s.shared.Connected? && !s.shared.confirmed ==> s.shared.count == 1)
    && forall c | c in s.callers && s.callers[c].Calling? && !s.callers[c].confirmed :: s.callers[c].count == 1
  }

  lemma {:induction false} RunFirstUnconfirmed(states: seq<State>, steps: seq<Step>, j: nat)
    requires Run(states, steps) && j <= |steps|
    ensures FirstUnconfirmed(states[j])
  {
    if j > 0 {
      RunFirstUnconfirmed(states, steps, j - 1);
      assert StepAt(states, steps, j - 1);
    }
  }

  ghost predicate Confirming(s: State) {
    (s.shared.Connected? && s.shared.confirmed) || exists c | c in s.callers :: s.callers[c].WantsToConfirm?
  }

  lemma BecomesConfirming(s: State, step: Step)
    requires Inv(s) && Can(s, step) && Confirming(Next(s, step)) && !Confirming(s)
    ensures step.Respond? && step.resp == Success && !s.callers[step.c].confirmed
  {
    if step.c in s.callers {
      assert Knows(s.shared, s.callers[step.c]);
    }
    var t := Next(s, step);
    if !(t.shared.Connected? && t.shared.confirmed) {
      var c :| c in t.callers && t.callers[c].WantsToConfirm?;
      assert c == step.c;
    }
  }

  /** No connection counts as confirmed before a call on the first one has succeeded. */
  lemma {:induction false} ConfirmedBySuccess(states: seq<State>, steps: seq<Step>, j: nat)
    requires Run(states, steps) && j <= |steps| && Confirming(states[j])
    ensures SucceedsBefore(states, steps, j)
  {
    if j == 0 {
      assert false;
    }
    RunAt(states, steps, j - 1, states[j]);
    if Confirming(states[j - 1]) {
      ConfirmedBySuccess(states, steps, j - 1);
      SucceedsLater(states, steps, j - 1, j);
    } else {
      BecomesConfirming(states[j - 1], steps[j - 1]);
      RunFirstUnconfirmed(states, steps, j - 1);
      assert RespondsAt(states, steps, j - 1, steps[j - 1].c, Success, 1, false);
    }
  }

  /** Once a caller has returned with success, the connection is confirmed, or has been given up since. */
  ghost predicate SuccessConfirms(s: State) {
    forall c | c in s.callers && s.callers[c] == Returned(Success) :: s.shared.GiveUp? || s.shared.confirmed
  }

  lemma {:induction false} RunSuccessConfirms(states: seq<State>, steps: seq<Step>, j: nat)
    requires Run(states, steps) && j <= |steps|
    ensures SuccessConfirms(states[j])
  {
    if j > 0 {
      RunSuccessConfirms(states, steps, j - 1);
      RunAt(states, steps, j - 1, states[j]);
      NextKeeps(states[j - 1], steps[j - 1]);
      if steps[j - 1].c in states[j - 1].callers {
        assert Knows(states[j - 1].shared, states[j - 1].callers[steps[j - 1].c]);
      }
    }
  }
}
