/** What the tracker knows of a job, in terms of what was reported about it. */
module JobHistory {
  import opened Common
  import opened Tracker

  function After(limit: nat, ns: seq<Notification>): State {
    UpdatedAll(State(limit, map[], []), ns)
  }

  lemma AfterLast(limit: nat, ns: seq<Notification>)
    requires ns != []
    ensures After(limit, ns) == Updated(After(limit, ns[..|ns| - 1]), ns[|ns| - 1])
  {
  }

  // ---------------------------------------------------------------------
  // The last word on everything
  // ---------------------------------------------------------------------

  /** What the last of the accepted notifications about the job that say something about it say. */
  function LastSaid<T>(limit: nat, ns: seq<Notification>, id: Id, says: Notification -> Option<T>): Option<T> {
    if ns == [] then None
    else
      var n := ns[|ns| - 1];
      if n.id == id && Accepts(After(limit, ns[..|ns| - 1]), n) && says(n).Some? then says(n)
      else LastSaid(limit, ns[..|ns| - 1], id, says)
  }

  function SaysJob(n: Notification): Option<nat> {
    if n.New? then Some(n.job) else None
  }

  function SaysProgress(n: Notification): Option<Progress> {
    match n
    case New(_, _) => Some(Pending)
    case Start(_) => Some(Running)
    case Finish(_, progress) => Some(progress)
    case _ => None
  }

  /** An end says that nothing goes on any more. */
  function SaysAction(n: Notification): Option<Option<JobAction>> {
    match n
    case New(_, _) => Some(None)
    case Finish(_, _) => Some(None)
    case UpdateAction(_, _, action) => Some(Some(action))
    case _ => None
  }

  /** Bytes are counted anew for each action, and the last count outlives the end. */
  function SaysBytes(n: Notification): Option<Option<(nat, nat)>> {
    match n
    case New(_, _) => Some(None)
    case UpdateAction(_, _, _) => Some(None)
    case UpdateByteCount(_, _, current, total) => Some(Some((current, total)))
    case _ => None
  }

  function SaysIndex(n: Notification): Option<nat> {
    match n
    case New(_, _) => Some(0)
    case UpdateAction(_, index, _) => Some(index)
    case UpdateByteCount(_, index, _, _) => Some(index)
    case _ => None
  }

  /** Each part of what is known is what was said about it last. */
  ghost predicate AsSaid(limit: nat, ns: seq<Notification>, id: Id, info: JobInfo) {
    && info.id == id
    && LastSaid(limit, ns, id, SaysJob) == Some(info.job)
    && LastSaid(limit, ns, id, SaysProgress) == Some(info.progress)
    && LastSaid(limit, ns, id, SaysAction) == Some(info.action)
    && LastSaid(limit, ns, id, SaysBytes) == Some(info.byteProgress)
    && LastSaid(limit, ns, id, SaysIndex) == Some(info.notificationIndex)
  }

  function Or<T>(said: Option<T>, before: T): T {
    if said.Some? then said.value else before
  }

  /** The parts of which the notification says something are as it says, the others as before. */
  ghost predicate Noted(before: JobInfo, n: Notification, info: JobInfo) {
    && info.id == before.id
    && info.job == Or(SaysJob(n), before.job)
    && info.progress == Or(SaysProgress(n), before.progress)
    && info.action == Or(SaysAction(n), before.action)
    && info.byteProgress == Or(SaysBytes(n), before.byteProgress)
    && info.notificationIndex == Or(SaysIndex(n), before.notificationIndex)
  }

  lemma TrimmedKeepsInfo(s: State, id: Id)
    requires id in Trimmed(s).jobs
    ensures id in s.jobs && Trimmed(s).jobs[id] == s.jobs[id]
  {
    var m := TrimmedEvicts(s);
  }

  /** What an update does to one job that is tracked afterwards. */
  lemma UpdatedInfo(s: State, n: Notification, id: Id)
    requires id in Updated(s, n).jobs
    ensures n.id == id && Accepts(s, n) && !n.New? ==> id in s.jobs && Noted(s.jobs[id], n, Updated(s, n).jobs[id])
    ensures n.id == id && Accepts(s, n) && n.New? ==>
              Updated(s, n).jobs[id] == JobInfo(id, n.job, Pending, None, None, 0)
    ensures !(n.id == id && Accepts(s, n)) ==> id in s.jobs && Updated(s, n).jobs[id] == s.jobs[id]
  {
    if Accepts(s, n) {
      match n
      case New(k, job) => TrimmedKeepsInfo(WithNew(s, k, job), id);
      case Finish(k, p) => TrimmedKeepsInfo(Ended(s, k, p), id);
      case _ =>
    }
  }

  /**
   * After any notifications, in whatever order and however often they come, everything the tracker
   * knows of a job is what was said about it last, by a notification that was accepted.
   */
  lemma {:induction false} InfoIsHistory(limit: nat, ns: seq<Notification>, id: Id)
    requires id in After(limit, ns).jobs
    ensures AsSaid(limit, ns, id, After(limit, ns).jobs[id])
  {
    var m := |ns| - 1;
    var s, n := After(limit, ns[..m]), ns[m];
    AfterLast(limit, ns);
    UpdatedInfo(s, n, id);
    if !(n.id == id && Accepts(s, n) && n.New?) {
      InfoIsHistory(limit, ns[..m], id);
    }
  }

  /** What is accepted about a job that is known or not, and of which status and index are what was said last. */
  predicate Acceptable(known: bool, status: Option<Progress>, index: Option<nat>, n: Notification) {
    match n
    case New(_, _) => !known
    case Start(_) => known && status == Some(Pending)
    case Finish(_, _) => known && (status == Some(Pending) || status == Some(Running))
    case UpdateAction(_, i, _) => known && status == Some(Running) && index.Some? && index.value < i
    case UpdateByteCount(_, i, _, _) => known && status == Some(Running) && index.Some? && index.value < i
  }

  lemma AcceptsAcceptable(s: State, n: Notification, status: Option<Progress>, index: Option<nat>)
    requires n.id in s.jobs ==> status == Some(s.jobs[n.id].progress) && index == Some(s.jobs[n.id].notificationIndex)
    ensures Accepts(s, n) <==> Acceptable(n.id in s.jobs, status, index, n)
  {
  }

  /** So what is accepted depends on nothing but whether the job is known and what was said last about it. */
  lemma AcceptsByHistory(limit: nat, ns: seq<Notification>, n: Notification)
    ensures Accepts(After(limit, ns), n) <==>
              Acceptable(n.id in After(limit, ns).jobs, LastSaid(limit, ns, n.id, SaysProgress),
                         LastSaid(limit, ns, n.id, SaysIndex), n)
  {
    if n.id in After(limit, ns).jobs {
      InfoIsHistory(limit, ns, n.id);
    }
    AcceptsAcceptable(After(limit, ns), n, LastSaid(limit, ns, n.id, SaysProgress),
                      LastSaid(limit, ns, n.id, SaysIndex));
  }

  // ---------------------------------------------------------------------
  // Which jobs are kept
  // ---------------------------------------------------------------------

  /** The jobs whose end was accepted, in the order of their ends. */
  function Ends(limit: nat, ns: seq<Notification>): seq<Id> {
    if ns == [] then []
    else
      var before, n := Ends(limit, ns[..|ns| - 1]), ns[|ns| - 1];
      if n.Finish? && Accepts(After(limit, ns[..|ns| - 1]), n) then before + [n.id] else before
  }

  lemma UpdatedQueue(s: State, n: Notification) returns (m: nat)
    ensures var q := if n.Finish? && Accepts(s, n) then s.finished + [n.id] else s.finished;
            m <= |q| && Updated(s, n).finished == q[m..]
  {
    m := 0;
    if Accepts(s, n) {
      match n
      case New(k, job) => m := TrimmedEvicts(WithNew(s, k, job));
      case Finish(k, p) => m := TrimmedEvicts(Ended(s, k, p));
      case _ =>
    }
  }

  lemma DropAgain(q: seq<Id>, d: nat, m: nat)
    requires d + m <= |q|
    ensures q[d..][m..] == q[d + m..]
  {
  }

  lemma DropAppend(q: seq<Id>, d: nat, id: Id)
    requires d <= |q|
    ensures q[d..] + [id] == (q + [id])[d..]
  {
  }

  /** The queue holds the last ends in their order: the jobs that were dropped are those that ended first. */
  lemma {:induction false} QueueIsHistory(limit: nat, ns: seq<Notification>) returns (d: nat)
    ensures d <= |Ends(limit, ns)| && After(limit, ns).finished == Ends(limit, ns)[d..]
  {
    d := 0;
    if ns != [] {
      var s, n := After(limit, ns[..|ns| - 1]), ns[|ns| - 1];
      var before := QueueIsHistory(limit, ns[..|ns| - 1]);
      var m := UpdatedQueue(s, n);
      d := before + m;
      DropAppend(Ends(limit, ns[..|ns| - 1]), before, n.id);
      DropAgain(Ends(limit, ns), before, m);
    }
  }

  // ---------------------------------------------------------------------
  // Reports that come in order
  // ---------------------------------------------------------------------

  /** The life of a job as it is reported; `index` is that of the last update. */
  datatype Phase = Unheard | Waiting | Busy(index: nat) | Over

  function PhaseIn(n: Notification): Phase {
    match n
    case New(_, _) => Waiting
    case Start(_) => Busy(0)
    case Finish(_, _) => Over
    case UpdateAction(_, index, _) => Busy(index)
    case UpdateByteCount(_, index, _, _) => Busy(index)
  }

  function PhaseOf(ns: seq<Notification>, id: Id): Phase {
    if ns == [] then Unheard
    else if ns[|ns| - 1].id == id then PhaseIn(ns[|ns| - 1])
    else PhaseOf(ns[..|ns| - 1], id)
  }

  /** The notification is due in this phase of its job. */
  predicate Due(phase: Phase, n: Notification) {
    match n
    case New(_, _) => phase.Unheard?
    case Start(_) => phase.Waiting?
    case Finish(_, _) => phase.Waiting? || phase.Busy?
    case UpdateAction(_, index, _) => phase.Busy? && phase.index < index
    case UpdateByteCount(_, index, _, _) => phase.Busy? && phase.index < index
  }

  /** Every job is reported in order: new, started, updated with growing indexes, finished. */
  ghost predicate InOrder(ns: seq<Notification>) {
    forall i | 0 <= i < |ns| :: Due(PhaseOf(ns[..i], ns[i].id), ns[i]) && !Misreported(ns[i])
  }

  /** The tracker is up to date with the job; it may have dropped it once it was over. */
  ghost predicate InPhase(s: State, id: Id, phase: Phase) {
    match phase
    case Unheard => id !in s.jobs
    case Waiting => Tracked(s, id, Pending) && s.jobs[id].notificationIndex == 0
    case Busy(index) => Tracked(s, id, Running) && s.jobs[id].notificationIndex == index
    case Over => id in s.jobs ==> IsFinished(s.jobs[id].progress)
  }

  lemma InOrderPrefix(ns: seq<Notification>)
    requires InOrder(ns) && ns != []
    ensures InOrder(ns[..|ns| - 1])
  {
    var m := |ns| - 1;
    forall i | 0 <= i < m ensures Due(PhaseOf(ns[..m][..i], ns[..m][i].id), ns[..m][i]) && !Misreported(ns[..m][i]) {
      assert ns[..m][..i] == ns[..i];
    }
  }

  /** No other job changes its phase. */
  lemma OthersInPhase(s: State, n: Notification, phase: Phase, id: Id)
    requires Queued(s) && !Misreported(n) && InPhase(s, id, phase) && n.id != id
    ensures InPhase(Updated(s, n), id, phase)
  {
    if id in Updated(s, n).jobs {
      UpdatedInfo(s, n, id);
    }
    if id in s.jobs && !IsFinished(s.jobs[id].progress) {
      UpdatedKeepsActive(s, n, id);
    }
  }

  lemma UpdatedInPhase(s: State, n: Notification, phase: Phase)
    requires Queued(s) && !Misreported(n) && InPhase(s, n.id, phase) && Due(phase, n)
    ensures Accepts(s, n) && InPhase(Updated(s, n), n.id, PhaseIn(n))
  {
    match n
    case New(id, job) =>
      NewQueued(s, id, job);
      UpdatedInfo(s, n, id);
    case Finish(id, _) =>
      if id in Updated(s, n).jobs {
        UpdatedInfo(s, n, id);
      }
    case _ =>
  }

  lemma {:induction false} OrderKeepsPhases(limit: nat, ns: seq<Notification>, id: Id)
    requires InOrder(ns)
    ensures Queued(After(limit, ns)) && InBounds(After(limit, ns)) && After(limit, ns).limit == limit
    ensures InPhase(After(limit, ns), id, PhaseOf(ns, id))
  {
    if ns != [] {
      var m := |ns| - 1;
      InOrderPrefix(ns);
      OrderKeepsPhases(limit, ns[..m], id);
      assert Due(PhaseOf(ns[..m], ns[m].id), ns[m]);
      if ns[m].id == id {
        UpdatedInPhase(After(limit, ns[..m]), ns[m], PhaseOf(ns[..m], id));
      } else {
        OthersInPhase(After(limit, ns[..m]), ns[m], PhaseOf(ns[..m], id), id);
      }
      UpdatedQueued(After(limit, ns[..m]), ns[m]);
    }
  }

  /**
   * If all jobs were reported in order so far, what comes next is accepted exactly if it is due, or if
   * it announces a job again that is over and was dropped. However many jobs there are and however low
   * the limit, nothing that is due is turned down.
   */
  lemma AcceptsExactlyDue(limit: nat, ns: seq<Notification>, n: Notification)
    requires InOrder(ns)
    ensures Accepts(After(limit, ns), n) <==>
              || Due(PhaseOf(ns, n.id), n)
              || (n.New? && PhaseOf(ns, n.id).Over? && n.id !in After(limit, ns).jobs)
  {
    OrderKeepsPhases(limit, ns, n.id);
  }

  /**
   * If all jobs were reported in order, the tracker has exactly those that are not over and the last
   * ones that are, as many as fit the limit.
   */
  lemma KeptExactly(limit: nat, ns: seq<Notification>, id: Id) returns (d: nat)
    requires InOrder(ns)
    ensures d <= |Ends(limit, ns)|
    ensures id in After(limit, ns).jobs <==>
              || PhaseOf(ns, id).Waiting? || PhaseOf(ns, id).Busy?
              || (PhaseOf(ns, id).Over? && id in Ends(limit, ns)[d..])
    ensures |After(limit, ns).jobs| <= limit || d == |Ends(limit, ns)|
  {
    OrderKeepsPhases(limit, ns, id);
    d := QueueIsHistory(limit, ns);
  }
}
