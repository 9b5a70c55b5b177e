/** A bounded history of jobs, fed by notifications. */
module Tracker {
  import opened Common

  datatype Progress = Pending | Running | Done | Abandoned | Cancelled | Failed(error: string)

  predicate IsFinished(p: Progress) {
    !p.Pending? && !p.Running?
  }

  datatype JobAction = Download | Verify | Repair | Move

  datatype Id = Id(arena: string, job: nat)

  datatype JobInfo = JobInfo(
    id: Id,
    job: nat,
    progress: Progress,
    action: Option<JobAction>,
    byteProgress: Option<(nat, nat)>,
    notificationIndex: nat)

  datatype Notification =
    | New(id: Id, job: nat)
    | Start(id: Id)
    | Finish(id: Id, progress: Progress)
    | UpdateAction(id: Id, index: nat, action: JobAction)
    | UpdateByteCount(id: Id, index: nat, current: nat, total: nat)

  /** `finished` is the queue of finished jobs, oldest first. */
  datatype State = State(limit: nat, jobs: map<Id, JobInfo>, finished: seq<Id>)

  // ---------------------------------------------------------------------
  // What an update does
  // ---------------------------------------------------------------------

  function Members(q: seq<Id>): set<Id> {
    set id | id in q
  }

  /** Without the `m` oldest finished jobs. */
  function Without(s: State, m: nat): State
    requires m <= |s.finished|
  {
    State(s.limit, s.jobs - Members(s.finished[..m]), s.finished[m..])
  }

  /** The number of jobs that are left then, counted one by one. */
  function Left(s: State, m: nat): int
    requires m <= |s.finished|
  {
    if m == 0 then |s.jobs.Keys|
    else
      var id := s.finished[m - 1];
      Left(s, m - 1) - if id in s.jobs && id !in s.finished[..m - 1] then 1 else 0
  }

  predicate TooMany(s: State, m: nat) {
    m <= |s.finished| && Left(s, m) > s.limit
  }

  /** The first number from `m` on, up to `n`, for which it does not hold. */
  function FirstNot(holds: nat -> bool, m: nat, n: nat): (k: nat)
    requires m <= n
    ensures m <= k <= n && (k == n || !holds(k))
    decreases n - m
  {
    if holds(m) && m < n then FirstNot(holds, m + 1, n) else m
  }

  function Over(s: State): nat -> bool {
    (m: nat) => TooMany(s, m)
  }

  /** How many jobs have to go, `m` being gone already. */
  function Evicted(s: State, m: nat): (k: nat)
    requires m <= |s.finished|
    ensures m <= k <= |s.finished|
  {
    FirstNot(Over(s), m, |s.finished|)
  }

  /** Drops the oldest finished jobs while there are too many jobs. */
  function Trimmed(s: State): State {
    Without(s, Evicted(s, 0))
  }

  predicate Tracked(s: State, id: Id, p: Progress) {
    id in s.jobs && s.jobs[id].progress == p
  }

  predicate Accepts(s: State, n: Notification) {
    match n
    case New(id, _) => id !in s.jobs
    case Start(id) => Tracked(s, id, Pending)
    case Finish(id, _) => id in s.jobs && !IsFinished(s.jobs[id].progress)
    case UpdateAction(id, index, _) => Tracked(s, id, Running) && s.jobs[id].notificationIndex < index
    case UpdateByteCount(id, index, _, _) => Tracked(s, id, Running) && s.jobs[id].notificationIndex < index
  }

  function WithNew(s: State, id: Id, job: nat): State {
    s.(jobs := s.jobs[id := JobInfo(id, job, Pending, None, None, 0)])
  }

  function Ended(s: State, id: Id, progress: Progress): State
    requires id in s.jobs
  {
    s.(jobs := s.jobs[id := s.jobs[id].(progress := progress, action := None)], finished := s.finished + [id])
  }

  function Applied(s: State, n: Notification): State
    requires Accepts(s, n)
  {
    match n
    case New(id, job) => Trimmed(WithNew(s, id, job))
    case Start(id) => s.(jobs := s.jobs[id := s.jobs[id].(progress := Running)])
    case Finish(id, progress) => Trimmed(Ended(s, id, progress))
    case UpdateAction(id, index, action) =>
      s.(jobs := s.jobs[id := s.jobs[id].(notificationIndex := index, action := Some(action), byteProgress := None)])
    case UpdateByteCount(id, index, current, total) =>
      s.(jobs := s.jobs[id := s.jobs[id].(notificationIndex := index, byteProgress := Some((current, total)))])
  }

  function Updated(s: State, n: Notification): State {
    if Accepts(s, n) then Applied(s, n) else s
  }

  // ---------------------------------------------------------------------
  // What every update keeps
  // ---------------------------------------------------------------------

  ghost predicate NoRepeats(q: seq<Id>) {
    forall i, j | 0 <= i < j < |q| :: q[i] != q[j]
  }

  /** The queue lists the finished jobs, each once. */
  ghost predicate Queued(s: State) {
    && NoRepeats(s.finished)
    && (forall id | id in s.finished :: id in s.jobs)
    && (forall id | id in s.jobs :: id in s.finished <==> IsFinished(s.jobs[id].progress))
  }

  ghost predicate InBounds(s: State) {
    |s.jobs| <= s.limit || s.finished == []
  }

  function Active(s: State): set<Id> {
    set id | id in s.jobs && !IsFinished(s.jobs[id].progress)
  }

  lemma {:induction false} QueueSize(q: seq<Id>)
    requires NoRepeats(q)
    ensures |Members(q)| == |q|
  {
    if q != [] {
      var n := |q| - 1;
      QueueSize(q[..n]);
      assert Members(q) == Members(q[..n]) + {q[n]};
    }
  }

  /** So the difference of the two sizes is the number of active jobs, and never negative. */
  lemma ActiveLength(s: State)
    requires Queued(s)
    ensures |s.jobs| == |Active(s)| + |s.finished|
    ensures InBounds(s) ==> |s.jobs| <= if s.limit < |Active(s)| then |Active(s)| else s.limit
  {
    QueueSize(s.finished);
    assert s.jobs.Keys == Active(s) + Members(s.finished);
    assert Active(s) !! Members(s.finished);
  }

  lemma MembersOneMore(q: seq<Id>, m: nat)
    requires m < |q|
    ensures Members(q[..m + 1]) == Members(q[..m]) + {q[m]}
  {
    assert q[..m + 1] == q[..m] + [q[m]];
  }

  lemma LessOne(jobs: map<Id, JobInfo>, ids: set<Id>, id: Id)
    ensures jobs - (ids + {id}) == jobs - ids - {id}
  {
  }

  lemma WithoutOneMore(s: State, m: nat)
    requires m < |s.finished|
    ensures Without(s, m + 1).jobs == Without(s, m).jobs - {s.finished[m]}
  {
    MembersOneMore(s.finished, m);
    LessOne(s.jobs, Members(s.finished[..m]), s.finished[m]);
  }

  function Remaining(keys: set<Id>, q: seq<Id>): set<Id> {
    if q == [] then keys else Remaining(keys, q[..|q| - 1]) - {q[|q| - 1]}
  }

  lemma {:induction false} RemainingAre(keys: set<Id>, q: seq<Id>)
    ensures Remaining(keys, q) == keys - Members(q)
  {
    if q == [] {
      assert Members(q) == {};
    } else {
      RemainingAre(keys, q[..|q| - 1]);
      MembersOneMore(q, |q| - 1);
      assert q[..|q|] == q;
    }
  }

  lemma RemainingOneLess(keys: set<Id>, q: seq<Id>, id: Id)
    requires q != [] && q[|q| - 1] == id
    ensures |Remaining(keys, q)| == |Remaining(keys, q[..|q| - 1])| - if id in keys && id !in q[..|q| - 1] then 1 else 0
  {
    RemainingAre(keys, q[..|q| - 1]);
  }

  lemma {:induction false} LeftKeys(s: State, m: nat)
    requires m <= |s.finished|
    ensures Left(s, m) == |Remaining(s.jobs.Keys, s.finished[..m])|
  {
    if m > 0 {
      LeftKeys(s, m - 1);
      assert s.finished[..m][..m - 1] == s.finished[..m - 1];
      RemainingOneLess(s.jobs.Keys, s.finished[..m], s.finished[m - 1]);
    }
  }

  lemma LeftIs(s: State, m: nat)
    requires m <= |s.finished|
    ensures Left(s, m) == |Without(s, m).jobs|
  {
    LeftKeys(s, m);
    RemainingAre(s.jobs.Keys, s.finished[..m]);
    assert Without(s, m).jobs.Keys == s.jobs.Keys - Members(s.finished[..m]);
  }

  lemma {:induction false} HoldsBefore(holds: nat -> bool, m: nat, n: nat, i: nat)
    requires m <= i < n && i < FirstNot(holds, m, n)
    ensures holds(i)
    decreases n - m
  {
    if m < i {
      HoldsBefore(holds, m + 1, n, i);
    }
  }

  lemma EvictedStep(s: State, m: nat)
    requires m <= |s.finished|
    ensures Evicted(s, m) == if TooMany(s, m) && m < |s.finished| then Evicted(s, m + 1) else m
  {
    assert Over(s)(m) == TooMany(s, m);
  }

  /** No more go than have to. */
  lemma EvictedOver(s: State, i: nat)
    requires i < Evicted(s, 0)
    ensures TooMany(s, i)
  {
    HoldsBefore(Over(s), 0, |s.finished|, i);
    assert Over(s)(i);
  }

  lemma EvictedEnough(s: State)
    ensures Evicted(s, 0) == |s.finished| || !TooMany(s, Evicted(s, 0))
  {
    var m := Evicted(s, 0);
    assert m == |s.finished| || !Over(s)(m);
  }

  lemma TrimmedCount(s: State) returns (m: nat)
    ensures m <= |s.finished| && Trimmed(s) == Without(s, m) && (m < |s.finished| ==> !TooMany(s, m))
    ensures m > 0 ==> TooMany(s, m - 1)
  {
    m := Evicted(s, 0);
    EvictedEnough(s);
    if m > 0 {
      EvictedOver(s, m - 1);
    }
  }

  lemma OneTooMany(s: State, m: nat)
    requires m <= |s.finished| && (m > 0 ==> TooMany(s, m - 1))
    ensures m > 0 ==> Left(s, m) >= s.limit
  {
  }

  /** Trimming drops the oldest finished jobs, and no more than needed. */
  lemma TrimmedEvicts(s: State) returns (m: nat)
    ensures m <= |s.finished| && Trimmed(s) == Without(s, m) && InBounds(Trimmed(s))
    ensures m > 0 ==> |Trimmed(s).jobs| >= s.limit
  {
    m := TrimmedCount(s);
    OneTooMany(s, m);
    LeftIs(s, m);
  }

  lemma WithoutQueued(s: State, m: nat)
    requires Queued(s) && m <= |s.finished|
    ensures Queued(Without(s, m))
    ensures forall id | id in s.jobs && !IsFinished(s.jobs[id].progress) ::
              id in Without(s, m).jobs && Without(s, m).jobs[id] == s.jobs[id]
  {
    assert s.finished == s.finished[..m] + s.finished[m..];
    forall id | id in s.finished[m..] ensures id !in s.finished[..m] {
    }
  }

  lemma TrimmedQueued(s: State)
    requires Queued(s)
    ensures Queued(Trimmed(s)) && InBounds(Trimmed(s))
    ensures forall id | id in s.jobs && !IsFinished(s.jobs[id].progress) ::
              id in Trimmed(s).jobs && Trimmed(s).jobs[id] == s.jobs[id]
  {
    var m := TrimmedEvicts(s);
    WithoutQueued(s, m);
  }

  /** The job is reported finished with a status that is not. */
  predicate Misreported(n: Notification) {
    n.Finish? && !IsFinished(n.progress)
  }

  lemma EndedQueued(s: State, id: Id, p: Progress)
    requires Queued(s) && id in s.jobs && !IsFinished(s.jobs[id].progress) && IsFinished(p)
    ensures Queued(Ended(s, id, p))
  {
  }

  lemma WithNewQueued(s: State, id: Id, job: nat)
    requires Queued(s) && id !in s.jobs
    ensures Queued(WithNew(s, id, job))
  {
  }

  /** Every update keeps the queue right and the number of jobs within bounds. */
  lemma UpdatedQueued(s: State, n: Notification)
    requires Queued(s) && InBounds(s) && !Misreported(n)
    ensures Queued(Updated(s, n)) && InBounds(Updated(s, n)) && Updated(s, n).limit == s.limit
  {
    if Accepts(s, n) {
      match n
      case New(id, job) => NewQueued(s, id, job);
      case Start(id) => ChangedQueued(s, id, s.jobs[id].(progress := Running));
      case Finish(id, p) =>
        EndedQueued(s, id, p);
        TrimmedQueued(Ended(s, id, p));
        var m := TrimmedEvicts(Ended(s, id, p));
      case UpdateAction(id, index, action) =>
        ChangedQueued(s, id, s.jobs[id].(notificationIndex := index, action := Some(action), byteProgress := None));
      case UpdateByteCount(id, index, current, total) =>
        ChangedQueued(s, id, s.jobs[id].(notificationIndex := index, byteProgress := Some((current, total))));
    }
  }

  lemma NewQueued(s: State, id: Id, job: nat)
    requires Queued(s) && id !in s.jobs
    ensures Queued(Applied(s, New(id, job))) && InBounds(Applied(s, New(id, job))) &&
              Applied(s, New(id, job)).limit == s.limit
    ensures Tracked(Applied(s, New(id, job)), id, Pending)
  {
    WithNewQueued(s, id, job);
    TrimmedQueued(WithNew(s, id, job));
    var m := TrimmedEvicts(WithNew(s, id, job));
  }

  lemma ChangedQueued(s: State, id: Id, info: JobInfo)
    requires Queued(s) && InBounds(s) && id in s.jobs && IsFinished(info.progress) == IsFinished(s.jobs[id].progress)
    ensures Queued(s.(jobs := s.jobs[id := info])) && InBounds(s.(jobs := s.jobs[id := info]))
  {
    assert s.jobs[id := info].Keys == s.jobs.Keys;
  }

  // ---------------------------------------------------------------------
  // Progress
  // ---------------------------------------------------------------------

  function Rank(p: Progress): nat {
    if p.Pending? then 0 else if p.Running? then 1 else 2
  }

  /** No job goes back; a finished one does not change any more. */
  ghost predicate Forward(old_: JobInfo, new_: JobInfo) {
    && Rank(old_.progress) <= Rank(new_.progress)
    && old_.notificationIndex <= new_.notificationIndex
    && (IsFinished(old_.progress) ==> new_ == old_)
  }

  lemma UpdatedForward(s: State, n: Notification, id: Id)
    requires !Misreported(n) && id in s.jobs && id in Updated(s, n).jobs
    ensures Forward(s.jobs[id], Updated(s, n).jobs[id])
  {
    if Accepts(s, n) {
      match n
      case New(k, job) => var m := TrimmedEvicts(WithNew(s, k, job));
      case Finish(k, p) =>
        var m := TrimmedEvicts(Ended(s, k, p));
      case _ =>
    }
  }

  /** An active job is never dropped, except by its own end. */
  lemma UpdatedKeepsActive(s: State, n: Notification, id: Id)
    requires Queued(s) && !Misreported(n) && id in s.jobs && !IsFinished(s.jobs[id].progress)
    requires !(n.Finish? && n.id == id)
    ensures id in Updated(s, n).jobs
  {
    if Accepts(s, n) {
      match n
      case New(k, job) =>
        WithNewQueued(s, k, job);
        TrimmedQueued(WithNew(s, k, job));
      case Finish(k, p) =>
        EndedQueued(s, k, p);
        TrimmedQueued(Ended(s, k, p));
      case _ =>
    }
  }

  /** Saying it again right away changes nothing and is turned down. */
  lemma RepeatIsRejected(s: State, n: Notification)
    requires Queued(s) && !Misreported(n)
    ensures !Accepts(Updated(s, n), n) && Updated(Updated(s, n), n) == Updated(s, n)
  {
    if Accepts(s, n) {
      match n
      case New(id, job) => NewQueued(s, id, job);
      case Finish(id, p) =>
        var m := TrimmedEvicts(Ended(s, id, p));
      case _ =>
    }
  }

  // ---------------------------------------------------------------------
  // Runs
  // ---------------------------------------------------------------------

  function UpdatedAll(s: State, ns: seq<Notification>): State {
    if ns == [] then s else Updated(UpdatedAll(s, ns[..|ns| - 1]), ns[|ns| - 1])
  }

  /** After any notifications, as long as every end is reported with the status of one. */
  lemma {:induction false} RunQueued(s: State, ns: seq<Notification>)
    requires Queued(s) && InBounds(s) && forall n | n in ns :: !Misreported(n)
    ensures Queued(UpdatedAll(s, ns)) && InBounds(UpdatedAll(s, ns)) && UpdatedAll(s, ns).limit == s.limit
  {
    if ns != [] {
      assert ns[|ns| - 1] in ns;
      RunQueued(s, ns[..|ns| - 1]);
      UpdatedQueued(UpdatedAll(s, ns[..|ns| - 1]), ns[|ns| - 1]);
    }
  }

  // ---------------------------------------------------------------------
  // An end reported with another status
  // ---------------------------------------------------------------------

  /**
   * A job that is said to end but is not finished is queued and active at once, unless there are so
   * many other active jobs that it is dropped right away.
   */
  lemma MisreportedQueued(s: State, n: Notification)
    requires Queued(s) && Misreported(n) && Accepts(s, n)
    ensures Queued(Updated(s, n)) <==> |Active(s)| > s.limit
  {
    var t := Ended(s, n.id, n.progress);
    var m := TrimmedEvicts(t);
    assert t.jobs.Keys == s.jobs.Keys;
    MisreportedSizes(s, n, t, m);
    if m == |s.finished| + 1 {
      AllDropped(s, n.id, n.progress);
    } else {
      StillQueued(s, n.id, n.progress, m);
    }
  }

  lemma AllDropped(s: State, id: Id, p: Progress)
    requires Queued(s) && id in s.jobs
    ensures Queued(Without(Ended(s, id, p), |s.finished| + 1))
  {
    var t := Ended(s, id, p);
    assert t.finished[..|s.finished| + 1] == t.finished && t.finished[|s.finished| + 1..] == [];
  }

  lemma StillQueued(s: State, id: Id, p: Progress, m: nat)
    requires Queued(s) && id in s.jobs && !IsFinished(p) && m <= |s.finished| && id in Without(Ended(s, id, p), m).jobs
    ensures !Queued(Without(Ended(s, id, p), m))
  {
    var t := Ended(s, id, p);
    assert t.finished[m..][|s.finished| - m] == id;
    assert id in Without(t, m).finished;
  }

  lemma SizeWithout(t: State, m: nat)
    requires NoRepeats(t.finished) && m <= |t.finished| && forall id | id in t.finished :: id in t.jobs
    ensures |Without(t, m).jobs| == |t.jobs| - m
    ensures forall i | m <= i < |t.finished| :: t.finished[i] in Without(t, m).jobs
  {
    QueueSize(t.finished[..m]);
    assert Without(t, m).jobs.Keys == t.jobs.Keys - Members(t.finished[..m]);
    assert Members(t.finished[..m]) <= t.jobs.Keys;
  }

  lemma MisreportedSizes(s: State, n: Notification, t: State, m: nat)
    requires Queued(s) && Misreported(n) && Accepts(s, n)
    requires t.jobs.Keys == s.jobs.Keys && t.finished == s.finished + [n.id] && t.limit == s.limit
    requires m <= |t.finished| && InBounds(Without(t, m)) && (m > 0 ==> |Without(t, m).jobs| >= t.limit)
    ensures m == |s.finished| + 1 <==> |Active(s)| > s.limit
    ensures m <= |s.finished| ==> n.id in Without(t, m).jobs
  {
    ActiveLength(s);
    NoRepeatsAppend(s, n.id);
    SizeWithout(t, m);
    assert t.finished[|s.finished|] == n.id;
    assert |t.jobs.Keys| == |s.jobs.Keys|;
  }

  lemma NoRepeatsAppend(s: State, id: Id)
    requires Queued(s) && id in s.jobs && !IsFinished(s.jobs[id].progress)
    ensures NoRepeats(s.finished + [id])
  {
  }

  // ---------------------------------------------------------------------
  // Starting over from a list of jobs
  // ---------------------------------------------------------------------

  function LoadedOne(s: State, info: JobInfo): State {
    s.(jobs := s.jobs[info.id := info],
       finished := if IsFinished(info.progress) then s.finished + [info.id] else s.finished)
  }

  function Loaded(limit: nat, js: seq<JobInfo>): State {
    if js == [] then State(limit, map[], []) else LoadedOne(Loaded(limit, js[..|js| - 1]), js[|js| - 1])
  }

  function Ids(js: seq<JobInfo>): set<Id> {
    set i | 0 <= i < |js| :: js[i].id
  }

  /** The jobs that have an end in the list. */
  function EndedIds(js: seq<JobInfo>): set<Id> {
    set i | 0 <= i < |js| && IsFinished(js[i].progress) :: js[i].id
  }

  /** Entry `k` is an end, and the same job has another end before it or is listed again after it. */
  ghost predicate EndRepeated(js: seq<JobInfo>, k: nat)
    requires k < |js|
  {
    && IsFinished(js[k].progress)
    && exists i | 0 <= i < |js| && i != k ::
         js[i].id == js[k].id && (i < k ==> IsFinished(js[i].progress))
  }

  /** There are still too many jobs when those that ended before entry `k` are gone. */
  ghost predicate CutOff(limit: nat, js: seq<JobInfo>, k: nat)
    requires k < |js|
  {
    |Ids(js) - EndedIds(js[..k])| > limit
  }

  lemma {:induction false} LoadedJobs(limit: nat, js: seq<JobInfo>)
    ensures Loaded(limit, js).jobs.Keys == Ids(js) && Members(Loaded(limit, js).finished) == EndedIds(js)
    ensures Loaded(limit, js).limit == limit
  {
    if js != [] {
      var n := |js| - 1;
      var s := Loaded(limit, js[..n]);
      LoadedJobs(limit, js[..n]);
      assert Ids(js) == Ids(js[..n]) + {js[n].id};
      assert EndedIds(js) == EndedIds(js[..n]) + if IsFinished(js[n].progress) then {js[n].id} else {};
      assert Members(s.finished + [js[n].id]) == Members(s.finished) + {js[n].id};
    }
  }

  /** The queue after the first entries is a prefix of the queue. */
  lemma {:induction false} LoadedPrefix(limit: nat, js: seq<JobInfo>, k: nat)
    requires k <= |js|
    ensures Loaded(limit, js[..k]).finished <= Loaded(limit, js).finished
  {
    if k < |js| {
      var n := |js| - 1;
      LoadedPrefix(limit, js[..n], k);
      assert js[..n][..k] == js[..k];
    } else {
      assert js[..k] == js;
    }
  }

  /** Where entry `k`, if it is an end, comes in the queue. */
  function Position(limit: nat, js: seq<JobInfo>, k: nat): nat
    requires k < |js|
  {
    |Loaded(limit, js[..k]).finished|
  }

  lemma PositionHolds(limit: nat, js: seq<JobInfo>, k: nat)
    requires k < |js| && IsFinished(js[k].progress)
    ensures var q, p := Loaded(limit, js).finished, Position(limit, js, k);
            p < |q| && q[p] == js[k].id && Members(q[..p]) == EndedIds(js[..k])
  {
    LoadedPrefix(limit, js, k);
    LoadedPrefix(limit, js, k + 1);
    LoadedJobs(limit, js[..k]);
    assert js[..k + 1][..k] == js[..k];
    var q := Loaded(limit, js).finished;
    assert q[..Position(limit, js, k)] == Loaded(limit, js[..k]).finished;
  }

  lemma {:induction false} PositionsGrow(limit: nat, js: seq<JobInfo>, i: nat, k: nat)
    requires i < k < |js| && IsFinished(js[i].progress)
    ensures Position(limit, js, i) < Position(limit, js, k)
    decreases k
  {
    LoadedPrefix(limit, js[..k], i + 1);
    assert js[..k][..i + 1] == js[..i + 1] && js[..i + 1][..i] == js[..i];
  }

  /** Every place in the queue comes from an end. */
  lemma {:induction false} LoadedFrom(limit: nat, js: seq<JobInfo>, p: nat) returns (k: nat)
    requires p < |Loaded(limit, js).finished|
    ensures k < |js| && IsFinished(js[k].progress) && Position(limit, js, k) == p
  {
    var n := |js| - 1;
    if p < |Loaded(limit, js[..n]).finished| {
      k := LoadedFrom(limit, js[..n], p);
      assert js[..n][..k] == js[..k];
    } else {
      k := n;
    }
  }

  /** What is kept of a job is its last entry. */
  lemma {:induction false} LoadedLast(limit: nat, js: seq<JobInfo>, k: nat)
    requires k < |js| && forall i | k < i < |js| :: js[i].id != js[k].id
    ensures js[k].id in Loaded(limit, js).jobs && Loaded(limit, js).jobs[js[k].id] == js[k]
  {
    var n := |js| - 1;
    if k < n {
      LoadedLast(limit, js[..n], k);
    }
  }

  lemma {:induction false} LeftShrinks(s: State, i: nat, m: nat)
    requires i <= m <= |s.finished|
    ensures Left(s, m) <= Left(s, i)
    decreases m
  {
    if i < m {
      LeftShrinks(s, i, m - 1);
    }
  }

  /** An end is trimmed away exactly if there are still too many jobs when its turn comes. */
  lemma TrimmedAway(limit: nat, js: seq<JobInfo>, k: nat)
    requires k < |js| && IsFinished(js[k].progress)
    ensures Position(limit, js, k) < Evicted(Loaded(limit, js), 0) <==> CutOff(limit, js, k)
  {
    var s, p := Loaded(limit, js), Position(limit, js, k);
    LoadedJobs(limit, js);
    PositionHolds(limit, js, k);
    LeftIs(s, p);
    assert Without(s, p).jobs.Keys == Ids(js) - EndedIds(js[..k]);
    assert TooMany(s, p) <==> CutOff(limit, js, k);
    if p < Evicted(s, 0) {
      EvictedOver(s, p);
    } else {
      EvictedEnough(s);
      LeftShrinks(s, Evicted(s, 0), p);
    }
  }

  /** The end at `k` stays in the queue, and that is right exactly if the job has no other end before and none after. */
  lemma RepeatedIsWrong(limit: nat, js: seq<JobInfo>, k: nat, m: nat)
    requires k < |js| && EndRepeated(js, k) && m <= Position(limit, js, k) && m <= |Loaded(limit, js).finished|
    ensures !Queued(Without(Loaded(limit, js), m))
  {
    var s := Loaded(limit, js);
    var t, p := Without(s, m), Position(limit, js, k);
    PositionHolds(limit, js, k);
    assert t.finished[p - m] == js[k].id;
    var i :| 0 <= i < |js| && i != k && js[i].id == js[k].id && (i < k ==> IsFinished(js[i].progress));
    if IsFinished(js[i].progress) {
      PositionHolds(limit, js, i);
      OtherEnd(limit, js, i, k);
      SecondPlace(s, Position(limit, js, i), p, m);
    } else {
      var l := LastEntry(js, i);
      if IsFinished(js[l].progress) {
        PositionHolds(limit, js, l);
        OtherEnd(limit, js, l, k);
        SecondPlace(s, Position(limit, js, l), p, m);
      } else {
        LoadedLast(limit, js, l);
        assert js[k].id in t.finished;
      }
    }
  }

  lemma OtherEnd(limit: nat, js: seq<JobInfo>, i: nat, k: nat)
    requires i < |js| && k < |js| && i != k && IsFinished(js[i].progress) && IsFinished(js[k].progress)
    ensures Position(limit, js, i) != Position(limit, js, k)
  {
    if i < k {
      PositionsGrow(limit, js, i, k);
    } else {
      PositionsGrow(limit, js, k, i);
    }
  }

  lemma {:induction false} LastEntry(js: seq<JobInfo>, i: nat) returns (l: nat)
    requires i < |js|
    ensures i <= l < |js| && js[l].id == js[i].id && forall j | l < j < |js| :: js[j].id != js[i].id
    decreases |js| - i
  {
    if j :| i < j < |js| && js[j].id == js[i].id {
      l := LastEntry(js, j);
    } else {
      l := i;
    }
  }

  /** A job with two places in the queue is wrong as long as the one at `p` is not trimmed away. */
  lemma SecondPlace(s: State, o: nat, p: nat, m: nat)
    requires o < |s.finished| && p < |s.finished| && o != p && s.finished[o] == s.finished[p] && m <= p
    ensures !Queued(Without(s, m))
  {
    var t := Without(s, m);
    assert t.finished[p - m] == s.finished[p];
    if o < m {
      assert s.finished[..m][o] == s.finished[o];
      assert s.finished[p] !in t.jobs;
    } else {
      assert t.finished[o - m] == s.finished[o];
    }
  }

  lemma DroppedIsGone(s: State, m: nat, p: nat)
    requires m <= |s.finished| && p < |s.finished|
    ensures p < m ==> s.finished[p] !in Without(s, m).jobs
  {
    if p < m {
      assert s.finished[..m][p] == s.finished[p];
    }
  }

  /**
   * If all ends that are left are the only ones of their jobs and the last that is heard of them,
   * the queue is right.
   */
  lemma OthersAreRight(limit: nat, js: seq<JobInfo>, m: nat)
    requires m <= |Loaded(limit, js).finished|
    requires forall k | 0 <= k < |js| && EndRepeated(js, k) :: Position(limit, js, k) < m
    ensures Queued(Without(Loaded(limit, js), m))
  {
    var s := Loaded(limit, js);
    var t := Without(s, m);
    forall p | m <= p < |s.finished| ensures OnlyPlace(s, p) {
      var k := LoadedFrom(limit, js, p);
      OnlyEnd(limit, js, k);
    }
    forall id | id in t.finished ensures id in t.jobs && IsFinished(t.jobs[id].progress) {
      var p :| 0 <= p < |t.finished| && t.finished[p] == id;
      assert OnlyPlace(s, m + p);
    }
    forall id | id in t.jobs && IsFinished(t.jobs[id].progress) ensures id in t.finished {
      FinishedIsQueued(limit, js, id);
      var p :| 0 <= p < |s.finished| && s.finished[p] == id;
      DroppedIsGone(s, m, p);
      assert t.finished[p - m] == id;
    }
    forall i, j | 0 <= i < j < |t.finished| ensures t.finished[i] != t.finished[j] {
      assert OnlyPlace(s, m + i) && t.finished[i] == s.finished[m + i] && t.finished[j] == s.finished[m + j];
    }
  }

  /** The job at this place is finished and has no other place. */
  ghost predicate OnlyPlace(s: State, p: nat)
    requires p < |s.finished|
  {
    && s.finished[p] in s.jobs && IsFinished(s.jobs[s.finished[p]].progress)
    && forall o | 0 <= o < |s.finished| && o != p :: s.finished[o] != s.finished[p]
  }

  lemma OnlyEnd(limit: nat, js: seq<JobInfo>, k: nat)
    requires k < |js| && IsFinished(js[k].progress) && !EndRepeated(js, k)
    ensures Position(limit, js, k) < |Loaded(limit, js).finished| &&
              OnlyPlace(Loaded(limit, js), Position(limit, js, k))
  {
    var s, p := Loaded(limit, js), Position(limit, js, k);
    PositionHolds(limit, js, k);
    LoadedLast(limit, js, k);
    forall o | 0 <= o < |s.finished| && o != p ensures s.finished[o] != s.finished[p] {
      var i := LoadedFrom(limit, js, o);
      PositionHolds(limit, js, i);
    }
  }

  lemma FinishedIsQueued(limit: nat, js: seq<JobInfo>, id: Id)
    requires id in Loaded(limit, js).jobs && IsFinished(Loaded(limit, js).jobs[id].progress)
    ensures id in Loaded(limit, js).finished
  {
    LoadedJobs(limit, js);
    var i :| 0 <= i < |js| && js[i].id == id;
    var l := LastEntry(js, i);
    LoadedLast(limit, js, l);
    PositionHolds(limit, js, l);
  }

  /**
   * Starting over leaves a right queue exactly if every end of a job that has another end before it,
   * or is listed again after it, is trimmed away: there are still too many jobs when all jobs that
   * ended before are gone.
   */
  lemma LoadedQueued(limit: nat, js: seq<JobInfo>)
    ensures Queued(Trimmed(Loaded(limit, js))) <==>
              forall k | 0 <= k < |js| && EndRepeated(js, k) :: CutOff(limit, js, k)
  {
    var s := Loaded(limit, js);
    LoadedJobs(limit, js);
    var m := Evicted(s, 0);
    forall k | 0 <= k < |js| && EndRepeated(js, k) ensures Position(limit, js, k) < m <==> CutOff(limit, js, k) {
      TrimmedAway(limit, js, k);
    }
    if k :| 0 <= k < |js| && EndRepeated(js, k) && !CutOff(limit, js, k) {
      RepeatedIsWrong(limit, js, k, m);
    } else {
      OthersAreRight(limit, js, m);
    }
  }

  /** No job comes again after it was finished. */
  ghost predicate NoneAfterEnd(js: seq<JobInfo>) {
    forall i, j | 0 <= i < j < |js| && js[i].id == js[j].id :: !IsFinished(js[i].progress)
  }

  /** If nothing is trimmed, this means that no job comes again after it was finished; in any case that is enough. */
  lemma LoadedInLimit(limit: nat, js: seq<JobInfo>)
    ensures NoneAfterEnd(js) ==> Queued(Trimmed(Loaded(limit, js)))
    ensures |Ids(js)| <= limit ==> (Queued(Trimmed(Loaded(limit, js))) <==> NoneAfterEnd(js))
  {
    LoadedQueued(limit, js);
    if |Ids(js)| <= limit && !NoneAfterEnd(js) {
      var i: nat, j: nat :| i < j < |js| && js[i].id == js[j].id && IsFinished(js[i].progress);
      assert EndRepeated(js, i);
      FewerIds(Ids(js), EndedIds(js[..i]));
    }
  }

  lemma FewerIds(a: set<Id>, b: set<Id>)
    ensures |a - b| <= |a|
  {
    assert a == (a - b) + (a * b);
  }

  // ---------------------------------------------------------------------
  // The tracker
  // ---------------------------------------------------------------------

  class JobInfoTracker {
    const limit: nat
    var jobs: map<Id, JobInfo>
    var finished: seq<Id>

    function Value(): State
      reads this
    {
      State(limit, jobs, finished)
    }

    constructor (limit: nat)
      ensures Value() == State(limit, map[], [])
    {
      this.limit := limit;
      jobs, finished := map[], [];
    }

    method Init(js: seq<JobInfo>)
      modifies this
      ensures Value() == Trimmed(Loaded(limit, js))
    {
      jobs, finished := map[], [];
      for i := 0 to |js|
        invariant Value() == Loaded(limit, js[..i])
      {
        assert js[..i + 1][..i] == js[..i];
        var info := js[i];
        if IsFinished(info.progress) {
          finished := finished + [info.id];
        }
        jobs := jobs[info.id := info];
      }
      assert js[..|js|] == js;
      Trim();
    }

    method Trim()
      modifies this
      ensures Value() == Trimmed(old(Value()))
    {
      ghost var s, m := Value(), 0;
      WithoutNone(s);
      while |jobs| > limit && finished != []
        invariant m <= |s.finished| && Value() == Without(s, m) && Evicted(s, 0) == Evicted(s, m)
        decreases |finished|
      {
        EvictedStep(s, m);
        LeftIs(s, m);
        WithoutOneMore(s, m);
        var key := finished[0];
        assert key == s.finished[m] && s.finished[m..][1..] == s.finished[m + 1..];
        finished := finished[1..];
        jobs := jobs - {key};
        m := m + 1;
      }
      EvictedStep(s, m);
      LeftIs(s, m);
    }

    /** Whether the notification was news. */
    method Update(n: Notification) returns (accepted: bool)
      modifies this
      ensures accepted == Accepts(old(Value()), n)
      ensures Value() == Updated(old(Value()), n)
    {
      match n {
        case New(id, job) =>
          if id !in jobs {
            jobs := jobs[id := JobInfo(id, job, Pending, None, None, 0)];
            Trim();
            return true;
          }
        case Start(id) =>
          if id in jobs && jobs[id].progress == Pending {
            jobs := jobs[id := jobs[id].(progress := Running)];
            return true;
          }
        case Finish(id, progress) =>
          if id in jobs && !IsFinished(jobs[id].progress) {
            jobs := jobs[id := jobs[id].(progress := progress, action := None)];
            finished := finished + [id];
            Trim();
            return true;
          }
        case UpdateAction(id, index, action) =>
          if id in jobs && jobs[id].progress == Running && jobs[id].notificationIndex < index {
            jobs := jobs[id := jobs[id].(notificationIndex := index, action := Some(action), byteProgress := None)];
            return true;
          }
        case UpdateByteCount(id, index, current, total) =>
          if id in jobs && jobs[id].progress == Running && jobs[id].notificationIndex < index {
            jobs := jobs[id := jobs[id].(notificationIndex := index, byteProgress := Some((current, total)))];
            return true;
          }
      }
      accepted := false;
    }

    /** The number of active jobs; nothing stands for a subtraction that goes below zero. */
    method ActiveLen() returns (n: Option<nat>)
      ensures n.None? <==> |finished| > |jobs|
      ensures n.Some? ==> n.value + |finished| == |jobs|
      ensures Queued(Value()) ==> n == Some(|Active(Value())|)
    {
      ghost var s := Value();
      if Queued(s) {
        ActiveLength(s);
      }
      n := if |finished| > |jobs| then None else Some(|jobs| - |finished|);
    }
  }

  lemma WithoutNone(s: State)
    ensures Without(s, 0) == s
  {
    assert s.finished[..0] == [] && s.finished[0..] == s.finished;
    assert Members([]) == {};
    assert s.jobs - {} == s.jobs;
  }
}
