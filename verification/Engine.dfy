/** The engine: what becomes of dirty paths and of the jobs they call for. */
module Engine {
  import opened Common
  import opened Paths
  import opened Directory
  import opened DirtyLog
  import opened Tables
  import opened Database
  import Streams

  // ---------------------------------------------------------------------
  // Loops over the log
  // ---------------------------------------------------------------------

  lemma PathsNext(l: Log, beg: nat, i: nat)
    requires beg <= i
    ensures PathsWithin(l, beg, i + 1) == PathsWithin(l, beg, i) + if i in l.log then {l.log[i]} else {}
  {
    forall c | c in l.log ensures Within(c, beg, i + 1) <==> Within(c, beg, i) || c == i {
    }
  }

  lemma RestNext<T>(m: map<nat, T>, beg: nat, i: nat)
    requires beg <= i
    ensures m - KeysWithin(m, beg, i + 1) == m - KeysWithin(m, beg, i) - {i}
  {
  }

  lemma DeleteRangeNext(l: Log, beg: nat, i: nat)
    requires beg <= i
    ensures var d := DeleteRange(l, beg, i);
            DeleteRange(l, beg, i + 1) ==
            Log(if i in d.log then d.dirty - {d.log[i]} else d.dirty, d.log - {i}, d.counter, d.failed - {i})
  {
    PathsNext(l, beg, i);
    RestNext(l.log, beg, i);
    RestNext(l.failed, beg, i);
    var d := DeleteRange(l, beg, i);
    assert i in d.log <==> i in l.log;
    assert l.dirty - (PathsWithin(l, beg, i) + if i in l.log then {l.log[i]} else {}) ==
           if i in d.log then d.dirty - {d.log[i]} else d.dirty;
  }

  method RemoveRange(l: Log, beg: nat, end: nat) returns (r: Log)
    ensures r == DeleteRange(l, beg, end)
  {
    r := l;
    if !(beg < end) {
      assert DeleteRange(l, beg, end) == l;
      return;
    }
    assert DeleteRange(l, beg, beg) == l;
    for i := beg to end
      invariant r == DeleteRange(l, beg, i)
    {
      DeleteRangeNext(l, beg, i);
      var dirty := if i in r.log then r.dirty - {r.log[i]} else r.dirty;
      r := Log(dirty, r.log - {i}, r.counter, r.failed - {i});
    }
  }

  /** Goes through the log from `start` on until an entry calls for a job, or finding out fails. */
  method Scan(known: Streams.Known, start: nat, jobs: Streams.Jobs) returns (r: Result<Streams.Scan, StorageError>)
    ensures r.Ok? ==> Streams.IsScan(jobs, known, start, r.value)
    ensures r.Err? ==> exists l :: Streams.FailsAt(jobs, known, start, l, r.error)
  {
    var log := known.cache.log.log;
    var keys := ListKeys(log, start);
    var last := None;
    for i := 0 to |keys|
      invariant last == if i == 0 then None else Some(keys[i - 1])
      invariant forall j | 0 <= j < i :: Streams.NoJob(jobs, known, log[keys[j]])
    {
      var counter := keys[i];
      last := Some(counter);
      ScannedSoFar(jobs, known, start, keys, i);
      match Parse(log[counter]) {
        case Err(_) =>
        case Ok(path) =>
          var found := jobs(known, path);
          if found.Err? {
            assert Streams.FailsAt(jobs, known, start, counter, found.error);
            return Err(found.error);
          }
          if found.value {
            return Ok(Streams.Scan(Some(counter), last));
          }
      }
    }
    if keys != [] {
      ScannedSoFar(jobs, known, start, keys, |keys| - 1);
    }
    return Ok(Streams.Scan(None, last));
  }

  lemma ScannedSoFar(jobs: Streams.Jobs, known: Streams.Known, start: nat, keys: seq<nat>, i: nat)
    requires KeysFrom(known.cache.log.log, start, keys) && i < |keys|
    requires forall j | 0 <= j < i :: Streams.NoJob(jobs, known, known.cache.log.log[keys[j]])
    ensures keys[i] in known.cache.log.log && start <= keys[i] && Streams.Jobless(jobs, known, start, keys[i])
    ensures i == |keys| - 1 ==> Streams.NothingFrom(known.cache, keys[i] + 1)
  {
    assert keys[i] in keys;
    forall k | k in known.cache.log.log && start <= k ensures k in keys {
    }
  }

  // ---------------------------------------------------------------------
  // Taking dirty paths
  // ---------------------------------------------------------------------

  /** All entries up to `last` leave the path table and the log. */
  function TakenUpTo(l: Log, last: nat): Log {
    Log(l.dirty - PathsWithin(l, 0, last + 1), l.log - KeysWithin(l.log, 0, last + 1), l.counter, l.failed)
  }

  /** No entry before `end` has a valid path. */
  ghost predicate Invalid(l: Log, end: nat, valid: string -> bool) {
    forall c | c in l.log && c < end :: !valid(l.log[c])
  }

  lemma TakenAgain(l: Log, last: nat, next: nat)
    requires last < next && next in l.log && forall c | c in l.log && last < c :: next <= c
    ensures Popped(TakenUpTo(l, last), next) == TakenUpTo(l, next)
  {
    forall c | c in l.log ensures Within(c, 0, next + 1) <==> Within(c, 0, last + 1) || c == next {
    }
    assert PathsWithin(l, 0, next + 1) == PathsWithin(l, 0, last + 1) + {l.log[next]};
    assert Popped(TakenUpTo(l, last), next).dirty == TakenUpTo(l, next).dirty;
    assert Popped(TakenUpTo(l, last), next).log == TakenUpTo(l, next).log;
  }

  lemma TakenNext(l: Log, last: nat, k: nat, valid: string -> bool)
    requires k in TakenUpTo(l, last).log && forall j | j in TakenUpTo(l, last).log :: k <= j
    requires Invalid(l, last + 1, valid)
    ensures k in l.log && TakenUpTo(l, last).log[k] == l.log[k]
    ensures Popped(TakenUpTo(l, last), k) == TakenUpTo(l, k)
    ensures TakenUpTo(l, k).log.Keys == TakenUpTo(l, last).log.Keys - {k}
    ensures Invalid(l, k, valid) && (!valid(l.log[k]) ==> Invalid(l, k + 1, valid))
  {
    forall c | c in l.log && last < c ensures k <= c {
      assert c in TakenUpTo(l, last).log;
    }
    TakenAgain(l, last, k);
    assert Popped(TakenUpTo(l, last), k).log.Keys == TakenUpTo(l, last).log.Keys - {k};
  }

  lemma TakenNothing(l: Log)
    requires Bounded(l)
    ensures TakenUpTo(l, 0) == l
  {
    assert PathsWithin(l, 0, 1) == {};
  }

  lemma TakenEverything(l: Log, last: nat, valid: string -> bool)
    requires Invalid(l, last + 1, valid) && TakenUpTo(l, last).log.Keys == {}
    ensures TakenUpTo(l, last).log == map[] && Invalid(l, l.counter + 1, valid)
  {
    forall c | c in l.log ensures c <= last {
      assert c > last ==> c in TakenUpTo(l, last).log.Keys;
    }
  }

  /** Pops entries until one has a valid path. */
  method TakeFirst(l: Log, valid: string -> bool) returns (r: Log, taken: Option<nat>)
    requires Bounded(l)
    ensures taken.None? ==> r.log == map[] && Invalid(l, l.counter + 1, valid)
    ensures taken.Some? ==> taken.value in l.log && valid(l.log[taken.value]) && Invalid(l, taken.value, valid)
    ensures taken.Some? ==> r == TakenUpTo(l, taken.value)
    ensures r.failed == l.failed
  {
    ghost var last := 0;
    r, taken := l, None;
    TakenNothing(l);
    while r.log.Keys != {}
      invariant r == TakenUpTo(l, last) && Invalid(l, last + 1, valid)
      decreases r.log.Keys
    {
      var k := Least(r.log.Keys);
      var path := r.log[k];
      TakenNext(l, last, k, valid);
      r, last := Popped(r, k), k;
      if valid(path) {
        return r, Some(k);
      }
    }
    TakenEverything(l, last, valid);
  }

  // ---------------------------------------------------------------------
  // The tables
  // ---------------------------------------------------------------------

  class DirtyPaths {
    const db: ArenaDatabase

    constructor (db: ArenaDatabase)
      ensures this.db == db
    {
      this.db := db;
    }

    /** Gives the path a new counter, in place of the one it has. */
    method MarkDirty(path: Path)
      modifies db`dirty, db`dirtyLog, db`dirtyCounter, db`failedJobs
      ensures db.Log() == DirtyLog.MarkDirty(old(db.Log()), path)
    {
      var counter := db.dirtyCounter + 1;
      db.dirtyCounter := counter;
      db.dirtyLog := db.dirtyLog[counter := path];
      var had := path in db.dirty;
      var prev := if had then db.dirty[path] else 0;
      db.dirty := db.dirty[path := counter];
      if had {
        db.dirtyLog := db.dirtyLog - {prev};
        db.failedJobs := db.failedJobs - {prev};
      }
    }

    method ClearDirty(path: Path)
      modifies db`dirty, db`dirtyLog, db`failedJobs
      ensures db.Log() == DirtyLog.ClearDirty(old(db.Log()), path)
    {
      if path in db.dirty {
        var counter := db.dirty[path];
        db.dirty := db.dirty - {path};
        db.dirtyLog := db.dirtyLog - {counter};
        db.failedJobs := db.failedJobs - {counter};
      }
    }

    /** Takes the first entry with a valid path; entries before it go as well, failures stay. */
    method TakeDirty() returns (taken: Option<(Path, nat)>)
      requires Bounded(db.Log())
      modifies db`dirty, db`dirtyLog, db`dirtyCounter, db`failedJobs
      ensures db.failedJobs == old(db.failedJobs)
      ensures taken.None? ==> db.dirtyLog == map[] && Invalid(old(db.Log()), old(db.dirtyCounter) + 1, ValidPath)
      ensures taken.Some? ==>
                && taken.value.1 in old(db.dirtyLog) && old(db.dirtyLog)[taken.value.1] == taken.value.0
                && Invalid(old(db.Log()), taken.value.1, ValidPath)
                && db.Log() == TakenUpTo(old(db.Log()), taken.value.1)
    {
      var log, k := TakeFirst(db.Log(), ValidPath);
      taken := match k case None => None case Some(c) => Some((db.dirtyLog[c], c));
      db.CommitLog(log);
    }
  }

  class Engine {
    const db: ArenaDatabase
    const strategy: Strategy

    constructor (db: ArenaDatabase, strategy: Strategy)
      ensures this.db == db && this.strategy == strategy
    {
      this.db := db;
      this.strategy := strategy;
    }

    method JobDone(job: nat)
      modifies db`dirty, db`dirtyLog, db`failedJobs
      ensures db.Log() == DirtyLog.JobDone(old(db.Log()), job)
    {
      if job in db.dirtyLog {
        var removed := db.dirtyLog[job];
        db.dirtyLog := db.dirtyLog - {job};
        db.failedJobs := db.failedJobs - {job};
        db.dirty := db.dirty - {removed};
      }
    }

    /** When the job is to be retried, or nothing if it is given up or was none. */
    method JobFailed(job: nat, now: nat) returns (backoffUntil: Option<nat>)
      modifies db`dirty, db`dirtyLog, db`failedJobs
      ensures (db.Log(), backoffUntil) == DirtyLog.JobFailed(old(db.Log()), job, now, strategy)
    {
      if job !in db.dirtyLog {
        return None;
      }
      var path := db.dirtyLog[job];
      var count := if job in db.failedJobs then db.failedJobs[job].count + 1 else 1;
      match strategy(count) {
        case None =>
          db.dirtyLog := db.dirtyLog - {job};
          db.failedJobs := db.failedJobs - {job};
          db.dirty := db.dirty - {path};
          backoffUntil := None;
        case Some(delay) =>
          db.failedJobs := db.failedJobs[job := Failure(count, Stored(now + delay))];
          backoffUntil := Some(now + delay);
      }
    }

    method NextJob(start: nat, tables: Streams.Tables, jobs: Streams.Jobs)
      returns (r: Result<Streams.Scan, StorageError>)
      ensures r.Ok? ==> Streams.IsScan(jobs, Streams.Known(db.Contents(), tables), start, r.value)
      ensures r.Err? ==> exists l :: Streams.FailsAt(jobs, Streams.Known(db.Contents(), tables), start, l, r.error)
    {
      var known := Streams.Known(db.Contents(), tables);
      r := Scan(known, start, jobs);
      if r.Err? {
        ghost var l :| Streams.FailsAt(jobs, known, start, l, r.error);
        assert Streams.FailsAt(jobs, Streams.Known(db.Contents(), tables), start, l, r.error);
      }
    }

    method DeleteRange(beg: nat, end: nat)
      modifies db`dirty, db`dirtyLog, db`dirtyCounter, db`failedJobs
      ensures db.Log() == DirtyLog.DeleteRange(old(db.Log()), beg, end)
    {
      var log := RemoveRange(db.Log(), beg, end);
      db.CommitLog(log);
    }
  }
}
