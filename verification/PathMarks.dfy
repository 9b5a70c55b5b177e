/** Setting, clearing and looking up marks. */
module PathMarks {
  import opened Common
  import opened Paths
  import opened Directory
  import opened Cache
  import opened CacheInvariant
  import opened CacheLog
  import opened Marks
  import opened MarkDirty
  import opened Database
  import DirtyLog

  // ---------------------------------------------------------------------
  // The local index
  // ---------------------------------------------------------------------

  predicate DiffersAt(a: string, b: string, i: nat) {
    i <= |a| && i < |b| && a[..i] == b[..i] && (i == |a| || a[i] < b[i])
  }

  /** `a` comes before `b` in the order of the table. */
  predicate Before(a: string, b: string) {
    exists i | 0 <= i <= |a| :: DiffersAt(a, b, i)
  }

  /** The range that is searched ends before the prefix with a '0' added, the character after '/'. */
  predicate InRange(key: string, prefix: string) {
    (key == prefix || Before(prefix, key)) && Before(key, prefix + "0")
  }

  /** What the range leaves out is not at or below the prefix. */
  lemma RangeCoversPrefix(key: string, prefix: string)
    requires StartsWith(key, prefix)
    ensures InRange(key, prefix)
  {
    assert DiffersAt(key, prefix + "0", |prefix|);
    if key != prefix {
      assert DiffersAt(prefix, key, |prefix|);
    }
  }

  predicate Selected(key: string, path: Option<Path>) {
    match path
    case None => true
    case Some(prefix) => InRange(key, prefix) && StartsWith(key, prefix)
  }

  lemma SelectedIsBelow(q: Path, path: Option<Path>)
    ensures Selected(q, path) <==> AtOrAbove(path, Some(q))
  {
    if path.Some? && StartsWith(q, path.value) {
      RangeCoversPrefix(q, path.value);
    }
  }

  /** Marks the selected keys, one after the other. */
  method MarkSelected(index: set<string>, log: DirtyLog.Log, select: string -> bool)
    returns (r: DirtyLog.Log, ghost ps: seq<string>)
    ensures r == MarkedAll(log, ps) && forall q :: q in ps <==> q in index && select(q)
  {
    var left := index;
    r, ps := log, [];
    while left != {}
      invariant left <= index && r == MarkedAll(log, ps)
      invariant forall q :: q in ps <==> q in index && q !in left && select(q)
      decreases |left|
    {
      var key :| key in left;
      left := left - {key};
      if select(key) {
        assert (ps + [key])[..|ps|] == ps;
        r, ps := DirtyLog.MarkDirty(r, key), ps + [key];
      }
    }
  }

  /** Marks exactly the indexed paths at or below `path`. */
  method MarkIndexDirty(index: set<string>, log: DirtyLog.Log, path: Option<Path>)
    returns (r: DirtyLog.Log, ghost ps: seq<string>)
    ensures r == MarkedAll(log, ps)
    ensures forall q: Path :: q in ps <==> q in index && AtOrAbove(path, Some(q))
    ensures forall q | q in ps :: ValidPath(q)
  {
    r, ps := MarkSelected(index, log, key => Selected(key, path) && Parse(key).Ok?);
    forall q: Path ensures q in ps <==> q in index && AtOrAbove(path, Some(q)) {
      SelectedIsBelow(q, path);
    }
  }

  // ---------------------------------------------------------------------
  // Marks
  // ---------------------------------------------------------------------

  /** Every shown or indexed path whose mark is another one now was marked dirty since `c`. */
  ghost predicate ChangesAreDirty(c: Cache, index: set<string>, before: Table, after: Table, l: DirtyLog.Log) {
    forall q: Path | (IsShownPath(c, q) || q in index) && GetMark(before, Some(q)) != GetMark(after, Some(q)) ::
      MarkedSince(l, q, c.log.counter)
  }

  /** Only paths at or below `path` may have been marked. */
  ghost predicate OthersUnmarked(c: Cache, path: Option<Path>, l: DirtyLog.Log) {
    forall q: Path | !AtOrAbove(path, Some(q)) ::
      (q in l.dirty <==> q in c.log.dirty) && (q in l.dirty ==> l.dirty[q] == c.log.dirty[q])
  }

  /** `ps` are the shown and the indexed paths at or below `path`. */
  ghost predicate AllAffected(c: Cache, index: set<string>, path: Option<Path>, ps: seq<string>) {
    forall q: Path :: q in ps <==> Affected(c, path, q) || (q in index && AtOrAbove(path, Some(q)))
  }

  lemma MarkedOthers(c: Cache, index: set<string>, path: Option<Path>, ps: seq<string>)
    requires AllAffected(c, index, path, ps)
    ensures OthersUnmarked(c, path, MarkedAll(c.log, ps))
  {
    forall q: Path | !AtOrAbove(path, Some(q))
      ensures q in MarkedAll(c.log, ps).dirty <==> q in c.log.dirty
      ensures q in c.log.dirty ==> MarkedAll(c.log, ps).dirty[q] == c.log.dirty[q]
    {
      MarkedAllIsExact(c.log, ps, q);
    }
  }

  lemma SetMarkDirties(c: Cache, index: set<string>, marks: Table, path: Option<Path>, mark: Mark, ps: seq<string>)
    requires AllAffected(c, index, path, ps)
    ensures ChangesAreDirty(c, index, marks, marks[KeyOf(path) := mark], MarkedAll(c.log, ps))
  {
    var after := marks[KeyOf(path) := mark];
    forall q: Path | (IsShownPath(c, q) || q in index) && GetMark(marks, Some(q)) != GetMark(after, Some(q))
      ensures MarkedSince(MarkedAll(c.log, ps), q, c.log.counter)
    {
      SetMarkEffect(marks, path, mark, Some(q));
      MarkedAllIsExact(c.log, ps, q);
    }
  }

  lemma SetSameMark(c: Cache, index: set<string>, marks: Table, path: Option<Path>)
    ensures ChangesAreDirty(c, index, marks, marks[KeyOf(path) := GetMark(marks, path)], c.log)
  {
    forall q: Path ensures GetMark(marks[KeyOf(path) := GetMark(marks, path)], Some(q)) == GetMark(marks, Some(q)) {
      SetMarkEffect(marks, path, GetMark(marks, path), Some(q));
    }
  }

  lemma ClearSameMark(c: Cache, index: set<string>, marks: Table, path: Path)
    requires path in marks && GetMark(marks - {path}, Some(path)) == marks[path]
    ensures ChangesAreDirty(c, index, marks, marks - {path}, c.log)
  {
    forall q: Path ensures GetMark(marks - {path}, Some(q)) == GetMark(marks, Some(q)) {
      ClearMarkEffect(marks, path, Some(q));
    }
  }

  lemma ClearMarkDirties(c: Cache, index: set<string>, marks: Table, path: Path, ps: seq<string>)
    requires AllAffected(c, index, Some(path), ps) && path in marks
    ensures ChangesAreDirty(c, index, marks, marks - {path}, MarkedAll(c.log, ps))
  {
    forall q: Path | (IsShownPath(c, q) || q in index) && GetMark(marks, Some(q)) != GetMark(marks - {path}, Some(q))
      ensures MarkedSince(MarkedAll(c.log, ps), q, c.log.counter)
    {
      ClearMarkEffect(marks, path, Some(q));
      MarkedAllIsExact(c.log, ps, q);
    }
  }

  /** Walks up from the path to the root until it meets a mark. */
  method FindMark(marks: Table, path: Option<Path>) returns (mark: Mark)
    ensures mark == GetMark(marks, path)
  {
    var current := path;
    while true
      invariant GetMark(marks, path) == GetMark(marks, current)
      decreases Height(current), current.Some?
    {
      if KeyOf(current) in marks {
        return marks[KeyOf(current)];
      }
      match current {
        case None => return DEFAULT;
        case Some(p) =>
          ParentIsShorter(p);
          current := Parent(p);
      }
    }
  }

  class PathMarks {
    const db: ArenaDatabase

    constructor (db: ArenaDatabase)
      ensures this.db == db
    {
      this.db := db;
    }

    method MarkDirty(log: DirtyLog.Log, path: Option<Path>)
      returns (r: Result<DirtyLog.Log, StorageError>, ghost ps: seq<string>)
      requires InPlace(db.Contents()) && Rooted(db.tree)
      ensures r.Err? <==> Lookup(db.tree, Components(path)) == Err(NotADirectory)
      ensures r.Ok? ==> r.value == MarkedAll(log, ps) && AllAffected(db.Contents(), db.index, path, ps)
    {
      var log1, qs := MarkIndexDirty(db.index, log, path);
      var r2, rs := MarkDirtyRecursive(db.Contents(), log1, path);
      r, ps := r2, qs + rs;
      MarkedAllConcat(log, qs, rs);
    }

    /** The root has no path. */
    method SetMarkOrRoot(path: Option<Path>, mark: Mark) returns (r: Result<(), StorageError>)
      requires Consistent(db.Contents()) && Rooted(db.tree)
      modifies db`marks, db`dirty, db`dirtyLog, db`dirtyCounter, db`failedJobs
      ensures r.Err? ==> unchanged(db)
      ensures r.Err? <==>
                GetMark(old(db.marks), path) != mark && Lookup(db.tree, Components(path)) == Err(NotADirectory)
      ensures r.Ok? ==> db.marks == old(db.marks)[KeyOf(path) := mark]
      ensures ChangesAreDirty(old(db.Contents()), db.index, old(db.marks), db.marks, db.Log())
      ensures OthersUnmarked(old(db.Contents()), path, db.Log())
      ensures DirtyLog.Inverse(db.Log()) && DirtyLog.Bounded(db.Log())
    {
      var before := FindMark(db.marks, path);
      if before == mark {
        SetSameMark(db.Contents(), db.index, db.marks, path);
        db.marks := db.marks[KeyOf(path) := mark];
        return Ok(());
      }
      var marked, ps := MarkDirty(db.Log(), path);
      match marked {
        case Err(e) => r := Err(e);
        case Ok(log) =>
          SetMarkDirties(db.Contents(), db.index, db.marks, path, mark, ps);
          MarkedOthers(db.Contents(), db.index, path, ps);
          MarkedAllKeeps(db.Log(), ps);
          db.marks := db.marks[KeyOf(path) := mark];
          db.CommitLog(log);
          r := Ok(());
      }
    }

    method ClearMark(path: Path) returns (r: Result<(), StorageError>)
      requires Consistent(db.Contents()) && Rooted(db.tree)
      modifies db`marks, db`dirty, db`dirtyLog, db`dirtyCounter, db`failedJobs
      ensures r.Err? ==> unchanged(db)
      ensures r.Err? <==>
                && path in old(db.marks) && GetMark(old(db.marks) - {path}, Some(path)) != old(db.marks)[path]
                && Lookup(db.tree, Components(Some(path))) == Err(NotADirectory)
      ensures r.Ok? ==> db.marks == old(db.marks) - {path}
      ensures ChangesAreDirty(old(db.Contents()), db.index, old(db.marks), db.marks, db.Log())
      ensures OthersUnmarked(old(db.Contents()), Some(path), db.Log())
      ensures DirtyLog.Inverse(db.Log()) && DirtyLog.Bounded(db.Log())
    {
      if path !in db.marks {
        assert db.marks - {path} == db.marks;
        return Ok(());
      }
      var before := db.marks[path];
      var after := FindMark(db.marks - {path}, Some(path));
      if before == after {
        ClearSameMark(db.Contents(), db.index, db.marks, path);
        db.marks := db.marks - {path};
        return Ok(());
      }
      var marked, ps := MarkDirty(db.Log(), Some(path));
      match marked {
        case Err(e) => r := Err(e);
        case Ok(log) =>
          ClearMarkDirties(db.Contents(), db.index, db.marks, path, ps);
          MarkedOthers(db.Contents(), db.index, Some(path), ps);
          MarkedAllKeeps(db.Log(), ps);
          db.marks := db.marks - {path};
          db.CommitLog(log);
          r := Ok(());
      }
    }
  }
}
