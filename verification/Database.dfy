/** The tables of one arena, shared by everything that works on it. */
module Database {
  import opened Directory
  import opened Cache
  import Marks
  import DirtyLog

  class ArenaDatabase {
    // The cache of remote files.
    var tree: Tree
    var files: map<FileKey, FileEntry>
    var pendingCatchup: map<Unseen, Inode>
    var blobs: map<BlobId, BlobEntry>

    // The dirty-path log and the failed jobs.
    var dirty: map<string, nat>
    var dirtyLog: map<nat, string>
    var dirtyCounter: nat
    var failedJobs: map<nat, DirtyLog.Failure>

    // Marks, and the paths in the local index.
    var marks: Marks.Table
    var index: set<string>

    constructor (root: Inode)
      ensures Initial(Contents()) && tree.root == root && marks == map[] && index == {}
    {
      tree := Tree(root, root + 1, map[]);
      files, pendingCatchup, blobs := map[], map[], map[];
      dirty, dirtyLog, dirtyCounter, failedJobs := map[], map[], 0, map[];
      marks, index := map[], {};
    }

    function Log(): DirtyLog.Log
      reads this
    {
      DirtyLog.Log(dirty, dirtyLog, dirtyCounter, failedJobs)
    }

    function Contents(): Cache
      reads this
    {
      Cache(tree, files, pendingCatchup, blobs, Log())
    }

    /** Commits a transaction on the log. */
    method CommitLog(l: DirtyLog.Log)
      modifies `dirty, `dirtyLog, `dirtyCounter, `failedJobs
      ensures Log() == l
    {
      dirty, dirtyLog, dirtyCounter, failedJobs := l.dirty, l.log, l.counter, l.failed;
    }
  }
}
