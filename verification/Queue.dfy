/** The queue directory. */
module Queue {
  import opened Text
  import opened RowLog

  function FileName(t: TaskId): string { "task_" + t.id + ".json" }

  predicate NameLe(t: TaskId, u: TaskId) { TextLe(FileName(t), FileName(u)) }

  /** The file that comes first by name. */
  predicate IsFirst(files: set<TaskId>, t: TaskId) { t in files && forall u :: u in files ==> NameLe(t, u) }

  lemma {:induction false} SomeFileIsFirst(files: set<TaskId>)
    requires files != {}
    ensures exists t :: IsFirst(files, t)
    decreases |files|
  {
    hide TextLe;
    var x :| x in files;
    var rest := files - {x};
    TextLeTotal(FileName(x), FileName(x));
    if rest == {} {
      assert files == {x};
      assert IsFirst(files, x);
    } else {
      SomeFileIsFirst(rest);
      var first :| IsFirst(rest, first);
      TextLeTotal(FileName(x), FileName(first));
      if NameLe(first, x) {
        assert forall u :: u in files ==> u == x || u in rest;
        assert IsFirst(files, first);
      } else {
        forall u | u in files ensures NameLe(x, u) {
          if u in rest { TextLeTransitive(FileName(x), FileName(first), FileName(u)); }
        }
        assert IsFirst(files, x);
      }
    }
  }

  /** One file per task. */
  class TaskQueue {
    var files: set<TaskId>
    /** The timestamp in each document; None when the document cannot be read. */
    const timestampOf: TaskId -> Option<string>

    constructor (timestamps: TaskId -> Option<string>)
      ensures files == {} && timestampOf == timestamps
    {
      files, timestampOf := {}, timestamps;
    }

    predicate HasTask(t: TaskId) reads this { t in files }

    method ImportTask(t: TaskId)
      modifies this
      ensures files == old(files) + {t}
    {
      files := files + {t};
    }

    method RemoveTask(t: TaskId) returns (removed: bool)
      modifies this
      ensures removed == (t in old(files)) && files == old(files) - {t}
    {
      removed := t in files;
      files := files - {t};
    }

    /** The first file by name, when it loads; when it does not, it is set aside and nothing is handed out. */
    method GetNextTask() returns (task: Option<TaskId>)
      modifies this
      ensures old(files) == {} ==> task == None && files == {}
      ensures task.Some? ==> IsFirst(old(files), task.value) && files == old(files)
      ensures old(files) != {} && task == None ==>
        exists first :: IsFirst(old(files), first) && files == old(files) - {first}
    {
      if files == {} { return None; }
      SomeFileIsFirst(files);
      var first :| IsFirst(files, first);
      var loads: bool := *;
      if loads { return Some(first); }
      files := files - {first};
      return None;
    }

    /** Whether some other document carries the timestamp. */
    ghost predicate Stamped(u: TaskId, timestamp: string)
      reads this
    {
      u in files && timestampOf(u) == Some(timestamp)
    }

    /** Deletes the task's file; without one, one file with the same timestamp, if there is any. */
    method FinishTask(t: TaskId, timestamp: string)
      modifies this
      ensures t in old(files) ==> files == old(files) - {t}
      ensures t !in old(files) && (forall u :: !old(Stamped(u, timestamp))) ==> files == old(files)
      ensures t !in old(files) && (exists u :: old(Stamped(u, timestamp))) ==>
        exists u :: old(Stamped(u, timestamp)) && files == old(files) - {u}
    {
      if t in files {
        files := files - {t};
        return;
      }
      var candidates := files;
      while candidates != {}
        invariant candidates <= files == old(files)
        invariant forall u :: u in files - candidates ==> timestampOf(u) != Some(timestamp)
        decreases |candidates|
      {
        var candidate :| candidate in candidates;
        if timestampOf(candidate) == Some(timestamp) {
          assert old(Stamped(candidate, timestamp));
          files := files - {candidate};
          return;
        }
        candidates := candidates - {candidate};
      }
    }
  }
}
