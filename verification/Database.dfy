/** The database object: its two fields, the callback the file system owes it, the two files and the settled
    promises. */
module Database {
  import opened Collections
  import R = DatabaseRules

  class Database {
    var busy: bool
    var queue: seq<R.Op>
    var running: Option<R.Running>
    var path: R.File
    var tmp: R.File
    var settled: seq<R.Entry>

    ghost var init: R.File
    ghost var submitted: seq<R.Op>

    ghost function State(): R.State
      reads this
    {
      R.State(busy, queue, running, path, tmp, settled)
    }

    ghost predicate Valid()
      reads this
    {
      R.Inv(State(), init, submitted)
    }

    constructor (path: R.File, tmp: R.File)
      ensures Valid() && State() == R.Initial(path, tmp) && init == path && submitted == []
    {
      busy, queue, running, settled := false, [], None, [];
      this.path, this.tmp := path, tmp;
      init, submitted := path, [];
    }

    /** get and set differ only in the operation they run or queue. */
    method Submit(op: R.Op)
      requires Valid()
      modifies this
      ensures Valid() && State() == R.Step(old(State()), R.SubmitEvent(op))
      ensures init == old(init) && submitted == old(submitted) + [op]
    {
      R.StepKeepsInv(State(), R.SubmitEvent(op), init, submitted);
      submitted := submitted + [op];
      if busy {
        queue := queue + [op];
      } else {
        busy := true;
        Perform(op);
      }
    }

    method Perform(op: R.Op)
      modifies this`running
      ensures running == Some(R.Reading(op))
    {
      running := Some(R.Reading(op));
    }

    method FinishedOperation()
      modifies this`queue, this`busy, this`running
      ensures State() == R.FinishedOperation(old(State()))
    {
      if |queue| != 0 {
        var func := queue[0];
        queue := queue[1..];
        Perform(func);
      } else {
        busy, running := false, None;
      }
    }

    method Settle(outcome: R.Outcome)
      requires running.Some?
      modifies this`settled, this`queue, this`busy, this`running
      ensures State() == R.Settle(old(State()), outcome)
    {
      settled := settled + [R.Entry(running.value.op, outcome)];
      FinishedOperation();
    }

    /** The readFile callback, and what the promise chain does with the records. */
    method OnRead(ok: bool, moved: bool)
      requires Valid() && R.Enabled(State(), R.ReadEvent(ok, moved))
      modifies this
      ensures Valid() && State() == R.Step(old(State()), R.ReadEvent(ok, moved))
      ensures init == old(init) && submitted == old(submitted)
    {
      R.StepKeepsInv(State(), R.ReadEvent(ok, moved), init, submitted);
      var op := running.value.op;
      if !ok {
        Settle(R.Failed(false));
      } else if path.Garbage? {
        if moved { path := R.Absent; }
        Settle(R.Failed(moved));
      } else {
        var records := R.Records(path);
        match op
        case Get(key) => Settle(R.Got(R.Lookup(records, key)));
        case Set(key, value) =>
          records := records[key := value];
          running := Some(R.Writing(op, records));
      }
    }

    method OnWrite(ok: bool, partial: R.File)
      requires Valid() && R.Enabled(State(), R.WriteEvent(ok, partial))
      modifies this
      ensures Valid() && State() == R.Step(old(State()), R.WriteEvent(ok, partial))
      ensures init == old(init) && submitted == old(submitted)
    {
      R.StepKeepsInv(State(), R.WriteEvent(ok, partial), init, submitted);
      if ok {
        tmp := R.Doc(running.value.records);
        running := Some(R.Renaming(running.value.op, running.value.records));
      } else {
        tmp := partial;
        Settle(R.Failed(false));
      }
    }

    method OnRename(ok: bool)
      requires Valid() && R.Enabled(State(), R.RenameEvent(ok))
      modifies this
      ensures Valid() && State() == R.Step(old(State()), R.RenameEvent(ok))
      ensures init == old(init) && submitted == old(submitted)
    {
      R.StepKeepsInv(State(), R.RenameEvent(ok), init, submitted);
      if ok {
        path, tmp := tmp, R.Absent;
        Settle(R.Stored);
      } else {
        Settle(R.Failed(false));
      }
    }
  }
}
