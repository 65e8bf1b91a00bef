/** The watermark register, kept in a database of its own (src/sync/progress_store.rs). */
module ProgressStore {
  import opened MachineInts

  datatype LastCheckpointSync = LastCheckpointSync(sequenceNumber: i64, taskId: string)

  type Rows = map<string, LastCheckpointSync>

  function LoadFrom(rows: Rows, task: string): u64 {
    if task in rows then AsU64(rows[task].sequenceNumber) else 0
  }

  function SaveTo(rows: Rows, task: string, number: u64): Rows {
    rows[task := LastCheckpointSync(AsI64(number), task)]
  }

  datatype SaveCall = SaveCall(task: string, number: u64)

  function SaveAll(rows: Rows, saves: seq<SaveCall>): Rows {
    if saves == [] then rows
    else
      var n := |saves| - 1;
      SaveTo(SaveAll(rows, saves[..n]), saves[n].task, saves[n].number)
  }

  ghost predicate IsLastSave(saves: seq<SaveCall>, task: string, k: nat) {
    && k < |saves|
    && saves[k].task == task
    && forall j | k < j < |saves| :: saves[j].task != task
  }

  /** `load` returns what was last saved for its own task, for every u64, and 0 before any save. */
  lemma {:induction false} LoadReturnsLastSave(saves: seq<SaveCall>, task: string)
    ensures forall k: nat | IsLastSave(saves, task, k) :: LoadFrom(SaveAll(map[], saves), task) == saves[k].number
    ensures (forall s <- saves :: s.task != task) ==> LoadFrom(SaveAll(map[], saves), task) == 0
  {
    if saves == [] {
    } else {
      var n := |saves| - 1;
      var init := saves[..n];
      assert saves[n] in saves;
      LoadReturnsLastSave(init, task);
      if saves[n].task == task {
        assert forall k: nat | IsLastSave(saves, task, k) :: k == n;
      } else {
        assert forall s <- init :: s in saves;
        forall k: nat | IsLastSave(saves, task, k) ensures IsLastSave(init, task, k) {
          assert k != n;
        }
      }
    }
  }

  class SqliteProgressStore {
    var rows: Rows
    ghost var saves: seq<SaveCall> // the calls of `Save` so far

    ghost predicate Valid()
      reads this
    {
      rows == SaveAll(map[], saves)
    }

    constructor ()
      ensures Valid() && saves == []
    {
      rows, saves := map[], [];
    }

    /** The number of the last save for `task`, or 0 if there was none. */
    method Load(task: string) returns (number: u64)
      requires Valid()
      ensures forall k: nat | IsLastSave(saves, task, k) :: number == saves[k].number
      ensures (forall s <- saves :: s.task != task) ==> number == 0
    {
      LoadReturnsLastSave(saves, task);
      number := 0;
      if task in rows {
        number := AsU64(rows[task].sequenceNumber);
      }
    }

    /** The row of `task` now reads back as `number`; the rows of the other tasks are as they were. */
    method Save(task: string, number: u64)
      requires Valid()
      modifies this
      ensures Valid() && saves == old(saves) + [SaveCall(task, number)]
      ensures LoadFrom(rows, task) == number
      ensures forall other | other != task :: LoadFrom(rows, other) == old(LoadFrom(rows, other))
    {
      rows := rows[task := LastCheckpointSync(AsI64(number), task)];
      saves := saves + [SaveCall(task, number)];
      assert saves[..|saves| - 1] == old(saves);
    }
  }
}
