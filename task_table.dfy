/**
 * The task list as a value, and what completing a task does to it.
 * These functions specify the store in src/api/index.ts; the class
 * Api.MockStore is proved against them.
 */
module TaskTable {
  import opened Types
  import opened Wrappers

  /** The single error the store reports, with the message it carries. */
  datatype ApiError = Error(message: string)

  const TaskNotFound: ApiError := Error("Task not found")

  /**
   * The position of the first task whose id is taskId, scanning from the front,
   * as Array.prototype.find does; None when no task has that id.
   */
  function FirstIndexOf(tasks: seq<Task>, taskId: string): (r: Option<nat>)
    ensures r.Some? ==> r.value < |tasks| && tasks[r.value].id == taskId
    ensures r.Some? ==> forall j :: 0 <= j < r.value ==> tasks[j].id != taskId
    ensures r.None? <==> forall j :: 0 <= j < |tasks| ==> tasks[j].id != taskId
  {
    if |tasks| == 0 then None
    else if tasks[0].id == taskId then Some(0)
    else match FirstIndexOf(tasks[1..], taskId)
      case None => None
      case Some(k) => Some(k + 1)
  }

  /** The task list after completing taskId: the first match gets status Completed. */
  function AfterComplete(tasks: seq<Task>, taskId: string): (r: seq<Task>)
    ensures |r| == |tasks|
    ensures forall j :: 0 <= j < |tasks| ==> SameRecordButStatus(tasks[j], r[j])
  {
    match FirstIndexOf(tasks, taskId)
    case None => tasks
    case Some(i) => tasks[i := tasks[i].(status := Completed)]
  }

  /** What completing taskId hands back to the caller: the updated record, or the not-found error. */
  function CompleteResult(tasks: seq<Task>, taskId: string): (r: Result<Task, ApiError>)
    ensures r.Ok? ==> r.value.id == taskId && r.value.status == Completed
    ensures r.Err? ==> r.error == TaskNotFound
  {
    match FirstIndexOf(tasks, taskId)
    case None => Err(TaskNotFound)
    case Some(i) => Ok(tasks[i].(status := Completed))
  }

  /** The list of successive completions of ids, one call after another. */
  function CompleteEach(tasks: seq<Task>, ids: seq<string>): (r: seq<Task>)
    ensures |r| == |tasks|
    decreases |ids|
  {
    if |ids| == 0 then tasks else CompleteEach(AfterComplete(tasks, ids[0]), ids[1..])
  }

  /**
   * after is before with every record kept in place, every field but the
   * status unchanged, and no Completed status turned back into Pending.
   */
  predicate StatusOnlyAdvances(before: seq<Task>, after: seq<Task>)
  {
    |before| == |after| &&
    forall j :: 0 <= j < |before| ==>
      SameRecordButStatus(before[j], after[j]) &&
      (before[j].status == Completed ==> after[j].status == Completed)
  }

  /** No two tasks share an id; the seed data has this, the code does not enforce it. */
  predicate UniqueIds(tasks: seq<Task>)
  {
    forall i, j :: 0 <= i < j < |tasks| ==> tasks[i].id != tasks[j].id
  }

  // ---------------------------------------------------------------------------
  // Completing a task that exists

  /** Completing succeeds exactly when some task carries the id, and then hands back a completed record with that id. */
  lemma CompleteSucceedsIffPresent(tasks: seq<Task>, taskId: string)
    ensures CompleteResult(tasks, taskId).Ok? <==> exists j :: 0 <= j < |tasks| && tasks[j].id == taskId
    ensures CompleteResult(tasks, taskId).Ok? ==>
      CompleteResult(tasks, taskId).value.id == taskId &&
      CompleteResult(tasks, taskId).value.status == Completed
  {
    match FirstIndexOf(tasks, taskId)
    case None =>
    case Some(i) =>
      assert tasks[i].id == taskId;
  }

  /**
   * Completing changes exactly one record, the first with the id: it becomes
   * the returned record, and every other record is what it was.
   */
  lemma CompleteChangesOnlyFirstMatch(tasks: seq<Task>, taskId: string, i: nat)
    requires FirstIndexOf(tasks, taskId) == Some(i)
    ensures |AfterComplete(tasks, taskId)| == |tasks|
    ensures CompleteResult(tasks, taskId) == Ok(AfterComplete(tasks, taskId)[i])
    ensures AfterComplete(tasks, taskId)[i].status == Completed
    ensures SameRecordButStatus(tasks[i], AfterComplete(tasks, taskId)[i])
    ensures forall j :: 0 <= j < |tasks| && j != i ==> AfterComplete(tasks, taskId)[j] == tasks[j]
  {
  }

  /** Completing keeps the length, the order and every field but the status, and never reopens a task. */
  lemma CompleteOnlyAdvances(tasks: seq<Task>, taskId: string)
    ensures StatusOnlyAdvances(tasks, AfterComplete(tasks, taskId))
  {
    match FirstIndexOf(tasks, taskId)
    case None =>
    case Some(i) =>
      CompleteChangesOnlyFirstMatch(tasks, taskId, i);
  }

  // ---------------------------------------------------------------------------
  // Completing a task that does not exist

  /** An unknown id fails with "Task not found" and leaves the list as it was. */
  lemma CompleteMissingIsError(tasks: seq<Task>, taskId: string)
    requires forall j :: 0 <= j < |tasks| ==> tasks[j].id != taskId
    ensures CompleteResult(tasks, taskId) == Err(Error("Task not found"))
    ensures AfterComplete(tasks, taskId) == tasks
  {
  }

  // ---------------------------------------------------------------------------
  // Idempotence

  /** The first match of an id depends only on the ids, so rewriting statuses does not move it. */
  lemma FirstIndexOfIgnoresStatus(a: seq<Task>, b: seq<Task>, taskId: string)
    requires |a| == |b| && forall j :: 0 <= j < |a| ==> SameRecordButStatus(a[j], b[j])
    ensures FirstIndexOf(a, taskId) == FirstIndexOf(b, taskId)
  {
  }

  /** A second completion of the same id changes nothing more and hands back the same record. */
  lemma CompleteIdempotent(tasks: seq<Task>, taskId: string)
    ensures AfterComplete(AfterComplete(tasks, taskId), taskId) == AfterComplete(tasks, taskId)
    ensures CompleteResult(AfterComplete(tasks, taskId), taskId) == CompleteResult(tasks, taskId)
  {
    CompleteOnlyAdvances(tasks, taskId);
    FirstIndexOfIgnoresStatus(tasks, AfterComplete(tasks, taskId), taskId);
  }

  // ---------------------------------------------------------------------------
  // Runs of completions

  lemma StatusOnlyAdvancesTransitive(a: seq<Task>, b: seq<Task>, c: seq<Task>)
    requires StatusOnlyAdvances(a, b) && StatusOnlyAdvances(b, c)
    ensures StatusOnlyAdvances(a, c)
  {
  }

  /** However many completions run, no record moves, no field but the status changes, and no task is reopened. */
  lemma {:induction false} CompleteEachOnlyAdvances(tasks: seq<Task>, ids: seq<string>)
    ensures StatusOnlyAdvances(tasks, CompleteEach(tasks, ids))
    decreases |ids|
  {
    if |ids| > 0 {
      var next := AfterComplete(tasks, ids[0]);
      CompleteOnlyAdvances(tasks, ids[0]);
      CompleteEachOnlyAdvances(next, ids[1..]);
      StatusOnlyAdvancesTransitive(tasks, next, CompleteEach(next, ids[1..]));
    }
  }

  /** After a run of completions, the first task with each id in the run is completed. */
  lemma {:induction false} CompleteEachCompletesEveryId(tasks: seq<Task>, ids: seq<string>, k: nat, i: nat)
    requires k < |ids|
    requires FirstIndexOf(tasks, ids[k]) == Some(i)
    ensures i < |CompleteEach(tasks, ids)| && CompleteEach(tasks, ids)[i].status == Completed
    decreases |ids|
  {
    var next := AfterComplete(tasks, ids[0]);
    var last := CompleteEach(next, ids[1..]);
    assert CompleteEach(tasks, ids) == last;
    if k == 0 {
      CompleteChangesOnlyFirstMatch(tasks, ids[0], i);
      assert next[i].status == Completed;
      CompleteEachOnlyAdvances(next, ids[1..]);
      assert last[i].status == Completed;
    } else {
      FirstIndexOfIgnoresStatus(tasks, next, ids[k]);
      assert ids[1..][k - 1] == ids[k];
      CompleteEachCompletesEveryId(next, ids[1..], k - 1, i);
    }
  }

  // ---------------------------------------------------------------------------
  // Duplicate ids

  /** With unique ids, completing the id of any task completes that very task. */
  lemma CompleteTargetsOwnRecord(tasks: seq<Task>, k: nat)
    requires UniqueIds(tasks) && k < |tasks|
    ensures FirstIndexOf(tasks, tasks[k].id) == Some(k)
    ensures AfterComplete(tasks, tasks[k].id)[k].status == Completed
  {
    var r := FirstIndexOf(tasks, tasks[k].id);
    assert r.Some?;
  }

  /** Completing keeps the ids where they are, so unique ids stay unique. */
  lemma CompletePreservesUniqueIds(tasks: seq<Task>, taskId: string)
    requires UniqueIds(tasks)
    ensures UniqueIds(AfterComplete(tasks, taskId))
  {
    CompleteOnlyAdvances(tasks, taskId);
  }

  /**
   * Ids are not checked for uniqueness: when a task shares its id with an
   * earlier one, no run of completions ever changes it, since every
   * completion of that id stops at the earlier task.
   */
  lemma {:induction false} DuplicateIdShadowsLaterTask(tasks: seq<Task>, ids: seq<string>, i: nat, j: nat)
    requires i < j < |tasks| && tasks[i].id == tasks[j].id
    ensures j < |CompleteEach(tasks, ids)| && CompleteEach(tasks, ids)[j] == tasks[j]
    decreases |ids|
  {
    if |ids| > 0 {
      var next := AfterComplete(tasks, ids[0]);
      CompleteOnlyAdvances(tasks, ids[0]);
      var first := FirstIndexOf(tasks, ids[0]);
      if first.Some? {
        CompleteChangesOnlyFirstMatch(tasks, ids[0], first.value);
      }
      assert next[j] == tasks[j];
      DuplicateIdShadowsLaterTask(next, ids[1..], i, j);
    }
  }
}
