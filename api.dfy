/**
 * The mock back end of src/api/index.ts: one shared product list and one
 * shared task list, read by getProducts / getTasks and updated in place by
 * completeTask. The module-level arrays become the two array fields of a
 * store object; the simulated network delay is not modelled, so every
 * operation is synchronous.
 */
module Api {
  import opened Types
  import opened Wrappers
  import opened TaskTable
  import MockData

  class MockStore {
    /** The shared product list; nothing ever writes it. */
    const products: array<Product>
    /** The shared task list; completeTask writes one slot of it. */
    const tasks: array<Task>

    /** A store holding the given records, in the given order. */
    constructor (seedProducts: seq<Product>, seedTasks: seq<Task>)
      ensures fresh(products) && fresh(tasks)
      ensures products[..] == seedProducts && tasks[..] == seedTasks
    {
      products := new Product[|seedProducts|](i requires 0 <= i < |seedProducts| => seedProducts[i]);
      tasks := new Task[|seedTasks|](i requires 0 <= i < |seedTasks| => seedTasks[i]);
    }

    /** The store as the application starts it, from the seed data. */
    constructor Seeded()
      ensures fresh(products) && fresh(tasks)
      ensures products[..] == MockData.SeedProducts() && tasks[..] == MockData.SeedTasks()
    {
      var ps := MockData.SeedProducts();
      var ts := MockData.SeedTasks();
      products := new Product[|ps|](i requires 0 <= i < |ps| => ps[i]);
      tasks := new Task[|ts|](i requires 0 <= i < |ts| => ts[i]);
    }

    /** getProducts: the shared product list itself, not a copy. */
    method GetProducts() returns (r: array<Product>)
      ensures r == products
    {
      r := products;
    }

    /** getTasks: the shared task list itself, so later completions show through it. */
    method GetTasks() returns (r: array<Task>)
      ensures r == tasks
    {
      r := tasks;
    }

    /** The search done by mockTasks.find: the first position whose id is taskId. */
    method FindIndex(taskId: string) returns (r: Option<nat>)
      ensures r == FirstIndexOf(tasks[..], taskId)
      ensures r.Some? ==> r.value < tasks.Length && tasks[r.value].id == taskId
    {
      var i := 0;
      while i < tasks.Length
        invariant 0 <= i <= tasks.Length
        invariant forall j :: 0 <= j < i ==> tasks[j].id != taskId
      {
        if tasks[i].id == taskId {
          return Some(i);
        }
        i := i + 1;
      }
      return None;
    }

    /**
     * completeTask: set the status of the first task with id taskId to
     * Completed and hand that record back, or fail with "Task not found"
     * and change nothing.
     */
    method CompleteTask(taskId: string) returns (r: Result<Task, ApiError>)
      modifies tasks
      ensures tasks[..] == AfterComplete(old(tasks[..]), taskId)
      ensures r == CompleteResult(old(tasks[..]), taskId)
      ensures r.Ok? ==> r.value.id == taskId && r.value.status == Completed
      ensures r.Ok? <==> exists j :: 0 <= j < tasks.Length && old(tasks[j]).id == taskId
      ensures r.Err? ==> r.error == Error("Task not found") && tasks[..] == old(tasks[..])
      ensures StatusOnlyAdvances(old(tasks[..]), tasks[..])
      ensures unchanged(products)
    {
      ghost var before := tasks[..];
      CompleteSucceedsIffPresent(before, taskId);
      CompleteOnlyAdvances(before, taskId);
      var found := FindIndex(taskId);
      match found
      case None =>
        r := Err(TaskNotFound);
      case Some(i) =>
        tasks[i] := tasks[i].(status := Completed);
        r := Ok(tasks[i]);
        assert tasks[..] == before[i := before[i].(status := Completed)];
    }
  }
}
