/** The seed-data scenarios for completeTask, on the task list and on a running store. */
module Scenarios {
  import opened Types
  import opened Wrappers
  import opened TaskTable
  import opened MockData
  import opened Api

  /** Completing "1" on the seed turns the statuses pending, pending, completed into completed, pending, completed. */
  lemma SeedCompleteFirst()
    ensures CompleteResult(SeedTasks(), "1") ==
      Ok(Task("1", "Review Contract Terms", "Read and understand contract details for Product A",
              Completed, "2025-07-25"))
    ensures |AfterComplete(SeedTasks(), "1")| == 3
    ensures AfterComplete(SeedTasks(), "1")[0].status == Completed
    ensures AfterComplete(SeedTasks(), "1")[1] == SeedTasks()[1]
    ensures AfterComplete(SeedTasks(), "1")[2] == SeedTasks()[2]
  {
    CompleteTargetsOwnRecord(SeedTasks(), 0);
  }

  /** Completing "99" on the seed fails with "Task not found" and leaves the list as seeded. */
  lemma SeedCompleteMissing()
    ensures CompleteResult(SeedTasks(), "99") == Err(Error("Task not found"))
    ensures AfterComplete(SeedTasks(), "99") == SeedTasks()
  {
    CompleteMissingIsError(SeedTasks(), "99");
  }

  /**
   * On a running store: a list obtained from getTasks before completing "1"
   * shows task "1" completed afterwards, because it is the shared list; a
   * second completion succeeds again; "99" fails; products are untouched.
   */
  method SeededStoreSession() returns (first: Result<Task, ApiError>, second: Result<Task, ApiError>,
                                       missing: Result<Task, ApiError>, statuses: seq<Status>,
                                       productsAfter: seq<Product>)
    ensures first.Ok? && first.value.id == "1" && first.value.status == Completed
    ensures second == first
    ensures missing == Err(Error("Task not found"))
    ensures statuses == [Completed, Pending, Completed]
    ensures productsAfter == SeedProducts()
  {
    var store := new MockStore.Seeded();
    var listed := store.GetTasks();
    SeedCompleteFirst();
    first := store.CompleteTask("1");
    CompleteIdempotent(SeedTasks(), "1");
    second := store.CompleteTask("1");
    SeedCompleteMissing();
    missing := store.CompleteTask("99");
    var products := store.GetProducts();
    productsAfter := products[..];
    statuses := [listed[0].status, listed[1].status, listed[2].status];
  }
}
