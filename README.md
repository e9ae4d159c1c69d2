# Mock task store — Dafny model

This project models the mock back end of a small task/product web front end
(`src/api/index.ts`). The back end keeps two shared, module-level lists, the
products and the tasks, seeded from static data (`src/mock/data.ts`). It offers
three operations:

- `getProducts` returns the shared product list. Nothing ever writes it.
- `getTasks` returns the shared task list.
- `completeTask(taskId)` finds the first task whose id is `taskId` and sets its
  status to `completed` in place. It then returns that record. When no task has
  that id, it throws `Error('Task not found')`.

Layout:

- `types.dfy` (module `Types`): the `Task` and `Product` records, and `Status = Pending | Completed`.
- `mock_data.dfy` (module `MockData`): the seed data.
- `wrappers.dfy` (module `Wrappers`): `Option` and `Result`.
- `task_table.dfy` (module `TaskTable`): the task list as a value. It holds the
  specification functions and the lemmas about them:
  - `FirstIndexOf` is the search that `find` performs.
  - `AfterComplete` is the list after a completion.
  - `CompleteResult` is what the caller gets back.
  - `CompleteEach` is a run of successive completions.
- `api.dfy` (module `Api`): class `MockStore`. Its two array fields are the
  shared lists. `GetTasks` and `GetProducts` hand back the arrays themselves,
  not copies, as the TypeScript returns the module-level arrays. So a list
  obtained earlier shows later completions. `CompleteTask` writes one slot of
  the task array. It is proved against `AfterComplete` and `CompleteResult`.
- `scenarios.dfy` (module `Scenarios`): the seed-data scenarios.

Task ids are NOT assumed unique. Nothing in the code makes ids unique, and
`find` takes the first match. `DuplicateIdShadowsLaterTask` shows the
consequence: when a task shares its id with an earlier one, no run of
completions ever changes it.
`CompleteTargetsOwnRecord` shows that with unique ids every task can be.

## Model

| member | source | states |
|---|---|---|
| `MockData.SeedProducts` | src/mock/data.ts:3-25 | the three seeded products, all with non-negative prices |
| `MockData.SeedTasks` | src/mock/data.ts:27-49 | the three seeded tasks, whose ids are pairwise distinct |
| `TaskTable.FirstIndexOf` | src/api/index.ts:19 | the result is the first position whose id equals `taskId`: it matches, no earlier position matches, and None exactly when no position matches |
| `TaskTable.AfterComplete` | src/api/index.ts:19-21 | the task list after `completeTask`: same length, and every record keeps all fields but its status; which slot changes, and how, is proved in `CompleteChangesOnlyFirstMatch`, `CompleteMissingIsError` and `CompleteIdempotent` |
| `TaskTable.CompleteResult` | src/api/index.ts:19-22 | what `completeTask` returns or throws: a success carries the id asked for and status Completed, a failure is "Task not found"; `CompleteSucceedsIffPresent` proves when each happens and `CompleteChangesOnlyFirstMatch` that the record is the stored one |
| `TaskTable.CompleteEach` | src/api/index.ts:17-23 | a run of successive `completeTask` calls keeps the list's length; `CompleteEachOnlyAdvances`, `CompleteEachCompletesEveryId` and `DuplicateIdShadowsLaterTask` state what it does to the records |
| `TaskTable.CompleteSucceedsIffPresent` | src/api/index.ts:19-22 | completion succeeds if and only if some task has the id; on success the returned record has that id and status Completed |
| `TaskTable.CompleteChangesOnlyFirstMatch` | src/api/index.ts:19-22 | for the first match i: the length is kept, slot i becomes Completed with every other field kept, the returned record is the stored slot i, and every other slot is identical |
| `TaskTable.CompleteOnlyAdvances` | src/api/index.ts:21 | a completion keeps length, order and every field but status, and never turns Completed back into Pending |
| `TaskTable.CompleteMissingIsError` | src/api/index.ts:19-20 | an id no task has yields the error "Task not found" and leaves the list unchanged |
| `TaskTable.FirstIndexOfIgnoresStatus` | src/api/index.ts:19 | the first match of an id is the same in two lists of equal length whose records differ at most in their statuses |
| `TaskTable.CompleteIdempotent` | src/api/index.ts:21-22 | completing the same id twice leaves the same list as once, and the second call returns the same completed record |
| `TaskTable.CompleteEachOnlyAdvances` | src/api/index.ts:17-23 | over any run of completions, no record moves, no field but status changes, and no task is reopened |
| `TaskTable.CompleteEachCompletesEveryId` | src/api/index.ts:17-23 | after a run of completions, the first task with each id in the run has status Completed |
| `TaskTable.CompleteTargetsOwnRecord` | src/api/index.ts:19 | when ids are unique, completing the id of task k finds and completes task k itself |
| `TaskTable.CompletePreservesUniqueIds` | src/api/index.ts:21 | a completion keeps unique ids unique |
| `TaskTable.DuplicateIdShadowsLaterTask` | src/api/index.ts:19 | for any list and any run of completions, a task whose id also belongs to an earlier task is left exactly as it was |
| `Api.MockStore.constructor` | src/api/index.ts:2 | a fresh store whose product and task arrays hold the given records in order |
| `Api.MockStore.Seeded` | src/mock/data.ts:3-49 | a fresh store holding the seed products and seed tasks |
| `Api.MockStore.GetProducts` | src/api/index.ts:7-10 | returns the shared product array itself; it changes nothing |
| `Api.MockStore.GetTasks` | src/api/index.ts:12-15 | returns the shared task array itself, so later completions are visible through it |
| `Api.MockStore.FindIndex` | src/api/index.ts:19 | the loop's answer is `FirstIndexOf` of the current task list, and a found position holds the id |
| `Api.MockStore.CompleteTask` | src/api/index.ts:17-23 | the new task array is `AfterComplete` of the old one and the result is `CompleteResult`; success iff some task had the id, returning a Completed record with that id; failure is "Task not found" with nothing changed; statuses only advance; products unchanged |
| `Scenarios.SeedCompleteFirst` | src/mock/data.ts:27-49 | on the seed, completing "1" returns task 1 completed and yields statuses completed, pending, completed, with tasks 2 and 3 untouched |
| `Scenarios.SeedCompleteMissing` | src/api/index.ts:19-20 | on the seed, completing "99" fails with "Task not found" and the list stays as seeded |
| `Scenarios.SeededStoreSession` | src/api/index.ts:12-23 | on a seeded store, a list read before completing "1" shows it completed afterwards; a repeated completion returns the same record; "99" fails; the products read at the end are still the seed products |

## Left out

- The simulated latency (`delay`, `setTimeout`, `async`/`Promise`): every operation is modelled as synchronous.
- The client-side query cache (`useQuery`, `useMutation`, `invalidateQueries` in src/pages/Tasks.tsx and src/pages/Products.tsx). It is third-party library behaviour whose source is not part of this model. Fetch coalescing, staleness and refetch after invalidation are therefore not modelled.
- All React rendering and routing (src/pages/*.tsx, src/App.tsx, src/main.tsx), and the tailwind styling configuration.
- The mock login that writes a user record to browser local storage (src/pages/Login.tsx), and the `User` type. This is browser I/O with no logic.
- Product prices are JavaScript floating-point numbers. The model carries them as exact `real` values. No operation computes with them.
- The module-level singleton lists become the fields of a `MockStore` object. A program has one such store, so the behaviour is the same.
- Task records are values, not shared objects. In the TypeScript each task is an object held by reference, so a record read from `getTasks()` before `completeTask` is the stored object and shows `'completed'` afterwards. In the model, a `Task` value read before `CompleteTask` keeps its old status. Only the list itself is shared: the array `GetTasks` returns shows later completions.
- Api.MockStore.CompleteTask: returns a copy of the updated record, not a reference to the stored object. The copy equals the stored slot at return. No caller in this repository writes through the returned record, and the store's only later write to it would set `completed` again, so these callers cannot tell the difference. A caller that assigned to the returned object would change the store in the TypeScript but not in the model.
