/** The records the front end exchanges with its (mock) back end: src/types/index.ts. */
module Types {

  /** The two states a task can be in; the TypeScript union 'pending' | 'completed'. */
  datatype Status = Pending | Completed

  /** A task record. Ids are strings and nothing in the code forces them to be unique. */
  datatype Task = Task(
    id: string,
    title: string,
    description: string,
    status: Status,
    dueDate: string)

  /** A product record. The price is carried as data only: no operation computes with it. */
  datatype Product = Product(
    id: string,
    name: string,
    description: string,
    price: real,
    contractId: string)

  /** Two task records agree on every field except, possibly, the status. */
  predicate SameRecordButStatus(a: Task, b: Task)
  {
    a.id == b.id && a.title == b.title && a.description == b.description && a.dueDate == b.dueDate
  }
}
