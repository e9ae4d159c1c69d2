/** The static seed data of the mock back end: src/mock/data.ts. */
module MockData {
  import opened Types

  function SeedProducts(): (ps: seq<Product>)
    ensures |ps| == 3
    ensures forall i :: 0 <= i < |ps| ==> ps[i].price >= 0.0
  {
    [ Product("1", "Product A", "High-quality product for enterprise use", 99.99, "contract-001"),
      Product("2", "Product B", "Cost-effective solution for small businesses", 49.99, "contract-002"),
      Product("3", "Product C", "Premium product with advanced features", 199.99, "contract-003") ]
  }

  function SeedTasks(): (ts: seq<Task>)
    ensures |ts| == 3
    ensures forall i, j :: 0 <= i < j < |ts| ==> ts[i].id != ts[j].id
  {
    [ Task("1", "Review Contract Terms", "Read and understand contract details for Product A",
           Pending, "2025-07-25"),
      Task("2", "Complete Product Training", "Finish the training module for Product B",
           Pending, "2025-07-26"),
      Task("3", "Submit Sales Report", "Provide weekly sales report for all products",
           Completed, "2025-07-24") ]
  }
}
