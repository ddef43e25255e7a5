/**
 * The customer record and the in-memory store that holds the records
 * (src/Customers.Microservice.Domain/Aggregates/Customer/CustomerInMemory.cs).
 */
module CustomerAggregate {
  import opened Wrappers

  /** A customer record: an identifier and a nullable name (None stands for null). */
  datatype Customer = Customer(id: int, name: Option<string>)

  /** What `new Customer()` yields: Id 0, the not-found sentinel, and a null Name. */
  const Sentinel: Customer := Customer(0, None)

  /** Largest value of a C# `int`. */
  const IntMax: int := 0x7FFF_FFFF

  /** The five records every fresh store starts with. */
  const Seed: seq<Customer> := [
    Customer(1, Some("Jorge")),
    Customer(2, Some("Alberto")),
    Customer(3, Some("Pedro")),
    Customer(4, Some("Paulo")),
    Customer(5, Some("Mateus"))
  ]

  /** The id counter a fresh store starts with. */
  const SeedCountId: int := 5

  /**
   * The store invariant: the counter is not negative, every id is positive and
   * at most the counter, and no two records share an id.
   */
  predicate IdsValid(s: seq<Customer>, countId: int) {
    && 0 <= countId
    && (forall i :: 0 <= i < |s| ==> 0 < s[i].id <= countId)
    && (forall i, j :: 0 <= i < j < |s| ==> s[i].id != s[j].id)
  }

  /** The seeded records are ids 1..5 in order, and they satisfy the invariant with the seeded counter. */
  lemma SeedIsValid()
    ensures |Seed| == 5
    ensures forall i :: 0 <= i < |Seed| ==> Seed[i].id == i + 1
    ensures SeedCountId == Seed[|Seed| - 1].id
    ensures IdsValid(Seed, SeedCountId)
  {
  }

  /** The shared, mutable store: the list of customers and the id counter. */
  class CustomerInMemory {
    var customers: seq<Customer>
    var countId: int

    predicate Valid()
      reads this
    {
      IdsValid(customers, countId)
    }

    /** Seeds the five records and sets the counter to 5. */
    constructor ()
      ensures customers == Seed && countId == SeedCountId
      ensures Valid()
      ensures |customers| > 0
    {
      customers := Seed;
      countId := 5;
      SeedIsValid();
    }
  }
}
