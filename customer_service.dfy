/**
 * The customer service: the layer where domain rules would go, which today
 * forwards every call to the repository unchanged
 * (src/Customers.Microservice.Domain/Aggregates/Customer/CustomerService.cs).
 */
module CustomerServices {
  import opened CustomerAggregate
  import opened CustomerRepositories

  class CustomerService {
    /** The only state: the repository reference. */
    const repository: CustomerRepository

    constructor (repository: CustomerRepository)
      ensures this.repository == repository
    {
      this.repository := repository;
    }

    /** The repository's list, unchanged. */
    method Select() returns (r: seq<Customer>)
      ensures r == repository.store.customers
    {
      r := repository.Select();
    }

    /** The repository's answer, the Id-0 sentinel included. */
    method SelectById(id: int) returns (c: Customer)
      ensures c == Lookup(repository.store.customers, id)
      ensures c.id == id || c == Sentinel
    {
      c := repository.SelectById(id);
    }

    /** The repository-assigned id, with exactly the repository's effect on the store. */
    method Insert(customer: Customer) returns (id: int)
      requires repository.store.countId < IntMax
      modifies repository.store
      ensures id == old(repository.store.countId) + 1 && repository.store.countId == id
      ensures repository.store.customers == old(repository.store.customers) + [Customer(id, customer.name)]
      ensures old(repository.store.Valid()) ==> repository.store.Valid() && !HasId(old(repository.store.customers), id)
    {
      id := repository.Insert(customer);
    }

    /** The repository's boolean, with exactly the repository's effect on the store. */
    method Update(id: int, customer: Customer) returns (ok: bool)
      modifies repository.store
      ensures ok == Matched(old(repository.store.customers), id)
      ensures repository.store.customers ==
        if ok then Renamed(old(repository.store.customers), id, customer.name) else old(repository.store.customers)
      ensures repository.store.countId == old(repository.store.countId)
      ensures old(repository.store.Valid()) ==> repository.store.Valid()
    {
      ok := repository.Update(id, customer);
    }

    /** The repository's boolean, with exactly the repository's effect on the store. */
    method Delete(id: int) returns (ok: bool)
      modifies repository.store
      ensures ok == Matched(old(repository.store.customers), id)
      ensures repository.store.customers ==
        if ok then WithoutId(old(repository.store.customers), id) else old(repository.store.customers)
      ensures repository.store.countId == old(repository.store.countId)
      ensures old(repository.store.Valid()) ==> repository.store.Valid()
      ensures Lookup(repository.store.customers, id).id == 0
    {
      ok := repository.Delete(id);
    }
  }
}
