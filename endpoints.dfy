/**
 * The HTTP handlers of `AddEndpoints`
 * (src/Customers.Microservice.Application/Extensions/Endpoints.cs), as decisions
 * from what the services returned to the response sent back.
 *
 * A service the container cannot supply (`GetService` answering null) is a
 * `None` result: the `?.` and `??` operators of the handlers then decide.
 */
module Endpoints {
  import opened Wrappers
  import opened CustomerAggregate
  import opened CustomerRepositories
  import opened CustomerServices
  import opened UserRepositories

  /** The login form: a nullable name and password. */
  datatype User = User(name: Option<string>, password: Option<string>)

  /** The responses the handlers produce. */
  datatype Response =
    | SignIn(principal: string)                      // bearer sign-in for a principal whose Name claim is `principal`
    | Unauthorized                                   // 401
    | OkCustomer(customer: Customer)                 // 200 with the record
    | Ok                                             // 200 without a body
    | NotFound                                       // 404
    | CustomerList(customers: Option<seq<Customer>>) // the returned list serialised (null without a service)
    | NewId(id: Option<int>)                         // the returned id serialised (null without a service)
    | ServerError                                    // an exception escaped the handler

  /** The status code each response carries. */
  function StatusCode(r: Response): (code: int)
    ensures code == 401 <==> r.Unauthorized?
    ensures code == 404 <==> r.NotFound?
    ensures code == 500 <==> r.ServerError?
    ensures code in {200, 401, 404, 500}
  {
    match r
    case Unauthorized => 401
    case NotFound => 404
    case ServerError => 500
    case _ => 200
  }

  /** `string.IsNullOrEmpty`. */
  predicate IsNullOrEmpty(s: Option<string>)
    ensures !IsNullOrEmpty(s) ==> s.Some? && |s.value| > 0
  {
    s.None? || s.value == ""
  }

  /**
   * POST /login. Empty credentials are refused before the user service is
   * consulted; `isValidUser` is the service's answer, None when there is no
   * service (awaiting the null task throws).
   */
  function Login(user: User, isValidUser: Option<bool>): (r: Response)
    ensures IsNullOrEmpty(user.name) || IsNullOrEmpty(user.password) ==> r == Unauthorized
    ensures r.SignIn? <==> !IsNullOrEmpty(user.name) && !IsNullOrEmpty(user.password) && isValidUser == Some(true)
    ensures r.SignIn? ==> user.name == Some(r.principal)
    ensures r.ServerError? <==> !IsNullOrEmpty(user.name) && !IsNullOrEmpty(user.password) && isValidUser.None?
    ensures !IsNullOrEmpty(user.name) && !IsNullOrEmpty(user.password) && isValidUser == Some(false) ==> r == Unauthorized
  {
    if IsNullOrEmpty(user.name) || IsNullOrEmpty(user.password) then Unauthorized
    else match isValidUser
      case None => ServerError
      case Some(valid) => if valid then SignIn(user.name.value) else Unauthorized
  }

  /** GET /customer/{id}: the record when its id is nonzero, otherwise 404 (the sentinel, or no service). */
  function GetCustomerById(selected: Option<Customer>): (r: Response)
    ensures r.OkCustomer? <==> selected.Some? && selected.value.id != 0
    ensures r.OkCustomer? ==> selected == Some(r.customer)
    ensures !r.OkCustomer? ==> r == NotFound
  {
    var customer := selected.GetOr(Sentinel);
    if customer.id != 0 then OkCustomer(customer) else NotFound
  }

  /** GET /customer: the service's list as it is. */
  function GetCustomers(selected: Option<seq<Customer>>): (r: Response)
    ensures StatusCode(r) == 200
    ensures r.CustomerList? && r.customers == selected
  {
    CustomerList(selected)
  }

  /** POST /customer: the id the service's Insert assigned. */
  function PostCustomer(inserted: Option<int>): (r: Response)
    ensures StatusCode(r) == 200
    ensures r.NewId? && r.id == inserted
  {
    NewId(inserted)
  }

  /**
   * PUT and PATCH /customer/{id} (the same expression), and DELETE
   * /customer/{id}: 200 when the service answered true, 404 when it answered
   * false or there is no service.
   */
  function OkOrNotFound(succeeded: Option<bool>): (r: Response)
    ensures r == Ok <==> succeeded == Some(true)
    ensures r != Ok ==> r == NotFound
  {
    if succeeded.GetOr(false) then Ok else NotFound
  }

  // ---------------------------------------------------------------------------
  // The handlers composed with the store

  /**
   * Login checked against a secrets dictionary signs in exactly the non-empty
   * pairs the dictionary holds, under the submitted name; every other pair is refused.
   */
  lemma LoginAgainstSecrets(user: User, secrets: map<string, Option<string>>)
    ensures var r := Login(user, Some(HasEntry(secrets, user.name, user.password)));
      && (r.SignIn? <==>
            user.name.Some? && user.password.Some? && user.name.value != "" && user.password.value != ""
            && user.name.value in secrets && secrets[user.name.value] == user.password)
      && (r.SignIn? ==> r.principal == user.name.value)
      && (!r.SignIn? ==> r == Unauthorized)
  {
    HasEntryIsLookup(secrets, user.name, user.password);
  }

  /** GET after POST: the new id answers 200 with the record just stored. */
  lemma GetAfterInsert(s: seq<Customer>, countId: int, name: Option<string>)
    requires IdsValid(s, countId)
    ensures GetCustomerById(Some(Lookup(s + [Customer(countId + 1, name)], countId + 1)))
      == OkCustomer(Customer(countId + 1, name))
  {
    LookupAfterInsert(s, countId, name, countId + 1);
  }

  /** PUT on a stored id answers 200, and a later GET shows the new name under the same id. */
  lemma GetAfterUpdate(s: seq<Customer>, id: int, name: Option<string>)
    requires Matched(s, id)
    ensures OkOrNotFound(Some(Matched(s, id))) == Ok
    ensures GetCustomerById(Some(Lookup(Renamed(s, id, name), id))) == OkCustomer(Customer(id, name))
  {
    LookupAfterRename(s, id, name, id);
  }

  /** After DELETE, GET on that id answers 404, whether or not the DELETE found anything. */
  lemma GetAfterDelete(s: seq<Customer>, id: int)
    ensures OkOrNotFound(Some(Matched(s, id))) == Ok <==> id != 0 && HasId(s, id)
    ensures GetCustomerById(Some(Lookup(if Matched(s, id) then WithoutId(s, id) else s, id))) == NotFound
  {
    LookupAfterRemove(s, id, id);
  }

  /** In a store that keeps its invariant, GET, PUT, PATCH and DELETE answer 404 exactly for ids not stored. */
  lemma NotFoundIffAbsent(s: seq<Customer>, countId: int, id: int)
    requires IdsValid(s, countId)
    ensures GetCustomerById(Some(Lookup(s, id))) == NotFound <==> !HasId(s, id)
    ensures OkOrNotFound(Some(Matched(s, id))) == NotFound <==> !HasId(s, id)
  {
    if HasId(s, id) {
      var k :| 0 <= k < |s| && s[k].id == id;
      assert id != 0;
    }
  }

  /**
   * An end-to-end walk-through, run against a freshly seeded store through the
   * service: list, read, miss, create, rename, read, delete, miss.
   */
  method Walkthrough() returns (list: Response, get1: Response, get99: Response, post: Response,
                                put: Response, getRenamed: Response, del: Response, getDeleted: Response)
    ensures list == CustomerList(Some(Seed))
    ensures get1 == OkCustomer(Customer(1, Some("Jorge")))
    ensures get99 == NotFound
    ensures post == NewId(Some(6))
    ensures put == Ok
    ensures getRenamed == OkCustomer(Customer(6, Some("Renamed")))
    ensures del == Ok
    ensures getDeleted == NotFound
  {
    var store := new CustomerInMemory();
    var repository := new CustomerRepository(store);
    var service := new CustomerService(repository);
    SeedIsValid();

    var all := service.Select();
    list := GetCustomers(Some(all));

    assert Seed[0].id == 1;
    var c1 := service.SelectById(1);
    get1 := GetCustomerById(Some(c1));

    assert !HasId(Seed, 99);
    var c99 := service.SelectById(99);
    get99 := GetCustomerById(Some(c99));

    var id := service.Insert(Customer(0, Some("New")));
    post := PostCustomer(Some(id));
    var afterInsert := store.customers;
    LookupAfterInsert(Seed, 5, Some("New"), 6);
    assert HasId(afterInsert, 6) by { assert afterInsert[5].id == 6; }

    var updated := service.Update(6, Customer(0, Some("Renamed")));
    put := OkOrNotFound(Some(updated));
    LookupAfterRename(afterInsert, 6, Some("Renamed"), 6);
    var c6 := service.SelectById(6);
    getRenamed := GetCustomerById(Some(c6));

    var deleted := service.Delete(6);
    del := OkOrNotFound(Some(deleted));
    var gone := service.SelectById(6);
    getDeleted := GetCustomerById(Some(gone));
  }
}
