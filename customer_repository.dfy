/**
 * The customer repository over the in-memory store
 * (src/Customers.Microservice.Infrastructure/Repositories/CustomerRepository.cs).
 *
 * The functions below describe, on values, what each repository operation does
 * to the list of records; the class methods are proved against them.
 */
module CustomerRepositories {
  import opened Wrappers
  import opened CustomerAggregate

  /** Some record in `s` carries `id`. */
  predicate HasId(s: seq<Customer>, id: int) {
    exists i :: 0 <= i < |s| && s[i].id == id
  }

  /** The position of the first record with `id`, as `List.Find` scans for it. */
  function FindIndex(s: seq<Customer>, id: int): (r: Option<nat>)
    ensures r.None? <==> !HasId(s, id)
    ensures r.Some? ==> r.value < |s| && s[r.value].id == id
    ensures r.Some? ==> forall j :: 0 <= j < r.value ==> s[j].id != id
  {
    if |s| == 0 then None
    else if s[0].id == id then Some(0)
    else match FindIndex(s[1..], id)
      case None => None
      case Some(k) => Some(k + 1)
  }

  /** What `SelectById` answers: the first record with `id`, or the sentinel when there is none. */
  function Lookup(s: seq<Customer>, id: int): (c: Customer)
    ensures HasId(s, id) ==> c.id == id && c in s
    ensures !HasId(s, id) ==> c == Sentinel
  {
    match FindIndex(s, id)
    case Some(i) => s[i]
    case None => Sentinel
  }

  /**
   * Whether `Update` and `Delete` go ahead: the record found for `id` (or the
   * sentinel) has a nonzero id. So id 0 is never matched, even by a stored record with id 0.
   */
  function Matched(s: seq<Customer>, id: int): (b: bool)
    ensures b <==> id != 0 && HasId(s, id)
  {
    Lookup(s, id).id != 0
  }

  /** The list after the first record with `id` has had its name replaced by `name`. */
  function Renamed(s: seq<Customer>, id: int, name: Option<string>): (r: seq<Customer>)
    ensures |r| == |s|
    ensures forall i :: 0 <= i < |s| ==> r[i].id == s[i].id
  {
    match FindIndex(s, id)
    case Some(i) => s[i := s[i].(name := name)]
    case None => s
  }

  /** The list after `RemoveAll`: every record with `id` dropped, the others kept in order. */
  function WithoutId(s: seq<Customer>, id: int): (r: seq<Customer>)
    ensures |r| <= |s|
  {
    if |s| == 0 then []
    else if s[0].id == id then WithoutId(s[1..], id)
    else [s[0]] + WithoutId(s[1..], id)
  }

  /** `RemoveAll` keeps exactly the records whose id differs. */
  lemma {:induction false} WithoutIdMembers(s: seq<Customer>, id: int)
    ensures forall c :: c in WithoutId(s, id) <==> c in s && c.id != id
  {
    if |s| > 0 {
      WithoutIdMembers(s[1..], id);
      assert s == [s[0]] + s[1..];
    }
  }

  // ---------------------------------------------------------------------------
  // Insert

  /** Insert keeps the invariant, and the id it hands out was not in use. */
  lemma InsertPreservesValid(s: seq<Customer>, countId: int, name: Option<string>)
    requires IdsValid(s, countId)
    ensures !HasId(s, countId + 1)
    ensures IdsValid(s + [Customer(countId + 1, name)], countId + 1)
  {
  }

  /** After Insert, the new id selects the new record and every other id selects what it did before. */
  lemma LookupAfterInsert(s: seq<Customer>, countId: int, name: Option<string>, other: int)
    requires IdsValid(s, countId)
    ensures Lookup(s + [Customer(countId + 1, name)], countId + 1) == Customer(countId + 1, name)
    ensures other != countId + 1 ==> Lookup(s + [Customer(countId + 1, name)], other) == Lookup(s, other)
  {
    var t := s + [Customer(countId + 1, name)];
    assert t[|s|].id == countId + 1;
    FindIndexAppend(s, Customer(countId + 1, name), countId + 1);
    FindIndexAppend(s, Customer(countId + 1, name), other);
  }

  /** Appending a record does not move the first match of an id already present. */
  lemma FindIndexAppend(s: seq<Customer>, c: Customer, id: int)
    ensures HasId(s, id) ==> FindIndex(s + [c], id) == FindIndex(s, id)
    ensures !HasId(s, id) && c.id == id ==> FindIndex(s + [c], id) == Some(|s|)
    ensures !HasId(s, id) && c.id != id ==> FindIndex(s + [c], id) == None
  {
    var t := s + [c];
    if HasId(s, id) {
      var k := FindIndex(s, id).value;
      assert t[k].id == id;
    } else if c.id == id {
      assert t[|s|].id == id;
    } else {
      assert forall i :: 0 <= i < |t| ==> t[i].id != id by {
        forall i | 0 <= i < |t| ensures t[i].id != id {
          if i < |s| { assert t[i] == s[i]; }
        }
      }
    }
  }

  // ---------------------------------------------------------------------------
  // Update

  /** After a matched Update, `id` selects the renamed record and every other id selects what it did before. */
  lemma LookupAfterRename(s: seq<Customer>, id: int, name: Option<string>, other: int)
    requires HasId(s, id)
    ensures Lookup(Renamed(s, id, name), id) == Customer(id, name)
    ensures other != id ==> Lookup(Renamed(s, id, name), other) == Lookup(s, other)
  {
    var k := FindIndex(s, id).value;
    var r := Renamed(s, id, name);
    assert r == s[k := Customer(id, name)];
    assert FindIndex(r, id) == Some(k) by {
      assert r[k].id == id;
    }
    if other != id {
      if HasId(s, other) {
        var m := FindIndex(s, other).value;
        assert r[m] == s[m];
        assert FindIndex(r, other) == Some(m);
      } else {
        assert forall i :: 0 <= i < |r| ==> r[i].id != other;
      }
    }
  }

  /** Renaming keeps the invariant. */
  lemma RenamedPreservesValid(s: seq<Customer>, countId: int, id: int, name: Option<string>)
    requires IdsValid(s, countId)
    ensures IdsValid(Renamed(s, id, name), countId)
  {
  }

  // ---------------------------------------------------------------------------
  // Delete

  /** Removing one id does not change what any other id selects, and the removed id selects the sentinel. */
  lemma {:induction false} LookupAfterRemove(s: seq<Customer>, id: int, other: int)
    ensures Lookup(WithoutId(s, id), id) == Sentinel
    ensures other != id ==> Lookup(WithoutId(s, id), other) == Lookup(s, other)
  {
    var r := WithoutId(s, id);
    WithoutIdMembers(s, id);
    assert !HasId(r, id) by {
      forall i | 0 <= i < |r| ensures r[i].id != id {
        assert r[i] in r;
      }
    }
    if other != id && |s| > 0 {
      LookupAfterRemove(s[1..], id, other);
      if s[0].id == id {
        assert r == WithoutId(s[1..], id);
        assert s[0].id != other;
        FindIndexSkip(s, other);
      } else {
        assert r == [s[0]] + WithoutId(s[1..], id);
        if s[0].id == other {
          assert FindIndex(r, other) == Some(0);
          assert FindIndex(s, other) == Some(0);
        } else {
          FindIndexSkip(s, other);
          FindIndexSkip(r, other);
          assert r[1..] == WithoutId(s[1..], id);
        }
      }
    }
  }

  /** Skipping a leading record that does not carry `id` does not change the lookup. */
  lemma FindIndexSkip(s: seq<Customer>, id: int)
    requires |s| > 0 && s[0].id != id
    ensures Lookup(s, id) == Lookup(s[1..], id)
  {
    if HasId(s, id) {
      var k := FindIndex(s, id).value;
      assert s[1..][k - 1].id == id;
    } else {
      assert forall i :: 0 <= i < |s[1..]| ==> s[1..][i] == s[i + 1];
    }
  }

  /** Removal keeps the invariant. */
  lemma {:induction false} WithoutIdPreservesValid(s: seq<Customer>, countId: int, id: int)
    requires IdsValid(s, countId)
    ensures IdsValid(WithoutId(s, id), countId)
  {
    if |s| > 0 {
      var r := WithoutId(s, id);
      var tail := WithoutId(s[1..], id);
      assert IdsValid(s[1..], countId);
      WithoutIdPreservesValid(s[1..], countId, id);
      if s[0].id != id {
        assert r == [s[0]] + tail;
        WithoutIdMembers(s[1..], id);
        forall j | 0 <= j < |tail| ensures tail[j].id != s[0].id {
          assert tail[j] in tail;
          assert tail[j] in s[1..];
        }
      }
    }
  }

  /** `RemoveAll` over a concatenation works piece by piece. */
  lemma {:induction false} WithoutIdConcat(a: seq<Customer>, b: seq<Customer>, id: int)
    ensures WithoutId(a + b, id) == WithoutId(a, id) + WithoutId(b, id)
  {
    if |a| > 0 {
      assert (a + b)[1..] == a[1..] + b;
      WithoutIdConcat(a[1..], b, id);
    } else {
      assert a + b == b;
    }
  }

  /** `RemoveAll` of an id that is not present leaves the list as it is. */
  lemma {:induction false} WithoutIdAbsent(s: seq<Customer>, id: int)
    requires !HasId(s, id)
    ensures WithoutId(s, id) == s
  {
    if |s| > 0 {
      assert !HasId(s[1..], id) by {
        forall i | 0 <= i < |s[1..]| ensures s[1..][i].id != id {
          assert s[1..][i] == s[i + 1];
        }
      }
      WithoutIdAbsent(s[1..], id);
      assert s == [s[0]] + s[1..];
    }
  }

  /** With distinct ids, a matched Delete removes exactly the one record that carries the id. */
  lemma RemovesExactlyOne(s: seq<Customer>, countId: int, id: int)
    requires IdsValid(s, countId)
    requires HasId(s, id)
    ensures FindIndex(s, id).Some?
    ensures WithoutId(s, id) == s[..FindIndex(s, id).value] + s[FindIndex(s, id).value + 1..]
    ensures |WithoutId(s, id)| == |s| - 1
  {
    var k := FindIndex(s, id).value;
    OnlyOneCarries(s, countId, k);
    RemoveAt(s, k, id);
  }

  /** Under the invariant, the record at `k` is the only one with its id. */
  lemma OnlyOneCarries(s: seq<Customer>, countId: int, k: int)
    requires IdsValid(s, countId) && 0 <= k < |s|
    ensures forall j :: 0 <= j < |s| && j != k ==> s[j].id != s[k].id
  {
  }

  /** Removing an id that only position `k` carries cuts out exactly that position. */
  lemma RemoveAt(s: seq<Customer>, k: int, id: int)
    requires 0 <= k < |s| && s[k].id == id
    requires forall j :: 0 <= j < |s| && j != k ==> s[j].id != id
    ensures WithoutId(s, id) == s[..k] + s[k + 1..]
  {
    var before, after := s[..k], s[k + 1..];
    var rest := [s[k]] + after;
    assert s == before + rest;
    assert !HasId(before, id) by {
      forall i | 0 <= i < |before| ensures before[i].id != id {
        assert before[i] == s[i];
      }
    }
    assert !HasId(after, id) by {
      forall i | 0 <= i < |after| ensures after[i].id != id {
        assert after[i] == s[k + 1 + i];
      }
    }
    WithoutIdConcat(before, rest, id);
    WithoutIdAbsent(before, id);
    assert rest[0].id == id && rest[1..] == after;
    assert WithoutId(rest, id) == WithoutId(after, id);
    WithoutIdAbsent(after, id);
  }

  // ---------------------------------------------------------------------------
  // The repository object

  /** The repository: a reference to the shared store and the five operations over it. */
  class CustomerRepository {
    const store: CustomerInMemory

    constructor (store: CustomerInMemory)
      ensures this.store == store
    {
      this.store := store;
    }

    /** All records, in insertion order; nothing changes. */
    method Select() returns (r: seq<Customer>)
      ensures r == store.customers
    {
      r := store.customers;
    }

    /** The linear scan of `List.Find`: the position of the first record with `id`. */
    method Find(id: int) returns (r: Option<nat>)
      ensures r == FindIndex(store.customers, id)
    {
      var s := store.customers;
      var i := 0;
      while i < |s|
        invariant 0 <= i <= |s|
        invariant forall j :: 0 <= j < i ==> s[j].id != id
      {
        if s[i].id == id {
          return Some(i);
        }
        i := i + 1;
      }
      return None;
    }

    /** The first record with `id`, or the sentinel (id 0) when there is none; nothing changes. */
    method SelectById(id: int) returns (c: Customer)
      ensures c == Lookup(store.customers, id)
      ensures c.id == id || c == Sentinel
    {
      var found := Find(id);
      c := if found.Some? then store.customers[found.value] else Sentinel;
    }

    /**
     * Ignores the caller's id, advances the counter by one, appends the record
     * under the new counter value and returns that value.
     */
    method Insert(customer: Customer) returns (id: int)
      requires store.countId < IntMax
      modifies store
      ensures id == old(store.countId) + 1 && store.countId == id
      ensures store.customers == old(store.customers) + [Customer(id, customer.name)]
      ensures old(store.Valid()) ==> store.Valid() && !HasId(old(store.customers), id)
    {
      if store.Valid() {
        InsertPreservesValid(store.customers, store.countId, customer.name);
      }
      store.countId := store.countId + 1;
      store.customers := store.customers + [Customer(store.countId, customer.name)];
      id := store.countId;
    }

    /**
     * Replaces the name of the record found for `id`; answers false, changing
     * nothing, when the found record (or the sentinel) has id 0.
     */
    method Update(id: int, customer: Customer) returns (ok: bool)
      modifies store
      ensures ok == Matched(old(store.customers), id)
      ensures store.customers == if ok then Renamed(old(store.customers), id, customer.name) else old(store.customers)
      ensures store.countId == old(store.countId)
      ensures old(store.Valid()) ==> store.Valid()
    {
      var found := Find(id);
      var current := if found.Some? then store.customers[found.value] else Sentinel;
      if current.id == 0 {
        return false;
      }
      if store.Valid() {
        RenamedPreservesValid(store.customers, store.countId, id, customer.name);
      }
      store.customers := store.customers[found.value := current.(name := customer.name)];
      return true;
    }

    /**
     * Removes every record with `id` (`RemoveAll`); answers false, changing
     * nothing, when the found record (or the sentinel) has id 0.
     */
    method Delete(id: int) returns (ok: bool)
      modifies store
      ensures ok == Matched(old(store.customers), id)
      ensures store.customers == if ok then WithoutId(old(store.customers), id) else old(store.customers)
      ensures store.countId == old(store.countId)
      ensures old(store.Valid()) ==> store.Valid()
      ensures Lookup(store.customers, id).id == 0
    {
      var current := SelectById(id);
      if current.id == 0 {
        return false;
      }
      if store.Valid() {
        WithoutIdPreservesValid(store.customers, store.countId, id);
      }
      LookupAfterRemove(store.customers, id, id);
      store.customers := WithoutId(store.customers, id);
      return true;
    }
  }
}
