/**
 * The credential check behind login
 * (src/Customers.Microservice.Infrastructure/Repositories/UserRepository.cs).
 *
 * The secrets dictionary, which the source fetches from a cloud secret store
 * and deserialises from JSON, is a parameter here. Name and password are
 * nullable (None stands for null). Keys are JSON object keys and never null;
 * a value may be null, since a JSON `null` deserialises to a null string.
 */
module UserRepositories {
  import opened Wrappers

  /** Some entry has `Key == name` and `Value == password`, both on the same entry. */
  predicate HasEntry(secrets: map<string, Option<string>>, name: Option<string>, password: Option<string>)
    ensures HasEntry(secrets, name, password) ==>
      name.Some? && name.value in secrets && secrets[name.value] == password
  {
    exists key :: key in secrets && name == Some(key) && password == secrets[key]
  }

  /**
   * The `foreach` over the dictionary with its early `return true`. The order in
   * which entries are visited is left open: any order gives the same answer.
   */
  method SelectByNameAndPassword(secrets: map<string, Option<string>>, name: Option<string>, password: Option<string>)
    returns (found: bool)
    ensures found <==> HasEntry(secrets, name, password)
  {
    var remaining := secrets.Keys;
    while remaining != {}
      invariant remaining <= secrets.Keys
      invariant forall key :: key in secrets.Keys - remaining ==>
        !(name == Some(key) && password == secrets[key])
      decreases remaining
    {
      var key :| key in remaining;
      if name == Some(key) && password == secrets[key] {
        return true;
      }
      remaining := remaining - {key};
    }
    return false;
  }

  /** The existential match is a single dictionary lookup. */
  lemma HasEntryIsLookup(secrets: map<string, Option<string>>, name: Option<string>, password: Option<string>)
    ensures HasEntry(secrets, name, password) <==>
      name.Some? && name.value in secrets && secrets[name.value] == password
  {
    if name.Some? && name.value in secrets && secrets[name.value] == password {
      assert name == Some(name.value);
    }
  }

  /**
   * No secrets, no match; a null name never matches; a null password matches
   * only an entry whose value is null, so never when every value is present.
   */
  lemma NoMatchCases(secrets: map<string, Option<string>>, name: Option<string>, password: Option<string>)
    ensures secrets == map[] ==> !HasEntry(secrets, name, password)
    ensures name.None? ==> !HasEntry(secrets, name, password)
    ensures password.None? ==>
      (HasEntry(secrets, name, password) <==> name.Some? && name.value in secrets && secrets[name.value].None?)
    ensures password.None? && (forall key :: key in secrets ==> secrets[key].Some?) ==>
      !HasEntry(secrets, name, password)
  {
    HasEntryIsLookup(secrets, name, password);
  }

  /** A null value in the secret matches a null password: `{"admin": null}` lets ("admin", null) through. */
  lemma NullValueMatchesNullPassword()
    ensures HasEntry(map["admin" := None], Some("admin"), None)
    ensures !HasEntry(map["admin" := None], Some("admin"), Some(""))
  {
    HasEntryIsLookup(map["admin" := None], Some("admin"), None);
  }

  /**
   * A name that is a key, with a password that is some OTHER entry's value,
   * does not match: both comparisons must hold on the same entry.
   */
  lemma NoCrossEntryMatch(secrets: map<string, Option<string>>, name: string, password: Option<string>, other: string)
    requires name in secrets && other in secrets && other != name
    requires secrets[other] == password && secrets[name] != password
    ensures !HasEntry(secrets, Some(name), password)
  {
    HasEntryIsLookup(secrets, Some(name), password);
  }
}
