# Customers microservice: a Dafny model

This project models the core of a small customer-record web service. It covers four parts:

- **The customer store.** `CustomerInMemory` keeps a list of customer records and an id counter. It starts with five seeded records.
- **The layers in front of the store.**
  - `CustomerRepository` provides select-all, select-by-id, insert, update and delete over that list.
  - `CustomerService` passes every call through to the repository.
- **The CPF validator.** It checks the two mod-11 check digits of a Brazilian CPF (Cadastro de Pessoas Físicas) number.
- **The login credential match and the HTTP handlers.** The match is a search of a name→password dictionary. The handlers turn service results into responses.

Files, one module each:

| file | module | models |
|---|---|---|
| `wrappers.dfy` | `Wrappers` | `Option` (a C# null) and `Result` (a thrown exception) |
| `customer_in_memory.dfy` | `CustomerAggregate` | the `Customer` record, the sentinel, the seed, the store invariant, the `CustomerInMemory` class |
| `customer_repository.dfy` | `CustomerRepositories` | the repository operations, first as functions on lists, then as methods of the `CustomerRepository` class proved against those functions |
| `customer_service.dfy` | `CustomerServices` | the `CustomerService` class, whose methods carry the repository's contracts unchanged |
| `cpf_validator.dfy` | `Cpf` | the validator: normalisation, the two weighted-sum loops, and an independent textbook definition of a valid CPF |
| `user_repository.dfy` | `UserRepositories` | the dictionary search behind login |
| `endpoints.dfy` | `Endpoints` | the handler decisions of `AddEndpoints`, lemmas that compose them with the store, and an end-to-end walk-through |

Modelling choices:

- **Names and passwords are nullable in C#.** They are `Option<string>` here, with `None` for null.
- **Values in the secrets dictionary can be null.** A JSON `null` value deserialises to a null string, so the dictionary is a `map<string, Option<string>>`. Its keys are JSON object keys and are never null. The C# `==` on strings is true for two nulls, so a null password matches an entry whose value is null.
- **What `new Customer()` gives.** It is `Sentinel`: Id 0 and a null Name. The `Customer` class is not part of this model. Its default values are taken from the `ICustomer` shape (`int Id`, `string? Name`).
- **State the source changes in place is held in classes.**
  - The store's list is a `seq<Customer>` field, and its counter is an `int` field. The repository methods reassign them.
  - The repository and the service each hold a `const` reference to the object below them, so every method's frame is the one shared store.
  - Records are values. A rename therefore replaces one element of the sequence.
- **The repository methods do not require the store invariant.** The source runs them on any state. Each method instead promises that a valid store stays valid.
- **Update and Delete test the id of the record found, not whether a record was found.** `Matched(s, id)` is proved equal to `id != 0 && HasId(s, id)`. So id 0 never matches, even if a record with id 0 were stored.
- **The CPF validator throws in two cases.**
  - A null input makes `Trim` throw. This is `Failure(NullInput)`.
  - A non-digit among the first nine normalised characters makes `int.Parse` throw. This is `Failure(FormatError)`.
  - Characters 9 and 10 are never parsed. They are only compared by `EndsWith`.
- **The CPF validator is split into two methods.** `IsCpf` normalises the input and then calls `CheckDigits`, which holds the two loops. Together they are one C# method.
- **Where the handlers' annotations and their code differ, the model follows the code.**
  - POST /customer: `SwaggerResponse(201, …)` at Endpoints.cs:95 says 201, but the handler returns the bare `int?` that `Insert` gave, so the status is 200.
  - Login with a missing user service awaits a null task. That throws, which is `ServerError` here, not 401.
  - The walk-through runs on the five-record seed, so the record it creates gets id 6.

## Model

| member | source | states |
|---|---|---|
| `CustomerAggregate.SeedIsValid` | src/Customers.Microservice.Domain/Aggregates/Customer/CustomerInMemory.cs:11-20 | the seed is five records with ids 1..5 in order; the counter starts at the largest seeded id; the seed satisfies the store invariant (ids positive, distinct, at most the counter) |
| `CustomerAggregate.CustomerInMemory.constructor` | src/Customers.Microservice.Domain/Aggregates/Customer/CustomerInMemory.cs:9-21 | a fresh store holds exactly the seeded records (Jorge, Alberto, Pedro, Paulo, Mateus), counter 5, is valid and non-empty |
| `CustomerRepositories.FindIndex` | src/Customers.Microservice.Infrastructure/Repositories/CustomerRepository.cs:20 | `List.Find`: None exactly when no record has the id; otherwise the index of a record with that id, with no earlier record carrying it |
| `CustomerRepositories.Lookup` | src/Customers.Microservice.Infrastructure/Repositories/CustomerRepository.cs:17-21 | the answer of SelectById is a stored record with that id when one exists, and the Id-0 sentinel otherwise |
| `CustomerRepositories.Matched` | src/Customers.Microservice.Infrastructure/Repositories/CustomerRepository.cs:34-37 | Update and Delete go ahead exactly when the id is nonzero and stored; id 0 never matches |
| `CustomerRepositories.Renamed` | src/Customers.Microservice.Infrastructure/Repositories/CustomerRepository.cs:34-40 | renaming keeps the length and every record's id |
| `CustomerRepositories.WithoutId` | src/Customers.Microservice.Infrastructure/Repositories/CustomerRepository.cs:51 | `RemoveAll` never lengthens the list |
| `CustomerRepositories.WithoutIdMembers` | src/Customers.Microservice.Infrastructure/Repositories/CustomerRepository.cs:51 | `RemoveAll` keeps exactly the records whose id differs: a record survives if and only if it was there and carries another id |
| `CustomerRepositories.InsertPreservesValid` | src/Customers.Microservice.Infrastructure/Repositories/CustomerRepository.cs:26-28 | the id Insert assigns was not in use, and the store invariant holds afterwards with the advanced counter |
| `CustomerRepositories.LookupAfterInsert` | src/Customers.Microservice.Infrastructure/Repositories/CustomerRepository.cs:23-29 | after Insert the new id selects the new record, and every other id selects what it selected before |
| `CustomerRepositories.LookupAfterRename` | src/Customers.Microservice.Infrastructure/Repositories/CustomerRepository.cs:34-40 | after a matched Update the id selects the record with its new name and the same id; every other id is unaffected |
| `CustomerRepositories.RenamedPreservesValid` | src/Customers.Microservice.Infrastructure/Repositories/CustomerRepository.cs:39 | a rename keeps the store invariant |
| `CustomerRepositories.LookupAfterRemove` | src/Customers.Microservice.Infrastructure/Repositories/CustomerRepository.cs:43-53 | after removal the id selects the sentinel, and every other id selects what it selected before |
| `CustomerRepositories.WithoutIdPreservesValid` | src/Customers.Microservice.Infrastructure/Repositories/CustomerRepository.cs:51 | removal keeps the store invariant |
| `CustomerRepositories.RemovesExactlyOne` | src/Customers.Microservice.Infrastructure/Repositories/CustomerRepository.cs:51 | with distinct ids, a matched Delete removes exactly the one record carrying the id, keeping the others in order |
| `CustomerRepositories.RemoveAt` | src/Customers.Microservice.Infrastructure/Repositories/CustomerRepository.cs:51 | when only position k carries the id, `RemoveAll` cuts out exactly that position |
| `CustomerRepositories.CustomerRepository.constructor` | src/Customers.Microservice.Infrastructure/Repositories/CustomerRepository.cs:6-8 | the repository refers to the given store |
| `CustomerRepositories.CustomerRepository.Select` | src/Customers.Microservice.Infrastructure/Repositories/CustomerRepository.cs:10-15 | returns the store's list as it is, in insertion order, changing nothing |
| `CustomerRepositories.CustomerRepository.Find` | src/Customers.Microservice.Infrastructure/Repositories/CustomerRepository.cs:20 | the linear scan returns the first index carrying the id, or None |
| `CustomerRepositories.CustomerRepository.SelectById` | src/Customers.Microservice.Infrastructure/Repositories/CustomerRepository.cs:17-21 | returns the first record with the id, or the sentinel; the result's id is the requested one or it is the sentinel |
| `CustomerRepositories.CustomerRepository.Insert` | src/Customers.Microservice.Infrastructure/Repositories/CustomerRepository.cs:23-29 | ignores the caller's id, advances the counter by exactly one, appends the record with the new id and the caller's name, returns that id; a valid store stays valid and the id was fresh |
| `CustomerRepositories.CustomerRepository.Update` | src/Customers.Microservice.Infrastructure/Repositories/CustomerRepository.cs:31-41 | returns whether the id matched; if so only the first such record's name changes, otherwise nothing changes; the counter never changes |
| `CustomerRepositories.CustomerRepository.Delete` | src/Customers.Microservice.Infrastructure/Repositories/CustomerRepository.cs:43-53 | returns whether the id matched; if so every record with the id is removed and the rest kept in order, otherwise nothing changes; afterwards SelectById gives id 0 |
| `CustomerServices.CustomerService.constructor` | src/Customers.Microservice.Domain/Aggregates/Customer/CustomerService.cs:13-16 | the service holds only the repository reference |
| `CustomerServices.CustomerService.Select` | src/Customers.Microservice.Domain/Aggregates/Customer/CustomerService.cs:18-23 | exactly the repository's list |
| `CustomerServices.CustomerService.SelectById` | src/Customers.Microservice.Domain/Aggregates/Customer/CustomerService.cs:25-30 | exactly the repository's answer, sentinel included |
| `CustomerServices.CustomerService.Insert` | src/Customers.Microservice.Domain/Aggregates/Customer/CustomerService.cs:32-37 | the repository-assigned id and exactly the repository's effect on the store |
| `CustomerServices.CustomerService.Update` | src/Customers.Microservice.Domain/Aggregates/Customer/CustomerService.cs:39-44 | the repository's boolean and exactly its effect |
| `CustomerServices.CustomerService.Delete` | src/Customers.Microservice.Domain/Aggregates/Customer/CustomerService.cs:46-51 | the repository's boolean and exactly its effect |
| `Cpf.DigitChar` | src/Customers.Microservice.Domain/SeedWork/CPFValidator.cs:43 | the text of a value 0..9 is one ASCII digit that parses back to the value |
| `Cpf.TrimStart` | src/Customers.Microservice.Domain/SeedWork/CPFValidator.cs:24 | the result is a suffix of the input that does not start with white space |
| `Cpf.TrimEnd` | src/Customers.Microservice.Domain/SeedWork/CPFValidator.cs:24 | the result is a prefix of the input that does not end with white space |
| `Cpf.Trim` | src/Customers.Microservice.Domain/SeedWork/CPFValidator.cs:24 | the trimmed string is no longer than the input and has no white space at either end |
| `Cpf.TrimStartDropsWhiteSpace` | src/Customers.Microservice.Domain/SeedWork/CPFValidator.cs:24 | what `TrimStart` drops is white space only |
| `Cpf.TrimEndDropsWhiteSpace` | src/Customers.Microservice.Domain/SeedWork/CPFValidator.cs:24 | what `TrimEnd` drops is white space only |
| `Cpf.RemoveCharLength` | src/Customers.Microservice.Domain/SeedWork/CPFValidator.cs:25 | `Replace(ch, "")` shortens the string by exactly the number of occurrences of `ch` |
| `Cpf.RemoveCharDrops` | src/Customers.Microservice.Domain/SeedWork/CPFValidator.cs:25 | `Replace(ch, "")` leaves no `ch` |
| `Cpf.RemoveCharKeepsAbsent` | src/Customers.Microservice.Domain/SeedWork/CPFValidator.cs:25 | removing one character introduces no other |
| `Cpf.IsWhiteSpace` | src/Customers.Microservice.Domain/SeedWork/CPFValidator.cs:24 | the characters .NET's `Char.IsWhiteSpace` accepts, which `Trim` removes; neither '.' nor '-' is among them |
| `Cpf.IsDigit` | src/Customers.Microservice.Domain/SeedWork/CPFValidator.cs:34 | the characters a one-character `int.Parse` accepts, '0'..'9'; none of them is white space, '.' or '-' |
| `Cpf.DigitValue` | src/Customers.Microservice.Domain/SeedWork/CPFValidator.cs:34 | the value a one-character `int.Parse` gives for a digit, always 0..9 |
| `Cpf.RemoveChar` | src/Customers.Microservice.Domain/SeedWork/CPFValidator.cs:25 | `Replace(ch, "")`: every occurrence of `ch` deleted, the rest kept in order; never longer than its input |
| `Cpf.WeightedSum` | src/Customers.Microservice.Domain/SeedWork/CPFValidator.cs:31-34 | the `sum +=` loop's value after its first k steps: digit values times weights, summed |
| `Cpf.SumNonNegative` | src/Customers.Microservice.Domain/SeedWork/CPFValidator.cs:31-34 | with the source's non-negative weights the weighted sum is never negative |
| `Cpf.EndsWith` | src/Customers.Microservice.Domain/SeedWork/CPFValidator.cs:64 | `EndsWith` holds exactly when the suffix fits and matches the last characters of the string one by one |
| `Cpf.CpfVerdict` | src/Customers.Microservice.Domain/SeedWork/CPFValidator.cs:11-65 | the whole outcome of `IsCpf`; the null-input failure arises exactly for a null argument |
| `Cpf.NormalizedVerdict` | src/Customers.Microservice.Domain/SeedWork/CPFValidator.cs:27-64 | the outcome after normalisation: false for a length other than 11; a format failure exactly when one of the first nine characters is not a digit; true only for eleven digits |
| `Cpf.Normalize` | src/Customers.Microservice.Domain/SeedWork/CPFValidator.cs:24-25 | the normalised string contains neither '.' nor '-' |
| `Cpf.FormattedNormalizes` | src/Customers.Microservice.Domain/SeedWork/CPFValidator.cs:24-25 | a number written as digit groups `a.b.c-d` normalises to the bare digits `abcd` |
| `Cpf.CheckDigit` | src/Customers.Microservice.Domain/SeedWork/CPFValidator.cs:36-41 | a check digit is 0..9 (so the expected suffix is two characters) and brings the sum to a multiple of 11, except for remainder 1, where it is 0 |
| `Cpf.CheckDigitIsReference` | src/Customers.Microservice.Domain/SeedWork/CPFValidator.cs:36-41 | the check digit equals the textbook "ten times the sum, mod 11, mod 10" |
| `Cpf.WeightedSumIsRefSum` | src/Customers.Microservice.Domain/SeedWork/CPFValidator.cs:13-14 | the weight arrays give the textbook weights 10..2 and 11..2, position by position |
| `Cpf.IsCpf` | src/Customers.Microservice.Domain/SeedWork/CPFValidator.cs:11-65 | the validator returns exactly `CpfVerdict`: null throws; otherwise the normalised input is judged |
| `Cpf.CheckDigits` | src/Customers.Microservice.Domain/SeedWork/CPFValidator.cs:27-64 | the two loops over the weights compute exactly `NormalizedVerdict` of the normalised string |
| `Cpf.AcceptsIffReferenceValid` | src/Customers.Microservice.Domain/SeedWork/CPFValidator.cs:27-64 | a normalised string is accepted if and only if it is eleven digits that satisfy the textbook CPF rule for both check digits |
| `Cpf.ErrorAndLengthCases` | src/Customers.Microservice.Domain/SeedWork/CPFValidator.cs:24-28 | null input fails with NullInput; a normalised length other than 11 gives false; with length 11 the result is an error exactly when one of the first nine characters is not a digit |
| `Cpf.AcceptedSample` | test/Customers.Microservice.Domain.Test/DomainTest.cs:316-327 | "948.138.820-48", normalised to "94813882048", is accepted (check digits 4 and 8) |
| `Cpf.RejectedSample` | test/Customers.Microservice.Domain.Test/DomainTest.cs:329-339 | "000.138.820-48", normalised to "00013882048", is rejected (first check digit 7, not 4) |
| `Cpf.RejectedTestString` | test/Customers.Microservice.Domain.Test/DomainTest.cs:329-339 | the test input "000.138.820-48", exactly as written, is rejected by `IsCpf`'s verdict |
| `UserRepositories.HasEntry` | src/Customers.Microservice.Infrastructure/Repositories/UserRepository.cs:25 | some single entry's key is the name and its value the password, null comparing equal to null; a match implies the name is non-null, is a key, and its value equals the password |
| `UserRepositories.SelectByNameAndPassword` | src/Customers.Microservice.Infrastructure/Repositories/UserRepository.cs:17-30 | the search answers true exactly when some single entry has key equal to the name and value equal to the password, whatever order the entries are visited in |
| `UserRepositories.HasEntryIsLookup` | src/Customers.Microservice.Infrastructure/Repositories/UserRepository.cs:23-29 | the match is the same as: the name is not null, is a key, and its value equals the password (both possibly null) |
| `UserRepositories.NoMatchCases` | src/Customers.Microservice.Infrastructure/Repositories/UserRepository.cs:23-29 | an empty dictionary or a null name never matches; a null password matches exactly when the name's value is null, so never when every value is present |
| `UserRepositories.NullValueMatchesNullPassword` | src/Customers.Microservice.Infrastructure/Repositories/UserRepository.cs:25 | with the secret `{"admin": null}`, the name "admin" and a null password match, and an empty password does not |
| `UserRepositories.NoCrossEntryMatch` | src/Customers.Microservice.Infrastructure/Repositories/UserRepository.cs:25 | a name that is one entry's key, with a password equal to a different entry's value but not its own, gives false |
| `Endpoints.StatusCode` | src/Customers.Microservice.Application/Extensions/Endpoints.cs:65 | 401 only for Unauthorized, 404 only for NotFound, 500 only for an escaped exception, 200 otherwise |
| `Endpoints.IsNullOrEmpty` | src/Customers.Microservice.Application/Extensions/Endpoints.cs:26 | `string.IsNullOrEmpty`: a value that passes it is present and non-empty |
| `Endpoints.Login` | src/Customers.Microservice.Application/Extensions/Endpoints.cs:24-46 | empty or null credentials give Unauthorized without consulting the service; sign-in happens exactly when both are non-empty and the service says valid, and the principal's Name is the submitted name; a service answer of false gives Unauthorized; a missing service throws |
| `Endpoints.GetCustomerById` | src/Customers.Microservice.Application/Extensions/Endpoints.cs:61-66 | Ok with the record exactly when the service's record has a nonzero id; the sentinel or a missing service gives NotFound |
| `Endpoints.GetCustomers` | src/Customers.Microservice.Application/Extensions/Endpoints.cs:80-84 | the service's list unchanged (null without a service), status 200 |
| `Endpoints.PostCustomer` | src/Customers.Microservice.Application/Extensions/Endpoints.cs:98-102 | the id Insert returned (null without a service), status 200 |
| `Endpoints.OkOrNotFound` | src/Customers.Microservice.Application/Extensions/Endpoints.cs:117-121 | PUT, PATCH and DELETE answer Ok exactly when the service returned true, NotFound otherwise, including without a service |
| `Endpoints.LoginAgainstSecrets` | src/Customers.Microservice.Application/Extensions/Endpoints.cs:26-45 | checked against a secrets dictionary, login signs in exactly the non-empty pairs the dictionary holds, under the submitted name; all other pairs get Unauthorized |
| `Endpoints.GetAfterInsert` | src/Customers.Microservice.Application/Extensions/Endpoints.cs:63-65 | in a valid store, GET of the id that POST just returned answers Ok with the record just stored |
| `Endpoints.GetAfterUpdate` | src/Customers.Microservice.Application/Extensions/Endpoints.cs:136-140 | PUT/PATCH on a nonzero stored id answers Ok, and a later GET shows the new name under the same id |
| `Endpoints.GetAfterDelete` | src/Customers.Microservice.Application/Extensions/Endpoints.cs:155-159 | DELETE answers Ok exactly for a nonzero stored id, and a GET afterwards answers NotFound |
| `Endpoints.NotFoundIffAbsent` | src/Customers.Microservice.Application/Extensions/Endpoints.cs:63-65 | in a valid store, GET, PUT, PATCH and DELETE answer NotFound exactly for ids not stored |
| `Endpoints.Walkthrough` | src/Customers.Microservice.Application/Extensions/Endpoints.cs:51-162 | on a freshly seeded store, through the real service and repository: list returns the seed; GET 1 returns Jorge; GET 99 is NotFound; POST returns 6; PUT 6 is Ok; GET 6 shows the new name; DELETE 6 is Ok; GET 6 is then NotFound |

## Left out

- **The rate limiter.** This is the fixed window of five requests per second per client IP. It is configuration of framework limiter types whose code is not shown.
- **Token issuing and checking.** This includes the bearer scheme, the 30-minute expiry and `RequireAuthorization`. These are framework behaviour. Login is modelled up to the sign-in decision and the principal's Name claim.
- **Fetching the secrets dictionary from the cloud secret store and deserialising it from JSON.** Network and library code. The dictionary is a parameter of `SelectByNameAndPassword`.
- **`UserService.IsValidUser`.** In the source it is a stub that always answers true, with the repository call commented out. It is the `isValidUser` input of `Login`. `LoginAgainstSecrets` shows what login would do with the repository call enabled.
- **Dependency injection, Swagger metadata, antiforgery, and the `RequireRateLimiting`/`WithOpenApi` chaining.** All of it is framework plumbing. A service the container cannot supply is a `None` input.
- **Concurrency.** The store is one shared object with no locking. Only sequential calls are modelled.
- **Reference aliasing.** `Select` and `SelectById` hand out live references that callers could mutate. Records are values here.
- **Constants with no logic.** These are the permit limit, window, expiry, secret name and region.
- **Interfaces and plain data classes.** They only give the shapes of `Customer` and `User`.
- `CustomerRepositories.CustomerRepository.Insert`: does not model C# `int` wrap-around of the counter. Instead it requires the counter to be below 2147483647.
- `CustomerServices.CustomerService.Insert`: carries the same bound, requiring the counter to be below 2147483647, because it forwards to the repository's `Insert`. Wrap-around is not modelled here either.
- `Cpf.IsCpf`: these .NET details are not modelled:
  - `EndsWith` is compared character by character. .NET compares culture-sensitively, and ignorable characters could change the result.
  - Characters are Unicode scalar values. .NET uses UTF-16 code units, which changes lengths only for characters outside the Basic Multilingual Plane.
- The accepted test string "948.138.820-48" is not verified end to end as one lemma, because that proof is too costly for the verifier. `FormattedNormalizes` shows that it normalises to "94813882048", and `AcceptedSample` accepts that. The rejected string is verified end to end by `RejectedTestString`.
