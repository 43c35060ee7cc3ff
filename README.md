# Vegasco request-handling core in Dafny

Vegasco is a small authenticated CRUD web service over one resource, the
`Car`. This project models the part of it that carries behaviour:

- **Validation aggregation** (`ValidatorExtensions`). `ValidateAllAsync` runs
  every validator registered for a request type and keeps the failed results.
  `ToCombinedDictionary` folds their errors into a map from property name to
  distinct messages. `FluentValidationOptions<TOptions>.Validate` decides Skip,
  Success or Fail for a named options instance.
- **Identity resolution** (`UserAccessor`). The user's id and name come from the
  first claim of a given type. Each is cached after its first successful
  lookup, in its own field.
- **Options validation** (`JwtOptions`, `JwtOptionsValidator`). Audience,
  Authority and Issuer are required.
- **The car entity and its endpoints** (`Car`, `CarTableConfiguration`,
  `CreateCar`, `UpdateCar`, `GetCar`, `DeleteCar`, `GetCars`). The database is
  a map from `Guid` to `Car`, keyed by `Id`. `SaveChanges` is an atomic commit
  that refuses a table breaking the column constraints.

Layout: one module per source file or component. `wrappers.dfy` holds
Option, Result and the exceptions. `text.dfy` holds .NET string helpers
(`char.IsWhiteSpace`, `string.IsNullOrWhiteSpace`). `validator_extensions.dfy`
(module `Validation`) holds `ValidateAllAsync`, `ToCombinedDictionary` and the
two FluentValidation rules the core uses. `fluent_validation_options.dfy`,
`jwt_options.dfy`, `user_accessor.dfy` (module `Identity`), `car.dfy`
(module `Cars`) and `http.dfy` follow. Each endpoint has its own file.

Modelling choices:

- A validator is the function it computes: a request goes in, a
  `ValidationResult` (a sequence of `(propertyName, errorMessage)` failures)
  comes out. A result is valid exactly when it has no errors.
- The `Task.WhenAll` fan-out is a sequential map over the validators.
- `NotEmpty` on a string rejects null, empty and white-space-only values.
  `MaximumLength(n)` accepts lengths up to `n`. The messages follow
  FluentValidation's default English templates.
- The `HashSet<string>` behind each dictionary entry is a duplicate-free
  sequence in insertion order. `HashSet` gives that order when nothing is
  removed, but .NET does not document it. `ToCombinedDictionary`,
  `CreateCar.Handler` and `UpdateCar.Endpoint` state their result as the fold
  `Combine`, so they commit to insertion order. `CombinesErrors` and
  `CombineMeaning` state only membership and distinctness, which hold
  whatever the order.
- `UserAccessor` reads `IHttpContextAccessor.HttpContext` and
  `IOptions<JwtOptions>.Value` at call time only. Each method therefore takes
  their current values as parameters. A missing context is `None`. A principal
  is a sequence of claims.
- `UserAccessor` tests its cache with `string.IsNullOrEmpty`. Only non-blank
  claim values are ever cached, so that test acts as a null test. The model
  keeps the test as written.
- Claim types are compared ignoring case, as `ClaimsIdentity.FindFirst` does
  (`StringComparison.OrdinalIgnoreCase`). Only ASCII letters are case-folded.
- C# `null` is `Option.None`. Exceptions are `Result.Throws`.
- `Guid.NewGuid()` is random, so its value is a parameter of `Cars.NewCar`.
- The internal `FluentValidationOptions<TOptions>` in
  `src/WebApi/Common/ValidatorExtensions.cs:64-94` has the same body as the
  public class in `src/WebApi/Common/FluentValidationOptions.cs`. One class
  models both.

## Where the code and its tests disagree

The model follows the code. It differs from the tests here:

- `CreateCar.Handler` returns 200 `Ok()` with no body and stores nothing
  (`src/WebApi/Cars/CreateCar.cs:36`).
  `tests/WebApi.Tests.Integration/Cars/CreateCarTests.cs:27-42` expects 201
  with the created car, stored in the database. `CreateCar.Handler` models the code, so nothing connects
  Create to Get.
- `CreateCar.Validator` checks only `NotEmpty` (`src/WebApi/Cars/CreateCar.cs:23-24`).
  `tests/WebApi.Tests.Unit/Cars/CreateCarRequestValidatorTests.cs:55-70` expects
  a 51-character name to be rejected. The lemma `CreateCar.OverlongNameAccepted`
  proves that the validator accepts such a name.
- `UpdateCar.Endpoint` calls `ValidateAllAsync(request, cancellationToken)`
  (`src/WebApi/Cars/UpdateCar.cs:39`). That overload does not exist in
  `ValidatorExtensions`, which has only `ValidateAllAsync(validators, instance)`.
  The model uses the two-argument version.
- Routing maps only `CreateCar` (`src/WebApi/Endpoints/EndpointExtensions.cs:37`).
  The other endpoints are modelled directly, as the handlers they are.
- No endpoint checks that the caller owns the car it reads, updates or
  deletes. `GetCars` imposes no order. The model adds neither.

## Model

| member | source | states |
|---|---|---|
| `Validation.NotEmpty` | src/WebApi/Cars/UpdateCar.cs:25-26 | at most one failure, on the given property, present exactly when the value is empty or white space |
| `Validation.MaximumLength` | src/WebApi/Cars/UpdateCar.cs:27 | at most one failure, on the given property, present exactly when the value is longer than the maximum |
| `Validation.RunAll` | src/WebApi/Common/ValidatorExtensions.cs:18-22 | one result per validator, in validator order, each from applying that validator to the same instance |
| `Validation.FailedOnly` | src/WebApi/Common/ValidatorExtensions.cs:24-27 | keeps exactly the invalid results: every kept result is an invalid input result, every invalid input result is kept, and nothing is kept iff all are valid |
| `Validation.ValidateAll` | src/WebApi/Common/ValidatorExtensions.cs:16-30 | every returned result is invalid and comes from some validator; every failing validator's result is returned; the list is empty iff every validator accepts the instance |
| `Validation.FailedOnlyAppend` | src/WebApi/Common/ValidatorExtensions.cs:24-27 | filtering commutes with concatenation, so failed results stay in input order |
| `Validation.ValidateAllAppend` | src/WebApi/Common/ValidatorExtensions.cs:18-27 | validating with two groups of validators returns the first group's failures followed by the second's |
| `Validation.FlattenMembers` | src/WebApi/Common/ValidatorExtensions.cs:37 | an error is in the flattened sequence iff some result carries it |
| `Validation.FlattenFailedOnly` | src/WebApi/Common/FluentValidationOptions.cs:28-34 | dropping the valid results drops no error: the failed results carry every error of all results, in order |
| `Validation.CombineMeaning` | src/WebApi/Common/ValidatorExtensions.cs:32-50 | the combined map's keys are exactly the errors' property names; each entry is duplicate-free and holds exactly the messages reported for that property |
| `Validation.CombineEmpty` | src/WebApi/Common/ValidatorExtensions.cs:35-49 | results that are all valid (in particular no results) give an empty dictionary |
| `Validation.CombinedFailures` | src/WebApi/Cars/CreateCar.cs:30-33 | the dictionary built from the failed results equals the one built from all results, means what CombineMeaning says, and is non-empty when some validator failed |
| `Validation.ToCombinedDictionary` | src/WebApi/Common/ValidatorExtensions.cs:32-50 | the loop builds the fold of all errors; its keys are all property names, its entries are duplicate-free, and each holds exactly that property's messages |
| `OptionsValidation.FluentValidationOptions.constructor` | src/WebApi/Common/FluentValidationOptions.cs:13-17 | stores the given name and validators unchanged |
| `OptionsValidation.FluentValidationOptions.Validate` | src/WebApi/Common/FluentValidationOptions.cs:19-35 | Skip iff a non-null name differs from `Name` (so a null name never skips); an argument error iff not skipped and the options are null; Success iff not skipped, non-null and every validator accepts; otherwise Fail with a non-empty list of every message of every validator, flattened in order |
| `OptionsValidation.FailureMessagesComplete` | src/WebApi/Common/FluentValidationOptions.cs:34 | when some validator failed, the messages of the failed results are all messages of all results, and there is at least one |
| `Jwt.DefaultOptions` | src/WebApi/Authentication/JwtOptions.cs:9-15 | Audience, Authority and Issuer default to the empty string; NameClaimType defaults to null |
| `Jwt.Validate` | src/WebApi/Authentication/JwtOptions.cs:18-30 | valid iff Audience, Authority and Issuer are all non-blank; the failing property names are exactly the blank ones among those three |
| `Jwt.DefaultOptionsInvalid` | src/WebApi/Authentication/JwtOptions.cs:9-29 | default-constructed options fail with three errors, on Audience, Authority and Issuer |
| `Jwt.NameClaimTypeUnconstrained` | src/WebApi/Authentication/JwtOptions.cs:15-30 | changing NameClaimType, null included, never changes the validation result |
| `Identity.FindFirstValue` | src/WebApi/Authentication/UserAccessor.cs:57 | none iff no claim has the type, compared ignoring case; otherwise the value of the first claim of that type |
| `Identity.GetClaimValue` | src/WebApi/Authentication/UserAccessor.cs:48-77 | a missing context throws "No HttpContext available."; a success is the first claim of the type and is not blank; any other failure throws the message naming the claim type, and happens only when that claim is absent or blank |
| `Identity.ClaimTypeCaseIgnored` | src/WebApi/Authentication/UserAccessor.cs:57 | a claim of type "Name" is found when "name" or "NAME" is asked for |
| `Identity.UsernameClaimType` | src/WebApi/Authentication/UserAccessor.cs:32 | the configured name claim type when set, `ClaimTypes.Name` only when it is null |
| `Identity.ClaimLookupExamples` | tests/WebApi.Tests.Unit/Authentication/UserAccessorTests.cs:48-176 | a principal with a name claim and an id claim resolves both; one without claims fails with the message naming the id claim type |
| `Identity.UserAccessor.constructor` | src/WebApi/Authentication/UserAccessor.cs:22-26 | both caches start unset |
| `Identity.UserAccessor.GetUsername` | src/WebApi/Authentication/UserAccessor.cs:28-36 | a cached name is returned without looking at context or options; otherwise the configured claim is looked up; only a success is cached; a success is never blank; the id cache is untouched |
| `Identity.UserAccessor.GetUserId` | src/WebApi/Authentication/UserAccessor.cs:38-46 | the same for the NameIdentifier claim and the id cache; the name cache is untouched |
| `Identity.UsernameCachedAcrossCalls` | tests/WebApi.Tests.Unit/Authentication/UserAccessorTests.cs:77-89 | after a successful first lookup, a second call returns the same value even with another context (or none) and other options; after a failed one, the second call looks up again |
| `Identity.IdIndependentOfUsername` | src/WebApi/Authentication/UserAccessor.cs:15-46 | resolving the name does not fill the id cache: the id is looked up in the context of its own call |
| `Cars.NewCar` | src/WebApi/Cars/Car.cs:9-13 | a new car has the drawn id, empty name and user id, and satisfies the column constraints |
| `Cars.SatisfiesSchema` | src/WebApi/Cars/Car.cs:20-28 | the `HasMaxLength(NameMaxLength)` column limit is exactly the limit of FluentValidation's `MaximumLength(50)` rule on Name: a row fits iff that rule reports no failure |
| `Cars.TableSchema` | src/WebApi/Cars/Car.cs:24-31 | a valid table holds at most one car per Id, since each car is stored under its own Id; every stored row's Name is at most NameMaxLength = 50 long; Name and UserId being required is always met by non-null strings; the empty table is valid |
| `Cars.ReplaceKeepsSchema` | src/WebApi/Cars/Car.cs:24-28 | replacing a car by one with the same key keeps the table valid iff the new row satisfies the constraints |
| `Cars.RemoveKeepsSchema` | src/WebApi/Cars/Car.cs:24-28 | removing a row keeps the table valid |
| `Cars.ExactlyOneOwner` | src/WebApi/Cars/Car.cs:33-34 | a stored car is among the cars of its own user and of no other |
| `Cars.OwnedSetsPartition` | src/WebApi/Cars/Car.cs:33-34 | the users' car sets partition the table: two different users own disjoint sets, and every stored car is in its owner's set |
| `Cars.ApplicationDbContext.Find` | src/WebApi/Cars/GetCar.cs:21 | null iff the key is absent; otherwise the stored car, whose Id is the key and whose name fits the column |
| `Cars.ApplicationDbContext.SaveChanges` | src/WebApi/Cars/UpdateCar.cs:53 | commits the staged table iff every row satisfies the schema; otherwise throws and leaves the store unchanged |
| `CreateCar.Validate` | src/WebApi/Cars/CreateCar.cs:19-26 | valid iff the name is not blank; at most one error, on Name |
| `CreateCar.Handler` | src/WebApi/Cars/CreateCar.cs:28-37 | Ok iff every validator accepts; otherwise BadRequest with a non-empty combined dictionary of all errors; no store or identity is touched |
| `CreateCar.EmptyNameRejected` | tests/WebApi.Tests.Unit/Cars/CreateCarRequestValidatorTests.cs:39-53 | an empty name gives exactly one error, on Name |
| `CreateCar.BoundaryLengthsAccepted` | tests/WebApi.Tests.Unit/Cars/CreateCarRequestValidatorTests.cs:24-37 | names of 1 and of 50 visible characters are valid |
| `CreateCar.OverlongNameAccepted` | src/WebApi/Cars/CreateCar.cs:23-24 | a 51-character visible name is valid too: the as-written validator has no length limit |
| `UpdateCar.Validate` | src/WebApi/Cars/UpdateCar.cs:21-29 | valid iff the name is non-blank and at most 50 long; all errors are on Name, one per broken rule |
| `UpdateCar.Endpoint` | src/WebApi/Cars/UpdateCar.cs:31-57 | a validation failure is BadRequest with the combined errors, even for an absent id, and changes nothing; an absent id is NotFound and changes nothing; otherwise only that car's Name becomes the requested name and the answer is Ok with (id, name); a too-long name is refused by the store; the store stays valid; with the real validator registered, no exception |
| `UpdateCar.ValidNameFitsColumn` | src/WebApi/Cars/UpdateCar.cs:25-27 | a name the update validator accepts is non-blank and fits the Name column, whatever car it is written to |
| `UpdateCar.UpdateThenGet` | tests/WebApi.Tests.Integration/Cars/UpdateCarTests.cs:28-48 | after a successful update, Get returns the id with the new name |
| `UpdateCar.EmptyNameRejected` | tests/WebApi.Tests.Unit/Cars/UpdateCarRequestValidatorTests.cs:39-53 | an empty name gives exactly one error, on Name |
| `UpdateCar.LengthLimits` | tests/WebApi.Tests.Unit/Cars/UpdateCarRequestValidatorTests.cs:24-69 | names of 1 and 50 visible characters pass; 51 gives exactly one error, on Name |
| `GetCar.Endpoint` | src/WebApi/Cars/GetCar.cs:16-30 | NotFound iff the id is absent; otherwise Ok with the stored car's Id (equal to the requested id) and Name; only reads the store |
| `DeleteCar.Endpoint` | src/WebApi/Cars/DeleteCar.cs:14-30 | an absent id is NotFound and changes nothing; a present id is NoContent, that key alone is removed, and the store stays valid |
| `DeleteCar.DeleteIsTerminal` | src/WebApi/Cars/DeleteCar.cs:19-29 | after a delete, Get and a second Delete of the same id both return NotFound |
| `GetCars.Endpoint` | src/WebApi/Cars/GetCars.cs:17-26 | always Ok; one entry per stored car (same count, ids exactly the keys, no duplicates), each the car's (Id, Name); an empty store gives an empty list; only reads the store |

## Left out

- Dependency injection, startup, `ValidateFluently` registration, the OpenTelemetry, JWT-bearer and Npgsql retry setup: framework configuration.
- Routing, API versioning, the authorization gate and OpenAPI document generation (`EndpointExtensions`, `ConfigureSwaggerGenOptions`): reflection and framework code.
- EF Core plumbing: the change tracker is reduced to the staged table that `SaveChanges` commits. Connection retry, transactions, `PersistenceUnavailable` and concurrent writers are not modelled.
- `Identity.FindFirstValue`, `Identity.GetClaimValue`, `Identity.ClaimLookupExamples`: claim types are case-folded for ASCII letters only. .NET's `OrdinalIgnoreCase` also folds letters outside ASCII; a Unicode case table is not modelled.
- `Validation.MaximumLength`: counts Unicode scalar values (Dafny `char`), while .NET's `string.Length` counts UTF-16 code units. Names outside the Basic Multilingual Plane are therefore measured shorter than .NET measures them.
- `User` and `UserTableConfiguration`: a car's owner is its `UserId` string.
- `Constants`: string constants only.
- `Task.WhenAll` and `CancellationToken`: validation and handlers run sequentially and are never cancelled.
- A JSON body whose `Name` is null: request names are non-null strings.
- The ordering of the list that `GetCars` returns: the store's order is unspecified, and the model picks keys in an arbitrary order.
- Display-name splitting and localisation of FluentValidation messages: every property validated here is a single word.
- `UpdateCar.Endpoint`'s `UserAccessor` parameter: the endpoint never uses it.
- The test harnesses (Docker Compose fixtures, the web application factory, Respawn, the always-authorised policy evaluator, the fakers): I/O and containers.
