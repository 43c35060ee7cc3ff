/** FluentValidation's results, the two rules the request and options
    validators use, and the aggregation helpers of `ValidatorExtensions`:
    `ValidateAllAsync` (run every validator, keep the failed results) and
    `ToCombinedDictionary` (fold all field errors into one dictionary). */
module Validation {
  import opened Text

  /** One failed rule: the property it is about and its message. */
  datatype ValidationFailure = ValidationFailure(propertyName: string, errorMessage: string)

  /** The outcome of one validator on one instance. */
  datatype ValidationResult = ValidationResult(errors: seq<ValidationFailure>) {
    predicate IsValid() {
      |errors| == 0
    }
  }

  /** A validator for instances of `T` (`IValidator<T>`), viewed as what it computes. */
  type Validator<!T> = T -> ValidationResult

  // ---------------------------------------------------------------------------
  // The two FluentValidation rules used by the core
  // ---------------------------------------------------------------------------

  /** `RuleFor(x => x.P).NotEmpty()` on a string: fails on an empty or
      white-space-only value, with FluentValidation's default message. */
  function NotEmpty(property: string, value: string): (r: seq<ValidationFailure>)
    ensures |r| <= 1
    ensures r == [] <==> !IsBlank(value)
    ensures forall e :: e in r ==> e.propertyName == property
  {
    if IsBlank(value) then [ValidationFailure(property, "'" + property + "' must not be empty.")] else []
  }

  /** `RuleFor(x => x.P).MaximumLength(max)`: fails when the value has more
      than `max` characters, with FluentValidation's default message. */
  function MaximumLength(property: string, value: string, max: nat): (r: seq<ValidationFailure>)
    ensures |r| <= 1
    ensures r == [] <==> |value| <= max
    ensures forall e :: e in r ==> e.propertyName == property
  {
    if |value| <= max then []
    else
      [ValidationFailure(property,
         "The length of '" + property + "' must be " + NatToString(max)
         + " characters or fewer. You entered " + NatToString(|value|) + " characters.")]
  }

  // ---------------------------------------------------------------------------
  // ValidateAllAsync
  // ---------------------------------------------------------------------------

  /** Every validator applied to the same instance, in validator order
      (the `Select(validator => validator.ValidateAsync(instance))` fan-out). */
  function RunAll<T>(validators: seq<Validator<T>>, instance: T): (rs: seq<ValidationResult>)
    ensures |rs| == |validators|
    ensures forall i :: 0 <= i < |validators| ==> rs[i] == validators[i](instance)
  {
    if validators == [] then [] else [validators[0](instance)] + RunAll(validators[1..], instance)
  }

  /** The results that are not valid, in their original order (`Where(x => !x.IsValid)`). */
  function FailedOnly(results: seq<ValidationResult>): (failed: seq<ValidationResult>)
    ensures |failed| <= |results|
    ensures forall r :: r in failed ==> r in results && !r.IsValid()
    ensures forall r :: r in results && !r.IsValid() ==> r in failed
    ensures failed == [] <==> forall r :: r in results ==> r.IsValid()
  {
    if results == [] then []
    else if results[0].IsValid() then FailedOnly(results[1..])
    else [results[0]] + FailedOnly(results[1..])
  }

  /** Every validator accepts the instance. */
  predicate AllValid<T>(validators: seq<Validator<T>>, instance: T) {
    forall i :: 0 <= i < |validators| ==> validators[i](instance).IsValid()
  }

  /** `ValidateAllAsync`: run every validator against `instance` and keep the
      failed results. */
  function ValidateAll<T>(validators: seq<Validator<T>>, instance: T): (failed: seq<ValidationResult>)
    ensures forall r :: r in failed ==> !r.IsValid()
    ensures forall r :: r in failed ==> exists i :: 0 <= i < |validators| && r == validators[i](instance)
    ensures forall i :: 0 <= i < |validators| && !validators[i](instance).IsValid() ==>
              validators[i](instance) in failed
    ensures failed == [] <==> AllValid(validators, instance)
  {
    var all := RunAll(validators, instance);
    assert forall r :: r in all ==> exists i :: 0 <= i < |validators| && r == validators[i](instance);
    FailedOnly(all)
  }

  /** Filtering commutes with concatenation: the failed results keep the
      order of the validators that produced them. */
  lemma {:induction false} FailedOnlyAppend(a: seq<ValidationResult>, b: seq<ValidationResult>)
    ensures FailedOnly(a + b) == FailedOnly(a) + FailedOnly(b)
  {
    if a == [] {
      assert a + b == b;
    } else {
      assert (a + b)[0] == a[0];
      assert (a + b)[1..] == a[1..] + b;
      FailedOnlyAppend(a[1..], b);
    }
  }

  /** Running two groups of validators reports the first group's failures
      before the second's: nothing is reordered and nothing is dropped. */
  lemma {:induction false} ValidateAllAppend<T>(v1: seq<Validator<T>>, v2: seq<Validator<T>>, instance: T)
    ensures ValidateAll(v1 + v2, instance) == ValidateAll(v1, instance) + ValidateAll(v2, instance)
  {
    var a, b, ab := RunAll(v1, instance), RunAll(v2, instance), RunAll(v1 + v2, instance);
    assert |ab| == |a + b|;
    forall i | 0 <= i < |ab| ensures ab[i] == (a + b)[i] {
      if i < |v1| {
        assert (v1 + v2)[i] == v1[i];
      } else {
        assert (v1 + v2)[i] == v2[i - |v1|];
      }
    }
    assert ab == a + b;
    FailedOnlyAppend(a, b);
  }

  // ---------------------------------------------------------------------------
  // Flattening errors (`SelectMany(x => x.Errors)`)
  // ---------------------------------------------------------------------------

  function Flatten(results: seq<ValidationResult>): (errs: seq<ValidationFailure>)
  {
    if results == [] then [] else results[0].errors + Flatten(results[1..])
  }

  /** The messages of a sequence of failures, in order. */
  function Messages(errs: seq<ValidationFailure>): (ms: seq<string>)
    ensures |ms| == |errs|
    ensures forall i :: 0 <= i < |errs| ==> ms[i] == errs[i].errorMessage
  {
    seq(|errs|, i requires 0 <= i < |errs| => errs[i].errorMessage)
  }

  /** An error is in the flattening exactly when some result carries it. */
  lemma {:induction false} FlattenMembers(results: seq<ValidationResult>, e: ValidationFailure)
    ensures e in Flatten(results) <==> exists r :: r in results && e in r.errors
  {
    if results != [] {
      FlattenMembers(results[1..], e);
      assert forall r :: r in results <==> r == results[0] || r in results[1..];
    }
  }

  /** Dropping the valid results drops no error: valid results carry none. */
  lemma {:induction false} FlattenFailedOnly(results: seq<ValidationResult>)
    ensures Flatten(FailedOnly(results)) == Flatten(results)
  {
    if results != [] {
      FlattenFailedOnly(results[1..]);
      if results[0].IsValid() {
        assert results[0].errors + Flatten(results[1..]) == Flatten(results[1..]);
      } else {
        assert FailedOnly(results) == [results[0]] + FailedOnly(results[1..]);
        assert ([results[0]] + FailedOnly(results[1..]))[1..] == FailedOnly(results[1..]);
      }
    }
  }

  // ---------------------------------------------------------------------------
  // ToCombinedDictionary
  // ---------------------------------------------------------------------------

  /** The property names mentioned by a sequence of failures. */
  function PropertyNames(errs: seq<ValidationFailure>): set<string> {
    set e | e in errs :: e.propertyName
  }

  /** The messages reported for property `p`. */
  function MessagesFor(errs: seq<ValidationFailure>, p: string): set<string> {
    set e | e in errs && e.propertyName == p :: e.errorMessage
  }

  /** One step of the fold: the first error of a property creates its entry,
      a later one adds its message unless the entry already holds it (the
      `HashSet<string>.Add`, whose set is kept here as a duplicate-free
      sequence in insertion order). */
  function AddError(combined: map<string, seq<string>>, e: ValidationFailure): map<string, seq<string>> {
    if e.propertyName !in combined then combined[e.propertyName := [e.errorMessage]]
    else if e.errorMessage in combined[e.propertyName] then combined
    else combined[e.propertyName := combined[e.propertyName] + [e.errorMessage]]
  }

  /** The dictionary built from the failures in order. */
  function Combine(errs: seq<ValidationFailure>): map<string, seq<string>>
  {
    if errs == [] then map[] else AddError(Combine(errs[..|errs| - 1]), errs[|errs| - 1])
  }

  /** What the combined dictionary means: its keys are exactly the property
      names of the errors, each entry is duplicate-free, and it lists exactly
      the messages reported for that property. */
  ghost predicate CombinesErrors(combined: map<string, seq<string>>, errs: seq<ValidationFailure>) {
    && combined.Keys == PropertyNames(errs)
    && forall p :: p in combined ==>
         NoDuplicates(combined[p]) && (set m | m in combined[p]) == MessagesFor(errs, p)
  }

  lemma AppendOne(pre: seq<ValidationFailure>, e: ValidationFailure, p: string)
    ensures PropertyNames(pre + [e]) == PropertyNames(pre) + {e.propertyName}
    ensures MessagesFor(pre + [e], p) ==
              MessagesFor(pre, p) + (if e.propertyName == p then {e.errorMessage} else {})
  {
  }

  lemma {:induction false} CombineMeaning(errs: seq<ValidationFailure>)
    ensures CombinesErrors(Combine(errs), errs)
  {
    if errs != [] {
      var pre, e := errs[..|errs| - 1], errs[|errs| - 1];
      assert errs == pre + [e];
      CombineMeaning(pre);
      var before, after := Combine(pre), Combine(errs);
      forall p | p in after
        ensures NoDuplicates(after[p]) && (set m | m in after[p]) == MessagesFor(errs, p)
      {
        AppendOne(pre, e, p);
        if p == e.propertyName && p in before && e.errorMessage !in before[p] {
          assert (set m | m in after[p]) == (set m | m in before[p]) + {e.errorMessage};
        }
      }
      AppendOne(pre, e, e.propertyName);
    }
  }

  /** An empty sequence of results yields an empty dictionary. */
  lemma CombineEmpty(results: seq<ValidationResult>)
    requires forall r :: r in results ==> r.IsValid()
    ensures Combine(Flatten(results)) == map[]
  {
    FailedOnlyEmpty(results);
    FlattenFailedOnly(results);
  }

  lemma FailedOnlyEmpty(results: seq<ValidationResult>)
    requires forall r :: r in results ==> r.IsValid()
    ensures FailedOnly(results) == []
  {
  }

  /** The dictionary built from the failed results is the one built from all
      results, and it has an entry as soon as one validator failed. */
  lemma {:induction false} CombinedFailures<T>(validators: seq<Validator<T>>, instance: T)
    ensures Combine(Flatten(ValidateAll(validators, instance))) == Combine(Flatten(RunAll(validators, instance)))
    ensures CombinesErrors(Combine(Flatten(ValidateAll(validators, instance))), Flatten(RunAll(validators, instance)))
    ensures ValidateAll(validators, instance) != [] ==> Combine(Flatten(ValidateAll(validators, instance))) != map[]
  {
    var all := RunAll(validators, instance);
    var failed := ValidateAll(validators, instance);
    FlattenFailedOnly(all);
    CombineMeaning(Flatten(all));
    if failed != [] {
      var e := failed[0].errors[0];
      FlattenMembers(failed, e);
      assert e.propertyName in PropertyNames(Flatten(failed));
    }
  }

  /** `ToCombinedDictionary`: fold every error of every result into a map from
      property name to its distinct messages. */
  method ToCombinedDictionary(results: seq<ValidationResult>) returns (combined: map<string, seq<string>>)
    ensures combined == Combine(Flatten(results))
    ensures combined.Keys == PropertyNames(Flatten(results))
    ensures forall p :: p in combined ==> NoDuplicates(combined[p])
    ensures forall p :: p in combined ==> (set m | m in combined[p]) == MessagesFor(Flatten(results), p)
  {
    var errs := Flatten(results);
    combined := map[];
    var i := 0;
    while i < |errs|
      invariant 0 <= i <= |errs|
      invariant combined == Combine(errs[..i])
    {
      var error := errs[i];
      assert errs[..i + 1][..i] == errs[..i];
      if error.propertyName !in combined {
        combined := combined[error.propertyName := [error.errorMessage]];
      } else {
        var value := combined[error.propertyName];
        if error.errorMessage !in value {
          combined := combined[error.propertyName := value + [error.errorMessage]];
        }
      }
      i := i + 1;
    }
    assert errs[..i] == errs;
    CombineMeaning(errs);
  }
}
