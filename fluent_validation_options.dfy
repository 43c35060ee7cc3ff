/** `FluentValidationOptions<TOptions>`: the options-validation hook that
    runs every registered validator over a named options instance and turns
    the outcome into Skip, Success or Fail. */
module OptionsValidation {
  import opened Wrappers
  import opened Validation

  /** `ValidateOptionsResult`. */
  datatype ValidateOptionsResult = Skip | Success | Fail(failures: seq<string>)

  class FluentValidationOptions<TOptions> {
    /** The name of the options instance this hook validates (`null` for the default one). */
    var Name: Option<string>
    /** The validators registered for `TOptions`. */
    const validators: seq<Validator<TOptions>>

    constructor (name: Option<string>, validators: seq<Validator<TOptions>>)
      ensures Name == name && this.validators == validators
    {
      Name := name;
      this.validators := validators;
    }

    /** A request for another named instance is skipped. */
    predicate SkipsName(name: Option<string>)
      reads this
    {
      name.Some? && name != Name
    }

    /** `Validate(name, options)`; `options == None` stands for `null`. */
    function Validate(name: Option<string>, options: Option<TOptions>): (r: Result<ValidateOptionsResult>)
      reads this
      // another name is skipped, before anything else is looked at; a null name never is
      ensures r == Returns(Skip) <==> name.Some? && name != Name
      // a null instance that is not skipped is an argument error
      ensures r == Throws(ArgumentNull("options")) <==> !SkipsName(name) && options.None?
      // success exactly when every validator accepts the instance
      ensures r == Returns(Success) <==>
                !SkipsName(name) && options.Some? &&
                forall i :: 0 <= i < |validators| ==> validators[i](options.value).IsValid()
      // otherwise a failure
      ensures !SkipsName(name) && options.Some? && !AllValid(validators, options.value) ==>
                r.Returns? && r.value.Fail?
      // carrying every message of every validator, in order
      ensures r.Returns? && r.value.Fail? ==>
                options.Some? && r.value.failures != [] &&
                r.value.failures == Messages(Flatten(RunAll(validators, options.value)))
    {
      if name.Some? && name != Name then Returns(Skip)
      else if options.None? then Throws(ArgumentNull("options"))
      else
        var failed := ValidateAll(validators, options.value);
        if |failed| == 0 then Returns(Success)
        else
          FailureMessagesComplete(validators, options.value);
          Returns(Fail(Messages(Flatten(failed))))
    }
  }

  /** The messages of the failed results are those of all results, and there
      is at least one when some result failed. */
  lemma FailureMessagesComplete<T>(validators: seq<Validator<T>>, instance: T)
    requires ValidateAll(validators, instance) != []
    ensures Messages(Flatten(ValidateAll(validators, instance))) == Messages(Flatten(RunAll(validators, instance)))
    ensures Messages(Flatten(ValidateAll(validators, instance))) != []
  {
    var failed := ValidateAll(validators, instance);
    FlattenFailedOnly(RunAll(validators, instance));
    var r := failed[0];
    assert !r.IsValid();
    var e := r.errors[0];
    FlattenMembers(failed, e);
  }
}
