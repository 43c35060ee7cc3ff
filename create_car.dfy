/** `CreateCar`: the POST /cars handler as it stands. It validates the request
    and answers Ok; it does not create or store a car. */
module CreateCar {
  import opened Text
  import opened Validation
  import opened Http
  import Cars

  datatype Request = Request(name: string)

  /** Declared for the created car's representation; the handler does not produce it. */
  datatype Response = Response(id: Cars.Guid, name: string)

  /** `CreateCar.Validator`: `Name` must not be empty. It sets no maximum length. */
  function Validate(request: Request): (r: ValidationResult)
    ensures r.IsValid() <==> !IsBlank(request.name)
    ensures |r.errors| <= 1
    ensures forall e :: e in r.errors ==> e.propertyName == "Name"
  {
    ValidationResult(NotEmpty("Name", request.name))
  }

  /** `Handler`: BadRequest with the combined errors when a validator fails, Ok otherwise. */
  method Handler(request: Request, validators: seq<Validator<Request>>) returns (r: HttpResult<()>)
    ensures r.Ok? || r.BadRequest?
    ensures r.Ok? <==> AllValid(validators, request)
    ensures r.BadRequest? ==>
              && r.errors != map[]
              && r.errors == Combine(Flatten(RunAll(validators, request)))
              && CombinesErrors(r.errors, Flatten(RunAll(validators, request)))
  {
    var failedValidations := ValidateAll(validators, request);
    if |failedValidations| > 0 {
      CombinedFailures(validators, request);
      var errors := ToCombinedDictionary(failedValidations);
      return BadRequest(errors);
    }
    return Ok(());
  }

  /** An empty name gives exactly one error, on `Name`. */
  lemma EmptyNameRejected()
    ensures |Validate(Request("")).errors| == 1
    ensures Validate(Request("")).errors[0].propertyName == "Name"
  {
  }

  /** Names of one and of fifty visible characters are accepted. */
  lemma BoundaryLengthsAccepted(c: char)
    requires !IsWhiteSpace(c)
    ensures Validate(Request(Repeat(c, 1))).IsValid()
    ensures Validate(Request(Repeat(c, Cars.NameMaxLength))).IsValid()
  {
    assert !IsWhiteSpace(Repeat(c, 1)[0]);
    assert !IsWhiteSpace(Repeat(c, Cars.NameMaxLength)[0]);
  }

  /** The validator as written also accepts a name one character longer than
      the column allows, so a request the unit tests expect to be rejected
      passes it. */
  lemma OverlongNameAccepted(c: char)
    requires !IsWhiteSpace(c)
    ensures Validate(Request(Repeat(c, Cars.NameMaxLength + 1))).IsValid()
  {
    assert !IsWhiteSpace(Repeat(c, Cars.NameMaxLength + 1)[0]);
  }
}
