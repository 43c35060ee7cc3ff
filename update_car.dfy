/** `UpdateCar`: the PUT /cars/{id} endpoint. Validation first, then lookup,
    then the name of the found car is changed and committed. */
module UpdateCar {
  import opened Wrappers
  import opened Text
  import opened Validation
  import opened Http
  import opened Cars
  import GetCar

  datatype Request = Request(name: string)
  datatype Response = Response(id: Guid, name: string)

  /** `UpdateCar.Validator`: `Name` must not be empty and at most `NameMaxLength` long. */
  function Validate(request: Request): (r: ValidationResult)
    ensures r.IsValid() <==> !IsBlank(request.name) && |request.name| <= NameMaxLength
    ensures forall e :: e in r.errors ==> e.propertyName == "Name"
    ensures |r.errors| == (if IsBlank(request.name) then 1 else 0) + (if |request.name| > NameMaxLength then 1 else 0)
  {
    var errs := NotEmpty("Name", request.name) + MaximumLength("Name", request.name, NameMaxLength);
    assert forall e :: e in errs <==>
      e in NotEmpty("Name", request.name) || e in MaximumLength("Name", request.name, NameMaxLength);
    ValidationResult(errs)
  }

  /** Some registered validator judges this request as `UpdateCar.Validator` does. */
  ghost predicate RunsValidator(validators: seq<Validator<Request>>, request: Request) {
    exists i :: 0 <= i < |validators| && validators[i](request) == Validate(request)
  }

  /** `Endpoint`. */
  method Endpoint(db: ApplicationDbContext, id: Guid, request: Request, validators: seq<Validator<Request>>)
    returns (r: Result<HttpResult<Response>>)
    requires db.Valid()
    modifies db
    ensures db.Valid()
    // validation comes first: a rejected request is BadRequest whether or not the car exists
    ensures !AllValid(validators, request) ==>
              && r == Returns(BadRequest(Combine(Flatten(RunAll(validators, request)))))
              && CombinesErrors(r.value.errors, Flatten(RunAll(validators, request)))
              && db.Cars == old(db.Cars)
    ensures AllValid(validators, request) && id !in old(db.Cars) ==>
              r == Returns(NotFound) && db.Cars == old(db.Cars)
    // only the name of that one car changes
    ensures AllValid(validators, request) && id in old(db.Cars) && |request.name| <= NameMaxLength ==>
              && r == Returns(Ok(Response(id, request.name)))
              && db.Cars == old(db.Cars)[id := old(db.Cars)[id].(name := request.name)]
    // a name the column cannot hold is refused by the store
    ensures AllValid(validators, request) && id in old(db.Cars) && |request.name| > NameMaxLength ==>
              r == Throws(DbUpdate) && db.Cars == old(db.Cars)
    // with the real validator registered the store never refuses the commit
    ensures RunsValidator(validators, request) ==> r.Returns?
  {
    var failedValidations := ValidateAll(validators, request);
    if |failedValidations| > 0 {
      CombinedFailures(validators, request);
      var errors := ToCombinedDictionary(failedValidations);
      return Returns(BadRequest(errors));
    }

    var car := db.Find(id);
    if car.None? {
      return Returns(NotFound);
    }

    var updated := car.value.(name := request.name);
    var staged := db.Cars[id := updated];
    assert updated.id == id && updated.userId == car.value.userId;
    ReplaceKeepsSchema(db.Cars, updated);
    var commit := db.SaveChanges(staged);
    if commit.Throws? {
      return Throws(commit.exception);
    }
    r := Returns(Ok(Response(updated.id, updated.name)));
  }

  /** After a successful update, reading the car returns the new name. */
  method UpdateThenGet(db: ApplicationDbContext, id: Guid, request: Request, validators: seq<Validator<Request>>)
    returns (updated: Result<HttpResult<Response>>, read: HttpResult<GetCar.Response>)
    requires db.Valid()
    modifies db
    ensures updated.Returns? && updated.value.Ok? ==> read == Ok(GetCar.Response(id, request.name))
  {
    updated := Endpoint(db, id, request, validators);
    read := GetCar.Endpoint(db, id);
    if updated.Returns? && updated.value.Ok? {
      assert id in db.Cars && db.Cars[id].name == request.name;
      assert read.body == GetCar.Response(read.body.id, read.body.name);
    }
  }

  /** A name the validator accepts always fits the `Name` column, so with the
      validator registered an update can never be refused by the store. */
  lemma ValidNameFitsColumn(c: Car, request: Request)
    requires Validate(request).IsValid()
    ensures SatisfiesSchema(c.(name := request.name))
    ensures !IsBlank(request.name)
  {
  }

  /** An empty name gives exactly one error, on `Name`. */
  lemma EmptyNameRejected()
    ensures |Validate(Request("")).errors| == 1
    ensures Validate(Request("")).errors[0].propertyName == "Name"
  {
  }

  /** Lengths one and fifty pass; fifty-one gives exactly one error, on `Name`. */
  lemma LengthLimits(c: char)
    requires !IsWhiteSpace(c)
    ensures Validate(Request(Repeat(c, 1))).IsValid()
    ensures Validate(Request(Repeat(c, NameMaxLength))).IsValid()
    ensures |Validate(Request(Repeat(c, NameMaxLength + 1))).errors| == 1
    ensures Validate(Request(Repeat(c, NameMaxLength + 1))).errors[0].propertyName == "Name"
  {
    assert !IsWhiteSpace(Repeat(c, 1)[0]);
    assert !IsWhiteSpace(Repeat(c, NameMaxLength)[0]);
    assert !IsWhiteSpace(Repeat(c, NameMaxLength + 1)[0]);
  }
}
