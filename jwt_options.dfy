/** `JwtOptions` (the bearer-token settings read from the "JWT" section) and
    `JwtOptionsValidator`, which demands the three required settings. */
module Jwt {
  import opened Wrappers
  import opened Text
  import opened Validation

  const SectionName: string := "JWT"

  datatype JwtOptions = JwtOptions(
    audience: string,
    authority: string,
    issuer: string,
    /** The claim that carries the user name; `None` means the standard name claim. */
    nameClaimType: Option<string>)

  /** A default-constructed `JwtOptions`. */
  function DefaultOptions(): (o: JwtOptions)
    ensures o.audience == "" && o.authority == "" && o.issuer == ""
    ensures o.nameClaimType.None?
  {
    JwtOptions("", "", "", None)
  }

  /** `JwtOptionsValidator`: `Audience`, `Authority` and `Issuer` must not be empty. */
  function Validate(o: JwtOptions): (r: ValidationResult)
    ensures r.IsValid() <==> !IsBlank(o.audience) && !IsBlank(o.authority) && !IsBlank(o.issuer)
    ensures PropertyNames(r.errors) ==
              (if IsBlank(o.audience) then {"Audience"} else {})
              + (if IsBlank(o.authority) then {"Authority"} else {})
              + (if IsBlank(o.issuer) then {"Issuer"} else {})
  {
    var errs := NotEmpty("Audience", o.audience) + NotEmpty("Authority", o.authority) + NotEmpty("Issuer", o.issuer);
    assert forall e :: e in errs <==>
      e in NotEmpty("Audience", o.audience) || e in NotEmpty("Authority", o.authority) || e in NotEmpty("Issuer", o.issuer);
    ValidationResult(errs)
  }

  /** Default-constructed options fail on all three required settings, once each. */
  lemma DefaultOptionsInvalid()
    ensures |Validate(DefaultOptions()).errors| == 3
    ensures PropertyNames(Validate(DefaultOptions()).errors) == {"Audience", "Authority", "Issuer"}
  {
  }

  /** The name claim type is not constrained: it may be anything, null included. */
  lemma NameClaimTypeUnconstrained(o: JwtOptions, nameClaimType: Option<string>)
    ensures Validate(o.(nameClaimType := nameClaimType)) == Validate(o)
  {
  }
}
