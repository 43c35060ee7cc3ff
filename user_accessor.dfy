/** `UserAccessor`: resolves the current user's id and name from the claims
    of the request's principal and remembers each one after its first
    successful lookup. */
module Identity {
  import opened Wrappers
  import opened Text
  import Jwt

  /** `ClaimTypes.Name` and `ClaimTypes.NameIdentifier`. */
  const ClaimTypeName: string := "http://schemas.xmlsoap.org/ws/2005/05/identity/claims/name"
  const ClaimTypeNameIdentifier: string := "http://schemas.xmlsoap.org/ws/2005/05/identity/claims/nameidentifier"

  const NoHttpContextMessage: string := "No HttpContext available."

  function MissingClaimMessage(claimType: string): string {
    "No claim of type '" + claimType + "' found on the current user."
  }

  datatype Claim = Claim(claimType: string, value: string)

  /** The part of the request's `HttpContext` the resolver reads: its principal's claims. */
  datatype HttpContext = HttpContext(user: seq<Claim>)

  /** Claim types are compared ignoring case, as `ClaimsIdentity.FindFirst` does. */
  predicate SameClaimType(a: string, b: string) {
    EqualsIgnoreCase(a, b)
  }

  /** Claim `i` is the first one of type `t`. */
  ghost predicate IsFirstOfType(claims: seq<Claim>, t: string, i: int) {
    && 0 <= i < |claims|
    && SameClaimType(claims[i].claimType, t)
    && forall j :: 0 <= j < i ==> !SameClaimType(claims[j].claimType, t)
  }

  /** `ClaimsPrincipal.FindFirstValue`: the value of the first claim of the given type. */
  function FindFirstValue(claims: seq<Claim>, t: string): (r: Option<string>)
    ensures r.None? <==> forall i :: 0 <= i < |claims| ==> !SameClaimType(claims[i].claimType, t)
    ensures r.Some? ==> exists i :: IsFirstOfType(claims, t, i) && claims[i].value == r.value
  {
    if claims == [] then None
    else if SameClaimType(claims[0].claimType, t) then
      assert IsFirstOfType(claims, t, 0);
      Some(claims[0].value)
    else
      var r := FindFirstValue(claims[1..], t);
      assert r.Some? ==> exists i :: IsFirstOfType(claims[1..], t, i) && claims[1..][i].value == r.value;
      assert forall i :: IsFirstOfType(claims[1..], t, i) ==> IsFirstOfType(claims, t, i + 1);
      r
  }

  /** `GetClaimValue`: the first claim of the type, which must exist and not be blank. */
  function GetClaimValue(context: Option<HttpContext>, claimType: string): (r: Result<string>)
    ensures context.None? ==> r == Throws(InvalidOperation(NoHttpContextMessage))
    ensures r.Returns? ==>
              && context.Some?
              && !IsBlank(r.value)
              && exists i :: IsFirstOfType(context.value.user, claimType, i) && context.value.user[i].value == r.value
    ensures context.Some? && r.Throws? ==>
              && r == Throws(InvalidOperation(MissingClaimMessage(claimType)))
              && forall i :: IsFirstOfType(context.value.user, claimType, i) ==> IsBlank(context.value.user[i].value)
  {
    if context.None? then Throws(InvalidOperation(NoHttpContextMessage))
    else
      var claimValue := FindFirstValue(context.value.user, claimType);
      if claimValue.None? || IsBlank(claimValue.value) then Throws(InvalidOperation(MissingClaimMessage(claimType)))
      else Returns(claimValue.value)
  }

  /** The claim that carries the user name: the configured one, or `ClaimTypes.Name` when none is configured. */
  function UsernameClaimType(options: Jwt.JwtOptions): (t: string)
    ensures options.nameClaimType.Some? ==> t == options.nameClaimType.value
    ensures options.nameClaimType.None? ==> t == ClaimTypeName
  {
    options.nameClaimType.GetOr(ClaimTypeName)
  }

  /** A principal with a name claim and an id claim resolves both; a principal
      without claims resolves neither, and the error names the claim type. */
  lemma ClaimLookupExamples(nameClaimType: string, name: string, id: string)
    requires !SameClaimType(nameClaimType, ClaimTypeNameIdentifier)
    requires !IsBlank(name) && !IsBlank(id)
    ensures var principal := HttpContext([Claim(nameClaimType, name), Claim(ClaimTypeNameIdentifier, id)]);
            && GetClaimValue(Some(principal), nameClaimType) == Returns(name)
            && GetClaimValue(Some(principal), ClaimTypeNameIdentifier) == Returns(id)
    ensures GetClaimValue(Some(HttpContext([])), ClaimTypeNameIdentifier)
              == Throws(InvalidOperation("No claim of type '" + ClaimTypeNameIdentifier + "' found on the current user."))
  {
    var principal := HttpContext([Claim(nameClaimType, name), Claim(ClaimTypeNameIdentifier, id)]);
    assert principal.user[1..] == [Claim(ClaimTypeNameIdentifier, id)];
    assert FindFirstValue(principal.user[1..], ClaimTypeNameIdentifier) == Some(id);
    assert FindFirstValue(principal.user, ClaimTypeNameIdentifier) == Some(id);
  }

  /** A claim is found whatever the case of its type: the unit tests' name
      claim type "name" finds a claim of type "Name". */
  lemma ClaimTypeCaseIgnored(name: string)
    requires !IsBlank(name)
    ensures GetClaimValue(Some(HttpContext([Claim("Name", name)])), "name") == Returns(name)
    ensures GetClaimValue(Some(HttpContext([Claim("Name", name)])), "NAME") == Returns(name)
  {
    assert SameClaimType("Name", "name") && SameClaimType("Name", "NAME");
  }

  /** `string.IsNullOrEmpty` */
  predicate IsNullOrEmpty(s: Option<string>) {
    s.None? || s.value == ""
  }

  /** One resolver per request scope. The ambient `IHttpContextAccessor.HttpContext`
      and `IOptions<JwtOptions>.Value` are read at call time, so each call
      receives their current values. */
  class UserAccessor {
    var cachedUsername: Option<string>
    var cachedId: Option<string>

    /** A cached value is never blank, since only successful lookups are cached. */
    ghost predicate Valid()
      reads this
    {
      && (cachedUsername.Some? ==> !IsBlank(cachedUsername.value))
      && (cachedId.Some? ==> !IsBlank(cachedId.value))
    }

    constructor ()
      ensures Valid()
      ensures cachedUsername == None && cachedId == None
    {
      cachedUsername := None;
      cachedId := None;
    }

    method GetUsername(context: Option<HttpContext>, options: Jwt.JwtOptions) returns (r: Result<string>)
      requires Valid()
      modifies this
      ensures Valid()
      ensures r.Returns? ==> !IsBlank(r.value)
      // a cached name is returned without looking at the options or the context
      ensures !IsNullOrEmpty(old(cachedUsername)) ==>
                r == Returns(old(cachedUsername).value) && cachedUsername == old(cachedUsername)
      // otherwise the configured claim is looked up
      ensures IsNullOrEmpty(old(cachedUsername)) ==> r == GetClaimValue(context, UsernameClaimType(options))
      // only a successful lookup is cached
      ensures r.Returns? ==> cachedUsername == Some(r.value)
      ensures r.Throws? ==> cachedUsername == old(cachedUsername)
      // the id cache is not touched
      ensures cachedId == old(cachedId)
    {
      if IsNullOrEmpty(cachedUsername) {
        var v := GetClaimValue(context, UsernameClaimType(options));
        if v.Throws? {
          return v;
        }
        cachedUsername := Some(v.value);
      }
      r := Returns(cachedUsername.value);
    }

    method GetUserId(context: Option<HttpContext>) returns (r: Result<string>)
      requires Valid()
      modifies this
      ensures Valid()
      ensures r.Returns? ==> !IsBlank(r.value)
      ensures !IsNullOrEmpty(old(cachedId)) ==> r == Returns(old(cachedId).value) && cachedId == old(cachedId)
      ensures IsNullOrEmpty(old(cachedId)) ==> r == GetClaimValue(context, ClaimTypeNameIdentifier)
      ensures r.Returns? ==> cachedId == Some(r.value)
      ensures r.Throws? ==> cachedId == old(cachedId)
      ensures cachedUsername == old(cachedUsername)
    {
      if IsNullOrEmpty(cachedId) {
        var v := GetClaimValue(context, ClaimTypeNameIdentifier);
        if v.Throws? {
          return v;
        }
        cachedId := Some(v.value);
      }
      r := Returns(cachedId.value);
    }
  }

  /** Once the name has been resolved, changing the context (even removing
      it) and the options does not change what the resolver returns. */
  method UsernameCachedAcrossCalls(first: Option<HttpContext>, options: Jwt.JwtOptions,
                                   later: Option<HttpContext>, laterOptions: Jwt.JwtOptions)
    returns (r1: Result<string>, r2: Result<string>)
    ensures r1 == GetClaimValue(first, UsernameClaimType(options))
    ensures r1.Returns? ==> r2 == r1
    ensures r1.Throws? ==> r2 == GetClaimValue(later, UsernameClaimType(laterOptions))
  {
    var accessor := new UserAccessor();
    r1 := accessor.GetUsername(first, options);
    r2 := accessor.GetUsername(later, laterOptions);
  }

  /** Resolving the name caches nothing for the id: the id is still looked up
      in the context current at that call. */
  method IdIndependentOfUsername(first: Option<HttpContext>, options: Jwt.JwtOptions, later: Option<HttpContext>)
    returns (name: Result<string>, id: Result<string>)
    ensures id == GetClaimValue(later, ClaimTypeNameIdentifier)
  {
    var accessor := new UserAccessor();
    name := accessor.GetUsername(first, options);
    id := accessor.GetUserId(later);
  }
}
