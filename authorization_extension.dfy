/**
 * `AuthorizationExtension.GetAuthorization`: the user principal name of the
 * one identity of the request that was authenticated by a given scheme.
 */
module AuthorizationExtension {
  import opened Results
  import opened StringSplit
  import opened Linq

  /** `ClaimTypes.Upn`. */
  const UpnClaimType: string := "http://schemas.xmlsoap.org/ws/2005/05/identity/claims/upn"

  datatype Claim = Claim(claimType: string, value: string)

  /** A `ClaimsIdentity`: its (possibly null) `AuthenticationType` and its claims. */
  datatype ClaimsIdentity = ClaimsIdentity(authenticationType: Option<string>, claims: seq<Claim>)

  /** What the operation reads of an `HttpRequest`: `HttpContext.User.Identities`. */
  datatype Request = Request(identities: seq<ClaimsIdentity>)

  /** `id.AuthenticationType != null && id.AuthenticationType.Equals(scheme, InvariantCultureIgnoreCase)`. */
  predicate IsScheme(id: ClaimsIdentity, scheme: string)
    ensures id.authenticationType.None? ==> !IsScheme(id, scheme)
    ensures IsScheme(id, scheme) ==> |id.authenticationType.value| == |scheme|
  {
    id.authenticationType.Some? && EqualsIgnoreCase(id.authenticationType.value, scheme)
  }

  /** The selector handed to `SingleOrDefault`. */
  function SchemeSelector(scheme: string): ClaimsIdentity -> bool {
    id => IsScheme(id, scheme)
  }

  /** The selector handed to `Single`: `c => c.Type == ClaimTypes.Upn`. */
  predicate IsUpn(c: Claim) {
    c.claimType == UpnClaimType
  }

  /** The value of the identity's one UPN claim. */
  function UpnValue(id: ClaimsIdentity): (r: Result<string>)
    ensures NoMatch(id.claims, IsUpn) ==> r == Err(NoMatchingElement)
    ensures TwoMatches(id.claims, IsUpn) ==> r == Err(MoreThanOneMatchingElement)
    ensures forall j :: UniqueMatchAt(id.claims, IsUpn, j) ==> r == Ok(id.claims[j].value)
  {
    match Single(id.claims, IsUpn)
    case Ok(c) => Ok(c.value)
    case Err(e) => Err(e)
  }

  /** `req.GetAuthorization(authenticationType)`; `None` stands for a null argument. */
  function GetAuthorization(req: Option<Request>, authenticationType: Option<string>): (r: Result<string>)
    ensures req.None? ==> r == Err(ArgumentNullException("req"))
    ensures req.Some? && authenticationType.None? ==> r == Err(ArgumentNullException("authenticationType"))
    ensures req.Some? && authenticationType.Some? ==>
      var ids := req.value.identities;
      var selects := SchemeSelector(authenticationType.value);
      && (NoMatch(ids, selects) ==> r == Ok(""))
      && (TwoMatches(ids, selects) ==> r == Err(MoreThanOneMatchingElement))
      && (forall k :: UniqueMatchAt(ids, selects, k) ==> r == UpnValue(ids[k]))
  {
    if req.None? then Err(ArgumentNullException("req"))
    else if authenticationType.None? then Err(ArgumentNullException("authenticationType"))
    else
      match SingleOrDefault(req.value.identities, SchemeSelector(authenticationType.value))
      case Err(e) => Err(e)
      case Ok(None) => Ok("")
      case Ok(Some(id)) => UpnValue(id)
  }

  /** Matching ignores letter case: schemes equal up to case give the same outcome. */
  lemma CaseInsensitive(req: Option<Request>, scheme: string, other: string)
    requires EqualsIgnoreCase(scheme, other)
    ensures GetAuthorization(req, Some(scheme)) == GetAuthorization(req, Some(other))
  {
    if req.Some? {
      WhereExtensional(req.value.identities, SchemeSelector(scheme), SchemeSelector(other));
    }
  }

  /** In particular, upper-casing the scheme argument changes nothing. */
  lemma UpperCaseSchemeSame(req: Option<Request>, scheme: string)
    ensures GetAuthorization(req, Some(Upper(scheme))) == GetAuthorization(req, Some(scheme))
  {
    UpperEqualsIgnoreCase(scheme);
    CaseInsensitive(req, Upper(scheme), scheme);
  }

  /** An identity without an authentication type is never selected: adding one anywhere changes nothing. */
  lemma NullSchemeIgnored(before: seq<ClaimsIdentity>, after: seq<ClaimsIdentity>, claims: seq<Claim>,
                          authenticationType: Option<string>)
    ensures GetAuthorization(Some(Request(before + [ClaimsIdentity(None, claims)] + after)), authenticationType)
            == GetAuthorization(Some(Request(before + after)), authenticationType)
  {
    if authenticationType.Some? {
      var p := SchemeSelector(authenticationType.value);
      WhereAppend(before + [ClaimsIdentity(None, claims)], after, p);
      WhereAppend(before, [ClaimsIdentity(None, claims)], p);
      WhereAppend(before, after, p);
    }
  }

  /** An identity matching the scheme with one UPN claim among others yields that claim's value. */
  lemma SingleMatchExample(scheme: string, upn: string, others: seq<ClaimsIdentity>)
    requires forall k :: 0 <= k < |others| ==> !IsScheme(others[k], scheme)
    ensures GetAuthorization(
              Some(Request(others + [ClaimsIdentity(Some(scheme), [Claim("name", "n"), Claim(UpnClaimType, upn)])])),
              Some(scheme)) == Ok(upn)
  {
    var id := ClaimsIdentity(Some(scheme), [Claim("name", "n"), Claim(UpnClaimType, upn)]);
    var ids := others + [id];
    assert UniqueMatchAt(ids, SchemeSelector(scheme), |others|) by {
      forall j | 0 <= j < |ids| && j != |others| ensures !IsScheme(ids[j], scheme) {
        assert ids[j] == others[j];
      }
    }
    assert "name" != UpnClaimType;
    assert UniqueMatchAt(id.claims, IsUpn, 1);
  }
}
