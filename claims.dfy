/**
 * The claims identity that the token extractor hands to the emulator checks:
 * an ordered list of (type, value) claims and an `isAuthenticated` flag.
 */
module Claims {
  import opened Wrappers

  datatype Claim = Claim(claimType: string, value: string)

  datatype ClaimsIdentity = ClaimsIdentity(claims: seq<Claim>, isAuthenticated: bool)

  /**
   * `identity.getClaimValue(claimType)`: the value of the FIRST claim of that
   * type, or `None` (JavaScript `null`) when no claim has that type.
   */
  function ClaimValue(claims: seq<Claim>, claimType: string): (r: Option<string>)
    ensures r.None? <==> forall i :: 0 <= i < |claims| ==> claims[i].claimType != claimType
    ensures r.Some? ==>
              exists i :: 0 <= i < |claims| && claims[i] == Claim(claimType, r.value) &&
                          forall j :: 0 <= j < i ==> claims[j].claimType != claimType
    decreases |claims|
  {
    if claims == [] then None
    else if claims[0].claimType == claimType then Some(claims[0].value)
    else
      ClaimValue(claims[1..], claimType)
  }
}
