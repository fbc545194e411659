/**
 * Issuer classification and app-id policy for Bot Framework Emulator tokens
 * (libraries/botframework-connector/lib/src/auth/emulatorValidation.js).
 *
 * Two decision procedures:
 *  - IsTokenFromEmulator: does an `Authorization` header carry a bearer token
 *    whose (unverified) `iss` claim names one of the emulator's issuers?
 *  - AuthenticateEmulatorToken: given the identity the token extractor built,
 *    pick the application id by token version and ask the credential provider
 *    about it.
 *
 * The library decoder `jwt.decode` and the credential provider's
 * `isValidAppId` are foreign code; both are parameters here.
 */
module EmulatorValidation {
  import opened Wrappers
  import opened Strings
  import opened Claims

  /** The payload of a structurally decoded token: claim name to claim value. */
  type Payload = map<string, string>

  /** The validation parameters handed to the token extractor. */
  datatype TokenValidationParameters = TokenValidationParameters(
    issuer: seq<string>,
    audience: Option<string>,
    clockTolerance: int,   // seconds
    ignoreExpiration: bool)

  /**
   * The parameters for tokens sent to a bot by the emulator: five distinct,
   * non-empty accepted issuers, no audience, expiry enforced with a
   * five-minute clock tolerance.
   */
  function ToBotFromEmulatorTokenValidationParameters(): (p: TokenValidationParameters)
    ensures |p.issuer| == 5
    ensures forall i, j :: 0 <= i < j < |p.issuer| ==> p.issuer[i] != p.issuer[j]
    ensures "" !in p.issuer
    ensures p.audience.None? && p.clockTolerance == 300 && !p.ignoreExpiration
  {
    TokenValidationParameters(
    issuer := [
      "https://sts.windows.net/d6d49420-f39b-4df7-a1dc-d59a935871db/",
      "https://login.microsoftonline.com/d6d49420-f39b-4df7-a1dc-d59a935871db/v2.0",
      "https://sts.windows.net/f8cdef31-a31e-4b4a-93e4-5f571e91255a/",
      "https://login.microsoftonline.com/f8cdef31-a31e-4b4a-93e4-5f571e91255a/v2.0",
      "https://sts.windows.net/72f988bf-86f1-41af-91ab-2d7cd011db47/"
    ],
    audience := None,
    clockTolerance := 5 * 60,
    ignoreExpiration := false)
  }

  // ---------------------------------------------------------------------------
  // Issuer classification
  // ---------------------------------------------------------------------------

  const BearerScheme := "Bearer"

  /** The `iss` claim of a decoded token, if the token decoded and has one. */
  function IssuerClaim(token: Option<Payload>): Option<string> {
    if token.Some? && "iss" in token.value then Some(token.value["iss"]) else None
  }

  /**
   * `isTokenFromEmulator(authHeader)`. The header is split on single spaces;
   * only a header of exactly two parts whose first part is `Bearer` is decoded,
   * and it is from the emulator when its `iss` claim is present, non-empty and
   * one of the configured issuers.
   *
   * Equivalently: the header is present, is `Bearer ` followed by a token
   * with no space, and that token decodes to a payload whose `iss` is an
   * emulator issuer. The answer depends on nothing else.
   */
  function IsTokenFromEmulator(authHeader: Option<string>, decode: string -> Option<Payload>): (r: bool)
    ensures r <==> authHeader.Some? && IsBearerHeader(authHeader.value) &&
                   IsEmulatorIssued(decode(authHeader.value[7..]))
  {
    if authHeader.None? || authHeader.value == "" then
      false   // no token
    else
      BearerSplit(authHeader.value);
      var parts := Split(authHeader.value, ' ');
      if |parts| != 2 then
        false
      else
        var authScheme, bearerToken := parts[0], parts[1];
        if authScheme != BearerScheme then
          false
        else
          match decode(bearerToken)
          case None => false
          case Some(payload) =>
            if "iss" !in payload || payload["iss"] == "" then
              false
            else
              payload["iss"] in ToBotFromEmulatorTokenValidationParameters().issuer
  }

  /**
   * Reference shape of an emulator header, stated without splitting:
   * the seven characters `Bearer ` followed by a token with no space.
   */
  predicate IsBearerHeader(header: string) {
    |header| >= 7 && header[..7] == BearerScheme + " " && ' ' !in header[7..]
  }

  /** Reference condition on the decoded token: it has an `iss` claim that is a configured emulator issuer. */
  predicate IsEmulatorIssued(token: Option<Payload>) {
    IssuerClaim(token).Some? && IssuerClaim(token).value in ToBotFromEmulatorTokenValidationParameters().issuer
  }

  /** A header that splits into exactly two parts with scheme `Bearer` is a bearer header and its token is the second part. */
  lemma BearerSplit(header: string)
    ensures IsBearerHeader(header) <==>
              (|Split(header, ' ')| == 2 && Split(header, ' ')[0] == BearerScheme)
    ensures IsBearerHeader(header) ==> Split(header, ' ')[1] == header[7..]
  {
    if IsBearerHeader(header) {
      BearerHeaderSplits(header);
    }
    if |Split(header, ' ')| == 2 && Split(header, ' ')[0] == BearerScheme {
      TwoPartSplitIsBearerHeader(header);
    }
  }

  /** A bearer header splits into the scheme and its token. */
  lemma BearerHeaderSplits(header: string)
    requires IsBearerHeader(header)
    ensures Split(header, ' ') == [BearerScheme, header[7..]]
  {
    assert header[..6] == header[..7][..6];
    SplitAtOnlySeparator(header, ' ', 6);
  }

  /** A header that splits into `Bearer` and one more part is a bearer header. */
  lemma TwoPartSplitIsBearerHeader(header: string)
    requires |Split(header, ' ')| == 2 && Split(header, ' ')[0] == BearerScheme
    ensures IsBearerHeader(header)
  {
    var parts := Split(header, ' ');
    SplitJoin(header, ' ');
    SplitPartsAreSeparatorFree(header, ' ');
    assert parts[1..] == [parts[1]];
    assert header == BearerScheme + " " + parts[1];
    assert header[7..] == parts[1];
  }

  /** An absent or empty header is never an emulator header, whatever the decoder does. */
  lemma NoHeaderIsNotFromEmulator(decode: string -> Option<Payload>)
    ensures !IsTokenFromEmulator(None, decode)
    ensures !IsTokenFromEmulator(Some(""), decode)
  {
  }

  /** A header with two spaces or more (a double space, a leading space before the scheme, ...) is rejected. */
  lemma ExtraSpaceIsNotFromEmulator(a: string, b: string, c: string, decode: string -> Option<Payload>)
    ensures !IsTokenFromEmulator(Some(a + " " + b + " " + c), decode)
  {
    TwoSeparatorsMeanMoreParts(a, b, c, ' ');
  }

  /** A header that begins with a space is rejected. */
  lemma LeadingSpaceIsNotFromEmulator(rest: string, decode: string -> Option<Payload>)
    ensures !IsTokenFromEmulator(Some(" " + rest), decode)
  {
    assert (" " + rest)[0] == ' ';
  }

  /**
   * A two-part header whose scheme is not the exact, case-sensitive `Bearer`
   * is rejected, for every decoder: the token is never looked at.
   */
  lemma {:induction false} OtherSchemeIsNotFromEmulator(scheme: string, token: string, decode: string -> Option<Payload>)
    requires scheme != BearerScheme
    ensures !IsTokenFromEmulator(Some(scheme + " " + token), decode)
  {
    var header := scheme + " " + token;
    assert header[..|scheme|] == scheme && header[|scheme|] == ' ';
    if IsBearerHeader(header) {
      OnlySpaceOfBearerHeader(header, |scheme|);
      assert false;
    }
  }

  /** The one space of a bearer header is the one after the scheme. */
  lemma OnlySpaceOfBearerHeader(header: string, k: nat)
    requires IsBearerHeader(header)
    requires k < |header| && header[k] == ' '
    ensures k == 6 && header[..k] == BearerScheme
  {
  }

  /** `Basic xyz` is not an emulator header. */
  lemma BasicSchemeIsNotFromEmulator(decode: string -> Option<Payload>)
    ensures !IsTokenFromEmulator(Some("Basic xyz"), decode)
  {
    assert "Basic xyz" == "Basic" + " " + "xyz";
    OtherSchemeIsNotFromEmulator("Basic", "xyz", decode);
  }

  /** Two decoders that agree on the `iss` claim of the header's token give the same answer. */
  lemma {:induction false} DependsOnlyOnIssuer(authHeader: Option<string>, decode1: string -> Option<Payload>, decode2: string -> Option<Payload>)
    requires authHeader.Some? && IsBearerHeader(authHeader.value) ==>
               IssuerClaim(decode1(authHeader.value[7..])) == IssuerClaim(decode2(authHeader.value[7..]))
    ensures IsTokenFromEmulator(authHeader, decode1) == IsTokenFromEmulator(authHeader, decode2)
  {
  }

  /** `Bearer <token>`, with a space-free token whose `iss` is an emulator issuer, is an emulator header. */
  lemma {:induction false} EmulatorTokenIsFromEmulator(token: string, decode: string -> Option<Payload>)
    requires ' ' !in token
    requires IsEmulatorIssued(decode(token))
    ensures IsTokenFromEmulator(Some("Bearer " + token), decode)
  {
    var header := "Bearer " + token;
    assert header[..7] == "Bearer " && header[7..] == token;
  }

  /**
   * The issuer half of the end-to-end scenario: `Bearer` and a space-free token
   * whose only claim is the first emulator issuer is an emulator header.
   */
  lemma EmulatorIssuerScenario(token: string, decode: string -> Option<Payload>)
    requires ' ' !in token
    requires decode(token) == Some(map["iss" := "https://sts.windows.net/d6d49420-f39b-4df7-a1dc-d59a935871db/"])
    ensures IsTokenFromEmulator(Some("Bearer " + token), decode)
  {
    EmulatorTokenIsFromEmulator(token, decode);
  }

  // ---------------------------------------------------------------------------
  // Application-identity policy
  // ---------------------------------------------------------------------------

  const VersionClaim := "ver"
  const AppIdClaim := "appid"
  const AuthorizedParty := "azp"

  /** Each `throw` of `authenticateEmulatorToken`, one constructor per message. */
  datatype AuthError =
    | NoIdentity
    | NotAuthenticated
    | MissingVersion
    | MissingAppId
    | MissingAzp
    | UnknownVersion(ver: string)
    | InvalidAppId(appId: string)

  /** The claim that names the application in a token of version `ver`, if that version is supported. */
  function AppIdClaimFor(ver: string): (claim: Option<string>)
    ensures claim == Some(AppIdClaim) <==> ver == "" || ver == "1.0"
    ensures claim == Some(AuthorizedParty) <==> ver == "2.0"
    ensures claim.None? <==> ver != "" && ver != "1.0" && ver != "2.0"
  {
    if ver == "" || ver == "1.0" then Some(AppIdClaim)
    else if ver == "2.0" then Some(AuthorizedParty)
    else None
  }

  /**
   * Every check of `authenticateEmulatorToken` before the credential provider
   * is asked: an identity that is present and authenticated, a `ver` claim,
   * and a non-empty app id taken from `appid` (version absent-as-empty or
   * `1.0`) or from `azp` (version `2.0`).
   */
  function SelectAppId(identity: Option<ClaimsIdentity>): (r: Result<string, AuthError>)
    ensures identity.None? ==> r == Failure(NoIdentity)
    ensures identity.Some? && !identity.value.isAuthenticated ==> r == Failure(NotAuthenticated)
    ensures identity.Some? && identity.value.isAuthenticated ==>
              var claims := identity.value.claims;
              match ClaimValue(claims, VersionClaim)
              case None => r == Failure(MissingVersion)
              case Some(ver) =>
                match AppIdClaimFor(ver)
                case None => r == Failure(UnknownVersion(ver))
                case Some(claim) =>
                  var appId := ClaimValue(claims, claim);
                  if appId.Some? && appId.value != "" then r == Success(appId.value)
                  else r == Failure(if claim == AppIdClaim then MissingAppId else MissingAzp)
    ensures r.Success? ==> r.value != ""
    ensures r.Failure? ==> !r.error.InvalidAppId?
  {
    if identity.None? then
      Failure(NoIdentity)
    else if !identity.value.isAuthenticated then
      Failure(NotAuthenticated)
    else
      var claims := identity.value.claims;
      match ClaimValue(claims, VersionClaim)
      case None => Failure(MissingVersion)
      case Some(versionClaim) =>
        if versionClaim == "" || versionClaim == "1.0" then
          match ClaimValue(claims, AppIdClaim)
          case None => Failure(MissingAppId)
          case Some(appIdClaim) => if appIdClaim == "" then Failure(MissingAppId) else Success(appIdClaim)
        else if versionClaim == "2.0" then
          match ClaimValue(claims, AuthorizedParty)
          case None => Failure(MissingAzp)
          case Some(appZClaim) => if appZClaim == "" then Failure(MissingAzp) else Success(appZClaim)
        else
          Failure(UnknownVersion(versionClaim))
  }

  /**
   * `authenticateEmulatorToken`, given the extractor's identity and the
   * credential provider. On success the identity comes back unchanged.
   *
   * Lines 123-127 of emulatorValidation.js read
   * `if (!await) credentials.isValidAppId(appId); { throw ... }`, a broken
   * rendering of `if (!(await credentials.isValidAppId(appId))) { throw ... }`
   * whose braces make the throw unconditional. This function models the
   * evident intent; AuthenticateEmulatorTokenAsWritten models the text.
   */
  function AuthenticateEmulatorToken(identity: Option<ClaimsIdentity>, isValidAppId: string -> bool)
    : (r: Result<ClaimsIdentity, AuthError>)
    ensures identity.None? ==> r == Failure(NoIdentity)
    ensures identity.Some? && !identity.value.isAuthenticated ==> r == Failure(NotAuthenticated)
    ensures r.Success? ==> identity.Some? && r.value == identity.value && r.value.isAuthenticated
    ensures r.Failure? && r.error.InvalidAppId? ==> r.error.appId != "" && !isValidAppId(r.error.appId)
  {
    match SelectAppId(identity)
    case Failure(e) => Failure(e)
    case Success(appId) =>
      if !isValidAppId(appId) then Failure(InvalidAppId(appId)) else Success(identity.value)
  }

  /** Without a `ver` claim the token is rejected, whatever its other claims. */
  lemma MissingVersionRejected(identity: ClaimsIdentity, isValidAppId: string -> bool)
    requires identity.isAuthenticated
    requires forall i :: 0 <= i < |identity.claims| ==> identity.claims[i].claimType != VersionClaim
    ensures AuthenticateEmulatorToken(Some(identity), isValidAppId) == Failure(MissingVersion)
  {
  }

  /** An empty or `1.0` version with no non-empty `appid` claim is rejected as missing its app id. */
  lemma VersionOneWithoutAppIdRejected(identity: ClaimsIdentity, isValidAppId: string -> bool)
    requires identity.isAuthenticated
    requires ClaimValue(identity.claims, VersionClaim) in {Some(""), Some("1.0")}
    requires ClaimValue(identity.claims, AppIdClaim) in {None, Some("")}
    ensures AuthenticateEmulatorToken(Some(identity), isValidAppId) == Failure(MissingAppId)
  {
  }

  /** Version `2.0` with no non-empty `azp` claim is rejected as missing the authorized party. */
  lemma VersionTwoWithoutAzpRejected(identity: ClaimsIdentity, isValidAppId: string -> bool)
    requires identity.isAuthenticated
    requires ClaimValue(identity.claims, VersionClaim) == Some("2.0")
    requires ClaimValue(identity.claims, AuthorizedParty) in {None, Some("")}
    ensures AuthenticateEmulatorToken(Some(identity), isValidAppId) == Failure(MissingAzp)
  {
  }

  /** Any other version is rejected, and the rejection carries that exact version. */
  lemma UnknownVersionRejected(identity: ClaimsIdentity, isValidAppId: string -> bool, ver: string)
    requires identity.isAuthenticated
    requires ClaimValue(identity.claims, VersionClaim) == Some(ver)
    requires ver != "" && ver != "1.0" && ver != "2.0"
    ensures AuthenticateEmulatorToken(Some(identity), isValidAppId) == Failure(UnknownVersion(ver))
  {
  }

  /**
   * Success, stated with the version table: the identity is authenticated, its
   * first `ver` claim names a supported version, the first claim that version
   * reads the app id from is non-empty, and the provider accepts that app id.
   */
  lemma AuthenticateSucceedsIff(identity: ClaimsIdentity, isValidAppId: string -> bool)
    ensures AuthenticateEmulatorToken(Some(identity), isValidAppId).Success? <==>
              identity.isAuthenticated &&
              var ver := ClaimValue(identity.claims, VersionClaim);
              ver.Some? && AppIdClaimFor(ver.value).Some? &&
              var appId := ClaimValue(identity.claims, AppIdClaimFor(ver.value).value);
              appId.Some? && appId.value != "" && isValidAppId(appId.value)
  {
  }

  /**
   * When every earlier check passes, a provider that rejects the selected app
   * id (the first `appid` or `azp` claim, by version) yields `InvalidAppId`
   * carrying exactly that id.
   */
  lemma ProviderRejectionGivesInvalidAppId(identity: ClaimsIdentity, isValidAppId: string -> bool,
                                           ver: string, claim: string, appId: string)
    requires identity.isAuthenticated
    requires ClaimValue(identity.claims, VersionClaim) == Some(ver)
    requires AppIdClaimFor(ver) == Some(claim)
    requires ClaimValue(identity.claims, claim) == Some(appId)
    requires appId != "" && !isValidAppId(appId)
    ensures AuthenticateEmulatorToken(Some(identity), isValidAppId) == Failure(InvalidAppId(appId))
  {
  }

  /**
   * The provider is asked about one of the identity's claim values only:
   * two providers that agree on every claim value give the same outcome.
   */
  lemma {:induction false} ProviderSeesOnlyClaimValues(identity: Option<ClaimsIdentity>, valid1: string -> bool, valid2: string -> bool)
    requires identity.Some? ==>
               forall i :: 0 <= i < |identity.value.claims| ==>
                 valid1(identity.value.claims[i].value) == valid2(identity.value.claims[i].value)
    ensures AuthenticateEmulatorToken(identity, valid1) == AuthenticateEmulatorToken(identity, valid2)
  {
  }

  /** An emulator 1.0 token for app `abc123`. */
  function ScenarioIdentity(): ClaimsIdentity {
    ClaimsIdentity([
      Claim("iss", "https://sts.windows.net/d6d49420-f39b-4df7-a1dc-d59a935871db/"),
      Claim(VersionClaim, "1.0"),
      Claim(AppIdClaim, "abc123")], true)
  }

  /** The version 1.0 token is accepted when the provider knows `abc123`, and rejected with that id otherwise. */
  lemma VersionOneScenario(isValidAppId: string -> bool)
    ensures isValidAppId("abc123") ==>
              AuthenticateEmulatorToken(Some(ScenarioIdentity()), isValidAppId) == Success(ScenarioIdentity())
    ensures !isValidAppId("abc123") ==>
              AuthenticateEmulatorToken(Some(ScenarioIdentity()), isValidAppId) == Failure(InvalidAppId("abc123"))
  {
  }

  /** A `3.0` token is rejected with that version. */
  lemma VersionThreeScenario(isValidAppId: string -> bool)
    ensures AuthenticateEmulatorToken(Some(ClaimsIdentity([Claim(VersionClaim, "3.0")], true)), isValidAppId)
              == Failure(UnknownVersion("3.0"))
  {
  }

  // ---------------------------------------------------------------------------
  // Lines 123-127 as written
  // ---------------------------------------------------------------------------

  /**
   * `authenticateEmulatorToken` with lines 123-127 read literally: after the
   * app id is selected, the block `{ throw ... }` runs whatever the provider
   * says, so the identity is never returned.
   *
   * This reading, like the rest of the model, takes lines 77-78 as
   * `async function authenticateEmulatorToken` and line 80 as the awaited
   * extractor call. Taken fully literally the text fails earlier:
   *  - line 77, `async;`, is a statement of the module's initialising function
   *    that evaluates the undeclared name `async` while the module loads, so
   *    loading the module throws a ReferenceError and neither function is
   *    reachable;
   *  - inside the function, lines 80 and 123 evaluate the undeclared name
   *    `await`, which throws too;
   *  - the function is never assigned onto `EmulatorValidation`, unlike
   *    `isTokenFromEmulator` at line 76.
   * Either way no call returns the identity.
   */
  function AuthenticateEmulatorTokenAsWritten(identity: Option<ClaimsIdentity>, isValidAppId: string -> bool)
    : (r: Result<ClaimsIdentity, AuthError>)
    ensures r.Failure?
  {
    match SelectAppId(identity)
    case Failure(e) => Failure(e)
    case Success(appId) => Failure(InvalidAppId(appId))
  }

  /** The literal reading rejects a token that the provider accepts and the intended reading lets through. */
  lemma AsWrittenRejectsValidAppId()
    ensures AuthenticateEmulatorTokenAsWritten(Some(ScenarioIdentity()), _ => true) == Failure(InvalidAppId("abc123"))
    ensures AuthenticateEmulatorToken(Some(ScenarioIdentity()), _ => true) == Success(ScenarioIdentity())
  {
  }
}
