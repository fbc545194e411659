# Bot Framework Emulator token checks, modelled in Dafny

This project models `EmulatorValidation` of the Bot Framework connector
(`libraries/botframework-connector/lib/src/auth/emulatorValidation.js`):

- **`ToBotFromEmulatorTokenValidationParameters`**: the fixed validation
  parameters for tokens the emulator sends to a bot. These are five accepted
  issuers, no audience, a clock tolerance of `5 * 60` seconds, and expiry
  enforced.
- **`isTokenFromEmulator(authHeader)`**: the issuer classifier. It returns
  false for an absent or empty header. Otherwise it splits the header on
  single spaces (JavaScript `split(' ')`) and requires exactly two parts, the
  first being exactly `Bearer`. It then decodes the second part without
  verifying it and reads the `iss` claim. The header is from the emulator if
  that claim is present, is not empty and is one of the five issuers.
- **`authenticateEmulatorToken(authHeader, credentials)`**: the
  application-identity policy. It runs on the identity built by the token
  extractor. It rejects a missing or unauthenticated identity, then requires a
  `ver` claim. It reads the app id from `appid` when `ver` is empty or `1.0`,
  and from `azp` when `ver` is `2.0`; any other version is rejected. Finally
  it asks the credential provider whether the app id is valid. On success it
  returns the identity unchanged.

Each `throw` of `authenticateEmulatorToken` is one constructor of
`AuthError`. The JavaScript messages map to the constructors like this:
"No valid identity" is `NoIdentity`, "Is not authenticated" is
`NotAuthenticated`, the `ver`/`appid`/`azp` messages are `MissingVersion`,
`MissingAppId` and `MissingAzp`, "Unknown Emulator Token version" is
`UnknownVersion(ver)`, and "Invalid AppId" is `InvalidAppId(appId)`.

Files:

- `wrappers.dfy`: `Option` and `Result`.
- `strings.dfy`: `Split`/`Join`, i.e. JavaScript `split` on one character.
  Joining the parts of `Split` gives the string back. Splitting
  separator-free parts joined by the separator gives the parts back. `Split`
  also yields separator-free parts, one more than the string has separators.
- `claims.dfy`: the claims identity and `ClaimValue`, which models
  `getClaimValue`.
- `emulator_validation.dfy`: the parameters, the classifier, the policy and
  the lemmas about them.

The foreign collaborators are function parameters:

- `jwt.decode(token, {complete: true})` is `decode: string -> Option<Payload>`.
  `None` stands for a token that does not decode; `Payload` is the claim map.
- `credentials.isValidAppId` is `isValidAppId: string -> bool`.
- The token extractor's result is the `Option<ClaimsIdentity>` argument of the
  policy.

The classifier is stated against a reference definition that does not split
(`IsBearerHeader`: `Bearer `, then a token with no space). It is accepted iff
the token's decoded `iss` is a listed issuer (`IsEmulatorIssued`). The policy
is stated against a version table (`AppIdClaimFor`).

Reading of the source: three places in `emulatorValidation.js` are broken
renderings of `async`/`await`.

- Lines 77-78 (`async;` and then `function authenticateEmulatorToken`) are
  read as `async function authenticateEmulatorToken`.
- Line 80 (`await, tokenExtractor, getIdentityFromAuthHeader = (authHeader)`)
  is read as `await tokenExtractor.getIdentityFromAuthHeader(authHeader)`.
- Lines 123-127 (`if (!await) credentials.isValidAppId(appId); { throw ... }`)
  are read as "throw `InvalidAppId(appId)` exactly when the provider rejects
  `appId`". Read literally, these lines throw on every path that reaches them.
  See "Findings". That literal reading still keeps lines 77-78 and 80 as read
  above. Taken fully literally, the text fails earlier:
  - Line 77, `async;`, is a top-level statement of the function that builds
    `EmulatorValidation`. It evaluates the undeclared name `async` while the
    module loads, so loading the module throws a ReferenceError and
    `isTokenFromEmulator` cannot be reached either.
  - Inside the function, lines 80 and 123 evaluate the undeclared name
    `await`, which throws too.
  - `authenticateEmulatorToken` is never assigned onto `EmulatorValidation`,
    unlike `isTokenFromEmulator` at line 76.

  Either way no call returns the identity.

`ClaimsIdentity.getClaimValue` lives in a file that is not part of this model.
It is modelled as returning the value of the first claim of the requested
type, or `null` when there is none.

## Model

| member | source | states |
|---|---|---|
| `Strings.Split` | libraries/botframework-connector/lib/src/auth/emulatorValidation.js:43-44 | `authHeader.split(' ')` has one part more than the header has separators, so it has two parts iff the header has exactly one space |
| `Strings.SplitJoin` | libraries/botframework-connector/lib/src/auth/emulatorValidation.js:43-44 | joining the parts of `split` with the separator gives the header back |
| `Strings.SplitPartsAreSeparatorFree` | libraries/botframework-connector/lib/src/auth/emulatorValidation.js:43-44 | no part of `split` contains the separator |
| `Strings.JoinSplit` | libraries/botframework-connector/lib/src/auth/emulatorValidation.js:43-49 | splitting separator-free parts joined by the separator gives exactly those parts back, so `split` is the inverse of joining in both directions |
| `Strings.SplitWithoutSeparator` | libraries/botframework-connector/lib/src/auth/emulatorValidation.js:43-46 | a string with no separator splits into the single part `[s]` |
| `Strings.SplitAfterFirstPart` | libraries/botframework-connector/lib/src/auth/emulatorValidation.js:43-49 | a separator-free run followed by a separator splits off as the first part, before the split of the rest |
| `Strings.SplitAtOnlySeparator` | libraries/botframework-connector/lib/src/auth/emulatorValidation.js:43-49 | a string with exactly one separator, at index k, splits into exactly `[s[..k], s[k+1..]]` (scheme and token) |
| `Strings.TwoSeparatorsMeanMoreParts` | libraries/botframework-connector/lib/src/auth/emulatorValidation.js:43-47 | a string with two separators or more splits into more than two parts |
| `Claims.ClaimValue` | libraries/botframework-connector/lib/src/auth/emulatorValidation.js:93-94 | `getClaimValue`: `None` (null) iff no claim has the type; otherwise the value of a claim of that type with no earlier claim of that type |
| `EmulatorValidation.ToBotFromEmulatorTokenValidationParameters` | libraries/botframework-connector/lib/src/auth/emulatorValidation.js:19-30 | five distinct, non-empty issuers; no audience; clock tolerance 300 seconds; expiry not ignored |
| `EmulatorValidation.BearerSplit` | libraries/botframework-connector/lib/src/auth/emulatorValidation.js:43-56 | a header splits into two parts with first part `Bearer` iff it is `Bearer `, then a token with no space; the second part is then that token |
| `EmulatorValidation.BearerHeaderSplits` | libraries/botframework-connector/lib/src/auth/emulatorValidation.js:43-52 | `Bearer `, then a space-free token, splits into exactly `["Bearer", token]` |
| `EmulatorValidation.TwoPartSplitIsBearerHeader` | libraries/botframework-connector/lib/src/auth/emulatorValidation.js:43-56 | a header that passes the two-part and scheme checks is `Bearer `, then a space-free token |
| `EmulatorValidation.IsTokenFromEmulator` | libraries/botframework-connector/lib/src/auth/emulatorValidation.js:36-75 | `isTokenFromEmulator` is true iff the header is present, is `Bearer ` plus a space-free token, and the token decodes to a payload whose `iss` is one of the five issuers (both directions, against a definition that does not split) |
| `EmulatorValidation.NoHeaderIsNotFromEmulator` | libraries/botframework-connector/lib/src/auth/emulatorValidation.js:39-42 | an absent or empty header is rejected, whatever the decoder |
| `EmulatorValidation.ExtraSpaceIsNotFromEmulator` | libraries/botframework-connector/lib/src/auth/emulatorValidation.js:43-47 | any header with two spaces or more is rejected, which covers double spaces |
| `EmulatorValidation.LeadingSpaceIsNotFromEmulator` | libraries/botframework-connector/lib/src/auth/emulatorValidation.js:43-56 | a header that starts with a space is rejected |
| `EmulatorValidation.OtherSchemeIsNotFromEmulator` | libraries/botframework-connector/lib/src/auth/emulatorValidation.js:48-56 | a header `scheme + " " + token` with a scheme other than the exact, case-sensitive `Bearer` is rejected for every decoder |
| `EmulatorValidation.BasicSchemeIsNotFromEmulator` | libraries/botframework-connector/lib/src/auth/emulatorValidation.js:53-56 | `"Basic xyz"` is rejected for every decoder |
| `EmulatorValidation.DependsOnlyOnIssuer` | libraries/botframework-connector/lib/src/auth/emulatorValidation.js:58-74 | two decoders that agree on the `iss` claim of the header's token give the same answer |
| `EmulatorValidation.EmulatorTokenIsFromEmulator` | libraries/botframework-connector/lib/src/auth/emulatorValidation.js:58-74 | `"Bearer " + token`, where the token has no space and decodes with a listed `iss`, is accepted |
| `EmulatorValidation.EmulatorIssuerScenario` | libraries/botframework-connector/lib/src/auth/emulatorValidation.js:21-74 | `"Bearer " + token`, where the token has no space and decodes to `iss` = `https://sts.windows.net/d6d49420-f39b-4df7-a1dc-d59a935871db/`, is an emulator header |
| `EmulatorValidation.AppIdClaimFor` | libraries/botframework-connector/lib/src/auth/emulatorValidation.js:100-122 | the version table: `appid` exactly for `ver` empty or `1.0`, `azp` exactly for `2.0`, and no claim (unsupported) exactly for every other version |
| `EmulatorValidation.SelectAppId` | libraries/botframework-connector/lib/src/auth/emulatorValidation.js:81-122 | every check before the provider is asked, each with its own error: `NoIdentity`, `NotAuthenticated`, `MissingVersion`, `UnknownVersion(ver)` for a version outside the table, and `MissingAppId`/`MissingAzp` when the claim the table names is absent or empty; otherwise it selects that claim's first value, which is never empty |
| `EmulatorValidation.AuthenticateEmulatorToken` | libraries/botframework-connector/lib/src/auth/emulatorValidation.js:78-129 | no identity gives `NoIdentity`; an unauthenticated identity gives `NotAuthenticated`, whatever its claims; success returns the input identity unchanged; `InvalidAppId(a)` carries a non-empty `a` that the provider rejected |
| `EmulatorValidation.MissingVersionRejected` | libraries/botframework-connector/lib/src/auth/emulatorValidation.js:93-96 | an authenticated identity with no `ver` claim gives `MissingVersion` |
| `EmulatorValidation.VersionOneWithoutAppIdRejected` | libraries/botframework-connector/lib/src/auth/emulatorValidation.js:100-108 | `ver` empty or `1.0` with an absent or empty `appid` gives `MissingAppId` |
| `EmulatorValidation.VersionTwoWithoutAzpRejected` | libraries/botframework-connector/lib/src/auth/emulatorValidation.js:110-117 | `ver` `2.0` with an absent or empty `azp` gives `MissingAzp` |
| `EmulatorValidation.UnknownVersionRejected` | libraries/botframework-connector/lib/src/auth/emulatorValidation.js:119-122 | any other `ver` value v gives `UnknownVersion(v)`, carrying that exact v |
| `EmulatorValidation.AuthenticateSucceedsIff` | libraries/botframework-connector/lib/src/auth/emulatorValidation.js:93-128 | success iff the identity is authenticated, its `ver` names a supported version, the claim that version uses is non-empty, and the provider accepts it |
| `EmulatorValidation.ProviderRejectionGivesInvalidAppId` | libraries/botframework-connector/lib/src/auth/emulatorValidation.js:123-127 | when every earlier check passes and the provider rejects the selected `appid`/`azp` value, the result is `InvalidAppId` of exactly that value |
| `EmulatorValidation.ProviderSeesOnlyClaimValues` | libraries/botframework-connector/lib/src/auth/emulatorValidation.js:123-127 | two providers that agree on every claim value of the identity give the same outcome |
| `EmulatorValidation.VersionOneScenario` | libraries/botframework-connector/lib/src/auth/emulatorValidation.js:100-128 | a `1.0` token with `appid` `abc123` is accepted when the provider knows `abc123`, and rejected with `InvalidAppId("abc123")` otherwise |
| `EmulatorValidation.VersionThreeScenario` | libraries/botframework-connector/lib/src/auth/emulatorValidation.js:119-122 | a `3.0` token gives `UnknownVersion("3.0")` |
| `EmulatorValidation.AuthenticateEmulatorTokenAsWritten` | libraries/botframework-connector/lib/src/auth/emulatorValidation.js:123-127 | lines 123-127 read literally (line 80 read as the extractor call): the function never succeeds |
| `EmulatorValidation.AsWrittenRejectsValidAppId` | libraries/botframework-connector/lib/src/auth/emulatorValidation.js:123-128 | with a provider that accepts every app id, the literal reading rejects the `abc123` token, while the intended reading accepts it |

## Left out

- `jwt.decode` and the `jsonwebtoken` library: foreign code. It is the `decode` parameter, and no base64url or JSON parsing is modelled.
- `JwtTokenExtractor`: signature checking, the OpenID metadata fetch, key caching, the algorithm allow-list and the expiry and clock-tolerance checks. These are crypto and network I/O in files that are not part of this model. The parameters are only recorded as the data handed to it, and its output is the policy's `Option<ClaimsIdentity>` argument.
- `async`/`await`: the provider's answer is a pure function argument. Nothing is concurrent in this code.
- Claim values are strings. The JavaScript non-string claim values (numbers, `undefined` values, arrays) and their truthiness are not modelled.
- `ToBotFromEmulatorTokenValidationParameters.issuer` is always a list here. The source's `issuer &&` guard (line 69), which would skip the membership test for a missing list, is therefore always true.
- The constants `VersionClaim`, `AppIdClaim` and `AuthorizedParty` come from `constants.js`, which is not part of this model. Their values `ver`, `appid` and `azp` are written directly.
- `libraries/botbuilder-core-extensions/lib/storage.js` (`calculateChangeHash`): a wrapper over `JSON.stringify`, whose key order and encoding are not visible.

## Findings

| source | as written | input that shows it | evidently intended | confidence | as-written member | corrected member |
|---|---|---|---|---|---|---|
| libraries/botframework-connector/lib/src/auth/emulatorValidation.js:123-127 | `if (!await) credentials.isValidAppId(appId); { throw ... }`: the block after the `if` runs on every path, so every token that reaches it is rejected | an authenticated identity with `ver` `1.0` and `appid` `abc123`, and a provider that accepts every app id | throw `InvalidAppId(appId)` only when `await credentials.isValidAppId(appId)` is false; otherwise return the identity | not executed | `EmulatorValidation.AuthenticateEmulatorTokenAsWritten`, `EmulatorValidation.AsWrittenRejectsValidAppId` | `EmulatorValidation.AuthenticateEmulatorToken`, `EmulatorValidation.AuthenticateSucceedsIff`, `EmulatorValidation.ProviderRejectionGivesInvalidAppId` |
