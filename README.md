# Keystone authentication and authorization, modelled in Dafny

This project models three Kubernetes components that connect a cluster to the
OpenStack identity service (Keystone).

- **The Keystone authorizer** (`pkg/auth/authorizer/keystone/keystone.go`).
  - It keeps two indexes: user name to user id, and tenant name to tenant id.
  - It refreshes each index from a listing the identity service returns.
  - Service accounts and six system components are granted outright.
  - Any other request is granted when the identity service says the user
    holds a role in the tenant named by the request's namespace.
  - It is modelled as the class `Keystone.KeystoneAuthorizer`, with its two
    map fields. The refresh methods replace a field in one assignment.
- **The Basic-auth request authenticator**
  (`plugin/pkg/auth/authenticator/request/keystone/keystone.go`).
  - It trims the `Authorization` header and splits it on single spaces.
  - It demands the scheme `basic`, in any case (section 2 of RFC 7617,
    section 2.1 of RFC 7235).
  - It decodes the token as standard base64 (section 4 of RFC 4648).
  - It splits the payload at the first colon and hands the user name and
    password to a password authenticator, whose answer it returns unchanged.
  - It is modelled as pure functions (module `BasicAuth`). These rest on
    models of the Go library calls they make: `strings.TrimSpace`, `Split`,
    `SplitN(.., 2)` and `ToLower` in module `GoStrings`, and
    `base64.StdEncoding` in module `Base64`.
- **The union authorizer** (`pkg/auth/authorizer/union/union.go`).
  - It asks a chain of authorizers in order, and the first grant wins.
  - Otherwise it collects every error, in order, for `errors.NewAggregate`.
  - It is modelled as the looping method `Union.Authorize`. The recursive
    function `Union.ChainOutcome` is its specification.

Collaborators become parameters, because they are network calls:

- The identity service's listings are the `Keystone.Listing` a refresh is
  given.
- Its role check is a function value, `Keystone.RoleCheck`.
- Whether the identity service accepts a user name and password (the
  `openstack.AuthenticatedClient` call) is a function value `accepts`. The
  authenticator's client is any `BasicAuth.PasswordAuthenticator`;
  `BasicAuth.NewKeystoneAuthenticator` makes it the `OpenstackClient` of
  its URL.
- Each authorizer of a union is a function value, `Union.Authorizer`.

A Go `error` is `AuthTypes.Error`: `Nil`, or `Err(msg)` with the text of
`Error()`.

## Model

| member | source | states |
|---|---|---|
| Keystone.EnabledIndexKeys | pkg/auth/authorizer/keystone/keystone.go:177-181 | after a refresh the index's keys are exactly the names of the enabled accounts; a name held only by disabled accounts never appears |
| Keystone.EnabledIndexLastWins | pkg/auth/authorizer/keystone/keystone.go:177-181 | every indexed name maps to the id of the last enabled account of that name in the listing |
| Keystone.IndexEnabled | pkg/auth/authorizer/keystone/keystone.go:172-181 | the loop that inserts every enabled account into a fresh map in listing order builds exactly `EnabledIndex` of the listing |
| Keystone.KeystoneAuthorizer.constructor | pkg/auth/authorizer/keystone/keystone_test.go:167-169 | a fresh authorizer has empty user and tenant indexes |
| Keystone.KeystoneAuthorizer.SyncTenantMap | pkg/auth/authorizer/keystone/keystone.go:171-184 | a failed `getTenants` returns its error and keeps the old tenant index; a successful one replaces the index with the enabled tenants; the user index is never touched |
| Keystone.KeystoneAuthorizer.SyncUserMap | pkg/auth/authorizer/keystone/keystone.go:186-199 | a failed `getUsers` returns its error and keeps the old user index; a successful one replaces the index with the enabled users; the tenant index is never touched |
| Keystone.IsWhiteListedUser | pkg/auth/authorizer/keystone/keystone.go:261-271 | exactly `kubelet`, `kube_proxy`, `system:scheduler`, `system:controller_manager`, `system:logging` and `system:monitoring` are allowlisted; every other name is not |
| Keystone.GuardedRoleCheck | pkg/auth/authorizer/keystone/keystone.go:202-208 | an empty user id or tenant id gives `(false, "UserID null during authorization")` without the remote call; otherwise the answer is the identity service's |
| Keystone.KeystoneAuthorizer.Authorize | pkg/auth/authorizer/keystone/keystone.go:151-169 | grants (nil) exactly when the user is a service account or allowlisted, or the role check answers `(true, nil)`; a denial is "Keystone authorization failed" exactly when the role check erred, and "User not authorized through keystone for namespace" exactly when it answered `(false, nil)` |
| Keystone.PrivilegedIgnoresRoleCheck | pkg/auth/authorizer/keystone/keystone.go:152-157 | a user with the `system:serviceaccount:` prefix or on the allowlist is granted whatever the role check would answer |
| Keystone.RoleCheckOnlyAtIndexedIds | pkg/auth/authorizer/keystone/keystone.go:158 | the role check matters only at `(userMap[user], tenantMap[namespace])`, with `""` for a missing key: two role checks that agree there decide alike |
| Keystone.UnindexedDenied | pkg/auth/authorizer/keystone/keystone.go:158-162 | with the production role check, an unprivileged request whose user or namespace is not indexed is denied with "Keystone authorization failed" |
| Keystone.SampleUserIndex | pkg/auth/authorizer/keystone/keystone_test.go:37-45 | the sample user listing indexes `user1`..`user4` to ids `12`, `23`, `34`, `56` |
| Keystone.SampleTenantIndex | pkg/auth/authorizer/keystone/keystone_test.go:28-35 | the sample tenant listing indexes `tenant1`..`tenant3` to ids `123`, `234`, `345` |
| Keystone.SampleDecisions | pkg/auth/authorizer/keystone/keystone_test.go:110-163 | with the sample indexes and role table, `user1` is granted in `tenant1` and `tenant2`; `user3` in `tenant1`, an empty user and `user1` with no namespace are denied |
| Keystone.SampleAuthorizeRun | pkg/auth/authorizer/keystone/keystone_test.go:165-184 | a fresh authorizer, refreshed from the sample listings, decides the five test requests as the test expects |
| BasicAuth.OpenstackAuthenticatePassword | plugin/pkg/auth/authenticator/request/keystone/keystone.go:36-50 | the identity service at the client's URL decides: on acceptance the user named by the user name, `true` and nil; otherwise no user, `false` and "Failed to authenticate" |
| BasicAuth.NewKeystoneAuthenticator | plugin/pkg/auth/authenticator/request/keystone/keystone.go:57-67 | fails with "Auth URL is empty" exactly when the URL is empty; otherwise the client answers every pair as the `OpenstackClient` of that URL does |
| BasicAuth.ParseBasicAuth | plugin/pkg/auth/authenticator/request/keystone/keystone.go:71-91 | the empty-header error arises exactly for an all-white-space header; a successful parse has at least two space-separated words, the first `basic` in any case, and the second decodes to `username:password` with a colon-free user name |
| BasicAuth.ParseBasicAuthBranches | plugin/pkg/auth/authenticator/request/keystone/keystone.go:71-91 | each outcome exactly when its branch is taken: empty header iff the trimmed header is empty; "invalid header" iff fewer than two words or a first word other than `basic`; the base64 error iff the second word does not decode; "malformed basic auth header" iff the payload has no colon; a credential otherwise |
| BasicAuth.ParseBasicAuthCredential | plugin/pkg/auth/authenticator/request/keystone/keystone.go:85-93 | the credential is `SplitN(payload, ":", 2)`: the user name before the first colon, the password after it |
| BasicAuth.BasicSchemeWords | plugin/pkg/auth/authenticator/request/keystone/keystone.go:76 | the first word passes exactly when it is `basic` with each letter in either case, the `i` also as U+0130, which Go lowers to `i` |
| BasicAuth.AuthenticateRequest | plugin/pkg/auth/authenticator/request/keystone/keystone.go:70-95 | a header that does not parse gives `(nil, false, error)` with the parse error; one that parses gives exactly the triple of the authenticator's client |
| BasicAuth.ParseEncoded | plugin/pkg/auth/authenticator/request/keystone/keystone.go:80-91 | round trip: `<basic in any case> base64(u:p)` parses to `(u, p)` for any colon-free `u` and any `p`, empty or holding colons |
| BasicAuth.AuthenticateEncoded | plugin/pkg/auth/authenticator/request/keystone/keystone.go:80-93 | the same header reaches the authenticator's client with exactly `(u, p)`, and its answer is the result |
| BasicAuth.NewAuthenticatorEncoded | plugin/pkg/auth/authenticator/request/keystone/keystone.go:36-93 | end to end: an authenticator made for a URL lets `basic base64(u:p)` in exactly when the identity service at that URL accepts `(u, p)`, then as user `u`; otherwise "Failed to authenticate" |
| BasicAuth.OneWordRejected | plugin/pkg/auth/authenticator/request/keystone/keystone.go:75-78 | a header that trims to one non-empty word is rejected with "invalid header" |
| BasicAuth.NoColonRejected | plugin/pkg/auth/authenticator/request/keystone/keystone.go:85-88 | a Basic header whose non-empty payload has no colon is rejected with "malformed basic auth header" |
| BasicAuth.SampleOtherScheme | plugin/pkg/auth/authenticator/request/keystone/keystone_test.go:71-74 | `Bearer foo` is rejected with "invalid header" |
| BasicAuth.SampleMissingToken | plugin/pkg/auth/authenticator/request/keystone/keystone_test.go:75-78 | `Basic` is rejected with "invalid header" |
| BasicAuth.SamplePaddedMissingToken | plugin/pkg/auth/authenticator/request/keystone/keystone_test.go:79-82 | `Basic  ` trims to `Basic` and is rejected with "invalid header" |
| BasicAuth.SampleBadToken | plugin/pkg/auth/authenticator/request/keystone/keystone_test.go:83-86 | `Basic !@#$` is rejected with the base64 error |
| GoStrings.TrimSpace | plugin/pkg/auth/authenticator/request/keystone/keystone.go:71 | the result is a slice of the string with only white space before and after it; it is empty exactly when the string is all white space, and otherwise starts and ends with a non-space; an already trimmed string is returned unchanged |
| GoStrings.LowerChar | plugin/pkg/auth/authenticator/request/keystone/keystone.go:76 | ASCII capitals are lowered, U+0130 becomes `i` and U+212A (KELVIN SIGN) becomes `k`, as `unicode.ToLower` does; every other character is kept |
| GoStrings.ToLower | plugin/pkg/auth/authenticator/request/keystone/keystone.go:76 | the result has the same length, with each character lowered by `LowerChar` |
| GoStrings.SplitPieces | plugin/pkg/auth/authenticator/request/keystone/keystone.go:75 | no piece of a split holds the separator, and the split has one piece exactly when the separator does not occur |
| GoStrings.SplitThenJoin | plugin/pkg/auth/authenticator/request/keystone/keystone.go:75 | joining the pieces of a split with the separator gives back the string |
| GoStrings.JoinThenSplit | plugin/pkg/auth/authenticator/request/keystone/keystone.go:75 | splitting a join of separator-free pieces gives back the pieces |
| GoStrings.SplitFirst | plugin/pkg/auth/authenticator/request/keystone/keystone.go:85 | `SplitN(s, sep, 2)` gives two parts exactly when `sep` occurs: a separator-free first part and everything after the first separator; otherwise `[s]` |
| GoStrings.SplitFirstAt | plugin/pkg/auth/authenticator/request/keystone/keystone.go:85 | after a separator-free prefix, the second part is the whole rest, further separators included |
| Base64.ValueOf | plugin/pkg/auth/authenticator/request/keystone/keystone.go:80 | a character has a value exactly when it is in the alphabet of Table 1 of RFC 4648, and that value encodes back to it |
| Base64.Encode | plugin/pkg/auth/authenticator/request/keystone/keystone_test.go:88 | the encoding is `4 * ceil(n / 3)` characters long and made of alphabet and padding characters only |
| Base64.DecodeQuantum | plugin/pkg/auth/authenticator/request/keystone/keystone.go:80 | a quantum decodes exactly when its first two characters are in the alphabet and either `==` ends the final quantum, or the third is in the alphabet and the fourth is too or is `=` ending the final quantum; it gives one byte per padding character fewer than three, packed from the sextets high bits first |
| Base64.DecodeString | plugin/pkg/auth/authenticator/request/keystone/keystone.go:80 | decoding succeeds only when the input, line breaks removed, is whole four-character quanta |
| Base64.DecodeEncode | plugin/pkg/auth/authenticator/request/keystone/keystone.go:80 | round trip: decoding the encoding of any bytes gives back those bytes |
| Base64.DecodeWithNewlines | plugin/pkg/auth/authenticator/request/keystone/keystone.go:80 | an encoding with line breaks put anywhere in it still decodes to the encoded bytes |
| Base64.EncodeDecodeQuantum | plugin/pkg/auth/authenticator/request/keystone/keystone.go:80 | re-encoding the bytes of a quantum gives back the quantum with the low bits before its padding cleared |
| Base64.EncodeDecode | plugin/pkg/auth/authenticator/request/keystone/keystone.go:80 | reverse round trip: whatever decodes is, line breaks removed, the encoding of its bytes up to the low bits before the padding, which the decoder ignores |
| Base64.ForeignCharRejected | plugin/pkg/auth/authenticator/request/keystone/keystone.go:80-83 | a token holding a character outside the alphabet, the padding and line breaks does not decode |
| Base64.LenientTrailingBits | plugin/pkg/auth/authenticator/request/keystone/keystone.go:80 | the standard (non-strict) decoder ignores the unused bits before padding: `YR==` and `YQ==` both decode to `a` |
| Union.New | pkg/auth/authorizer/union/union.go:28-30 | the chain holds the given authorizers, in the given order |
| Union.FirstGrant | pkg/auth/authorizer/union/union.go:36-43 | the position of the first authorizer that grants: it grants, and every earlier one fails; the chain length when none grants |
| Union.ChainOutcomeSpec | pkg/auth/authorizer/union/union.go:35-45 | the union grants exactly when some authorizer grants; otherwise the aggregated list has one entry per authorizer, each that authorizer's error, in chain order |
| Union.ChainOutcomeStopsAtGrant | pkg/auth/authorizer/union/union.go:36-43 | authorizers after the first grant play no part: replacing them by any others leaves the decision granted |
| Union.Authorize | pkg/auth/authorizer/union/union.go:34-46 | the loop's outcome is `ChainOutcome`; it asks the authorizers in chain order, each once, and stops right after the first grant or after the last authorizer |

## Left out

- `NewKeystoneAuthorizer` (`pkg/auth/authorizer/keystone/keystone.go:98-148`)
  is not modelled. It opens and decodes the configuration file, builds the
  gophercloud client and starts two background refresh goroutines. Those are
  file I/O, foreign library calls and scheduling.
  - The maps are written without a lock. Each refresh is modelled as one
    sequential field replacement, and concurrency is not modelled.
- `readConfig`, `osConfig` and `newOpenstackClient` are not modelled. They are
  JSON decoding and foreign client construction.
- The remote parts of the identity service are not modelled, because they are
  gophercloud network calls:
  - the paging bodies of `roleCheck`, `getTenants` and `getUsers`;
  - the `openstack.AuthenticatedClient` call of
    `OpenstackClient.AuthenticatePassword`.
  - The listings and answers these produce are parameters instead.
- `errors.NewAggregate` is not part of this model. The union's refusal is the
  list handed to it, and the model does not say what an empty list turns into.
- Logging (`glog`) is not modelled. Neither is the unreachable final `return`
  of `Authorize` (`pkg/auth/authorizer/keystone/keystone.go:168`).
- Reading the header from the HTTP request (`req.Header.Get`) is not
  modelled. The header is given as text, with `""` for an absent header.
- GoStrings.LowerChar: it does not lower the non-ASCII capitals that
  lower to non-ASCII letters (`À` to `à`, say), as `unicode.ToLower` does.
  The result is only ever compared with `basic`. The only non-ASCII
  characters that Go lowers to ASCII letters are U+0130 and U+212A, and
  both are modelled, so the comparison comes out the same.
- BasicAuth.ParseBasicAuth: the base64 error is the fixed text
  `illegal base64 data`. Go's `CorruptInputError` also carries the byte
  offset of the first bad character.
- Keystone.KeystoneAuthorizer.Authorize: the role check and every authorizer
  of a union are deterministic functions. A remote answer that changes
  between two calls is not modelled.
- The identity service's user and tenant records are modelled by the three
  fields the refresh reads: name, id and enabled.

## Notes on the source

- `strings.TrimSpace` is modelled with Go's full `unicode.IsSpace` set, not
  only ASCII white space. The code calls the Unicode-aware function.
- The guard of `roleCheck` reports "UserID null during authorization" for an
  empty tenant id as well as an empty user id
  (`pkg/auth/authorizer/keystone/keystone.go:206-207`). The model keeps the
  message. `Authorize` replaces it with "Keystone authorization failed" in
  any case.
- The header splits on single spaces, so `Basic ` followed by base64 of an
  empty payload trims to `Basic` and is an invalid header, not a malformed
  one. Hence `BasicAuth.NoColonRejected` needs a non-empty payload.
