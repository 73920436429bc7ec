# Token key getter and data-source choice of the InTouch server

This project models the decision logic of two files of the server:

- `auth.go`: the `ValidationKeyGetter` callback that `GetAuthHandler`
  installs in the JWT middleware. It checks the token's `aud` claim
  (`verifyAudience`), then its `iss` claim, then finds the signing
  certificate in the published key set (`getPEMCertificate`), and finally
  parses it as an RSA public key. The callback can return a key, return an
  error, or panic.
- `dbconn.go`: the choice of data source in `CreateDBConnection`. A set
  `DATABASE_URL` is used verbatim. Otherwise the code builds a local
  connection string with `createLocalDBUrl`.

Modules:

- `Wrappers`: `Option`, and `Outcome` for a Go `error` return.
- `Claims`: claim values (string, array, other), token claims (map claims
  or another claims type), `verifyAudience` as a loop method proved equal to
  the function `AudienceCheck`, and the issuer check as a predicate.
- `KeySet`: the `Jwks` and `JSONWebKeys` records. `getPEMCertificate` is a
  loop method that overwrites `cert` on every match. It is proved equal to
  `KeyLookup`, which is stated through `LastMatch`, the index of the last
  matching key.
- `Auth`: the callback as the function `ValidationKeyGetter`, with lemmas
  for each of its outcomes.
- `DbConn`: `createLocalDBUrl` and the data-source choice.

Inputs that stand for I/O or for library code:

- The outcome of fetching and decoding the JWKS document is an input of
  type `Fetched`.
- `jwt.ParseRSAPublicKeyFromPEM` is a function parameter `string -> Option<K>`.
- `os.LookupEnv("DATABASE_URL")` is an `Option<string>` parameter.

Behaviour of the code that a reader might not expect; the model follows the
code:

- The last matching key wins, not the first. The loop has no `break`.
- The certificate body is framed without line wrapping.
- A fetch error, a decode error and "no matching key" all make the callback
  panic. They are not rejections.
- A matching key with an empty `x5c` makes the callback panic by index out
  of range.
- An audience failure always rejects with "Invalid audience". The inner
  "No audience claim" text is dropped.
- The issuer check always runs after the audience check and before any
  fetch. No fetch is needed to reach either claim rejection.

## Model

| member | source | states |
|---|---|---|
| `Claims.VerifyAudience` | auth.go:109-125 | The search loop returns exactly the outcome `AudienceCheck` gives for those claims and that audience. |
| `Claims.NoAudienceIffAbsent` | auth.go:110-115 | "No audience claim" is returned exactly when `aud` is absent. Claims that are not a `MapClaims` count as absent, because the nil map holds no key. |
| `Claims.AudiencePassIff` | auth.go:117-124 | The check passes exactly when `aud` is an array that holds a string equal to the audience. |
| `Claims.ScalarAudienceRejected` | auth.go:117-124 | A present `aud` that is not an array gives "Invalid audience", even a string equal to the audience. |
| `Claims.PassImpliesMapClaims` | auth.go:39-45 | A passing audience check implies map claims with `aud`. So the unchecked `MapClaims` assertion in the issuer check cannot fail. |
| `Claims.RequiredIssuerIff` | auth.go:45 | With `required` set, the issuer check holds exactly when `iss` is a non-empty string equal to the expected issuer. |
| `KeySet.FrameShape` | auth.go:94-96 | A framed certificate is the BEGIN line, then the body verbatim, then the END line. It is never empty. |
| `KeySet.LastMatch` | auth.go:92-98 | The index it returns is a key that matches the header `kid`, and no later key matches. None means no key matches. |
| `KeySet.GetPEMCertificate` | auth.go:77-106 | The loop's result equals `KeyLookup`. Fetch and decode errors pass through unchanged. A matching key with no chain panics. Otherwise the result is the framed certificate of the last match, or "Unable to find appropriate key". |
| `KeySet.LastMatchingKeyWins` | auth.go:92-98 | If key i matches and no later key does, the result is key i's first chain entry framed, whatever earlier keys match. |
| `KeySet.PemComesFromMatchingKey` | auth.go:92-105 | Every certificate found is the framed first chain entry of some matching key. It is non-empty and PEM-delimited. |
| `KeySet.NoKeyIffNoMatch` | auth.go:100-103 | "Unable to find appropriate key" is reported exactly when no key's `Kid` equals the header `kid`. |
| `KeySet.MissingKidFindsNoKey` | auth.go:93 | A header without a string `kid` matches no key, including a key whose `Kid` is "". |
| `KeySet.EmptyChainPanics` | auth.go:95 | A matching key with an empty `x5c` makes the lookup panic by index out of range. |
| `Auth.AudienceFailureRejects` | auth.go:39-43 | The callback rejects with "Invalid audience" exactly when the audience check fails, whatever the key set and parser. |
| `Auth.IssuerRejectIff` | auth.go:45-48 | The callback rejects with "Invalid issuer" exactly when the audience check passed and the required issuer check failed. |
| `Auth.PanicIff` | auth.go:50-53 | The callback panics exactly when both claim checks pass and the lookup yields no certificate. A fetch or decode error panics with its own text. |
| `Auth.AcceptIff` | auth.go:55-60 | The callback returns a key exactly when the audience, issuer, lookup and parse steps all succeed. The key is the one the parser produced. |
| `Auth.ParseFailureRejects` | auth.go:55-58 | A certificate that does not parse rejects with "Failed to parse RSA public key from PEM certificate". |
| `Auth.RejectionsAreFixed` | auth.go:38-61 | Every returned error is one of the three fixed messages. No inner error text is ever returned. |
| `Auth.AcceptsLastMatchingKey` | auth.go:38-61 | For valid claims, the callback returns the parsed key of the last key matching the header `kid`. |
| `DbConn.LocalUrlLayout` | dbconn.go:42-48 | The local URL is "user=", the user, " dbname=", the database name and " sslmode=disable", in that order, each at its position. |
| `DbConn.LocalUrlInjective` | dbconn.go:42-48 | If neither user name holds a space, two connections with the same local URL are equal. |
| `DbConn.LocalUrlCollision` | dbconn.go:42-48 | A user name holding a space can carry its own " dbname=" field: two different connections then give the same local URL. |
| `DbConn.UserFieldEndsAtFirstSpace` | dbconn.go:44 | If the user name has no space, no space in the URL comes before the end of the user field. |
| `DbConn.DatabaseUrlWins` | dbconn.go:27-28 | A set `DATABASE_URL` is the data source verbatim. The local connection is ignored. |
| `DbConn.EmptyDatabaseUrlIsUsed` | dbconn.go:27-31 | A set but empty `DATABASE_URL` gives the empty data source. It does not fall back to the local URL. |
| `DbConn.LocalFallback` | dbconn.go:17-33 | The driver is always "postgres". Without `DATABASE_URL`, the data source is the local URL, which starts with "user=" and ends with " sslmode=disable". |

## Left out

- The HTTP fetch of the JWKS URL and its JSON decoding (auth.go:80-90) are network I/O and library code. Their outcome is the `Fetched` input.
- `jwt.ParseRSAPublicKeyFromPEM` (auth.go:55) is X.509 and RSA parsing in a library. It is the `parse` parameter.
- `MapClaims.VerifyIssuer` (auth.go:45) belongs to jwt-go, which is not part of this model. `Claims.VerifyIssuer` assumes jwt-go v3's definition: a non-string or missing `iss` reads as "", and with `required` set an empty `iss` fails.
- The jwtmiddleware pipeline (auth.go:37, 63-69) is library behaviour: bearer extraction, the RS256 signature check and the HTTP error response. Only the callback is modelled.
- What happens to a panic after it leaves the callback is not modelled. That includes any recovery by the HTTP server.
- `INDEX_OUT_OF_RANGE` is the Go runtime's message. Its exact wording depends on the Go version.
- `GetFakeAuthHandler` (auth.go:72-74) returns its handler unchanged, so there is nothing to state about it.
- response.go wraps `encoding/json.Marshal`. The escaping is library behaviour.
- `sql.Open`, `db.Close` and the error return of `CreateDBConnection` (dbconn.go:33-39) are database I/O. The model stops at the driver and data source passed to `sql.Open`.
- The `Message` record (auth.go:32-34) is only used by response.go.
- `Auth.KeyGetterResult`: on each error the callback also returns the token itself as its first value (auth.go:42, 47, 57). jwt-go ignores that value whenever the error is non-nil, so `Reject` carries only the error text.
- `DbConn.LocalUrlLayout`: Dafny strings count characters where Go strings count bytes, so the lengths and positions stated there are character positions. Equality and concatenation, which are all the code uses, agree in both.
