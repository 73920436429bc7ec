/**
 * The `ValidationKeyGetter` callback that `GetAuthHandler` in auth.go
 * installs in the JWT middleware: a fixed chain of guards (audience,
 * issuer, key lookup, RSA parsing) that yields the key to check the
 * token's RS256 signature with, an error, or a panic.
 */
module Auth {
  import opened Wrappers
  import opened Claims
  import opened KeySet

  const ISSUER := "https://intouch-android.auth0.com/"
  const AUDIENCE := "https://intouch-android-backend.herokuapp.com/"

  const INVALID_ISSUER := "Invalid issuer"
  const PARSE_FAILURE := "Failed to parse RSA public key from PEM certificate"
  /** The Go runtime's message for `X5c[0]` on an empty slice. */
  const INDEX_OUT_OF_RANGE := "runtime error: index out of range [0] with length 0"

  /**
   * What the callback does: return a key (nil error), return an error
   * (the middleware then rejects the request), or panic with a message.
   */
  datatype KeyGetterResult<K> = Accept(key: K) | Reject(error: string) | Panic(message: string)

  /**
   * The callback for a token with claims `claims` and header `header`.
   * `fetched` is what fetching and decoding the JWKS produced, and `parse`
   * stands for `jwt.ParseRSAPublicKeyFromPEM` (None for a parse error).
   * The issuer check reads `claims.m`: the source's unchecked
   * `token.Claims.(jwt.MapClaims)` assertion, safe because the audience
   * check only passes for map claims.
   */
  function ValidationKeyGetter<K>(claims: TokenClaims, header: map<string, Value>, fetched: Fetched, parse: string -> Option<K>): KeyGetterResult<K>
  {
    if AudienceCheck(claims, AUDIENCE) != Pass then Reject(INVALID_AUDIENCE)
    else if !VerifyIssuer(claims.m, ISSUER, true) then Reject(INVALID_ISSUER)
    else match KeyLookup(fetched, header)
      case PemError(e) => Panic(e)
      case IndexOutOfRange => Panic(INDEX_OUT_OF_RANGE)
      case Pem(cert) =>
        match parse(cert)
        case None => Reject(PARSE_FAILURE)
        case Some(key) => Accept(key)
  }

  /**
   * Any audience failure, missing claim or wrong value, rejects with
   * "Invalid audience" (the inner text is dropped), whatever the key set
   * and the parser would do: no fetch is needed to reach it.
   */
  lemma AudienceFailureRejects<K>(claims: TokenClaims, header: map<string, Value>, fetched: Fetched, parse: string -> Option<K>)
    ensures ValidationKeyGetter(claims, header, fetched, parse) == Reject(INVALID_AUDIENCE) <==>
      AudienceCheck(claims, AUDIENCE) != Pass
  {
  }

  /**
   * "Invalid issuer" is produced exactly when the audience check has passed
   * and the required issuer check fails, before any fetch is needed.
   */
  lemma IssuerRejectIff<K>(claims: TokenClaims, header: map<string, Value>, fetched: Fetched, parse: string -> Option<K>)
    ensures ValidationKeyGetter(claims, header, fetched, parse) == Reject(INVALID_ISSUER) <==>
      AudienceCheck(claims, AUDIENCE) == Pass && claims.MapClaims? && !VerifyIssuer(claims.m, ISSUER, true)
  {
  }

  /**
   * The callback panics exactly when both claim checks pass and the
   * certificate lookup does not produce a certificate; a fetch or decode
   * error panics with that error's own text.
   */
  lemma PanicIff<K>(claims: TokenClaims, header: map<string, Value>, fetched: Fetched, parse: string -> Option<K>)
    ensures ValidationKeyGetter(claims, header, fetched, parse).Panic? <==>
      AudienceCheck(claims, AUDIENCE) == Pass && claims.MapClaims? && VerifyIssuer(claims.m, ISSUER, true) &&
      !KeyLookup(fetched, header).Pem?
    ensures (AudienceCheck(claims, AUDIENCE) == Pass && claims.MapClaims? && VerifyIssuer(claims.m, ISSUER, true) &&
             (fetched.FetchError? || fetched.DecodeError?)) ==>
      ValidationKeyGetter(claims, header, fetched, parse) == Panic(fetched.error)
  {
  }

  /** The callback accepts a key exactly when all four steps succeed and the parser produced that key. */
  lemma AcceptIff<K>(claims: TokenClaims, header: map<string, Value>, fetched: Fetched, parse: string -> Option<K>, key: K)
    ensures ValidationKeyGetter(claims, header, fetched, parse) == Accept(key) <==>
      AudienceCheck(claims, AUDIENCE) == Pass && claims.MapClaims? && VerifyIssuer(claims.m, ISSUER, true) &&
      KeyLookup(fetched, header).Pem? && parse(KeyLookup(fetched, header).cert) == Some(key)
  {
  }

  /** A certificate that does not parse rejects with the fixed parse-failure message. */
  lemma ParseFailureRejects<K>(claims: TokenClaims, header: map<string, Value>, fetched: Fetched, parse: string -> Option<K>)
    requires AudienceCheck(claims, AUDIENCE) == Pass && claims.MapClaims? && VerifyIssuer(claims.m, ISSUER, true)
    requires KeyLookup(fetched, header).Pem? && parse(KeyLookup(fetched, header).cert).None?
    ensures ValidationKeyGetter(claims, header, fetched, parse) == Reject(PARSE_FAILURE)
  {
  }

  /** A returned error is always one of the callback's three fixed messages, never an inner error's text. */
  lemma RejectionsAreFixed<K>(claims: TokenClaims, header: map<string, Value>, fetched: Fetched, parse: string -> Option<K>)
    requires ValidationKeyGetter(claims, header, fetched, parse).Reject?
    ensures ValidationKeyGetter(claims, header, fetched, parse).error in {INVALID_AUDIENCE, INVALID_ISSUER, PARSE_FAILURE}
  {
  }

  /**
   * End to end on the raw token: map claims whose `aud` array lists the
   * audience and whose `iss` is the issuer, a decoded key set whose last key
   * matching the header's `kid` is key `i`, every matching key carrying a
   * chain, and a parser that accepts key `i`'s framed certificate: the
   * callback returns that parser's key.
   */
  lemma AcceptsLastMatchingKey<K>(m: map<string, Value>, header: map<string, Value>, keys: seq<JSONWebKey>, i: nat, parse: string -> Option<K>, key: K)
    requires "aud" in m && m["aud"].Arr? && Str(AUDIENCE) in m["aud"].items
    requires "iss" in m && m["iss"] == Str(ISSUER)
    requires i < |keys| && KidMatches(header, keys[i])
    requires forall j :: i < j < |keys| ==> !KidMatches(header, keys[j])
    requires forall j :: 0 <= j < |keys| && KidMatches(header, keys[j]) ==> |keys[j].x5c| > 0
    requires parse(Frame(keys[i].x5c[0])) == Some(key)
    ensures ValidationKeyGetter(MapClaims(m), header, Decoded(Jwks(keys)), parse) == Accept(key)
  {
    AudiencePassIff(MapClaims(m), AUDIENCE);
    LastMatchingKeyWins(keys, header, i);
  }
}
