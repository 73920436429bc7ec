/**
 * Token claims and the two claim checks of auth.go: `verifyAudience`
 * and the jwt-go `MapClaims.VerifyIssuer` call the key getter relies on.
 */
module Claims {
  import opened Wrappers

  /**
   * A value decoded from a token's JSON header or payload, as Go sees it
   * behind an `interface{}`: a string, an array (`[]interface{}`), or
   * anything else (number, boolean, null, object).
   */
  datatype Value = Str(s: string) | Arr(items: seq<Value>) | Other

  /**
   * A token's `jwt.Claims`: the `MapClaims` map the parser produces by
   * default, or any other implementation of the interface.
   */
  datatype TokenClaims = MapClaims(m: map<string, Value>) | OtherClaims

  const NO_AUDIENCE_CLAIM := "No audience claim"
  const INVALID_AUDIENCE := "Invalid audience"

  /**
   * The map that `claims, _ = tokenClaims.(jwt.MapClaims)` yields: the
   * claims themselves, or the nil map (which holds no key) when the
   * assertion fails.
   */
  function ClaimMap(c: TokenClaims): map<string, Value> {
    if c.MapClaims? then c.m else map[]
  }

  /** The `aud` key is present in the claim map. */
  predicate HasAudClaim(c: TokenClaims) {
    "aud" in ClaimMap(c)
  }

  /** `aud` is an array and one of its elements is a string equal to `audience`. */
  predicate AudienceListed(c: TokenClaims, audience: string) {
    HasAudClaim(c) && ClaimMap(c)["aud"].Arr? &&
    exists i :: 0 <= i < |ClaimMap(c)["aud"].items| && ClaimMap(c)["aud"].items[i] == Str(audience)
  }

  /** The error `verifyAudience` returns, stated by what the claims contain. */
  function AudienceCheck(c: TokenClaims, audience: string): Outcome {
    if !HasAudClaim(c) then Fail(NO_AUDIENCE_CLAIM)
    else if AudienceListed(c, audience) then Pass
    else Fail(INVALID_AUDIENCE)
  }

  /**
   * `verifyAudience`: look `aud` up in the (possibly nil) claim map, view it
   * as an array (the empty slice when it is not one) and search that array
   * for a string equal to `audience`, returning at the first hit.
   */
  method VerifyAudience(tokenClaims: TokenClaims, audience: string) returns (err: Outcome)
    ensures err == AudienceCheck(tokenClaims, audience)
  {
    var claims := ClaimMap(tokenClaims);
    if "aud" !in claims {
      return Fail(NO_AUDIENCE_CLAIM);
    }
    var items := if claims["aud"].Arr? then claims["aud"].items else [];
    for i := 0 to |items|
      invariant forall j :: 0 <= j < i ==> items[j] != Str(audience)
    {
      if items[i] == Str(audience) {
        return Pass;
      }
    }
    return Fail(INVALID_AUDIENCE);
  }

  /** "No audience claim" is returned exactly when `aud` is absent, non-map claims included. */
  lemma NoAudienceIffAbsent(c: TokenClaims, audience: string)
    ensures AudienceCheck(c, audience) == Fail(NO_AUDIENCE_CLAIM) <==> (c.OtherClaims? || "aud" !in c.m)
  {
  }

  /** The check passes exactly when `aud` is an array holding a string equal to `audience`. */
  lemma AudiencePassIff(c: TokenClaims, audience: string)
    ensures AudienceCheck(c, audience) == Pass <==>
      (c.MapClaims? && "aud" in c.m && c.m["aud"].Arr? && Str(audience) in c.m["aud"].items)
  {
    if c.MapClaims? && "aud" in c.m && c.m["aud"].Arr? && Str(audience) in c.m["aud"].items {
      var i :| 0 <= i < |c.m["aud"].items| && c.m["aud"].items[i] == Str(audience);
    }
  }

  /** A scalar `aud`, even one equal to `audience`, is an invalid audience. */
  lemma ScalarAudienceRejected(m: map<string, Value>, audience: string)
    requires "aud" in m && !m["aud"].Arr?
    ensures AudienceCheck(MapClaims(m), audience) == Fail(INVALID_AUDIENCE)
  {
  }

  /** The check passes only for `MapClaims`; any other claims type fails it. */
  lemma PassImpliesMapClaims(c: TokenClaims, audience: string)
    requires AudienceCheck(c, audience) == Pass
    ensures c.MapClaims? && "aud" in c.m
  {
  }

  /**
   * `MapClaims.VerifyIssuer(cmp, required)` as jwt-go v3 defines it (that
   * library is not part of this model): `iss` read as a string, "" when it
   * is absent or not a string; an empty `iss` passes iff it is not required,
   * any other must equal `cmp` exactly.
   */
  predicate VerifyIssuer(m: map<string, Value>, cmp: string, required: bool) {
    var iss := if "iss" in m && m["iss"].Str? then m["iss"].s else "";
    if iss == "" then !required else iss == cmp
  }

  /** With `required` set, the issuer check holds iff `iss` is a non-empty string equal to `cmp`. */
  lemma RequiredIssuerIff(m: map<string, Value>, cmp: string)
    ensures VerifyIssuer(m, cmp, true) <==> ("iss" in m && m["iss"] == Str(cmp) && cmp != "")
  {
  }
}
