/**
 * The JWKS records of auth.go and the key lookup and PEM framing of
 * `getPEMCertificate`. The HTTP fetch and the JSON decoding are an input:
 * what they produced (an error, or the decoded key set).
 */
module KeySet {
  import opened Wrappers
  import opened Claims

  /** One `JSONWebKeys` record; only `kid` and `x5c[0]` are consumed. */
  datatype JSONWebKey = JSONWebKey(kty: string, kid: string, use: string, n: string, e: string, x5c: seq<string>)

  /** The decoded JWKS document: its `keys` array, in document order. */
  datatype Jwks = Jwks(keys: seq<JSONWebKey>)

  /**
   * What `http.Get` of the JWKS URL (https://intouch-android.auth0.com/.well-known/jwks.json),
   * fetched afresh on every call, followed by `json.Decoder.Decode` produced.
   */
  datatype Fetched = FetchError(error: string) | DecodeError(error: string) | Decoded(jwks: Jwks)

  /**
   * The outcome of `getPEMCertificate`: the framed certificate, a returned
   * error, or the runtime panic of indexing `X5c[0]` on an empty chain.
   */
  datatype PemResult = Pem(cert: string) | PemError(error: string) | IndexOutOfRange

  const BEGIN_CERTIFICATE := "-----BEGIN CERTIFICATE-----\n"
  const END_CERTIFICATE := "\n-----END CERTIFICATE-----"
  const NO_APPROPRIATE_KEY := "Unable to find appropriate key"

  /** PEM framing of a base64 certificate body, with no line wrapping of the body. */
  function Frame(body: string): string {
    BEGIN_CERTIFICATE + body + END_CERTIFICATE
  }

  /** A framed certificate is never empty, starts with the BEGIN line and ends with the END line. */
  lemma FrameShape(body: string)
    ensures |Frame(body)| == |BEGIN_CERTIFICATE| + |body| + |END_CERTIFICATE| > 0
    ensures Frame(body)[..|BEGIN_CERTIFICATE|] == BEGIN_CERTIFICATE
    ensures Frame(body)[|BEGIN_CERTIFICATE|..|BEGIN_CERTIFICATE| + |body|] == body
    ensures Frame(body)[|BEGIN_CERTIFICATE| + |body|..] == END_CERTIFICATE
  {
  }

  /**
   * `token.Header["kid"] == key.Kid`: comparing an `interface{}` with a
   * string holds only when the header holds a string equal to `key.Kid`;
   * a missing or non-string `kid` matches no key, not even one whose
   * `Kid` is "".
   */
  predicate KidMatches(header: map<string, Value>, key: JSONWebKey) {
    "kid" in header && header["kid"] == Str(key.kid)
  }

  /** The index of the last key, in list order, that matches the header's `kid`. */
  function LastMatch(keys: seq<JSONWebKey>, header: map<string, Value>): (r: Option<nat>)
    ensures r.Some? ==> r.value < |keys| && KidMatches(header, keys[r.value])
    ensures r.Some? ==> forall j :: r.value < j < |keys| ==> !KidMatches(header, keys[j])
    ensures r.None? ==> forall j :: 0 <= j < |keys| ==> !KidMatches(header, keys[j])
  {
    if |keys| == 0 then None
    else if KidMatches(header, keys[|keys| - 1]) then Some(|keys| - 1)
    else LastMatch(keys[..|keys| - 1], header)
  }

  /** Some key that matches the header's `kid` has an empty certificate chain. */
  predicate MatchWithoutChain(keys: seq<JSONWebKey>, header: map<string, Value>) {
    exists i :: 0 <= i < |keys| && KidMatches(header, keys[i]) && |keys[i].x5c| == 0
  }

  /** The certificate built from the keys scanned so far: "" before any match, else the last match framed. */
  function CertOf(keys: seq<JSONWebKey>, header: map<string, Value>): string
    requires !MatchWithoutChain(keys, header)
  {
    match LastMatch(keys, header)
    case None => ""
    case Some(i) => Frame(keys[i].x5c[0])
  }

  /**
   * What `getPEMCertificate` yields: fetch and decode errors unchanged; a
   * panic if any matching key has no chain; otherwise the first chain
   * entry of the last matching key, framed, or "Unable to find appropriate
   * key" when no key matches.
   */
  function KeyLookup(fetched: Fetched, header: map<string, Value>): PemResult {
    match fetched
    case FetchError(e) => PemError(e)
    case DecodeError(e) => PemError(e)
    case Decoded(jwks) =>
      if MatchWithoutChain(jwks.keys, header) then IndexOutOfRange
      else if LastMatch(jwks.keys, header).None? then PemError(NO_APPROPRIATE_KEY)
      else Pem(CertOf(jwks.keys, header))
  }

  /**
   * `getPEMCertificate` after the fetch: a loop over every key that
   * overwrites `cert` on each match (there is no `break`), then the
   * `cert == ""` test for "no key found".
   */
  method GetPEMCertificate(header: map<string, Value>, fetched: Fetched) returns (r: PemResult)
    ensures r == KeyLookup(fetched, header)
  {
    var cert := "";
    var jwks: Jwks;
    match fetched {
      case FetchError(e) => return PemError(e);
      case DecodeError(e) => return PemError(e);
      case Decoded(decoded) => jwks := decoded;
    }
    var keys := jwks.keys;
    for k := 0 to |keys|
      invariant !MatchWithoutChain(keys[..k], header)
      invariant cert == CertOf(keys[..k], header)
    {
      assert keys[..k + 1][..k] == keys[..k];
      if KidMatches(header, keys[k]) {
        if |keys[k].x5c| == 0 {
          assert KidMatches(header, keys[..k + 1][k]);
          MatchWithoutChainGrows(keys, header, k + 1);
          return IndexOutOfRange;
        }
        cert := Frame(keys[k].x5c[0]);
      }
    }
    assert keys[..|keys|] == keys;
    if cert == "" {
      if LastMatch(keys, header).Some? {
        FrameShape(keys[LastMatch(keys, header).value].x5c[0]);
      }
      return PemError(NO_APPROPRIATE_KEY);
    }
    return Pem(cert);
  }

  /** A matching key without a chain in a prefix is one in the whole list. */
  lemma MatchWithoutChainGrows(keys: seq<JSONWebKey>, header: map<string, Value>, k: nat)
    requires k <= |keys| && MatchWithoutChain(keys[..k], header)
    ensures MatchWithoutChain(keys, header)
  {
    var i :| 0 <= i < k && KidMatches(header, keys[..k][i]) && |keys[..k][i].x5c| == 0;
    assert keys[..k][i] == keys[i];
  }

  /**
   * The last matching key wins: when key `i` matches, no later key does and
   * no matching key lacks a chain, the result is key `i`'s chain entry framed,
   * whatever earlier keys match.
   */
  lemma LastMatchingKeyWins(keys: seq<JSONWebKey>, header: map<string, Value>, i: nat)
    requires i < |keys| && KidMatches(header, keys[i])
    requires forall j :: i < j < |keys| ==> !KidMatches(header, keys[j])
    requires forall j :: 0 <= j < |keys| && KidMatches(header, keys[j]) ==> |keys[j].x5c| > 0
    ensures KeyLookup(Decoded(Jwks(keys)), header) == Pem(Frame(keys[i].x5c[0]))
  {
  }

  /** A successful lookup is the framed chain entry of a matching key, non-empty and PEM-delimited. */
  lemma PemComesFromMatchingKey(keys: seq<JSONWebKey>, header: map<string, Value>, cert: string)
    requires KeyLookup(Decoded(Jwks(keys)), header) == Pem(cert)
    ensures exists i :: 0 <= i < |keys| && KidMatches(header, keys[i]) && |keys[i].x5c| > 0 && cert == Frame(keys[i].x5c[0])
    ensures cert != "" && cert[..|BEGIN_CERTIFICATE|] == BEGIN_CERTIFICATE
    ensures cert[|cert| - |END_CERTIFICATE|..] == END_CERTIFICATE
  {
    var i := LastMatch(keys, header).value;
    FrameShape(keys[i].x5c[0]);
  }

  /** "Unable to find appropriate key" is reported exactly when no key matches the header's `kid`. */
  lemma NoKeyIffNoMatch(keys: seq<JSONWebKey>, header: map<string, Value>)
    ensures KeyLookup(Decoded(Jwks(keys)), header) == PemError(NO_APPROPRIATE_KEY) <==>
      forall j :: 0 <= j < |keys| ==> !KidMatches(header, keys[j])
  {
  }

  /** A token whose header has no string `kid` finds no key, even among keys whose `Kid` is "". */
  lemma MissingKidFindsNoKey(keys: seq<JSONWebKey>, header: map<string, Value>)
    requires "kid" !in header || !header["kid"].Str?
    ensures KeyLookup(Decoded(Jwks(keys)), header) == PemError(NO_APPROPRIATE_KEY)
  {
    NoKeyIffNoMatch(keys, header);
  }

  /** A matching key with an empty chain makes the lookup panic, whatever other keys hold. */
  lemma EmptyChainPanics(keys: seq<JSONWebKey>, header: map<string, Value>, i: nat)
    requires i < |keys| && KidMatches(header, keys[i]) && keys[i].x5c == []
    ensures KeyLookup(Decoded(Jwks(keys)), header) == IndexOutOfRange
  {
  }
}
