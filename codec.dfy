/**
 * The JWT library the package is built on (JSON Web Tokens, RFC 7519, in the
 * compact serialisation of section 7.1 of RFC 7515), kept abstract. Its
 * operations are function values of a `Codec`; `Lawful` states what the
 * lifecycle code relies on: HMAC signing succeeds, and a token signed under a
 * key parses back under that key to the same method, header and claims unless
 * it has expired or is used too early. Base64url, JSON and the HMAC itself are not
 * modelled.
 */
module JwtCodec {
  import opened Claims

  /** Signing keys are the bytes of a string (`[]byte(s)`). */
  type Key = string

  /** A byte; Go strings, such as token and header values, are byte sequences. */
  newtype byte = x: int | 0 <= x < 256

  type Bytes = seq<byte>

  /** The bytes of an ASCII string. */
  function Ascii(s: string): (b: Bytes)
    requires forall i :: 0 <= i < |s| ==> s[i] < 128 as char
    ensures |b| == |s| && forall i :: 0 <= i < |s| ==> b[i] as int == s[i] as int
  {
    seq(|s|, i requires 0 <= i < |s| => s[i] as int as byte)
  }

  /** Outcome of `Token.SignedString`. */
  datatype SignResult = Signed(token: Bytes) | SignError(msg: string)

  /** A token header (its JSON object). */
  type Header = map<string, Json>

  /**
   * A token (`*jwt.Token`): the signing method (`alg`) it is signed with, its
   * header, its claims, the signature segment, and whether validation passed.
   */
  datatype Token = Token(alg: string, header: Header, claims: ClaimSet, signature: Bytes, valid: bool)

  /** Outcome of a library parse: an error with its message, or a token. */
  datatype ParseOutcome = ParseError(msg: string) | Parsed(token: Token)

  /**
   * Outcome of `jwt.ParseWithClaims`: the parse outcome, and what the
   * caller's claims value holds afterwards (the payload is decoded into it
   * before validation, so it is written on error paths too).
   */
  datatype ClaimsParse = ClaimsParse(outcome: ParseOutcome, decoded: ClaimSet)

  /**
   * The library's operations.
   * - `sign(alg, header, claims, key)`: serialise header and claims and sign
   *   them with method `alg`;
   * - `parse(s, key, now)`: `jwt.Parse` of `s` into a claim map, verifying
   *   with `key` at Unix time `now`;
   * - `parseWithClaims(s, target, key, now)`: `jwt.ParseWithClaims`, which
   *   decodes the payload into the caller's claims value `target` (keys the
   *   payload lacks keep their values) before it validates that merged
   *   value; a parsed token's claims are the merged value;
   * - `expired(exp, now)`: whether a token whose "exp" is `exp` is rejected
   *   at time `now`.
   */
  datatype Codec = Codec(
    sign: (string, Header, ClaimSet, Key) -> SignResult,
    parse: (Bytes, Key, int) -> ParseOutcome,
    parseWithClaims: (Bytes, ClaimSet, Key, int) -> ClaimsParse,
    expired: (int, int) -> bool)

  /** Methods `jwt.GetSigningMethod` knows; any other name gives nil. */
  const RegisteredMethods: set<string> :=
    {"HS256", "HS384", "HS512", "RS256", "RS384", "RS512",
     "PS256", "PS384", "PS512", "ES256", "ES384", "ES512", "none"}

  /** The HMAC family (section 3.2 of RFC 7518), the only one usable with a byte-string key. */
  const HmacMethods: set<string> := {"HS256", "HS384", "HS512"}

  /** Error text of `jwt.Parse` for an expired token. */
  const ExpiredMessage: string := "Token is expired"

  /** The header `jwt.NewWithClaims` gives a new token. */
  function NewHeader(alg: string): (h: Header)
    ensures "alg" in h && h["alg"] == Str(alg)
  {
    map["typ" := Str("JWT"), "alg" := Str(alg)]
  }

  /** `jwt.NewWithClaims`: an unsigned token for `claims` with the standard header. */
  function NewWithClaims(alg: string, claims: ClaimSet): Token {
    Token(alg, NewHeader(alg), claims, [], false)
  }

  /** `Token.SignedString`: signs the token's own header and claims with its method. */
  function SignedString(codec: Codec, t: Token, key: Key): SignResult {
    codec.sign(t.alg, t.header, t.claims, key)
  }

  /** The payload's expiration time has passed at `now`, by the library's rule. */
  predicate IsExpired(codec: Codec, c: ClaimSet, now: int) {
    HasNumericExp(c) && codec.expired(ExpOf(c), now)
  }

  /** A numeric time claim other than 0 (which the library treats as absent) lies after `now`. */
  predicate After(c: ClaimSet, name: string, now: int) {
    name in c && c[name].Num? && c[name].n != 0 && now < c[name].n
  }

  /**
   * The token is used too early: its issued-at ("iat") or not-before
   * ("nbf", sections 4.1.6 and 4.1.5 of RFC 7519) lies in the future, which
   * the library rejects ("Token used before issued", "Token is not valid yet").
   */
  predicate IsEarly(c: ClaimSet, now: int) {
    After(c, "iat", now) || After(c, "nbf", now)
  }

  /** What parsing a token signed with `alg` over header `h` and claims `c` yields at `now`. */
  predicate ParsesBack(codec: Codec, out: ParseOutcome, alg: string, h: Header, c: ClaimSet, now: int) {
    if IsExpired(codec, c, now) || IsEarly(c, now) then out.ParseError?
    else out.Parsed? && out.token.valid && out.token.alg == alg && out.token.header == h && out.token.claims == c
  }

  /** The header names the method the token is signed with, as the library requires to verify it. */
  predicate NamesAlg(h: Header, alg: string) {
    "alg" in h && h["alg"] == Str(alg)
  }

  /**
   * The laws assumed of the library.
   * 1. HMAC signing never fails, whatever the key.
   * 2. `jwt.Parse` of an HMAC-signed token under the same key, whose header
   *    names that method, gives back the method, header and claims, unless
   *    the token has expired or is used too early. An expired token that is
   *    not early fails with "Token is expired" (the library's later checks
   *    of "iat" and "nbf" overwrite that message).
   * 3. `jwt.ParseWithClaims` into a caller's value `target` behaves the same
   *    for the merged claims `target + c`, with error texts of its own: the
   *    expiry and "iat"/"nbf" checks see what the target already held.
   *    Whether it succeeds or fails, the target then holds `target + c`.
   * 4. Section 4.1.4 of RFC 7519 as the library applies it: a token is not
   *    expired up to and including its "exp"; an "exp" of 0 is treated as
   *    absent and never expires; any other "exp" in the past is expired.
   */
  ghost predicate Lawful(codec: Codec) {
    && (forall m, h, c, k :: m in HmacMethods ==> codec.sign(m, h, c, k).Signed?)
    && (forall m, h, c, k, now ::
          m in HmacMethods && NamesAlg(h, m) && codec.sign(m, h, c, k).Signed? ==>
            var out := codec.parse(codec.sign(m, h, c, k).token, k, now);
            && ParsesBack(codec, out, m, h, c, now)
            && (out.ParseError? && !IsEarly(c, now) ==> out.msg == ExpiredMessage))
    && (forall m, h, c, target, k, now ::
          m in HmacMethods && NamesAlg(h, m) && codec.sign(m, h, c, k).Signed? ==>
            var p := codec.parseWithClaims(codec.sign(m, h, c, k).token, target, k, now);
            && ParsesBack(codec, p.outcome, m, h, target + c, now)
            && p.decoded == target + c)
    && (forall exp, now :: now <= exp ==> !codec.expired(exp, now))
    && (forall now :: !codec.expired(0, now))
    && (forall exp, now :: exp != 0 && exp < now ==> codec.expired(exp, now))
  }
}
