/**
 * Properties of whole token lifecycles (generate, then parse, validate or
 * refresh), for any JWT library that satisfies the laws `Lawful` states.
 */
module Lifecycle {
  import opened Wrappers
  import opened Claims
  import opened JwtCodec
  import opened AuthEnv
  import opened AuthUtil
  import opened MiniJwt

  /** The token `Generate` issues for HMAC method `alg`, claims `c` and a non-empty key. */
  function Issued(alg: string, c: ClaimSet, tokenKey: Key, codec: Codec): Bytes
    requires alg in HmacMethods && tokenKey != ""
  {
    Generate(alg, Some(c), tokenKey, codec).token
  }

  /** The bearer header value a client sends for `token`. */
  function Bearer(token: Bytes): Bytes {
    BearerPrefix + token
  }

  /** Generation succeeds, and the bearer prefix comes off the issued token exactly. */
  lemma IssuedSigned(alg: string, c: ClaimSet, tokenKey: Key, codec: Codec)
    requires Lawful(codec) && alg in HmacMethods && tokenKey != ""
    ensures Generate(alg, Some(c), tokenKey, codec).err == None
    ensures Signed(Issued(alg, c, tokenKey, codec)) == codec.sign(alg, NewHeader(alg), c, tokenKey)
    ensures StripBearer(Bearer(Issued(alg, c, tokenKey, codec))) == Issued(alg, c, tokenKey, codec)
  {
    assert codec.sign(alg, NewHeader(alg), c, tokenKey).Signed?;
    StripBearerIsBlind(BearerPrefix, Issued(alg, c, tokenKey, codec));
  }

  /**
   * `ParseToken` of an issued token under the same key, neither expired nor
   * used before its "iat"/"nbf", gives back its claims.
   */
  lemma ParseTokenRoundTrip(alg: string, c: ClaimSet, tokenKey: Key, now: int, codec: Codec)
    requires Lawful(codec) && alg in HmacMethods && tokenKey != ""
    requires !IsExpired(codec, c, now) && !IsEarly(c, now)
    ensures ParseToken(Bearer(Issued(alg, c, tokenKey, codec)), tokenKey, now, codec) == ClaimsResult(Some(c), None)
  {
    IssuedSigned(alg, c, tokenKey, codec);
  }

  /**
   * `ParseTokenWithClaims` of an issued token into a caller's value
   * `current` succeeds when the merged claims are neither expired nor early,
   * and leaves the payload merged over what `current` held.
   */
  lemma ParseWithClaimsRoundTrip(alg: string, c: ClaimSet, current: ClaimSet, tokenKey: Key, now: int, codec: Codec)
    requires Lawful(codec) && alg in HmacMethods && tokenKey != ""
    requires !IsExpired(codec, current + c, now) && !IsEarly(current + c, now)
    ensures ParseWithClaimsInto(Bearer(Issued(alg, c, tokenKey, codec)), current, tokenKey, now, codec)
            == ClaimsFill(current + c, None)
  {
    IssuedSigned(alg, c, tokenKey, codec);
  }

  /** Into an empty claims value, an issued token neither expired nor early fills exactly its claims. */
  lemma ParseWithClaimsFreshTarget(alg: string, c: ClaimSet, tokenKey: Key, now: int, codec: Codec)
    requires Lawful(codec) && alg in HmacMethods && tokenKey != ""
    requires !IsExpired(codec, c, now) && !IsEarly(c, now)
    ensures ParseWithClaimsInto(Bearer(Issued(alg, c, tokenKey, codec)), map[], tokenKey, now, codec)
            == ClaimsFill(c, None)
  {
    assert map[] + c == c;
    ParseWithClaimsRoundTrip(alg, c, map[], tokenKey, now, codec);
  }

  /**
   * A reused target can make a fresh token fail: when the merged claims are
   * expired or early (an old "exp", or a future "iat"/"nbf", kept from the
   * target), parsing reports an error, yet the payload has already been
   * merged into the target.
   */
  lemma ParseWithClaimsStaleTarget(alg: string, c: ClaimSet, current: ClaimSet, tokenKey: Key, now: int, codec: Codec)
    requires Lawful(codec) && alg in HmacMethods && tokenKey != ""
    requires IsExpired(codec, current + c, now) || IsEarly(current + c, now)
    ensures var r := ParseWithClaimsInto(Bearer(Issued(alg, c, tokenKey, codec)), current, tokenKey, now, codec);
      r.filled == current + c && r.err.Some?
  {
    IssuedSigned(alg, c, tokenKey, codec);
  }

  /**
   * The concrete case: a target still holding "exp" 1 makes an issued token
   * carrying only "Data" fail at time 1000, and the target then holds both.
   */
  lemma StaleExpiredTargetFails(alg: string, tokenKey: Key, codec: Codec)
    requires Lawful(codec) && alg in HmacMethods && tokenKey != ""
    ensures var r := ParseWithClaimsInto(Bearer(Issued(alg, map["Data" := Str("x")], tokenKey, codec)),
                                         map[ExpClaim := Num(1)], tokenKey, 1000, codec);
      r.err.Some? && r.filled == map[ExpClaim := Num(1), "Data" := Str("x")]
  {
    var current: ClaimSet := map[ExpClaim := Num(1)];
    var c: ClaimSet := map["Data" := Str("x")];
    assert current + c == map[ExpClaim := Num(1), "Data" := Str("x")];
    assert IsExpired(codec, current + c, 1000);
    ParseWithClaimsStaleTarget(alg, c, current, tokenKey, 1000, codec);
  }

  /**
   * The expiry boundaries: an issued token is still valid at the very second
   * of its "exp", and one whose "exp" is 0 never expires.
   */
  lemma ExpiryBoundaries(alg: string, c: ClaimSet, tokenKey: Key, now: int, codec: Codec)
    requires Lawful(codec) && alg in HmacMethods && tokenKey != ""
    requires ExpClaim in c && c[ExpClaim].Num? && (c[ExpClaim].n == now || c[ExpClaim].n == 0)
    requires !IsEarly(c, now)
    ensures IsValid(Bearer(Issued(alg, c, tokenKey, codec)), tokenKey, now, codec)
  {
    IsValidIssued(alg, c, tokenKey, now, codec);
  }

  /** An issued token is valid exactly while it has neither expired nor is used too early. */
  lemma IsValidIssued(alg: string, c: ClaimSet, tokenKey: Key, now: int, codec: Codec)
    requires Lawful(codec) && alg in HmacMethods && tokenKey != ""
    ensures IsValid(Bearer(Issued(alg, c, tokenKey, codec)), tokenKey, now, codec)
            <==> !IsExpired(codec, c, now) && !IsEarly(c, now)
  {
    IssuedSigned(alg, c, tokenKey, codec);
  }

  /**
   * An expired token that is not early: parsing fails with the library's
   * "Token is expired" and no claims.
   */
  lemma ParseExpired(alg: string, c: ClaimSet, tokenKey: Key, now: int, codec: Codec)
    requires Lawful(codec) && alg in HmacMethods && tokenKey != ""
    requires IsExpired(codec, c, now) && !IsEarly(c, now)
    ensures ParseToken(Bearer(Issued(alg, c, tokenKey, codec)), tokenKey, now, codec)
            == ClaimsResult(None, Some(ExpiredMessage))
  {
    IssuedSigned(alg, c, tokenKey, codec);
  }

  /**
   * A token used before its "iat" or "nbf", expired or not: parsing fails
   * with no claims, and refreshing it fails with no token.
   */
  lemma UseTooEarlyFails(alg: string, c: ClaimSet, tokenKey: Key, now: int, initNow: int, codec: Codec)
    requires Lawful(codec) && alg in HmacMethods && tokenKey != ""
    requires IsEarly(c, now)
    ensures var r := ParseToken(Bearer(Issued(alg, c, tokenKey, codec)), tokenKey, now, codec);
      r.claims.None? && r.err.Some?
    ensures !IsValid(Bearer(Issued(alg, c, tokenKey, codec)), tokenKey, now, codec)
    ensures ExpReadable(codec.parse(StripBearer(Bearer(Issued(alg, c, tokenKey, codec))), tokenKey, now))
    ensures var r := Refresh(Bearer(Issued(alg, c, tokenKey, codec)), tokenKey, now, initNow, codec);
      r.token == [] && r.err.Some?
  {
    IssuedSigned(alg, c, tokenKey, codec);
  }

  /** Refreshing an expired token that is not early returns no token and the library's error. */
  lemma RefreshExpired(alg: string, c: ClaimSet, tokenKey: Key, now: int, initNow: int, codec: Codec)
    requires Lawful(codec) && alg in HmacMethods && tokenKey != ""
    requires IsExpired(codec, c, now) && !IsEarly(c, now)
    ensures ExpReadable(codec.parse(StripBearer(Bearer(Issued(alg, c, tokenKey, codec))), tokenKey, now))
    ensures Refresh(Bearer(Issued(alg, c, tokenKey, codec)), tokenKey, now, initNow, codec)
            == TokenResult([], Some(ExpiredMessage))
  {
    IssuedSigned(alg, c, tokenKey, codec);
  }

  /** With more than an hour left, refresh hands back the very token that was issued. */
  lemma RefreshPassthrough(alg: string, c: ClaimSet, tokenKey: Key, now: int, initNow: int, codec: Codec)
    requires Lawful(codec) && alg in HmacMethods && tokenKey != ""
    requires HasNumericExp(c) && MoreThanAnHourLeft(ExpOf(c), now) && !IsEarly(c, now)
    ensures ExpReadable(codec.parse(StripBearer(Bearer(Issued(alg, c, tokenKey, codec))), tokenKey, now))
    ensures Refresh(Bearer(Issued(alg, c, tokenKey, codec)), tokenKey, now, initNow, codec)
            == TokenResult(Issued(alg, c, tokenKey, codec), None)
  {
    IssuedSigned(alg, c, tokenKey, codec);
    assert !IsExpired(codec, c, now);
  }

  /** The claims a reissued token carries: the original ones with "exp" reset. */
  function ReissuedClaims(c: ClaimSet, initNow: int): ClaimSet {
    c[ExpClaim := Num(DefaultExpirationTime(initNow))]
  }

  /** Resetting "exp" leaves "iat" and "nbf" alone, so a reissued token is early exactly when the original was. */
  lemma ReissueKeepsEarliness(c: ClaimSet, initNow: int, t: int)
    ensures IsEarly(ReissuedClaims(c, initNow), t) == IsEarly(c, t)
  {
    var c' := ReissuedClaims(c, initNow);
    assert ("iat" in c' <==> "iat" in c) && ("iat" in c ==> c'["iat"] == c["iat"]);
    assert ("nbf" in c' <==> "nbf" in c) && ("nbf" in c ==> c'["nbf"] == c["nbf"]);
  }

  /**
   * With at most an hour left (exactly one hour included) on an unexpired
   * token that is not early, refresh signs the claims with only "exp" reset
   * to `DefaultExpirationTime`, under the token's own method and header and
   * the same key.
   */
  lemma RefreshReissues(alg: string, c: ClaimSet, tokenKey: Key, now: int, initNow: int, codec: Codec)
    requires Lawful(codec) && alg in HmacMethods && tokenKey != ""
    requires HasNumericExp(c) && !IsExpired(codec, c, now) && !MoreThanAnHourLeft(ExpOf(c), now) && !IsEarly(c, now)
    ensures ExpReadable(codec.parse(StripBearer(Bearer(Issued(alg, c, tokenKey, codec))), tokenKey, now))
    ensures var r := Refresh(Bearer(Issued(alg, c, tokenKey, codec)), tokenKey, now, initNow, codec);
      r.err == None && Signed(r.token) == codec.sign(alg, NewHeader(alg), ReissuedClaims(c, initNow), tokenKey)
  {
    IssuedSigned(alg, c, tokenKey, codec);
  }

  /**
   * A reissued token parses, at any time before the new expiry that is not
   * early for the original claims, to the original claims with only "exp"
   * changed.
   */
  lemma ReissuedTokenParses(alg: string, c: ClaimSet, tokenKey: Key, now: int, initNow: int, later: int, codec: Codec)
    requires Lawful(codec) && alg in HmacMethods && tokenKey != ""
    requires HasNumericExp(c) && !IsExpired(codec, c, now) && !MoreThanAnHourLeft(ExpOf(c), now) && !IsEarly(c, now)
    requires later < DefaultExpirationTime(initNow) && !IsEarly(c, later)
    ensures ExpReadable(codec.parse(StripBearer(Bearer(Issued(alg, c, tokenKey, codec))), tokenKey, now))
    ensures var r := Refresh(Bearer(Issued(alg, c, tokenKey, codec)), tokenKey, now, initNow, codec);
      && ParseToken(Bearer(r.token), tokenKey, later, codec) == ClaimsResult(Some(ReissuedClaims(c, initNow)), None)
      && forall name :: name in c && name != ExpClaim ==> ReissuedClaims(c, initNow)[name] == c[name]
  {
    RefreshReissues(alg, c, tokenKey, now, initNow, codec);
    var r := Refresh(Bearer(Issued(alg, c, tokenKey, codec)), tokenKey, now, initNow, codec);
    StripBearerIsBlind(BearerPrefix, r.token);
    assert !IsExpired(codec, ReissuedClaims(c, initNow), later);
    ReissueKeepsEarliness(c, initNow, later);
  }

  /**
   * The reissued token does not depend on when refresh is called: the new
   * "exp" is the package-init value, not the time of the call.
   */
  lemma RefreshIgnoresCallTime(alg: string, c: ClaimSet, tokenKey: Key, now1: int, now2: int, initNow: int, codec: Codec)
    requires Lawful(codec) && alg in HmacMethods && tokenKey != ""
    requires HasNumericExp(c)
    requires !IsExpired(codec, c, now1) && !MoreThanAnHourLeft(ExpOf(c), now1) && !IsEarly(c, now1)
    requires !IsExpired(codec, c, now2) && !MoreThanAnHourLeft(ExpOf(c), now2) && !IsEarly(c, now2)
    ensures ExpReadable(codec.parse(StripBearer(Bearer(Issued(alg, c, tokenKey, codec))), tokenKey, now1))
    ensures ExpReadable(codec.parse(StripBearer(Bearer(Issued(alg, c, tokenKey, codec))), tokenKey, now2))
    ensures Refresh(Bearer(Issued(alg, c, tokenKey, codec)), tokenKey, now1, initNow, codec)
         == Refresh(Bearer(Issued(alg, c, tokenKey, codec)), tokenKey, now2, initNow, codec)
  {
    RefreshReissues(alg, c, tokenKey, now1, initNow, codec);
    RefreshReissues(alg, c, tokenKey, now2, initNow, codec);
  }

  /**
   * Because the new "exp" is fixed when the package is initialised, a
   * reissue made more than 24 hours after initialisation hands out a token
   * that is already expired when it is issued.
   */
  lemma ReissueAfterDefaultExpiryIsExpired(alg: string, c: ClaimSet, tokenKey: Key, now: int, initNow: int, codec: Codec)
    requires Lawful(codec) && alg in HmacMethods && tokenKey != ""
    requires HasNumericExp(c) && !IsExpired(codec, c, now) && !MoreThanAnHourLeft(ExpOf(c), now) && !IsEarly(c, now)
    requires DefaultExpirationTime(initNow) != 0 && DefaultExpirationTime(initNow) < now
    ensures ExpReadable(codec.parse(StripBearer(Bearer(Issued(alg, c, tokenKey, codec))), tokenKey, now))
    ensures var r := Refresh(Bearer(Issued(alg, c, tokenKey, codec)), tokenKey, now, initNow, codec);
      && r.err == None
      && ParseToken(Bearer(r.token), tokenKey, now, codec) == ClaimsResult(None, Some(ExpiredMessage))
  {
    RefreshReissues(alg, c, tokenKey, now, initNow, codec);
    var r := Refresh(Bearer(Issued(alg, c, tokenKey, codec)), tokenKey, now, initNow, codec);
    StripBearerIsBlind(BearerPrefix, r.token);
    assert IsExpired(codec, ReissuedClaims(c, initNow), now);
    ReissueKeepsEarliness(c, initNow, now);
  }

  /**
   * Refreshing a `MiniClaims` token near expiry: the new token carries the
   * same struct with only its expiration time set to `DefaultExpirationTime`.
   */
  lemma RefreshKeepsMiniClaims(alg: string, mc: MiniClaims, tokenKey: Key, now: int, initNow: int, later: int, codec: Codec)
    requires Lawful(codec) && alg in HmacMethods && tokenKey != ""
    requires mc.expiresAt != 0 && DefaultExpirationTime(initNow) != 0
    requires !IsExpired(codec, ToClaimSet(mc), now) && !MoreThanAnHourLeft(mc.expiresAt, now)
    requires !IsEarly(ToClaimSet(mc), now) && !IsEarly(ToClaimSet(mc), later)
    requires later < DefaultExpirationTime(initNow)
    ensures ExpReadable(codec.parse(StripBearer(Bearer(Issued(alg, ToClaimSet(mc), tokenKey, codec))), tokenKey, now))
    ensures var r := Refresh(Bearer(Issued(alg, ToClaimSet(mc), tokenKey, codec)), tokenKey, now, initNow, codec);
      ParseToken(Bearer(r.token), tokenKey, later, codec)
        == ClaimsResult(Some(ToClaimSet(mc.(expiresAt := DefaultExpirationTime(initNow)))), None)
  {
    ReissuedTokenParses(alg, ToClaimSet(mc), tokenKey, now, initNow, later, codec);
    SetExpOfMiniClaims(mc, DefaultExpirationTime(initNow));
  }

  /**
   * Refresh is stable: refreshing the reissued token while more than an hour
   * of its new lifetime remains hands it back unchanged.
   */
  lemma RefreshReissuedPassesThrough(alg: string, c: ClaimSet, tokenKey: Key, now: int, initNow: int, later: int, codec: Codec)
    requires Lawful(codec) && alg in HmacMethods && tokenKey != ""
    requires HasNumericExp(c) && !IsExpired(codec, c, now) && !MoreThanAnHourLeft(ExpOf(c), now) && !IsEarly(c, now)
    requires MoreThanAnHourLeft(DefaultExpirationTime(initNow), later) && !IsEarly(c, later)
    ensures ExpReadable(codec.parse(StripBearer(Bearer(Issued(alg, c, tokenKey, codec))), tokenKey, now))
    ensures var r := Refresh(Bearer(Issued(alg, c, tokenKey, codec)), tokenKey, now, initNow, codec);
      && ExpReadable(codec.parse(StripBearer(Bearer(r.token)), tokenKey, later))
      && Refresh(Bearer(r.token), tokenKey, later, initNow, codec) == TokenResult(r.token, None)
  {
    RefreshReissues(alg, c, tokenKey, now, initNow, codec);
    var r := Refresh(Bearer(Issued(alg, c, tokenKey, codec)), tokenKey, now, initNow, codec);
    StripBearerIsBlind(BearerPrefix, r.token);
    assert !IsExpired(codec, ReissuedClaims(c, initNow), later);
    ReissueKeepsEarliness(c, initNow, later);
  }

  /**
   * `GenerateWithDefault` has no empty-key check: with an HMAC method and an
   * empty key in the environment it signs, where `Generate` refuses.
   */
  lemma GenerateWithDefaultSignsWithEmptyKey(c: ClaimSet, env: map<string, string>, codec: Codec)
    requires Lawful(codec)
    requires Getenv(env, SigningMethodEnvKey) in HmacMethods && Getenv(env, TokenEnvKey) == ""
    ensures GenerateWithDefault(Some(c), env, codec).err == None
    ensures Generate(Getenv(env, SigningMethodEnvKey), Some(c), Getenv(env, TokenEnvKey), codec).err == Some(InvalidKey)
  {
    assert codec.sign(Getenv(env, SigningMethodEnvKey), NewHeader(Getenv(env, SigningMethodEnvKey)), c, "").Signed?;
  }

  /**
   * After package initialisation, the default entry points work together: a
   * token made by `GenerateWithDefault` (with the signing method the
   * environment held, or HS512 when it held none) parses back with
   * `ParseTokenDefault` and is valid for `IsValidDefault` until it expires.
   */
  lemma DefaultsRoundTrip(vars: map<string, string>, draws: seq<nat>, c: ClaimSet, now: int, codec: Codec)
    requires Lawful(codec) && EnoughDraws(vars, draws)
    requires Getenv(vars, SigningMethodEnvKey) == "" || Getenv(vars, SigningMethodEnvKey) in HmacMethods
    requires !IsExpired(codec, c, now) && !IsEarly(c, now)
    ensures var env := LoadedDefaults(vars, draws);
      && Getenv(env, SigningMethodEnvKey) in HmacMethods
      && (Getenv(vars, SigningMethodEnvKey) == "" ==> Getenv(env, SigningMethodEnvKey) == SigningMethod)
      && GenerateWithDefault(Some(c), env, codec).err == None
      && ParseTokenDefault(Bearer(GenerateWithDefault(Some(c), env, codec).token), env, now, codec)
         == ClaimsResult(Some(c), None)
      && IsValidDefault(Bearer(GenerateWithDefault(Some(c), env, codec).token), env, now, codec)
  {
    var env := LoadedDefaults(vars, draws);
    LoadedDefaultsValues(vars, draws);
    LoadedDefaultsNonEmpty(vars, draws);
    var alg, key := Getenv(env, SigningMethodEnvKey), Getenv(env, TokenEnvKey);
    assert key != "";
    IssuedSigned(alg, c, key, codec);
    ParseTokenRoundTrip(alg, c, key, now, codec);
    IsValidIssued(alg, c, key, now, codec);
  }
}
