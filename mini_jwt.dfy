/**
 * The token lifecycle layer over the JWT library: argument guards on
 * generation, stripping of the bearer prefix, parsing and validity checks,
 * and the refresh decision. Both copies of the package (the root `jwtauth`
 * package and `auth/jwtauth`) are this module: they differ only in where the
 * constants come from and in writing the remaining lifetime as
 * `time.Unix(exp, 0).Sub(time.Now())` or `time.Until(time.Unix(exp, 0))`,
 * which are the same duration.
 *
 * Every entry point takes the library as `codec`, the wall clock as `now`
 * (Unix seconds) and, for the `*Default` variants, the process environment
 * as a map. `initNow` is the clock reading at package initialisation, which
 * fixes `DefaultExpirationTime`.
 */
module MiniJwt {
  import opened Wrappers
  import opened Claims
  import opened JwtCodec
  import opened AuthEnv
  import opened AuthUtil

  const InvalidClaims: string := "invalid claims"
  const InvalidSigningMethod: string := "invalid signing method"
  const InvalidKey: string := "invalid key"
  const InvalidToken: string := "invalid token"

  /** The bearer scheme's prefix, as bytes; only its length is used by the code. */
  const BearerPrefix: Bytes := Ascii("Bearer ")
  const PrefixLength: nat := 7

  /** The refresh threshold, one hour in seconds. */
  const OneHour: int := 60 * 60

  /** Go's `(string, error)` result for a token: an error is `Some(message)`. */
  datatype TokenResult = TokenResult(token: Bytes, err: Option<string>)

  /** Go's `(jwt.Claims, error)` result: nil claims are `None`. */
  datatype ClaimsResult = ClaimsResult(claims: Option<ClaimSet>, err: Option<string>)

  /** The caller's claims value after a parse into it, and the returned error. */
  datatype ClaimsFill = ClaimsFill(filled: ClaimSet, err: Option<string>)

  // ---------------------------------------------------------------------
  // Generation

  /** A signing outcome as Go returns it: the token, or "" and the error. */
  function FromSigned(signed: SignResult): (r: TokenResult)
    ensures r.err.None? <==> signed.Signed?
    ensures r.err.None? ==> Signed(r.token) == signed
    ensures r.err.Some? ==> r == TokenResult([], Some(signed.msg))
  {
    match signed
    case Signed(s) => TokenResult(s, None)
    case SignError(e) => TokenResult([], Some(e))
  }

  /**
   * `generateToken`: a new token with the standard header for `alg`, signed;
   * a signing error is passed through with an empty token.
   */
  function GenerateToken(alg: string, claims: ClaimSet, tokenKey: Key, codec: Codec): (r: TokenResult)
    ensures r.err.None? <==> codec.sign(alg, NewHeader(alg), claims, tokenKey).Signed?
    ensures r.err.None? ==> Signed(r.token) == codec.sign(alg, NewHeader(alg), claims, tokenKey)
    ensures r.err.Some? ==> r == TokenResult([], Some(codec.sign(alg, NewHeader(alg), claims, tokenKey).msg))
  {
    FromSigned(SignedString(codec, NewWithClaims(alg, claims), tokenKey))
  }

  /**
   * `Generate`: nil claims, then an empty method name, then an empty key are
   * rejected, in that order; otherwise the token is signed. A method name the
   * library does not know would make it panic, so that is excluded.
   */
  function Generate(signingMethod: string, claims: Option<ClaimSet>, tokenKey: Key, codec: Codec): (r: TokenResult)
    requires claims.Some? && signingMethod != "" && tokenKey != "" ==> signingMethod in RegisteredMethods
    ensures r.err.Some? ==> r.token == []
    ensures claims.None? ==> r.err == Some(InvalidClaims)
    ensures claims.Some? && signingMethod == "" ==> r.err == Some(InvalidSigningMethod)
    ensures claims.Some? && signingMethod != "" && tokenKey == "" ==> r.err == Some(InvalidKey)
    ensures r.err.None? <==>
      && claims.Some? && signingMethod != "" && tokenKey != ""
      && codec.sign(signingMethod, NewHeader(signingMethod), claims.value, tokenKey).Signed?
    ensures r.err.None? ==> Signed(r.token) == codec.sign(signingMethod, NewHeader(signingMethod), claims.value, tokenKey)
  {
    if claims.None? then TokenResult([], Some(InvalidClaims))
    else if signingMethod == "" then TokenResult([], Some(InvalidSigningMethod))
    else if tokenKey == "" then TokenResult([], Some(InvalidKey))
    else GenerateToken(signingMethod, claims.value, tokenKey, codec)
  }

  /**
   * `GenerateWithDefault`: only nil claims are rejected; the method and key
   * are whatever the environment holds, an empty key included.
   */
  function GenerateWithDefault(claims: Option<ClaimSet>, env: map<string, string>, codec: Codec): (r: TokenResult)
    requires claims.Some? ==> Getenv(env, SigningMethodEnvKey) in RegisteredMethods
    ensures r.err.Some? ==> r.token == []
    ensures claims.None? ==> r.err == Some(InvalidClaims)
    ensures claims.Some? ==>
      r == GenerateToken(Getenv(env, SigningMethodEnvKey), claims.value, Getenv(env, TokenEnvKey), codec)
  {
    if claims.None? then TokenResult([], Some(InvalidClaims))
    else GenerateToken(Getenv(env, SigningMethodEnvKey), claims.value, Getenv(env, TokenEnvKey), codec)
  }

  // ---------------------------------------------------------------------
  // The bearer prefix

  /** `headerValue[7:]`: the first seven bytes are dropped, whatever they are. */
  function StripBearer(headerValue: Bytes): (pure: Bytes)
    requires PrefixLength <= |headerValue|
    ensures |pure| == |headerValue| - PrefixLength
    ensures headerValue == headerValue[..PrefixLength] + pure
  {
    headerValue[PrefixLength..]
  }

  /** No check that the dropped bytes read "Bearer ": any seven bytes go. */
  lemma StripBearerIsBlind(prefix: Bytes, token: Bytes)
    requires |prefix| == PrefixLength
    ensures StripBearer(prefix + token) == token
  {
    assert (prefix + token)[PrefixLength..] == token;
  }

  // ---------------------------------------------------------------------
  // Parsing and validity

  /**
   * `ParseToken`: a library error is returned as is; a parse that is not
   * valid gives "invalid token"; otherwise the parsed claim map.
   */
  function ParseToken(headerValue: Bytes, tokenKey: Key, now: int, codec: Codec): (r: ClaimsResult)
    requires PrefixLength <= |headerValue|
    ensures r.claims.Some? <==> r.err.None?
    ensures var out := codec.parse(StripBearer(headerValue), tokenKey, now);
      && (out.ParseError? ==> r.err == Some(out.msg))
      && (out.Parsed? && !out.token.valid ==> r.err == Some(InvalidToken))
      && (r.err.None? <==> out.Parsed? && out.token.valid)
      && (r.err.None? ==> r.claims == Some(out.token.claims))
  {
    match codec.parse(StripBearer(headerValue), tokenKey, now)
    case ParseError(e) => ClaimsResult(None, Some(e))
    case Parsed(t) =>
      if !t.valid then ClaimsResult(None, Some(InvalidToken))
      else ClaimsResult(Some(t.claims), None)
  }

  /** `ParseTokenDefault`: `ParseToken` with the environment's key, even an empty one. */
  function ParseTokenDefault(headerValue: Bytes, env: map<string, string>, now: int, codec: Codec): (r: ClaimsResult)
    requires PrefixLength <= |headerValue|
    ensures r == ParseToken(headerValue, Getenv(env, TokenEnvKey), now, codec)
  {
    ParseToken(headerValue, Getenv(env, TokenEnvKey), now, codec)
  }

  /**
   * What `ParseTokenWithClaims` does to the caller's claims `current`: the
   * library decodes into it, so afterwards it holds whatever the library
   * decoded, on success and on error alike; a library error is returned as
   * is, and a parse that is not valid gives "invalid token".
   */
  function ParseWithClaimsInto(headerValue: Bytes, current: ClaimSet, tokenKey: Key, now: int, codec: Codec): (r: ClaimsFill)
    requires PrefixLength <= |headerValue|
    ensures var p := codec.parseWithClaims(StripBearer(headerValue), current, tokenKey, now);
      && r.filled == p.decoded
      && (r.err.None? <==> p.outcome.Parsed? && p.outcome.token.valid)
      && (p.outcome.ParseError? ==> r.err == Some(p.outcome.msg))
      && (p.outcome.Parsed? && !p.outcome.token.valid ==> r.err == Some(InvalidToken))
  {
    var p := codec.parseWithClaims(StripBearer(headerValue), current, tokenKey, now);
    match p.outcome
    case ParseError(e) => ClaimsFill(p.decoded, Some(e))
    case Parsed(t) => ClaimsFill(p.decoded, if t.valid then None else Some(InvalidToken))
  }

  /** A caller-supplied claims value (`jwt.Claims` passed by pointer). */
  class ClaimsTarget {
    var claims: ClaimSet

    constructor (initial: ClaimSet)
      ensures claims == initial
    {
      claims := initial;
    }
  }

  /** `ParseTokenWithClaims`: parses into `target` and returns only the error. */
  method ParseTokenWithClaims(headerValue: Bytes, target: ClaimsTarget, tokenKey: Key, now: int, codec: Codec)
    returns (err: Option<string>)
    requires PrefixLength <= |headerValue|
    modifies target
    ensures ClaimsFill(target.claims, err) == ParseWithClaimsInto(headerValue, old(target.claims), tokenKey, now, codec)
  {
    var headerToken := StripBearer(headerValue);
    var parsed := codec.parseWithClaims(headerToken, target.claims, tokenKey, now);
    target.claims := parsed.decoded;
    if parsed.outcome.ParseError? {
      return Some(parsed.outcome.msg);
    }
    if !parsed.outcome.token.valid {
      return Some(InvalidToken);
    }
    return None;
  }

  /** `ParseTokenWithClaimsDefault`: `ParseTokenWithClaims` with the environment's key. */
  method ParseTokenWithClaimsDefault(headerValue: Bytes, target: ClaimsTarget, env: map<string, string>, now: int, codec: Codec)
    returns (err: Option<string>)
    requires PrefixLength <= |headerValue|
    modifies target
    ensures ClaimsFill(target.claims, err) ==
      ParseWithClaimsInto(headerValue, old(target.claims), Getenv(env, TokenEnvKey), now, codec)
  {
    err := ParseTokenWithClaims(headerValue, target, Getenv(env, TokenEnvKey), now, codec);
  }

  /** `IsValid`: any library error is `false`; otherwise the parse's validity flag. */
  function IsValid(token: Bytes, tokenKey: Key, now: int, codec: Codec): (b: bool)
    requires PrefixLength <= |token|
    ensures b <==> ParseToken(token, tokenKey, now, codec).err.None?
  {
    match codec.parse(StripBearer(token), tokenKey, now)
    case ParseError(_) => false
    case Parsed(t) => t.valid
  }

  /** `IsValidDefault`: `false` for an empty environment key, before any parsing. */
  function IsValidDefault(token: Bytes, env: map<string, string>, now: int, codec: Codec): (b: bool)
    requires PrefixLength <= |token|
    ensures Getenv(env, TokenEnvKey) == "" ==> !b
    ensures Getenv(env, TokenEnvKey) != "" ==> b == IsValid(token, Getenv(env, TokenEnvKey), now, codec)
  {
    var tokenKey := Getenv(env, TokenEnvKey);
    if tokenKey == "" then false
    else IsValid(token, tokenKey, now, codec)
  }

  // ---------------------------------------------------------------------
  // Refresh

  /**
   * The refresh code reads "exp" as a number from a valid parse; a missing or
   * non-numeric "exp" would make it panic, so that is excluded.
   */
  predicate ExpReadable(out: ParseOutcome) {
    out.Parsed? && out.token.valid ==> HasNumericExp(out.token.claims)
  }

  /** More than one hour (strictly) remains before `exp`. */
  predicate MoreThanAnHourLeft(exp: int, now: int) {
    exp - now > OneHour
  }

  /** The parsed token with its "exp" overwritten by `DefaultExpirationTime`. */
  function Reissued(t: Token, initNow: int): (t': Token)
    ensures t'.alg == t.alg && t'.header == t.header
    ensures t'.claims.Keys == t.claims.Keys + {ExpClaim}
    ensures t'.claims[ExpClaim] == Num(DefaultExpirationTime(initNow))
    ensures forall name :: name in t.claims && name != ExpClaim ==> t'.claims[name] == t.claims[name]
  {
    t.(claims := t.claims[ExpClaim := Num(DefaultExpirationTime(initNow))])
  }

  /**
   * What `RefreshToken` returns: a library error or an invalid parse gives
   * an empty token and the error; with more than an hour left the stripped
   * input is returned unchanged; otherwise the parsed token, with only "exp"
   * reset in its claims, is signed again: its own method and its own header.
   */
  function Refresh(token: Bytes, tokenKey: Key, now: int, initNow: int, codec: Codec): (r: TokenResult)
    requires PrefixLength <= |token|
    requires ExpReadable(codec.parse(StripBearer(token), tokenKey, now))
    ensures r.err.Some? ==> r.token == []
    ensures var out := codec.parse(StripBearer(token), tokenKey, now);
      && (out.ParseError? ==> r.err == Some(out.msg))
      && (out.Parsed? && !out.token.valid ==> r.err == Some(InvalidToken))
      && (out.Parsed? && out.token.valid && MoreThanAnHourLeft(ExpOf(out.token.claims), now) ==>
            r == TokenResult(StripBearer(token), None))
      && (out.Parsed? && out.token.valid && !MoreThanAnHourLeft(ExpOf(out.token.claims), now) ==>
            r == FromSigned(codec.sign(out.token.alg, out.token.header,
                                       out.token.claims[ExpClaim := Num(DefaultExpirationTime(initNow))], tokenKey)))
  {
    var pureToken := StripBearer(token);
    match codec.parse(pureToken, tokenKey, now)
    case ParseError(e) => TokenResult([], Some(e))
    case Parsed(t) =>
      if !t.valid then TokenResult([], Some(InvalidToken))
      else if MoreThanAnHourLeft(ExpOf(t.claims), now) then TokenResult(pureToken, None)
      else FromSigned(SignedString(codec, Reissued(t, initNow), tokenKey))
  }

  /** `RefreshToken`, step by step: the claim map is updated in place and signed again. */
  method RefreshToken(token: Bytes, tokenKey: Key, now: int, initNow: int, codec: Codec)
    returns (newToken: Bytes, err: Option<string>)
    requires PrefixLength <= |token|
    requires ExpReadable(codec.parse(StripBearer(token), tokenKey, now))
    ensures TokenResult(newToken, err) == Refresh(token, tokenKey, now, initNow, codec)
  {
    var pureToken := StripBearer(token);
    var parsed := codec.parse(pureToken, tokenKey, now);
    if parsed.ParseError? {
      return [], Some(parsed.msg);
    }
    var parseToken := parsed.token;
    if !parseToken.valid {
      return [], Some(InvalidToken);
    }
    var mapClaims := parseToken.claims;
    var expirationTime := mapClaims[ExpClaim].n;
    if expirationTime - now > OneHour {
      return pureToken, None;
    }
    mapClaims := mapClaims[ExpClaim := Num(DefaultExpirationTime(initNow))];
    parseToken := parseToken.(claims := mapClaims);
    var signed := SignedString(codec, parseToken, tokenKey);
    if signed.SignError? {
      return [], Some(signed.msg);
    }
    return signed.token, None;
  }

  /** The environment holds a key and the refresh code can read the parsed "exp". */
  predicate DefaultRefreshable(token: Bytes, env: map<string, string>, now: int, codec: Codec)
    requires PrefixLength <= |token|
  {
    Getenv(env, TokenEnvKey) != "" ==> ExpReadable(codec.parse(StripBearer(token), Getenv(env, TokenEnvKey), now))
  }

  /** What `RefreshWithDefault` returns: "invalid key" for an empty environment key, before any parsing. */
  function RefreshDefault(token: Bytes, env: map<string, string>, now: int, initNow: int, codec: Codec): (r: TokenResult)
    requires PrefixLength <= |token|
    requires DefaultRefreshable(token, env, now, codec)
    ensures Getenv(env, TokenEnvKey) == "" ==> r == TokenResult([], Some(InvalidKey))
    ensures Getenv(env, TokenEnvKey) != "" ==> r == Refresh(token, Getenv(env, TokenEnvKey), now, initNow, codec)
  {
    var tokenKey := Getenv(env, TokenEnvKey);
    if tokenKey == "" then TokenResult([], Some(InvalidKey))
    else Refresh(token, tokenKey, now, initNow, codec)
  }

  /** `RefreshWithDefault`: the environment's key is checked, then `RefreshToken` runs with it. */
  method RefreshWithDefault(token: Bytes, env: map<string, string>, now: int, initNow: int, codec: Codec)
    returns (newToken: Bytes, err: Option<string>)
    requires PrefixLength <= |token|
    requires DefaultRefreshable(token, env, now, codec)
    ensures TokenResult(newToken, err) == RefreshDefault(token, env, now, initNow, codec)
  {
    var tokenKeyStr := Getenv(env, TokenEnvKey);
    if tokenKeyStr == "" {
      return [], Some(InvalidKey);
    }
    newToken, err := RefreshToken(token, tokenKeyStr, now, initNow, codec);
  }
}
