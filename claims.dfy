/**
 * The claims payload of a token. The JWT library decodes a token's payload
 * into a JSON object, so the model's claim set is a map from claim names to
 * JSON values; `MiniClaims` is the package's own claims struct and
 * `ToClaimSet` is the JSON object it serialises to.
 */
module Claims {
  import opened Wrappers

  /** JSON values (numbers are kept as integers, see the README). */
  datatype Json =
    | Null
    | Bool(b: bool)
    | Num(n: int)
    | Str(s: string)
    | Arr(items: seq<Json>)
    | Obj(fields: map<string, Json>)

  /** A decoded token payload: a JSON object. */
  type ClaimSet = map<string, Json>

  /** Name of the registered expiration-time claim (section 4.1.4 of RFC 7519). */
  const ExpClaim: string := "exp"

  /** The payload carries an expiration time the refresh code can read as a number. */
  predicate HasNumericExp(c: ClaimSet) {
    ExpClaim in c && c[ExpClaim].Num?
  }

  /** The expiration time of a payload that has one. */
  function ExpOf(c: ClaimSet): int
    requires HasNumericExp(c)
  {
    c[ExpClaim].n
  }

  /**
   * The package's claims struct: application data under "Data" plus the
   * library's standard claims embedded beside it.
   */
  datatype MiniClaims = MiniClaims(
    data: Option<map<string, Json>>,  // None is a nil map
    audience: string,
    expiresAt: int,
    id: string,
    issuedAt: int,
    issuer: string,
    notBefore: int,
    subject: string)

  /** Adds a string claim unless it is empty (`omitempty`). */
  function WithStr(c: ClaimSet, name: string, v: string): ClaimSet
  {
    if v == "" then c else c[name := Str(v)]
  }

  /** Adds a numeric claim unless it is zero (`omitempty`). */
  function WithNum(c: ClaimSet, name: string, v: int): ClaimSet
  {
    if v == 0 then c else c[name := Num(v)]
  }

  /**
   * The JSON object a `MiniClaims` value serialises to: "Data" is always
   * present (null for a nil map), and each standard claim appears under its
   * registered name only when it is not the zero value.
   */
  function ToClaimSet(mc: MiniClaims): (c: ClaimSet)
    ensures "Data" in c
    ensures ExpClaim in c <==> mc.expiresAt != 0
    ensures ExpClaim in c ==> c[ExpClaim] == Num(mc.expiresAt)
  {
    var data := match mc.data case None => Null case Some(d) => Obj(d);
    var c0 := map["Data" := data];
    var c1 := WithStr(c0, "aud", mc.audience);
    var c2 := WithNum(c1, ExpClaim, mc.expiresAt);
    var c3 := WithStr(c2, "jti", mc.id);
    var c4 := WithNum(c3, "iat", mc.issuedAt);
    var c5 := WithStr(c4, "iss", mc.issuer);
    var c6 := WithNum(c5, "nbf", mc.notBefore);
    WithStr(c6, "sub", mc.subject)
  }

  /**
   * Overwriting "exp" in the serialised struct gives the serialisation of the
   * struct with only its expiration time changed: data, audience, id,
   * issued-at, issuer, not-before and subject are carried over.
   */
  lemma {:induction false} SetExpOfMiniClaims(mc: MiniClaims, exp: int)
    requires exp != 0
    ensures ToClaimSet(mc)[ExpClaim := Num(exp)] == ToClaimSet(mc.(expiresAt := exp))
  {
    var lhs := ToClaimSet(mc)[ExpClaim := Num(exp)];
    var rhs := ToClaimSet(mc.(expiresAt := exp));
    assert lhs.Keys == rhs.Keys;
    forall k | k in lhs ensures lhs[k] == rhs[k] {
    }
  }
}
