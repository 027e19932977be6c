# mini-auth token lifecycle, modelled in Dafny

mini-auth is a thin layer of Go over a JWT library (jwt-go). It issues,
parses, validates and refreshes HMAC-signed bearer tokens. It also fills in
default settings in the process environment when the package starts. This
project models that layer:

- the argument guards of `Generate` and `GenerateWithDefault`;
- the blind bearer-prefix stripping (`headerValue[7:]`) done by every parse,
  refresh and validity entry point;
- how `ParseToken`, `ParseTokenWithClaims` and their `*Default` variants pass
  a library error through, or report "invalid token" for a parse that is not
  valid;
- the refresh decision. With more than one hour strictly left, the stripped
  token is handed back. Otherwise only `exp` is overwritten with the
  package-init constant `DefaultExpirationTime`, and the parsed token is
  signed again with its own method and its own header;
- `IsValid` and `IsValidDefault`, which turn every failure into `false`;
- `RandStr` and `LoadEnvironmentVariables`.

The two copies of the package, `jwtauth/mini_jwt.go` and
`auth/jwtauth/mini_jwt.go`, are one module (`MiniJwt`). Their only
differences are the import and `time.Unix(exp, 0).Sub(time.Now())` versus
`time.Until(time.Unix(exp, 0))` at lines 151 and 187, which give the same
duration. Their line numbers match, so each `jwtauth/mini_jwt.go:N` row
below also stands for `auth/jwtauth/mini_jwt.go:N`.

Modules:

- `Wrappers`: `Option`.
- `AuthEnv`: the constants of `auth/authenv/constants.go`, and
  `DefaultExpirationTime(initNow)`, which is Unix time `initNow` at package
  init plus 86400 s.
- `Claims`: JSON values and claim maps. Also the `MiniClaims` struct and the
  JSON object it serialises to: "Data" always present, standard claims
  `omitempty`.
- `JwtCodec`: the JWT library, kept abstract. Tokens and header values are
  byte strings, as Go's `string` is. A `Token` carries its method, its JOSE
  header, its claims, its signature and its validity flag. `NewWithClaims`
  gives a new token the standard header `{"typ": "JWT", "alg": m}`, and
  `SignedString` signs the method, header and claims a token carries. A
  `Codec` is a record of function values: `sign`, `parse` (for `jwt.Parse`),
  `parseWithClaims` (for `jwt.ParseWithClaims`) and `expired(exp, now)`. The
  ghost predicate `Lawful(codec)` states what the package relies on:
  1. HMAC signing (section 3.2 of RFC 7518) always succeeds.
  2. A token signed under a key, with a header naming its method, parses
     back under that key with the same method, header and claims, unless it
     has expired or is used too early. It is used too early when a non-zero
     numeric "iat" (section 4.1.6 of RFC 7519) or "nbf" (section 4.1.5) lies
     after the current time. Such a token fails to parse. An expired token
     that is not early fails with "Token is expired". An early one fails
     with the library's "Token used before issued" or "Token is not valid
     yet", which overwrite the expiry message in jwt-go, so the laws leave
     its text open.
  3. `jwt.ParseWithClaims` decodes into the caller's claims value, so it
     behaves as in 2. for the payload merged over what that value already
     held: an old "exp", or a future "iat" or "nbf", kept in a reused
     target makes a fresh token fail. Success or failure, the payload has
     by then been merged into the caller's value.
  4. A token is not expired up to and including its `exp`. An `exp` of 0 is
     absent and never expires. Any other `exp` in the past is expired
     (section 4.1.4 of RFC 7519).

  `Lawful` is a hypothesis about the library, not something proved here:
  every lemma that needs the library assumes it as a precondition.
- `AuthUtil`: `os.Getenv` over a map, `RandStr`, the `Environment` object and
  `LoadEnvironmentVariables`.
- `MiniJwt`: the lifecycle entry points.
- `Lifecycle`: properties of whole sequences of calls under a lawful codec.

Inputs from outside the program are parameters:

- `now` is the wall clock at the call, in Unix seconds.
- `initNow` is the wall clock when the package was initialised.
- The environment is a `map<string, string>`.
- The random source is the sequence of non-negative `rand.Int63` draws.

Go's `(value, error)` results are datatypes with an `err: Option<string>`
holding the error's text.

Where the code departs from the intended design, the model follows the code:

- The prefix is not checked. Any seven bytes are dropped, even when they
  split a multi-byte UTF-8 character.
- An unknown method name is not rejected. It makes `Generate` panic, and
  so does an unknown or empty method in the environment for
  `GenerateWithDefault`, so these are preconditions.
- `GenerateWithDefault`, `ParseTokenDefault` and `RefreshToken` accept an
  empty key.
- Errors are the library's own texts. There are no separate error kinds.
- The reissued expiry is the fixed package-init instant, not a fresh one.
  `ReissueAfterDefaultExpiryIsExpired` shows what follows from that: more
  than 24 hours after the package started, refresh hands out a token that is
  already expired.

## Model

| member | source | states |
|---|---|---|
| `Claims.ToClaimSet` | jwtauth/mini_jwt.go:15-18 | The `MiniClaims` JSON object always has "Data". It has "exp" exactly when the expiration time is non-zero, and then "exp" holds that time. |
| `Claims.SetExpOfMiniClaims` | jwtauth/mini_jwt.go:156 | Overwriting "exp" in a serialised `MiniClaims` gives the serialisation of the same struct with only its expiration time changed. |
| `AuthUtil.AlphabetChar` | auth_util.go:13 | A draw always selects a character of `Alphabets`. A non-negative draw modulo 78 stays in range. |
| `AuthUtil.RandomString` | auth_util.go:10-16 | The string built from draws has exactly `n` characters. Character `i` is `Alphabets[r_i % 78]`, so every character belongs to `Alphabets`. |
| `AuthUtil.RandStr` | auth_util.go:10-16 | The loop fills a fresh buffer of `n` characters, where character `i` is `Alphabets[r_i % len(Alphabets)]`. The result equals `RandomString(n, draws)`. |
| `AuthUtil.ExpirationTimeTextIsOneCodePoint` | auth_util.go:43 | The default written for `ExpirationTime` is `string(86400)`. That is the single code point U+15180, not the text "86400". |
| `AuthUtil.Environment.Setenv` | auth_util.go:22 | `os.Setenv` changes one variable and leaves the others alone. |
| `AuthUtil.LoadEnvironmentVariables` | auth_util.go:19-48 | The four conditional `Setenv` steps together leave the environment equal to `LoadedDefaults` of the old one. |
| `AuthUtil.LoadedDefaultsValues` | auth_util.go:20-47 | Each of the four variables takes its default only if it was empty or unset, and otherwise keeps its value. The defaults are: `TokenEnvKey` gets `RandStr(512)`, `SigningMethodEnvKey` gets "HS512", `AuthorizationHeaderKey` gets "Authorization", `TokenExpirationKey` gets `string(86400)`. |
| `AuthUtil.LoadedDefaultsNonEmpty` | auth_util.go:19-48 | After loading, all four variables are non-empty. |
| `AuthUtil.LoadedDefaultsFrame` | auth_util.go:19-48 | Loading adds exactly the four keys to the environment's key set. Every other variable keeps its value. |
| `AuthUtil.LoadedDefaultsIdempotent` | auth_util.go:19-48 | A second load needs no draws and changes nothing. |
| `MiniJwt.FromSigned` | jwtauth/mini_jwt.go:45-48 | `SignedString`'s outcome as the package returns it: the token with a nil error, or "" and the library's error. |
| `MiniJwt.GenerateToken` | jwtauth/mini_jwt.go:42-49 | A new token with the standard header `{"typ": "JWT", "alg": m}` is signed. On success it returns the signed token. On a signing error it returns "" and the library's error. |
| `MiniJwt.Generate` | jwtauth/mini_jwt.go:29-40 | The checks run in this order: nil claims give "invalid claims" for any method and key; then an empty method gives "invalid signing method"; then an empty key gives "invalid key". Every error returns "". It succeeds exactly when all three checks pass and signing succeeds, and then it returns the signed token. |
| `MiniJwt.GenerateWithDefault` | jwtauth/mini_jwt.go:54-66 | Only nil claims are rejected. Otherwise it signs with the environment's method and key, with no empty-key check. |
| `MiniJwt.StripBearer` | jwtauth/mini_jwt.go:70 | Drops exactly the first seven bytes. The input is those seven bytes followed by the result. |
| `MiniJwt.StripBearerIsBlind` | jwtauth/mini_jwt.go:136 | Any seven-byte prefix is dropped, not only "Bearer ", and whatever bytes follow come back unchanged. |
| `MiniJwt.ParseToken` | jwtauth/mini_jwt.go:69-82 | A library error gives `(nil, err)`. A parse that is not valid gives `(nil, "invalid token")`. Otherwise it returns the parsed claims with no error. Claims are non-nil exactly when the error is nil. |
| `MiniJwt.ParseTokenDefault` | jwtauth/mini_jwt.go:101-115 | Same as `ParseToken` with the environment's key, even an empty one. |
| `MiniJwt.ParseWithClaimsInto` | jwtauth/mini_jwt.go:85-98 | The library parses into the caller's claims, which it is given. Afterwards they hold what the library decoded into them, on success and on error alike. The error is nil exactly when that parse succeeds and is valid. A library error is returned as is. A parse that is not valid gives "invalid token". |
| `MiniJwt.ParseTokenWithClaims` | jwtauth/mini_jwt.go:85-98 | Updates the caller's claims object and returns the error, both as `ParseWithClaimsInto` says. |
| `MiniJwt.ParseTokenWithClaimsDefault` | jwtauth/mini_jwt.go:118-132 | Same as `ParseTokenWithClaims` with the environment's key. |
| `MiniJwt.IsValid` | jwtauth/mini_jwt.go:202-212 | Never fails. It is true exactly when `ParseToken` would return no error: false on any library error, otherwise the parse's validity flag. |
| `MiniJwt.IsValidDefault` | jwtauth/mini_jwt.go:215-231 | False when the environment key is empty, before any parsing. Otherwise the same as `IsValid` with that key. |
| `MiniJwt.Reissued` | jwtauth/mini_jwt.go:155-157 | Keeps the method and the header. Sets "exp" to `DefaultExpirationTime`. Every other claim is unchanged, and no other claim is added. |
| `MiniJwt.Refresh` | jwtauth/mini_jwt.go:135-163 | Every error returns "". A library error is passed through. An invalid parse gives "invalid token". With strictly more than 3600 s left, it returns the stripped input unchanged. Otherwise it signs the claims, with only "exp" reset, under the parsed token's own method and its own header (any "kid" or other field included). |
| `MiniJwt.RefreshToken` | jwtauth/mini_jwt.go:135-163 | The step-by-step version: the claim map is updated in place, put back on the parsed token, and that token (header included) is signed. It returns exactly what `Refresh` specifies. |
| `MiniJwt.RefreshDefault` | jwtauth/mini_jwt.go:166-199 | An empty environment key gives "invalid key" before any parsing. Otherwise it behaves as `Refresh` with that key. |
| `MiniJwt.RefreshWithDefault` | jwtauth/mini_jwt.go:166-199 | The method returns exactly what `RefreshDefault` specifies. |
| `Lifecycle.IssuedSigned` | jwtauth/mini_jwt.go:29-49 | For an HMAC method and a non-empty key, `Generate` succeeds with the library's signature. Stripping "Bearer " from the header gives that token back. |
| `Lifecycle.ParseTokenRoundTrip` | jwtauth/mini_jwt.go:69-82 | Under a lawful codec, `ParseToken("Bearer " + Generate(m, c, k))` with key `k` returns `c`, provided the token has not expired and is not used before its "iat" or "nbf". |
| `Lifecycle.ParseWithClaimsRoundTrip` | auth/jwtauth/mini_jwt.go:85-98 | Under a lawful codec, `ParseTokenWithClaims` of a generated token into a caller's value `current` succeeds when `current + c` is neither expired nor early, and leaves `current + c` there. |
| `Lifecycle.ParseWithClaimsFreshTarget` | auth/jwtauth/mini_jwt.go:85-98 | Into an empty claims value, a generated token that is neither expired nor early fills exactly `c`. |
| `Lifecycle.ParseWithClaimsStaleTarget` | jwtauth/mini_jwt.go:87-92 | When `current + c` is expired or early, the parse of even a freshly issued token reports an error, and the caller's value already holds `current + c`. |
| `Lifecycle.StaleExpiredTargetFails` | jwtauth/mini_jwt.go:87-92 | A target still holding "exp" 1 makes a generated token carrying only "Data" fail at time 1000, and the target then holds both "exp" and "Data". |
| `Lifecycle.ExpiryBoundaries` | jwtauth/mini_jwt.go:202-212 | A generated token that is not early is still valid at the very second of its "exp", and one whose "exp" is 0 is valid at any time. |
| `Lifecycle.IsValidIssued` | jwtauth/mini_jwt.go:202-212 | A generated token is valid under its key exactly while it has not expired and is not early. |
| `Lifecycle.ParseExpired` | jwtauth/mini_jwt.go:74-77 | An expired generated token that is not early gives no claims and the error "Token is expired". |
| `Lifecycle.UseTooEarlyFails` | jwtauth/mini_jwt.go:137-145 | A generated token used before its "iat" or "nbf" gives no claims and an error from `ParseToken`, is not valid, and refreshes to "" with an error. |
| `Lifecycle.RefreshExpired` | jwtauth/mini_jwt.go:137-145 | Refreshing an expired token that is not early returns "" and propagates "Token is expired". |
| `Lifecycle.RefreshPassthrough` | jwtauth/mini_jwt.go:149-153 | With `exp - now > 3600`, on a token that is not early, it returns the very token `Generate` issued. |
| `Lifecycle.ReissueKeepsEarliness` | jwtauth/mini_jwt.go:156 | Resetting "exp" leaves "iat" and "nbf" alone, so the reissued claims are early at a time exactly when the original ones are. |
| `Lifecycle.RefreshReissues` | jwtauth/mini_jwt.go:155-162 | With `exp - now <= 3600` (exactly one hour included) on an unexpired token that is not early, the result is the signature of the claims with only "exp" set to `DefaultExpirationTime`. It uses the original method, the header `Generate` gave the token, and the same key. |
| `Lifecycle.ReissuedTokenParses` | jwtauth/mini_jwt.go:155-158 | The reissued token parses, at a time before its new expiry that is not early for the original claims, to those claims with only "exp" changed. Every other claim is carried over. |
| `Lifecycle.RefreshIgnoresCallTime` | auth/jwtauth/mini_jwt.go:151-158 | Two reissuing refreshes at different times, neither early, give the same token. The new "exp" is the package-init value. |
| `Lifecycle.ReissueAfterDefaultExpiryIsExpired` | auth/authenv/constants.go:6 | A reissue of a token that is not early, made after `DefaultExpirationTime` has passed, returns a token that is already expired when it is issued. |
| `Lifecycle.RefreshKeepsMiniClaims` | jwtauth/mini_jwt.go:149-158 | Refreshing a `MiniClaims` token near expiry, parsed back at a time that is not early, yields the same struct with only `ExpiresAt` changed. Data, iat, iss and sub are carried over. |
| `Lifecycle.RefreshReissuedPassesThrough` | jwtauth/mini_jwt.go:149-158 | Refreshing the reissued token again, while more than an hour of its new lifetime remains and it is not early, hands it back unchanged. |
| `Lifecycle.GenerateWithDefaultSignsWithEmptyKey` | jwtauth/mini_jwt.go:54-66 | With an HMAC method and an empty key in the environment, `GenerateWithDefault` signs, while `Generate` with the same arguments fails with "invalid key". |
| `Lifecycle.DefaultsRoundTrip` | jwtauth/mini_jwt.go:24-26 | After package init, the environment holds HS512 unless it already held an HMAC method. A `GenerateWithDefault` token then parses back with `ParseTokenDefault` and is accepted by `IsValidDefault` until it expires, when it is not early. |

## Left out

- The three `jwt_filter.go` HTTP middlewares. They are header lookup, a 403 response and forwarding around `IsValidDefault`.
- jwt-go's internals: base64url, JSON encoding and HMAC-SHA512. `Lawful` is an assumption about the library. Nothing here proves it of a concrete implementation.
- The texts of the library's `iat` and `nbf` errors. The laws say only that an early token fails to parse, not with which message.
- Real `os.Getenv` and `os.Setenv`, `log.Printf`, `log.Println`, and the `log.Panicf` taken when `Setenv` fails. The environment is a map, and logging has no effect on results.
- The wall clock and `math/rand`, which are the parameters `now`, `initNow` and `draws`. The sub-second part of `time.Now()` is ignored. So is the saturation of `time.Duration` for remaining lifetimes beyond about 292 years.
- Go panics, stated as preconditions instead:
  - slicing a header shorter than seven bytes;
  - a non-empty method name that `jwt.GetSigningMethod` does not know, passed to `Generate`;
  - an environment method for `GenerateWithDefault` that `jwt.GetSigningMethod` does not know, the empty name included (lines 58-59);
  - a valid parse whose "exp" is missing or not a number, at line 150/186.
- JSON numbers. Claims hold integers, while the library decodes numbers as `float64` and line 150 truncates them with `int64(...)`. Precision loss beyond 2^53 is not modelled.
- Keys are strings (`string(tokenKey)`). Byte keys that are not valid UTF-8 are not represented. Tokens and header values, by contrast, are byte strings.
- `RandStr` builds characters rather than bytes. This is the same here because every character of `Alphabets` is ASCII.
- MiniJwt.ParseWithClaimsInto: the caller's claims are a non-nil claim map, and decoding merges the token's top-level claims into it before the merged value is validated. A nil `jwt.MapClaims` target, which jwt-go decodes into a local copy and leaves nil, is not represented: `map[]` stands for an empty, non-nil map. What the target holds after a token that is not lawfully signed, such as one checked under the wrong key, is left to the library. Nested merging of "Data" and JSON type mismatches are not modelled.
- MiniJwt.RefreshToken: Go's `mapClaims` aliases `parseToken.Claims`, so the reassignment at line 157 need not copy anything. The model updates values, and the final state comes out the same.
- The error texts of `jwt.ParseWithClaims` differ from those of `jwt.Parse` (e.g. "token is expired by …"). The laws only say that it fails when the merged claims are expired or early.
- The root package `miniauth`'s own constants file is not part of this model. The same values as `auth/authenv/constants.go` are assumed.
- `authenv.LoadEnvironmentVariables`, which the `auth/jwtauth` copy's `init` calls (line 25), is not part of this model. Both copies are modelled with the `auth_util.go` version, and `DefaultExpirationTime` at its lines 156 and 192 with the one in `AuthEnv`.
- The commented-out `main` in `jwtauth/mini_jwt.go`.
- The tests in `auth/jwt/mini_jwt_test.go` target a package copy that is not part of this model. They serve only as evidence for the lifecycle lemmas.
