/**
 * Package initialisation helpers: a random default key and the defaults
 * written into the process environment. The environment is an object whose
 * variable map is updated one `Setenv` at a time; the random source is the
 * sequence of draws it would return (`rand.Int63` never returns a negative
 * number).
 */
module AuthUtil {
  import opened AuthEnv

  /** `os.Getenv`: the value of `name`, or "" when it is not set. */
  function Getenv(vars: map<string, string>, name: string): string {
    if name in vars then vars[name] else ""
  }

  /** The character a draw `r` selects: `Alphabets[r % len(Alphabets)]`. */
  function AlphabetChar(r: nat): (ch: char)
    ensures ch in Alphabets
  {
    Alphabets[r % |Alphabets|]
  }

  /** The string `RandStr(n)` builds from the first `n` draws. */
  function RandomString(n: nat, draws: seq<nat>): (s: string)
    requires n <= |draws|
    ensures |s| == n
    ensures forall i :: 0 <= i < n ==> s[i] == AlphabetChar(draws[i])
    ensures forall i :: 0 <= i < n ==> s[i] in Alphabets
  {
    if n == 0 then [] else RandomString(n - 1, draws) + [AlphabetChar(draws[n - 1])]
  }

  /** `RandStr`: fills a fresh buffer of `n` characters from the alphabet, one draw per character. */
  method RandStr(n: nat, draws: seq<nat>) returns (s: string)
    requires n <= |draws|
    ensures |s| == n
    ensures forall i :: 0 <= i < n ==> s[i] == Alphabets[draws[i] % |Alphabets|]
    ensures s == RandomString(n, draws)
  {
    var b := new char[n];
    var i := 0;
    while i < n
      invariant 0 <= i <= n
      invariant forall j :: 0 <= j < i ==> b[j] == Alphabets[draws[j] % |Alphabets|]
    {
      b[i] := Alphabets[draws[i] % |Alphabets|];
      i := i + 1;
    }
    s := b[..];
  }

  /** Go's `string(ExpirationTime)`: the one-character string whose code point is 86400. */
  const ExpirationTimeText: string := [86400 as char]

  /** The default expiration text is a single code point (U+15180), not the decimal digits. */
  lemma ExpirationTimeTextIsOneCodePoint()
    ensures |ExpirationTimeText| == 1 && ExpirationTimeText[0] as int == ExpirationTime
    ensures ExpirationTimeText != "86400"
  {
  }

  /** The four variables the package fills in. */
  const DefaultedKeys: set<string> :=
    {TokenEnvKey, SigningMethodEnvKey, AuthorizationHeaderKey, TokenExpirationKey}

  /** Sets `name` to `value` unless it already holds a non-empty value. */
  function DefaultIfEmpty(vars: map<string, string>, name: string, value: string): map<string, string> {
    if Getenv(vars, name) == "" then vars[name := value] else vars
  }

  /** A token key is needed only if none is set; it then takes `KeyByteSize` draws. */
  predicate EnoughDraws(vars: map<string, string>, draws: seq<nat>) {
    Getenv(vars, TokenEnvKey) == "" ==> KeyByteSize <= |draws|
  }

  /** The environment after `LoadEnvironmentVariables`, as a function of the one before. */
  function LoadedDefaults(vars: map<string, string>, draws: seq<nat>): map<string, string>
    requires EnoughDraws(vars, draws)
  {
    var v1 := if Getenv(vars, TokenEnvKey) == "" then vars[TokenEnvKey := RandomString(KeyByteSize, draws)] else vars;
    var v2 := DefaultIfEmpty(v1, SigningMethodEnvKey, SigningMethod);
    var v3 := DefaultIfEmpty(v2, AuthorizationHeaderKey, AuthorizationHeader);
    DefaultIfEmpty(v3, TokenExpirationKey, ExpirationTimeText)
  }

  /** The process environment. */
  class Environment {
    var vars: map<string, string>

    constructor (initial: map<string, string>)
      ensures vars == initial
    {
      vars := initial;
    }

    /** `os.Setenv`. */
    method Setenv(name: string, value: string)
      modifies this
      ensures vars == old(vars)[name := value]
    {
      vars := vars[name := value];
    }
  }

  /** `LoadEnvironmentVariables`: four conditional `Setenv` calls, in the source's order. */
  method LoadEnvironmentVariables(env: Environment, draws: seq<nat>)
    requires EnoughDraws(env.vars, draws)
    modifies env
    ensures env.vars == LoadedDefaults(old(env.vars), draws)
  {
    var tokenKey := Getenv(env.vars, TokenEnvKey);
    if tokenKey == "" {
      var key := RandStr(KeyByteSize, draws);
      env.Setenv(TokenEnvKey, key);
    }
    var signingMethod := Getenv(env.vars, SigningMethodEnvKey);
    if signingMethod == "" {
      env.Setenv(SigningMethodEnvKey, SigningMethod);
    }
    var authorizationHeader := Getenv(env.vars, AuthorizationHeaderKey);
    if authorizationHeader == "" {
      env.Setenv(AuthorizationHeaderKey, AuthorizationHeader);
    }
    var tokenExpirationTime := Getenv(env.vars, TokenExpirationKey);
    if tokenExpirationTime == "" {
      env.Setenv(TokenExpirationKey, ExpirationTimeText);
    }
  }

  /**
   * Each of the four variables keeps a non-empty value and takes its default
   * only when it was empty or unset.
   */
  lemma LoadedDefaultsValues(vars: map<string, string>, draws: seq<nat>)
    requires EnoughDraws(vars, draws)
    ensures var after := LoadedDefaults(vars, draws);
      && Getenv(after, TokenEnvKey) ==
           (if Getenv(vars, TokenEnvKey) == "" then RandomString(KeyByteSize, draws) else Getenv(vars, TokenEnvKey))
      && Getenv(after, SigningMethodEnvKey) ==
           (if Getenv(vars, SigningMethodEnvKey) == "" then SigningMethod else Getenv(vars, SigningMethodEnvKey))
      && Getenv(after, AuthorizationHeaderKey) ==
           (if Getenv(vars, AuthorizationHeaderKey) == "" then AuthorizationHeader else Getenv(vars, AuthorizationHeaderKey))
      && Getenv(after, TokenExpirationKey) ==
           (if Getenv(vars, TokenExpirationKey) == "" then ExpirationTimeText else Getenv(vars, TokenExpirationKey))
  {
  }

  /** After loading, each of the four variables is non-empty. */
  lemma LoadedDefaultsNonEmpty(vars: map<string, string>, draws: seq<nat>)
    requires EnoughDraws(vars, draws)
    ensures forall name :: name in DefaultedKeys ==> Getenv(LoadedDefaults(vars, draws), name) != ""
  {
    LoadedDefaultsValues(vars, draws);
  }

  /** No variable other than the four is added, removed or changed. */
  lemma LoadedDefaultsFrame(vars: map<string, string>, draws: seq<nat>)
    requires EnoughDraws(vars, draws)
    ensures var after := LoadedDefaults(vars, draws);
      && after.Keys == vars.Keys + DefaultedKeys
      && forall name :: name in vars && name !in DefaultedKeys ==> after[name] == vars[name]
  {
  }

  /** Loading twice is loading once: the second run finds all four set and changes nothing. */
  lemma LoadedDefaultsIdempotent(vars: map<string, string>, draws: seq<nat>, draws2: seq<nat>)
    requires EnoughDraws(vars, draws)
    ensures EnoughDraws(LoadedDefaults(vars, draws), draws2)
    ensures LoadedDefaults(LoadedDefaults(vars, draws), draws2) == LoadedDefaults(vars, draws)
  {
    LoadedDefaultsNonEmpty(vars, draws);
  }
}
