/**
 * Package-level settings of the authentication module: the names of the
 * environment variables it reads and the defaults it writes into them.
 */
module AuthEnv {

  /** Environment variable holding the signing key. */
  const TokenEnvKey: string := "DefaultTokenKey"
  /** Environment variable holding the signing-method name. */
  const SigningMethodEnvKey: string := "DefaultSigningMethod"
  /** Default signing method (HMAC with SHA-512). */
  const SigningMethod: string := "HS512"
  /** Length of a generated default key. */
  const KeyByteSize: nat := 512
  /** Environment variable holding the name of the authorization header. */
  const AuthorizationHeaderKey: string := "AuthorizationHeaderKey"
  /** Default name of the authorization header. */
  const AuthorizationHeader: string := "Authorization"
  /** Environment variable holding the token lifetime. */
  const TokenExpirationKey: string := "ExpirationTime"
  /** Default token lifetime, in seconds (24 hours). */
  const ExpirationTime: nat := 60 * 60 * 24
  /** Characters a generated default key is drawn from. */
  const Alphabets: string := "abcdefghijklmnopqrstuvwxyzABCDEFGHIJKLMNOPQRSTUVWXYZ!@#%^&*()_+|?><~1234567890"

  /**
   * The package-level `DefaultExpirationTime`: evaluated once, when the
   * package is initialised at Unix time `initNow`, to 24 hours later.
   * Every later use sees this same instant.
   */
  function DefaultExpirationTime(initNow: int): int
  {
    initNow + ExpirationTime
  }
}
