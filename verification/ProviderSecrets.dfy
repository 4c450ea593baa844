/** The registry of provider secrets: which variables carry them and which provider field they fill. */
module ProviderSecrets {

  datatype SecretKind = ValueSecret | FileSecret

  datatype Secret = Secret(suffix: string, field: string, kind: SecretKind, managedLocation: bool)

  const SECRETS: seq<Secret> := [
    Secret("_USERNAME", "username", ValueSecret, false),
    Secret("_PASSWORD", "password", ValueSecret, false),
    Secret("_SSL_KEY_PASSWORD", "ssl_key_password", ValueSecret, false),
    Secret("_SSL_CERT", "ssl_cert_file", FileSecret, false),
    Secret("_SSL_KEY", "ssl_key_file", FileSecret, false),
    Secret("_SSL_CA", "ssl_ca_location", FileSecret, true)
  ]

  /** Suffixes of source and managed output variables, longest first. */
  const SUFFIXES: seq<string> := [
    "_SSL_KEY_PASSWORD_FILE", "_SSL_KEY_PASSWORD", "_SSL_CALOCATION", "_USERNAME_FILE", "_PASSWORD_FILE",
    "_SSL_CERTFILE", "_SSL_KEYFILE", "_SSL_CAFILE", "_USERNAME", "_PASSWORD", "_SSL_CERT", "_SSL_KEY", "_SSL_CA"
  ]

  predicate HasSuffix(name: string, suffix: string) {
    |suffix| <= |name| && name[|name| - |suffix|..] == suffix
  }

  function CutSuffix(name: string, suffix: string): string
    requires HasSuffix(name, suffix)
  {
    name[..|name| - |suffix|]
  }

  /** The variable that reads the secret from a file. */
  function FileSuffix(secret: Secret): string {
    secret.suffix + if secret.kind.ValueSecret? then "_FILE" else "FILE"
  }

  const FILE_SUFFIXES: seq<string> := [
    "_SSL_CALOCATION", "_SSL_CERTFILE", "_SSL_KEYFILE", "_SSL_CAFILE", "_SSL_CERT", "_SSL_KEY", "_SSL_CA"
  ]

  const LOCATION_SUFFIXES: seq<string> := ["_SSL_CERTLOCATION", "_SSL_KEYLOCATION", "_SSL_CALOCATION"]

  predicate HasOneSuffix(name: string, suffixes: seq<string>) {
    exists suffix :: suffix in suffixes && HasSuffix(name, suffix)
  }
}
