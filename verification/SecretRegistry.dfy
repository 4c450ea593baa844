/** The registry of secrets, name by name: which entries each image and command resolves, and when they are active. */
module SecretRegistry {
  import opened Text
  import opened ProcessEnvironment
  import opened ProviderSecrets
  import opened NativeOptions
  import opened ProviderConfiguration
  import opened SecretPlan
  import opened SecretPlanLaws
  import opened SecretPlanProviders
  import Paths
  import Decimal
  import IndexedVariables

  // ---- conditions on the environment ----

  predicate IsOn(value: string) {
    var word := TrimSpace(value);
    EqualFold(word, "1") || EqualFold(word, "true") || EqualFold(word, "yes") || EqualFold(word, "on")
  }

  /** A comma-separated list holds the word "cert". */
  predicate ListsCert(value: string) {
    exists part :: part in SplitOn(value, ',') && EqualFold(TrimSpace(part), "cert")
  }

  /** Where the agents and servers keep their TLS files. */
  function EncDirectory(vars: Vars): string {
    var home := Get(vars, "ZABBIX_USER_HOME_DIR");
    Paths.Clean(if home == "" then "enc" else home + "/" + "enc")
  }

  predicate InService(command: Command) { command.Service? }
  predicate WithDatabase(command: Command) { command.Service? || command.InitDb? }

  predicate Serves(c: Component) {
    c.ServerMySql? || c.ServerPgSql? || c.ProxyMySql? || c.ProxySqlite? || c.WebMySql? || c.WebPgSql?
  }

  predicate Web(c: Component) { c.WebMySql? || c.WebPgSql? }
  predicate Proxy(c: Component) { c.ProxyMySql? || c.ProxySqlite? }
  predicate Server(c: Component) { c.ServerMySql? || c.ServerPgSql? }

  /** The condition under which a TLS file of a component is in use; none when the component has no such file. */
  function TlsCondition(vars: Vars, c: Component, name: string): Option<bool> {
    match c
    case Bridge =>
      var mode, api := Get(vars, "ZBX_TLSMODE"), Get(vars, "ZBX_ZABBIXAPITLSCONNECT");
      if name == "ZBX_TLSCA" then Some(EqualFold(mode, "mtls"))
      else if name in {"ZBX_TLSCERT", "ZBX_TLSKEY"} then Some(EqualFold(mode, "tls") || EqualFold(mode, "mtls"))
      else if name == "ZBX_ZABBIXAPITLSCA" then Some(EqualFold(api, "verify_ca") || EqualFold(api, "verify_full"))
      else None
    case WebService =>
      if name in {"ZBX_TLSCA", "ZBX_TLSCERT", "ZBX_TLSKEY"} then Some(ListsCert(Get(vars, "ZBX_TLSACCEPT"))) else None
    case McpServer =>
      if name in {"ZBX_TLSCERT", "ZBX_TLSKEY"} then Some(ListsCert(Get(vars, "ZBX_TLSACCEPT"))) else None
    case _ =>
      if Web(c) then
        if name in {"ZBX_SERVER_TLS_CA", "ZBX_SERVER_TLS_CERT", "ZBX_SERVER_TLS_KEY"} then
          Some(IsOn(Get(vars, "ZBX_SERVER_TLS_ACTIVE")))
        else None
      else if name in {"ZBX_TLSCA", "ZBX_TLSCRL", "ZBX_TLSCERT", "ZBX_TLSKEY"} then Some(true)
      else if name == "ZBX_TLSPSK" && !Server(c) then Some(true)
      else None
  }

  predicate TlsFile(vars: Vars, c: Component, f: FileSpec) {
    var condition := TlsCondition(vars, c, f.inline);
    condition.Some? && f == FileSpec(f.inline, f.inline + "FILE", "tls", EncDirectory(vars), false, condition.value)
  }

  predicate ApmFile(vars: Vars, c: Component, f: FileSpec) {
    || (Proxy(c) && f.inline in {"ZBX_APMTLSCA", "ZBX_APMTLSCERT", "ZBX_APMTLSKEY"}
        && f == FileSpec(f.inline, f.inline + "FILE", "apm", "", false, IsOn(Get(vars, "ZBX_STARTAPMCOLLECTOR"))))
    || (Web(c) && f == FileSpec("ZBX_APM_CA", "ZBX_APM_CAFILE", "apm", "", false,
          Get(vars, "ZBX_APM_CA") != "" || Get(vars, "ZBX_APM_CAFILE") != "" || Get(vars, "ZBX_APM_CA_LOCATION") != ""))
  }

  predicate SsoFile(c: Component, f: FileSpec) {
    && Web(c) && f.inline in {"ZBX_SSO_SP_KEY", "ZBX_SSO_SP_CERT", "ZBX_SSO_IDP_CERT"}
    && f == FileSpec(f.inline, f.inline + "FILE", "sso", "/etc/zabbix/web/certs", false, true)
  }

  predicate DatabaseFile(vars: Vars, c: Component, f: FileSpec) {
    && (Server(c) || c.ProxyMySql? || Web(c)) && f.inline in {"ZBX_DBTLSCA", "ZBX_DBTLSCERT", "ZBX_DBTLSKEY"}
    && f == FileSpec(f.inline, f.inline + "FILE", "database", "", true,
                     if Web(c) then IsOn(Get(vars, "ZBX_DB_ENCRYPTION")) else Get(vars, "ZBX_DBTLSCONNECT") != "")
  }

  /** The prefix and a canonical number. */
  ghost predicate Numbered(prefix: string, name: string) {
    exists i: nat :: i <= Decimal.MAX_INT && name == prefix + Decimal.Itoa(i)
  }

  predicate NamesVaultPath(fields: Option<FieldMap>) {
    && fields.Some? && "vault_path" in fields.value && fields.value["vault_path"].Str?
    && fields.value["vault_path"].text != ""
  }

  /** Vault is configured, or a telemetry provider names a path in it while telemetry is being prepared. */
  ghost predicate VaultConfigured(decoder: Decoder, vars: Vars, command: Command) {
    || Get(vars, "ZBX_VAULT") != ""
    || (command.InitTelemetry? &&
        exists name :: name in vars && Numbered("ZBX_TELEMETRYPROVIDER_", name) && NamesVaultPath(decoder(vars[name])))
  }

  /** Servers and proxies keep both files of the Vault client with their shared TLS files. */
  function VaultDirectory(c: Component, name: string): string {
    if Web(c) then "vault" else if name == "ZBX_VAULTTLSCERT" then "ssl/certs" else "ssl/keys"
  }

  ghost predicate VaultFileEntry(decoder: Decoder, vars: Vars, c: Component, command: Command, f: FileSpec) {
    && Serves(c) && !command.InitHistory? && f.inline in {"ZBX_VAULTTLSCERT", "ZBX_VAULTTLSKEY"}
    && f == FileSpec(f.inline, f.inline + "FILE", VaultDirectory(c, f.inline),
                     if Web(c) then "/etc/zabbix/web/certs" else EncDirectory(vars), false, VaultConfigured(decoder, vars, command))
  }

  // ---- providers ----

  /** The images and commands that read provider secrets. */
  predicate ReadsProviders(c: Component, command: Command) {
    || (Server(c) && !command.InitDb?)
    || (Proxy(c) && (command.Service? || command.InitTelemetry?))
    || (Web(c) && command.Service?)
  }

  predicate EndsWithOneOf(name: string, endings: set<string>) {
    exists ending :: ending in endings && HasSuffix(name, ending)
  }

  /** Variables that the image itself writes name no provider, nor do history TLS files outside the server. */
  predicate IsNoSource(c: Component, history: bool, name: string) {
    || EndsWithOneOf(name, {"_SSL_CERTLOCATION", "_SSL_KEYLOCATION", "_SSL_CALOCATION"})
    || (history && !Server(c) && !Web(c))
    || (history && !Server(c) &&
        EndsWithOneOf(name, {"_SSL_CERT", "_SSL_KEY", "_SSL_CA", "_SSL_CERTFILE", "_SSL_KEYFILE", "_SSL_CAFILE", "_SSL_CALOCATION"}))
  }

  /** Provider number i of a family is named in the environment, by itself or by a variable of its own. */
  ghost predicate Named(vars: Vars, c: Component, history: bool, i: nat) {
    var base := (if history then "ZBX_HISTORYPROVIDER_" else "ZBX_TELEMETRYPROVIDER_") + Decimal.Itoa(i);
    i <= Decimal.MAX_INT &&
      exists name :: name in vars && !IsNoSource(c, history, name) && (name == base || base + "_" <= name)
  }

  /** The entries of provider number i are planned, under its variable. */
  ghost predicate Planned(vars: Vars, c: Component, command: Command, history: bool, i: nat) {
    && ReadsProviders(c, command) && (command.InitHistory? ==> history) && (command.InitTelemetry? ==> !history)
    && Named(vars, c, history, i)
  }

  function BaseName(history: bool, i: nat): string {
    (if history then "ZBX_HISTORYPROVIDER_" else "ZBX_TELEMETRYPROVIDER_") + Decimal.Itoa(i)
  }

  function Directory(history: bool, i: nat): string {
    (if history then "providers/history-" else "providers/telemetry-") + Decimal.Itoa(i)
  }

  predicate FileEnding(suffix: string) { suffix == "_SSL_CERT" || suffix == "_SSL_KEY" || suffix == "_SSL_CA" }
  predicate ValueEnding(suffix: string) { suffix == "_USERNAME" || suffix == "_PASSWORD" || suffix == "_SSL_KEY_PASSWORD" }

  ghost predicate ProviderFile(vars: Vars, c: Component, command: Command, f: FileSpec) {
    exists history, i: nat, suffix ::
      && Planned(vars, c, command, history, i) && FileEnding(suffix) && (history ==> Server(c))
      && var base := BaseName(history, i);
         f == FileSpec(base + suffix, base + suffix + "FILE", Directory(history, i), "", false, Get(vars, base) != "")
  }

  ghost predicate ProviderValue(vars: Vars, c: Component, command: Command, v: ValueSpec) {
    exists history, i: nat, suffix ::
      && Planned(vars, c, command, history, i) && ValueEnding(suffix)
      && var base := BaseName(history, i);
         v == ValueSpec(base + suffix, Directory(history, i), Get(vars, base) != "")
  }

  // ---- the two lists ----

  ghost predicate AskedFile(decoder: Decoder, vars: Vars, c: Component, command: Command, f: FileSpec) {
    || (command.Service? && (TlsFile(vars, c, f) || ApmFile(vars, c, f) || SsoFile(c, f)))
    || ((command.Service? || command.InitDb?) && DatabaseFile(vars, c, f))
    || VaultFileEntry(decoder, vars, c, command, f)
    || ProviderFile(vars, c, command, f)
  }

  predicate DatabaseValue(vars: Vars, c: Component, v: ValueSpec) {
    var vaultless := Get(vars, "ZBX_VAULTDBPATH") == "";
    || ((c.ServerMySql? || c.ProxyMySql? || c.WebMySql?)
        && (v == ValueSpec("MYSQL_USER", "database", vaultless) || v == ValueSpec("MYSQL_PASSWORD", "database", vaultless)
            || v == ValueSpec("MYSQL_ROOT_USER", "database", true) || v == ValueSpec("MYSQL_ROOT_PASSWORD", "database", true)))
    || ((c.ServerPgSql? || c.WebPgSql?)
        && (v == ValueSpec("POSTGRES_USER", "database", vaultless) || v == ValueSpec("POSTGRES_PASSWORD", "database", vaultless)))
  }

  ghost predicate AskedValue(decoder: Decoder, vars: Vars, c: Component, command: Command, v: ValueSpec) {
    || ((command.Service? || command.InitDb?) && DatabaseValue(vars, c, v))
    || (Serves(c) && !command.InitHistory? && v.name in {"VAULT_TOKEN", "ZBX_VAULTAPPROLEID", "ZBX_VAULTAPPSECRETID"}
        && v == ValueSpec(v.name, "vault", VaultConfigured(decoder, vars, command)))
    || ProviderValue(vars, c, command, v)
  }

  predicate AskedAlias(c: Component, command: Command, a: Alias) {
    || (Serves(c) && !command.InitHistory? &&
        a in {Alias("ZBX_VAULTCERTFILE", "ZBX_VAULTTLSCERTFILE"), Alias("ZBX_VAULTKEYFILE", "ZBX_VAULTTLSKEYFILE")})
    || (Web(c) && command.Service? &&
        a in {Alias("ZBX_DB_CA_FILE", "ZBX_DBTLSCAFILE"), Alias("ZBX_DB_CERT_FILE", "ZBX_DBTLSCERTFILE"),
              Alias("ZBX_DB_KEY_FILE", "ZBX_DBTLSKEYFILE")})
  }

  // ---- the plan against the registry: fixed entries ----

  lemma OnIs(value: string)
    ensures EnvEnabled(value) <==> IsOn(value)
  {
    hide EqualFold, TrimSpace;
    assert forall word :: word in ["1", "true", "yes", "on"] <==> word == "1" || word == "true" || word == "yes" || word == "on";
  }

  lemma EncIs(vars: Vars)
    ensures Enc(vars) == EncDirectory(vars)
  {
  }

  lemma {:induction false} FilesAre(category: string, legacy: string, standard: bool, active: bool, names: seq<string>, f: FileSpec)
    ensures f in Files(category, legacy, standard, active, names)
       <==> f.inline in names && f == FileSpec(f.inline, f.inline + "FILE", category, legacy, standard, active)
    decreases |names|
  {
    if names != [] {
      assert names == [names[0]] + names[1..];
      FilesAre(category, legacy, standard, active, names[1..], f);
    }
  }

  lemma {:induction false} SecretValuesAre(category: string, active: bool, names: seq<string>, v: ValueSpec)
    ensures v in SecretValues(category, active, names) <==> v.name in names && v == ValueSpec(v.name, category, active)
    decreases |names|
  {
    if names != [] {
      assert names == [names[0]] + names[1..];
      SecretValuesAre(category, active, names[1..], v);
    }
  }

  lemma ListsCertIs(vars: Vars)
    ensures ModeEnabled(vars, "cert", "ZBX_TLSACCEPT") <==> ListsCert(Get(vars, "ZBX_TLSACCEPT"))
  {
  }

  lemma {:induction false} InConcat<T>(a: seq<T>, b: seq<T>, x: T)
    ensures x in a + b <==> x in a || x in b
  {
  }

  lemma BridgeFilesAre(vars: Vars, f: FileSpec)
    ensures f in ServiceFiles(vars, Bridge) <==> TlsFile(vars, Bridge, f)
  {
    EncIs(vars);
    var enc, mode, api := Enc(vars), Get(vars, "ZBX_TLSMODE"), Get(vars, "ZBX_ZABBIXAPITLSCONNECT");
    var mutual, tls := EqualFold(mode, "mtls"), EqualFold(mode, "tls") || EqualFold(mode, "mtls");
    var verify := EqualFold(api, "verify_ca") || EqualFold(api, "verify_full");
    FilesAre("tls", enc, false, mutual, ["ZBX_TLSCA"], f);
    FilesAre("tls", enc, false, tls, ["ZBX_TLSCERT", "ZBX_TLSKEY"], f);
    FilesAre("tls", enc, false, verify, ["ZBX_ZABBIXAPITLSCA"], f);
    hide Files, EqualFold, EncDirectory, Enc;
  }

  lemma AcceptedTlsAre(vars: Vars, c: Component, f: FileSpec)
    requires c.WebService? || c.McpServer?
    ensures f in ServiceFiles(vars, c) <==> TlsFile(vars, c, f)
  {
    EncIs(vars);
    ListsCertIs(vars);
    var active := ModeEnabled(vars, "cert", "ZBX_TLSACCEPT");
    FilesAre("tls", Enc(vars), false, active, ["ZBX_TLSCA", "ZBX_TLSCERT", "ZBX_TLSKEY"], f);
    FilesAre("tls", Enc(vars), false, active, ["ZBX_TLSCERT", "ZBX_TLSKEY"], f);
    hide Files, ModeEnabled, ListsCert, EncDirectory, Enc;
  }

  lemma PlainTlsAre(vars: Vars, c: Component, f: FileSpec)
    requires c.Agent? || c.Agent2? || Server(c)
    ensures f in ServiceFiles(vars, c) <==> TlsFile(vars, c, f)
  {
    EncIs(vars);
    FilesAre("tls", Enc(vars), false, true, TLS_PSK, f);
    FilesAre("tls", Enc(vars), false, true, TLS, f);
    hide Files, EncDirectory, Enc;
  }

  lemma ProxyFilesAre(vars: Vars, c: Component, f: FileSpec)
    requires Proxy(c)
    ensures f in ServiceFiles(vars, c) <==> TlsFile(vars, c, f) || ApmFile(vars, c, f)
  {
    EncIs(vars);
    var active := EnvEnabled(Get(vars, "ZBX_STARTAPMCOLLECTOR"));
    OnIs(Get(vars, "ZBX_STARTAPMCOLLECTOR"));
    FilesAre("tls", Enc(vars), false, true, TLS_PSK, f);
    FilesAre("apm", "", false, active, APM_TLS, f);
    hide Files, EncDirectory, Enc, EnvEnabled, IsOn;
  }

  lemma WebFilesAre(vars: Vars, c: Component, f: FileSpec)
    requires Web(c)
    ensures f in ServiceFiles(vars, c) <==> TlsFile(vars, c, f) || ApmFile(vars, c, f) || SsoFile(c, f)
  {
    WebTlsAre(vars, c, f);
    WebSsoAre(c, f);
    WebApmAre(vars, c, f);
    hide Files, TlsFile, ApmFile, SsoFile, Enc, EnvEnabled, WebApmActive;
  }

  lemma WebTlsAre(vars: Vars, c: Component, f: FileSpec)
    requires Web(c)
    ensures f in Files("tls", Enc(vars), false, EnvEnabled(Get(vars, "ZBX_SERVER_TLS_ACTIVE")), SERVER_TLS) <==> TlsFile(vars, c, f)
  {
    EncIs(vars);
    OnIs(Get(vars, "ZBX_SERVER_TLS_ACTIVE"));
    FilesAre("tls", Enc(vars), false, EnvEnabled(Get(vars, "ZBX_SERVER_TLS_ACTIVE")), SERVER_TLS, f);
    hide Files, EncDirectory, Enc, EnvEnabled, IsOn;
  }

  lemma WebSsoAre(c: Component, f: FileSpec)
    requires Web(c)
    ensures f in Files("sso", WEB_CERTS, false, true, SSO) <==> SsoFile(c, f)
  {
    FilesAre("sso", WEB_CERTS, false, true, SSO, f);
    hide Files;
  }

  lemma WebApmAre(vars: Vars, c: Component, f: FileSpec)
    requires Web(c)
    ensures f in Files("apm", "", false, WebApmActive(vars), ["ZBX_APM_CA"]) <==> ApmFile(vars, c, f)
  {
    FilesAre("apm", "", false, WebApmActive(vars), ["ZBX_APM_CA"], f);
    assert "ZBX_APM_CA" + "FILE" == "ZBX_APM_CAFILE";
    hide Files;
  }

  lemma ServiceFilesAre(vars: Vars, c: Component, f: FileSpec)
    ensures f in ServiceFiles(vars, c) <==> TlsFile(vars, c, f) || ApmFile(vars, c, f) || SsoFile(c, f)
  {
    hide ServiceFiles, TlsFile;
    if c.Bridge? { BridgeFilesAre(vars, f); }
    else if c.WebService? || c.McpServer? { AcceptedTlsAre(vars, c, f); }
    else if Proxy(c) { ProxyFilesAre(vars, c, f); }
    else if Web(c) { WebFilesAre(vars, c, f); }
    else { PlainTlsAre(vars, c, f); }
  }

  lemma DatabaseFilesAre(vars: Vars, c: Component, f: FileSpec)
    ensures f in DatabaseFiles(vars, c) <==> DatabaseFile(vars, c, f)
  {
    OnIs(Get(vars, "ZBX_DB_ENCRYPTION"));
    FilesAre("database", "", true,
             if IsWeb(c) then EnvEnabled(Get(vars, "ZBX_DB_ENCRYPTION")) else Get(vars, "ZBX_DBTLSCONNECT") != "", DB_TLS, f);
    hide Files, EnvEnabled, IsOn;
  }

  lemma DatabaseValuesAre(vars: Vars, c: Component, v: ValueSpec)
    ensures v in DatabaseValues(vars, c) <==> DatabaseValue(vars, c, v)
  {
    var vaultless := Get(vars, "ZBX_VAULTDBPATH") == "";
    SecretValuesAre("database", vaultless, ["MYSQL_USER", "MYSQL_PASSWORD"], v);
    SecretValuesAre("database", true, ["MYSQL_ROOT_USER", "MYSQL_ROOT_PASSWORD"], v);
    SecretValuesAre("database", vaultless, ["POSTGRES_USER", "POSTGRES_PASSWORD"], v);
    hide SecretValues;
  }

  lemma CanonicalIs(prefix: string, name: string)
    requires prefix <= name
    ensures IndexedVariables.ParseIndexedNumber(name[|prefix|..]).Some? <==> Numbered(prefix, name)
  {
    var index := name[|prefix|..];
    IndexedVariables.CanonicalSuffix(index);
    assert name == prefix + index;
    if i: nat :| i <= Decimal.MAX_INT && name == prefix + Decimal.Itoa(i) {
      assert index == Decimal.Itoa(i);
    }
  }

  lemma VaultActiveIs(decoder: Decoder, vars: Vars, command: Command)
    ensures VaultActive(decoder, vars, command) <==> VaultConfigured(decoder, vars, command)
  {
    hide IndexedVariables.ParseIndexedNumber, Numbered;
    forall name | name in vars
      ensures NamesVault(decoder, vars, name) <==> Numbered(TELEMETRY_PREFIX, name) && NamesVaultPath(decoder(vars[name]))
    {
      if TELEMETRY_PREFIX <= name { CanonicalIs(TELEMETRY_PREFIX, name); } else { NotNumbered(TELEMETRY_PREFIX, name); }
    }
  }

  lemma NotNumbered(prefix: string, name: string)
    ensures Numbered(prefix, name) ==> prefix <= name
  {
  }

  lemma VaultFilesAre(decoder: Decoder, vars: Vars, c: Component, command: Command, f: FileSpec)
    requires UsesVault(c, command)
    ensures f in VaultSpecs(c, if IsWeb(c) then WEB_CERTS else Enc(vars), VaultActive(decoder, vars, command), VAULT_FILES)
       <==> VaultFileEntry(decoder, vars, c, command, f)
  {
    EncIs(vars);
    VaultActiveIs(decoder, vars, command);
    VaultSpecsUnfold(c, if IsWeb(c) then WEB_CERTS else Enc(vars), VaultActive(decoder, vars, command));
    assert "ZBX_VAULTTLSCERT" + "FILE" == "ZBX_VAULTTLSCERTFILE" && "ZBX_VAULTTLSKEY" + "FILE" == "ZBX_VAULTTLSKEYFILE";
    hide VaultSpecs, Enc, EncDirectory, VaultActive, VaultConfigured;
  }

  lemma FixedFilesAre(decoder: Decoder, vars: Vars, c: Component, command: Command, f: FileSpec)
    ensures f in FixedFiles(decoder, vars, c, command)
       <==> || (command.Service? && (TlsFile(vars, c, f) || ApmFile(vars, c, f) || SsoFile(c, f)))
            || ((command.Service? || command.InitDb?) && DatabaseFile(vars, c, f))
            || VaultFileEntry(decoder, vars, c, command, f)
  {
    ServiceFilesAre(vars, c, f);
    DatabaseFilesAre(vars, c, f);
    if UsesVault(c, command) { VaultFilesAre(decoder, vars, c, command, f); }
    hide ServiceFiles, DatabaseFiles, VaultSpecs, TlsFile, ApmFile, SsoFile, DatabaseFile, Enc, VaultActive, VaultConfigured;
  }

  lemma FixedValuesAre(decoder: Decoder, vars: Vars, c: Component, command: Command, v: ValueSpec)
    ensures v in FixedValues(decoder, vars, c, command)
       <==> || ((command.Service? || command.InitDb?) && DatabaseValue(vars, c, v))
            || (Serves(c) && !command.InitHistory? && v.name in {"VAULT_TOKEN", "ZBX_VAULTAPPROLEID", "ZBX_VAULTAPPSECRETID"}
                && v == ValueSpec(v.name, "vault", VaultConfigured(decoder, vars, command)))
  {
    DatabaseValuesAre(vars, c, v);
    VaultActiveIs(decoder, vars, command);
    SecretValuesAre("vault", VaultActive(decoder, vars, command), VAULT_VALUES, v);
    hide DatabaseValues, DatabaseValue, SecretValues, VaultActive, VaultConfigured;
  }

  lemma AliasesAre(c: Component, command: Command, a: Alias)
    ensures a in Aliases(c, command) <==> AskedAlias(c, command, a)
  {
  }

  // ---- the plan against the registry: providers ----

  lemma {:induction false} IndexIs(rest: string, number: string)
    requires '_' !in number
    ensures Index(rest) == number <==> rest == number || number + "_" <= rest
    decreases |rest|
  {
    if rest != "" && rest[0] != '_' {
      if number != "" {
        IndexIs(rest[1..], number[1..]);
        assert rest == [rest[0]] + rest[1..] && number == [number[0]] + number[1..];
        assert number + "_" <= rest <==> number[0] == rest[0] && number[1..] + "_" <= rest[1..];
      }
    }
  }

  lemma DigitsOnly(i: nat)
    ensures '_' !in Decimal.Itoa(i) && Decimal.Itoa(i) != ""
  {
    assert forall c :: c in Decimal.Itoa(i) ==> Decimal.IsDigit(c);
  }

  /** One prefix: the provider that a variable of it names. */
  lemma ContributesTo(prefix: string, name: string, i: nat)
    requires prefix <= name && (prefix == HISTORY_PREFIX || prefix == TELEMETRY_PREFIX)
    ensures ContributeTo(prefix, name) == Base(prefix + Decimal.Itoa(i), CategoryOf(prefix + Decimal.Itoa(i)))
       <==> i <= Decimal.MAX_INT && (name == prefix + Decimal.Itoa(i) || prefix + Decimal.Itoa(i) + "_" <= name)
  {
    var rest, number := name[|prefix|..], Decimal.Itoa(i);
    DigitsOnly(i);
    IndexIs(rest, number);
    NumberIs(Index(rest), i);
    assert name == prefix + rest;
    PrefixCancels(prefix, number + "_", rest);
    assert prefix + (number + "_") == prefix + number + "_";
    SameTail(prefix, Index(rest), number);
    SameTail(prefix, rest, number);
    hide Index, CategoryOf, IndexedVariables.ParseIndexedNumber, Decimal.Itoa, HISTORY_PREFIX, TELEMETRY_PREFIX;
  }

  lemma NumberIs(index: string, i: nat)
    ensures index == Decimal.Itoa(i) ==> (IndexedVariables.ParseIndexedNumber(index).Some? <==> i <= Decimal.MAX_INT)
  {
    if index == Decimal.Itoa(i) {
      if i <= Decimal.MAX_INT { Decimal.AtoiItoa(i); }
      if IndexedVariables.ParseIndexedNumber(index).Some? {
        IndexedVariables.CanonicalSuffix(index);
        var n: nat :| n <= Decimal.MAX_INT && Decimal.Itoa(n) == index;
        Decimal.ItoaInjective(n, i);
      }
    }
  }

  lemma PrefixCancels(prefix: string, a: string, rest: string)
    ensures prefix + a <= prefix + rest <==> a <= rest
  {
    if prefix + a <= prefix + rest {
      assert a == (prefix + a)[|prefix|..] == (prefix + rest)[|prefix|..|prefix + a|] == rest[..|a|];
    }
    if a <= rest {
      assert prefix + rest == prefix + a + rest[|a|..];
    }
  }

  lemma SameTail(prefix: string, a: string, b: string)
    ensures prefix + a == prefix + b ==> a == b
  {
    assert (prefix + a)[|prefix|..] == a && (prefix + b)[|prefix|..] == b;
  }

  lemma EndingsAre(name: string)
    ensures HasOneSuffix(name, LOCATION_SUFFIXES)
       <==> EndsWithOneOf(name, {"_SSL_CERTLOCATION", "_SSL_KEYLOCATION", "_SSL_CALOCATION"})
    ensures HasOneSuffix(name, FILE_SUFFIXES)
       <==> EndsWithOneOf(name, {"_SSL_CERT", "_SSL_KEY", "_SSL_CA", "_SSL_CERTFILE", "_SSL_KEYFILE", "_SSL_CAFILE", "_SSL_CALOCATION"})
  {
    hide HasSuffix;
    LocationEndings();
    FileEndings();
    hide LOCATION_SUFFIXES, FILE_SUFFIXES;
  }

  lemma LocationEndings()
    ensures forall ending :: ending in LOCATION_SUFFIXES
              <==> ending in {"_SSL_CERTLOCATION", "_SSL_KEYLOCATION", "_SSL_CALOCATION"}
  {
  }

  lemma FileEndings()
    ensures forall ending :: ending in FILE_SUFFIXES
              <==> ending in {"_SSL_CERT", "_SSL_KEY", "_SSL_CA", "_SSL_CERTFILE", "_SSL_KEYFILE", "_SSL_CAFILE", "_SSL_CALOCATION"}
  {
  }

  lemma FamiliesDiffer(name: string)
    ensures !("ZBX_HISTORYPROVIDER_" <= name && "ZBX_TELEMETRYPROVIDER_" <= name)
  {
    assert "ZBX_HISTORYPROVIDER_"[4] == 'H' && "ZBX_TELEMETRYPROVIDER_"[4] == 'T';
  }

  /** The variable names provider i of the family, as seen by this image. */
  predicate NamesProvider(c: Component, name: string, history: bool, i: nat) {
    && i <= Decimal.MAX_INT && !IsNoSource(c, history, name)
    && (name == BaseName(history, i) || BaseName(history, i) + "_" <= name)
  }

  lemma ContributeIs(c: Component, name: string, history: bool, i: nat)
    ensures Contribute(c, name) == Base(BaseName(history, i), Directory(history, i)) <==> NamesProvider(c, name, history, i)
  {
    var prefix := if history then "ZBX_HISTORYPROVIDER_" else "ZBX_TELEMETRYPROVIDER_";
    EndingsAre(name);
    FamiliesDiffer(name);
    DirectoryIs(history, i);
    BaseStarts(name, prefix, Decimal.Itoa(i));
    if prefix <= name {
      ContributesTo(prefix, name, i);
    } else {
      OtherFamily(c, name, prefix, i);
    }
    hide EndsWithOneOf, HasOneSuffix, LOCATION_SUFFIXES, FILE_SUFFIXES, ContributeTo, CategoryOf, Decimal.Itoa, Directory;
  }

  lemma BaseStarts(name: string, prefix: string, number: string)
    ensures name == prefix + number || prefix + number + "_" <= name ==> prefix <= name
  {
    if prefix + number + "_" <= name {
      assert prefix == (prefix + number + "_")[..|prefix|] == name[..|prefix|];
    }
    if name == prefix + number { assert name[..|prefix|] == prefix; }
  }

  lemma DirectoryIs(history: bool, i: nat)
    ensures CategoryOf(BaseName(history, i)) == Directory(history, i)
  {
    var prefix := if history then "ZBX_HISTORYPROVIDER_" else "ZBX_TELEMETRYPROVIDER_";
    FamiliesDiffer(BaseName(history, i));
    assert BaseName(history, i)[|prefix|..] == Decimal.Itoa(i) && prefix <= BaseName(history, i);
  }

  lemma OtherFamily(c: Component, name: string, prefix: string, i: nat)
    requires (prefix == HISTORY_PREFIX || prefix == TELEMETRY_PREFIX) && !(prefix <= name)
    ensures Contribute(c, name).Base? ==> Contribute(c, name).base != prefix + Decimal.Itoa(i)
  {
    hide Index, CategoryOf, IndexedVariables.ParseIndexedNumber;
    var result := Contribute(c, name);
    if result.Base? {
      FamiliesDiffer(result.base);
      assert (prefix + Decimal.Itoa(i))[..|prefix|] == prefix;
    }
  }

  /** Every contribution is that of some numbered provider. */
  lemma ContributionIsNumbered(c: Component, name: string) returns (history: bool, i: nat)
    requires Contribute(c, name).Base?
    ensures Contribute(c, name) == Base(BaseName(history, i), Directory(history, i))
  {
    history := HISTORY_PREFIX <= name;
    var prefix := if history then HISTORY_PREFIX else TELEMETRY_PREFIX;
    var index := Index(name[|prefix|..]);
    IndexedVariables.CanonicalSuffix(index);
    i :| i <= Decimal.MAX_INT && Decimal.Itoa(i) == index;
    DirectoryIs(history, i);
    hide Index, CategoryOf, IndexedVariables.ParseIndexedNumber, HasOneSuffix, Directory;
  }

  lemma BaseIsOne(history: bool, i: nat, other: bool, j: nat)
    requires BaseName(history, i) == BaseName(other, j)
    ensures history == other && i == j
  {
    FamiliesDiffer(BaseName(history, i));
    var p := if history then "ZBX_HISTORYPROVIDER_" else "ZBX_TELEMETRYPROVIDER_";
    var q := if other then "ZBX_HISTORYPROVIDER_" else "ZBX_TELEMETRYPROVIDER_";
    assert p <= BaseName(history, i) && q <= BaseName(history, i);
    SameTail(p, Decimal.Itoa(i), Decimal.Itoa(j));
    Decimal.ItoaInjective(i, j);
  }

  lemma BasesAre(vars: Vars, c: Component, history: bool, i: nat)
    ensures BaseName(history, i) in Bases(vars.Keys, c) <==> Named(vars, c, history, i)
  {
    hide Contribute, NamesProvider, Directory;
    forall name | name in vars
      ensures NamesProvider(c, name, history, i) <==> Contribute(c, name).Base? && Contribute(c, name).base == BaseName(history, i)
    {
      ContributeIs(c, name, history, i);
      if Contribute(c, name).Base? {
        var other, j := ContributionIsNumbered(c, name);
        if BaseName(other, j) == BaseName(history, i) { BaseIsOne(history, i, other, j); }
      }
    }
    NamedMeans(vars, c, history, i);
    hide BaseName, Named;
  }

  lemma NamedMeans(vars: Vars, c: Component, history: bool, i: nat)
    ensures Named(vars, c, history, i) <==> exists name :: name in vars && NamesProvider(c, name, history, i)
  {
    hide IsNoSource;
  }

  lemma BasesAreNumbered(vars: Vars, c: Component, base: string) returns (history: bool, i: nat)
    requires base in Bases(vars.Keys, c)
    ensures base == BaseName(history, i) && Named(vars, c, history, i)
  {
    hide Contribute;
    var name :| name in vars && Contribute(c, name).Base? && Contribute(c, name).base == base;
    history, i := ContributionIsNumbered(c, name);
    BasesAre(vars, c, history, i);
  }

  lemma WantedIs(vars: Vars, c: Component, command: Command, history: bool, i: nat)
    ensures BaseName(history, i) in WantedBases(vars, c, command) <==> Planned(vars, c, command, history, i)
  {
    BasesAre(vars, c, history, i);
    WantedMembers(vars, c, command, BaseName(history, i));
    FamiliesDiffer(BaseName(history, i));
    var p := if history then "ZBX_HISTORYPROVIDER_" else "ZBX_TELEMETRYPROVIDER_";
    assert p <= BaseName(history, i);
    hide Bases, Named, WantedBases, BaseName;
  }

  lemma WantedMembers(vars: Vars, c: Component, command: Command, base: string)
    ensures base in WantedBases(vars, c, command)
       <==> UsesProviders(c, command) && base in Bases(vars.Keys, c) && Wanted(command, base)
  {
    hide Bases, Wanted;
  }

  lemma {:induction false} BaseFilesAre(vars: Vars, base: string, secrets: seq<Secret>, f: FileSpec)
    ensures f in BaseFiles(vars, base, secrets)
       <==> exists secret :: secret in secrets && secret.kind.FileSecret?
              && f == FileSpec(base + secret.suffix, base + secret.suffix + "FILE", CategoryOf(base), "", false, Get(vars, base) != "")
    decreases |secrets|
  {
    hide CategoryOf, Get;
    if secrets != [] {
      assert secrets == [secrets[0]] + secrets[1..];
      BaseFilesAre(vars, base, secrets[1..], f);
    }
  }

  lemma {:induction false} BaseValuesAre(vars: Vars, base: string, secrets: seq<Secret>, v: ValueSpec)
    ensures v in BaseValues(vars, base, secrets)
       <==> exists secret :: secret in secrets && secret.kind.ValueSecret?
              && v == ValueSpec(base + secret.suffix, CategoryOf(base), Get(vars, base) != "")
    decreases |secrets|
  {
    hide CategoryOf, Get;
    if secrets != [] {
      assert secrets == [secrets[0]] + secrets[1..];
      BaseValuesAre(vars, base, secrets[1..], v);
    }
  }

  lemma RegistryFiles(suffix: string)
    ensures FileEnding(suffix) <==> exists secret :: secret in SECRETS && secret.kind.FileSecret? && secret.suffix == suffix
  {
    assert SECRETS[3] in SECRETS && SECRETS[4] in SECRETS && SECRETS[5] in SECRETS;
  }

  lemma RegistryValues(suffix: string)
    ensures ValueEnding(suffix) <==> exists secret :: secret in SECRETS && secret.kind.ValueSecret? && secret.suffix == suffix
  {
    assert SECRETS[0] in SECRETS && SECRETS[1] in SECRETS && SECRETS[2] in SECRETS;
  }

  ghost predicate FileOf(vars: Vars, base: string, category: string, f: FileSpec) {
    exists suffix :: FileEnding(suffix)
      && f == FileSpec(base + suffix, base + suffix + "FILE", category, "", false, Get(vars, base) != "")
  }

  ghost predicate ValueOf(vars: Vars, base: string, category: string, v: ValueSpec) {
    exists suffix :: ValueEnding(suffix) && v == ValueSpec(base + suffix, category, Get(vars, base) != "")
  }

  lemma FilesOfBase(vars: Vars, base: string, f: FileSpec)
    ensures f in BaseFiles(vars, base, SECRETS) <==> FileOf(vars, base, CategoryOf(base), f)
  {
    BaseFilesAre(vars, base, SECRETS, f);
    hide CategoryOf, Get, SECRETS, FileEnding, BaseFiles;
    forall suffix
      ensures FileEnding(suffix) <==> exists secret :: secret in SECRETS && secret.kind.FileSecret? && secret.suffix == suffix
    {
      RegistryFiles(suffix);
    }
    if secret :| (secret in SECRETS && secret.kind.FileSecret?
                  && f == FileSpec(base + secret.suffix, base + secret.suffix + "FILE", CategoryOf(base), "", false, Get(vars, base) != "")) {
      assert FileEnding(secret.suffix);
    }
  }

  lemma ValuesOfBase(vars: Vars, base: string, v: ValueSpec)
    ensures v in BaseValues(vars, base, SECRETS) <==> ValueOf(vars, base, CategoryOf(base), v)
  {
    BaseValuesAre(vars, base, SECRETS, v);
    hide CategoryOf, Get, SECRETS, ValueEnding, BaseValues;
    forall suffix
      ensures ValueEnding(suffix) <==> exists secret :: secret in SECRETS && secret.kind.ValueSecret? && secret.suffix == suffix
    {
      RegistryValues(suffix);
    }
    if secret :| (secret in SECRETS && secret.kind.ValueSecret?
                  && v == ValueSpec(base + secret.suffix, CategoryOf(base), Get(vars, base) != "")) {
      assert ValueEnding(secret.suffix);
    }
  }

  lemma {:induction false} FilesOfBases(vars: Vars, c: Component, bases: seq<string>, f: FileSpec)
    ensures f in ProviderFiles(vars, c, bases)
       <==> exists base :: base in bases && !WithoutFiles(c, base) && FileOf(vars, base, CategoryOf(base), f)
    decreases |bases|
  {
    hide CategoryOf, WithoutFiles, FileOf, BaseFiles;
    if bases != [] {
      assert bases == [bases[0]] + bases[1..];
      FilesOfBases(vars, c, bases[1..], f);
      FilesOfBase(vars, bases[0], f);
    }
  }

  lemma {:induction false} ValuesOfBases(vars: Vars, bases: seq<string>, v: ValueSpec)
    ensures v in ProviderValues(vars, bases) <==> exists base :: base in bases && ValueOf(vars, base, CategoryOf(base), v)
    decreases |bases|
  {
    hide CategoryOf, ValueOf, BaseValues;
    if bases != [] {
      assert bases == [bases[0]] + bases[1..];
      ValuesOfBases(vars, bases[1..], v);
      ValuesOfBase(vars, bases[0], v);
    }
  }

  lemma HistoryStarts(c: Component, history: bool, i: nat)
    ensures WithoutFiles(c, BaseName(history, i)) <==> history && !Server(c)
  {
    FamiliesDiffer(BaseName(history, i));
    var p := if history then "ZBX_HISTORYPROVIDER_" else "ZBX_TELEMETRYPROVIDER_";
    assert p <= BaseName(history, i);
  }

  /** A planned base, with its directory. */
  lemma PlannedBase(vars: Vars, c: Component, command: Command, base: string) returns (history: bool, i: nat)
    requires base in WantedBases(vars, c, command)
    ensures Planned(vars, c, command, history, i) && base == BaseName(history, i) && CategoryOf(base) == Directory(history, i)
    ensures WithoutFiles(c, base) <==> history && !Server(c)
  {
    WantedMembers(vars, c, command, base);
    history, i := BasesAreNumbered(vars, c, base);
    WantedIs(vars, c, command, history, i);
    DirectoryIs(history, i);
    HistoryStarts(c, history, i);
  }

  lemma PlannedFilesAre(vars: Vars, c: Component, command: Command, f: FileSpec)
    ensures f in ProviderFiles(vars, c, WantedBases(vars, c, command)) <==> ProviderFile(vars, c, command, f)
  {
    var bases := WantedBases(vars, c, command);
    FilesOfBases(vars, c, bases, f);
    ProviderFileMeans(vars, c, command, f);
    hide ProviderFile, ProviderFiles, WantedBases, Planned, FileOf, BaseName, Directory, CategoryOf, WithoutFiles;
    if base :| base in bases && !WithoutFiles(c, base) && FileOf(vars, base, CategoryOf(base), f) {
      var history, i := PlannedBase(vars, c, command, base);
    }
    if history, i: nat :| (Planned(vars, c, command, history, i) && (history ==> Server(c))
                           && FileOf(vars, BaseName(history, i), Directory(history, i), f)) {
      WantedIs(vars, c, command, history, i);
      HistoryStarts(c, history, i);
      DirectoryIs(history, i);
    }
  }

  lemma ProviderFileMeans(vars: Vars, c: Component, command: Command, f: FileSpec)
    ensures ProviderFile(vars, c, command, f)
       <==> exists history, i: nat :: Planned(vars, c, command, history, i) && (history ==> Server(c))
              && FileOf(vars, BaseName(history, i), Directory(history, i), f)
  {
    hide Planned, BaseName, Directory, FileEnding;
  }

  lemma PlannedValuesAre(vars: Vars, c: Component, command: Command, v: ValueSpec)
    ensures v in ProviderValues(vars, WantedBases(vars, c, command)) <==> ProviderValue(vars, c, command, v)
  {
    var bases := WantedBases(vars, c, command);
    ValuesOfBases(vars, bases, v);
    ProviderValueMeans(vars, c, command, v);
    hide ProviderValue, ProviderValues, WantedBases, Planned, ValueOf, BaseName, Directory, CategoryOf, WithoutFiles;
    if base :| base in bases && ValueOf(vars, base, CategoryOf(base), v) {
      var history, i := PlannedBase(vars, c, command, base);
    }
    if history, i: nat :| Planned(vars, c, command, history, i) && ValueOf(vars, BaseName(history, i), Directory(history, i), v) {
      WantedIs(vars, c, command, history, i);
      DirectoryIs(history, i);
    }
  }

  lemma ProviderValueMeans(vars: Vars, c: Component, command: Command, v: ValueSpec)
    ensures ProviderValue(vars, c, command, v)
       <==> exists history, i: nat :: Planned(vars, c, command, history, i)
              && ValueOf(vars, BaseName(history, i), Directory(history, i), v)
  {
    hide Planned, BaseName, Directory, ValueEnding;
  }

  /**
   Main result: the plan of every image, command and environment holds exactly the entries of the
   registry, each with its directories and active exactly under its condition.
   */
  lemma PlanIsRegistry(decoder: Decoder, vars: Vars, c: Component, command: Command)
    ensures var plan := PlanOf(decoder, vars, c, command);
            && (forall f :: f in plan.files <==> AskedFile(decoder, vars, c, command, f))
            && (forall v :: v in plan.values <==> AskedValue(decoder, vars, c, command, v))
            && (forall a :: a in plan.aliases <==> AskedAlias(c, command, a))
  {
    var plan, bases := PlanOf(decoder, vars, c, command), WantedBases(vars, c, command);
    hide FixedFiles, ProviderFiles, FixedValues, ProviderValues, WantedBases, Aliases, TlsFile, ApmFile, SsoFile, DatabaseFile,
         VaultFileEntry, ProviderFile, DatabaseValue, VaultConfigured, ProviderValue, AskedAlias;
    forall f ensures f in plan.files <==> AskedFile(decoder, vars, c, command, f) {
      FixedFilesAre(decoder, vars, c, command, f);
      PlannedFilesAre(vars, c, command, f);
    }
    forall v ensures v in plan.values <==> AskedValue(decoder, vars, c, command, v) {
      FixedValuesAre(decoder, vars, c, command, v);
      PlannedValuesAre(vars, c, command, v);
    }
    forall a ensures a in plan.aliases <==> AskedAlias(c, command, a) {
      AliasesAre(c, command, a);
    }
  }
}
