/** The explicit registry of secrets: which variables one image and command resolve, and where to. */
module SecretPlan {
  import opened Text
  import opened ProcessEnvironment
  import opened ProviderSecrets
  import opened OrderedKeys
  import opened NativeOptions
  import opened ProviderConfiguration
  import IndexedVariables
  import Paths

  datatype Component =
    | Agent | Agent2 | ServerMySql | ServerPgSql | ProxyMySql | ProxySqlite
    | WebMySql | WebPgSql | WebService | McpServer | Bridge

  datatype Command = Service | InitDb | InitHistory | InitTelemetry

  datatype FileSpec = FileSpec(
    inline: string, file: string, category: string, legacyDir: string, standard: bool, active: bool)

  datatype ValueSpec = ValueSpec(name: string, category: string, active: bool)

  datatype Alias = Alias(legacy: string, canonical: string)

  datatype Plan = Plan(files: seq<FileSpec>, values: seq<ValueSpec>, aliases: seq<Alias>)

  datatype VaultFile = VaultFile(inline: string, file: string, location: string, category: string)

  const VAULT_FILES: seq<VaultFile> := [
    VaultFile("ZBX_VAULTTLSCERT", "ZBX_VAULTTLSCERTFILE", "ZBX_SSLCERTLOCATION", "ssl/certs"),
    VaultFile("ZBX_VAULTTLSKEY", "ZBX_VAULTTLSKEYFILE", "ZBX_SSLKEYLOCATION", "ssl/keys")
  ]

  const WEB_CERTS := "/etc/zabbix/web/certs"
  const HISTORY_PREFIX := "ZBX_HISTORYPROVIDER_"
  const TELEMETRY_PREFIX := "ZBX_TELEMETRYPROVIDER_"

  predicate IsServer(c: Component) { c.ServerMySql? || c.ServerPgSql? }
  predicate IsProxy(c: Component) { c.ProxyMySql? || c.ProxySqlite? }
  predicate IsWeb(c: Component) { c.WebMySql? || c.WebPgSql? }

  /** `filepath.Join`: empty elements are left out. */
  function Join(dir: string, path: string): string
    requires path != ""
  {
    Paths.Clean(if dir == "" then path else dir + "/" + path)
  }

  function Enc(vars: Vars): string {
    Join(Get(vars, "ZABBIX_USER_HOME_DIR"), "enc")
  }

  predicate EnvEnabled(value: string) {
    exists word :: word in ["1", "true", "yes", "on"] && EqualFold(TrimSpace(value), word)
  }

  predicate ModeEnabled(vars: Vars, mode: string, name: string) {
    exists part :: part in SplitOn(Get(vars, name), ',') && EqualFold(TrimSpace(part), mode)
  }

  // ---- the fixed part ----

  const TLS: seq<string> := ["ZBX_TLSCA", "ZBX_TLSCRL", "ZBX_TLSCERT", "ZBX_TLSKEY"]
  const TLS_PSK: seq<string> := ["ZBX_TLSCA", "ZBX_TLSCRL", "ZBX_TLSCERT", "ZBX_TLSKEY", "ZBX_TLSPSK"]
  const APM_TLS: seq<string> := ["ZBX_APMTLSCA", "ZBX_APMTLSCERT", "ZBX_APMTLSKEY"]
  const SERVER_TLS: seq<string> := ["ZBX_SERVER_TLS_CA", "ZBX_SERVER_TLS_CERT", "ZBX_SERVER_TLS_KEY"]
  const SSO: seq<string> := ["ZBX_SSO_SP_KEY", "ZBX_SSO_SP_CERT", "ZBX_SSO_IDP_CERT"]
  const DB_TLS: seq<string> := ["ZBX_DBTLSCA", "ZBX_DBTLSCERT", "ZBX_DBTLSKEY"]
  const VAULT_VALUES: seq<string> := ["VAULT_TOKEN", "ZBX_VAULTAPPROLEID", "ZBX_VAULTAPPSECRETID"]

  function Files(category: string, legacy: string, standard: bool, active: bool, names: seq<string>): seq<FileSpec> {
    if names == [] then []
    else
      [FileSpec(names[0], names[0] + "FILE", category, legacy, standard, active)]
      + Files(category, legacy, standard, active, names[1..])
  }

  function SecretValues(category: string, active: bool, names: seq<string>): seq<ValueSpec> {
    if names == [] then [] else [ValueSpec(names[0], category, active)] + SecretValues(category, active, names[1..])
  }

  function ServiceFiles(vars: Vars, component: Component): seq<FileSpec> {
    var enc := Enc(vars);
    match component
    case Agent => Files("tls", enc, false, true, TLS_PSK)
    case Agent2 => Files("tls", enc, false, true, TLS_PSK)
    case WebService =>
      Files("tls", enc, false, ModeEnabled(vars, "cert", "ZBX_TLSACCEPT"), ["ZBX_TLSCA", "ZBX_TLSCERT", "ZBX_TLSKEY"])
    case McpServer =>
      Files("tls", enc, false, ModeEnabled(vars, "cert", "ZBX_TLSACCEPT"), ["ZBX_TLSCERT", "ZBX_TLSKEY"])
    case Bridge =>
      var mode, connect := Get(vars, "ZBX_TLSMODE"), Get(vars, "ZBX_ZABBIXAPITLSCONNECT");
      Files("tls", enc, false, EqualFold(mode, "mtls"), ["ZBX_TLSCA"])
      + Files("tls", enc, false, EqualFold(mode, "tls") || EqualFold(mode, "mtls"), ["ZBX_TLSCERT", "ZBX_TLSKEY"])
      + Files("tls", enc, false, EqualFold(connect, "verify_ca") || EqualFold(connect, "verify_full"), ["ZBX_ZABBIXAPITLSCA"])
    case _ =>
      if IsServer(component) then Files("tls", enc, false, true, TLS)
      else if IsProxy(component) then
        Files("tls", enc, false, true, TLS_PSK)
        + Files("apm", "", false, EnvEnabled(Get(vars, "ZBX_STARTAPMCOLLECTOR")), APM_TLS)
      else
        Files("tls", enc, false, EnvEnabled(Get(vars, "ZBX_SERVER_TLS_ACTIVE")), SERVER_TLS)
        + Files("sso", WEB_CERTS, false, true, SSO)
        + Files("apm", "", false, WebApmActive(vars), ["ZBX_APM_CA"])
  }

  predicate WebApmActive(vars: Vars) {
    Get(vars, "ZBX_APM_CA") != "" || Get(vars, "ZBX_APM_CAFILE") != "" || Get(vars, "ZBX_APM_CA_LOCATION") != ""
  }

  predicate UsesDatabaseTls(component: Component) {
    IsServer(component) || component.ProxyMySql? || IsWeb(component)
  }

  function DatabaseFiles(vars: Vars, component: Component): seq<FileSpec> {
    if UsesDatabaseTls(component) then
      Files("database", "", true,
            if IsWeb(component) then EnvEnabled(Get(vars, "ZBX_DB_ENCRYPTION")) else Get(vars, "ZBX_DBTLSCONNECT") != "",
            DB_TLS)
    else []
  }

  function DatabaseValues(vars: Vars, component: Component): seq<ValueSpec> {
    var local := Get(vars, "ZBX_VAULTDBPATH") == "";
    if component.ServerMySql? || component.ProxyMySql? || component.WebMySql? then
      SecretValues("database", local, ["MYSQL_USER", "MYSQL_PASSWORD"])
      + SecretValues("database", true, ["MYSQL_ROOT_USER", "MYSQL_ROOT_PASSWORD"])
    else if component.ServerPgSql? || component.WebPgSql? then
      SecretValues("database", local, ["POSTGRES_USER", "POSTGRES_PASSWORD"])
    else []
  }

  predicate UsesVault(component: Component, command: Command) {
    (IsServer(component) || IsProxy(component) || IsWeb(component)) && !command.InitHistory?
  }

  /** A telemetry provider whose JSON names a Vault path. */
  predicate NamesVault(decoder: Decoder, vars: Vars, name: string)
    requires name in vars
  {
    && TELEMETRY_PREFIX <= name
    && IndexedVariables.ParseIndexedNumber(name[|TELEMETRY_PREFIX|..]).Some?
    && match decoder(vars[name])
       case None => false
       case Some(fields) => "vault_path" in fields && fields["vault_path"].Str? && fields["vault_path"].text != ""
  }

  predicate TelemetryUsesVault(decoder: Decoder, vars: Vars) {
    exists name :: name in vars && NamesVault(decoder, vars, name)
  }

  predicate VaultActive(decoder: Decoder, vars: Vars, command: Command) {
    Get(vars, "ZBX_VAULT") != "" || (command.InitTelemetry? && TelemetryUsesVault(decoder, vars))
  }

  function VaultCategory(component: Component, file: VaultFile): string {
    if IsServer(component) || IsProxy(component) then file.category else "vault"
  }

  function VaultSpecs(component: Component, legacy: string, active: bool, files: seq<VaultFile>): seq<FileSpec> {
    if files == [] then []
    else
      [FileSpec(files[0].inline, files[0].file, VaultCategory(component, files[0]), legacy, false, active)]
      + VaultSpecs(component, legacy, active, files[1..])
  }

  const VAULT_ALIASES: seq<Alias> := [
    Alias("ZBX_VAULTCERTFILE", "ZBX_VAULTTLSCERTFILE"), Alias("ZBX_VAULTKEYFILE", "ZBX_VAULTTLSKEYFILE")
  ]

  const WEB_ALIASES: seq<Alias> := [
    Alias("ZBX_DB_CA_FILE", "ZBX_DBTLSCAFILE"), Alias("ZBX_DB_CERT_FILE", "ZBX_DBTLSCERTFILE"),
    Alias("ZBX_DB_KEY_FILE", "ZBX_DBTLSKEYFILE")
  ]

  predicate UsesDatabase(command: Command) {
    command.Service? || command.InitDb?
  }

  function FixedFiles(decoder: Decoder, vars: Vars, component: Component, command: Command): seq<FileSpec> {
    (if command.Service? then ServiceFiles(vars, component) else [])
    + (if UsesDatabase(command) then DatabaseFiles(vars, component) else [])
    + (if UsesVault(component, command) then
         VaultSpecs(component, if IsWeb(component) then WEB_CERTS else Enc(vars),
                    VaultActive(decoder, vars, command), VAULT_FILES)
       else [])
  }

  function FixedValues(decoder: Decoder, vars: Vars, component: Component, command: Command): seq<ValueSpec> {
    (if UsesDatabase(command) then DatabaseValues(vars, component) else [])
    + (if UsesVault(component, command) then SecretValues("vault", VaultActive(decoder, vars, command), VAULT_VALUES) else [])
  }

  function Aliases(component: Component, command: Command): seq<Alias> {
    (if UsesVault(component, command) then VAULT_ALIASES else [])
    + (if IsWeb(component) && command.Service? then WEB_ALIASES else [])
  }

  // ---- the providers found in the environment ----

  datatype Contribution = Skip | Invalid | Base(base: string, category: string)

  /** The text before the first underscore. */
  function Index(rest: string): string {
    if rest == "" || rest[0] == '_' then "" else [rest[0]] + Index(rest[1..])
  }

  function CategoryOf(base: string): string {
    if HISTORY_PREFIX <= base then "providers/history-" + base[|HISTORY_PREFIX|..]
    else if TELEMETRY_PREFIX <= base then "providers/telemetry-" + base[|TELEMETRY_PREFIX|..]
    else ""
  }

  function ContributeTo(prefix: string, name: string): Contribution
    requires prefix <= name
  {
    var index := Index(name[|prefix|..]);
    if index == "" then Skip
    else if IndexedVariables.ParseIndexedNumber(index).None? then Invalid
    else Base(prefix + index, CategoryOf(prefix + index))
  }

  /** What one variable says about the providers to resolve. */
  function Contribute(component: Component, name: string): Contribution {
    if HISTORY_PREFIX <= name then
      if HasOneSuffix(name, LOCATION_SUFFIXES) then Skip
      else if !IsServer(component) && !IsWeb(component) then Skip
      else if !IsServer(component) && HasOneSuffix(name, FILE_SUFFIXES) then Skip
      else ContributeTo(HISTORY_PREFIX, name)
    else if TELEMETRY_PREFIX <= name then
      if HasOneSuffix(name, LOCATION_SUFFIXES) then Skip else ContributeTo(TELEMETRY_PREFIX, name)
    else Skip
  }

  function Bases(names: set<string>, component: Component): set<string> {
    set name | name in names && Contribute(component, name).Base? :: Contribute(component, name).base
  }

  predicate NoneInvalid(names: set<string>, component: Component) {
    forall name :: name in names ==> !Contribute(component, name).Invalid?
  }

  predicate Wanted(command: Command, base: string) {
    && (command.InitHistory? ==> HISTORY_PREFIX <= base)
    && (command.InitTelemetry? ==> TELEMETRY_PREFIX <= base)
  }

  predicate WithoutFiles(component: Component, base: string) {
    HISTORY_PREFIX <= base && !IsServer(component)
  }

  /** A credential whose provider variable is missing or empty. */
  predicate Orphaned(vars: Vars, component: Component, base: string) {
    Get(vars, base) == "" && exists secret ::
      && secret in SECRETS && !(secret.kind.FileSecret? && WithoutFiles(component, base))
      && (Get(vars, base + secret.suffix) != "" || Get(vars, base + FileSuffix(secret)) != "")
  }

  function BaseFiles(vars: Vars, base: string, secrets: seq<Secret>): seq<FileSpec> {
    if secrets == [] then []
    else
      var name := base + secrets[0].suffix;
      (if secrets[0].kind.FileSecret? then [FileSpec(name, name + "FILE", CategoryOf(base), "", false, Get(vars, base) != "")]
       else [])
      + BaseFiles(vars, base, secrets[1..])
  }

  function BaseValues(vars: Vars, base: string, secrets: seq<Secret>): seq<ValueSpec> {
    if secrets == [] then []
    else
      (if secrets[0].kind.ValueSecret? then [ValueSpec(base + secrets[0].suffix, CategoryOf(base), Get(vars, base) != "")]
       else [])
      + BaseValues(vars, base, secrets[1..])
  }

  function ProviderFiles(vars: Vars, component: Component, bases: seq<string>): seq<FileSpec> {
    if bases == [] then []
    else
      (if WithoutFiles(component, bases[0]) then [] else BaseFiles(vars, bases[0], SECRETS))
      + ProviderFiles(vars, component, bases[1..])
  }

  function ProviderValues(vars: Vars, bases: seq<string>): seq<ValueSpec> {
    if bases == [] then [] else BaseValues(vars, bases[0], SECRETS) + ProviderValues(vars, bases[1..])
  }

  predicate UsesProviders(component: Component, command: Command) {
    || (IsServer(component) && !command.InitDb?)
    || (IsProxy(component) && (command.Service? || command.InitTelemetry?))
    || (IsWeb(component) && command.Service?)
  }

  ghost function WantedBases(vars: Vars, component: Component, command: Command): seq<string> {
    if UsesProviders(component, command) then
      KeyList(set base | base in Bases(vars.Keys, component) && Wanted(command, base))
    else []
  }

  ghost predicate Plannable(vars: Vars, component: Component, command: Command) {
    UsesProviders(component, command) ==>
      && NoneInvalid(vars.Keys, component)
      && (forall base :: base in WantedBases(vars, component, command) ==> !Orphaned(vars, component, base))
  }

  /** The plan, independent of the order in which the environment lists its variables. */
  ghost function PlanOf(decoder: Decoder, vars: Vars, component: Component, command: Command): Plan {
    var bases := WantedBases(vars, component, command);
    Plan(FixedFiles(decoder, vars, component, command) + ProviderFiles(vars, component, bases),
         FixedValues(decoder, vars, component, command) + ProviderValues(vars, bases),
         Aliases(component, command))
  }

  // ---- building the plan ----

  lemma CategoryIsOfBase(component: Component, name: string)
    ensures Contribute(component, name).Base? ==>
              Contribute(component, name).category == CategoryOf(Contribute(component, name).base)
  {
  }

  lemma OneNameMore(names: set<string>, name: string, component: Component)
    ensures Bases(names + {name}, component)
         == Bases(names, component) + if Contribute(component, name).Base? then {Contribute(component, name).base} else {}
    ensures NoneInvalid(names + {name}, component) <==> NoneInvalid(names, component) && !Contribute(component, name).Invalid?
  {
    hide Contribute;
  }

  lemma NoNames(component: Component)
    ensures Bases({}, component) == {} && NoneInvalid({}, component)
  {
  }

  /** The variables are visited in any order. */
  method FindBases(vars: Vars, component: Component) returns (r: Option<map<string, string>>)
    ensures r.Some? <==> NoneInvalid(vars.Keys, component)
    ensures r.Some? ==> r.value.Keys == Bases(vars.Keys, component)
    ensures r.Some? ==> forall base :: base in r.value ==> r.value[base] == CategoryOf(base)
  {
    NoNames(component);
    hide Contribute, CategoryOf, Bases, NoneInvalid;
    var bases: map<string, string> := map[];
    var rest := vars.Keys;
    ghost var seen: set<string> := {};
    while rest != {}
      invariant seen + rest == vars.Keys
      invariant NoneInvalid(seen, component) && bases.Keys == Bases(seen, component)
      invariant forall base :: base in bases ==> bases[base] == CategoryOf(base)
      decreases |rest|
    {
      var name :| name in rest;
      CategoryIsOfBase(component, name);
      OneNameMore(seen, name, component);
      var found := Contribute(component, name);
      if found.Invalid? {
        InvalidShows(vars.Keys, name, component);
        return None;
      }
      if found.Base? {
        bases := bases[found.base := found.category];
      }
      seen, rest := seen + {name}, rest - {name};
    }
    assert seen == vars.Keys;
    return Some(bases);
  }

  lemma InvalidShows(names: set<string>, name: string, component: Component)
    requires name in names && Contribute(component, name).Invalid?
    ensures !NoneInvalid(names, component)
  {
  }

  lemma PlannableMeans(vars: Vars, component: Component, command: Command)
    requires UsesProviders(component, command)
    ensures Plannable(vars, component, command) <==>
              && NoneInvalid(vars.Keys, component)
              && (forall base :: base in WantedBases(vars, component, command) ==> !Orphaned(vars, component, base))
  {
  }

  lemma WantedAre(vars: Vars, component: Component, command: Command, bases: set<string>, wanted: set<string>)
    requires UsesProviders(component, command) && bases == Bases(vars.Keys, component)
    requires wanted == set base | base in bases && Wanted(command, base)
    ensures WantedBases(vars, component, command) == KeyList(wanted)
  {
    hide Bases, Wanted;
  }

  method ProviderPlan(vars: Vars, component: Component, command: Command)
      returns (r: Option<(seq<FileSpec>, seq<ValueSpec>)>)
    requires UsesProviders(component, command)
    ensures r.Some? <==> Plannable(vars, component, command)
    ensures r.Some? ==>
              r.value == (ProviderFiles(vars, component, WantedBases(vars, component, command)),
                          ProviderValues(vars, WantedBases(vars, component, command)))
  {
    hide CategoryOf, Orphaned, ProviderFiles, ProviderValues, Bases, NoneInvalid, UsesProviders, Wanted, WantedBases, Plannable;
    PlannableMeans(vars, component, command);
    var bases := FindBases(vars, component);
    if bases.None? {
      return None;
    }
    var wanted := set base | base in bases.value && Wanted(command, base);
    var keys := SortedKeys(wanted);
    WantedAre(vars, component, command, bases.value.Keys, wanted);
    r := ProviderSpecs(vars, component, keys);
  }

  method ProviderSpecs(vars: Vars, component: Component, keys: seq<string>)
      returns (r: Option<(seq<FileSpec>, seq<ValueSpec>)>)
    ensures r.Some? <==> forall base :: base in keys ==> !Orphaned(vars, component, base)
    ensures r.Some? ==> r.value == (ProviderFiles(vars, component, keys), ProviderValues(vars, keys))
  {
    hide Orphaned, BaseFiles, BaseValues, WithoutFiles;
    var files: seq<FileSpec> := [];
    var values: seq<ValueSpec> := [];
    for i := 0 to |keys|
      invariant forall base :: base in keys[..i] ==> !Orphaned(vars, component, base)
      invariant ProviderFiles(vars, component, keys) == files + ProviderFiles(vars, component, keys[i..])
      invariant ProviderValues(vars, keys) == values + ProviderValues(vars, keys[i..])
    {
      var base := keys[i];
      assert keys[..i + 1] == keys[..i] + [base] && keys[i..][1..] == keys[i + 1..] && base in keys;
      if Orphaned(vars, component, base) {
        return None;
      }
      var baseFiles := if WithoutFiles(component, base) then [] else BaseFiles(vars, base, SECRETS);
      var baseValues := BaseValues(vars, base, SECRETS);
      Assoc(files, baseFiles, ProviderFiles(vars, component, keys[i + 1..]));
      Assoc(values, baseValues, ProviderValues(vars, keys[i + 1..]));
      files := files + baseFiles;
      values := values + baseValues;
    }
    assert keys[..|keys|] == keys;
    NoProviders(vars, component);
    assert files + [] == files && values + [] == values;
    return Some((files, values));
  }

  lemma Assoc<T>(a: seq<T>, b: seq<T>, c: seq<T>)
    ensures a + (b + c) == a + b + c
  {
  }

  /** `secretPlan`. */
  method BuildPlan(decoder: Decoder, vars: Vars, component: Component, command: Command) returns (r: Option<Plan>)
    ensures r.Some? <==> Plannable(vars, component, command)
    ensures r.Some? ==> r.value == PlanOf(decoder, vars, component, command)
  {
    hide ServiceFiles, DatabaseFiles, DatabaseValues, VaultSpecs, ProviderFiles, ProviderValues, TelemetryUsesVault,
         SecretValues, Bases, Contribute, Orphaned;
    var files, values := FixedFiles(decoder, vars, component, command), FixedValues(decoder, vars, component, command);
    var aliases := Aliases(component, command);
    if UsesProviders(component, command) {
      var providers := ProviderPlan(vars, component, command);
      if providers.None? {
        return None;
      }
      files := files + providers.value.0;
      values := values + providers.value.1;
    } else {
      assert ProviderFiles(vars, component, []) == [] && ProviderValues(vars, []) == [] by {
        NoProviders(vars, component);
      }
    }
    return Some(Plan(files, values, aliases));
  }

  lemma NoProviders(vars: Vars, component: Component)
    ensures ProviderFiles(vars, component, []) == [] && ProviderValues(vars, []) == []
  {
  }
}
