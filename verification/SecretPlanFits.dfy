/** Where the entries of a plan lie, and how its aliases relate to them. */
module SecretPlanFits {
  import opened Text
  import opened ProcessEnvironment
  import opened ProviderConfiguration
  import opened SecretPlan
  import opened SecretPlanLaws
  import opened SecretPlanProviders
  import opened SecretFiles
  import opened SecretDirectories
  import opened SecretDirectoryLaws
  import opened SecretResolution
  import Paths
  import Decimal

  // ---- categories ----

  /** Only the two Vault entries live in the shared TLS directories. */
  predicate IsVaultSpec(f: FileSpec) {
    exists file :: file in VAULT_FILES && f.inline == file.inline && f.file == file.file && f.category == file.category
  }

  /** A directory below the managed root, by a clean path and away from the shared TLS directories. */
  predicate OwnDirectory(category: string) {
    NotShared(category) && CleanDirectory(Managed(category))
  }

  ghost predicate CategoriesFit(files: seq<FileSpec>) {
    forall f :: f in files ==> OwnDirectory(f.category) || IsVaultSpec(f)
  }

  lemma OtherStart(category: string)
    requires |category| < 4 || category[0] != 's'
    ensures NotShared(category)
  {
    assert "ssl/"[0] == 's';
  }

  lemma PlainCategories(category: string)
    requires category in ["tls", "apm", "sso", "database", "vault"]
    ensures OwnDirectory(category)
  {
    OtherStart(category);
    OneWord(category);
    OneDirectory(category);
  }

  predicate CleanDirectory(path: string) {
    path != "/" && Paths.IsAbs(path) && Paths.Clean(path) == path
  }

  lemma NotTheRoot(path: string, name: string)
    requires path != "" && Paths.IsAbs(path)
    ensures path + "/" + name != "/" && Paths.IsAbs(path + "/" + name)
  {
    assert |path + "/" + name| > 1;
  }

  lemma OneDirectory(name: string)
    requires Paths.IsName(name)
    ensures CleanDirectory(Managed(name))
  {
    RootsAreClean();
    hide Paths.Clean, Paths.Components, Paths.IsName, Paths.IsAbs;
    Paths.CleanJoin(MANAGED_ROOT, name);
    NotTheRoot(MANAGED_ROOT, name);
  }

  lemma TwoDirectories(first: string, second: string)
    requires Paths.IsName(first) && Paths.IsName(second)
    ensures CleanDirectory(Managed(first + "/" + second))
  {
    RootsAreClean();
    hide Paths.Clean, Paths.Components, Paths.IsName, Paths.IsAbs;
    TwoSteps(MANAGED_ROOT, first, second);
    NotTheRoot(MANAGED_ROOT, first + "/" + second);
  }

  lemma OneWord(category: string)
    requires category in ["tls", "apm", "sso", "database", "vault"]
    ensures Paths.IsName(category)
  {
  }

  lemma {:induction false} FilesHaveCategory(category: string, legacy: string, standard: bool, active: bool, names: seq<string>)
    requires OwnDirectory(category)
    ensures CategoriesFit(Files(category, legacy, standard, active, names))
    decreases |names|
  {
    hide OwnDirectory, IsVaultSpec;
    if names != [] { FilesHaveCategory(category, legacy, standard, active, names[1..]); }
  }

  lemma FilesFit(category: string, legacy: string, standard: bool, active: bool, names: seq<string>)
    requires category in ["tls", "apm", "sso", "database", "vault"]
    ensures CategoriesFit(Files(category, legacy, standard, active, names))
  {
    PlainCategories(category);
    FilesHaveCategory(category, legacy, standard, active, names);
  }

  lemma FitConcat(a: seq<FileSpec>, b: seq<FileSpec>)
    requires CategoriesFit(a) && CategoriesFit(b)
    ensures CategoriesFit(a + b)
  {
  }

  lemma BridgeFilesFit(vars: Vars)
    ensures CategoriesFit(ServiceFiles(vars, Bridge))
  {
    var enc := Enc(vars);
    var mode, connect := Get(vars, "ZBX_TLSMODE"), Get(vars, "ZBX_ZABBIXAPITLSCONNECT");
    var mutual, tls := EqualFold(mode, "mtls"), EqualFold(mode, "tls") || EqualFold(mode, "mtls");
    var api := EqualFold(connect, "verify_ca") || EqualFold(connect, "verify_full");
    hide Files, EqualFold, Enc, CategoriesFit;
    var a, b := Files("tls", enc, false, mutual, ["ZBX_TLSCA"]), Files("tls", enc, false, tls, ["ZBX_TLSCERT", "ZBX_TLSKEY"]);
    FilesFit("tls", enc, false, mutual, ["ZBX_TLSCA"]);
    FilesFit("tls", enc, false, tls, ["ZBX_TLSCERT", "ZBX_TLSKEY"]);
    FilesFit("tls", enc, false, api, ["ZBX_ZABBIXAPITLSCA"]);
    FitConcat(a, b);
    FitConcat(a + b, Files("tls", enc, false, api, ["ZBX_ZABBIXAPITLSCA"]));
  }

  lemma WebFilesFit(vars: Vars, component: Component)
    requires IsWeb(component)
    ensures CategoriesFit(ServiceFiles(vars, component))
  {
    var enc, active := Enc(vars), EnvEnabled(Get(vars, "ZBX_SERVER_TLS_ACTIVE"));
    hide Files, EnvEnabled, Enc, WebApmActive, CategoriesFit;
    var a, b := Files("tls", enc, false, active, SERVER_TLS), Files("sso", WEB_CERTS, false, true, SSO);
    FilesFit("tls", enc, false, active, SERVER_TLS);
    FilesFit("sso", WEB_CERTS, false, true, SSO);
    FilesFit("apm", "", false, WebApmActive(vars), ["ZBX_APM_CA"]);
    FitConcat(a, b);
    FitConcat(a + b, Files("apm", "", false, WebApmActive(vars), ["ZBX_APM_CA"]));
  }

  lemma ProxyFilesFit(vars: Vars, component: Component)
    requires IsProxy(component)
    ensures CategoriesFit(ServiceFiles(vars, component))
  {
    var enc, active := Enc(vars), EnvEnabled(Get(vars, "ZBX_STARTAPMCOLLECTOR"));
    hide Files, EnvEnabled, Enc, CategoriesFit;
    FilesFit("tls", enc, false, true, TLS_PSK);
    FilesFit("apm", "", false, active, APM_TLS);
    FitConcat(Files("tls", enc, false, true, TLS_PSK), Files("apm", "", false, active, APM_TLS));
  }

  lemma ServiceFilesFit(vars: Vars, component: Component)
    ensures CategoriesFit(ServiceFiles(vars, component))
  {
    if component.Bridge? {
      BridgeFilesFit(vars);
    } else if IsProxy(component) {
      ProxyFilesFit(vars, component);
    } else if IsWeb(component) {
      WebFilesFit(vars, component);
    } else {
      var enc, active := Enc(vars), ModeEnabled(vars, "cert", "ZBX_TLSACCEPT");
      hide Files, ModeEnabled, Enc, CategoriesFit;
      var names :=
        if component.Agent? || component.Agent2? then TLS_PSK
        else if component.WebService? then ["ZBX_TLSCA", "ZBX_TLSCERT", "ZBX_TLSKEY"]
        else if component.McpServer? then ["ZBX_TLSCERT", "ZBX_TLSKEY"]
        else TLS;
      FilesFit("tls", enc, false, (component.WebService? || component.McpServer?) ==> active, names);
    }
  }

  lemma VaultSpecsFit(component: Component, legacy: string, active: bool)
    ensures CategoriesFit(VaultSpecs(component, legacy, active, VAULT_FILES))
  {
    VaultSpecsUnfold(component, legacy, active);
    PlainCategories("vault");
    assert VAULT_FILES[0] in VAULT_FILES && VAULT_FILES[1] in VAULT_FILES;
    hide OwnDirectory, VaultSpecs;
  }

  /** The last directory of a provider's files. */
  function ProviderDirectory(base: string): string {
    if HISTORY_PREFIX <= base then "history-" + base[|HISTORY_PREFIX|..]
    else if TELEMETRY_PREFIX <= base then "telemetry-" + base[|TELEMETRY_PREFIX|..]
    else ""
  }

  lemma ProviderStart(base: string)
    ensures NotShared(CategoryOf(base))
  {
    hide NotShared;
    OtherStart(CategoryOf(base));
  }

  lemma DashedName(word: string, index: string)
    requires word != "" && '/' !in word && word[0] != '.' && Decimal.AllDigits(index)
    ensures Paths.IsName(word + index)
  {
    assert (word + index)[0] == word[0];
    assert forall i :: 0 <= i < |index| ==> Decimal.IsDigit(index[i]);
  }

  lemma ProviderDirectoryIsName(base: string)
    requires IsBase(base)
    ensures Paths.IsName(ProviderDirectory(base)) && Paths.IsName("providers")
    ensures CategoryOf(base) == "providers" + "/" + ProviderDirectory(base)
  {
    BasePrefixes(base);
    hide Paths.IsName;
    assert Paths.IsName("providers") by { DashedName("providers", ""); assert "providers" + "" == "providers"; }
    var history := HISTORY_PREFIX <= base;
    var index := if history then base[|HISTORY_PREFIX|..] else base[|TELEMETRY_PREFIX|..];
    if history {
      DashedName("history-", index);
      assert "providers/history-" + index == "providers" + "/" + ("history-" + index);
    } else {
      DashedName("telemetry-", index);
      assert "providers/telemetry-" + index == "providers" + "/" + ("telemetry-" + index);
    }
  }

  /** The two prefixes exclude each other. */
  lemma BasePrefixes(base: string)
    requires IsBase(base)
    ensures if HISTORY_PREFIX <= base then IsIndex(base[|HISTORY_PREFIX|..])
            else TELEMETRY_PREFIX <= base && IsIndex(base[|TELEMETRY_PREFIX|..])
  {
    assert HISTORY_PREFIX[4] != TELEMETRY_PREFIX[4];
    assert HISTORY_PREFIX <= base ==> base[4] == HISTORY_PREFIX[4];
    assert TELEMETRY_PREFIX <= base ==> base[4] == TELEMETRY_PREFIX[4];
  }

  lemma ProviderHeads(base: string)
    requires IsBase(base)
    ensures OwnDirectory(CategoryOf(base))
  {
    ProviderDirectoryIsName(base);
    ProviderStart(base);
    hide NotShared, IsBase, CategoryOf, ProviderDirectory, Paths.IsName, CleanDirectory;
    TwoDirectories("providers", ProviderDirectory(base));
  }

  lemma ProviderFilesFit(files: seq<FileSpec>, bases: seq<string>)
    requires CategoriesOf(files, bases) && forall base :: base in bases ==> IsBase(base)
    ensures CategoriesFit(files)
  {
    hide OwnDirectory, CategoryOf, IsVaultSpec, IsBase;
    forall f | f in files ensures OwnDirectory(f.category) {
      var base :| base in bases && f.category == CategoryOf(base);
      ProviderHeads(base);
    }
  }

  lemma DatabaseFilesFit(vars: Vars, component: Component)
    ensures CategoriesFit(DatabaseFiles(vars, component))
  {
    NothingFits();
    hide Files, EnvEnabled, CategoriesFit;
    var active := if IsWeb(component) then EnvEnabled(Get(vars, "ZBX_DB_ENCRYPTION")) else Get(vars, "ZBX_DBTLSCONNECT") != "";
    FilesFit("database", "", true, active, DB_TLS);
  }

  lemma FixedFilesFit(decoder: Decoder, vars: Vars, component: Component, command: Command)
    ensures CategoriesFit(FixedFiles(decoder, vars, component, command))
  {
    hide ServiceFiles, VaultSpecs, VaultActive, Enc, CategoriesFit;
    NothingFits();
    ServiceFilesFit(vars, component);
    DatabaseFilesFit(vars, component);
    hide DatabaseFiles;
    var legacy, active := if IsWeb(component) then WEB_CERTS else Enc(vars), VaultActive(decoder, vars, command);
    VaultSpecsFit(component, legacy, active);
    var service := if command.Service? then ServiceFiles(vars, component) else [];
    var database := if UsesDatabase(command) then DatabaseFiles(vars, component) else [];
    var vault := if UsesVault(component, command) then VaultSpecs(component, legacy, active, VAULT_FILES) else [];
    FitConcat(service, database);
    FitConcat(service + database, vault);
  }

  lemma NothingFits()
    ensures CategoriesFit([])
  {
  }

  lemma PlanCategories(decoder: Decoder, vars: Vars, component: Component, command: Command)
    ensures CategoriesFit(PlanOf(decoder, vars, component, command).files)
  {
    var bases := WantedBases(vars, component, command);
    WantedAreBases(vars, component, command);
    FixedFilesFit(decoder, vars, component, command);
    hide FixedFiles, ProviderFiles, CategoriesFit, WantedBases, FixedValues, ProviderValues;
    ProviderFilesHold(vars, component, bases);
    ProviderFilesFit(ProviderFiles(vars, component, bases), bases);
    FitConcat(FixedFiles(decoder, vars, component, command), ProviderFiles(vars, component, bases));
  }

  lemma FileIsName(f: FileSpec)
    requires GoodStem(f.inline) && f.file == f.inline + "FILE"
    ensures Paths.IsName(f.file)
  {
    assert '/' !in "FILE";
  }

  lemma VaultCategoryIsShared(f: FileSpec)
    requires IsVaultSpec(f)
    ensures exists kind :: IsShared(kind) && f.category == SharedCategory(kind)
  {
    assert "ssl" + "/" + "certs" == "ssl/certs" && "ssl" + "/" + "keys" == "ssl/keys";
    assert f.category == SharedCategory("certs") || f.category == SharedCategory("keys");
    assert IsShared("certs") && IsShared("keys");
  }

  /** Every managed file of a plan is named by its clean path, which leads to the last directory of its category. */
  lemma ManagedPathsAreClean(plan: Plan, f: FileSpec)
    requires Apart(plan) && CategoriesFit(plan.files) && f in plan.files
    ensures Paths.IsAbs(ManagedPath(f)) && Paths.Clean(ManagedPath(f)) == ManagedPath(f)
    ensures Paths.Components(ManagedPath(f)) == Paths.Components(Managed(f.category)) + [f.file]
  {
    InlineIsStem(plan, f);
    FileIsName(f);
    hide Group, GoodStem, NotShared, Paths.Clean, Paths.Components, Paths.IsName, IsVaultSpec, IsShared;
    assert ManagedPath(f) == Managed(f.category) + "/" + f.file;
    if IsVaultSpec(f) {
      VaultCategoryIsShared(f);
      var kind :| IsShared(kind) && f.category == SharedCategory(kind);
      SharedTarget(kind, f.file);
    } else {
      Paths.CleanJoin(Managed(f.category), f.file);
    }
  }

  /** The service of a server or proxy always plans both Vault entries. */
  ghost predicate HasVaultSpecs(files: seq<FileSpec>) {
    forall file :: file in VAULT_FILES ==>
      exists f :: f in files && f.inline == file.inline && f.file == file.file && f.category == file.category
  }

  lemma ServicePlansVault(decoder: Decoder, vars: Vars, component: Component)
    requires IsServer(component) || IsProxy(component)
    ensures HasVaultSpecs(PlanOf(decoder, vars, component, Service).files)
  {
    var legacy, active := Enc(vars), VaultActive(decoder, vars, Service);
    VaultSpecsUnfold(component, legacy, active);
    hide ServiceFiles, VaultSpecs, VaultActive, Enc, DatabaseFiles, ProviderFiles, WantedBases, FixedValues, ProviderValues;
    var plan := PlanOf(decoder, vars, component, Service);
    var specs := VaultSpecs(component, legacy, active, VAULT_FILES);
    assert forall f :: f in specs ==> f in plan.files;
    assert specs[0] in specs && specs[1] in specs;
    forall file | file in VAULT_FILES
      ensures exists f :: f in plan.files && f.inline == file.inline && f.file == file.file && f.category == file.category
    {
      var spec := if file == VAULT_FILES[0] then specs[0] else specs[1];
      assert spec in plan.files;
    }
  }

  // ---- aliases ----

  /** A few characters that tell the names of all aliases apart. */
  function AliasKey(name: string): (nat, char, char) {
    if |name| < 7 then (0, ' ', ' ') else (|name|, name[4], name[6])
  }

  /** The two names of an alias are found under these keys. */
  predicate KeysAre(a: Alias, legacy: (nat, char, char), canonical: (nat, char, char)) {
    AliasKey(a.legacy) == legacy && AliasKey(a.canonical) == canonical
  }

  lemma VaultKeys()
    ensures |VAULT_ALIASES| == 2
    ensures KeysAre(VAULT_ALIASES[0], (17, 'V', 'U'), (20, 'V', 'U'))
    ensures KeysAre(VAULT_ALIASES[1], (16, 'V', 'U'), (19, 'V', 'U'))
  {
  }

  lemma WebKeys()
    ensures |WEB_ALIASES| == 3
    ensures KeysAre(WEB_ALIASES[0], (14, 'D', '_'), (15, 'D', 'T'))
    ensures KeysAre(WEB_ALIASES[1], (16, 'D', '_'), (17, 'D', 'T'))
    ensures KeysAre(WEB_ALIASES[2], (15, 'D', '_'), (16, 'D', 'T'))
  {
  }

  lemma PlannedAliases()
    ensures AliasesApart(VAULT_ALIASES + WEB_ALIASES) && AliasesApart(VAULT_ALIASES)
  {
    VaultKeys();
    WebKeys();
    ApartByKey(VAULT_ALIASES, WEB_ALIASES);
  }

  lemma ApartByKey(a: seq<Alias>, b: seq<Alias>)
    requires |a| == 2 && |b| == 3
    requires KeysAre(a[0], (17, 'V', 'U'), (20, 'V', 'U')) && KeysAre(a[1], (16, 'V', 'U'), (19, 'V', 'U'))
    requires KeysAre(b[0], (14, 'D', '_'), (15, 'D', 'T')) && KeysAre(b[1], (16, 'D', '_'), (17, 'D', 'T'))
    requires KeysAre(b[2], (15, 'D', '_'), (16, 'D', 'T'))
    ensures AliasesApart(a + b) && AliasesApart(a)
  {
    hide AliasKey;
    var all := a + b;
    assert all[0] == a[0] && all[1] == a[1] && all[2] == b[0] && all[3] == b[1] && all[4] == b[2];
    forall i, j | 0 <= i < j < 5 ensures AliasNames(all[i]) !! AliasNames(all[j]) {
      assert i == 0 || i == 1 || i == 2 || i == 3;
      assert j == 1 || j == 2 || j == 3 || j == 4;
    }
    forall x | x in all ensures x.legacy != x.canonical {
      var i :| 0 <= i < 5 && all[i] == x;
    }
    assert forall i :: 0 <= i < 2 ==> all[i] == a[i];
    assert forall x :: x in a ==> x in all;
  }

  /** A legacy name is no variable of an entry. */
  predicate LooksLegacy(name: string) {
    && |name| >= 10 && name[|name| - 4..] == "FILE"
    && (name[|name| - 5] != '_' ==> 8 <= Group(name[..|name| - 4]) < 20)
    && (name[|name| - 5] == '_' ==> Group(name[..|name| - 5]) < 10)
  }

  lemma LegacyIsNoEntry(plan: Plan, name: string)
    requires Apart(plan) && LooksLegacy(name)
    ensures name !in PlanVariables(plan)
  {
    hide Group;
    forall f | f in plan.files ensures name !in FileVariables(f) {
      InlineIsStem(plan, f);
      FileIsNotLegacy(f, name);
    }
    forall v | v in plan.values ensures name !in ValueVariables(v) {
      NameIsStem(plan, v);
      ValueIsNotLegacy(v, name);
    }
  }

  lemma InlineIsStem(plan: Plan, f: FileSpec)
    requires Apart(plan) && f in plan.files
    ensures GoodStem(f.inline) && GoodFile(f) && !(8 <= Group(f.inline) < 20)
  {
    hide Group, GoodStem, GoodFile;
    var i :| 0 <= i < |plan.files| && plan.files[i] == f;
    assert Inlines(plan.files)[i] == f.inline;
    assert f.inline in Inlines(plan.files) + Names(plan.values);
  }

  lemma NameIsStem(plan: Plan, v: ValueSpec)
    requires Apart(plan) && v in plan.values
    ensures GoodStem(v.name) && Group(v.name) >= 10
  {
    hide Group, GoodStem, GoodFile;
    var i :| 0 <= i < |plan.values| && plan.values[i] == v;
    assert Names(plan.values)[i] == v.name;
    assert v.name in Inlines(plan.files) + Names(plan.values);
  }

  lemma FileIsNotLegacy(f: FileSpec, name: string)
    requires GoodStem(f.inline) && GoodFile(f) && !(8 <= Group(f.inline) < 20) && LooksLegacy(name)
    ensures name !in FileVariables(f)
  {
    hide Group, GoodCategory;
    assert name[|name| - 4] == name[|name| - 4..][0] == 'F';
    assert f.file[..|f.file| - 4] == f.inline && f.file[|f.file| - 5] == f.inline[|f.inline| - 1];
  }

  lemma ValueIsNotLegacy(v: ValueSpec, name: string)
    requires GoodStem(v.name) && Group(v.name) >= 10 && LooksLegacy(name)
    ensures name !in ValueVariables(v)
  {
    hide Group;
    var file := v.name + "_FILE";
    assert name[|name| - 4] == name[|name| - 4..][0] == 'F';
    assert file[..|file| - 5] == v.name && file[|file| - 5] == '_';
  }

  lemma VaultAliasesLookLegacy()
    ensures LooksLegacy("ZBX_VAULTCERTFILE") && LooksLegacy("ZBX_VAULTKEYFILE")
  {
  }

  lemma WebAliasesLookLegacy()
    ensures LooksLegacy("ZBX_DB_CA_FILE") && LooksLegacy("ZBX_DB_CERT_FILE") && LooksLegacy("ZBX_DB_KEY_FILE")
  {
  }

  // ---- plans that resolution can work with ----

  ghost predicate Fit(component: Component, command: Command, plan: Plan) {
    && Apart(plan) && CategoriesFit(plan.files) && AliasesApart(plan.aliases)
    && (forall a :: a in plan.aliases ==> LooksLegacy(a.legacy))
    && ((IsServer(component) || IsProxy(component)) && command.Service? ==> HasVaultSpecs(plan.files))
  }

  lemma AliasesFit(component: Component, command: Command)
    ensures AliasesApart(Aliases(component, command))
    ensures forall a :: a in Aliases(component, command) ==> LooksLegacy(a.legacy)
  {
    PlannedAliases();
    VaultAliasesLookLegacy();
    WebAliasesLookLegacy();
    hide LooksLegacy, AliasNames;
    assert IsWeb(component) && command.Service? ==> UsesVault(component, command);
    assert VAULT_ALIASES + [] == VAULT_ALIASES;
  }

  /** Every plan fits. */
  lemma PlanFits(decoder: Decoder, vars: Vars, component: Component, command: Command)
    ensures Fit(component, command, PlanOf(decoder, vars, component, command))
  {
    PlanIsApart(decoder, vars, component, command);
    PlanCategories(decoder, vars, component, command);
    AliasesFit(component, command);
    if (IsServer(component) || IsProxy(component)) && command.Service? {
      ServicePlansVault(decoder, vars, component);
    }
    hide Apart, CategoriesFit, HasVaultSpecs, LooksLegacy, AliasesApart, Aliases, FixedFiles, FixedValues, ProviderFiles,
         ProviderValues, WantedBases;
  }
}
