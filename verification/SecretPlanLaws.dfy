/** The entries of every plan are apart: no two share a variable or a managed file. */
module SecretPlanLaws {
  import opened Text
  import opened ProcessEnvironment
  import opened ProviderConfiguration
  import opened SecretPlan

  const MANAGED_ROOT := "/run/zabbix/secrets_internal"

  /** Where the image keeps the bytes of a secret that was given in a variable. */
  function ManagedPath(spec: FileSpec): string {
    MANAGED_ROOT + "/" + spec.category + "/" + spec.file
  }

  predicate Distinct(names: seq<string>) {
    forall i, j :: 0 <= i < j < |names| ==> names[i] != names[j]
  }

  function Inlines(files: seq<FileSpec>): (r: seq<string>)
    ensures |r| == |files| && forall i :: 0 <= i < |r| ==> r[i] == files[i].inline
  {
    if files == [] then [] else [files[0].inline] + Inlines(files[1..])
  }

  function Names(values: seq<ValueSpec>): (r: seq<string>)
    ensures |r| == |values| && forall i :: 0 <= i < |r| ==> r[i] == values[i].name
  {
    if values == [] then [] else [values[0].name] + Names(values[1..])
  }

  /** A name that looks neither like the file variable of another one nor like a location. */
  predicate GoodStem(name: string) {
    && |name| >= 4 && name[|name| - 1] != '_' && name[|name| - 4] != 'F' && name[|name| - 2] != 'O' && '/' !in name
  }

  /** No directory of certificates lies on the way. */
  predicate GoodCategory(category: string) {
    forall i :: 0 <= i < |category| - 2 ==> !(category[i] == '/' && category[i + 1] == 'c' && category[i + 2] == 'a')
  }

  ghost predicate GoodFile(f: FileSpec) {
    f.file == f.inline + "FILE" && GoodCategory(f.category)
  }

  /** A number that grows along the registry. */
  function Group(name: string): nat {
    if |name| < 9 then 99
    else if name[0] == 'M' then 10
    else if name[0] == 'P' then 11
    else if name[0] == 'V' then 12
    else if name[4] == 'T' then if name[5] == 'E' then 20 else 0
    else if name[4] == 'Z' then 1
    else if name[4] == 'A' then if name[7] == 'T' then 2 else 5
    else if name[4] == 'S' then if name[5] == 'E' then 3 else 4
    else if name[4] == 'D' then 6
    else if name[4] == 'H' then 21
    else if |name| > 9 && name[9] == 'T' then 7
    else 13
  }

  /** The variables of all entries come from different stems. */
  ghost predicate Apart(plan: Plan) {
    && Distinct(Inlines(plan.files) + Names(plan.values))
    && (forall name :: name in Inlines(plan.files) + Names(plan.values) ==> GoodStem(name))
    && (forall f :: f in plan.files ==> GoodFile(f) && !(8 <= Group(f.inline) < 20))
    && (forall v :: v in plan.values ==> Group(v.name) >= 10)
  }

  // ---- what being apart gives ----

  function FileVariables(f: FileSpec): set<string> {
    {f.inline, f.file}
  }

  function ValueVariables(v: ValueSpec): set<string> {
    {v.name, v.name + "_FILE"}
  }

  function StemVariables(name: string): set<string> {
    {name, name + "FILE", name + "_FILE"}
  }

  lemma StemsAreApart(m: string, n: string)
    requires GoodStem(m) && GoodStem(n) && m != n
    ensures StemVariables(m) !! StemVariables(n)
  {
    EndsAreApart(m, n);
    EndsAreApart(n, m);
  }

  lemma EndsAreApart(m: string, n: string)
    requires GoodStem(m) && GoodStem(n) && m != n
    ensures m + "FILE" != n && m + "_FILE" != n && m + "FILE" != n + "FILE" && m + "_FILE" != n + "_FILE"
    ensures m + "FILE" != n + "_FILE"
  {
    var file, other := m + "FILE", m + "_FILE";
    assert file[|file| - 4] == 'F' && other[|other| - 4] == 'F';
    assert file[..|file| - 4] == m && other[..|other| - 5] == m;
    assert (n + "FILE")[..|n|] == n && (n + "_FILE")[..|n|] == n;
    assert file[|m| - 1] == m[|m| - 1] && (n + "_FILE")[|n|] == '_';
  }

  ghost function Stems(plan: Plan): seq<string> {
    Inlines(plan.files) + Names(plan.values)
  }

  /**
   Main result: two entries of a plan never share a variable, and two file entries never share a
   managed path.
   */
  lemma EntriesAreApart(plan: Plan)
    requires Apart(plan)
    ensures forall i, j :: 0 <= i < j < |plan.files| ==>
              FileVariables(plan.files[i]) !! FileVariables(plan.files[j])
              && ManagedPath(plan.files[i]) != ManagedPath(plan.files[j])
    ensures forall i, j :: 0 <= i < j < |plan.values| ==>
              ValueVariables(plan.values[i]) !! ValueVariables(plan.values[j])
    ensures forall f, v :: f in plan.files && v in plan.values ==> FileVariables(f) !! ValueVariables(v)
  {
    hide Apart, FileVariables, ValueVariables, ManagedPath;
    forall i, j | 0 <= i < j < |plan.files|
      ensures FileVariables(plan.files[i]) !! FileVariables(plan.files[j])
           && ManagedPath(plan.files[i]) != ManagedPath(plan.files[j])
    {
      TwoFilesApart(plan, i, j);
    }
    forall i, j | 0 <= i < j < |plan.values| ensures ValueVariables(plan.values[i]) !! ValueVariables(plan.values[j]) {
      TwoValuesApart(plan, i, j);
    }
    forall f, v | f in plan.files && v in plan.values ensures FileVariables(f) !! ValueVariables(v) {
      FileAndValueApart(plan, f, v);
    }
  }

  lemma TwoFilesApart(plan: Plan, i: nat, j: nat)
    requires Apart(plan) && i < j < |plan.files|
    ensures FileVariables(plan.files[i]) !! FileVariables(plan.files[j])
    ensures ManagedPath(plan.files[i]) != ManagedPath(plan.files[j])
  {
    var stems := Stems(plan);
    assert stems[i] == plan.files[i].inline && stems[j] == plan.files[j].inline;
    assert stems[i] in stems && stems[j] in stems;
    hide GoodStem, GoodFile, FileVariables, ManagedPath;
    TwoFiles(plan.files[i], plan.files[j]);
  }

  lemma TwoValuesApart(plan: Plan, i: nat, j: nat)
    requires Apart(plan) && i < j < |plan.values|
    ensures ValueVariables(plan.values[i]) !! ValueVariables(plan.values[j])
  {
    var stems, n := Stems(plan), |plan.files|;
    assert stems[n + i] == plan.values[i].name && stems[n + j] == plan.values[j].name;
    assert stems[n + i] in stems && stems[n + j] in stems;
    hide GoodStem;
    StemsAreApart(plan.values[i].name, plan.values[j].name);
    assert ValueVariables(plan.values[i]) <= StemVariables(plan.values[i].name);
    assert ValueVariables(plan.values[j]) <= StemVariables(plan.values[j].name);
  }

  lemma FileAndValueApart(plan: Plan, f: FileSpec, v: ValueSpec)
    requires Apart(plan) && f in plan.files && v in plan.values
    ensures FileVariables(f) !! ValueVariables(v)
  {
    var stems, n := Stems(plan), |plan.files|;
    var i :| 0 <= i < n && plan.files[i] == f;
    var j :| 0 <= j < |plan.values| && plan.values[j] == v;
    assert stems[i] == f.inline && stems[n + j] == v.name;
    assert stems[i] in stems && stems[n + j] in stems;
    hide GoodStem;
    StemsAreApart(f.inline, v.name);
    assert FileVariables(f) <= StemVariables(f.inline) && ValueVariables(v) <= StemVariables(v.name);
  }

  lemma TwoFiles(f: FileSpec, g: FileSpec)
    requires GoodFile(f) && GoodFile(g) && GoodStem(f.inline) && GoodStem(g.inline) && f.inline != g.inline
    ensures FileVariables(f) !! FileVariables(g) && ManagedPath(f) != ManagedPath(g)
  {
    StemsAreApart(f.inline, g.inline);
    assert FileVariables(f) <= StemVariables(f.inline) && FileVariables(g) <= StemVariables(g.inline);
    assert f.file != g.file && '/' !in f.file && '/' !in g.file;
    LastElementShows(MANAGED_ROOT + "/" + f.category, f.file, MANAGED_ROOT + "/" + g.category, g.file);
  }

  lemma LastElementShows(a: string, m: string, b: string, n: string)
    requires '/' !in m && '/' !in n
    ensures a + "/" + m == b + "/" + n ==> m == n && a == b
  {
    var s, t := a + "/" + m, b + "/" + n;
    if s == t {
      assert s[|a|] == '/' && t[|b|] == '/';
      assert forall i :: |a| < i < |s| ==> s[i] == m[i - |a| - 1] && s[i] in m;
      assert forall i :: |b| < i < |t| ==> t[i] == n[i - |b| - 1] && t[i] in n;
      assert |a| == |b|;
      assert s[|a| + 1..] == m && t[|b| + 1..] == n && s[..|a|] == a && t[..|b|] == b;
    }
  }

  // ---- the fixed names, told apart by a few characters ----

  predicate Grouped(names: seq<string>, from: nat, to: nat) {
    && Distinct(names)
    && forall name :: name in names ==> from <= Group(name) < to && GoodStem(name)
  }

  lemma GroupedConcat(a: seq<string>, b: seq<string>, from: nat, middle: nat, to: nat)
    requires from <= middle <= to && Grouped(a, from, middle) && Grouped(b, middle, to)
    ensures Grouped(a + b, from, to)
  {
    hide Group, GoodStem;
    forall i, j | 0 <= i < j < |a + b| ensures (a + b)[i] != (a + b)[j] {
      if i < |a| <= j {
        assert (a + b)[i] in a && (a + b)[j] in b;
      }
    }
  }

  lemma DistinctConcat(a: seq<string>, b: seq<string>)
    requires Distinct(a) && Distinct(b) && forall x :: x in a ==> x !in b
    ensures Distinct(a + b)
  {
    forall i, j | 0 <= i < j < |a + b| ensures (a + b)[i] != (a + b)[j] {
      if i < |a| <= j {
        assert (a + b)[i] in a && (a + b)[j] in b;
      }
    }
  }

  predicate InGroup(name: string, from: nat, to: nat) {
    from <= Group(name) < to && GoodStem(name)
  }

  lemma Two(a: string, b: string, from: nat, to: nat)
    requires InGroup(a, from, to) && InGroup(b, from, to) && a != b
    ensures Grouped([a, b], from, to)
  {
    hide Group, GoodStem;
  }

  lemma Three(a: string, b: string, c: string, from: nat, to: nat)
    requires InGroup(a, from, to) && InGroup(b, from, to) && InGroup(c, from, to) && a != b && a != c && b != c
    ensures Grouped([a, b, c], from, to)
  {
    hide Group, GoodStem;
  }

  lemma Four(a: string, b: string, c: string, d: string, from: nat, to: nat)
    requires InGroup(a, from, to) && InGroup(b, from, to) && InGroup(c, from, to) && InGroup(d, from, to)
    requires a != b && a != c && a != d && b != c && b != d && c != d
    ensures Grouped([a, b, c, d], from, to)
  {
    hide Group, GoodStem;
  }

  lemma CertificateNames()
    ensures Grouped(["ZBX_TLSCERT", "ZBX_TLSKEY"], 0, 1)
  {
    Two("ZBX_TLSCERT", "ZBX_TLSKEY", 0, 1);
  }

  lemma ServiceTlsNames()
    ensures Grouped(["ZBX_TLSCA", "ZBX_TLSCERT", "ZBX_TLSKEY"], 0, 1)
  {
    Three("ZBX_TLSCA", "ZBX_TLSCERT", "ZBX_TLSKEY", 0, 1);
  }

  lemma TlsNames()
    ensures Grouped(TLS, 0, 1)
  {
    Four("ZBX_TLSCA", "ZBX_TLSCRL", "ZBX_TLSCERT", "ZBX_TLSKEY", 0, 1);
  }

  lemma PskName()
    ensures InGroup("ZBX_TLSPSK", 0, 1) && forall name :: name in TLS ==> name != "ZBX_TLSPSK"
  {
  }

  lemma PskNames()
    ensures Grouped(TLS_PSK, 0, 1)
  {
    TlsNames();
    PskName();
    hide Group, GoodStem;
    assert TLS_PSK == TLS + ["ZBX_TLSPSK"];
    DistinctConcat(TLS, ["ZBX_TLSPSK"]);
  }

  lemma ApiNames()
    ensures Grouped(["ZBX_ZABBIXAPITLSCA"], 1, 2)
  {
  }

  lemma ApmTlsNames()
    ensures Grouped(APM_TLS, 2, 3)
  {
    Three("ZBX_APMTLSCA", "ZBX_APMTLSCERT", "ZBX_APMTLSKEY", 2, 3);
  }

  lemma ServerTlsNames()
    ensures Grouped(SERVER_TLS, 3, 4)
  {
    Three("ZBX_SERVER_TLS_CA", "ZBX_SERVER_TLS_CERT", "ZBX_SERVER_TLS_KEY", 3, 4);
  }

  lemma SsoNames()
    ensures Grouped(SSO, 4, 5)
  {
    Three("ZBX_SSO_SP_KEY", "ZBX_SSO_SP_CERT", "ZBX_SSO_IDP_CERT", 4, 5);
  }

  lemma ApmNames()
    ensures Grouped(["ZBX_APM_CA"], 5, 6)
  {
  }

  lemma DatabaseTlsNames()
    ensures Grouped(DB_TLS, 6, 7)
  {
    Three("ZBX_DBTLSCA", "ZBX_DBTLSCERT", "ZBX_DBTLSKEY", 6, 7);
  }

  lemma VaultTlsNames()
    ensures Grouped(["ZBX_VAULTTLSCERT", "ZBX_VAULTTLSKEY"], 7, 8)
  {
    Two("ZBX_VAULTTLSCERT", "ZBX_VAULTTLSKEY", 7, 8);
  }

  lemma MysqlNames()
    ensures Grouped(["MYSQL_USER", "MYSQL_PASSWORD", "MYSQL_ROOT_USER", "MYSQL_ROOT_PASSWORD"], 10, 12)
  {
    Four("MYSQL_USER", "MYSQL_PASSWORD", "MYSQL_ROOT_USER", "MYSQL_ROOT_PASSWORD", 10, 12);
  }

  lemma PostgresNames()
    ensures Grouped(["POSTGRES_USER", "POSTGRES_PASSWORD"], 10, 12)
  {
    Two("POSTGRES_USER", "POSTGRES_PASSWORD", 10, 12);
  }

  lemma VaultNames()
    ensures Grouped(VAULT_VALUES, 12, 14)
  {
    Three("VAULT_TOKEN", "ZBX_VAULTAPPROLEID", "ZBX_VAULTAPPSECRETID", 12, 14);
  }

  // ---- the fixed entries ----

  ghost predicate AllGood(files: seq<FileSpec>) {
    forall f :: f in files ==> GoodFile(f)
  }

  ghost predicate GroupedFiles(files: seq<FileSpec>, from: nat, to: nat) {
    Grouped(Inlines(files), from, to) && AllGood(files)
  }

  lemma {:induction false} InlinesConcat(a: seq<FileSpec>, b: seq<FileSpec>)
    ensures Inlines(a + b) == Inlines(a) + Inlines(b)
  {
  }

  lemma {:induction false} NamesConcat(a: seq<ValueSpec>, b: seq<ValueSpec>)
    ensures Names(a + b) == Names(a) + Names(b)
  {
  }

  lemma GroupedFilesConcat(a: seq<FileSpec>, b: seq<FileSpec>, from: nat, middle: nat, to: nat)
    requires from <= middle <= to && GroupedFiles(a, from, middle) && GroupedFiles(b, middle, to)
    ensures GroupedFiles(a + b, from, to)
  {
    InlinesConcat(a, b);
    hide Grouped, GoodFile;
    GroupedConcat(Inlines(a), Inlines(b), from, middle, to);
  }

  lemma {:induction false} FilesHold(category: string, legacy: string, standard: bool, active: bool, names: seq<string>)
    requires GoodCategory(category)
    ensures Inlines(Files(category, legacy, standard, active, names)) == names
    ensures AllGood(Files(category, legacy, standard, active, names))
    decreases |names|
  {
    if names != [] {
      FilesHold(category, legacy, standard, active, names[1..]);
      assert names == [names[0]] + names[1..];
    }
  }

  lemma {:induction false} ValuesHold(category: string, active: bool, names: seq<string>)
    ensures Names(SecretValues(category, active, names)) == names
    decreases |names|
  {
    if names != [] {
      ValuesHold(category, active, names[1..]);
      assert names == [names[0]] + names[1..];
    }
  }

  lemma FixedCategories(category: string)
    requires category in ["tls", "apm", "sso", "database", "vault", "ssl/certs", "ssl/keys"]
    ensures GoodCategory(category)
  {
  }

  lemma FilesAreGrouped(category: string, legacy: string, standard: bool, active: bool, names: seq<string>, from: nat, to: nat)
    requires category in ["tls", "apm", "sso", "database"] && Grouped(names, from, to)
    ensures GroupedFiles(Files(category, legacy, standard, active, names), from, to)
  {
    FixedCategories(category);
    FilesHold(category, legacy, standard, active, names);
  }

  lemma Widen(files: seq<FileSpec>, from: nat, to: nat, lower: nat, higher: nat)
    requires lower <= from <= to <= higher && GroupedFiles(files, from, to)
    ensures GroupedFiles(files, lower, higher)
  {
    hide Group, GoodStem, GoodFile;
  }

  lemma TlsCaName()
    ensures Grouped(["ZBX_TLSCA"], 0, 1) && forall name :: name in ["ZBX_TLSCA"] ==> name !in ["ZBX_TLSCERT", "ZBX_TLSKEY"]
  {
  }

  /** The bridge switches the authority and the certificate of its listener separately. */
  lemma ListenerFiles(enc: string, mutual: bool, tls: bool)
    ensures GroupedFiles(Files("tls", enc, false, mutual, ["ZBX_TLSCA"])
                         + Files("tls", enc, false, tls, ["ZBX_TLSCERT", "ZBX_TLSKEY"]), 0, 1)
  {
    TlsCaName();
    CertificateNames();
    hide Group, GoodStem, GoodFile;
    var a, b := Files("tls", enc, false, mutual, ["ZBX_TLSCA"]), Files("tls", enc, false, tls, ["ZBX_TLSCERT", "ZBX_TLSKEY"]);
    FixedCategories("tls");
    FilesHold("tls", enc, false, mutual, ["ZBX_TLSCA"]);
    FilesHold("tls", enc, false, tls, ["ZBX_TLSCERT", "ZBX_TLSKEY"]);
    hide Files, GoodCategory;
    InlinesConcat(a, b);
    DistinctConcat(Inlines(a), Inlines(b));
  }

  lemma BridgeFiles(vars: Vars)
    ensures GroupedFiles(ServiceFiles(vars, Bridge), 0, 6)
  {
    var enc := Enc(vars);
    var mode, connect := Get(vars, "ZBX_TLSMODE"), Get(vars, "ZBX_ZABBIXAPITLSCONNECT");
    var mutual, tls := EqualFold(mode, "mtls"), EqualFold(mode, "tls") || EqualFold(mode, "mtls");
    var api := EqualFold(connect, "verify_ca") || EqualFold(connect, "verify_full");
    hide Files, EqualFold, Enc, Grouped, GroupedFiles;
    var a := Files("tls", enc, false, mutual, ["ZBX_TLSCA"]) + Files("tls", enc, false, tls, ["ZBX_TLSCERT", "ZBX_TLSKEY"]);
    var c := Files("tls", enc, false, api, ["ZBX_ZABBIXAPITLSCA"]);
    ApiNames();
    ListenerFiles(enc, mutual, tls);
    FilesAreGrouped("tls", enc, false, api, ["ZBX_ZABBIXAPITLSCA"], 1, 2);
    GroupedFilesConcat(a, c, 0, 1, 2);
    Widen(a + c, 0, 2, 0, 6);
  }

  lemma ProxyFiles(vars: Vars, component: Component)
    requires IsProxy(component)
    ensures GroupedFiles(ServiceFiles(vars, component), 0, 6)
  {
    var enc, active := Enc(vars), EnvEnabled(Get(vars, "ZBX_STARTAPMCOLLECTOR"));
    PskNames();
    ApmTlsNames();
    hide Grouped, GroupedFiles, Files, EnvEnabled, Enc;
    FilesAreGrouped("tls", enc, false, true, TLS_PSK, 0, 1);
    FilesAreGrouped("apm", "", false, active, APM_TLS, 2, 3);
    Widen(Files("apm", "", false, active, APM_TLS), 2, 3, 1, 6);
    GroupedFilesConcat(Files("tls", enc, false, true, TLS_PSK), Files("apm", "", false, active, APM_TLS), 0, 1, 6);
  }

  lemma WebFiles(vars: Vars, component: Component)
    requires IsWeb(component)
    ensures GroupedFiles(ServiceFiles(vars, component), 0, 6)
  {
    var enc, active := Enc(vars), EnvEnabled(Get(vars, "ZBX_SERVER_TLS_ACTIVE"));
    ServerTlsNames();
    SsoNames();
    ApmNames();
    hide Grouped, GroupedFiles, Files, EnvEnabled, Enc, WebApmActive;
    var a, b := Files("tls", enc, false, active, SERVER_TLS), Files("sso", WEB_CERTS, false, true, SSO);
    var c := Files("apm", "", false, WebApmActive(vars), ["ZBX_APM_CA"]);
    FilesAreGrouped("tls", enc, false, active, SERVER_TLS, 3, 4);
    FilesAreGrouped("sso", WEB_CERTS, false, true, SSO, 4, 5);
    FilesAreGrouped("apm", "", false, WebApmActive(vars), ["ZBX_APM_CA"], 5, 6);
    GroupedFilesConcat(a, b, 3, 4, 5);
    GroupedFilesConcat(a + b, c, 3, 5, 6);
    Widen(a + b + c, 3, 6, 0, 6);
  }

  lemma ServiceFilesAreGrouped(vars: Vars, component: Component)
    ensures GroupedFiles(ServiceFiles(vars, component), 0, 6)
  {
    if component.Bridge? {
      BridgeFiles(vars);
    } else if IsProxy(component) {
      ProxyFiles(vars, component);
    } else if IsWeb(component) {
      WebFiles(vars, component);
    } else {
      var enc, active := Enc(vars), ModeEnabled(vars, "cert", "ZBX_TLSACCEPT");
      PskNames();
      TlsNames();
      ServiceTlsNames();
      CertificateNames();
      hide Grouped, ModeEnabled, Enc;
      var names :=
        if component.Agent? || component.Agent2? then TLS_PSK
        else if component.WebService? then ["ZBX_TLSCA", "ZBX_TLSCERT", "ZBX_TLSKEY"]
        else if component.McpServer? then ["ZBX_TLSCERT", "ZBX_TLSKEY"]
        else TLS;
      var on := (component.WebService? || component.McpServer?) ==> active;
      FilesAreGrouped("tls", enc, false, on, names, 0, 1);
      Widen(Files("tls", enc, false, on, names), 0, 1, 0, 6);
    }
  }

  lemma DatabaseFilesAreGrouped(vars: Vars, component: Component)
    ensures GroupedFiles(DatabaseFiles(vars, component), 6, 7)
  {
    DatabaseTlsNames();
    hide Grouped, EnvEnabled;
    if UsesDatabaseTls(component) {
      var active := if IsWeb(component) then EnvEnabled(Get(vars, "ZBX_DB_ENCRYPTION")) else Get(vars, "ZBX_DBTLSCONNECT") != "";
      FilesAreGrouped("database", "", true, active, DB_TLS, 6, 7);
    } else {
      NothingIsGrouped(6, 7);
    }
  }

  lemma NothingIsGrouped(from: nat, to: nat)
    ensures GroupedFiles([], from, to) && Grouped([], from, to)
  {
  }

  lemma VaultSpecsAreGrouped(component: Component, legacy: string, active: bool)
    ensures GroupedFiles(VaultSpecs(component, legacy, active, VAULT_FILES), 7, 8)
  {
    VaultTlsNames();
    var files := VaultSpecs(component, legacy, active, VAULT_FILES);
    VaultSpecsUnfold(component, legacy, active);
    hide VaultSpecs, Group, GoodStem;
    assert Inlines(files) == ["ZBX_VAULTTLSCERT", "ZBX_VAULTTLSKEY"];
    assert files[0].file == files[0].inline + "FILE" && files[1].file == files[1].inline + "FILE";
    FixedCategories(files[0].category);
    FixedCategories(files[1].category);
  }

  lemma VaultSpecsUnfold(component: Component, legacy: string, active: bool)
    ensures VaultSpecs(component, legacy, active, VAULT_FILES)
         == [FileSpec("ZBX_VAULTTLSCERT", "ZBX_VAULTTLSCERTFILE", VaultCategory(component, VAULT_FILES[0]), legacy, false, active),
             FileSpec("ZBX_VAULTTLSKEY", "ZBX_VAULTTLSKEYFILE", VaultCategory(component, VAULT_FILES[1]), legacy, false, active)]
  {
    var second := VAULT_FILES[1..];
    assert second == [VAULT_FILES[1]] && second[1..] == [];
    assert VaultSpecs(component, legacy, active, second[1..]) == [];
    assert VaultSpecs(component, legacy, active, second)
        == [FileSpec("ZBX_VAULTTLSKEY", "ZBX_VAULTTLSKEYFILE", VaultCategory(component, VAULT_FILES[1]), legacy, false, active)];
  }

  lemma FixedFilesAreGrouped(decoder: Decoder, vars: Vars, component: Component, command: Command)
    ensures GroupedFiles(FixedFiles(decoder, vars, component, command), 0, 8)
  {
    hide ServiceFiles, DatabaseFiles, VaultSpecs, VaultActive, Enc, GroupedFiles;
    NothingIsGrouped(0, 6);
    NothingIsGrouped(6, 7);
    NothingIsGrouped(7, 8);
    var service := if command.Service? then ServiceFiles(vars, component) else [];
    var database := if UsesDatabase(command) then DatabaseFiles(vars, component) else [];
    var legacy, active := if IsWeb(component) then WEB_CERTS else Enc(vars), VaultActive(decoder, vars, command);
    var vault := if UsesVault(component, command) then VaultSpecs(component, legacy, active, VAULT_FILES) else [];
    ServiceFilesAreGrouped(vars, component);
    DatabaseFilesAreGrouped(vars, component);
    VaultSpecsAreGrouped(component, legacy, active);
    GroupedFilesConcat(service, database, 0, 6, 7);
    GroupedFilesConcat(service + database, vault, 0, 7, 8);
  }

  lemma DatabaseValuesAreGrouped(vars: Vars, component: Component)
    ensures Grouped(Names(DatabaseValues(vars, component)), 10, 12)
  {
    var here := Get(vars, "ZBX_VAULTDBPATH") == "";
    if component.ServerMySql? || component.ProxyMySql? || component.WebMySql? {
      ValuesHold("database", here, ["MYSQL_USER", "MYSQL_PASSWORD"]);
      ValuesHold("database", true, ["MYSQL_ROOT_USER", "MYSQL_ROOT_PASSWORD"]);
      MysqlNames();
      hide Group, GoodStem, SecretValues;
      NamesConcat(SecretValues("database", here, ["MYSQL_USER", "MYSQL_PASSWORD"]),
                  SecretValues("database", true, ["MYSQL_ROOT_USER", "MYSQL_ROOT_PASSWORD"]));
      assert ["MYSQL_USER", "MYSQL_PASSWORD"] + ["MYSQL_ROOT_USER", "MYSQL_ROOT_PASSWORD"]
          == ["MYSQL_USER", "MYSQL_PASSWORD", "MYSQL_ROOT_USER", "MYSQL_ROOT_PASSWORD"];
    } else if component.ServerPgSql? || component.WebPgSql? {
      ValuesHold("database", here, ["POSTGRES_USER", "POSTGRES_PASSWORD"]);
      PostgresNames();
    } else {
      NothingIsGrouped(10, 12);
    }
  }

  lemma FixedValuesAreGrouped(decoder: Decoder, vars: Vars, component: Component, command: Command)
    ensures Grouped(Names(FixedValues(decoder, vars, component, command)), 10, 14)
  {
    hide DatabaseValues, VaultActive, Grouped;
    NothingIsGrouped(10, 12);
    NothingIsGrouped(12, 14);
    var active := VaultActive(decoder, vars, command);
    var database := if UsesDatabase(command) then DatabaseValues(vars, component) else [];
    var vault := if UsesVault(component, command) then SecretValues("vault", active, VAULT_VALUES) else [];
    DatabaseValuesAreGrouped(vars, component);
    ValuesHold("vault", active, VAULT_VALUES);
    VaultNames();
    NamesConcat(database, vault);
    hide SecretValues;
    GroupedConcat(Names(database), Names(vault), 10, 12, 14);
  }
}