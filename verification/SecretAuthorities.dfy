/** What the directory steps leave behind: which directory is in use and which files are copied where. */
module SecretAuthorities {
  import opened Text
  import opened ProcessEnvironment
  import opened ProviderSecrets
  import opened NativeOptions
  import opened SecretPlan
  import opened SecretPlanLaws
  import opened SecretFiles
  import opened SecretDirectories
  import opened SecretResolution
  import opened SecretRegistry
  import Paths

  /** A regular file lies directly in the directory. */
  ghost predicate Holds(files: FileMap, dir: string) {
    exists name :: '/' !in name && dir + "/" + name in files
  }

  predicate Inside(dir: string, path: string) {
    |dir| < |path| && path[..|dir|] == dir && path[|dir|] == '/'
  }

  /** Below `target` lie exactly copies of the files directly in `source`; all else is as it was. */
  ghost predicate CopyOf(before: FileMap, after: FileMap, target: string, source: string) {
    && (forall name :: '/' !in name ==>
          var from, to := source + "/" + name, target + "/" + name;
          (to in after <==> from in before && !Inside(target, from)) && (to in after ==> after[to] == before[from]))
    && (forall p :: Inside(target, p) && p in after ==> '/' !in p[|target| + 1..])
    && (forall p :: !Inside(target, p) ==> SameFile(before, after, p))
  }

  ghost predicate TreeGone(before: FileMap, after: FileMap, target: string) {
    forall p :: if p == target || Inside(target, p) then p !in after else SameFile(before, after, p)
  }

  lemma UnderIs(dir: string, path: string)
    ensures Under(dir, path) <==> Inside(dir, path)
    ensures Under(dir, path) ==> path == dir + "/" + path[|dir| + 1..]
  {
    if Under(dir, path) {
      assert (dir + "/")[|dir|] == '/' && (dir + "/")[..|dir|] == dir;
      assert path == path[..|dir| + 1] + path[|dir| + 1..];
    }
    if Inside(dir, path) {
      assert path[..|dir| + 1] == path[..|dir|] + [path[|dir|]];
    }
  }

  lemma NameBack(dir: string, name: string)
    ensures Under(dir, dir + "/" + name) && NameIn(dir, dir + "/" + name) == name
  {
    assert dir + "/" <= dir + "/" + name;
  }

  lemma ListingIs(files: FileMap, dir: string, name: string)
    ensures name in Listing(files, dir) <==> '/' !in name && dir + "/" + name in files
  {
    NameBack(dir, name);
    if name in Listing(files, dir) {
      var p :| p in files && Under(dir, p) && NameIn(dir, p) == name && '/' !in name;
      UnderIs(dir, p);
    }
  }

  lemma HoldsIs(files: FileMap, dir: string)
    ensures HasFiles(files, dir) <==> Holds(files, dir)
  {
    forall name ensures name in Listing(files, dir) <==> '/' !in name && dir + "/" + name in files {
      ListingIs(files, dir, name);
    }
    hide Listing;
    if HasFiles(files, dir) {
      var name :| name in Listing(files, dir);
    }
  }

  /** Main result: of two directories the one that holds files is in use, the current one when neither does, and never both. */
  lemma DirectoryInUse(files: FileMap, current: string, legacy: string)
    ensures var r, second := ResolveDirectory(files, current, legacy), legacy != "" && Holds(files, legacy);
            && (r.None? <==> Holds(files, current) && second)
            && (r.Some? ==> r.value == if second then legacy else current)
  {
    HoldsIs(files, current);
    HoldsIs(files, legacy);
    hide HasFiles, Holds;
  }

  lemma TreeIsGone(files: FileMap, target: string)
    ensures TreeGone(files, RemoveTree(files, target), target)
  {
    forall p ensures Under(target, p) <==> Inside(target, p) { UnderIs(target, p); }
    hide Under, Inside;
  }

  /** Main result: a directory of copies mirrors its source. */
  lemma CopiesAre(files: FileMap, target: string, source: string)
    requires source != ""
    ensures CopyOf(files, CopyDirectory(files, target, source), target, source)
  {
    forall p ensures Under(target, p) <==> Inside(target, p) { UnderIs(target, p); }
    var cleared, after := ClearDir(files, target), CopyDirectory(files, target, source);
    forall name: string | '/' !in name
      ensures var from, to := source + "/" + name, target + "/" + name;
              && (to in after <==> from in files && !Inside(target, from)) && (to in after ==> after[to] == files[from])
    {
      ListingIs(cleared, source, name);
      NameBack(target, name);
      OneCopy(cleared, target, source, name);
    }
    forall p | Inside(target, p) && p in after ensures '/' !in p[|target| + 1..] {
      CopiedName(cleared, target, source, p);
    }
    hide Inside, Under, Listing;
    forall p | !Inside(target, p) ensures SameFile(files, after, p) {
      NotCopied(cleared, target, source, p);
    }
  }

  lemma OneCopy(files: FileMap, target: string, source: string, name: string)
    requires NameIn(target, target + "/" + name) == name && target + "/" + name !in files
    ensures var after, to := Copied(files, target, source, Listing(files, source)), target + "/" + name;
            (to in after <==> name in Listing(files, source)) && (to in after ==> after[to] == Get(files, source + "/" + name))
  {
    hide Listing, NameIn;
    var to := target + "/" + name;
    assert CopyPath(target, name) == to;
    if to in CopyPaths(target, Listing(files, source)) {
      var n :| n in Listing(files, source) && CopyPath(target, n) == to;
      assert n == to[|target| + 1..] == name;
    }
  }

  lemma CopiedName(files: FileMap, target: string, source: string, p: string)
    requires p in Copied(files, target, source, Listing(files, source)) && p !in files
    ensures |p| > |target| && '/' !in p[|target| + 1..]
  {
    var n :| n in Listing(files, source) && CopyPath(target, n) == p;
    ListingIs(files, source, n);
    assert p[|target| + 1..] == n;
  }

  lemma NotCopied(files: FileMap, target: string, source: string, p: string)
    requires !Under(target, p)
    ensures SameFile(files, Copied(files, target, source, Listing(files, source)), p)
  {
    hide Listing;
    forall n ensures Under(target, CopyPath(target, n)) { NameBack(target, n); }
  }

  lemma ClearedAre(files: FileMap, target: string)
    ensures forall p :: if Inside(target, p) then p !in ClearDir(files, target) else SameFile(files, ClearDir(files, target), p)
    ensures CopyDirectory(files, target, "") == ClearDir(files, target)
  {
    forall p ensures Under(target, p) <==> Inside(target, p) { UnderIs(target, p); }
    hide Under, Inside;
  }

  /** A directory that mirrors a source, or is empty without one. */
  ghost predicate Mirrors(before: FileMap, after: FileMap, target: string, source: string) {
    if source != "" then CopyOf(before, after, target, source)
    else forall p :: if Inside(target, p) then p !in after else SameFile(before, after, p)
  }

  lemma MirrorIs(files: FileMap, target: string, source: string)
    ensures Mirrors(files, CopyDirectory(files, target, source), target, source)
  {
    ClearedAre(files, target);
    if source != "" { CopiesAre(files, target, source); }
    hide CopyDirectory, CopyOf, Inside, ClearDir;
  }

  /** One more file in the mirror, under its own name, which the source must not use. */
  ghost predicate WithExtra(files: FileMap, target: string, source: string, extra: string, r: Option<FileMap>) {
    exists copies :: Mirrors(files, copies, target, source) &&
      var name := Paths.Base(extra);
      var taken := source != "" && '/' !in name && source + "/" + name in files && !Inside(target, source + "/" + name);
      if extra == "" then r == Some(copies)
      else if taken || Paths.Clean(extra) !in copies then r == None
      else r == Some(copies[target + "/" + name := copies[Paths.Clean(extra)]])
  }

  lemma PreparedIs(files: FileMap, target: string, source: string, extra: string)
    ensures WithExtra(files, target, source, extra, PrepareCa(files, target, source, extra))
  {
    MirrorIs(files, target, source);
    var name := Paths.Base(extra);
    ListingIs(ClearDir(files, target), source, name);
    UnderIs(target, source + "/" + name);
    hide Mirrors, CopyDirectory, Paths.Base, Paths.Clean, Inside, Under, Listing;
    assert CopyPath(target, name) == target + "/" + name;
  }

  // ---- the steps ----

  lemma Literals()
    ensures External("ssl/ca") == "/run/zabbix/secrets/ssl/ca" && Managed("ssl/ca") == "/run/zabbix/secrets_internal/ssl/ca"
    ensures External("apm/ca") == "/run/zabbix/secrets/apm/ca" && Managed("apm/ca") == "/run/zabbix/secrets_internal/apm/ca"
  {
  }

  /** A directory in the home directory of the image. */
  function AtHome(vars: Vars, directory: string): string {
    var home := Get(vars, "ZABBIX_USER_HOME_DIR");
    Paths.Clean(if home == "" then directory else home + "/" + directory)
  }

  lemma PlainPrepare(files: FileMap, target: string, source: string)
    requires source != ""
    ensures PrepareCa(files, target, source, "").Some? && CopyOf(files, PrepareCa(files, target, source, "").value, target, source)
  {
    CopiesAre(files, target, source);
    hide CopyDirectory, CopyOf;
  }

  lemma CleanIsThere(path: string)
    requires path != ""
    ensures Paths.Clean(path) != ""
  {
    if !Paths.IsAbs(path) && Paths.Components(path) != [] {
      Paths.WalkHasElements(SplitOn(path, '/'), [], false) by { SplitHasNoSlash(path); }
      assert Paths.Components(path)[0] in Paths.Components(path);
    }
  }

  lemma {:induction false} SplitHasNoSlash(path: string)
    ensures forall e :: e in SplitOn(path, '/') ==> '/' !in e
    decreases |path|
  {
    if path != "" { SplitHasNoSlash(path[1..]); }
  }

  lemma HomeIs(vars: Vars, directory: string)
    requires directory != ""
    ensures Home(vars, directory) == AtHome(vars, directory) != ""
  {
    var home := Get(vars, "ZABBIX_USER_HOME_DIR");
    CleanIsThere(if home == "" then directory else home + "/" + directory);
    hide Paths.Clean;
  }

  /** Authorities that lie in one of two directories. */
  ghost predicate TakenFrom(s: State, location: string, target: string, current: string, legacy: string, r: Option<State>) {
    if Holds(s.files, current) && Holds(s.files, legacy) then r == None
    else
      && r.Some?
      && if !Holds(s.files, current) && !Holds(s.files, legacy) then
           r.value.vars == s.vars - {location} && TreeGone(s.files, r.value.files, target)
         else
           && r.value.vars == s.vars[location := target]
           && CopyOf(s.files, r.value.files, target, if Holds(s.files, current) then current else legacy)
  }

  lemma TakenIs(s: State, location: string, target: string, current: string, legacy: string)
    requires current != "" && legacy != ""
    ensures var r := match ResolveDirectory(s.files, current, legacy)
                     case None => None
                     case Some(source) =>
                       if !HasFiles(s.files, source) then Some(State(s.vars - {location}, RemoveTree(s.files, target)))
                       else match PrepareCa(s.files, target, source, "")
                            case None => None
                            case Some(files) => Some(State(s.vars[location := target], files));
            TakenFrom(s, location, target, current, legacy, r)
  {
    DirectoryInUse(s.files, current, legacy);
    HoldsIs(s.files, current);
    HoldsIs(s.files, legacy);
    TreeIsGone(s.files, target);
    PlainPrepare(s.files, target, current);
    PlainPrepare(s.files, target, legacy);
    hide Holds, HasFiles, ResolveDirectory, CopyOf, TreeGone, RemoveTree, PrepareCa;
  }

  ghost predicate GlobalAuthorities(s: State, r: Option<State>) {
    if Get(s.vars, "ZBX_SSLCALOCATION") != "" then r == Some(s)
    else TakenFrom(s, "ZBX_SSLCALOCATION", "/run/zabbix/secrets_internal/ssl/ca",
                   "/run/zabbix/secrets/ssl/ca", AtHome(s.vars, "ssl/ssl_ca"), r)
  }

  /** Main result: the authorities of the image, when no location is given. */
  lemma GlobalCaIs(s: State)
    ensures GlobalAuthorities(s, GlobalCa(s))
  {
    Literals();
    HomeIs(s.vars, "ssl/ssl_ca");
    TakenIs(s, "ZBX_SSLCALOCATION", Managed("ssl/ca"), External("ssl/ca"), Home(s.vars, "ssl/ssl_ca"));
    hide TakenFrom, HasFiles, ResolveDirectory, RemoveTree, PrepareCa, Home, AtHome, Managed, External;
  }

  /** The authorities of the web image's APM connection, with one more file of its own. */
  ghost predicate ApmAuthorities(s: State, r: Option<State>) {
    var location, target, source := "ZBX_APM_CA_LOCATION", "/run/zabbix/secrets_internal/apm/ca", "/run/zabbix/secrets/apm/ca";
    var extra := Get(s.vars, "ZBX_APM_CAFILE");
    if Get(s.vars, location) != "" then r == Some(s)
    else if !Holds(s.files, source) && extra == "" then
      r.Some? && r.value.vars == s.vars - {location} && TreeGone(s.files, r.value.files, target)
    else
      && (r.Some? ==> r.value.vars == s.vars[location := target])
      && WithExtra(s.files, target, source, extra, if r.Some? then Some(r.value.files) else None)
  }

  lemma WebApmCaIs(s: State)
    ensures ApmAuthorities(s, WebApmCa(s))
  {
    Literals();
    HoldsIs(s.files, External("apm/ca"));
    TreeIsGone(s.files, Managed("apm/ca"));
    PreparedIs(s.files, Managed("apm/ca"), External("apm/ca"), Get(s.vars, "ZBX_APM_CAFILE"));
    hide Holds, HasFiles, WithExtra, TreeGone, RemoveTree, PrepareCa, Managed, External;
  }

  /** The authority of one provider, in a directory of its own. */
  ghost predicate ProviderAuthority(s: State, f: FileSpec, r: Option<State>) {
    var path := Get(s.vars, f.file);
    if path == "" || !EndsWith(f.inline, "_SSL_CA") then r == Some(s)
    else
      var target := "/run/zabbix/secrets_internal/" + f.category + "/ca";
      && (r.Some? ==> r.value.vars == s.vars[f.inline + "LOCATION" := target])
      && WithExtra(s.files, target, "", path, if r.Some? then Some(r.value.files) else None)
  }

  predicate EndsWith(name: string, ending: string) {
    |name| >= |ending| && name[|name| - |ending|..] == ending
  }

  lemma ProviderCaIs(s: State, f: FileSpec)
    ensures ProviderAuthority(s, f, ProviderCa(s, f))
  {
    var target := Managed(f.category + "/ca");
    ProviderTarget(f.category);
    PreparedIs(s.files, target, "", Get(s.vars, f.file));
    hide WithExtra, PrepareCa, Managed;
  }

  lemma ProviderTarget(category: string)
    ensures Managed(category + "/ca") == "/run/zabbix/secrets_internal/" + category + "/ca"
  {
    assert MANAGED_ROOT + "/" == "/run/zabbix/secrets_internal/";
    assert MANAGED_ROOT + "/" + (category + "/ca") == MANAGED_ROOT + "/" + category + "/ca";
  }

  /** A path that is reached from the directory without leaving it. */
  predicate ReachedFrom(dir: string, path: string) {
    var from, to := Paths.Components(dir), Paths.Components(path);
    && (dir != "" && dir[0] == '/' <==> path != "" && path[0] == '/')
    && |from| <= |to| && to[..|from|] == from && (|to| > |from| ==> to[|from|] != "..")
  }

  lemma WithinIs(dir: string, path: string)
    ensures Within(dir, path) <==> ReachedFrom(dir, path)
  {
    hide Paths.Components;
    var from, to := Paths.Components(dir), Paths.Components(path);
    assert from <= to <==> |from| <= |to| && to[..|from|] == from;
  }

  /**
   A file of the Vault client: one that its location already holds stays there, any other one is put beside
   copies of the files of that location, which must not hold a file of its name.
   */
  ghost predicate VaultPlaced(s: State, fileName: string, locationName: string, target: string, r: Option<State>) {
    var path, location := Get(s.vars, fileName), Get(s.vars, locationName);
    if path == "" then r.Some? && r.value.vars == s.vars && TreeGone(s.files, r.value.files, target)
    else if ReachedFrom(location, path) then
      && r.Some? && r.value.vars == s.vars
      && if Paths.Clean(location) == target then r.value.files == s.files else TreeGone(s.files, r.value.files, target)
    else
      exists kept, copies ::
        && TreeGone(s.files, kept, target) && Mirrors(kept, copies, target, location)
        && if Paths.Clean(path) !in s.files || (location != "" && '/' !in fileName && location + "/" + fileName in kept) then r == None
           else
             && r.Some? && r.value.vars == s.vars[fileName := target + "/" + fileName][locationName := target]
             && r.value.files == copies[target + "/" + fileName := s.files[Paths.Clean(path)]]
  }

  lemma VaultFileIs(s: State, file: VaultFile)
    ensures VaultPlaced(s, file.file, file.location, Managed(file.category), VaultFileStep(s, file))
  {
    var path, location, target := Get(s.vars, file.file), Get(s.vars, file.location), Managed(file.category);
    var kept := RemoveTree(s.files, target);
    WithinIs(location, path);
    TreeIsGone(s.files, target);
    MirrorIs(kept, target, location);
    ListingIs(kept, location, file.file);
    hide TreeGone, RemoveTree, Mirrors, CopyDirectory, ReachedFrom, Within, Listing, Managed, Paths.Clean, Get;
    assert CopyPath(target, file.file) == target + "/" + file.file;
  }

  /** Main result: where the two files of the Vault client go, one after the other. */
  lemma VaultFilesAre(s: State)
    ensures exists first ::
              && VaultPlaced(s, "ZBX_VAULTTLSCERTFILE", "ZBX_SSLCERTLOCATION", "/run/zabbix/secrets_internal/ssl/certs", first)
              && if first.None? then VaultFiles(s) == None
                 else VaultPlaced(first.value, "ZBX_VAULTTLSKEYFILE", "ZBX_SSLKEYLOCATION", "/run/zabbix/secrets_internal/ssl/keys", VaultFiles(s))
  {
    var first := VaultFileStep(s, VAULT_FILES[0]);
    VaultFileIs(s, VAULT_FILES[0]);
    if first.Some? { VaultFileIs(first.value, VAULT_FILES[1]); }
    VaultLiterals();
    hide VaultPlaced, VaultFileStep, VAULT_FILES, Managed;
  }

  lemma VaultLiterals()
    ensures VAULT_FILES[0].file == "ZBX_VAULTTLSCERTFILE" && VAULT_FILES[0].location == "ZBX_SSLCERTLOCATION"
    ensures VAULT_FILES[1].file == "ZBX_VAULTTLSKEYFILE" && VAULT_FILES[1].location == "ZBX_SSLKEYLOCATION"
    ensures Managed(VAULT_FILES[0].category) == "/run/zabbix/secrets_internal/ssl/certs"
    ensures Managed(VAULT_FILES[1].category) == "/run/zabbix/secrets_internal/ssl/keys"
    ensures External(VAULT_FILES[0].category) == "/run/zabbix/secrets/ssl/certs"
    ensures External(VAULT_FILES[1].category) == "/run/zabbix/secrets/ssl/keys"
    ensures VAULT_FILES[0].category == "ssl/certs" && VAULT_FILES[1].category == "ssl/keys"
  {
  }

  /** The directory in use of the two, and none when both hold files. */
  ghost function InUse(files: FileMap, current: string, legacy: string): Option<string> {
    if Holds(files, current) && Holds(files, legacy) then None
    else if Holds(files, legacy) then Some(legacy) else Some(current)
  }

  lemma LocationIs(s: State, file: VaultFile)
    requires file.category != ""
    ensures var dir := InUse(s.files, External(file.category), AtHome(s.vars, file.category));
            SharedDirectory(s, file) == if dir.None? then None else Some(s.(vars := s.vars[file.location := dir.value]))
  {
    HomeIs(s.vars, file.category);
    DirectoryInUse(s.files, External(file.category), AtHome(s.vars, file.category));
    hide Holds, ResolveDirectory, External, AtHome, Home;
  }

  lemma HomeStays(vars: Vars, name: string, value: string, directory: string)
    requires name != "ZABBIX_USER_HOME_DIR"
    ensures AtHome(vars[name := value], directory) == AtHome(vars, directory)
  {
    hide Paths.Clean;
  }

  /** Main result: the locations of the shared TLS files, each decided by itself. */
  lemma LocationsAre(s: State)
    ensures var certs := InUse(s.files, "/run/zabbix/secrets/ssl/certs", AtHome(s.vars, "ssl/certs"));
            var keys := InUse(s.files, "/run/zabbix/secrets/ssl/keys", AtHome(s.vars, "ssl/keys"));
            SharedDirectories(s) == if certs.None? || keys.None? then None
                                    else Some(s.(vars := s.vars["ZBX_SSLCERTLOCATION" := certs.value]["ZBX_SSLKEYLOCATION" := keys.value]))
  {
    VaultLiterals();
    var first := SharedDirectory(s, VAULT_FILES[0]);
    LocationIs(s, VAULT_FILES[0]);
    if first.Some? {
      LocationIs(first.value, VAULT_FILES[1]);
      HomeStays(s.vars, "ZBX_SSLCERTLOCATION", Get(first.value.vars, "ZBX_SSLCERTLOCATION"), "ssl/keys");
    }
    hide InUse, SharedDirectory, External, Managed, VAULT_FILES, AtHome;
  }

  // ---- which steps run ----

  predicate SharesTls(c: Component, command: Command) {
    (Server(c) || Proxy(c)) && !command.InitDb?
  }

  predicate PlacesVaultFiles(c: Component, command: Command) {
    (Server(c) || Proxy(c)) && command.Service?
  }

  /** Authorities are global for servers and proxies, and behind a Vault path also for the database and the web image. */
  predicate TakesAuthorities(c: Component, command: Command, vars: Vars) {
    || SharesTls(c, command)
    || (Get(vars, "ZBX_VAULTDBPATH") != "" && (((Server(c) || Proxy(c)) && command.InitDb?) || (Web(c) && command.Service?)))
  }

  predicate TakesApmAuthorities(c: Component, command: Command) {
    Web(c) && command.Service?
  }

  function When(runs: bool, s: Option<State>, step: State -> Option<State>): Option<State> {
    if s.None? || !runs then s else step(s.value)
  }

  /** Main result: which directory steps run behind the entries, and in which order. */
  lemma StepsAre(c: Component, command: Command, s: State, files: seq<FileSpec>)
    ensures var shared := When(SharesTls(c, command), Some(s), SharedDirectories);
            var vault := When(PlacesVaultFiles(c, command), shared, VaultFiles);
            var global := When(TakesAuthorities(c, command, s.vars), vault, GlobalCa);
            var apm := When(TakesApmAuthorities(c, command), global, WebApmCa);
            FinishSteps(c, command, s, files) == if apm.None? then None else ProviderCas(apm.value, files)
  {
    hide SharedDirectories, VaultFiles, GlobalCa, WebApmCa, ProviderCas;
  }

  // ---- files of earlier runs ----

  /** The families whose managed files a run clears first. */
  predicate Clears(c: Component, command: Command, history: bool) {
    match command
    case InitDb => false
    case InitHistory => history
    case InitTelemetry => !history
    case Service => Server(c) || Web(c) || (Proxy(c) && !history)
  }

  function Family(history: bool): string {
    if history then "history" else "telemetry"
  }

  function FamilyPrefix(history: bool): string {
    if history then "ZBX_HISTORYPROVIDER_" else "ZBX_TELEMETRYPROVIDER_"
  }

  predicate IsFileEnding(ending: string) {
    ending == "_SSL_CERTFILE" || ending == "_SSL_KEYFILE" || ending == "_SSL_CAFILE"
  }

  /** An authority or a file in the directory of provider `index`. */
  ghost predicate StaleTail(history: bool, index: string, tail: string) {
    "ca/" <= tail || exists ending :: IsFileEnding(ending) && tail == FamilyPrefix(history) + index + ending
  }

  ghost predicate StaleRest(history: bool, rest: string) {
    exists index, tail :: '/' !in index && rest == index + "/" + tail && StaleTail(history, index, tail)
  }

  /** A managed authority or file of a provider of the family. */
  ghost predicate LeftBy(history: bool, path: string) {
    exists index, tail ::
      && path == "/run/zabbix/secrets_internal/providers/" + Family(history) + "-" + index + "/" + tail
      && '/' !in index && StaleTail(history, index, tail)
  }

  lemma HistoryUpper()
    ensures UpperAll("history") == "HISTORY"
  {
  }

  lemma TelemetryUpper()
    ensures UpperAll("telemetry") == "TELEMETRY"
  {
  }

  lemma FamilyParts()
    ensures "ZBX_" + "HISTORY" + "PROVIDER_" == "ZBX_HISTORYPROVIDER_"
    ensures "ZBX_" + "TELEMETRY" + "PROVIDER_" == "ZBX_TELEMETRYPROVIDER_"
  {
  }

  lemma FamilyUpper(history: bool)
    ensures "ZBX_" + UpperAll(Family(history)) + "PROVIDER_" == FamilyPrefix(history)
  {
    HistoryUpper();
    TelemetryUpper();
    FamilyParts();
    hide UpperAll;
  }

  lemma Regroup(a: string, b: string, c: string, d: string)
    ensures a + (b + c + d) == a + b + c + d
  {
  }

  lemma ProvidersRoot()
    ensures MANAGED_ROOT + "/" + "providers/" == "/run/zabbix/secrets_internal/providers/"
  {
  }

  lemma HeadIs(history: bool)
    ensures Managed("providers/" + Family(history) + "-") == "/run/zabbix/secrets_internal/providers/" + Family(history) + "-"
  {
    ProvidersRoot();
    Regroup(MANAGED_ROOT + "/", "providers/", Family(history), "-");
    hide Family;
  }

  lemma RegistryFileEndings(tail: string, start: string)
    ensures (exists secret :: secret in SECRETS && secret.kind.FileSecret? && tail == start + secret.suffix + "FILE")
       <==> exists ending :: IsFileEnding(ending) && tail == start + ending
  {
    FileSuffixes();
    assert start + SECRETS[3].suffix + "FILE" == start + (SECRETS[3].suffix + "FILE");
    assert start + SECRETS[4].suffix + "FILE" == start + (SECRETS[4].suffix + "FILE");
    assert start + SECRETS[5].suffix + "FILE" == start + (SECRETS[5].suffix + "FILE");
    hide SECRETS;
    if ending :| IsFileEnding(ending) && tail == start + ending {
      var i := if ending == "_SSL_CERTFILE" then 3 else if ending == "_SSL_KEYFILE" then 4 else 5;
      assert SECRETS[i] in SECRETS;
    }
    if secret :| secret in SECRETS && secret.kind.FileSecret? && tail == start + secret.suffix + "FILE" {
      var i :| 0 <= i < |SECRETS| && SECRETS[i] == secret;
      assert IsFileEnding(SECRETS[i].suffix + "FILE");
    }
  }

  lemma FileSuffixes()
    ensures |SECRETS| == 6 && forall i :: 0 <= i < 6 ==> (SECRETS[i].kind.FileSecret? <==> i >= 3)
    ensures SECRETS[3].suffix + "FILE" == "_SSL_CERTFILE" && SECRETS[4].suffix + "FILE" == "_SSL_KEYFILE"
    ensures SECRETS[5].suffix + "FILE" == "_SSL_CAFILE"
  {
  }

  lemma PartsOf(rest: string, index: string, tail: string)
    requires '/' !in index && rest == index + "/" + tail
    ensures var n := UpTo(rest, '/'); n < |rest| && rest[..n] == index && rest[n + 1..] == tail
  {
    assert rest == index + ['/'] + tail;
    UpToIs(index, '/', tail);
  }

  lemma RestSplits(rest: string, n: nat)
    requires n < |rest| && rest[n] == '/'
    ensures rest == rest[..n] + "/" + rest[n + 1..]
  {
  }

  lemma RestIs(history: bool, rest: string)
    ensures StaleRest(history, rest)
       <==> var n := UpTo(rest, '/'); n < |rest| && StaleTail(history, rest[..n], rest[n + 1..])
  {
    var n := UpTo(rest, '/');
    if n < |rest| { RestSplits(rest, n); }
    hide StaleTail, UpTo;
    if StaleRest(history, rest) {
      var index, tail :| '/' !in index && rest == index + "/" + tail && StaleTail(history, index, tail);
      PartsOf(rest, index, tail);
      hide StaleRest;
    }
  }

  lemma LeftIs(history: bool, path: string)
    ensures var head := "/run/zabbix/secrets_internal/providers/" + Family(history) + "-";
            LeftBy(history, path) <==> head <= path && StaleRest(history, path[|head|..])
  {
    var head := "/run/zabbix/secrets_internal/providers/" + Family(history) + "-";
    hide Family, StaleTail;
    if head <= path && StaleRest(history, path[|head|..]) {
      var index, tail :| '/' !in index && path[|head|..] == index + "/" + tail && StaleTail(history, index, tail);
      HeadSplits(head, index, tail, path);
    }
    if LeftBy(history, path) {
      var index, tail :| path == head + index + "/" + tail && '/' !in index && StaleTail(history, index, tail);
      HeadSplits(head, index, tail, path);
    }
  }

  lemma HeadSplits(head: string, index: string, tail: string, path: string)
    ensures path == head + index + "/" + tail <==> head <= path && path[|head|..] == index + "/" + tail
  {
    assert head <= path ==> path == head + path[|head|..];
    assert head + index + "/" + tail == head + (index + "/" + tail);
  }

  lemma StaleIs(history: bool, path: string)
    ensures IsStale(Family(history), path) <==> LeftBy(history, path)
  {
    HeadIs(history);
    FamilyUpper(history);
    LeftIs(history, path);
    var head := "/run/zabbix/secrets_internal/providers/" + Family(history) + "-";
    hide Family, FamilyPrefix, IsFileEnding, SECRETS, LeftBy, StaleRest, Managed, UpperAll;
    if head <= path {
      var rest := path[|head|..];
      var n := UpTo(rest, '/');
      RestIs(history, rest);
      if n < |rest| { RegistryFileEndings(rest[n + 1..], FamilyPrefix(history) + rest[..n]); }
    }
  }

  lemma FamiliesAre(c: Component, command: Command, family: string)
    ensures family in Families(c, command)
       <==> (family == "history" && Clears(c, command, true)) || (family == "telemetry" && Clears(c, command, false))
  {
  }

  /** Main result: a run first clears exactly the managed provider files of its families, which earlier runs left. */
  lemma CleanedAre(files: FileMap, c: Component, command: Command)
    ensures forall p :: p in Cleaned(files, c, command)
              <==> p in files && !(Clears(c, command, true) && LeftBy(true, p)) && !(Clears(c, command, false) && LeftBy(false, p))
    ensures forall p :: p in Cleaned(files, c, command) ==> Cleaned(files, c, command)[p] == files[p]
  {
    forall p ensures StaleOf(Families(c, command), p)
      <==> (Clears(c, command, true) && LeftBy(true, p)) || (Clears(c, command, false) && LeftBy(false, p))
    {
      StaleIs(true, p);
      StaleIs(false, p);
      FamiliesAre(c, command, "history");
      FamiliesAre(c, command, "telemetry");
      forall family ensures family in Families(c, command)
        <==> (family == "history" && Clears(c, command, true)) || (family == "telemetry" && Clears(c, command, false))
      {
        FamiliesAre(c, command, family);
      }
      hide Families, IsStale, LeftBy, Clears;
    }
    hide StaleOf, Families, LeftBy, Clears;
  }
}
