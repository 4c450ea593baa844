/** The imperative resolution: it changes the environment and the managed files step by step. */
module SecretResolver {
  import opened Text
  import opened ProcessEnvironment
  import opened ProviderSecrets
  import opened ProviderConfiguration
  import opened SecretPlan
  import opened SecretPlanLaws
  import opened SecretFiles
  import opened SecretDirectories
  import opened SecretResolution
  import Paths

  /** The file system as the entrypoint sees it. A file operation may fail, and then changes nothing. */
  class FileStore {
    var files: FileMap
    var failed: bool

    constructor (initial: FileMap)
      ensures files == initial && !failed
    {
      files, failed := initial, false;
    }

    method Write(path: string, data: string) returns (ok: bool)
      modifies this
      ensures ok ==> files == old(files)[path := data] && failed == old(failed)
      ensures !ok ==> failed
    {
      var fault: bool := *;
      if fault {
        failed := true;
        return false;
      }
      files := files[path := data];
      return true;
    }

    method Remove(path: string) returns (ok: bool)
      modifies this
      ensures ok ==> files == old(files) - {path} && failed == old(failed)
      ensures !ok ==> failed
    {
      var fault: bool := *;
      if fault {
        failed := true;
        return false;
      }
      files := files - {path};
      return true;
    }

    method RemoveAll(dir: string) returns (ok: bool)
      modifies this
      ensures ok ==> files == RemoveTree(old(files), dir) && failed == old(failed)
      ensures !ok ==> failed
    {
      var fault: bool := *;
      if fault {
        failed := true;
        return false;
      }
      files := RemoveTree(files, dir);
      return true;
    }

    /** Makes sure that a directory exists and is empty. */
    method Clear(dir: string) returns (ok: bool)
      modifies this
      ensures ok ==> files == ClearDir(old(files), dir) && failed == old(failed)
      ensures !ok ==> failed
    {
      var fault: bool := *;
      if fault {
        failed := true;
        return false;
      }
      files := ClearDir(files, dir);
      return true;
    }
  }

  // ---- sources that are not read ----

  /** The variables are visited in any order. */
  method DropProviderSecretSources(env: Environment, prefix: string, suffixes: seq<string>)
    modifies env
    ensures env.vars == DropSources(old(env.vars), prefix, suffixes)
  {
    hide HasOneSuffix;
    ghost var before := env.vars;
    ghost var seen: set<string> := {};
    var rest := env.vars.Keys;
    while rest != {}
      invariant seen + rest == before.Keys
      invariant forall name :: name in env.vars <==>
                  name in before && !(name in seen && prefix <= name && HasOneSuffix(name, suffixes))
      invariant forall name :: name in env.vars ==> env.vars[name] == before[name]
      decreases |rest|
    {
      var name :| name in rest;
      if prefix <= name && HasOneSuffix(name, suffixes) {
        env.Delete(name);
      }
      seen, rest := seen + {name}, rest - {name};
    }
    assert seen == before.Keys;
  }

  method DropUnread(env: Environment, component: Component)
    modifies env
    ensures env.vars == Dropped(old(env.vars), component)
  {
    hide DropSources;
    if IsServer(component) || IsProxy(component) || IsWeb(component) {
      DropProviderSecretSources(env, HISTORY_PREFIX, LOCATION_SUFFIXES);
      DropProviderSecretSources(env, TELEMETRY_PREFIX, LOCATION_SUFFIXES);
    }
    if IsProxy(component) {
      DropProviderSecretSources(env, HISTORY_PREFIX, SUFFIXES);
    }
    if IsWeb(component) {
      DropProviderSecretSources(env, HISTORY_PREFIX, FILE_SUFFIXES);
    }
  }

  /** What is left when the listed ones among the files have been looked at. */
  function CleanedAmong(files: FileMap, families: seq<string>, seen: set<string>): FileMap {
    map p | p in files && !(p in seen && StaleOf(families, p)) :: files[p]
  }

  lemma NothingCleaned(files: FileMap, families: seq<string>)
    ensures CleanedAmong(files, families, {}) == files
  {
  }

  lemma CleanOneMore(files: FileMap, families: seq<string>, seen: set<string>, path: string)
    ensures CleanedAmong(files, families, seen + {path})
         == if StaleOf(families, path) then CleanedAmong(files, families, seen) - {path} else CleanedAmong(files, families, seen)
  {
    hide StaleOf;
  }

  lemma AllCleaned(files: FileMap, component: Component, command: Command, seen: set<string>)
    requires files.Keys <= seen
    ensures CleanedAmong(files, Families(component, command), seen) == Cleaned(files, component, command)
  {
    hide StaleOf, Families;
  }

  method CleanupStaleProviderSecrets(managed: FileStore, component: Component, command: Command) returns (ok: bool)
    modifies managed
    ensures ok ==> managed.files == Cleaned(old(managed.files), component, command) && managed.failed == old(managed.failed)
    ensures !ok ==> managed.failed
  {
    hide StaleOf, Families, CleanedAmong;
    ghost var before := managed.files;
    ghost var seen: set<string> := {};
    var rest, families := managed.files.Keys, Families(component, command);
    NothingCleaned(before, families);
    while rest != {}
      invariant seen + rest == before.Keys && managed.failed == old(managed.failed)
      invariant managed.files == CleanedAmong(before, families, seen)
      decreases |rest|
    {
      var path :| path in rest;
      CleanOneMore(before, families, seen, path);
      if StaleOf(families, path) {
        ok := managed.Remove(path);
        if !ok {
          return;
        }
      }
      seen, rest := seen + {path}, rest - {path};
    }
    AllCleaned(before, component, command, seen);
    return true;
  }

  method RemoveEmpty(env: Environment, name: string)
    modifies env
    ensures env.vars == if name in old(env.vars) && old(env.vars)[name] == "" then old(env.vars) - {name} else old(env.vars)
  {
    if name in env.vars && env.vars[name] == "" {
      env.Delete(name);
    }
  }

  ghost predicate EmptyRemoved(before: Vars, after: Vars, names: set<string>) {
    && (forall name :: name in after <==> name in before && !(name in names && before[name] == ""))
    && (forall name :: name in after ==> after[name] == before[name])
  }

  lemma RemovedTwice(a: Vars, b: Vars, c: Vars, first: set<string>, second: set<string>)
    requires EmptyRemoved(a, b, first) && EmptyRemoved(b, c, second)
    ensures EmptyRemoved(a, c, first + second)
  {
  }

  method NormalizeFileSources(env: Environment, files: seq<FileSpec>) returns (ghost names: set<string>)
    modifies env
    ensures EmptyRemoved(old(env.vars), env.vars, names)
    ensures names == set f, v | f in files && v in FileVariables(f) :: v
  {
    names := {};
    for i := 0 to |files|
      invariant EmptyRemoved(old(env.vars), env.vars, names)
      invariant names == set f, v | f in files[..i] && v in FileVariables(f) :: v
    {
      assert files[..i + 1] == files[..i] + [files[i]];
      ghost var before := env.vars;
      RemoveEmpty(env, files[i].inline);
      RemoveEmpty(env, files[i].file);
      RemovedTwice(old(env.vars), before, env.vars, names, FileVariables(files[i]));
      names := names + FileVariables(files[i]);
    }
    assert files[..|files|] == files;
  }

  method NormalizeValueSources(env: Environment, values: seq<ValueSpec>) returns (ghost names: set<string>)
    modifies env
    ensures EmptyRemoved(old(env.vars), env.vars, names)
    ensures names == set s, v | s in values && v in ValueVariables(s) :: v
  {
    names := {};
    for i := 0 to |values|
      invariant EmptyRemoved(old(env.vars), env.vars, names)
      invariant names == set s, v | s in values[..i] && v in ValueVariables(s) :: v
    {
      assert values[..i + 1] == values[..i] + [values[i]];
      ghost var before := env.vars;
      RemoveEmpty(env, values[i].name);
      RemoveEmpty(env, values[i].name + "_FILE");
      RemovedTwice(old(env.vars), before, env.vars, names, ValueVariables(values[i]));
      names := names + ValueVariables(values[i]);
    }
    assert values[..|values|] == values;
  }

  method NormalizeEmptySecretSources(env: Environment, plan: Plan)
    modifies env
    ensures env.vars == WithoutEmpty(old(env.vars), plan)
  {
    hide FileVariables, ValueVariables;
    ghost var before := env.vars;
    ghost var fileNames := NormalizeFileSources(env, plan.files);
    ghost var middle := env.vars;
    ghost var valueNames := NormalizeValueSources(env, plan.values);
    RemovedTwice(before, middle, env.vars, fileNames, valueNames);
    assert PlanVariables(plan) == fileNames + valueNames;
    assert env.vars == WithoutEmpty(before, plan);
  }

  // ---- entries ----

  method NormalizeSecretAlias(env: Environment, alias: Alias) returns (ok: bool)
    modifies env
    ensures ok <==> MergeAlias(old(env.vars), alias).Some?
    ensures ok ==> env.vars == MergeAlias(old(env.vars), alias).value
  {
    var legacy, canonical := Get(env.vars, alias.legacy), Get(env.vars, alias.canonical);
    if legacy == "" {
      env.Delete(alias.legacy);
      return true;
    }
    if canonical != "" {
      if legacy != canonical {
        return false;
      }
      env.Delete(alias.legacy);
      return true;
    }
    env.Set(alias.canonical, legacy);
    env.Delete(alias.legacy);
    return true;
  }

  /** What a step of the resolution promises: its specification unless a file operation fails. */
  ghost predicate Does(ok: bool, expected: Option<State>, env: Environment, managed: FileStore, failedBefore: bool)
    reads env, managed
  {
    && (ok ==> expected == Some(State(env.vars, managed.files)) && managed.failed == failedBefore)
    && (!ok ==> managed.failed || expected == None)
  }

  method ResolveFileSecret(env: Environment, managed: FileStore, spec: FileSpec) returns (ok: bool)
    modifies env, managed
    ensures Does(ok, ResolveFile(old(State(env.vars, managed.files)), spec), env, managed, old(managed.failed))
  {
    hide LocateSecret, ManagedPath;
    ghost var before := env.vars;
    var inline, path := Get(env.vars, spec.inline), Get(env.vars, spec.file);
    var managedPath := ManagedPath(spec);
    env.Delete(spec.inline);
    if !spec.active || (inline == "" && path == "") {
      ok := managed.Remove(managedPath);
      if !ok {
        return;
      }
      env.Delete(spec.file);
      assert before - {spec.inline} - {spec.file} == before - {spec.inline, spec.file};
      return;
    }
    if inline != "" && path != "" {
      return false;
    }
    if inline != "" {
      ok := managed.Write(managedPath, inline);
      if !ok {
        return;
      }
      env.Set(spec.file, managedPath);
      return;
    }
    var resolved := LocateSecret(managed.files, path, spec.category, spec.standard, spec.legacyDir);
    if resolved.None? {
      return false;
    }
    env.Set(spec.file, resolved.value);
    return true;
  }

  method ResolveValueSecret(env: Environment, managed: FileStore, spec: ValueSpec) returns (ok: bool)
    modifies env
    ensures Does(ok, ResolveValue(old(State(env.vars, managed.files)), spec), env, managed, old(managed.failed))
  {
    hide LocateSecret, TrimLineEnds;
    ghost var before := env.vars;
    var fileName := spec.name + "_FILE";
    var value, path := Get(env.vars, spec.name), Get(env.vars, fileName);
    if !spec.active {
      env.Delete(spec.name);
      env.Delete(fileName);
      assert before - {spec.name} - {fileName} == before - {spec.name, fileName};
      return true;
    }
    if value != "" && path != "" {
      return false;
    }
    if path == "" {
      env.Delete(fileName);
      return true;
    }
    var resolved := LocateSecret(managed.files, path, spec.category, true, "");
    if resolved.None? || resolved.value !in managed.files {
      return false;
    }
    env.Set(spec.name, TrimLineEnds(managed.files[resolved.value]));
    env.Delete(fileName);
    return true;
  }

  // ---- managed directories ----

  lemma NameOfCopy(dir: string, name: string)
    ensures Under(dir, CopyPath(dir, name)) && NameIn(dir, CopyPath(dir, name)) == name
  {
    assert CopyPath(dir, name)[..|dir| + 1] == dir + "/";
  }

  /** One copy more; the file to copy is still as it was. */
  lemma CopyOneMore(files: FileMap, target: string, source: string, done: set<string>, name: string)
    requires name in Listing(files, source) && forall p :: p in files ==> !Under(target, p)
    ensures var from, copied := CopyPath(source, name), Copied(files, target, source, done);
            && from in copied && copied[from] == Get(files, from)
            && Copied(files, target, source, done + {name}) == copied[CopyPath(target, name) := Get(files, from)]
  {
    var from := CopyPath(source, name);
    ListedIsThere(files, source, name);
    hide Under, NameIn, CopyPath, Listing, CopyPaths;
    CopiesAreUnder(target, done, name);
    NameOfCopy(target, name);
    assert !Under(target, from);
  }

  lemma CopiesAreUnder(target: string, done: set<string>, name: string)
    ensures forall p :: p in CopyPaths(target, done) ==> Under(target, p)
    ensures CopyPaths(target, done + {name}) == CopyPaths(target, done) + {CopyPath(target, name)}
  {
    hide Under, NameIn, CopyPath;
    forall n ensures Under(target, CopyPath(target, n)) {
      NameOfCopy(target, n);
    }
  }

  lemma ListedIsThere(files: FileMap, dir: string, name: string)
    requires name in Listing(files, dir)
    ensures CopyPath(dir, name) in files
  {
    var p :| p in files && Under(dir, p) && '/' !in NameIn(dir, p) && NameIn(dir, p) == name;
    assert p == dir + "/" + p[|dir| + 1..];
  }

  /** The entries of a directory are copied in any order. */
  method CopyRegularFiles(managed: FileStore, target: string, source: string) returns (ok: bool, names: set<string>)
    requires forall p :: p in managed.files ==> !Under(target, p)
    modifies managed
    ensures names == Listing(old(managed.files), source)
    ensures ok ==> managed.files == Copied(old(managed.files), target, source, names) && managed.failed == old(managed.failed)
    ensures !ok ==> managed.failed
  {
    ghost var files := managed.files;
    names := Listing(managed.files, source);
    ghost var done: set<string> := {};
    var rest := names;
    hide Listing, CopyPath, Under;
    assert Copied(files, target, source, {}) == files;
    while rest != {}
      invariant done + rest == names && managed.files == Copied(files, target, source, done)
      invariant managed.failed == old(managed.failed)
      decreases |rest|
    {
      hide Copied;
      var name :| name in rest;
      CopyOneMore(files, target, source, done, name);
      ok := managed.Write(CopyPath(target, name), managed.files[CopyPath(source, name)]);
      if !ok {
        return;
      }
      done, rest := done + {name}, rest - {name};
    }
    assert done == names;
    ok := true;
  }

  method PrepareManagedCaDir(managed: FileStore, target: string, source: string, extra: string) returns (ok: bool)
    modifies managed
    ensures ok ==> managed.failed == old(managed.failed)
    ensures ok ==> PrepareCa(old(managed.files), target, source, extra) == Some(managed.files)
    ensures !ok ==> managed.failed || PrepareCa(old(managed.files), target, source, extra) == None
  {
    ghost var before := managed.files;
    ok := managed.Clear(target);
    if !ok {
      return;
    }
    ClearIsLocal(before, target);
    hide Listing, CopyPath, Under, ClearDir, Copied, Paths.Base, Paths.Clean;
    var names: set<string> := {};
    if source != "" {
      ok, names := CopyRegularFiles(managed, target, source);
      if !ok {
        return;
      }
    }
    if extra == "" {
      return true;
    }
    var name := Paths.Base(extra);
    if name in names || Paths.Clean(extra) !in managed.files {
      return false;
    }
    ok := managed.Write(CopyPath(target, name), managed.files[Paths.Clean(extra)]);
  }

  method ResolveSharedTlsDirectories(env: Environment, managed: FileStore) returns (ok: bool)
    modifies env
    ensures Does(ok, SharedDirectories(old(State(env.vars, managed.files))), env, managed, old(managed.failed))
  {
    hide ResolveDirectory, Home;
    ghost var start := State(env.vars, managed.files);
    for i := 0 to |VAULT_FILES|
      invariant managed.files == old(managed.files) && managed.failed == old(managed.failed)
      invariant i == 0 ==> env.vars == old(env.vars)
      invariant i == 1 ==> SharedDirectory(start, VAULT_FILES[0]) == Some(State(env.vars, managed.files))
      invariant i == 2 ==> SharedDirectories(start) == Some(State(env.vars, managed.files))
    {
      var file := VAULT_FILES[i];
      var resolved := ResolveDirectory(managed.files, External(file.category), Home(env.vars, file.category));
      if resolved.None? {
        return false;
      }
      env.Set(file.location, resolved.value);
    }
    return true;
  }

  method PrepareVaultTlsFile(env: Environment, managed: FileStore, file: VaultFile) returns (ok: bool)
    modifies env, managed
    ensures Does(ok, VaultFileStep(old(State(env.vars, managed.files)), file), env, managed, old(managed.failed))
  {
    hide Within, Listing, Copied, CopyPath, Under, Paths.Clean, Managed;
    var path, location, target := Get(env.vars, file.file), Get(env.vars, file.location), Managed(file.category);
    if path == "" {
      ok := managed.RemoveAll(target);
      return;
    }
    if Within(location, path) {
      if Paths.Clean(location) != target {
        ok := managed.RemoveAll(target);
        return;
      }
      return true;
    }
    if Paths.Clean(path) !in managed.files {
      return false;
    }
    var data := managed.files[Paths.Clean(path)];
    ok := PrepareVaultTlsDirectory(managed, target, location, file.file, data);
    if !ok {
      return;
    }
    env.Set(file.file, CopyPath(target, file.file));
    env.Set(file.location, target);
  }

  method PrepareVaultTlsDirectory(managed: FileStore, target: string, source: string, vaultFile: string, data: string)
      returns (ok: bool)
    modifies managed
    ensures ok ==>
      var kept := RemoveTree(old(managed.files), target);
      && (source == "" || vaultFile !in Listing(kept, source)) && managed.failed == old(managed.failed)
      && managed.files == CopyDirectory(kept, target, source)[CopyPath(target, vaultFile) := data]
    ensures !ok ==> managed.failed || (source != "" && vaultFile in Listing(RemoveTree(old(managed.files), target), source))
  {
    ghost var before := managed.files;
    ok := managed.RemoveAll(target);
    if !ok {
      return;
    }
    ghost var kept := managed.files;
    ClearIsLocal(before, target);
    KeptIsClear(before, target);
    hide Listing, CopyPath, Under, ClearDir, Copied, RemoveTree;
    if source != "" && vaultFile in Listing(managed.files, source) {
      return false;
    }
    if source != "" {
      var names;
      ok, names := CopyRegularFiles(managed, target, source);
      if !ok {
        return;
      }
    }
    ok := managed.Write(CopyPath(target, vaultFile), data);
  }

  lemma KeptIsClear(files: FileMap, dir: string)
    ensures ClearDir(RemoveTree(files, dir), dir) == RemoveTree(files, dir)
  {
    hide Under;
  }

  method PrepareVaultTlsFiles(env: Environment, managed: FileStore) returns (ok: bool)
    modifies env, managed
    ensures Does(ok, VaultFiles(old(State(env.vars, managed.files))), env, managed, old(managed.failed))
  {
    hide VaultFileStep;
    ghost var start := State(env.vars, managed.files);
    for i := 0 to |VAULT_FILES|
      invariant managed.failed == old(managed.failed)
      invariant i == 0 ==> env.vars == old(env.vars) && managed.files == old(managed.files)
      invariant i == 1 ==> VaultFileStep(start, VAULT_FILES[0]) == Some(State(env.vars, managed.files))
      invariant i == 2 ==> VaultFiles(start) == Some(State(env.vars, managed.files))
    {
      ok := PrepareVaultTlsFile(env, managed, VAULT_FILES[i]);
      if !ok {
        return;
      }
    }
    return true;
  }

  method ResolveGlobalCa(env: Environment, managed: FileStore) returns (ok: bool)
    modifies env, managed
    ensures Does(ok, GlobalCa(old(State(env.vars, managed.files))), env, managed, old(managed.failed))
  {
    hide ResolveDirectory, Home, HasFiles, PrepareCa, RemoveTree;
    if Get(env.vars, "ZBX_SSLCALOCATION") != "" {
      return true;
    }
    var source := ResolveDirectory(managed.files, External("ssl/ca"), Home(env.vars, "ssl/ssl_ca"));
    if source.None? {
      return false;
    }
    var target := Managed("ssl/ca");
    if !HasFiles(managed.files, source.value) {
      env.Delete("ZBX_SSLCALOCATION");
      ok := managed.RemoveAll(target);
      return;
    }
    ok := PrepareManagedCaDir(managed, target, source.value, "");
    if ok {
      env.Set("ZBX_SSLCALOCATION", target);
    }
  }

  method ResolveWebApmCa(env: Environment, managed: FileStore) returns (ok: bool)
    modifies env, managed
    ensures Does(ok, WebApmCa(old(State(env.vars, managed.files))), env, managed, old(managed.failed))
  {
    hide HasFiles, PrepareCa, RemoveTree;
    if Get(env.vars, "ZBX_APM_CA_LOCATION") != "" {
      return true;
    }
    var source, target, extra := External("apm/ca"), Managed("apm/ca"), Get(env.vars, "ZBX_APM_CAFILE");
    if !HasFiles(managed.files, source) && extra == "" {
      env.Delete("ZBX_APM_CA_LOCATION");
      ok := managed.RemoveAll(target);
      return;
    }
    ok := PrepareManagedCaDir(managed, target, source, extra);
    if ok {
      env.Set("ZBX_APM_CA_LOCATION", target);
    }
  }

  method ResolveProviderCas(env: Environment, managed: FileStore, files: seq<FileSpec>) returns (ok: bool)
    modifies env, managed
    ensures Does(ok, ProviderCas(old(State(env.vars, managed.files)), files), env, managed, old(managed.failed))
  {
    hide PrepareCa, IsProviderCa, Managed;
    ghost var start := State(env.vars, managed.files);
    for i := 0 to |files|
      invariant managed.failed == old(managed.failed)
      invariant ProviderCas(start, files) == ProviderCas(State(env.vars, managed.files), files[i..])
    {
      var spec := files[i];
      assert files[i..][1..] == files[i + 1..];
      var path := Get(env.vars, spec.file);
      if IsProviderCa(spec) && path != "" {
        var target := Managed(spec.category + "/ca");
        ok := PrepareManagedCaDir(managed, target, "", path);
        if !ok {
          return;
        }
        env.Set(LocationName(spec), target);
      }
    }
    return true;
  }

  // ---- the pipeline ----

  method NormalizeAliases(env: Environment, aliases: seq<Alias>) returns (ok: bool)
    modifies env
    ensures ok <==> MergeAliases(old(env.vars), aliases).Some?
    ensures ok ==> env.vars == MergeAliases(old(env.vars), aliases).value
  {
    hide MergeAlias;
    for i := 0 to |aliases|
      invariant MergeAliases(old(env.vars), aliases) == MergeAliases(env.vars, aliases[i..])
    {
      assert aliases[i..][1..] == aliases[i + 1..];
      ok := NormalizeSecretAlias(env, aliases[i]);
      if !ok {
        return;
      }
    }
    return true;
  }

  method ResolveEntries(env: Environment, managed: FileStore, plan: Plan) returns (ok: bool)
    modifies env, managed
    ensures Does(ok, Entries(old(State(env.vars, managed.files)), plan), env, managed, old(managed.failed))
  {
    hide ResolveFile, ResolveValue;
    ghost var start := State(env.vars, managed.files);
    for i := 0 to |plan.files|
      invariant managed.failed == old(managed.failed)
      invariant ResolveFiles(start, plan.files) == ResolveFiles(State(env.vars, managed.files), plan.files[i..])
    {
      assert plan.files[i..][1..] == plan.files[i + 1..];
      ok := ResolveFileSecret(env, managed, plan.files[i]);
      if !ok {
        return;
      }
    }
    ghost var middle := State(env.vars, managed.files);
    for i := 0 to |plan.values|
      invariant managed.failed == old(managed.failed)
      invariant ResolveValues(middle, plan.values) == ResolveValues(State(env.vars, managed.files), plan.values[i..])
    {
      assert plan.values[i..][1..] == plan.values[i + 1..];
      ok := ResolveValueSecret(env, managed, plan.values[i]);
      if !ok {
        return;
      }
    }
    return true;
  }

  method ResolveDirectories(env: Environment, managed: FileStore, component: Component, command: Command)
      returns (ok: bool)
    modifies env, managed
    ensures Does(ok, Directories(component, command, old(State(env.vars, managed.files))), env, managed, old(managed.failed))
  {
    hide SharedDirectories, VaultFiles, GlobalCa;
    ok := true;
    if IsServer(component) || IsProxy(component) {
      match command {
        case Service =>
          ok := ResolveSharedTlsDirectories(env, managed);
          if ok { ok := PrepareVaultTlsFiles(env, managed); }
          if ok { ok := ResolveGlobalCa(env, managed); }
        case InitHistory =>
          ok := ResolveSharedTlsDirectories(env, managed);
          if ok { ok := ResolveGlobalCa(env, managed); }
        case InitTelemetry =>
          ok := ResolveSharedTlsDirectories(env, managed);
          if ok { ok := ResolveGlobalCa(env, managed); }
        case InitDb =>
          if Get(env.vars, "ZBX_VAULTDBPATH") != "" {
            ok := ResolveGlobalCa(env, managed);
          }
      }
    } else if IsWeb(component) && command.Service? && Get(env.vars, "ZBX_VAULTDBPATH") != "" {
      ok := ResolveGlobalCa(env, managed);
    }
  }

  method FinishResolution(env: Environment, managed: FileStore, component: Component, command: Command, files: seq<FileSpec>)
      returns (ok: bool)
    modifies env, managed
    ensures Does(ok, FinishSteps(component, command, old(State(env.vars, managed.files)), files), env, managed, old(managed.failed))
  {
    hide Directories, WebApmCa, ProviderCas;
    ok := ResolveDirectories(env, managed, component, command);
    if ok && command.Service? && IsWeb(component) {
      ok := ResolveWebApmCa(env, managed);
    }
    if ok {
      ok := ResolveProviderCas(env, managed, files);
    }
  }

  method RunPlan(env: Environment, managed: FileStore, component: Component, command: Command, plan: Plan)
      returns (ok: bool)
    requires !managed.failed
    modifies env, managed
    ensures Does(ok, Run(component, command, plan, old(State(env.vars, managed.files))), env, managed, false)
  {
    hide Dropped, Cleaned, WithoutEmpty, MergeAliases, Entries, FinishSteps;
    DropUnread(env, component);
    ok := CleanupStaleProviderSecrets(managed, component, command);
    if !ok {
      return;
    }
    if plan.files == [] && plan.values == [] && plan.aliases == [] {
      return true;
    }
    NormalizeEmptySecretSources(env, plan);
    hide RunFrom;
    ok := RunRest(env, managed, component, command, plan);
  }

  /** From the aliases on. */
  method RunRest(env: Environment, managed: FileStore, component: Component, command: Command, plan: Plan) returns (ok: bool)
    requires !managed.failed
    modifies env, managed
    ensures Does(ok, RunFrom(component, command, plan, old(managed.files), MergeAliases(old(env.vars), plan.aliases)),
                 env, managed, false)
  {
    hide MergeAliases, Entries, FinishSteps;
    ok := NormalizeAliases(env, plan.aliases);
    if !ok {
      return;
    }
    ok := ResolveEntries(env, managed, plan);
    if !ok {
      return;
    }
    ok := FinishResolution(env, managed, component, command, plan.files);
  }

  /** `ResolveSecrets`: unless a file operation fails it succeeds exactly when the specification has a result, and reaches it. */
  method ResolveSecrets(decoder: Decoder, env: Environment, managed: FileStore, component: Component, command: Command)
      returns (ok: bool)
    requires !managed.failed
    modifies env, managed
    ensures Does(ok, Resolve(decoder, component, command, old(State(env.vars, managed.files))), env, managed, false)
  {
    hide Plannable, PlanOf, Run;
    var plan := BuildPlan(decoder, env.vars, component, command);
    if plan.None? {
      return false;
    }
    ok := RunPlan(env, managed, component, command, plan.value);
  }
}
