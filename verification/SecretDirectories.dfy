/** Managed directories: certificate authorities and the shared TLS directories. */
module SecretDirectories {
  import opened Text
  import opened ProcessEnvironment
  import opened ProviderSecrets
  import opened SecretPlan
  import opened SecretPlanLaws
  import opened SecretFiles
  import Paths

  predicate Under(dir: string, path: string) {
    dir + "/" <= path
  }

  function ClearDir(files: FileMap, dir: string): FileMap {
    map p | p in files && !Under(dir, p) :: files[p]
  }

  function RemoveTree(files: FileMap, dir: string): FileMap {
    ClearDir(files, dir) - {dir}
  }

  function NameIn(dir: string, path: string): string {
    if Under(dir, path) then path[|dir| + 1..] else ""
  }

  /** The names of the regular files that lie directly in a directory. */
  function Listing(files: FileMap, dir: string): set<string> {
    set p | p in files && Under(dir, p) && '/' !in NameIn(dir, p) :: NameIn(dir, p)
  }

  predicate HasFiles(files: FileMap, dir: string) {
    Listing(files, dir) != {}
  }

  /** Which of two directories is in use; both at once is an error. */
  function ResolveDirectory(files: FileMap, current: string, legacy: string): Option<string> {
    if HasFiles(files, current) && legacy != "" && HasFiles(files, legacy) then None
    else if HasFiles(files, current) then Some(current)
    else if legacy != "" && HasFiles(files, legacy) then Some(legacy)
    else Some(current)
  }

  function CopyPath(dir: string, name: string): string {
    dir + "/" + name
  }

  function CopyPaths(dir: string, names: set<string>): set<string> {
    set n | n in names :: CopyPath(dir, n)
  }

  /** The named files of `source` copied into `target`. */
  function Copied(files: FileMap, target: string, source: string, names: set<string>): FileMap {
    files + map p | p in CopyPaths(target, names) :: Get(files, CopyPath(source, NameIn(target, p)))
  }

  /** The files of `source` copied into `target`, which loses what it held. */
  function CopyDirectory(files: FileMap, target: string, source: string): FileMap {
    var cleared := ClearDir(files, target);
    if source == "" then cleared else Copied(cleared, target, source, Listing(cleared, source))
  }

  /** `prepareManagedCADir` with at most one source directory and one further file. */
  function PrepareCa(files: FileMap, target: string, source: string, extra: string): Option<FileMap> {
    var copied := CopyDirectory(files, target, source);
    if extra == "" then Some(copied)
    else
      var name := Paths.Base(extra);
      if source != "" && name in Listing(ClearDir(files, target), source) then None
      else if Paths.Clean(extra) !in copied then None
      else Some(copied[CopyPath(target, name) := copied[Paths.Clean(extra)]])
  }

  // ---- the steps behind the entries of the plan ----

  function Managed(category: string): string {
    MANAGED_ROOT + "/" + category
  }

  function External(category: string): string {
    EXTERNAL_ROOT + "/" + category
  }

  function Home(vars: Vars, directory: string): string
    requires directory != ""
  {
    Join(Get(vars, "ZABBIX_USER_HOME_DIR"), directory)
  }

  function SharedDirectory(s: State, file: VaultFile): Option<State>
    requires file.category != ""
  {
    match ResolveDirectory(s.files, External(file.category), Home(s.vars, file.category))
    case None => None
    case Some(resolved) => Some(s.(vars := s.vars[file.location := resolved]))
  }

  /** `resolveSharedTLSDirectories`. */
  function SharedDirectories(s: State): Option<State> {
    match SharedDirectory(s, VAULT_FILES[0])
    case None => None
    case Some(next) => SharedDirectory(next, VAULT_FILES[1])
  }

  /** `filepath.Rel` succeeds and stays inside `base`. */
  predicate Within(base: string, path: string) {
    var b, p := Paths.Components(base), Paths.Components(path);
    && Paths.IsAbs(base) == Paths.IsAbs(path)
    && b <= p && (|p| > |b| ==> p[|b|] != "..")
  }

  /** `prepareVaultTLSFile`. */
  function VaultFileStep(s: State, file: VaultFile): Option<State> {
    var path, location, target := Get(s.vars, file.file), Get(s.vars, file.location), Managed(file.category);
    if path == "" then Some(s.(files := RemoveTree(s.files, target)))
    else if Within(location, path) then
      if Paths.Clean(location) != target then Some(s.(files := RemoveTree(s.files, target))) else Some(s)
    else if Paths.Clean(path) !in s.files then None
    else
      var kept := RemoveTree(s.files, target);
      if location != "" && file.file in Listing(kept, location) then None
      else
        var copied := CopyDirectory(kept, target, location);
        Some(State(s.vars[file.file := CopyPath(target, file.file)][file.location := target],
                   copied[CopyPath(target, file.file) := s.files[Paths.Clean(path)]]))
  }

  function VaultFiles(s: State): Option<State> {
    match VaultFileStep(s, VAULT_FILES[0])
    case None => None
    case Some(next) => VaultFileStep(next, VAULT_FILES[1])
  }

  function GlobalCa(s: State): Option<State> {
    if Get(s.vars, "ZBX_SSLCALOCATION") != "" then Some(s)
    else
      match ResolveDirectory(s.files, External("ssl/ca"), Home(s.vars, "ssl/ssl_ca"))
      case None => None
      case Some(source) =>
        var target := Managed("ssl/ca");
        if !HasFiles(s.files, source) then
          Some(State(s.vars - {"ZBX_SSLCALOCATION"}, RemoveTree(s.files, target)))
        else
          match PrepareCa(s.files, target, source, "")
          case None => None
          case Some(files) => Some(State(s.vars["ZBX_SSLCALOCATION" := target], files))
  }

  function WebApmCa(s: State): Option<State> {
    if Get(s.vars, "ZBX_APM_CA_LOCATION") != "" then Some(s)
    else
      var source, target, extra := External("apm/ca"), Managed("apm/ca"), Get(s.vars, "ZBX_APM_CAFILE");
      if !HasFiles(s.files, source) && extra == "" then
        Some(State(s.vars - {"ZBX_APM_CA_LOCATION"}, RemoveTree(s.files, target)))
      else
        match PrepareCa(s.files, target, source, extra)
        case None => None
        case Some(files) => Some(State(s.vars["ZBX_APM_CA_LOCATION" := target], files))
  }

  predicate IsProviderCa(spec: FileSpec) {
    HasSuffix(spec.inline, "_SSL_CA")
  }

  function ProviderCa(s: State, spec: FileSpec): Option<State> {
    var path := Get(s.vars, spec.file);
    if !IsProviderCa(spec) || path == "" then Some(s)
    else
      var target := Managed(spec.category + "/ca");
      match PrepareCa(s.files, target, "", path)
      case None => None
      case Some(files) => Some(State(s.vars[LocationName(spec) := target], files))
  }

  function LocationName(spec: FileSpec): string {
    spec.inline + "LOCATION"
  }

  function ProviderCas(s: State, specs: seq<FileSpec>): Option<State>
    decreases |specs|
  {
    if specs == [] then Some(s)
    else
      match ProviderCa(s, specs[0])
      case None => None
      case Some(next) => ProviderCas(next, specs[1..])
  }

  // ---- what the steps leave alone ----

  const LOCATIONS: set<string> := {"ZBX_SSLCERTLOCATION", "ZBX_SSLKEYLOCATION", "ZBX_SSLCALOCATION", "ZBX_APM_CA_LOCATION"}

  ghost predicate SameOutside(before: FileMap, after: FileMap, dir: string) {
    forall p :: p != dir && !Under(dir, p) ==> SameFile(before, after, p)
  }

  lemma ClearIsLocal(files: FileMap, dir: string)
    ensures SameOutside(files, ClearDir(files, dir), dir) && SameOutside(files, RemoveTree(files, dir), dir)
    ensures forall p :: Under(dir, p) ==> p !in ClearDir(files, dir) && p !in RemoveTree(files, dir)
  {
  }

  lemma CopyIsLocal(files: FileMap, target: string, source: string)
    ensures SameOutside(files, CopyDirectory(files, target, source), target)
  {
    hide Listing;
    forall p | p != target && !Under(target, p) ensures SameFile(files, CopyDirectory(files, target, source), p) {
    }
  }

  lemma PrepareIsLocal(files: FileMap, target: string, source: string, extra: string)
    requires PrepareCa(files, target, source, extra).Some?
    ensures SameOutside(files, PrepareCa(files, target, source, extra).value, target)
  {
    CopyIsLocal(files, target, source);
    hide CopyDirectory, Listing, Paths.Base, Paths.Clean;
    assert Under(target, CopyPath(target, Paths.Base(extra)));
  }

  /** Variables that the directory steps write. */
  ghost predicate SameBut(before: Vars, after: Vars, names: set<string>) {
    forall v :: v !in names ==> SameVariable(before, after, v)
  }

  lemma SharedDirectoriesAreLocal(s: State)
    requires SharedDirectories(s).Some?
    ensures SharedDirectories(s).value.files == s.files
    ensures SameBut(s.vars, SharedDirectories(s).value.vars, LOCATIONS)
  {
    hide ResolveDirectory, Home;
  }

  lemma GlobalCaIsLocal(s: State)
    requires GlobalCa(s).Some?
    ensures SameOutside(s.files, GlobalCa(s).value.files, Managed("ssl/ca"))
    ensures SameBut(s.vars, GlobalCa(s).value.vars, LOCATIONS)
  {
    hide ResolveDirectory, Home, PrepareCa, SameOutside, HasFiles, RemoveTree;
    var target := Managed("ssl/ca");
    ClearIsLocal(s.files, target);
    var source := ResolveDirectory(s.files, External("ssl/ca"), Home(s.vars, "ssl/ssl_ca"));
    if source.Some? && PrepareCa(s.files, target, source.value, "").Some? {
      PrepareIsLocal(s.files, target, source.value, "");
    }
    SameIsLocal(s.files, target);
  }

  lemma SameIsLocal(files: FileMap, dir: string)
    ensures SameOutside(files, files, dir)
  {
  }

  lemma WebApmCaIsLocal(s: State)
    requires WebApmCa(s).Some?
    ensures SameOutside(s.files, WebApmCa(s).value.files, Managed("apm/ca"))
    ensures SameBut(s.vars, WebApmCa(s).value.vars, LOCATIONS)
  {
    hide PrepareCa, SameOutside, HasFiles, RemoveTree;
    var target, extra := Managed("apm/ca"), Get(s.vars, "ZBX_APM_CAFILE");
    ClearIsLocal(s.files, target);
    if PrepareCa(s.files, target, External("apm/ca"), extra).Some? {
      PrepareIsLocal(s.files, target, External("apm/ca"), extra);
    }
    SameIsLocal(s.files, target);
  }

  lemma ProviderCaIsLocal(s: State, spec: FileSpec)
    requires ProviderCa(s, spec).Some?
    ensures SameOutside(s.files, ProviderCa(s, spec).value.files, Managed(spec.category + "/ca"))
    ensures SameBut(s.vars, ProviderCa(s, spec).value.vars, if IsProviderCa(spec) then {LocationName(spec)} else {})
  {
    hide PrepareCa, SameOutside, IsProviderCa;
    var target, path := Managed(spec.category + "/ca"), Get(s.vars, spec.file);
    if PrepareCa(s.files, target, "", path).Some? {
      PrepareIsLocal(s.files, target, "", path);
    }
    SameIsLocal(s.files, target);
  }
}
