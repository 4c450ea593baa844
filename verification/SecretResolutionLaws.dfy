/** Main results on the resolution of secrets. */
module SecretResolutionLaws {
  import opened Text
  import opened ProcessEnvironment
  import opened ProviderConfiguration
  import opened SecretPlan
  import opened SecretPlanLaws
  import opened SecretFiles
  import opened SecretDirectories
  import opened SecretDirectoryLaws
  import opened SecretResolution
  import opened SecretPlanFits
  import Paths

  /**
   What a file entry comes to. Its variable names the managed copy of an inline secret, or the file that
   was given or its managed copy; without an active source it is gone, and so is the managed copy.
   */
  predicate FileResolved(before: Vars, after: State, f: FileSpec) {
    var inline, path, managed := Get(before, f.inline), Get(before, f.file), ManagedPath(f);
    && f.inline !in after.vars
    && (f.active ==> inline == "" || path == "")
    && (f.file in after.vars <==> f.active && (inline != "" || path != ""))
    && (f.active && inline != "" ==>
          after.vars[f.file] == managed && managed in after.files && after.files[managed] == inline)
    && (f.active && path != "" ==> after.vars[f.file] == managed || Candidate(f, path, after.vars[f.file]))
    && (!f.active || (inline == "" && path == "") ==> managed !in after.files)
  }

  /** Variables that no step behind the aliases writes. */
  ghost predicate Outside(plan: Plan, v: string) {
    && v !in PlanVariables(plan) && v !in LOCATIONS
    && forall f :: f in plan.files && IsProviderCa(f) ==> v != LocationName(f)
  }

  /** `mid` are the files that the value entries were read from. */
  ghost predicate Holds(plan: Plan, before: Vars, mid: FileMap, t: State) {
    FilesHold(plan, before, t) && ValuesHold(plan, before, mid, t) && OutsideHolds(plan, before, t)
  }

  ghost predicate FilesHold(plan: Plan, before: Vars, t: State) {
    forall f :: f in plan.files ==> FileResolved(before, t, f)
  }

  ghost predicate ValuesHold(plan: Plan, before: Vars, mid: FileMap, t: State) {
    forall v :: v in plan.values ==> ValueDone(before, mid, t.vars, v)
  }

  ghost predicate OutsideHolds(plan: Plan, before: Vars, t: State) {
    forall v :: Outside(plan, v) ==> SameVariable(before, t.vars, v)
  }

  ghost predicate Undisturbed(plan: Plan, s: State, t: State) {
    && (forall v :: v in PlanVariables(plan) || Outside(plan, v) ==> SameVariable(s.vars, t.vars, v))
    && (forall f :: f in plan.files ==> SameFile(s.files, t.files, ManagedPath(f)))
  }

  lemma FileVariablesInPlan(plan: Plan, f: FileSpec)
    requires f in plan.files
    ensures f.inline in PlanVariables(plan) && f.file in PlanVariables(plan)
  {
    assert f.inline in FileVariables(f) && f.file in FileVariables(f);
  }

  lemma ValueVariablesInPlan(plan: Plan, v: ValueSpec)
    requires v in plan.values
    ensures v.name in PlanVariables(plan) && v.name + "_FILE" in PlanVariables(plan)
  {
    assert v.name in ValueVariables(v) && v.name + "_FILE" in ValueVariables(v);
  }

  lemma FileStays(before: Vars, s: State, t: State, f: FileSpec)
    requires FileResolved(before, s, f) && SameVariable(s.vars, t.vars, f.inline) && SameVariable(s.vars, t.vars, f.file)
    requires SameFile(s.files, t.files, ManagedPath(f))
    ensures FileResolved(before, t, f)
  {
    hide ManagedPath, Candidate;
  }

  lemma ValueStays(before: Vars, mid: FileMap, s: Vars, t: Vars, v: ValueSpec)
    requires ValueDone(before, mid, s, v) && SameVariable(s, t, v.name) && SameVariable(s, t, v.name + "_FILE")
    ensures ValueDone(before, mid, t, v)
  {
    hide LocateSecret, TrimLineEnds;
  }

  lemma UndisturbedHolds(plan: Plan, before: Vars, mid: FileMap, s: State, t: State)
    requires Holds(plan, before, mid, s) && Undisturbed(plan, s, t)
    ensures Holds(plan, before, mid, t)
  {
    hide Outside, PlanVariables, FileResolved, ValueDone, ManagedPath, SameFile;
    forall f | f in plan.files ensures FileResolved(before, t, f) {
      FileVariablesInPlan(plan, f);
      FileStays(before, s, t, f);
    }
    forall v | v in plan.values ensures ValueDone(before, mid, t.vars, v) {
      ValueVariablesInPlan(plan, v);
      ValueStays(before, mid, s.vars, t.vars, v);
    }
    forall v | Outside(plan, v) ensures SameVariable(before, t.vars, v) {
      assert SameVariable(s.vars, t.vars, v) && SameVariable(before, s.vars, v);
    }
  }

  // ---- locations are no variables of entries ----

  predicate EndsLikeLocation(name: string) {
    |name| >= 4 && name[|name| - 1] == 'N' && name[|name| - 2] == 'O'
  }

  lemma LocationIsNoEntry(plan: Plan, name: string)
    requires Apart(plan) && EndsLikeLocation(name)
    ensures name !in PlanVariables(plan)
  {
    forall f | f in plan.files ensures name !in FileVariables(f) {
      InlineIsStem(plan, f);
      LocationIsNoVariable(f.inline, name);
    }
    forall v | v in plan.values ensures name !in ValueVariables(v) {
      NameIsStem(plan, v);
      LocationIsNoVariable(v.name, name);
    }
  }

  lemma LocationIsNoVariable(stem: string, name: string)
    requires GoodStem(stem) && EndsLikeLocation(name)
    ensures name != stem && name != stem + "FILE" && name != stem + "_FILE"
  {
    assert (stem + "FILE")[|stem| + 3] == 'E' && (stem + "_FILE")[|stem| + 4] == 'E';
  }

  lemma FixedLocations(name: string)
    requires name in LOCATIONS
    ensures EndsLikeLocation(name)
  {
  }

  lemma LocationNameEnds(f: FileSpec)
    ensures EndsLikeLocation(LocationName(f))
  {
    var name := LocationName(f);
    assert name[|name| - 1] == "LOCATION"[7] && name[|name| - 2] == "LOCATION"[6];
  }

  /** A step that writes location variables, and files apart from the managed secrets, disturbs nothing. */
  lemma LocationStep(plan: Plan, s: State, t: State, names: set<string>)
    requires Apart(plan) && SameBut(s.vars, t.vars, names)
    requires forall name :: name in names ==> EndsLikeLocation(name) && !Outside(plan, name)
    requires forall f :: f in plan.files ==> SameFile(s.files, t.files, ManagedPath(f))
    ensures Undisturbed(plan, s, t)
  {
    hide Apart, Outside, PlanVariables, EndsLikeLocation, ManagedPath, SameFile;
    forall v | v in PlanVariables(plan) || Outside(plan, v) ensures SameVariable(s.vars, t.vars, v) {
      if v in names {
        LocationIsNoEntry(plan, v);
      }
    }
  }

  lemma FixedLocationsAreInside(plan: Plan)
    ensures forall name :: name in LOCATIONS ==> EndsLikeLocation(name) && !Outside(plan, name)
  {
    hide EndsLikeLocation;
    forall name | name in LOCATIONS ensures EndsLikeLocation(name) && !Outside(plan, name) {
      FixedLocations(name);
    }
  }

  lemma OutsideOne(plan: Plan, dir: string, before: FileMap, after: FileMap)
    requires Apart(plan) && SameOutside(before, after, Managed(dir + "/ca"))
    ensures forall f :: f in plan.files ==> SameFile(before, after, ManagedPath(f))
  {
    hide Apart, ManagedPath, SameFile, SameOutside, Managed;
    forall f | f in plan.files ensures SameFile(before, after, ManagedPath(f)) {
      InlineIsStem(plan, f);
      OutsideAuthorities(f, dir, before, after);
    }
  }

  lemma SharedHolds(plan: Plan, before: Vars, mid: FileMap, s: State)
    requires Apart(plan) && Holds(plan, before, mid, s) && SharedDirectories(s).Some?
    ensures Holds(plan, before, mid, SharedDirectories(s).value)
  {
    SharedDirectoriesAreLocal(s);
    FixedLocationsAreInside(plan);
    hide Apart, Holds, Outside, SharedDirectories, EndsLikeLocation, SameBut, LOCATIONS;
    LocationStep(plan, s, SharedDirectories(s).value, LOCATIONS);
    UndisturbedHolds(plan, before, mid, s, SharedDirectories(s).value);
  }

  lemma AuthorityDirectories()
    ensures "ssl" + "/ca" == "ssl/ca" && "apm" + "/ca" == "apm/ca"
  {
  }

  lemma GlobalCaHolds(plan: Plan, before: Vars, mid: FileMap, s: State)
    requires Apart(plan) && Holds(plan, before, mid, s) && GlobalCa(s).Some?
    ensures Holds(plan, before, mid, GlobalCa(s).value)
  {
    GlobalCaIsLocal(s);
    FixedLocationsAreInside(plan);
    AuthorityDirectories();
    hide Apart, Holds, Outside, GlobalCa, EndsLikeLocation, SameBut, LOCATIONS, SameOutside, Managed;
    OutsideOne(plan, "ssl", s.files, GlobalCa(s).value.files);
    LocationStep(plan, s, GlobalCa(s).value, LOCATIONS);
    UndisturbedHolds(plan, before, mid, s, GlobalCa(s).value);
  }

  lemma WebApmCaHolds(plan: Plan, before: Vars, mid: FileMap, s: State)
    requires Apart(plan) && Holds(plan, before, mid, s) && WebApmCa(s).Some?
    ensures Holds(plan, before, mid, WebApmCa(s).value)
  {
    WebApmCaIsLocal(s);
    FixedLocationsAreInside(plan);
    AuthorityDirectories();
    hide Apart, Holds, Outside, WebApmCa, EndsLikeLocation, SameBut, LOCATIONS, SameOutside, Managed;
    OutsideOne(plan, "apm", s.files, WebApmCa(s).value.files);
    LocationStep(plan, s, WebApmCa(s).value, LOCATIONS);
    UndisturbedHolds(plan, before, mid, s, WebApmCa(s).value);
  }

  lemma ProviderCaHolds(plan: Plan, before: Vars, mid: FileMap, s: State, f: FileSpec)
    requires Apart(plan) && Holds(plan, before, mid, s) && f in plan.files && ProviderCa(s, f).Some?
    ensures Holds(plan, before, mid, ProviderCa(s, f).value)
  {
    ProviderCaIsLocal(s, f);
    LocationNameEnds(f);
    var names := if IsProviderCa(f) then {LocationName(f)} else {};
    assert forall name :: name in names ==> !Outside(plan, name);
    hide Apart, Holds, Outside, ProviderCa, EndsLikeLocation, SameBut, LocationName, IsProviderCa, SameOutside, Managed;
    OutsideOne(plan, f.category, s.files, ProviderCa(s, f).value.files);
    LocationStep(plan, s, ProviderCa(s, f).value, names);
    UndisturbedHolds(plan, before, mid, s, ProviderCa(s, f).value);
  }

  lemma {:induction false} ProviderCasHold(plan: Plan, before: Vars, mid: FileMap, s: State, files: seq<FileSpec>)
    requires Apart(plan) && Holds(plan, before, mid, s) && (forall f :: f in files ==> f in plan.files)
    requires ProviderCas(s, files).Some?
    ensures Holds(plan, before, mid, ProviderCas(s, files).value)
    decreases |files|
  {
    hide Apart, Holds, ProviderCa;
    if files != [] {
      ProviderCaHolds(plan, before, mid, s, files[0]);
      ProviderCasHold(plan, before, mid, ProviderCa(s, files[0]).value, files[1..]);
    }
  }

  // ---- the Vault step ----

  function Kind(file: VaultFile): string {
    if file == VAULT_FILES[0] then "certs" else "keys"
  }

  lemma VaultFileFacts(file: VaultFile)
    requires file in VAULT_FILES
    ensures IsShared(Kind(file)) && file.category == SharedCategory(Kind(file)) && Paths.IsName(file.file)
    ensures file.location in LOCATIONS && file.location != file.inline && file.location != file.file && file.inline != file.file
  {
    VaultFileShared(file);
    VaultFileIsName(file);
    hide IsShared, SharedCategory, Kind, Paths.IsName;
  }

  lemma VaultFileShared(file: VaultFile)
    requires file in VAULT_FILES
    ensures IsShared(Kind(file)) && file.category == SharedCategory(Kind(file))
  {
    assert "ssl" + "/" + "certs" == "ssl/certs" && "ssl" + "/" + "keys" == "ssl/keys";
  }

  lemma VaultFileIsName(file: VaultFile)
    requires file in VAULT_FILES
    ensures Paths.IsName(file.file)
  {
  }

  lemma OtherVaultFile(file: VaultFile, other: VaultFile)
    requires file in VAULT_FILES && other in VAULT_FILES && file.file != other.file
    ensures |other.category| >= 4 && IsShared(other.category[4..]) && other.category != file.category
  {
    assert "ssl/certs"[4..] == "certs" && "ssl/keys"[4..] == "keys";
  }

  predicate IsEntryOf(f: FileSpec, file: VaultFile) {
    f.inline == file.inline && f.file == file.file && f.category == file.category
  }

  /** Every other entry is apart from the Vault entry. */
  lemma OthersAreApart(plan: Plan, f: FileSpec, g: FileSpec)
    requires Apart(plan) && f in plan.files && g in plan.files && f != g
    ensures FileVariables(f) !! FileVariables(g)
  {
    var i :| 0 <= i < |plan.files| && plan.files[i] == f;
    var j :| 0 <= j < |plan.files| && plan.files[j] == g;
    hide Apart, ManagedPath, FileVariables;
    if i < j { TwoFilesApart(plan, i, j); } else { TwoFilesApart(plan, j, i); }
  }

  lemma OtherEntryStays(plan: Plan, s: State, file: VaultFile, f: FileSpec, g: FileSpec)
    requires Apart(plan) && CategoriesFit(plan.files) && file in VAULT_FILES
    requires f in plan.files && g in plan.files && f != g && IsEntryOf(g, file)
    requires VaultFileStep(s, file).Some?
    ensures var t := VaultFileStep(s, file).value;
            && SameVariable(s.vars, t.vars, f.inline) && SameVariable(s.vars, t.vars, f.file)
            && SameFile(s.files, t.files, ManagedPath(f))
  {
    OthersAreApart(plan, f, g);
    assert g.file in FileVariables(g) && f.inline in FileVariables(f) && f.file in FileVariables(f);
    VaultStepIsLocal(s, file);
    VaultFileFacts(file);
    InlineIsStem(plan, f);
    FixedLocations(file.location);
    LocationIsNoEntry(plan, file.location);
    FileVariablesInPlan(plan, f);
    if IsVaultSpec(f) {
      var other :| other in VAULT_FILES && f.inline == other.inline && f.file == other.file && f.category == other.category;
      OtherVaultFile(file, other);
    }
    hide Apart, PlanVariables, VaultFileStep, ManagedPath, SameFile, SameOutside, Managed, LOCATIONS, GoodFile, GoodStem,
         NotShared, IsShared, SharedCategory, Paths.IsName, EndsLikeLocation;
    OutsideShared(f, Kind(file), s.files, VaultFileStep(s, file).value.files);
  }

  lemma VaultEntryResolved(before: Vars, s: State, t: State, f: FileSpec)
    requires FileResolved(before, s, f) && VaultKeeps(s, t, f)
    ensures FileResolved(before, t, f)
  {
    hide ManagedPath, Candidate;
    if f.file in s.vars { CandidateShows(before, s, f); }
  }

  /** A resolved path is never empty. */
  lemma CandidateShows(before: Vars, s: State, f: FileSpec)
    requires FileResolved(before, s, f) && f.file in s.vars
    ensures s.vars[f.file] != ""
  {
    var path := Get(before, f.file);
    assert ManagedPath(f) != "";
    CleanIsNotEmpty(path);
    if path != "" && !Paths.IsAbs(path) {
      CleanIsNotEmpty(EXTERNAL_ROOT + "/" + f.category + "/" + path);
      CleanIsNotEmpty(DOCKER_ROOT + "/" + path);
      CleanIsNotEmpty(f.legacyDir + "/" + path);
    }
    hide ManagedPath, Paths.Clean;
  }

  lemma CleanIsNotEmpty(path: string)
    ensures Paths.Clean(path) != ""
  {
    if !Paths.IsAbs(path) {
      Paths.WalkHasElements(SplitOn(path, '/'), [], false);
      var parts := Paths.Components(path);
      assert parts != [] ==> parts[0] in parts;
    }
  }

  lemma VaultFileEntry(plan: Plan, before: Vars, s: State, file: VaultFile, f: FileSpec, g: FileSpec)
    requires Apart(plan) && CategoriesFit(plan.files) && file in VAULT_FILES && g in plan.files && IsEntryOf(g, file)
    requires f in plan.files && FileResolved(before, s, f) && VaultFileStep(s, file).Some?
    requires IsSharedLocation(s.vars, Kind(file), Get(s.vars, file.location))
    ensures FileResolved(before, VaultFileStep(s, file).value, f)
  {
    VaultFileFacts(file);
    hide VaultFileStep, Apart, CategoriesFit, FileResolved, IsSharedLocation, LOCATIONS, Paths.IsName, SameFile, VaultKeeps,
         IsShared, SharedCategory;
    if f == g {
      VaultStepKeeps(s, file, g, Kind(file));
      VaultEntryResolved(before, s, VaultFileStep(s, file).value, f);
    } else {
      OtherEntryStays(plan, s, file, f, g);
      FileStays(before, s, VaultFileStep(s, file).value, f);
    }
  }

  lemma VaultValueEntry(plan: Plan, before: Vars, mid: FileMap, s: State, file: VaultFile, g: FileSpec, v: ValueSpec)
    requires Apart(plan) && file in VAULT_FILES && g in plan.files && IsEntryOf(g, file) && VaultFileStep(s, file).Some?
    requires v in plan.values && ValueDone(before, mid, s.vars, v)
    ensures ValueDone(before, mid, VaultFileStep(s, file).value.vars, v)
  {
    VaultStepIsLocal(s, file);
    VaultFileFacts(file);
    FixedLocations(file.location);
    LocationIsNoEntry(plan, file.location);
    ValueVariablesInPlan(plan, v);
    ValueIsNotVault(plan, g, v);
    hide VaultFileStep, Apart, ValueDone, PlanVariables, LOCATIONS, EndsLikeLocation, Paths.IsName, SameOutside, IsShared;
    ValueStays(before, mid, s.vars, VaultFileStep(s, file).value.vars, v);
  }

  lemma VaultOutside(plan: Plan, s: State, file: VaultFile, g: FileSpec, v: string)
    requires file in VAULT_FILES && g in plan.files && IsEntryOf(g, file) && VaultFileStep(s, file).Some? && Outside(plan, v)
    ensures SameVariable(s.vars, VaultFileStep(s, file).value.vars, v)
  {
    VaultStepIsLocal(s, file);
    VaultFileFacts(file);
    FileVariablesInPlan(plan, g);
    hide VaultFileStep, PlanVariables, LOCATIONS, Paths.IsName, SameOutside, IsShared;
  }

  lemma VaultFileEntries(plan: Plan, before: Vars, s: State, file: VaultFile, g: FileSpec)
    requires Apart(plan) && CategoriesFit(plan.files) && file in VAULT_FILES && g in plan.files && IsEntryOf(g, file)
    requires FilesHold(plan, before, s) && VaultFileStep(s, file).Some?
    requires IsSharedLocation(s.vars, Kind(file), Get(s.vars, file.location))
    ensures FilesHold(plan, before, VaultFileStep(s, file).value)
  {
    hide Apart, CategoriesFit, VAULT_FILES, IsEntryOf, FileResolved, VaultFileStep, IsSharedLocation, Kind;
    forall f | f in plan.files ensures FileResolved(before, VaultFileStep(s, file).value, f) {
      VaultFileEntry(plan, before, s, file, f, g);
    }
  }

  lemma VaultValueEntries(plan: Plan, before: Vars, mid: FileMap, s: State, file: VaultFile, g: FileSpec)
    requires Apart(plan) && file in VAULT_FILES && g in plan.files && IsEntryOf(g, file) && VaultFileStep(s, file).Some?
    requires ValuesHold(plan, before, mid, s)
    ensures ValuesHold(plan, before, mid, VaultFileStep(s, file).value)
  {
    hide Apart, VAULT_FILES, IsEntryOf, ValueDone, VaultFileStep;
    forall v | v in plan.values ensures ValueDone(before, mid, VaultFileStep(s, file).value.vars, v) {
      VaultValueEntry(plan, before, mid, s, file, g, v);
    }
  }

  lemma VaultOutsides(plan: Plan, before: Vars, s: State, file: VaultFile, g: FileSpec)
    requires file in VAULT_FILES && g in plan.files && IsEntryOf(g, file) && VaultFileStep(s, file).Some?
    requires OutsideHolds(plan, before, s)
    ensures OutsideHolds(plan, before, VaultFileStep(s, file).value)
  {
    hide Outside, VaultFileStep, IsEntryOf, VAULT_FILES;
    forall v | Outside(plan, v) ensures SameVariable(before, VaultFileStep(s, file).value.vars, v) {
      VaultOutside(plan, s, file, g, v);
      assert SameVariable(before, s.vars, v);
    }
  }

  lemma VaultHolds(plan: Plan, before: Vars, mid: FileMap, s: State, file: VaultFile)
    requires Apart(plan) && CategoriesFit(plan.files) && HasVaultSpecs(plan.files) && file in VAULT_FILES
    requires Holds(plan, before, mid, s) && VaultFileStep(s, file).Some?
    requires IsSharedLocation(s.vars, Kind(file), Get(s.vars, file.location))
    ensures Holds(plan, before, mid, VaultFileStep(s, file).value)
  {
    var g :| g in plan.files && IsEntryOf(g, file);
    hide VaultFileStep, Apart, CategoriesFit, HasVaultSpecs, FilesHold, ValuesHold, OutsideHolds, IsSharedLocation, LOCATIONS,
         IsEntryOf, Kind, VAULT_FILES;
    VaultFileEntries(plan, before, s, file, g);
    VaultValueEntries(plan, before, mid, s, file, g);
    VaultOutsides(plan, before, s, file, g);
  }

  lemma ValueIsNotVault(plan: Plan, g: FileSpec, v: ValueSpec)
    requires Apart(plan) && g in plan.files && v in plan.values
    ensures g.file != v.name && g.file != v.name + "_FILE"
  {
    FileAndValueApart(plan, g, v);
    assert g.file in FileVariables(g) && v.name in ValueVariables(v) && v.name + "_FILE" in ValueVariables(v);
  }

  // ---- the whole run ----

  /** The entries one after the other: every one comes out as if it were alone. */
  lemma EntriesHold(plan: Plan, s: State)
    requires Apart(plan) && Entries(s, plan).Some?
    ensures Holds(plan, s.vars, Entries(s, plan).value.files, Entries(s, plan).value)
  {
    PlanListsApart(plan);
    var next, t := ResolveFiles(s, plan.files).value, Entries(s, plan).value;
    FilesResolve(s, plan.files);
    ValuesResolve(next, plan.values);
    hide Apart, ResolveFiles, ResolveValues, ManagedPath, FileDone, FileResolved, ValueDone, SameFile;
    forall f | f in plan.files ensures FileResolved(s.vars, t, f) {
      FileIsUntouchedByValues(plan, f);
      FileDoneResolved(s.vars, next, t, f);
    }
    forall v | v in plan.values ensures ValueDone(s.vars, t.files, t.vars, v) {
      ValueIsUntouchedByFiles(plan, v);
      ValueFromSources(s.vars, next.vars, t.files, t.vars, v);
    }
    forall v | Outside(plan, v) ensures SameVariable(s.vars, t.vars, v) {
      OutsideIsUntouched(plan, v);
    }
  }

  lemma PlanListsApart(plan: Plan)
    requires Apart(plan)
    ensures FilesApart(plan.files) && ValuesApart(plan.values)
  {
    EntriesAreApart(plan);
    hide Apart, FileVariables, ValueVariables, ManagedPath;
    forall f | f in plan.files ensures f.inline != f.file {
      InlineIsStem(plan, f);
    }
  }

  lemma FileDoneResolved(before: Vars, s: State, t: State, f: FileSpec)
    requires FileDone(before, s, f) && s.files == t.files
    requires SameVariable(s.vars, t.vars, f.inline) && SameVariable(s.vars, t.vars, f.file)
    ensures FileResolved(before, t, f)
  {
    hide ManagedPath, Candidate;
  }

  lemma ValueFromSources(before: Vars, s: Vars, files: FileMap, t: Vars, v: ValueSpec)
    requires ValueDone(s, files, t, v) && SameVariable(before, s, v.name) && SameVariable(before, s, v.name + "_FILE")
    ensures ValueDone(before, files, t, v)
  {
    hide LocateSecret, TrimLineEnds;
  }

  lemma FileIsUntouchedByValues(plan: Plan, f: FileSpec)
    requires Apart(plan) && f in plan.files
    ensures !ValuesTouched(plan.values, f.inline) && !ValuesTouched(plan.values, f.file)
  {
    hide Apart;
    assert f.inline in FileVariables(f) && f.file in FileVariables(f);
    forall v | v in plan.values ensures FileVariables(f) !! ValueVariables(v) {
      FileAndValueApart(plan, f, v);
    }
  }

  lemma ValueIsUntouchedByFiles(plan: Plan, v: ValueSpec)
    requires Apart(plan) && v in plan.values
    ensures !FilesTouched(plan.files, v.name) && !FilesTouched(plan.files, v.name + "_FILE")
  {
    hide Apart;
    assert v.name in ValueVariables(v) && v.name + "_FILE" in ValueVariables(v);
    forall f | f in plan.files ensures FileVariables(f) !! ValueVariables(v) {
      FileAndValueApart(plan, f, v);
    }
  }

  lemma OutsideIsUntouched(plan: Plan, v: string)
    requires Outside(plan, v)
    ensures !FilesTouched(plan.files, v) && !ValuesTouched(plan.values, v)
  {
    hide FileVariables, ValueVariables;
  }

  ghost predicate LocationsShared(vars: Vars) {
    forall file :: file in VAULT_FILES ==> IsSharedLocation(vars, Kind(file), Get(vars, file.location))
  }

  lemma SameHome(before: Vars, after: Vars, file: VaultFile)
    requires file in VAULT_FILES && IsSharedLocation(before, Kind(file), Get(before, file.location))
    requires SameVariable(before, after, "ZABBIX_USER_HOME_DIR") && SameVariable(before, after, file.location)
    ensures IsSharedLocation(after, Kind(file), Get(after, file.location))
  {
  }

  lemma OneOfTwo(files: FileMap, current: string, legacy: string)
    ensures ResolveDirectory(files, current, legacy).Some? ==> ResolveDirectory(files, current, legacy).value in {current, legacy}
  {
    hide HasFiles;
  }

  lemma HomeIsNoLocation(file: VaultFile)
    requires file in VAULT_FILES
    ensures file.location != "ZABBIX_USER_HOME_DIR" && file.file != "ZABBIX_USER_HOME_DIR"
  {
  }

  lemma OneShared(s: State, file: VaultFile)
    requires file in VAULT_FILES && SharedDirectory(s, file).Some?
    ensures IsSharedLocation(s.vars, Kind(file), Get(SharedDirectory(s, file).value.vars, file.location))
    ensures SameBut(s.vars, SharedDirectory(s, file).value.vars, {file.location})
  {
    VaultFileFacts(file);
    hide ResolveDirectory, Join, IsShared, Paths.IsName, SharedCategory, LOCATIONS, Kind, External, VAULT_FILES, Home;
    OneOfTwo(s.files, External(file.category), Home(s.vars, file.category));
  }

  lemma SharedHere(s: State, file: VaultFile)
    requires file in VAULT_FILES && SharedDirectory(s, file).Some?
    ensures var vars := SharedDirectory(s, file).value.vars;
            IsSharedLocation(vars, Kind(file), Get(vars, file.location)) && SameBut(s.vars, vars, {file.location})
  {
    OneShared(s, file);
    HomeIsNoLocation(file);
    hide SharedDirectory, Kind, VAULT_FILES, Join, SharedCategory, External;
  }

  /** The second directory leaves the first one's location alone. */
  lemma SharedTwice(s: State, first: VaultFile, second: VaultFile)
    requires first in VAULT_FILES && second in VAULT_FILES && first.location != second.location
    requires SharedDirectory(s, first).Some? && SharedDirectory(SharedDirectory(s, first).value, second).Some?
    ensures var vars := SharedDirectory(SharedDirectory(s, first).value, second).value.vars;
            && IsSharedLocation(vars, Kind(first), Get(vars, first.location))
            && IsSharedLocation(vars, Kind(second), Get(vars, second.location))
  {
    HomeIsNoLocation(second);
    SharedHere(s, first);
    hide SharedDirectory, IsSharedLocation, Kind, VAULT_FILES;
    var next := SharedDirectory(s, first).value;
    SharedHere(next, second);
    SameHome(next.vars, SharedDirectory(next, second).value.vars, first);
  }

  lemma SharedAreShared(s: State)
    requires SharedDirectories(s).Some?
    ensures LocationsShared(SharedDirectories(s).value.vars)
  {
    SecondIsApart();
    assert forall file :: file in VAULT_FILES ==> file == VAULT_FILES[0] || file == VAULT_FILES[1];
    hide SharedDirectory, IsSharedLocation, Kind;
    SharedTwice(s, VAULT_FILES[0], VAULT_FILES[1]);
  }

  lemma SecondIsApart()
    ensures VAULT_FILES[0] in VAULT_FILES && VAULT_FILES[1] in VAULT_FILES
    ensures VAULT_FILES[1].location != VAULT_FILES[0].file && VAULT_FILES[1].location != VAULT_FILES[0].location
  {
  }

  lemma TwoVaultSteps(plan: Plan, before: Vars, mid: FileMap, s: State, first: VaultFile, second: VaultFile)
    requires Apart(plan) && CategoriesFit(plan.files) && HasVaultSpecs(plan.files) && LocationsShared(s.vars)
    requires first in VAULT_FILES && second in VAULT_FILES && second.location !in {first.file, first.location}
    requires Holds(plan, before, mid, s) && VaultFileStep(s, first).Some?
    requires VaultFileStep(VaultFileStep(s, first).value, second).Some?
    ensures Holds(plan, before, mid, VaultFileStep(VaultFileStep(s, first).value, second).value)
  {
    SharedAt(s.vars, first);
    SharedAfterFirst(s, first, second);
    hide *;
    VaultHolds(plan, before, mid, s, first);
    VaultHolds(plan, before, mid, VaultFileStep(s, first).value, second);
  }

  lemma SharedAt(vars: Vars, file: VaultFile)
    requires LocationsShared(vars) && file in VAULT_FILES
    ensures IsSharedLocation(vars, Kind(file), Get(vars, file.location))
  {
    hide IsSharedLocation, Kind;
  }

  /** Preparing one Vault file leaves the other location as it was found. */
  lemma SharedAfterFirst(s: State, first: VaultFile, second: VaultFile)
    requires LocationsShared(s.vars) && first in VAULT_FILES && second in VAULT_FILES
    requires second.location !in {first.file, first.location} && VaultFileStep(s, first).Some?
    ensures var vars := VaultFileStep(s, first).value.vars;
            IsSharedLocation(vars, Kind(second), Get(vars, second.location))
  {
    SharedAt(s.vars, second);
    HomeIsNoLocation(first);
    VaultStepIsLocal(s, first);
    hide VaultFileStep, IsSharedLocation, Kind, SameOutside, LocationsShared, VAULT_FILES;
    SameHome(s.vars, VaultFileStep(s, first).value.vars, second);
  }

  lemma VaultFilesHold(plan: Plan, before: Vars, mid: FileMap, s: State)
    requires Apart(plan) && CategoriesFit(plan.files) && HasVaultSpecs(plan.files) && LocationsShared(s.vars)
    requires Holds(plan, before, mid, s) && VaultFiles(s).Some?
    ensures Holds(plan, before, mid, VaultFiles(s).value)
  {
    SecondIsApart();
    hide VaultFileStep, Apart, CategoriesFit, HasVaultSpecs, Holds, LocationsShared;
    TwoVaultSteps(plan, before, mid, s, VAULT_FILES[0], VAULT_FILES[1]);
  }

  lemma DirectoriesHold(component: Component, command: Command, plan: Plan, before: Vars, mid: FileMap, s: State)
    requires Fit(component, command, plan) && Holds(plan, before, mid, s) && Directories(component, command, s).Some?
    ensures Holds(plan, before, mid, Directories(component, command, s).value)
  {
    hide Apart, CategoriesFit, AliasesApart, LooksLegacy, HasVaultSpecs, Holds, SharedDirectories, VaultFiles, GlobalCa,
         LocationsShared;
    var last := s;
    if (IsServer(component) || IsProxy(component)) && !command.InitDb? {
      SharedHolds(plan, before, mid, s);
      last := SharedDirectories(s).value;
      if command.Service? {
        SharedAreShared(s);
        VaultFilesHold(plan, before, mid, last);
        last := VaultFiles(last).value;
      }
    }
    if GlobalCa(last).Some? {
      GlobalCaHolds(plan, before, mid, last);
    }
  }

  lemma FinishHolds(component: Component, command: Command, plan: Plan, before: Vars, mid: FileMap, s: State)
    requires Fit(component, command, plan) && Holds(plan, before, mid, s) && FinishSteps(component, command, s, plan.files).Some?
    ensures Holds(plan, before, mid, FinishSteps(component, command, s, plan.files).value)
  {
    assert Apart(plan);
    DirectoriesHold(component, command, plan, before, mid, s);
    hide Apart, Fit, Directories, Holds, WebApmCa, ProviderCas;
    var next := Directories(component, command, s).value;
    if command.Service? && IsWeb(component) {
      WebApmCaHolds(plan, before, mid, next);
    }
    ProviderCasHold(plan, before, mid, WebDirectories(component, command, next).value, plan.files);
  }

  /** Legacy names are no variables of a step. */
  lemma LegacyIsOutside(plan: Plan, name: string)
    requires Apart(plan) && LooksLegacy(name)
    ensures Outside(plan, name)
  {
    LegacyIsNoEntry(plan, name);
    assert name[|name| - 1] == name[|name| - 4..][3] == 'E';
    hide Apart, PlanVariables, LooksLegacy;
    forall f ensures name != LocationName(f) {
      LocationNameEnds(f);
    }
    if name in LOCATIONS {
      FixedLocations(name);
    }
  }

  /**
   Main result. After a run without error, with `sources` the variables once unread, empty and legacy
   sources are out of the way: every entry is resolved, in spite of all the entries and directory steps
   behind it; legacy names are gone; and a variable that is no source, location or alias is as it was.
   */
  lemma SecretsResolve(decoder: Decoder, component: Component, command: Command, s: State)
    requires Resolve(decoder, component, command, s).Some?
    ensures var plan, t := PlanOf(decoder, s.vars, component, command), Resolve(decoder, component, command, s).value;
            if Empty(plan) then t == State(Dropped(s.vars, component), Cleaned(s.files, component, command))
            else RunDone(component, command, plan, s, t)
  {
    PlanFits(decoder, s.vars, component, command);
    hide PlanOf, Plannable, Run, Dropped, Cleaned, Fit, RunDone;
    var plan := PlanOf(decoder, s.vars, component, command);
    if Empty(plan) {
      EmptyRun(component, command, plan, s);
    } else {
      RunResolves(component, command, plan, s);
    }
  }

  ghost predicate RunDone(component: Component, command: Command, plan: Plan, s: State, t: State) {
    var dropped := Dropped(s.vars, component);
    var sources := Sources(s.vars, component, plan);
    sources.Some? &&
      var entries := Entries(State(sources.value, Cleaned(s.files, component, command)), plan);
      && entries.Some?
      && AliasesDone(WithoutEmpty(dropped, plan), sources.value, plan.aliases)
      && FilesHold(plan, sources.value, t) && ValuesHold(plan, sources.value, entries.value.files, t)
      && (forall a :: a in plan.aliases ==> a.legacy !in t.vars)
      && (forall v :: Outside(plan, v) && !AliasTouched(plan.aliases, v) ==> SameVariable(dropped, t.vars, v))
  }

  lemma EmptyRun(component: Component, command: Command, plan: Plan, s: State)
    requires Empty(plan) && Run(component, command, plan, s).Some?
    ensures Run(component, command, plan, s).value == State(Dropped(s.vars, component), Cleaned(s.files, component, command))
  {
  }

  lemma RunParts(component: Component, command: Command, plan: Plan, s: State)
    requires !Empty(plan) && Run(component, command, plan, s).Some?
    ensures var files, sources := Cleaned(s.files, component, command), Sources(s.vars, component, plan);
            && sources.Some? && Entries(State(sources.value, files), plan).Some?
            && Run(component, command, plan, s)
            == FinishSteps(component, command, Entries(State(sources.value, files), plan).value, plan.files)
  {
    hide Cleaned, Sources, Entries, FinishSteps;
  }

  /** Empty sources aside, nothing outside the plan has changed before the aliases. */
  lemma OutsideBefore(plan: Plan, dropped: Vars, sources: Vars, v: string)
    requires AliasesDone(WithoutEmpty(dropped, plan), sources, plan.aliases)
    requires Outside(plan, v) && !AliasTouched(plan.aliases, v)
    ensures SameVariable(dropped, sources, v)
  {
    hide PlanVariables, AliasDone, LOCATIONS;
    assert SameVariable(WithoutEmpty(dropped, plan), sources, v);
  }

  lemma LegaciesAreGone(plan: Plan, before: Vars, sources: Vars, t: State)
    requires Apart(plan) && AliasesDone(before, sources, plan.aliases)
    requires (forall a :: a in plan.aliases ==> LooksLegacy(a.legacy)) && OutsideHolds(plan, sources, t)
    ensures forall a :: a in plan.aliases ==> a.legacy !in t.vars
  {
    hide Apart, LooksLegacy, Outside, AliasDone;
    forall a | a in plan.aliases ensures a.legacy !in t.vars {
      LegacyIsOutside(plan, a.legacy);
      LegacyIsGone(before, sources, plan.aliases, a);
      assert SameVariable(sources, t.vars, a.legacy);
    }
  }

  lemma OthersAreKept(plan: Plan, dropped: Vars, sources: Vars, t: State)
    requires AliasesDone(WithoutEmpty(dropped, plan), sources, plan.aliases) && OutsideHolds(plan, sources, t)
    ensures forall v :: Outside(plan, v) && !AliasTouched(plan.aliases, v) ==> SameVariable(dropped, t.vars, v)
  {
    hide Outside, AliasTouched, AliasesDone, WithoutEmpty;
    forall v | Outside(plan, v) && !AliasTouched(plan.aliases, v) ensures SameVariable(dropped, t.vars, v) {
      OutsideBefore(plan, dropped, sources, v);
      assert SameVariable(sources, t.vars, v);
    }
  }

  lemma RunResolves(component: Component, command: Command, plan: Plan, s: State)
    requires Fit(component, command, plan) && !Empty(plan) && Run(component, command, plan, s).Some?
    ensures RunDone(component, command, plan, s, Run(component, command, plan, s).value)
  {
    assert Apart(plan) && AliasesApart(plan.aliases) && forall a :: a in plan.aliases ==> LooksLegacy(a.legacy);
    RunParts(component, command, plan, s);
    hide Apart, Fit, AliasesApart, Dropped, Cleaned, WithoutEmpty, FilesHold, ValuesHold, OutsideHolds, Outside, Entries, FinishSteps,
         MergeAliases, AliasTouched, LooksLegacy, AliasesDone, Empty, Run, SameVariable;
    var dropped, sources := Dropped(s.vars, component), Sources(s.vars, component, plan).value;
    AliasesMerge(WithoutEmpty(dropped, plan), plan.aliases);
    var start := State(sources, Cleaned(s.files, component, command));
    EntriesHold(plan, start);
    var entries, t := Entries(start, plan).value, Run(component, command, plan, s).value;
    FinishHolds(component, command, plan, sources, entries.files, entries);
    LegaciesAreGone(plan, WithoutEmpty(dropped, plan), sources, t);
    OthersAreKept(plan, dropped, sources, t);
  }

  lemma LegacyIsGone(before: Vars, after: Vars, aliases: seq<Alias>, a: Alias)
    requires AliasesDone(before, after, aliases) && a in aliases
    ensures a.legacy !in after
  {
  }
}
