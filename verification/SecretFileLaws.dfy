/** Which files a resolution leaves alone, and that nothing of an earlier run is left behind. */
module SecretFileLaws {
  import opened Text
  import opened ProviderConfiguration
  import opened SecretPlan
  import opened SecretPlanLaws
  import opened SecretFiles
  import opened SecretDirectories
  import opened SecretDirectoryLaws
  import opened SecretResolution
  import opened SecretPlanFits
  import opened SecretResolutionLaws

  predicate InDirectory(dir: string, p: string) {
    p == dir || Under(dir, p)
  }

  const SHARED_DIRECTORIES: seq<string> := ["ssl/certs", "ssl/keys", "ssl/ca", "apm/ca"]

  /** A file that is no managed copy of the plan and lies in no directory that the image prepares. */
  ghost predicate Elsewhere(plan: Plan, p: string) {
    && (forall dir :: dir in SHARED_DIRECTORIES ==> !InDirectory(Managed(dir), p))
    && (forall f :: f in plan.files ==> p != ManagedPath(f) && !InDirectory(Managed(f.category + "/ca"), p))
  }

  ghost predicate KeptElsewhere(plan: Plan, before: FileMap, after: FileMap) {
    forall p :: Elsewhere(plan, p) ==> SameFile(before, after, p)
  }

  lemma KeptTwice(plan: Plan, a: FileMap, b: FileMap, c: FileMap)
    requires KeptElsewhere(plan, a, b) && KeptElsewhere(plan, b, c)
    ensures KeptElsewhere(plan, a, c)
  {
    hide Elsewhere;
    forall p | Elsewhere(plan, p) ensures SameFile(a, c, p) {
      assert SameFile(a, b, p) && SameFile(b, c, p);
    }
  }

  lemma KeptOutside(plan: Plan, before: FileMap, after: FileMap, dir: string)
    requires SameOutside(before, after, Managed(dir))
    requires dir in SHARED_DIRECTORIES || exists f :: f in plan.files && dir == f.category + "/ca"
    ensures KeptElsewhere(plan, before, after)
  {
    hide SHARED_DIRECTORIES, Managed, ManagedPath, SameFile, Under;
  }

  lemma EntriesKeep(plan: Plan, s: State)
    requires Apart(plan) && Entries(s, plan).Some?
    ensures KeptElsewhere(plan, s.files, Entries(s, plan).value.files)
  {
    PlanListsApart(plan);
    FilesResolve(s, plan.files);
    ValuesResolve(ResolveFiles(s, plan.files).value, plan.values);
    hide Apart, ResolveFiles, ResolveValues, FileDone, ValueDone, SameFile, Managed, SHARED_DIRECTORIES, InDirectory, ManagedPath;
    forall p | Elsewhere(plan, p) ensures !PathTouched(plan.files, p) {
    }
  }

  lemma SharedDirectoryNames()
    ensures VAULT_FILES[0].category in SHARED_DIRECTORIES && VAULT_FILES[1].category in SHARED_DIRECTORIES
    ensures "ssl/ca" in SHARED_DIRECTORIES && "apm/ca" in SHARED_DIRECTORIES
  {
    assert SHARED_DIRECTORIES[0] == "ssl/certs" && SHARED_DIRECTORIES[1] == "ssl/keys";
    assert SHARED_DIRECTORIES[2] == "ssl/ca" && SHARED_DIRECTORIES[3] == "apm/ca";
  }

  lemma VaultFilesKeep(plan: Plan, s: State)
    requires VaultFiles(s).Some?
    ensures KeptElsewhere(plan, s.files, VaultFiles(s).value.files)
  {
    SharedDirectoryNames();
    hide VaultFileStep, KeptElsewhere, SameOutside, SHARED_DIRECTORIES, Managed;
    var next := VaultFileStep(s, VAULT_FILES[0]).value;
    VaultStepIsLocal(s, VAULT_FILES[0]);
    VaultStepIsLocal(next, VAULT_FILES[1]);
    KeptOutside(plan, s.files, next.files, VAULT_FILES[0].category);
    KeptOutside(plan, next.files, VaultFiles(s).value.files, VAULT_FILES[1].category);
    KeptTwice(plan, s.files, next.files, VaultFiles(s).value.files);
  }

  lemma GlobalCaKeeps(plan: Plan, s: State)
    requires GlobalCa(s).Some?
    ensures KeptElsewhere(plan, s.files, GlobalCa(s).value.files)
  {
    SharedDirectoryNames();
    GlobalCaIsLocal(s);
    hide GlobalCa, SameOutside, SHARED_DIRECTORIES, Managed;
    KeptOutside(plan, s.files, GlobalCa(s).value.files, "ssl/ca");
  }

  lemma WebApmCaKeeps(plan: Plan, s: State)
    requires WebApmCa(s).Some?
    ensures KeptElsewhere(plan, s.files, WebApmCa(s).value.files)
  {
    SharedDirectoryNames();
    WebApmCaIsLocal(s);
    hide WebApmCa, SameOutside, SHARED_DIRECTORIES, Managed;
    KeptOutside(plan, s.files, WebApmCa(s).value.files, "apm/ca");
  }

  lemma {:induction false} ProviderCasKeep(plan: Plan, s: State, files: seq<FileSpec>)
    requires (forall f :: f in files ==> f in plan.files) && ProviderCas(s, files).Some?
    ensures KeptElsewhere(plan, s.files, ProviderCas(s, files).value.files)
    decreases |files|
  {
    hide ProviderCa, Elsewhere, SameOutside, Managed;
    if files != [] {
      var next := ProviderCa(s, files[0]).value;
      ProviderCaIsLocal(s, files[0]);
      assert files[0] in plan.files;
      KeptOutside(plan, s.files, next.files, files[0].category + "/ca");
      ProviderCasKeep(plan, next, files[1..]);
      KeptTwice(plan, s.files, next.files, ProviderCas(s, files).value.files);
    }
  }

  lemma KeptSame(plan: Plan, files: FileMap)
    ensures KeptElsewhere(plan, files, files)
  {
    hide Elsewhere;
  }

  lemma DirectoriesKeep(component: Component, command: Command, plan: Plan, s: State)
    requires Directories(component, command, s).Some?
    ensures KeptElsewhere(plan, s.files, Directories(component, command, s).value.files)
  {
    KeptSame(plan, s.files);
    hide KeptElsewhere, SharedDirectories, VaultFiles, GlobalCa, SameBut;
    var last := s;
    if (IsServer(component) || IsProxy(component)) && !command.InitDb? {
      SharedDirectoriesAreLocal(s);
      last := SharedDirectories(s).value;
      if command.Service? {
        VaultFilesKeep(plan, last);
        last := VaultFiles(last).value;
      }
    }
    if GlobalCa(last).Some? {
      GlobalCaKeeps(plan, last);
      KeptTwice(plan, s.files, last.files, GlobalCa(last).value.files);
    }
  }

  lemma FinishKeeps(component: Component, command: Command, plan: Plan, s: State)
    requires FinishSteps(component, command, s, plan.files).Some?
    ensures KeptElsewhere(plan, s.files, FinishSteps(component, command, s, plan.files).value.files)
  {
    DirectoriesKeep(component, command, plan, s);
    hide KeptElsewhere, Directories, WebApmCa, ProviderCas;
    var next := Directories(component, command, s).value;
    var last := WebDirectories(component, command, next).value;
    if command.Service? && IsWeb(component) {
      WebApmCaKeeps(plan, next);
      KeptTwice(plan, s.files, next.files, last.files);
    }
    ProviderCasKeep(plan, last, plan.files);
    KeptTwice(plan, s.files, last.files, FinishSteps(component, command, s, plan.files).value.files);
  }

  lemma RunKeeps(component: Component, command: Command, plan: Plan, s: State)
    requires Apart(plan) && Run(component, command, plan, s).Some?
    ensures KeptElsewhere(plan, Cleaned(s.files, component, command), Run(component, command, plan, s).value.files)
  {
    var files := Cleaned(s.files, component, command);
    if Empty(plan) {
      KeptSame(plan, files);
    } else {
      RunParts(component, command, plan, s);
      hide Apart, KeptElsewhere, Entries, FinishSteps, Cleaned, Sources, Run, Empty;
      var start := State(Sources(s.vars, component, plan).value, files);
      EntriesKeep(plan, start);
      var entries := Entries(start, plan).value;
      FinishKeeps(component, command, plan, entries);
      KeptTwice(plan, files, entries.files, Run(component, command, plan, s).value.files);
    }
  }

  /**
   Main result: apart from the managed copies of its own entries and the directories it prepares, a run
   changes no file, except that managed provider files of an earlier run are gone.
   */
  lemma OnlyOwnFilesChange(decoder: Decoder, component: Component, command: Command, s: State, p: string)
    requires Resolve(decoder, component, command, s).Some?
    requires Elsewhere(PlanOf(decoder, s.vars, component, command), p)
    ensures var after, stale := Resolve(decoder, component, command, s).value.files, StaleOf(Families(component, command), p);
            && (p in after <==> p in s.files && !stale)
            && (p in after ==> after[p] == s.files[p])
  {
    var plan := PlanOf(decoder, s.vars, component, command);
    PlanFits(decoder, s.vars, component, command);
    hide PlanOf, Plannable, Elsewhere, Apart, Run, StaleOf, Families;
    RunKeeps(component, command, plan, s);
    assert SameFile(Cleaned(s.files, component, command), Run(component, command, plan, s).value.files, p);
  }
}
