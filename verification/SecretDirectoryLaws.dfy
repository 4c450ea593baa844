/** The directory steps keep every secret that the plan has put in place. */
module SecretDirectoryLaws {
  import opened Text
  import opened ProcessEnvironment
  import opened SecretPlan
  import opened SecretPlanLaws
  import opened SecretFiles
  import opened SecretDirectories
  import Paths

  // ---- the managed root ----

  lemma RunIsClean()
    ensures Paths.Components("/run") == ["run"] && Paths.Clean("/run") == "/run"
  {
    RootSplits();
    Paths.StepFromRoot("run");
    assert "/" + "run" == "/run";
    assert JoinWith(["run"], '/') == "run";
  }

  lemma RootSplits()
    ensures Paths.Components("/") == []
  {
    assert SplitOn("/", '/') == ["", ""];
    assert Paths.Walk(["", ""], [], true) == Paths.Walk([""], [], true) == [];
  }

  lemma RootNames(name: string)
    requires name == "zabbix" || name == "secrets_internal" || name == "secrets"
    ensures Paths.IsName(name)
  {
  }

  lemma ManagedRootIs()
    ensures MANAGED_ROOT == "/run" + "/" + "zabbix" + "/" + "secrets_internal"
  {
  }

  lemma ExternalRootIs()
    ensures EXTERNAL_ROOT == "/run" + "/" + "zabbix" + "/" + "secrets"
  {
  }

  function ManagedParts(): seq<string> { ["run"] + ["zabbix"] + ["secrets_internal"] }
  function ExternalParts(): seq<string> { ["run"] + ["zabbix"] + ["secrets"] }

  lemma RootsAreClean()
    ensures Paths.Clean(MANAGED_ROOT) == MANAGED_ROOT && Paths.IsAbs(MANAGED_ROOT) && MANAGED_ROOT != "/"
    ensures Paths.Components(MANAGED_ROOT) == ManagedParts()
    ensures Paths.Clean(EXTERNAL_ROOT) == EXTERNAL_ROOT && Paths.IsAbs(EXTERNAL_ROOT) && EXTERNAL_ROOT != "/"
    ensures Paths.Components(EXTERNAL_ROOT) == ExternalParts()
  {
    hide Paths.Clean, Paths.Components, Paths.IsName;
    var zabbix, managed, external := "zabbix", "secrets_internal", "secrets";
    RunIsClean();
    RootNames(zabbix);
    RootNames(managed);
    RootNames(external);
    ManagedRootIs();
    ExternalRootIs();
    Paths.CleanJoin("/run", zabbix);
    Paths.CleanJoin("/run" + "/" + zabbix, managed);
    Paths.CleanJoin("/run" + "/" + zabbix, external);
  }

  lemma TwoSteps(root: string, first: string, second: string)
    requires Paths.IsAbs(root) && Paths.Clean(root) == root && root != "/" && Paths.IsName(first) && Paths.IsName(second)
    ensures var path := root + "/" + (first + "/" + second);
            && Paths.IsAbs(path) && Paths.Clean(path) == path
            && Paths.Components(path) == Paths.Components(root) + [first, second]
  {
    hide Paths.Clean, Paths.Components, Paths.IsName;
    Paths.CleanJoin(root, first);
    Paths.CleanJoin(root + "/" + first, second);
    assert root + "/" + (first + "/" + second) == root + "/" + first + "/" + second;
    assert Paths.Components(root) + [first] + [second] == Paths.Components(root) + [first, second];
  }

  /** The two directories of shared TLS files. */
  predicate IsShared(kind: string) {
    kind == "certs" || kind == "keys"
  }

  lemma SharedNames(kind: string)
    requires IsShared(kind)
    ensures Paths.IsName(kind) && Paths.IsName("ssl") && kind != "ssl"
  {
  }

  function SharedCategory(kind: string): string {
    "ssl" + "/" + kind
  }

  function SharedParts(kind: string): seq<string> {
    ManagedParts() + ["ssl", kind]
  }

  lemma SharedTarget(kind: string, name: string)
    requires IsShared(kind) && Paths.IsName(name)
    ensures var target := Managed(SharedCategory(kind));
            && Paths.Clean(target) == target && Paths.IsAbs(target) && Paths.Components(target) == SharedParts(kind)
            && Paths.Clean(CopyPath(target, name)) == CopyPath(target, name) && Paths.IsAbs(CopyPath(target, name))
            && Paths.Components(CopyPath(target, name)) == SharedParts(kind) + [name]
  {
    RootsAreClean();
    SharedNames(kind);
    hide Paths.Clean, Paths.Components, Paths.IsName, IsShared, ManagedParts;
    TwoSteps(MANAGED_ROOT, "ssl", kind);
    var target := Managed(SharedCategory(kind));
    assert MANAGED_ROOT + "/" + ("ssl" + "/" + kind) == target;
    assert |target| > 1;
    Paths.CleanJoin(target, name);
  }

  /** Where the shared directory may be found. */
  predicate IsSharedLocation(vars: Vars, kind: string, location: string) {
    location == External(SharedCategory(kind)) || location == Home(vars, SharedCategory(kind))
  }

  lemma ThirdStepShows(base: string, path: string)
    requires |Paths.Components(base)| > 2 && |Paths.Components(path)| > 2
    requires Paths.Components(base)[2] != Paths.Components(path)[2]
    ensures !Within(base, path)
  {
    hide Paths.Components;
  }

  lemma ExternalThird(kind: string)
    requires IsShared(kind)
    ensures |Paths.Components(External(SharedCategory(kind)))| > 2
    ensures Paths.Components(External(SharedCategory(kind)))[2] == ExternalParts()[2]
  {
    RootsAreClean();
    SharedNames(kind);
    hide Paths.Clean, Paths.Components, Paths.IsName, Paths.IsAbs, IsShared;
    TwoSteps(EXTERNAL_ROOT, "ssl", kind);
    assert EXTERNAL_ROOT + "/" + ("ssl" + "/" + kind) == External(SharedCategory(kind));
  }

  lemma ManagedThird(kind: string, name: string)
    requires IsShared(kind) && Paths.IsName(name)
    ensures var path := CopyPath(Managed(SharedCategory(kind)), name);
            |Paths.Components(path)| > 2 && Paths.Components(path)[2] == ManagedParts()[2]
  {
    SharedTarget(kind, name);
    RootsDiffer();
    hide Paths.Components, ManagedParts, IsShared, Paths.IsName, Paths.Clean;
  }

  lemma ExternalIsElsewhere(kind: string, path: string, name: string)
    requires IsShared(kind) && path == CopyPath(Managed(SharedCategory(kind)), name) && Paths.IsName(name)
    ensures !Within(External(SharedCategory(kind)), path)
  {
    hide *;
    ExternalThird(kind);
    ManagedThird(kind, name);
    RootsDiffer();
    ThirdStepShows(External(SharedCategory(kind)), path);
  }

  lemma RootsDiffer()
    ensures |ManagedParts()| == 3 && |ExternalParts()| == 3 && ManagedParts()[2] != ExternalParts()[2]
    ensures forall i :: 0 <= i < 3 ==> ManagedParts()[i] != "ssl"
  {
    assert |ManagedParts()[2]| == 16 && |ExternalParts()[2]| == 7;
    assert ManagedParts()[0][0] == 'r' && |ManagedParts()[1]| == 6;
  }

  lemma HomeComponents(home: string, kind: string)
    requires IsShared(kind) && Paths.IsAbs(home)
    ensures var location := Join(home, SharedCategory(kind));
            Paths.IsAbs(location) && Paths.Components(location) == Paths.Components(home) + ["ssl", kind]
  {
    SharedNames(kind);
    hide Paths.Components, Paths.Clean;
    var path := home + "/" + ("ssl" + "/" + kind);
    assert path == home + "/" + "ssl" + "/" + kind;
    Paths.ComponentsJoin(home, "ssl");
    Paths.ComponentsJoin(home + "/" + "ssl", kind);
    Paths.CleanLeadsToTheSame(path);
    CleanStaysAbsolute(path);
    assert Paths.Components(home) + ["ssl"] + [kind] == Paths.Components(home) + ["ssl", kind];
  }

  lemma CleanStaysAbsolute(path: string)
    requires Paths.IsAbs(path)
    ensures Paths.IsAbs(Paths.Clean(path))
  {
  }

  lemma RelativeHome(home: string, kind: string)
    requires IsShared(kind) && !Paths.IsAbs(home)
    ensures !Paths.IsAbs(Join(home, SharedCategory(kind)))
  {
    hide Paths.Clean;
    Paths.CleanKeepsRelative(if home == "" then SharedCategory(kind) else home + "/" + SharedCategory(kind));
  }

  /** A shared location that holds a managed secret is the managed directory itself. */
  lemma HoldingLocationIsTarget(vars: Vars, kind: string, location: string, name: string)
    requires IsShared(kind) && IsSharedLocation(vars, kind, location) && Paths.IsName(name)
    requires Within(location, CopyPath(Managed(SharedCategory(kind)), name))
    ensures Paths.Clean(location) == Managed(SharedCategory(kind))
  {
    var home, target := Get(vars, "ZABBIX_USER_HOME_DIR"), Managed(SharedCategory(kind));
    SharedTarget(kind, name);
    ExternalIsElsewhere(kind, CopyPath(target, name), name);
    hide SharedParts, Paths.Components, Paths.IsName;
    if Paths.IsAbs(home) {
      HomeComponents(home, kind);
      PrefixEndsWithKind(Paths.Components(home), kind, name);
    } else {
      RelativeHome(home, kind);
    }
  }

  lemma PrefixEndsWithKind(home: seq<string>, kind: string, name: string)
    requires IsShared(kind) && home + ["ssl", kind] <= SharedParts(kind) + [name]
    ensures home + ["ssl", kind] == SharedParts(kind)
  {
    SharedNames(kind);
    RootsDiffer();
    hide ManagedParts, IsShared;
    var m, b, k := SharedParts(kind) + [name], home + ["ssl", kind], |home|;
    assert b[k] == "ssl" && m[k] == b[k] && k + 1 < |m| == 6;
    assert m[3] == "ssl" && m[4] == kind;
    assert forall i :: 0 <= i < 3 ==> m[i] == ManagedParts()[i];
    assert k == 3;
    assert b == m[..5] && SharedParts(kind) == m[..5];
  }

  // ---- the Vault step ----

  /** The entry of the plan that a Vault file belongs to. */
  predicate IsVaultEntry(f: FileSpec, file: VaultFile, kind: string) {
    && IsShared(kind) && file.category == SharedCategory(kind) && Paths.IsName(file.file)
    && f.file == file.file && f.category == file.category
    && file.location != f.inline && file.location != f.file && f.inline != f.file
  }

  lemma EntryPath(f: FileSpec, file: VaultFile, kind: string)
    requires IsVaultEntry(f, file, kind)
    ensures ManagedPath(f) == CopyPath(Managed(file.category), file.file)
    ensures Under(Managed(file.category), ManagedPath(f))
  {
    var target := Managed(file.category);
    assert target + "/" == ManagedPath(f)[..|target| + 1];
  }

  /** What the Vault step may do with its own entry. */
  predicate VaultKeeps(s: State, t: State, f: FileSpec) {
    var path, after, managed := Get(s.vars, f.file), Get(t.vars, f.file), ManagedPath(f);
    && SameVariable(s.vars, t.vars, f.inline)
    && (f.file in t.vars <==> f.file in s.vars)
    && (path == "" ==> after == "" && managed !in t.files)
    && (path != "" ==> after == path || after == managed)
    && (path == managed && managed in s.files ==> after == managed && managed in t.files && t.files[managed] == s.files[managed])
  }

  /** Main step: preparing the Vault directories keeps an inline secret where the plan has put it. */
  lemma VaultStepKeeps(s: State, file: VaultFile, f: FileSpec, kind: string)
    requires IsVaultEntry(f, file, kind) && IsSharedLocation(s.vars, kind, Get(s.vars, file.location))
    requires VaultFileStep(s, file).Some?
    ensures VaultKeeps(s, VaultFileStep(s, file).value, f)
  {
    EntryPath(f, file, kind);
    SharedTarget(kind, file.file);
    var path, location, target := Get(s.vars, file.file), Get(s.vars, file.location), Managed(file.category);
    ClearIsLocal(s.files, target);
    hide Paths.IsName, IsShared, SharedCategory, Managed, ManagedPath, CopyPath, Paths.Clean, Paths.Components, RemoveTree, Listing,
         Paths.IsAbs, Under;
    if path == ManagedPath(f) && Within(location, path) {
      HoldingLocationIsTarget(s.vars, kind, location, file.file);
    }
    hide Within, IsSharedLocation, CopyDirectory, SharedParts, ManagedParts, ClearDir, Copied;
  }

  lemma VaultStepIsLocal(s: State, file: VaultFile)
    requires VaultFileStep(s, file).Some?
    ensures SameOutside(s.files, VaultFileStep(s, file).value.files, Managed(file.category))
    ensures SameBut(s.vars, VaultFileStep(s, file).value.vars, {file.file, file.location})
  {
    var location, target := Get(s.vars, file.location), Managed(file.category);
    var kept := RemoveTree(s.files, target);
    ClearIsLocal(s.files, target);
    CopyIsLocal(kept, target, location);
    SameIsLocal(s.files, target);
    CopyIsUnder(target, file.file);
    OutsideTwice(s.files, kept, CopyDirectory(kept, target, location), target);
    hide CopyDirectory, Listing, RemoveTree, Within, Managed, CopyPath, Under, Paths.Clean;
  }

  lemma CopyIsUnder(dir: string, name: string)
    ensures Under(dir, CopyPath(dir, name))
  {
    assert CopyPath(dir, name)[..|dir| + 1] == dir + "/";
  }

  lemma OutsideTwice(a: FileMap, b: FileMap, c: FileMap, dir: string)
    requires SameOutside(a, b, dir) && SameOutside(b, c, dir)
    ensures SameOutside(a, c, dir)
  {
    hide Under;
    forall p | p != dir && !Under(dir, p) ensures SameFile(a, c, p) {
      assert SameFile(a, b, p) && SameFile(b, c, p);
    }
  }

  // ---- managed secrets lie apart from the certificate directories ----

  lemma DropRoot(root: string, dir: string, category: string, file: string)
    requires root + "/" + dir + "/" <= root + "/" + category + "/" + file
    ensures dir + "/" <= category + "/" + file
  {
    var head, path, tail, n := root + "/" + dir + "/", root + "/" + category + "/" + file, category + "/" + file, |root| + 1;
    assert head[n..] == dir + "/" && path[n..] == tail;
    assert head[n..] == path[n..][..|dir| + 1];
  }

  lemma DirectoryOfFile(dir: string, category: string, file: string)
    requires '/' !in file && dir + "/" <= category + "/" + file
    ensures |dir| <= |category| && dir == category[..|dir|] && (|dir| < |category| ==> category[|dir|] == '/')
  {
    var head, tail := dir + "/", category + "/" + file;
    assert tail[|dir|] == head[|dir|] == '/';
    assert forall i :: |category| < i < |tail| ==> tail[i] == file[i - |category| - 1] && tail[i] in file;
    assert forall i :: 0 <= i < |dir| ==> dir[i] == head[i] == tail[i];
    assert forall i :: 0 <= i < |category| ==> tail[i] == category[i];
  }

  lemma PathsUnder(dir: string, f: FileSpec)
    requires '/' !in f.file && Under(Managed(dir), ManagedPath(f))
    ensures |dir| <= |f.category| && dir == f.category[..|dir|] && (|dir| < |f.category| ==> f.category[|dir|] == '/')
  {
    DropRoot(MANAGED_ROOT, dir, f.category, f.file);
    DirectoryOfFile(dir, f.category, f.file);
  }

  lemma NotTheDirectory(dir: string, name: string, f: FileSpec)
    requires '/' !in f.file && '/' !in name && f.file != name
    ensures ManagedPath(f) != Managed(dir + "/" + name)
  {
    LastElementShows(MANAGED_ROOT + "/" + f.category, f.file, MANAGED_ROOT + "/" + dir, name);
    assert Managed(dir + "/" + name) == MANAGED_ROOT + "/" + dir + "/" + name;
  }

  lemma FileHasNoSlash(f: FileSpec)
    requires GoodFile(f) && GoodStem(f.inline)
    ensures '/' !in f.file && |f.file| >= 8
  {
  }

  lemma AuthorityShows(category: string, dir: string)
    requires |dir| + 3 <= |category| && category[..|dir| + 3] == dir + "/ca"
    ensures !GoodCategory(category)
  {
    var n, head := |dir|, dir + "/ca";
    assert category[n] == head[n] && category[n + 1] == head[n + 1] && category[n + 2] == head[n + 2];
  }

  /** No secret of the plan lies in a directory of certificate authorities. */
  lemma OutsideAuthorities(f: FileSpec, dir: string, before: FileMap, after: FileMap)
    requires GoodFile(f) && GoodStem(f.inline) && SameOutside(before, after, Managed(dir + "/ca"))
    ensures SameFile(before, after, ManagedPath(f))
  {
    FileHasNoSlash(f);
    assert dir + "/" + "ca" == dir + "/ca";
    NotTheDirectory(dir, "ca", f);
    hide ManagedPath, Managed, Under, GoodCategory, GoodStem, SameFile;
    if Under(Managed(dir + "/ca"), ManagedPath(f)) {
      PathsUnder(dir + "/ca", f);
      AuthorityShows(f.category, dir);
    }
  }

  /** Entries outside the shared TLS directories are not touched by the Vault step. */
  predicate NotShared(category: string) {
    !("ssl/" <= category)
  }

  lemma OutsideShared(f: FileSpec, kind: string, before: FileMap, after: FileMap)
    requires GoodFile(f) && GoodStem(f.inline) && IsShared(kind) && SameOutside(before, after, Managed(SharedCategory(kind)))
    requires NotShared(f.category) || (IsShared(f.category[4..]) && f.category != SharedCategory(kind))
    ensures SameFile(before, after, ManagedPath(f))
  {
    FileHasNoSlash(f);
    NotTheDirectory("ssl", kind, f);
    if Under(Managed(SharedCategory(kind)), ManagedPath(f)) {
      PathsUnder(SharedCategory(kind), f);
    }
  }
}
