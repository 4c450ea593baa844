/** Where the files of secrets lie, and exactly when all entries of a plan can be resolved. */
module SecretLocations {
  import opened Text
  import opened ProcessEnvironment
  import opened ProviderConfiguration
  import opened SecretPlan
  import opened SecretPlanLaws
  import opened SecretFiles
  import opened SecretDirectories
  import opened SecretDirectoryLaws
  import opened SecretResolution
  import opened SecretResolutionLaws
  import opened SecretPlanFits
  import opened SecretRegistry
  import Paths
  import Decimal

  // ---- paths that stay inside their directory ----

  /** How deep a sequence of path elements leads: names lead down, two dots lead up. */
  function Level(elements: seq<string>): int {
    if elements == [] then 0
    else
      var last := elements[|elements| - 1];
      Level(elements[..|elements| - 1]) + (if last == "" || last == "." then 0 else if last == ".." then -1 else 1)
  }

  /** No beginning of the path leads above where it starts. */
  predicate StaysInside(path: string) {
    forall k :: 0 <= k <= |SplitOn(path, '/')| ==> Level(SplitOn(path, '/')[..k]) >= 0
  }

  predicate NeverAbove(elements: seq<string>) {
    forall k :: 0 <= k <= |elements| ==> Level(elements[..k]) >= 0
  }

  lemma NeverAboveBefore(elements: seq<string>)
    requires elements != []
    ensures var before := elements[..|elements| - 1];
            NeverAbove(elements) <==> NeverAbove(before) && Level(elements) >= 0
  {
    var n := |elements|;
    var before := elements[..n - 1];
    assert elements[..n] == elements;
    forall k | 0 <= k < n ensures before[..k] == elements[..k] {
    }
    hide Level;
    if NeverAbove(elements) {
      forall k | 0 <= k <= n - 1 ensures Level(before[..k]) >= 0 {
        assert Level(elements[..k]) >= 0;
      }
      assert Level(elements[..n]) >= 0;
    }
    if NeverAbove(before) && Level(elements) >= 0 {
      forall k | 0 <= k <= n ensures Level(elements[..k]) >= 0 {
        if k < n { assert Level(before[..k]) >= 0; }
      }
    }
  }

  /** A walk from an absolute or relative directory that stays inside is the walk from nowhere behind it. */
  lemma {:induction false} InsideWalk(elements: seq<string>, at: seq<string>, rooted: bool)
    requires Paths.AllNames(at) && NeverAbove(elements) && forall e :: e in elements ==> '/' !in e
    ensures var inner := Paths.Walk(elements, [], false);
            Paths.AllNames(inner) && |inner| == Level(elements) && Paths.Walk(elements, at, rooted) == at + inner
    decreases |elements|
  {
    if elements != [] {
      var n := |elements|;
      var before, last := elements[..n - 1], elements[n - 1];
      assert elements == before + [last];
      NeverAboveBefore(elements);
      InsideWalk(before, at, rooted);
      OneMore(before, last, [], false);
      OneMore(before, last, at, rooted);
      LastStep(Paths.Walk(before, [], false), last, at, rooted, Level(elements));
    }
  }

  lemma OneMore(before: seq<string>, last: string, at: seq<string>, rooted: bool)
    ensures Paths.Walk(before + [last], at, rooted) == Paths.Enter(Paths.Walk(before, at, rooted), last, rooted)
  {
    Paths.WalkConcat(before, [last], at, rooted);
    assert [last][1..] == [];
  }

  lemma LastStep(inner: seq<string>, last: string, at: seq<string>, rooted: bool, level: int)
    requires Paths.AllNames(at) && Paths.AllNames(inner) && '/' !in last && level >= 0
    requires level == |inner| + (if last == "" || last == "." then 0 else if last == ".." then -1 else 1)
    ensures var next := Paths.Enter(inner, last, false);
            Paths.AllNames(next) && |next| == level && Paths.Enter(at + inner, last, rooted) == at + next
  {
    if last == ".." {
      assert inner[|inner| - 1] != "..";
      assert (at + inner)[..|at + inner| - 1] == at + inner[..|inner| - 1];
    }
  }

  lemma {:induction false} OutsideWalk(elements: seq<string>)
    requires !NeverAbove(elements) && forall e :: e in elements ==> '/' !in e
    ensures var walked := Paths.Walk(elements, [], false); walked != [] && walked[0] == ".."
    decreases |elements|
  {
    var n := |elements|;
    assert elements != [] by { assert Level([]) == 0; }
    var before, last := elements[..n - 1], elements[n - 1];
    assert elements == before + [last];
    NeverAboveBefore(elements);
    OneMore(before, last, [], false);
    if NeverAbove(before) {
      InsideWalk(before, [], false);
    } else {
      OutsideWalk(before);
    }
  }

  lemma {:induction false} ElementsHaveNoSlash(path: string)
    ensures forall e :: e in SplitOn(path, '/') ==> '/' !in e
    decreases |path|
  {
    if path != "" { ElementsHaveNoSlash(path[1..]); }
  }

  /** `filepath.IsLocal` accepts exactly the relative paths that never lead above their start. */
  lemma LocalStaysInside(path: string)
    ensures IsLocal(path) <==> path != "" && !Paths.IsAbs(path) && StaysInside(path)
  {
    var elements := SplitOn(path, '/');
    ElementsHaveNoSlash(path);
    assert StaysInside(path) <==> NeverAbove(elements);
    if path != "" && !Paths.IsAbs(path) {
      if NeverAbove(elements) {
        InsideWalk(elements, [], false);
        assert Paths.Components(path) != [] ==> Paths.IsName(Paths.Components(path)[0]);
      } else {
        OutsideWalk(elements);
      }
    }
  }

  // ---- the places ----

  /** A cleaned relative path below a directory; the directory itself for a path that leads nowhere. */
  function Under(dir: string, path: string): string {
    if Paths.Clean(path) == "." then dir else dir + "/" + Paths.Clean(path)
  }

  lemma ComponentsBelow(dir: string, path: string)
    requires Paths.IsAbs(dir) && IsLocal(path)
    ensures Paths.AllNames(Paths.Components(path))
    ensures Paths.Components(dir + "/" + path) == Paths.Components(dir) + Paths.Components(path)
  {
    LocalStaysInside(path);
    ElementsHaveNoSlash(path);
    ElementsHaveNoSlash(dir);
    Paths.RootedWalkHasNames(SplitOn(dir, '/'), []);
    Paths.SplitConcat(dir, path);
    Paths.WalkConcat(SplitOn(dir, '/'), SplitOn(path, '/'), [], true);
    InsideWalk(SplitOn(path, '/'), Paths.Components(dir), true);
  }

  lemma {:induction false} JoinBehind(front: seq<string>, back: seq<string>)
    requires front != [] && back != []
    ensures JoinWith(front + back, '/') == JoinWith(front, '/') + "/" + JoinWith(back, '/')
    decreases |front|
  {
    if |front| == 1 {
      assert (front + back)[1..] == back;
    } else {
      assert (front + back)[1..] == front[1..] + back;
      JoinBehind(front[1..], back);
    }
  }

  lemma JoinedText(front: seq<string>, back: seq<string>)
    requires front != []
    ensures var dir, path := "/" + JoinWith(front, '/'), JoinWith(back, '/');
            "/" + JoinWith(front + back, '/') == if back == [] then dir else dir + "/" + path
  {
    if back == [] {
      assert front + back == front;
    } else {
      JoinBehind(front, back);
      OneSlash(JoinWith(front, '/'), JoinWith(back, '/'));
    }
    hide JoinWith;
  }

  lemma OneSlash(a: string, b: string)
    ensures "/" + (a + "/" + b) == "/" + a + "/" + b
  {
  }

  lemma AbsoluteText(path: string)
    requires Paths.IsAbs(path)
    ensures Paths.Clean(path) == "/" + JoinWith(Paths.Components(path), '/')
  {
  }

  lemma RelativeText(path: string)
    requires !Paths.IsAbs(path) && Paths.AllNames(Paths.Components(path))
    ensures Paths.Clean(path) == "." <==> Paths.Components(path) == []
    ensures Paths.Components(path) != [] ==> Paths.Clean(path) == JoinWith(Paths.Components(path), '/')
  {
    if Paths.Components(path) != [] { NoDot(Paths.Components(path)); }
  }

  /** The path of a local file in a clean directory is spelled as expected. */
  lemma LocalLiesUnder(dir: string, path: string)
    requires Paths.IsAbs(dir) && Paths.Clean(dir) == dir && dir != "/" && IsLocal(path)
    ensures Join(dir, path) == Under(dir, path)
    ensures Paths.Components(Join(dir, path)) == Paths.Components(dir) + Paths.Components(path)
  {
    ComponentsBelow(dir, path);
    Paths.CleanLeadsToTheSame(dir + "/" + path);
    Paths.CleanRoot(dir);
    AbsoluteText(dir);
    AbsoluteText(dir + "/" + path);
    RelativeText(path);
    JoinedText(Paths.Components(dir), Paths.Components(path));
    assert path != "" && dir != "";
    hide Paths.Components, Paths.Clean, JoinWith, Paths.AllNames, IsLocal, Paths.IsAbs;
  }

  lemma NoDot(parts: seq<string>)
    requires parts != [] && Paths.AllNames(parts)
    ensures JoinWith(parts, '/') != "."
  {
    assert Paths.IsName(parts[0]);
    if |parts| > 1 {
      assert Paths.IsName(parts[1]);
      assert JoinWith(parts, '/') == parts[0] + "/" + JoinWith(parts[1..], '/');
      assert JoinWith(parts, '/')[|parts[0]|] == '/';
    }
  }

  /**
   Main result: which file a given path stands for. An absolute path is the file itself. A relative path
   must not lead above its directory and must name a file: with a standard secret the one of the container
   runtime before the external one, otherwise the only one of the external and the deprecated place.
   */
  lemma LocatedExactly(files: FileMap, path: string, category: string, standard: bool, legacyDir: string, place: string)
    requires path != "" && IsLocal(category)
    ensures LocateSecret(files, path, category, standard, legacyDir) == Some(place)
       <==> if path[0] == '/' then place == Paths.Clean(path)
            else
              && StaysInside(path) && place in files
              && var runtime, external := Under("/run/secrets", path), Under(Under("/run/zabbix/secrets", category), path);
                 var deprecated := if legacyDir == "" then None else Some(Paths.Clean(legacyDir + "/" + path));
                 if standard then place == runtime || (place == external && runtime !in files)
                 else
                   || (place == external && !(deprecated.Some? && deprecated.value in files))
                   || (deprecated == Some(place) && external !in files)
  {
    LocalStaysInside(path);
    if path[0] != '/' && IsLocal(path) {
      RuntimePlace(path);
      ExternalPlace(category, path);
      hide Paths.Clean, IsLocal, StaysInside, Under;
    }
  }

  lemma RuntimePlace(path: string)
    requires IsLocal(path)
    ensures Join(DOCKER_ROOT, path) == Under("/run/secrets", path)
    ensures Paths.Components(Join(DOCKER_ROOT, path)) == ["run", "secrets"] + Paths.Components(path)
  {
    RunIsClean();
    RootNames("secrets");
    assert DOCKER_ROOT == "/run" + "/" + "secrets" && ["run"] + ["secrets"] == ["run", "secrets"];
    hide Paths.Clean, Paths.Components, Paths.IsName, IsLocal, Under;
    Paths.CleanJoin("/run", "secrets");
    LocalLiesUnder("/run" + "/" + "secrets", path);
  }

  /** Every category is a directory of its own below the external root. */
  lemma ExternalDirectory(category: string)
    requires IsLocal(category)
    ensures var dir := Under("/run/zabbix/secrets", category);
            && Paths.IsAbs(dir) && dir != "/" && Paths.Clean(dir) == dir && Paths.Clean(EXTERNAL_ROOT + "/" + category) == dir
            && Paths.Components(dir) == ExternalParts() + Paths.Components(category)
  {
    RootsAreClean();
    LocalLiesUnder(EXTERNAL_ROOT, category);
    UnderStarts("/run/zabbix/secrets", category);
    CleanTwice(EXTERNAL_ROOT + "/" + category);
  }

  lemma UnderStarts(dir: string, path: string)
    requires |dir| > 1
    ensures |Under(dir, path)| > 1 && Under(dir, path)[0] == dir[0]
  {
  }

  lemma CleanTwice(path: string)
    requires Paths.IsAbs(path)
    ensures Paths.Clean(Paths.Clean(path)) == Paths.Clean(path)
  {
    Paths.CleanLeadsToTheSame(path);
  }

  lemma ExternalPlace(category: string, path: string)
    requires IsLocal(category) && IsLocal(path)
    ensures var place := Under(Under("/run/zabbix/secrets", category), path);
            && Join(EXTERNAL_ROOT + "/" + category, path) == place
            && Paths.Components(place) == ExternalParts() + Paths.Components(category) + Paths.Components(path)
  {
    ExternalDirectory(category);
    var dir := Under("/run/zabbix/secrets", category);
    LocalLiesUnder(dir, path);
    SameCleaned(EXTERNAL_ROOT + "/" + category, dir, path);
  }

  lemma SameCleaned(dir: string, other: string, path: string)
    requires Paths.IsAbs(dir) && Paths.IsAbs(other) && Paths.Clean(dir) == other && Paths.Clean(other) == other && IsLocal(path)
    ensures Join(dir, path) == Join(other, path)
  {
    ComponentsBelow(dir, path);
    ComponentsBelow(other, path);
    Paths.CleanLeadsToTheSame(dir);
  }

  // ---- what is read from a secret file ----

  predicate LineEnds(text: string) {
    forall c :: c in text ==> c == '\r' || c == '\n'
  }

  /** Exactly the line ends at the end of a secret file are left out. */
  lemma {:induction false} SecretIsTrimmed(data: string)
    ensures var value := TrimLineEnds(data);
            && value <= data && LineEnds(data[|value|..])
            && (value != "" ==> value[|value| - 1] != '\r' && value[|value| - 1] != '\n')
    decreases |data|
  {
    var n := |data|;
    if data != "" && IsLineEnd(data[n - 1]) {
      SecretIsTrimmed(data[..n - 1]);
      var value := TrimLineEnds(data);
      assert data[|value|..] == data[..n - 1][|value|..] + [data[n - 1]];
    }
  }

  // ---- when a list of entries can be resolved ----

  /** A source is given once, and a file that is given is found. */
  predicate FileIsSound(vars: Vars, files: FileMap, f: FileSpec) {
    var path := Get(vars, f.file);
    f.active ==>
      && (Get(vars, f.inline) == "" || path == "")
      && (path != "" ==> LocateSecret(files, path, f.category, f.standard, f.legacyDir).Some?)
  }

  predicate ValueIsSound(vars: Vars, files: FileMap, v: ValueSpec) {
    var path := Get(vars, v.name + "_FILE");
    v.active && path != "" ==>
      && Get(vars, v.name) == ""
      && var place := LocateSecret(files, path, v.category, true, "");
         place.Some? && place.value in files
  }

  /** A place that is looked at for a file given by a relative path. */
  predicate IsPlace(f: FileSpec, path: string, place: string) {
    && path != "" && IsLocal(path)
    && (|| place == Join(EXTERNAL_ROOT + "/" + f.category, path)
        || (f.standard && place == Join(DOCKER_ROOT, path))
        || (!f.standard && f.legacyDir != "" && place == Join(f.legacyDir, path)))
  }

  /** No entry is looked for where the image keeps the files of another one. */
  ghost predicate LookAside(vars: Vars, specs: seq<FileSpec>) {
    forall f, g, place :: f in specs && g in specs && IsPlace(f, Get(vars, f.file), place) ==> place != ManagedPath(g)
  }

  /** Every given file was there before any entry was resolved, and is what its variable names now. */
  predicate FileFound(s: State, t: State, f: FileSpec) {
    var path := Get(s.vars, f.file);
    f.active && path != "" ==>
      && f.file in t.vars
      && LocateSecret(s.files, path, f.category, f.standard, f.legacyDir) == Some(t.vars[f.file])
  }

  lemma SameAnswer(a: FileMap, b: FileMap, f: FileSpec, path: string)
    requires path != "" && forall place :: IsPlace(f, path, place) ==> (place in a <==> place in b)
    ensures LocateSecret(a, path, f.category, f.standard, f.legacyDir) == LocateSecret(b, path, f.category, f.standard, f.legacyDir)
  {
    hide Join, IsLocal, Paths.IsAbs, Paths.Clean;
    if IsLocal(path) {
      assert IsPlace(f, path, Join(EXTERNAL_ROOT + "/" + f.category, path));
      if f.standard { assert IsPlace(f, path, Join(DOCKER_ROOT, path)); }
      if !f.standard && f.legacyDir != "" { assert IsPlace(f, path, Join(f.legacyDir, path)); }
    }
  }

  lemma OneFileSound(s: State, f: FileSpec)
    requires f.inline != f.file
    ensures ResolveFile(s, f).Some? <==> FileIsSound(s.vars, s.files, f)
    ensures ResolveFile(s, f).Some? ==> FileFound(s, ResolveFile(s, f).value, f)
  {
    hide LocateSecret, ManagedPath;
  }

  /** Resolving one entry does not disturb another one. */
  lemma NextFileSound(s: State, next: State, first: FileSpec, f: FileSpec)
    requires SameVariable(s.vars, next.vars, f.inline) && SameVariable(s.vars, next.vars, f.file)
    requires forall p :: p != ManagedPath(first) ==> SameFile(s.files, next.files, p)
    requires forall place :: IsPlace(f, Get(s.vars, f.file), place) ==> place != ManagedPath(first)
    ensures FileIsSound(s.vars, s.files, f) <==> FileIsSound(next.vars, next.files, f)
    ensures forall t: State :: FileFound(s, t, f) <==> FileFound(next, t, f)
  {
    hide LocateSecret, IsPlace, ManagedPath;
    var path := Get(s.vars, f.file);
    if path != "" {
      forall place | IsPlace(f, path, place) ensures place in s.files <==> place in next.files {
        assert SameFile(s.files, next.files, place);
      }
      SameAnswer(s.files, next.files, f, path);
    }
  }

  lemma OthersNext(s: State, next: State, specs: seq<FileSpec>, f: FileSpec)
    requires FilesApart(specs) && LookAside(s.vars, specs) && specs != [] && f in specs[1..]
    requires forall v :: v !in FileVariables(specs[0]) ==> SameVariable(s.vars, next.vars, v)
    requires forall p :: p != ManagedPath(specs[0]) ==> SameFile(s.files, next.files, p)
    ensures FileIsSound(s.vars, s.files, f) <==> FileIsSound(next.vars, next.files, f)
    ensures forall t: State :: FileFound(s, t, f) <==> FileFound(next, t, f)
    ensures Get(s.vars, f.file) == Get(next.vars, f.file)
  {
    FirstFileIsApart(specs);
    assert specs[0] in specs && specs == [specs[0]] + specs[1..];
    hide FileIsSound, FileFound, IsPlace, ManagedPath, FilesApart;
    assert f.inline in FileVariables(f) && f.file in FileVariables(f);
    assert forall v :: v in FileVariables(f) ==> FilesTouched(specs[1..], v);
    NextFileSound(s, next, specs[0], f);
  }

  /** Main result: a list of file entries is resolved exactly when each of them is sound by itself, and every given file is found. */
  lemma {:induction false} FilesResolveExactly(s: State, specs: seq<FileSpec>)
    requires FilesApart(specs) && LookAside(s.vars, specs)
    ensures ResolveFiles(s, specs).Some? <==> forall f :: f in specs ==> FileIsSound(s.vars, s.files, f)
    ensures ResolveFiles(s, specs).Some? ==> forall f :: f in specs ==> FileFound(s, ResolveFiles(s, specs).value, f)
    decreases |specs|
  {
    hide FileIsSound, FileFound, IsPlace, ManagedPath, ResolveFile, FileDone;
    if specs != [] {
      var first, rest := specs[0], specs[1..];
      assert specs == [first] + rest && first in specs;
      FirstFileIsApart(specs);
      OneFileSound(s, first);
      if ResolveFile(s, first).Some? {
        var next := ResolveFile(s, first).value;
        OneFileDone(s, first);
        forall f | f in rest
          ensures FileIsSound(s.vars, s.files, f) <==> FileIsSound(next.vars, next.files, f)
          ensures forall t: State :: FileFound(s, t, f) <==> FileFound(next, t, f)
          ensures Get(s.vars, f.file) == Get(next.vars, f.file)
        {
          OthersNext(s, next, specs, f);
        }
        FilesResolveExactly(next, rest);
        if ResolveFiles(next, rest).Some? {
          FirstStaysFound(s, next, rest, first);
        }
      }
    }
  }

  lemma FirstStaysFound(s: State, next: State, rest: seq<FileSpec>, first: FileSpec)
    requires FilesApart(rest) && ResolveFiles(next, rest).Some? && FileFound(s, next, first)
    requires forall v :: v in FileVariables(first) ==> !FilesTouched(rest, v)
    ensures FileFound(s, ResolveFiles(next, rest).value, first)
  {
    FilesResolve(next, rest);
    hide LocateSecret, FileDone, ResolveFiles, FilesApart;
    assert first.file in FileVariables(first);
  }

  lemma {:induction false} ValuesResolveExactly(s: State, specs: seq<ValueSpec>)
    requires ValuesApart(specs)
    ensures ResolveValues(s, specs).Some? <==> forall v :: v in specs ==> ValueIsSound(s.vars, s.files, v)
    decreases |specs|
  {
    hide ValueIsSound, ResolveValue, ValueDone;
    if specs != [] {
      var first, rest := specs[0], specs[1..];
      assert specs == [first] + rest && first in specs;
      FirstValueIsApart(specs);
      OneValueSound(s, first);
      if ResolveValue(s, first).Some? {
        var next := ResolveValue(s, first).value;
        OneValueDone(s, first);
        forall v | v in rest ensures ValueIsSound(s.vars, s.files, v) <==> ValueIsSound(next.vars, next.files, v) {
          assert v.name in ValueVariables(v) && v.name + "_FILE" in ValueVariables(v);
          assert ValuesTouched(rest, v.name) && ValuesTouched(rest, v.name + "_FILE");
          NextValueSound(s, next, v);
        }
        ValuesResolveExactly(next, rest);
      }
    }
  }

  lemma OneValueSound(s: State, v: ValueSpec)
    ensures ResolveValue(s, v).Some? <==> ValueIsSound(s.vars, s.files, v)
  {
    hide LocateSecret, TrimLineEnds;
  }

  lemma NextValueSound(s: State, next: State, v: ValueSpec)
    requires s.files == next.files
    requires SameVariable(s.vars, next.vars, v.name) && SameVariable(s.vars, next.vars, v.name + "_FILE")
    ensures ValueIsSound(s.vars, s.files, v) <==> ValueIsSound(next.vars, next.files, v)
  {
    hide LocateSecret;
  }

  // ---- when the entries of a plan can be resolved ----

  lemma NameIsLocal(name: string)
    requires Paths.IsName(name)
    ensures IsLocal(name) && Paths.Components(name) == [name]
  {
    SplitOnePart(name, '/');
    Paths.WalkNames([name], [], false);
    assert [] + [name] == [name];
  }

  lemma TwoNamesAreLocal(first: string, second: string)
    requires Paths.IsName(first) && Paths.IsName(second)
    ensures IsLocal(first + "/" + second)
  {
    Paths.SplitConcat(first, second);
    SplitOnePart(first, '/');
    SplitOnePart(second, '/');
    Paths.WalkNames([first] + [second], [], false);
    assert [] + ([first] + [second]) == [first, second];
  }

  lemma FixedCategoryIsLocal(category: string)
    requires category in ["tls", "apm", "sso", "database", "vault", "ssl/certs", "ssl/keys"]
    ensures IsLocal(category)
  {
    hide IsLocal;
    if category == "ssl/certs" || category == "ssl/keys" {
      assert "ssl/certs" == "ssl" + "/" + "certs" && "ssl/keys" == "ssl" + "/" + "keys";
      SharedNames("certs");
      SharedNames("keys");
      TwoNamesAreLocal("ssl", "certs");
      TwoNamesAreLocal("ssl", "keys");
    } else {
      OneWord(category);
      NameIsLocal(category);
    }
  }

  lemma DirectoryParts(history: bool, i: nat)
    ensures var start := if history then "history-" else "telemetry-";
            Directory(history, i) == "providers" + "/" + (start + Decimal.Itoa(i))
  {
    hide Decimal.Itoa;
    assert "providers" + "/" + "history-" == "providers/history-" && "providers" + "/" + "telemetry-" == "providers/telemetry-";
  }

  lemma DirectoryIsLocal(history: bool, i: nat)
    ensures IsLocal(Directory(history, i))
  {
    DirectoryParts(history, i);
    hide IsLocal, Directory, Paths.IsName;
    var start := if history then "history-" else "telemetry-";
    DashedName("providers", "");
    assert "providers" + "" == "providers";
    DashedName(start, Decimal.Itoa(i));
    TwoNamesAreLocal("providers", start + Decimal.Itoa(i));
  }

  lemma CategoriesAreLocal(decoder: Decoder, vars: Vars, c: Component, command: Command, f: FileSpec)
    requires f in PlanOf(decoder, vars, c, command).files
    ensures IsLocal(f.category) && f.legacyDir in {"", WEB_CERTS, EncDirectory(vars)}
  {
    PlanIsRegistry(decoder, vars, c, command);
    hide *;
    assert AskedFile(decoder, vars, c, command, f);
    if ProviderFile(vars, c, command, f) {
      var history, i := ProviderCategory(vars, c, command, f);
      DirectoryIsLocal(history, i);
    } else {
      AskedCategory(decoder, vars, c, command, f);
      FixedCategoryIsLocal(f.category);
    }
  }

  lemma AskedCategory(decoder: Decoder, vars: Vars, c: Component, command: Command, f: FileSpec)
    requires AskedFile(decoder, vars, c, command, f) && !ProviderFile(vars, c, command, f)
    ensures f.category in ["tls", "apm", "sso", "database", "vault", "ssl/certs", "ssl/keys"]
    ensures f.legacyDir in {"", WEB_CERTS, EncDirectory(vars)}
  {
    hide EncDirectory, TlsCondition, VaultConfigured, ProviderFile, IsOn;
  }

  lemma ProviderCategory(vars: Vars, c: Component, command: Command, f: FileSpec) returns (history: bool, i: nat)
    requires ProviderFile(vars, c, command, f)
    ensures f.category == Directory(history, i) && f.legacyDir == ""
  {
    hide Planned, Directory, BaseName, FileEnding;
    var h: bool, n: nat, suffix :| f.category == Directory(h, n) && f.legacyDir == "" && FileEnding(suffix);
    history, i := h, n;
  }

  /** The home directory is not one of the image's own secrets. */
  predicate HomeIsAside(vars: Vars) {
    !(ManagedParts() <= Paths.Components(Get(vars, "ZABBIX_USER_HOME_DIR")))
  }

  lemma EncIsOutside(vars: Vars, path: string)
    requires HomeIsAside(vars) && IsLocal(path)
    ensures var place := Join(EncDirectory(vars), path); Paths.IsAbs(place) ==> !(ManagedParts() <= Paths.Components(place))
  {
    var home, enc := Get(vars, "ZABBIX_USER_HOME_DIR"), EncDirectory(vars);
    if Paths.IsAbs(home) {
      Paths.ComponentsJoin(home, "enc");
      Paths.CleanLeadsToTheSame(home + "/" + "enc");
      assert Paths.Components(enc) == Paths.Components(home) + ["enc"];
      ComponentsBelow(enc, path);
      Paths.CleanLeadsToTheSame(enc + "/" + path);
      NotBehindEnc(Paths.Components(home), Paths.Components(path));
    } else {
      Paths.CleanKeepsRelative(if home == "" then "enc" else home + "/" + "enc");
      Paths.CleanKeepsRelative(if enc == "" then path else enc + "/" + path);
    }
  }

  lemma NotBehindEnc(home: seq<string>, path: seq<string>)
    requires !(ManagedParts() <= home)
    ensures !(ManagedParts() <= home + ["enc"] + path)
  {
    var all := home + ["enc"] + path;
    if |home| >= 3 {
      assert all[..3] == home[..3];
    } else {
      assert all[|home|] == "enc" && ManagedParts()[|home|] != "enc";
    }
  }

  lemma DiffersAt(all: seq<string>, k: nat)
    requires k < 3 && k < |all| && all[k] != ManagedParts()[k]
    ensures !(ManagedParts() <= all)
  {
  }

  lemma RootsDiffer(external: seq<string>)
    requires external == ["run", "zabbix", "secrets"] || external == ["run", "secrets"]
    ensures external[|external| - 1] != ManagedParts()[|external| - 1]
  {
  }

  lemma EtcIsNotRun()
    ensures "etc" != ManagedParts()[0]
  {
  }

  lemma BehindExternal(external: seq<string>, rest: seq<string>)
    requires external == ["run", "zabbix", "secrets"] || external == ["run", "secrets"]
    ensures !(ManagedParts() <= external + rest)
  {
    RootsDiffer(external);
    hide ManagedParts;
    DiffersAt(external + rest, |external| - 1);
  }

  lemma ExternalPartsAre()
    ensures ExternalParts() == ["run", "zabbix", "secrets"]
  {
  }

  lemma OneByOne(a: seq<string>, b: seq<string>, c: seq<string>)
    ensures a + b + c == a + (b + c)
  {
  }

  lemma ExternalIsUnmanaged(category: string, path: string)
    requires IsLocal(category) && IsLocal(path)
    ensures !(ManagedParts() <= Paths.Components(Join(EXTERNAL_ROOT + "/" + category, path)))
  {
    ExternalPlace(category, path);
    hide Paths.Components, Join, IsLocal, Under, ManagedParts, ExternalParts;
    ExternalPartsAre();
    BehindExternal(ExternalParts(), Paths.Components(category) + Paths.Components(path));
    OneByOne(ExternalParts(), Paths.Components(category), Paths.Components(path));
  }

  lemma RuntimeIsUnmanaged(path: string)
    requires IsLocal(path)
    ensures !(ManagedParts() <= Paths.Components(Join(DOCKER_ROOT, path)))
  {
    RuntimePlace(path);
    hide Paths.Components, Join, IsLocal, Under, ManagedParts;
    BehindExternal(["run", "secrets"], Paths.Components(path));
  }

  lemma WebCertsAreUnmanaged(path: string)
    requires IsLocal(path)
    ensures !(ManagedParts() <= Paths.Components(Join(WEB_CERTS, path)))
  {
    ComponentsBelow(WEB_CERTS, path);
    Paths.CleanLeadsToTheSame(WEB_CERTS + "/" + path);
    WebCertsStart();
    EtcIsNotRun();
    hide Paths.Components, IsLocal, ManagedParts;
    DiffersAt(Paths.Components(WEB_CERTS) + Paths.Components(path), 0);
  }

  lemma WebCertsSteps()
    ensures WEB_CERTS == "/etc" + "/" + "zabbix" + "/" + "web" + "/" + "certs"
  {
  }

  lemma EtcIsOneStep()
    ensures Paths.Components("/etc") == ["etc"]
  {
    Paths.StepFromRoot("etc");
    assert "/" + "etc" == "/etc";
    Paths.RootIsEmpty();
  }

  lemma OneStepMore(dir: string, name: string)
    requires dir != "" && Paths.IsAbs(dir) && name in ["zabbix", "web", "certs"]
    ensures Paths.IsAbs(dir + "/" + name) && Paths.Components(dir + "/" + name) == Paths.Components(dir) + [name]
  {
    hide Paths.Components;
    Paths.ComponentsJoin(dir, name);
  }

  lemma WebCertsStart()
    ensures Paths.Components(WEB_CERTS) != [] && Paths.Components(WEB_CERTS)[0] == "etc"
  {
    WebCertsSteps();
    EtcIsOneStep();
    hide Paths.Components;
    OneStepMore("/etc", "zabbix");
    OneStepMore("/etc" + "/" + "zabbix", "web");
    OneStepMore("/etc" + "/" + "zabbix" + "/" + "web", "certs");
  }

  /** No place of a relative path is below the managed root. */
  lemma PlaceIsUnmanaged(vars: Vars, f: FileSpec, path: string, place: string)
    requires IsPlace(f, path, place) && IsLocal(f.category) && f.legacyDir in {"", WEB_CERTS, EncDirectory(vars)}
    requires HomeIsAside(vars)
    ensures Paths.IsAbs(place) ==> !(ManagedParts() <= Paths.Components(place))
  {
    hide Join, IsLocal, HomeIsAside, ManagedParts, EncDirectory, Paths.Components, Paths.IsAbs;
    if place == Join(EXTERNAL_ROOT + "/" + f.category, path) {
      ExternalIsUnmanaged(f.category, path);
    } else if place == Join(DOCKER_ROOT, path) {
      RuntimeIsUnmanaged(path);
    } else if f.legacyDir == WEB_CERTS {
      WebCertsAreUnmanaged(path);
    } else {
      EncIsOutside(vars, path);
    }
  }

  lemma ManagedIsBelowRoot(plan: Plan, f: FileSpec)
    requires Apart(plan) && CategoriesFit(plan.files) && f in plan.files && IsLocal(f.category)
    ensures Paths.IsAbs(ManagedPath(f)) && ManagedParts() <= Paths.Components(ManagedPath(f))
  {
    ManagedPathsAreClean(plan, f);
    RootsAreClean();
    ComponentsBelow(MANAGED_ROOT, f.category);
    hide Apart, CategoriesFit, IsLocal, Paths.Components, ManagedParts, ManagedPath;
    assert Managed(f.category) == MANAGED_ROOT + "/" + f.category;
  }

  lemma PlanLooksAside(decoder: Decoder, vars: Vars, c: Component, command: Command, sources: Vars)
    requires HomeIsAside(vars)
    ensures LookAside(sources, PlanOf(decoder, vars, c, command).files)
  {
    PlanFits(decoder, vars, c, command);
    var plan := PlanOf(decoder, vars, c, command);
    assert Apart(plan) && CategoriesFit(plan.files);
    hide Fit, Apart, CategoriesFit, PlanOf, IsPlace, HomeIsAside, IsLocal, EncDirectory, ManagedParts, ManagedPath, Paths.Components, Paths.IsAbs;
    forall f, g, place | f in plan.files && g in plan.files && IsPlace(f, Get(sources, f.file), place) ensures place != ManagedPath(g) {
      CategoriesAreLocal(decoder, vars, c, command, f);
      CategoriesAreLocal(decoder, vars, c, command, g);
      ManagedIsBelowRoot(plan, g);
      PlaceIsUnmanaged(vars, f, Get(sources, f.file), place);
    }
  }

  lemma ValuesBehindFiles(plan: Plan, s: State, next: State)
    requires Apart(plan) && FilesDone(s, next, plan.files)
    ensures forall v :: v in plan.values ==> (ValueIsSound(s.vars, next.files, v) <==> ValueIsSound(next.vars, next.files, v))
  {
    hide Apart, ValueIsSound, FileDone, FilesTouched;
    forall v | v in plan.values ensures ValueIsSound(s.vars, next.files, v) <==> ValueIsSound(next.vars, next.files, v) {
      ValueIsUntouchedByFiles(plan, v);
      NextValueSound(s.(files := next.files), next, v);
    }
  }

  /** The entries of a plan are resolved exactly when each of them is sound, and every given file is found. */
  ghost predicate ResolvesWhenSound(s: State, plan: Plan) {
    var files := ResolveFiles(s, plan.files);
    && (files.Some? <==> forall f :: f in plan.files ==> FileIsSound(s.vars, s.files, f))
    && (files.Some? ==> forall f :: f in plan.files ==> FileFound(s, files.value, f))
    && (Entries(s, plan).Some? <==> files.Some? && forall v :: v in plan.values ==> ValueIsSound(s.vars, files.value.files, v))
  }

  lemma PlanResolves(s: State, plan: Plan)
    requires Apart(plan) && FilesApart(plan.files) && ValuesApart(plan.values) && LookAside(s.vars, plan.files)
    ensures ResolvesWhenSound(s, plan)
  {
    hide Apart, FilesApart, ValuesApart, LookAside, FileIsSound, FileFound, ValueIsSound, ResolveFiles, ResolveValues, FilesDone;
    FilesResolveExactly(s, plan.files);
    if ResolveFiles(s, plan.files).Some? {
      var next := ResolveFiles(s, plan.files).value;
      ValuesResolveExactly(next, plan.values);
      FilesResolve(s, plan.files);
      ValuesBehindFiles(plan, s, next);
    }
  }

  /**
   Main result: with the home directory outside the image's own secrets, the entries of a plan can be resolved
   exactly when each is sound by itself. Files are looked up as they were before any entry was resolved;
   values are read when all files are in place, because an absolute path may name one of those.
   */
  lemma EntriesResolveExactly(decoder: Decoder, vars: Vars, c: Component, command: Command, s: State)
    requires HomeIsAside(vars)
    ensures ResolvesWhenSound(s, PlanOf(decoder, vars, c, command))
  {
    PlanFits(decoder, vars, c, command);
    PlanLooksAside(decoder, vars, c, command, s.vars);
    var plan := PlanOf(decoder, vars, c, command);
    assert Apart(plan);
    PlanListsApart(plan);
    hide *;
    PlanResolves(s, plan);
  }
}
