/** Resolving secrets one entry at a time, on the variables and on a file system of cleaned paths. */
module SecretFiles {
  import opened Text
  import opened ProcessEnvironment
  import opened SecretPlan
  import opened SecretPlanLaws
  import Paths

  /** The regular files that exist, by their cleaned path. */
  type FileMap = map<string, string>

  datatype State = State(vars: Vars, files: FileMap)

  const EXTERNAL_ROOT := "/run/zabbix/secrets"
  const DOCKER_ROOT := "/run/secrets"

  // ---- where a secret file lies ----

  predicate IsLocal(path: string) {
    path != "" && !Paths.IsAbs(path) && (Paths.Components(path) == [] || Paths.Components(path)[0] != "..")
  }

  function LocateSecret(files: FileMap, path: string, category: string, standard: bool, legacyDir: string): Option<string>
    requires path != ""
  {
    if Paths.IsAbs(path) then Some(Paths.Clean(path))
    else if !IsLocal(path) then None
    else
      var newPath := Join(EXTERNAL_ROOT + "/" + category, path);
      if standard then
        if Join(DOCKER_ROOT, path) in files then Some(Join(DOCKER_ROOT, path))
        else if newPath in files then Some(newPath) else None
      else
        var newExists := newPath in files;
        var legacyExists := legacyDir != "" && Join(legacyDir, path) in files;
        if newExists && legacyExists then None
        else if newExists then Some(newPath)
        else if legacyExists then Some(Join(legacyDir, path))
        else None
  }

  // ---- one entry ----

  function ResolveFile(s: State, spec: FileSpec): Option<State> {
    var inline, path := Get(s.vars, spec.inline), Get(s.vars, spec.file);
    var managed := ManagedPath(spec);
    if !spec.active || (inline == "" && path == "") then
      Some(State(s.vars - {spec.inline, spec.file}, s.files - {managed}))
    else if inline != "" && path != "" then None
    else if inline != "" then Some(State((s.vars - {spec.inline})[spec.file := managed], s.files[managed := inline]))
    else
      match LocateSecret(s.files, path, spec.category, spec.standard, spec.legacyDir)
      case None => None
      case Some(resolved) => Some(State((s.vars - {spec.inline})[spec.file := resolved], s.files))
  }

  predicate IsLineEnd(c: char) {
    c == '\r' || c == '\n'
  }

  /** `strings.TrimRight(data, "\r\n")`. */
  function TrimLineEnds(data: string): string {
    if data != "" && IsLineEnd(data[|data| - 1]) then TrimLineEnds(data[..|data| - 1]) else data
  }

  function ResolveValue(s: State, spec: ValueSpec): Option<State> {
    var fileName := spec.name + "_FILE";
    var value, path := Get(s.vars, spec.name), Get(s.vars, fileName);
    if !spec.active then Some(s.(vars := s.vars - {spec.name, fileName}))
    else if value != "" && path != "" then None
    else if path == "" then Some(s.(vars := s.vars - {fileName}))
    else
      match LocateSecret(s.files, path, spec.category, true, "")
      case None => None
      case Some(resolved) =>
        if resolved !in s.files then None
        else Some(s.(vars := s.vars[spec.name := TrimLineEnds(s.files[resolved])] - {fileName}))
  }

  function MergeAlias(vars: Vars, alias: Alias): Option<Vars> {
    var legacy, canonical := Get(vars, alias.legacy), Get(vars, alias.canonical);
    if legacy == "" then Some(vars - {alias.legacy})
    else if canonical == "" then Some(vars[alias.canonical := legacy] - {alias.legacy})
    else if legacy == canonical then Some(vars - {alias.legacy})
    else None
  }

  // ---- lists of entries, in the order of the plan ----

  function ResolveFiles(s: State, specs: seq<FileSpec>): Option<State>
    decreases |specs|
  {
    if specs == [] then Some(s)
    else
      match ResolveFile(s, specs[0])
      case None => None
      case Some(next) => ResolveFiles(next, specs[1..])
  }

  function ResolveValues(s: State, specs: seq<ValueSpec>): Option<State>
    decreases |specs|
  {
    if specs == [] then Some(s)
    else
      match ResolveValue(s, specs[0])
      case None => None
      case Some(next) => ResolveValues(next, specs[1..])
  }

  function MergeAliases(vars: Vars, aliases: seq<Alias>): Option<Vars>
    decreases |aliases|
  {
    if aliases == [] then Some(vars)
    else
      match MergeAlias(vars, aliases[0])
      case None => None
      case Some(next) => MergeAliases(next, aliases[1..])
  }

  function PlanVariables(plan: Plan): set<string> {
    (set f, v | f in plan.files && v in FileVariables(f) :: v) + (set s, v | s in plan.values && v in ValueVariables(s) :: v)
  }

  /** Empty sources count as unset. */
  function WithoutEmpty(vars: Vars, plan: Plan): Vars {
    map name | name in vars && !(name in PlanVariables(plan) && vars[name] == "") :: vars[name]
  }

  // ---- what resolution leaves of one entry ----

  /** Where a secret file that was given by its path may be found. */
  predicate Candidate(spec: FileSpec, path: string, resolved: string)
    requires path != ""
  {
    if Paths.IsAbs(path) then resolved == Paths.Clean(path)
    else
      || resolved == Join(EXTERNAL_ROOT + "/" + spec.category, path)
      || (spec.standard && resolved == Join(DOCKER_ROOT, path))
      || (!spec.standard && spec.legacyDir != "" && resolved == Join(spec.legacyDir, path))
  }

  predicate FileDone(before: Vars, after: State, f: FileSpec) {
    var inline, path, managed := Get(before, f.inline), Get(before, f.file), ManagedPath(f);
    && f.inline !in after.vars
    && (f.active ==> inline == "" || path == "")
    && (f.file in after.vars <==> f.active && (inline != "" || path != ""))
    && (f.active && inline != "" ==>
          after.vars[f.file] == managed && managed in after.files && after.files[managed] == inline)
    && (f.active && path != "" ==> Candidate(f, path, after.vars[f.file]))
    && (!f.active || (inline == "" && path == "") ==> managed !in after.files)
  }

  predicate ValueDone(before: Vars, files: FileMap, after: Vars, v: ValueSpec) {
    var fileName := v.name + "_FILE";
    var path := Get(before, fileName);
    && fileName !in after
    && (!v.active ==> v.name !in after)
    && (v.active && path == "" ==> (v.name in after <==> v.name in before) && Get(after, v.name) == Get(before, v.name))
    && (v.active && path != "" ==>
          && Get(before, v.name) == ""
          && v.name in after
          && var resolved := LocateSecret(files, path, v.category, true, "");
             resolved.Some? && resolved.value in files && after[v.name] == TrimLineEnds(files[resolved.value]))
  }

  predicate SameVariable(before: Vars, after: Vars, v: string) {
    (v in after <==> v in before) && Get(after, v) == Get(before, v)
  }

  predicate SameFile(before: FileMap, after: FileMap, p: string) {
    (p in after <==> p in before) && (p in before ==> after[p] == before[p])
  }

  predicate FilesApart(specs: seq<FileSpec>) {
    && (forall i, j :: 0 <= i < j < |specs| ==>
          FileVariables(specs[i]) !! FileVariables(specs[j]) && ManagedPath(specs[i]) != ManagedPath(specs[j]))
    && (forall f :: f in specs ==> f.inline != f.file)
  }

  predicate ValuesApart(specs: seq<ValueSpec>) {
    forall i, j :: 0 <= i < j < |specs| ==> ValueVariables(specs[i]) !! ValueVariables(specs[j])
  }

  lemma OneFileDone(s: State, spec: FileSpec)
    requires ResolveFile(s, spec).Some? && spec.inline != spec.file
    ensures var t := ResolveFile(s, spec).value;
            && FileDone(s.vars, t, spec)
            && (forall v :: v !in FileVariables(spec) ==> SameVariable(s.vars, t.vars, v))
            && (forall p :: p != ManagedPath(spec) ==> SameFile(s.files, t.files, p))
  {
    hide Join, Paths.IsAbs, Paths.Clean, ManagedPath, IsLocal;
  }

  lemma OneValueDone(s: State, spec: ValueSpec)
    requires ResolveValue(s, spec).Some?
    ensures var t := ResolveValue(s, spec).value;
            && ValueDone(s.vars, s.files, t.vars, spec) && t.files == s.files
            && (forall v :: v !in ValueVariables(spec) ==> SameVariable(s.vars, t.vars, v))
  {
    hide LocateSecret, TrimLineEnds;
    assert spec.name != spec.name + "_FILE";
  }

  predicate FilesTouched(specs: seq<FileSpec>, v: string) {
    exists f :: f in specs && v in FileVariables(f)
  }

  predicate ValuesTouched(specs: seq<ValueSpec>, v: string) {
    exists s :: s in specs && v in ValueVariables(s)
  }

  predicate PathTouched(specs: seq<FileSpec>, p: string) {
    exists f :: f in specs && p == ManagedPath(f)
  }

  ghost predicate FilesDone(s: State, t: State, specs: seq<FileSpec>) {
    && (forall f :: f in specs ==> FileDone(s.vars, t, f))
    && (forall v :: !FilesTouched(specs, v) ==> SameVariable(s.vars, t.vars, v))
    && (forall p :: !PathTouched(specs, p) ==> SameFile(s.files, t.files, p))
  }

  ghost predicate ValuesDone(s: State, t: State, specs: seq<ValueSpec>) {
    && (forall v :: v in specs ==> ValueDone(s.vars, s.files, t.vars, v))
    && t.files == s.files
    && (forall v :: !ValuesTouched(specs, v) ==> SameVariable(s.vars, t.vars, v))
  }

  lemma FirstFileIsApart(specs: seq<FileSpec>)
    requires FilesApart(specs) && specs != []
    ensures FilesApart(specs[1..]) && specs[0].inline != specs[0].file
    ensures forall v :: v in FileVariables(specs[0]) ==> !FilesTouched(specs[1..], v)
    ensures !PathTouched(specs[1..], ManagedPath(specs[0]))
  {
    hide FileVariables, ManagedPath;
    assert specs[0] in specs;
    forall f | f in specs[1..] ensures FileVariables(specs[0]) !! FileVariables(f) && ManagedPath(specs[0]) != ManagedPath(f)
      && f in specs
    {
      var i :| 0 <= i < |specs[1..]| && specs[1..][i] == f;
      assert specs[i + 1] == f;
    }
  }

  /** Main step: with entries apart, each entry comes out as if it had been resolved alone. */
  lemma {:induction false} FilesResolve(s: State, specs: seq<FileSpec>)
    requires FilesApart(specs) && ResolveFiles(s, specs).Some?
    ensures FilesDone(s, ResolveFiles(s, specs).value, specs)
    decreases |specs|
  {
    if specs != [] {
      var next := ResolveFile(s, specs[0]).value;
      FirstFileIsApart(specs);
      OneFileDone(s, specs[0]);
      FilesResolve(next, specs[1..]);
      FilesJoin(s, next, ResolveFiles(next, specs[1..]).value, specs);
    }
  }

  lemma FilesJoin(s: State, next: State, t: State, specs: seq<FileSpec>)
    requires specs != [] && FileDone(s.vars, next, specs[0]) && FilesDone(next, t, specs[1..])
    requires forall v :: v !in FileVariables(specs[0]) ==> SameVariable(s.vars, next.vars, v)
    requires forall p :: p != ManagedPath(specs[0]) ==> SameFile(s.files, next.files, p)
    requires forall v :: v in FileVariables(specs[0]) ==> !FilesTouched(specs[1..], v)
    requires !PathTouched(specs[1..], ManagedPath(specs[0]))
    ensures FilesDone(s, t, specs)
  {
    hide ManagedPath, Candidate;
    var first, rest := specs[0], specs[1..];
    assert specs == [first] + rest && first in specs;
    forall f | f in specs ensures FileDone(s.vars, t, f) {
      if f in rest {
        assert forall v :: v in FileVariables(f) ==> FilesTouched(rest, v);
        assert f.inline in FileVariables(f) && f.file in FileVariables(f);
      } else {
        assert f == first && f.inline in FileVariables(f) && f.file in FileVariables(f);
      }
    }
    forall v | !FilesTouched(specs, v) ensures SameVariable(s.vars, t.vars, v) {
      assert v !in FileVariables(first);
      assert forall f :: f in rest ==> f in specs;
      assert !FilesTouched(rest, v);
    }
    forall p | !PathTouched(specs, p) ensures SameFile(s.files, t.files, p) {
      assert p != ManagedPath(first);
      assert forall f :: f in rest ==> f in specs;
      assert !PathTouched(rest, p);
      assert SameFile(s.files, next.files, p) && SameFile(next.files, t.files, p);
    }
  }

  lemma {:induction false} ValuesResolve(s: State, specs: seq<ValueSpec>)
    requires ValuesApart(specs) && ResolveValues(s, specs).Some?
    ensures ValuesDone(s, ResolveValues(s, specs).value, specs)
    decreases |specs|
  {
    if specs != [] {
      var next := ResolveValue(s, specs[0]).value;
      OneValueDone(s, specs[0]);
      FirstValueIsApart(specs);
      ValuesResolve(next, specs[1..]);
      ValuesJoin(s, next, ResolveValues(next, specs[1..]).value, specs);
    }
  }

  lemma FirstValueIsApart(specs: seq<ValueSpec>)
    requires ValuesApart(specs) && specs != []
    ensures ValuesApart(specs[1..])
    ensures forall v :: v in ValueVariables(specs[0]) ==> !ValuesTouched(specs[1..], v)
  {
    hide ValueVariables;
    forall s | s in specs[1..] ensures ValueVariables(specs[0]) !! ValueVariables(s) {
      var i :| 0 <= i < |specs[1..]| && specs[1..][i] == s;
      assert specs[i + 1] == s;
    }
  }

  lemma ValuesJoin(s: State, next: State, t: State, specs: seq<ValueSpec>)
    requires specs != [] && ValueDone(s.vars, s.files, next.vars, specs[0]) && ValuesDone(next, t, specs[1..])
    requires next.files == s.files && forall v :: v !in ValueVariables(specs[0]) ==> SameVariable(s.vars, next.vars, v)
    requires forall v :: v in ValueVariables(specs[0]) ==> !ValuesTouched(specs[1..], v)
    ensures ValuesDone(s, t, specs)
  {
    hide LocateSecret, TrimLineEnds;
    var first, rest := specs[0], specs[1..];
    assert specs == [first] + rest && first in specs;
    forall v | v in specs ensures ValueDone(s.vars, s.files, t.vars, v) {
      if v in rest {
        assert forall n :: n in ValueVariables(v) ==> ValuesTouched(rest, n);
        assert v.name in ValueVariables(v) && v.name + "_FILE" in ValueVariables(v);
      } else {
        assert v == first && v.name in ValueVariables(v) && v.name + "_FILE" in ValueVariables(v);
      }
    }
    forall v | !ValuesTouched(specs, v) ensures SameVariable(s.vars, t.vars, v) {
      assert v !in ValueVariables(first);
      assert forall n :: n in rest ==> n in specs;
      assert !ValuesTouched(rest, v);
    }
  }
}
