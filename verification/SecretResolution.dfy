/** The whole resolution of secrets, and what it leaves of every entry of the plan. */
module SecretResolution {
  import opened Text
  import opened ProcessEnvironment
  import opened ProviderSecrets
  import opened NativeOptions
  import opened ProviderConfiguration
  import opened SecretPlan
  import opened SecretFiles
  import opened SecretDirectories

  // ---- before the entries ----

  function DropSources(vars: Vars, prefix: string, suffixes: seq<string>): Vars {
    map name | name in vars && !(prefix <= name && HasOneSuffix(name, suffixes)) :: vars[name]
  }

  /** Provider sources that this image does not read. */
  function Dropped(vars: Vars, component: Component): Vars {
    var located :=
      if IsServer(component) || IsProxy(component) || IsWeb(component) then
        DropSources(DropSources(vars, HISTORY_PREFIX, LOCATION_SUFFIXES), TELEMETRY_PREFIX, LOCATION_SUFFIXES)
      else vars;
    if IsProxy(component) then DropSources(located, HISTORY_PREFIX, SUFFIXES)
    else if IsWeb(component) then DropSources(located, HISTORY_PREFIX, FILE_SUFFIXES)
    else located
  }

  function Families(component: Component, command: Command): seq<string> {
    match command
    case InitHistory => ["history"]
    case InitTelemetry => ["telemetry"]
    case Service =>
      if IsServer(component) || IsWeb(component) then ["history", "telemetry"]
      else if IsProxy(component) then ["telemetry"]
      else []
    case InitDb => []
  }

  /** A managed file that an earlier run left for a provider of this family. */
  predicate IsStale(family: string, path: string) {
    var head := Managed("providers/" + family + "-");
    head <= path &&
      var rest := path[|head|..];
      var n := UpTo(rest, '/');
      n < |rest| &&
        var index, tail := rest[..n], rest[n + 1..];
        "ca/" <= tail || exists secret ::
          secret in SECRETS && secret.kind.FileSecret?
          && tail == "ZBX_" + UpperAll(family) + "PROVIDER_" + index + secret.suffix + "FILE"
  }

  predicate StaleOf(families: seq<string>, path: string) {
    exists family :: family in families && IsStale(family, path)
  }

  /** `cleanupStaleProviderSecrets`. */
  function Cleaned(files: FileMap, component: Component, command: Command): FileMap {
    map p | p in files && !StaleOf(Families(component, command), p) :: files[p]
  }

  // ---- behind the entries ----

  function ServiceDirectories(s: State): Option<State> {
    match SharedDirectories(s)
    case None => None
    case Some(shared) =>
      match VaultFiles(shared)
      case None => None
      case Some(next) => GlobalCa(next)
  }

  function InitDirectories(s: State): Option<State> {
    match SharedDirectories(s)
    case None => None
    case Some(next) => GlobalCa(next)
  }

  function Directories(component: Component, command: Command, s: State): Option<State> {
    if IsServer(component) || IsProxy(component) then
      match command
      case Service => ServiceDirectories(s)
      case InitHistory => InitDirectories(s)
      case InitTelemetry => InitDirectories(s)
      case InitDb => if Get(s.vars, "ZBX_VAULTDBPATH") != "" then GlobalCa(s) else Some(s)
    else if IsWeb(component) && command.Service? && Get(s.vars, "ZBX_VAULTDBPATH") != "" then GlobalCa(s)
    else Some(s)
  }

  function WebDirectories(component: Component, command: Command, s: State): Option<State> {
    if command.Service? && IsWeb(component) then WebApmCa(s) else Some(s)
  }

  // ---- the pipeline ----

  function Entries(s: State, plan: Plan): Option<State> {
    match ResolveFiles(s, plan.files)
    case None => None
    case Some(next) => ResolveValues(next, plan.values)
  }

  function FinishSteps(component: Component, command: Command, s: State, files: seq<FileSpec>): Option<State> {
    match Directories(component, command, s)
    case None => None
    case Some(next) =>
      match WebDirectories(component, command, next)
      case None => None
      case Some(last) => ProviderCas(last, files)
  }

  predicate Empty(plan: Plan) {
    plan.files == [] && plan.values == [] && plan.aliases == []
  }

  /** The variables that the entries are resolved from: unread, empty and legacy sources are gone. */
  function Sources(vars: Vars, component: Component, plan: Plan): Option<Vars> {
    MergeAliases(WithoutEmpty(Dropped(vars, component), plan), plan.aliases)
  }

  function Run(component: Component, command: Command, plan: Plan, s: State): Option<State> {
    var files := Cleaned(s.files, component, command);
    if Empty(plan) then Some(State(Dropped(s.vars, component), files))
    else RunFrom(component, command, plan, files, Sources(s.vars, component, plan))
  }

  /** The entries and what lies behind them, from merged sources. */
  function RunFrom(component: Component, command: Command, plan: Plan, files: FileMap, sources: Option<Vars>): Option<State> {
    match sources
    case None => None
    case Some(vars) =>
      match Entries(State(vars, files), plan)
      case None => None
      case Some(next) => FinishSteps(component, command, next, plan.files)
  }

  /** `ResolveSecrets`, when no file operation fails. */
  ghost function Resolve(decoder: Decoder, component: Component, command: Command, s: State): Option<State> {
    if Plannable(s.vars, component, command) then Run(component, command, PlanOf(decoder, s.vars, component, command), s)
    else None
  }

  // ---- aliases ----

  function AliasNames(a: Alias): set<string> {
    {a.legacy, a.canonical}
  }

  predicate AliasesApart(aliases: seq<Alias>) {
    && (forall i, j :: 0 <= i < j < |aliases| ==> AliasNames(aliases[i]) !! AliasNames(aliases[j]))
    && (forall a :: a in aliases ==> a.legacy != a.canonical)
  }

  predicate AliasDone(before: Vars, after: Vars, a: Alias) {
    && a.legacy !in after
    && Get(after, a.canonical) == (if Get(before, a.legacy) != "" then Get(before, a.legacy) else Get(before, a.canonical))
    && (Get(before, a.legacy) != "" && Get(before, a.canonical) != "" ==> Get(before, a.legacy) == Get(before, a.canonical))
  }

  predicate AliasTouched(aliases: seq<Alias>, v: string) {
    exists a :: a in aliases && v in AliasNames(a)
  }

  ghost predicate AliasesDone(before: Vars, after: Vars, aliases: seq<Alias>) {
    && (forall a :: a in aliases ==> AliasDone(before, after, a))
    && (forall v :: !AliasTouched(aliases, v) ==> SameVariable(before, after, v))
  }

  predicate Conflicts(vars: Vars, a: Alias) {
    Get(vars, a.legacy) != "" && Get(vars, a.canonical) != "" && Get(vars, a.legacy) != Get(vars, a.canonical)
  }

  predicate Conflicting(vars: Vars, aliases: seq<Alias>) {
    exists a :: a in aliases && Conflicts(vars, a)
  }

  /** Merging succeeds exactly when no alias says something else than its new name, and moves each value over. */
  lemma {:induction false} AliasesMerge(vars: Vars, aliases: seq<Alias>)
    requires AliasesApart(aliases)
    ensures MergeAliases(vars, aliases).None? <==> Conflicting(vars, aliases)
    ensures MergeAliases(vars, aliases).Some? ==> AliasesDone(vars, MergeAliases(vars, aliases).value, aliases)
    decreases |aliases|
  {
    if aliases != [] {
      assert MergeAlias(vars, aliases[0]).None? <==> Conflicts(vars, aliases[0]);
      RestIsApart(aliases);
      if MergeAlias(vars, aliases[0]).Some? {
        var next := MergeAlias(vars, aliases[0]).value;
        ConflictsStay(vars, next, aliases);
        hide MergeAlias, Conflicts, AliasDone;
        AliasesMerge(next, aliases[1..]);
        if MergeAliases(next, aliases[1..]).Some? {
          AliasesJoin(vars, next, MergeAliases(next, aliases[1..]).value, aliases);
        }
      } else {
        assert aliases[0] in aliases;
      }
    }
  }

  lemma ConflictsStay(vars: Vars, next: Vars, aliases: seq<Alias>)
    requires aliases != [] && AliasesApart(aliases) && MergeAlias(vars, aliases[0]) == Some(next)
    ensures Conflicting(vars, aliases) <==> Conflicting(next, aliases[1..])
  {
    var first, rest := aliases[0], aliases[1..];
    assert aliases == [first] + rest && first in aliases;
    RestIsApart(aliases);
    forall a | a in rest ensures Conflicts(next, a) <==> Conflicts(vars, a) {
    }
    assert !Conflicts(vars, first);
    hide Conflicts, MergeAlias;
  }

  lemma RestIsApart(aliases: seq<Alias>)
    requires AliasesApart(aliases) && aliases != []
    ensures AliasesApart(aliases[1..]) && aliases[0].legacy != aliases[0].canonical
    ensures forall a :: a in aliases[1..] ==> AliasNames(aliases[0]) !! AliasNames(a)
    ensures forall a :: a in aliases[1..] ==>
              a.legacy !in AliasNames(aliases[0]) && a.canonical !in AliasNames(aliases[0])
  {
    assert aliases[0] in aliases;
    forall a | a in aliases[1..] ensures AliasNames(aliases[0]) !! AliasNames(a) && a in aliases
      && a.legacy in AliasNames(a) && a.canonical in AliasNames(a)
    {
      var i :| 0 <= i < |aliases[1..]| && aliases[1..][i] == a;
      assert aliases[i + 1] == a;
    }
  }

  lemma AliasesJoin(vars: Vars, next: Vars, after: Vars, aliases: seq<Alias>)
    requires aliases != [] && AliasesApart(aliases)
    requires MergeAlias(vars, aliases[0]) == Some(next) && AliasesDone(next, after, aliases[1..])
    ensures AliasesDone(vars, after, aliases)
  {
    var first, rest := aliases[0], aliases[1..];
    assert aliases == [first] + rest && first in aliases;
    RestIsApart(aliases);
    forall v | v in AliasNames(first) ensures SameVariable(next, after, v) {
      assert !AliasTouched(rest, v);
    }
    forall a | a in aliases ensures AliasDone(vars, after, a) {
      if a in rest {
        assert SameVariable(vars, next, a.legacy) && SameVariable(vars, next, a.canonical);
      } else {
        assert first.legacy in AliasNames(first) && first.canonical in AliasNames(first);
      }
    }
    forall v | !AliasTouched(aliases, v) ensures SameVariable(vars, after, v) {
      assert v !in AliasNames(first);
      assert forall a :: a in rest ==> a in aliases;
      assert !AliasTouched(rest, v);
    }
  }
}
