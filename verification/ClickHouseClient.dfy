/** `Prepare` as the source runs it, step by step; every step is one of the modelled system's. */
module ClickHouseClient {
  import opened Text
  import opened ClickHouseRuns
  import opened ClickHouseSafety
  import opened ClickHouseTables

  datatype PrepareError = UnknownValueType | NoReplicas | WrongEngine | Missing | StillMissing | RequestFailed

  type Outcome = Option<PrepareError>

  /** The errors of a single object. */
  predicate ObjectError(r: Outcome) {
    r.Some? ==> r.value.Missing? || r.value.StillMissing? || r.value.RequestFailed?
  }

  /** Every unsuffixed table of the schema is Distributed, on every node. */
  ghost predicate TablesAreDistributed(store: Store, nodes: set<Node>, schema: Schema) {
    TableNames(schema).Some? &&
      forall name, n :: name in TableNames(schema).value && n in nodes ==>
        (n, Table(schema.database, name)) in store && store[(n, Table(schema.database, name))] == Distributed
  }

  /** A client and the cluster behind it. Requests fail and nodes lag as they please. */
  class Client {
    const nodes: set<Node>
    const home: Node
    var store: Store
    var pending: set<Ddl>

    // the history this cluster has been through, as steps of the system
    ghost const origin: System
    ghost var steps: seq<Step>
    ghost var system: System

    ghost predicate Valid()
      reads this
    {
      && Follows(origin, steps) && After(origin, steps) == system && Inv(origin)
      && system.nodes == nodes && system.store == store && system.pending == pending
      && origin.nodes == nodes
    }

    ghost predicate HasRun(id: nat, schema: Schema, create: bool, phase: Phase)
      reads this
    {
      && id in system.runs
      && var r := system.runs[id]; r.schema == schema && r.create == create && r.home == home && r.phase == phase
    }

    constructor (s: System, at: Node)
      requires Inv(s)
      ensures Valid() && origin == s && steps == [] && home == at
    {
      nodes, home, store, pending := s.nodes, at, s.store, s.pending;
      origin, steps, system := s, [], s;
    }

    lemma Reached()
      requires Valid()
      ensures Inv(system)
    {
      HistoryKeepsInv(origin, steps);
    }

    ghost method Record(step: Step)
      requires Valid() && Enabled(system, step) && !step.Execute? && !step.Discard? && !step.Send?
      modifies this`steps, this`system
      ensures Valid() && system == Do(old(system), step) && steps == old(steps) + [step]
    {
      RecordedStep(origin, steps, step);
      steps := steps + [step];
      system := Do(system, step);
    }

    /** The nodes execute, or fail to execute, some of what they were sent. */
    method Settle(ghost id: nat)
      requires Valid()
      modifies this`store, this`pending, this`steps, this`system
      ensures Valid() && GoesOn(old(steps), steps, id)
      ensures system.runs == old(system).runs && pending <= old(pending)
    {
      var more: bool := *;
      while more && pending != {}
        invariant Valid() && GoesOn(old(steps), steps, id)
        invariant system.runs == old(system).runs && pending <= old(pending)
        decreases pending
      {
        var d :| d in pending;
        var executed: bool := *;
        ghost var step := if executed then Execute(d) else Discard(d);
        RecordedStep(origin, steps, step);
        OneMoreStep(old(steps), steps, step, id);
        if executed {
          store := Created(store, d);
        }
        pending := pending - {d};
        steps := steps + [step];
        system := Do(system, step);
        more := *;
      }
    }

    /** One count query, answered at some moment; None when the request fails. */
    method Count(ghost id: nat, target: Object, visible: set<Node>) returns (count: Option<nat>)
      requires Valid()
      modifies this`store, this`pending, this`steps, this`system
      ensures Valid() && GoesOn(old(steps), steps, id)
      ensures system.runs == old(system).runs && pending <= old(pending)
      ensures count.Some? ==> count.value == |Holders(store, visible, target)|
    {
      Settle(id);
      var failed: bool := *;
      count := if failed then None else Some(|Holders(store, visible, target)|);
    }

    /** DDL sent to some of the nodes; the answer may be an error although it arrived. */
    method Request(ghost id: nat, task: Task, visible: set<Node>) returns (ok: bool)
      requires Valid() && id in system.runs && system.runs[id].phase.Creating?
      requires visible == Visible(system, system.runs[id])
      requires system.runs[id].phase.i < |Tasks(system.runs[id].schema)|
      requires task == Tasks(system.runs[id].schema)[system.runs[id].phase.i]
      modifies this`pending, this`steps, this`system
      ensures Valid() && GoesOn(old(steps), steps, id)
      ensures id in system.runs
      ensures var r := old(system).runs[id];
              system.runs == old(system).runs[id := r.(phase := Rechecking(r.phase.i), sent := r.sent + 1)]
    {
      hide Inv, Follows, After, Tasks, Alone;
      var reached: set<Node> := *;
      reached := reached * visible;
      ghost var step := Send(id, reached);
      GoesOnNothing(steps, id);
      RecordedStep(origin, steps, step);
      OneMoreStep(old(steps), steps, step, id);
      pending := pending + Queued(reached, task);
      steps := steps + [step];
      system := Do(system, step);
      ok := *;
    }

    /** `ensure`: count, create if allowed, count again. */
    method Ensure(ghost id: nat, ghost run: Run, i: nat, task: Task, count: nat, visible: set<Node>, create: bool)
        returns (r: Outcome)
      requires Valid() && id in system.runs && system.runs[id] == run && run.phase == Checking(i)
      requires run.nodes == count && run.create == create && Visible(system, run) == visible
      requires i < |Tasks(run.schema)| && task == Tasks(run.schema)[i]
      modifies this`store, this`pending, this`steps, this`system
      ensures ObjectError(r)
      ensures Valid() && GoesOn(old(steps), steps, id) && id in system.runs
      ensures system.runs[id] == run.(phase := if r.None? then Checking(i + 1) else Failed, sent := system.runs[id].sent)
      ensures !create ==> pending <= old(pending) && system.runs[id].sent == run.sent
    {
      var present := Count(id, task.target, visible);
      if present.None? {
        RecordOwn(id, Fail(id), old(steps));
        return Some(RequestFailed);
      }
      RecordOwn(id, CheckObject(id), old(steps));
      if present.value == count {
        return None;
      }
      if !create {
        return Some(Missing);
      }
      r := Create(id, system.runs[id], i, task, count, visible, old(steps));
    }

    /** The second half of `ensure`. */
    method Create(ghost id: nat, ghost run: Run, i: nat, task: Task, count: nat, visible: set<Node>, ghost from: seq<Step>)
        returns (r: Outcome)
      requires Valid() && id in system.runs && system.runs[id] == run && run.phase == Creating(i) && GoesOn(from, steps, id)
      requires run.nodes == count && Visible(system, run) == visible
      requires i < |Tasks(run.schema)| && task == Tasks(run.schema)[i]
      modifies this`store, this`pending, this`steps, this`system
      ensures ObjectError(r)
      ensures Valid() && GoesOn(from, steps, id) && id in system.runs
      ensures system.runs[id] == run.(phase := if r.None? then Checking(i + 1) else Failed, sent := system.runs[id].sent)
    {
      hide Inv, Follows, After, Tasks, GoesOn;
      var ok := Request(id, task, visible);
      GoesOnTransitive(from, old(steps), steps, id);
      if !ok {
        RecordOwn(id, Fail(id), from);
        return Some(RequestFailed);
      }
      ghost var before := steps;
      var present := Count(id, task.target, visible);
      GoesOnTransitive(from, before, steps, id);
      if present.None? {
        RecordOwn(id, Fail(id), from);
        return Some(RequestFailed);
      }
      RecordOwn(id, RecheckObject(id), from);
      r := if present.value == count then None else Some(StillMissing);
    }

    /** The engine check: is there a requested table with another engine? None when the query fails. */
    method CheckDistributedTables(ghost id: nat, schema: Schema, names: seq<string>) returns (found: Option<bool>)
      requires Valid()
      modifies this`store, this`pending, this`steps, this`system
      ensures Valid() && GoesOn(old(steps), steps, id)
      ensures system.runs == old(system).runs && pending <= old(pending)
      ensures found.Some? ==> found.value == ForeignEngine(store, nodes, schema.database, names)
    {
      Settle(id);
      var failed: bool := *;
      found := if failed then None else Some(ForeignEngine(store, nodes, schema.database, names));
    }

    /** The part of `Prepare` that only clusters need: count the replicas, check the engines. */
    method CheckCluster(ghost id: nat, ghost run: Run, schema: Schema, names: seq<string>)
        returns (r: Outcome, count: nat)
      requires Valid() && id in system.runs && system.runs[id] == run && run.phase == Counting
      requires run.schema == schema && schema.cluster != "" && TableNames(schema) == Some(names)
      modifies this`store, this`pending, this`steps, this`system
      ensures Valid() && GoesOn(old(steps), steps, id) && id in system.runs && pending <= old(pending)
      ensures var now := system.runs[id];
              now == run.(nodes := now.nodes, phase := if r.None? then Checking(0) else Failed)
      ensures r.Some? ==> r.value.RequestFailed? || r.value.NoReplicas? || r.value.WrongEngine?
      ensures r.None? ==> system.runs[id].nodes == count
    {
      count := 1;
      Settle(id);
      var failed: bool := *;
      if failed {
        RecordOwn(id, Fail(id), old(steps));
        return Some(RequestFailed), count;
      }
      RecordOwn(id, CountNodes(id), old(steps));
      count := |nodes|;
      if count == 0 {
        return Some(NoReplicas), count;
      }
      ghost var before := steps;
      var found := CheckDistributedTables(id, schema, names);
      GoesOnTransitive(old(steps), before, steps, id);
      if found.None? {
        RecordOwn(id, Fail(id), old(steps));
        return Some(RequestFailed), count;
      }
      RecordOwn(id, CheckEngines(id), old(steps));
      r := if found.value then Some(WrongEngine) else None;
    }

    /** The database and then every table, local ones first. */
    method EnsureAll(ghost id: nat, ghost run: Run, schema: Schema, names: seq<string>, count: nat, visible: set<Node>,
                     create: bool) returns (r: Outcome)
      requires Valid() && id in system.runs && system.runs[id] == run && run.phase == Checking(0)
      requires run.schema == schema && TableNames(schema) == Some(names) && Visible(system, run) == visible
      requires run.nodes == count && run.create == create
      modifies this`store, this`pending, this`steps, this`system
      ensures ObjectError(r)
      ensures Valid() && GoesOn(old(steps), steps, id) && id in system.runs
      ensures system.runs[id] == run.(phase := if r.None? then Checking(|Tasks(schema)|) else Failed,
                                      sent := system.runs[id].sent)
      ensures !create ==> pending <= old(pending) && system.runs[id].sent == run.sent
    {
      hide Tasks, TasksFor, TableTasks;
      TaskCount(schema, names);
      r := Ensure(id, run, 0, Task(Database(schema.database), NoEngine), count, visible, create);
      if r.Some? {
        return r;
      }
      assert names[..0] == [];
      for k := 0 to |names|
        invariant Valid() && GoesOn(old(steps), steps, id) && id in system.runs
        invariant system.runs[id] == run.(phase := Checking(1 + |TasksFor(schema, names[..k])|), sent := system.runs[id].sent)
        invariant !create ==> pending <= old(pending) && system.runs[id].sent == run.sent
      {
        ghost var before := steps;
        r := EnsureTable(id, system.runs[id], schema, names, k, count, visible, create);
        GoesOnTransitive(old(steps), before, steps, id);
        if r.Some? {
          return r;
        }
        OneMoreTable(schema, names, k);
      }
      assert names[..|names|] == names;
      return None;
    }

    /** One table: its local table and, in a cluster, the Distributed table over it. */
    method EnsureTable(ghost id: nat, ghost run: Run, schema: Schema, names: seq<string>, k: nat, count: nat,
                       visible: set<Node>, create: bool) returns (r: Outcome)
      requires Valid() && id in system.runs && system.runs[id] == run && k < |names|
      requires run.phase == Checking(1 + |TasksFor(schema, names[..k])|)
      requires run.schema == schema && TableNames(schema) == Some(names) && Visible(system, run) == visible
      requires run.nodes == count && run.create == create
      modifies this`store, this`pending, this`steps, this`system
      ensures ObjectError(r)
      ensures Valid() && GoesOn(old(steps), steps, id) && id in system.runs
      ensures system.runs[id] == run.(phase := if r.None? then Checking(1 + |TasksFor(schema, names[..k])| + |TableTasks(schema, names[k])|)
                                               else Failed,
                                      sent := system.runs[id].sent)
      ensures !create ==> pending <= old(pending) && system.runs[id].sent == run.sent
    {
      hide Tasks, TasksFor, TableTasks, Inv, Follows, GoesOn, LocalEngine, TableNames, After, ObjectError;
      var at := 1 + |TasksFor(schema, names[..k])|;
      var name := names[k];
      TableTasksAre(schema, names, k);
      if schema.cluster == "" {
        r := Ensure(id, run, at, Task(Table(schema.database, name), LocalEngine(schema)), count, visible, create);
        return r;
      }
      r := Ensure(id, run, at, Task(Table(schema.database, name + LOCAL), LocalEngine(schema)), count, visible, create);
      if r.Some? {
        return r;
      }
      ghost var before := steps;
      r := Ensure(id, system.runs[id], at + 1, Task(Table(schema.database, name), Distributed), count, visible, create);
      GoesOnTransitive(old(steps), before, steps, id);
    }

    /**
     `Prepare`. Without an error the run is finished; then every object is on every node it looks at,
     and a cluster's tables are Distributed when no foreign DDL was on its way. A run that may not
     create, that is rejected by its engine check, or that finds everything in place sends nothing.
     */
    method Prepare(schema: Schema, create: bool, ghost id: nat) returns (r: Outcome)
      requires Valid() && id !in system.runs && (schema.cluster == "" ==> home in nodes)
      modifies this`store, this`pending, this`steps, this`system
      ensures Valid()
      ensures r == Some(UnknownValueType) <==> TableNames(schema).None?
      ensures r == Some(UnknownValueType) <==> !KnownTypes(schema)
      ensures TableNames(schema).None? ==> steps == old(steps) && store == old(store) && pending == old(pending)
      ensures TableNames(schema).Some? ==>
                && GoesOn(old(steps) + [Start(id, schema, create, home)], steps, id)
                && HasRun(id, schema, create, if r.None? then Finished else Failed)
      ensures !create ==> pending <= old(pending)
      ensures r == Some(WrongEngine) ==> pending <= old(pending) && system.runs[id].sent == 0
      ensures r.None? ==> AllThere(system, schema, if schema.cluster == "" then {home} else nodes)
      ensures r.None? ==> Stands(schema, store, if schema.cluster == "" then {home} else nodes) && nodes != {}
      ensures r.None? && schema.cluster != "" && NoForeignPending(old(system), schema) ==>
                TablesAreDistributed(store, nodes, schema)
      ensures AllThere(old(system), schema, if schema.cluster == "" then {home} else nodes) && TableNames(schema).Some? ==>
                system.runs[id].sent == 0
    {
      NamesAreAskedFor(schema);
      var names := BuildNames(schema);
      if names.None? {
        return Some(UnknownValueType);
      }
      hide KnownTypes, Stands, Inv, AllThere, NoForeignPending, Tasks, GoesOn, Follows, TablesAreDistributed, TableNames, Alone;
      Record(Start(id, schema, create, home));
      ghost var started, from := system, steps;
      r := PrepareTables(id, schema, names.value, create);
      FactsOfRun(started, from, id, schema);
      if r.None? { AllThereStands(system, schema, if schema.cluster == "" then {home} else nodes); }
    }

    /** `tables`: the names one by one, given up at the first type without a schema file. */
    static method BuildNames(schema: Schema) returns (r: Option<seq<string>>)
      ensures r == TableNames(schema)
    {
      var names: seq<string> := [];
      if schema.dataset == "history" {
        for k := 0 to |schema.valueTypes|
          invariant HistoryTables(schema.valueTypes[..k]) == Some(names)
        {
          var valueType := schema.valueTypes[k];
          var name := "history_" + valueType;
          if valueType == "dbl" {
            name := "history";
          }
          UnknownStays(schema.valueTypes, k + 1);
          assert schema.valueTypes[..k + 1][..k] == schema.valueTypes[..k];
          if name !in SCHEMA_FILES {
            return None;
          }
          names := names + [name];
        }
        assert schema.valueTypes[..|schema.valueTypes|] == schema.valueTypes;
      } else if schema.dataset == "otel" {
        names := OTEL_TABLES;
      }
      return Some(names);
    }

    /** The rest of `Prepare`, from the cluster check to the last object. */
    method PrepareTables(ghost id: nat, schema: Schema, names: seq<string>, create: bool) returns (r: Outcome)
      requires Valid() && TableNames(schema) == Some(names)
      requires HasRun(id, schema, create, if schema.cluster == "" then Checking(0) else Counting) && system.runs[id].sent == 0
      requires schema.cluster == "" ==> system.runs[id].nodes == 1
      modifies this`store, this`pending, this`steps, this`system
      ensures Valid() && GoesOn(old(steps), steps, id)
      ensures HasRun(id, schema, create, if r.None? then Finished else Failed)
      ensures r != Some(UnknownValueType)
      ensures !create ==> pending <= old(pending)
      ensures r == Some(WrongEngine) ==> pending <= old(pending) && system.runs[id].sent == 0
    {
      hide Inv, Tasks, GoesOn, Follows, Alone;
      ghost var from := steps;
      var count := 1;
      GoesOnNothing(from, id);
      if schema.cluster != "" {
        r, count := CheckCluster(id, system.runs[id], schema, names);
        if r.Some? {
          return r;
        }
      }
      ghost var before := steps;
      var visible := if schema.cluster == "" then {home} else nodes;
      r := EnsureAll(id, system.runs[id], schema, names, count, visible, create);
      GoesOnTransitive(from, before, steps, id);
      if r.None? {
        RecordOwn(id, CheckObject(id), from);
      }
    }

    /** The steps since `from`, as a history of their own. */
    lemma Since(from: seq<Step>) returns (later: seq<Step>)
      requires Valid() && from <= steps
      ensures later == steps[|from|..] && Follows(origin, from) && Inv(After(origin, from))
      ensures Follows(After(origin, from), later) && After(After(origin, from), later) == system
      ensures After(origin, from).nodes == nodes
    {
      later := steps[|from|..];
      assert steps == from + later;
      HistorySplits(origin, from, later);
      HistoryKeepsInv(origin, from);
    }

    lemma EndedRunIsQuiet(started: System, from: seq<Step>, id: nat, schema: Schema)
      requires Valid() && from <= steps && Follows(origin, from) && After(origin, from) == started
      requires id in system.runs && system.runs[id].schema == schema && system.runs[id].home == home
      requires id in started.runs && started.runs[id].schema == schema && started.runs[id].home == home && started.runs[id].sent == 0
      requires started.runs[id].phase == if schema.cluster == "" then Checking(0) else Counting
      requires AllThere(started, schema, if schema.cluster == "" then {home} else nodes)
      ensures system.runs[id].sent == 0
    {
      var later := Since(from);
      hide Inv, AllThere, Follows, After;
      QuietFrom(started, later, id, schema, home);
    }

    lemma EndedRunIsDistributed(started: System, from: seq<Step>, id: nat, schema: Schema)
      requires Valid() && GoesOn(from, steps, id) && Follows(origin, from) && After(origin, from) == started
      requires id in system.runs && system.runs[id].phase == Finished
      requires id in started.runs && started.runs[id].schema == schema && started.runs[id].phase == Counting
      requires NoForeignPending(started, schema)
      ensures TablesAreDistributed(store, nodes, schema)
    {
      var later := Since(from);
      hide Inv, NoForeignPending, Follows, After, Alone;
      FinishedAloneIsDistributed(started, later, id);
    }

    lemma EndedRunIsPrepared(id: nat, schema: Schema)
      requires Valid() && id in system.runs && system.runs[id].schema == schema && system.runs[id].home == home
      requires system.runs[id].phase == Finished
      ensures AllThere(system, schema, if schema.cluster == "" then {home} else nodes)
      ensures schema.cluster == "" || nodes != {}
    {
      Reached();
      hide Follows, After;
    }

    /** What the model says about the run that just ended. */
    lemma FactsOfRun(started: System, from: seq<Step>, id: nat, schema: Schema)
      requires Valid() && GoesOn(from, steps, id) && Follows(origin, from) && After(origin, from) == started
      requires TableNames(schema).Some? && id in system.runs && system.runs[id].schema == schema && system.runs[id].home == home
      requires id in started.runs && started.runs[id].schema == schema && started.runs[id].home == home && started.runs[id].sent == 0
      requires started.runs[id].phase == if schema.cluster == "" then Checking(0) else Counting
      ensures var visible := if schema.cluster == "" then {home} else nodes;
              && (system.runs[id].phase == Finished ==> AllThere(system, schema, visible) && (schema.cluster == "" || nodes != {}))
              && (AllThere(started, schema, visible) ==> system.runs[id].sent == 0)
      ensures system.runs[id].phase == Finished && schema.cluster != "" && NoForeignPending(started, schema) ==>
                TablesAreDistributed(store, nodes, schema)
    {
      hide Valid, Follows, After, AllThere, NoForeignPending, TablesAreDistributed, TableNames, Alone;
      if system.runs[id].phase == Finished {
        EndedRunIsPrepared(id, schema);
        if schema.cluster != "" && NoForeignPending(started, schema) {
          EndedRunIsDistributed(started, from, id, schema);
        }
      }
      if AllThere(started, schema, if schema.cluster == "" then {home} else nodes) {
        EndedRunIsQuiet(started, from, id, schema);
      }
    }

    ghost method RecordOwn(id: nat, step: Step, from: seq<Step>)
      requires Valid() && Enabled(system, step) && GoesOn(from, steps, id)
      requires !step.Execute? && !step.Discard? && !step.Send? && !step.Start? && step.id == id
      modifies this`steps, this`system
      ensures Valid() && system == Do(old(system), step) && GoesOn(from, steps, id)
    {
      OneMoreStep(from, steps, step, id);
      Record(step);
    }
  }

  /** The history `later` continues `steps` with steps of run `id` and of the nodes only. */
  ghost predicate GoesOn(steps: seq<Step>, later: seq<Step>, id: nat) {
    steps <= later && Alone(later[|steps|..], id)
  }

  lemma OneMoreStep(from: seq<Step>, steps: seq<Step>, step: Step, id: nat)
    requires GoesOn(from, steps, id)
    requires step.Execute? || step.Discard? || (!step.Start? && step.id == id)
    ensures GoesOn(from, steps + [step], id)
  {
    assert (steps + [step])[|from|..] == steps[|from|..] + [step];
  }

  lemma GoesOnNothing(steps: seq<Step>, id: nat)
    ensures GoesOn(steps, steps, id)
  {
    assert steps[|steps|..] == [];
  }

  lemma GoesOnTransitive(a: seq<Step>, b: seq<Step>, c: seq<Step>, id: nat)
    requires GoesOn(a, b, id) && GoesOn(b, c, id)
    ensures GoesOn(a, c, id)
  {
    assert c[|a|..] == b[|a|..] + c[|b|..];
  }

  lemma RecordedStep(s: System, steps: seq<Step>, step: Step)
    requires Follows(s, steps) && Enabled(After(s, steps), step)
    ensures Follows(s, steps + [step]) && After(s, steps + [step]) == Do(After(s, steps), step)
  {
    assert (steps + [step])[..|steps|] == steps;
  }

  lemma {:induction false} HistorySplits(s: System, first: seq<Step>, later: seq<Step>)
    requires Follows(s, first + later)
    ensures Follows(s, first) && Follows(After(s, first), later)
    ensures After(After(s, first), later) == After(s, first + later)
    decreases |later|
  {
    if later == [] {
      assert first + later == first;
    } else {
      var n := |later| - 1;
      assert (first + later)[..|first + later| - 1] == first + later[..n];
      HistorySplits(s, first, later[..n]);
    }
  }

  lemma {:induction false} TasksPrefix(s: Schema, names: seq<string>, k: nat)
    requires k <= |names|
    ensures TasksFor(s, names[..k]) <= TasksFor(s, names)
    decreases |names|
  {
    if k == |names| {
      assert names[..k] == names;
    } else {
      var n := |names| - 1;
      TasksPrefix(s, names[..n], k);
      assert names[..n][..k] == names[..k];
    }
  }

  lemma {:induction false} UnknownStays(valueTypes: seq<string>, k: nat)
    requires k <= |valueTypes|
    ensures HistoryTables(valueTypes[..k]).None? ==> HistoryTables(valueTypes).None?
    decreases |valueTypes|
  {
    if k == |valueTypes| {
      assert valueTypes[..k] == valueTypes;
    } else {
      var n := |valueTypes| - 1;
      UnknownStays(valueTypes[..n], k);
      assert valueTypes[..n][..k] == valueTypes[..k];
    }
  }

  /** Where the tasks of table k stand in the list. */
  lemma TableAt(s: Schema, names: seq<string>, k: nat)
    requires TableNames(s) == Some(names) && k < |names|
    ensures var at, own := 1 + |TasksFor(s, names[..k])|, TableTasks(s, names[k]);
            at + |own| <= |Tasks(s)| && forall j :: 0 <= j < |own| ==> Tasks(s)[at + j] == own[j]
  {
    hide TableTasks, TableNames;
    TasksPrefix(s, names, k + 1);
    assert names[..k + 1][..k] == names[..k];
  }

  lemma TableTasksAre(s: Schema, names: seq<string>, k: nat)
    requires TableNames(s) == Some(names) && k < |names|
    ensures var at, name := 1 + |TasksFor(s, names[..k])|, names[k];
            if s.cluster == "" then
              && |TableTasks(s, name)| == 1 && at < |Tasks(s)|
              && Tasks(s)[at] == Task(Table(s.database, name), LocalEngine(s))
            else
              && |TableTasks(s, name)| == 2 && at + 1 < |Tasks(s)|
              && Tasks(s)[at] == Task(Table(s.database, name + LOCAL), LocalEngine(s))
              && Tasks(s)[at + 1] == Task(Table(s.database, name), Distributed)
  {
    TableAt(s, names, k);
    hide Tasks, TasksFor;
    var at, own := 1 + |TasksFor(s, names[..k])|, TableTasks(s, names[k]);
    assert Tasks(s)[at + 0] == own[0];
    if s.cluster != "" { assert Tasks(s)[at + 1] == own[1]; }
  }

  lemma TaskCount(s: Schema, names: seq<string>)
    requires TableNames(s) == Some(names)
    ensures |Tasks(s)| == 1 + |TasksFor(s, names)| && Tasks(s)[0] == Task(Database(s.database), NoEngine)
    ensures TasksFor(s, []) == []
  {
  }

  lemma OneMoreTable(s: Schema, names: seq<string>, k: nat)
    requires k < |names|
    ensures |TasksFor(s, names[..k + 1])| == |TasksFor(s, names[..k])| + |TableTasks(s, names[k])|
  {
    assert names[..k + 1][..k] == names[..k];
  }
}
