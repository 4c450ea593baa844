/** What every history of ClickHouse preparations keeps, and what a finished run has achieved. */
module ClickHouseSafety {
  import opened Text
  import opened ClickHouseRuns

  predicate EndsLocal(name: string) {
    |name| >= |LOCAL| && name[|name| - |LOCAL|..] == LOCAL
  }

  /** What must exist everywhere before this object may exist anywhere. */
  ghost predicate Prepared(nodes: set<Node>, store: Store, target: Object, engine: Engine) {
    target.Table? ==>
      && (engine == Distributed ==> Everywhere(store, nodes, Table(target.database, target.name + LOCAL)))
      && (EndsLocal(target.name) ==> Everywhere(store, nodes, Database(target.database)))
  }

  ghost predicate SafeStore(nodes: set<Node>, store: Store) {
    forall key :: key in store ==> Prepared(nodes, store, key.1, store[key])
  }

  ghost predicate SafePending(nodes: set<Node>, store: Store, pending: set<Ddl>) {
    forall d :: d in pending ==> Prepared(nodes, store, d.target, d.engine)
  }

  /** The objects before number i are on every node the run looks at. */
  ghost predicate DoneBefore(s: System, r: Run, i: nat) {
    i <= |Tasks(r.schema)| &&
    forall j :: 0 <= j < i ==> Everywhere(s.store, Visible(s, r), Tasks(r.schema)[j].target)
  }

  ghost predicate RunInv(s: System, r: Run) {
    && (r.schema.cluster == "" ==> r.home in s.nodes) && TableNames(r.schema).Some?
    && (!r.create ==> r.sent == 0)
    && match r.phase
       case Counting => r.sent == 0 && r.schema.cluster != ""
       case Engines => r.sent == 0 && r.schema.cluster != "" && r.nodes == |s.nodes| > 0
       case Checking(i) => r.nodes == |Visible(s, r)| > 0 && DoneBefore(s, r, i)
       case Creating(i) => r.create && r.nodes == |Visible(s, r)| > 0 && i < |Tasks(r.schema)| && DoneBefore(s, r, i)
       case Rechecking(i) => r.create && r.nodes == |Visible(s, r)| > 0 && i < |Tasks(r.schema)| && DoneBefore(s, r, i)
       case Finished => Visible(s, r) != {} && DoneBefore(s, r, |Tasks(r.schema)|)
       case Failed => true
  }

  ghost predicate Inv(s: System) {
    && SafeStore(s.nodes, s.store)
    && SafePending(s.nodes, s.store, s.pending)
    && forall id :: id in s.runs ==> RunInv(s, s.runs[id])
  }

  // ---- the tasks of a schema ----

  lemma NoLocalFile(name: string)
    requires name in SCHEMA_FILES
    ensures !EndsLocal(name)
  {
    LocalTail(name);
  }

  lemma LocalTail(name: string)
    ensures EndsLocal(name) ==> |name| >= 6 && name[|name| - 5] == 'l' && name[|name| - 1] == 'l'
  {
    if EndsLocal(name) {
      var tail := name[|name| - 6..];
      assert tail[1] == LOCAL[1] && tail[5] == LOCAL[5];
    }
  }

  lemma {:induction false} HistoryFiles(valueTypes: seq<string>)
    ensures HistoryTables(valueTypes).Some? ==> forall name :: name in HistoryTables(valueTypes).value ==> name in SCHEMA_FILES
    decreases |valueTypes|
  {
    if valueTypes != [] {
      HistoryFiles(valueTypes[..|valueTypes| - 1]);
    }
  }

  lemma TablesAreFiles(s: Schema)
    ensures TableNames(s).Some? ==> forall name :: name in TableNames(s).value ==> name in SCHEMA_FILES
  {
    HistoryFiles(s.valueTypes);
  }

  lemma AppendedLocal(name: string)
    ensures EndsLocal(name + LOCAL)
  {
    assert (name + LOCAL)[|name|..] == LOCAL;
  }

  /** Tables of a schema: a Distributed one directly follows its local table, and local ones need a cluster. */
  ghost predicate TaskShape(s: Schema, tasks: seq<Task>, i: nat)
    requires i < |tasks|
  {
    var t := tasks[i];
    && t.target.Table? && t.target.database == s.database
    && (t.engine == Distributed ==>
          s.cluster != "" && i > 0 && tasks[i - 1].target == Table(s.database, t.target.name + LOCAL))
    && (EndsLocal(t.target.name) ==> s.cluster != "")
  }

  lemma {:induction false} TableTaskShapes(s: Schema, names: seq<string>)
    requires forall name :: name in names ==> name in SCHEMA_FILES
    ensures forall i :: 0 <= i < |TasksFor(s, names)| ==> TaskShape(s, TasksFor(s, names), i)
    decreases |names|
  {
    if names != [] {
      var n := |names| - 1;
      var before, last := TasksFor(s, names[..n]), TableTasks(s, names[n]);
      TableTaskShapes(s, names[..n]);
      NoLocalFile(names[n]);
      AppendedLocal(names[n]);
      forall i | 0 <= i < |before| + |last| ensures TaskShape(s, before + last, i) {
        if i < |before| {
          assert TaskShape(s, before, i);
        }
      }
    }
  }

  lemma ShapesAfterDatabase(s: Schema, tables: seq<Task>, i: nat)
    requires i < |tables| && TaskShape(s, tables, i)
    ensures TaskShape(s, [Task(Database(s.database), NoEngine)] + tables, i + 1)
  {
  }

  /** When a run reaches object i, what that object needs is among the objects before it. */
  lemma TaskPrerequisites(s: System, r: Run, i: nat)
    requires RunInv(s, r) && i < |Tasks(r.schema)| && DoneBefore(s, r, i)
    ensures Prepared(s.nodes, s.store, Tasks(r.schema)[i].target, Tasks(r.schema)[i].engine)
  {
    var names := TableNames(r.schema).value;
    var tasks := Tasks(r.schema);
    TablesAreFiles(r.schema);
    TableTaskShapes(r.schema, names);
    if i > 0 {
      ShapesAfterDatabase(r.schema, TasksFor(r.schema, names), i - 1);
      assert TaskShape(r.schema, tasks, i);
      assert tasks[0].target == Database(r.schema.database);
    }
  }

  // ---- one step ----

  /** Nothing is ever dropped or converted. */
  predicate Grows(store: Store, later: Store) {
    forall key :: key in store ==> key in later && later[key] == store[key]
  }

  lemma PreparedStays(nodes: set<Node>, store: Store, later: Store, target: Object, engine: Engine)
    requires Grows(store, later) && Prepared(nodes, store, target, engine)
    ensures Prepared(nodes, later, target, engine)
  {
  }

  lemma RunInvStays(s: System, later: System, r: Run)
    requires RunInv(s, r) && later.nodes == s.nodes && Grows(s.store, later.store)
    ensures RunInv(later, r)
  {
  }

  lemma FullCount(store: Store, nodes: set<Node>, target: Object)
    ensures |Holders(store, nodes, target)| == |nodes| <==> Everywhere(store, nodes, target)
  {
    var holders := Holders(store, nodes, target);
    if Everywhere(store, nodes, target) {
      assert holders == nodes;
    } else {
      var n :| n in nodes && (n, target) !in store;
      Subset(holders, nodes - {n});
    }
  }

  lemma {:induction false} Subset<T>(a: set<T>, b: set<T>)
    requires a <= b
    ensures |a| <= |b|
    decreases a
  {
    if x :| x in a {
      Subset(a - {x}, b - {x});
    }
  }

  lemma OneMoreDone(s: System, r: Run, i: nat)
    requires DoneBefore(s, r, i) && i < |Tasks(r.schema)|
    requires |Holders(s.store, Visible(s, r), Tasks(r.schema)[i].target)| == |Visible(s, r)|
    ensures DoneBefore(s, r, i + 1)
  {
    FullCount(s.store, Visible(s, r), Tasks(r.schema)[i].target);
  }

  /** The run that takes a step keeps its invariant. */
  lemma RunStepKeepsRun(s: System, step: Step)
    requires Inv(s) && Enabled(s, step)
    requires step.CountNodes? || step.CheckEngines? || step.CheckObject? || step.Send? || step.RecheckObject? || step.Fail?
    ensures RunInv(s, Do(s, step).runs[step.id])
  {
    var r := s.runs[step.id];
    match step
    case CheckObject(_) =>
      if StepObject(s, r).Checking? { OneMoreDone(s, r, r.phase.i); }
    case RecheckObject(_) =>
      if |Holders(s.store, Visible(s, r), Tasks(r.schema)[r.phase.i].target)| == r.nodes { OneMoreDone(s, r, r.phase.i); }
    case _ =>
  }

  lemma StartKeepsInv(s: System, step: Step)
    requires Inv(s) && Enabled(s, step) && step.Start?
    ensures Inv(Do(s, step))
  {
    var t := Do(s, step);
    forall id | id in t.runs ensures RunInv(t, t.runs[id]) {
      if id in s.runs { RunInvStays(s, t, s.runs[id]); }
    }
  }

  lemma SendIsPrepared(s: System, step: Step)
    requires Inv(s) && Enabled(s, step) && step.Send?
    ensures SafePending(s.nodes, s.store, Do(s, step).pending)
  {
    var r := s.runs[step.id];
    TaskPrerequisites(s, r, r.phase.i);
  }

  lemma RunStepKeepsInv(s: System, step: Step)
    requires Inv(s) && Enabled(s, step)
    requires step.CountNodes? || step.CheckEngines? || step.CheckObject? || step.Send? || step.RecheckObject? || step.Fail?
    ensures Inv(Do(s, step))
  {
    var t := Do(s, step);
    RunStepKeepsRun(s, step);
    if step.Send? { SendIsPrepared(s, step); }
    hide RunInv, SafeStore, SafePending;
    assert t.nodes == s.nodes && t.store == s.store;
    forall id | id in t.runs ensures RunInv(t, t.runs[id]) {
      RunInvStays(s, t, t.runs[id]);
    }
  }

  lemma NodeStepKeepsInv(s: System, step: Step)
    requires Inv(s) && Enabled(s, step) && (step.Execute? || step.Discard?)
    ensures Inv(Do(s, step)) && Grows(s.store, Do(s, step).store)
  {
    var t := Do(s, step);
    forall id | id in t.runs ensures RunInv(t, t.runs[id]) {
      RunInvStays(s, t, t.runs[id]);
    }
    forall d | d in t.pending ensures Prepared(t.nodes, t.store, d.target, d.engine) {
      PreparedStays(s.nodes, s.store, t.store, d.target, d.engine);
    }
    forall key | key in t.store ensures Prepared(t.nodes, t.store, key.1, t.store[key]) {
      if key in s.store {
        PreparedStays(s.nodes, s.store, t.store, key.1, s.store[key]);
      } else {
        PreparedStays(s.nodes, s.store, t.store, step.ddl.target, step.ddl.engine);
      }
    }
  }

  lemma StepKeepsInv(s: System, step: Step)
    requires Inv(s) && Enabled(s, step)
    ensures Inv(Do(s, step)) && Do(s, step).nodes == s.nodes && Grows(s.store, Do(s, step).store)
  {
    hide Inv;
    if step.Start? { StartKeepsInv(s, step); }
    else if step.Execute? || step.Discard? { NodeStepKeepsInv(s, step); }
    else { RunStepKeepsInv(s, step); }
  }

  // ---- every history ----

  lemma {:induction false} HistoryKeepsInv(s: System, steps: seq<Step>)
    requires Inv(s) && Follows(s, steps)
    ensures Inv(After(s, steps)) && After(s, steps).nodes == s.nodes && Grows(s.store, After(s, steps).store)
    decreases |steps|
  {
    if steps != [] {
      var n := |steps| - 1;
      HistoryKeepsInv(s, steps[..n]);
      StepKeepsInv(After(s, steps[..n]), steps[n]);
    }
  }

  /** A system in which nothing runs and no DDL is on its way. */
  predicate Idle(s: System) {
    s.runs == map[] && s.pending == {}
  }

  /**
   Main result, safety: over every history of runs (overlapping, failing, repeated, with DDL that
   reaches any of the nodes at any time), from an idle system that satisfies it: a Distributed table
   on any node has its local table on all nodes, and a local table on any node has its database on
   all nodes.
   */
  lemma DistributedTablesAreServed(s: System, steps: seq<Step>)
    requires Idle(s) && SafeStore(s.nodes, s.store) && Follows(s, steps)
    ensures var t := After(s, steps);
            && (forall n, d, name :: (n, Table(d, name)) in t.store && t.store[(n, Table(d, name))] == Distributed ==>
                  Everywhere(t.store, s.nodes, Table(d, name + LOCAL)))
            && (forall n, d, name :: (n, Table(d, name)) in t.store && EndsLocal(name) ==>
                  Everywhere(t.store, s.nodes, Database(d)))
  {
    HistoryKeepsInv(s, steps);
    var t := After(s, steps);
    forall n, d, name | (n, Table(d, name)) in t.store
      ensures t.store[(n, Table(d, name))] == Distributed ==> Everywhere(t.store, s.nodes, Table(d, name + LOCAL))
      ensures EndsLocal(name) ==> Everywhere(t.store, s.nodes, Database(d))
    {
      var key := (n, Table(d, name));
      assert Prepared(t.nodes, t.store, key.1, t.store[key]);
    }
  }

  /**
   Main result: a run that finished, in whatever company, has its database and every table on every
   node it looks at, of which there is one, and they stay there; one that may not create sent no DDL.
   */
  lemma FinishedMeansPrepared(s: System, steps: seq<Step>, later: seq<Step>, id: nat)
    requires Idle(s) && SafeStore(s.nodes, s.store) && Follows(s, steps)
    requires id in After(s, steps).runs && After(s, steps).runs[id].phase == Finished
    requires Follows(After(s, steps), later)
    ensures var r := After(s, steps).runs[id];
            var t := After(After(s, steps), later);
            && (forall task :: task in Tasks(r.schema) ==> Everywhere(t.store, Visible(t, r), task.target))
            && Visible(t, r) != {} && (!r.create ==> r.sent == 0)
  {
    HistoryKeepsInv(s, steps);
    HistoryKeepsInv(After(s, steps), later);
    var r := After(s, steps).runs[id];
    RunInvStays(After(s, steps), After(After(s, steps), later), r);
  }

  // ---- a run that finds everything in place ----

  /** No step sends DDL of this run. */
  predicate NoDdlOf(steps: seq<Step>, id: nat) {
    forall k :: 0 <= k < |steps| ==> !(steps[k].Send? && steps[k].id == id)
  }

  lemma StepCountsSent(s: System, step: Step, id: nat)
    requires Enabled(s, step)
    ensures id in s.runs ==> id in Do(s, step).runs && Do(s, step).runs[id].sent >= s.runs[id].sent
    ensures id in s.runs && s.runs[id].phase == Failed ==> Do(s, step).runs[id] == s.runs[id]
    ensures step.Send? && step.id == id ==> id in Do(s, step).runs && Do(s, step).runs[id].sent > 0
  {
  }

  /** A run that counts no DDL has had none in its whole history. */
  lemma {:induction false} SentIsCounted(s: System, steps: seq<Step>, id: nat)
    requires Follows(s, steps) && id !in s.runs
    ensures id !in After(s, steps).runs || After(s, steps).runs[id].sent == 0 ==> NoDdlOf(steps, id)
    decreases |steps|
  {
    if steps != [] {
      var n := |steps| - 1;
      SentIsCounted(s, steps[..n], id);
      StepCountsSent(After(s, steps[..n]), steps[n], id);
      assert forall k :: 0 <= k < n ==> steps[k] == steps[..n][k];
    }
  }

  lemma {:induction false} FailedStays(s: System, steps: seq<Step>, id: nat)
    requires Follows(s, steps) && id in s.runs && s.runs[id].phase == Failed
    ensures id in After(s, steps).runs && After(s, steps).runs[id] == s.runs[id]
    decreases |steps|
  {
    if steps != [] {
      var n := |steps| - 1;
      FailedStays(s, steps[..n], id);
      StepCountsSent(After(s, steps[..n]), steps[n], id);
    }
  }

  ghost predicate AllThere(s: System, schema: Schema, visible: set<Node>) {
    forall task :: task in Tasks(schema) ==> Everywhere(s.store, visible, task.target)
  }

  ghost predicate SentNothing(s: System, id: nat, schema: Schema, home: Node) {
    id in s.runs && s.runs[id].schema == schema && s.runs[id].home == home ==>
      s.runs[id].sent == 0 && !s.runs[id].phase.Creating? && !s.runs[id].phase.Rechecking?
  }

  lemma AllThereStepSendsNothing(s: System, step: Step, id: nat, schema: Schema, home: Node)
    requires Inv(s) && Enabled(s, step) && SentNothing(s, id, schema, home)
    requires AllThere(s, schema, if schema.cluster == "" then {home} else s.nodes)
    ensures SentNothing(Do(s, step), id, schema, home)
  {
    if id in s.runs && step == CheckObject(id) && s.runs[id].schema == schema && s.runs[id].home == home {
      var r := s.runs[id];
      var i := r.phase.i;
      if i < |Tasks(schema)| {
        assert Tasks(schema)[i] in Tasks(schema);
        FullCount(s.store, Visible(s, r), Tasks(schema)[i].target);
      }
    }
  }

  /** A run that has sent nothing where everything is in place goes on sending nothing. */
  lemma {:induction false} QuietFrom(s: System, steps: seq<Step>, id: nat, schema: Schema, home: Node)
    requires Inv(s) && Follows(s, steps) && SentNothing(s, id, schema, home)
    requires AllThere(s, schema, if schema.cluster == "" then {home} else s.nodes)
    ensures SentNothing(After(s, steps), id, schema, home)
    decreases |steps|
  {
    if steps != [] {
      var n := |steps| - 1;
      QuietFrom(s, steps[..n], id, schema, home);
      HistoryKeepsInv(s, steps[..n]);
      AllThereStepSendsNothing(After(s, steps[..n]), steps[n], id, schema, home);
    }
  }

  /**
   Main result: once every object of a schema is in place, no later run of that schema sends DDL,
   whatever else happens meanwhile. With `FinishedMeansPrepared`: a repeated Prepare is read-only.
   */
  lemma RepeatedPrepareIsReadOnly(s: System, steps: seq<Step>, id: nat, schema: Schema, home: Node)
    requires Inv(s) && Follows(s, steps) && id !in s.runs
    requires AllThere(s, schema, if schema.cluster == "" then {home} else s.nodes)
    ensures SentNothing(After(s, steps), id, schema, home)
    ensures id in After(s, steps).runs && After(s, steps).runs[id].schema == schema && After(s, steps).runs[id].home == home ==>
              NoDdlOf(steps, id)
  {
    QuietFrom(s, steps, id, schema, home);
    SentIsCounted(s, steps, id);
  }

  // ---- a run without other writers ----

  /** No step of another run; the nodes may still execute what they were sent. */
  predicate Alone(steps: seq<Step>, id: nat) {
    forall i :: 0 <= i < |steps| ==>
      steps[i].Execute? || steps[i].Discard? || (!steps[i].Start? && steps[i].id == id)
  }

  predicate IsClusterTable(schema: Schema, target: Object) {
    TableNames(schema).Some? && target.Table? && target.database == schema.database && target.name in TableNames(schema).value
  }

  /** No DDL is on its way that would create a requested cluster table with another engine. */
  ghost predicate NoForeignPending(s: System, schema: Schema) {
    forall d :: d in s.pending && IsClusterTable(schema, d.target) ==> d.engine == Distributed
  }

  ghost predicate OnlyDistributed(s: System, schema: Schema) {
    forall key :: key in s.store && key.0 in s.nodes && IsClusterTable(schema, key.1) ==> s.store[key] == Distributed
  }

  ghost predicate AloneInv(s: System, id: nat) {
    && id in s.runs && s.runs[id].schema.cluster != ""
    && NoForeignPending(s, s.runs[id].schema)
    && (s.runs[id].phase.Counting? || s.runs[id].phase.Engines? || s.runs[id].phase.Failed?
        || OnlyDistributed(s, s.runs[id].schema))
  }

  lemma {:induction false} ClusterTaskEngines(s: Schema, names: seq<string>, all: seq<string>)
    requires s.cluster != "" && TableNames(s) == Some(all)
    requires forall name :: name in names ==> name in all
    ensures forall task :: task in TasksFor(s, names) && IsClusterTable(s, task.target) ==> task.engine == Distributed
    decreases |names|
  {
    if names != [] {
      var n := |names| - 1;
      ClusterTaskEngines(s, names[..n], all);
      TablesAreFiles(s);
      AppendedLocal(names[n]);
      if names[n] + LOCAL in all { NoLocalFile(names[n] + LOCAL); }
    }
  }

  lemma ClusterTasks(s: Schema, i: nat)
    requires s.cluster != "" && i < |Tasks(s)| && IsClusterTable(s, Tasks(s)[i].target)
    ensures Tasks(s)[i].engine == Distributed
  {
    var names := TableNames(s).value;
    ClusterTaskEngines(s, names, names);
    if i > 0 {
      assert Tasks(s)[i] == TasksFor(s, names)[i - 1];
      assert Tasks(s)[i] in TasksFor(s, names);
    }
  }

  lemma CleanCheckMeansDistributed(s: System, schema: Schema)
    requires !HasForeignEngine(s, schema)
    ensures OnlyDistributed(s, schema)
  {
    forall key | key in s.store && key.0 in s.nodes && IsClusterTable(schema, key.1) ensures s.store[key] == Distributed {
      var name := key.1.name;
      assert key == (key.0, Table(schema.database, name));
    }
  }

  lemma AloneStep(s: System, step: Step, id: nat)
    requires Inv(s) && Enabled(s, step) && AloneInv(s, id)
    requires step.Execute? || step.Discard? || (!step.Start? && step.id == id)
    ensures AloneInv(Do(s, step), id) && Do(s, step).runs[id].schema == s.runs[id].schema
  {
    var r := s.runs[id];
    match step
    case CheckEngines(_) =>
      if !HasForeignEngine(s, r.schema) { CleanCheckMeansDistributed(s, r.schema); }
    case Send(_, reached) =>
      var task := Tasks(r.schema)[r.phase.i];
      if IsClusterTable(r.schema, task.target) { ClusterTasks(r.schema, r.phase.i); }
    case _ =>
  }

  lemma {:induction false} AloneHistory(s: System, steps: seq<Step>, id: nat)
    requires Inv(s) && Follows(s, steps) && AloneInv(s, id) && Alone(steps, id)
    ensures AloneInv(After(s, steps), id) && After(s, steps).runs[id].schema == s.runs[id].schema
    decreases |steps|
  {
    if steps != [] {
      var n := |steps| - 1;
      assert Alone(steps[..n], id);
      AloneHistory(s, steps[..n], id);
      HistoryKeepsInv(s, steps[..n]);
      AloneStep(After(s, steps[..n]), steps[n], id);
    }
  }

  lemma {:induction false} TablesAreTasks(s: Schema, names: seq<string>, name: string)
    requires name in names
    ensures exists task :: task in TasksFor(s, names) && task.target == Table(s.database, name)
    decreases |names|
  {
    var n := |names| - 1;
    if name == names[n] {
      var last := TableTasks(s, name);
      assert last[|last| - 1] in TasksFor(s, names);
    } else {
      TablesAreTasks(s, names[..n], name);
      var task :| task in TasksFor(s, names[..n]) && task.target == Table(s.database, name);
      assert task in TasksFor(s, names);
    }
  }

  /**
   Main result: a cluster run that finished without another writer has left every requested table on
   every node with the Distributed engine (the engine check is made first and is not repeated).
   */
  lemma FinishedAloneIsDistributed(s: System, steps: seq<Step>, id: nat)
    requires Inv(s) && Follows(s, steps) && Alone(steps, id)
    requires id in s.runs && s.runs[id].phase == Counting && NoForeignPending(s, s.runs[id].schema)
    requires id in After(s, steps).runs && After(s, steps).runs[id].phase == Finished
    ensures var schema, t := s.runs[id].schema, After(s, steps);
            TableNames(schema).Some? &&
            forall name, n :: name in TableNames(schema).value && n in t.nodes ==>
              (n, Table(schema.database, name)) in t.store && t.store[(n, Table(schema.database, name))] == Distributed
  {
    var schema, t := s.runs[id].schema, After(s, steps);
    AloneHistory(s, steps, id);
    HistoryKeepsInv(s, steps);
    var names := TableNames(schema).value;
    forall name, n | name in names && n in t.nodes
      ensures (n, Table(schema.database, name)) in t.store && t.store[(n, Table(schema.database, name))] == Distributed
    {
      TablesAreTasks(schema, names, name);
      var task :| task in TasksFor(schema, names) && task.target == Table(schema.database, name);
      assert task in Tasks(schema);
      var j :| 0 <= j < |Tasks(schema)| && Tasks(schema)[j] == task;
      assert Everywhere(t.store, Visible(t, t.runs[id]), Tasks(schema)[j].target);
    }
  }

  /** The run's engine check, some step of this history, found a table with another engine. */
  ghost predicate Rejected(s: System, first: seq<Step>, later: seq<Step>, id: nat) {
    && Follows(s, first) && Enabled(After(s, first), CheckEngines(id))
    && HasForeignEngine(After(s, first), After(s, first).runs[id].schema)
    && Follows(Do(After(s, first), CheckEngines(id)), later)
  }

  /**
   Main result: a run that its engine check rejects has sent no DDL before, sends none afterwards,
   however the history goes on, and stays failed; the check itself leaves the cluster as it is.
   */
  lemma EngineRejectionSendsNothing(s: System, first: seq<Step>, later: seq<Step>, id: nat)
    requires Idle(s) && SafeStore(s.nodes, s.store) && Rejected(s, first, later, id)
    ensures NoDdlOf(first + [CheckEngines(id)] + later, id)
    ensures var t, u := After(s, first), Do(After(s, first), CheckEngines(id));
            && u.store == t.store && u.pending == t.pending
            && id in After(u, later).runs && After(u, later).runs[id].phase == Failed && After(u, later).runs[id].sent == 0
  {
    HistoryKeepsInv(s, first);
    SentIsCounted(s, first, id);
    var u := Do(After(s, first), CheckEngines(id));
    FailedStays(u, later, id);
    FailedSendsNothing(u, later, id);
  }

  lemma {:induction false} FailedSendsNothing(s: System, steps: seq<Step>, id: nat)
    requires Follows(s, steps) && id in s.runs && s.runs[id].phase == Failed
    ensures NoDdlOf(steps, id)
    decreases |steps|
  {
    if steps != [] {
      var n := |steps| - 1;
      FailedSendsNothing(s, steps[..n], id);
      FailedStays(s, steps[..n], id);
      assert forall k :: 0 <= k < n ==> steps[k] == steps[..n][k];
    }
  }
}
