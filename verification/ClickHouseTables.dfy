/** What a ClickHouse schema asks for, said table by table, and that preparing it leaves exactly that. */
module ClickHouseTables {
  import opened Text
  import opened ClickHouseRuns
  import opened ClickHouseSafety

  const OTEL_NAMES: set<string> := {
    "otel_logs", "otel_traces", "otel_metrics_gauge", "otel_metrics_sum", "otel_metrics_histogram",
    "otel_metrics_exponential_histogram"
  }

  /** The name of the table that holds one value type. */
  function TableOf(valueType: string): string {
    if valueType == "dbl" then "history" else "history_" + valueType
  }

  /** The table is one of those that the schema asks for, not counting the local tables behind them. */
  predicate AsksFor(schema: Schema, name: string) {
    || (schema.dataset == "history" && exists t :: t in schema.valueTypes && name == TableOf(t))
    || (schema.dataset == "otel" && name in OTEL_NAMES)
  }

  /** Every requested value type has an embedded schema file. */
  predicate KnownTypes(schema: Schema) {
    schema.dataset == "history" ==> forall t :: t in schema.valueTypes ==> TableOf(t) in SCHEMA_FILES
  }

  /** An object that preparing the schema makes sure of. */
  ghost predicate Wanted(schema: Schema, target: Object) {
    match target
    case Database(name) => name == schema.database
    case Table(database, name) =>
      && database == schema.database
      && (AsksFor(schema, name)
          || (schema.cluster != "" && exists n :: AsksFor(schema, n) && name == n + "_local"))
  }

  /** The database and every requested table are on all these nodes, in a cluster with the local tables. */
  ghost predicate Stands(schema: Schema, store: Store, visible: set<Node>) {
    && Everywhere(store, visible, Database(schema.database))
    && (schema.dataset == "history" ==> forall t :: t in schema.valueTypes ==>
          && Everywhere(store, visible, Table(schema.database, if t == "dbl" then "history" else "history_" + t))
          && (schema.cluster != "" ==>
                Everywhere(store, visible, Table(schema.database, (if t == "dbl" then "history" else "history_" + t) + "_local"))))
    && (schema.dataset == "otel" ==> forall name :: name in OTEL_NAMES ==>
          && Everywhere(store, visible, Table(schema.database, name))
          && (schema.cluster != "" ==> Everywhere(store, visible, Table(schema.database, name + "_local"))))
  }

  lemma {:induction false} HistoryNames(valueTypes: seq<string>)
    ensures HistoryTables(valueTypes).Some? <==> forall t :: t in valueTypes ==> TableOf(t) in SCHEMA_FILES
    ensures HistoryTables(valueTypes).Some? ==>
              forall name :: name in HistoryTables(valueTypes).value <==> exists t :: t in valueTypes && name == TableOf(t)
    decreases |valueTypes|
  {
    hide SCHEMA_FILES;
    if valueTypes != [] {
      var n := |valueTypes| - 1;
      assert valueTypes == valueTypes[..n] + [valueTypes[n]];
      HistoryNames(valueTypes[..n]);
      assert HistoryTable(valueTypes[n]) == TableOf(valueTypes[n]);
    }
  }

  lemma OtelNames()
    ensures forall name :: name in OTEL_TABLES <==> name in OTEL_NAMES
  {
  }

  /** The tables of a schema are those it asks for; there are none exactly for an unknown value type. */
  lemma NamesAreAskedFor(schema: Schema)
    ensures TableNames(schema).Some? <==> KnownTypes(schema)
    ensures TableNames(schema).Some? ==> forall name :: name in TableNames(schema).value <==> AsksFor(schema, name)
  {
    hide SCHEMA_FILES, HistoryTables, OTEL_TABLES, OTEL_NAMES, TableOf;
    HistoryNames(schema.valueTypes);
    OtelNames();
  }

  lemma {:induction false} TasksOfNames(s: Schema, names: seq<string>, target: Object)
    ensures (exists task :: task in TasksFor(s, names) && task.target == target)
       <==> exists name :: name in names
              && (target == Table(s.database, name) || (s.cluster != "" && target == Table(s.database, name + "_local")))
    decreases |names|
  {
    if names != [] {
      var n := |names| - 1;
      var last := names[n];
      assert names == names[..n] + [last];
      TasksOfNames(s, names[..n], target);
      OneTableTasks(s, last, target);
      assert TasksFor(s, names) == TasksFor(s, names[..n]) + TableTasks(s, last);
    }
  }

  lemma OneTableTasks(s: Schema, name: string, target: Object)
    ensures (exists task :: task in TableTasks(s, name) && task.target == target)
       <==> target == Table(s.database, name) || (s.cluster != "" && target == Table(s.database, name + "_local"))
  {
    var own := TableTasks(s, name);
    assert own[|own| - 1] in own && own[0] in own;
  }

  /** Main result: a run makes sure of exactly the objects that its schema asks for. */
  lemma TasksAreWanted(schema: Schema, target: Object)
    requires TableNames(schema).Some?
    ensures (exists task :: task in Tasks(schema) && task.target == target) <==> Wanted(schema, target)
  {
    var names := TableNames(schema).value;
    NamesAreAskedFor(schema);
    TasksOfNames(schema, names, target);
    hide TasksFor, TableNames, AsksFor;
    var first := Task(Database(schema.database), NoEngine);
    assert Tasks(schema) == [first] + TasksFor(schema, names);
    assert first in Tasks(schema);
  }

  /** Every object that the schema asks for stands once all tasks do. */
  lemma AllThereStands(s: System, schema: Schema, visible: set<Node>)
    requires TableNames(schema).Some? && AllThere(s, schema, visible)
    ensures Stands(schema, s.store, visible)
  {
    hide Tasks, TableNames, Everywhere, AsksFor, OTEL_NAMES;
    forall target | Wanted(schema, target) ensures Everywhere(s.store, visible, target) {
      TasksAreWanted(schema, target);
      var task :| task in Tasks(schema) && task.target == target;
    }
    assert Wanted(schema, Database(schema.database));
    if schema.dataset == "history" {
      forall t | t in schema.valueTypes ensures AsksFor(schema, TableOf(t)) { TypeIsAskedFor(schema, t); }
      forall t | t in schema.valueTypes
        ensures Wanted(schema, Table(schema.database, TableOf(t)))
        ensures schema.cluster != "" ==> Wanted(schema, Table(schema.database, TableOf(t) + "_local"))
      {
      }
    }
    if schema.dataset == "otel" {
      forall name | name in OTEL_NAMES
        ensures Wanted(schema, Table(schema.database, name))
        ensures schema.cluster != "" ==> Wanted(schema, Table(schema.database, name + "_local"))
      {
        OtelIsAskedFor(schema, name);
      }
    }
  }

  lemma TypeIsAskedFor(schema: Schema, t: string)
    requires schema.dataset == "history" && t in schema.valueTypes
    ensures AsksFor(schema, TableOf(t))
  {
  }

  lemma OtelIsAskedFor(schema: Schema, name: string)
    requires schema.dataset == "otel" && name in OTEL_NAMES
    ensures AsksFor(schema, name)
  {
  }

  // ---- engines ----

  /** The engine that the DDL of an object names. */
  function EngineFor(schema: Schema, target: Object): Engine {
    match target
    case Database(_) => NoEngine
    case Table(_, name) =>
      if schema.cluster != "" && !EndsLocal(name) then Distributed
      else if schema.replicated then ReplicatedMergeTree
      else MergeTree
  }

  lemma {:induction false} TaskEngines(s: Schema, names: seq<string>)
    requires forall name :: name in names ==> name in SCHEMA_FILES
    ensures forall task :: task in TasksFor(s, names) ==> task.engine == EngineFor(s, task.target)
    decreases |names|
  {
    hide SCHEMA_FILES;
    if names != [] {
      var n := |names| - 1;
      TaskEngines(s, names[..n]);
      NoLocalFile(names[n]);
      AppendedLocal(names[n]);
    }
  }

  /**
   Main result: whatever a run sends is DDL for an object that its schema asks for, with the engine
   of that object, and to nodes of the request.
   */
  lemma SentIsWanted(s: System, id: nat, reached: set<Node>, d: Ddl)
    requires Inv(s) && Enabled(s, Send(id, reached))
    requires d in Do(s, Send(id, reached)).pending && d !in s.pending
    ensures var schema := s.runs[id].schema;
            d.node in reached && Wanted(schema, d.target) && d.engine == EngineFor(schema, d.target)
  {
    var schema := s.runs[id].schema;
    assert RunInv(s, s.runs[id]);
    var task := Tasks(schema)[s.runs[id].phase.i];
    assert task in Tasks(schema) && d.target == task.target && d.engine == task.engine;
    TasksAreWanted(schema, d.target);
    TablesAreFiles(schema);
    TaskEngines(schema, TableNames(schema).value);
    hide Wanted, Inv, TableNames;
  }
}
