/**
 Preparing ClickHouse schemas: any number of runs, each a fixed list of objects to check and create,
 interleaved with each other and with the cluster's own, possibly late, execution of DDL.
 */
module ClickHouseRuns {
  import opened Text

  type Node = nat

  datatype Object = Database(name: string) | Table(database: string, name: string)

  datatype Engine = NoEngine | MergeTree | ReplicatedMergeTree | Distributed

  datatype Schema = Schema(database: string, dataset: string, valueTypes: seq<string>, cluster: string, replicated: bool)

  /** One object a run makes sure of, and the engine its DDL asks for. */
  datatype Task = Task(target: Object, engine: Engine)

  // ---- the objects of a schema ----

  const LOCAL := "_local"

  /** The embedded schema files. */
  const SCHEMA_FILES := {"history", "history_json", "history_log", "history_str", "history_text", "history_uint",
                         "otel_logs", "otel_traces", "otel_metrics_gauge", "otel_metrics_sum",
                         "otel_metrics_histogram", "otel_metrics_exponential_histogram"}

  const OTEL_TABLES := ["otel_logs", "otel_traces", "otel_metrics_gauge", "otel_metrics_sum",
                        "otel_metrics_histogram", "otel_metrics_exponential_histogram"]

  function HistoryTable(valueType: string): string {
    if valueType == "dbl" then "history" else "history_" + valueType
  }

  function HistoryTables(valueTypes: seq<string>): Option<seq<string>> {
    if valueTypes == [] then Some([])
    else
      var last := HistoryTable(valueTypes[|valueTypes| - 1]);
      match HistoryTables(valueTypes[..|valueTypes| - 1])
      case None => None
      case Some(names) => if last in SCHEMA_FILES then Some(names + [last]) else None
  }

  /** The tables of a schema; none when a value type has no embedded schema file. */
  function TableNames(s: Schema): Option<seq<string>> {
    if s.dataset == "history" then HistoryTables(s.valueTypes)
    else if s.dataset == "otel" then Some(OTEL_TABLES)
    else Some([])
  }

  function LocalEngine(s: Schema): Engine {
    if s.replicated then ReplicatedMergeTree else MergeTree
  }

  function TableTasks(s: Schema, name: string): seq<Task> {
    if s.cluster == "" then [Task(Table(s.database, name), LocalEngine(s))]
    else [Task(Table(s.database, name + LOCAL), LocalEngine(s)), Task(Table(s.database, name), Distributed)]
  }

  function TasksFor(s: Schema, names: seq<string>): seq<Task> {
    if names == [] then [] else TasksFor(s, names[..|names| - 1]) + TableTasks(s, names[|names| - 1])
  }

  /** Everything a run of this schema makes sure of, in order: the database, then table by table. */
  function Tasks(s: Schema): seq<Task> {
    match TableNames(s)
    case None => []
    case Some(names) => [Task(Database(s.database), NoEngine)] + TasksFor(s, names)
  }

  // ---- the system ----

  datatype Phase =
    | Counting            // about to count the replicas of the cluster
    | Engines             // about to look for tables with another engine
    | Checking(i: nat)    // about to count the nodes that have object i
    | Creating(i: nat)    // about to send the DDL of object i
    | Rechecking(i: nat)  // about to count again
    | Finished
    | Failed

  datatype Run = Run(schema: Schema, create: bool, home: Node, nodes: nat, phase: Phase, sent: nat)

  datatype Ddl = Ddl(node: Node, target: Object, engine: Engine)

  type Store = map<(Node, Object), Engine>

  datatype System = System(nodes: set<Node>, store: Store, pending: set<Ddl>, runs: map<nat, Run>)

  datatype Step =
    | Start(id: nat, schema: Schema, create: bool, home: Node)
    | CountNodes(id: nat)
    | CheckEngines(id: nat)
    | CheckObject(id: nat)
    | Send(id: nat, reached: set<Node>)
    | RecheckObject(id: nat)
    | Fail(id: nat)            // a request of the run failed
    | Execute(ddl: Ddl)        // a node executes DDL it was sent, at any later time
    | Discard(ddl: Ddl)        // a node fails to execute it

  /** The nodes whose system tables a run looks at. */
  function Visible(s: System, r: Run): set<Node> {
    if r.schema.cluster == "" then {r.home} else s.nodes
  }

  function Holders(store: Store, nodes: set<Node>, target: Object): set<Node> {
    set n | n in nodes && (n, target) in store
  }

  predicate Everywhere(store: Store, nodes: set<Node>, target: Object) {
    forall n :: n in nodes ==> (n, target) in store
  }

  /** A requested cluster table that exists with another engine. */
  predicate ForeignEngine(store: Store, nodes: set<Node>, database: string, names: seq<string>) {
    exists name, n :: name in names && n in nodes
      && (n, Table(database, name)) in store && store[(n, Table(database, name))] != Distributed
  }

  predicate HasForeignEngine(s: System, schema: Schema) {
    TableNames(schema).Some? && ForeignEngine(s.store, s.nodes, schema.database, TableNames(schema).value)
  }

  predicate Enabled(s: System, step: Step) {
    match step
    case Start(id, schema, _, home) => id !in s.runs && (schema.cluster == "" ==> home in s.nodes) && TableNames(schema).Some?
    case CountNodes(id) => id in s.runs && s.runs[id].phase.Counting?
    case CheckEngines(id) => id in s.runs && s.runs[id].phase.Engines?
    case CheckObject(id) => id in s.runs && s.runs[id].phase.Checking?
    case Send(id, reached) => id in s.runs && s.runs[id].phase.Creating?
                              && s.runs[id].phase.i < |Tasks(s.runs[id].schema)| && reached <= Visible(s, s.runs[id])
    case RecheckObject(id) => id in s.runs && s.runs[id].phase.Rechecking?
                              && s.runs[id].phase.i < |Tasks(s.runs[id].schema)|
    case Fail(id) => id in s.runs && !s.runs[id].phase.Finished?
    case Execute(d) => d in s.pending
    case Discard(d) => d in s.pending
  }

  /** CREATE ... IF NOT EXISTS on one node. */
  function Created(store: Store, d: Ddl): Store {
    if (d.node, d.target) in store then store else store[(d.node, d.target) := d.engine]
  }

  /** What the DDL of a task leaves for the nodes it reached. */
  function Queued(reached: set<Node>, task: Task): set<Ddl> {
    set n | n in reached :: Ddl(n, task.target, task.engine)
  }

  function StepObject(s: System, r: Run): Phase
    requires r.phase.Checking?
  {
    var i, tasks := r.phase.i, Tasks(r.schema);
    if i >= |tasks| then Finished
    else if |Holders(s.store, Visible(s, r), tasks[i].target)| == r.nodes then Checking(i + 1)
    else if r.create then Creating(i) else Failed
  }

  function Do(s: System, step: Step): System
    requires Enabled(s, step)
  {
    match step
    case Start(id, schema, create, home) =>
      s.(runs := s.runs[id := Run(schema, create, home, 1, if schema.cluster == "" then Checking(0) else Counting, 0)])
    case CountNodes(id) =>
      s.(runs := s.runs[id := s.runs[id].(nodes := |s.nodes|, phase := if |s.nodes| == 0 then Failed else Engines)])
    case CheckEngines(id) =>
      s.(runs := s.runs[id := s.runs[id].(phase := if HasForeignEngine(s, s.runs[id].schema) then Failed else Checking(0))])
    case CheckObject(id) =>
      s.(runs := s.runs[id := s.runs[id].(phase := StepObject(s, s.runs[id]))])
    case Send(id, reached) =>
      var r := s.runs[id];
      s.(pending := s.pending + Queued(reached, Tasks(r.schema)[r.phase.i]),
         runs := s.runs[id := r.(phase := Rechecking(r.phase.i), sent := r.sent + 1)])
    case RecheckObject(id) =>
      var r := s.runs[id];
      var present := |Holders(s.store, Visible(s, r), Tasks(r.schema)[r.phase.i].target)|;
      s.(runs := s.runs[id := r.(phase := if present == r.nodes then Checking(r.phase.i + 1) else Failed)])
    case Fail(id) =>
      s.(runs := s.runs[id := s.runs[id].(phase := Failed)])
    case Execute(d) =>
      s.(store := Created(s.store, d), pending := s.pending - {d})
    case Discard(d) =>
      s.(pending := s.pending - {d})
  }

  /** `steps` is a possible history from `s`. */
  predicate Follows(s: System, steps: seq<Step>)
    decreases |steps|, 0
  {
    steps != [] ==> Follows(s, steps[..|steps| - 1]) && Enabled(After(s, steps[..|steps| - 1]), steps[|steps| - 1])
  }

  function After(s: System, steps: seq<Step>): System
    requires Follows(s, steps)
    decreases |steps|, 1
  {
    if steps == [] then s else Do(After(s, steps[..|steps| - 1]), steps[|steps| - 1])
  }
}
