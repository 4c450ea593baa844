/**
 Preparing Elasticsearch history storage: overlapping runs over a store that only grows, in which
 every look and every PUT is a request of its own.
 */
module ElasticsearchRuns {
  import opened Text

  datatype Schema = Schema(valueTypes: seq<string>, dateIndex: bool)

  /** An object by its path; a legacy template at `alternate` also counts as the object. */
  datatype Item = Item(path: string, alternate: string)

  /** The embedded mapping files. */
  const MAPPING_FILES := {"dbl", "json", "json_pipeline", "log", "str", "text", "uint"}

  predicate NeedsPipeline(s: Schema, kind: string) {
    s.dateIndex || kind == "json"
  }

  function Pipeline(s: Schema, kind: string): Item {
    Item("/_ingest/pipeline/" + if s.dateIndex then kind + "-pipeline" else "json", "")
  }

  function Index(s: Schema, kind: string): Item {
    if s.dateIndex then Item("/_index_template/" + kind + "_template", "/_template/" + kind + "_template")
    else Item("/" + kind, "")
  }

  function KindItems(s: Schema, kind: string): seq<Item> {
    (if NeedsPipeline(s, kind) then [Pipeline(s, kind)] else []) + [Index(s, kind)]
  }

  function ItemsFor(s: Schema, kinds: seq<string>): seq<Item> {
    if kinds == [] then []
    else ItemsFor(s, kinds[..|kinds| - 1]) + KindItems(s, kinds[|kinds| - 1])
  }

  /** The objects of a schema, in order; none when a value type has no mapping file. */
  function Items(s: Schema): Option<seq<Item>> {
    if forall kind :: kind in s.valueTypes ==> kind in MAPPING_FILES then Some(ItemsFor(s, s.valueTypes)) else None
  }

  /** `objects`: built kind by kind, given up at the first unknown one. */
  method BuildItems(s: Schema) returns (r: Option<seq<Item>>)
    ensures r == Items(s)
  {
    var items: seq<Item> := [];
    for k := 0 to |s.valueTypes|
      invariant items == ItemsFor(s, s.valueTypes[..k])
      invariant forall j :: 0 <= j < k ==> s.valueTypes[j] in MAPPING_FILES
    {
      var kind := s.valueTypes[k];
      if kind !in MAPPING_FILES {
        return None;
      }
      assert s.valueTypes[..k + 1][..k] == s.valueTypes[..k];
      ghost var before := items;
      if NeedsPipeline(s, kind) {
        items := items + [Pipeline(s, kind)];
      }
      items := items + [Index(s, kind)];
      assert items == before + KindItems(s, kind);
    }
    assert s.valueTypes[..|s.valueTypes|] == s.valueTypes;
    return Some(items);
  }

  // ---- the system ----

  datatype Phase =
    | Look(i: nat)            // about to ask for object i
    | LookAlternate(i: nat)   // about to ask for its legacy template
    | Put(i: nat)             // about to create it
    | Again(i: nat)           // about to ask once more
    | AgainAlternate(i: nat)
    | Finished
    | Failed

  datatype Run = Run(schema: Schema, create: bool, phase: Phase, puts: nat)

  /** `made` records which object of which schema was stored by a run. */
  datatype System = System(store: set<string>, made: set<(Schema, nat)>, runs: map<nat, Run>)

  datatype Step =
    | Start(id: nat, schema: Schema, create: bool)
    | Ask(id: nat)                  // the next look of the run
    | Create(id: nat, stored: bool) // its PUT, which may or may not take effect, whatever the answer
    | Fail(id: nat)                 // a request of the run failed
    | Outside(path: string)         // somebody else creates an object

  predicate Present(store: set<string>, item: Item) {
    item.path in store || (item.alternate != "" && item.alternate in store)
  }

  function Length(s: Schema): nat {
    if Items(s).Some? then |Items(s).value| else 0
  }

  function Goal(r: Run): Option<nat> {
    match r.phase
    case Look(i) => Some(i)
    case LookAlternate(i) => Some(i)
    case Put(i) => Some(i)
    case Again(i) => Some(i)
    case AgainAlternate(i) => Some(i)
    case _ => None
  }

  /** The run is at an object of its schema. */
  predicate Active(r: Run) {
    Goal(r).Some? && Goal(r).value < Length(r.schema)
  }

  function At(r: Run): Item
    requires Active(r)
  {
    Items(r.schema).value[Goal(r).value]
  }

  predicate Enabled(s: System, step: Step) {
    match step
    case Start(id, schema, _) => id !in s.runs && Items(schema).Some?
    case Ask(id) => id in s.runs && Active(s.runs[id]) && !s.runs[id].phase.Put?
    case Create(id, _) => id in s.runs && Active(s.runs[id]) && s.runs[id].phase.Put?
    case Fail(id) => id in s.runs && !s.runs[id].phase.Finished?
    case Outside(_) => true
  }

  /** The phase that starts on object i, or the end. */
  function From(schema: Schema, i: nat): Phase {
    if i < Length(schema) then Look(i) else Finished
  }

  function Asked(store: set<string>, r: Run): Phase
    requires Active(r) && !r.phase.Put?
  {
    var i, item := Goal(r).value, At(r);
    var absent := if r.create then Put(i) else Failed;
    match r.phase
    case Look(_) =>
      if item.path in store then From(r.schema, i + 1) else if item.alternate == "" then absent else LookAlternate(i)
    case LookAlternate(_) =>
      if item.alternate in store then From(r.schema, i + 1) else absent
    case Again(_) =>
      if item.path in store then From(r.schema, i + 1) else if item.alternate == "" then Failed else AgainAlternate(i)
    case AgainAlternate(_) =>
      if item.alternate in store then From(r.schema, i + 1) else Failed
  }

  function Do(s: System, step: Step): System
    requires Enabled(s, step)
  {
    match step
    case Start(id, schema, create) => s.(runs := s.runs[id := Run(schema, create, From(schema, 0), 0)])
    case Ask(id) => s.(runs := s.runs[id := s.runs[id].(phase := Asked(s.store, s.runs[id]))])
    case Create(id, stored) =>
      var r := s.runs[id];
      var i := Goal(r).value;
      System(if stored then s.store + {At(r).path} else s.store,
             if stored then s.made + {(r.schema, i)} else s.made,
             s.runs[id := r.(phase := Again(i), puts := r.puts + 1)])
    case Fail(id) => s.(runs := s.runs[id := s.runs[id].(phase := Failed)])
    case Outside(path) => s.(store := s.store + {path})
  }

  /** `steps` is a possible history from `s`. */
  predicate Follows(s: System, steps: seq<Step>)
    decreases |steps|, 0
  {
    steps != [] ==> Follows(s, steps[..|steps| - 1]) && Enabled(After(s, steps[..|steps| - 1]), steps[|steps| - 1])
  }

  function After(s: System, steps: seq<Step>): System
    requires Follows(s, steps)
    decreases |steps|, 1
  {
    if steps == [] then s else Do(After(s, steps[..|steps| - 1]), steps[|steps| - 1])
  }

  // ---- what every history keeps ----

  /** The objects before number i of a schema are there. */
  ghost predicate ThereBefore(store: set<string>, schema: Schema, i: nat) {
    Items(schema).Some? && i <= Length(schema) &&
    forall j :: 0 <= j < i ==> Present(store, Items(schema).value[j])
  }

  ghost predicate RunInv(store: set<string>, r: Run) {
    && Items(r.schema).Some?
    && (!r.create ==> r.puts == 0 && !r.phase.Put? && !r.phase.Again? && !r.phase.AgainAlternate?)
    && (Goal(r).Some? ==> Active(r) && ThereBefore(store, r.schema, Goal(r).value))
    && (r.phase.Finished? ==> ThereBefore(store, r.schema, Length(r.schema)))
    && (r.phase.LookAlternate? || r.phase.AgainAlternate? ==> At(r).alternate != "")
  }

  ghost predicate MadeInv(s: System) {
    forall m :: m in s.made ==> m.1 < Length(m.0) && ThereBefore(s.store, m.0, m.1) && Items(m.0).value[m.1].path in s.store
  }

  ghost predicate Inv(s: System) {
    MadeInv(s) && forall id :: id in s.runs ==> RunInv(s.store, s.runs[id])
  }

  lemma ThereBeforeStays(store: set<string>, later: set<string>, schema: Schema, i: nat)
    requires store <= later && ThereBefore(store, schema, i)
    ensures ThereBefore(later, schema, i)
  {
  }

  lemma RunInvStays(store: set<string>, later: set<string>, r: Run)
    requires store <= later && RunInv(store, r)
    ensures RunInv(later, r)
  {
  }

  lemma AskKeepsRun(s: System, id: nat)
    requires Inv(s) && Enabled(s, Ask(id))
    ensures RunInv(s.store, Do(s, Ask(id)).runs[id])
  {
    var r := s.runs[id];
    assert RunInv(s.store, r);
    AskedKeepsRun(s.store, r);
  }

  lemma OneMoreThere(store: set<string>, schema: Schema, i: nat)
    requires ThereBefore(store, schema, i) && i < Length(schema) && Present(store, Items(schema).value[i])
    ensures ThereBefore(store, schema, i + 1)
  {
    hide Present;
  }

  lemma AskedKeepsRun(store: set<string>, r: Run)
    requires RunInv(store, r) && Active(r) && !r.phase.Put?
    ensures RunInv(store, r.(phase := Asked(store, r)))
  {
    var i := Goal(r).value;
    if Present(store, At(r)) { OneMoreThere(store, r.schema, i); }
    hide Items, ThereBefore;
  }

  lemma StepKeepsInv(s: System, step: Step)
    requires Inv(s) && Enabled(s, step)
    ensures Inv(Do(s, step)) && s.store <= Do(s, step).store
  {
    var t := Do(s, step);
    if step.Ask? { AskKeepsRun(s, step.id); }
    forall id | id in t.runs ensures RunInv(t.store, t.runs[id]) {
      if id in s.runs && t.runs[id] == s.runs[id] { RunInvStays(s.store, t.store, s.runs[id]); }
    }
    forall m | m in t.made
      ensures m.1 < Length(m.0) && ThereBefore(t.store, m.0, m.1) && Items(m.0).value[m.1].path in t.store
    {
      if m in s.made { ThereBeforeStays(s.store, t.store, m.0, m.1); }
    }
  }

  lemma {:induction false} HistoryKeepsInv(s: System, steps: seq<Step>)
    requires Inv(s) && Follows(s, steps)
    ensures Inv(After(s, steps)) && s.store <= After(s, steps).store
    decreases |steps|
  {
    if steps != [] {
      var n := |steps| - 1;
      HistoryKeepsInv(s, steps[..n]);
      StepKeepsInv(After(s, steps[..n]), steps[n]);
    }
  }
}
