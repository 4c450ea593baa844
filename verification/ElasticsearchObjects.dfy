/** What an Elasticsearch schema asks for, said object by object, and how a preparation can end. */
module ElasticsearchObjects {
  import opened Text
  import opened ElasticsearchRuns
  import opened ElasticsearchSafety

  /** The object is the index, or the template for indexes by date, of one value type, or its ingest pipeline. */
  predicate IsFor(item: Item, kind: string, byDate: bool) {
    if byDate then
      || item == Item("/_ingest/pipeline/" + kind + "-pipeline", "")
      || item == Item("/_index_template/" + kind + "_template", "/_template/" + kind + "_template")
    else
      item == Item("/" + kind, "") || (kind == "json" && item == Item("/_ingest/pipeline/json", ""))
  }

  predicate KnownTypes(schema: Schema) {
    forall kind :: kind in schema.valueTypes ==> kind in MAPPING_FILES
  }

  lemma {:induction false} ItemsAre(s: Schema, kinds: seq<string>, item: Item)
    ensures item in ItemsFor(s, kinds) <==> exists kind :: kind in kinds && IsFor(item, kind, s.dateIndex)
    decreases |kinds|
  {
    if kinds != [] {
      var n := |kinds| - 1;
      assert kinds == kinds[..n] + [kinds[n]];
      ItemsAre(s, kinds[..n], item);
      KindItemsAre(s, kinds[n], item);
      hide IsFor, KindItems;
      assert ItemsFor(s, kinds) == ItemsFor(s, kinds[..n]) + KindItems(s, kinds[n]);
    }
  }

  lemma KindItemsAre(s: Schema, kind: string, item: Item)
    ensures item in KindItems(s, kind) <==> IsFor(item, kind, s.dateIndex)
  {
    assert s.dateIndex ==>
        Pipeline(s, kind).path == "/_ingest/pipeline/" + (kind + "-pipeline") == "/_ingest/pipeline/" + kind + "-pipeline";
    assert !s.dateIndex ==> Pipeline(s, kind).path == "/_ingest/pipeline/" + "json" == "/_ingest/pipeline/json";
  }

  /** Main result: the objects of a schema are exactly those of its value types; there are none exactly for an unknown type. */
  lemma ItemsAreAskedFor(s: Schema, item: Item)
    ensures Items(s).Some? <==> KnownTypes(s)
    ensures Items(s).Some? ==>
              (item in Items(s).value <==> exists kind :: kind in s.valueTypes && IsFor(item, kind, s.dateIndex))
  {
    hide MAPPING_FILES, ItemsFor, IsFor;
    ItemsAre(s, s.valueTypes, item);
  }

  /** What every requested value type has in the store. */
  predicate Stands(s: Schema, store: set<string>) {
    forall kind :: kind in s.valueTypes ==>
      if s.dateIndex then
        && "/_ingest/pipeline/" + kind + "-pipeline" in store
        && ("/_index_template/" + kind + "_template" in store || "/_template/" + kind + "_template" in store)
      else
        "/" + kind in store && (kind == "json" ==> "/_ingest/pipeline/json" in store)
  }

  lemma PresentStands(s: Schema, store: set<string>)
    requires Items(s).Some? && forall item :: item in Items(s).value ==> Present(store, item)
    ensures Stands(s, store)
  {
    hide Items, MAPPING_FILES;
    forall kind, item | kind in s.valueTypes && IsFor(item, kind, s.dateIndex) ensures Present(store, item) {
      ItemsAreAskedFor(s, item);
    }
    forall kind | kind in s.valueTypes
      ensures if s.dateIndex then
                && "/_ingest/pipeline/" + kind + "-pipeline" in store
                && ("/_index_template/" + kind + "_template" in store || "/_template/" + kind + "_template" in store)
              else "/" + kind in store && (kind == "json" ==> "/_ingest/pipeline/json" in store)
    {
      KindStands(s, store, kind);
    }
  }

  lemma KindStands(s: Schema, store: set<string>, kind: string)
    requires kind in s.valueTypes
    requires forall item :: IsFor(item, kind, s.dateIndex) ==> Present(store, item)
    ensures if s.dateIndex then
              && "/_ingest/pipeline/" + kind + "-pipeline" in store
              && ("/_index_template/" + kind + "_template" in store || "/_template/" + kind + "_template" in store)
            else "/" + kind in store && (kind == "json" ==> "/_ingest/pipeline/json" in store)
  {
    if s.dateIndex {
      assert IsFor(Item("/_ingest/pipeline/" + kind + "-pipeline", ""), kind, true);
      assert IsFor(Item("/_index_template/" + kind + "_template", "/_template/" + kind + "_template"), kind, true);
    } else {
      assert IsFor(Item("/" + kind, ""), kind, false);
      assert kind == "json" ==> IsFor(Item("/_ingest/pipeline/json", ""), kind, false);
    }
  }

  // ---- how a run ends ----

  /** What the run is about to look up. */
  function LookedUp(r: Run): string
    requires Active(r)
  {
    if r.phase.LookAlternate? || r.phase.AgainAlternate? then At(r).alternate else At(r).path
  }

  /** Why a run may fail at a step: a request failed, or what it looked up was absent and may not or need not be created. */
  ghost predicate Reason(s: System, step: Step, id: nat)
    requires id in s.runs
  {
    var r := s.runs[id];
    || step == Fail(id)
    || (step == Ask(id) && Active(r) && LookedUp(r) !in s.store
        && (!r.create || r.phase.Again? || r.phase.AgainAlternate?)
        && (r.phase.Look? || r.phase.Again? ==> At(r).alternate == ""))
  }

  lemma FailingStep(s: System, step: Step, id: nat)
    requires Enabled(s, step) && id in s.runs && s.runs[id].phase != Failed && Do(s, step).runs[id].phase == Failed
    ensures Reason(s, step, id)
  {
  }

  /** Main result: a run that failed has a reason in its history; no run gives up an object that it may create. */
  lemma {:induction false} FailureHasReason(s: System, steps: seq<Step>, id: nat) returns (k: nat)
    requires Fresh(s) && Follows(s, steps) && id in After(s, steps).runs && After(s, steps).runs[id].phase == Failed
    ensures k < |steps| && id in StateAt(s, steps, k).runs && Reason(StateAt(s, steps, k), steps[k], id)
    decreases |steps|
  {
    var n := |steps| - 1;
    var t := After(s, steps[..n]);
    if id in t.runs && t.runs[id].phase == Failed {
      k := FailureHasReason(s, steps[..n], id);
      assert StateAt(s, steps, k) == StateAt(s, steps[..n], k) && steps[k] == steps[..n][k];
    } else {
      k := n;
      assert StateAt(s, steps, n) == StateAt(s, steps[..n], n) == t;
      if id !in t.runs {
        StartsWell(t, steps[n], id);
      } else {
        FailingStep(t, steps[n], id);
      }
    }
  }

  lemma StartsWell(s: System, step: Step, id: nat)
    requires Enabled(s, step) && id !in s.runs
    ensures id in Do(s, step).runs ==> Do(s, step).runs[id].phase != Failed
  {
  }

  /** How far a run has come; each object takes at most five requests. */
  function Rank(r: Run): nat {
    match r.phase
    case Look(i) => 5 * i
    case LookAlternate(i) => 5 * i + 1
    case Put(i) => 5 * i + 2
    case Again(i) => 5 * i + 3
    case AgainAlternate(i) => 5 * i + 4
    case Finished => 5 * Length(r.schema) + 5
    case Failed => 5 * Length(r.schema) + 5
  }

  /** Main result: every request takes its run further, and there are at most five for an object. */
  lemma RequestsAdvance(s: System, step: Step)
    requires Inv(s) && Enabled(s, step) && (step.Ask? || step.Create?)
    ensures Rank(s.runs[step.id]) < Rank(Do(s, step).runs[step.id]) <= 5 * Length(s.runs[step.id].schema) + 5
  {
    hide Items, Present;
  }
}
