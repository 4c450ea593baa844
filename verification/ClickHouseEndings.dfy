/** How a ClickHouse preparation can end: no run fails without a reason, and none goes on for ever. */
module ClickHouseEndings {
  import opened Text
  import opened ClickHouseRuns
  import opened ClickHouseSafety
  import opened ClickHouseTables

  /** A requested table exists somewhere in the cluster with another engine. */
  ghost predicate ForeignTable(s: System, schema: Schema) {
    exists name, n :: n in s.nodes && AsksFor(schema, name)
      && (n, Table(schema.database, name)) in s.store && s.store[(n, Table(schema.database, name))] != Distributed
  }

  /** The object that the run is at is missing on a node that it looks at. */
  ghost predicate SomewhereMissing(s: System, r: Run, i: nat) {
    i < |Tasks(r.schema)| && exists n :: n in Visible(s, r) && (n, Tasks(r.schema)[i].target) !in s.store
  }

  /** Why a run may fail at a step. */
  ghost predicate Reason(s: System, step: Step, id: nat)
    requires id in s.runs
  {
    var r := s.runs[id];
    || step == Fail(id)
    || (step == CountNodes(id) && s.nodes == {})
    || (step == CheckEngines(id) && ForeignTable(s, r.schema))
    || (step == CheckObject(id) && r.phase.Checking? && !r.create && SomewhereMissing(s, r, r.phase.i))
    || (step == RecheckObject(id) && r.phase.Rechecking? && SomewhereMissing(s, r, r.phase.i))
  }

  lemma ForeignIsAskedFor(s: System, schema: Schema)
    ensures TableNames(schema).Some? ==> (HasForeignEngine(s, schema) <==> ForeignTable(s, schema))
  {
    NamesAreAskedFor(schema);
    hide TableNames, AsksFor;
  }

  lemma NotEverywhere(s: System, r: Run, i: nat)
    requires i < |Tasks(r.schema)|
    ensures |Holders(s.store, Visible(s, r), Tasks(r.schema)[i].target)| != |Visible(s, r)| <==> SomewhereMissing(s, r, i)
  {
    FullCount(s.store, Visible(s, r), Tasks(r.schema)[i].target);
    hide Tasks, Holders;
  }

  lemma FailingStep(s: System, step: Step, id: nat)
    requires Inv(s) && Enabled(s, step) && id in s.runs
    requires s.runs[id].phase != Failed && Do(s, step).runs[id].phase == Failed
    ensures Reason(s, step, id)
  {
    var r := s.runs[id];
    assert RunInv(s, r);
    ForeignIsAskedFor(s, r.schema);
    if r.phase.Checking? && r.phase.i < |Tasks(r.schema)| { NotEverywhere(s, r, r.phase.i); }
    if r.phase.Rechecking? { NotEverywhere(s, r, r.phase.i); }
    hide SomewhereMissing, ForeignTable, HasForeignEngine, Tasks, TableNames, SafeStore, SafePending, DoneBefore;
  }

  /** The system after the first k steps. */
  function StateAt(s: System, steps: seq<Step>, k: nat): System
    requires Follows(s, steps) && k <= |steps|
    decreases |steps|
  {
    if k == |steps| then After(s, steps) else StateAt(s, steps[..|steps| - 1], k)
  }

  /**
   Main result: a run that failed has a reason in its history: a request failed, the cluster has no
   nodes, a requested table has another engine, or an object was missing that it may not create or
   had asked for.
   */
  lemma {:induction false} FailureHasReason(s: System, steps: seq<Step>, id: nat) returns (k: nat)
    requires Inv(s) && Follows(s, steps) && id !in s.runs
    requires id in After(s, steps).runs && After(s, steps).runs[id].phase == Failed
    ensures k < |steps| && id in StateAt(s, steps, k).runs && Reason(StateAt(s, steps, k), steps[k], id)
    decreases |steps|
  {
    hide Reason, Inv;
    var n := |steps| - 1;
    var t := After(s, steps[..n]);
    HistoryKeepsInv(s, steps[..n]);
    if id in t.runs && t.runs[id].phase == Failed {
      k := FailureHasReason(s, steps[..n], id);
      assert StateAt(s, steps, k) == StateAt(s, steps[..n], k) && steps[k] == steps[..n][k];
    } else {
      k := n;
      assert StateAt(s, steps, n) == StateAt(s, steps[..n], n) == t;
      if id !in t.runs {
        StartsWell(t, steps[n], id);
      } else {
        FailingStep(t, steps[n], id);
      }
    }
  }

  lemma StartsWell(s: System, step: Step, id: nat)
    requires Enabled(s, step) && id !in s.runs
    ensures id in Do(s, step).runs ==> Do(s, step).runs[id].phase != Failed
  {
  }

  /** How far a run has come; each object takes at most three requests. */
  function Rank(r: Run): nat {
    match r.phase
    case Counting => 0
    case Engines => 1
    case Checking(i) => 3 * i + 2
    case Creating(i) => 3 * i + 3
    case Rechecking(i) => 3 * i + 4
    case Finished => 3 * |Tasks(r.schema)| + 3
    case Failed => 3 * |Tasks(r.schema)| + 3
  }

  /** Main result: every request takes its run further, and there are at most three for an object. */
  lemma RequestsAdvance(s: System, step: Step)
    requires Inv(s) && Enabled(s, step)
    requires step.CountNodes? || step.CheckEngines? || step.CheckObject? || step.Send? || step.RecheckObject?
    ensures Rank(s.runs[step.id]) < Rank(Do(s, step).runs[step.id]) <= 3 * |Tasks(s.runs[step.id].schema)| + 3
  {
    PlaceInTasks(s, s.runs[step.id]);
    hide Inv;
    if step.CountNodes? || step.CheckEngines? {
      ClusterStepAdvances(s, step);
    } else if step.CheckObject? {
      CheckAdvances(s, step.id);
    } else {
      CreationAdvances(s, step);
    }
  }

  lemma ClusterStepAdvances(s: System, step: Step)
    requires Enabled(s, step) && (step.CountNodes? || step.CheckEngines?)
    ensures Rank(s.runs[step.id]) < Rank(Do(s, step).runs[step.id]) <= 3 * |Tasks(s.runs[step.id].schema)| + 3
  {
    hide Tasks, HasForeignEngine;
  }

  lemma CheckAdvances(s: System, id: nat)
    requires Enabled(s, CheckObject(id)) && s.runs[id].phase.i <= |Tasks(s.runs[id].schema)|
    ensures Rank(s.runs[id]) < Rank(Do(s, CheckObject(id)).runs[id]) <= 3 * |Tasks(s.runs[id].schema)| + 3
  {
    hide Tasks, Holders, Visible;
  }

  lemma CreationAdvances(s: System, step: Step)
    requires Enabled(s, step) && (step.Send? || step.RecheckObject?)
    ensures Rank(s.runs[step.id]) < Rank(Do(s, step).runs[step.id]) <= 3 * |Tasks(s.runs[step.id].schema)| + 3
  {
    hide Tasks, Holders, Visible, Queued;
  }

  lemma PlaceInTasks(s: System, r: Run)
    requires exists id :: id in s.runs && s.runs[id] == r && Inv(s)
    ensures r.phase.Checking? ==> r.phase.i <= |Tasks(r.schema)|
  {
    assert RunInv(s, r);
  }
}
