/** The Elasticsearch `Prepare` as the source runs it, request by request. */
module ElasticsearchClient {
  import opened Text
  import opened ElasticsearchRuns
  import opened ElasticsearchSafety
  import opened ElasticsearchObjects

  datatype PrepareError = UnknownValueType | Missing | StillMissing | CreateFailed | RequestFailed

  type Outcome = Option<PrepareError>

  class Client {
    var store: set<string>

    // the history this store has been through, as steps of the system
    ghost const origin: System
    ghost var steps: seq<Step>
    ghost var system: System

    ghost predicate Valid()
      reads this
    {
      Fresh(origin) && Follows(origin, steps) && After(origin, steps) == system && system.store == store
    }

    constructor (s: System)
      requires Fresh(s)
      ensures Valid() && origin == s && steps == []
    {
      store, origin, steps, system := s.store, s, [], s;
    }

    ghost method Record(step: Step)
      requires Valid() && Enabled(system, step) && !step.Create? && !step.Outside?
      modifies this`steps, this`system
      ensures Valid() && system == Do(old(system), step) && steps == old(steps) + [step]
    {
      RecordedStep(origin, steps, step);
      steps := steps + [step];
      system := Do(system, step);
    }

    /** Others may create objects at any time. */
    method Others()
      requires Valid()
      modifies this
      ensures Valid() && old(steps) <= steps && old(store) <= store && system.runs == old(system).runs
    {
      var more: bool := *;
      var turns: nat := *;
      while more && turns > 0
        invariant Valid() && old(steps) <= steps && old(store) <= store && system.runs == old(system).runs
        decreases turns
      {
        var path: string := *;
        RecordedStep(origin, steps, Outside(path));
        store := store + {path};
        steps := steps + [Outside(path)];
        system := Do(system, Outside(path));
        more, turns := *, turns - 1;
      }
    }

    /** One request about one path; None when it fails. */
    method Exists(path: string) returns (r: Option<bool>)
      requires Valid()
      modifies this
      ensures Valid() && old(steps) <= steps && old(store) <= store && system.runs == old(system).runs
      ensures r.Some? ==> r.value == (path in store)
    {
      Others();
      var failed: bool := *;
      r := if failed then None else Some(path in store);
    }

    /** `objectExists`: the path, then the legacy template if there is one. */
    method ObjectExists(ghost id: nat, ghost run: Run, item: Item) returns (r: Option<bool>)
      requires Valid() && id in system.runs && system.runs[id] == run
      requires Active(run) && (run.phase.Look? || run.phase.Again?) && At(run) == item
      modifies this
      ensures Valid() && old(steps) <= steps && old(store) <= store && id in system.runs
      ensures var i := Goal(run).value;
              system.runs[id] == run.(phase :=
                if r.None? then Failed
                else if r.value then From(run.schema, i + 1)
                else if run.phase.Look? && run.create then Put(i) else Failed)
    {
      hide Items, From, Length, Present;
      var found := Exists(item.path);
      if found.None? {
        Record(Fail(id));
        return None;
      }
      Record(Ask(id));
      if found.value || item.alternate == "" {
        return found;
      }
      found := Exists(item.alternate);
      if found.None? {
        Record(Fail(id));
        return None;
      }
      Record(Ask(id));
      return found;
    }

    /** A PUT; whether it took effect and what was answered are independent. */
    method Request(ghost id: nat, ghost run: Run, item: Item) returns (ok: bool)
      requires Valid() && id in system.runs && system.runs[id] == run && Active(run) && run.phase.Put? && At(run) == item
      modifies this
      ensures Valid() && old(steps) <= steps && old(store) <= store && id in system.runs
      ensures system.runs[id] == run.(phase := Again(Goal(run).value), puts := run.puts + 1)
    {
      var stored: bool := *;
      RecordedStep(origin, steps, Create(id, stored));
      if stored {
        store := store + {item.path};
      }
      steps := steps + [Create(id, stored)];
      system := Do(system, Create(id, stored));
      ok := *;
    }

    /** One turn of the loop of `Prepare`. */
    method EnsureObject(ghost id: nat, ghost run: Run, item: Item, create: bool) returns (r: Outcome)
      requires Valid() && id in system.runs && system.runs[id] == run && run.create == create
      requires Active(run) && run.phase.Look? && At(run) == item
      modifies this
      ensures Valid() && old(steps) <= steps && old(store) <= store && id in system.runs
      ensures system.runs[id] == run.(phase := if r.None? then From(run.schema, Goal(run).value + 1) else Failed,
                                      puts := system.runs[id].puts)
      ensures !create ==> system.runs[id].puts == run.puts
      ensures r != Some(UnknownValueType)
    {
      var exists_ := ObjectExists(id, run, item);
      if exists_.None? {
        return Some(RequestFailed);
      }
      if exists_.value {
        return None;
      }
      if !create {
        return Some(Missing);
      }
      var created := Request(id, system.runs[id], item);
      exists_ := ObjectExists(id, system.runs[id], item);
      if exists_.None? {
        return Some(RequestFailed);
      }
      r := if exists_.value then None else if created then Some(StillMissing) else Some(CreateFailed);
    }

    /**
     `Prepare`: without an error every object of the schema is there, even one whose own creation
     failed; a run that may not create puts nothing. The run is one of the modelled system's, so all
     that is proved of those holds of it.
     */
    method Prepare(schema: Schema, create: bool, ghost id: nat) returns (r: Outcome)
      requires Valid() && id !in system.runs
      modifies this
      ensures Valid() && old(steps) <= steps && old(store) <= store
      ensures r == Some(UnknownValueType) <==> Items(schema).None?
      ensures r == Some(UnknownValueType) <==> !KnownTypes(schema)
      ensures Items(schema).None? ==> steps == old(steps) && store == old(store)
      ensures Items(schema).Some? ==>
                && id in system.runs && system.runs[id].schema == schema && system.runs[id].create == create
                && system.runs[id].phase == if r.None? then Finished else Failed
      ensures r.None? ==> forall item :: item in Items(schema).value ==> Present(store, item)
      ensures r.None? ==> Stands(schema, store)
      ensures Items(schema).Some? && !create ==> system.runs[id].puts == 0
    {
      var items := BuildItems(schema);
      if items.None? {
        return Some(UnknownValueType);
      }
      Record(Start(id, schema, create));
      ghost var run := system.runs[id];
      for i := 0 to |items.value|
        invariant Valid() && old(steps) <= steps && old(store) <= store && id in system.runs
        invariant system.runs[id] == run.(phase := From(schema, i), puts := system.runs[id].puts)
        invariant !create ==> system.runs[id].puts == 0
      {
        r := EnsureObject(id, system.runs[id], items.value[i], create);
        if r.Some? {
          return r;
        }
      }
      FinishedMeansPresent(origin, steps, [], id);
      PresentStands(schema, store);
      return None;
    }
  }

  lemma RecordedStep(s: System, steps: seq<Step>, step: Step)
    requires Follows(s, steps) && Enabled(After(s, steps), step)
    ensures Follows(s, steps + [step]) && After(s, steps + [step]) == Do(After(s, steps), step)
  {
    assert (steps + [step])[..|steps|] == steps;
  }
}
