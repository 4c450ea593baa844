/** What overlapping Elasticsearch preparations guarantee: pipelines first, and nothing put unseen. */
module ElasticsearchSafety {
  import opened Text
  import opened ElasticsearchRuns

  // ---- pipelines ----

  /** Object i is the index of the kind, and the object before it is the kind's pipeline. */
  predicate FollowsPipeline(s: Schema, items: seq<Item>, i: nat, kind: string) {
    0 < i < |items| && items[i] == Index(s, kind) && items[i - 1] == Pipeline(s, kind)
  }

  lemma KindsDiffer(s: Schema, a: string, b: string)
    requires a in MAPPING_FILES && b in MAPPING_FILES
    ensures Index(s, a) == Index(s, b) ==> a == b
    ensures NeedsPipeline(s, b) ==> Index(s, a) != Pipeline(s, b)
  {
    if s.dateIndex {
      var head, tail := "/_index_template/", "_template";
      assert Index(s, a).path == head + a + tail && Index(s, b).path == head + b + tail;
      if Index(s, a) == Index(s, b) {
        assert |a| == |b|;
        assert a == (head + a + tail)[|head|..|head| + |a|] && b == (head + b + tail)[|head|..|head| + |b|];
      }
    } else {
      assert Index(s, a).path[1..] == a && Index(s, b).path[1..] == b;
      assert a[0] != '_';
      assert Index(s, a).path[1] == a[0] && Pipeline(s, b).path[1] == '_';
    }
  }

  lemma {:induction false} IndexFollowsPipeline(s: Schema, kinds: seq<string>, i: nat, kind: string)
    requires forall k :: k in kinds ==> k in MAPPING_FILES
    requires kind in MAPPING_FILES && NeedsPipeline(s, kind)
    requires i < |ItemsFor(s, kinds)| && ItemsFor(s, kinds)[i] == Index(s, kind)
    ensures FollowsPipeline(s, ItemsFor(s, kinds), i, kind)
    decreases |kinds|
  {
    var n := |kinds| - 1;
    var before, last := ItemsFor(s, kinds[..n]), kinds[n];
    if i < |before| {
      IndexFollowsPipeline(s, kinds[..n], i, kind);
    } else {
      KindsDiffer(s, kind, last);
      var own := KindItems(s, last);
      assert ItemsFor(s, kinds)[i] == own[i - |before|];
      assert kind == last && |own| == 2 && i == |before| + 1;
      assert ItemsFor(s, kinds)[i - 1] == own[0];
    }
  }

  predicate Fresh(s: System) {
    s.made == {} && s.runs == map[]
  }

  /**
   Main result: over every interleaving of runs, whoever else creates objects, an index or template
   that a run stored always has its ingest pipeline.
   */
  lemma StoredIndexHasPipeline(s: System, steps: seq<Step>, m: (Schema, nat), kind: string)
    requires Fresh(s) && Follows(s, steps) && m in After(s, steps).made
    requires kind in m.0.valueTypes && NeedsPipeline(m.0, kind)
    requires Items(m.0).Some? && m.1 < Length(m.0) && Items(m.0).value[m.1] == Index(m.0, kind)
    ensures Index(m.0, kind).path in After(s, steps).store
    ensures Pipeline(m.0, kind).path in After(s, steps).store
  {
    HistoryKeepsInv(s, steps);
    IndexFollowsPipeline(m.0, m.0.valueTypes, m.1, kind);
    assert Present(After(s, steps).store, Items(m.0).value[m.1 - 1]);
  }

  /** Main result: a run that finished has every object of its schema, for good; without permission it put nothing. */
  lemma FinishedMeansPresent(s: System, steps: seq<Step>, later: seq<Step>, id: nat)
    requires Fresh(s) && Follows(s, steps) && id in After(s, steps).runs && After(s, steps).runs[id].phase == Finished
    requires Follows(After(s, steps), later)
    ensures var r := After(s, steps).runs[id];
            && (forall j :: 0 <= j < Length(r.schema) ==>
                  Present(After(After(s, steps), later).store, Items(r.schema).value[j]))
            && (!r.create ==> r.puts == 0)
  {
    HistoryKeepsInv(s, steps);
    HistoryKeepsInv(After(s, steps), later);
    var r := After(s, steps).runs[id];
    ThereBeforeStays(After(s, steps).store, After(After(s, steps), later).store, r.schema, Length(r.schema));
  }

  // ---- what a run has seen ----

  /** The system after the first k steps. */
  function StateAt(s: System, steps: seq<Step>, k: nat): System
    requires Follows(s, steps) && k <= |steps|
    decreases |steps|
  {
    if k == |steps| then After(s, steps) else StateAt(s, steps[..|steps| - 1], k)
  }

  /** At step k the run asked about object j of its schema, and this was the state. */
  predicate AskedAbout(s: System, steps: seq<Step>, id: nat, k: nat, j: nat)
    requires Follows(s, steps)
  {
    && k < |steps| && steps[k] == Ask(id)
    && var t := StateAt(s, steps, k);
       id in t.runs && Active(t.runs[id]) && Goal(t.runs[id]) == Some(j)
  }

  ghost predicate SawPresent(s: System, steps: seq<Step>, id: nat, j: nat)
    requires Follows(s, steps)
  {
    exists k :: AskedAbout(s, steps, id, k, j)
      && Present(StateAt(s, steps, k).store, At(StateAt(s, steps, k).runs[id]))
  }

  ghost predicate SawPathMissing(s: System, steps: seq<Step>, id: nat, j: nat)
    requires Follows(s, steps)
  {
    exists k :: AskedAbout(s, steps, id, k, j) && StateAt(s, steps, k).runs[id].phase == Look(j)
      && At(StateAt(s, steps, k).runs[id]).path !in StateAt(s, steps, k).store
  }

  ghost predicate SawAlternateMissing(s: System, steps: seq<Step>, id: nat, j: nat)
    requires Follows(s, steps)
  {
    exists k :: AskedAbout(s, steps, id, k, j) && StateAt(s, steps, k).runs[id].phase == LookAlternate(j)
      && At(StateAt(s, steps, k).runs[id]).alternate !in StateAt(s, steps, k).store
  }

  ghost predicate SawBefore(s: System, steps: seq<Step>, id: nat, i: nat)
    requires Follows(s, steps)
  {
    forall j :: 0 <= j < i ==> SawPresent(s, steps, id, j)
  }

  ghost predicate Watched(s: System, steps: seq<Step>, id: nat)
    requires Follows(s, steps)
  {
    id in After(s, steps).runs ==>
      var r := After(s, steps).runs[id];
      && (Goal(r).Some? ==> Active(r) && SawBefore(s, steps, id, Goal(r).value))
      && (r.phase.Finished? ==> SawBefore(s, steps, id, Length(r.schema)))
      && (r.phase.LookAlternate? ==> SawPathMissing(s, steps, id, r.phase.i))
      && (r.phase.Put? ==> SawPathMissing(s, steps, id, r.phase.i)
                           && (At(r).alternate == "" || SawAlternateMissing(s, steps, id, r.phase.i)))
  }

  lemma StillAsked(s: System, steps: seq<Step>, id: nat, k: nat, j: nat)
    requires Follows(s, steps) && steps != [] && AskedAbout(s, steps[..|steps| - 1], id, k, j)
    ensures AskedAbout(s, steps, id, k, j)
    ensures StateAt(s, steps, k) == StateAt(s, steps[..|steps| - 1], k)
  {
  }

  lemma StillSeen(s: System, steps: seq<Step>, id: nat, j: nat)
    requires Follows(s, steps) && steps != []
    ensures var before := steps[..|steps| - 1];
            && (SawPresent(s, before, id, j) ==> SawPresent(s, steps, id, j))
            && (SawPathMissing(s, before, id, j) ==> SawPathMissing(s, steps, id, j))
            && (SawAlternateMissing(s, before, id, j) ==> SawAlternateMissing(s, steps, id, j))
  {
    var before := steps[..|steps| - 1];
    forall k | AskedAbout(s, before, id, k, j)
      ensures AskedAbout(s, steps, id, k, j) && StateAt(s, steps, k) == StateAt(s, before, k)
    {
      StillAsked(s, steps, id, k, j);
    }
  }

  lemma StillSeenBefore(s: System, steps: seq<Step>, id: nat, i: nat)
    requires Follows(s, steps) && steps != [] && SawBefore(s, steps[..|steps| - 1], id, i)
    ensures SawBefore(s, steps, id, i)
  {
    hide SawPresent;
    forall j | 0 <= j < i ensures SawPresent(s, steps, id, j) {
      StillSeen(s, steps, id, j);
    }
  }

  /** The run's own look is the last thing it saw. */
  lemma JustAsked(s: System, steps: seq<Step>, id: nat, j: nat)
    requires Follows(s, steps) && steps != [] && steps[|steps| - 1] == Ask(id)
    requires var t := After(s, steps[..|steps| - 1]);
             id in t.runs && Active(t.runs[id]) && Goal(t.runs[id]) == Some(j)
    ensures var t := After(s, steps[..|steps| - 1]);
            && (Present(t.store, At(t.runs[id])) ==> SawPresent(s, steps, id, j))
            && (t.runs[id].phase == Look(j) && At(t.runs[id]).path !in t.store ==> SawPathMissing(s, steps, id, j))
            && (t.runs[id].phase == LookAlternate(j) && At(t.runs[id]).alternate !in t.store ==>
                  SawAlternateMissing(s, steps, id, j))
  {
    var n := |steps| - 1;
    assert StateAt(s, steps, n) == StateAt(s, steps[..n], n) == After(s, steps[..n]);
    assert AskedAbout(s, steps, id, n, j);
  }

  lemma WatchedStep(s: System, steps: seq<Step>, id: nat)
    requires Fresh(s) && Follows(s, steps) && steps != [] && Watched(s, steps[..|steps| - 1], id)
    ensures Watched(s, steps, id)
  {
    var n := |steps| - 1;
    var t := After(s, steps[..n]);
    HistoryKeepsInv(s, steps[..n]);
    if id in t.runs {
      var r := t.runs[id];
      if Goal(r).Some? {
        var i := Goal(r).value;
        StillSeen(s, steps, id, i);
        StillSeenBefore(s, steps, id, i);
        if steps[n] == Ask(id) {
          JustAsked(s, steps, id, i);
          WatchedAsk(s, steps, id);
        } else {
          WatchedOther(s, steps, id);
        }
      } else if r.phase.Finished? {
        StillSeenBefore(s, steps, id, Length(r.schema));
      }
    }
  }

  lemma WatchedOther(s: System, steps: seq<Step>, id: nat)
    requires Follows(s, steps) && steps != [] && Watched(s, steps[..|steps| - 1], id) && steps[|steps| - 1] != Ask(id)
    requires var t := After(s, steps[..|steps| - 1]);
             && id in t.runs && Goal(t.runs[id]).Some?
             && SawBefore(s, steps, id, Goal(t.runs[id]).value)
    requires var before, i := steps[..|steps| - 1], Goal(After(s, steps[..|steps| - 1]).runs[id]).value;
             && (SawPathMissing(s, before, id, i) ==> SawPathMissing(s, steps, id, i))
             && (SawAlternateMissing(s, before, id, i) ==> SawAlternateMissing(s, steps, id, i))
    ensures Watched(s, steps, id)
  {
    hide SawBefore, SawPathMissing, SawAlternateMissing;
  }

  lemma WatchedAsk(s: System, steps: seq<Step>, id: nat)
    requires Follows(s, steps) && steps != [] && Watched(s, steps[..|steps| - 1], id) && steps[|steps| - 1] == Ask(id)
    requires var t := After(s, steps[..|steps| - 1]);
             && id in t.runs && Active(t.runs[id]) && RunInv(t.store, t.runs[id])
             && SawBefore(s, steps, id, Goal(t.runs[id]).value)
             && (Present(t.store, At(t.runs[id])) ==> SawPresent(s, steps, id, Goal(t.runs[id]).value))
             && (t.runs[id].phase == Look(Goal(t.runs[id]).value) && At(t.runs[id]).path !in t.store ==>
                   SawPathMissing(s, steps, id, Goal(t.runs[id]).value))
             && (t.runs[id].phase == LookAlternate(Goal(t.runs[id]).value) && At(t.runs[id]).alternate !in t.store ==>
                   SawAlternateMissing(s, steps, id, Goal(t.runs[id]).value))
    requires var before, i := steps[..|steps| - 1], Goal(After(s, steps[..|steps| - 1]).runs[id]).value;
             SawPathMissing(s, before, id, i) ==> SawPathMissing(s, steps, id, i)
    ensures Watched(s, steps, id)
  {
    hide SawPresent, SawPathMissing, SawAlternateMissing;
  }

  lemma {:induction false} HistoryIsWatched(s: System, steps: seq<Step>, id: nat)
    requires Fresh(s) && Follows(s, steps)
    ensures Watched(s, steps, id)
    decreases |steps|
  {
    if steps != [] {
      HistoryIsWatched(s, steps[..|steps| - 1], id);
      WatchedStep(s, steps, id);
    }
  }

  /**
   Main result: when a run is about to PUT an object, it has itself found that object's path absent
   and, if there is one, its legacy template absent, and has seen every earlier object of its schema.
   */
  lemma PutOnlyWhatWasMissing(s: System, steps: seq<Step>, id: nat, stored: bool)
    requires Fresh(s) && Follows(s, steps) && Enabled(After(s, steps), Create(id, stored))
    ensures var r := After(s, steps).runs[id];
            var i := Goal(r).value;
            && r.create && SawPathMissing(s, steps, id, i)
            && (At(r).alternate == "" || SawAlternateMissing(s, steps, id, i))
            && SawBefore(s, steps, id, i)
  {
    HistoryIsWatched(s, steps, id);
    HistoryKeepsInv(s, steps);
  }

  /** Main result: a run that finished has itself seen every object of its schema. */
  lemma FinishedHasSeenAll(s: System, steps: seq<Step>, id: nat)
    requires Fresh(s) && Follows(s, steps) && id in After(s, steps).runs && After(s, steps).runs[id].phase == Finished
    ensures SawBefore(s, steps, id, Length(After(s, steps).runs[id].schema))
  {
    HistoryIsWatched(s, steps, id);
  }
}
