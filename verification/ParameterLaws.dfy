/** What rewriting a parameter changes, what it leaves alone, and when a later write erases an earlier one. */
module ParameterLaws {
  import opened Text
  import opened Parameters

  predicate HasValue(values: seq<string>) {
    exists v :: v in values && v != ""
  }

  predicate AllActive(param: string, lines: seq<string>) {
    forall l :: l in lines ==> Active(param, l)
  }

  predicate NoneActive(param: string, lines: seq<string>) {
    forall l :: l in lines ==> !Active(param, l)
  }

  // ---- filters ----

  lemma {:induction false} InactiveConcat(param: string, a: seq<string>, b: seq<string>)
    ensures Inactive(param, a + b) == Inactive(param, a) + Inactive(param, b)
    decreases |b|
  {
    if b == [] {
      assert a + b == a;
    } else {
      var n := |b| - 1;
      assert (a + b)[..|a + b| - 1] == a + b[..n];
      InactiveConcat(param, a, b[..n]);
    }
  }

  lemma {:induction false} ActiveConcat(param: string, a: seq<string>, b: seq<string>)
    ensures ActiveLines(param, a + b) == ActiveLines(param, a) + ActiveLines(param, b)
    decreases |b|
  {
    if b == [] {
      assert a + b == a;
    } else {
      var n := |b| - 1;
      assert (a + b)[..|a + b| - 1] == a + b[..n];
      ActiveConcat(param, a, b[..n]);
    }
  }

  /** Filtering a kept text with a blank and a block of active lines inserted. */
  lemma FilterInserted(param: string, a: seq<string>, blank: seq<string>, added: seq<string>, b: seq<string>)
    requires AllActive(param, added) && NoneActive(param, blank) && NoneActive(param, b)
    ensures Inactive(param, a + blank + added + b) == Inactive(param, a) + blank + b
    ensures ActiveLines(param, a + blank + added + b) == ActiveLines(param, a) + added
    ensures Inactive(param, a + b) == Inactive(param, a) + b
    ensures ActiveLines(param, a + b) == ActiveLines(param, a)
  {
    hide *;
    InactiveConcat(param, a, b);
    InactiveConcat(param, a, blank);
    InactiveConcat(param, a + blank, added);
    InactiveConcat(param, a + blank + added, b);
    ActiveConcat(param, a, b);
    ActiveConcat(param, a, blank);
    ActiveConcat(param, a + blank, added);
    ActiveConcat(param, a + blank + added, b);
    FilterUniform(param, added);
    FilterUniform(param, blank);
    FilterUniform(param, b);
  }

  lemma {:induction false} FilterUniform(param: string, lines: seq<string>)
    ensures NoneActive(param, lines) ==> Inactive(param, lines) == lines && ActiveLines(param, lines) == []
    ensures AllActive(param, lines) ==> Inactive(param, lines) == [] && ActiveLines(param, lines) == lines
    decreases |lines|
  {
    if lines != [] {
      var n := |lines| - 1;
      assert lines == lines[..n] + [lines[n]];
      FilterUniform(param, lines[..n]);
    }
  }

  lemma {:induction false} ParamLinesActive(param: string, values: seq<string>, existing: set<string>)
    ensures AllActive(param, ParamLines(param, values, existing))
    ensures forall v :: v in values && v != "" && v !in existing ==> param + "=" + v in ParamLines(param, values, existing)
    ensures forall l :: l in ParamLines(param, values, existing) ==>
              exists v :: v in values && v != "" && v !in existing && l == param + "=" + v
    decreases |values|
  {
    if values != [] {
      var n := |values| - 1;
      assert values == values[..n] + [values[n]];
      ParamLinesActive(param, values[..n], existing);
    }
  }

  // ---- where the new lines go ----

  /** The insertion as a cut of the kept lines, with at most one blank line before an appended block. */
  lemma InsertParts(lines: seq<string>, place: Option<nat>, added: seq<string>)
      returns (before: seq<string>, blank: seq<string>, behind: seq<string>)
    requires place.Some? ==> place.value <= |lines|
    ensures lines == before + behind
    ensures Insert(lines, place, added) == before + blank + added + behind
    ensures place.Some? ==> before == lines[..place.value] && blank == []
    ensures place.None? ==> before == lines && behind == [] && blank == if added == [] then [] else Separator(lines)
  {
    if place.Some? {
      before, blank, behind := lines[..place.value], [], lines[place.value..];
      assert before + [] + added + behind == before + added + behind;
    } else {
      before, blank, behind := lines, if added == [] then [] else Separator(lines), [];
      assert before + blank + added + [] == before + blank + added;
    }
  }

  /**
   Rewriting touches its own parameter only: the other lines keep their content and order and gain
   at most one blank line at the end; the lines of the parameter are the old ones (when they are
   preserved) followed by the new ones, and the new ones stand together.
   */
  lemma RewriteTouchesOnlyItsParameter(lines: seq<string>, param: string, values: seq<string>, preserve: bool)
      returns (before: seq<string>, behind: seq<string>)
    ensures var out := Rewrite(lines, param, values, preserve);
            var existing := if preserve then ActiveValues(param, lines) else {};
            var added := ParamLines(param, values, existing);
            && out == before + added + behind
            && ActiveLines(param, behind) == []
            && ActiveLines(param, out) == (if preserve then ActiveLines(param, lines) else []) + added
            && (Inactive(param, out) == Inactive(param, lines)
                || (added != [] && Inactive(param, out) == Inactive(param, lines) + [""]))
  {
    hide Inactive, ActiveLines, Place, ActiveValues, ParamLines, Active, Insert;
    var scan := ScanLines(param, lines, preserve);
    var added := ParamLines(param, values, scan.existing);
    var b, blank, e := InsertParts(scan.kept, scan.place, added);
    before, behind := b + blank, e;
    ParamLinesActive(param, values, scan.existing);
    PlaceIsBehindActive(param, scan.kept);
    EmptyIsInactive(param);
    assert NoneActive(param, e);
    FilterInserted(param, b, blank, added, e);
    KeptIsInactive(param, lines);
    FilterUniform(param, e);
    hide NoneActive, AllActive;
    assert Inactive(param, b) + blank + e == Inactive(param, b) + e + blank by {
      assert blank == [] || e == [];
      BlankOrNothing(Inactive(param, b), blank, e);
    }
  }

  lemma BlankOrNothing(a: seq<string>, blank: seq<string>, e: seq<string>)
    requires blank == [] || e == []
    ensures a + blank + e == a + e + blank
  {
  }

  lemma EmptyIsInactive(param: string)
    ensures NoneActive(param, [""]) && NoneActive(param, [])
  {
  }

  lemma KeptIsInactive(param: string, lines: seq<string>)
    ensures Inactive(param, Inactive(param, lines)) == Inactive(param, lines)
    ensures ActiveLines(param, Inactive(param, lines)) == []
  {
    FilterUniform(param, Inactive(param, lines));
  }

  lemma {:induction false} PlaceIsBehindActive(param: string, lines: seq<string>)
    ensures var place := Place(param, lines);
            if place.Some? then NoneActive(param, lines[place.value..]) else NoneActive(param, lines)
    decreases |lines|
  {
    if lines != [] {
      var n := |lines| - 1;
      PlaceIsBehindActive(param, lines[..n]);
      var place := Place(param, lines);
      assert lines == lines[..n] + [lines[n]];
      if place.Some? && place.value <= n {
        assert lines[place.value..] == lines[..n][place.value..] + [lines[n]];
      }
    }
  }

  /** The text before the first equals sign. */
  function NameOf(line: string): string {
    if line == "" || line[0] == '=' then "" else [line[0]] + NameOf(line[1..])
  }

  lemma {:induction false} ActiveNamesItsParameter(param: string, line: string)
    requires '=' !in param && Active(param, line)
    ensures NameOf(line) == param
    decreases |param|
  {
    assert (param + "=")[0] == line[0];
    if param != "" {
      assert (param + "=")[1..] == param[1..] + "=";
      assert param == [param[0]] + param[1..];
      ActiveNamesItsParameter(param[1..], line[1..]);
    }
  }

  lemma OneNamePerLine(p: string, q: string, line: string)
    requires '=' !in p && '=' !in q && p != q
    ensures !(Active(p, line) && Active(q, line))
  {
    if Active(p, line) {
      ActiveNamesItsParameter(p, line);
      if Active(q, line) {
        ActiveNamesItsParameter(q, line);
        assert false;
      }
    }
  }

  lemma {:induction false} OthersAreKept(p: string, q: string, lines: seq<string>)
    requires '=' !in p && '=' !in q && p != q
    ensures ActiveLines(q, Inactive(p, lines)) == ActiveLines(q, lines)
    decreases |lines|
  {
    if lines != [] {
      var n := |lines| - 1;
      OthersAreKept(p, q, lines[..n]);
      OneNamePerLine(p, q, lines[n]);
      var kept := Inactive(p, lines[..n]);
      assert !Active(p, lines[n]) ==> (kept + [lines[n]])[..|kept|] == kept;
      assert kept + [] == kept;
    }
  }

  /** Rewriting one parameter leaves the lines of every other parameter as they were. */
  lemma RewriteLeavesOthersAlone(lines: seq<string>, p: string, q: string, values: seq<string>, preserve: bool)
    requires '=' !in p && '=' !in q && p != q
    ensures ActiveLines(q, Rewrite(lines, p, values, preserve)) == ActiveLines(q, lines)
  {
    hide Inactive, ActiveLines, Place, ActiveValues, ParamLines, Active, Insert;
    var scan := ScanLines(p, lines, preserve);
    var added := ParamLines(p, values, scan.existing);
    var b, blank, e := InsertParts(scan.kept, scan.place, added);
    ParamLinesActive(p, values, scan.existing);
    forall l | l in added ensures !Active(q, l) {
      assert Active(p, l);
      OneNamePerLine(p, q, l);
    }
    EmptyIsInactive(q);
    FilterUniform(q, added);
    FilterUniform(q, blank);
    ActiveConcat(q, b, e);
    ActiveConcat(q, b, blank);
    ActiveConcat(q, b + blank, added);
    ActiveConcat(q, b + blank + added, e);
    OthersAreKept(p, q, lines);
  }
}
