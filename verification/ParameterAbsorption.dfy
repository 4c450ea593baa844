/** When a second write of a parameter erases every trace of the first one, down to the bytes. */
module ParameterAbsorption {
  import opened Text
  import opened ConfigLines
  import opened Parameters
  import opened ParameterLaws

  // ---- losing a trailing CR changes no line's role ----

  lemma StripKeepsPrefix(prefix: string, line: string)
    requires prefix != "" && prefix[|prefix| - 1] != '\r'
    ensures prefix <= StripCR(line) <==> prefix <= line
  {
    if prefix <= line && EndsCR(line) {
      assert prefix[|prefix| - 1] == line[|prefix| - 1];
      assert prefix == line[..|prefix|] == StripCR(line)[..|prefix|];
    }
  }

  lemma StripKeepsRole(param: string, line: string)
    ensures Active(param, StripCR(line)) <==> Active(param, line)
    ensures Commented(param, StripCR(line)) <==> Commented(param, line)
  {
    StripKeepsPrefix(param + "=", line);
    StripKeepsPrefix("# " + param + "=", line);
    StripKeepsPrefix("; " + param + "=", line);
  }

  lemma {:induction false} PlaceStripped(param: string, lines: seq<string>)
    ensures Place(param, StripAll(lines)) == Place(param, lines)
    decreases |lines|
  {
    if lines != [] {
      var n := |lines| - 1;
      PlaceStripped(param, lines[..n]);
      StripKeepsRole(param, lines[n]);
      assert StripAll(lines)[..n] == StripAll(lines[..n]);
    }
  }

  lemma StripKeepsAllInactive(param: string, lines: seq<string>)
    requires NoneActive(param, lines)
    ensures NoneActive(param, StripAll(lines))
  {
    forall l | l in StripAll(lines) ensures !Active(param, l) {
      var i :| 0 <= i < |lines| && StripCR(lines[i]) == l;
      StripKeepsRole(param, lines[i]);
    }
  }

  /** The lines of a block that would survive the next rewrite. */
  function Leftover(param: string, entries: seq<string>): seq<string> {
    Inactive(param, StripAll(Physical(entries)))
  }

  lemma LeftoverEmpty(param: string, entries: seq<string>)
    ensures Leftover(param, entries) == [] <==> AllActive(param, Physical(entries))
  {
    var lines := Physical(entries);
    var stripped := StripAll(lines);
    if AllActive(param, lines) {
      forall l | l in stripped ensures Active(param, l) {
        var i :| 0 <= i < |lines| && StripCR(lines[i]) == l;
        StripKeepsRole(param, lines[i]);
      }
      FilterUniform(param, stripped);
    } else {
      var l :| l in lines && !Active(param, l);
      var i :| 0 <= i < |lines| && lines[i] == l;
      StripKeepsRole(param, l);
      assert stripped[i] in stripped;
      assert stripped[i] in Leftover(param, entries);
    }
  }

  // ---- inserting again ----

  /** Once a place is found without active lines, lines behind it do not matter. */
  lemma {:induction false} PlaceIsFirst(param: string, a: seq<string>, b: seq<string>)
    requires NoneActive(param, b) && Place(param, a).Some?
    ensures Place(param, a + b) == Place(param, a)
    decreases |b|
  {
    if b == [] {
      assert a + b == a;
    } else {
      var n := |b| - 1;
      assert (a + b)[..|a + b| - 1] == a + b[..n];
      PlaceIsFirst(param, a, b[..n]);
    }
  }

  lemma {:induction false} PlaceEndsPrefix(param: string, lines: seq<string>)
    requires NoneActive(param, lines) && Place(param, lines).Some?
    ensures Place(param, lines[..Place(param, lines).value]) == Place(param, lines)
    decreases |lines|
  {
    var n := |lines| - 1;
    var k := Place(param, lines).value;
    if k <= n {
      PlaceEndsPrefix(param, lines[..n]);
      assert lines[..n][..k] == lines[..k];
    } else {
      assert lines[..k] == lines;
    }
  }

  // ---- replacing twice ----

  /** What the second rewrite starts from: the cut of the first one, as it reads back. */
  lemma SecondScan(param: string, before: seq<string>, blank: seq<string>, added: seq<string>, behind: seq<string>)
    requires OneLineEach(before) && OneLineEach(behind) && NoneActive(param, before) && NoneActive(param, behind)
    requires blank == [] || blank == [""]
    requires before + blank + added + behind != []
    ensures Inactive(param, ReadLines(FileText(before + blank + added + behind)))
         == StripAll(before) + blank + Leftover(param, added) + StripAll(behind)
  {
    hide Inactive, ReadLines, FileText, StripAll, Physical;
    var out := before + blank + added + behind;
    ReadBackEntries(out);
    PhysicalConcat(before + blank + added, behind);
    PhysicalConcat(before + blank, added);
    PhysicalConcat(before, blank);
    PhysicalIdentity(before);
    PhysicalIdentity(behind);
    PhysicalIdentity(blank);
    StripAllConcat(before + blank + Physical(added), behind);
    StripAllConcat(before + blank, Physical(added));
    StripAllConcat(before, blank);
    StripBlank(blank);
    var a, c, b := StripAll(before), StripAll(Physical(added)), StripAll(behind);
    InactiveConcat(param, a + blank + c, b);
    InactiveConcat(param, a + blank, c);
    InactiveConcat(param, a, blank);
    StripKeepsAllInactive(param, before);
    StripKeepsAllInactive(param, behind);
    EmptyIsInactive(param);
    FilterUniform(param, a);
    FilterUniform(param, b);
    FilterUniform(param, blank);
  }

  lemma StripBlank(blank: seq<string>)
    requires blank == [] || blank == [""]
    ensures StripAll(blank) == blank
  {
    StripAllIdentity(blank);
  }

  lemma ParamLinesFollowValues(param: string, values: seq<string>)
    ensures ParamLines(param, values, {}) != [] <==> HasValue(values)
  {
    ParamLinesActive(param, values, {});
    var lines := ParamLines(param, values, {});
    if lines != [] {
      assert lines[0] in lines;
    }
  }

  /** Comparing two files is comparing their physical lines. */
  lemma SameFile(a: seq<string>, b: seq<string>)
    requires a != [] && b != []
    ensures FileText(a) == FileText(b) <==> Physical(a) == Physical(b)
  {
    FileTextTerminates(a);
    FileTextTerminates(b);
    TerminatedPhysical(a);
    TerminatedPhysical(b);
    if FileText(a) == FileText(b) {
      SameTextSameLines(Physical(a), Physical(b));
    }
  }

  /** Physical lines around an inserted block. */
  lemma PhysicalAround(a: seq<string>, added: seq<string>, b: seq<string>)
    requires OneLineEach(a) && OneLineEach(b)
    ensures Physical(a + added + b) == a + Physical(added) + b
  {
    PhysicalConcat(a + added, b);
    PhysicalConcat(a, added);
    PhysicalIdentity(a);
    PhysicalIdentity(b);
  }

  lemma AroundDiffers(a: seq<string>, b: seq<string>, c: seq<string>, d: seq<string>, middle: seq<string>)
    requires |a| == |c| && |b| == |d|
    ensures a + middle + b == c + middle + d <==> a == c && b == d
  {
    if a + middle + b == c + middle + d {
      assert a == (a + middle + b)[..|a|] && c == (c + middle + d)[..|c|];
      assert b == (a + middle + b)[|a + middle|..] && d == (c + middle + d)[|c + middle|..];
    }
  }

  lemma SameCutAtPlace(param: string, kept: seq<string>, before: seq<string>, behind: seq<string>, added: seq<string>)
    requires kept == before + behind && Place(param, kept).Some? && before == kept[..Place(param, kept).value]
    ensures var again := StripAll(before) + StripAll(behind);
            Insert(again, Place(param, again), added) == StripAll(before) + added + StripAll(behind)
  {
    PlaceStripped(param, kept);
    StripAllConcat(before, behind);
    hide StripAll, Place;
    var again, k := StripAll(before) + StripAll(behind), Place(param, kept).value;
    assert again == StripAll(kept);
    assert again[..k] == StripAll(before) && again[k..] == StripAll(behind);
  }

  lemma SameCutAtEnd(param: string, kept: seq<string>, blank: seq<string>, added: seq<string>)
    requires Place(param, kept).None? && blank == Separator(kept) && added != []
    ensures Insert(StripAll(kept) + blank, Place(param, StripAll(kept) + blank), added) == StripAll(kept) + blank + added
  {
    PlaceStripped(param, kept);
    SeparatorStripped(kept);
    hide StripAll, Place;
    BlankHasNoPlaceAgain(param, StripAll(kept), blank);
    assert StripAll(kept) + blank + [] + added == StripAll(kept) + blank + added;
  }

  /** With nothing left over, the second insertion happens at the place of the first one. */
  lemma SameCutAgain(param: string, kept: seq<string>, before: seq<string>, blank: seq<string>, behind: seq<string>,
                     added: seq<string>)
    requires kept == before + behind && added != []
    requires var place := Place(param, kept);
             if place.Some? then before == kept[..place.value] && blank == []
             else before == kept && behind == [] && blank == Separator(kept)
    ensures var again := StripAll(before) + blank + StripAll(behind);
            Insert(again, Place(param, again), added) == StripAll(before) + blank + added + StripAll(behind)
  {
    StripNothing();
    hide StripAll, Place, Insert, Separator;
    if Place(param, kept).Some? {
      SameCutAtPlace(param, kept, before, behind, added);
      assert StripAll(before) + [] == StripAll(before);
    } else {
      SameCutAtEnd(param, kept, blank, added);
      assert StripAll(before) + blank + [] == StripAll(before) + blank;
      assert StripAll(before) + blank + added + [] == StripAll(before) + blank + added;
    }
  }

  lemma StripNothing()
    ensures StripAll([]) == []
  {
  }

  lemma SeparatorStripped(lines: seq<string>)
    ensures Separator(lines) == [] ==> Separator(StripAll(lines)) == []
  {
  }

  lemma BlankHasNoPlaceAgain(param: string, lines: seq<string>, blank: seq<string>)
    requires Place(param, lines).None?
    requires blank == [""] || (blank == [] && Separator(lines) == [])
    ensures Place(param, lines + blank).None? && Separator(lines + blank) == []
  {
    if blank == [""] {
      OneMoreLine(param, lines, "");
    } else {
      assert lines + blank == lines;
    }
  }

  /** Line counts of a file with a block inserted. */
  lemma InsertedCount(lines: seq<string>, place: Option<nat>, added: seq<string>)
    requires OneLineEach(lines) && (place.Some? ==> place.value <= |lines|)
    ensures |Physical(Insert(lines, place, added))| >= |lines| + |Physical(added)|
  {
    var a, m, b := InsertParts(lines, place, added);
    assert OneLineEach(a) && OneLineEach(b) by {
      assert forall l :: l in a ==> l in lines;
      assert forall l :: l in b ==> l in lines;
    }
    PhysicalAround(a + m, added, b);
  }

  /** Lines added here leave no blank line behind when they are removed again. */
  predicate EndsAtPlace(param: string, kept: seq<string>) {
    Place(param, kept).Some? || Separator(kept) == []
  }

  /** Nothing is left, or an empty file is left one empty line. */
  predicate NoLineLeft(kept: seq<string>, left: seq<string>) {
    left == [] || (kept == [] && left == [""])
  }

  /**
   When a second replacement erases the first one. No other line may end in a CR, as it would lose one
   more CR at every write. A set behind a set: every physical line of the first values must set the
   parameter. A removal behind a set: the first write must not have appended a separating blank line, and
   must leave no line but, in an otherwise empty file, one empty line. A set behind a removal: some other
   line must be there, as an emptied file reads back as one empty line.
   */
  predicate Absorbs(param: string, kept: seq<string>, first: seq<string>, second: seq<string>) {
    var left := Leftover(param, ParamLines(param, first, {}));
    && NoneEndsCR(kept)
    && if HasValue(first) then
         if HasValue(second) then left == []
         else EndsAtPlace(param, kept) && NoLineLeft(kept, left)
       else HasValue(second) ==> kept != []
  }

  /** Main result: a second replacement erases the first one, byte for byte, exactly under that condition. */
  lemma ReplaceAbsorbs(content: string, param: string, first: seq<string>, second: seq<string>)
    ensures RewriteFile(RewriteFile(content, param, first, false), param, second, false)
              == RewriteFile(content, param, second, false)
       <==> Absorbs(param, Inactive(param, ReadLines(content)), first, second)
  {
    var kept := Inactive(param, ReadLines(content));
    var p1, p2 := ParamLines(param, first, {}), ParamLines(param, second, {});
    hide *;
    ParamLinesFollowValues(param, first);
    ParamLinesFollowValues(param, second);
    RewriteReplaces(content, param, first);
    RewriteReplaces(content, param, second);
    RewriteReplaces(RewriteFile(content, param, first, false), param, second);
    AbsorbsIs(param, kept, first, second);
    if p1 != [] {
      if p2 != [] {
        ReplaceTwice(param, kept, p1, p2);
      } else {
        RemoveAfterSet(param, kept, p1);
        InsertNothing(kept, Place(param, kept));
        InsertNothingAnywhere(param, Inactive(param, ReadLines(FileText(Insert(kept, Place(param, kept), p1)))));
      }
    } else {
      InsertNothing(kept, Place(param, kept));
      if p2 != [] {
        SetAfterRemove(param, kept, p2);
      } else {
        RemoveTwice(param, kept);
        InsertNothingAnywhere(param, Inactive(param, ReadLines(FileText(kept))));
      }
    }
  }

  lemma AbsorbsIs(param: string, kept: seq<string>, first: seq<string>, second: seq<string>)
    ensures var left := Leftover(param, ParamLines(param, first, {}));
            Absorbs(param, kept, first, second) <==>
            && NoneEndsCR(kept)
            && (HasValue(first) && HasValue(second) ==> left == [])
            && (HasValue(first) && !HasValue(second) ==> EndsAtPlace(param, kept) && NoLineLeft(kept, left))
            && (!HasValue(first) && HasValue(second) ==> kept != [])
  {
  }

  lemma InsertNothingAnywhere(param: string, lines: seq<string>)
    ensures Insert(lines, Place(param, lines), []) == lines
  {
    InsertNothing(lines, Place(param, lines));
  }

  /** The cut of the first write, read back. */
  lemma RemoveAfterSet(param: string, kept: seq<string>, p1: seq<string>)
    requires OneLineEach(kept) && NoneActive(param, kept) && p1 != []
    ensures var again := Inactive(param, ReadLines(FileText(Insert(kept, Place(param, kept), p1))));
            FileText(again) == FileText(kept)
            <==> NoneEndsCR(kept) && EndsAtPlace(param, kept) && NoLineLeft(kept, Leftover(param, p1))
  {
    hide ReadLines, FileText, Inactive, Place, Physical, Leftover, Insert, StripAll;
    var left := Leftover(param, p1);
    var a, m, b := InsertParts(kept, Place(param, kept), p1);
    PartsAreKept(param, kept, a, b);
    SecondScan(param, a, m, p1, b);
    AgainIsOneLine(param, a, m, p1, b);
    var again := StripAll(a) + m + left + StripAll(b);
    if kept == [] {
      NothingKept(again, left, m);
    } else {
      SameLines(again, kept);
      Shortest(a, m, left, b);
    }
  }

  lemma SameLines(a: seq<string>, b: seq<string>)
    requires a != [] && b != [] && OneLineEach(a) && OneLineEach(b)
    ensures FileText(a) == FileText(b) <==> a == b
  {
    hide FileText, Physical;
    SameFile(a, b);
    PhysicalIdentity(a);
    PhysicalIdentity(b);
  }

  lemma NothingKept(again: seq<string>, left: seq<string>, m: seq<string>)
    requires again == StripAll([]) + m + left + StripAll([]) && OneLineEach(again) && m == []
    ensures FileText(again) == FileText([]) <==> NoLineLeft([], left)
  {
    assert again == left;
    FileTextTerminates([]);
    FileTextTerminates([""]);
    if left != [] {
      hide FileText, Terminated;
      SameLines(left, [""]);
    }
  }

  /** Nothing may be added between the two parts, and stripping them must change nothing. */
  lemma Shortest(a: seq<string>, m: seq<string>, left: seq<string>, b: seq<string>)
    ensures StripAll(a) + m + left + StripAll(b) == a + b <==> NoneEndsCR(a + b) && m == [] && left == []
  {
    StripAllConcat(a, b);
    StripAllIdentity(a + b);
    var again := StripAll(a) + m + left + StripAll(b);
    assert |again| == |a + b| + |m| + |left|;
    if m == [] && left == [] { assert again == StripAll(a + b); }
  }

  lemma SetAfterRemove(param: string, kept: seq<string>, p2: seq<string>)
    requires OneLineEach(kept) && NoneActive(param, kept) && p2 != []
    ensures var again := Inactive(param, ReadLines(FileText(kept)));
            FileText(Insert(again, Place(param, again), p2)) == FileText(Insert(kept, Place(param, kept), p2))
            <==> NoneEndsCR(kept) && kept != []
  {
    hide ReadLines, FileText, Inactive, Place, Physical, Insert, StripAll, Separator;
    var again := Inactive(param, ReadLines(FileText(kept)));
    ReadBack(kept);
    if kept == [] {
      EmptyIsInactive(param);
      FilterUniform(param, [""]);
      EmptiedGrows(param, p2);
    } else {
      StripKeepsAllInactive(param, kept);
      FilterUniform(param, StripAll(kept));
      PlaceStripped(param, kept);
      StripStaysOneLine(kept);
      StrippedInsert(param, kept, p2);
    }
  }

  lemma EmptiedGrows(param: string, p2: seq<string>)
    requires p2 != []
    ensures FileText(Insert([""], Place(param, [""]), p2)) != FileText(Insert([], Place(param, []), p2))
  {
    assert Place(param, [""]) == None && Place(param, []) == None by {
      OneMoreLine(param, [], "");
      assert [] + [""] == [""];
    }
    assert Insert([""], None, p2) == [""] + p2 && Insert([], None, p2) == p2 by {
      assert [""] + [] + p2 == [""] + p2 && [] + [] + p2 == p2;
    }
    hide FileText, Physical;
    SameFile([""] + p2, p2);
    PhysicalConcat([""], p2);
    PhysicalIdentity([""]);
  }

  lemma StrippedInsert(param: string, kept: seq<string>, p2: seq<string>)
    requires OneLineEach(kept) && OneLineEach(StripAll(kept)) && p2 != []
    requires Place(param, StripAll(kept)) == Place(param, kept)
    ensures FileText(Insert(StripAll(kept), Place(param, kept), p2)) == FileText(Insert(kept, Place(param, kept), p2))
       <==> NoneEndsCR(kept)
  {
    hide FileText, Place, Physical, Insert, StripAll;
    var again, place := StripAll(kept), Place(param, kept);
    var a, m, b := InsertParts(kept, place, p2);
    var a', m', b' := InsertParts(again, place, p2);
    PartsAreLines(kept, a, b);
    PartsAreLines(again, a', b');
    PhysicalAround(a + m, p2, b);
    PhysicalAround(a' + m', p2, b');
    SameFile(Insert(again, place, p2), Insert(kept, place, p2));
    StripAllIdentity(kept);
    SameParts(a, m, b, a', m', b', Physical(p2));
  }

  lemma PartsAreLines(lines: seq<string>, a: seq<string>, b: seq<string>)
    requires lines == a + b && OneLineEach(lines)
    ensures OneLineEach(a) && OneLineEach(b)
  {
    assert forall l :: l in a ==> l in lines;
    assert forall l :: l in b ==> l in lines;
  }

  lemma SameParts(a: seq<string>, m: seq<string>, b: seq<string>, a': seq<string>, m': seq<string>, b': seq<string>, p: seq<string>)
    requires |a| == |a'| && |b| == |b'|
    requires a + b == a' + b' ==> m == m'
    ensures a + m + p + b == a' + m' + p + b' <==> a + b == a' + b'
  {
    var once, twice := a + m + p + b, a' + m' + p + b';
    if once == twice {
      assert a == once[..|a|] && a' == twice[..|a'|];
      assert b == once[|once| - |b|..] && b' == twice[|twice| - |b'|..];
    }
    if a + b == a' + b' {
      assert a == (a + b)[..|a|] && a' == (a' + b')[..|a'|];
      assert b == (a + b)[|a|..] && b' == (a' + b')[|a'|..];
    }
  }

  lemma RewriteReplaces(content: string, param: string, values: seq<string>)
    ensures var kept := Inactive(param, ReadLines(content));
            && RewriteFile(content, param, values, false)
                 == FileText(Insert(kept, Place(param, kept), ParamLines(param, values, {})))
            && OneLineEach(kept) && NoneActive(param, kept)
            && (Place(param, kept).Some? ==> Place(param, kept).value <= |kept|)
  {
  }

  lemma ReplaceTwice(param: string, kept: seq<string>, p1: seq<string>, p2: seq<string>)
    requires OneLineEach(kept) && NoneActive(param, kept) && p1 != [] && p2 != []
    ensures var once := FileText(Insert(kept, Place(param, kept), p1));
            var again := Inactive(param, ReadLines(once));
            FileText(Insert(again, Place(param, again), p2)) == FileText(Insert(kept, Place(param, kept), p2))
            <==> NoneEndsCR(kept) && Leftover(param, p1) == []
  {
    hide ReadLines, FileText, Inactive, Place, Physical, Leftover, Insert, StripAll;
    var place := Place(param, kept);
    var a, m, b := InsertParts(kept, place, p1);
    var a', m', b' := InsertParts(kept, place, p2);
    assert a == a' && m == m' && b == b';
    PartsAreKept(param, kept, a, b);
    SecondScan(param, a, m, p1, b);
    if Leftover(param, p1) == [] {
      var again := StripAll(a) + m + StripAll(b);
      assert StripAll(a) + m + [] + StripAll(b) == again;
      SameCutAgain(param, kept, a, m, b, p2);
      NothingLeftBetween(a, m, b, p2);
    } else {
      var again := StripAll(a) + m + Leftover(param, p1) + StripAll(b);
      AgainIsOneLine(param, a, m, p1, b);
      LinesLeftBetween(param, a, m, Leftover(param, p1), b, p2);
      assert again != [];
    }
  }

  /** With nothing left over, both writes put the lines between the same parts. */
  lemma NothingLeftBetween(a: seq<string>, m: seq<string>, b: seq<string>, p2: seq<string>)
    requires OneLineEach(a) && OneLineEach(m) && OneLineEach(b) && p2 != []
    ensures FileText(StripAll(a) + m + p2 + StripAll(b)) == FileText(a + m + p2 + b) <==> NoneEndsCR(a + b)
  {
    hide FileText, Physical, StripAll;
    SameFile(StripAll(a) + m + p2 + StripAll(b), a + m + p2 + b);
    PhysicalAround(a + m, p2, b);
    StrippedAround(a, m, b, p2);
  }

  /** A line left over makes the file longer. */
  lemma LinesLeftBetween(param: string, a: seq<string>, m: seq<string>, left: seq<string>, b: seq<string>, p2: seq<string>)
    requires OneLineEach(a) && OneLineEach(m) && OneLineEach(b) && p2 != [] && left != []
    requires OneLineEach(StripAll(a) + m + left + StripAll(b))
    ensures var again := StripAll(a) + m + left + StripAll(b);
            FileText(Insert(again, Place(param, again), p2)) != FileText(a + m + p2 + b)
  {
    hide FileText, Physical, StripAll, Place, Insert;
    var again := StripAll(a) + m + left + StripAll(b);
    InsertedCount(again, Place(param, again), p2);
    PhysicalAround(a + m, p2, b);
    var x, y, z := InsertParts(again, Place(param, again), p2);
    SameFile(Insert(again, Place(param, again), p2), a + m + p2 + b);
  }

  lemma StrippedAround(a: seq<string>, m: seq<string>, b: seq<string>, p2: seq<string>)
    requires OneLineEach(a) && OneLineEach(m) && OneLineEach(b)
    ensures Physical(StripAll(a) + m + p2 + StripAll(b)) == a + m + Physical(p2) + b <==> NoneEndsCR(a + b)
  {
    hide Physical, StripAll;
    StripStaysOneLine(a);
    StripStaysOneLine(b);
    PhysicalAround(StripAll(a) + m, p2, StripAll(b));
    AroundDiffers(StripAll(a) + m, StripAll(b), a + m, b, Physical(p2));
    ConcatCancels(StripAll(a), a, m);
    StripAllIdentity(a);
    StripAllIdentity(b);
    NoneEndsCRConcat(a, b);
  }

  lemma PartsAreKept(param: string, kept: seq<string>, a: seq<string>, b: seq<string>)
    requires kept == a + b && OneLineEach(kept) && NoneActive(param, kept)
    ensures OneLineEach(a) && OneLineEach(b) && NoneActive(param, a) && NoneActive(param, b)
  {
    assert forall l :: l in a ==> l in kept;
    assert forall l :: l in b ==> l in kept;
  }

  lemma StripStaysOneLine(lines: seq<string>)
    requires OneLineEach(lines)
    ensures OneLineEach(StripAll(lines))
  {
    forall l | l in StripAll(lines) ensures '\n' !in l {
      var i :| 0 <= i < |lines| && StripCR(lines[i]) == l;
      assert lines[i] in lines;
    }
  }

  lemma AgainIsOneLine(param: string, a: seq<string>, m: seq<string>, p1: seq<string>, b: seq<string>)
    requires OneLineEach(a) && OneLineEach(b) && OneLineEach(m)
    ensures OneLineEach(StripAll(a) + m + Leftover(param, p1) + StripAll(b))
  {
    StripStaysOneLine(a);
    StripStaysOneLine(b);
    StripStaysOneLine(Physical(p1));
  }

  lemma ConcatCancels(a: seq<string>, b: seq<string>, m: seq<string>)
    requires |a| == |b|
    ensures a + m == b + m <==> a == b
  {
    if a + m == b + m {
      assert a == (a + m)[..|a|] && b == (b + m)[..|b|];
    }
  }

  lemma NoneEndsCRConcat(a: seq<string>, b: seq<string>)
    ensures NoneEndsCR(a + b) <==> NoneEndsCR(a) && NoneEndsCR(b)
  {
    assert forall l :: l in a + b <==> l in a || l in b;
  }

  // ---- merging twice ----

  /** A value that is one line of a file and comes back from it unchanged. */
  predicate LineSafe(value: string) {
    '\n' !in value && !EndsCR(value)
  }

  lemma InsertNothing(lines: seq<string>, place: Option<nat>)
    requires place.Some? ==> place.value <= |lines|
    ensures Insert(lines, place, []) == lines
  {
  }

  lemma InsertedMembers(lines: seq<string>, place: Option<nat>, added: seq<string>)
    requires place.Some? ==> place.value <= |lines|
    ensures var out := Insert(lines, place, added);
            && (forall l :: l in lines || l in added ==> l in out)
            && (forall l :: l in out ==> l in lines || l in added || l == "")
            && (lines != [] ==> out != [])
  {
    var a, m, b := InsertParts(lines, place, added);
    assert forall l :: l in a + m + added + b <==> l in a || l in m || l in added || l in b;
    assert forall l :: l in lines <==> l in a || l in b;
  }

  /** Nothing is added exactly when every value is already there. */
  lemma NothingToAdd(param: string, values: seq<string>, lines: seq<string>)
    ensures ParamLines(param, values, ActiveValues(param, lines)) == []
       <==> forall v :: v in values && v != "" ==> param + "=" + v in lines
  {
    var existing := ActiveValues(param, lines);
    var added := ParamLines(param, values, existing);
    ParamLinesActive(param, values, existing);
    forall v ensures v in existing <==> param + "=" + v in lines {
      ValueIsThere(param, v, lines);
    }
    if added != [] {
      assert added[0] in added;
    }
  }

  lemma ValueIsThere(param: string, v: string, lines: seq<string>)
    ensures v in ActiveValues(param, lines) <==> param + "=" + v in lines
  {
    var line := param + "=" + v;
    assert line[|param| + 1..] == v && param + "=" <= line;
    if v in ActiveValues(param, lines) {
      var l :| l in lines && Active(param, l) && l[|param| + 1..] == v;
      assert l == l[..|param| + 1] + v && l[..|param| + 1] == param + "=";
    }
  }

  lemma ParamLineSafety(param: string, v: string)
    requires '\n' !in param
    ensures EndsCR(param + "=" + v) <==> EndsCR(v)
    ensures '\n' in param + "=" + v <==> '\n' in v
  {
    var line := param + "=" + v;
    assert forall c :: c in line <==> c in param || c == '=' || c in v;
    assert v != "" ==> line[|line| - 1] == v[|v| - 1];
  }

  /**
   Main result: merging the same values twice is merging them once, byte for byte, exactly when no
   line of the file and no value ends in a CR and no value contains a newline.
   */
  lemma MergeIsIdempotent(content: string, param: string, values: seq<string>)
    requires '\n' !in param
    ensures RewriteFile(RewriteFile(content, param, values, true), param, values, true)
              == RewriteFile(content, param, values, true)
       <==> && NoneEndsCR(ReadLines(content))
            && forall v :: v in values && v != "" ==> LineSafe(v)
  {
    hide *;
    var lines := ReadLines(content);
    RewriteMerges(content, param, values);
    RewriteMerges(RewriteFile(content, param, values, true), param, values);
    MergeTwice(param, lines, values);
  }

  function Merged(param: string, lines: seq<string>, values: seq<string>): seq<string> {
    Insert(lines, Place(param, lines), ParamLines(param, values, ActiveValues(param, lines)))
  }

  lemma RewriteMerges(content: string, param: string, values: seq<string>)
    ensures RewriteFile(content, param, values, true) == FileText(Merged(param, ReadLines(content), values))
    ensures OneLineEach(ReadLines(content)) && ReadLines(content) != []
  {
  }

  lemma MergeTwice(param: string, lines: seq<string>, values: seq<string>)
    requires '\n' !in param && OneLineEach(lines) && lines != []
    ensures var once := FileText(Merged(param, lines, values));
            FileText(Merged(param, ReadLines(once), values)) == once
            <==> NoneEndsCR(lines) && forall v :: v in values && v != "" ==> LineSafe(v)
  {
    hide ReadLines, FileText, Place, Physical, Insert, StripAll, ActiveValues, ParamLines, LineSafe;
    var out := Merged(param, lines, values);
    var added := ParamLines(param, values, ActiveValues(param, lines));
    InsertedMembers(lines, Place(param, lines), added);
    ReadBackEntries(out);
    var again := ReadLines(FileText(out));
    var more := ParamLines(param, values, ActiveValues(param, again));
    NothingToAdd(param, values, again);
    InsertedMembers(again, Place(param, again), more);
    SameFile(Merged(param, again, values), out);
    InsertNothing(again, Place(param, again));
    if FileText(Merged(param, again, values)) == FileText(out) {
      InsertedCount(again, Place(param, again), more);
      assert more == [];
      PhysicalIdentity(again);
      StripAllIdentity(Physical(out));
      MergedIsStable(param, lines, values, again);
    } else if NoneEndsCR(lines) && forall v :: v in values && v != "" ==> LineSafe(v) {
      SafeMergeIsStable(param, lines, values);
    }
  }

  lemma MergedLine(param: string, lines: seq<string>, values: seq<string>, l: string)
    requires '\n' !in param && OneLineEach(lines) && l in Merged(param, lines, values)
    ensures l in lines || l == "" || exists v :: v in values && v != "" && l == param + "=" + v
  {
    var existing := ActiveValues(param, lines);
    InsertedMembers(lines, Place(param, lines), ParamLines(param, values, existing));
    ParamLinesActive(param, values, existing);
  }

  /** Every non-empty value has its line after merging. */
  lemma MergedHasValues(param: string, lines: seq<string>, values: seq<string>)
    ensures forall v :: v in values && v != "" ==> param + "=" + v in Merged(param, lines, values)
    ensures forall l :: l in lines ==> l in Merged(param, lines, values)
  {
    var existing := ActiveValues(param, lines);
    InsertedMembers(lines, Place(param, lines), ParamLines(param, values, existing));
    ParamLinesActive(param, values, existing);
    forall v | v in values && v != "" ensures param + "=" + v in Merged(param, lines, values) {
      ValueIsThere(param, v, lines);
    }
  }

  lemma MergedIsStable(param: string, lines: seq<string>, values: seq<string>, again: seq<string>)
    requires '\n' !in param && OneLineEach(lines) && OneLineEach(again)
    requires var out := Merged(param, lines, values);
             again == Physical(out) && NoneEndsCR(again)
    requires forall v :: v in values && v != "" ==> param + "=" + v in again
    ensures NoneEndsCR(lines) && forall v :: v in values && v != "" ==> LineSafe(v)
  {
    hide Merged, Physical, ActiveValues;
    var out := Merged(param, lines, values);
    forall v | v in values && v != "" ensures '\n' !in v && !EndsCR(v) {
      ParamLineSafety(param, v);
    }
    forall l | l in out ensures '\n' !in l {
      MergedLine(param, lines, values, l);
      if l !in lines && l != "" {
        var v :| v in values && v != "" && l == param + "=" + v;
        ParamLineSafety(param, v);
      }
    }
    PhysicalIdentity(out);
    MergedHasValues(param, lines, values);
  }

  lemma SafeMergeIsStable(param: string, lines: seq<string>, values: seq<string>)
    requires '\n' !in param && OneLineEach(lines) && NoneEndsCR(lines) && lines != []
    requires forall v :: v in values && v != "" ==> LineSafe(v)
    ensures var out := Merged(param, lines, values);
            ReadLines(FileText(out)) == out && Merged(param, out, values) == out
  {
    hide Merged, Physical, ActiveValues, ReadLines, FileText, StripAll;
    var out := Merged(param, lines, values);
    forall l | l in out ensures '\n' !in l && !EndsCR(l) {
      MergedLine(param, lines, values, l);
      if l !in lines && l != "" {
        var v :| v in values && v != "" && l == param + "=" + v;
        ParamLineSafety(param, v);
      }
    }
    MergedHasValues(param, lines, values);
    ReadBack(out);
    StripAllIdentity(out);
    assert lines[0] in out;
    MergeNothing(param, out, values);
  }

  lemma MergeNothing(param: string, lines: seq<string>, values: seq<string>)
    requires lines != [] && forall v :: v in values && v != "" ==> param + "=" + v in lines
    ensures Merged(param, lines, values) == lines
  {
    NothingToAdd(param, values, lines);
    InsertNothing(lines, Place(param, lines));
  }

  // ---- removing, and the two traps ----

  lemma RemoveTwice(param: string, kept: seq<string>)
    requires OneLineEach(kept) && NoneActive(param, kept)
    ensures FileText(Inactive(param, ReadLines(FileText(kept)))) == FileText(kept) <==> NoneEndsCR(kept)
  {
    hide ReadLines, FileText, Inactive, Place, StripAll, Terminated;
    var again := ReadLines(FileText(kept));
    ReadBack(kept);
    FileTextTerminates(kept);
    EmptyIsInactive(param);
    if kept == [] {
      FilterUniform(param, [""]);
      FileTextTerminates([""]);
    } else {
      StripKeepsAllInactive(param, kept);
      FilterUniform(param, again);
      StripAllIdentity(kept);
      StripStaysOneLine(kept);
      assert |again| == |kept|;
      FileTextTerminates(again);
      if FileText(again) == FileText(kept) {
        SameTextSameLines(again, kept);
      }
    }
  }

  /** Removing twice is the case of two empty lists. */
  lemma RemoveIsIdempotent(content: string, param: string)
    ensures RewriteFile(RewriteFile(content, param, [], false), param, [], false) == RewriteFile(content, param, [], false)
       <==> NoneEndsCR(Inactive(param, ReadLines(content)))
  {
    ReplaceAbsorbs(content, param, [], []);
  }

  /** `MergeParameterValues` twice with one argument, exactly. */
  lemma MergeParameterIsIdempotent(content: string, param: string, rawValue: string)
    requires '\n' !in param
    ensures MergeFile(MergeFile(content, param, rawValue), param, rawValue) == MergeFile(content, param, rawValue)
       <==> match MergeItems(rawValue)
            case None => NoneEndsCR(Inactive(param, ReadLines(content)))
            case Some(items) => && NoneEndsCR(ReadLines(content))
                                && forall v :: v in items && v != "" ==> LineSafe(v)
  {
    hide RewriteFile, ReadLines, MergeItems;
    match MergeItems(rawValue)
    case None => RemoveIsIdempotent(content, param);
    case Some(items) => MergeIsIdempotent(content, param, items);
  }

  lemma OneLineFile(line: string)
    requires '\n' !in line && '\r' !in line
    ensures ReadLines(line + "\n") == [line]
  {
    NormalizeLine(line, "");
    assert line + "\n" + "" == line + "\n" && StripCR(line) == line;
    assert TrimNewline(line + "\n") == line;
    SplitOnePart(line, '\n');
  }

  lemma OneInactiveLine(param: string, line: string)
    requires !Active(param, line)
    ensures Inactive(param, [line]) == [line]
    ensures !Commented(param, line) ==> Place(param, [line]) == None
  {
    assert [] + [line] == [line];
    NoLines(param);
    OneMoreLine(param, [], line);
  }

  lemma LeftoverCRLine()
    ensures ReadLines("a\r\r\n") == ["a\r"] && EndsCR("a\r") && !Active("P", "a\r")
  {
    assert "a\r\r" + "\n" + "" == "a\r\r\n" && StripCR("a\r\r") == "a\r";
    NormalizeLine("a\r\r", "");
    assert TrimNewline("a\r\n") == "a\r";
    SplitOnePart("a\r", '\n');
  }

  lemma CRIsNotAbsorbed(param: string, kept: seq<string>, first: seq<string>, second: seq<string>, line: string)
    requires kept == [line] && EndsCR(line)
    ensures !Absorbs(param, kept, first, second)
  {
    assert kept[0] in kept;
  }

  /** A line that keeps a CR after normalisation loses another one at the next write. */
  lemma LeftoverCRShows(first: seq<string>, second: seq<string>)
    ensures var content := "a\r\r\n";
            RewriteFile(RewriteFile(content, "P", first, false), "P", second, false) != RewriteFile(content, "P", second, false)
  {
    hide *;
    LeftoverCRLine();
    OneInactiveLine("P", "a\r");
    CRIsNotAbsorbed("P", ["a\r"], first, second, "a\r");
    ReplaceAbsorbs("a\r\r\n", "P", first, second);
  }

  lemma OneValueLines(param: string, value: string)
    requires value != ""
    ensures ParamLines(param, [value], {}) == [param + "=" + value] && HasValue([value])
  {
    assert value in [value] && [value][..0] == [];
  }

  /** A value with a newline leaves a line behind that no later write removes. */
  lemma NewlineValueShows(content: string)
    ensures RewriteFile(RewriteFile(content, "P", ["1\n2"], false), "P", ["3"], false) != RewriteFile(content, "P", ["3"], false)
  {
    OneValueLines("P", "1\n2");
    OneValueLines("P", "3");
    assert "P" + "=" + "1\n2" == "P=1" + "\n" + "2";
    SplitFirstPart("P=1", '\n', "2");
    SplitOnePart("2", '\n');
    var entry := "P=1" + "\n" + "2";
    PhysicalOne(entry, "2");
    assert !Active("P", "2");
    LeftoverEmpty("P", [entry]);
    hide RewriteFile, Inactive, Leftover, HasValue, Physical, ParamLines;
    ReplaceAbsorbs(content, "P", ["1\n2"], ["3"]);
  }

  lemma PhysicalOne(entry: string, line: string)
    requires line in SplitOn(entry, '\n')
    ensures line in Physical([entry])
  {
    assert [entry][1..] == [];
  }

  lemma SeparatorIsNotAbsorbed(param: string, kept: seq<string>, first: seq<string>, second: seq<string>)
    requires Place(param, kept).None? && kept != [] && kept[|kept| - 1] != ""
    requires HasValue(first) && !HasValue(second)
    ensures !Absorbs(param, kept, first, second)
  {
  }

  /** The blank line that separates an appended parameter stays when the parameter is removed. */
  lemma SeparatorShows(content: string, line: string, param: string, values: seq<string>)
    requires content == line + "\n" && line != "" && '\n' !in line && '\r' !in line
    requires !Active(param, line) && !Commented(param, line) && HasValue(values)
    ensures RewriteFile(RewriteFile(content, param, values, false), param, [], false) != RewriteFile(content, param, [], false)
  {
    hide *;
    OneLineFile(line);
    OneInactiveLine(param, line);
    assert !HasValue([]) by { NoValues(); }
    SeparatorIsNotAbsorbed(param, [line], values, []);
    ReplaceAbsorbs(content, param, values, []);
  }

  lemma SeparatorShowsOnce()
    ensures RewriteFile(RewriteFile("a\n", "P", ["1"], false), "P", [], false) != RewriteFile("a\n", "P", [], false)
  {
    OneValueLines("P", "1");
    assert "a" + "\n" == "a\n" && !Active("P", "a") && !Commented("P", "a");
    hide *;
    SeparatorShows("a\n", "a", "P", ["1"]);
  }

  lemma NoValues()
    ensures !HasValue([])
  {
  }

  /** An emptied file reads back as one empty line. */
  lemma EmptiedFileShows()
    ensures RewriteFile(RewriteFile("P=1\n", "P", [], false), "P", ["2"], false) != RewriteFile("P=1\n", "P", ["2"], false)
  {
    OneValueLines("P", "2");
    assert "P=1" + "\n" == "P=1\n" && "P" + "=" == "P=";
    OneLineFile("P=1");
    assert Inactive("P", ["P=1"]) == [] by { FilterUniform("P", ["P=1"]); }
    hide RewriteFile, Inactive, Leftover, ReadLines, Place;
    ReplaceAbsorbs("P=1\n", "P", [], ["2"]);
  }
}
