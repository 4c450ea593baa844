/** What goes into a rewrite and where it lands: line ends, value lists, and the place of new lines. */
module ParameterForms {
  import opened Text
  import opened ConfigLines
  import opened Parameters
  import opened ParameterLaws

  // ---- reading a file with either kind of line end ----

  /** Lines that end with LF, or with CRLF where `crlf` says so. */
  function Ended(lines: seq<string>, crlf: seq<bool>): string
    requires |crlf| == |lines|
  {
    if lines == [] then "" else lines[0] + (if crlf[0] then "\r\n" else "\n") + Ended(lines[1..], crlf[1..])
  }

  predicate CleanLine(line: string) {
    '\n' !in line && !EndsCR(line)
  }

  lemma {:induction false} NormalizeLast(last: string)
    requires '\n' !in last
    ensures Normalize(last) == last
    decreases |last|
  {
    if last != "" {
      assert "\r\n"[1] == '\n' && (|last| > 1 ==> last[1] in last);
      NormalizeLast(last[1..]);
      assert last == [last[0]] + last[1..];
    }
  }

  lemma {:induction false} NormalizeEnded(lines: seq<string>, crlf: seq<bool>, last: string)
    requires |crlf| == |lines| && (forall l :: l in lines ==> CleanLine(l)) && '\n' !in last
    ensures Normalize(Ended(lines, crlf) + last) == Terminated(lines) + last
    decreases |lines|
  {
    hide Normalize;
    if lines == [] {
      NormalizeLast(last);
      assert Ended(lines, crlf) + last == last && Terminated(lines) + last == last;
    } else {
      var line, rest := lines[0], Ended(lines[1..], crlf[1..]) + last;
      assert line in lines && forall l :: l in lines[1..] ==> l in lines;
      NormalizeEnded(lines[1..], crlf[1..], last);
      FirstEnded(line, crlf[0], rest);
      hide Normalize, CleanLine, StripCR;
      Regroup(line, if crlf[0] then "\r\n" else "\n", Ended(lines[1..], crlf[1..]), last);
      Regroup(line, "\n", Terminated(lines[1..]), last);
    }
  }

  lemma Regroup(a: string, b: string, c: string, d: string)
    ensures a + b + c + d == a + b + (c + d)
  {
  }

  lemma FirstEnded(line: string, crlf: bool, rest: string)
    requires CleanLine(line)
    ensures Normalize(line + (if crlf then "\r\n" else "\n") + rest) == line + "\n" + Normalize(rest)
  {
    OneCRIsStripped(line);
    if crlf {
      NormalizeLine(line + "\r", rest);
      assert line + "\r\n" + rest == line + "\r" + "\n" + rest;
    } else {
      NormalizeLine(line, rest);
    }
  }

  lemma OneCRIsStripped(line: string)
    requires CleanLine(line)
    ensures StripCR(line + "\r") == line && StripCR(line) == line && '\n' !in line + "\r"
  {
    assert forall c :: c in line + "\r" <==> c in line || c == '\r';
  }

  /** Main result: lines are read back whatever their line ends; a last line without one counts when it is not empty. */
  lemma ReadsAnyLineEnds(lines: seq<string>, crlf: seq<bool>, last: string)
    requires |crlf| == |lines| && (forall l :: l in lines ==> CleanLine(l)) && '\n' !in last
    ensures ReadLines(Ended(lines, crlf) + last) == if last == "" && lines != [] then lines else lines + [last]
  {
    NormalizeEnded(lines, crlf, last);
    var text := Terminated(lines) + last;
    if last == "" && lines != [] {
      FileTextTerminates(lines);
      TrimFileText(lines);
      SplitJoin(lines, '\n');
      assert text == FileText(lines);
    } else {
      assert forall l :: l in lines + [last] ==> '\n' !in l;
      LastIsJoined(lines, last);
      SplitJoin(lines + [last], '\n');
      assert TrimNewline(text) == text;
    }
  }

  lemma {:induction false} LastIsJoined(lines: seq<string>, last: string)
    ensures Terminated(lines) + last == JoinWith(lines + [last], '\n')
    decreases |lines|
  {
    if lines == [] {
      assert lines + [last] == [last] && Terminated(lines) + last == last;
    } else {
      LastIsJoined(lines[1..], last);
      assert (lines + [last])[1..] == lines[1..] + [last];
      assert Terminated(lines) + last == lines[0] + "\n" + (Terminated(lines[1..]) + last);
    }
  }

  // ---- value lists ----

  /** Quotation marks only. */
  predicate Quotes(s: string) {
    forall i :: 0 <= i < |s| ==> s[i] == '"'
  }

  /** A text that no trimming touches. */
  predicate Core(s: string) {
    s != "" ==> s[0] != '"' && s[|s| - 1] != '"'
  }

  lemma {:induction false} QuotesLeft(quotes: string, s: string)
    requires Quotes(quotes) && (s != "" ==> s[0] != '"')
    ensures TrimQuotesLeft(quotes + s) == s
    decreases |quotes|
  {
    if quotes == "" {
      assert quotes + s == s;
    } else {
      assert (quotes + s)[0] == '"' && (quotes + s)[1..] == quotes[1..] + s;
      QuotesLeft(quotes[1..], s);
    }
  }

  lemma {:induction false} QuotesRight(s: string, quotes: string)
    requires Quotes(quotes) && (s != "" ==> s[|s| - 1] != '"')
    ensures TrimQuotesRight(s + quotes) == s
    decreases |quotes|
  {
    var all := s + quotes;
    if quotes == "" {
      assert all == s;
    } else {
      assert all[|all| - 1] == '"' && all[..|all| - 1] == s + quotes[..|quotes| - 1];
      QuotesRight(s, quotes[..|quotes| - 1]);
    }
  }

  /**
   Main result: white space and then quotation marks around a value list do not count; an empty rest asks
   for removal, and any other is cut at its commas, white space and quotation marks inside it untouched.
   */
  lemma MergeItemsAre(lead: string, open: string, items: seq<string>, close: string, tail: string)
    requires Blank(lead) && Blank(tail) && Quotes(open) && Quotes(close) && items != []
    requires forall item :: item in items ==> ',' !in item
    requires Core(JoinWith(items, ',')) && Trimmed(open + JoinWith(items, ',') + close)
    ensures MergeItems(lead + open + JoinWith(items, ',') + close + tail)
         == if JoinWith(items, ',') == "" then None else Some(items)
  {
    var core := JoinWith(items, ',');
    assert lead + open + core + close + tail == lead + (open + core + close) + tail;
    TrimUnique(lead, open + core + close, tail);
    if core == "" {
      assert open + core + close == open + close;
      OnlyQuotes(open + close);
    } else {
      assert open + core + close == open + (core + close);
      QuotesLeft(open, core + close);
      QuotesRight(core, close);
      SplitJoin(items, ',');
    }
  }

  lemma OnlyQuotes(quotes: string)
    requires Quotes(quotes)
    ensures TrimQuotesRight(TrimQuotesLeft(quotes)) == ""
  {
    QuotesLeft(quotes, "");
    assert quotes + "" == quotes;
  }

  // ---- the new lines ----

  /** The values of a list that are worth a line, in order. */
  function Worthwhile(values: seq<string>, existing: set<string>): seq<string> {
    if values == [] then []
    else (if values[0] == "" || values[0] in existing then [] else [values[0]]) + Worthwhile(values[1..], existing)
  }

  lemma {:induction false} ParamLinesConcat(param: string, a: seq<string>, b: seq<string>, existing: set<string>)
    ensures ParamLines(param, a + b, existing) == ParamLines(param, a, existing) + ParamLines(param, b, existing)
    decreases |b|
  {
    if b == [] {
      assert a + b == a;
    } else {
      var n := |b| - 1;
      assert (a + b)[..|a + b| - 1] == a + b[..n];
      ParamLinesConcat(param, a, b[..n], existing);
    }
  }

  /** The new lines set the worthwhile values, one after the other. */
  lemma {:induction false} LinesSetValues(param: string, values: seq<string>, existing: set<string>)
    ensures var lines, kept := ParamLines(param, values, existing), Worthwhile(values, existing);
            |lines| == |kept| && forall i :: 0 <= i < |lines| ==> lines[i] == param + "=" + kept[i]
    decreases |values|
  {
    if values != [] {
      var first, rest := values[0], values[1..];
      LinesSetValues(param, rest, existing);
      ParamLinesConcat(param, [first], rest, existing);
      assert values == [first] + rest && [first][..0] == [];
      assert ParamLines(param, [first], existing) == if first == "" || first in existing then [] else [param + "=" + first];
    }
  }

  // ---- the place of the new lines ----

  predicate SetsParameter(param: string, line: string) {
    param + "=" <= line
  }

  /** The parameter, switched off by either comment mark. */
  predicate SwitchedOff(param: string, line: string) {
    |line| > 2 && (line[0] == '#' || line[0] == ';') && line[1] == ' ' && param + "=" <= line[2..]
  }

  lemma CommentedIs(param: string, line: string)
    ensures Commented(param, line) <==> SwitchedOff(param, line)
  {
    MarkThenName("# ", param + "=", line);
    MarkThenName("; ", param + "=", line);
    assert "# " + param + "=" == "# " + (param + "=") && "; " + param + "=" == "; " + (param + "=");
  }

  lemma MarkThenName(mark: string, name: string, line: string)
    requires |mark| == 2 && name != ""
    ensures mark + name <= line <==> |line| > 2 && line[0] == mark[0] && line[1] == mark[1] && name <= line[2..]
  {
    if mark + name <= line {
      assert (mark + name)[0] == mark[0] && (mark + name)[1] == mark[1];
      assert name == (mark + name)[2..] == line[2..][..|name|];
    }
    if |line| > 2 && line[0] == mark[0] && line[1] == mark[1] && name <= line[2..] {
      assert line[..2] == mark;
      assert line == line[..2] + line[2..];
    }
  }

  predicate NoneSets(param: string, lines: seq<string>) {
    forall j :: 0 <= j < |lines| ==> !SetsParameter(param, lines[j])
  }

  predicate NoneOff(param: string, lines: seq<string>) {
    forall j :: 0 <= j < |lines| ==> !SwitchedOff(param, lines[j])
  }

  /** Behind the last line that sets the parameter, or else behind the first one that is switched off. */
  predicate IsPlace(param: string, lines: seq<string>, place: Option<nat>) {
    match place
    case Some(k) =>
      && 0 < k <= |lines|
      && if SetsParameter(param, lines[k - 1]) then NoneSets(param, lines[k..])
         else NoneSets(param, lines) && SwitchedOff(param, lines[k - 1]) && NoneOff(param, lines[..k - 1])
    case None => NoneSets(param, lines) && NoneOff(param, lines)
  }

  lemma {:induction false} PlaceIs(param: string, lines: seq<string>)
    ensures IsPlace(param, lines, Place(param, lines))
    decreases |lines|
  {
    if lines != [] {
      var n := |lines| - 1;
      PlaceIs(param, lines[..n]);
      CommentedIs(param, lines[n]);
      assert lines == lines[..n] + [lines[n]] && Active(param, lines[n]) == SetsParameter(param, lines[n]);
      var before := Place(param, lines[..n]);
      NoneSetsMore(param, lines[..n], lines[n]);
      if SetsParameter(param, lines[n]) {
        assert lines[n + 1..] == [];
      } else if before.Some? {
        PlaceStays(param, lines[..n], lines[n], before.value);
      }
    }
  }

  lemma NoneSetsMore(param: string, before: seq<string>, last: string)
    ensures NoneSets(param, before + [last]) <==> NoneSets(param, before) && !SetsParameter(param, last)
    ensures NoneOff(param, before + [last]) <==> NoneOff(param, before) && !SwitchedOff(param, last)
    ensures (before + [last])[..|before|] == before
  {
    hide SetsParameter, SwitchedOff;
    var all := before + [last];
    assert all[|before|] == last && forall j :: 0 <= j < |before| ==> all[j] == before[j];
  }

  lemma PlaceStays(param: string, before: seq<string>, last: string, k: nat)
    requires IsPlace(param, before, Some(k)) && !SetsParameter(param, last)
    ensures IsPlace(param, before + [last], Some(k))
  {
    var all := before + [last];
    assert all[k - 1] == before[k - 1] && all[k..] == before[k..] + [last] && all[..k - 1] == before[..k - 1];
    NoneSetsMore(param, before[k..], last);
    NoneSetsMore(param, before, last);
    hide SetsParameter, SwitchedOff, NoneSets, NoneOff;
  }

  /**
   Main result: a rewrite puts its new lines behind the last line that sets the parameter, or else behind
   the first one that is switched off, or else at the end behind a blank line; the lines that set the
   parameter before stay only when they are to be preserved.
   */
  lemma NewLinesGoWhere(lines: seq<string>, param: string, values: seq<string>, preserve: bool) returns (place: Option<nat>)
    ensures var kept := if preserve then lines else Inactive(param, lines);
            var added := ParamLines(param, values, if preserve then ActiveValues(param, lines) else {});
            var blank := if added != [] && kept != [] && kept[|kept| - 1] != "" then [""] else [];
            && IsPlace(param, kept, place)
            && Rewrite(lines, param, values, preserve)
               == if place.Some? then kept[..place.value] + added + kept[place.value..] else kept + blank + added
  {
    var kept := if preserve then lines else Inactive(param, lines);
    var added := ParamLines(param, values, if preserve then ActiveValues(param, lines) else {});
    PlaceIs(param, kept);
    place := Place(param, kept);
    hide ParamLines, Place, Inactive, ActiveValues, IsPlace;
    assert added == [] ==> kept + [] + added == kept;
  }
}
