/** Rewriting one parameter of a configuration file. */
module Parameters {
  import opened Text
  import opened ConfigLines

  predicate Active(param: string, line: string) {
    param + "=" <= line
  }

  predicate Commented(param: string, line: string) {
    "# " + param + "=" <= line || "; " + param + "=" <= line
  }

  /** The lines that do not set the parameter. */
  function Inactive(param: string, lines: seq<string>): (r: seq<string>)
    ensures forall l :: l in r <==> l in lines && !Active(param, l)
  {
    if lines == [] then []
    else
      var last := lines[|lines| - 1];
      Inactive(param, lines[..|lines| - 1]) + if Active(param, last) then [] else [last]
  }

  /** The lines that set the parameter. */
  function ActiveLines(param: string, lines: seq<string>): (r: seq<string>)
    ensures forall l :: l in r <==> l in lines && Active(param, l)
  {
    if lines == [] then []
    else
      var last := lines[|lines| - 1];
      ActiveLines(param, lines[..|lines| - 1]) + if Active(param, last) then [last] else []
  }

  /** The values the lines give to the parameter. */
  function ActiveValues(param: string, lines: seq<string>): set<string> {
    set l | l in lines && Active(param, l) :: l[|param| + 1..]
  }

  /** Where new lines go: after the last active line, or else after the first commented one. */
  function Place(param: string, lines: seq<string>): (r: Option<nat>)
    ensures r.Some? ==> 0 < r.value <= |lines|
  {
    if lines == [] then None
    else
      var last, before := lines[|lines| - 1], Place(param, lines[..|lines| - 1]);
      if Active(param, last) || (before.None? && Commented(param, last)) then Some(|lines|) else before
  }

  /** One line for each non-empty value that is not there yet. */
  function ParamLines(param: string, values: seq<string>, existing: set<string>): seq<string> {
    if values == [] then []
    else
      var last := values[|values| - 1];
      ParamLines(param, values[..|values| - 1], existing)
      + if last == "" || last in existing then [] else [param + "=" + last]
  }

  function Separator(lines: seq<string>): seq<string> {
    if lines != [] && lines[|lines| - 1] != "" then [""] else []
  }

  function Insert(lines: seq<string>, place: Option<nat>, added: seq<string>): seq<string>
    requires place.Some? ==> place.value <= |lines|
  {
    match place
    case Some(k) => lines[..k] + added + lines[k..]
    case None => if added == [] then lines else lines + Separator(lines) + added
  }

  datatype Scan = Scan(kept: seq<string>, existing: set<string>, place: Option<nat>)

  /** What the old lines contribute: the lines that stay, the values they set, where to insert. */
  function ScanLines(param: string, lines: seq<string>, preserve: bool): (r: Scan)
    ensures r.place.Some? ==> r.place.value <= |r.kept|
  {
    var kept := if preserve then lines else Inactive(param, lines);
    Scan(kept, if preserve then ActiveValues(param, lines) else {}, Place(param, kept))
  }

  function Rewrite(lines: seq<string>, param: string, values: seq<string>, preserve: bool): seq<string> {
    var scan := ScanLines(param, lines, preserve);
    Insert(scan.kept, scan.place, ParamLines(param, values, scan.existing))
  }

  function RewriteFile(content: string, param: string, values: seq<string>, preserve: bool): string {
    FileText(Rewrite(ReadLines(content), param, values, preserve))
  }

  function TrimQuotesLeft(s: string): string {
    if s != "" && s[0] == '"' then TrimQuotesLeft(s[1..]) else s
  }

  function TrimQuotesRight(s: string): string {
    if s != "" && s[|s| - 1] == '"' then TrimQuotesRight(s[..|s| - 1]) else s
  }

  /** The list that a MergeParameterValues argument stands for; nothing means "remove the parameter". */
  function MergeItems(rawValue: string): Option<seq<string>> {
    var value := TrimQuotesRight(TrimQuotesLeft(TrimSpace(rawValue)));
    if value == "" then None else Some(SplitOn(value, ','))
  }

  function MergeFile(content: string, param: string, rawValue: string): string {
    match MergeItems(rawValue)
    case None => RewriteFile(content, param, [], false)
    case Some(items) => RewriteFile(content, param, items, true)
  }

  lemma NoLines(param: string)
    ensures Inactive(param, []) == [] && ActiveLines(param, []) == []
    ensures Place(param, []) == None && ActiveValues(param, []) == {}
  {
  }

  lemma OneMoreLine(param: string, lines: seq<string>, line: string)
    ensures Inactive(param, lines + [line]) == Inactive(param, lines) + if Active(param, line) then [] else [line]
    ensures ActiveLines(param, lines + [line]) == ActiveLines(param, lines) + if Active(param, line) then [line] else []
    ensures Place(param, lines + [line])
         == if Active(param, line) || (Place(param, lines).None? && Commented(param, line))
            then Some(|lines| + 1) else Place(param, lines)
    ensures ActiveValues(param, lines + [line])
         == ActiveValues(param, lines) + if Active(param, line) then {line[|param| + 1..]} else {}
  {
    assert (lines + [line])[..|lines|] == lines;
  }

  /** The effect of one line on the scan. */
  function ScanLine(param: string, scan: Scan, line: string, preserve: bool): Scan {
    var kept := scan.kept + [line];
    if Active(param, line) then
      if preserve then Scan(kept, scan.existing + {line[|param| + 1..]}, Some(|kept|)) else scan
    else
      Scan(kept, scan.existing, if scan.place.None? && Commented(param, line) then Some(|kept|) else scan.place)
  }

  lemma ScanOneMore(param: string, lines: seq<string>, line: string, preserve: bool)
    ensures ScanLines(param, lines + [line], preserve) == ScanLine(param, ScanLines(param, lines, preserve), line, preserve)
  {
    hide Inactive, Place, ActiveValues, Active, Commented;
    OneMoreLine(param, lines, line);
    if !preserve {
      OneMoreLine(param, Inactive(param, lines), line);
      var kept := Inactive(param, lines);
      assert Active(param, line) ==> kept + [] == kept;
    } else {
      assert !Active(param, line) ==> ActiveValues(param, lines) + {} == ActiveValues(param, lines);
    }
  }

  /** A configuration file: its bytes, if it exists, and how often it was physically replaced. */
  class ConfigFile {
    var content: Option<string>
    var writes: nat

    constructor (initial: Option<string>)
      ensures content == initial && writes == 0
    {
      content, writes := initial, 0;
    }

    /** `writeLines`: an unchanged file is left alone. */
    method WriteLines(original: string, lines: seq<string>)
      requires content == Some(original)
      modifies this
      ensures content == Some(FileText(lines))
      ensures writes == old(writes) + if content == old(content) then 0 else 1
    {
      var updated := FileText(lines);
      if original != updated {
        content, writes := Some(updated), writes + 1;
      }
    }

    /** `rewriteParameter`: fails, without effect, exactly when the file is missing. */
    method RewriteParameter(param: string, values: seq<string>, preserve: bool) returns (ok: bool)
      modifies this
      ensures ok <==> old(content).Some?
      ensures !ok ==> content == old(content) && writes == old(writes)
      ensures ok ==> content == Some(RewriteFile(old(content).value, param, values, preserve))
      ensures ok ==> writes == old(writes) + if content == old(content) then 0 else 1
    {
      if content.None? {
        return false;
      }
      var original, lines := content.value, ReadLines(content.value);
      var scan := CollectLines(lines, param, preserve);
      var added := NewLines(param, values, scan.existing);
      var updated := InsertLines(scan.kept, scan.place, added);
      WriteLines(original, updated);
      return true;
    }

    static method NewLines(param: string, values: seq<string>, existing: set<string>) returns (added: seq<string>)
      ensures added == ParamLines(param, values, existing)
    {
      added := [];
      for j := 0 to |values|
        invariant added == ParamLines(param, values[..j], existing)
      {
        var value := values[j];
        assert values[..j + 1][..j] == values[..j];
        if value != "" && value !in existing {
          added := added + [param + "=" + value];
        }
      }
      assert values[..|values|] == values;
    }

    static method InsertLines(lines: seq<string>, place: Option<nat>, added: seq<string>) returns (updated: seq<string>)
      requires place.Some? ==> place.value <= |lines|
      ensures updated == Insert(lines, place, added)
    {
      updated := lines;
      if place.Some? {
        updated := updated[..place.value] + added + updated[place.value..];
      } else if |added| > 0 {
        if |updated| > 0 && updated[|updated| - 1] != "" {
          updated := updated + [""];
        }
        updated := updated + added;
      }
    }

    /** The scan over the old lines. */
    static method CollectLines(lines: seq<string>, param: string, preserve: bool) returns (scan: Scan)
      ensures scan == ScanLines(param, lines, preserve)
    {
      var updated: seq<string>, existing: set<string>, insertAt: Option<nat> := [], {}, None;
      NoLines(param);
      for i := 0 to |lines|
        invariant Scan(updated, existing, insertAt) == ScanLines(param, lines[..i], preserve)
      {
        hide ScanLines;
        var line := lines[i];
        assert lines[..i + 1] == lines[..i] + [line];
        ScanOneMore(param, lines[..i], line, preserve);
        if Active(param, line) {
          if preserve {
            updated := updated + [line];
            existing := existing + {line[|param| + 1..]};
            insertAt := Some(|updated|);
          }
          continue;
        }
        updated := updated + [line];
        if insertAt == None && Commented(param, line) {
          insertAt := Some(|updated|);
        }
      }
      assert lines[..|lines|] == lines;
      return Scan(updated, existing, insertAt);
    }

    /** `MergeParameterValues`. */
    method MergeParameterValues(param: string, rawValue: string) returns (ok: bool)
      modifies this
      ensures ok <==> old(content).Some?
      ensures !ok ==> content == old(content) && writes == old(writes)
      ensures ok ==> content == Some(MergeFile(old(content).value, param, rawValue))
    {
      var value := TrimQuotesRight(TrimQuotesLeft(TrimSpace(rawValue)));
      if value == "" {
        ok := RewriteParameter(param, [], false);
        return;
      }
      var parts, values := SplitOn(value, ','), [];
      for j := 0 to |parts|
        invariant forall existing :: ParamLines(param, values, existing) == ParamLines(param, parts[..j], existing)
      {
        assert parts[..j + 1][..j] == parts[..j];
        if parts[j] != "" {
          ghost var before := values;
          values := values + [parts[j]];
          assert values[..|values| - 1] == before;
        }
      }
      assert parts[..|parts|] == parts;
      ok := RewriteParameter(param, values, true);
    }

    /** `SetParameter`. */
    method SetParameter(param: string, value: string) returns (ok: bool)
      modifies this
      ensures ok <==> old(content).Some?
      ensures !ok ==> content == old(content) && writes == old(writes)
      ensures ok ==> content == Some(RewriteFile(old(content).value, param, [value], false))
    {
      ok := RewriteParameter(param, [value], false);
    }
  }
}
