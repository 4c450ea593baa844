/** The line-fed splitter is one pass over the whole script: no lookahead crosses a newline. */
module SqlOnePass {
  import opened SqlScript

  predicate EndsLine(text: string) {
    text != "" && text[|text| - 1] == '\n'
  }

  /** True when a DELIMITER line would be obeyed here. */
  predicate AtDirective(st: Lexer, lineStart: bool, script: string) {
    lineStart && CanChangeDelimiter(st) && IsDirective(FirstLine(script))
  }

  /** The reference: a single scan that never cuts the script into lines. */
  function OnePass(st: Lexer, lineStart: bool, script: string): (r: Lexer)
    requires st.delimiter != ""
    ensures r.delimiter != ""
    decreases |script|
  {
    if script == "" then st
    else if AtDirective(st, lineStart, script) then
      OnePass(st.(delimiter := DirectiveDelimiter(FirstLine(script))), true, script[LineLength(script)..])
    else
      var (next, used) := Step(st, script);
      OnePass(next, script[used - 1] == '\n', script[used..])
  }

  /** A turn of the loop on a line with its newline sees the same, whatever text follows. */
  lemma StepIgnoresNextLine(st: Lexer, line: string, more: string)
    requires WellFormed(st) && EndsLine(line)
    ensures Step(st, line + more) == Step(st, line)
  {
    var all := line + more;
    assert forall i :: 0 <= i < |line| ==> all[i] == line[i];
    assert |line| > 1 ==> all[..2] == line[..2];
    assert OpensLineComment(all) == OpensLineComment(line) by {
      if |line| == 2 { assert line[..2][1] == '\n'; }
      if |line| == 1 && |all| > 2 { assert all[..2][0] == '\n'; }
    }
    assert "/*" <= line ==> OpensKeptComment(all) == OpensKeptComment(line);
    PrefixIgnoresNextLine("*/", line, more);
    PrefixIgnoresNextLine("/*", line, more);
    PrefixIgnoresNextLine(st.delimiter, line, more);
  }

  lemma PrefixIgnoresNextLine(p: string, line: string, more: string)
    requires EndsLine(line) && '\n' !in p
    ensures p <= line + more <==> p <= line
  {
    var k := |line| - 1;
    assert (line + more)[k] == '\n';
    if p <= line + more {
      assert forall i :: 0 <= i < |p| ==> p[i] == (line + more)[i];
      assert |p| <= k;
      assert (line + more)[..|p|] == line[..|p|];
    }
  }

  /** Writing `a` and then `b` is writing `a + b`, from every state, when `a` ends a line. */
  lemma {:induction false} ScanSplitsAtNewline(st: Lexer, a: string, b: string)
    requires WellFormed(st) && EndsLine(a)
    ensures Scan(st, a + b) == Scan(Scan(st, a), b)
    decreases |a|
  {
    StepIgnoresNextLine(st, a, b);
    var (next, used) := Step(st, a);
    assert (a + b)[used..] == a[used..] + b;
    if used == |a| {
      assert a[used..] + b == b;
    } else {
      assert a[used..][|a[used..]| - 1] == '\n';
      ScanSplitsAtNewline(next, a[used..], b);
    }
  }

  /** One turn inside a line, in the whole script and in the line alone. */
  lemma AlongTurn(st: Lexer, line: string, more: string) returns (next: Lexer, rest: string, lineStart: bool)
    requires WellFormed(st) && line != "" && (EndsLine(line) || more == "")
    requires forall i :: 0 <= i < |line| - 1 ==> line[i] != '\n'
    ensures WellFormed(next) && |rest| < |line| && Scan(st, line) == Scan(next, rest)
    ensures OnePass(st, false, line + more) == OnePass(next, lineStart, rest + more)
    ensures forall i :: 0 <= i < |rest| - 1 ==> rest[i] != '\n'
    ensures rest != "" ==> !lineStart && EndsLine(rest) == EndsLine(line)
    ensures rest == "" ==> lineStart == EndsLine(line)
  {
    if EndsLine(line) {
      StepIgnoresNextLine(st, line, more);
    } else {
      assert line + more == line;
    }
    hide Step, IsDirective;
    var used := Step(st, line).1;
    next, rest, lineStart := Step(st, line).0, line[used..], line[used - 1] == '\n';
    assert (line + more)[used..] == rest + more;
    assert (line + more)[used - 1] == line[used - 1];
  }

  /** Inside a line the one-pass scan does what writing the line does. */
  lemma {:induction false} OnePassAlongLine(st: Lexer, line: string, more: string)
    requires WellFormed(st) && line != ""
    requires forall i :: 0 <= i < |line| - 1 ==> line[i] != '\n'
    requires EndsLine(line) || more == ""
    ensures OnePass(st, false, line + more) == OnePass(Scan(st, line), true, more)
    decreases |line|
  {
    var next, rest, lineStart := AlongTurn(st, line, more);
    hide Step, IsDirective, WellFormed, EndsLine;
    if rest == "" {
      LineIsDone(next, lineStart, more);
      assert rest + more == more;
    } else {
      hide OnePass, Scan;
      OnePassAlongLine(next, rest, more);
    }
  }

  /** At the end of a line or of the script. */
  lemma LineIsDone(st: Lexer, lineStart: bool, more: string)
    requires st.delimiter != "" && (lineStart || more == "")
    ensures Scan(st, "") == st && OnePass(st, lineStart, more) == OnePass(st, true, more)
  {
  }

  /** Main result: feeding line by line, with directives between the lines, is the one-pass scan. */
  lemma {:induction false} LineFedIsOnePass(st: Lexer, script: string)
    requires WellFormed(st)
    ensures LineFed(st, script) == OnePass(st, true, script)
    decreases |script|
  {
    if script != "" {
      var line, rest := FirstLine(script), script[LineLength(script)..];
      assert script == line + rest;
      var next := TakeLine(st, line);
      if !AtDirective(st, true, script) {
        assert OnePass(st, true, script) == OnePass(st, false, script);
        OnePassAlongLine(st, line, rest);
      }
      LineFedIsOnePass(next, rest);
    }
  }
}
