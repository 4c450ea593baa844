/** Printing statements and splitting the text again. */
module SqlRoundTrip {
  import opened Text
  import opened SqlScript
  import opened SqlOnePass
  import opened SqlGrammar
  import opened SqlConservation

  /** Statements as a script: each followed by the default delimiter and a newline. */
  function Print(statements: seq<string>): string {
    if statements == [] then "" else statements[0] + ";\n" + Print(statements[1..])
  }

  /** Lexemes that are copied to the statement as they stand. */
  predicate Verbatim(t: Token) {
    t.Plain? || t.Quoted? || t.Hint?
  }

  predicate AllVerbatim(toks: seq<Token>) {
    forall i :: 0 <= i < |toks| ==> Verbatim(toks[i])
  }

  function WrittenLength(toks: seq<Token>): nat {
    if toks == [] then 0 else |Written(toks[0])| + WrittenLength(toks[1..])
  }

  function TotalLength(parts: seq<string>): nat {
    if parts == [] then 0 else |parts[0]| + TotalLength(parts[1..])
  }

  lemma TrimShortens(text: string)
    ensures |TrimSpace(text)| <= |text| && Trimmed(TrimSpace(text))
  {
    var _, _ := TrimParts(text);
  }

  lemma {:induction false} StatementsFitWritten(toks: seq<Token>, pending: string)
    ensures TotalLength(Statements(toks, pending)) <= |pending| + WrittenLength(toks)
    decreases |toks|
  {
    TrimShortens(pending);
    if toks != [] {
      StatementsFitWritten(toks[1..], if toks[0].Cut? then "" else pending + Written(toks[0]));
      assert TrimSpace(pending) != "" ==>
          (Kept(pending) + Statements(toks[1..], ""))[1..] == Statements(toks[1..], "");
      assert TrimSpace(pending) == "" ==> Kept(pending) + Statements(toks[1..], "") == Statements(toks[1..], "");
    }
  }

  lemma LexemeShrinks(t: Token, delimiter: string, rest: string)
    requires Lexeme(t, delimiter, rest)
    ensures |Written(t)| <= |t.source|
    ensures !Verbatim(t) ==> |Written(t)| < |t.source|
  {
    if t.Note? {
      NoteIsLongEnough(t.source, rest);
    }
  }

  /** Nothing is added by lexing, and a reading that loses nothing copies every lexeme. */
  lemma {:induction false} WrittenFitsSource(toks: seq<Token>, cx: Context, text: string)
    requires Lexes(toks, cx, text)
    ensures WrittenLength(toks) <= |text|
    ensures WrittenLength(toks) == |text| ==> AllVerbatim(toks)
    decreases |toks|
  {
    hide IsDirective, Lexeme;
    if toks != [] {
      var t := toks[0];
      TokenIsNotEmpty(t, cx, text);
      if !t.Directive? {
        LexemeShrinks(t, cx.delimiter, text);
      }
      WrittenFitsSource(toks[1..], After(cx, t), text[|t.source|..]);
      assert forall i :: 1 <= i < |toks| ==> toks[i] == toks[1..][i - 1];
    }
  }

  /** A statement that the splitter maps to itself is read without losing a byte. */
  lemma FixpointReadsVerbatim(s: string) returns (toks: seq<Token>)
    requires SplitSpec(s) == Success([s])
    ensures IsReading(toks, s) && AllVerbatim(toks) && s != "" && Trimmed(s)
  {
    toks := AcceptedScriptHasReading(s);
    ResultIsTheWrittenText(s, toks);
    StatementsFitWritten(toks, "");
    WrittenFitsSource(toks, ScriptStart, s);
    assert TotalLength([s]) == |s|;
    StatementsAreTrimmed(toks, "");
    assert s in Statements(toks, "");
  }

  lemma {:induction false} StatementsAreTrimmed(toks: seq<Token>, pending: string)
    ensures forall s :: s in Statements(toks, pending) ==> s != "" && Trimmed(s)
    decreases |toks|
  {
    TrimShortens(pending);
    if toks != [] {
      StatementsAreTrimmed(toks[1..], if toks[0].Cut? then "" else pending + Written(toks[0]));
    }
  }

  // ---- reading on past the end of a statement ----

  /** A verbatim lexeme stays one when a delimiter and more text follow. */
  lemma VerbatimReadsOn(t: Token, text: string, tail: string)
    requires Verbatim(t) && Lexeme(t, ";", text)
    requires tail != "" && tail[0] == ';'
    ensures Lexeme(t, ";", text + tail)
  {
    var all := text + tail;
    assert all[0] == text[0];
    assert |text| > 1 ==> all[1] == text[1];
    assert |text| > 2 ==> all[2] == text[2];
    assert |text| == 2 ==> all[2] == ';';
    assert |text| == 1 ==> all[1] == ';';
    if |all| > 2 {
      assert all[..2] == [all[0], all[1]];
    }
    if |text| > 2 {
      assert text[..2] == [text[0], text[1]];
    }
    if t.Quoted? && |t.source| < |text| {
      assert all[|t.source|] == text[|t.source|];
    }
    assert t.source <= all;
  }

  lemma StillNotBlank(pending: string, more: string)
    requires !Blank(pending)
    ensures !Blank(pending + more)
  {
    var i :| 0 <= i < |pending| && !IsSpace(pending[i]);
    assert (pending + more)[i] == pending[i];
  }

  /** Away from the start of a statement no line is a directive. */
  lemma FitsInside(t: Token, cx: Context, text: string)
    requires !Blank(cx.pending)
    ensures Fits(t, cx, text) <==> Lexeme(t, cx.delimiter, text)
  {
  }

  function AfterVerbatim(cx: Context, t: Token): Context {
    Context(cx.delimiter, cx.pending + t.source, EndsLine(t.source))
  }

  lemma UnconsReading(toks: seq<Token>, cx: Context, text: string)
    requires Lexes(toks, cx, text) && toks != [] && AllVerbatim(toks) && !Blank(cx.pending)
    ensures Verbatim(toks[0]) && Lexeme(toks[0], cx.delimiter, text) && |toks[0].source| <= |text|
    ensures AllVerbatim(toks[1..])
    ensures Lexes(toks[1..], AfterVerbatim(cx, toks[0]), text[|toks[0].source|..])
  {
    hide IsDirective, Lexeme;
    FitsInside(toks[0], cx, text);
  }

  lemma ConsReading(t: Token, toks: seq<Token>, cx: Context, text: string)
    requires Verbatim(t) && |t.source| <= |text|
    requires Lexes(toks, AfterVerbatim(cx, t), text[|t.source|..])
    ensures Fits(t, cx, text) ==> Lexes([t] + toks, cx, text)
  {
    hide IsDirective, Fits;
    assert ([t] + toks)[1..] == toks;
  }

  /** After the delimiter the next statement starts. */
  lemma CutReads(cx: Context, rest: string, more: seq<Token>)
    requires cx.delimiter == ";" && !Blank(cx.pending)
    requires Lexes(more, Context(";", "", false), rest)
    ensures Lexes([Cut(";")] + more, cx, ";" + rest)
  {
    hide IsDirective;
    var text := ";" + rest;
    assert Lexeme(Cut(";"), ";", text);
    FitsInside(Cut(";"), cx, text);
    assert text[1..] == rest;
    assert ([Cut(";")] + more)[1..] == more;
  }

  lemma StepReadsOn(t: Token, cx: Context, text: string, tail: string)
    requires Verbatim(t) && |t.source| <= |text| && tail != "" && tail[0] == ';'
    requires cx.delimiter == ";" && !Blank(cx.pending)
    ensures Lexeme(t, ";", text) ==> Fits(t, cx, text + tail)
    ensures (text + tail)[|t.source|..] == text[|t.source|..] + tail
  {
    if Lexeme(t, ";", text) {
      VerbatimReadsOn(t, text, tail);
      FitsInside(t, cx, text + tail);
    }
  }

  /** `behind` reads `tail` wherever a statement may end. */
  ghost predicate ReadsAnywhere(behind: seq<Token>, tail: string) {
    forall cx: Context :: cx.delimiter == ";" && !Blank(cx.pending) ==> Lexes(behind, cx, tail)
  }

  /** Inside a statement the reading goes on through its delimiter. */
  lemma {:induction false} ReadingGoesOn(toks: seq<Token>, from: Context, cx: Context, text: string,
                                         behind: seq<Token>, tail: string)
    requires Lexes(toks, from, text) && AllVerbatim(toks)
    requires from.delimiter == cx.delimiter == ";" && !Blank(from.pending) && !Blank(cx.pending)
    requires tail != "" && tail[0] == ';' && ReadsAnywhere(behind, tail)
    ensures Lexes(toks + behind, cx, text + tail)
    decreases |toks|
  {
    hide *;
    if toks == [] {
      ReadingEnds(toks, from, cx, text, behind, tail);
    } else {
      var t := toks[0];
      UnconsReading(toks, from, text);
      StepReadsOn(t, cx, text, tail);
      var next := GrowContext(cx, t);
      var from' := GrowContext(from, t);
      ReadingGoesOn(toks[1..], from', next, text[|t.source|..], behind, tail);
      ConsReading(t, toks[1..] + behind, cx, text + tail);
      assert toks + behind == [t] + (toks[1..] + behind);
    }
  }

  lemma ReadingEnds(toks: seq<Token>, from: Context, cx: Context, text: string, behind: seq<Token>, tail: string)
    requires toks == [] && Lexes(toks, from, text)
    requires cx.delimiter == ";" && !Blank(cx.pending) && ReadsAnywhere(behind, tail)
    ensures Lexes(toks + behind, cx, text + tail)
  {
    assert toks + behind == behind && text + tail == tail;
  }

  lemma GrowContext(cx: Context, t: Token) returns (next: Context)
    requires !Blank(cx.pending)
    ensures next == AfterVerbatim(cx, t) && !Blank(next.pending) && next.delimiter == cx.delimiter
  {
    next := AfterVerbatim(cx, t);
    StillNotBlank(cx.pending, t.source);
  }

  // ---- the first lexeme of a statement ----

  lemma {:induction false} WordLengthStays(s: string, more: string)
    requires WordLength(s) < |s|
    ensures WordLength(s + more) == WordLength(s)
    decreases |s|
  {
    assert (s + more)[0] == s[0];
    if !IsSpace(s[0]) {
      assert (s + more)[1..] == s[1..] + more;
      WordLengthStays(s[1..], more);
    }
  }

  lemma {:induction false} WholeWord(s: string)
    requires forall i :: 0 <= i < |s| ==> !IsSpace(s[i])
    ensures WordLength(s) == |s|
    ensures s != "" ==> Fields(s) == [s]
    decreases |s|
  {
    if s != "" {
      WholeWord(s[1..]);
      assert s[..|s|] == s && Fields(s[|s|..]) == [];
    }
  }

  /** A byte added to the last word adds no word and leaves the words before it alone. */
  lemma {:induction false} FieldsGrow(s: string, c: char)
    requires s != "" && !IsSpace(s[|s| - 1]) && !IsSpace(c)
    ensures |Fields(s + [c])| == |Fields(s)|
    ensures |Fields(s)| > 1 ==> Fields(s + [c])[0] == Fields(s)[0]
    decreases |s|
  {
    var all := s + [c];
    assert all[0] == s[0];
    if IsSpace(s[0]) {
      assert all[1..] == s[1..] + [c];
      FieldsGrow(s[1..], c);
    } else if WordLength(s) == |s| {
      WholeWord(s);
      WholeWord(all);
    } else {
      var n := WordLength(s);
      WordLengthStays(s, [c]);
      assert all[n..] == s[n..] + [c] && all[..n] == s[..n];
      FieldsGrow(s[n..], c);
    }
  }

  lemma {:induction false} LineLengthStays(s: string, tail: string)
    ensures EndsLine(FirstLine(s)) ==> FirstLine(s + tail) == FirstLine(s)
    ensures !EndsLine(FirstLine(s)) ==> FirstLine(s) == s && FirstLine(s + tail) == s + FirstLine(tail)
    decreases |s|
  {
    if s == "" {
      assert s + tail == tail && s + FirstLine(tail) == FirstLine(tail);
    } else {
      var all := s + tail;
      assert all[0] == s[0] && all[1..] == s[1..] + tail;
      if s[0] != '\n' {
        LineLengthStays(s[1..], tail);
        FirstLineGoesOn(s);
        FirstLineGoesOn(all);
        hide FirstLine;
        assert s == [s[0]] + s[1..];
        assert [s[0]] + (s[1..] + FirstLine(tail)) == s + FirstLine(tail);
      }
    }
  }

  lemma FirstLineGoesOn(s: string)
    requires s != "" && s[0] != '\n'
    ensures FirstLine(s) == [s[0]] + FirstLine(s[1..])
    ensures EndsLine(FirstLine(s)) == EndsLine(FirstLine(s[1..]))
  {
  }

  lemma SameFirstWord(s: string, line: string)
    requires s != "" && Trimmed(s) && line == s + ";\n"
    ensures IsDirective(line) ==> IsDirective(s)
  {
    var a := TrimSpace(s);
    assert "" + s + "" == s;
    TrimUnique("", s, "");
    assert "" + (s + ";") + "\n" == line;
    TrimUnique("", s + ";", "\n");
    FieldsGrow(s, ';');
    assert Fields(TrimSpace(s)) == Fields(s);
    assert Fields(TrimSpace(line)) == Fields(s + ";");
  }

  /** Appending a delimiter does not make a statement look like a DELIMITER line. */
  lemma NoNewDirective(s: string, rest: string)
    requires s != "" && Trimmed(s) && !IsDirective(FirstLine(s))
    ensures !IsDirective(FirstLine(s + (";\n" + rest)))
  {
    hide IsDirective;
    var tail := ";\n" + rest;
    LineLengthStays(s, tail);
    if !EndsLine(FirstLine(s)) {
      assert LineLength(tail) == 2 by {
        assert tail[0] == ';' && tail[1..][0] == '\n';
      }
      assert FirstLine(tail) == ";\n";
      SameFirstWord(s, s + ";\n");
    }
  }

  lemma FirstLexemeFits(toks: seq<Token>, s: string, cx: Context, rest: string)
    requires IsReading(toks, s) && AllVerbatim(toks) && s != "" && Trimmed(s)
    requires cx.delimiter == ";"
    ensures toks != [] && AllVerbatim(toks[1..]) && |toks[0].source| <= |s| && toks[0].source <= s
    ensures toks[0].source != "" && toks[0].source[0] == s[0]
    ensures Lexes(toks[1..], AfterVerbatim(ScriptStart, toks[0]), s[|toks[0].source|..])
    ensures Fits(toks[0], cx, s + (";\n" + rest))
  {
    hide IsDirective, Lexeme;
    var t, tail := toks[0], ";\n" + rest;
    TokenIsNotEmpty(t, ScriptStart, s);
    assert !IsDirective(FirstLine(s)) && Lexeme(t, ";", s);
    NoNewDirective(s, rest);
    FirstLexemeStays(t, s, tail);
  }

  lemma FirstLexemeStays(t: Token, s: string, tail: string)
    requires Verbatim(t) && tail != "" && tail[0] == ';'
    ensures Lexeme(t, ";", s) ==> Lexeme(t, ";", s + tail)
  {
    if Lexeme(t, ";", s) { VerbatimReadsOn(t, s, tail); }
  }

  /** A whole statement with its delimiter, read where a statement may start. */
  lemma StatementReads(toks: seq<Token>, s: string, cx: Context, behind: seq<Token>, rest: string)
    requires IsReading(toks, s) && AllVerbatim(toks) && s != "" && Trimmed(s)
    requires cx.delimiter == ";" && ReadsAnywhere(behind, ";\n" + rest)
    ensures Lexes(toks + behind, cx, s + (";\n" + rest))
  {
    hide *;
    var tail := ";\n" + rest;
    FirstLexemeFits(toks, s, cx, rest);
    var t := toks[0];
    var next := StartContext(cx, t, s);
    var from := StartContext(ScriptStart, t, s);
    assert ScriptStart.delimiter == ";" by { ScriptStartsWithSemicolon(); }
    ReadingGoesOn(toks[1..], from, next, s[|t.source|..], behind, tail);
    assert (s + tail)[|t.source|..] == s[|t.source|..] + tail;
    assert Verbatim(t) by { FirstIsVerbatim(toks); }
    ConsReading(t, toks[1..] + behind, cx, s + tail);
    assert toks + behind == [t] + (toks[1..] + behind);
  }

  lemma ScriptStartsWithSemicolon()
    ensures ScriptStart.delimiter == ";"
  {
  }

  lemma FirstIsVerbatim(toks: seq<Token>)
    requires toks != [] && AllVerbatim(toks)
    ensures Verbatim(toks[0])
  {
  }

  lemma StartContext(cx: Context, t: Token, s: string) returns (next: Context)
    requires t.source != "" && s != "" && t.source[0] == s[0] && Trimmed(s)
    ensures next == AfterVerbatim(cx, t) && !Blank(next.pending) && next.delimiter == cx.delimiter
  {
    next := AfterVerbatim(cx, t);
    assert next.pending[|cx.pending|] == s[0];
  }

  // ---- all statements ----

  lemma {:induction false} StatementsOf(toks: seq<Token>, pending: string, behind: seq<Token>)
    requires AllVerbatim(toks) && behind != [] && behind[0].Cut?
    ensures Statements(toks + behind, pending) == Kept(pending + Source(toks)) + Statements(behind[1..], "")
    decreases |toks|
  {
    hide Kept;
    var all := toks + behind;
    if toks == [] {
      assert all == behind && pending + "" == pending;
    } else {
      StatementsOf(toks[1..], pending + toks[0].source, behind);
      assert all[1..] == toks[1..] + behind;
      assert pending + toks[0].source + Source(toks[1..]) == pending + Source(toks);
    }
  }

  lemma NewlineIsPlain(t: Token, delimiter: string, line: string)
    requires t.Plain? && t.source == "\n" && delimiter == ";" && line != "" && line[0] == '\n'
    ensures Lexeme(t, delimiter, line)
  {
    assert |line| > 2 ==> line[..2][0] == '\n';
  }

  lemma NewlineReads(t: Token, cx: Context, more: seq<Token>, rest: string, line: string)
    requires t.Plain? && t.source == "\n" && cx.delimiter == ";" && !cx.lineStart
    requires Lexes(more, Context(";", cx.pending + "\n", true), rest) && line == "\n" + rest
    ensures Lexes([t] + more, cx, line)
  {
    hide IsDirective, Lexeme;
    assert line[1..] == rest && ([t] + more)[1..] == more;
    NewlineIsPlain(t, cx.delimiter, line);
    assert After(cx, t) == Context(";", cx.pending + "\n", true);
  }

  /** The delimiter, its newline, and a reading of what follows. */
  lemma LineEndReads(more: seq<Token>, rest: string)
    requires Lexes(more, Context(";", "\n", true), rest)
    ensures ReadsAnywhere([Cut(";")] + ([Plain("\n")] + more), ";\n" + rest)
  {
    hide Lexes, Blank;
    var line, behind := "\n" + rest, [Plain("\n")] + more;
    assert "" + "\n" == "\n";
    NewlineReads(Plain("\n"), Context(";", "", false), more, rest, line);
    assert ";" + line == ";\n" + rest;
    forall cx: Context | cx.delimiter == ";" && !Blank(cx.pending)
      ensures Lexes([Cut(";")] + behind, cx, ";\n" + rest)
    {
      CutReads(cx, line, behind);
    }
  }

  lemma KeptStatement(pending: string, s: string)
    requires Blank(pending) && s != "" && Trimmed(s)
    ensures Kept(pending + s) == [s]
  {
    TrimUnique(pending, s, "");
    assert pending + s + "" == pending + s;
  }

  lemma {:induction false} PrintedReads(statements: seq<string>, pending: string) returns (toks: seq<Token>)
    requires forall s :: s in statements ==> SplitSpec(s) == Success([s])
    requires Blank(pending)
    ensures Lexes(toks, Context(";", pending, true), Print(statements))
    ensures Statements(toks, pending) == statements
    decreases |statements|
  {
    hide Kept, SplitSpec, IsDirective;
    if statements == [] {
      toks := [];
      KeptNothing(pending);
    } else {
      var s, rest := statements[0], Print(statements[1..]);
      assert Print(statements) == s + (";\n" + rest) && Blank("\n");
      hide *;
      assert s in statements;
      var verbatim := FixpointReadsVerbatim(s);
      ResultIsTheWrittenText(s, verbatim);
      var more := PrintedReads(statements[1..], "\n");
      var behind := [Cut(";")] + ([Plain("\n")] + more);
      LineEndReads(more, rest);
      StatementReads(verbatim, s, Context(";", pending, true), behind, rest);
      toks := verbatim + behind;
      StatementsOf(verbatim, pending, behind);
      KeptStatement(pending, s);
      NextStatements(more);
      assert behind[1..] == [Plain("\n")] + more;
      assert statements == [s] + statements[1..];
    }
  }

  lemma NextStatements(more: seq<Token>)
    ensures Statements([Plain("\n")] + more, "") == Statements(more, "\n")
  {
    assert ([Plain("\n")] + more)[1..] == more && "" + "\n" == "\n";
  }

  lemma KeptNothing(pending: string)
    requires Blank(pending)
    ensures Kept(pending) == []
  {
    var _, _ := TrimParts(pending);
  }

  /**
   Main result: statements that the splitter leaves alone one by one come back from a printed
   script, in order and unchanged, however many there are.
   */
  lemma PrintSplitRoundTrip(statements: seq<string>)
    requires forall s :: s in statements ==> SplitSpec(s) == Success([s])
    ensures SplitSpec(Print(statements)) == Success(statements)
  {
    hide SplitSpec, Statements;
    var toks := PrintedReads(statements, "");
    assert IsReading(toks, Print(statements));
    ResultIsTheWrittenText(Print(statements), toks);
  }
}
