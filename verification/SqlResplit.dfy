/** Splitting again what a split has returned need not return it: a dropped comment can open a new one. */
module SqlResplit {
  import opened Text
  import opened SqlScript
  import opened SqlOnePass
  import opened SqlGrammar
  import opened SqlConservation

  const COMMENTED := "--/*x*/y"
  const UNCOMMENTED := "-- y"

  /** A line that starts with a dash is no DELIMITER line. */
  lemma DashIsNoDirective(line: string)
    requires line != "" && line[0] == '-'
    ensures !IsDirective(line)
  {
    var lead, tail := TrimParts(line);
    var v := TrimSpace(line);
    assert forall i :: 0 <= i < |lead| ==> line[i] == lead[i];
    assert lead == "" && line == v + tail;
    assert !IsSpace('-') && v != "" && v[0] == '-';
    var word := Fields(v)[0];
    assert word[0] == '-';
    assert UpperAll(word)[0] == '-' && UpperAll("DELIMITER")[0] == 'D';
  }

  function Pending(text: string): Lexer {
    Start.(pending := text)
  }

  lemma PlainTurn(text: string, lineStart: bool, c: char, rest: string)
    requires c == '-' || c == 'y'
    requires lineStart ==> c == '-'
    requires rest != "" ==> rest[0] != '*' && (rest[0] == '-' ==> |rest| > 1 && !IsSqlSpace(rest[1]))
    ensures OnePass(Pending(text), lineStart, [c] + rest) == OnePass(Pending(text + [c]), false, rest)
  {
    var script := [c] + rest;
    assert script[1..] == rest && script[0] == c;
    if lineStart {
      assert FirstLine(script)[0] == c;
      DashIsNoDirective(FirstLine(script));
    }
    PlainStep(text, c, rest);
    hide Step, OnePass, IsDirective, FirstLine;
    OneStep(Pending(text), lineStart, script, Pending(text + [c]), 1);
  }

  lemma PlainStep(text: string, c: char, rest: string)
    requires c == '-' || c == 'y'
    requires rest != "" ==> rest[0] != '*' && (rest[0] == '-' ==> |rest| > 1 && !IsSqlSpace(rest[1]))
    ensures Step(Pending(text), [c] + rest) == (Pending(text + [c]), 1)
  {
    var script := [c] + rest;
    assert script[0] == c && ";"[0] == ';' && "/*"[0] == '/';
    assert !(";" <= script) && !("/*" <= script);
    assert |script| > 2 && script[..2] == "--" ==> script[..2][1] == script[1] == rest[0] && script[2] == rest[1];
  }

  lemma CommentTurns(text: string)
    ensures OnePass(Pending(text), false, "/*x*/y") == OnePass(Pending(text + " "), false, "y")
  {
    var st, comment, script := Pending(text), "/*x*/", "/*x*/y";
    assert comment <= script && "/*" <= comment && ";"[0] == ';' && script[0] == '/';
    StepIntoBlock(st, comment, script);
    assert !OpensKeptComment(script) && script[2..] == "x*/y" && st.pending + "" == st.pending;
    hide Step, OnePass, Start;
    OneStep(st, false, script, st.(mode := InBlockComment(false), pending := st.pending + ""), 2);
    BlockCommentEnds(st.(mode := InBlockComment(false)));
  }

  lemma BlockCommentEnds(inside: Lexer)
    requires inside.mode == InBlockComment(false) && inside.delimiter == ";"
    ensures OnePass(inside, false, "x*/y") == OnePass(inside.(mode := Normal, pending := inside.pending + " "), false, "y")
  {
    assert "x*/" + "y" == "x*/y";
    RunBlock(inside, false, "x*/", "y");
  }

  lemma CommentedTurns()
    ensures OnePass(Start, true, COMMENTED) == OnePass(Pending(UNCOMMENTED), false, "")
  {
    var third, second := "/*x*/y", "-/*x*/y";
    assert COMMENTED == ['-'] + second && second == ['-'] + third && "y" == ['y'] + "" && Start == Pending("");
    assert "" + ['-'] == "-" && "-" + ['-'] == "--" && "--" + " " == "-- " && "-- " + ['y'] == UNCOMMENTED;
    assert second[0] == '-' && second[1] == '/' && third[0] == '/';
    hide OnePass, Pending, Start;
    PlainTurn("", true, '-', second);
    PlainTurn("-", false, '-', third);
    CommentTurns("--");
    PlainTurn("-- ", false, 'y', "");
  }

  lemma FinishPending(text: string)
    requires text != "" && Trimmed(text)
    ensures Finish(OnePass(Pending(text), false, "")) == Success([text])
  {
    TrimUnique("", text, "");
    assert "" + text + "" == text && [] + [text] == [text];
  }

  lemma UncommentedIsTrimmed()
    ensures UNCOMMENTED != "" && Trimmed(UNCOMMENTED)
  {
  }

  lemma SplitsCommented()
    ensures SplitSpec(COMMENTED) == Success([UNCOMMENTED])
  {
    hide *;
    SplitIsOnePass(Start, COMMENTED);
    CommentedTurns();
    UncommentedIsTrimmed();
    FinishPending(UNCOMMENTED);
  }

  /** A script that is one line comment has no statements. */
  lemma NoteSplitsToNothing(script: string)
    requires |script| > 2 && script[0] == '-' && script[1] == '-' && script[2] == ' ' && '\n' !in script
    ensures SplitSpec(script) == Success([])
  {
    assert FirstLine(script)[0] == '-';
    DashIsNoDirective(FirstLine(script));
    hide Step, OnePass, IsLine, EndsLine, LineFed, Finish, IsDirective;
    SplitIsOnePass(Start, script);
    NoteOpensTurn(script);
    NoteBody(script);
    NoteTurns(Start, script, script[2..]);
    FinishNothing();
  }

  lemma NoteOpensTurn(script: string)
    requires |script| > 2 && script[0] == '-' && script[1] == '-' && script[2] == ' '
    ensures Step(Start, script) == (Start.(mode := InLineComment), 2)
  {
    assert ";"[0] == ';' && script[..2] == "--";
  }

  lemma NoteBody(script: string)
    requires |script| > 2 && '\n' !in script
    ensures IsLine(script[2..]) && !EndsLine(script[2..]) && script[2..] + "" == script[2..]
  {
    var body := script[2..];
    assert forall i :: 0 <= i < |body| ==> body[i] == script[i + 2] && body[i] in script;
  }

  lemma NoteTurns(st: Lexer, script: string, body: string)
    requires WellFormed(st) && |script| > 2 && script[2..] == body && IsLine(body) && !EndsLine(body) && body + "" == body
    requires Step(st, script) == (st.(mode := InLineComment), 2) && !AtDirective(st, true, script)
    ensures OnePass(st, true, script) == st.(mode := InLineComment)
  {
    var inside, lineStart := st.(mode := InLineComment), script[1] == '\n';
    hide Step, OnePass, AtDirective, IsLine, EndsLine;
    OneStep(st, true, script, inside, 2);
    RunNote(inside, lineStart, body, "");
  }

  lemma FinishNothing()
    ensures Finish(Start.(mode := InLineComment)) == Success([])
  {
    var nothing: seq<string> := [];
    assert TrimSpace("") == "" && Kept("") == nothing && nothing + nothing == nothing;
  }

  lemma UncommentedShape()
    ensures |UNCOMMENTED| > 2 && UNCOMMENTED[0] == '-' && UNCOMMENTED[1] == '-' && UNCOMMENTED[2] == ' ' && '\n' !in UNCOMMENTED
  {
  }

  /** Splitting the returned statement once more loses it. */
  lemma ResplittingLosesText()
    ensures SplitSpec(COMMENTED) == Success([UNCOMMENTED]) && SplitSpec(UNCOMMENTED) == Success([])
  {
    SplitsCommented();
    UncommentedShape();
    hide *;
    NoteSplitsToNothing(UNCOMMENTED);
  }
}
