/** Which delimiter a DELIMITER line installs, and that statements end at it. */
module SqlDelimiters {
  import opened Text
  import opened SqlScript
  import opened SqlOnePass
  import opened SqlGrammar
  import opened SqlConservation
  import opened SqlRoundTrip

  predicate Word(w: string) {
    w != "" && forall i :: 0 <= i < |w| ==> !IsSpace(w[i])
  }

  // ---- words of a line ----

  lemma {:induction false} FieldsSkipBlank(blank: string, s: string)
    requires Blank(blank)
    ensures Fields(blank + s) == Fields(s)
    decreases |blank|
  {
    if blank == "" {
      assert blank + s == s;
    } else {
      assert (blank + s)[0] == blank[0] && (blank + s)[1..] == blank[1..] + s;
      FieldsSkipBlank(blank[1..], s);
    }
  }

  lemma {:induction false} WordEnds(w: string, s: string)
    requires Word(w) && (s != "" ==> IsSpace(s[0]))
    ensures WordLength(w + s) == |w|
    decreases |w|
  {
    assert (w + s)[0] == w[0] && (w + s)[1..] == w[1..] + s;
    if |w| > 1 {
      WordEnds(w[1..], s);
    } else {
      assert w[1..] + s == s;
    }
  }

  lemma FieldsWord(w: string, s: string)
    requires Word(w) && (s != "" ==> IsSpace(s[0]))
    ensures Fields(w + s) == [w] + Fields(s)
  {
    WordEnds(w, s);
    assert (w + s)[0] == w[0] && (w + s)[..|w|] == w && (w + s)[|w|..] == s;
  }

  /** A line of two words, with any white space around and between them. */
  lemma TwoWords(lead: string, w: string, gap: string, d: string, tail: string)
    requires Blank(lead) && Word(w) && Blank(gap) && gap != "" && Word(d) && Blank(tail)
    ensures Fields(TrimSpace(lead + w + gap + d + tail)) == [w, d]
  {
    var middle := w + (gap + d);
    assert middle[0] == w[0] && middle[|middle| - 1] == d[|d| - 1];
    TrimUnique(lead, middle, tail);
    assert lead + w + gap + d + tail == lead + middle + tail;
    FieldsWord(w, gap + d);
    FieldsSkipBlank(gap, d);
    FieldsWord(d, "");
    assert d + "" == d && [w] + ([d] + []) == [w, d];
  }

  // ---- lines ----

  lemma {:induction false} FirstLineIs(line: string, rest: string)
    requires '\n' !in line
    ensures FirstLine(line + "\n" + rest) == line + "\n"
    decreases |line|
  {
    var script := line + "\n" + rest;
    if line == "" {
      assert script[0] == '\n';
    } else {
      assert script[0] == line[0] && script[1..] == line[1..] + "\n" + rest;
      FirstLineIs(line[1..], rest);
      FirstLineGoesOn(script);
      assert [line[0]] + (line[1..] + "\n") == line + "\n";
    }
  }

  lemma {:induction false} LastLineIs(line: string)
    requires '\n' !in line
    ensures FirstLine(line) == line
    decreases |line|
  {
    if line != "" {
      LastLineIs(line[1..]);
      FirstLineGoesOn(line);
    }
  }

  lemma BlankLine(line: string)
    requires Blank(line)
    ensures !IsDirective(line)
  {
    var _, _ := TrimParts(line);
  }

  /** White space in front of a text makes no DELIMITER line of it. */
  lemma {:induction false} BlankLeads(blank: string, rest: string)
    requires Blank(blank)
    requires rest != "" ==> !IsSpace(rest[0]) && !IsDirective(FirstLine(rest))
    ensures !IsDirective(FirstLine(blank + rest))
  {
    hide IsDirective;
    var all := blank + rest;
    LineLengthStays(blank, rest);
    if EndsLine(FirstLine(blank)) || rest == "" {
      assert rest == "" ==> all == blank;
      BlankLine(FirstLine(all));
    } else {
      SameWords(blank, FirstLine(rest));
    }
  }

  lemma SameWords(blank: string, line: string)
    requires Blank(blank) && line != "" && !IsSpace(line[0])
    ensures IsDirective(blank + line) <==> IsDirective(line)
  {
    var lead, tail := TrimParts(line);
    var m := TrimSpace(line);
    assert forall i :: 0 <= i < |lead| ==> IsSpace(line[i]);
    assert line == m + tail && blank + line == blank + m + tail;
    TrimUnique(blank, m, tail);
  }

  // ---- the line in the scan ----

  /** Main result: a DELIMITER line between statements installs its second word, with any white space in the line. */
  lemma DirectiveInstalls(st: Lexer, lead: string, w: string, gap: string, d: string, tail: string, rest: string)
    requires st.mode == Normal && Blank(st.pending) && st.delimiter != ""
    requires Blank(lead + tail) && Blank(gap) && gap != "" && '\n' !in lead + gap + tail
    requires EqualFold(w, "DELIMITER") && Word(w) && Word(d)
    ensures OnePass(st, true, lead + w + gap + d + tail + "\n" + rest) == OnePass(st.(delimiter := d), true, rest)
  {
    hide TrimSpace, Fields, UpperAll, FirstLine, OnePass, Word;
    var line := lead + w + gap + d + tail;
    var script := line + "\n" + rest;
    PartsAreBlank(lead, tail);
    PartsHaveNoBreak(lead, w, gap, d, tail);
    FirstLineIs(line, rest);
    TwoWords(lead, w, gap, d, tail + "\n");
    assert lead + w + gap + d + (tail + "\n") == line + "\n";
    BlankPending(st);
    assert d != "" by { WordIsThere(d); }
    DirectiveTurn(st, line + "\n", d, script, rest);
  }

  lemma WordIsThere(d: string)
    requires Word(d)
    ensures d != "" && GoodDelimiter(d)
  {
  }

  lemma PartsAreBlank(lead: string, tail: string)
    requires Blank(lead + tail)
    ensures Blank(lead) && Blank(tail) && Blank(tail + "\n")
  {
    assert forall i :: 0 <= i < |lead| ==> lead[i] == (lead + tail)[i];
    assert forall i :: 0 <= i < |tail| ==> tail[i] == (lead + tail)[|lead| + i];
  }

  lemma PartsHaveNoBreak(lead: string, w: string, gap: string, d: string, tail: string)
    requires '\n' !in lead + gap + tail && Word(w) && Word(d)
    ensures '\n' !in lead + w + gap + d + tail
  {
    assert forall c :: c in lead + gap + tail <==> c in lead || c in gap || c in tail;
    assert forall c :: c in lead + w + gap + d + tail <==> c in lead || c in w || c in gap || c in d || c in tail;
  }

  lemma DirectiveTurn(st: Lexer, line: string, d: string, script: string, rest: string)
    requires st.delimiter != "" && CanChangeDelimiter(st) && script != "" && script == line + rest
    requires FirstLine(script) == line && |Fields(TrimSpace(line))| == 2 && d != ""
    requires EqualFold(Fields(TrimSpace(line))[0], "DELIMITER") && Fields(TrimSpace(line))[1] == d
    ensures OnePass(st, true, script) == OnePass(st.(delimiter := d), true, rest)
  {
    assert script[|line|..] == rest;
    hide TrimSpace, Fields, UpperAll, FirstLine;
  }

  // ---- plain text up to the delimiter ----

  /** Bytes that open no quote and no comment. */
  predicate PlainText(b: string) {
    forall i :: 0 <= i < |b| ==> b[i] !in "'\"`#-/"
  }

  /** `d` starts nowhere in `b`, not even across its end, when `d` follows. */
  predicate EndsFirst(b: string, d: string) {
    forall i :: 0 <= i < |b| ==> !(d <= (b + d)[i..])
  }

  lemma PlainBytes(b: string)
    requires PlainText(b) && b != ""
    ensures !IsQuote(b[0]) && b[0] != '#' && b[0] != '-' && b[0] != '/' && PlainText(b[1..])
  {
    assert forall c :: c in "'\"`#-/" <==> c == '\'' || c == '"' || c == '`' || c == '#' || c == '-' || c == '/';
  }

  lemma PlainTurn(st: Lexer, lineStart: bool, c: char, rest: string)
    requires st.mode == Normal && st.delimiter != "" && !(st.delimiter <= [c] + rest)
    requires !IsQuote(c) && c != '#' && c != '-' && c != '/'
    requires !AtDirective(st, lineStart, [c] + rest)
    ensures OnePass(st, lineStart, [c] + rest) == OnePass(st.(pending := st.pending + [c]), c == '\n', rest)
  {
    assert ([c] + rest)[1..] == rest;
    PlainStep(st, c, rest);
    hide Step, OnePass, AtDirective;
    OneStep(st, lineStart, [c] + rest, st.(pending := st.pending + [c]), 1);
  }

  lemma PlainStep(st: Lexer, c: char, rest: string)
    requires st.mode == Normal && st.delimiter != "" && !(st.delimiter <= [c] + rest)
    requires !IsQuote(c) && c != '#' && c != '-' && c != '/'
    ensures Step(st, [c] + rest) == (st.(pending := st.pending + [c]), 1)
  {
    var script := [c] + rest;
    assert script[0] == c && "/*"[0] == '/';
    if |script| > 2 { assert script[..2][0] == c; }
  }

  /** White space between statements only waits. */
  lemma {:induction false} RunBlank(st: Lexer, lineStart: bool, blank: string, rest: string) returns (start: bool)
    requires st.mode == Normal && GoodDelimiter(st.delimiter) && Blank(st.pending) && Blank(blank)
    requires rest != "" ==> !IsSpace(rest[0]) && !IsDirective(FirstLine(rest))
    ensures OnePass(st, lineStart, blank + rest) == OnePass(st.(pending := st.pending + blank), start, rest)
    ensures Blank(st.pending + blank)
    decreases |blank|
  {
    hide IsDirective, OnePass;
    if blank == "" {
      assert blank + rest == rest && st.pending + blank == st.pending;
      start := lineStart;
    } else {
      var c, more := blank[0], blank[1..];
      assert blank + rest == [c] + (more + rest) && blank == [c] + more;
      BlankLeads(blank, rest);
      BlankOpensNothing(c, st.delimiter, more + rest);
      PlainTurn(st, lineStart, c, more + rest);
      start := RunBlank(st.(pending := st.pending + [c]), c == '\n', more, rest);
      assert st.pending + [c] + more == st.pending + blank;
    }
  }

  lemma BlankOpensNothing(c: char, delimiter: string, rest: string)
    requires IsSpace(c) && GoodDelimiter(delimiter)
    ensures !IsQuote(c) && c != '#' && c != '-' && c != '/' && !(delimiter <= [c] + rest)
  {
    assert ([c] + rest)[0] == c;
  }

  lemma {:induction false} RunPlain(st: Lexer, lineStart: bool, b: string, d: string, rest: string) returns (start: bool)
    requires st.mode == Normal && st.delimiter == d && d != "" && PlainText(b) && EndsFirst(b, d)
    requires !Blank(st.pending) || b == "" || (!IsSpace(b[0]) && !IsDirective(FirstLine(b + d + rest)))
    ensures OnePass(st, lineStart, b + d + rest) == OnePass(st.(pending := st.pending + b), start, d + rest)
    decreases |b|
  {
    hide IsDirective, OnePass, PlainText, Blank;
    if b == "" {
      assert b + d + rest == d + rest && st.pending + b == st.pending;
      start := lineStart;
    } else {
      var c, more := b[0], b[1..];
      assert b + d + rest == [c] + (more + d + rest);
      PlainBytes(b);
      DelimiterIsLater(b, d, rest);
      BlankPending(st);
      PlainTurn(st, lineStart, c, more + d + rest);
      NoLongerBlank(st.pending, c);
      start := RunPlain(st.(pending := st.pending + [c]), c == '\n', more, d, rest);
      assert st.pending + [c] + more == st.pending + b;
    }
  }

  lemma NoLongerBlank(pending: string, c: char)
    ensures !Blank(pending) || !IsSpace(c) ==> !Blank(pending + [c])
  {
    if !Blank(pending) { StillNotBlank(pending, [c]); }
    assert (pending + [c])[|pending|] == c;
  }

  lemma DelimiterIsLater(b: string, d: string, rest: string)
    requires EndsFirst(b, d) && b != "" && d != ""
    ensures EndsFirst(b[1..], d) && !(d <= b + d + rest)
  {
    assert (b + d)[0..] == b + d;
    assert (b + d + rest)[..|d|] == (b + d)[..|d|];
    forall i | 0 <= i < |b[1..]| ensures !(d <= (b[1..] + d)[i..]) {
      assert (b[1..] + d)[i..] == (b + d)[i + 1..];
    }
  }

  // ---- a statement behind a DELIMITER line ----

  lemma {:induction false} FirstPart(line: string, more: string)
    requires '\n' !in line && (more != "" ==> more[0] == '\n')
    ensures FirstLine(line + more) == if more == "" then line else line + "\n"
  {
    if more == "" {
      LastLineIs(line);
      assert line + more == line;
    } else {
      FirstLineIs(line, more[1..]);
      assert line + more == line + "\n" + more[1..];
    }
  }

  /** The line is no DELIMITER line, in terms of its words. */
  predicate OtherLine(line: string) {
    |Fields(TrimSpace(line))| != 2 || !EqualFold(Fields(TrimSpace(line))[0], "DELIMITER")
  }

  lemma BreakIsTrimmed(line: string)
    ensures TrimSpace(line + "\n") == TrimSpace(line)
  {
    var lead, tail := TrimParts(line);
    var m := TrimSpace(line);
    assert line + "\n" == lead + m + (tail + "\n");
    TrimUnique(lead, m, tail + "\n");
  }

  /** The first line of a statement with its delimiter. */
  lemma StatementLine(line: string, more: string, d: string, tail: string)
    requires '\n' !in line && (more != "" ==> more[0] == '\n') && Word(d) && Blank(tail)
    requires OtherLine(if more == "" then line + d else line)
    ensures !IsDirective(FirstLine(line + more + d + tail))
  {
    hide FirstLine, Fields, TrimSpace, UpperAll;
    if more == "" {
      assert '\n' !in line + d by { assert forall c :: c in line + d <==> c in line || c in d; }
      assert line + more + d + tail == line + d + tail;
      TailIsTrimmed(line + d, tail);
    } else {
      FirstPart(line, more + d + tail);
      assert line + (more + d + tail) == line + more + d + tail;
      BreakIsTrimmed(line);
    }
  }

  lemma TailIsTrimmed(line: string, tail: string)
    requires '\n' !in line && Blank(tail)
    ensures TrimSpace(FirstLine(line + tail)) == TrimSpace(line)
  {
    LineLengthStays(line, tail);
    LastLineIs(line);
    var first := FirstLine(tail);
    var lead, rest := TrimParts(line);
    var m := TrimSpace(line);
    assert line + first == lead + m + (rest + first);
    TrimUnique(lead, m, rest + first);
  }

  /**
   Main result: a DELIMITER line installs its second word, and the plain text up to the first place
   where that word stands is the statement; nothing of the line or of the word is left in it.
   */
  lemma StatementBehindDelimiter(w: string, d: string, lead: string, line: string, more: string, tail: string)
    requires EqualFold(w, "DELIMITER") && Word(d) && Blank(lead) && Blank(tail)
    requires line != "" && !IsSpace(line[0]) && '\n' !in line && (more != "" ==> more[0] == '\n')
    requires PlainText(line + more) && EndsFirst(line + more, d)
    requires OtherLine(if more == "" then line + d else line)
    ensures var b := lead + line + more; SplitSpec(w + " " + d + "\n" + b + d + tail) == Success([TrimSpace(b)])
  {
    var text := line + more;
    var behind := lead + (text + d + tail);
    hide *;
    InstalledFirst(w, d, behind);
    StatementLine(line, more, d, tail);
    NowText(line, more);
    RunStatement(d, lead, text, tail);
    assert lead + text == lead + line + more;
    assert w + " " + d + "\n" + (lead + line + more) + d + tail == w + " " + d + "\n" + behind;
  }

  lemma NowText(line: string, more: string)
    requires line != "" && !IsSpace(line[0])
    ensures line + more != "" && !IsSpace((line + more)[0])
  {
  }

  /** The state behind a first DELIMITER line. */
  lemma InstalledFirst(w: string, d: string, behind: string)
    requires EqualFold(w, "DELIMITER") && Word(d)
    ensures SplitSpec(w + " " + d + "\n" + behind) == Finish(OnePass(Start.(delimiter := d), true, behind))
  {
    hide *;
    DelimiterIsWord(w);
    BlankParts();
    SplitIsOnePass(Start, w + " " + d + "\n" + behind);
    DirectiveInstalls(Start, "", w, " ", d, "", behind);
    EmptyParts(w, d);
  }

  lemma EmptyParts(w: string, d: string)
    ensures "" + w + " " + d + "" == w + " " + d
  {
  }

  lemma BlankParts()
    ensures Blank("" + "") && Blank(" ") && '\n' !in "" + " " + ""
    ensures Start.mode == Normal && Blank(Start.pending) && Start.delimiter != ""
  {
  }

  lemma UpperKeepsSpace(c: char)
    ensures IsSpace(c) ==> Upper(c) == c
    ensures 'A' <= c <= 'Z' ==> Upper(c) == c && !IsSpace(c)
  {
  }

  lemma KeywordLetters(i: nat)
    requires i < |"DELIMITER"|
    ensures 'A' <= "DELIMITER"[i] <= 'Z'
  {
  }

  lemma DelimiterIsWord(w: string)
    requires EqualFold(w, "DELIMITER")
    ensures Word(w)
  {
    assert |UpperAll(w)| == |w| == |"DELIMITER"|;
    forall i | 0 <= i < |w| ensures !IsSpace(w[i]) {
      KeywordLetters(i);
      UpperKeepsSpace("DELIMITER"[i]);
      UpperKeepsSpace(w[i]);
      assert Upper(w[i]) == UpperAll(w)[i] == UpperAll("DELIMITER")[i] == "DELIMITER"[i];
    }
  }

  /** White space, a plain text, its delimiter, and white space. */
  lemma RunStatement(d: string, lead: string, text: string, tail: string)
    requires Word(d) && Blank(lead) && Blank(tail) && text != "" && !IsSpace(text[0])
    requires PlainText(text) && EndsFirst(text, d) && !IsDirective(FirstLine(text + d + tail))
    ensures Finish(OnePass(Start.(delimiter := d), true, lead + (text + d + tail))) == Success([TrimSpace(lead + text)])
  {
    hide OnePass, IsDirective, PlainText, EndsFirst, Word, FirstLine, Finish, TrimSpace;
    var st := Start.(delimiter := d);
    WordIsThere(d);
    assert (text + d + tail)[0] == text[0] && "" + lead == lead;
    var start := RunBlank(st, true, lead, text + d + tail);
    var waiting := st.(pending := lead);
    var later := RunPlain(waiting, start, text, d, tail);
    StillThere(lead, text);
    CutEnds(st.(pending := lead + text), later, d, tail, lead + text);
  }

  lemma StillThere(lead: string, text: string)
    requires text != "" && !IsSpace(text[0])
    ensures !Blank(lead + text)
  {
    assert (lead + text)[|lead|] == text[0];
  }

  /** The delimiter ends the statement, and what follows is blank. */
  lemma CutEnds(st: Lexer, lineStart: bool, d: string, tail: string, b: string)
    requires st == Start.(delimiter := d, pending := b) && Word(d) && !Blank(b) && Blank(tail)
    ensures Finish(OnePass(st, lineStart, d + tail)) == Success([TrimSpace(b)])
  {
    BlankPending(st);
    CutStep(st, d, tail);
    WordIsThere(d);
    FlushedIs(st, b);
    hide Step, OnePass, IsDirective, FirstLine, TrimSpace, Flush, Finish, CanChangeDelimiter;
    OneStep(st, lineStart, d + tail, Flush(st), |d|);
    assert (d + tail)[|d|..] == tail;
    var start := RunBlank(Flush(st), (d + tail)[|d| - 1] == '\n', tail, "");
    assert tail + "" == tail && "" + tail == tail;
    BlankIsDropped(Flush(st).(pending := tail), start, tail);
  }

  lemma FlushedIs(st: Lexer, b: string)
    requires st.pending == b && st.done == [] && !Blank(b)
    ensures Flush(st) == st.(pending := "", done := [TrimSpace(b)])
  {
    var _, _ := TrimParts(b);
  }

  lemma CutStep(st: Lexer, d: string, tail: string)
    requires st.mode == Normal && st.delimiter == d && Word(d)
    ensures Step(st, d + tail) == (Flush(st), |d|)
  {
  }

  lemma BlankIsDropped(st: Lexer, start: bool, tail: string)
    requires st.mode == Normal && st.delimiter != "" && st.pending == tail && Blank(tail)
    ensures Finish(OnePass(st, start, "")) == Success(st.done)
  {
    KeptNothing(tail);
    assert st.done + [] == st.done;
  }
}
