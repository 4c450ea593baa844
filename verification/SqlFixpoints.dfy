/** Which statements the splitter maps to themselves: a scan of their bytes, and the lexemes they come from. */
module SqlFixpoints {
  import opened Text
  import opened SqlScript
  import opened SqlOnePass
  import opened SqlGrammar
  import opened SqlConservation
  import opened SqlRoundTrip

  /** The scan: from this mode every byte of the text is copied, and the text ends between lexemes. */
  predicate CopiedFrom(mode: Mode, text: string)
    decreases |text|
  {
    if text == "" then mode == Normal
    else
      match mode
      case InLineComment => false
      case InBlockComment(keep) =>
        keep && if "*/" <= text then CopiedFrom(Normal, text[2..]) else CopiedFrom(mode, text[1..])
      case InQuote(q) =>
        if |text| > 1 && (text[0] == '\\' || (text[0] == q && text[1] == q)) then CopiedFrom(mode, text[2..])
        else CopiedFrom(if text[0] == q then Normal else mode, text[1..])
      case Normal =>
        && text[0] != ';' && !OpensLineComment(text)
        && if "/*" <= text then OpensKeptComment(text) && CopiedFrom(InBlockComment(true), text[2..])
           else CopiedFrom(if IsQuote(text[0]) then InQuote(text[0]) else Normal, text[1..])
  }

  /** What a caller can check of a statement before splitting it. */
  predicate Stable(s: string) {
    s != "" && Trimmed(s) && !IsDirective(FirstLine(s)) && CopiedFrom(Normal, s)
  }

  // ---- the scan and the lexer ----

  lemma CopiedTurn(st: Lexer, lineStart: bool, text: string) returns (next: Lexer, nextStart: bool, n: nat)
    requires WellFormed(st) && st.delimiter == ";" && text != "" && CopiedFrom(st.mode, text)
    requires !AtDirective(st, lineStart, text)
    ensures 1 <= n <= |text| && WellFormed(next) && CopiedFrom(next.mode, text[n..])
    ensures next == st.(mode := next.mode, pending := st.pending + text[..n])
    ensures OnePass(st, lineStart, text) == OnePass(next, nextStart, text[n..])
  {
    CopiedStep(st, text);
    hide Step, OnePass, AtDirective, CopiedFrom;
    var (after, used) := Step(st, text);
    OneStep(st, lineStart, text, after, used);
    next, nextStart, n := after, text[used - 1] == '\n', used;
  }

  lemma CopiedStep(st: Lexer, text: string)
    requires WellFormed(st) && st.delimiter == ";" && text != "" && CopiedFrom(st.mode, text)
    ensures var (next, n) := Step(st, text);
            CopiedFrom(next.mode, text[n..]) && next == st.(mode := next.mode, pending := st.pending + text[..n])
  {
    assert ";"[0] == ';' && (";" <= text <==> text[0] == ';');
    assert text[..1] == [text[0]];
    assert |text| > 1 ==> text[..2] == [text[0], text[1]];
  }

  /** Inside a statement, or in front of one that is no DELIMITER line. */
  predicate InStatement(st: Lexer, text: string) {
    !Blank(st.pending) || (st.mode == Normal && text != "" && !IsSpace(text[0]) && !IsDirective(FirstLine(text)))
  }

  lemma NoDirectiveHere(st: Lexer, lineStart: bool, text: string)
    requires InStatement(st, text)
    ensures !AtDirective(st, lineStart, text)
  {
    hide IsDirective;
    if st.mode == Normal { BlankPending(st); }
  }

  lemma StillInStatement(st: Lexer, next: Lexer, text: string, n: nat)
    requires InStatement(st, text) && 1 <= n <= |text| && next.pending == st.pending + text[..n]
    ensures InStatement(next, text[n..])
    ensures next.pending + text[n..] == st.pending + text
  {
    assert text == text[..n] + text[n..];
    if Blank(st.pending) {
      assert next.pending[|st.pending|] == text[0];
    } else {
      StillNotBlank(st.pending, text[..n]);
    }
  }

  /** Text that the scan accepts ends up in the pending statement, byte for byte. */
  lemma {:induction false} CopiedRuns(st: Lexer, lineStart: bool, text: string)
    requires WellFormed(st) && st.delimiter == ";" && CopiedFrom(st.mode, text) && InStatement(st, text)
    ensures OnePass(st, lineStart, text) == st.(mode := Normal, pending := st.pending + text)
    decreases |text|
  {
    if text == "" {
      assert st.pending + "" == st.pending;
    } else {
      NoDirectiveHere(st, lineStart, text);
      var next, nextStart, n := CopiedTurn(st, lineStart, text);
      StillInStatement(st, next, text, n);
      hide *;
      CopiedRuns(next, nextStart, text[n..]);
    }
  }

  lemma StableSplitsToItself(s: string)
    requires Stable(s)
    ensures SplitSpec(s) == Success([s])
  {
    SplitIsOnePass(Start, s);
    CopiedRuns(Start, true, s);
    hide OnePass, SplitSpec;
    assert Start.pending + s == s && Start.done + [s] == [s];
    KeptStatement("", s);
  }

  // ---- the scan over whole lexemes ----

  /** The text of a verbatim lexeme is still that lexeme in front of `more`, with the default delimiter. */
  predicate StaysWhole(t: Token, more: string) {
    var s := t.source;
    match t
    case Quoted(_) =>
      && |s| > 1 && IsQuote(s[0]) && s[|s| - 1] == s[0] && QuotedBody(s[0], s[1..|s| - 1])
      && (more != "" ==> more[0] != s[0])
    case Hint(_) => "/*" <= s && OpensKeptComment(s) && ClosesAtEnd(s[2..])
    case Plain(_) =>
      |s| == 1 && !IsQuote(s[0]) && s[0] != ';' && !OpensLineComment(s + more) && !("/*" <= s + more)
    case _ => false
  }

  lemma {:induction false} CopiedOverQuoted(q: char, body: string, more: string)
    requires IsQuote(q) && QuotedBody(q, body) && (more != "" ==> more[0] != q)
    ensures CopiedFrom(InQuote(q), body + ([q] + more)) <==> CopiedFrom(Normal, more)
    decreases |body|
  {
    var all := body + ([q] + more);
    if body == "" {
      assert all == [q] + more && all[1..] == more;
    } else {
      var n := QuoteTurn(q, body);
      assert all[n..] == body[n..] + ([q] + more);
      assert all[0] == body[0] && all[1] == if |body| > 1 then body[1] else q;
      CopiedOverQuoted(q, body[n..], more);
    }
  }

  lemma {:induction false} CopiedOverBlock(body: string, more: string)
    requires ClosesAtEnd(body)
    ensures CopiedFrom(InBlockComment(true), body + more) <==> CopiedFrom(Normal, more)
    decreases |body|
  {
    var all := body + more;
    assert all[0] == body[0] && all[1] == body[1];
    if |body| == 2 {
      assert "*/" <= all && all[2..] == more;
    } else {
      ClosesLater(body);
      assert !("*/" <= all) && all[1..] == body[1..] + more;
      CopiedOverBlock(body[1..], more);
    }
  }

  /** The scan passes over a lexeme that stays whole. */
  lemma CopiedOver(t: Token, more: string)
    requires StaysWhole(t, more)
    ensures CopiedFrom(Normal, t.source + more) <==> CopiedFrom(Normal, more)
  {
    var s, all := t.source, t.source + more;
    assert all[0] == s[0];
    match t
    case Plain(_) =>
      assert all[1..] == more;
    case Quoted(_) =>
      NotAComment(all);
      assert all[1..] == s[1..|s| - 1] + ([s[0]] + more);
      CopiedOverQuoted(s[0], s[1..|s| - 1], more);
    case Hint(_) =>
      assert "/*" <= all && all[2..] == s[2..] + more && all[2] == s[2];
      SlashOpens(all);
      CopiedOverBlock(s[2..], more);
  }

  // ---- the lexemes of one statement ----

  function WrittenText(toks: seq<Token>): string {
    if toks == [] then "" else Written(toks[0]) + WrittenText(toks[1..])
  }

  /** The lexemes up to the next delimiter. */
  function FirstBlock(toks: seq<Token>): (b: seq<Token>)
    ensures b <= toks
  {
    if toks == [] || toks[0].Cut? then [] else [toks[0]] + FirstBlock(toks[1..])
  }

  /** A dropped comment with more statement text behind it: it leaves a space that trimming keeps. */
  predicate Gap(c: seq<Token>) {
    c != [] && (c[0].Dropped? || c[0].Note?) && !Blank(WrittenText(c[1..]))
  }

  /** Two dashes and then a space where a comment was: a new line comment. */
  predicate JoinsDashes(b: seq<Token>) {
    |b| > 1 && b[0] == b[1] == Plain("-") && Gap(b[2..])
  }

  /** No semicolon is statement text, and no dropped comment makes a new one. */
  predicate KeepsShape(b: seq<Token>) {
    b == [] || (b[0] != Plain(";") && !JoinsDashes(b) && KeepsShape(b[1..]))
  }

  lemma {:induction false} TrimRightOver(a: string, b: string)
    ensures Blank(b) ==> TrimRight(a + b) == TrimRight(a)
    ensures !Blank(b) ==> TrimRight(a + b) == a + TrimRight(b) && TrimRight(b) != "" && TrimRight(b)[0] == b[0]
    decreases |b|
  {
    var all := a + b;
    if b == "" {
      assert all == a;
    } else {
      var n := |b| - 1;
      assert all[..|all| - 1] == a + b[..n] && all[|all| - 1] == b[n];
      assert b == b[..n] + [b[n]];
      if IsSpace(b[n]) {
        TrimRightOver(a, b[..n]);
      }
    }
  }

  lemma {:induction false} BlankTails(b: seq<Token>, n: nat)
    requires Blank(WrittenText(b)) && n <= |b|
    ensures Blank(WrittenText(b[n..]))
    decreases n
  {
    if n > 0 {
      var first, rest := Written(b[0]), WrittenText(b[1..]);
      assert forall i :: 0 <= i < |rest| ==> rest[i] == (first + rest)[|first| + i];
      BlankTails(b[1..], n - 1);
      assert b[1..][n - 1..] == b[n..];
    } else {
      assert b[n..] == b;
    }
  }

  /** Inside a statement, what is written next is the next byte, or the space of a dropped comment. */
  lemma WrittenNext(toks: seq<Token>, cx: Context, text: string)
    requires Lexes(toks, cx, text) && !Blank(cx.pending)
    requires WrittenText(FirstBlock(toks)) != ""
    ensures var (b, w) := (FirstBlock(toks), WrittenText(FirstBlock(toks)));
            && text != "" && b != [] && b[0] == toks[0] && b[1..] == FirstBlock(toks[1..])
            && (Verbatim(b[0]) ==> w[0] == text[0] && b[0].source != "" && b[0].source[0] == text[0])
            && (!Verbatim(b[0]) ==> (b[0].Dropped? || b[0].Note?) && IsSqlSpace(w[0])
                                    && w == [w[0]] + WrittenText(b[1..]))
  {
    hide IsDirective;
    var t := toks[0];
    FitsInside(t, cx, text);
    TokenIsNotEmpty(t, cx, text);
    if t.Note? && !EndsLine(t.source) {
      assert text[|t.source|..] == "";
      ReadingUsesText(toks[1..], After(cx, t), "");
    }
  }

  lemma ReadingUsesText(toks: seq<Token>, cx: Context, text: string)
    requires Lexes(toks, cx, text)
    ensures toks != [] <==> text != ""
  {
    if toks != [] { TokenIsNotEmpty(toks[0], cx, text); }
  }

  lemma TwoDashes(text: string)
    requires |text| > 2 && text[0] == '-' && text[1] == '-' && IsSqlSpace(text[2])
    ensures OpensLineComment(text)
  {
    assert text[..2] == "--";
  }

  lemma NowNotBlank(pending: string, more: string)
    requires !Blank(more)
    ensures !Blank(pending + more)
  {
    var i :| 0 <= i < |more| && !IsSpace(more[i]);
    assert (pending + more)[|pending| + i] == more[i];
  }

  lemma Uncons(toks: seq<Token>, cx: Context, text: string)
    requires Lexes(toks, cx, text) && toks != []
    ensures Fits(toks[0], cx, text) && (toks[0].Directive? ==> IsDirective(toks[0].source)) && |toks[0].source| <= |text|
    ensures Lexes(toks[1..], After(cx, toks[0]), text[|toks[0].source|..])
  {
    hide IsDirective, Fits;
  }

  /** Where the text goes on inside a statement. */
  lemma Onwards(toks: seq<Token>, cx: Context, text: string) returns (next: Context, more: string)
    requires Lexes(toks, cx, text) && toks != [] && !toks[0].Cut?
    requires !Blank(cx.pending) || (Verbatim(toks[0]) && !Blank(toks[0].source))
    ensures Lexes(toks[1..], next, more) && !Blank(next.pending) && next.delimiter == cx.delimiter
    ensures text == toks[0].source + more
    ensures Lexeme(toks[0], cx.delimiter, text)
  {
    hide IsDirective, Lexeme, Lexes, Blank;
    Uncons(toks, cx, text);
    var t := toks[0];
    TokenIsNotEmpty(t, cx, text);
    next, more := After(cx, t), text[|t.source|..];
    if !Blank(cx.pending) {
      FitsInside(t, cx, text);
      if t.Directive? { DirectiveIsNoLexeme(t, cx.delimiter, text); }
      StillNotBlank(cx.pending, Written(t));
    } else {
      NowNotBlank(cx.pending, t.source);
    }
  }

  lemma DashIsPlain(toks: seq<Token>, cx: Context, text: string)
    requires Lexes(toks, cx, text) && toks != [] && !Blank(cx.pending) && Verbatim(toks[0])
    requires text != "" && text[0] == '-'
    ensures toks[0] == Plain("-")
  {
    hide IsDirective;
    var t := toks[0];
    FitsInside(t, cx, text);
    assert t.source[0] == text[0];
    assert t.Plain? ==> t.source == "-";
  }

  lemma BlockGoesOn(toks: seq<Token>) returns (b: seq<Token>)
    requires toks != [] && !toks[0].Cut?
    ensures b == FirstBlock(toks[1..]) && FirstBlock(toks) == [toks[0]] + b && FirstBlock(toks)[1..] == b
    ensures WrittenText(FirstBlock(toks)) == Written(toks[0]) + WrittenText(b)
  {
    b := FirstBlock(toks[1..]);
  }

  lemma DashTrims(w: string, r: string)
    requires r == TrimRight("-" + w)
    ensures if Blank(w) then r == "-" else |r| > 1 && r[0] == '-' && r[1] == w[0]
  {
    TrimRightOver("-", w);
    assert "-"[0] == '-';
  }

  lemma PlainDash(t: Token, delimiter: string, text: string)
    requires t == Plain("-") && Lexeme(t, delimiter, text)
    ensures !OpensLineComment(text)
  {
  }

  /** Behind the second of two dashes: a space comes next exactly when a comment was dropped there. */
  lemma SecondDash(toks: seq<Token>, cx: Context, text: string, r: string)
    requires Lexes(toks, cx, text) && toks != [] && !Blank(cx.pending) && toks[0] == Plain("-")
    requires !OpensLineComment("-" + text) && text != "" && text[0] == '-'
    requires r == TrimRight(WrittenText(FirstBlock(toks)))
    ensures r != "" && r[0] == '-'
    ensures |r| > 1 && IsSqlSpace(r[1]) <==> Gap(FirstBlock(toks)[1..])
  {
    hide IsDirective, Lexeme, Lexes, OpensLineComment, TrimRight, WrittenText, FirstBlock;
    var cx1, text1 := Onwards(toks, cx, text);
    var c := BlockGoesOn(toks);
    DashTrims(WrittenText(c), r);
    assert text == "-" + text1;
    if text1 != "" && IsSqlSpace(text1[0]) { TwoDashes("-" + text); }
    SpaceComesNext(toks[1..], cx1, text1, c);
  }

  lemma SpaceComesNext(toks: seq<Token>, cx: Context, text: string, c: seq<Token>)
    requires Lexes(toks, cx, text) && !Blank(cx.pending) && c == FirstBlock(toks)
    requires text != "" ==> !IsSqlSpace(text[0])
    ensures !Blank(WrittenText(c)) && IsSqlSpace(WrittenText(c)[0]) <==> Gap(c)
  {
    hide IsDirective, Lexeme, Lexes, FirstBlock;
    var w := WrittenText(c);
    if w != "" {
      WrittenNext(toks, cx, text);
      if Verbatim(c[0]) {
        assert !IsSqlSpace(w[0]);
      } else {
        SpaceInFront(w[0], WrittenText(c[1..]), w);
      }
    } else if c != [] {
      BlankTails(c, 1);
    }
  }

  lemma SpaceInFront(space: char, rest: string, w: string)
    requires IsSqlSpace(space) && w == [space] + rest
    ensures Blank(w) <==> Blank(rest)
  {
    assert forall i :: 0 <= i < |rest| ==> rest[i] == w[i + 1];
  }

  /** A dash opens a comment in the written text exactly when lexemes are joined to one. */
  lemma DashOpens(toks: seq<Token>, cx: Context, text: string, b: seq<Token>, r: string)
    requires Lexes(toks, cx, text) && toks != [] && toks[0] == Plain("-") && b == FirstBlock(toks)
    requires !Blank(WrittenText(b[1..])) && r == TrimRight(WrittenText(b[1..]))
    ensures OpensLineComment("-" + r) <==> JoinsDashes(b)
  {
    hide IsDirective, Lexeme, Lexes, FirstBlock, WrittenText, TrimRight;
    assert toks[0].source[0] == '-';
    var cx1, text1 := Onwards(toks, cx, text);
    PlainDash(toks[0], cx.delimiter, text);
    var c := BlockGoesOn(toks);
    WrittenNext(toks[1..], cx1, text1);
    TrimRightOver("", WrittenText(c));
    assert "" + WrittenText(c) == WrittenText(c) && r[0] == WrittenText(c)[0];
    DashThen(r);
    if Verbatim(c[0]) && text1[0] == '-' {
      DashIsPlain(toks[1..], cx1, text1);
      SecondDash(toks[1..], cx1, text1, r);
      assert b[2..] == c[1..];
    }
  }

  lemma DashThen(r: string)
    ensures OpensLineComment("-" + r) <==> |r| > 1 && r[0] == '-' && IsSqlSpace(r[1])
  {
    var all := "-" + r;
    if |all| > 2 { assert all[..2] == [all[0], all[1]]; }
  }

  lemma VerbatimFits(t: Token, cx: Context, text: string)
    requires Verbatim(t) && Fits(t, cx, text)
    ensures Lexeme(t, cx.delimiter, text)
  {
    hide IsDirective, Lexeme;
  }

  /** Nothing is joined where no more statement text follows. */
  lemma NothingJoined(b: seq<Token>)
    requires b != [] && Blank(WrittenText(b[1..]))
    ensures !JoinsDashes(b)
  {
    if |b| > 2 {
      BlankTails(b[1..], 2);
      assert b[1..][2..] == b[2..][1..];
    }
  }

  lemma LastStaysWhole(t: Token, delimiter: string, text: string)
    requires Verbatim(t) && Lexeme(t, delimiter, text)
    ensures StaysWhole(t, "") <==> t != Plain(";")
    ensures t.Hint? ==> forall more :: StaysWhole(t, more)
  {
    var s := t.source;
    assert s[0] == text[0] && s + "" == s;
    assert t.Plain? ==> s == [s[0]];
    if t.Hint? { assert s[2] == text[2]; }
  }

  /** A byte that opens nothing by itself. */
  lemma PlainStaysWhole(c: char, more: string)
    requires !IsQuote(c) && c != '#' && c != '-' && (c == '/' && more != "" ==> more[0] != '*')
    ensures StaysWhole(Plain([c]), more) <==> c != ';'
  {
    var all := [c] + more;
    assert all[0] == c && (|all| > 1 ==> all[1] == more[0]);
    if |all| > 2 { assert all[..2][0] == c; }
  }

  lemma VerbatimShape(t: Token, delimiter: string, text: string)
    requires Verbatim(t) && Lexeme(t, delimiter, text)
    ensures t.source != "" && (t.Plain? ==> t.source == [t.source[0]] && !IsQuote(t.source[0]) && t.source[0] != '#')
    ensures !t.Plain? ==> !IsSpace(t.source[0])
    ensures !Blank(t.source) || (t.Plain? && IsSpace(t.source[0]))
  {
    assert t.source[0] == text[0];
  }

  lemma PlainByte(t: Token, delimiter: string, text: string, more: string)
    requires t.Plain? && Lexeme(t, delimiter, text) && text == t.source + more
    ensures t.source != "" && t.source[0] == '/' && more != "" ==> more[0] != '*'
  {
    assert text[0] == t.source[0];
    assert more != "" ==> text[1] == more[0];
  }

  lemma QuoteStaysWhole(t: Token, delimiter: string, text: string, r: string)
    requires t.Quoted? && Lexeme(t, delimiter, text)
    requires r != "" ==> IsSqlSpace(r[0]) || (|t.source| < |text| && r[0] == text[|t.source|])
    ensures StaysWhole(t, r)
  {
  }

  lemma FirstByteStays(w: string)
    ensures Blank(w) ==> TrimRight(w) == ""
    ensures !Blank(w) ==> TrimRight(w) != "" && w != "" && TrimRight(w)[0] == w[0]
  {
    TrimRightOver("", w);
    assert "" + w == w;
  }

  /** What can happen to a lexeme of a statement when dropped comments behind it are gone. */
  lemma VerbatimStays(toks: seq<Token>, cx: Context, text: string, b: seq<Token>, r: string)
    requires Lexes(toks, cx, text) && toks != [] && Verbatim(toks[0]) && b == FirstBlock(toks)
    requires r == TrimRight(WrittenText(b[1..]))
    ensures StaysWhole(toks[0], r) <==> toks[0] != Plain(";") && !JoinsDashes(b)
  {
    hide IsDirective, Lexeme, Lexes, WrittenText, TrimRight, StaysWhole, JoinsDashes, FirstBlock;
    var t := toks[0];
    assert Fits(t, cx, text) by { FirstFits(toks, cx, text); }
    VerbatimFits(t, cx, text);
    LastStaysWhole(t, cx.delimiter, text);
    var c := BlockGoesOn(toks);
    FirstByteStays(WrittenText(c));
    if Blank(WrittenText(c)) {
      NothingJoined(b);
    } else if t == Plain("-") {
      DashOpens(toks, cx, text, b, r);
      DashStaysWhole(r);
    } else {
      assert !JoinsDashes(b) by { NoDashNoJoin(b); }
      NoDashStays(toks, cx, text, c, r);
    }
  }

  lemma FirstFits(toks: seq<Token>, cx: Context, text: string)
    requires Lexes(toks, cx, text) && toks != []
    ensures Fits(toks[0], cx, text)
  {
    hide IsDirective, Lexeme;
  }

  lemma DashStaysWhole(r: string)
    ensures StaysWhole(Plain("-"), r) <==> !OpensLineComment("-" + r)
  {
    assert ("-" + r)[0] == '-';
  }

  lemma NoDashNoJoin(b: seq<Token>)
    requires b != [] && b[0] != Plain("-")
    ensures !JoinsDashes(b)
  {
  }

  lemma NoDashStays(toks: seq<Token>, cx: Context, text: string, c: seq<Token>, r: string)
    requires Lexes(toks, cx, text) && toks != [] && Verbatim(toks[0]) && toks[0] != Plain("-")
    requires c == FirstBlock(toks[1..]) && !Blank(WrittenText(c)) && r != "" && r[0] == WrittenText(c)[0]
    ensures StaysWhole(toks[0], r) <==> toks[0] != Plain(";")
  {
    hide IsDirective, Lexeme, Lexes, WrittenText, StaysWhole, FirstBlock;
    var t := toks[0];
    FirstFits(toks, cx, text);
    VerbatimFits(t, cx, text);
    VerbatimShape(t, cx.delimiter, text);
    if t.Plain? && IsSpace(t.source[0]) {
      PlainStaysWhole(t.source[0], r);
    } else {
      var cx1, text1 := Onwards(toks, cx, text);
      WrittenNext(toks[1..], cx1, text1);
      match t
      case Plain(_) =>
        PlainByte(t, cx.delimiter, text, text1);
        PlainStaysWhole(t.source[0], r);
      case Quoted(_) =>
        QuoteStaysWhole(t, cx.delimiter, text, r);
      case Hint(_) =>
        LastStaysWhole(t, cx.delimiter, text);
    }
  }

  lemma {:induction false} SpaceIsCopied(lead: string, r: string)
    requires Blank(lead)
    ensures CopiedFrom(Normal, lead + r) <==> CopiedFrom(Normal, r)
    decreases |lead|
  {
    var all := lead + r;
    if lead == "" {
      assert all == r;
    } else {
      assert all[0] == lead[0] && all[1..] == lead[1..] + r;
      if |all| > 2 { assert all[..2][0] == all[0]; }
      SpaceIsCopied(lead[1..], r);
    }
  }

  lemma NotWholeIsNotCopied(t: Token, r: string)
    requires (t == Plain(";") || t == Plain("-")) && !StaysWhole(t, r)
    ensures !CopiedFrom(Normal, t.source + r)
  {
    assert (t.source + r)[0] == t.source[0];
  }

  lemma LexemeEnds(t: Token, delimiter: string, text: string)
    requires Verbatim(t) && Lexeme(t, delimiter, text) && !Blank(t.source)
    ensures TrimRight(t.source) == t.source
  {
    var s := t.source;
    if t.Hint? { assert s[|s| - 1] == s[2..][|s| - 3]; }
    assert !IsSpace(s[|s| - 1]);
  }

  /** A lexeme in front of the trimmed rest of its statement. */
  lemma CopiedBehind(toks: seq<Token>, cx: Context, text: string, b: seq<Token>, r: string)
    requires Lexes(toks, cx, text) && toks != [] && Verbatim(toks[0]) && b == FirstBlock(toks)
    requires r == TrimRight(WrittenText(b[1..]))
    ensures CopiedFrom(Normal, toks[0].source + r)
       <==> toks[0] != Plain(";") && !JoinsDashes(b) && CopiedFrom(Normal, r)
  {
    hide *;
    VerbatimStays(toks, cx, text, b, r);
    if StaysWhole(toks[0], r) {
      CopiedOver(toks[0], r);
    } else {
      if JoinsDashes(b) { JoinStartsWithDash(b); }
      assert b[0] == toks[0] by { var _ := BlockGoesOn(toks); }
      NotWholeIsNotCopied(toks[0], r);
    }
  }

  lemma JoinStartsWithDash(b: seq<Token>)
    requires JoinsDashes(b)
    ensures b != [] && b[0] == Plain("-")
  {
  }

  lemma BlankIsCopied(w: string)
    ensures Blank(w) ==> TrimRight(w) == "" && CopiedFrom(Normal, TrimRight(w))
  {
    FirstByteStays(w);
  }

  lemma DroppedWritesSpace(t: Token)
    requires !Verbatim(t)
    ensures Blank(Written(t)) && t != Plain(";") && t != Plain("-")
  {
  }

  /** The text of a statement, trimmed on the right, is copied whole exactly when its lexemes keep their shape. */
  lemma {:induction false} BlockIsCopied(toks: seq<Token>, cx: Context, text: string)
    requires Lexes(toks, cx, text)
    ensures CopiedFrom(Normal, TrimRight(WrittenText(FirstBlock(toks)))) <==> KeepsShape(FirstBlock(toks))
    decreases |toks|
  {
    if toks != [] && !toks[0].Cut? {
      hide IsDirective, Lexeme, CopiedFrom, TrimRight, JoinsDashes, Written, FirstBlock, Blank;
      var t, b := toks[0], FirstBlock(toks);
      var c := BlockGoesOn(toks);
      var w, r := WrittenText(c), TrimRight(WrittenText(c));
      BlockIsCopied(toks[1..], After(cx, t), text[|t.source|..]);
      TrimRightOver(Written(t), w);
      BlankIsCopied(w);
      assert KeepsShape(b) <==> t != Plain(";") && !JoinsDashes(b) && KeepsShape(c);
      if Verbatim(t) {
        VerbatimBlock(toks, cx, text, c);
      } else {
        DroppedWritesSpace(t);
        NoDashNoJoin(b);
        if Blank(w) {
          BlankIsCopied(Written(t));
        } else {
          SpaceIsCopied(Written(t), r);
        }
      }
    } else {
      assert TrimRight("") == "" && FirstBlock(toks) == [];
    }
  }

  lemma VerbatimBlock(toks: seq<Token>, cx: Context, text: string, c: seq<Token>)
    requires Lexes(toks, cx, text) && toks != [] && Verbatim(toks[0]) && FirstBlock(toks) == [toks[0]] + c
    ensures CopiedFrom(Normal, TrimRight(Written(toks[0]) + WrittenText(c)))
       <==> toks[0] != Plain(";") && !JoinsDashes(FirstBlock(toks)) && CopiedFrom(Normal, TrimRight(WrittenText(c)))
  {
    var t, b, w := toks[0], FirstBlock(toks), WrittenText(c);
    assert Written(t) == t.source && b[1..] == c;
    hide *;
    var r := TrimRight(w);
    FirstFits(toks, cx, text);
    VerbatimFits(t, cx, text);
    CopiedBehind(toks, cx, text, b, r);
    TrimRightOver(t.source, w);
    BlankIsCopied(w);
    if Blank(w) {
      NothingJoined(b);
      VerbatimShape(t, cx.delimiter, text);
      if Blank(t.source) {
        BlankIsCopied(t.source);
        BlankIsNoSemicolon(t);
      } else {
        LexemeEnds(t, cx.delimiter, text);
        assert t.source + r == t.source;
      }
    }
  }

  lemma BlankIsNoSemicolon(t: Token)
    requires Blank(t.source)
    ensures t != Plain(";")
  {
    assert !IsSpace(";"[0]);
  }

  // ---- one statement ----

  lemma {:induction false} VerbatimKeepsShape(toks: seq<Token>, cx: Context, text: string)
    requires Lexes(toks, cx, text) && AllVerbatim(toks) && cx.delimiter == ";"
    ensures KeepsShape(toks) && FirstBlock(toks) == toks && WrittenText(toks) == text
    decreases |toks|
  {
    hide IsDirective, Lexeme, Blank;
    if toks != [] {
      var t := toks[0];
      VerbatimFits(t, cx, text);
      NoSemicolon(t, text);
      assert Written(t) == t.source && text == t.source + text[|t.source|..];
      assert AllVerbatim(toks[1..]);
      VerbatimKeepsShape(toks[1..], After(cx, t), text[|t.source|..]);
      assert |toks| > 2 ==> Verbatim(toks[2]) && toks[2..][0] == toks[2];
    }
  }

  lemma NoSemicolon(t: Token, text: string)
    requires Verbatim(t) && Lexeme(t, ";", text)
    ensures t != Plain(";") && t.source <= text
  {
    assert t == Plain(";") ==> ";" <= text;
  }

  lemma NoDirectiveFirst(toks: seq<Token>, s: string)
    requires IsReading(toks, s) && AllVerbatim(toks) && s != ""
    ensures !IsDirective(FirstLine(s))
  {
    hide IsDirective, Lexeme;
  }

  lemma TrimmedOnTheRight(s: string)
    requires s != "" && Trimmed(s)
    ensures TrimRight(s) == s
  {
  }

  /** Main result: the splitter maps a statement to itself exactly when the scan of its bytes says so. */
  lemma ResplitsExactly(s: string)
    ensures SplitSpec(s) == Success([s]) <==> Stable(s)
  {
    if Stable(s) {
      StableSplitsToItself(s);
    }
    if SplitSpec(s) == Success([s]) {
      hide SplitSpec, IsDirective, TrimRight, CopiedFrom, KeepsShape;
      var toks := FixpointReadsVerbatim(s);
      NoDirectiveFirst(toks, s);
      VerbatimKeepsShape(toks, ScriptStart, s);
      BlockIsCopied(toks, ScriptStart, s);
      TrimmedOnTheRight(s);
    }
  }

  // ---- the statements of a script ----

  /** The lexemes of a script, cut at the delimiters. */
  function Blocks(toks: seq<Token>): (bs: seq<seq<Token>>)
    ensures bs != []
    decreases |toks|
  {
    var b := FirstBlock(toks);
    if |b| == |toks| then [b] else [b] + Blocks(toks[|b| + 1..])
  }

  function KeptTexts(bs: seq<seq<Token>>): seq<string> {
    if bs == [] then [] else Kept(WrittenText(bs[0])) + KeptTexts(bs[1..])
  }

  /** The statement that the lexemes of one block leave. */
  function StatementOf(b: seq<Token>): string {
    TrimSpace(WrittenText(b))
  }

  /** What a block's lexemes must satisfy for its statement to be mapped to itself. */
  predicate ResplitsBlock(b: seq<Token>) {
    KeepsShape(b) && !IsDirective(FirstLine(StatementOf(b)))
  }

  lemma {:induction false} BlockEnds(toks: seq<Token>, pending: string)
    ensures var n := |FirstBlock(toks)|;
            && (n < |toks| ==> toks[n].Cut?)
            && Statements(toks, pending)
               == Kept(pending + WrittenText(FirstBlock(toks))) + if n == |toks| then [] else Statements(toks[n + 1..], "")
    decreases |toks|
  {
    hide Kept;
    if toks == [] || toks[0].Cut? {
      assert pending + "" == pending;
    } else {
      var w := WrittenText(FirstBlock(toks[1..]));
      BlockEnds(toks[1..], pending + Written(toks[0]));
      var c := BlockGoesOn(toks);
      assert pending + Written(toks[0]) + w == pending + (Written(toks[0]) + w);
      assert |c| < |toks[1..]| ==> toks[1..][|c| + 1..] == toks[|c| + 2..];
    }
  }

  lemma {:induction false} StatementsAreBlocks(toks: seq<Token>)
    ensures Statements(toks, "") == KeptTexts(Blocks(toks))
    decreases |toks|
  {
    hide Kept;
    var b := FirstBlock(toks);
    BlockEnds(toks, "");
    assert "" + WrittenText(b) == WrittenText(b);
    if |b| < |toks| {
      var rest := Blocks(toks[|b| + 1..]);
      StatementsAreBlocks(toks[|b| + 1..]);
      assert ([b] + rest)[1..] == rest;
    }
  }

  lemma {:induction false} ReadingBehind(toks: seq<Token>, cx: Context, text: string, n: nat) returns (next: Context, more: string)
    requires Lexes(toks, cx, text) && n <= |toks|
    ensures Lexes(toks[n..], next, more)
    decreases n
  {
    hide IsDirective, Lexeme;
    next, more := cx, text;
    if n > 0 {
      next, more := ReadingBehind(toks[1..], After(cx, toks[0]), text[|toks[0].source|..], n - 1);
      assert toks[1..][n - 1..] == toks[n..];
    } else {
      assert toks[0..] == toks;
    }
  }

  /** Trimming on the left as well changes nothing for the scan. */
  lemma StatementIsCopied(w: string)
    ensures CopiedFrom(Normal, TrimSpace(w)) <==> CopiedFrom(Normal, TrimRight(w))
  {
    var lead, tail := TrimParts(w);
    var s := TrimSpace(w);
    BlankIsCopied(w);
    TrimRightOver(lead + s, tail);
    if s != "" {
      assert !Blank(s) by { assert !IsSpace(s[0]); }
      TrimRightOver(lead, s);
      TrimmedOnTheRight(s);
      SpaceIsCopied(lead, s);
    }
  }

  lemma {:induction false} BlockResplits(toks: seq<Token>, cx: Context, text: string, b: seq<Token>)
    requires Lexes(toks, cx, text) && b in Blocks(toks) && StatementOf(b) != ""
    ensures SplitSpec(StatementOf(b)) == Success([StatementOf(b)]) <==> ResplitsBlock(b)
    decreases |toks|
  {
    hide *;
    var n := |FirstBlock(toks)|;
    var first := BlocksAre(toks);
    if b == first {
      BlockIsCopied(toks, cx, text);
      StableBlock(b);
    } else {
      var next, more := ReadingBehind(toks, cx, text, n + 1);
      BlockResplits(toks[n + 1..], next, more, b);
    }
  }

  lemma BlocksAre(toks: seq<Token>) returns (first: seq<Token>)
    ensures first == FirstBlock(toks) && first in Blocks(toks) && |first| <= |toks|
    ensures forall b :: b in Blocks(toks) && b != first ==> |first| < |toks| && b in Blocks(toks[|first| + 1..])
  {
    first := FirstBlock(toks);
  }

  lemma StableBlock(b: seq<Token>)
    requires StatementOf(b) != ""
    requires CopiedFrom(Normal, TrimRight(WrittenText(b))) <==> KeepsShape(b)
    ensures SplitSpec(StatementOf(b)) == Success([StatementOf(b)]) <==> ResplitsBlock(b)
  {
    hide KeepsShape, CopiedFrom, IsDirective, SplitSpec;
    TrimShortens(WrittenText(b));
    StatementIsCopied(WrittenText(b));
    ResplitsExactly(StatementOf(b));
  }

  /** The returned statements, as the blocks that leave one. */
  lemma {:induction false} KeptIn(bs: seq<seq<Token>>, s: string)
    ensures s in KeptTexts(bs) <==> exists b :: b in bs && StatementOf(b) == s && s != ""
    decreases |bs|
  {
    if bs != [] {
      var rest := bs[1..];
      KeptIn(rest, s);
      assert s in Kept(WrittenText(bs[0])) <==> s == StatementOf(bs[0]) && s != "";
      assert forall b :: b in bs <==> b == bs[0] || b in rest;
    }
  }

  lemma ReadingLexes(toks: seq<Token>, script: string)
    requires IsReading(toks, script)
    ensures Lexes(toks, ScriptStart, script)
  {
  }

  /**
   Main result, on the lexemes of any script: a returned statement splits to itself exactly when its
   block has no semicolon as statement text, joins no dashes, and does not start like a DELIMITER line.
   */
  lemma ScriptResplits(script: string, toks: seq<Token>)
    requires IsReading(toks, script)
    ensures SplitSpec(script) == Success(KeptTexts(Blocks(toks)))
    ensures forall b :: b in Blocks(toks) && StatementOf(b) != "" ==>
              (SplitSpec(StatementOf(b)) == Success([StatementOf(b)]) <==> ResplitsBlock(b))
    ensures (forall s :: s in KeptTexts(Blocks(toks)) ==> SplitSpec(s) == Success([s]))
       <==> (forall b :: b in Blocks(toks) && StatementOf(b) != "" ==> ResplitsBlock(b))
  {
    hide *;
    ResultIsTheWrittenText(script, toks);
    StatementsAreBlocks(toks);
    ReadingLexes(toks, script);
    forall b | b in Blocks(toks) && StatementOf(b) != ""
      ensures SplitSpec(StatementOf(b)) == Success([StatementOf(b)]) <==> ResplitsBlock(b)
    {
      BlockResplits(toks, ScriptStart, script, b);
    }
    forall s ensures s in KeptTexts(Blocks(toks)) <==> exists b :: b in Blocks(toks) && StatementOf(b) == s && s != "" {
      KeptIn(Blocks(toks), s);
    }
  }

  // ---- printed statements ----

  /** The first bytes are statement text: no delimiter, dropped comment or DELIMITER line starts here. */
  predicate StartsAsText(s: string) {
    && s != "" && s[0] != ';' && !OpensLineComment(s) && ("/*" <= s ==> OpensKeptComment(s))
    && !IsDirective(FirstLine(s))
  }

  lemma StableStartsAsText(s: string)
    requires Stable(s)
    ensures StartsAsText(s)
  {
  }

  lemma CutIsRead(toks: seq<Token>, cx: Context, tail: string)
    requires Lexes(toks, cx, tail) && cx.delimiter == ";" && !Blank(cx.pending) && tail != "" && tail[0] == ';'
    ensures toks != [] && toks[0] == Cut(";") && Lexes(toks[1..], Context(";", "", false), tail[1..])
  {
    hide IsDirective;
    FitsInside(toks[0], cx, tail);
    assert ";" <= tail;
  }

  /** A lexeme that the statement text contains is one there as well. */
  lemma LexemeInside(t: Token, text: string, tail: string)
    requires Verbatim(t) && Lexeme(t, ";", text + tail) && |t.source| <= |text|
    ensures Lexeme(t, ";", text) && StaysWhole(t, text[|t.source|..]) && text == t.source + text[|t.source|..]
  {
    var all := text + tail;
    var s := t.source;
    assert forall i :: 0 <= i < |text| ==> all[i] == text[i];
    assert |text| > 1 ==> text[..2] == all[..2];
    assert s == text[..|s|] && text == s + text[|s|..];
    assert text[0] == ';' ==> ";" <= all;
  }

  /** A dropped comment does not start with the space it leaves. */
  lemma DroppedShows(t: Token, delimiter: string, text: string)
    requires (t.Dropped? || t.Note?) && Lexeme(t, delimiter, text)
    ensures !IsSpace(text[0])
  {
    if t.Note? { NoteIsLongEnough(t.source, text); }
    assert t.source[0] == text[0];
    assert t.Dropped? ==> t.source[0] == '/';
  }

  /** A lexeme of the text that is written out in full lies inside that text. */
  lemma VerbatimIsInside(t: Token, delimiter: string, all: string, text: string, w: string, blank: string)
    requires Verbatim(t) && Lexeme(t, delimiter, all) && text != "" && Blank(blank)
    requires t.source + w == text + blank
    ensures |t.source| <= |text| && w == text[|t.source|..] + blank
  {
    var s := t.source;
    if t.Hint? { assert s[|s| - 1] == s[2..][|s| - 3]; }
    assert forall i :: |text| <= i < |text + blank| ==> IsSpace((text + blank)[i]);
    assert s[|s| - 1] == (s + w)[|s| - 1] && (s + w)[|s|..] == w;
    assert |s| <= |text|;
    assert (text + blank)[|s|..] == text[|s|..] + blank;
  }

  /** A statement that comes back is read lexeme by lexeme, each of them inside it, up to its own delimiter. */
  lemma {:induction false} StatementIsRead(toks: seq<Token>, cx: Context, text: string, blank: string, tail: string) returns (n: nat)
    requires Lexes(toks, cx, text + tail) && cx.delimiter == ";" && tail != "" && tail[0] == ';'
    requires WrittenText(FirstBlock(toks)) == text + blank && Blank(blank)
    requires !Blank(cx.pending) || (text != "" && !IsSpace(text[0]) && Verbatim(toks[0]))
    ensures CopiedFrom(Normal, text) && n == |FirstBlock(toks)| < |toks|
    ensures Lexes(toks[n + 1..], Context(";", "", false), tail[1..])
    decreases |text|
  {
    hide Lexes, FirstBlock, WrittenText, CopiedFrom, StaysWhole, Blank, Verbatim;
    if text == "" {
      assert text + tail == tail;
      StatementEnds(toks, cx, tail);
      n := 0;
    } else {
      var rest, cx1 := FirstIsInside(toks, cx, text, blank, tail);
      var c := BlockGoesOn(toks);
      var k := StatementIsRead(toks[1..], cx1, rest, blank, tail);
      n := k + 1;
      CopiedOver(toks[0], rest);
      assert toks[1..][k + 1..] == toks[n + 1..];
    }
  }

  lemma StatementEnds(toks: seq<Token>, cx: Context, tail: string)
    requires Lexes(toks, cx, tail) && cx.delimiter == ";" && !Blank(cx.pending) && tail != "" && tail[0] == ';'
    ensures CopiedFrom(Normal, "") && |FirstBlock(toks)| == 0 < |toks|
    ensures Lexes(toks[1..], Context(";", "", false), tail[1..])
  {
    CutIsRead(toks, cx, tail);
  }

  /** The first lexeme is the start of the text, and the rest of the text is written by those behind it. */
  predicate Inside(toks: seq<Token>, text: string, rest: string, blank: string) {
    && toks != [] && !toks[0].Cut? && text == toks[0].source + rest && StaysWhole(toks[0], rest)
    && WrittenText(FirstBlock(toks[1..])) == rest + blank
  }

  /** The lexemes behind the first one read on inside a statement. */
  predicate ReadsOn(toks: seq<Token>, cx: Context, text: string) {
    toks != [] && Lexes(toks[1..], cx, text) && cx.delimiter == ";" && !Blank(cx.pending)
  }

  lemma FirstIsInside(toks: seq<Token>, cx: Context, text: string, blank: string, tail: string)
      returns (rest: string, cx1: Context)
    requires Lexes(toks, cx, text + tail) && cx.delimiter == ";" && tail != "" && tail[0] == ';' && text != ""
    requires WrittenText(FirstBlock(toks)) == text + blank && Blank(blank)
    requires !Blank(cx.pending) || (!IsSpace(text[0]) && Verbatim(toks[0]))
    ensures Inside(toks, text, rest, blank) && |rest| < |text| && ReadsOn(toks, cx1, rest + tail)
  {
    hide IsDirective, Lexes, Lexeme, Blank, StaysWhole, FirstBlock, WrittenText;
    var all := text + tail;
    BlockStarts(toks);
    var t := toks[0];
    FirstStaysVerbatim(toks, cx, all, text[0]);
    FirstFits(toks, cx, all);
    VerbatimFits(t, cx, all);
    VerbatimShape(t, cx.delimiter, all);
    var c := BlockGoesOn(toks);
    VerbatimIsInside(t, ";", all, text, WrittenText(c), blank);
    LexemeInside(t, text, tail);
    rest := text[|t.source|..];
    var more;
    cx1, more := Onwards(toks, cx, all);
    assert all == t.source + (rest + tail) && all[|t.source|..] == more;
  }

  lemma BlockStarts(toks: seq<Token>)
    ensures WrittenText(FirstBlock(toks)) != "" ==> toks != [] && !toks[0].Cut?
  {
  }

  lemma FirstStaysVerbatim(toks: seq<Token>, cx: Context, text: string, first: char)
    requires Lexes(toks, cx, text) && WrittenText(FirstBlock(toks)) != "" && text != ""
    requires first == text[0] == WrittenText(FirstBlock(toks))[0]
    requires !Blank(cx.pending) || (toks != [] && Verbatim(toks[0]))
    ensures Verbatim(toks[0])
  {
    hide IsDirective, Lexes, Lexeme, FirstBlock, WrittenText;
    BlockStarts(toks);
    if !Blank(cx.pending) {
      WrittenNext(toks, cx, text);
      if !Verbatim(toks[0]) {
        var _, _ := Onwards(toks, cx, text);
        DroppedShows(toks[0], cx.delimiter, text);
      }
    }
  }

  lemma TextStaysText(s: string, tail: string)
    requires StartsAsText(s) && tail != "" && tail[0] == ';'
    ensures (s + tail)[0] == s[0] != ';' && !OpensLineComment(s + tail)
    ensures "/*" <= s + tail ==> OpensKeptComment(s + tail)
  {
    hide IsDirective;
    var all := s + tail;
    assert forall i :: 0 <= i < |s| ==> all[i] == s[i];
    assert |s| < |all| && all[|s|] == ';';
    if |all| > 2 { assert all[..2] == [all[0], all[1]]; }
    if |s| > 2 { assert s[..2] == all[..2]; }
    if "/*" <= all { assert all[0] == '/' && all[1] == '*'; }
  }

  lemma StartIsVerbatim(toks: seq<Token>, cx: Context, s: string, rest: string)
    requires Lexes(toks, cx, s + (";\n" + rest)) && cx.delimiter == ";" && StartsAsText(s) && Trimmed(s)
    ensures toks != [] && Verbatim(toks[0])
  {
    hide IsDirective, OpensLineComment, OpensKeptComment;
    var all := s + (";\n" + rest);
    TextStaysText(s, ";\n" + rest);
    assert !IsDirective(FirstLine(all)) by { NoNewDirective(s, rest); }
    assert Fits(toks[0], cx, all);
    SemicolonFirst(all);
  }

  lemma SemicolonFirst(text: string)
    requires text != ""
    ensures ";" <= text <==> text[0] == ';'
  {
  }

  /** The newline behind a delimiter, and then the next statement. */
  lemma NewlineIsRead(toks: seq<Token>, rest: string)
    requires Lexes(toks, Context(";", "", false), "\n" + rest)
    ensures toks != [] && !toks[0].Cut? && Written(toks[0]) == "\n"
    ensures Lexes(toks[1..], Context(";", "\n", true), rest)
  {
    hide IsDirective, Lexeme, Lexes;
    var text := "\n" + rest;
    assert text[1..] == rest && "" + "\n" == "\n";
    ReadingUsesText(toks, Context(";", "", false), text);
    Uncons(toks, Context(";", "", false), text);
    NewlineLexeme(toks[0], rest);
  }

  lemma NewlineLexeme(t: Token, rest: string)
    requires Lexeme(t, ";", "\n" + rest)
    ensures t == Plain("\n")
  {
    var text := "\n" + rest;
    assert text[0] == '\n';
    if |text| > 2 { assert text[..2][0] == text[0]; }
    assert !OpensLineComment(text) && !("/*" <= text) && !(";" <= text);
    assert t.source[0] == text[0];
  }

  predicate TextsOnly(statements: seq<string>) {
    forall s :: s in statements ==> StartsAsText(s) && Trimmed(s)
  }

  predicate AllCopied(statements: seq<string>) {
    forall s :: s in statements ==> CopiedFrom(Normal, s)
  }

  lemma FirstText(statements: seq<string>)
    requires statements != [] && TextsOnly(statements)
    ensures StartsAsText(statements[0]) && Trimmed(statements[0]) && TextsOnly(statements[1..])
  {
    hide StartsAsText, Trimmed;
  }

  lemma FirstCopied(statements: seq<string>)
    requires statements != [] && CopiedFrom(Normal, statements[0]) && AllCopied(statements[1..])
    ensures AllCopied(statements)
  {
    hide CopiedFrom;
    assert statements == [statements[0]] + statements[1..];
  }

  lemma {:induction false} PrintedAreCopied(toks: seq<Token>, pending: string, statements: seq<string>)
    requires Lexes(toks, Context(";", pending, true), Print(statements)) && Blank(pending)
    requires Statements(toks, pending) == statements && TextsOnly(statements)
    ensures AllCopied(statements)
    decreases |statements|
  {
    if statements != [] {
      hide *;
      PrintsFirst(statements);
      FirstText(statements);
      var behind := FirstPrinted(toks, pending, statements[0], Print(statements[1..]), statements);
      PrintedAreCopied(behind, "\n", statements[1..]);
      FirstCopied(statements);
    }
  }

  lemma PrintsFirst(statements: seq<string>)
    requires statements != []
    ensures Print(statements) == statements[0] + (";\n" + Print(statements[1..])) && Blank("\n")
  {
  }

  lemma MarginsAgree(p: string, w: string, lead: string, s: string, blank: string)
    requires p + w == lead + s + blank && Blank(p) && Blank(lead)
    requires w != "" && !IsSpace(w[0]) && s != "" && !IsSpace(s[0])
    ensures w == s + blank
  {
    var all := p + w;
    assert all[|p|] == w[0] && all[|lead|] == s[0];
    assert forall i :: 0 <= i < |p| ==> IsSpace(all[i]);
    assert forall i :: 0 <= i < |lead| ==> IsSpace(all[i]);
    assert all[|p|..] == w && all[|lead|..] == s + blank;
  }

  /** The first block leaves the first statement. */
  lemma FirstIsKept(toks: seq<Token>, cx: Context, s: string, tail: string, statements: seq<string>) returns (blank: string)
    requires toks != [] && Verbatim(toks[0]) && Lexeme(toks[0], ";", s + tail) && Blank(cx.pending)
    requires s != "" && Trimmed(s) && statements != [] && statements[0] == s
    requires Statements(toks, cx.pending) == statements
    ensures WrittenText(FirstBlock(toks)) == s + blank && Blank(blank)
    ensures |FirstBlock(toks)| < |toks| ==> Statements(toks[|FirstBlock(toks)| + 1..], "") == statements[1..]
  {
    hide Lexeme, FirstBlock, WrittenText, Statements, TrimSpace, Blank;
    BlockEnds(toks, cx.pending);
    var c := BlockGoesOn(toks);
    assert toks[0].source != "" && toks[0].source[0] == s[0] by { SameStart(toks[0], s, tail); }
    var w := WrittenText(FirstBlock(toks));
    assert w[0] == s[0];
    var lead;
    lead, blank := TrimParts(cx.pending + w);
    FirstShows(w);
    NowNotBlank(cx.pending, w);
    MarginsAgree(cx.pending, w, lead, s, blank);
  }

  lemma FirstShows(w: string)
    requires w != "" && !IsSpace(w[0])
    ensures !Blank(w)
  {
  }

  lemma SameStart(t: Token, s: string, tail: string)
    requires Verbatim(t) && Lexeme(t, ";", s + tail) && s != ""
    ensures t.source != "" && t.source[0] == s[0]
  {
  }

  lemma TextIsThere(s: string)
    requires StartsAsText(s) && Trimmed(s)
    ensures s != "" && !IsSpace(s[0])
  {
  }

  lemma FirstPrinted(toks: seq<Token>, pending: string, s: string, rest: string, statements: seq<string>) returns (behind: seq<Token>)
    requires Lexes(toks, Context(";", pending, true), s + (";\n" + rest)) && Blank(pending)
    requires Statements(toks, pending) == statements && statements != [] && statements[0] == s
    requires StartsAsText(s) && Trimmed(s)
    ensures CopiedFrom(Normal, s)
    ensures Lexes(behind, Context(";", "\n", true), rest) && Statements(behind, "\n") == statements[1..]
  {
    hide *;
    var cx, tail := Context(";", pending, true), ";\n" + rest;
    TextIsThere(s);
    StartIsVerbatim(toks, cx, s, rest);
    FirstFits(toks, cx, s + tail);
    VerbatimFits(toks[0], cx, s + tail);
    BlockEnds(toks, pending);
    var blank := FirstIsKept(toks, cx, s, tail, statements);
    var n := StatementIsRead(toks, cx, s, blank, tail);
    assert tail[1..] == "\n" + rest;
    behind := NextStatement(toks[n + 1..], rest);
  }

  lemma NextStatement(toks: seq<Token>, rest: string) returns (behind: seq<Token>)
    requires Lexes(toks, Context(";", "", false), "\n" + rest)
    ensures Lexes(behind, Context(";", "\n", true), rest) && Statements(toks, "") == Statements(behind, "\n")
  {
    hide IsDirective, Lexes, Lexeme;
    NewlineIsRead(toks, rest);
    behind := toks[1..];
    assert "" + "\n" == "\n";
  }

  /**
   Main result: splitting inverts printing on a list of statements that start as statement text
   exactly when the splitter maps each of them to itself.
   */
  lemma PrintSplitExactly(statements: seq<string>)
    ensures (forall s :: s in statements ==> Stable(s))
       <==> SplitSpec(Print(statements)) == Success(statements) && forall s :: s in statements ==> StartsAsText(s)
  {
    hide *;
    if forall s :: s in statements ==> Stable(s) {
      forall s | s in statements ensures SplitSpec(s) == Success([s]) && StartsAsText(s) {
        ResplitsExactly(s);
        StableStartsAsText(s);
      }
      PrintSplitRoundTrip(statements);
    }
    if SplitSpec(Print(statements)) == Success(statements) && forall s :: s in statements ==> StartsAsText(s) {
      PrintedIsRead(statements);
    }
  }

  lemma PrintedIsRead(statements: seq<string>)
    requires SplitSpec(Print(statements)) == Success(statements) && forall s :: s in statements ==> StartsAsText(s)
    ensures forall s :: s in statements ==> Stable(s)
  {
    hide SplitSpec, Lexes, Statements, Print, IsDirective, CopiedFrom, OpensLineComment, OpensKeptComment, FirstLine;
    var script := Print(statements);
    var toks := AcceptedScriptHasReading(script);
    ResultIsTheWrittenText(script, toks);
    StatementsAreTrimmed(toks, "");
    PrintedAreCopied(toks, "", statements);
  }
}
