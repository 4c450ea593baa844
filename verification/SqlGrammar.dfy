/**
 What a script means, stated without modes: a grammar of whole lexemes. Every byte of a script
 belongs to exactly one lexeme, and the statements are the lexemes' text cut at the delimiters.
 */
module SqlGrammar {
  import opened Text
  import opened SqlScript
  import opened SqlOnePass

  datatype Token =
    | Plain(source: string)      // one byte of statement text
    | Quoted(source: string)     // a complete quoted string, quotes included
    | Hint(source: string)       // a complete comment inside by "/*!" or "/*+"
    | Dropped(source: string)    // any other complete block comment
    | Note(source: string)       // a line comment, with its newline unless the script ends first
    | Cut(source: string)        // the delimiter in force
    | Directive(source: string)  // a DELIMITER line

  /** The statement text a lexeme leaves behind. */
  function Written(t: Token): string {
    match t
    case Plain(s) => s
    case Quoted(s) => s
    case Hint(s) => s
    case Dropped(_) => " "
    case Note(s) => if EndsLine(s) then "\n" else ""
    case Cut(_) => ""
    case Directive(_) => ""
  }

  /** Inside quotes: escaped bytes, doubled quotes and any other byte. */
  predicate QuotedBody(q: char, body: string)
    decreases |body|
  {
    if body == "" then true
    else if body[0] == '\\' || body[0] == q then
      |body| > 1 && (body[0] == q ==> body[1] == q) && QuotedBody(q, body[2..])
    else QuotedBody(q, body[1..])
  }

  /** `text` ends with the first "*" + "/" it contains. */
  predicate ClosesAtEnd(text: string) {
    && |text| >= 2 && text[|text| - 2] == '*' && text[|text| - 1] == '/'
    && forall i :: 0 <= i < |text| - 2 ==> !(text[i] == '*' && text[i + 1] == '/')
  }

  predicate IsLine(text: string) {
    forall i :: 0 <= i < |text| - 1 ==> text[i] != '\n'
  }

  /** The shapes of the lexemes, given the delimiter in force and the text that starts here. */
  predicate Lexeme(t: Token, delimiter: string, rest: string) {
    var s := t.source;
    && s != "" && s <= rest
    && match t
       case Cut(_) => s == delimiter
       case Note(_) =>
         !(delimiter <= rest) && OpensLineComment(rest) && IsLine(s) && (EndsLine(s) || s == rest)
       case Dropped(_) =>
         !(delimiter <= rest) && "/*" <= s && !OpensKeptComment(rest) && ClosesAtEnd(s[2..])
       case Hint(_) =>
         !(delimiter <= rest) && "/*" <= s && OpensKeptComment(rest) && ClosesAtEnd(s[2..])
       case Quoted(_) =>
         && !(delimiter <= rest) && |s| > 1 && IsQuote(s[0]) && s[|s| - 1] == s[0]
         && QuotedBody(s[0], s[1..|s| - 1])
         && (|s| < |rest| ==> rest[|s|] != s[0])
       case Plain(_) =>
         && !(delimiter <= rest) && |s| == 1 && !IsQuote(s[0])
         && !OpensLineComment(rest) && !("/*" <= rest)
       case Directive(_) => false
  }

  /** What a lexeme's meaning depends on besides its own text. */
  datatype Context = Context(delimiter: string, pending: string, lineStart: bool)

  /** A DELIMITER line is a directive exactly at a line start between statements. */
  predicate Fits(t: Token, cx: Context, rest: string) {
    if cx.lineStart && Blank(cx.pending) && IsDirective(FirstLine(rest)) then
      t == Directive(FirstLine(rest))
    else
      Lexeme(t, cx.delimiter, rest)
  }

  function After(cx: Context, t: Token): Context
    requires t.Directive? ==> IsDirective(t.source)
  {
    Context(if t.Directive? then DirectiveDelimiter(t.source) else cx.delimiter,
            if t.Cut? then "" else cx.pending + Written(t),
            EndsLine(t.source))
  }

  /** `toks` is a reading of the whole of `script`: consecutive lexemes that use it up. */
  predicate Lexes(toks: seq<Token>, cx: Context, script: string)
    decreases |toks|
  {
    if toks == [] then script == ""
    else
      && Fits(toks[0], cx, script)
      && (toks[0].Directive? ==> IsDirective(toks[0].source))
      && |toks[0].source| <= |script|
      && Lexes(toks[1..], After(cx, toks[0]), script[|toks[0].source|..])
  }

  /** The written text, cut at the delimiters, trimmed, without empty statements. */
  function Statements(toks: seq<Token>, pending: string): seq<string> {
    if toks == [] then Kept(pending)
    else if toks[0].Cut? then Kept(pending) + Statements(toks[1..], "")
    else Statements(toks[1..], pending + Written(toks[0]))
  }

  const ScriptStart := Context(";", "", true)

  function ContextOf(st: Lexer, lineStart: bool): Context {
    Context(st.delimiter, st.pending, lineStart)
  }

  function Source(toks: seq<Token>): string {
    if toks == [] then "" else toks[0].source + Source(toks[1..])
  }

  // ---- a lexeme, run by the lexer ----

  lemma {:induction false} RunNote(st: Lexer, lineStart: bool, body: string, more: string)
    requires st.mode == InLineComment && WellFormed(st)
    requires IsLine(body) && (EndsLine(body) || more == "")
    ensures EndsLine(body) ==>
              OnePass(st, lineStart, body + more) == OnePass(st.(mode := Normal, pending := st.pending + "\n"), true, more)
    ensures !EndsLine(body) ==> OnePass(st, lineStart, body + more) == st
    decreases |body|
  {
    var all := body + more;
    if body != "" {
      assert all[1..] == body[1..] + more;
      assert all[0] == body[0];
      if body[0] != '\n' {
        RunNote(st, false, body[1..], more);
      } else {
        assert body == "\n" && all[1..] == more;
      }
    }
  }

  /** The state behind the body of a block comment. */
  function BehindBlock(st: Lexer, body: string): Lexer
    requires st.mode.InBlockComment?
  {
    st.(mode := Normal, pending := st.pending + if st.mode.keep then body else " ")
  }

  /** One turn inside a block comment that does not close it. */
  lemma BlockTurn(st: Lexer, lineStart: bool, body: string, more: string)
      returns (next: Lexer, nextStart: bool, tail: string)
    requires st.mode.InBlockComment? && WellFormed(st) && ClosesAtEnd(body) && |body| > 2
    ensures next.mode.InBlockComment? && WellFormed(next) && ClosesAtEnd(tail) && |tail| < |body|
    ensures BehindBlock(next, tail) == BehindBlock(st, body)
    ensures OnePass(st, lineStart, body + more) == OnePass(next, nextStart, tail + more)
  {
    var all := body + more;
    ClosesLater(body);
    assert all[0] == body[0] && all[1] == body[1] && !("*/" <= all);
    assert all[1..] == body[1..] + more;
    next, nextStart, tail := if st.mode.keep then st.(pending := st.pending + [body[0]]) else st, all[0] == '\n', body[1..];
    OneStep(st, lineStart, all, next, 1);
    assert st.pending + [body[0]] + body[1..] == st.pending + body;
  }

  lemma BlockCloses(st: Lexer, lineStart: bool, more: string)
    requires st.mode.InBlockComment? && WellFormed(st)
    ensures OnePass(st, lineStart, "*/" + more) == OnePass(BehindBlock(st, "*/"), false, more)
  {
    var all := "*/" + more;
    assert "*/" <= all && all[2..] == more && all[1] == '/';
  }

  lemma {:induction false} RunBlock(st: Lexer, lineStart: bool, body: string, more: string)
    requires st.mode.InBlockComment? && WellFormed(st) && ClosesAtEnd(body)
    ensures OnePass(st, lineStart, body + more) == OnePass(BehindBlock(st, body), false, more)
    decreases |body|
  {
    if |body| == 2 {
      assert body == "*/";
      BlockCloses(st, lineStart, more);
    } else {
      var next, nextStart, tail := BlockTurn(st, lineStart, body, more);
      hide OnePass, ClosesAtEnd, WellFormed, BehindBlock;
      RunBlock(next, nextStart, tail, more);
    }
  }

  lemma ClosesLater(body: string)
    requires ClosesAtEnd(body) && |body| > 2
    ensures !(body[0] == '*' && body[1] == '/')
    ensures ClosesAtEnd(body[1..])
  {
    var tail := body[1..];
    assert forall i {:trigger tail[i]} :: 0 <= i < |tail| ==> tail[i] == body[i + 1];
  }

  /** Bytes that one turn inside quotes takes. */
  function QuoteTurn(q: char, body: string): nat
    requires body != ""
  {
    if body[0] == '\\' || body[0] == q then 2 else 1
  }

  lemma QuotedStep(st: Lexer, q: char, body: string, rest: string)
    requires st.mode == InQuote(q) && WellFormed(st) && body != "" && QuotedBody(q, body)
    ensures var n := QuoteTurn(q, body);
            && n <= |body| && QuotedBody(q, body[n..])
            && Step(st, body + rest) == (st.(pending := st.pending + body[..n]), n)
  {
    var n, all := QuoteTurn(q, body), body + rest;
    assert all[..n] == body[..n] && all[0] == body[0] && all[n - 1] == body[n - 1];
    assert n == 1 ==> body[..n] == [body[0]];
  }

  lemma QuotedTurn(st: Lexer, lineStart: bool, q: char, body: string, rest: string)
      returns (next: Lexer, nextStart: bool, tail: string)
    requires st.mode == InQuote(q) && WellFormed(st) && body != "" && QuotedBody(q, body)
    ensures |tail| < |body| && QuotedBody(q, tail) && WellFormed(next)
    ensures next == st.(pending := next.pending) && next.pending + tail == st.pending + body
    ensures OnePass(st, lineStart, body + rest) == OnePass(next, nextStart, tail + rest)
  {
    QuotedStep(st, q, body, rest);
    hide Step, QuotedBody, IsDirective;
    var n, all := QuoteTurn(q, body), body + rest;
    next, nextStart, tail := st.(pending := st.pending + body[..n]), all[n - 1] == '\n', body[n..];
    OneStep(st, lineStart, all, next, n);
    assert all[n..] == tail + rest;
    assert st.pending + body[..n] + body[n..] == st.pending + body;
  }

  /** The closing quotation mark. */
  lemma QuoteCloses(st: Lexer, lineStart: bool, q: char, more: string)
    requires st.mode == InQuote(q) && WellFormed(st) && (more != "" ==> more[0] != q)
    ensures OnePass(st, lineStart, [q] + more) == OnePass(st.(mode := Normal, pending := st.pending + [q]), false, more)
  {
    var all := [q] + more;
    assert all[1..] == more;
    OneStep(st, lineStart, all, st.(mode := Normal, pending := st.pending + [q]), 1);
  }

  lemma {:induction false} RunQuoted(st: Lexer, lineStart: bool, q: char, body: string, more: string)
    requires st.mode == InQuote(q) && WellFormed(st) && QuotedBody(q, body)
    requires more != "" ==> more[0] != q
    ensures OnePass(st, lineStart, body + [q] + more)
         == OnePass(st.(mode := Normal, pending := st.pending + body + [q]), false, more)
    decreases |body|
  {
    hide *;
    assert body + [q] + more == body + ([q] + more);
    if body == "" {
      QuoteCloses(st, lineStart, q, more);
      assert "" + ([q] + more) == [q] + more && st.pending + body == st.pending;
    } else {
      var next, nextStart, tail := QuotedTurn(st, lineStart, q, body, [q] + more);
      RunQuoted(next, nextStart, q, tail, more);
      assert tail + [q] + more == tail + ([q] + more);
    }
  }

  /** The lexer state behind a lexeme, when it is back in normal mode. */
  function Behind(st: Lexer, t: Token): Lexer
    requires t.Directive? ==> IsDirective(t.source)
  {
    if t.Cut? then Flush(st)
    else if t.Directive? then st.(delimiter := DirectiveDelimiter(t.source))
    else st.(pending := st.pending + Written(t))
  }

  lemma BlankPending(st: Lexer)
    requires st.mode == Normal
    ensures CanChangeDelimiter(st) <==> Blank(st.pending)
  {
    var _, _ := TrimParts(st.pending);
  }

  lemma RunDirective(st: Lexer, lineStart: bool, t: Token, script: string)
    requires st.mode == Normal && WellFormed(st) && script != ""
    requires t.Directive? && Fits(t, ContextOf(st, lineStart), script)
    ensures OnePass(st, lineStart, script) == OnePass(Behind(st, t), EndsLine(t.source), script[|t.source|..])
  {
    BlankPending(st);
  }

  lemma OneStep(st: Lexer, lineStart: bool, script: string, next: Lexer, used: nat)
    requires st.delimiter != "" && script != "" && !AtDirective(st, lineStart, script)
    requires Step(st, script) == (next, used)
    ensures OnePass(st, lineStart, script) == OnePass(next, script[used - 1] == '\n', script[used..])
  {
    hide Step, IsDirective;
  }

  lemma RunShort(st: Lexer, lineStart: bool, t: Token, script: string)
    requires st.mode == Normal && WellFormed(st) && script != ""
    requires (t.Cut? || t.Plain?) && !AtDirective(st, lineStart, script) && Lexeme(t, st.delimiter, script)
    ensures OnePass(st, lineStart, script) == OnePass(Behind(st, t), EndsLine(t.source), script[|t.source|..])
  {
    var s := t.source;
    assert s[|s| - 1] == script[|s| - 1];
    assert t.Plain? ==> s == [script[0]];
    OneStep(st, lineStart, script, Behind(st, t), |s|);
  }

  lemma StepIntoNote(st: Lexer, s: string, script: string) returns (n: nat)
    requires st.mode == Normal && st.delimiter != "" && !(st.delimiter <= script)
    requires OpensLineComment(script) && s != "" && s <= script && IsLine(s) && (EndsLine(s) || s == script)
    ensures 1 <= n <= |s| && EndsLine(s) == EndsLine(s[n..]) && IsLine(s[n..])
    ensures Step(st, script) == (st.(mode := InLineComment), n)
    ensures script[n..] == s[n..] + script[|s|..]
  {
    NoteIsLongEnough(s, script);
    n := if s[0] == '#' then 1 else 2;
    assert script == s + script[|s|..];
  }

  lemma RunLineComment(st: Lexer, lineStart: bool, t: Token, script: string)
    requires st.mode == Normal && WellFormed(st) && script != ""
    requires t.Note? && !AtDirective(st, lineStart, script) && Lexeme(t, st.delimiter, script)
    ensures Finish(OnePass(st, lineStart, script))
         == Finish(OnePass(Behind(st, t), EndsLine(t.source), script[|t.source|..]))
  {
    var s := t.source;
    var n := StepIntoNote(st, s, script);
    var inside := st.(mode := InLineComment);
    OneStep(st, lineStart, script, inside, n);
    if !EndsLine(s) {
      assert script[|s|..] == "";
      assert st.pending + "" == st.pending;
    }
    RunNote(inside, script[n - 1] == '\n', s[n..], script[|s|..]);
  }

  lemma StepIntoQuote(st: Lexer, s: string, script: string) returns (body: string)
    requires st.mode == Normal && st.delimiter != "" && !(st.delimiter <= script)
    requires |s| > 1 && IsQuote(s[0]) && s[|s| - 1] == s[0] && s <= script
    ensures body == s[1..|s| - 1]
    ensures Step(st, script) == (st.(pending := st.pending + [s[0]], mode := InQuote(s[0])), 1)
    ensures script[1..] == body + [s[0]] + script[|s|..] && script[0] == s[0]
    ensures st.pending + [s[0]] + body + [s[0]] == st.pending + s
  {
    body := s[1..|s| - 1];
    assert s == [s[0]] + body + [s[0]];
    assert script == s + script[|s|..];
    assert script[0] == s[0];
    NotAComment(script);
  }

  lemma RunQuotedString(st: Lexer, lineStart: bool, t: Token, script: string)
    requires st.mode == Normal && WellFormed(st) && script != ""
    requires t.Quoted? && !AtDirective(st, lineStart, script) && Lexeme(t, st.delimiter, script)
    ensures OnePass(st, lineStart, script) == OnePass(Behind(st, t), EndsLine(t.source), script[|t.source|..])
  {
    var s := t.source;
    var q := s[0];
    var body := StepIntoQuote(st, s, script);
    var inside := st.(pending := st.pending + [q], mode := InQuote(q));
    OneStep(st, lineStart, script, inside, 1);
    RunQuoted(inside, false, q, body, script[|s|..]);
  }

  lemma StepIntoBlock(st: Lexer, s: string, script: string)
    requires st.mode == Normal && st.delimiter != "" && !(st.delimiter <= script)
    requires "/*" <= s && s <= script
    ensures var keep := OpensKeptComment(script);
            Step(st, script) == (st.(mode := InBlockComment(keep), pending := st.pending + if keep then "/*" else ""), 2)
    ensures script[2..] == s[2..] + script[|s|..] && script[1] == '*'
    ensures st.pending + "/*" + s[2..] == st.pending + s
  {
    assert script == s + script[|s|..];
    assert script[0] == s[0] == '/' && script[1] == s[1] == '*';
    assert !OpensLineComment(script) by {
      if |script| > 2 { assert script[..2][0] == '/'; }
    }
    assert s == "/*" + s[2..];
  }

  lemma BlockFacts(t: Token, delimiter: string, script: string)
    requires (t.Hint? || t.Dropped?) && Lexeme(t, delimiter, script)
    ensures "/*" <= t.source && t.source <= script && !(delimiter <= script) && ClosesAtEnd(t.source[2..])
    ensures t.Hint? == OpensKeptComment(script) && !EndsLine(t.source)
  {
    var s := t.source;
    assert s[|s| - 1] == s[2..][|s| - 3];
  }

  lemma RunBlockComment(st: Lexer, lineStart: bool, t: Token, script: string)
    requires st.mode == Normal && WellFormed(st) && script != ""
    requires (t.Hint? || t.Dropped?) && !AtDirective(st, lineStart, script) && Lexeme(t, st.delimiter, script)
    ensures OnePass(st, lineStart, script) == OnePass(Behind(st, t), EndsLine(t.source), script[|t.source|..])
  {
    var s := t.source;
    BlockFacts(t, st.delimiter, script);
    StepIntoBlock(st, s, script);
    hide Step, OnePass, AtDirective, Lexeme, ClosesAtEnd, OpensKeptComment, EndsLine;
    var inside := st.(mode := InBlockComment(t.Hint?), pending := st.pending + if t.Hint? then "/*" else "");
    OneStep(st, lineStart, script, inside, 2);
    RunBlock(inside, false, s[2..], script[|s|..]);
    assert st.pending + "" + " " == st.pending + " ";
  }

  lemma TokenFacts(st: Lexer, lineStart: bool, t: Token, script: string)
    requires st.mode == Normal && WellFormed(st) && script != ""
    requires Fits(t, ContextOf(st, lineStart), script)
    ensures t.source <= script && t.source != ""
    ensures if t.Directive? then IsDirective(t.source)
            else !AtDirective(st, lineStart, script) && Lexeme(t, st.delimiter, script)
  {
    hide IsDirective, Lexeme;
    BlankPending(st);
    if t.Directive? {
      DirectiveIsNoLexeme(t, st.delimiter, script);
    } else if !AtDirective(st, lineStart, script) {
      LexemeIsPrefix(t, st.delimiter, script);
    }
  }

  lemma DirectiveIsNoLexeme(t: Token, delimiter: string, rest: string)
    requires t.Directive?
    ensures !Lexeme(t, delimiter, rest)
  {
  }

  lemma LexemeIsPrefix(t: Token, delimiter: string, rest: string)
    requires Lexeme(t, delimiter, rest)
    ensures t.source != "" && t.source <= rest
  {
  }

  /** Reading one lexeme from normal mode takes the lexer to normal mode right behind it. */
  lemma RunToken(st: Lexer, lineStart: bool, t: Token, script: string)
    requires st.mode == Normal && WellFormed(st) && script != ""
    requires Fits(t, ContextOf(st, lineStart), script)
    ensures t.source <= script && t.source != "" && (t.Directive? ==> IsDirective(t.source))
    ensures ContextOf(Behind(st, t), EndsLine(t.source)) == After(ContextOf(st, lineStart), t)
    ensures Finish(OnePass(st, lineStart, script))
         == Finish(OnePass(Behind(st, t), EndsLine(t.source), script[|t.source|..]))
  {
    hide OnePass, Lexeme, AtDirective, IsDirective, Finish;
    TokenFacts(st, lineStart, t, script);
    assert st.pending + "" == st.pending;
    match t
    case Directive(_) => RunDirective(st, lineStart, t, script);
    case Cut(_) => RunShort(st, lineStart, t, script);
    case Plain(_) => RunShort(st, lineStart, t, script);
    case Note(_) => RunLineComment(st, lineStart, t, script);
    case Quoted(_) => RunQuotedString(st, lineStart, t, script);
    case Hint(_) => RunBlockComment(st, lineStart, t, script);
    case Dropped(_) => RunBlockComment(st, lineStart, t, script);
  }

  lemma NotAComment(script: string)
    requires script != "" && IsQuote(script[0])
    ensures !OpensLineComment(script) && !("/*" <= script)
  {
    assert |script| > 2 ==> script[..2][0] == script[0];
  }

  /** The opening of a line comment lies inside its first line. */
  lemma NoteIsLongEnough(s: string, script: string)
    requires OpensLineComment(script) && s != "" && s <= script && IsLine(s) && (EndsLine(s) || s == script)
    ensures s[0] == '#' || (|s| > 2 && s[0] == '-')
    ensures script[0] != '#' ==> script[0] == '-' && script[1] == '-'
    ensures s[0] == '#' && |s| > 1 && EndsLine(s) ==> EndsLine(s[1..])
    ensures |s| > 2 && EndsLine(s) ==> EndsLine(s[2..])
  {
    assert s[0] == script[0];
    if s[0] != '#' {
      assert script[..2][0] == script[0] == '-' && script[..2][1] == script[1] == '-';
      if |s| > 1 { assert s[1] == script[1]; }
    }
  }
}
