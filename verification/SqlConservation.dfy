/** The splitter against the grammar: acceptance, results and the uniqueness of the reading. */
module SqlConservation {
  import opened Text
  import opened SqlScript
  import opened SqlOnePass
  import opened SqlGrammar

  /** What the first token of a reading leaves to the others. */
  lemma FirstOfReading(toks: seq<Token>, st: Lexer, lineStart: bool, script: string)
      returns (next: Lexer, nextStart: bool, rest: string)
    requires st.mode == Normal && WellFormed(st) && toks != []
    requires Lexes(toks, ContextOf(st, lineStart), script)
    ensures next.mode == Normal && WellFormed(next) && script == toks[0].source + rest
    ensures Lexes(toks[1..], ContextOf(next, nextStart), rest)
    ensures Finish(OnePass(st, lineStart, script)) == Finish(OnePass(next, nextStart, rest))
    ensures next.done + Statements(toks[1..], next.pending) == st.done + Statements(toks, st.pending)
  {
    hide IsDirective, Kept, OnePass, Behind, Written, Statements, Fits, Finish;
    var t := toks[0];
    TokenIsNotEmpty(t, ContextOf(st, lineStart), script);
    RunToken(st, lineStart, t, script);
    next := BehindFields(st, t);
    nextStart, rest := EndsLine(t.source), script[|t.source|..];
    StatementsBehind(toks, st, next);
  }

  /** Any reading of the rest of the script gives the lexer's result from here. */
  lemma {:induction false} ReadingGivesResult(toks: seq<Token>, st: Lexer, lineStart: bool, script: string)
    requires st.mode == Normal && WellFormed(st)
    requires Lexes(toks, ContextOf(st, lineStart), script)
    ensures Finish(OnePass(st, lineStart, script)) == Success(st.done + Statements(toks, st.pending))
    ensures Source(toks) == script
    decreases |toks|
  {
    hide IsDirective, Kept;
    if toks != [] {
      var next, nextStart, rest := FirstOfReading(toks, st, lineStart, script);
      hide OnePass, WellFormed, Statements, Lexes, Finish;
      ReadingGivesResult(toks[1..], next, nextStart, rest);
    }
  }

  lemma BehindFields(st: Lexer, t: Token) returns (next: Lexer)
    requires st.mode == Normal && WellFormed(st) && (t.Directive? ==> IsDirective(t.source))
    ensures next == Behind(st, t) && next.mode == Normal && WellFormed(next)
    ensures next.done == st.done + if t.Cut? then Kept(st.pending) else []
    ensures next.pending == if t.Cut? then "" else st.pending + Written(t)
  {
    next := Behind(st, t);
    assert st.pending + "" == st.pending;
  }

  lemma StatementsBehind(toks: seq<Token>, st: Lexer, next: Lexer)
    requires toks != []
    requires next.done == st.done + if toks[0].Cut? then Kept(st.pending) else []
    requires next.pending == if toks[0].Cut? then "" else st.pending + Written(toks[0])
    ensures next.done + Statements(toks[1..], next.pending) == st.done + Statements(toks, st.pending)
  {
    if toks[0].Cut? {
      Associates(st.done, Kept(st.pending), Statements(toks[1..], ""));
    }
  }

  lemma Associates<T>(a: seq<T>, b: seq<T>, c: seq<T>)
    ensures a + b + c == a + (b + c)
  {
  }

  lemma TokenIsNotEmpty(t: Token, cx: Context, script: string)
    requires Fits(t, cx, script) && (t.Directive? ==> IsDirective(t.source))
    ensures script != "" && t.source != "" && t.source <= script
  {
    assert FirstLine("") == "" && Fields(TrimSpace("")) == [];
  }

  /** The block comment that starts here is closed, or the script ends inside it. */
  lemma {:induction false} FindBlockEnd(st: Lexer, lineStart: bool, rest: string) returns (body: Option<string>)
    requires st.mode.InBlockComment? && WellFormed(st)
    ensures body.Some? ==> ClosesAtEnd(body.value) && body.value <= rest
    ensures body.None? ==> OnePass(st, lineStart, rest).mode.InBlockComment?
    decreases |rest|
  {
    if rest == "" {
      body := None;
    } else if "*/" <= rest {
      body := Some("*/");
    } else {
      var next := Step(st, rest).0;
      var tail := FindBlockEnd(next, rest[0] == '\n', rest[1..]);
      if tail.Some? {
        var whole := [rest[0]] + tail.value;
        assert rest == [rest[0]] + rest[1..];
        assert forall i {:trigger whole[i]} :: 1 <= i < |whole| ==> whole[i] == tail.value[i - 1];
        assert whole[1] == rest[1];
        body := Some(whole);
      } else {
        body := None;
      }
    }
  }

  /** One turn inside quotes that does not close them. */
  lemma OpenQuoteTurn(st: Lexer, lineStart: bool, q: char, rest: string)
    requires st.mode == InQuote(q) && WellFormed(st) && rest != ""
    requires !(rest[0] == q && (|rest| == 1 || rest[1] != q))
    ensures var (next, n) := Step(st, rest);
            && next.mode == InQuote(q) && WellFormed(next)
            && OnePass(st, lineStart, rest) == OnePass(next, rest[n - 1] == '\n', rest[n..])
            && (n == 2 <==> (rest[0] == '\\' && |rest| > 1) || rest[0] == q) && n <= 2
  {
  }

  /** Bytes of an open quote in front of the rest of its body. */
  lemma LongerBody(q: char, n: nat, rest: string, tail: string)
    requires 1 <= n <= 2 && n <= |rest| && QuotedBody(q, tail) && tail + [q] <= rest[n..]
    requires !(rest[0] == q && (|rest| == 1 || rest[1] != q))
    requires n == 2 <==> (rest[0] == '\\' && |rest| > 1) || rest[0] == q
    ensures QuotedBody(q, rest[..n] + tail) && rest[..n] + tail + [q] <= rest
  {
    var whole := rest[..n] + tail;
    assert rest == rest[..n] + rest[n..];
    assert whole[n..] == tail && whole[0] == rest[0];
    assert n == 2 ==> whole[1] == rest[1];
    assert whole + [q] == rest[..n] + (tail + [q]);
  }

  /** The quoted string that starts here is closed, or the script ends inside it. */
  lemma {:induction false} FindQuoteEnd(st: Lexer, lineStart: bool, q: char, rest: string) returns (body: Option<string>)
    requires st.mode == InQuote(q) && WellFormed(st)
    ensures body.Some? ==>
              && QuotedBody(q, body.value) && body.value + [q] <= rest
              && (|body.value| + 1 < |rest| ==> rest[|body.value| + 1] != q)
    ensures body.None? ==> OnePass(st, lineStart, rest).mode.InQuote?
    decreases |rest|
  {
    if rest == "" {
      body := None;
    } else if rest[0] == q && (|rest| == 1 || rest[1] != q) {
      body := Some("");
    } else {
      OpenQuoteTurn(st, lineStart, q, rest);
      hide Step, OnePass;
      var (next, n) := Step(st, rest);
      var tail := FindQuoteEnd(next, rest[n - 1] == '\n', q, rest[n..]);
      if tail.Some? {
        LongerBody(q, n, rest, tail.value);
        hide QuotedBody;
        body := Some(rest[..n] + tail.value);
      } else {
        body := None;
      }
    }
  }

  /** Where the script goes on to be accepted, some lexeme starts. */
  lemma FirstToken(st: Lexer, lineStart: bool, script: string) returns (t: Token)
    requires st.mode == Normal && WellFormed(st) && script != ""
    requires Finish(OnePass(st, lineStart, script)).Success?
    ensures Fits(t, ContextOf(st, lineStart), script)
  {
    BlankPending(st);
    hide OnePass, Finish, IsDirective, Lexeme, FirstLine;
    assert st.delimiter != "";
    if AtDirective(st, lineStart, script) {
      t := Directive(FirstLine(script));
    } else if st.delimiter <= script {
      t := CutAt(st.delimiter, script);
    } else if OpensLineComment(script) {
      t := NoteAt(st.delimiter, script);
    } else if "/*" <= script {
      t := BlockToken(st, lineStart, script);
    } else if IsQuote(script[0]) {
      t := QuotedToken(st, lineStart, script);
    } else {
      t := PlainAt(st.delimiter, script);
    }
  }

  lemma CutAt(delimiter: string, script: string) returns (t: Token)
    requires delimiter != "" && delimiter <= script
    ensures Lexeme(t, delimiter, script)
  {
    t := Cut(delimiter);
  }

  lemma NoteAt(delimiter: string, script: string) returns (t: Token)
    requires !(delimiter <= script) && OpensLineComment(script)
    ensures Lexeme(t, delimiter, script)
  {
    t := Note(FirstLine(script));
  }

  lemma PlainAt(delimiter: string, script: string) returns (t: Token)
    requires !(delimiter <= script) && script != "" && !IsQuote(script[0]) && !OpensLineComment(script) && !("/*" <= script)
    ensures Lexeme(t, delimiter, script)
  {
    t := Plain(script[..1]);
  }

  lemma BlockToken(st: Lexer, lineStart: bool, script: string) returns (t: Token)
    requires st.mode == Normal && WellFormed(st) && "/*" <= script
    requires !AtDirective(st, lineStart, script) && !(st.delimiter <= script)
    requires Finish(OnePass(st, lineStart, script)).Success?
    ensures Lexeme(t, st.delimiter, script)
  {
    var body := CommentBody(st, lineStart, script);
    var s := "/*" + body;
    assert s[2..] == body;
    t := if OpensKeptComment(script) then Hint(s) else Dropped(s);
  }

  lemma CommentBody(st: Lexer, lineStart: bool, script: string) returns (body: string)
    requires st.mode == Normal && WellFormed(st) && "/*" <= script
    requires !AtDirective(st, lineStart, script) && !(st.delimiter <= script)
    requires Finish(OnePass(st, lineStart, script)).Success?
    ensures ClosesAtEnd(body) && "/*" + body <= script
  {
    StepIntoBlock(st, script[..2], script);
    var keep := OpensKeptComment(script);
    var inside := st.(mode := InBlockComment(keep), pending := st.pending + if keep then "/*" else "");
    OneStep(st, lineStart, script, inside, 2);
    var found := FindBlockEnd(inside, false, script[2..]);
    body := found.value;
    PrependOpening(body, script);
  }

  lemma PrependOpening(body: string, script: string)
    requires "/*" <= script && body <= script[2..]
    ensures "/*" + body <= script
  {
    assert script == "/*" + script[2..];
  }

  lemma QuotedToken(st: Lexer, lineStart: bool, script: string) returns (t: Token)
    requires st.mode == Normal && WellFormed(st) && script != "" && IsQuote(script[0])
    requires !AtDirective(st, lineStart, script) && !(st.delimiter <= script)
    requires Finish(OnePass(st, lineStart, script)).Success?
    ensures Lexeme(t, st.delimiter, script)
  {
    var q := script[0];
    NotAComment(script);
    var (inside, n) := Step(st, script);
    OneStep(st, lineStart, script, inside, n);
    var body := FindQuoteEnd(inside, false, q, script[1..]);
    hide Step, OnePass, Finish;
    t := QuotedAt(q, body.value, st.delimiter, script);
  }

  lemma QuotedAt(q: char, body: string, delimiter: string, script: string) returns (t: Token)
    requires IsQuote(q) && script != "" && script[0] == q && !(delimiter <= script)
    requires QuotedBody(q, body) && body + [q] <= script[1..] && (|body| + 1 < |script[1..]| ==> script[1..][|body| + 1] != q)
    ensures Lexeme(t, delimiter, script)
  {
    var s := [q] + body + [q];
    assert script == [q] + script[1..];
    assert s == [q] + (body + [q]);
    assert s[1..|s| - 1] == body;
    t := Quoted(s);
  }

  /** Every accepted rest of a script has a reading. */
  lemma {:induction false} AcceptedHasReading(st: Lexer, lineStart: bool, script: string) returns (toks: seq<Token>)
    requires st.mode == Normal && WellFormed(st)
    requires Finish(OnePass(st, lineStart, script)).Success?
    ensures Lexes(toks, ContextOf(st, lineStart), script)
    decreases |script|
  {
    if script == "" {
      toks := [];
    } else {
      var t := FirstToken(st, lineStart, script);
      RunToken(st, lineStart, t, script);
      var rest := AcceptedHasReading(Behind(st, t), EndsLine(t.source), script[|t.source|..]);
      toks := [t] + rest;
      assert toks[1..] == rest;
    }
  }

  /** `toks` reads the whole script. */
  predicate IsReading(toks: seq<Token>, script: string) {
    Lexes(toks, ScriptStart, script)
  }

  /** Main result: a script is rejected exactly when it has no reading as complete lexemes. */
  lemma AcceptsExactlyTheGrammar(script: string)
    ensures SplitSpec(script).Success? <==> exists toks :: IsReading(toks, script)
  {
    if SplitSpec(script).Success? {
      var toks := AcceptedScriptHasReading(script);
    }
    if toks :| IsReading(toks, script) {
      ResultIsTheWrittenText(script, toks);
    }
  }

  lemma AcceptedScriptHasReading(script: string) returns (toks: seq<Token>)
    requires SplitSpec(script).Success?
    ensures IsReading(toks, script)
  {
    SplitIsOnePass(Start, script);
    toks := AcceptedHasReading(Start, true, script);
  }

  lemma SplitIsOnePass(st: Lexer, script: string)
    requires st == Start
    ensures SplitSpec(script) == Finish(OnePass(st, true, script))
    ensures st.mode == Normal && WellFormed(st) && ContextOf(st, true) == ScriptStart
  {
    LineFedIsOnePass(st, script);
  }

  /**
   Main result, conservation: in any reading the lexemes spell the script byte for byte, and the
   result is their written text cut at the delimiters, trimmed, without empty statements.
   */
  lemma ResultIsTheWrittenText(script: string, toks: seq<Token>)
    requires IsReading(toks, script)
    ensures Source(toks) == script
    ensures SplitSpec(script) == Success(Statements(toks, ""))
  {
    SplitIsOnePass(Start, script);
    hide OnePass, SplitSpec, Statements, Finish, WellFormed;
    ReadingGivesResult(toks, Start, true, script);
    assert [] + Statements(toks, "") == Statements(toks, "");
  }

  // ---- the reading is unique ----

  lemma PrefixParts(a: string, rest: string, n: nat)
    requires a <= rest && n <= |a|
    ensures a[..n] == rest[..n] && a[n..] <= rest[n..]
  {
  }

  lemma EmptyBodyIsUnique(q: char, b: string, rest: string)
    requires IsQuote(q) && QuotedBody(q, b) && b + [q] <= rest
    requires rest[0] == q && (1 < |rest| ==> rest[1] != q)
    ensures b == ""
  {
    var all := b + [q];
    assert all[0] == rest[0];
  }

  lemma {:induction false} QuoteEndIsUnique(q: char, a: string, b: string, rest: string)
    requires IsQuote(q) && QuotedBody(q, a) && QuotedBody(q, b) && |a| <= |b|
    requires a + [q] <= rest && b + [q] <= rest
    requires |a| + 1 < |rest| ==> rest[|a| + 1] != q
    ensures a == b
    decreases |a|
  {
    if a == "" {
      EmptyBodyIsUnique(q, b, rest);
    } else {
      assert a[0] == (a + [q])[0] == rest[0] == (b + [q])[0] == b[0];
      var n := if a[0] == '\\' || a[0] == q then 2 else 1;
      PrefixParts(a + [q], rest, n);
      PrefixParts(b + [q], rest, n);
      assert (a + [q])[n..] == a[n..] + [q] && (b + [q])[n..] == b[n..] + [q];
      assert (a + [q])[..n] == a[..n] && (b + [q])[..n] == b[..n];
      QuoteEndIsUnique(q, a[n..], b[n..], rest[n..]);
      assert a == a[..n] + a[n..] && b == b[..n] + b[n..];
    }
  }

  lemma SameQuoted(s: string, r: string, rest: string)
    requires 1 < |s| <= |r| && IsQuote(s[0]) && s <= rest && r <= rest
    requires s[|s| - 1] == s[0] && QuotedBody(s[0], s[1..|s| - 1]) && (|s| < |rest| ==> rest[|s|] != s[0])
    requires r[|r| - 1] == r[0] && QuotedBody(r[0], r[1..|r| - 1])
    ensures s == r
  {
    var q := s[0];
    assert r[0] == rest[0] == q;
    assert s[1..] == s[1..|s| - 1] + [q] && r[1..] == r[1..|r| - 1] + [q];
    PrefixParts(s, rest, 1);
    PrefixParts(r, rest, 1);
    QuoteEndIsUnique(q, s[1..|s| - 1], r[1..|r| - 1], rest[1..]);
  }

  lemma SameBlock(s: string, r: string, rest: string)
    requires 2 <= |s| <= |r| && s <= rest && r <= rest && ClosesAtEnd(s[2..]) && ClosesAtEnd(r[2..])
    ensures s == r
  {
    var n := |s| - 4;
    PrefixParts(s, rest, 2);
    PrefixParts(r, rest, 2);
    var a, b := s[2..], r[2..];
    assert a[n] == b[n] && a[n + 1] == b[n + 1];
  }

  lemma SameNote(s: string, r: string, rest: string)
    requires s <= rest && r <= rest && 0 < |s| <= |r| && IsLine(r) && (EndsLine(s) || s == rest)
    ensures s == r
  {
    var last := |s| - 1;
    assert s[last] == r[last];
  }

  /** What starts at a place in normal mode is decided by the first bytes there. */
  lemma LexemeIsUnique(t: Token, u: Token, delimiter: string, rest: string)
    requires Lexeme(t, delimiter, rest) && Lexeme(u, delimiter, rest) && |t.source| <= |u.source|
    ensures t == u
  {
    var s, r := t.source, u.source;
    assert s[0] == rest[0] == r[0];
    match t
    case Cut(_) =>
    case Quoted(_) =>
      NotAComment(rest);
      SameQuoted(s, r, rest);
    case Hint(_) =>
      PlainIsAlone(s, rest);
      SlashOpens(rest);
      SameBlock(s, r, rest);
    case Dropped(_) =>
      PlainIsAlone(s, rest);
      SlashOpens(rest);
      SameBlock(s, r, rest);
    case Note(_) =>
      NoteOpens(rest);
      SameNote(s, r, rest);
    case Plain(_) =>
      if |r| > 1 { PlainIsAlone(r, rest); }
  }

  lemma PlainIsAlone(r: string, rest: string)
    requires r <= rest && |r| > 1
    ensures "/*" <= r ==> "/*" <= rest
    ensures rest[0] == r[0]
  {
  }

  lemma SlashOpens(rest: string)
    requires "/*" <= rest
    ensures !OpensLineComment(rest) && !IsQuote(rest[0])
  {
    if |rest| > 2 { assert rest[..2][0] == '/'; }
  }

  lemma NoteOpens(rest: string)
    requires OpensLineComment(rest)
    ensures !("/*" <= rest) && !IsQuote(rest[0])
  {
    if rest[0] != '#' { assert rest[..2][0] == rest[0]; }
  }

  lemma {:induction false} ReadingIsUniqueFrom(toks: seq<Token>, other: seq<Token>, cx: Context, script: string)
    requires Lexes(toks, cx, script) && Lexes(other, cx, script)
    ensures toks == other
    decreases |toks|
  {
    if toks == [] {
      if other != [] { TokenIsNotEmpty(other[0], cx, script); }
    } else {
      var t := toks[0];
      TokenIsNotEmpty(t, cx, script);
      TokenIsUnique(t, other[0], cx, script);
      ReadingIsUniqueFrom(toks[1..], other[1..], After(cx, t), script[|t.source|..]);
      assert toks == [t] + toks[1..] && other == [t] + other[1..];
    }
  }

  lemma TokenIsUnique(t: Token, u: Token, cx: Context, script: string)
    requires Fits(t, cx, script) && Fits(u, cx, script)
    ensures t == u
  {
    if !(cx.lineStart && Blank(cx.pending) && IsDirective(FirstLine(script))) {
      if |t.source| <= |u.source| {
        LexemeIsUnique(t, u, cx.delimiter, script);
      } else {
        LexemeIsUnique(u, t, cx.delimiter, script);
      }
    }
  }

  /** Main result: a script has at most one reading, so every byte has one role. */
  lemma ReadingIsUnique(script: string, toks: seq<Token>, other: seq<Token>)
    requires IsReading(toks, script) && IsReading(other, script)
    ensures toks == other
  {
    ReadingIsUniqueFrom(toks, other, ScriptStart, script);
  }
}
