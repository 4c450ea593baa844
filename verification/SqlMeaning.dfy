/** What a script of quoted texts, comments and statement text means, spelled out byte by byte. */
module SqlMeaning {
  import opened Text
  import opened SqlScript
  import opened SqlOnePass
  import opened SqlGrammar
  import opened SqlConservation
  import opened SqlDelimiters

  datatype Piece =
    | Letter(c: char)
    | Quote(quote: char, body: string)
    | HashNote(text: string, ended: bool)   // with its newline, or at the end of the script
    | DashNote(text: string, ended: bool)
    | Remark(text: string)
    | KeptRemark(text: string)
    | Semicolon

  function Spelling(p: Piece): string {
    match p
    case Letter(c) => [c]
    case Quote(q, body) => [q] + body + [q]
    case HashNote(text, ended) => "#" + text + if ended then "\n" else ""
    case DashNote(text, ended) => "--" + text + if ended then "\n" else ""
    case Remark(text) => "/*" + text + "*/"
    case KeptRemark(text) => "/*" + text + "*/"
    case Semicolon => ";"
  }

  /** A comment is a blank, a line comment is the end of its line, and all else is itself. */
  function Meaning(p: Piece): string {
    match p
    case Letter(c) => [c]
    case Quote(q, body) => [q] + body + [q]
    case HashNote(_, ended) => if ended then "\n" else ""
    case DashNote(_, ended) => if ended then "\n" else ""
    case Remark(_) => " "
    case KeptRemark(text) => "/*" + text + "*/"
    case Semicolon => ""
  }

  predicate StartsWith(text: string, c: char) {
    text != "" && text[0] == c
  }

  predicate StartsBlank(text: string) {
    text != "" && (text[0] == ' ' || text[0] == '\t' || text[0] == '\r' || text[0] == '\n')
  }

  /** The text of a comment does not end it. */
  predicate StaysOpen(text: string) {
    forall i :: 0 <= i < |text| ==> !(text[i] == '*' && (text + "*/")[i + 1] == '/')
  }

  /** A piece that reads as what it is, when `rest` follows. */
  predicate Sound(p: Piece, rest: string) {
    match p
    case Letter(c) =>
      && c != '\'' && c != '"' && c != '`' && c != '#' && c != ';'
      && !(c == '/' && StartsWith(rest, '*'))
      && !(c == '-' && StartsWith(rest, '-') && StartsBlank(rest[1..]))
    case Quote(q, body) => (q == '\'' || q == '"' || q == '`') && QuotedBody(q, body) && !StartsWith(rest, q)
    case HashNote(text, ended) => '\n' !in text && (ended || rest == "")
    case DashNote(text, ended) => '\n' !in text && (if text == "" then ended else StartsBlank(text)) && (ended || rest == "")
    case Remark(text) => StaysOpen(text) && !StartsWith(text, '!') && !StartsWith(text, '+')
    case KeptRemark(text) => StaysOpen(text) && (StartsWith(text, '!') || StartsWith(text, '+'))
    case Semicolon => true
  }

  function Script(ps: seq<Piece>): string {
    if ps == [] then "" else Spelling(ps[0]) + Script(ps[1..])
  }

  predicate AllSound(ps: seq<Piece>) {
    ps != [] ==> Sound(ps[0], Script(ps[1..])) && AllSound(ps[1..])
  }

  /** The meaning up to each semicolon, trimmed; nothing for a statement of white space. */
  function Cuts(ps: seq<Piece>, pending: string): seq<string> {
    var statement := if TrimSpace(pending) == "" then [] else [TrimSpace(pending)];
    if ps == [] then statement
    else if ps[0].Semicolon? then statement + Cuts(ps[1..], "")
    else Cuts(ps[1..], pending + Meaning(ps[0]))
  }

  /** No line is a DELIMITER line; the first one only counts at the start of a line. */
  predicate NoDelimiterLine(script: string, lineStart: bool) {
    && (lineStart && script != "" ==> OtherLine(FirstLine(script)))
    && forall i :: 0 < i < |script| && script[i - 1] == '\n' ==> OtherLine(FirstLine(script[i..]))
  }

  function TokenOf(p: Piece): Token {
    match p
    case Letter(_) => Plain(Spelling(p))
    case Quote(_, _) => Quoted(Spelling(p))
    case HashNote(_, _) => Note(Spelling(p))
    case DashNote(_, _) => Note(Spelling(p))
    case Remark(_) => Dropped(Spelling(p))
    case KeptRemark(_) => Hint(Spelling(p))
    case Semicolon => Cut(Spelling(p))
  }

  function Tokens(ps: seq<Piece>): seq<Token> {
    if ps == [] then [] else [TokenOf(ps[0])] + Tokens(ps[1..])
  }

  // ---- every piece is the lexeme it looks like ----

  lemma NoCut(p: Piece, rest: string)
    requires Sound(p, rest) && !p.Semicolon?
    ensures !(";" <= Spelling(p) + rest)
  {
    assert (Spelling(p) + rest)[0] == Spelling(p)[0];
  }

  lemma NoteReads(p: Piece, rest: string)
    requires Sound(p, rest) && (p.HashNote? || p.DashNote?)
    ensures Lexeme(TokenOf(p), ";", Spelling(p) + rest) && Written(TokenOf(p)) == Meaning(p)
  {
    NoCut(p, rest);
    var s := Spelling(p);
    var all := s + rest;
    if p.DashNote? {
      assert all[..2] == "--";
      assert all[2] == if p.text == "" then '\n' else p.text[0];
    }
  }

  lemma CommentText(text: string, rest: string)
    ensures var s := "/*" + text + "*/";
            && "/*" <= s && s <= s + rest && s[2..] == text + "*/" && |s + rest| > 2
            && (s + rest)[2] == if text == "" then '*' else text[0]
  {
    var s := "/*" + text + "*/";
    assert s == "/*" + (text + "*/");
  }

  lemma CommentCloses(text: string)
    requires StaysOpen(text)
    ensures ClosesAtEnd(text + "*/")
  {
  }

  lemma CommentLexeme(s: string, rest: string)
    requires s != "" && "/*" <= s && ClosesAtEnd(s[2..]) && !(";" <= s + rest)
    ensures Lexeme(if OpensKeptComment(s + rest) then Hint(s) else Dropped(s), ";", s + rest)
  {
    hide ClosesAtEnd, OpensKeptComment;
  }

  lemma KeptIs(text: string, all: string)
    requires |all| > 2 && all[2] == if text == "" then '*' else text[0]
    ensures OpensKeptComment(all) <==> StartsWith(text, '!') || StartsWith(text, '+')
  {
  }

  lemma CommentReads(p: Piece, rest: string)
    requires Sound(p, rest) && (p.Remark? || p.KeptRemark?)
    ensures Lexeme(TokenOf(p), ";", Spelling(p) + rest) && Written(TokenOf(p)) == Meaning(p)
  {
    NoCut(p, rest);
    CommentText(p.text, rest);
    CommentCloses(p.text);
    SpellingIsThere(p);
    KeptIs(p.text, Spelling(p) + rest);
    CommentLexeme(Spelling(p), rest);
    hide ClosesAtEnd, StaysOpen, OpensKeptComment, Lexeme, StartsWith;
  }

  lemma QuoteReads(p: Piece, rest: string)
    requires Sound(p, rest) && p.Quote?
    ensures Lexeme(TokenOf(p), ";", Spelling(p) + rest) && Written(TokenOf(p)) == Meaning(p)
  {
    NoCut(p, rest);
    var s := Spelling(p);
    assert s[1..|s| - 1] == p.body;
    assert rest != "" ==> (s + rest)[|s|] == rest[0];
  }

  lemma LetterReads(p: Piece, rest: string)
    requires Sound(p, rest) && p.Letter?
    ensures Lexeme(TokenOf(p), ";", Spelling(p) + rest) && Written(TokenOf(p)) == Meaning(p)
  {
    NoCut(p, rest);
    var all := Spelling(p) + rest;
    if |all| > 2 { assert all[1] == rest[0] && all[2] == rest[1] && all[..2] == [all[0], all[1]]; }
    assert |all| > 1 ==> all[1] == rest[0];
  }

  lemma PieceReads(p: Piece, rest: string)
    requires Sound(p, rest)
    ensures Lexeme(TokenOf(p), ";", Spelling(p) + rest) && Written(TokenOf(p)) == Meaning(p)
  {
    hide Lexeme, Sound;
    match p
    case Letter(_) => LetterReads(p, rest);
    case Quote(_, _) => QuoteReads(p, rest);
    case HashNote(_, _) => NoteReads(p, rest);
    case DashNote(_, _) => NoteReads(p, rest);
    case Remark(_) => CommentReads(p, rest);
    case KeptRemark(_) => CommentReads(p, rest);
    case Semicolon => SemicolonReads(rest);
  }

  lemma SemicolonReads(rest: string)
    ensures Lexeme(TokenOf(Semicolon), ";", Spelling(Semicolon) + rest) && Written(TokenOf(Semicolon)) == Meaning(Semicolon)
  {
  }

  lemma LinesBehind(p: Piece, rest: string, lineStart: bool)
    requires NoDelimiterLine(Spelling(p) + rest, lineStart)
    ensures NoDelimiterLine(rest, EndsLine(Spelling(p)))
  {
    hide OtherLine, FirstLine, Spelling;
    var s := Spelling(p);
    var all := s + rest;
    assert rest == all[|s|..];
    forall i | 0 < i < |rest| && rest[i - 1] == '\n' ensures OtherLine(FirstLine(rest[i..])) {
      assert all[|s| + i - 1] == '\n' && all[|s| + i..] == rest[i..];
    }
  }

  lemma {:induction false} PiecesRead(ps: seq<Piece>, cx: Context)
    requires AllSound(ps) && cx.delimiter == ";" && NoDelimiterLine(Script(ps), cx.lineStart)
    ensures Lexes(Tokens(ps), cx, Script(ps))
    ensures Statements(Tokens(ps), cx.pending) == Cuts(ps, cx.pending)
    decreases |ps|
  {
    hide Lexeme, Sound, OtherLine, FirstLine, Spelling, Meaning, Blank;
    if ps != [] {
      var p, rest := ps[0], Script(ps[1..]);
      var t := TokenOf(p);
      PieceReads(p, rest);
      SpellingIsThere(p);
      NoDirectiveHere(p, rest, cx);
      LinesBehind(p, rest, cx.lineStart);
      assert t.source == Spelling(p) && Script(ps)[|t.source|..] == rest;
      PiecesRead(ps[1..], After(cx, t));
      assert Tokens(ps)[1..] == Tokens(ps[1..]);
    }
  }

  lemma SpellingIsThere(p: Piece)
    ensures Spelling(p) != ""
  {
  }

  lemma NoDirectiveHere(p: Piece, rest: string, cx: Context)
    requires NoDelimiterLine(Spelling(p) + rest, cx.lineStart) && Spelling(p) != ""
    ensures !(cx.lineStart && Blank(cx.pending) && IsDirective(FirstLine(Spelling(p) + rest)))
  {
    hide Fields, TrimSpace, FirstLine;
  }

  // ---- every lexeme is such a piece ----

  /** The text of a line between an opening and its newline, if any. */
  lemma NoteParts(s: string, opening: string) returns (text: string)
    requires IsLine(s) && opening <= s && '\n' !in opening
    ensures s == opening + text + (if EndsLine(s) then "\n" else "") && '\n' !in text
    ensures text == s[|opening|..if EndsLine(s) then |s| - 1 else |s|]
  {
    text := s[|opening|..if EndsLine(s) then |s| - 1 else |s|];
  }

  lemma HashIsPiece(t: Token, script: string) returns (p: Piece)
    requires t.Note? && Lexeme(t, ";", script) && script[0] == '#'
    ensures Spelling(p) == t.source && TokenOf(p) == t && Sound(p, script[|t.source|..])
  {
    var s := t.source;
    assert s[0] == script[0] && "#" <= s;
    var text := NoteParts(s, "#");
    p := HashNote(text, EndsLine(s));
  }

  /** Two dashes and white space, or the end of the line. */
  lemma DashStarts(s: string, script: string)
    requires s != "" && s <= script && OpensLineComment(script) && script[0] != '#'
    requires IsLine(s) && (EndsLine(s) || s == script)
    ensures "--" <= s && (|s| > 2 ==> StartsBlank(s[2..])) && |s| > 2 && '\n' !in "--"
  {
    assert script[..2] == "--" && script[0] == '-' && script[1] == '-';
    assert |s| > 1 && s[..2] == "--";
    assert s[|s| - 1] == script[|s| - 1];
  }

  lemma DashIsPiece(t: Token, script: string) returns (p: Piece)
    requires t.Note? && Lexeme(t, ";", script) && script[0] != '#'
    ensures Spelling(p) == t.source && TokenOf(p) == t && Sound(p, script[|t.source|..])
  {
    var s := t.source;
    DashStarts(s, script);
    var text := NoteParts(s, "--");
    p := DashNote(text, EndsLine(s));
    hide OpensLineComment, IsLine;
  }

  lemma NoteIsPiece(t: Token, script: string) returns (p: Piece)
    requires t.Note? && Lexeme(t, ";", script)
    ensures Spelling(p) == t.source && TokenOf(p) == t && Sound(p, script[|t.source|..])
  {
    assert script != "" by { assert t.source != "" && t.source <= script; }
    hide Lexeme, Sound, Spelling, TokenOf;
    if script[0] == '#' {
      p := HashIsPiece(t, script);
    } else {
      p := DashIsPiece(t, script);
    }
  }

  lemma CommentParts(body: string)
    requires ClosesAtEnd(body)
    ensures var text := body[..|body| - 2]; body == text + "*/" && StaysOpen(text)
  {
  }

  lemma CommentStart(s: string, text: string, script: string)
    requires "/*" <= s && s <= script && s[2..] == text + "*/"
    ensures s == "/*" + text + "*/"
    ensures OpensKeptComment(script) <==> StartsWith(text, '!') || StartsWith(text, '+')
  {
    assert s == "/*" + s[2..];
    assert script[2] == s[2] == (text + "*/")[0];
  }

  lemma CommentIsPiece(t: Token, script: string) returns (p: Piece)
    requires (t.Dropped? || t.Hint?) && Lexeme(t, ";", script)
    ensures Spelling(p) == t.source && TokenOf(p) == t && Sound(p, script[|t.source|..])
  {
    var s, body := t.source, t.source[2..];
    CommentParts(body);
    var text := body[..|body| - 2];
    CommentStart(s, text, script);
    p := if t.Dropped? then Remark(text) else KeptRemark(text);
    hide ClosesAtEnd, StaysOpen;
  }

  lemma QuoteIsPiece(t: Token, script: string) returns (p: Piece)
    requires t.Quoted? && Lexeme(t, ";", script)
    ensures Spelling(p) == t.source && TokenOf(p) == t && Sound(p, script[|t.source|..])
  {
    var s := t.source;
    p := Quote(s[0], s[1..|s| - 1]);
    assert s == [s[0]] + s[1..|s| - 1] + [s[0]];
  }

  lemma LetterIsPiece(t: Token, script: string) returns (p: Piece)
    requires (t.Plain? || t.Cut?) && Lexeme(t, ";", script)
    ensures Spelling(p) == t.source && TokenOf(p) == t && Sound(p, script[|t.source|..])
  {
    var s, rest := t.source, script[|t.source|..];
    p := if t.Cut? then Semicolon else Letter(s[0]);
    if t.Plain? {
      assert s == [script[0]] && rest == script[1..];
      assert |script| > 2 ==> script[..2] == [script[0], script[1]];
      assert script[0] == ';' ==> ";" <= script;
    }
  }

  lemma LexemeIsPiece(t: Token, script: string) returns (p: Piece)
    requires Lexeme(t, ";", script)
    ensures Spelling(p) == t.source && TokenOf(p) == t && Sound(p, script[|t.source|..])
  {
    hide Sound, Spelling;
    match t
    case Plain(_) => p := LetterIsPiece(t, script);
    case Cut(_) => p := LetterIsPiece(t, script);
    case Quoted(_) => p := QuoteIsPiece(t, script);
    case Note(_) => p := NoteIsPiece(t, script);
    case Dropped(_) => p := CommentIsPiece(t, script);
    case Hint(_) => p := CommentIsPiece(t, script);
  }

  lemma {:induction false} ReadingIsPieces(toks: seq<Token>, cx: Context, script: string) returns (ps: seq<Piece>)
    requires Lexes(toks, cx, script) && cx.delimiter == ";" && NoDelimiterLine(script, cx.lineStart)
    ensures AllSound(ps) && Script(ps) == script
    decreases |toks|
  {
    hide Lexeme, Sound, Spelling, AllSound, Script, NoDelimiterLine, EndsLine, Fits, After, TokenOf;
    if toks == [] {
      ps := [];
      NoPieces();
    } else {
      var next := FirstLexeme(toks, cx, script);
      var t, rest := toks[0], script[|toks[0].source|..];
      var p := LexemeIsPiece(t, script);
      LinesBehind(p, rest, cx.lineStart);
      var more := ReadingIsPieces(toks[1..], next, rest);
      ps := [p] + more;
      OneMorePiece(p, more, script, rest);
    }
  }

  lemma NoPieces()
    ensures AllSound([]) && Script([]) == ""
  {
  }

  lemma OneMorePiece(p: Piece, more: seq<Piece>, script: string, rest: string)
    requires Sound(p, rest) && AllSound(more) && Script(more) == rest && script == Spelling(p) + rest
    ensures AllSound([p] + more) && Script([p] + more) == script
  {
    hide Sound, Spelling;
    assert ([p] + more)[1..] == more;
  }

  lemma FirstLexeme(toks: seq<Token>, cx: Context, script: string) returns (next: Context)
    requires toks != [] && Lexes(toks, cx, script) && cx.delimiter == ";" && NoDelimiterLine(script, cx.lineStart)
    ensures var t := toks[0];
            && Lexeme(t, ";", script) && t.source <= script && script == t.source + script[|t.source|..]
            && next.delimiter == ";" && next.lineStart == EndsLine(t.source)
            && Lexes(toks[1..], next, script[|t.source|..])
  {
    hide Lexeme, OtherLine, FirstLine, IsDirective, Blank, EndsLine, NoDelimiterLine;
    TokenIsNotEmpty(toks[0], cx, script);
    NoDirectiveAt(script, cx);
    LexemeIsNoDirective(toks[0], script);
    next := After(cx, toks[0]);
  }

  lemma LexemeIsNoDirective(t: Token, script: string)
    ensures Lexeme(t, ";", script) ==> !t.Directive?
  {
  }

  lemma NoDirectiveAt(script: string, cx: Context)
    requires NoDelimiterLine(script, cx.lineStart) && script != ""
    ensures !(cx.lineStart && Blank(cx.pending) && IsDirective(FirstLine(script)))
  {
    hide Fields, TrimSpace, FirstLine;
  }

  /** The accepted scripts without DELIMITER lines are exactly the sequences of such pieces. */
  lemma PiecesAreAllScripts(script: string)
    requires NoDelimiterLine(script, true)
    ensures SplitSpec(script).Success? <==> exists ps :: AllSound(ps) && Script(ps) == script
  {
    hide NoDelimiterLine, AllSound, Script, SplitSpec, Lexes;
    if SplitSpec(script).Success? {
      var toks := AcceptedScriptHasReading(script);
      var ps := ReadingIsPieces(toks, ScriptStart, script);
    }
    if ps :| AllSound(ps) && Script(ps) == script {
      ScriptMeans(ps);
    }
  }

  /**
   Main result: a script without DELIMITER lines is split at its semicolons, and at none inside quotes or
   comments. Quoted texts stay as they are, a comment becomes a blank unless "!" or "+" opens it, and a comment
   behind "#", or behind two dashes and white space, becomes the end of its line.
   */
  lemma ScriptMeans(ps: seq<Piece>)
    requires AllSound(ps) && NoDelimiterLine(Script(ps), true)
    ensures SplitSpec(Script(ps)) == Success(Cuts(ps, ""))
  {
    PiecesRead(ps, ScriptStart);
    hide *;
    ResultIsTheWrittenText(Script(ps), Tokens(ps));
  }
}
