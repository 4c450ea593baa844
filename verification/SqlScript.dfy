/** The MySQL script splitter: a lexer with modes that is fed one line at a time. */
module SqlScript {
  import opened Text

  /** What the next byte belongs to. */
  datatype Mode = Normal | InQuote(quote: char) | InLineComment | InBlockComment(keep: bool)

  datatype Lexer = Lexer(delimiter: string, pending: string, done: seq<string>, mode: Mode)

  datatype SplitError = UnterminatedQuote | UnterminatedComment

  type SplitResult = Result<seq<string>, SplitError>

  /** A delimiter word: non-empty, without white space. Scripts can only install such delimiters. */
  predicate GoodDelimiter(d: string) {
    d != "" && forall i :: 0 <= i < |d| ==> !IsSpace(d[i])
  }

  predicate IsQuote(c: char) {
    c == '\'' || c == '"' || c == '`'
  }

  /** What every reachable lexer state satisfies. */
  predicate WellFormed(st: Lexer) {
    GoodDelimiter(st.delimiter) && (st.mode.InQuote? ==> IsQuote(st.mode.quote))
  }

  predicate IsSqlSpace(c: char) {
    c == ' ' || c == '\t' || c == '\r' || c == '\n'
  }

  predicate OpensLineComment(rest: string) {
    rest != "" && (rest[0] == '#' || (|rest| > 2 && rest[..2] == "--" && IsSqlSpace(rest[2])))
  }

  predicate OpensKeptComment(rest: string) {
    |rest| > 2 && (rest[2] == '!' || rest[2] == '+')
  }

  /** The statement text, if any is left after trimming. */
  function Kept(text: string): seq<string> {
    if TrimSpace(text) == "" then [] else [TrimSpace(text)]
  }

  function Flush(st: Lexer): Lexer {
    st.(pending := "", done := st.done + Kept(st.pending))
  }

  /** One turn of the write loop on the unread text `rest`: the new state and the bytes used. */
  function Step(st: Lexer, rest: string): (r: (Lexer, nat))
    requires rest != "" && st.delimiter != ""
    ensures 1 <= r.1 <= |rest|
    ensures r.0.delimiter == st.delimiter
    ensures WellFormed(st) ==> WellFormed(r.0)
  {
    var c := rest[0];
    match st.mode
    case InLineComment =>
      if c == '\n' then (st.(mode := Normal, pending := st.pending + "\n"), 1) else (st, 1)
    case InBlockComment(keep) =>
      if "*/" <= rest then
        (st.(mode := Normal, pending := st.pending + if keep then "*/" else " "), 2)
      else
        (if keep then st.(pending := st.pending + [c]) else st, 1)
    case InQuote(q) =>
      if c == '\\' && |rest| > 1 then
        (st.(pending := st.pending + rest[..2]), 2)
      else if c == q && |rest| > 1 && rest[1] == q then
        (st.(pending := st.pending + rest[..2]), 2)
      else
        (st.(pending := st.pending + [c], mode := if c == q then Normal else st.mode), 1)
    case Normal =>
      if st.delimiter <= rest then
        (Flush(st), |st.delimiter|)
      else if OpensLineComment(rest) then
        (st.(mode := InLineComment), if c == '#' then 1 else 2)
      else if "/*" <= rest then
        var keep := OpensKeptComment(rest);
        (st.(mode := InBlockComment(keep), pending := st.pending + if keep then "/*" else ""), 2)
      else
        (st.(pending := st.pending + [c], mode := if IsQuote(c) then InQuote(c) else Normal), 1)
  }

  /** The effect of writing `text` in one call. */
  function Scan(st: Lexer, text: string): (r: Lexer)
    requires st.delimiter != ""
    ensures r.delimiter == st.delimiter
    ensures WellFormed(st) ==> WellFormed(r)
    decreases |text|
  {
    if text == "" then st
    else
      var (next, used) := Step(st, text);
      Scan(next, text[used..])
  }

  /** Length of the first line, its newline included. */
  function LineLength(script: string): (n: nat)
    ensures n <= |script| && (script != "" ==> n > 0)
    ensures forall i :: 0 <= i < n - 1 ==> script[i] != '\n'
    ensures 0 < n < |script| ==> script[n - 1] == '\n'
  {
    if script == "" then 0 else if script[0] == '\n' then 1 else 1 + LineLength(script[1..])
  }

  function FirstLine(script: string): string {
    script[..LineLength(script)]
  }

  predicate IsDirective(line: string) {
    var words := Fields(TrimSpace(line));
    |words| == 2 && EqualFold(words[0], "DELIMITER")
  }

  function DirectiveDelimiter(line: string): (d: string)
    requires IsDirective(line)
    ensures GoodDelimiter(d)
  {
    Fields(TrimSpace(line))[1]
  }

  /** A DELIMITER line is honoured only between statements. */
  predicate CanChangeDelimiter(st: Lexer) {
    st.mode == Normal && TrimSpace(st.pending) == ""
  }

  /** One line: a directive between statements is obeyed, anything else is written. */
  function TakeLine(st: Lexer, line: string): (r: Lexer)
    requires st.delimiter != ""
    ensures r.delimiter != ""
    ensures WellFormed(st) ==> WellFormed(r)
  {
    if CanChangeDelimiter(st) && IsDirective(line) then
      st.(delimiter := DirectiveDelimiter(line))
    else
      Scan(st, line)
  }

  /** The whole run as the source does it, line by line. */
  function LineFed(st: Lexer, script: string): (r: Lexer)
    requires st.delimiter != ""
    ensures r.delimiter != ""
    decreases |script|
  {
    if script == "" then st
    else LineFed(TakeLine(st, FirstLine(script)), script[LineLength(script)..])
  }

  /** What the run returns once the script is used up. */
  function Finish(st: Lexer): SplitResult {
    match st.mode
    case InQuote(_) => Failure(UnterminatedQuote)
    case InBlockComment(_) => Failure(UnterminatedComment)
    case _ => Success(Flush(st).done)
  }

  const Start := Lexer(";", "", [], Normal)

  function SplitSpec(script: string): SplitResult {
    Finish(LineFed(Start, script))
  }

  /** The parser object of the source; '\0' stands for "not inside a quote". */
  class SqlStatementParser {
    var delimiter: string
    var statement: string
    var statements: seq<string>
    var quote: char
    var lineComment: bool
    var blockComment: bool
    var keepComment: bool

    ghost predicate Valid()
      reads this
    {
      && delimiter != ""
      && (quote != '\0' ==> IsQuote(quote) && !lineComment && !blockComment)
      && !(lineComment && blockComment)
      && (keepComment ==> blockComment)
    }

    /** The flags of the object as one lexer state. */
    ghost function State(): Lexer
      reads this
    {
      Lexer(delimiter, statement, statements,
            if lineComment then InLineComment
            else if blockComment then InBlockComment(keepComment)
            else if quote != '\0' then InQuote(quote)
            else Normal)
    }

    constructor ()
      ensures Valid() && State() == Start
    {
      delimiter := ";";
      statement, statements := "", [];
      quote, lineComment, blockComment, keepComment := '\0', false, false, false;
    }

    predicate CanChange()
      reads this
      ensures Valid() ==> CanChange() == CanChangeDelimiter(State())
    {
      quote == '\0' && !lineComment && !blockComment && TrimSpace(statement) == ""
    }

    method FlushStatement()
      requires Valid()
      modifies this
      ensures Valid() && State() == Flush(old(State()))
    {
      var trimmed := TrimSpace(statement);
      statement := "";
      if trimmed != "" {
        statements := statements + [trimmed];
      }
    }

    method Write(value: string)
      requires Valid()
      modifies this
      ensures Valid() && State() == Scan(old(State()), value)
    {
      var index := 0;
      while index < |value|
        invariant 0 <= index <= |value|
        invariant Valid()
        invariant Scan(State(), value[index..]) == Scan(old(State()), value)
      {
        ghost var before, rest := State(), value[index..];
        ghost var from := index;
        index := WriteNext(value, index);
        assert value[from..][index - from..] == value[index..];
      }
    }

    /** The body of the line loop: a directive, or text. */
    method Feed(line: string)
      requires Valid()
      modifies this
      ensures Valid() && State() == TakeLine(old(State()), line)
    {
      hide Scan, TrimSpace, Fields, UpperAll, WellFormed;
      if CanChange() {
        var fields := Fields(TrimSpace(line));
        if |fields| == 2 && EqualFold(fields[0], "DELIMITER") {
          delimiter := fields[1];
          return;
        }
      }
      Write(line);
    }

    /** The end of the run: an open quote or comment is an error, an open statement is complete. */
    method Close() returns (result: SplitResult)
      requires Valid()
      modifies this
      ensures result == Finish(old(State()))
    {
      if quote != '\0' {
        return Failure(UnterminatedQuote);
      }
      if blockComment {
        return Failure(UnterminatedComment);
      }
      FlushStatement();
      return Success(statements);
    }

    /** One turn of the write loop. */
    method WriteNext(value: string, index: nat) returns (next: nat)
      requires Valid() && index < |value|
      modifies this
      ensures Valid()
      ensures index < next <= |value|
      ensures (State(), next - index) == Step(old(State()), value[index..])
    {
      var character := value[index];
      if lineComment {
        if character == '\n' {
          lineComment := false;
          statement := statement + "\n";
        }
        return index + 1;
      }
      if blockComment {
        if "*/" <= value[index..] {
          statement := statement + if keepComment then "*/" else " ";
          blockComment, keepComment := false, false;
          return index + 2;
        }
        if keepComment {
          statement := statement + [character];
        }
        return index + 1;
      }
      if quote != '\0' {
        statement := statement + [character];
        if character == '\\' && index + 1 < |value| {
          statement := statement + [value[index + 1]];
          assert statement == old(statement) + value[index..][..2];
          return index + 2;
        }
        if character == quote {
          if index + 1 < |value| && value[index + 1] == quote {
            statement := statement + [value[index + 1]];
            assert statement == old(statement) + value[index..][..2];
            return index + 2;
          }
          quote := '\0';
        }
        return index + 1;
      }
      if delimiter <= value[index..] {
        FlushStatement();
        return index + |delimiter|;
      }
      if character == '#' ||
         (character == '-' && index + 2 < |value| && value[index..index + 2] == "--" && IsSqlSpace(value[index + 2])) {
        assert OpensLineComment(value[index..]) by {
          if character != '#' { assert value[index..][..2] == value[index..index + 2]; }
        }
        lineComment := true;
        return if character == '-' then index + 2 else index + 1;
      }
      assert !OpensLineComment(value[index..]) by {
        if index + 2 < |value| { assert value[index..][..2] == value[index..index + 2]; }
      }
      if "/*" <= value[index..] {
        blockComment := true;
        keepComment := index + 2 < |value| && (value[index + 2] == '!' || value[index + 2] == '+');
        if keepComment {
          statement := statement + "/*";
        } else {
          assert statement + "" == statement;
        }
        return index + 2;
      }
      if character == '\'' || character == '"' || character == '`' {
        quote := character;
      }
      statement := statement + [character];
      return index + 1;
    }
  }

  /** `splitSQLStatements`: the accepted statements, or which construct was left open. */
  method SplitSqlStatements(script: string) returns (result: SplitResult)
    ensures result == SplitSpec(script)
  {
    var p := new SqlStatementParser();
    var rest := script;
    while rest != ""
      invariant p.Valid() && fresh(p)
      invariant LineFed(p.State(), rest) == LineFed(Start, script)
      decreases |rest|
    {
      var line := FirstLine(rest);
      rest := rest[|line|..];
      p.Feed(line);
    }
    result := p.Close();
  }
}
