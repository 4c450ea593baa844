/**
 The JSON value that the web image stores for PHP. The PHP helper turns every apostrophe of the text
 into a quotation mark before decoding, so apostrophes are stored as escapes.
 */
module JsonText {
  import opened Text
  import opened ProcessEnvironment

  datatype Json =
    | Word(text: string)                       // a number, true, false or null
    | Str(units: string)
    | Arr(items: seq<Json>)
    | Obj(fields: seq<Field>)

  datatype Field = Field(key: string, value: Json)

  /** Tokens of section 2 of RFC 8259; strings carry their decoded code units. */
  datatype Token = Mark(c: char) | Bare(text: string) | Quoted(units: seq<nat>)

  predicate IsMark(c: char) {
    c in "{}[],:"
  }

  predicate IsBare(c: char) {
    '0' <= c <= '9' || 'a' <= c <= 'z' || 'A' <= c <= 'Z' || c in "+-."
  }

  predicate IsBlank(c: char) {
    c in " \t\n\r"
  }

  // ---- decoding, section 7 of RFC 8259 for strings ----

  function Hex(c: char): Option<nat> {
    if '0' <= c <= '9' then Some(c as nat - '0' as nat)
    else if 'a' <= c <= 'f' then Some(c as nat - 'a' as nat + 10)
    else if 'A' <= c <= 'F' then Some(c as nat - 'A' as nat + 10)
    else None
  }

  /** The code unit of the four hexadecimal digits at the start of `s`. */
  function CodeUnit(s: string): Option<nat> {
    if |s| < 4 || Hex(s[0]).None? || Hex(s[1]).None? || Hex(s[2]).None? || Hex(s[3]).None? then None
    else Some(((Hex(s[0]).value * 16 + Hex(s[1]).value) * 16 + Hex(s[2]).value) * 16 + Hex(s[3]).value)
  }

  function ShortEscape(c: char): Option<nat> {
    match c
    case '"' => Some(0x22)
    case '\\' => Some(0x5C)
    case '/' => Some(0x2F)
    case 'b' => Some(8)
    case 'f' => Some(12)
    case 'n' => Some(10)
    case 'r' => Some(13)
    case 't' => Some(9)
    case _ => None
  }

  /** One character or escape of a string: its code unit and the bytes it takes. */
  function Unit(s: string): (r: Option<(nat, nat)>)
    requires s != "" && s[0] != '"'
    ensures r.Some? ==> 1 <= r.value.1 <= |s|
  {
    if s[0] != '\\' then if s[0] as nat < 0x20 then None else Some((s[0] as nat, 1))
    else if |s| < 2 then None
    else if s[1] == 'u' then
      if CodeUnit(s[2..]).Some? then Some((CodeUnit(s[2..]).value, 6)) else None
    else if ShortEscape(s[1]).Some? then Some((ShortEscape(s[1]).value, 2))
    else None
  }

  /** The decoded rest of a string after its opening quote, and the text behind its closing quote. */
  function LexString(s: string): (r: Option<(seq<nat>, string)>)
    ensures r.Some? ==> |r.value.1| < |s|
    decreases |s|
  {
    if s == "" then None
    else if s[0] == '"' then Some(([], s[1..]))
    else if Unit(s).None? then None
    else
      match LexString(s[Unit(s).value.1..])
      case None => None
      case Some((units, rest)) => Some(([Unit(s).value.0] + units, rest))
  }

  function BareLength(s: string): (n: nat)
    ensures n <= |s| && (s != "" && IsBare(s[0]) ==> n > 0)
  {
    if s == "" || !IsBare(s[0]) then 0 else 1 + BareLength(s[1..])
  }

  function Then(t: Token, rest: Option<seq<Token>>): Option<seq<Token>> {
    match rest
    case None => None
    case Some(ts) => Some([t] + ts)
  }

  /** The tokens of a text, if it has no lexical error. Every decoder is a function of them. */
  function Lex(s: string): Option<seq<Token>>
    decreases |s|
  {
    if s == "" then Some([])
    else if IsBlank(s[0]) then Lex(s[1..])
    else if IsMark(s[0]) then Then(Mark(s[0]), Lex(s[1..]))
    else if s[0] == '"' then
      match LexString(s[1..])
      case None => None
      case Some((units, rest)) => Then(Quoted(units), Lex(rest))
    else if IsBare(s[0]) then Then(Bare(s[..BareLength(s)]), Lex(s[BareLength(s)..]))
    else None
  }

  // ---- the apostrophe ----

  const APOSTROPHE_ESCAPE := "\\u0027"

  function EscapeApostrophes(s: string): string {
    if s == "" then ""
    else (if s[0] == '\'' then APOSTROPHE_ESCAPE else [s[0]]) + EscapeApostrophes(s[1..])
  }

  /** `str_replace("'", '"', $value)`. */
  function PhpQuotes(s: string): string {
    if s == "" then "" else [if s[0] == '\'' then '"' else s[0]] + PhpQuotes(s[1..])
  }

  lemma {:induction false} EscapedHasNone(s: string)
    ensures '\'' !in EscapeApostrophes(s)
    decreases |s|
  {
    if s != "" { EscapedHasNone(s[1..]); }
  }

  lemma {:induction false} PhpLeavesAlone(s: string)
    requires '\'' !in s
    ensures PhpQuotes(s) == s
    decreases |s|
  {
    if s != "" {
      PhpLeavesAlone(s[1..]);
      assert s == [s[0]] + s[1..];
    }
  }

  lemma {:induction false} EscapeConcat(a: string, b: string)
    ensures EscapeApostrophes(a + b) == EscapeApostrophes(a) + EscapeApostrophes(b)
    decreases |a|
  {
    if a == "" {
      assert a + b == b;
    } else {
      assert (a + b)[1..] == a[1..] + b;
      EscapeConcat(a[1..], b);
    }
  }

  lemma {:induction false} EscapeNothing(s: string)
    requires '\'' !in s
    ensures EscapeApostrophes(s) == s
    decreases |s|
  {
    if s != "" {
      EscapeNothing(s[1..]);
      assert s == [s[0]] + s[1..];
    }
  }

  lemma EscapeSplits(s: string, n: nat)
    requires n <= |s|
    ensures EscapeApostrophes(s) == EscapeApostrophes(s[..n]) + EscapeApostrophes(s[n..])
  {
    hide EscapeApostrophes;
    var a, b := s[..n], s[n..];
    EscapeConcat(a, b);
    assert s == a + b;
  }

  /** A valid escape sequence holds no apostrophe, so escaping cannot tear it. */
  lemma EscapeUnit(s: string)
    requires s != "" && s[0] != '"' && Unit(s).Some?
    ensures var e, n := EscapeApostrophes(s), Unit(s).value.1;
            && e != "" && e[0] != '"' && Unit(e).Some? && Unit(e).value.0 == Unit(s).value.0
            && e[Unit(e).value.1..] == EscapeApostrophes(s[n..])
  {
    var n := Unit(s).value.1;
    EscapeSplits(s, n);
    var rest := EscapeApostrophes(s[n..]);
    if s[0] == '\'' {
      assert s[..1] == "'" && EscapeApostrophes("") == "";
      assert EscapeApostrophes(s[..1]) == APOSTROPHE_ESCAPE;
      ApostropheUnit(rest);
    } else {
      UnitHasNoApostrophe(s);
      EscapeNothing(s[..n]);
      UnitIsLocal(s, s[..n] + rest);
      hide EscapeApostrophes, Unit;
      assert (s[..n] + rest)[n..] == rest && (s[..n] + rest)[0] == s[0];
    }
  }

  lemma ApostropheUnit(rest: string)
    ensures var e := APOSTROPHE_ESCAPE + rest;
            Unit(e) == Some((0x27, 6)) && e[6..] == rest
  {
    var e := APOSTROPHE_ESCAPE + rest;
    assert e[2..] == "0027" + rest;
    assert CodeUnit("0027" + rest) == Some(0x27);
  }

  /** A unit depends on its own bytes only. */
  lemma UnitIsLocal(s: string, t: string)
    requires s != "" && s[0] != '"' && Unit(s).Some?
    requires |t| >= Unit(s).value.1 && forall i :: 0 <= i < Unit(s).value.1 ==> t[i] == s[i]
    ensures Unit(t) == Unit(s)
  {
  }

  lemma {:induction false} EscapedStringReads(s: string)
    requires LexString(s).Some?
    ensures LexString(EscapeApostrophes(s))
         == Some((LexString(s).value.0, EscapeApostrophes(LexString(s).value.1)))
    decreases |s|
  {
    if s[0] == '"' {
      assert EscapeApostrophes(s)[1..] == EscapeApostrophes(s[1..]);
    } else {
      EscapeUnit(s);
      EscapedStringReads(s[Unit(s).value.1..]);
    }
  }

  lemma {:induction false} BareEnds(s: string)
    ensures forall i :: 0 <= i < BareLength(s) ==> IsBare(s[i])
    ensures BareLength(s) < |s| ==> !IsBare(s[BareLength(s)])
    decreases |s|
  {
    if s != "" && IsBare(s[0]) { BareEnds(s[1..]); }
  }

  lemma {:induction false} BareIs(word: string, rest: string)
    requires forall i :: 0 <= i < |word| ==> IsBare(word[i])
    requires rest != "" ==> !IsBare(rest[0])
    ensures BareLength(word + rest) == |word|
    decreases |word|
  {
    if word == "" {
      assert word + rest == rest;
    } else {
      assert (word + rest)[0] == word[0] && (word + rest)[1..] == word[1..] + rest;
      BareIs(word[1..], rest);
    }
  }

  lemma EscapeBare(s: string, n: nat)
    requires n == BareLength(s) && n > 0
    ensures var e := EscapeApostrophes(s);
            e != "" && e[0] == s[0] && BareLength(e) == n && e[..n] == s[..n] && e[n..] == EscapeApostrophes(s[n..])
  {
    BareEnds(s);
    assert s == s[..n] + s[n..];
    EscapeConcat(s[..n], s[n..]);
    EscapeNothing(s[..n]);
    BareIs(s[..n], EscapeApostrophes(s[n..]));
  }

  /** Main result: escaping apostrophes changes no token of any JSON text, so no decoded value. */
  lemma {:induction false} EscapeKeepsTokens(s: string)
    requires Lex(s).Some?
    ensures Lex(EscapeApostrophes(s)) == Lex(s)
    decreases |s|
  {
    if s != "" {
      var e := EscapeApostrophes(s);
      if IsBlank(s[0]) || IsMark(s[0]) {
        assert e[1..] == EscapeApostrophes(s[1..]);
        EscapeKeepsTokens(s[1..]);
      } else if s[0] == '"' {
        assert e[1..] == EscapeApostrophes(s[1..]);
        EscapedStringReads(s[1..]);
        EscapeKeepsTokens(LexString(s[1..]).value.1);
      } else {
        var n := BareLength(s);
        EscapeBare(s, n);
        EscapeKeepsTokens(s[n..]);
      }
    }
  }

  // ---- without the escape ----

  lemma {:induction false} PhpConcat(a: string, b: string)
    ensures PhpQuotes(a + b) == PhpQuotes(a) + PhpQuotes(b)
    decreases |a|
  {
    if a == "" {
      assert a + b == b;
    } else {
      assert (a + b)[1..] == a[1..] + b;
      PhpConcat(a[1..], b);
    }
  }

  lemma PhpPrefix(s: string, n: nat)
    requires n <= |s| && '\'' !in s[..n]
    ensures PhpQuotes(s) == s[..n] + PhpQuotes(s[n..])
  {
    hide PhpQuotes;
    var a, b := s[..n], s[n..];
    PhpConcat(a, b);
    PhpLeavesAlone(a);
    assert s == a + b;
  }

  /** The bytes that `LexString` uses. */
  function Used(s: string): string
    requires LexString(s).Some?
  {
    s[..|s| - |LexString(s).value.1|]
  }

  /** What replacing the apostrophes does to the string that `s` continues. */
  predicate PhpStringLaw(s: string)
    requires LexString(s).Some?
  {
    var (units, rest) := LexString(s).value;
    var php := LexString(PhpQuotes(s));
    php.Some? && if '\'' in Used(s) then |php.value.0| < |units| else php.value == (units, PhpQuotes(rest))
  }

  lemma PhpStringEnd(s: string)
    requires s != "" && s[0] == '"'
    ensures LexString(s).Some? && PhpStringLaw(s)
  {
    PhpFirst(s);
    assert Used(s) == "\"";
  }

  lemma PhpStringApostrophe(s: string)
    requires s != "" && s[0] == '\'' && LexString(s).Some?
    ensures PhpStringLaw(s)
  {
    assert PhpQuotes(s)[0] == '"';
    assert Used(s)[0] == '\'';
  }

  lemma UsedUnit(s: string)
    requires s != "" && s[0] != '"' && Unit(s).Some? && LexString(s[Unit(s).value.1..]).Some?
    ensures LexString(s).Some? && Used(s) == s[..Unit(s).value.1] + Used(s[Unit(s).value.1..])
  {
    var n := Unit(s).value.1;
    var k := |LexString(s).value.1|;
    assert s[..|s| - k] == s[..n] + s[n..][..|s| - n - k];
  }

  lemma PhpStringUnit(s: string)
    requires s != "" && s[0] != '"' && s[0] != '\'' && Unit(s).Some?
    requires LexString(s[Unit(s).value.1..]).Some? && PhpStringLaw(s[Unit(s).value.1..])
    ensures LexString(s).Some? && PhpStringLaw(s)
  {
    var n := Unit(s).value.1;
    UsedUnit(s);
    UnitHasNoApostrophe(s);
    PhpPrefix(s, n);
    var t := PhpQuotes(s);
    UnitIsLocal(s, t);
    assert t[n..] == PhpQuotes(s[n..]) && t[0] == s[0];
    assert '\'' in Used(s) <==> '\'' in Used(s[n..]);
    hide PhpQuotes, Used, Unit;
  }

  /** Replaced quotation marks end a string at its first apostrophe. */
  lemma {:induction false} PhpString(s: string)
    requires LexString(s).Some?
    ensures PhpStringLaw(s)
    decreases |s|
  {
    if s[0] == '"' {
      PhpStringEnd(s);
    } else if s[0] == '\'' {
      PhpStringApostrophe(s);
    } else {
      PhpString(s[Unit(s).value.1..]);
      PhpStringUnit(s);
    }
  }

  lemma UnitHasNoApostrophe(s: string)
    requires s != "" && s[0] != '"' && s[0] != '\'' && Unit(s).Some?
    ensures '\'' !in s[..Unit(s).value.1]
  {
    if s[0] == '\\' && s[1] == 'u' {
      assert forall i :: 0 <= i < 4 ==> s[2..][i] == s[i + 2];
    }
  }

  /**
   Main result, why the escape is needed: PHP reads an unescaped text as it was meant exactly when
   the text holds no apostrophe.
   */
  lemma {:induction false} PhpReadsOnlyEscaped(s: string)
    requires Lex(s).Some?
    ensures Lex(PhpQuotes(s)) == Lex(s) <==> '\'' !in s
    decreases |s|
  {
    if s != "" {
      if IsBlank(s[0]) || IsMark(s[0]) {
        PhpReadsOnlyEscaped(s[1..]);
        PhpOneByte(s);
      } else if s[0] == '"' {
        PhpReadsOnlyEscaped(LexString(s[1..]).value.1);
        PhpWholeString(s);
      } else {
        PhpReadsOnlyEscaped(s[BareLength(s)..]);
        PhpBareWord(s);
      }
    }
  }

  /** PHP reads the text as it was meant exactly when it holds no apostrophe. */
  predicate PhpLaw(s: string) {
    Lex(PhpQuotes(s)) == Lex(s) <==> '\'' !in s
  }

  lemma PhpOneByte(s: string)
    requires s != "" && (IsBlank(s[0]) || IsMark(s[0])) && Lex(s).Some? && PhpLaw(s[1..])
    ensures PhpLaw(s)
  {
    PhpFirst(s);
    var t := PhpQuotes(s);
    assert s == [s[0]] + s[1..];
    assert '\'' in s <==> '\'' in s[1..];
    TokenThen(Mark(s[0]), Lex(t[1..]), Lex(s[1..]));
  }

  lemma PhpWholeString(s: string)
    requires s != "" && s[0] == '"' && Lex(s).Some? && LexString(s[1..]).Some? && PhpLaw(LexString(s[1..]).value.1)
    ensures PhpLaw(s)
  {
    var (units, rest) := LexString(s[1..]).value;
    PhpFirst(s);
    PhpString(s[1..]);
    var used := ApostropheOf(s);
    LexQuoted(s);
    LexQuoted(PhpQuotes(s));
    hide PhpQuotes, Used, LexString, Lex, Then;
    var php := LexString(PhpQuotes(s)[1..]).value;
    if '\'' in used {
      OtherToken(Quoted(units), Lex(rest), Quoted(php.0), Lex(php.1));
    } else {
      TokenThen(Quoted(units), Lex(PhpQuotes(rest)), Lex(rest));
    }
  }

  lemma LexQuoted(s: string)
    requires s != "" && s[0] == '"' && LexString(s[1..]).Some?
    ensures Lex(s) == Then(Quoted(LexString(s[1..]).value.0), Lex(LexString(s[1..]).value.1))
  {
    hide LexString;
  }

  lemma ApostropheOf(s: string) returns (used: string)
    requires s != "" && s[0] == '"' && LexString(s[1..]).Some?
    ensures used == Used(s[1..])
    ensures '\'' in s <==> '\'' in used || '\'' in LexString(s[1..]).value.1
  {
    RestIsSuffix(s[1..]);
    used := Used(s[1..]);
    assert s == [s[0]] + used + LexString(s[1..]).value.1;
  }

  lemma OtherToken(t: Token, a: Option<seq<Token>>, u: Token, b: Option<seq<Token>>)
    requires t != u && a.Some?
    ensures Then(t, a) != Then(u, b)
  {
    assert Then(t, a).value[0] == t && (b.Some? ==> Then(u, b).value[0] == u);
  }

  lemma TokenThen(t: Token, a: Option<seq<Token>>, b: Option<seq<Token>>)
    ensures Then(t, a) == Then(t, b) <==> a == b
  {
    if Then(t, a) == Then(t, b) && a.Some? {
      assert a.value == Then(t, a).value[1..] && b.value == Then(t, b).value[1..];
    }
  }

  lemma PhpBareWord(s: string)
    requires s != "" && !IsBlank(s[0]) && !IsMark(s[0]) && IsBare(s[0]) && Lex(s).Some? && PhpLaw(s[BareLength(s)..])
    ensures PhpLaw(s)
  {
    var n := BareLength(s);
    var t := PhpQuotes(s);
    BareEnds(s);
    PhpPrefix(s, n);
    PhpStart(s[n..]);
    BareIs(s[..n], PhpQuotes(s[n..]));
    assert t[n..] == PhpQuotes(s[n..]) && t[..n] == s[..n] && t[0] == s[0];
    assert s == s[..n] + s[n..];
    assert '\'' in s <==> '\'' in s[n..];
    TokenThen(Bare(s[..n]), Lex(t[n..]), Lex(s[n..]));
  }

  lemma PhpFirst(s: string)
    requires s != "" && s[0] != '\''
    ensures PhpQuotes(s) != "" && PhpQuotes(s)[0] == s[0] && PhpQuotes(s)[1..] == PhpQuotes(s[1..])
  {
  }

  lemma PhpStart(s: string)
    requires s != "" ==> !IsBare(s[0])
    ensures PhpQuotes(s) != "" ==> !IsBare(PhpQuotes(s)[0])
  {
  }

  lemma RestBehindUnit(s: string, n: nat, rest: string)
    requires n <= |s| && |rest| <= |s| - n && s[n..][|s| - n - |rest|..] == rest
    ensures s[|s| - |rest|..] == rest && s == s[..|s| - |rest|] + rest
  {
    assert s[n..][|s| - n - |rest|..] == s[|s| - |rest|..];
  }

  lemma {:induction false} RestIsSuffix(s: string)
    requires LexString(s).Some?
    ensures var rest := LexString(s).value.1; s[|s| - |rest|..] == rest && s == Used(s) + rest
    decreases |s|
  {
    if s[0] != '"' {
      var n := Unit(s).value.1;
      RestIsSuffix(s[n..]);
      assert LexString(s).value.1 == LexString(s[n..]).value.1;
      hide Unit, LexString;
      RestBehindUnit(s, n, LexString(s).value.1);
    }
  }

  // ---- encoding ----

  /** `json.Marshal` on one character, in its HTML-safe form. */
  function EncodeChar(c: char): string {
    if c == '"' then "\\\""
    else if c == '\\' then "\\\\"
    else if c as nat == 8 then "\\b"
    else if c as nat == 12 then "\\f"
    else if c == '\n' then "\\n"
    else if c == '\r' then "\\r"
    else if c == '\t' then "\\t"
    else if c as nat < 0x20 || c == '<' || c == '>' || c == '&' then "\\u00" + [HexDigit(c as nat / 16), HexDigit(c as nat % 16)]
    else [c]
  }

  function HexDigit(n: nat): char
    requires n < 16
  {
    if n < 10 then ('0' as int + n) as char else ('a' as int + n - 10) as char
  }

  function EncodeChars(s: string): string {
    if s == "" then "" else EncodeChar(s[0]) + EncodeChars(s[1..])
  }

  function EncodeString(s: string): string {
    "\"" + EncodeChars(s) + "\""
  }

  function Units(s: string): seq<nat> {
    if s == "" then [] else [s[0] as nat] + Units(s[1..])
  }

  function Marshal(v: Json): string
    decreases v, 1
  {
    match v
    case Word(text) => text
    case Str(s) => EncodeString(s)
    case Arr(items) => "[" + MarshalItems(items) + "]"
    case Obj(fields) => "{" + MarshalFields(fields) + "}"
  }

  function MarshalItems(items: seq<Json>): string
    decreases items, 0
  {
    if items == [] then ""
    else Marshal(items[0]) + (if |items| > 1 then "," else "") + MarshalItems(items[1..])
  }

  function MarshalFields(fields: seq<Field>): string
    decreases fields, 0
  {
    if fields == [] then ""
    else
      EncodeString(fields[0].key) + ":" + Marshal(fields[0].value)
      + (if |fields| > 1 then "," else "") + MarshalFields(fields[1..])
  }

  /** The tokens that an encoding stands for. */
  function Tokens(v: Json): seq<Token>
    decreases v, 1
  {
    match v
    case Word(text) => [Bare(text)]
    case Str(s) => [Quoted(Units(s))]
    case Arr(items) => [Mark('[')] + ItemTokens(items) + [Mark(']')]
    case Obj(fields) => [Mark('{')] + FieldTokens(fields) + [Mark('}')]
  }

  function ItemTokens(items: seq<Json>): seq<Token>
    decreases items, 0
  {
    if items == [] then []
    else Tokens(items[0]) + (if |items| > 1 then [Mark(',')] else []) + ItemTokens(items[1..])
  }

  function FieldTokens(fields: seq<Field>): seq<Token>
    decreases fields, 0
  {
    if fields == [] then []
    else
      [Quoted(Units(fields[0].key)), Mark(':')] + Tokens(fields[0].value)
      + (if |fields| > 1 then [Mark(',')] else []) + FieldTokens(fields[1..])
  }

  /** Numbers and literals are bare words. */
  predicate Plain(v: Json)
    decreases v, 1
  {
    match v
    case Word(text) => text != "" && forall i :: 0 <= i < |text| ==> IsBare(text[i])
    case Str(_) => true
    case Arr(items) => PlainItems(items)
    case Obj(fields) => PlainFields(fields)
  }

  predicate PlainItems(items: seq<Json>)
    decreases items, 0
  {
    items == [] || (Plain(items[0]) && PlainItems(items[1..]))
  }

  predicate PlainFields(fields: seq<Field>)
    decreases fields, 0
  {
    fields == [] || (Plain(fields[0].value) && PlainFields(fields[1..]))
  }

  lemma EncodedCharReads(c: char, rest: string)
    ensures var e := EncodeChar(c) + rest;
            e[0] != '"' && Unit(e) == Some((c as nat, |EncodeChar(c)|)) && e[|EncodeChar(c)|..] == rest
  {
    var e := EncodeChar(c) + rest;
    if |EncodeChar(c)| == 6 {
      var n := c as nat;
      assert e[2] == '0' && e[3] == '0' && e[4] == HexDigit(n / 16) && e[5] == HexDigit(n % 16);
      assert Hex(HexDigit(n / 16)) == Some(n / 16) && Hex(HexDigit(n % 16)) == Some(n % 16);
      assert e[2..][0] == '0' && e[2..][1] == '0' && e[2..][2] == e[4] && e[2..][3] == e[5];
    }
  }

  lemma {:induction false} EncodedCharsRead(s: string, rest: string)
    ensures LexString(EncodeChars(s) + "\"" + rest) == Some((Units(s), rest))
    decreases |s|
  {
    var all := EncodeChars(s) + "\"" + rest;
    if s == "" {
      assert all == "\"" + rest && all[1..] == rest;
    } else {
      var more := EncodeChars(s[1..]) + "\"" + rest;
      assert all == EncodeChar(s[0]) + more;
      EncodedCharReads(s[0], more);
      EncodedCharsRead(s[1..], rest);
    }
  }

  function Prepend(ts: seq<Token>, rest: Option<seq<Token>>): Option<seq<Token>> {
    match rest
    case None => None
    case Some(more) => Some(ts + more)
  }

  lemma StringReads(s: string, rest: string)
    ensures Lex(EncodeString(s) + rest) == Prepend([Quoted(Units(s))], Lex(rest))
  {
    var all := EncodeString(s) + rest;
    assert all[1..] == EncodeChars(s) + "\"" + rest;
    EncodedCharsRead(s, rest);
  }

  lemma MarkReads(c: char, rest: string)
    requires IsMark(c)
    ensures Lex([c] + rest) == Prepend([Mark(c)], Lex(rest))
  {
    assert ([c] + rest)[1..] == rest;
  }

  lemma BareReads(word: string, rest: string)
    requires word != "" && (forall i :: 0 <= i < |word| ==> IsBare(word[i])) && (rest != "" ==> !IsBare(rest[0]))
    ensures Lex(word + rest) == Prepend([Bare(word)], Lex(rest))
  {
    BareIs(word, rest);
    var all := word + rest;
    assert all[0] == word[0] && all[..|word|] == word && all[|word|..] == rest;
  }

  lemma PrependTwice(a: seq<Token>, b: seq<Token>, rest: Option<seq<Token>>)
    ensures Prepend(a, Prepend(b, rest)) == Prepend(a + b, rest)
  {
    if rest.Some? { assert a + (b + rest.value) == a + b + rest.value; }
  }

  /** What comes behind an encoded value: nothing, or a byte that ends a bare word. */
  predicate Ends(rest: string) {
    rest != "" ==> !IsBare(rest[0])
  }

  lemma {:induction false} MarshalReads(v: Json, rest: string)
    requires Plain(v) && Ends(rest)
    ensures Lex(Marshal(v) + rest) == Prepend(Tokens(v), Lex(rest))
    decreases v, 1
  {
    hide Lex;
    match v
    case Word(text) => BareReads(text, rest);
    case Str(s) => StringReads(s, rest);
    case Arr(items) =>
      var more := "]" + rest;
      ItemsRead(items, more);
      BracketedReads('[', MarshalItems(items), ItemTokens(items), ']', rest);
    case Obj(fields) =>
      var more := "}" + rest;
      FieldsRead(fields, more);
      BracketedReads('{', MarshalFields(fields), FieldTokens(fields), '}', rest);
  }

  lemma BracketedReads(open: char, inner: string, tokens: seq<Token>, close: char, rest: string)
    requires IsMark(open) && IsMark(close)
    requires Lex(inner + ([close] + rest)) == Prepend(tokens, Lex([close] + rest))
    ensures Lex([open] + inner + [close] + rest) == Prepend([Mark(open)] + tokens + [Mark(close)], Lex(rest))
  {
    hide Lex;
    MarkReads(open, inner + ([close] + rest));
    MarkReads(close, rest);
    assert [open] + inner + [close] + rest == [open] + (inner + ([close] + rest));
    PrependTwice(tokens, [Mark(close)], Lex(rest));
    PrependTwice([Mark(open)], tokens + [Mark(close)], Lex(rest));
    assert [Mark(open)] + (tokens + [Mark(close)]) == [Mark(open)] + tokens + [Mark(close)];
  }

  /** A value, a comma and what follows. */
  lemma ValueThen(text: string, tokens: seq<Token>, tail: string, tailTokens: seq<Token>, rest: string)
    requires Lex(text + ("," + (tail + rest))) == Prepend(tokens, Lex("," + (tail + rest)))
    requires Lex(tail + rest) == Prepend(tailTokens, Lex(rest))
    ensures Lex(text + "," + tail + rest) == Prepend(tokens + [Mark(',')] + tailTokens, Lex(rest))
  {
    hide Lex;
    MarkReads(',', tail + rest);
    assert text + "," + tail + rest == text + ("," + (tail + rest));
    PrependTwice([Mark(',')], tailTokens, Lex(rest));
    PrependTwice(tokens, [Mark(',')] + tailTokens, Lex(rest));
    assert tokens + ([Mark(',')] + tailTokens) == tokens + [Mark(',')] + tailTokens;
  }

  lemma {:induction false} ItemsRead(items: seq<Json>, rest: string)
    requires PlainItems(items) && Ends(rest)
    ensures Lex(MarshalItems(items) + rest) == Prepend(ItemTokens(items), Lex(rest))
    decreases items, 0
  {
    hide Lex, Prepend, Marshal, Tokens;
    if items == [] {
      assert "" + rest == rest;
      PrependNothing(Lex(rest));
    } else if |items| == 1 {
      OneItem(items);
      MarshalReads(items[0], rest);
    } else {
      var tail := MarshalItems(items[1..]);
      ItemsRead(items[1..], rest);
      MarshalReads(items[0], "," + (tail + rest));
      ValueThen(Marshal(items[0]), Tokens(items[0]), tail, ItemTokens(items[1..]), rest);
    }
  }

  lemma OneItem(items: seq<Json>)
    requires |items| == 1
    ensures MarshalItems(items) == Marshal(items[0]) && ItemTokens(items) == Tokens(items[0])
  {
    hide Marshal, Tokens;
    assert MarshalItems(items[1..]) == "" && ItemTokens(items[1..]) == [];
  }

  lemma PrependNothing(rest: Option<seq<Token>>)
    ensures Prepend([], rest) == rest
  {
    if rest.Some? { assert [] + rest.value == rest.value; }
  }

  function KeyTokens(key: string): seq<Token> {
    [Quoted(Units(key)), Mark(':')]
  }

  /** A key, a colon and what follows. */
  lemma KeyThen(key: string, text: string, tokens: seq<Token>, rest: string)
    requires Lex(text) == Prepend(tokens, Lex(rest))
    ensures Lex(EncodeString(key) + ":" + text) == Prepend(KeyTokens(key) + tokens, Lex(rest))
  {
    hide Lex, EncodeString, Units;
    StringReads(key, ":" + text);
    MarkReads(':', text);
    assert EncodeString(key) + ":" + text == EncodeString(key) + (":" + text);
    PrependTwice([Quoted(Units(key))], [Mark(':')], Lex(text));
    assert [Quoted(Units(key))] + [Mark(':')] == KeyTokens(key);
    PrependTwice(KeyTokens(key), tokens, Lex(rest));
  }

  lemma {:induction false} FieldsRead(fields: seq<Field>, rest: string)
    requires PlainFields(fields) && Ends(rest)
    ensures Lex(MarshalFields(fields) + rest) == Prepend(FieldTokens(fields), Lex(rest))
    decreases fields, 0
  {
    hide Lex, Prepend, Marshal, Tokens, MarshalFields, FieldTokens, KeyTokens, EncodeString;
    if fields == [] {
      NoFields();
      assert "" + rest == rest;
      PrependNothing(Lex(rest));
    } else if |fields| == 1 {
      OneField(fields, rest);
      MarshalReads(fields[0].value, rest);
      KeyThen(fields[0].key, Marshal(fields[0].value) + rest, Tokens(fields[0].value), rest);
    } else {
      var value, tail := fields[0].value, MarshalFields(fields[1..]);
      FieldsRead(fields[1..], rest);
      MarshalReads(value, "," + (tail + rest));
      ValueThen(Marshal(value), Tokens(value), tail, FieldTokens(fields[1..]), rest);
      KeyThen(fields[0].key, Marshal(value) + "," + tail + rest, Tokens(value) + [Mark(',')] + FieldTokens(fields[1..]), rest);
      ManyFields(fields, rest);
    }
  }

  lemma NoFields()
    ensures MarshalFields([]) == "" && FieldTokens([]) == []
  {
  }

  lemma OneField(fields: seq<Field>, rest: string)
    requires |fields| == 1
    ensures MarshalFields(fields) + rest == EncodeString(fields[0].key) + ":" + (Marshal(fields[0].value) + rest)
    ensures FieldTokens(fields) == KeyTokens(fields[0].key) + Tokens(fields[0].value)
  {
    hide Marshal, Tokens, EncodeString;
    assert fields[1..] == [];
  }

  lemma ManyFields(fields: seq<Field>, rest: string)
    requires |fields| > 1
    ensures var value, tail := fields[0].value, MarshalFields(fields[1..]);
            MarshalFields(fields) + rest == EncodeString(fields[0].key) + ":" + (Marshal(value) + "," + tail + rest)
    ensures FieldTokens(fields)
         == KeyTokens(fields[0].key) + (Tokens(fields[0].value) + [Mark(',')] + FieldTokens(fields[1..]))
  {
    hide Marshal, Tokens, EncodeString, KeyTokens;
    var value, tail := fields[0].value, MarshalFields(fields[1..]);
    Regroup(EncodeString(fields[0].key) + ":", Marshal(value), ",", tail, rest);
    assert MarshalFields(fields) == EncodeString(fields[0].key) + ":" + Marshal(value) + "," + tail;
    ManyFieldTokens(fields);
  }

  lemma ManyFieldTokens(fields: seq<Field>)
    requires |fields| > 1
    ensures FieldTokens(fields)
         == KeyTokens(fields[0].key) + (Tokens(fields[0].value) + [Mark(',')] + FieldTokens(fields[1..]))
  {
    hide Tokens, Units;
    Regroup(KeyTokens(fields[0].key), Tokens(fields[0].value), [Mark(',')], FieldTokens(fields[1..]), []);
    assert FieldTokens(fields) + [] == FieldTokens(fields);
    assert FieldTokens(fields[1..]) + [] == FieldTokens(fields[1..]);
    assert FieldTokens(fields) == KeyTokens(fields[0].key) + Tokens(fields[0].value) + [Mark(',')] + FieldTokens(fields[1..]);
  }

  lemma Regroup<T>(a: seq<T>, b: seq<T>, c: seq<T>, d: seq<T>, e: seq<T>)
    ensures a + b + c + d + e == a + (b + c + d + e) && a + b + c + d == a + (b + c + d)
  {
    assert a + b + c + d == a + (b + c + d);
  }

  /** An encoding has the tokens of its value. */
  lemma MarshalHasTokens(v: Json)
    requires Plain(v)
    ensures Lex(Marshal(v)) == Some(Tokens(v))
  {
    MarshalReads(v, "");
    assert Marshal(v) + "" == Marshal(v) && Tokens(v) + [] == Tokens(v);
  }

  /** `setWebProviders`. */
  function StoredText(providers: seq<Json>): string {
    EscapeApostrophes(Marshal(Arr(providers)))
  }

  /**
   Main result: the stored text holds no apostrophe, so the PHP helper leaves it alone and reads from
   it exactly the tokens of the provider list.
   */
  lemma PhpReadsProviders(providers: seq<Json>)
    requires PlainItems(providers)
    ensures var text := StoredText(providers);
            && '\'' !in text && PhpQuotes(text) == text
            && Lex(PhpQuotes(text)) == Lex(Marshal(Arr(providers))) == Some(Tokens(Arr(providers)))
  {
    var v := Arr(providers);
    MarshalHasTokens(v);
    EscapeKeepsTokens(Marshal(v));
    EscapedHasNone(Marshal(v));
    PhpLeavesAlone(StoredText(providers));
  }

  method SetWebProviders(env: Environment, name: string, providers: seq<Json>)
    requires PlainItems(providers)
    modifies env
    ensures env.vars == old(env.vars)[name := StoredText(providers)]
    ensures Lex(PhpQuotes(env.vars[name])) == Some(Tokens(Arr(providers)))
  {
    env.Set(name, EscapeApostrophes(Marshal(Arr(providers))));
    PhpReadsProviders(providers);
  }
}
