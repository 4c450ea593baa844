/**
 The option string of a native storage provider: how validated JSON fields are rendered, a reference
 parser that undoes the rendering, and which fields render alike.
 */
module NativeOptions {
  import opened Text
  import opened OrderedKeys
  import Paths

  /** A decoded JSON value; `Types` is the list of value types that validation leaves behind. */
  datatype Value =
    | Str(text: string)
    | Number(text: string)          // its shortest decimal text
    | Flag(on: bool)
    | Null
    | List(items: seq<Value>)
    | Record
    | Types(names: seq<string>)

  type FieldMap = map<string, Value>

  datatype Definition = Definition(valueTypes: bool, files: seq<string>, secrets: bool)

  const PROVIDER := "provider"
  const TYPES := "types"
  const VALUE_TYPES := "value_types"

  // ---- rendering ----

  predicate HasLineBreak(s: string) {
    '\n' in s || '\r' in s
  }

  function ReplaceChar(s: string, c: char, with: string): string {
    if s == "" then "" else (if s[0] == c then with else [s[0]]) + ReplaceChar(s[1..], c, with)
  }

  function QuoteOption(s: string): string {
    "\"" + ReplaceChar(ReplaceChar(s, '\\', "\\\\"), '"', "\\\"") + "\""
  }

  function OptionText(key: string, value: Value, valueTypes: bool): Result<string, string> {
    match value
    case Types(names) =>
      if key == TYPES && valueTypes then Success(VALUE_TYPES + "=" + QuoteOption(JoinWith(names, ',')))
      else Failure(key)
    case Str(text) => if HasLineBreak(text) then Failure(key) else Success(key + "=" + QuoteOption(text))
    case Number(text) => Success(key + "=" + text)
    case Flag(on) => Success(key + "=" + if on then "1" else "0")
    case _ => Failure(key)
  }

  /** The options in the order of `keys`; the first key that cannot be rendered fails. */
  function OptionTexts(fields: FieldMap, keys: seq<string>, valueTypes: bool): Result<seq<string>, string>
    requires forall k :: k in keys ==> k in fields
  {
    if keys == [] then Success([])
    else if keys[0] == PROVIDER then OptionTexts(fields, keys[1..], valueTypes)
    else
      match OptionText(keys[0], fields[keys[0]], valueTypes)
      case Failure(key) => Failure(key)
      case Success(text) => Prefixed([text], OptionTexts(fields, keys[1..], valueTypes))
  }

  function Prefixed(texts: seq<string>, r: Result<seq<string>, string>): Result<seq<string>, string> {
    match r
    case Failure(key) => Failure(key)
    case Success(more) => Success(texts + more)
  }

  // ---- absolute file paths become a location and a file name ----

  function LocationKey(file: string): string {
    if |file| >= 5 && file[|file| - 5..] == "_file" then file[..|file| - 5] + "_location" else file + "_location"
  }

  predicate SplitsFile(fields: FieldMap, file: string) {
    file in fields && fields[file].Str? && Paths.IsAbs(fields[file].text)
  }

  function SplitFile(fields: FieldMap, file: string): FieldMap {
    if SplitsFile(fields, file) then
      fields[LocationKey(file) := Str(Paths.Dir(fields[file].text))][file := Str(Paths.Base(fields[file].text))]
    else fields
  }

  function SplitFiles(fields: FieldMap, files: seq<string>): FieldMap
    decreases |files|
  {
    if files == [] then fields else SplitFiles(SplitFile(fields, files[0]), files[1..])
  }

  ghost function Native(provider: string, definition: Definition, fields: FieldMap): Result<string, string> {
    var split := SplitFiles(fields, definition.files);
    match OptionTexts(split, KeyList(split.Keys), definition.valueTypes)
    case Failure(key) => Failure(key)
    case Success(texts) => Success(provider + ";" + JoinWith(texts, ','))
  }

  /** `renderNative`. The result is the same for every order in which the map lists its keys. */
  method RenderNative(provider: string, definition: Definition, given: FieldMap) returns (r: Result<string, string>)
    ensures r == Native(provider, definition, given)
  {
    hide OptionText, OptionTexts, JoinWith, Prefixed, LocationKey, Paths.Dir, Paths.Base, Paths.IsAbs;
    var fields := given;
    for i := 0 to |definition.files|
      invariant SplitFiles(given, definition.files) == SplitFiles(fields, definition.files[i..])
    {
      var key := definition.files[i];
      assert definition.files[i..][1..] == definition.files[i + 1..];
      if key in fields && fields[key].Str? && Paths.IsAbs(fields[key].text) {
        var path := fields[key].text;
        fields := fields[LocationKey(key) := Str(Paths.Dir(path))];
        fields := fields[key := Str(Paths.Base(path))];
      }
    }
    var keys := SortedKeys(fields.Keys);
    var options: seq<string> := [];
    PrefixedNothing(OptionTexts(fields, keys, definition.valueTypes));
    for i := 0 to |keys|
      invariant OptionTexts(fields, keys, definition.valueTypes)
             == Prefixed(options, OptionTexts(fields, keys[i..], definition.valueTypes))
    {
      OptionTextsStep(fields, keys, i, definition.valueTypes, options);
      if keys[i] != PROVIDER {
        var option := OptionText(keys[i], fields[keys[i]], definition.valueTypes);
        if option.Failure? {
          return Failure(option.error);
        }
        options := options + [option.value];
      }
    }
    NoOptionTexts(fields, definition.valueTypes, options);
    return Success(provider + ";" + JoinWith(options, ','));
  }

  lemma PrefixedNothing(r: Result<seq<string>, string>)
    ensures Prefixed([], r) == r
  {
    if r.Success? { assert [] + r.value == r.value; }
  }

  lemma NoOptionTexts(fields: FieldMap, valueTypes: bool, options: seq<string>)
    ensures Prefixed(options, OptionTexts(fields, [], valueTypes)) == Success(options)
  {
    assert options + [] == options;
  }

  /** One key more: it is skipped, fails, or adds its option. */
  lemma OptionTextsStep(fields: FieldMap, keys: seq<string>, i: nat, valueTypes: bool, options: seq<string>)
    requires i < |keys| && forall k :: k in keys ==> k in fields
    ensures Prefixed(options, OptionTexts(fields, keys[i..], valueTypes))
         == var rest, option := OptionTexts(fields, keys[i + 1..], valueTypes), OptionText(keys[i], fields[keys[i]], valueTypes);
            if keys[i] == PROVIDER then Prefixed(options, rest)
            else if option.Failure? then Failure(option.error)
            else Prefixed(options + [option.value], rest)
  {
    hide OptionText;
    var rest := keys[i..];
    assert rest[1..] == keys[i + 1..] && rest[0] == keys[i] && forall k :: k in rest ==> k in keys;
    var option := OptionText(keys[i], fields[keys[i]], valueTypes);
    if keys[i] != PROVIDER && option.Success? {
      assert OptionTexts(fields, rest, valueTypes)
          == Prefixed([option.value], OptionTexts(fields, rest[1..], valueTypes));
      PrefixedTwice(options, [option.value], OptionTexts(fields, keys[i + 1..], valueTypes));
    }
  }

  lemma PrefixedTwice(a: seq<string>, b: seq<string>, r: Result<seq<string>, string>)
    ensures Prefixed(a, Prefixed(b, r)) == Prefixed(a + b, r)
  {
    if r.Success? { assert a + (b + r.value) == a + b + r.value; }
  }

  // ---- reference parser ----

  datatype Token = Quoted(text: string) | Bare(text: string)
  datatype Setting = Setting(name: string, token: Token)

  /** The quoted text that `s` starts with, behind its opening quote, and what follows it. */
  function Unquote(s: string): Option<(string, string)>
    decreases |s|
  {
    if s == "" then None
    else if s[0] == '"' then Some(("", s[1..]))
    else
      var n := if s[0] == '\\' then 2 else 1;
      if |s| < n then None
      else
        match Unquote(s[n..])
        case None => None
        case Some((text, rest)) => Some(([s[n - 1]] + text, rest))
  }

  function UpTo(s: string, c: char): (n: nat)
    ensures n <= |s| && c !in s[..n] && (n < |s| ==> s[n] == c)
  {
    if s == "" || s[0] == c then 0
    else
      var n := 1 + UpTo(s[1..], c);
      assert s[..n] == [s[0]] + s[1..][..n - 1];
      n
  }

  function ParseToken(s: string): Option<(Token, string)> {
    if s != "" && s[0] == '"' then
      match Unquote(s[1..])
      case None => None
      case Some((text, rest)) => Some((Quoted(text), rest))
    else Some((Bare(s[..UpTo(s, ',')]), s[UpTo(s, ',')..]))
  }

  function ParseSettings(s: string): Option<seq<Setting>>
    decreases |s|
  {
    var n := UpTo(s, '=');
    if n == |s| then None
    else
      match ParseToken(s[n + 1..])
      case None => None
      case Some((token, rest)) =>
        if rest == "" then Some([Setting(s[..n], token)])
        else if rest[0] != ',' || |rest| >= |s| then None
        else
          match ParseSettings(rest[1..])
          case None => None
          case Some(more) => Some([Setting(s[..n], token)] + more)
  }

  function ParseNative(s: string): Option<(string, seq<Setting>)> {
    var n := UpTo(s, ';');
    if n == |s| then None
    else if n + 1 == |s| then Some((s[..n], []))
    else
      match ParseSettings(s[n + 1..])
      case None => None
      case Some(settings) => Some((s[..n], settings))
  }

  // ---- the parser undoes the rendering ----

  function EscapeChar(c: char): string {
    if c == '\\' || c == '"' then ['\\', c] else [c]
  }

  function Escape(s: string): string {
    if s == "" then "" else EscapeChar(s[0]) + Escape(s[1..])
  }

  lemma {:induction false} ReplaceConcat(a: string, b: string, c: char, with: string)
    ensures ReplaceChar(a + b, c, with) == ReplaceChar(a, c, with) + ReplaceChar(b, c, with)
    decreases |a|
  {
    if a == "" {
      assert a + b == b;
    } else {
      assert (a + b)[1..] == a[1..] + b;
      ReplaceConcat(a[1..], b, c, with);
    }
  }

  function BothReplaced(s: string): string {
    ReplaceChar(ReplaceChar(s, '\\', "\\\\"), '"', "\\\"")
  }

  lemma BothReplacedFirst(s: string)
    requires s != ""
    ensures BothReplaced(s) == EscapeChar(s[0]) + BothReplaced(s[1..])
  {
    var first := if s[0] == '\\' then "\\\\" else [s[0]];
    ReplaceConcat(first, ReplaceChar(s[1..], '\\', "\\\\"), '"', "\\\"");
    if s[0] == '\\' {
      assert first[1..] == "\\" && first[1..][1..] == "";
      assert ReplaceChar("\\", '"', "\\\"") == "\\";
    } else {
      assert first[1..] == "";
    }
  }

  /** The two replacements together put one backslash before every backslash and quotation mark. */
  lemma {:induction false} QuoteIsEscape(s: string)
    ensures BothReplaced(s) == Escape(s)
    decreases |s|
  {
    hide BothReplaced;
    if s == "" {
      NothingReplaced();
    } else {
      BothReplacedFirst(s);
      QuoteIsEscape(s[1..]);
    }
  }

  lemma NothingReplaced()
    ensures BothReplaced("") == ""
  {
  }

  lemma {:induction false} UnquoteEscape(s: string, rest: string)
    ensures Unquote(Escape(s) + "\"" + rest) == Some((s, rest))
    decreases |s|
  {
    var all := Escape(s) + "\"" + rest;
    if s == "" {
      assert all == "\"" + rest && all[1..] == rest;
    } else {
      var more := Escape(s[1..]) + "\"" + rest;
      UnquoteEscape(s[1..], rest);
      EscapeFirst(s, rest);
      UnquoteFirst(s[0], more);
      assert [s[0]] + s[1..] == s;
    }
  }

  lemma EscapeFirst(s: string, rest: string)
    requires s != ""
    ensures Escape(s) + "\"" + rest == EscapeChar(s[0]) + (Escape(s[1..]) + "\"" + rest)
  {
  }

  lemma UnquoteFirst(c: char, more: string)
    requires Unquote(more).Some?
    ensures Unquote(EscapeChar(c) + more) == Some(([c] + Unquote(more).value.0, Unquote(more).value.1))
  {
    var all := EscapeChar(c) + more;
    assert all[|EscapeChar(c)|..] == more;
  }

  lemma {:induction false} UpToIs(word: string, c: char, rest: string)
    requires c !in word
    ensures UpTo(word + [c] + rest, c) == |word| && UpTo(word, c) == |word|
    decreases |word|
  {
    var s := word + [c] + rest;
    if word != "" {
      assert s[1..] == word[1..] + [c] + rest;
      UpToIs(word[1..], c, rest);
    }
  }

  function TokenText(token: Token): string {
    match token
    case Quoted(text) => "\"" + Escape(text) + "\""
    case Bare(text) => text
  }

  function SettingText(setting: Setting): string {
    setting.name + "=" + TokenText(setting.token)
  }

  function SettingTexts(settings: seq<Setting>): (r: seq<string>)
    ensures |r| == |settings|
    ensures forall i :: 0 <= i < |r| ==> r[i] == SettingText(settings[i])
  {
    if settings == [] then [] else [SettingText(settings[0])] + SettingTexts(settings[1..])
  }

  predicate Writable(setting: Setting) {
    && '=' !in setting.name
    && (setting.token.Bare? ==> ',' !in setting.token.text && '"' !in setting.token.text)
  }

  lemma TokenReads(token: Token, rest: string)
    requires token.Bare? ==> ',' !in token.text && '"' !in token.text
    requires rest != "" ==> rest[0] == ','
    ensures ParseToken(TokenText(token) + rest) == Some((token, rest))
  {
    match token
    case Quoted(text) => QuotedReads(text, rest);
    case Bare(text) => BareReads(text, rest);
  }

  lemma QuotedReads(text: string, rest: string)
    ensures ParseToken(TokenText(Quoted(text)) + rest) == Some((Quoted(text), rest))
  {
    hide Escape, Unquote, UpTo;
    var s := TokenText(Quoted(text)) + rest;
    assert s[1..] == Escape(text) + "\"" + rest;
    UnquoteEscape(text, rest);
  }

  lemma BareReads(text: string, rest: string)
    requires ',' !in text && '"' !in text && (rest != "" ==> rest[0] == ',')
    ensures ParseToken(text + rest) == Some((Bare(text), rest))
  {
    hide Unquote, UpTo;
    var s := text + rest;
    if rest == "" {
      assert s == text;
      UpToIs(text, ',', "");
    } else {
      assert s == text + [','] + rest[1..];
      UpToIs(text, ',', rest[1..]);
    }
    assert s[..|text|] == text && s[|text|..] == rest;
    assert text != "" ==> text[0] in text;
  }

  lemma {:induction false} SettingsRead(settings: seq<Setting>)
    requires settings != [] && forall i :: 0 <= i < |settings| ==> Writable(settings[i])
    ensures ParseSettings(JoinWith(SettingTexts(settings), ',')) == Some(settings)
    decreases |settings|
  {
    hide *;
    JoinedSettings(settings);
    if |settings| == 1 {
      LastSetting(settings[0]);
      assert settings == [settings[0]];
    } else {
      SettingsRead(settings[1..]);
      SettingThen(settings[0], JoinWith(SettingTexts(settings[1..]), ','), settings[1..]);
      assert settings == [settings[0]] + settings[1..];
    }
  }

  lemma JoinedSettings(settings: seq<Setting>)
    requires settings != []
    ensures var s, first := JoinWith(SettingTexts(settings), ','), SettingText(settings[0]);
            s == if |settings| == 1 then first else first + ("," + JoinWith(SettingTexts(settings[1..]), ','))
  {
    FirstSettingText(settings);
    hide SettingText, SettingTexts, JoinWith;
    JoinFirst(SettingTexts(settings));
  }

  lemma FirstSettingText(settings: seq<Setting>)
    requires settings != []
    ensures |SettingTexts(settings)| == |settings| && SettingTexts(settings)[0] == SettingText(settings[0])
    ensures SettingTexts(settings)[1..] == SettingTexts(settings[1..])
  {
    hide SettingText;
  }

  lemma JoinFirst(parts: seq<string>)
    requires parts != []
    ensures JoinWith(parts, ',') == if |parts| == 1 then parts[0] else parts[0] + ("," + JoinWith(parts[1..], ','))
  {
    hide JoinWith;
    if |parts| > 1 {
      JoinTwo(parts);
      Comma(parts[0], JoinWith(parts[1..], ','));
    } else {
      JoinOne(parts);
    }
  }

  lemma JoinOne(parts: seq<string>)
    requires |parts| == 1
    ensures JoinWith(parts, ',') == parts[0]
  {
  }

  lemma JoinTwo(parts: seq<string>)
    requires |parts| > 1
    ensures JoinWith(parts, ',') == parts[0] + [','] + JoinWith(parts[1..], ',')
  {
  }

  lemma Comma(a: string, b: string)
    ensures a + [','] + b == a + ("," + b)
  {
    assert "," == [','];
  }

  lemma LastSetting(setting: Setting)
    requires Writable(setting)
    ensures ParseSettings(SettingText(setting)) == Some([setting])
  {
    hide UpTo, ParseToken, SettingText, Writable;
    OneSettingReads(setting, "");
    assert SettingText(setting) + "" == SettingText(setting);
  }

  lemma SettingThen(first: Setting, tail: string, rest: seq<Setting>)
    requires Writable(first) && ParseSettings(tail) == Some(rest)
    ensures ParseSettings(SettingText(first) + ("," + tail)) == Some([first] + rest)
  {
    hide UpTo, ParseToken, SettingText, Writable;
    OneSettingReads(first, "," + tail);
    assert ("," + tail)[1..] == tail;
  }

  lemma OneSettingReads(setting: Setting, rest: string)
    requires Writable(setting) && (rest != "" ==> rest[0] == ',')
    ensures var s := SettingText(setting) + rest; var n := UpTo(s, '=');
            n < |s| && s[..n] == setting.name && |rest| < |s| && ParseToken(s[n + 1..]) == Some((setting.token, rest))
  {
    var value := TokenText(setting.token) + rest;
    TokenReads(setting.token, rest);
    UpToIs(setting.name, '=', value);
    NameThenValue(setting, rest);
    hide ParseToken, TokenText, SettingText, UpTo;
  }

  lemma NameThenValue(setting: Setting, rest: string)
    ensures var s, value, n := SettingText(setting) + rest, TokenText(setting.token) + rest, |setting.name|;
            && s == setting.name + ['='] + value && |rest| < |s| && n < |s|
            && s[..n] == setting.name && s[n + 1..] == value
  {
    hide TokenText;
    assert SettingText(setting) + rest == setting.name + ['='] + (TokenText(setting.token) + rest);
  }

  // ---- what a field map renders to ----

  function NameOf(key: string, valueTypes: bool): string {
    if key == TYPES && valueTypes then VALUE_TYPES else key
  }

  function TokenOf(value: Value): Token {
    match value
    case Str(text) => Quoted(text)
    case Number(text) => Bare(text)
    case Flag(on) => Bare(if on then "1" else "0")
    case Types(names) => Quoted(JoinWith(names, ','))
    case _ => Bare("")
  }

  function SettingsOf(fields: FieldMap, keys: seq<string>, valueTypes: bool): seq<Setting>
    requires forall k :: k in keys ==> k in fields
  {
    if keys == [] then []
    else if keys[0] == PROVIDER then SettingsOf(fields, keys[1..], valueTypes)
    else [Setting(NameOf(keys[0], valueTypes), TokenOf(fields[keys[0]]))] + SettingsOf(fields, keys[1..], valueTypes)
  }

  /** What validation leaves behind. */
  predicate Ready(fields: FieldMap, valueTypes: bool) {
    && (forall k :: k in fields ==> '=' !in k)
    && (forall k :: k in fields && fields[k].Types? ==> k == TYPES && valueTypes)
    && (forall k :: k in fields && fields[k].Number? ==> NumberText(fields[k].text))
    && (valueTypes && TYPES in fields ==> fields[TYPES].Types?)
    && (valueTypes ==> VALUE_TYPES !in fields)
    && PROVIDER in fields
  }

  predicate NumberText(s: string) {
    forall i :: 0 <= i < |s| ==> '0' <= s[i] <= '9' || s[i] == '-' || s[i] == '.'
  }

  lemma {:induction false} TextsAreSettings(fields: FieldMap, keys: seq<string>, valueTypes: bool)
    requires Ready(fields, valueTypes) && forall k :: k in keys ==> k in fields
    requires OptionTexts(fields, keys, valueTypes).Success?
    ensures OptionTexts(fields, keys, valueTypes).value == SettingTexts(SettingsOf(fields, keys, valueTypes))
    ensures forall i :: 0 <= i < |SettingsOf(fields, keys, valueTypes)| ==> Writable(SettingsOf(fields, keys, valueTypes)[i])
    decreases |keys|
  {
    if keys != [] {
      TextsAreSettings(fields, keys[1..], valueTypes);
      if keys[0] != PROVIDER {
        assert keys[0] in fields;
        OptionIsSetting(keys[0], fields[keys[0]], valueTypes);
      }
    }
  }

  lemma OptionIsSetting(key: string, value: Value, valueTypes: bool)
    requires OptionText(key, value, valueTypes).Success? && '=' !in key
    requires value.Number? ==> NumberText(value.text)
    requires key == TYPES && valueTypes ==> value.Types?
    ensures var setting := Setting(NameOf(key, valueTypes), TokenOf(value));
            OptionText(key, value, valueTypes).value == SettingText(setting) && Writable(setting)
  {
    match value
    case Str(text) => QuoteIsEscape(text);
    case Types(names) => QuoteIsEscape(JoinWith(names, ','));
    case _ =>
  }

  // ---- which fields are rendered, and which render alike ----

  predicate Acceptable(value: Value) {
    match value
    case Str(text) => !HasLineBreak(text)
    case Null => false
    case List(_) => false
    case Record => false
    case _ => true
  }

  /** Rendering succeeds exactly when every option is a string without line break, a number, a flag or types. */
  lemma {:induction false} RendersExactly(fields: FieldMap, keys: seq<string>, valueTypes: bool)
    requires Ready(fields, valueTypes) && forall k :: k in keys ==> k in fields
    ensures OptionTexts(fields, keys, valueTypes).Success?
        <==> forall k :: k in keys && k != PROVIDER ==> Acceptable(fields[k])
    decreases |keys|
  {
    if keys != [] {
      RendersExactly(fields, keys[1..], valueTypes);
      assert keys == [keys[0]] + keys[1..];
      assert keys[0] in fields;
    }
  }

  predicate SameValue(a: Value, b: Value) {
    || a == b
    || (a in {Flag(true), Number("1")} && b in {Flag(true), Number("1")})
    || (a in {Flag(false), Number("0")} && b in {Flag(false), Number("0")})
    || (a.Types? && b.Types? && JoinWith(a.names, ',') == JoinWith(b.names, ','))
  }

  predicate SameOptions(f: FieldMap, g: FieldMap) {
    f.Keys == g.Keys && forall k :: k in f ==> SameValue(f[k], g[k])
  }

  lemma TokensAgree(a: Value, b: Value)
    requires Acceptable(a) && Acceptable(b) && (a.Types? <==> b.Types?)
    ensures TokenOf(a) == TokenOf(b) <==> SameValue(a, b)
  {
  }

  /** The keys that are rendered. */
  function Kept(keys: seq<string>): (r: seq<string>)
    ensures forall k :: k in r <==> k in keys && k != PROVIDER
  {
    if keys == [] then []
    else
      assert keys == [keys[0]] + keys[1..];
      if keys[0] == PROVIDER then Kept(keys[1..]) else [keys[0]] + Kept(keys[1..])
  }

  lemma {:induction false} SettingsAt(fields: FieldMap, keys: seq<string>, valueTypes: bool)
    requires forall k :: k in keys ==> k in fields
    ensures var settings := SettingsOf(fields, keys, valueTypes);
            && |settings| == |Kept(keys)|
            && forall i :: 0 <= i < |settings| ==>
                 settings[i] == Setting(NameOf(Kept(keys)[i], valueTypes), TokenOf(fields[Kept(keys)[i]]))
    decreases |keys|
  {
    hide NameOf, TokenOf;
    if keys != [] {
      SettingsAt(fields, keys[1..], valueTypes);
      var rest := SettingsOf(fields, keys[1..], valueTypes);
      var settings := SettingsOf(fields, keys, valueTypes);
      if keys[0] == PROVIDER {
        assert settings == rest;
      } else {
        assert settings == [settings[0]] + rest && Kept(keys) == [keys[0]] + Kept(keys[1..]);
      }
    }
  }

  predicate AllAcceptable(fields: FieldMap) {
    forall k :: k in fields && k != PROVIDER ==> Acceptable(fields[k])
  }

  lemma SameSettingsSameKeys(f: FieldMap, g: FieldMap, valueTypes: bool)
    requires Ready(f, valueTypes) && Ready(g, valueTypes)
    requires SettingsOf(f, KeyList(f.Keys), valueTypes) == SettingsOf(g, KeyList(g.Keys), valueTypes)
    ensures Kept(KeyList(f.Keys)) == Kept(KeyList(g.Keys)) && f.Keys == g.Keys
  {
    var a, b := Kept(KeyList(f.Keys)), Kept(KeyList(g.Keys));
    SettingsAt(f, KeyList(f.Keys), valueTypes);
    SettingsAt(g, KeyList(g.Keys), valueTypes);
    hide SettingsOf, Kept, KeyList, TokenOf;
    forall i | 0 <= i < |a| ensures a[i] == b[i] {
      assert a[i] in a && b[i] in b;
    }
    assert a == b;
    forall k ensures k in f <==> k in g {
      assert k in KeyList(f.Keys) && k != PROVIDER <==> k in a;
      assert k in KeyList(g.Keys) && k != PROVIDER <==> k in b;
    }
  }

  lemma SettingsAgree(f: FieldMap, g: FieldMap, valueTypes: bool)
    requires Ready(f, valueTypes) && Ready(g, valueTypes) && AllAcceptable(f) && AllAcceptable(g)
    requires f[PROVIDER] == g[PROVIDER]
    ensures SettingsOf(f, KeyList(f.Keys), valueTypes) == SettingsOf(g, KeyList(g.Keys), valueTypes)
        <==> SameOptions(f, g)
  {
    var a, b := SettingsOf(f, KeyList(f.Keys), valueTypes), SettingsOf(g, KeyList(g.Keys), valueTypes);
    SettingsAt(f, KeyList(f.Keys), valueTypes);
    SettingsAt(g, KeyList(g.Keys), valueTypes);
    if a == b {
      SameSettingsSameKeys(f, g, valueTypes);
      AgreeForward(f, g, valueTypes);
    }
    if SameOptions(f, g) {
      var keys := Kept(KeyList(f.Keys));
      forall i | 0 <= i < |a| ensures a[i] == b[i] {
        assert keys[i] in keys;
        TokensAgree(f[keys[i]], g[keys[i]]);
      }
    }
  }

  lemma AgreeForward(f: FieldMap, g: FieldMap, valueTypes: bool)
    requires Ready(f, valueTypes) && Ready(g, valueTypes) && AllAcceptable(f) && AllAcceptable(g)
    requires f[PROVIDER] == g[PROVIDER] && f.Keys == g.Keys
    requires SettingsOf(f, KeyList(f.Keys), valueTypes) == SettingsOf(g, KeyList(g.Keys), valueTypes)
    ensures SameOptions(f, g)
  {
    var keys := Kept(KeyList(f.Keys));
    SettingsAt(f, KeyList(f.Keys), valueTypes);
    SettingsAt(g, KeyList(g.Keys), valueTypes);
    forall k | k in f ensures SameValue(f[k], g[k]) {
      if k != PROVIDER {
        assert k in keys;
        var i :| 0 <= i < |keys| && keys[i] == k;
        TokensAgree(f[k], g[k]);
      }
    }
  }

  // ---- the split of file paths, as a whole ----

  predicate WellFormed(definition: Definition) {
    Separate(definition.files) && forall f :: f in definition.files ==> Plain(f) && Plain(LocationKey(f))
  }

  predicate Plain(key: string) {
    '=' !in key && key != PROVIDER && key != TYPES && key != VALUE_TYPES
  }

  /** Location fields are managed by the image and never given. */
  predicate NoLocations(fields: FieldMap, files: seq<string>) {
    forall f :: f in files ==> LocationKey(f) !in fields
  }

  predicate Separate(files: seq<string>) {
    && (forall i, j :: 0 <= i < j < |files| ==> files[i] != files[j] && LocationKey(files[i]) != LocationKey(files[j]))
    && (forall f :: f in files ==> LocationKey(f) !in files)
  }

  /** What the split leaves at each key. */
  function SplitValue(fields: FieldMap, files: seq<string>, key: string): Value
    requires key in fields
  {
    if key in files && SplitsFile(fields, key) then Str(Paths.Base(fields[key].text)) else fields[key]
  }

  predicate IsSplit(fields: FieldMap, files: seq<string>, split: FieldMap) {
    && (forall k :: k in fields ==> k in split && split[k] == SplitValue(fields, files, k))
    && (forall f :: f in files && SplitsFile(fields, f) ==>
          LocationKey(f) in split && split[LocationKey(f)] == Str(Paths.Dir(fields[f].text)))
    && (forall k :: k in split ==> k in fields || exists f :: f in files && SplitsFile(fields, f) && LocationKey(f) == k)
  }

  lemma {:induction false} SplitIs(fields: FieldMap, files: seq<string>)
    requires Separate(files) && NoLocations(fields, files)
    ensures IsSplit(fields, files, SplitFiles(fields, files))
    decreases |files|
  {
    hide LocationKey, Paths.Dir, Paths.Base, Paths.IsAbs;
    if files != [] {
      var file, rest := files[0], files[1..];
      var next := SplitFile(fields, file);
      var split := SplitFiles(next, rest);
      assert files == [file] + rest;
      NextHasNoLocations(fields, files);
      SplitIs(next, rest);
      SplitStep(fields, files, split);
    }
  }

  /** Splitting the other files first does not change the split of the first one. */
  lemma SplitStep(fields: FieldMap, files: seq<string>, split: FieldMap)
    requires files != [] && Separate(files) && NoLocations(fields, files)
    requires IsSplit(SplitFile(fields, files[0]), files[1..], split)
    ensures IsSplit(fields, files, split)
  {
    hide LocationKey, Paths.Dir, Paths.Base, Paths.IsAbs;
    var file, rest := files[0], files[1..];
    var next := SplitFile(fields, file);
    assert files == [file] + rest;
    FirstIsApart(files);
    forall k | k in fields ensures k in split && split[k] == SplitValue(fields, files, k) {
      assert k in next && (k in files ==> k == file || k in rest) && (k == file ==> k in files);
      assert k != LocationKey(file);
    }
    forall f | f in files && SplitsFile(fields, f)
      ensures LocationKey(f) in split && split[LocationKey(f)] == Str(Paths.Dir(fields[f].text))
    {
      SplitLocation(fields, files, split, f);
    }
    forall k | k in split && k !in fields ensures exists f :: f in files && SplitsFile(fields, f) && LocationKey(f) == k {
      if k in next {
        assert file in files && SplitsFile(fields, file) && LocationKey(file) == k;
      } else {
        var f :| f in rest && SplitsFile(next, f) && LocationKey(f) == k;
        assert f in files && SplitsFile(fields, f);
      }
    }
  }

  lemma SplitLocation(fields: FieldMap, files: seq<string>, split: FieldMap, f: string)
    requires files != [] && Separate(files) && NoLocations(fields, files)
    requires IsSplit(SplitFile(fields, files[0]), files[1..], split)
    requires f in files && SplitsFile(fields, f)
    ensures LocationKey(f) in split && split[LocationKey(f)] == Str(Paths.Dir(fields[f].text))
  {
    hide LocationKey, Paths.Dir, Paths.Base, Paths.IsAbs;
    var file, rest := files[0], files[1..];
    var next := SplitFile(fields, file);
    FirstIsApart(files);
    assert files == [file] + rest;
    if f == file {
      assert LocationKey(file) in next && LocationKey(file) !in rest;
    } else {
      assert f in rest && next[f] == fields[f] && SplitsFile(next, f);
    }
  }

  lemma FirstIsApart(files: seq<string>)
    requires files != [] && Separate(files)
    ensures files[0] !in files[1..] && LocationKey(files[0]) !in files
    ensures forall f :: f in files ==> LocationKey(files[0]) != f
    ensures forall f :: f in files[1..] ==> LocationKey(files[0]) != LocationKey(f) && f in files
  {
    hide LocationKey;
    assert files[0] in files;
    forall f | f in files[1..] ensures LocationKey(files[0]) != LocationKey(f) && f in files && f != files[0] {
      var i :| 0 <= i < |files[1..]| && files[1..][i] == f;
      assert files[i + 1] == f;
    }
  }

  lemma NextHasNoLocations(fields: FieldMap, files: seq<string>)
    requires files != [] && Separate(files) && NoLocations(fields, files)
    ensures NoLocations(SplitFile(fields, files[0]), files[1..]) && Separate(files[1..])
  {
    hide LocationKey, Paths.Dir, Paths.Base, Paths.IsAbs;
    forall f | f in files[1..] ensures LocationKey(f) !in SplitFile(fields, files[0]) {
      var i :| 0 <= i < |files[1..]| && files[1..][i] == f;
      assert files[i + 1] == f && files[i + 1] in files && files[0] in files;
      assert LocationKey(files[0]) != LocationKey(files[i + 1]);
    }
  }

  lemma SplitKeepsReady(fields: FieldMap, definition: Definition)
    requires WellFormed(definition) && Ready(fields, definition.valueTypes) && NoLocations(fields, definition.files)
    ensures Ready(SplitFiles(fields, definition.files), definition.valueTypes)
    ensures SplitFiles(fields, definition.files)[PROVIDER] == fields[PROVIDER]
  {
    SplitIs(fields, definition.files);
    var split := SplitFiles(fields, definition.files);
    hide SplitFiles, NumberText, Separate, LocationKey, Plain;
    forall k | k in split
      ensures '=' !in k && (split[k].Types? ==> k == TYPES && definition.valueTypes)
      ensures (split[k].Number? ==> NumberText(split[k].text)) && (k !in fields ==> Plain(k) && split[k].Str?)
    {
      SplitKeyIsReady(fields, definition, split, k);
    }
    SpecialKeys();
    assert SplitValue(fields, definition.files, PROVIDER) == fields[PROVIDER] by { FilesAreNotSpecial(definition); }
    assert TYPES in fields ==> SplitValue(fields, definition.files, TYPES) == fields[TYPES] by { FilesAreNotSpecial(definition); }
  }

  lemma SpecialKeys()
    ensures !Plain(PROVIDER) && !Plain(TYPES) && !Plain(VALUE_TYPES)
  {
  }

  lemma FilesAreNotSpecial(definition: Definition)
    requires WellFormed(definition)
    ensures PROVIDER !in definition.files && TYPES !in definition.files
  {
    SpecialKeys();
  }

  lemma SplitKeyIsReady(fields: FieldMap, definition: Definition, split: FieldMap, k: string)
    requires WellFormed(definition) && Ready(fields, definition.valueTypes)
    requires IsSplit(fields, definition.files, split) && k in split
    ensures '=' !in k && (split[k].Types? ==> k == TYPES && definition.valueTypes)
    ensures (split[k].Number? ==> NumberText(split[k].text)) && (k !in fields ==> Plain(k) && split[k].Str?)
  {
    hide NumberText, Separate, LocationKey;
    if k !in fields {
      var f :| f in definition.files && SplitsFile(fields, f) && LocationKey(f) == k;
    }
  }

  /** Rendering fails exactly when an option holds a line break or is not a string, number, flag or types. */
  lemma NativeRendersExactly(provider: string, definition: Definition, fields: FieldMap)
    requires WellFormed(definition) && Ready(fields, definition.valueTypes) && NoLocations(fields, definition.files)
    ensures Native(provider, definition, fields).Success? <==> AllAcceptable(SplitFiles(fields, definition.files))
  {
    SplitKeepsReady(fields, definition);
    var split := SplitFiles(fields, definition.files);
    RendersExactly(split, KeyList(split.Keys), definition.valueTypes);
    assert forall k :: k in KeyList(split.Keys) <==> k in split;
  }

  /** Main result: the reference parser returns the provider and the settings behind its fields. */
  lemma NativeParses(provider: string, definition: Definition, fields: FieldMap)
    requires WellFormed(definition) && Ready(fields, definition.valueTypes) && NoLocations(fields, definition.files)
    requires ';' !in provider && Native(provider, definition, fields).Success?
    ensures ParseNative(Native(provider, definition, fields).value)
         == var split := SplitFiles(fields, definition.files);
            Some((provider, SettingsOf(split, KeyList(split.Keys), definition.valueTypes)))
  {
    SplitKeepsReady(fields, definition);
    var split := SplitFiles(fields, definition.files);
    var keys := KeyList(split.Keys);
    TextsAreSettings(split, keys, definition.valueTypes);
    var settings := SettingsOf(split, keys, definition.valueTypes);
    BodyParses(provider, settings);
  }

  lemma BodyParses(provider: string, settings: seq<Setting>)
    requires ';' !in provider && forall i :: 0 <= i < |settings| ==> Writable(settings[i])
    ensures ParseNative(provider + ";" + JoinWith(SettingTexts(settings), ',')) == Some((provider, settings))
  {
    hide ParseSettings, Writable, SettingText;
    var body := JoinWith(SettingTexts(settings), ',');
    var s := provider + [';'] + body;
    UpToIs(provider, ';', body);
    assert s[..|provider|] == provider && s[|provider| + 1..] == body;
    if settings != [] {
      SettingsRead(settings);
      NothingParsesNot();
    }
  }

  lemma NothingParsesNot()
    ensures ParseSettings("") == None
  {
  }

  /** Fields that the native form does not tell apart. */
  predicate SameField(f: FieldMap, g: FieldMap, files: seq<string>, k: string)
    requires k in f && k in g
  {
    if k in files && SplitsFile(f, k) && SplitsFile(g, k) then
      Paths.Dir(f[k].text) == Paths.Dir(g[k].text) && Paths.Base(f[k].text) == Paths.Base(g[k].text)
    else SameValue(f[k], g[k])
  }

  predicate SameFields(f: FieldMap, g: FieldMap, files: seq<string>) {
    f.Keys == g.Keys && forall k :: k in f ==> SameField(f, g, files, k)
  }

  lemma SplitsTogether(f: FieldMap, g: FieldMap, files: seq<string>, file: string)
    requires Separate(files) && NoLocations(f, files) && NoLocations(g, files) && file in files
    requires SplitFiles(f, files).Keys == SplitFiles(g, files).Keys && SplitsFile(f, file)
    ensures SplitsFile(g, file)
  {
    SplitIs(f, files);
    SplitIs(g, files);
    hide LocationKey, SplitFiles, Paths.IsAbs;
    var key := LocationKey(file);
    assert key in SplitFiles(g, files) && key !in g;
    var other :| other in files && SplitsFile(g, other) && LocationKey(other) == key;
    var i :| 0 <= i < |files| && files[i] == file;
    var j :| 0 <= j < |files| && files[j] == other;
    assert i == j;
  }

  /** The split at one given key. */
  lemma SplitAt(fields: FieldMap, files: seq<string>, k: string)
    requires Separate(files) && NoLocations(fields, files) && k in fields
    ensures k in SplitFiles(fields, files) && SplitFiles(fields, files)[k] == SplitValue(fields, files, k)
    ensures k in files && SplitsFile(fields, k) ==>
              LocationKey(k) in SplitFiles(fields, files)
              && SplitFiles(fields, files)[LocationKey(k)] == Str(Paths.Dir(fields[k].text))
  {
    SplitIs(fields, files);
  }

  /** A key that the split adds belongs to one of the files. */
  ghost function SplitAddsFile(fields: FieldMap, files: seq<string>, k: string): (file: string)
    requires Separate(files) && NoLocations(fields, files) && k in SplitFiles(fields, files) && k !in fields
    ensures file in files && file in fields && SplitsFile(fields, file) && LocationKey(file) == k
  {
    SplitIs(fields, files);
    var file :| file in files && SplitsFile(fields, file) && LocationKey(file) == k;
    file
  }

  /** Given keys are exactly the split keys that are not locations. */
  lemma GivenKeys(fields: FieldMap, files: seq<string>, k: string)
    requires Separate(files) && NoLocations(fields, files)
    ensures k in fields <==> k in SplitFiles(fields, files) && forall file :: file in files ==> LocationKey(file) != k
  {
    hide LocationKey, SplitFiles, SplitsFile;
    if k in fields {
      SplitAt(fields, files, k);
    } else if k in SplitFiles(fields, files) {
      assert SplitAddsFile(fields, files, k) in files;
    }
  }

  lemma SameAfterSplit(f: FieldMap, g: FieldMap, files: seq<string>)
    requires Separate(files) && NoLocations(f, files) && NoLocations(g, files)
    requires SameOptions(SplitFiles(f, files), SplitFiles(g, files))
    ensures SameFields(f, g, files)
  {
    hide SplitFiles, SameField, SplitsFile, LocationKey, NoLocations;
    forall k ensures k in f <==> k in g {
      GivenKeys(f, files, k);
      GivenKeys(g, files, k);
    }
    forall k | k in f ensures SameField(f, g, files, k) {
      FieldSameAfterSplit(f, g, files, k);
    }
  }

  lemma FieldSameAfterSplit(f: FieldMap, g: FieldMap, files: seq<string>, k: string)
    requires Separate(files) && NoLocations(f, files) && NoLocations(g, files) && k in f && k in g
    requires SameOptions(SplitFiles(f, files), SplitFiles(g, files))
    ensures SameField(f, g, files, k)
  {
    hide SplitFiles, LocationKey, NoLocations, Paths.IsAbs, Paths.Dir, Paths.Base;
    SplitAt(f, files, k);
    SplitAt(g, files, k);
    if k in files {
      if SplitsFile(f, k) { SplitsTogether(f, g, files, k); }
      if SplitsFile(g, k) { SplitsTogether(g, f, files, k); }
    }
  }

  lemma SameBeforeSplit(f: FieldMap, g: FieldMap, files: seq<string>)
    requires Separate(files) && NoLocations(f, files) && NoLocations(g, files)
    requires SameFields(f, g, files)
    ensures SameOptions(SplitFiles(f, files), SplitFiles(g, files))
  {
    hide SplitFiles, SameField, SplitsFile, LocationKey, NoLocations, SameValue;
    var a, b := SplitFiles(f, files), SplitFiles(g, files);
    forall k | k in a ensures k in b && SameValue(a[k], b[k]) {
      KeySameBeforeSplit(f, g, files, k);
    }
    forall k | k in b ensures k in a {
      SameFieldsBothWays(f, g, files);
      KeySameBeforeSplit(g, f, files, k);
    }
  }

  lemma SameFieldsBothWays(f: FieldMap, g: FieldMap, files: seq<string>)
    requires SameFields(f, g, files)
    ensures SameFields(g, f, files)
  {
    hide SplitsFile, Paths.Dir, Paths.Base;
    forall k | k in g ensures SameField(g, f, files, k) {
      assert SameField(f, g, files, k);
    }
  }

  lemma KeySameBeforeSplit(f: FieldMap, g: FieldMap, files: seq<string>, k: string)
    requires Separate(files) && NoLocations(f, files) && NoLocations(g, files)
    requires SameFields(f, g, files) && k in SplitFiles(f, files)
    ensures k in SplitFiles(g, files) && SameValue(SplitFiles(f, files)[k], SplitFiles(g, files)[k])
  {
    hide SplitFiles, LocationKey, NoLocations, Paths.IsAbs, Paths.Dir, Paths.Base;
    var file := if k in f then k else SplitAddsFile(f, files, k);
    assert SameField(f, g, files, file);
    SplitAt(f, files, file);
    SplitAt(g, files, file);
  }

  /**
   Main result: two providers are rendered alike exactly when their provider names are equal and their
   options agree, where true and 1 agree, false and 0 agree, two lists of types agree when they join
   to the same text, and two absolute file paths agree when they have the same directory and name.
   */
  lemma RenderedAlike(p: string, d: Definition, f: FieldMap, q: string, e: Definition, g: FieldMap)
    requires ';' !in p && ';' !in q && (p == q ==> d == e) && WellFormed(d) && WellFormed(e)
    requires Ready(f, d.valueTypes) && NoLocations(f, d.files) && f[PROVIDER] == Str(p)
    requires Ready(g, e.valueTypes) && NoLocations(g, e.files) && g[PROVIDER] == Str(q)
    requires Native(p, d, f).Success? && Native(q, e, g).Success?
    ensures Native(p, d, f) == Native(q, e, g) <==> p == q && SameFields(f, g, d.files)
  {
    NativeParses(p, d, f);
    NativeParses(q, e, g);
    SplitKeepsReady(f, d);
    SplitKeepsReady(g, e);
    NativeRendersExactly(p, d, f);
    NativeRendersExactly(q, e, g);
    if p == q {
      var a, b := SplitFiles(f, d.files), SplitFiles(g, d.files);
      SettingsAgree(a, b, d.valueTypes);
      if SameOptions(a, b) {
        SameAfterSplit(f, g, d.files);
        TextsAreSettings(a, KeyList(a.Keys), d.valueTypes);
        TextsAreSettings(b, KeyList(b.Keys), d.valueTypes);
      }
      if SameFields(f, g, d.files) {
        SameBeforeSplit(f, g, d.files);
      }
    }
  }

  predicate CommaFree(names: seq<string>) {
    names != [] && forall n :: n in names ==> ',' !in n
  }

  /** Lists of type names without commas agree only when they are equal. */
  lemma CommaFreeTypesAgree(a: seq<string>, b: seq<string>)
    requires CommaFree(a) && CommaFree(b)
    ensures SameValue(Types(a), Types(b)) <==> a == b
  {
    if JoinWith(a, ',') == JoinWith(b, ',') {
      SplitJoin(a, ',');
      SplitJoin(b, ',');
    }
  }

  /** A comma in a type name is lost. */
  lemma CommaInTypeIsLost()
    ensures SameValue(Types(["a,b"]), Types(["a", "b"])) && ["a,b"] != ["a", "b"]
  {
    assert ["a", "b"][1..] == ["b"];
    assert |["a,b"]| != |["a", "b"]|;
  }

  /** Agreeing absolute paths that do not end in a slash lead to the same file. */
  lemma AgreeingPathsLeadToTheSame(a: string, b: string)
    requires Paths.IsAbs(a) && Paths.IsAbs(b) && !Paths.EndsInSlash(a) && !Paths.EndsInSlash(b)
    requires Paths.Dir(a) == Paths.Dir(b) && Paths.Base(a) == Paths.Base(b)
    ensures Paths.Components(a) == Paths.Components(b)
  {
    Paths.SplitPathLeadsToTheSame(a);
    Paths.SplitPathLeadsToTheSame(b);
  }
}