/** What the native text of a provider says, setting by setting, in terms of its JSON fields and its secrets. */
module NativeMeaning {
  import opened Text
  import opened ProcessEnvironment
  import opened ProviderSecrets
  import opened NativeOptions
  import opened OrderedKeys
  import opened ProviderConfiguration
  import opened NativeConversion
  import opened ProviderOptions
  import Paths

  predicate Says(settings: seq<Setting>, name: string, token: Token) {
    exists i :: 0 <= i < |settings| && settings[i] == Setting(name, token)
  }

  predicate IsTelemetry(param: Parameter) {
    param == TELEMETRY
  }

  /** The two options that name a TLS file, when they give it by an absolute path. */
  predicate AbsoluteFile(given: FieldMap, key: string) {
    key in {"ssl_cert_file", "ssl_key_file"} && key in given && given[key].Str? && given[key].text != "" && given[key].text[0] == '/'
  }

  predicate HasHttpsUrl(given: FieldMap) {
    && "url" in given && given["url"].Str? && |given["url"].text| >= 8
    && EqualFold(given["url"].text[..8], "https://")
  }

  function TokenFor(value: Value): Token {
    match value
    case Str(text) => Quoted(text)
    case Number(text) => Bare(text)
    case Flag(on) => Bare(if on then "1" else "0")
    case _ => Bare("")
  }

  /**
   The setting called `name`, from the fields with their secrets: `telemetry` tells the two parameters
   apart, and only a clickhouse provider has TLS files.
   */
  ghost function Expected(telemetry: bool, clickhouse: bool, given: FieldMap, name: string): Option<Token> {
    if name == "provider" then None
    else if !telemetry && name == "types" then None
    else if !telemetry && name == "value_types" then
      if "types" in given && TypeList(given["types"]) then Some(Quoted(JoinWith(FirstNames(given["types"].items, []), ',')))
      else None
    else if clickhouse && name == "ssl_cert_location" && AbsoluteFile(given, "ssl_cert_file") then
      Some(Quoted(Paths.Dir(given["ssl_cert_file"].text)))
    else if clickhouse && name == "ssl_key_location" && AbsoluteFile(given, "ssl_key_file") then
      Some(Quoted(Paths.Dir(given["ssl_key_file"].text)))
    else if name in given then
      if clickhouse && AbsoluteFile(given, name) then Some(Quoted(Paths.Base(given[name].text))) else Some(TokenFor(given[name]))
    else if telemetry && HasHttpsUrl(given) && name in {"ssl_verify_peer", "ssl_verify_host"} then Some(Bare("1"))
    else None
  }

  // ---- settings and fields ----

  lemma SettingsSay(fields: FieldMap, valueTypes: bool, name: string, token: Token)
    ensures Says(SettingsOf(fields, KeyList(fields.Keys), valueTypes), name, token)
       <==> exists k :: k in fields && k != PROVIDER && name == NameOf(k, valueTypes) && token == TokenOf(fields[k])
  {
    var keys := KeyList(fields.Keys);
    SettingsAt(fields, keys, valueTypes);
    hide SettingsOf, KeyList, NameOf, TokenOf, Kept;
    var settings, kept := SettingsOf(fields, keys, valueTypes), Kept(keys);
    if k :| k in fields && k != PROVIDER && name == NameOf(k, valueTypes) && token == TokenOf(fields[k]) {
      assert k in kept;
      var i :| 0 <= i < |kept| && kept[i] == k;
      assert settings[i] == Setting(name, token);
    }
    if Says(settings, name, token) {
      var i :| 0 <= i < |settings| && settings[i] == Setting(name, token);
      assert kept[i] in kept;
    }
  }

  /** What the path split leaves at a key. */
  lemma SplitSays(fields: FieldMap, files: seq<string>, k: string, value: Value)
    requires Separate(files) && NoLocations(fields, files)
    ensures var split := SplitFiles(fields, files);
            k in split && split[k] == value
            <==> || (k in fields && value == SplitValue(fields, files, k))
                 || (exists f :: f in files && SplitsFile(fields, f) && LocationKey(f) == k
                       && value == Str(Paths.Dir(fields[f].text)))
  {
    SplitIs(fields, files);
    hide LocationKey, SplitFiles, Paths.Dir, Paths.Base, SplitsFile, SplitValue;
    var split := SplitFiles(fields, files);
    if k in split && k !in fields {
      var f :| f in files && SplitsFile(fields, f) && LocationKey(f) == k;
      assert split[k] == Str(Paths.Dir(fields[f].text));
      forall g | g in files && LocationKey(g) == k ensures g == f { SameFile(files, f, g); }
    }
    if f :| f in files && SplitsFile(fields, f) && LocationKey(f) == k {
      assert LocationKey(f) !in fields;
    }
  }

  lemma SameFile(files: seq<string>, f: string, g: string)
    requires Separate(files) && f in files && g in files && LocationKey(f) == LocationKey(g)
    ensures f == g
  {
    hide LocationKey;
    var i :| 0 <= i < |files| && files[i] == f;
    var j :| 0 <= j < |files| && files[j] == g;
  }

  // ---- from the JSON fields to the fields that are rendered ----

  /** The value of a field after validation, secrets and defaults. */
  ghost function FieldOf(telemetry: bool, valueTypes: bool, given: FieldMap, key: string): Option<Value> {
    if valueTypes && key == TYPES && TYPES in given && TypeList(given[TYPES]) then
      Some(Types(FirstNames(given[TYPES].items, [])))
    else if key in given then Some(given[key])
    else if telemetry && HasHttpsUrl(given) && key in {"ssl_verify_peer", "ssl_verify_host"} then Some(Flag(true))
    else None
  }

  ghost predicate FieldsAre(telemetry: bool, valueTypes: bool, given: FieldMap, all: FieldMap) {
    forall key :: (if key in all then Some(all[key]) else None) == FieldOf(telemetry, valueTypes, given, key)
  }

  /** The JSON fields with the supplied secrets, before types are settled and defaults added. */
  lemma GivenFields(param: Parameter, vars: Vars, name: string, fields: FieldMap) returns (given: FieldMap)
    requires param == HISTORY || param == TELEMETRY
    requires Validated(param, vars, name, fields).Some?
    ensures var config := Validated(param, vars, name, fields).value;
            && PROVIDER in fields && fields[PROVIDER] == Str(config.provider)
            && config.provider in param.providers && config.definition == param.providers[config.provider]
            && WithSecrets(vars, name, if config.provider == "clickhouse" then SECRETS else [], fields, given)
            && FieldsAre(param == TELEMETRY, param == HISTORY, given, config.fields)
            && (param == HISTORY && TYPES in given ==> TypeList(given[TYPES]))
  {
    hide ValidKey, ValidPath, HasSecrets, ApplySecrets, WithSecrets, Settled, Defaulted, TypeName, FirstNames, FieldsAre,
         HISTORY, TELEMETRY, SECRETS, TypeList;
    var config := Validated(param, vars, name, fields).value;
    var definition := config.definition;
    ImageDefinitions(param, config.provider);
    var settled := Settled(definition, fields);
    assert definition.valueTypes && TYPES in fields ==> ValidField(param, definition, TYPES, fields[TYPES]);
    var all := settled;
    if definition.secrets {
      all := ApplySecrets(vars, name, SECRETS, settled).value;
      RegistryFieldsAreDistinct();
      SecretsOverrideFields(vars, name, SECRETS, settled);
    } else {
      NoSecretsGiven(vars, name, settled);
    }
    given := TypesAgain(definition, fields, settled, all, vars, name);
    DefaultsAre(param, given, all, definition.valueTypes);
  }

  lemma ImageDefinitions(param: Parameter, provider: string)
    requires (param == HISTORY || param == TELEMETRY) && provider in param.providers
    ensures provider != "" && param.providers[provider].valueTypes == (param == HISTORY)
    ensures param.providers[provider].secrets == (provider == "clickhouse")
    ensures param.providers[provider].files == if provider == "clickhouse" then TLS_FILES else []
  {
    assert HISTORY.prefix != TELEMETRY.prefix;
  }

  lemma NoSecretsGiven(vars: Vars, name: string, fields: FieldMap)
    ensures WithSecrets(vars, name, [], fields, fields)
  {
  }

  /** No secret is a list of types, so the list given in JSON can be put back. */
  lemma TypesAgain(definition: Definition, fields: FieldMap, settled: FieldMap, all: FieldMap, vars: Vars, name: string)
      returns (given: FieldMap)
    requires definition.valueTypes && TYPES in fields ==> TypeList(fields[TYPES])
    requires settled == Settled(definition, fields)
    requires WithSecrets(vars, name, if definition.secrets then SECRETS else [], settled, all)
    ensures given == if definition.valueTypes && TYPES in fields then all[TYPES := fields[TYPES]] else all
    ensures WithSecrets(vars, name, if definition.secrets then SECRETS else [], fields, given)
    ensures definition.valueTypes && TYPES in fields ==>
              TYPES in all && all[TYPES] == Types(FirstNames(fields[TYPES].items, []))
    ensures definition.valueTypes && TYPES !in fields ==> TYPES !in all
  {
    var secrets := if definition.secrets then SECRETS else [];
    forall secret | secret in secrets ensures secret.field != TYPES { SecretIsNoType(secret); }
    hide Supplied, TypeList;
    assert !Overrides(vars, name, secrets, TYPES);
    given := if definition.valueTypes && TYPES in fields then all[TYPES := fields[TYPES]] else all;
  }

  lemma SecretIsNoType(secret: Secret)
    requires secret in SECRETS
    ensures secret.field != TYPES
  {
  }

  lemma UrlIsNoType()
    ensures TYPES != "url" && !HISTORY.telemetryDefaults && TELEMETRY.telemetryDefaults
  {
  }

  lemma DefaultsAre(param: Parameter, given: FieldMap, all: FieldMap, valueTypes: bool)
    requires (param == HISTORY || param == TELEMETRY) && valueTypes == (param == HISTORY)
    requires TYPES in given && valueTypes ==> TypeList(given[TYPES])
    requires all == if valueTypes && TYPES in given then given[TYPES := Types(FirstNames(given[TYPES].items, []))] else given
    ensures FieldsAre(param == TELEMETRY, valueTypes, given, Defaulted(param, all))
  {
    assert HISTORY.telemetryDefaults != TELEMETRY.telemetryDefaults;
    SpecialNames();
    UrlIsNoType();
    hide TypeList, FirstNames, HasHttpsUrl, HISTORY, TELEMETRY;
    var defaulted := Defaulted(param, all);
    forall key ensures (if key in defaulted then Some(defaulted[key]) else None) == FieldOf(param == TELEMETRY, valueTypes, given, key) {
      DefaultAt(param, given, all, valueTypes, key);
    }
  }

  lemma DefaultAt(param: Parameter, given: FieldMap, all: FieldMap, valueTypes: bool, key: string)
    requires (param.telemetryDefaults <==> !valueTypes) && TYPES != "url"
    requires TYPES in given && valueTypes ==> TypeList(given[TYPES])
    requires all == if valueTypes && TYPES in given then given[TYPES := Types(FirstNames(given[TYPES].items, []))] else given
    ensures var defaulted := Defaulted(param, all);
            (if key in defaulted then Some(defaulted[key]) else None) == FieldOf(!valueTypes, valueTypes, given, key)
  {
    hide TypeList, FirstNames, EqualFold;
  }

  // ---- the native text ----

  /** The field whose rendering is called `name`. */
  lemma NamedField(split: FieldMap, valueTypes: bool, name: string, token: Token)
    requires valueTypes ==> VALUE_TYPES !in split
    ensures (exists k :: k in split && k != PROVIDER && name == NameOf(k, valueTypes) && token == TokenOf(split[k]))
       <==> && name != PROVIDER && !(valueTypes && name == TYPES)
            && var k := if valueTypes && name == VALUE_TYPES then TYPES else name;
               k in split && token == TokenOf(split[k])
  {
    assert PROVIDER != TYPES && PROVIDER != VALUE_TYPES && TYPES != VALUE_TYPES;
    hide TokenOf;
    var k := if valueTypes && name == VALUE_TYPES then TYPES else name;
    if name != PROVIDER && !(valueTypes && name == TYPES) && k in split && token == TokenOf(split[k]) {
      assert k != PROVIDER && name == NameOf(k, valueTypes);
    }
  }

  /** One field of the split, in terms of the given fields. */
  lemma SplitMeans(telemetry: bool, clickhouse: bool, given: FieldMap, all: FieldMap, files: seq<string>, k: string, token: Token)
    requires FieldsAre(telemetry, !telemetry, given, all) && files == if clickhouse then TLS_FILES else []
    requires Separate(files) && NoLocations(all, files)
    requires forall key :: key in given ==> !given[key].Types?
    requires !telemetry && TYPES in given ==> TypeList(given[TYPES])
    requires k != PROVIDER && (telemetry || k != VALUE_TYPES)
    ensures var split := SplitFiles(all, files);
            k in split && token == TokenOf(split[k])
            <==> Expected(telemetry, clickhouse, given, if !telemetry && k == TYPES then VALUE_TYPES else k) == Some(token)
  {
    hide SplitFiles, NoLocations, Separate, FieldsAre, TypeList, HasHttpsUrl, TLS_FILES, Expected, LocationKey, TokenFor,
         AbsoluteFile, SplitsFile, TokenOf, Paths.Dir, Paths.Base;
    TlsLocations();
    FileSplits(telemetry, given, all, "ssl_cert_file");
    FileSplits(telemetry, given, all, "ssl_key_file");
    if clickhouse && k == "ssl_cert_location" && AbsoluteFile(given, "ssl_cert_file") {
      LocationMeans(telemetry, given, all, files, "ssl_cert_file", k, token);
    } else if clickhouse && k == "ssl_key_location" && AbsoluteFile(given, "ssl_key_file") {
      LocationMeans(telemetry, given, all, files, "ssl_key_file", k, token);
    } else {
      OwnFieldMeans(telemetry, clickhouse, given, all, files, k, token);
    }
  }

  lemma FileSplits(telemetry: bool, given: FieldMap, all: FieldMap, f: string)
    requires FieldsAre(telemetry, !telemetry, given, all) && f in {"ssl_cert_file", "ssl_key_file"}
    ensures SplitsFile(all, f) <==> AbsoluteFile(given, f)
    ensures AbsoluteFile(given, f) ==> f in given
    ensures f in given <==> f in all
    ensures f in given ==> all[f] == given[f]
  {
    hide TypeList, HasHttpsUrl;
    assert f != TYPES && f !in {"ssl_verify_peer", "ssl_verify_host"};
    assert (if f in all then Some(all[f]) else None) == FieldOf(telemetry, !telemetry, given, f);
  }

  lemma LocationMeans(telemetry: bool, given: FieldMap, all: FieldMap, files: seq<string>, f: string, k: string, token: Token)
    requires Separate(files) && NoLocations(all, files) && f in files && LocationKey(f) == k && SplitsFile(all, f)
    requires f in given && f in all && all[f] == given[f] && AbsoluteFile(given, f)
    requires (f == "ssl_cert_file" && k == "ssl_cert_location") || (f == "ssl_key_file" && k == "ssl_key_location")
    ensures var split := SplitFiles(all, files);
            k in split && token == TokenOf(split[k]) <==> Expected(telemetry, true, given, k) == Some(token)
  {
    SplitSays(all, files, k, Str(Paths.Dir(given[f].text)));
    LocationIsNoSpecial(k);
    hide SplitFiles, NoLocations, Separate, LocationKey, SplitsFile, AbsoluteFile, Paths.Dir, Paths.Base;
  }

  lemma LocationIsNoSpecial(k: string)
    requires k == "ssl_cert_location" || k == "ssl_key_location"
    ensures k != PROVIDER && k != TYPES && k != VALUE_TYPES
  {
  }

  /** No location stands at this key: it keeps its own field. */
  lemma OwnFieldMeans(telemetry: bool, clickhouse: bool, given: FieldMap, all: FieldMap, files: seq<string>, k: string, token: Token)
    requires FieldsAre(telemetry, !telemetry, given, all) && files == if clickhouse then TLS_FILES else []
    requires Separate(files) && NoLocations(all, files)
    requires forall key :: key in given ==> !given[key].Types?
    requires !telemetry && TYPES in given ==> TypeList(given[TYPES])
    requires k != PROVIDER && (telemetry || k != VALUE_TYPES)
    requires !(clickhouse && k == "ssl_cert_location" && AbsoluteFile(given, "ssl_cert_file"))
    requires !(clickhouse && k == "ssl_key_location" && AbsoluteFile(given, "ssl_key_file"))
    ensures var split := SplitFiles(all, files);
            k in split && token == TokenOf(split[k])
            <==> Expected(telemetry, clickhouse, given, if !telemetry && k == TYPES then VALUE_TYPES else k) == Some(token)
  {
    TlsLocations();
    var split := SplitFiles(all, files);
    SplitSays(all, files, k, if k in split then split[k] else if k in all then SplitValue(all, files, k) else Null);
    FileSplits(telemetry, given, all, "ssl_cert_file");
    FileSplits(telemetry, given, all, "ssl_key_file");
    OwnField(telemetry, clickhouse, given, all, files, k);
    SplitsOnlyFiles(files, clickhouse);
    hide SplitFiles, NoLocations, Separate, FieldsAre, TypeList, HasHttpsUrl, TLS_FILES, LocationKey, AbsoluteFile, SplitsFile,
         Paths.Dir, Paths.Base, SplitValue, Expected, FieldOf, TokenOf;
    assert k in split <==> k in all;
    assert k in all ==> split[k] == SplitValue(all, files, k);
    ExpectedOwn(telemetry, clickhouse, given, k, token);
  }

  lemma ExpectedOwn(telemetry: bool, clickhouse: bool, given: FieldMap, k: string, token: Token)
    requires forall key :: key in given ==> !given[key].Types?
    requires !telemetry && TYPES in given ==> TypeList(given[TYPES])
    requires k != PROVIDER && (telemetry || k != VALUE_TYPES)
    requires !(clickhouse && k == "ssl_cert_location" && AbsoluteFile(given, "ssl_cert_file"))
    requires !(clickhouse && k == "ssl_key_location" && AbsoluteFile(given, "ssl_key_file"))
    ensures var field := FieldOf(telemetry, !telemetry, given, k);
            Expected(telemetry, clickhouse, given, if !telemetry && k == TYPES then VALUE_TYPES else k) == Some(token)
            <==> field.Some? && token == TokenOf(if clickhouse && AbsoluteFile(given, k) then Str(Paths.Base(given[k].text)) else field.value)
  {
    SpecialNames();
    hide TypeList, HasHttpsUrl, Paths.Dir, Paths.Base, FirstNames, JoinWith;
  }

  function ImageNames(): set<string> {
    {"ssl_cert_file", "ssl_key_file", "ssl_verify_peer", "ssl_verify_host", "ssl_cert_location", "ssl_key_location"}
  }

  lemma SpecialNames()
    ensures PROVIDER == "provider" && TYPES == "types" && VALUE_TYPES == "value_types"
    ensures "provider" != "types" && "provider" != "value_types" && "types" != "value_types"
    ensures "provider" !in ImageNames() && "types" !in ImageNames() && "value_types" !in ImageNames()
  {
  }

  lemma SplitsOnlyFiles(files: seq<string>, clickhouse: bool)
    requires files == if clickhouse then TLS_FILES else []
    ensures forall f :: f in files <==> clickhouse && (f == "ssl_cert_file" || f == "ssl_key_file")
  {
  }

  /** The value at a key before the split, and what the split makes of it. */
  lemma OwnField(telemetry: bool, clickhouse: bool, given: FieldMap, all: FieldMap, files: seq<string>, k: string)
    requires FieldsAre(telemetry, !telemetry, given, all) && files == if clickhouse then TLS_FILES else []
    requires !telemetry && TYPES in given ==> TypeList(given[TYPES])
    ensures k in all <==> FieldOf(telemetry, !telemetry, given, k).Some?
    ensures k in all ==>
              SplitValue(all, files, k)
                == if clickhouse && AbsoluteFile(given, k) then Str(Paths.Base(given[k].text))
                   else FieldOf(telemetry, !telemetry, given, k).value
  {
    assert (if k in all then Some(all[k]) else None) == FieldOf(telemetry, !telemetry, given, k);
    SplitsOnlyFiles(files, clickhouse);
    if k == "ssl_cert_file" || k == "ssl_key_file" { FileSplits(telemetry, given, all, k); }
    hide TypeList, HasHttpsUrl, TLS_FILES, FieldsAre, Paths.Base, SplitsFile, FieldOf;
  }

  lemma TlsLocations()
    ensures LocationKey("ssl_cert_file") == "ssl_cert_location" && LocationKey("ssl_key_file") == "ssl_key_location"
    ensures forall f :: f in TLS_FILES <==> f == "ssl_cert_file" || f == "ssl_key_file"
  {
    TlsFilesSplit(TLS_FILES[0]);
    TlsFilesSplit(TLS_FILES[1]);
    assert "ssl_cert_file"[|"ssl_cert_file"| - 5..] == "_file" && "ssl_cert_file"[..|"ssl_cert_file"| - 5] == "ssl_cert";
    assert "ssl_key_file"[|"ssl_key_file"| - 5..] == "_file" && "ssl_key_file"[..|"ssl_key_file"| - 5] == "ssl_key";
  }

  lemma GivenHasNoTypes(vars: Vars, name: string, secrets: seq<Secret>, fields: FieldMap, given: FieldMap)
    requires DecodedText(fields) && WithSecrets(vars, name, secrets, fields, given)
    ensures forall key :: key in given ==> !given[key].Types?
  {
    hide Supplied;
    forall key | key in given ensures !given[key].Types? {
      if Overrides(vars, name, secrets, key) {
        var secret :| secret in secrets && secret.field == key && Supplied(vars, name, secret).Some?;
        assert given[secret.field] == Str(Supplied(vars, name, secret).value);
      }
    }
  }

  /**
   Main result: the native text, read back, names the provider of the JSON object, and its settings are
   exactly the JSON fields with the supplied secrets, with absolute TLS files split and, for a telemetry
   provider behind https, both verifications switched on unless they are given.
   */
  lemma NativeSays(decoder: Decoder, param: Parameter, vars: Vars, name: string) returns (given: FieldMap)
    requires param == HISTORY || param == TELEMETRY
    requires Rendered(decoder, param, vars, name).Some? && DecodedText(decoder(Get(vars, name)).value)
    ensures var fields, read := decoder(Get(vars, name)).value, ParseNative(Rendered(decoder, param, vars, name).value);
            && read.Some? && "provider" in fields && fields["provider"] == Str(read.value.0)
            && WithSecrets(vars, name, if read.value.0 == "clickhouse" then SECRETS else [], fields, given)
            && forall n, t :: Says(read.value.1, n, t)
                 <==> Expected(param == TELEMETRY, read.value.0 == "clickhouse", given, n) == Some(t)
  {
    hide Decoded, Native, HISTORY, TELEMETRY, SECRETS, WithSecrets, Expected, Says, ParseNative, SettingsOf, KeyList, SplitFiles, Ready,
         NoLocations, DecodedText, FieldsAre, WellFormed, Validated;
    ImageParametersAreGood();
    RenderedParses(decoder, param, vars, name);
    DecodedIsReady(decoder, param, vars, name);
    var config := Decoded(decoder, param, vars, name).value;
    given := DecodedFields(decoder, param, vars, name);
    var fields := decoder(Get(vars, name)).value;
    GivenHasNoTypes(vars, name, if config.provider == "clickhouse" then SECRETS else [], fields, given);
    ConfigSays(param, config, given);
  }

  lemma DecodedFields(decoder: Decoder, param: Parameter, vars: Vars, name: string) returns (given: FieldMap)
    requires (param == HISTORY || param == TELEMETRY) && Decoded(decoder, param, vars, name).Some?
    ensures var config, fields := Decoded(decoder, param, vars, name).value, decoder(Get(vars, name));
            && fields.Some? && PROVIDER in fields.value && fields.value[PROVIDER] == Str(config.provider)
            && config.provider in param.providers && config.definition == param.providers[config.provider]
            && WithSecrets(vars, name, if config.provider == "clickhouse" then SECRETS else [], fields.value, given)
            && FieldsAre(param == TELEMETRY, param == HISTORY, given, config.fields)
            && (param == HISTORY && TYPES in given ==> TypeList(given[TYPES]))
  {
    hide Validated, FieldsAre, WithSecrets, HISTORY, TELEMETRY, SECRETS;
    given := GivenFields(param, vars, name, decoder(Get(vars, name)).value);
  }

  lemma ConfigSays(param: Parameter, config: Config, given: FieldMap)
    requires (param == HISTORY || param == TELEMETRY) && config.provider in param.providers
    requires config.definition == param.providers[config.provider]
    requires WellFormed(config.definition) && Ready(config.fields, config.definition.valueTypes)
    requires NoLocations(config.fields, config.definition.files)
    requires FieldsAre(param == TELEMETRY, param == HISTORY, given, config.fields)
    requires forall key :: key in given ==> !given[key].Types?
    requires param == HISTORY && TYPES in given ==> TypeList(given[TYPES])
    ensures var split := SplitFiles(config.fields, config.definition.files);
            forall n, t :: Says(SettingsOf(split, KeyList(split.Keys), config.definition.valueTypes), n, t)
              <==> Expected(param == TELEMETRY, config.provider == "clickhouse", given, n) == Some(t)
  {
    ImageDefinitions(param, config.provider);
    UrlIsNoType();
    SplitKeepsReady(config.fields, config.definition);
    hide Says, SettingsOf, KeyList, SplitFiles, FieldsAre, TypeList, NameOf, TokenOf, Expected, NoLocations, Separate, TLS_FILES;
    var split, vt := SplitFiles(config.fields, config.definition.files), config.definition.valueTypes;
    forall n, t
      ensures Says(SettingsOf(split, KeyList(split.Keys), vt), n, t)
         <==> Expected(param == TELEMETRY, config.provider == "clickhouse", given, n) == Some(t)
    {
      SettingsSay(split, vt, n, t);
      NamedField(split, vt, n, t);
      NameSays(param == TELEMETRY, config.provider == "clickhouse", given, config.fields, config.definition.files, n, t);
    }
  }

  /** One name of a setting. */
  lemma NameSays(telemetry: bool, clickhouse: bool, given: FieldMap, all: FieldMap, files: seq<string>, name: string, token: Token)
    requires FieldsAre(telemetry, !telemetry, given, all) && files == if clickhouse then TLS_FILES else []
    requires Separate(files) && NoLocations(all, files)
    requires forall key :: key in given ==> !given[key].Types?
    requires !telemetry && TYPES in given ==> TypeList(given[TYPES])
    ensures (&& name != PROVIDER && !(!telemetry && name == TYPES)
             && var k := if !telemetry && name == VALUE_TYPES then TYPES else name;
                k in SplitFiles(all, files) && token == TokenOf(SplitFiles(all, files)[k]))
       <==> Expected(telemetry, clickhouse, given, name) == Some(token)
  {
    SpecialNames();
    hide SplitFiles, FieldsAre, TypeList, TokenOf, NoLocations, Separate, TLS_FILES;
    if name == PROVIDER || (!telemetry && name == TYPES) {
      assert Expected(telemetry, clickhouse, given, name) == None;
    } else {
      hide Expected;
      SplitMeans(telemetry, clickhouse, given, all, files, if !telemetry && name == VALUE_TYPES then TYPES else name, token);
    }
  }

  /**
   Main result, the defaults alone: behind an https url a telemetry provider verifies peer and host unless
   its JSON says otherwise; any other provider has these settings exactly as its JSON gives them.
   */
  lemma VerificationDefaults(decoder: Decoder, param: Parameter, vars: Vars, name: string, key: string, t: Token)
    requires param == HISTORY || param == TELEMETRY
    requires Rendered(decoder, param, vars, name).Some? && DecodedText(decoder(Get(vars, name)).value)
    requires key == "ssl_verify_peer" || key == "ssl_verify_host"
    ensures var fields, read := decoder(Get(vars, name)).value, ParseNative(Rendered(decoder, param, vars, name).value);
            var https := "url" in fields && fields["url"].Str? && |fields["url"].text| >= 8
              && EqualFold(fields["url"].text[..8], "https://");
            && read.Some?
            && (Says(read.value.1, key, t)
                <==> if key in fields then t == TokenFor(fields[key]) else param == TELEMETRY && https && t == Bare("1"))
  {
    hide Native, Validated, HISTORY, TELEMETRY, Says, ParseNative, DecodedText, EqualFold, SECRETS;
    var given := NativeSays(decoder, param, vars, name);
    var fields, read := decoder(Get(vars, name)).value, ParseNative(Rendered(decoder, param, vars, name).value);
    var secrets := if read.value.0 == "clickhouse" then SECRETS else [];
    NoSecretAt(vars, name, secrets, fields, given, key);
    NoSecretAt(vars, name, secrets, fields, given, "url");
    VerificationIsPlain(key);
    hide WithSecrets;
  }

  lemma VerificationIsPlain(key: string)
    requires key == "ssl_verify_peer" || key == "ssl_verify_host"
    ensures key != "provider" && key != "types" && key != "value_types" && key != "ssl_cert_location" && key != "ssl_key_location"
    ensures forall given: FieldMap :: !AbsoluteFile(given, key)
  {
  }

  /** Secrets leave these fields alone. */
  lemma NoSecretAt(vars: Vars, name: string, secrets: seq<Secret>, fields: FieldMap, given: FieldMap, key: string)
    requires secrets == SECRETS || secrets == []
    requires WithSecrets(vars, name, secrets, fields, given) && key in {"ssl_verify_peer", "ssl_verify_host", "url"}
    ensures (if key in given then Some(given[key]) else None) == (if key in fields then Some(fields[key]) else None)
  {
    assert !Overrides(vars, name, secrets, key) by { NoSecretField(key); }
    hide Overrides, SECRETS;
  }

  lemma NoSecretField(key: string)
    requires key in {"ssl_verify_peer", "ssl_verify_host", "url"}
    ensures forall secret :: secret in SECRETS ==> secret.field != key
  {
  }
}
