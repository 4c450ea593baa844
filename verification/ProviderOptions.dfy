/** What a decoded provider holds, and what its native form says. */
module ProviderOptions {
  import opened Text
  import opened ProcessEnvironment
  import opened ProviderSecrets
  import opened NativeOptions
  import opened OrderedKeys
  import opened ProviderConfiguration
  import opened NativeConversion

  // ---- credentials from separate variables ----

  /** What the variables of one secret supply. */
  function Supplied(vars: Vars, name: string, secret: Secret): Option<string> {
    if secret.kind.ValueSecret? then
      if name + secret.suffix in vars then Some(vars[name + secret.suffix]) else None
    else
      var path, location := Get(vars, name + FileSuffix(secret)), Location(vars, name, secret);
      if path == "" && location == "" then None
      else Some(if secret.managedLocation then location else path)
  }

  predicate Clashes(vars: Vars, name: string, secret: Secret, fields: FieldMap) {
    secret.kind.FileSecret? && Supplied(vars, name, secret).Some? && secret.field in fields
  }

  predicate DistinctFields(secrets: seq<Secret>) {
    forall i, j :: 0 <= i < j < |secrets| ==> secrets[i].field != secrets[j].field
  }

  predicate Overrides(vars: Vars, name: string, secrets: seq<Secret>, key: string) {
    exists secret :: secret in secrets && secret.field == key && Supplied(vars, name, secret).Some?
  }

  /** `after` is `fields` with every supplied secret in its field and nothing else changed. */
  predicate WithSecrets(vars: Vars, name: string, secrets: seq<Secret>, fields: FieldMap, after: FieldMap) {
    && (forall secret :: secret in secrets && Supplied(vars, name, secret).Some? ==>
          secret.field in after && after[secret.field] == Str(Supplied(vars, name, secret).value))
    && (forall key :: key in fields && !Overrides(vars, name, secrets, key) ==> key in after && after[key] == fields[key])
    && (forall key :: key in after ==> key in fields || Overrides(vars, name, secrets, key))
  }

  lemma ApplySecretIs(vars: Vars, name: string, secret: Secret, fields: FieldMap)
    ensures ApplySecret(vars, name, secret, fields)
         == if Clashes(vars, name, secret, fields) then None
            else if Supplied(vars, name, secret).Some? then
              Some(fields[secret.field := Str(Supplied(vars, name, secret).value)])
            else Some(fields)
  {
  }

  /**
   Main result: separate credential variables override credentials in JSON. It fails exactly when a
   file secret is also a field.
   */
  lemma {:induction false} SecretsOverrideFields(vars: Vars, name: string, secrets: seq<Secret>, fields: FieldMap)
    requires DistinctFields(secrets)
    ensures var r := ApplySecrets(vars, name, secrets, fields);
            && (r.None? <==> exists secret :: secret in secrets && Clashes(vars, name, secret, fields))
            && (r.Some? ==> WithSecrets(vars, name, secrets, fields, r.value))
    decreases |secrets|
  {
    if secrets != [] {
      var first, rest := secrets[0], secrets[1..];
      assert secrets == [first] + rest;
      ApplySecretIs(vars, name, first, fields);
      if !Clashes(vars, name, first, fields) {
        var next := ApplySecret(vars, name, first, fields).value;
        SecretsOverrideFields(vars, name, rest, next);
        hide ApplySecret, Supplied;
        forall secret | secret in rest ensures secret.field != first.field && secret in secrets
          ensures Clashes(vars, name, secret, next) <==> Clashes(vars, name, secret, fields)
        {
          var j :| 0 <= j < |rest| && rest[j] == secret;
          assert secrets[j + 1] == secret;
        }
        var r := ApplySecrets(vars, name, rest, next);
        if r.Some? {
          FirstSecret(vars, name, secrets, fields, next, r.value);
        }
      } else {
        assert first in secrets;
      }
    }
  }

  lemma OverridesFirst(vars: Vars, name: string, secrets: seq<Secret>, key: string)
    requires secrets != []
    ensures Overrides(vars, name, secrets, key)
       <==> Overrides(vars, name, secrets[1..], key) || (secrets[0].field == key && Supplied(vars, name, secrets[0]).Some?)
  {
    hide Supplied;
    assert secrets == [secrets[0]] + secrets[1..];
    if Overrides(vars, name, secrets[1..], key) {
      var secret :| secret in secrets[1..] && secret.field == key && Supplied(vars, name, secret).Some?;
      assert secret in secrets;
    }
    if secrets[0].field == key && Supplied(vars, name, secrets[0]).Some? { assert secrets[0] in secrets; }
  }

  lemma FirstSecret(vars: Vars, name: string, secrets: seq<Secret>, fields: FieldMap, next: FieldMap, after: FieldMap)
    requires secrets != [] && forall secret :: secret in secrets[1..] ==> secret.field != secrets[0].field
    requires next == if Supplied(vars, name, secrets[0]).Some? then
                       fields[secrets[0].field := Str(Supplied(vars, name, secrets[0]).value)] else fields
    requires WithSecrets(vars, name, secrets[1..], next, after)
    ensures WithSecrets(vars, name, secrets, fields, after)
  {
    var first, rest := secrets[0], secrets[1..];
    assert secrets == [first] + rest;
    assert !Overrides(vars, name, rest, first.field);
    hide Supplied, Overrides;
    forall secret | secret in secrets && Supplied(vars, name, secret).Some?
      ensures secret.field in after && after[secret.field] == Str(Supplied(vars, name, secret).value)
    {
      assert secret == first || secret in rest;
    }
    forall key | key in fields && !Overrides(vars, name, secrets, key) ensures key in after && after[key] == fields[key] {
      OverridesFirst(vars, name, secrets, key);
    }
    forall key | key in after ensures key in fields || Overrides(vars, name, secrets, key) {
      OverridesFirst(vars, name, secrets, key);
    }
  }

  lemma RegistryFieldsAreDistinct()
    ensures DistinctFields(SECRETS)
  {
  }

  // ---- decoded providers are ready to be rendered ----

  /** What a JSON decoder yields: numbers by their text, and no validated list of types. */
  predicate DecodedText(fields: FieldMap) {
    forall key :: key in fields ==> !fields[key].Types? && (fields[key].Number? ==> NumberText(fields[key].text))
  }

  /** Fields that secrets and defaults may add. */
  const ADDED: set<string> := {
    "username", "password", "ssl_key_password", "ssl_cert_file", "ssl_key_file", "ssl_ca_location",
    "ssl_verify_peer", "ssl_verify_host"
  }

  predicate Simple(value: Value) {
    value.Str? || value.Flag?
  }

  predicate Extends(fields: FieldMap, after: FieldMap) {
    && (forall key :: key in fields ==> key in after && (after[key] == fields[key] || (key in ADDED && Simple(after[key]))))
    && (forall key :: key in after ==> key in fields || (key in ADDED && Simple(after[key])))
  }

  /** Ready to be rendered as the options of `provider`. */
  predicate ReadyFor(param: Parameter, provider: string, fields: FieldMap) {
    && provider in param.providers
    && Ready(fields, param.providers[provider].valueTypes)
    && NoLocations(fields, param.providers[provider].files)
    && fields[PROVIDER] == Str(provider)
  }

  lemma AddedAreOrdinary(key: string)
    requires key in ADDED
    ensures Plain(key) && (key in MANAGED_LOCATIONS ==> key == "ssl_ca_location")
  {
  }

  lemma ExtendedIsReady(param: Parameter, provider: string, fields: FieldMap, after: FieldMap)
    requires GoodParameter(param) && ReadyFor(param, provider, fields) && Extends(fields, after)
    ensures ReadyFor(param, provider, after)
  {
    hide LocationKey, NumberText;
    forall key | key in ADDED ensures Plain(key) && (key in MANAGED_LOCATIONS ==> key == "ssl_ca_location") {
      AddedAreOrdinary(key);
    }
    hide ADDED, MANAGED_LOCATIONS;
    var definition := param.providers[provider];
    forall file | file in definition.files ensures LocationKey(file) !in after {
      assert LocationKey(file) in MANAGED_LOCATIONS && LocationKey(file) != "ssl_ca_location";
    }
  }

  lemma SettledIsReady(param: Parameter, provider: string, fields: FieldMap)
    requires GoodParameter(param) && provider in param.providers && DecodedText(fields)
    requires ValidFields(param, param.providers[provider], fields)
    requires PROVIDER in fields && fields[PROVIDER] == Str(provider)
    ensures ReadyFor(param, provider, Settled(param.providers[provider], fields))
  {
    hide LocationKey, NumberText, ValidPath, FirstNames;
    var definition := param.providers[provider];
    forall key | key in fields ensures '=' !in key && key !in MANAGED_LOCATIONS && key !in param.reserved {
      assert ValidField(param, definition, key, fields[key]);
      assert '=' in ",=;\r\n";
    }
    assert definition.valueTypes && TYPES in fields ==> ValidField(param, definition, TYPES, fields[TYPES]);
    hide MANAGED_LOCATIONS;
  }

  lemma SecretsExtend(vars: Vars, name: string, fields: FieldMap)
    requires ApplySecrets(vars, name, SECRETS, fields).Some?
    ensures Extends(fields, ApplySecrets(vars, name, SECRETS, fields).value)
  {
    RegistryFieldsAreDistinct();
    SecretsOverrideFields(vars, name, SECRETS, fields);
    var after := ApplySecrets(vars, name, SECRETS, fields).value;
    forall secret | secret in SECRETS ensures secret.field in ADDED {
    }
    hide ApplySecrets, Supplied, ADDED;
    forall key | Overrides(vars, name, SECRETS, key) ensures key in ADDED && key in after && Simple(after[key]) {
      var secret :| secret in SECRETS && secret.field == key && Supplied(vars, name, secret).Some?;
      assert after[secret.field] == Str(Supplied(vars, name, secret).value);
    }
  }

  lemma DefaultsExtend(param: Parameter, fields: FieldMap)
    ensures Extends(fields, Defaulted(param, fields))
  {
    hide UsesHttps;
  }

  /** A decoded provider is ready to be rendered. */
  lemma ValidatedIsReady(param: Parameter, vars: Vars, name: string, fields: FieldMap)
    requires GoodParameter(param) && DecodedText(fields) && Validated(param, vars, name, fields).Some?
    ensures var config := Validated(param, vars, name, fields).value;
            ReadyFor(param, config.provider, config.fields) && config.definition == param.providers[config.provider]
  {
    hide ValidKey, ValidPath, HasSecrets, ApplySecrets, Settled, Defaulted, DecodedText, Extends, Ready, NoLocations, WellFormed;
    var config := Validated(param, vars, name, fields).value;
    var definition := param.providers[config.provider];
    assert PROVIDER in fields && fields[PROVIDER] == Str(config.provider) by {
      assert ProviderName(config.provider);
    }
    SettledIsReady(param, config.provider, fields);
    var settled := Settled(definition, fields);
    if definition.secrets {
      SecretsExtend(vars, name, settled);
      settled := ApplySecrets(vars, name, SECRETS, settled).value;
      ExtendedIsReady(param, config.provider, Settled(definition, fields), settled);
    }
    DefaultsExtend(param, settled);
    ExtendedIsReady(param, config.provider, settled, Defaulted(param, settled));
  }

  lemma DecodedIsReady(decoder: Decoder, param: Parameter, vars: Vars, name: string)
    requires GoodParameter(param) && Decoded(decoder, param, vars, name).Some?
    requires DecodedText(decoder(Get(vars, name)).value)
    ensures var config := Decoded(decoder, param, vars, name).value;
            ReadyFor(param, config.provider, config.fields) && config.definition == param.providers[config.provider]
  {
    hide Validated, ReadyFor, GoodParameter, DecodedText;
    ValidatedIsReady(param, vars, name, decoder(Get(vars, name)).value);
  }

  /** Main result: the native text of a provider parses back to its name and settings. */
  lemma RenderedParses(decoder: Decoder, param: Parameter, vars: Vars, name: string)
    requires GoodParameter(param) && Rendered(decoder, param, vars, name).Some?
    requires DecodedText(decoder(Get(vars, name)).value)
    ensures ParseNative(Rendered(decoder, param, vars, name).value)
         == var config := Decoded(decoder, param, vars, name).value;
            var split := SplitFiles(config.fields, config.definition.files);
            Some((config.provider, SettingsOf(split, KeyList(split.Keys), config.definition.valueTypes)))
  {
    DecodedIsReady(decoder, param, vars, name);
    hide Decoded, Ready, WellFormed, NoLocations, SettingsOf, KeyList, SplitFiles, ParseNative;
    var config := Decoded(decoder, param, vars, name).value;
    assert ProviderName(config.provider);
    NativeParses(config.provider, config.definition, config.fields);
  }

  /**
   Main result: two JSON providers get the same native text exactly when they name the same provider
   and their fields agree.
   */
  lemma ProvidersRenderAlike(decoder: Decoder, param: Parameter, vars: Vars, name: string, others: Vars, other: string)
    requires GoodParameter(param)
    requires Rendered(decoder, param, vars, name).Some? && Rendered(decoder, param, others, other).Some?
    requires DecodedText(decoder(Get(vars, name)).value) && DecodedText(decoder(Get(others, other)).value)
    ensures Rendered(decoder, param, vars, name) == Rendered(decoder, param, others, other)
       <==> var c, d := Decoded(decoder, param, vars, name).value, Decoded(decoder, param, others, other).value;
            c.provider == d.provider && SameFields(c.fields, d.fields, c.definition.files)
  {
    DecodedIsReady(decoder, param, vars, name);
    DecodedIsReady(decoder, param, others, other);
    hide Decoded, Ready, WellFormed, NoLocations, Native, SameFields;
    var c, d := Decoded(decoder, param, vars, name).value, Decoded(decoder, param, others, other).value;
    assert ProviderName(c.provider) && ProviderName(d.provider);
    RenderedAlike(c.provider, c.definition, c.fields, d.provider, d.definition, d.fields);
  }

  // ---- the two parameters of the images ----

  const TLS_FILES: seq<string> := ["ssl_cert_file", "ssl_key_file"]

  const HISTORY := Parameter(
    "ZBX_HISTORYPROVIDER",
    map["clickhouse" := Definition(true, TLS_FILES, true),
        "elasticsearch" := Definition(true, [], false),
        "sql" := Definition(true, [], false)],
    {VALUE_TYPES, "vault_path"}, 0, false)

  const TELEMETRY := Parameter(
    "ZBX_TELEMETRYPROVIDER", map["clickhouse" := Definition(false, TLS_FILES, true)], {}, 1, true)

  lemma TlsFilesSplit(file: string)
    requires file in TLS_FILES
    ensures Plain(file) && Plain(LocationKey(file)) && LocationKey(file) in MANAGED_LOCATIONS
    ensures LocationKey(file) != "ssl_ca_location" && LocationKey(file) !in TLS_FILES
    ensures file == "ssl_cert_file" <==> LocationKey(file) == "ssl_cert_location"
  {
    if file == "ssl_cert_file" {
      assert file[|file| - 5..] == "_file" && file[..|file| - 5] == "ssl_cert";
      assert LocationKey(file) == "ssl_cert_location";
    } else {
      assert file == "ssl_key_file";
      assert file[|file| - 5..] == "_file" && file[..|file| - 5] == "ssl_key";
      assert LocationKey(file) == "ssl_key_location";
    }
  }

  lemma TlsFilesAreGood(valueTypes: bool)
    ensures WellFormed(Definition(valueTypes, TLS_FILES, true)) && WellFormed(Definition(valueTypes, [], false))
    ensures forall file :: file in TLS_FILES ==>
              LocationKey(file) in MANAGED_LOCATIONS && LocationKey(file) != "ssl_ca_location"
  {
    hide LocationKey, Plain;
    forall file | file in TLS_FILES
      ensures Plain(file) && Plain(LocationKey(file)) && LocationKey(file) in MANAGED_LOCATIONS
      ensures LocationKey(file) != "ssl_ca_location" && LocationKey(file) !in TLS_FILES
      ensures file == "ssl_cert_file" <==> LocationKey(file) == "ssl_cert_location"
    {
      TlsFilesSplit(file);
    }
    assert TLS_FILES[0] in TLS_FILES && TLS_FILES[1] in TLS_FILES;
  }

  lemma ImageProviderNames(p: string)
    requires p in {"clickhouse", "elasticsearch", "sql"}
    ensures ProviderName(p)
  {
  }

  /** Both parameters meet the conditions of the results above. */
  lemma ImageParametersAreGood()
    ensures GoodParameter(HISTORY) && GoodParameter(TELEMETRY)
  {
    TlsFilesAreGood(true);
    TlsFilesAreGood(false);
    forall p | p in {"clickhouse", "elasticsearch", "sql"} ensures ProviderName(p) {
      ImageProviderNames(p);
    }
    hide LocationKey, Plain, WellFormed, ProviderName, MANAGED_LOCATIONS;
  }
}
