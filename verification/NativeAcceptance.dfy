/** Which JSON providers are converted: every condition in terms of the JSON fields and the variables of credentials. */
module NativeAcceptance {
  import opened Text
  import opened ProcessEnvironment
  import opened ProviderSecrets
  import opened NativeOptions
  import opened OrderedKeys
  import opened ProviderConfiguration
  import opened NativeConversion
  import opened ProviderOptions
  import opened NativeMeaning
  import Paths

  // ---- credentials by name ----

  function InVariable(vars: Vars, name: string): Option<string> {
    if name in vars then Some(vars[name]) else None
  }

  function NotEmpty(text: string): Option<string> {
    if text == "" then None else Some(text)
  }

  /** What a separate variable supplies for one field of a provider. */
  function GivenSecret(vars: Vars, name: string, field: string): Option<string> {
    if field == "username" then InVariable(vars, name + "_USERNAME")
    else if field == "password" then InVariable(vars, name + "_PASSWORD")
    else if field == "ssl_key_password" then InVariable(vars, name + "_SSL_KEY_PASSWORD")
    else if field == "ssl_cert_file" then NotEmpty(Get(vars, name + "_SSL_CERTFILE"))
    else if field == "ssl_key_file" then NotEmpty(Get(vars, name + "_SSL_KEYFILE"))
    else if field == "ssl_ca_location" then
      if Get(vars, name + "_SSL_CAFILE") == "" && Get(vars, name + "_SSL_CALOCATION") == "" then None
      else Some(Get(vars, name + "_SSL_CALOCATION"))
    else None
  }

  /** No variable carries a credential of the provider. */
  predicate NoCredentials(vars: Vars, name: string) {
    && name + "_USERNAME" !in vars && name + "_PASSWORD" !in vars && name + "_SSL_KEY_PASSWORD" !in vars
    && Get(vars, name + "_SSL_CERT") == "" && Get(vars, name + "_SSL_CERTFILE") == ""
    && Get(vars, name + "_SSL_KEY") == "" && Get(vars, name + "_SSL_KEYFILE") == ""
    && Get(vars, name + "_SSL_CA") == "" && Get(vars, name + "_SSL_CAFILE") == "" && Get(vars, name + "_SSL_CALOCATION") == ""
  }

  predicate SecretFields(field: string) {
    field in {"username", "password", "ssl_key_password", "ssl_cert_file", "ssl_key_file", "ssl_ca_location"}
  }

  lemma SuppliedIs(vars: Vars, name: string, secret: Secret)
    requires secret in SECRETS
    ensures Supplied(vars, name, secret) == GivenSecret(vars, name, secret.field) && SecretFields(secret.field)
    ensures secret.kind.FileSecret? <==> secret.field in {"ssl_cert_file", "ssl_key_file", "ssl_ca_location"}
  {
    FileEndings();
    hide Get;
  }

  lemma FileEndings()
    ensures "_SSL_CERT" + "FILE" == "_SSL_CERTFILE" && "_SSL_KEY" + "FILE" == "_SSL_KEYFILE" && "_SSL_CA" + "FILE" == "_SSL_CAFILE"
    ensures forall name :: name + "_SSL_CA" + "LOCATION" == name + "_SSL_CALOCATION"
  {
    assert forall name :: name + "_SSL_CA" + "LOCATION" == name + ("_SSL_CA" + "LOCATION");
    assert "_SSL_CA" + "LOCATION" == "_SSL_CALOCATION";
  }

  lemma SecretOf(field: string) returns (secret: Secret)
    requires SecretFields(field)
    ensures secret in SECRETS && secret.field == field
  {
    var i := if field == "username" then 0 else if field == "password" then 1 else if field == "ssl_key_password" then 2
             else if field == "ssl_cert_file" then 3 else if field == "ssl_key_file" then 4 else 5;
    secret := SECRETS[i];
  }

  lemma NoCredentialsIs(vars: Vars, name: string)
    ensures HasSecrets(vars, name) <==> !NoCredentials(vars, name)
  {
    forall i | 0 <= i < 6 ensures HasSecret(vars, name, SECRETS[i]) <==> HasCredential(vars, name, i) {
      CredentialIs(vars, name, i);
    }
    hide HasSecret, Get;
    assert HasSecrets(vars, name) <==> exists i :: 0 <= i < 6 && HasSecret(vars, name, SECRETS[i]);
    assert HasCredential(vars, name, 0) || HasCredential(vars, name, 1) || HasCredential(vars, name, 2)
        || HasCredential(vars, name, 3) || HasCredential(vars, name, 4) || HasCredential(vars, name, 5)
       <==> !NoCredentials(vars, name);
  }

  predicate HasCredential(vars: Vars, name: string, i: nat) {
    if i == 0 then name + "_USERNAME" in vars
    else if i == 1 then name + "_PASSWORD" in vars
    else if i == 2 then name + "_SSL_KEY_PASSWORD" in vars
    else if i == 3 then Get(vars, name + "_SSL_CERT") != "" || Get(vars, name + "_SSL_CERTFILE") != ""
    else if i == 4 then Get(vars, name + "_SSL_KEY") != "" || Get(vars, name + "_SSL_KEYFILE") != ""
    else Get(vars, name + "_SSL_CA") != "" || Get(vars, name + "_SSL_CAFILE") != "" || Get(vars, name + "_SSL_CALOCATION") != ""
  }

  lemma CredentialIs(vars: Vars, name: string, i: nat)
    requires i < 6
    ensures HasSecret(vars, name, SECRETS[i]) <==> HasCredential(vars, name, i)
  {
    FileEndings();
    hide Get;
  }

  function FieldAt(fields: FieldMap, key: string): Option<Value> {
    if key in fields then Some(fields[key]) else None
  }

  /** The fields of a provider with its credentials. */
  ghost predicate Completed(vars: Vars, name: string, fields: FieldMap, given: FieldMap) {
    forall key :: FieldAt(given, key)
      == if GivenSecret(vars, name, key).Some? then Some(Str(GivenSecret(vars, name, key).value)) else FieldAt(fields, key)
  }

  /** Main result: which variable fills which field, for the whole registry. */
  lemma CredentialsFill(vars: Vars, name: string, fields: FieldMap, given: FieldMap)
    ensures WithSecrets(vars, name, SECRETS, fields, given) <==> Completed(vars, name, fields, given)
  {
    forall key ensures Overrides(vars, name, SECRETS, key) <==> GivenSecret(vars, name, key).Some? {
      OverridesIs(vars, name, key);
    }
    forall secret | secret in SECRETS ensures Supplied(vars, name, secret) == GivenSecret(vars, name, secret.field) {
      SuppliedIs(vars, name, secret);
    }
    hide SECRETS, GivenSecret, Supplied, Overrides;
    if WithSecrets(vars, name, SECRETS, fields, given) {
      forall key ensures FieldAt(given, key)
        == if GivenSecret(vars, name, key).Some? then Some(Str(GivenSecret(vars, name, key).value)) else FieldAt(fields, key)
      {
        FilledAt(vars, name, fields, given, key);
      }
    }
    if Completed(vars, name, fields, given) {
      CompletedIs(vars, name, fields, given);
    }
  }

  lemma OverridesIs(vars: Vars, name: string, key: string)
    ensures Overrides(vars, name, SECRETS, key) <==> GivenSecret(vars, name, key).Some?
  {
    forall secret | secret in SECRETS ensures Supplied(vars, name, secret) == GivenSecret(vars, name, secret.field) {
      SuppliedIs(vars, name, secret);
    }
    if GivenSecret(vars, name, key).Some? {
      var secret := SecretOf(key);
    }
    hide SECRETS, GivenSecret, Supplied;
  }

  lemma FilledAt(vars: Vars, name: string, fields: FieldMap, given: FieldMap, key: string)
    requires WithSecrets(vars, name, SECRETS, fields, given)
    requires Overrides(vars, name, SECRETS, key) <==> GivenSecret(vars, name, key).Some?
    requires forall secret :: secret in SECRETS ==> Supplied(vars, name, secret) == GivenSecret(vars, name, secret.field)
    ensures FieldAt(given, key)
         == if GivenSecret(vars, name, key).Some? then Some(Str(GivenSecret(vars, name, key).value)) else FieldAt(fields, key)
  {
    hide SECRETS, GivenSecret, Supplied;
    if GivenSecret(vars, name, key).Some? {
      var secret :| secret in SECRETS && secret.field == key && Supplied(vars, name, secret).Some?;
    }
  }

  lemma CompletedIs(vars: Vars, name: string, fields: FieldMap, given: FieldMap)
    requires Completed(vars, name, fields, given)
    requires forall key :: Overrides(vars, name, SECRETS, key) <==> GivenSecret(vars, name, key).Some?
    requires forall secret :: secret in SECRETS ==> Supplied(vars, name, secret) == GivenSecret(vars, name, secret.field)
    ensures WithSecrets(vars, name, SECRETS, fields, given)
  {
    hide SECRETS, GivenSecret, Supplied, Overrides;
    forall key ensures FieldAt(given, key)
      == if GivenSecret(vars, name, key).Some? then Some(Str(GivenSecret(vars, name, key).value)) else FieldAt(fields, key)
    {
    }
    forall secret | secret in SECRETS && Supplied(vars, name, secret).Some?
      ensures secret.field in given && given[secret.field] == Str(Supplied(vars, name, secret).value)
    {
      assert FieldAt(given, secret.field).Some?;
    }
    forall key | key in fields && !Overrides(vars, name, SECRETS, key) ensures key in given && given[key] == fields[key] {
      assert FieldAt(given, key) == FieldAt(fields, key);
    }
    forall key | key in given ensures key in fields || Overrides(vars, name, SECRETS, key) {
      assert FieldAt(given, key).Some?;
    }
  }

  // ---- conditions on the JSON fields ----

  predicate OneLine(text: string) {
    '\n' !in text && '\r' !in text
  }

  predicate GoodKey(telemetry: bool, key: string) {
    && key != "" && (forall c :: c in key ==> c != ',' && c != '=' && c != ';' && c != '\r' && c != '\n')
    && key !in {"ssl_ca_file", "ssl_ca_location", "ssl_cert_location", "ssl_key_location"}
    && (!telemetry ==> key !in {"value_types", "vault_path"})
  }

  predicate GoodTypes(value: Value) {
    && value.List? && value.items != []
    && forall i :: 0 <= i < |value.items| ==> value.items[i].Str? && value.items[i].text != "" && OneLine(value.items[i].text)
  }

  /** A path that names a file, absolute or inside the default directory. */
  predicate GoodPath(value: Value) {
    && value.Str? && value.text != "" && (forall c :: c in value.text ==> c != '\\' && c != '\r' && c != '\n' && c != '\0')
    && (value.text[0] == '/' || (Paths.Components(value.text) != [] && Paths.Components(value.text)[0] != ".."))
  }

  predicate GoodOption(value: Value) {
    value.Number? || value.Flag? || value.Types? || (value.Str? && OneLine(value.text))
  }

  predicate IsTlsFile(key: string) {
    key == "ssl_cert_file" || key == "ssl_key_file"
  }

  /** What a field must hold for the image, before it is rendered. */
  predicate GoodShape(telemetry: bool, clickhouse: bool, key: string, value: Value) {
    if !telemetry && key == "types" then GoodTypes(value)
    else clickhouse && IsTlsFile(key) ==> GoodPath(value)
  }

  predicate GoodValue(telemetry: bool, clickhouse: bool, key: string, value: Value) {
    if key == "provider" then true
    else if !telemetry && key == "types" then GoodTypes(value)
    else if clickhouse && IsTlsFile(key) then GoodPath(value)
    else GoodOption(value)
  }

  /** A supplied credential that an option can hold: an absolute path of a TLS file is split first. */
  predicate GoodCredential(field: string, text: string) {
    if IsTlsFile(field) && text != "" && text[0] == '/' then OneLine(Paths.Dir(text)) && OneLine(Paths.Base(text)) else OneLine(text)
  }

  predicate KnownProvider(telemetry: bool, provider: string) {
    provider == "clickhouse" || (!telemetry && (provider == "elasticsearch" || provider == "sql"))
  }

  /** A file credential must not be given twice, and providers other than clickhouse take none. */
  predicate CredentialsFit(vars: Vars, name: string, clickhouse: bool, fields: FieldMap) {
    if clickhouse then forall key :: IsTlsFile(key) && GivenSecret(vars, name, key).Some? ==> key !in fields
    else NoCredentials(vars, name)
  }

  predicate Named(telemetry: bool, fields: FieldMap) {
    "provider" in fields && fields["provider"].Str? && KnownProvider(telemetry, fields["provider"].text)
  }

  ghost predicate WellShaped(telemetry: bool, vars: Vars, name: string, fields: FieldMap) {
    && Named(telemetry, fields)
    && var clickhouse := fields["provider"].text == "clickhouse";
       && (forall key :: key in fields ==> GoodKey(telemetry, key) && GoodShape(telemetry, clickhouse, key, fields[key]))
       && CredentialsFit(vars, name, clickhouse, fields)
  }

  /** The providers that are converted. */
  ghost predicate Accepted(telemetry: bool, vars: Vars, name: string, fields: FieldMap) {
    && Named(telemetry, fields)
    && var clickhouse := fields["provider"].text == "clickhouse";
       && (forall key :: key in fields ==>
             GoodKey(telemetry, key)
             && (if clickhouse && GivenSecret(vars, name, key).Some? then GoodShape(telemetry, clickhouse, key, fields[key])
                 else GoodValue(telemetry, clickhouse, key, fields[key])))
       && CredentialsFit(vars, name, clickhouse, fields)
       && (clickhouse ==> forall key :: GivenSecret(vars, name, key).Some? ==> GoodCredential(key, GivenSecret(vars, name, key).value))
  }

  // ---- validation ----

  lemma ProvidersAre(param: Parameter, provider: string)
    requires param == HISTORY || param == TELEMETRY
    ensures provider in param.providers <==> KnownProvider(param == TELEMETRY, provider)
  {
    assert HISTORY.prefix != TELEMETRY.prefix;
  }

  lemma ReservedAre(param: Parameter, key: string)
    requires param == HISTORY || param == TELEMETRY
    ensures ValidKey(param, key) <==> GoodKey(param == TELEMETRY, key)
  {
    assert HISTORY.prefix != TELEMETRY.prefix;
    assert forall c :: c in ",=;\r\n" <==> c == ',' || c == '=' || c == ';' || c == '\r' || c == '\n';
  }

  lemma TypesAre(value: Value)
    ensures TypeList(value) <==> GoodTypes(value)
  {
  }

  lemma PathIs(value: Value)
    ensures ValidPath(value) <==> GoodPath(value)
  {
    assert forall c :: c in "\\\r\n\0" <==> c == '\\' || c == '\r' || c == '\n' || c == '\0';
    hide Paths.Components;
  }

  lemma FieldIs(param: Parameter, provider: string, key: string, value: Value)
    requires (param == HISTORY || param == TELEMETRY) && provider in param.providers
    ensures ValidField(param, param.providers[provider], key, value)
       <==> GoodKey(param == TELEMETRY, key) && GoodShape(param == TELEMETRY, provider == "clickhouse", key, value)
  {
    ImageDefinitions(param, provider);
    ReservedAre(param, key);
    TypesAre(value);
    PathIs(value);
    TlsKeys(key);
    assert HISTORY.prefix != TELEMETRY.prefix;
    hide ValidKey, GoodKey, TypeList, GoodTypes, ValidPath, GoodPath, HISTORY, TELEMETRY, TLS_FILES;
  }

  lemma TlsKeys(key: string)
    ensures key in TLS_FILES <==> IsTlsFile(key)
    ensures key in [] <==> false
    ensures TYPES == "types" && PROVIDER == "provider"
  {
  }

  /** No secret supplies a list of types, and only TLS files can clash with a field of the JSON. */
  lemma ClashesAre(telemetry: bool, vars: Vars, name: string, fields: FieldMap, settled: FieldMap)
    requires settled.Keys == fields.Keys && forall key :: key in fields ==> GoodKey(telemetry, key)
    ensures (exists secret :: secret in SECRETS && Clashes(vars, name, secret, settled))
       <==> exists key :: IsTlsFile(key) && GivenSecret(vars, name, key).Some? && key in fields
  {
    forall secret | secret in SECRETS
      ensures Supplied(vars, name, secret) == GivenSecret(vars, name, secret.field)
      ensures secret.kind.FileSecret? <==> IsTlsFile(secret.field) || secret.field == "ssl_ca_location"
    {
      SuppliedIs(vars, name, secret);
    }
    hide SECRETS, GivenSecret, Supplied;
    assert forall key :: key in fields ==> key != "ssl_ca_location";
    hide GoodKey;
    if key :| IsTlsFile(key) && GivenSecret(vars, name, key).Some? && key in fields {
      var secret := SecretOf(key);
      assert Clashes(vars, name, secret, settled);
    }
  }

  lemma ShapesAre(param: Parameter, provider: string, fields: FieldMap)
    requires (param == HISTORY || param == TELEMETRY) && provider in param.providers
    ensures ValidFields(param, param.providers[provider], fields)
       <==> forall key :: key in fields ==>
              GoodKey(param == TELEMETRY, key) && GoodShape(param == TELEMETRY, provider == "clickhouse", key, fields[key])
  {
    hide ValidField, GoodKey, GoodShape, HISTORY, TELEMETRY;
    forall key | key in fields
      ensures ValidField(param, param.providers[provider], key, fields[key])
         <==> GoodKey(param == TELEMETRY, key) && GoodShape(param == TELEMETRY, provider == "clickhouse", key, fields[key])
    {
      FieldIs(param, provider, key, fields[key]);
    }
  }

  lemma SecretsFit(telemetry: bool, vars: Vars, name: string, clickhouse: bool, fields: FieldMap, settled: FieldMap)
    requires settled.Keys == fields.Keys && forall key :: key in fields ==> GoodKey(telemetry, key)
    ensures (if clickhouse then ApplySecrets(vars, name, SECRETS, settled).Some? else !HasSecrets(vars, name))
       <==> CredentialsFit(vars, name, clickhouse, fields)
  {
    hide GoodKey, SECRETS, HasSecrets, NoCredentials, GivenSecret, ApplySecrets, Clashes, WithSecrets;
    NoCredentialsIs(vars, name);
    RegistryFieldsAreDistinct();
    SecretsOverrideFields(vars, name, SECRETS, settled);
    ClashesAre(telemetry, vars, name, fields, settled);
  }

  lemma ValidatedWhen(param: Parameter, vars: Vars, name: string, fields: FieldMap)
    requires param == HISTORY || param == TELEMETRY
    ensures Validated(param, vars, name, fields).Some? <==> WellShaped(param == TELEMETRY, vars, name, fields)
  {
    TlsKeys("");
    var provider := if PROVIDER in fields && fields[PROVIDER].Str? then fields[PROVIDER].text else "";
    ProvidersAre(param, provider);
    NoProvider(param);
    hide ValidFields, GoodKey, GoodShape, HISTORY, TELEMETRY, SECRETS, HasSecrets, KnownProvider, CredentialsFit, ApplySecrets,
         Defaulted;
    if provider in param.providers {
      ImageDefinitions(param, provider);
      ShapesAre(param, provider, fields);
      if ValidFields(param, param.providers[provider], fields) {
        ValidTypes(param, param.providers[provider], fields);
        SecretsFit(param == TELEMETRY, vars, name, provider == "clickhouse", fields, Settled(param.providers[provider], fields));
      }
    }
  }

  lemma ValidTypes(param: Parameter, definition: Definition, fields: FieldMap)
    requires ValidFields(param, definition, fields)
    ensures definition.valueTypes && TYPES in fields ==> TypeList(fields[TYPES])
  {
    assert TYPES in fields ==> ValidField(param, definition, TYPES, fields[TYPES]);
  }

  lemma NoProvider(param: Parameter)
    requires param == HISTORY || param == TELEMETRY
    ensures "" !in param.providers
  {
    ProvidersAre(param, "");
  }

  // ---- line breaks in split paths ----

  predicate Lacks(parts: seq<string>, c: char) {
    forall i :: 0 <= i < |parts| ==> c !in parts[i]
  }

  lemma {:induction false} WalkLacks(elements: seq<string>, at: seq<string>, rooted: bool, c: char)
    requires Lacks(elements, c) && Lacks(at, c)
    ensures Lacks(Paths.Walk(elements, at, rooted), c)
    decreases |elements|
  {
    if elements != [] { WalkLacks(elements[1..], Paths.Enter(at, elements[0], rooted), rooted, c); }
  }

  lemma {:induction false} SplitLacks(path: string, c: char)
    requires c !in path
    ensures Lacks(SplitOn(path, '/'), c)
    decreases |path|
  {
    if path != "" { SplitLacks(path[1..], c); }
  }

  lemma {:induction false} JoinLacks(parts: seq<string>, c: char)
    requires Lacks(parts, c) && c != '/'
    ensures c !in JoinWith(parts, '/')
    decreases |parts|
  {
    if |parts| > 1 { JoinLacks(parts[1..], c); }
  }

  lemma CleanLacks(path: string, c: char)
    requires c !in path && c != '/' && c != '.'
    ensures c !in Paths.Clean(path)
  {
    SplitLacks(path, c);
    WalkLacks(SplitOn(path, '/'), [], Paths.IsAbs(path), c);
    JoinLacks(Paths.Components(path), c);
  }

  lemma {:induction false} StripLacks(path: string, c: char)
    requires c !in path
    ensures c !in Paths.StripSlashes(path)
    decreases |path|
  {
    if path != "" { StripLacks(path[..|path| - 1], c); }
  }

  lemma {:induction false} LastLacks(path: string, c: char)
    requires c !in path
    ensures c !in Paths.LastElement(path)
    decreases |path|
  {
    if path != "" { LastLacks(path[..|path| - 1], c); }
  }

  lemma SplitPathLacks(path: string, c: char)
    requires c !in path && c != '/' && c != '.'
    ensures c !in Paths.Dir(path) && c !in Paths.Base(path)
  {
    Paths.LastElementLength(path);
    CleanLacks(path[..|path| - |Paths.LastElement(path)|], c);
    StripLacks(path, c);
    LastLacks(Paths.StripSlashes(path), c);
  }

  // ---- rendering ----

  /** A field that the rendering takes. */
  predicate Renders(clickhouse: bool, key: string, value: Value) {
    if clickhouse && IsTlsFile(key) && value.Str? then GoodCredential(key, value.text) else Acceptable(value)
  }

  lemma SplitAcceptable(all: FieldMap, files: seq<string>)
    requires Separate(files) && NoLocations(all, files) && forall f :: f in files ==> LocationKey(f) != PROVIDER && f != PROVIDER
    ensures AllAcceptable(SplitFiles(all, files))
       <==> && (forall k :: k in all && k != PROVIDER ==> Acceptable(SplitValue(all, files, k)))
            && (forall f :: f in files && SplitsFile(all, f) ==> Acceptable(Str(Paths.Dir(all[f].text))))
  {
    SplitIs(all, files);
    hide SplitFiles, SplitValue, LocationKey, Paths.Dir, Paths.Base, Paths.IsAbs, Acceptable, Separate, NoLocations, SplitsFile;
    var split := SplitFiles(all, files);
    if AllAcceptable(split) {
      forall k | k in all && k != PROVIDER ensures Acceptable(SplitValue(all, files, k)) {
        assert k in split;
      }
      forall f | f in files && SplitsFile(all, f) ensures Acceptable(Str(Paths.Dir(all[f].text))) {
        assert LocationKey(f) in split;
      }
    }
  }

  lemma KeySplits(all: FieldMap, clickhouse: bool, k: string)
    requires k in all
    ensures var files := if clickhouse then TLS_FILES else [];
            Renders(clickhouse, k, all[k])
            <==> Acceptable(SplitValue(all, files, k)) && (k in files && SplitsFile(all, k) ==> Acceptable(Str(Paths.Dir(all[k].text))))
  {
    TlsKeys(k);
    hide TLS_FILES, Paths.Dir, Paths.Base;
  }

  lemma RendersWhen(all: FieldMap, clickhouse: bool)
    requires var files := if clickhouse then TLS_FILES else []; NoLocations(all, files)
    ensures AllAcceptable(SplitFiles(all, if clickhouse then TLS_FILES else []))
       <==> forall k :: k in all && k != "provider" ==> Renders(clickhouse, k, all[k])
  {
    var files := if clickhouse then TLS_FILES else [];
    TlsFilesAreGood(false);
    TlsKeys("provider");
    SplitAcceptable(all, files);
    hide SplitFiles, NoLocations, Separate, LocationKey, TLS_FILES, AllAcceptable, Renders, Acceptable, SplitValue;
    forall k | k in all
      ensures Renders(clickhouse, k, all[k])
         <==> Acceptable(SplitValue(all, files, k)) && (k in files && SplitsFile(all, k) ==> Acceptable(Str(Paths.Dir(all[k].text))))
    {
      KeySplits(all, clickhouse, k);
    }
  }

  // ---- all conditions together ----

  lemma AcceptableIs(value: Value)
    ensures Acceptable(value) <==> GoodOption(value)
  {
  }

  lemma PathRenders(value: Value)
    requires GoodPath(value)
    ensures GoodCredential("ssl_cert_file", value.text) && GoodCredential("ssl_key_file", value.text)
  {
    var text := value.text;
    assert '\n' !in text && '\r' !in text;
    SplitPathLacks(text, '\n');
    SplitPathLacks(text, '\r');
  }

  /** One field that comes from the JSON. */
  lemma JsonRenders(telemetry: bool, clickhouse: bool, key: string, value: Value)
    requires GoodShape(telemetry, clickhouse, key, value) && key != "provider" && (telemetry || key != "types")
    ensures Renders(clickhouse, key, value) <==> GoodValue(telemetry, clickhouse, key, value)
  {
    AcceptableIs(value);
    if clickhouse && IsTlsFile(key) { PathRenders(value); }
    hide GoodPath, GoodCredential, GoodOption, Acceptable;
  }

  lemma SecretRenders(clickhouse: bool, key: string, text: string)
    requires clickhouse
    ensures Renders(clickhouse, key, Str(text)) <==> GoodCredential(key, text)
  {
  }

  ghost predicate Supplies(vars: Vars, name: string, clickhouse: bool, key: string) {
    clickhouse && GivenSecret(vars, name, key).Some?
  }

  /** What is asked of one key: of its credential, or else of its JSON field. */
  ghost predicate KeyFits(telemetry: bool, clickhouse: bool, vars: Vars, name: string, fields: FieldMap, key: string) {
    if Supplies(vars, name, clickhouse, key) then GoodCredential(key, GivenSecret(vars, name, key).value)
    else key in fields ==> GoodValue(telemetry, clickhouse, key, fields[key])
  }

  ghost predicate AllFit(telemetry: bool, clickhouse: bool, vars: Vars, name: string, fields: FieldMap) {
    forall key :: KeyFits(telemetry, clickhouse, vars, name, fields, key)
  }

  ghost function CompleteAt(vars: Vars, name: string, clickhouse: bool, fields: FieldMap, key: string): Option<Value> {
    if Supplies(vars, name, clickhouse, key) then Some(Str(GivenSecret(vars, name, key).value)) else FieldAt(fields, key)
  }

  lemma NoSecretHere(vars: Vars, name: string, key: string)
    requires key in {"types", "provider", "url", "ssl_verify_peer", "ssl_verify_host"}
    ensures GivenSecret(vars, name, key) == None
  {
  }

  lemma KeyRenders(telemetry: bool, clickhouse: bool, vars: Vars, name: string, fields: FieldMap, given: FieldMap, key: string)
    requires key in fields ==> GoodShape(telemetry, clickhouse, key, fields[key])
    requires key != "provider" && FieldAt(given, key) == CompleteAt(vars, name, clickhouse, fields, key)
    ensures var all := FieldOf(telemetry, !telemetry, given, key);
            (all.Some? ==> Renders(clickhouse, key, all.value)) <==> KeyFits(telemetry, clickhouse, vars, name, fields, key)
  {
    TlsKeys(key);
    NoSecretHere(vars, name, "types");
    hide GoodTypes, GoodPath, GoodCredential, HasHttpsUrl, GivenSecret, TypeList;
    if !telemetry && key == "types" {
      TypesField(vars, name, clickhouse, fields, given);
    } else if Supplies(vars, name, clickhouse, key) {
      SecretRenders(clickhouse, key, GivenSecret(vars, name, key).value);
    } else if key in fields {
      JsonRenders(telemetry, clickhouse, key, fields[key]);
    }
  }

  lemma TypesField(vars: Vars, name: string, clickhouse: bool, fields: FieldMap, given: FieldMap)
    requires "types" in fields ==> GoodTypes(fields["types"])
    requires FieldAt(given, "types") == CompleteAt(vars, name, clickhouse, fields, "types")
    ensures var all := FieldOf(false, true, given, "types"); all.Some? ==> Renders(clickhouse, "types", all.value)
    ensures KeyFits(false, clickhouse, vars, name, fields, "types")
  {
    NoSecretHere(vars, name, "types");
    if "types" in fields { TypesAre(fields["types"]); }
    hide GoodTypes, TypeList, FirstNames, GivenSecret, HasHttpsUrl;
  }

  lemma GivenIsComplete(vars: Vars, name: string, clickhouse: bool, fields: FieldMap, given: FieldMap)
    requires WithSecrets(vars, name, if clickhouse then SECRETS else [], fields, given)
    ensures forall key :: FieldAt(given, key) == CompleteAt(vars, name, clickhouse, fields, key)
  {
    hide GivenSecret, SECRETS;
    if clickhouse {
      CredentialsFill(vars, name, fields, given);
    } else {
      forall key ensures FieldAt(given, key) == FieldAt(fields, key) {
      }
    }
  }

  /** The fields that are rendered are accepted exactly when every key fits. */
  lemma AllRender(telemetry: bool, clickhouse: bool, vars: Vars, name: string, fields: FieldMap, given: FieldMap, all: FieldMap)
    requires forall key :: key in fields ==> GoodShape(telemetry, clickhouse, key, fields[key])
    requires forall key :: FieldAt(given, key) == CompleteAt(vars, name, clickhouse, fields, key)
    requires FieldsAre(telemetry, !telemetry, given, all)
    ensures (forall k :: k in all && k != "provider" ==> Renders(clickhouse, k, all[k]))
       <==> AllFit(telemetry, clickhouse, vars, name, fields)
  {
    hide GoodShape, CompleteAt, Renders, FieldOf, KeyFits;
    forall key | key != "provider"
      ensures (key in all ==> Renders(clickhouse, key, all[key])) <==> KeyFits(telemetry, clickhouse, vars, name, fields, key)
    {
      KeyRenders(telemetry, clickhouse, vars, name, fields, given, key);
      assert FieldAt(all, key) == FieldOf(telemetry, !telemetry, given, key);
    }
    ProviderFits(telemetry, clickhouse, vars, name, fields);
  }

  lemma ProviderFits(telemetry: bool, clickhouse: bool, vars: Vars, name: string, fields: FieldMap)
    ensures KeyFits(telemetry, clickhouse, vars, name, fields, "provider")
  {
    NoSecretHere(vars, name, "provider");
  }

  lemma AcceptedIs(telemetry: bool, vars: Vars, name: string, fields: FieldMap)
    ensures Accepted(telemetry, vars, name, fields)
       <==> && WellShaped(telemetry, vars, name, fields)
            && AllFit(telemetry, fields["provider"].text == "clickhouse", vars, name, fields)
  {
    hide GivenSecret, GoodKey, GoodPath, GoodTypes, GoodOption, GoodCredential, KnownProvider, CredentialsFit;
    if Named(telemetry, fields) {
      var clickhouse := fields["provider"].text == "clickhouse";
      forall key | key in fields && GoodValue(telemetry, clickhouse, key, fields[key])
        ensures GoodShape(telemetry, clickhouse, key, fields[key])
      {
        ValueHasShape(telemetry, clickhouse, key, fields[key]);
      }
      hide GoodValue, GoodShape;
      if Accepted(telemetry, vars, name, fields) {
        forall key ensures KeyFits(telemetry, clickhouse, vars, name, fields, key) {
        }
      }
      if AllFit(telemetry, clickhouse, vars, name, fields) {
        assert forall key :: key in fields ==> KeyFits(telemetry, clickhouse, vars, name, fields, key);
        assert forall key :: GivenSecret(vars, name, key).Some? ==> KeyFits(telemetry, clickhouse, vars, name, fields, key);
      }
    }
  }

  lemma ValueHasShape(telemetry: bool, clickhouse: bool, key: string, value: Value)
    requires GoodValue(telemetry, clickhouse, key, value)
    ensures GoodShape(telemetry, clickhouse, key, value)
  {
  }

  /**
   Main result: a JSON provider is converted exactly when its JSON reads, names a provider of the
   parameter, has only well-formed keys and values, and its credentials are given once and fit on a line.
   */
  lemma RendersExactlyWhen(decoder: Decoder, param: Parameter, vars: Vars, name: string)
    requires param == HISTORY || param == TELEMETRY
    requires decoder(Get(vars, name)).Some? ==> DecodedText(decoder(Get(vars, name)).value)
    ensures Rendered(decoder, param, vars, name).Some?
       <==> && decoder(Get(vars, name)).Some?
            && Accepted(param == TELEMETRY, vars, name, decoder(Get(vars, name)).value)
  {
    hide Accepted, WellShaped, Native, HISTORY, TELEMETRY, SECRETS, DecodedText, Validated, AllFit;
    if decoder(Get(vars, name)).Some? {
      var fields := decoder(Get(vars, name)).value;
      ValidatedWhen(param, vars, name, fields);
      AcceptedIs(param == TELEMETRY, vars, name, fields);
      if Decoded(decoder, param, vars, name).Some? {
        NativeWhen(decoder, param, vars, name, fields);
      }
    }
  }

  lemma NativeWhen(decoder: Decoder, param: Parameter, vars: Vars, name: string, fields: FieldMap)
    requires param == HISTORY || param == TELEMETRY
    requires Decoded(decoder, param, vars, name).Some? && decoder(Get(vars, name)) == Some(fields) && DecodedText(fields)
    requires WellShaped(param == TELEMETRY, vars, name, fields)
    ensures var config := Decoded(decoder, param, vars, name).value;
            Native(config.provider, config.definition, config.fields).Success?
            <==> AllFit(param == TELEMETRY, fields["provider"].text == "clickhouse", vars, name, fields)
  {
    var config := Decoded(decoder, param, vars, name).value;
    var given := DecodedFields(decoder, param, vars, name);
    TlsKeys("");
    ImageParametersAreGood();
    DecodedIsReady(decoder, param, vars, name);
    ImageDefinitions(param, config.provider);
    var clickhouse := config.provider == "clickhouse";
    hide Decoded, Native, HISTORY, TELEMETRY, SECRETS, DecodedText, WithSecrets, FieldsAre, GoodShape, Ready, WellFormed, NoLocations,
         SplitFiles, AllFit, AllAcceptable, Renders, CompleteAt, GoodKey, CredentialsFit, KnownProvider, TLS_FILES;
    GivenIsComplete(vars, name, clickhouse, fields, given);
    NativeRendersExactly(config.provider, config.definition, config.fields);
    RendersWhen(config.fields, clickhouse);
    AllRender(param == TELEMETRY, clickhouse, vars, name, fields, given, config.fields);
  }
}
