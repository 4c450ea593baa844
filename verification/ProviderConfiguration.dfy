/**
 Provider configuration: JSON providers in PREFIX_N variables are validated, completed with separate
 credentials and rendered in place. Decoded providers are cached.
 */
module ProviderConfiguration {
  import opened Text
  import opened ProcessEnvironment
  import opened ProviderSecrets
  import opened NativeOptions
  import Decimal
  import IndexedVariables
  import Paths

  datatype Parameter = Parameter(
    prefix: string,
    providers: map<string, Definition>,
    reserved: set<string>,
    maxProviders: nat,              // zero means no limit
    telemetryDefaults: bool)

  datatype Config = Config(
    name: string,
    provider: string,
    schemaOptions: string,
    fields: FieldMap,
    valueTypes: seq<string>,
    definition: Definition)

  /** Reads one JSON object; what it yields is decoded text, never `Types`. */
  type Decoder = string -> Option<FieldMap>

  const SCHEMA_SUFFIX := "_SCHEMA"

  const MANAGED_LOCATIONS: set<string> := {"ssl_ca_file", "ssl_ca_location", "ssl_cert_location", "ssl_key_location"}

  predicate LooksLikeJsonObject(raw: string) {
    "{" <= TrimSpace(raw)
  }

  // ---- secrets ----

  function LocationVariable(name: string, secret: Secret): string {
    name + secret.suffix + "LOCATION"
  }

  function Location(vars: Vars, name: string, secret: Secret): string {
    if secret.managedLocation then Get(vars, LocationVariable(name, secret)) else ""
  }

  predicate HasSecret(vars: Vars, name: string, secret: Secret) {
    if secret.kind.ValueSecret? then name + secret.suffix in vars
    else
      || Get(vars, name + secret.suffix) != ""
      || Get(vars, name + FileSuffix(secret)) != ""
      || Location(vars, name, secret) != ""
  }

  predicate HasSecrets(vars: Vars, name: string) {
    exists secret :: secret in SECRETS && HasSecret(vars, name, secret)
  }

  /** One secret applied to the fields; `None` when a field and a file variable clash. */
  function ApplySecret(vars: Vars, name: string, secret: Secret, fields: FieldMap): Option<FieldMap> {
    if secret.kind.ValueSecret? then
      var variable := name + secret.suffix;
      Some(if variable in vars then fields[secret.field := Str(vars[variable])] else fields)
    else
      var path := Get(vars, name + FileSuffix(secret));
      var location := Location(vars, name, secret);
      if path == "" && location == "" then Some(fields)
      else if secret.field in fields then None
      else Some(fields[secret.field := Str(if secret.managedLocation then location else path)])
  }

  function ApplySecrets(vars: Vars, name: string, secrets: seq<Secret>, fields: FieldMap): Option<FieldMap> {
    if secrets == [] then Some(fields)
    else
      match ApplySecret(vars, name, secrets[0], fields)
      case None => None
      case Some(next) => ApplySecrets(vars, name, secrets[1..], next)
  }

  function SecretVariables(name: string, secret: Secret): set<string> {
    var variable := name + secret.suffix;
    {variable, name + FileSuffix(secret)} + if secret.kind.FileSecret? then {LocationVariable(name, secret)} else {}
  }

  function AllSecretVariables(name: string): set<string> {
    set secret, v | secret in SECRETS && v in SecretVariables(name, secret) :: v
  }

  // ---- validation ----

  predicate ValidKey(param: Parameter, key: string) {
    && key != "" && (forall c :: c in key ==> c !in ",=;\r\n")
    && key !in MANAGED_LOCATIONS && key !in param.reserved
  }

  predicate TypeName(value: Value) {
    value.Str? && value.text != "" && !HasLineBreak(value.text)
  }

  predicate TypeList(value: Value) {
    value.List? && value.items != [] && forall i :: 0 <= i < |value.items| ==> TypeName(value.items[i])
  }

  /** Names in the order of their first occurrence, appended to `seen`. */
  function FirstNames(items: seq<Value>, seen: seq<string>): seq<string>
    requires forall i :: 0 <= i < |items| ==> TypeName(items[i])
  {
    if items == [] then seen
    else
      assert TypeName(items[0]);
      FirstNames(items[1..], if items[0].text in seen then seen else seen + [items[0].text])
  }

  /** An item more adds its name exactly when no item before it has that name. */
  lemma {:induction false} FirstNamesGrow(items: seq<Value>, last: Value, seen: seq<string>)
    requires (forall i :: 0 <= i < |items| ==> TypeName(items[i])) && TypeName(last)
    ensures var before := FirstNames(items, seen);
            && FirstNames(items + [last], seen) == before + (if last.text in before then [] else [last.text])
            && (last.text in before <==> last.text in seen || exists i :: 0 <= i < |items| && items[i].text == last.text)
    ensures FirstNames([], seen) == seen
    decreases |items|
  {
    var all := items + [last];
    assert all[0] == if items == [] then last else items[0];
    assert TypeName(all[0]);
    if items == [] {
      assert all[1..] == [];
    } else {
      var more := if items[0].text in seen then seen else seen + [items[0].text];
      assert all[1..] == items[1..] + [last];
      FirstNamesGrow(items[1..], last, more);
      if i :| 0 <= i < |items| && items[i].text == last.text {
        assert i > 0 ==> items[1..][i - 1].text == last.text;
      }
    }
  }

  predicate ValidPath(value: Value) {
    && value.Str? && value.text != "" && (forall c :: c in value.text ==> c !in "\\\r\n\0")
    && Paths.Resolvable(value.text)
  }

  /** A path with a trailing slash is accepted, and its split leads elsewhere. */
  lemma TrailingSlashIsAccepted()
    ensures ValidPath(Str("/a/")) && Paths.Components(Paths.Joined("/a/")) != Paths.Components("/a/")
  {
    Paths.TrailingSlashShows();
    hide Paths.Components, Paths.Joined;
    assert forall c :: c in "/a/" ==> c == '/' || c == 'a';
  }

  predicate ValidField(param: Parameter, definition: Definition, key: string, value: Value) {
    && ValidKey(param, key)
    && (key == TYPES && definition.valueTypes ==> TypeList(value))
    && (!(key == TYPES && definition.valueTypes) && key in definition.files ==> ValidPath(value))
  }

  predicate ValidFields(param: Parameter, definition: Definition, fields: FieldMap) {
    forall key :: key in fields ==> ValidField(param, definition, key, fields[key])
  }

  /** The fields with their list of types in validated form. */
  function Settled(definition: Definition, fields: FieldMap): FieldMap
    requires definition.valueTypes && TYPES in fields ==> TypeList(fields[TYPES])
  {
    if definition.valueTypes && TYPES in fields then fields[TYPES := Types(FirstNames(fields[TYPES].items, []))]
    else fields
  }

  predicate UsesHttps(fields: FieldMap) {
    && "url" in fields && fields["url"].Str?
    && |fields["url"].text| >= 8 && EqualFold(fields["url"].text[..8], "https://")
  }

  function WithDefault(fields: FieldMap, key: string): FieldMap {
    if key in fields then fields else fields[key := Flag(true)]
  }

  function Defaulted(param: Parameter, fields: FieldMap): FieldMap {
    if param.telemetryDefaults && UsesHttps(fields) then
      WithDefault(WithDefault(fields, "ssl_verify_peer"), "ssl_verify_host")
    else fields
  }

  function Finish(param: Parameter, name: string, provider: string, definition: Definition, fields: FieldMap): Config {
    var all := Defaulted(param, fields);
    Config(name, provider, "", all,
           if definition.valueTypes && TYPES in all && all[TYPES].Types? then all[TYPES].names else [], definition)
  }

  function Validated(param: Parameter, vars: Vars, name: string, fields: FieldMap): Option<Config> {
    var provider := if PROVIDER in fields && fields[PROVIDER].Str? then fields[PROVIDER].text else "";
    if provider !in param.providers then None
    else
      var definition := param.providers[provider];
      if !ValidFields(param, definition, fields) then None
      else
        var settled := Settled(definition, fields);
        if !definition.secrets then
          if HasSecrets(vars, name) then None else Some(Finish(param, name, provider, definition, settled))
        else
          match ApplySecrets(vars, name, SECRETS, settled)
          case None => None
          case Some(all) => Some(Finish(param, name, provider, definition, all))
  }

  /** What decoding a provider means, without a cache. */
  function Decoded(decoder: Decoder, param: Parameter, vars: Vars, name: string): Option<Config> {
    match decoder(Get(vars, name))
    case None => None
    case Some(fields) =>
      match Validated(param, vars, name, fields)
      case None => None
      case Some(config) => Some(config.(schemaOptions := Get(vars, name + SCHEMA_SUFFIX)))
  }

  // ---- the imperative validation ----

  method ParseValueTypes(value: Value) returns (r: Option<seq<string>>)
    ensures r.Some? <==> TypeList(value)
    ensures r.Some? ==> r.value == FirstNames(value.items, [])
  {
    if !value.List? || value.items == [] {
      return None;
    }
    var types: seq<string> := [];
    for i := 0 to |value.items|
      invariant forall j :: 0 <= j < i ==> TypeName(value.items[j])
      invariant (forall j :: i <= j < |value.items| ==> TypeName(value.items[j])) ==>
                  FirstNames(value.items, []) == FirstNames(value.items[i..], types)
    {
      var item := value.items[i];
      if !TypeName(item) {
        return None;
      }
      assert value.items[i..][1..] == value.items[i + 1..];
      if item.text !in types {
        types := types + [item.text];
      }
    }
    return Some(types);
  }

  /** The options are visited in any order; a list of types is replaced on the way. */
  method ValidateFields(param: Parameter, definition: Definition, given: FieldMap) returns (r: Option<FieldMap>)
    ensures r.Some? <==> ValidFields(param, definition, given)
    ensures r.Some? ==> r.value == Settled(definition, given)
  {
    var fields := given;
    var rest := given.Keys;
    while rest != {}
      invariant rest <= given.Keys && fields.Keys == given.Keys
      invariant forall key :: key in given && key !in rest ==> ValidField(param, definition, key, given[key])
      invariant fields == if TYPES in rest || !definition.valueTypes || TYPES !in given then given
                          else Settled(definition, given)
      decreases |rest|
    {
      var key :| key in rest;
      var value := fields[key];
      if !ValidKey(param, key) {
        return None;
      }
      if key == TYPES && definition.valueTypes {
        var types := ParseValueTypes(value);
        if types.None? {
          return None;
        }
        fields := fields[key := Types(types.value)];
      } else if key in definition.files && !ValidPath(value) {
        return None;
      }
      rest := rest - {key};
    }
    return Some(fields);
  }

  method ApplyAllSecrets(vars: Vars, name: string, given: FieldMap) returns (r: Option<FieldMap>)
    ensures r == ApplySecrets(vars, name, SECRETS, given)
  {
    var fields := given;
    for i := 0 to |SECRETS|
      invariant ApplySecrets(vars, name, SECRETS, given) == ApplySecrets(vars, name, SECRETS[i..], fields)
    {
      var secret := SECRETS[i];
      assert SECRETS[i..][1..] == SECRETS[i + 1..];
      var variable := name + secret.suffix;
      if secret.kind.ValueSecret? {
        if variable in vars {
          fields := fields[secret.field := Str(vars[variable])];
        }
      } else {
        var path := Get(vars, name + FileSuffix(secret));
        var location := Location(vars, name, secret);
        if path != "" || location != "" {
          if secret.field in fields {
            return None;
          }
          fields := fields[secret.field := Str(if secret.managedLocation then location else path)];
        }
      }
    }
    return Some(fields);
  }

  method Validate(param: Parameter, vars: Vars, name: string, given: FieldMap) returns (r: Option<Config>)
    ensures r == Validated(param, vars, name, given)
  {
    var provider := if PROVIDER in given && given[PROVIDER].Str? then given[PROVIDER].text else "";
    if provider !in param.providers {
      return None;
    }
    var definition := param.providers[provider];
    var fields := ValidateFields(param, definition, given);
    if fields.None? {
      return None;
    }
    if !definition.secrets {
      if HasSecrets(vars, name) {
        return None;
      }
    } else {
      fields := ApplyAllSecrets(vars, name, fields.value);
      if fields.None? {
        return None;
      }
    }
    return Some(Finish(param, name, provider, definition, fields.value));
  }

  // ---- provider names ----

  predicate InFamily(prefix: string, name: string) {
    name == prefix || prefix + "_" <= name
  }

  function BaseBySuffix(name: string, suffixes: seq<string>): Option<string> {
    if suffixes == [] then None
    else if HasSuffix(name, suffixes[0]) then Some(CutSuffix(name, suffixes[0]))
    else BaseBySuffix(name, suffixes[1..])
  }

  /** The provider variable that a credential variable belongs to. */
  function CredentialBase(name: string): Option<string> {
    BaseBySuffix(name, SUFFIXES)
  }

  /** A non-empty credential or schema variable stands beside its provider. */
  predicate Attached(vars: Vars, name: string)
    requires name in vars
  {
    vars[name] == "" ||
      if HasSuffix(name, SCHEMA_SUFFIX) then Get(vars, CutSuffix(name, SCHEMA_SUFFIX)) != ""
      else if CredentialBase(name).Some? then CredentialBase(name).value in vars
      else true
  }

  predicate IsProviderVariable(prefix: string, name: string) {
    InFamily(prefix, name) && !HasSuffix(name, SCHEMA_SUFFIX) && CredentialBase(name).None?
  }

  function ProviderVariables(vars: Vars, prefix: string): Vars {
    map name | name in vars && IsProviderVariable(prefix, name) :: vars[name]
  }

  ghost predicate NamesAccepted(vars: Vars, param: Parameter) {
    && (forall name :: name in vars && InFamily(param.prefix, name) ==> Attached(vars, name))
    && IndexedVariables.Accepts(ProviderVariables(vars, param.prefix), [param.prefix], true)
    && (param.maxProviders != 0 ==>
          IndexedVariables.IndexedName(param.prefix, param.maxProviders) !in ProviderVariables(vars, param.prefix))
  }

  predicate Numbered(prefix: string, names: seq<string>) {
    forall i :: 0 <= i < |names| ==> names[i] == IndexedVariables.IndexedName(prefix, i)
  }

  ghost predicate ListsProviders(vars: Vars, prefix: string, names: seq<string>) {
    && Numbered(prefix, names)
    && (forall name :: name in names <==> name in ProviderVariables(vars, prefix))
    && (forall name :: name in names ==> vars[name] != "")
  }

  /** The environment entries are visited in any order. */
  method FilterVariables(vars: Vars, prefix: string) returns (r: Option<Vars>)
    ensures r.Some? <==> forall name :: name in vars && InFamily(prefix, name) ==> Attached(vars, name)
    ensures r.Some? ==> r.value == ProviderVariables(vars, prefix)
  {
    hide InFamily, Attached, CredentialBase, HasSuffix;
    var found: Vars := map[];
    var rest := vars.Keys;
    while rest != {}
      invariant rest <= vars.Keys
      invariant forall name :: name in vars && name !in rest && InFamily(prefix, name) ==> Attached(vars, name)
      invariant found == map name | name in vars && name !in rest && IsProviderVariable(prefix, name) :: vars[name]
      decreases |rest|
    {
      var name :| name in rest;
      if InFamily(prefix, name) {
        if !Attached(vars, name) {
          return None;
        }
        if !HasSuffix(name, SCHEMA_SUFFIX) && CredentialBase(name).None? {
          found := found[name := vars[name]];
        }
      }
      rest := rest - {name};
    }
    return Some(found);
  }

  lemma ListingListsProviders(vars: Vars, prefix: string, vs: seq<IndexedVariables.IndexedVariable>, names: seq<string>)
    requires IndexedVariables.Accepts(ProviderVariables(vars, prefix), [prefix], true)
    requires IndexedVariables.IsListing(vs, ProviderVariables(vars, prefix), [prefix])
    requires |names| == |vs| && forall i :: 0 <= i < |names| ==> names[i] == vs[i].name
    ensures ListsProviders(vars, prefix, names)
  {
    hide IndexedVariables.IndexedName, IsProviderVariable;
    var env := ProviderVariables(vars, prefix);
    forall i | 0 <= i < |names|
      ensures names[i] == IndexedVariables.IndexedName(prefix, i) && names[i] in env && vars[names[i]] != ""
    {
      assert IndexedVariables.IsVariable(env, [prefix], vs[i]);
      IndexedVariables.VariableName(env, [prefix], vs[i]);
    }
    forall name | name in env ensures name in names {
      ProviderIsListed(vars, prefix, vs, name);
      var v :| v in vs && v.name == name;
      var i :| 0 <= i < |vs| && vs[i] == v;
      assert names[i] == name;
    }
  }

  lemma ProviderIsListed(vars: Vars, prefix: string, vs: seq<IndexedVariables.IndexedVariable>, name: string)
    requires IndexedVariables.Accepts(ProviderVariables(vars, prefix), [prefix], true)
    requires IndexedVariables.IsListing(vs, ProviderVariables(vars, prefix), [prefix])
    requires name in ProviderVariables(vars, prefix)
    ensures exists v :: v in vs && v.name == name
  {
    var env := ProviderVariables(vars, prefix);
    assert prefix in [prefix] && prefix !in env;
    assert IsProviderVariable(prefix, name) && name != prefix;
    assert IndexedVariables.Recognises([prefix], name, prefix);
    var index := IndexedVariables.ParseIndexedNumber(IndexedVariables.SuffixAfter(prefix, name));
    var v := IndexedVariables.IndexedVariable(index.value, name, prefix);
    assert IndexedVariables.IsVariable(env, [prefix], v);
    assert v in vs;
  }

  /** `indexedNames`: the providers are exactly the variables of the family that are neither credentials nor schemas. */
  method IndexedNames(vars: Vars, param: Parameter) returns (r: Option<seq<string>>)
    ensures r.Some? <==> NamesAccepted(vars, param)
    ensures r.Some? ==> ListsProviders(vars, param.prefix, r.value)
  {
    var found := FilterVariables(vars, param.prefix);
    if found.None? {
      return None;
    }
    var variables := IndexedVariables.CollectIndexed(found.value, [param.prefix], true);
    if variables.Failure? {
      return None;
    }
    var names: seq<string> := [];
    for i := 0 to |variables.value|
      invariant |names| == i && forall j :: 0 <= j < i ==> names[j] == variables.value[j].name
    {
      names := names + [variables.value[i].name];
    }
    ListingListsProviders(vars, param.prefix, variables.value, names);
    TooMany(vars, param, names);
    return if param.maxProviders != 0 && |names| > param.maxProviders then None else Some(names);
  }

  lemma TooMany(vars: Vars, param: Parameter, names: seq<string>)
    requires ListsProviders(vars, param.prefix, names)
    ensures |names| > param.maxProviders
        <==> IndexedVariables.IndexedName(param.prefix, param.maxProviders) in ProviderVariables(vars, param.prefix)
  {
    var name := IndexedVariables.IndexedName(param.prefix, param.maxProviders);
    if |names| > param.maxProviders {
      assert names[param.maxProviders] in names;
    } else if name in names {
      var i :| 0 <= i < |names| && names[i] == name;
      NumbersAreDistinct(param.prefix, i, param.maxProviders);
    }
  }

  lemma NumbersAreDistinct(prefix: string, i: nat, j: nat)
    requires IndexedVariables.IndexedName(prefix, i) == IndexedVariables.IndexedName(prefix, j)
    ensures i == j
  {
    assert IndexedVariables.IndexedName(prefix, i)[|prefix| + 1..] == Decimal.Itoa(i);
    assert IndexedVariables.IndexedName(prefix, j)[|prefix| + 1..] == Decimal.Itoa(j);
    Decimal.ItoaInjective(i, j);
  }
}
