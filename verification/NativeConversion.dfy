/**
 Converting JSON providers to their native form in the environment: all or nothing, and through a
 cache that never shows.
 */
module NativeConversion {
  import opened Text
  import opened ProcessEnvironment
  import opened ProviderSecrets
  import opened NativeOptions
  import opened ProviderConfiguration
  import Decimal

  // ---- what conversion means, without a cache and without an order ----

  predicate IsJson(vars: Vars, name: string) {
    LooksLikeJsonObject(Get(vars, name))
  }

  ghost function Rendered(decoder: Decoder, param: Parameter, vars: Vars, name: string): Option<string> {
    match Decoded(decoder, param, vars, name)
    case None => None
    case Some(config) =>
      match Native(config.provider, config.definition, config.fields)
      case Failure(_) => None
      case Success(text) => Some(text)
  }

  ghost predicate Renderable(decoder: Decoder, param: Parameter, vars: Vars, name: string) {
    if IsJson(vars, name) then Rendered(decoder, param, vars, name).Some? else !HasSecrets(vars, name)
  }

  ghost predicate Convertible(decoder: Decoder, param: Parameter, vars: Vars, names: seq<string>) {
    forall name :: name in names ==> Renderable(decoder, param, vars, name)
  }

  ghost function Values(decoder: Decoder, param: Parameter, vars: Vars, names: seq<string>): Vars
    requires Convertible(decoder, param, vars, names)
  {
    map name | name in names && IsJson(vars, name)
      :: assert Renderable(decoder, param, vars, name); Rendered(decoder, param, vars, name).value
  }

  function SecretsOf(names: set<string>): set<string> {
    set name, v | name in names && v in AllSecretVariables(name) :: v
  }

  function SchemasOf(names: seq<string>): set<string> {
    set name | name in names :: name + SCHEMA_SUFFIX
  }

  /** The environment after conversion. */
  ghost function Converted(decoder: Decoder, param: Parameter, vars: Vars, names: seq<string>): Vars
    requires Convertible(decoder, param, vars, names)
  {
    var values := Values(decoder, param, vars, names);
    vars + values - SecretsOf(values.Keys) - SchemasOf(names)
  }

  // ---- names of providers and of their credentials never meet ----

  predicate EndsInDigit(name: string) {
    name != "" && Decimal.IsDigit(name[|name| - 1])
  }

  lemma NumberedNamesEndInDigits(prefix: string, names: seq<string>)
    requires Numbered(prefix, names)
    ensures forall name :: name in names ==> EndsInDigit(name)
  {
    forall name | name in names ensures EndsInDigit(name) {
      var i :| 0 <= i < |names| && names[i] == name;
      var digits := Decimal.Itoa(i);
      assert name[|name| - 1] == digits[|digits| - 1];
    }
  }

  lemma SuffixEndsInLetter(secret: Secret)
    requires secret in SECRETS
    ensures secret.suffix != "" && secret.suffix[|secret.suffix| - 1] in "EDTYA"
  {
  }

  lemma SecretEndsInLetter(name: string, secret: Secret)
    requires secret in SECRETS
    ensures forall v :: v in SecretVariables(name, secret) ==> !EndsInDigit(v)
  {
    var n := |secret.suffix|;
    SuffixEndsInLetter(secret);
    var v := name + secret.suffix;
    assert v[|v| - 1] == secret.suffix[n - 1];
    forall tail | tail in ["FILE", "_FILE", "LOCATION"] ensures !EndsInDigit(v + tail) {
      assert (v + tail)[|v + tail| - 1] == tail[|tail| - 1];
    }
    assert name + FileSuffix(secret) == v + if secret.kind.ValueSecret? then "_FILE" else "FILE";
  }

  lemma SecretsEndInLetters(name: string)
    ensures forall v :: v in AllSecretVariables(name) ==> !EndsInDigit(v)
  {
    hide SecretVariables, EndsInDigit;
    forall v | v in AllSecretVariables(name) ensures !EndsInDigit(v) {
      var secret :| secret in SECRETS && v in SecretVariables(name, secret);
      SecretEndsInLetter(name, secret);
    }
  }

  lemma SchemaEndsInLetter(name: string)
    ensures !EndsInDigit(name + SCHEMA_SUFFIX)
  {
    var v := name + SCHEMA_SUFFIX;
    assert v[|v| - 1] == 'A';
  }

  lemma RemovedAreNoProviders(prefix: string, names: seq<string>, converted: set<string>)
    requires Numbered(prefix, names)
    ensures forall name :: name in names ==> name !in SecretsOf(converted) && name !in SchemasOf(names)
  {
    hide EndsInDigit, AllSecretVariables;
    NumberedNamesEndInDigits(prefix, names);
    forall name ensures forall v :: v in AllSecretVariables(name) ==> !EndsInDigit(v) {
      SecretsEndInLetters(name);
    }
    forall name ensures !EndsInDigit(name + SCHEMA_SUFFIX) {
      SchemaEndsInLetter(name);
    }
  }

  // ---- the mutable configuration ----

  class Configuration {
    const env: Environment
    const param: Parameter
    const decoder: Decoder
    const names: seq<string>
    var decoded: map<string, Config>

    /** Every cached provider is what decoding it now would yield. */
    ghost predicate Valid()
      reads this, env
    {
      && Numbered(param.prefix, names)
      && (forall name :: name in decoded ==> name in names)
      && (forall name :: name in decoded && IsJson(env.vars, name) ==>
            Decoded(decoder, param, env.vars, name) == Some(decoded[name]))
    }

    constructor (env: Environment, param: Parameter, decoder: Decoder, names: seq<string>)
      requires Numbered(param.prefix, names)
      ensures Valid() && this.env == env && this.param == param && this.decoder == decoder && this.names == names
    {
      this.env, this.param, this.decoder, this.names := env, param, decoder, names;
      decoded := map[];
    }

    method Decode(name: string) returns (r: Option<Config>)
      requires Valid() && name in names && IsJson(env.vars, name)
      modifies this
      ensures Valid() && r == Decoded(decoder, param, env.vars, name)
    {
      if name in decoded {
        return Some(decoded[name]);
      }
      var fields := decoder(Get(env.vars, name));
      if fields.None? {
        return None;
      }
      var config := Validate(param, env.vars, name, fields.value);
      if config.None? {
        return None;
      }
      var complete := config.value.(schemaOptions := Get(env.vars, name + SCHEMA_SUFFIX));
      decoded := decoded[name := complete];
      return Some(complete);
    }

    /** The providers with schema options; looking at them changes no variable. */
    method ConfigsToPrepare() returns (r: Option<seq<Config>>)
      requires Valid()
      modifies this
      ensures Valid() && r == Prepared(decoder, param, env.vars, names)
    {
      var configs: seq<Config> := [];
      PrefixedByNothing(Prepared(decoder, param, env.vars, names));
      for i := 0 to |names|
        invariant Valid()
        invariant Prepared(decoder, param, env.vars, names)
               == PrefixedBy(configs, Prepared(decoder, param, env.vars, names[i..]))
      {
        PreparedStep(decoder, param, env.vars, names, i, configs);
        var name := names[i];
        if TrimSpace(Get(env.vars, name + SCHEMA_SUFFIX)) != "" {
          if !LooksLikeJsonObject(Get(env.vars, name)) {
            return None;
          }
          var config := Decode(name);
          if config.None? {
            return None;
          }
          configs := configs + [config.value];
        }
      }
      assert configs + [] == configs;
      return Some(configs);
    }

    method DeleteSecrets(name: string)
      modifies env
      ensures env.vars == old(env.vars) - AllSecretVariables(name)
    {
      ghost var before := env.vars;
      ghost var removed: set<string> := {};
      for i := 0 to |SECRETS|
        invariant env.vars == before - removed
        invariant forall v :: v in removed <==> exists j :: 0 <= j < i && v in SecretVariables(name, SECRETS[j])
      {
        var secret := SECRETS[i];
        var variable := name + secret.suffix;
        env.Delete(variable);
        env.Delete(name + FileSuffix(secret));
        if secret.kind.FileSecret? {
          env.Delete(LocationVariable(name, secret));
        }
        removed := removed + SecretVariables(name, secret);
      }
      assert removed == AllSecretVariables(name);
    }

    /** All or nothing: the result depends on the variables only, not on what is cached. */
    method ConfigureNative() returns (ok: bool)
      requires Valid() && GoodParameter(param)
      modifies this, env
      ensures Valid()
      ensures ok <==> Convertible(decoder, param, old(env.vars), names)
      ensures !ok ==> env.vars == old(env.vars)
      ensures ok ==> env.vars == Converted(decoder, param, old(env.vars), names)
    {
      hide Decoded, Rendered, HasSecrets, LooksLikeJsonObject, GoodParameter, Numbered, SecretsOf, SchemasOf, Convertible, IsJson;
      ghost var before := env.vars;
      var values := RenderAll();
      if values.None? {
        return false;
      }
      WriteValues(values.value);
      DeleteSchemas();
      ConvertedShowsNoJson(decoder, param, before, names);
      return true;
    }

    /** The native form of every JSON provider; the variables stay as they are. */
    method RenderAll() returns (r: Option<Vars>)
      requires Valid()
      modifies this
      ensures Valid()
      ensures r.Some? <==> Convertible(decoder, param, env.vars, names)
      ensures r.Some? ==> r.value == Values(decoder, param, env.vars, names)
    {
      var values: Vars := map[];
      for i := 0 to |names|
        invariant Valid() && Convertible(decoder, param, env.vars, names[..i])
        invariant values == Values(decoder, param, env.vars, names[..i])
      {
        hide Decoded, Rendered, Native, HasSecrets, LooksLikeJsonObject, Numbered, Convertible, Values, Valid;
        var name := names[i];
        MoreValues(decoder, param, env.vars, names, i);
        if !IsJson(env.vars, name) {
          if HasSecrets(env.vars, name) {
            return None;
          }
        } else {
          var value := Render(name);
          if value.None? {
            return None;
          }
          values := values[name := value.value];
        }
      }
      assert names[..|names|] == names;
      return Some(values);
    }

    method Render(name: string) returns (r: Option<string>)
      requires Valid() && name in names && IsJson(env.vars, name)
      modifies this
      ensures Valid() && r == Rendered(decoder, param, env.vars, name)
    {
      hide Decoded, Native, LooksLikeJsonObject;
      var config := Decode(name);
      if config.None? {
        return None;
      }
      var value := RenderNative(config.value.provider, config.value.definition, config.value.fields);
      return if value.Success? then Some(value.value) else None;
    }

    /** Writes the rendered values in any order and removes the credentials they replace. */
    method WriteValues(values: Vars)
      requires Numbered(param.prefix, names) && forall name :: name in values ==> name in names
      modifies env
      ensures env.vars == old(env.vars) + values - SecretsOf(values.Keys)
    {
      hide SecretsOf, AllSecretVariables, Numbered;
      ghost var before := env.vars;
      var rest := values.Keys;
      AppliedNothing(before, values);
      while rest != {}
        invariant rest <= values.Keys
        invariant env.vars == Applied(before, values, values.Keys - rest)
        decreases |rest|
      {
        hide Applied;
        var name :| name in rest;
        AppliedOne(param.prefix, names, before, values, values.Keys - rest, name);
        assert values.Keys - (rest - {name}) == values.Keys - rest + {name};
        env.Set(name, values[name]);
        DeleteSecrets(name);
        rest := rest - {name};
      }
      AppliedAll(before, values);
    }

    method DeleteSchemas()
      modifies env
      ensures env.vars == old(env.vars) - SchemasOf(names)
    {
      for i := 0 to |names|
        invariant env.vars == old(env.vars) - SchemasOf(names[..i])
      {
        assert names[..i + 1] == names[..i] + [names[i]];
        assert SchemasOf(names[..i + 1]) == SchemasOf(names[..i]) + {names[i] + SCHEMA_SUFFIX};
        env.Delete(names[i] + SCHEMA_SUFFIX);
      }
      assert names[..|names|] == names;
    }
  }

  /** One name more. */
  lemma MoreValues(decoder: Decoder, param: Parameter, vars: Vars, names: seq<string>, i: nat)
    requires i < |names| && Convertible(decoder, param, vars, names[..i])
    ensures Convertible(decoder, param, vars, names) ==> Renderable(decoder, param, vars, names[i])
    ensures Convertible(decoder, param, vars, names[..i + 1]) <==> Renderable(decoder, param, vars, names[i])
    ensures Convertible(decoder, param, vars, names[..i + 1]) ==>
      var values := Values(decoder, param, vars, names[..i]);
      Values(decoder, param, vars, names[..i + 1])
        == if IsJson(vars, names[i]) then values[names[i] := Rendered(decoder, param, vars, names[i]).value] else values
  {
    hide Rendered, HasSecrets, LooksLikeJsonObject;
    assert names[..i + 1] == names[..i] + [names[i]] && names[i] in names;
  }

  /** The environment once the values of `done` are in place. */
  function Applied(vars: Vars, values: Vars, done: set<string>): Vars {
    vars + (map name | name in values && name in done :: values[name]) - SecretsOf(done)
  }

  lemma AppliedNothing(vars: Vars, values: Vars)
    ensures Applied(vars, values, values.Keys - values.Keys) == vars
  {
    hide AllSecretVariables;
    assert values.Keys - values.Keys == {};
  }

  lemma AppliedAll(vars: Vars, values: Vars)
    ensures Applied(vars, values, values.Keys - {}) == vars + values - SecretsOf(values.Keys)
  {
    hide AllSecretVariables;
    assert values.Keys - {} == values.Keys;
    assert (map name | name in values && name in values.Keys :: values[name]) == values;
  }

  lemma WrittenOne(vars: Vars, values: Vars, done: set<string>, name: string)
    requires name in values
    ensures vars + (map n | n in values && n in done + {name} :: values[n])
         == (vars + (map n | n in values && n in done :: values[n]))[name := values[name]]
  {
  }

  lemma RemovedLater(vars: Vars, name: string, value: string, first: set<string>, second: set<string>)
    requires name !in first && name !in second
    ensures vars[name := value] - (first + second) == (vars - first)[name := value] - second
  {
  }

  lemma AppliedOne(prefix: string, names: seq<string>, vars: Vars, values: Vars, done: set<string>, name: string)
    requires Numbered(prefix, names) && name in names && name in values
    ensures Applied(vars, values, done)[name := values[name]] - AllSecretVariables(name)
         == Applied(vars, values, done + {name})
  {
    RemovedAreNoProviders(prefix, names, done + {name});
    MoreSecrets(done, name);
    hide AllSecretVariables, SecretsOf, SchemasOf;
    WrittenOne(vars, values, done, name);
    var written := vars + (map n | n in values && n in done :: values[n]);
    RemovedLater(written, name, values[name], SecretsOf(done), AllSecretVariables(name));
  }

  lemma MoreSecrets(done: set<string>, name: string)
    ensures SecretsOf(done + {name}) == SecretsOf(done) + AllSecretVariables(name)
  {
    hide AllSecretVariables;
  }

  // ---- what is left of a converted environment ----

  /** A provider name starts like no JSON object and ends before the first semicolon. */
  predicate ProviderName(provider: string) {
    provider != "" && !IsSpace(provider[0]) && provider[0] != '{' && ';' !in provider
  }

  predicate GoodParameter(param: Parameter) {
    && (forall p :: p in param.providers ==> ProviderName(p) && WellFormed(param.providers[p]))
    && (forall p :: p in param.providers && param.providers[p].valueTypes ==> VALUE_TYPES in param.reserved)
    && (forall p, file :: p in param.providers && file in param.providers[p].files ==>
          LocationKey(file) in MANAGED_LOCATIONS && LocationKey(file) != "ssl_ca_location")
  }

  lemma NativeLooksNotLikeJson(s: string)
    requires s != "" && !IsSpace(s[0]) && s[0] != '{'
    ensures !LooksLikeJsonObject(s)
  {
    var lead, tail := TrimParts(s);
    assert forall i :: 0 <= i < |lead| ==> s[i] == lead[i] && IsSpace(s[i]);
    assert lead == "";
    assert TrimSpace(s) != "" ==> TrimSpace(s)[0] == s[0];
  }

  lemma RenderedStartsWithProvider(decoder: Decoder, param: Parameter, vars: Vars, name: string)
    requires GoodParameter(param) && Rendered(decoder, param, vars, name).Some?
    ensures !LooksLikeJsonObject(Rendered(decoder, param, vars, name).value)
  {
    var config := Decoded(decoder, param, vars, name).value;
    DecodedProvider(decoder, param, vars, name);
    hide Decoded, JoinWith;
    var text := Rendered(decoder, param, vars, name).value;
    assert text[0] == config.provider[0];
    NativeLooksNotLikeJson(text);
  }

  lemma DecodedProvider(decoder: Decoder, param: Parameter, vars: Vars, name: string)
    requires Decoded(decoder, param, vars, name).Some?
    ensures var config := Decoded(decoder, param, vars, name).value;
            config.provider in param.providers && config.definition == param.providers[config.provider]
  {
    hide ValidFields, Settled, HasSecrets, ApplySecrets, Defaulted;
  }

  lemma ConvertedShowsNoJson(decoder: Decoder, param: Parameter, vars: Vars, names: seq<string>)
    requires GoodParameter(param) && Numbered(param.prefix, names) && Convertible(decoder, param, vars, names)
    ensures forall name :: name in names ==> !IsJson(Converted(decoder, param, vars, names), name)
  {
    forall name | name in names ensures !IsJson(Converted(decoder, param, vars, names), name) {
      ConvertedProvider(decoder, param, vars, names, name);
      if IsJson(vars, name) {
        RenderedStartsWithProvider(decoder, param, vars, name);
      }
    }
  }

  lemma ConvertedProvider(decoder: Decoder, param: Parameter, vars: Vars, names: seq<string>, name: string)
    requires Numbered(param.prefix, names) && Convertible(decoder, param, vars, names) && name in names
    ensures Get(Converted(decoder, param, vars, names), name)
         == if IsJson(vars, name) then Rendered(decoder, param, vars, name).value else Get(vars, name)
  {
    assert Renderable(decoder, param, vars, name);
    RemovedAreNoProviders(param.prefix, names, Values(decoder, param, vars, names).Keys);
    hide SecretsOf, SchemasOf, Rendered, LooksLikeJsonObject;
  }

  function PrefixedBy(configs: seq<Config>, r: Option<seq<Config>>): Option<seq<Config>> {
    match r
    case None => None
    case Some(more) => Some(configs + more)
  }

  function Prepared(decoder: Decoder, param: Parameter, vars: Vars, names: seq<string>): Option<seq<Config>> {
    if names == [] then Some([])
    else if TrimSpace(Get(vars, names[0] + SCHEMA_SUFFIX)) == "" then Prepared(decoder, param, vars, names[1..])
    else if !IsJson(vars, names[0]) then None
    else
      match Decoded(decoder, param, vars, names[0])
      case None => None
      case Some(config) => PrefixedBy([config], Prepared(decoder, param, vars, names[1..]))
  }

  lemma PrefixedByNothing(r: Option<seq<Config>>)
    ensures PrefixedBy([], r) == r
  {
    if r.Some? { assert [] + r.value == r.value; }
  }

  lemma PreparedStep(decoder: Decoder, param: Parameter, vars: Vars, names: seq<string>, i: nat, configs: seq<Config>)
    requires i < |names|
    ensures PrefixedBy(configs, Prepared(decoder, param, vars, names[i..]))
         == var rest, config := Prepared(decoder, param, vars, names[i + 1..]), Decoded(decoder, param, vars, names[i]);
            if TrimSpace(Get(vars, names[i] + SCHEMA_SUFFIX)) == "" then PrefixedBy(configs, rest)
            else if !IsJson(vars, names[i]) || config.None? then None
            else PrefixedBy(configs + [config.value], rest)
  {
    hide Decoded, TrimSpace, IsJson;
    var rest := names[i..];
    assert rest[1..] == names[i + 1..] && rest[0] == names[i];
    var config := Decoded(decoder, param, vars, names[i]);
    var more := Prepared(decoder, param, vars, names[i + 1..]);
    if config.Some? && more.Some? {
      assert configs + ([config.value] + more.value) == configs + [config.value] + more.value;
    }
  }

  /**
   Main result: conversion puts the native form of every JSON provider in its variable, removes the
   credentials of these providers and every schema variable, and touches nothing else.
   */
  lemma ConversionIsExact(decoder: Decoder, param: Parameter, vars: Vars, names: seq<string>)
    requires Numbered(param.prefix, names) && Convertible(decoder, param, vars, names)
    ensures var after := Converted(decoder, param, vars, names);
            && (forall name :: name in names && IsJson(vars, name) ==>
                  name in after && Rendered(decoder, param, vars, name) == Some(after[name]))
            && (forall name :: name in names && IsJson(vars, name) ==> AllSecretVariables(name) !! after.Keys)
            && (forall name :: name in names ==> name + SCHEMA_SUFFIX !in after)
            && (forall v :: (v in after && after[v] == Get(vars, v) && v in vars) || (v !in after && v !in vars)
                  || (v in names && IsJson(vars, v)) || v in SchemasOf(names)
                  || exists name :: name in names && IsJson(vars, name) && v in AllSecretVariables(name))
  {
    hide AllSecretVariables, Rendered, LooksLikeJsonObject;
    var values := Values(decoder, param, vars, names);
    RemovedAreNoProviders(param.prefix, names, values.Keys);
    forall name | name in names && IsJson(vars, name)
      ensures name in values && Rendered(decoder, param, vars, name) == Some(values[name])
    {
      assert Renderable(decoder, param, vars, name);
    }
    forall name | name in names ensures name + SCHEMA_SUFFIX in SchemasOf(names) {
    }
  }

  lemma NoSecretsLeft(vars: Vars, name: string)
    requires AllSecretVariables(name) !! vars.Keys
    ensures !HasSecrets(vars, name)
  {
    forall secret | secret in SECRETS ensures !HasSecret(vars, name, secret) {
      var own := SecretVariables(name, secret);
      assert name + secret.suffix in own && name + FileSuffix(secret) in own;
      assert secret.kind.FileSecret? ==> LocationVariable(name, secret) in own;
      assert forall v :: v in own ==> v in AllSecretVariables(name);
    }
  }

  lemma SecretStays(vars: Vars, after: Vars, name: string, secret: Secret)
    requires secret in SECRETS && HasSecret(after, name, secret)
    requires forall v :: v in SecretVariables(name, secret) && v in after ==> v in vars && after[v] == vars[v]
    ensures HasSecrets(vars, name)
  {
    var own := SecretVariables(name, secret);
    assert name + secret.suffix in own && name + FileSuffix(secret) in own;
    assert secret.kind.FileSecret? ==> LocationVariable(name, secret) in own;
    assert HasSecret(vars, name, secret);
  }

  lemma OnlyRemovals(decoder: Decoder, param: Parameter, vars: Vars, names: seq<string>, name: string)
    requires Numbered(param.prefix, names) && Convertible(decoder, param, vars, names) && name in names
    ensures !HasSecrets(Converted(decoder, param, vars, names), name)
  {
    var after := Converted(decoder, param, vars, names);
    ConversionIsExact(decoder, param, vars, names);
    if IsJson(vars, name) {
      hide HasSecrets, AllSecretVariables, Converted;
      NoSecretsLeft(after, name);
    } else {
      assert Renderable(decoder, param, vars, name);
      NumberedNamesEndInDigits(param.prefix, names);
      hide LooksLikeJsonObject, Rendered, EndsInDigit;
      if HasSecrets(after, name) {
        forall secret, v | secret in SECRETS && v in SecretVariables(name, secret) && v in after
          ensures v in vars && after[v] == vars[v]
        {
          SecretEndsInLetter(name, secret);
        }
        var secret :| secret in SECRETS && HasSecret(after, name, secret);
        SecretStays(vars, after, name, secret);
      }
    }
  }

  /** Main result: converting a converted environment changes nothing. */
  lemma ConversionIsIdempotent(decoder: Decoder, param: Parameter, vars: Vars, names: seq<string>)
    requires GoodParameter(param) && Numbered(param.prefix, names) && Convertible(decoder, param, vars, names)
    ensures var after := Converted(decoder, param, vars, names);
            Convertible(decoder, param, after, names) && Converted(decoder, param, after, names) == after
  {
    var after := Converted(decoder, param, vars, names);
    ConvertedShowsNoJson(decoder, param, vars, names);
    ConversionIsExact(decoder, param, vars, names);
    hide Converted, HasSecrets, AllSecretVariables, LooksLikeJsonObject, Rendered;
    forall name | name in names ensures Renderable(decoder, param, after, name) {
      OnlyRemovals(decoder, param, vars, names, name);
    }
    NothingToConvert(decoder, param, after, names);
  }

  lemma NothingToConvert(decoder: Decoder, param: Parameter, vars: Vars, names: seq<string>)
    requires Convertible(decoder, param, vars, names) && forall name :: name in names ==> !IsJson(vars, name)
    requires forall name :: name in names ==> name + SCHEMA_SUFFIX !in vars
    ensures Converted(decoder, param, vars, names) == vars
  {
    hide AllSecretVariables, LooksLikeJsonObject, Rendered;
    assert Values(decoder, param, vars, names) == map[];
    assert SecretsOf({}) == {};
    assert SchemasOf(names) !! vars.Keys;
  }

  // ---- the whole configuration step ----

  /**
   `configureProviders` up to its schema preparation: providers are numbered, looked at and converted.
   Whatever fails, the environment stays as it was.
   */
  method ConfigureProviders(env: Environment, param: Parameter, decoder: Decoder)
      returns (r: Option<(seq<string>, seq<Config>)>)
    requires GoodParameter(param)
    modifies env
    ensures r.None? ==> env.vars == old(env.vars)
    ensures r.Some? ==>
              var (names, configs) := r.value;
              && ListsProviders(old(env.vars), param.prefix, names)
              && Prepared(decoder, param, old(env.vars), names) == Some(configs)
              && Convertible(decoder, param, old(env.vars), names)
              && env.vars == Converted(decoder, param, old(env.vars), names)
  {
    hide GoodParameter, Prepared, Convertible, Converted;
    var names := IndexedNames(env.vars, param);
    if names.None? {
      return None;
    }
    var configuration := new Configuration(env, param, decoder, names.value);
    var configs := configuration.ConfigsToPrepare();
    if configs.None? {
      return None;
    }
    var ok := configuration.ConfigureNative();
    return if ok then Some((names.value, configs.value)) else None;
  }
}
