/** Which variables of a family name providers, and which environments are accepted. */
module ProviderNames {
  import opened Text
  import opened ProcessEnvironment
  import opened ProviderSecrets
  import opened ProviderConfiguration
  import opened NativeConversion
  import opened ProviderOptions
  import Decimal
  import IndexedVariables

  /** The endings of credential variables, the managed ones included. */
  predicate CredentialEnding(ending: string) {
    ending in {"_USERNAME", "_USERNAME_FILE", "_PASSWORD", "_PASSWORD_FILE", "_SSL_KEY_PASSWORD", "_SSL_KEY_PASSWORD_FILE",
               "_SSL_CERT", "_SSL_CERTFILE", "_SSL_KEY", "_SSL_KEYFILE", "_SSL_CA", "_SSL_CAFILE", "_SSL_CALOCATION"}
  }

  ghost predicate IsCredential(name: string) {
    exists base, ending :: name == base + ending && CredentialEnding(ending)
  }

  /** The variable is the credential of `base`: no longer ending takes a part of it. */
  ghost predicate CredentialOf(name: string, base: string) {
    exists ending :: name == base + ending && CredentialEnding(ending)
      && forall other, longer :: name == other + longer && CredentialEnding(longer) ==> |longer| <= |ending|
  }

  lemma EndingsAreSuffixes(ending: string)
    ensures CredentialEnding(ending) <==> ending in SUFFIXES
  {
  }

  lemma SuffixSplits(name: string, suffix: string)
    ensures HasSuffix(name, suffix) <==> exists base :: name == base + suffix
    ensures HasSuffix(name, suffix) ==> name == CutSuffix(name, suffix) + suffix
  {
    if HasSuffix(name, suffix) {
      assert name == CutSuffix(name, suffix) + suffix;
    }
    if base :| name == base + suffix {
      assert name[|base|..] == suffix;
    }
  }

  predicate LongerFirst(suffixes: seq<string>) {
    forall i, j :: 0 <= i < j < |suffixes| ==> |suffixes[i]| >= |suffixes[j]|
  }

  lemma {:induction false} FirstIsLongest(name: string, suffixes: seq<string>)
    requires LongerFirst(suffixes)
    ensures BaseBySuffix(name, suffixes).None? ==> forall s :: s in suffixes ==> !HasSuffix(name, s)
    ensures BaseBySuffix(name, suffixes).Some? ==> exists s ::
              s in suffixes && HasSuffix(name, s) && CutSuffix(name, s) == BaseBySuffix(name, suffixes).value
              && forall t :: t in suffixes && HasSuffix(name, t) ==> |t| <= |s|
    decreases |suffixes|
  {
    if suffixes != [] {
      var first, rest := suffixes[0], suffixes[1..];
      assert suffixes == [first] + rest;
      if HasSuffix(name, first) {
        assert forall t :: t in suffixes ==> |t| <= |first|;
      } else {
        FirstIsLongest(name, rest);
      }
    }
  }

  lemma SuffixesAreOrdered()
    ensures LongerFirst(SUFFIXES)
  {
  }

  lemma CredentialBaseIs(name: string)
    ensures CredentialBase(name).Some? ==> CredentialOf(name, CredentialBase(name).value)
    ensures CredentialBase(name).Some? <==> IsCredential(name)
  {
    SuffixesAreOrdered();
    FirstIsLongest(name, SUFFIXES);
    forall ending ensures CredentialEnding(ending) <==> ending in SUFFIXES { EndingsAreSuffixes(ending); }
    forall suffix ensures HasSuffix(name, suffix) <==> exists base :: name == base + suffix
      ensures HasSuffix(name, suffix) ==> name == CutSuffix(name, suffix) + suffix { SuffixSplits(name, suffix); }
    hide SUFFIXES, CredentialEnding, HasSuffix, CutSuffix, BaseBySuffix, LongerFirst;
    if CredentialBase(name).Some? {
      var base := CredentialBase(name).value;
      var s :| s in SUFFIXES && HasSuffix(name, s) && CutSuffix(name, s) == base
        && forall t :: t in SUFFIXES && HasSuffix(name, t) ==> |t| <= |s|;
      assert name == base + s;
    }
  }

  lemma OneBase(name: string, base: string, other: string)
    requires CredentialOf(name, base) && CredentialOf(name, other)
    ensures base == other
  {
    hide CredentialEnding;
    var a :| name == base + a && CredentialEnding(a)
      && forall o, longer :: name == o + longer && CredentialEnding(longer) ==> |longer| <= |a|;
    var b :| name == other + b && CredentialEnding(b)
      && forall o, longer :: name == o + longer && CredentialEnding(longer) ==> |longer| <= |b|;
    assert |a| == |b| && |base| == |other|;
    assert base == name[..|base|] && other == name[..|other|];
  }

  // ---- environments with well-named providers ----

  ghost predicate IsSchema(name: string) {
    exists base :: name == base + "_SCHEMA"
  }

  predicate OfFamily(prefix: string, name: string) {
    name == prefix || prefix + "_" <= name
  }

  /** A credential or a schema with a value stands beside its provider; a schema beside one that is not empty. */
  ghost predicate StandsBeside(vars: Vars, name: string)
    requires name in vars
  {
    vars[name] != "" ==>
      && (forall base :: name == base + "_SCHEMA" ==> Get(vars, base) != "")
      && (!IsSchema(name) ==> forall base :: CredentialOf(name, base) ==> base in vars)
  }

  /** A provider variable: of the family, and neither a credential nor a schema. */
  ghost predicate Ordinary(prefix: string, name: string) {
    OfFamily(prefix, name) && !IsSchema(name) && !IsCredential(name)
  }

  lemma AttachedIs(vars: Vars, name: string)
    requires name in vars
    ensures Attached(vars, name) <==> StandsBeside(vars, name)
  {
    CredentialBaseIs(name);
    SchemaIs(name);
    hide CredentialBase, CredentialOf, IsCredential, HasSuffix, CutSuffix, Get;
    if IsSchema(name) {
      forall base | name == base + "_SCHEMA" ensures base == CutSuffix(name, SCHEMA_SUFFIX) { SameHead(name, base); }
    } else if CredentialBase(name).Some? {
      forall base | CredentialOf(name, base) ensures base == CredentialBase(name).value {
        OneBase(name, base, CredentialBase(name).value);
      }
    } else {
      forall base ensures !CredentialOf(name, base) { CredentialHasEnding(name, base); }
    }
  }

  lemma CredentialHasEnding(name: string, base: string)
    ensures CredentialOf(name, base) ==> IsCredential(name)
  {
    hide CredentialEnding;
  }

  lemma SchemaIs(name: string)
    ensures IsSchema(name) <==> HasSuffix(name, SCHEMA_SUFFIX)
    ensures IsSchema(name) ==> name == CutSuffix(name, SCHEMA_SUFFIX) + "_SCHEMA"
  {
    SuffixSplits(name, SCHEMA_SUFFIX);
  }

  lemma SameHead(name: string, base: string)
    requires name == base + "_SCHEMA" && HasSuffix(name, SCHEMA_SUFFIX)
    ensures base == CutSuffix(name, SCHEMA_SUFFIX)
  {
  }

  lemma OrdinaryIs(prefix: string, name: string)
    ensures IsProviderVariable(prefix, name) <==> Ordinary(prefix, name)
  {
    CredentialBaseIs(name);
    SchemaIs(name);
    hide CredentialBase, CredentialOf, IsCredential, HasSuffix, IsSchema;
  }

  /** The variable of provider number i. */
  function NumberedName(prefix: string, i: nat): string {
    prefix + "_" + Decimal.Itoa(i)
  }

  lemma NumberedIsOrdinary(prefix: string, i: nat)
    ensures Ordinary(prefix, NumberedName(prefix, i))
  {
    var name, digits := NumberedName(prefix, i), Decimal.Itoa(i);
    assert name == prefix + ("_" + digits);
    assert prefix + "_" <= name;
    assert Decimal.IsDigit(digits[|digits| - 1]) && name[|name| - 1] == digits[|digits| - 1];
    forall base, ending | CredentialEnding(ending) || ending == "_SCHEMA" ensures !Decimal.IsDigit((base + ending)[|base + ending| - 1]) {
      EndingIsLetters(ending);
    }
    hide CredentialEnding, Decimal.IsDigit;
  }

  lemma EndingIsLetters(ending: string)
    requires CredentialEnding(ending) || ending == "_SCHEMA"
    ensures ending != "" && !Decimal.IsDigit(ending[|ending| - 1])
  {
  }

  ghost predicate HasNumber(vars: Vars, prefix: string, name: string) {
    exists i: nat :: i <= Decimal.MAX_INT && name == NumberedName(prefix, i) && forall j: nat :: j < i ==> NumberedName(prefix, j) in vars
  }

  /** The providers are numbered from zero without a gap, none is empty, and there are not too many. */
  ghost predicate WellNumbered(vars: Vars, prefix: string, limit: nat) {
    && (forall name :: name in vars && Ordinary(prefix, name) ==> vars[name] != "" && HasNumber(vars, prefix, name))
    && (limit != 0 ==> NumberedName(prefix, limit) !in vars)
  }

  lemma NumbersRead(prefix: string, name: string)
    requires prefix + "_" <= name
    ensures IndexedVariables.ParseIndexedNumber(IndexedVariables.SuffixAfter(prefix, name)).Some?
       <==> exists i: nat :: i <= Decimal.MAX_INT && name == NumberedName(prefix, i)
    ensures forall i: nat :: i <= Decimal.MAX_INT && name == NumberedName(prefix, i) ==>
              IndexedVariables.ParseIndexedNumber(IndexedVariables.SuffixAfter(prefix, name)) == Some(i)
  {
    var suffix := IndexedVariables.SuffixAfter(prefix, name);
    IndexedVariables.CanonicalSuffix(suffix);
    assert name == prefix + "_" + suffix;
    forall i: nat | i <= Decimal.MAX_INT && name == NumberedName(prefix, i)
      ensures IndexedVariables.ParseIndexedNumber(suffix) == Some(i)
    {
      assert suffix == Decimal.Itoa(i);
      Decimal.AtoiItoa(i);
    }
    hide IndexedVariables.ParseIndexedNumber, Decimal.Itoa;
    if IndexedVariables.ParseIndexedNumber(suffix).Some? {
      var i :| 0 <= i <= Decimal.MAX_INT && Decimal.Itoa(i) == suffix;
      assert name == NumberedName(prefix, i);
    }
  }

  lemma InProviders(vars: Vars, prefix: string, name: string)
    ensures name in ProviderVariables(vars, prefix) <==> name in vars && Ordinary(prefix, name)
    ensures name in ProviderVariables(vars, prefix) ==> ProviderVariables(vars, prefix)[name] == vars[name]
  {
    OrdinaryIs(prefix, name);
    hide Ordinary, IsProviderVariable;
  }

  lemma VariableOfFamily(env: Vars, prefix: string, v: IndexedVariables.IndexedVariable)
    ensures IndexedVariables.IsVariable(env, [prefix], v)
       <==> && v.prefix == prefix && v.name in env && v.index <= Decimal.MAX_INT && v.name == NumberedName(prefix, v.index)
  {
    if prefix + "_" <= v.name {
      NumbersRead(prefix, v.name);
    }
    if v.name == NumberedName(prefix, v.index) {
      assert v.name == prefix + "_" + Decimal.Itoa(v.index);
    }
    if IndexedVariables.IsVariable(env, [prefix], v) {
      IndexedVariables.VariableName(env, [prefix], v);
    }
    hide IndexedVariables.ParseIndexedNumber, Decimal.Itoa;
    assert prefix in [prefix];
  }

  lemma NumberedIsVariable(vars: Vars, prefix: string, i: nat)
    requires NumberedName(prefix, i) in vars && i <= Decimal.MAX_INT
    ensures IndexedVariables.IsVariable(ProviderVariables(vars, prefix), [prefix],
                                        IndexedVariables.IndexedVariable(i, NumberedName(prefix, i), prefix))
  {
    NumberedIsOrdinary(prefix, i);
    InProviders(vars, prefix, NumberedName(prefix, i));
    VariableOfFamily(ProviderVariables(vars, prefix), prefix, IndexedVariables.IndexedVariable(i, NumberedName(prefix, i), prefix));
    hide NumberedName, ProviderVariables, Ordinary;
  }

  lemma AcceptedAreNumbered(vars: Vars, prefix: string, name: string)
    requires IndexedVariables.Accepts(ProviderVariables(vars, prefix), [prefix], true)
    requires name in vars && Ordinary(prefix, name)
    ensures vars[name] != "" && HasNumber(vars, prefix, name)
  {
    var env := ProviderVariables(vars, prefix);
    InProviders(vars, prefix, name);
    assert prefix in [prefix];
    assert IndexedVariables.Recognises([prefix], name, prefix);
    NumbersRead(prefix, name);
    var i: nat :| i <= Decimal.MAX_INT && name == NumberedName(prefix, i);
    NumberedIsVariable(vars, prefix, i);
    var v := IndexedVariables.IndexedVariable(i, name, prefix);
    assert env[v.name] != "";
    forall j: nat | j < i ensures NumberedName(prefix, j) in vars {
      assert IndexedVariables.HasIndex(env, [prefix], j);
      var w :| IndexedVariables.IsVariable(env, [prefix], w) && w.index == j;
      VariableOfFamily(env, prefix, w);
      InProviders(vars, prefix, w.name);
    }
  }

  lemma NumberedAreAccepted(vars: Vars, prefix: string, limit: nat)
    requires WellNumbered(vars, prefix, limit)
    ensures IndexedVariables.Accepts(ProviderVariables(vars, prefix), [prefix], true)
  {
    var env := ProviderVariables(vars, prefix);
    forall name | name in env ensures HasNumber(vars, prefix, name) && vars[name] == env[name] != "" && name != prefix {
      InProviders(vars, prefix, name);
    }
    forall name, p | name in env && IndexedVariables.Recognises([prefix], name, p)
      ensures IndexedVariables.ParseIndexedNumber(IndexedVariables.SuffixAfter(p, name)).Some?
    {
      NumbersRead(prefix, name);
    }
    forall v ensures IndexedVariables.IsVariable(env, [prefix], v)
      <==> v.prefix == prefix && v.name in env && v.index <= Decimal.MAX_INT && v.name == NumberedName(prefix, v.index)
    {
      VariableOfFamily(env, prefix, v);
    }
    hide IndexedVariables.IsVariable, ProviderVariables, IndexedVariables.Recognises, IndexedVariables.ParseIndexedNumber;
    forall v, i: nat | IndexedVariables.IsVariable(env, [prefix], v) && i < v.index
      ensures IndexedVariables.HasIndex(env, [prefix], i)
    {
      var n: nat :| n <= Decimal.MAX_INT && v.name == NumberedName(prefix, n) && forall j: nat :: j < n ==> NumberedName(prefix, j) in vars;
      SameNumber(prefix, n, v.index);
      NumberedIsVariable(vars, prefix, i);
    }
  }

  lemma SameNumber(prefix: string, i: nat, j: nat)
    requires NumberedName(prefix, i) == NumberedName(prefix, j)
    ensures i == j
  {
    NumbersAreDistinct(prefix, i, j);
  }

  lemma LimitIs(vars: Vars, prefix: string, limit: nat)
    ensures IndexedVariables.IndexedName(prefix, limit) in ProviderVariables(vars, prefix) <==> NumberedName(prefix, limit) in vars
  {
    NumberedIsOrdinary(prefix, limit);
    InProviders(vars, prefix, NumberedName(prefix, limit));
    hide ProviderVariables, Ordinary;
  }

  /**
   Main result: the environments whose providers are accepted. Credentials and schemas with a value stand
   beside their provider, and the providers are numbered from zero without a gap up to the limit.
   */
  lemma NamesAcceptedWhen(vars: Vars, param: Parameter)
    ensures NamesAccepted(vars, param)
       <==> && (forall name :: name in vars && OfFamily(param.prefix, name) ==> StandsBeside(vars, name))
            && WellNumbered(vars, param.prefix, param.maxProviders)
  {
    var prefix := param.prefix;
    LimitIs(vars, prefix, param.maxProviders);
    forall name | name in vars ensures Attached(vars, name) <==> StandsBeside(vars, name) { AttachedIs(vars, name); }
    hide StandsBeside, Attached, ProviderVariables, Ordinary, HasNumber, NumberedName, IndexedVariables.IndexedName;
    if IndexedVariables.Accepts(ProviderVariables(vars, prefix), [prefix], true) {
      hide IndexedVariables.Accepts;
      forall name | name in vars && Ordinary(prefix, name) ensures vars[name] != "" && HasNumber(vars, prefix, name) {
        AcceptedAreNumbered(vars, prefix, name);
      }
    }
    if WellNumbered(vars, prefix, param.maxProviders) {
      NumberedAreAccepted(vars, prefix, param.maxProviders);
    }
  }

  /** Main result for the two families of the images: any number of history providers, and one of telemetry. */
  lemma FamiliesAcceptedWhen(vars: Vars)
    ensures NamesAccepted(vars, HISTORY)
       <==> && (forall name :: name in vars && OfFamily("ZBX_HISTORYPROVIDER", name) ==> StandsBeside(vars, name))
            && WellNumbered(vars, "ZBX_HISTORYPROVIDER", 0)
    ensures NamesAccepted(vars, TELEMETRY)
       <==> && (forall name :: name in vars && OfFamily("ZBX_TELEMETRYPROVIDER", name) ==> StandsBeside(vars, name))
            && (forall name :: name in vars && Ordinary("ZBX_TELEMETRYPROVIDER", name) ==>
                  vars[name] != "" && name == "ZBX_TELEMETRYPROVIDER_0")
  {
    NamesAcceptedWhen(vars, HISTORY);
    NamesAcceptedWhen(vars, TELEMETRY);
    OneProvider(vars, "ZBX_TELEMETRYPROVIDER");
    FirstTelemetry();
    hide StandsBeside, WellNumbered, NumberedName, Ordinary;
  }

  lemma FirstTelemetry()
    ensures NumberedName("ZBX_TELEMETRYPROVIDER", 0) == "ZBX_TELEMETRYPROVIDER_0"
    ensures TELEMETRY.prefix == "ZBX_TELEMETRYPROVIDER" && TELEMETRY.maxProviders == 1
    ensures HISTORY.prefix == "ZBX_HISTORYPROVIDER" && HISTORY.maxProviders == 0
  {
    assert Decimal.Itoa(0) == "0";
  }

  lemma OneProvider(vars: Vars, prefix: string)
    ensures WellNumbered(vars, prefix, 1)
       <==> forall name :: name in vars && Ordinary(prefix, name) ==> vars[name] != "" && name == NumberedName(prefix, 0)
  {
    NumberedIsOrdinary(prefix, 1);
    if NumberedName(prefix, 0) == NumberedName(prefix, 1) { NumbersAreDistinct(prefix, 0, 1); }
    hide Ordinary;
    if WellNumbered(vars, prefix, 1) {
      hide NumberedName;
      var one: nat := 1;
      forall name | name in vars && Ordinary(prefix, name) ensures name == NumberedName(prefix, 0) {
        var i: nat :| i <= Decimal.MAX_INT && name == NumberedName(prefix, i) && forall j: nat :: j < i ==> NumberedName(prefix, j) in vars;
        assert one < i ==> NumberedName(prefix, one) in vars;
      }
    }
    if forall name :: name in vars && Ordinary(prefix, name) ==> vars[name] != "" && name == NumberedName(prefix, 0) {
      hide NumberedName;
      forall name | name in vars && Ordinary(prefix, name) ensures HasNumber(vars, prefix, name) {
        assert 0 <= Decimal.MAX_INT && name == NumberedName(prefix, 0);
      }
    }
  }

  // ---- what conversion removes and prepares ----

  predicate RemovedEnding(ending: string) {
    CredentialEnding(ending) || ending == "_SSL_CERTLOCATION" || ending == "_SSL_KEYLOCATION"
  }

  /** The endings that one secret of the registry takes. */
  function EndingsOf(secret: Secret): set<string> {
    {secret.suffix, secret.suffix + if secret.kind.ValueSecret? then "_FILE" else "FILE"}
    + if secret.kind.FileSecret? then {secret.suffix + "LOCATION"} else {}
  }

  lemma VariablesHaveEndings(name: string, secret: Secret, v: string)
    ensures v in SecretVariables(name, secret) <==> exists ending :: ending in EndingsOf(secret) && v == name + ending
  {
    var s := secret.suffix;
    assert name + s + "LOCATION" == name + (s + "LOCATION");
    assert name + (s + "_FILE") == name + s + "_FILE" && name + (s + "FILE") == name + s + "FILE";
  }

  lemma FileNames()
    ensures "_USERNAME" + "_FILE" == "_USERNAME_FILE" && "_PASSWORD" + "_FILE" == "_PASSWORD_FILE"
    ensures "_SSL_KEY_PASSWORD" + "_FILE" == "_SSL_KEY_PASSWORD_FILE"
    ensures "_SSL_CERT" + "FILE" == "_SSL_CERTFILE" && "_SSL_KEY" + "FILE" == "_SSL_KEYFILE" && "_SSL_CA" + "FILE" == "_SSL_CAFILE"
    ensures "_SSL_CERT" + "LOCATION" == "_SSL_CERTLOCATION" && "_SSL_KEY" + "LOCATION" == "_SSL_KEYLOCATION"
    ensures "_SSL_CA" + "LOCATION" == "_SSL_CALOCATION"
  {
  }

  lemma EndingsOfEach()
    ensures EndingsOf(SECRETS[0]) == {"_USERNAME", "_USERNAME_FILE"} && EndingsOf(SECRETS[1]) == {"_PASSWORD", "_PASSWORD_FILE"}
    ensures EndingsOf(SECRETS[2]) == {"_SSL_KEY_PASSWORD", "_SSL_KEY_PASSWORD_FILE"}
    ensures EndingsOf(SECRETS[3]) == {"_SSL_CERT", "_SSL_CERTFILE", "_SSL_CERTLOCATION"}
    ensures EndingsOf(SECRETS[4]) == {"_SSL_KEY", "_SSL_KEYFILE", "_SSL_KEYLOCATION"}
    ensures EndingsOf(SECRETS[5]) == {"_SSL_CA", "_SSL_CAFILE", "_SSL_CALOCATION"} && |SECRETS| == 6
  {
    FileNames();
  }

  lemma EndingsTogether(ending: string)
    ensures RemovedEnding(ending) <==> exists i :: 0 <= i < |SECRETS| && ending in EndingsOf(SECRETS[i])
  {
    EndingsOfEach();
    hide SECRETS, EndingsOf;
    assert ending in EndingsOf(SECRETS[0]) || ending in EndingsOf(SECRETS[1]) || ending in EndingsOf(SECRETS[2])
        || ending in EndingsOf(SECRETS[3]) || ending in EndingsOf(SECRETS[4]) || ending in EndingsOf(SECRETS[5])
      <==> RemovedEnding(ending);
  }

  /** Main result: the variables that go with a converted provider are its name with one of these endings. */
  lemma RemovedVariables(name: string, v: string)
    ensures v in AllSecretVariables(name) <==> exists ending :: RemovedEnding(ending) && v == name + ending
  {
    forall ending ensures RemovedEnding(ending) <==> exists i :: 0 <= i < |SECRETS| && ending in EndingsOf(SECRETS[i]) {
      EndingsTogether(ending);
    }
    forall secret ensures v in SecretVariables(name, secret) <==> exists ending :: ending in EndingsOf(secret) && v == name + ending {
      VariablesHaveEndings(name, secret, v);
    }
    hide SECRETS, EndingsOf, RemovedEnding, SecretVariables;
    if ending :| RemovedEnding(ending) && v == name + ending {
      var i :| 0 <= i < |SECRETS| && ending in EndingsOf(SECRETS[i]);
      assert SECRETS[i] in SECRETS && v in SecretVariables(name, SECRETS[i]);
    }
    if v in AllSecretVariables(name) {
      var secret :| secret in SECRETS && v in SecretVariables(name, secret);
      var ending :| ending in EndingsOf(secret) && v == name + ending;
      var i :| 0 <= i < |SECRETS| && SECRETS[i] == secret;
    }
  }

  /** The names with schema options, in their order. */
  function WithSchema(vars: Vars, names: seq<string>): seq<string> {
    if names == [] then []
    else (if TrimSpace(Get(vars, names[0] + "_SCHEMA")) == "" then [] else [names[0]]) + WithSchema(vars, names[1..])
  }

  /** Schemas are prepared for exactly the providers with schema options, which must all be JSON that decodes. */
  lemma {:induction false} PreparedAre(decoder: Decoder, param: Parameter, vars: Vars, names: seq<string>)
    ensures var r, asked := Prepared(decoder, param, vars, names), WithSchema(vars, names);
            && (r.Some? <==> forall name :: name in asked ==> IsJson(vars, name) && Decoded(decoder, param, vars, name).Some?)
            && (r.Some? ==> |r.value| == |asked|)
            && (r.Some? ==> forall i :: 0 <= i < |asked| ==> Decoded(decoder, param, vars, asked[i]) == Some(r.value[i]))
    decreases |names|
  {
    hide Decoded, IsJson;
    if names != [] {
      PreparedAre(decoder, param, vars, names[1..]);
      var asked, rest := WithSchema(vars, names), WithSchema(vars, names[1..]);
      assert asked == rest || asked == [names[0]] + rest;
    }
  }
}
