/** The provider entries of a plan, and with them every plan, keep apart. */
module SecretPlanProviders {
  import opened ProcessEnvironment
  import opened ProviderSecrets
  import opened OrderedKeys
  import opened ProviderConfiguration
  import opened SecretPlan
  import opened SecretPlanLaws
  import Decimal
  import IndexedVariables

  predicate IsIndex(s: string) {
    s != "" && Decimal.AllDigits(s)
  }

  /** The variable of a provider, such as ZBX_HISTORYPROVIDER_0. */
  predicate IsBase(base: string) {
    || (HISTORY_PREFIX <= base && IsIndex(base[|HISTORY_PREFIX|..]))
    || (TELEMETRY_PREFIX <= base && IsIndex(base[|TELEMETRY_PREFIX|..]))
  }

  lemma ContributedIsBase(component: Component, name: string)
    requires Contribute(component, name).Base?
    ensures IsBase(Contribute(component, name).base)
  {
    var prefix := if HISTORY_PREFIX <= name then HISTORY_PREFIX else TELEMETRY_PREFIX;
    var index := Index(name[|prefix|..]);
    var base := Contribute(component, name).base;
    assert base == prefix + index;
    IndexedVariables.CanonicalSuffix(index);
    assert base[..|prefix|] == prefix && base[|prefix|..] == index;
  }

  lemma WantedAreBases(vars: Vars, component: Component, command: Command)
    ensures forall base :: base in WantedBases(vars, component, command) ==> IsBase(base)
    ensures Distinct(WantedBases(vars, component, command))
  {
    hide IsBase, Contribute;
    var bases := WantedBases(vars, component, command);
    forall base | base in bases ensures IsBase(base) {
      var name :| name in vars && Contribute(component, name).Base? && Contribute(component, name).base == base;
      ContributedIsBase(component, name);
    }
    forall i, j | 0 <= i < j < |bases| ensures bases[i] != bases[j] {
      assert Before(bases[i], bases[j]);
      Asymmetric(bases[i], bases[j]);
    }
  }

  // ---- a stem determines its provider and its secret ----

  /** Index of the first byte behind the digits of a base. */
  lemma PrefixShows(base: string)
    requires IsBase(base)
    ensures |base| > 20 && (base[4] == 'H' <==> HISTORY_PREFIX <= base) && base[0] == 'Z'
    ensures base[4] == 'H' || (base[4] == 'T' && base[5] == 'E')
    ensures forall i :: (if base[4] == 'H' then 20 else 22) <= i < |base| ==> Decimal.IsDigit(base[i])
    ensures |base| > if base[4] == 'H' then 20 else 22
  {
    assert |HISTORY_PREFIX| == 20 && |TELEMETRY_PREFIX| == 22;
    if HISTORY_PREFIX <= base {
      assert base[4] == HISTORY_PREFIX[4] && base[0] == HISTORY_PREFIX[0];
      assert forall i :: 20 <= i < |base| ==> base[i] == base[20..][i - 20];
    } else {
      assert base[4] == TELEMETRY_PREFIX[4] && base[5] == TELEMETRY_PREFIX[5] && base[0] == TELEMETRY_PREFIX[0];
      assert forall i :: 22 <= i < |base| ==> base[i] == base[22..][i - 22];
    }
  }

  lemma SuffixStarts(secret: Secret)
    requires secret in SECRETS
    ensures |secret.suffix| >= 7 && secret.suffix[0] == '_'
  {
  }

  lemma StemsDetermine(b: string, s: Secret, c: string, t: Secret)
    requires IsBase(b) && IsBase(c) && s in SECRETS && t in SECRETS && b + s.suffix == c + t.suffix
    ensures b == c && s.suffix == t.suffix
  {
    PrefixShows(b);
    PrefixShows(c);
    SuffixStarts(s);
    SuffixStarts(t);
    hide IsBase;
    var name, other := b + s.suffix, c + t.suffix;
    assert name[4] == b[4] && other[4] == c[4];
    assert name[|b|] == '_' && other[|c|] == '_';
    assert forall i :: 0 <= i < |b| ==> name[i] == b[i];
    assert forall i :: 0 <= i < |c| ==> other[i] == c[i];
    assert |b| == |c|;
    assert name[..|b|] == b && other[..|c|] == c && name[|b|..] == s.suffix && other[|c|..] == t.suffix;
  }

  lemma SuffixesAreDistinct(s: Secret, t: Secret)
    requires s in SECRETS && t in SECRETS && s.suffix == t.suffix
    ensures s == t
  {
  }

  // ---- the stems of the provider entries ----

  /** `name` is the variable of a secret of this kind at one of the bases. */
  ghost predicate IsStem(name: string, bases: seq<string>, kind: SecretKind) {
    exists base, secret :: base in bases && secret in SECRETS && secret.kind == kind && name == base + secret.suffix
  }

  predicate Tail(secrets: seq<Secret>) {
    && (forall secret :: secret in secrets ==> secret in SECRETS)
    && (forall i, j :: 0 <= i < j < |secrets| ==> secrets[i].suffix != secrets[j].suffix)
  }

  lemma RegistryIsTail()
    ensures Tail(SECRETS)
  {
  }

  lemma TailOfTail(secrets: seq<Secret>)
    requires Tail(secrets) && secrets != []
    ensures Tail(secrets[1..]) && secrets[0] in SECRETS
    ensures forall secret :: secret in secrets[1..] ==> secret.suffix != secrets[0].suffix
  {
    assert secrets[0] in secrets;
    forall secret | secret in secrets[1..] ensures secret.suffix != secrets[0].suffix && secret in secrets {
      var i :| 0 <= i < |secrets[1..]| && secrets[1..][i] == secret;
      assert secrets[i + 1] == secret;
    }
  }

  predicate FromSecrets(names: seq<string>, base: string, secrets: seq<Secret>, kind: SecretKind) {
    forall name :: name in names ==> exists secret :: secret in secrets && secret.kind == kind && name == base + secret.suffix
  }

  lemma MoreNames(base: string, secrets: seq<Secret>, names: seq<string>, kind: SecretKind)
    requires Tail(secrets) && secrets != [] && Distinct(names) && FromSecrets(names, base, secrets[1..], kind)
    ensures FromSecrets(names, base, secrets, kind)
    ensures secrets[0].kind == kind ==>
              Distinct([base + secrets[0].suffix] + names)
              && FromSecrets([base + secrets[0].suffix] + names, base, secrets, kind)
  {
    TailOfTail(secrets);
    assert secrets == [secrets[0]] + secrets[1..] && secrets[0] in secrets;
    HeadIsNew(base, secrets[0], names, secrets[1..], kind);
  }

  lemma {:induction false} BaseFilesHold(vars: Vars, base: string, secrets: seq<Secret>)
    requires Tail(secrets)
    ensures var names := Inlines(BaseFiles(vars, base, secrets));
            Distinct(names) && FromSecrets(names, base, secrets, FileSecret)
    ensures forall f :: f in BaseFiles(vars, base, secrets) ==> f.file == f.inline + "FILE" && f.category == CategoryOf(base)
    decreases |secrets|
  {
    if secrets != [] {
      TailOfTail(secrets);
      BaseFilesHold(vars, base, secrets[1..]);
      hide CategoryOf, Tail, Distinct, FromSecrets;
      var name, rest := base + secrets[0].suffix, BaseFiles(vars, base, secrets[1..]);
      MoreNames(base, secrets, Inlines(rest), FileSecret);
      if secrets[0].kind.FileSecret? {
        assert BaseFiles(vars, base, secrets)
            == [FileSpec(name, name + "FILE", CategoryOf(base), "", false, Get(vars, base) != "")] + rest;
        assert Inlines(BaseFiles(vars, base, secrets)) == [name] + Inlines(rest);
      } else {
        assert BaseFiles(vars, base, secrets) == rest;
      }
    }
  }

  lemma HeadIsNew(base: string, first: Secret, names: seq<string>, secrets: seq<Secret>, kind: SecretKind)
    requires FromSecrets(names, base, secrets, kind) && forall secret :: secret in secrets ==> secret.suffix != first.suffix
    ensures base + first.suffix !in names
  {
    forall name | name in names ensures name != base + first.suffix {
      var secret :| secret in secrets && secret.kind == kind && name == base + secret.suffix;
      assert name[|base|..] == secret.suffix && (base + first.suffix)[|base|..] == first.suffix;
    }
  }

  lemma {:induction false} BaseValuesHold(vars: Vars, base: string, secrets: seq<Secret>)
    requires Tail(secrets)
    ensures var names := Names(BaseValues(vars, base, secrets));
            Distinct(names) && FromSecrets(names, base, secrets, ValueSecret)
    decreases |secrets|
  {
    if secrets != [] {
      TailOfTail(secrets);
      BaseValuesHold(vars, base, secrets[1..]);
      hide CategoryOf, Tail, Distinct, FromSecrets;
      var name, rest := base + secrets[0].suffix, BaseValues(vars, base, secrets[1..]);
      MoreNames(base, secrets, Names(rest), ValueSecret);
      if secrets[0].kind.ValueSecret? {
        assert BaseValues(vars, base, secrets) == [ValueSpec(name, CategoryOf(base), Get(vars, base) != "")] + rest;
        assert Names(BaseValues(vars, base, secrets)) == [name] + Names(rest);
      } else {
        assert BaseValues(vars, base, secrets) == rest;
      }
    }
  }

  ghost predicate StemsOf(names: seq<string>, bases: seq<string>, kind: SecretKind) {
    Distinct(names) && forall name :: name in names ==> IsStem(name, bases, kind)
  }

  lemma OneBase(names: seq<string>, base: string, bases: seq<string>, kind: SecretKind)
    requires FromSecrets(names, base, SECRETS, kind) && base in bases
    ensures forall name :: name in names ==> IsStem(name, bases, kind)
  {
  }

  /** The stems of one more provider are new. */
  lemma MoreStems(own: seq<string>, more: seq<string>, bases: seq<string>, kind: SecretKind)
    requires bases != [] && Distinct(bases) && forall base :: base in bases ==> IsBase(base)
    requires Distinct(own) && FromSecrets(own, bases[0], SECRETS, kind) && StemsOf(more, bases[1..], kind)
    ensures StemsOf(own + more, bases, kind)
  {
    hide IsBase;
    var first, rest := bases[0], bases[1..];
    assert bases == [first] + rest && first in bases;
    OneBase(own, first, bases, kind);
    forall name | name in more ensures IsStem(name, bases, kind) && name !in own {
      var base, secret :| base in rest && secret in SECRETS && secret.kind == kind && name == base + secret.suffix;
      assert base in bases && base != first;
      if name in own {
        var same :| same in SECRETS && same.kind == kind && name == first + same.suffix;
        StemsDetermine(base, secret, first, same);
      }
    }
    DistinctConcat(own, more);
  }

  ghost predicate CategoriesOf(files: seq<FileSpec>, bases: seq<string>) {
    forall f :: f in files ==> f.file == f.inline + "FILE" && exists base :: base in bases && f.category == CategoryOf(base)
  }

  lemma {:induction false} ProviderFilesHold(vars: Vars, component: Component, bases: seq<string>)
    requires Distinct(bases) && forall base :: base in bases ==> IsBase(base)
    ensures StemsOf(Inlines(ProviderFiles(vars, component, bases)), bases, FileSecret)
    ensures CategoriesOf(ProviderFiles(vars, component, bases), bases)
    decreases |bases|
  {
    hide IsBase, CategoryOf, BaseFiles, WithoutFiles;
    if bases != [] {
      var own := if WithoutFiles(component, bases[0]) then [] else BaseFiles(vars, bases[0], SECRETS);
      var more := ProviderFiles(vars, component, bases[1..]);
      assert bases == [bases[0]] + bases[1..] && bases[0] in bases;
      ProviderFilesHold(vars, component, bases[1..]);
      RegistryIsTail();
      BaseFilesHold(vars, bases[0], SECRETS);
      InlinesConcat(own, more);
      MoreStems(Inlines(own), Inlines(more), bases, FileSecret);
    }
  }

  lemma {:induction false} ProviderValuesHold(vars: Vars, bases: seq<string>)
    requires Distinct(bases) && forall base :: base in bases ==> IsBase(base)
    ensures StemsOf(Names(ProviderValues(vars, bases)), bases, ValueSecret)
    decreases |bases|
  {
    hide IsBase, CategoryOf, BaseValues;
    if bases != [] {
      var own, more := BaseValues(vars, bases[0], SECRETS), ProviderValues(vars, bases[1..]);
      assert bases == [bases[0]] + bases[1..] && bases[0] in bases;
      ProviderValuesHold(vars, bases[1..]);
      RegistryIsTail();
      BaseValuesHold(vars, bases[0], SECRETS);
      NamesConcat(own, more);
      MoreStems(Names(own), Names(more), bases, ValueSecret);
    }
  }

  lemma KindsAreApart(files: seq<string>, values: seq<string>, bases: seq<string>)
    requires forall base :: base in bases ==> IsBase(base)
    requires StemsOf(files, bases, FileSecret) && StemsOf(values, bases, ValueSecret)
    ensures forall name :: name in files ==> name !in values
  {
    hide IsBase;
    forall name | name in files && name in values ensures false {
      var b, s :| b in bases && s in SECRETS && s.kind == FileSecret && name == b + s.suffix;
      var c, t :| c in bases && t in SECRETS && t.kind == ValueSecret && name == c + t.suffix;
      StemsDetermine(b, s, c, t);
      SuffixesAreDistinct(s, t);
    }
  }

  lemma SuffixEnds(secret: Secret)
    requires secret in SECRETS
    ensures var n := |secret.suffix|;
            && n >= 7 && secret.suffix[n - 1] != '_' && secret.suffix[n - 4] != 'F' && secret.suffix[n - 2] != 'O'
            && '/' !in secret.suffix
  {
    SuffixHasNoSlash(secret);
  }

  lemma SuffixHasNoSlash(secret: Secret)
    requires secret in SECRETS
    ensures '/' !in secret.suffix
  {
  }

  lemma BaseHasNoSlash(base: string)
    requires IsBase(base)
    ensures '/' !in base
  {
    var prefix := if HISTORY_PREFIX <= base then HISTORY_PREFIX else TELEMETRY_PREFIX;
    assert '/' !in HISTORY_PREFIX && '/' !in TELEMETRY_PREFIX;
    assert base == prefix + base[|prefix|..];
    forall i | 0 <= i < |base| ensures base[i] != '/' {
      if i < |prefix| {
        assert base[i] == prefix[i] && prefix[i] in prefix;
      } else {
        assert base[i] == base[|prefix|..][i - |prefix|];
      }
    }
  }

  lemma JoinIsGood(base: string, suffix: string)
    requires '/' !in base && '/' !in suffix
    requires var n := |suffix|; n >= 7 && suffix[n - 1] != '_' && suffix[n - 4] != 'F' && suffix[n - 2] != 'O'
    ensures GoodStem(base + suffix)
  {
    var name, n := base + suffix, |suffix|;
    assert name[|name| - 1] == suffix[n - 1] && name[|name| - 4] == suffix[n - 4] && name[|name| - 2] == suffix[n - 2];
  }

  lemma ProviderGroup(base: string, suffix: string)
    requires IsBase(base)
    ensures Group(base + suffix) >= 20
  {
    PrefixShows(base);
    hide IsBase;
    var name := base + suffix;
    assert name[0] == base[0] && name[4] == base[4] && name[5] == base[5];
  }

  lemma StemIsGood(name: string, bases: seq<string>, kind: SecretKind)
    requires IsStem(name, bases, kind) && forall base :: base in bases ==> IsBase(base)
    ensures GoodStem(name) && Group(name) >= 20
  {
    hide IsBase, GoodStem, Group;
    var base, secret :| base in bases && secret in SECRETS && secret.kind == kind && name == base + secret.suffix;
    BaseHasNoSlash(base);
    SuffixEnds(secret);
    JoinIsGood(base, secret.suffix);
    ProviderGroup(base, secret.suffix);
  }

  lemma DigitsAreGood(head: string, digits: string)
    requires GoodCategory(head) && |head| >= 2 && head[|head| - 1] == '-' && head[|head| - 2] != '/'
    requires Decimal.AllDigits(digits)
    ensures GoodCategory(head + digits)
  {
    var c := head + digits;
    forall i | 0 <= i < |c| - 2 ensures !(c[i] == '/' && c[i + 1] == 'c' && c[i + 2] == 'a') {
      if i + 2 >= |head| {
        assert c[i + 2] == digits[i + 2 - |head|];
      } else {
        assert c[i] == head[i] && c[i + 1] == head[i + 1] && c[i + 2] == head[i + 2];
      }
    }
  }

  lemma FamilyHeads()
    ensures forall head :: head in ["providers/history-", "providers/telemetry-"] ==>
              GoodCategory(head) && |head| >= 2 && head[|head| - 1] == '-' && head[|head| - 2] != '/'
  {
  }

  lemma ProviderCategory(base: string)
    requires IsBase(base)
    ensures GoodCategory(CategoryOf(base))
  {
    FamilyHeads();
    hide GoodCategory;
    if HISTORY_PREFIX <= base {
      PrefixShows(base);
      HistoryIndex(base);
      DigitsAreGood("providers/history-", base[|HISTORY_PREFIX|..]);
    } else {
      DigitsAreGood("providers/telemetry-", base[|TELEMETRY_PREFIX|..]);
    }
  }

  /** A base has one of the two prefixes only. */
  lemma HistoryIndex(base: string)
    requires IsBase(base) && HISTORY_PREFIX <= base
    ensures IsIndex(base[|HISTORY_PREFIX|..])
  {
    assert base[4] == HISTORY_PREFIX[4];
    assert TELEMETRY_PREFIX <= base ==> base[4] == TELEMETRY_PREFIX[4];
  }

  lemma ProviderFilesAreGood(files: seq<FileSpec>, bases: seq<string>)
    requires CategoriesOf(files, bases) && forall base :: base in bases ==> IsBase(base)
    ensures AllGood(files)
  {
    hide IsBase, GoodCategory, CategoryOf;
    forall f | f in files ensures GoodFile(f) {
      var base :| base in bases && f.category == CategoryOf(base);
      ProviderCategory(base);
    }
  }

  /** Main result: for every environment, image and command the entries of the plan are apart. */
  lemma PlanIsApart(decoder: Decoder, vars: Vars, component: Component, command: Command)
    ensures Apart(PlanOf(decoder, vars, component, command))
  {
    var bases := WantedBases(vars, component, command);
    WantedAreBases(vars, component, command);
    FixedFilesAreGrouped(decoder, vars, component, command);
    FixedValuesAreGrouped(decoder, vars, component, command);
    ProviderFilesHold(vars, component, bases);
    ProviderValuesHold(vars, bases);
    hide *;
    PartsAreApart(FixedFiles(decoder, vars, component, command), ProviderFiles(vars, component, bases),
                  FixedValues(decoder, vars, component, command), ProviderValues(vars, bases),
                  Aliases(component, command), bases);
    PlanHasParts(decoder, vars, component, command);
  }

  lemma PlanHasParts(decoder: Decoder, vars: Vars, component: Component, command: Command)
    ensures PlanOf(decoder, vars, component, command)
         == var bases := WantedBases(vars, component, command);
            Plan(FixedFiles(decoder, vars, component, command) + ProviderFiles(vars, component, bases),
                 FixedValues(decoder, vars, component, command) + ProviderValues(vars, bases), Aliases(component, command))
  {
  }

  lemma PartsAreApart(fixedFiles: seq<FileSpec>, providerFiles: seq<FileSpec>, fixedValues: seq<ValueSpec>,
                      providerValues: seq<ValueSpec>, aliases: seq<Alias>, bases: seq<string>)
    requires forall base :: base in bases ==> IsBase(base)
    requires GroupedFiles(fixedFiles, 0, 8) && Grouped(Names(fixedValues), 10, 14)
    requires StemsOf(Inlines(providerFiles), bases, FileSecret) && CategoriesOf(providerFiles, bases)
    requires StemsOf(Names(providerValues), bases, ValueSecret)
    ensures Apart(Plan(fixedFiles + providerFiles, fixedValues + providerValues, aliases))
  {
    UngroupFiles(fixedFiles, 0, 8);
    hide *;
    var files, values := fixedFiles + providerFiles, fixedValues + providerValues;
    ProviderFilesAreGood(providerFiles, bases);
    KindsAreApart(Inlines(providerFiles), Names(providerValues), bases);
    ProviderStemsAreGood(Inlines(providerFiles), bases, FileSecret);
    ProviderStemsAreGood(Names(providerValues), bases, ValueSecret);
    FourParts(Inlines(fixedFiles), Inlines(providerFiles), Names(fixedValues), Names(providerValues));
    InlinesConcat(fixedFiles, providerFiles);
    NamesConcat(fixedValues, providerValues);
    GroupsJoin(fixedFiles, providerFiles, fixedValues, providerValues);
    ApartIs(Plan(files, values, aliases));
  }

  lemma UngroupFiles(files: seq<FileSpec>, from: nat, to: nat)
    requires GroupedFiles(files, from, to)
    ensures Grouped(Inlines(files), from, to) && AllGood(files)
  {
  }

  lemma ApartIs(plan: Plan)
    requires Distinct(Inlines(plan.files) + Names(plan.values))
    requires forall name :: name in Inlines(plan.files) + Names(plan.values) ==> GoodStem(name)
    requires forall f :: f in plan.files ==> GoodFile(f) && !(8 <= Group(f.inline) < 20)
    requires forall v :: v in plan.values ==> Group(v.name) >= 10
    ensures Apart(plan)
  {
    hide GoodStem, GoodFile, Group, Distinct;
  }

  lemma GroupsJoin(fixedFiles: seq<FileSpec>, providerFiles: seq<FileSpec>, fixedValues: seq<ValueSpec>,
                   providerValues: seq<ValueSpec>)
    requires GroupedFiles(fixedFiles, 0, 8) && Grouped(Names(fixedValues), 10, 14) && AllGood(providerFiles)
    requires forall name :: name in Inlines(providerFiles) || name in Names(providerValues) ==> Group(name) >= 20
    ensures forall f :: f in fixedFiles + providerFiles ==> GoodFile(f) && !(8 <= Group(f.inline) < 20)
    ensures forall v :: v in fixedValues + providerValues ==> Group(v.name) >= 10
  {
    hide GoodFile, Group, GoodStem;
    InlineGroups(fixedFiles);
    InlineGroups(providerFiles);
    NameGroups(fixedValues);
    NameGroups(providerValues);
  }

  lemma InlineGroups(files: seq<FileSpec>)
    requires forall name :: name in Inlines(files) ==> !(8 <= Group(name) < 20)
    ensures forall f :: f in files ==> !(8 <= Group(f.inline) < 20)
  {
    hide Group;
    forall f | f in files ensures f.inline in Inlines(files) {
      var i :| 0 <= i < |files| && files[i] == f;
      assert Inlines(files)[i] == f.inline;
    }
  }

  lemma NameGroups(values: seq<ValueSpec>)
    requires forall name :: name in Names(values) ==> Group(name) >= 10
    ensures forall v :: v in values ==> Group(v.name) >= 10
  {
    hide Group;
    forall v | v in values ensures v.name in Names(values) {
      var i :| 0 <= i < |values| && values[i] == v;
      assert Names(values)[i] == v.name;
    }
  }

  lemma ProviderStemsAreGood(names: seq<string>, bases: seq<string>, kind: SecretKind)
    requires StemsOf(names, bases, kind) && forall base :: base in bases ==> IsBase(base)
    ensures Distinct(names) && forall name :: name in names ==> GoodStem(name) && Group(name) >= 20
  {
    hide IsBase, GoodStem, Group;
    forall name | name in names ensures GoodStem(name) && Group(name) >= 20 {
      StemIsGood(name, bases, kind);
    }
  }

  lemma FourParts(a: seq<string>, b: seq<string>, c: seq<string>, d: seq<string>)
    requires Grouped(a, 0, 8) && Grouped(c, 10, 14) && Distinct(b) && Distinct(d)
    requires forall name :: name in b || name in d ==> GoodStem(name) && Group(name) >= 20
    requires forall name :: name in b ==> name !in d
    ensures Distinct(a + b + (c + d)) && forall name :: name in a + b + (c + d) ==> GoodStem(name)
  {
    hide Group, GoodStem;
    DistinctConcat(a, b);
    DistinctConcat(c, d);
    DistinctConcat(a + b, c + d);
  }
}