/** What resolution does to the environment of an image, in terms of the registry. */
module SecretEffects {
  import opened Text
  import opened ProcessEnvironment
  import opened ProviderSecrets
  import opened ProviderConfiguration
  import opened SecretPlan
  import opened SecretFiles
  import opened SecretResolution
  import opened SecretResolutionLaws
  import opened SecretRegistry
  import Decimal
  import IndexedVariables

  // ---- sources that are not read ----

  /** The endings of all provider credentials and of what the image writes for them. */
  const CREDENTIAL_ENDINGS: set<string> := {
    "_USERNAME", "_USERNAME_FILE", "_PASSWORD", "_PASSWORD_FILE", "_SSL_KEY_PASSWORD", "_SSL_KEY_PASSWORD_FILE",
    "_SSL_CERT", "_SSL_CERTFILE", "_SSL_KEY", "_SSL_KEYFILE", "_SSL_CA", "_SSL_CAFILE", "_SSL_CALOCATION"
  }

  /** A provider variable that this image must not take from outside. */
  predicate Unread(c: Component, name: string) {
    var history := "ZBX_HISTORYPROVIDER_" <= name;
    || (Serves(c) && (history || "ZBX_TELEMETRYPROVIDER_" <= name)
        && EndsWithOneOf(name, {"_SSL_CERTLOCATION", "_SSL_KEYLOCATION", "_SSL_CALOCATION"}))
    || (Proxy(c) && history && EndsWithOneOf(name, CREDENTIAL_ENDINGS))
    || (Web(c) && history
        && EndsWithOneOf(name, {"_SSL_CERT", "_SSL_KEY", "_SSL_CA", "_SSL_CERTFILE", "_SSL_KEYFILE", "_SSL_CAFILE", "_SSL_CALOCATION"}))
  }

  lemma CredentialEndings()
    ensures forall ending :: ending in SUFFIXES <==> ending in CREDENTIAL_ENDINGS
  {
  }

  lemma AllEndingsAre(name: string)
    ensures HasOneSuffix(name, SUFFIXES) <==> EndsWithOneOf(name, CREDENTIAL_ENDINGS)
  {
    CredentialEndings();
    hide SUFFIXES, CREDENTIAL_ENDINGS, HasSuffix;
  }

  /** Exactly the unread sources are dropped. */
  lemma DroppedAre(vars: Vars, c: Component)
    ensures forall name :: name in Dropped(vars, c) <==> name in vars && !Unread(c, name)
    ensures forall name :: name in Dropped(vars, c) ==> Dropped(vars, c)[name] == vars[name]
  {
    hide HasOneSuffix, EndsWithOneOf, LOCATION_SUFFIXES, FILE_SUFFIXES, SUFFIXES, CREDENTIAL_ENDINGS;
    forall name ensures name in Dropped(vars, c) <==> name in vars && !Unread(c, name) {
      EndingsAre(name);
      AllEndingsAre(name);
    }
  }

  // ---- inline credentials of the database ----

  /** The database credentials that a user may give inline, with the image and environment in which they are read. */
  predicate ReadCredential(vars: Vars, c: Component, name: string) {
    var vaultless := Get(vars, "ZBX_VAULTDBPATH") == "";
    || ((c.ServerMySql? || c.ProxyMySql? || c.WebMySql?)
        && (name in {"MYSQL_ROOT_USER", "MYSQL_ROOT_PASSWORD"} || (vaultless && name in {"MYSQL_USER", "MYSQL_PASSWORD"})))
    || ((c.ServerPgSql? || c.WebPgSql?) && vaultless && name in {"POSTGRES_USER", "POSTGRES_PASSWORD"})
  }

  lemma CredentialStart(name: string)
    requires name in {"MYSQL_ROOT_USER", "MYSQL_ROOT_PASSWORD", "MYSQL_USER", "MYSQL_PASSWORD", "POSTGRES_USER", "POSTGRES_PASSWORD"}
    ensures name != "" && name[0] != 'Z'
  {
  }

  lemma CredentialIsAside(c: Component, command: Command, name: string)
    requires name != "" && name[0] != 'Z'
    ensures !Unread(c, name)
    ensures !AliasTouched(Aliases(c, command), name)
  {
    hide EndsWithOneOf;
    assert "ZBX_HISTORYPROVIDER_"[0] == 'Z' && "ZBX_TELEMETRYPROVIDER_"[0] == 'Z';
    forall a | a in Aliases(c, command) ensures name !in AliasNames(a) {
      AliasesAre(c, command, a);
      AliasStarts(a, c, command);
    }
  }

  lemma AliasStarts(a: Alias, c: Component, command: Command)
    requires AskedAlias(c, command, a)
    ensures a.legacy != "" && a.legacy[0] == 'Z' && a.canonical != "" && a.canonical[0] == 'Z'
  {
  }

  lemma CredentialIsPlanned(decoder: Decoder, vars: Vars, c: Component, command: Command, name: string)
    requires command.Service? || command.InitDb?
    requires ReadCredential(vars, c, name)
    ensures ValueSpec(name, "database", true) in PlanOf(decoder, vars, c, command).values
  {
    hide PlanOf, DatabaseValue, VaultConfigured, ProviderValue, AskedFile, AskedAlias, ReadCredential, Serves;
    PlanIsRegistry(decoder, vars, c, command);
    CredentialIsAsked(vars, c, name);
  }

  lemma CredentialIsAsked(vars: Vars, c: Component, name: string)
    requires ReadCredential(vars, c, name)
    ensures DatabaseValue(vars, c, ValueSpec(name, "database", true))
  {
  }

  /**
   Main result: a database credential that is given inline, to an image that reads it and with no Vault
   path in its way, keeps its value through a successful resolution.
   */
  lemma CredentialsStay(decoder: Decoder, c: Component, command: Command, s: State, name: string)
    requires Resolve(decoder, c, command, s).Some? && (command.Service? || command.InitDb?)
    requires ReadCredential(s.vars, c, name) && Get(s.vars, name) != ""
    ensures Get(Resolve(decoder, c, command, s).value.vars, name) == Get(s.vars, name)
  {
    CredentialIsPlanned(decoder, s.vars, c, command, name);
    CredentialStart(name);
    CredentialIsAside(c, command, name);
    SecretsResolve(decoder, c, command, s);
    DroppedAre(s.vars, c);
    var plan, t := PlanOf(decoder, s.vars, c, command), Resolve(decoder, c, command, s).value;
    assert plan.aliases == Aliases(c, command);
    var spec := ValueSpec(name, "database", true);
    assert spec in plan.values && !Empty(plan);
    hide PlanOf, Resolve, Dropped, Cleaned, Entries, Unread, Aliases, ReadCredential;
    CredentialComesThrough(plan, c, command, s, t, spec);
  }

  lemma CredentialComesThrough(plan: Plan, c: Component, command: Command, s: State, t: State, v: ValueSpec)
    requires RunDone(c, command, plan, s, t) && v in plan.values && v.active
    requires !AliasTouched(plan.aliases, v.name) && v.name in Dropped(s.vars, c)
    requires Dropped(s.vars, c)[v.name] == Get(s.vars, v.name) != ""
    ensures Get(t.vars, v.name) == Get(s.vars, v.name)
  {
    hide Dropped, Cleaned, Entries, FilesHold, PlanVariables, AliasTouched, LocateSecret, TrimLineEnds, Outside, MergeAliases;
    var sources := Sources(s.vars, c, plan).value;
    var entries := Entries(State(sources, Cleaned(s.files, c, command)), plan).value;
    assert ValueDone(sources, entries.files, t.vars, v);
    assert SameVariable(WithoutEmpty(Dropped(s.vars, c), plan), sources, v.name);
  }

  // ---- when planning fails ----

  ghost predicate IsNumber(index: string) {
    exists i: nat :: i <= Decimal.MAX_INT && index == Decimal.Itoa(i)
  }

  function Prefix(history: bool): string {
    if history then "ZBX_HISTORYPROVIDER_" else "ZBX_TELEMETRYPROVIDER_"
  }

  /** A provider variable with something else than a number in the place of its number. */
  ghost predicate Misnumbered(c: Component, name: string) {
    exists history :: BadNumber(Prefix(history), name) && !IsNoSource(c, history, name)
  }

  /** The prefix, what stands up to the next underscore, and the rest. */
  predicate Parts(prefix: string, name: string, index: string, rest: string) {
    name == prefix + index + rest && '_' !in index && (rest == "" || rest[0] == '_')
  }

  ghost predicate BadNumber(prefix: string, name: string) {
    exists index, rest :: Parts(prefix, name, index, rest) && index != "" && !IsNumber(index)
  }

  /** A credential of a provider whose own variable is missing or empty. */
  ghost predicate Stray(vars: Vars, c: Component, history: bool, i: nat) {
    var base := BaseName(history, i);
    Get(vars, base) == "" && exists suffix ::
      || (ValueEnding(suffix) && (Get(vars, base + suffix) != "" || Get(vars, base + suffix + "_FILE") != ""))
      || (FileEnding(suffix) && (history ==> Server(c)) && (Get(vars, base + suffix) != "" || Get(vars, base + suffix + "FILE") != ""))
  }

  lemma {:induction false} IndexSplits(rest: string)
    ensures var index := Index(rest);
            && index <= rest && '_' !in index && (|index| < |rest| ==> rest[|index|] == '_')
    decreases |rest|
  {
    if rest != "" && rest[0] != '_' {
      IndexSplits(rest[1..]);
      assert rest == [rest[0]] + rest[1..];
    }
  }

  lemma {:induction false} IndexOfParts(index: string, rest: string)
    requires '_' !in index && (rest == "" || rest[0] == '_')
    ensures Index(index + rest) == index
    decreases |index|
  {
    if index == "" {
      assert index + rest == rest;
    } else {
      assert (index + rest)[0] == index[0] && (index + rest)[1..] == index[1..] + rest;
      IndexOfParts(index[1..], rest);
      assert index == [index[0]] + index[1..];
    }
  }

  lemma ThreeParts(prefix: string, index: string, name: string)
    requires prefix <= name && index <= name[|prefix|..]
    ensures name == prefix + index + name[|prefix|..][|index|..]
  {
    assert name == prefix + name[|prefix|..];
  }

  lemma PartsOf(prefix: string, name: string) returns (rest: string)
    requires prefix <= name
    ensures Parts(prefix, name, Index(name[|prefix|..]), rest)
  {
    var tail := name[|prefix|..];
    IndexSplits(tail);
    rest := tail[|Index(tail)|..];
    ThreeParts(prefix, Index(tail), name);
    hide Index;
  }

  lemma PartsAreUnique(prefix: string, name: string, index: string, rest: string)
    requires Parts(prefix, name, index, rest)
    ensures prefix <= name && Index(name[|prefix|..]) == index
  {
    assert name == prefix + (index + rest);
    assert name[|prefix|..] == index + rest;
    IndexOfParts(index, rest);
  }

  /** One family: which variables make the plan invalid. */
  lemma InvalidIs(prefix: string, name: string)
    requires prefix <= name
    ensures ContributeTo(prefix, name).Invalid? <==> BadNumber(prefix, name)
  {
    var rest := PartsOf(prefix, name);
    NumberMeans(Index(name[|prefix|..]));
    hide Index, IsNumber, IndexedVariables.ParseIndexedNumber, CategoryOf, Parts;
    if BadNumber(prefix, name) {
      var other, more :| Parts(prefix, name, other, more) && other != "" && !IsNumber(other);
      PartsAreUnique(prefix, name, other, more);
    }
  }

  lemma NumberMeans(index: string)
    ensures IndexedVariables.ParseIndexedNumber(index).Some? <==> IsNumber(index)
  {
    IndexedVariables.CanonicalSuffix(index);
    if i: nat :| i <= Decimal.MAX_INT && index == Decimal.Itoa(i) {
      NumberIs(index, i);
    }
  }

  lemma BadNumberStarts(prefix: string, name: string)
    ensures BadNumber(prefix, name) ==> prefix <= name
  {
    hide IsNumber, Parts;
    if BadNumber(prefix, name) {
      var other, more :| Parts(prefix, name, other, more) && other != "" && !IsNumber(other);
      PartsAreUnique(prefix, name, other, more);
    }
  }

  lemma MisnumberedIs(c: Component, name: string)
    ensures Contribute(c, name).Invalid? <==> Misnumbered(c, name)
  {
    EndingsAre(name);
    FamiliesDiffer(name);
    BadNumberStarts(Prefix(true), name);
    BadNumberStarts(Prefix(false), name);
    if Prefix(true) <= name { InvalidIs(Prefix(true), name); }
    if Prefix(false) <= name { InvalidIs(Prefix(false), name); }
    MisnumberedMeans(c, name);
    hide EndsWithOneOf, HasOneSuffix, LOCATION_SUFFIXES, FILE_SUFFIXES, ContributeTo, BadNumber, Misnumbered;
  }

  lemma MisnumberedMeans(c: Component, name: string)
    ensures Misnumbered(c, name)
       <==> (BadNumber(Prefix(true), name) && !IsNoSource(c, true, name)) || (BadNumber(Prefix(false), name) && !IsNoSource(c, false, name))
  {
    hide BadNumber, IsNoSource, Prefix;
  }

  lemma StrayIs(vars: Vars, c: Component, history: bool, i: nat)
    ensures Orphaned(vars, c, BaseName(history, i)) <==> Stray(vars, c, history, i)
  {
    var base := BaseName(history, i);
    HistoryStarts(c, history, i);
    forall suffix
      ensures FileEnding(suffix) <==> exists secret :: secret in SECRETS && secret.kind.FileSecret? && secret.suffix == suffix
      ensures ValueEnding(suffix) <==> exists secret :: secret in SECRETS && secret.kind.ValueSecret? && secret.suffix == suffix
    {
      RegistryFiles(suffix);
      RegistryValues(suffix);
    }
    hide WithoutFiles, SECRETS, FileEnding, ValueEnding, BaseName, Get;
    StrayMeans(vars, c, base, history);
  }

  lemma StrayMeans(vars: Vars, c: Component, base: string, history: bool)
    requires WithoutFiles(c, base) <==> history && !Server(c)
    requires forall suffix :: FileEnding(suffix)
               <==> exists secret :: secret in SECRETS && secret.kind.FileSecret? && secret.suffix == suffix
    requires forall suffix :: ValueEnding(suffix)
               <==> exists secret :: secret in SECRETS && secret.kind.ValueSecret? && secret.suffix == suffix
    ensures (exists secret ::
               && secret in SECRETS && !(secret.kind.FileSecret? && WithoutFiles(c, base))
               && (Get(vars, base + secret.suffix) != "" || Get(vars, base + FileSuffix(secret)) != ""))
       <==> exists suffix ::
              || (ValueEnding(suffix) && (Get(vars, base + suffix) != "" || Get(vars, base + suffix + "_FILE") != ""))
              || (FileEnding(suffix) && (history ==> Server(c)) && (Get(vars, base + suffix) != "" || Get(vars, base + suffix + "FILE") != ""))
  {
    hide WithoutFiles, SECRETS, FileEnding, ValueEnding, Get;
    forall secret: Secret ensures base + FileSuffix(secret) == base + secret.suffix + if secret.kind.ValueSecret? then "_FILE" else "FILE" {
    }
  }

  /** Main result: planning fails exactly for a misnumbered provider variable or a stray credential of a planned provider. */
  lemma PlanFailsExactly(vars: Vars, c: Component, command: Command)
    ensures Plannable(vars, c, command)
       <==> (ReadsProviders(c, command) ==>
               && (forall name :: name in vars ==> !Misnumbered(c, name))
               && (forall history, i: nat :: Planned(vars, c, command, history, i) ==> !Stray(vars, c, history, i)))
  {
    hide Misnumbered, Planned, Stray, Orphaned, WantedBases, Contribute, BaseName, CategoryOf, Directory, WithoutFiles;
    forall name ensures Contribute(c, name).Invalid? <==> Misnumbered(c, name) { MisnumberedIs(c, name); }
    forall history, i: nat | Planned(vars, c, command, history, i)
      ensures BaseName(history, i) in WantedBases(vars, c, command)
      ensures Orphaned(vars, c, BaseName(history, i)) <==> Stray(vars, c, history, i)
    {
      WantedIs(vars, c, command, history, i);
      StrayIs(vars, c, history, i);
    }
    forall base | base in WantedBases(vars, c, command)
      ensures exists history, i: nat :: Planned(vars, c, command, history, i) && base == BaseName(history, i)
    {
      var history, i := PlannedBase(vars, c, command, base);
    }
  }
}
