/** Collecting PREFIX_N variables from an unordered environment. */
module IndexedVariables {
  import opened Text
  import opened Decimal
  import OrderedKeys

  type Environment = map<string, string>

  datatype IndexedVariable = IndexedVariable(index: nat, name: string, prefix: string)

  datatype CollectError = BarePrefix | InvalidSuffix | EmptyValue | IndexUsedTwice | IndexMissing

  function IndexedName(prefix: string, index: nat): string {
    prefix + "_" + Itoa(index)
  }

  /** A suffix is an index exactly when it is printed the way it was written. */
  function ParseIndexedNumber(value: string): Option<nat> {
    match Atoi(value)
    case None => None
    case Some(n) => if n >= 0 && Itoa(n) == value then Some(n) else None
  }

  predicate Marks(prefix: string, name: string) {
    prefix + "_" <= name
  }

  function SuffixAfter(prefix: string, name: string): string
    requires Marks(prefix, name)
  {
    name[|prefix| + 1..]
  }

  /** The first prefix in the given order that marks the name. */
  function IndexedSuffix(name: string, prefixes: seq<string>): Option<string> {
    if prefixes == [] then None
    else if Marks(prefixes[0], name) then Some(prefixes[0])
    else IndexedSuffix(name, prefixes[1..])
  }

  // ---- what a correct answer is ----

  /** `prefix` is the longest of the prefixes that mark `name`. */
  ghost predicate Recognises(prefixes: seq<string>, name: string, prefix: string) {
    && prefix in prefixes && Marks(prefix, name)
    && forall p :: p in prefixes && Marks(p, name) ==> |p| <= |prefix|
  }

  ghost predicate IsVariable(env: Environment, prefixes: seq<string>, v: IndexedVariable) {
    && v.name in env && Recognises(prefixes, v.name, v.prefix)
    && ParseIndexedNumber(SuffixAfter(v.prefix, v.name)) == Some(v.index)
  }

  ghost predicate HasIndex(env: Environment, prefixes: seq<string>, i: nat) {
    exists v :: IsVariable(env, prefixes, v) && v.index == i
  }

  /** The environments that collection accepts. */
  ghost predicate Accepts(env: Environment, prefixes: seq<string>, strict: bool) {
    && (forall p :: p in prefixes ==> p !in env)
    && (strict ==> forall name, p :: name in env && Recognises(prefixes, name, p) ==>
          ParseIndexedNumber(SuffixAfter(p, name)).Some?)
    && (forall v :: IsVariable(env, prefixes, v) ==> env[v.name] != "")
    && (forall v, w :: IsVariable(env, prefixes, v) && IsVariable(env, prefixes, w) && v.index == w.index ==> v == w)
    && (forall v, i: nat :: IsVariable(env, prefixes, v) && i < v.index ==> HasIndex(env, prefixes, i))
  }

  /** All the variables, the one with index i at place i. */
  ghost predicate IsListing(vs: seq<IndexedVariable>, env: Environment, prefixes: seq<string>) {
    && (forall i :: 0 <= i < |vs| ==> IsVariable(env, prefixes, vs[i]) && vs[i].index == i)
    && (forall v :: IsVariable(env, prefixes, v) ==> v in vs)
  }

  lemma CanonicalSuffix(value: string)
    ensures ParseIndexedNumber(value).Some? <==> exists n: nat :: n <= MAX_INT && Itoa(n) == value
    ensures ParseIndexedNumber(value).Some? ==> Itoa(ParseIndexedNumber(value).value) == value
  {
    if n: nat :| n <= MAX_INT && Itoa(n) == value {
      AtoiItoa(n);
    }
  }

  /** Whatever the order of the prefixes, a variable is named after its prefix and index. */
  lemma VariableName(env: Environment, prefixes: seq<string>, v: IndexedVariable)
    requires IsVariable(env, prefixes, v)
    ensures v.name == IndexedName(v.prefix, v.index)
  {
    CanonicalSuffix(SuffixAfter(v.prefix, v.name));
    assert v.name == v.name[..|v.prefix| + 1] + SuffixAfter(v.prefix, v.name);
    assert v.name[..|v.prefix| + 1] == v.prefix + "_";
  }

  lemma RecognisedOnce(prefixes: seq<string>, name: string, p: string, q: string)
    requires Recognises(prefixes, name, p) && Recognises(prefixes, name, q)
    ensures p == q
  {
    assert p + "_" == name[..|p| + 1] && q + "_" == name[..|q| + 1];
    assert p == (p + "_")[..|p|] && q == (q + "_")[..|q|];
  }

  /** Two correct answers are the same answer, so no iteration order shows in the result. */
  lemma ListingIsUnique(vs: seq<IndexedVariable>, ws: seq<IndexedVariable>, env: Environment, prefixes: seq<string>,
                        others: seq<string>)
    requires IsListing(vs, env, prefixes) && IsListing(ws, env, others)
    requires forall p :: p in prefixes <==> p in others
    ensures vs == ws
  {
    forall v ensures IsVariable(env, prefixes, v) <==> IsVariable(env, others, v) {
      SamePrefixesSameVariable(env, prefixes, others, v);
    }
    ListingIsNoLonger(vs, ws, env, prefixes, others);
    ListingIsNoLonger(ws, vs, env, others, prefixes);
    forall i | 0 <= i < |vs| ensures vs[i] == ws[i] {
      assert vs[i] in ws;
    }
  }

  lemma SamePrefixesSameVariable(env: Environment, prefixes: seq<string>, others: seq<string>, v: IndexedVariable)
    requires forall p :: p in prefixes <==> p in others
    ensures IsVariable(env, prefixes, v) <==> IsVariable(env, others, v)
  {
  }

  lemma AcceptsSamePrefixes(env: Environment, prefixes: seq<string>, others: seq<string>, strict: bool)
    requires forall p :: p in prefixes <==> p in others
    ensures Accepts(env, prefixes, strict) ==> Accepts(env, others, strict)
  {
    if Accepts(env, prefixes, strict) {
      forall v ensures IsVariable(env, prefixes, v) <==> IsVariable(env, others, v) {
        SamePrefixesSameVariable(env, prefixes, others, v);
      }
      forall name, p ensures Recognises(prefixes, name, p) <==> Recognises(others, name, p) {}
      forall v, i: nat | IsVariable(env, others, v) && i < v.index ensures HasIndex(env, others, i) {
        assert IsVariable(env, prefixes, v) && HasIndex(env, prefixes, i);
      }
    }
  }

  lemma ListingIsNoLonger(vs: seq<IndexedVariable>, ws: seq<IndexedVariable>, env: Environment, prefixes: seq<string>,
                          others: seq<string>)
    requires IsListing(vs, env, prefixes) && IsListing(ws, env, others)
    requires forall v :: IsVariable(env, prefixes, v) <==> IsVariable(env, others, v)
    ensures |vs| <= |ws|
  {
    if vs != [] {
      assert vs[|vs| - 1] in ws;
    }
  }

  // ---- the collection itself ----

  predicate LongestFirst(prefixes: seq<string>) {
    forall i, j :: 0 <= i < j < |prefixes| ==> |prefixes[i]| >= |prefixes[j]|
  }

  /** In longest-first order the first match is the longest. */
  lemma {:induction false} FirstMatchIsLongest(name: string, prefixes: seq<string>)
    requires LongestFirst(prefixes)
    ensures IndexedSuffix(name, prefixes).Some? ==> Recognises(prefixes, name, IndexedSuffix(name, prefixes).value)
    ensures IndexedSuffix(name, prefixes).None? ==> forall p :: p in prefixes ==> !Marks(p, name)
    decreases |prefixes|
  {
    if prefixes != [] {
      assert forall p :: p in prefixes <==> p == prefixes[0] || p in prefixes[1..];
      FirstMatchIsLongest(name, prefixes[1..]);
    }
  }

  /** The prefixes, longest first; the order among equals is left open, as an unstable sort leaves it. */
  lemma Inserted(ordered: seq<string>, k: nat, p: string)
    requires LongestFirst(ordered) && k <= |ordered|
    requires forall j :: 0 <= j < k ==> |ordered[j]| >= |p|
    requires k < |ordered| ==> |ordered[k]| <= |p|
    ensures LongestFirst(ordered[..k] + [p] + ordered[k..])
    ensures forall q :: q in ordered[..k] + [p] + ordered[k..] <==> q == p || q in ordered
  {
    assert ordered == ordered[..k] + ordered[k..];
  }

  method SortPrefixes(prefixes: seq<string>) returns (ordered: seq<string>)
    ensures LongestFirst(ordered)
    ensures forall p :: p in ordered <==> p in prefixes
  {
    ordered := [];
    for i := 0 to |prefixes|
      invariant LongestFirst(ordered)
      invariant forall p :: p in ordered <==> p in prefixes[..i]
    {
      var p, k := prefixes[i], 0;
      var pastEqual: bool := *;
      while k < |ordered| && (|ordered[k]| > |p| || (|ordered[k]| == |p| && pastEqual))
        invariant k <= |ordered|
        invariant forall j :: 0 <= j < k ==> |ordered[j]| >= |p|
      {
        k := k + 1;
        pastEqual := *;
      }
      assert prefixes[..i + 1] == prefixes[..i] + [p];
      Inserted(ordered, k, p);
      ordered := ordered[..k] + [p] + ordered[k..];
    }
  }

  predicate Before(v: IndexedVariable, w: IndexedVariable) {
    if v.index == w.index then OrderedKeys.Before(v.name, w.name) else v.index < w.index
  }

  predicate ByIndex(vs: seq<IndexedVariable>) {
    forall i, j :: 0 <= i < j < |vs| ==> vs[i].index <= vs[j].index
  }

  predicate Distinct(vs: seq<IndexedVariable>) {
    forall i, j :: 0 <= i < j < |vs| ==> vs[i] != vs[j]
  }

  method SortVariables(variables: seq<IndexedVariable>) returns (ordered: seq<IndexedVariable>)
    requires Distinct(variables)
    ensures ByIndex(ordered) && Distinct(ordered)
    ensures forall v :: v in ordered <==> v in variables
  {
    ordered := [];
    for i := 0 to |variables|
      invariant ByIndex(ordered) && Distinct(ordered)
      invariant forall v :: v in ordered <==> v in variables[..i]
    {
      var v, k := variables[i], 0;
      while k < |ordered| && Before(ordered[k], v)
        invariant k <= |ordered|
        invariant forall j :: 0 <= j < k ==> ordered[j].index <= v.index
      {
        k := k + 1;
      }
      assert v !in variables[..i];
      assert ordered == ordered[..k] + ordered[k..] && variables[..i + 1] == variables[..i] + [v];
      ordered := ordered[..k] + [v] + ordered[k..];
    }
  }

  /** What the scan of the environment has found, once `names` have been looked at. */
  ghost predicate FoundAmong(variables: seq<IndexedVariable>, env: Environment, prefixes: seq<string>, names: set<string>) {
    && Distinct(variables)
    && (forall v :: v in variables ==> IsVariable(env, prefixes, v) && v.name in names && env[v.name] != "")
    && (forall v :: IsVariable(env, prefixes, v) && v.name in names ==> v in variables)
  }

  ghost predicate NothingInvalid(env: Environment, prefixes: seq<string>, names: set<string>) {
    forall name, p :: name in names && name in env && Recognises(prefixes, name, p) ==>
      ParseIndexedNumber(SuffixAfter(p, name)).Some?
  }

  /** One environment entry: ignored, rejected, or one more variable. */
  method CollectOne(env: Environment, prefixes: seq<string>, strict: bool, name: string,
                    variables: seq<IndexedVariable>, ghost names: set<string>)
      returns (r: Result<seq<IndexedVariable>, CollectError>)
    requires name in env && name !in names && LongestFirst(prefixes)
    requires FoundAmong(variables, env, prefixes, names)
    requires strict ==> NothingInvalid(env, prefixes, names)
    ensures r.Success? ==> FoundAmong(r.value, env, prefixes, names + {name})
    ensures r.Success? && strict ==> NothingInvalid(env, prefixes, names + {name})
    ensures r.Failure? ==> !Accepts(env, prefixes, strict)
  {
    var prefix := IndexedSuffix(name, prefixes);
    FirstMatchIsLongest(name, prefixes);
    if prefix.None? {
      return Success(variables);
    }
    forall p | Recognises(prefixes, name, p) ensures p == prefix.value {
      RecognisedOnce(prefixes, name, p, prefix.value);
    }
    var index := ParseIndexedNumber(SuffixAfter(prefix.value, name));
    if index.None? {
      return if strict then Failure(InvalidSuffix) else Success(variables);
    }
    var found := IndexedVariable(index.value, name, prefix.value);
    assert IsVariable(env, prefixes, found);
    if env[name] == "" {
      return Failure(EmptyValue);
    }
    assert forall v :: IsVariable(env, prefixes, v) && v.name == name ==> v == found;
    return Success(variables + [found]);
  }

  lemma TwiceIsRejected(env: Environment, prefixes: seq<string>, strict: bool, v: IndexedVariable, w: IndexedVariable)
    requires IsVariable(env, prefixes, v) && IsVariable(env, prefixes, w) && v != w && v.index == w.index
    ensures !Accepts(env, prefixes, strict)
  {
  }

  lemma GapIsRejected(env: Environment, prefixes: seq<string>, strict: bool, variables: seq<IndexedVariable>, expected: nat)
    requires ByIndex(variables) && expected < |variables| && variables[expected].index > expected
    requires forall v :: v in variables <==> IsVariable(env, prefixes, v)
    requires forall i :: 0 <= i < expected ==> variables[i].index == i
    ensures !Accepts(env, prefixes, strict)
  {
    assert IsVariable(env, prefixes, variables[expected]) by { assert variables[expected] in variables; }
    assert !HasIndex(env, prefixes, expected) by {
      forall w | IsVariable(env, prefixes, w) ensures w.index != expected {
        var k :| 0 <= k < |variables| && variables[k] == w;
      }
    }
  }

  /** The indices must run from zero without gap or repetition. */
  method CheckOrder(env: Environment, prefixes: seq<string>, strict: bool, variables: seq<IndexedVariable>)
      returns (r: Result<seq<IndexedVariable>, CollectError>)
    requires ByIndex(variables) && Distinct(variables)
    requires forall v :: v in variables <==> IsVariable(env, prefixes, v)
    ensures r.Success? ==> r.value == variables && IsListing(variables, env, prefixes)
    ensures r.Failure? ==> !Accepts(env, prefixes, strict)
  {
    for expected := 0 to |variables|
      invariant forall i :: 0 <= i < expected ==> variables[i].index == i
    {
      var variable := variables[expected];
      assert IsVariable(env, prefixes, variable);
      if expected > 0 && variables[expected - 1].index == variable.index {
        TwiceIsRejected(env, prefixes, strict, variables[expected - 1], variable);
        return Failure(IndexUsedTwice);
      }
      if variable.index != expected {
        GapIsRejected(env, prefixes, strict, variables, expected);
        return Failure(IndexMissing);
      }
    }
    return Success(variables);
  }

  ghost predicate NoBarePrefix(env: Environment, prefixes: seq<string>) {
    forall p :: p in prefixes ==> p !in env
  }

  lemma ListingIsAccepted(env: Environment, prefixes: seq<string>, strict: bool, vs: seq<IndexedVariable>)
    requires NoBarePrefix(env, prefixes) && IsListing(vs, env, prefixes)
    requires strict ==> NothingInvalid(env, prefixes, env.Keys)
    requires forall v :: v in vs ==> v.name in env && env[v.name] != ""
    ensures Accepts(env, prefixes, strict)
  {
    forall v, i: nat | IsVariable(env, prefixes, v) && i < v.index ensures HasIndex(env, prefixes, i) {
      assert v in vs;
      assert IsVariable(env, prefixes, vs[i]);
    }
  }

  /** Visits the entries in any order. */
  method ScanEnvironment(env: Environment, prefixes: seq<string>, strict: bool)
      returns (r: Result<seq<IndexedVariable>, CollectError>)
    requires LongestFirst(prefixes)
    ensures r.Success? ==> FoundAmong(r.value, env, prefixes, env.Keys)
    ensures r.Success? && strict ==> NothingInvalid(env, prefixes, env.Keys)
    ensures r.Failure? ==> !Accepts(env, prefixes, strict)
  {
    var variables: seq<IndexedVariable> := [];
    var remaining := env.Keys;
    while remaining != {}
      invariant remaining <= env.Keys
      invariant FoundAmong(variables, env, prefixes, env.Keys - remaining)
      invariant strict ==> NothingInvalid(env, prefixes, env.Keys - remaining)
      decreases remaining
    {
      var name :| name in remaining;
      var step := CollectOne(env, prefixes, strict, name, variables, env.Keys - remaining);
      if step.Failure? {
        return step;
      }
      variables := step.value;
      assert env.Keys - (remaining - {name}) == env.Keys - remaining + {name};
      remaining := remaining - {name};
    }
    assert env.Keys - {} == env.Keys;
    return Success(variables);
  }

  method CollectOrdered(env: Environment, prefixes: seq<string>, strict: bool)
      returns (r: Result<seq<IndexedVariable>, CollectError>)
    requires LongestFirst(prefixes)
    ensures r.Success? <==> Accepts(env, prefixes, strict)
    ensures r.Success? ==> IsListing(r.value, env, prefixes)
  {
    for i := 0 to |prefixes|
      invariant forall j :: 0 <= j < i ==> prefixes[j] !in env
    {
      if prefixes[i] in env {
        return Failure(BarePrefix);
      }
    }
    r := ScanEnvironment(env, prefixes, strict);
    if r.Failure? {
      return r;
    }
    var variables := SortVariables(r.value);
    r := CheckOrder(env, prefixes, strict, variables);
    if r.Success? {
      ListingIsAccepted(env, prefixes, strict, variables);
    }
  }

  /** `CollectIndexed`: acceptance and result depend on the environment and the set of prefixes only. */
  method CollectIndexed(env: Environment, prefixes: seq<string>, strict: bool)
      returns (r: Result<seq<IndexedVariable>, CollectError>)
    ensures r.Success? <==> Accepts(env, prefixes, strict)
    ensures r.Success? ==> IsListing(r.value, env, prefixes)
  {
    var ordered := SortPrefixes(prefixes);
    r := CollectOrdered(env, ordered, strict);
    forall v ensures IsVariable(env, ordered, v) <==> IsVariable(env, prefixes, v) {
      SamePrefixesSameVariable(env, ordered, prefixes, v);
    }
    AcceptsSamePrefixes(env, ordered, prefixes, strict);
    AcceptsSamePrefixes(env, prefixes, ordered, strict);
  }
}
