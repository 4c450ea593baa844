/** Rule files: the indexed rules of the environment, in order, at the end of a configuration file. */
module RuleFiles {
  import opened Text
  import opened Decimal
  import opened ConfigLines
  import opened Parameters
  import opened ParameterLaws
  import opened IndexedVariables

  datatype Rule = Rule(param: string, variable: string)

  /** A line that sets one of the parameters, however it is indented. */
  predicate IsRule(params: set<string>, line: string) {
    '=' in TrimSpace(line) && NameOf(TrimSpace(line)) in params
  }

  function OtherLines(params: set<string>, lines: seq<string>): (r: seq<string>)
    ensures forall l :: l in r <==> l in lines && !IsRule(params, l)
  {
    if lines == [] then []
    else
      var last := lines[|lines| - 1];
      OtherLines(params, lines[..|lines| - 1]) + if IsRule(params, last) then [] else [last]
  }

  function DropBlankTail(lines: seq<string>): (r: seq<string>)
    ensures r <= lines
  {
    if lines != [] && TrimSpace(lines[|lines| - 1]) == "" then DropBlankTail(lines[..|lines| - 1]) else lines
  }

  function RuleLine(rule: Rule): string {
    rule.param + "=${" + rule.variable + "}"
  }

  function RuleLines(rules: seq<Rule>): (lines: seq<string>)
    ensures |lines| == |rules|
    ensures forall i :: 0 <= i < |rules| ==> lines[i] == RuleLine(rules[i])
  {
    seq(|rules|, i requires 0 <= i < |rules| => RuleLine(rules[i]))
  }

  function WithRules(lines: seq<string>, params: set<string>, rules: seq<Rule>): seq<string> {
    var kept := DropBlankTail(OtherLines(params, lines));
    kept + (if rules != [] && kept != [] then [""] else []) + RuleLines(rules)
  }

  function WithRulesFile(content: string, params: set<string>, rules: seq<Rule>): string {
    FileText(WithRules(ReadLines(content), params, rules))
  }

  /** `replaceIndexedParamsAtEnd`. */
  method ReplaceIndexedParamsAtEnd(file: ConfigFile, paramByPrefix: map<string, string>, rules: seq<Rule>) returns (ok: bool)
    modifies file
    ensures ok <==> old(file.content).Some?
    ensures !ok ==> file.content == old(file.content) && file.writes == old(file.writes)
    ensures ok ==> file.content == Some(WithRulesFile(old(file.content).value, paramByPrefix.Values, rules))
    ensures ok ==> file.writes == old(file.writes) + if file.content == old(file.content) then 0 else 1
  {
    if file.content.None? {
      return false;
    }
    var original, lines := file.content.value, ReadLines(file.content.value);
    var updated := KeepOthers(lines, paramByPrefix.Values);
    updated := AppendRules(updated, rules);
    file.WriteLines(original, updated);
    return true;
  }

  method AppendRules(kept: seq<string>, rules: seq<Rule>) returns (updated: seq<string>)
    ensures updated == kept + (if rules != [] && kept != [] then [""] else []) + RuleLines(rules)
  {
    updated := kept;
    if |rules| > 0 {
      if |updated| > 0 {
        updated := updated + [""];
      }
      ghost var head := updated;
      for i := 0 to |rules|
        invariant updated == head + RuleLines(rules)[..i]
      {
        updated := updated + [rules[i].param + "=${" + rules[i].variable + "}"];
      }
      assert RuleLines(rules)[..|rules|] == RuleLines(rules);
    }
  }

  method KeepOthers(lines: seq<string>, params: set<string>) returns (updated: seq<string>)
    ensures updated == DropBlankTail(OtherLines(params, lines))
  {
    updated := [];
    for i := 0 to |lines|
      invariant updated == OtherLines(params, lines[..i])
    {
      assert lines[..i + 1][..i] == lines[..i];
      if !IsRule(params, lines[i]) {
        updated := updated + [lines[i]];
      }
    }
    assert lines[..|lines|] == lines;
    while |updated| > 0 && TrimSpace(updated[|updated| - 1]) == ""
      invariant DropBlankTail(updated) == DropBlankTail(OtherLines(params, lines))
      decreases |updated|
    {
      updated := updated[..|updated| - 1];
    }
  }

  /** The configured parameter of each collected variable, in index order. */
  function RulesOf(variables: seq<IndexedVariable>, paramByPrefix: map<string, string>): (rules: seq<Rule>)
    requires forall v :: v in variables ==> v.prefix in paramByPrefix
    ensures |rules| == |variables|
    ensures forall i :: 0 <= i < |variables| ==> rules[i] == Rule(paramByPrefix[variables[i].prefix], variables[i].name)
  {
    seq(|variables|, i requires 0 <= i < |variables| => Rule(paramByPrefix[variables[i].prefix], variables[i].name))
  }

  const ITEM_KEY_RULES := map["ZBX_ALLOWKEY" := "AllowKey", "ZBX_DENYKEY" := "DenyKey",
                              "ZBX_ALLOWKEY_REGEXP" := "AllowKeyRegexp", "ZBX_DENYKEY_REGEXP" := "DenyKeyRegexp"]

  const TOOL_ACCESS_RULES := map["ZBX_ALLOWTOOL" := "AllowTool", "ZBX_DENYTOOL" := "DenyTool",
                                 "ZBX_ALLOWTOOL_REGEXP" := "AllowToolRegexp", "ZBX_DENYTOOL_REGEXP" := "DenyToolRegexp"]

  // ---- what a rule file looks like ----

  /** A parameter name that a line can set. */
  predicate ParamName(p: string) {
    p != "" && '=' !in p && '\n' !in p && !IsSpace(p[0])
  }

  predicate RulesFor(rules: seq<Rule>, params: set<string>) {
    forall r :: r in rules ==> r.param in params && ParamName(r.param) && '\n' !in r.variable
  }

  lemma RuleLineIsRule(rule: Rule, params: set<string>)
    requires rule.param in params && ParamName(rule.param) && '\n' !in rule.variable
    ensures IsRule(params, RuleLine(rule)) && '\n' !in RuleLine(rule) && !EndsCR(RuleLine(rule))
  {
    var line := RuleLine(rule);
    RuleLineShape(rule);
    assert "" + line + "" == line;
    TrimUnique("", line, "");
    RuleLineNames(rule);
  }

  lemma RuleLineShape(rule: Rule)
    requires ParamName(rule.param) && '\n' !in rule.variable
    ensures Trimmed(RuleLine(rule)) && '\n' !in RuleLine(rule) && !EndsCR(RuleLine(rule))
  {
    var line := RuleLine(rule);
    assert line[0] == rule.param[0] && line[|line| - 1] == '}';
    assert forall c :: c in line <==> c in rule.param || c in "=${" || c in rule.variable || c == '}';
  }

  lemma RuleLineNames(rule: Rule)
    requires ParamName(rule.param)
    ensures '=' in RuleLine(rule) && NameOf(RuleLine(rule)) == rule.param
  {
    var line := RuleLine(rule);
    assert line == rule.param + "=" + ("${" + rule.variable + "}");
    assert rule.param + "=" <= line;
    ActiveNamesItsParameter(rule.param, line);
    assert line[|rule.param|] == '=';
  }

  /** Main result: a line is a rule exactly when one of the parameters and an equals sign stand behind its leading white space. */
  lemma RuleIsSpelled(params: set<string>, line: string)
    requires forall p :: p in params ==> ParamName(p)
    ensures IsRule(params, line)
       <==> exists lead, p, value :: Blank(lead) && p in params && line == lead + (p + "=" + value)
  {
    if IsRule(params, line) {
      var lead, tail := TrimParts(line);
      var trimmed := TrimSpace(line);
      var value := NamePart(trimmed);
      SpelledOut(lead, NameOf(trimmed), value, tail, trimmed);
      assert line == lead + (NameOf(trimmed) + "=" + (value + tail));
    }
    if lead, p, value :| Blank(lead) && p in params && line == lead + (p + "=" + value) {
      SpelledIsRule(params, lead, p, value);
    }
  }

  lemma SpelledOut(lead: string, name: string, value: string, tail: string, trimmed: string)
    requires trimmed == name + "=" + value
    ensures lead + trimmed + tail == lead + (name + "=" + (value + tail))
  {
  }

  lemma {:induction false} NamePart(line: string) returns (value: string)
    requires '=' in line
    ensures line == NameOf(line) + "=" + value
    decreases |line|
  {
    if line[0] == '=' {
      value := line[1..];
    } else {
      value := NamePart(line[1..]);
      assert line == [line[0]] + line[1..];
    }
  }

  lemma SpelledIsRule(params: set<string>, lead: string, p: string, value: string)
    requires Blank(lead) && p in params && ParamName(p)
    ensures IsRule(params, lead + (p + "=" + value))
  {
    var more, tail := TrimParts(value);
    var core := TrimSpace(value);
    var text := p + "=" + (more + core);
    if core == "" {
      var none := p + "=";
      assert none[0] == p[0] && none[|none| - 1] == '=';
      TrimUnique(lead, none, more + core + tail);
      assert lead + (p + "=" + value) == lead + none + (more + core + tail);
      SpelledName(p, "");
      assert none + "" == none;
    } else {
      assert text[0] == p[0] && text[|text| - 1] == core[|core| - 1];
      TrimUnique(lead, text, tail);
      assert lead + (p + "=" + value) == lead + text + tail;
      SpelledName(p, more + core);
    }
  }

  lemma SpelledName(p: string, value: string)
    requires ParamName(p)
    ensures '=' in p + "=" + value && NameOf(p + "=" + value) == p
  {
    var line := p + "=" + value;
    assert p + "=" <= line && line[|p|] == '=';
    ActiveNamesItsParameter(p, line);
  }

  lemma RuleLinesAreRules(rules: seq<Rule>, params: set<string>)
    requires RulesFor(rules, params)
    ensures forall l :: l in RuleLines(rules) ==> IsRule(params, l) && '\n' !in l && !EndsCR(l)
  {
    forall l | l in RuleLines(rules) ensures IsRule(params, l) && '\n' !in l && !EndsCR(l) {
      var i :| 0 <= i < |rules| && l == RuleLine(rules[i]);
      assert rules[i] in rules;
      RuleLineIsRule(rules[i], params);
    }
  }

  lemma {:induction false} OthersConcat(params: set<string>, a: seq<string>, b: seq<string>)
    ensures OtherLines(params, a + b) == OtherLines(params, a) + OtherLines(params, b)
    decreases |b|
  {
    if b == [] {
      assert a + b == a;
    } else {
      var n := |b| - 1;
      assert (a + b)[..|a + b| - 1] == a + b[..n];
      OthersConcat(params, a, b[..n]);
    }
  }

  lemma {:induction false} OthersUniform(params: set<string>, lines: seq<string>)
    ensures (forall l :: l in lines ==> !IsRule(params, l)) ==> OtherLines(params, lines) == lines
    ensures (forall l :: l in lines ==> IsRule(params, l)) ==> OtherLines(params, lines) == []
    decreases |lines|
  {
    if lines != [] {
      var n := |lines| - 1;
      assert lines == lines[..n] + [lines[n]];
      OthersUniform(params, lines[..n]);
    }
  }

  lemma BlankIsNoRule(params: set<string>)
    ensures !IsRule(params, "")
  {
  }

  lemma {:induction false} DroppedTailIsBlank(lines: seq<string>)
    ensures forall i :: |DropBlankTail(lines)| <= i < |lines| ==> Blank(lines[i])
    ensures var kept := DropBlankTail(lines); kept != [] ==> !Blank(kept[|kept| - 1])
    decreases |lines|
  {
    if lines != [] {
      var n := |lines| - 1;
      var _, _ := TrimParts(lines[n]);
      if TrimSpace(lines[n]) == "" {
        DroppedTailIsBlank(lines[..n]);
      }
    }
  }

  /**
   The rules are exactly the end of the file: no line before them sets one of the parameters, and
   the lines before them are the other old lines in their order without the blank ones at the end,
   and then one empty line.
   */
  lemma RulesAreTheSuffix(lines: seq<string>, params: set<string>, rules: seq<Rule>) returns (before: seq<string>)
    requires RulesFor(rules, params)
    ensures var out := WithRules(lines, params, rules);
            && out == before + RuleLines(rules)
            && (forall l :: l in before ==> !IsRule(params, l))
            && (forall l :: l in RuleLines(rules) ==> IsRule(params, l))
    ensures var others, n := OtherLines(params, lines), |DropBlankTail(OtherLines(params, lines))|;
            && n <= |others| && (forall i :: n <= i < |others| ==> Blank(others[i])) && (n > 0 ==> !Blank(others[n - 1]))
            && before == others[..n] + if n > 0 && rules != [] then [""] else []
  {
    var kept := DropBlankTail(OtherLines(params, lines));
    hide IsRule, OtherLines, DropBlankTail, RuleLines, RulesFor, Blank;
    before := kept + if rules != [] && kept != [] then [""] else [];
    RuleLinesAreRules(rules, params);
    DroppedTailIsBlank(OtherLines(params, lines));
    BlankIsNoRule(params);
    assert forall l :: l in kept ==> l in OtherLines(params, lines);
    assert forall l :: l in before ==> l in kept || l == "";
  }

  // ---- the last environment wins ----

  lemma StripKeepsTrim(line: string)
    ensures TrimSpace(StripCR(line)) == TrimSpace(line)
  {
    if EndsCR(line) {
      var lead, tail := TrimParts(line);
      var mid, n := TrimSpace(line), |line| - 1;
      assert line == lead + mid + tail;
      if tail != "" {
        assert StripCR(line) == lead + mid + tail[..|tail| - 1];
        TrimUnique(lead, mid, tail[..|tail| - 1]);
      } else {
        LastByte(lead, mid);
        assert mid == "" && line == lead && StripCR(line) == lead[..n] + "" + "";
        TrimUnique(lead[..n], "", "");
      }
    }
  }

  lemma LastByte(a: string, b: string)
    ensures b != "" ==> (a + b + "")[|a + b + ""| - 1] == b[|b| - 1]
  {
  }

  lemma StripKeepsOthers(params: set<string>, lines: seq<string>)
    requires forall l :: l in lines ==> !IsRule(params, l)
    ensures forall l :: l in StripAll(lines) ==> !IsRule(params, l)
  {
    forall l | l in StripAll(lines) ensures !IsRule(params, l) {
      var i :| 0 <= i < |lines| && StripCR(lines[i]) == l;
      StripKeepsTrim(lines[i]);
      assert lines[i] in lines;
    }
  }

  lemma KeptAgain(kept: seq<string>, blank: seq<string>)
    requires kept != [] ==> TrimSpace(kept[|kept| - 1]) != ""
    requires blank == [] || blank == [""]
    ensures DropBlankTail(StripAll(kept) + blank) == StripAll(kept)
  {
    var again := StripAll(kept);
    if kept != [] {
      StripKeepsTrim(kept[|kept| - 1]);
      assert again[|kept| - 1] == StripCR(kept[|kept| - 1]);
    }
    if blank != [] {
      assert (again + [""])[..|again|] == again;
    } else {
      assert again + [] == again;
    }
  }

  /** What a second configuration finds of the first one: its other lines, one CR poorer. */
  lemma SecondReading(params: set<string>, kept: seq<string>, blank: seq<string>, ruleLines: seq<string>)
    requires OneLineEach(kept) && (forall l :: l in kept ==> !IsRule(params, l))
    requires kept != [] ==> TrimSpace(kept[|kept| - 1]) != ""
    requires blank == [] || blank == [""]
    requires forall l :: l in ruleLines ==> IsRule(params, l) && '\n' !in l && !EndsCR(l)
    ensures DropBlankTail(OtherLines(params, ReadLines(FileText(kept + blank + ruleLines)))) == StripAll(kept)
  {
    hide ReadLines, FileText, OtherLines, StripAll, DropBlankTail, IsRule;
    var out := kept + blank + ruleLines;
    ReadBack(out);
    BlankIsNoRule(params);
    KeptAgain(kept, blank);
    if out == [] {
      OthersUniform(params, [""]);
      KeptAgain([], [""]);
      assert StripAll([]) + [""] == [""];
    } else {
      StripAllConcat(kept + blank, ruleLines);
      StripAllConcat(kept, blank);
      StripAllIdentity(blank);
      StripAllIdentity(ruleLines);
      var again := StripAll(kept);
      StripKeepsOthers(params, kept);
      OthersConcat(params, again + blank, ruleLines);
      OthersUniform(params, again + blank);
      OthersUniform(params, ruleLines);
      assert again + blank + [] == again + blank;
    }
  }

  lemma RulesTwice(params: set<string>, kept: seq<string>, again: seq<string>, ruleLines: seq<string>)
    requires OneLineEach(kept) && OneLineEach(ruleLines) && again == StripAll(kept)
    ensures var blank := if ruleLines != [] && kept != [] then [""] else [];
            var blank' := if ruleLines != [] && again != [] then [""] else [];
            FileText(again + blank' + ruleLines) == FileText(kept + blank + ruleLines) <==> NoneEndsCR(kept)
  {
    hide FileText, Terminated;
    var blank: seq<string> := if ruleLines != [] && kept != [] then [""] else [];
    StripAllIdentity(kept);
    var a, b := again + blank + ruleLines, kept + blank + ruleLines;
    FileTextTerminates(a);
    FileTextTerminates(b);
    if FileText(a) == FileText(b) && a != [] {
      forall l | l in again ensures '\n' !in l {
        var i :| 0 <= i < |kept| && StripCR(kept[i]) == l;
        assert kept[i] in kept;
      }
      SameTextSameLines(a, b);
      assert again == a[..|kept|] && kept == b[..|kept|];
    }
  }

  /**
   Main result: the last configured rules win completely. Writing rules and then other rules gives,
   byte for byte, the file that the other rules give alone, exactly when no other line that stays
   ends in a CR after normalisation.
   */
  lemma LastRulesWin(content: string, params: set<string>, first: seq<Rule>, second: seq<Rule>)
    requires RulesFor(first, params) && RulesFor(second, params)
    ensures WithRulesFile(WithRulesFile(content, params, first), params, second) == WithRulesFile(content, params, second)
       <==> NoneEndsCR(DropBlankTail(OtherLines(params, ReadLines(content))))
  {
    hide ReadLines, FileText, OtherLines, StripAll, DropBlankTail, IsRule, RuleLines;
    var kept := DropBlankTail(OtherLines(params, ReadLines(content)));
    KeptLines(content, params);
    RuleLinesAreRules(first, params);
    RuleLinesAreRules(second, params);
    RuleLinesEmpty(first);
    RuleLinesEmpty(second);
    var blank: seq<string> := if first != [] && kept != [] then [""] else [];
    SecondReading(params, kept, blank, RuleLines(first));
    RulesTwice(params, kept, StripAll(kept), RuleLines(second));
  }

  lemma RuleLinesEmpty(rules: seq<Rule>)
    ensures RuleLines(rules) == [] <==> rules == []
  {
    assert |RuleLines(rules)| == |rules|;
  }

  lemma KeptLines(content: string, params: set<string>)
    ensures var kept := DropBlankTail(OtherLines(params, ReadLines(content)));
            && OneLineEach(kept) && (forall l :: l in kept ==> !IsRule(params, l))
            && (kept != [] ==> TrimSpace(kept[|kept| - 1]) != "")
  {
    var others := OtherLines(params, ReadLines(content));
    var kept := DropBlankTail(others);
    DroppedTailIsBlank(others);
    assert forall l :: l in kept ==> l in others;
    if kept != [] {
      var _, _ := TrimParts(kept[|kept| - 1]);
    }
  }

  // ---- from the environment to the file ----

  /** A table of prefixes and parameters that rule files can use. */
  ghost predicate RuleTable(paramByPrefix: map<string, string>) {
    forall prefix :: prefix in paramByPrefix ==> '\n' !in prefix && ParamName(paramByPrefix[prefix])
  }

  lemma ItemKeyNames()
    ensures ParamName("AllowKey") && ParamName("DenyKey") && ParamName("AllowKeyRegexp") && ParamName("DenyKeyRegexp")
  {
  }

  lemma ItemKeyPrefixes()
    ensures '\n' !in "ZBX_ALLOWKEY" && '\n' !in "ZBX_DENYKEY"
    ensures '\n' !in "ZBX_ALLOWKEY_REGEXP" && '\n' !in "ZBX_DENYKEY_REGEXP"
  {
  }

  lemma ItemKeyTable()
    ensures RuleTable(ITEM_KEY_RULES)
  {
    hide ParamName;
    ItemKeyNames();
    ItemKeyPrefixes();
  }

  lemma ToolAccessNames()
    ensures ParamName("AllowTool") && ParamName("DenyTool") && ParamName("AllowToolRegexp") && ParamName("DenyToolRegexp")
  {
  }

  lemma ToolAccessPrefixes()
    ensures '\n' !in "ZBX_ALLOWTOOL" && '\n' !in "ZBX_DENYTOOL"
    ensures '\n' !in "ZBX_ALLOWTOOL_REGEXP" && '\n' !in "ZBX_DENYTOOL_REGEXP"
  {
  }

  lemma ToolAccessTable()
    ensures RuleTable(TOOL_ACCESS_RULES)
  {
    hide ParamName;
    ToolAccessNames();
    ToolAccessPrefixes();
  }

  /** The prefixes of a table in some order, as ranging over the map gives them. */
  ghost predicate Enumerates(prefixes: seq<string>, paramByPrefix: map<string, string>) {
    forall p :: p in prefixes <==> p in paramByPrefix
  }

  lemma ListingGivesRules(env: Environment, prefixes: seq<string>, paramByPrefix: map<string, string>,
                          variables: seq<IndexedVariable>)
    requires RuleTable(paramByPrefix) && Enumerates(prefixes, paramByPrefix)
    requires IsListing(variables, env, prefixes)
    ensures forall v :: v in variables ==> v.prefix in paramByPrefix
    ensures RulesFor(RulesOf(variables, paramByPrefix), paramByPrefix.Values)
    ensures forall i :: 0 <= i < |variables| ==>
              RuleLines(RulesOf(variables, paramByPrefix))[i]
                == paramByPrefix[variables[i].prefix] + "=${" + IndexedName(variables[i].prefix, i) + "}"
  {
    forall i | 0 <= i < |variables|
      ensures variables[i].prefix in paramByPrefix && '\n' !in variables[i].name
      ensures variables[i].name == IndexedName(variables[i].prefix, i)
    {
      NameIsOneLine(env, prefixes, paramByPrefix, variables[i]);
    }
    RulesAreWellNamed(variables, paramByPrefix);
  }

  lemma NameIsOneLine(env: Environment, prefixes: seq<string>, paramByPrefix: map<string, string>, v: IndexedVariable)
    requires RuleTable(paramByPrefix) && Enumerates(prefixes, paramByPrefix) && IsVariable(env, prefixes, v)
    ensures v.prefix in paramByPrefix && '\n' !in v.name && v.name == IndexedName(v.prefix, v.index)
  {
    VariableName(env, prefixes, v);
    assert forall c :: c in Itoa(v.index) ==> IsDigit(c);
  }

  lemma RulesAreWellNamed(variables: seq<IndexedVariable>, paramByPrefix: map<string, string>)
    requires RuleTable(paramByPrefix)
    requires forall v :: v in variables ==> v.prefix in paramByPrefix && '\n' !in v.name
    ensures RulesFor(RulesOf(variables, paramByPrefix), paramByPrefix.Values)
  {
    var rules := RulesOf(variables, paramByPrefix);
    forall r | r in rules ensures r.param in paramByPrefix.Values && ParamName(r.param) && '\n' !in r.variable {
      var i :| 0 <= i < |rules| && rules[i] == r;
      assert variables[i] in variables;
    }
  }

  method EnumeratePrefixes(paramByPrefix: map<string, string>) returns (prefixes: seq<string>)
    ensures Enumerates(prefixes, paramByPrefix)
  {
    prefixes := [];
    var remaining := paramByPrefix.Keys;
    while remaining != {}
      invariant remaining <= paramByPrefix.Keys
      invariant forall p :: p in prefixes <==> p in paramByPrefix.Keys - remaining
      decreases remaining
    {
      var p :| p in remaining;
      prefixes, remaining := prefixes + [p], remaining - {p};
    }
  }

  /** The environment has a listing of its rule variables, for some order of the table. */
  ghost predicate HasListing(env: Environment, paramByPrefix: map<string, string>) {
    exists prefixes, variables :: Enumerates(prefixes, paramByPrefix) && IsListing(variables, env, prefixes)
  }

  /**
   `ConfigureItemKeyRules` for any rule table: rejected environments and missing files change
   nothing; otherwise the file ends with one rule per variable, in index order over all prefixes.
   */
  method ConfigureRules(env: Environment, file: ConfigFile, paramByPrefix: map<string, string>) returns (ok: bool)
    requires RuleTable(paramByPrefix)
    modifies file
    ensures !ok ==> file.content == old(file.content) && file.writes == old(file.writes)
    ensures forall prefixes :: Enumerates(prefixes, paramByPrefix) ==>
              (ok <==> Accepts(env, prefixes, true) && old(file.content).Some?)
    ensures ok ==> HasListing(env, paramByPrefix)
    ensures forall prefixes, variables: seq<IndexedVariable> :: ok && Enumerates(prefixes, paramByPrefix) && IsListing(variables, env, prefixes) ==>
              && (forall v :: v in variables ==> v.prefix in paramByPrefix)
              && file.content == Some(WithRulesFile(old(file.content).value, paramByPrefix.Values,
                                                    RulesOf(variables, paramByPrefix)))
  {
    var prefixes := EnumeratePrefixes(paramByPrefix);
    var r := CollectIndexed(env, prefixes, true);
    forall others | Enumerates(others, paramByPrefix)
      ensures Accepts(env, others, true) <==> Accepts(env, prefixes, true)
    {
      AcceptsSamePrefixes(env, others, prefixes, true);
      AcceptsSamePrefixes(env, prefixes, others, true);
    }
    if r.Failure? {
      return false;
    }
    ListingGivesRules(env, prefixes, paramByPrefix, r.value);
    forall others, variables: seq<IndexedVariable> | Enumerates(others, paramByPrefix) && IsListing(variables, env, others)
      ensures variables == r.value
    {
      ListingIsUnique(variables, r.value, env, others, prefixes);
    }
    ok := ReplaceIndexedParamsAtEnd(file, paramByPrefix, RulesOf(r.value, paramByPrefix));
  }

  /**
   Main result, end to end: configuring from one environment and then from another leaves the file
   that the second environment gives alone, exactly when no other line that stays ends in a CR.
   */
  lemma LastEnvironmentWins(content: string, first: Environment, second: Environment, prefixes: seq<string>,
                            paramByPrefix: map<string, string>, v1: seq<IndexedVariable>, v2: seq<IndexedVariable>)
    requires RuleTable(paramByPrefix) && Enumerates(prefixes, paramByPrefix)
    requires IsListing(v1, first, prefixes) && IsListing(v2, second, prefixes)
    ensures && (forall v :: v in v1 ==> v.prefix in paramByPrefix) && (forall v :: v in v2 ==> v.prefix in paramByPrefix)
    ensures var params := paramByPrefix.Values;
            var r1, r2 := RulesOf(v1, paramByPrefix), RulesOf(v2, paramByPrefix);
            WithRulesFile(WithRulesFile(content, params, r1), params, r2) == WithRulesFile(content, params, r2)
            <==> NoneEndsCR(DropBlankTail(OtherLines(params, ReadLines(content))))
  {
    ListingGivesRules(first, prefixes, paramByPrefix, v1);
    ListingGivesRules(second, prefixes, paramByPrefix, v2);
    LastRulesWin(content, paramByPrefix.Values, RulesOf(v1, paramByPrefix), RulesOf(v2, paramByPrefix));
  }
}
