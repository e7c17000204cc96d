/** The emitted text of a whole policy reads back as its own rules, in order. */
module PolicyCorrectness {
  import opened Outcomes
  import opened RegoLexer
  import opened Rego
  import opened RegoReader
  import opened Ordering
  import opened PolicyDsl
  import opened PolicyMeaning

  // ----- Reading a whole policy back --------------------------------------------------------

  predicate AllCompile(rules: seq<Rule>) {
    forall i | 0 <= i < |rules| :: Compiles(rules[i])
  }

  predicate LegibleRules(isPrint: char -> bool, rules: seq<Rule>)
    requires AllCompile(rules)
  {
    forall i | 0 <= i < |rules| :: LegibleRule(isPrint, rules[i])
  }

  function RulesStatements(category: string, rules: seq<Rule>): seq<Statement>
    requires AllCompile(rules)
  {
    seq(|rules|, i requires 0 <= i < |rules| => RuleStatement(category, rules[i]))
  }

  predicate CategoriesCompile(rules: map<string, seq<Rule>>, categories: seq<string>) {
    forall i | 0 <= i < |categories| ::
      categories[i] in rules && ValidCategory(categories[i]) && AllCompile(rules[categories[i]])
  }

  predicate LegibleCategories(isPrint: char -> bool, rules: map<string, seq<Rule>>, categories: seq<string>)
    requires CategoriesCompile(rules, categories)
  {
    forall i | 0 <= i < |categories| :: LegibleRules(isPrint, rules[categories[i]])
  }

  function CategoriesStatements(rules: map<string, seq<Rule>>, categories: seq<string>): seq<Statement>
    requires CategoriesCompile(rules, categories)
  {
    if categories == [] then []
    else RulesStatements(categories[0], rules[categories[0]]) + CategoriesStatements(rules, categories[1..])
  }

  /** Compilation succeeds exactly when there are rules, category names are valid and every rule has a
      known operator, a legal argument and legal exceptions. */
  lemma {:induction false} RulesTextOk(isPrint: char -> bool, category: string, rules: seq<Rule>, i: nat)
    requires i <= |rules|
    ensures RulesText(isPrint, category, rules, i).Ok? <==> AllCompile(rules[i..])
    decreases |rules| - i
  {
    hide Compiles, RuleText;
    if i < |rules| {
      RuleTextOk(isPrint, category, i, rules[i]);
      RulesTextOk(isPrint, category, rules, i + 1);
      assert rules[i..] == [rules[i]] + rules[i + 1..];
    }
  }

  lemma {:induction false} CategoriesTextOk(isPrint: char -> bool, rules: map<string, seq<Rule>>, categories: seq<string>)
    requires forall c :: c in categories ==> c in rules
    ensures CategoriesText(isPrint, rules, categories).Ok? <==> CategoriesCompile(rules, categories)
  {
    hide ValidCategory, AllCompile, RulesText;
    if categories != [] {
      var c := categories[0];
      RulesTextOk(isPrint, c, rules[c], 0);
      assert rules[c][0..] == rules[c];
      CategoriesTextOk(isPrint, rules, categories[1..]);
      assert categories == [c] + categories[1..];
    }
  }

  lemma {:induction false} ReadRulesBack(isPrint: char -> bool, category: string, rules: seq<Rule>, i: nat, rest: string)
    requires ValidCategory(category) && i <= |rules| && AllCompile(rules)
    ensures RulesText(isPrint, category, rules, i).Ok?
    ensures ReadStatements(RulesText(isPrint, category, rules, i).value + rest)
         == if LegibleRules(isPrint, rules[i..])
            then PutBefore(RulesStatements(category, rules[i..]), ReadStatements(rest)) else None
    decreases |rules| - i
  {
    hide ValidCategory, Compiles, RuleText, ReadStatements, RuleStatement, LegibleRule;
    if i == |rules| {
      assert "" + rest == rest;
      var r := ReadStatements(rest);
      assert r.Some? ==> [] + r.value == r.value;
    } else {
      ReadRulesBack(isPrint, category, rules, i + 1, rest);
      var later := RulesText(isPrint, category, rules, i + 1).value;
      ReadRuleBack(isPrint, category, i, rules[i], later + rest);
      var text := RuleText(isPrint, category, i, rules[i]).value;
      assert text + later + rest == text + (later + rest);
      var s, ss, r := RuleStatement(category, rules[i]), RulesStatements(category, rules[i + 1..]), ReadStatements(rest);
      assert rules[i..] == [rules[i]] + rules[i + 1..];
      assert RulesStatements(category, rules[i..]) == [s] + ss;
      assert r.Some? ==> [s] + (ss + r.value) == [s] + ss + r.value;
      LegibleSplit(isPrint, rules[i], rules[i + 1..]);
    }
  }

  lemma LegibleSplit(isPrint: char -> bool, r: Rule, rules: seq<Rule>)
    requires Compiles(r) && AllCompile(rules)
    ensures AllCompile([r] + rules)
    ensures LegibleRules(isPrint, [r] + rules) <==> LegibleRule(isPrint, r) && LegibleRules(isPrint, rules)
  {
    hide Compiles, LegibleRule;
    var all := [r] + rules;
    assert all[0] == r;
    assert forall i | 0 <= i < |rules| :: all[i + 1] == rules[i];
  }

  lemma {:induction false} ReadCategoriesBack(isPrint: char -> bool, rules: map<string, seq<Rule>>, categories: seq<string>, rest: string)
    requires CategoriesCompile(rules, categories)
    ensures CategoriesText(isPrint, rules, categories).Ok?
    ensures ReadStatements(CategoriesText(isPrint, rules, categories).value + rest)
         == if LegibleCategories(isPrint, rules, categories)
            then PutBefore(CategoriesStatements(rules, categories), ReadStatements(rest)) else None
  {
    hide ValidCategory, AllCompile, RulesText, ReadStatements, RulesStatements, LegibleRules;
    var r := ReadStatements(rest);
    if categories == [] {
      assert "" + rest == rest;
      assert r.Some? ==> [] + r.value == r.value;
    } else {
      var c, tail := categories[0], categories[1..];
      ReadCategoriesBack(isPrint, rules, tail, rest);
      var later := CategoriesText(isPrint, rules, tail).value;
      ReadRulesBack(isPrint, c, rules[c], 0, later + rest);
      assert rules[c][0..] == rules[c];
      var text := RulesText(isPrint, c, rules[c], 0).value;
      assert text + later + rest == text + (later + rest);
      var s, ss := RulesStatements(c, rules[c]), CategoriesStatements(rules, tail);
      assert r.Some? ==> s + (ss + r.value) == s + ss + r.value;
      assert LegibleCategories(isPrint, rules, categories)
        <==> LegibleRules(isPrint, rules[c]) && LegibleCategories(isPrint, rules, tail) by {
        assert forall i | 0 <= i < |tail| :: categories[i + 1] == tail[i];
      }
    }
  }

  /** The policies that compile. */
  predicate Accepted(p: Policy) {
    && |p.rules| != 0
    && forall c | c in p.rules :: ValidCategory(c) && AllCompile(p.rules[c])
  }

  predicate LegiblePolicy(isPrint: char -> bool, p: Policy)
    requires Accepted(p)
  {
    forall c | c in p.rules :: LegibleRules(isPrint, p.rules[c])
  }

  ghost function Partials(p: Policy): seq<Statement>
    requires Accepted(p)
  {
    AcceptedCompile(p);
    CategoriesStatements(p.rules, Sorted(p.rules.Keys))
  }

  const DECISIONS: seq<Statement> := [
    Decide("deny", [Positive("deny")]),
    Decide("warn", [Zero("deny"), Positive("warnings")])
  ]

  /** The module a policy stands for. */
  ghost function CompiledModule(p: Policy): Module
    requires Accepted(p)
  {
    Module("policy", [Default("allow")] + (Partials(p) + DECISIONS))
  }

  lemma AcceptedCompile(p: Policy)
    ensures Accepted(p) <==> |p.rules| != 0 && CategoriesCompile(p.rules, Sorted(p.rules.Keys))
  {
    hide ValidCategory, AllCompile;
    var cats := Sorted(p.rules.Keys);
    if Accepted(p) {
      forall i | 0 <= i < |cats| ensures cats[i] in p.rules {
        assert cats[i] in cats;
      }
    }
    if CategoriesCompile(p.rules, cats) {
      forall c | c in p.rules ensures ValidCategory(c) && AllCompile(p.rules[c]) {
        assert c in cats;
        var i :| 0 <= i < |cats| && cats[i] == c;
      }
    }
  }

  /** A policy compiles exactly when it is accepted. */
  lemma CompilesWhenAccepted(isPrint: char -> bool, p: Policy)
    ensures CompileText(isPrint, Some(p)).Ok? <==> Accepted(p)
  {
    hide CategoriesText, CategoriesCompile, Accepted;
    AcceptedCompile(p);
    CategoriesTextOk(isPrint, p.rules, Sorted(p.rules.Keys));
  }

  lemma LegibleInOrder(isPrint: char -> bool, p: Policy)
    requires Accepted(p) && CategoriesCompile(p.rules, Sorted(p.rules.Keys))
    ensures LegibleCategories(isPrint, p.rules, Sorted(p.rules.Keys)) <==> LegiblePolicy(isPrint, p)
  {
    hide ValidCategory, AllCompile, LegibleRules;
    var cats := Sorted(p.rules.Keys);
    forall i | 0 <= i < |cats| ensures cats[i] in p.rules {
      assert cats[i] in cats;
    }
    if LegibleCategories(isPrint, p.rules, cats) {
      forall c | c in p.rules ensures LegibleRules(isPrint, p.rules[c]) {
        assert c in cats;
        var i :| 0 <= i < |cats| && cats[i] == c;
      }
    }
  }

  /** PRINT AND READ.  For every policy that compiles, reading the emitted text gives back exactly the
      module the policy stands for, rule by rule and in order, when every quoted string is legible; and
      when one is not, the text cannot be read at all. */
  lemma ReadCompiled(isPrint: char -> bool, p: Policy)
    requires Accepted(p)
    ensures CompileText(isPrint, Some(p)).Ok?
    ensures Read(CompileText(isPrint, Some(p)).value)
         == if LegiblePolicy(isPrint, p) then Some(CompiledModule(p)) else None
  {
    hide Accepted, CategoriesText, CategoriesCompile, ReadStatements, Read, DEFAULT_ALLOW, DENY_DECISION, WARN_DECISION,
         Header, LegiblePolicy, LegibleCategories, CategoriesStatements, IsWord;
    AcceptedCompile(p);
    var cats := Sorted(p.rules.Keys);
    var tail := DENY_DECISION + WARN_DECISION;
    ReadWarnDecision();
    ReadDenyDecisionThen(WARN_DECISION);
    assert [Decide("deny", [Positive("deny")])] + [Decide("warn", [Zero("deny"), Positive("warnings")])] == DECISIONS;
    ReadCategoriesBack(isPrint, p.rules, cats, tail);
    var text := CategoriesText(isPrint, p.rules, cats).value;
    ReadDefaultThen(text + tail);
    assert IsWord("policy") by { PolicyIsWord(); }
    ReadHeaderThen("policy", DEFAULT_ALLOW + (text + tail));
    assert Header("policy") + DEFAULT_ALLOW + text + tail == Header("policy") + (DEFAULT_ALLOW + (text + tail));
    LegibleInOrder(isPrint, p);
  }

  lemma PolicyIsWord()
    ensures IsWord("policy")
  {
  }
}
