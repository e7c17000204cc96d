/** The compiler as it runs: a string builder filled rule by rule, stopping at the first error. */
module PolicyCompiler {
  import opened Outcomes
  import opened RegoLexer
  import opened RegoReader
  import opened Ordering
  import opened PolicyDsl
  import opened Text

  class Builder {
    var text: string

    constructor ()
      ensures text == ""
    {
      text := "";
    }

    method WriteString(s: string)
      modifies this
      ensures text == old(text) + s
    {
      text := text + s;
    }
  }

  /** Looks for the first exception that may not be printed. */
  method CheckExcept(items: seq<string>) returns (bad: Option<string>)
    ensures bad == BadExcept(items)
    ensures bad.None? <==>
              forall i, k | 0 <= i < |items| && 0 <= k < |items[i]| :: items[i][k] !in ['\\', '"', '\n', '\r', '\t']
  {
    BadExceptExact(items);
    var i := 0;
    while i < |items|
      invariant 0 <= i <= |items|
      invariant BadExcept(items) == BadExcept(items[i..])
    {
      if HasDisallowed(items[i]) {
        return Some(items[i]);
      }
      i := i + 1;
    }
    bad := None;
  }

  /** Writes one rule.  On an error the caller discards the builder, which has only grown. */
  method CompileRule(b: Builder, isPrint: char -> bool, category: string, index: nat, rule: Rule)
    returns (err: Option<CompileError>)
    modifies b
    ensures match RuleText(isPrint, category, index, rule) {
              case Ok(text) => err == None && b.text == old(b.text) + text
              case Err(e) => err == Some(e) && old(b.text) <= b.text
            }
  {
    var expr, ruleSet := rule.deny, "deny";
    if rule.warn != "" {
      expr, ruleSet := rule.warn, "warnings";
    }
    var parsed := ParseOperator(expr);
    if parsed.Err? {
      return Some(BadRule(category, index, parsed.error));
    }
    var condition := OperatorText(isPrint, parsed.value.0, parsed.value.1);
    if condition.Err? {
      return Some(BadRule(category, index, condition.error));
    }

    hide ParseOperator, OperatorText, CommentText, Quote, Join, BadExcept;
    WriteRuleStart(b, category, rule, ruleSet, condition.value);
    if |rule.except| > 0 {
      var bad := CheckExcept(rule.except);
      if bad.Some? {
        return Some(BadRule(category, index, DisallowedExcept(bad.value)));
      }
    } else {
      assert BadExcept(rule.except) == None by { NoBadExcept(); }
    }
    WriteRuleEnd(b, isPrint, rule);
    Regroup(old(b.text), CommentLine(category, rule), HeadLine(rule), SomeLine(category),
            ConditionLine(condition.value), ExceptLine(isPrint, rule), MessageLine(isPrint, rule), "}\n\n");
    err := None;
  }

  method WriteRuleStart(b: Builder, category: string, rule: Rule, ruleSet: string, condition: string)
    requires ruleSet == RuleSet(rule)
    modifies b
    ensures b.text == old(b.text) + CommentLine(category, rule) + HeadLine(rule) + SomeLine(category) + ConditionLine(condition)
    ensures old(b.text) <= b.text
  {
    hide CommentText;
    b.WriteString("# Rule: " + category + " - " + CommentText(rule.message) + "\n");
    b.WriteString(ruleSet + " contains msg if {\n");
    b.WriteString("    some cap in input.capabilities." + category + "\n");
    b.WriteString("    " + condition + "\n");
  }

  method WriteRuleEnd(b: Builder, isPrint: char -> bool, rule: Rule)
    modifies b
    ensures b.text == old(b.text) + ExceptLine(isPrint, rule) + MessageLine(isPrint, rule) + "}\n\n"
  {
    hide Quote, Join;
    if |rule.except| > 0 {
      var quoted := QuoteItems(rule.except, isPrint);
      b.WriteString("    not cap in {" + Join(quoted, ", ") + "}\n");
    } else {
      assert b.text + "" == b.text;
    }
    b.WriteString("    msg := " + Quote(isPrint, rule.message) + "\n");
    b.WriteString("}\n\n");
  }

  method QuoteItems(items: seq<string>, isPrint: char -> bool) returns (quoted: seq<string>)
    ensures quoted == QuoteAll(isPrint, items)
  {
    quoted := [];
    for i := 0 to |items|
      invariant quoted == QuoteAll(isPrint, items)[..i]
    {
      quoted := quoted + [Quote(isPrint, items[i])];
    }
  }

  lemma NoBadExcept()
    ensures BadExcept([]) == None
  {
  }

  lemma Regroup(t: string, a: string, b: string, c: string, d: string, e: string, f: string, g: string)
    ensures t + a + b + c + d + e + f + g == t + (a + b + c + d + e + f + g)
  {
  }

  lemma PrependNothing(r: Result<string, CompileError>)
    ensures PrependText("", r) == r
  {
    assert r.Ok? ==> "" + r.value == r.value;
  }

  lemma RulesTextStep(isPrint: char -> bool, category: string, rules: seq<Rule>, i: nat, written: string)
    requires i < |rules| && RuleText(isPrint, category, i, rules[i]).Ok?
    ensures PrependText(written, RulesText(isPrint, category, rules, i))
         == PrependText(written + RuleText(isPrint, category, i, rules[i]).value, RulesText(isPrint, category, rules, i + 1))
  {
    hide RuleText;
    var text, later := RuleText(isPrint, category, i, rules[i]).value, RulesText(isPrint, category, rules, i + 1);
    assert later.Ok? ==> written + (text + later.value) == written + text + later.value;
  }

  method CompileCategory(b: Builder, isPrint: char -> bool, category: string, rules: seq<Rule>)
    returns (err: Option<CompileError>)
    modifies b
    ensures match RulesText(isPrint, category, rules, 0) {
              case Ok(text) => err == None && b.text == old(b.text) + text
              case Err(e) => err == Some(e)
            }
  {
    hide RuleText;
    ghost var written := "";
    var i := 0;
    PrependNothing(RulesText(isPrint, category, rules, 0));
    while i < |rules|
      invariant 0 <= i <= |rules|
      invariant b.text == old(b.text) + written
      invariant RulesText(isPrint, category, rules, 0) == PrependText(written, RulesText(isPrint, category, rules, i))
    {
      err := CompileRule(b, isPrint, category, i, rules[i]);
      if err.Some? {
        return;
      }
      RulesTextStep(isPrint, category, rules, i, written);
      written := written + RuleText(isPrint, category, i, rules[i]).value;
      i := i + 1;
    }
    err := None;
  }

  lemma CategoriesTextStep(isPrint: char -> bool, rules: map<string, seq<Rule>>, categories: seq<string>, i: nat, written: string)
    requires i < |categories| && forall c :: c in categories ==> c in rules
    requires ValidCategory(categories[i]) && RulesText(isPrint, categories[i], rules[categories[i]], 0).Ok?
    ensures PrependText(written, CategoriesText(isPrint, rules, categories[i..]))
         == PrependText(written + RulesText(isPrint, categories[i], rules[categories[i]], 0).value,
                        CategoriesText(isPrint, rules, categories[i + 1..]))
  {
    hide RulesText;
    assert categories[i..][1..] == categories[i + 1..];
    var text, later := RulesText(isPrint, categories[i], rules[categories[i]], 0).value,
                       CategoriesText(isPrint, rules, categories[i + 1..]);
    assert later.Ok? ==> written + (text + later.value) == written + text + later.value;
  }

  lemma HeadText()
    ensures "" + "package skillledger.policy\n\n" + "import rego.v1\n\n" + "default decision := \"allow\"\n\n"
         == Header("policy") + DEFAULT_ALLOW
  {
  }

  lemma TailText(t: string)
    ensures t + "decision := \"deny\" if count(deny) > 0\n\n" + "decision := \"warn\" if {\n" + "    count(deny) == 0\n"
            + "    count(warnings) > 0\n" + "}\n"
         == t + (DENY_DECISION + WARN_DECISION)
  {
    AppendFour(t, "decision := \"deny\" if count(deny) > 0\n\n", "decision := \"warn\" if {\n",
               "    count(deny) == 0\n", "    count(warnings) > 0\n", "}\n");
  }

  lemma AppendFour(t: string, a: string, b: string, c: string, d: string, e: string)
    ensures t + a + b + c + d + e == t + (a + (b + (c + (d + e))))
  {
  }

  method WriteHeader(b: Builder)
    requires b.text == ""
    modifies b
    ensures b.text == Header("policy") + DEFAULT_ALLOW
  {
    hide Header, DEFAULT_ALLOW;
    b.WriteString("package skillledger.policy\n\n");
    b.WriteString("import rego.v1\n\n");
    b.WriteString("default decision := \"allow\"\n\n");
    HeadText();
  }

  method WriteDecisions(b: Builder)
    modifies b
    ensures b.text == old(b.text) + (DENY_DECISION + WARN_DECISION)
  {
    hide DENY_DECISION, WARN_DECISION;
    b.WriteString("decision := \"deny\" if count(deny) > 0\n\n");
    b.WriteString("decision := \"warn\" if {\n");
    b.WriteString("    count(deny) == 0\n");
    b.WriteString("    count(warnings) > 0\n");
    b.WriteString("}\n");
    TailText(old(b.text));
  }

  method CompileCategories(b: Builder, isPrint: char -> bool, rules: map<string, seq<Rule>>, categories: seq<string>)
    returns (err: Option<CompileError>)
    requires forall c :: c in categories ==> c in rules
    modifies b
    ensures match CategoriesText(isPrint, rules, categories) {
              case Ok(text) => err == None && b.text == old(b.text) + text
              case Err(e) => err == Some(e)
            }
  {
    hide RulesText, ValidCategory;
    ghost var written := "";
    var i := 0;
    assert categories[0..] == categories;
    PrependNothing(CategoriesText(isPrint, rules, categories));
    while i < |categories|
      invariant 0 <= i <= |categories|
      invariant b.text == old(b.text) + written
      invariant CategoriesText(isPrint, rules, categories)
             == PrependText(written, CategoriesText(isPrint, rules, categories[i..]))
    {
      var category := categories[i];
      if !ValidCategory(category) {
        return Some(InvalidCategory(category));
      }
      err := CompileCategory(b, isPrint, category, rules[category]);
      if err.Some? {
        return;
      }
      CategoriesTextStep(isPrint, rules, categories, i, written);
      written := written + RulesText(isPrint, category, rules[category], 0).value;
      i := i + 1;
    }
    assert written + "" == written;
    err := None;
  }

  /** Compiles a policy to the text of a Rego module. */
  method Compile(policy: Option<Policy>, isPrint: char -> bool) returns (r: Result<string, CompileError>)
    ensures r == CompileText(isPrint, policy)
    ensures policy.None? ==> r == Err(NilPolicy)
  {
    hide CategoriesText, Header, DEFAULT_ALLOW, DENY_DECISION, WARN_DECISION;
    if policy.None? {
      return Err(NilPolicy);
    }
    var rules := policy.value.rules;
    if |rules| == 0 {
      return Err(NoRules);
    }
    var b := new Builder();
    WriteHeader(b);
    var categories := SortStrings(rules.Keys);
    var err := CompileCategories(b, isPrint, rules, categories);
    if err.Some? {
      return Err(err.value);
    }
    WriteDecisions(b);
    r := Ok(b.text);
  }
}
