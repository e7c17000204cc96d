/** Which policies the compiler accepts, and which error it reports, read off the policy itself. */
module PolicyAcceptance {
  import opened Outcomes
  import opened Ordering
  import opened PolicyDsl
  import opened PolicyMeaning
  import opened PolicyCorrectness

  // ----- What may be written ------------------------------------------------------------------

  /** No backslash, double quote, line feed, carriage return or tab. */
  predicate Unescaped(s: string) {
    forall i | 0 <= i < |s| :: s[i] != '\\' && s[i] != '"' && s[i] != '\n' && s[i] != '\r' && s[i] != '\t'
  }

  function Expression(r: Rule): string {
    if r.warn != "" then r.warn else r.deny
  }

  /** `contains("...")` or `any("...")`. */
  ghost predicate Applies(expr: string, op: string, arg: string) {
    expr == op + "(\"" + arg + "\")" && '(' !in op
  }

  ghost predicate AcceptableExpression(expr: string) {
    exists op, arg :: Applies(expr, op, arg) && (op == "contains" || op == "any") && arg != "" && Unescaped(arg)
  }

  ghost predicate AcceptableRule(r: Rule) {
    AcceptableExpression(Expression(r)) && forall i | 0 <= i < |r.except| :: Unescaped(r.except[i])
  }

  /** A lower-case letter, and then lower-case letters, digits and underscores. */
  predicate CategoryName(c: string) {
    && |c| > 0 && c[0] >= 'a' && c[0] <= 'z'
    && forall i | 0 < i < |c| :: ('a' <= c[i] && c[i] <= 'z') || ('0' <= c[i] && c[i] <= '9') || c[i] == '_'
  }

  ghost predicate AcceptableCategory(p: Policy, c: string)
    requires c in p.rules
  {
    CategoryName(c) && forall i | 0 <= i < |p.rules[c]| :: AcceptableRule(p.rules[c][i])
  }

  // ----- Acceptance ---------------------------------------------------------------------------

  lemma ParsedApplies(expr: string, op: string, arg: string)
    ensures ParseOperator(expr) == Ok((op, arg)) <==> Applies(expr, op, arg) && arg != "" && Unescaped(arg)
  {
    hide ParseOperator;
    ParseOperatorExact(expr, op, arg);
  }

  lemma ExceptionsAre(items: seq<string>)
    ensures BadExcept(items) == None <==> forall i | 0 <= i < |items| :: Unescaped(items[i])
  {
    hide BadExcept;
    BadExceptExact(items);
  }

  lemma RuleAcceptance(r: Rule)
    ensures Compiles(r) <==> AcceptableRule(r)
  {
    hide ParseOperator, BadExcept, Applies, Unescaped;
    var expr := Expression(r);
    ExceptionsAre(r.except);
    if ParseOperator(expr).Ok? {
      ParsedApplies(expr, ParseOperator(expr).value.0, ParseOperator(expr).value.1);
    }
    if AcceptableExpression(expr) {
      var op, arg :| Applies(expr, op, arg) && (op == "contains" || op == "any") && arg != "" && Unescaped(arg);
      ParsedApplies(expr, op, arg);
    }
  }

  lemma CategoryNames(c: string)
    ensures ValidCategory(c) <==> CategoryName(c)
  {
  }

  /** Compilation succeeds exactly for a policy with rules, all of whose category names and rules are acceptable. */
  lemma CompilesExactly(isPrint: char -> bool, p: Policy)
    ensures CompileText(isPrint, Some(p)).Ok? <==> |p.rules| != 0 && forall c | c in p.rules :: AcceptableCategory(p, c)
  {
    hide CompileText, Compiles, AcceptableRule, ValidCategory, CategoryName;
    CompilesWhenAccepted(isPrint, p);
    forall c | c in p.rules
      ensures AcceptableCategory(p, c) <==> ValidCategory(c) && AllCompile(p.rules[c])
    {
      CategoryNames(c);
      forall i | 0 <= i < |p.rules[c]|
        ensures Compiles(p.rules[c][i]) <==> AcceptableRule(p.rules[c][i])
      {
        RuleAcceptance(p.rules[c][i]);
      }
    }
  }

  // ----- Errors -------------------------------------------------------------------------------

  /** The first thing wrong with a rule. */
  ghost predicate WhyRejected(r: Rule, reason: Reason) {
    var expr := Expression(r);
    match reason
    case MissingParen => '(' !in expr
    case BadFormat => '(' in expr && forall op, arg :: !Applies(expr, op, arg)
    case EmptyArgument => exists op :: Applies(expr, op, "")
    case DisallowedArgument(arg) => arg != "" && !Unescaped(arg) && exists op :: Applies(expr, op, arg)
    case UnknownOperator(op) =>
      op != "contains" && op != "any" && exists arg :: Applies(expr, op, arg) && arg != "" && Unescaped(arg)
    case DisallowedExcept(item) => AcceptableExpression(expr) && FirstBad(r.except, item)
  }

  ghost predicate FirstBad(items: seq<string>, item: string) {
    exists i :: 0 <= i < |items| && items[i] == item && !Unescaped(item) && forall j | 0 <= j < i :: Unescaped(items[j])
  }

  lemma {:induction false} BadExceptIsFirst(items: seq<string>)
    ensures BadExcept(items).Some? ==> FirstBad(items, BadExcept(items).value)
  {
    hide BadExcept;
    BadExceptExact(items);
  }

  /** Cutting an expression at its first parenthesis. */
  lemma AppliesCut(expr: string, op: string, arg: string)
    requires Applies(expr, op, arg)
    ensures var paren := IndexOf(expr, '(');
            && paren == |op| && expr[..paren] == op && expr[paren..] == "(\"" + arg + "\")"
  {
    hide IndexOf;
    var tail := "\"" + arg + "\")";
    assert expr == op + "(" + tail;
    IndexOfAt(op, '(', tail);
    assert expr == op + ("(\"" + arg + "\")");
  }

  lemma ParseFails(expr: string)
    requires ParseOperator(expr).Err?
    ensures match ParseOperator(expr).error
            case MissingParen => '(' !in expr
            case BadFormat => '(' in expr && forall op, arg :: !Applies(expr, op, arg)
            case EmptyArgument => exists op :: Applies(expr, op, "")
            case DisallowedArgument(arg) => arg != "" && !Unescaped(arg) && exists op :: Applies(expr, op, arg)
            case _ => false
  {
    hide IndexOf, HasDisallowed;
    var paren := IndexOf(expr, '(');
    if paren >= 0 {
      assert expr[paren] == '(';
      var op, rest := expr[..paren], expr[paren..];
      if ParseOperator(expr).error == BadFormat {
        forall op', arg'
          ensures !Applies(expr, op', arg')
        {
          if Applies(expr, op', arg') {
            AppliesCut(expr, op', arg');
            WellFormedRest(rest, arg');
          }
        }
      } else {
        var arg := rest[2..|rest| - 2];
        QuotedArgument(rest, arg);
        assert expr == op + rest;
        assert Applies(expr, op, arg) by {
          assert op + (("(\"" + arg) + "\")") == op + "(\"" + arg + "\")";
        }
        CleanIs(arg);
      }
    }
  }

  lemma WellFormedRest(rest: string, arg: string)
    requires rest == "(\"" + arg + "\")"
    ensures |rest| >= 4 && rest[0] == '(' && rest[1] == '"' && rest[|rest| - 1] == ')' && rest[|rest| - 2] == '"'
  {
  }

  /** A rule that does not compile is reported under its category and index, with the first thing wrong with it. */
  lemma RuleFails(isPrint: char -> bool, category: string, index: nat, r: Rule)
    requires RuleText(isPrint, category, index, r).Err?
    ensures RuleText(isPrint, category, index, r).error.BadRule?
    ensures var e := RuleText(isPrint, category, index, r).error;
            e.category == category && e.index == index && WhyRejected(r, e.reason)
  {
    hide ParseOperator, BadExcept, Applies, Unescaped;
    var expr := Expression(r);
    if ParseOperator(expr).Err? {
      ParseFails(expr);
    } else {
      var (op, arg) := ParseOperator(expr).value;
      ParsedApplies(expr, op, arg);
      BadExceptIsFirst(r.except);
    }
  }

  /** The earlier rules of a category are acceptable; the rule at the index is not. */
  lemma {:induction false} RulesFail(isPrint: char -> bool, category: string, rules: seq<Rule>, i: nat)
    requires i <= |rules| && RulesText(isPrint, category, rules, i).Err?
    ensures var e := RulesText(isPrint, category, rules, i).error;
            && e.BadRule? && e.category == category && i <= e.index < |rules| && WhyRejected(rules[e.index], e.reason)
            && forall j | i <= j < e.index :: AcceptableRule(rules[j])
    decreases |rules| - i
  {
    hide RuleText, WhyRejected, AcceptableRule;
    if RuleText(isPrint, category, i, rules[i]).Err? {
      RuleFails(isPrint, category, i, rules[i]);
    } else {
      RulesFail(isPrint, category, rules, i + 1);
      RuleTextOk(isPrint, category, i, rules[i]);
      RuleAcceptance(rules[i]);
    }
  }

  /** The error is in a category before which all categories are acceptable. */
  ghost predicate FirstError(p: Policy, e: CompileError) {
    match e
    case NilPolicy => false
    case NoRules => |p.rules| == 0
    case InvalidCategory(c) => c in p.rules && !CategoryName(c) && EarlierAcceptable(p, c)
    case BadRule(c, i, reason) =>
      && c in p.rules && CategoryName(c) && EarlierAcceptable(p, c)
      && i < |p.rules[c]| && WhyRejected(p.rules[c][i], reason)
      && forall j | 0 <= j < i :: AcceptableRule(p.rules[c][j])
  }

  ghost predicate EarlierAcceptable(p: Policy, c: string) {
    forall d | d in p.rules && Less(d, c) :: AcceptableCategory(p, d)
  }

  /** The category at fault, by its place in the list. */
  lemma {:induction false} CategoriesFail(isPrint: char -> bool, p: Policy, categories: seq<string>) returns (k: nat)
    requires forall c :: c in categories ==> c in p.rules
    requires CategoriesText(isPrint, p.rules, categories).Err?
    ensures k < |categories| && forall j | 0 <= j < k :: AcceptableCategory(p, categories[j])
    ensures match CategoriesText(isPrint, p.rules, categories).error
            case InvalidCategory(c) => c == categories[k] && !CategoryName(c)
            case BadRule(c, i, reason) =>
              && c == categories[k] && CategoryName(c) && i < |p.rules[c]| && WhyRejected(p.rules[c][i], reason)
              && forall j | 0 <= j < i :: AcceptableRule(p.rules[c][j])
            case _ => false
  {
    hide RulesText, WhyRejected, AcceptableRule, ValidCategory, CategoryName;
    var c := categories[0];
    CategoryNames(c);
    k := 0;
    if ValidCategory(c) {
      if RulesText(isPrint, c, p.rules[c], 0).Err? {
        RulesFail(isPrint, c, p.rules[c], 0);
      } else {
        RulesAcceptable(isPrint, c, p.rules[c]);
        var rest := CategoriesFail(isPrint, p, categories[1..]);
        k := rest + 1;
        forall j | 0 <= j < k
          ensures AcceptableCategory(p, categories[j])
        {
          if j > 0 { assert categories[j] == categories[1..][j - 1]; }
        }
      }
    }
  }

  lemma RulesAcceptable(isPrint: char -> bool, c: string, rules: seq<Rule>)
    requires RulesText(isPrint, c, rules, 0).Ok?
    ensures forall i | 0 <= i < |rules| :: AcceptableRule(rules[i])
  {
    hide RulesText, AcceptableRule, Compiles;
    RulesTextOk(isPrint, c, rules, 0);
    assert rules[0..] == rules;
    forall i | 0 <= i < |rules|
      ensures AcceptableRule(rules[i])
    {
      RuleAcceptance(rules[i]);
    }
  }

  /** When compilation fails, the error reported is the first one: in the first category by name that is not
      acceptable, at its first rule that is not, for the first thing wrong with it. */
  lemma {:induction false} CompileFailsFirst(isPrint: char -> bool, p: Policy)
    requires CompileText(isPrint, Some(p)).Err?
    ensures FirstError(p, CompileText(isPrint, Some(p)).error)
  {
    hide WhyRejected, AcceptableRule, CategoryName, CategoriesText, Less;
    if |p.rules| != 0 {
      var cats := Sorted(p.rules.Keys);
      var k := CategoriesFail(isPrint, p, cats);
      forall d | d in p.rules && Less(d, cats[k])
        ensures AcceptableCategory(p, d)
      {
        assert d in cats;
        var j :| 0 <= j < |cats| && cats[j] == d;
        SortedPlaces(cats, j, k);
      }
    }
  }

  lemma SortedPlaces(cats: seq<string>, j: nat, k: nat)
    requires StrictlySorted(cats) && j < |cats| && k < |cats| && Less(cats[j], cats[k])
    ensures j < k
  {
    hide Less;
    LessIrreflexive(cats[k]);
    if k < j {
      LessTransitive(cats[j], cats[k], cats[j]);
      LessIrreflexive(cats[j]);
    }
  }
}
