/** Compiling a policy preserves its meaning, stated on the surface syntax of its rules. */
module PolicyEvaluation {
  import opened Outcomes
  import opened RegoLexer
  import opened Rego
  import opened RegoReader
  import opened RegoEval
  import opened Ordering
  import opened PolicyDsl
  import opened PolicyMeaning
  import opened PolicyCorrectness

  // ----- What a policy calls for, without the compiler --------------------------------------

  /** `contains("x")` matches a capability with x in it, `any("x")` one that starts with x. */
  predicate Matches(expr: string, arg: string, cap: string) {
    || (expr == "contains" + "(\"" + arg + "\")" && Contains(cap, arg))
    || (expr == "any" + "(\"" + arg + "\")" && arg <= cap)
  }

  /** Some capability matches and is not excepted. */
  ghost predicate Triggered(expr: string, except: seq<string>, caps: seq<string>) {
    exists arg, i :: 0 <= i < |caps| && caps[i] !in except && Matches(expr, arg, caps[i])
  }

  ghost predicate RuleRaises(p: Policy, warn: bool, input: Input, c: string, i: int, m: string) {
    && c in p.rules && 0 <= i < |p.rules[c]| && c in input.capabilities && p.rules[c][i].message == m
    && Triggered(if warn then p.rules[c][i].warn else p.rules[c][i].deny, p.rules[c][i].except, input.capabilities[c])
  }

  /** `m` is the message of a deny rule (or a warn rule) triggered by the capabilities of its category. */
  ghost predicate Raised(p: Policy, warn: bool, input: Input, m: string) {
    exists c, i :: RuleRaises(p, warn, input, c, i, m)
  }

  predicate HasDeny(p: Policy) {
    exists c | c in p.rules :: exists i | 0 <= i < |p.rules[c]| :: p.rules[c][i].deny != ""
  }

  predicate HasWarn(p: Policy) {
    exists c | c in p.rules :: exists i | 0 <= i < |p.rules[c]| :: p.rules[c][i].warn != ""
  }

  // ----- One rule ---------------------------------------------------------------------------

  predicate ConditionHolds(r: Rule, cap: string)
    requires Compiles(r)
  {
    var (op, arg) := RuleOperator(r);
    if op == "contains" then Contains(cap, arg) else arg <= cap
  }

  /** The condition of a compiled rule holds exactly when its expression matches as written. */
  lemma ConditionIsMatch(r: Rule, cap: string)
    requires Compiles(r)
    ensures ConditionHolds(r, cap) <==> exists arg :: Matches(RuleExpr(r), arg, cap)
  {
    hide ParseOperator, Contains, HasDisallowed;
    var expr := RuleExpr(r);
    var (op, arg) := RuleOperator(r);
    ParseOperatorExact(expr, op, arg);
    if ConditionHolds(r, cap) {
      assert Matches(expr, arg, cap);
    }
    forall a | Matches(expr, a, cap) ensures ConditionHolds(r, cap) {
      var name := if expr == "contains" + "(\"" + a + "\")" && Contains(cap, a) then "contains" else "any";
      SameCall(op, arg, name, a);
    }
  }

  lemma SameCall(op: string, arg: string, op': string, arg': string)
    requires op + "(\"" + arg + "\")" == op' + "(\"" + arg' + "\")"
    requires '(' !in op && '(' !in op'
    ensures op == op' && arg == arg'
  {
    hide IndexOf;
    var s := op + "(\"" + arg + "\")";
    var t, t' := "\"" + arg + "\")", "\"" + arg' + "\")";
    assert s == op + "(" + t;
    assert s == op' + "(" + t';
    IndexOfAt(op, '(', t);
    IndexOfAt(op', '(', t');
    assert op == s[..|op|] == s[..|op'|] == op';
    assert t == s[|op| + 1..] == s[|op'| + 1..] == t';
    assert arg == t[1..|t| - 2] == t'[1..|t'| - 2] == arg';
  }

  lemma BodyForCap(category: string, r: Rule, cap: string, input: Input, glob: Glob)
    requires Compiles(r)
    ensures BodyMessages(RuleBody(category, r)[1..], Some(cap), None, input, glob)
         == if ConditionHolds(r, cap) && cap !in r.except then {r.message} else {}
  {
    hide ParseOperator, Contains;
    var end := [Msg(r.message)];
    assert end[1..] == [];
    assert BodyMessages(end, Some(cap), None, input, glob) == {r.message};
    var l := Condition(r);
    assert !l.SomeCap? && !l.Msg?;
    assert Holds(l, Some(cap), input, glob) <==> ConditionHolds(r, cap);
    if r.except == [] {
      var body := [l, Msg(r.message)];
      assert RuleBody(category, r)[1..] == body;
      assert body[1..] == end;
    } else {
      var body := [l, NotIn(Cap, r.except), Msg(r.message)];
      assert RuleBody(category, r)[1..] == body;
      var rest := [NotIn(Cap, r.except), Msg(r.message)];
      assert body[1..] == rest && rest[1..] == end;
      assert Holds(rest[0], Some(cap), input, glob) <==> cap !in r.except;
      assert BodyMessages(rest, Some(cap), None, input, glob) == if cap !in r.except then {r.message} else {};
    }
  }

  /** A compiled rule raises its own message, and only that, exactly when it is triggered. */
  lemma StatementMessages(category: string, r: Rule, input: Input, glob: Glob, m: string)
    requires Compiles(r)
    ensures m in BodyMessages(RuleBody(category, r), None, None, input, glob)
       <==> m == r.message && category in input.capabilities
            && Triggered(RuleExpr(r), r.except, input.capabilities[category])
  {
    hide ParseOperator, Contains, Matches, Compiles, ConditionHolds;
    if category in input.capabilities {
      var caps := input.capabilities[category];
      var rest := RuleBody(category, r)[1..];
      SomeMessagesAre(caps, rest, None, input, glob, m);
      forall i | 0 <= i < |caps|
        ensures m in BodyMessages(rest, Some(caps[i]), None, input, glob)
           <==> m == r.message && caps[i] !in r.except && exists arg :: Matches(RuleExpr(r), arg, caps[i])
      {
        BodyForCap(category, r, caps[i], input, glob);
        ConditionIsMatch(r, caps[i]);
      }
    }
  }

  // ----- All rules --------------------------------------------------------------------------

  lemma {:induction false} CategoriesStatementsAre(rules: map<string, seq<Rule>>, cats: seq<string>, s: Statement)
    requires CategoriesCompile(rules, cats)
    ensures s in CategoriesStatements(rules, cats)
       <==> exists j, i :: 0 <= j < |cats| && 0 <= i < |rules[cats[j]]| && s == RuleStatement(cats[j], rules[cats[j]][i])
  {
    hide ValidCategory, Compiles, RuleStatement;
    if cats != [] {
      var tail := cats[1..];
      var c := cats[0];
      CategoriesStatementsAre(rules, tail, s);
      if s in CategoriesStatements(rules, cats) {
        if s in RulesStatements(c, rules[c]) {
          var i :| 0 <= i < |rules[c]| && RulesStatements(c, rules[c])[i] == s;
          assert s == RuleStatement(cats[0], rules[cats[0]][i]);
        } else {
          var j, i :| 0 <= j < |tail| && 0 <= i < |rules[tail[j]]| && s == RuleStatement(tail[j], rules[tail[j]][i]);
          assert cats[j + 1] == tail[j];
        }
      }
      if j, i :| 0 <= j < |cats| && 0 <= i < |rules[cats[j]]| && s == RuleStatement(cats[j], rules[cats[j]][i]) {
        if j == 0 {
          assert RulesStatements(c, rules[c])[i] == s;
        } else {
          assert cats[j] == tail[j - 1];
        }
      }
    }
  }

  /** The partial rules of the compiled module are the policy's rules. */
  lemma PartialsAre(p: Policy, s: Statement)
    requires Accepted(p)
    ensures s in Partials(p)
       <==> exists c, i :: c in p.rules && 0 <= i < |p.rules[c]| && s == RuleStatement(c, p.rules[c][i])
  {
    hide ValidCategory, Compiles, RuleStatement, CategoriesStatements;
    AcceptedCompile(p);
    var cats := Sorted(p.rules.Keys);
    CategoriesStatementsAre(p.rules, cats, s);
    if c, i :| c in p.rules && 0 <= i < |p.rules[c]| && s == RuleStatement(c, p.rules[c][i]) {
      assert c in cats;
      var j :| 0 <= j < |cats| && cats[j] == c;
      assert s == RuleStatement(cats[j], p.rules[cats[j]][i]);
    }
    if s in CategoriesStatements(p.rules, cats) {
      var j, i :| 0 <= j < |cats| && 0 <= i < |p.rules[cats[j]]| && s == RuleStatement(cats[j], p.rules[cats[j]][i]);
      assert cats[j] in cats;
    }
  }

  function NameOf(warn: bool): string {
    if warn then "warnings" else "deny"
  }

  lemma RuleOf(p: Policy, c: string, i: int)
    requires Parsed(p) && c in p.rules && 0 <= i < |p.rules[c]|
    ensures var r := p.rules[c][i]; forall warn: bool ::
      && (RuleSet(r) == NameOf(warn) <==> (if warn then r.warn else r.deny) != "")
      && (RuleSet(r) == NameOf(warn) ==> RuleExpr(r) == if warn then r.warn else r.deny)
  {
  }

  /** A partial set of the compiled module is exactly the set of messages the policy raises. */
  lemma SetIsRaised(p: Policy, warn: bool, input: Input, glob: Glob, m: string)
    requires Parsed(p) && Accepted(p)
    ensures m in SetOf(CompiledModule(p).statements, NameOf(warn), input, glob) <==> Raised(p, warn, input, m)
  {
    hide ValidCategory, Compiles, Partials, BodyMessages, Triggered, RuleBody, RuleSet, RuleExpr, SetOf, Parsed;
    var ss := CompiledModule(p).statements;
    var partials := Partials(p);
    SetOfIs(ss, NameOf(warn), input, glob, m);
    if m in SetOf(ss, NameOf(warn), input, glob) {
      var k :| 0 <= k < |ss| && Adds(ss[k], NameOf(warn)) && m in Yields(ss[k], input, glob);
      assert 1 <= k && k - 1 < |partials| && ss[k] == partials[k - 1];
      PartialsAre(p, ss[k]);
      var c, i :| c in p.rules && 0 <= i < |p.rules[c]| && ss[k] == RuleStatement(c, p.rules[c][i]);
      StatementMessages(c, p.rules[c][i], input, glob, m);
      RuleOf(p, c, i);
      assert RuleRaises(p, warn, input, c, i, m);
    }
    if Raised(p, warn, input, m) {
      var c, i :| RuleRaises(p, warn, input, c, i, m);
      var s := RuleStatement(c, p.rules[c][i]);
      EmptyNeverTriggers(p.rules[c][i].except, input.capabilities[c]);
      RuleOf(p, c, i);
      StatementMessages(c, p.rules[c][i], input, glob, m);
      PartialsAre(p, s);
      assert s in partials;
      var k :| 0 <= k < |partials| && partials[k] == s;
      assert ss[k + 1] == s;
    }
  }

  lemma EmptyNeverTriggers(except: seq<string>, caps: seq<string>)
    ensures !Triggered("", except, caps)
  {
  }

  // ----- The whole module -------------------------------------------------------------------

  lemma DefinesWhen(p: Policy, others: Others, warn: bool)
    requires Parsed(p) && Accepted(p)
    ensures Defines(CompiledModule(p).statements, others, NameOf(warn))
       <==> (if warn then HasWarn(p) else HasDeny(p)) || NameOf(warn) in others.sets || NameOf(warn) in others.complete
  {
    hide ValidCategory, Compiles, Partials, RuleBody, RuleSet, RuleExpr, Parsed;
    var ss, partials, name := CompiledModule(p).statements, Partials(p), NameOf(warn);
    if k :| 0 <= k < |ss| && Adds(ss[k], name) {
      assert 1 <= k && k - 1 < |partials| && ss[k] == partials[k - 1];
      PartialsAre(p, ss[k]);
      var c, i :| c in p.rules && 0 <= i < |p.rules[c]| && ss[k] == RuleStatement(c, p.rules[c][i]);
      RuleOf(p, c, i);
    }
    if if warn then HasWarn(p) else HasDeny(p) {
      var c :| c in p.rules && exists i :: 0 <= i < |p.rules[c]| && (if warn then p.rules[c][i].warn else p.rules[c][i].deny) != "";
      var i :| 0 <= i < |p.rules[c]| && (if warn then p.rules[c][i].warn else p.rules[c][i].deny) != "";
      var s := RuleStatement(c, p.rules[c][i]);
      RuleOf(p, c, i);
      PartialsAre(p, s);
      assert s in partials;
      var k :| 0 <= k < |partials| && partials[k] == s;
      assert ss[k + 1] == s && Adds(ss[k + 1], name);
    }
  }

  lemma PartialsArePartial(p: Policy)
    requires Accepted(p)
    ensures forall k | 0 <= k < |Partials(p)| :: Partials(p)[k].Partial?
  {
    hide ValidCategory, Compiles, Partials;
    forall k | 0 <= k < |Partials(p)| ensures Partials(p)[k].Partial? {
      PartialsAre(p, Partials(p)[k]);
    }
  }

  /** Only decision rules contribute decision values. */
  lemma {:induction false} NoDecisionsIn(ss: seq<Statement>, others: Others, n: nat, input: Input, glob: Glob)
    requires n <= |ss| && forall k | 0 <= k < n :: !ss[k].Decide?
    ensures DecisionValues(ss, others, n, input, glob) == {}
  {
    hide DecisionHolds;
    if n > 0 {
      NoDecisionsIn(ss, others, n - 1, input, glob);
    }
  }

  /** The two decision rules of the module never hold together, and one holds when a set is not empty. */
  lemma DecisionValuesAre(p: Policy, others: Others, input: Input, glob: Glob)
    requires Accepted(p)
    ensures var ss := CompiledModule(p).statements;
            var deny, warnings := WholeSet(ss, others, "deny", input, glob), WholeSet(ss, others, "warnings", input, glob);
            DecisionValues(ss, others, |ss|, input, glob) ==
              if deny != {} then {"deny"} else if warnings != {} then {"warn"} else {}
  {
    hide ValidCategory, Compiles, Partials, WholeSet, Accepted;
    var ss, n := CompiledModule(p).statements, 1 + |Partials(p)|;
    var deny, warnings := WholeSet(ss, others, "deny", input, glob), WholeSet(ss, others, "warnings", input, glob);
    PartialsArePartial(p);
    NoDecisionsIn(ss, others, n, input, glob);
    assert |ss| == n + 2;
    assert ss[n] == DECISIONS[0] && ss[n + 1] == DECISIONS[1];
    assert ss[n].conds[0] == Positive("deny");
    assert DecisionHolds(ss[n], ss, others, input, glob) <==> deny != {} by {
      assert CondHolds(ss[n].conds[0], ss, others, input, glob) <==> |deny| > 0;
    }
    assert DecisionHolds(ss[n + 1], ss, others, input, glob) <==> deny == {} && warnings != {} by {
      var s := ss[n + 1];
      assert s.conds == [Zero("deny"), Positive("warnings")];
      assert CondHolds(s.conds[0], ss, others, input, glob) <==> |deny| == 0;
      assert CondHolds(s.conds[1], ss, others, input, glob) <==> |warnings| > 0;
    }
    assert DecisionValues(ss, others, n + 1, input, glob) == if deny != {} then {"deny"} else {};
    assert DecisionValues(ss, others, n + 2, input, glob)
        == if deny != {} then {"deny"} else if warnings != {} then {"warn"} else {};
  }

  lemma ReferencesAre(p: Policy, others: Others)
    requires Accepted(p)
    ensures var ss := CompiledModule(p).statements;
            References(ss, others) <==> Defines(ss, others, "deny") && Defines(ss, others, "warnings")
  {
    hide ValidCategory, Compiles, Partials, Defines, Accepted;
    var ss, n := CompiledModule(p).statements, 1 + |Partials(p)|;
    PartialsArePartial(p);
    assert ss[n] == DECISIONS[0] && ss[n + 1] == DECISIONS[1];
    assert ss[n].conds == [Positive("deny")];
    assert ss[n + 1].conds == [Zero("deny"), Positive("warnings")];
    if References(ss, others) {
      assert Defines(ss, others, ss[n + 1].conds[0].name);
      assert Defines(ss, others, ss[n + 1].conds[1].name);
    }
    assert forall k | 0 <= k < |ss| && ss[k].Decide? :: k == n || k == n + 1;
  }

  /** The set of messages raised by the deny (or warn) rules. */
  ghost predicate IsRaisedSet(s: set<string>, p: Policy, warn: bool, input: Input) {
    forall m :: m in s <==> Raised(p, warn, input, m)
  }

  lemma NoLogEntries(p: Policy, input: Input, glob: Glob)
    requires Accepted(p)
    ensures SetOf(CompiledModule(p).statements, "log_entries", input, glob) == {}
  {
    hide ValidCategory, Compiles, Partials, BodyMessages, SetOf, Accepted, RuleBody;
    var ss := CompiledModule(p).statements;
    forall m ensures m !in SetOf(ss, "log_entries", input, glob) {
      SetOfIs(ss, "log_entries", input, glob, m);
      if m in SetOf(ss, "log_entries", input, glob) {
        var k :| 0 <= k < |ss| && Adds(ss[k], "log_entries") && m in Yields(ss[k], input, glob);
        assert ss[k] == Partials(p)[k - 1];
        PartialsAre(p, ss[k]);
      }
    }
  }

  /** Every set rule of the module adds to `deny` or `warnings`. */
  lemma KindsAre(p: Policy, others: Others)
    requires Accepted(p)
    requires others.complete !! {"deny", "warnings"} && "decision" !in others.sets
    ensures OneKindEach(CompiledModule(p).statements, others)
  {
    hide ValidCategory, Compiles, Partials, Accepted, RuleBody;
    var ss := CompiledModule(p).statements;
    PartialsArePartial(p);
    forall k | 0 <= k < |ss| && (ss[k].Partial? || ss[k].Fact?)
      ensures ss[k].name in {"deny", "warnings"}
    {
      assert 1 <= k && k - 1 < |Partials(p)| && ss[k] == Partials(p)[k - 1];
      PartialsAre(p, ss[k]);
    }
  }

  // ----- The allowlist module ---------------------------------------------------------------

  const REFUSED: string := "publisher not in allowlist"

  /** Some entry matches the signer; glob patterns of identities stop at "/". */
  predicate PublisherAllowed(entries: seq<AllowlistEntry>, signer: Attestation, identityGlob: Glob) {
    entries == []
    || exists i | 0 <= i < |entries| :: identityGlob(entries[i].certIdentity, signer.signedBy) && entries[i].issuer == signer.issuer
  }

  /** A policy with an allowlist is loaded together with a second module, which has a rule of its own for
      `deny`; one without is loaded alone. */
  function LoadedBeside(p: Policy, input: Input, identityGlob: Glob): Others {
    if p.allowlist == [] then NO_OTHERS
    else Others({"publisher_allowed"},
                map["deny" := if PublisherAllowed(p.allowlist, input.attestation, identityGlob) then {} else {REFUSED}])
  }

  /** The signer is one the policy refuses. */
  predicate Refused(p: Policy, input: Input, identityGlob: Glob) {
    p.allowlist != []
    && forall i | 0 <= i < |p.allowlist| ::
         !identityGlob(p.allowlist[i].certIdentity, input.attestation.signedBy) || p.allowlist[i].issuer != input.attestation.issuer
  }

  /** What a policy denies: the messages its rules raise, and the refusal of the signer. */
  ghost predicate Denied(p: Policy, input: Input, identityGlob: Glob, m: string) {
    Raised(p, false, input, m) || (m == REFUSED && Refused(p, input, identityGlob))
  }

  ghost predicate IsDeniedSet(s: set<string>, p: Policy, input: Input, identityGlob: Glob) {
    forall m :: m in s <==> Denied(p, input, identityGlob, m)
  }

  /** MEANING.  A policy accepted by the parser and the compiler, loaded with its allowlist, is evaluated
      without a conflict; it is rejected by the engine exactly when it lacks warn rules, or lacks both deny
      rules and an allowlist; otherwise `deny` is exactly the messages its deny rules call for and the
      refusal of a signer that no entry matches, `warnings` exactly the messages its warn rules call for, and
      the decision is deny if anything is denied, else warn if anything is warned, else allow. */
  lemma ModuleMeaning(p: Policy, input: Input, glob: Glob, identityGlob: Glob)
    requires Parsed(p) && Accepted(p)
    ensures var o := Evaluate(CompiledModule(p), LoadedBeside(p, input, identityGlob), input, glob);
            && (o.Evaluated? || o.UnsafeReference?)
            && (o.Evaluated? <==> HasWarn(p) && (HasDeny(p) || p.allowlist != []))
            && (o.Evaluated? ==>
                && IsDeniedSet(o.deny, p, input, identityGlob) && IsRaisedSet(o.warnings, p, true, input) && o.logEntries == {}
                && o.decision == Some(if o.deny != {} then "deny" else if o.warnings != {} then "warn" else "allow"))
  {
    hide ValidCategory, Compiles, Partials, SetOf, Accepted, Parsed, DecisionValues, Defines, References, HasDeny, HasWarn,
         Raised, Only, OneKindEach;
    var ss, others := CompiledModule(p).statements, LoadedBeside(p, input, identityGlob);
    ReferencesAre(p, others);
    DefinesWhen(p, others, false);
    DefinesWhen(p, others, true);
    KindsAre(p, others);
    DecisionValuesAre(p, others, input, glob);
    forall m ensures m in WholeSet(ss, others, "deny", input, glob) <==> Denied(p, input, identityGlob, m) {
      SetIsRaised(p, false, input, glob, m);
    }
    forall m ensures m in WholeSet(ss, others, "warnings", input, glob) <==> Raised(p, true, input, m) {
      SetIsRaised(p, true, input, glob, m);
    }
    NoLogEntries(p, input, glob);
    assert ss[0] == Default("allow");
    var values := DecisionValues(ss, others, |ss|, input, glob);
    if values != {} {
      var d := Only(values);
      assert values == {d};
      assert d in values;
    }
  }

  /** END TO END.  For every policy the parser and the compiler accept whose quoted strings are legible
      and which the engine does not reject, the emitted text, loaded with the allowlist, means what the policy
      says. */
  lemma CompiledTextMeaning(isPrint: char -> bool, p: Policy, input: Input, glob: Glob, identityGlob: Glob)
    requires Parsed(p) && CompileText(isPrint, Some(p)).Ok?
    requires Accepted(p) ==> LegiblePolicy(isPrint, p)
    requires HasWarn(p) && (HasDeny(p) || p.allowlist != [])
    ensures var m := Read(CompileText(isPrint, Some(p)).value);
            m.Some? &&
            var o := Evaluate(m.value, LoadedBeside(p, input, identityGlob), input, glob);
            && o.Evaluated? && IsDeniedSet(o.deny, p, input, identityGlob) && IsRaisedSet(o.warnings, p, true, input)
            && (o.decision == Some("deny") <==> exists x :: Denied(p, input, identityGlob, x))
            && (o.decision == Some("warn") <==> (exists x :: Raised(p, true, input, x)) && !exists x :: Denied(p, input, identityGlob, x))
            && (o.decision == Some("allow") <==> !exists x :: Denied(p, input, identityGlob, x) || Raised(p, true, input, x))
  {
    hide ValidCategory, Accepted, Parsed, Evaluate, Read, CompiledModule, HasDeny, HasWarn, LegiblePolicy, CompileText, Raised, Denied, LoadedBeside;
    CompilesWhenAccepted(isPrint, p);
    ReadCompiled(isPrint, p);
    ModuleMeaning(p, input, glob, identityGlob);
    var o := Evaluate(CompiledModule(p), LoadedBeside(p, input, identityGlob), input, glob);
    DecisionStrings();
    if o.deny != {} {
      var x :| x in o.deny;
      assert Denied(p, input, identityGlob, x);
    }
    if o.warnings != {} {
      var x :| x in o.warnings;
      assert Raised(p, true, input, x);
    }
  }

  lemma DecisionStrings()
    ensures "deny" != "warn" && "warn" != "allow" && "deny" != "allow"
  {
  }

  // ----- The conditions of the end-to-end theorem can be met ---------------------------------

  function BothKinds(arg: string, message: string): Policy {
    Policy(1, map["network" := [Rule("contains" + "(\"" + arg + "\")", "", [], message),
                                Rule("", "any" + "(\"" + arg + "\")", [arg], message)]], [])
  }

  /** Every allowed argument and every legible message make a policy that is accepted, legible and of both kinds. */
  lemma BothKindsAreAccepted(isPrint: char -> bool, arg: string, message: string)
    requires arg != "" && !HasDisallowed(arg) && AllLegible(isPrint, arg) && message != "" && AllLegible(isPrint, message)
    ensures var p := BothKinds(arg, message);
            Parsed(p) && HasDeny(p) && HasWarn(p) && Accepted(p) && LegiblePolicy(isPrint, p)
  {
    hide HasDisallowed, AllLegible, ParseOperator;
    ParseOperatorAccepts("contains", arg);
    ParseOperatorAccepts("any", arg);
    var p := BothKinds(arg, message);
    var deny, warn := p.rules["network"][0], p.rules["network"][1];
    assert deny.deny != "" && warn.warn != "";
    assert RuleExpr(deny) == "contains" + "(\"" + arg + "\")" && RuleExpr(warn) == "any" + "(\"" + arg + "\")";
    assert Compiles(deny);
    assert BadExcept([arg][1..]) == None;
    assert Compiles(warn);
    assert ValidCategory("network");
    assert LegibleRule(isPrint, deny) && LegibleRule(isPrint, warn);
  }

  // ----- Where the end-to-end theorem does not apply ------------------------------------------

  function OneKind(arg: string, message: string, allowlist: seq<AllowlistEntry>): Policy {
    Policy(1, map["network" := [Rule("contains" + "(\"" + arg + "\")", "", [], message)]], allowlist)
  }

  /** A policy of deny rules only is accepted, and its text reads back, but no input is decided: with or without
      an allowlist the engine rejects the reference to `warnings`. */
  lemma DenyOnlyIsRejected(isPrint: char -> bool, arg: string, message: string, allowlist: seq<AllowlistEntry>,
                           input: Input, glob: Glob, identityGlob: Glob)
    requires arg != "" && !HasDisallowed(arg) && AllLegible(isPrint, arg) && message != "" && AllLegible(isPrint, message)
    ensures var p := OneKind(arg, message, allowlist);
            && Parsed(p) && CompileText(isPrint, Some(p)).Ok?
            && Read(CompileText(isPrint, Some(p)).value).Some?
            && Evaluate(Read(CompileText(isPrint, Some(p)).value).value, LoadedBeside(p, input, identityGlob), input, glob) == UnsafeReference
  {
    hide HasDisallowed, AllLegible, ParseOperator, CompileText, Read, CompiledModule, Evaluate, IsRaisedSet, IsDeniedSet, LoadedBeside;
    var p := OneKind(arg, message, allowlist);
    var deny := p.rules["network"][0];
    ParseOperatorAccepts("contains", arg);
    assert RuleExpr(deny) == "contains" + "(\"" + arg + "\")";
    assert Compiles(deny);
    assert ValidCategory("network");
    assert LegibleRule(isPrint, deny);
    assert deny.deny != "" && deny.warn == "";
    assert !HasWarn(p);
    ReadCompiled(isPrint, p);
    ModuleMeaning(p, input, glob, identityGlob);
  }

  function WarnOnly(arg: string, message: string, allowlist: seq<AllowlistEntry>): Policy {
    Policy(1, map["network" := [Rule("", "contains" + "(\"" + arg + "\")", [], message)]], allowlist)
  }

  /** A policy of warn rules only is rejected exactly when it has no allowlist, whose module defines `deny`. */
  lemma WarnOnlyNeedsAllowlist(isPrint: char -> bool, arg: string, message: string, allowlist: seq<AllowlistEntry>,
                               input: Input, glob: Glob, identityGlob: Glob)
    requires arg != "" && !HasDisallowed(arg) && AllLegible(isPrint, arg) && message != "" && AllLegible(isPrint, message)
    ensures var p := WarnOnly(arg, message, allowlist);
            && Parsed(p) && CompileText(isPrint, Some(p)).Ok?
            && Read(CompileText(isPrint, Some(p)).value).Some?
            && (Evaluate(Read(CompileText(isPrint, Some(p)).value).value, LoadedBeside(p, input, identityGlob), input, glob) == UnsafeReference
                <==> allowlist == [])
  {
    hide HasDisallowed, AllLegible, ParseOperator, CompileText, Read, CompiledModule, Evaluate, IsRaisedSet, IsDeniedSet, LoadedBeside;
    var p := WarnOnly(arg, message, allowlist);
    var warn := p.rules["network"][0];
    ParseOperatorAccepts("contains", arg);
    assert RuleExpr(warn) == "contains" + "(\"" + arg + "\")";
    assert Compiles(warn);
    assert ValidCategory("network");
    assert LegibleRule(isPrint, warn);
    assert warn.warn != "" && warn.deny == "";
    assert HasWarn(p) && !HasDeny(p);
    ReadCompiled(isPrint, p);
    ModuleMeaning(p, input, glob, identityGlob);
  }

  /** A message with a NUL character is accepted by parser and compiler, and the text cannot be read. */
  lemma NulMessageIsUnreadable(isPrint: char -> bool, arg: string)
    requires arg != "" && !HasDisallowed(arg) && AllLegible(isPrint, arg)
    ensures var p := OneKind(arg, "\0", []);
            && Parsed(p) && CompileText(isPrint, Some(p)).Ok?
            && Read(CompileText(isPrint, Some(p)).value) == None
  {
    hide HasDisallowed, ParseOperator, CompileText, Read, CompiledModule;
    var p := OneKind(arg, "\0", []);
    var deny := p.rules["network"][0];
    ParseOperatorAccepts("contains", arg);
    assert RuleExpr(deny) == "contains" + "(\"" + arg + "\")";
    assert Compiles(deny);
    assert ValidCategory("network");
    assert !Legible(isPrint, deny.message[0]);
    assert !LegibleRule(isPrint, deny);
    ReadCompiled(isPrint, p);
  }
}
