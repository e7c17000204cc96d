/** What a module of the fragment means: the messages of its partial sets, and its decision. */
module RegoEval {
  import opened Outcomes
  import opened Rego

  /** The capabilities of a skill by category, the fields of a runtime action, and who signed. */
  datatype Input = Input(capabilities: map<string, seq<string>>, action: map<string, string>, attestation: Attestation)

  /** The signer's identity and issuer. */
  datatype Attestation = Attestation(signedBy: string, issuer: string)

  /** `glob.match(pattern, ["."], value)` is left to the policy engine. */
  type Glob = (string, string) -> bool

  /** Substring test. */
  predicate Contains(s: string, part: string) {
    part <= s || (s != "" && Contains(s[1..], part))
  }

  /** The value of a reference, if it is defined. */
  function RefValue(r: Ref, cap: Option<string>, input: Input): Option<string> {
    match r
    case Cap => cap
    case Action(field) => if field in input.action then Some(input.action[field]) else None
  }

  /** Whether a condition holds.  An undefined reference makes a condition fail and the negation of
      a condition succeed. */
  predicate Holds(l: Literal, cap: Option<string>, input: Input, glob: Glob)
    requires !l.SomeCap? && !l.Msg?
  {
    match l
    case ContainsText(ref, arg) => var v := RefValue(ref, cap, input); v.Some? && Contains(v.value, arg)
    case StartsWith(ref, arg) => var v := RefValue(ref, cap, input); v.Some? && arg <= v.value
    case GlobMatch(pattern, ref) => var v := RefValue(ref, cap, input); v.Some? && glob(pattern, v.value)
    case In(ref, items) => var v := RefValue(ref, cap, input); v.Some? && v.value in items
    case NotIn(ref, items) => var v := RefValue(ref, cap, input); !(v.Some? && v.value in items)
  }

  /** The messages a body produces from its bindings so far; `some` ranges over the capabilities. */
  function BodyMessages(body: seq<Literal>, cap: Option<string>, msg: Option<string>, input: Input, glob: Glob): set<string>
    decreases |body|, 0
  {
    if body == [] then (if msg.Some? then {msg.value} else {})
    else
      match body[0]
      case SomeCap(category) =>
        if category in input.capabilities
        then SomeMessages(input.capabilities[category], body[1..], msg, input, glob)
        else {}
      case Msg(text) => BodyMessages(body[1..], cap, Some(text), input, glob)
      case l => if Holds(l, cap, input, glob) then BodyMessages(body[1..], cap, msg, input, glob) else {}
  }

  function SomeMessages(caps: seq<string>, body: seq<Literal>, msg: Option<string>, input: Input, glob: Glob): set<string>
    decreases |body|, 1, |caps|
  {
    if caps == [] then {}
    else BodyMessages(body, Some(caps[0]), msg, input, glob) + SomeMessages(caps[1..], body, msg, input, glob)
  }

  predicate Adds(s: Statement, name: string) {
    (s.Partial? || s.Fact?) && s.name == name
  }

  /** What a rule adds to its set. */
  function Yields(s: Statement, input: Input, glob: Glob): set<string> {
    match s
    case Partial(_, body) => BodyMessages(body, None, None, input, glob)
    case Fact(_, text) => {text}
    case _ => {}
  }

  /** The part of the set `name` that these rules add. */
  function SetOf(statements: seq<Statement>, name: string, input: Input, glob: Glob): set<string> {
    if statements == [] then {}
    else
      var rest := SetOf(statements[1..], name, input, glob);
      if Adds(statements[0], name) then Yields(statements[0], input, glob) + rest else rest
  }

  /** The other modules of the same package, as far as they matter here: the names that have complete rules,
      and the sets they add to, with what they add for the input at hand. */
  datatype Others = Others(complete: set<string>, sets: map<string, set<string>>)

  const NO_OTHERS: Others := Others({}, map[])

  /** The partial set `name` of the package. */
  function WholeSet(statements: seq<Statement>, others: Others, name: string, input: Input, glob: Glob): set<string> {
    SetOf(statements, name, input, glob) + if name in others.sets then others.sets[name] else {}
  }

  predicate Defines(statements: seq<Statement>, others: Others, name: string) {
    || name in others.sets || name in others.complete
    || exists i | 0 <= i < |statements| :: Adds(statements[i], name)
  }

  /** A decision rule may only mention names that some rule defines; the engine rejects a module with
      any other reference before evaluating it. */
  predicate References(statements: seq<Statement>, others: Others) {
    forall i | 0 <= i < |statements| && statements[i].Decide? ::
      forall j | 0 <= j < |statements[i].conds| :: Defines(statements, others, statements[i].conds[j].name)
  }

  /** No name has set rules as well as complete ones; the engine rejects such a package too. */
  predicate OneKindEach(statements: seq<Statement>, others: Others) {
    && (forall i | 0 <= i < |statements| && (statements[i].Partial? || statements[i].Fact?) ::
          statements[i].name !in others.complete && statements[i].name != "decision")
    && ((exists i | 0 <= i < |statements| :: statements[i].Decide? || statements[i].Default?) ==> "decision" !in others.sets)
  }

  predicate CondHolds(c: Cond, statements: seq<Statement>, others: Others, input: Input, glob: Glob) {
    var n := |WholeSet(statements, others, c.name, input, glob)|;
    match c
    case Positive(_) => n > 0
    case Zero(_) => n == 0
  }

  predicate DecisionHolds(s: Statement, statements: seq<Statement>, others: Others, input: Input, glob: Glob)
    requires s.Decide?
  {
    forall j | 0 <= j < |s.conds| :: CondHolds(s.conds[j], statements, others, input, glob)
  }

  /** The values of the decision rules whose bodies hold, among the first `n` statements. */
  function DecisionValues(statements: seq<Statement>, others: Others, n: nat, input: Input, glob: Glob): set<string>
    requires n <= |statements|
  {
    if n == 0 then {}
    else
      var before := DecisionValues(statements, others, n - 1, input, glob);
      var s := statements[n - 1];
      if s.Decide? && DecisionHolds(s, statements, others, input, glob) then before + {s.value} else before
  }

  function DefaultDecision(statements: seq<Statement>): Option<string> {
    if statements == [] then None
    else if statements[0].Default? then Some(statements[0].value)
    else DefaultDecision(statements[1..])
  }

  datatype Outcome =
    | Evaluated(deny: set<string>, warnings: set<string>, logEntries: set<string>, decision: Option<string>)
    | UnsafeReference      // the package is rejected when it is prepared
    | MixedKinds           // likewise
    | Conflict             // two values for the complete rule `decision`

  /** The three sets of the package, and the decision this module's rules take. */
  function Evaluate(m: Module, others: Others, input: Input, glob: Glob): Outcome {
    if !OneKindEach(m.statements, others) then MixedKinds
    else if !References(m.statements, others) then UnsafeReference
    else
      var values := DecisionValues(m.statements, others, |m.statements|, input, glob);
      if |values| > 1 then Conflict
      else
        Evaluated(
          WholeSet(m.statements, others, "deny", input, glob),
          WholeSet(m.statements, others, "warnings", input, glob),
          WholeSet(m.statements, others, "log_entries", input, glob),
          if values == {} then DefaultDecision(m.statements) else Some(Only(values)))
  }

  function Only(s: set<string>): (x: string)
    requires |s| == 1
    ensures s == {x}
  {
    OnlyOne(s);
    var x :| x in s;
    x
  }

  lemma OnlyOne(s: set<string>)
    requires |s| == 1
    ensures forall x, y | x in s && y in s :: x == y
    ensures forall x | x in s :: s == {x}
  {
    var a :| a in s;
    assert |s - {a}| == 0;
    assert s == {a};
  }

  // ----- Reading the definitions ------------------------------------------------------------

  /** A `some` block produces a message exactly when its body does for one of the capabilities. */
  lemma {:induction false} SomeMessagesAre(caps: seq<string>, body: seq<Literal>, msg: Option<string>, input: Input, glob: Glob, m: string)
    ensures m in SomeMessages(caps, body, msg, input, glob)
       <==> exists i :: 0 <= i < |caps| && m in BodyMessages(body, Some(caps[i]), msg, input, glob)
  {
    if caps != [] {
      SomeMessagesAre(caps[1..], body, msg, input, glob, m);
      if m in SomeMessages(caps[1..], body, msg, input, glob) {
        var i :| 0 <= i < |caps[1..]| && m in BodyMessages(body, Some(caps[1..][i]), msg, input, glob);
        assert caps[i + 1] == caps[1..][i];
      }
      if i :| 0 <= i < |caps| && m in BodyMessages(body, Some(caps[i]), msg, input, glob) {
        assert i > 0 ==> caps[i] == caps[1..][i - 1];
      }
    }
  }

  /** A partial set holds exactly the messages of the rules that add to it. */
  lemma {:induction false} SetOfIs(statements: seq<Statement>, name: string, input: Input, glob: Glob, m: string)
    ensures m in SetOf(statements, name, input, glob)
       <==> exists i :: 0 <= i < |statements| && Adds(statements[i], name) && m in Yields(statements[i], input, glob)
  {
    if statements != [] {
      var rest := statements[1..];
      SetOfIs(rest, name, input, glob, m);
      if m in SetOf(rest, name, input, glob) {
        var i :| 0 <= i < |rest| && Adds(rest[i], name) && m in Yields(rest[i], input, glob);
        assert statements[i + 1] == rest[i];
      }
      if i :| 0 <= i < |statements| && Adds(statements[i], name) && m in Yields(statements[i], input, glob) {
        assert i > 0 ==> statements[i] == rest[i - 1];
      }
    }
  }
}
