/** Install-time policies: the rules, their operator expressions, and the Rego text each compiles to. */
module PolicyDsl {
  import opened Outcomes
  import opened RegoLexer
  import opened RegoReader
  import opened Ordering
  import opened Text

  /** `deny` or `warn` holds an operator expression; an absent one is the empty string. */
  datatype Rule = Rule(deny: string, warn: string, except: seq<string>, message: string)

  datatype AllowlistEntry = AllowlistEntry(certIdentity: string, issuer: string)

  datatype Policy = Policy(version: int, rules: map<string, seq<Rule>>, allowlist: seq<AllowlistEntry>)

  datatype Reason =
    | MissingParen
    | BadFormat
    | EmptyArgument
    | DisallowedArgument(arg: string)
    | UnknownOperator(op: string)
    | DisallowedExcept(item: string)

  datatype CompileError =
    | NilPolicy
    | NoRules
    | InvalidCategory(category: string)
    | BadRule(category: string, index: nat, reason: Reason)

  // ----- What the parser guarantees ---------------------------------------------------------

  predicate ParsedRule(r: Rule) {
    (r.deny != "") != (r.warn != "") && r.message != ""
  }

  /** The checks made on a decoded policy. */
  predicate Parsed(p: Policy) {
    && p.version == 1 && |p.rules| != 0
    && forall category | category in p.rules ::
         forall i | 0 <= i < |p.rules[category]| :: ParsedRule(p.rules[category][i])
  }

  // ----- Operator expressions ---------------------------------------------------------------

  function IndexOf(s: string, c: char): (i: int)
    ensures -1 <= i < |s|
    ensures i >= 0 ==> s[i] == c && c !in s[..i]
    ensures i < 0 ==> c !in s
  {
    if s == "" then -1
    else if s[0] == c then 0
    else
      var i := IndexOf(s[1..], c);
      assert s == [s[0]] + s[1..];
      assert i >= 0 ==> s[..i + 1] == [s[0]] + s[1..][..i];
      if i < 0 then -1 else i + 1
  }

  lemma {:induction false} IndexOfAt(before: string, c: char, after: string)
    requires c !in before
    ensures IndexOf(before + [c] + after, c) == |before|
  {
    var s := before + [c] + after;
    if before != "" {
      assert s[0] == before[0] && s[0] in before;
      assert s[1..] == before[1..] + [c] + after;
      IndexOfAt(before[1..], c, after);
    }
  }

  /** A backslash, a double quote, a tab or a line break. */
  predicate Disallowed(c: char) {
    c in {'\\', '\n', '\r', '\t', '"'}
  }

  predicate HasDisallowed(s: string) {
    exists i | 0 <= i < |s| :: Disallowed(s[i])
  }

  /** Reads `operator("argument")`. */
  function ParseOperator(expr: string): Result<(string, string), Reason> {
    var paren := IndexOf(expr, '(');
    if paren < 0 then Err(MissingParen)
    else
      var op, rest := expr[..paren], expr[paren..];
      if |rest| < 4 || rest[0] != '(' || rest[1] != '"' || rest[|rest| - 1] != ')' || rest[|rest| - 2] != '"'
      then Err(BadFormat)
      else
        var arg := rest[2..|rest| - 2];
        if arg == "" then Err(EmptyArgument)
        else if HasDisallowed(arg) then Err(DisallowedArgument(arg))
        else Ok((op, arg))
  }

  lemma ParseOperatorAccepts(op: string, arg: string)
    requires '(' !in op && arg != "" && !HasDisallowed(arg)
    ensures ParseOperator(op + "(\"" + arg + "\")") == Ok((op, arg))
  {
    hide HasDisallowed, IndexOf;
    var tail := "\"" + arg + "\")";
    var rest := "(" + tail;
    assert op + "(\"" + arg + "\")" == op + "(" + tail;
    IndexOfAt(op, '(', tail);
    assert (op + rest)[..|op|] == op && (op + rest)[|op|..] == rest;
    assert op + "(" + tail == op + rest;
    assert rest[2..|rest| - 2] == arg;
  }

  lemma ParseOperatorReturns(expr: string, op: string, arg: string)
    requires ParseOperator(expr) == Ok((op, arg))
    ensures expr == op + "(\"" + arg + "\")" && '(' !in op && arg != "" && !HasDisallowed(arg)
  {
    hide HasDisallowed, IndexOf;
    var paren := IndexOf(expr, '(');
    var rest := expr[paren..];
    assert op == expr[..paren] && arg == rest[2..|rest| - 2];
    QuotedArgument(rest, arg);
    assert expr == op + rest;
    assert op + (("(\"" + arg) + "\")") == op + "(\"" + arg + "\")";
  }

  lemma QuotedArgument(rest: string, arg: string)
    requires |rest| >= 4 && rest[0] == '(' && rest[1] == '"' && rest[|rest| - 1] == ')' && rest[|rest| - 2] == '"'
    requires arg == rest[2..|rest| - 2]
    ensures rest == ("(\"" + arg) + "\")"
  {
  }

  lemma CleanIs(s: string)
    ensures HasDisallowed(s) <==> exists i :: 0 <= i < |s| && (s[i] == '\\' || s[i] == '"' || s[i] == '\n' || s[i] == '\r' || s[i] == '\t')
  {
  }

  /** An expression is accepted exactly when it is an operator name without a parenthesis applied to
      a quoted, non-empty argument without backslashes, double quotes, line feeds, carriage returns and tabs; and
      those parts are returned. */
  lemma ParseOperatorExact(expr: string, op: string, arg: string)
    ensures ParseOperator(expr) == Ok((op, arg))
       <==> && expr == op + "(\"" + arg + "\")" && '(' !in op && arg != ""
            && forall i | 0 <= i < |arg| ::
                 arg[i] != '\\' && arg[i] != '"' && arg[i] != '\n' && arg[i] != '\r' && arg[i] != '\t'
  {
    CleanIs(arg);
    hide ParseOperator, HasDisallowed;
    if ParseOperator(expr) == Ok((op, arg)) {
      ParseOperatorReturns(expr, op, arg);
    } else if expr == op + "(\"" + arg + "\")" && '(' !in op && arg != "" && !HasDisallowed(arg) {
      ParseOperatorAccepts(op, arg);
    }
  }

  // ----- The text of one rule ---------------------------------------------------------------

  function OperatorText(isPrint: char -> bool, op: string, arg: string): Result<string, Reason> {
    if op == "contains" then Ok("contains(cap, " + Quote(isPrint, arg) + ")")
    else if op == "any" then Ok("startswith(cap, " + Quote(isPrint, arg) + ")")
    else Err(UnknownOperator(op))
  }

  function ReplaceAll(s: string, c: char, sub: string): string {
    if s == "" then "" else (if s[0] == c then sub else [s[0]]) + ReplaceAll(s[1..], c, sub)
  }

  /** A message as it appears in a comment. */
  function CommentText(message: string): string {
    ReplaceAll(ReplaceAll(ReplaceAll(message, '"', "\\\""), '\n', " "), '\r', " ")
  }

  function QuoteAll(isPrint: char -> bool, items: seq<string>): seq<string> {
    seq(|items|, i requires 0 <= i < |items| => Quote(isPrint, items[i]))
  }

  function RuleSet(r: Rule): string {
    if r.warn != "" then "warnings" else "deny"
  }

  function RuleExpr(r: Rule): string {
    if r.warn != "" then r.warn else r.deny
  }

  /** The first exception with a disallowed character. */
  function BadExcept(items: seq<string>): Option<string> {
    if items == [] then None
    else if HasDisallowed(items[0]) then Some(items[0])
    else BadExcept(items[1..])
  }

  /** The exceptions are accepted exactly when none has one of the five characters; else the first that has
      one is returned. */
  lemma {:induction false} BadExceptExact(items: seq<string>)
    ensures BadExcept(items) == None
       <==> forall i, k | 0 <= i < |items| && 0 <= k < |items[i]| ::
              items[i][k] != '\\' && items[i][k] != '"' && items[i][k] != '\n' && items[i][k] != '\r' && items[i][k] != '\t'
    ensures BadExcept(items).Some? ==>
              exists i :: 0 <= i < |items| && BadExcept(items) == Some(items[i])
                && (exists k :: 0 <= k < |items[i]| &&
                      (items[i][k] == '\\' || items[i][k] == '"' || items[i][k] == '\n' || items[i][k] == '\r' || items[i][k] == '\t'))
                && forall j, k | 0 <= j < i && 0 <= k < |items[j]| ::
                     items[j][k] != '\\' && items[j][k] != '"' && items[j][k] != '\n' && items[j][k] != '\r' && items[j][k] != '\t'
  {
    if items != [] {
      CleanIs(items[0]);
      BadExceptExact(items[1..]);
      hide HasDisallowed;
      assert forall i | 0 < i < |items| :: items[i] == items[1..][i - 1];
      assert forall i | 0 <= i < |items| - 1 :: items[1..][i] == items[i + 1];
    }
  }

  /** The condition of a rule, or why it has none. */
  function RuleCondition(isPrint: char -> bool, r: Rule): Result<string, Reason> {
    match ParseOperator(RuleExpr(r))
    case Err(e) => Err(e)
    case Ok((op, arg)) => OperatorText(isPrint, op, arg)
  }

  function CommentLine(category: string, r: Rule): string {
    "# Rule: " + category + " - " + CommentText(r.message) + "\n"
  }

  function HeadLine(r: Rule): string {
    RuleSet(r) + " contains msg if {\n"
  }

  function SomeLine(category: string): string {
    "    some cap in input.capabilities." + category + "\n"
  }

  function ConditionLine(condition: string): string {
    "    " + condition + "\n"
  }

  function ExceptLine(isPrint: char -> bool, r: Rule): string {
    if r.except == [] then "" else "    not cap in {" + Join(QuoteAll(isPrint, r.except), ", ") + "}\n"
  }

  function MessageLine(isPrint: char -> bool, r: Rule): string {
    "    msg := " + Quote(isPrint, r.message) + "\n"
  }

  function RuleText(isPrint: char -> bool, category: string, index: nat, r: Rule): Result<string, CompileError> {
    match RuleCondition(isPrint, r)
    case Err(e) => Err(BadRule(category, index, e))
    case Ok(condition) =>
      match BadExcept(r.except)
      case Some(item) => Err(BadRule(category, index, DisallowedExcept(item)))
      case None =>
        Ok(CommentLine(category, r) + HeadLine(r) + SomeLine(category) + ConditionLine(condition)
           + ExceptLine(isPrint, r) + MessageLine(isPrint, r) + "}\n\n")
  }

  // ----- The text of a policy ---------------------------------------------------------------

  function PrependText(t: string, r: Result<string, CompileError>): Result<string, CompileError> {
    match r
    case Ok(text) => Ok(t + text)
    case Err(e) => Err(e)
  }

  function RulesText(isPrint: char -> bool, category: string, rules: seq<Rule>, i: nat): Result<string, CompileError>
    requires i <= |rules|
    decreases |rules| - i
  {
    if i == |rules| then Ok("")
    else
      match RuleText(isPrint, category, i, rules[i])
      case Err(e) => Err(e)
      case Ok(text) => PrependText(text, RulesText(isPrint, category, rules, i + 1))
  }

  /** A lower-case letter, then lower-case letters, digits and underscores. */
  predicate ValidCategory(c: string) {
    && c != "" && 'a' <= c[0] <= 'z'
    && forall i | 0 <= i < |c| :: 'a' <= c[i] <= 'z' || '0' <= c[i] <= '9' || c[i] == '_'
  }

  function CategoriesText(isPrint: char -> bool, rules: map<string, seq<Rule>>, categories: seq<string>): Result<string, CompileError>
    requires forall c :: c in categories ==> c in rules
  {
    if categories == [] then Ok("")
    else if !ValidCategory(categories[0]) then Err(InvalidCategory(categories[0]))
    else
      match RulesText(isPrint, categories[0], rules[categories[0]], 0)
      case Err(e) => Err(e)
      case Ok(text) => PrependText(text, CategoriesText(isPrint, rules, categories[1..]))
  }

  /** What compiling a policy yields: the module text, or the first error in category order. */
  ghost function CompileText(isPrint: char -> bool, policy: Option<Policy>): Result<string, CompileError> {
    match policy
    case None => Err(NilPolicy)
    case Some(p) =>
      if |p.rules| == 0 then Err(NoRules)
      else
        match CategoriesText(isPrint, p.rules, Sorted(p.rules.Keys))
        case Err(e) => Err(e)
        case Ok(text) => Ok(Header("policy") + DEFAULT_ALLOW + text + (DENY_DECISION + WARN_DECISION))
  }
}
