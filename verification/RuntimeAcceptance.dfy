/** Which runtime rules the compiler accepts, and when they hold, read off the expressions themselves. */
module RuntimeAcceptance {
  import opened Outcomes
  import opened RegoEval
  import opened PolicyDsl
  import opened PolicyAcceptance
  import opened RuntimeDsl
  import opened RuntimeMeaning

  /** White space as Unicode has it. */
  predicate Space(c: char) {
    c as int in {9, 10, 11, 12, 13, 32, 133, 160, 5760, 8192, 8193, 8194, 8195, 8196, 8197, 8198, 8199, 8200, 8201, 8202,
                 8232, 8233, 8239, 8287, 12288}
  }

  predicate Spaces(s: string) {
    forall i | 0 <= i < |s| :: Space(s[i])
  }

  lemma SpacesAre(s: string)
    ensures Blank(s) <==> Spaces(s)
  {
    forall i | 0 <= i < |s|
      ensures IsSpace(s[i]) <==> Space(s[i])
    {
      SpaceIs(s[i]);
    }
  }

  lemma SpaceIs(c: char)
    ensures IsSpace(c) <==> Space(c)
  {
  }

  /** Field, operator and argument, each separated by a space and any further white space, with any around. */
  ghost predicate Written(expr: string, field: string, op: string, arg: string) {
    && arg != "" && !Space(arg[0]) && !Space(arg[|arg| - 1])
    && exists a, b, c, d :: Gaps(expr, a, field, b, op, c, arg, d)
  }

  predicate Gaps(expr: string, a: string, field: string, b: string, op: string, c: string, arg: string, d: string) {
    && Spaces(a) && Spaces(b) && Spaces(c) && Spaces(d)
    && expr == a + (field + (" " + (b + (op + (" " + (c + arg)))))) + d
  }

  predicate Fields(field: string) {
    field == "destination" || field == "tool" || field == "resource" || field == "method"
  }

  /** A quoted text for `contains`; a decodable, non-empty array of clean strings for `any` and `except`. */
  predicate Argument(decode: Decoder, op: string, arg: string, text: string) {
    || (op == "contains" && arg == "\"" + text + "\"" && text != "" && Unescaped(text))
    || ((op == "any" || op == "except") && text == arg && |arg| >= 2 && arg[0] == '[' && arg[|arg| - 1] == ']'
        && decode(arg).Some? && decode(arg).value != []
        && forall i | 0 <= i < |decode(arg).value| :: Unescaped(decode(arg).value[i]))
  }

  lemma ArgumentIs(decode: Decoder, op: string, arg: string, text: string)
    requires op in OPERATORS
    ensures ParseArgument(decode, op, arg) == Ok(text) <==> Argument(decode, op, arg, text)
  {
    hide HasDisallowed, BadExcept;
    if op == "contains" {
      CleanIs(text);
      if |arg| >= 2 && arg[0] == '"' && arg[|arg| - 1] == '"' {
        assert arg == "\"" + arg[1..|arg| - 1] + "\"";
        CleanIs(arg[1..|arg| - 1]);
      }
      if arg == "\"" + text + "\"" {
        assert arg[1..|arg| - 1] == text;
      }
    } else if decode(arg).Some? {
      ExceptionsAre(decode(arg).value);
    }
  }

  lemma NamesAre(field: string, op: string)
    ensures field in FIELDS <==> Fields(field)
    ensures op in OPERATORS <==> op == "contains" || op == "any" || op == "except"
  {
  }

  /** An expression is accepted, with these parts, exactly when it is written with them. */
  lemma ParsesExactly(decode: Decoder, expr: string, field: string, op: string, text: string)
    ensures ParseRuntimeExpr(decode, expr) == Ok((field, op, text))
       <==> Fields(field) && exists arg :: Written(expr, field, op, arg) && Argument(decode, op, arg, text)
  {
    hide ParseRuntimeExpr, ParseArgument, IsSpace, Space, HasDisallowed, Blank, Spaces, FIELDS, OPERATORS;
    NamesAre(field, op);
    if ParseRuntimeExpr(decode, expr) == Ok((field, op, text)) {
      var a, f, b, o, c, arg, d := ParsedIsSpelled(decode, expr);
      ParseSpelled(decode, expr, a, f, b, o, c, arg, d);
      SpelledIsWritten(expr, a, f, b, o, c, arg, d);
      ArgumentIs(decode, o, arg, text);
    }
    if arg :| Fields(field) && Written(expr, field, op, arg) && Argument(decode, op, arg, text) {
      var a, b, c, d :| Gaps(expr, a, field, b, op, c, arg, d);
      assert op in OPERATORS by { ArgumentOperator(decode, op, arg, text); }
      WrittenIsSpelled(expr, a, field, b, op, c, arg, d);
      ParseSpelled(decode, expr, a, field, b, op, c, arg, d);
      ArgumentIs(decode, op, arg, text);
    }
  }

  lemma ArgumentOperator(decode: Decoder, op: string, arg: string, text: string)
    requires Argument(decode, op, arg, text)
    ensures op in OPERATORS
  {
  }

  lemma SpelledIsWritten(expr: string, a: string, field: string, b: string, op: string, c: string, arg: string, d: string)
    requires Spelled(expr, a, field, b, op, c, arg, d)
    ensures Written(expr, field, op, arg) && field in FIELDS && op in OPERATORS
  {
    hide IsSpace, Space;
    SpacesAre(a); SpacesAre(b); SpacesAre(c); SpacesAre(d);
    SpaceIs(arg[0]);
    SpaceIs(arg[|arg| - 1]);
    hide Blank, Spaces;
    assert Gaps(expr, a, field, b, op, c, arg, d);
  }

  lemma WrittenIsSpelled(expr: string, a: string, field: string, b: string, op: string, c: string, arg: string, d: string)
    requires Gaps(expr, a, field, b, op, c, arg, d) && Written(expr, field, op, arg) && field in FIELDS && op in OPERATORS
    ensures Spelled(expr, a, field, b, op, c, arg, d)
  {
    hide IsSpace, Space;
    SpacesAre(a); SpacesAre(b); SpacesAre(c); SpacesAre(d);
    SpaceIs(arg[0]);
    SpaceIs(arg[|arg| - 1]);
  }

  // ----- When an expression holds ---------------------------------------------------------------

  /** The part stands at position `k`. */
  predicate StandsAt(part: string, s: string, k: int) {
    0 <= k <= |s| - |part| && s[k..k + |part|] == part
  }

  predicate Occurs(part: string, s: string) {
    exists k | 0 <= k <= |s| :: StandsAt(part, s, k)
  }

  lemma {:induction false} ContainsIs(s: string, part: string)
    ensures Contains(s, part) <==> Occurs(part, s)
  {
    if part <= s {
      assert StandsAt(part, s, 0);
    }
    if s == "" {
      if k :| 0 <= k <= |s| && StandsAt(part, s, k) {
        assert part == "";
      }
    } else {
      var t := s[1..];
      ContainsIs(t, part);
      if k :| 0 <= k <= |t| && StandsAt(part, t, k) {
        assert StandsAt(part, s, k + 1);
      }
      if k :| 0 <= k <= |s| && StandsAt(part, s, k) {
        if k == 0 {
          assert part <= s;
        } else {
          assert StandsAt(part, t, k - 1);
        }
      }
    }
  }

  /** `contains` looks for the text, or for the glob if it has a star; `any` and `except` look the value up. */
  ghost predicate Fires(decode: Decoder, glob: Glob, expr: string, action: map<string, string>) {
    exists field, op, arg, text ::
      && Written(expr, field, op, arg) && Argument(decode, op, arg, text) && Fields(field) && field in action
      && FiresFor(decode, glob, op, text, action[field])
  }

  predicate FiresFor(decode: Decoder, glob: Glob, op: string, text: string, value: string) {
    || (op == "contains" && '*' in text && glob(text, value))
    || (op == "contains" && '*' !in text && Occurs(text, value))
    || (op == "any" && decode(text).Some? && value in decode(text).value)
    || (op == "except" && decode(text).Some? && value !in decode(text).value)
  }

  /** An accepted expression holds of an action exactly when what is written in it does. */
  lemma HoldsExactly(decode: Decoder, glob: Glob, expr: string, action: map<string, string>)
    requires Parses(decode, expr) && FIELDS <= action.Keys
    ensures ExprHolds(decode, glob, expr, action) <==> Fires(decode, glob, expr, action)
  {
    hide ParseRuntimeExpr, Written, Argument, Occurs, Contains;
    var (field, op, text) := ParseRuntimeExpr(decode, expr).value;
    ParsedParts(decode, expr);
    ParsesExactly(decode, expr, field, op, text);
    NamesAre(field, op);
    var arg :| Written(expr, field, op, arg) && Argument(decode, op, arg, text);
    ContainsIs(action[field], text);
    if Fires(decode, glob, expr, action) {
      var f, o, a, t :| && Written(expr, f, o, a) && Argument(decode, o, a, t) && Fields(f) && f in action
                        && FiresFor(decode, glob, o, t, action[f]);
      ParsesExactly(decode, expr, f, o, t);
    }
  }

  // ----- Errors -------------------------------------------------------------------------------

  /** The first expression of a section that does not parse. */
  lemma {:induction false} SectionFails(isPrint: char -> bool, decode: Decoder, title: string, name: string, section: string,
                                        exprs: seq<string>, i: nat)
    requires i <= |exprs| && SectionText(isPrint, decode, title, name, section, exprs, i).Err?
    ensures var e := SectionText(isPrint, decode, title, name, section, exprs, i).error;
            && e.section == section && i <= e.index < |exprs|
            && ParseRuntimeExpr(decode, exprs[e.index]) == Err(e.reason)
            && forall j | i <= j < e.index :: Parses(decode, exprs[j])
    decreases |exprs| - i
  {
    hide ParseRuntimeExpr, RuntimeRuleText, Parses;
    ExprFails(isPrint, decode, exprs[i]);
    if ExprCondition(isPrint, decode, exprs[i]).Ok? {
      SectionFails(isPrint, decode, title, name, section, exprs, i + 1);
    }
  }

  lemma ExprFails(isPrint: char -> bool, decode: Decoder, expr: string)
    ensures ExprCondition(isPrint, decode, expr).Ok? <==> Parses(decode, expr)
    ensures ExprCondition(isPrint, decode, expr).Err? ==> ParseRuntimeExpr(decode, expr) == Err(ExprCondition(isPrint, decode, expr).error)
  {
    ExprConditionIs(isPrint, decode, expr);
    hide ParseRuntimeExpr, RuntimeCondition;
  }

  /** The first error of a rule set: sections are compiled in the order block, warn, log. */
  lemma RuntimeFailsFirst(isPrint: char -> bool, decode: Decoder, rs: RuleSet)
    requires CompileRuntimeText(isPrint, decode, Some(rs)).Err?
    ensures var e := CompileRuntimeText(isPrint, decode, Some(rs)).error;
            && (e.section == "block" || e.section == "warn" || e.section == "log")
            && (e.section != "block" ==> AllParse(decode, rs.block)) && (e.section == "log" ==> AllParse(decode, rs.warn))
            && var exprs := if e.section == "block" then rs.block else if e.section == "warn" then rs.warn else rs.log;
               && e.index < |exprs| && ParseRuntimeExpr(decode, exprs[e.index]) == Err(e.reason)
               && forall j | 0 <= j < e.index :: Parses(decode, exprs[j])
  {
    hide SectionText, ParseRuntimeExpr, Parses;
    SectionTextOk(isPrint, decode, "Block", "deny", "block", rs.block, 0);
    SectionTextOk(isPrint, decode, "Warn", "warnings", "warn", rs.warn, 0);
    assert rs.block[0..] == rs.block && rs.warn[0..] == rs.warn;
    if SectionText(isPrint, decode, "Block", "deny", "block", rs.block, 0).Err? {
      SectionFails(isPrint, decode, "Block", "deny", "block", rs.block, 0);
    } else if SectionText(isPrint, decode, "Warn", "warnings", "warn", rs.warn, 0).Err? {
      SectionFails(isPrint, decode, "Warn", "warnings", "warn", rs.warn, 0);
    } else {
      SectionFails(isPrint, decode, "Log", "log_entries", "log", rs.log, 0);
    }
  }
}
