/** The runtime-rules compiler as it runs: three loops over one string builder. */
module RuntimeCompiler {
  import opened Outcomes
  import opened RegoLexer
  import opened RegoReader
  import opened PolicyDsl
  import opened PolicyCompiler
  import opened RuntimeDsl

  method WriteRuntimeRule(b: Builder, isPrint: char -> bool, title: string, name: string, expr: string, condition: string)
    modifies b
    ensures b.text == old(b.text) + RuntimeRuleText(isPrint, title, name, expr, condition)
  {
    hide Quote;
    b.WriteString("# " + title + ": " + expr + "\n");
    b.WriteString(name + " contains msg if {\n");
    b.WriteString("    " + condition + "\n");
    b.WriteString("    msg := " + Quote(isPrint, expr) + "\n");
    b.WriteString("}\n\n");
    Regroup(old(b.text), TitleLine(title, expr), SetLine(name), ConditionLine(condition), ExprLine(isPrint, expr), "}\n\n", "", "");
  }

  lemma SectionStep(isPrint: char -> bool, decode: Decoder, title: string, name: string, section: string,
                    exprs: seq<string>, i: nat, written: string)
    requires i < |exprs| && ExprCondition(isPrint, decode, exprs[i]).Ok?
    ensures var text := RuntimeRuleText(isPrint, title, name, exprs[i], ExprCondition(isPrint, decode, exprs[i]).value);
            PrependRuntime(written, SectionText(isPrint, decode, title, name, section, exprs, i)) ==
              PrependRuntime(written + text, SectionText(isPrint, decode, title, name, section, exprs, i + 1))
  {
    hide ExprCondition, RuntimeRuleText;
    var text := RuntimeRuleText(isPrint, title, name, exprs[i], ExprCondition(isPrint, decode, exprs[i]).value);
    var later := SectionText(isPrint, decode, title, name, section, exprs, i + 1);
    assert later.Ok? ==> written + (text + later.value) == written + text + later.value;
  }

  lemma SectionBegins(all: Result<string, RuntimeError>)
    ensures PrependRuntime("", all) == all
  {
    assert all.Ok? ==> "" + all.value == all.value;
  }

  /** What the first expression that does not compile makes of the whole section. */
  lemma SectionStops(isPrint: char -> bool, decode: Decoder, title: string, name: string, section: string,
                     exprs: seq<string>, i: nat, written: string)
    requires i < |exprs|
    ensures var condition := ExprCondition(isPrint, decode, exprs[i]);
            condition.Err? ==> PrependRuntime(written, SectionText(isPrint, decode, title, name, section, exprs, i))
                               == Err(BadExpression(section, i, condition.error))
    ensures var parsed := ParseRuntimeExpr(decode, exprs[i]);
            ExprCondition(isPrint, decode, exprs[i])
            == match parsed { case Err(e) => Err(e)
                              case Ok(p) => RuntimeCondition(isPrint, decode, p.0, p.1, p.2) }
  {
    hide ParseRuntimeExpr, RuntimeCondition, RuntimeRuleText;
  }

  lemma SectionEnds(isPrint: char -> bool, decode: Decoder, title: string, name: string, section: string,
                    exprs: seq<string>, written: string)
    ensures PrependRuntime(written, SectionText(isPrint, decode, title, name, section, exprs, |exprs|)) == Ok(written)
  {
    assert written + "" == written;
  }

  /** Writes the rules of one section, stopping at the first expression that does not compile. */
  method CompileSection(b: Builder, isPrint: char -> bool, decode: Decoder, title: string, name: string, section: string,
                        exprs: seq<string>) returns (err: Option<RuntimeError>)
    modifies b
    ensures match SectionText(isPrint, decode, title, name, section, exprs, 0) {
              case Ok(text) => err == None && b.text == old(b.text) + text
              case Err(e) => err == Some(e)
            }
  {
    hide ParseRuntimeExpr, RuntimeCondition, RuntimeRuleText, SectionText, PrependRuntime, ExprCondition;
    ghost var written := "";
    var i := 0;
    ghost var all := SectionText(isPrint, decode, title, name, section, exprs, 0);
    SectionBegins(all);
    while i < |exprs|
      invariant 0 <= i <= |exprs|
      invariant b.text == old(b.text) + written
      invariant all == PrependRuntime(written, SectionText(isPrint, decode, title, name, section, exprs, i))
    {
      SectionStops(isPrint, decode, title, name, section, exprs, i, written);
      var parsed := ParseRuntimeExpr(decode, exprs[i]);
      if parsed.Err? {
        return Some(BadExpression(section, i, parsed.error));
      }
      var condition := RuntimeCondition(isPrint, decode, parsed.value.0, parsed.value.1, parsed.value.2);
      if condition.Err? {
        return Some(BadExpression(section, i, condition.error));
      }
      WriteRuntimeRule(b, isPrint, title, name, exprs[i], condition.value);
      SectionStep(isPrint, decode, title, name, section, exprs, i, written);
      written := written + RuntimeRuleText(isPrint, title, name, exprs[i], condition.value);
      i := i + 1;
    }
    SectionEnds(isPrint, decode, title, name, section, exprs, written);
    err := None;
  }

  /** Compiles a rule set to the text of a Rego module. */
  method CompileRuntime(rules: Option<RuleSet>, isPrint: char -> bool, decode: Decoder) returns (r: Result<string, RuntimeError>)
    ensures r == CompileRuntimeText(isPrint, decode, rules)
  {
    hide SectionText, Header;
    if rules.None? {
      return Ok("");
    }
    var b := new Builder();
    WriteRuntimeHeader(b);
    var err := CompileSection(b, isPrint, decode, "Block", "deny", "block", rules.value.block);
    if err.Some? {
      return Err(err.value);
    }
    err := CompileSection(b, isPrint, decode, "Warn", "warnings", "warn", rules.value.warn);
    if err.Some? {
      return Err(err.value);
    }
    err := CompileSection(b, isPrint, decode, "Log", "log_entries", "log", rules.value.log);
    if err.Some? {
      return Err(err.value);
    }
    r := Ok(b.text);
  }

  method WriteRuntimeHeader(b: Builder)
    requires b.text == ""
    modifies b
    ensures b.text == Header("runtime_policy")
  {
    b.WriteString("package skillledger.runtime_policy\n\n");
    b.WriteString("import rego.v1\n\n");
  }
}
