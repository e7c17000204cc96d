/** What compiling runtime rules preserves. */
module RuntimeMeaning {
  import opened Outcomes
  import opened RegoLexer
  import opened Rego
  import opened RegoReader
  import opened RegoEval
  import opened PolicyDsl
  import opened PolicyMeaning
  import opened RuntimeDsl
  import opened RuntimeLineFeeds

  // ----- One expression as a Rego literal ---------------------------------------------------

  predicate Parses(decode: Decoder, expr: string) {
    ParseRuntimeExpr(decode, expr).Ok?
  }

  function ExprLiteral(decode: Decoder, expr: string): Literal
    requires Parses(decode, expr)
  {
    var (field, op, arg) := ParseRuntimeExpr(decode, expr).value;
    if op == "contains" then
      if '*' in arg then GlobMatch(arg, Action(field)) else ContainsText(Action(field), arg)
    else
      var items := if decode(arg).Some? then decode(arg).value else [];
      if op == "any" then In(Action(field), items) else NotIn(Action(field), items)
  }

  function ExprBody(decode: Decoder, expr: string): seq<Literal>
    requires Parses(decode, expr)
  {
    [ExprLiteral(decode, expr), Msg(expr)]
  }

  predicate LegibleExpr(isPrint: char -> bool, decode: Decoder, expr: string)
    requires Parses(decode, expr)
  {
    LegibleLiteral(isPrint, ExprLiteral(decode, expr)) && AllLegible(isPrint, expr)
  }

  /** What parsing an expression establishes about its parts. */
  lemma ParsedParts(decode: Decoder, expr: string)
    requires Parses(decode, expr)
    ensures var (field, op, arg) := ParseRuntimeExpr(decode, expr).value;
            && field in FIELDS && op in OPERATORS
            && (op != "contains" ==> decode(arg).Some? && decode(arg).value != [])
  {
    hide TrimSpace, IndexOf;
  }

  lemma ExprWellFormed(decode: Decoder, expr: string)
    requires Parses(decode, expr)
    ensures WellFormedBody(ExprBody(decode, expr))
  {
    hide ParseRuntimeExpr, IsWord;
    ParsedParts(decode, expr);
    var (field, op, arg) := ParseRuntimeExpr(decode, expr).value;
    FieldsAreWords(field);
  }

  lemma FieldsAreWords(field: string)
    requires field in FIELDS
    ensures IsWord(field)
  {
  }

  lemma ExprConditionIs(isPrint: char -> bool, decode: Decoder, expr: string)
    ensures ExprCondition(isPrint, decode, expr).Ok? <==> Parses(decode, expr)
    ensures Parses(decode, expr)
        ==> ExprCondition(isPrint, decode, expr).value == LiteralText(isPrint, ExprLiteral(decode, expr))
  {
    hide ParseRuntimeExpr, Quote;
    if Parses(decode, expr) {
      ParsedParts(decode, expr);
      var (field, op, arg) := ParseRuntimeExpr(decode, expr).value;
      var path, q := "input.action." + field, Quote(isPrint, arg);
      if op == "contains" {
        assert "contains(" + path + ", " + q + ")" == "contains" + "(" + path + ", " + q + ")";
      } else {
        var items := decode(arg).value;
        JoinIsItemsText(isPrint, items);
        var list := ItemsText(isPrint, items);
        assert "not " + path + " in {" + list + "}" == "not " + (path + " in {" + list + "}");
      }
    }
  }

  // ----- Reading the text back --------------------------------------------------------------

  predicate AllParse(decode: Decoder, exprs: seq<string>) {
    forall i | 0 <= i < |exprs| :: Parses(decode, exprs[i])
  }

  /** What follows the first line feed of the expression does no harm: it is white space, or a set rule. */
  ghost predicate Harmless(decode: Decoder, expr: string)
    requires Parses(decode, expr)
  {
    Contained(expr) || IsFact(decode, expr)
  }

  ghost predicate HarmlessEach(decode: Decoder, exprs: seq<string>)
    requires AllParse(decode, exprs)
  {
    forall i | 0 <= i < |exprs| :: Harmless(decode, exprs[i])
  }

  predicate ArraysAreJson(decode: Decoder, exprs: seq<string>)
    requires AllParse(decode, exprs)
  {
    forall i | 0 <= i < |exprs| :: Parses(decode, exprs[i]) && ArrayIsJson(decode, exprs[i])
  }

  predicate LegibleExprs(isPrint: char -> bool, decode: Decoder, exprs: seq<string>)
    requires AllParse(decode, exprs)
  {
    forall i | 0 <= i < |exprs| :: LegibleExpr(isPrint, decode, exprs[i])
  }

  function ExprStatements(decode: Decoder, name: string, exprs: seq<string>): seq<Statement>
    requires AllParse(decode, exprs)
  {
    seq(|exprs|, i requires 0 <= i < |exprs| => Partial(name, ExprBody(decode, exprs[i])))
  }

  /** The set rule that a comment leaves standing. */
  function LeftOver(decode: Decoder, expr: string): Statement
    requires Parses(decode, expr)
  {
    FactOf(decode, expr)
  }

  lemma TailParses(decode: Decoder, exprs: seq<string>)
    requires AllParse(decode, exprs) && exprs != []
    ensures Parses(decode, exprs[0]) && AllParse(decode, exprs[1..])
  {
    hide Parses;
    forall i | 0 <= i < |exprs| - 1
      ensures Parses(decode, exprs[1..][i])
    {
      assert exprs[1..][i] == exprs[i + 1];
    }
  }

  /** What the text of one rule reads as: its own rule, after a set rule if the comment holds one. */
  function RuleStatements(decode: Decoder, name: string, expr: string): seq<Statement>
    requires Parses(decode, expr)
  {
    (if Contained(expr) then [] else [LeftOver(decode, expr)]) + [Partial(name, ExprBody(decode, expr))]
  }

  function SectionStatements(decode: Decoder, name: string, exprs: seq<string>): seq<Statement>
    requires AllParse(decode, exprs)
  {
    if exprs == [] then []
    else
      TailParses(decode, exprs);
      RuleStatements(decode, name, exprs[0]) + SectionStatements(decode, name, exprs[1..])
  }

  lemma RuntimeRuleTextIs(isPrint: char -> bool, decode: Decoder, title: string, name: string, expr: string)
    requires Parses(decode, expr)
    ensures RuntimeRuleText(isPrint, title, name, expr, LiteralText(isPrint, ExprLiteral(decode, expr)))
         == "#" + (" " + title + ": " + expr) + "\n" + PartialText(isPrint, name, ExprBody(decode, expr))
  {
    hide Quote, ExprLiteral, LiteralText, TitleLine, ExprLine, BodyText, ConditionLine, SetLine, ParseRuntimeExpr;
    assert SetLine(name) == name + " contains msg if {\n" by { SetLineIs(name); }
    var l, m := ExprLiteral(decode, expr), Msg(expr);
    TwoLines(isPrint, l, m);
    TitleLineIs(title, expr);
    ExprLineIs(isPrint, expr);
    ConditionLineIs(LiteralText(isPrint, l));
    var t, h, c, e := TitleLine(title, expr), SetLine(name), ConditionLine(LiteralText(isPrint, l)), ExprLine(isPrint, expr);
    Associate(t, h, c, e, "}\n\n");
  }

  lemma Associate(t: string, h: string, c: string, e: string, x: string)
    ensures t + h + c + e + x == t + (h + (c + e) + x)
  {
  }

  lemma SetLineIs(name: string)
    ensures SetLine(name) == name + " contains msg if {\n"
  {
  }

  lemma ConditionLineIs(condition: string)
    ensures ConditionLine(condition) == "    " + condition + "\n"
  {
  }

  lemma TitleLineIs(title: string, expr: string)
    ensures TitleLine(title, expr) == "#" + (" " + title + ": " + expr) + "\n"
  {
  }

  lemma ExprLineIs(isPrint: char -> bool, expr: string)
    ensures ExprLine(isPrint, expr) == "    " + LiteralText(isPrint, Msg(expr)) + "\n"
  {
    hide Quote;
    var q := Quote(isPrint, expr);
    assert "    msg := " + q + "\n" == "    " + ("msg := " + q) + "\n";
  }

  lemma TwoLines(isPrint: char -> bool, l: Literal, m: Literal)
    ensures BodyText(isPrint, [l, m]) == ("    " + LiteralText(isPrint, l) + "\n") + ("    " + LiteralText(isPrint, m) + "\n")
  {
    hide LiteralText;
    assert [l, m][1..] == [m];
    assert [m][1..] == [];
    assert BodyText(isPrint, [m]) == "    " + LiteralText(isPrint, m) + "\n" + "";
  }

  lemma LegibleBodyIs(isPrint: char -> bool, decode: Decoder, expr: string)
    requires Parses(decode, expr)
    ensures LegibleBody(isPrint, ExprBody(decode, expr)) <==> LegibleExpr(isPrint, decode, expr)
  {
    hide ExprLiteral, AllLegible, Parses;
    var body := ExprBody(decode, expr);
    assert body[0] == ExprLiteral(decode, expr) && body[1] == Msg(expr);
    assert Quoted(Msg(expr)) == [expr];
    LegibleOne(isPrint, expr);
  }

  /** A runtime rule reads back exactly when it is legible and what follows the first line feed of its
      expression is white space or a set rule; that set rule then comes first.  Otherwise the whole text cannot
      be read. */
  lemma ReadRuntimeRule(isPrint: char -> bool, decode: Decoder, title: string, name: string, expr: string, rest: string)
    requires IsWord(name) && name != "default" && name != "decision" && '\n' !in title
    requires Parses(decode, expr) && ArrayIsJson(decode, expr)
    ensures ExprCondition(isPrint, decode, expr).Ok?
    ensures ReadStatements(RuntimeRuleText(isPrint, title, name, expr, ExprCondition(isPrint, decode, expr).value) + rest)
         == if Harmless(decode, expr) && LegibleExpr(isPrint, decode, expr)
            then PutBefore(RuleStatements(decode, name, expr), ReadStatements(rest)) else None
  {
    hide Parses, ExprBody, IsWord, WellFormedBody, LegibleBody, PartialText, ReadStatements, LegibleExpr,
         RuntimeRuleText, ExprCondition, LiteralText, ArrayIsJson, Contained, White, Quote, IsFact, LeftOver;
    ExprConditionIs(isPrint, decode, expr);
    RuntimeRuleTextIs(isPrint, decode, title, name, expr);
    ExprWellFormed(decode, expr);
    LegibleBodyIs(isPrint, decode, expr);
    var rule := PartialText(isPrint, name, ExprBody(decode, expr));
    ReadRuleAlone(isPrint, name, ExprBody(decode, expr), rest);
    CommentHoldsExpression(decode, title, expr, rule + rest);
    Grouped("#" + (" " + title + ": " + expr) + "\n", rule, rest);
    PutTwo(LeftOver(decode, expr), Partial(name, ExprBody(decode, expr)), ReadStatements(rest));
  }

  lemma PutTwo(s: Statement, t: Statement, r: Option<seq<Statement>>)
    ensures PutBefore([] + [t], r) == Cons(t, r)
    ensures PutBefore([s] + [t], r) == Cons(s, Cons(t, r))
    ensures Cons(t, None) == None
  {
    assert [] + [t] == [t];
    if r.Some? {
      assert [s] + [t] + r.value == [s] + ([t] + r.value);
    }
  }

  lemma Grouped(a: string, b: string, c: string)
    ensures a + b + c == a + (b + c)
  {
  }

  lemma ReadRuleAlone(isPrint: char -> bool, name: string, body: seq<Literal>, rest: string)
    requires IsWord(name) && name != "default" && name != "decision" && WellFormedBody(body)
    ensures ReadStatements(PartialText(isPrint, name, body) + rest)
         == if LegibleBody(isPrint, body) then Cons(Partial(name, body), ReadStatements(rest)) else None
  {
    hide IsWord, WellFormedBody, LegibleBody, PartialText, ReadStatements, Cons;
    var rule := PartialText(isPrint, name, body);
    ReadRuleThen(isPrint, "", name, body, rest);
    ReadAfterComment("", rule + rest);
    Grouped("#" + "" + "\n", rule, rest);
  }

  lemma ReadAfterComment(comment: string, text: string)
    requires '\n' !in comment
    ensures ReadStatements("#" + comment + "\n" + text) == ReadStatements(text)
  {
    hide Lex, ParseStatements;
    LexComment(comment, text);
    if Lex(text).Some? {
      SkipEol(Lex(text).value);
    }
  }

  /** The comment ends with the expression exactly when the expression has no line feed.  In front of any text
      it is skipped without a trace when only white space follows the first line feed, leaves a set rule when what
      follows is one, and makes the text unreadable in every other case. */
  lemma CommentHoldsExpression(decode: Decoder, title: string, expr: string, text: string)
    requires Parses(decode, expr) && ArrayIsJson(decode, expr) && '\n' !in title
    ensures LineLength(expr + "\n" + text) == |expr| <==> '\n' !in expr
    ensures ReadStatements("#" + (" " + title + ": " + expr) + "\n" + text)
         == if Contained(expr) then ReadStatements(text)
            else if IsFact(decode, expr) then Cons(LeftOver(decode, expr), ReadStatements(text)) else None
  {
    hide Parses, ArrayIsJson, Lex, ParseStatements, ReadStatements, Contained, White, LineLength, ParseRuntimeExpr, IsFact, Cons;
    LineLengthIs(expr, text);
    var n := LineLength(expr);
    var line, tail := expr[..n], if n < |expr| then expr[n + 1..] + ("\n" + text) else text;
    LineLengthSplits(expr);
    var comment := " " + title + ": " + line;
    assert '\n' !in comment by { NoLineFeedIn(title, line); }
    assert "#" + (" " + title + ": " + expr) + "\n" + text == "#" + comment + "\n" + tail by {
      TitleSplits(title, expr, n, text);
    }
    ReadAfterComment(comment, tail);
    if n == |expr| {
      assert Contained(expr) by { NothingFollows(expr); }
    } else if Contained(expr) {
      var gap := expr[n + 1..] + "\n";
      assert White(gap) by { WhiteGap(expr, n); }
      assert tail == gap + text;
      ReadAfterWhite(gap, text);
    } else {
      ParsesMeans(decode, expr);
      TailReads(decode, expr, text);
    }
  }

  lemma ParsesMeans(decode: Decoder, expr: string)
    requires Parses(decode, expr)
    ensures ParseRuntimeExpr(decode, expr).Ok?
  {
    hide ParseRuntimeExpr;
  }

  lemma NoLineFeedIn(title: string, line: string)
    requires '\n' !in title && '\n' !in line
    ensures '\n' !in " " + title + ": " + line
  {
  }

  lemma TitleSplits(title: string, expr: string, n: nat, text: string)
    requires n <= |expr| && (n < |expr| ==> expr[n] == '\n')
    ensures "#" + (" " + title + ": " + expr) + "\n" + text
         == "#" + (" " + title + ": " + expr[..n]) + "\n" + if n < |expr| then expr[n + 1..] + ("\n" + text) else text
  {
    if n < |expr| {
      assert expr == expr[..n] + ("\n" + expr[n + 1..]);
    } else {
      assert expr == expr[..n];
    }
  }

  lemma NothingFollows(expr: string)
    requires LineLength(expr) == |expr|
    ensures Contained(expr)
  {
  }

  lemma WhiteGap(expr: string, n: nat)
    requires n == LineLength(expr) < |expr| && Contained(expr)
    ensures White(expr[n + 1..] + "\n")
  {
    hide LineLength;
    var tail, gap := expr[n..], expr[n + 1..] + "\n";
    forall i | 0 <= i < |gap|
      ensures gap[i] in {' ', '\t', '\r', '\n'}
    {
      if i < |gap| - 1 {
        assert gap[i] == tail[i + 1];
      }
    }
  }

  lemma {:induction false} SectionTextOk(isPrint: char -> bool, decode: Decoder, title: string, name: string, section: string,
                                         exprs: seq<string>, i: nat)
    requires i <= |exprs|
    ensures SectionText(isPrint, decode, title, name, section, exprs, i).Ok? <==> AllParse(decode, exprs[i..])
    decreases |exprs| - i
  {
    hide Parses, ExprCondition, RuntimeRuleText;
    if i < |exprs| {
      ExprConditionIs(isPrint, decode, exprs[i]);
      SectionTextOk(isPrint, decode, title, name, section, exprs, i + 1);
      assert exprs[i..] == [exprs[i]] + exprs[i + 1..];
    }
  }

  lemma {:induction false} ReadSection(isPrint: char -> bool, decode: Decoder, title: string, name: string, section: string,
                                       exprs: seq<string>, i: nat, rest: string)
    requires IsWord(name) && name != "default" && name != "decision" && '\n' !in title
    requires i <= |exprs| && AllParse(decode, exprs) && ArraysAreJson(decode, exprs)
    ensures SectionText(isPrint, decode, title, name, section, exprs, i).Ok?
    ensures ReadStatements(SectionText(isPrint, decode, title, name, section, exprs, i).value + rest)
         == if HarmlessEach(decode, exprs[i..]) && LegibleExprs(isPrint, decode, exprs[i..])
            then PutBefore(SectionStatements(decode, name, exprs[i..]), ReadStatements(rest)) else None
    decreases |exprs| - i
  {
    hide Parses, ExprCondition, RuntimeRuleText, ReadStatements, ExprBody, LegibleExpr, IsWord, Contained, ArrayIsJson, Harmless, RuleStatements;
    var r := ReadStatements(rest);
    if i == |exprs| {
      assert "" + rest == rest;
      assert r.Some? ==> [] + r.value == r.value;
    } else {
      ReadSection(isPrint, decode, title, name, section, exprs, i + 1, rest);
      var later := SectionText(isPrint, decode, title, name, section, exprs, i + 1).value;
      ReadRuntimeRule(isPrint, decode, title, name, exprs[i], later + rest);
      var text := RuntimeRuleText(isPrint, title, name, exprs[i], ExprCondition(isPrint, decode, exprs[i]).value);
      assert text + later + rest == text + (later + rest);
      var s, es := RuleStatements(decode, name, exprs[i]), exprs[i + 1..];
      assert exprs[i..] == [exprs[i]] + es && exprs[i..][1..] == es;
      assert SectionStatements(decode, name, exprs[i..]) == s + SectionStatements(decode, name, es);
      PutTwice(s, SectionStatements(decode, name, es), r);
      LegibleSplits(isPrint, decode, exprs[i], es);
      HarmlessSplits(decode, exprs[i], es);
    }
  }

  lemma PutTwice(a: seq<Statement>, b: seq<Statement>, r: Option<seq<Statement>>)
    ensures PutBefore(a, PutBefore(b, r)) == PutBefore(a + b, r)
    ensures PutBefore(a, None) == None
  {
    if r.Some? {
      assert a + (b + r.value) == a + b + r.value;
    }
  }

  lemma LegibleSplits(isPrint: char -> bool, decode: Decoder, e: string, es: seq<string>)
    requires Parses(decode, e) && AllParse(decode, es)
    ensures AllParse(decode, [e] + es)
    ensures LegibleExprs(isPrint, decode, [e] + es) <==> LegibleExpr(isPrint, decode, e) && LegibleExprs(isPrint, decode, es)
  {
    hide Parses, LegibleExpr;
    var all := [e] + es;
    assert all[0] == e;
    assert forall i | 0 <= i < |es| :: all[i + 1] == es[i];
  }

  lemma HarmlessSplits(decode: Decoder, e: string, es: seq<string>)
    requires Parses(decode, e) && AllParse(decode, es)
    ensures AllParse(decode, [e] + es)
    ensures HarmlessEach(decode, [e] + es) <==> Harmless(decode, e) && HarmlessEach(decode, es)
  {
    hide Harmless, Parses;
    var all := [e] + es;
    assert all[0] == e;
    assert forall i | 0 <= i < |es| :: all[i + 1] == es[i];
  }

  predicate Accepted(decode: Decoder, rs: RuleSet) {
    AllParse(decode, rs.block) && AllParse(decode, rs.warn) && AllParse(decode, rs.log)
  }

  ghost predicate HarmlessSet(decode: Decoder, rs: RuleSet)
    requires Accepted(decode, rs)
  {
    HarmlessEach(decode, rs.block) && HarmlessEach(decode, rs.warn) && HarmlessEach(decode, rs.log)
  }

  predicate JsonSet(decode: Decoder, rs: RuleSet)
    requires Accepted(decode, rs)
  {
    ArraysAreJson(decode, rs.block) && ArraysAreJson(decode, rs.warn) && ArraysAreJson(decode, rs.log)
  }

  /** Under a decoder that accepts JSON only, the arrays of every accepted rule set are JSON. */
  lemma AcceptedIsJson(decode: Decoder, rs: RuleSet)
    requires DecodesJson(decode) && Accepted(decode, rs)
    ensures JsonSet(decode, rs)
  {
    hide DecodesJson, ParseRuntimeExpr, ArrayIsJson;
    forall expr | Parses(decode, expr)
      ensures ArrayIsJson(decode, expr)
    {
      DecodedIsJson(decode, expr);
    }
  }

  predicate LegibleSet(isPrint: char -> bool, decode: Decoder, rs: RuleSet)
    requires Accepted(decode, rs)
  {
    LegibleExprs(isPrint, decode, rs.block) && LegibleExprs(isPrint, decode, rs.warn) && LegibleExprs(isPrint, decode, rs.log)
  }

  function CompiledRules(decode: Decoder, rs: RuleSet): Module
    requires Accepted(decode, rs)
  {
    Module("runtime_policy", ExprStatements(decode, "deny", rs.block)
                             + ExprStatements(decode, "warnings", rs.warn)
                             + ExprStatements(decode, "log_entries", rs.log))
  }

  /** What the text reads as: the compiled rules, and the set rules that comments hold. */
  function ReadModule(decode: Decoder, rs: RuleSet): Module
    requires Accepted(decode, rs)
  {
    Module("runtime_policy", SectionStatements(decode, "deny", rs.block)
                             + SectionStatements(decode, "warnings", rs.warn)
                             + SectionStatements(decode, "log_entries", rs.log))
  }

  /** A rule set compiles exactly when each of its expressions parses. */
  lemma CompilesWhenAccepted(isPrint: char -> bool, decode: Decoder, rs: RuleSet)
    ensures CompileRuntimeText(isPrint, decode, Some(rs)).Ok? <==> Accepted(decode, rs)
  {
    hide SectionText, AllParse;
    SectionTextOk(isPrint, decode, "Block", "deny", "block", rs.block, 0);
    SectionTextOk(isPrint, decode, "Warn", "warnings", "warn", rs.warn, 0);
    SectionTextOk(isPrint, decode, "Log", "log_entries", "log", rs.log, 0);
    assert rs.block[0..] == rs.block && rs.warn[0..] == rs.warn && rs.log[0..] == rs.log;
  }

  lemma SetNames()
    ensures IsWord("deny") && IsWord("warnings") && IsWord("log_entries") && IsWord("runtime_policy")
  {
  }

  lemma PlainTitles()
    ensures '\n' !in "Block" && '\n' !in "Warn" && '\n' !in "Log"
    ensures "deny" !in {"default", "decision"} && "warnings" !in {"default", "decision"} && "log_entries" !in {"default", "decision"}
  {
  }

  /** PRINT AND READ.  For every accepted rule set the emitted text reads back as exactly its rules, in
      order, when every quoted string is legible and what follows the first line feed of an expression is white
      space or a set rule, which is read too; otherwise it cannot be read at all. */
  lemma ReadRuntime(isPrint: char -> bool, decode: Decoder, rs: RuleSet)
    requires Accepted(decode, rs) && JsonSet(decode, rs)
    ensures CompileRuntimeText(isPrint, decode, Some(rs)).Ok?
    ensures Read(CompileRuntimeText(isPrint, decode, Some(rs)).value)
         == if HarmlessSet(decode, rs) && LegibleSet(isPrint, decode, rs) then Some(ReadModule(decode, rs)) else None
  {
    hide SectionText, AllParse, HarmlessEach, ArraysAreJson, ReadStatements, Read, Header, LegibleExprs, SectionStatements, IsWord;
    SetNames();
    PlainTitles();
    var t3 := SectionText(isPrint, decode, "Log", "log_entries", "log", rs.log, 0);
    ReadSection(isPrint, decode, "Log", "log_entries", "log", rs.log, 0, "");
    var t2 := SectionText(isPrint, decode, "Warn", "warnings", "warn", rs.warn, 0);
    ReadSection(isPrint, decode, "Warn", "warnings", "warn", rs.warn, 0, t3.value + "");
    var t1 := SectionText(isPrint, decode, "Block", "deny", "block", rs.block, 0);
    ReadSection(isPrint, decode, "Block", "deny", "block", rs.block, 0, t2.value + (t3.value + ""));
    assert rs.block[0..] == rs.block && rs.warn[0..] == rs.warn && rs.log[0..] == rs.log;
    assert ReadStatements("") == Some([]) by { NothingReads(); }
    ReadHeaderThen("runtime_policy", t1.value + (t2.value + (t3.value + "")));
    assert Header("runtime_policy") + t1.value + t2.value + t3.value
        == Header("runtime_policy") + (t1.value + (t2.value + (t3.value + "")));
    var s1, s2, s3 := SectionStatements(decode, "deny", rs.block), SectionStatements(decode, "warnings", rs.warn),
                      SectionStatements(decode, "log_entries", rs.log);
    assert s1 + (s2 + (s3 + [])) == s1 + s2 + s3;
  }

  lemma NothingReads()
    ensures ReadStatements("") == Some([])
  {
  }

  // ----- Line feeds -------------------------------------------------------------------------

  /** A line feed between operator and argument: the compiler still accepts the rule, but what it emits
      cannot be read, whatever the argument and the other rules. */
  lemma LineFeedBreaksText(isPrint: char -> bool, decode: Decoder, field: string, arg: string, rs: RuleSet)
    requires field in FIELDS && arg != "" && !HasDisallowed(arg)
    requires rs.block != [] && rs.block[0] == field + (" " + ("" + ("contains" + (" " + ("\n" + ("\"" + arg + "\""))))))
    requires AllParse(decode, rs.block[1..]) && AllParse(decode, rs.warn) && AllParse(decode, rs.log)
    ensures CompileRuntimeText(isPrint, decode, Some(rs)).Ok?
    ensures Read(CompileRuntimeText(isPrint, decode, Some(rs)).value) == None
  {
    hide ParseRuntimeExpr, AllParse, Read, ReadStatements, HasDisallowed, Harmless, ArrayIsJson, SectionText, Header, IsWord;
    var expr := rs.block[0];
    BrokenParses(decode, field, arg, expr);
    assert AllParse(decode, rs.block) by { AllParseSplit(decode, rs.block); }
    CompilesWhenAccepted(isPrint, decode, rs);
    var t1 := SectionText(isPrint, decode, "Block", "deny", "block", rs.block, 0).value;
    var t2 := SectionText(isPrint, decode, "Warn", "warnings", "warn", rs.warn, 0).value;
    var t3 := SectionText(isPrint, decode, "Log", "log_entries", "log", rs.log, 0).value;
    FirstRuleBreaks(isPrint, decode, rs.block, t2 + t3);
    SetNames();
    ReadHeaderThen("runtime_policy", t1 + (t2 + t3));
    assert Header("runtime_policy") + t1 + t2 + t3 == Header("runtime_policy") + (t1 + (t2 + t3));
  }

  /** One rule whose line feed does harm makes everything from it on unreadable. */
  lemma FirstRuleBreaks(isPrint: char -> bool, decode: Decoder, block: seq<string>, rest: string)
    requires block != [] && AllParse(decode, block) && Parses(decode, block[0]) && ArrayIsJson(decode, block[0]) && !Harmless(decode, block[0])
    ensures SectionText(isPrint, decode, "Block", "deny", "block", block, 0).Ok?
    ensures ReadStatements(SectionText(isPrint, decode, "Block", "deny", "block", block, 0).value + rest) == None
  {
    hide Parses, ArrayIsJson, Harmless, ReadStatements, RuntimeRuleText, ExprCondition, IsWord, RuleStatements;
    SetNames();
    PlainTitles();
    assert block[0..] == block;
    SectionTextOk(isPrint, decode, "Block", "deny", "block", block, 0);
    var later := SectionText(isPrint, decode, "Block", "deny", "block", block, 1).value;
    ReadRuntimeRule(isPrint, decode, "Block", "deny", block[0], later + rest);
    var text := RuntimeRuleText(isPrint, "Block", "deny", block[0], ExprCondition(isPrint, decode, block[0]).value);
    assert text + later + rest == text + (later + rest);
  }

  /** A line feed at the end, as after a YAML block, does no harm: the rule reads as without it. */
  lemma FinalLineFeedIsHarmless(isPrint: char -> bool, decode: Decoder, title: string, name: string, expr: string, rest: string)
    requires IsWord(name) && name != "default" && name != "decision" && '\n' !in title
    requires '\n' !in expr && Parses(decode, expr + "\n") && ArrayIsJson(decode, expr + "\n")
    ensures Contained(expr + "\n") && ExprCondition(isPrint, decode, expr + "\n").Ok?
    ensures ReadStatements(RuntimeRuleText(isPrint, title, name, expr + "\n", ExprCondition(isPrint, decode, expr + "\n").value) + rest)
         == if LegibleExpr(isPrint, decode, expr + "\n")
            then Cons(Partial(name, ExprBody(decode, expr + "\n")), ReadStatements(rest)) else None
  {
    hide Parses, ArrayIsJson, ReadStatements, RuntimeRuleText, ExprCondition, IsWord, ExprBody, LegibleExpr;
    assert expr + "\n" + "" == expr + "\n";
    LineLengthIs(expr, "");
    ReadRuntimeRule(isPrint, decode, title, name, expr + "\n", rest);
    PutTwo(LeftOver(decode, expr + "\n"), Partial(name, ExprBody(decode, expr + "\n")), ReadStatements(rest));
  }

  /** A line feed in front of a `contains` expression leaves the rest of it standing as a set rule: the text
      is read with an extra set named after the field. */
  lemma LeadingLineFeedIsFact(isPrint: char -> bool, decode: Decoder, title: string, name: string, field: string, arg: string, rest: string)
    requires IsWord(name) && name != "default" && name != "decision" && '\n' !in title
    requires field in FIELDS && arg != "" && !HasDisallowed(arg) && Plain(arg)
    ensures var expr := "\n" + "" + (field + (" " + ("" + ("contains" + (" " + ("" + ("\"" + arg + "\""))))))) + "";
            && Parses(decode, expr) && IsFact(decode, expr) && ExprCondition(isPrint, decode, expr).Ok?
            && (LegibleExpr(isPrint, decode, expr) ==>
                  ReadStatements(RuntimeRuleText(isPrint, title, name, expr, ExprCondition(isPrint, decode, expr).value) + rest)
                  == Cons(Fact(field, arg), Cons(Partial(name, ExprBody(decode, expr)), ReadStatements(rest))))
  {
    hide ParseRuntimeExpr, HasDisallowed, ReadStatements, RuntimeRuleText, ExprCondition, IsWord, ExprBody, LegibleExpr, Contained, Plain, FIELDS;
    var quoted := "\"" + arg + "\"";
    var core := field + (" " + ("" + ("contains" + (" " + ("" + quoted)))));
    var expr := "\n" + "" + core + "";
    LeadingParses(decode, field, arg, expr);
    assert FactSpelled(expr, "", "", field, "", "", arg, "");
    ReadRuntimeRule(isPrint, decode, title, name, expr, rest);
    LeadingIsNotContained(expr, quoted);
    PutTwo(Fact(field, arg), Partial(name, ExprBody(decode, expr)), ReadStatements(rest));
  }

  lemma LeadingParses(decode: Decoder, field: string, arg: string, expr: string)
    requires field in FIELDS && arg != "" && !HasDisallowed(arg)
    requires expr == "\n" + "" + (field + (" " + ("" + ("contains" + (" " + ("" + ("\"" + arg + "\""))))))) + ""
    ensures Parses(decode, expr) && ArrayIsJson(decode, expr) && ParseRuntimeExpr(decode, expr).value == (field, "contains", arg)
  {
    hide ParseRuntimeExpr, HasDisallowed;
    var quoted := "\"" + arg + "\"";
    assert quoted[1..|quoted| - 1] == arg;
    assert Blank("\n") && Blank("");
    assert Tight(quoted);
    assert expr == "\n" + (field + (" " + ("" + ("contains" + (" " + ("" + quoted)))))) + "";
    ParseSpelled(decode, expr, "\n", field, "", "contains", "", quoted, "");
  }

  lemma LeadingIsNotContained(expr: string, quoted: string)
    requires |quoted| >= 2 && quoted[|quoted| - 1] == '"' && |expr| > |quoted| && expr[|expr| - |quoted|..] == quoted && expr[0] == '\n'
    ensures !Contained(expr)
  {
    assert expr[|expr| - |quoted|..][|quoted| - 1] == expr[|expr| - 1];
    ContainedExactly(expr);
  }

  lemma AllParseSplit(decode: Decoder, exprs: seq<string>)
    requires exprs != [] && Parses(decode, exprs[0]) && AllParse(decode, exprs[1..])
    ensures AllParse(decode, exprs)
  {
    hide Parses;
    forall i | 0 <= i < |exprs| ensures Parses(decode, exprs[i]) {
      if i > 0 { assert exprs[i] == exprs[1..][i - 1]; }
    }
  }

  /** The broken expression is accepted all the same. */
  lemma BrokenParses(decode: Decoder, field: string, arg: string, expr: string)
    requires field in FIELDS && arg != "" && !HasDisallowed(arg)
    requires expr == field + (" " + ("" + ("contains" + (" " + ("\n" + ("\"" + arg + "\""))))))
    ensures Parses(decode, expr) && ArrayIsJson(decode, expr) && !Harmless(decode, expr)
  {
    hide ParseRuntimeExpr, HasDisallowed, Contained;
    var quoted := "\"" + arg + "\"";
    assert quoted[1..|quoted| - 1] == arg;
    assert Blank("\n") && Blank("");
    assert Tight(quoted);
    assert expr == "" + (field + (" " + ("" + ("contains" + (" " + ("\n" + quoted)))))) + "";
    ParseSpelled(decode, expr, "", field, "", "contains", "\n", quoted, "");
    BrokenIsNotContained(field, quoted, expr);
    BrokenIsNoFact(decode, field, expr);
  }

  /** The line before the line feed is not blank. */
  lemma BrokenIsNoFact(decode: Decoder, field: string, expr: string)
    requires ParseRuntimeExpr(decode, expr).Ok? && field in FIELDS && field <= expr
    ensures !IsFact(decode, expr)
  {
    hide ParseRuntimeExpr;
    assert field != "" && !IsSpace(field[0]) && field[0] == expr[0];
    forall line, a, b, c, d, f, text
      ensures !FactSpelled(expr, line, a, f, b, c, text, d)
    {
      if line == "" {
        assert (line + "\n" + a + (f + (" " + (b + ("contains" + (" " + (c + ("\"" + text + "\""))))))) + d)[0] == '\n';
      } else {
        assert (line + "\n" + a + (f + (" " + (b + ("contains" + (" " + (c + ("\"" + text + "\""))))))) + d)[0] == line[0];
      }
    }
  }

  lemma BrokenIsNotContained(field: string, quoted: string, expr: string)
    requires |quoted| >= 2 && quoted[|quoted| - 1] == '"'
    requires expr == field + (" " + ("" + ("contains" + (" " + ("\n" + quoted)))))
    ensures !Contained(expr)
  {
    hide Contained;
    assert expr[|expr| - 1] == '"' && expr[|expr| - |quoted| - 1] == '\n';
    ContainedExactly(expr);
  }

  // ----- Meaning ----------------------------------------------------------------------------

  /** Whether an expression holds of an action, read off its parsed parts. */
  predicate ExprHolds(decode: Decoder, glob: Glob, expr: string, action: map<string, string>)
    requires Parses(decode, expr) && FIELDS <= action.Keys
  {
    ParsedParts(decode, expr);
    var (field, op, arg) := ParseRuntimeExpr(decode, expr).value;
    if op == "contains" then (if '*' in arg then glob(arg, action[field]) else Contains(action[field], arg))
    else if op == "any" then action[field] in decode(arg).value
    else action[field] !in decode(arg).value
  }

  lemma ExprMessages(decode: Decoder, glob: Glob, expr: string, input: Input)
    requires Parses(decode, expr) && FIELDS <= input.action.Keys
    ensures BodyMessages(ExprBody(decode, expr), None, None, input, glob)
         == if ExprHolds(decode, glob, expr, input.action) then {expr} else {}
  {
    hide ParseRuntimeExpr, Contains;
    ParsedParts(decode, expr);
    var l := ExprLiteral(decode, expr);
    assert !l.SomeCap? && !l.Msg?;
    assert Holds(l, None, input, glob) <==> ExprHolds(decode, glob, expr, input.action);
    var body, end := [l, Msg(expr)], [Msg(expr)];
    assert body[1..] == end && end[1..] == [];
    assert BodyMessages(end, None, None, input, glob) == {expr};
  }

  lemma {:induction false} SectionMessages(decode: Decoder, glob: Glob, name: string, exprs: seq<string>, n: string, input: Input, m: string)
    requires AllParse(decode, exprs) && FIELDS <= input.action.Keys
    ensures m in SetOf(ExprStatements(decode, name, exprs), n, input, glob)
       <==> name == n && m in exprs && ExprHolds(decode, glob, m, input.action)
  {
    hide Parses, ExprHolds, BodyMessages, ExprBody;
    var ss := ExprStatements(decode, name, exprs);
    SetOfIs(ss, n, input, glob, m);
    forall i | 0 <= i < |exprs|
      ensures m in BodyMessages(ss[i].body, None, None, input, glob)
         <==> m == exprs[i] && ExprHolds(decode, glob, exprs[i], input.action)
    {
      ExprMessages(decode, glob, exprs[i], input);
    }
    if name == n && m in exprs && ExprHolds(decode, glob, m, input.action) {
      var i :| 0 <= i < |exprs| && exprs[i] == m;
      assert Adds(ss[i], n);
    }
  }

  lemma {:induction false} SetOfAppend(a: seq<Statement>, b: seq<Statement>, name: string, input: Input, glob: Glob)
    ensures SetOf(a + b, name, input, glob) == SetOf(a, name, input, glob) + SetOf(b, name, input, glob)
  {
    hide BodyMessages;
    if a == [] {
      assert a + b == b;
    } else {
      assert (a + b)[1..] == a[1..] + b;
      SetOfAppend(a[1..], b, name, input, glob);
    }
  }

  lemma RuntimeSet(decode: Decoder, glob: Glob, rs: RuleSet, input: Input, n: string, m: string)
    requires Accepted(decode, rs) && FIELDS <= input.action.Keys
    ensures m in SetOf(CompiledRules(decode, rs).statements, n, input, glob)
       <==> || (n == "deny" && m in rs.block && ExprHolds(decode, glob, m, input.action))
            || (n == "warnings" && m in rs.warn && ExprHolds(decode, glob, m, input.action))
            || (n == "log_entries" && m in rs.log && ExprHolds(decode, glob, m, input.action))
  {
    hide Parses, ExprHolds, ExprStatements, SetOf;
    var s1, s2, s3 := ExprStatements(decode, "deny", rs.block), ExprStatements(decode, "warnings", rs.warn),
                      ExprStatements(decode, "log_entries", rs.log);
    SetOfAppend(s1 + s2, s3, n, input, glob);
    SetOfAppend(s1, s2, n, input, glob);
    SectionMessages(decode, glob, "deny", rs.block, n, input, m);
    SectionMessages(decode, glob, "warnings", rs.warn, n, input, m);
    SectionMessages(decode, glob, "log_entries", rs.log, n, input, m);
  }

  /** The expressions that hold, and what other modules of the package add. */
  ghost predicate IsHeldSet(s: set<string>, decode: Decoder, glob: Glob, exprs: seq<string>, action: map<string, string>,
                            others: Others, name: string)
    requires AllParse(decode, exprs) && FIELDS <= action.Keys
  {
    forall m :: m in s <==> (m in exprs && ExprHolds(decode, glob, m, action)) || (name in others.sets && m in others.sets[name])
  }

  /** No section adds to a name for which the rest of the package has complete rules. */
  predicate FitsBeside(rs: RuleSet, others: Others) {
    && (rs.block != [] ==> "deny" !in others.complete)
    && (rs.warn != [] ==> "warnings" !in others.complete)
    && (rs.log != [] ==> "log_entries" !in others.complete)
  }

  /** Line feeds add nothing to the three sets: a set rule left standing has the name of a field. */
  lemma {:induction false} FactsAddNothing(decode: Decoder, name: string, exprs: seq<string>, n: string, input: Input, glob: Glob)
    requires AllParse(decode, exprs) && n !in FIELDS
    ensures SetOf(SectionStatements(decode, name, exprs), n, input, glob) == SetOf(ExprStatements(decode, name, exprs), n, input, glob)
  {
    hide Parses, ExprBody, BodyMessages, Contained, ParseRuntimeExpr, SetOf, RuleStatements, LeftOver;
    if exprs == [] {
      assert ExprStatements(decode, name, exprs) == [];
    } else {
      var e, es := exprs[0], exprs[1..];
      TailParses(decode, exprs);
      FactsAddNothing(decode, name, es, n, input, glob);
      FactField(decode, e);
      var own := [Partial(name, ExprBody(decode, e))];
      assert ExprStatements(decode, name, exprs) == own + ExprStatements(decode, name, es);
      assert exprs == [e] + es;
      SetOfAppend(RuleStatements(decode, name, e), SectionStatements(decode, name, es), n, input, glob);
      SetOfAppend(own, ExprStatements(decode, name, es), n, input, glob);
      SetOfRule(decode, name, e, n, input, glob);
    }
  }

  lemma FactField(decode: Decoder, expr: string)
    requires Parses(decode, expr)
    ensures LeftOver(decode, expr).Fact? && LeftOver(decode, expr).name in FIELDS
  {
    hide ParseRuntimeExpr;
    ParsedParts(decode, expr);
  }

  lemma SetOfRule(decode: Decoder, name: string, e: string, n: string, input: Input, glob: Glob)
    requires Parses(decode, e) && n !in FIELDS
    ensures SetOf(RuleStatements(decode, name, e), n, input, glob) == SetOf([Partial(name, ExprBody(decode, e))], n, input, glob)
  {
    hide Parses, ExprBody, BodyMessages, Contained, LeftOver, SetOf;
    FactField(decode, e);
    var own := [Partial(name, ExprBody(decode, e))];
    if Contained(e) {
      assert RuleStatements(decode, name, e) == own;
    } else {
      assert RuleStatements(decode, name, e) == [LeftOver(decode, e)] + own;
      SetOfAppend([LeftOver(decode, e)], own, n, input, glob);
      OtherFact(LeftOver(decode, e), n, input, glob);
    }
  }

  lemma OtherFact(s: Statement, n: string, input: Input, glob: Glob)
    requires s.Fact? && s.name != n
    ensures SetOf([s], n, input, glob) == {}
  {
    assert [s][1..] == [];
  }

  lemma FieldsAreNoSets()
    ensures "deny" !in FIELDS && "warnings" !in FIELDS && "log_entries" !in FIELDS && "decision" !in FIELDS
  {
  }

  /** The statements of a section: set rules for its own name, or for a field. */
  lemma {:induction false} SectionAdds(decode: Decoder, name: string, exprs: seq<string>)
    requires AllParse(decode, exprs)
    ensures forall i | 0 <= i < |SectionStatements(decode, name, exprs)| ::
              var s := SectionStatements(decode, name, exprs)[i];
              (s.Partial? && s.name == name) || (s.Fact? && s.name in FIELDS)
    ensures exprs != [] ==> exists i :: 0 <= i < |SectionStatements(decode, name, exprs)| && Adds(SectionStatements(decode, name, exprs)[i], name)
    ensures exprs == [] ==> SectionStatements(decode, name, exprs) == []
  {
    hide Parses, ExprBody, Contained, LeftOver;
    if exprs != [] {
      var e, es := exprs[0], exprs[1..];
      TailParses(decode, exprs);
      SectionAdds(decode, name, es);
      FactField(decode, e);
      var own := RuleStatements(decode, name, e);
      assert own[|own| - 1] == Partial(name, ExprBody(decode, e));
      assert SectionStatements(decode, name, exprs)[|own| - 1] == own[|own| - 1];
    }
  }

  /** The module fits beside the rest of its package exactly when its sections do. */
  lemma FitsExactly(decode: Decoder, rs: RuleSet, others: Others)
    requires Accepted(decode, rs) && others.complete !! FIELDS
    ensures OneKindEach(ReadModule(decode, rs).statements, others) <==> FitsBeside(rs, others)
  {
    hide SectionStatements, AllParse, FIELDS;
    FieldsAreNoSets();
    var s1, s2, s3 := SectionStatements(decode, "deny", rs.block), SectionStatements(decode, "warnings", rs.warn),
                      SectionStatements(decode, "log_entries", rs.log);
    SectionAdds(decode, "deny", rs.block);
    SectionAdds(decode, "warnings", rs.warn);
    SectionAdds(decode, "log_entries", rs.log);
    KindsOf(s1, s2, s3, others);
  }

  lemma KindsOf(s1: seq<Statement>, s2: seq<Statement>, s3: seq<Statement>, others: Others)
    requires others.complete !! FIELDS && "decision" !in FIELDS
    requires forall i | 0 <= i < |s1| :: (s1[i].Partial? && s1[i].name == "deny") || (s1[i].Fact? && s1[i].name in FIELDS)
    requires forall i | 0 <= i < |s2| :: (s2[i].Partial? && s2[i].name == "warnings") || (s2[i].Fact? && s2[i].name in FIELDS)
    requires forall i | 0 <= i < |s3| :: (s3[i].Partial? && s3[i].name == "log_entries") || (s3[i].Fact? && s3[i].name in FIELDS)
    requires s1 != [] ==> exists i :: 0 <= i < |s1| && Adds(s1[i], "deny")
    requires s2 != [] ==> exists i :: 0 <= i < |s2| && Adds(s2[i], "warnings")
    requires s3 != [] ==> exists i :: 0 <= i < |s3| && Adds(s3[i], "log_entries")
    ensures OneKindEach(s1 + s2 + s3, others)
       <==> && (s1 != [] ==> "deny" !in others.complete) && (s2 != [] ==> "warnings" !in others.complete)
            && (s3 != [] ==> "log_entries" !in others.complete)
  {
    hide FIELDS;
    var ss := s1 + s2 + s3;
    if OneKindEach(ss, others) {
      if i :| 0 <= i < |s1| && Adds(s1[i], "deny") { assert ss[i] == s1[i]; }
      if i :| 0 <= i < |s2| && Adds(s2[i], "warnings") { assert ss[|s1| + i] == s2[i]; }
      if i :| 0 <= i < |s3| && Adds(s3[i], "log_entries") { assert ss[|s1| + |s2| + i] == s3[i]; }
    }
    forall i | 0 <= i < |ss|
      ensures ss[i] in s1 || ss[i] in s2 || ss[i] in s3
    {
    }
  }

  /** What was read is evaluated, unless a section does not fit beside the rest of the package, to exactly the
      expressions that hold and what the rest of the package adds, wherever the line feeds are. */
  lemma RuntimeModuleMeaning(decode: Decoder, glob: Glob, rs: RuleSet, others: Others, input: Input)
    requires Accepted(decode, rs) && FIELDS <= input.action.Keys && others.complete !! FIELDS
    ensures var o := Evaluate(ReadModule(decode, rs), others, input, glob);
            && (o.Evaluated? || o.MixedKinds?)
            && (o.Evaluated? <==> FitsBeside(rs, others))
            && (o.Evaluated? ==>
                && IsHeldSet(o.deny, decode, glob, rs.block, input.action, others, "deny")
                && IsHeldSet(o.warnings, decode, glob, rs.warn, input.action, others, "warnings")
                && IsHeldSet(o.logEntries, decode, glob, rs.log, input.action, others, "log_entries"))
  {
    hide WholeSet, DecisionValues, Only, OneKindEach, References, FIELDS, AllParse, ReadModule, FitsBeside, IsHeldSet, Accepted;
    FitsExactly(decode, rs, others);
    NoDecisionRules(decode, rs, others, input, glob);
    AcceptedParts(decode, rs);
    SetIsHeld(decode, glob, rs, others, input, "deny", rs.block);
    SetIsHeld(decode, glob, rs, others, input, "warnings", rs.warn);
    SetIsHeld(decode, glob, rs, others, input, "log_entries", rs.log);
  }

  lemma AcceptedParts(decode: Decoder, rs: RuleSet)
    requires Accepted(decode, rs)
    ensures AllParse(decode, rs.block) && AllParse(decode, rs.warn) && AllParse(decode, rs.log)
  {
  }

  /** Each of the three sets holds what its section says. */
  lemma SetIsHeld(decode: Decoder, glob: Glob, rs: RuleSet, others: Others, input: Input, n: string, exprs: seq<string>)
    requires Accepted(decode, rs) && AllParse(decode, exprs) && FIELDS <= input.action.Keys
    requires (n == "deny" && exprs == rs.block) || (n == "warnings" && exprs == rs.warn) || (n == "log_entries" && exprs == rs.log)
    ensures IsHeldSet(WholeSet(ReadModule(decode, rs).statements, others, n, input, glob), decode, glob, exprs, input.action, others, n)
  {
    hide Parses, SetOf, ExprHolds, SectionStatements, ExprStatements, FIELDS, ReadModule, CompiledRules;
    SameSets(decode, rs, input, glob);
    forall m
      ensures m in SetOf(ReadModule(decode, rs).statements, n, input, glob) <==> m in exprs && ExprHolds(decode, glob, m, input.action)
    {
      RuntimeSet(decode, glob, rs, input, n, m);
    }
  }

  /** The sets of what was read are those of the compiled rules. */
  lemma SameSets(decode: Decoder, rs: RuleSet, input: Input, glob: Glob)
    requires Accepted(decode, rs)
    ensures forall n | n in {"deny", "warnings", "log_entries"} ::
              SetOf(ReadModule(decode, rs).statements, n, input, glob) == SetOf(CompiledRules(decode, rs).statements, n, input, glob)
  {
    hide AllParse, SetOf, SectionStatements, ExprStatements, FIELDS;
    FieldsAreNoSets();
    var s1, s2, s3 := SectionStatements(decode, "deny", rs.block), SectionStatements(decode, "warnings", rs.warn),
                      SectionStatements(decode, "log_entries", rs.log);
    var e1, e2, e3 := ExprStatements(decode, "deny", rs.block), ExprStatements(decode, "warnings", rs.warn),
                      ExprStatements(decode, "log_entries", rs.log);
    forall n | n in {"deny", "warnings", "log_entries"}
      ensures SetOf(s1 + s2 + s3, n, input, glob) == SetOf(e1 + e2 + e3, n, input, glob)
    {
      FactsAddNothing(decode, "deny", rs.block, n, input, glob);
      FactsAddNothing(decode, "warnings", rs.warn, n, input, glob);
      FactsAddNothing(decode, "log_entries", rs.log, n, input, glob);
      SetOfAppend(s1 + s2, s3, n, input, glob);
      SetOfAppend(s1, s2, n, input, glob);
      SetOfAppend(e1 + e2, e3, n, input, glob);
      SetOfAppend(e1, e2, n, input, glob);
    }
  }

  lemma NoDecisionRules(decode: Decoder, rs: RuleSet, others: Others, input: Input, glob: Glob)
    requires Accepted(decode, rs)
    ensures var ss := ReadModule(decode, rs).statements;
            References(ss, others) && DecisionValues(ss, others, |ss|, input, glob) == {}
  {
    hide AllParse, SectionStatements, FIELDS;
    var s1, s2, s3 := SectionStatements(decode, "deny", rs.block), SectionStatements(decode, "warnings", rs.warn),
                      SectionStatements(decode, "log_entries", rs.log);
    SectionAdds(decode, "deny", rs.block);
    SectionAdds(decode, "warnings", rs.warn);
    SectionAdds(decode, "log_entries", rs.log);
    var ss := s1 + s2 + s3;
    assert forall i | 0 <= i < |ss| :: ss[i] == if i < |s1| then s1[i] else if i < |s1| + |s2| then s2[i - |s1|] else s3[i - |s1| - |s2|];
    NoDecisions(ss, others, |ss|, input, glob);
  }

  lemma {:induction false} NoDecisions(ss: seq<Statement>, others: Others, n: nat, input: Input, glob: Glob)
    requires n <= |ss| && forall k | 0 <= k < |ss| :: !ss[k].Decide?
    ensures DecisionValues(ss, others, n, input, glob) == {}
  {
    hide DecisionHolds;
    if n > 0 {
      NoDecisions(ss, others, n - 1, input, glob);
    }
  }

  /** END TO END.  For every accepted rule set the emitted text, whenever it can be read and fits beside the rest of
      the package, puts in `deny`, `warnings` and `log_entries` on any action exactly the block, warn and log
      expressions that hold, besides what the rest of the package adds. */
  lemma RuntimeTextMeaning(isPrint: char -> bool, decode: Decoder, glob: Glob, rs: RuleSet, others: Others, input: Input)
    requires Accepted(decode, rs) && JsonSet(decode, rs)
    requires FIELDS <= input.action.Keys && others.complete !! FIELDS
    ensures CompileRuntimeText(isPrint, decode, Some(rs)).Ok?
    ensures var m := Read(CompileRuntimeText(isPrint, decode, Some(rs)).value);
            && (m.Some? <==> HarmlessSet(decode, rs) && LegibleSet(isPrint, decode, rs))
            && (m.Some? ==>
                  var o := Evaluate(m.value, others, input, glob);
                  && (o.Evaluated? <==> FitsBeside(rs, others))
                  && (o.Evaluated? ==>
                      && IsHeldSet(o.deny, decode, glob, rs.block, input.action, others, "deny")
                      && IsHeldSet(o.warnings, decode, glob, rs.warn, input.action, others, "warnings")
                      && IsHeldSet(o.logEntries, decode, glob, rs.log, input.action, others, "log_entries")))
  {
    hide Read, CompileRuntimeText, AllParse, HarmlessSet, JsonSet, LegibleSet, Evaluate, IsHeldSet, ReadModule, FitsBeside, FIELDS;
    ReadRuntime(isPrint, decode, rs);
    RuntimeModuleMeaning(decode, glob, rs, others, input);
  }

  // ----- Beside the presets -----------------------------------------------------------------

  const HELPERS: set<string> := {"decision", "trust_tier", "is_localhost", "dest_in_manifest"}

  /** The names with complete rules or functions in the runtime presets. */
  const STRICT: set<string> := HELPERS + {"unverified_localhost", "resource_in_manifest", "warnings"}
  const MODERATE: set<string> := HELPERS + {"resource_in_manifest"}
  const PERMISSIVE: set<string> := HELPERS + {"deny"}

  lemma PresetNames()
    ensures STRICT !! FIELDS && MODERATE !! FIELDS && PERMISSIVE !! FIELDS
    ensures "deny" !in STRICT && "warnings" in STRICT && "log_entries" !in STRICT
    ensures "deny" in PERMISSIVE && "warnings" !in PERMISSIVE && "log_entries" !in PERMISSIVE
    ensures "deny" !in MODERATE && "warnings" !in MODERATE && "log_entries" !in MODERATE
  {
  }

  /** The strict preset refuses warn rules, the permissive one block rules, and the moderate one nothing. */
  lemma PresetsRefuse(decode: Decoder, glob: Glob, rs: RuleSet, sets: map<string, set<string>>, input: Input)
    requires Accepted(decode, rs) && FIELDS <= input.action.Keys
    ensures Evaluate(ReadModule(decode, rs), Others(STRICT, sets), input, glob).Evaluated? <==> rs.warn == []
    ensures Evaluate(ReadModule(decode, rs), Others(PERMISSIVE, sets), input, glob).Evaluated? <==> rs.block == []
    ensures Evaluate(ReadModule(decode, rs), Others(MODERATE, sets), input, glob).Evaluated?
  {
    hide Evaluate, ReadModule, AllParse, IsHeldSet, STRICT, MODERATE, PERMISSIVE, FIELDS;
    PresetNames();
    RuntimeModuleMeaning(decode, glob, rs, Others(STRICT, sets), input);
    RuntimeModuleMeaning(decode, glob, rs, Others(PERMISSIVE, sets), input);
    RuntimeModuleMeaning(decode, glob, rs, Others(MODERATE, sets), input);
  }
}
