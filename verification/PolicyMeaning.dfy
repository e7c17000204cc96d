/** What the text of one compiled rule means: a comment line and a printed statement, which reads back as
itself. */
module PolicyMeaning {
  import opened Outcomes
  import opened RegoLexer
  import opened Rego
  import opened RegoReader
  import opened PolicyDsl
  import opened Text

  // ----- The rule as a Rego statement ------------------------------------------------------

  /** Operator and argument of a rule that compiles. */
  function RuleOperator(r: Rule): (string, string)
    requires ParseOperator(RuleExpr(r)).Ok?
  {
    ParseOperator(RuleExpr(r)).value
  }

  predicate Compiles(r: Rule) {
    && ParseOperator(RuleExpr(r)).Ok?
    && RuleOperator(r).0 in {"contains", "any"}
    && BadExcept(r.except).None?
  }

  function Condition(r: Rule): Literal
    requires Compiles(r)
  {
    var (op, arg) := RuleOperator(r);
    if op == "contains" then ContainsText(Cap, arg) else StartsWith(Cap, arg)
  }

  function RuleBody(category: string, r: Rule): seq<Literal>
    requires Compiles(r)
  {
    if r.except == []
    then [SomeCap(category), Condition(r), Msg(r.message)]
    else [SomeCap(category), Condition(r), NotIn(Cap, r.except), Msg(r.message)]
  }

  function RuleStatement(category: string, r: Rule): Statement
    requires Compiles(r)
  {
    Partial(RuleSet(r), RuleBody(category, r))
  }

  /** Every string the rule prints in quotes can be read again. */
  predicate LegibleRule(isPrint: char -> bool, r: Rule)
    requires Compiles(r)
  {
    AllLegible(isPrint, RuleOperator(r).1) && LegibleAll(isPrint, r.except) && AllLegible(isPrint, r.message)
  }

  // ----- The text of a rule is its statement, behind a comment -----------------------------

  lemma {:induction false} ReplaceAllIn(s: string, c: char, sub: string, x: char)
    requires x !in sub
    ensures x in ReplaceAll(s, c, sub) <==> x in s && x != c
  {
    if s != "" {
      ReplaceAllIn(s[1..], c, sub, x);
      assert s == [s[0]] + s[1..];
    }
  }

  /** A message cannot leave its comment line. */
  lemma CommentStaysOnLine(message: string)
    ensures '\n' !in CommentText(message) && '\r' !in CommentText(message)
  {
    var s1 := ReplaceAll(message, '"', "\\\"");
    var s2 := ReplaceAll(s1, '\n', " ");
    ReplaceAllIn(s1, '\n', " ", '\n');
    ReplaceAllIn(s2, '\r', " ", '\n');
    ReplaceAllIn(s2, '\r', " ", '\r');
  }

  /** A message character by character: a quote gets a backslash, and a line break becomes a space. */
  function OnOneLine(message: string): string {
    if message == "" then ""
    else (match message[0]
          case '"' => "\\\""
          case '\n' => " "
          case '\r' => " "
          case c => [c]) + OnOneLine(message[1..])
  }

  lemma {:induction false} ReplaceAllConcat(s: string, t: string, c: char, sub: string)
    ensures ReplaceAll(s + t, c, sub) == ReplaceAll(s, c, sub) + ReplaceAll(t, c, sub)
  {
    if s == "" {
      assert s + t == t;
    } else {
      assert (s + t)[1..] == s[1..] + t;
      ReplaceAllConcat(s[1..], t, c, sub);
    }
  }

  /** The three replacements, one after the other, are one pass over the message. */
  lemma {:induction false} CommentTextIs(message: string)
    ensures CommentText(message) == OnOneLine(message)
  {
    if message != "" {
      CommentTextIs(message[1..]);
      CommentTextStep(message[0], message[1..]);
      assert [message[0]] + message[1..] == message;
    }
  }

  lemma {:induction false} CommentTextStep(c: char, rest: string)
    ensures CommentText([c] + rest) == CommentText([c]) + CommentText(rest)
    ensures CommentText([c]) == if c == '"' then "\\\"" else if c == '\n' || c == '\r' then " " else [c]
  {
    hide ReplaceAll;
    var s1, t1 := ReplaceAll([c], '"', "\\\""), ReplaceAll(rest, '"', "\\\"");
    var s2, t2 := ReplaceAll(s1, '\n', " "), ReplaceAll(t1, '\n', " ");
    ReplaceAllConcat([c], rest, '"', "\\\"");
    ReplaceAllConcat(s1, t1, '\n', " ");
    ReplaceAllConcat(s2, t2, '\r', " ");
    CommentTextOfOne(c);
  }

  lemma CommentTextOfOne(c: char)
    ensures CommentText([c]) == if c == '"' then "\\\"" else if c == '\n' || c == '\r' then " " else [c]
  {
    ReplaceOne(c, '"', "\\\"");
    if c == '"' {
      ReplaceAllConcat("\\", "\"", '\n', " ");
      ReplaceOne('\\', '\n', " ");
      ReplaceOne('"', '\n', " ");
      ReplaceAllConcat("\\", "\"", '\r', " ");
      ReplaceOne('\\', '\r', " ");
      ReplaceOne('"', '\r', " ");
      assert "\\" + "\"" == "\\\"";
    } else {
      ReplaceOne(c, '\n', " ");
      ReplaceOne(c, '\r', " ");
      ReplaceOne(' ', '\r', " ");
    }
    hide ReplaceAll;
  }

  lemma ReplaceOne(x: char, c: char, sub: string)
    ensures ReplaceAll([x], c, sub) == if x == c then sub else [x]
  {
    assert [x][1..] == "";
  }

  lemma {:induction false} JoinIsItemsText(isPrint: char -> bool, items: seq<string>)
    ensures Join(QuoteAll(isPrint, items), ", ") == ItemsText(isPrint, items)
  {
    var quoted := QuoteAll(isPrint, items);
    if |items| > 1 {
      assert quoted[1..] == QuoteAll(isPrint, items[1..]);
      JoinIsItemsText(isPrint, items[1..]);
    }
  }

  lemma ExceptLineIs(isPrint: char -> bool, r: Rule)
    requires r.except != []
    ensures ExceptLine(isPrint, r) == "    " + LiteralText(isPrint, NotIn(Cap, r.except)) + "\n"
  {
    hide Quote;
    JoinIsItemsText(isPrint, r.except);
    var items := ItemsText(isPrint, r.except);
    assert "    not cap in {" + items + "}\n" == "    " + ("not " + ("cap" + " in {" + items + "}")) + "\n";
  }

  lemma ConditionTextIs(isPrint: char -> bool, r: Rule)
    requires Compiles(r)
    ensures RuleCondition(isPrint, r) == Ok(LiteralText(isPrint, Condition(r)))
  {
    hide ParseOperator, Quote;
    var (op, arg) := RuleOperator(r);
    var q := Quote(isPrint, arg);
    if op == "contains" {
      assert "contains(cap, " + q + ")" == "contains" + "(" + "cap" + ", " + q + ")";
    } else {
      assert "startswith(cap, " + q + ")" == "startswith" + "(" + "cap" + ", " + q + ")";
    }
  }

  lemma {:induction false} BodyTextAppend(isPrint: char -> bool, a: seq<Literal>, l: Literal)
    ensures BodyText(isPrint, a + [l]) == BodyText(isPrint, a) + ("    " + LiteralText(isPrint, l) + "\n")
  {
    hide LiteralText;
    if a == [] {
      assert [] + [l] == [l];
      assert [l][1..] == [];
    } else {
      assert (a + [l])[1..] == a[1..] + [l];
      BodyTextAppend(isPrint, a[1..], l);
    }
  }

  lemma BodyTextIs(isPrint: char -> bool, category: string, r: Rule)
    requires Compiles(r)
    ensures BodyText(isPrint, RuleBody(category, r))
         == SomeLine(category) + ConditionLine(LiteralText(isPrint, Condition(r))) + ExceptLine(isPrint, r) + MessageLine(isPrint, r)
  {
    hide ParseOperator, Quote, Compiles, Condition;
    var b1 := [SomeCap(category)];
    var b2 := [SomeCap(category), Condition(r)];
    BodyTextAppend(isPrint, [], SomeCap(category));
    assert [] + [SomeCap(category)] == b1;
    assert b1 + [Condition(r)] == b2;
    BodyTextAppend(isPrint, b1, Condition(r));
    SomeLineIs(isPrint, category);
    MessageLineIs(isPrint, r);
    if r.except == [] {
      assert b2 + [Msg(r.message)] == RuleBody(category, r);
      BodyTextAppend(isPrint, b2, Msg(r.message));
    } else {
      var b3 := [SomeCap(category), Condition(r), NotIn(Cap, r.except)];
      assert b2 + [NotIn(Cap, r.except)] == b3;
      assert b3 + [Msg(r.message)] == RuleBody(category, r);
      BodyTextAppend(isPrint, b2, NotIn(Cap, r.except));
      BodyTextAppend(isPrint, b3, Msg(r.message));
      ExceptLineIs(isPrint, r);
    }
  }

  lemma SomeLineIs(isPrint: char -> bool, category: string)
    ensures SomeLine(category) == "    " + LiteralText(isPrint, SomeCap(category)) + "\n"
  {
    assert "    some cap in input.capabilities." + category + "\n" == "    " + ("some cap in input.capabilities." + category) + "\n";
  }

  lemma MessageLineIs(isPrint: char -> bool, r: Rule)
    ensures MessageLine(isPrint, r) == "    " + LiteralText(isPrint, Msg(r.message)) + "\n"
  {
    hide Quote;
    var q := Quote(isPrint, r.message);
    assert "    msg := " + q + "\n" == "    " + ("msg := " + q) + "\n";
  }

  function Comment(category: string, r: Rule): string {
    " Rule: " + category + " - " + CommentText(r.message)
  }

  lemma RuleTextIs(isPrint: char -> bool, category: string, index: nat, r: Rule)
    requires Compiles(r)
    ensures RuleText(isPrint, category, index, r)
         == Ok("#" + Comment(category, r) + "\n" + PartialText(isPrint, RuleSet(r), RuleBody(category, r)))
  {
    hide ParseOperator, Quote, LiteralText, Compiles, Condition, RuleBody, BodyText, CommentText,
         SomeLine, ConditionLine, ExceptLine, MessageLine, RuleSet;
    assert BadExcept(r.except).None? by { CompilesMeans(r); }
    ConditionTextIs(isPrint, r);
    BodyTextIs(isPrint, category, r);
    var c, h, body := CommentLine(category, r), HeadLine(r), BodyText(isPrint, RuleBody(category, r));
    assert c == "#" + Comment(category, r) + "\n";
    assert c + h + SomeLine(category) + ConditionLine(LiteralText(isPrint, Condition(r)))
           + ExceptLine(isPrint, r) + MessageLine(isPrint, r) + "}\n\n" == c + (h + body + "}\n\n");
  }

  lemma CompilesMeans(r: Rule)
    requires Compiles(r)
    ensures BadExcept(r.except).None? && ParseOperator(RuleExpr(r)).Ok?
  {
  }

  lemma RuleTextOk(isPrint: char -> bool, category: string, index: nat, r: Rule)
    ensures RuleText(isPrint, category, index, r).Ok? <==> Compiles(r)
  {
    hide ParseOperator;
  }

  lemma CategoryIsWord(c: string)
    requires ValidCategory(c)
    ensures IsWord(c) && '\n' !in c
  {
  }

  lemma RuleSetIsWord(r: Rule)
    ensures IsWord(RuleSet(r)) && RuleSet(r) != "default" && RuleSet(r) != "decision"
  {
  }

  lemma RuleBodyWellFormed(isPrint: char -> bool, category: string, r: Rule)
    requires IsWord(category) && Compiles(r)
    ensures WellFormedBody(RuleBody(category, r))
    ensures LegibleBody(isPrint, RuleBody(category, r)) <==> LegibleRule(isPrint, r)
  {
    hide ParseOperator, IsWord, AllLegible, Compiles;
    CompilesMeans(r);
    var body := RuleBody(category, r);
    assert LegibleLiteral(isPrint, body[0]);
    assert LegibleLiteral(isPrint, body[1]) <==> AllLegible(isPrint, RuleOperator(r).1) by {
      var arg := RuleOperator(r).1;
      assert Quoted(body[1]) == [arg];
      LegibleOne(isPrint, arg);
    }
    LegibleOne(isPrint, r.message);
    assert Quoted(Msg(r.message)) == [r.message];
    if r.except == [] {
      assert body[2] == Msg(r.message) && |body| == 3;
    } else {
      assert body[2] == NotIn(Cap, r.except) && body[3] == Msg(r.message) && |body| == 4;
    }
  }

  lemma LegibleOne(isPrint: char -> bool, s: string)
    ensures LegibleAll(isPrint, [s]) <==> AllLegible(isPrint, s)
  {
    hide AllLegible;
    assert [s][0] == s;
  }

  /** One compiled rule in front of a text reads back as its own statement in front of the rest, or,
      when one of its strings is illegible, makes the whole text unreadable. */
  lemma ReadRuleBack(isPrint: char -> bool, category: string, index: nat, r: Rule, rest: string)
    requires ValidCategory(category) && Compiles(r)
    ensures RuleText(isPrint, category, index, r).Ok?
    ensures ReadStatements(RuleText(isPrint, category, index, r).value + rest)
         == if LegibleRule(isPrint, r) then Cons(RuleStatement(category, r), ReadStatements(rest)) else None
  {
    hide ParseOperator, ValidCategory, IsWord, WellFormedBody, LegibleBody, PartialText, ReadStatements,
         Compiles, RuleBody, RuleSet, LegibleRule, CommentText, Cons, RuleText;
    CategoryIsWord(category);
    RuleSetIsWord(r);
    CommentStaysOnLine(r.message);
    RuleBodyWellFormed(isPrint, category, r);
    RuleTextIs(isPrint, category, index, r);
    var comment := Comment(category, r);
    assert '\n' !in comment;
    ReadRuleThen(isPrint, comment, RuleSet(r), RuleBody(category, r), rest);
  }
}
