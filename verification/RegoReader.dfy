/** Reading Rego text: lex, then parse statements.  Printed statements read back as themselves. */
module RegoReader {
  import opened Outcomes
  import opened RegoLexer
  import opened Rego

  // ----- Parser -----------------------------------------------------------------------------

  function Count(ts: Tokens): nat {
    match ts
    case End => 0
    case Tok(_, tail) => 1 + Count(tail)
  }

  function Eat(t: Token, ts: Tokens): (r: Option<Tokens>)
    ensures r.Some? ==> Count(r.value) < Count(ts)
  {
    if ts.Tok? && ts.head == t then Some(ts.tail) else None
  }

  function EatWord(ts: Tokens): (r: Option<(string, Tokens)>)
    ensures r.Some? ==> Count(r.value.1) < Count(ts)
  {
    if ts.Tok? && ts.head.Word? then Some((ts.head.name, ts.tail)) else None
  }

  function EatStr(ts: Tokens): (r: Option<(string, Tokens)>)
    ensures r.Some? ==> Count(r.value.1) < Count(ts)
  {
    if ts.Tok? && ts.head.Str? then Some((ts.head.text, ts.tail)) else None
  }

  function ParseRef(ts: Tokens): (r: Option<(Ref, Tokens)>)
    ensures r.Some? ==> Count(r.value.1) < Count(ts)
  {
    if ts.Tok? && ts.head == Word("cap") then Some((Cap, ts.tail))
    else
      var t1 :- Eat(Word("input"), ts);
      var t2 :- Eat(Sym('.'), t1);
      var t3 :- Eat(Word("action"), t2);
      var t4 :- Eat(Sym('.'), t3);
      var (field, t5) :- EatWord(t4);
      Some((Action(field), t5))
  }

  /** A non-empty list of strings and the brace that closes it. */
  function ParseItems(ts: Tokens): (r: Option<(seq<string>, Tokens)>)
    ensures r.Some? ==> Count(r.value.1) < Count(ts)
    decreases ts
  {
    if ts.Tok? && ts.head.Str? && ts.tail.Tok? then
      if ts.tail.head == Sym('}') then Some(([ts.head.text], ts.tail.tail))
      else if ts.tail.head == Sym(',') then
        var (items, rest) :- ParseItems(ts.tail.tail);
        Some(([ts.head.text] + items, rest))
      else None
    else None
  }

  function ParseMembership(ts: Tokens): (r: Option<(Ref, seq<string>, Tokens)>)
    ensures r.Some? ==> Count(r.value.2) < Count(ts)
  {
    var (ref, t1) :- ParseRef(ts);
    var t2 :- Eat(Word("in"), t1);
    var t3 :- Eat(Sym('{'), t2);
    var (items, t4) :- ParseItems(t3);
    Some((ref, items, t4))
  }

  function ParseArguments(ts: Tokens): (r: Option<(Ref, string, Tokens)>)
    ensures r.Some? ==> Count(r.value.2) < Count(ts)
  {
    var t1 :- Eat(Sym('('), ts);
    var (ref, t2) :- ParseRef(t1);
    var t3 :- Eat(Sym(','), t2);
    var (arg, t4) :- EatStr(t3);
    var t5 :- Eat(Sym(')'), t4);
    Some((ref, arg, t5))
  }

  function ParseGlob(ts: Tokens): (r: Option<(string, Ref, Tokens)>)
    ensures r.Some? ==> Count(r.value.2) < Count(ts)
  {
    var t1 :- Eat(Sym('.'), ts);
    var t2 :- Eat(Word("match"), t1);
    var t3 :- Eat(Sym('('), t2);
    var (pattern, t4) :- EatStr(t3);
    var t5 :- Eat(Sym(','), t4);
    var t6 :- Eat(Sym('['), t5);
    var t7 :- Eat(Str("."), t6);
    var t8 :- Eat(Sym(']'), t7);
    var t9 :- Eat(Sym(','), t8);
    var (ref, t10) :- ParseRef(t9);
    var t11 :- Eat(Sym(')'), t10);
    Some((pattern, ref, t11))
  }

  function ParseSomeCap(ts: Tokens): (r: Option<(string, Tokens)>)
    ensures r.Some? ==> Count(r.value.1) < Count(ts)
  {
    var t1 :- Eat(Word("cap"), ts);
    var t2 :- Eat(Word("in"), t1);
    var t3 :- Eat(Word("input"), t2);
    var t4 :- Eat(Sym('.'), t3);
    var t5 :- Eat(Word("capabilities"), t4);
    var t6 :- Eat(Sym('.'), t5);
    EatWord(t6)
  }

  function ParseMsg(ts: Tokens): (r: Option<(string, Tokens)>)
    ensures r.Some? ==> Count(r.value.1) < Count(ts)
  {
    var t1 :- Eat(Sym(':'), ts);
    var t2 :- Eat(Sym('='), t1);
    EatStr(t2)
  }

  function ParseLiteral(ts: Tokens): (r: Option<(Literal, Tokens)>)
    ensures r.Some? ==> Count(r.value.1) < Count(ts)
  {
    if ts == End then None
    else if ts.head == Word("some") then
      var (category, rest) :- ParseSomeCap(ts.tail);
      Some((SomeCap(category), rest))
    else if ts.head == Word("contains") then
      var (ref, arg, rest) :- ParseArguments(ts.tail);
      Some((ContainsText(ref, arg), rest))
    else if ts.head == Word("startswith") then
      var (ref, arg, rest) :- ParseArguments(ts.tail);
      Some((StartsWith(ref, arg), rest))
    else if ts.head == Word("glob") then
      var (pattern, ref, rest) :- ParseGlob(ts.tail);
      Some((GlobMatch(pattern, ref), rest))
    else if ts.head == Word("msg") then
      var (text, rest) :- ParseMsg(ts.tail);
      Some((Msg(text), rest))
    else if ts.head == Word("not") then
      var (ref, items, rest) :- ParseMembership(ts.tail);
      Some((NotIn(ref, items), rest))
    else
      var (ref, items, rest) :- ParseMembership(ts);
      Some((In(ref, items), rest))
  }

  /** Literals, one a line, up to the closing brace. */
  function ParseBody(ts: Tokens): (r: Option<(seq<Literal>, Tokens)>)
    ensures r.Some? ==> Count(r.value.1) < Count(ts)
    decreases Count(ts)
  {
    if ts.Tok? && ts.head == Sym('}') then Some(([], ts.tail))
    else
      var (l, t1) :- ParseLiteral(ts);
      var t2 :- Eat(Eol, t1);
      var (ls, t3) :- ParseBody(t2);
      Some(([l] + ls, t3))
  }

  function ParseCond(ts: Tokens): (r: Option<(Cond, Tokens)>)
    ensures r.Some? ==> Count(r.value.1) < Count(ts)
  {
    var t1 :- Eat(Word("count"), ts);
    var t2 :- Eat(Sym('('), t1);
    var (name, t3) :- EatWord(t2);
    var t4 :- Eat(Sym(')'), t3);
    if t4.Tok? && t4.head == Sym('>') then
      var t5 :- Eat(Sym('0'), t4.tail);
      Some((Positive(name), t5))
    else
      var t5 :- Eat(Sym('='), t4);
      var t6 :- Eat(Sym('='), t5);
      var t7 :- Eat(Sym('0'), t6);
      Some((Zero(name), t7))
  }

  function ParseConds(ts: Tokens): (r: Option<(seq<Cond>, Tokens)>)
    ensures r.Some? ==> Count(r.value.1) < Count(ts)
    decreases Count(ts)
  {
    if ts.Tok? && ts.head == Sym('}') then Some(([], ts.tail))
    else
      var (c, t1) :- ParseCond(ts);
      var t2 :- Eat(Eol, t1);
      var (cs, t3) :- ParseConds(t2);
      Some(([c] + cs, t3))
  }

  function ParseDefault(ts: Tokens): (r: Option<(Statement, Tokens)>)
    ensures r.Some? ==> Count(r.value.1) < Count(ts)
  {
    var t1 :- Eat(Word("decision"), ts);
    var (value, t2) :- ParseMsg(t1);
    Some((Default(value), t2))
  }

  function ParseDecide(ts: Tokens): (r: Option<(Statement, Tokens)>)
    ensures r.Some? ==> Count(r.value.1) < Count(ts)
  {
    var (value, t1) :- ParseMsg(ts);
    var t2 :- Eat(Word("if"), t1);
    if t2.Tok? && t2.head == Sym('{') then
      var t3 :- Eat(Eol, t2.tail);
      var (conds, t4) :- ParseConds(t3);
      Some((Decide(value, conds), t4))
    else
      var (cond, t3) :- ParseCond(t2);
      Some((Decide(value, [cond]), t3))
  }

  function ParsePartial(ts: Tokens): (r: Option<(Statement, Tokens)>)
    ensures r.Some? ==> Count(r.value.1) < Count(ts)
  {
    var (name, t1) :- EatWord(ts);
    var t2 :- Eat(Word("contains"), t1);
    var t3 :- Eat(Word("msg"), t2);
    var t4 :- Eat(Word("if"), t3);
    var t5 :- Eat(Sym('{'), t4);
    var t6 :- Eat(Eol, t5);
    var (body, t7) :- ParseBody(t6);
    Some((Partial(name, body), t7))
  }

  function SkipEols(ts: Tokens): (r: Tokens)
    ensures Count(r) <= Count(ts)
  {
    if ts.Tok? && ts.head == Eol then SkipEols(ts.tail) else ts
  }

  /** A set rule without a body; its three parts may stand on different lines. */
  function ParseFact(ts: Tokens): (r: Option<(Statement, Tokens)>)
    ensures r.Some? ==> Count(r.value.1) < Count(ts)
  {
    var (name, t1) :- EatWord(ts);
    var t2 :- Eat(Word("contains"), SkipEols(t1));
    var (text, t3) :- EatStr(SkipEols(t2));
    Some((Fact(name, text), t3))
  }

  function ParseStatement(ts: Tokens): (r: Option<(Statement, Tokens)>)
    ensures r.Some? ==> Count(r.value.1) < Count(ts)
  {
    if ts == End then None
    else if ts.head == Word("default") then ParseDefault(ts.tail)
    else if ts.head == Word("decision") then ParseDecide(ts.tail)
    else
      match ParsePartial(ts)
      case Some(r) => Some(r)
      case None => ParseFact(ts)
  }

  /** Statements, each ended by a line feed, with any number of blank lines around them. */
  function ParseStatements(ts: Tokens): (r: Option<seq<Statement>>)
    decreases Count(ts)
  {
    if ts == End then Some([])
    else if ts.head == Eol then ParseStatements(ts.tail)
    else
      var (s, t1) :- ParseStatement(ts);
      var t2 :- Eat(Eol, t1);
      var ss :- ParseStatements(t2);
      Some([s] + ss)
  }

  function ParsePackage(ts: Tokens): Option<(string, Tokens)> {
    var t1 :- Eat(Word("package"), ts);
    var t2 :- Eat(Word("skillledger"), t1);
    var t3 :- Eat(Sym('.'), t2);
    var (package, t4) :- EatWord(t3);
    var t5 :- Eat(Eol, t4);
    Some((package, t5))
  }

  function ParseImport(ts: Tokens): Option<Tokens> {
    var t1 :- Eat(Word("import"), ts);
    var t2 :- Eat(Word("rego"), t1);
    var t3 :- Eat(Sym('.'), t2);
    var t4 :- Eat(Word("v1"), t3);
    Eat(Eol, t4)
  }

  function ParseModule(ts: Tokens): Option<Module> {
    var (package, t1) :- ParsePackage(ts);
    var t2 :- Eat(Eol, t1);
    var t3 :- ParseImport(t2);
    var statements :- ParseStatements(t3);
    Some(Module(package, statements))
  }

  /** Reading a module from text. */
  function Read(text: string): Option<Module> {
    var ts :- Lex(text);
    ParseModule(ts)
  }

  // ----- Parsing undoes printing ------------------------------------------------------------

  lemma ParseRefBack(ref: Ref, more: Tokens)
    ensures var k := RefTokens(ref, Some(more));
            k.Some? && ParseRef(k.value) == Some((ref, more))
  {
  }

  lemma {:induction false} ParseItemsBack(items: seq<string>, more: Tokens)
    requires items != []
    ensures var k := ItemsTokens(items, Some(Tok(Sym('}'), more)));
            k.Some? && ParseItems(k.value) == Some((items, more))
  {
    if |items| == 1 {
      assert items == [items[0]];
    } else {
      ParseItemsBack(items[1..], more);
      assert items == [items[0]] + items[1..];
    }
  }

  lemma ParseMembershipBack(ref: Ref, items: seq<string>, more: Tokens)
    requires items != []
    ensures var k := MembershipTokens(ref, items, Some(more));
            && k.Some? && ParseMembership(k.value) == Some((ref, items, more))
            && k.value.Tok? && k.value.head in {Word("cap"), Word("input")}
  {
    hide ParseRef, ParseItems, ItemsTokens;
    ParseItemsBack(items, more);
    var k1 := ItemsTokens(items, Some(Tok(Sym('}'), more)));
    ParseRefBack(ref, Tok(Word("in"), Tok(Sym('{'), k1.value)));
  }

  lemma ParseGlobBack(pattern: string, ref: Ref, more: Tokens)
    ensures var k := GlobTokens(pattern, ref, Some(more));
            && k.Some? && k.value.Tok? && k.value.head == Word("glob")
            && ParseGlob(k.value.tail) == Some((pattern, ref, more))
  {
    hide ParseRef, RefTokens;
    ParseRefBack(ref, Tok(Sym(')'), more));
  }

  lemma ParseCallBack(f: string, ref: Ref, arg: string, more: Tokens)
    ensures var k := CallTokens(f, ref, arg, Some(more));
            && k.Some? && k.value.Tok? && k.value.head == Word(f)
            && ParseArguments(k.value.tail) == Some((ref, arg, more))
  {
    hide ParseRef, RefTokens;
    ParseRefBack(ref, Tok(Sym(','), Tok(Str(arg), Tok(Sym(')'), more))));
  }

  lemma ParseLiteralBack(l: Literal, more: Tokens)
    requires WellFormedLiteral(l)
    ensures var k := LiteralTokens(l, Some(more));
            && k.Some? && ParseLiteral(k.value) == Some((l, more))
            && k.value.Tok? && k.value.head.Word?
  {
    hide ParseGlob, GlobTokens, ParseArguments, CallTokens, ParseMembership, MembershipTokens;
    match l
    case SomeCap(category) =>
    case ContainsText(ref, arg) =>
      ParseCallBack("contains", ref, arg, more);
    case StartsWith(ref, arg) =>
      ParseCallBack("startswith", ref, arg, more);
    case GlobMatch(pattern, ref) =>
      ParseGlobBack(pattern, ref, more);
    case In(ref, items) =>
      ParseMembershipBack(ref, items, more);
    case NotIn(ref, items) =>
      ParseMembershipBack(ref, items, more);
    case Msg(text) =>
  }

  lemma {:induction false} ParseBodyBack(body: seq<Literal>, more: Tokens)
    requires WellFormedBody(body)
    ensures var k := BodyTokens(body, Some(Tok(Sym('}'), more)));
            k.Some? && ParseBody(k.value) == Some((body, more))
  {
    hide LiteralTokens, ParseLiteral, WellFormedLiteral;
    if body != [] {
      ParseBodyBack(body[1..], more);
      var k1 := BodyTokens(body[1..], Some(Tok(Sym('}'), more)));
      ParseLiteralBack(body[0], Tok(Eol, k1.value));
      assert body == [body[0]] + body[1..];
    }
  }

  lemma ParsePartialBack(name: string, body: seq<Literal>, more: Tokens)
    requires WellFormedBody(body)
    ensures var k := PartialTokens(name, body, Some(more));
            && k.Some? && ParsePartial(k.value) == Some((Partial(name, body), Tok(Eol, Tok(Eol, more))))
            && k.value.Tok? && k.value.head == Word(name)
  {
    hide BodyTokens, ParseBody, WellFormedBody;
    ParseBodyBack(body, Tok(Eol, Tok(Eol, more)));
  }

  /** A rule in front of other statements adds exactly that rule in front of theirs. */
  lemma ParsePartialThen(name: string, body: seq<Literal>, more: Tokens)
    requires WellFormedBody(body) && name != "default" && name != "decision"
    ensures var k := PartialTokens(name, body, Some(more));
            k.Some? && ParseStatements(k.value)
                    == match ParseStatements(more) {
                         case None => None
                         case Some(ss) => Some([Partial(name, body)] + ss)
                       }
  {
    hide ParsePartial, ParseFact, PartialTokens, WellFormedBody;
    ParsePartialBack(name, body, more);
  }

  // ----- Whole texts ------------------------------------------------------------------------

  function ReadStatements(text: string): Option<seq<Statement>> {
    var ts :- Lex(text);
    ParseStatements(ts)
  }

  function Cons(s: Statement, r: Option<seq<Statement>>): Option<seq<Statement>> {
    match r
    case None => None
    case Some(ss) => Some([s] + ss)
  }

  function PutBefore(ss: seq<Statement>, r: Option<seq<Statement>>): Option<seq<Statement>> {
    match r
    case None => None
    case Some(more) => Some(ss + more)
  }

  lemma PartialTokensNone(name: string, body: seq<Literal>)
    ensures PartialTokens(name, body, None) == None
  {
    BodyTokensNone(body);
  }

  /** A comment line and a printed rule in front of a text: reading gives that rule in front of what
      the text reads as, or nothing at all when the rule quotes an illegible string. */
  lemma ReadRuleThen(isPrint: char -> bool, comment: string, name: string, body: seq<Literal>, rest: string)
    requires '\n' !in comment
    requires IsWord(name) && name != "default" && name != "decision" && WellFormedBody(body)
    ensures ReadStatements("#" + comment + "\n" + PartialText(isPrint, name, body) + rest)
         == if LegibleBody(isPrint, body) then Cons(Partial(name, body), ReadStatements(rest)) else None
  {
    hide Lex, IsWord, WellFormedBody, LegibleBody, PartialText, PartialTokens;
    var tail := PartialText(isPrint, name, body) + rest;
    assert "#" + comment + "\n" + PartialText(isPrint, name, body) + rest == "#" + comment + "\n" + tail;
    LexComment(comment, tail);
    LexPartial(isPrint, name, body, rest);
    if LegibleBody(isPrint, body) {
      match Lex(rest)
      case None => PartialTokensNone(name, body);
      case Some(more) => ParsePartialThen(name, body, more);
    }
  }

  function Header(package: string): string {
    "package skillledger." + package + "\n\n" + "import rego.v1\n\n"
  }

  function HeaderTokens(package: string, k: Option<Tokens>): Option<Tokens> {
    Prepend(Word("package"), Prepend(Word("skillledger"), Prepend(Sym('.'), Prepend(Word(package), Prepend(Eol, Prepend(Eol,
    Prepend(Word("import"), Prepend(Word("rego"), Prepend(Sym('.'), Prepend(Word("v1"), Prepend(Eol, Prepend(Eol, k))))))))))))
  }

  lemma HeaderWords()
    ensures IsWord("package") && IsWord("skillledger") && IsWord("import") && IsWord("rego") && IsWord("v1")
  {
  }

  lemma LexHeader(package: string, rest: string)
    requires IsWord(package)
    ensures Lex(Header(package) + rest) == HeaderTokens(package, Lex(rest))
  {
    hide Lex, IsWord, Prepend;
    HeaderWords();
    var t3 := "rego" + ("." + ("v1" + ("\n" + ("\n" + rest))));
    var t2 := "import" + (" " + t3);
    var t1 := package + ("\n" + ("\n" + t2));
    assert Header(package) + rest == "package" + (" " + ("skillledger" + ("." + t1)));
    LexEol(rest);
    LexEol("\n" + rest);
    LexWord("v1", "\n" + ("\n" + rest));
    LexWordSym("rego", '.', "v1" + ("\n" + ("\n" + rest)));
    LexWordGap("import", t3);
    LexEol(t2);
    LexEol("\n" + t2);
    LexWord(package, "\n" + ("\n" + t2));
    LexWordSym("skillledger", '.', t1);
    LexWordGap("package", "skillledger" + ("." + t1));
  }

  /** A module text is its header followed by statements. */
  lemma ReadHeaderThen(package: string, rest: string)
    requires IsWord(package)
    ensures Read(Header(package) + rest)
         == match ReadStatements(rest) { case None => None case Some(ss) => Some(Module(package, ss)) }
  {
    hide Lex, IsWord, Header, ParseStatements;
    LexHeader(package, rest);
    if Lex(rest).Some? {
      ParseHeaderThen(package, Lex(rest).value);
    } else {
      HeaderNone(package);
    }
  }

  lemma HeaderNone(package: string)
    ensures HeaderTokens(package, None) == None
  {
  }

  lemma ParsePackageBack(package: string, more: Tokens)
    ensures ParsePackage(Tok(Word("package"), Tok(Word("skillledger"), Tok(Sym('.'), Tok(Word(package), Tok(Eol, more))))))
         == Some((package, more))
  {
    hide Count;
  }

  lemma ParseImportBack(more: Tokens)
    ensures ParseImport(Tok(Word("import"), Tok(Word("rego"), Tok(Sym('.'), Tok(Word("v1"), Tok(Eol, more))))))
         == Some(more)
  {
    hide Count;
  }

  lemma {:induction false} ParseHeaderThen(package: string, more: Tokens)
    ensures var k := HeaderTokens(package, Some(more));
            k.Some? && ParseModule(k.value)
                    == match ParseStatements(more) { case None => None case Some(ss) => Some(Module(package, ss)) }
  {
    hide ParseStatements, ParsePackage, ParseImport, Count;
    SkipEol(more);
    ParseImportBack(Tok(Eol, more));
    var k := Tok(Word("import"), Tok(Word("rego"), Tok(Sym('.'), Tok(Word("v1"), Tok(Eol, Tok(Eol, more))))));
    ParsePackageBack(package, Tok(Eol, k));
  }

  lemma SkipEol(more: Tokens)
    ensures ParseStatements(Tok(Eol, more)) == ParseStatements(more)
  {
  }

  lemma StatementThen(ts: Tokens, s: Statement, more: Tokens)
    requires ts.Tok? && ts.head.Word? && ParseStatement(ts) == Some((s, Tok(Eol, more)))
    ensures ParseStatements(ts) == Cons(s, ParseStatements(more))
  {
    hide ParseStatement;
  }

  const DEFAULT_ALLOW: string := "default decision := \"allow\"\n\n"

  function AssignTokens(value: string, k: Option<Tokens>): Option<Tokens> {
    Prepend(Word("decision"), Prepend(Sym(':'), Prepend(Sym('='), Prepend(Str(value), k))))
  }

  lemma DecisionWords()
    ensures IsWord("default") && IsWord("decision") && IsWord("count") && IsWord("deny") && IsWord("warnings") && IsWord("if")
  {
  }

  /** `decision := "<value>"` */
  lemma LexAssign(value: string, rest: string)
    requires Plain(value)
    ensures Lex("decision := \"" + value + "\"" + rest) == AssignTokens(value, Lex(rest))
  {
    hide Lex, IsWord, Prepend, Plain;
    DecisionWords();
    var t2 := "\"" + (value + ("\"" + rest));
    var t1 := "=" + (" " + t2);
    assert "decision := \"" + value + "\"" + rest == "decision" + (" " + (":" + t1));
    LexPlain(value, rest);
    LexSymGap('=', t2);
    LexSym(':', t1);
    LexWordGap("decision", ":" + t1);
  }

  function DefaultTokens(value: string, k: Option<Tokens>): Option<Tokens> {
    Prepend(Word("default"), AssignTokens(value, Prepend(Eol, Prepend(Eol, k))))
  }

  lemma LexDefault(rest: string)
    ensures Lex(DEFAULT_ALLOW + rest) == DefaultTokens("allow", Lex(rest))
  {
    hide Lex, IsWord, AssignTokens;
    DecisionWords();
    var t2 := "\n" + ("\n" + rest);
    var t1 := "decision := \"" + "allow" + "\"" + t2;
    assert DEFAULT_ALLOW + rest == "default" + (" " + t1);
    LexEol(rest);
    LexEol("\n" + rest);
    LexAssign("allow", t2);
    LexWordGap("default", t1);
  }

  lemma ParseDefaultThen(value: string, more: Tokens)
    ensures var k := DefaultTokens(value, Some(more));
            k.Some? && ParseStatements(k.value) == Cons(Default(value), ParseStatements(more))
  {
    hide ParsePartial, ParseFact, ParseDecide, Count, ParseStatements, Cons, ParseMsg, AssignTokens;
    var t := Tok(Eol, Tok(Eol, more));
    var k := AssignTokensSome(value, t);
    ParseDecideBack(k, value, t);
    assert ParseDefault(k) == Some((Default(value), t));
    StatementThen(Tok(Word("default"), k), Default(value), Tok(Eol, more));
    SkipEol(more);
  }

  lemma ReadDefaultThen(rest: string)
    ensures ReadStatements(DEFAULT_ALLOW + rest) == Cons(Default("allow"), ReadStatements(rest))
  {
    hide Lex, ParseStatements, DEFAULT_ALLOW;
    LexDefault(rest);
    if Lex(rest).Some? {
      ParseDefaultThen("allow", Lex(rest).value);
    }
  }

  function CondText(c: Cond): string {
    match c
    case Positive(name) => "count(" + name + ") > 0"
    case Zero(name) => "count(" + name + ") == 0"
  }

  function CondTokens(c: Cond, k: Option<Tokens>): Option<Tokens> {
    Prepend(Word("count"), Prepend(Sym('('), Prepend(Word(c.name), Prepend(Sym(')'),
    match c
    case Positive(_) => Prepend(Sym('>'), Prepend(Sym('0'), k))
    case Zero(_) => Prepend(Sym('='), Prepend(Sym('='), Prepend(Sym('0'), k)))))))
  }

  /** The two texts, grouped token by token. */
  lemma CondTextGroups(c: Cond, rest: string)
    ensures var t := "0" + rest;
            && (c.Positive? ==> CondText(c) + rest == "count" + ("(" + (c.name + (")" + (" " + (">" + (" " + t)))))))
            && (c.Zero? ==> CondText(c) + rest == "count" + ("(" + (c.name + (")" + (" " + ("=" + ("=" + (" " + t))))))))
  {
    if c.Positive? {
      assert ") > 0" + rest == ")" + (" " + (">" + (" " + ("0" + rest))));
      Counted(c.name, ") > 0", rest);
    } else {
      assert ") == 0" + rest == ")" + (" " + ("=" + ("=" + (" " + ("0" + rest)))));
      Counted(c.name, ") == 0", rest);
    }
  }

  lemma Counted(name: string, end: string, rest: string)
    ensures "count(" + name + end + rest == "count" + ("(" + (name + (end + rest)))
  {
    assert "count(" == "count" + "(";
  }

  lemma LexCond(c: Cond, rest: string)
    requires IsWord(c.name)
    ensures Lex(CondText(c) + rest) == CondTokens(c, Lex(rest))
  {
    hide Lex, IsWord, Prepend, CondText;
    DecisionWords();
    var t3 := "0" + rest;
    LexSym('0', rest);
    CondTextGroups(c, rest);
    if c.Positive? {
      LexSymGap('>', t3);
      LexSymGap(')', ">" + (" " + t3));
      LexWordSymPlus(c.name, ">" + (" " + t3));
      LexWordSym("count", '(', c.name + (")" + (" " + (">" + (" " + t3)))));
    } else {
      LexSymGap('=', t3);
      LexSym('=', "=" + (" " + t3));
      LexWordSymPlus(c.name, "=" + ("=" + (" " + t3)));
      LexWordSym("count", '(', c.name + (")" + (" " + ("=" + ("=" + (" " + t3))))));
    }
  }

  lemma LexWordSymPlus(w: string, rest: string)
    requires IsWord(w)
    ensures Lex(w + (")" + (" " + rest))) == Prepend(Word(w), Prepend(Sym(')'), Lex(rest)))
  {
    hide Lex, IsWord, Prepend;
    LexGap(" ", rest);
    LexWordSym(w, ')', " " + rest);
  }

  const DENY_DECISION: string := "decision := \"deny\" if count(deny) > 0\n\n"

  function DenyDecisionTokens(k: Option<Tokens>): Option<Tokens> {
    AssignTokens("deny", Prepend(Word("if"), CondTokens(Positive("deny"), Prepend(Eol, Prepend(Eol, k)))))
  }

  lemma LexDenyDecision(rest: string)
    ensures Lex(DENY_DECISION + rest) == DenyDecisionTokens(Lex(rest))
  {
    hide Lex, IsWord, AssignTokens, CondTokens;
    DecisionWords();
    var c := Positive("deny");
    var t3 := "\n" + ("\n" + rest);
    var t2 := CondText(c) + t3;
    var t1 := "if" + (" " + t2);
    assert DENY_DECISION + rest == "decision := \"" + "deny" + "\"" + (" " + t1);
    LexEol(rest);
    LexEol("\n" + rest);
    LexCond(c, t3);
    LexWordGap("if", t2);
    LexGap(" ", t1);
    LexAssign("deny", " " + t1);
  }

  lemma ParseDecideBack(ts: Tokens, value: string, k: Tokens)
    requires Some(ts) == AssignTokens(value, Some(k))
    ensures ts.Tok? && ts.head == Word("decision") && ParseStatement(ts) == ParseDecide(ts.tail)
    ensures ParseMsg(ts.tail) == Some((value, k))
  {
    hide ParseDecide, ParsePartial, ParseFact, ParseDefault, Count;
  }

  lemma ParseDenyDecisionThen(more: Tokens)
    ensures var k := DenyDecisionTokens(Some(more));
            k.Some? && ParseStatements(k.value) == Cons(Decide("deny", [Positive("deny")]), ParseStatements(more))
  {
    hide ParseStatements, ParseStatement, ParseMsg, AssignTokens, ParseConds, ParseCond, CondTokens, Count, Cons;
    var t := Tok(Eol, Tok(Eol, more));
    ParseCondBack(Positive("deny"), t);
    var k2 := Tok(Word("if"), CondTokens(Positive("deny"), Some(t)).value);
    var k := AssignTokensSome("deny", k2);
    ParseDecideBack(k, "deny", k2);
    StatementThen(k, Decide("deny", [Positive("deny")]), Tok(Eol, more));
    SkipEol(more);
  }

  lemma AssignTokensSome(value: string, more: Tokens) returns (k: Tokens)
    ensures AssignTokens(value, Some(more)) == Some(k)
  {
    k := AssignTokens(value, Some(more)).value;
  }

  lemma ReadDenyDecisionThen(rest: string)
    ensures ReadStatements(DENY_DECISION + rest) == Cons(Decide("deny", [Positive("deny")]), ReadStatements(rest))
  {
    hide Lex, ParseStatements, DENY_DECISION, AssignTokens, CondTokens;
    LexDenyDecision(rest);
    if Lex(rest).Some? {
      ParseDenyDecisionThen(Lex(rest).value);
    } else {
      assert DenyDecisionTokens(None) == None by { DenyDecisionNone(); }
    }
  }

  lemma DenyDecisionNone()
    ensures DenyDecisionTokens(None) == None
  {
  }

  lemma CondTextIs(c: Cond)
    ensures c == Positive("deny") ==> CondText(c) == "count(deny) > 0"
    ensures c == Zero("deny") ==> CondText(c) == "count(deny) == 0"
    ensures c == Positive("warnings") ==> CondText(c) == "count(warnings) > 0"
  {
  }

  const WARN_DECISION: string :=
    "decision := \"warn\" if {\n" + ("    count(deny) == 0\n" + ("    count(warnings) > 0\n" + "}\n"))

  /** A condition on a line of its own. */
  function CondLineTokens(c: Cond, k: Option<Tokens>): Option<Tokens> {
    CondTokens(c, Prepend(Eol, k))
  }

  lemma LexCondLine(c: Cond, rest: string)
    requires IsWord(c.name)
    ensures Lex("    " + (CondText(c) + ("\n" + rest))) == CondLineTokens(c, Lex(rest))
  {
    hide Lex, IsWord, CondText, CondTokens;
    LexEol(rest);
    LexCond(c, "\n" + rest);
    LexGap("    ", CondText(c) + ("\n" + rest));
  }

  function DecideTwoTokens(value: string, c1: Cond, c2: Cond, k: Option<Tokens>): Option<Tokens> {
    AssignTokens(value, Prepend(Word("if"), Prepend(Sym('{'), Prepend(Eol, CondLineTokens(c1,
    CondLineTokens(c2, Prepend(Sym('}'), Prepend(Eol, k))))))))
  }

  function WarnDecisionTokens(k: Option<Tokens>): Option<Tokens> {
    DecideTwoTokens("warn", Zero("deny"), Positive("warnings"), k)
  }

  lemma CondLineIs(rest: string)
    ensures "    count(deny) == 0\n" + rest == "    " + (CondText(Zero("deny")) + ("\n" + rest))
    ensures "    count(warnings) > 0\n" + rest == "    " + (CondText(Positive("warnings")) + ("\n" + rest))
  {
    hide CondText;
    CondTextIs(Zero("deny"));
    CondTextIs(Positive("warnings"));
  }

  lemma WarnHeadIs(rest: string)
    ensures "decision := \"warn\" if {\n" + rest
         == "decision := \"" + "warn" + "\"" + (" " + ("if" + (" " + ("{" + ("\n" + rest)))))
  {
  }

  lemma WarnDecisionIs(rest: string)
    ensures WARN_DECISION + rest
         == "decision := \"warn\" if {\n" + ("    count(deny) == 0\n" + ("    count(warnings) > 0\n" + ("}\n" + rest)))
  {
    AppendAssociates("decision := \"warn\" if {\n", "    count(deny) == 0\n", "    count(warnings) > 0\n", "}\n", rest);
  }

  lemma AppendAssociates(a: string, b: string, c: string, d: string, e: string)
    ensures a + (b + (c + d)) + e == a + (b + (c + (d + e)))
  {
  }

  lemma LexWarnDecision(rest: string)
    ensures Lex(WARN_DECISION + rest) == WarnDecisionTokens(Lex(rest))
  {
    hide Lex, IsWord, CondText, CondLineTokens, AssignTokens, WARN_DECISION;
    DecisionWords();
    var t4 := "}" + ("\n" + rest);
    var t3 := "    " + (CondText(Positive("warnings")) + ("\n" + t4));
    var t2 := "    " + (CondText(Zero("deny")) + ("\n" + t3));
    var t1 := "if" + (" " + ("{" + ("\n" + t2)));
    WarnDecisionIs(rest);
    assert "}\n" + rest == t4;
    CondLineIs(t4);
    CondLineIs(t3);
    WarnHeadIs(t2);
    LexEol(rest);
    LexSym('}', "\n" + rest);
    LexCondLine(Positive("warnings"), t4);
    LexCondLine(Zero("deny"), t3);
    LexEol(t2);
    LexSym('{', "\n" + t2);
    LexWordGap("if", "{" + ("\n" + t2));
    LexGap(" ", t1);
    LexAssign("warn", " " + t1);
  }

  lemma ParseCondLine(c: Cond, more: Tokens)
    ensures var k := CondLineTokens(c, Some(more));
            k.Some? && ParseConds(k.value) == match ParseConds(more) {
                                                case None => None
                                                case Some((cs, rest)) => Some(([c] + cs, rest))
                                              }
  {
    hide ParseConds, ParseCond, CondTokens, Count;
    ParseCondBack(c, Tok(Eol, more));
    CondsUnfold(CondTokens(c, Some(Tok(Eol, more))).value);
  }

  lemma ParseCondBack(c: Cond, more: Tokens)
    ensures var k := CondTokens(c, Some(more));
            && k.Some? && ParseCond(k.value) == Some((c, more))
            && k.value.Tok? && k.value.head == Word("count")
  {
    hide Count;
  }

  lemma CondsUnfold(ts: Tokens)
    requires ts.Tok? && ts.head != Sym('}')
    ensures ParseConds(ts) == match ParseCond(ts) {
                                case None => None
                                case Some((c, t1)) =>
                                  if t1.Tok? && t1.head == Eol then
                                    match ParseConds(t1.tail) {
                                      case None => None
                                      case Some((cs, t3)) => Some(([c] + cs, t3))
                                    }
                                  else None
                              }
  {
  }

  lemma ParseDecideTwoThen(value: string, c1: Cond, c2: Cond, more: Tokens)
    ensures var k := DecideTwoTokens(value, c1, c2, Some(more));
            k.Some? && ParseStatements(k.value) == Cons(Decide(value, [c1, c2]), ParseStatements(more))
  {
    hide ParseStatements, ParseStatement, ParseDecide, ParseMsg, AssignTokens, ParseConds, CondLineTokens, Count, Cons;
    var end := Tok(Sym('}'), Tok(Eol, more));
    assert ParseConds(end) == Some(([], Tok(Eol, more))) by { NoConds(Tok(Eol, more)); }
    ParseCondLine(c2, end);
    var k3 := CondLineTokens(c2, Some(end)).value;
    ParseCondLine(c1, k3);
    var k4 := CondLineTokens(c1, Some(k3)).value;
    assert [c1] + ([c2] + []) == [c1, c2];
    var k2 := Tok(Word("if"), Tok(Sym('{'), Tok(Eol, k4)));
    var k := AssignTokensSome(value, k2);
    ParseDecideBack(k, value, k2);
    DecideBraces(k.tail, value, [c1, c2], k4, Tok(Eol, more));
    StatementThen(k, Decide(value, [c1, c2]), more);
  }

  lemma DecideBraces(ts: Tokens, value: string, conds: seq<Cond>, inner: Tokens, rest: Tokens)
    requires ParseMsg(ts) == Some((value, Tok(Word("if"), Tok(Sym('{'), Tok(Eol, inner)))))
    requires ParseConds(inner) == Some((conds, rest))
    ensures ParseDecide(ts) == Some((Decide(value, conds), rest))
  {
    hide ParseMsg, ParseConds, Count;
  }

  lemma NoConds(more: Tokens)
    ensures ParseConds(Tok(Sym('}'), more)) == Some(([], more))
  {
  }

  lemma ReadWarnDecision()
    ensures ReadStatements(WARN_DECISION) == Some([Decide("warn", [Zero("deny"), Positive("warnings")])])
  {
    hide ParseStatements, WARN_DECISION, DecideTwoTokens, Lex;
    LexWarnDecision("");
    assert WARN_DECISION + "" == WARN_DECISION;
    EmptyText();
    ParseDecideTwoThen("warn", Zero("deny"), Positive("warnings"), End);
    var d := Decide("warn", [Zero("deny"), Positive("warnings")]);
    assert [d] + [] == [d];
  }

  lemma EmptyText()
    ensures Lex("") == Some(End) && ParseStatements(End) == Some([])
  {
  }
}
