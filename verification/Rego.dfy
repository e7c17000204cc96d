/** The fragment of Rego that the policy compiler emits: syntax, printer, and the tokens of what is printed.

The reader, in `RegoReader`, is independent of the printer: it lexes (dropping comments and blanks), then
parses statements in any order.  `LexPartial` is this module's half of the connection between the two. */
module Rego {
  import opened Outcomes
  import opened RegoLexer

  // ----- Syntax -----------------------------------------------------------------------------

  datatype Ref = Cap | Action(field: string)

  datatype Literal =
    | SomeCap(category: string)                  // some cap in input.capabilities.<category>
    | ContainsText(ref: Ref, arg: string)        // contains(<ref>, "<arg>")
    | StartsWith(ref: Ref, arg: string)          // startswith(<ref>, "<arg>")
    | GlobMatch(pattern: string, ref: Ref)       // glob.match("<pattern>", ["."], <ref>)
    | In(ref: Ref, items: seq<string>)           // <ref> in {"<item>", ...}
    | NotIn(ref: Ref, items: seq<string>)        // not <ref> in {"<item>", ...}
    | Msg(text: string)                          // msg := "<text>"

  datatype Cond = Positive(name: string) | Zero(name: string)

  datatype Statement =
    | Default(value: string)                     // default decision := "<value>"
    | Partial(name: string, body: seq<Literal>)  // <name> contains msg if { <body> }
    | Fact(name: string, text: string)           // <name> contains "<text>"
    | Decide(value: string, conds: seq<Cond>)    // decision := "<value>" if <conds>

  datatype Module = Module(package: string, statements: seq<Statement>)

  predicate WellFormedRef(r: Ref) {
    r.Action? ==> IsWord(r.field)
  }

  predicate WellFormedLiteral(l: Literal) {
    match l
    case SomeCap(category) => IsWord(category)
    case ContainsText(ref, _) => WellFormedRef(ref)
    case StartsWith(ref, _) => WellFormedRef(ref)
    case GlobMatch(_, ref) => WellFormedRef(ref)
    case In(ref, items) => WellFormedRef(ref) && items != []
    case NotIn(ref, items) => WellFormedRef(ref) && items != []
    case Msg(_) => true
  }

  predicate WellFormedBody(body: seq<Literal>) {
    forall i | 0 <= i < |body| :: WellFormedLiteral(body[i])
  }

  /** The strings a literal quotes. */
  function Quoted(l: Literal): seq<string> {
    match l
    case SomeCap(_) => []
    case ContainsText(_, arg) => [arg]
    case StartsWith(_, arg) => [arg]
    case GlobMatch(pattern, _) => [pattern]
    case In(_, items) => items
    case NotIn(_, items) => items
    case Msg(text) => [text]
  }

  predicate LegibleAll(isPrint: char -> bool, ss: seq<string>) {
    forall i | 0 <= i < |ss| :: AllLegible(isPrint, ss[i])
  }

  predicate LegibleLiteral(isPrint: char -> bool, l: Literal) {
    LegibleAll(isPrint, Quoted(l))
  }

  predicate LegibleBody(isPrint: char -> bool, body: seq<Literal>) {
    forall i | 0 <= i < |body| :: LegibleLiteral(isPrint, body[i])
  }

  // ----- Printer ----------------------------------------------------------------------------

  function RefText(r: Ref): string {
    match r
    case Cap => "cap"
    case Action(field) => "input.action." + field
  }

  /** Quoted items joined with ", ". */
  function ItemsText(isPrint: char -> bool, items: seq<string>): string {
    if items == [] then ""
    else if |items| == 1 then Quote(isPrint, items[0])
    else Quote(isPrint, items[0]) + ", " + ItemsText(isPrint, items[1..])
  }

  function CallText(isPrint: char -> bool, f: string, ref: Ref, arg: string): string {
    f + "(" + RefText(ref) + ", " + Quote(isPrint, arg) + ")"
  }

  function MembershipText(isPrint: char -> bool, ref: Ref, items: seq<string>): string {
    RefText(ref) + " in {" + ItemsText(isPrint, items) + "}"
  }

  function LiteralText(isPrint: char -> bool, l: Literal): string {
    match l
    case SomeCap(category) => "some cap in input.capabilities." + category
    case ContainsText(ref, arg) => CallText(isPrint, "contains", ref, arg)
    case StartsWith(ref, arg) => CallText(isPrint, "startswith", ref, arg)
    case GlobMatch(pattern, ref) => "glob.match(" + Quote(isPrint, pattern) + ", [\".\"], " + RefText(ref) + ")"
    case In(ref, items) => MembershipText(isPrint, ref, items)
    case NotIn(ref, items) => "not " + MembershipText(isPrint, ref, items)
    case Msg(text) => "msg := " + Quote(isPrint, text)
  }

  function BodyText(isPrint: char -> bool, body: seq<Literal>): string {
    if body == [] then ""
    else "    " + LiteralText(isPrint, body[0]) + "\n" + BodyText(isPrint, body[1..])
  }

  function PartialText(isPrint: char -> bool, name: string, body: seq<Literal>): string {
    name + " contains msg if {\n" + BodyText(isPrint, body) + "}\n\n"
  }

  // ----- Tokens -----------------------------------------------------------------------------

  // Each function puts the tokens of its argument in front of the outcome `k` of lexing what follows.

  function RefTokens(r: Ref, k: Option<Tokens>): Option<Tokens> {
    match r
    case Cap => Prepend(Word("cap"), k)
    case Action(field) =>
      Prepend(Word("input"), Prepend(Sym('.'), Prepend(Word("action"), Prepend(Sym('.'), Prepend(Word(field), k)))))
  }

  function ItemsTokens(items: seq<string>, k: Option<Tokens>): Option<Tokens> {
    if items == [] then k
    else if |items| == 1 then Prepend(Str(items[0]), k)
    else Prepend(Str(items[0]), Prepend(Sym(','), ItemsTokens(items[1..], k)))
  }

  function SomeCapTokens(category: string, k: Option<Tokens>): Option<Tokens> {
    Prepend(Word("some"), Prepend(Word("cap"), Prepend(Word("in"), Prepend(Word("input"), Prepend(Sym('.'),
    Prepend(Word("capabilities"), Prepend(Sym('.'), Prepend(Word(category), k))))))))
  }

  function MembershipTokens(ref: Ref, items: seq<string>, k: Option<Tokens>): Option<Tokens> {
    RefTokens(ref, Prepend(Word("in"), Prepend(Sym('{'), ItemsTokens(items, Prepend(Sym('}'), k)))))
  }

  function CallTokens(f: string, ref: Ref, arg: string, k: Option<Tokens>): Option<Tokens> {
    Prepend(Word(f), Prepend(Sym('('), RefTokens(ref, Prepend(Sym(','), Prepend(Str(arg), Prepend(Sym(')'), k))))))
  }

  function GlobTokens(pattern: string, ref: Ref, k: Option<Tokens>): Option<Tokens> {
    Prepend(Word("glob"), Prepend(Sym('.'), Prepend(Word("match"), Prepend(Sym('('), Prepend(Str(pattern),
    Prepend(Sym(','), Prepend(Sym('['), Prepend(Str("."), Prepend(Sym(']'), Prepend(Sym(','),
    RefTokens(ref, Prepend(Sym(')'), k))))))))))))
  }

  function MsgTokens(text: string, k: Option<Tokens>): Option<Tokens> {
    Prepend(Word("msg"), Prepend(Sym(':'), Prepend(Sym('='), Prepend(Str(text), k))))
  }

  function LiteralTokens(l: Literal, k: Option<Tokens>): Option<Tokens> {
    match l
    case SomeCap(category) => SomeCapTokens(category, k)
    case ContainsText(ref, arg) => CallTokens("contains", ref, arg, k)
    case StartsWith(ref, arg) => CallTokens("startswith", ref, arg, k)
    case GlobMatch(pattern, ref) => GlobTokens(pattern, ref, k)
    case In(ref, items) => MembershipTokens(ref, items, k)
    case NotIn(ref, items) => Prepend(Word("not"), MembershipTokens(ref, items, k))
    case Msg(text) => MsgTokens(text, k)
  }

  function BodyTokens(body: seq<Literal>, k: Option<Tokens>): Option<Tokens> {
    if body == [] then k else LiteralTokens(body[0], Prepend(Eol, BodyTokens(body[1..], k)))
  }

  function HeadTokens(name: string, k: Option<Tokens>): Option<Tokens> {
    Prepend(Word(name), Prepend(Word("contains"), Prepend(Word("msg"), Prepend(Word("if"),
    Prepend(Sym('{'), Prepend(Eol, k))))))
  }

  function PartialTokens(name: string, body: seq<Literal>, k: Option<Tokens>): Option<Tokens> {
    HeadTokens(name, BodyTokens(body, Prepend(Sym('}'), Prepend(Eol, Prepend(Eol, k)))))
  }

  // ----- The text of a literal has exactly its tokens ------------------------------------

  /** The words of the fragment. */
  lemma Keywords()
    ensures IsWord("cap") && IsWord("input") && IsWord("action") && IsWord("some") && IsWord("in")
    ensures IsWord("capabilities") && IsWord("contains") && IsWord("startswith") && IsWord("glob")
    ensures IsWord("match") && IsWord("not") && IsWord("msg") && IsWord("if")
  {
  }

  lemma LexRef(r: Ref, rest: string)
    requires WellFormedRef(r) && EndsWord(rest)
    ensures Lex(RefText(r) + rest) == RefTokens(r, Lex(rest))
  {
    hide Lex, WordLength, IsWord, Prepend;
    Keywords();
    match r
    case Cap => LexWord("cap", rest);
    case Action(field) =>
      var t2 := field + rest;
      var t1 := "action" + ("." + t2);
      assert RefText(r) + rest == "input" + ("." + t1);
      LexWord(field, rest);
      LexWordSym("action", '.', t2);
      LexWordSym("input", '.', t1);
  }

  lemma {:induction false} LexItems(isPrint: char -> bool, items: seq<string>, rest: string)
    requires items != []
    ensures Lex(ItemsText(isPrint, items) + rest)
         == if LegibleAll(isPrint, items) then ItemsTokens(items, Lex(rest)) else None
  {
    hide Lex, WordLength, Quote, AllLegible;
    if |items| == 1 {
      LexQuoted(isPrint, items[0], rest);
    } else {
      var tail := ItemsText(isPrint, items[1..]) + rest;
      assert ItemsText(isPrint, items) + rest == Quote(isPrint, items[0]) + ("," + (" " + tail));
      LexQuoted(isPrint, items[0], "," + (" " + tail));
      LexSymGap(',', tail);
      LexItems(isPrint, items[1..], rest);
      assert LegibleAll(isPrint, items) <==> AllLegible(isPrint, items[0]) && LegibleAll(isPrint, items[1..]);
    }
  }

  lemma LexSomeCap(category: string, rest: string)
    requires IsWord(category) && EndsWord(rest)
    ensures Lex("some cap in input.capabilities." + category + rest) == SomeCapTokens(category, Lex(rest))
  {
    hide Lex, WordLength, IsWord, Prepend, EndsWord;
    Keywords();
    var t4 := category + rest;
    var t3 := "capabilities" + ("." + t4);
    var t2 := "input" + ("." + t3);
    var t1 := "in" + (" " + t2);
    assert "some cap in input.capabilities." + category + rest == "some" + (" " + ("cap" + (" " + t1)));
    LexWord(category, rest);
    LexWordSym("capabilities", '.', t4);
    LexWordSym("input", '.', t3);
    LexWordGap("in", t2);
    LexWordGap("cap", t1);
    LexWordGap("some", "cap" + (" " + t1));
  }

  /** `contains(<ref>, "<arg>")` and `startswith(<ref>, "<arg>")`. */
  lemma LexCall(isPrint: char -> bool, f: string, ref: Ref, arg: string, rest: string)
    requires IsWord(f) && WellFormedRef(ref)
    ensures Lex(CallText(isPrint, f, ref, arg) + rest)
         == if AllLegible(isPrint, arg) then CallTokens(f, ref, arg, Lex(rest)) else None
  {
    hide Lex, WordLength, IsWord, Quote, AllLegible, RefText;
    var t3 := Quote(isPrint, arg) + (")" + rest);
    var t2 := "," + (" " + t3);
    var t1 := RefText(ref) + t2;
    assert CallText(isPrint, f, ref, arg) + rest == f + ("(" + t1);
    LexSym(')', rest);
    LexQuoted(isPrint, arg, ")" + rest);
    LexSymGap(',', t3);
    LexRef(ref, t2);
    LexWordSym(f, '(', t1);
  }

  lemma QuotedDot(isPrint: char -> bool)
    ensures Quote(isPrint, ".") == "\".\"" && AllLegible(isPrint, ".")
  {
    assert QuoteChar(isPrint, '.') == ".";
    assert QuoteBody(isPrint, ".") == QuoteChar(isPrint, '.') + QuoteBody(isPrint, "");
  }

  lemma LexGlob(isPrint: char -> bool, pattern: string, ref: Ref, rest: string)
    requires WellFormedRef(ref)
    ensures Lex("glob.match(" + Quote(isPrint, pattern) + ", [\".\"], " + RefText(ref) + ")" + rest)
         == if AllLegible(isPrint, pattern) then GlobTokens(pattern, ref, Lex(rest)) else None
  {
    hide Lex, WordLength, IsWord, Quote, AllLegible, RefText;
    Keywords();
    QuotedDot(isPrint);
    var t5 := RefText(ref) + (")" + rest);
    var t4 := "]" + ("," + (" " + t5));
    var t3 := "[" + (Quote(isPrint, ".") + t4);
    var t2 := Quote(isPrint, pattern) + ("," + (" " + t3));
    var t1 := "match" + ("(" + t2);
    assert "glob.match(" + Quote(isPrint, pattern) + ", [\".\"], " + RefText(ref) + ")" + rest == "glob" + ("." + t1);
    LexSym(')', rest);
    LexRef(ref, ")" + rest);
    LexSymGap(',', t5);
    LexSym(']', "," + (" " + t5));
    LexQuoted(isPrint, ".", t4);
    LexSym('[', Quote(isPrint, ".") + t4);
    LexSymGap(',', t3);
    LexQuoted(isPrint, pattern, "," + (" " + t3));
    LexWordSym("match", '(', t2);
    LexWordSym("glob", '.', t1);
  }

  lemma LexMembership(isPrint: char -> bool, ref: Ref, items: seq<string>, rest: string)
    requires WellFormedRef(ref) && items != []
    ensures Lex(MembershipText(isPrint, ref, items) + rest)
         == if LegibleAll(isPrint, items) then MembershipTokens(ref, items, Lex(rest)) else None
  {
    hide Lex, WordLength, IsWord, Quote, LegibleAll, RefText, ItemsText, ItemsTokens;
    Keywords();
    var t2 := ItemsText(isPrint, items) + ("}" + rest);
    var t1 := "in" + (" " + ("{" + t2));
    assert MembershipText(isPrint, ref, items) + rest == RefText(ref) + (" " + t1);
    LexSym('}', rest);
    LexItems(isPrint, items, "}" + rest);
    LexSym('{', t2);
    LexWordGap("in", "{" + t2);
    LexGap(" ", t1);
    LexRef(ref, " " + t1);
  }

  lemma LexMsg(isPrint: char -> bool, text: string, rest: string)
    ensures Lex("msg := " + Quote(isPrint, text) + rest)
         == if AllLegible(isPrint, text) then MsgTokens(text, Lex(rest)) else None
  {
    hide Lex, WordLength, IsWord, Quote, AllLegible;
    Keywords();
    var t2 := Quote(isPrint, text) + rest;
    var t1 := "=" + (" " + t2);
    assert "msg := " + Quote(isPrint, text) + rest == "msg" + (" " + (":" + t1));
    LexQuoted(isPrint, text, rest);
    LexSymGap('=', t2);
    LexSym(':', t1);
    LexWordGap("msg", ":" + t1);
  }

  /** A printed literal lexes to its own tokens, or not at all when it quotes an illegible string. */
  lemma LexLiteral(isPrint: char -> bool, l: Literal, rest: string)
    requires WellFormedLiteral(l) && EndsWord(rest)
    ensures Lex(LiteralText(isPrint, l) + rest)
         == if LegibleLiteral(isPrint, l) then LiteralTokens(l, Lex(rest)) else None
  {
    hide Lex, WordLength, IsWord, Quote, AllLegible, CallText, MembershipText, CallTokens, MembershipTokens, GlobTokens, SomeCapTokens, MsgTokens, EndsWord;
    Keywords();
    match l
    case SomeCap(category) =>
      LexSomeCap(category, rest);
    case ContainsText(ref, arg) =>
      LexCall(isPrint, "contains", ref, arg, rest);
    case StartsWith(ref, arg) =>
      LexCall(isPrint, "startswith", ref, arg, rest);
    case GlobMatch(pattern, ref) =>
      LexGlob(isPrint, pattern, ref, rest);
    case In(ref, items) =>
      LexMembership(isPrint, ref, items, rest);
    case NotIn(ref, items) =>
      var t := MembershipText(isPrint, ref, items) + rest;
      assert LiteralText(isPrint, l) + rest == "not" + (" " + t);
      LexMembership(isPrint, ref, items, rest);
      LexWordGap("not", t);
    case Msg(text) =>
      LexMsg(isPrint, text, rest);
  }

  lemma {:induction false} LexBody(isPrint: char -> bool, body: seq<Literal>, rest: string)
    requires WellFormedBody(body)
    ensures Lex(BodyText(isPrint, body) + rest)
         == if LegibleBody(isPrint, body) then BodyTokens(body, Lex(rest)) else None
  {
    hide Lex, WordLength, LiteralText, LiteralTokens, LegibleLiteral, WellFormedLiteral;
    if body == [] {
      assert BodyText(isPrint, body) + rest == rest;
    } else {
      var tail := BodyText(isPrint, body[1..]) + rest;
      var t1 := LiteralText(isPrint, body[0]) + ("\n" + tail);
      assert BodyText(isPrint, body) + rest == "    " + t1;
      LexBody(isPrint, body[1..], rest);
      LexEol(tail);
      LexLiteral(isPrint, body[0], "\n" + tail);
      LexGap("    ", t1);
      assert LegibleBody(isPrint, body) <==> LegibleLiteral(isPrint, body[0]) && LegibleBody(isPrint, body[1..]);
      LiteralTokensNone(body[0]);
    }
  }

  lemma LiteralTokensNone(l: Literal)
    ensures LiteralTokens(l, None) == None
  {
    if l.In? || l.NotIn? {
      ItemsTokensNone(l.items);
    }
  }

  lemma {:induction false} ItemsTokensNone(items: seq<string>)
    ensures ItemsTokens(items, None) == None
  {
    if |items| > 1 {
      ItemsTokensNone(items[1..]);
    }
  }

  lemma {:induction false} BodyTokensNone(body: seq<Literal>)
    ensures BodyTokens(body, None) == None
  {
    if body != [] {
      BodyTokensNone(body[1..]);
      LiteralTokensNone(body[0]);
    }
  }

  lemma LexHead(name: string, rest: string)
    requires IsWord(name)
    ensures Lex(name + " contains msg if {\n" + rest) == HeadTokens(name, Lex(rest))
  {
    hide Lex, WordLength, IsWord, Prepend;
    Keywords();
    var t3 := "{" + ("\n" + rest);
    var t2 := "msg" + (" " + ("if" + (" " + t3)));
    var t1 := "contains" + (" " + t2);
    assert name + " contains msg if {\n" + rest == name + (" " + t1);
    LexEol(rest);
    LexSym('{', "\n" + rest);
    LexWordGap("if", t3);
    LexWordGap("msg", "if" + (" " + t3));
    LexWordGap("contains", t2);
    LexWordGap(name, t1);
  }

  lemma LexPartial(isPrint: char -> bool, name: string, body: seq<Literal>, rest: string)
    requires IsWord(name) && WellFormedBody(body)
    ensures Lex(PartialText(isPrint, name, body) + rest)
         == if LegibleBody(isPrint, body) then PartialTokens(name, body, Lex(rest)) else None
  {
    hide Lex, WordLength, IsWord, WellFormedBody, LegibleBody, BodyText, BodyTokens;
    var t2 := "}" + ("\n" + ("\n" + rest));
    var t1 := BodyText(isPrint, body) + t2;
    assert PartialText(isPrint, name, body) + rest == name + " contains msg if {\n" + t1;
    LexEol(rest);
    LexEol("\n" + rest);
    LexSym('}', "\n" + ("\n" + rest));
    LexBody(isPrint, body, t2);
    LexHead(name, t1);
  }
}
