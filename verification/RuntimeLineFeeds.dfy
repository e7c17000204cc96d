/** What a line feed in a runtime expression does to the text that copies the expression into a comment:
everything after the line feed is read as Rego. */
module RuntimeLineFeeds {
  import opened Outcomes
  import opened RegoLexer
  import opened Rego
  import opened RegoReader
  import opened PolicyDsl
  import opened RuntimeDsl

  /** What the reader skips between statements. */
  predicate White(s: string) {
    forall i | 0 <= i < |s| :: s[i] in {' ', '\t', '\r', '\n'}
  }

  /** Nothing but white space follows the first line feed. */
  predicate Contained(expr: string) {
    White(expr[LineLength(expr)..])
  }

  lemma {:induction false} LineLengthSplits(s: string)
    ensures '\n' !in s[..LineLength(s)]
    ensures LineLength(s) < |s| ==> s[LineLength(s)] == '\n'
  {
    if s != "" && s[0] != '\n' {
      LineLengthSplits(s[1..]);
      assert s[..LineLength(s)] == [s[0]] + s[1..][..LineLength(s[1..])];
    }
  }

  // ----- What a text reads as ----------------------------------------------------------------

  /** The statements of what was lexed, if it was. */
  function Statements(r: Option<Tokens>): Option<seq<Statement>> {
    match r
    case None => None
    case Some(ts) => ParseStatements(ts)
  }

  predicate Stuck(r: Option<Tokens>) {
    Statements(r) == None
  }

  /** What was lexed, from its first token that is no line end. */
  function Skipped(r: Option<Tokens>): Option<Tokens> {
    match r
    case None => None
    case Some(ts) => Some(SkipEols(ts))
  }

  lemma {:induction false} StatementsSkip(ts: Tokens)
    ensures ParseStatements(ts) == ParseStatements(SkipEols(ts))
    decreases ts
  {
    hide ParseStatement;
    if ts.Tok? && ts.head == Eol {
      StatementsSkip(ts.tail);
    }
  }

  lemma SkippedReads(r: Option<Tokens>)
    ensures Statements(Skipped(r)) == Statements(r)
  {
    hide ParseStatements, SkipEols;
    if r.Some? {
      StatementsSkip(r.value);
    }
  }

  // ----- Blanks -----------------------------------------------------------------------------

  lemma LexBlank(c: char, s: string)
    requires IsSpace(c)
    ensures Lex([c] + s) == if c == '\n' then Prepend(Eol, Lex(s)) else if c in {' ', '\t', '\r'} then Lex(s) else None
  {
    assert ([c] + s)[1..] == s;
  }

  lemma SkippedEol(r: Option<Tokens>)
    ensures Skipped(Prepend(Eol, r)) == Skipped(r)
  {
  }

  /** White space leaves line ends only; any other blank makes the reader fail. */
  lemma {:induction false} LexBlanks(gap: string, s: string)
    requires Blank(gap)
    ensures Skipped(Lex(gap + s)) == if White(gap) then Skipped(Lex(s)) else None
  {
    hide Lex, IsSpace, Skipped;
    assert Skipped(None) == None by { NothingSkipped(); }
    if gap == "" {
      assert gap + s == s;
    } else {
      LexBlanks(gap[1..], s);
      assert gap + s == [gap[0]] + (gap[1..] + s);
      LexBlank(gap[0], gap[1..] + s);
      SkippedEol(Lex(gap[1..] + s));
      assert White(gap) <==> gap[0] in {' ', '\t', '\r', '\n'} && White(gap[1..]);
    }
  }

  lemma NothingSkipped()
    ensures Skipped(None) == None
  {
  }

  lemma ReadAfterBlanks(gap: string, s: string)
    requires Blank(gap)
    ensures Statements(Lex(gap + s)) == if White(gap) then Statements(Lex(s)) else None
  {
    hide Lex, Blank, White, ParseStatements;
    LexBlanks(gap, s);
    SkippedReads(Lex(gap + s));
    SkippedReads(Lex(s));
  }

  lemma WhiteIsBlank(gap: string)
    requires White(gap)
    ensures Blank(gap)
  {
  }

  /** White space before statements does not matter. */
  lemma ReadAfterWhite(gap: string, s: string)
    requires White(gap)
    ensures ReadStatements(gap + s) == ReadStatements(s)
  {
    hide Lex, Blank, White, ParseStatements;
    WhiteIsBlank(gap);
    ReadAfterBlanks(gap, s);
  }

  /** White space up to the end of a line ends a statement. */
  lemma {:induction false} LexToEol(d: string, rest: string)
    requires White(d)
    ensures var r := Lex(d + ("\n" + rest));
            && (r.Some? <==> Lex(rest).Some?)
            && (r.Some? ==> r.value.Tok? && r.value.head == Eol && ParseStatements(r.value.tail) == ParseStatements(Lex(rest).value))
  {
    hide Lex, ParseStatements, IsSpace;
    if d == "" {
      assert d + ("\n" + rest) == "\n" + rest;
      LexEol(rest);
    } else {
      var more := d[1..] + ("\n" + rest);
      assert d + ("\n" + rest) == [d[0]] + more;
      assert IsSpace(d[0]) by { WhiteIsBlank(d); }
      LexBlank(d[0], more);
      LexToEol(d[1..], rest);
      if d[0] == '\n' && Lex(more).Some? {
        SkipEol(Lex(more).value.tail);
      }
    }
  }

  // ----- Statements that begin with a word ---------------------------------------------------

  /** Lexing fails, or a first token is there and is not the word. */
  predicate Not(word: string, r: Option<Tokens>) {
    r.Some? ==> r.value.Tok? && r.value.head != Word(word)
  }

  lemma StuckAtSymbol(r: Option<Tokens>)
    requires r.Some? ==> r.value.Tok? && (r.value.head.Sym? || r.value.head.Str?)
    ensures Stuck(r)
  {
  }

  lemma StuckAfterWord(w: string, r: Option<Tokens>)
    requires w != "default" && w != "decision" && Not("contains", Skipped(r))
    ensures Stuck(Prepend(Word(w), r))
  {
  }

  /** A word, `contains` and something that is no string. */
  lemma StuckAfterContains(w: string, r: Option<Tokens>, next: Option<Tokens>)
    requires w != "default" && w != "decision"
    requires Skipped(r) == Prepend(Word("contains"), next)
    requires Skipped(next).Some? ==> Skipped(next).value.Tok? && Skipped(next).value.head.Sym?
    ensures Stuck(Prepend(Word(w), r))
  {
  }

  /** A word, `contains`, a string and the end of the line are a statement. */
  lemma FactThen(w: string, r: Option<Tokens>, next: Option<Tokens>, text: string, after: Option<Tokens>)
    requires w != "default" && w != "decision"
    requires Skipped(r) == Prepend(Word("contains"), next) && Skipped(next) == Prepend(Str(text), after)
    ensures Statements(Prepend(Word(w), r))
         == if after.Some? && after.value.Tok? && after.value.head == Eol
            then Cons(Fact(w, text), ParseStatements(after.value.tail)) else None
  {
    hide ParseBody;
    if after.Some? {
      var ts := Tok(Word(w), r.value);
      assert ParseFact(ts) == Some((Fact(w, text), after.value));
      assert ParsePartial(ts) == None;
    }
  }

  // ----- Arrays -----------------------------------------------------------------------------

  /** A text made of white space, brackets, commas, the letters of `null`, and strings without control
      characters, as every JSON array of strings and nulls is (section 2 of RFC 8259). */
  predicate JsonText(s: string, quoted: bool)
  {
    if s == "" then !quoted
    else if quoted then
      if s[0] == '"' then JsonText(s[1..], false)
      else if s[0] == '\\' then |s| >= 2 && s[1] >= ' ' && JsonText(s[2..], true)
      else s[0] >= ' ' && JsonText(s[1..], true)
    else if s[0] == '"' then JsonText(s[1..], true)
    else s[0] in {' ', '\t', '\r', '\n', '[', ']', ',', 'n', 'u', 'l'} && JsonText(s[1..], false)
  }

  /** The decoder accepts JSON only. */
  ghost predicate DecodesJson(decode: Decoder) {
    forall s :: decode(s).Some? ==> JsonText(s, false)
  }

  /** A line feed is never inside a string. */
  lemma {:induction false} JsonAfterLineFeed(line: string, tail: string, quoted: bool)
    requires JsonText(line + "\n" + tail, quoted)
    ensures JsonText(tail, false)
    decreases |line|
  {
    var s := line + "\n" + tail;
    if line == "" {
      assert s[1..] == tail;
    } else if quoted && s[0] == '\\' {
      assert s[1] != '\n';
      assert s[2..] == line[2..] + "\n" + tail;
      JsonAfterLineFeed(line[2..], tail, true);
    } else {
      assert s[1..] == line[1..] + "\n" + tail;
      JsonAfterLineFeed(line[1..], tail, if quoted then s[0] != '"' else s[0] == '"');
    }
  }

  lemma {:induction false} JsonAfterWord(t: string, n: nat)
    requires n <= |t| && JsonText(t, false) && forall i | 0 <= i < n :: WordChar(t[i])
    ensures JsonText(t[n..], false)
  {
    if n > 0 {
      JsonAfterWord(t[1..], n - 1);
      assert t[1..][n - 1..] == t[n..];
    }
  }

  lemma {:induction false} WordLengthWithin(s: string, j: nat)
    requires j < |s| && !WordChar(s[j])
    ensures WordLength(s) <= j && !WordChar(s[WordLength(s)])
    ensures forall i | 0 <= i < WordLength(s) :: WordChar(s[i])
  {
    if j > 0 && WordChar(s[0]) {
      WordLengthWithin(s[1..], j - 1);
      assert forall i | 0 < i < WordLength(s) :: s[i] == s[1..][i - 1];
    }
  }

  /** The rest of an array begins with no word but one made of the letters of `null`. */
  predicate ArrayHead(r: Option<Tokens>) {
    r.Some? ==> r.value.Tok? && (r.value.head.Word? ==> r.value.head.name != "" && r.value.head.name[0] in {'n', 'u', 'l'})
  }

  predicate ClosesArray(t: string) {
    t != "" && t[|t| - 1] == ']' && JsonText(t, false)
  }

  lemma {:induction false} LexArrayWord(t: string, more: string) returns (rest: string)
    requires ClosesArray(t) && WordStart(t[0])
    ensures ClosesArray(rest) && |rest| < |t|
    ensures exists w :: w != "" && w[0] in {'n', 'u', 'l'} && Lex(t + more) == Prepend(Word(w), Lex(rest + more))
  {
    hide Lex;
    var s := t + more;
    WordLengthWithin(s, |t| - 1);
    var n := WordLength(s);
    rest := t[n..];
    assert forall i | 0 <= i < n :: WordChar(t[i]) by { assert forall i | 0 <= i < n :: t[i] == s[i]; }
    JsonAfterWord(t, n);
    assert s == t[..n] + (rest + more);
    LexWord(t[..n], rest + more);
  }

  lemma {:induction false} LexArrayHead(t: string, more: string)
    requires ClosesArray(t)
    ensures ArrayHead(Skipped(Lex(t + more)))
  {
    assert t + more == [t[0]] + (t[1..] + more);
    if t[0] in {' ', '\t', '\r', '\n'} {
      hide Lex, Skipped;
      LexBlank(t[0], t[1..] + more);
      SkippedEol(Lex(t[1..] + more));
      LexArrayHead(t[1..], more);
    } else if WordStart(t[0]) {
      hide Lex;
      var rest := LexArrayWord(t, more);
    }
  }

  /** The rest of an array is no statement. */
  lemma {:induction false} ArrayIsStuck(t: string, more: string)
    requires ClosesArray(t)
    ensures Stuck(Lex(t + more))
  {
    assert t + more == [t[0]] + (t[1..] + more);
    if t[0] in {' ', '\t', '\r', '\n'} {
      hide Lex, ParseStatements;
      LexBlank(t[0], t[1..] + more);
      ArrayIsStuck(t[1..], more);
      SkippedEol(Lex(t[1..] + more));
      SkippedReads(Lex(t[1..] + more));
      SkippedReads(Lex(t + more));
    } else if WordStart(t[0]) {
      hide Lex, Stuck;
      var rest := LexArrayWord(t, more);
      var w :| w != "" && w[0] in {'n', 'u', 'l'} && Lex(t + more) == Prepend(Word(w), Lex(rest + more));
      LexArrayHead(rest, more);
      StuckAfterWord(w, Lex(rest + more));
    } else {
      hide ParseStatements, Stuck;
      StuckAtSymbol(Lex(t + more));
    }
  }

  // ----- Arguments ----------------------------------------------------------------------------

  /** A text without quotes and backslashes is a string, or has a control character and cannot be read. */
  lemma {:induction false} ReadRaw(text: string, more: string)
    requires '"' !in text && '\\' !in text && !Plain(text)
    ensures ReadString(text + ("\"" + more)) == None
  {
    var s := text + ("\"" + more);
    assert text == [text[0]] + text[1..];
    assert s[1..] == text[1..] + ("\"" + more);
    if text[0] >= ' ' {
      ReadRaw(text[1..], more);
    }
  }

  lemma LexRaw(text: string, more: string)
    requires '"' !in text && '\\' !in text
    ensures Lex("\"" + text + "\"" + more) == if Plain(text) then Prepend(Str(text), Lex(more)) else None
  {
    hide ReadString;
    assert "\"" + text + "\"" + more == "\"" + (text + ("\"" + more));
    if Plain(text) {
      LexPlain(text, more);
    } else {
      ReadRaw(text, more);
      assert ("\"" + (text + ("\"" + more)))[1..] == text + ("\"" + more);
    }
  }

  /** The arguments that can be accepted: a quoted text, or an array. */
  predicate Closed(op: string, arg: string, text: string) {
    if op == "contains" then arg == "\"" + text + "\"" && '"' !in text && '\\' !in text && '\n' !in text
    else ClosesArray(arg) && arg[0] == '['
  }

  lemma AcceptedIsClosed(decode: Decoder, op: string, arg: string)
    requires op in OPERATORS && ParseArgument(decode, op, arg).Ok? && (op == "contains" || JsonText(arg, false))
    ensures Closed(op, arg, ParseArgument(decode, op, arg).value)
  {
    if op == "contains" {
      var text := arg[1..|arg| - 1];
      assert arg == "\"" + text + "\"";
    }
  }

  lemma ArgumentIsStuck(op: string, arg: string, text: string, more: string)
    requires Closed(op, arg, text)
    ensures Stuck(Lex(arg + more))
    ensures Skipped(Lex(arg + more)) == Lex(arg + more)
    ensures op == "contains" ==> Lex(arg + more) == if Plain(text) then Prepend(Str(text), Lex(more)) else None
    ensures op != "contains" ==> Lex(arg + more).Some? ==> Lex(arg + more).value.Tok? && Lex(arg + more).value.head.Sym?
    ensures Not("contains", Skipped(Lex(arg + more)))
  {
    hide ParseStatements, Stuck, Plain;
    if op == "contains" {
      LexRaw(text, more);
      assert "\"" + text + "\"" + more == arg + more;
      hide Lex;
      StuckAtSymbol(Lex(arg + more));
    } else {
      assert arg + more == [arg[0]] + (arg[1..] + more);
      StuckAtSymbol(Lex(arg + more));
    }
  }

  lemma NamesAreWords(w: string)
    requires w in FIELDS || w in OPERATORS
    ensures IsWord(w) && '\n' !in w && w != "default" && w != "decision"
    ensures w in FIELDS ==> w != "contains"
    ensures White(" ")
  {
  }

  /** The operator with its argument is no statement. */
  lemma OperatorIsStuck(op: string, c: string, arg: string, text: string, more: string)
    requires op in OPERATORS && Blank(c) && Closed(op, arg, text)
    ensures Lex(op + (" " + (c + arg)) + more) == Prepend(Word(op), Lex(" " + (c + arg) + more))
    ensures Skipped(Lex(" " + (c + arg) + more)) == if White(c) then Lex(arg + more) else None
    ensures Stuck(Lex(op + (" " + (c + arg)) + more))
  {
    hide Lex, Stuck, Closed, IsWord, OPERATORS, FIELDS, Blank, White, Skipped;
    NamesAreWords(op);
    ArgumentIsStuck(op, arg, text, more);
    BlankPair(c);
    LexBlanks(" " + c, arg + more);
    assert " " + c + (arg + more) == " " + (c + arg) + more;
    var s := " " + (c + arg) + more;
    assert op + (" " + (c + arg)) + more == op + s;
    LexWord(op, s);
    StuckAfterWord(op, Lex(s));
  }

  lemma BlankPair(c: string)
    requires Blank(c)
    ensures Blank(" " + c) && (White(" " + c) <==> White(c))
  {
    var s := " " + c;
    assert forall i | 0 <= i < |c| :: s[i + 1] == c[i];
    assert forall i | 0 < i < |s| :: s[i] == c[i - 1];
  }

  /** Field, operator and argument are read as a set rule without a body exactly when the operator is
      `contains`, the gaps are white space and the argument a string. */
  lemma CoreReads(field: string, b: string, op: string, c: string, arg: string, text: string, d: string, rest: string)
    requires field in FIELDS && op in OPERATORS && Blank(b) && Blank(c) && Blank(d) && Closed(op, arg, text)
    ensures var s := field + (" " + (b + (op + (" " + (c + arg))))) + (d + ("\n" + rest));
            Statements(Lex(s)) == if op == "contains" && White(b) && White(c) && Plain(text) && White(d)
                                  then Cons(Fact(field, text), ReadStatements(rest)) else None
  {
    hide Lex, Closed, IsSpace, IsWord, Not, OPERATORS, FIELDS, Blank, White, Skipped, Statements, Stuck, Plain, ReadStatements;
    var more := d + ("\n" + rest);
    NamesAreWords(field);
    OperatorIsStuck(op, c, arg, text, more);
    ArgumentIsStuck(op, arg, text, more);
    var o, after := op + (" " + (c + arg)) + more, " " + (c + arg) + more;
    BlankPair(b);
    LexBlanks(" " + b, o);
    var s := " " + b + o;
    assert field + (" " + (b + (op + (" " + (c + arg))))) + more == field + s;
    LexWord(field, s);
    SkippedWord(op, Lex(after));
    if !White(b) {
      NothingIsNot();
      StuckAfterWord(field, Lex(s));
      StuckIs(Prepend(Word(field), Lex(s)));
    } else if op != "contains" {
      OtherWordIsNot("contains", op, Lex(after));
      StuckAfterWord(field, Lex(s));
      StuckIs(Prepend(Word(field), Lex(s)));
    } else if White(c) && Plain(text) {
      FactThen(field, Lex(s), Lex(after), text, Lex(more));
      FactEnds(d, rest);
    } else {
      StuckAfterContains(field, Lex(s), Lex(after));
      StuckIs(Prepend(Word(field), Lex(s)));
    }
  }

  lemma SkippedWord(w: string, r: Option<Tokens>)
    ensures Skipped(Prepend(Word(w), r)) == Prepend(Word(w), r)
  {
  }

  lemma NothingIsNot()
    ensures Not("contains", None)
  {
  }

  lemma StuckIs(r: Option<Tokens>)
    ensures Stuck(r) ==> Statements(r) == None
  {
  }

  lemma OtherWordIsNot(w: string, v: string, r: Option<Tokens>)
    requires v != w
    ensures Not(w, Prepend(Word(v), r))
  {
  }

  /** After the string, only white space may stand before the end of the line. */
  lemma FactEnds(d: string, rest: string)
    requires Blank(d)
    ensures var r := Lex(d + ("\n" + rest));
            && (White(d) ==> (r.Some? <==> Lex(rest).Some?)
                             && (r.Some? ==> r.value.Tok? && r.value.head == Eol
                                             && Some(ParseStatements(r.value.tail)) == Some(ReadStatements(rest))))
            && (White(d) && r.None? ==> ReadStatements(rest) == None)
            && (!White(d) ==> r == None)
  {
    hide Lex, Blank, White, ParseStatements;
    if White(d) {
      LexToEol(d, rest);
    } else {
      LexBlanks(d, "\n" + rest);
    }
  }

  // ----- Expressions ------------------------------------------------------------------------

  /** Whatever follows a line feed of `s` is no statement. */
  ghost predicate Breaks(s: string, more: string) {
    forall k | 0 <= k < |s| && s[k] == '\n' :: Stuck(Lex(s[k + 1..] + more))
  }

  lemma BlankTail(gap: string, k: nat)
    requires Blank(gap) && k <= |gap|
    ensures Blank(gap[k..])
  {
  }

  lemma BreaksAfterBlanks(gap: string, s: string, more: string)
    requires Blank(gap) && Stuck(Lex(s + more)) && Breaks(s, more)
    ensures Breaks(gap + s, more) && Stuck(Lex(gap + s + more))
  {
    hide Lex, ParseStatements, Blank, White;
    assert gap + s + more == gap + (s + more);
    ReadAfterBlanks(gap, s + more);
    forall k | 0 <= k < |gap + s| && (gap + s)[k] == '\n'
      ensures Stuck(Lex((gap + s)[k + 1..] + more))
    {
      if k < |gap| {
        assert (gap + s)[k + 1..] + more == gap[k + 1..] + (s + more);
        BlankTail(gap, k + 1);
        ReadAfterBlanks(gap[k + 1..], s + more);
      } else {
        assert (gap + s)[k + 1..] == s[k - |gap| + 1..];
      }
    }
  }

  lemma BreaksAfterWord(w: string, s: string, more: string)
    requires '\n' !in w && Breaks(s, more)
    ensures Breaks(w + s, more)
  {
    hide Lex, Stuck;
    forall k | 0 <= k < |w + s| && (w + s)[k] == '\n'
      ensures Stuck(Lex((w + s)[k + 1..] + more))
    {
      assert k >= |w| && (w + s)[k + 1..] == s[k - |w| + 1..];
    }
  }

  lemma ArgumentBreaks(op: string, arg: string, text: string, more: string)
    requires Closed(op, arg, text)
    ensures Breaks(arg, more)
  {
    hide Lex, ParseStatements, Stuck;
    forall k | 0 <= k < |arg| && arg[k] == '\n'
      ensures Stuck(Lex(arg[k + 1..] + more))
    {
      assert arg == arg[..k] + "\n" + arg[k + 1..];
      JsonAfterLineFeed(arg[..k], arg[k + 1..], false);
      ArrayIsStuck(arg[k + 1..], more);
    }
  }

  /** A line feed from the field on is followed by no statement. */
  lemma CoreBreaks(field: string, b: string, op: string, c: string, arg: string, text: string, more: string)
    requires field in FIELDS && op in OPERATORS && Blank(b) && Blank(c) && Closed(op, arg, text)
    ensures Breaks(Core(field, b, op, c, arg), more)
  {
    hide Lex, Stuck, Closed, IsWord, OPERATORS, FIELDS, Breaks, White, Blank, Skipped;
    NamesAreWords(field);
    NamesAreWords(op);
    assert Blank(" ") by { WhiteIsBlank(" "); }
    ArgumentIsStuck(op, arg, text, more);
    ArgumentBreaks(op, arg, text, more);
    BreaksAfterBlanks(c, arg, more);
    BreaksAfterBlanks(" ", c + arg, more);
    BreaksAfterWord(op, " " + (c + arg), more);
    OperatorIsStuck(op, c, arg, text, more);
    var o := op + (" " + (c + arg));
    BreaksAfterBlanks(b, o, more);
    BreaksAfterBlanks(" ", b + o, more);
    BreaksAfterWord(field, " " + (b + o), more);
  }

  /** The array of an expression with line feeds is JSON. */
  predicate ArrayIsJson(decode: Decoder, expr: string)
    requires ParseRuntimeExpr(decode, expr).Ok?
  {
    var (_, op, arg) := ParseRuntimeExpr(decode, expr).value;
    op == "contains" || '\n' !in expr || JsonText(arg, false)
  }

  /** Under a decoder that accepts JSON only, every array is JSON. */
  lemma DecodedIsJson(decode: Decoder, expr: string)
    requires DecodesJson(decode) && ParseRuntimeExpr(decode, expr).Ok?
    ensures ArrayIsJson(decode, expr)
  {
    hide TrimSpace, IndexOf;
  }

  /** A `contains` expression whose first line feed comes before the field, with white space only from there to
      the end but for the three parts, the argument being a readable string. */
  predicate FactSpelled(expr: string, line: string, a: string, field: string, b: string, c: string, text: string, d: string) {
    && '\n' !in line && Blank(line) && White(a) && White(b) && White(c) && White(d) && field in FIELDS && Plain(text)
    && expr == line + "\n" + a + (field + (" " + (b + ("contains" + (" " + (c + ("\"" + text + "\""))))))) + d
  }

  /** What follows the first line feed of the expression is itself a set rule. */
  ghost predicate IsFact(decode: Decoder, expr: string)
    requires ParseRuntimeExpr(decode, expr).Ok?
  {
    var (field, op, text) := ParseRuntimeExpr(decode, expr).value;
    op == "contains" && exists line, a, b, c, d :: FactSpelled(expr, line, a, field, b, c, text, d)
  }

  function FactOf(decode: Decoder, expr: string): Statement
    requires ParseRuntimeExpr(decode, expr).Ok?
  {
    Fact(ParseRuntimeExpr(decode, expr).value.0, ParseRuntimeExpr(decode, expr).value.2)
  }

  /** The parts of an accepted expression with a line feed, and the text of its argument. */
  lemma PartsOf(decode: Decoder, expr: string)
    returns (a: string, field: string, b: string, op: string, c: string, arg: string, d: string, text: string)
    requires ParseRuntimeExpr(decode, expr).Ok? && '\n' in expr && ArrayIsJson(decode, expr)
    ensures Spelled(expr, a, field, b, op, c, arg, d) && Closed(op, arg, text)
    ensures ParseRuntimeExpr(decode, expr) == Ok((field, op, text))
  {
    hide ParseRuntimeExpr, Spelled, IsSpace, ParseArgument, Closed, JsonText;
    a, field, b, op, c, arg, d := ParsedIsSpelled(decode, expr);
    ParseSpelled(decode, expr, a, field, b, op, c, arg, d);
    text := ParseArgument(decode, op, arg).value;
    ArrayArgument(decode, op, arg);
    assert op in OPERATORS by { SpelledOperator(expr, a, field, b, op, c, arg, d); }
    AcceptedIsClosed(decode, op, arg);
  }

  lemma SpelledOperator(expr: string, a: string, field: string, b: string, op: string, c: string, arg: string, d: string)
    requires Spelled(expr, a, field, b, op, c, arg, d)
    ensures op in OPERATORS
  {
  }

  lemma ArrayArgument(decode: Decoder, op: string, arg: string)
    requires ParseArgument(decode, op, arg).Ok?
    ensures op != "contains" ==> ParseArgument(decode, op, arg).value == arg
  {
  }

  /** Such an expression reads as its set rule, in front of what the text after it reads as. */
  lemma FactReads(expr: string, line: string, a: string, field: string, b: string, c: string, text: string, d: string, rest: string)
    requires FactSpelled(expr, line, a, field, b, c, text, d) && '\\' !in text && '\n' !in text
    ensures LineLength(expr) == |line| < |expr|
    ensures ReadStatements(expr[|line| + 1..] + ("\n" + rest)) == Cons(Fact(field, text), ReadStatements(rest))
  {
    hide Lex, ParseStatements, White, Blank, Closed, Plain, FIELDS, ReadStatements;
    var arg := "\"" + text + "\"";
    var core := field + (" " + (b + ("contains" + (" " + (c + arg)))));
    FactTail(expr, line, a, core, d);
    WhiteIsBlank(a); WhiteIsBlank(b); WhiteIsBlank(c); WhiteIsBlank(d);
    PlainIsClosed(text);
    CoreReads(field, b, "contains", c, arg, text, d, rest);
    GapThenCore(a, core, d, rest);
  }

  lemma FactTail(expr: string, line: string, a: string, core: string, d: string)
    requires expr == line + "\n" + a + core + d && '\n' !in line
    ensures LineLength(expr) == |line| < |expr| && expr[|line| + 1..] == a + core + d
  {
    assert expr == line + "\n" + (a + core + d);
    LineLengthIs(line, a + core + d);
  }

  /** The gap in front decides with the rest. */
  lemma GapThenCore(gap: string, core: string, d: string, rest: string)
    requires Blank(gap)
    ensures ReadStatements(gap + core + d + ("\n" + rest)) == if White(gap) then Statements(Lex(core + (d + ("\n" + rest)))) else None
  {
    hide Lex, ParseStatements, White, Blank;
    ReadAfterBlanks(gap, core + (d + ("\n" + rest)));
    assert gap + core + d + ("\n" + rest) == gap + (core + (d + ("\n" + rest)));
  }

  lemma PlainIsClosed(text: string)
    requires Plain(text) && '\\' !in text && '\n' !in text
    ensures Closed("contains", "\"" + text + "\"", text)
  {
  }

  /** An accepted expression that does not end with its first line feed, but for white space: what follows that
      line feed reads as a set rule of its own, or not at all. */
  lemma TailReads(decode: Decoder, expr: string, rest: string)
    requires ParseRuntimeExpr(decode, expr).Ok? && ArrayIsJson(decode, expr) && !Contained(expr)
    ensures LineLength(expr) < |expr|
    ensures ReadStatements(expr[LineLength(expr) + 1..] + ("\n" + rest))
         == if IsFact(decode, expr) then Cons(FactOf(decode, expr), ReadStatements(rest)) else None
  {
    hide Lex, ParseStatements, Closed, IsSpace, OPERATORS, FIELDS, Breaks, ParseRuntimeExpr, ArrayIsJson, JsonText, White,
         Blank, Plain, FactSpelled, Spelled, ReadStatements, LineLength, Contained, Cons;
    LineLengthSplits(expr);
    var n := LineLength(expr);
    assert n < |expr| by { NotContainedGoesOn(expr); }
    assert expr[n] == '\n';
    var a, field, b, op, c, arg, d, text := PartsOf(decode, expr);
    if IsFact(decode, expr) {
      var line, a', b', c', d' :| FactSpelled(expr, line, a', field, b', c', text, d');
      assert '\\' !in text && '\n' !in text by { ClosedText(arg, text); }
      FactReads(expr, line, a', field, b', c', text, d', rest);
    } else {
      TailIsStuck(expr, a, field, b, op, c, arg, d, text, rest);
    }
  }

  lemma ClosedText(arg: string, text: string)
    requires Closed("contains", arg, text)
    ensures '\\' !in text && '\n' !in text
  {
  }

  lemma NotContainedGoesOn(expr: string)
    requires !Contained(expr)
    ensures LineLength(expr) < |expr|
  {
  }

  /** Where the first line feed of a text in three pieces is: in the first, in the second, or in the third. */
  lemma SplitTail(a: string, core: string, d: string, n: nat)
    requires n < |a + core + d|
    ensures n < |a| ==> (a + core + d)[n + 1..] == a[n + 1..] + core + d
    ensures |a| <= n < |a| + |core| ==> (a + core + d)[n + 1..] == core[n - |a| + 1..] + d
    ensures |a| + |core| <= n ==> (a + core + d)[n + 1..] == d[n - |a| - |core| + 1..] && (a + core + d)[n..] == d[n - |a| - |core|..]
  {
  }

  /** Without such a spelling nothing can be read. */
  lemma TailIsStuck(expr: string, a: string, field: string, b: string, op: string, c: string, arg: string, d: string, text: string, rest: string)
    requires Spelled(expr, a, field, b, op, c, arg, d) && Closed(op, arg, text)
    requires LineLength(expr) < |expr| && expr[LineLength(expr)] == '\n' && !Contained(expr)
    requires !(op == "contains" && exists line, a', b', c', d' :: FactSpelled(expr, line, a', field, b', c', text, d'))
    ensures ReadStatements(expr[LineLength(expr) + 1..] + ("\n" + rest)) == None
  {
    hide *;
    var n, core := LineLength(expr), Core(field, b, op, c, arg);
    SpelledParts(expr, a, field, b, op, c, arg, d);
    SplitTail(a, core, d, n);
    if n < |a| {
      InFrontIsStuck(expr, a, field, b, op, c, arg, d, text, n, rest);
    } else if n < |a| + |core| {
      CoreBreaks(field, b, op, c, arg, text, d + ("\n" + rest));
      InsideIsStuck(a, core, d, n, rest);
    } else {
      NotContainedAt(expr, n);
      BehindIsStuck(d, n - |a| - |core|, rest);
    }
  }

  function Core(field: string, b: string, op: string, c: string, arg: string): string {
    field + (" " + (b + (op + (" " + (c + arg)))))
  }

  lemma SpelledParts(expr: string, a: string, field: string, b: string, op: string, c: string, arg: string, d: string)
    requires Spelled(expr, a, field, b, op, c, arg, d)
    ensures expr == a + Core(field, b, op, c, arg) + d
    ensures field in FIELDS && op in OPERATORS && Blank(a) && Blank(b) && Blank(c) && Blank(d)
  {
  }

  lemma InFrontIsStuck(expr: string, a: string, field: string, b: string, op: string, c: string, arg: string, d: string, text: string,
                       n: nat, rest: string)
    requires Spelled(expr, a, field, b, op, c, arg, d) && Closed(op, arg, text)
    requires n == LineLength(expr) < |a| && n < |expr| && expr[n] == '\n'
    requires !(op == "contains" && exists line, a', b', c', d' :: FactSpelled(expr, line, a', field, b', c', text, d'))
    ensures ReadStatements(a[n + 1..] + Core(field, b, op, c, arg) + d + ("\n" + rest)) == None
  {
    hide Lex, ReadStatements, Closed, IsSpace, OPERATORS, FIELDS, White, Blank, Plain, FactSpelled, Spelled, Statements;
    SpelledParts(expr, a, field, b, op, c, arg, d);
    BlankTail(a, n + 1);
    CoreReads(field, b, op, c, arg, text, d, rest);
    GapThenCore(a[n + 1..], Core(field, b, op, c, arg), d, rest);
    if op == "contains" {
      AskFact(expr, a, field, b, c, arg, d, text, n);
    }
  }

  lemma NotContainedAt(expr: string, n: nat)
    requires n == LineLength(expr) && !Contained(expr)
    ensures n <= |expr| && !White(expr[n..])
  {
  }

  lemma InsideIsStuck(a: string, core: string, d: string, n: nat, rest: string)
    requires |a| <= n < |a| + |core| && (a + core + d)[n] == '\n' && Breaks(core, d + ("\n" + rest))
    ensures ReadStatements(core[n - |a| + 1..] + d + ("\n" + rest)) == None
  {
    hide Lex, ParseStatements;
    assert (a + core + d)[n] == core[n - |a|];
    BreaksAt(core, d + ("\n" + rest), n - |a|);
    assert core[n - |a| + 1..] + d + ("\n" + rest) == core[n - |a| + 1..] + (d + ("\n" + rest));
  }

  lemma BehindIsStuck(d: string, k: nat, rest: string)
    requires k < |d| && d[k] == '\n' && Blank(d) && !White(d[k..])
    ensures ReadStatements(d[k + 1..] + ("\n" + rest)) == None
  {
    hide Lex, ParseStatements, White, Blank;
    BlankTail(d, k + 1);
    LineFeedIsWhite(d, k);
    ReadAfterBlanks(d[k + 1..], "\n" + rest);
  }

  lemma BreaksAt(s: string, more: string, k: nat)
    requires Breaks(s, more) && k < |s| && s[k] == '\n'
    ensures Stuck(Lex(s[k + 1..] + more))
  {
  }

  lemma LineFeedIsWhite(d: string, k: nat)
    requires k < |d| && d[k] == '\n' && !White(d[k..])
    ensures !White(d[k + 1..])
  {
    var i :| 0 <= i < |d[k..]| && d[k..][i] !in {' ', '\t', '\r', '\n'};
    assert d[k + 1..][i - 1] == d[k..][i];
  }

  /** White gaps after a line feed before the field make the spelling. */
  lemma AskFact(expr: string, a: string, field: string, b: string, c: string, arg: string, d: string, text: string, n: nat)
    requires Spelled(expr, a, field, b, "contains", c, arg, d) && Closed("contains", arg, text)
    requires n == LineLength(expr) < |a| && expr[n] == '\n'
    ensures White(a[n + 1..]) && White(b) && White(c) && White(d) && Plain(text)
        ==> FactSpelled(expr, a[..n], a[n + 1..], field, b, c, text, d)
  {
    hide White, IsSpace, Plain, FIELDS;
    LineLengthSplits(expr);
    var core := field + (" " + (b + ("contains" + (" " + (c + arg)))));
    assert expr == a + core + d;
    assert expr[n] == a[n] && expr[..n] == a[..n];
    assert a == a[..n] + "\n" + a[n + 1..];
  }

  /** An expression that ends in `"` or `]` is contained exactly when it has no line feed. */
  lemma ContainedExactly(expr: string)
    requires expr != "" && expr[|expr| - 1] !in {' ', '\t', '\r', '\n'}
    ensures Contained(expr) <==> '\n' !in expr
  {
    LineLengthSplits(expr);
    var n := LineLength(expr);
    if n < |expr| {
      assert expr[n..][|expr| - 1 - n] == expr[|expr| - 1];
    } else {
      assert expr[..n] == expr;
    }
  }
}
