/** Runtime rules: expressions `<field> <operator> <argument>`, their parser, and the Rego text they
compile to.  JSON arrays of strings are decoded by a parameter, so every statement holds for every
decoder. */
module RuntimeDsl {
  import opened Outcomes
  import opened RegoLexer
  import opened RegoReader
  import opened PolicyDsl
  import opened Text

  datatype RuleSet = RuleSet(block: seq<string>, warn: seq<string>, log: seq<string>)

  type Decoder = string -> Option<seq<string>>

  datatype RuntimeReason =
    | EmptyExpression
    | MissingSpace
    | UnsupportedField(field: string)
    | UnsupportedOperator(op: string)
    | NotQuoted
    | NoArgument
    | DisallowedText(text: string)
    | NotArray
    | InvalidJson
    | EmptyArray

  // ----- Trimming ---------------------------------------------------------------------------

  predicate IsSpace(c: char) {
    || '\t' <= c <= '\r' || c == ' ' || c == '\U{85}' || c == '\U{A0}' || c == '\U{1680}'
    || '\U{2000}' <= c <= '\U{200A}' || c == '\U{2028}' || c == '\U{2029}' || c == '\U{202F}'
    || c == '\U{205F}' || c == '\U{3000}'
  }

  predicate Blank(s: string) {
    forall i | 0 <= i < |s| :: IsSpace(s[i])
  }

  /** No space at either end. */
  predicate Tight(s: string) {
    s != "" ==> !IsSpace(s[0]) && !IsSpace(s[|s| - 1])
  }

  function TrimLeft(s: string): string {
    if s == "" || !IsSpace(s[0]) then s else TrimLeft(s[1..])
  }

  function TrimRight(s: string): string {
    if s == "" || !IsSpace(s[|s| - 1]) then s else TrimRight(s[..|s| - 1])
  }

  function TrimSpace(s: string): string {
    TrimRight(TrimLeft(s))
  }

  lemma {:induction false} TrimLeftIs(a: string, t: string)
    requires Blank(a) && (t != "" ==> !IsSpace(t[0]))
    ensures TrimLeft(a + t) == t
  {
    if a == "" {
      assert a + t == t;
    } else {
      assert (a + t)[1..] == a[1..] + t;
      TrimLeftIs(a[1..], t);
    }
  }

  lemma {:induction false} TrimRightIs(t: string, d: string)
    requires Blank(d) && (t != "" ==> !IsSpace(t[|t| - 1]))
    ensures TrimRight(t + d) == t
  {
    if d == "" {
      assert t + d == t;
    } else {
      var s := t + d;
      assert s[|s| - 1] == d[|d| - 1];
      assert s[..|s| - 1] == t + d[..|d| - 1];
      TrimRightIs(t, d[..|d| - 1]);
    }
  }

  /** Trimming strips exactly the blanks around a tight text. */
  lemma TrimSpaceIs(a: string, t: string, d: string)
    requires Blank(a) && Blank(d) && Tight(t)
    ensures TrimSpace(a + t + d) == t
  {
    if t == "" {
      assert a + t + d == (a + d) + "";
      TrimLeftIs(a + d, "");
      assert TrimRight("") == "";
    } else {
      assert a + t + d == a + (t + d);
      TrimLeftIs(a, t + d);
      TrimRightIs(t, d);
    }
  }

  lemma {:induction false} TrimLeftSplits(s: string) returns (a: string)
    ensures Blank(a) && s == a + TrimLeft(s) && (TrimLeft(s) != "" ==> !IsSpace(TrimLeft(s)[0]))
  {
    if s == "" || !IsSpace(s[0]) {
      a := "";
    } else {
      var rest := TrimLeftSplits(s[1..]);
      a := [s[0]] + rest;
    }
  }

  lemma {:induction false} TrimRightSplits(s: string) returns (d: string)
    ensures Blank(d) && s == TrimRight(s) + d && (TrimRight(s) != "" ==> !IsSpace(TrimRight(s)[|TrimRight(s)| - 1]))
  {
    if s == "" || !IsSpace(s[|s| - 1]) {
      d := "";
    } else {
      var rest := TrimRightSplits(s[..|s| - 1]);
      d := rest + [s[|s| - 1]];
    }
  }

  lemma TrimSpaceSplits(s: string) returns (a: string, d: string)
    ensures Blank(a) && Blank(d) && Tight(TrimSpace(s)) && s == a + TrimSpace(s) + d
  {
    var l := TrimLeft(s);
    a := TrimLeftSplits(s);
    d := TrimRightSplits(l);
    hide TrimLeft, TrimRight, IsSpace;
    assert s == a + TrimSpace(s) + d;
    assert TrimSpace(s) != "" ==> TrimSpace(s)[0] == l[0];
  }

  // ----- Parsing ----------------------------------------------------------------------------

  const FIELDS: set<string> := {"destination", "tool", "resource", "method"}

  const OPERATORS: set<string> := {"contains", "any", "except"}

  function ParseArgument(decode: Decoder, op: string, arg: string): Result<string, RuntimeReason> {
    if op == "contains" then
      if |arg| < 2 || arg[0] != '"' || arg[|arg| - 1] != '"' then Err(NotQuoted)
      else
        var text := arg[1..|arg| - 1];
        if text == "" then Err(NoArgument)
        else if HasDisallowed(text) then Err(DisallowedText(text))
        else Ok(text)
    else
      if |arg| < 2 || arg[0] != '[' || arg[|arg| - 1] != ']' then Err(NotArray)
      else
        match decode(arg)
        case None => Err(InvalidJson)
        case Some(items) =>
          if items == [] then Err(EmptyArray)
          else
            match BadExcept(items)
            case Some(item) => Err(DisallowedText(item))
            case None => Ok(arg)
  }

  /** Field, operator and argument; the argument of `any` and `except` stays a JSON text. */
  function ParseRuntimeExpr(decode: Decoder, expr: string): Result<(string, string, string), RuntimeReason> {
    var trimmed := TrimSpace(expr);
    if trimmed == "" then Err(EmptyExpression)
    else
      var space := IndexOf(trimmed, ' ');
      if space < 0 then Err(MissingSpace)
      else
        var field, rest := trimmed[..space], TrimSpace(trimmed[space + 1..]);
        if field !in FIELDS then Err(UnsupportedField(field))
        else
          var space2 := IndexOf(rest, ' ');
          if space2 < 0 then Err(MissingSpace)
          else
            var op, arg := rest[..space2], TrimSpace(rest[space2 + 1..]);
            if op !in OPERATORS then Err(UnsupportedOperator(op))
            else
              match ParseArgument(decode, op, arg)
              case Err(e) => Err(e)
              case Ok(parsed) => Ok((field, op, parsed))
  }

  /** The surface syntax: three parts, each separated by a space and any further blanks. */
  predicate Spelled(expr: string, a: string, field: string, b: string, op: string, c: string, arg: string, d: string) {
    && Blank(a) && Blank(b) && Blank(c) && Blank(d)
    && field in FIELDS && op in OPERATORS && Tight(arg) && arg != ""
    && expr == a + (field + (" " + (b + (op + (" " + (c + arg)))))) + d
  }

  /** Characters of field names and operators. */
  predicate Lower(s: string) {
    forall i | 0 <= i < |s| :: 'a' <= s[i] <= 'z'
  }

  lemma NamesAreLower(s: string)
    requires s in FIELDS || s in OPERATORS
    ensures Lower(s) && s != "" && ' ' !in s && Tight(s)
  {
  }

  lemma TightPair(word: string, gap: string, tail: string)
    requires Lower(word) && word != "" && Tight(tail) && tail != ""
    ensures Tight(word + (" " + (gap + tail)))
  {
    var s := word + (" " + (gap + tail));
    assert s[0] == word[0] && s[|s| - 1] == tail[|tail| - 1];
  }

  lemma SplitFirst(word: string, gap: string, tail: string)
    requires ' ' !in word && Blank(gap) && Tight(tail)
    ensures var s := word + (" " + (gap + tail));
            && IndexOf(s, ' ') == |word|
            && s[..|word|] == word
            && TrimSpace(s[|word| + 1..]) == tail
  {
    var s := word + (" " + (gap + tail));
    IndexOfAt(word, ' ', gap + tail);
    assert s == word + " " + (gap + tail);
    assert s[|word| + 1..] == gap + tail;
    assert gap + tail == gap + tail + "";
    TrimSpaceIs(gap, tail, "");
  }

  /** Whatever is spelled this way parses into its parts. */
  lemma ParseSpelled(decode: Decoder, expr: string, a: string, field: string, b: string, op: string, c: string, arg: string, d: string)
    requires Spelled(expr, a, field, b, op, c, arg, d)
    ensures ParseRuntimeExpr(decode, expr)
         == match ParseArgument(decode, op, arg) { case Err(e) => Err(e) case Ok(p) => Ok((field, op, p)) }
  {
    hide TrimSpace, IndexOf, Blank, Tight, ParseArgument, Lower;
    NamesAreLower(field);
    NamesAreLower(op);
    var rest := op + (" " + (c + arg));
    var trimmed := field + (" " + (b + rest));
    TightPair(op, c, arg);
    TightPair(field, b, rest);
    TrimSpaceIs(a, trimmed, d);
    SplitFirst(field, b, rest);
    SplitFirst(op, c, arg);
  }

  /** And only what is spelled this way parses. */
  lemma ParsedIsSpelled(decode: Decoder, expr: string)
    returns (a: string, field: string, b: string, op: string, c: string, arg: string, d: string)
    requires ParseRuntimeExpr(decode, expr).Ok?
    ensures Spelled(expr, a, field, b, op, c, arg, d) && ParseArgument(decode, op, arg).Ok?
  {
    hide TrimSpace, Blank, Tight, IndexOf;
    var trimmed := TrimSpace(expr);
    a, d := TrimSpaceSplits(expr);
    var space := IndexOf(trimmed, ' ');
    field := trimmed[..space];
    var rest := TrimSpace(trimmed[space + 1..]);
    b := FirstWord(trimmed, space);
    var space2 := IndexOf(rest, ' ');
    op, arg := rest[..space2], TrimSpace(rest[space2 + 1..]);
    c := FirstWord(rest, space2);
  }

  /** A tight text is its first word, a blank, a gap, and the trimmed remainder. */
  lemma FirstWord(s: string, space: nat) returns (gap: string)
    requires Tight(s) && space < |s| && s[space] == ' '
    ensures Blank(gap) && s == s[..space] + (" " + (gap + TrimSpace(s[space + 1..])))
    ensures Tight(TrimSpace(s[space + 1..]))
  {
    hide TrimSpace, Blank, Tight;
    var rest, d := TrimSpace(s[space + 1..]), "";
    gap, d := TrimSpaceSplits(s[space + 1..]);
    assert s == s[..space] + (" " + (gap + rest)) + d;
    TightEnds(s[..space] + (" " + (gap + rest)), d);
  }

  /** A tight text does not end in blanks. */
  lemma TightEnds(s: string, d: string)
    requires Tight(s + d) && Blank(d)
    ensures s + d == s
  {
    if d != "" {
      LastOf(s, d);
      assert false;
    }
  }

  lemma LastOf(s: string, d: string)
    requires d != ""
    ensures |s + d| > 0 && (s + d)[|s + d| - 1] == d[|d| - 1]
  {
  }

  // ----- The text of runtime rules ----------------------------------------------------------

  /** The Rego condition of a parsed expression; the array is decoded a second time. */
  function RuntimeCondition(isPrint: char -> bool, decode: Decoder, field: string, op: string, arg: string)
    : Result<string, RuntimeReason>
  {
    var path := "input.action." + field;
    if op == "contains" then
      if '*' in arg then Ok("glob.match(" + Quote(isPrint, arg) + ", [\".\"], " + path + ")")
      else Ok("contains(" + path + ", " + Quote(isPrint, arg) + ")")
    else if op == "any" then
      match decode(arg)
      case None => Err(InvalidJson)
      case Some(items) => Ok(path + " in {" + Join(QuoteAll(isPrint, items), ", ") + "}")
    else if op == "except" then
      match decode(arg)
      case None => Err(InvalidJson)
      case Some(items) => Ok("not " + path + " in {" + Join(QuoteAll(isPrint, items), ", ") + "}")
    else Err(UnsupportedOperator(op))
  }

  /** Once an expression has parsed, its condition can be written: the second decoding cannot fail. */
  lemma SecondDecodeSucceeds(isPrint: char -> bool, decode: Decoder, expr: string)
    requires ParseRuntimeExpr(decode, expr).Ok?
    ensures var (field, op, arg) := ParseRuntimeExpr(decode, expr).value;
            RuntimeCondition(isPrint, decode, field, op, arg).Ok?
  {
    hide TrimSpace, IndexOf, Quote, Join;
  }

  datatype RuntimeError = BadExpression(section: string, index: nat, reason: RuntimeReason)

  function ExprCondition(isPrint: char -> bool, decode: Decoder, expr: string): Result<string, RuntimeReason> {
    match ParseRuntimeExpr(decode, expr)
    case Err(e) => Err(e)
    case Ok((field, op, arg)) => RuntimeCondition(isPrint, decode, field, op, arg)
  }

  /** The expression as it stands, line breaks included, in a comment. */
  function TitleLine(title: string, expr: string): string {
    "# " + title + ": " + expr + "\n"
  }

  function SetLine(name: string): string {
    name + " contains msg if {\n"
  }

  function ExprLine(isPrint: char -> bool, expr: string): string {
    "    msg := " + Quote(isPrint, expr) + "\n"
  }

  function RuntimeRuleText(isPrint: char -> bool, title: string, name: string, expr: string, condition: string): string {
    TitleLine(title, expr) + SetLine(name) + ConditionLine(condition) + ExprLine(isPrint, expr) + "}\n\n"
  }

  function PrependRuntime(t: string, r: Result<string, RuntimeError>): Result<string, RuntimeError> {
    match r
    case Ok(text) => Ok(t + text)
    case Err(e) => Err(e)
  }

  /** The rules of one section from `i` on. */
  function SectionText(isPrint: char -> bool, decode: Decoder, title: string, name: string, section: string,
                       exprs: seq<string>, i: nat): Result<string, RuntimeError>
    requires i <= |exprs|
    decreases |exprs| - i
  {
    if i == |exprs| then Ok("")
    else
      match ExprCondition(isPrint, decode, exprs[i])
      case Err(e) => Err(BadExpression(section, i, e))
      case Ok(condition) =>
        PrependRuntime(RuntimeRuleText(isPrint, title, name, exprs[i], condition),
                       SectionText(isPrint, decode, title, name, section, exprs, i + 1))
  }

  /** The text of a rule set: nothing for none, else a header and the three sections. */
  function CompileRuntimeText(isPrint: char -> bool, decode: Decoder, rules: Option<RuleSet>): Result<string, RuntimeError> {
    match rules
    case None => Ok("")
    case Some(rs) =>
      match SectionText(isPrint, decode, "Block", "deny", "block", rs.block, 0)
      case Err(e) => Err(e)
      case Ok(block) =>
        match SectionText(isPrint, decode, "Warn", "warnings", "warn", rs.warn, 0)
        case Err(e) => Err(e)
        case Ok(warn) =>
          match SectionText(isPrint, decode, "Log", "log_entries", "log", rs.log, 0)
          case Err(e) => Err(e)
          case Ok(log) => Ok(Header("runtime_policy") + block + warn + log)
  }
}
