/** Strings as Go prints them and as Rego reads them, and the tokens of a Rego module.

`Quote` is Go's `%q`, character by character; the reader accepts the string escapes of section 7
of RFC 8259, which are the ones Rego allows.  The two disagree on a few characters, and
`ReadQuoted` says exactly which. */
module RegoLexer {
  import opened Outcomes


  // ----- Printing: Go's %q ---------------------------------------------------------------

  function HexDigit(d: nat): (c: char)
    requires d < 16
    ensures HexValue(c) == Some(d)
  {
    if d < 10 then '0' + d as char else 'a' + (d - 10) as char
  }

  /** The low two, four and eight hexadecimal digits of `n`, most significant first. */
  function Hex2(n: nat): string {
    [HexDigit(n / 16 % 16), HexDigit(n % 16)]
  }

  function Hex4(n: nat): (s: string)
    ensures |s| == 4
  {
    Hex2(n / 256) + Hex2(n % 256)
  }

  function Hex8(n: nat): string {
    Hex4(n / 0x10000) + Hex4(n % 0x10000)
  }

  /** Characters printed as themselves; `isPrint` is the Unicode table for non-ASCII characters. */
  predicate Printable(isPrint: char -> bool, c: char) {
    if c < '\U{80}' then ' ' <= c <= '~' else isPrint(c)
  }

  function QuoteChar(isPrint: char -> bool, c: char): (s: string)
    ensures s != ""
  {
    if c == '"' then "\\\""
    else if c == '\\' then "\\\\"
    else if Printable(isPrint, c) then [c]
    else if c == '\U{7}' then "\\a"
    else if c == '\U{8}' then "\\b"
    else if c == '\U{C}' then "\\f"
    else if c == '\n' then "\\n"
    else if c == '\r' then "\\r"
    else if c == '\t' then "\\t"
    else if c == '\U{B}' then "\\v"
    else if c < ' ' || c == '\U{7F}' then "\\x" + Hex2(c as int)
    else if c < '\U{10000}' then "\\u" + Hex4(c as int)
    else "\\U" + Hex8(c as int)
  }

  function QuoteBody(isPrint: char -> bool, s: string): string {
    if s == "" then "" else QuoteChar(isPrint, s[0]) + QuoteBody(isPrint, s[1..])
  }

  function Quote(isPrint: char -> bool, s: string): string {
    "\"" + QuoteBody(isPrint, s) + "\""
  }

  // ----- Reading: section 7 of RFC 8259 -----------------------------------------------------

  function HexValue(c: char): (v: Option<nat>)
    ensures v.Some? ==> v.value < 16
  {
    if '0' <= c <= '9' then Some(c as int - '0' as int)
    else if 'a' <= c <= 'f' then Some(c as int - 'a' as int + 10)
    else if 'A' <= c <= 'F' then Some(c as int - 'A' as int + 10)
    else None
  }

  /** The value of four hexadecimal digits at the front of `s`. */
  function ReadHex4(s: string): (v: Option<nat>)
    ensures v.Some? ==> |s| >= 4 && v.value < 0x10000
  {
    if |s| < 4 then None
    else
      match (HexValue(s[0]), HexValue(s[1]), HexValue(s[2]), HexValue(s[3]))
      case (Some(a), Some(b), Some(c), Some(d)) => Some(4096 * a + 256 * b + 16 * c + d)
      case _ => None
  }

  function SimpleEscape(c: char): Option<char> {
    match c
    case '"' => Some('"')
    case '\\' => Some('\\')
    case '/' => Some('/')
    case 'b' => Some('\U{8}')
    case 'f' => Some('\U{C}')
    case 'n' => Some('\n')
    case 'r' => Some('\r')
    case 't' => Some('\t')
    case _ => None
  }

  /** One string character at the front of `s`, with the number of characters it takes.  A `\u`
      escape in the surrogate range must be the first half of a pair. */
  function ReadChar(s: string): (r: Option<(char, nat)>)
    requires s != ""
    ensures r.Some? ==> 1 <= r.value.1 <= |s|
  {
    if s[0] == '"' || s[0] < ' ' then None
    else if s[0] != '\\' then Some((s[0], 1))
    else if |s| == 1 then None
    else if s[1] != 'u' then
      match SimpleEscape(s[1])
      case Some(c) => Some((c, 2))
      case None => None
    else
      match ReadHex4(s[2..])
      case None => None
      case Some(v) =>
        if v < 0xD800 || v >= 0xE000 then Some((v as char, 6))
        else if v < 0xDC00 && |s| >= 12 && s[6] == '\\' && s[7] == 'u' then
          match ReadHex4(s[8..])
          case Some(w) =>
            if 0xDC00 <= w < 0xE000
            then Some(((0x10000 + (v - 0xD800) * 0x400 + (w - 0xDC00)) as char, 12))
            else None
          case None => None
        else None
  }

  /** Reads up to the closing quote: the string and what follows it. */
  function ReadString(s: string): (r: Option<(string, string)>)
    ensures r.Some? ==> |r.value.1| < |s|
    decreases |s|
  {
    if s == "" then None
    else if s[0] == '"' then Some(("", s[1..]))
    else
      match ReadChar(s)
      case None => None
      case Some((c, n)) =>
        match ReadString(s[n..])
        case None => None
        case Some((t, rest)) => Some(([c] + t, rest))
  }

  // ----- Printing and reading agree, and where ---------------------------------------------

  /** The characters whose `%q` form is also a legal string character for the reader. */
  predicate Legible(isPrint: char -> bool, c: char) {
    || Printable(isPrint, c)
    || c in {'\U{8}', '\U{C}', '\n', '\r', '\t'}
    || '\U{80}' <= c < '\U{10000}'
  }

  predicate AllLegible(isPrint: char -> bool, s: string) {
    forall i | 0 <= i < |s| :: Legible(isPrint, s[i])
  }

  lemma ReadFourDigits(d3: nat, d2: nat, d1: nat, d0: nat, rest: string)
    requires d3 < 16 && d2 < 16 && d1 < 16 && d0 < 16
    ensures ReadHex4([HexDigit(d3), HexDigit(d2), HexDigit(d1), HexDigit(d0)] + rest)
         == Some(4096 * d3 + 256 * d2 + 16 * d1 + d0)
  {
    var s := [HexDigit(d3), HexDigit(d2), HexDigit(d1), HexDigit(d0)] + rest;
    assert s[0] == HexDigit(d3) && s[1] == HexDigit(d2) && s[2] == HexDigit(d1) && s[3] == HexDigit(d0);
  }

  lemma TwoDigits(n: nat)
    requires n < 256
    ensures 16 * (n / 16 % 16) + n % 16 == n
  {
  }

  lemma Hex4RoundTrip(n: nat, rest: string)
    requires n < 0x10000
    ensures ReadHex4(Hex4(n) + rest) == Some(n)
  {
    var hi, lo := n / 256, n % 256;
    assert hi < 256 && 256 * hi + lo == n;
    var d3, d2, d1, d0 := hi / 16 % 16, hi % 16, lo / 16 % 16, lo % 16;
    assert 4096 * d3 + 256 * d2 + 16 * d1 + d0 == n by {
      TwoDigits(hi);
      TwoDigits(lo);
    }
    assert Hex4(n) == [HexDigit(d3), HexDigit(d2), HexDigit(d1), HexDigit(d0)];
    ReadFourDigits(d3, d2, d1, d0, rest);
  }

  /** One printed character reads back as itself, in place, or cannot be read at all. */
  lemma ReadQuotedChar(isPrint: char -> bool, c: char, rest: string)
    ensures var q := QuoteChar(isPrint, c);
            && q[0] != '"'
            && ReadChar(q + rest) == if Legible(isPrint, c) then Some((c, |q|)) else None
  {
    hide Hex2, Hex4, Hex8, ReadHex4;
    var q := QuoteChar(isPrint, c);
    if Printable(isPrint, c) {
      if c == '"' || c == '\\' {
        assert (q + rest)[0] == '\\' && (q + rest)[1] == c;
      } else {
        assert (q + rest)[0] == c;
      }
    } else {
      assert (q + rest)[0] == '\\' && (q + rest)[1] == q[1];
      if '\U{80}' <= c < '\U{10000}' {
        var n := c as int;
        Hex4RoundTrip(n, rest);
        assert (q + rest)[2..] == Hex4(n) + rest;
      }
    }
  }

  /** `%q` followed by anything reads back as the string and that rest exactly when every character
      is legible; otherwise the reader rejects the whole text, whatever follows. */
  lemma {:induction false} ReadQuoted(isPrint: char -> bool, s: string, rest: string)
    ensures ReadString(QuoteBody(isPrint, s) + "\"" + rest)
         == if AllLegible(isPrint, s) then Some((s, rest)) else None
  {
    hide QuoteChar, ReadChar, Legible;
    var text := QuoteBody(isPrint, s) + "\"" + rest;
    if s == "" {
      assert text == "\"" + rest;
    } else {
      var q, tail := QuoteChar(isPrint, s[0]), QuoteBody(isPrint, s[1..]) + "\"" + rest;
      assert text == q + tail;
      ReadQuotedChar(isPrint, s[0], tail);
      ReadQuoted(isPrint, s[1..], rest);
      assert text[|q|..] == tail;
      assert s == [s[0]] + s[1..];
      assert AllLegible(isPrint, s) <==> Legible(isPrint, s[0]) && AllLegible(isPrint, s[1..]);
    }
  }

  /** A quoted string is readable exactly when it has none of the control characters that JSON has no short escape for,
      no delete character, and nothing unprintable above U+FFFF. */
  lemma ReadsBackExactly(isPrint: char -> bool, s: string, rest: string)
    ensures var unreadable := (c: char) =>
              || c < '\U{8}' || c == '\U{B}' || '\U{E}' <= c < ' ' || c == '\U{7F}' || (c >= '\U{10000}' && !isPrint(c));
            ReadString(QuoteBody(isPrint, s) + "\"" + rest)
              == if exists i :: 0 <= i < |s| && unreadable(s[i]) then None else Some((s, rest))
  {
    hide ReadString, QuoteBody;
    ReadQuoted(isPrint, s, rest);
  }

  // ----- Tokens -----------------------------------------------------------------------------

  datatype Token = Word(name: string) | Sym(c: char) | Str(text: string) | Eol

  datatype Tokens = End | Tok(head: Token, tail: Tokens)

  predicate WordStart(c: char) {
    'a' <= c <= 'z' || 'A' <= c <= 'Z' || c == '_'
  }

  predicate WordChar(c: char) {
    WordStart(c) || '0' <= c <= '9'
  }

  const SYMBOLS: set<char> := {'{', '}', '(', ')', '[', ']', ',', '.', ':', '=', '>', '0'}

  function WordLength(s: string): (n: nat)
    ensures n <= |s|
  {
    if s == "" || !WordChar(s[0]) then 0 else 1 + WordLength(s[1..])
  }

  /** Comments run up to, not including, the next line feed. */
  function LineLength(s: string): (n: nat)
    ensures n <= |s|
  {
    if s == "" || s[0] == '\n' then 0 else 1 + LineLength(s[1..])
  }

  function Prepend(t: Token, r: Option<Tokens>): Option<Tokens> {
    match r
    case None => None
    case Some(ts) => Some(Tok(t, ts))
  }

  function Lex(s: string): Option<Tokens>
    decreases |s|
  {
    if s == "" then Some(End)
    else if s[0] == '\n' then Prepend(Eol, Lex(s[1..]))
    else if s[0] in {' ', '\t', '\r'} then Lex(s[1..])
    else if s[0] == '#' then Lex(s[1 + LineLength(s[1..])..])
    else if s[0] == '"' then
      match ReadString(s[1..])
      case None => None
      case Some((t, rest)) => Prepend(Str(t), Lex(rest))
    else if WordStart(s[0]) then
      var n := WordLength(s);
      Prepend(Word(s[..n]), Lex(s[n..]))
    else if s[0] in SYMBOLS then Prepend(Sym(s[0]), Lex(s[1..]))
    else None
  }

  predicate IsWord(w: string) {
    w != "" && WordStart(w[0]) && forall i | 0 <= i < |w| :: WordChar(w[i])
  }

  /** What follows cannot be taken for more of the word before it. */
  predicate EndsWord(rest: string) {
    rest == "" || !WordChar(rest[0])
  }

  lemma {:induction false} WordLengthIs(w: string, rest: string)
    requires EndsWord(rest) && forall i | 0 <= i < |w| :: WordChar(w[i])
    ensures WordLength(w + rest) == |w|
  {
    if w == "" {
      assert w + rest == rest;
    } else {
      assert (w + rest)[1..] == w[1..] + rest;
      WordLengthIs(w[1..], rest);
    }
  }

  lemma LexWord(w: string, rest: string)
    requires IsWord(w) && EndsWord(rest)
    ensures Lex(w + rest) == Prepend(Word(w), Lex(rest))
  {
    WordLengthIs(w, rest);
    assert (w + rest)[..|w|] == w && (w + rest)[|w|..] == rest;
  }

  lemma LexGap(gap: string, rest: string)
    requires forall i | 0 <= i < |gap| :: gap[i] == ' '
    ensures Lex(gap + rest) == Lex(rest)
  {
    if gap == "" {
      assert gap + rest == rest;
    } else {
      assert (gap + rest)[1..] == gap[1..] + rest;
      LexGap(gap[1..], rest);
    }
  }

  lemma LexSym(c: char, rest: string)
    requires c in SYMBOLS
    ensures Lex([c] + rest) == Prepend(Sym(c), Lex(rest))
  {
    assert ([c] + rest)[1..] == rest;
  }

  lemma LexWordGap(w: string, rest: string)
    requires IsWord(w)
    ensures Lex(w + (" " + rest)) == Prepend(Word(w), Lex(rest))
  {
    hide Lex, WordLength;
    LexGap(" ", rest);
    LexWord(w, " " + rest);
  }

  lemma LexWordSym(w: string, c: char, rest: string)
    requires IsWord(w) && c in SYMBOLS && c != '0'
    ensures Lex(w + ([c] + rest)) == Prepend(Word(w), Prepend(Sym(c), Lex(rest)))
  {
    hide Lex, WordLength;
    LexSym(c, rest);
    LexWord(w, [c] + rest);
  }

  lemma LexSymGap(c: char, rest: string)
    requires c in SYMBOLS
    ensures Lex([c] + (" " + rest)) == Prepend(Sym(c), Lex(rest))
  {
    hide Lex, WordLength;
    LexGap(" ", rest);
    LexSym(c, " " + rest);
  }

  lemma LexEol(rest: string)
    ensures Lex("\n" + rest) == Prepend(Eol, Lex(rest))
  {
    assert ("\n" + rest)[1..] == rest;
  }

  lemma LexQuoted(isPrint: char -> bool, s: string, rest: string)
    ensures Lex(Quote(isPrint, s) + rest)
         == if AllLegible(isPrint, s) then Prepend(Str(s), Lex(rest)) else None
  {
    hide ReadString, AllLegible;
    var text := Quote(isPrint, s) + rest;
    assert text[1..] == QuoteBody(isPrint, s) + "\"" + rest;
    ReadQuoted(isPrint, s, rest);
  }

  /** Characters a string holds unescaped. */
  predicate Plain(s: string) {
    forall i | 0 <= i < |s| :: s[i] >= ' ' && s[i] != '"' && s[i] != '\\'
  }

  lemma {:induction false} ReadPlain(s: string, rest: string)
    requires Plain(s)
    ensures ReadString(s + ("\"" + rest)) == Some((s, rest))
  {
    var text := s + ("\"" + rest);
    if s == "" {
      assert text == "\"" + rest;
    } else {
      assert text[1..] == s[1..] + ("\"" + rest);
      ReadPlain(s[1..], rest);
      assert s == [s[0]] + s[1..];
    }
  }

  lemma LexPlain(s: string, rest: string)
    requires Plain(s)
    ensures Lex("\"" + (s + ("\"" + rest))) == Prepend(Str(s), Lex(rest))
  {
    hide ReadString, Plain;
    ReadPlain(s, rest);
    assert ("\"" + (s + ("\"" + rest)))[1..] == s + ("\"" + rest);
  }

  lemma {:induction false} LineLengthIs(line: string, rest: string)
    ensures '\n' !in line ==> LineLength(line + "\n" + rest) == |line|
    ensures '\n' in line ==> LineLength(line + "\n" + rest) < |line|
  {
    var text := line + "\n" + rest;
    if line == "" {
    } else {
      assert text[1..] == line[1..] + "\n" + rest;
      assert '\n' in line <==> line[0] == '\n' || '\n' in line[1..];
      LineLengthIs(line[1..], rest);
    }
  }

  /** A comment without a line feed disappears, whatever else it contains. */
  lemma LexComment(line: string, rest: string)
    requires '\n' !in line
    ensures Lex("#" + line + "\n" + rest) == Prepend(Eol, Lex(rest))
  {
    var text := "#" + line + "\n" + rest;
    assert text[1..] == line + "\n" + rest;
    LineLengthIs(line, rest);
    assert text[1 + |line|..] == "\n" + rest;
    LexEol(rest);
  }
}
