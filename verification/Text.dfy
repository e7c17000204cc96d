/** Prefixes, suffixes, and splitting a string at a separator. */
module Text {

  predicate HasPrefix(s: string, t: string) {
    |t| <= |s| && s[..|t|] == t
  }

  predicate HasSuffix(s: string, t: string) {
    |t| <= |s| && s[|s| - |t|..] == t
  }

  /** The parts between separators; always at least one. */
  function Split(s: string, sep: char): (parts: seq<string>)
    ensures parts != []
  {
    if s == "" then [""] else SplitAt(s[0], Split(s[1..], sep), sep)
  }

  /** The parts when one more character comes in front. */
  function SplitAt(c: char, parts: seq<string>, sep: char): (r: seq<string>)
    requires parts != []
    ensures r != []
  {
    if c == sep then [""] + parts else [[c] + parts[0]] + parts[1..]
  }

  lemma SplitAtConcat(c: char, left: seq<string>, right: seq<string>, sep: char)
    requires left != []
    ensures SplitAt(c, left + right, sep) == SplitAt(c, left, sep) + right
  {
    assert (left + right)[0] == left[0] && (left + right)[1..] == left[1..] + right;
  }

  function Join(parts: seq<string>, sep: string): string {
    if parts == [] then ""
    else if |parts| == 1 then parts[0]
    else parts[0] + sep + Join(parts[1..], sep)
  }

  /** The parts are what stands between separators. */
  lemma {:induction false} PartsAreFree(s: string, sep: char)
    ensures forall i | 0 <= i < |Split(s, sep)| :: sep !in Split(s, sep)[i]
  {
    if s != "" {
      PartsAreFree(s[1..], sep);
      var rest := Split(s[1..], sep);
      var parts := SplitAt(s[0], rest, sep);
      forall i | 0 <= i < |parts|
        ensures sep !in parts[i]
      {
        if s[0] == sep {
          assert i > 0 ==> parts[i] == rest[i - 1];
        } else {
          assert i > 0 ==> parts[i] == rest[i];
        }
      }
    }
  }

  lemma FirstSep(b: string, sep: char)
    ensures Split([sep] + b, sep) == [""] + Split(b, sep)
  {
    assert ([sep] + b)[1..] == b;
  }

  lemma {:induction false} SplitConcat(a: string, b: string, sep: char)
    ensures Split(a + [sep] + b, sep) == Split(a, sep) + Split(b, sep)
  {
    hide SplitAt;
    if a == "" {
      FirstSep(b, sep);
      assert a + [sep] + b == [sep] + b;
      assert ([sep] + b)[1..] == b;
    } else {
      var s := a + [sep] + b;
      assert s[0] == a[0] && s[1..] == a[1..] + [sep] + b;
      SplitConcat(a[1..], b, sep);
      SplitAtConcat(a[0], Split(a[1..], sep), Split(b, sep), sep);
    }
  }

  lemma {:induction false} JoinSplit(s: string, sep: char)
    ensures Join(Split(s, sep), [sep]) == s
  {
    if s != "" {
      var rest := Split(s[1..], sep);
      JoinSplit(s[1..], sep);
      assert s == [s[0]] + s[1..];
      if s[0] == sep {
        assert ([""] + rest)[1..] == rest;
      } else {
        var parts := [[s[0]] + rest[0]] + rest[1..];
        assert parts[1..] == rest[1..];
      }
    }
  }

  lemma {:induction false} JoinConcat(a: seq<string>, b: seq<string>, sep: string)
    requires a != [] && b != []
    ensures Join(a + b, sep) == Join(a, sep) + sep + Join(b, sep)
  {
    if |a| == 1 {
      assert (a + b)[1..] == b;
    } else {
      assert (a + b)[1..] == a[1..] + b;
      JoinConcat(a[1..], b, sep);
    }
  }

  /** The parts of `p` are the first parts of `s`. */
  predicate PartsBegin(s: string, p: string, sep: char) {
    var all, first := Split(s, sep), Split(p, sep);
    |first| <= |all| && all[..|first|] == first
  }

  /** The parts of `p` are the last parts of `s`. */
  predicate PartsEnd(s: string, p: string, sep: char) {
    var all, last := Split(s, sep), Split(p, sep);
    |last| <= |all| && all[|all| - |last|..] == last
  }

  lemma {:induction false} PartsSplit(front: seq<string>, back: seq<string>, s: string, sep: char)
    requires front != [] && back != [] && Split(s, sep) == front + back
    ensures s == Join(front, [sep]) + [sep] + Join(back, [sep])
  {
    JoinSplit(s, sep);
    JoinConcat(front, back, [sep]);
  }

  /** Equal, or beginning with it and a separator: exactly the strings whose parts begin with its parts. */
  lemma {:induction false} PrefixIsParts(s: string, p: string, sep: char)
    ensures s == p || HasPrefix(s, p + [sep]) <==> PartsBegin(s, p, sep)
  {
    hide Split, Join;
    if HasPrefix(s, p + [sep]) {
      var rest := s[|p| + 1..];
      assert s == p + [sep] + rest;
      SplitConcat(p, rest, sep);
    }
    if PartsBegin(s, p, sep) {
      var all, first := Split(s, sep), Split(p, sep);
      JoinSplit(s, sep);
      JoinSplit(p, sep);
      var rest := all[|first|..];
      assert all == first + rest;
      if rest == [] {
        assert all == first;
      } else {
        PartsSplit(first, rest, s, sep);
      }
    }
  }

  /** Equal, or ending with a separator and it: exactly the strings whose parts end with its parts. */
  lemma {:induction false} SuffixIsParts(s: string, p: string, sep: char)
    ensures s == p || HasSuffix(s, [sep] + p) <==> PartsEnd(s, p, sep)
  {
    hide Split, Join;
    if HasSuffix(s, [sep] + p) {
      var front := s[..|s| - |p| - 1];
      assert s == front + [sep] + p;
      SplitConcat(front, p, sep);
    }
    if PartsEnd(s, p, sep) {
      var all, last := Split(s, sep), Split(p, sep);
      JoinSplit(s, sep);
      JoinSplit(p, sep);
      var front := all[..|all| - |last|];
      assert all == front + last;
      if front == [] {
        assert all == last;
      } else {
        PartsSplit(front, last, s, sep);
        SuffixOfConcat(Join(front, [sep]), p, s, sep);
      }
    }
  }

  lemma SuffixOfConcat(front: string, p: string, s: string, sep: char)
    requires s == front + [sep] + p
    ensures HasSuffix(s, [sep] + p)
  {
  }
}
