/** Matching a hostname against the malicious domains, and a hash against the compromised artifacts.
The lower-casing of one character is a parameter that maps dots, and only dots, to dots. */
module DomainMatch {
  import opened Outcomes
  import opened Text

  datatype DomainEntry = DomainEntry(domain: string, description: string, severity: string)
  datatype HashEntry = HashEntry(sha256: string, description: string, severity: string)

  predicate KeepsDots(lower: char -> char) {
    forall c :: lower(c) == '.' <==> c == '.'
  }

  function ToLower(s: string, lower: char -> char): (r: string)
    ensures |r| == |s|
  {
    if s == "" then "" else [lower(s[0])] + ToLower(s[1..], lower)
  }

  function LowerAll(parts: seq<string>, lower: char -> char): (r: seq<string>)
    ensures |r| == |parts|
  {
    if parts == [] then [] else [ToLower(parts[0], lower)] + LowerAll(parts[1..], lower)
  }

  /** Without one trailing dot. */
  function Trimmed(s: string): string {
    if s != "" && s[|s| - 1] == '.' then s[..|s| - 1] else s
  }

  /** The labels of the domain, in lower case, are the last labels of the host, in lower case. */
  predicate LabelsMatch(domain: string, host: string, lower: char -> char) {
    var all, last := LowerAll(Split(Trimmed(host), '.'), lower), LowerAll(Split(domain, '.'), lower);
    |last| <= |all| && all[|all| - |last|..] == last
  }

  class Database {
    var entries: map<string, HashEntry>
    var domainEntries: seq<DomainEntry>
    const lower: char -> char
    ghost var added: seq<HashEntry>

    ghost predicate Valid()
      reads this
    {
      && KeepsDots(lower)
      && forall key :: (key in entries ==> Newest(added, key, lower) == Some(entries[key])) &&
                       (key !in entries ==> Newest(added, key, lower) == None)
    }

    constructor (lower: char -> char)
      requires KeepsDots(lower)
      ensures Valid() && added == [] && domainEntries == [] && this.lower == lower
    {
      entries, domainEntries, this.lower, added := map[], [], lower, [];
    }

    method AddEntry(e: HashEntry)
      requires Valid()
      modifies `entries, `added
      ensures Valid() && added == old(added) + [e]
    {
      entries := entries[ToLower(e.sha256, lower) := e];
      added := added + [e];
      assert added[..|added| - 1] == old(added);
    }

    method AddDomainEntry(e: DomainEntry)
      requires Valid()
      modifies `domainEntries
      ensures Valid() && domainEntries == old(domainEntries) + [e]
    {
      domainEntries := domainEntries + [e];
    }

    /** The first entry whose labels are the last labels of the host, and none exactly when there is none. */
    method MatchDomain(hostname: string) returns (r: Option<DomainEntry>)
      requires Valid()
      ensures r.None? <==> forall i | 0 <= i < |domainEntries| :: !LabelsMatch(domainEntries[i].domain, hostname, lower)
      ensures r.Some? ==> exists i :: IsFirst(domainEntries, hostname, lower, i) && domainEntries[i] == r.value
    {
      hide LabelsMatch, ToLower, HasSuffix;
      var host := ToLower(Trimmed(hostname), lower);
      for i := 0 to |domainEntries|
        invariant forall j | 0 <= j < i :: !LabelsMatch(domainEntries[j].domain, hostname, lower)
      {
        var domain := ToLower(domainEntries[i].domain, lower);
        SuffixIsLabels(domainEntries[i].domain, hostname, lower);
        if host == domain || HasSuffix(host, "." + domain) {
          assert IsFirst(domainEntries, hostname, lower, i);
          return Some(domainEntries[i]);
        }
      }
      return None;
    }

    /** The entry added last for the hash, in whatever case. */
    method Match(sha256: string) returns (r: Option<HashEntry>)
      requires Valid()
      ensures r == Newest(added, ToLower(sha256, lower), lower)
    {
      var key := ToLower(sha256, lower);
      if key !in entries {
        return None;
      }
      return Some(entries[key]);
    }
  }

  predicate IsFirst(entries: seq<DomainEntry>, host: string, lower: char -> char, i: int) {
    && 0 <= i < |entries| && LabelsMatch(entries[i].domain, host, lower)
    && forall j | 0 <= j < i :: !LabelsMatch(entries[j].domain, host, lower)
  }

  function Newest(added: seq<HashEntry>, key: string, lower: char -> char): Option<HashEntry> {
    if added == [] then None
    else if ToLower(added[|added| - 1].sha256, lower) == key then Some(added[|added| - 1])
    else Newest(added[..|added| - 1], key, lower)
  }

  /** Lower-casing and splitting commute. */
  lemma {:induction false} SplitLower(s: string, lower: char -> char)
    requires KeepsDots(lower)
    ensures Split(ToLower(s, lower), '.') == LowerAll(Split(s, '.'), lower)
  {
    if s != "" {
      SplitLower(s[1..], lower);
      var t, rest := ToLower(s, lower), Split(s[1..], '.');
      assert t[0] == lower(s[0]) && t[1..] == ToLower(s[1..], lower);
      if s[0] == '.' {
        assert ([""] + rest)[1..] == rest;
      } else {
        var first := [s[0]] + rest[0];
        assert first[1..] == rest[0];
        assert Split(s, '.')[1..] == rest[1..];
      }
    }
  }

  /** The code's test, equality or a suffix after a dot, is the comparison of labels. */
  lemma {:induction false} SuffixIsLabels(domain: string, hostname: string, lower: char -> char)
    requires KeepsDots(lower)
    ensures var host, d := ToLower(Trimmed(hostname), lower), ToLower(domain, lower);
            host == d || HasSuffix(host, "." + d) <==> LabelsMatch(domain, hostname, lower)
  {
    SplitLower(Trimmed(hostname), lower);
    SplitLower(domain, lower);
    SuffixIsParts(ToLower(Trimmed(hostname), lower), ToLower(domain, lower), '.');
  }

  // ----- In terms of characters ---------------------------------------------------------------

  lemma {:induction false} LowerIs(s: string, lower: char -> char)
    ensures forall i | 0 <= i < |s| :: ToLower(s, lower)[i] == lower(s[i])
  {
    if s != "" {
      LowerIs(s[1..], lower);
      assert forall i | 0 < i < |s| :: ToLower(s, lower)[i] == ToLower(s[1..], lower)[i - 1];
    }
  }

  /** Without one dot at its end, if it has one, the host is the domain or ends with a dot and the domain, but for
      case. */
  lemma {:induction false} LabelsMatchExactly(domain: string, host: string, lower: char -> char)
    requires KeepsDots(lower)
    ensures var h := if |host| > 0 && host[|host| - 1] == '.' then host[..|host| - 1] else host;
            LabelsMatch(domain, host, lower) <==>
              && |domain| <= |h|
              && (forall i | 0 <= i < |domain| :: lower(h[|h| - |domain| + i]) == lower(domain[i]))
              && (|domain| < |h| ==> h[|h| - |domain| - 1] == '.')
  {
    hide LabelsMatch, ToLower, HasSuffix;
    var h := Trimmed(host);
    SuffixIsLabels(domain, host, lower);
    SuffixCharacters(ToLower(h, lower), ToLower(domain, lower));
    SuffixOfLower(h, domain, lower);
  }

  lemma SuffixOfLower(h: string, domain: string, lower: char -> char)
    requires KeepsDots(lower)
    ensures EndsWith(ToLower(h, lower), ToLower(domain, lower)) <==>
              && |domain| <= |h|
              && (forall i | 0 <= i < |domain| :: lower(h[|h| - |domain| + i]) == lower(domain[i]))
              && (|domain| < |h| ==> h[|h| - |domain| - 1] == '.')
  {
    hide ToLower;
    LowerIs(h, lower);
    LowerIs(domain, lower);
    var s, d := ToLower(h, lower), ToLower(domain, lower);
    if |domain| <= |h| {
      assert forall i | 0 <= i < |domain| :: s[|s| - |d| + i] == lower(h[|h| - |domain| + i]) && d[i] == lower(domain[i]);
      if |domain| < |h| {
        assert s[|s| - |d| - 1] == lower(h[|h| - |domain| - 1]);
      }
    }
  }

  /** The string has the other at its end, and a dot before that if it is longer. */
  predicate EndsWith(s: string, d: string) {
    && |d| <= |s| && (forall i | 0 <= i < |d| :: s[|s| - |d| + i] == d[i]) && (|d| < |s| ==> s[|s| - |d| - 1] == '.')
  }

  lemma SuffixCharacters(s: string, d: string)
    ensures s == d || HasSuffix(s, "." + d) <==> EndsWith(s, d)
  {
    if |d| < |s| {
      var tail := s[|s| - |d| - 1..];
      assert forall i | 0 <= i < |d| :: tail[i + 1] == s[|s| - |d| + i] && ("." + d)[i + 1] == d[i];
      assert forall i | 0 < i <= |d| :: tail[i] == s[|s| - |d| + (i - 1)] && ("." + d)[i] == d[i - 1];
      if (forall i | 0 <= i < |d| :: s[|s| - |d| + i] == d[i]) && s[|s| - |d| - 1] == '.' {
        assert tail == "." + d;
      }
    } else if |d| == |s| {
      assert forall i | 0 <= i < |d| :: s[|s| - |d| + i] == s[i];
    }
  }

  /** The entry found for a hash is the last one added whose hash is the same but for case. */
  lemma {:induction false} NewestIs(added: seq<HashEntry>, key: string, lower: char -> char)
    ensures Newest(added, key, lower) == None <==> forall i | 0 <= i < |added| :: ToLower(added[i].sha256, lower) != key
    ensures Newest(added, key, lower).Some? ==> exists i :: IsNewest(added, key, lower, i) && Newest(added, key, lower) == Some(added[i])
  {
    if added != [] {
      var n := |added| - 1;
      NewestIs(added[..n], key, lower);
      if ToLower(added[n].sha256, lower) == key {
        assert IsNewest(added, key, lower, n);
      } else if Newest(added, key, lower).Some? {
        var i :| IsNewest(added[..n], key, lower, i) && Newest(added[..n], key, lower) == Some(added[..n][i]);
        assert IsNewest(added, key, lower, i);
      }
    }
  }

  predicate IsNewest(added: seq<HashEntry>, key: string, lower: char -> char, i: int) {
    && 0 <= i < |added| && ToLower(added[i].sha256, lower) == key
    && forall j | i < j < |added| :: ToLower(added[j].sha256, lower) != key
  }
}
