/** The ring buffer of proxy decisions, its append-only JSONL file, and the two ways to look a decision
up: in the buffer, newest first, or by reading the whole file.  The JSON encoding, the generated
identifier and the clock are parameters. */
module DecisionLog {
  import opened Outcomes

  datatype Entry = Entry(actionID: string, timestamp: int, skillID: string, direction: string,
                         destination: string, decision: string, reason: string)

  const DEFAULT_SIZE: nat := 1000
  const NO_TIME: int := 0
  /** The longest line the reader accepts is one byte shorter. */
  const LINE_LIMIT: nat := 1024 * 1024

  /** The entry as stored: a missing identifier or time is filled in. */
  function Filled(entry: Entry, id: string, now: int): Entry {
    var named := if entry.actionID == "" then entry.(actionID := id) else entry;
    if named.timestamp == NO_TIME then named.(timestamp := now) else named
  }

  lemma FilledIs(entry: Entry, id: string, now: int)
    ensures Filled(entry, id, now) == entry.(actionID := if entry.actionID == "" then id else entry.actionID,
                                             timestamp := if entry.timestamp == 0 then now else entry.timestamp)
  {
  }

  function Min(a: nat, b: nat): nat {
    if a < b then a else b
  }

  /** The last `size` entries of the history. */
  function Retained(history: seq<Entry>, size: nat): seq<Entry> {
    history[|history| - Min(|history|, size)..]
  }

  function Reverse(s: seq<Entry>): seq<Entry> {
    if s == [] then [] else [s[|s| - 1]] + Reverse(s[..|s| - 1])
  }

  /** The newest entry with the identifier. */
  function LastMatch(s: seq<Entry>, id: string): (r: Option<Entry>) {
    if s == [] then None
    else if s[|s| - 1].actionID == id then Some(s[|s| - 1])
    else LastMatch(s[..|s| - 1], id)
  }

  /** The lines appended for a history, given which writes succeeded. */
  function Lines(encode: Entry -> string, history: seq<Entry>, written: seq<bool>): seq<string>
    requires |history| == |written|
  {
    if history == [] then []
    else
      var n := |history| - 1;
      Lines(encode, history[..n], written[..n]) + if written[n] then [encode(history[n])] else []
  }

  /** Where entry number `j` of the history goes. */
  function Slot(j: nat, size: nat): (i: nat)
    requires size > 0
    ensures i < size
  {
    j % size
  }

  /** The newest entries of the history are in their places. */
  predicate IsRing(ring: seq<Entry>, history: seq<Entry>, size: nat) {
    && 0 < size == |ring|
    && forall j | |history| - Min(|history|, size) <= j < |history| :: ring[Slot(j, size)] == history[j]
  }

  lemma RingStep(ring: seq<Entry>, history: seq<Entry>, stored: Entry, size: nat)
    requires IsRing(ring, history, size)
    ensures IsRing(ring[Slot(|history|, size) := stored], history + [stored], size)
  {
    hide Slot;
    var n := |history|;
    forall j | n + 1 - Min(n + 1, size) <= j < n
      ensures Slot(j, size) != Slot(n, size)
    {
      ModApart(n, j, size);
    }
  }

  class Log {
    const entries: array<Entry>
    const size: nat
    var head: nat
    var count: nat
    var writing: bool
    var file: seq<string>
    const encode: Entry -> string
    ghost var history: seq<Entry>
    ghost var written: seq<bool>
    ghost const before: seq<string>

    /** The buffer holds the newest entries, entry number `j` of the history at `j % size`; the file holds
        what it held before and the lines written. */
    ghost predicate Valid()
      reads this, entries
    {
      && 0 < size == entries.Length
      && head == Slot(|history|, size)
      && count == Min(|history|, size)
      && IsRing(entries[..], history, size)
      && |written| == |history|
      && file == before + Lines(encode, history, written)
    }

    constructor (size: int, encode: Entry -> string, before: seq<string>, blank: Entry)
      ensures Valid() && fresh(entries)
      ensures history == [] && file == before == this.before && !writing && this.encode == encode
      ensures this.size == if size <= 0 then 1000 else size
    {
      var capacity := if size <= 0 then DEFAULT_SIZE else size;
      this.size, this.encode := capacity, encode;
      entries := new Entry[capacity](_ => blank);
      head, count, writing, file := 0, 0, false, before;
      this.history, this.written, this.before := [], [], before;
    }

    method SetFileWriter(present: bool)
      requires Valid()
      modifies `writing
      ensures Valid() && writing == present
    {
      writing := present;
    }

    /** Stores the entry over the oldest one and appends its line if there is a writer and the write succeeds. */
    method Record(entry: Entry, id: string, now: int, writes: bool)
      requires Valid()
      modifies `head, `count, `file, `history, `written, entries
      ensures Valid()
      ensures history == old(history) + [Filled(entry, id, now)]
      ensures Filled(entry, id, now) == entry.(actionID := if entry.actionID == "" then id else entry.actionID,
                                               timestamp := if entry.timestamp == 0 then now else entry.timestamp)
      ensures written == old(written) + [writing && writes]
      ensures file == old(file) + if writing && writes then [encode(Filled(entry, id, now))] else []
    {
      hide Slot, Lines, IsRing, Filled;
      FilledIs(entry, id, now);
      var stored := entry;
      if stored.actionID == "" {
        stored := stored.(actionID := id);
      }
      if stored.timestamp == NO_TIME {
        stored := stored.(timestamp := now);
      }
      ModNext(|history|, size);
      RingStep(entries[..], history, stored, size);
      entries[head] := stored;
      head := (head + 1) % size;
      if count < size {
        count := count + 1;
      }
      history, written := history + [stored], written + [writing && writes];
      LinesNext(encode, old(history), old(written), stored, writing && writes);
      if writing && writes {
        file := file + [encode(stored)];
      }
    }

    /** Stepping back from the head walks the history backwards. */
    lemma Stepping(i: nat)
      requires Valid() && i < count
      ensures 0 <= (head - 1 - i + size) % size < size
      ensures entries[(head - 1 - i + size) % size] == history[|history| - 1 - i]
    {
      ModBack(|history|, i, size);
    }

    /** The newest retained entry with the identifier. */
    method Lookup(id: string) returns (r: Option<Entry>)
      requires Valid()
      ensures r == LastMatch(Retained(history, size), id)
    {
      hide Slot, Lines, LastMatch;
      ghost var kept := Retained(history, size);
      LastMatchIs(kept, id);
      for i := 0 to count
        invariant forall k | count - i <= k < count :: kept[k].actionID != id
      {
        var idx := (head - 1 - i + size) % size;
        Stepping(i);
        if entries[idx].actionID == id {
          assert IsLast(kept, id, count - 1 - i);
          return Some(entries[idx]);
        }
      }
      return None;
    }

    /** The newest `n` retained entries, newest first. */
    method Recent(n: nat) returns (recent: seq<Entry>)
      requires Valid()
      ensures recent == Reverse(Retained(history, Min(n, Min(|history|, size))))
    {
      hide Slot, Lines, Reverse;
      var m := if n > count then count else n;
      recent := [];
      for i := 0 to m
        invariant |recent| == i
        invariant forall k | 0 <= k < i :: recent[k] == history[|history| - 1 - k]
      {
        Stepping(i);
        var idx := (head - 1 - i + size) % size;
        recent := recent + [entries[idx]];
      }
      ReverseIs(Retained(history, m), recent);
    }

    method Count() returns (n: nat)
      requires Valid()
      ensures n == Min(|history|, size)
    {
      n := count;
    }
  }

  /** Reads the whole file and reports the last line with the identifier; lines that do not decode are
      skipped, a line at the limit stops the reader. */
  method Explain(lines: seq<string>, decode: string -> Option<Entry>, id: string) returns (r: Result<Entry, bool>)
    ensures r == Explained(lines, decode, id)
  {
    var found: Option<Entry> := None;
    for i := 0 to |lines|
      invariant forall k | 0 <= k < i :: |lines[k]| < LINE_LIMIT
      invariant found == LastMatch(Decoded(lines[..i], decode), id)
    {
      if |lines[i]| >= LINE_LIMIT {
        return Err(false);
      }
      assert lines[..i + 1][..i] == lines[..i];
      DecodedNext(lines[..i + 1], decode, id);
      match decode(lines[i]) {
        case None =>
        case Some(entry) =>
          if entry.actionID == id {
            found := Some(entry);
          }
      }
    }
    assert lines[..|lines|] == lines;
    match found {
      case None => return Err(true);
      case Some(entry) => return Ok(entry);
    }
  }

  /** The error says whether the file was read through (not found) or not (unreadable). */
  function Explained(lines: seq<string>, decode: string -> Option<Entry>, id: string): Result<Entry, bool> {
    if exists k :: 0 <= k < |lines| && |lines[k]| >= LINE_LIMIT then Err(false)
    else match LastMatch(Decoded(lines, decode), id)
      case None => Err(true)
      case Some(entry) => Ok(entry)
  }

  /** The last line that decodes to an entry with the identifier. */
  predicate LastLine(lines: seq<string>, decode: string -> Option<Entry>, id: string, k: int) {
    && 0 <= k < |lines| && decode(lines[k]).Some? && decode(lines[k]).value.actionID == id
    && forall j | k < j < |lines| :: decode(lines[j]).None? || decode(lines[j]).value.actionID != id
  }

  /** A match found in the decoded file is the entry of its last line; no match means no such line. */
  lemma {:induction false} LastMatchIsLine(lines: seq<string>, decode: string -> Option<Entry>, id: string) returns (k: int)
    ensures var found := LastMatch(Decoded(lines, decode), id);
            if found.Some? then LastLine(lines, decode, id, k) && decode(lines[k]) == found
            else forall j | 0 <= j < |lines| :: decode(lines[j]).None? || decode(lines[j]).value.actionID != id
  {
    k := -1;
    if lines == [] {
      assert Decoded(lines, decode) == [];
    } else {
      var n := |lines| - 1;
      k := LastMatchIsLine(lines[..n], decode, id);
      DecodedNext(lines, decode, id);
      hide Decoded, LastMatch;
      assert forall j | 0 <= j < n :: lines[..n][j] == lines[j];
      if decode(lines[n]).Some? && decode(lines[n]).value.actionID == id {
        k := n;
      }
    }
  }

  lemma OneLastLine(lines: seq<string>, decode: string -> Option<Entry>, id: string, k: int, j: int)
    requires LastLine(lines, decode, id, k) && LastLine(lines, decode, id, j)
    ensures k == j
  {
  }

  /** What reading the file answers: unreadable exactly with a line of a megabyte or more; otherwise the entry of the
      last line with the identifier, and not found exactly when there is none. */
  lemma {:induction false} ExplainedExactly(lines: seq<string>, decode: string -> Option<Entry>, id: string)
    ensures Explained(lines, decode, id) == Err(false) <==> exists k :: 0 <= k < |lines| && |lines[k]| >= 1048576
    ensures forall e :: Explained(lines, decode, id) == Ok(e) <==>
                          && (forall k | 0 <= k < |lines| :: |lines[k]| < 1048576)
                          && exists k :: LastLine(lines, decode, id, k) && decode(lines[k]) == Some(e)
  {
    hide Decoded, LastMatch;
    var last := LastMatchIsLine(lines, decode, id);
    forall k | LastLine(lines, decode, id, k)
      ensures k == last
    {
      if LastMatch(Decoded(lines, decode), id).Some? {
        OneLastLine(lines, decode, id, k, last);
      }
    }
  }

  /** The entries of the lines that decode. */
  function Decoded(lines: seq<string>, decode: string -> Option<Entry>): seq<Entry> {
    if lines == [] then []
    else
      var n := |lines| - 1;
      Decoded(lines[..n], decode) + match decode(lines[n]) { case None => [] case Some(entry) => [entry] }
  }

  lemma DecodedNext(lines: seq<string>, decode: string -> Option<Entry>, id: string)
    requires lines != []
    ensures LastMatch(Decoded(lines, decode), id)
         == match decode(lines[|lines| - 1])
            case None => LastMatch(Decoded(lines[..|lines| - 1], decode), id)
            case Some(entry) => if entry.actionID == id then Some(entry) else LastMatch(Decoded(lines[..|lines| - 1], decode), id)
  {
    var n := |lines| - 1;
    var before := Decoded(lines[..n], decode);
    match decode(lines[n]) {
      case None =>
        assert Decoded(lines, decode) == before;
      case Some(entry) =>
        assert Decoded(lines, decode) == before + [entry];
        assert (before + [entry])[..|before|] == before;
    }
  }

  lemma LinesNext(encode: Entry -> string, history: seq<Entry>, written: seq<bool>, entry: Entry, writes: bool)
    requires |history| == |written|
    ensures Lines(encode, history + [entry], written + [writes])
         == Lines(encode, history, written) + if writes then [encode(entry)] else []
  {
    assert (history + [entry])[..|history|] == history;
    assert (written + [writes])[..|written|] == written;
  }

  // ----- Indices ---------------------------------------------------------------------------

  lemma Multiple(k: int, size: nat)
    requires k > 0
    ensures k * size >= size
  {
    assert k * size == (k - 1) * size + size;
    assert (k - 1) * size >= 0;
  }

  lemma ModUnique(q: int, x: nat, size: nat)
    requires x < size
    ensures (q * size + x) % size == x
  {
    var a := q * size + x;
    DivUnique(q, x, a / size, a % size, size);
  }

  lemma DivUnique(q: int, x: nat, d: int, r: nat, size: nat)
    requires x < size && r < size && q * size + x == d * size + r
    ensures q == d && x == r
  {
    assert (q - d) * size == q * size - d * size;
    assert (d - q) * size == d * size - q * size;
    if q > d {
      Multiple(q - d, size);
    } else if d > q {
      Multiple(d - q, size);
    }
  }

  lemma ModNext(n: nat, size: nat)
    requires size > 0
    ensures (Slot(n, size) + 1) % size == Slot(n + 1, size)
  {
    var q, x := n / size, n % size;
    assert n == q * size + x;
    if x + 1 < size {
      ModUnique(q, x + 1, size);
      ModUnique(0, x + 1, size);
    } else {
      ModUnique(q + 1, 0, size);
      ModUnique(1, 0, size);
      assert (q + 1) * size == q * size + size;
    }
  }

  /** Stepping back `i` places from the head finds the entry recorded `i` before the newest. */
  lemma ModBack(n: nat, i: nat, size: nat)
    requires i < size && i < n
    ensures (Slot(n, size) - 1 - i + size) % size == Slot(n - 1 - i, size)
  {
    var q, x := n / size, n % size;
    assert n == q * size + x;
    if x >= 1 + i {
      ModUnique(q, x - 1 - i, size);
      ModUnique(1, x - 1 - i, size);
    } else {
      ModUnique(q - 1, x - 1 - i + size, size);
      ModUnique(0, x - 1 - i + size, size);
      assert (q - 1) * size == q * size - size;
    }
  }

  lemma ModApart(n: nat, j: nat, size: nat)
    requires j < n < j + size
    ensures Slot(j, size) != Slot(n, size)
  {
    var q, x, d := j / size, j % size, n - j;
    assert j == q * size + x;
    if x + d < size {
      ModUnique(q, x + d, size);
    } else {
      assert (q + 1) * size == q * size + size;
      ModUnique(q + 1, x + d - size, size);
    }
  }

  // ----- The buffer and the file agree -----------------------------------------------------

  lemma {:induction false} LastMatchIs(s: seq<Entry>, id: string)
    ensures LastMatch(s, id) == None <==> forall k | 0 <= k < |s| :: s[k].actionID != id
    ensures forall e :: LastMatch(s, id) == Some(e) <==>
        exists k :: IsLast(s, id, k) && s[k] == e
  {
    if s != [] {
      var n := |s| - 1;
      LastMatchIs(s[..n], id);
      forall e
        ensures LastMatch(s, id) == Some(e) <==> exists k :: IsLast(s, id, k) && s[k] == e
      {
        if s[n].actionID == id {
          assert IsLast(s, id, n);
        } else {
          forall k | 0 <= k < n
            ensures IsLast(s, id, k) == IsLast(s[..n], id, k)
          {
          }
        }
      }
    }
  }

  predicate IsLast(s: seq<Entry>, id: string, k: int) {
    0 <= k < |s| && s[k].actionID == id && forall j | k < j < |s| :: s[j].actionID != id
  }

  lemma {:induction false} LastMatchConcat(a: seq<Entry>, b: seq<Entry>, id: string)
    ensures LastMatch(a + b, id) == if LastMatch(b, id).Some? then LastMatch(b, id) else LastMatch(a, id)
  {
    if b == [] {
      assert a + b == a;
    } else {
      assert (a + b)[..|a + b| - 1] == a + b[..|b| - 1];
      LastMatchConcat(a, b[..|b| - 1], id);
    }
  }

  lemma {:induction false} ReverseAt(s: seq<Entry>, k: nat)
    requires k < |s|
    ensures |Reverse(s)| == |s| && Reverse(s)[k] == s[|s| - 1 - k]
  {
    if |s| > 1 {
      ReverseAt(s[..|s| - 1], if k == 0 then 0 else k - 1);
    }
  }

  lemma {:induction false} ReverseIs(s: seq<Entry>, r: seq<Entry>)
    requires |r| == |s| && forall k | 0 <= k < |s| :: r[k] == s[|s| - 1 - k]
    ensures r == Reverse(s)
  {
    if s == [] {
      assert Reverse(s) == [];
    }
    forall k | 0 <= k < |s|
      ensures |Reverse(s)| == |s| && r[k] == Reverse(s)[k]
    {
      ReverseAt(s, k);
    }
  }

  /** Every entry's own line is one the reader accepts. */
  ghost predicate Readable(encode: Entry -> string, decode: string -> Option<Entry>, history: seq<Entry>) {
    forall i | 0 <= i < |history| :: decode(encode(history[i])) == Some(history[i]) && |encode(history[i])| < LINE_LIMIT
  }

  lemma {:induction false} DecodedConcat(a: seq<string>, b: seq<string>, decode: string -> Option<Entry>)
    ensures Decoded(a + b, decode) == Decoded(a, decode) + Decoded(b, decode)
  {
    if b == [] {
      assert a + b == a;
    } else {
      var n := |b| - 1;
      assert (a + b)[..|a + b| - 1] == a + b[..n];
      DecodedConcat(a, b[..n], decode);
    }
  }

  /** When every write succeeds, the lines of a history decode to that history. */
  lemma {:induction false} LinesDecode(encode: Entry -> string, decode: string -> Option<Entry>, history: seq<Entry>, written: seq<bool>)
    requires Readable(encode, decode, history) && |written| == |history|
    requires forall i | 0 <= i < |written| :: written[i]
    ensures Decoded(Lines(encode, history, written), decode) == history
    ensures forall k | 0 <= k < |Lines(encode, history, written)| :: |Lines(encode, history, written)[k]| < LINE_LIMIT
  {
    if history != [] {
      var n := |history| - 1;
      LinesDecode(encode, decode, history[..n], written[..n]);
      var lines := Lines(encode, history[..n], written[..n]);
      assert (lines + [encode(history[n])])[..|lines|] == lines;
      assert history == history[..n] + [history[n]];
    }
  }

  /** With every write successful, whatever the buffer still finds is what reading the complete file finds,
      whatever readable lines the file held before; what the buffer no longer finds, the file has from an
      overwritten entry or from before, or not at all. */
  lemma {:induction false} LookupAgreesWithFile(encode: Entry -> string, decode: string -> Option<Entry>, before: seq<string>,
      history: seq<Entry>, written: seq<bool>, size: nat, id: string)
    requires Readable(encode, decode, history) && |written| == |history|
    requires forall i | 0 <= i < |written| :: written[i]
    requires forall k | 0 <= k < |before| :: |before[k]| < LINE_LIMIT
    ensures var found := LastMatch(Retained(history, size), id);
            var read := Explained(before + Lines(encode, history, written), decode, id);
            && (found.Some? ==> read == Ok(found.value))
            && (found.None? ==> read == match LastMatch(Decoded(before, decode) + Overwritten(history, size), id)
                                        case None => Err(true)
                                        case Some(e) => Ok(e))
  {
    var lines := Lines(encode, history, written);
    LinesDecode(encode, decode, history, written);
    DecodedConcat(before, lines, decode);
    assert forall k | 0 <= k < |before + lines| :: |(before + lines)[k]| < LINE_LIMIT;
    var lost, kept := Overwritten(history, size), Retained(history, size);
    assert Decoded(before, decode) + history == Decoded(before, decode) + lost + kept;
    LastMatchConcat(Decoded(before, decode) + lost, kept, id);
  }

  function Overwritten(history: seq<Entry>, size: nat): seq<Entry> {
    history[..|history| - Min(|history|, size)]
  }
}
