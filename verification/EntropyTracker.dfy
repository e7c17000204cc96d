/** Cumulative entropy per destination: a table of at most `maxSessions` sliding windows with
least-recently-seen eviction.  The entropy of a body and the clock are parameters of a scan. */
module EntropyTracker {
  /** One scan of a request: its destination, the entropy and the length of its body, and the time. */
  datatype Scan = Scan(host: string, entropy: real, bytes: nat, time: int)

  datatype Session = Session(window: seq<real>, totalBytes: nat, lastSeen: int)

  type Table = map<string, Session>

  const MIN_SAMPLES: nat := 10
  const THRESHOLD: real := 5.0

  function LastOf<T>(s: seq<T>, n: nat): seq<T> {
    if |s| <= n then s else s[|s| - n..]
  }

  function Sum(s: seq<real>): real {
    if s == [] then 0.0 else Sum(s[..|s| - 1]) + s[|s| - 1]
  }

  function Average(s: seq<real>): real {
    if s == [] then 0.0 else Sum(s) / |s| as real
  }

  /** The samples added up from the first on. */
  function Total(s: seq<real>): real {
    if s == [] then 0.0 else s[0] + Total(s[1..])
  }

  lemma {:induction false} TotalSnoc(s: seq<real>, x: real)
    ensures Total(s + [x]) == Total(s) + x
  {
    if s == [] {
      assert s + [x] == [x] && [x][1..] == [];
    } else {
      assert (s + [x])[1..] == s[1..] + [x];
      TotalSnoc(s[1..], x);
    }
  }

  lemma {:induction false} TotalIsSum(s: seq<real>)
    ensures Total(s) == Sum(s)
  {
    if s != [] {
      TotalIsSum(s[..|s| - 1]);
      TotalSnoc(s[..|s| - 1], s[|s| - 1]);
      assert s == s[..|s| - 1] + [s[|s| - 1]];
    }
  }

  lemma Scaled(sum: real, n: int)
    requires n > 0
    ensures sum / n as real > 5.0 <==> sum > 5.0 * n as real
  {
    var d := sum / n as real;
    assert sum == d * n as real;
    assert (d - 5.0) * n as real == d * n as real - 5.0 * n as real;
    assert (5.0 - d) * n as real == 5.0 * n as real - d * n as real;
    if d > 5.0 {
      Grows(d - 5.0, n as real);
    } else {
      NotNegative(5.0 - d, n as real);
    }
  }

  lemma Grows(a: real, b: real)
    requires a > 0.0 && b > 0.0
    ensures a * b > 0.0
  {
  }

  lemma NotNegative(a: real, b: real)
    requires a >= 0.0 && b > 0.0
    ensures a * b >= 0.0
  {
  }

  /** The alarm in numbers: at least ten samples, and more than five for each on the whole. */
  lemma AlarmIs(window: seq<real>)
    ensures Alarm(window) <==> |window| >= 10 && Total(window) > 5.0 * |window| as real
  {
    TotalIsSum(window);
    if |window| >= 10 {
      Scaled(Sum(window), |window|);
    }
  }

  predicate Alarm(window: seq<real>) {
    |window| >= MIN_SAMPLES && Average(window) > THRESHOLD
  }

  /** The key seen longest ago. */
  predicate IsOldest(t: Table, key: string) {
    key in t && forall k | k in t :: t[key].lastSeen <= t[k].lastSeen
  }

  class Tracker {
    var sessions: Table
    const windowSize: nat
    const maxSessions: nat

    constructor (windowSize: nat, maxSessions: nat)
      requires windowSize >= 1 && maxSessions >= 1
      ensures sessions == map[] && this.windowSize == windowSize && this.maxSessions == maxSessions
    {
      sessions := map[];
      this.windowSize, this.maxSessions := windowSize, maxSessions;
    }

    constructor Standard()
      ensures sessions == map[] && windowSize == 50 && maxSessions == 100
    {
      sessions := map[];
      windowSize, maxSessions := 50, 100;
    }

    /** Drops a session seen longest ago; the empty key doubles as "none found" and is never dropped. */
    method EvictOldest()
      modifies `sessions
      ensures old(sessions) == map[] ==> sessions == map[]
      ensures old(sessions) != map[] ==>
                exists key :: IsOldest(old(sessions), key)
                              && sessions == if key == "" then old(sessions) else old(sessions) - {key}
    {
      var oldest, time, first := "", 0, true;
      var todo := sessions.Keys;
      while todo != {}
        invariant todo <= sessions.Keys
        invariant first <==> todo == sessions.Keys
        invariant first ==> oldest == ""
        invariant !first ==> oldest in sessions && oldest !in todo && sessions[oldest].lastSeen == time
        invariant !first ==> forall k | k in sessions && k !in todo :: time <= sessions[k].lastSeen
        decreases |todo|
      {
        var k :| k in todo;
        todo := todo - {k};
        if first || sessions[k].lastSeen < time {
          oldest, time, first := k, sessions[k].lastSeen, false;
        }
      }
      if oldest != "" {
        sessions := sessions - {oldest};
      }
      assert !first ==> IsOldest(old(sessions), oldest);
      assert first ==> old(sessions).Keys == {};
    }

    /** Records one body and says whether to raise a finding; an empty body is ignored. */
    method Record(scan: Scan) returns (finding: bool)
      modifies `sessions
      ensures scan.bytes == 0 ==> sessions == old(sessions) && !finding
      ensures scan.bytes > 0 ==> StepsTo(maxSessions, windowSize, old(sessions), scan, sessions)
      ensures scan.bytes > 0 ==> scan.host in sessions
      ensures scan.bytes > 0 ==>
                var window := sessions[scan.host].window;
                finding <==> |window| >= 10 && Total(window) > 5.0 * |window| as real
    {
      if scan.bytes == 0 {
        return false;
      }
      ghost var evicted := sessions;
      if scan.host !in sessions && |sessions| >= maxSessions {
        EvictOldest();
        evicted := sessions;
      }
      var state := if scan.host in sessions then sessions[scan.host] else Session([], 0, 0);
      var window := state.window + [scan.entropy];
      if |window| > windowSize {
        window := window[|window| - windowSize..];
      }
      sessions := sessions[scan.host := Session(window, state.totalBytes + scan.bytes, scan.time)];
      finding := false;
      AlarmIs(window);
      if |window| >= MIN_SAMPLES {
        var average := AverageEntropy(window);
        if average > THRESHOLD {
          finding := true;
        }
      }
      assert Steps(maxSessions, windowSize, old(sessions), scan, evicted, sessions);
    }

    method Reset()
      modifies `sessions
      ensures sessions == map[]
    {
      sessions := map[];
    }
  }

  method AverageEntropy(window: seq<real>) returns (average: real)
    ensures average == Average(window)
  {
    if window == [] {
      return 0.0;
    }
    var sum := 0.0;
    for i := 0 to |window|
      invariant sum == Sum(window[..i])
    {
      assert window[..i + 1][..i] == window[..i];
      sum := sum + window[i];
    }
    assert window[..|window|] == window;
    average := sum / |window| as real;
  }

  /** One scan takes the table from `before` through `evicted` to `after`. */
  predicate Steps(maxSessions: nat, windowSize: nat, before: Table, scan: Scan, evicted: Table, after: Table) {
    && Evicts(maxSessions, before, scan.host, evicted)
    && var state := if scan.host in evicted then evicted[scan.host] else Session([], 0, 0);
       after == evicted[scan.host := Session(LastOf(state.window + [scan.entropy], windowSize),
                                             state.totalBytes + scan.bytes, scan.time)]
  }

  ghost predicate StepsTo(maxSessions: nat, windowSize: nat, before: Table, scan: Scan, after: Table) {
    exists evicted :: Steps(maxSessions, windowSize, before, scan, evicted, after)
  }

  /** What eviction leaves: one of the oldest sessions goes when a new host finds the table full, except
      that a session with the empty host never goes. */
  predicate Evicts(maxSessions: nat, before: Table, host: string, evicted: Table) {
    if host in before || |before| < maxSessions || before == map[] then evicted == before
    else exists key | key in before :: IsOldest(before, key) && evicted == if key == "" then before else before - {key}
  }

  // ----- The table as a function of the whole history ---------------------------------------

  /** Distinct hosts, most recently scanned first. */
  function Recency(history: seq<Scan>): seq<string> {
    if history == [] then []
    else
      var n := |history| - 1;
      [history[n].host] + Remove(Recency(history[..n]), history[n].host)
  }

  function Remove(s: seq<string>, x: string): seq<string> {
    if s == [] then [] else (if s[0] == x then [] else [s[0]]) + Remove(s[1..], x)
  }

  /** The at most `max` distinct hosts scanned most recently. */
  function Tracked(history: seq<Scan>, max: nat): seq<string> {
    Take(Recency(history), max)
  }

  function Take(s: seq<string>, n: nat): seq<string> {
    if |s| <= n then s else s[..n]
  }

  /** The entropies of a host's scans since it was last admitted: going back through its scans as long as
      it was still tracked just before. */
  function Streak(history: seq<Scan>, max: nat, host: string): seq<real> {
    if history == [] then []
    else
      var n := |history| - 1;
      var before := history[..n];
      if history[n].host != host then Streak(before, max, host)
      else if host in Tracked(before, max) then Streak(before, max, host) + [history[n].entropy]
      else [history[n].entropy]
  }

  function Volume(history: seq<Scan>, max: nat, host: string): nat {
    if history == [] then 0
    else
      var n := |history| - 1;
      var before := history[..n];
      if history[n].host != host then Volume(before, max, host)
      else if host in Tracked(before, max) then Volume(before, max, host) + history[n].bytes
      else history[n].bytes
  }

  /** When the host was last scanned; meaningful for a host in `Recency(history)`. */
  function LastTime(history: seq<Scan>, host: string): int {
    if history == [] then 0
    else
      var n := |history| - 1;
      if history[n].host == host then history[n].time else LastTime(history[..n], host)
  }

  /** The clock strictly increases. */
  predicate Ticks(history: seq<Scan>) {
    forall i, j | 0 <= i < j < |history| :: history[i].time < history[j].time
  }

  predicate NamedHosts(history: seq<Scan>) {
    forall i | 0 <= i < |history| :: history[i].host != ""
  }

  /** The tables of a run of scans of non-empty bodies; `tables[i]` is the table after the first `i`. */
  ghost predicate Run(maxSessions: nat, windowSize: nat, history: seq<Scan>, tables: seq<Table>) {
    && |tables| == |history| + 1 && tables[0] == map[]
    && forall i | 0 <= i < |history| :: StepsTo(maxSessions, windowSize, tables[i], history[i], tables[i + 1])
  }

  /** The table is what the history says: the tracked hosts, each with the last samples since its admission. */
  predicate Refines(t: Table, history: seq<Scan>, max: nat, windowSize: nat) {
    && (forall h | h in t :: h in Tracked(history, max))
    && (forall h | h in Tracked(history, max) ::
          h in t && t[h] == Session(LastOf(Streak(history, max, h), windowSize),
                                    Volume(history, max, h), LastTime(history, h)))
  }

  predicate Distinct(s: seq<string>) {
    forall i, j | 0 <= i < j < |s| :: s[i] != s[j]
  }

  lemma {:induction false} RemoveMembers(s: seq<string>, x: string)
    ensures forall h :: h in Remove(s, x) <==> h in s && h != x
  {
    if s != [] {
      RemoveMembers(s[1..], x);
      assert s == [s[0]] + s[1..];
    }
  }

  lemma {:induction false} RemoveDistinct(s: seq<string>, x: string)
    requires Distinct(s)
    ensures Distinct(Remove(s, x))
    ensures |Remove(s, x)| == if x in s then |s| - 1 else |s|
  {
    if s != [] {
      assert s == [s[0]] + s[1..];
      RemoveDistinct(s[1..], x);
      RemoveMembers(s[1..], x);
      var rest := Remove(s[1..], x);
      assert s[0] !in s[1..];
      assert forall k | 0 <= k < |rest| :: rest[k] in rest;
    }
  }

  lemma {:induction false} RemoveAbsent(s: seq<string>, x: string)
    requires x !in s
    ensures Remove(s, x) == s
  {
    if s != [] {
      assert s == [s[0]] + s[1..];
      RemoveAbsent(s[1..], x);
    }
  }

  lemma {:induction false} RemoveConcat(s: seq<string>, r: seq<string>, x: string)
    ensures Remove(s + r, x) == Remove(s, x) + Remove(r, x)
  {
    if s == [] {
      assert s + r == r;
    } else {
      assert (s + r)[1..] == s[1..] + r;
      RemoveConcat(s[1..], r, x);
    }
  }

  lemma {:induction false} RecencyDistinct(history: seq<Scan>)
    ensures Distinct(Recency(history))
  {
    if history != [] {
      var n := |history| - 1;
      var q, x := Recency(history[..n]), history[n].host;
      RecencyDistinct(history[..n]);
      RemoveDistinct(q, x);
      RemoveMembers(q, x);
      assert forall k | 0 <= k < |Remove(q, x)| :: Remove(q, x)[k] in Remove(q, x);
    }
  }

  /** Recency lists exactly the hosts scanned. */
  lemma {:induction false} RecencyIsHosts(history: seq<Scan>, host: string)
    ensures host in Recency(history) <==> exists i :: 0 <= i < |history| && history[i].host == host
  {
    if host in Recency(history) {
      LastTimeIsScan(history, host);
    }
    if i :| 0 <= i < |history| && history[i].host == host {
      ScannedIsRecent(history, i);
    }
  }

  lemma {:induction false} ScannedIsRecent(history: seq<Scan>, i: nat)
    requires i < |history|
    ensures history[i].host in Recency(history)
  {
    var n := |history| - 1;
    if i < n {
      ScannedIsRecent(history[..n], i);
      RemoveMembers(Recency(history[..n]), history[n].host);
    }
  }

  lemma {:induction false} LastTimeIsScan(history: seq<Scan>, host: string)
    requires host in Recency(history)
    ensures exists i :: 0 <= i < |history| && history[i].host == host && history[i].time == LastTime(history, host)
  {
    var n := |history| - 1;
    if history[n].host != host {
      RemoveMembers(Recency(history[..n]), history[n].host);
      LastTimeIsScan(history[..n], host);
      var j :| 0 <= j < n && history[..n][j].host == host && history[..n][j].time == LastTime(history[..n], host);
      assert history[j].host == host;
    }
  }

  /** Recency is the order of last times: later in the list is strictly longer ago. */
  lemma {:induction false} RecencyByTime(history: seq<Scan>, i: nat, j: nat)
    requires Ticks(history) && i < j < |Recency(history)|
    ensures LastTime(history, Recency(history)[j]) < LastTime(history, Recency(history)[i])
  {
    hide Recency, LastTime, Remove;
    RecencyAt(history, j);
    var n := |history| - 1;
    var before, q, x := history[..n], Recency(history[..n]), history[n].host;
    var rest := Remove(q, x);
    if i == 0 {
      LastTimeIsScan(before, rest[j - 1]);
      RecencyFirst(history);
    } else {
      RecencyAt(history, i);
      RemoveKeepsOrder(q, x, i - 1, j - 1);
      var a, b :| 0 <= a < b < |q| && q[a] == rest[i - 1] && q[b] == rest[j - 1];
      assert Ticks(before);
      RecencyByTime(before, a, b);
    }
  }

  lemma RecencyFirst(history: seq<Scan>)
    requires history != []
    ensures Recency(history) != [] && LastTime(history, Recency(history)[0]) == history[|history| - 1].time
  {
  }

  /** After the host scanned last come the others, last scanned when they were before. */
  lemma RecencyAt(history: seq<Scan>, i: nat)
    requires 0 < i < |Recency(history)|
    ensures history != []
    ensures var before, x := history[..|history| - 1], history[|history| - 1].host;
            && i - 1 < |Remove(Recency(before), x)| && Recency(history)[i] == Remove(Recency(before), x)[i - 1]
            && Recency(history)[i] in Recency(before)
            && LastTime(history, Recency(history)[i]) == LastTime(before, Recency(history)[i])
  {
    var before, x := history[..|history| - 1], history[|history| - 1].host;
    var rest := Remove(Recency(before), x);
    RemoveMembers(Recency(before), x);
    hide Remove;
    assert Recency(history) == [x] + rest;
    assert rest[i - 1] in rest;
  }

  lemma {:induction false} RemoveKeepsOrder(s: seq<string>, x: string, i: nat, j: nat)
    requires i < j < |Remove(s, x)|
    ensures exists a, b :: 0 <= a < b < |s| && s[a] == Remove(s, x)[i] && s[b] == Remove(s, x)[j]
  {
    var rest := Remove(s[1..], x);
    if s[0] != x && i == 0 {
      assert rest[j - 1] in rest;
      RemoveMembers(s[1..], x);
      var b :| 0 <= b < |s[1..]| && s[1..][b] == rest[j - 1];
      assert s[0] == Remove(s, x)[0] && s[b + 1] == Remove(s, x)[j];
    } else {
      var d := if s[0] == x then 0 else 1;
      RemoveKeepsOrder(s[1..], x, i - d, j - d);
      var a, b :| 0 <= a < b < |s[1..]| && s[1..][a] == rest[i - d] && s[1..][b] == rest[j - d];
      assert s[a + 1] == Remove(s, x)[i] && s[b + 1] == Remove(s, x)[j];
    }
  }

  /** As many keys as tracked hosts. */
  lemma {:induction false} KeysCount(keys: set<string>, s: seq<string>)
    requires Distinct(s) && forall h :: h in keys <==> h in s
    ensures |keys| == |s|
  {
    if s == [] {
      assert keys == {};
    } else {
      var n := |s| - 1;
      assert s == s[..n] + [s[n]];
      KeysCount(keys - {s[n]}, s[..n]);
    }
  }

  /** Moving an element to the front of a list cut at `max`. */
  lemma {:induction false} TakeMoved(r: seq<string>, x: string, max: nat)
    requires Distinct(r) && max >= 1
    ensures x in Take(r, max) ==> Take([x] + Remove(r, x), max) == [x] + Remove(Take(r, max), x)
    ensures x !in Take(r, max) ==> Take([x] + Remove(r, x), max) == [x] + Take(r, max - 1)
  {
    var front := Take(r, max);
    var back := r[|front|..];
    assert r == front + back;
    RemoveConcat(front, back, x);
    RemoveDistinct(front, x);
    if x in front {
      assert x !in back;
      RemoveAbsent(back, x);
      MovedWithin(front, back, x, max);
    } else {
      RemoveAbsent(front, x);
      if back != [] {
        assert ([x] + front + Remove(back, x))[..max] == [x] + front[..max - 1];
      }
    }
  }

  lemma {:induction false} MovedWithin(front: seq<string>, back: seq<string>, x: string, max: nat)
    requires |front| <= max && (back != [] ==> |front| == max) && |Remove(front, x)| == |front| - 1
    ensures Take([x] + (Remove(front, x) + back), max) == [x] + Remove(front, x)
  {
    hide Remove;
    assert [x] + (Remove(front, x) + back) == ([x] + Remove(front, x)) + back;
  }

  /** Scanning a tracked host moves it to the front; scanning another puts it in front and drops the last. */
  lemma {:induction false} TrackedNext(history: seq<Scan>, scan: Scan, max: nat)
    requires max >= 1
    ensures Tracked(history + [scan], max)
         == [scan.host] + (if scan.host in Tracked(history, max) then Remove(Tracked(history, max), scan.host)
                           else Take(Recency(history), max - 1))
  {
    assert (history + [scan])[..|history|] == history;
    RecencyDistinct(history);
    TakeMoved(Recency(history), scan.host, max);
  }

  lemma LastOfLastOf(s: seq<real>, e: real, n: nat)
    requires n >= 1
    ensures LastOf(LastOf(s, n) + [e], n) == LastOf(s + [e], n)
  {
  }

  /** A session seen longest ago is the last of the tracked hosts. */
  lemma {:induction false} OldestIsLast(t: Table, history: seq<Scan>, max: nat, windowSize: nat, key: string)
    requires Ticks(history) && Refines(t, history, max, windowSize) && IsOldest(t, key)
    ensures Tracked(history, max) != [] && key == Tracked(history, max)[|Tracked(history, max)| - 1]
  {
    var r := Tracked(history, max);
    var i :| 0 <= i < |r| && r[i] == key;
    var last := |r| - 1;
    assert r[last] in r;
    if i < last {
      RecencyByTime(history, i, last);
    }
  }

  lemma {:induction false} EvictedWithin(max: nat, before: Table, host: string, evicted: Table)
    requires Evicts(max, before, host, evicted)
    ensures forall h | h in evicted :: h in before && evicted[h] == before[h]
    ensures host in evicted <==> host in before
  {
  }

  lemma {:induction false} TableSize(t: Table, history: seq<Scan>, max: nat, windowSize: nat)
    requires Refines(t, history, max, windowSize)
    ensures |t| == |Tracked(history, max)|
    ensures forall h :: h in t <==> h in Tracked(history, max)
  {
    RecencyDistinct(history);
    KeysCount(t.Keys, Tracked(history, max));
  }

  /** Eviction drops just the last of the tracked hosts. */
  lemma {:induction false} EvictsLast(t: Table, history: seq<Scan>, max: nat, windowSize: nat, host: string, evicted: Table)
    requires Ticks(history) && NamedHosts(history) && max >= 1
    requires Refines(t, history, max, windowSize) && Evicts(max, t, host, evicted) && host !in t
    ensures forall h :: h in evicted <==> h in Take(Recency(history), max - 1)
  {
    hide Recency, NamedHosts, Ticks, Refines, IsOldest;
    var front := Tracked(history, max);
    TableSize(t, history, max, windowSize);
    if |t| >= max {
      var key :| key in t && IsOldest(t, key) && evicted == if key == "" then t else t - {key};
      OldestIsLast(t, history, max, windowSize, key);
      hide Evicts;
      assert front[max - 1] in Recency(history);
      NoEmptyHost(history);
      RecencyDistinct(history);
      DropLast(Recency(history), max);
    } else {
      assert front == Recency(history) == Take(Recency(history), max - 1);
    }
  }

  lemma {:induction false} DropLast(r: seq<string>, max: nat)
    requires Distinct(r) && 1 <= max <= |r|
    ensures forall h :: h in Take(r, max - 1) <==> h in Take(r, max) && h != Take(r, max)[max - 1]
  {
    assert Take(r, max) == Take(r, max - 1) + [r[max - 1]];
  }

  lemma {:induction false} NoEmptyHost(history: seq<Scan>)
    requires NamedHosts(history)
    ensures "" !in Recency(history)
  {
    RecencyIsHosts(history, "");
  }

  /** Which hosts a step keeps: those tracked after it, other than the one scanned. */
  lemma {:induction false} EvictedKeys(t: Table, history: seq<Scan>, max: nat, windowSize: nat, scan: Scan, evicted: Table)
    requires Ticks(history) && NamedHosts(history) && max >= 1
    requires Refines(t, history, max, windowSize) && Evicts(max, t, scan.host, evicted)
    ensures forall h :: h in evicted <==> h in t && (h == scan.host || h in Tracked(history + [scan], max))
  {
    hide Recency;
    var x := scan.host;
    TrackedNext(history, scan, max);
    if x in t {
      RemoveMembers(Tracked(history, max), x);
    } else {
      EvictsLast(t, history, max, windowSize, x, evicted);
      EvictedWithin(max, t, x, evicted);
    }
  }

  /** One scan keeps the table equal to what the history says. */
  lemma {:induction false} StepRefines(t: Table, history: seq<Scan>, max: nat, windowSize: nat, scan: Scan, after: Table)
    requires Ticks(history + [scan]) && NamedHosts(history + [scan]) && max >= 1 && windowSize >= 1
    requires Refines(t, history, max, windowSize) && StepsTo(max, windowSize, t, scan, after)
    ensures Refines(after, history + [scan], max, windowSize)
  {
    var next := history + [scan];
    var evicted :| Steps(max, windowSize, t, scan, evicted, after);
    assert next[..|history|] == history;
    assert Ticks(history) && NamedHosts(history) by {
      assert forall i | 0 <= i < |history| :: history[i] == next[i];
    }
    EvictedKeys(t, history, max, windowSize, scan, evicted);
    EvictedWithin(max, t, scan.host, evicted);
    TrackedNext(history, scan, max);
    TrackedOld(history, scan, max);
    hide Tracked, Refines;
    forall h
      ensures h in Tracked(next, max) <==> h in after
      ensures h in after ==> after[h] == Session(LastOf(Streak(next, max, h), windowSize), Volume(next, max, h), LastTime(next, h))
    {
      StepHost(t, history, max, windowSize, scan, evicted, after, h);
    }
    RefinesIs(after, next, max, windowSize);
  }

  lemma RefinesIs(t: Table, history: seq<Scan>, max: nat, windowSize: nat)
    requires forall h :: h in Tracked(history, max) <==> h in t
    requires forall h | h in t :: t[h] == Session(LastOf(Streak(history, max, h), windowSize), Volume(history, max, h), LastTime(history, h))
    ensures Refines(t, history, max, windowSize)
  {
  }

  /** One host in the table after a step. */
  lemma {:induction false} StepHost(t: Table, history: seq<Scan>, max: nat, windowSize: nat, scan: Scan, evicted: Table, after: Table, h: string)
    requires windowSize >= 1 && Refines(t, history, max, windowSize) && Steps(max, windowSize, t, scan, evicted, after)
    requires forall k | k in evicted :: k in t && evicted[k] == t[k]
    requires h in evicted <==> h in t && (h == scan.host || h in Tracked(history + [scan], max))
    requires scan.host in evicted <==> scan.host in t
    requires scan.host in Tracked(history + [scan], max)
    requires h in Tracked(history + [scan], max) ==> h == scan.host || h in Tracked(history, max)
    ensures var next := history + [scan];
            && (h in Tracked(next, max) <==> h in after)
            && (h in after ==> after[h] == Session(LastOf(Streak(next, max, h), windowSize), Volume(next, max, h), LastTime(next, h)))
  {
    hide Tracked, LastOf, Streak, Volume, LastTime, Evicts;
    LooksBack(history, scan, max, h);
    LastOfLastOf(Streak(history, max, scan.host), scan.entropy, windowSize);
    LastOfOne(scan.entropy, windowSize);
  }

  lemma LastOfOne(e: real, n: nat)
    requires n >= 1
    ensures LastOf([] + [e], n) == [e] && LastOf([e], n) == [e]
  {
  }

  /** What one more scan does to the streak, the volume and the last time of a host. */
  lemma LooksBack(history: seq<Scan>, scan: Scan, max: nat, host: string)
    ensures var next := history + [scan];
            if host != scan.host then
              Streak(next, max, host) == Streak(history, max, host) && Volume(next, max, host) == Volume(history, max, host)
              && LastTime(next, host) == LastTime(history, host)
            else
              LastTime(next, host) == scan.time
              && if host in Tracked(history, max)
                 then Streak(next, max, host) == Streak(history, max, host) + [scan.entropy]
                      && Volume(next, max, host) == Volume(history, max, host) + scan.bytes
                 else Streak(next, max, host) == [scan.entropy] && Volume(next, max, host) == scan.bytes
  {
    hide Tracked;
    assert (history + [scan])[..|history|] == history;
  }

  /** Only the scanned host can become tracked. */
  lemma {:induction false} TrackedOld(history: seq<Scan>, scan: Scan, max: nat)
    requires max >= 1
    ensures forall h | h in Tracked(history + [scan], max) :: h == scan.host || h in Tracked(history, max)
  {
    TrackedNext(history, scan, max);
    RemoveMembers(Tracked(history, max), scan.host);
    var r := Recency(history);
    assert forall h | h in Take(r, max - 1) :: h in Take(r, max);
  }

  /** After every run of scans with a strictly increasing clock, the table is what the whole history says. */
  lemma {:induction false} TableRefinesHistory(max: nat, windowSize: nat, history: seq<Scan>, tables: seq<Table>, n: nat)
    requires max >= 1 && windowSize >= 1 && n <= |history|
    requires Run(max, windowSize, history, tables) && Ticks(history) && NamedHosts(history)
    ensures n < |tables| && Refines(tables[n], history[..n], max, windowSize)
  {
    if n > 0 {
      TableRefinesHistory(max, windowSize, history, tables, n - 1);
      assert history[..n] == history[..n - 1] + [history[n - 1]];
      assert StepsTo(max, windowSize, tables[n - 1], history[n - 1], tables[n]);
      StepRefines(tables[n - 1], history[..n - 1], max, windowSize, history[n - 1], tables[n]);
    }
  }

  /** The finding of the n-th scan, from the history alone; and the bound on the table. */
  lemma {:induction false} FindingIsFromHistory(max: nat, windowSize: nat, history: seq<Scan>, tables: seq<Table>, n: nat)
    requires max >= 1 && windowSize >= 1 && n < |history|
    requires Run(max, windowSize, history, tables) && Ticks(history) && NamedHosts(history)
    ensures history[n].host in tables[n + 1]
    ensures var window, streak := tables[n + 1][history[n].host].window, Streak(history[..n + 1], max, history[n].host);
            && window == (if |streak| < windowSize then streak else streak[|streak| - windowSize..])
            && (|window| >= 10 && Total(window) > 5.0 * |window| as real <==>
                var m := if |streak| < windowSize then |streak| else windowSize;
                m >= 10 && Total(streak[|streak| - m..]) > 5.0 * m as real)
    ensures |tables[n + 1]| <= max
  {
    hide Run, Refines, Streak, Volume, LastTime, Alarm, Total, LastOf, Recency, Remove, Ticks, NamedHosts;
    TableRefinesHistory(max, windowSize, history, tables, n + 1);
    var now := history[..n + 1];
    assert now == history[..n] + [history[n]];
    TrackedNext(history[..n], history[n], max);
    assert history[n].host == Tracked(now, max)[0];
    TableSize(tables[n + 1], now, max, windowSize);
    RefinedWindow(tables[n + 1], now, max, windowSize, history[n].host);
    LastOfAre(Streak(now, max, history[n].host), windowSize);
  }

  lemma LastOfAre(s: seq<real>, n: nat)
    ensures LastOf(s, n) == if |s| < n then s else s[|s| - n..]
    ensures var m := if |s| < n then |s| else n;
            LastOf(s, n) == s[|s| - m..]
  {
  }

  lemma RefinedWindow(t: Table, history: seq<Scan>, max: nat, windowSize: nat, host: string)
    requires Refines(t, history, max, windowSize) && host in Tracked(history, max)
    ensures host in t && t[host].window == LastOf(Streak(history, max, host), windowSize)
  {
  }

  // ----- The empty host --------------------------------------------------------------------

  /** Each session was last seen at one of its own scans. */
  ghost predicate SeenAtScans(t: Table, history: seq<Scan>) {
    forall h | h in t :: exists i :: 0 <= i < |history| && history[i].host == h && history[i].time == t[h].lastSeen
  }

  lemma {:induction false} SeenNext(max: nat, windowSize: nat, history: seq<Scan>, t: Table, scan: Scan, after: Table)
    requires SeenAtScans(t, history) && StepsTo(max, windowSize, t, scan, after)
    ensures SeenAtScans(after, history + [scan])
  {
    var next := history + [scan];
    var evicted :| Steps(max, windowSize, t, scan, evicted, after);
    EvictedWithin(max, t, scan.host, evicted);
    hide Evicts;
    assert next[|history|] == scan;
    forall h | h in after && h != scan.host
      ensures exists i :: 0 <= i < |next| && next[i].host == h && next[i].time == after[h].lastSeen
    {
      assert h in t && t[h] == after[h];
      var i :| 0 <= i < |history| && history[i].host == h && history[i].time == t[h].lastSeen;
      assert next[i] == history[i];
    }
  }

  lemma {:induction false} SeenAlways(max: nat, windowSize: nat, history: seq<Scan>, tables: seq<Table>, n: nat)
    requires n <= |history| && Run(max, windowSize, history, tables)
    ensures SeenAtScans(tables[n], history[..n])
  {
    if n > 0 {
      SeenAlways(max, windowSize, history, tables, n - 1);
      assert history[..n] == history[..n - 1] + [history[n - 1]];
      SeenNext(max, windowSize, history[..n - 1], tables[n - 1], history[n - 1], tables[n]);
    }
  }

  lemma {:induction false} OneOldest(t: Table, history: seq<Scan>, a: string, b: string)
    requires Ticks(history) && SeenAtScans(t, history) && IsOldest(t, a) && IsOldest(t, b)
    ensures a == b
  {
    var i :| 0 <= i < |history| && history[i].host == a && history[i].time == t[a].lastSeen;
    var j :| 0 <= j < |history| && history[j].host == b && history[j].time == t[b].lastSeen;
    assert i == j;
  }

  /** A new host arrives at a full table whose oldest session has the empty host. */
  predicate EvictionFails(max: nat, t: Table, scan: Scan) {
    scan.host !in t && |t| >= max && IsOldest(t, "")
  }

  /** A new host at a full table replaces a session seen longest ago, or none if that has the empty host. */
  lemma {:induction false} NewHostAtFull(max: nat, windowSize: nat, t: Table, scan: Scan, after: Table) returns (key: string)
    requires max >= 1 && |t| >= max && scan.host !in t && StepsTo(max, windowSize, t, scan, after)
    ensures IsOldest(t, key)
    ensures |after| == if key == "" then |t| + 1 else |t|
    ensures key == "" ==> after == t[scan.host := after[scan.host]]
    ensures scan.host in after && after[scan.host].lastSeen == scan.time
  {
    var evicted :| Steps(max, windowSize, t, scan, evicted, after);
    assert t != map[];
    key :| key in t && IsOldest(t, key) && evicted == if key == "" then t else t - {key};
    hide IsOldest, Evicts;
    assert after.Keys == evicted.Keys + {scan.host};
    assert evicted.Keys == if key == "" then t.Keys else t.Keys - {key};
  }

  lemma {:induction false} NewHostWithRoom(max: nat, windowSize: nat, t: Table, scan: Scan, after: Table)
    requires |t| < max && scan.host !in t && StepsTo(max, windowSize, t, scan, after)
    ensures scan.host in after && after == t[scan.host := after[scan.host]]
    ensures after[scan.host].lastSeen == scan.time && |after| == |t| + 1
  {
    assert after.Keys == t.Keys + {scan.host};
  }

  lemma {:induction false} KnownHost(max: nat, windowSize: nat, t: Table, scan: Scan, after: Table)
    requires scan.host in t && StepsTo(max, windowSize, t, scan, after)
    ensures |after| == |t|
  {
    assert after.Keys == t.Keys;
  }

  /** A table within its bound stays there exactly when eviction does not meet the empty host. */
  lemma {:induction false} StepKeepsBound(max: nat, windowSize: nat, history: seq<Scan>, t: Table, scan: Scan, after: Table)
    requires Ticks(history) && SeenAtScans(t, history) && |t| <= max && max >= 1
    requires StepsTo(max, windowSize, t, scan, after)
    ensures |after| <= max <==> !EvictionFails(max, t, scan)
  {
    hide StepsTo, SeenAtScans, Ticks, IsOldest;
    if scan.host in t {
      KnownHost(max, windowSize, t, scan, after);
    } else if |t| < max {
      NewHostWithRoom(max, windowSize, t, scan, after);
    } else {
      var key := NewHostAtFull(max, windowSize, t, scan, after);
      if IsOldest(t, "") {
        OneOldest(t, history, "", key);
      }
    }
  }

  /** The bound holds throughout a run exactly when no scan of it makes eviction fail. */
  lemma {:induction false} BoundHoldsExactly(max: nat, windowSize: nat, history: seq<Scan>, tables: seq<Table>)
    requires max >= 1 && Run(max, windowSize, history, tables) && Ticks(history)
    ensures (forall i | 0 <= i < |tables| :: |tables[i]| <= max)
       <==> (forall i | 0 <= i < |history| :: !EvictionFails(max, tables[i], history[i]))
  {
    hide StepsTo, EvictionFails;
    forall i | 0 <= i < |history| && |tables[i]| <= max
      ensures |tables[i + 1]| <= max <==> !EvictionFails(max, tables[i], history[i])
    {
      SeenAlways(max, windowSize, history, tables, i);
      assert Ticks(history[..i]);
      StepKeepsBound(max, windowSize, history[..i], tables[i], history[i], tables[i + 1]);
    }
    if forall i | 0 <= i < |history| :: !EvictionFails(max, tables[i], history[i]) {
      for i := 0 to |history|
        invariant forall k | 0 <= k <= i :: |tables[k]| <= max
      {
        assert !EvictionFails(max, tables[i], history[i]);
        assert |tables[i + 1]| <= max;
      }
    }
    if forall i | 0 <= i < |tables| :: |tables[i]| <= max {
      forall i | 0 <= i < |history|
        ensures !EvictionFails(max, tables[i], history[i])
      {
        assert |tables[i]| <= max && |tables[i + 1]| <= max;
      }
    }
  }

  /** All hosts different, the empty one first. */
  predicate EmptyThenFresh(history: seq<Scan>) {
    && (history != [] ==> history[0].host == "")
    && forall i, j | 0 <= i < j < |history| :: history[i].host != history[j].host
  }

  function Hosts(history: seq<Scan>): set<string> {
    set i | 0 <= i < |history| :: history[i].host
  }

  /** One session for every scan: nothing was ever evicted. */
  ghost predicate NothingEvicted(t: Table, history: seq<Scan>) {
    && |t| == |history| && t.Keys == Hosts(history)
    && forall i | 0 <= i < |history| :: history[i].host in t && t[history[i].host].lastSeen == history[i].time
  }

  /** After one scan of the empty host nothing is ever evicted: the table grows with every new host. */
  lemma {:induction false} EmptyHostDisablesEviction(max: nat, windowSize: nat, history: seq<Scan>, tables: seq<Table>, n: nat)
    requires max >= 1 && n <= |history|
    requires Run(max, windowSize, history, tables) && Ticks(history) && EmptyThenFresh(history)
    ensures NothingEvicted(tables[n], history[..n])
  {
    hide NothingEvicted;
    if n == 0 {
      NothingAtStart();
    } else {
      var before, scan := history[..n - 1], history[n - 1];
      EmptyHostDisablesEviction(max, windowSize, history, tables, n - 1);
      assert history[..n] == before + [scan];
      NothingEvictedNext(max, windowSize, before, tables[n - 1], scan, tables[n]);
    }
  }

  lemma {:induction false} NothingAtStart()
    ensures NothingEvicted(map[], [])
  {
  }

  lemma {:induction false} NothingEvictedNext(max: nat, windowSize: nat, before: seq<Scan>, t: Table, scan: Scan, after: Table)
    requires max >= 1 && StepsTo(max, windowSize, t, scan, after)
    requires NothingEvicted(t, before) && Ticks(before) && EmptyThenFresh(before + [scan])
    ensures NothingEvicted(after, before + [scan])
  {
    hide StepsTo, IsOldest;
    FreshHost(before, scan);
    if |t| < max {
      NewHostWithRoom(max, windowSize, t, scan, after);
    } else {
      var key := NewHostAtFull(max, windowSize, t, scan, after);
      OldestIsFirst(before, t, key);
      assert (before + [scan])[0] == before[0];
    }
    NothingEvictedGrows(before, t, scan, after[scan.host]);
  }

  lemma {:induction false} FreshHost(before: seq<Scan>, scan: Scan)
    requires EmptyThenFresh(before + [scan])
    ensures scan.host !in Hosts(before)
  {
    var next := before + [scan];
    assert next[|before|] == scan && forall i | 0 <= i < |before| :: next[i] == before[i];
  }

  lemma {:induction false} NothingEvictedGrows(before: seq<Scan>, t: Table, scan: Scan, session: Session)
    requires NothingEvicted(t, before) && scan.host !in t && session.lastSeen == scan.time
    ensures NothingEvicted(t[scan.host := session], before + [scan])
  {
    var next, after := before + [scan], t[scan.host := session];
    HostsSnoc(before, scan);
    assert after.Keys == t.Keys + {scan.host};
    forall i | 0 <= i < |next|
      ensures next[i].host in after && after[next[i].host].lastSeen == next[i].time
    {
      if i < |before| {
        assert next[i] == before[i];
      }
    }
  }

  lemma {:induction false} HostsSnoc(history: seq<Scan>, scan: Scan)
    ensures Hosts(history + [scan]) == Hosts(history) + {scan.host}
  {
    assert forall i | 0 <= i < |history| :: (history + [scan])[i] == history[i];
    assert (history + [scan])[|history|] == scan;
  }

  lemma {:induction false} OldestIsFirst(history: seq<Scan>, t: Table, key: string)
    requires history != [] && Ticks(history) && t.Keys == Hosts(history) && IsOldest(t, key)
    requires forall i | 0 <= i < |history| :: t[history[i].host].lastSeen == history[i].time
    ensures key == history[0].host
  {
    var i :| 0 <= i < |history| && history[i].host == key;
    assert history[0].host in t && t[history[0].host].lastSeen == history[0].time;
    assert t[history[i].host].lastSeen == history[i].time;
  }
}
