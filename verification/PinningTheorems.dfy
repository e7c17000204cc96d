/** What pinning guarantees over whole sessions and over runs of sessions. */
module PinningTheorems {
  import opened Outcomes
  import opened ToolPinning

  // ----- Inside a session -------------------------------------------------------------------

  predicate DistinctNames(tools: seq<Tool>) {
    forall i, j | 0 <= i < j < |tools| :: tools[i].name != tools[j].name
  }

  /** Tools of one name all have one hash. */
  predicate Consistent(h: Hashes, tools: seq<Tool>) {
    forall i, j | 0 <= i < |tools| && 0 <= j < |tools| && tools[i].name == tools[j].name :: h.full(tools[i]) == h.full(tools[j])
  }

  predicate DiffersAt(a: Baseline, b: Baseline, name: string) {
    (name in a) != (name in b) || (name in a && a[name] != b[name])
  }

  function HashAt(b: Baseline, name: string): string {
    if name in b then b[name] else ""
  }

  /** A list's map holds exactly its names, each with the hash of some tool of that name. */
  lemma {:induction false} BaselineIs(h: Hashes, tools: seq<Tool>)
    ensures forall name :: name in BaselineOf(h, tools) <==> Lists(tools, name)
    ensures forall name | name in BaselineOf(h, tools) ::
              exists i :: 0 <= i < |tools| && tools[i].name == name && BaselineOf(h, tools)[name] == h.full(tools[i])
  {
    if tools != [] {
      var n := |tools| - 1;
      BaselineIs(h, tools[..n]);
      ListsMore(tools, n);
      assert tools[..n + 1] == tools;
      forall name | name in BaselineOf(h, tools)
        ensures exists i :: 0 <= i < |tools| && tools[i].name == name && BaselineOf(h, tools)[name] == h.full(tools[i])
      {
        if name != tools[n].name {
          assert name in BaselineOf(h, tools[..n]);
          var i :| 0 <= i < |tools[..n]| && tools[..n][i].name == name && BaselineOf(h, tools[..n])[name] == h.full(tools[..n][i]);
          assert tools[i].name == name;
        }
      }
    }
  }

  /** `c` is what the check says of one of the tools. */
  predicate ComesFrom(check: Tool -> Option<PinChange>, tools: seq<Tool>, c: PinChange) {
    exists i | 0 <= i < |tools| :: check(tools[i]) == Some(c)
  }

  /** Changes are in the order of the tools: those of the earlier tools come first. */
  lemma {:induction false} ChangesInOrder(check: Tool -> Option<PinChange>, a: seq<Tool>, b: seq<Tool>)
    ensures Changes(check, a + b) == Changes(check, a) + Changes(check, b)
    ensures forall t :: Changes(check, [t]) == if check(t).Some? then [check(t).value] else []
  {
    forall t
      ensures Changes(check, [t]) == if check(t).Some? then [check(t).value] else []
    {
      assert [t][..0] == [];
    }
    if b == [] {
      assert a + b == a;
    } else {
      var n := |b| - 1;
      ChangesInOrder(check, a, b[..n]);
      assert (a + b)[..|a + b| - 1] == a + b[..n] && (a + b)[|a + b| - 1] == b[n];
    }
  }

  /** The changes are exactly what the check says of the tools. */
  lemma {:induction false} ChangesAre(check: Tool -> Option<PinChange>, tools: seq<Tool>)
    ensures forall c :: c in Changes(check, tools) <==> ComesFrom(check, tools, c)
  {
    if tools != [] {
      var n := |tools| - 1;
      ChangesAre(check, tools[..n]);
      forall c ensures ComesFrom(check, tools, c) <==> ComesFrom(check, tools[..n], c) || check(tools[n]) == Some(c) {
        if ComesFrom(check, tools[..n], c) {
          var i :| 0 <= i < |tools[..n]| && check(tools[..n][i]) == Some(c);
          assert tools[..n][i] == tools[i];
        }
        if ComesFrom(check, tools, c) {
          var i :| 0 <= i < |tools| && check(tools[i]) == Some(c);
          assert i < n ==> tools[..n][i] == tools[i];
        }
      }
    }
  }

  /** A check that names the tool it objects to reports distinct tools once each. */
  lemma {:induction false} ChangesAreDistinct(check: Tool -> Option<PinChange>, tools: seq<Tool>)
    requires DistinctNames(tools) && forall t | check(t).Some? :: check(t).value.tool == t.name
    ensures forall k, l | 0 <= k < l < |Changes(check, tools)| :: Changes(check, tools)[k].tool != Changes(check, tools)[l].tool
  {
    if tools != [] {
      var n := |tools| - 1;
      ChangesAreDistinct(check, tools[..n]);
      ChangesAre(check, tools[..n]);
      var before, cs := Changes(check, tools[..n]), Changes(check, tools);
      forall k | 0 <= k < |before| ensures cs[k] == before[k] && cs[k].tool != tools[n].name {
        assert before[k] in before;
        var i :| 0 <= i < |tools[..n]| && check(tools[..n][i]) == Some(before[k]);
        assert tools[..n][i] == tools[i];
      }
    }
  }

  /** Whether a list's own entries are right: the listed part of a report against the two maps. */
  lemma {:induction false} ListedPart(h: Hashes, pins: Pins, server: string, a: Baseline, tools: seq<Tool>)
    requires DistinctNames(tools)
    ensures var b, listed := BaselineOf(h, tools), ListedChanges(h, pins, server, a, tools);
            && (forall k | 0 <= k < |listed| ::
                  && Lists(tools, listed[k].tool) && DiffersAt(a, b, listed[k].tool)
                  && listed[k].oldHash == HashAt(a, listed[k].tool) && listed[k].newHash == HashAt(b, listed[k].tool))
            && (forall name | DiffersAt(a, b, name) && Lists(tools, name) :: exists k :: 0 <= k < |listed| && listed[k].tool == name)
            && (forall k, l | 0 <= k < l < |listed| :: listed[k].tool != listed[l].tool)
  {
    var b, listed, check := BaselineOf(h, tools), ListedChanges(h, pins, server, a, tools), MidCheck(h, pins, server, a);
    ChangesAre(check, tools);
    ChangesAreDistinct(check, tools);
    DistinctHash(h, tools);
    hide BaselineOf, Changes;
    forall k | 0 <= k < |listed|
      ensures Lists(tools, listed[k].tool) && DiffersAt(a, b, listed[k].tool)
      ensures listed[k].oldHash == HashAt(a, listed[k].tool) && listed[k].newHash == HashAt(b, listed[k].tool)
    {
      assert listed[k] in listed;
      var i :| 0 <= i < |tools| && check(tools[i]) == Some(listed[k]);
      assert tools[i].name == listed[k].tool;
    }
    forall name | DiffersAt(a, b, name) && Lists(tools, name) ensures exists k :: 0 <= k < |listed| && listed[k].tool == name {
      var i :| 0 <= i < |tools| && tools[i].name == name;
      assert check(tools[i]).Some?;
      assert check(tools[i]).value in listed;
      var k :| 0 <= k < |listed| && listed[k] == check(tools[i]).value;
      assert listed[k].tool == name;
    }
  }

  /** One mid-session check, for lists with distinct names: exactly one entry for each name added, removed
      or re-hashed since the previous list, with its old and new hash, and no other entry. */
  lemma {:induction false} MidReportIsExact(h: Hashes, pins: Pins, server: string, previous: seq<Tool>, tools: seq<Tool>, changes: seq<PinChange>)
    requires DistinctNames(tools)
    requires MidReport(h, pins, server, BaselineOf(h, previous), tools, changes)
    ensures var a, b := BaselineOf(h, previous), BaselineOf(h, tools);
            && (forall name :: DiffersAt(a, b, name) <==> exists i :: 0 <= i < |changes| && changes[i].tool == name)
            && (forall i, j | 0 <= i < j < |changes| :: changes[i].tool != changes[j].tool)
            && (forall i | 0 <= i < |changes| ::
                  changes[i].oldHash == HashAt(a, changes[i].tool) && changes[i].newHash == HashAt(b, changes[i].tool))
  {
    var a, b := BaselineOf(h, previous), BaselineOf(h, tools);
    ListedPart(h, pins, server, a, tools);
    BaselineIs(h, tools);
    hide BaselineOf, ListedChanges, Lists;
    var listed := ListedChanges(h, pins, server, a, tools);
    assert forall k | 0 <= k < |listed| :: changes[k] == listed[k];
    forall name | DiffersAt(a, b, name) ensures exists i :: 0 <= i < |changes| && changes[i].tool == name {
      if Lists(tools, name) {
        var k :| 0 <= k < |listed| && listed[k].tool == name;
        assert changes[k].tool == name;
      }
    }
  }

  lemma {:induction false} DistinctHash(h: Hashes, tools: seq<Tool>)
    requires DistinctNames(tools)
    ensures forall i | 0 <= i < |tools| :: tools[i].name in BaselineOf(h, tools) && BaselineOf(h, tools)[tools[i].name] == h.full(tools[i])
  {
    BaselineIs(h, tools);
    forall i | 0 <= i < |tools|
      ensures tools[i].name in BaselineOf(h, tools) && BaselineOf(h, tools)[tools[i].name] == h.full(tools[i])
    {
      assert Lists(tools, tools[i].name);
      var j :| 0 <= j < |tools| && tools[j].name == tools[i].name && BaselineOf(h, tools)[tools[i].name] == h.full(tools[j]);
      assert i == j;
    }
  }

  /** For any lists, duplicate names included: a check reports nothing exactly when the maps agree and the
      new list is consistent.  So a list that names one tool with two hashes is reported even when the
      very same list was the previous one. */
  lemma {:induction false} SilentExactly(h: Hashes, pins: Pins, server: string, previous: seq<Tool>, tools: seq<Tool>, changes: seq<PinChange>)
    requires MidReport(h, pins, server, BaselineOf(h, previous), tools, changes)
    ensures changes == [] <==> BaselineOf(h, previous) == BaselineOf(h, tools) && Consistent(h, tools)
  {
    var a, b := BaselineOf(h, previous), BaselineOf(h, tools);
    var listed, check := ListedChanges(h, pins, server, a, tools), MidCheck(h, pins, server, a);
    ChangesAre(check, tools);
    BaselineIs(h, tools);
    hide BaselineOf, Changes;
    if changes == [] {
      assert listed == [];
      NoneObjected(check, tools);
      assert forall i | 0 <= i < |tools| :: check(tools[i]).None? ==> tools[i].name in a && a[tools[i].name] == h.full(tools[i]);
      assert forall name :: name in a <==> name in b;
      assert a == b;
    }
    if a == b && Consistent(h, tools) {
      forall i | 0 <= i < |tools| ensures check(tools[i]).None? {
        assert Lists(tools, tools[i].name);
        var j :| 0 <= j < |tools| && tools[j].name == tools[i].name && b[tools[i].name] == h.full(tools[j]);
      }
      NoneObjected(check, tools);
      assert forall name | name in a :: Lists(tools, name);
      assert forall c | c in changes :: c.tool in a && !Lists(tools, c.tool);
      if changes != [] {
        HasMember(changes);
      }
    }
  }

  lemma HasMember(changes: seq<PinChange>)
    requires changes != []
    ensures exists c :: c in changes
  {
    assert changes[0] in changes;
  }

  lemma {:induction false} NoneObjected(check: Tool -> Option<PinChange>, tools: seq<Tool>)
    ensures Changes(check, tools) == [] <==> forall i | 0 <= i < |tools| :: check(tools[i]).None?
  {
    if tools != [] {
      NoneObjected(check, tools[..|tools| - 1]);
      assert forall i | 0 <= i < |tools| - 1 :: tools[..|tools| - 1][i] == tools[i];
    }
  }

  /** The same list twice, with one tool named twice under two hashes, raises an alarm. */
  lemma {:induction false} DuplicateRaisesAlarm(h: Hashes, pins: Pins, server: string, t: Tool, u: Tool, changes: seq<PinChange>)
    requires t.name == u.name && h.full(t) != h.full(u)
    requires MidReport(h, pins, server, BaselineOf(h, [t, u]), [t, u], changes)
    ensures changes != []
  {
    SilentExactly(h, pins, server, [t, u], [t, u], changes);
    assert [t, u][0] == t && [t, u][1] == u;
  }

  /** The reports of a session: one for each list after the first. */
  ghost predicate Reports(h: Hashes, pins: Pins, server: string, lists: seq<seq<Tool>>, reports: seq<seq<PinChange>>) {
    && |lists| == |reports| + 1
    && forall i | 0 <= i < |reports| :: MidReport(h, pins, server, BaselineOf(h, lists[i]), lists[i + 1], reports[i])
  }

  /** A whole session is silent exactly when all its lists give the same name-to-hash map. */
  lemma {:induction false} SessionIsSilentExactly(h: Hashes, pins: Pins, server: string, lists: seq<seq<Tool>>, reports: seq<seq<PinChange>>)
    requires Reports(h, pins, server, lists, reports)
    requires forall i | 0 <= i < |lists| :: DistinctNames(lists[i])
    ensures (forall i | 0 <= i < |reports| :: reports[i] == [])
       <==> forall i | 0 <= i < |lists| :: BaselineOf(h, lists[i]) == BaselineOf(h, lists[0])
  {
    forall i | 0 <= i < |reports| ensures reports[i] == [] <==> BaselineOf(h, lists[i]) == BaselineOf(h, lists[i + 1]) {
      SilentExactly(h, pins, server, lists[i], lists[i + 1], reports[i]);
      assert DistinctNames(lists[i + 1]) && Consistent(h, lists[i + 1]);
    }
    if forall i | 0 <= i < |reports| :: reports[i] == [] {
      AllSame(h, lists, |lists|);
    } else {
      var i :| 0 <= i < |reports| && reports[i] != [];
      assert BaselineOf(h, lists[i]) != BaselineOf(h, lists[i + 1]);
    }
  }

  lemma {:induction false} AllSame(h: Hashes, lists: seq<seq<Tool>>, n: nat)
    requires n <= |lists|
    requires forall i | 0 <= i < |lists| - 1 :: BaselineOf(h, lists[i]) == BaselineOf(h, lists[i + 1])
    ensures forall i | 0 <= i < n :: BaselineOf(h, lists[i]) == BaselineOf(h, lists[0])
  {
    if n > 1 {
      AllSame(h, lists, n - 1);
      assert BaselineOf(h, lists[n - 2]) == BaselineOf(h, lists[n - 2 + 1]);
    }
  }

  // ----- Keys -------------------------------------------------------------------------------

  predicate HasSeparator(s: string) {
    exists i | 0 <= i < |s| - 1 :: s[i] == ':' && s[i + 1] == ':'
  }

  /** No "::" inside and no ":" at the end. */
  predicate PlainId(server: string) {
    !HasSeparator(server) && (server != "" ==> server[|server| - 1] != ':')
  }

  predicate Clash(s: string, t: string) {
    s != t && (s + "::" <= t + "::" || t + "::" <= s + "::")
  }

  lemma {:induction false} PrefixesNest(a: string, b: string, s: string)
    requires a <= s && b <= s && |a| <= |b|
    ensures a <= b
  {
    assert a == s[..|a|] && b == s[..|b|];
  }

  /** Two different servers can share a key exactly when one of their prefixes extends the other. */
  lemma {:induction false} KeysCollideExactly(s: string, t: string)
    requires s != t
    ensures (exists n, m :: PinKey(s, n) == PinKey(t, m)) <==> Clash(s, t)
  {
    forall n, m | PinKey(s, n) == PinKey(t, m) ensures Clash(s, t) {
      PinKeyHasPrefix(s, n);
      PinKeyHasPrefix(t, m);
      if |s| <= |t| {
        PrefixesNest(s + "::", t + "::", PinKey(s, n));
      } else {
        PrefixesNest(t + "::", s + "::", PinKey(s, n));
      }
    }
    if Clash(s, t) {
      if s + "::" <= t + "::" {
        assert PinKey(s, (t + "::")[|s + "::"|..]) == t + "::" == PinKey(t, "");
      } else {
        assert PinKey(t, (s + "::")[|t + "::"|..]) == s + "::" == PinKey(s, "");
      }
    }
  }

  /** A prefix that extends another belongs to an id with a separator inside or a colon at its end. */
  lemma {:induction false} NestedId(s: string, t: string)
    requires s + "::" <= t + "::" && s != t
    ensures HasSeparator(t) || (t != "" && t[|t| - 1] == ':')
  {
    var n := |s|;
    assert (t + "::")[n] == (s + "::")[n] && (t + "::")[n + 1] == (s + "::")[n + 1];
    assert s == (s + "::")[..n] == (t + "::")[..n];
    assert n < |t|;
    assert t[n] == ':';
    assert n < |t| - 1 ==> t[n + 1] == ':';
  }

  lemma {:induction false} PlainIdsNeverNest(s: string, t: string)
    requires PlainId(t) && s != t
    ensures !(s + "::" <= t + "::")
  {
    if s + "::" <= t + "::" {
      NestedId(s, t);
    }
  }

  /** Server ids without "::" that do not end in ":" make keys injective. */
  lemma {:induction false} PinKeyInjective(s: string, n: string, t: string, m: string)
    requires PlainId(s) && PlainId(t) && PinKey(s, n) == PinKey(t, m)
    ensures s == t && n == m
  {
    if s != t {
      PlainIdsNeverNest(s, t);
      PlainIdsNeverNest(t, s);
      KeysCollideExactly(s, t);
      assert false;
    }
    assert n == PinKey(s, n)[|s| + 2..] && m == PinKey(t, m)[|t| + 2..];
  }

  // ----- Runs of sessions -------------------------------------------------------------------

  /** A session, as far as the pin file is concerned: its server and its first list. */
  datatype FirstList = FirstList(server: string, tools: seq<Tool>)

  /** The pin file after a run of sessions, every load and save succeeding. */
  function PinsAfter(h: Hashes, pins: Pins, run: seq<FirstList>): Pins
    decreases |run|
  {
    if run == [] then pins
    else PinsAfter(h, AfterFirstList(h, pins, run[0].server, run[0].tools), run[1..])
  }

  /** No run of sessions changes or drops an entry of the pin file, whatever the server ids. */
  lemma {:induction false} EntriesAreFrozen(h: Hashes, pins: Pins, run: seq<FirstList>)
    ensures forall key | key in pins :: key in PinsAfter(h, pins, run) && PinsAfter(h, pins, run)[key] == pins[key]
    decreases |run|
  {
    if run != [] {
      PinnedAllKeys(h, pins, run[0].server, run[0].tools);
      EntriesAreFrozen(h, AfterFirstList(h, pins, run[0].server, run[0].tools), run[1..]);
    }
  }

  /** A run of sessions of servers that do not clash with `server` adds no pin to it either, once it has one. */
  lemma {:induction false} NoPinsAdded(h: Hashes, pins: Pins, server: string, run: seq<FirstList>)
    requires HasPins(pins, server)
    requires forall i | 0 <= i < |run| :: !Clash(server, run[i].server)
    ensures forall key | key in PinsAfter(h, pins, run) && server + "::" <= key :: key in pins
    decreases |run|
  {
    if run != [] {
      var next := AfterFirstList(h, pins, run[0].server, run[0].tools);
      PinnedAllKeys(h, pins, run[0].server, run[0].tools);
      var known :| known in pins && server + "::" <= known;
      assert known in next;
      NoPinsAdded(h, next, server, run[1..]);
      forall key | key in next && server + "::" <= key ensures key in pins {
        if key !in pins {
          var i :| 0 <= i < |run[0].tools| && key == PinKey(run[0].server, run[0].tools[i].name);
          OnlyOwnPrefix(server, run[0].server, run[0].tools[i].name);
        }
      }
    }
  }

  lemma {:induction false} OnlyOwnPrefix(server: string, other: string, tool: string)
    requires !Clash(server, other) && server + "::" <= PinKey(other, tool)
    ensures server == other
  {
    PinKeyHasPrefix(other, tool);
    if |server| <= |other| {
      PrefixesNest(server + "::", other + "::", PinKey(other, tool));
    } else {
      PrefixesNest(other + "::", server + "::", PinKey(other, tool));
    }
  }

  lemma {:induction false} PinnedAllHash(h: Hashes, pins: Pins, server: string, tools: seq<Tool>, i: nat)
    requires DistinctNames(tools) && i < |tools|
    ensures PinKey(server, tools[i].name) in PinnedAll(h, pins, server, tools)
    ensures PinnedAll(h, pins, server, tools)[PinKey(server, tools[i].name)] == EntryFor(h, tools[i])
  {
    var n := |tools| - 1;
    if i < n {
      assert tools[..n][i] == tools[i];
      PinnedAllHash(h, pins, server, tools[..n], i);
      SameKey(server, tools[i].name, tools[n].name);
    }
  }

  lemma {:induction false} SameKey(server: string, n: string, m: string)
    ensures PinKey(server, n) == PinKey(server, m) <==> n == m
  {
    assert n == PinKey(server, n)[|server| + 2..] && m == PinKey(server, m)[|server| + 2..];
  }

  /** TRUST ON FIRST USE.  When a server without pins first lists its tools, every later session, after
      any run of sessions of servers that do not clash with it, warns about a listed tool exactly when
      that first list had a tool of the same name with another hash. */
  lemma {:induction false} TrustOnFirstUse(h: Hashes, pins: Pins, server: string, first: seq<Tool>, run: seq<FirstList>, t: Tool)
    requires first != [] && DistinctNames(first) && !HasPins(pins, server)
    requires forall i | 0 <= i < |run| :: !Clash(server, run[i].server)
    ensures var later := PinsAfter(h, AfterFirstList(h, pins, server, first), run);
            PinnedChange(h, later, server, t).Some? <==>
              exists i :: 0 <= i < |first| && first[i].name == t.name && h.full(first[i]) != h.full(t)
  {
    var pinned := PinnedAll(h, pins, server, first);
    var later := PinsAfter(h, pinned, run);
    var key := PinKey(server, t.name);
    PinnedAllKeys(h, pins, server, first);
    PinKeyHasPrefix(server, t.name);
    PinKeyHasPrefix(server, first[0].name);
    EntriesAreFrozen(h, pinned, run);
    NoPinsAdded(h, pinned, server, run);
    assert key !in pins;
    forall i | 0 <= i < |first| ensures PinKey(server, first[i].name) in later && later[PinKey(server, first[i].name)] == EntryFor(h, first[i]) {
      PinnedAllHash(h, pins, server, first, i);
    }
    if PinnedChange(h, later, server, t).Some? {
      var i :| 0 <= i < |first| && key == PinKey(server, first[i].name);
      SameKey(server, t.name, first[i].name);
    }
  }

  /** The change of a pinned tool: high when its schema changed, medium otherwise. */
  predicate Rehashed(h: Hashes, pins: Pins, server: string, t: Tool, c: PinChange) {
    var key := server + "::" + t.name;
    && key in pins && pins[key].fullHash != h.full(t)
    && c.tool == t.name && !c.midSession && c.oldHash == pins[key].fullHash && c.newHash == h.full(t)
    && c.severity == if pins[key].schemaHash != h.schema(t.schema) then High else Medium
  }

  /** A session warns about exactly the listed tools that are pinned with another hash, graded by their schema. */
  lemma {:induction false} WarningsAreExact(h: Hashes, pins: Pins, server: string, tools: seq<Tool>, c: PinChange)
    ensures c in PinnedChanges(h, pins, server, tools) <==> exists i :: 0 <= i < |tools| && Rehashed(h, pins, server, tools[i], c)
  {
    forall t: Tool
      ensures PinnedChange(h, pins, server, t) == Some(c) <==> Rehashed(h, pins, server, t, c)
    {
    }
    hide PinnedChange, Rehashed;
    var check := PinnedCheck(h, pins, server);
    ChangesAre(check, tools);
    forall i | 0 <= i < |tools| ensures check(tools[i]) == PinnedChange(h, pins, server, tools[i]) {
    }
  }

  // ----- When the pin file cannot be loaded -------------------------------------------------

  /** The pin file after the first list of a new wrapper process that found `disk` there. */
  function FileAfter(h: Hashes, disk: Pins, file: Result<Option<Pins>, string>, server: string, tools: seq<Tool>): Pins {
    match SavedBy(h, Loaded(map[], file), server, tools)
    case None => disk
    case Some(saved) => saved
  }

  /** The last tool of its name in the list. */
  predicate LastOfName(tools: seq<Tool>, i: int) {
    0 <= i < |tools| && forall j | i < j < |tools| :: tools[j].name != tools[i].name
  }

  /** Pinning a list leaves for each name the entry of its last tool. */
  lemma {:induction false} PinnedAllIsLast(h: Hashes, pins: Pins, server: string, tools: seq<Tool>, i: nat)
    requires LastOfName(tools, i)
    ensures PinKey(server, tools[i].name) in PinnedAll(h, pins, server, tools)
    ensures PinnedAll(h, pins, server, tools)[PinKey(server, tools[i].name)] == EntryFor(h, tools[i])
  {
    var n := |tools| - 1;
    if i < n {
      assert tools[..n][i] == tools[i];
      PinnedAllIsLast(h, pins, server, tools[..n], i);
      SameKey(server, tools[i].name, tools[n].name);
    }
  }

  /** Of several tools with one name the last counts for the baseline. */
  lemma {:induction false} BaselineIsLast(h: Hashes, tools: seq<Tool>, i: nat)
    requires LastOfName(tools, i)
    ensures tools[i].name in BaselineOf(h, tools) && BaselineOf(h, tools)[tools[i].name] == h.full(tools[i])
  {
    var n := |tools| - 1;
    if i < n {
      assert tools[..n][i] == tools[i];
      BaselineIsLast(h, tools[..n], i);
    }
  }

  lemma {:induction false} EveryNameHasLast(tools: seq<Tool>, i: nat) returns (last: nat)
    requires i < |tools|
    ensures LastOfName(tools, last) && tools[last].name == tools[i].name
  {
    last := |tools| - 1;
    while tools[last].name != tools[i].name
      invariant i <= last < |tools|
      invariant forall j | last < j < |tools| :: tools[j].name != tools[i].name
      decreases last
    {
      last := last - 1;
    }
  }

  /** The list itself pins the key with this entry. */
  ghost predicate Repins(h: Hashes, server: string, tools: seq<Tool>, key: string, entry: PinEntry) {
    exists i :: LastOfName(tools, i) && key == PinKey(server, tools[i].name) && entry == EntryFor(h, tools[i])
  }

  /** The file keeps every pin it had exactly when it could be loaded, or held nothing but what the list
      pins again.  So after a failed load the pins of every other server are forgotten. */
  lemma {:induction false} FailedLoadForgetsOthers(h: Hashes, disk: Pins, file: Result<Option<Pins>, string>, server: string, tools: seq<Tool>)
    requires file.Err? || file == Ok(Some(disk))
    ensures (forall key | key in disk :: key in FileAfter(h, disk, file, server, tools) && FileAfter(h, disk, file, server, tools)[key] == disk[key])
       <==> file.Ok? || forall key | key in disk :: Repins(h, server, tools, key, disk[key])
  {
    hide PinnedAll, Repins;
    if file.Ok? {
      PinnedAllKeys(h, disk, server, tools);
      assert forall key | key in disk && server + "::" <= key :: HasPins(disk, server);
    } else {
      forall key | key in disk
        ensures var saved := PinnedAll(h, map[], server, tools);
                key in saved && saved[key] == disk[key] <==> Repins(h, server, tools, key, disk[key])
      {
        SavedIsRepinned(h, server, tools, key, disk[key]);
      }
    }
  }

  /** What pinning into an empty store gives. */
  lemma {:induction false} SavedIsRepinned(h: Hashes, server: string, tools: seq<Tool>, key: string, entry: PinEntry)
    ensures var saved := PinnedAll(h, map[], server, tools);
            key in saved && saved[key] == entry <==> Repins(h, server, tools, key, entry)
  {
    hide PinnedAll, PinKey;
    var saved := PinnedAll(h, map[], server, tools);
    PinnedAllKeys(h, map[], server, tools);
    if key in saved {
      var i :| 0 <= i < |tools| && key == PinKey(server, tools[i].name);
      var last := EveryNameHasLast(tools, i);
      PinnedAllIsLast(h, map[], server, tools, last);
    }
    if Repins(h, server, tools, key, entry) {
      var i :| LastOfName(tools, i) && key == PinKey(server, tools[i].name) && entry == EntryFor(h, tools[i]);
      PinnedAllIsLast(h, map[], server, tools, i);
    }
  }

  /** A pin of another server is lost by one failed load. */
  lemma OtherPinIsLost(h: Hashes, entry: PinEntry, t: Tool, reason: string)
    ensures var disk := map[PinKey("other", t.name) := entry];
            PinKey("other", t.name) !in FileAfter(h, disk, Err(reason), "server", [t])
  {
    var key := PinKey("other", t.name);
    PinnedAllKeys(h, map[], "server", [t]);
    assert key[0] == 'o' && PinKey("server", t.name)[0] == 's';
  }

  /** A server's own pin is replaced by one failed load, without a warning then or in the next session: trust
      on first use starts over with whatever definition is listed now. */
  lemma OwnPinIsReplaced(h: Hashes, server: string, entry: PinEntry, t: Tool, reason: string)
    requires entry.fullHash != h.full(t)
    ensures var key := PinKey(server, t.name);
            var disk := map[key := entry];
            var after := FileAfter(h, disk, Err(reason), server, [t]);
            && key in after && after[key] == EntryFor(h, t) && after[key] != entry
            && PinnedChange(h, disk, server, t).Some?
            && PinnedChanges(h, Loaded(map[], Err(reason)), server, [t]) == []
            && PinnedChange(h, after, server, t).None?
  {
    PinnedAllIsLast(h, map[], server, [t], 0);
    NoPinsNoChanges(h, map[], server, [t]);
  }

  // ----- Servers with nested ids --------------------------------------------------------------

  /** Once a server whose id continues another's with "::" has a pin, no later session of the shorter one pins
      anything, whatever sessions come in between: its tools are trusted anew every time, without a warning. */
  lemma {:induction false} NestedServerIsNeverPinned(h: Hashes, pins: Pins, server: string, suffix: string, tool: string,
                                                     run: seq<FirstList>, tools: seq<Tool>)
    requires PinKey(server + "::" + suffix, tool) in pins
    ensures var later := PinsAfter(h, pins, run);
            && HasPins(later, server)
            && AfterFirstList(h, later, server, tools) == later && SavedBy(h, later, server, tools) == None
            && forall t: Tool | PinKey(server, t.name) !in later :: PinnedChange(h, later, server, t) == None
  {
    var later, key := PinsAfter(h, pins, run), PinKey(server + "::" + suffix, tool);
    EntriesAreFrozen(h, pins, run);
    assert key in later;
    assert key == server + "::" + (suffix + "::" + tool);
    assert server + "::" <= key;
  }

  /** A first session of "a::b" and then one of "a": the tools of "a" stay without pins. */
  lemma {:induction false} NestedServerInput(h: Hashes, t: Tool, u: Tool)
    requires u.name != "b::" + t.name
    ensures var pins := PinsAfter(h, map[], [FirstList("a::b", [t]), FirstList("a", [u])]);
            PinKey("a", u.name) !in pins
  {
    var run := [FirstList("a::b", [t]), FirstList("a", [u])];
    assert run[1..] == [FirstList("a", [u])] && run[1..][1..] == [];
    var first := AfterFirstList(h, map[], "a::b", [t]);
    assert !HasPins(map[], "a::b");
    PinnedAllKeys(h, map[], "a::b", [t]);
    assert PinKey("a::b", [t][0].name) in first;
    assert "a::b" == "a" + "::" + "b";
    NestedServerIsNeverPinned(h, first, "a", "b", t.name, [], [u]);
    if PinKey("a", u.name) in first {
      assert PinKey("a", u.name) == PinKey("a::b", t.name);
      assert PinKey("a::b", t.name) == PinKey("a", "b::" + t.name);
      SameKey("a", u.name, "b::" + t.name);
      assert false;
    }
  }

  // ----- Grades inside a session --------------------------------------------------------------

  /** How a mid-session entry is graded: a tool that is new or gone is critical; a changed one is medium if it has a
      persisted pin with the same schema, and high otherwise. */
  ghost predicate Graded(h: Hashes, pins: Pins, server: string, baseline: Baseline, tools: seq<Tool>, c: PinChange) {
    && c.midSession
    && if Lists(tools, c.tool) then
         exists i :: 0 <= i < |tools| && tools[i].name == c.tool && c.newHash == h.full(tools[i])
           && if c.tool !in baseline then c.severity == Critical && c.oldHash == ""
              else
                var key := server + "::" + c.tool;
                && c.oldHash == baseline[c.tool] && c.oldHash != c.newHash
                && c.severity == if key in pins && pins[key].schemaHash == h.schema(tools[i].schema) then Medium else High
       else c.tool in baseline && c.severity == Critical && c.oldHash == baseline[c.tool] && c.newHash == ""
  }

  /** Every entry of a mid-session report is graded so. */
  lemma {:induction false} ReportIsGraded(h: Hashes, pins: Pins, server: string, baseline: Baseline, tools: seq<Tool>, changes: seq<PinChange>, k: nat)
    requires MidReport(h, pins, server, baseline, tools, changes) && k < |changes|
    ensures Graded(h, pins, server, baseline, tools, changes[k])
  {
    var listed, check, c := ListedChanges(h, pins, server, baseline, tools), MidCheck(h, pins, server, baseline), changes[k];
    if k < |listed| {
      assert listed[k] == c;
      ChangesAre(check, tools);
      assert c in listed;
      var i :| 0 <= i < |tools| && check(tools[i]) == Some(c);
      assert MidChange(h, pins, server, baseline, tools[i]) == Some(c);
      assert Lists(tools, tools[i].name);
    }
  }
}
