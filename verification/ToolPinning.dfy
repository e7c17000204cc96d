/** Tool pinning: trust on first use across sessions, and change detection inside one.

Hashes are parameters: `full` of a whole definition, `desc` and `schema` of its parts. */
module ToolPinning {
  import opened Outcomes

  datatype Tool = Tool(name: string, description: string, schema: string)

  datatype Hashes = Hashes(full: Tool -> string, desc: string -> string, schema: string -> string)

  datatype PinEntry = PinEntry(descHash: string, schemaHash: string, fullHash: string, description: string)

  datatype Severity = Critical | High | Medium

  datatype PinChange = PinChange(tool: string, severity: Severity, oldHash: string, newHash: string, midSession: bool)

  type Pins = map<string, PinEntry>

  type Baseline = map<string, string>

  function PinKey(server: string, tool: string): string {
    server + "::" + tool
  }

  function EntryFor(h: Hashes, t: Tool): PinEntry {
    PinEntry(h.desc(t.description), h.schema(t.schema), h.full(t), t.description)
  }

  // ----- What the store's operations compute ------------------------------------------------

  /** Pinning tools one after the other. */
  function PinnedAll(h: Hashes, pins: Pins, server: string, tools: seq<Tool>): Pins {
    if tools == [] then pins
    else
      var n := |tools| - 1;
      PinnedAll(h, pins, server, tools[..n])[PinKey(server, tools[n].name) := EntryFor(h, tools[n])]
  }

  /** Name to hash; of tools with the same name the last counts. */
  function BaselineOf(h: Hashes, tools: seq<Tool>): Baseline {
    if tools == [] then map[]
    else
      var n := |tools| - 1;
      BaselineOf(h, tools[..n])[tools[n].name := h.full(tools[n])]
  }

  function Classify(pinned: PinEntry, newSchemaHash: string): Severity {
    if pinned.schemaHash != newSchemaHash then High else Medium
  }

  /** The change a listed tool makes against its persisted pin. */
  function PinnedChange(h: Hashes, pins: Pins, server: string, t: Tool): Option<PinChange> {
    var key := PinKey(server, t.name);
    if key !in pins || pins[key].fullHash == h.full(t) then None
    else Some(PinChange(t.name, Classify(pins[key], h.schema(t.schema)), pins[key].fullHash, h.full(t), false))
  }

  /** The change a listed tool makes against the session baseline. */
  function MidChange(h: Hashes, pins: Pins, server: string, baseline: Baseline, t: Tool): Option<PinChange> {
    if t.name !in baseline then Some(PinChange(t.name, Critical, "", h.full(t), true))
    else if baseline[t.name] == h.full(t) then None
    else
      var key := PinKey(server, t.name);
      var severity := if key in pins then Classify(pins[key], h.schema(t.schema)) else High;
      Some(PinChange(t.name, severity, baseline[t.name], h.full(t), true))
  }

  /** The changes a check finds, in the order of the tools. */
  function Changes(check: Tool -> Option<PinChange>, tools: seq<Tool>): seq<PinChange> {
    if tools == [] then []
    else
      var n := |tools| - 1;
      var before := Changes(check, tools[..n]);
      match check(tools[n])
      case None => before
      case Some(change) => before + [change]
  }

  function PinnedCheck(h: Hashes, pins: Pins, server: string): Tool -> Option<PinChange> {
    t => PinnedChange(h, pins, server, t)
  }

  function MidCheck(h: Hashes, pins: Pins, server: string, baseline: Baseline): Tool -> Option<PinChange> {
    t => MidChange(h, pins, server, baseline, t)
  }

  function PinnedChanges(h: Hashes, pins: Pins, server: string, tools: seq<Tool>): seq<PinChange> {
    Changes(PinnedCheck(h, pins, server), tools)
  }

  function ListedChanges(h: Hashes, pins: Pins, server: string, baseline: Baseline, tools: seq<Tool>): seq<PinChange> {
    Changes(MidCheck(h, pins, server, baseline), tools)
  }

  predicate Lists(tools: seq<Tool>, name: string) {
    exists i | 0 <= i < |tools| :: tools[i].name == name
  }

  /** The report of a mid-session check: the changes of the listed tools in order, then one critical
      entry for each baseline tool that is gone, in any order. */
  ghost predicate MidReport(h: Hashes, pins: Pins, server: string, baseline: Baseline, tools: seq<Tool>, changes: seq<PinChange>) {
    var listed := ListedChanges(h, pins, server, baseline, tools);
    && listed <= changes
    && (forall i | |listed| <= i < |changes| ::
          var c := changes[i];
          c.tool in baseline && !Lists(tools, c.tool) && c == PinChange(c.tool, Critical, baseline[c.tool], "", true))
    && (forall name | name in baseline && !Lists(tools, name) ::
          exists i :: |listed| <= i < |changes| && changes[i].tool == name)
    && (forall i, j | |listed| <= i < j < |changes| :: changes[i].tool != changes[j].tool)
  }

  // ----- The store --------------------------------------------------------------------------

  class ToolPinStore {
    const hashes: Hashes
    var pins: Pins
    var sessionBaseline: map<string, Baseline>

    constructor (hashes: Hashes)
      ensures this.hashes == hashes && pins == map[] && sessionBaseline == map[]
    {
      this.hashes := hashes;
      pins, sessionBaseline := map[], map[];
    }

    /** Reads the pin file; a missing file is an empty one, and an unreadable one leaves the store as it is. */
    method Load(file: Result<Option<Pins>, string>) returns (ok: bool)
      modifies `pins
      ensures ok <==> file.Ok?
      ensures pins == Loaded(old(pins), file)
      ensures file.Err? ==> pins == old(pins)
      ensures file == Ok(None) ==> pins == map[]
      ensures file.Ok? && file.value.Some? ==> pins == file.value.value
    {
      match file
      case Err(_) => ok := false;
      case Ok(None) => pins, ok := map[], true;
      case Ok(Some(p)) => pins, ok := p, true;
    }

    method Pin(server: string, tool: Tool)
      modifies `pins
      ensures pins == old(pins)[server + "::" + tool.name :=
                                PinEntry(hashes.desc(tool.description), hashes.schema(tool.schema), hashes.full(tool), tool.description)]
    {
      pins := pins[PinKey(server, tool.name) := EntryFor(hashes, tool)];
    }

    method PinAll(server: string, tools: seq<Tool>)
      modifies `pins
      ensures pins == PinnedAll(hashes, old(pins), server, tools)
    {
      for i := 0 to |tools|
        invariant pins == PinnedAll(hashes, old(pins), server, tools[..i])
      {
        Pin(server, tools[i]);
        assert tools[..i + 1][..i] == tools[..i];
      }
      assert tools[..|tools|] == tools;
    }

    method SetSessionBaseline(server: string, tools: seq<Tool>)
      modifies `sessionBaseline
      ensures sessionBaseline == old(sessionBaseline)[server := BaselineOf(hashes, tools)]
    {
      var baseline: Baseline := map[];
      for i := 0 to |tools|
        invariant baseline == BaselineOf(hashes, tools[..i])
      {
        baseline := baseline[tools[i].name := hashes.full(tools[i])];
        assert tools[..i + 1][..i] == tools[..i];
      }
      assert tools[..|tools|] == tools;
      sessionBaseline := sessionBaseline[server := baseline];
    }

    method CheckBetweenSession(server: string, tools: seq<Tool>) returns (changes: seq<PinChange>)
      ensures changes == PinnedChanges(hashes, pins, server, tools)
    {
      changes := [];
      for i := 0 to |tools|
        invariant changes == PinnedChanges(hashes, pins, server, tools[..i])
      {
        assert tools[..i + 1][..i] == tools[..i];
        var key := PinKey(server, tools[i].name);
        if key !in pins {
          continue;
        }
        var entry, fullHash := pins[key], hashes.full(tools[i]);
        if entry.fullHash == fullHash {
          continue;
        }
        var severity := Classify(entry, hashes.schema(tools[i].schema));
        changes := changes + [PinChange(tools[i].name, severity, entry.fullHash, fullHash, false)];
      }
      assert tools[..|tools|] == tools;
    }

    /** Compares a list with the session baseline; without a baseline nothing can be detected. */
    method CheckMidSession(server: string, tools: seq<Tool>) returns (changes: seq<PinChange>)
      ensures if server in sessionBaseline
              then MidReport(hashes, pins, server, sessionBaseline[server], tools, changes)
              else changes == []
    {
      changes := [];
      if server !in sessionBaseline {
        return;
      }
      var baseline := sessionBaseline[server];
      var current := {};
      for i := 0 to |tools|
        invariant changes == ListedChanges(hashes, pins, server, baseline, tools[..i])
        invariant forall name :: name in current <==> Lists(tools[..i], name)
      {
        assert tools[..i + 1][..i] == tools[..i];
        ListsMore(tools, i);
        current := current + {tools[i].name};
        var change := MidChange(hashes, pins, server, baseline, tools[i]);
        if change.Some? {
          changes := changes + [change.value];
        }
      }
      assert tools[..|tools|] == tools;
      changes := AppendRemoved(baseline, tools, current, changes);
    }

    /** Adds one entry for each baseline tool that is no longer listed. */
    method AppendRemoved(baseline: Baseline, tools: seq<Tool>, current: set<string>, listed: seq<PinChange>)
      returns (changes: seq<PinChange>)
      requires forall name :: name in current <==> Lists(tools, name)
      ensures listed <= changes
      ensures forall i | |listed| <= i < |changes| ::
                var c := changes[i];
                c.tool in baseline && !Lists(tools, c.tool) && c == PinChange(c.tool, Critical, baseline[c.tool], "", true)
      ensures forall name | name in baseline && !Lists(tools, name) ::
                exists i :: |listed| <= i < |changes| && changes[i].tool == name
      ensures forall i, j | |listed| <= i < j < |changes| :: changes[i].tool != changes[j].tool
    {
      changes := listed;
      var todo := baseline.Keys;
      while todo != {}
        invariant todo <= baseline.Keys
        invariant listed <= changes
        invariant forall i | |listed| <= i < |changes| ::
                    var c := changes[i];
                    && c.tool in baseline && c.tool !in todo && !Lists(tools, c.tool)
                    && c == PinChange(c.tool, Critical, baseline[c.tool], "", true)
        invariant forall name | name in baseline && name !in todo && !Lists(tools, name) ::
                    exists i :: |listed| <= i < |changes| && changes[i].tool == name
        invariant forall i, j | |listed| <= i < j < |changes| :: changes[i].tool != changes[j].tool
        decreases |todo|
      {
        var name :| name in todo;
        todo := todo - {name};
        if name !in current {
          ghost var before := changes;
          changes := changes + [PinChange(name, Critical, baseline[name], "", true)];
          assert changes[|before|].tool == name;
          assert forall i | 0 <= i < |before| :: changes[i] == before[i];
        }
      }
    }

    /** Whether any pin belongs to the server. */
    predicate ServerHasPins(server: string)
      reads this
    {
      HasPins(pins, server)
    }
  }

  lemma ListsMore(tools: seq<Tool>, i: nat)
    requires i < |tools|
    ensures forall name :: Lists(tools[..i + 1], name) <==> Lists(tools[..i], name) || name == tools[i].name
  {
    forall name ensures Lists(tools[..i + 1], name) <==> Lists(tools[..i], name) || name == tools[i].name {
      if Lists(tools[..i], name) {
        var k :| 0 <= k < i && tools[..i][k].name == name;
        assert tools[..i + 1][k].name == name;
      }
      if name == tools[i].name {
        assert tools[..i + 1][i].name == name;
      }
      if Lists(tools[..i + 1], name) {
        var k :| 0 <= k < i + 1 && tools[..i + 1][k].name == name;
        assert k < i ==> tools[..i][k].name == name;
      }
    }
  }

  predicate HasPins(pins: Pins, server: string) {
    exists key | key in pins :: server + "::" <= key
  }

  // ----- Sessions ---------------------------------------------------------------------------

  /** The wrapper's session state on top of the store. */
  class Session {
    const store: ToolPinStore
    const server: string
    var sessionPinned: bool
    var warnings: seq<PinChange>  // between-session changes recorded
    var blocks: seq<PinChange>    // mid-session changes recorded

    constructor (store: ToolPinStore, server: string)
      ensures this.store == store && this.server == server
      ensures !sessionPinned && warnings == [] && blocks == []
    {
      this.store, this.server := store, server;
      sessionPinned, warnings, blocks := false, [], [];
    }

    /** The first list of a session; returns what is saved to the pin file, if anything. */
    method HandleFirstToolsList(file: Result<Option<Pins>, string>, tools: seq<Tool>) returns (saved: Option<Pins>)
      modifies this, store
      ensures var pins := Loaded(old(store.pins), file);
              && warnings == old(warnings) + PinnedChanges(store.hashes, pins, server, tools)
              && store.pins == AfterFirstList(store.hashes, pins, server, tools)
              && saved == SavedBy(store.hashes, pins, server, tools)
      ensures sessionPinned && blocks == old(blocks)
      ensures store.sessionBaseline == old(store.sessionBaseline)[server := BaselineOf(store.hashes, tools)]
    {
      var _ := store.Load(file);
      ghost var pins := store.pins;
      var changes := store.CheckBetweenSession(server, tools);
      saved := None;
      if changes == [] && !store.ServerHasPins(server) {
        store.PinAll(server, tools);
        saved := Some(store.pins);
      }
      warnings := warnings + changes;
      NoPinsNoChanges(store.hashes, pins, server, tools);
      store.SetSessionBaseline(server, tools);
      sessionPinned := true;
    }

    /** Any later list: every change is recorded as a block, and the list becomes the new baseline. */
    method HandleSubsequentToolsList(tools: seq<Tool>)
      modifies this, store
      ensures exists changes :: blocks == old(blocks) + changes
                && if server in old(store.sessionBaseline)
                   then MidReport(store.hashes, old(store.pins), server, old(store.sessionBaseline)[server], tools, changes)
                   else changes == []
      ensures store.sessionBaseline == old(store.sessionBaseline)[server := BaselineOf(store.hashes, tools)]
      ensures store.pins == old(store.pins) && warnings == old(warnings) && sessionPinned == old(sessionPinned)
    {
      var changes := store.CheckMidSession(server, tools);
      blocks := blocks + changes;
      store.SetSessionBaseline(server, tools);
    }
  }

  /** The pins after the first list of a session. */
  function AfterFirstList(h: Hashes, pins: Pins, server: string, tools: seq<Tool>): Pins {
    if HasPins(pins, server) then pins else PinnedAll(h, pins, server, tools)
  }

  /** The pins in memory after a load: those of the file, none without a file, and the old ones on an error. */
  function Loaded(pins: Pins, file: Result<Option<Pins>, string>): Pins {
    match file
    case Err(_) => pins
    case Ok(None) => map[]
    case Ok(Some(stored)) => stored
  }

  /** What the first list of a session writes to the pin file, if anything. */
  function SavedBy(h: Hashes, pins: Pins, server: string, tools: seq<Tool>): Option<Pins> {
    if HasPins(pins, server) then None else Some(AfterFirstList(h, pins, server, tools))
  }

  lemma PinKeyHasPrefix(server: string, tool: string)
    ensures server + "::" <= PinKey(server, tool)
  {
  }

  /** A server without pins has nothing to report. */
  lemma {:induction false} NoPinsNoChanges(h: Hashes, pins: Pins, server: string, tools: seq<Tool>)
    ensures !HasPins(pins, server) ==> PinnedChanges(h, pins, server, tools) == []
  {
    if tools != [] {
      var n := |tools| - 1;
      NoPinsNoChanges(h, pins, server, tools[..n]);
      PinKeyHasPrefix(server, tools[n].name);
    }
  }

  lemma {:induction false} PinnedAllKeys(h: Hashes, pins: Pins, server: string, tools: seq<Tool>)
    ensures forall key | key in pins && !(server + "::" <= key) ::
              key in PinnedAll(h, pins, server, tools) && PinnedAll(h, pins, server, tools)[key] == pins[key]
    ensures forall key | key in PinnedAll(h, pins, server, tools) ::
              key in pins || exists i :: 0 <= i < |tools| && key == PinKey(server, tools[i].name)
    ensures forall i | 0 <= i < |tools| :: PinKey(server, tools[i].name) in PinnedAll(h, pins, server, tools)
    ensures pins.Keys <= PinnedAll(h, pins, server, tools).Keys
  {
    if tools != [] {
      var n := |tools| - 1;
      PinnedAllKeys(h, pins, server, tools[..n]);
      PinKeyHasPrefix(server, tools[n].name);
      assert forall i | 0 <= i < n :: tools[..n][i] == tools[i];
    }
  }
}
