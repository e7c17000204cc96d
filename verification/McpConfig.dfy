/** Rewriting an MCP client's configuration so that every server starts through the proxy wrapper, the
backup of the originals, and restoring them.  JSON text is read and written elsewhere: a file holds a JSON
value, is missing, or cannot be read. */
module McpConfig {
  import opened Outcomes

  datatype Json = Null | Bool(b: bool) | Number(text: string) | Str(s: string) | Arr(items: seq<Json>) | Obj(fields: map<string, Json>)

  datatype File<T> = Missing | Unreadable | Readable(content: T)

  /** Command and arguments as decoded; `None` when the arguments are absent or null. */
  datatype Entry = Entry(command: string, args: Option<seq<string>>)

  datatype Files = Files(config: File<Json>, backup: File<map<string, Entry>>)

  datatype Outcome = Done | NothingToDo | Failed | Panicked

  const SERVERS: string := "mcpServers"

  // ----- Decoding and encoding -------------------------------------------------------------

  /** A string, where null leaves the empty string. */
  function DecodeString(raw: Json): Option<string> {
    match raw
    case Str(s) => Some(s)
    case Null => Some("")
    case _ => None
  }

  function DecodeStrings(items: seq<Json>): Option<seq<string>> {
    if items == [] then Some([])
    else
      var first := DecodeString(items[0]);
      var rest := DecodeStrings(items[1..]);
      if first.Some? && rest.Some? then Some([first.value] + rest.value) else None
  }

  function DecodeArgs(raw: Json): Option<Option<seq<string>>> {
    match raw
    case Null => Some(None)
    case Arr(items) =>
      (match DecodeStrings(items)
       case None => None
       case Some(args) => Some(Some(args)))
    case _ => None
  }

  function Field(fields: map<string, Json>, key: string): Json {
    if key in fields then fields[key] else Null
  }

  function DecodeEntry(raw: Json): Option<Entry> {
    match raw
    case Null => Some(Entry("", None))
    case Obj(fields) =>
      var command := DecodeString(Field(fields, "command"));
      var args := DecodeArgs(Field(fields, "args"));
      if command.Some? && args.Some? then Some(Entry(command.value, args.value)) else None
    case _ => None
  }

  function EncodeStrings(args: seq<string>): seq<Json> {
    if args == [] then [] else [Str(args[0])] + EncodeStrings(args[1..])
  }

  function EncodeArgs(args: Option<seq<string>>): Json {
    match args
    case None => Null
    case Some(list) => Arr(EncodeStrings(list))
  }

  /** The entry with the given command and arguments and every other field it had. */
  function Merged(raw: Json, entry: Entry): Json {
    var fields := if raw.Obj? then raw.fields else map[];
    Obj(fields["args" := EncodeArgs(entry.args)]["command" := Str(entry.command)])
  }

  function ArgsOf(entry: Entry): seq<string> {
    if entry.args.Some? then entry.args.value else []
  }

  // ----- The rewrite -----------------------------------------------------------------------

  /** A well-formed server with a command that is not the wrapper itself. */
  predicate Wrapable(self: string, raw: Json) {
    var entry := DecodeEntry(raw);
    entry.Some? && entry.value.command != "" && entry.value.command != self
  }

  function WrapperArgs(name: string, entry: Entry): seq<string> {
    ["proxy", "wrap-mcp", "--skill-id", name, "--"] + [entry.command] + ArgsOf(entry)
  }

  function Wrapped(self: string, name: string, raw: Json): Json
    requires Wrapable(self, raw)
  {
    Merged(raw, Entry(self, Some(WrapperArgs(name, DecodeEntry(raw).value))))
  }

  /** The servers with those named in `done` wrapped where they can be. */
  function Wrap(self: string, servers: map<string, Json>, done: set<string>): map<string, Json> {
    map name | name in servers ::
      if name in done && Wrapable(self, servers[name]) then Wrapped(self, name, servers[name]) else servers[name]
  }

  function Originals(self: string, servers: map<string, Json>, done: set<string>): map<string, Entry> {
    map name | name in servers && name in done && Wrapable(self, servers[name]) :: DecodeEntry(servers[name]).value
  }

  lemma {:induction false} WrapNext(self: string, servers: map<string, Json>, done: set<string>, name: string)
    requires name in servers && name !in done
    ensures Wrap(self, servers, done).Keys == servers.Keys && Wrap(self, servers, done)[name] == servers[name]
    ensures Wrap(self, servers, done + {name})
         == if Wrapable(self, servers[name]) then Wrap(self, servers, done)[name := Wrapped(self, name, servers[name])]
            else Wrap(self, servers, done)
    ensures Originals(self, servers, done + {name})
         == if Wrapable(self, servers[name]) then Originals(self, servers, done)[name := DecodeEntry(servers[name]).value]
            else Originals(self, servers, done)
  {
    hide Wrapable, Wrapped;
  }

  function ServersOf(config: File<Json>): Option<map<string, Json>> {
    if !config.Readable? || !config.content.Obj? || SERVERS !in config.content.fields then None
    else match config.content.fields[SERVERS]
      case Obj(servers) => Some(servers)
      case Null => Some(map[])
      case _ => None
  }

  function WithServers(config: File<Json>, servers: map<string, Json>): File<Json>
    requires ServersOf(config).Some?
  {
    if config.content.fields[SERVERS].Null? then config
    else Readable(Obj(config.content.fields[SERVERS := Obj(servers)]))
  }

  predicate AnythingToWrap(self: string, servers: map<string, Json>) {
    Originals(self, servers, servers.Keys) != map[]
  }

  /** The files after an install; a failed write of the backup or of the configuration stops it there. */
  function Installed(f: Files, self: string, backupWrites: bool, configWrites: bool): Files {
    match ServersOf(f.config)
    case None => f
    case Some(servers) =>
      if !AnythingToWrap(self, servers) || !backupWrites then f
      else
        var kept := if f.backup.Readable? then f.backup.content else map[];
        var backed := f.(backup := Readable(kept + Originals(self, servers, servers.Keys)));
        if configWrites then backed.(config := WithServers(f.config, Wrap(self, servers, servers.Keys))) else backed
  }

  // ----- The restoration -------------------------------------------------------------------

  function RestoreAll(servers: map<string, Json>, backup: map<string, Entry>): map<string, Json> {
    map name | name in servers :: if name in backup then Merged(servers[name], backup[name]) else servers[name]
  }

  /** A server that has become null makes the program crash before it writes anything. */
  predicate NullServer(servers: map<string, Json>, backup: map<string, Entry>) {
    exists name :: name in servers && name in backup && servers[name].Null?
  }

  function Uninstalled(f: Files, configWrites: bool, removes: bool): Files {
    match ServersOf(f.config)
    case None => f
    case Some(servers) =>
      if !f.backup.Readable? || NullServer(servers, f.backup.content) || !configWrites then f
      else Files(WithServers(f.config, RestoreAll(servers, f.backup.content)), if removes then Missing else f.backup)
  }

  lemma {:induction false} StartWrap(self: string, servers: map<string, Json>)
    ensures Wrap(self, servers, servers.Keys - servers.Keys) == servers
    ensures Originals(self, servers, servers.Keys - servers.Keys) == map[]
    ensures servers == map[] ==> Originals(self, servers, servers.Keys) == map[]
  {
  }

  /** The entries of this run added to those of earlier runs. */
  method MergeBackup(existing: map<string, Entry>, saved: map<string, Entry>) returns (merged: map<string, Entry>)
    ensures merged == existing + saved
  {
    merged := existing;
    var names := saved.Keys;
    while names != {}
      invariant names <= saved.Keys
      invariant merged.Keys == existing.Keys + (saved.Keys - names)
      invariant forall name | name in merged ::
          merged[name] == if name in saved && name !in names then saved[name] else existing[name]
      decreases |names|
    {
      var name :| name in names;
      names := names - {name};
      merged := merged[name := saved[name]];
    }
  }

  class ClientConfig {
    var config: File<Json>
    var backup: File<map<string, Entry>>

    function State(): Files
      reads this
    {
      Files(config, backup)
    }

    constructor (config: File<Json>)
      ensures State() == Files(config, Missing)
    {
      this.config, backup := config, Missing;
    }

    method Install(self: string, backupWrites: bool, configWrites: bool) returns (outcome: Outcome)
      modifies this
      ensures State() == Installed(old(State()), self, backupWrites, configWrites)
      ensures outcome.Done? <==> ServersOf(old(config)).Some? && AnythingToWrap(self, ServersOf(old(config)).value) && backupWrites && configWrites
      ensures outcome.NothingToDo? <==> ServersOf(old(config)).Some? && !AnythingToWrap(self, ServersOf(old(config)).value)
    {
      hide DecodeEntry, Merged, ServersOf, WithServers, SERVERS, Wrap, Originals;
      var found := ServersOf(config);
      if found.None? {
        return Failed;
      }
      var servers := found.value;
      ghost var before := servers;
      StartWrap(self, before);
      if servers == map[] {
        return NothingToDo;
      }
      var saved: map<string, Entry> := map[];
      var rewritten := 0;
      var todo := servers.Keys;
      while todo != {}
        invariant todo <= before.Keys
        invariant servers == Wrap(self, before, before.Keys - todo)
        invariant saved == Originals(self, before, before.Keys - todo)
        invariant rewritten >= 0 && (rewritten == 0 <==> saved == map[])
        invariant config == old(config) && backup == old(backup)
        decreases |todo|
      {
        var name :| name in todo;
        WrapNext(self, before, before.Keys - todo, name);
        assert before.Keys - (todo - {name}) == before.Keys - todo + {name};
        todo := todo - {name};
        var raw := servers[name];
        var entry := DecodeEntry(raw);
        if entry.None? || entry.value.command == "" || entry.value.command == self {
          continue;
        }
        saved := saved[name := entry.value];
        var args := ["proxy", "wrap-mcp", "--skill-id", name, "--"];
        args := args + [entry.value.command];
        args := args + ArgsOf(entry.value);
        servers := servers[name := Merged(raw, Entry(self, Some(args)))];
        rewritten := rewritten + 1;
        assert name in saved;
      }
      assert before.Keys - todo == before.Keys;
      if rewritten == 0 {
        return NothingToDo;
      }
      var existing: map<string, Entry> := map[];
      if backup.Readable? {
        existing := backup.content;
      }
      existing := MergeBackup(existing, saved);
      if !backupWrites {
        return Failed;
      }
      backup := Readable(existing);
      if !configWrites {
        return Failed;
      }
      config := WithServers(config, servers);
      return Done;
    }

    method Uninstall(configWrites: bool, removes: bool) returns (outcome: Outcome)
      modifies this
      ensures State() == Uninstalled(old(State()), configWrites, removes)
      ensures outcome.Done? || outcome.Panicked? ==> ServersOf(old(config)).Some? && old(backup).Readable?
      ensures ServersOf(old(config)).Some? && old(backup).Readable? ==>
                && (outcome.Panicked? <==> NullServer(ServersOf(old(config)).value, old(backup).content))
                && (outcome.Done? <==> !NullServer(ServersOf(old(config)).value, old(backup).content) && configWrites)
    {
      if !backup.Readable? {
        return Failed;
      }
      var found := ServersOf(config);
      if found.None? {
        return Failed;
      }
      var servers := found.value;
      ghost var before := servers;
      var todo := backup.content.Keys;
      while todo != {}
        invariant todo <= backup.content.Keys && servers.Keys == before.Keys
        invariant forall name | name in before ::
            servers[name] == if name in backup.content && name !in todo then Merged(before[name], backup.content[name]) else before[name]
        invariant forall name | name in before && name in backup.content && name !in todo :: !before[name].Null?
        decreases |todo|
      {
        var name :| name in todo;
        todo := todo - {name};
        if name !in servers {
          continue;
        }
        if servers[name].Null? {
          assert NullServer(before, backup.content);
          return Panicked;
        }
        servers := servers[name := Merged(servers[name], backup.content[name])];
      }
      assert servers == RestoreAll(before, backup.content);
      if !configWrites {
        return Failed;
      }
      config := WithServers(config, servers);
      if removes {
        backup := Missing;
      }
      return Done;
    }
  }

  // ----- Theorems --------------------------------------------------------------------------

  lemma {:induction false} DecodeEncoded(args: seq<string>)
    ensures DecodeStrings(EncodeStrings(args)) == Some(args)
  {
    if args != [] {
      DecodeEncoded(args[1..]);
      var encoded := EncodeStrings(args);
      assert encoded[0] == Str(args[0]) && encoded[1..] == EncodeStrings(args[1..]);
      assert args == [args[0]] + args[1..];
    }
  }

  /** A merged entry decodes to what was put in. */
  lemma {:induction false} DecodeMerged(raw: Json, entry: Entry)
    ensures DecodeEntry(Merged(raw, entry)) == Some(entry)
  {
    if entry.args.Some? {
      DecodeEncoded(entry.args.value);
    }
  }

  /** What the client runs for the entry: the command and its arguments. */
  function CommandLine(entry: Entry): (string, seq<string>) {
    (entry.command, ArgsOf(entry))
  }

  /** Flags of the wrapper command up to "--"; the rest is positional. */
  function SplitFlags(argv: seq<string>): Option<(Option<string>, seq<string>)> {
    if argv == [] then Some((None, []))
    else if argv[0] == "--" then Some((None, argv[1..]))
    else if argv[0] == "--skill-id" && |argv| >= 2 then
      (match SplitFlags(argv[2..])
       case None => None
       case Some(rest) => Some((if rest.0.Some? then rest.0 else Some(argv[1]), rest.1)))
    else None
  }

  /** What the wrapper runs: the first positional argument with the others. */
  function Wraps(argv: seq<string>): Option<(string, string, seq<string>)> {
    if |argv| < 2 || argv[0] != "proxy" || argv[1] != "wrap-mcp" then None
    else match SplitFlags(argv[2..])
      case None => None
      case Some(parsed) =>
        if parsed.1 == [] then None
        else Some((if parsed.0.Some? then parsed.0.value else "", parsed.1[0], parsed.1[1..]))
  }

  /** A wrapped entry starts the wrapper, which runs exactly the original command line, whatever the server's name. */
  lemma {:induction false} WrappedRunsOriginal(self: string, name: string, raw: Json)
    requires Wrapable(self, raw)
    ensures DecodeEntry(Wrapped(self, name, raw)).Some?
    ensures var (program, argv) := CommandLine(DecodeEntry(Wrapped(self, name, raw)).value);
            var (command, args) := CommandLine(DecodeEntry(raw).value);
            program == self && Wraps(argv) == Some((name, command, args))
  {
    var entry := DecodeEntry(raw).value;
    hide DecodeEntry, Merged, WrapperArgs, Wraps;
    DecodeMerged(raw, Entry(self, Some(WrapperArgs(name, entry))));
    WrapperArgsParse(name, entry);
  }

  lemma {:induction false} WrapperArgsParse(name: string, entry: Entry)
    ensures Wraps(WrapperArgs(name, entry)) == Some((name, entry.command, ArgsOf(entry)))
  {
    var argv, positional := WrapperArgs(name, entry), [entry.command] + ArgsOf(entry);
    assert argv == ["proxy", "wrap-mcp"] + (["--skill-id", name, "--"] + positional);
    FlagsParse(name, positional);
    hide SplitFlags, WrapperArgs;
    assert argv[2..] == ["--skill-id", name, "--"] + positional;
  }

  lemma {:induction false} FlagsParse(name: string, positional: seq<string>)
    ensures SplitFlags(["--skill-id", name, "--"] + positional) == Some((Some(name), positional))
  {
    var argv := ["--skill-id", name, "--"] + positional;
    assert argv[2..] == ["--"] + positional;
    assert (["--"] + positional)[1..] == positional;
    assert SplitFlags(["--"] + positional) == Some((None, positional));
    assert argv[0] != "--" by {
      assert |argv[0]| == 10;
    }
  }

  // ----- Round trip ------------------------------------------------------------------------

  /** How a server of the pristine configuration may look now. */
  predicate Tracks(self: string, name: string, original: Json, now: Json, backup: map<string, Entry>) {
    || (now == original && (name in backup ==> Wrapable(self, original) && backup[name] == DecodeEntry(original).value))
    || (Wrapable(self, original) && now == Wrapped(self, name, original)
        && name in backup && backup[name] == DecodeEntry(original).value)
  }

  function BackupOf(f: Files): map<string, Entry> {
    if f.backup.Readable? then f.backup.content else map[]
  }

  /** The files are those of a pristine configuration, some of whose servers may be wrapped. */
  ghost predicate Follows(self: string, pristine: File<Json>, f: Files) {
    && ServersOf(pristine).Some? && ServersOf(f.config).Some?
    && f.config == WithServers(pristine, ServersOf(f.config).value)
    && ServersOf(f.config).value.Keys == ServersOf(pristine).value.Keys
    && !f.backup.Unreadable? && BackupOf(f).Keys <= ServersOf(pristine).value.Keys
    && forall name | name in ServersOf(pristine).value ::
         Tracks(self, name, ServersOf(pristine).value[name], ServersOf(f.config).value[name], BackupOf(f))
  }

  datatype Event =
    | Add(name: string, server: Json)
    | RunInstall(backupWrites: bool, configWrites: bool)

  function AddTo(config: File<Json>, name: string, server: Json): File<Json>
    requires ServersOf(config).Some?
  {
    Readable(Obj(config.content.fields[SERVERS := Obj(ServersOf(config).value[name := server])]))
  }

  /** A server is added to the pristine configuration and to the actual one; an install touches only the latter. */
  predicate Step(self: string, pristine: File<Json>, f: Files, e: Event, pristine': File<Json>, f': Files) {
    && ServersOf(pristine).Some? && ServersOf(f.config).Some?
    && match e
       case Add(name, server) =>
         && name !in ServersOf(f.config).value
         && pristine' == AddTo(pristine, name, server) && f' == f.(config := AddTo(f.config, name, server))
       case RunInstall(backupWrites, configWrites) =>
         pristine' == pristine && f' == Installed(f, self, backupWrites, configWrites)
  }

  predicate IsRun(self: string, start: File<Json>, events: seq<Event>, pristine: seq<File<Json>>, files: seq<Files>) {
    && |pristine| == |files| == |events| + 1
    && ServersOf(start).Some? && pristine[0] == start && files[0] == Files(start, Missing)
    && forall k | 0 <= k < |events| :: Step(self, pristine[k], files[k], events[k], pristine[k + 1], files[k + 1])
  }

  lemma ServersOfWith(config: File<Json>, servers: map<string, Json>)
    requires ServersOf(config).Some? && servers.Keys == ServersOf(config).value.Keys
    ensures ServersOf(WithServers(config, servers)) == Some(servers)
    ensures forall other: map<string, Json> | other.Keys == servers.Keys ::
        WithServers(WithServers(config, servers), other) == WithServers(config, other)
  {
    if config.content.fields[SERVERS].Null? {
      assert servers == map[];
    } else {
      forall other: map<string, Json> | other.Keys == servers.Keys
        ensures WithServers(WithServers(config, servers), other) == WithServers(config, other)
      {
        var fields := config.content.fields;
        assert fields[SERVERS := Obj(servers)][SERVERS := Obj(other)] == fields[SERVERS := Obj(other)];
      }
    }
  }

  lemma {:induction false} WrappedIsWrapper(self: string, name: string, raw: Json)
    requires Wrapable(self, raw)
    ensures DecodeEntry(Wrapped(self, name, raw)) == Some(Entry(self, Some(WrapperArgs(name, DecodeEntry(raw).value))))
    ensures !Wrapable(self, Wrapped(self, name, raw))
  {
    DecodeMerged(raw, Entry(self, Some(WrapperArgs(name, DecodeEntry(raw).value))));
  }

  /** Merging overwrites whatever an earlier merge put in. */
  lemma {:induction false} MergedTwice(raw: Json, first: Entry, second: Entry)
    ensures Merged(Merged(raw, first), second) == Merged(raw, second)
  {
    var fields := if raw.Obj? then raw.fields else map[];
    var a, c := EncodeArgs(first.args), EncodeArgs(second.args);
    hide EncodeArgs;
    assert fields["args" := a]["command" := Str(first.command)]["args" := c]["command" := Str(second.command)]
        == fields["args" := c]["command" := Str(second.command)];
  }

  // ----- Installing --------------------------------------------------------------------------

  lemma {:induction false} TracksInstall(self: string, name: string, original: Json, now: Json, backup: map<string, Entry>,
      servers: map<string, Json>, backup': map<string, Entry>, written: bool)
    requires Tracks(self, name, original, now, backup) && name in servers && servers[name] == now
    requires backup' == backup + Originals(self, servers, servers.Keys)
    ensures Tracks(self, name, original, if written then Wrap(self, servers, servers.Keys)[name] else now, backup')
  {
    if Wrapable(self, original) {
      WrappedIsWrapper(self, name, original);
    }
    hide Wrapped, WrapperArgs, DecodeEntry;
    assert name in Originals(self, servers, servers.Keys) <==> Wrapable(self, now);
  }

  lemma {:induction false} InstallFollows(self: string, pristine: File<Json>, f: Files, backupWrites: bool, configWrites: bool)
    requires Follows(self, pristine, f)
    ensures Follows(self, pristine, Installed(f, self, backupWrites, configWrites))
  {
    hide Wrapped, Wrapable, WrapperArgs, DecodeEntry, Tracks;
    var f', servers := Installed(f, self, backupWrites, configWrites), ServersOf(f.config).value;
    if AnythingToWrap(self, servers) && backupWrites {
      var wrapped := Wrap(self, servers, servers.Keys);
      ServersOfWith(f.config, wrapped);
      ServersOfWith(pristine, servers);
      assert BackupOf(f') == BackupOf(f) + Originals(self, servers, servers.Keys);
      forall name | name in servers
        ensures Tracks(self, name, ServersOf(pristine).value[name], if configWrites then wrapped[name] else servers[name], BackupOf(f'))
      {
        TracksInstall(self, name, ServersOf(pristine).value[name], servers[name], BackupOf(f), servers, BackupOf(f'), configWrites);
      }
    }
  }

  lemma {:induction false} AddFollows(self: string, pristine: File<Json>, f: Files, name: string, server: Json)
    requires Follows(self, pristine, f) && name !in ServersOf(f.config).value
    ensures Follows(self, AddTo(pristine, name, server), f.(config := AddTo(f.config, name, server)))
  {
    hide Wrapped, Wrapable, WrapperArgs, DecodeEntry;
    var servers := ServersOf(f.config).value;
    var p', c' := AddTo(pristine, name, server), AddTo(f.config, name, server);
    assert ServersOf(c') == Some(servers[name := server]);
    assert ServersOf(p') == Some(ServersOf(pristine).value[name := server]);
    var a, b := pristine.content.fields, Obj(servers[name := server]);
    assert a[SERVERS := Obj(servers)][SERVERS := b] == a[SERVERS := b];
    assert a[SERVERS := Obj(ServersOf(pristine).value[name := server])][SERVERS := b] == a[SERVERS := b];
  }

  lemma {:induction false} RunFollows(self: string, start: File<Json>, events: seq<Event>, pristine: seq<File<Json>>, files: seq<Files>, k: nat)
    requires IsRun(self, start, events, pristine, files) && k <= |events|
    ensures Follows(self, pristine[k], files[k])
  {
    if k == 0 {
      ServersOfWith(start, ServersOf(start).value);
      WithSame(start);
    } else {
      RunFollows(self, start, events, pristine, files, k - 1);
      assert Step(self, pristine[k - 1], files[k - 1], events[k - 1], pristine[k], files[k]);
      hide Follows;
      match events[k - 1]
      case Add(name, server) => AddFollows(self, pristine[k - 1], files[k - 1], name, server);
      case RunInstall(b, c) => InstallFollows(self, pristine[k - 1], files[k - 1], b, c);
    }
  }

  lemma WithSame(config: File<Json>)
    requires ServersOf(config).Some?
    ensures WithServers(config, ServersOf(config).value) == config
  {
    var fields := config.content.fields;
    if fields[SERVERS].Obj? {
      assert fields[SERVERS := Obj(fields[SERVERS].fields)] == fields;
    }
  }

  // ----- Uninstalling ------------------------------------------------------------------------

  /** The same server as far as any reader of command and arguments can tell, and every other field as it was. */
  predicate SameServer(original: Json, now: Json) {
    && DecodeEntry(now) == DecodeEntry(original)
    && (now == original || (original.Obj? && now.Obj? && now.fields - {"args"} == original.fields - {"args"}))
  }

  /** The arguments were written out, as a list of strings or as null. */
  predicate PlainArgs(original: Json)
    requires DecodeEntry(original).Some? && original.Obj?
  {
    "args" in original.fields && original.fields["args"] == EncodeArgs(DecodeEntry(original).value.args)
  }

  lemma {:induction false} MergedOriginal(self: string, original: Json)
    requires Wrapable(self, original)
    ensures original.Obj?
    ensures SameServer(original, Merged(original, DecodeEntry(original).value))
    ensures Merged(original, DecodeEntry(original).value) == original <==> PlainArgs(original)
  {
    var entry := DecodeEntry(original).value;
    DecodeMerged(original, entry);
    assert "command" in original.fields && original.fields["command"] == Str(entry.command);
    var now := Merged(original, entry);
    var a := EncodeArgs(entry.args);
    assert now.fields == original.fields["args" := a]["command" := Str(entry.command)];
    hide DecodeEntry, EncodeArgs, Merged;
    assert now.fields - {"args"} == original.fields - {"args"};
    if PlainArgs(original) {
      assert now.fields == original.fields;
    }
  }

  lemma {:induction false} RestoreTracked(self: string, name: string, original: Json, now: Json, backup: map<string, Entry>)
    requires Tracks(self, name, original, now, backup)
    ensures name in backup ==> !now.Null? && Wrapable(self, original) && Merged(now, backup[name]) == Merged(original, DecodeEntry(original).value)
    ensures name !in backup ==> now == original
  {
    if name in backup {
      MergedOriginal(self, original);
      if now != original {
        MergedTwice(original, Entry(self, Some(WrapperArgs(name, DecodeEntry(original).value))), backup[name]);
      }
    }
  }

  /** After any sequence of installs and additions, with failures between writing the backup and the
      configuration, one uninstall gives back every server and every other key of the configuration; a server
      comes back to the letter exactly when it was never backed up or its arguments were written out. */
  lemma {:induction false} RoundTrip(self: string, start: File<Json>, events: seq<Event>, pristine: seq<File<Json>>, files: seq<Files>, removes: bool)
    requires IsRun(self, start, events, pristine, files)
    ensures var k := |events|;
            var original, after := ServersOf(pristine[k]), ServersOf(Uninstalled(files[k], true, removes).config);
            && original.Some? && after.Some? && after.value.Keys == original.value.Keys
            && Uninstalled(files[k], true, removes).config == WithServers(pristine[k], after.value)
            && (forall name | name in original.value :: SameServer(original.value[name], after.value[name]))
            && (forall name | name in original.value && name in BackupOf(files[k]) ::
                  after.value[name] == original.value[name] <==> BackedUpPlain(original.value[name]))
            && (forall name | name in original.value && name !in BackupOf(files[k]) :: after.value[name] == original.value[name])
  {
    var k := |events|;
    RunFollows(self, start, events, pristine, files, k);
    UninstallFollowed(self, pristine[k], files[k], removes);
  }

  predicate BackedUpPlain(original: Json) {
    original.Obj? && DecodeEntry(original).Some? && PlainArgs(original)
  }

  lemma {:induction false} UninstallFollowed(self: string, pristine: File<Json>, f: Files, removes: bool)
    requires Follows(self, pristine, f)
    ensures var original, after := ServersOf(pristine), ServersOf(Uninstalled(f, true, removes).config);
            && original.Some? && after.Some? && after.value.Keys == original.value.Keys
            && Uninstalled(f, true, removes).config == WithServers(pristine, after.value)
            && (forall name | name in original.value :: SameServer(original.value[name], after.value[name]))
            && (forall name | name in original.value && name in BackupOf(f) ::
                  after.value[name] == original.value[name] <==> BackedUpPlain(original.value[name]))
            && (forall name | name in original.value && name !in BackupOf(f) :: after.value[name] == original.value[name])
  {
    hide Wrapable, DecodeEntry, Merged, Tracks, PlainArgs;
    var original, servers, backup := ServersOf(pristine).value, ServersOf(f.config).value, BackupOf(f);
    forall name | name in original
      ensures name in backup ==> !servers[name].Null? && BackedUpPlain(original[name]) == (Merged(servers[name], backup[name]) == original[name])
      ensures SameServer(original[name], RestoreAll(servers, backup)[name])
      ensures name !in backup ==> servers[name] == original[name]
    {
      RestoreTracked(self, name, original[name], servers[name], backup);
      if name in backup {
        MergedOriginal(self, original[name]);
        WrapableDecodes(self, original[name]);
      }
    }
    ServersOfWith(f.config, RestoreAll(servers, backup));
    ServersOfWith(pristine, servers);
    WithSame(f.config);
    if f.backup.Readable? {
      assert !NullServer(servers, backup);
    } else {
      assert RestoreAll(servers, backup) == servers;
    }
  }

  lemma WrapableDecodes(self: string, raw: Json)
    requires Wrapable(self, raw)
    ensures DecodeEntry(raw).Some?
  {
  }

  // ----- A second install ------------------------------------------------------------------

  /** Right after a complete install, another one changes nothing. */
  lemma {:induction false} SecondInstallChangesNothing(f: Files, self: string, backupWrites: bool, configWrites: bool)
    ensures var once := Installed(f, self, true, true);
            Installed(once, self, backupWrites, configWrites) == once
  {
    if ServersOf(f.config).Some? {
      var servers := ServersOf(f.config).value;
      var wrapped := Wrap(self, servers, servers.Keys);
      ServersOfWith(f.config, wrapped);
      forall name | name in servers
        ensures !Wrapable(self, wrapped[name])
      {
        if Wrapable(self, servers[name]) {
          WrappedIsWrapper(self, name, servers[name]);
        }
      }
      hide Wrapable;
      assert Originals(self, wrapped, wrapped.Keys) == map[];
    }
  }

  /** Two installs under different wrapper paths: the second takes the first wrapper for the original, so that
      uninstalling brings a wrapped server back exactly when the path had not moved. */
  lemma {:induction false} MovedWrapperLosesOriginal(config: File<Json>, first: string, second: string, name: string)
    requires ServersOf(config).Some? && name in ServersOf(config).value
    requires Wrapable(first, ServersOf(config).value[name]) && first != ""
    ensures var twice := Installed(Installed(Files(config, Missing), first, true, true), second, true, true);
            var after := ServersOf(Uninstalled(twice, true, true).config);
            && after.Some? && name in after.value
            && (DecodeEntry(after.value[name]) == DecodeEntry(ServersOf(config).value[name]) <==> first == second)
  {
    var servers := ServersOf(config).value;
    assert name in Originals(first, servers, servers.Keys);
    InstalledTwice(config, first, second);
    MovedServer(servers, first, second, name);
  }

  /** A complete install, whether or not it had anything to do. */
  lemma {:induction false} InstallEffect(f: Files, self: string)
    requires ServersOf(f.config).Some?
    ensures var g, servers := Installed(f, self, true, true), ServersOf(f.config).value;
            && ServersOf(g.config) == Some(Wrap(self, servers, servers.Keys))
            && BackupOf(g) == BackupOf(f) + Originals(self, servers, servers.Keys)
            && (f.backup.Readable? || AnythingToWrap(self, servers) ==> g.backup.Readable?)
  {
    hide Wrapped, Wrapable, DecodeEntry, Merged;
    var servers := ServersOf(f.config).value;
    ServersOfWith(f.config, Wrap(self, servers, servers.Keys));
    if !AnythingToWrap(self, servers) {
      forall name | name in servers
        ensures !Wrapable(self, servers[name])
      {
        assert name !in Originals(self, servers, servers.Keys);
      }
      assert Wrap(self, servers, servers.Keys) == servers;
    }
  }

  lemma {:induction false} InstalledTwice(config: File<Json>, first: string, second: string)
    requires ServersOf(config).Some? && AnythingToWrap(first, ServersOf(config).value)
    ensures var twice := Installed(Installed(Files(config, Missing), first, true, true), second, true, true);
            ServersOf(Uninstalled(twice, true, true).config) == Some(RestoredTwice(ServersOf(config).value, first, second))
  {
    hide Wrap, Originals, Merged, AnythingToWrap, Installed, NullServer;
    var servers := ServersOf(config).value;
    var once := Installed(Files(config, Missing), first, true, true);
    InstallEffect(Files(config, Missing), first);
    InstallEffect(once, second);
    NoNullBackedUp(first, second, servers);
    var twice := Installed(once, second, true, true);
    assert map[] + Originals(first, servers, servers.Keys) == Originals(first, servers, servers.Keys);
    ServersOfWith(twice.config, RestoreAll(ServersOf(twice.config).value, BackupOf(twice)));
  }

  function RestoredTwice(servers: map<string, Json>, first: string, second: string): map<string, Json> {
    var once := Wrap(first, servers, servers.Keys);
    RestoreAll(Wrap(second, once, once.Keys), Originals(first, servers, servers.Keys) + Originals(second, once, once.Keys))
  }

  lemma {:induction false} MovedServer(servers: map<string, Json>, first: string, second: string, name: string)
    requires name in servers && Wrapable(first, servers[name]) && first != ""
    ensures var after := RestoredTwice(servers, first, second);
            name in after && (DecodeEntry(after[name]) == DecodeEntry(servers[name]) <==> first == second)
  {
    var once := Wrap(first, servers, servers.Keys);
    var twice := Wrap(second, once, once.Keys);
    var backup := Originals(first, servers, servers.Keys) + Originals(second, once, once.Keys);
    var raw := servers[name];
    WrappedIsWrapper(first, name, raw);
    assert Wrapable(second, once[name]) <==> first != second;
    hide Wrapped, DecodeEntry, Merged;
    assert backup[name] == if first == second then DecodeEntry(raw).value else DecodeEntry(once[name]).value;
    DecodeMerged(twice[name], backup[name]);
  }

  lemma {:induction false} NoNullBackedUp(first: string, second: string, servers: map<string, Json>)
    ensures var once := Wrap(first, servers, servers.Keys);
            !NullServer(Wrap(second, once, once.Keys), Originals(first, servers, servers.Keys) + Originals(second, once, once.Keys))
  {
    var once := Wrap(first, servers, servers.Keys);
    var twice := Wrap(second, once, once.Keys);
    forall name | name in servers && (Wrapable(first, servers[name]) || Wrapable(second, once[name]))
      ensures !twice[name].Null?
    {
    }
  }

  // ----- In terms of the JSON itself -----------------------------------------------------------

  /** The field is the string; null, or no field, stands for the empty one. */
  predicate StringField(fields: map<string, Json>, key: string, s: string) {
    if key !in fields || fields[key] == Null then s == "" else fields[key] == Str(s)
  }

  /** The arguments are absent or null, or an array of strings in which null stands for an empty one. */
  predicate ArgsField(fields: map<string, Json>, args: Option<seq<string>>) {
    if "args" !in fields || fields["args"] == Null then args == None
    else
      && fields["args"].Arr? && args.Some? && |fields["args"].items| == |args.value|
      && forall i | 0 <= i < |args.value| ::
           fields["args"].items[i] == Str(args.value[i]) || (fields["args"].items[i] == Null && args.value[i] == "")
  }

  lemma {:induction false} StringsAre(items: seq<Json>, args: seq<string>)
    ensures DecodeStrings(items) == Some(args) <==>
              |items| == |args| && forall i | 0 <= i < |args| :: items[i] == Str(args[i]) || (items[i] == Null && args[i] == "")
  {
    if items != [] {
      if args != [] {
        StringsAre(items[1..], args[1..]);
        assert args == [args[0]] + args[1..];
        assert forall i | 0 < i < |args| && |items| == |args| :: items[i] == items[1..][i - 1] && args[i] == args[1..][i - 1];
        assert forall i | 0 <= i < |args| - 1 && |items| == |args| :: items[1..][i] == items[i + 1] && args[1..][i] == args[i + 1];
      }
      if DecodeStrings(items) == Some(args) {
        var first, rest := DecodeString(items[0]), DecodeStrings(items[1..]);
        assert args == [first.value] + rest.value;
        assert args[1..] == rest.value;
      }
    }
  }

  /** An entry decodes, to this command and these arguments, exactly when its fields say so. */
  lemma DecodesExactly(raw: Json, command: string, args: Option<seq<string>>)
    ensures DecodeEntry(raw) == Some(Entry(command, args)) <==>
              || (raw.Null? && command == "" && args == None)
              || (raw.Obj? && StringField(raw.fields, "command", command) && ArgsField(raw.fields, args))
  {
    if raw.Obj? && "args" in raw.fields && raw.fields["args"].Arr? && args.Some? {
      StringsAre(raw.fields["args"].items, args.value);
    }
    hide DecodeStrings;
  }

  /** What a complete install makes of each server: one with a command that is not the wrapper's starts through the
      wrapper, keeps its other fields and is backed up; every other one stays as it is. */
  lemma {:induction false} InstallsExactly(f: Files, self: string, name: string, raw: Json)
    requires ServersOf(f.config).Some? && name in ServersOf(f.config).value && ServersOf(f.config).value[name] == raw
    ensures var g, entry := Installed(f, self, true, true), DecodeEntry(raw);
            && ServersOf(g.config).Some? && name in ServersOf(g.config).value
            && var now := ServersOf(g.config).value[name];
               if entry.None? || entry.value.command == "" || entry.value.command == self then now == raw
               else
                 && raw.Obj? && now.Obj?
                 && DecodeEntry(now) == Some(Entry(self, Some(["proxy", "wrap-mcp", "--skill-id", name, "--", entry.value.command]
                                                              + if entry.value.args.Some? then entry.value.args.value else [])))
                 && now.fields - {"command", "args"} == raw.fields - {"command", "args"}
                 && g.backup.Readable? && name in g.backup.content && g.backup.content[name] == entry.value
  {
    var servers := ServersOf(f.config).value;
    InstallEffect(f, self);
    var entry := DecodeEntry(raw);
    if entry.Some? && entry.value.command != "" && entry.value.command != self {
      assert Wrapable(self, raw);
      WrappedIsWrapper(self, name, raw);
      WrapperArgsAre(name, entry.value);
      assert name in Originals(self, servers, servers.Keys);
      MergedKeeps(raw, Entry(self, Some(WrapperArgs(name, entry.value))));
    }
  }

  lemma WrapperArgsAre(name: string, entry: Entry)
    ensures WrapperArgs(name, entry)
         == ["proxy", "wrap-mcp", "--skill-id", name, "--", entry.command] + if entry.args.Some? then entry.args.value else []
  {
  }

  lemma MergedKeeps(raw: Json, entry: Entry)
    requires raw.Obj?
    ensures Merged(raw, entry).Obj? && Merged(raw, entry).fields - {"command", "args"} == raw.fields - {"command", "args"}
  {
  }

  /** A failed write of the backup leaves both files; a failed write of the configuration leaves that one. */
  lemma InstallFails(f: Files, self: string, configWrites: bool)
    ensures Installed(f, self, false, configWrites) == f
    ensures Installed(f, self, true, false).config == f.config
    ensures ServersOf(f.config).None? ==> Installed(f, self, true, true) == f
  {
  }

  /** A failed write leaves both files, and so does a missing or unreadable backup. */
  lemma UninstallFails(f: Files, configWrites: bool, removes: bool)
    ensures !configWrites || !f.backup.Readable? || ServersOf(f.config).None? ==> Uninstalled(f, configWrites, removes) == f
    ensures Uninstalled(f, true, true) == f || Uninstalled(f, true, true).backup == Missing
  {
  }
}
