/** Cache synchronisation by conditional GET: fetch, write the body, and at the end write the metadata
with the new entity tags, where every step may fail and the process may die between any two steps.
One machine covers both the threat-intelligence syncer (two resources, failures skip to the next one)
and the organisation-policy syncer (one resource, decoded before it is written, failures give up). */
module EtagSync {
  import opened Outcomes

  /** One version of a resource; an empty tag means the response carries no ETag header. */
  datatype Version = Version(body: string, tag: string)

  /** All versions of a resource so far, the current one last. */
  type Service = seq<Version>

  datatype Config = Config(resources: nat, limit: nat, extract: string -> Option<string>, stops: bool)

  const THREAT: Config := Config(2, 10 * 1024 * 1024, (body: string) => Some(body), false)

  function OrgConfig(rego: string -> Option<string>): Config {
    Config(1, 1024 * 1024, rego, true)
  }

  /** The stored tags, if there is a readable metadata file, and the cache files that exist. */
  datatype Disk = Disk(tags: Option<seq<string>>, cache: seq<Option<string>>)

  datatype Phase =
    | Idle
    | Fetching(i: nat, tags: seq<string>)
    | Writing(i: nat, tags: seq<string>, body: string, tag: string)
    | Saving(tags: seq<string>)

  datatype World = World(services: seq<Service>, disk: Disk, phase: Phase)

  datatype Answer = Failed | NotModified | Fetched(version: Version)

  datatype Event =
    | Publish(r: nat, version: Version)
    | LoseCache(r: nat)
    | LoseMetadata
    | Crash
    | Start
    | Fetch(answer: Answer)
    | Write(ok: bool)
    | Save(ok: bool)

  // ----- The steps of one sync -------------------------------------------------------------

  /** At most `limit` bytes are read, without an error when there are more. */
  function Truncate(config: Config, body: string): string {
    if |body| <= config.limit then body else body[..config.limit]
  }

  /** What the cache file of a version holds, if the response can be decoded. */
  function Content(config: Config, version: Version): Option<string> {
    config.extract(Truncate(config, version.body))
  }

  function Loaded(config: Config, disk: Disk): seq<string> {
    if disk.tags.Some? then disk.tags.value else seq(config.resources, _ => "")
  }

  function Begin(config: Config, disk: Disk): Phase {
    Continue(config, 0, Loaded(config, disk))
  }

  function Continue(config: Config, i: nat, tags: seq<string>): Phase {
    if i < config.resources then Fetching(i, tags) else Saving(tags)
  }

  function GiveUp(config: Config, i: nat, tags: seq<string>): Phase {
    if config.stops then Idle else Continue(config, i + 1, tags)
  }

  function AfterFetch(config: Config, i: nat, tags: seq<string>, answer: Answer): Phase {
    match answer
    case Failed => GiveUp(config, i, tags)
    case NotModified => Continue(config, i + 1, tags)
    case Fetched(version) =>
      match Content(config, version)
      case None => GiveUp(config, i, tags)
      case Some(body) => Writing(i, tags, body, version.tag)
  }

  /** The sizes fit the number of resources. */
  predicate Shaped(config: Config, disk: Disk, phase: Phase) {
    && |disk.cache| == config.resources
    && (disk.tags.Some? ==> |disk.tags.value| == config.resources)
    && (phase.Fetching? || phase.Writing? ==> phase.i < config.resources)
    && (!phase.Idle? ==> |phase.tags| == config.resources)
  }

  function AfterWrite(config: Config, disk: Disk, phase: Phase, ok: bool): (Disk, Phase)
    requires Shaped(config, disk, phase) && phase.Writing?
  {
    if ok then (disk.(cache := disk.cache[phase.i := Some(phase.body)]),
                Continue(config, phase.i + 1, phase.tags[phase.i := phase.tag]))
    else (disk, GiveUp(config, phase.i, phase.tags))
  }

  function AfterSave(disk: Disk, tags: seq<string>, ok: bool): Disk {
    if ok then disk.(tags := Some(tags)) else disk
  }

  // ----- One process, as it runs -----------------------------------------------------------

  /** How the outside treats one process: the versions the server has, which requests it serves without
      looking at the tag, and which writes work.  A resource without a version fails. */
  datatype Environment = Environment(current: map<nat, Version>, ignores: set<nat>, writable: set<nat>, saves: bool)

  function AnswerTo(env: Environment, i: nat, tag: string): Answer {
    if i !in env.current then Failed
    else if tag != "" && env.current[i].tag == tag && i !in env.ignores then NotModified
    else Fetched(env.current[i])
  }

  /** The disk after a process in `phase` takes up to `lifetime` more steps. */
  function Drive(config: Config, disk: Disk, phase: Phase, env: Environment, lifetime: nat): Disk
    requires Shaped(config, disk, phase)
    decreases lifetime
  {
    if lifetime == 0 then disk
    else
      match phase
      case Idle => disk
      case Fetching(i, tags) =>
        Drive(config, disk, AfterFetch(config, i, tags, AnswerTo(env, i, tags[i])), env, lifetime - 1)
      case Writing(i, tags, body, tag) =>
        var (written, next) := AfterWrite(config, disk, phase, i in env.writable);
        Drive(config, written, next, env, lifetime - 1)
      case Saving(tags) => AfterSave(disk, tags, env.saves)
  }

  /** What the first steps of a process do, from a fetch to the next phase. */
  lemma {:induction false} DriveFetch(config: Config, disk: Disk, i: nat, tags: seq<string>, env: Environment, lifetime: nat)
    requires Shaped(config, disk, Fetching(i, tags))
    ensures lifetime == 0 ==> Drive(config, disk, Fetching(i, tags), env, lifetime) == disk
    ensures lifetime > 0 ==>
              var answer := AnswerTo(env, i, tags[i]);
              && (answer.Failed? ==> Drive(config, disk, Fetching(i, tags), env, lifetime)
                                     == Drive(config, disk, GiveUp(config, i, tags), env, lifetime - 1))
              && (answer.NotModified? ==> Drive(config, disk, Fetching(i, tags), env, lifetime)
                                          == Drive(config, disk, Continue(config, i + 1, tags), env, lifetime - 1))
              && (answer.Fetched? && Content(config, answer.version).None? ==>
                    Drive(config, disk, Fetching(i, tags), env, lifetime)
                    == Drive(config, disk, GiveUp(config, i, tags), env, lifetime - 1))
              && (answer.Fetched? && Content(config, answer.version).Some? ==>
                    Drive(config, disk, Fetching(i, tags), env, lifetime)
                    == Drive(config, disk, Writing(i, tags, Content(config, answer.version).value, answer.version.tag), env, lifetime - 1))
  {
  }

  lemma {:induction false} DriveWrite(config: Config, disk: Disk, i: nat, tags: seq<string>, body: string, tag: string, env: Environment, lifetime: nat)
    requires Shaped(config, disk, Writing(i, tags, body, tag))
    ensures lifetime == 0 ==> Drive(config, disk, Writing(i, tags, body, tag), env, lifetime) == disk
    ensures lifetime > 0 ==>
              Drive(config, disk, Writing(i, tags, body, tag), env, lifetime)
              == if i in env.writable
                 then Drive(config, disk.(cache := disk.cache[i := Some(body)]), Continue(config, i + 1, tags[i := tag]), env, lifetime - 1)
                 else Drive(config, disk, GiveUp(config, i, tags), env, lifetime - 1)
  {
  }

  lemma {:induction false} DriveEnd(config: Config, disk: Disk, tags: seq<string>, env: Environment, lifetime: nat)
    requires Shaped(config, disk, Saving(tags))
    ensures Drive(config, disk, Idle, env, lifetime) == disk
    ensures Drive(config, disk, Saving(tags), env, lifetime) == if lifetime > 0 && env.saves then disk.(tags := Some(tags)) else disk
  {
  }

  function ThreatNext(i: nat, ioc: string, yara: string): Phase {
    if i == 0 then Fetching(1, [ioc, yara]) else Saving([ioc, yara])
  }

  /** One resource of the threat syncer, from its fetch to the next phase. */
  lemma {:induction false} DriveThreat(disk: Disk, i: nat, ioc: string, yara: string, env: Environment, lifetime: nat)
    requires Shaped(THREAT, disk, Fetching(i, [ioc, yara]))
    ensures var start := Drive(THREAT, disk, Fetching(i, [ioc, yara]), env, lifetime);
            var answer := AnswerTo(env, i, [ioc, yara][i]);
            if lifetime == 0 then start == disk
            else if !answer.Fetched? then start == Drive(THREAT, disk, ThreatNext(i, ioc, yara), env, lifetime - 1)
            else if lifetime == 1 then start == disk
            else if i in env.writable then
              start == Drive(THREAT, disk.(cache := disk.cache[i := Some(Truncate(THREAT, answer.version.body))]),
                             if i == 0 then ThreatNext(i, answer.version.tag, yara) else ThreatNext(i, ioc, answer.version.tag), env, lifetime - 2)
            else start == Drive(THREAT, disk, ThreatNext(i, ioc, yara), env, lifetime - 2)
  {
    var answer := AnswerTo(env, i, [ioc, yara][i]);
    hide Drive, Truncate;
    DriveFetch(THREAT, disk, i, [ioc, yara], env, lifetime);
    if lifetime > 0 && answer.Fetched? {
      var tag := answer.version.tag;
      DriveWrite(THREAT, disk, i, [ioc, yara], Truncate(THREAT, answer.version.body), tag, env, lifetime - 1);
      assert [ioc, yara][i := tag] == if i == 0 then [tag, yara] else [ioc, tag];
    }
  }

  datatype ThreatMetadata = ThreatMetadata(iocETag: string, yaraETag: string, fetchedAt: int)

  class ThreatSyncer {
    var ioc: Option<string>
    var yara: Option<string>
    var metadata: Option<ThreatMetadata>

    constructor ()
      ensures Stored() == Disk(None, [None, None])
    {
      ioc, yara, metadata := None, None, None;
    }

    function Stored(): (d: Disk)
      reads this
      ensures Shaped(THREAT, d, Idle) && d.cache == [ioc, yara]
    {
      Disk(if metadata.Some? then Some([metadata.value.iocETag, metadata.value.yaraETag]) else None, [ioc, yara])
    }

    /** One sync by a process that is killed after `lifetime` steps. */
    method DoSync(authorised: bool, directory: bool, env: Environment, now: int, lifetime: nat)
      modifies this
      ensures !authorised || !directory ==> Stored() == old(Stored())
      ensures metadata == old(metadata) || (metadata.Some? && metadata.value.fetchedAt == now)
      ensures authorised && directory ==>
                Stored() == Drive(THREAT, old(Stored()), Begin(THREAT, old(Stored())), env, lifetime)
    {
      hide Drive, Truncate, Content;
      if !authorised || !directory {
        return;
      }
      var left := lifetime;
      var meta := if metadata.Some? then metadata.value else ThreatMetadata("", "", 0);
      ghost var goal := Drive(THREAT, Stored(), Begin(THREAT, Stored()), env, lifetime);
      assert Begin(THREAT, Stored()) == Fetching(0, [meta.iocETag, meta.yaraETag]) by {
        assert Loaded(THREAT, Stored()) == [meta.iocETag, meta.yaraETag];
      }
      ghost var disk := Stored();

      DriveThreat(disk, 0, meta.iocETag, meta.yaraETag, env, left);
      if left == 0 { return; }
      left := left - 1;
      var answer := AnswerTo(env, 0, meta.iocETag);
      if answer.Fetched? {
        if left == 0 { return; }
        left := left - 1;
        if 0 in env.writable {
          ioc := Some(Truncate(THREAT, answer.version.body));
          meta := meta.(iocETag := answer.version.tag);
          disk := disk.(cache := disk.cache[0 := ioc]);
          assert disk.cache == [ioc, yara];
        }
      }
      assert disk == Stored();
      assert goal == Drive(THREAT, disk, Fetching(1, [meta.iocETag, meta.yaraETag]), env, left);

      DriveThreat(disk, 1, meta.iocETag, meta.yaraETag, env, left);
      if left == 0 { return; }
      left := left - 1;
      answer := AnswerTo(env, 1, meta.yaraETag);
      if answer.Fetched? {
        if left == 0 { return; }
        left := left - 1;
        if 1 in env.writable {
          yara := Some(Truncate(THREAT, answer.version.body));
          meta := meta.(yaraETag := answer.version.tag);
          disk := disk.(cache := disk.cache[1 := yara]);
          assert disk.cache == [ioc, yara];
        }
      }
      assert disk == Stored();
      assert goal == Drive(THREAT, disk, Saving([meta.iocETag, meta.yaraETag]), env, left);

      DriveEnd(THREAT, disk, [meta.iocETag, meta.yaraETag], env, left);
      if left == 0 { return; }
      meta := meta.(fetchedAt := now);
      if env.saves {
        metadata := Some(meta);
      }
    }
  }

  datatype OrgMetadata = OrgMetadata(eTag: string, fetchedAt: int)

  class OrgSyncer {
    var policy: Option<string>
    var metadata: Option<OrgMetadata>
    const rego: string -> Option<string>

    constructor (rego: string -> Option<string>)
      ensures this.rego == rego && Stored() == Disk(None, [None])
    {
      policy, metadata := None, None;
      this.rego := rego;
    }

    function Stored(): (d: Disk)
      reads this
      ensures Shaped(OrgConfig(rego), d, Idle) && d.cache == [policy]
    {
      Disk(if metadata.Some? then Some([metadata.value.eTag]) else None, [policy])
    }

    /** One sync by a process that is killed after `lifetime` steps. */
    method DoSync(authorised: bool, directory: bool, env: Environment, now: int, lifetime: nat)
      modifies this
      ensures !authorised || !directory ==> Stored() == old(Stored())
      ensures metadata == old(metadata) || (metadata.Some? && metadata.value.fetchedAt == now)
      ensures authorised && directory ==>
                Stored() == Drive(OrgConfig(rego), old(Stored()), Begin(OrgConfig(rego), old(Stored())), env, lifetime)
    {
      if !authorised || !directory {
        return;
      }
      var left := lifetime;
      var meta := if metadata.Some? then metadata.value else OrgMetadata("", 0);
      var config := OrgConfig(rego);
      ghost var goal := Drive(config, Stored(), Begin(config, Stored()), env, lifetime);
      assert Loaded(config, Stored()) == [meta.eTag];
      hide Drive, Truncate;
      DriveFetch(config, Stored(), 0, [meta.eTag], env, left);

      if left == 0 { return; }
      left := left - 1;
      var answer := AnswerTo(env, 0, meta.eTag);
      DriveEnd(config, Stored(), [meta.eTag], env, left);
      if answer.Failed? {
        return;
      }
      if answer.Fetched? {
        var parsed := rego(Truncate(config, answer.version.body));
        if parsed.None? {
          return;
        }
        DriveWrite(config, Stored(), 0, [meta.eTag], parsed.value, answer.version.tag, env, left);
        if left == 0 { return; }
        left := left - 1;
        DriveEnd(config, Stored(), [meta.eTag], env, left);
        if 0 !in env.writable {
          return;
        }
        policy := Some(parsed.value);
        assert [old(policy)][0 := policy] == [policy];
        assert [meta.eTag][0 := answer.version.tag] == [answer.version.tag];
        meta := meta.(eTag := answer.version.tag);
      }
      assert goal == Drive(config, Stored(), Saving([meta.eTag]), env, left);
      DriveEnd(config, Stored(), [meta.eTag], env, left);

      if left == 0 { return; }
      meta := meta.(fetchedAt := now);
      if env.saves {
        metadata := Some(meta);
      }
    }
  }

  // ----- Every run: one process at a time, a server that only advances ---------------------

  /** Entity tags are never used for two versions. */
  predicate NoReuse(service: Service) {
    forall i, j | 0 <= i < j < |service| :: service[i].tag != "" ==> service[i].tag != service[j].tag
  }

  /** A 304 needs a tag sent that is the tag of the current version (section 13.1.2 of RFC 9110). */
  predicate MayAnswer(service: Service, tag: string, answer: Answer) {
    match answer
    case Failed => true
    case NotModified => service != [] && tag != "" && service[|service| - 1].tag == tag
    case Fetched(version) => service != [] && version == service[|service| - 1]
  }

  predicate Enabled(config: Config, w: World, e: Event) {
    match e
    case Publish(r, version) => r < |w.services| && NoReuse(w.services[r] + [version])
    case LoseCache(r) => r < |w.disk.cache|
    case LoseMetadata => true
    case Crash => true
    case Start => w.phase.Idle?
    case Fetch(answer) =>
      && w.phase.Fetching? && w.phase.i < |w.services| && w.phase.i < |w.phase.tags|
      && MayAnswer(w.services[w.phase.i], w.phase.tags[w.phase.i], answer)
    case Write(_) => w.phase.Writing?
    case Save(_) => w.phase.Saving?
  }

  predicate ShapedWorld(config: Config, w: World) {
    Shaped(config, w.disk, w.phase) && |w.services| == config.resources
  }

  function Apply(config: Config, w: World, e: Event): (after: World)
    requires ShapedWorld(config, w) && Enabled(config, w, e)
    ensures ShapedWorld(config, after)
  {
    match e
    case Publish(r, version) => w.(services := w.services[r := w.services[r] + [version]])
    case LoseCache(r) => w.(disk := w.disk.(cache := w.disk.cache[r := None]))
    case LoseMetadata => w.(disk := w.disk.(tags := None))
    case Crash => w.(phase := Idle)
    case Start => w.(phase := Begin(config, w.disk))
    case Fetch(answer) => w.(phase := AfterFetch(config, w.phase.i, w.phase.tags, answer))
    case Write(ok) =>
      var (disk, phase) := AfterWrite(config, w.disk, w.phase, ok);
      w.(disk := disk, phase := phase)
    case Save(ok) => w.(disk := AfterSave(w.disk, w.phase.tags, ok), phase := Idle)
  }

  /** A run: worlds linked by enabled events, beginning with an empty cache. */
  predicate IsRun(config: Config, events: seq<Event>, worlds: seq<World>) {
    && |worlds| == |events| + 1
    && ShapedWorld(config, worlds[0]) && worlds[0].phase == Idle
    && worlds[0].disk == Disk(None, seq(config.resources, _ => None))
    && (forall r | 0 <= r < config.resources :: NoReuse(worlds[0].services[r]))
    && forall k | 0 <= k < |events| ::
         ShapedWorld(config, worlds[k]) && Enabled(config, worlds[k], events[k]) && worlds[k + 1] == Apply(config, worlds[k], events[k])
  }

  /** The tag is absent, or belongs to a version no newer than number `v`. */
  ghost predicate NotNewer(service: Service, tag: string, v: int) {
    tag == "" || exists u :: 0 <= u <= v && u < |service| && service[u].tag == tag
  }

  /** The tags for resource `r` that the disk or the running process holds. */
  ghost predicate TagsNotNewer(config: Config, w: World, r: nat, v: int)
    requires ShapedWorld(config, w) && r < config.resources
  {
    && NotNewer(w.services[r], Loaded(config, w.disk)[r], v)
    && (!w.phase.Idle? ==> NotNewer(w.services[r], w.phase.tags[r], v))
  }

  /** The body is that of version `v`, and no held tag is newer. */
  ghost predicate IsVersion(config: Config, w: World, r: nat, body: string, v: int)
    requires ShapedWorld(config, w) && r < config.resources
  {
    && 0 <= v < |w.services[r]|
    && Content(config, w.services[r][v]) == Some(body)
    && TagsNotNewer(config, w, r, v)
  }

  /** version(stored tag) <= version(cached body) <= version(server), while the cache file is present. */
  ghost predicate CoherentAt(config: Config, w: World, r: nat)
    requires ShapedWorld(config, w) && r < config.resources
  {
    && NoReuse(w.services[r])
    && TagsNotNewer(config, w, r, |w.services[r]| - 1)
    && (w.disk.cache[r].Some? ==> exists v :: IsVersion(config, w, r, w.disk.cache[r].value, v))
    && (w.phase.Writing? && w.phase.i == r ==>
          exists v :: IsVersion(config, w, r, w.phase.body, v) && w.services[r][v].tag == w.phase.tag)
  }

  ghost predicate Coherent(config: Config, w: World) {
    ShapedWorld(config, w) && forall r | 0 <= r < config.resources :: CoherentAt(config, w, r)
  }

  lemma {:induction false} PublishKeeps(config: Config, w: World, e: Event, r: nat)
    requires Coherent(config, w) && Enabled(config, w, e) && e.Publish? && r < config.resources
    ensures CoherentAt(config, Apply(config, w, e), r)
  {
    var after := Apply(config, w, e);
    assert CoherentAt(config, w, r);
    assert forall v | 0 <= v < |w.services[r]| :: after.services[r][v] == w.services[r][v];
    assert forall v | 0 <= v < |w.services[r]| :: TagsNotNewer(config, w, r, v) ==> TagsNotNewer(config, after, r, v);
    assert forall body, v :: IsVersion(config, w, r, body, v) ==> IsVersion(config, after, r, body, v);
  }

  lemma {:induction false} FetchKeeps(config: Config, w: World, e: Event, r: nat)
    requires Coherent(config, w) && Enabled(config, w, e) && e.Fetch? && r < config.resources
    ensures CoherentAt(config, Apply(config, w, e), r)
  {
    var after := Apply(config, w, e);
    assert CoherentAt(config, w, r);
    assert forall body, v :: IsVersion(config, w, r, body, v) ==> IsVersion(config, after, r, body, v);
    if after.phase.Writing? && after.phase.i == r {
      assert IsVersion(config, after, r, after.phase.body, |w.services[r]| - 1);
    }
  }

  lemma {:induction false} WriteKeeps(config: Config, w: World, e: Event, r: nat)
    requires Coherent(config, w) && Enabled(config, w, e) && e.Write? && r < config.resources
    ensures CoherentAt(config, Apply(config, w, e), r)
  {
    var after := Apply(config, w, e);
    assert CoherentAt(config, w, r);
    if e.ok && r == w.phase.i {
      var v :| IsVersion(config, w, r, w.phase.body, v) && w.services[r][v].tag == w.phase.tag;
      assert NotNewer(w.services[r], w.phase.tag, v);
      assert NotNewer(w.services[r], w.phase.tag, |w.services[r]| - 1);
      assert IsVersion(config, after, r, w.phase.body, v);
    } else {
      assert forall body, v :: IsVersion(config, w, r, body, v) ==> IsVersion(config, after, r, body, v);
    }
  }

  lemma {:induction false} OtherKeeps(config: Config, w: World, e: Event, r: nat)
    requires Coherent(config, w) && Enabled(config, w, e) && r < config.resources
    requires !e.Publish? && !e.Fetch? && !e.Write?
    ensures CoherentAt(config, Apply(config, w, e), r)
  {
    var after := Apply(config, w, e);
    assert CoherentAt(config, w, r);
    assert forall body, v :: IsVersion(config, w, r, body, v) ==> IsVersion(config, after, r, body, v);
  }

  /** No event, failure or crash breaks coherence. */
  lemma {:induction false} EveryEventKeepsCoherence(config: Config, w: World, e: Event)
    requires Coherent(config, w) && Enabled(config, w, e)
    ensures Coherent(config, Apply(config, w, e))
  {
    hide CoherentAt, Apply;
    forall r | 0 <= r < config.resources
      ensures CoherentAt(config, Apply(config, w, e), r)
    {
      if e.Publish? {
        PublishKeeps(config, w, e, r);
      } else if e.Fetch? {
        FetchKeeps(config, w, e, r);
      } else if e.Write? {
        WriteKeeps(config, w, e, r);
      } else {
        OtherKeeps(config, w, e, r);
      }
    }
  }

  lemma {:induction false} RunsAreCoherent(config: Config, events: seq<Event>, worlds: seq<World>, k: nat)
    requires IsRun(config, events, worlds) && k < |worlds|
    ensures Coherent(config, worlds[k])
  {
    if k > 0 {
      RunsAreCoherent(config, events, worlds, k - 1);
      EveryEventKeepsCoherence(config, worlds[k - 1], events[k - 1]);
    }
  }

  lemma {:induction false} OneVersionPerTag(service: Service, i: nat, j: nat)
    requires NoReuse(service) && i < |service| && j < |service| && service[i].tag == service[j].tag != ""
    ensures i == j
  {
    assert NoReuse(service);
  }

  /** In every run, a 304 is received only when a cache file that is present holds the current version. */
  lemma {:induction false} NotModifiedMeansCurrent(config: Config, events: seq<Event>, worlds: seq<World>, k: nat)
    requires IsRun(config, events, worlds) && k < |events| && events[k] == Fetch(NotModified)
    ensures var r, w := worlds[k].phase.i, worlds[k];
            w.disk.cache[r].Some? ==> w.disk.cache[r] == Content(config, w.services[r][|w.services[r]| - 1])
  {
    RunsAreCoherent(config, events, worlds, k);
    var w := worlds[k];
    var r := w.phase.i;
    assert CoherentAt(config, w, r);
    if w.disk.cache[r].Some? {
      var v :| IsVersion(config, w, r, w.disk.cache[r].value, v);
      var u :| 0 <= u <= v && w.services[r][u].tag == w.phase.tags[r];
      OneVersionPerTag(w.services[r], u, |w.services[r]| - 1);
    }
  }

  /** For the threat caches the present file is the whole current body exactly when the body fits the limit. */
  lemma {:induction false} NotModifiedMeansWholeBody(events: seq<Event>, worlds: seq<World>, k: nat)
    requires IsRun(THREAT, events, worlds) && k < |events| && events[k] == Fetch(NotModified)
    ensures var r, w := worlds[k].phase.i, worlds[k];
            var current := w.services[r][|w.services[r]| - 1];
            w.disk.cache[r].Some? ==> (w.disk.cache[r] == Some(current.body) <==> |current.body| <= 10 * 1024 * 1024)
  {
    NotModifiedMeansCurrent(THREAT, events, worlds, k);
  }

  // ----- A process is a run of the machine ------------------------------------------------

  predicate Honest(services: seq<Service>, env: Environment) {
    forall i | i in env.current ::
      i < |services| && services[i] != [] && env.current[i] == services[i][|services[i]| - 1]
  }

  /** Killed after any number of steps, a process leaves a coherent disk. */
  lemma {:induction false} ProcessKeepsCoherence(config: Config, w: World, env: Environment, lifetime: nat)
    requires Coherent(config, w) && Honest(w.services, env)
    ensures ShapedWorld(config, w)
    ensures Coherent(config, w.(disk := Drive(config, w.disk, w.phase, env, lifetime), phase := Idle))
    decreases lifetime
  {
    hide Coherent;
    CoherentIsShaped(config, w);
    if lifetime == 0 || w.phase.Idle? {
      EveryEventKeepsCoherence(config, w, Crash);
    } else {
      var e := match w.phase
        case Fetching(i, tags) => Fetch(AnswerTo(env, i, tags[i]))
        case Writing(i, _, _, _) => Write(i in env.writable)
        case _ => Save(env.saves);
      EveryEventKeepsCoherence(config, w, e);
      ProcessKeepsCoherence(config, Apply(config, w, e), env, lifetime - 1);
    }
  }

  lemma {:induction false} CoherentIsShaped(config: Config, w: World)
    requires Coherent(config, w)
    ensures ShapedWorld(config, w)
  {
  }

  /** Every resource has a version that can be decoded, and nothing fails. */
  predicate Quiet(config: Config, env: Environment) {
    && env.saves
    && forall i | 0 <= i < config.resources :: i in env.current && i in env.writable && Content(config, env.current[i]).Some?
  }

  /** What a process that nothing disturbs leaves: the current tags, and the current contents but for files
      the server was told were there. */
  lemma {:induction false} QuietFromFetch(config: Config, disk: Disk, phase: Phase, env: Environment, lifetime: nat, r: nat)
    requires Shaped(config, disk, phase) && Quiet(config, env) && r < config.resources
    requires phase.Fetching? || phase.Saving?
    requires lifetime >= 1 + if phase.Fetching? then 2 * (config.resources - phase.i) else 0
    ensures var after := Drive(config, disk, phase, env, lifetime);
            && after.tags.Some? && r < |after.tags.value| && r < |after.cache|
            && if phase.Saving? || r < phase.i then after.cache[r] == disk.cache[r] && after.tags.value[r] == phase.tags[r]
               else && after.tags.value[r] == env.current[r].tag
                    && after.cache[r] == if AnswerTo(env, r, phase.tags[r]).NotModified? then disk.cache[r] else Content(config, env.current[r])
    decreases lifetime
  {
    hide Drive, Content;
    if phase.Saving? {
      DriveEnd(config, disk, phase.tags, env, lifetime);
    } else {
      var i, tags := phase.i, phase.tags;
      assert Content(config, env.current[i]).Some?;
      DriveFetch(config, disk, i, tags, env, lifetime);
      if AnswerTo(env, i, tags[i]).NotModified? {
        QuietFromFetch(config, disk, Continue(config, i + 1, tags), env, lifetime - 1, r);
      } else {
        var body, tag := Content(config, env.current[i]).value, env.current[i].tag;
        DriveWrite(config, disk, i, tags, body, tag, env, lifetime - 1);
        QuietFromFetch(config, disk.(cache := disk.cache[i := Some(body)]), Continue(config, i + 1, tags[i := tag]), env, lifetime - 2, r);
      }
    }
  }

  /** A sync that nothing disturbs brings every cache file up to date, except exactly a file that is missing
      while its stored tag is still the current one. */
  lemma {:induction false} QuietSyncIsCurrent(config: Config, w: World, env: Environment, lifetime: nat, r: nat)
    requires Coherent(config, w) && Honest(w.services, env) && Quiet(config, env) && w.phase == Idle
    requires r < config.resources && lifetime >= 2 * config.resources + 1
    ensures ShapedWorld(config, w)
    ensures var after := Drive(config, w.disk, Begin(config, w.disk), env, lifetime);
            && after.tags.Some? && r < |after.tags.value| && after.tags.value[r] == env.current[r].tag
            && r < |after.cache|
            && (after.cache[r] == Content(config, env.current[r]) <==>
                  !(w.disk.cache[r].None? && AnswerTo(env, r, Loaded(config, w.disk)[r]).NotModified?))
  {
    QuietFromFetch(config, w.disk, Begin(config, w.disk), env, lifetime, r);
    assert CoherentAt(config, w, r);
    var tag, service := Loaded(config, w.disk)[r], w.services[r];
    if w.disk.cache[r].Some? && AnswerTo(env, r, tag).NotModified? {
      var v :| IsVersion(config, w, r, w.disk.cache[r].value, v);
      var u :| 0 <= u <= v && service[u].tag == tag;
      OneVersionPerTag(service, u, |service| - 1);
    }
  }

  // ----- What each process leaves, resource by resource --------------------------------------

  /** The server sends a body rather than a 304 or an error. */
  predicate SendsBody(env: Environment, i: nat, tag: string) {
    i in env.current && (tag == "" || env.current[i].tag != tag || i in env.ignores)
  }

  /** A process of the threat syncer that is not killed: each resource is written exactly when a body was sent for
      it and the write works, cut at ten megabytes, and its tag moves with it, whatever happens to the other; the
      tags are stored exactly when the last write works. */
  lemma {:induction false} ThreatSyncExactly(disk: Disk, env: Environment, lifetime: nat)
    requires Shaped(THREAT, disk, Idle) && lifetime >= 5
    ensures var tags := if disk.tags.Some? then disk.tags.value else ["", ""];
            var written := seq(2, i requires 0 <= i < 2 => SendsBody(env, i, tags[i]) && i in env.writable);
            var after := Drive(THREAT, disk, Begin(THREAT, disk), env, lifetime);
            && |after.cache| == 2
            && (forall i | 0 <= i < 2 ::
                  after.cache[i] == if !written[i] then disk.cache[i]
                                    else var body := env.current[i].body;
                                         Some(if |body| <= 10 * 1024 * 1024 then body else body[..10 * 1024 * 1024]))
            && after.tags == (if !env.saves then disk.tags
                              else Some([if written[0] then env.current[0].tag else tags[0],
                                         if written[1] then env.current[1].tag else tags[1]]))
  {
    var tags := if disk.tags.Some? then disk.tags.value else ["", ""];
    var ioc, yara := tags[0], tags[1];
    assert tags == [ioc, yara];
    assert Loaded(THREAT, disk) == tags;
    hide Drive;
    DriveThreat(disk, 0, ioc, yara, env, lifetime);
    var wrote := SendsBody(env, 0, ioc) && 0 in env.writable;
    var ioc', disk' := if wrote then env.current[0].tag else ioc,
                       if wrote then disk.(cache := disk.cache[0 := Some(Truncate(THREAT, env.current[0].body))]) else disk;
    var left := lifetime - if SendsBody(env, 0, ioc) then 2 else 1;
    assert Drive(THREAT, disk, Begin(THREAT, disk), env, lifetime) == Drive(THREAT, disk', Fetching(1, [ioc', yara]), env, left);
    DriveThreat(disk', 1, ioc', yara, env, left);
    var wrote' := SendsBody(env, 1, yara) && 1 in env.writable;
    var yara', disk'' := if wrote' then env.current[1].tag else yara,
                         if wrote' then disk'.(cache := disk'.cache[1 := Some(Truncate(THREAT, env.current[1].body))]) else disk';
    var last := left - if SendsBody(env, 1, yara) then 2 else 1;
    DriveEnd(THREAT, disk'', [ioc', yara'], env, last);
  }

  /** A process of the organisation syncer that is not killed: it changes nothing when the request fails, or the
      body, cut at one megabyte, cannot be decoded or written; otherwise it writes what was decoded, and in the end
      the tag. */
  lemma {:induction false} OrgSyncExactly(rego: string -> Option<string>, disk: Disk, env: Environment, lifetime: nat)
    requires Shaped(OrgConfig(rego), disk, Idle) && lifetime >= 3
    ensures var tag := if disk.tags.Some? then disk.tags.value[0] else "";
            var after := Drive(OrgConfig(rego), disk, Begin(OrgConfig(rego), disk), env, lifetime);
            if 0 !in env.current then after == disk
            else
              var body := env.current[0].body;
              var policy := rego(if |body| <= 1024 * 1024 then body else body[..1024 * 1024]);
              if !SendsBody(env, 0, tag) then after == disk.(tags := if env.saves then Some([tag]) else disk.tags)
              else if policy.None? || 0 !in env.writable then after == disk
              else after == Disk(if env.saves then Some([env.current[0].tag]) else disk.tags, [policy])
  {
    var config := OrgConfig(rego);
    var tag := if disk.tags.Some? then disk.tags.value[0] else "";
    assert Loaded(config, disk) == [tag];
    hide Drive;
    DriveFetch(config, disk, 0, [tag], env, lifetime);
    DriveEnd(config, disk, [tag], env, lifetime - 1);
    if SendsBody(env, 0, tag) {
      var policy := Content(config, env.current[0]);
      if policy.Some? {
        DriveWrite(config, disk, 0, [tag], policy.value, env.current[0].tag, env, lifetime - 1);
        DriveEnd(config, disk, [tag], env, lifetime - 2);
        if 0 in env.writable {
          var disk' := disk.(cache := disk.cache[0 := policy]);
          assert disk.cache[0 := policy] == [policy] && [tag][0 := env.current[0].tag] == [env.current[0].tag];
          DriveEnd(config, disk', [env.current[0].tag], env, lifetime - 2);
        }
      }
    }
  }

  // ----- Failing inputs -----------------------------------------------------------------------

  /** One more enabled event makes a longer run. */
  lemma {:induction false} RunExtends(config: Config, events: seq<Event>, worlds: seq<World>, e: Event, next: World)
    requires IsRun(config, events, worlds) && ShapedWorld(config, worlds[|events|])
    requires Enabled(config, worlds[|events|], e) && next == Apply(config, worlds[|events|], e)
    ensures IsRun(config, events + [e], worlds + [next])
  {
    hide Enabled, Apply, ShapedWorld, NoReuse;
  }

  /** Some run ends in this world. */
  ghost predicate Reaches(config: Config, w: World) {
    ShapedWorld(config, w) && exists events, worlds :: IsRun(config, events, worlds) && worlds[|events|] == w
  }

  lemma {:induction false} ReachesNext(config: Config, w: World, e: Event, next: World)
    requires Reaches(config, w) && Enabled(config, w, e) && next == Apply(config, w, e)
    ensures Reaches(config, next)
  {
    hide Enabled, Apply, ShapedWorld;
    var events, worlds :| IsRun(config, events, worlds) && worlds[|events|] == w;
    RunExtends(config, events, worlds, e, next);
    assert (worlds + [next])[|events + [e]|] == next;
  }

  /** Every run begins with an empty cache. */
  lemma {:induction false} ReachesStart(config: Config, services: seq<Service>, cache: seq<Option<string>>)
    requires |cache| == config.resources && forall r | 0 <= r < |cache| :: cache[r] == None
    requires |services| == config.resources && forall r | 0 <= r < config.resources :: NoReuse(services[r])
    ensures Reaches(config, World(services, Disk(None, cache), Idle))
  {
    var w := World(services, Disk(None, cache), Idle);
    assert cache == seq(config.resources, _ => None);
    var none: seq<Event> := [];
    assert IsRun(config, none, [w]) && [w][|none|] == w;
  }

  lemma {:induction false} ReachesBegin(config: Config, services: seq<Service>, disk: Disk)
    requires Reaches(config, World(services, disk, Idle))
    ensures Reaches(config, World(services, disk, Begin(config, disk)))
  {
    ReachesNext(config, World(services, disk, Idle), Start, World(services, disk, Begin(config, disk)));
  }

  /** A resource is fetched, decoded and written. */
  lemma {:induction false} ReachesWritten(config: Config, services: seq<Service>, disk: Disk, i: nat, tags: seq<string>, version: Version)
    requires Reaches(config, World(services, disk, Fetching(i, tags)))
    requires i < |services| && services[i] == [version] && Content(config, version).Some?
    ensures i < |disk.cache| && i < |tags|
    ensures Reaches(config, World(services, disk.(cache := disk.cache[i := Content(config, version)]),
                                  Continue(config, i + 1, tags[i := version.tag])))
  {
    hide Reaches, Content, Continue;
    var w := World(services, disk, Fetching(i, tags));
    ReachesShaped(config, w);
    var body := Content(config, version).value;
    var w' := w.(phase := Writing(i, tags, body, version.tag));
    ReachesNext(config, w, Fetch(Fetched(version)), w');
    ReachesNext(config, w', Write(true), Apply(config, w', Write(true)));
  }

  lemma ReachesShaped(config: Config, w: World)
    requires Reaches(config, w)
    ensures ShapedWorld(config, w)
  {
  }

  lemma {:induction false} ReachesSaved(config: Config, services: seq<Service>, disk: Disk, tags: seq<string>)
    requires Reaches(config, World(services, disk, Saving(tags)))
    ensures Reaches(config, World(services, disk.(tags := Some(tags)), Idle))
  {
    hide Reaches;
    ReachesShaped(config, World(services, disk, Saving(tags)));
    ReachesNext(config, World(services, disk, Saving(tags)), Save(true), World(services, disk.(tags := Some(tags)), Idle));
  }

  /** After one undisturbed fetch of the first threat resource, and a failing second one. */
  lemma {:induction false} FirstThreatSync(version: Version)
    ensures var services, cut := [[version], []], Truncate(THREAT, version.body);
            Reaches(THREAT, World(services, Disk(Some([version.tag, ""]), [Some(cut), None]), Idle))
  {
    hide Reaches, Truncate;
    var services, cut, tag := [[version], []], Truncate(THREAT, version.body), version.tag;
    var empty, full := Disk(None, [None, None]), Disk(None, [Some(cut), None]);
    ReachesStart(THREAT, services, [None, None]);
    ReachesBegin(THREAT, services, empty);
    var blank := ["", ""];
    assert Loaded(THREAT, empty) == blank;
    ReachesWritten(THREAT, services, empty, 0, blank, version);
    assert empty.cache[0 := Some(cut)] == full.cache && blank[0 := tag] == [tag, ""];
    var w := World(services, full, Fetching(1, [tag, ""]));
    ReachesShaped(THREAT, w);
    ReachesNext(THREAT, w, Fetch(Failed), World(services, full, Saving([tag, ""])));
    ReachesSaved(THREAT, services, full, [tag, ""]);
  }

  /** A body over the limit is cut, and then confirmed: the run goes on to a fetch that may answer 304 while the
      file holds only the first bytes. */
  lemma {:induction false} CutBodyIsConfirmed(version: Version)
    requires |version.body| > THREAT.limit && version.tag != ""
    ensures exists w :: Reaches(THREAT, w) && Enabled(THREAT, w, Fetch(NotModified)) && w.phase.i == 0
                        && w.services[0] == [version] && w.disk.cache[0] == Some(version.body[..THREAT.limit])
                        && w.disk.cache[0] != Some(version.body)
  {
    FirstThreatSync(version);
    var services, tag, cut := [[version], []], version.tag, version.body[..THREAT.limit];
    assert Truncate(THREAT, version.body) == cut;
    hide Reaches;
    var saved := Disk(Some([tag, ""]), [Some(cut), None]);
    var next := World(services, saved, Fetching(0, [tag, ""]));
    ReachesBegin(THREAT, services, saved);
    assert |cut| != |version.body|;
    assert Enabled(THREAT, next, Fetch(NotModified));
  }

  /** Saved, then the cache file is lost: an undisturbed sync does not bring it back. */
  lemma {:induction false} LostFileStaysLost(rego: string -> Option<string>, version: Version, lifetime: nat)
    requires version.tag != "" && Content(OrgConfig(rego), version).Some? && lifetime >= 3
    ensures var config, w := OrgConfig(rego), World([[version]], Disk(Some([version.tag]), [None]), Idle);
            var env := Environment(map[0 := version], {}, {0}, true);
            && Reaches(config, w) && Honest(w.services, env) && Quiet(config, env)
            && Drive(config, w.disk, Begin(config, w.disk), env, lifetime).cache == [None]
  {
    var config := OrgConfig(rego);
    var body := Content(config, version).value;
    var services, tags := [[version]], [version.tag];
    ReachesStart(config, services, [None]);
    hide Reaches, Content, Drive;
    var empty, full := Disk(None, [None]), Disk(None, [Some(body)]);
    ReachesBegin(config, services, empty);
    assert Loaded(config, empty) == [""];
    ReachesWritten(config, services, empty, 0, [""], version);
    assert empty.cache[0 := Some(body)] == full.cache && [""][0 := version.tag] == tags;
    ReachesSaved(config, services, full, tags);
    var w := World(services, Disk(Some(tags), [Some(body)]), Idle);
    ReachesShaped(config, w);
    assert w.disk.cache[0 := None] == [None];
    ReachesNext(config, w, LoseCache(0), World(services, Disk(Some(tags), [None]), Idle));
    NothingFetched(config, Disk(Some(tags), [None]), Environment(map[0 := version], {}, {0}, true), lifetime);
  }

  lemma {:induction false} NothingFetched(config: Config, disk: Disk, env: Environment, lifetime: nat)
    requires config.resources == 1 && Shaped(config, disk, Idle) && disk.tags.Some? && lifetime >= 2
    requires AnswerTo(env, 0, disk.tags.value[0]) == NotModified
    ensures Drive(config, disk, Begin(config, disk), env, lifetime).cache == disk.cache
  {
    DriveFetch(config, disk, 0, disk.tags.value, env, lifetime);
    DriveEnd(config, disk, disk.tags.value, env, lifetime - 1);
  }
}
