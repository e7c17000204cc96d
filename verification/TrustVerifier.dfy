/** Asynchronous trust verification: a cache shared by any number of callers and verification goroutines.

The class has one method per lock region; the state machine below interleaves those regions, with a
program counter for every caller and every goroutine. */
module TrustVerifier {
  import opened Outcomes
  import opened VerifyPipeline

  // ----- The cache, one lock region at a time -----------------------------------------------

  /** What one verification saw: whether the artifact was on disk, and what the pipeline returned, if
      it was reached and did not fail. */
  datatype Run = NoLockfile | Ran(onDisk: bool, outcome: Option<VerifyResult>)

  datatype Entry = InFlight | Final(tier: Tier, run: Run)

  type Cache = map<string, Entry>

  /** The tier a run earns.  Without an artifact on disk it is at most partial. */
  function RunTier(run: Run): (t: Tier)
    ensures t == Verified <==> run.Ran? && run.onDisk && run.outcome.Some? && run.outcome.value.passed
  {
    match run
    case NoLockfile => Unverified
    case Ran(onDisk, outcome) =>
      var t := TierOf(outcome);
      if !onDisk && t == Verified then Partial else t
  }

  /** What a goroutine runs the pipeline against. */
  datatype Evidence = Evidence(env: Surroundings, skip: bool, artifactPath: string, lockfilePath: string)

  function InputOf(e: Evidence, onDisk: bool): VerifyInput {
    VerifyInput(if onDisk then e.artifactPath else "", "", e.lockfilePath, "", false)
  }

  /** The pipeline gives this outcome there: none when the lockfile cannot be read. */
  ghost predicate Gives(e: Evidence, onDisk: bool, outcome: Option<VerifyResult>, asked: Option<PolicyInput>) {
    var read := e.env.readLockfile(LockfilePath(e.env, InputOf(e, onDisk)));
    match outcome
    case None => read.Err?
    case Some(v) => read.Ok? && RunsClosed(e.env, e.skip, InputOf(e, onDisk), read.value, v, asked)
  }

  /** A run that reached the pipeline has what the pipeline gave. */
  ghost predicate Genuine(e: Evidence, run: Run) {
    run.Ran? ==> exists asked :: Gives(e, run.onDisk, run.outcome, asked)
  }

  /** Each of the four checks passes there, for an artifact on disk: its hash is that of the lockfile, the bundle
      beside it verifies, the log has it unless it is skipped, and the policy lets its manifest and signer through. */
  ghost predicate AllPass(e: Evidence) {
    var read := e.env.readLockfile(if e.lockfilePath == "" then e.env.defaultLockfile(e.artifactPath) else e.lockfilePath);
    && read.Ok? && e.env.hashArtifact(e.artifactPath) == Ok(read.value.sha256)
    && var signature := e.env.verifySignature(e.artifactPath + ".sigstore.json", read.value.sha256);
       var entry := e.env.lookupEntry(read.value.artifactId);
       var manifest := e.env.readManifest(e.env.defaultManifest(e.artifactPath));
       && signature.Ok?
       && (e.skip || (entry.Ok? && entry.value.sha256 == read.value.sha256
                      && (e.env.proof.Some? ==> e.env.proof.value(entry.value.logIndex, read.value.artifactId, read.value.sha256).Ok?)))
       && manifest.Ok? && manifest.value.validationErrors == []
       && var answer := e.env.evaluatePolicy(PolicyInput(manifest.value.capabilities, signature.value.identity, signature.value.issuer));
          answer.Ok? && (answer.value.decision == "allow" || answer.value.decision == "warn")
  }

  /** The tier a skill with a lockfile should get: none without a readable lockfile or with another hash, the
      highest when the artifact is on disk and everything passes, and partial in every other case. */
  ghost function EarnedTier(e: Evidence, onDisk: bool): Tier {
    var artifact := if onDisk then e.artifactPath else "";
    var read := e.env.readLockfile(if e.lockfilePath == "" then e.env.defaultLockfile(artifact) else e.lockfilePath);
    if read.Err? || e.env.hashArtifact(artifact) != Ok(read.value.sha256) then Unverified
    else if onDisk && AllPass(e) then Verified
    else Partial
  }

  /** A genuine run publishes exactly the tier its skill should get. */
  lemma {:induction false} TierIsEarned(e: Evidence, run: Run)
    requires Genuine(e, run) && run.Ran?
    ensures RunTier(run) == EarnedTier(e, run.onDisk)
  {
    hide RunsClosed, FailClosed, AllPass, Checks;
    var asked :| Gives(e, run.onDisk, run.outcome, asked);
    VerifiedPasses(e, run);
    if run.outcome.Some? {
      var input := InputOf(e, run.onDisk);
      var lock := e.env.readLockfile(LockfilePath(e.env, input)).value;
      ClosedIsFailClosed(e.env, e.skip, input, lock, run.outcome.value, asked);
      FlagsAre(e.env, input, e.skip, lock);
      TierOfRun(run.outcome.value, Checks(e.env, input, e.skip, lock));
    }
  }

  /** A genuine run earns the verified tier exactly when the artifact was on disk and all four checks passed. */
  lemma {:induction false} VerifiedPasses(e: Evidence, run: Run)
    requires Genuine(e, run) && run.Ran?
    ensures RunTier(run) == Verified <==> run.onDisk && AllPass(e)
  {
    hide RunsClosed, FailClosed;
    var asked :| Gives(e, run.onDisk, run.outcome, asked);
    if run.onDisk && run.outcome.Some? {
      var input := InputOf(e, true);
      var lock := e.env.readLockfile(LockfilePath(e.env, input)).value;
      PassesExactly(e.env, e.skip, input, lock, run.outcome.value, asked);
    }
  }

  lemma ClosedIsFailClosed(env: Surroundings, skip: bool, input: VerifyInput, lock: Lockfile, r: VerifyResult, asked: Option<PolicyInput>)
    requires RunsClosed(env, skip, input, lock, r, asked)
    ensures FailClosed(r, Checks(env, input, skip, lock))
  {
  }

  /** Read lock: the cached answer, if there is one. */
  function Peek(cache: Cache, skill: string): Option<Tier> {
    if skill !in cache then None
    else if cache[skill].InFlight? then Some(Unverified)
    else Some(cache[skill].tier)
  }

  /** Write lock: claim a skill that is still absent. */
  function Claim(cache: Cache, skill: string): Cache {
    if skill in cache then cache else cache[skill := InFlight]
  }

  /** Write lock: publish a result. */
  function Publish(cache: Cache, skill: string, run: Run): Cache {
    cache[skill := Final(RunTier(run), run)]
  }

  class Verifier {
    var cache: Cache

    constructor ()
      ensures cache == map[]
    {
      cache := map[];
    }

    method PeekTier(skill: string) returns (tier: Option<Tier>)
      ensures tier == Peek(cache, skill)
    {
      if skill in cache {
        var result := cache[skill];
        if result.InFlight? {
          return Some(Unverified);
        }
        return Some(result.tier);
      }
      tier := None;
    }

    /** Returns whether the caller must launch the verification. */
    method StartVerification(skill: string) returns (launch: bool)
      modifies this
      ensures cache == Claim(old(cache), skill)
      ensures launch <==> skill !in old(cache)
    {
      if skill in cache {
        return false;
      }
      cache := cache[skill := InFlight];
      launch := true;
    }

    /** A whole call when nobody interferes: the cached tier, or unverified and a launch. */
    method GetTier(skill: string) returns (tier: Tier, launch: bool)
      modifies this
      ensures cache == Claim(old(cache), skill)
      ensures launch <==> skill !in old(cache)
      ensures tier == if launch then Unverified else Peek(old(cache), skill).value
    {
      var cached := PeekTier(skill);
      if cached.Some? {
        return cached.value, false;
      }
      launch := StartVerification(skill);
      tier := Unverified;
    }

    /** The goroutine: locates the lockfile and the artifact, runs the pipeline, publishes the tier. */
    method RunVerification(skill: string, lockfilePath: Option<string>, artifactPath: string, onDisk: bool,
                           env: Surroundings, skip: bool)
      modifies this
      ensures exists run :: cache == Publish(old(cache), skill, run)
                            && (lockfilePath.Some? ==> Genuine(Evidence(env, skip, artifactPath, lockfilePath.value), run))
                            && (lockfilePath.None? ==> run == NoLockfile)
                            && (lockfilePath.Some? ==> run.Ran? && run.onDisk == onDisk)
      ensures skill in cache && cache[skill].Final?
      ensures cache[skill].tier == if lockfilePath.None? then Unverified
                                   else EarnedTier(Evidence(env, skip, artifactPath, lockfilePath.value), onDisk)
    {
      if lockfilePath.None? {
        WriteResult(skill, NoLockfile, Unverified);
        return;
      }
      var path := if onDisk then artifactPath else "";
      var input := VerifyInput(path, "", lockfilePath.value, "", false);
      var vr, asked := Verify(env, skip, input);
      if vr.Err? {
        assert Gives(Evidence(env, skip, artifactPath, lockfilePath.value), onDisk, None, None);
        TierIsEarned(Evidence(env, skip, artifactPath, lockfilePath.value), Ran(onDisk, None));
        WriteResult(skill, Ran(onDisk, None), Unverified);
        return;
      }
      var tier := AssignTier(Some(vr.value));
      if !onDisk && tier == Verified {
        tier := Partial;
      }
      assert Gives(Evidence(env, skip, artifactPath, lockfilePath.value), onDisk, Some(vr.value), asked);
      TierIsEarned(Evidence(env, skip, artifactPath, lockfilePath.value), Ran(onDisk, Some(vr.value)));
      WriteResult(skill, Ran(onDisk, Some(vr.value)), tier);
    }

    method WriteResult(skill: string, run: Run, tier: Tier)
      requires tier == RunTier(run)
      modifies this
      ensures cache == Publish(old(cache), skill, run)
    {
      cache := cache[skill := Final(tier, run)];
    }
  }

  // ----- All interleavings ------------------------------------------------------------------

  datatype Caller =
    | Arrived(skill: string)   // about to take the read lock
    | Missed(skill: string)    // found nothing, about to take the write lock
    | Marked(skill: string)    // claimed the skill, about to start the goroutine
    | Returned

  datatype Worker =
    | Starting(skill: string)
    | Located(skill: string)                // has the lockfile
    | Checked(skill: string, onDisk: bool)  // knows whether the artifact is there
    | Writing(skill: string, run: Run)      // about to take the write lock
    | Finished(skill: string)

  datatype Answer = Answer(skill: string, tier: Tier)

  /** `answers` lists what GetTier calls answer, in the order of their cache reads; `launched` lists the
      skills whose verification was launched, one for each worker; `seen` has what each skill's pipeline run
      was made against. */
  datatype System = System(cache: Cache, callers: seq<Caller>, workers: seq<Worker>, launched: seq<string>,
                           answers: seq<Answer>, seen: map<string, Evidence>)

  const START: System := System(map[], [], [], [], [], map[])

  datatype Step =
    | Arrive(skill: string)
    | Read(i: nat)
    | Lock(i: nat)
    | Spawn(i: nat)
    | Resolve(j: nat, found: bool)
    | Stat(j: nat, onDisk: bool)
    | RunPipeline(j: nat, evidence: Evidence, outcome: Option<VerifyResult>)
    | Write(j: nat)

  ghost predicate Enabled(s: System, step: Step) {
    match step
    case Arrive(_) => true
    case Read(i) => i < |s.callers| && s.callers[i].Arrived?
    case Lock(i) => i < |s.callers| && s.callers[i].Missed?
    case Spawn(i) => i < |s.callers| && s.callers[i].Marked?
    case Resolve(j, _) => j < |s.workers| && s.workers[j].Starting?
    case Stat(j, _) => j < |s.workers| && s.workers[j].Located?
    case RunPipeline(j, evidence, outcome) =>
      j < |s.workers| && s.workers[j].Checked? && Genuine(evidence, Ran(s.workers[j].onDisk, outcome))
    case Write(j) => j < |s.workers| && s.workers[j].Writing?
  }

  ghost function After(s: System, step: Step): System
    requires Enabled(s, step)
  {
    match step
    case Arrive(skill) => s.(callers := s.callers + [Arrived(skill)])
    case Read(i) =>
      var skill := s.callers[i].skill;
      var cached := Peek(s.cache, skill);
      s.(callers := s.callers[i := if cached.Some? then Returned else Missed(skill)],
         answers := s.answers + [Answer(skill, if cached.Some? then cached.value else Unverified)])
    case Lock(i) =>
      var skill := s.callers[i].skill;
      s.(callers := s.callers[i := if skill in s.cache then Returned else Marked(skill)],
         cache := Claim(s.cache, skill))
    case Spawn(i) =>
      var skill := s.callers[i].skill;
      s.(callers := s.callers[i := Returned],
         workers := s.workers + [Starting(skill)],
         launched := s.launched + [skill])
    case Resolve(j, found) =>
      var skill := s.workers[j].skill;
      s.(workers := s.workers[j := if found then Located(skill) else Writing(skill, NoLockfile)])
    case Stat(j, onDisk) => s.(workers := s.workers[j := Checked(s.workers[j].skill, onDisk)])
    case RunPipeline(j, evidence, outcome) =>
      s.(workers := s.workers[j := Writing(s.workers[j].skill, Ran(s.workers[j].onDisk, outcome))],
         seen := s.seen[s.workers[j].skill := evidence])
    case Write(j) =>
      s.(workers := s.workers[j := Finished(s.workers[j].skill)],
         cache := Publish(s.cache, s.workers[j].skill, s.workers[j].run))
  }

  ghost predicate Next(s: System, s': System) {
    exists step :: Enabled(s, step) && s' == After(s, step)
  }

  ghost predicate Behaviour(tr: seq<System>) {
    && tr != [] && tr[0] == START
    && forall i | 0 <= i < |tr| - 1 :: Next(tr[i], tr[i + 1])
  }

  // ----- What every step keeps --------------------------------------------------------------

  /** Every claimed skill has exactly one owner: the caller about to launch it, or its one worker. */
  ghost predicate OwnersValid(s: System) {
    && |s.workers| == |s.launched|
    && (forall j | 0 <= j < |s.workers| :: s.workers[j].skill == s.launched[j])
    && (forall j, k | 0 <= j < k < |s.launched| :: s.launched[j] != s.launched[k])
    && (forall i | 0 <= i < |s.callers| && s.callers[i].Marked? :: s.callers[i].skill !in s.launched)
    && (forall i, k | 0 <= i < k < |s.callers| && s.callers[i].Marked? && s.callers[k].Marked? ::
          s.callers[i].skill != s.callers[k].skill)
  }

  /** An entry is in flight until its worker has written, and final from then on. */
  ghost predicate EntriesValid(s: System) {
    && (forall i | 0 <= i < |s.callers| && s.callers[i].Marked? ::
          s.callers[i].skill in s.cache && s.cache[s.callers[i].skill].InFlight?)
    && (forall j | 0 <= j < |s.workers| ::
          s.workers[j].skill in s.cache && (s.cache[s.workers[j].skill].Final? <==> s.workers[j].Finished?))
    && (forall k | k in s.cache && s.cache[k].Final? :: s.cache[k].tier == RunTier(s.cache[k].run))
  }

  /** Every result to be written and every result written is what the pipeline gave. */
  ghost predicate EvidenceValid(s: System) {
    && (forall j | 0 <= j < |s.workers| && s.workers[j].Writing? && s.workers[j].run.Ran? ::
          s.workers[j].skill in s.seen && Genuine(s.seen[s.workers[j].skill], s.workers[j].run))
    && (forall k | k in s.cache && s.cache[k].Final? && s.cache[k].run.Ran? ::
          k in s.seen && Genuine(s.seen[k], s.cache[k].run))
  }

  /** An answer other than unverified is the final tier of its skill. */
  ghost predicate AnswersValid(s: System) {
    && (forall a | 0 <= a < |s.answers| && s.answers[a].tier != Unverified ::
          s.answers[a].skill in s.cache && s.cache[s.answers[a].skill].Final?
          && s.cache[s.answers[a].skill].tier == s.answers[a].tier)
    && (forall a, b | 0 <= a < b < |s.answers| && s.answers[a].skill == s.answers[b].skill ::
          s.answers[a].tier == Unverified || s.answers[b].tier == s.answers[a].tier)
  }

  ghost predicate Valid(s: System) {
    OwnersValid(s) && EntriesValid(s) && AnswersValid(s) && EvidenceValid(s)
  }

  /** The caller that spawns is the only owner of its skill. */
  lemma OwnersKept(s: System, step: Step)
    requires Valid(s) && Enabled(s, step)
    ensures OwnersValid(After(s, step))
  {
    var s' := After(s, step);
    match step
    case Lock(i) =>
      var skill := s.callers[i].skill;
      if skill !in s.cache {
        assert forall j | 0 <= j < |s.launched| :: s.workers[j].skill == s.launched[j] && s.launched[j] in s.cache;
      }
    case Spawn(i) =>
      assert s'.launched == s.launched + [s.callers[i].skill];
    case Arrive(_) =>
    case Read(_) =>
    case Resolve(_, _) =>
    case Stat(_, _) =>
    case RunPipeline(_, _, _) =>
    case Write(_) =>
  }

  lemma EntriesKept(s: System, step: Step)
    requires Valid(s) && Enabled(s, step)
    ensures EntriesValid(After(s, step))
  {
    var s' := After(s, step);
    match step
    case Write(j) =>
      var skill := s.workers[j].skill;
      forall i | 0 <= i < |s.callers| && s.callers[i].Marked? ensures s.callers[i].skill != skill {
        assert s.launched[j] in s.launched;
      }
      forall k | 0 <= k < |s.workers| && k != j ensures s.workers[k].skill != skill {
        assert s.launched[k] != s.launched[j];
      }
    case Spawn(i) =>
    case Lock(i) =>
    case Arrive(_) =>
    case Read(_) =>
    case Resolve(_, _) =>
    case Stat(_, _) =>
    case RunPipeline(_, _, _) =>
  }

  /** A final entry survives every step as it is, and no entry disappears. */
  lemma FinalIsFinal(s: System, step: Step)
    requires Valid(s) && Enabled(s, step)
    ensures var s' := After(s, step);
            forall k | k in s.cache :: k in s'.cache && (s.cache[k].Final? ==> s'.cache[k] == s.cache[k])
    ensures var s' := After(s, step);
            forall k | k in s'.cache && k !in s.cache :: s'.cache[k].InFlight?
    ensures s.answers <= After(s, step).answers
  {
    if step.Write? {
      assert !s.workers[step.j].Finished?;
    }
  }

  lemma AnswersKept(s: System, step: Step)
    requires Valid(s) && Enabled(s, step)
    ensures AnswersValid(After(s, step))
  {
    hide OwnersValid, EntriesValid;
    var s' := After(s, step);
    FinalIsFinal(s, step);
    if step.Read? {
      var skill := s.callers[step.i].skill;
      assert s'.answers[..|s.answers|] == s.answers;
    } else {
      assert s'.answers == s.answers;
    }
  }

  lemma EvidenceKept(s: System, step: Step)
    requires Valid(s) && Enabled(s, step)
    ensures EvidenceValid(After(s, step))
  {
    hide Genuine, AnswersValid;
    var s' := After(s, step);
    match step
    case RunPipeline(j, evidence, outcome) =>
      var skill := s.workers[j].skill;
      forall k | 0 <= k < |s.workers| && k != j ensures s.workers[k].skill != skill {
        assert s.launched[k] != s.launched[j];
      }
    case Write(j) =>
    case Arrive(_) =>
    case Read(_) =>
    case Lock(_) =>
    case Spawn(_) =>
    case Resolve(_, _) =>
    case Stat(_, _) =>
  }

  lemma ValidKept(s: System, s': System)
    requires Valid(s) && Next(s, s')
    ensures Valid(s')
  {
    hide OwnersValid, EntriesValid, AnswersValid, EvidenceValid;
    var step :| Enabled(s, step) && s' == After(s, step);
    OwnersKept(s, step);
    EvidenceKept(s, step);
    EntriesKept(s, step);
    AnswersKept(s, step);
  }

  lemma {:induction false} AlwaysValid(tr: seq<System>, i: nat)
    requires Behaviour(tr) && i < |tr|
    ensures Valid(tr[i])
  {
    if i > 0 {
      AlwaysValid(tr, i - 1);
      ValidKept(tr[i - 1], tr[i]);
    }
  }

  // ----- The guarantees, over every interleaving --------------------------------------------

  /** At most one verification is launched for each skill. */
  lemma OneLaunchPerSkill(tr: seq<System>, i: nat, j: nat, k: nat)
    requires Behaviour(tr) && i < |tr| && j < k < |tr[i].launched|
    ensures tr[i].launched[j] != tr[i].launched[k]
  {
    AlwaysValid(tr, i);
  }

  /** An entry goes from absent to in flight to final; once final it never changes again. */
  lemma {:induction false} EntriesOnlyAdvance(tr: seq<System>, i: nat, j: nat, skill: string)
    requires Behaviour(tr) && i <= j < |tr| && skill in tr[i].cache
    ensures skill in tr[j].cache
    ensures tr[i].cache[skill].Final? ==> tr[j].cache[skill] == tr[i].cache[skill]
  {
    hide Valid, Next;
    if i < j {
      EntriesOnlyAdvance(tr, i, j - 1, skill);
      AlwaysValid(tr, j - 1);
      assert Next(tr[j - 1], tr[j]);
      StepKeeps(tr[j - 1], tr[j]);
    }
  }

  lemma StepKeeps(s: System, s': System)
    requires Valid(s) && Next(s, s')
    ensures forall k | k in s.cache :: k in s'.cache && (s.cache[k].Final? ==> s'.cache[k] == s.cache[k])
    ensures forall k | k in s'.cache && k !in s.cache :: s'.cache[k].InFlight?
    ensures s.answers <= s'.answers
  {
    hide Valid, Enabled, After;
    var step :| Enabled(s, step) && s' == After(s, step);
    FinalIsFinal(s, step);
  }

  /** An entry that just appeared is in flight: no skill becomes final without having been claimed. */
  lemma AppearsInFlight(tr: seq<System>, i: nat, skill: string)
    requires Behaviour(tr) && i + 1 < |tr| && skill !in tr[i].cache && skill in tr[i + 1].cache
    ensures tr[i + 1].cache[skill].InFlight?
  {
    hide Valid, Next;
    AlwaysValid(tr, i);
    StepKeeps(tr[i], tr[i + 1]);
  }

  /** Answers for one skill, in the order of their cache reads, are unverified up to some point and one
      constant tier from then on. */
  lemma AnswersSettle(tr: seq<System>, i: nat, a: nat, b: nat)
    requires Behaviour(tr) && i < |tr| && a < b < |tr[i].answers|
    requires tr[i].answers[a].skill == tr[i].answers[b].skill
    ensures tr[i].answers[a].tier == Unverified || tr[i].answers[b] == tr[i].answers[a]
  {
    AlwaysValid(tr, i);
  }

  /** `verified` is answered only when a run with the artifact on disk passed the whole pipeline: each
      of the four checks passed against what it was run on. */
  lemma VerifiedIsEarned(tr: seq<System>, i: nat, a: nat)
    requires Behaviour(tr) && i < |tr| && a < |tr[i].answers| && tr[i].answers[a].tier == Verified
    ensures var skill := tr[i].answers[a].skill;
            && skill in tr[i].cache && tr[i].cache[skill].Final?
            && var run := tr[i].cache[skill].run;
               run.Ran? && run.onDisk && run.outcome.Some? && run.outcome.value.passed
    ensures var skill := tr[i].answers[a].skill;
            skill in tr[i].seen && AllPass(tr[i].seen[skill])
  {
    AlwaysValid(tr, i);
    var skill := tr[i].answers[a].skill;
    hide Genuine, AllPass;
    VerifiedPasses(tr[i].seen[skill], tr[i].cache[skill].run);
  }

  /** Whatever has been published is the tier its skill should get. */
  lemma PublishedIsEarned(tr: seq<System>, i: nat, skill: string)
    requires Behaviour(tr) && i < |tr| && skill in tr[i].cache && tr[i].cache[skill].Final?
    ensures var entry := tr[i].cache[skill];
            if entry.run.NoLockfile? then entry.tier == Unverified
            else skill in tr[i].seen && entry.tier == EarnedTier(tr[i].seen[skill], entry.run.onDisk)
  {
    AlwaysValid(tr, i);
    hide Genuine, EarnedTier;
    if tr[i].cache[skill].run.Ran? {
      TierIsEarned(tr[i].seen[skill], tr[i].cache[skill].run);
    }
  }

  /** An answer other than unverified is the tier its skill should get. */
  lemma AnswersAreEarned(tr: seq<System>, i: nat, a: nat)
    requires Behaviour(tr) && i < |tr| && a < |tr[i].answers| && tr[i].answers[a].tier != Unverified
    ensures var skill := tr[i].answers[a].skill;
            && skill in tr[i].cache && tr[i].cache[skill].Final? && tr[i].cache[skill].run.Ran? && skill in tr[i].seen
            && tr[i].answers[a].tier == EarnedTier(tr[i].seen[skill], tr[i].cache[skill].run.onDisk)
  {
    AlwaysValid(tr, i);
    hide EarnedTier, Genuine;
    PublishedIsEarned(tr, i, tr[i].answers[a].skill);
  }

  /** A call that reads a published entry answers its tier. */
  lemma ReadsThePublished(tr: seq<System>, i: nat, c: nat)
    requires Behaviour(tr) && i < |tr| && Enabled(tr[i], Read(c))
    requires tr[i].callers[c].skill in tr[i].cache && tr[i].cache[tr[i].callers[c].skill].Final?
    ensures var skill, after := tr[i].callers[c].skill, After(tr[i], Read(c));
            after.answers == tr[i].answers + [Answer(skill, tr[i].cache[skill].tier)]
  {
    AlwaysValid(tr, i);
  }

  /** While a verification has not been written, every call for its skill answers unverified. */
  lemma UnverifiedUntilWritten(tr: seq<System>, i: nat, j: nat, a: nat)
    requires Behaviour(tr) && i < |tr| && j < |tr[i].workers| && a < |tr[i].answers|
    requires !tr[i].workers[j].Finished? && tr[i].answers[a].skill == tr[i].workers[j].skill
    ensures tr[i].answers[a].tier == Unverified
  {
    AlwaysValid(tr, i);
  }
}
