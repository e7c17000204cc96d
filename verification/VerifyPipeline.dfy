/** The install-time verification pipeline: hash check, signature, transparency log, policy.  It stops at
the first failure and passes only when all four steps do. */
module VerifyPipeline {
  import opened Outcomes

  datatype Lockfile = Lockfile(artifactId: string, sha256: string)

  datatype Signer = Signer(identity: string, issuer: string)

  datatype LogEntry = LogEntry(sha256: string, logIndex: nat)

  datatype Capabilities = Capabilities(network: seq<string>, filesystem: seq<string>, tools: seq<string>, secrets: seq<string>)

  /** A manifest that was read and decoded, with the messages of its validation errors. */
  datatype Manifest = Manifest(capabilities: Capabilities, validationErrors: seq<string>)

  datatype PolicyInput = PolicyInput(capabilities: Capabilities, signedBy: string, issuer: string)

  datatype PolicyResult = PolicyResult(decision: string, violations: seq<string>, warnings: seq<string>)

  /** Everything the pipeline asks of its surroundings.  Each is asked at most once in a run, so a
      function stands for any behaviour.  `proof` is absent when no proof verifier is configured. */
  datatype Surroundings = Surroundings(
    defaultLockfile: string -> string,
    defaultManifest: string -> string,
    readLockfile: string -> Result<Lockfile, string>,
    hashArtifact: string -> Result<string, string>,
    verifySignature: (string, string) -> Result<Signer, string>,
    lookupEntry: string -> Result<LogEntry, string>,
    proof: Option<(nat, string, string) -> Result<(), string>>,
    readManifest: string -> Result<Manifest, string>,
    evaluatePolicy: PolicyInput -> Result<PolicyResult, string>)

  datatype VerifyInput = VerifyInput(artifactPath: string, bundlePath: string, lockfilePath: string,
                                     manifestPath: string, skipTlog: bool)

  datatype StepResult = StepResult(name: string, passed: bool, error: string)

  /** `violations` and `warnings` are absent until something sets them. */
  datatype VerifyResult = VerifyResult(passed: bool, steps: seq<StepResult>,
                                       violations: seq<string>, warnings: seq<string>)

  // ----- What each step checks --------------------------------------------------------------

  function BundlePath(input: VerifyInput): string {
    if input.bundlePath == "" then input.artifactPath + ".sigstore.json" else input.bundlePath
  }

  function LockfilePath(env: Surroundings, input: VerifyInput): string {
    if input.lockfilePath == "" then env.defaultLockfile(input.artifactPath) else input.lockfilePath
  }

  function ManifestPath(env: Surroundings, input: VerifyInput): string {
    if input.manifestPath == "" then env.defaultManifest(input.artifactPath) else input.manifestPath
  }

  predicate HashPasses(env: Surroundings, input: VerifyInput, lock: Lockfile) {
    env.hashArtifact(input.artifactPath) == Ok(lock.sha256)
  }

  predicate SignaturePasses(env: Surroundings, input: VerifyInput, lock: Lockfile) {
    env.verifySignature(BundlePath(input), lock.sha256).Ok?
  }

  predicate Included(env: Surroundings, artifactId: string, sha256: string) {
    var entry := env.lookupEntry(artifactId);
    && entry.Ok? && entry.value.sha256 == sha256
    && (env.proof.Some? ==> env.proof.value(entry.value.logIndex, artifactId, sha256).Ok?)
  }

  predicate LogPasses(env: Surroundings, input: VerifyInput, skip: bool, lock: Lockfile) {
    input.skipTlog || skip || Included(env, lock.artifactId, lock.sha256)
  }

  /** What the policy is asked, if it is asked at all. */
  function Question(env: Surroundings, input: VerifyInput, lock: Lockfile): Option<PolicyInput> {
    match (env.readManifest(ManifestPath(env, input)), env.verifySignature(BundlePath(input), lock.sha256))
    case (Ok(m), Ok(s)) =>
      if m.validationErrors == [] then Some(PolicyInput(m.capabilities, s.identity, s.issuer)) else None
    case _ => None
  }

  predicate PolicyPasses(env: Surroundings, input: VerifyInput, lock: Lockfile) {
    var q := Question(env, input, lock);
    && q.Some? && env.evaluatePolicy(q.value).Ok?
    && env.evaluatePolicy(q.value).value.decision in {"allow", "warn"}
  }

  /** The four checks in order. */
  function Checks(env: Surroundings, input: VerifyInput, skip: bool, lock: Lockfile): (r: seq<bool>)
    ensures |r| == 4
  {
    [HashPasses(env, input, lock), SignaturePasses(env, input, lock),
     LogPasses(env, input, skip, lock), PolicyPasses(env, input, lock)]
  }

  const HASH_CHECK: string := "hash-check"
  const SIGNATURE: string := "signature"
  const TRANSPARENCY_LOG: string := "transparency-log"
  const POLICY: string := "policy"

  const STEPS: seq<string> := [HASH_CHECK, SIGNATURE, TRANSPARENCY_LOG, POLICY]

  /** The flags up to and including the first `false`. */
  function UpToFailure(flags: seq<bool>): (r: seq<bool>)
    ensures |r| <= |flags| && r == flags[..|r|]
    ensures forall i | 0 <= i < |r| - 1 :: r[i]
    ensures |r| < |flags| ==> |r| > 0 && !r[|r| - 1]
  {
    if flags == [] then []
    else if !flags[0] then [false]
    else [true] + UpToFailure(flags[1..])
  }

  /** A fail-closed run: the steps are exactly the checks up to the first failure, and the run passes
      exactly when all four are there and passed. */
  ghost predicate FailClosed(r: VerifyResult, flags: seq<bool>)
    requires |flags| == 4
  {
    var made := UpToFailure(flags);
    && |r.steps| == |made|
    && (forall i | 0 <= i < |made| :: r.steps[i].name == STEPS[i] && r.steps[i].passed == made[i])
    && (r.passed <==> forall i | 0 <= i < 4 :: flags[i])
  }

  // ----- The pipeline -----------------------------------------------------------------------

  method VerifyTlog(env: Surroundings, artifactId: string, expected: string) returns (step: StepResult)
    ensures step.name == TRANSPARENCY_LOG
    ensures step.passed <==> Included(env, artifactId, expected)
  {
    var entry := env.lookupEntry(artifactId);
    if entry.Err? {
      return StepResult(TRANSPARENCY_LOG, false, entry.error);
    }
    if entry.value.sha256 != expected {
      return StepResult(TRANSPARENCY_LOG, false, "SHA-256 mismatch between log entry and lockfile");
    }
    if env.proof.Some? {
      var included := env.proof.value(entry.value.logIndex, artifactId, expected);
      if included.Err? {
        return StepResult(TRANSPARENCY_LOG, false, "Merkle proof verification failed: " + included.error);
      }
    }
    step := StepResult(TRANSPARENCY_LOG, true, "");
  }

  /** The policy step, with the violations and warnings it reports. */
  method VerifyPolicy(env: Surroundings, question: PolicyInput)
    returns (step: StepResult, violations: Option<seq<string>>, warnings: Option<seq<string>>)
    ensures step.name == POLICY
    ensures var answer := env.evaluatePolicy(question);
            && (step.passed <==> answer.Ok? && answer.value.decision in {"allow", "warn"})
            && (violations.Some? <==> answer.Ok? && answer.value.decision == "deny")
            && (violations.Some? ==> violations.value == answer.value.violations)
            && (warnings.Some? <==> answer.Ok? && answer.value.decision == "warn")
            && (warnings.Some? ==> warnings.value == answer.value.warnings)
  {
    violations, warnings := None, None;
    var answer := env.evaluatePolicy(question);
    if answer.Err? {
      step := StepResult(POLICY, false, answer.error);
    } else if answer.value.decision == "allow" {
      step := StepResult(POLICY, true, "");
    } else if answer.value.decision == "warn" {
      step := StepResult(POLICY, true, "");
      warnings := Some(answer.value.warnings);
    } else if answer.value.decision == "deny" {
      step := StepResult(POLICY, false, "policy denied");
      violations := Some(answer.value.violations);
    } else {
      step := StepResult(POLICY, false, "unknown policy decision: " + answer.value.decision);
    }
  }

  /** The steps made so far are the first checks, in order. */
  predicate Agrees(steps: seq<StepResult>, flags: seq<bool>)
    requires |flags| == 4
  {
    |steps| <= 4 && forall i | 0 <= i < |steps| :: steps[i].name == STEPS[i] && steps[i].passed == flags[i]
  }

  lemma NothingYet(flags: seq<bool>)
    requires |flags| == 4
    ensures Agrees([], flags) && SoFar([], flags)
  {
  }

  lemma AgreesNext(steps: seq<StepResult>, flags: seq<bool>, step: StepResult)
    requires |flags| == 4 && Agrees(steps, flags) && |steps| < 4
    requires step.passed == flags[|steps|]
    requires step.name == if |steps| == 0 then HASH_CHECK else if |steps| == 1 then SIGNATURE
                          else if |steps| == 2 then TRANSPARENCY_LOG else POLICY
    ensures Agrees(steps + [step], flags)
  {
    hide HASH_CHECK, SIGNATURE, TRANSPARENCY_LOG, POLICY;
  }

  /** A run that stopped at its first failure, or after all four steps, is fail-closed. */
  lemma Stops(r: VerifyResult, flags: seq<bool>)
    requires |flags| == 4 && 1 <= |r.steps| <= 4 && Agrees(r.steps, flags)
    requires forall i | 0 <= i < |r.steps| - 1 :: flags[i]
    requires r.passed == flags[|r.steps| - 1]
    requires r.passed ==> |r.steps| == 4
    ensures FailClosed(r, flags)
  {
    var made := UpToFailure(flags);
    assert |made| == |r.steps|;
  }

  /** Every step made so far is one of the checks, in order, and passed. */
  predicate SoFar(steps: seq<StepResult>, flags: seq<bool>)
    requires |flags| == 4
  {
    Agrees(steps, flags) && forall i | 0 <= i < |steps| :: flags[i]
  }

  /** One more step: the run goes on, or is fail-closed with it. */
  lemma StepMade(steps: seq<StepResult>, flags: seq<bool>, step: StepResult)
    requires |flags| == 4 && |steps| < 4 && SoFar(steps, flags) && step.passed == flags[|steps|]
    requires step.name == if |steps| == 0 then HASH_CHECK else if |steps| == 1 then SIGNATURE
                          else if |steps| == 2 then TRANSPARENCY_LOG else POLICY
    ensures step.passed ==> SoFar(steps + [step], flags)
    ensures forall r: VerifyResult | r.steps == steps + [step] && r.passed == step.passed && (step.passed ==> |steps| == 3) :: FailClosed(r, flags)
  {
    hide FailClosed, Agrees, HASH_CHECK, SIGNATURE, TRANSPARENCY_LOG, POLICY;
    AgreesNext(steps, flags, step);
    forall r: VerifyResult | r.steps == steps + [step] && r.passed == step.passed && (step.passed ==> |steps| == 3)
      ensures FailClosed(r, flags)
    {
      Stops(r, flags);
    }
  }

  /** What a run with a readable lockfile returns, and what it asks the policy. */
  ghost predicate RunsClosed(env: Surroundings, skip: bool, input: VerifyInput, lock: Lockfile,
                             r: VerifyResult, asked: Option<PolicyInput>) {
    && FailClosed(r, Checks(env, input, skip, lock))
    && asked == (if HashPasses(env, input, lock) && SignaturePasses(env, input, lock) && LogPasses(env, input, skip, lock)
                 then Question(env, input, lock) else None)
    && r.violations == Violations(env, asked)
    && r.warnings == (if Warned(env, asked) then env.evaluatePolicy(asked.value).value.warnings
                      else if HashPasses(env, input, lock) && SignaturePasses(env, input, lock) && (input.skipTlog || skip)
                      then [SKIPPED] else [])
  }

  const SKIPPED: string := "transparency log verification was skipped via --skip-tlog"

  /** The violations of a policy that was asked and denied. */
  function Violations(env: Surroundings, asked: Option<PolicyInput>): seq<string> {
    if asked.Some? && env.evaluatePolicy(asked.value).Ok? && env.evaluatePolicy(asked.value).value.decision == "deny"
    then env.evaluatePolicy(asked.value).value.violations else []
  }

  predicate Warned(env: Surroundings, asked: Option<PolicyInput>) {
    asked.Some? && env.evaluatePolicy(asked.value).Ok? && env.evaluatePolicy(asked.value).value.decision == "warn"
  }

  /** When a run passes, in terms of what its surroundings answer. */
  lemma PassesExactly(env: Surroundings, skip: bool, input: VerifyInput, lock: Lockfile, r: VerifyResult, asked: Option<PolicyInput>)
    requires RunsClosed(env, skip, input, lock, r, asked)
    ensures var signature := env.verifySignature(if input.bundlePath == "" then input.artifactPath + ".sigstore.json" else input.bundlePath, lock.sha256);
            var entry := env.lookupEntry(lock.artifactId);
            var manifest := env.readManifest(if input.manifestPath == "" then env.defaultManifest(input.artifactPath) else input.manifestPath);
            r.passed <==>
              && env.hashArtifact(input.artifactPath) == Ok(lock.sha256)
              && signature.Ok?
              && (input.skipTlog || skip
                  || (entry.Ok? && entry.value.sha256 == lock.sha256
                      && (env.proof.Some? ==> env.proof.value(entry.value.logIndex, lock.artifactId, lock.sha256).Ok?)))
              && manifest.Ok? && manifest.value.validationErrors == []
              && var answer := env.evaluatePolicy(PolicyInput(manifest.value.capabilities, signature.value.identity, signature.value.issuer));
                 answer.Ok? && (answer.value.decision == "allow" || answer.value.decision == "warn")
  {
    FlagsAre(env, input, skip, lock);
    hide UpToFailure, Checks;
    var flags := Checks(env, input, skip, lock);
    assert (forall i | 0 <= i < 4 :: flags[i]) <==> flags[0] && flags[1] && flags[2] && flags[3];
  }

  /** The steps of a run: their names, which of them passed, and how many there are. */
  lemma StepsExactly(env: Surroundings, skip: bool, input: VerifyInput, lock: Lockfile, r: VerifyResult, asked: Option<PolicyInput>)
    requires RunsClosed(env, skip, input, lock, r, asked)
    ensures 1 <= |r.steps| <= 4
    ensures r.steps[0].name == "hash-check" && (r.steps[0].passed <==> env.hashArtifact(input.artifactPath) == Ok(lock.sha256))
    ensures |r.steps| >= 2 <==> r.steps[0].passed
    ensures |r.steps| >= 2 ==>
              && r.steps[1].name == "signature"
              && (r.steps[1].passed <==>
                    env.verifySignature(if input.bundlePath == "" then input.artifactPath + ".sigstore.json" else input.bundlePath, lock.sha256).Ok?)
              && (|r.steps| >= 3 <==> r.steps[1].passed)
    ensures |r.steps| >= 3 ==>
              r.steps[2].name == "transparency-log" && (input.skipTlog || skip ==> r.steps[2].passed) && (|r.steps| == 4 <==> r.steps[2].passed)
    ensures |r.steps| == 4 ==> r.steps[3].name == "policy" && r.steps[3].passed == r.passed
  {
    FlagsAre(env, input, skip, lock);
    var flags := Checks(env, input, skip, lock);
    hide PolicyPasses, Included;
    if flags[0] {
      Unroll(flags);
    }
    assert (forall i | 0 <= i < 4 :: flags[i]) <==> flags[0] && flags[1] && flags[2] && flags[3];
    hide Checks, UpToFailure;
  }

  /** What a run reports: the violations of a denial, the policy's warnings or the notice of a skipped log. */
  lemma ReportsExactly(env: Surroundings, skip: bool, input: VerifyInput, lock: Lockfile, r: VerifyResult, asked: Option<PolicyInput>)
    requires RunsClosed(env, skip, input, lock, r, asked)
    ensures asked.Some? && env.evaluatePolicy(asked.value).Ok? && env.evaluatePolicy(asked.value).value.decision == "deny" ==>
              r.violations == env.evaluatePolicy(asked.value).value.violations
    ensures asked.None? || env.evaluatePolicy(asked.value).Err? || env.evaluatePolicy(asked.value).value.decision != "deny" ==>
              r.violations == []
    ensures asked.Some? && env.evaluatePolicy(asked.value).Ok? && env.evaluatePolicy(asked.value).value.decision == "warn" ==>
              r.warnings == env.evaluatePolicy(asked.value).value.warnings
    ensures asked.None? || env.evaluatePolicy(asked.value).Err? || env.evaluatePolicy(asked.value).value.decision != "warn" ==>
              r.warnings == if |r.steps| >= 3 && (input.skipTlog || skip)
                            then ["transparency log verification was skipped via --skip-tlog"] else []
  {
    hide PolicyPasses, Included;
    StepsExactly(env, skip, input, lock, r, asked);
  }

  /** What a run asks: the capabilities of a valid manifest and the verified signer, once the log step passed. */
  lemma AsksExactly(env: Surroundings, skip: bool, input: VerifyInput, lock: Lockfile, r: VerifyResult, asked: Option<PolicyInput>)
    requires RunsClosed(env, skip, input, lock, r, asked)
    ensures var manifest := env.readManifest(if input.manifestPath == "" then env.defaultManifest(input.artifactPath) else input.manifestPath);
            && (asked.Some? <==> |r.steps| == 4 && manifest.Ok? && manifest.value.validationErrors == [])
            && (asked.Some? ==> asked.value.capabilities == manifest.value.capabilities)
  {
    hide PolicyPasses;
    FlagsAre(env, input, skip, lock);
    StepsExactly(env, skip, input, lock, r, asked);
    hide Included, Checks, UpToFailure;
    assert |r.steps| == 4 ==> r.steps[2].passed;
    LogStepIs(env, skip, input, lock, r, asked);
  }

  lemma LogStepIs(env: Surroundings, skip: bool, input: VerifyInput, lock: Lockfile, r: VerifyResult, asked: Option<PolicyInput>)
    requires RunsClosed(env, skip, input, lock, r, asked)
    ensures |r.steps| >= 3 ==> (r.steps[2].passed <==> LogPasses(env, input, skip, lock))
    ensures |r.steps| >= 3 <==> HashPasses(env, input, lock) && SignaturePasses(env, input, lock)
  {
    FlagsAre(env, input, skip, lock);
    var flags := Checks(env, input, skip, lock);
    hide PolicyPasses, LogPasses;
    if flags[0] {
      Unroll(flags);
    }
    hide Checks, UpToFailure;
  }

  /** The policy is asked only after a verified signature, and with that signer's identity. */
  lemma AsksWithSigner(env: Surroundings, skip: bool, input: VerifyInput, lock: Lockfile, r: VerifyResult, asked: Option<PolicyInput>)
    requires RunsClosed(env, skip, input, lock, r, asked) && asked.Some?
    ensures var signer := env.verifySignature(BundlePath(input), lock.sha256);
            signer.Ok? && asked.value.signedBy == signer.value.identity && asked.value.issuer == signer.value.issuer
    ensures |r.steps| == 4 && r.steps[1].passed
  {
    hide LogPasses, PolicyPasses;
    Unroll(Checks(env, input, skip, lock));
  }

  lemma FlagsAre(env: Surroundings, input: VerifyInput, skip: bool, lock: Lockfile)
    ensures var flags := Checks(env, input, skip, lock);
            && flags[0] == HashPasses(env, input, lock) && flags[1] == SignaturePasses(env, input, lock)
            && flags[2] == LogPasses(env, input, skip, lock) && flags[3] == PolicyPasses(env, input, lock)
            && flags[2] == (input.skipTlog || skip || Included(env, lock.artifactId, lock.sha256))
  {
  }

  /** Runs the pipeline; `asked` is what the policy was asked, if it was reached.  An error is returned
      only when the lockfile cannot be read. */
  method Verify(env: Surroundings, skip: bool, input: VerifyInput)
    returns (r: Result<VerifyResult, string>, asked: Option<PolicyInput>)
    ensures r.Ok? <==> env.readLockfile(LockfilePath(env, input)).Ok?
    ensures r.Err? ==> asked.None?
    ensures r.Ok? ==> RunsClosed(env, skip, input, env.readLockfile(LockfilePath(env, input)).value, r.value, asked)
    ensures r.Ok? ==>
              r.value.violations == if asked.Some? && env.evaluatePolicy(asked.value).Ok?
                                       && env.evaluatePolicy(asked.value).value.decision == "deny"
                                    then env.evaluatePolicy(asked.value).value.violations else []
  {
    hide UpToFailure, FailClosed, Question, PolicyPasses, LogPasses, BundlePath, LockfilePath, Checks, Agrees, SoFar, STEPS,
         HASH_CHECK, SIGNATURE, TRANSPARENCY_LOG, POLICY;
    asked := None;
    var result := VerifyResult(true, [], [], []);
    var read := env.readLockfile(LockfilePath(env, input));
    if read.Err? {
      return Err("reading lockfile: " + read.error), asked;
    }
    var lock := read.value;
    ghost var flags := Checks(env, input, skip, lock);
    FlagsAre(env, input, skip, lock);
    NothingYet(flags);

    var digest := env.hashArtifact(input.artifactPath);
    if digest != Ok(lock.sha256) {
      StepMade([], flags, StepResult(HASH_CHECK, false, "artifact hash mismatch"));
      result := result.(passed := false, steps := [] + [StepResult(HASH_CHECK, false, "artifact hash mismatch")]);
      return Ok(result), asked;
    }
    StepMade([], flags, StepResult(HASH_CHECK, true, ""));
    result := result.(steps := [] + [StepResult(HASH_CHECK, true, "")]);

    var signer := env.verifySignature(BundlePath(input), digest.value);
    if signer.Err? {
      StepMade(result.steps, flags, StepResult(SIGNATURE, false, signer.error));
      result := result.(passed := false, steps := result.steps + [StepResult(SIGNATURE, false, signer.error)]);
      return Ok(result), asked;
    }
    StepMade(result.steps, flags, StepResult(SIGNATURE, true, ""));
    result := result.(steps := result.steps + [StepResult(SIGNATURE, true, "")]);

    var step;
    if input.skipTlog || skip {
      step := StepResult(TRANSPARENCY_LOG, true, "");
      result := result.(warnings := [SKIPPED]);
    } else {
      step := VerifyTlog(env, lock.artifactId, lock.sha256);
    }
    StepMade(result.steps, flags, step);
    result := result.(steps := result.steps + [step]);
    if !step.passed {
      result := result.(passed := false);
      return Ok(result), asked;
    }

    ghost var before := result.steps;
    result, asked := VerifyManifest(env, input, lock, signer.value, result);
    StepMade(before, flags, result.steps[3]);
    r := Ok(result);
  }

  /** The last stage, reached only with a verified signer: reads the manifest and asks the policy. */
  method VerifyManifest(env: Surroundings, input: VerifyInput, ghost lock: Lockfile, signer: Signer, before: VerifyResult)
    returns (result: VerifyResult, asked: Option<PolicyInput>)
    requires env.verifySignature(BundlePath(input), lock.sha256) == Ok(signer)
    requires before.passed && before.violations == []
    ensures asked == Question(env, input, lock)
    ensures |result.steps| == |before.steps| + 1 && result.steps == before.steps + [result.steps[|before.steps|]]
    ensures var last := result.steps[|before.steps|];
            last.name == POLICY && (last.passed <==> PolicyPasses(env, input, lock)) && result.passed == last.passed
    ensures result.violations == Violations(env, asked)
    ensures result.warnings == if Warned(env, asked) then env.evaluatePolicy(asked.value).value.warnings else before.warnings
  {
    result, asked := before, None;
    var manifest := env.readManifest(ManifestPath(env, input));
    if manifest.Err? {
      result := result.(passed := false, steps := result.steps + [StepResult(POLICY, false, "reading manifest: " + manifest.error)]);
      return;
    }
    if manifest.value.validationErrors != [] {
      result := result.(passed := false, steps := result.steps + [StepResult(POLICY, false, "manifest validation failed")]);
      return;
    }
    asked := Some(PolicyInput(manifest.value.capabilities, signer.identity, signer.issuer));
    var step, violations, warnings := VerifyPolicy(env, asked.value);
    result := result.(steps := result.steps + [step]);
    if violations.Some? {
      result := result.(violations := violations.value);
    }
    if warnings.Some? {
      result := result.(warnings := warnings.value);
    }
    if !step.passed {
      result := result.(passed := false);
    }
  }

  lemma Unroll(flags: seq<bool>)
    requires |flags| == 4 && flags[0]
    ensures UpToFailure(flags) == [true] + if !flags[1] then [false]
                                           else [true] + if !flags[2] then [false] else [true, flags[3]]
  {
    assert flags[1..][1..] == flags[2..] && flags[2..][1..] == flags[3..] && flags[3..][1..] == [];
    assert UpToFailure(flags[3..]) == [flags[3]];
  }

  // ----- Trust tiers ------------------------------------------------------------------------

  datatype Tier = Verified | Partial | Unverified

  /** The tier of a pipeline result, absent when there is none. */
  function TierOf(r: Option<VerifyResult>): Tier {
    match r
    case None => Unverified
    case Some(v) =>
      if v.passed then Verified
      else if exists i | 0 <= i < |v.steps| :: v.steps[i].passed then Partial
      else Unverified
  }

  method AssignTier(r: Option<VerifyResult>) returns (tier: Tier)
    ensures tier == TierOf(r)
  {
    if r.None? {
      return Unverified;
    }
    if r.value.passed {
      return Verified;
    }
    for i := 0 to |r.value.steps|
      invariant forall j | 0 <= j < i :: !r.value.steps[j].passed
    {
      if r.value.steps[i].passed {
        return Partial;
      }
    }
    tier := Unverified;
  }

  /** A fail-closed result is verified when all checks passed, unverified when the hash check failed, and
      partial in every other case. */
  lemma TierOfRun(r: VerifyResult, flags: seq<bool>)
    requires |flags| == 4 && FailClosed(r, flags)
    ensures TierOf(Some(r)) == Verified <==> forall i | 0 <= i < 4 :: flags[i]
    ensures TierOf(Some(r)) == Unverified <==> !flags[0]
    ensures TierOf(Some(r)) == Partial <==> flags[0] && exists i | 0 <= i < 4 :: !flags[i]
  {
    var made := UpToFailure(flags);
    if flags[0] {
      Unroll(flags);
      assert made[0] && r.steps[0].passed;
    } else {
      assert made == [false];
    }
  }
}
