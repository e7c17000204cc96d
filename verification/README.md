# SkillLedger verification model

A Dafny model of the parts of SkillLedger whose behaviour is easiest to get wrong, with proofs about them.
Each module models one component in the form the program has: classes where objects are updated in place,
loops where there are loops, functions where there are functions. Where several threads or processes meet,
a state machine interleaves their atomic steps, and the theorems are about every run of it.

| files | component |
|---|---|
| `RegoLexer`, `Rego`, `RegoReader`, `RegoEval` | the fragment of Rego the compiler emits: printed form, reader, evaluator |
| `PolicyDsl`, `PolicyCompiler`, `PolicyMeaning`, `PolicyCorrectness`, `PolicyAcceptance`, `PolicyEvaluation` | install-time policy rules to Rego |
| `RuntimeDsl`, `RuntimeCompiler`, `RuntimeLineFeeds`, `RuntimeMeaning`, `RuntimeAcceptance` | runtime rules to Rego |
| `VerifyPipeline`, `TrustVerifier` | the fail-closed pipeline and the asynchronous trust cache over it |
| `PresetCache` | the runtime evaluator's preset cache under hot reload |
| `McpRelay`, `ToolPinning`, `PinningTheorems` | the two relays with their request tracker; tool pins and sessions |
| `EntropyTracker`, `DecisionLog` | the bounded session table; the ring buffer and its file |
| `EtagSync` | cache synchronisation by conditional GET, for both syncers |
| `SeatBilling` | seats mirrored at Stripe |
| `McpConfig` | installing and uninstalling the wrapper in a client configuration |
| `Text`, `Ordering`, `Collector`, `DomainMatch`, `Outcomes` | splitting, sorting, reproducible packaging, domain matching, shared result types |

## Where the code does not do what it is for

For each of these the exact condition under which the code is right is proved, and inputs that fail it are given.

- A policy without warn rules compiles to a module that names a set nothing defines, which the engine rejects; so
  does a policy without deny rules, unless its allowlist brings a module that defines `deny`
  (`PolicyEvaluation.ModuleMeaning`, `PolicyEvaluation.DenyOnlyIsRejected`, `PolicyEvaluation.WarnOnlyNeedsAllowlist`).
- Go's `%q` writes some characters in a form JSON strings do not have, such as `\x00` or `\a`; text with one of
  them cannot be read (`PolicyCorrectness.ReadCompiled`, `PolicyEvaluation.NulMessageIsUnreadable`).
- A runtime expression with a line feed breaks out of its comment. It does no harm when only spaces, tabs and line
  ends follow; in front of a `contains` expression it leaves a set rule named after the field; in every other case it
  makes the whole text unreadable (`RuntimeMeaning.ReadRuntime`, `RuntimeMeaning.LineFeedBreaksText`,
  `RuntimeMeaning.LeadingLineFeedIsFact`).
- Runtime block rules cannot be loaded beside the permissive preset, nor warn rules beside the strict one, because
  the preset defines that set completely (`RuntimeMeaning.PresetsRefuse`).
- The entropy tracker takes the empty host for "nothing found" and then never evicts: the table grows without
  bound (`EntropyTracker.BoundHoldsExactly`, `EntropyTracker.EmptyHostDisablesEviction`).
- A response longer than the read limit is cut silently and its tag kept, so that later 304 answers confirm a
  partial file; and a cache file that is lost while its tag is current is not fetched again
  (`EtagSync.NotModifiedMeansWholeBody` with `EtagSync.CutBodyIsConfirmed`, `EtagSync.QuietSyncIsCurrent` with
  `EtagSync.LostFileStaysLost`).
- The subscribe endpoint tells Stripe the count stored before and then overwrites it
  (`SeatBilling.SubscribeIsExact`, `SeatBilling.SubscribeIsSafeExactly`, `SeatBilling.FirstSubscribeUnderbills`).
- A second install from another wrapper path replaces the backed-up originals by the first wrapper
  (`McpConfig.MovedWrapperLosesOriginal`).
- A list that names one tool twice with two hashes is reported as changed although nothing changed
  (`PinningTheorems.SilentExactly`, `PinningTheorems.DuplicateRaisesAlarm`).
- A failed load of the pin file is followed by a save that forgets the pins of every other server, and replaces the
  server's own pins by whatever it lists now (`PinningTheorems.FailedLoadForgetsOthers` with
  `PinningTheorems.OtherPinIsLost` and `PinningTheorems.OwnPinIsReplaced`).
- A server whose id is continued by another with "::" is never pinned once that other one is
  (`PinningTheorems.NestedServerIsNeverPinned`, `PinningTheorems.NestedServerInput`).
- A source file named like the manifest ends up in the archive beside it (`Collector.NamesAreDistinctExactly`,
  `Collector.ManifestNameTwice`), and a file name with two dots in a row fails the build even if it is ignored
  (`Collector.IgnoredFilesDoNotMatter`, `Collector.DotDotFailsCollection`).

The README of the repository shows a policy syntax (lines 199-214) that the parser does not read; the model follows the parser.

## Model

| member | source | states |
|---|---|---|
| `RegoLexer.ReadQuotedChar` | cli/internal/policy/dsl/compiler.go:148-157 | one character printed by %q reads back, by the string grammar of section 7 of RFC 8259, as itself followed by the untouched rest, exactly when it is legible; otherwise reading fails |
| `RegoLexer.ReadQuoted` | cli/internal/policy/dsl/compiler.go:95-113 | a quoted string followed by anything reads back as that string and that rest exactly when all its characters are legible; no argument, exception or message can close its string early |
| `RegoLexer.ReadsBackExactly` | cli/internal/policy/dsl/compiler.go:148-157 | so a quoted string is readable if and only if none of its characters is below backspace, a vertical tab, between U+000E and U+001F, a delete, or above U+FFFF and unprintable |
| `RegoLexer.LexComment` | cli/internal/policy/dsl/compiler.go:94 | a comment without a line feed is skipped to the end of its line and nothing after it is lost |
| `Rego.LexLiteral` | cli/internal/policy/dsl/compiler.go:96-112 | the text of each emitted condition, at the head of any text, splits into exactly its tokens, or the text is unreadable when a quoted part is illegible |
| `Rego.LexPartial` | cli/internal/policy/dsl/compiler.go:94-113 | a whole emitted rule splits into exactly its tokens, whatever follows |
| `RegoReader.ParseLiteralBack` | cli/internal/policy/dsl/compiler.go:96-112 | parsing the tokens of a condition gives that condition back and leaves the tokens after it |
| `RegoReader.ParsePartialBack` | cli/internal/policy/dsl/compiler.go:94-113 | parsing the tokens of a rule gives back its name and its body |
| `RegoReader.ReadRuleThen` | cli/internal/policy/dsl/compiler.go:94-113 | comment and rule, followed by any text, read as that rule and then what the text reads as |
| `RegoReader.ReadHeaderThen` | cli/internal/policy/dsl/compiler.go:37-40 | the package header reads back as a package of that name followed by the rest |
| `RegoReader.ReadDenyDecisionThen` | cli/internal/policy/dsl/compiler.go:62 | the deny decision line reads as a rule deciding deny when `deny` is non-empty |
| `RegoReader.ReadWarnDecision` | cli/internal/policy/dsl/compiler.go:63-66 | the warn decision block reads as a rule with both conditions, `deny` empty and `warnings` non-empty |
| `RegoEval.SomeMessagesAre` | cli/internal/policy/dsl/compiler.go:96-112 | the messages of a rule over a list of capabilities are those of some capability in the list |
| `RegoEval.SetOfIs` | cli/internal/policy/dsl/compiler.go:95 | the rules of a module add a message to a set exactly when some rule for it, with or without a body, yields it |
| `Ordering.SortedUnique` | cli/internal/policy/dsl/compiler.go:42-47 | a strictly sorted listing is determined by its members, so sorting makes the output independent of map order |
| `Ordering.LessIsLexicographic` | cli/internal/policy/dsl/compiler.go:47 | the order sorted by is the lexicographic one: at the first place where two strings differ, one ends or has the smaller character |
| `Ordering.SortStrings` | cli/internal/policy/dsl/compiler.go:42-47 | sorting the keys gives the one strictly increasing listing of the set |
| `PolicyDsl.ParseOperatorExact` | cli/internal/policy/dsl/compiler.go:119-145 | an expression is accepted, with this operator and argument, if and only if it is the operator without a parenthesis, applied to the quoted argument, which is non-empty and has no backslash, double quote, line feed, carriage return or tab; every other character is allowed |
| `PolicyDsl.BadExceptExact` | cli/internal/policy/dsl/compiler.go:99-104 | the exceptions are accepted if and only if no character of any of them is one of the five; otherwise the one reported is the first that has one |
| `PolicyCompiler.CheckExcept` | cli/internal/policy/dsl/compiler.go:99-104 | returns the first exception with a disallowed character, and none if and only if no character at any place of any exception is one of the five |
| `PolicyCompiler.CompileRule` | cli/internal/policy/dsl/compiler.go:71-116 | appends exactly the text of the rule to what was written, or returns the error of its first failing check |
| `PolicyCompiler.QuoteItems` | cli/internal/policy/dsl/compiler.go:105-108 | quotes every exception, in order |
| `PolicyCompiler.CompileCategory` | cli/internal/policy/dsl/compiler.go:53-58 | appends the texts of the rules of a category in order, stopping at the first error with its index |
| `PolicyCompiler.CompileCategories` | cli/internal/policy/dsl/compiler.go:49-59 | writes the categories in the order given, rejecting the first invalid name or rule |
| `PolicyCompiler.Compile` | cli/internal/policy/dsl/compiler.go:27-69 | the imperative compiler returns the specified text or error for every policy, absent and empty included |
| `PolicyMeaning.CommentStaysOnLine` | cli/internal/policy/dsl/compiler.go:89-94 | the escaped message has no line feed and no carriage return, for every message |
| `PolicyMeaning.CommentTextIs` | cli/internal/policy/dsl/compiler.go:90-93 | the three replacements are one pass over the message: a quote gets a backslash, a line break becomes a space, all else stays |
| `PolicyMeaning.RuleTextIs` | cli/internal/policy/dsl/compiler.go:71-116 | the text of a rule is a comment line and then the printed form of the rule it stands for |
| `PolicyMeaning.ReadRuleBack` | cli/internal/policy/dsl/compiler.go:71-116 | one rule, with anything after it, reads back as the same rule exactly when it is legible |
| `PolicyCorrectness.CompilesWhenAccepted` | cli/internal/policy/dsl/compiler.go:27-69 | compilation succeeds if and only if there are rules, every category name is valid and every rule compiles |
| `PolicyAcceptance.CompilesExactly` | cli/internal/policy/dsl/compiler.go:27-69 | read off the policy alone: compilation succeeds if and only if there are rules, every category name is a lower-case letter followed by such letters, digits and underscores, and every rule is contains or any of a non-empty argument with no exception or argument holding one of the five characters |
| `PolicyAcceptance.CompileFailsFirst` | cli/internal/policy/dsl/compiler.go:42-145 | the error of a failed compilation is the first one: in the first category by name that is not acceptable, at its first rule that is not, with the first thing wrong with that rule |
| `PolicyCorrectness.ReadCompiled` | cli/internal/policy/dsl/compiler.go:27-116 | for every policy that compiles, reading the emitted text gives back exactly its rules in order with the decision rules when every quoted string is legible, and cannot be read otherwise |
| `PolicyEvaluation.ConditionIsMatch` | cli/internal/policy/dsl/compiler.go:148-157 | the emitted condition holds of a capability exactly when the rule, as written by the user, matches it |
| `PolicyEvaluation.StatementMessages` | cli/internal/policy/dsl/compiler.go:71-116 | an emitted rule yields its message exactly when a capability of its category matches and is not excepted |
| `PolicyEvaluation.SetIsRaised` | cli/internal/policy/dsl/compiler.go:49-59 | what the module adds to `deny` and `warnings` is exactly the messages of the deny and warn rules that are triggered |
| `PolicyEvaluation.DecisionValuesAre` | cli/internal/policy/dsl/compiler.go:61-66 | the two decision bodies never hold together, whatever other modules add to the sets: the values decided are {deny}, {warn} or none |
| `PolicyEvaluation.ModuleMeaning` | cli/internal/policy/policy.go:25-53 | every accepted policy, loaded with its publisher allowlist, evaluates without conflict; the engine accepts it if and only if it has warn rules, and deny rules or an allowlist; then `deny` is the messages of its deny rules and the refusal of a signer no entry matches, `warnings` those of its warn rules, and the decision deny, else warn, else allow |
| `PolicyEvaluation.CompiledTextMeaning` | cli/internal/policy/policy.go:25-104 | end to end: for every policy the parser and compiler accept, with legible strings and not rejected by the engine, the emitted text loaded with the allowlist decides exactly as the surface rules and the allowlist say |
| `PolicyEvaluation.BothKindsAreAccepted` | cli/internal/policy/dsl/parser.go:29-40 | every allowed argument and every legible message make a policy with rules of both kinds that is parsed, accepted and legible, so that the end-to-end theorem applies to it |
| `PolicyEvaluation.DenyOnlyIsRejected` | cli/internal/policy/dsl/compiler.go:61-66 | failing inputs: every policy with one deny rule and no warn rule compiles and reads back, and the engine rejects it, with or without an allowlist |
| `PolicyEvaluation.WarnOnlyNeedsAllowlist` | cli/internal/policy/policy.go:45-53 | failing inputs: every policy with one warn rule and no deny rule compiles and reads back, and the engine rejects it if and only if it has no allowlist |
| `PolicyEvaluation.NulMessageIsUnreadable` | cli/internal/policy/dsl/compiler.go:112 | failing inputs: a message with a NUL character is accepted and the text cannot be read |
| `RuntimeDsl.TrimSpaceIs` | cli/internal/policy/dsl/compiler.go:243-254 | trimming removes exactly the surrounding blanks of a text that has none at its ends |
| `RuntimeDsl.ParseSpelled` | cli/internal/policy/dsl/compiler.go:242-321 | every expression spelled field, blanks, operator, blanks, argument parses into those parts, or fails on the argument alone |
| `RuntimeDsl.ParsedIsSpelled` | cli/internal/policy/dsl/compiler.go:242-321 | and every expression that parses is spelled that way |
| `RuntimeDsl.SecondDecodeSucceeds` | cli/internal/policy/dsl/compiler.go:324-359 | after an expression parsed, decoding its array again never fails |
| `RuntimeAcceptance.ParsesExactly` | cli/internal/policy/dsl/compiler.go:242-321 | an expression is accepted with these parts if and only if it is written with one of the four fields, one of the three operators and an argument of its kind, each after a space and any further white space; the white space, the characters and the names are written out |
| `RuntimeAcceptance.HoldsExactly` | cli/internal/policy/dsl/compiler.go:324-359 | an accepted expression holds of an action if and only if the value of the field written in it contains the text, matches it as a glob when it has a star, is in the array for any, or is not in it for except |
| `RuntimeAcceptance.RuntimeFailsFirst` | cli/internal/policy/dsl/compiler.go:182-230 | the error of a failed compilation is that of the first expression that does not parse, in the order block, warn, log |
| `RuntimeCompiler.CompileSection` | cli/internal/policy/dsl/compiler.go:182-196 | writes the rules of one section in order, stopping at the first expression that fails with its section and index |
| `RuntimeCompiler.CompileRuntime` | cli/internal/policy/dsl/compiler.go:170-233 | the three loops over one builder return the specified text or error for every rule set, absent included |
| `RuntimeMeaning.CompilesWhenAccepted` | cli/internal/policy/dsl/compiler.go:170-233 | a rule set compiles if and only if every expression parses |
| `RuntimeLineFeeds.JsonAfterLineFeed` | cli/internal/policy/dsl/compiler.go:303-306 | a line feed in a JSON array of strings is never inside a string |
| `RuntimeLineFeeds.ArrayIsStuck` | cli/internal/policy/dsl/compiler.go:191 | the rest of an array after a line feed is no Rego statement, whatever follows |
| `RuntimeLineFeeds.CoreReads` | cli/internal/policy/dsl/compiler.go:191 | field, operator and argument by themselves read as a set rule without a body if and only if the operator is contains, the gaps are white space and the argument a readable string |
| `RuntimeLineFeeds.TailReads` | cli/internal/policy/dsl/compiler.go:191 | what follows the first line feed of an accepted expression, if not white space, reads as a set rule when the line feed comes before the field of such an expression, and not at all otherwise |
| `RuntimeMeaning.ReadRuntimeRule` | cli/internal/policy/dsl/compiler.go:191-195 | a runtime rule, with anything after it, reads back if and only if it is legible and what follows the first line feed of its expression is white space or a set rule, which is then read first; otherwise nothing can be read |
| `RuntimeMeaning.ReadRuntime` | cli/internal/policy/dsl/compiler.go:170-233 | the emitted text of every accepted rule set reads back as exactly its rules in order, after the set rules its comments leave standing, if and only if it is legible and every first line feed is harmless in this sense |
| `RuntimeMeaning.AcceptedIsJson` | cli/internal/policy/dsl/compiler.go:297-315 | under a decoder that accepts JSON only, every accepted rule set meets the condition on its arrays |
| `RuntimeMeaning.CommentHoldsExpression` | cli/internal/policy/dsl/compiler.go:191 | the comment line ends with the expression iff it has no line feed; in front of any text it is skipped when only white space follows the first line feed, leaves a set rule when one follows, and makes the text unreadable otherwise |
| `RuntimeMeaning.LineFeedBreaksText` | cli/internal/policy/dsl/compiler.go:191 | failing inputs: for every field and argument, an accepted rule with a line feed before the argument makes the whole text unreadable, whatever the other rules |
| `RuntimeMeaning.FinalLineFeedIsHarmless` | cli/internal/policy/dsl/compiler.go:191 | a rule whose only line feed is the last character of its expression reads as that rule alone, in front of any text |
| `RuntimeMeaning.LeadingLineFeedIsFact` | cli/internal/policy/dsl/compiler.go:191 | for every field and readable argument, a contains rule that begins with a line feed reads as itself after a set rule named like the field |
| `RuntimeMeaning.FactsAddNothing` | cli/internal/policy/dsl/compiler.go:191 | wherever the line feeds are, what was read adds to deny, warnings and log_entries exactly what the compiled rules add |
| `RuntimeMeaning.SectionMessages` | cli/internal/policy/dsl/compiler.go:182-230 | a section puts into its set exactly those of its expressions that hold of the action |
| `RuntimeMeaning.RuntimeModuleMeaning` | cli/internal/proxy/capability.go:75-90 | beside any other modules of the package, what was read is accepted if and only if no section adds to a name they define completely; then the three sets are exactly the block, warn and log expressions that hold and what those modules add |
| `RuntimeMeaning.RuntimeTextMeaning` | cli/internal/policy/dsl/compiler.go:170-359 | end to end: the emitted text of every accepted rule set is readable exactly under the condition above, and whenever it is, reading and evaluating it beside the rest of the package gives exactly the expressions that hold |
| `RuntimeMeaning.PresetsRefuse` | cli/internal/policy/preset/rego/runtime_permissive.rego:41 | the strict preset accepts a rule set if and only if it has no warn rules, the permissive one if and only if it has no block rules, the moderate one always |
| `VerifyPipeline.VerifyTlog` | cli/internal/verify/steps.go:80-140 | passes exactly when the entry is found, its hash is the expected one and the proof, if asked for, verifies |
| `VerifyPipeline.VerifyPolicy` | cli/internal/verify/steps.go:144-207 | passes exactly on allow or warn; reports violations exactly on deny and warnings exactly on warn |
| `VerifyPipeline.Verify` | cli/internal/verify/verify.go:23-147 | an error only for an unreadable lockfile; otherwise the steps are the four checks up to the first failure, the run passes exactly when all four are there and passed, and its violations are those of a policy that was asked and denied, none in every other case |
| `VerifyPipeline.VerifyManifest` | cli/internal/verify/verify.go:95-143 | the last stage asks the policy what the manifest and the verified signer say, and nothing while the manifest is unreadable or invalid; it returns the violations of a denial and the policy's warnings or those there were |
| `VerifyPipeline.PassesExactly` | cli/internal/verify/verify.go:23-147 | a run passes if and only if the artifact has the hash of the lockfile, the bundle verifies, the log entry has that hash and its proof verifies unless skipped, the manifest is valid, and the policy, asked for its capabilities and the signer, answers allow or warn |
| `VerifyPipeline.StepsExactly` | cli/internal/verify/verify.go:43-147 | the names of the steps in order, which of them passed, and that each is there exactly when those before it passed |
| `VerifyPipeline.ReportsExactly` | cli/internal/verify/verify.go:76-143 | the violations are those of a denial and none otherwise; the warnings are the policy's on warn, else the notice of a skipped log step that was reached, else none |
| `VerifyPipeline.AsksExactly` | cli/internal/verify/verify.go:95-131 | the policy is asked, for the capabilities of the manifest, if and only if the first three steps passed and the manifest is readable and valid |
| `VerifyPipeline.AsksWithSigner` | cli/internal/verify/verify.go:131 | the policy is asked only after a passed signature step, and with the identity and issuer of that signer |
| `VerifyPipeline.AssignTier` | cli/internal/proxy/trust_verifier.go:223-237 | verified for a passed result, partial if some step passed, else unverified |
| `VerifyPipeline.TierOfRun` | cli/internal/proxy/trust_verifier.go:223-237 | for a fail-closed run: verified iff all checks passed, unverified iff the hash check failed, partial in every other case |
| `TrustVerifier.Verifier.PeekTier` | cli/internal/proxy/trust_verifier.go:79-88 | answers from the cache alone, unverified for an entry in flight |
| `TrustVerifier.Verifier.StartVerification` | cli/internal/proxy/trust_verifier.go:127-142 | claims an absent skill and says whether to launch; changes nothing otherwise |
| `TrustVerifier.Verifier.GetTier` | cli/internal/proxy/trust_verifier.go:78-93 | answers the cached tier, or claims the skill and answers unverified |
| `TrustVerifier.Verifier.RunVerification` | cli/internal/proxy/trust_verifier.go:146-208 | publishes one final entry with exactly the tier the skill should get: unverified without lockfile, without a readable one or with another hash; verified on disk with all four checks passed; partial in every other case |
| `TrustVerifier.AlwaysValid` | cli/internal/proxy/trust_verifier.go:78-216 | the ownership, entry and answer invariants hold in every state of every interleaving |
| `TrustVerifier.OneLaunchPerSkill` | cli/internal/proxy/trust_verifier.go:127-142 | at most one verification is launched per skill |
| `TrustVerifier.EntriesOnlyAdvance` | cli/internal/proxy/trust_verifier.go:211-216 | an entry never disappears, and once final never changes |
| `TrustVerifier.AppearsInFlight` | cli/internal/proxy/trust_verifier.go:135-138 | a new entry is in flight: none is final without having been claimed |
| `TrustVerifier.AnswersSettle` | cli/internal/proxy/trust_verifier.go:78-93 | answers for a skill, ordered by their cache reads, are unverified and then one constant tier |
| `TrustVerifier.VerifiedPasses` | cli/internal/proxy/trust_verifier.go:193-198 | a result the pipeline gave earns the verified tier if and only if the artifact was on disk and all four checks passed against what the pipeline was run on |
| `TrustVerifier.TierIsEarned` | cli/internal/proxy/trust_verifier.go:146-237 | what a genuine run publishes is unverified if and only if the lockfile cannot be read or the hash differs, verified if and only if the artifact is on disk and everything passes, and partial otherwise, all in terms of what the surroundings answer |
| `TrustVerifier.PublishedIsEarned` | cli/internal/proxy/trust_verifier.go:193-216 | so is every published entry in every state of every interleaving |
| `TrustVerifier.AnswersAreEarned` | cli/internal/proxy/trust_verifier.go:78-93 | and every answer other than unverified is the tier its skill should get |
| `TrustVerifier.ReadsThePublished` | cli/internal/proxy/trust_verifier.go:78-88 | a call that finds a published entry answers its tier |
| `TrustVerifier.VerifiedIsEarned` | cli/internal/proxy/trust_verifier.go:193-198 | in every interleaving, verified is answered only if the artifact was on disk and each of the four checks passed in the run made for that skill |
| `TrustVerifier.UnverifiedUntilWritten` | cli/internal/proxy/trust_verifier.go:79-92 | while a verification has not been written every call answers unverified |
| `PresetCache.Evaluator.ResolvePreset` | cli/internal/proxy/capability.go:147-182 | returns the default query for the empty name, else what compiling without a cache would, and leaves the default alone |
| `PresetCache.Evaluator.ReloadPolicy` | cli/internal/proxy/capability.go:328-347 | replaces default and cache entry, or changes nothing when the preset does not compile; the cache stays coherent exactly when the modules give the same query as the constructor's |
| `PresetCache.AlwaysValid` | cli/internal/proxy/capability.go:147-182 | in every interleaving of lookups and reloads every thread and the cache hold only directly compiled queries |
| `PresetCache.CacheIsDirect` | cli/internal/proxy/capability.go:173-179 | every cache entry equals compiling its preset with the constructor's modules |
| `PresetCache.NamedLookupIsDirect` | cli/internal/proxy/capability.go:147-182 | a named lookup returns what an uncached compile returns, failure included |
| `PresetCache.DefaultLookupIsLastReload` | cli/internal/proxy/capability.go:148-153 | a default lookup returns the preset of the last reload completed before it |
| `McpRelay.RequestTracker.ResolveResponse` | cli/internal/proxy/pinning.go:42-51 | finds and removes the entry, or changes nothing |
| `McpRelay.RequestTracker.InspectMessage` | cli/internal/proxy/mcp_stdio.go:221-260 | a request is tracked; a response is resolved once and yields its method and what is to be done with it: a tool list is checked, a tool result scanned, anything else needs nothing; other lines change nothing |
| `McpRelay.Relay` | cli/internal/proxy/mcp_stdio.go:171-216 | forwards exactly the lines it read, in order, whatever they are, and leaves the tracker and the work that inspecting them in order gives |
| `McpRelay.TracksRequests` | cli/internal/proxy/mcp_stdio.go:236-241 | a line is tracked, under its id, if and only if it has a method and an id and neither result nor error |
| `McpRelay.ResolvesAnswers` | cli/internal/proxy/mcp_stdio.go:244-260 | an answer removes its id and no other; a known one gives one piece of work, checked against pins exactly for tools/list and scanned exactly for tools/call, each only with a result |
| `McpRelay.AnswerIsKnown` | cli/internal/proxy/mcp_stdio.go:244-248 | an inspected answer resolves to the method of its own request, a stray response to nothing |
| `McpRelay.AlwaysValid` | cli/internal/proxy/mcp_stdio.go:171-260 | in every interleaving the tracker holds exactly the requests tracked and not yet answered |
| `McpRelay.AnswersAreAttributed` | cli/internal/proxy/mcp_stdio.go:244-260 | the work done is one item per answer, in order, under its own request's method: none missed, doubled or misattributed, none for strays |
| `McpRelay.TrackerDrains` | cli/internal/proxy/pinning.go:42-51 | when everything is answered the tracker is empty |
| `McpRelay.StreamsPassThrough` | cli/internal/proxy/mcp_stdio.go:205-209 | both forwarded streams are prefixes of what was written |
| `ToolPinning.ToolPinStore.Load` | cli/internal/proxy/pinning.go:173-197 | takes over the file, starts empty when there is none, keeps what it has on an error |
| `ToolPinning.ToolPinStore.PinAll` | cli/internal/proxy/pinning.go:254-261 | pins every listed tool and no other key |
| `ToolPinning.ToolPinStore.SetSessionBaseline` | cli/internal/proxy/pinning.go:265-278 | replaces the baseline of that server only by the name-to-hash map of the list |
| `ToolPinning.ToolPinStore.CheckBetweenSession` | cli/internal/proxy/pinning.go:297-337 | reports, in order, the listed tools pinned with another hash |
| `ToolPinning.ToolPinStore.CheckMidSession` | cli/internal/proxy/pinning.go:340-435 | reports the listed tools that are new or re-hashed and, once each, the baseline tools no longer listed |
| `ToolPinning.Session.HandleFirstToolsList` | cli/internal/proxy/mcp_stdio.go:286-346 | loads, or goes on with the pins in memory when the load fails; warns about changes, pins and saves only if the server has no pin, and sets the baseline |
| `ToolPinning.Session.HandleSubsequentToolsList` | cli/internal/proxy/mcp_stdio.go:350-384 | records one block entry per mid-session change and moves the baseline to the new list |
| `ToolPinning.PinnedAllKeys` | cli/internal/proxy/pinning.go:254-261 | pinning a list adds keys of its server's listed tools and, if the server had none, changes no entry |
| `PinningTheorems.BaselineIsLast` | cli/internal/proxy/pinning.go:265-278 | the baseline has for each listed name the hash of the last tool of that name |
| `PinningTheorems.ChangesInOrder` | cli/internal/proxy/pinning.go:300-335 | changes are reported in the order of the tools: those of earlier tools come first |
| `PinningTheorems.MidReportIsExact` | cli/internal/proxy/pinning.go:340-435 | for distinct names: exactly one entry per name added, removed or re-hashed since the previous list, with its old and new hash, and no other |
| `PinningTheorems.SilentExactly` | cli/internal/proxy/pinning.go:340-435 | for any lists, duplicates included: nothing is reported exactly when the maps agree and the new list is consistent |
| `PinningTheorems.DuplicateRaisesAlarm` | cli/internal/proxy/pinning.go:350-375 | repeating a list that names one tool with two hashes raises an alarm |
| `PinningTheorems.SessionIsSilentExactly` | cli/internal/proxy/mcp_stdio.go:274-384 | a whole session has no such entry exactly when all its lists give the same name-to-hash map |
| `PinningTheorems.KeysCollideExactly` | cli/internal/proxy/pinning.go:95-97 | two server ids can produce the same key exactly when they are equal or nested in a stated way |
| `PinningTheorems.PlainIdsNeverNest` | cli/internal/proxy/pinning.go:95-97 | ids without "::" and not ending in ":" never collide with another such id |
| `PinningTheorems.PinKeyInjective` | cli/internal/proxy/pinning.go:95-97 | for such ids the key determines server and tool |
| `PinningTheorems.EntriesAreFrozen` | cli/internal/proxy/mcp_stdio.go:286-346 | no run of later sessions, of any servers, changes or drops a persisted pin |
| `PinningTheorems.NoPinsAdded` | cli/internal/proxy/mcp_stdio.go:295-302 | a server that has a pin gets no other from a run of sessions of servers it does not clash with |
| `PinningTheorems.TrustOnFirstUse` | cli/internal/proxy/mcp_stdio.go:286-346 | after a first list is pinned, every later session warns about a tool exactly when that first list had it with another hash |
| `PinningTheorems.WarningsAreExact` | cli/internal/proxy/pinning.go:297-337 | a session reports exactly the pinned tools present in the list whose hash differs, with both hashes, as high when the schema changed and as medium otherwise |
| `PinningTheorems.ReportIsGraded` | cli/internal/proxy/pinning.go:340-435 | every entry of a mid-session report is critical for a tool that is new or gone, medium for a changed one whose persisted pin has the same schema, and high otherwise, with the hashes that belong to it |
| `PinningTheorems.FailedLoadForgetsOthers` | cli/internal/proxy/mcp_stdio.go:287-302 | after the first list of a new process the file keeps every pin it had if and only if the load succeeded or the file held nothing but the entries the list pins again |
| `PinningTheorems.NestedServerIsNeverPinned` | cli/internal/proxy/mcp_stdio.go:413-423 | once a server whose id continues another id with :: has a pin, sessions of the shorter one never pin or save anything and never warn about an unpinned tool |
| `PinningTheorems.NestedServerInput` | cli/internal/proxy/mcp_stdio.go:413-423 | failing input: after sessions of a::b and a, no tool of a is pinned |
| `PinningTheorems.OtherPinIsLost` | cli/internal/proxy/mcp_stdio.go:287-302 | failing inputs: one failed load and the pin of another server is gone from the file |
| `PinningTheorems.OwnPinIsReplaced` | cli/internal/proxy/mcp_stdio.go:287-302 | failing inputs: one failed load and a changed tool replaces its own pin, without a warning then or in the next session |
| `EntropyTracker.Tracker.EvictOldest` | cli/internal/proxy/entropy.go:155-169 | drops a session seen longest ago, and nothing when that session has the empty host |
| `EntropyTracker.Tracker.Record` | cli/internal/proxy/entropy.go:185-233 | takes the table through one eviction and one windowed update; there is a finding if and only if the host's window then has at least ten samples and they add up to more than five for each; an empty body changes nothing |
| `EntropyTracker.Tracker.Standard` | cli/internal/proxy/entropy.go:145-153 | an empty table of 100 sessions with windows of 50 samples |
| `EntropyTracker.AlarmIs` | cli/internal/proxy/entropy.go:220-222 | the comparison of the mean with the threshold is that of the total, added from the first sample on, with five times the number of samples |
| `EntropyTracker.AverageEntropy` | cli/internal/proxy/entropy.go:172-181 | the mean of the window, zero for an empty one |
| `EntropyTracker.RecencyDistinct` | cli/internal/proxy/entropy.go:155-201 | the recency list has no host twice |
| `EntropyTracker.RecencyIsHosts` | cli/internal/proxy/entropy.go:185-218 | the recency list has exactly the hosts scanned |
| `EntropyTracker.RecencyByTime` | cli/internal/proxy/entropy.go:155-169 | earlier in the recency list means scanned strictly later |
| `EntropyTracker.TrackedNext` | cli/internal/proxy/entropy.go:192-204 | scanning a tracked host moves it to the front; another host enters in front and the last one leaves |
| `EntropyTracker.OldestIsLast` | cli/internal/proxy/entropy.go:155-169 | the session evicted is the last of the tracked hosts |
| `EntropyTracker.TableRefinesHistory` | cli/internal/proxy/entropy.go:185-218 | after every run with named hosts and a strictly increasing clock the sessions are exactly the most recently scanned distinct hosts, at most the capacity, each with the last samples since its admission |
| `EntropyTracker.FindingIsFromHistory` | cli/internal/proxy/entropy.go:220-230 | the finding of each scan follows from the history alone: the last samples since the host's admission, at most a window of them, are ten or more and add up to more than five for each; and the table never exceeds its capacity |
| `EntropyTracker.StepKeepsBound` | cli/internal/proxy/entropy.go:166-168 | a table within its capacity stays there if and only if the scan does not meet a full table whose oldest session has the empty host |
| `EntropyTracker.BoundHoldsExactly` | cli/internal/proxy/entropy.go:155-195 | a run keeps the capacity throughout if and only if no scan of it does that |
| `EntropyTracker.EmptyHostDisablesEviction` | cli/internal/proxy/entropy.go:166-168 | after a first scan of the empty host, distinct hosts are never evicted: the table has one session per scan, without bound |
| `DecisionLog.Log.constructor` | cli/internal/proxy/decision.go:38-46 | an empty log of the size given, or 1000 when it is not positive |
| `DecisionLog.Log.Record` | cli/internal/proxy/decision.go:59-83 | appends the entry, completed with identifier and time, to the history, and its line to the file if there is a writer and the write succeeds |
| `DecisionLog.Log.Lookup` | cli/internal/proxy/decision.go:86-97 | the newest of the retained entries with the identifier |
| `DecisionLog.Log.Recent` | cli/internal/proxy/decision.go:100-114 | the last min(n, size, total) entries of the history, newest first |
| `DecisionLog.Log.Count` | cli/internal/proxy/decision.go:117-121 | min(total, size) |
| `DecisionLog.Explain` | cli/internal/cmd/proxy_explain.go:42-66 | reads all lines, skips those that do not decode, reports the last match; fails on a line at the limit |
| `DecisionLog.LastMatchIs` | cli/internal/proxy/decision.go:86-97 | the match found is the last entry with the identifier, none exactly when there is none |
| `DecisionLog.ExplainedExactly` | cli/internal/cmd/proxy_explain.go:42-66 | what the reader reports is the last line that decodes to an entry of the identifier, read off the lines themselves |
| `DecisionLog.ModBack` | cli/internal/proxy/decision.go:91 | stepping back i places from the head, modulo the size, finds the slot of the entry i before the newest |
| `DecisionLog.ReverseAt` | cli/internal/proxy/decision.go:100-114 | position k of the reversed list is position k from the end |
| `DecisionLog.LinesDecode` | cli/internal/proxy/decision.go:76-82 | when every write succeeds the lines decode to the complete history |
| `DecisionLog.LookupAgreesWithFile` | cli/internal/cmd/proxy_explain.go:46-56 | whatever the buffer finds is what scanning the complete file finds, also after earlier lines of other processes; what it no longer finds, the file has from an overwritten entry or from before |
| `EtagSync.ThreatSyncer.DoSync` | cli/internal/threatsync/sync.go:95-160 | killed after any number of steps, the disk is that of the step machine: bodies first, each tag kept only if its body was written, metadata last, failures skip to the next resource |
| `EtagSync.OrgSyncer.DoSync` | cli/internal/orgsync/sync.go:98-152 | the same for one resource decoded before it is written, where a failure gives up before the metadata |
| `EtagSync.ThreatSyncExactly` | cli/internal/threatsync/sync.go:95-160 | what a process that is not killed leaves: each file is written, cut at ten megabytes, if and only if a body was sent for it and the write works; its tag moves with it and with nothing else; the tags are stored if and only if the last write works |
| `EtagSync.OrgSyncExactly` | cli/internal/orgsync/sync.go:98-152 | the same for the organisation syncer, which changes nothing when the request fails or the body, cut at one megabyte, cannot be decoded or written |
| `EtagSync.EveryEventKeepsCoherence` | cli/internal/threatsync/sync.go:95-160 | publishing, losing files, fetching, writing, saving, failing and crashing all keep version(stored tag) <= version(cached body) <= version(server) while the file is present |
| `EtagSync.RunsAreCoherent` | cli/internal/threatsync/sync.go:95-230 | so every state of every run from an empty cache is coherent |
| `EtagSync.NotModifiedMeansCurrent` | cli/internal/threatsync/sync.go:181-183 | a 304 is received only when a present cache file holds the current version |
| `EtagSync.NotModifiedMeansWholeBody` | cli/internal/threatsync/sync.go:185 | and that file is the whole current body if and only if the body fits the read limit |
| `EtagSync.ProcessKeepsCoherence` | cli/internal/threatsync/sync.go:95-160 | a process that talks to an honest server leaves a coherent disk whenever it is killed |
| `EtagSync.QuietFromFetch` | cli/internal/threatsync/sync.go:116-158 | what an undisturbed process leaves from any phase on: the current tags, and the current contents except where it got a 304 |
| `EtagSync.QuietSyncIsCurrent` | cli/internal/orgsync/sync.go:98-152 | an undisturbed sync brings a cache file up to date if and only if it was not missing while its stored tag was still current |
| `EtagSync.CutBodyIsConfirmed` | cli/internal/threatsync/sync.go:181-190 | failing inputs: for every body over the limit some run gets a 304 over the first bytes of it |
| `EtagSync.LostFileStaysLost` | cli/internal/orgsync/sync.go:98-152 | failing inputs: a file saved in a run and then lost is not brought back by an undisturbed sync |
| `SeatBilling.StripeClient.UpdateQuantity` | service/src/skillledger_service/ee/seat_billing.py:150-156 | sets the quantity of a live subscription, with the exception before or after the effect |
| `SeatBilling.SeatRow.EnsureSubscription` | service/src/skillledger_service/ee/seat_billing.py:46-104 | the row, the organisation, Stripe and the answer after every pattern of failures |
| `SeatBilling.SeatRow.UpdateSeatCount` | service/src/skillledger_service/ee/seat_billing.py:107-168 | the same for an update: cancel at zero, create when absent, else set the quantity |
| `SeatBilling.SeatRow.ReconcileFromWebhook` | service/src/skillledger_service/ee/seat_billing.py:184-188 | takes over the reported quantity and clears the flag |
| `SeatBilling.SeatRow.Subscribe` | service/src/skillledger_service/ee/routers/billing_seats.py:147-151 | ensures a subscription for the stored count and then overwrites the count |
| `SeatBilling.EnsureIsLocal` | service/src/skillledger_service/ee/seat_billing.py:46-104 | false leaves the flag set, the count is kept, no other subscription moves, and a seat without a subscription ends consistent |
| `SeatBilling.EnsureSucceedsExactly` | service/src/skillledger_service/ee/seat_billing.py:46-104 | when True is answered, in terms of which calls work, and which subscription and customer are then recorded |
| `SeatBilling.UpdateSucceedsExactly` | service/src/skillledger_service/ee/seat_billing.py:107-168 | when True is answered to an update, in terms of which calls work: cancelling for no seats, retrieving and updating for a subscribed seat, creating as well for one without; and then Stripe has the count |
| `SeatBilling.UpdateIsExact` | service/src/skillledger_service/ee/seat_billing.py:107-168 | True is answered iff the flag ends false; the seat ends consistent from any state; the count is the argument clamped at zero; at zero a True answer means that the subscription is cancelled at Stripe and forgotten; a seat that stays subscribed keeps its own; no other subscription moves |
| `SeatBilling.UpdateCancels` | service/src/skillledger_service/ee/seat_billing.py:126-130 | without seats a successful update cancels the subscription and clears it; with seats or on a failure the identifier stays |
| `SeatBilling.ReconcileIsExact` | service/src/skillledger_service/ee/seat_billing.py:171-188 | a webhook leaves a consistent seat if and only if it carries Stripe's current quantity |
| `SeatBilling.SubscribeIsExact` | service/src/skillledger_service/ee/routers/billing_seats.py:147-151 | from a consistent seat the subscribe endpoint leaves a consistent one if and only if that seat was flagged before the call, the members equal the count already stored, or the subscription cannot be created |
| `SeatBilling.SubscribeIsSafeExactly` | service/src/skillledger_service/ee/routers/billing_seats.py:147-151 | whatever the calls do, it does so if and only if the seat was flagged before the call or the members equal the count already stored |
| `SeatBilling.FirstSubscribeUnderbills` | service/src/skillledger_service/ee/routers/billing_seats.py:147-151 | a first subscribe with members is billed for none, without the flag |
| `SeatBilling.PutKeepsGood` | service/src/skillledger_service/ee/seat_billing.py:21-188 | an operation on one seat that touches only its own and a fresh subscription keeps all seats consistent |
| `SeatBilling.OperationKeepsGood` | service/src/skillledger_service/ee/seat_billing.py:46-188 | every operation keeps every seat flagged, empty or equal to Stripe, with a non-negative count and its own subscription, whatever raises and whenever |
| `SeatBilling.RunsStayConsistent` | service/src/skillledger_service/ee/seat_billing.py:46-188 | so does every sequence of operations |
| `SeatBilling.RunIsConsistentExactly` | service/src/skillledger_service/ee/seat_billing.py:46-188 | a run stays consistent throughout if and only if each subscribe call in it found a flagged seat, the count it was to store, or a subscription that could not be created |
| `McpConfig.DecodeMerged` | cli/internal/cmd/proxy_install_mcp.go:111-141 | a rewritten entry decodes to the command and arguments put in |
| `McpConfig.DecodesExactly` | cli/internal/cmd/proxy_install_mcp.go:93-102 | an entry decodes to this command and these arguments if and only if its fields hold them, absent and null fields included |
| `McpConfig.MergeBackup` | cli/internal/cmd/proxy_install_mcp.go:157-159 | new backup entries replace those of the same name and keep the others |
| `McpConfig.ClientConfig.Install` | cli/internal/cmd/proxy_install_mcp.go:83-188 | wraps exactly the well-formed servers with a command other than the wrapper, backs up their originals first, and stops where a write fails |
| `McpConfig.InstallsExactly` | cli/internal/cmd/proxy_install_mcp.go:93-146 | what an install makes of each server: one with a command other than the wrapper's gets the wrapper's command line in front of its own, keeps its other fields and is backed up; every other one stays as it is |
| `McpConfig.InstallFails` | cli/internal/cmd/proxy_install_mcp.go:148-188 | a failed write of the backup leaves both files, a failed write of the configuration leaves that one |
| `McpConfig.ClientConfig.Uninstall` | cli/internal/cmd/proxy_uninstall_mcp.go:27-112 | restores exactly the backed-up servers still present, removes the backup, and writes nothing if one of them has become null |
| `McpConfig.UninstallFails` | cli/internal/cmd/proxy_uninstall_mcp.go:27-112 | a failed write, a missing or unreadable backup or an unreadable configuration leaves both files; otherwise the backup goes if anything changed |
| `McpConfig.WrappedRunsOriginal` | cli/internal/cmd/proxy_wrap_mcp.go:29-40 | a wrapped entry starts the wrapper, which runs exactly the original command and arguments, whatever the name |
| `McpConfig.TracksInstall` | cli/internal/cmd/proxy_install_mcp.go:83-146 | each server stays either untouched or wrapped with its original in the backup |
| `McpConfig.RunFollows` | cli/internal/cmd/proxy_install_mcp.go:83-188 | so it is after any sequence of installs, additions and failures between the two writes |
| `McpConfig.MergedOriginal` | cli/internal/cmd/proxy_uninstall_mcp.go:73-89 | an original merged into itself is the same server, and identical exactly when its arguments were written out |
| `McpConfig.RoundTrip` | cli/internal/cmd/proxy_uninstall_mcp.go:65-112 | after any such sequence one uninstall gives every server its command, arguments and other fields, and every other key of the file; to the letter exactly for servers never backed up or with arguments written out |
| `McpConfig.SecondInstallChangesNothing` | cli/internal/cmd/proxy_install_mcp.go:98-102 | an immediate second install changes neither file |
| `McpConfig.MovedWrapperLosesOriginal` | cli/internal/cmd/proxy_install_mcp.go:98-108 | after installs under two wrapper paths an uninstall restores a wrapped server if and only if the paths are equal |
| `Collector.IsIgnored` | cli/internal/builder/collector.go:176-203 | a path is ignored exactly when a directory pattern's components begin its own, or a glob matches the path or a component |
| `Collector.IgnoredExactly` | cli/internal/builder/collector.go:176-203 | in terms of characters: a pattern ending in a slash and two stars ignores its directory and what is below it, any other one what the glob matches, as a whole path or in a component |
| `Text.PrefixIsParts` | cli/internal/builder/collector.go:179-186 | equality or a prefix up to a separator is the same as the components of one beginning those of the other |
| `Collector.PatternsFor` | cli/internal/builder/collector.go:88-102 | the defaults, then exactly the lines that are neither blank nor comments |
| `Collector.Collect` | cli/internal/builder/collector.go:85-173 | fails exactly when some visited item does; otherwise lists exactly the files kept, strictly sorted by path |
| `Collector.CollectionExactly` | cli/internal/builder/collector.go:106-173 | a collection has a file if and only if it was visited and is not ignored; it fails if and only if the walk did, some file's path has two dots in a row, or a file not ignored is unreadable or longer than the limit |
| `Collector.SortByPath` | cli/internal/builder/collector.go:168-170 | the same entries in increasing order of path |
| `Collector.SortedEntriesUnique` | cli/internal/builder/collector.go:168-170 | a listing sorted by path is determined by its members |
| `Collector.OrderDoesNotMatter` | cli/internal/builder/collector.go:106-173 | two walks of the same items in any order fail alike or give the same sequence |
| `Collector.IgnoredFilesDoNotMatter` | cli/internal/builder/collector.go:133-139 | adding ignored files, such as the lock file of an earlier build, changes nothing if and only if none of their paths contains ".." |
| `Collector.CreateArchive` | cli/internal/builder/archive.go:33-66 | the manifest first and then the files in their order, each with name, size, time and content |
| `Collector.ArchiveIsReproducible` | cli/internal/builder/archive.go:33-88 | the entries written depend only on the manifest, the set of files visited and the epoch |
| `Collector.NamesAreDistinctExactly` | cli/internal/builder/archive.go:46 | the names in the archive are distinct exactly when no collected file is called skillledger.json |
| `Collector.ManifestNameTwice` | cli/internal/builder/archive.go:46-55 | failing inputs: a source file of that name gives an archive with two entries of it, with different contents |
| `Collector.DotDotFailsCollection` | cli/internal/builder/collector.go:136-143 | failing inputs: an ignored file called a..b fails the collection |
| `Text.SplitConcat` | cli/internal/ioc/ioc.go:88 | splitting a concatenation at a separator concatenates the splits |
| `Text.PartsAreFree` | cli/internal/ioc/ioc.go:88 | no part of a split has the separator |
| `Text.JoinSplit` | cli/internal/ioc/ioc.go:88 | joining the parts of a split gives the string back |
| `Text.SuffixIsParts` | cli/internal/ioc/ioc.go:88 | equality or a suffix after a dot is the same as the labels of one ending those of the other |
| `DomainMatch.SplitLower` | cli/internal/ioc/ioc.go:84-87 | lower-casing and splitting into labels commute |
| `DomainMatch.SuffixIsLabels` | cli/internal/ioc/ioc.go:83-89 | the test of the code is the comparison of lower-cased labels, one trailing dot removed |
| `DomainMatch.LabelsMatchExactly` | cli/internal/ioc/ioc.go:83-89 | in terms of characters: but for case and one trailing dot, the host is the domain or ends with a dot and the domain |
| `DomainMatch.Database.MatchDomain` | cli/internal/ioc/ioc.go:83-92 | returns the first entry whose labels are the last labels of the host, and none exactly when there is none |
| `DomainMatch.Database.AddEntry` | cli/internal/ioc/ioc.go:71-73 | later entries for a hash replace earlier ones, in whatever case |
| `DomainMatch.Database.Match` | cli/internal/ioc/ioc.go:101-111 | returns the entry added last for the hash, in whatever case |
| `DomainMatch.NewestIs` | cli/internal/ioc/ioc.go:71-111 | that entry is the one at the last place whose hash agrees but for case, and none exactly when there is no such place |

## Left out

- YAML decoding and the typed policy it yields; `Parse` enters as its well-formedness checks on the decoded policy.
- The Open Policy Agent: only the emitted fragment and set rules without a body are read and evaluated. Other modules of the package enter as the names they define and the messages they add, `glob.match` is a parameter, and a package is rejected only for naming an undefined set or for mixing set rules with complete ones. The engine's limits on single characters in comments, such as a byte order mark, are not modelled. A category may be named like a Rego keyword; whether a reference may end in one is the engine's rule, the engine is not part of this model, and the model's reader takes any word there.
- Strings that are not valid UTF-8. Strings are sequences of characters, of the printable property only a parameter is known, and limits count characters as bytes.
- RuntimeMeaning.ReadRuntime: JSON arrays are decoded by a parameter, and for an `any` or `except` expression with a line feed the array it accepted must be made of JSON's tokens; `RuntimeMeaning.AcceptedIsJson` derives this for every decoder that accepts JSON only.
- JSON decoding, hashing over canonical JSON, entropy values, glob matching, lower-casing of a character, signature checks, log lookups and proofs, policy evaluation inside the pipeline: parameters.
- TrustVerifier: `GetResult`, the cancellation of running verifications by `Close`, and the error texts.
- PresetCache: evaluation of actions, observers and manifests; response actions after a reload keep the configuration of the constructor.
- EtagSync: two syncing processes at once, temporary files left by a crash, and metadata files that decode only in part.
- ToolPinning: accepting a change by hand, two wrapper processes on one pin file, the descriptions and times in the reports, and the streaming variant of the same state machine.
- McpRelay: relays without a result scanner, parsing of lines, the decision entries for passed messages, notifications, and lines beyond the scanner's buffer, which stop a relay.
- EntropyTracker: the DNS scanner and its encodings, and rounding of the mean.
- DecisionLog: lines written in part.
- SeatBilling: the HTTP routes apart from the subscribe endpoint's two assignments, database transactions, several items in one subscription, and the webhook's own fallback when the event carries no items.
- McpConfig: JSON keys that differ only in case, backup files that decode only in part, and writes that stop halfway.
- Collector.Collect: walks in which two files have the same path are excluded; reading the file system, symbolic links, and the encoding of tar and gzip are not modelled.
- DomainMatch: fetching updates and merging caches.
- Merkle logs, the dashboard, packaging scripts, migrations, authentication, usage limits and command-line output: they would add only input and output or easy members.
- Log messages and wording of details in results, except where a step's name is compared.
