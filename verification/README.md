# Vegastack Labs control plane: verified models

This project models the protocols and canonical encodings at the heart of the control plane and proves properties of
them for all inputs, all interleavings and all reachable states. `dafny verify dfyconfig.toml` checks everything.

Conventions: one Dafny `char` stands for one byte of a Go string; instants are integers, and Go's zero time is 0; a
64-bit integer is the subset type `Int64`, with wrap-around written out where the source does not guard against it.
SHA-256, HMAC, Ed25519, JSON and RFC 3339 texts are function parameters. Where a result needs a hash to be free of
collisions, it asks so only of the finite set of documents concerned; the acknowledgement model lets a digest be the
text it was computed from, and `AckText` shows when that text is unambiguous. Clocks, randomness, network answers and
database reads are parameters of each step, with nothing assumed about them beyond what a lemma states.

| files | what they model |
|---|---|
| `RunLane` | the per-key lane that serialises submissions of one plan and idempotency key |
| `AuditChain`, `AuditEvents`, `AuditVerify`, `AuditTamper`, `AuditAnchors`, `AuditWriter`, `AuditRecovery` | the audit hash chain: links, the events it takes, verification, tamper evidence, independent checkpoints, the store that writes it, and recoveries with their canaries |
| `Acknowledgement`, `AckExecution`, `AckText` | the life of one acknowledgement under concurrent calls, its use for execution, and the texts behind its digests |
| `InventoryDigests`, `CustodyVerify`, `CustodyManifests` | canonical inventory texts, and the record-by-record inventory check |
| `OffsitePaths`, `OffsiteAdmission`, `OffsiteSeal`, `OffsiteCopy`, `OffsiteGuarantees` | an offsite generation from admission to the last-good decision, and what each step of it means |
| `CustodyPaging`, `CustodyJournal`, `CustodyFrames` | the custody broker: paged listings, journal entries, frames |
| `SshFrames`, `ObjectPaths` | API requests over SSH; repository request paths |
| `Base64Url`, `Cursors`, `Pages` | signed cursors and full pagination walks |
| `AuthorizationRisk`, `AuthorizationPolicy`, `AuthorizationGuarantees`, `AuthorizationAllows`, `StoredGrants`, `OwnerFanOut` | risk classes, the policy evaluator, its guarantees, grants in the store's order, and the fallback to workflow owners |
| `Text`, `Sorting` | byte strings, splitting, decimal numbers, byte order; sorting and permutations |

Properties that do not hold of the code as one might expect, each with its exact condition:

- A submission that finds no run can happen twice on one key, when the first one is refused before the run is created
  (`RefusedSubmitIsRetried`). `MissingMeansNotCreated`: a submission finds the run missing exactly when no earlier one
  created it; `MissingIsActedOnOnce`: only one ever creates it.
- `VerifyLocal` does not tie the first link of an epoch to the epoch before: wherever an epoch changes, the event before
  can be replaced and the last digest stays (`EarlierEpochsAreNotPinned`, `TwoEpochsOneDigest`).
  `LastDigestFixesExactly`: the last digest fixes the events exactly when no link changes epoch. Checkpoints pin their
  ranges across epochs.
- The comment on `ExpectedInventoryDigest` promises the same digest in any order. Two objects of one type and name and
  of different sizes break it (`OneNameTwoSizes`). `InventoryTextNeedsKeys`: it holds exactly when type and name
  identify the object; likewise for dependencies and offsite objects.
- `intString` writes nothing for a negative number, so proofs at revisions -1 and -2 hash alike
  (`NegativeRevisionsCollide`). `ProofTextDeterminesProof`: the text determines the proof exactly when neither revision
  is negative, which the request schema demands.
- An admitted generation whose base has more than 502 bytes, or whose id ends in two dots, can never be received
  (`AdmissionMeetsReceiptCheck`); `GrantedInVain` gives a policy and an observation for either half, under every hash.
- The successor inventory check takes a missing map entry for the zero object. `SuccessorNeedsNonZero`: its comparison
  and counts accept nothing but permutations, whatever the hash, exactly when the zero object is not expected.
  `SuccessorIsPermutationByDigest`: with a hash that separates the two texts the check is exact in any case.
- Only the first matching grant is consulted, in the byte order of role names. An author grant for execution comes first
  and refuses what a control-plane admin grant on the same target allows (`TwoGrantsDisagree`).
  `StoredGrantsDecideExactly`: a matching sufficient role is enough exactly when no matching grant for the plan action
  has the author role. `GrantOrderMattersExactly` says the same of the evaluator alone, for any order.

The transactions of the store do not by themselves keep the epochs of the audit chain together
(`TwoRecoveriesWithoutAnEvent`, `WriterAgainstVerifier`). The canary does: `ProgramHistoryIsAccepted` shows that whatever
the program writes, over any number of recoveries, its own verifier accepts.

## Model

| member | source | states |
|---|---|---|
| RunLane.Application.JoinLane | internal/api/application.go:82-94 | the lock of the key is found or created and counts one more user; every other key and lock is as before |
| RunLane.Application.DepartLane | internal/api/application.go:95-104 | one user less, and the key is deleted exactly with its last user |
| RunLane.LaneKeyNamesOneSubmission | internal/api/runs.go:169-172 | the lane text determines plan and idempotency key, for every key text |
| RunLane.LaneInvariant | internal/api/application.go:71-104 | the table, user counts and mutex owners agree with the active threads after every interleaving |
| RunLane.LaneIsExclusive | internal/api/runs.go:169-194 | threads on one key share one lock that counts exactly them, and at most one is between the lookup and the return of Submit |
| RunLane.LanesAreSeparate | internal/api/application.go:82-94 | different submissions never share a lock |
| RunLane.LaneTableIsExact | internal/api/application.go:93-104 | the table holds exactly the keys with active threads, and is empty when none is active |
| RunLane.LaneNeverStalls | internal/api/application.go:82-104 | while a key has active threads, one of them can take its next step |
| RunLane.MissingMeansNotCreated | internal/api/runs.go:169-194 | a Submit rests on the answer that the run is missing if and only if no earlier Submit of it created the run |
| RunLane.MissingIsActedOnOnce | internal/run/engine.go:198-266 | the Submit that created a run saw it missing, no other Submit created it, and no later one sees it missing |
| RunLane.SubmitsAreOfOpenRuns | internal/api/runs.go:173-181 | no Submit rests on a settled run: when it was asked for, the run did not exist or was queued, and it was found missing exactly in the first case |
| RunLane.SettledRunsAreNotSubmitted | internal/api/runs.go:173-181 | a holder that asks for a run may submit it exactly when the run is missing or queued at that moment |
| RunLane.RunsComeFromOneSubmit | internal/run/engine.go:198-266 | a run is durable if and only if a Submit created it |
| RunLane.RefusedSubmitIsRetried | internal/run/engine.go:198-232 | a concrete run of two threads that both see the run missing: the first is refused, the second creates it |
| AuditChain.MakeChainLink | internal/audit/chain.go:74-109 | succeeds exactly on valid inputs, and the link digest binds every canonical field |
| AuditChain.DigestChainRange | internal/audit/chain.go:111-130 | the digest of exactly the ordered link digests of the range, or an error |
| AuditChain.ChainDigests | internal/audit/chain.go:132-138 | the link digests in order |
| AuditEvents.CanonicalExactly | internal/audit/canonical.go:14-17 | a time passes if and only if it is the printed form of a proper date and time |
| AuditEvents.EventTypeIsExact | internal/audit/types.go:168-174 | a type passes if and only if it is a name and one to five more, joined by dots, within 96 bytes |
| AuditEvents.TokenIsExact | internal/audit/types.go:227-238 | a token passes if and only if its bytes are letters, digits and four marks, the first no mark, and it does not begin like a credential in any case |
| AuditEvents.LinkIsMadeExactly | internal/audit/chain.go:74-109 | a link is made if and only if event, context and place are well formed field by field, and then carries exactly them and the digest over them |
| AuditEvents.RangeIsExact | internal/audit/chain.go:111-130 | a range has a digest if and only if it is not empty, ids are positive and ascend throughout and every link digest is one; it is the hash of both ends and all digests in order |
| AuditEvents.GenesisIsExact | internal/audit/chain.go:144-162 | the digest an epoch begins with exists if and only if all four inputs are well formed, and tells them apart if the two documents do not collide |
| AuditVerify.VerifyLocal | internal/audit/verify.go:34-99 | returns the first fault in link order, then checkpoint order, or the accepted result |
| AuditVerify.VerifyCheckpoints | internal/audit/verify.go:75-98 | folds the anchored checkpoints, stopping at the first bad one |
| AuditVerify.FirstReasonIsFirst | internal/audit/verify.go:44-74 | the reported reason is that of the first faulty link |
| AuditVerify.AcceptanceIsExact | internal/audit/verify.go:34-99 | a non-empty history is accepted exactly when every link passes and every anchored checkpoint matches |
| AuditVerify.AnchorIsFirstGreatest | internal/audit/verify.go:75-98 | the anchor kept is the first with the greatest last event id, with exactly its slice of links |
| AuditTamper.AcceptedIsGrown | internal/audit/verify.go:44-74 | the accepted link lists are exactly those MakeChainLink can grow step by step |
| AuditTamper.SameDigestSameLink | internal/audit/chain.go:74-109 | equal link digests mean equal bound fields, context and event |
| AuditTamper.LastSegmentAgrees | internal/audit/verify.go:44-74 | histories of any lengths with the same last digest agree on every event and bound field of the last epoch, if the hash separates the documents of that epoch |
| AuditTamper.LastDigestFixesHistory | internal/audit/verify.go:44-74 | within one epoch the last digest fixes the whole history |
| AuditTamper.EarlierEpochsAreNotPinned | internal/audit/verify.go:54-60 | wherever an epoch changes, another accepted history has the same length, first id and last digest and a different event just before the change |
| AuditTamper.LastDigestFixesExactly | internal/audit/verify.go:44-74 | the last digest fixes the events if and only if no link changes epoch |
| AuditTamper.AnchoredRangesAgree | internal/audit/verify.go:75-97 | equal checkpoint digests mean equal events over the whole range, even across epochs |
| AuditTamper.IndependentMatchPinsHistory | internal/audit/verify.go:101-128 | histories that match one independent checkpoint carry the same events in its range |
| AuditAnchors.AcceptedResultIsOfTheHistory | internal/audit/verify.go:34-99 | digest, sequence, instance and epoch of an accepted result are the last link's; status, reason and pre-anchor mark are the kept checkpoint's, or the last link's without one |
| AuditAnchors.LinkReasons | internal/audit/verify.go:44-74 | which reason is given for a link: binding if and only if ids, epochs or digests are out of order, and then gap, fork and epoch each with its condition on the link before |
| AuditAnchors.DigestReasons | internal/audit/verify.go:61-74 | when payload, context and link digest are the reason, against the hashes of event, context and link |
| AuditAnchors.GoodCheckpoint | internal/audit/verify.go:79-92 | a checkpoint is good if and only if its ids, digests, sequences, instance and epoch are those of the links it covers |
| AuditAnchors.ComparisonIsExact | internal/audit/verify.go:101-129 | which of ahead, stale, conflict, invalid signature and match is reported, and when with an error; a match if and only if every field is the anchor's and the key verifies the signature over the hash of the binding |
| AuditAnchors.AnchorCanBeMatched | internal/audit/verify.go:101-129 | every well-formed anchor has an independent checkpoint that matches it |
| AuditAnchors.MatchIsSignedOverTheHistory | internal/audit/verify.go:101-129 | a match means the key signed the digest of exactly the links in the anchored range of this history |
| AuditWriter.WriterInvariant | internal/store/audit_chain.go:20-72 | what the store keeps true of its chain over every run of appends, preparations, recoveries and enablings |
| AuditWriter.RunAgainstLedger | internal/store/recovery_transition.go:57-148 | the epoch is that of the newest event plus the recoveries since, and an epoch is skipped in the links exactly when the run passed one over |
| AuditWriter.WriterAgainstVerifier | internal/store/audit_chain.go:20-72 | of the store's transactions called in any order: what they write is accepted if and only if there never were two recoveries between two committed events, and otherwise refused for its epochs |
| AuditWriter.TwoRecoveriesWithoutAnEvent | internal/store/recovery_transition.go:57-148 | direct calls that enable two recoveries without a canary write a history that is reported as an incident |
| AuditWriter.EpochBeginsAtItsRecovery | internal/store/audit_chain.go:20-72 | in every run the first link of an epoch follows the genesis of the recovery that began it, over its instance, prior checkpoint and decision, or the setup's in epoch 0 |
| AuditRecovery.RecoveryInvariant | internal/store/recovery_canary.go:20-76 | a ready authority has an event in its epoch, no epoch is passed over, and every canary on record left its event, over every interleaving |
| AuditRecovery.ProgramHistoryIsAccepted | internal/recovery/canary.go:86-133 | with authorities enabled only by their canary, every history is accepted, over any number of recoveries |
| AuditRecovery.RecoveryCompletes | internal/recovery/canary.go:86-133 | from every reachable ready state a recovery runs through its canary to a ready authority of the next epoch, whose first event is the canary's |
| AuditRecovery.EnabledOnlyByItsCanary | internal/recovery/canary.go:86-133 | in every run an authority becomes ready only by a canary on record for its epoch, and a canary gets on record only while that epoch waits, with one event of it |
| AuditRecovery.TwoEpochsOneDigest | internal/audit/verify.go:54-60 | a concrete run over two epochs, and another accepted history with the same last digest and different events |
| Acknowledgement.DecideWrites | internal/store/acknowledgement_repository.go:89-123 | a decision write creates the outcome over a pending row, or finds the identical one |
| Acknowledgement.ConsumeWrites | internal/store/acknowledgement_repository.go:125-159 | a consumption write happens over an unconsumed approved row, or finds the identical one |
| Acknowledgement.Invariant | internal/acknowledgement/service.go:121-309 | row, calls in flight and history agree after every interleaving |
| Acknowledgement.DecidedRowNeverChanges | internal/acknowledgement/service.go:121-170 | a decided acknowledgement and a consumption never change again, whatever follows |
| Acknowledgement.ApprovalIsJustified | internal/acknowledgement/service.go:121-168 | approval came from one Decide whose candidate equals the request in all ten fields, in time, by the human of the request, allowed on every target of the requested plan |
| Acknowledgement.OneTimeSteps | internal/acknowledgement/service.go:222-309 | leaves pending at most once, is consumed at most once, and at most one check reports the consumption |
| Acknowledgement.ExecutionProofIsSingleUse | internal/acknowledgement/service.go:235-241 | VerifyForExecution succeeds at most once in any run |
| Acknowledgement.SuccessRestsOnConsumption | internal/acknowledgement/service.go:243-309 | every success is the consuming one or carries a verified claim on this acknowledgement, and consumption was in time |
| Acknowledgement.SuccessIsRechecked | internal/acknowledgement/service.go:270-301 | every success and the consumption come from a check that read the plan again in all six bound fields, current and for humans, with the human of the request allowed on every target |
| Acknowledgement.ExpiryIsDue | internal/acknowledgement/service.go:138-144 | an acknowledgement expires only at or after its time, and unconsumed |
| AckExecution.EntriesComeFromCalls | internal/acknowledgement/service.go:121-309 | every decision, consumption and success is of a call made with exactly the recorded candidate or claim, clock and answers |
| AckExecution.CandidateApproves | internal/acknowledgement/service.go:121-168 | a pending request is approved by a matching candidate of its human in time |
| AckExecution.ApprovedIsUsable | internal/acknowledgement/service.go:243-309 | an approved acknowledgement is consumed by a check with good answers, in time or with a claim stamped in time |
| AckExecution.ConsumedIsClaimable | internal/acknowledgement/service.go:243-309 | once consumed, every check with a verified claim on it and good answers succeeds without consuming again |
| AckExecution.PendingCanBeExecuted | internal/acknowledgement/service.go:121-309 | from a pending request a decision and then a check with good answers end in a success |
| AckExecution.RowMovesAtItsRevision | internal/store/acknowledgement_repository.go:23-159 | in every interleaving the row is made, decided, expired or consumed only at the revision and epoch it was requested for, and appears if and only if it is requested there before it expires |
| AckExecution.DecidedIsToldAgain | internal/acknowledgement/service.go:129-137 | a matching candidate for a decided request is told the decision if and only if it asks for it, and nothing changes |
| AckExecution.OverdueExpires | internal/acknowledgement/service.go:172-189 | asking for the status expires the row if and only if it is pending and its time has come |
| AckExecution.LateCandidateExpires | internal/acknowledgement/service.go:138-144 | a matching candidate that comes too late expires the row instead of deciding it |
| Acknowledgement.DecideReturnsWhatWasAsked | internal/acknowledgement/service.go:121-170 | a successful Decide returns the status its candidate asked for, also when another call won |
| AckText.IntString | internal/acknowledgement/service.go:462-475 | filling a buffer from its end gives the decimal text of a non-negative number, and the empty text of a negative one |
| AckText.UniqueTargets | internal/acknowledgement/service.go:362-384 | exactly the plan's targets, each once, in byte order |
| AckText.ProofTextDeterminesProof | internal/acknowledgement/service.go:410-412 | the hashed text determines every field of the proof if and only if neither revision is negative |
| AckText.NegativeRevisionsCollide | internal/acknowledgement/service.go:462-475 | two proofs that differ only in a negative revision have one text |
| InventoryDigests.Int64Bytes | internal/backup/creation_manifest.go:132-140 | the eight big-endian bytes of the two's complement value |
| InventoryDigests.Int64TextInjective | internal/backup/creation_manifest.go:132-140 | the eight bytes determine the value |
| InventoryDigests.ExpectedInventoryText | internal/backup/creation_manifest.go:109-130 | the hasher is fed the canonical text of a sorted permutation of the objects |
| InventoryDigests.ObjectsTextInjective | internal/backup/creation_manifest.go:116-128 | the inventory text determines the list |
| InventoryDigests.InventoryTextIsExact | internal/backup/creation_manifest.go:106-130 | where type and name identify the object, equal texts exactly for the same objects equally often, for any sorting algorithm |
| InventoryDigests.InventoryTextNeedsKeys | internal/backup/creation_manifest.go:106-130 | the text is independent of the order if and only if type and name identify the object |
| InventoryDigests.InputOrderNeedsKeys | internal/backup/creation_manifest.go:106-130 | with one stable sort every input order gives one text if and only if type and name identify the object |
| InventoryDigests.OneNameTwoSizes | internal/backup/creation_manifest.go:106-130 | a concrete list of two objects with two sorted orders and two texts, and one stable sort that gives its two input orders two texts |
| InventoryDigests.ExpectedDependencyText | internal/backup/creation_manifest.go:87-104 | the hasher is fed the canonical text of a sorted permutation of the dependencies |
| InventoryDigests.DependencyTextIsExact | internal/backup/creation_manifest.go:87-104 | where the key identifies the dependency, equal texts exactly for the same dependencies |
| InventoryDigests.DependencyTextNeedsKeys | internal/backup/creation_manifest.go:87-104 | the text is independent of the order if and only if the key identifies the dependency |
| InventoryDigests.OffsiteInventoryText | internal/backup/offsite_generation.go:140-154 | the hasher is fed the canonical text of a sorted permutation of the objects |
| InventoryDigests.OffsiteTextIsExact | internal/backup/offsite_generation.go:140-154 | where the key identifies the object, equal texts exactly for the same offsite objects |
| InventoryDigests.OffsiteTextNeedsKeys | internal/backup/offsite_generation.go:140-154 | the text is independent of the order if and only if the key identifies the object |
| InventoryDigests.RetentionObservationText | internal/backup/offsite_generation.go:107-138 | the hasher is fed the header, the sorted rules and the sorted mutable prefixes |
| InventoryDigests.SectionsInjective | internal/backup/offsite_generation.go:125-136 | the rule and prefix sections are told apart without a count |
| InventoryDigests.RetentionTextIsExact | internal/backup/offsite_generation.go:107-138 | equal texts exactly for equal hashed fields and the same rules and prefixes in any order |
| CustodyVerify.CanonicalCreationManifest | internal/backup/creation_manifest.go:146-229 | the hash of the manifest's JSON exactly when every identifier, digest, selector, dependency and object is well shaped, counts and byte total (modulo 2^64) agree and both inventory digests match |
| CustodyVerify.Compare | internal/backup/local_verify_linux.go:84-94 | the map built from the observed list answers every expected object |
| CustodyVerify.VerifyCustodyInventory | internal/backup/local_verify_linux.go:78-97 | succeeds exactly when manifest, length, digest and every record agree |
| CustodyVerify.VerifySuccessorCustodyInventory | internal/backup/local_verify_linux.go:34-53 | succeeds exactly when manifest, both digests, length and every record agree |
| CustodyVerify.PathKeyInjective | internal/backup/local_verify_linux.go:86-89 | the joined key tells type and name of well-shaped objects apart |
| CustodyVerify.VerifiedIsPermutation | internal/backup/local_verify_linux.go:78-97 | with distinct pairs, verification succeeds exactly on the permutations of the manifest's objects, whatever the hash |
| CustodyVerify.SuccessorIsPermutation | internal/backup/local_verify_linux.go:34-53 | with the zero object not expected, succeeds if and only if manifest and digests agree and the lists are permutations, whatever the hash |
| CustodyVerify.SuccessorIsPermutationByDigest | internal/backup/local_verify_linux.go:34-53 | the same if and only if for any expected list when the hash separates the texts of the two lists |
| CustodyVerify.ZeroObjectNeedNotBeObserved | internal/backup/local_verify_linux.go:41-49 | with the zero object expected, a list without it passes the comparison |
| CustodyVerify.SuccessorNeedsNonZero | internal/backup/local_verify_linux.go:34-53 | over all hashes and manifests, only permutations are accepted if and only if the zero object is not expected |
| CustodyManifests.HeaderIsExact | internal/backup/creation_manifest.go:146-173 | the header passes if and only if schema, version, each identifier, each digest, success and counts are as required, field by field |
| CustodyManifests.ObjectsAreExact | internal/backup/creation_manifest.go:174-201 | the objects pass if and only if each is proper, one is the configuration, some is a key, and one is the snapshot named |
| CustodyManifests.ManifestIsExact | internal/backup/creation_manifest.go:146-229 | a manifest is valid if and only if header and objects pass, the sizes agree modulo 2^64, both digests are those of what it lists and selectors and dependencies are named |
| CustodyManifests.VerifiedExactly | internal/backup/local_verify_linux.go:78-97 | with distinct pairs, success if and only if the manifest is valid, the digest is that of its JSON and its objects were observed in some order |
| CustodyManifests.SuccessorExactly | internal/backup/local_verify_linux.go:34-53 | success if and only if the manifest is valid and its own, of the original digest, and the expected list, not empty, has the successor digest and was observed in some order |
| OffsitePaths.JoinIsPlain | internal/backup/offsite_generation.go:32-38 | joining a clean relative name and a plain element is concatenation and clean |
| OffsitePaths.PrefixExtends | internal/backup/offsite_generation.go:102-105 | a prefix stays valid under an element exactly when short enough and not ending in two dots |
| OffsiteAdmission.ForecastGeneration | internal/backup/offsite_generation.go:20-69 | grants exactly under the stated policy, capacity, freshness, digest and rule conditions |
| OffsiteAdmission.ValidGenerationAdmission | internal/backup/offsite_generation.go:71-98 | accepts exactly the admissions whose rules and prefixes are those of their base |
| OffsiteAdmission.ValidProtectedRules | internal/backup/offsite_catalog.go:135-164 | accepts exactly fresh rule ids with valid prefixes that are the five names of the base found |
| OffsiteAdmission.GrantsExactly | internal/backup/offsite_generation.go:32-69 | with room and the wanted rules, a grant depends on the base prefix alone |
| OffsiteGuarantees.GrantFits | internal/backup/offsite_generation.go:20-31 | the point, the budget and one more generation fit what was observed at most five minutes before; the five rules fit if and only if counting them stays within 64 bits |
| OffsiteGuarantees.RoomIsExact | internal/backup/offsite_generation.go:20-31 | policy and observation make room if and only if the policy is complete, everything fits and the observation is fresh, of this generation and of its own digest |
| OffsiteGuarantees.GrantIsExact | internal/backup/offsite_generation.go:20-69 | granted if and only if there is room, the base is valid and exactly the five names below it are protected and its locks mutable |
| OffsiteGuarantees.GrantIsOfThisGeneration | internal/backup/offsite_generation.go:20-58 | a grant rests on a complete policy and on an observation of this generation whose digest, rules and prefixes are exactly right |
| OffsiteGuarantees.GrantYields | internal/backup/offsite_generation.go:59-68 | the admission repeats the policy's budget, the observed digest and the observed rules, sorted |
| OffsiteGuarantees.AdmissionIsExact | internal/backup/offsite_generation.go:71-98 | an admission is valid if and only if its prefix, bounds, rule ids, five protected names and lock prefix are as required, written out |
| OffsiteAdmission.AdmissionMeetsReceiptCheck | internal/backup/offsite_catalog.go:135-164 | a valid admission meets the receipt's rule check if and only if its base has at most 502 bytes and its id does not end in two dots |
| OffsiteAdmission.ForecastMeetsReceiptCheck | internal/backup/offsite_generation.go:20-69 | the same for everything the forecast grants |
| OffsiteAdmission.EveryBaseCanBeGranted | internal/backup/offsite_generation.go:20-69 | under every hash each valid base is granted to some policy and observation, and received exactly under the condition above |
| OffsiteAdmission.GrantedInVain | internal/backup/offsite_catalog.go:135-164 | under every hash, a grant that is never received: an id that ends in two dots, and a base of 503 bytes |
| OffsiteGuarantees.PassedRulesCover | internal/backup/offsite_catalog.go:135-164 | rules that pass are five, of one token each, with valid prefixes, and cover the names of the base of their configuration, which ends in the generation |
| OffsiteSeal.AddUp | internal/backup/offsite_catalog.go:117-127 | valid, distinct objects whose sizes add up exactly, without leaving 64 bits |
| OffsiteSeal.ValidPendingOffsiteGeneration | internal/backup/offsite_catalog.go:101-133 | accepts exactly the complete and consistent receipts |
| OffsiteSeal.ValidWriterSeal | internal/backup/offsite_catalog.go:175-186 | the seal names the latest session expiry and was observed after it and after issuance stopped |
| OffsiteSeal.ValidateOffsiteProof | internal/backup/offsite_catalog.go:63-81 | accepts exactly proofs bound to the receipt, sealed when they claim verification |
| OffsiteSeal.CanAdvanceOffsiteLastGood | internal/backup/offsite_catalog.go:93-99 | accepts exactly verified proofs of a valid receipt at the current revision and epoch |
| OffsiteGuarantees.ReceiptIsExact | internal/backup/offsite_catalog.go:101-133 | a receipt is valid if and only if it names its point and generation completely and its objects, rules, digest and times are in order |
| OffsiteGuarantees.ObjectsAreExact | internal/backup/offsite_catalog.go:117-127 | the objects pass if and only if each is proper, no key repeats and the sizes sum to the total |
| OffsiteGuarantees.AdvanceIsExact | internal/backup/offsite_catalog.go:63-99 | a proof advances a valid receipt if and only if revision, epoch, binding, status, class, full read and seal are as required, field by field |
| OffsiteGuarantees.ProofIsExact | internal/backup/offsite_catalog.go:63-81 | a proof is valid for a receipt if and only if it repeats it field by field with its own digest, a known class and status, and for the verified status also a full read and the seal |
| OffsiteGuarantees.AdvanceIsCurrent | internal/backup/offsite_catalog.go:93-99 | an accepted advance is at the receipt's own revision and epoch, of its point and generation, read in full and sealed |
| OffsiteGuarantees.OnePositionAdvances | internal/backup/offsite_catalog.go:93-99 | one receipt and proof are accepted at no more than one revision and epoch |
| OffsiteSeal.ValidReceiptCanAdvance | internal/backup/offsite_catalog.go:93-99 | every valid receipt has a proof that becomes the last good one |
| OffsiteCopy.OneRunEndpoint.constructor | internal/backup/offsite_issuer.go:39-50 | an open endpoint that has issued nothing |
| OffsiteCopy.OneRunEndpoint.ServeHTTP | internal/backup/offsite_issuer.go:52-92 | issues only while open, with the child alive, before the deadline and for the exact request, and records every session issued |
| OffsiteCopy.OneRunEndpoint.MarkChildExited | internal/backup/offsite_issuer.go:103-113 | marks the exit and keeps the first non-zero time |
| OffsiteCopy.OneRunEndpoint.Close | internal/backup/offsite_issuer.go:133-155 | closes once and drops the bearer |
| OffsiteCopy.Invariant | internal/backup/offsite_copy.go:35-62 | every session issued is recorded, and the copy holds exactly the list of a stopped endpoint, in every interleaving |
| OffsiteCopy.NothingIssuedAfterExit | internal/backup/offsite_issuer.go:52-113 | after the mark no continuation issues or records a session |
| OffsiteGuarantees.SessionsWereAskedFor | internal/backup/offsite_issuer.go:52-92 | in every run each session was asked for by a local GET of this path with this bearer before the deadline |
| OffsiteGuarantees.NothingIssuedAfterClose | internal/backup/offsite_issuer.go:133-155 | after closing no continuation issues a session |
| OffsiteGuarantees.StartedCopyIsBound | internal/backup/offsite_copy.go:18-27 | a started copy is configured completely, for this endpoint, point and generation, over TLS into the admitted prefix, with credentials from a loopback address |
| OffsiteGuarantees.FinishedCopyIsWithinBounds | internal/backup/offsite_copy.go:35-62 | a finished copy stayed within its admission, and its receipt repeats job and observation |
| OffsiteGuarantees.FinishedCopyHadAChild | internal/backup/offsite_copy.go:28-41 | a finished copy had a child that exited and returned at least one object under the names of the receipt |
| OffsiteCopy.AdvanceMeansWritersAreGone | internal/backup/offsite_catalog.go:93-99 | an accepted advance means every session ever issued has expired by the observation and none is issued later |
| OffsiteCopy.ReceiptValidExactly | internal/backup/offsite_copy.go:35-62 | when the receipt of a finished copy is valid, for every run |
| OffsiteCopy.JobAdvances | internal/backup/offsite_copy.go:18-62 | every job that passes the configuration, URL, binding and admission checks, on a well-formed point and a receivable admission, with objects that add up, has a run whose proof becomes the last good one, at every endpoint |
| OffsiteCopy.SomeCopyAdvances | internal/backup/offsite_catalog.go:93-99 | under every hash there is such a job, so accepted advances exist |
| CustodyPaging.CustodyInventory | internal/backup/custody_process_linux.go:623-636 | the listing, exactly when within the session's object and byte bounds |
| CustodyPaging.ListInventory | internal/backup/custody_process_linux.go:236-262 | ends and stays within the session's bound whatever is answered |
| CustodyPaging.PagingIsExact | internal/backup/custody_process_linux.go:504-524 | paging an unchanged listing returns exactly it, or an error when it is too long |
| CustodyPaging.TwoLevelsAreExact | internal/backup/custody_systemd_linux.go:788-813 | through supervisor and child, exactly the child's repository when within bounds and an error otherwise |
| CustodyPaging.OfferedExactly | internal/backup/custody_process_linux.go:623-636 | a repository is offered if and only if its count and the sum of its sizes are within bounds |
| CustodyPaging.StalledPageIsRefused | internal/backup/custody_process_linux.go:236-262 | a page that goes back, or neither ends nor goes on, refuses the listing |
| CustodyJournal.OneTruthfulEntryPerClose | internal/backup/custody_process_linux.go:317-339 | however often a client is closed, one entry per completed close and one for a failed start, each uncertain exactly when start, close request, child exit or a mutation frame before that close read the flag went wrong |
| CustodyJournal.ClosedOnceFinishedOnce | internal/backup/custody_process_linux.go:317-339 | a client closed at most once has at most one entry, and exactly one once its start failed or its close is done |
| CustodyJournal.CloseEndsWithItsEntry | internal/backup/custody_systemd_linux.go:664-684 | from any open state a close carried through ends with its entry, whatever frames arrive meanwhile |
| CustodyJournal.PoisonedExactly | internal/backup/custody_process_linux.go:362-400 | in every run the session is poisoned if and only if it received a mutation frame with its nonce that the journal did not take |
| CustodyJournal.CloseTellsOfFrames | internal/backup/custody_systemd_linux.go:664-684 | the entry of a close is uncertain if and only if its request failed, such a frame had been received before it read the flag, or a direct child exited uncleanly |
| CustodyJournal.OrderlySession | internal/backup/custody_process_linux.go:317-339 | a session that starts opens, and its close succeeds if and only if no frame was refused and every step went well |
| CustodyFrames.WriteCustodyFrame | internal/backup/custody_protocol.go:102-114 | four length bytes and the body, or an error outside 1 to 65536 bytes |
| CustodyFrames.ReadCustodyFrame | internal/backup/custody_protocol.go:116-136 | the frame at the front of the bytes, however they are delivered |
| CustodyFrames.FrontIsExact | internal/backup/custody_protocol.go:116-136 | a frame is read if and only if the bytes begin with the size of a body within bounds and the body, which decodes to a frame with a verb and a nonce digest |
| CustodyFrames.SizeRoundTrip | internal/backup/custody_protocol.go:107-121 | the length bytes give the length back |
| CustodyFrames.CutFrameIsRefused | internal/backup/custody_protocol.go:116-128 | a frame cut short anywhere is not read |
| CustodyFrames.ReadsBackWhatWasWritten | internal/backup/custody_protocol.go:102-136 | frames written back to back are read back as the same list |
| CustodyFrames.SendAndReceive | internal/backup/custody_protocol.go:102-136 | the round trip under any chunking of the bytes |
| SshFrames.ParseOperationIsExact | internal/apissh/codec.go:180-192 | an operation is accepted exactly when it is the printed form of the method and path returned |
| SshFrames.OperationPathIsExact | internal/apissh/codec.go:180-192 | a path is accepted if and only if it is this API's prefix followed by one or more plain segments |
| SshFrames.ValidHeaderIsExact | internal/apissh/codec.go:194-224 | a header is valid if and only if protocol and version are these, the schema accepts it, its operation prints the verb and path returned and every argument is plain |
| SshFrames.ReadHeaderLine | internal/apissh/codec.go:248-258 | the text before the first newline, within 2 to 16384 bytes |
| SshFrames.ReceiveRequest | internal/apissh/codec.go:110-130 | reading in steps with one byte beyond the declared length accepts exactly what the whole-input reading does |
| SshFrames.AcceptedExactly | internal/apissh/codec.go:320-335 | after a valid header line, accepted exactly when the rest has the declared length and digest |
| SshFrames.RequestRoundTrip | internal/apissh/codec.go:97-130 | a written request reads back exactly when its header line has at most 16384 bytes; any other payload length is refused |
| ObjectPaths.ParseObjectPath | internal/backup/object_store.go:106-147 | the loop over segments accepts exactly what the segment rules allow |
| ObjectPaths.ObjectPathIsExact | internal/backup/object_store.go:106-147 | after at most one leading slash, a path is accepted exactly when it is the printed form of the request |
| ObjectPaths.RepositoryPathIsExact | internal/backup/object_store.go:79-100 | exactly the repository itself and its listable directories |
| ObjectPaths.ParsersAreDisjointAndSafe | internal/backup/object_store.go:79-174 | no path is both, objects are retained or locks but not both, and no element is empty, dot or dot-dot |
| ObjectPaths.RepositoryIsServedExactly | internal/backup/object_store.go:79-174 | a repository and its configuration are served if and only if the id is one plain path element within 128 bytes |
| Base64Url.RoundTrip | internal/api/cursor.go:87 | decoding undoes the encoding of section 5 of RFC 4648 without padding, on every byte string |
| Cursors.BodyFits | internal/api/cursor.go:87-104 | a token within 2048 bytes has a body within 1503, below the limit of the reader |
| Cursors.IssuedExactly | internal/api/cursor.go:73-92 | a token is issued if and only if the binding is usable, the position has one to four values and an id, and the token fits 2048 bytes |
| Cursors.AcceptedTokenIsSigned | internal/api/cursor.go:94-134 | every accepted token is a body and its keyed digest, of this binding field by field, not expired, and yields exactly what the body holds |
| Cursors.IssuedTokenIsAccepted | internal/api/cursor.go:73-134 | an issued token is accepted for its lifetime under exactly the covering bindings, and yields what was issued |
| Pages.PageIsNextSlice | internal/api/phase5_pages.go:17-48 | a page is the next slice of the snapshot, with a cursor exactly while more remain |
| Pages.WalkVisitsEverythingOnce | internal/api/backup_policies.go:188-220 | following cursors over one snapshot visits every id once, in order, and ends |
| Pages.WalkNeverSkips | internal/api/backup_policies.go:188-220 | whatever store is behind each request, a walk returns a prefix of the ids of the snapshot it began in, and ends only with all of them, if one revision means one list |
| Pages.MovedRevisionConflicts | internal/api/backup_policies.go:201-204 | a moved revision gives a conflict, never a page |
| Pages.RealPortIsFaithful | internal/api/router.go:611-626 | the signed cursors satisfy what the walk needs |
| Pages.AcceptedCursorNamesAnID | internal/api/phase5_pages.go:17-34 | a cursor is accepted if and only if its token decodes to one sort value equal to the id, a path token |
| AuthorizationRisk.ClassifyPlan | internal/authorization/risk.go:97-123 | classifies exactly plans numbered 1 to n with known operations whose declared risk is the greatest |
| AuthorizationRisk.ClassIgnoresOrder | internal/authorization/risk.go:97-123 | reordering the operations changes nothing |
| AuthorizationPolicy.MatchingGrant | internal/authorization/policy.go:207-226 | the first matching grant, or whether one matched elsewhere |
| AuthorizationPolicy.Authorize | internal/authorization/policy.go:68-177 | the decision with the first failing check as its reason |
| AuthorizationGuarantees.AllowedMeansGranted | internal/authorization/policy.go:155-177 | an allow rests on a listed grant for exactly this target and branch whose role covers action and risk |
| AuthorizationGuarantees.AllowedPlanAction | internal/authorization/policy.go:108-177 | numbering 1 to n, declared risk the greatest of all operations, every operation within the role's ceiling, control-plane work only for control-plane admins |
| AuthorizationGuarantees.RoleCoversUpToItsCeiling | internal/authorization/policy.go:284-304 | a role covers plan actions exactly up to one risk rank |
| AuthorizationGuarantees.PreauthorizedMeansRoutine | internal/authorization/policy.go:228-238 | a policy principal, executing only listed routine operations on the requested target |
| AuthorizationGuarantees.AllowedPlanIsCurrent | internal/authorization/policy.go:126-140 | the plan is bound to the current revision and epoch, or is the one recovery cutover step |
| AuthorizationGuarantees.DecisionsAreRecordable | internal/authorization/repository.go:31-54 | every decision, allow or deny, passes the recorder's checks of it |
| AuthorizationGuarantees.GrantOrderMattersExactly | internal/authorization/policy.go:207-226 | of the evaluator alone: an allow survives every grant order exactly when all matching roles suffice |
| AuthorizationGuarantees.FirstGrantDecides | internal/authorization/policy.go:68-177 | a one-step execution with a grant for it listed first is allowed if the role suffices and refused as insufficient otherwise |
| AuthorizationAllows.RolesWithoutAPlan | internal/authorization/policy.go:284-304 | which roles may read and author, exactly, and that none covers an unknown action |
| AuthorizationAllows.FirstGrantDecidesPlain | internal/authorization/policy.go:68-177 | reading or authoring with a grant for it listed first is decided by its role: only a reader may not author |
| AuthorizationAllows.AllowIsCurrent | internal/authorization/policy.go:68-107 | every allow is of an accepted principal with its own active snapshot, at the revisions it was asked with |
| AuthorizationAllows.AllowIsOnItsBranch | internal/authorization/policy.go:187-205 | no policy principal on the human branch; exactly the plan's branch for plan actions, none otherwise |
| AuthorizationAllows.AllowIsOnThePlan | internal/authorization/policy.go:240-282 | when a plan is given, the target is one of its own |
| AuthorizationAllows.StalePlanIsACutover | internal/authorization/policy.go:179-185 | an allowed plan that is not current is the human execution of the one cutover step from the epoch before |
| AuthorizationAllows.CutoverIsAllowed | internal/authorization/policy.go:179-185 | such a cutover is allowed under a control-plane admin grant listed first, whatever follows |
| AuthorizationAllows.EarlyDenials | internal/authorization/policy.go:66-90 | when authentication, an unavailable or inactive policy and a stale grant revision are the reason of a refusal |
| AuthorizationAllows.AllowIsOfAGrant | internal/authorization/policy.go:155-177 | the scope is that of a listed grant for exactly this action, target and branch, at the snapshot's revisions |
| AuthorizationAllows.ScopeTextDeterminesScope | internal/authorization/effective.go:179-202 | the text behind a scope's digest determines principal, kind, role, action, target and revisions |
| AuthorizationGuarantees.ScheduledIsAllowed | internal/authorization/policy.go:228-238 | every preauthorized operation is allowed to a policy principal on the grant made for it, so such allows exist |
| StoredGrants.StoredGrantsDecideExactly | internal/store/effective_authorization.go:72 | in the store's order a request that is otherwise fine passes if and only if some matching role suffices and, for a plan action, no matching grant has the author role |
| StoredGrants.TwoGrantsDisagree | internal/store/authorization_grant_batch.go:44-49 | an author grant for execution that a batch may carry is listed first and refuses what the control-plane admin grant alone allows |
| OwnerFanOut.Application.AuthorizePrincipal | internal/api/authorization.go:99-149 | ends; succeeds only on a recorded allow or on all owners in turn; returns the scope of a recorded allow, or of the first owner when all owners allow at one revision; a denial without owners is recorded and refused |
| OwnerFanOut.Application.AskOwners | internal/api/authorization.go:110-130 | one to 64 owners, each grounded, at the revisions of the first; all allowing, it returns the first one's scope |
| OwnerFanOut.Application.RecordDecision | internal/api/authorization.go:162-196 | a decision is recorded exactly when it is well formed and the recorder takes it |
| OwnerFanOut.LeavesAgree | internal/api/authorization.go:110-130 | everything a success rests on is a recorded allow of this principal at one state, epoch and grant revision |
| OwnerFanOut.LeavesAreForTheAction | internal/authorization/effective.go:235-240 | owners are asked for the requested action, except for reading on a host owned by its reading, and every allow carries a scope of its own |
| OwnerFanOut.NavigationIsInert | internal/authorization/effective.go:219-232 | exactly eight ways of reading or authoring fall back to owners |

## Left out

- HTTP handlers, command-line entry points, the web interface, Ansible content, sockets, descriptors, ownership and systemd calls: effects without logic of their own.
- `internal/server/operations.go:76` submits scheduled runs without the lane; `RunLane` models the API path. The same lane protocol in `internal/run/engine.go` is not modelled a second time.
- URL parsing and the recognition of loopback addresses are those of the library: `OffsiteCopy` takes their results as fields of the configuration.
- `AuditRecovery` follows one database; a restored candidate is an earlier state of it. The checkpoint, backup and former-writer checks of the canary are left open: it may stop at any of them.
- RunLane takes the two guarded critical sections of `lockRunSubmit` as single steps.
- The back-filling of links for events older than the chain (`internal/store/audit_chain.go:74-148`): histories start with the chain in `AuditWriter`.
- Acknowledgement requests for several plans: the model follows one plan, and plans share nothing. Denial audit events and message receipts are not modelled.
- Host-specific resource ids of an operation (`internal/authorization/workflow_targets.go`) and the decoding of a receive action's input are fields of the plan.
- Whether the recovery continuation is reachable through the restore endpoint is not claimed.
- CustodyJournal.OneTruthfulEntryPerClose: follows one session; sessions share only the journal, which is keyed by session. Two closes at the same time and a crash of the launching process are not modelled.
- SshFrames.ReceiveRequest: reads a complete input; buffering is that of the library. Responses are left out, as they repeat the same framing.
- Cursors.IssuedTokenIsAccepted: says nothing about tokens that were not issued, as forging needs a claim about HMAC.
- OwnerFanOut.Application.AuthorizePrincipal: asks that owners of a recovery point that are recovery points themselves have a smaller rank; the store's resolver returns none.
- `SelectLocalRetirement` proposes the points outside the keep-within window that are neither last-good nor locked; `SelectOffsiteRetirement` proposes one generation that follows such a decision. Both only propose.
- `AdmitOffsitePoint` checks that a point is current, verified and critical and that its digests and totals agree, and it returns what the source reports, unchanged.
- The identity of an external executor (`internal/authorization/effective.go:114-151`) compares the evidence digests of a claim with those of the plan, field by field; the plan service and the run engine build and execute the plans that the authorization and acknowledgement models take as given.
