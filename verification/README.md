# Verification model of CMS-HA-Infrastructure

This project models the parts of the deployment tool that hold state, race, rewrite files
in place or define one thing twice, and proves what they keep. It is Dafny 4.11;
`dafny verify dfyconfig.toml` checks all of it.

| component | files | what is modelled |
|---|---|---|
| Secrets and keys | `Secrets`, `SecretsLoad`, `YamlTree`, `AtomicFile`, `KeyFiles`, `KeyClaim` | the in-place encryption of a YAML tree and the detector beside it, the load that encrypts first, the claim of `age.key` by any number of processes, the migration of `private.key`, the replacement of a file through a temporary one |
| Connections | `PoolSpec`, `PoolSafety`, `SshPool`, `Parallel`, `HostKeys`, `KnownHosts`, `Shell`, `RemoteCommands` | the client pool under every interleaving, the bounded fan-out, trust on first use, pruning of `known_hosts`, quoting against the shell's own tokenizer |
| Deployment | `DeploySpec`, `DeploySafety`, `DeployExit`, `DeployRun`, `PhaseNames` | exits and checkpoints of a run, histories of runs with failures, cancelled waits, failed saves and crashes; phase keys |
| Text rewrites | `NatRules`, `WpConfig` | the NAT table injection and the password in `wp-config.php` |
| Agreeing definitions | `DnsNames`, `Topology`, `Retry` | two DNS recognisers, two node lists, the backoff loop and its closed form |

Conventions. Concurrency is a step machine whose schedules are arbitrary; what a call into
the file system, the network or a remote host gives is an arbitrary outcome. Objects that the
Go code changes in place are classes whose methods are proved against a function of the old
state, and the theorems are about that function. `age`, base64 and the random nonce are one
abstract pair `seal`/`open` with `Secrets.Lawful` as its only law.

## Where the code departs from what it promises

For each of these a lemma gives the exact condition under which the code does what it
promises, and in most cases another one gives a run that breaks it.

- Resuming is unsafe as soon as two phases share a key, which both init-vms phases do unless
  `--skip-vm-create` is given: a resumed run then reports completion without the second one
  (`DeploySafety.SafeIffDistinct`, `DeploySafety.SharedKeyBreaks`, `DeploySafety.ActualPhaseList`).
- `--from-phase` beyond the first phase that is not recorded starts a body too early, and what it
  saves misleads a later `--resume` (`DeploySafety.FromPhaseIsSafeWhen`,
  `DeploySafety.FromPhaseOnFreshFile`, `DeploySafety.ResumeAfterSuffix`).
- The checkpoint is renamed into place without a sync: it survives the death of the process and not
  always that of the machine (`AtomicFile.OldOrWholeNew`, `AtomicFile.SurvivesIffSynced`).
- The detector looks below a secret key and the encrypter does not
  (`Secrets.DetectorAgrees`, `Secrets.DetectorNeedNotAgree`); neither follows an alias
  (`SecretsLoad.OnlyAliasesEscape`, `SecretsLoad.AliasedSecretStays`).
- New plaintext is encrypted under the primary key although older fields may need the legacy one;
  such a file can no longer be loaded (`SecretsLoad.FirstLoad`, `SecretsLoad.MixedIdentitiesLockOut`).
- A process that dies between creating and writing `age.key` blocks every later one
  (`KeyClaim.AbandonedClaimBlocksEveryone`, `KeyClaim.NewcomerReturnsUnlessTorn`), and two
  migrations at once can lose a key exactly when `private.key` is its only copy and the target does
  not exist yet (`KeyFiles.ConcurrentMigrationCanLoseTheKey`).
- A dial that finishes after `Close` is filed and stays open (`PoolSafety.CloseIsCompleteIffQuiet`,
  `PoolSafety.DialAfterCloseLeaks`).
- A pin is stored under the remote address and a failed reload is ignored
  (`HostKeys.FirstContactPins`); a key that was refused because its pin line was written and then
  reported as failed is accepted later (`HostKeys.RefusedKeyReturns`, `HostKeys.TwoKeysAreAccepted`);
  pruning does not reset a loaded verifier (`HostKeys.PruneNeedsAFreshVerifier`).
- Pruning never removes a line with a `@cert-authority` or `@revoked` marker, although the code
  strips these markers (`KnownHosts.MarkedLinesStay`, `KnownHosts.RemovedWhen`).
- A password with `);` or a carriage return breaks the check after the write
  (`WpConfig.CheckAfterWrite`, `WpConfig.WriteTwice`).
- If the last command of the NAT script fails, the new file stays although the message says it
  was restored (`NatRules.Router.Inject`).
- A negative base octet is read in two ways (`Topology.RangeCheckIsExact`,
  `Topology.OnlyOneRangeSlips`); only the inventory falls back to the main address
  (`Topology.SameTopology`); the list of the main network gives the jumpstart its internal
  address beside its main MAC (`Topology.JumpstartOnMain`).
- The backoff loop overflows for ceilings above 2^62 ns in some cases (`Retry.BackoffIsClosed`).

## Model

| member | source | states |
|---|---|---|
| KeyFiles.MigrationLosesNothing | internal/config/secrets.go:413-453 | at every crash point of a migration, torn writes included, every key held before is still held in one of the three files and no existing file is replaced |
| KeyFiles.MigrationOutcome | internal/config/secrets.go:425-453 | a finished migration leaves the project key in the chosen target and nothing in its old place |
| KeyFiles.MigratesWhen | internal/config/secrets.go:413-453 | a migration must refuse if and only if private.key has no key that parses or both other files hold different keys; otherwise the key goes to the first of them that is free or holds it already, and no other file changes |
| KeyFiles.ConcurrentMigrationCanLoseTheKey | internal/config/secrets.go:413-453 | for any files: two overlapping migrations have a run that ends without a key held before if and only if private.key is the only copy of its key, parses, is not blank, and its target does not exist yet |
| KeyFiles.SafeMigrations | internal/config/secrets.go:413-453 | in every other case each state of two overlapping migrations still holds every key |
| KeyFiles.PairInvHolds | internal/config/secrets.go:421-453 | under every interleaving of two migrations old files keep their text, new ones hold a beginning of the project key, and private.key goes only when a target exists |
| KeyFiles.KeyDirectory.StoreKey | internal/config/secrets.go:445-447 | the key is written in arbitrary pieces and each moment is a step of the migration |
| KeyFiles.KeyDirectory.MigrateLegacyIdentity | internal/config/secrets.go:413-453 | the code takes only steps of the migration, loses nothing whether it succeeds or fails, and when no file operation fails it succeeds exactly when it need not refuse, with the specified outcome |
| KeyFiles.KeyDirectory.MigrateFrom | internal/config/secrets.go:421-437 | each return, error or not, ends a run of single file operations; without a failing one it refuses only as specified |
| KeyFiles.KeyDirectory.MoveTo | internal/config/secrets.go:439-453 | an existing target with another key is refused; otherwise the key is stored and private.key removed, by steps of the migration |
| KeyFiles.KeyDirectory.RemoveSource | internal/config/secrets.go:449-453 | the last step: a failure to secure the new file or to remove the old one leaves both |
| KeyClaim.AllAgree | internal/config/secrets.go:330-411 | all processes that return, at any time in any schedule, return the same recipient, that of the identity in age.key |
| KeyClaim.WrittenStays | internal/config/secrets.go:379-404 | an identity in age.key never changes and the file never disappears |
| KeyClaim.PublishedMatches | internal/config/secrets.go:357-363 | age.pub only ever holds the recipient of the identity in age.key |
| KeyClaim.AbandonedClaimBlocksEveryone | internal/config/secrets.go:382-389 | once the owner of an empty age.key is gone, no process ever returns |
| KeyClaim.NewcomerFailsWhileTorn | internal/config/secrets.go:352-356 | alone with an age.key that does not parse, a new process cannot return |
| KeyClaim.NewcomerReturnsUnlessTorn | internal/config/secrets.go:330-411 | in every other reachable state a new process can return by its own steps |
| KeyClaim.SharedKey.EnsureAgeKeyPair | internal/config/secrets.go:330-411 | among arbitrary steps of the others, the code moves only as the protocol allows, stops returned or refused, and returns the recipient of the identity in age.key; an identity that was there stays; when no file operation fails it refuses only an age.key that does not parse, and alone on a fresh machine it leaves the new key and its recipient in the two files |
| KeyClaim.SharedKey.UseExisting | internal/config/secrets.go:352-370 | an existing identity is used; age.pub is written only when missing and otherwise kept |
| KeyClaim.SharedKey.CreateNew | internal/config/secrets.go:376-406 | the exclusive create decides who fills the file; a loser adopts what it finds and refuses only what does not parse |
| KeyClaim.SharedKey.FillKey | internal/config/secrets.go:384-391 | a failed write leaves the file torn, a failed close may leave it whole |
| KeyClaim.SharedKey.WritePub | internal/config/secrets.go:407-410 | publishing the recipient, which may fail half-way |
| Secrets.Envelope | internal/config/secrets.go:16-32 | a sealed value is recognised as encrypted, gives its body back and is not blank |
| Secrets.OnlySecretsChange | internal/config/secrets.go:124-159 | encrypting keeps every node of the tree, and changes exactly the scalars directly under secret keys |
| Secrets.DetectorAgrees | internal/config/secrets.go:294-319 | after encrypting, the detector reports plaintext if and only if some lay below a secret key that held no scalar |
| Secrets.DetectorNeedNotAgree | internal/config/secrets.go:302-309 | there is a document that stays reported after every encryption of it |
| Secrets.EncryptedIsFixed | internal/config/secrets.go:183-191 | where the detector finds nothing the encrypter changes nothing |
| SecretsLoad.DecryptAll | internal/config/config.go:512-538 | the decrypt loop succeeds exactly when each field decrypts, and gives the fields in order |
| SecretsLoad.DecryptFields | internal/config/config.go:529-538 | the loop over the fields in place does what DecryptAll says, with the first error |
| SecretsLoad.FirstError | internal/config/config.go:533-536 | the error of the first field that fails is the one returned |
| SecretsLoad.EnsureKey | internal/config/secrets.go:330-411 | the primary identity is the one age.key parses to, and an existing age.key stays; EnsureKeyUses says which key that is |
| SecretsLoad.EnsureKeyUses | internal/config/secrets.go:341-372 | the identity is that of age.key, or of private.key, which then has moved to age.key, and only without both a new one; an error occurs exactly when that text does not parse; no other file changes |
| SecretsLoad.SecretNames | internal/config/secrets.go:321-328 | the encrypter seals exactly the names of the six fields that the loader decrypts |
| SecretsLoad.FieldIs | internal/config/config.go:512-529 | a field is the text under its key in the first section of its name, and empty where there is none |
| SecretsLoad.SealedReadsBack | internal/config/secrets.go:34-120 | a field reads back after encryption exactly when it was readable, with the same meaning, and is no longer plaintext |
| SecretsLoad.FieldAfterEncrypt | internal/config/secrets.go:124-191 | each of the six fields is found again after encryption, with its sealed value |
| SecretsLoad.FirstLoad | internal/config/secrets.go:284-292 | the load after encrypting succeeds if and only if each field is readable under the primary identity, and returns the original secrets |
| SecretsLoad.FirstLoadUses | internal/config/secrets.go:284-292 | the same in terms of the files: which identity decides, where its key is afterwards, and that the load changes nothing when that key does not parse |
| SecretsLoad.ProjectKeyLoad | internal/config/secrets.go:341-350 | with only private.key, fields sealed for it and new plaintext are returned together if and only if each is readable under it, and the key is in age.key afterwards |
| SecretsLoad.EncryptTwice | internal/config/secrets.go:162-230 | encrypting an encrypted document changes nothing |
| SecretsLoad.CleanLoadSettles | internal/config/secrets.go:245-282 | a load without plaintext, with its migration, is not repeated by the next one |
| SecretsLoad.LoadsWhen | internal/config/config.go:509-540 | a key file loads a document if and only if no field is sealed or the file parses and decrypts each field |
| SecretsLoad.SealedLoadWhen | internal/config/secrets.go:245-282 | without plaintext, a document with ciphertext loads if and only if age.key or legacy.age.key opens it, or private.key does and may be moved; it gives what that key file gives |
| SecretsLoad.UnsealedLoadWhen | internal/config/secrets.go:246-260 | a document without any ciphertext loads as it is, unless only private.key is there and does not parse |
| SecretsLoad.CleanLoadMoves | internal/config/secrets.go:250-280 | private.key is moved exactly when it stands in for a missing age.key or alone opens the document, and may be moved; otherwise no file changes |
| SecretsLoad.SecondLoadIsStable | internal/config/secrets.go:235-292 | after a successful load a second one leaves config and keys unchanged and returns the same secrets |
| SecretsLoad.LoadLockedOut | internal/config/secrets.go:261-281 | when each identity fails on some field, no key file helps and nothing is changed |
| SecretsLoad.MixedIdentitiesLockOut | internal/config/secrets.go:284-291 | encrypting under the primary key beside fields of the legacy one makes this and every next load fail |
| SecretsLoad.OnlyAliasesEscape | internal/config/secrets.go:294-319 | when nothing is reported a secret field stands in plaintext if and only if its value is an alias of a plaintext scalar, also in a section that is itself an alias |
| SecretsLoad.AliasedSecretStays | internal/config/secrets.go:245-282 | for every secret there is such a document, and loading leaves it as it is |
| YamlTree.EncryptScalar | internal/config/secrets.go:183-191 | the closure seals plaintext and returns blank or encrypted text as it is |
| YamlTree.ProcessNode | internal/config/secrets.go:124-159 | on linked nodes changed in place, success means the tree is an encryption of the old one, and only age can fail |
| YamlTree.ProcessMapping | internal/config/secrets.go:126-144 | each entry of a mapping is sealed or walked, the keys stay |
| YamlTree.ProcessList | internal/config/secrets.go:145-156 | each child of a sequence or document is walked |
| YamlTree.ProcessSecret | internal/config/secrets.go:131-138 | the entry under a secret key is sealed and the other entries stay |
| YamlTree.SealNode | internal/config/secrets.go:132-137 | under a secret key a scalar is overwritten with its sealed form and anything else is left alone |
| YamlTree.ConfigFile.EncryptConfig | internal/config/secrets.go:162-230 | the file becomes the encrypted document, certainly when neither age nor the file system fails, or stays as it was; each moment in between is one of the recorded run |
| YamlTree.Encode | internal/config/secrets.go:196-201 | encoding the linked nodes gives the document they stand for |
| YamlTree.ConfigFile.Replace | internal/config/secrets.go:203-227 | open, write, sync, close and rename are the steps of a careful replacement, whichever of them fails |
| AtomicFile.OldOrWholeNew | internal/config/secrets.go:203-227 | wherever a replacement fails or its process dies, the file is the whole new one if the rename has happened and otherwise the old one |
| AtomicFile.SurvivesIffSynced | internal/config/secrets.go:213-218 | after a loss of power at any moment the old or the whole new file is found, if and only if the writer syncs or has not renamed yet |
| PhaseNames.KeyIsJoinedWords | internal/deploy/state.go:94-101 | a key is the lower-case alphanumeric runs of the name joined by single dashes |
| PhaseNames.WhichCharactersCount | internal/deploy/state.go:94-101 | besides digits and letters of either case only the Kelvin sign and the dotted capital I count |
| PhaseNames.SameKeyIffSameWords | internal/deploy/state.go:94-101 | two names share a key exactly when their runs agree |
| PhaseNames.KeyIsIdempotent | internal/deploy/state.go:94-101 | the key of a key is the key |
| PhaseNames.KeyStartsWithName | internal/deploy/state.go:94-101 | a key starts with the first characters of the name, lower case |
| DeploySafety.SafeIffDistinct | internal/deploy/orchestrator.go:52-147 | over all histories of fresh and resumed runs, a body starts only after all earlier phases succeeded and every saved checkpoint is honest, if and only if no two phases share a key; and some history ends with a saved "completed" although a phase has not succeeded if and only if two do |
| DeploySafety.FreshRunIsSafe | internal/deploy/orchestrator.go:52-147 | a fresh run is safe for every list of phases, shared keys included: only resuming is not |
| DeploySafety.CheckpointIsHonest | internal/deploy/state.go:54-92 | the keys on disk are a prefix of the list, and "completed" means that every phase succeeded |
| DeploySafety.SharedKeyBreaks | internal/deploy/orchestrator.go:102-106 | for any two phases with one key there is a history whose last run resumes, saves "completed" and has not run the later phase with success |
| DeploySafety.ActualPhaseList | internal/deploy/orchestrator.go:52-176 | with the repository's own list every history of fresh and resumed runs is safe if and only if --skip-vm-create is given |
| DeploySafety.LoopGood | internal/deploy/orchestrator.go:94-143 | the phase loop keeps the log safe from any honest checkpoint, wherever it is cut |
| DeploySafety.RunGood | internal/deploy/orchestrator.go:52-147 | one run, fresh or resumed, keeps what is on disk honest |
| DeploySafety.FreshRunUntil | internal/deploy/orchestrator.go:108-125 | a run that fails in phase j records exactly the keys of the phases before it and not its success |
| DeploySafety.ResumeSkipping | internal/deploy/orchestrator.go:102-143 | a resumed run that skips a phase that never succeeded ends with "completed" saved |
| DeploySafety.FromPhaseFindsIt | internal/deploy/state.go:135-148 | a phase is found by its display name or by its key |
| DeploySafety.FromPhaseRunsSuffix | internal/deploy/state.go:135-148 | --from-phase skips exactly the phases whose key occurs before the named one: with distinct keys, the suffix runs |
| DeploySafety.FromPhaseIsSafeWhen | internal/deploy/orchestrator.go:68-106 | with distinct keys and after any safe history whose checkpoint is in order, a run from phase number i on is safe, whatever happens in it, if and only if i is at most the number of recorded keys |
| DeploySafety.FromPhaseOnFreshFile | internal/deploy/orchestrator.go:52-147 | with distinct keys and no checkpoint such a run saves "completed" with only the keys from the named phase on, and the earlier phases have not run |
| DeploySafety.ResumeAfterSuffix | internal/deploy/state.go:125-133 | a later --resume then skips exactly the phases from the named one on |
| DeployRun.State.Load | internal/deploy/state.go:36-52 | a missing file is a fresh checkpoint, otherwise the saved one |
| DeployRun.State.HasCompleted | internal/deploy/state.go:75-82 | membership in the recorded keys |
| DeployRun.State.Save | internal/deploy/state.go:56-71 | for each outcome the file holds the whole new checkpoint or the whole old one, as the recorded file operations leave it |
| DeployRun.StateFile.WriteAndRename | internal/deploy/state.go:63-69 | the temporary file is written and renamed step by step; the rename is reached exactly for the outcomes that commit |
| DeployRun.State.MarkCompleted | internal/deploy/state.go:85-92 | a key is recorded once, the status is running again, and the checkpoint is saved |
| DeployRun.BuildPhaseList | internal/deploy/orchestrator.go:150-176 | two phases of the list share a key if and only if VMs are created, and then only numbers 0 and 3 |
| DeploySafety.PhaseListRepeats | internal/deploy/orchestrator.go:150-176 | the same of the specified list, for any two positions |
| DeployRun.PlanRun | internal/deploy/state.go:119-153 | which keys are skipped and whether the checkpoint is reset, with all error cases |
| DeployRun.Deploy | internal/deploy/orchestrator.go:52-147 | for every outcome of every call, the events and the exit are those of the specified run, of which DeployExit says what they mean |
| DeployRun.RunPhases | internal/deploy/orchestrator.go:94-146 | the loop with its saves, failures, cancelled waits and crashes |
| DeployExit.RunFinishesWhen | internal/deploy/orchestrator.go:52-147 | a run that is not dry reports success if and only if the checkpoint is read, the host checked, the options fit, the first save is committed, every phase that is not skipped succeeds, no wait is cancelled and nothing kills the process; a dry run only checks its options |
| DeployExit.FinishedMeansDone | internal/deploy/orchestrator.go:94-146 | a run that reports success has brought every phase that its options do not skip to success, and every body it started succeeded |
| DeployExit.RunEndsIn | internal/deploy/orchestrator.go:108-136 | the first phase that is neither skipped nor goes on ends the run, with an error unless the process dies; the checkpoint then says failed with its message, or running, and records exactly the keys that ran |
| DeployExit.FinishedMeansCompleted | internal/deploy/orchestrator.go:138-146 | after success the last save, if it reaches the file, says completed with the keys recorded before and those of all phases that ran |
| DeployExit.NothingStarts | internal/deploy/orchestrator.go:52-92 | a run that does not reach its phases starts none, fails, and replaces the checkpoint only by its first save |
| DeployExit.PlanWhen | internal/deploy/state.go:119-153 | the options are refused if and only if they exclude each other or name no phase; a phase is skipped if and only if its key is recorded or occurs before the named phase |
| PoolSafety.ExactlyOnePlace | internal/ssh/client.go:256-310 | under every interleaving each dialed connection is in flight, pooled under its own host, evicted or closed once, and in only one of these |
| PoolSafety.HandedStayOpen | internal/ssh/client.go:264-290 | no connection given to a caller is closed before Close, and it leads to the host asked for |
| PoolSafety.CloseIsCompleteIffQuiet | internal/ssh/client.go:810-823 | Close closes every connection exactly once if and only if no goroutine holds a dialed one that is not filed |
| PoolSafety.OnlyLateDialsSurvive | internal/ssh/client.go:281-288 | what is open after Close was being filed at that moment or was dialed afterwards |
| PoolSafety.DialAfterCloseLeaks | internal/ssh/client.go:281-288 | a run in which a dial that ends after Close stays pooled and open |
| PoolSafety.NextKeepsInv | internal/ssh/client.go:256-310 | every step of any goroutine, eviction or Close keeps the assignment of one place to each connection |
| PoolSafety.PooledIsNotDialed | internal/ssh/client.go:266-271 | no goroutine begins to dial a host with a pooled client; it is handed that one |
| SshPool.Pool.FindClient | internal/ssh/client.go:257-271 | the first critical section: the key is read on first use, the pooled client is looked up |
| SshPool.Pool.AddClient | internal/ssh/client.go:281-290 | the second critical section files the connection unless another one is there, and says which |
| SshPool.Pool.GetClient | internal/ssh/client.go:256-291 | a pooled connection is returned without dialing; otherwise the one met in the pool after dialing wins and the caller's own is closed once, or the caller's own is filed and returned; a failed dial leaves the pool as met |
| SshPool.Pool.InvalidateClient | internal/ssh/client.go:300-310 | the connection moves from the pool to the evicted ones and is not closed |
| SshPool.Pool.Close | internal/ssh/client.go:810-823 | pooled and evicted connections are closed once each and both collections emptied |
| SshPool.Pool.CloseClients | internal/ssh/client.go:814-818 | the loop over the pool closes each of its connections once |
| SshPool.Pool.CloseEvicted | internal/ssh/client.go:819-822 | the loop over the evicted ones closes each of them once |
| Parallel.BoundedParallelism | internal/ssh/parallel.go:16-45 | under every schedule at most min(n, 16) commands are in flight |
| Parallel.BoundIsReached | internal/ssh/parallel.go:16-45 | a schedule in which 16 commands, or all if there are fewer hosts, are in flight at once |
| Parallel.SomeoneCanMove | internal/ssh/parallel.go:34-65 | some goroutine can step if and only if not all are done |
| Parallel.SchedulesEnd | internal/ssh/parallel.go:42-64 | every schedule has at most three steps per host |
| Parallel.ResultsAreSequential | internal/ssh/parallel.go:34-98 | the final results are those of the sequential map, duplicates included; RunParallelFunc has them in some order |
| Parallel.StepKeeps | internal/ssh/parallel.go:42-61 | each step keeps the slots, the bound and the appended results, and uses up work |
| HostKeys.HostTrust.VerifyHostKey | internal/ssh/client.go:173-197 | the object's file, verifier and answer after a call are the specified ones, for every disk outcome |
| HostKeys.HostTrust.LoadKnownHosts | internal/ssh/client.go:201-216 | no store or no file means every host is unknown; a failed load is an error |
| HostKeys.HostTrust.TrustHostKey | internal/ssh/client.go:221-253 | the pin goes under the remote address; a failed reload is ignored |
| HostKeys.PinsOnlyGrow | internal/ssh/client.go:221-253 | over any calls pins are appended and never lost, changed or reordered, and a loaded verifier stays loaded |
| HostKeys.StoreDecides | internal/ssh/client.go:173-253 | with a store a key is accepted if and only if the verifier can be loaded and knows it for the host, or knows none and the pin is written; what is in the file and the verifier afterwards |
| HostKeys.NoStoreTrustsAll | internal/ssh/client.go:201-204 | without a store every call of every run is accepted and nothing is remembered |
| HostKeys.StaysInSync | internal/ssh/client.go:173-253 | the verifier always decides for a host as the file does, and the host keeps at most one key; hypotheses on the calls for this host only: dialed by address, a written pin reloads, and no pin line reaches the file while its write or close reports failure |
| HostKeys.AcceptedKeysAgree | internal/ssh/client.go:173-253 | over any run all keys accepted for a host pinned at most once are equal, under the hypotheses of StaysInSync |
| HostKeys.FirstContactDecides | internal/ssh/client.go:173-197 | once a key was accepted for a host, exactly that key is accepted, under the hypotheses of StaysInSync |
| HostKeys.FirstContactPins | internal/ssh/client.go:221-247 | after first contact another key is refused if and only if the pin went under the dialed name and the reload succeeded |
| HostKeys.RefusedKeyReturns | internal/ssh/client.go:236-247 | a key refused at first contact is accepted after another key was pinned if and only if its line had reached the file although the call failed |
| HostKeys.TwoKeysAreAccepted | internal/ssh/client.go:236-247 | a run from an empty store in which that lets two different keys of a host be accepted |
| HostKeys.PrunedStore | internal/phases/repairssh/repair.go:90-146 | a verifier loaded from the pruned text reports exactly the removed addresses, and those unknown before, as first contact |
| HostKeys.PruneNeedsAFreshVerifier | internal/phases/repairssh/repair.go:38-41 | after pruning, a changed key is accepted exactly when the Pool had not loaded its verifier |
| KnownHosts.HostMatchesIP | internal/phases/repairssh/repair.go:129-146 | the loop over the host names of a line |
| KnownHosts.KeepLines | internal/phases/repairssh/repair.go:99-124 | the loop keeps exactly the specified lines, in order |
| KnownHosts.RemovedWhen | internal/phases/repairssh/repair.go:99-146 | a line goes if and only if it is neither blank nor a comment and its first field lists a given address, as it is or in brackets before a port |
| KnownHosts.MarkedLinesStay | internal/phases/repairssh/repair.go:129-131 | a line with a @cert-authority or @revoked marker always stays: the marker is its first field |
| KnownHosts.StoreFile.RemoveHosts | internal/phases/repairssh/repair.go:90-127 | success exactly when the file can be read and, unless it is absent, written; it becomes its pruned text; a failed write leaves the old text or a beginning of the new one |
| KnownHosts.PruneIsIdempotent | internal/phases/repairssh/repair.go:90-127 | pruning twice is pruning once, byte for byte, for every text |
| KnownHosts.MatchesNormalized | internal/phases/repairssh/repair.go:129-146 | a stored pin matches an address exactly when it is of that host, except one bracketed without a port |
| KnownHosts.PruneRemovesPins | internal/phases/repairssh/repair.go:98-126 | pruning the text of a store gives the text of the store without the removed pins, in order and newline-terminated |
| KnownHosts.WithoutMembers | internal/phases/repairssh/repair.go:99-124 | exactly the pins of the listed addresses are gone |
| KnownHosts.RenderAppend | internal/ssh/client.go:226-244 | appending the line of a pin to the text of a store is appending the pin |
| KnownHosts.NormalizeIsInjective | internal/ssh/client.go:226-227 | different addresses are written differently |
| KnownHosts.TextDeterminesPins | internal/ssh/client.go:226-235 | the text of a store determines its pins |
| KnownHosts.PruneUndoesAppend | internal/phases/repairssh/repair.go:90-127 | pruning the address of a pin just appended for a new host restores the store if and only if its line names the address |
| Shell.RunConcat | internal/ssh/client.go:144-146 | the shell reads concatenated text piece by piece |
| Shell.QuoteAddsText | internal/ssh/client.go:144-146 | quoted text adds exactly itself to the word being read, wherever it stands |
| Shell.QuoteIsOneWord | internal/ssh/client.go:142-146 | for every string, its quoted form is one word equal to it |
| Shell.ScriptReads | internal/ssh/client.go:548-556 | a script of bare and quoted arguments is read as exactly those arguments |
| RemoteCommands.ElevatedReads | internal/ssh/client.go:131-140 | every command reaches sudo -n -H bash -c as one argument |
| RemoteCommands.ElevationIsTransparent | internal/ssh/client.go:131-140 | with or without elevation the shell reads the same words in a command |
| RemoteCommands.OctalReadsBack | internal/ssh/client.go:552 | chmod gets octal digits that read back as the mode |
| RemoteCommands.WriteScriptReads | internal/ssh/client.go:541-556 | through both shells the file-write script is read as the intended words for any paths |
| RemoteCommands.ExtractScriptReads | internal/ssh/client.go:673-676 | so is the script that extracts an archive |
| RemoteCommands.ReadCommandReads | internal/ssh/client.go:687-689 | and the command that reads a file |
| NatRules.Router.Inject | internal/phases/ufw/ufw.go:90-104 | success exactly when no command fails and the layout check passes; every other end leaves the original file if the restore works, except a failing last command |
| NatRules.Router.SedDelete | internal/phases/ufw/ufw.go:94-95 | the line loop of a range deletion |
| NatRules.Router.AwkInsert | internal/phases/ufw/ufw.go:96 | the block is printed once, before the first filter table |
| NatRules.DeleteKeepsOutside | internal/phases/ufw/ufw.go:94-95 | the deletion keeps exactly the lines that belong to no range, in order |
| NatRules.LayoutPassesWhen | internal/phases/ufw/ufw.go:98 | the check passes if and only if the file without its old ranges has one filter table and the block one nat and no filter table |
| NatRules.PassingRunLeaves | internal/phases/ufw/ufw.go:90-102 | exactly one nat table, in the block directly before the only filter table, and around it the lines outside the old ranges in order |
| NatRules.DeleteUndoesInsert | internal/phases/ufw/ufw.go:94-96 | the first deletion takes the inserted block out again and nothing else |
| NatRules.SecondRunIsIdentity | internal/phases/ufw/ufw.go:94-97 | for a block that starts at its marker and has its only COMMIT last, a second run changes nothing, whatever the file was |
| NatRules.TemplateIsBlock | templates/ufw/nat-rules:1-18 | the shipped template is such a block, with one nat table and no filter table, for every interface name and any comment texts |
| NatRules.TemplateFits | templates/ufw/nat-rules:1-18 | with it a run passes exactly when one filter table is left outside the old ranges, and a second run changes nothing |
| WpConfig.PhpReadsBack | puppet/modules/role/files/cms-ha/configure-wordpress.py:21-22 | by PHP's rules the written literal is the password, for every password |
| WpConfig.EscapeIsTwoReplaces | puppet/modules/role/files/cms-ha/configure-wordpress.py:21-22 | the two replacements in order escape character by character |
| WpConfig.FindIsFirstMatch | puppet/modules/role/files/cms-ha/configure-wordpress.py:29-33 | the search gives the leftmost shortest match of the pattern, and nothing exactly when there is none |
| WpConfig.HeaderIsPattern | puppet/modules/role/files/cms-ha/configure-wordpress.py:29 | the header is found wherever the pattern, read as a regular expression with any white space, matches, and only there |
| WpConfig.NewlinesRead | puppet/modules/role/files/cms-ha/configure-wordpress.py:27-28 | a carriage return with or without a line feed is read as a line feed |
| WpConfig.WpHost.ConfigureDb | puppet/modules/role/files/cms-ha/configure-wordpress.py:25-50 | file and exit code in write and check mode, with all failures; WriteSucceedsWhen and CheckSucceedsWhen say when the code is 0 |
| WpConfig.WriteSucceedsWhen | puppet/modules/role/files/cms-ha/configure-wordpress.py:25-50 | a working write exits with 0 if and only if file and facts can be read and the pattern occurs, and then PHP reads the password at the first definition and the rest is unchanged; otherwise the code is 1 and the file stays |
| WpConfig.CheckSucceedsWhen | puppet/modules/role/files/cms-ha/configure-wordpress.py:38-50 | check mode, and a write that fails, leave the file, and exit with 0 if and only if the first match already is what would be written |
| WpConfig.WriteKeepsWhen | puppet/modules/role/files/cms-ha/configure-wordpress.py:40-41 | in that case a write leaves the file too |
| WpConfig.WriteSetsPassword | puppet/modules/role/files/cms-ha/configure-wordpress.py:29-33 | the text outside the matched span is unchanged and PHP reads the password in its place |
| WpConfig.HeaderStaysFirst | puppet/modules/role/files/cms-ha/configure-wordpress.py:29-33 | after the rewrite the first definition is at the same place |
| WpConfig.SecondRewrite | puppet/modules/role/files/cms-ha/configure-wordpress.py:29-33 | rewriting what was rewritten and read again gives the same text, or a longer one if the password closes the pattern |
| WpConfig.CheckAfterWrite | puppet/modules/role/files/cms-ha/configure-wordpress.py:36-39 | the check succeeds right after a write if and only if the password has no `);` and no carriage return |
| WpConfig.WriteTwice | puppet/modules/role/files/cms-ha/configure-wordpress.py:38-50 | a second write leaves the file as it is if and only if the password has no `);` |
| DnsNames.FqdnSplits | internal/config/config.go:698 | the regular expression matches exactly the names all of whose labels are right |
| DnsNames.LabelMatches | internal/config/config.go:698 | its label part matches exactly 1 to 63 letters, digits and inner hyphens |
| DnsNames.ValidDNSName | internal/phases/pki/pki.go:284-302 | the hand-written test accepts exactly what the pattern matches in at most 253 characters |
| DnsNames.ValidLabel | internal/phases/pki/pki.go:289-300 | its loop over one label, with byte offsets and lengths |
| DnsNames.SanFlags | internal/phases/pki/pki.go:208-218 | the flags of all names, or the first name that is refused |
| DnsNames.ValidatedNamesPass | internal/phases/pki/pki.go:208-218 | after the configuration check a name is refused exactly when it is a DNS name of more than 253 characters other than the subject |
| DnsNames.CertificateNames | internal/config/config.go:205-216 | the names are the DNS names, the floating address and the addresses of the balancers, and no others |
| DnsNames.FlagWordsAre | internal/phases/pki/pki.go:208-218 | the words are a flag and a name for each of them, in order, that is neither empty nor the subject |
| DnsNames.FlagsAreWords | internal/phases/pki/pki.go:216-217 | the shell reads each name that passes as one word after its flag |
| Topology.PrefixOfNetwork | internal/config/config.go:794-800 | the prefix of a dotted network is its first three parts |
| Topology.PrefixOfParts | internal/config/config.go:794-800 | three parts are enough; with fewer the fallback is taken |
| Topology.HotdeskSpecs | internal/config/config.go:767-789 | the loop that generates the hotdesks |
| Topology.HotdeskIs | internal/config/config.go:773-789 | the i-th hotdesk has its number in its name, and its address and MAC end in the same octet, base + i - 1 with 201 for a base that is not positive |
| Topology.AllHotdesks | internal/config/config.go:773 | there are as many as configured |
| Topology.RangeCheckIsExact | internal/config/config.go:632-643 | what the range check admits has octets in 1..254 if and only if the base is not negative or there are at most 54 hotdesks |
| Topology.OnlyOneRangeSlips | internal/config/config.go:648-655 | with the address check as well, only a negative base with 55 hotdesks slips through |
| Topology.HotdesksDiffer | internal/config/config.go:773-786 | different hotdesks have different names, addresses and MACs |
| Topology.InternalNodes | internal/config/config.go:732-745 | the internal nodes in order |
| Topology.MainNodes | internal/config/config.go:748-763 | the main nodes in order, the jumpstart first if it has a second address |
| Topology.JumpstartOnMain | internal/config/config.go:750-754 | there the jumpstart has its MAC on the main network, but its address there only if it has no other |
| Topology.AllNodes | internal/config/config.go:818-828 | the flat list, in which the jumpstart stands once |
| Topology.Render | internal/ansible/inventory.go:61-101 | the two host maps, filled in order |
| Topology.SameTopology | internal/ansible/inventory.go:61-101 | for distinct names the maps are disjoint and hold exactly the flat list's nodes, with the same addresses if and only if no balancer or frontend relies on its main address |
| Topology.MacIsAttached | internal/ansible/inventory.go:188-202 | the flat list's MAC is one of the inventory's interfaces, with the exact exception |
| Topology.NicsAre | internal/ansible/inventory.go:188-203 | the interfaces of a node are exactly its MACs, each on its own network, or its single MAC on the primary network if it has none of them; at most one for a network |
| Topology.InternalNicsAre | internal/ansible/inventory.go:61-77 | in the rendered internal group each node has exactly these interfaces, with "internal" as primary network |
| Topology.MainNicsAre | internal/ansible/inventory.go:79-85 | in the main group likewise with "main" |
| Topology.HotdeskNicsAre | internal/ansible/inventory.go:86-101 | each hotdesk has its address and one interface, on the main network |
| Topology.FlatMacIsFirst | internal/ansible/inventory.go:188-203 | without a MAC of its own a node has in the flat list the MAC of its first interface |
| Retry.BackoffInterval | internal/retry/retry.go:27-54 | the loop with 64-bit arithmetic computes the specified wait |
| Retry.BackoffIsClosed | internal/retry/retry.go:32-41 | for every attempt the wait before jitter is min(interval * 2^(attempt-1), ceiling) if and only if the first doubling that reaches the ceiling fits 64 bits |
| Retry.NoOverflowBelow | internal/retry/retry.go:33-41 | ceilings up to 2^62 ns never overflow |
| Retry.JitterIsSmall | internal/retry/retry.go:42-53 | each wait is positive and within a tenth and a nanosecond of the closed form |
| Retry.JitterIsTheDraw | internal/retry/retry.go:42-53 | the wait is the closed form less half the spread, a fifth of it, plus the draw |
| Retry.DoContext | internal/retry/retry.go:64-102 | calls, result and total wait of every run, cancellations included: exactly one wait between two calls, and one more begun if the run is cancelled |
| Retry.DoIsDetermined | internal/retry/retry.go:64-102 | what a run meets admits one result and one number of calls |
| Retry.DoTotalWait | internal/retry/retry.go:91-98 | an uncancelled run waits once fewer than its calls: exactly that many intervals without backoff, and within a tenth of the closed forms with it |
| Retry.DoIsFirstSuccess | internal/retry/retry.go:64-102 | without cancellation these are exactly the first success among the first max(1, MaxAttempts) outcomes, or the last error |
| Retry.AllFail | internal/retry/retry.go:65-67 | when all fail there are exactly MaxAttempts calls, or one if that is not positive |
| Retry.PollContext | internal/retry/retry.go:113-154 | calls, result and total wait of polling, cancellations included, with the same waits |
| Retry.PollIsDetermined | internal/retry/retry.go:113-154 | what a poll meets admits one result and one number of calls |
| Retry.PollTotalWait | internal/retry/retry.go:140-150 | an uncancelled poll waits once fewer than its checks, as long as retrying does |
| Retry.PollIsFirstStop | internal/retry/retry.go:130-136 | polling differs only in that an error stops it at once |
| Retry.WaitIsBounded | internal/retry/retry.go:91-98 | with backoff the total wait is at most the sum of the bounds |
| Retry.WaitIsNear | internal/retry/retry.go:91-98 | and within a tenth, and a nanosecond for each wait, of the sum of the closed forms |
| Retry.WaitIsConstant | internal/retry/retry.go:28-31 | without backoff it is exactly one interval for each wait |

## Left out

- Real SSH, SFTP, tar, HTTP, libvirt, container and kubectl calls: each is an arbitrary outcome.
- The bodies of the phases: in the deployment a phase is a name and an outcome.
- YAML text: a document is its node tree; tags, styles, comments, merge keys and duplicate keys are not modelled, and the key of a mapping is its scalar text.
- SecretsLoad.FirstLoad: an alias as the value of a field or section is a decoding error here and its anchor's text in the code; only `SecretsLoad.OnlyAliasesEscape` follows aliases.
- SecretsLoad.SecondLoadIsStable: the same.
- A load whose file operations fail: `SecretsLoad.AutoLoad` is a load in which all succeed, and the failures are those of `YamlTree`, `KeyFiles` and `KeyClaim`.
- Symbolic links, file modes and directory creation around the key files and the configuration.
- `age.pub` while a configuration is loaded: only the claim of the key pair models it.
- NUM_HOTDESKS and the other fields of the configuration: decoding covers the six secret fields.
- The times and the version number in the checkpoint file, and a checkpoint that does not parse beyond "loading fails".
- The `knownhosts` library of golang.org/x/crypto: a pin is taken to match its own address only, hashed and wildcard lines are not read, and whether it brackets an IPv6 host on the default port is left open (`KnownHosts.BRACKETS_DEFAULT_PORT`).
- A pin of which only a part reaches the store: appending a line either happens or not.
- A host key offered without a remote address.
- `path.Dir` and the random name of a script file: the directory of the file-write script is any text.
- The effect of a remote script after its words are read, and shell expansions, which the tokenizer refuses.
- before.rules as bytes: files are sequences of lines, so a missing last newline is not seen.
- The interface name's discovery; the template lemmas hold for any name given as one line part.
- The mode and owner of wp-config.php, and JSON decoding of the facts.
- Which texts parse as IP addresses: a parameter of the certificate names; in the topology only that no octet above 255 does.
- The variables of a host beside its address and interfaces, and the role groups of the inventory.
- The clock in retries: a wait is its length, and a cancellation is seen at any of the points where the code looks.
- Histories in which `--skip-vm-create` or the configuration changes between runs: a history has one list of phases.
- DeployRun.State.Load: covers a file that this program wrote; a damaged one is the input `loadFails`.
- SshPool.Pool.GetClient: other goroutines run while it dials; the step between its second critical section and the close of a losing connection is that of PoolSafety.
- The DRBD watchdog, failover and fencing scripts, the CLI, logging, status output, lint and load tests: easy members or not state.
