# Kinglet: verified models

Kinglet emulates a set of Google Cloud APIs in one process. This project models the parts of it where
being wrong is easiest: a control plane whose requests interleave, key versions that are allocated while
primaries move, a router with four indexes, a circuit breaker driven by retries, and five small pieces
with a law of their own. `dafny verify dfyconfig.toml` checks everything.

## How it is laid out

**AlloyDB control plane.** `AlloyNames` holds resource names and the string lemma that keeps clusters
apart: slash-free segments and a trailing separator. `AlloyTypes` holds request checks, field masks and
row construction. `AlloySections` gives every request as a machine of single storage or data-plane calls
(clocks, ids, starts and drops are inputs); `AlloyServices` is the same in the form of the services, each
method proved to do exactly what the machine says. On the machine: `AlloyFrames` (a step reads and writes
its own cluster's subtree only), `AlloySafety` (placement and housing hold after every step),
`AlloyProtocol` and `AlloySerial` (every interleaving equals the serial run in lock order), `AlloyDryRun`
(`validateOnly`), `AlloyPatch` (what a PATCH may change), `AlloyEffects` (what a whole request comes to,
without its steps), `AlloyRequests` (what is accepted and stored of a body), `AlloyEnums` (which type a
create stores), `AlloyLike` (the prefix operator as SQLite has it).

**Cloud KMS.** `KmsVersions` holds keys, versions and the promise queues, one event-loop turn per action;
`KmsSafety` proves what every interleaving keeps; `KmsService` is the service's own form; `KmsCrypto` is
the envelope and the encrypt and decrypt paths over an abstract authenticated cipher; `KmsReach` reaches
every version number; `KmsStates` and `KmsEffects` say what state a run leaves a version in and what each
call comes to; `Base64` is the strict decoder over a lenient one.

**Gateway.** `RouterPaths` (normalisation, tokens, path keys), `RouterNormal` (what normalising keeps),
`RouterMatch` (a greedy backtracking matcher against a declarative reading), `RouterBinding` (parameters),
`RouterConflict` (which templates collide), `RouterScore` and `RouterPrecedence` (which route wins),
`RouterTrie`, `RouterIndex` and `RouterService` (four indexes updated in place), `RouterEffects` (what is
registered); `Breaker`, `Dispatch`, `DispatchLaws` and `LoadBalancer`; `AsyncBridge` for gRPC streams.

**The rest.** `Lcov`, `LcovMerge`, `LcovTotals`, `LcovOrder`, `LcovScripts` (coverage reports and the gate
that reads them); `StorageCache` (what the cache beside the tables answers) and `StorageService` (provider
and manager as written) and `StorageEffects` (what each operation writes); `Backups`; `Armor`,
`ArmorRules`, `ArmorService` and `ArmorEffects`. `Text`, `Json`, `Bytes`, `Options`, `StringOrder` and
`IntOrder` are shared.

## What the code does not keep

Each of these is a lemma with an input, beside a lemma that says exactly when the property holds.

- `createCryptoKey` takes `cryptoKeyId` from a query parameter without looking for slashes. With a key
  named beneath another key's first version, `updatePrimaryVersion` can make a primary name a version of
  the wrong key, and the last write of an allocation then does replace another primary
  (`KmsSafety.SlashesGoAstray`; exactly when: `StaleWriteHarmless`, `PrimaryNamesVersion`).
- A version id is stored in 32 bits; from 2^32 on the header names another version
  (`KmsReach.EveryNumberIsReached`, `KmsCrypto.WrappedIdIsLost`; exactly when: `VersionIdSurvives`).
- A dry run of an instance delete succeeds where the real one fails because the drop throws; nothing else
  differs (`AlloyDryRun.DryRunCanMislead`; exactly when: `DryRunMisleadsExactly`, `DryRunFaithful`).
- `instanceType: ["READ_POOL"]` passes the type check, which looks at the printed value, and is stored as
  a PRIMARY; the placement rule sees the stored type, so it still holds (`AlloyEnums.ArrayPoolIsPrimary`;
  exactly when: `StoredTypeIsAdmitted`, and `StoredUserTypeIsAdmitted` for users).
- The prefix operator of the SQL storage reads `_` as any character and ignores case, so a project with an
  underscore reaches into another one (`AlloyLike.UnderscoreReaches`; exactly when: `ReachesExactly`,
  `CoversExactly`, `ApartExactly`, `StartsWithExactly`).
- In a template that mixes `:a` and `{b}` the two parameters change places, and an unnamed wildcard in
  front shifts them all, because braces are collected before colons
  (`RouterBinding.MixedSpellingsSwap`; exactly when: `BindingIsRight`).
- `/x/{a}` and `/x/:a`, or `/**` and `/****`, match the same requests under different path keys, so the conflict check passes
  both (`RouterBinding.MixedSpellingsEscape`; exactly when: `RouterConflict.ConflictsCaughtExactly`).
- Merged function totals can depend on the order of the reports once a record claims more functions hit
  than found (`LcovTotals.OrderCanMatter`; exactly when: `LcovOrder.GateIgnoresOrderExactly`).
- A lookup in table `t` of the id `x:<uuid>`, which no record has, answers the record of table `t:x` while it
  is cached (`StorageCache.ColonsCollide`; exactly when: `WrongExactly`, `AlwaysRightExactly`,
  `TablesAreSafeExactly`).
- The stream bridge drops what is buffered when `end` fires, and an error while the consumer waits leaves
  it waiting for ever (`AsyncBridge.BufferedChunkIsLost`; exactly when: `AllYieldedExactlyIfEmpty`,
  `ErrorHangsExactlyWaiting`).
- `patchRule` moves the default rule of a security policy to another priority without complaint
  (`ArmorService.DefaultCanBeMoved`; exactly when: `DefaultsKeptExactly`).

## Model

| member | source | states |
|---|---|---|
| AlloyNames.ClusterUnique | src/services/alloydb/types.ts:274-303 | A text lies beneath at most one cluster: two cluster names, each with a trailing slash, that both begin it have equal project, location and cluster |
| AlloyNames.ParseUndoesBuild | src/services/alloydb/types.ts:278-294 | An instance name built from slash-free parts parses back to exactly those parts |
| AlloyNames.BuildUndoesParse | src/services/alloydb/types.ts:779-796 | Whatever parses as an instance name is the name built from the parts returned |
| AlloyEnums.StoredTypeIsAdmitted | src/services/alloydb/instance-service.ts:538-572 | A create stores the type its check admitted exactly unless the type came in an array and is not PRIMARY |
| AlloyEnums.StoredUserTypeIsAdmitted | src/services/alloydb/user-service.ts:252-261 | The same for users, with built-in in place of PRIMARY |
| AlloyEnums.ArrayPoolIsPrimary | src/services/alloydb/types.ts:869-896 | A read pool asked for in an array passes every check of the request, node count included, and is stored as a PRIMARY |
| AlloyLike.LikeBegins | src/core/storage/resource-repository.ts:105-160 | What a listing or deletion by prefix reaches under `LIKE`: names that begin alike up to case, `_` standing for any character |
| AlloyLike.ReachesExactly | src/core/storage/resource-repository.ts:105-160 | One cluster's prefix reaches another's instances and users under `LIKE` exactly when its project, location and cluster, read as patterns, match the other's one by one: nothing runs across a slash |
| AlloyLike.CoversExactly | src/core/storage/resource-repository.ts:105-160 | Without a `%` that is equality part by part up to case, `_` standing for any character |
| AlloyLike.ApartExactly | src/core/storage/resource-repository.ts:105-160 | A set of clusters keeps apart, whatever instances they hold, exactly when none of them covers another |
| AlloyLike.StartsWithExactly | src/core/storage/resource-repository.ts:105-160 | In every database the sections reach, the operator is starts-with for a cluster exactly when no other cluster it covers has instances |
| AlloyLike.LowerCaseIsApart | src/core/storage/resource-repository.ts:105-160 | Without upper case and wildcards the operator is starts-with |
| AlloyLike.UnderscoreReaches | src/core/storage/resource-repository.ts:105-160 | The prefix of a cluster in project a_b reaches every instance of one in project axb |
| AlloyFrames.Disjoint | src/core/storage/resource-repository.ts:105-160 | The subtrees of two clusters share no row, endpoint or operation, whatever the ids |
| AlloyFrames.StepFrame | src/core/storage/resource-repository.ts:105-160 | A step of a section depends on its own cluster's subtree only and leaves every other subtree as it was |
| AlloyFrames.CompleteFrame | src/services/alloydb/instance-service.ts:55-61 | So does a whole section run to its end |
| AlloySafety.RetypeKeepsType | src/services/alloydb/instance-service.ts:455-490 | A type the placement rule admits for an existing instance is the type it already has |
| AlloySafety.InsertKeepsPlaced | src/services/alloydb/instance-service.ts:455-490 | Inserting a new instance keeps one PRIMARY at most and read pools beside it exactly when the placement check passes |
| AlloySafety.RemoveKeepsPlaced | src/services/alloydb/instance-service.ts:498-521 | Removing an instance keeps the rule exactly when it is not the PRIMARY of remaining read pools |
| AlloySafety.StepOk | src/services/alloydb/cluster-service.ts:281-322 | From any program point a section can reach, one step keeps placement and housing and reaches a program point whose facts hold |
| AlloyProtocol.Exclusive | src/services/alloydb/instance-service.ts:86-102 | Two requests inside their sections hold different clusters |
| AlloyProtocol.RunDisciplined | src/services/alloydb/cluster-service.ts:249-328 | After every prefix of every schedule, the invariant and every running request's own facts hold |
| AlloySerial.Simulates | src/services/alloydb/instance-service.ts:55-61 | At every point of every schedule each cluster's subtree heads for what the serial run in lock order has there, and so does every answer |
| AlloySerial.Serializable | src/services/alloydb/instance-service.ts:104-184 | Once nobody is inside a section, tables, operations and endpoints equal those of the same requests run one at a time in lock order, and each request has answered as it does there |
| AlloySerial.SafeThroughout | src/services/alloydb/instance-service.ts:455-521 | At every point of every schedule, mid-cascade and mid-rollback too, a cluster has one PRIMARY at most, read pools only beside it, and no instance or user without its cluster |
| AlloySerial.SafeFromEmpty | src/services/alloydb/instance-service.ts:455-521 | So it is from an empty database, whatever the requests and however they interleave |
| AlloyDryRun.DryRunFaithful | src/services/alloydb/cluster-service.ts:330-386 | `validateOnly` changes nothing and is answered as the real call would be, exactly unless a real instance delete reaches a drop that throws |
| AlloyDryRun.DryRunMisleadsExactly | src/services/alloydb/instance-service.ts:338-368 | Where the dry call succeeds, the real one fails exactly when it is a delete whose drop throws, and then with an internal error |
| AlloyDryRun.DryRunCanMislead | src/services/alloydb/instance-service.ts:338-368 | The delete of a lone PRIMARY whose drop throws is accepted dry and an internal error real, and neither changes anything |
| AlloyDryRun.DryRunFaithfulWhenReached | src/services/alloydb/instance-service.ts:338-368 | The same for every state any schedule reaches |
| AlloyDryRun.TypesNeverChange | src/services/alloydb/instance-service.ts:267-322 | No step of any schedule changes the type of an instance that stays |
| AlloyEffects.SectionDoes | src/services/alloydb/instance-service.ts:104-368 | What any request comes to, database before and after, on any database: every refusal with its error and nothing changed, every row, endpoint and operation added, changed or removed, and the answer |
| AlloyEffects.CreateInstanceDoes | src/services/alloydb/instance-service.ts:104-183 | A create whose start succeeds adds exactly its row and endpoint and one operation; one whose start fails adds a failed operation only and leaves nothing listening |
| AlloyEffects.UpdateInstanceDoes | src/services/alloydb/instance-service.ts:267-322 | A PATCH changes the one row: its type if one is given and may stand there, its spec and time, and nothing it does not name |
| AlloyEffects.DeleteInstanceDoes | src/services/alloydb/instance-service.ts:338-368 | A delete takes row and endpoint; refused for a PRIMARY with read pools; a drop that throws leaves the row |
| AlloyEffects.CreateClusterDoes | src/services/alloydb/cluster-service.ts:136-170 | A new cluster with its built-in initial user and one operation |
| AlloyEffects.DeleteClusterDoes | src/services/alloydb/cluster-service.ts:260-328 | A cluster goes with all its instances and users, and with exactly the endpoints of its instances whose drop does not leave them listening |
| AlloyEffects.UserSectionDoes | src/services/alloydb/user-service.ts:80-216 | What creating, patching and deleting a user changes and answers |
| AlloyRequests.NumbersBecomeNames | src/services/alloydb/types.ts:193-235 | A wire number and its decimal text stand for the name with that number |
| AlloyRequests.TypesByNumber | src/services/alloydb/types.ts:94-105 | Which number is which type, and that the types admitted are those with a number above zero |
| AlloyRequests.InstanceRequestExactly | src/services/alloydb/instance-service.ts:523-590 | An instance create is well formed exactly if its id is a DNS label, its type one of three, and a read pool has a node |
| AlloyRequests.ClusterRequestExactly | src/services/alloydb/cluster-service.ts:445-484 | A cluster create is well formed exactly if id, initial user and networking are |
| AlloyRequests.MaskExactly | src/services/alloydb/update-mask.ts:26-63 | A mask names the fields of its paths and is refused whole if one is `*` or not writable |
| AlloyRequests.InstancePatchAccepted | src/services/alloydb/instance-service.ts:598-635 | An instance PATCH is turned down exactly for its mask or a type that is none |
| AlloyRequests.UserPatchAccepted | src/services/alloydb/user-service.ts:263-300 | The same for users |
| AlloyRequests.ClusterPatchAccepted | src/services/alloydb/cluster-service.ts:606-640 | A cluster PATCH exactly for its mask, or for leaving the cluster without networking |
| AlloyRequests.NewInstanceStores | src/services/alloydb/types.ts:851-896 | Each field of a new instance: as given, its enum normalised, or its default, and no other |
| AlloyRequests.NewClusterStores | src/services/alloydb/types.ts:798-827 | The same for clusters, with restore sources on top |
| AlloyRequests.NewUserStores | src/services/alloydb/types.ts:925-940 | The same for users, and the password |
| AlloyRequests.InitialUserExactly | src/services/alloydb/types.ts:689-732 | The initial user is the one named, or postgres, with the password given, or an empty one |
| AlloyRequests.BackupSourceStored | src/services/alloydb/cluster-service.ts:486-600 | A restore source is read under any of its spellings and kept under one |
| AlloyPatch.ResolveMaskedFields | src/services/alloydb/update-mask.ts:26-63 | The loop over the mask yields exactly the writable roots it names, or an error exactly when it names `*` or anything else |
| AlloyPatch.MergeSpec | src/services/alloydb/cluster-service.ts:606-641 | The merge loop sets each masked field the body has and deletes each it has not |
| AlloyPatch.PickFields | src/services/alloydb/types.ts:651-667 | The allowlist loop keeps exactly the writable fields without a column |
| AlloyPatch.PatchIsPointwise | src/services/alloydb/cluster-service.ts:606-641 | A spec is the patched spec exactly when every masked field is the body's and every other field is unchanged |
| AlloyPatch.ClusterPatch | src/services/alloydb/cluster-service.ts:606-641 | A cluster PATCH changes masked writable fields only, never a server-owned one, and applied twice equals applied once but for `updateTime` |
| AlloyPatch.InstancePatch | src/services/alloydb/instance-service.ts:598-635 | The same for instances; an absent `instanceType` keeps the type |
| AlloyPatch.UserPatch | src/services/alloydb/user-service.ts:263-311 | The same for users; a password is replaced only by a string and never cleared |
| AlloyPatch.NewClusterNetworked | src/services/alloydb/cluster-service.ts:445-469 | A created or restored cluster whose request passed the check is stored with a network or enabled PSC |
| AlloyPatch.AlwaysNetworked | src/services/alloydb/cluster-service.ts:445-469 | So is every stored cluster at every point of every schedule of creates, restores and PATCHes |
| AlloyServices.ResourceRepository.Create | src/core/storage/resource-repository.ts:69-79 | Adds the row, or leaves the table alone and reports a duplicate name |
| AlloyServices.ResourceRepository.DeleteByPrefix | src/core/storage/resource-repository.ts:156-160 | Removes exactly the rows whose name begins with the prefix and counts them |
| AlloyServices.ControlPlane.ValidateInstancePlacement | src/services/alloydb/instance-service.ts:455-490 | Answers exactly by the placement rule over the cluster's other instances |
| AlloyServices.ControlPlane.RollbackFailedCreate | src/services/alloydb/instance-service.ts:233-252 | Removes the row whether or not the endpoint could be dropped |
| AlloyServices.ControlPlane.CreateInstanceExclusively | src/services/alloydb/instance-service.ts:104-184 | Tables, endpoints, operations and answer are those of the section run to its end, and so what `AlloyEffects` says of a create |
| AlloyServices.ControlPlane.UpdateInstanceExclusively | src/services/alloydb/instance-service.ts:267-322 | The same for updates, falling back to a create with `allowMissing` |
| AlloyServices.ControlPlane.DeleteInstanceExclusively | src/services/alloydb/instance-service.ts:338-368 | The same for deletes, including a drop that throws |
| AlloyServices.ControlPlane.CreateClusterExclusively | src/services/alloydb/cluster-service.ts:136-170 | The same for creates and restores: cluster row, then initial user, then operation |
| AlloyServices.ControlPlane.UpdateClusterExclusively | src/services/alloydb/cluster-service.ts:210-247 | The same for cluster updates |
| AlloyServices.ControlPlane.DeleteClusterExclusively | src/services/alloydb/cluster-service.ts:260-328 | The same for the cascading delete: endpoints, instances, users, cluster |
| AlloyServices.ControlPlane.CreateUserExclusively | src/services/alloydb/user-service.ts:80-106 | The same for users |
| AlloyServices.ControlPlane.UpdateUserExclusively | src/services/alloydb/user-service.ts:149-188 | The same for user updates |
| AlloyServices.ControlPlane.DeleteUserExclusively | src/services/alloydb/user-service.ts:202-216 | The same for user deletes |
| AlloyServices.BuildClusterUpdatesStepwise | src/services/alloydb/cluster-service.ts:606-641 | The loop computes the updates the PATCH lemmas are about |
| AlloyServices.BuildInstanceUpdatesStepwise | src/services/alloydb/instance-service.ts:598-635 | The same for instances, type column apart |
| AlloyServices.BuildUserUpdatesStepwise | src/services/alloydb/user-service.ts:263-311 | The same for users, password and type apart |
| KmsVersions.TurnIsFirst | src/services/kms/key-management-service.ts:556-578 | An allocation whose predecessor is settled has every earlier allocation of its key behind it |
| KmsVersions.QueueKept | src/services/kms/key-management-service.ts:556-578 | Queueing, turns and the clean-up of tails keep the chain: whoever is unfinished holds back everybody later under the same key |
| KmsSafety.OneAllocationAtATime | src/services/kms/key-management-service.ts:548-578 | In every reachable state an allocation that has started has all earlier ones of its key settled |
| KmsSafety.VersionNumbersDense | src/services/kms/key-management-service.ts:580-608 | In every reachable state a key's version numbers are exactly 1 to n, each version named after its number |
| KmsSafety.AllocationsSucceed | src/services/kms/key-management-service.ts:580-608 | A turn of an allocation fails exactly when it is the first and its key does not exist; a taken name never happens |
| KmsSafety.RunGrows | src/services/kms/key-management-service.ts:334-369 | No run unsets a primary, removes a key or version, or changes a version's number, key, algorithm or material |
| KmsSafety.PrimaryNamesVersion | src/services/kms/key-management-service.ts:334-369 | A set primary names an existing version, which is one of the same key exactly when the id has no slash |
| KmsSafety.PrimaryIsOwn | src/services/kms/key-management-service.ts:334-369 | With slash-free key ids a primary is always the number of one of the key's own versions |
| KmsSafety.StaleWriteHarmless | src/services/kms/key-management-service.ts:599-607 | The write from the stale key row leaves a primary that is set as it is, exactly when that primary has no slash |
| KmsSafety.OnlyLastTurnWrites | src/services/kms/key-management-service.ts:580-608 | No other turn of an allocation writes a key row |
| KmsSafety.SlashesGoAstray | src/services/kms/key-management-service.ts:153-162 | A reachable state where a primary names another key's version and is then replaced by the stale write |
| KmsService.KeyManagementService.GetHighestVersionNumber | src/services/kms/repository.ts:157-165 | The greatest number among the key's versions, 0 without any |
| KmsService.KeyManagementService.AddVersion | src/services/kms/key-management-service.ts:556-578 | Chains a new allocation to the key's tail and becomes the tail |
| KmsService.KeyManagementService.ForgetTail | src/services/kms/key-management-service.ts:571-575 | Forgets the tail only if nobody has queued behind it |
| KmsService.KeyManagementService.AllocateVersion | src/services/kms/key-management-service.ts:580-608 | Each stretch between awaits has the effect of one turn |
| KmsService.KeyManagementService.UpdatePrimaryVersion | src/services/kms/key-management-service.ts:334-369 | Each stretch of a primary switch has the effect of one step, with its error |
| KmsService.KeyManagementService.MoveVersion | src/services/kms/key-management-service.ts:402-511 | Enable, disable, destroy and restore, each from exactly the states that allow it to the one state it leaves; nothing changes with an error |
| KmsStates.MovesExactly | src/services/kms/key-management-service.ts:402-513 | Each of the four transitions changes one version, from exactly its states to its one state, and nothing else |
| KmsStates.StateIsLastMove | src/services/kms/key-management-service.ts:402-513 | After any run a version is in the state its last accepted transition leaves, or enabled if there was none |
| KmsStates.OffUntilEnabled | src/services/kms/key-management-service.ts:402-513 | After a disable or destroy, encrypting and decrypting under that version fail in every later state until an enable is accepted; a restore does not lift that |
| KmsEffects.PurposesExactly | src/services/kms/key-management-service.ts:153-248 | Which algorithms serve which purpose |
| KmsEffects.CreateKeyExactly | src/services/kms/key-management-service.ts:153-248 | When a key is created, under which name, and that nothing else changes |
| KmsEffects.SwitchAlone | src/services/kms/key-management-service.ts:334-369 | Three undisturbed turns of a primary switch set the primary, or answer why not |
| KmsEffects.AllocateAlone | src/services/kms/key-management-service.ts:580-609 | Four undisturbed turns of an allocation add the next number, enabled, with the key's algorithm, and make it the primary exactly if the key encrypts and had none |
| KmsEffects.EncryptRefusals | src/services/kms/crypto-service.ts:65-107 | The error of every encryption that is turned down for its key or primary |
| KmsEffects.DecryptRefusals | src/services/kms/crypto-service.ts:109-143 | The error of every decryption that is turned down for its key, envelope or version |
| KmsEffects.ParseIntExactly | src/services/kms/crypto-service.ts:65-107 | Which number the id of a primary is read as |
| KmsCrypto.VersionIdSurvives | src/services/kms/crypto-engine.ts:253-290 | The header gives the version id modulo 2^32, so the id itself exactly when it is below 2^32 |
| Bytes.WriteUndoesRead | src/services/kms/crypto-engine.ts:253-290 | The four header bytes are the only ones that read as their number |
| KmsCrypto.DecryptUndoesEncrypt | src/services/kms/crypto-engine.ts:253-325 | Decrypting an envelope under the same material and associated data returns the plaintext |
| KmsCrypto.EmptyAadIsAbsent | src/services/kms/crypto-engine.ts:292-325 | Empty associated data decrypts as absent does |
| KmsCrypto.EncryptSucceeds | src/services/kms/crypto-service.ts:65-107 | In every reachable state encryption succeeds exactly when the key exists, encrypts, and has an enabled primary, which for a primary gone astray must also have a secret |
| KmsCrypto.EncryptNames | src/services/kms/crypto-service.ts:65-107 | The version a ciphertext was made under is the key's own exactly when the primary's id has no slash, and then the envelope names it |
| KmsCrypto.CiphertextSurvives | src/services/kms/crypto-service.ts:109-143 | A ciphertext made under a primary without a slash decrypts in every later state to its plaintext exactly while its version is enabled, with `usedPrimary` exactly when that version is the current primary, for version ids below 2^32, however other keys are named |
| KmsCrypto.WrappedIdIsLost | src/services/kms/crypto-engine.ts:253-276 | What was encrypted under a stored version whose number is a multiple of 2^32 decrypts in no later state |
| KmsReach.EveryNumberIsReached | src/services/kms/key-management-service.ts:580-608 | Every version number is one a key encrypts under in some reachable state, and for multiples of 2^32 the ciphertext is lost there |
| KmsCrypto.WriteEnvelope | src/services/kms/crypto-engine.ts:253-276 | The header bytes written into the buffer, iv, tag and text are the envelope |
| Base64.AcceptsExactlyCanonical | src/services/kms/handlers.ts:36-49 | Over any decoder that inverts the encoder, a non-empty text is accepted exactly when it is canonical after mapping the URL-safe alphabet and stripping padding, and then for the bytes it stands for |
| Base64.EncodedComesBack | src/services/kms/handlers.ts:36-53 | Encoded non-empty bytes decode to themselves, empty ones to absent |
| Base64.NoTwoSpellings | src/services/kms/handlers.ts:36-49 | Accepted texts stand for the same bytes exactly when they normalise to the same text |
| Base64.OnlyPadding | src/services/kms/handlers.ts:36-49 | A text of padding alone is accepted as no bytes rather than absent |
| Base64.LenientInverts | src/services/kms/handlers.ts:42-43 | A decoder that skips every unknown character meets what is asked of one |
| RouterPaths.TokensOfColons | src/core/gateway/request-router.ts:127-131 | Collapsing colon names changes those names and no other token |
| RouterPaths.KeyGivesShape | src/core/gateway/request-router.ts:495-499 | Equal path keys mean equal templates up to parameter names and, where it does not count, case |
| RouterConflict.KeyIsShape | src/core/gateway/request-router.ts:495-499 | Path keys are equal exactly when the templates are equal up to parameter names and, where it does not count, case |
| RouterConflict.SameRequestsExactly | src/core/gateway/request-router.ts:654-748 | Two templates without `**` match the same requests exactly when they are alike token by token up to spelling and name of parameters |
| RouterConflict.StarsCollapse | src/core/gateway/request-router.ts:654-748 | With `**` templates of different tokens can match the same requests: four stars match what two do |
| RouterConflict.ConflictsCaughtExactly | src/core/gateway/request-router.ts:470-499 | Two templates, with wildcards of any kind, share a key exactly when they match the same requests and spell every group alike, so the conflict check misses exactly the shadowed templates that spell one otherwise |
| RouterNormal.NormalizedStays | src/core/gateway/request-router.ts:534-544 | A normalised path has no doubled slash, no trailing one unless it is kept on purpose, and normalising it again changes nothing |
| RouterNormal.NormalizeKeepsSegments | src/core/gateway/request-router.ts:534-544 | Normalising keeps a path's non-empty segments, in order |
| RouterNormal.FoldingKeepsMatches | src/core/gateway/request-router.ts:501-524 | On a router that ignores case, folding a template at registration changes neither the requests it matches nor the names and values of its parameters |
| RouterMatch.CapturesExactly | src/core/gateway/request-router.ts:697-748 | What each kind of group may take |
| RouterMatch.MatchExactly | src/core/gateway/request-router.ts:654-748 | With one group a segment, the greedy match captures exactly the texts that, put into the template, give the request path up to literal case |
| RouterMatch.AgreesMatches | src/core/gateway/request-router.ts:696-748 | Backtracking misses no match, wildcards included |
| RouterBinding.BindParams | src/core/gateway/request-router.ts:670-678 | The loop binds name i to capture i, later names overriding |
| RouterBinding.FilledTemplateMatches | src/core/gateway/request-router.ts:654-748 | Substituting non-empty slash-free texts into a template of literals and colon parameters gives a path that matches with exactly those parameters |
| RouterBinding.MatchFillsTemplate | src/core/gateway/request-router.ts:654-748 | Substituting a match's parameters back gives the request path up to case |
| RouterBinding.BindingIsRight | src/core/gateway/request-router.ts:697-727 | Every request's parameters go to the right names exactly when the collected names are distinct and line up with the groups, wildcards of any kind included |
| RouterBinding.MixedSpellingsSwap | src/core/gateway/request-router.ts:704-727 | `/:a/{b}` on `/x/y` gives a the second segment and b the first |
| RouterBinding.SameKeyShadows | src/core/gateway/request-router.ts:470-499 | Two templates with the same key match exactly the same requests with the same captures |
| RouterBinding.MixedSpellingsEscape | src/core/gateway/request-router.ts:120-131 | `/{a}` and `/:a` match alike under different keys |
| RouterScore.SameSegmentCount | src/core/gateway/request-router.ts:680-685 | A template without `**` matches only paths with its number of segments |
| RouterScore.Precedence | src/core/gateway/request-router.ts:680-691 | Of two templates without `**` matching one request, one with d more static segments of N wins exactly when the other is less than 10000 d / N characters longer; with as many, the longer wins |
| RouterPrecedence.StaticAreUnparameterised | src/core/gateway/request-router.ts:680-685 | The segments a template's score counts as static are exactly those whose tokens hold no parameter |
| RouterPrecedence.FewerParametersWin | src/core/gateway/request-router.ts:680-691 | Of two templates without `**` matching a request of n segments, the one with d fewer parameterised segments wins exactly when the other is less than 10000 d / n characters longer |
| RouterPrecedence.BeatenRoutesLose | src/core/gateway/request-router.ts:612-634 | `findRoute` answers the matching route that beats every other one by that rule |
| RouterPrecedence.LiteralBeats | src/core/gateway/request-router.ts:680-691 | A template without parameters beats one with some that is not much longer |
| RouterTrie.TrieListsRoutes | src/core/gateway/request-router.ts:784-820 | The trie lists at every path and method exactly the registered routes, in order |
| RouterIndex.AlwaysDistinct | src/core/gateway/request-router.ts:390-490 | After any sequence of accepted and rejected calls, ids and path keys are distinct |
| RouterEffects.AdmittedExactly | src/core/gateway/request-router.ts:162-208 | A route is admitted exactly if it is whole, new, within bounds, well written and its key is free |
| RouterEffects.RejectionsExactly | src/core/gateway/request-router.ts:390-426 | Which error a route that is turned down gets first |
| RouterEffects.FirstBrace | src/core/gateway/request-router.ts:431-470 | The braces of a path are checked from left to right, each up to the first closing one |
| RouterEffects.PatternExactly | src/core/gateway/request-router.ts:444-465 | What a brace with a name and a pattern must hold |
| RouterEffects.AddExactly | src/core/gateway/request-router.ts:162-208 | An admitted route comes last with its path normalised; one turned down changes nothing |
| RouterEffects.RemoveExactly | src/core/gateway/request-router.ts:210-245 | A removal cuts out the route of that id and leaves the others in order |
| RouterEffects.MethodExactly | src/core/gateway/request-router.ts:612-634 | The routes looked through for a method are those of that method in order of registration |
| RouterService.RequestRouter.AddRoute | src/core/gateway/request-router.ts:162-205 | Rejects with the first error and no effect, or appends the normalised route to all four indexes and the counter |
| RouterService.RequestRouter.RemoveRoute | src/core/gateway/request-router.ts:210-245 | Removes the route from all of them, or reports that there is none |
| RouterService.RequestRouter.RebuildTrie | src/core/gateway/request-router.ts:814-820 | The trie built from the id map is the trie of the registered routes |
| RouterService.RequestRouter.ClearRoutes | src/core/gateway/request-router.ts:350-374 | Leaves every index empty |
| RouterService.RequestRouter.FindRoute | src/core/gateway/request-router.ts:612-634 | Returns the earliest registered of the highest score with its parameters, or none exactly when nothing matches |
| RouterService.BestIsUnique | src/core/gateway/request-router.ts:612-634 | There is only one such route |
| Breaker.CountersCount | src/core/gateway/service-dispatcher.ts:893-928 | Totals count recorded outcomes, failures those since the last closing, and successes plus failures never exceed the total |
| Breaker.StatesHold | src/core/gateway/service-dispatcher.ts:868-928 | `nextAttempt` is set exactly when the breaker is not closed, and then failures and throughput are past their thresholds |
| Breaker.TripsExactly | src/core/gateway/service-dispatcher.ts:908-928 | A failure recorded while not open opens the breaker exactly when the failures since it closed reach the threshold and all outcomes the throughput |
| Breaker.EnoughFailuresOpen | src/core/gateway/service-dispatcher.ts:908-928 | Failures alone open a fresh breaker at the first that reaches both limits |
| Breaker.FailedProbeReopens | src/core/gateway/service-dispatcher.ts:908-928 | One failure in the half-open state opens the breaker again |
| Breaker.SucceededProbeCloses | src/core/gateway/service-dispatcher.ts:893-906 | One success in the half-open state closes it and forgets its failures |
| Breaker.AdmittedAfterTimeout | src/core/gateway/service-dispatcher.ts:868-891 | After a trip, while all questions were refused, the next is admitted exactly when the recovery timeout has passed |
| Breaker.RefusedOnlyWhileOpen | src/core/gateway/service-dispatcher.ts:868-891 | Nothing is refused but while open and before `nextAttempt` |
| Breaker.CircuitBreaker.CanExecute | src/core/gateway/service-dispatcher.ts:868-891 | Admission and the move to half-open |
| Breaker.CircuitBreaker.RecordSuccess | src/core/gateway/service-dispatcher.ts:893-906 | A success and, from half-open, the closing |
| Breaker.CircuitBreaker.RecordFailure | src/core/gateway/service-dispatcher.ts:908-928 | A failure, and the trip exactly when both limits are reached and it is not open |
| Dispatch.DispatchIsBounded | src/core/gateway/service-dispatcher.ts:346-446 | One dispatch makes at most `maxAttempts` upstream calls, waits at most one time fewer and `maxDelay` each, `(maxAttempts - 1) * maxDelay` in all, and never less than the time before |
| Dispatch.DelaysGrow | src/core/gateway/service-dispatcher.ts:632-650 | Delays do not decrease with the attempt, for multipliers of at least 1 |
| DispatchLaws.DelaysExactly | src/core/gateway/service-dispatcher.ts:632-653 | The first delay, how each follows from the last under each strategy, and the cap |
| DispatchLaws.RetryableExactly | src/core/gateway/service-dispatcher.ts:607-630 | An error is retried exactly if its text contains a listed one or its status is listed |
| DispatchLaws.AttemptExactly | src/core/gateway/service-dispatcher.ts:366-446 | What one attempt is recorded as, and its error |
| DispatchLaws.AttemptCosts | src/core/gateway/service-dispatcher.ts:366-446 | A success or failure adds one to its own breaker's count and touches no other |
| DispatchLaws.GoesOnExactly | src/core/gateway/service-dispatcher.ts:346-446 | A dispatch goes on behind an attempt exactly if it was skipped or failed in a way that is retried and one is left, and which waits it makes |
| Dispatch.RequestsAreCounted | src/core/gateway/service-dispatcher.ts:366-415 | Each attempt that chose an endpoint and was not skipped adds one to that endpoint's breaker and to no other; skipped ones add none |
| Dispatch.ResultIsLast | src/core/gateway/service-dispatcher.ts:404-446 | The caller gets the last attempt's response or the latest error, and the general failure only if every attempt was skipped |
| Dispatch.ServiceDispatcher.DispatchWithRetry | src/core/gateway/service-dispatcher.ts:346-446 | The loop's result, attempts, waits and breakers are those the lemmas are about |
| LoadBalancer.EveryEndpointOnce | src/core/gateway/service-dispatcher.ts:799-809 | Of n selections in a row from n endpoints each endpoint gets exactly one |
| LoadBalancer.RoundRobin.SelectEndpoint | src/core/gateway/service-dispatcher.ts:770-809 | Picks by the index and advances it, except for a single endpoint |
| AsyncBridge.YieldsArePrefix | src/core/gateway/grpc-server.ts:356-413 | In every interleaving what is yielded is a prefix of what is received |
| AsyncBridge.AllYieldedExactlyIfEmpty | src/core/gateway/grpc-server.ts:373-383 | A consumer told the stream is over has had everything exactly if the buffer was empty when it ended |
| AsyncBridge.BufferedChunkIsLost | src/core/gateway/grpc-server.ts:373-394 | A pull, two chunks, the end, the first chunk, another pull: the second chunk is never yielded and the consumer is told it is over |
| AsyncBridge.ErrorHangsExactlyWaiting | src/core/gateway/grpc-server.ts:384-391 | After an error no continuation yields or ends exactly when the consumer is waiting (or hung already); at any other time it looks like the end |
| AsyncBridge.PullsDrain | src/core/gateway/grpc-server.ts:393-401 | Before the end, n pulls yield the first n buffered chunks |
| AsyncBridge.AsyncIterable.OnData | src/core/gateway/grpc-server.ts:362-371 | Fulfils the promise or buffers |
| AsyncBridge.AsyncIterable.Next | src/core/gateway/grpc-server.ts:393-408 | One turn of the generator's loop |
| Lcov.ParseUndoesFormat | scripts/lib/merge-lcov.ts:57-129 | A printed record parses back to itself |
| LcovMerge.ParseUndoesOutput | scripts/lib/merge-lcov.ts:40-129 | So does a whole printed report |
| LcovMerge.GateReadsOutput | scripts/check-coverage.ts:36-75 | The gate adds up exactly the `src/` records that were printed |
| LcovMerge.MergeKeeps | scripts/lib/merge-lcov.ts:17-38 | Merging keeps exactly the files and lines found in any report, hit exactly if hit in at least one |
| LcovMerge.MergedIsMost | scripts/lib/merge-lcov.ts:17-38 | A merged line has the greatest count any record claims for it, or 0 where all are negative |
| LcovTotals.GateCountsDistinctLines | scripts/check-coverage.ts:36-75 | The gate's line totals on a merged report are the number of distinct source lines found and of those hit in at least one report |
| LcovTotals.OrderDoesNotMatter | scripts/lib/merge-lcov.ts:17-38 | Line totals depend on the set of records only, and so do function totals while no record claims more hit than found |
| LcovOrder.OrderFreeExactly | scripts/lib/merge-lcov.ts:28-37 | The merged hits of one file are the same in every order exactly when it has one record, or with G the lesser of most found and most hit some record both found and hit G, or at most one found less |
| LcovOrder.TotalsOrderFreeExactly | scripts/lib/merge-lcov.ts:17-55 | The total of functions hit is the same in every order of the records exactly when every source file is so |
| LcovOrder.GateIgnoresOrder | scripts/check-coverage.ts:36-75 | Then the gate reads the same totals off reports that hold the same records in any order |
| LcovOrder.GateIgnoresOrderExactly | scripts/check-coverage.ts:36-75 | With a report for each record, it reads the same totals in every order exactly then |
| LcovTotals.OrderCanMatter | scripts/lib/merge-lcov.ts:33-37 | Three reports whose order decides between five functions hit and one |
| LcovScripts.ParseLcov | scripts/lib/merge-lcov.ts:57-102 | The parsing loop yields the records the theorems are about |
| LcovScripts.FormatRecord | scripts/lib/merge-lcov.ts:104-129 | The printing loop counts the hit lines and prints the record's text |
| LcovScripts.MergeReports | scripts/lib/merge-lcov.ts:17-55 | The merging loops yield the merged report |
| LcovScripts.SumCoverage | scripts/check-coverage.ts:36-75 | The gate's loop yields its totals |
| StorageCache.ProviderKeeps | src/core/storage/providers/memory.ts:131-454 | No method of the provider, as used inside a transaction too, lets the cache and the tables come apart, an `updateMany` that fails half-way included |
| StorageCache.StepKeeps | src/core/storage/manager.ts:183-487 | Nor does any operation of the manager or any eviction: every cached entry is a record its table still holds, as it is there |
| StorageCache.AnswersAsTables | src/core/storage/manager.ts:183-227 | After any calls at all, through the manager or in transactions, with evictions anywhere, `findById` and `exists` answer a generated id as tables without a cache would, whatever the tables are called |
| StorageCache.WrongExactly | src/core/storage/manager.ts:196-215 | In such a state a lookup is wrong exactly when its key is cached though its id is none |
| StorageCache.AlwaysRightExactly | src/core/storage/manager.ts:196-215 | A table and an id are answered rightly after all calls exactly when the id does not end in a colon and a generated id |
| StorageCache.TablesAreSafeExactly | src/core/storage/manager.ts:183-227 | Over a set of tables every id is answered rightly after all calls exactly when no table's name and a colon begin another's |
| StorageCache.ColonsCollide | src/core/storage/manager.ts:196-215 | A run in which the record of table `t:x` is answered for an id of table `t` that no record has |
| StorageService.FilterExactly | src/core/storage/providers/memory.ts:208-264 | In tables the operations built, a filter is refused exactly when some record makes it throw, and otherwise selects all records that match |
| StorageEffects.CreateWrites | src/core/storage/providers/memory.ts:131-152 | A created record has the values given, the time where none was given, and no other record changes |
| StorageEffects.UpdateWrites | src/core/storage/providers/memory.ts:302-328 | A patched record has the patch's values, the time it was patched, and for the rest what it had; no other record changes |
| StorageEffects.UpdateManyWrites | src/core/storage/providers/memory.ts:330-357 | So has every record that matches, and no other; if the filter throws, some of those that match, each whole |
| StorageEffects.DeleteManyRemoves | src/core/storage/providers/memory.ts:370-392 | Exactly the records that match go, or none if the filter throws |
| StorageEffects.TablesComeAndGo | src/core/storage/providers/memory.ts:425-454 | Tables come empty, stay when created again, and go whole |
| StorageEffects.ProviderKeysExactly | src/core/storage/providers/memory.ts:131-454 | What a provider method reads or writes is cached from then on, what it deletes no longer |
| StorageEffects.ManagerKeysExactly | src/core/storage/manager.ts:183-487 | What the manager changed is cached no longer, what it only read is |
| StorageEffects.UpdateManyForgets | src/core/storage/manager.ts:294-339 | Which keys are cached after an update by filter |
| StorageEffects.DeleteManyForgets | src/core/storage/manager.ts:373-423 | Which keys are cached after a delete by filter |
| StorageService.LruCache.DeleteByPrefix | src/core/storage/cache/lru-cache.ts:311-330 | Deletes exactly the keys with the prefix and counts them |
| StorageService.MemoryProvider.FindById | src/core/storage/providers/memory.ts:183-206 | Reads through the cache |
| StorageService.MemoryProvider.UpdateMany | src/core/storage/providers/memory.ts:330-357 | Writes table and cache record by record, keeps what it wrote when the filter throws, and counts |
| StorageService.MemoryProvider.DeleteMany | src/core/storage/providers/memory.ts:370-392 | Collects first, so a filter that throws deletes nothing; then deletes from table and cache |
| StorageService.StorageManager.FindById | src/core/storage/manager.ts:183-227 | Reads through the same cache once more and fills it |
| StorageService.StorageManager.UpdateMany | src/core/storage/manager.ts:294-339 | Forgets what matches after the update, or the table if that query throws |
| StorageService.StorageManager.DeleteMany | src/core/storage/manager.ts:373-423 | Looks up what to forget before deleting |
| StorageService.StorageManager.DropTable | src/core/storage/manager.ts:468-487 | Drops the table and every entry under its prefix |
| Backups.StepAgreesExactly | src/services/memorystore/backup-repository.ts:56-139 | An operation keeps all aggregates right exactly when it does not create a collection under a name that backups already refer to |
| Backups.AggregatesAlwaysAgree | src/services/memorystore/backup-repository.ts:127-233 | With backups in existing collections and only empty ones dropped, count, byte total and last time always equal count, sum and maximum over the backups |
| Backups.BackupRepository.RefreshBackupCollectionStats | src/services/memorystore/backup-repository.ts:199-233 | Brings one collection back in line whatever it said before, and touches no other |
| Backups.BackupRepository.CreateBackup | src/services/memorystore/backup-repository.ts:127-139 | Adds the row and brings its collection in line |
| Backups.BackupRepository.DeleteBackup | src/services/memorystore/backup-repository.ts:174-184 | Removes the row and brings its collection in line |
| Armor.ValidatedIsGood | src/services/compute/service.ts:610-644 | A validated list has distinct priorities in range and the default rule |
| Armor.RemoveUndoesAdd | src/services/compute/service.ts:308-406 | Removing what was just added restores the list, unless it was the default rule, which stays |
| Armor.RemoveKeepsGood | src/services/compute/service.ts:355-406 | A removal takes exactly the one rule of that priority; the others stay as they are, in order |
| Armor.PatchKeepsGood | src/services/compute/service.ts:432-507 | A rule edit keeps priorities distinct, every other rule in place and the default rule unless it is the one edited |
| ArmorRules.RuleExactly | src/services/compute/service.ts:610-644 | A rule is taken exactly if priority, action, description, match and rate limit are as they must be, and which members are stored |
| ArmorRules.ActionsExactly | src/services/compute/service.ts:610-644 | The actions there are |
| ArmorRules.ListExactly | src/services/compute/service.ts:610-644 | A list is taken exactly if each rule is and no two share a priority; it is stored in order, the default rule behind it unless there is one |
| ArmorRules.AddExactly | src/services/compute/service.ts:432-507 | An added rule comes last as it is stored, exactly if it is acceptable and its priority free |
| ArmorRules.PatchExactly | src/services/compute/service.ts:432-507 | A patched rule is its members overridden by the patch's, exactly if that is acceptable, its priority free and no ban becomes a throttle |
| ArmorService.PrioritiesStayDistinct | src/services/compute/service.ts:308-507 | After any run every policy's priorities are pairwise distinct and within [0, 2147483647] |
| ArmorService.DefaultsKeptExactly | src/services/compute/service.ts:432-507 | An operation keeps every default rule exactly when it is not a `patchRule` that moves one |
| ArmorService.DefaultsStay | src/services/compute/service.ts:308-507 | So after any run without such an edit every policy has its default rule |
| ArmorService.DefaultCanBeMoved | src/services/compute/service.ts:432-507 | A run of two requests, an insert and such an edit, leaves a policy without its default rule |
| ArmorEffects.InsertExactly | src/services/compute/service.ts:126-181 | An insert stores the listed rules, or the default alone, exactly under a new well-formed name with a short description and options that pass |
| ArmorEffects.PatchExactly | src/services/compute/service.ts:238-306 | A patch replaces all rules if it lists some and keeps them if not |
| ArmorEffects.EditsExactly | src/services/compute/service.ts:308-507 | Adding, removing and editing a rule are the edits of the named policy's list, with their errors |
| ArmorService.ValidateRules | src/services/compute/service.ts:610-644 | The two loops accept exactly the valid lists and add the default rule when it is missing |
| ArmorService.SecurityPolicyService.AddRuleTo | src/services/compute/service.ts:308-353 | The policies and the error after an added rule |
| ArmorService.SecurityPolicyService.RemoveRuleFrom | src/services/compute/service.ts:355-406 | The policies and the error after a removed rule |
| ArmorService.SecurityPolicyService.PatchRuleOf | src/services/compute/service.ts:432-507 | The policies and the error after an edited rule |

## Left out

- Every repository and data-plane call is one step; storage failures do not happen.
- `LIKE 'prefix%'` is starts-with in every section; `AlloyLike` says exactly when the SQLite operator is that too.
- `ResourceMutex` is per-key exclusion with the lock granted in any order; first come, first served is one of them.
- The data plane is the set of running endpoints, with the outcome of every start and drop an input.
- JSON text of specs, rules and settings is the identity on values, and the order of object members is not kept.
- `Number(...)` of a read pool's node count is an input.
- AlloyDB backups, reads, lists, pagination and HTTP handling.
- Creating a crypto key checks and writes in one step, and the key ring's existence is not looked at.
- KMS version state changes are single steps; asymmetric keys, MACs and CRC32C are not part of this model.
- AES-GCM is a pair of functions of which only inversion and the tag length are asked; distinct ivs are not modelled.
- `parseInt` of a version id is exact, also above 2^53.
- Route parameters with a pattern of their own (`{name=pattern}`), braces around anything but an identifier (`{a-b}`, `{0}`, `{ x }`), parentheses in templates and a router with wildcards switched off: such text is read literally.
- RouterConflict.SameRequestsExactly: leaves out templates with `**`, of which quite different ones can match the same requests (`StarsCollapse`); `ConflictsCaughtExactly` and `BindingIsRight` cover them.
- The regular expression flag `i` and `toLowerCase` act on ASCII letters only.
- RouterService.RequestRouter.RebuildTrie: the trie is a value replaced whole, because its heap nodes are never shared; aliasing inside it is not captured.
- Scores are exact reals; rounding of the source's doubles is not modelled.
- Middleware, request parsing and response creation of the router, and its request metrics.
- Dispatch.ServiceDispatcher.DispatchWithRetry: one dispatch runs with no other dispatch between its awaits, and endpoint selection is an input apart from round robin.
- `setState` of a breaker, sticky sessions, health filters and response times.
- Operations on the storage manager run one after the other, transactions included; `createMany` is a run of creates, the manager's `create`, `createTable` and `exists` are the provider's, and rolling back undoes nothing, as in the memory provider.
- Stored records are values: a caller that changes a returned object in place is not modelled. The SQLite provider has no cache, so nothing can go stale there.
- Lcov numbers in other forms than decimal integers (`1e3`, `0x10`, `1.0`) count as not a number.
- LcovTotals.GateCountsDistinctLines: a line listed twice in one record counts as its last listing does, as in the parser.
- Stream chunks are never `undefined`, and no data follows the end where a lemma asks for it.
- Backup rows and their collection's columns are written without another operation between.
- Match expressions, address ranges, rate limit options and advanced options of security policies are checked by functions that are inputs.
- Labels, fingerprints, operations and timestamps of security policies.
