# Verified model of the config, release and job-lock engines

This project models three stateful engines of the service and two small aggregations, and proves what
they promise. The database tables, the object store and Vault are maps; each service method is one
atomic step, and what comes from other services is a parameter of the step.

- **Trees and secrets** (`Text`, `Tree`, `TreeInPlace`, `Vault`, `SecretKeys`, `SecretLaws`,
  `SecretOwnership`, `ResolvedPaths`, `KeyPaths`, `CloneLaws`): dot-path reads and updates of parsed YAML, on
  values and as loops over nested objects; the mask, unmask, store, resolve, clone and delete loops;
  the Vault store and its reference strings. *Ownership* is the notion behind frozen history: a
  document is owned by a set of group ids when its references name secrets of those groups only, and
  every write goes to secrets of the one group being edited.
- **Config revisions** (`ConfigModel`, `Versioning`, `DraftEdits`, `DraftNames`, `DraftLaws`,
  `PopulateLaws`, `MergeLaws`, `UpsertLaws`, `CloneContents`, `DropLaws`, `VaultWrites`, `CloneWrites`,
  `Revisions`, `Payload`, `ConfigDb`, `ConfigService`, `ConfigRows`, `RowTheorems`, `OperationLaws`,
  `PayloadTheorems`, `ConfigIds`, `ContentKept`, `PublishedMaps`, `HarmlessRuns`, `ConfigRuns`,
  `ConfigTheorems`, `ConfigWitnesses`, `CloneWitness`, `Associations`): the DRAFT, ACTIVE, ARCHIVED
  machine, the semantic-version calculator, layered merging with null tombstones, the two payload
  builders and the versioned cache. `ConfigDb` defines every operation as a function on the state, and
  the class `ConfigService` performs it step by step and is proved to compute that function.
  `UpsertLaws`, `MergeLaws`, `CloneContents`, `OperationLaws` and `PublishedMaps` say what each
  operation means: which group it edits, whose values, flags and sensitive keys it takes, and what
  readers see afterwards. `ConfigRows`, `RowTheorems`, `PayloadTheorems` and `ConfigIds` prove what
  holds over runs with any client input; `ContentKept` and `HarmlessRuns` say for any references exactly
  when an operation keeps published contents; `ConfigRuns` and `ConfigTheorems` add what depends on
  whose secrets references name. The two witness modules run the engine from empty into the states the
  exact conditions exclude.
- **Release readiness** (`ReleaseModel`, `FileReadiness`, `ReleaseCascade`, `CascadeLimits`,
  `SemanticVersion`, `ReleaseOrder`): a refresh of one release as a transition that re-queues
  dependents, run in any order; the sort order the subscriber maintains and the latest pointer that
  reads it.
- **Job lock** (`JobLock`): the lease with heartbeat and timeout as a state machine over processes
  that acquire, beat, release and crash while one clock ticks.
- **Aggregations** (`DeploymentReport`, `Policies`): the counts of the deployment report, and bulk
  against single policy lookup.

Where the code does less than its documentation says, the model follows the code:

- `applyRevision` opens no fresh draft, although the entity comment says so
  (`libs/common/src/database/entities/config-revision.entity.ts:14-17`); refresh and provisioning do.
- `computeNextSemVer` returns 1.0.0 after an empty revision, so versions can repeat:
  `VersionsIncreaseIff` gives the exact condition and `EmptyPublishRepeats` an instance.
- `autoPublishInitialRevision` archives nothing: `InitialPublishKeepsIff` says when that is sound.
- Key paths `a.b` and `a__b` share one secret, and a `/` in a key path breaks the reference:
  `StoreThenResolveTree` gives the exact condition for losing nothing on storing. Cloning a group,
  which opening a draft and a refresh do, resolves like its source exactly when the keys it re-stores
  contain no `/` and those that share a secret name resolve alike (`CloneResolvesAlikeIff`,
  `CreateDraftAlike`, `RefreshAlike`); `CloneLosesInRun` is a run in which it loses a value.
- A reference sent by a client is stored as it is. References to secrets of the edited group, of
  published groups or of no group, which is all a client gets to see, do no harm. A reference to
  another draft's secret, or to an id not given out yet, lets later operations change published
  content (`ForeignReferenceBreaks`, `ForeignUpsertChanges`). `StepKeepsPublishedIff` says for every
  operation and all references, on the state before the call, exactly when it does: when a published
  group's sensitive path names a secret that the operation drops, stores another text under, or will
  store for a clone. What does not turn on references at all is proved for all client input.
- `***` sent at a sensitive key of a group without content is stored as that text: `Meant` in
  `UpsertLaws` follows the code.
- Populating gives a group that the draft already has the config maps' sensitive keys and content, and
  keeps the draft's global flag: `RefreshPublishesMaps`.
- A publish caches the live overlay, a cache miss by version rebuilds from the revision alone. The
  two agree exactly when the config maps bring nothing that shows (`BuildersAgreeIff`, and
  `ApplyAgreesIff`, `RefreshAgreesIff`, `ProvisionAgreesIff` for the three publishes).
- After a loss of the cache the current payload is built from the config maps of that moment and
  cached under the old version: `LossIff` and `CurrentAfterLossIff` say when that changes what
  readers get.
- Deleting a device type sets it null in association rows, which turns them into rows for all
  devices that the forward cascade does not reach: `StepKeepsSoundIff`, `CascadeIsLookupIff`.
- The bulk policy answer lists every queried release of a policy, the single answer one:
  `BulkEqualsSingleIff`. For the empty id the two differ: `EmptyIdIff`.
- Status rows without a device are counted but have no entry: `DownloadedWithinTotalIff`,
  `InstalledWithinTotalIff`.
- The unique constraint alone does not make check and insert exclusive: `RaceIff`.

`dafny verify dfyconfig.toml` checks everything.

## Model

| member | source | states |
|---|---|---|
| Tree.GetSetSame | apps/upload/src/config/config.service.ts:66-78 | a path read after it was written gives the written value |
| Tree.GetSetOther | apps/upload/src/config/config.service.ts:66-78 | writing a path, present or not, leaves every path that is not above or below it unchanged |
| Tree.GetDeleteOther | apps/upload/src/config/config.service.ts:80-89 | so does deleting at a path |
| Tree.SubstRestore | apps/upload/src/config/config.service.ts:264-270 | writing one original value back over its mask turns a tree that differs at a set of paths into one that differs at the others only |
| Tree.LiftEqual | apps/upload/src/config/config.service.ts:1169-1181 | a tree whose scalars are all equal to those of another, path by path, is that tree |
| TreeInPlace.GetByPath | apps/upload/src/config/config.service.ts:66-68 | the walk over nested objects reads what the value-level lookup gives, absent and null alike; nothing is read below a string |
| TreeInPlace.SetByPath | apps/upload/src/config/config.service.ts:70-78 | the loop that mutates the innermost object turns the document into exactly the value-level update, creates objects only where the path had none, and keeps every object below one property only, also when the new value is an object that hangs nowhere yet |
| TreeInPlace.DeleteByPath | apps/upload/src/config/config.service.ts:80-89 | the loop, its early return included, turns the document into exactly the value-level deletion and creates no object |
| TreeInPlace.StepDown | apps/upload/src/config/config.service.ts:73-76 | between two turns of the walk exactly one object still differs from the tree it is meant to show |
| Vault.ParseInvertsMake | libs/common/src/vault/vault.service.ts:333-346 | parsing a reference inverts its format if and only if the secret name has no `/` and the field no `#`; a `/` moves part of the name into the mount path |
| Vault.StoreThenResolve | libs/common/src/vault/vault.service.ts:125-170 | a stored field resolves through the returned reference exactly when the secret name has no `/` |
| Vault.ResolveFrame | libs/common/src/vault/vault.service.ts:209-236 | what a reference resolves to depends on the one secret it names |
| Vault.DeletedSecret | libs/common/src/vault/vault.service.ts:176-202 | deleting a field removes the secret exactly with its last field |
| Vault.VaultService.StoreSecret | libs/common/src/vault/vault.service.ts:125-170 | one field is merged into the secret, its siblings and all other secrets stay; the reference names that field |
| Vault.VaultService.DeleteSecret | libs/common/src/vault/vault.service.ts:176-202 | one field goes, and the whole secret with its last field; nothing happens when Vault is off |
| Vault.VaultService.ResolveSecret | libs/common/src/vault/vault.service.ts:209-236 | plain text passes through, a reference gives the field of its secret or nothing |
| SecretLaws.MaskedRoundTrip | apps/upload/src/config/config.service.ts:259-274 | sending the masked view back restores the stored tree exactly, for every tree and every list of sensitive paths, overlapping and repeated ones included, where no sensitive path continues below a string (see the end of this file) |
| SecretLaws.MaskedView | apps/upload/src/config/config.service.ts:1297-1309 | in the view every sensitive path reads `***` or is absent or null, and a path unrelated to all of them reads as stored |
| DraftLaws.ViewSentBack | apps/upload/src/config/config.service.ts:233-301 | reading the view and sending it through `upsertGroup` changes neither groups nor Vault exactly when Vault is off or every present sensitive value already is a reference |
| SecretLaws.SecretNameInjective | apps/upload/src/config/config.service.ts:48-49 | a secret name determines the group id, and the key path up to `.` versus `__` |
| SecretLaws.StoreThenResolveTree | apps/upload/src/config/config.service.ts:276-296 | for present sensitive values that are strings and no references, storing and then resolving gives the tree back if and only if no present key path contains `/` and present key paths with one secret name hold equal values |
| MergeLaws.CopyIsStore | apps/upload/src/config/config.service.ts:966-980 | for present sensitive values that are strings and no references, at paths listed once, the loop that stores merged config-map values does to document and Vault what the store loop of an upsert does |
| MergeLaws.CopyThenResolve | apps/upload/src/config/config.service.ts:966-980 | so what it stored resolves back to the merged document if and only if no present key path contains `/` and present key paths with one secret name hold equal values |
| MergeLaws.StoredTextIsJson | apps/upload/src/config/config.service.ts:966-980 | the text stored for a merged value is a string as it is, and for anything else the JSON text by which the version calculator compares values |
| MergeLaws.CopiedOwn | apps/upload/src/config/config.service.ts:966-980 | after that loop every sensitive path holds nothing or its own reference, overlapping paths included |
| SecretLaws.StoreChangesIff | apps/upload/src/config/config.service.ts:276-296 | the store loop leaves a document and Vault alone exactly when every present sensitive value is a reference already |
| SecretLaws.ResolveReads | apps/upload/src/config/config.service.ts:1169-1181 | the resolve loop reads each present sensitive path through its own reference and no other path |
| SecretOwnership.StoredTreeEffect | apps/upload/src/config/config.service.ts:276-296 | the store loop writes secrets of its own group only, and the result refers to owned secrets only |
| SecretOwnership.CopiedTreeEffect | apps/upload/src/config/config.service.ts:966-980 | the same for the loop that moves merged config-map values into Vault |
| SecretOwnership.ClonedTreeEffect | apps/upload/src/config/config.service.ts:1200-1224 | the same for the loop that re-stores a clone's secrets |
| SecretOwnership.DroppedSecretsEffect | apps/upload/src/config/config.service.ts:317-332 | deleting a group's secrets touches secrets of that group id only |
| SecretOwnership.ResolvedTreeFrame | apps/upload/src/config/config.service.ts:1163-1184 | two stores that agree on the secrets of some groups resolve every document that refers to those groups only to the same content |
| ResolvedPaths.ResolvedShape | apps/upload/src/config/config.service.ts:1163-1184 | where each path is listed once, or no sensitive reference resolves to another reference, resolving replaces exactly the references at sensitive paths, each by what it resolves to, and nothing else |
| ResolvedPaths.ResolvedAlikeIff | apps/upload/src/config/config.service.ts:1163-1184 | two Vault states resolve such a document to the same content if and only if they resolve each of its sensitive references alike |
| KeyPaths.UnmaskedAt | apps/upload/src/config/config.service.ts:264-273 | at a key path no other lies above or below, `***` becomes the stored value or goes, and any other value stays |
| KeyPaths.StoredAt | apps/upload/src/config/config.service.ts:276-296 | there a plain value is replaced by the path's own reference, and an absent value or a reference stays |
| KeyPaths.StoreWriteAt | apps/upload/src/config/config.service.ts:276-296 | and Vault gets the text of that value under the path's secret name, and nothing there for another value, if no other listed path has that name |
| KeyPaths.CopyWriteAt | apps/upload/src/config/config.service.ts:966-980 | the same for the loop that stores merged config-map values: a string as it is, anything else as JSON |
| KeyPaths.ResolvedClear | apps/upload/src/config/config.service.ts:1169-1181 | there resolving replaces a reference by what it resolves to and leaves anything else |
| KeyPaths.ClonedUnrelated | apps/upload/src/config/config.service.ts:1200-1224 | a path that lies neither above nor below a key path reads in a clone as in its source |
| CloneLaws.CloneResolvesAlikeIff | apps/upload/src/config/config.service.ts:1186-1231 | where no sensitive path names a secret of the clone, the document a clone gets resolves like its source if and only if no key that is re-stored contains `/` and keys sharing a secret name resolve alike; for a path listed twice that resolves to another reference, the condition is enough if Vault names no secret of the clone |
| CloneContents.CloneAlike | apps/upload/src/config/config.service.ts:1186-1231 | the same for a cloned group, on the re-store and on the fallback branch, with Vault on or off; the clone has the name, the global flag and the sensitive keys of its source |
| CloneContents.ClonedMissingDirect | apps/upload/src/config/config.service.ts:460-472 | for sources that refer to ids given out or to no group: every missing group gets a clone under its name, with its global flag and its sensitive keys, which resolves like its source under exactly that condition, whatever is cloned before and after it |
| CloneContents.ClonedMissingAlike | apps/upload/src/config/config.service.ts:460-472 | with owned references the condition is enough for repeated paths too |
| CloneContents.ClonesInOrder | apps/upload/src/config/config.service.ts:460-472 | cloning adds exactly one copy per missing group, in their order and under the next ids, after the groups already there |
| DropLaws.DroppedResolve | apps/upload/src/config/config.service.ts:317-332 | after a group's secrets are deleted exactly the references to them stop resolving, all others resolve as before |
| DropLaws.DropKeepsIff | apps/upload/src/config/config.service.ts:317-332 | deleting the secrets of some groups keeps the resolved content of a group if and only if none of its sensitive paths resolves through a dropped secret |
| SecretKeys.MaskKeys | apps/upload/src/config/config.service.ts:1297-1309 | the mask loop computes the masked view |
| SecretKeys.UnmaskKeys | apps/upload/src/config/config.service.ts:264-273 | the unmask loop: put the stored value back, or delete the path when nothing is stored |
| SecretKeys.StoreKeys | apps/upload/src/config/config.service.ts:276-296 | the store loop on the Vault service: new document and new Vault contents |
| SecretKeys.CopyKeys | apps/upload/src/config/config.service.ts:966-980 | the config-map store loop on the Vault service |
| SecretKeys.ResolveKeys | apps/upload/src/config/config.service.ts:1169-1181 | the resolve loop; Vault is only read |
| SecretKeys.CloneKeys | apps/upload/src/config/config.service.ts:1200-1224 | the clone loop on the Vault service |
| SecretKeys.DropKeys | apps/upload/src/config/config.service.ts:317-332 | the secret deletion loop on the Vault service |
| Versioning.ComputeNextSemVer | apps/upload/src/config/config.service.ts:1233-1285 | the map-filling and comparison loops with their two flags compute the next version of `NextVersionIff`, and 1.0.0 after no or an empty revision |
| Versioning.CompareGroup | apps/upload/src/config/config.service.ts:1263-1276 | the two key loops find a lost key exactly when one is lost, and a changed key exactly when one is new or its value has another JSON text |
| Versioning.NextVersionIff | apps/upload/src/config/config.service.ts:1241-1284 | after a revision with groups at (a, b, c) the next version is (a+1, 0, 0) if and only if a group name is new or gone or a group lost a top-level key; (a, b+1, 0) if and only if none of that happened and some value has another JSON text or is new; (a, b, c+1) if and only if all groups, keys and texts are the same |
| Versioning.ConsecutiveVersions | apps/upload/src/config/config.service.ts:1233-1285 | so in every publication history each version tells exactly how the contents changed since the one before |
| Versioning.StringText | apps/upload/src/config/config.service.ts:1270-1274 | two strings have one JSON text only if they are equal, and no string has the text of null, a number, a boolean, an array or an object |
| Versioning.NextIsLater | apps/upload/src/config/config.service.ts:1238-1239 | a computed version is later than the previous one exactly when the previous revision has groups, or its version is below 1.0.0 |
| Versioning.VersionsIncreaseIff | apps/upload/src/config/config.service.ts:1233-1285 | published versions strictly increase by section 11 of Semantic Versioning 2.0.0 if and only if no revision but perhaps the last was published empty |
| Versioning.VersionsMeanCompatibility | apps/upload/src/config/config.service.ts:1241-1284 | for any two published revisions: equal major means equal group names and no lost top-level key, equal major and minor means values of the same JSON text |
| Versioning.EmptyPublishRepeats | apps/upload/src/config/config.service.ts:1238-1239 | a concrete history in which an empty revision makes version 1.0.0 repeat |
| Revisions.LifecycleMeaning | libs/common/src/database/entities/config-revision.entity.ts:9-17 | at most one DRAFT and one ACTIVE row, the numbers 1 to the number of rows each given once, DRAFT above ACTIVE above ARCHIVED, and a version exactly on published rows |
| Revisions.EnsureDraftKeeps | apps/upload/src/config/config.service.ts:199-218 | `getOrCreateDraftRevision` keeps the life cycle and every published row |
| Revisions.EditKeeps | apps/upload/src/config/config.service.ts:259-301 | writing draft groups keeps the life cycle and every published row |
| Revisions.ApplyKeeps | apps/upload/src/config/config.service.ts:344-370 | `applyRevision` appends the draft to the history under the computed version and leaves no draft |
| Revisions.DropKeeps | apps/upload/src/config/config.service.ts:474-495 | dropping the draft leaves exactly the published history |
| Revisions.NextDraftKeeps | apps/upload/src/config/config.service.ts:836-838 | the fresh draft that refresh and provisioning append keeps the life cycle |
| Revisions.InitialPublishKeepsIff | apps/upload/src/config/config.service.ts:696-712 | `autoPublishInitialRevision`, which archives nothing, keeps the life cycle if and only if the project has no ACTIVE revision |
| DraftLaws.UpsertKeeps | apps/upload/src/config/config.service.ts:233-301 | an upsert keeps the draft invariant (unique names, fresh ids, owned references) and touches only secrets of its own group, when the references sent, if any, name secrets of that group, of published groups or of no group |
| UpsertLaws.UpsertMeans | apps/upload/src/config/config.service.ts:233-301 | what an upsert makes of a draft: only the group of the name sent is edited or added; its global flag and sensitive keys are those sent, else the former, else false and none; without a document the content stays; with one, paths unrelated to the sensitive keys read as sent, and at each sensitive key no other lies above or below the group holds what the client means (`***` over content is the stored value), in Vault where it is plain, and readers see its text unless the key has a `/`; references resolve as before exactly when the upsert stores no other text under their secret, which it never does for the key's own |
| UpsertLaws.UpsertShows | apps/upload/src/config/config.service.ts:233-301 | the part of this about what readers see at one sensitive key |
| DraftLaws.RemoveKeeps | apps/upload/src/config/config.service.ts:303-315 | the same for deleting a group |
| DraftLaws.CloneKeeps | apps/upload/src/config/config.service.ts:1186-1231 | the same for cloning a group |
| DraftLaws.CloneMissingKeeps | apps/upload/src/config/config.service.ts:460-472 | the same for cloning the missing groups |
| DraftNames.CloneMissingNames | apps/upload/src/config/config.service.ts:460-472 | cloning the missing groups adds exactly their names and leaves the groups before them, whatever they contain |
| MergeLaws.MergedAllFrom | apps/upload/src/config/config.service.ts:919-940 | merged config-map groups: exactly one per name; every key has the value of the last config-map group of the name that mentions the key; the flag is that of the first; each sensitive key of any of them is listed once |
| MergeLaws.MergedAllShape | apps/upload/src/config/config.service.ts:919-940 | so a merged group has all keys of the config-map groups of its name |
| PopulateLaws.PopulateAllLike | apps/upload/src/config/config.service.ts:942-985 | populating a draft keeps every group and every flag, leaves each merged group's keys under its name, and adds groups with a merged group's flag only |
| PublishedMaps.PopulatedWithHolds | apps/upload/src/config/config.service.ts:942-985 | writing one merged group edits or adds only the group of its name, under its sensitive keys, a flag already there stays, and the group holds the merged document: unrelated paths as merged, each sensitive value in Vault under the path's own reference, read back as its text unless the key has a `/`, and the whole document read back exactly under the condition of `CopyThenResolve` |
| PublishedMaps.PopulatedAllFrom | apps/upload/src/config/config.service.ts:942-985 | after the whole loop every merged group is held like this, later ones notwithstanding, and every other group of the draft is as it was |
| DraftLaws.PopulateAllKeeps | apps/upload/src/config/config.service.ts:942-985 | populating a draft keeps its invariant and the secrets of every other group |
| Payload.LiveIsLookup | apps/upload/src/config/config.service.ts:1095-1147 | every group and key of the live payload comes from the highest layer that mentions the key (device group, config-map groups with later ones winning, device globals, config-map globals), and a null there removes it |
| Payload.RebuiltIsLookup | apps/upload/src/config/config.service.ts:1040-1062 | the payload rebuilt from a revision answers in the same way from its globals and its own groups alone |
| Payload.BuildersAgreeIff | apps/upload/src/config/config.service.ts:1040-1062 | the overlay of config maps and device groups equals the rebuild from the device revision alone if and only if the maps bring no group of their own and, in no group, a key that shows: one the group lacks and that is not hidden by, or equal to, the device's globals |
| Payload.CoveringHides | apps/upload/src/config/config.service.ts:1095-1147 | config maps whose groups the device revision has with their flags and keys bring nothing that shows |
| Payload.NewNameShows | apps/upload/src/config/config.service.ts:1095-1147 | a config-map group of a name the device revision does not have always shows |
| Payload.FlagsMatter | apps/upload/src/config/config.service.ts:1109-1147 | a config-map group that is global, over a device group of its name that is not, shows its keys in every other group that lacks them, in the live payload only |
| ConfigRows.StepRows | apps/upload/src/config/config.service.ts:199-849 | every operation, whatever references clients send, keeps the life cycle of every project, every published row, and a cache of published versions only |
| ConfigRows.RunRows | apps/upload/src/config/config.service.ts:199-849 | the same over every run in which devices are provisioned before they have an active revision |
| ConfigRows.ProvisionIsPublish | apps/upload/src/config/config.service.ts:676-728 | without an active revision, publishing the provisioned draft as the initial version is publishing it under the computed one |
| RowTheorems.ReachableLifecycle | apps/upload/src/config/config.service.ts:199-218 | over every such run from the empty engine: one DRAFT and one ACTIVE per project, numbers counting from 1 without a gap and ordered by status, group names unique per revision |
| RowTheorems.ReachableVersions | apps/upload/src/config/config.service.ts:1233-1285 | over every such run: each version tells exactly how the contents changed since the one before; published versions strictly increase exactly when no revision but perhaps the last was published empty, and then carry the compatibility promise |
| RowTheorems.ApplyVersionIff | apps/upload/src/config/config.service.ts:338-390 | `applyRevision` succeeds exactly when there is a draft; it publishes the draft's groups under 1.0.0 after no or an empty active revision, else under the version that tells exactly how they differ from the active groups, and leaves no draft |
| RowTheorems.RefreshVersionIff | apps/upload/src/config/config.service.ts:797-838 | so does a refresh for the groups it publishes, and it leaves an empty draft |
| OperationLaws.UpsertGroupMeans | apps/upload/src/config/config.service.ts:233-301 | `upsertGroup` does to the draft, opened first if there is none, what `UpsertMeans` says, to no other project and not to the history; an unknown project is refused |
| OperationLaws.DeleteGroupMeans | apps/upload/src/config/config.service.ts:303-332 | `deleteGroup` succeeds exactly when the draft has a group of the name; that group and its secrets go, every other group stays in its place in order |
| OperationLaws.CreateDraftMeans | apps/upload/src/config/config.service.ts:425-472 | `createDraftRevision` refuses unknown projects and a second draft, changes nothing then, and otherwise only adds a draft |
| OperationLaws.DraftSource | apps/upload/src/config/config.service.ts:447-458 | without an active revision the draft is copied from the archived revision with the highest number |
| OperationLaws.DeleteDraftMeans | apps/upload/src/config/config.service.ts:474-495 | `deleteDraftRevision` succeeds exactly when there is a draft, and leaves exactly the published history |
| OperationLaws.CurrentReadIsLookup | apps/upload/src/config/config.service.ts:991-1018 | a current payload that is not cached carries the active version, answers every group and key from the highest layer of applicable config maps and active revision that mentions the key, and is cached exactly under an active version |
| OperationLaws.VersionReadIff | apps/upload/src/config/config.service.ts:1020-1063 | a read by version finds a payload exactly when a published revision has the version, and rebuilds it from one |
| PublishedMaps.RefreshPublishesMaps | apps/upload/src/config/config.service.ts:797-838 | a refresh publishes under each name the config maps bring a group that holds what they merge into (the last mention of each key), with their sensitive keys and the flag of the draft's group of the name or else the first of theirs; every other draft group as it was; a group under every previous active name; and no other group |
| PublishedMaps.ProvisionPublishesMaps | apps/upload/src/config/config.service.ts:676-728 | provisioning publishes the same as version 1.0.0, from a draft that starts with the default groups if it has none |
| PublishedMaps.DefaultGroupsAre | apps/upload/src/config/config.service.ts:681-694 | the default groups of a draft without groups are two empty, non-global ones of the two fixed names; any other draft stays |
| PublishedMaps.MapsBringOne | apps/upload/src/config/config.service.ts:919-940 | the config maps merge into exactly one document per name |
| RowTheorems.RefreshKeepsNames | apps/upload/src/config/config.service.ts:797-838 | a refresh never drops a group name of the previous ACTIVE revision |
| RowTheorems.PublishOverwritesIff | apps/upload/src/config/config.service.ts:356-381 | where no earlier revision was published empty, the version a publish computes is cached already if and only if the active revision is empty and the first version is cached |
| RowTheorems.ApplyOverwritesIff | apps/upload/src/config/config.service.ts:338-390 | so `applyRevision` overwrites a cached payload exactly then, and touches no other entry |
| RowTheorems.RefreshOverwritesIff | apps/upload/src/config/config.service.ts:797-849 | the same for a refresh |
| RowTheorems.CacheIsWriteOnce | apps/upload/src/config/config-cache.service.ts:21-54 | over every run without empty publishes a cached (device, version) payload is never overwritten |
| RowTheorems.ReadsAgree | apps/upload/src/config/config.service.ts:991-1063 | so all reads of one version, by its number or as the current payload while it is active, return the same payload, whatever happens between them |
| PayloadTheorems.LiveIsRebuiltIff | apps/upload/src/config/config.service.ts:991-1018 | in every state the live payload of a device is the one rebuilt from its active revision exactly when the current config maps bring nothing that shows |
| PayloadTheorems.ApplyAgreesIff | apps/upload/src/config/config.service.ts:372-382 | right after `applyRevision` the cached live payload equals the rebuild from the published revision if and only if overlaying the config maps on the published draft changes nothing |
| PayloadTheorems.GroupsFrom | apps/upload/src/config/config.service.ts:901-916 | the config-map groups that are merged are exactly the groups of the active revisions of the given config maps |
| PayloadTheorems.RefreshAgreesIff | apps/upload/src/config/config.service.ts:797-849 | the same for a refresh and the draft it publishes |
| PayloadTheorems.ProvisionAgreesIff | apps/upload/src/config/config.service.ts:676-728 | the same for provisioning |
| PayloadTheorems.RefreshAgrees | apps/upload/src/config/config.service.ts:797-849 | with one global flag per group name, and the device types queried for the payload among those known when populating (none after a failed query included), a refresh always caches the rebuilt payload |
| PayloadTheorems.ProvisionAgrees | apps/upload/src/config/config.service.ts:676-728 | likewise provisioning |
| ConfigWitnesses.FlagsMatterInRuns | apps/upload/src/config/config.service.ts:338-390 | a run from the empty engine after which a refresh, and likewise a publish, caches a payload that is not the rebuilt one, because flags differ |
| ConfigRuns.StepKeeps | apps/upload/src/config/config.service.ts:233-332 | every operation keeps the ownership of references and freezes published rows and their secrets |
| ConfigRuns.RunKeeps | apps/upload/src/config/config.service.ts:199-849 | the same over every run in which references a client sends name secrets of the group it edits, of published groups or of no group |
| ConfigTheorems.ReachableInv | apps/upload/src/config/config.service.ts:199-849 | every state such a run reaches from the empty engine satisfies the whole invariant; every run in which devices are provisioned before they have an active revision, whatever references clients send, satisfies what does not turn on references |
| ConfigIds.RunGiven | apps/upload/src/config/config.service.ts:199-849 | over every run, for all references: groups of a draft have distinct ids given out already, and Vault holds no secret of an id that is not |
| VaultWrites.WritesKeepIff | apps/upload/src/config/config.service.ts:1163-1184 | writes told from the state before an operation keep the resolved content of a group if and only if none of its sensitive paths names a secret that reads differently after them |
| VaultWrites.StoreDoes | apps/upload/src/config/config.service.ts:276-296 | the store loop changes Vault by exactly the last text per secret name that a function of the client's tree and keys gives, which never reads Vault |
| VaultWrites.PopulateDoes | apps/upload/src/config/config.service.ts:942-985 | populating changes Vault by exactly the drops and last texts that a function of the draft and the merged groups gives |
| ContentKept.UpsertKeepsIff | apps/upload/src/config/config.service.ts:233-301 | for all references: an upsert keeps the resolved content of every published group if and only if none of their sensitive paths names a secret under which the upsert last stores a text other than Vault holds |
| ContentKept.DeleteGroupKeepsIff | apps/upload/src/config/config.service.ts:303-332 | deleting a draft group keeps them if and only if none has a sensitive path that resolves through one of its secrets |
| ContentKept.DeleteDraftKeepsIff | apps/upload/src/config/config.service.ts:474-495 | the same for deleting a draft revision |
| CloneWrites.ClonesKeepIff | apps/upload/src/config/config.service.ts:1186-1231 | cloning groups keeps the contents of a set of groups that includes the sources if and only if no sensitive path in the set names, before the clones exist, a secret they will store |
| ContentKept.CreateDraftKeepsIff | apps/upload/src/config/config.service.ts:425-472 | so opening a draft keeps the published contents exactly then |
| ContentKept.ProvisionKeepsIff | apps/upload/src/config/config.service.ts:676-728 | provisioning keeps them if and only if none of their sensitive paths names a secret that populating drops or stores another text under |
| ContentKept.RefreshKeepsIff | apps/upload/src/config/config.service.ts:797-849 | a refresh keeps them if and only if none of their sensitive paths names a secret populating changes, or one the clones of the missing groups will store |
| HarmlessRuns.StepKeepsPublishedIff | apps/upload/src/config/config.service.ts:199-849 | for all operations and all references, told from the state before: a step keeps the resolved content of every published group if and only if the operation is harmless in that sense |
| HarmlessRuns.HarmlessRunKeeps | apps/upload/src/config/config.service.ts:199-849 | over every run of harmless operations, whatever references they carry, published rows and contents never change |
| ConfigTheorems.PublishedIsFrozen | apps/upload/src/config/config.service.ts:233-332 | groups, version and resolved contents of a published revision never change, over every run with references to the edited group, to published groups or to no group, and over every run of harmless operations |
| ConfigTheorems.RebuildIsStable | apps/upload/src/config/config.service.ts:1040-1062 | over every such run the payload rebuilt from a published revision stays the same |
| ConfigWitnesses.ForeignReferenceBreaks | apps/upload/src/config/config.service.ts:276-332 | a run from the empty engine in which a reference to another project's draft secret is published and the deletion of that draft group empties the published value |
| ConfigWitnesses.ForeignUpsertChanges | apps/upload/src/config/config.service.ts:276-296 | the same run ending in an upsert of that draft group, which changes the published value |
| ConfigTheorems.CreateDraftAlike | apps/upload/src/config/config.service.ts:425-472 | a new draft has a clone of every active group with its global flag and sensitive keys, which resolves like it if and only if keys sharing a secret name resolve alike and no re-stored key contains `/`: for all references to ids given out where the group resolves directly; with owned references the condition is enough for repeated paths too |
| ConfigTheorems.OpenedDraftRebuilds | apps/upload/src/config/config.service.ts:425-472 | so a draft opened while every active group is clonable in that sense has one copy of each, in order, with its name, global flag and sensitive keys, and rebuilds to the payload of the active revision |
| ConfigTheorems.RefreshAlike | apps/upload/src/config/config.service.ts:797-838 | a refresh publishes a clone of every previous active group the config maps do not bring, with its global flag and sensitive keys, which resolves like it under the same condition where populating does not disturb the group |
| CloneWitness.CloneLosesInRun | apps/upload/src/config/config.service.ts:1186-1231 | a run with plain client values in which two sensitive values are published and the draft opened next reads one of them twice |
| ConfigTheorems.LossIff | apps/upload/src/config/config.service.ts:1020-1063 | after any further such run, losing the cache and reading by version gives the payload that was cached if and only if that was the one rebuilt from its revision |
| ConfigTheorems.ApplyLossIff | apps/upload/src/config/config.service.ts:372-382 | so for a payload cached by `applyRevision` exactly when overlaying the config maps changed nothing then |
| ConfigTheorems.RefreshLossIff | apps/upload/src/config/config.service.ts:797-849 | the same for a payload cached by a refresh |
| ConfigTheorems.CurrentAfterLossIff | apps/upload/src/config/config.service.ts:991-1018 | losing the cache and reading the current payload gives back a rebuilt payload exactly when the config maps of that moment bring nothing that shows |
| ConfigService.ConfigService.GetOrCreateDraftRevision | apps/upload/src/config/config.service.ts:199-218 | returns the draft's place; the table gains a draft row exactly when there was none |
| ConfigService.ConfigService.UpsertGroup | apps/upload/src/config/config.service.ts:233-301 | tables and Vault become what the upsert function says, whose meaning is `OperationLaws.UpsertGroupMeans` |
| ConfigService.ConfigService.DeleteGroup | apps/upload/src/config/config.service.ts:303-315 | the same for deletion; an unknown group leaves only the draft that was created |
| ConfigService.ConfigService.DeleteGroupVaultSecrets | apps/upload/src/config/config.service.ts:317-332 | only Vault changes, by the deletion of the group's own secrets |
| ConfigService.ConfigService.ApplyRevision | apps/upload/src/config/config.service.ts:338-390 | archive, publish under the computed version and, for a device project, cache the payload |
| ConfigService.ConfigService.PublishDraft | apps/upload/src/config/config.service.ts:344-370 | the published row, its version and the archived predecessors |
| ConfigService.ConfigService.CreateDraftRevision | apps/upload/src/config/config.service.ts:425-472 | a second draft is refused; the source is the active revision or else the latest archived one |
| ConfigService.ConfigService.DeleteDraftRevision | apps/upload/src/config/config.service.ts:474-495 | the draft and the secrets of its groups go |
| ConfigService.ConfigService.PopulateDraftFromConfigMaps | apps/upload/src/config/config.service.ts:901-985 | the two loops over config-map groups compute the populated draft |
| ConfigService.ConfigService.MergeConfigMaps | apps/upload/src/config/config.service.ts:922-940 | the loop that merges resolved config-map groups by name computes the merged groups of `MergeLaws.MergedAllFrom` |
| ConfigService.ConfigService.CloneGroupToRevision | apps/upload/src/config/config.service.ts:1186-1231 | one clone is appended with its re-stored secrets, the copy of `CloneContents.CloneAlike` |
| ConfigService.ConfigService.RefreshConfigProjectRevision | apps/upload/src/config/config.service.ts:797-849 | populate, clone what is missing, publish, open the next draft, cache |
| ConfigService.ConfigService.ProvisionProjectContent | apps/upload/src/config/config.service.ts:676-728 | defaults, populate for the known device types, publish as 1.0.0, open the next draft, cache for the types queried then |
| ConfigService.ConfigService.BuildDeviceConfigPayload | apps/upload/src/config/config.service.ts:1069-1156 | the layering loops compute the live payload and change nothing |
| ConfigService.ConfigService.GetDeviceConfig | apps/upload/src/config/config.service.ts:991-1018 | a cached payload is returned, otherwise the live one is built and cached |
| ConfigService.ConfigService.GetDeviceConfigByVersion | apps/upload/src/config/config.service.ts:1020-1063 | a cached payload is returned, otherwise the first revision of that version is rebuilt and cached |
| ConfigService.ConfigService.CollectGlobals | apps/upload/src/config/config.service.ts:1287-1295 | later global groups win key by key |
| ConfigService.ConfigService.MapGroupToDto | apps/upload/src/config/config.service.ts:1297-1309 | the masked view of a group |
| Associations.CollectCascade | apps/upload/src/config/config.service.ts:731-747 | the loops collect exactly the devices named directly and those of the named types |
| Associations.MapIdsHas | apps/upload/src/config/config.service.ts:901-914 | the config maps a device reads are exactly those of the rows that apply to it |
| Associations.CascadeIsLookupIff | apps/upload/src/config/config.service.ts:731-747 | for rows as the API creates them, a device is in the cascade set exactly when the map is among those it reads, for all devices and hierarchies, if and only if every row names a device type or a device |
| Associations.AddReachesAllNew | apps/upload/src/config/config.service.ts:766-779 | refreshing only the newly associated devices reaches every device the addition brought |
| Associations.AddedRows | apps/upload/src/config/config.service.ts:501-576 | an addition keeps all rows and adds one for each target of the call that had none, so that every target has one |
| Associations.StepKeepsSoundIff | libs/common/src/database/entities/config-map-association.entity.ts:31-36 | every table operation keeps rows that name a target, except deleting a device type that some row names, which sets that row to apply to everyone |
| Associations.RunsStayInverse | apps/upload/src/config/config.service.ts:901-916 | over every run of additions, removals and device deletions the cascade and the lookup stay inverse |
| Associations.AssociationTable.Add | apps/upload/src/config/config.service.ts:501-576 | one row per new target, existing ones are not repeated, and the newly associated targets are returned |
| Associations.AssociationTable.Remove | apps/upload/src/config/config.service.ts:579-584 | exactly the named row goes |
| FileReadiness.FilesUploadedIff | apps/upload/src/file-upload.service.ts:122-130 | counting rows is exact: the check passes if and only if the ids are distinct and all UPLOADED |
| FileReadiness.ReadyMeansStored | apps/upload/src/releases.service.ts:782-794 | when the readiness check passes with file artifacts, every upload is UPLOADED and its object existed when checked |
| FileReadiness.ReadyIff | apps/upload/src/releases.service.ts:782-794 | a release is ready if and only if it has an installation artifact and, with installation files, their uploads are distinct, UPLOADED and stored |
| FileReadiness.FileIdsIff | apps/upload/src/releases.service.ts:777-780 | the uploads looked at are exactly those of installation artifacts that are files |
| FileReadiness.SyncedRow | apps/upload/src/file-upload.service.ts:140-172 | the sync makes exactly the rows REMOVED that are asked for and whose object, looked for in the own bucket when the row names none, is gone |
| FileReadiness.FileUploadService.SyncAndCheckMissingFiles | apps/upload/src/file-upload.service.ts:140-172 | exactly the rows among the ids whose object is gone become REMOVED, and the flag says whether there was one |
| FileReadiness.FileUploadService.AreFilesUploaded | apps/upload/src/file-upload.service.ts:122-130 | the count comparison, by row set |
| ReleaseCascade.StepKeepsConsistent | apps/upload/src/releases.service.ts:729-859 | refreshing any pending release keeps every release outside the pending set settled: under review or released, it is RELEASED exactly when its facts allow it; dependency cycles included |
| ReleaseCascade.RunSettles | apps/upload/src/releases.service.ts:729-859 | so after any run in any order, and for all releases once nothing is pending |
| ReleaseCascade.ReleasedIff | apps/upload/src/releases.service.ts:740-859 | then a release under review or released is RELEASED if and only if the first status reported for every regulation says it is met, and either it has dependencies and all are RELEASED or it has an installation artifact and its installation files, if any, are distinct, UPLOADED and stored |
| ReleaseCascade.RefreshStatus | apps/upload/src/releases.service.ts:769-856 | one refresh: a RELEASED release stays so exactly under that condition and else goes to ERROR if an object of its files is gone, to IN_REVIEW otherwise; one under review is RELEASED exactly under it; other statuses stay; exactly a new status queues the dependents |
| ReleaseCascade.RefreshCounts | apps/upload/src/releases.service.ts:740-766 | a refresh writes the number of regulations as required and the number of places whose regulation the first reported status says is met as compliant, unless the release is RELEASED, when both stay, or final, when nothing changes; a release it makes RELEASED shows both numbers equal |
| ReleaseCascade.RunCounts | apps/upload/src/releases.service.ts:740-766 | over every run each row shows the counts it had or those of its facts, and never becomes a row with more compliant than required |
| ReleaseCascade.StepShrinks | apps/upload/src/releases.service.ts:800-856 | every step shrinks the summed weight of the pending releases |
| ReleaseCascade.RunsAreBounded | apps/upload/src/releases.service.ts:800-856 | on an acyclic graph no run is longer than that weight at the start, in any processing order |
| CascadeLimits.CircleNeverStops | apps/upload/src/releases.service.ts:800-856 | on a circle of any three or more compliant releases without files, with no other arcs among them and any arcs to the outside, valid runs of every even length exist |
| CascadeLimits.RingNeverStops | apps/upload/src/releases.service.ts:800-856 | for every length from three on there is such a circle in a consistent state, and even queue order never ends on it |
| CascadeLimits.PairStops | apps/upload/src/releases.service.ts:800-856 | in any world every run refreshes two such releases that depend on each other only at most once more than they were queued, although no rank exists: acyclicity is enough for stopping but not needed |
| CascadeLimits.OnlyThePair | apps/upload/src/releases.service.ts:800-856 | where there are only the two, that bounds the whole run |
| ReleaseCascade.OrderDoesNotMatter | apps/upload/src/releases.service.ts:769-856 | when no release under review or released that depends on others has an installation file missing and the graph is acyclic, two complete runs end with the same status for every release |
| CascadeLimits.OrderMattersWhenMissing | apps/upload/src/releases.service.ts:800-813 | a world with a missing file in which two orders end differently |
| ReleaseCascade.ReadyStable | apps/upload/src/releases.service.ts:784-794 | checking one release's files changes the readiness of no release |
| ReleaseCascade.AllCompliant | apps/upload/src/releases.service.ts:744-754 | the compliance counter equals the number of regulations exactly when all are met |
| ReleaseCascade.ReleaseService.RefreshReleaseState | apps/upload/src/releases.service.ts:729-859 | rows, uploads and queue become what one transition says |
| ReleaseCascade.ReleaseService.ProcessPending | apps/upload/src/releases.service.ts:808-813 | taking any queued release and refreshing it is one step of a run |
| ReleaseCascade.ReleaseService.CountCompliant | apps/upload/src/releases.service.ts:744-754 | the loop computes the flag and the count |
| ReleaseCascade.ReleaseService.CheckFiles | apps/upload/src/releases.service.ts:775-794 | sync first, then the check; the missing flag and the readiness as defined on the state before |
| SemanticVersion.CompareLaws | libs/common/src/database/subscribers/release.subscriber.ts:45-45 | precedence by section 11 of Semantic Versioning 2.0.0 is a strict total order on parsed versions |
| SemanticVersion.PrecedenceIff | libs/common/src/database/subscribers/release.subscriber.ts:45-45 | and it is that of section 11: major, minor and patch by number, a pre-release before the release, identifiers by the first difference, numeric ones by number and below others, those by character code, and fewer before more |
| ReleaseOrder.InsertKeepsFaithful | libs/common/src/database/subscribers/release.subscriber.ts:24-63 | inserting a version keeps, in every project, sort orders distinct, at least 1 and increasing with precedence, although the shift touches all projects |
| ReleaseOrder.InsertedAt | libs/common/src/database/subscribers/release.subscriber.ts:24-63 | every other row stays with its sort order, moved up by one from the new place on |
| ReleaseOrder.NewSortOrderFits | libs/common/src/database/subscribers/release.subscriber.ts:37-48 | the new sort order lies above every preceding and at or below every following version of the project |
| ReleaseOrder.RunsStayFaithful | libs/common/src/database/subscribers/release.subscriber.ts:24-63 | over every run of insertions in any order, deletions and status changes |
| ReleaseOrder.LatestIsMaximal | apps/upload/src/releases.service.ts:368-389 | exactly one row of the project is flagged, no released version is later, other projects are untouched, and it is the release the change event reports |
| ReleaseOrder.LatestFlags | apps/upload/src/releases.service.ts:368-389 | for any rows: exactly one row of the project is flagged if one is released and none otherwise, no released one is sorted above it, and nothing but flags of the project changes |
| ReleaseOrder.ReleaseTable.InsertRelease | libs/common/src/database/subscribers/release.subscriber.ts:24-63 | insert, find the place, shift, and set the sort order |
| ReleaseOrder.ReleaseTable.ShiftFrom | libs/common/src/database/subscribers/release.subscriber.ts:53-58 | every row at or above the place moves up by one, in all projects |
| ReleaseOrder.ReleaseTable.UpdateLatestForProject | apps/upload/src/releases.service.ts:368-389 | the flag moves to the released row with the highest sort order |
| ReleaseOrder.ReleaseTable.GetLatestAndUpcomingReleases | apps/upload/src/releases.service.ts:695-713 | the scan stops at the first released row and remembers the first draft or in-review row before it |
| JobLock.SafeIffGap | libs/common/src/safe-cron/safe-cron.service.ts:67-170 | with whole-second start times every run keeps at most one live holder per job, its row the last, not ended and not expired, if and only if heartbeats are at most 299.501 s apart |
| JobLock.ExclusiveIffGap | libs/common/src/safe-cron/safe-cron.service.ts:67-170 | mutual exclusion alone holds in every run up to exactly the same distance: beyond it two live processes can hold one job |
| JobLock.HeartbeatIsSafe | libs/common/src/safe-cron/timeout-repeated-task.decorator.ts:43-58 | so the four-minute heartbeat is safe in every reachable state |
| JobLock.StepKeeps | libs/common/src/safe-cron/safe-cron.service.ts:67-170 | acquire, heartbeat, release, crash and clock ticks keep the invariant behind it |
| JobLock.RenewedTable | libs/common/src/safe-cron/safe-cron.service.ts:113-131 | a heartbeat of a running job never meets the unique constraint and keeps its row the last |
| JobLock.AcquiresIff | libs/common/src/safe-cron/safe-cron.service.ts:88-111 | an attempt succeeds if and only if the job has no row, or its last row is ended or expired and starts in another second |
| JobLock.ReleaseFrees | libs/common/src/safe-cron/safe-cron.service.ts:137-147 | a release by a holder leaves the job without a holder, and its last row, which still shows the last heartbeat, ended now |
| JobLock.ReleasedIsFree | libs/common/src/safe-cron/safe-cron.service.ts:31-47 | in every run, from a release until the job is taken over, an attempt by anyone succeeds if and only if it does not fall into the rounded second of the last heartbeat before the release |
| JobLock.BlockedAtMostTimeout | libs/common/src/safe-cron/safe-cron.service.ts:161-163 | once no live holder is left, others are blocked for at most the five-minute timeout plus half a second of rounding |
| JobLock.CrashUnholds | libs/common/src/safe-cron/safe-cron.service.ts:67-84 | a crash of the holder leaves the job without a live holder |
| JobLock.RaceIff | libs/common/src/database/entities/map-updatesCronJob.ts:4-17 | two attempts that both pass the check before inserting are separated by the unique constraint exactly when they fall into the same rounded second |
| JobLock.JobRepository.FindLastJob | libs/common/src/safe-cron/safe-cron.service.ts:154-159 | the row of the job with the latest start |
| JobLock.SafeCronService.IsJobRunning | libs/common/src/safe-cron/safe-cron.service.ts:67-82 | last row present, not expired and not ended |
| JobLock.SafeCronService.AcquireLock | libs/common/src/safe-cron/safe-cron.service.ts:31-47 | row inserted and lock remembered exactly when the attempt succeeds |
| JobLock.SafeCronService.UpdateJobStartTime | libs/common/src/safe-cron/safe-cron.service.ts:113-131 | only the last running row gets a new start |
| JobLock.SafeCronService.ReleaseLock | libs/common/src/safe-cron/safe-cron.service.ts:137-147 | the last row is ended, whoever wrote it |
| JobLock.SafeCronService.HandleShutdown | libs/common/src/safe-cron/safe-cron.service.ts:166-170 | ends the last row of every job this process acquired, and no other row |
| DeploymentReport.BuildReport | apps/upload/src/releases.service.ts:1285-1400 | the three loops give every device the entry its rows call for, as `EntryStatus` and the name laws say, and the counts follow from the rows |
| DeploymentReport.EntryStatus | apps/upload/src/releases.service.ts:1285-1358 | a device has an entry exactly if a row that is not cancelled, deleted or uninstalled names it or there is an offering; status and time of each kind are those of its last such row, or missing without one |
| DeploymentReport.EntryNameDelivered | apps/upload/src/releases.service.ts:1289-1308 | the name of an entry is that of the first such delivery row, if that has one |
| DeploymentReport.EntryNameDeployed | apps/upload/src/releases.service.ts:1310-1336 | otherwise that of the first such deploy row with a name |
| DeploymentReport.EntryNameElse | apps/upload/src/releases.service.ts:1338-1352 | otherwise none, or that of the first offering for an entry made by offerings alone |
| DeploymentReport.DownloadedWithinTotalIff | apps/upload/src/releases.service.ts:1360-1375 | the downloaded count is within the total exactly when no DONE row lacks a device or some device of the report is not DONE |
| DeploymentReport.InstalledWithinTotalIff | apps/upload/src/releases.service.ts:1366-1375 | the same for the installed count |
| DeploymentReport.CountsAddUpIff | apps/upload/src/releases.service.ts:1360-1382 | the total is at most downloaded plus pending, with equality exactly when each DONE row has a device and any later live row of that device with another status is followed by a DONE row |
| DeploymentReport.OneRowPerDevice | apps/upload/src/releases.service.ts:1289-1308 | a DONE row that is the only delivery row of its device is never superseded, so with at most one delivery row per device the counts add up |
| DeploymentReport.CountsConserved | apps/upload/src/releases.service.ts:1360-1394 | when every row carries a device: both counts within the total, the total covered, the percentage within 0..100 |
| DeploymentReport.PercentageMeaning | apps/upload/src/releases.service.ts:1384-1397 | the percentage is within half a hundredth of the ratio and, below twenty thousand devices, reads 100 only when every device is installed |
| Policies.GetPoliciesForReleases | apps/upload/src/policy.service.ts:127-153 | one list per requested id, each with the visible policies that carry a row of that release, in query order and without repeats |
| Policies.BulkRefinesSingle | apps/upload/src/policy.service.ts:109-153 | for every rule list and id list the bulk answer is the single answer, policy by policy in the same order, up to the listed releases |
| Policies.BulkEqualsSingleIff | libs/common/src/rules/services/rule.service.ts:240-252 | the answers are equal in every field if and only if no visible policy of the release belongs to a second queried release, because each query joins only the rows it filters for |
| Policies.EmptyIdIff | libs/common/src/rules/services/rule.service.ts:211-213 | for the empty id the single query has no release filter; the answers agree only when no policy is visible at all |
| Policies.DeliveredMeaning | apps/upload/src/policy.service.ts:109-120 | a definition is delivered exactly for a policy of the release that is no disabled push policy, active only if active and not push |
| Policies.OfReleasesHas | libs/common/src/rules/services/rule.service.ts:211-213 | a joined query keeps exactly the association rows of the releases asked for |

## Left out

- Text of YAML, JSON and versions: documents are parsed trees, `load` and `dump` are inverse and an empty document dumps to null; `M.m.p` is a triple; `semver.valid` with its parse is a parameter.
- Arrays and other non-objects are opaque leaves, and a path through one reads and deletes as absent; writing a property onto an array, string indices and `length`, `__proto__` and other inherited keys are not modelled.
- SecretLaws.MaskedRoundTrip: takes sensitive paths that do not continue below a string. With content `a: secret` and sensitive path `a.length` (or `a.0`) the code finds a value, replaces the string by an object to mask it, and the round trip loses the string. The same holds of MaskedView and of the other laws of the secret loops.
- The order of keys: values are compared by their JSON text up to it, so a change of key order alone, which the code sees as a minor change, is no change in the model.
- TreeInPlace.SetByPath: takes an object value that hangs nowhere, or, since the forest is a proof device, the part of another document below that object; that two documents share the object from then on, as the unmask loop of an upsert leaves it until the stored document is dropped, is not followed.
- YAML aliases: parsed documents share no objects.
- `displayName`, `gitFilePath`, group positions, row ids of revisions, `appliedAt`, `releasedAt` and `computedAt`.
- `requireProject` and the project cache: a project exists when the state has rows for it; types, permissions and remote calls are not modelled, and the device types of a device are a parameter of each operation.
- UpsertLaws.UpsertMeans: says what one sensitive key holds and shows where no other listed key lies above or below it, and what a plain value reads back as where no other listed key shares its secret name. For whole documents `StoreThenResolveTree`, `MaskedRoundTrip` and `ViewSentBack` take any list of keys.
- PublishedMaps.RefreshPublishesMaps: the same of the sensitive keys of a merged group; its whole document, for any keys, where the present sensitive values are strings and no references.
- ConfigRuns.RunKeeps: takes devices provisioned before they have an active revision, and references from clients that name secrets of the edited group, of published groups or of no group; `InitialPublishKeepsIff`, `ForeignReferenceBreaks` and `ForeignUpsertChanges` show why. All other references are covered by the row-level theorems, by `StepKeepsPublishedIff` and by `HarmlessRunKeeps`.
- HarmlessRuns.StepKeepsPublishedIff: where a published group lists a sensitive path twice, takes references that resolve to texts which are no references, and populating that stores none, as do the theorems per operation behind it.
- RowTheorems.CacheIsWriteOnce: takes a cache that loses nothing on its own; `LossIff` and `CurrentAfterLossIff` say what a loss does. Failed cache writes, which are logged and dropped, are not modelled.
- Vault requests that fail are merged with a null result, and custom metadata is not modelled.
- Cascades to devices are separate refresh operations of a run, in any order; their fire-and-forget scheduling and interleavings inside one operation are not modelled.
- `updateConfigProjectRelease`, which creates catalog releases and offerings for a published config.
- The order of rows in queries without `ORDER BY` is the order of the model's tables; config-map revisions come in association order.
- Removing an association is by index instead of row id.
- ReleaseCascade.OrderDoesNotMatter: takes an acyclic graph; what circles do is in `CascadeLimits`.
- ReleaseCascade.RunSettles: facts, regulations and the object store are fixed while the cascade runs. Draft and approval transitions, `maybeRestoreReleasedStatus`, archiving and the storage sync routines, which change status without re-queuing dependents, are not steps of the model.
- ReleaseCascade.ReleaseService.RefreshReleaseState: does not send events or move the latest pointer, which `ReleaseOrder` models.
- JavaScript's in-place `sort` is a stable sort function; database rows are sequences.
- ReleaseOrder.LatestIsMaximal: needs a released row with a valid version, since rows with invalid versions all stay at sort order 0 and the query may pick any of them.
- JobLock.SafeIffGap: check and insert are one step; `RaceIff` says what the two-query race does. Database errors, and a process that stalls longer than its heartbeat interval, are not modelled.
- DeploymentReport.PercentageMeaning: uses exact reals, not floating point.
- DeploymentReport.BuildReport: a device is an id or nothing, and an empty name is no name; null, undefined and empty device values are one missing value.
- Policies: fields that are only copied are one opaque field, and the fixed order of the query is the order of the rule list.
- MinIO, Kafka, HTTP, Keycloak, mail, Docker and SBOM calls, controllers, DTO mapping, guards and migrations.
