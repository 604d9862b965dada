/** The config engine's state (revision rows with their groups, config-map associations, Vault,
    the versioned cache) and its operations as functions on that state. */
module ConfigDb {
  import opened Options
  import opened Tree
  import opened Vault
  import opened ConfigModel
  import opened Revisions
  import opened DraftEdits
  import opened Payload

  /** A device's CONFIG project is the one named `config:` and the device id. */
  datatype Project = DeviceConfig(deviceId: string) | PlainConfig(id: nat) | ConfigMap(id: nat)

  /** A row of `config_map_association`. */
  datatype Assoc = Assoc(mapId: nat, typeId: Option<nat>, deviceId: Option<string>, configId: Option<nat>)

  datatype DevicePayload = DevicePayload(semVer: Option<Version>, groups: map<string, Fields>)

  datatype Db = Db(
    revisions: map<Project, seq<Revision>>,
    assocs: seq<Assoc>,
    secrets: Secrets,
    nextGroupId: nat,
    cache: map<(string, Version), DevicePayload>)

  datatype Outcome = Done | NotFound | AlreadyExists

  function RevisionsOf(db: Db, p: Project): seq<Revision> {
    if p in db.revisions then db.revisions[p] else []
  }

  // ---------------------------------------------------------------------------------------
  // Which config maps apply to a device
  // ---------------------------------------------------------------------------------------

  /** The where-clause shared by the queries for a device with the given device types. */
  predicate Applies(a: Assoc, deviceId: string, typeIds: set<nat>) {
    || (a.typeId.None? && a.deviceId.None? && a.configId.None?)
    || (a.typeId.Some? && a.typeId.value in typeIds)
    || a.deviceId == Some(deviceId)
  }

  /** The config maps of the applicable associations, each once, in order. */
  function MapIds(assocs: seq<Assoc>, deviceId: string, typeIds: set<nat>): seq<nat> {
    if assocs == [] then []
    else
      var n := |assocs| - 1;
      var front := MapIds(assocs[..n], deviceId, typeIds);
      if Applies(assocs[n], deviceId, typeIds) && assocs[n].mapId !in front then front + [assocs[n].mapId] else front
  }

  /** The groups of the active revisions of the given config maps, revision after revision. */
  function GroupsOfMaps(revisions: map<Project, seq<Revision>>, ids: seq<nat>): seq<Group> {
    if ids == [] then []
    else
      var n := |ids| - 1;
      GroupsOfMaps(revisions, ids[..n]) + (if ConfigMap(ids[n]) in revisions
                                           then ActiveGroups(revisions[ConfigMap(ids[n])]) else [])
  }

  function MapGroups(db: Db, deviceId: string, typeIds: set<nat>): seq<Group> {
    GroupsOfMaps(db.revisions, MapIds(db.assocs, deviceId, typeIds))
  }

  // ---------------------------------------------------------------------------------------
  // Group operations on the draft
  // ---------------------------------------------------------------------------------------

  function DraftOf(db: Db, revs: seq<Revision>): DraftState {
    DraftState(db.secrets, db.nextGroupId, DraftGroups(revs))
  }

  /** Writing an edited draft back: `revs` are the project's rows, which have a draft. */
  function WithDraft(db: Db, p: Project, revs: seq<Revision>, d: DraftState): Db
    requires FindStatus(revs, Draft) >= 0
  {
    db.(revisions := db.revisions[p := WithDraftGroups(revs, d.groups)], secrets := d.secrets, nextGroupId := d.nextId)
  }

  /** `upsertGroup`. */
  function Upsert(e: Engine, db: Db, p: Project, dto: UpsertDto): (Db, Outcome) {
    if p !in db.revisions then (db, NotFound)
    else
      var revs := EnsureDraft(db.revisions[p]);
      (WithDraft(db, p, revs, Upserted(e.vault, DraftOf(db, revs), dto)), Done)
  }

  /** `deleteGroup`; the draft it creates on the way stays even when the group is not found. */
  function DeleteGroup(e: Engine, db: Db, p: Project, name: string): (Db, Outcome) {
    if p !in db.revisions then (db, NotFound)
    else
      var revs := EnsureDraft(db.revisions[p]);
      var i := FindGroup(DraftGroups(revs), name);
      if i < 0 then (db.(revisions := db.revisions[p := revs]), NotFound)
      else (WithDraft(db, p, revs, Removed(e.vault, DraftOf(db, revs), i)), Done)
  }

  /** The archived revision with the highest number, or -1. */
  function LatestArchived(revs: seq<Revision>): (i: int)
    ensures -1 <= i < |revs|
    ensures i >= 0 ==> revs[i].status == Archived
    ensures forall j | 0 <= j < |revs| && revs[j].status == Archived :: i >= 0 && revs[j].number <= revs[i].number
  {
    if revs == [] then -1
    else
      var n := |revs| - 1;
      var i := LatestArchived(revs[..n]);
      if revs[n].status == Archived && (i < 0 || revs[n].number > revs[i].number) then n else i
  }

  /** The groups of the active revision, or else of the latest archived one. */
  function SourceGroups(revs: seq<Revision>): seq<Group> {
    if FindStatus(revs, Active) >= 0 then ActiveGroups(revs)
    else if LatestArchived(revs) >= 0 then revs[LatestArchived(revs)].groups
    else []
  }

  /** `createDraftRevision`. */
  function CreateDraft(e: Engine, db: Db, p: Project): (Db, Outcome) {
    if p !in db.revisions then (db, NotFound)
    else if FindStatus(db.revisions[p], Draft) >= 0 then (db, AlreadyExists)
    else
      var revs := EnsureDraft(db.revisions[p]);
      (WithDraft(db, p, revs, ClonedMissing(e.vault, DraftState(db.secrets, db.nextGroupId, []),
                                            SourceGroups(db.revisions[p]), {})), Done)
  }

  /** `deleteDraftRevision`. */
  function DeleteDraft(e: Engine, db: Db, p: Project): (Db, Outcome) {
    if p !in db.revisions || FindStatus(db.revisions[p], Draft) < 0 then (db, NotFound)
    else
      var revs := db.revisions[p];
      (db.(revisions := db.revisions[p := WithoutDraft(revs)],
           secrets := AllSecretsDropped(e.vault, db.secrets, DraftGroups(revs))), Done)
  }

  // ---------------------------------------------------------------------------------------
  // Publishing
  // ---------------------------------------------------------------------------------------

  /** `buildDeviceConfigPayload`. */
  function Live(e: Engine, db: Db, deviceId: string, typeIds: set<nat>): DevicePayload {
    var revs := RevisionsOf(db, DeviceConfig(deviceId));
    DevicePayload(ActiveVersion(revs),
                  LiveGroups(e.vault, db.secrets, MapGroups(db, deviceId, typeIds), ActiveGroups(revs)))
  }

  /** `assembleAndCacheDeviceConfig`. */
  function Cached(e: Engine, db: Db, deviceId: string, typeIds: set<nat>, version: Version): Db {
    db.(cache := db.cache[(deviceId, version) := Live(e, db, deviceId, typeIds)])
  }

  /** `applyRevision`; the cascade to devices that follows for a config map is a series of
      `Refresh` operations. */
  function Apply(e: Engine, db: Db, p: Project, typeIds: set<nat>): (Db, Outcome) {
    if p !in db.revisions || FindStatus(db.revisions[p], Draft) < 0 then (db, NotFound)
    else
      var db' := db.(revisions := db.revisions[p := Applied(db.revisions[p])]);
      (if p.DeviceConfig? then Cached(e, db', p.deviceId, typeIds, NextVersionOf(db.revisions[p])) else db', Done)
  }

  /** Publishing an edited draft of a device's project, opening the next draft, caching the payload. */
  function PublishedAs(e: Engine, db: Db, deviceId: string, typeIds: set<nat>, published: seq<Revision>, number: nat,
                       version: Version): Db {
    Cached(e, db.(revisions := db.revisions[DeviceConfig(deviceId) := WithNextDraft(published, number)]), deviceId,
           typeIds, version)
  }

  /** The draft `provisionProjectContent` publishes. */
  function ProvisionedDraft(e: Engine, db: Db, revs: seq<Revision>, deviceId: string, known: set<nat>): DraftState {
    Populated(e, WithDefaults(DraftOf(db, revs)), MapGroups(db, deviceId, known))
  }

  /** `provisionProjectContent`: the draft is populated for the device types the caller knows, the
      payload is built for those the device service answers then, none when it fails. */
  function Provision(e: Engine, db: Db, deviceId: string, known: set<nat>, queried: set<nat>): Db {
    var p := DeviceConfig(deviceId);
    var revs := EnsureDraft(RevisionsOf(db, p));
    var db1 := WithDraft(db, p, revs, ProvisionedDraft(e, db, revs, deviceId, known));
    EditFindsDraft(revs, ProvisionedDraft(e, db, revs, deviceId, known).groups);
    var revs1 := db1.revisions[p];
    PublishedAs(e, db1, deviceId, queried, Activate(revs1, INITIAL), DraftNumber(revs1), INITIAL)
  }

  /** The draft `refreshConfigProjectRevision` publishes: populated from the config maps, then
      completed with the previous active groups it lacks. */
  function RefreshedDraft(e: Engine, db: Db, revs: seq<Revision>, deviceId: string, known: set<nat>): DraftState {
    var populated := Populated(e, DraftOf(db, revs), MapGroups(db, deviceId, known));
    ClonedMissing(e.vault, populated, ActiveGroups(revs), GroupNames(populated.groups))
  }

  /** `refreshConfigProjectRevision`; the device types are asked for twice, to populate the draft and
      to build the payload. */
  function Refresh(e: Engine, db: Db, deviceId: string, known: set<nat>, queried: set<nat>): (Db, Outcome) {
    var p := DeviceConfig(deviceId);
    if p !in db.revisions then (db, NotFound)
    else
      var revs := EnsureDraft(db.revisions[p]);
      var db1 := WithDraft(db, p, revs, RefreshedDraft(e, db, revs, deviceId, known));
      EditFindsDraft(revs, RefreshedDraft(e, db, revs, deviceId, known).groups);
      var revs1 := db1.revisions[p];
      (PublishedAs(e, db1, deviceId, queried, Applied(revs1), DraftNumber(revs1), NextVersionOf(revs1)), Done)
  }

  /** Only config-map projects matter for the config-map groups of a device. */
  lemma {:induction false} SameMaps(a: map<Project, seq<Revision>>, b: map<Project, seq<Revision>>, ids: seq<nat>)
    requires forall i ::
               (ConfigMap(i) in a <==> ConfigMap(i) in b) && (ConfigMap(i) in a ==> a[ConfigMap(i)] == b[ConfigMap(i)])
    ensures GroupsOfMaps(a, ids) == GroupsOfMaps(b, ids)
  {
    hide ActiveGroups;
    if ids != [] {
      SameMaps(a, b, ids[..|ids| - 1]);
    }
  }

  lemma EditFindsDraft(revs: seq<Revision>, groups: seq<Group>)
    requires FindStatus(revs, Draft) >= 0
    ensures FindStatus(WithDraftGroups(revs, groups), Draft) >= 0
  {
    assert WithDraftGroups(revs, groups)[FindStatus(revs, Draft)].status == Draft;
  }

  // ---------------------------------------------------------------------------------------
  // Reading device payloads
  // ---------------------------------------------------------------------------------------

  /** `getDeviceConfig`. */
  function ReadLatest(e: Engine, db: Db, deviceId: string, typeIds: set<nat>): (Db, DevicePayload) {
    var version := ActiveVersion(RevisionsOf(db, DeviceConfig(deviceId)));
    if version.None? then (db, Live(e, db, deviceId, typeIds))
    else if (deviceId, version.value) in db.cache then (db, db.cache[(deviceId, version.value)])
    else (Cached(e, db, deviceId, typeIds, version.value), Live(e, db, deviceId, typeIds))
  }

  /** The first revision of that version, or -1. */
  function FindVersion(revs: seq<Revision>, version: Version): (i: int)
    ensures -1 <= i < |revs|
    ensures i >= 0 ==> revs[i].semVer == Some(version)
    ensures i < 0 ==> forall j | 0 <= j < |revs| :: revs[j].semVer != Some(version)
    ensures forall j | 0 <= j < i :: revs[j].semVer != Some(version)
  {
    if revs == [] then -1
    else
      var n := |revs| - 1;
      var i := FindVersion(revs[..n], version);
      if i >= 0 then i else if revs[n].semVer == Some(version) then n else -1
  }

  /** The payload `getDeviceConfigByVersion` rebuilds. */
  function Rebuilt(e: Engine, db: Db, r: Revision): DevicePayload {
    DevicePayload(r.semVer, RebuiltGroups(e.vault, db.secrets, r.groups))
  }

  /** `getDeviceConfigByVersion`. */
  function ReadVersion(e: Engine, db: Db, deviceId: string, version: Version): (Db, Option<DevicePayload>) {
    if (deviceId, version) in db.cache then (db, Some(db.cache[(deviceId, version)]))
    else
      var revs := RevisionsOf(db, DeviceConfig(deviceId));
      var i := FindVersion(revs, version);
      if i < 0 then (db, None)
      else
        var payload := Rebuilt(e, db, revs[i]);
        (db.(cache := db.cache[(deviceId, version) := payload]), Some(payload))
  }
}
