/** What every operation keeps of the revision rows and the payload cache, whatever values and
    references clients send. */
module ConfigRows {
  import opened Options
  import opened ConfigModel
  import opened Versioning
  import opened Revisions
  import opened DraftEdits
  import opened DraftNames
  import opened ConfigDb

  /** Every cached version is a published version of the device. */
  ghost predicate CacheOk(db: Db) {
    forall key | key in db.cache :: FindVersion(RevisionsOf(db, DeviceConfig(key.0)), key.1) >= 0
  }

  ghost predicate RowsInv(db: Db) {
    (forall p | p in db.revisions :: Lifecycle(db.revisions[p])) && CacheOk(db)
  }

  /** Published rows are what they were. */
  ghost predicate RowsFrozen(db: Db, db': Db) {
    forall p | p in db.revisions :: p in db'.revisions && Frozen(db.revisions[p], db'.revisions[p])
  }

  // ---------------------------------------------------------------------------------------
  // Operations and runs
  // ---------------------------------------------------------------------------------------

  datatype Op =
    | NewProject(project: Project)
    | Associate(assocs: seq<Assoc>)
    | UpsertGroup(project: Project, dto: UpsertDto)
    | RemoveGroup(project: Project, name: string)
    | ApplyRevision(project: Project, queried: set<nat>)
    | OpenDraft(project: Project)
    | DropDraft(project: Project)
    | ProvisionDevice(deviceId: string, known: set<nat>, queried: set<nat>)
    | RefreshDevice(deviceId: string, known: set<nat>, queried: set<nat>)
    | GetLatest(deviceId: string, queried: set<nat>)
    | GetVersion(deviceId: string, version: Version)

  function Step(e: Engine, db: Db, op: Op): Db {
    match op
    case NewProject(p) => if p in db.revisions then db else db.(revisions := db.revisions[p := []])
    case Associate(assocs) => db.(assocs := assocs)
    case UpsertGroup(p, dto) => Upsert(e, db, p, dto).0
    case RemoveGroup(p, name) => DeleteGroup(e, db, p, name).0
    case ApplyRevision(p, queried) => Apply(e, db, p, queried).0
    case OpenDraft(p) => CreateDraft(e, db, p).0
    case DropDraft(p) => DeleteDraft(e, db, p).0
    case ProvisionDevice(deviceId, known, queried) => Provision(e, db, deviceId, known, queried)
    case RefreshDevice(deviceId, known, queried) => Refresh(e, db, deviceId, known, queried).0
    case GetLatest(deviceId, queried) => ReadLatest(e, db, deviceId, queried).0
    case GetVersion(deviceId, version) => ReadVersion(e, db, deviceId, version).0
  }

  function Run(e: Engine, db: Db, ops: seq<Op>): Db {
    if ops == [] then db else Step(e, Run(e, db, ops[..|ops| - 1]), ops[|ops| - 1])
  }

  /** The empty engine. */
  function Fresh(assocs: seq<Assoc>): Db {
    Db(map[], assocs, map[], 0, map[])
  }

  /** A device is provisioned before it has an active revision. */
  predicate Timely(db: Db, op: Op) {
    op.ProvisionDevice? ==> FindStatus(RevisionsOf(db, DeviceConfig(op.deviceId)), Active) < 0
  }

  predicate TimelyRun(e: Engine, db: Db, ops: seq<Op>) {
    ops != [] ==> TimelyRun(e, db, ops[..|ops| - 1]) && Timely(Run(e, db, ops[..|ops| - 1]), ops[|ops| - 1])
  }

  lemma FreshRows(assocs: seq<Assoc>)
    ensures RowsInv(Fresh(assocs))
  {
  }

  // ---------------------------------------------------------------------------------------
  // Replacing one project's rows
  // ---------------------------------------------------------------------------------------

  lemma EmptyLifecycle()
    ensures Lifecycle([])
  {
  }

  /** The rows of any project, none for an unknown one. */
  lemma RowsOf(db: Db, p: Project)
    requires RowsInv(db)
    ensures Lifecycle(RevisionsOf(db, p)) && UniqueNames(DraftGroups(RevisionsOf(db, p)))
  {
    hide Lifecycle, CacheOk;
    EmptyLifecycle();
    DraftGroupsUnique(RevisionsOf(db, p));
  }

  lemma VersionStays(before: seq<Revision>, after: seq<Revision>, version: Version)
    requires Lifecycle(before) && Frozen(before, after) && FindVersion(before, version) >= 0
    ensures FindVersion(after, version) >= 0
  {
    hide Linked;
    var i := FindVersion(before, version);
    LifecycleFinds(before);
    assert i < |History(before)|;
    assert after[i].semVer == Some(version);
  }

  /** Replacing the rows of one project keeps the invariant when its published rows stay. */
  lemma ReplacedRows(db: Db, db': Db, p: Project, r: seq<Revision>)
    requires RowsInv(db) && Lifecycle(r) && Frozen(RevisionsOf(db, p), r)
    requires db'.revisions == db.revisions[p := r] && db'.cache == db.cache
    ensures RowsInv(db') && RowsFrozen(db, db')
  {
    hide Lifecycle, Frozen, FindVersion;
    RowsOf(db, p);
    forall key | key in db'.cache ensures FindVersion(RevisionsOf(db', DeviceConfig(key.0)), key.1) >= 0 {
      if p == DeviceConfig(key.0) {
        VersionStays(RevisionsOf(db, p), r, key.1);
      }
    }
    forall q | q in db.revisions ensures q in db'.revisions && Frozen(db.revisions[q], db'.revisions[q]) {
      FrozenSelf(db.revisions[q]);
    }
  }

  lemma RowsUnchanged(db: Db, db': Db)
    requires RowsInv(db) && db'.revisions == db.revisions && db'.cache == db.cache
    ensures RowsInv(db') && RowsFrozen(db, db')
  {
    hide Lifecycle, Frozen, FindVersion;
    forall q | q in db.revisions ensures Frozen(db.revisions[q], db.revisions[q]) {
      FrozenSelf(db.revisions[q]);
    }
    forall key | key in db'.cache ensures FindVersion(RevisionsOf(db', DeviceConfig(key.0)), key.1) >= 0 {
      assert RevisionsOf(db', DeviceConfig(key.0)) == RevisionsOf(db, DeviceConfig(key.0));
    }
  }

  /** Adding a cache entry for a published version. */
  lemma CachedRows(db: Db, deviceId: string, version: Version, payload: DevicePayload)
    requires RowsInv(db) && FindVersion(RevisionsOf(db, DeviceConfig(deviceId)), version) >= 0
    ensures var db' := db.(cache := db.cache[(deviceId, version) := payload]); RowsInv(db') && RowsFrozen(db, db')
  {
    hide Lifecycle, Frozen, FindVersion;
    var db' := db.(cache := db.cache[(deviceId, version) := payload]);
    forall q | q in db.revisions ensures Frozen(db.revisions[q], db.revisions[q]) {
      FrozenSelf(db.revisions[q]);
    }
    forall key | key in db'.cache ensures FindVersion(RevisionsOf(db', DeviceConfig(key.0)), key.1) >= 0 {
      assert RevisionsOf(db', DeviceConfig(key.0)) == RevisionsOf(db, DeviceConfig(key.0));
    }
  }

  lemma HistoryGrows(before: seq<Revision>, after: seq<Revision>)
    requires Lifecycle(before) && Lifecycle(after) && Frozen(before, after)
    ensures |History(before)| <= |History(after)|
    ensures forall i | 0 <= i < |History(before)| ::
              && History(after)[i].groups == History(before)[i].groups
              && History(after)[i].semVer == History(before)[i].semVer
  {
    hide Linked, UniqueNames;
    LifecycleFinds(before);
    LifecycleFinds(after);
    var h, h' := History(before), History(after);
    if |after| == |h| && |h| > 0 {
      assert Published(after[|h| - 1]);
    }
    assert forall i | 0 <= i < |h| :: h[i] == before[i] && h'[i] == after[i];
  }

  lemma RowsFrozenTransitive(a: Db, b: Db, c: Db)
    requires RowsInv(a) && RowsInv(b) && RowsFrozen(a, b) && RowsFrozen(b, c)
    ensures RowsFrozen(a, c)
  {
    hide Lifecycle, Frozen, CacheOk;
    forall p | p in a.revisions ensures p in c.revisions && Frozen(a.revisions[p], c.revisions[p]) {
      HistoryGrows(a.revisions[p], b.revisions[p]);
      FrozenTransitive(a.revisions[p], b.revisions[p], c.revisions[p]);
    }
  }

  // ---------------------------------------------------------------------------------------
  // Editing the draft
  // ---------------------------------------------------------------------------------------

  /** The draft an edit of the project starts from. */
  function DraftAt(db: Db, p: Project): DraftState {
    DraftOf(db, EnsureDraft(RevisionsOf(db, p)))
  }

  /** The state with an edited draft written back. */
  function Edited(db: Db, p: Project, d': DraftState): (db': Db)
    ensures p in db'.revisions
  {
    WithDraft(db, p, EnsureDraft(RevisionsOf(db, p)), d')
  }

  /** Writing an edited draft back: the history stays, the draft has the new groups. */
  lemma WithDraftRows(db: Db, p: Project, d': DraftState)
    requires RowsInv(db) && UniqueNames(d'.groups)
    ensures var db' := Edited(db, p, d');
            && RowsInv(db') && RowsFrozen(db, db') && Lifecycle(db'.revisions[p])
            && DraftGroups(db'.revisions[p]) == d'.groups && FindStatus(db'.revisions[p], Draft) >= 0
            && History(db'.revisions[p]) == History(RevisionsOf(db, p))
  {
    hide Lifecycle, Frozen, FindStatus, MaxNumber, History, RowsInv, RowsFrozen, UniqueNames, EnsureDraft,
         WithDraftGroups, DraftGroups;
    var base := RevisionsOf(db, p);
    var revs := EnsureDraft(base);
    RowsOf(db, p);
    EnsureDraftKeeps(base);
    EditKeeps(revs, d'.groups);
    FrozenTransitive(base, revs, WithDraftGroups(revs, d'.groups));
    ReplacedRows(db, Edited(db, p, d'), p, WithDraftGroups(revs, d'.groups));
  }

  /** The draft an edit starts from has unique group names. */
  lemma DraftOfRows(db: Db, p: Project)
    requires RowsInv(db)
    ensures var revs := EnsureDraft(RevisionsOf(db, p));
            UniqueNames(DraftOf(db, revs).groups) && DraftGroups(revs) == DraftGroups(RevisionsOf(db, p))
  {
    hide Lifecycle, RowsInv, EnsureDraft, DraftGroups, UniqueNames, Frozen, History, FindStatus;
    RowsOf(db, p);
    EnsureDraftKeeps(RevisionsOf(db, p));
  }

  lemma UpsertRows(e: Engine, db: Db, p: Project, dto: UpsertDto)
    requires RowsInv(db)
    ensures var db' := Upsert(e, db, p, dto).0; RowsInv(db') && RowsFrozen(db, db')
  {
    hide RowsInv, RowsFrozen, UniqueNames, Upserted, EnsureDraft, Lifecycle;
    RowsUnchanged(db, db);
    if p in db.revisions {
      var d := DraftOf(db, EnsureDraft(db.revisions[p]));
      DraftOfRows(db, p);
      UpsertNames(e.vault, d, dto);
      WithDraftRows(db, p, Upserted(e.vault, d, dto));
    }
  }

  lemma DeleteGroupRows(e: Engine, db: Db, p: Project, name: string)
    requires RowsInv(db)
    ensures var db' := DeleteGroup(e, db, p, name).0; RowsInv(db') && RowsFrozen(db, db')
  {
    hide RowsInv, RowsFrozen, UniqueNames, Removed, Lifecycle;
    RowsUnchanged(db, db);
    if p in db.revisions {
      var revs := EnsureDraft(db.revisions[p]);
      var d, i := DraftOf(db, revs), FindGroup(DraftGroups(revs), name);
      DraftOfRows(db, p);
      if i >= 0 {
        RemoveNames(e.vault, d, i);
        WithDraftRows(db, p, Removed(e.vault, d, i));
      } else {
        WithDraftRows(db, p, d);
        assert WithDraftGroups(revs, d.groups) == revs;
        assert WithDraft(db, p, revs, d) == db.(revisions := db.revisions[p := revs]);
      }
    }
  }

  /** The groups a new draft is cloned from are those of the active revision. */
  lemma SourceIsActive(revs: seq<Revision>)
    requires Lifecycle(revs)
    ensures SourceGroups(revs) == ActiveGroups(revs) && UniqueNames(ActiveGroups(revs))
    ensures ActiveGroups(revs) == if History(revs) == [] then [] else History(revs)[|History(revs)| - 1].groups
  {
    hide Linked, UniqueNames;
    LifecycleFinds(revs);
    var h := History(revs);
    if h != [] {
      assert revs[|h| - 1] == h[|h| - 1];
    } else {
      NoArchived(revs);
      NoNamesUnique();
    }
  }

  lemma {:induction false} NoArchived(revs: seq<Revision>)
    requires forall i | 0 <= i < |revs| :: revs[i].status != Archived
    ensures LatestArchived(revs) == -1
  {
    if revs != [] {
      NoArchived(revs[..|revs| - 1]);
    }
  }

  lemma CreateDraftRows(e: Engine, db: Db, p: Project)
    requires RowsInv(db)
    ensures var db' := CreateDraft(e, db, p).0; RowsInv(db') && RowsFrozen(db, db')
  {
    hide RowsFrozen, UniqueNames, ClonedMissing, EnsureDraft, Lifecycle, CacheOk;
    RowsUnchanged(db, db);
    if p in db.revisions && FindStatus(db.revisions[p], Draft) < 0 {
      var d, sources := DraftState(db.secrets, db.nextGroupId, []), SourceGroups(db.revisions[p]);
      SourceIsActive(db.revisions[p]);
      NoNamesUnique();
      CloneMissingNames(e.vault, d, sources, {});
      WithDraftRows(db, p, ClonedMissing(e.vault, d, sources, {}));
    }
  }

  lemma DeleteDraftRows(e: Engine, db: Db, p: Project)
    requires RowsInv(db)
    ensures var db' := DeleteDraft(e, db, p).0; RowsInv(db') && RowsFrozen(db, db')
  {
    hide RowsFrozen, Lifecycle, CacheOk, AllSecretsDropped, Frozen, WithoutDraft;
    RowsUnchanged(db, db);
    if p in db.revisions && FindStatus(db.revisions[p], Draft) >= 0 {
      DropKeeps(db.revisions[p]);
      ReplacedRows(db, DeleteDraft(e, db, p).0, p, WithoutDraft(db.revisions[p]));
    }
  }

  // ---------------------------------------------------------------------------------------
  // Publishing
  // ---------------------------------------------------------------------------------------

  /** What publishing the draft of `p` means for its rows: the history grows by the draft's groups. */
  ghost predicate PublishesDraft(base: seq<Revision>, r: seq<Revision>) {
    && Lifecycle(r) && Frozen(base, r) && DraftGroups(r) == []
    && |History(r)| == |History(base)| + 1 && History(r)[|History(base)|].groups == DraftGroups(base)
  }

  /** The rows after publishing a draft, with or without opening the next one. */
  lemma PublishRows(base: seq<Revision>)
    requires Lifecycle(base) && FindStatus(base, Draft) >= 0
    ensures var r := Applied(base);
            var next, v := WithNextDraft(r, DraftNumber(base)), NextVersionOf(base);
            && PublishesDraft(base, r) && PublishesDraft(base, next)
            && ActiveVersion(r) == Some(v) && ActiveVersion(next) == Some(v)
            && FindVersion(r, v) >= 0 && FindVersion(next, v) >= 0
            && ActiveGroups(r) == DraftGroups(base) && ActiveGroups(next) == DraftGroups(base)
            && History(next) == r && History(r) == r
            && r != [] && r[|r| - 1].semVer == Some(v) && r[|r| - 1].groups == DraftGroups(base)
  {
    hide Linked, UniqueNames, NextVersionOf;
    ApplyKeeps(base);
    var r := Applied(base);
    NextDraftKeeps(r);
    FrozenTransitive(base, r, WithNextDraft(r, DraftNumber(base)));
    var v := NextVersionOf(base);
    assert r[|History(base)|].semVer == Some(v);
    assert WithNextDraft(r, DraftNumber(base))[|History(base)|].semVer == Some(v);
  }

  lemma ApplyRows(e: Engine, db: Db, p: Project, queried: set<nat>)
    requires RowsInv(db)
    ensures var db' := Apply(e, db, p, queried).0; RowsInv(db') && RowsFrozen(db, db')
  {
    hide RowsFrozen, Lifecycle, CacheOk, Frozen, Applied, NextVersionOf, Live, FindVersion;
    RowsUnchanged(db, db);
    if p in db.revisions && FindStatus(db.revisions[p], Draft) >= 0 {
      var revs := db.revisions[p];
      PublishRows(revs);
      var db1 := db.(revisions := db.revisions[p := Applied(revs)]);
      ReplacedRows(db, db1, p, Applied(revs));
      if p.DeviceConfig? {
        var v := NextVersionOf(revs);
        CachedRows(db1, p.deviceId, v, Live(e, db1, p.deviceId, queried));
        RowsFrozenTransitive(db, db1, Cached(e, db1, p.deviceId, queried, v));
      }
    }
  }

  /** Publishing a device's draft, opening the next one and caching the payload. */
  lemma PublishedAsRows(e: Engine, db: Db, deviceId: string, queried: set<nat>)
    requires RowsInv(db) && DeviceConfig(deviceId) in db.revisions
    requires FindStatus(db.revisions[DeviceConfig(deviceId)], Draft) >= 0
    ensures var base := db.revisions[DeviceConfig(deviceId)];
            var db' := PublishedAs(e, db, deviceId, queried, Applied(base), DraftNumber(base), NextVersionOf(base));
            RowsInv(db') && RowsFrozen(db, db')
  {
    hide RowsFrozen, Lifecycle, CacheOk, Frozen, Applied, NextVersionOf, Live, FindVersion;
    var p := DeviceConfig(deviceId);
    var base := db.revisions[p];
    PublishRows(base);
    var r, v := WithNextDraft(Applied(base), DraftNumber(base)), NextVersionOf(base);
    var db1 := db.(revisions := db.revisions[p := r]);
    ReplacedRows(db, db1, p, r);
    CachedRows(db1, deviceId, v, Live(e, db1, deviceId, queried));
    RowsFrozenTransitive(db, db1, Cached(e, db1, deviceId, queried, v));
  }

  /** The draft provisioning publishes, written back: without an active revision, publishing it as
      the initial version is publishing it under the computed one. */
  lemma ProvisionIsPublish(e: Engine, db: Db, deviceId: string, known: set<nat>, queried: set<nat>)
    requires RowsInv(db) && FindStatus(RevisionsOf(db, DeviceConfig(deviceId)), Active) < 0
    ensures var p := DeviceConfig(deviceId);
            var revs := EnsureDraft(RevisionsOf(db, p));
            var d' := ProvisionedDraft(e, db, revs, deviceId, known);
            var db1 := Edited(db, p, d');
            && RowsInv(db1) && RowsFrozen(db, db1) && FindStatus(db1.revisions[p], Draft) >= 0
            && DraftGroups(db1.revisions[p]) == d'.groups
            && History(db1.revisions[p]) == History(RevisionsOf(db, p)) == []
            && Provision(e, db, deviceId, known, queried)
            == PublishedAs(e, db1, deviceId, queried, Applied(db1.revisions[p]), DraftNumber(db1.revisions[p]),
                           NextVersionOf(db1.revisions[p]))
            && NextVersionOf(db1.revisions[p]) == INITIAL
  {
    hide RowsInv, RowsFrozen, UniqueNames, Lifecycle, Linked, PublishedAs, EnsureDraft, Populated, FindStatus,
         MaxNumber, History, MapGroups, Activate, Applied, NextVersionOf, DraftGroups, WithDefaults;
    var p := DeviceConfig(deviceId);
    var revs := EnsureDraft(RevisionsOf(db, p));
    var d := DraftOf(db, revs);
    DraftOfRows(db, p);
    DefaultsNames(d);
    PopulateNames(e, WithDefaults(d), MergedAll(e.vault, WithDefaults(d).secrets, MapGroups(db, deviceId, known)));
    PopulatedGroups(e, WithDefaults(d), MapGroups(db, deviceId, known));
    var d' := ProvisionedDraft(e, db, revs, deviceId, known);
    WithDraftRows(db, p, d');
    var db1 := Edited(db, p, d');
    RowsOf(db, p);
    NoHistory(RevisionsOf(db, p));
    NoHistory(db1.revisions[p]);
    InitialPublishKeepsIff(db1.revisions[p]);
  }

  lemma PopulatedGroups(e: Engine, d: DraftState, maps: seq<Group>)
    ensures Populated(e, d, maps) == PopulatedAll(e, d, MergedAll(e.vault, d.secrets, maps))
  {
  }

  lemma NoHistory(revs: seq<Revision>)
    requires Lifecycle(revs)
    ensures History(revs) == [] <==> FindStatus(revs, Active) < 0
  {
    hide Linked, UniqueNames;
    LifecycleFinds(revs);
  }

  lemma ProvisionRows(e: Engine, db: Db, deviceId: string, known: set<nat>, queried: set<nat>)
    requires RowsInv(db) && FindStatus(RevisionsOf(db, DeviceConfig(deviceId)), Active) < 0
    ensures var db' := Provision(e, db, deviceId, known, queried); RowsInv(db') && RowsFrozen(db, db')
  {
    hide RowsInv, RowsFrozen, PublishedAs, EnsureDraft, ProvisionedDraft, Provision, Applied, NextVersionOf;
    var p := DeviceConfig(deviceId);
    var revs := EnsureDraft(RevisionsOf(db, p));
    ProvisionIsPublish(e, db, deviceId, known, queried);
    var db1 := Edited(db, p, ProvisionedDraft(e, db, revs, deviceId, known));
    PublishedAsRows(e, db1, deviceId, queried);
    RowsFrozenTransitive(db, db1, Provision(e, db, deviceId, known, queried));
  }

  /** The draft a refresh publishes, written back: it has every group name of the active revision. */
  lemma RefreshedRows(e: Engine, db: Db, deviceId: string, known: set<nat>)
    requires RowsInv(db)
    ensures var p := DeviceConfig(deviceId);
            var base := RevisionsOf(db, p);
            var revs := EnsureDraft(base);
            var d' := RefreshedDraft(e, db, revs, deviceId, known);
            var db1 := Edited(db, p, d');
            && RowsInv(db1) && RowsFrozen(db, db1) && FindStatus(db1.revisions[p], Draft) >= 0
            && DraftGroups(db1.revisions[p]) == d'.groups && History(db1.revisions[p]) == History(base)
            && GroupNames(ActiveGroups(base)) <= GroupNames(d'.groups)
            && Populated(e, DraftOf(db, revs), MapGroups(db, deviceId, known)).groups <= d'.groups
  {
    hide RowsInv, RowsFrozen, UniqueNames, Lifecycle, EnsureDraft, Populated, FindStatus, History, MapGroups,
         DraftGroups, ActiveGroups, ClonedMissing, Edited, SourceGroups;
    var p := DeviceConfig(deviceId);
    var base := RevisionsOf(db, p);
    var revs := EnsureDraft(base);
    var d, maps := DraftOf(db, revs), MapGroups(db, deviceId, known);
    DraftOfRows(db, p);
    PopulateNames(e, d, MergedAll(e.vault, d.secrets, maps));
    PopulatedGroups(e, d, maps);
    var d1 := Populated(e, d, maps);
    RowsOf(db, p);
    ActiveGroupsKept(base);
    SourceIsActive(base);
    CloneMissingNames(e.vault, d1, ActiveGroups(revs), GroupNames(d1.groups));
    WithDraftRows(db, p, RefreshedDraft(e, db, revs, deviceId, known));
  }

  lemma ActiveGroupsKept(revs: seq<Revision>)
    requires Lifecycle(revs)
    ensures ActiveGroups(EnsureDraft(revs)) == ActiveGroups(revs)
  {
    hide Linked, UniqueNames;
    EnsureDraftKeeps(revs);
    LifecycleFinds(revs);
    if FindStatus(revs, Active) >= 0 {
      assert EnsureDraft(revs)[FindStatus(revs, Active)] == revs[FindStatus(revs, Active)];
    }
  }

  lemma RefreshRows(e: Engine, db: Db, deviceId: string, known: set<nat>, queried: set<nat>)
    requires RowsInv(db)
    ensures var db' := Refresh(e, db, deviceId, known, queried).0; RowsInv(db') && RowsFrozen(db, db')
  {
    hide RowsInv, RowsFrozen, PublishedAs, EnsureDraft, RefreshedDraft, Applied, NextVersionOf;
    RowsUnchanged(db, db);
    var p := DeviceConfig(deviceId);
    if p in db.revisions {
      var revs := EnsureDraft(RevisionsOf(db, p));
      RefreshedRows(e, db, deviceId, known);
      var db1 := Edited(db, p, RefreshedDraft(e, db, revs, deviceId, known));
      PublishedAsRows(e, db1, deviceId, queried);
      RowsFrozenTransitive(db, db1, Refresh(e, db, deviceId, known, queried).0);
    }
  }

  // ---------------------------------------------------------------------------------------
  // Every run
  // ---------------------------------------------------------------------------------------

  lemma ReadRows(e: Engine, db: Db, deviceId: string, queried: set<nat>, version: Version)
    requires RowsInv(db)
    ensures var db' := ReadLatest(e, db, deviceId, queried).0; RowsInv(db') && RowsFrozen(db, db')
    ensures var db' := ReadVersion(e, db, deviceId, version).0; RowsInv(db') && RowsFrozen(db, db')
  {
    hide RowsInv, RowsFrozen, Live, Rebuilt;
    RowsUnchanged(db, db);
    var revs := RevisionsOf(db, DeviceConfig(deviceId));
    var latest := ActiveVersion(revs);
    if latest.Some? {
      assert revs[FindStatus(revs, Active)].semVer == Some(latest.value);
      CachedRows(db, deviceId, latest.value, Live(e, db, deviceId, queried));
    }
    var i := FindVersion(revs, version);
    if i >= 0 {
      CachedRows(db, deviceId, version, Rebuilt(e, db, revs[i]));
    }
  }

  lemma NewProjectRows(db: Db, p: Project)
    requires RowsInv(db) && p !in db.revisions
    ensures var db' := db.(revisions := db.revisions[p := []]); RowsInv(db') && RowsFrozen(db, db')
  {
    hide RowsInv, RowsFrozen;
    EmptyLifecycle();
    FrozenSelf([]);
    ReplacedRows(db, db.(revisions := db.revisions[p := []]), p, []);
  }

  /** Every operation keeps the revision life cycle of every project and every published row. */
  lemma StepRows(e: Engine, db: Db, op: Op)
    requires RowsInv(db) && Timely(db, op)
    ensures RowsInv(Step(e, db, op)) && RowsFrozen(db, Step(e, db, op))
  {
    hide RowsInv, RowsFrozen, Upsert, DeleteGroup, Apply, CreateDraft, DeleteDraft, Provision, Refresh, ReadLatest,
         ReadVersion;
    RowsUnchanged(db, db);
    match op
    case NewProject(p) =>
      if p !in db.revisions { NewProjectRows(db, p); }
    case Associate(assocs) => RowsUnchanged(db, db.(assocs := assocs));
    case UpsertGroup(p, dto) => UpsertRows(e, db, p, dto);
    case RemoveGroup(p, name) => DeleteGroupRows(e, db, p, name);
    case ApplyRevision(p, queried) => ApplyRows(e, db, p, queried);
    case OpenDraft(p) => CreateDraftRows(e, db, p);
    case DropDraft(p) => DeleteDraftRows(e, db, p);
    case ProvisionDevice(deviceId, known, queried) => ProvisionRows(e, db, deviceId, known, queried);
    case RefreshDevice(deviceId, known, queried) => RefreshRows(e, db, deviceId, known, queried);
    case GetLatest(deviceId, queried) => ReadRows(e, db, deviceId, queried, INITIAL);
    case GetVersion(deviceId, version) => ReadRows(e, db, deviceId, {}, version);
  }

  /** So does every run. */
  lemma {:induction false} RunRows(e: Engine, db: Db, ops: seq<Op>)
    requires RowsInv(db) && TimelyRun(e, db, ops)
    ensures RowsInv(Run(e, db, ops)) && RowsFrozen(db, Run(e, db, ops))
  {
    hide RowsInv, RowsFrozen, Step, Timely;
    if ops == [] {
      RowsUnchanged(db, db);
    } else {
      var front, op := ops[..|ops| - 1], ops[|ops| - 1];
      RunRows(e, db, front);
      StepRows(e, Run(e, db, front), op);
      RowsFrozenTransitive(db, Run(e, db, front), Run(e, db, ops));
    }
  }
}
