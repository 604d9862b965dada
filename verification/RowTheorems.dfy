/** What holds of revisions, versions and cached payloads over every run, whatever values and
    references clients send. */
module RowTheorems {
  import opened Options
  import opened ConfigModel
  import opened Versioning
  import opened Revisions
  import opened DraftEdits
  import opened ConfigDb
  import opened ConfigRows

  // ---------------------------------------------------------------------------------------
  // Life cycle and versions
  // ---------------------------------------------------------------------------------------

  /** In every state a run reaches from the empty engine, each project has at most one DRAFT and one
      ACTIVE revision, the numbers 1 to the number of its revisions with DRAFT above ACTIVE above
      ARCHIVED, and unique group names per revision. */
  lemma ReachableLifecycle(e: Engine, assocs: seq<Assoc>, ops: seq<Op>, p: Project, i: nat, j: nat)
    requires TimelyRun(e, Fresh(assocs), ops)
    requires var db := Run(e, Fresh(assocs), ops); p in db.revisions && i < |db.revisions[p]| && j < |db.revisions[p]|
    ensures var revs := Run(e, Fresh(assocs), ops).revisions[p];
            && (revs[i].status == revs[j].status && revs[i].status != Archived ==> i == j)
            && 1 <= revs[i].number <= |revs| && (revs[i].number == revs[j].number ==> i == j)
            && (revs[i].status == Draft && revs[j].status != Draft ==> revs[i].number > revs[j].number)
            && (revs[i].status == Active && revs[j].status == Archived ==> revs[i].number > revs[j].number)
            && UniqueNames(revs[i].groups)
  {
    hide Linked, Run, TimelyRun;
    FreshRows(assocs);
    RunRows(e, Fresh(assocs), ops);
    LifecycleMeaning(Run(e, Fresh(assocs), ops).revisions[p], i, j);
  }

  /** Over every run the published versions of a project strictly increase exactly when no revision
      but perhaps the last was published empty; then equal major numbers mean equal group names and
      no lost top-level key, and equal major and minor numbers mean contents of the same JSON text.
      In every history each version tells exactly how the contents changed since the one before. */
  lemma ReachableVersions(e: Engine, assocs: seq<Assoc>, ops: seq<Op>, p: Project)
    requires TimelyRun(e, Fresh(assocs), ops) && p in Run(e, Fresh(assocs), ops).revisions
    ensures var h := History(Run(e, Fresh(assocs), ops).revisions[p]);
            && Linked(h) && (StrictlyIncreasing(h) <==> NonEmptyBeforeLast(h))
            && (NonEmptyBeforeLast(h) ==> forall i, j | 0 <= i <= j < |h| ::
                  && (h[i].semVer.value.major == h[j].semVer.value.major ==>
                        Compatible(Contents(h[i].groups), Contents(h[j].groups)))
                  && (h[i].semVer.value.major == h[j].semVer.value.major
                      && h[i].semVer.value.minor == h[j].semVer.value.minor ==>
                        SameText(Contents(h[i].groups), Contents(h[j].groups))))
            && (forall i | 0 <= i < |h| - 1 :: FollowsInHistory(h, i))
  {
    hide Run, TimelyRun, Contents, Compatible, SameText, Tells;
    FreshRows(assocs);
    RunRows(e, Fresh(assocs), ops);
    var h := History(Run(e, Fresh(assocs), ops).revisions[p]);
    assert Linked(h);
    VersionsIncreaseIff(h);
    forall i | 0 <= i < |h| - 1 ensures FollowsInHistory(h, i) {
      ConsecutiveVersions(h, i);
    }
    if NonEmptyBeforeLast(h) {
      forall i, j | 0 <= i <= j < |h|
        ensures h[i].semVer.value.major == h[j].semVer.value.major ==>
                Compatible(Contents(h[i].groups), Contents(h[j].groups))
        ensures h[i].semVer.value.major == h[j].semVer.value.major
                && h[i].semVer.value.minor == h[j].semVer.value.minor ==>
                  SameText(Contents(h[i].groups), Contents(h[j].groups))
      {
        VersionsMeanCompatibility(h, i, j);
      }
    }
  }

  /** What a publish does to the version of a project: the first one, or the one after an empty
      revision, is 1.0.0, and any later one tells exactly how the active contents changed. */
  ghost predicate VersionFollows(before: seq<Revision>, after: seq<Revision>) {
    var v, next := ActiveVersion(before), ActiveVersion(after);
    && next.Some?
    && if ActiveGroups(before) == [] then next.value == Version(1, 0, 0)
       else
         v.Some? && Tells(v.value, next.value, Contents(ActiveGroups(before)), Contents(ActiveGroups(after)))
  }

  lemma PublishedVersion(base: seq<Revision>, after: seq<Revision>)
    requires Lifecycle(base) && FindStatus(base, Draft) >= 0
    requires after == Applied(base) || after == WithNextDraft(Applied(base), DraftNumber(base))
    ensures VersionFollows(base, after) && ActiveGroups(after) == DraftGroups(base) && DraftGroups(after) == []
    ensures FindStatus(after, Draft) >= 0 <==> after != Applied(base)
  {
    hide Lifecycle, Tells, Contents, MajorChange, MinorChange, DraftGroups, Frozen, Applied, FindStatus, ActiveGroups;
    PublishRows(base);
    ApplyKeeps(base);
    assert WithNextDraft(Applied(base), DraftNumber(base))[|Applied(base)|].status == Draft;
    if ActiveGroups(base) != [] {
      ActiveHasVersion(base);
      NextVersionIff(ActiveGroups(base), DraftGroups(base), ActiveVersion(base));
    }
  }

  lemma ActiveHasVersion(revs: seq<Revision>)
    requires Lifecycle(revs) && ActiveGroups(revs) != []
    ensures ActiveVersion(revs).Some?
  {
    hide Linked, UniqueNames;
    LifecycleFinds(revs);
    LifecycleMeaning(revs, FindStatus(revs, Active), FindStatus(revs, Active));
  }

  /** `applyRevision` needs a draft. It publishes the draft's groups, under the version that tells how
      they differ from the active ones, and leaves no draft behind. */
  lemma ApplyVersionIff(e: Engine, db: Db, p: Project, queried: set<nat>)
    requires RowsInv(db) && p in db.revisions
    ensures var revs, (db', outcome) := db.revisions[p], Apply(e, db, p, queried);
            && (outcome == Done <==> FindStatus(revs, Draft) >= 0) && p in db'.revisions
            && if outcome != Done then outcome == NotFound && db' == db
               else
                 && VersionFollows(revs, db'.revisions[p]) && ActiveGroups(db'.revisions[p]) == DraftGroups(revs)
                 && FindStatus(db'.revisions[p], Draft) < 0
  {
    hide Lifecycle, CacheOk, VersionFollows, Live, ActiveGroups, DraftGroups, Applied, NextVersionOf, FindStatus;
    if FindStatus(db.revisions[p], Draft) >= 0 {
      PublishedVersion(db.revisions[p], Applied(db.revisions[p]));
    }
  }

  /** So does a refresh, for the groups it publishes, and it leaves an empty draft. */
  lemma RefreshVersionIff(e: Engine, db: Db, deviceId: string, known: set<nat>, queried: set<nat>)
    requires RowsInv(db) && DeviceConfig(deviceId) in db.revisions
    ensures var p := DeviceConfig(deviceId);
            var revs, revs' := db.revisions[p], Refresh(e, db, deviceId, known, queried).0.revisions[p];
            && VersionFollows(revs, revs')
            && ActiveGroups(revs') == RefreshedDraft(e, db, EnsureDraft(revs), deviceId, known).groups
            && FindStatus(revs', Draft) >= 0 && DraftGroups(revs') == []
  {
    hide RowsFrozen, Lifecycle, CacheOk, RefreshedDraft, EnsureDraft, Applied, NextVersionOf, Tells, Contents, Live,
         FindVersion, FindStatus, DraftGroups;
    var p := DeviceConfig(deviceId);
    var db1 := Edited(db, p, RefreshedDraft(e, db, EnsureDraft(db.revisions[p]), deviceId, known));
    RefreshedRows(e, db, deviceId, known);
    PublishedVersion(db1.revisions[p], WithNextDraft(Applied(db1.revisions[p]), DraftNumber(db1.revisions[p])));
    SameActive(db.revisions[p], db1.revisions[p]);
    SameActiveVersion(db.revisions[p], db1.revisions[p]);
  }

  /** A refresh never drops a group name of the previous active revision. */
  lemma RefreshKeepsNames(e: Engine, db: Db, deviceId: string, known: set<nat>, queried: set<nat>)
    requires RowsInv(db) && DeviceConfig(deviceId) in db.revisions
    ensures var p, db' := DeviceConfig(deviceId), Refresh(e, db, deviceId, known, queried).0;
            GroupNames(ActiveGroups(db.revisions[p])) <= GroupNames(ActiveGroups(db'.revisions[p]))
  {
    hide RowsFrozen, RefreshedDraft, Lifecycle, CacheOk, Linked, Applied, ActiveGroups, EnsureDraft, NextVersionOf,
         PublishesDraft;
    var p := DeviceConfig(deviceId);
    RefreshedRows(e, db, deviceId, known);
    PublishRows(Edited(db, p, RefreshedDraft(e, db, EnsureDraft(db.revisions[p]), deviceId, known)).revisions[p]);
  }

  // ---------------------------------------------------------------------------------------
  // The payload cache is written once per version
  // ---------------------------------------------------------------------------------------

  /** No project published an empty revision before its latest one. */
  ghost predicate NonEmptyHistories(db: Db) {
    forall p | p in db.revisions :: NonEmptyBeforeLast(History(db.revisions[p]))
  }

  ghost predicate CacheKept(db: Db, db': Db) {
    forall key | key in db.cache :: key in db'.cache && db'.cache[key] == db.cache[key]
  }

  /** The version computed from a non-empty active revision is none of the earlier ones. */
  lemma NewVersionIsNew(base: seq<Revision>, i: nat)
    requires Lifecycle(base) && FindStatus(base, Draft) >= 0 && NonEmptyBeforeLast(History(base))
             && ActiveGroups(base) != []
    requires i < |History(base)|
    ensures base[i].semVer != Some(NextVersionOf(base))
  {
    hide UniqueNames, LinkedAt, DraftGroups, NextVersionOf;
    LifecycleFinds(base);
    ApplyKeeps(base);
    var h, r := History(base), Applied(base);
    forall j | 0 <= j < |r| - 1 ensures r[j].groups != [] {
      assert r[j].groups == base[j].groups && h[j] == base[j];
    }
    assert Linked(r) && r[i].semVer == base[i].semVer;
    IncreasingBetween(r, i, |r| - 1);
  }

  /** The version a publish computes has a cached payload already exactly when the active revision
      is empty and the first version is cached: only then is a cached payload overwritten. */
  lemma PublishOverwritesIff(db: Db, deviceId: string, base: seq<Revision>)
    requires RowsInv(db) && Lifecycle(base) && FindStatus(base, Draft) >= 0
    requires History(base) == History(RevisionsOf(db, DeviceConfig(deviceId))) && NonEmptyBeforeLast(History(base))
    ensures (deviceId, NextVersionOf(base)) in db.cache <==> ActiveGroups(base) == [] && (deviceId, INITIAL) in db.cache
  {
    hide Lifecycle, NextVersion, ActiveGroups, History, NonEmptyBeforeLast;
    RowsOf(db, DeviceConfig(deviceId));
    var rows, v := RevisionsOf(db, DeviceConfig(deviceId)), NextVersionOf(base);
    if ActiveGroups(base) == [] {
      assert v == INITIAL by { FirstVersion(base); }
    } else if (deviceId, v) in db.cache {
      var i := FindVersion(rows, v);
      PublishedAt(rows, base, i, v);
      NewVersionIsNew(base, i);
    }
  }

  lemma FirstVersion(base: seq<Revision>)
    requires ActiveGroups(base) == []
    ensures NextVersionOf(base) == INITIAL
  {
  }

  lemma PublishedAt(rows: seq<Revision>, base: seq<Revision>, i: nat, version: Version)
    requires Lifecycle(rows) && Lifecycle(base) && History(rows) == History(base)
    requires i < |rows| && rows[i].semVer == Some(version)
    ensures i < |History(base)| && base[i].semVer == Some(version)
  {
    hide Linked, UniqueNames;
    LifecycleFinds(rows);
    LifecycleFinds(base);
    assert i < |History(rows)| ==> History(rows)[i] == rows[i] && History(base)[i] == base[i];
  }

  /** The same for the three operations that publish a device's draft. */
  lemma ApplyOverwritesIff(e: Engine, db: Db, deviceId: string, queried: set<nat>)
    requires RowsInv(db) && NonEmptyHistories(db) && DeviceConfig(deviceId) in db.revisions
    requires FindStatus(db.revisions[DeviceConfig(deviceId)], Draft) >= 0
    ensures var p, db' := DeviceConfig(deviceId), Apply(e, db, DeviceConfig(deviceId), queried).0;
            && ActiveVersion(db'.revisions[p]).Some?
            && ((deviceId, ActiveVersion(db'.revisions[p]).value) in db.cache <==>
                ActiveGroups(db.revisions[p]) == [] && (deviceId, INITIAL) in db.cache)
            && (forall key | key in db.cache && key != (deviceId, ActiveVersion(db'.revisions[p]).value) ::
                  key in db'.cache && db'.cache[key] == db.cache[key])
  {
    hide Lifecycle, CacheOk, NonEmptyBeforeLast, Applied, NextVersionOf, Live, ActiveGroups, PublishesDraft,
         FindVersion, ActiveVersion, History;
    PublishOverwritesIff(db, deviceId, db.revisions[DeviceConfig(deviceId)]);
    PublishRows(db.revisions[DeviceConfig(deviceId)]);
  }

  /** Publishing an edited draft `d'` of a device whose rows are otherwise those of `db`. */
  lemma PublishedAsOverwrites(e: Engine, db: Db, db1: Db, deviceId: string, queried: set<nat>)
    requires RowsInv(db) && RowsInv(db1) && db1.cache == db.cache && DeviceConfig(deviceId) in db1.revisions
    requires FindStatus(db1.revisions[DeviceConfig(deviceId)], Draft) >= 0
    requires var h := History(db1.revisions[DeviceConfig(deviceId)]);
             h == History(RevisionsOf(db, DeviceConfig(deviceId))) && NonEmptyBeforeLast(h)
    ensures var base := db1.revisions[DeviceConfig(deviceId)];
            var db' := PublishedAs(e, db1, deviceId, queried, Applied(base), DraftNumber(base), NextVersionOf(base));
            var version := ActiveVersion(db'.revisions[DeviceConfig(deviceId)]);
            && version.Some?
            && ((deviceId, version.value) in db.cache <==>
                ActiveGroups(RevisionsOf(db, DeviceConfig(deviceId))) == [] && (deviceId, INITIAL) in db.cache)
            && (forall key | key in db.cache && key != (deviceId, version.value) ::
                key in db'.cache && db'.cache[key] == db.cache[key])
  {
    hide Lifecycle, CacheOk, NonEmptyBeforeLast, Applied, NextVersionOf, Live, ActiveGroups, PublishesDraft,
         FindVersion, ActiveVersion, History;
    var p := DeviceConfig(deviceId);
    RowsOf(db, p);
    PublishOverwritesIff(db, deviceId, db1.revisions[p]);
    PublishRows(db1.revisions[p]);
    SourceIsActive(RevisionsOf(db, p));
    SourceIsActive(db1.revisions[p]);
  }

  lemma RefreshOverwritesIff(e: Engine, db: Db, deviceId: string, known: set<nat>, queried: set<nat>)
    requires RowsInv(db) && NonEmptyHistories(db) && DeviceConfig(deviceId) in db.revisions
    ensures var p, db' := DeviceConfig(deviceId), Refresh(e, db, deviceId, known, queried).0;
            var version := ActiveVersion(db'.revisions[p]);
            && version.Some?
            && ((deviceId, version.value) in db.cache <==>
                ActiveGroups(db.revisions[p]) == [] && (deviceId, INITIAL) in db.cache)
            && (forall key | key in db.cache && key != (deviceId, version.value) ::
                key in db'.cache && db'.cache[key] == db.cache[key])
  {
    hide RowsInv, RowsFrozen, RefreshedDraft, PublishedAs, Applied, NextVersionOf, ActiveGroups, ActiveVersion,
         EnsureDraft, NonEmptyBeforeLast, History, DraftGroups, FindStatus;
    var p := DeviceConfig(deviceId);
    RefreshedRows(e, db, deviceId, known);
    PublishedAsOverwrites(e, db, Edited(db, p, RefreshedDraft(e, db, EnsureDraft(db.revisions[p]), deviceId, known)),
                          deviceId, queried);
  }

  /** Provisioning, before any revision was published, overwrites nothing. */
  lemma ProvisionCaches(e: Engine, db: Db, deviceId: string, known: set<nat>, queried: set<nat>)
    requires RowsInv(db) && FindStatus(RevisionsOf(db, DeviceConfig(deviceId)), Active) < 0
    ensures CacheKept(db, Provision(e, db, deviceId, known, queried))
  {
    hide Lifecycle, RowsFrozen, ProvisionedDraft, Applied, EnsureDraft, FindVersion, Provision, Live, WithNextDraft;
    var p := DeviceConfig(deviceId);
    ProvisionIsPublish(e, db, deviceId, known, queried);
    NothingPublished(db, deviceId);
  }

  lemma NothingPublished(db: Db, deviceId: string)
    requires RowsInv(db) && FindStatus(RevisionsOf(db, DeviceConfig(deviceId)), Active) < 0
    ensures forall key | key in db.cache :: key.0 != deviceId
  {
    hide Linked, UniqueNames;
    var rows := RevisionsOf(db, DeviceConfig(deviceId));
    RowsOf(db, DeviceConfig(deviceId));
    LifecycleFinds(rows);
    forall key | key in db.cache ensures key.0 != deviceId {
      if key.0 == deviceId {
        LifecycleMeaning(rows, FindVersion(rows, key.1), FindVersion(rows, key.1));
      }
    }
  }

  /** After a publish that leaves no empty revision behind, the previous active revision was not
      empty, or nothing was published. */
  lemma NonEmptyActive(base: seq<Revision>)
    requires Lifecycle(base) && FindStatus(base, Draft) >= 0
    requires NonEmptyBeforeLast(History(Applied(base)))
             || NonEmptyBeforeLast(History(WithNextDraft(Applied(base), DraftNumber(base))))
    ensures ActiveGroups(base) != [] || FindStatus(base, Active) < 0
  {
    hide Linked, LinkedAt, UniqueNames, NextVersionOf, DraftGroups;
    var h := History(base);
    PublishRows(base);
    HistoryGrows(base, Applied(base));
    SourceIsActive(base);
    NoHistory(base);
    if h != [] {
      assert Applied(base)[|h| - 1].groups == h[|h| - 1].groups;
    }
  }

  lemma ApplyCaches(e: Engine, db: Db, p: Project, queried: set<nat>)
    requires RowsInv(db) && NonEmptyHistories(db) && NonEmptyHistories(Apply(e, db, p, queried).0)
    ensures CacheKept(db, Apply(e, db, p, queried).0)
  {
    hide Lifecycle, CacheOk, Live, NonEmptyBeforeLast, History, ActiveGroups, Applied, NextVersionOf, ActiveVersion,
         FindVersion;
    if p.DeviceConfig? && p in db.revisions && FindStatus(db.revisions[p], Draft) >= 0 {
      ApplyOverwritesIff(e, db, p.deviceId, queried);
      assert Apply(e, db, p, queried).0.revisions[p] == Applied(db.revisions[p]);
      NonEmptyActive(db.revisions[p]);
      if FindStatus(db.revisions[p], Active) < 0 { NothingPublished(db, p.deviceId); }
    }
  }

  lemma RefreshCaches(e: Engine, db: Db, deviceId: string, known: set<nat>, queried: set<nat>)
    requires RowsInv(db) && NonEmptyHistories(db) && NonEmptyHistories(Refresh(e, db, deviceId, known, queried).0)
    ensures CacheKept(db, Refresh(e, db, deviceId, known, queried).0)
  {
    hide RowsFrozen, Lifecycle, CacheOk, Live, NonEmptyBeforeLast, History, ActiveGroups, Applied, NextVersionOf,
         ActiveVersion, FindVersion, RefreshedDraft, EnsureDraft, FindStatus, DraftGroups, WithNextDraft;
    var p := DeviceConfig(deviceId);
    if p in db.revisions {
      var db1 := Edited(db, p, RefreshedDraft(e, db, EnsureDraft(db.revisions[p]), deviceId, known));
      RefreshOverwritesIff(e, db, deviceId, known, queried);
      RefreshedRows(e, db, deviceId, known);
      assert Refresh(e, db, deviceId, known, queried).0.revisions[p]
          == WithNextDraft(Applied(db1.revisions[p]), DraftNumber(db1.revisions[p]));
      NonEmptyActive(db1.revisions[p]);
      SameActive(db.revisions[p], db1.revisions[p]);
      if FindStatus(db.revisions[p], Active) < 0 { NothingPublished(db, deviceId); }
    }
  }

  lemma SameActiveVersion(a: seq<Revision>, b: seq<Revision>)
    requires Lifecycle(a) && Lifecycle(b) && History(a) == History(b)
    ensures ActiveVersion(a) == ActiveVersion(b)
  {
    hide Linked, UniqueNames;
    LifecycleFinds(a);
    LifecycleFinds(b);
    if History(a) != [] {
      assert a[|History(a)| - 1] == History(a)[|History(a)| - 1] == b[|History(a)| - 1];
    }
  }

  lemma SameActive(a: seq<Revision>, b: seq<Revision>)
    requires Lifecycle(a) && Lifecycle(b) && History(a) == History(b)
    ensures ActiveGroups(a) == ActiveGroups(b) && FindStatus(a, Active) == FindStatus(b, Active)
  {
    hide Linked, UniqueNames;
    SourceIsActive(a);
    SourceIsActive(b);
    LifecycleFinds(a);
    LifecycleFinds(b);
  }

  lemma StepCaches(e: Engine, db: Db, op: Op)
    requires RowsInv(db) && Timely(db, op) && NonEmptyHistories(db) && NonEmptyHistories(Step(e, db, op))
    ensures CacheKept(db, Step(e, db, op))
  {
    hide RowsInv, Upserted, Removed, ClonedMissing, AllSecretsDropped, Live, Rebuilt, Apply, Provision, Refresh,
         NonEmptyHistories, EnsureDraft;
    match op
    case ApplyRevision(p, queried) => ApplyCaches(e, db, p, queried);
    case ProvisionDevice(deviceId, known, queried) => ProvisionCaches(e, db, deviceId, known, queried);
    case RefreshDevice(deviceId, known, queried) => RefreshCaches(e, db, deviceId, known, queried);
    case _ =>
  }

  lemma NonEmptyBefore(db: Db, db': Db)
    requires RowsInv(db) && RowsInv(db') && RowsFrozen(db, db') && NonEmptyHistories(db')
    ensures NonEmptyHistories(db)
  {
    hide Lifecycle, CacheOk, Frozen, History;
    forall p | p in db.revisions ensures NonEmptyBeforeLast(History(db.revisions[p])) {
      HistoryGrows(db.revisions[p], db'.revisions[p]);
      var h, h' := History(db.revisions[p]), History(db'.revisions[p]);
      forall i | 0 <= i < |h| - 1 ensures h[i].groups != [] {
        assert h'[i].groups == h[i].groups;
      }
    }
  }

  /** Over every run without empty publishes, a cached payload is never overwritten. */
  lemma {:induction false} CacheIsWriteOnce(e: Engine, db: Db, ops: seq<Op>)
    requires RowsInv(db) && TimelyRun(e, db, ops) && NonEmptyHistories(Run(e, db, ops))
    ensures CacheKept(db, Run(e, db, ops))
  {
    hide RowsInv, RowsFrozen, Step, Timely, NonEmptyHistories;
    if ops != [] {
      var front, op := ops[..|ops| - 1], ops[|ops| - 1];
      RunRows(e, db, front);
      StepRows(e, Run(e, db, front), op);
      NonEmptyBefore(Run(e, db, front), Run(e, db, ops));
      CacheIsWriteOnce(e, db, front);
      StepCaches(e, Run(e, db, front), op);
    }
  }

  // ---------------------------------------------------------------------------------------
  // Reads of one version
  // ---------------------------------------------------------------------------------------

  /** The two ways to read a version: as the device's current payload, or by its number. */
  datatype Read = Current(queried: set<nat>) | ByVersion

  /** The current payload is that of the version while the version is the active one. */
  predicate Reads(db: Db, deviceId: string, version: Version, read: Read) {
    read.Current? ==> ActiveVersion(RevisionsOf(db, DeviceConfig(deviceId))) == Some(version)
  }

  function ReadOf(e: Engine, db: Db, deviceId: string, version: Version, read: Read): (Db, Option<DevicePayload>) {
    match read
    case Current(queried) => var (db', payload) := ReadLatest(e, db, deviceId, queried); (db', Some(payload))
    case ByVersion => ReadVersion(e, db, deviceId, version)
  }

  /** All reads of one version of a device, in either way, return the same payload, whatever happens
      between them. */
  lemma ReadsAgree(e: Engine, db: Db, deviceId: string, version: Version, first: Read, ops: seq<Op>, later: Read)
    requires RowsInv(db) && Reads(db, deviceId, version, first) && ReadOf(e, db, deviceId, version, first).1.Some?
    requires var db' := ReadOf(e, db, deviceId, version, first).0;
             && TimelyRun(e, db', ops) && NonEmptyHistories(Run(e, db', ops))
             && Reads(Run(e, db', ops), deviceId, version, later)
    ensures var (db', payload) := ReadOf(e, db, deviceId, version, first);
            ReadOf(e, Run(e, db', ops), deviceId, version, later).1 == payload
  {
    hide RowsInv, RowsFrozen, NonEmptyHistories, Run, TimelyRun, Rebuilt, Live, ActiveVersion;
    var (db', payload) := ReadOf(e, db, deviceId, version, first);
    ReadRows(e, db, deviceId, if first.Current? then first.queried else {}, version);
    CacheIsWriteOnce(e, db', ops);
    assert (deviceId, version) in db'.cache && db'.cache[(deviceId, version)] == payload.value;
  }
}
