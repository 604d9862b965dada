/** When the payload cached at a publish is the one a rebuild from the published revision gives. */
module PayloadTheorems {
  import opened Options
  import opened Vault
  import opened ConfigModel
  import opened Versioning
  import opened Revisions
  import opened DraftEdits
  import opened PopulateLaws
  import opened MergeLaws
  import opened Payload
  import opened ConfigDb
  import opened ConfigRows

  /** `version` is the device's latest published version, and the payload cached for it is what a
      rebuild from that revision gives. */
  ghost predicate CachedAsRebuilt(e: Engine, db: Db, deviceId: string, version: Version) {
    && DeviceConfig(deviceId) in db.revisions && History(db.revisions[DeviceConfig(deviceId)]) != []
    && var h := History(db.revisions[DeviceConfig(deviceId)]);
       && h[|h| - 1].semVer == Some(version)
       && (deviceId, version) in db.cache && db.cache[(deviceId, version)] == Rebuilt(e, db, h[|h| - 1])
  }

  /** The same for the device's active version. */
  ghost predicate LatestCachedAsRebuilt(e: Engine, db: Db, deviceId: string) {
    var version := ActiveVersion(RevisionsOf(db, DeviceConfig(deviceId)));
    version.Some? && CachedAsRebuilt(e, db, deviceId, version.value)
  }

  /** The live payload of a device is the one rebuilt from its active revision exactly when the
      current config maps bring nothing that shows. */
  lemma LiveIsRebuiltIff(e: Engine, db: Db, deviceId: string, queried: set<nat>)
    requires RowsInv(db) && ActiveVersion(RevisionsOf(db, DeviceConfig(deviceId))).Some?
    ensures var h := History(RevisionsOf(db, DeviceConfig(deviceId)));
            && h != [] && h[|h| - 1].semVer == ActiveVersion(RevisionsOf(db, DeviceConfig(deviceId)))
            && (Live(e, db, deviceId, queried) == Rebuilt(e, db, h[|h| - 1]) <==>
                OverlayIdle(e.vault, db.secrets, MapGroups(db, deviceId, queried), h[|h| - 1].groups))
  {
    hide Lifecycle, CacheOk, LiveGroups, RebuiltGroups, OverlayIdle, MapGroups, ActiveVersion, ActiveGroups, History;
    var rows := RevisionsOf(db, DeviceConfig(deviceId));
    RowsOf(db, DeviceConfig(deviceId));
    SourceIsActive(rows);
    ActiveIsLast(rows);
    BuildersAgreeIff(e.vault, db.secrets, MapGroups(db, deviceId, queried), ActiveGroups(rows));
  }

  lemma ActiveIsLast(rows: seq<Revision>)
    requires Lifecycle(rows) && ActiveVersion(rows).Some?
    ensures History(rows) != [] && History(rows)[|History(rows)| - 1].semVer == ActiveVersion(rows)
  {
    hide Linked, UniqueNames;
    LifecycleFinds(rows);
  }

  /** Caching the live payload of the active version. */
  lemma CachedAgreesIff(e: Engine, db: Db, deviceId: string, queried: set<nat>, version: Version)
    requires RowsInv(db) && ActiveVersion(RevisionsOf(db, DeviceConfig(deviceId))) == Some(version)
    ensures LatestCachedAsRebuilt(e, Cached(e, db, deviceId, queried, version), deviceId) <==>
            OverlayIdle(e.vault, db.secrets, MapGroups(db, deviceId, queried),
                        ActiveGroups(RevisionsOf(db, DeviceConfig(deviceId))))
  {
    hide Lifecycle, CacheOk, OverlayIdle, MapGroups, ActiveVersion, ActiveGroups, History, Live, RebuiltGroups;
    var rows := RevisionsOf(db, DeviceConfig(deviceId));
    RowsOf(db, DeviceConfig(deviceId));
    SourceIsActive(rows);
    LiveIsRebuiltIff(e, db, deviceId, queried);
    assert DeviceConfig(deviceId) in db.revisions by { NoVersion(); }
  }

  lemma NoVersion()
    ensures ActiveVersion([]) == None
  {
  }

  lemma MapGroupsSame(db: Db, db': Db, deviceId: string, r: seq<Revision>, queried: set<nat>)
    requires db'.assocs == db.assocs && db'.revisions == db.revisions[DeviceConfig(deviceId) := r]
    ensures MapGroups(db', deviceId, queried) == MapGroups(db, deviceId, queried)
  {
    SameMaps(db.revisions, db'.revisions, MapIds(db.assocs, deviceId, queried));
  }

  // ---------------------------------------------------------------------------------------
  // The three operations that publish a device's draft
  // ---------------------------------------------------------------------------------------

  /** Right after `applyRevision` on a device's project the cached payload is the rebuilt one exactly
      when overlaying the config maps on the published draft changes nothing. */
  lemma ApplyAgreesIff(e: Engine, db: Db, deviceId: string, queried: set<nat>)
    requires RowsInv(db) && DeviceConfig(deviceId) in db.revisions
    requires FindStatus(db.revisions[DeviceConfig(deviceId)], Draft) >= 0
    ensures LatestCachedAsRebuilt(e, Apply(e, db, DeviceConfig(deviceId), queried).0, deviceId) <==>
            OverlayIdle(e.vault, db.secrets, MapGroups(db, deviceId, queried),
                        DraftGroups(db.revisions[DeviceConfig(deviceId)]))
  {
    hide Lifecycle, CacheOk, OverlayIdle, MapGroups, ActiveVersion, ActiveGroups, FindVersion, Applied, NextVersionOf,
         RowsFrozen, LatestCachedAsRebuilt, PublishesDraft, Live;
    var p := DeviceConfig(deviceId);
    var base := db.revisions[p];
    PublishRows(base);
    var db1 := db.(revisions := db.revisions[p := Applied(base)]);
    PublishesFrozen(base, Applied(base));
    ReplacedRows(db, db1, p, Applied(base));
    MapGroupsSame(db, db1, deviceId, Applied(base), queried);
    CachedAgreesIff(e, db1, deviceId, queried, NextVersionOf(base));
  }

  lemma PublishesFrozen(base: seq<Revision>, r: seq<Revision>)
    requires PublishesDraft(base, r)
    ensures Lifecycle(r) && Frozen(base, r)
  {
    hide Lifecycle, Frozen;
  }

  /** Publishing an edited draft, opening the next one and caching the payload. */
  lemma PublishedAsAgreesIff(e: Engine, db: Db, deviceId: string, queried: set<nat>)
    requires RowsInv(db) && DeviceConfig(deviceId) in db.revisions
    requires FindStatus(db.revisions[DeviceConfig(deviceId)], Draft) >= 0
    ensures var base := db.revisions[DeviceConfig(deviceId)];
            var db' := PublishedAs(e, db, deviceId, queried, Applied(base), DraftNumber(base), NextVersionOf(base));
            LatestCachedAsRebuilt(e, db', deviceId) <==>
            OverlayIdle(e.vault, db.secrets, MapGroups(db, deviceId, queried), DraftGroups(base))
  {
    hide Lifecycle, CacheOk, OverlayIdle, MapGroups, ActiveVersion, ActiveGroups, FindVersion, Applied, NextVersionOf,
         RowsFrozen, LatestCachedAsRebuilt, PublishesDraft, Live, WithNextDraft;
    var p := DeviceConfig(deviceId);
    var base := db.revisions[p];
    PublishRows(base);
    var r := WithNextDraft(Applied(base), DraftNumber(base));
    var db1 := db.(revisions := db.revisions[p := r]);
    PublishesFrozen(base, r);
    ReplacedRows(db, db1, p, r);
    MapGroupsSame(db, db1, deviceId, r, queried);
    CachedAgreesIff(e, db1, deviceId, queried, NextVersionOf(base));
  }

  /** The same for a refresh, with the draft it publishes. */
  lemma RefreshAgreesIff(e: Engine, db: Db, deviceId: string, known: set<nat>, queried: set<nat>)
    requires RowsInv(db) && DeviceConfig(deviceId) in db.revisions
    ensures var d' := RefreshedDraft(e, db, EnsureDraft(db.revisions[DeviceConfig(deviceId)]), deviceId, known);
            LatestCachedAsRebuilt(e, Refresh(e, db, deviceId, known, queried).0, deviceId) <==>
            OverlayIdle(e.vault, d'.secrets, MapGroups(db, deviceId, queried), d'.groups)
  {
    hide RowsInv, RowsFrozen, OverlayIdle, MapGroups, RefreshedDraft, EnsureDraft, Applied, NextVersionOf,
         LatestCachedAsRebuilt, PublishedAs, FindStatus, DraftGroups, ActiveGroups, History;
    var p := DeviceConfig(deviceId);
    var d' := RefreshedDraft(e, db, EnsureDraft(db.revisions[p]), deviceId, known);
    RefreshedRows(e, db, deviceId, known);
    MapGroupsSame(db, Edited(db, p, d'), deviceId, Edited(db, p, d').revisions[p], queried);
    PublishedAsAgreesIff(e, Edited(db, p, d'), deviceId, queried);
  }

  /** The same for provisioning. */
  lemma ProvisionAgreesIff(e: Engine, db: Db, deviceId: string, known: set<nat>, queried: set<nat>)
    requires RowsInv(db) && FindStatus(RevisionsOf(db, DeviceConfig(deviceId)), Active) < 0
    ensures var d' := ProvisionedDraft(e, db, EnsureDraft(RevisionsOf(db, DeviceConfig(deviceId))), deviceId, known);
            LatestCachedAsRebuilt(e, Provision(e, db, deviceId, known, queried), deviceId) <==>
            OverlayIdle(e.vault, d'.secrets, MapGroups(db, deviceId, queried), d'.groups)
  {
    hide RowsInv, RowsFrozen, OverlayIdle, MapGroups, ProvisionedDraft, EnsureDraft, Applied, NextVersionOf,
         LatestCachedAsRebuilt, PublishedAs, FindStatus, DraftGroups, ActiveGroups, History, Provision;
    var p := DeviceConfig(deviceId);
    var d' := ProvisionedDraft(e, db, EnsureDraft(RevisionsOf(db, p)), deviceId, known);
    ProvisionIsPublish(e, db, deviceId, known, queried);
    MapGroupsSame(db, Edited(db, p, d'), deviceId, Edited(db, p, d').revisions[p], queried);
    PublishedAsAgreesIff(e, Edited(db, p, d'), deviceId, queried);
  }

  // ---------------------------------------------------------------------------------------
  // With one flag per name, refresh and provisioning always agree
  // ---------------------------------------------------------------------------------------

  /** A group name has one `isGlobal` flag in the config maps and the draft they are merged into. */
  predicate FlagsAgree(mapGroups: seq<Group>, draft: seq<Group>) {
    && (forall i, j | 0 <= i < |mapGroups| && 0 <= j < |mapGroups| && mapGroups[i].name == mapGroups[j].name ::
          mapGroups[i].isGlobal == mapGroups[j].isGlobal)
    && (forall i, j | 0 <= i < |mapGroups| && 0 <= j < |draft| && mapGroups[i].name == draft[j].name ::
          mapGroups[i].isGlobal == draft[j].isGlobal)
  }

  lemma PopulatedCovers(mapGroups: seq<Group>, merged: seq<MergedGroup>, groups: seq<Group>, groups': seq<Group>)
    requires MergedShape(merged, mapGroups) && PopulatedLike(groups, groups', merged) && FlagsAgree(mapGroups, groups)
    ensures Covers(groups', mapGroups)
  {
    hide MergedShape, PopulatedLike;
    forall i | 0 <= i < |mapGroups| ensures CoversGroup(groups', mapGroups[i]) {
      PopulatedCoversOne(mapGroups, merged, groups, groups', i);
    }
  }

  lemma PopulatedCoversOne(mapGroups: seq<Group>, merged: seq<MergedGroup>, groups: seq<Group>, groups': seq<Group>,
                           i: nat)
    requires MergedShape(merged, mapGroups) && PopulatedLike(groups, groups', merged) && FlagsAgree(mapGroups, groups)
    requires i < |mapGroups|
    ensures CoversGroup(groups', mapGroups[i])
  {
    hide UniqueMerged;
    var g := mapGroups[i];
    assert CoveredBy(merged, g);
    var j :| 0 <= j < |merged| && merged[j].name == g.name && g.content.Keys <= merged[j].data.Keys;
    assert HoldsMerged(groups', merged[j]);
    var k :| 0 <= k < |groups'| && groups'[k].name == g.name && groups'[k].content.Keys == merged[j].data.Keys;
    if k >= |groups| {
      assert FlaggedBy(merged, groups'[k]);
      var w :| 0 <= w < |merged| && merged[w].name == g.name && merged[w].isGlobal == groups'[k].isGlobal;
      assert FlagFrom(mapGroups, merged[w]);
      var u :| 0 <= u < |mapGroups| && mapGroups[u].name == g.name && mapGroups[u].isGlobal == merged[w].isGlobal;
    }
  }

  lemma CoversMore(groups: seq<Group>, more: seq<Group>, mapGroups: seq<Group>, fewer: seq<Group>)
    requires Covers(groups, mapGroups) && groups <= more && forall i | 0 <= i < |fewer| :: fewer[i] in mapGroups
    ensures Covers(more, fewer)
  {
    forall i | 0 <= i < |fewer| ensures CoversGroup(more, fewer[i]) {
      var g := fewer[i];
      assert CoversGroup(groups, g);
      var j :| 0 <= j < |groups| && groups[j].name == g.name && groups[j].isGlobal == g.isGlobal
               && g.content.Keys <= groups[j].content.Keys;
      assert more[j] == groups[j];
    }
  }

  /** Fewer device types mean fewer applicable config maps. */
  lemma {:induction false} MapIdsAmong(assocs: seq<Assoc>, deviceId: string, fewer: set<nat>, typeIds: set<nat>)
    requires fewer <= typeIds
    ensures forall i | i in MapIds(assocs, deviceId, fewer) :: i in MapIds(assocs, deviceId, typeIds)
  {
    if assocs != [] {
      MapIdsAmong(assocs[..|assocs| - 1], deviceId, fewer, typeIds);
    }
  }

  lemma {:induction false} GroupsFrom(revisions: map<Project, seq<Revision>>, ids: seq<nat>, g: Group)
    ensures g in GroupsOfMaps(revisions, ids) <==>
            exists i :: i in ids && ConfigMap(i) in revisions && g in ActiveGroups(revisions[ConfigMap(i)])
  {
    hide ActiveGroups;
    if ids != [] {
      var n := |ids| - 1;
      assert ids == ids[..n] + [ids[n]];
      GroupsFrom(revisions, ids[..n], g);
    }
  }

  lemma MapGroupsAmong(db: Db, deviceId: string, fewer: set<nat>, typeIds: set<nat>)
    requires fewer <= typeIds
    ensures forall g | g in MapGroups(db, deviceId, fewer) :: g in MapGroups(db, deviceId, typeIds)
  {
    hide ActiveGroups, MapIds, GroupsOfMaps;
    MapIdsAmong(db.assocs, deviceId, fewer, typeIds);
    forall g | g in MapGroups(db, deviceId, fewer) ensures g in MapGroups(db, deviceId, typeIds) {
      GroupsFrom(db.revisions, MapIds(db.assocs, deviceId, fewer), g);
      GroupsFrom(db.revisions, MapIds(db.assocs, deviceId, typeIds), g);
    }
  }

  /** Populating a draft from the config maps of more device types hides those of fewer. */
  lemma PopulatedHides(e: Engine, db: Db, d: DraftState, more: seq<Group>, deviceId: string, known: set<nat>,
                       queried: set<nat>,
                       secrets: Secrets)
    requires queried <= known && FlagsAgree(MapGroups(db, deviceId, known), d.groups)
    requires Populated(e, d, MapGroups(db, deviceId, known)).groups <= more && UniqueNames(more)
    ensures OverlayIdle(e.vault, secrets, MapGroups(db, deviceId, queried), more)
  {
    hide FlagsAgree, Covers, MergedShape, PopulatedLike, MapGroups, MergedAll, PopulatedAll, OverlayIdle, UniqueNames;
    var maps := MapGroups(db, deviceId, known);
    var merged, groups' := MergedAll(e.vault, d.secrets, maps), Populated(e, d, maps).groups;
    MergedAllShape(e.vault, d.secrets, maps);
    UniqueOfShape(merged, maps);
    PopulatedGroups(e, d, maps);
    PopulateAllLike(e, d, merged);
    PopulatedCovers(maps, merged, d.groups, groups');
    MapGroupsAmong(db, deviceId, queried, known);
    CoversMore(groups', more, maps, MapGroups(db, deviceId, queried));
    CoveringHides(e.vault, secrets, MapGroups(db, deviceId, queried), more);
  }

  lemma UniqueOfShape(merged: seq<MergedGroup>, maps: seq<Group>)
    requires MergedShape(merged, maps)
    ensures UniqueMerged(merged)
  {
  }

  /** Right after a refresh the cached live payload is the one rebuilt from the published revision. */
  lemma RefreshAgrees(e: Engine, db: Db, deviceId: string, known: set<nat>, queried: set<nat>)
    requires RowsInv(db) && DeviceConfig(deviceId) in db.revisions && queried <= known
    requires FlagsAgree(MapGroups(db, deviceId, known), DraftGroups(db.revisions[DeviceConfig(deviceId)]))
    ensures LatestCachedAsRebuilt(e, Refresh(e, db, deviceId, known, queried).0, deviceId)
  {
    hide RowsFrozen, Lifecycle, CacheOk, Populated, MapGroups, OverlayIdle, RefreshedDraft, EnsureDraft, FlagsAgree,
         Refresh, LatestCachedAsRebuilt, DraftGroups, ActiveGroups, History, UniqueNames, FindStatus;
    var p := DeviceConfig(deviceId);
    var base := db.revisions[p];
    var d, d' := DraftOf(db, EnsureDraft(base)), RefreshedDraft(e, db, EnsureDraft(base), deviceId, known);
    DraftOfRows(db, p);
    RefreshedRows(e, db, deviceId, known);
    RowsOf(Edited(db, p, d'), p);
    PopulatedHides(e, db, d, d'.groups, deviceId, known, queried, d'.secrets);
    RefreshAgreesIff(e, db, deviceId, known, queried);
  }

  /** Likewise right after provisioning. */
  lemma ProvisionAgrees(e: Engine, db: Db, deviceId: string, known: set<nat>, queried: set<nat>)
    requires RowsInv(db) && FindStatus(RevisionsOf(db, DeviceConfig(deviceId)), Active) < 0 && queried <= known
    requires var rows := RevisionsOf(db, DeviceConfig(deviceId));
             FlagsAgree(MapGroups(db, deviceId, known), WithDefaults(DraftOf(db, EnsureDraft(rows))).groups)
    ensures LatestCachedAsRebuilt(e, Provision(e, db, deviceId, known, queried), deviceId)
  {
    hide RowsFrozen, Lifecycle, CacheOk, Populated, MapGroups, OverlayIdle, EnsureDraft, FlagsAgree, Provision,
         WithDefaults, LatestCachedAsRebuilt, DraftGroups, ActiveGroups, History, UniqueNames, FindStatus, PublishedAs,
         Applied, NextVersionOf;
    var p := DeviceConfig(deviceId);
    var revs := EnsureDraft(RevisionsOf(db, p));
    var d, d' := WithDefaults(DraftOf(db, revs)), ProvisionedDraft(e, db, revs, deviceId, known);
    ProvisionIsPublish(e, db, deviceId, known, queried);
    RowsOf(Edited(db, p, d'), p);
    PopulatedHides(e, db, d, d'.groups, deviceId, known, queried, d'.secrets);
    ProvisionAgreesIff(e, db, deviceId, known, queried);
  }
}
