/** When the operations on drafts and the reads succeed, what they leave alone, and what readers get. */
module OperationLaws {
  import opened Options
  import opened Tree
  import opened ConfigModel
  import opened Versioning
  import opened Revisions
  import opened DraftEdits
  import opened DraftNames
  import opened Payload
  import opened ConfigDb
  import opened ConfigRows
  import opened UpsertLaws

  /** All other projects are as they were, and so is the published history of this one. */
  ghost predicate OnlyDraftOf(db: Db, p: Project, db': Db) {
    && p in db.revisions && db'.revisions.Keys == db.revisions.Keys
    && (forall q | q in db.revisions && q != p :: db'.revisions[q] == db.revisions[q])
    && History(db'.revisions[p]) == History(db.revisions[p])
    && db'.assocs == db.assocs && db'.cache == db.cache
  }

  /** `upsertGroup` edits the draft of the project, which it opens when there is none, as the client's
      group says, and touches no other project; an unknown project is refused. */
  lemma UpsertGroupMeans(e: Engine, db: Db, p: Project, dto: UpsertDto)
    requires RowsInv(db)
    ensures var (db', outcome) := Upsert(e, db, p, dto);
            if p !in db.revisions then outcome == NotFound && db' == db
            else outcome == Done && OnlyDraftOf(db, p, db') && UpsertedAs(e.vault, DraftAt(db, p), dto, DraftAt(db', p))
  {
    hide RowsInv, RowsFrozen, UniqueNames, Upserted, EnsureDraft, Lifecycle, UpsertedAs, DraftGroups, FindStatus,
         History, WithDraftGroups;
    if p in db.revisions {
      var d := DraftAt(db, p);
      DraftOfRows(db, p);
      UpsertNames(e.vault, d, dto);
      UpsertMeans(e.vault, d, dto);
      WithDraftRows(db, p, Upserted(e.vault, d, dto));
      DraftStays(Upsert(e, db, p, dto).0.revisions[p]);
    }
  }

  lemma DraftStays(revs: seq<Revision>)
    requires FindStatus(revs, Draft) >= 0
    ensures EnsureDraft(revs) == revs
  {
    hide FindStatus;
  }

  /** `deleteGroup` takes the group of that name and its secrets from the draft, which it opens when
      there is none, and leaves every other group and project as it was; without such a group the
      draft is as before. */
  lemma DeleteGroupMeans(e: Engine, db: Db, p: Project, name: string)
    requires RowsInv(db)
    ensures var (db', outcome) := DeleteGroup(e, db, p, name);
            var d, d' := DraftAt(db, p), DraftAt(db', p);
            && (outcome == Done <==> p in db.revisions && name in GroupNames(d.groups))
            && (outcome != Done ==> outcome == NotFound && d' == d)
            && (if p in db.revisions then OnlyDraftOf(db, p, db') else db' == db)
            && (outcome == Done ==> RemovedFrom(d.groups, name, d'.groups))
            && (outcome == Done ==> d'.secrets == GroupSecretsDropped(e.vault, d.secrets, GroupNamed(d, name)))
  {
    hide RowsInv, RowsFrozen, UniqueNames, Removed, EnsureDraft, Lifecycle, RemovedFrom, DraftGroups, FindStatus,
         History, WithDraftGroups, GroupNames, GroupSecretsDropped;
    if p in db.revisions {
      var revs := EnsureDraft(db.revisions[p]);
      var d, i := DraftAt(db, p), FindGroup(DraftGroups(revs), name);
      DraftOfRows(db, p);
      var d1 := if i >= 0 then Removed(e.vault, d, i) else d;
      if i >= 0 {
        RemoveNames(e.vault, d, i);
        RemovedIs(e.vault, d, i);
      }
      WithDraftRows(db, p, d1);
      SameGroups(revs);
      DraftStays(DeleteGroup(e, db, p, name).0.revisions[p]);
    }
  }

  lemma SameGroups(revs: seq<Revision>)
    requires FindStatus(revs, Draft) >= 0
    ensures WithDraftGroups(revs, DraftGroups(revs)) == revs
  {
    hide FindStatus;
  }

  /** `createDraftRevision` refuses an unknown project and a second draft and changes nothing then;
      otherwise the project has a draft. */
  lemma CreateDraftMeans(e: Engine, db: Db, p: Project)
    requires RowsInv(db)
    ensures var (db', outcome) := CreateDraft(e, db, p);
            && (outcome == NotFound <==> p !in db.revisions)
            && (outcome == AlreadyExists <==> p in db.revisions && FindStatus(db.revisions[p], Draft) >= 0)
            && if outcome != Done then db' == db
               else OnlyDraftOf(db, p, db') && FindStatus(db'.revisions[p], Draft) >= 0
  {
    hide RowsFrozen, UniqueNames, ClonedMissing, EnsureDraft, Lifecycle, CacheOk, SourceGroups, FindStatus, History,
         DraftGroups, WithDraftGroups, ActiveGroups;
    if p in db.revisions && FindStatus(db.revisions[p], Draft) < 0 {
      var d, sources := DraftState(db.secrets, db.nextGroupId, []), SourceGroups(db.revisions[p]);
      SourceIsActive(db.revisions[p]);
      NoNamesUnique();
      CloneMissingNames(e.vault, d, sources, {});
      WithDraftRows(db, p, ClonedMissing(e.vault, d, sources, {}));
    }
  }

  /** A new draft is copied from the active revision; in rows that have none, a state no run of the model
      reaches, from the archived revision with the highest number. */
  lemma DraftSource(revs: seq<Revision>, i: nat)
    requires i < |revs| && FindStatus(revs, Active) < 0 && revs[i].status == Archived
    requires forall j | 0 <= j < |revs| && j != i && revs[j].status == Archived :: revs[j].number < revs[i].number
    ensures SourceGroups(revs) == revs[i].groups
  {
    hide FindStatus, LatestArchived;
    assert LatestArchived(revs) == i;
  }

  /** `deleteDraftRevision` needs a draft, and leaves exactly the published history. */
  lemma DeleteDraftMeans(e: Engine, db: Db, p: Project)
    requires RowsInv(db)
    ensures var (db', outcome) := DeleteDraft(e, db, p);
            && (outcome == Done <==> p in db.revisions && FindStatus(db.revisions[p], Draft) >= 0)
            && if outcome != Done then outcome == NotFound && db' == db
               else
                 && OnlyDraftOf(db, p, db') && FindStatus(db'.revisions[p], Draft) < 0
                 && db'.revisions[p] == History(db.revisions[p])
                 && db'.secrets == AllSecretsDropped(e.vault, db.secrets, DraftGroups(db.revisions[p]))
  {
    hide Lifecycle, CacheOk, AllSecretsDropped, Frozen, WithoutDraft, FindStatus, History, DraftGroups;
    if p in db.revisions && FindStatus(db.revisions[p], Draft) >= 0 {
      DropKeeps(db.revisions[p]);
      HistoryHasNoDraft(WithoutDraft(db.revisions[p]));
    }
  }

  lemma HistoryHasNoDraft(revs: seq<Revision>)
    requires Lifecycle(revs) && History(revs) == revs
    ensures FindStatus(revs, Draft) < 0
  {
    hide Linked, UniqueNames;
    LifecycleFinds(revs);
  }

  /** A device's current payload that is not cached carries the active version, if any, and answers
      every group and key from the highest layer that mentions the key: the global groups of the
      applicable config maps, those of the active revision, the config-map groups of the name, the
      active revision's own group. It is cached exactly under an active version. */
  lemma CurrentReadIsLookup(e: Engine, db: Db, deviceId: string, queried: set<nat>, name: string, key: string)
    requires var v := ActiveVersion(RevisionsOf(db, DeviceConfig(deviceId)));
             v.None? || (deviceId, v.value) !in db.cache
    ensures var (db', payload) := ReadLatest(e, db, deviceId, queried);
            var revs := RevisionsOf(db, DeviceConfig(deviceId));
            var v, own, maps := ActiveVersion(revs), ActiveGroups(revs), MapGroups(db, deviceId, queried);
            var found := Lookup(Layers(e.vault, db.secrets, maps, own, name), key);
            && payload.semVer == v
            && (name in payload.groups <==>
                NamedLayers(e.vault, db.secrets, maps, name) != [] || NamedLayers(e.vault, db.secrets, own, name) != [])
            && (name in payload.groups ==>
                && (key in payload.groups[name] <==> found.Some? && found.value != Null)
                && (key in payload.groups[name] ==> payload.groups[name][key] == found.value))
            && db'.revisions == db.revisions && db'.secrets == db.secrets
            && db'.cache == if v.Some? then db.cache[(deviceId, v.value) := payload] else db.cache
  {
    hide LiveGroups, MapGroups, ActiveGroups, ActiveVersion, Lookup, Layers, NamedLayers;
    var revs := RevisionsOf(db, DeviceConfig(deviceId));
    LiveIsLookup(e.vault, db.secrets, MapGroups(db, deviceId, queried), ActiveGroups(revs), name, key);
  }

  /** A read by version finds a payload exactly when a published revision of the device has the
      version, and one that was not cached is rebuilt from a revision of that version alone. */
  lemma VersionReadIff(e: Engine, db: Db, deviceId: string, version: Version)
    requires RowsInv(db)
    ensures var (db', payload) := ReadVersion(e, db, deviceId, version);
            var h := History(RevisionsOf(db, DeviceConfig(deviceId)));
            && (payload.Some? <==> exists i :: 0 <= i < |h| && h[i].semVer == Some(version))
            && (payload.Some? && (deviceId, version) !in db.cache ==>
                exists i :: 0 <= i < |h| && h[i].semVer == Some(version)
                  && payload.value.semVer == Some(version)
                  && payload.value.groups == RebuiltGroups(e.vault, db.secrets, h[i].groups))
  {
    hide Lifecycle, RebuiltGroups, FindVersion, History;
    var revs := RevisionsOf(db, DeviceConfig(deviceId));
    var i, h := FindVersion(revs, version), History(revs);
    RowsOf(db, DeviceConfig(deviceId));
    VersionInHistory(revs);
    if i >= 0 {
      assert h[i] == revs[i] && h[i].semVer == Some(version);
    }
  }

  lemma VersionInHistory(revs: seq<Revision>)
    requires Lifecycle(revs)
    ensures |History(revs)| <= |revs| && forall i | 0 <= i < |revs| ::
              (i < |History(revs)| ==> History(revs)[i] == revs[i]) && (i >= |History(revs)| ==> revs[i].semVer == None)
  {
    hide Linked, UniqueNames;
    LifecycleFinds(revs);
  }
}
