/** What holds of published contents over every run, and when an operation, a clone or a loss of the
    cache changes what readers get. */
module ConfigTheorems {
  import opened Options
  import opened Tree
  import opened Vault
  import opened SecretOwnership
  import opened ConfigModel
  import opened Sets
  import opened Versioning
  import opened Revisions
  import opened DraftEdits
  import opened DraftNames
  import opened DraftLaws
  import opened CloneContents
  import opened VaultWrites
  import opened CloneWrites
  import opened Payload
  import opened ConfigDb
  import opened ConfigRows
  import opened ConfigIds
  import opened ConfigRuns
  import opened ContentKept
  import opened HarmlessRuns
  import opened RowTheorems
  import opened PayloadTheorems

  // ---------------------------------------------------------------------------------------
  // Published history is frozen
  // ---------------------------------------------------------------------------------------

  /** A run in which references clients send name secrets of the group they edit, of published groups
      or of no group, or in which every operation, whatever it refers to, is harmless when called. */
  ghost predicate SafeRun(e: Engine, db: Db, ops: seq<Op>) {
    || (Inv(e, db) && ValidRun(e, db, ops))
    || (RowsInv(db) && Given(db) && HarmlessRun(e, db, ops))
  }

  lemma SafeRows(e: Engine, db: Db, ops: seq<Op>)
    requires SafeRun(e, db, ops)
    ensures RowsInv(db) && RowsInv(Run(e, db, ops)) && RowsFrozen(db, Run(e, db, ops))
  {
    hide RowsInv, Given, OwnedDb, HarmlessRun, ValidRun, Run, RowsFrozen;
    if Inv(e, db) && ValidRun(e, db, ops) {
      ValidIsTimely(e, db, ops);
    } else {
      HarmlessIsTimely(e, db, ops);
    }
    RunRows(e, db, ops);
  }

  /** What a valid run does to a published group. */
  lemma ValidKeeps(e: Engine, db: Db, ops: seq<Op>, p: Project, i: nat, j: nat)
    requires Inv(e, db) && ValidRun(e, db, ops) && p in db.revisions && i < |History(db.revisions[p])|
    requires j < |History(db.revisions[p])[i].groups|
    ensures var g := History(db.revisions[p])[i].groups[j];
            ResolvedContent(e.vault, Run(e, db, ops).secrets, g) == ResolvedContent(e.vault, db.secrets, g)
  {
    hide Run, ValidRun, RowsInv, Owned, PublishedIds, Held, HeldByAll, Agree, DraftsOk, VaultOk, ResolvedContent,
         RowsFrozen, History;
    RunKeeps(e, db, ops);
    SecretsHeldByAll(e, db);
    var g := History(db.revisions[p])[i].groups[j];
    assert Owned(Obj(g.content), e.vault.mount, PublishedIds(db.revisions));
    SameResolved(e.vault, db.secrets, Run(e, db, ops).secrets, g, PublishedIds(db.revisions));
  }

  /** The groups and the resolved contents of a published revision are the same after every such run. */
  lemma PublishedIsFrozen(e: Engine, db: Db, ops: seq<Op>, p: Project, i: nat)
    requires SafeRun(e, db, ops) && p in db.revisions && i < |History(db.revisions[p])|
    ensures var db' := Run(e, db, ops);
            && p in db'.revisions && i < |History(db'.revisions[p])|
            && var r, r' := History(db.revisions[p])[i], History(db'.revisions[p])[i];
               && r'.groups == r.groups && r'.semVer == r.semVer
               && (forall j | 0 <= j < |r.groups| ::
                     ResolvedContent(e.vault, db'.secrets, r.groups[j])
                       == ResolvedContent(e.vault, db.secrets, r.groups[j]))
  {
    hide Run, ValidRun, HarmlessRun, RowsInv, OwnedDb, ResolvedContent, History, Given, IsPublished;
    SafeRows(e, db, ops);
    var db' := Run(e, db, ops);
    RowsAt(db, db', p);
    var r := History(db.revisions[p])[i];
    forall j | 0 <= j < |r.groups|
      ensures ResolvedContent(e.vault, db'.secrets, r.groups[j]) == ResolvedContent(e.vault, db.secrets, r.groups[j])
    {
      if Inv(e, db) && ValidRun(e, db, ops) {
        ValidKeeps(e, db, ops, p, i, j);
      } else {
        HarmlessRunKeeps(e, db, ops);
        assert IsPublished(db, r.groups[j]) by { PublishedAt(db, p, i, j); }
      }
    }
  }

  lemma PublishedAt(db: Db, p: Project, i: nat, j: nat)
    requires p in db.revisions && i < |History(db.revisions[p])| && j < |History(db.revisions[p])[i].groups|
    ensures IsPublished(db, History(db.revisions[p])[i].groups[j])
  {
  }

  lemma RowsAt(db: Db, db': Db, p: Project)
    requires RowsInv(db) && RowsInv(db') && RowsFrozen(db, db') && p in db.revisions
    ensures p in db'.revisions
    ensures var h, h' := History(db.revisions[p]), History(db'.revisions[p]);
            |h| <= |h'| && forall i | 0 <= i < |h| :: h'[i].groups == h[i].groups && h'[i].semVer == h[i].semVer
  {
    hide Lifecycle, CacheOk, Frozen, History;
    HistoryGrows(db.revisions[p], db'.revisions[p]);
  }

  /** `h` in the store `b` shows readers of a payload what `g` in the store `a` does. */
  ghost predicate ShowsAlike(vault: Settings, a: Secrets, g: Group, b: Secrets, h: Group) {
    h.name == g.name && h.isGlobal == g.isGlobal && Alike(vault, a, g, b, h)
  }

  lemma {:induction false} GlobalsAlike(vault: Settings, a: Secrets, groups: seq<Group>, b: Secrets, copies: seq<Group>)
    requires |copies| == |groups| && forall j | 0 <= j < |groups| :: ShowsAlike(vault, a, groups[j], b, copies[j])
    ensures Globals(vault, a, groups) == Globals(vault, b, copies)
  {
    hide ResolvedContent;
    if groups != [] {
      assert ShowsAlike(vault, a, groups[|groups| - 1], b, copies[|groups| - 1]);
      GlobalsAlike(vault, a, groups[..|groups| - 1], b, copies[..|groups| - 1]);
    }
  }

  lemma {:induction false} RebuiltFromAlike(vault: Settings, a: Secrets, groups: seq<Group>, b: Secrets,
                                            copies: seq<Group>, globals: Fields)
    requires |copies| == |groups| && forall j | 0 <= j < |groups| :: ShowsAlike(vault, a, groups[j], b, copies[j])
    ensures RebuiltFrom(vault, a, globals, groups) == RebuiltFrom(vault, b, globals, copies)
  {
    hide ResolvedContent, WithoutNulls;
    if groups != [] {
      assert ShowsAlike(vault, a, groups[|groups| - 1], b, copies[|groups| - 1]);
      RebuiltFromAlike(vault, a, groups[..|groups| - 1], b, copies[..|groups| - 1], globals);
    }
  }

  lemma RebuiltAlike(vault: Settings, a: Secrets, groups: seq<Group>, b: Secrets, copies: seq<Group>)
    requires |copies| == |groups| && forall j | 0 <= j < |groups| :: ShowsAlike(vault, a, groups[j], b, copies[j])
    ensures RebuiltGroups(vault, a, groups) == RebuiltGroups(vault, b, copies)
  {
    hide ShowsAlike, RebuiltFrom, Globals;
    GlobalsAlike(vault, a, groups, b, copies);
    RebuiltFromAlike(vault, a, groups, b, copies, Globals(vault, a, groups));
  }

  /** So the payload rebuilt from a published revision is the same after every run. */
  lemma RebuildIsStable(e: Engine, db: Db, ops: seq<Op>, p: Project, i: nat)
    requires SafeRun(e, db, ops) && p in db.revisions && i < |History(db.revisions[p])|
    ensures var db' := Run(e, db, ops);
            && p in db'.revisions && i < |History(db'.revisions[p])|
            && Rebuilt(e, db', History(db'.revisions[p])[i]) == Rebuilt(e, db, History(db.revisions[p])[i])
  {
    hide Run, SafeRun, ResolvedContent, RebuiltGroups;
    PublishedIsFrozen(e, db, ops, p, i);
    var db' := Run(e, db, ops);
    var groups := History(db.revisions[p])[i].groups;
    RebuiltAlike(e.vault, db.secrets, groups, db'.secrets, groups);
  }

  // ---------------------------------------------------------------------------------------
  // Losing the cache
  // ---------------------------------------------------------------------------------------

  lemma RebuiltIgnoresCache(e: Engine, db: Db, r: Revision)
    ensures Rebuilt(e, db.(cache := map[]), r) == Rebuilt(e, db, r)
  {
    hide RebuiltGroups;
  }

  /** With increasing versions the query by version finds the revision published under it. */
  lemma VersionFoundAt(revs: seq<Revision>, i: nat, version: Version)
    requires Lifecycle(revs) && NonEmptyBeforeLast(History(revs)) && i < |History(revs)|
             && History(revs)[i].semVer == Some(version)
    ensures FindVersion(revs, version) == i && revs[i] == History(revs)[i]
  {
    LifecycleFinds(revs);
    var j := FindVersion(revs, version);
    assert revs[i].semVer == Some(version);
    if 0 <= j < i {
      IncreasingBetween(History(revs), j, i);
    }
  }

  /** A cached payload survives a loss of the cache, whatever happened before the loss, exactly when
      it was the payload rebuilt from the revision published under its version. */
  lemma LossIff(e: Engine, db: Db, deviceId: string, version: Version, ops: seq<Op>)
    requires SafeRun(e, db, ops) && NonEmptyHistories(Run(e, db, ops)) && (deviceId, version) in db.cache
    ensures var rows := RevisionsOf(db, DeviceConfig(deviceId));
            var i, cached := FindVersion(rows, version), db.cache[(deviceId, version)];
            && i >= 0
            && (ReadVersion(e, Run(e, db, ops).(cache := map[]), deviceId, version).1 == Some(cached) <==>
                cached == Rebuilt(e, db, rows[i]))
  {
    hide Run, SafeRun, Rebuilt, FrozenDb, RowsFrozen, Lifecycle, NonEmptyBeforeLast, History;
    var p, db' := DeviceConfig(deviceId), Run(e, db, ops);
    var rows := RevisionsOf(db, p);
    var i := FindVersion(rows, version);
    SafeRows(e, db, ops);
    assert i >= 0 && rows != [];
    NonEmptyBefore(db, db');
    FoundIsPublished(rows, version);
    RebuildIsStable(e, db, ops, p, i);
    PublishedIsFrozen(e, db, ops, p, i);
    VersionFoundAt(db'.revisions[p], i, version);
    RebuiltIgnoresCache(e, db', History(db'.revisions[p])[i]);
  }

  lemma FoundIsPublished(rows: seq<Revision>, version: Version)
    requires Lifecycle(rows) && FindVersion(rows, version) >= 0
    ensures var i := FindVersion(rows, version);
            i < |History(rows)| && History(rows)[i] == rows[i] && History(rows)[i].semVer == Some(version)
  {
    hide Linked, UniqueNames;
    LifecycleFinds(rows);
  }

  /** For the payload of the latest version that is the condition the publish decides. */
  lemma LatestLossIff(e: Engine, db: Db, deviceId: string, version: Version, ops: seq<Op>)
    requires SafeRun(e, db, ops) && NonEmptyHistories(Run(e, db, ops)) && (deviceId, version) in db.cache
    requires ActiveVersion(RevisionsOf(db, DeviceConfig(deviceId))) == Some(version)
    ensures ReadVersion(e, Run(e, db, ops).(cache := map[]), deviceId, version).1 == Some(db.cache[(deviceId, version)])
       <==> LatestCachedAsRebuilt(e, db, deviceId)
  {
    hide Run, SafeRun, Rebuilt, RowsFrozen, Lifecycle, NonEmptyBeforeLast, History, ReadVersion, ActiveVersion;
    var rows := RevisionsOf(db, DeviceConfig(deviceId));
    LossIff(e, db, deviceId, version, ops);
    SafeRows(e, db, ops);
    NonEmptyBefore(db, Run(e, db, ops));
    NoVersion();
    RowsOf(db, DeviceConfig(deviceId));
    ActiveIsLast(rows);
    VersionFoundAt(rows, |History(rows)| - 1, version);
  }

  /** So for a payload cached by `applyRevision` the loss is harmless to reads by version exactly when
      overlaying the config maps on the published draft changed nothing. */
  lemma ApplyLossIff(e: Engine, db: Db, deviceId: string, queried: set<nat>, ops: seq<Op>)
    requires RowsInv(db) && DeviceConfig(deviceId) in db.revisions
             && FindStatus(db.revisions[DeviceConfig(deviceId)], Draft) >= 0
    requires var db' := Apply(e, db, DeviceConfig(deviceId), queried).0;
             SafeRun(e, db', ops) && NonEmptyHistories(Run(e, db', ops))
    ensures var db' := Apply(e, db, DeviceConfig(deviceId), queried).0;
            var key := (deviceId, NextVersionOf(db.revisions[DeviceConfig(deviceId)]));
            && key in db'.cache
            && (ReadVersion(e, Run(e, db', ops).(cache := map[]), deviceId, key.1).1 == Some(db'.cache[key]) <==>
                OverlayIdle(e.vault, db.secrets, MapGroups(db, deviceId, queried),
                            DraftGroups(db.revisions[DeviceConfig(deviceId)])))
  {
    hide Run, SafeRun, RowsFrozen, FrozenDb, Lifecycle, CacheOk, NonEmptyHistories, ReadVersion, ActiveVersion, Applied,
         NextVersionOf, Live, OverlayIdle, MapGroups, PublishesDraft, FindVersion, LatestCachedAsRebuilt;
    var base := db.revisions[DeviceConfig(deviceId)];
    PublishRows(base);
    ApplyAgreesIff(e, db, deviceId, queried);
    LatestLossIff(e, Apply(e, db, DeviceConfig(deviceId), queried).0, deviceId, NextVersionOf(base), ops);
  }

  /** The same for a payload cached by a refresh. */
  lemma RefreshLossIff(e: Engine, db: Db, deviceId: string, known: set<nat>, queried: set<nat>, ops: seq<Op>)
    requires RowsInv(db) && DeviceConfig(deviceId) in db.revisions
    requires var db' := Refresh(e, db, deviceId, known, queried).0;
             SafeRun(e, db', ops) && NonEmptyHistories(Run(e, db', ops))
    ensures var db' := Refresh(e, db, deviceId, known, queried).0;
            var d' := RefreshedDraft(e, db, EnsureDraft(db.revisions[DeviceConfig(deviceId)]), deviceId, known);
            var version := ActiveVersion(RevisionsOf(db', DeviceConfig(deviceId)));
            && version.Some? && (deviceId, version.value) in db'.cache
            && (ReadVersion(e, Run(e, db', ops).(cache := map[]), deviceId, version.value).1
                == Some(db'.cache[(deviceId, version.value)]) <==>
                OverlayIdle(e.vault, d'.secrets, MapGroups(db, deviceId, queried), d'.groups))
  {
    hide Run, SafeRun, RowsFrozen, FrozenDb, RowsInv, NonEmptyHistories, ReadVersion, RefreshedDraft, EnsureDraft,
         OverlayIdle, MapGroups, LatestCachedAsRebuilt, Refresh;
    var db' := Refresh(e, db, deviceId, known, queried).0;
    RefreshAgreesIff(e, db, deviceId, known, queried);
    RefreshIsCached(e, db, deviceId, known, queried);
    LatestLossIff(e, db', deviceId, ActiveVersion(RevisionsOf(db', DeviceConfig(deviceId))).value, ops);
  }

  lemma RefreshIsCached(e: Engine, db: Db, deviceId: string, known: set<nat>, queried: set<nat>)
    requires RowsInv(db) && DeviceConfig(deviceId) in db.revisions
    ensures var db' := Refresh(e, db, deviceId, known, queried).0;
            var version := ActiveVersion(RevisionsOf(db', DeviceConfig(deviceId)));
            version.Some? && (deviceId, version.value) in db'.cache
  {
    hide RowsFrozen, Lifecycle, CacheOk, RefreshedDraft, EnsureDraft, ActiveVersion, Live, FindVersion, Applied,
         NextVersionOf, PublishesDraft, WithNextDraft;
    RefreshedRows(e, db, deviceId, known);
    var p := DeviceConfig(deviceId);
    PublishRows(Edited(db, p, RefreshedDraft(e, db, EnsureDraft(db.revisions[p]), deviceId, known)).revisions[p]);
  }

  /** A loss followed by a read of the current payload: a payload that was the rebuilt one comes back
      exactly when the config maps of that moment bring nothing that shows. */
  lemma CurrentAfterLossIff(e: Engine, db: Db, deviceId: string, version: Version, ops: seq<Op>, queried: set<nat>)
    requires CachedAsRebuilt(e, db, deviceId, version) && SafeRun(e, db, ops)
    requires var db' := Run(e, db, ops);
             NonEmptyHistories(db') && ActiveVersion(RevisionsOf(db', DeviceConfig(deviceId))) == Some(version)
    ensures var db' := Run(e, db, ops);
            ReadLatest(e, db'.(cache := map[]), deviceId, queried).1 == db.cache[(deviceId, version)] <==>
            OverlayIdle(e.vault, db'.secrets, MapGroups(db', deviceId, queried),
                        ActiveGroups(RevisionsOf(db', DeviceConfig(deviceId))))
  {
    hide Run, SafeRun, RowsFrozen, FrozenDb, Lifecycle, NonEmptyBeforeLast, Live, Rebuilt, OverlayIdle, ActiveVersion,
         ActiveGroups, History, MapGroups;
    var p, db' := DeviceConfig(deviceId), Run(e, db, ops);
    var i := |History(db.revisions[p])| - 1;
    SafeRows(e, db, ops);
    PublishedIsFrozen(e, db, ops, p, i);
    RebuildIsStable(e, db, ops, p, i);
    RowsOf(db', p);
    ActiveIsLast(db'.revisions[p]);
    VersionFoundAt(db'.revisions[p], i, version);
    VersionFoundAt(db'.revisions[p], |History(db'.revisions[p])| - 1, version);
    SourceIsActive(db'.revisions[p]);
    LiveIsRebuiltIff(e, db', deviceId, queried);
    LiveIgnoresCache(e, db', deviceId, queried);
  }

  lemma LiveIgnoresCache(e: Engine, db: Db, deviceId: string, queried: set<nat>)
    ensures Live(e, db.(cache := map[]), deviceId, queried) == Live(e, db, deviceId, queried)
  {
    hide LiveGroups, ActiveGroups, ActiveVersion;
  }

  // ---------------------------------------------------------------------------------------
  // Cloning the active revision
  // ---------------------------------------------------------------------------------------

  /** The sensitive paths of the project's active groups name secrets of ids given out, or of no group. */
  ghost predicate NamesGiven(e: Engine, db: Db, p: Project) {
    forall g | g in ActiveGroups(RevisionsOf(db, p)) :: OwnedAt(g, e.vault.mount, Below(db.nextGroupId))
  }

  /** A new draft has a clone of every active group. Whatever the group refers to among given ids, the
      clone of one that resolves directly resolves like it exactly when it is faithful; with owned
      references being faithful is enough for all groups. */
  lemma CreateDraftAlike(e: Engine, db: Db, p: Project, i: nat)
    requires RowsInv(db) && p in db.revisions && FindStatus(db.revisions[p], Draft) < 0
             && i < |ActiveGroups(db.revisions[p])|
    ensures var db', source := CreateDraft(e, db, p).0, ActiveGroups(db.revisions[p])[i];
            var groups := DraftGroups(db'.revisions[p]);
            var j := FindGroup(groups, source.name);
            && j >= 0 && CopyOf(source, groups[j])
            && (NamesGiven(e, db, p) && DirectGroup(e.vault, db.secrets, source) ==>
                (Alike(e.vault, db.secrets, source, db'.secrets, groups[j]) <==> Faithful(e.vault, db.secrets, source)))
            && (Inv(e, db) ==> AlikeIff(e.vault, db.secrets, source, db'.secrets, groups[j]))
  {
    hide OwnedDb, Lifecycle, CacheOk, DraftOk, ClonedMissing, PublishedIds, Owned, OwnedAt, ActiveGroups, SourceGroups,
         RowsFrozen, Alike, Faithful, DirectGroup, UniqueNames, CopyOf, EnsureDraft, History, DraftGroups, FindStatus;
    var d, sources := DraftState(db.secrets, db.nextGroupId, []), SourceGroups(db.revisions[p]);
    var d' := ClonedMissing(e.vault, d, sources, {});
    SourceIsActive(db.revisions[p]);
    NoNamesUnique();
    CloneMissingNames(e.vault, d, sources, {});
    WithDraftRows(db, p, d');
    assert sources[i].name in GroupNames(sources);
    ClonedMissingCopies(e.vault, d, sources, {}, i);
    if NamesGiven(e, db, p) && DirectGroup(e.vault, db.secrets, sources[i]) {
      ClonedMissingDirect(e.vault, d, sources, {}, Below(db.nextGroupId), i);
    }
    if Inv(e, db) {
      DraftIsOk(e, db, p);
      ActiveGroupsOwned(e, db, p);
      ClonedMissingAlike(e.vault, d, sources, {}, PublishedIds(db.revisions), i);
    }
  }

  /** So a draft opened while every active group is faithful holds one copy of each, in their order,
      and rebuilds to the payload the active revision rebuilds to. */
  lemma OpenedDraftRebuilds(e: Engine, db: Db, p: Project)
    requires RowsInv(db) && p in db.revisions && FindStatus(db.revisions[p], Draft) < 0
    requires forall g | g in ActiveGroups(db.revisions[p]) :: Faithful(e.vault, db.secrets, g)
    requires || Inv(e, db)
             || (NamesGiven(e, db, p)
                 && forall g | g in ActiveGroups(db.revisions[p]) :: DirectGroup(e.vault, db.secrets, g))
    ensures var db', sources := CreateDraft(e, db, p).0, ActiveGroups(db.revisions[p]);
            var copies := DraftGroups(db'.revisions[p]);
            && |copies| == |sources| && (forall i | 0 <= i < |sources| :: CopyOf(sources[i], copies[i]))
            && RebuiltGroups(e.vault, db'.secrets, copies) == RebuiltGroups(e.vault, db.secrets, sources)
  {
    hide RowsInv, Inv, NamesGiven, Faithful, DirectGroup, Alike, RebuiltGroups, CreateDraft, ActiveGroups, DraftGroups,
         UniqueNames, FindStatus;
    var db', sources := CreateDraft(e, db, p).0, ActiveGroups(db.revisions[p]);
    OpenedDraftCopies(e, db, p);
    var copies := DraftGroups(db'.revisions[p]);
    forall i | 0 <= i < |sources| ensures ShowsAlike(e.vault, db.secrets, sources[i], db'.secrets, copies[i]) {
      assert CopyOf(sources[i], copies[i]) && sources[i] in sources;
      CreateDraftAlike(e, db, p, i);
      FoundAt(copies, i);
    }
    RebuiltAlike(e.vault, db.secrets, sources, db'.secrets, copies);
  }

  lemma OpenedDraftCopies(e: Engine, db: Db, p: Project)
    requires RowsInv(db) && p in db.revisions && FindStatus(db.revisions[p], Draft) < 0
    ensures var db', sources := CreateDraft(e, db, p).0, ActiveGroups(db.revisions[p]);
            && p in db'.revisions
            && var copies := DraftGroups(db'.revisions[p]);
               && |copies| == |sources| && UniqueNames(copies)
               && (forall i | 0 <= i < |sources| :: CopyOf(sources[i], copies[i]))
  {
    hide ClonedMissing, UniqueNames, CopyOf, CreateDraft, DraftGroups, ActiveGroups, Lifecycle, CacheOk, FindStatus,
         GroupNames;
    var d, sources := DraftState(db.secrets, db.nextGroupId, []), ActiveGroups(db.revisions[p]);
    OpenedDraftIs(e, db, p);
    SourceIsActive(db.revisions[p]);
    CopiesOfAll(e.vault, d, sources);
  }

  /** The draft `createDraftRevision` opens. */
  lemma OpenedDraftIs(e: Engine, db: Db, p: Project)
    requires RowsInv(db) && p in db.revisions && FindStatus(db.revisions[p], Draft) < 0
    ensures var db' := CreateDraft(e, db, p).0;
            && p in db'.revisions
            && DraftGroups(db'.revisions[p])
            == ClonedMissing(e.vault, DraftState(db.secrets, db.nextGroupId, []), ActiveGroups(db.revisions[p]), {})
               .groups
  {
    hide Lifecycle, CacheOk, ClonedMissing, ActiveGroups, SourceGroups, RowsFrozen, UniqueNames, EnsureDraft, History,
         DraftGroups, FindStatus;
    var d, sources := DraftState(db.secrets, db.nextGroupId, []), SourceGroups(db.revisions[p]);
    SourceIsActive(db.revisions[p]);
    NoNamesUnique();
    CloneMissingNames(e.vault, d, sources, {});
    WithDraftRows(db, p, ClonedMissing(e.vault, d, sources, {}));
  }

  /** A refresh publishes a clone of every previous active group the config maps do not bring. It
      resolves like that group under the same condition, where populating does not disturb the group. */
  lemma RefreshAlike(e: Engine, db: Db, deviceId: string, known: set<nat>, queried: set<nat>, i: nat)
    requires RowsInv(db) && Given(db) && DeviceConfig(deviceId) in db.revisions
             && i < |ActiveGroups(db.revisions[DeviceConfig(deviceId)])|
    requires var d, source := DraftAt(db, DeviceConfig(deviceId)),
             ActiveGroups(db.revisions[DeviceConfig(deviceId)])[i];
             source.name !in GroupNames(Populated(e, d, MapGroups(db, deviceId, known)).groups)
    ensures var p, db' := DeviceConfig(deviceId), Refresh(e, db, deviceId, known, queried).0;
            var source, groups := ActiveGroups(db.revisions[p])[i], ActiveGroups(RevisionsOf(db', p));
            var j := FindGroup(groups, source.name);
            && j >= 0 && CopyOf(source, groups[j])
            && (NamesGiven(e, db, p) && DirectGroup(e.vault, db.secrets, source)
                && !Disturbs(e.vault, db.secrets, RefreshWrites(e, db, deviceId, known), source) ==>
                (Alike(e.vault, db.secrets, source, db'.secrets, groups[j]) <==> Faithful(e.vault, db.secrets, source)))
            && (Inv(e, db) ==> AlikeIff(e.vault, db.secrets, source, db'.secrets, groups[j]))
  {
    hide OwnedDb, Lifecycle, CacheOk, ClonedMissing, PublishedIds, Owned, OwnedAt, ActiveGroups, SourceGroups,
         RowsFrozen, AlikeIff, ClonedAs, UniqueNames, EnsureDraft, History, DraftGroups, FindStatus, Populated,
         MapGroups, Live, Applied, NextVersionOf, WithNextDraft, PublishesDraft, ActiveVersion, FindVersion, Faithful,
         DirectGroup, ResolvedContent, FreshFrom, Disturbs, RefreshWrites, NamesGiven, CopyOf, MergedAll, PopulatedAll;
    var p := DeviceConfig(deviceId);
    var d := DraftAt(db, p);
    var d1, sources := Populated(e, d, MapGroups(db, deviceId, known)), ActiveGroups(db.revisions[p]);
    RowsOf(db, p);
    ActiveGroupsKept(db.revisions[p]);
    SourceIsActive(db.revisions[p]);
    RefreshedRows(e, db, deviceId, known);
    PublishRows(Edited(db, p, RefreshedDraft(e, db, EnsureDraft(db.revisions[p]), deviceId, known)).revisions[p]);
    assert sources[i].name in GroupNames(sources);
    DraftOfRows(db, p);
    PopulateNames(e, d, MergedAll(e.vault, d.secrets, MapGroups(db, deviceId, known)));
    PopulatedGroups(e, d, MapGroups(db, deviceId, known));
    ClonedMissingCopies(e.vault, d1, sources, GroupNames(d1.groups), i);
    if NamesGiven(e, db, p) && DirectGroup(e.vault, db.secrets, sources[i])
       && !Disturbs(e.vault, db.secrets, RefreshWrites(e, db, deviceId, known), sources[i])
    {
      RefreshedDirect(e, db, deviceId, known, i);
    }
    if Inv(e, db) {
      RefreshedOwned(e, db, deviceId, known, i);
    }
  }

  /** The draft a refresh publishes, for all references. */
  lemma RefreshedDirect(e: Engine, db: Db, deviceId: string, known: set<nat>, i: nat)
    requires RowsInv(db) && Given(db) && DeviceConfig(deviceId) in db.revisions
             && NamesGiven(e, db, DeviceConfig(deviceId))
    requires i < |ActiveGroups(db.revisions[DeviceConfig(deviceId)])|
    requires var p := DeviceConfig(deviceId);
             var d1, source := Populated(e, DraftAt(db, p), MapGroups(db, deviceId, known)),
               ActiveGroups(db.revisions[p])[i];
             && source.name !in GroupNames(d1.groups) && DirectGroup(e.vault, db.secrets, source)
             && !Disturbs(e.vault, db.secrets, RefreshWrites(e, db, deviceId, known), source)
    ensures var p := DeviceConfig(deviceId);
            var d1, sources := Populated(e, DraftAt(db, p), MapGroups(db, deviceId, known)),
              ActiveGroups(db.revisions[p]);
            var d' := ClonedMissing(e.vault, d1, sources, GroupNames(d1.groups));
            var j := FindGroup(d'.groups, sources[i].name);
            j >= 0 && (Alike(e.vault, db.secrets, sources[i], d'.secrets, d'.groups[j]) <==>
                       Faithful(e.vault, db.secrets, sources[i]))
  {
    hide RowsInv, ClonedMissing, OwnedAt, ActiveGroups, UniqueNames, EnsureDraft, DraftGroups, MapGroups, Faithful,
         DirectGroup, ResolvedContent, FreshFrom, Disturbs, PopulateWrites, MergedAll, PopulatedAll, Does, WritesBelow,
         GroupNames, History;
    var p := DeviceConfig(deviceId);
    var d, merged := DraftAt(db, p), MergedAll(e.vault, db.secrets, MapGroups(db, deviceId, known));
    var d1, sources := Populated(e, d, MapGroups(db, deviceId, known)), ActiveGroups(db.revisions[p]);
    DraftGiven(db, p);
    DraftOfRows(db, p);
    PopulateNames(e, d, merged);
    PopulateDoes(e, d, merged);
    RowsOf(db, p);
    SourceIsActive(db.revisions[p]);
    UndisturbedSame(e.vault, db.secrets, d1.secrets, RefreshWrites(e, db, deviceId, known), sources[i]);
    ClonedMissingDirect(e.vault, d1, sources, GroupNames(d1.groups), Below(db.nextGroupId), i);
  }

  /** The same with owned references. */
  lemma RefreshedOwned(e: Engine, db: Db, deviceId: string, known: set<nat>, i: nat)
    requires Inv(e, db) && DeviceConfig(deviceId) in db.revisions
    requires i < |ActiveGroups(db.revisions[DeviceConfig(deviceId)])|
    requires var p := DeviceConfig(deviceId);
             ActiveGroups(db.revisions[p])[i].name
               !in GroupNames(Populated(e, DraftAt(db, p), MapGroups(db, deviceId, known)).groups)
    ensures var p := DeviceConfig(deviceId);
            var d1, sources := Populated(e, DraftAt(db, p), MapGroups(db, deviceId, known)),
              ActiveGroups(db.revisions[p]);
            var d' := ClonedMissing(e.vault, d1, sources, GroupNames(d1.groups));
            var j := FindGroup(d'.groups, sources[i].name);
            j >= 0 && AlikeIff(e.vault, db.secrets, sources[i], d'.secrets, d'.groups[j])
  {
    hide OwnedDb, RowsInv, DraftOk, DraftFrame, ClonedMissing, PublishedIds, Owned, Held, ActiveGroups, UniqueNames,
         EnsureDraft, History, DraftGroups, Populated, MapGroups, Faithful, DirectGroup, ResolvedContent, GroupNames,
         AlikeIff;
    var p, pub := DeviceConfig(deviceId), PublishedIds(db.revisions);
    var d := DraftAt(db, p);
    var d1, sources := Populated(e, d, MapGroups(db, deviceId, known)), ActiveGroups(db.revisions[p]);
    DraftIsOk(e, db, p);
    PopulatedOk(e, db, d, deviceId, known);
    RowsOf(db, p);
    ActiveGroupsOwned(e, db, p);
    SourceIsActive(db.revisions[p]);
    ClonedMissingAlike(e.vault, d1, sources, GroupNames(d1.groups), pub, i);
    FrameAgrees(d, d1, e.vault.mount, pub);
    SecretsHeldByAll(e, db);
    SameResolved(e.vault, db.secrets, d1.secrets, sources[i], pub);
    SameAlike(e.vault, db.secrets, d1.secrets, sources[i]);
  }

  lemma SameAlike(vault: Settings, a: Secrets, b: Secrets, source: Group)
    requires ResolvedContent(vault, a, source) == ResolvedContent(vault, b, source)
    requires Faithful(vault, a, source) == Faithful(vault, b, source)
             && DirectGroup(vault, a, source) == DirectGroup(vault, b, source)
    ensures forall s, clone :: AlikeIff(vault, b, source, s, clone) == AlikeIff(vault, a, source, s, clone)
  {
    hide Faithful, DirectGroup, ResolvedContent;
  }

  // ---------------------------------------------------------------------------------------
  // Reachable states
  // ---------------------------------------------------------------------------------------

  /** Every state a valid run reaches from the empty engine satisfies all of this; every run in which
      devices are provisioned first satisfies what does not turn on references. */
  lemma ReachableInv(e: Engine, assocs: seq<Assoc>, ops: seq<Op>)
    requires TimelyRun(e, Fresh(assocs), ops)
    ensures RowsInv(Run(e, Fresh(assocs), ops)) && Given(Run(e, Fresh(assocs), ops))
    ensures PrintsObjects(e.objJson) && ValidRun(e, Fresh(assocs), ops) ==> Inv(e, Run(e, Fresh(assocs), ops))
  {
    hide RowsInv, Given, Inv, Run, TimelyRun, ValidRun, PrintsObjects;
    FreshRows(assocs);
    FreshGiven(assocs);
    RunGiven(e, Fresh(assocs), ops);
    if PrintsObjects(e.objJson) && ValidRun(e, Fresh(assocs), ops) {
      FreshInv(e, assocs);
      RunKeeps(e, Fresh(assocs), ops);
    }
  }
}
