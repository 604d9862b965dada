/** For all references clients may send: when an operation keeps the resolved contents of all published
    groups, told from the state before it. */
module ContentKept {
  import opened Tree
  import opened Vault
  import opened SecretKeys
  import opened SecretOwnership
  import opened ResolvedPaths
  import opened CloneLaws
  import opened ConfigModel
  import opened Revisions
  import opened DraftEdits
  import opened DraftLaws
  import opened DropLaws
  import opened CloneContents
  import opened VaultWrites
  import opened CloneWrites
  import opened ConfigDb
  import opened ConfigRows
  import opened ConfigIds

  /** A group of a published revision. */
  ghost predicate IsPublished(db: Db, g: Group) {
    exists p, i :: p in db.revisions && 0 <= i < |History(db.revisions[p])| && g in History(db.revisions[p])[i].groups
  }

  /** The published groups of `db` resolve in the Vault of `db'` as before. */
  ghost predicate PublishedKept(e: Engine, db: Db, db': Db) {
    forall g | IsPublished(db, g) :: ResolvedContent(e.vault, db'.secrets, g) == ResolvedContent(e.vault, db.secrets, g)
  }

  /** Every published group lists each sensitive path once. */
  ghost predicate PublishedOnce(db: Db) {
    forall g | IsPublished(db, g) :: Once(g.sensitiveKeys)
  }

  /** No sensitive reference of a published group resolves to another reference. */
  ghost predicate PublishedPlain(e: Engine, db: Db) {
    forall g | IsPublished(db, g) :: PlainTexts(e.vault, db.secrets, g.content, g.sensitiveKeys)
  }

  // ---------------------------------------------------------------------------------------
  // Editing
  // ---------------------------------------------------------------------------------------

  lemma WritesKeepPublishedIff(e: Engine, db: Db, db': Db, w: Writes)
    requires Does(db.secrets, db'.secrets, w)
    requires e.vault.enabled ==> PublishedOnce(db) || (PublishedPlain(e, db) && PlainWrites(w))
    ensures PublishedKept(e, db, db') <==> !exists g :: IsPublished(db, g) && Disturbs(e.vault, db.secrets, w, g)
  {
    hide ResolvedContent, Disturbs, IsPublished, Does, PlainTexts, Once, PlainWrites;
    forall g | IsPublished(db, g)
      ensures ResolvedContent(e.vault, db'.secrets, g) == ResolvedContent(e.vault, db.secrets, g) <==>
              !Disturbs(e.vault, db.secrets, w, g)
    {
      WritesKeepIff(e.vault, db.secrets, db'.secrets, w, g);
    }
  }

  /** An upsert keeps the content of every published group exactly when none of their sensitive paths
      names a secret under which the upsert stores another text than Vault holds. */
  lemma UpsertKeepsIff(e: Engine, db: Db, p: Project, dto: UpsertDto)
    requires p in db.revisions && (e.vault.enabled ==> PublishedOnce(db) || PublishedPlain(e, db))
    ensures PublishedKept(e, db, Upsert(e, db, p, dto).0) <==>
            !exists g :: IsPublished(db, g)
              && Disturbs(e.vault, db.secrets, UpsertWrites(e.vault, DraftAt(db, p), dto), g)
  {
    hide PublishedKept, PublishedPlain, PublishedOnce, Disturbs, IsPublished, Does, PlainWrites, UpsertWrites, Upserted,
         EnsureDraft;
    UpsertDoes(e.vault, DraftAt(db, p), dto);
    WritesKeepPublishedIff(e, db, Upsert(e, db, p, dto).0, UpsertWrites(e.vault, DraftAt(db, p), dto));
  }

  lemma DropsKeepIff(e: Engine, db: Db, db': Db, groups: seq<Group>)
    requires e.vault.enabled ==> PublishedOnce(db) || PublishedPlain(e, db)
    requires db'.secrets == AllSecretsDropped(e.vault, db.secrets, groups)
    ensures PublishedKept(e, db, db') <==>
            !exists g :: IsPublished(db, g) && UsesDropped(e.vault, db.secrets, g, groups)
  {
    hide ResolvedContent, UsesDropped, AllSecretsDropped, IsPublished, PlainTexts, Once;
    forall g | IsPublished(db, g)
      ensures ResolvedContent(e.vault, db'.secrets, g) == ResolvedContent(e.vault, db.secrets, g)
         <==> !UsesDropped(e.vault, db.secrets, g, groups)
    {
      DropKeepsIff(e.vault, db.secrets, groups, g);
    }
  }

  /** Deleting a draft group keeps them exactly when no published group has a sensitive path that
      resolves through one of its secrets. */
  lemma DeleteGroupKeepsIff(e: Engine, db: Db, p: Project, name: string)
    requires p in db.revisions && FindGroup(DraftAt(db, p).groups, name) >= 0
    requires e.vault.enabled ==> PublishedOnce(db) || PublishedPlain(e, db)
    ensures var d := DraftAt(db, p);
            PublishedKept(e, db, DeleteGroup(e, db, p, name).0) <==>
            !exists g :: IsPublished(db, g)
              && UsesDropped(e.vault, db.secrets, g, [d.groups[FindGroup(d.groups, name)]])
  {
    hide PublishedPlain, PublishedOnce, PublishedKept, IsPublished, UsesDropped, EnsureDraft, GroupSecretsDropped;
    var d := DraftAt(db, p);
    var g := d.groups[FindGroup(d.groups, name)];
    assert [g][1..] == [] && AllSecretsDropped(e.vault, GroupSecretsDropped(e.vault, db.secrets, g), [])
           == GroupSecretsDropped(e.vault, db.secrets, g);
    assert AllSecretsDropped(e.vault, db.secrets, [g]) == GroupSecretsDropped(e.vault, db.secrets, g);
    DropsKeepIff(e, db, DeleteGroup(e, db, p, name).0, [g]);
  }

  /** The same for deleting the whole draft. */
  lemma DeleteDraftKeepsIff(e: Engine, db: Db, p: Project)
    requires p in db.revisions && FindStatus(db.revisions[p], Draft) >= 0
    requires e.vault.enabled ==> PublishedOnce(db) || PublishedPlain(e, db)
    ensures PublishedKept(e, db, DeleteDraft(e, db, p).0) <==>
            !exists g :: IsPublished(db, g) && UsesDropped(e.vault, db.secrets, g, DraftGroups(db.revisions[p]))
  {
    hide PublishedPlain, PublishedOnce, PublishedKept, IsPublished, UsesDropped, AllSecretsDropped;
    DropsKeepIff(e, db, DeleteDraft(e, db, p).0, DraftGroups(db.revisions[p]));
  }

  /** A group the writes do not disturb is what it was, to readers and to cloning. */
  lemma UndisturbedSame(vault: Settings, a: Secrets, b: Secrets, w: Writes, g: Group)
    requires Does(a, b, w) && !Disturbs(vault, a, w, g)
    ensures Faithful(vault, a, g) == Faithful(vault, b, g) && DirectGroup(vault, a, g) == DirectGroup(vault, b, g)
    ensures DirectGroup(vault, a, g) ==> ResolvedContent(vault, a, g) == ResolvedContent(vault, b, g)
  {
    hide IsVaultRef, Resolved, ResolvedTree, ToText, Once, Does, Disturbs, GetByPath;
    if vault.enabled {
      forall k | k in g.sensitiveKeys && IsRefValue(GetByPath(g.content, k))
        ensures var text := ToText(GetByPath(g.content, k)); Resolved(vault, a, text) == Resolved(vault, b, text)
      {
        UndisturbedReads(vault, a, b, w, g, k);
      }
      if DirectGroup(vault, a, g) {
        ResolvedAlikeIff(vault, a, b, g.content, g.sensitiveKeys);
      }
    }
  }

  // ---------------------------------------------------------------------------------------
  // Opening a draft
  // ---------------------------------------------------------------------------------------

  /** The active groups are published. */
  lemma ActiveIsPublished(db: Db, p: Project, g: Group)
    requires RowsInv(db) && p in db.revisions && g in ActiveGroups(db.revisions[p])
    ensures IsPublished(db, g)
  {
    hide Lifecycle, CacheOk, ActiveGroups, History;
    SourceIsActive(db.revisions[p]);
    var h := History(db.revisions[p]);
    assert g in h[|h| - 1].groups;
  }

  /** Opening a draft keeps them exactly when no published group has a sensitive path that names a secret
      a clone will store, under an id that is not given out yet. */
  lemma CreateDraftKeepsIff(e: Engine, db: Db, p: Project)
    requires RowsInv(db) && Given(db) && p in db.revisions && FindStatus(db.revisions[p], Draft) < 0
    requires e.vault.enabled ==> PublishedOnce(db) || PublishedPlain(e, db)
    ensures PublishedKept(e, db, CreateDraft(e, db, p).0) <==>
            !exists g :: IsPublished(db, g)
              && CloneDisturbs(e.vault, db.secrets, db.nextGroupId, ActiveGroups(db.revisions[p]), g)
  {
    hide IsPublished, CloneDisturbs, Lifecycle, CacheOk, FreshFrom, ActiveGroups, SourceGroups, ClonedMissing,
         EnsureDraft, PlainTexts, Once, ResolvedContent, DraftGroups;
    var d, sources := DraftState(db.secrets, db.nextGroupId, []), ActiveGroups(db.revisions[p]);
    SourceIsActive(db.revisions[p]);
    forall i | 0 <= i < |sources| ensures IsPublished(db, sources[i]) {
      ActiveIsPublished(db, p, sources[i]);
    }
    ClonesKeepIff(e.vault, d, sources, g => IsPublished(db, g));
  }

  // ---------------------------------------------------------------------------------------
  // Provisioning and refreshing
  // ---------------------------------------------------------------------------------------

  /** What populating the device's draft writes; provisioning starts from the default groups. */
  function RefreshWrites(e: Engine, db: Db, deviceId: string, known: set<nat>): Writes {
    PopulateWrites(e, DraftAt(db, DeviceConfig(deviceId)),
                   MergedAll(e.vault, db.secrets, MapGroups(db, deviceId, known)))
  }

  function ProvisionWrites(e: Engine, db: Db, deviceId: string, known: set<nat>): Writes {
    PopulateWrites(e, WithDefaults(DraftAt(db, DeviceConfig(deviceId))),
                   MergedAll(e.vault, db.secrets, MapGroups(db, deviceId, known)))
  }

  /** Provisioning keeps them exactly when none of their sensitive paths names a secret that populating
      the draft changes: one it drops, or stores another text under than Vault holds. */
  lemma ProvisionKeepsIff(e: Engine, db: Db, deviceId: string, known: set<nat>, queried: set<nat>)
    requires RowsInv(db) && Given(db)
    requires e.vault.enabled ==>
               PublishedOnce(db) || (PublishedPlain(e, db) && PlainWrites(ProvisionWrites(e, db, deviceId, known)))
    ensures PublishedKept(e, db, Provision(e, db, deviceId, known, queried)) <==>
            !exists g :: IsPublished(db, g) && Disturbs(e.vault, db.secrets, ProvisionWrites(e, db, deviceId, known), g)
  {
    hide PublishedKept, PublishedPlain, PublishedOnce, Disturbs, IsPublished, Does, PlainWrites, PopulateWrites,
         FreshFrom, MapGroups, MergedAll, PopulatedAll, EnsureDraft, WithDefaults, RowsInv, WithDraft, Activate,
         WithNextDraft, Live, DraftGroups;
    var p := DeviceConfig(deviceId);
    var d, merged := WithDefaults(DraftAt(db, p)), MergedAll(e.vault, db.secrets, MapGroups(db, deviceId, known));
    DraftGiven(db, p);
    DefaultsGiven(DraftAt(db, p));
    PopulateDoes(e, d, merged);
    ProvisionSecrets(e, db, deviceId, known, queried);
    WritesKeepPublishedIff(e, db, Provision(e, db, deviceId, known, queried), ProvisionWrites(e, db, deviceId, known));
  }

  lemma ProvisionSecrets(e: Engine, db: Db, deviceId: string, known: set<nat>, queried: set<nat>)
    ensures Provision(e, db, deviceId, known, queried).secrets
         == PopulatedAll(e, WithDefaults(DraftAt(db, DeviceConfig(deviceId))),
                         MergedAll(e.vault, db.secrets, MapGroups(db, deviceId, known))).secrets
  {
    hide MapGroups, MergedAll, PopulatedAll, EnsureDraft, Activate, WithNextDraft, Live, WithDraftGroups, DraftGroups;
  }

  /** Names of given ids are out of a clone's reach. */
  lemma {:induction false} ClonesLeaveGiven(vault: Settings, d: DraftState, sources: seq<Group>, n: string, f: string,
                                            nextId: nat)
    requires GivenName(n, nextId) && nextId <= d.nextId
    ensures FieldOf(ClonedMissing(vault, d, sources, {}).secrets, n, f) == FieldOf(d.secrets, n, f)
    ensures d.nextId <= ClonedMissing(vault, d, sources, {}).nextId
  {
    hide GivenName, FieldOf, OnlyWrites, ClonedTree;
    if sources != [] {
      var m := |sources| - 1;
      ClonesLeaveGiven(vault, d, sources[..m], n, f, nextId);
      var d1 := ClonedMissing(vault, d, sources[..m], {});
      if vault.enabled {
        CloneWritesOwn(vault, d1.secrets, d1.nextId, sources[m].content, sources[m].sensitiveKeys);
        GivenIsOutside(n, nextId, d1.nextId);
        SameField(d1.secrets, Cloned(vault, d1, sources[m]).secrets, {d1.nextId}, n, f);
      }
    }
  }

  lemma GivenIsOutside(n: string, nextId: nat, id: nat)
    requires GivenName(n, nextId) && nextId <= id
    ensures Outside(n, {id})
  {
    hide SecretName;
  }

  /** Writes and then clones: a group disturbed by the writes stays changed. */
  lemma DisturbedStays(vault: Settings, a: Secrets, d: DraftState, w: Writes, sources: seq<Group>, g: Group)
    requires Does(a, d.secrets, w) && WritesBelow(w, d.nextId) && Disturbs(vault, a, w, g)
    ensures ReadsChanged(vault, a, ClonedMissing(vault, d, sources, {}).secrets, g)
  {
    hide IsVaultRef, ToText, GetByPath, ParseVaultRef, FieldOf, ClonedMissing, GivenName;
    var k :| k in g.sensitiveKeys && DisturbsPath(vault, a, w, GetByPath(g.content, k));
    var n := ParseVaultRef(ToText(GetByPath(g.content, k))).secretId;
    assert w(n) != Same;
    ClonesLeaveGiven(vault, d, sources, n, CONFIG_FIELD, d.nextId);
    assert FieldOf(d.secrets, n, CONFIG_FIELD) == Read(FieldOf(a, n, CONFIG_FIELD), w(n));
    assert NamesChanged(vault, a, ClonedMissing(vault, d, sources, {}).secrets, GetByPath(g.content, k));
  }

  /** Undisturbed sources are cloned to the same names before and after the writes. */
  lemma SameCloneNames(vault: Settings, a: Secrets, b: Secrets, w: Writes, nextId: nat, sources: seq<Group>, g: Group)
    requires Does(a, b, w) && forall i | 0 <= i < |sources| :: !Disturbs(vault, a, w, sources[i])
    ensures CloneDisturbs(vault, b, nextId, sources, g) == CloneDisturbs(vault, a, nextId, sources, g)
  {
    hide Does, Disturbs, SecretName, IsVaultRef, ToText, ParseVaultRef, GetByPath, Resolving;
    if vault.enabled {
      forall i, k | 0 <= i < |sources| && k in sources[i].sensitiveKeys
        ensures Resolving(vault, a, GetByPath(sources[i].content, k))
                == Resolving(vault, b, GetByPath(sources[i].content, k))
      {
        SameResolving(vault, a, b, w, sources[i], k);
      }
      forall n ensures AllCloneTo(vault, a, nextId, sources, n) == AllCloneTo(vault, b, nextId, sources, n) {
        SameNames(vault, a, b, nextId, sources, n);
        SameNames(vault, b, a, nextId, sources, n);
      }
      assert forall v :: NamesOne(vault, StoredNames(vault, a, nextId, sources), v)
                     == NamesOne(vault, StoredNames(vault, b, nextId, sources), v);
    }
  }

  lemma SameResolving(vault: Settings, a: Secrets, b: Secrets, w: Writes, g: Group, k: string)
    requires Does(a, b, w) && vault.enabled && !Disturbs(vault, a, w, g) && k in g.sensitiveKeys
    ensures Resolving(vault, a, GetByPath(g.content, k)) == Resolving(vault, b, GetByPath(g.content, k))
  {
    hide Does, Disturbs, IsVaultRef, ToText, GetByPath, Resolved;
    if IsRefValue(GetByPath(g.content, k)) {
      UndisturbedReads(vault, a, b, w, g, k);
    }
  }

  lemma SameNames(vault: Settings, a: Secrets, b: Secrets, nextId: nat, sources: seq<Group>, n: string)
    requires forall i, k | 0 <= i < |sources| && k in sources[i].sensitiveKeys ::
               Resolving(vault, a, GetByPath(sources[i].content, k))
                 == Resolving(vault, b, GetByPath(sources[i].content, k))
    ensures AllCloneTo(vault, a, nextId, sources, n) ==> AllCloneTo(vault, b, nextId, sources, n)
  {
    hide SecretName, GetByPath, Resolving;
    if AllCloneTo(vault, a, nextId, sources, n) {
      var i :| 0 <= i < |sources| && ClonesTo(vault, a, nextId + i, sources[i].content, sources[i].sensitiveKeys, n);
      var k :| k in sources[i].sensitiveKeys && n == SecretName(nextId + i, k)
               && Resolving(vault, a, GetByPath(sources[i].content, k));
      assert Resolving(vault, b, GetByPath(sources[i].content, k));
      assert ClonesTo(vault, b, nextId + i, sources[i].content, sources[i].sensitiveKeys, n);
    }
  }

  /** A group that resolves directly in all three stores, changed by the writes, is changed in the end. */
  lemma ChangedInTheEnd(vault: Settings, a: Secrets, d: DraftState, w: Writes, sources: seq<Group>,
                        groups: Group -> bool,
                        g: Group)
    requires vault.enabled && Does(a, d.secrets, w) && WritesBelow(w, d.nextId) && FreshFrom(d.secrets, d.nextId)
    requires groups(g) && Disturbs(vault, a, w, g) && forall i | 0 <= i < |sources| :: groups(sources[i])
    requires (forall h | groups(h) :: Once(h.sensitiveKeys))
          || ((forall h | groups(h) :: PlainTexts(vault, a, h.content, h.sensitiveKeys)) && PlainWrites(w))
    ensures ResolvedContent(vault, ClonedMissing(vault, d, sources, {}).secrets, g) != ResolvedContent(vault, a, g)
  {
    hide Does, Disturbs, WritesBelow, FreshFrom, PlainTexts, ClonedMissing, ResolvedContent, ReadsChanged, PlainWrites,
         Grown, PlainNew, Once;
    var b := ClonedMissing(vault, d, sources, {}).secrets;
    DisturbedStays(vault, a, d, w, sources, g);
    if !Once(g.sensitiveKeys) {
      forall h | groups(h) ensures PlainTexts(vault, d.secrets, h.content, h.sensitiveKeys) {
        StaysPlain(vault, a, d.secrets, w, h);
      }
      assert sources[..|sources|] == sources;
      ClonesRun(vault, d, sources, |sources|, n => true, false, true);
      PlainAfter(vault, d.secrets, b, g);
    }
    ContentKeptIff(vault, a, b, g);
  }

  /** Writing and then cloning keeps the contents exactly when neither disturbs a group. */
  lemma BothKeepIff(vault: Settings, a: Secrets, d: DraftState, w: Writes, sources: seq<Group>, groups: Group -> bool)
    requires Does(a, d.secrets, w) && WritesBelow(w, d.nextId) && FreshFrom(d.secrets, d.nextId)
    requires forall i | 0 <= i < |sources| :: groups(sources[i])
    requires vault.enabled ==>
               || (forall g | groups(g) :: Once(g.sensitiveKeys))
               || ((forall g | groups(g) :: PlainTexts(vault, a, g.content, g.sensitiveKeys)) && PlainWrites(w))
    ensures var after := ClonedMissing(vault, d, sources, {}).secrets;
            (forall g | groups(g) :: ResolvedContent(vault, after, g) == ResolvedContent(vault, a, g)) <==>
            !exists g :: groups(g) && (Disturbs(vault, a, w, g) || CloneDisturbs(vault, a, d.nextId, sources, g))
  {
    hide Does, Disturbs, WritesBelow, FreshFrom, PlainTexts, ClonedMissing, ResolvedContent, PlainWrites, CloneDisturbs,
         Once;
    if exists g :: groups(g) && Disturbs(vault, a, w, g) {
      var g :| groups(g) && Disturbs(vault, a, w, g);
      if vault.enabled {
        ChangedInTheEnd(vault, a, d, w, sources, groups, g);
      } else {
        NotDisturbed(vault, a, w, g);
      }
    } else {
      forall g | groups(g)
        ensures ResolvedContent(vault, d.secrets, g) == ResolvedContent(vault, a, g)
        ensures vault.enabled ==> Once(g.sensitiveKeys) || PlainTexts(vault, d.secrets, g.content, g.sensitiveKeys)
        ensures CloneDisturbs(vault, d.secrets, d.nextId, sources, g) == CloneDisturbs(vault, a, d.nextId, sources, g)
      {
        WritesKeepIff(vault, a, d.secrets, w, g);
        SameCloneNames(vault, a, d.secrets, w, d.nextId, sources, g);
      }
      if vault.enabled && !(forall g | groups(g) :: Once(g.sensitiveKeys)) {
        forall g | groups(g) ensures PlainTexts(vault, d.secrets, g.content, g.sensitiveKeys) {
          StaysPlain(vault, a, d.secrets, w, g);
        }
      }
      ClonesKeepIff(vault, d, sources, groups);
    }
  }

  lemma NotDisturbed(vault: Settings, a: Secrets, w: Writes, g: Group)
    requires !vault.enabled
    ensures !Disturbs(vault, a, w, g)
  {
  }

  /** The groups a refresh clones after populating, and the first id it uses for them. */
  function RefreshClones(e: Engine, db: Db, deviceId: string, known: set<nat>): (nat, seq<Group>) {
    var d := Populated(e, DraftAt(db, DeviceConfig(deviceId)), MapGroups(db, deviceId, known));
    (d.nextId, Missing(ActiveGroups(RevisionsOf(db, DeviceConfig(deviceId))), GroupNames(d.groups)))
  }

  /** A refresh keeps them exactly when no published group has a sensitive path that names a secret
      populating changes or the clones of the missing groups will store. */
  lemma RefreshKeepsIff(e: Engine, db: Db, deviceId: string, known: set<nat>, queried: set<nat>)
    requires RowsInv(db) && Given(db) && DeviceConfig(deviceId) in db.revisions
    requires e.vault.enabled ==>
               PublishedOnce(db) || (PublishedPlain(e, db) && PlainWrites(RefreshWrites(e, db, deviceId, known)))
    ensures var (nextId, clones) := RefreshClones(e, db, deviceId, known);
            PublishedKept(e, db, Refresh(e, db, deviceId, known, queried).0) <==>
            !exists g :: IsPublished(db, g)
              && (Disturbs(e.vault, db.secrets, RefreshWrites(e, db, deviceId, known), g)
                  || CloneDisturbs(e.vault, db.secrets, nextId, clones, g))
  {
    hide Disturbs, IsPublished, Does, PlainWrites, PopulateWrites, FreshFrom, WritesBelow, CloneDisturbs, PlainTexts,
         Once, MapGroups, MergedAll, PopulatedAll, EnsureDraft, RowsInv, ActiveGroups, ResolvedContent, DraftGroups,
         ClonedMissing, Missing;
    var p := DeviceConfig(deviceId);
    var d, maps := DraftAt(db, p), MapGroups(db, deviceId, known);
    var d1 := Populated(e, d, maps);
    var merged, sources := MergedAll(e.vault, db.secrets, maps), ActiveGroups(db.revisions[p]);
    DraftGiven(db, p);
    PopulateDoes(e, d, merged);
    PopulateGiven(e, d, merged);
    var missing := Missing(sources, GroupNames(d1.groups));
    forall i | 0 <= i < |missing| ensures IsPublished(db, missing[i]) {
      assert missing[i] in missing;
      ActiveIsPublished(db, p, missing[i]);
    }
    BothKeepIff(e.vault, db.secrets, d1, RefreshWrites(e, db, deviceId, known), missing, g => IsPublished(db, g));
    MissingAreCloned(e.vault, d1, sources, GroupNames(d1.groups));
    RefreshSecrets(e, db, deviceId, known, queried);
  }

  lemma RefreshSecrets(e: Engine, db: Db, deviceId: string, known: set<nat>, queried: set<nat>)
    requires RowsInv(db) && DeviceConfig(deviceId) in db.revisions
    ensures var d1 := Populated(e, DraftAt(db, DeviceConfig(deviceId)), MapGroups(db, deviceId, known));
            Refresh(e, db, deviceId, known, queried).0.secrets ==
            ClonedMissing(e.vault, d1, ActiveGroups(db.revisions[DeviceConfig(deviceId)]),
                          GroupNames(d1.groups)).secrets
  {
    hide MapGroups, Populated, EnsureDraft, Applied, WithNextDraft, Live, WithDraftGroups, DraftGroups, ActiveGroups,
         ClonedMissing, RowsInv, NextVersionOf, Lifecycle;
    RowsOf(db, DeviceConfig(deviceId));
    ActiveGroupsKept(RevisionsOf(db, DeviceConfig(deviceId)));
  }
}
