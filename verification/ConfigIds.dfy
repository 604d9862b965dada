/** Group ids over every run, whatever clients send: a draft's groups have ids given out already, and
    Vault holds no secret of an id that is not. */
module ConfigIds {
  import opened Options
  import opened Vault
  import opened SecretKeys
  import opened SecretOwnership
  import opened ConfigModel
  import opened Revisions
  import opened DraftEdits
  import opened DraftNames
  import opened CloneContents
  import opened VaultWrites
  import opened CloneWrites
  import opened ConfigDb
  import opened ConfigRows

  ghost predicate Given(db: Db) {
    && (forall p | p in db.revisions :: IdsGiven(DraftGroups(db.revisions[p]), db.nextGroupId))
    && FreshFrom(db.secrets, db.nextGroupId)
  }

  /** The same of one draft. */
  ghost predicate GivenDraft(d: DraftState) {
    IdsGiven(d.groups, d.nextId) && FreshFrom(d.secrets, d.nextId)
  }

  lemma FreshAfter(a: Secrets, b: Secrets, w: Writes, nextId: nat, later: nat)
    requires Does(a, b, w) && WritesBelow(w, later) && FreshFrom(a, nextId) && nextId <= later
    ensures FreshFrom(b, later)
  {
    hide SecretName, FieldOf;
    forall h: nat, k | h >= later ensures FieldOf(b, SecretName(h, k), CONFIG_FIELD) == None {
      assert !GivenName(SecretName(h, k), later);
    }
  }

  /** Writes of groups with given ids. */
  lemma WritesAreBelow(w: Writes, id: nat, nextId: nat)
    requires WritesFor(w, {id}) && id < nextId
    ensures WritesBelow(w, nextId)
  {
    hide Outside, GivenName;
    forall n | w(n) != Same ensures GivenName(n, nextId) {
      OwnNameGiven(n, id, nextId);
    }
  }

  // ---------------------------------------------------------------------------------------
  // The edits
  // ---------------------------------------------------------------------------------------

  lemma UpsertGiven(vault: Settings, d: DraftState, dto: UpsertDto)
    requires GivenDraft(d)
    ensures GivenDraft(Upserted(vault, d, dto)) && d.nextId <= Upserted(vault, d, dto).nextId
  {
    hide FreshFrom, Does, WritesFor, UpsertWrites, UpsertedContent;
    var d' := Upserted(vault, d, dto);
    UpsertDoes(vault, d, dto);
    WritesAreBelow(UpsertWrites(vault, d, dto), EditedId(d, dto.name), d'.nextId);
    FreshAfter(d.secrets, d'.secrets, UpsertWrites(vault, d, dto), d.nextId, d'.nextId);
  }

  lemma {:induction false} DropAllGiven(vault: Settings, secrets: Secrets, groups: seq<Group>, nextId: nat)
    requires FreshFrom(secrets, nextId) && IdsGiven(groups, nextId)
    ensures FreshFrom(AllSecretsDropped(vault, secrets, groups), nextId)
    decreases |groups|
  {
    hide FreshFrom, Does, WritesFor, DropWrites, GroupSecretsDropped;
    if groups != [] {
      var g := groups[0];
      DropDoes(vault, secrets, g);
      WritesAreBelow(DropWrites(vault, g), g.id, nextId);
      FreshAfter(secrets, GroupSecretsDropped(vault, secrets, g), DropWrites(vault, g), nextId, nextId);
      DropAllGiven(vault, GroupSecretsDropped(vault, secrets, g), groups[1..], nextId);
    }
  }

  lemma RemoveGiven(vault: Settings, d: DraftState, i: nat)
    requires GivenDraft(d) && i < |d.groups|
    ensures GivenDraft(Removed(vault, d, i)) && Removed(vault, d, i).nextId == d.nextId
  {
    hide FreshFrom, GroupSecretsDropped;
    var g := d.groups[i];
    assert [g][1..] == [];
    DropAllGiven(vault, d.secrets, [g], d.nextId);
    assert AllSecretsDropped(vault, GroupSecretsDropped(vault, d.secrets, g), [])
        == GroupSecretsDropped(vault, d.secrets, g);
  }

  lemma CloneGiven(vault: Settings, d: DraftState, source: Group)
    requires GivenDraft(d)
    ensures GivenDraft(Cloned(vault, d, source)) && d.nextId <= Cloned(vault, d, source).nextId
  {
    hide SecretName, ClonedTree, Outside, OnlyWrites, FieldOf;
    var d' := Cloned(vault, d, source);
    if vault.enabled {
      CloneWritesOwn(vault, d.secrets, d.nextId, source.content, source.sensitiveKeys);
    }
    forall h: nat, k | h >= d'.nextId ensures FieldOf(d'.secrets, SecretName(h, k), CONFIG_FIELD) == None {
      NameWithin(h, k, {d.nextId});
      if vault.enabled {
        SameField(d.secrets, d'.secrets, {d.nextId}, SecretName(h, k), CONFIG_FIELD);
      }
    }
  }

  lemma {:induction false} CloneMissingGiven(vault: Settings, d: DraftState, sources: seq<Group>, present: set<string>)
    requires GivenDraft(d)
    ensures var d' := ClonedMissing(vault, d, sources, present); GivenDraft(d') && d.nextId <= d'.nextId
  {
    hide GivenDraft, Cloned;
    if sources != [] {
      var n := |sources| - 1;
      CloneMissingGiven(vault, d, sources[..n], present);
      CloneGiven(vault, ClonedMissing(vault, d, sources[..n], present), sources[n]);
    }
  }

  lemma PopulateGiven(e: Engine, d: DraftState, merged: seq<MergedGroup>)
    requires GivenDraft(d)
    ensures var d' := PopulatedAll(e, d, merged); GivenDraft(d') && d.nextId <= d'.nextId
  {
    hide FreshFrom, Does, PopulatedAll, PopulateWrites, WritesBelow;
    PopulateDoes(e, d, merged);
    var d' := PopulatedAll(e, d, merged);
    FreshAfter(d.secrets, d'.secrets, PopulateWrites(e, d, merged), d.nextId, d'.nextId);
  }

  lemma DefaultsGiven(d: DraftState)
    requires GivenDraft(d)
    ensures GivenDraft(WithDefaults(d)) && d.nextId <= WithDefaults(d).nextId && WithDefaults(d).secrets == d.secrets
  {
    hide SecretName, FieldOf;
  }

  // ---------------------------------------------------------------------------------------
  // The operations
  // ---------------------------------------------------------------------------------------

  lemma DraftGiven(db: Db, p: Project)
    requires RowsInv(db) && Given(db)
    ensures GivenDraft(DraftOf(db, EnsureDraft(RevisionsOf(db, p))))
            && GivenDraft(DraftState(db.secrets, db.nextGroupId, []))
  {
    hide RowsInv, FreshFrom, DraftGroups, EnsureDraft;
    DraftOfRows(db, p);
    if p !in db.revisions { NoDraft(); }
  }

  lemma NoDraft()
    ensures DraftGroups([]) == []
  {
  }

  lemma EditedGiven(db: Db, p: Project, d': DraftState)
    requires RowsInv(db) && Given(db) && UniqueNames(d'.groups) && GivenDraft(d') && db.nextGroupId <= d'.nextId
    ensures Given(Edited(db, p, d'))
  {
    hide RowsInv, RowsFrozen, FreshFrom, DraftGroups, EnsureDraft, WithDraftGroups, UniqueNames, Lifecycle, FindStatus,
         History;
    WithDraftRows(db, p, d');
    var db' := Edited(db, p, d');
    forall q | q in db'.revisions ensures IdsGiven(DraftGroups(db'.revisions[q]), db'.nextGroupId) {
      if q != p { assert IdsGiven(DraftGroups(db.revisions[q]), db.nextGroupId); }
    }
  }

  lemma ReplacedGiven(db: Db, db': Db, p: Project, r: seq<Revision>)
    requires Given(db) && db'.revisions == db.revisions[p := r] && DraftGroups(r) == []
    requires db'.nextGroupId == db.nextGroupId && FreshFrom(db'.secrets, db.nextGroupId)
    ensures Given(db')
  {
    hide FreshFrom, DraftGroups;
  }

  lemma PublishedAsGiven(e: Engine, db: Db, deviceId: string, queried: set<nat>)
    requires RowsInv(db) && Given(db) && DeviceConfig(deviceId) in db.revisions
    requires FindStatus(db.revisions[DeviceConfig(deviceId)], Draft) >= 0
    ensures var base := db.revisions[DeviceConfig(deviceId)];
            Given(PublishedAs(e, db, deviceId, queried, Applied(base), DraftNumber(base), NextVersionOf(base)))
  {
    hide Lifecycle, CacheOk, FreshFrom, DraftGroups, Applied, NextVersionOf, Live, Frozen, ActiveGroups, ActiveVersion,
         FindVersion, History, WithNextDraft;
    var base := db.revisions[DeviceConfig(deviceId)];
    PublishRows(base);
    var db' := PublishedAs(e, db, deviceId, queried, Applied(base), DraftNumber(base), NextVersionOf(base));
    ReplacedGiven(db, db', DeviceConfig(deviceId), WithNextDraft(Applied(base), DraftNumber(base)));
  }

  lemma EditsGiven(e: Engine, db: Db, op: Op)
    requires RowsInv(db) && Given(db) && (op.UpsertGroup? || op.RemoveGroup? || op.OpenDraft? || op.DropDraft?)
    ensures Given(Step(e, db, op))
  {
    hide RowsInv, FreshFrom, DraftGroups, EnsureDraft, Upserted, Removed, ClonedMissing, UniqueNames, AllSecretsDropped,
         IdsGiven, Edited, Lifecycle, History, WithDraftGroups, SourceGroups, ActiveGroups, WithoutDraft;
    var p := op.project;
    var d := DraftOf(db, EnsureDraft(RevisionsOf(db, p)));
    DraftGiven(db, p);
    DraftOfRows(db, p);
    RowsOf(db, p);
    match op
    case UpsertGroup(_, dto) =>
      if p in db.revisions {
        UpsertGiven(e.vault, d, dto);
        UpsertNames(e.vault, d, dto);
        EditedGiven(db, p, Upserted(e.vault, d, dto));
        EditedIs(db, p, Upserted(e.vault, d, dto));
      }
    case RemoveGroup(_, name) =>
      var i := FindGroup(d.groups, name);
      if p in db.revisions && i >= 0 {
        RemoveGiven(e.vault, d, i);
        RemoveNames(e.vault, d, i);
        EditedGiven(db, p, Removed(e.vault, d, i));
        EditedIs(db, p, Removed(e.vault, d, i));
      } else if p in db.revisions {
        SameDraftGiven(db, p, EnsureDraft(RevisionsOf(db, p)));
      }
    case OpenDraft(_) =>
      if p in db.revisions {
        var d0, sources := DraftState(db.secrets, db.nextGroupId, []), SourceGroups(db.revisions[p]);
        SourceIsActive(db.revisions[p]);
        NoNamesUnique();
        CloneMissingGiven(e.vault, d0, sources, {});
        CloneMissingNames(e.vault, d0, sources, {});
        EditedGiven(db, p, ClonedMissing(e.vault, d0, sources, {}));
        EditedIs(db, p, ClonedMissing(e.vault, d0, sources, {}));
      }
    case DropDraft(_) =>
      if p in db.revisions && FindStatus(db.revisions[p], Draft) >= 0 {
        DropGiven(e, db, p);
      }
  }

  lemma EditedIs(db: Db, p: Project, d': DraftState)
    requires p in db.revisions
    ensures Edited(db, p, d') == WithDraft(db, p, EnsureDraft(db.revisions[p]), d')
  {
  }

  lemma SameDraftGiven(db: Db, p: Project, r: seq<Revision>)
    requires Given(db) && IdsGiven(DraftGroups(r), db.nextGroupId)
    ensures Given(db.(revisions := db.revisions[p := r]))
  {
    hide FreshFrom, DraftGroups;
  }

  lemma DropGiven(e: Engine, db: Db, p: Project)
    requires RowsInv(db) && Given(db) && p in db.revisions && FindStatus(db.revisions[p], Draft) >= 0
    ensures Given(DeleteDraft(e, db, p).0)
  {
    hide Lifecycle, CacheOk, FreshFrom, DraftGroups, AllSecretsDropped, WithoutDraft, History, Frozen, FindStatus;
    var revs := db.revisions[p];
    DropKeeps(revs);
    DropAllGiven(e.vault, db.secrets, DraftGroups(revs), db.nextGroupId);
    NoDraftInHistory(WithoutDraft(revs));
    ReplacedGiven(db, DeleteDraft(e, db, p).0, p, WithoutDraft(revs));
  }

  lemma NoDraftInHistory(r: seq<Revision>)
    requires Lifecycle(r) && r == History(r)
    ensures DraftGroups(r) == []
  {
    hide Versioning.Linked, UniqueNames;
    LifecycleFinds(r);
  }

  lemma PublishesGiven(e: Engine, db: Db, op: Op)
    requires RowsInv(db) && Given(db) && Timely(db, op)
    requires op.ApplyRevision? || op.ProvisionDevice? || op.RefreshDevice?
    ensures Given(Step(e, db, op))
  {
    hide Lifecycle, CacheOk, RowsFrozen, FreshFrom, DraftGroups, EnsureDraft, ClonedMissing, UniqueNames, GivenDraft,
         Edited, History, Populated, Applied, NextVersionOf, Live, Provision, PublishedAs, ActiveGroups, ActiveVersion,
         Frozen, FindVersion, FindStatus, MapGroups, PopulatedAll, MergedAll, WithDefaults;
    match op
    case ApplyRevision(p, queried) =>
      if p in db.revisions && FindStatus(db.revisions[p], Draft) >= 0 {
        PublishRows(db.revisions[p]);
        ReplacedGiven(db, Apply(e, db, p, queried).0, p, Applied(db.revisions[p]));
      }
    case ProvisionDevice(deviceId, known, queried) =>
      var p := DeviceConfig(deviceId);
      var d := DraftOf(db, EnsureDraft(RevisionsOf(db, p)));
      DraftGiven(db, p);
      ProvisionIsPublish(e, db, deviceId, known, queried);
      DefaultsGiven(d);
      PopulateGiven(e, WithDefaults(d), MergedAll(e.vault, WithDefaults(d).secrets, MapGroups(db, deviceId, known)));
      PopulatedGroups(e, WithDefaults(d), MapGroups(db, deviceId, known));
      var d' := ProvisionedDraft(e, db, EnsureDraft(RevisionsOf(db, p)), deviceId, known);
      RowsOf(Edited(db, p, d'), p);
      EditedGiven(db, p, d');
      PublishedAsGiven(e, Edited(db, p, d'), deviceId, queried);
    case RefreshDevice(deviceId, known, queried) =>
      var p := DeviceConfig(deviceId);
      if p in db.revisions {
        var d := DraftOf(db, EnsureDraft(RevisionsOf(db, p)));
        DraftGiven(db, p);
        PopulateGiven(e, d, MergedAll(e.vault, d.secrets, MapGroups(db, deviceId, known)));
        PopulatedGroups(e, d, MapGroups(db, deviceId, known));
        var d1 := Populated(e, d, MapGroups(db, deviceId, known));
        CloneMissingGiven(e.vault, d1, ActiveGroups(EnsureDraft(RevisionsOf(db, p))), GroupNames(d1.groups));
        var d' := RefreshedDraft(e, db, EnsureDraft(RevisionsOf(db, p)), deviceId, known);
        RefreshedRows(e, db, deviceId, known);
        RowsOf(Edited(db, p, d'), p);
        EditedGiven(db, p, d');
        EditedIs(db, p, d');
        PublishedAsGiven(e, Edited(db, p, d'), deviceId, queried);
      }
  }

  /** Every operation keeps this. */
  lemma StepGiven(e: Engine, db: Db, op: Op)
    requires RowsInv(db) && Given(db) && Timely(db, op)
    ensures Given(Step(e, db, op))
  {
    hide RowsInv, FreshFrom, DraftGroups, Live, Rebuilt, ActiveVersion, FindVersion;
    match op
    case NewProject(p) => if p !in db.revisions { NoDraft(); SameDraftGiven(db, p, []); }
    case ApplyRevision(_, _) => PublishesGiven(e, db, op);
    case ProvisionDevice(_, _, _) => PublishesGiven(e, db, op);
    case RefreshDevice(_, _, _) => PublishesGiven(e, db, op);
    case UpsertGroup(_, _) => EditsGiven(e, db, op);
    case RemoveGroup(_, _) => EditsGiven(e, db, op);
    case OpenDraft(_) => EditsGiven(e, db, op);
    case DropDraft(_) => EditsGiven(e, db, op);
    case _ =>
  }

  lemma FreshGiven(assocs: seq<Assoc>)
    ensures Given(Fresh(assocs))
  {
    hide SecretName;
  }

  /** So does every run. */
  lemma {:induction false} RunGiven(e: Engine, db: Db, ops: seq<Op>)
    requires RowsInv(db) && Given(db) && TimelyRun(e, db, ops)
    ensures RowsInv(Run(e, db, ops)) && Given(Run(e, db, ops))
  {
    hide RowsInv, Given, Step, Timely, RowsFrozen;
    RunRows(e, db, ops);
    if ops != [] {
      var front := ops[..|ops| - 1];
      RunGiven(e, db, front);
      StepGiven(e, Run(e, db, front), ops[|ops| - 1]);
    }
  }
}
