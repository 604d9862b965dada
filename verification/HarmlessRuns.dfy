/** Over every run of operations that are harmless when they are called, whatever references clients
    send, the contents of published groups never change; and harmless is exactly what that takes. */
module HarmlessRuns {
  import opened ConfigModel
  import opened Revisions
  import opened DraftEdits
  import opened DropLaws
  import opened VaultWrites
  import opened CloneWrites
  import opened ConfigDb
  import opened ConfigRows
  import opened ConfigIds
  import opened ContentKept

  /** The operation changes what a sensitive path of the group names, told from the state before it. */
  predicate Harms(e: Engine, db: Db, op: Op, g: Group) {
    match op
    case UpsertGroup(p, dto) =>
      p in db.revisions && Disturbs(e.vault, db.secrets, UpsertWrites(e.vault, DraftAt(db, p), dto), g)
    case RemoveGroup(p, name) =>
      var groups := DraftAt(db, p).groups;
      var i := FindGroup(groups, name);
      p in db.revisions && i >= 0 && UsesDropped(e.vault, db.secrets, g, [groups[i]])
    case OpenDraft(p) =>
      && p in db.revisions && FindStatus(db.revisions[p], Draft) < 0
      && CloneDisturbs(e.vault, db.secrets, db.nextGroupId, ActiveGroups(db.revisions[p]), g)
    case DropDraft(p) =>
      && p in db.revisions && FindStatus(db.revisions[p], Draft) >= 0
      && UsesDropped(e.vault, db.secrets, g, DraftGroups(db.revisions[p]))
    case ProvisionDevice(deviceId, known, _) =>
      Disturbs(e.vault, db.secrets, ProvisionWrites(e, db, deviceId, known), g)
    case RefreshDevice(deviceId, known, _) =>
      var (nextId, clones) := RefreshClones(e, db, deviceId, known);
      && DeviceConfig(deviceId) in db.revisions
      && (Disturbs(e.vault, db.secrets, RefreshWrites(e, db, deviceId, known), g)
          || CloneDisturbs(e.vault, db.secrets, nextId, clones, g))
    case _ => false
  }

  ghost predicate Harmless(e: Engine, db: Db, op: Op) {
    !exists g :: IsPublished(db, g) && Harms(e, db, op, g)
  }

  /** No resolved text is met again as a reference: published groups list every sensitive path once, or
      neither their references nor what the operation stores from config maps hold another reference. */
  ghost predicate Legible(e: Engine, db: Db, op: Op) {
    e.vault.enabled ==>
      || PublishedOnce(db)
      || (PublishedPlain(e, db)
          && (op.ProvisionDevice? ==> PlainWrites(ProvisionWrites(e, db, op.deviceId, op.known)))
          && (op.RefreshDevice? ==> PlainWrites(RefreshWrites(e, db, op.deviceId, op.known))))
  }

  lemma SameSecretsKept(e: Engine, db: Db, db': Db)
    requires db'.secrets == db.secrets
    ensures PublishedKept(e, db, db')
  {
    hide IsPublished, ResolvedContent;
  }

  lemma OthersTouchNoSecret(e: Engine, db: Db, op: Op)
    requires op.NewProject? || op.Associate? || op.ApplyRevision? || op.GetLatest? || op.GetVersion?
    ensures Step(e, db, op).secrets == db.secrets
  {
    hide Applied, Live, Rebuilt, FindVersion, ActiveVersion, NextVersionOf;
  }

  /** For all operations and all references: a step keeps the resolved content of every published group
      exactly when the operation is harmless. */
  lemma StepKeepsPublishedIff(e: Engine, db: Db, op: Op)
    requires RowsInv(db) && Given(db) && Legible(e, db, op)
    ensures PublishedKept(e, db, Step(e, db, op)) <==> Harmless(e, db, op)
  {
    hide RowsInv, Given, PublishedKept, PublishedOnce, PublishedPlain, IsPublished, Disturbs, UsesDropped,
         CloneDisturbs, UpsertWrites, ProvisionWrites, RefreshWrites, RefreshClones, PlainWrites, Upsert, DeleteGroup,
         CreateDraft, DeleteDraft, Provision, Refresh, Apply, ReadLatest, ReadVersion, EnsureDraft, FindStatus,
         DraftGroups, ActiveGroups;
    match op
    case UpsertGroup(p, dto) =>
      if p in db.revisions { UpsertKeepsIff(e, db, p, dto); } else { NotFoundKeeps(e, db, op); }
    case RemoveGroup(p, name) =>
      if p in db.revisions && FindGroup(DraftAt(db, p).groups, name) >= 0 {
        DeleteGroupKeepsIff(e, db, p, name);
      } else {
        NotFoundKeeps(e, db, op);
      }
    case OpenDraft(p) =>
      if p in db.revisions && FindStatus(db.revisions[p], Draft) < 0 {
        CreateDraftKeepsIff(e, db, p);
      } else {
        NotFoundKeeps(e, db, op);
      }
    case DropDraft(p) =>
      if p in db.revisions && FindStatus(db.revisions[p], Draft) >= 0 {
        DeleteDraftKeepsIff(e, db, p);
      } else {
        NotFoundKeeps(e, db, op);
      }
    case ProvisionDevice(deviceId, known, queried) => ProvisionKeepsIff(e, db, deviceId, known, queried);
    case RefreshDevice(deviceId, known, queried) =>
      if DeviceConfig(deviceId) in db.revisions {
        RefreshKeepsIff(e, db, deviceId, known, queried);
      } else {
        NotFoundKeeps(e, db, op);
      }
    case _ =>
      OthersTouchNoSecret(e, db, op);
      SameSecretsKept(e, db, Step(e, db, op));
  }

  /** An operation that finds nothing to work on leaves Vault alone. */
  lemma NotFoundKeeps(e: Engine, db: Db, op: Op)
    requires match op
             case UpsertGroup(p, _) => p !in db.revisions
             case RemoveGroup(p, name) => p !in db.revisions || FindGroup(DraftAt(db, p).groups, name) < 0
             case OpenDraft(p) => p !in db.revisions || FindStatus(db.revisions[p], Draft) >= 0
             case DropDraft(p) => p !in db.revisions || FindStatus(db.revisions[p], Draft) < 0
             case RefreshDevice(deviceId, _, _) => DeviceConfig(deviceId) !in db.revisions
             case _ => false
    ensures PublishedKept(e, db, Step(e, db, op)) && forall g :: !Harms(e, db, op, g)
  {
    hide PublishedKept, Disturbs, UsesDropped, CloneDisturbs, Upserted, Removed, EnsureDraft, RefreshClones,
         RefreshWrites, FindStatus;
    assert Step(e, db, op).secrets == db.secrets;
    SameSecretsKept(e, db, Step(e, db, op));
  }

  // ---------------------------------------------------------------------------------------
  // Runs
  // ---------------------------------------------------------------------------------------

  ghost predicate HarmlessRun(e: Engine, db: Db, ops: seq<Op>) {
    ops != [] ==>
      var db', op := Run(e, db, ops[..|ops| - 1]), ops[|ops| - 1];
      HarmlessRun(e, db, ops[..|ops| - 1]) && Timely(db', op) && Legible(e, db', op) && Harmless(e, db', op)
  }

  lemma {:induction false} HarmlessIsTimely(e: Engine, db: Db, ops: seq<Op>)
    requires HarmlessRun(e, db, ops)
    ensures TimelyRun(e, db, ops)
  {
    hide Timely, Legible, Harmless, Run;
    if ops != [] {
      HarmlessIsTimely(e, db, ops[..|ops| - 1]);
    }
  }

  /** Published groups stay published. */
  lemma StaysPublished(db: Db, db': Db, g: Group)
    requires RowsInv(db) && RowsInv(db') && RowsFrozen(db, db') && IsPublished(db, g)
    ensures IsPublished(db', g)
  {
    hide Lifecycle, CacheOk, Frozen, History;
    var p, i :| p in db.revisions && 0 <= i < |History(db.revisions[p])| && g in History(db.revisions[p])[i].groups;
    HistoryGrows(db.revisions[p], db'.revisions[p]);
    assert g in History(db'.revisions[p])[i].groups;
  }

  lemma KeptTransitive(e: Engine, a: Db, b: Db, c: Db)
    requires RowsInv(a) && RowsInv(b) && RowsFrozen(a, b) && PublishedKept(e, a, b) && PublishedKept(e, b, c)
    ensures PublishedKept(e, a, c)
  {
    hide RowsInv, RowsFrozen, IsPublished, ResolvedContent;
    forall g | IsPublished(a, g)
      ensures ResolvedContent(e.vault, c.secrets, g) == ResolvedContent(e.vault, a.secrets, g)
    {
      StaysPublished(a, b, g);
    }
  }

  /** Over every run of harmless operations, whatever references they carry, published rows and the
      resolved contents of their groups stay as they are. */
  lemma {:induction false} HarmlessRunKeeps(e: Engine, db: Db, ops: seq<Op>)
    requires RowsInv(db) && Given(db) && HarmlessRun(e, db, ops)
    ensures var db' := Run(e, db, ops);
            RowsInv(db') && Given(db') && RowsFrozen(db, db') && PublishedKept(e, db, db')
  {
    hide RowsInv, Given, RowsFrozen, PublishedKept, Step, Timely, Legible, Harmless;
    HarmlessIsTimely(e, db, ops);
    RunRows(e, db, ops);
    RunGiven(e, db, ops);
    if ops == [] {
      SameSecretsKept(e, db, db);
    } else {
      var front, op := ops[..|ops| - 1], ops[|ops| - 1];
      HarmlessRunKeeps(e, db, front);
      StepKeepsPublishedIff(e, Run(e, db, front), op);
      KeptTransitive(e, db, Run(e, db, front), Run(e, db, ops));
    }
  }
}
