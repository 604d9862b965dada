/** Ownership of secrets over every run of operations, and what it gives: published revisions and
    the secrets of their groups never change. */
module ConfigRuns {
  import opened Tree
  import opened Vault
  import opened SecretKeys
  import opened SecretOwnership
  import opened ConfigModel
  import opened Revisions
  import opened DraftEdits
  import opened DraftLaws
  import opened ConfigDb
  import opened ConfigRows

  /** Ids of all groups in published revisions. */
  ghost function HistoryIds(h: seq<Revision>): set<nat> {
    set i, j | 0 <= i < |h| && 0 <= j < |h[i].groups| :: h[i].groups[j].id
  }

  ghost function PublishedIds(revisions: map<Project, seq<Revision>>): set<nat> {
    set p, x | p in revisions && x in HistoryIds(History(revisions[p])) :: x
  }

  /** Draft groups of every project: fresh or own ids, owned references, and no id shared between
      two projects' drafts. */
  ghost predicate DraftsOk(mount: string, db: Db, pub: set<nat>) {
    && (forall p, i | p in db.revisions && 0 <= i < |DraftGroups(db.revisions[p])| ::
        GroupOk(DraftGroups(db.revisions[p])[i], mount, pub, db.nextGroupId))
    && (forall p, q | p in db.revisions && q in db.revisions && p != q ::
          GroupIds(DraftGroups(db.revisions[p])) !! GroupIds(DraftGroups(db.revisions[q])))
  }

  /** References in published groups are owned by published groups. */
  ghost predicate HistoryOwned(mount: string, h: seq<Revision>, pub: set<nat>) {
    forall i, j | 0 <= i < |h| && 0 <= j < |h[i].groups| :: Owned(Obj(h[i].groups[j].content), mount, pub)
  }

  ghost predicate VaultOk(mount: string, db: Db, pub: set<nat>) {
    HeldByAll(db.secrets, mount, pub) && forall x | x in pub :: x < db.nextGroupId
  }

  ghost predicate OwnedDb(mount: string, db: Db) {
    var pub := PublishedIds(db.revisions);
    && (forall p | p in db.revisions :: HistoryOwned(mount, History(db.revisions[p]), pub))
    && DraftsOk(mount, db, pub)
    && VaultOk(mount, db, pub)
  }

  ghost predicate Inv(e: Engine, db: Db) {
    PrintsObjects(e.objJson) && RowsInv(db) && OwnedDb(e.vault.mount, db)
  }

  /** Published rows and the secrets of their groups are what they were. */
  ghost predicate FrozenDb(db: Db, db': Db) {
    RowsFrozen(db, db') && Agree(db.secrets, db'.secrets, PublishedIds(db.revisions))
  }

  /** A device is provisioned before it has an active revision, and references a client sends name
      secrets of the group it edits or of published groups. */
  ghost predicate ValidOp(e: Engine, db: Db, op: Op) {
    && Timely(db, op)
    && (op.UpsertGroup? && op.dto.tree.Some? ==>
          Owned(Obj(op.dto.tree.value), e.vault.mount,
                PublishedIds(db.revisions) + {EditedId(DraftAt(db, op.project), op.dto.name)}))
  }

  ghost predicate ValidRun(e: Engine, db: Db, ops: seq<Op>) {
    ops != [] ==>
      ValidRun(e, db, ops[..|ops| - 1]) && ValidOp(e, Run(e, db, ops[..|ops| - 1]), ops[|ops| - 1])
  }

  lemma {:induction false} ValidIsTimely(e: Engine, db: Db, ops: seq<Op>)
    requires ValidRun(e, db, ops)
    ensures TimelyRun(e, db, ops)
  {
    hide Timely, Owned, Run;
    if ops != [] {
      ValidIsTimely(e, db, ops[..|ops| - 1]);
    }
  }

  lemma FreshInv(e: Engine, assocs: seq<Assoc>)
    requires PrintsObjects(e.objJson)
    ensures Inv(e, Fresh(assocs))
  {
    hide RowsInv, OwnedText, Within, PrintsObjects;
    FreshRows(assocs);
  }

  // ---------------------------------------------------------------------------------------
  // Replacing one project's rows
  // ---------------------------------------------------------------------------------------

  /** With the same history, the published ids stay. */
  lemma PublishedIdsSame(revisions: map<Project, seq<Revision>>, p: Project, r: seq<Revision>)
    requires History(r) == if p in revisions then History(revisions[p]) else []
    ensures PublishedIds(revisions[p := r]) == PublishedIds(revisions)
  {
    hide HistoryIds;
    var rs := revisions[p := r];
    assert HistoryIds([]) == {} by { NoHistoryIds(); }
    forall x ensures x in PublishedIds(rs) <==> x in PublishedIds(revisions) {
      if x in PublishedIds(rs) {
        var q :| q in rs && x in HistoryIds(History(rs[q]));
        assert q in revisions && x in HistoryIds(History(revisions[q]));
      }
      if x in PublishedIds(revisions) {
        var q :| q in revisions && x in HistoryIds(History(revisions[q]));
        assert q in rs && x in HistoryIds(History(rs[q]));
      }
    }
  }

  lemma NoHistoryIds()
    ensures HistoryIds([]) == {}
  {
  }

  /** What publishing the draft of `p` adds to the published ids. */
  lemma PublishedIdsGrow(revisions: map<Project, seq<Revision>>, p: Project, r: seq<Revision>, groups: seq<Group>)
    requires p in revisions && History(r) != []
    requires var h, h' := History(revisions[p]), History(r);
             && |h'| == |h| + 1 && (forall i | 0 <= i < |h| :: h'[i].groups == h[i].groups) && h'[|h|].groups == groups
    ensures PublishedIds(revisions[p := r]) == PublishedIds(revisions) + GroupIds(groups)
  {
    hide HistoryIds;
    var h, h', rs := History(revisions[p]), History(r), revisions[p := r];
    assert HistoryIds(h') == HistoryIds(h) + GroupIds(groups) by {
      HistoryIdsAppend(h, h', groups);
    }
    forall x ensures x in PublishedIds(rs) <==> x in PublishedIds(revisions) || x in GroupIds(groups) {
      if x in PublishedIds(rs) {
        var q :| q in rs && x in HistoryIds(History(rs[q]));
        assert q in revisions && (x in HistoryIds(History(revisions[q])) || x in GroupIds(groups));
      }
      if x in PublishedIds(revisions) {
        var q :| q in revisions && x in HistoryIds(History(revisions[q]));
        assert q in rs && x in HistoryIds(History(rs[q]));
      }
      if x in GroupIds(groups) {
        assert p in rs && x in HistoryIds(History(rs[p]));
      }
    }
  }

  lemma HistoryIdsAppend(h: seq<Revision>, h': seq<Revision>, groups: seq<Group>)
    requires |h'| == |h| + 1 && (forall i | 0 <= i < |h| :: h'[i].groups == h[i].groups) && h'[|h|].groups == groups
    ensures HistoryIds(h') == HistoryIds(h) + GroupIds(groups)
  {
    forall x ensures x in HistoryIds(h') <==> x in HistoryIds(h) || x in GroupIds(groups) {
      if x in HistoryIds(h') {
        var i, j :| 0 <= i < |h'| && 0 <= j < |h'[i].groups| && h'[i].groups[j].id == x;
        if i < |h| {
          assert h[i].groups[j].id == x;
        } else {
          assert groups[j].id == x;
        }
      }
      if x in HistoryIds(h) {
        var i, j :| 0 <= i < |h| && 0 <= j < |h[i].groups| && h[i].groups[j].id == x;
        assert h'[i].groups[j].id == x;
      }
      if x in GroupIds(groups) {
        var j :| 0 <= j < |groups| && groups[j].id == x;
        assert h'[|h|].groups[j].id == x;
      }
    }
  }

  lemma {:induction false} OwnedMoreHistory(mount: string, h: seq<Revision>, pub: set<nat>, more: set<nat>)
    requires HistoryOwned(mount, h, pub) && pub <= more
    ensures HistoryOwned(mount, h, more)
  {
    hide Owned;
    forall i, j | 0 <= i < |h| && 0 <= j < |h[i].groups| ensures Owned(Obj(h[i].groups[j].content), mount, more) {
      OwnedMore(Obj(h[i].groups[j].content), mount, pub, more);
    }
  }

  lemma HeldByMore(secrets: Secrets, mount: string, pub: set<nat>, more: set<nat>)
    requires HeldByAll(secrets, mount, pub) && pub <= more
    ensures HeldByAll(secrets, mount, more)
  {
    hide Held;
  }

  /** A draft of the table as the edits see it. */
  lemma DraftIsOk(e: Engine, db: Db, p: Project)
    requires Inv(e, db)
    ensures var pub := PublishedIds(db.revisions);
            && DraftOk(DraftAt(db, p), e.vault.mount, pub)
            && DraftOk(DraftState(db.secrets, db.nextGroupId, []), e.vault.mount, pub)
  {
    hide Owned, OwnedText, PublishedIds, UniqueNames, DraftGroups, EnsureDraft, HeldByAll, History, RowsInv;
    var d := DraftAt(db, p);
    NoDraft();
    NoNamesUnique();
    DraftOfRows(db, p);
    forall i | 0 <= i < |d.groups|
      ensures GroupOk(d.groups[i], e.vault.mount, PublishedIds(db.revisions), db.nextGroupId)
    {
      assert p in db.revisions;
    }
  }

  lemma NoDraft()
    ensures DraftGroups([]) == []
  {
  }

  /** Replacing the draft of one project by an edited one keeps the ownership of all references. */
  lemma EditedOwned(mount: string, db: Db, db': Db, p: Project, d: DraftState, d': DraftState)
    requires OwnedDb(mount, db) && p in db'.revisions && db'.revisions == db.revisions[p := db'.revisions[p]]
    requires History(db'.revisions[p]) == History(RevisionsOf(db, p)) && DraftGroups(db'.revisions[p]) == d'.groups
    requires db'.secrets == d'.secrets && db'.nextGroupId == d'.nextId
    requires d.secrets == db.secrets && d.nextId == db.nextGroupId
    requires GroupIds(d.groups) <= GroupIds(DraftGroups(RevisionsOf(db, p)))
    requires DraftOk(d, mount, PublishedIds(db.revisions)) && DraftOk(d', mount, PublishedIds(db.revisions))
             && DraftFrame(d, d')
    ensures OwnedDb(mount, db') && Agree(db.secrets, db'.secrets, PublishedIds(db.revisions))
    ensures PublishedIds(db'.revisions) == PublishedIds(db.revisions)
  {
    hide Owned, OwnedText, PublishedIds, UniqueNames, HeldByAll, GroupOk;
    var pub := PublishedIds(db.revisions);
    assert History([]) == [];
    PublishedIdsSame(db.revisions, p, db'.revisions[p]);
    EditedDrafts(mount, db, db', p, d, d', pub);
    FrameAgrees(d, d', mount, pub);
    forall q | q in db'.revisions ensures HistoryOwned(mount, History(db'.revisions[q]), pub) {
      assert q != p ==> q in db.revisions;
    }
  }

  lemma WithinMore(n: string, ids: set<nat>, more: set<nat>)
    requires Within(n, ids) && ids <= more
    ensures Within(n, more)
  {
    hide SecretName;
  }

  lemma EditedDrafts(mount: string, db: Db, db': Db, p: Project, d: DraftState, d': DraftState, pub: set<nat>)
    requires p in db'.revisions && db'.revisions == db.revisions[p := db'.revisions[p]]
    requires db'.secrets == d'.secrets && db'.nextGroupId == d'.nextId
    requires DraftsOk(mount, db, pub) && DraftOk(d', mount, pub) && DraftFrame(d, d') && d.nextId == db.nextGroupId
    requires DraftGroups(db'.revisions[p]) == d'.groups
             && GroupIds(d.groups) <= GroupIds(DraftGroups(RevisionsOf(db, p)))
    ensures DraftsOk(mount, db', pub)
  {
    hide Owned, OwnedText, DraftGroups;
    forall q | q in db'.revisions && q != p ensures GroupIds(DraftGroups(db'.revisions[q])) !! GroupIds(d'.groups) {
      var others := DraftGroups(db.revisions[q]);
      assert p in db.revisions ==> GroupIds(others) !! GroupIds(DraftGroups(db.revisions[p]));
      assert p !in db.revisions ==> GroupIds(d.groups) == {} by { NoDraftIds(); }
      forall x | x in GroupIds(others) ensures x !in GroupIds(d'.groups) {
        var i :| 0 <= i < |others| && others[i].id == x;
        assert GroupOk(others[i], mount, pub, db.nextGroupId);
      }
    }
    forall q, i | q in db'.revisions && 0 <= i < |DraftGroups(db'.revisions[q])|
      ensures GroupOk(DraftGroups(db'.revisions[q])[i], mount, pub, db'.nextGroupId)
    {
      if q != p {
        assert GroupOk(DraftGroups(db.revisions[q])[i], mount, pub, db.nextGroupId);
      }
    }
  }

  lemma NoIds()
    ensures GroupIds([]) == {}
  {
  }

  lemma NoDraftIds()
    ensures GroupIds(DraftGroups([])) == {}
  {
  }

  lemma PublishedHistory(mount: string, db: Db, p: Project, r: seq<Revision>, pub: set<nat>)
    requires p in db.revisions && DraftsOk(mount, db, pub)
    requires forall q | q in db.revisions ::
               Lifecycle(db.revisions[q]) && HistoryOwned(mount, History(db.revisions[q]), pub)
    requires PublishesDraft(db.revisions[p], r)
    ensures var groups := DraftGroups(db.revisions[p]);
            && PublishedIds(db.revisions[p := r]) == PublishedIds(db.revisions) + GroupIds(groups)
            && forall q | q in db.revisions ::
              HistoryOwned(mount, History(db.revisions[p := r][q]), pub + GroupIds(groups))
  {
    hide Owned, Lifecycle, PublishedIds, UniqueNames, DraftGroups, HistoryOwned, DraftsOk, History, GroupIds, Frozen,
         HistoryIds;
    var base, groups := db.revisions[p], DraftGroups(db.revisions[p]);
    HistoryGrows(base, r);
    PublishedIdsGrow(db.revisions, p, r, groups);
    PublishedGroupsOwned(mount, db, p, pub);
    forall q | q in db.revisions ensures HistoryOwned(mount, History(db.revisions[p := r][q]), pub + GroupIds(groups)) {
      OwnedMoreHistory(mount, History(db.revisions[q]), pub, pub + GroupIds(groups));
      if q == p {
        GrownHistoryOwned(mount, History(base), History(r), groups, pub + GroupIds(groups));
      }
    }
  }

  lemma GrownHistoryOwned(mount: string, h: seq<Revision>, h': seq<Revision>, groups: seq<Group>, pub: set<nat>)
    requires HistoryOwned(mount, h, pub) && forall i | 0 <= i < |groups| :: Owned(Obj(groups[i].content), mount, pub)
    requires |h'| == |h| + 1 && (forall i | 0 <= i < |h| :: h'[i].groups == h[i].groups) && h'[|h|].groups == groups
    ensures HistoryOwned(mount, h', pub)
  {
    hide Owned;
    forall i, j | 0 <= i < |h'| && 0 <= j < |h'[i].groups| ensures Owned(Obj(h'[i].groups[j].content), mount, pub) {
      assert i < |h| ==> h'[i].groups == h[i].groups;
    }
  }

  lemma PublishedDrafts(mount: string, db: Db, p: Project, r: seq<Revision>, pub: set<nat>)
    requires p in db.revisions && DraftsOk(mount, db, pub) && VaultOk(mount, db, pub) && DraftGroups(r) == []
    ensures var db', pub' := db.(revisions := db.revisions[p := r]), pub + GroupIds(DraftGroups(db.revisions[p]));
            DraftsOk(mount, db', pub') && VaultOk(mount, db', pub')
  {
    hide Owned, OwnedText, DraftGroups;
    var groups := DraftGroups(db.revisions[p]);
    var db', pub' := db.(revisions := db.revisions[p := r]), pub + GroupIds(groups);
    HeldByMore(db.secrets, mount, pub, pub');
    forall q, i | q in db'.revisions && 0 <= i < |DraftGroups(db'.revisions[q])|
      ensures GroupOk(DraftGroups(db'.revisions[q])[i], mount, pub', db.nextGroupId)
    {
      var g := DraftGroups(db.revisions[q])[i];
      assert GroupOk(g, mount, pub, db.nextGroupId);
      assert g.id in GroupIds(DraftGroups(db.revisions[q]));
      OwnedMore(Obj(g.content), mount, pub + {g.id}, pub' + {g.id});
    }
    forall x | x in GroupIds(groups) ensures x < db.nextGroupId {
      var i :| 0 <= i < |groups| && groups[i].id == x;
      assert GroupOk(groups[i], mount, pub, db.nextGroupId);
    }
    NoDraftIds();
  }

  /** Publishing a project's draft keeps the invariant and freezes history; its group ids become
      published. */
  lemma PublishedInv(e: Engine, db: Db, p: Project, r: seq<Revision>)
    requires Inv(e, db) && p in db.revisions && PublishesDraft(db.revisions[p], r)
    ensures var db' := db.(revisions := db.revisions[p := r]);
            Inv(e, db') && FrozenDb(db, db')
  {
    hide Owned, OwnedText, PublishedIds, UniqueNames, DraftGroups, DraftsOk, VaultOk, HistoryOwned, GroupIds, Lifecycle,
         CacheOk, Frozen, Agree;
    var pub := PublishedIds(db.revisions);
    var db' := db.(revisions := db.revisions[p := r]);
    ReplacedRows(db, db', p, r);
    PublishedHistory(e.vault.mount, db, p, r, pub);
    PublishedDrafts(e.vault.mount, db, p, r, pub);
    AgreeSelf(db.secrets, pub);
  }

  /** The groups of a draft about to be published are owned by what is published then. */
  lemma PublishedGroupsOwned(mount: string, db: Db, p: Project, pub: set<nat>)
    requires DraftsOk(mount, db, pub) && p in db.revisions
    ensures var groups := DraftGroups(db.revisions[p]);
            forall i | 0 <= i < |groups| :: Owned(Obj(groups[i].content), mount, pub + GroupIds(groups))
  {
    hide Owned, DraftGroups;
    var groups := DraftGroups(db.revisions[p]);
    forall i | 0 <= i < |groups| ensures Owned(Obj(groups[i].content), mount, pub + GroupIds(groups)) {
      assert GroupOk(groups[i], mount, pub, db.nextGroupId);
      assert groups[i].id in GroupIds(groups);
      OwnedMore(Obj(groups[i].content), mount, pub + {groups[i].id}, pub + GroupIds(groups));
    }
  }

  /** What touches neither revisions nor Vault keeps the ownership. */
  lemma SameOwned(e: Engine, db: Db, db': Db)
    requires Inv(e, db) && db'.revisions == db.revisions && db'.secrets == db.secrets
             && db'.nextGroupId == db.nextGroupId
    requires RowsInv(db') && RowsFrozen(db, db')
    ensures Inv(e, db') && FrozenDb(db, db')
  {
    hide Owned, OwnedText, PublishedIds, HeldByAll, HistoryOwned, Agree, History, DraftGroups, GroupIds, RowsInv,
         RowsFrozen;
    AgreeSelf(db.secrets, PublishedIds(db.revisions));
  }

  lemma SelfFrozen(e: Engine, db: Db)
    requires Inv(e, db)
    ensures FrozenDb(db, db)
  {
    hide OwnedDb, RowsInv, FrozenDb;
    RowsUnchanged(db, db);
    SameOwned(e, db, db);
  }

  lemma {:induction false} HistoryIdsGrow(h: seq<Revision>, h': seq<Revision>)
    requires |h| <= |h'| && forall i | 0 <= i < |h| :: h'[i].groups == h[i].groups
    ensures HistoryIds(h) <= HistoryIds(h')
  {
    forall x | x in HistoryIds(h) ensures x in HistoryIds(h') {
      var i, j :| 0 <= i < |h| && 0 <= j < |h[i].groups| && h[i].groups[j].id == x;
      assert h'[i].groups[j].id == x;
    }
  }

  /** Published ids only grow along frozen steps. */
  lemma PublishedIdsMonotone(db: Db, db': Db)
    requires RowsInv(db) && RowsInv(db') && RowsFrozen(db, db')
    ensures PublishedIds(db.revisions) <= PublishedIds(db'.revisions)
  {
    hide HistoryIds, Lifecycle, CacheOk, Frozen, History;
    forall x | x in PublishedIds(db.revisions) ensures x in PublishedIds(db'.revisions) {
      var p :| p in db.revisions && x in HistoryIds(History(db.revisions[p]));
      HistoryGrows(db.revisions[p], db'.revisions[p]);
      HistoryIdsGrow(History(db.revisions[p]), History(db'.revisions[p]));
    }
  }

  lemma FrozenDbTransitive(e: Engine, a: Db, b: Db, c: Db)
    requires Inv(e, a) && Inv(e, b) && FrozenDb(a, b) && FrozenDb(b, c)
    ensures FrozenDb(a, c)
  {
    hide OwnedDb, RowsInv, RowsFrozen, PublishedIds, Within, SameSecret;
    PublishedIdsMonotone(a, b);
    RowsFrozenTransitive(a, b, c);
    forall n | Within(n, PublishedIds(a.revisions)) ensures SameSecret(a.secrets, c.secrets, n) {
      WithinMore(n, PublishedIds(a.revisions), PublishedIds(b.revisions));
      assert SameSecret(a.secrets, b.secrets, n) && SameSecret(b.secrets, c.secrets, n);
      SameSecretTransitive(a.secrets, b.secrets, c.secrets, n);
    }
  }

  lemma SameSecretTransitive(a: Secrets, b: Secrets, c: Secrets, name: string)
    requires SameSecret(a, b, name) && SameSecret(b, c, name)
    ensures SameSecret(a, c, name)
  {
  }

  // ---------------------------------------------------------------------------------------
  // Every operation keeps the invariant and freezes published history
  // ---------------------------------------------------------------------------------------

  /** Writing an edited draft back. */
  lemma WithDraftInv(e: Engine, db: Db, p: Project, d: DraftState, d': DraftState)
    requires Inv(e, db) && (d == DraftAt(db, p) || d == DraftState(db.secrets, db.nextGroupId, []))
    requires DraftOk(d', e.vault.mount, PublishedIds(db.revisions)) && DraftFrame(d, d')
    ensures var db' := Edited(db, p, d');
            Inv(e, db') && FrozenDb(db, db') && PublishedIds(db'.revisions) == PublishedIds(db.revisions)
  {
    hide OwnedDb, RowsInv, DraftOk, PublishedIds, DraftFrame, EnsureDraft, WithDraftGroups, FindStatus, Lifecycle,
         History, GroupIds, DraftGroups, UniqueNames, RowsFrozen;
    UniqueOfOk(d', e.vault.mount, PublishedIds(db.revisions));
    DraftIsOk(e, db, p);
    DraftOfRows(db, p);
    WithDraftRows(db, p, d');
    NoIds();
    EditedOwned(e.vault.mount, db, Edited(db, p, d'), p, d, d');
  }

  /** The active groups of a project refer to published groups only. */
  lemma ActiveGroupsOwned(e: Engine, db: Db, p: Project)
    requires Inv(e, db)
    ensures var groups := ActiveGroups(RevisionsOf(db, p));
            forall i | 0 <= i < |groups| :: Owned(Obj(groups[i].content), e.vault.mount, PublishedIds(db.revisions))
  {
    hide Owned, PublishedIds, Lifecycle, CacheOk, DraftsOk, VaultOk, History, ActiveGroups;
    RowsOf(db, p);
    SourceIsActive(RevisionsOf(db, p));
  }

  lemma {:induction false} GroupsOfMapsOwned(e: Engine, db: Db, ids: seq<nat>)
    requires Inv(e, db)
    ensures forall i | 0 <= i < |GroupsOfMaps(db.revisions, ids)| ::
              Owned(Obj(GroupsOfMaps(db.revisions, ids)[i].content), e.vault.mount, PublishedIds(db.revisions))
  {
    hide Owned, PublishedIds, ActiveGroups, Inv;
    if ids != [] {
      var n := |ids| - 1;
      GroupsOfMapsOwned(e, db, ids[..n]);
      ActiveGroupsOwned(e, db, ConfigMap(ids[n]));
    }
  }

  lemma SecretsHeldByAll(e: Engine, db: Db)
    requires Inv(e, db)
    ensures HeldByAll(db.secrets, e.vault.mount, PublishedIds(db.revisions))
            && Held(db.secrets, e.vault.mount, PublishedIds(db.revisions))
  {
    hide HeldByAll, DraftsOk, HistoryOwned, RowsInv, PublishedIds, Held;
    HeldOf(db.secrets, e.vault.mount, PublishedIds(db.revisions), PublishedIds(db.revisions));
  }

  /** Populating a draft of the table from the applicable config maps. */
  lemma PopulatedOk(e: Engine, db: Db, d: DraftState, deviceId: string, known: set<nat>)
    requires Inv(e, db) && DraftOk(d, e.vault.mount, PublishedIds(db.revisions)) && d.secrets == db.secrets
    ensures var maps := MapGroups(db, deviceId, known);
            var d' := Populated(e, d, maps);
            DraftOk(d', e.vault.mount, PublishedIds(db.revisions)) && DraftFrame(d, d')
  {
    hide Owned, PublishedIds, HeldByAll, Held, DraftOk, DraftFrame, OwnedDb, RowsInv;
    var pub, maps := PublishedIds(db.revisions), MapGroups(db, deviceId, known);
    GroupsOfMapsOwned(e, db, MapIds(db.assocs, deviceId, known));
    SecretsHeldByAll(e, db);
    MergedAllOwned(e.vault, d.secrets, maps, pub);
    PopulateAllKeeps(e, d, MergedAll(e.vault, d.secrets, maps), pub);
  }

  lemma UpsertInv(e: Engine, db: Db, p: Project, dto: UpsertDto)
    requires Inv(e, db) && ValidOp(e, db, UpsertGroup(p, dto))
    ensures var db' := Upsert(e, db, p, dto).0; Inv(e, db') && FrozenDb(db, db')
  {
    hide Inv, FrozenDb, Owned, DraftOk, DraftFrame, Upserted, PublishedIds;
    SelfFrozen(e, db);
    if p in db.revisions {
      DraftIsOk(e, db, p);
      UpsertKeeps(e.vault, DraftAt(db, p), dto, PublishedIds(db.revisions));
      WithDraftInv(e, db, p, DraftAt(db, p), Upserted(e.vault, DraftAt(db, p), dto));
    }
  }

  lemma DeleteGroupInv(e: Engine, db: Db, p: Project, name: string)
    requires Inv(e, db)
    ensures var db' := DeleteGroup(e, db, p, name).0; Inv(e, db') && FrozenDb(db, db')
  {
    hide Inv, FrozenDb, Owned, DraftOk, DraftFrame, Removed, PublishedIds;
    SelfFrozen(e, db);
    if p in db.revisions {
      var revs := EnsureDraft(db.revisions[p]);
      var d := DraftOf(db, revs);
      DraftIsOk(e, db, p);
      var i := FindGroup(DraftGroups(revs), name);
      if i >= 0 {
        RemoveKeeps(e.vault, d, i, PublishedIds(db.revisions));
        WithDraftInv(e, db, p, d, Removed(e.vault, d, i));
      } else {
        FrameSelf(d);
        WithDraftInv(e, db, p, d, d);
        assert WithDraftGroups(revs, d.groups) == revs;
        assert WithDraft(db, p, revs, d) == db.(revisions := db.revisions[p := revs]);
      }
    }
  }

  lemma CreateDraftInv(e: Engine, db: Db, p: Project)
    requires Inv(e, db)
    ensures var db' := CreateDraft(e, db, p).0; Inv(e, db') && FrozenDb(db, db')
  {
    hide OwnedDb, Lifecycle, CacheOk, DraftOk, DraftFrame, ClonedMissing, PublishedIds, Owned, FrozenDb, ActiveGroups,
         SourceGroups, UniqueNames;
    SelfFrozen(e, db);
    if p in db.revisions && FindStatus(db.revisions[p], Draft) < 0 {
      var d, sources := DraftState(db.secrets, db.nextGroupId, []), SourceGroups(db.revisions[p]);
      DraftIsOk(e, db, p);
      ActiveGroupsOwned(e, db, p);
      SourceIsActive(db.revisions[p]);
      CloneMissingKeeps(e.vault, d, sources, {}, PublishedIds(db.revisions));
      WithDraftInv(e, db, p, d, ClonedMissing(e.vault, d, sources, {}));
    }
  }

  lemma DeleteDraftInv(e: Engine, db: Db, p: Project)
    requires Inv(e, db)
    ensures var db' := DeleteDraft(e, db, p).0; Inv(e, db') && FrozenDb(db, db')
  {
    hide OwnedDb, AllSecretsDropped, PublishedIds, Lifecycle, CacheOk, Owned, GroupOk, UniqueNames, Frozen, FindStatus,
         MaxNumber, History, HeldByAll, SecretName, WithoutDraft, Agree, RowsFrozen;
    SelfFrozen(e, db);
    if p in db.revisions && FindStatus(db.revisions[p], Draft) >= 0 {
      var revs, pub := db.revisions[p], PublishedIds(db.revisions);
      var d, d' := DraftAt(db, p),
        DraftState(AllSecretsDropped(e.vault, db.secrets, DraftGroups(revs)), db.nextGroupId, []);
      DraftIsOk(e, db, p);
      DropAllKeeps(e.vault, db.secrets, DraftGroups(revs), pub);
      DropKeeps(revs);
      LifecycleFinds(WithoutDraft(revs));
      NoNamesUnique();
      NoIds();
      var db' := DeleteDraft(e, db, p).0;
      ReplacedRows(db, db', p, WithoutDraft(revs));
      EditedOwned(e.vault.mount, db, db', p, d, d');
    }
  }

  lemma ApplyInv(e: Engine, db: Db, p: Project, queried: set<nat>)
    requires Inv(e, db)
    ensures var db' := Apply(e, db, p, queried).0; Inv(e, db') && FrozenDb(db, db')
  {
    hide OwnedDb, FrozenDb, PublishesDraft, Applied, NextVersionOf, Live, Lifecycle, CacheOk, FindVersion;
    SelfFrozen(e, db);
    if p in db.revisions && FindStatus(db.revisions[p], Draft) >= 0 {
      var revs := db.revisions[p];
      PublishRows(revs);
      PublishedInv(e, db, p, Applied(revs));
      var db1 := db.(revisions := db.revisions[p := Applied(revs)]);
      if p.DeviceConfig? {
        CachedInv(e, db1, p.deviceId, NextVersionOf(revs), Live(e, db1, p.deviceId, queried));
        FrozenDbTransitive(e, db, db1, Cached(e, db1, p.deviceId, queried, NextVersionOf(revs)));
      }
    }
  }

  /** Adding a cache entry for a published version. */
  lemma CachedInv(e: Engine, db: Db, deviceId: string, version: Version, payload: DevicePayload)
    requires Inv(e, db) && FindVersion(RevisionsOf(db, DeviceConfig(deviceId)), version) >= 0
    ensures var db' := db.(cache := db.cache[(deviceId, version) := payload]); Inv(e, db') && FrozenDb(db, db')
  {
    hide OwnedDb, FrozenDb, RowsInv, RowsFrozen;
    CachedRows(db, deviceId, version, payload);
    SameOwned(e, db, db.(cache := db.cache[(deviceId, version) := payload]));
  }

  /** Publishing a device's draft, opening the next one and caching the payload. */
  lemma PublishedAsInv(e: Engine, db: Db, deviceId: string, queried: set<nat>)
    requires Inv(e, db) && DeviceConfig(deviceId) in db.revisions
             && FindStatus(db.revisions[DeviceConfig(deviceId)], Draft) >= 0
    ensures var base := db.revisions[DeviceConfig(deviceId)];
            var db' := PublishedAs(e, db, deviceId, queried, Applied(base), DraftNumber(base), NextVersionOf(base));
            Inv(e, db') && FrozenDb(db, db')
  {
    hide OwnedDb, FrozenDb, PublishesDraft, Applied, NextVersionOf, Live, Lifecycle, CacheOk, FindVersion;
    var p := DeviceConfig(deviceId);
    var base := db.revisions[p];
    PublishRows(base);
    var r, v := WithNextDraft(Applied(base), DraftNumber(base)), NextVersionOf(base);
    PublishedInv(e, db, p, r);
    var db1 := db.(revisions := db.revisions[p := r]);
    CachedInv(e, db1, deviceId, v, Live(e, db1, deviceId, queried));
    FrozenDbTransitive(e, db, db1, Cached(e, db1, deviceId, queried, v));
  }

  /** The draft provisioning publishes. */
  lemma ProvisionedOk(e: Engine, db: Db, deviceId: string, known: set<nat>)
    requires Inv(e, db)
    ensures var p := DeviceConfig(deviceId);
            var d' := ProvisionedDraft(e, db, EnsureDraft(RevisionsOf(db, p)), deviceId, known);
            DraftOk(d', e.vault.mount, PublishedIds(db.revisions)) && DraftFrame(DraftAt(db, p), d')
  {
    hide Inv, PublishedIds, DraftFrame, Populated, UniqueNames, GroupOk, HeldByAll;
    var d := DraftAt(db, DeviceConfig(deviceId));
    DraftIsOk(e, db, DeviceConfig(deviceId));
    DefaultsKeep(d, e.vault.mount, PublishedIds(db.revisions));
    PopulatedOk(e, db, WithDefaults(d), deviceId, known);
    FrameTransitive(d, WithDefaults(d), Populated(e, WithDefaults(d), MapGroups(db, deviceId, known)));
  }

  lemma ProvisionInv(e: Engine, db: Db, deviceId: string, known: set<nat>, queried: set<nat>)
    requires Inv(e, db) && FindStatus(RevisionsOf(db, DeviceConfig(deviceId)), Active) < 0
    ensures var db' := Provision(e, db, deviceId, known, queried); Inv(e, db') && FrozenDb(db, db')
  {
    hide OwnedDb, RowsInv, RowsFrozen, PublishedIds, DraftFrame, DraftOk, ProvisionedDraft, FrozenDb, PublishedAs,
         Edited, Provision, EnsureDraft, Applied, NextVersionOf, FindStatus;
    var p := DeviceConfig(deviceId);
    var d' := ProvisionedDraft(e, db, EnsureDraft(RevisionsOf(db, p)), deviceId, known);
    ProvisionedOk(e, db, deviceId, known);
    WithDraftInv(e, db, p, DraftAt(db, p), d');
    ProvisionIsPublish(e, db, deviceId, known, queried);
    PublishedAsInv(e, Edited(db, p, d'), deviceId, queried);
    FrozenDbTransitive(e, db, Edited(db, p, d'), Provision(e, db, deviceId, known, queried));
  }

  /** The draft a refresh publishes. */
  lemma RefreshedOk(e: Engine, db: Db, deviceId: string, known: set<nat>)
    requires Inv(e, db)
    ensures var p := DeviceConfig(deviceId);
            var d' := RefreshedDraft(e, db, EnsureDraft(RevisionsOf(db, p)), deviceId, known);
            DraftOk(d', e.vault.mount, PublishedIds(db.revisions)) && DraftFrame(DraftAt(db, p), d')
  {
    hide OwnedDb, Lifecycle, CacheOk, PublishedIds, DraftFrame, DraftOk, Populated, Owned, ClonedMissing, EnsureDraft,
         ActiveGroups, SourceGroups, UniqueNames;
    var p, pub := DeviceConfig(deviceId), PublishedIds(db.revisions);
    var d := DraftAt(db, p);
    var d1, sources := Populated(e, d, MapGroups(db, deviceId, known)), ActiveGroups(EnsureDraft(RevisionsOf(db, p)));
    DraftIsOk(e, db, p);
    PopulatedOk(e, db, d, deviceId, known);
    RowsOf(db, p);
    ActiveGroupsKept(RevisionsOf(db, p));
    ActiveGroupsOwned(e, db, p);
    SourceIsActive(RevisionsOf(db, p));
    CloneMissingKeeps(e.vault, d1, sources, GroupNames(d1.groups), pub);
    FrameTransitive(d, d1, ClonedMissing(e.vault, d1, sources, GroupNames(d1.groups)));
  }

  lemma RefreshInv(e: Engine, db: Db, deviceId: string, known: set<nat>, queried: set<nat>)
    requires Inv(e, db)
    ensures var db' := Refresh(e, db, deviceId, known, queried).0; Inv(e, db') && FrozenDb(db, db')
  {
    hide OwnedDb, RowsInv, PublishedIds, DraftFrame, DraftOk, RefreshedDraft, FrozenDb, PublishedAs, EnsureDraft,
         Applied, NextVersionOf;
    SelfFrozen(e, db);
    var p := DeviceConfig(deviceId);
    if p in db.revisions {
      var d' := RefreshedDraft(e, db, EnsureDraft(RevisionsOf(db, p)), deviceId, known);
      RefreshedOk(e, db, deviceId, known);
      WithDraftInv(e, db, p, DraftAt(db, p), d');
      RefreshedRows(e, db, deviceId, known);
      var db1 := Edited(db, p, d');
      PublishedAsInv(e, db1, deviceId, queried);
      FrozenDbTransitive(e, db, db1, Refresh(e, db, deviceId, known, queried).0);
    }
  }

  lemma NewProjectInv(e: Engine, db: Db, p: Project)
    requires Inv(e, db) && p !in db.revisions
    ensures var db' := db.(revisions := db.revisions[p := []]); Inv(e, db') && FrozenDb(db, db')
  {
    hide OwnedDb, RowsInv, RowsFrozen, DraftOk, DraftFrame, PublishedIds, Agree, EnsureDraft, UniqueNames;
    DraftIsOk(e, db, p);
    NewProjectRows(db, p);
    NoDraft();
    var d := DraftState(db.secrets, db.nextGroupId, []);
    FrameSelf(d);
    EditedOwned(e.vault.mount, db, db.(revisions := db.revisions[p := []]), p, d, d);
  }

  lemma ReadInv(e: Engine, db: Db, deviceId: string, queried: set<nat>, version: Version)
    requires Inv(e, db)
    ensures var db' := ReadLatest(e, db, deviceId, queried).0; Inv(e, db') && FrozenDb(db, db')
    ensures var db' := ReadVersion(e, db, deviceId, version).0; Inv(e, db') && FrozenDb(db, db')
  {
    hide OwnedDb, RowsInv, RowsFrozen, FrozenDb, Live, Rebuilt;
    ReadRows(e, db, deviceId, queried, version);
    SameOwned(e, db, ReadLatest(e, db, deviceId, queried).0);
    SameOwned(e, db, ReadVersion(e, db, deviceId, version).0);
  }

  lemma StepKeeps(e: Engine, db: Db, op: Op)
    requires Inv(e, db) && ValidOp(e, db, op)
    ensures Inv(e, Step(e, db, op)) && FrozenDb(db, Step(e, db, op))
  {
    hide OwnedDb, RowsInv, RowsFrozen, FrozenDb, Upsert, DeleteGroup, Apply, CreateDraft, DeleteDraft, Provision,
         Refresh, ReadLatest, ReadVersion, Owned, FindStatus;
    SelfFrozen(e, db);
    match op
    case NewProject(p) =>
      if p !in db.revisions { NewProjectInv(e, db, p); }
    case Associate(assocs) =>
      RowsUnchanged(db, db.(assocs := assocs));
      SameOwned(e, db, db.(assocs := assocs));
    case UpsertGroup(p, dto) => UpsertInv(e, db, p, dto);
    case RemoveGroup(p, name) => DeleteGroupInv(e, db, p, name);
    case ApplyRevision(p, queried) => ApplyInv(e, db, p, queried);
    case OpenDraft(p) => CreateDraftInv(e, db, p);
    case DropDraft(p) => DeleteDraftInv(e, db, p);
    case ProvisionDevice(deviceId, known, queried) => ProvisionInv(e, db, deviceId, known, queried);
    case RefreshDevice(deviceId, known, queried) => RefreshInv(e, db, deviceId, known, queried);
    case GetLatest(deviceId, queried) => ReadInv(e, db, deviceId, queried, INITIAL);
    case GetVersion(deviceId, version) => ReadInv(e, db, deviceId, {}, version);
  }

  /** Over every run the invariant holds (so each project keeps its revision life cycle), and
      published revisions and the secrets of their groups never change. */
  lemma {:induction false} RunKeeps(e: Engine, db: Db, ops: seq<Op>)
    requires Inv(e, db) && ValidRun(e, db, ops)
    ensures Inv(e, Run(e, db, ops)) && FrozenDb(db, Run(e, db, ops))
  {
    hide Inv, FrozenDb, Step, ValidOp;
    if ops == [] {
      SelfFrozen(e, db);
    } else {
      var front, op := ops[..|ops| - 1], ops[|ops| - 1];
      RunKeeps(e, db, front);
      StepKeeps(e, Run(e, db, front), op);
      FrozenDbTransitive(e, db, Run(e, db, front), Run(e, db, ops));
    }
  }
}
