/** Runs from the empty engine that reach the states the exact conditions exclude: a foreign reference
    that empties published content, a publish whose cached payload is not the rebuilt one, and a
    clone that loses a value. */
module ConfigWitnesses {
  import opened Options
  import opened Text
  import opened Tree
  import opened Vault
  import opened SecretKeys
  import opened SecretLaws
  import opened ConfigModel
  import opened Versioning
  import opened Revisions
  import opened DraftEdits
  import opened DraftNames
  import opened Payload
  import opened ConfigDb
  import opened ConfigRows
  import opened RowTheorems
  import opened PayloadTheorems

  // ---------------------------------------------------------------------------------------
  // Following one project through a run
  // ---------------------------------------------------------------------------------------

  /** The draft and the active groups of a project; `open` says whether it has a draft row. */
  ghost predicate At(db: Db, p: Project, d: DraftState, active: seq<Group>, open: bool) {
    && RowsInv(db) && p in db.revisions && db.secrets == d.secrets && db.nextGroupId == d.nextId
    && DraftGroups(db.revisions[p]) == d.groups && ActiveGroups(db.revisions[p]) == active
    && (FindStatus(db.revisions[p], Draft) >= 0 <==> open)
  }

  lemma NewAt(e: Engine, db: Db, p: Project)
    requires RowsInv(db) && p !in db.revisions
    ensures At(Step(e, db, NewProject(p)), p, DraftState(db.secrets, db.nextGroupId, []), [], false)
  {
    hide RowsInv;
    NewProjectRows(db, p);
  }

  lemma UpsertAt(e: Engine, db: Db, p: Project, dto: UpsertDto, d: DraftState, active: seq<Group>, open: bool)
    requires At(db, p, d, active, open)
    ensures At(Step(e, db, UpsertGroup(p, dto)), p, Upserted(e.vault, d, dto), active, true)
  {
    hide RowsInv, RowsFrozen, Upserted, EnsureDraft, ActiveGroups, DraftGroups, FindStatus, History, Lifecycle,
         UniqueNames;
    DraftOfRows(db, p);
    UpsertNames(e.vault, d, dto);
    WithDraftRows(db, p, Upserted(e.vault, d, dto));
    RowsOf(db, p);
    SameActive(db.revisions[p], Edited(db, p, Upserted(e.vault, d, dto)).revisions[p]);
  }

  lemma ApplyAt(e: Engine, db: Db, p: Project, queried: set<nat>, d: DraftState, active: seq<Group>)
    requires At(db, p, d, active, true) && !p.DeviceConfig?
    ensures At(Step(e, db, ApplyRevision(p, queried)), p, d.(groups := []), d.groups, false)
  {
    hide CacheOk, RowsFrozen, Applied, ActiveGroups, DraftGroups, NextVersionOf, FindVersion, ActiveVersion, Lifecycle,
         History, Frozen, FindStatus;
    ApplyRows(e, db, p, queried);
    PublishRows(db.revisions[p]);
    NoDraftLeft(Applied(db.revisions[p]));
  }

  lemma NoDraftLeft(r: seq<Revision>)
    requires Lifecycle(r) && History(r) == r
    ensures FindStatus(r, Draft) < 0
  {
    hide Linked, UniqueNames;
    LifecycleFinds(r);
  }

  lemma OpenAt(e: Engine, db: Db, p: Project, d: DraftState, active: seq<Group>)
    requires At(db, p, d, active, false)
    ensures At(Step(e, db, OpenDraft(p)), p, ClonedMissing(e.vault, d.(groups := []), active, {}), active, true)
  {
    hide RowsFrozen, ClonedMissing, EnsureDraft, ActiveGroups, DraftGroups, FindStatus, History, Lifecycle, CacheOk,
         UniqueNames, SourceGroups;
    var d' := ClonedMissing(e.vault, d.(groups := []), active, {});
    RowsOf(db, p);
    SourceIsActive(db.revisions[p]);
    NoNamesUnique();
    CloneMissingNames(e.vault, d.(groups := []), active, {});
    WithDraftRows(db, p, d');
    SameActive(db.revisions[p], Edited(db, p, d').revisions[p]);
  }

  /** A run, state by state. */
  lemma {:induction false} RunsTo(e: Engine, states: seq<Db>, ops: seq<Op>)
    requires |states| == |ops| + 1 && forall i | 0 <= i < |ops| :: states[i + 1] == Step(e, states[i], ops[i])
    ensures Run(e, states[0], ops) == states[|ops|]
  {
    hide Step;
    if ops != [] {
      RunsTo(e, states[..|ops|], ops[..|ops| - 1]);
    }
  }

  /** An operation on another project leaves a project alone. */
  lemma ElsewhereAt(e: Engine, db: Db, op: Op, p: Project, d: DraftState, active: seq<Group>, open: bool)
    requires At(db, p, d, active, open) && RowsInv(Step(e, db, op))
    requires (op.NewProject? || op.UpsertGroup? || op.ApplyRevision?) && op.project != p
    ensures var db' := Step(e, db, op); At(db', p, DraftState(db'.secrets, db'.nextGroupId, d.groups), active, open)
  {
    hide RowsInv, Upserted, Live, Applied, ActiveGroups, DraftGroups, FindStatus, EnsureDraft, WithDraftGroups,
         NextVersionOf;
  }

  lemma KeysAfter(e: Engine, db: Db, op: Op)
    requires op.NewProject? || op.UpsertGroup? || op.ApplyRevision?
    ensures Step(e, db, op).revisions.Keys == db.revisions.Keys + (if op.NewProject? then {op.project} else {})
    ensures Step(e, db, op).assocs == db.assocs
  {
    hide Upserted, Live, Applied, EnsureDraft, WithDraftGroups, NextVersionOf;
  }

  predicate Edits(ops: seq<Op>) {
    forall op | op in ops :: !op.ProvisionDevice?
  }

  lemma {:induction false} EditsAreTimely(e: Engine, db: Db, ops: seq<Op>)
    requires Edits(ops)
    ensures TimelyRun(e, db, ops)
  {
    hide Step;
    if ops != [] {
      var n := |ops| - 1;
      assert ops[n] in ops && ops == ops[..n] + [ops[n]];
      EditsAreTimely(e, db, ops[..n]);
    }
  }

  /** An upsert of a new group. */
  lemma UpsertsNew(vault: Settings, d: DraftState, dto: UpsertDto)
    requires dto.name !in GroupNames(d.groups)
    ensures var keys := Or(dto.sensitiveKeys, []);
            var (secrets, content) :=
              if dto.tree.Some? then UpsertedContent(vault, d.secrets, d.nextId, map[], keys, dto.tree.value)
              else (d.secrets, map[]);
            Upserted(vault, d, dto) ==
            DraftState(secrets, d.nextId + 1,
                       d.groups + [Group(d.nextId, dto.name, Or(dto.isGlobal, false), keys, content)])
  {
  }

  /** An upsert of the only group. */
  lemma UpsertsOnly(vault: Settings, d: DraftState, dto: UpsertDto)
    requires |d.groups| == 1 && d.groups[0].name == dto.name && dto.isGlobal == None
    ensures var g := d.groups[0];
            var keys := Or(dto.sensitiveKeys, g.sensitiveKeys);
            var (secrets, content) :=
              if dto.tree.Some? then UpsertedContent(vault, d.secrets, g.id, g.content, keys, dto.tree.value)
              else (d.secrets, g.content);
            Upserted(vault, d, dto) == DraftState(secrets, d.nextId, [g.(sensitiveKeys := keys, content := content)])
  {
    hide UpsertedContent;
    assert d.groups[0].name in GroupNames(d.groups);
    var g' := Upserted(vault, d, dto).groups[0];
    assert d.groups[0 := g'] == [g'];
  }

  /** Cloning the only group. */
  lemma ClonesOnly(vault: Settings, d: DraftState, g: Group)
    ensures ClonedMissing(vault, d, [g], {}) == Cloned(vault, d, g)
  {
    assert [g][..0] == [] && ClonedMissing(vault, d, [], {}) == d;
  }

  // ---------------------------------------------------------------------------------------
  // A foreign reference
  // ---------------------------------------------------------------------------------------

  function OneLeaf(v: Value): Fields {
    map["k" := v]
  }

  lemma OneKey(x: Value, y: Value)
    ensures GetByPath(OneLeaf(x), "k") == x && SetByPath(OneLeaf(x), "k", y) == OneLeaf(y)
  {
    assert "k"[1..] == "" && Split("") == [""] && ['k'] + "" == "k";
    assert Split("k") == ["k"];
    var p: Path := ["k"];
    assert p[1..] == [];
    assert Get(Obj(OneLeaf(x)), p) == Get(x, p[1..]) == x;
    assert Set(x, p[1..], y) == y;
    assert Set(Obj(OneLeaf(x)), p, y) == Obj(OneLeaf(x)["k" := y]);
  }

  lemma OneRefResolves(vault: Settings, secrets: Secrets, groupId: nat)
    ensures ResolvedTree(vault, secrets, OneLeaf(Str(RefText(vault.mount, groupId, "k"))), ["k"])
         == OneLeaf(var s := SecretText(secrets, groupId, "k"); if s.Some? then Str(s.value) else Null)
  {
    hide IsVaultRef, RefText, SecretText, Resolved, GetByPath, SetByPath, OneLeaf;
    var ref := Str(RefText(vault.mount, groupId, "k"));
    RefTextIsRef(vault.mount, groupId, "k");
    ResolvedOwnRef(vault, secrets, groupId, "k");
    assert '/' !in "k";
    OneKey(ref, ResolvedValue(vault, secrets, RefText(vault.mount, groupId, "k")));
    ResolvedOne(vault, secrets, OneLeaf(ref), ["k"]);
    assert ["k"][1..] == [];
  }

  lemma OneStored(mount: string, secrets: Secrets, groupId: nat, text: string)
    requires !IsVaultRef(text)
    ensures StoredTree(mount, secrets, groupId, OneLeaf(Str(text)), ["k"])
         == (Stored(secrets, SecretName(groupId, "k"), CONFIG_FIELD, text), OneLeaf(Str(RefText(mount, groupId, "k"))))
  {
    hide IsVaultRef, RefText, SecretName, Stored, GetByPath, SetByPath, OneLeaf;
    OneKey(Str(text), Str(RefText(mount, groupId, "k")));
    assert ["k"][1..] == [];
  }

  /** What the owner and the foreign client send. */
  function OwnerDto(text: string): UpsertDto {
    UpsertDto("a", None, Some(["k"]), Some(OneLeaf(Str(text))))
  }

  function ForeignDto(mount: string): UpsertDto {
    UpsertDto("b", None, Some(["k"]), Some(OneLeaf(Str(RefText(mount, 0, "k")))))
  }

  function ForeignOps(mount: string, text: string): seq<Op> {
    [NewProject(PlainConfig(0)), UpsertGroup(PlainConfig(0), OwnerDto(text)), NewProject(PlainConfig(1)),
     UpsertGroup(PlainConfig(1), ForeignDto(mount)), ApplyRevision(PlainConfig(1), {})]
  }

  lemma OwnerGroup(vault: Settings, text: string)
    requires vault.enabled && !IsVaultRef(text)
    ensures Upserted(vault, DraftState(map[], 0, []), OwnerDto(text))
         == DraftState(map[SecretName(0, "k") := map[CONFIG_FIELD := text]], 1,
                       [Group(0, "a", false, ["k"], OneLeaf(Str(RefText(vault.mount, 0, "k"))))])
  {
    hide RefText, SecretName, StoredTree, IsVaultRef, OneLeaf;
    UpsertsNew(vault, DraftState(map[], 0, []), OwnerDto(text));
    OneStored(vault.mount, map[], 0, text);
  }

  lemma ForeignGroup(vault: Settings, secrets: Secrets)
    requires vault.enabled
    ensures Upserted(vault, DraftState(secrets, 1, []), ForeignDto(vault.mount))
         == DraftState(secrets, 2, [Group(1, "b", false, ["k"], OneLeaf(Str(RefText(vault.mount, 0, "k"))))])
  {
    hide RefText, SecretName, StoredTree, IsVaultRef, GetByPath, OneLeaf;
    var content := OneLeaf(Str(RefText(vault.mount, 0, "k")));
    UpsertsNew(vault, DraftState(secrets, 1, []), ForeignDto(vault.mount));
    RefTextIsRef(vault.mount, 0, "k");
    OneKey(Str(RefText(vault.mount, 0, "k")), Null);
    StoreChangesIff(vault.mount, secrets, 1, content, ["k"]);
  }

  /** The state before the owner's group is deleted. */
  ghost predicate ForeignState(e: Engine, db: Db, text: string) {
    var content := OneLeaf(Str(RefText(e.vault.mount, 0, "k")));
    var secrets: Secrets := map[SecretName(0, "k") := map[CONFIG_FIELD := text]];
    && At(db, PlainConfig(0), DraftState(secrets, 2, [Group(0, "a", false, ["k"], content)]), [], true)
    && At(db, PlainConfig(1), DraftState(secrets, 2, []), [Group(1, "b", false, ["k"], content)], false)
  }

  lemma OwnerReached(e: Engine, text: string)
    requires e.vault.enabled && !IsVaultRef(text)
    ensures var p, q := PlainConfig(0), PlainConfig(1);
            var content, secrets := OneLeaf(Str(RefText(e.vault.mount, 0, "k"))),
              map[SecretName(0, "k") := map[CONFIG_FIELD := text]];
            var db := Step(e, Step(e, Step(e, Fresh([]), NewProject(p)), UpsertGroup(p, OwnerDto(text))),
                           NewProject(q));
            && At(db, p, DraftState(secrets, 1, [Group(0, "a", false, ["k"], content)]), [], true)
            && At(db, q, DraftState(secrets, 1, []), [], false)
  {
    hide RefText, SecretName, IsVaultRef, OwnerDto, Upserted, OneLeaf, Step, RowsInv, DraftGroups, ActiveGroups,
         FindStatus;
    var p, q := PlainConfig(0), PlainConfig(1);
    var content, secrets := OneLeaf(Str(RefText(e.vault.mount, 0, "k"))),
      map[SecretName(0, "k") := map[CONFIG_FIELD := text]];
    var owner := Group(0, "a", false, ["k"], content);
    FreshRows([]);
    NewAt(e, Fresh([]), p);
    KeysAfter(e, Fresh([]), NewProject(p));
    var db1 := Step(e, Fresh([]), NewProject(p));
    UpsertAt(e, db1, p, OwnerDto(text), DraftState(map[], 0, []), [], false);
    OwnerGroup(e.vault, text);
    KeysAfter(e, db1, UpsertGroup(p, OwnerDto(text)));
    var db2 := Step(e, db1, UpsertGroup(p, OwnerDto(text)));
    NewAt(e, db2, q);
    ElsewhereAt(e, db2, NewProject(q), p, DraftState(secrets, 1, [owner]), [], true);
  }

  lemma ForeignReached(e: Engine, text: string)
    requires e.vault.enabled && !IsVaultRef(text)
    ensures ForeignState(e, Run(e, Fresh([]), ForeignOps(e.vault.mount, text)), text)
  {
    hide RefText, SecretName, IsVaultRef, OwnerDto, ForeignDto, Upserted, OneLeaf, Step, RowsInv, DraftGroups,
         ActiveGroups, FindStatus;
    var p, q, ops := PlainConfig(0), PlainConfig(1), ForeignOps(e.vault.mount, text);
    var content, secrets := OneLeaf(Str(RefText(e.vault.mount, 0, "k"))),
      map[SecretName(0, "k") := map[CONFIG_FIELD := text]];
    var owner, foreign := Group(0, "a", false, ["k"], content), Group(1, "b", false, ["k"], content);
    OwnerReached(e, text);
    var db1 := Step(e, Fresh([]), ops[0]);
    var db2 := Step(e, db1, ops[1]);
    var db3 := Step(e, db2, ops[2]);
    UpsertAt(e, db3, q, ForeignDto(e.vault.mount), DraftState(secrets, 1, []), [], false);
    ForeignGroup(e.vault, secrets);
    ElsewhereAt(e, db3, ops[3], p, DraftState(secrets, 1, [owner]), [], true);
    var db4 := Step(e, db3, ops[3]);
    ApplyAt(e, db4, q, {}, DraftState(secrets, 2, [foreign]), []);
    ElsewhereAt(e, db4, ops[4], p, DraftState(secrets, 2, [owner]), [], true);
    RunsTo(e, [Fresh([]), db1, db2, db3, db4, Step(e, db4, ops[4])], ops);
  }

  /** Why references to groups that are neither the edited one nor published are excluded: such a
      reference is stored as it is, and when the group it names is deleted the published content
      that used it is gone. */
  lemma ForeignReferenceBreaks(e: Engine, text: string)
    requires e.vault.enabled && !IsVaultRef(text)
    ensures var ops := ForeignOps(e.vault.mount, text);
            var db, db' := Run(e, Fresh([]), ops), Run(e, Fresh([]), ops + [RemoveGroup(PlainConfig(0), "a")]);
            && TimelyRun(e, Fresh([]), ops + [RemoveGroup(PlainConfig(0), "a")])
            && PlainConfig(1) in db.revisions && PlainConfig(1) in db'.revisions
            && db'.revisions[PlainConfig(1)] == db.revisions[PlainConfig(1)]
              && |ActiveGroups(db.revisions[PlainConfig(1)])| == 1
            && var foreign := ActiveGroups(db.revisions[PlainConfig(1)])[0];
               && ResolvedContent(e.vault, db.secrets, foreign) == map["k" := Str(text)]
               && ResolvedContent(e.vault, db'.secrets, foreign) == map["k" := Null]
  {
    hide RefText, SecretName, IsVaultRef, OwnerDto, ForeignDto, RowsInv, DraftGroups, ActiveGroups, FindStatus, Run,
         EnsureDraft, ResolvedTree, GroupSecretsDropped, WithDraftGroups;
    var ops, op := ForeignOps(e.vault.mount, text), RemoveGroup(PlainConfig(0), "a");
    var content := OneLeaf(Str(RefText(e.vault.mount, 0, "k")));
    var secrets: Secrets := map[SecretName(0, "k") := map[CONFIG_FIELD := text]];
    var owner := Group(0, "a", false, ["k"], content);
    ForeignReached(e, text);
    var db := Run(e, Fresh([]), ops);
    assert (ops + [op])[..5] == ops;
    assert Run(e, Fresh([]), ops + [op]) == Step(e, db, op) by { RunLast(e, Fresh([]), ops, op); }
    EditsAreTimely(e, Fresh([]), ops + [op]);
    DraftOfRows(db, PlainConfig(0));
    assert FindGroup([owner], "a") == 0 by { assert [owner][0].name in GroupNames([owner]); }
    OneDropped(e.vault, text, owner);
    OneRefResolves(e.vault, secrets, 0);
    OneRefResolves(e.vault, map[], 0);
  }

  /** The owner's upsert stores the new text under the name the foreign reference uses. */
  lemma OwnerAgain(vault: Settings, text: string, later: string)
    requires vault.enabled && !IsVaultRef(later) && Str(later) != MASK
    ensures var owner := Group(0, "a", false, ["k"], OneLeaf(Str(RefText(vault.mount, 0, "k"))));
            Upserted(vault, DraftState(map[SecretName(0, "k") := map[CONFIG_FIELD := text]], 2, [owner]),
                     OwnerDto(later)) ==
            DraftState(map[SecretName(0, "k") := map[CONFIG_FIELD := later]], 2, [owner])
  {
    hide RefText, SecretName, IsVaultRef, StoredTree, GetByPath, SetByPath, OneLeaf, Unmasked, Stored;
    var content, name := OneLeaf(Str(RefText(vault.mount, 0, "k"))), SecretName(0, "k");
    var secrets: Secrets := map[name := map[CONFIG_FIELD := text]];
    UpsertsOnly(vault, DraftState(secrets, 2, [Group(0, "a", false, ["k"], content)]), OwnerDto(later));
    OneUnmasked(later, content);
    OneNotEmpty(Str(RefText(vault.mount, 0, "k")));
    OneStored(vault.mount, secrets, 0, later);
    StoredAgain(name, text, later);
  }

  lemma StoredAgain(name: string, text: string, later: string)
    ensures Stored(map[name := map[CONFIG_FIELD := text]], name, CONFIG_FIELD, later)
            == map[name := map[CONFIG_FIELD := later]]
  {
    var m := map[CONFIG_FIELD := text];
    assert m[CONFIG_FIELD := later] == map[CONFIG_FIELD := later];
  }

  lemma OneNotEmpty(v: Value)
    ensures OneLeaf(v) != map[]
  {
    assert "k" in OneLeaf(v);
  }

  lemma OneUnmasked(text: string, existing: Fields)
    requires Str(text) != MASK
    ensures Unmasked(OneLeaf(Str(text)), existing, ["k"]) == OneLeaf(Str(text))
  {
    hide GetByPath, SetByPath, OneLeaf;
    OneKey(Str(text), Null);
    assert ["k"][1..] == [];
  }

  /** An upsert of that group changes the published content likewise. */
  lemma ForeignUpsertChanges(e: Engine, text: string, later: string)
    requires e.vault.enabled && !IsVaultRef(text) && !IsVaultRef(later) && Str(later) != MASK
    ensures var ops, op := ForeignOps(e.vault.mount, text), UpsertGroup(PlainConfig(0), OwnerDto(later));
            var db, db' := Run(e, Fresh([]), ops), Run(e, Fresh([]), ops + [op]);
            && TimelyRun(e, Fresh([]), ops + [op])
            && PlainConfig(1) in db.revisions && PlainConfig(1) in db'.revisions
            && ActiveGroups(db'.revisions[PlainConfig(1)]) == ActiveGroups(db.revisions[PlainConfig(1)])
            && |ActiveGroups(db.revisions[PlainConfig(1)])| == 1
            && var foreign := ActiveGroups(db.revisions[PlainConfig(1)])[0];
               && ResolvedContent(e.vault, db.secrets, foreign) == map["k" := Str(text)]
               && ResolvedContent(e.vault, db'.secrets, foreign) == map["k" := Str(later)]
  {
    hide RefText, SecretName, IsVaultRef, OwnerDto, ForeignDto, RowsInv, DraftGroups, ActiveGroups, FindStatus, Run,
         Step, ResolvedTree, Upserted;
    var ops, op := ForeignOps(e.vault.mount, text), UpsertGroup(PlainConfig(0), OwnerDto(later));
    var content := OneLeaf(Str(RefText(e.vault.mount, 0, "k")));
    var owner, foreign := Group(0, "a", false, ["k"], content), Group(1, "b", false, ["k"], content);
    var secrets: Secrets := map[SecretName(0, "k") := map[CONFIG_FIELD := text]];
    var secrets': Secrets := map[SecretName(0, "k") := map[CONFIG_FIELD := later]];
    var db := Run(e, Fresh([]), ops);
    ForeignReached(e, text);
    RunLast(e, Fresh([]), ops, op);
    EditsAreTimely(e, Fresh([]), ops + [op]);
    UpsertAt(e, db, PlainConfig(0), OwnerDto(later), DraftState(secrets, 2, [owner]), [], true);
    OwnerAgain(e.vault, text, later);
    ElsewhereAt(e, db, op, PlainConfig(1), DraftState(secrets, 2, []), [foreign], false);
    OneRefResolves(e.vault, secrets, 0);
    OneRefResolves(e.vault, secrets', 0);
  }

  lemma RunLast(e: Engine, db: Db, ops: seq<Op>, op: Op)
    ensures Run(e, db, ops + [op]) == Step(e, Run(e, db, ops), op)
  {
    hide Step;
    assert (ops + [op])[..|ops + [op]| - 1] == ops;
  }

  lemma OneDropped(vault: Settings, text: string, owner: Group)
    requires vault.enabled && owner.id == 0 && owner.sensitiveKeys == ["k"]
    requires owner.content == OneLeaf(Str(RefText(vault.mount, 0, "k")))
    ensures GroupSecretsDropped(vault, map[SecretName(0, "k") := map[CONFIG_FIELD := text]], owner) == map[]
  {
    hide RefText, SecretName, IsVaultRef, GetByPath, OneLeaf;
    var name := SecretName(0, "k");
    var secrets: Secrets := map[name := map[CONFIG_FIELD := text]];
    OneKey(Str(RefText(vault.mount, 0, "k")), Null);
    RefTextIsRef(vault.mount, 0, "k");
    assert ["k"][1..] == [];
    assert Deleted(secrets, name, CONFIG_FIELD) == map[] by {
      assert secrets[name] - {CONFIG_FIELD} == map[];
      assert secrets - {name} == map[];
    }
  }

  // ---------------------------------------------------------------------------------------
  // Flags that differ
  // ---------------------------------------------------------------------------------------

  const FOR_ALL := [Assoc(0, None, None, None)]

  function NetDto(v: Value): UpsertDto {
    UpsertDto("net", Some(true), None, Some(OneLeaf(v)))
  }

  function EmptyDto(name: string): UpsertDto {
    UpsertDto(name, None, None, None)
  }

  /** A config map for all devices marks its group global, the device's group of that name is not. */
  function FlagOps(deviceId: string, v: Value): seq<Op> {
    [NewProject(ConfigMap(0)), UpsertGroup(ConfigMap(0), NetDto(v)), ApplyRevision(ConfigMap(0), {}),
     NewProject(DeviceConfig(deviceId)), UpsertGroup(DeviceConfig(deviceId), EmptyDto("net")),
     UpsertGroup(DeviceConfig(deviceId), EmptyDto("app"))]
  }

  function NetGroup(v: Value): Group {
    Group(0, "net", true, [], OneLeaf(v))
  }

  const OWN_GROUPS := [Group(1, "net", false, [], map[]), Group(2, "app", false, [], map[])]

  lemma FlagGroups(vault: Settings, v: Value)
    ensures Upserted(vault, DraftState(map[], 0, []), NetDto(v)) == DraftState(map[], 1, [NetGroup(v)])
    ensures Upserted(vault, DraftState(map[], 1, []), EmptyDto("net")) == DraftState(map[], 2, [OWN_GROUPS[0]])
    ensures Upserted(vault, DraftState(map[], 2, [OWN_GROUPS[0]]), EmptyDto("app")) == DraftState(map[], 3, OWN_GROUPS)
  {
    UpsertsNew(vault, DraftState(map[], 0, []), NetDto(v));
    UpsertsNew(vault, DraftState(map[], 1, []), EmptyDto("net"));
    assert "net"[0] == 'n' && "app"[0] == 'a';
    UpsertsNew(vault, DraftState(map[], 2, [OWN_GROUPS[0]]), EmptyDto("app"));
  }

  lemma FlagsReached(e: Engine, deviceId: string, v: Value)
    ensures var db := Run(e, Fresh(FOR_ALL), FlagOps(deviceId, v));
            && At(db, ConfigMap(0), DraftState(map[], 3, []), [NetGroup(v)], false)
            && At(db, DeviceConfig(deviceId), DraftState(map[], 3, OWN_GROUPS), [], true)
            && db.assocs == FOR_ALL
  {
    hide NetDto, EmptyDto, Upserted, OneLeaf, Step, RowsInv, DraftGroups, ActiveGroups, FindStatus, NetGroup;
    var m, p, ops := ConfigMap(0), DeviceConfig(deviceId), FlagOps(deviceId, v);
    FlagGroups(e.vault, v);
    FreshRows(FOR_ALL);
    var db0 := Fresh(FOR_ALL);
    var db1 := Step(e, db0, ops[0]);
    var db2 := Step(e, db1, ops[1]);
    var db3 := Step(e, db2, ops[2]);
    var db4 := Step(e, db3, ops[3]);
    var db5 := Step(e, db4, ops[4]);
    NewAt(e, db0, m);
    KeysAfter(e, db0, ops[0]);
    UpsertAt(e, db1, m, NetDto(v), DraftState(map[], 0, []), [], false);
    KeysAfter(e, db1, ops[1]);
    ApplyAt(e, db2, m, {}, DraftState(map[], 1, [NetGroup(v)]), []);
    KeysAfter(e, db2, ops[2]);
    NewAt(e, db3, p);
    KeysAfter(e, db3, ops[3]);
    ElsewhereAt(e, db3, ops[3], m, DraftState(map[], 1, []), [NetGroup(v)], false);
    UpsertAt(e, db4, p, EmptyDto("net"), DraftState(map[], 1, []), [], false);
    KeysAfter(e, db4, ops[4]);
    ElsewhereAt(e, db4, ops[4], m, DraftState(map[], 1, []), [NetGroup(v)], false);
    UpsertAt(e, db5, p, EmptyDto("app"), DraftState(map[], 2, [OWN_GROUPS[0]]), [], true);
    KeysAfter(e, db5, ops[5]);
    ElsewhereAt(e, db5, ops[5], m, DraftState(map[], 2, []), [NetGroup(v)], false);
    RunsTo(e, [db0, db1, db2, db3, db4, db5, Step(e, db5, ops[5])], ops);
  }

  /** The config-map groups of the device, and what a refresh makes of its draft. */
  lemma FlagsDraft(e: Engine, db: Db, deviceId: string, v: Value)
    requires At(db, ConfigMap(0), DraftState(map[], 3, []), [NetGroup(v)], false)
    requires At(db, DeviceConfig(deviceId), DraftState(map[], 3, OWN_GROUPS), [], true) && db.assocs == FOR_ALL
    ensures MapGroups(db, deviceId, {}) == [NetGroup(v)]
    ensures RefreshedDraft(e, db, EnsureDraft(db.revisions[DeviceConfig(deviceId)]), deviceId, {})
         == DraftState(map[], 3, [OWN_GROUPS[0].(content := OneLeaf(v)), OWN_GROUPS[1]])
  {
    hide RowsInv, ActiveGroups, DraftGroups, OneLeaf, FindStatus;
    var net, d := NetGroup(v), DraftState(map[], 3, OWN_GROUPS);
    assert FOR_ALL[..0] == [] && MapIds(FOR_ALL, deviceId, {}) == [0];
    assert [0][..0] == [] && GroupsOfMaps(db.revisions, [0]) == [] + [net];
    assert [net][..0] == [] && MergedAll(e.vault, map[], []) == [];
    assert ResolvedContent(e.vault, map[], net) == net.content;
    var merged := [MergedGroup("net", true, [], OneLeaf(v))];
    assert MergedAll(e.vault, map[], [net]) == merged;
    OwnFound();
    var d' := DraftState(map[], 3, [OWN_GROUPS[0].(content := OneLeaf(v)), OWN_GROUPS[1]]);
    assert merged[..0] == [] && PopulatedAll(e, d, []) == d;
    assert PopulatedWith(e, d, merged[0]).groups == d'.groups;
    assert PopulatedAll(e, d, merged) == d';
    assert ClonedMissing(e.vault, d', [], GroupNames(d'.groups)) == d';
  }

  lemma OwnFound()
    ensures FindGroup(OWN_GROUPS, "net") == 0
  {
    assert OWN_GROUPS[0].name in GroupNames(OWN_GROUPS);
    assert "net"[0] == 'n' && "app"[0] == 'a';
  }

  /** A refresh and a publish both reach a state in which the cached live payload is not the one a
      rebuild gives: the key the config map shares globally shows in the other group only live. */
  lemma FlagsMatterInRuns(e: Engine, deviceId: string, v: Value)
    requires v != Null
    ensures var ops, refresh := FlagOps(deviceId, v), RefreshDevice(deviceId, {}, {});
            TimelyRun(e, Fresh(FOR_ALL), ops + [refresh])
              && !LatestCachedAsRebuilt(e, Run(e, Fresh(FOR_ALL), ops + [refresh]), deviceId)
    ensures var ops, apply := FlagOps(deviceId, v), ApplyRevision(DeviceConfig(deviceId), {});
            TimelyRun(e, Fresh(FOR_ALL), ops + [apply])
              && !LatestCachedAsRebuilt(e, Run(e, Fresh(FOR_ALL), ops + [apply]), deviceId)
  {
    hide Run, TimelyRun, RowsInv, ActiveGroups, DraftGroups, FindStatus, LatestCachedAsRebuilt, OverlayIdle,
         EnsureDraft, RefreshedDraft, MapGroups, Refresh, Apply, ResolvedTree;
    var p, ops, refresh, apply := DeviceConfig(deviceId), FlagOps(deviceId, v), RefreshDevice(deviceId, {}, {}),
      ApplyRevision(DeviceConfig(deviceId), {});
    var db := Run(e, Fresh(FOR_ALL), ops);
    FlagsReached(e, deviceId, v);
    FlagsDraft(e, db, deviceId, v);
    EditsAreTimely(e, Fresh(FOR_ALL), ops + [refresh]);
    EditsAreTimely(e, Fresh(FOR_ALL), ops + [apply]);
    RunLast(e, Fresh(FOR_ALL), ops, refresh);
    RunLast(e, Fresh(FOR_ALL), ops, apply);
    RefreshAgreesIff(e, db, deviceId, {}, {});
    ApplyAgreesIff(e, db, deviceId, {});
    NoKeysResolve(e.vault, NetGroup(v));
    NoKeysResolve(e.vault, OWN_GROUPS[1]);
    assert "net"[0] == 'n' && "app"[0] == 'a';
    FlagsMatter(e.vault, map[], NetGroup(v), OWN_GROUPS[0].(content := OneLeaf(v)), OWN_GROUPS[1], "k");
    FlagsMatter(e.vault, map[], NetGroup(v), OWN_GROUPS[0], OWN_GROUPS[1], "k");
  }

  lemma NoKeysResolve(vault: Settings, g: Group)
    requires g.sensitiveKeys == []
    ensures ResolvedContent(vault, map[], g) == g.content
  {
  }
}
