/** A run with plain client values in which cloning the active revision loses a value: two sensitive
    paths share one secret name, and the clone loop stores both texts under it. */
module CloneWitness {
  import opened Options
  import opened Text
  import opened Tree
  import opened Vault
  import opened SecretKeys
  import opened SecretLaws
  import opened SecretOwnership
  import opened ConfigModel
  import opened Revisions
  import opened DraftEdits
  import opened ConfigDb
  import opened ConfigRows
  import opened ConfigRuns
  import opened ConfigWitnesses

  // ---------------------------------------------------------------------------------------
  // A document with two paths of one secret name
  // ---------------------------------------------------------------------------------------

  const DOTTED := "a.b"
  const PLAIN := "a__b"
  const BOTH_KEYS := [DOTTED, PLAIN]

  lemma KeyTails()
    ensures BOTH_KEYS[0] == DOTTED && BOTH_KEYS[1..] == [PLAIN] && [PLAIN][1..] == []
  {
  }

  function Two(u: Value, v: Value): Fields {
    map["a" := Obj(map["b" := u]), PLAIN := v]
  }

  lemma {:induction false} SplitNoDot(s: string)
    requires '.' !in s
    ensures Split(s) == [s]
  {
    if s != [] {
      SplitNoDot(s[1..]);
      assert [s[0]] + s[1..] == s;
    }
  }

  lemma SplitDotted()
    ensures Split(DOTTED) == ["a", "b"] && Split(PLAIN) == [PLAIN]
  {
    SplitNoDot(PLAIN);
    SplitNoDot("b");
    assert ".b"[1..] == "b" && DOTTED[1..] == ".b";
    assert Split(".b") == [""] + ["b"];
    assert ['a'] + "" == "a";
  }

  lemma TwoReads(u: Value, v: Value)
    ensures GetByPath(Two(u, v), DOTTED) == u && GetByPath(Two(u, v), PLAIN) == v
  {
    SplitDotted();
    var t := Obj(Two(u, v));
    assert "a" != PLAIN by { assert |PLAIN| == 4; }
    var p: Path := ["a", "b"];
    assert p[1..] == ["b"] && ["b"][1..] == [] && [PLAIN][1..] == [];
    assert Get(t, p) == Get(t.fields["a"], ["b"]) == Get(u, []) == u;
    assert Get(t, [PLAIN]) == Get(v, []) == v;
  }

  lemma TwoWrites(u: Value, v: Value, x: Value)
    ensures SetByPath(Two(u, v), DOTTED, x) == Two(x, v) && SetByPath(Two(u, v), PLAIN, x) == Two(u, x)
  {
    SplitDotted();
    hide Split;
    WritesDotted(u, v, x);
    WritesPlain(u, v, x);
  }

  lemma WritesDotted(u: Value, v: Value, x: Value)
    ensures Set(Obj(Two(u, v)), ["a", "b"], x) == Obj(Two(x, v))
  {
    var t, p: Path := Obj(Two(u, v)), ["a", "b"];
    assert "a" != PLAIN by { assert |PLAIN| == 4; }
    assert p[1..] == ["b"] && ["b"][1..] == [];
    var inner := Obj(map["b" := u]);
    assert Set(inner, ["b"], x) == Obj(inner.fields["b" := x]) == Obj(map["b" := x]);
    assert Set(t, p, x) == Obj(t.fields["a" := Set(inner, ["b"], x)]);
    assert t.fields["a" := Obj(map["b" := x])] == Two(x, v);
  }

  lemma WritesPlain(u: Value, v: Value, x: Value)
    ensures Set(Obj(Two(u, v)), [PLAIN], x) == Obj(Two(u, x))
  {
    var t := Obj(Two(u, v));
    assert "a" != PLAIN by { assert |PLAIN| == 4; }
    assert [PLAIN][1..] == [];
    assert Set(t, [PLAIN], x) == Obj(t.fields[PLAIN := x]);
    assert t.fields[PLAIN := x] == Two(u, x);
  }

  lemma Replaced()
    ensures ReplaceDots(DOTTED) == PLAIN && ReplaceDots(PLAIN) == PLAIN
  {
    assert DOTTED[1..] == ".b" && ".b"[1..] == "b" && "b"[1..] == "";
    assert ReplaceDots("b") == ['b'] + "";
    assert ReplaceDots(".b") == "__" + "b";
    assert ReplaceDots(DOTTED) == ['a'] + "__b" == PLAIN;
    NoDotReplaced(PLAIN);
  }

  lemma OneName(groupId: nat)
    ensures SecretName(groupId, DOTTED) == SecretName(groupId, PLAIN)
    ensures '/' !in DOTTED && '/' !in PLAIN
  {
    hide ReplaceDots;
    Replaced();
  }

  lemma {:induction false} NoDotReplaced(s: string)
    requires '.' !in s
    ensures ReplaceDots(s) == s
  {
    if s != [] {
      NoDotReplaced(s[1..]);
      assert [s[0]] + s[1..] == s;
    }
  }

  function Ref(mount: string, groupId: nat): Value {
    Str(RefText(mount, groupId, PLAIN))
  }

  lemma RefResolves(vault: Settings, secrets: Secrets, groupId: nat)
    ensures IsRefValue(Ref(vault.mount, groupId))
            && Ref(vault.mount, groupId) == Str(RefText(vault.mount, groupId, DOTTED))
    ensures Resolved(vault, secrets, RefText(vault.mount, groupId, PLAIN)) == SecretText(secrets, groupId, PLAIN)
  {
    hide IsVaultRef, Resolved, SecretText, SecretName;
    OneName(groupId);
    RefTextIsRef(vault.mount, groupId, PLAIN);
    ResolvedOwnRef(vault, secrets, groupId, PLAIN);
  }

  function Name(groupId: nat): string {
    SecretName(groupId, PLAIN)
  }

  function Put(secrets: Secrets, groupId: nat, text: string): Secrets {
    Stored(secrets, Name(groupId), CONFIG_FIELD, text)
  }

  lemma PutReads(secrets: Secrets, groupId: nat, text: string, other: nat)
    ensures SecretText(Put(secrets, groupId, text), other, PLAIN) == if other == groupId then Some(text)
                                                                     else SecretText(secrets, other, PLAIN)
  {
    if Name(other) == Name(groupId) {
      SecretNameInjective(other, groupId, PLAIN, PLAIN);
    }
  }

  // ---------------------------------------------------------------------------------------
  // The loops on it
  // ---------------------------------------------------------------------------------------

  /** Both paths resolve through their references. */
  lemma TwoResolve(vault: Settings, secrets: Secrets, i: nat, j: nat)
    requires SecretText(secrets, i, PLAIN).Some? && SecretText(secrets, j, PLAIN).Some?
    ensures ResolvedTree(vault, secrets, Two(Ref(vault.mount, i), Ref(vault.mount, j)), BOTH_KEYS)
         == Two(Str(SecretText(secrets, i, PLAIN).value), Str(SecretText(secrets, j, PLAIN).value))
  {
    hide IsVaultRef, Resolved, SecretText, RefText, GetByPath, SetByPath, Two;
    var u, v := Ref(vault.mount, i), Ref(vault.mount, j);
    var x, y := Str(SecretText(secrets, i, PLAIN).value), Str(SecretText(secrets, j, PLAIN).value);
    RefResolves(vault, secrets, i);
    RefResolves(vault, secrets, j);
    TwoReads(u, v);
    TwoWrites(u, v, x);
    TwoReads(x, v);
    TwoWrites(x, v, y);
    KeyTails();
    ResolvedOne(vault, secrets, Two(u, v), BOTH_KEYS);
    ResolvedOne(vault, secrets, Two(x, v), [PLAIN]);
  }

  /** The first upsert stores `y` under its path. */
  lemma FirstStored(mount: string, secrets: Secrets, x: string, y: string)
    requires !IsVaultRef(y)
    ensures StoredTree(mount, secrets, 0, Two(Str(x), Str(y)), [PLAIN])
            == (Put(secrets, 0, y), Two(Str(x), Ref(mount, 0)))
  {
    hide IsVaultRef, RefText, SecretName, Stored, GetByPath, SetByPath, Two;
    TwoReads(Str(x), Str(y));
    TwoWrites(Str(x), Str(y), Ref(mount, 0));
    assert [PLAIN][1..] == [];
  }

  /** The later upsert sends the stored view back with one more sensitive path. */
  lemma LaterStored(vault: Settings, secrets: Secrets, x: string)
    requires !IsVaultRef(x) && Str(x) != MASK
    ensures UpsertedContent(vault, secrets, 1, Two(Str(x), Ref(vault.mount, 0)), BOTH_KEYS, Two(Str(x), MASK))
         == if vault.enabled then (Put(secrets, 1, x), Two(Ref(vault.mount, 1), Ref(vault.mount, 0)))
            else (secrets, Two(Str(x), Ref(vault.mount, 0)))
  {
    hide IsVaultRef, Two, Unmasked, StoredTree, Put, RefText, BOTH_KEYS;
    NotEmpty(Str(x), Ref(vault.mount, 0));
    TwoUnmasked(x, Ref(vault.mount, 0));
    TwoStored(vault.mount, secrets, x);
  }

  lemma TwoUnmasked(x: string, r: Value)
    requires Str(x) != MASK && r != Null
    ensures Unmasked(Two(Str(x), MASK), Two(Str(x), r), BOTH_KEYS) == Two(Str(x), r)
  {
    hide GetByPath, SetByPath, DeleteByPath, Two;
    TwoReads(Str(x), MASK);
    TwoReads(Str(x), r);
    TwoWrites(Str(x), MASK, r);
    KeyTails();
    assert Unmasked(Two(Str(x), r), Two(Str(x), r), []) == Two(Str(x), r);
    assert Unmasked(Two(Str(x), MASK), Two(Str(x), r), [PLAIN]) == Two(Str(x), r);
  }

  lemma TwoStored(mount: string, secrets: Secrets, x: string)
    requires !IsVaultRef(x)
    ensures StoredTree(mount, secrets, 1, Two(Str(x), Ref(mount, 0)), BOTH_KEYS)
            == (Put(secrets, 1, x), Two(Ref(mount, 1), Ref(mount, 0)))
  {
    hide IsVaultRef, RefText, Stored, GetByPath, SetByPath, Two, SecretName, StoredTree;
    var r0, r1 := Ref(mount, 0), Ref(mount, 1);
    var t := Two(Str(x), r0);
    RefResolves(Settings(true, mount), secrets, 0);
    RefResolves(Settings(true, mount), secrets, 1);
    OneName(1);
    TwoReads(Str(x), r0);
    TwoWrites(Str(x), r0, r1);
    TwoReads(r1, r0);
    StoreTurn(mount, secrets, 1, t, BOTH_KEYS);
    StoreTurn(mount, Put(secrets, 1, x), 1, Two(r1, r0), [PLAIN]);
    StoreEnd(mount, Put(secrets, 1, x), 1, Two(r1, r0));
    KeyTails();
  }

  lemma StoreTurn(mount: string, secrets: Secrets, groupId: nat, t: Fields, keys: seq<string>)
    requires keys != []
    ensures var v := GetByPath(t, keys[0]);
            StoredTree(mount, secrets, groupId, t, keys) ==
            if v != Null && !IsRefValue(v)
            then StoredTree(mount, Stored(secrets, SecretName(groupId, keys[0]), CONFIG_FIELD, ToText(v)), groupId,
                            SetByPath(t, keys[0], Str(RefText(mount, groupId, keys[0]))), keys[1..])
            else StoredTree(mount, secrets, groupId, t, keys[1..])
  {
  }

  lemma StoreEnd(mount: string, secrets: Secrets, groupId: nat, t: Fields)
    ensures StoredTree(mount, secrets, groupId, t, []) == (secrets, t)
  {
  }

  lemma NotEmpty(u: Value, v: Value)
    ensures Two(u, v) != map[]
  {
    assert "a" in Two(u, v);
  }

  /** The clone loop stores both texts under one name. */
  lemma TwoCloned(vault: Settings, secrets: Secrets, x: string, y: string)
    requires SecretText(secrets, 1, PLAIN) == Some(x) && SecretText(secrets, 0, PLAIN) == Some(y)
    ensures ClonedTree(vault, secrets, 2, Two(Ref(vault.mount, 1), Ref(vault.mount, 0)), BOTH_KEYS)
         == (Put(Put(secrets, 2, x), 2, y), Two(Ref(vault.mount, 2), Ref(vault.mount, 2)))
  {
    hide IsVaultRef, Resolved, SecretText, RefText, Stored, GetByPath, SetByPath, Two, SecretName;
    var r0, r1, r2 := Ref(vault.mount, 0), Ref(vault.mount, 1), Ref(vault.mount, 2);
    RefResolves(vault, secrets, 1);
    RefResolves(vault, Put(secrets, 2, x), 0);
    RefResolves(vault, secrets, 2);
    PutReads(secrets, 2, x, 0);
    OneName(2);
    TwoReads(r1, r0);
    TwoWrites(r1, r0, r2);
    TwoReads(r2, r0);
    TwoWrites(r2, r0, r2);
    KeyTails();
    assert ClonedTree(vault, secrets, 2, Two(r1, r0), BOTH_KEYS)
           == ClonedTree(vault, Put(secrets, 2, x), 2, Two(r2, r0), [PLAIN]);
  }

  // ---------------------------------------------------------------------------------------
  // The run
  // ---------------------------------------------------------------------------------------

  /** Store `y`; forget that its path is sensitive; publish; open a draft, which keeps the old
      reference; make both paths sensitive, sending the view back; publish. */
  function LossOps(x: string, y: string): seq<Op> {
    var p := PlainConfig(0);
    [NewProject(p), UpsertGroup(p, FirstDto(x, y)), UpsertGroup(p, ForgetDto()), ApplyRevision(p, {}), OpenDraft(p),
     UpsertGroup(p, LaterDto(x)), ApplyRevision(p, {})]
  }

  function FirstDto(x: string, y: string): UpsertDto {
    UpsertDto("g", None, Some([PLAIN]), Some(Two(Str(x), Str(y))))
  }

  function ForgetDto(): UpsertDto {
    UpsertDto("g", None, Some([]), None)
  }

  function LaterDto(x: string): UpsertDto {
    UpsertDto("g", None, Some(BOTH_KEYS), Some(Two(Str(x), MASK)))
  }

  function PublishedGroup(mount: string): Group {
    Group(1, "g", false, BOTH_KEYS, Two(Ref(mount, 1), Ref(mount, 0)))
  }

  lemma LossEdits(vault: Settings, x: string, y: string)
    requires vault.enabled && !IsVaultRef(x) && !IsVaultRef(y) && Str(x) != MASK
    ensures var s, c := Put(map[], 0, y), Two(Str(x), Ref(vault.mount, 0));
            && Upserted(vault, DraftState(map[], 0, []), FirstDto(x, y))
              == DraftState(s, 1, [Group(0, "g", false, [PLAIN], c)])
            && Upserted(vault, DraftState(s, 1, [Group(0, "g", false, [PLAIN], c)]), ForgetDto())
            == DraftState(s, 1, [Group(0, "g", false, [], c)])
            && ClonedMissing(vault, DraftState(s, 1, []), [Group(0, "g", false, [], c)], {})
              == DraftState(s, 2, [Group(1, "g", false, [], c)])
            && Upserted(vault, DraftState(s, 2, [Group(1, "g", false, [], c)]), LaterDto(x))
            == DraftState(Put(s, 1, x), 2, [PublishedGroup(vault.mount)])
  {
    hide IsVaultRef, Two, Stored, Put, StoredTree, RefText, BOTH_KEYS;
    var s, c := Put(map[], 0, y), Two(Str(x), Ref(vault.mount, 0));
    UpsertsNew(vault, DraftState(map[], 0, []), FirstDto(x, y));
    FirstStored(vault.mount, map[], x, y);
    UpsertsOnly(vault, DraftState(s, 1, [Group(0, "g", false, [PLAIN], c)]), ForgetDto());
    ClonesOnly(vault, DraftState(s, 1, []), Group(0, "g", false, [], c));
    UpsertsOnly(vault, DraftState(s, 2, [Group(1, "g", false, [], c)]), LaterDto(x));
    LaterStored(vault, s, x);
  }

  lemma LossReached(e: Engine, x: string, y: string)
    requires e.vault.enabled && !IsVaultRef(x) && !IsVaultRef(y) && Str(x) != MASK
    ensures At(Run(e, Fresh([]), LossOps(x, y)), PlainConfig(0), DraftState(Put(Put(map[], 0, y), 1, x), 2, []),
               [PublishedGroup(e.vault.mount)], false)
  {
    hide IsVaultRef, Two, Stored, Put, Step, RefText, FirstDto, ForgetDto, LaterDto, Upserted, ClonedMissing,
         PublishedGroup, RowsInv, DraftGroups, ActiveGroups, FindStatus;
    var p, ops, c := PlainConfig(0), LossOps(x, y), Two(Str(x), Ref(e.vault.mount, 0));
    var s := Put(map[], 0, y);
    LossEdits(e.vault, x, y);
    FreshRows([]);
    var db0 := Fresh([]);
    var db1 := Step(e, db0, ops[0]);
    var db2 := Step(e, db1, ops[1]);
    var db3 := Step(e, db2, ops[2]);
    var db4 := Step(e, db3, ops[3]);
    var db5 := Step(e, db4, ops[4]);
    var db6 := Step(e, db5, ops[5]);
    NewAt(e, db0, p);
    UpsertAt(e, db1, p, FirstDto(x, y), DraftState(map[], 0, []), [], false);
    UpsertAt(e, db2, p, ForgetDto(), DraftState(s, 1, [Group(0, "g", false, [PLAIN], c)]), [], true);
    ApplyAt(e, db3, p, {}, DraftState(s, 1, [Group(0, "g", false, [], c)]), []);
    OpenAt(e, db4, p, DraftState(s, 1, []), [Group(0, "g", false, [], c)]);
    UpsertAt(e, db5, p, LaterDto(x), DraftState(s, 2, [Group(1, "g", false, [], c)]), [Group(0, "g", false, [], c)],
             true);
    ApplyAt(e, db6, p, {}, DraftState(Put(s, 1, x), 2, [PublishedGroup(e.vault.mount)]), [Group(0, "g", false, [], c)]);
    RunsTo(e, [db0, db1, db2, db3, db4, db5, db6, Step(e, db6, ops[6])], ops);
  }

  /** Operations with trees that hold no reference at all are valid at any time. */
  lemma {:induction false} PlainIsValid(e: Engine, db: Db, ops: seq<Op>)
    requires Edits(ops)
    requires forall op | op in ops ::
               op.UpsertGroup? && op.dto.tree.Some? ==> Owned(Obj(op.dto.tree.value), e.vault.mount, {})
    ensures ValidRun(e, db, ops)
  {
    hide Owned, Step, PublishedIds, EnsureDraft;
    if ops != [] {
      var n := |ops| - 1;
      var op, db' := ops[n], Run(e, db, ops[..n]);
      assert op in ops && ops == ops[..n] + [op];
      PlainIsValid(e, db, ops[..n]);
      if op.UpsertGroup? && op.dto.tree.Some? {
        OwnedMore(Obj(op.dto.tree.value), e.vault.mount, {},
                  PublishedIds(db'.revisions) + {EditedId(DraftAt(db', op.project), op.dto.name)});
      }
    }
  }

  lemma TwoOwned(mount: string, u: Value, v: Value)
    requires u.Str? && v.Str? && !IsVaultRef(u.s) && !IsVaultRef(v.s)
    ensures Owned(Obj(Two(u, v)), mount, {})
  {
    assert Owned(Obj(map["b" := u]), mount, {});
  }

  lemma LossIsValid(e: Engine, x: string, y: string)
    requires !IsVaultRef(x) && !IsVaultRef(y)
    ensures ValidRun(e, Fresh([]), LossOps(x, y) + [OpenDraft(PlainConfig(0))])
  {
    hide IsVaultRef, Two, Owned, Run, ValidRun, BOTH_KEYS;
    MaskIsNoRef();
    TwoOwned(e.vault.mount, Str(x), Str(y));
    TwoOwned(e.vault.mount, Str(x), MASK);
    PlainIsValid(e, Fresh([]), LossOps(x, y) + [OpenDraft(PlainConfig(0))]);
  }

  lemma MaskIsNoRef()
    ensures !IsVaultRef("***")
  {
    assert PREFIX[0] == 'v' && "***"[0] == '*';
  }

  /** Two sensitive values `x` and `y` that were published as such both read `y` in the draft opened
      next, although the client sent plain values, or the mask of a stored one, only. */
  lemma CloneLosesInRun(e: Engine, x: string, y: string)
    requires e.vault.enabled && !IsVaultRef(x) && !IsVaultRef(y) && Str(x) != MASK
    ensures var ops, p := LossOps(x, y), PlainConfig(0);
            var db, db' := Run(e, Fresh([]), ops), Run(e, Fresh([]), ops + [OpenDraft(p)]);
            && ValidRun(e, Fresh([]), ops + [OpenDraft(p)]) && p in db.revisions && p in db'.revisions
            && |ActiveGroups(db.revisions[p])| == 1 && |DraftGroups(db'.revisions[p])| == 1
            && ResolvedContent(e.vault, db.secrets, ActiveGroups(db.revisions[p])[0]) == Two(Str(x), Str(y))
            && ResolvedContent(e.vault, db'.secrets, DraftGroups(db'.revisions[p])[0]) == Two(Str(y), Str(y))
  {
    hide IsVaultRef, Two, Stored, SecretText, Put, Step, RefText, ClonedTree, ResolvedTree, RowsInv, DraftGroups,
         ActiveGroups, FindStatus, Run, ValidRun, BOTH_KEYS;
    var ops, p, m := LossOps(x, y), PlainConfig(0), e.vault.mount;
    var db := Run(e, Fresh([]), ops);
    var s0 := Put(map[], 0, y);
    var s := Put(s0, 1, x);
    LossReached(e, x, y);
    RunLast(e, Fresh([]), ops, OpenDraft(p));
    LossIsValid(e, x, y);
    OpenAt(e, db, p, DraftState(s, 2, []), [PublishedGroup(m)]);
    ClonesOnly(e.vault, DraftState(s, 2, []), PublishedGroup(m));
    PutReads(map[], 0, y, 0);
    PutReads(s0, 1, x, 0);
    PutReads(s0, 1, x, 1);
    TwoCloned(e.vault, s, x, y);
    PutReads(Put(s, 2, x), 2, y, 2);
    TwoResolve(e.vault, s, 1, 0);
    TwoResolve(e.vault, Put(Put(s, 2, x), 2, y), 2, 2);
  }
}
