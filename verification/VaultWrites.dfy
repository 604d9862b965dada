/** What an operation writes to Vault, told from the state before it, and which groups that changes. */
module VaultWrites {
  import opened Options
  import opened Tree
  import opened Vault
  import opened SecretKeys
  import opened ResolvedPaths
  import opened SecretOwnership
  import opened ConfigModel
  import opened DraftEdits
  import opened DropLaws

  /** The last thing an operation does to one secret: nothing, remove its text, or store one. */
  datatype Write = Same | Gone | Put(text: string)

  type Writes = string -> Write

  function Then(first: Write, later: Write): Write {
    if later == Same then first else later
  }

  function Read(before: Option<string>, w: Write): Option<string> {
    match w
    case Same => before
    case Gone => None
    case Put(text) => Some(text)
  }

  /** The store `b` is `a` after these writes. */
  ghost predicate Does(a: Secrets, b: Secrets, w: Writes) {
    forall n, f ::
      FieldOf(b, n, f) == if f == CONFIG_FIELD then Read(FieldOf(a, n, f), w(n)) else FieldOf(a, n, f)
  }

  ghost predicate PlainWrites(w: Writes) {
    forall n :: w(n).Put? ==> !IsVaultRef(w(n).text)
  }

  /** Only secrets of the groups `ids` are written. */
  ghost predicate WritesFor(w: Writes, ids: set<nat>) {
    forall n :: w(n) != Same ==> !Outside(n, ids)
  }

  const NOTHING: Writes := n => Same

  lemma DoesNothing(s: Secrets)
    ensures Does(s, s, NOTHING)
  {
  }

  function Chain(first: Writes, later: Writes): Writes {
    n => Then(first(n), later(n))
  }

  lemma DoesBoth(a: Secrets, b: Secrets, c: Secrets, first: Writes, later: Writes)
    requires Does(a, b, first) && Does(b, c, later)
    ensures Does(a, c, Chain(first, later))
  {
    hide FieldOf;
  }

  // ---------------------------------------------------------------------------------------
  // Which groups the writes change
  // ---------------------------------------------------------------------------------------

  /** The value is a reference to a secret that reads differently after the writes. */
  predicate DisturbsPath(vault: Settings, secrets: Secrets, w: Writes, v: Value) {
    && IsRefValue(v)
    && var ref := ParseVaultRef(ToText(v));
       && ref.mount == vault.mount && ref.field == CONFIG_FIELD
       && var before := FieldOf(secrets, ref.secretId, CONFIG_FIELD);
          Read(before, w(ref.secretId)) != before
  }

  /** Some sensitive path of the group holds such a reference. */
  predicate Disturbs(vault: Settings, secrets: Secrets, w: Writes, g: Group) {
    vault.enabled && exists k :: k in g.sensitiveKeys && DisturbsPath(vault, secrets, w, GetByPath(g.content, k))
  }

  /** The writes change the resolved content of a group exactly when they disturb it. */
  lemma WritesKeepIff(vault: Settings, a: Secrets, b: Secrets, w: Writes, g: Group)
    requires Does(a, b, w)
    requires vault.enabled ==>
               || Once(g.sensitiveKeys)
               || (PlainTexts(vault, a, g.content, g.sensitiveKeys) && PlainWrites(w))
    ensures ResolvedContent(vault, b, g) == ResolvedContent(vault, a, g) <==> !Disturbs(vault, a, w, g)
    ensures vault.enabled ==> Once(g.sensitiveKeys) || PlainTexts(vault, b, g.content, g.sensitiveKeys)
  {
    hide IsVaultRef, Resolved, ToText, ResolvedTree, GetByPath, ParseVaultRef, FieldOf, PlainTexts, Once;
    if vault.enabled && !Once(g.sensitiveKeys) {
      StaysPlain(vault, a, b, w, g);
    }
    ContentKeptIff(vault, a, b, g);
    forall v ensures NamesChanged(vault, a, b, v) <==> DisturbsPath(vault, a, w, v) {
      if IsRefValue(v) {
        var ref := ParseVaultRef(ToText(v));
        assert FieldOf(b, ref.secretId, ref.field) == if ref.field == CONFIG_FIELD
                                                      then Read(FieldOf(a, ref.secretId, ref.field), w(ref.secretId))
                                                      else FieldOf(a, ref.secretId, ref.field);
      }
    }
  }

  /** A group the writes do not disturb reads what it read. */
  lemma UndisturbedReads(vault: Settings, a: Secrets, b: Secrets, w: Writes, g: Group, k: string)
    requires Does(a, b, w) && vault.enabled && !Disturbs(vault, a, w, g)
    requires k in g.sensitiveKeys && IsRefValue(GetByPath(g.content, k))
    ensures var text := ToText(GetByPath(g.content, k)); Resolved(vault, b, text) == Resolved(vault, a, text)
  {
    hide IsVaultRef, Resolved, ToText, GetByPath, ParseVaultRef, FieldOf;
    var text := ToText(GetByPath(g.content, k));
    var ref := ParseVaultRef(text);
    ResolvedField(vault, a, text);
    ResolvedField(vault, b, text);
    assert FieldOf(b, ref.secretId, ref.field) == if ref.field == CONFIG_FIELD
                                                  then Read(FieldOf(a, ref.secretId, ref.field), w(ref.secretId))
                                                  else FieldOf(a, ref.secretId, ref.field);
  }

  lemma StaysPlain(vault: Settings, a: Secrets, b: Secrets, w: Writes, g: Group)
    requires Does(a, b, w) && PlainTexts(vault, a, g.content, g.sensitiveKeys) && PlainWrites(w)
    ensures PlainTexts(vault, b, g.content, g.sensitiveKeys)
  {
    hide IsVaultRef, Resolved, ToText, GetByPath, ParseVaultRef, FieldOf;
    forall k | k in g.sensitiveKeys && IsRefValue(GetByPath(g.content, k))
      ensures !IsRefValue(ResolvedValue(vault, b, ToText(GetByPath(g.content, k))))
    {
      var text := ToText(GetByPath(g.content, k));
      var ref := ParseVaultRef(text);
      ResolvedField(vault, a, text);
      ResolvedField(vault, b, text);
      assert FieldOf(b, ref.secretId, ref.field) == if ref.field == CONFIG_FIELD
                                                    then Read(FieldOf(a, ref.secretId, ref.field), w(ref.secretId))
                                                    else FieldOf(a, ref.secretId, ref.field);
      PlainOrNull(vault, b, text);
      PlainOrNull(vault, a, text);
    }
  }

  lemma PlainOrNull(cfg: Settings, secrets: Secrets, text: string)
    ensures IsRefValue(ResolvedValue(cfg, secrets, text)) <==>
            Resolved(cfg, secrets, text).Some? && IsVaultRef(Resolved(cfg, secrets, text).value)
  {
    hide IsVaultRef, Resolved;
  }

  // ---------------------------------------------------------------------------------------
  // The loops
  // ---------------------------------------------------------------------------------------

  /** What the store loop of an upsert stores last under a name; Vault is never read. */
  function StoreWrite(mount: string, groupId: nat, t: Fields, keys: seq<string>, n: string): Write
    decreases |keys|
  {
    if keys == [] then Same
    else
      var v := GetByPath(t, keys[0]);
      if v != Null && !IsRefValue(v) then
        Then(if SecretName(groupId, keys[0]) == n then Put(ToText(v)) else Same,
             StoreWrite(mount, groupId, SetByPath(t, keys[0], Str(RefText(mount, groupId, keys[0]))), keys[1..], n))
      else StoreWrite(mount, groupId, t, keys[1..], n)
  }

  lemma {:induction false} StoreWriteIs(mount: string, groupId: nat, t: Fields, keys: seq<string>, n: string)
    ensures var w := StoreWrite(mount, groupId, t, keys, n);
            (w.Put? ==> !IsVaultRef(w.text)) && (w != Same ==> !Outside(n, {groupId}))
    decreases |keys|
  {
    hide SecretName, RefText, IsVaultRef, GetByPath, SetByPath, ToText, Outside;
    if keys != [] {
      var v := GetByPath(t, keys[0]);
      if v != Null && !IsRefValue(v) {
        StoreWriteIs(mount, groupId, SetByPath(t, keys[0], Str(RefText(mount, groupId, keys[0]))), keys[1..], n);
        NameWithin(groupId, keys[0], {groupId});
      } else {
        StoreWriteIs(mount, groupId, t, keys[1..], n);
      }
    }
  }

  lemma {:induction false} StoreDoes(mount: string, secrets: Secrets, groupId: nat, t: Fields, keys: seq<string>)
    ensures Does(secrets, StoredTree(mount, secrets, groupId, t, keys).0, n => StoreWrite(mount, groupId, t, keys, n))
    decreases |keys|
  {
    hide SecretName, RefText, IsVaultRef, Stored, FieldOf, GetByPath, SetByPath, ToText;
    if keys != [] {
      var name, v := SecretName(groupId, keys[0]), GetByPath(t, keys[0]);
      if v != Null && !IsRefValue(v) {
        var t' := SetByPath(t, keys[0], Str(RefText(mount, groupId, keys[0])));
        StoreDoes(mount, Stored(secrets, name, CONFIG_FIELD, ToText(v)), groupId, t', keys[1..]);
        forall n, f
          ensures FieldOf(Stored(secrets, name, CONFIG_FIELD, ToText(v)), n, f)
               == if n == name && f == CONFIG_FIELD then Some(ToText(v)) else FieldOf(secrets, n, f)
        {
          StoredField(secrets, name, CONFIG_FIELD, ToText(v), n, f);
        }
      } else {
        StoreDoes(mount, secrets, groupId, t, keys[1..]);
      }
    }
  }

  /** The same for the loop that stores merged config-map values. */
  function CopyWrite(mount: string, objJson: Fields -> string, groupId: nat, t: Fields, keys: seq<string>,
                     n: string): Write
    decreases |keys|
  {
    if keys == [] then Same
    else
      var v := GetByPath(t, keys[0]);
      if v != Null then
        Then(if SecretName(groupId, keys[0]) == n then Put(PlainText(objJson, v)) else Same,
             CopyWrite(mount, objJson, groupId, SetByPath(t, keys[0], Str(RefText(mount, groupId, keys[0]))),
                       keys[1..], n))
      else CopyWrite(mount, objJson, groupId, t, keys[1..], n)
  }

  lemma {:induction false} CopyDoes(mount: string, objJson: Fields -> string, secrets: Secrets, groupId: nat, t: Fields,
                                    keys: seq<string>)
    ensures var w: Writes := n => CopyWrite(mount, objJson, groupId, t, keys, n);
            Does(secrets, CopiedTree(mount, objJson, secrets, groupId, t, keys).0, w) && WritesFor(w, {groupId})
    decreases |keys|
  {
    hide SecretName, RefText, IsVaultRef, Stored, FieldOf, GetByPath, SetByPath, PlainText, Outside;
    if keys != [] {
      var name, v := SecretName(groupId, keys[0]), GetByPath(t, keys[0]);
      if v != Null {
        var t' := SetByPath(t, keys[0], Str(RefText(mount, groupId, keys[0])));
        CopyDoes(mount, objJson, Stored(secrets, name, CONFIG_FIELD, PlainText(objJson, v)), groupId, t', keys[1..]);
        forall n, f ensures FieldOf(Stored(secrets, name, CONFIG_FIELD, PlainText(objJson, v)), n, f)
                         == if n == name && f == CONFIG_FIELD then Some(PlainText(objJson, v))
                           else FieldOf(secrets, n, f)
        {
          StoredField(secrets, name, CONFIG_FIELD, PlainText(objJson, v), n, f);
        }
        NameWithin(groupId, keys[0], {groupId});
      } else {
        CopyDoes(mount, objJson, secrets, groupId, t, keys[1..]);
      }
    }
  }

  /** What deleting a group's secrets does. */
  function DropWrites(vault: Settings, g: Group): Writes {
    n => if vault.enabled && DropsName(g.id, g.content, g.sensitiveKeys, n) then Gone else Same
  }

  lemma DropDoes(vault: Settings, secrets: Secrets, g: Group)
    ensures Does(secrets, GroupSecretsDropped(vault, secrets, g), DropWrites(vault, g))
    ensures WritesFor(DropWrites(vault, g), {g.id})
  {
    hide DroppedSecrets, SecretName, Outside, FieldOf, IsRefValue;
    forall n, f
      ensures FieldOf(DroppedSecrets(secrets, g.id, g.content, g.sensitiveKeys), n, f)
           == if f == CONFIG_FIELD && DropsName(g.id, g.content, g.sensitiveKeys, n) then None
             else FieldOf(secrets, n, f)
    {
      DroppedField(secrets, g.id, g.content, g.sensitiveKeys, n, f);
    }
    forall n | DropsName(g.id, g.content, g.sensitiveKeys, n) ensures !Outside(n, {g.id}) {
      var j :| j in g.sensitiveKeys && IsRefValue(GetByPath(g.content, j)) && n == SecretName(g.id, j);
      NameWithin(g.id, j, {g.id});
    }
  }

  // ---------------------------------------------------------------------------------------
  // The edits
  // ---------------------------------------------------------------------------------------

  /** What an upsert writes, from the draft and what the client sends. */
  function UpsertWrites(vault: Settings, d: DraftState, dto: UpsertDto): Writes {
    var i := FindGroup(d.groups, dto.name);
    var was := if i >= 0 then d.groups[i] else Group(d.nextId, dto.name, false, [], map[]);
    var keys := Or(dto.sensitiveKeys, was.sensitiveKeys);
    if dto.tree.None? || !vault.enabled then NOTHING
    else
      var parsed := if was.content != map[] then Unmasked(dto.tree.value, was.content, keys) else dto.tree.value;
      n => StoreWrite(vault.mount, was.id, parsed, keys, n)
  }

  lemma UpsertDoes(vault: Settings, d: DraftState, dto: UpsertDto)
    ensures Does(d.secrets, Upserted(vault, d, dto).secrets, UpsertWrites(vault, d, dto))
    ensures PlainWrites(UpsertWrites(vault, d, dto)) && WritesFor(UpsertWrites(vault, d, dto), {EditedId(d, dto.name)})
  {
    hide FieldOf, StoredTree, StoreWrite, Outside, Unmasked, IsVaultRef;
    DoesNothing(d.secrets);
    var i := FindGroup(d.groups, dto.name);
    var was := if i >= 0 then d.groups[i] else Group(d.nextId, dto.name, false, [], map[]);
    var keys := Or(dto.sensitiveKeys, was.sensitiveKeys);
    if dto.tree.Some? {
      var parsed := if was.content != map[] then Unmasked(dto.tree.value, was.content, keys) else dto.tree.value;
      StoreDoes(vault.mount, d.secrets, was.id, parsed, keys);
      forall n
        ensures var w := StoreWrite(vault.mount, was.id, parsed, keys, n);
                (w.Put? ==> !IsVaultRef(w.text)) && (w != Same ==> !Outside(n, {was.id}))
      {
        StoreWriteIs(vault.mount, was.id, parsed, keys, n);
      }
    }
  }

  /** What writing one merged group does: the secrets of the group of its name go, its own come. */
  function MergedWrites(e: Engine, groups: seq<Group>, nextId: nat, m: MergedGroup): Writes {
    var i := FindGroup(groups, m.name);
    var id := if i >= 0 then groups[i].id else nextId;
    if !e.vault.enabled then NOTHING
    else
      Chain(if i >= 0 then DropWrites(e.vault, groups[i]) else NOTHING,
            n => CopyWrite(e.vault.mount, e.objJson, id, m.data, m.keys, n))
  }

  lemma MergedDoes(e: Engine, d: DraftState, m: MergedGroup)
    ensures Does(d.secrets, PopulatedWith(e, d, m).secrets, MergedWrites(e, d.groups, d.nextId, m))
    ensures WritesFor(MergedWrites(e, d.groups, d.nextId, m), {EditedId(d, m.name)})
  {
    hide FieldOf, CopiedTree, CopyWrite, Outside, GroupSecretsDropped, DropWrites, Does;
    var i := FindGroup(d.groups, m.name);
    var id := EditedId(d, m.name);
    var dropped := if i >= 0 then GroupSecretsDropped(e.vault, d.secrets, d.groups[i]) else d.secrets;
    var drop := if i >= 0 then DropWrites(e.vault, d.groups[i]) else NOTHING;
    var copy: Writes := n => CopyWrite(e.vault.mount, e.objJson, id, m.data, m.keys, n);
    DoesNothing(d.secrets);
    if e.vault.enabled {
      if i >= 0 { DropDoes(e.vault, d.secrets, d.groups[i]); }
      CopyDoes(e.vault.mount, e.objJson, dropped, id, m.data, m.keys);
      DoesBoth(d.secrets, dropped, PopulatedWith(e, d, m).secrets, drop, copy);
    } else if i >= 0 {
      NothingDropped(e.vault, d.secrets, d.groups[i]);
    }
  }

  lemma NothingDropped(vault: Settings, secrets: Secrets, g: Group)
    requires !vault.enabled
    ensures GroupSecretsDropped(vault, secrets, g) == secrets
  {
  }

  /** What populating does, merged group by merged group. */
  function PopulateWrites(e: Engine, d: DraftState, merged: seq<MergedGroup>): Writes {
    if merged == [] then NOTHING
    else
      var n := |merged| - 1;
      var d1 := PopulatedAll(e, d, merged[..n]);
      Chain(PopulateWrites(e, d, merged[..n]), MergedWrites(e, d1.groups, d1.nextId, merged[n]))
  }

  /** The ids of a draft's groups are given out already, each to one of them. */
  ghost predicate IdsGiven(groups: seq<Group>, nextId: nat) {
    && (forall i | 0 <= i < |groups| :: groups[i].id < nextId)
    && (forall i, j | 0 <= i < j < |groups| :: groups[i].id != groups[j].id)
  }

  /** The secret belongs to no group or to one whose id is given out. */
  ghost predicate GivenName(name: string, nextId: nat) {
    forall h: nat, k :: name == SecretName(h, k) ==> h < nextId
  }

  ghost predicate WritesBelow(w: Writes, nextId: nat) {
    forall n :: w(n) != Same ==> GivenName(n, nextId)
  }

  lemma {:induction false} PopulateDoes(e: Engine, d: DraftState, merged: seq<MergedGroup>)
    requires IdsGiven(d.groups, d.nextId)
    ensures var d' := PopulatedAll(e, d, merged);
            && Does(d.secrets, d'.secrets, PopulateWrites(e, d, merged))
            && d.nextId <= d'.nextId && IdsGiven(d'.groups, d'.nextId)
            && WritesBelow(PopulateWrites(e, d, merged), d'.nextId)
  {
    hide Does, PopulatedWith, MergedWrites, GivenName;
    if merged == [] {
      DoesNothing(d.secrets);
    } else {
      var n := |merged| - 1;
      var d1, m := PopulatedAll(e, d, merged[..n]), merged[n];
      PopulateDoes(e, d, merged[..n]);
      MergedDoes(e, d1, m);
      MergedIds(e, d1, m);
      DoesBoth(d.secrets, d1.secrets, PopulatedWith(e, d1, m).secrets, PopulateWrites(e, d, merged[..n]),
               MergedWrites(e, d1.groups, d1.nextId, m));
      forall name | GivenName(name, d1.nextId) ensures GivenName(name, PopulatedWith(e, d1, m).nextId) {
        GivenMore(name, d1.nextId, PopulatedWith(e, d1, m).nextId);
      }
    }
  }

  lemma GivenMore(n: string, nextId: nat, later: nat)
    requires GivenName(n, nextId) && nextId <= later
    ensures GivenName(n, later)
  {
    hide SecretName;
  }

  lemma MergedIds(e: Engine, d: DraftState, m: MergedGroup)
    requires IdsGiven(d.groups, d.nextId)
    ensures var d' := PopulatedWith(e, d, m);
            && d.nextId <= d'.nextId && IdsGiven(d'.groups, d'.nextId)
            && WritesBelow(MergedWrites(e, d.groups, d.nextId, m), d'.nextId)
  {
    hide CopiedTree, GroupSecretsDropped, DropsName, CopyWrite, SecretName, FieldOf;
    MergedDoes(e, d, m);
    var d', i := PopulatedWith(e, d, m), FindGroup(d.groups, m.name);
    forall n | MergedWrites(e, d.groups, d.nextId, m)(n) != Same ensures GivenName(n, d'.nextId) {
      MergedNameGiven(e, d, m, n);
    }
  }

  lemma MergedNameGiven(e: Engine, d: DraftState, m: MergedGroup, n: string)
    requires IdsGiven(d.groups, d.nextId) && MergedWrites(e, d.groups, d.nextId, m)(n) != Same
    ensures GivenName(n, PopulatedWith(e, d, m).nextId)
  {
    hide CopiedTree, GroupSecretsDropped, SecretName, Does, MergedWrites, Outside;
    MergedDoes(e, d, m);
    OwnNameGiven(n, EditedId(d, m.name), PopulatedWith(e, d, m).nextId);
  }

  lemma OwnNameGiven(n: string, id: nat, nextId: nat)
    requires !Outside(n, {id}) && id < nextId
    ensures GivenName(n, nextId)
  {
    hide SecretName;
    var h, k :| n == SecretName(h, k) && h in {id};
    forall j: nat, l | n == SecretName(j, l) ensures j < nextId {
      NameWithin(id, k, {id});
      NameWithin(j, l, {id});
    }
  }
}
