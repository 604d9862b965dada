/** What every draft edit keeps: unique names, fresh ids, ownership of references, and all
    secrets of other groups. */
module DraftLaws {
  import opened Options
  import opened Tree
  import opened Vault
  import opened SecretKeys
  import opened SecretLaws
  import opened SecretOwnership
  import opened ResolvedPaths
  import opened ConfigModel
  import opened DraftEdits
  import opened DraftNames

  /** A reference held in a secret is owned by the published groups and the group of the secret. */
  ghost predicate HeldByAll(secrets: Secrets, mount: string, pub: set<nat>) {
    forall ids | pub <= ids :: Held(secrets, mount, ids)
  }

  ghost predicate GroupOk(g: Group, mount: string, pub: set<nat>, nextId: nat) {
    g.id < nextId && g.id !in pub && Owned(Obj(g.content), mount, pub + {g.id})
  }

  /** Invariant of a draft; `pub` are the ids of all published groups. */
  ghost predicate DraftOk(d: DraftState, mount: string, pub: set<nat>) {
    && UniqueNames(d.groups)
    && (forall i | 0 <= i < |d.groups| :: GroupOk(d.groups[i], mount, pub, d.nextId))
    && HeldByAll(d.secrets, mount, pub)
    && (forall x | x in pub :: x < d.nextId)
  }

  /** The secret belongs to no group, or to one that has its id already and is none of `ids`. */
  ghost predicate Apart(name: string, ids: set<nat>, nextId: nat) {
    forall h: nat, k :: name == SecretName(h, k) ==> h !in ids && h < nextId
  }

  /** An edit brings fresh ids only and leaves the secrets of every other group, and of no group, alone. */
  ghost predicate DraftFrame(d: DraftState, d': DraftState) {
    && d.nextId <= d'.nextId
    && (forall x | x in GroupIds(d'.groups) :: x in GroupIds(d.groups) || d.nextId <= x < d'.nextId)
    && (forall n | Apart(n, GroupIds(d.groups), d.nextId) :: SameSecret(d.secrets, d'.secrets, n))
  }

  lemma FrameTransitive(a: DraftState, b: DraftState, c: DraftState)
    requires DraftFrame(a, b) && DraftFrame(b, c)
    ensures DraftFrame(a, c)
  {
    hide SecretName;
    forall n | Apart(n, GroupIds(a.groups), a.nextId) ensures SameSecret(a.secrets, c.secrets, n) {
      assert Apart(n, GroupIds(b.groups), b.nextId);
      assert SameSecret(a.secrets, b.secrets, n) && SameSecret(b.secrets, c.secrets, n);
    }
  }

  /** An edit leaves the secrets of published groups alone. */
  lemma FrameAgrees(d: DraftState, d': DraftState, mount: string, pub: set<nat>)
    requires DraftOk(d, mount, pub) && DraftFrame(d, d')
    ensures Agree(d.secrets, d'.secrets, pub)
  {
    hide Owned, UniqueNames, HeldByAll, SecretName, SameSecret;
    forall x | x in GroupIds(d.groups) ensures x !in pub {
      var i :| 0 <= i < |d.groups| && d.groups[i].id == x;
      assert GroupOk(d.groups[i], mount, pub, d.nextId);
    }
    forall n | Within(n, pub) ensures SameSecret(d.secrets, d'.secrets, n) {
      assert Apart(n, GroupIds(d.groups), d.nextId);
    }
  }

  lemma UniqueOfOk(d: DraftState, mount: string, pub: set<nat>)
    requires DraftOk(d, mount, pub)
    ensures UniqueNames(d.groups)
  {
    hide Owned, UniqueNames, HeldByAll;
  }

  lemma HeldOf(secrets: Secrets, mount: string, pub: set<nat>, ids: set<nat>)
    requires HeldByAll(secrets, mount, pub) && pub <= ids
    ensures Held(secrets, mount, ids)
  {
    hide Held;
  }

  /** Writing one group's secrets keeps `HeldByAll`. */
  lemma HeldAfter(a: Secrets, b: Secrets, mount: string, pub: set<nat>, id: nat)
    requires HeldByAll(a, mount, pub) && OnlyWrites(a, b, {id}) && Held(b, mount, pub + {id})
    ensures HeldByAll(b, mount, pub)
  {
    hide SecretName, OwnedText;
    forall ids, n, f | pub <= ids && Within(n, ids) && FieldOf(b, n, f).Some?
      ensures OwnedText(FieldOf(b, n, f).value, mount, ids)
    {
      if Outside(n, {id}) {
        assert SameSecret(a, b, n);
        assert Held(a, mount, ids) && FieldOf(a, n, f) == FieldOf(b, n, f);
      } else {
        var h, k :| n == SecretName(h, k) && h in {id};
        NameWithin(id, k, ids);
        NameWithin(id, k, pub + {id});
        OwnedTextMore(FieldOf(b, n, f).value, mount, pub + {id}, ids);
      }
    }
  }

  /** Replacing the groups by a list that differs in one group, appended or in place. */
  lemma OneGroupChanged(d: DraftState, d': DraftState, i: nat, mount: string, pub: set<nat>)
    requires DraftOk(d, mount, pub) && i < |d'.groups| && d.nextId <= d'.nextId
    requires OnlyWrites(d.secrets, d'.secrets, {d'.groups[i].id}) && Held(d'.secrets, mount, pub + {d'.groups[i].id})
    requires Owned(Obj(d'.groups[i].content), mount, pub + {d'.groups[i].id})
    requires i < |d.groups| ==>
               && d'.groups == d.groups[i := d'.groups[i]]
               && d'.groups[i].id == d.groups[i].id && d'.groups[i].name == d.groups[i].name
    requires i >= |d.groups| ==>
               && d'.groups == d.groups + [d'.groups[i]]
               && d'.groups[i].id == d.nextId && d.nextId < d'.nextId && d'.groups[i].name !in GroupNames(d.groups)
    ensures DraftOk(d', mount, pub) && DraftFrame(d, d')
  {
    hide SecretName, Owned, HeldByAll, Held, SameSecret;
    HeldAfter(d.secrets, d'.secrets, mount, pub, d'.groups[i].id);
    forall j | 0 <= j < |d'.groups| ensures GroupOk(d'.groups[j], mount, pub, d'.nextId) {
      assert j != i ==> d'.groups[j] == d.groups[j];
      assert i < |d.groups| ==> GroupOk(d.groups[i], mount, pub, d.nextId);
    }
    assert UniqueNames(d'.groups) by {
      if i < |d.groups| { NameKept(d.groups, i, d'.groups[i]); } else { NameAdded(d.groups, d'.groups[i]); }
    }
    forall x | x in GroupIds(d'.groups) ensures x in GroupIds(d.groups) || d.nextId <= x < d'.nextId {
      var j :| 0 <= j < |d'.groups| && d'.groups[j].id == x;
      assert j < |d.groups| ==> d.groups[j].id == x;
    }
    assert i < |d.groups| ==> d.groups[i].id in GroupIds(d.groups);
  }

  /** Upserting keeps the draft invariant when the client's tree refers, if at all, to secrets of the
      group itself or of published groups. */
  lemma UpsertKeeps(vault: Settings, d: DraftState, dto: UpsertDto, pub: set<nat>)
    requires DraftOk(d, vault.mount, pub)
    requires dto.tree.Some? ==> Owned(Obj(dto.tree.value), vault.mount, pub + {EditedId(d, dto.name)})
    ensures DraftOk(Upserted(vault, d, dto), vault.mount, pub) && DraftFrame(d, Upserted(vault, d, dto))
  {
    hide IsVaultRef, RefText, SecretName, Owned, StoredTree, Unmasked;
    var i := FindGroup(d.groups, dto.name);
    var was := if i >= 0 then d.groups[i] else Group(d.nextId, dto.name, false, [], map[]);
    var ids := pub + {was.id};
    var keys := Or(dto.sensitiveKeys, was.sensitiveKeys);
    assert i >= 0 ==> GroupOk(d.groups[i], vault.mount, pub, d.nextId);
    EmptyOwned(vault.mount, ids);
    HeldOf(d.secrets, vault.mount, pub, ids);
    if dto.tree.Some? {
      UnmaskedOwned(dto.tree.value, was.content, keys, vault.mount, ids);
      var parsed := if was.content != map[] then Unmasked(dto.tree.value, was.content, keys) else dto.tree.value;
      StoredTreeEffect(vault.mount, d.secrets, was.id, parsed, keys, ids);
    }
    OneGroupChanged(d, Upserted(vault, d, dto), if i >= 0 then i else |d.groups|, vault.mount, pub);
  }

  /** The view a client gets of a group, sent back unchanged. */
  function ViewDto(g: Group): UpsertDto {
    UpsertDto(g.name, None, None, Some(Masked(g.content, g.sensitiveKeys)))
  }

  /** Reading a group's masked view and sending it back changes nothing at all, groups and Vault
      alike, exactly when Vault is off or every present sensitive value is a reference already. */
  lemma ViewSentBack(vault: Settings, d: DraftState, i: nat)
    requires i < |d.groups| && UniqueNames(d.groups)
    ensures Upserted(vault, d, ViewDto(d.groups[i])) == d
       <==> (vault.enabled ==> AllStored(d.groups[i].content, d.groups[i].sensitiveKeys))
  {
    hide Unmasked, Masked, StoredTree, IsVaultRef, AllStored;
    var g := d.groups[i];
    assert FindGroup(d.groups, g.name) == i by { assert g.name in GroupNames(d.groups); }
    MaskedRoundTrip(g.content, g.sensitiveKeys);
    if g.content == map[] {
      MaskedNothing(g.sensitiveKeys);
    }
    StoreChangesIff(vault.mount, d.secrets, g.id, g.content, g.sensitiveKeys);
    var d' := Upserted(vault, d, ViewDto(g));
    assert d'.groups[i].content == g.content ==> d'.groups == d.groups;
    assert d'.groups == d.groups ==> d'.groups[i] == d.groups[i];
  }

  lemma {:induction false} MaskedNothing(keys: seq<string>)
    ensures Masked(map[], keys) == map[]
    decreases |keys|
  {
    if keys != [] {
      assert GetByPath(map[], keys[0]) == Null;
      MaskedNothing(keys[1..]);
    }
  }

  /** Resolving the group meets no resolved text again as a reference. */
  ghost predicate DirectGroup(vault: Settings, secrets: Secrets, g: Group) {
    vault.enabled ==> Direct(vault, secrets, g.content, g.sensitiveKeys)
  }

  lemma EmptyOwned(mount: string, ids: set<nat>)
    ensures Owned(Obj(map[]), mount, ids)
  {
  }

  lemma GroupSecretsDroppedEffect(vault: Settings, secrets: Secrets, g: Group, ids: set<nat>)
    requires Held(secrets, vault.mount, ids)
    ensures Held(GroupSecretsDropped(vault, secrets, g), vault.mount, ids)
    ensures OnlyWrites(secrets, GroupSecretsDropped(vault, secrets, g), {g.id})
  {
    hide IsVaultRef, RefText, SecretName;
    DroppedSecretsEffect(secrets, g.id, g.content, g.sensitiveKeys, vault.mount, ids);
  }

  lemma {:induction false} DropAllKeeps(vault: Settings, secrets: Secrets, groups: seq<Group>, pub: set<nat>)
    requires HeldByAll(secrets, vault.mount, pub)
    ensures var s' := AllSecretsDropped(vault, secrets, groups);
            HeldByAll(s', vault.mount, pub) && OnlyWrites(secrets, s', GroupIds(groups))
    decreases |groups|
  {
    hide IsVaultRef, RefText, SecretName, Owned, GroupSecretsDropped;
    if groups != [] {
      var g, rest := groups[0], groups[1..];
      var s1 := GroupSecretsDropped(vault, secrets, g);
      HeldOf(secrets, vault.mount, pub, pub + {g.id});
      GroupSecretsDroppedEffect(vault, secrets, g, pub + {g.id});
      HeldAfter(secrets, s1, vault.mount, pub, g.id);
      DropAllKeeps(vault, s1, rest, pub);
      assert groups == [g] + rest;
      assert forall i | 0 <= i < |rest| :: groups[i + 1] == rest[i];
      var s2 := AllSecretsDropped(vault, secrets, groups);
      assert groups[0].id in GroupIds(groups) && GroupIds(rest) <= GroupIds(groups);
      forall n | Outside(n, GroupIds(groups)) ensures SameSecret(secrets, s2, n) {
        assert Outside(n, {g.id}) && Outside(n, GroupIds(rest));
        assert SameSecret(secrets, s1, n) && SameSecret(s1, s2, n);
      }
    }
  }

  lemma RemoveKeeps(vault: Settings, d: DraftState, i: nat, pub: set<nat>)
    requires DraftOk(d, vault.mount, pub) && i < |d.groups|
    ensures DraftOk(Removed(vault, d, i), vault.mount, pub) && DraftFrame(d, Removed(vault, d, i))
  {
    hide IsVaultRef, RefText, SecretName, Owned, GroupSecretsDropped;
    var g, d' := d.groups[i], Removed(vault, d, i);
    HeldOf(d.secrets, vault.mount, pub, pub + {g.id});
    GroupSecretsDroppedEffect(vault, d.secrets, g, pub + {g.id});
    HeldAfter(d.secrets, d'.secrets, vault.mount, pub, g.id);
    assert forall j | 0 <= j < |d'.groups| :: d'.groups[j] == d.groups[if j < i then j else j + 1];
    assert g.id in GroupIds(d.groups);
  }

  lemma CloneKeeps(vault: Settings, d: DraftState, source: Group, pub: set<nat>)
    requires DraftOk(d, vault.mount, pub) && Owned(Obj(source.content), vault.mount, pub)
             && source.name !in GroupNames(d.groups)
    ensures DraftOk(Cloned(vault, d, source), vault.mount, pub) && DraftFrame(d, Cloned(vault, d, source))
  {
    hide IsVaultRef, RefText, SecretName, Owned, ClonedTree;
    var ids := pub + {d.nextId};
    OwnedMore(Obj(source.content), vault.mount, pub, ids);
    HeldOf(d.secrets, vault.mount, pub, ids);
    ClonedTreeEffect(vault, d.secrets, d.nextId, source.content, source.sensitiveKeys, ids);
    var d' := Cloned(vault, d, source);
    OneGroupChanged(d, d', |d.groups|, vault.mount, pub);
  }

  lemma FrameSelf(d: DraftState)
    ensures DraftFrame(d, d)
  {
    hide SecretName;
  }

  /** So does cloning the missing groups. */
  lemma {:induction false} CloneMissingKeeps(vault: Settings, d: DraftState, sources: seq<Group>, present: set<string>,
                                             pub: set<nat>)
    requires DraftOk(d, vault.mount, pub) && UniqueNames(sources) && GroupNames(d.groups) <= present
    requires forall i | 0 <= i < |sources| :: Owned(Obj(sources[i].content), vault.mount, pub)
    ensures var d' := ClonedMissing(vault, d, sources, present);
            DraftOk(d', vault.mount, pub) && DraftFrame(d, d')
  {
    hide IsVaultRef, RefText, SecretName, Owned, Cloned, GroupNames, HeldByAll, GroupOk;
    if sources == [] {
      FrameSelf(d);
    } else {
      var n := |sources| - 1;
      var front, last := sources[..n], sources[n];
      CloneMissingKeeps(vault, d, front, present, pub);
      var d1 := ClonedMissing(vault, d, front, present);
      CloneMissingNames(vault, d, front, present);
      assert sources == front + [last];
      if last.name !in present {
        LastIsNew(front, last);
        CloneKeeps(vault, d1, last, pub);
        FrameTransitive(d, d1, Cloned(vault, d1, last));
      }
    }
  }

  lemma DefaultsKeep(d: DraftState, mount: string, pub: set<nat>)
    requires DraftOk(d, mount, pub)
    ensures DraftOk(WithDefaults(d), mount, pub) && DraftFrame(d, WithDefaults(d))
  {
    hide IsVaultRef, RefText, SecretName, Owned;
    EmptyOwned(mount, pub + {d.nextId});
    EmptyOwned(mount, pub + {d.nextId + 1});
    assert ENROLLMENT[7] == 'e' && DEFAULT_CONFIG[7] == 'c';
  }

  // ---------------------------------------------------------------------------------------
  // Populating from config maps
  // ---------------------------------------------------------------------------------------

  lemma ResolvedContentOwned(vault: Settings, secrets: Secrets, g: Group, ids: set<nat>)
    requires Owned(Obj(g.content), vault.mount, ids) && Held(secrets, vault.mount, ids)
    ensures Owned(Obj(ResolvedContent(vault, secrets, g)), vault.mount, ids)
    ensures ResolvedContent(vault, secrets, g).Keys == g.content.Keys
  {
    hide IsVaultRef, RefText, SecretName, Owned, ResolvedTree;
    ResolvedTreeFrame(vault, secrets, secrets, g.content, g.sensitiveKeys, ids);
    ResolvedTreeKeys(vault, secrets, g.content, g.sensitiveKeys);
  }

  ghost predicate MergedOwned(merged: seq<MergedGroup>, mount: string, pub: set<nat>) {
    forall i | 0 <= i < |merged| :: Owned(Obj(merged[i].data), mount, pub)
  }

  /** What published groups are merged into is owned by published groups. */
  lemma {:induction false} MergedAllOwned(vault: Settings, secrets: Secrets, groups: seq<Group>, pub: set<nat>)
    requires Held(secrets, vault.mount, pub) && forall i | 0 <= i < |groups| ::
             Owned(Obj(groups[i].content), vault.mount, pub)
    ensures MergedOwned(MergedAll(vault, secrets, groups), vault.mount, pub)
  {
    hide Owned, ResolvedContent, Held;
    if groups != [] {
      var n := |groups| - 1;
      var merged, g := MergedAll(vault, secrets, groups[..n]), groups[n];
      MergedAllOwned(vault, secrets, groups[..n], pub);
      ResolvedContentOwned(vault, secrets, g, pub);
      var i := FindMerged(merged, g.name);
      if i >= 0 {
        OwnedMerge(merged[i].data, ResolvedContent(vault, secrets, g), vault.mount, pub);
      }
    }
  }

  lemma PopulateWithKeeps(e: Engine, d: DraftState, m: MergedGroup, pub: set<nat>)
    requires PrintsObjects(e.objJson)
    requires DraftOk(d, e.vault.mount, pub) && Owned(Obj(m.data), e.vault.mount, pub)
    ensures DraftOk(PopulatedWith(e, d, m), e.vault.mount, pub) && DraftFrame(d, PopulatedWith(e, d, m))
  {
    hide IsVaultRef, RefText, SecretName, Owned, CopiedTree, GroupSecretsDropped;
    var i := FindGroup(d.groups, m.name);
    var at := if i >= 0 then i else |d.groups|;
    var id := if i >= 0 then d.groups[i].id else d.nextId;
    var ids := pub + {id};
    var dropped := if i >= 0 then GroupSecretsDropped(e.vault, d.secrets, d.groups[i]) else d.secrets;
    HeldOf(d.secrets, e.vault.mount, pub, ids);
    if i >= 0 {
      GroupSecretsDroppedEffect(e.vault, d.secrets, d.groups[i], ids);
    }
    OwnedMore(Obj(m.data), e.vault.mount, pub, ids);
    CopiedTreeEffect(e.vault.mount, e.objJson, dropped, id, m.data, m.keys, ids);
    var d' := PopulatedWith(e, d, m);
    forall n | Outside(n, {id}) ensures SameSecret(d.secrets, d'.secrets, n) {
      assert SameSecret(d.secrets, dropped, n);
    }
    OneGroupChanged(d, d', at, e.vault.mount, pub);
  }

  /** Populating keeps the draft invariant. */
  lemma {:induction false} PopulateAllKeeps(e: Engine, d: DraftState, merged: seq<MergedGroup>, pub: set<nat>)
    requires PrintsObjects(e.objJson) && DraftOk(d, e.vault.mount, pub) && MergedOwned(merged, e.vault.mount, pub)
    ensures DraftOk(PopulatedAll(e, d, merged), e.vault.mount, pub) && DraftFrame(d, PopulatedAll(e, d, merged))
  {
    hide Owned, PopulatedWith, DraftFrame, DraftOk, PrintsObjects;
    if merged == [] {
      FrameSelf(d);
    } else {
      var n := |merged| - 1;
      PopulateAllKeeps(e, d, merged[..n], pub);
      var d1 := PopulatedAll(e, d, merged[..n]);
      PopulateWithKeeps(e, d1, merged[n], pub);
      FrameTransitive(d, d1, PopulatedWith(e, d1, merged[n]));
    }
  }
}
