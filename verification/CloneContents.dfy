/** When the groups cloned into a draft resolve like their sources. */
module CloneContents {
  import opened Tree
  import opened Vault
  import opened SecretKeys
  import opened SecretLaws
  import opened SecretOwnership
  import opened ResolvedPaths
  import opened CloneLaws
  import opened ConfigModel
  import opened DraftEdits
  import opened DraftNames
  import opened DraftLaws

  /** Cloning the group loses nothing: Vault is off, or its resolving keys have no '/' and resolve
      alike where they share a secret name. */
  predicate Faithful(vault: Settings, secrets: Secrets, g: Group) {
    vault.enabled ==> Clonable(vault, secrets, g.content, g.sensitiveKeys)
  }

  /** The references at the group's sensitive paths name secrets of the groups `ids` or of no group. */
  ghost predicate OwnedAt(g: Group, mount: string, ids: set<nat>) {
    SensOwned(g.content, g.sensitiveKeys, mount, ids)
  }

  /** A clone has the name, the flag and the sensitive paths of its source. */
  predicate CopyOf(source: Group, clone: Group) {
    clone.name == source.name && clone.isGlobal == source.isGlobal && clone.sensitiveKeys == source.sensitiveKeys
  }

  /** The source groups whose name is not among `present`, in order. */
  function Missing(sources: seq<Group>, present: set<string>): (missing: seq<Group>)
    ensures forall g | g in missing :: g in sources
  {
    if sources == [] then []
    else
      var n := |sources| - 1;
      Missing(sources[..n], present) + (if sources[n].name in present then [] else [sources[n]])
  }

  lemma {:induction false} MissingFromNone(sources: seq<Group>)
    ensures Missing(sources, {}) == sources
  {
    if sources != [] {
      MissingFromNone(sources[..|sources| - 1]);
    }
  }

  /** Cloning adds one copy for each missing group, in their order and under the next ids. */
  lemma {:induction false} ClonesInOrder(vault: Settings, d: DraftState, sources: seq<Group>, present: set<string>)
    ensures var d', missing := ClonedMissing(vault, d, sources, present), Missing(sources, present);
            && d.groups <= d'.groups && |d'.groups| == |d.groups| + |missing| && d'.nextId == d.nextId + |missing|
            && forall j | |d.groups| <= j < |d'.groups| ::
                 d'.groups[j].id == d.nextId + j - |d.groups| && CopyOf(missing[j - |d.groups|], d'.groups[j])
  {
    hide CopyOf, Cloned;
    if sources != [] {
      var n := |sources| - 1;
      ClonesInOrder(vault, d, sources[..n], present);
      var front, d1, d' := Missing(sources[..n], present), ClonedMissing(vault, d, sources[..n], present),
        ClonedMissing(vault, d, sources, present);
      if sources[n].name !in present {
        CloneGrows(vault, d1, sources[n]);
        assert d' == Cloned(vault, d1, sources[n]);
        assert Missing(sources, present) == front + [sources[n]];
        assert forall j | 0 <= j < |d1.groups| :: d'.groups[j] == d1.groups[j];
      } else {
        assert Missing(sources, present) == front + [];
      }
    }
  }

  /** An empty draft gets a copy of every source. */
  lemma CopiesOfAll(vault: Settings, d: DraftState, sources: seq<Group>)
    requires d.groups == [] && UniqueNames(sources)
    ensures var copies := ClonedMissing(vault, d, sources, {}).groups;
            |copies| == |sources| && UniqueNames(copies) && forall i | 0 <= i < |sources| ::
              CopyOf(sources[i], copies[i])
  {
    hide ClonedMissing;
    ClonesInOrder(vault, d, sources, {});
    MissingFromNone(sources);
  }

  /** `clone` in the store `after` resolves like `source` in the store `before`. */
  ghost predicate Alike(vault: Settings, before: Secrets, source: Group, after: Secrets, clone: Group) {
    ResolvedContent(vault, after, clone) == ResolvedContent(vault, before, source)
  }

  /** A clone resolves like its source if the source is faithful, and, where the source resolves
      directly, only then. */
  ghost predicate AlikeIff(vault: Settings, before: Secrets, source: Group, after: Secrets, clone: Group) {
    && (Faithful(vault, before, source) ==> Alike(vault, before, source, after, clone))
    && (DirectGroup(vault, before, source) ==>
        (Alike(vault, before, source, after, clone) <==> Faithful(vault, before, source)))
  }

  lemma CloneAlike(vault: Settings, d: DraftState, source: Group, ids: set<nat>)
    requires OwnedAt(source, vault.mount, ids) && d.nextId !in ids
    ensures var d' := Cloned(vault, d, source);
            var clone := d'.groups[|d.groups|];
            && CopyOf(source, clone)
            && (DirectGroup(vault, d.secrets, source) ==>
                (Alike(vault, d.secrets, source, d'.secrets, clone) <==> Faithful(vault, d.secrets, source)))
            && (Held(d.secrets, vault.mount, ids) ==> AlikeIff(vault, d.secrets, source, d'.secrets, clone))
  {
    hide Clonable, Direct, ClonedTree, ResolvedTree, SensOwned, Held;
    if vault.enabled {
      CloneResolvesAlikeIff(vault, d.secrets, d.nextId, source.content, source.sensitiveKeys, ids);
    }
  }

  // ---------------------------------------------------------------------------------------
  // For all references
  // ---------------------------------------------------------------------------------------

  lemma {:induction false} CloneWritesOwn(cfg: Settings, secrets: Secrets, groupId: nat, t: Fields, keys: seq<string>)
    ensures OnlyWrites(secrets, ClonedTree(cfg, secrets, groupId, t, keys).0, {groupId})
    decreases |keys|
  {
    hide SecretName, Resolved, IsVaultRef, RefText, Stored, Outside;
    if keys != [] {
      var v := GetByPath(t, keys[0]);
      if IsRefValue(v) && Resolved(cfg, secrets, ToText(v)).Some? {
        var name, text := SecretName(groupId, keys[0]), Resolved(cfg, secrets, ToText(v)).value;
        CloneWritesOwn(cfg, Stored(secrets, name, CONFIG_FIELD, text), groupId,
                       SetByPath(t, keys[0], Str(RefText(cfg.mount, groupId, keys[0]))), keys[1..]);
        NameWithin(groupId, keys[0], {groupId});
        forall n | Outside(n, {groupId}) ensures SameSecret(secrets, Stored(secrets, name, CONFIG_FIELD, text), n) {
          StoredOther(secrets, name, CONFIG_FIELD, text, n);
        }
      } else {
        CloneWritesOwn(cfg, secrets, groupId, t, keys[1..]);
      }
    }
  }

  /** Cloning a group leaves every secret alone that is not the clone's. */
  lemma CloneAgrees(vault: Settings, d: DraftState, source: Group, ids: set<nat>)
    requires d.nextId !in ids
    ensures Agree(d.secrets, Cloned(vault, d, source).secrets, ids)
  {
    hide Agree, ClonedTree, OnlyWrites;
    if vault.enabled {
      CloneWritesOwn(vault, d.secrets, d.nextId, source.content, source.sensitiveKeys);
      WritesElsewhere(d.secrets, Cloned(vault, d, source).secrets, {d.nextId}, ids);
    } else {
      AgreeSelf(d.secrets, ids);
    }
  }

  /** The clone refers to its own secrets and to what its source referred to, as directly. */
  lemma CloneOwns(vault: Settings, d: DraftState, source: Group, ids: set<nat>)
    requires OwnedAt(source, vault.mount, ids) && d.nextId !in ids && DirectGroup(vault, d.secrets, source)
    ensures var d' := Cloned(vault, d, source);
            var clone := d'.groups[|d.groups|];
            OwnedAt(clone, vault.mount, ids + {d.nextId}) && DirectGroup(vault, d'.secrets, clone)
  {
    hide Clonable, PlainTexts, Once, ClonedTree, Cloning, OwnedText, IsVaultRef, RefText, Resolved, ToText, SecretText;
    var t, keys, more := source.content, source.sensitiveKeys, ids + {d.nextId};
    if vault.enabled {
      var (s', c) := ClonedTree(vault, d.secrets, d.nextId, t, keys);
      CloneLeaves(vault, d.secrets, d.nextId, t, keys, ids);
      if PlainTexts(vault, d.secrets, t, keys) {
        ClonePlain(vault, d.secrets, s', d.nextId, t, c, keys, ids);
      }
      forall k | k in keys ensures OwnedText(ToText(GetByPath(c, k)), vault.mount, more) {
        CloneReads(vault, d.secrets, s', d.nextId, t, c, keys, ids, k);
        OwnedRef(vault.mount, d.nextId, k, more);
        TextOfStr(RefText(vault.mount, d.nextId, k));
        OwnedTextMore(ToText(GetByPath(t, k)), vault.mount, ids, more);
        if !IsRefValue(GetByPath(c, k)) { PlainIsOwned(GetByPath(c, k), vault.mount, more); }
      }
    } else {
      forall k | k in keys ensures OwnedText(ToText(GetByPath(t, k)), vault.mount, more) {
        OwnedTextMore(ToText(GetByPath(t, k)), vault.mount, ids, more);
      }
    }
  }

  /** Stores that agree on what a group refers to resolve it alike. */
  lemma StaysAlike(vault: Settings, a: Secrets, b: Secrets, g: Group, ids: set<nat>)
    requires OwnedAt(g, vault.mount, ids) && Agree(a, b, ids)
    ensures Faithful(vault, a, g) == Faithful(vault, b, g) && DirectGroup(vault, a, g) == DirectGroup(vault, b, g)
    ensures DirectGroup(vault, a, g) ==> ResolvedContent(vault, a, g) == ResolvedContent(vault, b, g)
  {
    hide IsVaultRef, Resolved, OwnedText, Agree, ResolvedTree, ToText, Once;
    forall k | k in g.sensitiveKeys && IsRefValue(GetByPath(g.content, k))
      ensures var text := ToText(GetByPath(g.content, k)); Resolved(vault, a, text) == Resolved(vault, b, text)
    {
      ResolvedOwned(vault, a, b, ToText(GetByPath(g.content, k)), ids);
    }
    if vault.enabled && DirectGroup(vault, a, g) {
      ResolvedAlikeIff(vault, a, b, g.content, g.sensitiveKeys);
    }
  }

  lemma {:induction false} ClonedMissingAgrees(vault: Settings, d: DraftState, sources: seq<Group>,
                                               present: set<string>, ids: set<nat>)
    requires forall x | x in ids :: x < d.nextId
    ensures var d' := ClonedMissing(vault, d, sources, present);
            d.nextId <= d'.nextId && Agree(d.secrets, d'.secrets, ids)
  {
    hide Within, SameSecret, Cloned;
    if sources == [] {
      AgreeSelf(d.secrets, ids);
    } else {
      var n := |sources| - 1;
      ClonedMissingAgrees(vault, d, sources[..n], present, ids);
      var d1 := ClonedMissing(vault, d, sources[..n], present);
      if sources[n].name !in present {
        CloneAgrees(vault, d1, sources[n], ids);
        CloneGrows(vault, d1, sources[n]);
        AgreeTransitive(d.secrets, d1.secrets, Cloned(vault, d1, sources[n]).secrets, ids);
      }
    }
  }

  lemma AgreeTransitive(a: Secrets, b: Secrets, c: Secrets, ids: set<nat>)
    requires Agree(a, b, ids) && Agree(b, c, ids)
    ensures Agree(a, c, ids)
  {
    hide Within;
    forall n | Within(n, ids) ensures SameSecret(a, c, n) {
      assert SameSecret(a, b, n) && SameSecret(b, c, n);
    }
  }

  /** A clone stays as it is while the next one is made. */
  lemma NextStays(vault: Settings, d: DraftState, source: Group, j: nat, ids: set<nat>)
    requires j < |d.groups| && d.groups[j].id < d.nextId && forall x | x in ids :: x < d.nextId
    requires OwnedAt(d.groups[j], vault.mount, ids + {d.groups[j].id}) && DirectGroup(vault, d.secrets, d.groups[j])
    ensures var g, d' := d.groups[j], Cloned(vault, d, source);
            && d'.groups[j] == g && DirectGroup(vault, d'.secrets, g)
            && ResolvedContent(vault, d'.secrets, g) == ResolvedContent(vault, d.secrets, g)
  {
    hide OwnedAt, ResolvedContent, DirectGroup, Cloned, Agree;
    CloneGrows(vault, d, source);
    CloneAgrees(vault, d, source, ids + {d.groups[j].id});
    StaysAlike(vault, d.secrets, Cloned(vault, d, source).secrets, d.groups[j], ids + {d.groups[j].id});
  }

  /** The draft holds a clone of the source under its name, with its flag and its sensitive paths, which
      resolves directly, and like the source exactly when that is faithful. */
  ghost predicate ClonedAs(vault: Settings, d: DraftState, source: Group, d': DraftState, ids: set<nat>) {
    var j := FindGroup(d'.groups, source.name);
    && j >= 0 && d.nextId <= d'.groups[j].id < d'.nextId && CopyOf(source, d'.groups[j])
    && OwnedAt(d'.groups[j], vault.mount, ids + {d'.groups[j].id})
    && DirectGroup(vault, d'.secrets, d'.groups[j])
    && (Alike(vault, d.secrets, source, d'.secrets, d'.groups[j]) <==> Faithful(vault, d.secrets, source))
  }

  lemma ClonedAsStays(vault: Settings, d: DraftState, source: Group, d1: DraftState, last: Group, ids: set<nat>)
    requires ClonedAs(vault, d, source, d1, ids) && forall x | x in ids :: x < d1.nextId
    requires UniqueNames(Cloned(vault, d1, last).groups)
    ensures ClonedAs(vault, d, source, Cloned(vault, d1, last), ids)
  {
    hide OwnedAt, ResolvedContent, UniqueNames, Faithful, DirectGroup, Cloned, GroupNames;
    var j := FindGroup(d1.groups, source.name);
    NextStays(vault, d1, last, j, ids);
    CloneGrows(vault, d1, last);
    FoundAt(Cloned(vault, d1, last).groups, j);
  }

  lemma ClonedAsLast(vault: Settings, d: DraftState, source: Group, d1: DraftState, ids: set<nat>)
    requires OwnedAt(source, vault.mount, ids) && DirectGroup(vault, d.secrets, source)
    requires (forall x | x in ids :: x < d.nextId) && d.nextId <= d1.nextId && Agree(d.secrets, d1.secrets, ids)
    requires UniqueNames(Cloned(vault, d1, source).groups)
    ensures ClonedAs(vault, d, source, Cloned(vault, d1, source), ids)
  {
    hide OwnedAt, ResolvedContent, UniqueNames, Faithful, DirectGroup, Cloned, Agree, GroupNames;
    StaysAlike(vault, d.secrets, d1.secrets, source, ids);
    CloneAlike(vault, d1, source, ids);
    CloneOwns(vault, d1, source, ids);
    CloneGrows(vault, d1, source);
    FoundAt(Cloned(vault, d1, source).groups, |d1.groups|);
  }

  /** Whatever the sources refer to among ids already given out: every missing group is cloned under
      its name, and where it resolves directly it resolves like its source exactly when that is
      faithful. */
  lemma {:induction false} ClonedMissingDirect(vault: Settings, d: DraftState, sources: seq<Group>,
                                               present: set<string>, ids: set<nat>, i: nat)
    requires UniqueNames(d.groups) && UniqueNames(sources) && GroupNames(d.groups) <= present
    requires forall j | 0 <= j < |sources| :: OwnedAt(sources[j], vault.mount, ids)
    requires forall x | x in ids :: x < d.nextId
    requires i < |sources| && sources[i].name !in present && DirectGroup(vault, d.secrets, sources[i])
    ensures ClonedAs(vault, d, sources[i], ClonedMissing(vault, d, sources, present), ids)
  {
    hide OwnedAt, UniqueNames, GroupNames, DirectGroup, Cloned, Agree, ClonedAs;
    var n := |sources| - 1;
    var front, last, d1 := sources[..n], sources[n], ClonedMissing(vault, d, sources[..n], present);
    FrontUnique(sources);
    CloneMissingNames(vault, d, sources, present);
    ClonedMissingAgrees(vault, d, front, present, ids);
    if i < n {
      assert front[i] == sources[i];
      ClonedMissingDirect(vault, d, front, present, ids, i);
      if last.name !in present {
        ClonedAsStays(vault, d, sources[i], d1, last, ids);
      }
    } else {
      ClonedAsLast(vault, d, last, d1, ids);
    }
  }

  /** Every missing group has a copy under its name, faithful or not. */
  lemma {:induction false} ClonedMissingCopies(vault: Settings, d: DraftState, sources: seq<Group>,
                                               present: set<string>, i: nat)
    requires UniqueNames(d.groups) && UniqueNames(sources) && GroupNames(d.groups) <= present
    requires i < |sources| && sources[i].name !in present
    ensures var groups := ClonedMissing(vault, d, sources, present).groups;
            var j := FindGroup(groups, sources[i].name);
            j >= 0 && CopyOf(sources[i], groups[j])
  {
    hide UniqueNames, GroupNames, Cloned;
    var n := |sources| - 1;
    var front, last, d1 := sources[..n], sources[n], ClonedMissing(vault, d, sources[..n], present);
    var groups := ClonedMissing(vault, d, sources, present).groups;
    FrontUnique(sources);
    CloneMissingNames(vault, d, sources, present);
    CloneGrows(vault, d1, last);
    if i < n {
      ClonedMissingCopies(vault, d, front, present, i);
      var j := FindGroup(d1.groups, sources[i].name);
      FoundAt(groups, j);
    } else {
      FoundAt(groups, |d1.groups|);
    }
  }

  // ---------------------------------------------------------------------------------------
  // For owned references, repeated paths included
  // ---------------------------------------------------------------------------------------

  /** What an owned group resolves to depends on its owners' secrets. */
  lemma SameResolved(vault: Settings, a: Secrets, b: Secrets, g: Group, ids: set<nat>)
    requires Owned(Obj(g.content), vault.mount, ids) && Held(a, vault.mount, ids) && Agree(a, b, ids)
    ensures ResolvedContent(vault, a, g) == ResolvedContent(vault, b, g)
    ensures Faithful(vault, a, g) == Faithful(vault, b, g) && DirectGroup(vault, a, g) == DirectGroup(vault, b, g)
  {
    hide Owned, Held, Agree, ResolvedTree, SensOwned;
    ResolvedTreeFrame(vault, a, b, g.content, g.sensitiveKeys, ids);
    OwnedAtPaths(g.content, g.sensitiveKeys, vault.mount, ids);
    StaysAlike(vault, a, b, g, ids);
  }

  /** A group already cloned keeps its content while the next one is cloned. */
  lemma EarlierStays(vault: Settings, d: DraftState, source: Group, pub: set<nat>, j: nat)
    requires DraftOk(d, vault.mount, pub) && j < |d.groups|
    ensures var d' := Cloned(vault, d, source);
            && d'.groups[j] == d.groups[j]
            && ResolvedContent(vault, d'.secrets, d.groups[j]) == ResolvedContent(vault, d.secrets, d.groups[j])
  {
    hide Owned, ClonedTree, ResolvedContent, UniqueNames, HeldByAll, Agree;
    var g, ids := d.groups[j], pub + {d.groups[j].id};
    assert GroupOk(g, vault.mount, pub, d.nextId);
    HeldOf(d.secrets, vault.mount, pub, ids);
    CloneAgrees(vault, d, source, ids);
    SameResolved(vault, d.secrets, Cloned(vault, d, source).secrets, g, ids);
  }

  /** Every missing group is cloned under its name, and resolves like its source if that is faithful. */
  lemma {:induction false} ClonedMissingAlike(vault: Settings, d: DraftState, sources: seq<Group>,
                                              present: set<string>, pub: set<nat>, i: nat)
    requires DraftOk(d, vault.mount, pub) && UniqueNames(sources) && GroupNames(d.groups) <= present
    requires forall j | 0 <= j < |sources| :: Owned(Obj(sources[j].content), vault.mount, pub)
    requires i < |sources| && sources[i].name !in present
    ensures var d' := ClonedMissing(vault, d, sources, present);
            var j := FindGroup(d'.groups, sources[i].name);
            && j >= 0 && CopyOf(sources[i], d'.groups[j])
            && AlikeIff(vault, d.secrets, sources[i], d'.secrets, d'.groups[j])
  {
    hide DraftOk, DraftFrame, Owned, ResolvedContent, UniqueNames, GroupNames, Faithful, DirectGroup, Cloned, Held,
         SensOwned;
    var n := |sources| - 1;
    var front, last, d1 := sources[..n], sources[n], ClonedMissing(vault, d, sources[..n], present);
    var d' := ClonedMissing(vault, d, sources, present);
    FrontUnique(sources);
    CloneMissingKeeps(vault, d, front, present, pub);
    CloneMissingKeeps(vault, d, sources, present, pub);
    UniqueOfOk(d', vault.mount, pub);
    CloneGrows(vault, d1, last);
    if i < n {
      ClonedMissingAlike(vault, d, front, present, pub, i);
      if last.name !in present {
        var j := FindGroup(d1.groups, sources[i].name);
        EarlierStays(vault, d1, last, pub, j);
        FoundAt(d'.groups, j);
      }
    } else {
      NotPublished(d1, vault.mount, pub);
      OwnedAtPaths(last.content, last.sensitiveKeys, vault.mount, pub);
      SecretsHeld(d1, vault.mount, pub);
      CloneAlike(vault, d1, last, pub);
      FrameAgrees(d, d1, vault.mount, pub);
      SecretsHeld(d, vault.mount, pub);
      SameResolved(vault, d.secrets, d1.secrets, last, pub);
      FoundAt(d'.groups, |d1.groups|);
    }
  }

  lemma NotPublished(d: DraftState, mount: string, pub: set<nat>)
    requires DraftOk(d, mount, pub)
    ensures d.nextId !in pub
  {
    hide Owned, HeldByAll, UniqueNames;
  }

  lemma CloneGrows(vault: Settings, d: DraftState, source: Group)
    ensures var groups := Cloned(vault, d, source).groups;
            && d.groups <= groups && |groups| == |d.groups| + 1 && CopyOf(source, groups[|d.groups|])
            && groups[|d.groups|].id == d.nextId && Cloned(vault, d, source).nextId == d.nextId + 1
  {
  }

  lemma FrontUnique(groups: seq<Group>)
    requires UniqueNames(groups) && groups != []
    ensures UniqueNames(groups[..|groups| - 1])
  {
  }

  lemma SecretsHeld(d: DraftState, mount: string, pub: set<nat>)
    requires DraftOk(d, mount, pub)
    ensures Held(d.secrets, mount, pub)
  {
    hide Owned, HeldByAll;
    HeldOf(d.secrets, mount, pub, pub);
  }

  lemma FoundAt(groups: seq<Group>, j: nat)
    requires UniqueNames(groups) && j < |groups|
    ensures FindGroup(groups, groups[j].name) == j
  {
    assert groups[j].name in GroupNames(groups);
  }
}
