/** What provisioning and refreshing a device publish of the config maps that apply to it. */
module PublishedMaps {
  import opened Options
  import opened Tree
  import opened Vault
  import opened SecretKeys
  import opened SecretLaws
  import opened SecretOwnership
  import opened ResolvedPaths
  import opened ConfigModel
  import opened Revisions
  import opened DraftEdits
  import opened DraftNames
  import opened PopulateLaws
  import opened DraftLaws
  import opened CloneContents
  import opened Payload
  import opened VaultWrites
  import opened CloneWrites
  import opened KeyPaths
  import opened MergeLaws
  import opened ConfigDb
  import opened ConfigRows
  import opened UpsertLaws
  import opened ConfigIds
  import opened ContentKept
  import opened RowTheorems

  /** What the group holds and shows at a sensitive path, for the merged value there: the path's own
      reference, which readers see as the value's text unless the path has a '/'. */
  ghost predicate HoldsKey(e: Engine, secrets: Secrets, g: Group, data: Fields, key: string) {
    var v, shown := GetByPath(data, key), GetByPath(ResolvedContent(e.vault, secrets, g), key);
    && GetByPath(g.content, key) == (if v == Null then Null else Str(RefText(e.vault.mount, g.id, key)))
    && (v == Null ==> shown == Null)
    && (v != Null && Sole(g.sensitiveKeys, key) ==> shown == if '/' in key then Null else Str(PlainText(e.objJson, v)))
  }

  /** The group holds the merged document `data`: as it is at paths unrelated to the sensitive ones, in
      Vault at the others. If all of those are plain strings, readers get the document back exactly
      when no present path contains '/' and paths of one secret name hold the same value. */
  ghost predicate Holds(e: Engine, secrets: Secrets, g: Group, data: Fields) {
    && Once(g.sensitiveKeys)
    && (!e.vault.enabled ==> g.content == data)
    && (forall p | Unrelated(g.sensitiveKeys, p) ::
          Get(Obj(g.content), p) == Get(Obj(data), p) == Get(Obj(ResolvedContent(e.vault, secrets, g)), p))
    && (e.vault.enabled ==>
          forall k | k in g.sensitiveKeys && Clear(g.sensitiveKeys, k) :: HoldsKey(e, secrets, g, data, k))
    && (e.vault.enabled && PlainSecrets(data, g.sensitiveKeys) ==>
          (ResolvedContent(e.vault, secrets, g) == data <==>
           NoSlashInPresentKeys(data, g.sensitiveKeys) && CollidingKeysAgree(data, g.sensitiveKeys)))
  }

  /** Every sensitive path of the group holds nothing or its own reference. */
  ghost predicate OwnOnly(vault: Settings, g: Group) {
    vault.enabled ==>
      Once(g.sensitiveKeys) && forall k | k in g.sensitiveKeys ::
        NullOrOwn(vault.mount, g.id, k, GetByPath(g.content, k))
  }

  lemma HoldsStays(e: Engine, a: Secrets, b: Secrets, g: Group, data: Fields)
    requires Holds(e, a, g, data) && ResolvedContent(e.vault, b, g) == ResolvedContent(e.vault, a, g)
    ensures Holds(e, b, g, data)
  {
    hide Get, GetByPath, Clear, Unrelated, ResolvedContent, PlainSecrets, NoSlashInPresentKeys, CollidingKeysAgree;
  }

  // ---------------------------------------------------------------------------------------
  // One merged group
  // ---------------------------------------------------------------------------------------

  /** The document and the store after the second loop of populating wrote one merged group. */
  lemma CopyHolds(e: Engine, secrets: Secrets, g: Group, data: Fields)
    requires Once(g.sensitiveKeys) && e.vault.enabled
    ensures var (s', c) := CopiedTree(e.vault.mount, e.objJson, secrets, g.id, data, g.sensitiveKeys);
            Holds(e, s', g.(content := c), data) && OwnOnly(e.vault, g.(content := c))
  {
    hide Get, GetByPath, Clear, Unrelated, CopiedTree, ResolvedTree, Once, PlainSecrets, NoSlashInPresentKeys,
         CollidingKeysAgree, HoldsKey, NullOrOwn;
    var keys := g.sensitiveKeys;
    var (s', c) := CopiedTree(e.vault.mount, e.objJson, secrets, g.id, data, keys);
    forall p | Unrelated(keys, p)
      ensures Get(Obj(c), p) == Get(Obj(data), p) == Get(Obj(ResolvedTree(e.vault, s', c, keys)), p)
    {
      CopiedUnrelated(e.vault.mount, e.objJson, secrets, g.id, data, keys, p);
      ResolvedUnrelated(e.vault, s', c, keys, p);
    }
    forall k | k in keys && Clear(keys, k) ensures HoldsKey(e, s', g.(content := c), data, k) {
      CopyHoldsKey(e, secrets, g, data, k);
    }
    forall k | k in keys ensures NullOrOwn(e.vault.mount, g.id, k, GetByPath(c, k)) {
      CopiedOwn(e.vault.mount, e.objJson, secrets, g.id, data, keys, k);
    }
    if PlainSecrets(data, keys) {
      CopyThenResolve(e.vault, e.objJson, secrets, g.id, data, keys);
    }
  }

  lemma CopyHoldsKey(e: Engine, secrets: Secrets, g: Group, data: Fields, k: string)
    requires Once(g.sensitiveKeys) && e.vault.enabled && k in g.sensitiveKeys && Clear(g.sensitiveKeys, k)
    ensures var (s', c) := CopiedTree(e.vault.mount, e.objJson, secrets, g.id, data, g.sensitiveKeys);
            HoldsKey(e, s', g.(content := c), data, k)
  {
    hide GetByPath, Clear, CopiedTree, ResolvedTree, Once, Sole, CopyWrite, RefText, SecretName, FieldOf, Does,
         PlainText, IsVaultRef, Resolved, ToText;
    var keys := g.sensitiveKeys;
    var (s', c) := CopiedTree(e.vault.mount, e.objJson, secrets, g.id, data, keys);
    var ref := RefText(e.vault.mount, g.id, k);
    CopiedAt(e.vault.mount, e.objJson, secrets, g.id, data, keys, k);
    RefTextIsRef(e.vault.mount, g.id, k);
    TextIsString(ref);
    ResolvedOwnRef(e.vault, s', g.id, k);
    if GetByPath(data, k) == Null {
      ResolvedStays(e.vault, s', c, keys, k);
    } else {
      ResolvedClear(e.vault, s', c, keys, k);
      if Sole(keys, k) {
        CopyDoes(e.vault.mount, e.objJson, secrets, g.id, data, keys);
        CopyWriteAt(e.vault.mount, e.objJson, g.id, data, keys, k);
        OwnTextAfter(secrets, s', n => CopyWrite(e.vault.mount, e.objJson, g.id, data, keys, n), g.id, k);
      }
    }
  }

  /** Without Vault the group holds the merged document itself. */
  lemma PlainHolds(e: Engine, secrets: Secrets, g: Group)
    requires Once(g.sensitiveKeys) && !e.vault.enabled
    ensures Holds(e, secrets, g, g.content) && OwnOnly(e.vault, g)
  {
    hide Get, Unrelated, Once;
  }

  /** Writing one merged group edits or adds the group of its name: its sensitive paths are the merged
      ones, a flag already there stays, and the group holds the merged document. */
  lemma PopulatedWithHolds(e: Engine, d: DraftState, m: MergedGroup)
    requires UniqueNames(d.groups) && Once(m.keys)
    ensures var d' := PopulatedWith(e, d, m);
            var g := GroupNamed(d', m.name);
            && OnlyEdits(d, m.name, d') && UniqueNames(d'.groups)
            && g.isGlobal == (if FindGroup(d.groups, m.name) >= 0 then GroupNamed(d, m.name).isGlobal else m.isGlobal)
            && g.sensitiveKeys == m.keys && Holds(e, d'.secrets, g, m.data) && OwnOnly(e.vault, g)
  {
    hide CopiedTree, GroupSecretsDropped, UniqueNames, FindGroup, GroupNames, Holds, OwnOnly, Once;
    var i := FindGroup(d.groups, m.name);
    var at := if i >= 0 then i else |d.groups|;
    var d' := PopulatedWith(e, d, m);
    if i >= 0 {
      NameKept(d.groups, i, d'.groups[i]);
    } else {
      NameAdded(d.groups, d'.groups[at]);
    }
    FoundAt(d'.groups, at);
    var dropped := if i >= 0 then GroupSecretsDropped(e.vault, d.secrets, d.groups[i]) else d.secrets;
    if e.vault.enabled {
      CopyHolds(e, dropped, d'.groups[at], m.data);
    } else {
      PlainHolds(e, d'.secrets, d'.groups[at]);
    }
  }

  // ---------------------------------------------------------------------------------------
  // All merged groups
  // ---------------------------------------------------------------------------------------

  /** Writes to another group's secrets leave a group alone that refers to its own secrets only. */
  lemma OwnStaysSame(vault: Settings, a: Secrets, b: Secrets, w: Writes, g: Group, other: nat)
    requires Does(a, b, w) && WritesFor(w, {other}) && other != g.id && OwnOnly(vault, g)
    ensures ResolvedContent(vault, b, g) == ResolvedContent(vault, a, g)
  {
    hide Does, GetByPath, RefText, SecretName, IsVaultRef, ResolvedTree, Outside, Once, DisturbsPath, ResolvedContent;
    if vault.enabled {
      forall k | k in g.sensitiveKeys ensures !DisturbsPath(vault, a, w, GetByPath(g.content, k)) {
        if GetByPath(g.content, k) == Null {
          NullUndisturbed(vault, a, w);
        } else {
          NameWithin(g.id, k, {other});
          OwnUndisturbed(vault, a, w, g.id, k);
        }
      }
      WritesKeepIff(vault, a, b, w, g);
    } else {
      WritesKeepIff(vault, a, b, w, g);
    }
  }

  lemma NullUndisturbed(vault: Settings, secrets: Secrets, w: Writes)
    ensures !DisturbsPath(vault, secrets, w, Null)
  {
  }

  /** What the draft holds of one merged group: its paths and its document, with the flag the draft's
      group of its name had before, or else the merged one. */
  ghost predicate PopulatedFrom(e: Engine, groups: seq<Group>, m: MergedGroup, d': DraftState) {
    var i, j := FindGroup(groups, m.name), FindGroup(d'.groups, m.name);
    && j >= 0 && d'.groups[j].sensitiveKeys == m.keys
    && d'.groups[j].isGlobal == (if i >= 0 then groups[i].isGlobal else m.isGlobal)
    && Holds(e, d'.secrets, d'.groups[j], m.data) && OwnOnly(e.vault, d'.groups[j])
  }

  /** Groups no config map brings stay where and what they are. */
  ghost predicate KeepsOthers(groups: seq<Group>, names: set<string>, groups': seq<Group>) {
    && |groups| <= |groups'|
    && forall j | 0 <= j < |groups| && groups[j].name !in names :: groups'[j] == groups[j]
  }

  lemma PopulatedStays(e: Engine, groups: seq<Group>, m: MergedGroup, d: DraftState, last: MergedGroup)
    requires PopulatedFrom(e, groups, m, d) && m.name != last.name && UniqueNames(d.groups) && Once(last.keys)
    requires IdsGiven(d.groups, d.nextId)
    ensures PopulatedFrom(e, groups, m, PopulatedWith(e, d, last))
  {
    hide PopulatedWith, Holds, OwnOnly, UniqueNames, MergedWrites, Does, WritesFor, ResolvedContent, FindGroup;
    var j, d' := FindGroup(d.groups, m.name), PopulatedWith(e, d, last);
    var g := d.groups[j];
    PopulatedWithHolds(e, d, last);
    MergedDoes(e, d, last);
    assert FindGroup(d.groups, last.name) != j;
    assert d'.groups[j] == g;
    FoundAt(d'.groups, j);
    OwnStaysSame(e.vault, d.secrets, d'.secrets, MergedWrites(e, d.groups, d.nextId, last), g, EditedId(d, last.name));
    HoldsStays(e, d.secrets, d'.secrets, g, m.data);
  }

  /** The second loop of populating leaves every merged group in the draft and every other group as it
      was. */
  lemma {:induction false} PopulatedAllFrom(e: Engine, d: DraftState, merged: seq<MergedGroup>)
    requires UniqueNames(d.groups) && IdsGiven(d.groups, d.nextId) && UniqueMerged(merged)
    requires forall i | 0 <= i < |merged| :: Once(merged[i].keys)
    ensures var d' := PopulatedAll(e, d, merged);
            && UniqueNames(d'.groups) && IdsGiven(d'.groups, d'.nextId) && d.nextId <= d'.nextId
            && KeepsOthers(d.groups, MergedNames(merged), d'.groups)
            && GroupNames(d'.groups) == GroupNames(d.groups) + MergedNames(merged)
            && forall i | 0 <= i < |merged| :: PopulatedFrom(e, d.groups, merged[i], d')
  {
    hide PopulatedWith, PopulatedFrom, UniqueNames, Once, IdsGiven, GroupNames, Does, WritesBelow, PopulateWrites;
    PopulateDoes(e, d, merged);
    PopulateNames(e, d, merged);
    if merged != [] {
      var n := |merged| - 1;
      var front, m, d1 := merged[..n], merged[n], PopulatedAll(e, d, merged[..n]);
      PopulatedAllFrom(e, d, front);
      assert MergedNames(merged) == MergedNames(front) + {m.name} && m.name !in MergedNames(front);
      LastPopulated(e, d, front, m);
      forall i | 0 <= i < n ensures PopulatedFrom(e, d.groups, merged[i], PopulatedWith(e, d1, m)) {
        assert front[i] == merged[i];
        PopulatedStays(e, d.groups, merged[i], d1, m);
      }
    }
  }

  lemma LastPopulated(e: Engine, d: DraftState, front: seq<MergedGroup>, m: MergedGroup)
    requires UniqueNames(d.groups) && Once(m.keys) && m.name !in MergedNames(front)
    requires var d1 := PopulatedAll(e, d, front);
             && UniqueNames(d1.groups) && KeepsOthers(d.groups, MergedNames(front), d1.groups)
             && GroupNames(d1.groups) == GroupNames(d.groups) + MergedNames(front)
    ensures var d' := PopulatedWith(e, PopulatedAll(e, d, front), m);
            PopulatedFrom(e, d.groups, m, d') && KeepsOthers(d.groups, MergedNames(front) + {m.name}, d'.groups)
  {
    hide PopulatedWith, Holds, OwnOnly, UniqueNames, FindGroup, Once, PopulatedAll;
    var d1 := PopulatedAll(e, d, front);
    PopulatedWithHolds(e, d1, m);
    var i := FindGroup(d.groups, m.name);
    if i >= 0 {
      assert d1.groups[i] == d.groups[i];
      FoundAt(d1.groups, i);
    }
  }

  // ---------------------------------------------------------------------------------------
  // What is published
  // ---------------------------------------------------------------------------------------

  /** The groups published from a draft with `draft` and the config-map groups `maps`: the group of a
      name the config maps bring holds their merged document and lists each of their sensitive paths
      once; its flag is that of the draft's group of the name, or else that of the first of theirs. */
  ghost predicate PublishesMaps(e: Engine, draft: seq<Group>, maps: seq<Group>, name: string, data: Fields,
                                secrets: Secrets, groups: seq<Group>) {
    var h, i, j := FindGroup(draft, name), FindGroup(maps, name), FindGroup(groups, name);
    && i >= 0 && j >= 0
    && groups[j].isGlobal == (if h >= 0 then draft[h].isGlobal else maps[i].isGlobal)
    && (forall k :: k in groups[j].sensitiveKeys <==> KeyNamed(maps, name, k))
    && Holds(e, secrets, groups[j], data)
  }

  /** `data` is what the config-map groups of the name merge into. */
  ghost predicate MapsBring(e: Engine, secrets: Secrets, maps: seq<Group>, name: string, data: Fields) {
    name in GroupNames(maps) && Answers(data, AllNamed(e.vault, secrets, maps, name))
  }

  /** Each name the config maps bring has exactly one such document. */
  lemma MapsBringOne(e: Engine, secrets: Secrets, maps: seq<Group>, name: string)
    requires name in GroupNames(maps)
    ensures exists data :: MapsBring(e, secrets, maps, name, data)
    ensures forall a, b | MapsBring(e, secrets, maps, name, a) && MapsBring(e, secrets, maps, name, b) :: a == b
  {
    hide Answers, AllNamed, KeyNamed, MergedAll;
    MergedAllFrom(e.vault, secrets, maps);
    var merged := MergedAll(e.vault, secrets, maps);
    var i := FindMerged(merged, name);
    assert MergedFrom(e.vault, secrets, maps, merged[i]);
    assert MapsBring(e, secrets, maps, name, merged[i].data);
    forall a, b | MapsBring(e, secrets, maps, name, a) && MapsBring(e, secrets, maps, name, b) ensures a == b {
      AnswersUnique(a, b, AllNamed(e.vault, secrets, maps, name));
    }
  }

  /** A populated draft. */
  lemma PopulatedMaps(e: Engine, d: DraftState, maps: seq<Group>, name: string, data: Fields)
    requires UniqueNames(d.groups) && IdsGiven(d.groups, d.nextId) && MapsBring(e, d.secrets, maps, name, data)
    ensures var d' := Populated(e, d, maps);
            && UniqueNames(d'.groups) && IdsGiven(d'.groups, d'.nextId) && d.nextId <= d'.nextId
            && PublishesMaps(e, d.groups, maps, name, data, d'.secrets, d'.groups)
            && OwnOnly(e.vault, d'.groups[FindGroup(d'.groups, name)])
  {
    hide Answers, AllNamed, KeyNamed, MergedAll, PopulatedAll, UniqueNames, IdsGiven, KeepsOthers, Holds, OwnOnly,
         GroupNames, FindGroup, Once;
    MergedAllFrom(e.vault, d.secrets, maps);
    var merged := MergedAll(e.vault, d.secrets, maps);
    forall i | 0 <= i < |merged| ensures Once(merged[i].keys) {
      assert MergedFrom(e.vault, d.secrets, maps, merged[i]);
    }
    PopulatedAllFrom(e, d, merged);
    var i := FindMerged(merged, name);
    assert MergedFrom(e.vault, d.secrets, maps, merged[i])
           && PopulatedFrom(e, d.groups, merged[i], PopulatedAll(e, d, merged));
    AnswersUnique(data, merged[i].data, AllNamed(e.vault, d.secrets, maps, name));
  }

  /** A group that refers to its own secrets only. */
  lemma OwnOnlyOwned(vault: Settings, secrets: Secrets, g: Group)
    requires vault.enabled && OwnOnly(vault, g)
    ensures OwnedAt(g, vault.mount, {g.id}) && DirectGroup(vault, secrets, g)
  {
    hide GetByPath, RefText, OwnedText, Once, IsVaultRef;
    forall k | k in g.sensitiveKeys ensures OwnedText(ToText(GetByPath(g.content, k)), vault.mount, {g.id}) {
      OwnedRef(vault.mount, g.id, k, {g.id});
      NullOwned(vault.mount, {g.id});
    }
  }

  lemma NullOwned(mount: string, ids: set<nat>)
    ensures OwnedText(ToText(Null), mount, ids)
  {
    assert "null"[0] == 'n' && PREFIX[0] == 'v';
  }

  /** Cloning the missing groups afterwards changes nothing about this. */
  lemma ClonesKeepMaps(e: Engine, d: DraftState, sources: seq<Group>, draft: seq<Group>, maps: seq<Group>, name: string,
                       data: Fields)
    requires UniqueNames(d.groups) && UniqueNames(sources) && IdsGiven(d.groups, d.nextId)
    requires PublishesMaps(e, draft, maps, name, data, d.secrets, d.groups)
             && OwnOnly(e.vault, d.groups[FindGroup(d.groups, name)])
    ensures var d' := ClonedMissing(e.vault, d, sources, GroupNames(d.groups));
            PublishesMaps(e, draft, maps, name, data, d'.secrets, d'.groups)
  {
    hide UniqueNames, GroupNames, FindGroup, ClonedMissing, Holds, OwnOnly, KeyNamed, Agree, OwnedAt, DirectGroup,
         ResolvedContent;
    var j, d' := FindGroup(d.groups, name), ClonedMissing(e.vault, d, sources, GroupNames(d.groups));
    CloneMissingNames(e.vault, d, sources, GroupNames(d.groups));
    var g := d.groups[j];
    assert d'.groups[j] == g;
    FoundAt(d'.groups, j);
    ClonedMissingAgrees(e.vault, d, sources, GroupNames(d.groups), {g.id});
    if e.vault.enabled {
      OwnOnlyOwned(e.vault, d.secrets, g);
      StaysAlike(e.vault, d.secrets, d'.secrets, g, {g.id});
    } else {
      NotResolved(e.vault, d.secrets, d'.secrets, g);
    }
    HoldsStays(e, d.secrets, d'.secrets, g, data);
  }

  lemma NotResolved(vault: Settings, a: Secrets, b: Secrets, g: Group)
    requires !vault.enabled
    ensures ResolvedContent(vault, a, g) == ResolvedContent(vault, b, g)
  {
  }

  /** The populated draft of an operation, for all names at once. */
  lemma PopulatedGroupsAre(e: Engine, d: DraftState, maps: seq<Group>)
    requires UniqueNames(d.groups) && IdsGiven(d.groups, d.nextId)
    ensures var d' := Populated(e, d, maps);
            && UniqueNames(d'.groups) && IdsGiven(d'.groups, d'.nextId)
            && KeepsOthers(d.groups, GroupNames(maps), d'.groups)
            && GroupNames(d'.groups) == GroupNames(d.groups) + GroupNames(maps)
  {
    hide MergedAll, PopulatedAll, UniqueNames, IdsGiven, KeepsOthers, MergedFrom, GroupNames, Once;
    MergedAllFrom(e.vault, d.secrets, maps);
    var merged := MergedAll(e.vault, d.secrets, maps);
    forall i | 0 <= i < |merged| ensures Once(merged[i].keys) { MergedOnce(e.vault, d.secrets, maps, merged[i]); }
    PopulatedAllFrom(e, d, merged);
  }

  lemma MergedOnce(vault: Settings, secrets: Secrets, maps: seq<Group>, m: MergedGroup)
    requires MergedFrom(vault, secrets, maps, m)
    ensures Once(m.keys)
  {
  }

  /** A refresh publishes what the config maps bring, every other group of the draft as it was there,
      and a group under every name of the previous active revision; no other group. */
  lemma RefreshPublishesMaps(e: Engine, db: Db, deviceId: string, known: set<nat>, queried: set<nat>)
    requires RowsInv(db) && Given(db) && DeviceConfig(deviceId) in db.revisions
    ensures var p, db' := DeviceConfig(deviceId), Refresh(e, db, deviceId, known, queried).0;
            var draft, maps := DraftAt(db, p).groups, MapGroups(db, deviceId, known);
            var groups := ActiveGroups(db'.revisions[p]);
            && (forall name, data | MapsBring(e, db.secrets, maps, name, data) ::
                  PublishesMaps(e, draft, maps, name, data, db'.secrets, groups))
            && KeepsOthers(draft, GroupNames(maps), groups)
            && GroupNames(groups) == GroupNames(draft) + GroupNames(maps) + GroupNames(ActiveGroups(db.revisions[p]))
  {
    hide RowsInv, FreshFrom, EnsureDraft, MapGroups, Populated, ClonedMissing, UniqueNames, IdsGiven, ActiveGroups,
         DraftGroups, GroupNames, KeepsOthers, MapsBring, PublishesMaps, OwnOnly, Refresh, VersionFollows;
    var p := DeviceConfig(deviceId);
    var d, maps, sources := DraftAt(db, p), MapGroups(db, deviceId, known), ActiveGroups(db.revisions[p]);
    var d1 := Populated(e, d, maps);
    DraftGiven(db, p);
    DraftOfRows(db, p);
    SourcesUnique(db, p);
    RefreshVersionIff(e, db, deviceId, known, queried);
    RefreshSecrets(e, db, deviceId, known, queried);
    PopulatedGroupsAre(e, d, maps);
    CloneMissingNames(e.vault, d1, sources, GroupNames(d1.groups));
    var d' := ClonedMissing(e.vault, d1, sources, GroupNames(d1.groups));
    forall name, data | MapsBring(e, db.secrets, maps, name, data)
      ensures PublishesMaps(e, d.groups, maps, name, data, d'.secrets, d'.groups)
    {
      PopulatedMaps(e, d, maps, name, data);
      ClonesKeepMaps(e, d1, sources, d.groups, maps, name, data);
    }
    KeptByMore(d.groups, GroupNames(maps), d1.groups, d'.groups);
  }

  lemma SourcesUnique(db: Db, p: Project)
    requires RowsInv(db) && p in db.revisions
    ensures UniqueNames(ActiveGroups(db.revisions[p]))
            && ActiveGroups(EnsureDraft(db.revisions[p])) == ActiveGroups(db.revisions[p])
  {
    hide Lifecycle, CacheOk, ActiveGroups, UniqueNames, EnsureDraft;
    SourceIsActive(db.revisions[p]);
    ActiveGroupsKept(db.revisions[p]);
  }

  lemma KeptByMore(draft: seq<Group>, names: set<string>, groups: seq<Group>, more: seq<Group>)
    requires KeepsOthers(draft, names, groups) && groups <= more
    ensures KeepsOthers(draft, names, more)
  {
  }

  /** Provisioning a device without an active revision publishes what the config maps bring and every
      other group of the draft as it was there; a draft without groups starts with two empty ones. */
  lemma ProvisionPublishesMaps(e: Engine, db: Db, deviceId: string, known: set<nat>, queried: set<nat>)
    requires RowsInv(db) && Given(db) && FindStatus(RevisionsOf(db, DeviceConfig(deviceId)), Active) < 0
    ensures var p, db' := DeviceConfig(deviceId), Provision(e, db, deviceId, known, queried);
            var draft, maps := WithDefaults(DraftAt(db, p)).groups, MapGroups(db, deviceId, known);
            && p in db'.revisions
            && var groups := ActiveGroups(db'.revisions[p]);
               && ActiveVersion(db'.revisions[p]) == Some(INITIAL)
               && (forall name, data | MapsBring(e, db.secrets, maps, name, data) ::
                     PublishesMaps(e, draft, maps, name, data, db'.secrets, groups))
               && KeepsOthers(draft, GroupNames(maps), groups)
               && GroupNames(groups) == GroupNames(draft) + GroupNames(maps)
  {
    hide RowsInv, FreshFrom, EnsureDraft, MapGroups, Populated, UniqueNames, IdsGiven, ActiveGroups, DraftGroups,
         GroupNames, KeepsOthers, MapsBring, PublishesMaps, OwnOnly, Provision, WithDefaults, ActiveVersion, FindStatus;
    var p := DeviceConfig(deviceId);
    var d, maps := WithDefaults(DraftAt(db, p)), MapGroups(db, deviceId, known);
    DraftGiven(db, p);
    DraftOfRows(db, p);
    DefaultsGiven(DraftAt(db, p));
    DefaultsNames(DraftAt(db, p));
    ProvisionedGroups(e, db, deviceId, known, queried);
    PopulatedGroupsAre(e, d, maps);
    forall name, data | MapsBring(e, db.secrets, maps, name, data)
      ensures PublishesMaps(e, d.groups, maps, name, data, Populated(e, d, maps).secrets, Populated(e, d, maps).groups)
    {
      PopulatedMaps(e, d, maps, name, data);
    }
  }

  lemma ProvisionedGroups(e: Engine, db: Db, deviceId: string, known: set<nat>, queried: set<nat>)
    requires RowsInv(db) && FindStatus(RevisionsOf(db, DeviceConfig(deviceId)), Active) < 0
    ensures var p, db' := DeviceConfig(deviceId), Provision(e, db, deviceId, known, queried);
            var d' := Populated(e, WithDefaults(DraftAt(db, p)), MapGroups(db, deviceId, known));
            && p in db'.revisions && ActiveGroups(db'.revisions[p]) == d'.groups && db'.secrets == d'.secrets
            && ActiveVersion(db'.revisions[p]) == Some(INITIAL)
  {
    hide Lifecycle, CacheOk, RowsFrozen, EnsureDraft, MapGroups, Populated, UniqueNames, ActiveGroups, DraftGroups,
         Provision, WithDefaults, ActiveVersion, FindStatus, Applied, NextVersionOf, Live, History, WithNextDraft,
         PublishesDraft, FindVersion;
    var p := DeviceConfig(deviceId);
    ProvisionIsPublish(e, db, deviceId, known, queried);
    var d' := ProvisionedDraft(e, db, EnsureDraft(RevisionsOf(db, p)), deviceId, known);
    RowsOf(Edited(db, p, d'), p);
    PublishRows(Edited(db, p, d').revisions[p]);
  }

  /** The two default groups. */
  lemma DefaultGroupsAre(d: DraftState)
    ensures d.groups != [] ==> WithDefaults(d) == d
    ensures d.groups == [] ==>
              && GroupNames(WithDefaults(d).groups) == {"getapp_enrollment", "getapp_config"}
              && forall g | g in WithDefaults(d).groups :: !g.isGlobal && g.sensitiveKeys == [] && g.content == map[]
  {
    if d.groups == [] {
      var groups := WithDefaults(d).groups;
      assert groups[0].name == "getapp_enrollment" && groups[1].name == "getapp_config";
      assert groups[0].name in GroupNames(groups) && groups[1].name in GroupNames(groups);
    }
  }
}
