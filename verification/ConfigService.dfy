/** The config service object: its methods update the tables step by step, and each is proved to
    compute the state function of `ConfigDb` with the same purpose. */
module ConfigService {
  import opened Options
  import opened Tree
  import opened Vault
  import opened SecretKeys
  import opened ConfigModel
  import opened Versioning
  import opened Revisions
  import opened DraftEdits
  import opened Payload
  import opened ConfigDb

  class ConfigService {
    const engine: Engine
    const vault: VaultService
    var revisions: map<Project, seq<Revision>>
    var assocs: seq<Assoc>
    var nextGroupId: nat
    var cache: map<(string, Version), DevicePayload>

    ghost predicate Valid() {
      vault.cfg == engine.vault
    }

    ghost function Model(): Db
      reads this, vault
    {
      Db(revisions, assocs, vault.secrets, nextGroupId, cache)
    }

    constructor (engine: Engine, vault: VaultService)
      requires vault.cfg == engine.vault
      ensures Valid() && this.engine == engine && this.vault == vault
      ensures Model() == Db(map[], [], vault.secrets, 0, map[])
    {
      this.engine, this.vault := engine, vault;
      revisions, assocs, nextGroupId, cache := map[], [], 0, map[];
    }

    // -------------------------------------------------------------------------------------
    // Helpers on groups
    // -------------------------------------------------------------------------------------

    method ResolveGroupYaml(group: Group) returns (resolved: Fields)
      requires Valid()
      ensures resolved == ResolvedContent(engine.vault, vault.secrets, group)
    {
      resolved := group.content;
      if vault.cfg.enabled && |group.sensitiveKeys| > 0 {
        resolved := ResolveKeys(vault, group.content, group.sensitiveKeys);
      }
    }

    method CollectGlobals(groups: seq<Group>) returns (result: Fields)
      requires Valid()
      ensures result == Globals(engine.vault, vault.secrets, groups)
    {
      result := map[];
      for i := 0 to |groups|
        invariant result == Globals(engine.vault, vault.secrets, groups[..i])
      {
        assert groups[..i + 1][..i] == groups[..i];
        if groups[i].isGlobal {
          var resolved := ResolveGroupYaml(groups[i]);
          result := result + resolved;
        }
      }
      assert groups[..|groups|] == groups;
    }

    method DeleteGroupVaultSecrets(group: Group)
      requires Valid()
      modifies vault
      ensures vault.secrets == GroupSecretsDropped(engine.vault, old(vault.secrets), group)
    {
      if !vault.cfg.enabled || |group.sensitiveKeys| == 0 || |group.content| == 0 {
        if vault.cfg.enabled {
          NothingToDrop(vault.secrets, group);
        }
        return;
      }
      DropKeys(vault, group.id, group.content, group.sensitiveKeys);
    }

    static lemma NothingToDrop(secrets: Secrets, group: Group)
      requires |group.sensitiveKeys| == 0 || |group.content| == 0
      ensures DroppedSecrets(secrets, group.id, group.content, group.sensitiveKeys) == secrets
    {
      if |group.sensitiveKeys| > 0 {
        EmptyHoldsNothing(secrets, group.id, group.content, group.sensitiveKeys);
      }
    }

    static lemma {:induction false} EmptyHoldsNothing(secrets: Secrets, groupId: nat, t: Fields, keys: seq<string>)
      requires |t| == 0
      ensures DroppedSecrets(secrets, groupId, t, keys) == secrets
      decreases |keys|
    {
      if keys != [] {
        EmptyHoldsNothing(secrets, groupId, t, keys[1..]);
      }
    }

    // -------------------------------------------------------------------------------------
    // Group CRUD on the draft
    // -------------------------------------------------------------------------------------

    method GetOrCreateDraftRevision(p: Project) returns (draft: nat)
      modifies this`revisions
      ensures revisions == old(revisions)[p := EnsureDraft(old(RevisionsOf(Model(), p)))]
      ensures draft == FindStatus(revisions[p], Draft) && draft < |revisions[p]|
    {
      hide FindStatus, MaxNumber;
      var revs := if p in revisions then revisions[p] else [];
      var existing := FindStatus(revs, Draft);
      if existing < 0 {
        var max := MaxNumber(revs);
        revs := revs + [NewDraft(max + 1)];
      }
      assert revs == EnsureDraft(RevisionsOf(Model(), p));
      revisions := revisions[p := revs];
      draft := FindStatus(revs, Draft);
    }

    /** Unmasks the input against the stored content and moves plaintext into Vault. */
    method MergeUpsertedContent(group: Group, input: Fields) returns (parsed: Fields)
      requires Valid()
      modifies vault
      ensures (vault.secrets, parsed)
           == UpsertedContent(engine.vault, old(vault.secrets), group.id, group.content, group.sensitiveKeys, input)
    {
      parsed := input;
      if |group.sensitiveKeys| > 0 && |group.content| > 0 {
        parsed := UnmaskKeys(parsed, group.content, group.sensitiveKeys);
      }
      if |group.sensitiveKeys| > 0 && vault.cfg.enabled {
        parsed := StoreKeys(vault, group.id, parsed, group.sensitiveKeys);
      }
    }

    /** Saving the group rows of the draft. */
    method SaveDraftGroups(p: Project, groups: seq<Group>, ghost before: map<Project, seq<Revision>>)
      requires p in revisions && FindStatus(revisions[p], Draft) >= 0
      requires revisions == before[p := revisions[p]]
      modifies this`revisions
      ensures revisions == before[p := WithDraftGroups(old(revisions)[p], groups)]
    {
      var draft := FindStatus(revisions[p], Draft);
      revisions := revisions[p := revisions[p][draft := revisions[p][draft].(groups := groups)]];
    }

    method UpsertGroup(p: Project, dto: UpsertDto) returns (outcome: Outcome)
      requires Valid()
      modifies this, vault
      ensures (Model(), outcome) == Upsert(engine, old(Model()), p, dto)
    {
      hide UpsertedContent, EnsureDraft;
      if p !in revisions {
        return NotFound;
      }
      var draft := GetOrCreateDraftRevision(p);
      var groups := revisions[p][draft].groups;
      var found := FindGroup(groups, dto.name);
      var group := Group(nextGroupId, dto.name, false, [], map[]);
      if found >= 0 {
        group := groups[found];
      } else {
        nextGroupId := nextGroupId + 1;
      }
      group := group.(isGlobal := Or(dto.isGlobal, group.isGlobal));
      if dto.sensitiveKeys.Some? {
        group := group.(sensitiveKeys := dto.sensitiveKeys.value);
      }
      if dto.tree.Some? {
        var parsed := MergeUpsertedContent(group, dto.tree.value);
        group := group.(content := parsed);
      }
      groups := if found >= 0 then groups[found := group] else groups + [group];
      SaveDraftGroups(p, groups, old(revisions));
      return Done;
    }

    /** The masked group a client reads. */
    method MapGroupToDto(group: Group) returns (view: Fields)
      ensures view == Masked(group.content, group.sensitiveKeys)
    {
      view := MaskKeys(group.content, group.sensitiveKeys);
    }

    method DeleteGroup(p: Project, name: string) returns (outcome: Outcome)
      requires Valid()
      modifies this, vault
      ensures (Model(), outcome) == ConfigDb.DeleteGroup(engine, old(Model()), p, name)
    {
      if p !in revisions {
        return NotFound;
      }
      var draft := GetOrCreateDraftRevision(p);
      var groups := revisions[p][draft].groups;
      var found := FindGroup(groups, name);
      if found < 0 {
        return NotFound;
      }
      DeleteGroupVaultSecrets(groups[found]);
      groups := groups[..found] + groups[found + 1..];
      SaveDraftGroups(p, groups, old(revisions));
      return Done;
    }

    // -------------------------------------------------------------------------------------
    // Draft life cycle
    // -------------------------------------------------------------------------------------

    /** Appends a clone of `source` to the groups of a draft. */
    method CloneGroupToRevision(source: Group, groups: seq<Group>) returns (withClone: seq<Group>)
      requires Valid()
      modifies this`nextGroupId, vault
      ensures DraftState(vault.secrets, nextGroupId, withClone)
           == Cloned(engine.vault, DraftState(old(vault.secrets), old(nextGroupId), groups), source)
    {
      var id := nextGroupId;
      nextGroupId := nextGroupId + 1;
      var parsed := source.content;
      if vault.cfg.enabled && |source.sensitiveKeys| > 0 {
        parsed := CloneKeys(vault, id, parsed, source.sensitiveKeys);
      }
      withClone := groups + [source.(id := id, content := parsed)];
    }

    /** Clones every source group whose name is not in `present`. */
    method CloneMissingGroups(sources: seq<Group>, present: set<string>, groups: seq<Group>) returns (all: seq<Group>)
      requires Valid()
      modifies this`nextGroupId, vault
      ensures DraftState(vault.secrets, nextGroupId, all)
           == ClonedMissing(engine.vault, DraftState(old(vault.secrets), old(nextGroupId), groups), sources, present)
    {
      all := groups;
      for i := 0 to |sources|
        invariant DraftState(vault.secrets, nextGroupId, all)
               == ClonedMissing(engine.vault, DraftState(old(vault.secrets), old(nextGroupId), groups), sources[..i],
                                present)
      {
        assert sources[..i + 1][..i] == sources[..i];
        if sources[i].name !in present {
          all := CloneGroupToRevision(sources[i], all);
        }
      }
      assert sources[..|sources|] == sources;
    }

    method CreateDraftRevision(p: Project) returns (outcome: Outcome)
      requires Valid()
      modifies this, vault
      ensures (Model(), outcome) == CreateDraft(engine, old(Model()), p)
    {
      if p !in revisions {
        return NotFound;
      }
      if FindStatus(revisions[p], Draft) >= 0 {
        return AlreadyExists;
      }
      var source := SourceGroups(revisions[p]);
      var draft := GetOrCreateDraftRevision(p);
      var groups := CloneMissingGroups(source, {}, []);
      SaveDraftGroups(p, groups, old(revisions));
      return Done;
    }

    method DeleteDraftRevision(p: Project) returns (outcome: Outcome)
      requires Valid()
      modifies this, vault
      ensures (Model(), outcome) == DeleteDraft(engine, old(Model()), p)
    {
      if p !in revisions || FindStatus(revisions[p], Draft) < 0 {
        return NotFound;
      }
      var draft := FindStatus(revisions[p], Draft);
      var groups := revisions[p][draft].groups;
      for i := 0 to |groups|
        modifies vault
        invariant AllSecretsDropped(engine.vault, vault.secrets, groups[i..])
                  == AllSecretsDropped(engine.vault, old(vault.secrets), groups)
      {
        assert groups[i..][1..] == groups[i + 1..];
        DeleteGroupVaultSecrets(groups[i]);
      }
      revisions := revisions[p := revisions[p][..draft] + revisions[p][draft + 1..]];
      return Done;
    }

    // -------------------------------------------------------------------------------------
    // Populating from config maps
    // -------------------------------------------------------------------------------------

    /** The groups of the active revisions of all config maps that apply to a device. */
    method ApplicableGroups(deviceId: string, typeIds: set<nat>) returns (groups: seq<Group>)
      ensures groups == MapGroups(Model(), deviceId, typeIds)
    {
      var ids := [];
      for i := 0 to |assocs|
        invariant ids == MapIds(assocs[..i], deviceId, typeIds)
      {
        assert assocs[..i + 1][..i] == assocs[..i];
        if Applies(assocs[i], deviceId, typeIds) && assocs[i].mapId !in ids {
          ids := ids + [assocs[i].mapId];
        }
      }
      assert assocs[..|assocs|] == assocs;
      groups := [];
      for i := 0 to |ids|
        invariant groups == GroupsOfMaps(revisions, ids[..i])
      {
        assert ids[..i + 1][..i] == ids[..i];
        if ConfigMap(ids[i]) in revisions {
          groups := groups + ActiveGroups(revisions[ConfigMap(ids[i])]);
        }
      }
      assert ids[..|ids|] == ids;
    }

    method MergeConfigMaps(groups: seq<Group>) returns (merged: seq<MergedGroup>)
      requires Valid()
      ensures merged == MergedAll(engine.vault, vault.secrets, groups)
    {
      merged := [];
      for i := 0 to |groups|
        invariant merged == MergedAll(engine.vault, vault.secrets, groups[..i])
      {
        assert groups[..i + 1][..i] == groups[..i];
        var g := groups[i];
        var resolved := ResolveGroupYaml(g);
        var at := FindMerged(merged, g.name);
        if at < 0 {
          merged := merged + [MergedGroup(g.name, g.isGlobal, WithKeys([], g.sensitiveKeys), resolved)];
        } else {
          merged := merged[at := merged[at].(keys := WithKeys(merged[at].keys, g.sensitiveKeys),
                                             data := merged[at].data + resolved)];
        }
      }
      assert groups[..|groups|] == groups;
    }

    method PopulateDraftFromConfigMaps(draft: seq<Group>, deviceId: string,
                                       typeIds: set<nat>) returns (groups: seq<Group>)
      requires Valid()
      modifies this`nextGroupId, vault
      ensures DraftState(vault.secrets, nextGroupId, groups)
           == Populated(engine, DraftState(old(vault.secrets), old(nextGroupId), draft),
                        old(MapGroups(Model(), deviceId, typeIds)))
    {
      var maps := ApplicableGroups(deviceId, typeIds);
      var merged := MergeConfigMaps(maps);
      groups := draft;
      for i := 0 to |merged|
        invariant DraftState(vault.secrets, nextGroupId, groups)
               == PopulatedAll(engine, DraftState(old(vault.secrets), old(nextGroupId), draft), merged[..i])
      {
        assert merged[..i + 1][..i] == merged[..i];
        groups := PopulateGroup(groups, merged[i]);
      }
      assert merged[..|merged|] == merged;
    }

    method PopulateGroup(draft: seq<Group>, m: MergedGroup) returns (groups: seq<Group>)
      requires Valid()
      modifies this`nextGroupId, vault
      ensures DraftState(vault.secrets, nextGroupId, groups)
           == PopulatedWith(engine, DraftState(old(vault.secrets), old(nextGroupId), draft), m)
    {
      groups := draft;
      var at := FindGroup(groups, m.name);
      if at < 0 {
        at := |groups|;
        groups := groups + [Group(nextGroupId, m.name, m.isGlobal, m.keys, map[])];
        nextGroupId := nextGroupId + 1;
      } else {
        DeleteGroupVaultSecrets(groups[at]);
        groups := groups[at := groups[at].(sensitiveKeys := m.keys)];
      }
      var content := m.data;
      if |m.keys| > 0 && vault.cfg.enabled {
        content := CopyKeys(vault, engine.objJson, groups[at].id, content, m.keys);
      }
      groups := groups[at := groups[at].(content := content)];
    }

    // -------------------------------------------------------------------------------------
    // Payloads
    // -------------------------------------------------------------------------------------

    /** The non-global groups, later ones spread over earlier ones of their name. */
    method SpreadByName(groups: seq<Group>) returns (byName: map<string, Fields>)
      requires Valid()
      ensures byName == MergedByName(engine.vault, vault.secrets, groups)
    {
      byName := map[];
      for i := 0 to |groups|
        invariant byName == MergedByName(engine.vault, vault.secrets, groups[..i])
      {
        assert groups[..i + 1][..i] == groups[..i];
        if !groups[i].isGlobal {
          var data := ResolveGroupYaml(groups[i]);
          byName := byName[groups[i].name := (if groups[i].name in byName then byName[groups[i].name] else map[])
                           + data];
        }
      }
      assert groups[..|groups|] == groups;
    }

    method AssignByName(groups: seq<Group>) returns (byName: map<string, Fields>)
      requires Valid()
      ensures byName == AssignedByName(engine.vault, vault.secrets, groups)
    {
      byName := map[];
      for i := 0 to |groups|
        invariant byName == AssignedByName(engine.vault, vault.secrets, groups[..i])
      {
        assert groups[..i + 1][..i] == groups[..i];
        if !groups[i].isGlobal {
          var data := ResolveGroupYaml(groups[i]);
          byName := byName[groups[i].name := data];
        }
      }
      assert groups[..|groups|] == groups;
    }

    method DeleteNulls(t: Fields) returns (cleaned: Fields)
      ensures cleaned == WithoutNulls(t)
    {
      cleaned := t;
      var todo := t.Keys;
      while todo != {}
        invariant todo <= t.Keys
        invariant cleaned == map k | k in t && (k in todo || t[k] != Null) :: t[k]
        decreases todo
      {
        var key :| key in todo;
        if t[key] == Null {
          cleaned := cleaned - {key};
        }
        todo := todo - {key};
      }
    }

    /** The final merge of `buildDeviceConfigPayload`. */
    method MergeLayers(globals: Fields, fromMaps: map<string, Fields>, fromDevice: map<string, Fields>)
      returns (merged: map<string, Fields>)
      ensures merged == map name | name in fromMaps.Keys + fromDevice.Keys ::
                          WithoutNulls(globals + OrEmpty(fromMaps, name) + OrEmpty(fromDevice, name))
    {
      hide WithoutNulls;
      var names := fromMaps.Keys + fromDevice.Keys;
      merged := map[];
      var todo := names;
      while todo != {}
        invariant todo <= names
        invariant merged.Keys == names - todo
        invariant forall name | name in merged ::
                  merged[name] == WithoutNulls(globals + OrEmpty(fromMaps, name) + OrEmpty(fromDevice, name))
        decreases todo
      {
        var name :| name in todo;
        var group := DeleteNulls(globals + OrEmpty(fromMaps, name) + OrEmpty(fromDevice, name));
        merged := merged[name := group];
        todo := todo - {name};
      }
    }

    method BuildDeviceConfigPayload(deviceId: string, typeIds: set<nat>) returns (payload: DevicePayload)
      requires Valid()
      ensures payload == Live(engine, Model(), deviceId, typeIds)
    {
      hide WithoutNulls, Globals, MergedByName, AssignedByName, MapGroups, OrEmpty;
      var maps := ApplicableGroups(deviceId, typeIds);
      var configMapGroups := SpreadByName(maps);
      var globalConfigMapEntries := CollectGlobals(maps);
      var own, activeSemVer := [], None;
      var p := DeviceConfig(deviceId);
      if p in revisions && FindStatus(revisions[p], Active) >= 0 {
        var active := revisions[p][FindStatus(revisions[p], Active)];
        own, activeSemVer := active.groups, active.semVer;
      }
      var globalDeviceEntries := CollectGlobals(own);
      var deviceGroups := AssignByName(own);
      var mergedGroups := MergeLayers(globalConfigMapEntries + globalDeviceEntries, configMapGroups, deviceGroups);
      payload := DevicePayload(activeSemVer, mergedGroups);
      assert own == ActiveGroups(RevisionsOf(Model(), p)) && activeSemVer == ActiveVersion(RevisionsOf(Model(), p));
    }

    method AssembleAndCacheDeviceConfig(deviceId: string, typeIds: set<nat>, version: Version)
      requires Valid()
      modifies this`cache
      ensures Model() == Cached(engine, old(Model()), deviceId, typeIds, version)
    {
      var payload := BuildDeviceConfigPayload(deviceId, typeIds);
      cache := cache[(deviceId, version) := payload];
    }

    method GetDeviceConfig(deviceId: string, typeIds: set<nat>) returns (payload: DevicePayload)
      requires Valid()
      modifies this`cache
      ensures (Model(), payload) == ReadLatest(engine, old(Model()), deviceId, typeIds)
    {
      var p := DeviceConfig(deviceId);
      var version := if p in revisions then ActiveVersion(revisions[p]) else None;
      if version.Some? && (deviceId, version.value) in cache {
        return cache[(deviceId, version.value)];
      }
      payload := BuildDeviceConfigPayload(deviceId, typeIds);
      if version.Some? {
        cache := cache[(deviceId, version.value) := payload];
      }
    }

    method RebuildGroups(groups: seq<Group>) returns (rebuilt: map<string, Fields>)
      requires Valid()
      ensures rebuilt == RebuiltGroups(engine.vault, vault.secrets, groups)
    {
      var globalsData := CollectGlobals(groups);
      rebuilt := map[];
      for i := 0 to |groups|
        invariant rebuilt == RebuiltFrom(engine.vault, vault.secrets, globalsData, groups[..i])
      {
        assert groups[..i + 1][..i] == groups[..i];
        if !groups[i].isGlobal {
          var data := ResolveGroupYaml(groups[i]);
          var cleaned := DeleteNulls(globalsData + data);
          rebuilt := rebuilt[groups[i].name := cleaned];
        }
      }
      assert groups[..|groups|] == groups;
    }

    method GetDeviceConfigByVersion(deviceId: string, version: Version) returns (payload: Option<DevicePayload>)
      requires Valid()
      modifies this`cache
      ensures (Model(), payload) == ReadVersion(engine, old(Model()), deviceId, version)
    {
      if (deviceId, version) in cache {
        return Some(cache[(deviceId, version)]);
      }
      var p := DeviceConfig(deviceId);
      if p !in revisions {
        return None;
      }
      var found := FindVersion(revisions[p], version);
      if found < 0 {
        return None;
      }
      var groups := RebuildGroups(revisions[p][found].groups);
      var rebuilt := DevicePayload(revisions[p][found].semVer, groups);
      cache := cache[(deviceId, version) := rebuilt];
      return Some(rebuilt);
    }

    // -------------------------------------------------------------------------------------
    // Publishing
    // -------------------------------------------------------------------------------------

    /** The update that archives active rows, row by row. */
    method ArchiveActiveRevisions(revs: seq<Revision>) returns (archived: seq<Revision>)
      ensures archived == ArchiveActive(revs)
    {
      archived := revs;
      for i := 0 to |revs|
        invariant |archived| == |revs|
        invariant forall j | 0 <= j < |revs| ::
                    archived[j] == if j < i && revs[j].status == Active then revs[j].(status := Archived) else revs[j]
      {
        if archived[i].status == Active {
          archived := archived[i := archived[i].(status := Archived)];
        }
      }
    }

    /** Archives the active revision and publishes the draft under the computed version. */
    method PublishDraft(p: Project) returns (version: Version)
      requires p in revisions && FindStatus(revisions[p], Draft) >= 0
      modifies this`revisions
      ensures revisions == old(revisions)[p := Applied(old(revisions)[p])]
      ensures version == NextVersionOf(old(revisions)[p])
    {
      var revs := revisions[p];
      var draft, previous := FindStatus(revs, Draft), FindStatus(revs, Active);
      version := ComputeNextSemVer(if previous >= 0 then revs[previous].groups else [], revs[draft].groups,
                                   if previous >= 0 then revs[previous].semVer else None);
      var archived := ArchiveActiveRevisions(revs);
      revisions := revisions[p := archived[draft := revs[draft].(status := Active, semVer := Some(version))]];
    }

    method ApplyRevision(p: Project, typeIds: set<nat>) returns (outcome: Outcome)
      requires Valid()
      modifies this
      ensures (Model(), outcome) == Apply(engine, old(Model()), p, typeIds)
    {
      if p !in revisions || FindStatus(revisions[p], Draft) < 0 {
        return NotFound;
      }
      var version := PublishDraft(p);
      if p.DeviceConfig? {
        AssembleAndCacheDeviceConfig(p.deviceId, typeIds, version);
      }
      return Done;
    }

    /** Publishes the edited draft of a device, opens the next draft and caches the payload. */
    method PublishNext(deviceId: string, typeIds: set<nat>, published: seq<Revision>, number: nat, version: Version,
                       ghost before: Db)
      requires Valid() && DeviceConfig(deviceId) in revisions && revisions[DeviceConfig(deviceId)] == published
      requires Model() == before.(revisions := before.revisions[DeviceConfig(deviceId) := published])
      modifies this`revisions, this`cache
      ensures Model() == PublishedAs(engine, before, deviceId, typeIds, published, number, version)
    {
      hide Live;
      var p := DeviceConfig(deviceId);
      revisions := revisions[p := published + [NewDraft(number + 1)]];
      assert revisions == before.revisions[p := WithNextDraft(published, number)];
      AssembleAndCacheDeviceConfig(deviceId, typeIds, version);
    }

    /** The draft groups a refresh publishes. */
    method RefreshDraft(draft: seq<Group>, previous: seq<Group>, deviceId: string,
                        typeIds: set<nat>) returns (groups: seq<Group>)
      requires Valid()
      modifies this`nextGroupId, vault
      ensures var d := Populated(engine, DraftState(old(vault.secrets), old(nextGroupId), draft),
                                 old(MapGroups(Model(), deviceId, typeIds)));
              DraftState(vault.secrets, nextGroupId, groups)
                == ClonedMissing(engine.vault, d, previous, GroupNames(d.groups))
    {
      hide Populated, ClonedMissing, MapGroups;
      groups := PopulateDraftFromConfigMaps(draft, deviceId, typeIds);
      groups := CloneMissingGroups(previous, GroupNames(groups), groups);
    }

    method RefreshConfigProjectRevision(deviceId: string, known: set<nat>, queried: set<nat>) returns (outcome: Outcome)
      requires Valid()
      modifies this, vault
      ensures (Model(), outcome) == Refresh(engine, old(Model()), deviceId, known, queried)
    {
      hide Populated, ClonedMissing, Applied, PublishedAs, EnsureDraft, NextVersionOf, GroupsOfMaps;
      var p := DeviceConfig(deviceId);
      if p !in revisions {
        return NotFound;
      }
      var draft := GetOrCreateDraftRevision(p);
      SameMaps(old(revisions), revisions, MapIds(assocs, deviceId, known));
      ghost var revs := revisions[p];
      var groups := RefreshDraft(revisions[p][draft].groups, ActiveGroups(revisions[p]), deviceId, known);
      SaveDraftGroups(p, groups, old(revisions));
      EditFindsDraft(revs, groups);
      ghost var db1 := Model();
      assert db1 == WithDraft(old(Model()), p, revs, RefreshedDraft(engine, old(Model()), revs, deviceId, known));
      var number := DraftNumber(revisions[p]);
      var version := PublishDraft(p);
      PublishNext(deviceId, queried, revisions[p], number, version, db1);
      return Done;
    }

    method ProvisionProjectContent(deviceId: string, known: set<nat>, queried: set<nat>)
      requires Valid()
      modifies this, vault
      ensures Model() == Provision(engine, old(Model()), deviceId, known, queried)
    {
      hide Populated, Activate, PublishedAs, EnsureDraft, GroupsOfMaps;
      var p := DeviceConfig(deviceId);
      var draft := GetOrCreateDraftRevision(p);
      SameMaps(old(revisions), revisions, MapIds(assocs, deviceId, known));
      ghost var revs := revisions[p];
      var groups := AddDefaultGroups(revisions[p][draft].groups);
      groups := PopulateDraftFromConfigMaps(groups, deviceId, known);
      SaveDraftGroups(p, groups, old(revisions));
      EditFindsDraft(revs, groups);
      ghost var db1 := Model();
      assert db1 == WithDraft(old(Model()), p, revs, ProvisionedDraft(engine, old(Model()), revs, deviceId, known));
      var number := DraftNumber(revisions[p]);
      revisions := revisions[p := Activate(revisions[p], INITIAL)];
      PublishNext(deviceId, queried, revisions[p], number, INITIAL, db1);
    }

    /** `provisionDefaultConfigProject`. */
    method AddDefaultGroups(draft: seq<Group>) returns (groups: seq<Group>)
      modifies this`nextGroupId
      ensures DraftState(vault.secrets, nextGroupId, groups)
              == WithDefaults(DraftState(vault.secrets, old(nextGroupId), draft))
    {
      groups := draft;
      if |groups| == 0 {
        groups := [Group(nextGroupId, ENROLLMENT, false, [], map[]),
                   Group(nextGroupId + 1, DEFAULT_CONFIG, false, [], map[])];
        nextGroupId := nextGroupId + 2;
      }
    }
  }
}
