/** The edits of a draft revision's groups, as functions on the group list and the Vault store. */
module DraftEdits {
  import opened Options
  import opened Tree
  import opened Vault
  import opened SecretKeys
  import opened ConfigModel

  /** `objJson` prints an object as JSON. */
  datatype Engine = Engine(vault: Settings, objJson: Fields -> string)

  /** The groups of one draft together with what editing them may change. */
  datatype DraftState = DraftState(secrets: Secrets, nextId: nat, groups: seq<Group>)

  datatype UpsertDto = UpsertDto(name: string, isGlobal: Option<bool>, sensitiveKeys: Option<seq<string>>,
                                 tree: Option<Fields>)

  function Or<T>(o: Option<T>, default: T): T {
    if o.Some? then o.value else default
  }

  /** The content `upsertGroup` stores for a group: unmask against the stored content, then move
      plaintext into Vault. */
  function UpsertedContent(vault: Settings, secrets: Secrets, groupId: nat, existing: Fields, keys: seq<string>,
                           input: Fields): (Secrets, Fields) {
    var parsed := if existing != map[] then Unmasked(input, existing, keys) else input;
    if vault.enabled then StoredTree(vault.mount, secrets, groupId, parsed, keys) else (secrets, parsed)
  }

  /** The id of the group an upsert of this name edits or creates. */
  function EditedId(d: DraftState, name: string): nat {
    var i := FindGroup(d.groups, name);
    if i >= 0 then d.groups[i].id else d.nextId
  }

  /** `upsertGroup` on the draft's groups. */
  function Upserted(vault: Settings, d: DraftState, dto: UpsertDto): DraftState {
    var i := FindGroup(d.groups, dto.name);
    var was := if i >= 0 then d.groups[i] else Group(d.nextId, dto.name, false, [], map[]);
    var keys := Or(dto.sensitiveKeys, was.sensitiveKeys);
    var (secrets, content) :=
      if dto.tree.Some? then UpsertedContent(vault, d.secrets, was.id, was.content, keys, dto.tree.value)
      else (d.secrets, was.content);
    var group := Group(was.id, was.name, Or(dto.isGlobal, was.isGlobal), keys, content);
    if i >= 0 then DraftState(secrets, d.nextId, d.groups[i := group])
    else DraftState(secrets, d.nextId + 1, d.groups + [group])
  }

  /** `deleteGroupVaultSecrets`. */
  function GroupSecretsDropped(vault: Settings, secrets: Secrets, g: Group): Secrets {
    if vault.enabled then DroppedSecrets(secrets, g.id, g.content, g.sensitiveKeys) else secrets
  }

  /** `deleteGroup` for the group at index `i`. */
  function Removed(vault: Settings, d: DraftState, i: nat): DraftState
    requires i < |d.groups|
  {
    DraftState(GroupSecretsDropped(vault, d.secrets, d.groups[i]), d.nextId, d.groups[..i] + d.groups[i + 1..])
  }

  /** Dropping the secrets of every group of a draft. */
  function AllSecretsDropped(vault: Settings, secrets: Secrets, groups: seq<Group>): Secrets
    decreases |groups|
  {
    if groups == [] then secrets
    else AllSecretsDropped(vault, GroupSecretsDropped(vault, secrets, groups[0]), groups[1..])
  }

  /** `cloneGroupToRevision`. */
  function Cloned(vault: Settings, d: DraftState, source: Group): DraftState {
    var (secrets, content) :=
      if vault.enabled then ClonedTree(vault, d.secrets, d.nextId, source.content, source.sensitiveKeys)
      else (d.secrets, source.content);
    DraftState(secrets, d.nextId + 1, d.groups + [source.(id := d.nextId, content := content)])
  }

  /** Cloning, in order, every source group whose name is not among `present`. */
  function ClonedMissing(vault: Settings, d: DraftState, sources: seq<Group>, present: set<string>): DraftState {
    if sources == [] then d
    else
      var n := |sources| - 1;
      var d' := ClonedMissing(vault, d, sources[..n], present);
      if sources[n].name in present then d' else Cloned(vault, d', sources[n])
  }

  const ENROLLMENT := "getapp_enrollment"
  const DEFAULT_CONFIG := "getapp_config"

  /** `provisionDefaultConfigProject`: two empty groups for a draft that has none. */
  function WithDefaults(d: DraftState): DraftState {
    if d.groups != [] then d
    else DraftState(d.secrets, d.nextId + 2,
                    [Group(d.nextId, ENROLLMENT, false, [], map[]),
                     Group(d.nextId + 1, DEFAULT_CONFIG, false, [], map[])])
  }

  // ---------------------------------------------------------------------------------------
  // Merging config maps into a draft
  // ---------------------------------------------------------------------------------------

  /** One entry of `groupMeta` and `groupData`. */
  datatype MergedGroup = MergedGroup(name: string, isGlobal: bool, keys: seq<string>, data: Fields)

  function MergedNames(merged: seq<MergedGroup>): set<string> {
    set i | 0 <= i < |merged| :: merged[i].name
  }

  function FindMerged(merged: seq<MergedGroup>, name: string): (i: int)
    ensures -1 <= i < |merged|
    ensures i >= 0 ==> merged[i].name == name
    ensures i < 0 <==> name !in MergedNames(merged)
  {
    if merged == [] then -1
    else
      var n := |merged| - 1;
      var i := FindMerged(merged[..n], name);
      assert MergedNames(merged) == MergedNames(merged[..n]) + {merged[n].name};
      if i >= 0 then i else if merged[n].name == name then n else -1
  }

  /** Adding to a `Set` kept in insertion order. */
  function WithKeys(keys: seq<string>, more: seq<string>): seq<string>
    decreases |more|
  {
    if more == [] then keys
    else WithKeys(if more[0] in keys then keys else keys + [more[0]], more[1..])
  }

  /** `resolveGroupYaml` without globals. */
  function ResolvedContent(vault: Settings, secrets: Secrets, g: Group): Fields {
    if vault.enabled then ResolvedTree(vault, secrets, g.content, g.sensitiveKeys) else g.content
  }

  function MergedWith(vault: Settings, secrets: Secrets, merged: seq<MergedGroup>, g: Group): seq<MergedGroup> {
    var i := FindMerged(merged, g.name);
    var resolved := ResolvedContent(vault, secrets, g);
    if i < 0 then merged + [MergedGroup(g.name, g.isGlobal, WithKeys([], g.sensitiveKeys), resolved)]
    else merged[i := merged[i].(keys := WithKeys(merged[i].keys, g.sensitiveKeys), data := merged[i].data + resolved)]
  }

  /** The first loop of `populateDraftFromConfigMaps`, over the groups of all config maps in order. */
  function MergedAll(vault: Settings, secrets: Secrets, groups: seq<Group>): seq<MergedGroup> {
    if groups == [] then []
    else
      var n := |groups| - 1;
      MergedWith(vault, secrets, MergedAll(vault, secrets, groups[..n]), groups[n])
  }

  /** The second loop for one merged group: it replaces the content of the draft group of its name. */
  function PopulatedWith(e: Engine, d: DraftState, m: MergedGroup): DraftState {
    var i := FindGroup(d.groups, m.name);
    var group := if i >= 0 then d.groups[i].(sensitiveKeys := m.keys)
                 else Group(d.nextId, m.name, m.isGlobal, m.keys, map[]);
    var dropped := if i >= 0 then GroupSecretsDropped(e.vault, d.secrets, d.groups[i]) else d.secrets;
    var (secrets, content) :=
      if e.vault.enabled then CopiedTree(e.vault.mount, e.objJson, dropped, group.id, m.data, m.keys)
      else (dropped, m.data);
    if i >= 0 then DraftState(secrets, d.nextId, d.groups[i := group.(content := content)])
    else DraftState(secrets, d.nextId + 1, d.groups + [group.(content := content)])
  }

  function PopulatedAll(e: Engine, d: DraftState, merged: seq<MergedGroup>): DraftState {
    if merged == [] then d
    else
      var n := |merged| - 1;
      PopulatedWith(e, PopulatedAll(e, d, merged[..n]), merged[n])
  }

  /** `populateDraftFromConfigMaps`; `mapGroups` are the groups of the applicable active revisions. */
  function Populated(e: Engine, d: DraftState, mapGroups: seq<Group>): DraftState {
    PopulatedAll(e, d, MergedAll(e.vault, d.secrets, mapGroups))
  }
}
