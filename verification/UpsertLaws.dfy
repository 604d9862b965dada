/** What saving and deleting a group of a draft mean: the group gets what the client sent, its secrets
    move to Vault, and everything else in the draft stays. */
module UpsertLaws {
  import opened Text
  import opened Tree
  import opened Vault
  import opened SecretKeys
  import opened SecretLaws
  import opened ResolvedPaths
  import opened ConfigModel
  import opened DraftEdits
  import opened DraftNames
  import opened CloneContents
  import opened VaultWrites
  import opened KeyPaths

  /** The draft's group of that name, or the empty one that is created under the next id. */
  function GroupNamed(d: DraftState, name: string): Group {
    var i := FindGroup(d.groups, name);
    if i >= 0 then d.groups[i] else Group(d.nextId, name, false, [], map[])
  }

  /** The group of that name was edited in place or added last, under the next id; every other group
      is where and what it was. */
  ghost predicate OnlyEdits(d: DraftState, name: string, d': DraftState) {
    var i := FindGroup(d.groups, name);
    var at := if i >= 0 then i else |d.groups|;
    && FindGroup(d'.groups, name) == at
    && |d'.groups| == (if i >= 0 then |d.groups| else |d.groups| + 1)
    && d'.nextId == (if i >= 0 then d.nextId else d.nextId + 1)
    && d'.groups[at].id == (if i >= 0 then d.groups[i].id else d.nextId)
    && forall j | 0 <= j < |d.groups| && j != at :: d'.groups[j] == d.groups[j]
  }

  /** The flag and the sensitive paths are those sent, or else the former ones, which are none for a new
      group; without a document nothing but these changes. */
  ghost predicate TakesFields(dto: UpsertDto, was: Group, g: Group) {
    && g.isGlobal == (if dto.isGlobal.Some? then dto.isGlobal.value else was.isGlobal)
    && g.sensitiveKeys == (if dto.sensitiveKeys.Some? then dto.sensitiveKeys.value else was.sensitiveKeys)
    && (dto.tree.None? ==> g.content == was.content)
  }

  /** What the client means at a sensitive path: `***` over a group with content is the value there. */
  function Meant(was: Group, sent: Fields, key: string): Value {
    if was.content != map[] && GetByPath(sent, key) == MASK then GetByPath(was.content, key) else GetByPath(sent, key)
  }

  /** At a sensitive path the group holds what the client means, or with Vault the path's own reference
      in place of a plain value. */
  ghost predicate TakesKey(vault: Settings, was: Group, sent: Fields, g: Group, key: string) {
    var v := Meant(was, sent, key);
    GetByPath(g.content, key) == if vault.enabled && Plain(v) then Str(RefText(vault.mount, was.id, key)) else v
  }

  /** What readers see at a sensitive path: a plain value as text, unless the path has a '/', which
      makes its reference unreadable; a reference as what it resolves to, which changed exactly when the
      upsert stored another text under the secret it names, and never for the path's own reference. */
  ghost predicate ShowsKey(vault: Settings, before: Secrets, w: Writes, was: Group, sent: Fields, after: Secrets,
                           g: Group, key: string) {
    var v, shown := Meant(was, sent, key), GetByPath(ResolvedContent(vault, after, g), key);
    && (v == Null ==> shown == Null)
    && (Plain(v) && Sole(g.sensitiveKeys, key) ==> shown == if '/' in key then Null else Str(ToText(v)))
    && (IsRefValue(v) ==>
          && (DirectAt(vault, after, g, key) ==> shown == ResolvedValue(vault, after, ToText(v)))
          && (Resolved(vault, after, ToText(v)) == Resolved(vault, before, ToText(v)) <==>
              !DisturbsPath(vault, before, w, v))
          && (v == Str(RefText(vault.mount, was.id, key)) && Sole(g.sensitiveKeys, key) ==>
                !DisturbsPath(vault, before, w, v)))
  }

  /** Resolving does not meet the path's resolved text again as a reference. */
  ghost predicate DirectAt(vault: Settings, secrets: Secrets, g: Group, key: string) {
    Once(g.sensitiveKeys) || !IsRefValue(ResolvedValue(vault, secrets, ToText(GetByPath(g.content, key))))
  }

  /** Everything an upsert means for the draft. */
  ghost predicate UpsertedAs(vault: Settings, d: DraftState, dto: UpsertDto, d': DraftState) {
    var was, g, w := GroupNamed(d, dto.name), GroupNamed(d', dto.name), UpsertWrites(vault, d, dto);
    && OnlyEdits(d, dto.name, d') && TakesFields(dto, was, g)
    && (dto.tree.None? ==> d'.secrets == d.secrets)
    && (dto.tree.Some? ==> forall p | Unrelated(g.sensitiveKeys, p) ::
          && Get(Obj(g.content), p) == Get(Obj(dto.tree.value), p)
          && Get(Obj(ResolvedContent(vault, d'.secrets, g)), p) == Get(Obj(dto.tree.value), p))
    && (dto.tree.Some? ==> forall k | k in g.sensitiveKeys && Clear(g.sensitiveKeys, k) ::
          && TakesKey(vault, was, dto.tree.value, g, k)
          && (vault.enabled ==> ShowsKey(vault, d.secrets, w, was, dto.tree.value, d'.secrets, g, k)))
  }

  // ---------------------------------------------------------------------------------------
  // The proofs, group by group and path by path
  // ---------------------------------------------------------------------------------------

  /** The place of the edited group, and what an upsert makes of it. */
  lemma UpsertPlaces(vault: Settings, d: DraftState, dto: UpsertDto)
    requires UniqueNames(d.groups)
    ensures var i, d', was := FindGroup(d.groups, dto.name), Upserted(vault, d, dto), GroupNamed(d, dto.name);
            var at, g := if i >= 0 then i else |d.groups|, GroupNamed(d', dto.name);
            && FindGroup(d'.groups, dto.name) == at < |d'.groups| && d'.groups[at] == g
            && g.id == was.id && g.name == was.name
            && g.isGlobal == Or(dto.isGlobal, was.isGlobal)
              && g.sensitiveKeys == Or(dto.sensitiveKeys, was.sensitiveKeys)
            && (dto.tree.None? ==> d'.secrets == d.secrets && g.content == was.content)
            && (dto.tree.Some? ==>
                  (d'.secrets, g.content) ==
                  UpsertedContent(vault, d.secrets, was.id, was.content, g.sensitiveKeys, dto.tree.value))
  {
    hide UpsertedContent, UniqueNames, FindGroup, GroupNames;
    UpsertNames(vault, d, dto);
    var i, d' := FindGroup(d.groups, dto.name), Upserted(vault, d, dto);
    FoundAt(d'.groups, if i >= 0 then i else |d.groups|);
  }

  lemma UpsertEdits(vault: Settings, d: DraftState, dto: UpsertDto)
    requires UniqueNames(d.groups)
    ensures var d' := Upserted(vault, d, dto);
            OnlyEdits(d, dto.name, d') && TakesFields(dto, GroupNamed(d, dto.name), GroupNamed(d', dto.name))
    ensures dto.tree.None? ==> Upserted(vault, d, dto).secrets == d.secrets
  {
    hide UpsertedContent, UniqueNames, FindGroup, GroupNames;
    UpsertPlaces(vault, d, dto);
  }

  /** The document an upsert with content writes. */
  lemma UpsertWritesContent(vault: Settings, d: DraftState, dto: UpsertDto)
    requires UniqueNames(d.groups) && dto.tree.Some?
    ensures var d' := Upserted(vault, d, dto);
            var was, g := GroupNamed(d, dto.name), GroupNamed(d', dto.name);
            (d'.secrets, g.content) ==
            UpsertedContent(vault, d.secrets, was.id, was.content, g.sensitiveKeys, dto.tree.value)
  {
    hide UpsertedContent, UniqueNames, FindGroup, GroupNames, Upserted;
    UpsertPlaces(vault, d, dto);
  }

  lemma ContentUnrelated(vault: Settings, secrets: Secrets, groupId: nat, existing: Fields, keys: seq<string>,
                         sent: Fields, p: Path)
    requires Unrelated(keys, p)
    ensures Get(Obj(UpsertedContent(vault, secrets, groupId, existing, keys, sent).1), p) == Get(Obj(sent), p)
  {
    hide Split, Get, Unmasked, StoredTree, Unrelated;
    UnmaskedUnrelated(sent, existing, keys, p);
    StoredUnrelated(vault.mount, secrets, groupId, if existing != map[] then Unmasked(sent, existing, keys) else sent,
                    keys, p);
  }

  lemma ResolvedContentUnrelated(vault: Settings, secrets: Secrets, g: Group, p: Path)
    requires Unrelated(g.sensitiveKeys, p)
    ensures Get(Obj(ResolvedContent(vault, secrets, g)), p) == Get(Obj(g.content), p)
  {
    hide Split, Get, ResolvedTree, Unrelated;
    ResolvedUnrelated(vault, secrets, g.content, g.sensitiveKeys, p);
  }

  lemma ContentAt(vault: Settings, secrets: Secrets, was: Group, keys: seq<string>, sent: Fields, k: string)
    requires k in keys && Clear(keys, k)
    ensures var (s', c) := UpsertedContent(vault, secrets, was.id, was.content, keys, sent);
            var v := Meant(was, sent, k);
            GetByPath(c, k) == if vault.enabled && Plain(v) then Str(RefText(vault.mount, was.id, k)) else v
  {
    hide GetByPath, Unmasked, StoredTree, Clear, IsRefValue, RefText;
    UnmaskedAt(sent, was.content, keys, k);
    StoredAt(vault.mount, secrets, was.id, if was.content != map[] then Unmasked(sent, was.content, keys) else sent,
             keys, k);
  }

  /** What an upsert writes under a path's own secret name. */
  lemma OwnWrite(vault: Settings, d: DraftState, dto: UpsertDto, keys: seq<string>, k: string)
    requires vault.enabled && dto.tree.Some? && k in keys && Clear(keys, k) && Sole(keys, k)
    requires keys == Or(dto.sensitiveKeys, GroupNamed(d, dto.name).sensitiveKeys)
    ensures var was := GroupNamed(d, dto.name);
            var v := Meant(was, dto.tree.value, k);
            UpsertWrites(vault, d, dto)(SecretName(was.id, k)) == if Plain(v) then Put(ToText(v)) else Same
  {
    hide GetByPath, Unmasked, StoreWrite, Clear, Sole, IsRefValue, RefText, SecretName, ToText;
    var was := GroupNamed(d, dto.name);
    var parsed := if was.content != map[] then Unmasked(dto.tree.value, was.content, keys) else dto.tree.value;
    UnmaskedAt(dto.tree.value, was.content, keys, k);
    StoreWriteAt(vault.mount, was.id, parsed, keys, k);
  }

  lemma UpsertShows(vault: Settings, d: DraftState, dto: UpsertDto, k: string)
    requires UniqueNames(d.groups) && vault.enabled && dto.tree.Some?
    requires var keys := GroupNamed(Upserted(vault, d, dto), dto.name).sensitiveKeys; k in keys && Clear(keys, k)
    ensures var d' := Upserted(vault, d, dto);
            ShowsKey(vault, d.secrets, UpsertWrites(vault, d, dto), GroupNamed(d, dto.name), dto.tree.value, d'.secrets,
                     GroupNamed(d', dto.name), k)
  {
    hide GetByPath, Clear, IsVaultRef, RefText, SecretName, ToText, Upserted, UpsertedContent, UpsertWrites, Meant,
         ResolvedTree, Resolved, Sole, Once, FieldOf, Does, DisturbsPath, UniqueNames, GroupNamed, FindGroup;
    var d', was, w := Upserted(vault, d, dto), GroupNamed(d, dto.name), UpsertWrites(vault, d, dto);
    var g, v := GroupNamed(d', dto.name), Meant(was, dto.tree.value, k);
    UpsertWritesContent(vault, d, dto);
    UpsertEdits(vault, d, dto);
    ContentAt(vault, d.secrets, was, g.sensitiveKeys, dto.tree.value, k);
    UpsertDoes(vault, d, dto);
    RefTextIsRef(vault.mount, was.id, k);
    TextIsString(RefText(vault.mount, was.id, k));
    ResolvedOwnRef(vault, d'.secrets, was.id, k);
    if Sole(g.sensitiveKeys, k) {
      OwnWrite(vault, d, dto, g.sensitiveKeys, k);
      OwnTextAfter(d.secrets, d'.secrets, w, was.id, k);
    }
    if IsRefValue(v) {
      ReadsIff(vault, d.secrets, d'.secrets, w, v);
      if v == Str(RefText(vault.mount, was.id, k)) && Sole(g.sensitiveKeys, k) {
        OwnUndisturbed(vault, d.secrets, w, was.id, k);
      }
      if DirectAt(vault, d'.secrets, g, k) { ResolvedClear(vault, d'.secrets, g.content, g.sensitiveKeys, k); }
    } else if v == Null {
      ResolvedStays(vault, d'.secrets, g.content, g.sensitiveKeys, k);
    } else if Sole(g.sensitiveKeys, k) {
      TextIsString(ToText(v));
      ResolvedClear(vault, d'.secrets, g.content, g.sensitiveKeys, k);
    }
  }

  lemma TextIsString(s: string)
    ensures ToText(Str(s)) == s && IsRefValue(Str(s)) == IsVaultRef(s)
  {
  }

  lemma OwnTextAfter(a: Secrets, b: Secrets, w: Writes, groupId: nat, k: string)
    requires Does(a, b, w)
    ensures SecretText(b, groupId, k) == Read(SecretText(a, groupId, k), w(SecretName(groupId, k)))
  {
    hide SecretName, FieldOf;
  }

  /** A reference reads the same after the writes exactly when they do not disturb it. */
  lemma ReadsIff(vault: Settings, a: Secrets, b: Secrets, w: Writes, v: Value)
    requires Does(a, b, w) && IsRefValue(v)
    ensures Resolved(vault, b, ToText(v)) == Resolved(vault, a, ToText(v)) <==> !DisturbsPath(vault, a, w, v)
  {
    hide IsVaultRef, Resolved, ToText, ParseVaultRef, FieldOf;
    var ref := ParseVaultRef(ToText(v));
    ResolvedField(vault, a, ToText(v));
    ResolvedField(vault, b, ToText(v));
    assert FieldOf(b, ref.secretId, ref.field) == if ref.field == CONFIG_FIELD
                                                  then Read(FieldOf(a, ref.secretId, ref.field), w(ref.secretId))
                                                  else FieldOf(a, ref.secretId, ref.field);
  }

  /** A group's own reference is disturbed only by a write under its name. */
  lemma OwnUndisturbed(vault: Settings, secrets: Secrets, w: Writes, groupId: nat, k: string)
    requires w(SecretName(groupId, k)) == Same
    ensures !DisturbsPath(vault, secrets, w, Str(RefText(vault.mount, groupId, k)))
  {
    hide IsVaultRef, SecretName, ParseVaultRef, FieldOf;
    FieldHasNoHash();
    SecretNameSlash(groupId, k);
    ParseInvertsMake(vault.mount, SecretName(groupId, k), CONFIG_FIELD);
    if '/' in k {
      assert ParseVaultRef(RefText(vault.mount, groupId, k)).mount != vault.mount;
    }
  }

  lemma UpsertMeans(vault: Settings, d: DraftState, dto: UpsertDto)
    requires UniqueNames(d.groups)
    ensures UpsertedAs(vault, d, dto, Upserted(vault, d, dto))
  {
    hide Get, GetByPath, Clear, Unrelated, IsVaultRef, RefText, Upserted, UpsertedContent, UpsertWrites, Meant,
         ResolvedContent, ShowsKey, UniqueNames, GroupNamed, OnlyEdits, TakesFields;
    var d' := Upserted(vault, d, dto);
    var was, g := GroupNamed(d, dto.name), GroupNamed(d', dto.name);
    UpsertEdits(vault, d, dto);
    if dto.tree.Some? {
      UpsertWritesContent(vault, d, dto);
      forall p | Unrelated(g.sensitiveKeys, p)
        ensures Get(Obj(g.content), p) == Get(Obj(dto.tree.value), p)
        ensures Get(Obj(ResolvedContent(vault, d'.secrets, g)), p) == Get(Obj(dto.tree.value), p)
      {
        ContentUnrelated(vault, d.secrets, was.id, was.content, g.sensitiveKeys, dto.tree.value, p);
        ResolvedContentUnrelated(vault, d'.secrets, g, p);
      }
      forall k | k in g.sensitiveKeys && Clear(g.sensitiveKeys, k)
        ensures TakesKey(vault, was, dto.tree.value, g, k)
        ensures vault.enabled ==> ShowsKey(vault, d.secrets, UpsertWrites(vault, d, dto), was, dto.tree.value,
                                           d'.secrets, g, k)
      {
        ContentAt(vault, d.secrets, was, g.sensitiveKeys, dto.tree.value, k);
        if vault.enabled { UpsertShows(vault, d, dto, k); }
      }
    }
  }

  // ---------------------------------------------------------------------------------------
  // Deleting a group
  // ---------------------------------------------------------------------------------------

  /** The groups of other names, in their order, and no group of this name. */
  ghost predicate RemovedFrom(groups: seq<Group>, name: string, rest: seq<Group>) {
    && |groups| == |rest| + 1 && name !in GroupNames(rest)
    && exists i | 0 <= i < |groups| :: rest == groups[..i] + groups[i + 1..]
  }

  lemma RemovedIs(vault: Settings, d: DraftState, i: nat)
    requires i < |d.groups| && UniqueNames(d.groups)
    ensures var d' := Removed(vault, d, i);
            && RemovedFrom(d.groups, d.groups[i].name, d'.groups) && d'.nextId == d.nextId
            && d'.secrets == GroupSecretsDropped(vault, d.secrets, d.groups[i])
  {
    hide GroupSecretsDropped, UniqueNames, GroupNames;
    RemoveNames(vault, d, i);
  }
}
