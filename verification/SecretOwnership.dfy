/** Which groups' Vault secrets a document refers to, and what the secret loops may write. */
module SecretOwnership {
  import opened Text
  import opened Tree
  import opened Vault
  import opened SecretKeys
  import opened SecretLaws

  /** The secret belongs to one of the groups `ids`, or to no group at all. */
  ghost predicate Within(name: string, ids: set<nat>) {
    forall h, k :: name == SecretName(h, k) ==> h in ids
  }

  /** The secret belongs to none of the groups `ids`. */
  ghost predicate Outside(name: string, ids: set<nat>) {
    forall h, k :: name == SecretName(h, k) ==> h !in ids
  }

  /** A reference into the service's own mount names a secret of one of the groups `ids`, or one that
      belongs to no group. */
  ghost predicate OwnedText(text: string, mount: string, ids: set<nat>) {
    IsVaultRef(text) && ParseVaultRef(text).mount == mount ==> Within(ParseVaultRef(text).secretId, ids)
  }

  /** Every reference anywhere in the tree is owned by one of the groups `ids`. */
  ghost predicate Owned(v: Value, mount: string, ids: set<nat>) {
    match v
    case Null => true
    case Str(s) => OwnedText(s, mount, ids)
    case Leaf(json, text) => OwnedText(json, mount, ids) && OwnedText(text, mount, ids)
    case Obj(fields) => forall k | k in fields :: Owned(fields[k], mount, ids)
  }

  /** The same for the references at the sensitive paths only. */
  ghost predicate SensOwned(t: Fields, keys: seq<string>, mount: string, ids: set<nat>) {
    forall k | k in keys :: OwnedText(ToText(GetByPath(t, k)), mount, ids)
  }

  /** Every reference held in a secret of the groups `ids`, or of none, is owned by `ids`. */
  ghost predicate Held(secrets: Secrets, mount: string, ids: set<nat>) {
    forall n, f | Within(n, ids) && FieldOf(secrets, n, f).Some? ::
      OwnedText(FieldOf(secrets, n, f).value, mount, ids)
  }

  /** Two stores hold the same secrets for the groups `ids`, and the same secrets of no group. */
  ghost predicate Agree(a: Secrets, b: Secrets, ids: set<nat>) {
    forall n | Within(n, ids) :: SameSecret(a, b, n)
  }

  /** Only secrets of the groups `ids` may differ. */
  ghost predicate OnlyWrites(a: Secrets, b: Secrets, ids: set<nat>) {
    forall n | Outside(n, ids) :: SameSecret(a, b, n)
  }

  lemma NameWithin(groupId: nat, key: string, ids: set<nat>)
    ensures Within(SecretName(groupId, key), ids) <==> groupId in ids
    ensures Outside(SecretName(groupId, key), ids) <==> groupId !in ids
  {
    hide SecretName;
    forall h, k | SecretName(groupId, key) == SecretName(h, k) ensures h == groupId {
      SecretNameInjective(groupId, h, key, k);
    }
  }

  lemma OwnedTextMore(text: string, mount: string, ids: set<nat>, more: set<nat>)
    requires OwnedText(text, mount, ids) && ids <= more
    ensures OwnedText(text, mount, more)
  {
    hide IsVaultRef, SecretName, ParseVaultRef;
  }

  lemma AgreeSelf(s: Secrets, ids: set<nat>)
    ensures Agree(s, s, ids)
  {
    hide Within;
  }

  /** Writing secrets of other groups only keeps the agreement. */
  lemma WritesElsewhere(a: Secrets, b: Secrets, written: set<nat>, ids: set<nat>)
    requires OnlyWrites(a, b, written) && written !! ids
    ensures Agree(a, b, ids)
  {
    hide SecretName, SameSecret;
  }

  // ---------------------------------------------------------------------------------------
  // Ownership and the path helpers
  // ---------------------------------------------------------------------------------------

  lemma {:induction false} OwnedMore(v: Value, mount: string, ids: set<nat>, more: set<nat>)
    requires Owned(v, mount, ids) && ids <= more
    ensures Owned(v, mount, more)
  {
    hide OwnedText;
    match v
    case Null =>
    case Str(s) => OwnedTextMore(s, mount, ids, more);
    case Leaf(json, text) =>
      OwnedTextMore(json, mount, ids, more);
      OwnedTextMore(text, mount, ids, more);
    case Obj(fields) =>
      forall k | k in fields ensures Owned(fields[k], mount, more) {
        OwnedMore(fields[k], mount, ids, more);
      }
  }

  lemma {:induction false} OwnedGet(v: Value, p: Path, mount: string, ids: set<nat>)
    requires Owned(v, mount, ids)
    ensures Owned(Get(v, p), mount, ids)
    decreases |p|
  {
    hide IsVaultRef, RefText;
    if p != [] && v.Obj? && p[0] in v.fields {
      OwnedGet(v.fields[p[0]], p[1..], mount, ids);
    }
  }

  lemma {:induction false} OwnedSet(v: Value, p: Path, x: Value, mount: string, ids: set<nat>)
    requires Owned(v, mount, ids) && Owned(x, mount, ids)
    ensures Owned(Set(v, p, x), mount, ids)
    decreases |p|
  {
    hide IsVaultRef, RefText;
    if p != [] {
      var fields := if v.Obj? then v.fields else map[];
      OwnedSet(if p[0] in fields then fields[p[0]] else Null, p[1..], x, mount, ids);
    }
  }

  lemma {:induction false} OwnedDelete(v: Value, p: Path, mount: string, ids: set<nat>)
    requires Owned(v, mount, ids) && p != []
    ensures Owned(Delete(v, p), mount, ids)
    decreases |p|
  {
    hide IsVaultRef, RefText;
    if v.Obj? && |p| > 1 && p[0] in v.fields {
      OwnedDelete(v.fields[p[0]], p[1..], mount, ids);
    }
  }

  lemma OwnedRef(mount: string, groupId: nat, key: string, ids: set<nat>)
    requires groupId in ids
    ensures OwnedText(RefText(mount, groupId, key), mount, ids)
  {
    hide SecretName, ParseBody, MakeRef, ParseVaultRef, IsVaultRef, Within;
    FieldHasNoHash();
    SecretNameSlash(groupId, key);
    ParseInvertsMake(mount, SecretName(groupId, key), CONFIG_FIELD);
    NameWithin(groupId, key, ids);
  }

  lemma OwnedToText(v: Value, mount: string, ids: set<nat>)
    requires Owned(v, mount, ids)
    ensures OwnedText(ToText(v), mount, ids)
    ensures v.Obj? || v.Null? ==> !IsVaultRef(ToText(v))
  {
    hide RefText;
    assert PREFIX[0] == 'v' && "null"[0] == 'n' && "[object Object]"[0] == '[';
  }

  lemma OwnedAtPaths(t: Fields, keys: seq<string>, mount: string, ids: set<nat>)
    requires Owned(Obj(t), mount, ids)
    ensures SensOwned(t, keys, mount, ids)
  {
    hide Owned, OwnedText, Get;
    forall k | k in keys ensures OwnedText(ToText(GetByPath(t, k)), mount, ids) {
      OwnedGet(Obj(t), Split(k), mount, ids);
      OwnedToText(GetByPath(t, k), mount, ids);
    }
  }

  lemma OwnedMerge(a: Fields, b: Fields, mount: string, ids: set<nat>)
    requires Owned(Obj(a), mount, ids) && Owned(Obj(b), mount, ids)
    ensures Owned(Obj(a + b), mount, ids)
  {
    hide OwnedText;
  }

  // ---------------------------------------------------------------------------------------
  // Single Vault steps
  // ---------------------------------------------------------------------------------------

  lemma StoredWrites(secrets: Secrets, groupId: nat, key: string, value: string, mount: string, ids: set<nat>)
    requires Held(secrets, mount, ids) && OwnedText(value, mount, ids)
    ensures var s' := Stored(secrets, SecretName(groupId, key), CONFIG_FIELD, value);
            Held(s', mount, ids) && OnlyWrites(secrets, s', {groupId})
  {
    hide SecretName, OwnedText, FieldOf, Within, Outside, Stored;
    var s' := Stored(secrets, SecretName(groupId, key), CONFIG_FIELD, value);
    forall n, f | Within(n, ids) && FieldOf(s', n, f).Some? ensures OwnedText(FieldOf(s', n, f).value, mount, ids) {
      StoredField(secrets, SecretName(groupId, key), CONFIG_FIELD, value, n, f);
    }
    forall n | Outside(n, {groupId}) ensures SameSecret(secrets, s', n) {
      NameWithin(groupId, key, {groupId});
      StoredOther(secrets, SecretName(groupId, key), CONFIG_FIELD, value, n);
    }
  }

  lemma StoredOther(secrets: Secrets, name: string, field: string, value: string, n: string)
    ensures n != name ==> SameSecret(secrets, Stored(secrets, name, field, value), n)
    ensures n != name ==> SameSecret(secrets, Deleted(secrets, name, field), n)
  {
  }

  lemma DeletedWrites(secrets: Secrets, groupId: nat, key: string, mount: string, ids: set<nat>)
    requires Held(secrets, mount, ids)
    ensures var s' := Deleted(secrets, SecretName(groupId, key), CONFIG_FIELD);
            Held(s', mount, ids) && OnlyWrites(secrets, s', {groupId})
  {
    hide SecretName, OwnedText, FieldOf, Within, Outside, Deleted;
    var s' := Deleted(secrets, SecretName(groupId, key), CONFIG_FIELD);
    forall n, f | Within(n, ids) && FieldOf(s', n, f).Some? ensures OwnedText(FieldOf(s', n, f).value, mount, ids) {
      DeletedField(secrets, SecretName(groupId, key), CONFIG_FIELD, n, f);
    }
    forall n | Outside(n, {groupId}) ensures SameSecret(secrets, s', n) {
      NameWithin(groupId, key, {groupId});
      StoredOther(secrets, SecretName(groupId, key), CONFIG_FIELD, "", n);
    }
  }

  /** What an owned reference resolves to depends on its owners' secrets only, and is owned. */
  lemma ResolvedOwned(cfg: Settings, a: Secrets, b: Secrets, text: string, ids: set<nat>)
    requires IsVaultRef(text) && OwnedText(text, cfg.mount, ids) && Agree(a, b, ids)
    ensures Resolved(cfg, a, text) == Resolved(cfg, b, text)
  {
    hide IsVaultRef, Within, ParseVaultRef;
  }

  lemma ResolvedIsOwned(cfg: Settings, secrets: Secrets, text: string, ids: set<nat>)
    requires IsVaultRef(text) && OwnedText(text, cfg.mount, ids) && Held(secrets, cfg.mount, ids)
    ensures Resolved(cfg, secrets, text).Some? ==> OwnedText(Resolved(cfg, secrets, text).value, cfg.mount, ids)
    ensures Owned(ResolvedValue(cfg, secrets, text), cfg.mount, ids)
  {
    hide IsVaultRef, Within, ParseVaultRef, Resolved;
    ResolvedField(cfg, secrets, text);
  }

  // ---------------------------------------------------------------------------------------
  // The loops
  // ---------------------------------------------------------------------------------------

  lemma {:induction false} UnmaskedOwned(t: Fields, existing: Fields, keys: seq<string>, mount: string, ids: set<nat>)
    requires Owned(Obj(t), mount, ids) && Owned(Obj(existing), mount, ids)
    ensures Owned(Obj(Unmasked(t, existing, keys)), mount, ids)
    decreases |keys|
  {
    hide IsVaultRef, RefText, OwnedText;
    if keys != [] {
      var p := Split(keys[0]);
      OwnedGet(Obj(existing), p, mount, ids);
      OwnedSet(Obj(t), p, Get(Obj(existing), p), mount, ids);
      OwnedDelete(Obj(t), p, mount, ids);
      var t' :=
        if GetByPath(t, keys[0]) != MASK then t
        else if GetByPath(existing, keys[0]) != Null then SetByPath(t, keys[0], GetByPath(existing, keys[0]))
        else DeleteByPath(t, keys[0]);
      UnmaskedOwned(t', existing, keys[1..], mount, ids);
    }
  }

  lemma {:induction false} StoredTreeEffect(mount: string, secrets: Secrets, groupId: nat, t: Fields,
                                            keys: seq<string>, ids: set<nat>)
    requires Owned(Obj(t), mount, ids) && Held(secrets, mount, ids) && groupId in ids
    ensures var (s', c) := StoredTree(mount, secrets, groupId, t, keys);
            Owned(Obj(c), mount, ids) && Held(s', mount, ids) && OnlyWrites(secrets, s', {groupId})
    decreases |keys|
  {
    hide IsVaultRef, RefText, SecretName, ParseVaultRef, Within, Outside;
    if keys != [] {
      var v := GetByPath(t, keys[0]);
      if v != Null && !IsRefValue(v) {
        StoredWrites(secrets, groupId, keys[0], ToText(v), mount, ids);
        OwnedRef(mount, groupId, keys[0], ids);
        OwnedSet(Obj(t), Split(keys[0]), Str(RefText(mount, groupId, keys[0])), mount, ids);
        StoredTreeEffect(mount, Stored(secrets, SecretName(groupId, keys[0]), CONFIG_FIELD, ToText(v)), groupId,
                         SetByPath(t, keys[0], Str(RefText(mount, groupId, keys[0]))), keys[1..], ids);
      } else {
        StoredTreeEffect(mount, secrets, groupId, t, keys[1..], ids);
      }
    }
  }

  /** No printed JSON object looks like a reference. */
  ghost predicate PrintsObjects(objJson: Fields -> string) {
    forall fields :: !IsVaultRef(objJson(fields))
  }

  lemma {:induction false} CopiedTreeEffect(mount: string, objJson: Fields -> string, secrets: Secrets, groupId: nat,
                                            t: Fields, keys: seq<string>, ids: set<nat>)
    requires Owned(Obj(t), mount, ids) && Held(secrets, mount, ids) && groupId in ids && PrintsObjects(objJson)
    ensures var (s', c) := CopiedTree(mount, objJson, secrets, groupId, t, keys);
            && Owned(Obj(c), mount, ids) && Held(s', mount, ids) && OnlyWrites(secrets, s', {groupId})
            && c.Keys == t.Keys
    decreases |keys|
  {
    hide IsVaultRef, RefText, SecretName, ParseVaultRef, Within, Outside;
    if keys != [] {
      var v := GetByPath(t, keys[0]);
      if v != Null {
        OwnedGet(Obj(t), Split(keys[0]), mount, ids);
        assert OwnedText(PlainText(objJson, v), mount, ids);
        StoredWrites(secrets, groupId, keys[0], PlainText(objJson, v), mount, ids);
        OwnedRef(mount, groupId, keys[0], ids);
        OwnedSet(Obj(t), Split(keys[0]), Str(RefText(mount, groupId, keys[0])), mount, ids);
        SetKeepsKeys(t, Split(keys[0]), Str(RefText(mount, groupId, keys[0])));
        CopiedTreeEffect(mount, objJson,
                         Stored(secrets, SecretName(groupId, keys[0]), CONFIG_FIELD, PlainText(objJson, v)), groupId,
                         SetByPath(t, keys[0], Str(RefText(mount, groupId, keys[0]))), keys[1..], ids);
      } else {
        CopiedTreeEffect(mount, objJson, secrets, groupId, t, keys[1..], ids);
      }
    }
  }

  lemma {:induction false} ClonedTreeEffect(cfg: Settings, secrets: Secrets, groupId: nat, t: Fields,
                                            keys: seq<string>, ids: set<nat>)
    requires Owned(Obj(t), cfg.mount, ids) && Held(secrets, cfg.mount, ids) && groupId in ids
    ensures var (s', c) := ClonedTree(cfg, secrets, groupId, t, keys);
            && Owned(Obj(c), cfg.mount, ids) && Held(s', cfg.mount, ids) && OnlyWrites(secrets, s', {groupId})
            && c.Keys == t.Keys
    decreases |keys|
  {
    hide IsVaultRef, RefText, SecretName, Resolved, OwnedText, Outside;
    if keys != [] {
      var v := GetByPath(t, keys[0]);
      if IsRefValue(v) && Resolved(cfg, secrets, ToText(v)).Some? {
        var plaintext := Resolved(cfg, secrets, ToText(v)).value;
        OwnedGet(Obj(t), Split(keys[0]), cfg.mount, ids);
        OwnedToText(v, cfg.mount, ids);
        ResolvedIsOwned(cfg, secrets, ToText(v), ids);
        StoredWrites(secrets, groupId, keys[0], plaintext, cfg.mount, ids);
        OwnedRef(cfg.mount, groupId, keys[0], ids);
        OwnedSet(Obj(t), Split(keys[0]), Str(RefText(cfg.mount, groupId, keys[0])), cfg.mount, ids);
        SetKeepsKeys(t, Split(keys[0]), Str(RefText(cfg.mount, groupId, keys[0])));
        ClonedTreeEffect(cfg, Stored(secrets, SecretName(groupId, keys[0]), CONFIG_FIELD, plaintext), groupId,
                         SetByPath(t, keys[0], Str(RefText(cfg.mount, groupId, keys[0]))), keys[1..], ids);
      } else {
        ClonedTreeEffect(cfg, secrets, groupId, t, keys[1..], ids);
      }
    }
  }

  lemma {:induction false} DroppedSecretsEffect(secrets: Secrets, groupId: nat, t: Fields, keys: seq<string>,
                                                mount: string, ids: set<nat>)
    requires Held(secrets, mount, ids)
    ensures var s' := DroppedSecrets(secrets, groupId, t, keys);
            Held(s', mount, ids) && OnlyWrites(secrets, s', {groupId})
    decreases |keys|
  {
    hide IsVaultRef, RefText, SecretName, OwnedText, Outside;
    if keys != [] {
      DeletedWrites(secrets, groupId, keys[0], mount, ids);
      var s' := if IsRefValue(GetByPath(t, keys[0])) then Deleted(secrets, SecretName(groupId, keys[0]), CONFIG_FIELD)
                else secrets;
      DroppedSecretsEffect(s', groupId, t, keys[1..], mount, ids);
    }
  }

  /** A document resolves alike in two stores that agree on the secrets of the groups owning its
      references; resolving keeps the ownership and the top-level keys. */
  lemma {:induction false} ResolvedTreeFrame(cfg: Settings, a: Secrets, b: Secrets, t: Fields, keys: seq<string>,
                                             ids: set<nat>)
    requires Owned(Obj(t), cfg.mount, ids) && Held(a, cfg.mount, ids) && Agree(a, b, ids)
    ensures ResolvedTree(cfg, a, t, keys) == ResolvedTree(cfg, b, t, keys)
    ensures Owned(Obj(ResolvedTree(cfg, a, t, keys)), cfg.mount, ids)
    decreases |keys|
  {
    hide IsVaultRef, RefText, SecretName, Resolved, OwnedText, Outside;
    if keys != [] {
      var p := Split(keys[0]);
      var v := GetByPath(t, keys[0]);
      if IsRefValue(v) {
        OwnedGet(Obj(t), p, cfg.mount, ids);
        OwnedToText(v, cfg.mount, ids);
        ResolvedOwned(cfg, a, b, ToText(v), ids);
        ResolvedIsOwned(cfg, a, ToText(v), ids);
        OwnedSet(Obj(t), p, ResolvedValue(cfg, a, ToText(v)), cfg.mount, ids);
        ResolvedTreeFrame(cfg, a, b, SetByPath(t, keys[0], ResolvedValue(cfg, a, ToText(v))), keys[1..], ids);
      } else {
        ResolvedTreeFrame(cfg, a, b, t, keys[1..], ids);
      }
    }
  }

  lemma {:induction false} ResolvedTreeKeys(cfg: Settings, secrets: Secrets, t: Fields, keys: seq<string>)
    ensures ResolvedTree(cfg, secrets, t, keys).Keys == t.Keys
    decreases |keys|
  {
    hide IsVaultRef, Resolved;
    if keys != [] {
      var v := GetByPath(t, keys[0]);
      if IsRefValue(v) {
        var x := ResolvedValue(cfg, secrets, ToText(v));
        SetKeepsKeys(t, Split(keys[0]), x);
        ResolvedTreeKeys(cfg, secrets, SetByPath(t, keys[0], x), keys[1..]);
      } else {
        ResolvedTreeKeys(cfg, secrets, t, keys[1..]);
      }
    }
  }
}
