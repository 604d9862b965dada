/** The loops over a group's sensitive key paths: masking, unmasking, moving plaintext into
    Vault, resolving it back, and copying it for another group. */
module SecretKeys {
  import opened Text
  import opened Tree
  import opened Vault

  const MASK := Str("***")

  /** One Vault secret per sensitive key path. */
  function SecretName(groupId: nat, key: string): string {
    "config-group-" + Dec(groupId) + "-key-" + ReplaceDots(key)
  }

  function RefText(mount: string, groupId: nat, key: string): string {
    MakeRef(mount, SecretName(groupId, key), CONFIG_FIELD)
  }

  predicate IsRefValue(v: Value) {
    v != Null && IsVaultRef(ToText(v))
  }

  // ---------------------------------------------------------------------------------------
  // What the loops compute
  // ---------------------------------------------------------------------------------------

  /** The masked view of `mapGroupToDto`. */
  function Masked(t: Fields, keys: seq<string>): Fields
    decreases |keys|
  {
    if keys == [] then t
    else Masked(if GetByPath(t, keys[0]) != Null then SetByPath(t, keys[0], MASK) else t, keys[1..])
  }

  /** The unmask loop of `upsertGroup`. */
  function Unmasked(t: Fields, existing: Fields, keys: seq<string>): Fields
    decreases |keys|
  {
    if keys == [] then t
    else
      var t' :=
        if GetByPath(t, keys[0]) != MASK then t
        else if GetByPath(existing, keys[0]) != Null then SetByPath(t, keys[0], GetByPath(existing, keys[0]))
        else DeleteByPath(t, keys[0]);
      Unmasked(t', existing, keys[1..])
  }

  /** The store loop of `upsertGroup`: plaintext goes to Vault, a reference takes its place. */
  function StoredTree(mount: string, secrets: Secrets, groupId: nat, t: Fields, keys: seq<string>): (Secrets, Fields)
    decreases |keys|
  {
    if keys == [] then (secrets, t)
    else
      var v := GetByPath(t, keys[0]);
      if v != Null && !IsRefValue(v) then
        StoredTree(mount, Stored(secrets, SecretName(groupId, keys[0]), CONFIG_FIELD, ToText(v)), groupId,
                   SetByPath(t, keys[0], Str(RefText(mount, groupId, keys[0]))), keys[1..])
      else StoredTree(mount, secrets, groupId, t, keys[1..])
  }

  /** The store loop of `populateDraftFromConfigMaps`: every present value is stored, strings as
      they are and anything else as JSON, where `objJson` prints objects. */
  function CopiedTree(mount: string, objJson: Fields -> string, secrets: Secrets, groupId: nat, t: Fields,
                      keys: seq<string>)
    : (Secrets, Fields)
    decreases |keys|
  {
    if keys == [] then (secrets, t)
    else
      var v := GetByPath(t, keys[0]);
      if v != Null then
        CopiedTree(mount, objJson, Stored(secrets, SecretName(groupId, keys[0]), CONFIG_FIELD, PlainText(objJson, v)),
                   groupId,
                   SetByPath(t, keys[0], Str(RefText(mount, groupId, keys[0]))), keys[1..])
      else CopiedTree(mount, objJson, secrets, groupId, t, keys[1..])
  }

  /** The text stored for a value: a string as it is, anything else as JSON. */
  function PlainText(objJson: Fields -> string, v: Value): string {
    match v
    case Null => "null"
    case Str(s) => s
    case Leaf(json, _) => json
    case Obj(fields) => objJson(fields)
  }

  /** A resolved reference as the tree value that replaces it. */
  function ResolvedValue(cfg: Settings, secrets: Secrets, text: string): Value {
    match Resolved(cfg, secrets, text)
    case Some(s) => Str(s)
    case None => Null
  }

  /** The resolve loop of `resolveGroupYaml`. */
  function ResolvedTree(cfg: Settings, secrets: Secrets, t: Fields, keys: seq<string>): Fields
    decreases |keys|
  {
    if keys == [] then t
    else
      var v := GetByPath(t, keys[0]);
      var t' := if IsRefValue(v) then SetByPath(t, keys[0], ResolvedValue(cfg, secrets, ToText(v))) else t;
      ResolvedTree(cfg, secrets, t', keys[1..])
  }

  /** The re-store loop of `cloneGroupToRevision`; a reference that does not resolve is kept. */
  function ClonedTree(cfg: Settings, secrets: Secrets, groupId: nat, t: Fields, keys: seq<string>): (Secrets, Fields)
    decreases |keys|
  {
    if keys == [] then (secrets, t)
    else
      var v := GetByPath(t, keys[0]);
      if IsRefValue(v) && Resolved(cfg, secrets, ToText(v)).Some? then
        ClonedTree(cfg, Stored(secrets, SecretName(groupId, keys[0]), CONFIG_FIELD,
                               Resolved(cfg, secrets, ToText(v)).value),
                   groupId, SetByPath(t, keys[0], Str(RefText(cfg.mount, groupId, keys[0]))), keys[1..])
      else ClonedTree(cfg, secrets, groupId, t, keys[1..])
  }

  /** The loop of `deleteGroupVaultSecrets`. */
  function DroppedSecrets(secrets: Secrets, groupId: nat, t: Fields, keys: seq<string>): Secrets
    decreases |keys|
  {
    if keys == [] then secrets
    else
      var s' := if IsRefValue(GetByPath(t, keys[0])) then Deleted(secrets, SecretName(groupId, keys[0]), CONFIG_FIELD)
                else secrets;
      DroppedSecrets(s', groupId, t, keys[1..])
  }

  // ---------------------------------------------------------------------------------------
  // The loops themselves
  // ---------------------------------------------------------------------------------------

  method MaskKeys(content: Fields, keys: seq<string>) returns (parsed: Fields)
    ensures parsed == Masked(content, keys)
  {
    parsed := content;
    for i := 0 to |keys|
      invariant Masked(parsed, keys[i..]) == Masked(content, keys)
    {
      if GetByPath(parsed, keys[i]) != Null {
        parsed := SetByPath(parsed, keys[i], MASK);
      }
      assert keys[i..][1..] == keys[i + 1..];
    }
  }

  method UnmaskKeys(input: Fields, existing: Fields, keys: seq<string>) returns (parsed: Fields)
    ensures parsed == Unmasked(input, existing, keys)
  {
    parsed := input;
    for i := 0 to |keys|
      invariant Unmasked(parsed, existing, keys[i..]) == Unmasked(input, existing, keys)
    {
      if GetByPath(parsed, keys[i]) == MASK {
        var existingValue := GetByPath(existing, keys[i]);
        if existingValue != Null {
          parsed := SetByPath(parsed, keys[i], existingValue);
        } else {
          parsed := DeleteByPath(parsed, keys[i]);
        }
      }
      assert keys[i..][1..] == keys[i + 1..];
    }
  }

  method StoreKeys(vault: VaultService, groupId: nat, input: Fields, keys: seq<string>) returns (parsed: Fields)
    modifies vault
    ensures (vault.secrets, parsed) == StoredTree(vault.cfg.mount, old(vault.secrets), groupId, input, keys)
  {
    parsed := input;
    for i := 0 to |keys|
      invariant StoredTree(vault.cfg.mount, vault.secrets, groupId, parsed, keys[i..])
             == StoredTree(vault.cfg.mount, old(vault.secrets), groupId, input, keys)
    {
      var value := GetByPath(parsed, keys[i]);
      if value != Null && !IsVaultRef(ToText(value)) {
        var ref := vault.StoreSecret(SecretName(groupId, keys[i]), CONFIG_FIELD, ToText(value));
        parsed := SetByPath(parsed, keys[i], Str(ref));
      }
      assert keys[i..][1..] == keys[i + 1..];
    }
  }

  method CopyKeys(vault: VaultService, objJson: Fields -> string, groupId: nat, input: Fields,
                  keys: seq<string>) returns (merged: Fields)
    modifies vault
    ensures (vault.secrets, merged) == CopiedTree(vault.cfg.mount, objJson, old(vault.secrets), groupId, input, keys)
  {
    merged := input;
    for i := 0 to |keys|
      invariant CopiedTree(vault.cfg.mount, objJson, vault.secrets, groupId, merged, keys[i..])
             == CopiedTree(vault.cfg.mount, objJson, old(vault.secrets), groupId, input, keys)
    {
      var value := GetByPath(merged, keys[i]);
      if value != Null {
        var ref := vault.StoreSecret(SecretName(groupId, keys[i]), CONFIG_FIELD, PlainText(objJson, value));
        merged := SetByPath(merged, keys[i], Str(ref));
      }
      assert keys[i..][1..] == keys[i + 1..];
    }
  }

  method ResolveKeys(vault: VaultService, content: Fields, keys: seq<string>) returns (parsed: Fields)
    ensures parsed == ResolvedTree(vault.cfg, vault.secrets, content, keys)
  {
    hide Resolved, IsVaultRef;
    parsed := content;
    for i := 0 to |keys|
      invariant ResolvedTree(vault.cfg, vault.secrets, parsed, keys[i..])
                == ResolvedTree(vault.cfg, vault.secrets, content, keys)
    {
      var value := GetByPath(parsed, keys[i]);
      if value != Null && IsVaultRef(ToText(value)) {
        var resolved := vault.ResolveSecret(ToText(value));
        parsed := SetByPath(parsed, keys[i], if resolved.Some? then Str(resolved.value) else Null);
      }
      assert keys[i..][1..] == keys[i + 1..];
    }
  }

  method CloneKeys(vault: VaultService, groupId: nat, content: Fields, keys: seq<string>) returns (parsed: Fields)
    modifies vault
    ensures (vault.secrets, parsed) == ClonedTree(vault.cfg, old(vault.secrets), groupId, content, keys)
  {
    parsed := content;
    for i := 0 to |keys|
      invariant ClonedTree(vault.cfg, vault.secrets, groupId, parsed, keys[i..])
             == ClonedTree(vault.cfg, old(vault.secrets), groupId, content, keys)
    {
      var value := GetByPath(parsed, keys[i]);
      if value != Null && IsVaultRef(ToText(value)) {
        var plaintext := vault.ResolveSecret(ToText(value));
        if plaintext.Some? {
          var ref := vault.StoreSecret(SecretName(groupId, keys[i]), CONFIG_FIELD, plaintext.value);
          parsed := SetByPath(parsed, keys[i], Str(ref));
        }
      }
      assert keys[i..][1..] == keys[i + 1..];
    }
  }

  method DropKeys(vault: VaultService, groupId: nat, content: Fields, keys: seq<string>)
    requires vault.cfg.enabled
    modifies vault
    ensures vault.secrets == DroppedSecrets(old(vault.secrets), groupId, content, keys)
  {
    for i := 0 to |keys|
      invariant DroppedSecrets(vault.secrets, groupId, content, keys[i..])
                == DroppedSecrets(old(vault.secrets), groupId, content, keys)
    {
      var value := GetByPath(content, keys[i]);
      if value != Null && IsVaultRef(ToText(value)) {
        vault.DeleteSecret(SecretName(groupId, keys[i]), CONFIG_FIELD);
      }
      assert keys[i..][1..] == keys[i + 1..];
    }
  }
}
