/** What deleting groups' secrets does to documents that refer to them. */
module DropLaws {
  import opened Options
  import opened Tree
  import opened Vault
  import opened SecretKeys
  import opened ResolvedPaths
  import opened ConfigModel
  import opened DraftEdits
  import opened DraftLaws

  /** The fields that deleting a document's secrets drops. */
  predicate DropsName(groupId: nat, t: Fields, keys: seq<string>, name: string) {
    exists j :: j in keys && IsRefValue(GetByPath(t, j)) && name == SecretName(groupId, j)
  }

  lemma {:induction false} DroppedField(secrets: Secrets, groupId: nat, t: Fields, keys: seq<string>, n: string,
                                        f: string)
    ensures FieldOf(DroppedSecrets(secrets, groupId, t, keys), n, f)
         == if f == CONFIG_FIELD && DropsName(groupId, t, keys, n) then None else FieldOf(secrets, n, f)
    decreases |keys|
  {
    hide SecretName, Deleted, IsRefValue, GetByPath;
    if keys != [] {
      var name := SecretName(groupId, keys[0]);
      var s' := if IsRefValue(GetByPath(t, keys[0])) then Deleted(secrets, name, CONFIG_FIELD) else secrets;
      DroppedField(s', groupId, t, keys[1..], n, f);
      assert keys == [keys[0]] + keys[1..];
      DeletedField(secrets, name, CONFIG_FIELD, n, f);
    }
  }

  /** The reference names a secret that deleting the group's secrets drops. */
  predicate DropsRef(groupId: nat, t: Fields, keys: seq<string>, text: string)
    requires IsVaultRef(text)
  {
    ParseVaultRef(text).field == CONFIG_FIELD && DropsName(groupId, t, keys, ParseVaultRef(text).secretId)
  }

  /** After the deletion loop exactly the references to dropped secrets stop resolving. */
  lemma DroppedResolve(cfg: Settings, secrets: Secrets, groupId: nat, t: Fields, keys: seq<string>, text: string)
    requires IsVaultRef(text)
    ensures Resolved(cfg, DroppedSecrets(secrets, groupId, t, keys), text)
         == if DropsRef(groupId, t, keys, text) then None else Resolved(cfg, secrets, text)
  {
    hide IsVaultRef, Resolved, ParseVaultRef, DroppedSecrets, FieldOf, DropsName;
    var ref := ParseVaultRef(text);
    DroppedField(secrets, groupId, t, keys, ref.secretId, ref.field);
    ResolvedField(cfg, secrets, text);
    ResolvedField(cfg, DroppedSecrets(secrets, groupId, t, keys), text);
  }

  predicate DroppedBy(groups: seq<Group>, text: string)
    requires IsVaultRef(text)
  {
    exists i :: 0 <= i < |groups| && DropsRef(groups[i].id, groups[i].content, groups[i].sensitiveKeys, text)
  }

  lemma {:induction false} AllDroppedResolve(vault: Settings, secrets: Secrets, groups: seq<Group>, text: string)
    requires IsVaultRef(text) && vault.enabled
    ensures Resolved(vault, AllSecretsDropped(vault, secrets, groups), text)
         == if DroppedBy(groups, text) then None else Resolved(vault, secrets, text)
    decreases |groups|
  {
    hide IsVaultRef, Resolved, DropsRef;
    if groups != [] {
      var g, rest := groups[0], groups[1..];
      DroppedResolve(vault, secrets, g.id, g.content, g.sensitiveKeys, text);
      AllDroppedResolve(vault, GroupSecretsDropped(vault, secrets, g), rest, text);
      assert forall i | 0 <= i < |rest| :: rest[i] == groups[i + 1];
      assert DroppedBy(groups, text) <==> DropsRef(g.id, g.content, g.sensitiveKeys, text) || DroppedBy(rest, text) by {
        if DroppedBy(rest, text) {
          var i :| 0 <= i < |rest| && DropsRef(rest[i].id, rest[i].content, rest[i].sensitiveKeys, text);
          assert DropsRef(groups[i + 1].id, groups[i + 1].content, groups[i + 1].sensitiveKeys, text);
        }
      }
    }
  }

  /** A sensitive path of `g` resolves through a secret dropped with one of the groups. */
  predicate UsesDropped(vault: Settings, secrets: Secrets, g: Group, groups: seq<Group>) {
    vault.enabled && exists k ::
        k in g.sensitiveKeys && ResolvesThrough(vault, secrets, GetByPath(g.content, k), groups)
  }

  predicate ResolvesThrough(vault: Settings, secrets: Secrets, v: Value, groups: seq<Group>) {
    IsRefValue(v) && Resolved(vault, secrets, ToText(v)).Some? && DroppedBy(groups, ToText(v))
  }

  /** Deleting the secrets of some groups keeps the resolved content of a group exactly when none of
      its sensitive paths resolves through a dropped secret. */
  lemma DropKeepsIff(vault: Settings, secrets: Secrets, groups: seq<Group>, g: Group)
    requires DirectGroup(vault, secrets, g)
    ensures ResolvedContent(vault, AllSecretsDropped(vault, secrets, groups), g) == ResolvedContent(vault, secrets, g)
       <==> !UsesDropped(vault, secrets, g, groups)
  {
    hide IsVaultRef, Resolved, DroppedBy, ToText, AllSecretsDropped, ResolvedTree, GetByPath;
    if vault.enabled {
      var s' := AllSecretsDropped(vault, secrets, groups);
      forall k | k in g.sensitiveKeys && IsRefValue(GetByPath(g.content, k))
        ensures var text := ToText(GetByPath(g.content, k));
                Resolved(vault, s', text) == if DroppedBy(groups, text) then None else Resolved(vault, secrets, text)
      {
        AllDroppedResolve(vault, secrets, groups, ToText(GetByPath(g.content, k)));
      }
      NullIsNoRef();
      ResolvedAlikeIff(vault, secrets, s', g.content, g.sensitiveKeys);
    }
  }

  lemma NullIsNoRef()
    ensures !IsRefValue(Null)
  {
  }

  /** A sensitive path of `g` names a secret field that reads differently in the two stores. */
  predicate ReadsChanged(vault: Settings, a: Secrets, b: Secrets, g: Group) {
    vault.enabled && exists k :: k in g.sensitiveKeys && NamesChanged(vault, a, b, GetByPath(g.content, k))
  }

  predicate NamesChanged(vault: Settings, a: Secrets, b: Secrets, v: Value) {
    && IsRefValue(v)
    && var ref := ParseVaultRef(ToText(v));
       ref.mount == vault.mount && FieldOf(a, ref.secretId, ref.field) != FieldOf(b, ref.secretId, ref.field)
  }

  /** Whatever happens to Vault, the resolved content of a group stays exactly when every secret field
      its sensitive paths name reads as before. */
  lemma ContentKeptIff(vault: Settings, a: Secrets, b: Secrets, g: Group)
    requires DirectGroup(vault, a, g) && DirectGroup(vault, b, g)
    ensures ResolvedContent(vault, b, g) == ResolvedContent(vault, a, g) <==> !ReadsChanged(vault, a, b, g)
  {
    hide IsVaultRef, Resolved, ToText, ResolvedTree, GetByPath, ParseVaultRef, FieldOf;
    if vault.enabled {
      forall k | k in g.sensitiveKeys && IsRefValue(GetByPath(g.content, k))
        ensures var v := GetByPath(g.content, k);
                Resolved(vault, a, ToText(v)) == Resolved(vault, b, ToText(v)) <==> !NamesChanged(vault, a, b, v)
      {
        ResolvedField(vault, a, ToText(GetByPath(g.content, k)));
        ResolvedField(vault, b, ToText(GetByPath(g.content, k)));
      }
      ResolvedAlikeIff(vault, a, b, g.content, g.sensitiveKeys);
    }
  }
}
