/** Which values, flags and sensitive paths the config maps merge into, and what storing the merged
    values for a group leaves for its readers. */
module MergeLaws {
  import opened Text
  import opened Tree
  import opened Vault
  import opened SecretKeys
  import opened SecretLaws
  import opened ResolvedPaths
  import opened ConfigModel
  import opened DraftEdits
  import opened DraftNames
  import opened PopulateLaws
  import opened Payload
  import Versioning
  import opened KeyPaths

  // ---------------------------------------------------------------------------------------
  // Merging
  // ---------------------------------------------------------------------------------------

  /** The resolved contents of the groups of one name, in order. */
  function AllNamed(vault: Settings, secrets: Secrets, groups: seq<Group>, name: string): seq<Fields> {
    if groups == [] then []
    else
      var n := |groups| - 1;
      AllNamed(vault, secrets, groups[..n], name)
      + (if groups[n].name == name then [ResolvedContent(vault, secrets, groups[n])] else [])
  }

  /** A group of that name lists the sensitive path. */
  ghost predicate KeyNamed(groups: seq<Group>, name: string, key: string) {
    exists i :: 0 <= i < |groups| && groups[i].name == name && key in groups[i].sensitiveKeys
  }

  /** The merged group has the flag of the first group of its name, each sensitive path of any of them
      once, and for every key the value of the last one that mentions the key. */
  ghost predicate MergedFrom(vault: Settings, secrets: Secrets, groups: seq<Group>, m: MergedGroup) {
    var i := FindGroup(groups, m.name);
    && i >= 0 && m.isGlobal == groups[i].isGlobal
    && Once(m.keys) && (forall k :: k in m.keys <==> KeyNamed(groups, m.name, k))
    && Answers(m.data, AllNamed(vault, secrets, groups, m.name))
  }

  lemma {:induction false} WithKeysHas(keys: seq<string>, more: seq<string>, k: string)
    ensures k in WithKeys(keys, more) <==> k in keys || k in more
    ensures Once(keys) ==> Once(WithKeys(keys, more))
    decreases |more|
  {
    if more != [] {
      WithKeysHas(if more[0] in keys then keys else keys + [more[0]], more[1..], k);
      assert more == [more[0]] + more[1..];
    }
  }

  lemma FindGrows(front: seq<Group>, g: Group, name: string)
    ensures var i := FindGroup(front, name);
            FindGroup(front + [g], name) == if i >= 0 then i else if g.name == name then |front| else -1
  {
    assert (front + [g])[..|front|] == front;
  }

  lemma KeyNamedGrows(front: seq<Group>, g: Group, name: string, k: string)
    ensures KeyNamed(front + [g], name, k) <==> KeyNamed(front, name, k) || (g.name == name && k in g.sensitiveKeys)
  {
    var all := front + [g];
    assert all[|front|] == g && forall i | 0 <= i < |front| :: all[i] == front[i];
    if KeyNamed(front, name, k) {
      var i :| 0 <= i < |front| && front[i].name == name && k in front[i].sensitiveKeys;
      assert all[i].name == name && k in all[i].sensitiveKeys;
    }
  }

  lemma AllNamedGrows(vault: Settings, secrets: Secrets, front: seq<Group>, g: Group, name: string)
    ensures AllNamed(vault, secrets, front + [g], name)
         == AllNamed(vault, secrets, front, name)
            + if g.name == name then [ResolvedContent(vault, secrets, g)] else []
  {
    hide ResolvedContent;
    assert (front + [g])[..|front|] == front;
  }

  lemma MergedFromOther(vault: Settings, secrets: Secrets, front: seq<Group>, g: Group, m: MergedGroup)
    requires MergedFrom(vault, secrets, front, m) && g.name != m.name
    ensures MergedFrom(vault, secrets, front + [g], m)
  {
    hide ResolvedContent, KeyNamed, Answers, AllNamed, FindGroup, Once;
    FindGrows(front, g, m.name);
    AllNamedGrows(vault, secrets, front, g, m.name);
    assert AllNamed(vault, secrets, front, m.name) + [] == AllNamed(vault, secrets, front, m.name);
    forall k ensures KeyNamed(front + [g], m.name, k) <==> KeyNamed(front, m.name, k) {
      KeyNamedGrows(front, g, m.name, k);
    }
  }

  lemma MergedFromSame(vault: Settings, secrets: Secrets, front: seq<Group>, g: Group, m: MergedGroup)
    requires MergedFrom(vault, secrets, front, m) && g.name == m.name
    ensures MergedFrom(vault, secrets, front + [g],
                       m.(keys := WithKeys(m.keys, g.sensitiveKeys),
                          data := m.data + ResolvedContent(vault, secrets, g)))
  {
    hide ResolvedContent, KeyNamed, Answers, AllNamed, FindGroup, Once, WithKeys;
    FindGrows(front, g, m.name);
    AllNamedGrows(vault, secrets, front, g, m.name);
    AnswersOne(ResolvedContent(vault, secrets, g));
    AnswersConcat(m.data, ResolvedContent(vault, secrets, g), AllNamed(vault, secrets, front, m.name),
                  [ResolvedContent(vault, secrets, g)]);
    WithKeysHas(m.keys, g.sensitiveKeys, "");
    forall k ensures k in WithKeys(m.keys, g.sensitiveKeys) <==> KeyNamed(front + [g], m.name, k) {
      KeyNamedGrows(front, g, m.name, k);
      WithKeysHas(m.keys, g.sensitiveKeys, k);
    }
  }

  lemma MergedFromNew(vault: Settings, secrets: Secrets, front: seq<Group>, g: Group)
    requires g.name !in GroupNames(front)
    ensures MergedFrom(vault, secrets, front + [g],
                       MergedGroup(g.name, g.isGlobal, WithKeys([], g.sensitiveKeys),
                                   ResolvedContent(vault, secrets, g)))
  {
    hide ResolvedContent, KeyNamed, Answers, WithKeys;
    FindGrows(front, g, g.name);
    AllNamedGrows(vault, secrets, front, g, g.name);
    AnswersOne(ResolvedContent(vault, secrets, g));
    NoneNamed(vault, secrets, front, g.name);
    assert [] + [ResolvedContent(vault, secrets, g)] == [ResolvedContent(vault, secrets, g)];
    WithKeysHas([], g.sensitiveKeys, "");
    forall k ensures k in WithKeys([], g.sensitiveKeys) <==> KeyNamed(front + [g], g.name, k) {
      KeyNamedGrows(front, g, g.name, k);
      WithKeysHas([], g.sensitiveKeys, k);
    }
  }

  lemma {:induction false} NoneNamed(vault: Settings, secrets: Secrets, groups: seq<Group>, name: string)
    requires name !in GroupNames(groups)
    ensures AllNamed(vault, secrets, groups, name) == [] && forall k :: !KeyNamed(groups, name, k)
  {
    hide ResolvedContent;
    if groups != [] {
      var n := |groups| - 1;
      assert groups[n].name in GroupNames(groups);
      assert GroupNames(groups[..n]) <= GroupNames(groups);
      NoneNamed(vault, secrets, groups[..n], name);
    }
  }

  /** There is one merged group per name, and each is merged from the groups of its name. */
  ghost predicate AllMergedFrom(vault: Settings, secrets: Secrets, groups: seq<Group>, merged: seq<MergedGroup>) {
    && UniqueMerged(merged) && MergedNames(merged) == GroupNames(groups)
    && forall i | 0 <= i < |merged| :: MergedFrom(vault, secrets, groups, merged[i])
  }

  lemma MergedNext(vault: Settings, secrets: Secrets, front: seq<Group>, g: Group, merged: seq<MergedGroup>)
    requires AllMergedFrom(vault, secrets, front, merged)
    ensures AllMergedFrom(vault, secrets, front + [g], MergedWith(vault, secrets, merged, g))
  {
    hide ResolvedContent, MergedFrom, WithKeys;
    var i, merged' := FindMerged(merged, g.name), MergedWith(vault, secrets, merged, g);
    assert forall j | 0 <= j < |merged| :: merged[j].name in MergedNames(merged);
    NamesOfMore(front, g);
    forall j | 0 <= j < |merged'| ensures MergedFrom(vault, secrets, front + [g], merged'[j]) {
      if j < |merged| && j != i {
        MergedFromOther(vault, secrets, front, g, merged[j]);
      } else if j == i {
        MergedFromSame(vault, secrets, front, g, merged[i]);
      } else {
        MergedFromNew(vault, secrets, front, g);
      }
    }
    MergedNamesNext(vault, secrets, merged, g);
  }

  lemma MergedNamesNext(vault: Settings, secrets: Secrets, merged: seq<MergedGroup>, g: Group)
    ensures MergedNames(MergedWith(vault, secrets, merged, g)) == MergedNames(merged) + {g.name}
  {
    hide ResolvedContent, WithKeys;
    var i, merged' := FindMerged(merged, g.name), MergedWith(vault, secrets, merged, g);
    assert merged'[if i >= 0 then i else |merged|].name == g.name;
    assert forall j | 0 <= j < |merged| :: merged'[j].name == merged[j].name;
  }

  /** The first loop of populating: every key of a merged group has the value of the last config-map
      group of its name that mentions the key. */
  lemma {:induction false} MergedAllFrom(vault: Settings, secrets: Secrets, groups: seq<Group>)
    ensures AllMergedFrom(vault, secrets, groups, MergedAll(vault, secrets, groups))
  {
    hide MergedWith, MergedFrom;
    if groups != [] {
      var n := |groups| - 1;
      MergedAllFrom(vault, secrets, groups[..n]);
      MergedNext(vault, secrets, groups[..n], groups[n], MergedAll(vault, secrets, groups[..n]));
      assert groups == groups[..n] + [groups[n]];
    }
  }

  lemma {:induction false} LookupHas(vault: Settings, secrets: Secrets, groups: seq<Group>, name: string, i: nat,
                                     key: string)
    requires i < |groups| && groups[i].name == name && key in ResolvedContent(vault, secrets, groups[i])
    ensures Lookup(AllNamed(vault, secrets, groups, name), key).Some?
  {
    hide ResolvedContent;
    var n := |groups| - 1;
    var r := ResolvedContent(vault, secrets, groups[n]);
    LookupConcat(AllNamed(vault, secrets, groups[..n], name), if groups[n].name == name then [r] else [], key);
    if i < n {
      LookupHas(vault, secrets, groups[..n], name, i, key);
    } else {
      AnswersOne(r);
    }
  }

  /** So the merged groups have all keys of the config-map groups of their name, and a flag of theirs. */
  lemma MergedAllShape(vault: Settings, secrets: Secrets, groups: seq<Group>)
    ensures MergedShape(MergedAll(vault, secrets, groups), groups)
  {
    hide ResolvedContent, AllNamed, MergedAll, KeyNamed, Lookup, Once;
    var merged := MergedAll(vault, secrets, groups);
    MergedAllFrom(vault, secrets, groups);
    forall i | 0 <= i < |groups| ensures CoveredBy(merged, groups[i]) {
      var g := groups[i];
      assert g.name in GroupNames(groups);
      var j := FindMerged(merged, g.name);
      assert MergedFrom(vault, secrets, groups, merged[j]);
      ResolvedKeys(vault, secrets, g);
      forall k | k in g.content.Keys ensures k in merged[j].data {
        LookupHas(vault, secrets, groups, g.name, i, k);
      }
    }
    forall i | 0 <= i < |merged| ensures FlagFrom(groups, merged[i]) {
      assert MergedFrom(vault, secrets, groups, merged[i]);
    }
  }

  /** The layers answer in one way only. */
  lemma AnswersUnique(s: Fields, t: Fields, layers: seq<Fields>)
    requires Answers(s, layers) && Answers(t, layers)
    ensures s == t
  {
    forall k ensures (k in s <==> k in t) && (k in s ==> s[k] == t[k]) {
      assert Lookup(layers, k) == Lookup(layers, k);
    }
  }

  // ---------------------------------------------------------------------------------------
  // Storing the merged values
  // ---------------------------------------------------------------------------------------

  /** The text stored for a merged value: a string as it is, anything else as the JSON text by which the
      version calculator compares values, where `objJson` prints objects. */
  lemma StoredTextIsJson(objJson: Fields -> string, v: Value)
    ensures v.Str? ==> PlainText(objJson, v) == v.s
    ensures v.Null? || v.Leaf? ==> Versioning.Rendered(v) == Versioning.Scalar(PlainText(objJson, v))
    ensures v.Obj? ==> PlainText(objJson, v) == objJson(v.fields)
  {
  }

  /** For plain strings at paths listed once the loop stores what the loop of an upsert stores. */
  lemma {:induction false} CopyIsStore(mount: string, objJson: Fields -> string, secrets: Secrets, groupId: nat,
                                       t: Fields, keys: seq<string>)
    requires PlainSecrets(t, keys) && Once(keys)
    ensures CopiedTree(mount, objJson, secrets, groupId, t, keys) == StoredTree(mount, secrets, groupId, t, keys)
    decreases |keys|
  {
    hide Split, Get, IsVaultRef, RefText, SecretName, Stored, Once;
    if keys != [] {
      var key, v := keys[0], GetByPath(t, keys[0]);
      OnceRest(keys);
      assert key in keys && forall k | k in keys[1..] :: k in keys;
      if v != Null {
        var x := Str(RefText(mount, groupId, key));
        forall k | k in keys[1..] ensures GetByPath(SetByPath(t, key, x), k) == GetByPath(t, k) {
          SetReads(t, key, x, k);
        }
        CopyIsStore(mount, objJson, Stored(secrets, SecretName(groupId, key), CONFIG_FIELD, v.s), groupId,
                    SetByPath(t, key, x), keys[1..]);
      } else {
        CopyIsStore(mount, objJson, secrets, groupId, t, keys[1..]);
      }
    }
  }

  /** What was stored resolves back to the merged document exactly when no present sensitive path
      contains '/' and present paths that share a secret name hold the same value. */
  lemma CopyThenResolve(cfg: Settings, objJson: Fields -> string, secrets: Secrets, groupId: nat, t: Fields,
                        keys: seq<string>)
    requires PlainSecrets(t, keys) && Once(keys)
    ensures var (s', c) := CopiedTree(cfg.mount, objJson, secrets, groupId, t, keys);
            ResolvedTree(cfg, s', c, keys) == t <==> NoSlashInPresentKeys(t, keys) && CollidingKeysAgree(t, keys)
  {
    hide ResolvedTree, CopiedTree, StoredTree;
    CopyIsStore(cfg.mount, objJson, secrets, groupId, t, keys);
    StoreThenResolveTree(cfg, secrets, groupId, t, keys);
  }

  /** Nothing, or the path's own reference. */
  predicate NullOrOwn(mount: string, groupId: nat, key: string, v: Value) {
    v == Null || v == Str(RefText(mount, groupId, key))
  }

  /** After the loop every sensitive path holds nothing or its own reference, overlapping paths
      included. */
  lemma {:induction false} CopiedOwn(mount: string, objJson: Fields -> string, secrets: Secrets, groupId: nat,
                                     t: Fields, keys: seq<string>, k: string)
    requires k in keys || NullOrOwn(mount, groupId, k, GetByPath(t, k))
    ensures NullOrOwn(mount, groupId, k, GetByPath(CopiedTree(mount, objJson, secrets, groupId, t, keys).1, k))
    decreases |keys|
  {
    hide Split, Get, Set, IsVaultRef, RefText, SecretName, PlainText, Stored;
    if keys != [] {
      var v, x := GetByPath(t, keys[0]), Str(RefText(mount, groupId, keys[0]));
      assert keys == [keys[0]] + keys[1..];
      if v != Null {
        if k == keys[0] || NullOrOwn(mount, groupId, k, GetByPath(t, k)) { OwnStays(mount, groupId, t, keys[0], k); }
        CopiedOwn(mount, objJson, Stored(secrets, SecretName(groupId, keys[0]), CONFIG_FIELD, PlainText(objJson, v)),
                  groupId, SetByPath(t, keys[0], x), keys[1..], k);
      } else {
        CopiedOwn(mount, objJson, secrets, groupId, t, keys[1..], k);
      }
    }
  }

  lemma OwnStays(mount: string, groupId: nat, t: Fields, key: string, k: string)
    requires GetByPath(t, key) != Null && (k == key || NullOrOwn(mount, groupId, k, GetByPath(t, k)))
    ensures NullOrOwn(mount, groupId, k, GetByPath(SetByPath(t, key, Str(RefText(mount, groupId, key))), k))
  {
    hide Split, Get, Set, RefText;
    var p, q, x := Split(k), Split(key), Str(RefText(mount, groupId, key));
    GetSetSame(Obj(t), q, x);
    if p == q {
      SplitInjective(k, key);
    } else if q < p {
      GetBelow(Set(Obj(t), q, x), q, p);
    } else if p < q {
      GetAbove(Obj(t), p, q);
    } else {
      GetSetOther(Obj(t), q, x, p);
    }
  }
}
