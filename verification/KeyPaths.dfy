/** What the loops over sensitive key paths do at single paths: a path that lies neither above nor below
    a key path stays, and a key path that no other one lies above or below changes as its own turn says. */
module KeyPaths {
  import opened Text
  import opened Tree
  import opened Vault
  import opened SecretKeys
  import opened SecretLaws
  import opened ResolvedPaths
  import opened VaultWrites

  /** The path lies neither above nor below a key path of the list. */
  ghost predicate Unrelated(keys: seq<string>, p: Path) {
    forall k | k in keys :: !Related(Split(k), p)
  }

  /** No other key path of the list lies above or below this one. */
  ghost predicate Clear(keys: seq<string>, k: string) {
    forall j | j in keys && j != k :: !Related(Split(j), Split(k))
  }

  /** No other key path of the list has the secret name of this one. */
  ghost predicate Sole(keys: seq<string>, k: string) {
    forall j | j in keys && j != k :: ReplaceDots(j) != ReplaceDots(k)
  }

  lemma ClearRest(keys: seq<string>, k: string)
    requires keys != [] && Clear(keys, k)
    ensures Clear(keys[1..], k) && (k !in keys[1..] ==> Unrelated(keys[1..], Split(k)))
    ensures keys[0] != k ==> !Related(Split(keys[0]), Split(k))
  {
    hide Split;
  }

  // ---------------------------------------------------------------------------------------
  // Unmasking
  // ---------------------------------------------------------------------------------------

  /** One turn of the unmask loop. */
  function UnmaskTurn(t: Fields, existing: Fields, key: string): Fields {
    if GetByPath(t, key) != MASK then t
    else if GetByPath(existing, key) != Null then SetByPath(t, key, GetByPath(existing, key))
    else DeleteByPath(t, key)
  }

  lemma UnmaskTurnAt(t: Fields, existing: Fields, key: string, p: Path)
    ensures !Related(Split(key), p) ==> Get(Obj(UnmaskTurn(t, existing, key)), p) == Get(Obj(t), p)
    ensures p == Split(key) ==>
              Get(Obj(UnmaskTurn(t, existing, key)), p) ==
              if GetByPath(t, key) == MASK then GetByPath(existing, key) else GetByPath(t, key)
  {
    hide Split, Get, Set, Delete;
    var q, x := Split(key), GetByPath(existing, key);
    GetSetSame(Obj(t), q, x);
    GetDeleteSame(Obj(t), q);
    if !Related(q, p) {
      GetSetOther(Obj(t), q, x, p);
      GetDeleteOther(Obj(t), q, p);
    }
  }

  lemma {:induction false} UnmaskedUnrelated(t: Fields, existing: Fields, keys: seq<string>, p: Path)
    requires Unrelated(keys, p)
    ensures Get(Obj(Unmasked(t, existing, keys)), p) == Get(Obj(t), p)
    decreases |keys|
  {
    hide Split, Get, GetByPath, SetByPath, DeleteByPath;
    if keys != [] {
      UnmaskTurnAt(t, existing, keys[0], p);
      UnmaskedUnrelated(UnmaskTurn(t, existing, keys[0]), existing, keys[1..], p);
    }
  }

  /** A masked path gets the existing value back, or goes when there is none. */
  lemma {:induction false} UnmaskedAt(t: Fields, existing: Fields, keys: seq<string>, k: string)
    requires k in keys && Clear(keys, k)
    ensures GetByPath(Unmasked(t, existing, keys), k)
         == if GetByPath(t, k) == MASK then GetByPath(existing, k) else GetByPath(t, k)
    decreases |keys|
  {
    hide Split, Get, SetByPath, DeleteByPath, Clear, Unrelated;
    var t' := UnmaskTurn(t, existing, keys[0]);
    ClearRest(keys, k);
    UnmaskTurnAt(t, existing, keys[0], Split(k));
    if k in keys[1..] {
      UnmaskedAt(t', existing, keys[1..], k);
    } else {
      UnmaskedUnrelated(t', existing, keys[1..], Split(k));
    }
  }

  // ---------------------------------------------------------------------------------------
  // Storing
  // ---------------------------------------------------------------------------------------

  /** A value that the store loop moves to Vault. */
  predicate Plain(v: Value) {
    v != Null && !IsRefValue(v)
  }

  lemma SetAt(t: Fields, key: string, x: Value, p: Path)
    ensures !Related(Split(key), p) ==> Get(Obj(SetByPath(t, key, x)), p) == Get(Obj(t), p)
    ensures GetByPath(SetByPath(t, key, x), key) == x
  {
    hide Split, Get, Set;
    GetSetSame(Obj(t), Split(key), x);
    if !Related(Split(key), p) {
      GetSetOther(Obj(t), Split(key), x, p);
    }
  }

  lemma {:induction false} StoredUnrelated(mount: string, secrets: Secrets, groupId: nat, t: Fields, keys: seq<string>,
                                           p: Path)
    requires Unrelated(keys, p)
    ensures Get(Obj(StoredTree(mount, secrets, groupId, t, keys).1), p) == Get(Obj(t), p)
    decreases |keys|
  {
    hide Split, Get, SetByPath, IsVaultRef, RefText, SecretName, ToText, Stored;
    if keys != [] {
      var v, x := GetByPath(t, keys[0]), Str(RefText(mount, groupId, keys[0]));
      SetAt(t, keys[0], x, p);
      if Plain(v) {
        StoredUnrelated(mount, Stored(secrets, SecretName(groupId, keys[0]), CONFIG_FIELD, ToText(v)), groupId,
                        SetByPath(t, keys[0], x), keys[1..], p);
      } else {
        StoredUnrelated(mount, secrets, groupId, t, keys[1..], p);
      }
    }
  }

  /** A plain value is replaced by the path's own reference; absent values and references stay. */
  lemma {:induction false} StoredAt(mount: string, secrets: Secrets, groupId: nat, t: Fields, keys: seq<string>,
                                    k: string)
    requires k in keys && Clear(keys, k)
    ensures GetByPath(StoredTree(mount, secrets, groupId, t, keys).1, k)
         == if Plain(GetByPath(t, k)) then Str(RefText(mount, groupId, k)) else GetByPath(t, k)
    decreases |keys|
  {
    hide Split, Get, SetByPath, IsVaultRef, RefText, SecretName, ToText, Stored, Clear, Unrelated;
    var v, x := GetByPath(t, keys[0]), Str(RefText(mount, groupId, keys[0]));
    var t' := if Plain(v) then SetByPath(t, keys[0], x) else t;
    var s' := if Plain(v) then Stored(secrets, SecretName(groupId, keys[0]), CONFIG_FIELD, ToText(v)) else secrets;
    ClearRest(keys, k);
    SetAt(t, keys[0], x, Split(k));
    RefTextIsRef(mount, groupId, k);
    if k in keys[1..] {
      StoredAt(mount, s', groupId, t', keys[1..], k);
    } else {
      StoredUnrelated(mount, s', groupId, t', keys[1..], Split(k));
    }
  }

  /** Vault gets the text of a plain value under the path's secret name, and nothing for another. */
  lemma {:induction false} StoreWriteAt(mount: string, groupId: nat, t: Fields, keys: seq<string>, k: string)
    requires Clear(keys, k) && Sole(keys, k)
    ensures StoreWrite(mount, groupId, t, keys, SecretName(groupId, k))
         == if k in keys && Plain(GetByPath(t, k)) then Put(ToText(GetByPath(t, k))) else Same
    decreases |keys|
  {
    hide Split, Get, SetByPath, IsVaultRef, RefText, SecretName, ToText, Clear, Unrelated, ReplaceDots;
    if keys != [] {
      var v, x := GetByPath(t, keys[0]), Str(RefText(mount, groupId, keys[0]));
      var t' := if Plain(v) then SetByPath(t, keys[0], x) else t;
      ClearRest(keys, k);
      SetAt(t, keys[0], x, Split(k));
      RefTextIsRef(mount, groupId, k);
      OtherName(groupId, keys[0], k);
      StoreWriteAt(mount, groupId, t', keys[1..], k);
    }
  }

  lemma OtherName(groupId: nat, j: string, k: string)
    ensures SecretName(groupId, j) == SecretName(groupId, k) <==> ReplaceDots(j) == ReplaceDots(k)
  {
    if SecretName(groupId, j) == SecretName(groupId, k) {
      SecretNameInjective(groupId, groupId, j, k);
    }
  }

  // ---------------------------------------------------------------------------------------
  // Copying merged values
  // ---------------------------------------------------------------------------------------

  lemma {:induction false} CopiedUnrelated(mount: string, objJson: Fields -> string, secrets: Secrets, groupId: nat,
                                           t: Fields, keys: seq<string>, p: Path)
    requires Unrelated(keys, p)
    ensures Get(Obj(CopiedTree(mount, objJson, secrets, groupId, t, keys).1), p) == Get(Obj(t), p)
    decreases |keys|
  {
    hide Split, Get, SetByPath, IsVaultRef, RefText, SecretName, PlainText, Stored;
    if keys != [] {
      var v, x := GetByPath(t, keys[0]), Str(RefText(mount, groupId, keys[0]));
      SetAt(t, keys[0], x, p);
      if v != Null {
        CopiedUnrelated(mount, objJson, Stored(secrets, SecretName(groupId, keys[0]), CONFIG_FIELD,
                                               PlainText(objJson, v)), groupId,
                        SetByPath(t, keys[0], x), keys[1..], p);
      } else {
        CopiedUnrelated(mount, objJson, secrets, groupId, t, keys[1..], p);
      }
    }
  }

  /** Every present value is replaced by the path's own reference. */
  lemma {:induction false} CopiedAt(mount: string, objJson: Fields -> string, secrets: Secrets, groupId: nat, t: Fields,
                                    keys: seq<string>, k: string)
    requires k in keys && Clear(keys, k)
    ensures GetByPath(CopiedTree(mount, objJson, secrets, groupId, t, keys).1, k)
         == if GetByPath(t, k) != Null then Str(RefText(mount, groupId, k)) else Null
    decreases |keys|
  {
    hide Split, Get, SetByPath, IsVaultRef, RefText, SecretName, PlainText, Stored, Clear, Unrelated;
    var v, x := GetByPath(t, keys[0]), Str(RefText(mount, groupId, keys[0]));
    var t' := if v != Null then SetByPath(t, keys[0], x) else t;
    var s' := if v != Null then Stored(secrets, SecretName(groupId, keys[0]), CONFIG_FIELD, PlainText(objJson, v))
              else secrets;
    ClearRest(keys, k);
    SetAt(t, keys[0], x, Split(k));
    if k in keys[1..] {
      CopiedAt(mount, objJson, s', groupId, t', keys[1..], k);
    } else {
      CopiedUnrelated(mount, objJson, s', groupId, t', keys[1..], Split(k));
    }
  }

  /** With every path listed once, Vault gets the text of each present value. */
  lemma {:induction false} CopyWriteAt(mount: string, objJson: Fields -> string, groupId: nat, t: Fields,
                                       keys: seq<string>, k: string)
    requires Clear(keys, k) && Sole(keys, k) && Once(keys)
    ensures CopyWrite(mount, objJson, groupId, t, keys, SecretName(groupId, k))
         == if k in keys && GetByPath(t, k) != Null then Put(PlainText(objJson, GetByPath(t, k))) else Same
    decreases |keys|
  {
    hide Split, Get, SetByPath, IsVaultRef, RefText, SecretName, PlainText, Clear, Unrelated, ReplaceDots;
    if keys != [] {
      var v, x := GetByPath(t, keys[0]), Str(RefText(mount, groupId, keys[0]));
      var t' := if v != Null then SetByPath(t, keys[0], x) else t;
      ClearRest(keys, k);
      SetAt(t, keys[0], x, Split(k));
      OtherName(groupId, keys[0], k);
      OnceRest(keys);
      CopyWriteAt(mount, objJson, groupId, t', keys[1..], k);
    }
  }

  lemma OnceRest(keys: seq<string>)
    requires Once(keys) && keys != []
    ensures Once(keys[1..]) && keys[0] !in keys[1..]
  {
  }

  // ---------------------------------------------------------------------------------------
  // Resolving
  // ---------------------------------------------------------------------------------------

  lemma {:induction false} ResolvedUnrelated(cfg: Settings, secrets: Secrets, t: Fields, keys: seq<string>, p: Path)
    requires Unrelated(keys, p)
    ensures Get(Obj(ResolvedTree(cfg, secrets, t, keys)), p) == Get(Obj(t), p)
    decreases |keys|
  {
    hide Split, Get, SetByPath, IsVaultRef, Resolved, ToText;
    if keys != [] {
      var v := GetByPath(t, keys[0]);
      var x := ResolvedValue(cfg, secrets, ToText(v));
      SetAt(t, keys[0], x, p);
      ResolvedUnrelated(cfg, secrets, if IsRefValue(v) then SetByPath(t, keys[0], x) else t, keys[1..], p);
    }
  }

  /** A reference is replaced by what it resolves to; anything else stays. */
  lemma {:induction false} ResolvedClear(cfg: Settings, secrets: Secrets, t: Fields, keys: seq<string>, k: string)
    requires k in keys && Clear(keys, k)
    requires Once(keys) || !IsRefValue(ResolvedValue(cfg, secrets, ToText(GetByPath(t, k))))
    ensures var v := GetByPath(t, k);
            GetByPath(ResolvedTree(cfg, secrets, t, keys), k) ==
            if IsRefValue(v) then ResolvedValue(cfg, secrets, ToText(v)) else v
    decreases |keys|
  {
    hide Split, Get, SetByPath, IsVaultRef, Resolved, ResolvedValue, ToText, Clear, Unrelated, Once;
    var v := GetByPath(t, keys[0]);
    var x := ResolvedValue(cfg, secrets, ToText(v));
    var t' := if IsRefValue(v) then SetByPath(t, keys[0], x) else t;
    ClearRest(keys, k);
    SetAt(t, keys[0], x, Split(k));
    if Once(keys) { OnceRest(keys); }
    if k in keys[1..] && keys[0] != k {
      ResolvedClear(cfg, secrets, t', keys[1..], k);
    } else if k in keys[1..] {
      ResolvedStays(cfg, secrets, t', keys[1..], k);
    } else {
      ResolvedUnrelated(cfg, secrets, t', keys[1..], Split(k));
    }
  }

  lemma {:induction false} ResolvedStays(cfg: Settings, secrets: Secrets, t: Fields, keys: seq<string>, k: string)
    requires Clear(keys, k) && !IsRefValue(GetByPath(t, k))
    ensures GetByPath(ResolvedTree(cfg, secrets, t, keys), k) == GetByPath(t, k)
    decreases |keys|
  {
    hide Split, Get, SetByPath, IsVaultRef, Resolved, ResolvedValue, ToText, Clear, Unrelated;
    if keys != [] {
      var v := GetByPath(t, keys[0]);
      var x := ResolvedValue(cfg, secrets, ToText(v));
      ClearRest(keys, k);
      SetAt(t, keys[0], x, Split(k));
      ResolvedStays(cfg, secrets, if IsRefValue(v) then SetByPath(t, keys[0], x) else t, keys[1..], k);
    }
  }

  // ---------------------------------------------------------------------------------------
  // Cloning
  // ---------------------------------------------------------------------------------------

  lemma {:induction false} ClonedUnrelated(cfg: Settings, secrets: Secrets, groupId: nat, t: Fields, keys: seq<string>,
                                           p: Path)
    requires Unrelated(keys, p)
    ensures Get(Obj(ClonedTree(cfg, secrets, groupId, t, keys).1), p) == Get(Obj(t), p)
    decreases |keys|
  {
    hide Split, Get, SetByPath, IsVaultRef, RefText, SecretName, Stored, Resolved, ToText;
    if keys != [] {
      var v, x := GetByPath(t, keys[0]), Str(RefText(cfg.mount, groupId, keys[0]));
      SetAt(t, keys[0], x, p);
      if IsRefValue(v) && Resolved(cfg, secrets, ToText(v)).Some? {
        ClonedUnrelated(cfg, Stored(secrets, SecretName(groupId, keys[0]), CONFIG_FIELD,
                                    Resolved(cfg, secrets, ToText(v)).value), groupId,
                        SetByPath(t, keys[0], x), keys[1..], p);
      } else {
        ClonedUnrelated(cfg, secrets, groupId, t, keys[1..], p);
      }
    }
  }
}
