/** Laws of the secret loops: masked read-modify-write is lossless, storing then resolving gives
    the tree back, and when the store loop changes nothing. */
module SecretLaws {
  import opened Options
  import opened Text
  import opened Tree
  import opened Vault
  import opened SecretKeys

  ghost function Paths(keys: seq<string>): set<Path> {
    set k | k in keys :: Split(k)
  }

  lemma SplitInjective(a: string, b: string)
    requires Split(a) == Split(b)
    ensures a == b
  {
    JoinSplit(a);
    JoinSplit(b);
  }

  // ---------------------------------------------------------------------------------------
  // Masked read-modify-write
  // ---------------------------------------------------------------------------------------

  ghost function MaskAt(): Path -> Value {
    p => MASK
  }

  lemma {:induction false} MaskedIsSubst(c: Fields, t: Fields, keys: seq<string>, at: set<Path>)
    requires Subst(Obj(c), Obj(t), [], at, MaskAt())
    ensures Subst(Obj(Masked(c, keys)), Obj(t), [], at + Paths(keys), MaskAt())
    decreases |keys|
  {
    if keys == [] {
      assert at + Paths(keys) == at;
    } else {
      var p := Split(keys[0]);
      assert at + {p} + Paths(keys[1..]) == at + Paths(keys);
      if GetByPath(c, keys[0]) != Null {
        SubstStep(Obj(c), Obj(t), [], p, at, MaskAt());
        assert [] + p == p;
        MaskedIsSubst(SetByPath(c, keys[0], MASK), t, keys[1..], at + {p});
      } else {
        SubstGrow(Obj(c), Obj(t), [], at, at + {p}, MaskAt());
        MaskedIsSubst(c, t, keys[1..], at + {p});
      }
    }
  }

  lemma {:induction false} UnmaskedRestores(c: Fields, t: Fields, keys: seq<string>)
    requires Subst(Obj(c), Obj(t), [], Paths(keys), MaskAt())
    ensures Unmasked(c, t, keys) == t
    decreases |keys|
  {
    if keys == [] {
      assert Paths(keys) == {};
      SubstNone(Obj(c), Obj(t), [], MaskAt());
    } else {
      var p := Split(keys[0]);
      assert [] + p == p && p[0..] == p;
      var at := Paths(keys) - {p};
      var next := c;
      if GetByPath(c, keys[0]) == MASK {
        SubstRestore(Obj(c), Obj(t), [], p, Paths(keys), MaskAt());
        SubstPresent(Obj(c), Obj(t), [], p, Paths(keys), MaskAt());
        next := SetByPath(c, keys[0], GetByPath(t, keys[0]));
      } else {
        SubstDrop(Obj(c), Obj(t), [], p, Paths(keys), MaskAt());
      }
      SubstGrow(Obj(next), Obj(t), [], at, Paths(keys[1..]), MaskAt());
      UnmaskedRestores(next, t, keys[1..]);
    }
  }

  /** Sending the masked view of a stored document back restores it exactly, for every list of
      sensitive paths, overlapping and repeated ones included. */
  lemma MaskedRoundTrip(t: Fields, keys: seq<string>)
    ensures Unmasked(Masked(t, keys), t, keys) == t
  {
    MaskedIsSubst(t, t, keys, {});
    assert {} + Paths(keys) == Paths(keys);
    UnmaskedRestores(Masked(t, keys), t, keys);
  }

  predicate Hidden(v: Value) {
    v == Null || v == MASK
  }

  lemma {:induction false} HiddenStays(t: Fields, keys: seq<string>, p: Path)
    requires Hidden(Get(Obj(t), p))
    ensures Hidden(Get(Obj(Masked(t, keys)), p))
    decreases |keys|
  {
    if keys != [] {
      var q := Split(keys[0]);
      var next := t;
      if Get(Obj(t), q) != Null {
        next := SetByPath(t, keys[0], MASK);
        GetSetSame(Obj(t), q, MASK);
        if q < p {
          GetBelow(Obj(next), q, p);
        } else if p < q {
          GetAbove(Obj(t), p, q);
        } else if p != q {
          GetSetOther(Obj(t), q, MASK, p);
        }
      }
      HiddenStays(next, keys[1..], p);
    }
  }

  /** In the masked view every sensitive path is hidden, and a path unrelated to all of them
      reads as stored. */
  lemma {:induction false} MaskedView(t: Fields, keys: seq<string>, p: Path)
    ensures p in Paths(keys) ==> Hidden(Get(Obj(Masked(t, keys)), p))
    ensures (forall q | q in Paths(keys) :: !Related(q, p)) ==> Get(Obj(Masked(t, keys)), p) == Get(Obj(t), p)
    decreases |keys|
  {
    if keys != [] {
      var q := Split(keys[0]);
      var next := if Get(Obj(t), q) != Null then SetByPath(t, keys[0], MASK) else t;
      assert Paths(keys) == {q} + Paths(keys[1..]);
      MaskedView(next, keys[1..], p);
      if q == p {
        GetSetSame(Obj(t), q, MASK);
        HiddenStays(next, keys[1..], p);
      }
      if !Related(q, p) && Get(Obj(t), q) != Null {
        GetSetOther(Obj(t), q, MASK, p);
      }
    }
  }

  // ---------------------------------------------------------------------------------------
  // Storing then resolving
  // ---------------------------------------------------------------------------------------

  /** Every sensitive path that is present points at a string that is not a reference yet. */
  predicate PlainSecrets(t: Fields, keys: seq<string>) {
    forall k | k in keys :: GetByPath(t, k) != Null ==> GetByPath(t, k).Str? && !IsRefValue(GetByPath(t, k))
  }

  predicate NoSlashInPresentKeys(t: Fields, keys: seq<string>) {
    forall k | k in keys && GetByPath(t, k) != Null :: '/' !in k
  }

  /** Present sensitive paths that share a secret name hold the same value. */
  predicate CollidingKeysAgree(t: Fields, keys: seq<string>) {
    forall j, k | j in keys && k in keys && GetByPath(t, j) != Null && GetByPath(t, k) != Null ::
      ReplaceDots(j) == ReplaceDots(k) ==> GetByPath(t, j) == GetByPath(t, k)
  }

  lemma SecretNameSlash(groupId: nat, key: string)
    ensures '/' in SecretName(groupId, key) <==> '/' in key
  {
    ReplaceDotsKeeps(key, '/');
    DecIsDigits(groupId);
    var a, b := "config-group-" + Dec(groupId) + "-key-", ReplaceDots(key);
    assert SecretName(groupId, key) == a + b;
    assert '/' !in Dec(groupId);
    assert '/' !in a;
  }

  /** A secret name belongs to one group and one dot-replaced key path. */
  lemma SecretNameInjective(a: nat, b: nat, j: string, k: string)
    requires SecretName(a, j) == SecretName(b, k)
    ensures a == b && ReplaceDots(j) == ReplaceDots(k)
  {
    SecretNameTail(a, j);
    SecretNameTail(b, k);
    DecPrefixInjective(a, b, "key-" + ReplaceDots(j), "key-" + ReplaceDots(k), '-');
    DropConcat("key-", ReplaceDots(j));
    DropConcat("key-", ReplaceDots(k));
  }

  lemma SecretNameTail(a: nat, j: string)
    ensures SecretName(a, j)[13..] == Dec(a) + ['-'] + ("key-" + ReplaceDots(j))
  {
    var tail := Dec(a) + ['-'] + ("key-" + ReplaceDots(j));
    assert SecretName(a, j) == "config-group-" + tail;
    DropConcat("config-group-", tail);
  }

  /** The text under a key's secret name, if there is one. */
  function SecretText(secrets: Secrets, groupId: nat, key: string): Option<string> {
    FieldOf(secrets, SecretName(groupId, key), CONFIG_FIELD)
  }

  lemma ResolvedOwnRef(cfg: Settings, secrets: Secrets, groupId: nat, key: string)
    ensures IsVaultRef(RefText(cfg.mount, groupId, key))
    ensures Resolved(cfg, secrets, RefText(cfg.mount, groupId, key))
         == if '/' in key then None else SecretText(secrets, groupId, key)
  {
    var name := SecretName(groupId, key);
    FieldHasNoHash();
    SecretNameSlash(groupId, key);
    ParseInvertsMake(cfg.mount, name, CONFIG_FIELD);
    if '/' in name {
      assert ParseVaultRef(MakeRef(cfg.mount, name, CONFIG_FIELD)).mount != cfg.mount;
    }
  }

  lemma FieldHasNoHash()
    ensures '#' !in CONFIG_FIELD
  {
  }

  lemma RefTextIsRef(mount: string, groupId: nat, key: string)
    ensures IsRefValue(Str(RefText(mount, groupId, key)))
  {
    ParseMake(mount, SecretName(groupId, key), CONFIG_FIELD);
  }

  /** Replacing one scalar by another, seen through key paths. */
  lemma SetReads(c: Fields, key: string, x: Value, k: string)
    requires GetByPath(c, key) != Null && !GetByPath(c, key).Obj? && !x.Obj?
    requires !GetByPath(c, k).Obj?
    ensures GetByPath(SetByPath(c, key, x), k) == if k == key then x else GetByPath(c, k)
  {
    if Split(k) == Split(key) { SplitInjective(k, key); }
    GetSetScalar(Obj(c), Split(key), x, Split(k));
  }

  /** What the sensitive paths of the current document `c` read after `i` keys of the store loop. */
  ghost predicate ReadsStored(mount: string, groupId: nat, t: Fields, c: Fields, all: seq<string>, i: nat)
    requires i <= |all|
  {
    forall k | k in all :: GetByPath(c, k) ==
      if k in all[..i] && GetByPath(t, k) != Null then Str(RefText(mount, groupId, k)) else GetByPath(t, k)
  }

  /** What Vault holds for the keys already stored. */
  ghost predicate HoldsStored(secrets: Secrets, groupId: nat, t: Fields, all: seq<string>, i: nat)
    requires i <= |all|
  {
    forall k | k in all[..i] && GetByPath(t, k) != Null ::
      var s := SecretText(secrets, groupId, k);
      s.Some? && !IsVaultRef(s.value) && (CollidingKeysAgree(t, all) ==> Str(s.value) == GetByPath(t, k))
  }

  /** Scalars of the current document: unchanged, or the reference of a sensitive path. */
  ghost function StoreRel(mount: string, groupId: nat, t: Fields, keys: seq<string>): ScalarRelation {
    (p: Path, a: Value, b: Value) =>
      a == b || (p in Paths(keys) && a == Str(RefText(mount, groupId, Join(p))) && b == Get(Obj(t), p) && b != Null)
  }

  lemma ReadsStoredStep(mount: string, groupId: nat, t: Fields, c: Fields, all: seq<string>, i: nat)
    requires i < |all| && PlainSecrets(t, all) && ReadsStored(mount, groupId, t, c, all, i)
    ensures var v := GetByPath(c, all[i]);
            if v != Null && !IsRefValue(v)
            then v == GetByPath(t, all[i])
              && ReadsStored(mount, groupId, t, SetByPath(c, all[i], Str(RefText(mount, groupId, all[i]))), all, i + 1)
            else (v != Null ==> all[i] in all[..i]) && ReadsStored(mount, groupId, t, c, all, i + 1)
  {
    var key := all[i];
    var v, x := GetByPath(c, key), Str(RefText(mount, groupId, key));
    assert all[..i + 1] == all[..i] + [key];
    RefTextIsRef(mount, groupId, key);
    if v != Null && !IsRefValue(v) {
      forall k | k in all ensures GetByPath(SetByPath(c, key, x), k) == if k == key then x else GetByPath(c, k) {
        SetReads(c, key, x, k);
      }
    }
  }

  lemma HoldsStoredStep(secrets: Secrets, groupId: nat, t: Fields, all: seq<string>, i: nat)
    requires i < |all| && PlainSecrets(t, all) && HoldsStored(secrets, groupId, t, all, i)
    requires GetByPath(t, all[i]) != Null
    ensures HoldsStored(Stored(secrets, SecretName(groupId, all[i]), CONFIG_FIELD, GetByPath(t, all[i]).s), groupId, t,
                        all, i + 1)
  {
    var key := all[i];
    assert all[..i + 1] == all[..i] + [key];
    var s' := Stored(secrets, SecretName(groupId, key), CONFIG_FIELD, GetByPath(t, key).s);
    forall k | k in all[..i + 1] && GetByPath(t, k) != Null
      ensures var s := SecretText(s', groupId, k);
              s.Some? && !IsVaultRef(s.value) && (CollidingKeysAgree(t, all) ==> Str(s.value) == GetByPath(t, k))
    {
      if SecretName(groupId, k) == SecretName(groupId, key) {
        SecretNameInjective(groupId, groupId, k, key);
      }
    }
  }

  lemma StoreRelStep(mount: string, groupId: nat, t: Fields, c: Fields, all: seq<string>, i: nat)
    requires i < |all| && PlainSecrets(t, all) && ReadsStored(mount, groupId, t, c, all, i)
    requires Lift(Obj(c), Obj(t), [], StoreRel(mount, groupId, t, all[..i]))
    ensures var v := GetByPath(c, all[i]);
            var c' := if v != Null && !IsRefValue(v) then SetByPath(c, all[i], Str(RefText(mount, groupId, all[i])))
                      else c;
            Lift(Obj(c'), Obj(t), [], StoreRel(mount, groupId, t, all[..i + 1]))
  {
    var key := all[i];
    var p := Split(key);
    JoinSplit(key);
    assert all[..i + 1] == all[..i] + [key];
    assert [] + p == p;
    assert Paths(all[..i]) <= Paths(all[..i + 1]);
    var rel, rel' := StoreRel(mount, groupId, t, all[..i]), StoreRel(mount, groupId, t, all[..i + 1]);
    LiftGet(Obj(c), Obj(t), [], p, rel);
    if GetByPath(c, key) != Null && !IsRefValue(GetByPath(c, key)) {
      LiftSet(Obj(c), Obj(t), [], p, Str(RefText(mount, groupId, key)), GetByPath(t, key), rel, rel');
      SetGet(Obj(t), p);
    } else {
      LiftKeep(Obj(c), Obj(t), [], p, rel, rel');
    }
  }

  lemma {:induction false} StoringRuns(mount: string, secrets: Secrets, groupId: nat, t: Fields, c: Fields,
                                       all: seq<string>, i: nat)
    requires i <= |all| && PlainSecrets(t, all)
    requires ReadsStored(mount, groupId, t, c, all, i) && HoldsStored(secrets, groupId, t, all, i)
    requires Lift(Obj(c), Obj(t), [], StoreRel(mount, groupId, t, all[..i]))
    ensures var (s', c') := StoredTree(mount, secrets, groupId, c, all[i..]);
            && ReadsStored(mount, groupId, t, c', all, |all|) && HoldsStored(s', groupId, t, all, |all|)
            && Lift(Obj(c'), Obj(t), [], StoreRel(mount, groupId, t, all))
    decreases |all| - i
  {
    if i < |all| {
      assert all[i..][1..] == all[i + 1..];
      assert all[..i + 1] == all[..i] + [all[i]];
      ReadsStoredStep(mount, groupId, t, c, all, i);
      StoreRelStep(mount, groupId, t, c, all, i);
      var v := GetByPath(c, all[i]);
      if v != Null && !IsRefValue(v) {
        HoldsStoredStep(secrets, groupId, t, all, i);
        StoringRuns(mount, Stored(secrets, SecretName(groupId, all[i]), CONFIG_FIELD, ToText(v)), groupId, t,
                    SetByPath(c, all[i], Str(RefText(mount, groupId, all[i]))), all, i + 1);
      } else {
        StoringRuns(mount, secrets, groupId, t, c, all, i + 1);
      }
    } else {
      assert all[i..] == [] && all[..i] == all;
    }
  }

  /** What a sensitive path of the stored document resolves to. */
  function OwnValue(cfg: Settings, secrets: Secrets, groupId: nat, key: string): Value {
    ResolvedValue(cfg, secrets, RefText(cfg.mount, groupId, key))
  }

  lemma Suffix<T>(s: seq<T>, i: nat)
    requires i < |s|
    ensures s[i..][0] == s[i] && s[i..][1..] == s[i + 1..] && s[i..] == [s[i]] + s[i + 1..]
  {
  }

  /** No present sensitive path resolves to another reference. */
  ghost predicate OwnIsPlain(cfg: Settings, secrets: Secrets, groupId: nat, r: Fields, all: seq<string>) {
    forall k | k in all && GetByPath(r, k) != Null :: !IsRefValue(OwnValue(cfg, secrets, groupId, k))
  }

  /** Every sensitive path is absent, still a reference, or resolved. */
  ghost predicate ReadsOwn(cfg: Settings, secrets: Secrets, groupId: nat, r: Fields, all: seq<string>) {
    forall k | k in all ::
      var v := GetByPath(r, k);
      v == Null || v == Str(RefText(cfg.mount, groupId, k)) || v == OwnValue(cfg, secrets, groupId, k)
  }

  /** The resolve loop reads every sensitive path through its own reference. */
  lemma {:induction false} ResolveReads(cfg: Settings, secrets: Secrets, groupId: nat, r: Fields, all: seq<string>,
                                        i: nat, key: string)
    requires i <= |all|
    requires OwnIsPlain(cfg, secrets, groupId, r, all)
    requires ReadsOwn(cfg, secrets, groupId, r, all)
    requires key in all
    ensures var x := GetByPath(ResolvedTree(cfg, secrets, r, all[i..]), key);
            if key in all[i..] && GetByPath(r, key) != Null then x == OwnValue(cfg, secrets, groupId, key)
            else x == GetByPath(r, key)
    decreases |all| - i
  {
    hide Resolved, IsVaultRef, RefText;
    if i < |all| {
      var k0 := all[i];
      Suffix(all, i);
      RefTextIsRef(cfg.mount, groupId, k0);
      var v, x := GetByPath(r, k0), OwnValue(cfg, secrets, groupId, k0);
      var rest := all[i + 1..];
      if IsRefValue(v) {
        var r' := SetByPath(r, k0, x);
        assert v == Str(RefText(cfg.mount, groupId, k0));
        assert ResolvedTree(cfg, secrets, r, all[i..]) == ResolvedTree(cfg, secrets, r', rest);
        forall k | k in all ensures GetByPath(r', k) == if k == k0 then x else GetByPath(r, k) {
          SetReads(r, k0, x, k);
        }
        ResolveReads(cfg, secrets, groupId, r', all, i + 1, key);
      } else {
        assert ResolvedTree(cfg, secrets, r, all[i..]) == ResolvedTree(cfg, secrets, r, rest);
        ResolveReads(cfg, secrets, groupId, r, all, i + 1, key);
      }
    }
  }

  /** One turn of the resolve loop keeps what is stored a stored form of the original. */
  lemma RestoreTurn(cfg: Settings, secrets: Secrets, groupId: nat, t: Fields, r: Fields, key: string, rest: seq<string>)
    requires PlainSecrets(t, [key])
    requires GetByPath(t, key) != Null ==> OwnValue(cfg, secrets, groupId, key) == GetByPath(t, key)
    requires Lift(Obj(r), Obj(t), [], StoreRel(cfg.mount, groupId, t, [key] + rest))
    ensures var v := GetByPath(r, key);
            var r' := if IsRefValue(v) then SetByPath(r, key, ResolvedValue(cfg, secrets, ToText(v))) else r;
            Lift(Obj(r'), Obj(t), [], StoreRel(cfg.mount, groupId, t, rest))
  {
    hide Resolved, IsVaultRef, RefText;
    var p := Split(key);
    JoinSplit(key);
    RefTextIsRef(cfg.mount, groupId, key);
    assert [] + p == p;
    var rel, rel' := StoreRel(cfg.mount, groupId, t, [key] + rest), StoreRel(cfg.mount, groupId, t, rest);
    LiftGet(Obj(r), Obj(t), [], p, rel);
    assert ([key] + rest)[0] == key && ([key] + rest)[1..] == rest;
    assert WeakerExceptAt(rel, rel', p);
    assert key in [key];
    hide Lift;
    if IsRefValue(GetByPath(r, key)) {
      var x := GetByPath(t, key);
      LiftSet(Obj(r), Obj(t), [], p, x, x, rel, rel');
      SetGet(Obj(t), p);
    } else {
      LiftKeep(Obj(r), Obj(t), [], p, rel, rel');
    }
  }

  /** The resolve loop puts the original values back. */
  lemma {:induction false} ResolveRestores(cfg: Settings, secrets: Secrets, groupId: nat, t: Fields, r: Fields,
                                           keys: seq<string>)
    requires PlainSecrets(t, keys)
    requires forall k | k in keys && GetByPath(t, k) != Null :: OwnValue(cfg, secrets, groupId, k) == GetByPath(t, k)
    requires Lift(Obj(r), Obj(t), [], StoreRel(cfg.mount, groupId, t, keys))
    ensures ResolvedTree(cfg, secrets, r, keys) == t
    decreases |keys|
  {
    if keys == [] {
      assert Paths(keys) == {};
      LiftEqual(Obj(r), Obj(t), [], StoreRel(cfg.mount, groupId, t, keys));
    } else {
      var key, rest := keys[0], keys[1..];
      assert keys == [key] + rest && key in keys;
      RestoreTurn(cfg, secrets, groupId, t, r, key, rest);
      ResolvedOne(cfg, secrets, r, keys);
      hide ResolvedTree, Lift, StoreRel, IsRefValue, ResolvedValue, SetByPath;
      var v := GetByPath(r, key);
      ResolveRestores(cfg, secrets, groupId, t, if IsRefValue(v)
                      then SetByPath(r, key, ResolvedValue(cfg, secrets, ToText(v))) else r, rest);
    }
  }

  /** One turn of the resolve loop. */
  lemma ResolvedOne(cfg: Settings, secrets: Secrets, t: Fields, keys: seq<string>)
    requires keys != []
    ensures var v := GetByPath(t, keys[0]);
            ResolvedTree(cfg, secrets, t, keys) ==
            ResolvedTree(cfg, secrets, if IsRefValue(v)
                         then SetByPath(t, keys[0], ResolvedValue(cfg, secrets, ToText(v))) else t, keys[1..])
  {
  }

  /** Storing a document's secrets in Vault and resolving the result gives the document back
      exactly when no present sensitive path contains '/' and present paths that share a secret
      name (`a.b` and `a__b`) hold the same value. */
  lemma StoreThenResolveTree(cfg: Settings, secrets: Secrets, groupId: nat, t: Fields, keys: seq<string>)
    requires PlainSecrets(t, keys)
    ensures var (s', c) := StoredTree(cfg.mount, secrets, groupId, t, keys);
            ResolvedTree(cfg, s', c, keys) == t <==> NoSlashInPresentKeys(t, keys) && CollidingKeysAgree(t, keys)
  {
    hide Resolved, IsVaultRef, RefText, SecretName;
    var (s', c) := StoredTree(cfg.mount, secrets, groupId, t, keys);
    assert keys[0..] == keys && keys[..|keys|] == keys;
    LiftSame(Obj(t), [], StoreRel(cfg.mount, groupId, t, keys[..0]));
    StoringRuns(cfg.mount, secrets, groupId, t, t, keys, 0);
    forall k | k in keys && GetByPath(t, k) != Null
      ensures OwnValue(cfg, s', groupId, k) == if '/' in k then Null else Str(SecretText(s', groupId, k).value)
    {
      ResolvedOwnRef(cfg, s', groupId, k);
    }
    if NoSlashInPresentKeys(t, keys) && CollidingKeysAgree(t, keys) {
      ResolveRestores(cfg, s', groupId, t, c, keys);
    } else if ResolvedTree(cfg, s', c, keys) == t {
      forall k | k in keys && GetByPath(t, k) != Null ensures GetByPath(t, k) == OwnValue(cfg, s', groupId, k) {
        ResolveReads(cfg, s', groupId, c, keys, 0, k);
      }
      hide OwnValue, StoredTree, ResolvedTree, SecretText, ReplaceDots;
      forall j, k | j in keys && k in keys && GetByPath(t, j) != Null && GetByPath(t, k) != Null
        && ReplaceDots(j) == ReplaceDots(k)
        ensures GetByPath(t, j) == GetByPath(t, k)
      {
        SameSecretText(s', groupId, j, k);
      }
    }
  }

  lemma SameSecretText(secrets: Secrets, groupId: nat, j: string, k: string)
    requires ReplaceDots(j) == ReplaceDots(k)
    ensures SecretText(secrets, groupId, j) == SecretText(secrets, groupId, k)
  {
  }

  // ---------------------------------------------------------------------------------------
  // When the store loop changes nothing
  // ---------------------------------------------------------------------------------------

  /** Every present sensitive path already holds a reference. */
  predicate AllStored(t: Fields, keys: seq<string>) {
    forall k | k in keys :: GetByPath(t, k) != Null ==> IsRefValue(GetByPath(t, k))
  }

  predicate NullOrRef(v: Value) {
    v == Null || (v.Str? && IsRefValue(v))
  }

  /** A path the store loop once emptied or replaced never reads a plain value again. */
  lemma {:induction false} NullOrRefStays(mount: string, secrets: Secrets, groupId: nat, t: Fields, keys: seq<string>,
                                          p: Path)
    requires NullOrRef(Get(Obj(t), p))
    ensures NullOrRef(Get(Obj(StoredTree(mount, secrets, groupId, t, keys).1), p))
    decreases |keys|
  {
    hide IsVaultRef, RefText, SecretName;
    if keys != [] {
      var q, x := Split(keys[0]), Str(RefText(mount, groupId, keys[0]));
      var v := GetByPath(t, keys[0]);
      RefTextIsRef(mount, groupId, keys[0]);
      if v != Null && !IsRefValue(v) {
        GetSetSame(Obj(t), q, x);
        if q < p {
          GetBelow(Set(Obj(t), q, x), q, p);
        } else if p < q {
          GetAbove(Obj(t), p, q);
        } else if p != q {
          GetSetOther(Obj(t), q, x, p);
        }
        NullOrRefStays(mount, Stored(secrets, SecretName(groupId, keys[0]), CONFIG_FIELD, ToText(v)), groupId,
                       SetByPath(t, keys[0], x), keys[1..], p);
      } else {
        NullOrRefStays(mount, secrets, groupId, t, keys[1..], p);
      }
    }
  }

  /** The store loop leaves a document alone exactly when nothing sensitive in it is plain. */
  lemma {:induction false} StoreChangesIff(mount: string, secrets: Secrets, groupId: nat, t: Fields, keys: seq<string>)
    ensures StoredTree(mount, secrets, groupId, t, keys).1 == t <==> AllStored(t, keys)
    ensures AllStored(t, keys) ==> StoredTree(mount, secrets, groupId, t, keys).0 == secrets
    decreases |keys|
  {
    hide IsVaultRef, RefText, SecretName;
    if keys != [] {
      var v, x := GetByPath(t, keys[0]), Str(RefText(mount, groupId, keys[0]));
      if v != Null && !IsRefValue(v) {
        RefTextIsRef(mount, groupId, keys[0]);
        GetSetSame(Obj(t), Split(keys[0]), x);
        NullOrRefStays(mount, Stored(secrets, SecretName(groupId, keys[0]), CONFIG_FIELD, ToText(v)), groupId,
                       SetByPath(t, keys[0], x), keys[1..], Split(keys[0]));
      } else {
        StoreChangesIff(mount, secrets, groupId, t, keys[1..]);
      }
    }
  }
}
