/** When a cloned group resolves like its source. */
module CloneLaws {
  import opened Options
  import opened Text
  import opened Tree
  import opened Vault
  import opened SecretKeys
  import opened SecretLaws
  import opened SecretOwnership
  import opened ResolvedPaths

  /** A scalar that holds a reference which resolves to a text. */
  predicate Resolving(cfg: Settings, secrets: Secrets, v: Value) {
    IsRefValue(v) && Resolved(cfg, secrets, ToText(v)).Some?
  }

  /** The keys a clone re-stores have no '/', and those sharing a secret name resolve alike. */
  predicate Clonable(cfg: Settings, secrets: Secrets, t: Fields, keys: seq<string>) {
    && (forall k | k in keys && Resolving(cfg, secrets, GetByPath(t, k)) :: '/' !in k)
    && (forall j, k | j in keys && k in keys && ReplaceDots(j) == ReplaceDots(k)
          && Resolving(cfg, secrets, GetByPath(t, j)) && Resolving(cfg, secrets, GetByPath(t, k)) ::
          Resolved(cfg, secrets, ToText(GetByPath(t, j))) == Resolved(cfg, secrets, ToText(GetByPath(t, k))))
  }

  // ---------------------------------------------------------------------------------------
  // What the clone loop leaves
  // ---------------------------------------------------------------------------------------

  /** Scalars of a clone: the clone's own reference at the processed paths that resolve in the
      source, the source's scalar elsewhere. */
  ghost function CloneRel(cfg: Settings, secrets: Secrets, groupId: nat, done: seq<string>): ScalarRelation {
    (p: Path, a: Value, b: Value) =>
      a == if p in Paths(done) && Resolving(cfg, secrets, b) then Str(RefText(cfg.mount, groupId, Join(p))) else b
  }

  /** Vault holds the source's text under the clone's secret name of every processed path. */
  ghost predicate HoldsCloned(cfg: Settings, secrets: Secrets, s: Secrets, groupId: nat, t: Fields, done: seq<string>) {
    forall k | k in done && Resolving(cfg, secrets, GetByPath(t, k)) ::
      SecretText(s, groupId, k) == Resolved(cfg, secrets, ToText(GetByPath(t, k)))
  }

  /** No text under the clone's secret name of a processed path is a reference. */
  ghost predicate HoldsPlain(cfg: Settings, secrets: Secrets, s: Secrets, groupId: nat, t: Fields, done: seq<string>) {
    forall k | k in done && Resolving(cfg, secrets, GetByPath(t, k)) ::
      SecretText(s, groupId, k).Some? && !IsVaultRef(SecretText(s, groupId, k).value)
  }

  /** State of the clone loop after `i` keys: `s` and `c` are the current store and document. */
  ghost predicate Cloning(cfg: Settings, secrets: Secrets, s: Secrets, groupId: nat, t: Fields, c: Fields,
                          all: seq<string>, i: nat, ids: set<nat>)
    requires i <= |all|
  {
    && Agree(secrets, s, ids) && Lift(Obj(c), Obj(t), [], CloneRel(cfg, secrets, groupId, all[..i]))
    && (Clonable(cfg, secrets, t, all) ==> HoldsCloned(cfg, secrets, s, groupId, t, all[..i]))
    && (PlainTexts(cfg, secrets, t, all) ==> HoldsPlain(cfg, secrets, s, groupId, t, all[..i]))
  }

  /** What the clone loop sees at its `i`-th key: its own reference when the key was processed
      before, the source's scalar otherwise. */
  lemma CloneSees(cfg: Settings, secrets: Secrets, s: Secrets, groupId: nat, t: Fields, c: Fields, all: seq<string>,
                  i: nat, ids: set<nat>)
    requires i < |all| && SensOwned(t, all, cfg.mount, ids) && Cloning(cfg, secrets, s, groupId, t, c, all, i, ids)
    ensures var a, b := GetByPath(c, all[i]), GetByPath(t, all[i]);
            if all[i] in all[..i] && Resolving(cfg, secrets, b)
            then a == Str(RefText(cfg.mount, groupId, all[i]))
                 && Resolved(cfg, s, ToText(a)) == if '/' in all[i] then None else SecretText(s, groupId, all[i])
            else (a == b || (a.Obj? && b.Obj?)) && (Resolving(cfg, s, a) <==> Resolving(cfg, secrets, b))
                 && (Resolving(cfg, s, a) ==>
                     a == b && Resolved(cfg, s, ToText(a)) == Resolved(cfg, secrets, ToText(b)))
  {
    hide IsVaultRef, RefText, SecretName, Resolved, SecretText, OwnedText, Agree, ToText;
    var key, p := all[i], Split(all[i]);
    assert key in all;
    LiftGet(Obj(c), Obj(t), [], p, CloneRel(cfg, secrets, groupId, all[..i]));
    hide Lift;
    assert [] + p == p;
    var a, b := GetByPath(c, key), GetByPath(t, key);
    JoinSplit(key);
    TextOfStr(RefText(cfg.mount, groupId, key));
    ResolvedOwnRef(cfg, s, groupId, key);
    if a.Obj? {
      ObjectIsNoRef(a);
      ObjectIsNoRef(b);
    } else if p in Paths(all[..i]) && Resolving(cfg, secrets, b) {
      var k :| k in all[..i] && Split(k) == p;
      SplitInjective(k, key);
    } else if IsRefValue(b) {
      ResolvedOwned(cfg, secrets, s, ToText(b), ids);
    }
  }

  /** The document side of one clone step. */
  lemma CloneRelStep(cfg: Settings, secrets: Secrets, groupId: nat, t: Fields, c: Fields, all: seq<string>, i: nat)
    requires i < |all| && Lift(Obj(c), Obj(t), [], CloneRel(cfg, secrets, groupId, all[..i]))
    ensures var b, own := GetByPath(t, all[i]), Str(RefText(cfg.mount, groupId, all[i]));
            if Resolving(cfg, secrets, b)
            then Lift(Obj(SetByPath(c, all[i], own)), Obj(t), [], CloneRel(cfg, secrets, groupId, all[..i + 1]))
            else Lift(Obj(c), Obj(t), [], CloneRel(cfg, secrets, groupId, all[..i + 1]))
  {
    hide IsVaultRef, RefText, SecretName, Resolved, ToText;
    var key, p := all[i], Split(all[i]);
    assert all[..i + 1] == all[..i] + [key] && [] + p == p;
    JoinSplit(key);
    var rel, rel' := CloneRel(cfg, secrets, groupId, all[..i]), CloneRel(cfg, secrets, groupId, all[..i + 1]);
    assert WeakerExceptAt(rel, rel', p) by {
      assert Paths(all[..i + 1]) == Paths(all[..i]) + {p};
    }
    LiftGet(Obj(c), Obj(t), [], p, rel);
    hide Lift;
    var b := GetByPath(t, key);
    if Resolving(cfg, secrets, b) {
      if b.Obj? { ObjectIsNoRef(b); }
      RefTextIsRef(cfg.mount, groupId, key);
      LiftSet(Obj(c), Obj(t), [], p, Str(RefText(cfg.mount, groupId, key)), b, rel, rel');
      SetGet(Obj(t), p);
    } else {
      LiftKeep(Obj(c), Obj(t), [], p, rel, rel');
    }
  }

  /** The Vault side of one clone step: which processed paths see the text just stored. */
  lemma CloneStores(s: Secrets, groupId: nat, key: string, text: string, k: string)
    ensures SecretText(Stored(s, SecretName(groupId, key), CONFIG_FIELD, text), groupId, k)
         == if ReplaceDots(k) == ReplaceDots(key) then Some(text) else SecretText(s, groupId, k)
  {
    if SecretName(groupId, k) == SecretName(groupId, key) {
      hide SecretName;
      SecretNameInjective(groupId, groupId, k, key);
    }
  }

  lemma CloneHoldsStep(cfg: Settings, secrets: Secrets, s: Secrets, groupId: nat, t: Fields, all: seq<string>, i: nat,
                       text: string)
    requires i < |all| && Resolving(cfg, secrets, GetByPath(t, all[i]))
    ensures var s' := Stored(s, SecretName(groupId, all[i]), CONFIG_FIELD, text);
            && (Clonable(cfg, secrets, t, all) && HoldsCloned(cfg, secrets, s, groupId, t, all[..i])
                && Some(text) == Resolved(cfg, secrets, ToText(GetByPath(t, all[i]))) ==>
                HoldsCloned(cfg, secrets, s', groupId, t, all[..i + 1]))
            && (HoldsPlain(cfg, secrets, s, groupId, t, all[..i]) && !IsVaultRef(text) ==>
                HoldsPlain(cfg, secrets, s', groupId, t, all[..i + 1]))
  {
    hide IsVaultRef, RefText, SecretName, Resolved, SecretText, Stored, ToText, GetByPath, ReplaceDots;
    assert all[..i + 1] == all[..i] + [all[i]];
    forall k ensures SecretText(Stored(s, SecretName(groupId, all[i]), CONFIG_FIELD, text), groupId, k)
                  == if ReplaceDots(k) == ReplaceDots(all[i]) then Some(text) else SecretText(s, groupId, k)
    {
      CloneStores(s, groupId, all[i], text, k);
    }
  }

  lemma PlainText(cfg: Settings, secrets: Secrets, t: Fields, keys: seq<string>, k: string)
    ensures k in keys && PlainTexts(cfg, secrets, t, keys) && Resolving(cfg, secrets, GetByPath(t, k)) ==>
              !IsVaultRef(Resolved(cfg, secrets, ToText(GetByPath(t, k))).value)
  {
    hide IsVaultRef, Resolved;
  }

  lemma CloningStep(cfg: Settings, secrets: Secrets, s: Secrets, groupId: nat, t: Fields, c: Fields, all: seq<string>,
                    i: nat, ids: set<nat>)
    requires i < |all| && groupId !in ids
    requires SensOwned(t, all, cfg.mount, ids) && Cloning(cfg, secrets, s, groupId, t, c, all, i, ids)
    ensures var a := GetByPath(c, all[i]);
            if Resolving(cfg, s, a)
            then Cloning(cfg, secrets,
                         Stored(s, SecretName(groupId, all[i]), CONFIG_FIELD, Resolved(cfg, s, ToText(a)).value),
                         groupId, t, SetByPath(c, all[i], Str(RefText(cfg.mount, groupId, all[i]))), all, i + 1, ids)
            else Cloning(cfg, secrets, s, groupId, t, c, all, i + 1, ids)
  {
    hide IsVaultRef, RefText, SecretName, Resolved, Lift, Stored, SecretText, CloneRel, Agree, SensOwned, ToText;
    var key, a, b := all[i], GetByPath(c, all[i]), GetByPath(t, all[i]);
    CloneSees(cfg, secrets, s, groupId, t, c, all, i, ids);
    CloneRelStep(cfg, secrets, groupId, t, c, all, i);
    assert all[..i + 1] == all[..i] + [key] && key in all;
    RefTextIsRef(cfg.mount, groupId, key);
    if Resolving(cfg, s, a) {
      var text := Resolved(cfg, s, ToText(a)).value;
      assert PlainTexts(cfg, secrets, t, all) ==> !IsVaultRef(text) by {
        PlainText(cfg, secrets, t, all, key);
      }
      CloneHoldsStep(cfg, secrets, s, groupId, t, all, i, text);
      StoredElsewhere(secrets, s, groupId, key, text, ids);
    } else {
      assert forall k | k in all[..i + 1] && Resolving(cfg, secrets, GetByPath(t, k)) :: k in all[..i];
      if Resolving(cfg, secrets, b) {
        SetGet(Obj(c), Split(key));
        assert SetByPath(c, key, a) == c;
      }
    }
  }

  lemma StoredElsewhere(secrets: Secrets, s: Secrets, groupId: nat, key: string, value: string, ids: set<nat>)
    requires groupId !in ids && Agree(secrets, s, ids)
    ensures Agree(secrets, Stored(s, SecretName(groupId, key), CONFIG_FIELD, value), ids)
  {
    hide SecretName, Within, Stored;
    forall n | Within(n, ids) ensures SameSecret(secrets, Stored(s, SecretName(groupId, key), CONFIG_FIELD, value), n) {
      NameWithin(groupId, key, ids);
      StoredOther(s, SecretName(groupId, key), CONFIG_FIELD, value, n);
      assert SameSecret(secrets, s, n);
    }
  }

  /** The clone loop from its `i`-th key on. */
  lemma {:induction false} CloningRuns(cfg: Settings, secrets: Secrets, s: Secrets, groupId: nat, t: Fields, c: Fields,
                                       all: seq<string>, i: nat, ids: set<nat>)
    requires i <= |all| && groupId !in ids
    requires SensOwned(t, all, cfg.mount, ids) && Cloning(cfg, secrets, s, groupId, t, c, all, i, ids)
    ensures var (s', c') := ClonedTree(cfg, s, groupId, c, all[i..]);
            Cloning(cfg, secrets, s', groupId, t, c', all, |all|, ids)
    decreases |all| - i
  {
    hide IsVaultRef, RefText, SecretName, Resolved, Cloning, SensOwned;
    if i < |all| {
      var key, a := all[i], GetByPath(c, all[i]);
      Suffix(all, i);
      CloningStep(cfg, secrets, s, groupId, t, c, all, i, ids);
      if Resolving(cfg, s, a) {
        CloningRuns(cfg, secrets, Stored(s, SecretName(groupId, key), CONFIG_FIELD, Resolved(cfg, s, ToText(a)).value),
                    groupId, t,
                    SetByPath(c, key, Str(RefText(cfg.mount, groupId, key))), all, i + 1, ids);
      } else {
        CloningRuns(cfg, secrets, s, groupId, t, c, all, i + 1, ids);
      }
    } else {
      assert all[i..] == [] && all[..i] == all;
    }
  }

  lemma CloneLeaves(cfg: Settings, secrets: Secrets, groupId: nat, t: Fields, keys: seq<string>, ids: set<nat>)
    requires SensOwned(t, keys, cfg.mount, ids) && groupId !in ids
    ensures var (s', c) := ClonedTree(cfg, secrets, groupId, t, keys);
            Cloning(cfg, secrets, s', groupId, t, c, keys, |keys|, ids)
  {
    hide IsVaultRef, RefText, SecretName, Resolved, SensOwned, Within;
    assert keys[..0] == [] && Paths([]) == {} && keys[0..] == keys;
    LiftSame(Obj(t), [], CloneRel(cfg, secrets, groupId, keys[..0]));
    CloningRuns(cfg, secrets, secrets, groupId, t, t, keys, 0, ids);
  }

  // ---------------------------------------------------------------------------------------
  // Nothing is lost when colliding keys resolve alike
  // ---------------------------------------------------------------------------------------

  /** Scalars while the clone (left, in store `s`) and the source (right) are resolved together;
      `plain` says that no sensitive reference resolves to another reference. */
  ghost function TogetherRel(cfg: Settings, secrets: Secrets, s: Secrets, ids: set<nat>, plain: bool,
                             rest: seq<string>): ScalarRelation {
    (p: Path, a: Value, b: Value) =>
      && (p in Paths(rest) ==> Readable(cfg, secrets, ids, plain, b))
      && (|| a == b
          || (p in Paths(rest) && Resolving(cfg, secrets, b) && IsRefValue(a)
              && Resolved(cfg, s, ToText(a)) == Resolved(cfg, secrets, ToText(b))))
  }

  ghost predicate Readable(cfg: Settings, secrets: Secrets, ids: set<nat>, plain: bool, b: Value) {
    && OwnedText(ToText(b), cfg.mount, ids)
    && (plain && IsRefValue(b) ==> !IsRefValue(ResolvedValue(cfg, secrets, ToText(b))))
  }

  /** What a reference resolves to is readable again, if it is read again at all. */
  lemma ReadAgain(cfg: Settings, secrets: Secrets, ids: set<nat>, plain: bool, key: string, rest: seq<string>, b: Value)
    requires Held(secrets, cfg.mount, ids) || plain || Once([key] + rest)
    requires IsRefValue(b) && Readable(cfg, secrets, ids, plain, b)
    ensures Split(key) in Paths(rest) ==> Readable(cfg, secrets, ids, plain, ResolvedValue(cfg, secrets, ToText(b)))
  {
    hide Resolved, OwnedText, Held, IsVaultRef, Split;
    var x := ResolvedValue(cfg, secrets, ToText(b));
    if Split(key) in Paths(rest) {
      var k :| k in rest && Split(k) == Split(key);
      SplitInjective(k, key);
      var i :| 0 <= i < |rest| && rest[i] == key;
      assert ([key] + rest)[0] == ([key] + rest)[i + 1];
      if plain {
        PlainIsOwned(x, cfg.mount, ids);
      } else {
        ResolvedIsOwned(cfg, secrets, ToText(b), ids);
        OwnedToText(x, cfg.mount, ids);
      }
    }
  }

  lemma PlainIsOwned(x: Value, mount: string, ids: set<nat>)
    requires !IsRefValue(x)
    ensures OwnedText(ToText(x), mount, ids)
  {
    assert PREFIX[0] == 'v' && "null"[0] == 'n';
  }

  /** The relation at the path of one turn, on scalars. */
  lemma TogetherAt(cfg: Settings, secrets: Secrets, s: Secrets, key: string, rest: seq<string>, ids: set<nat>,
                   plain: bool, a: Value, b: Value)
    requires Agree(secrets, s, ids) && (Held(secrets, cfg.mount, ids) || plain || Once([key] + rest))
    requires TogetherRel(cfg, secrets, s, ids, plain, [key] + rest)(Split(key), a, b)
    ensures if IsRefValue(b)
            then var x := ResolvedValue(cfg, secrets, ToText(b));
                 && IsRefValue(a) && ResolvedValue(cfg, s, ToText(a)) == x
                 && TogetherRel(cfg, secrets, s, ids, plain, rest)(Split(key), x, x)
            else !IsRefValue(a) && TogetherRel(cfg, secrets, s, ids, plain, rest)(Split(key), a, b)
  {
    hide IsVaultRef, Resolved, Held, Agree, Once, ToText, Split, Paths, OwnedText;
    FirstPath(key, rest);
    if IsRefValue(b) {
      if a == b {
        ResolvedOwned(cfg, secrets, s, ToText(b), ids);
      }
      ReadAgain(cfg, secrets, ids, plain, key, rest, b);
    } else {
      assert !Resolving(cfg, secrets, b);
      assert a == b;
      assert Readable(cfg, secrets, ids, plain, b);
    }
  }

  lemma FirstPath(key: string, rest: seq<string>)
    ensures Split(key) in Paths([key] + rest)
  {
    hide Split;
    assert ([key] + rest)[0] == key;
  }

  lemma TogetherNull(cfg: Settings, secrets: Secrets, s: Secrets, rest: seq<string>, ids: set<nat>, plain: bool,
                     p: Path)
    ensures !IsRefValue(Null) && TogetherRel(cfg, secrets, s, ids, plain, rest)(p, Null, Null)
  {
    hide OwnedText;
    PlainIsReadable(cfg, secrets, ids, plain, Null);
  }

  lemma TogetherElsewhere(cfg: Settings, secrets: Secrets, s: Secrets, key: string, rest: seq<string>, ids: set<nat>,
                          plain: bool)
    ensures WeakerExceptAt(TogetherRel(cfg, secrets, s, ids, plain, [key] + rest),
                           TogetherRel(cfg, secrets, s, ids, plain, rest), Split(key))
  {
    hide IsVaultRef, Resolved, Readable, Resolving, Split, ToText;
    assert Paths([key] + rest) == {Split(key)} + Paths(rest) by {
      assert ([key] + rest)[0] == key && ([key] + rest)[1..] == rest;
    }
    hide Paths;
  }

  /** One turn of the resolve loop on both sides. */
  lemma TogetherTurn(cfg: Settings, secrets: Secrets, s: Secrets, t: Fields, c: Fields, key: string, rest: seq<string>,
                     ids: set<nat>, plain: bool)
    requires Agree(secrets, s, ids) && (Held(secrets, cfg.mount, ids) || plain || Once([key] + rest))
    requires Lift(Obj(c), Obj(t), [], TogetherRel(cfg, secrets, s, ids, plain, [key] + rest))
    ensures var a, b := GetByPath(c, key), GetByPath(t, key);
            var c' := if IsRefValue(a) then SetByPath(c, key, ResolvedValue(cfg, s, ToText(a))) else c;
            var t' := if IsRefValue(b) then SetByPath(t, key, ResolvedValue(cfg, secrets, ToText(b))) else t;
            Lift(Obj(c'), Obj(t'), [], TogetherRel(cfg, secrets, s, ids, plain, rest))
  {
    hide IsVaultRef, Resolved, Held, Agree, Once, ToText, TogetherRel, Lift, WeakerExceptAt, Get, Set;
    var p, a, b := Split(key), GetByPath(c, key), GetByPath(t, key);
    assert [] + p == p;
    var rel, rel' := TogetherRel(cfg, secrets, s, ids, plain, [key] + rest),
      TogetherRel(cfg, secrets, s, ids, plain, rest);
    LiftGet(Obj(c), Obj(t), [], p, rel);
    TogetherElsewhere(cfg, secrets, s, key, rest, ids, plain);
    TogetherNull(cfg, secrets, s, rest, ids, plain, p);
    if a.Obj? {
      ObjectIsNoRef(a);
      ObjectIsNoRef(b);
      LiftKeep(Obj(c), Obj(t), [], p, rel, rel');
    } else if a == Null && b == Null {
      LiftKeep(Obj(c), Obj(t), [], p, rel, rel');
    } else {
      TogetherAt(cfg, secrets, s, key, rest, ids, plain, a, b);
      if IsRefValue(b) {
        var x := ResolvedValue(cfg, secrets, ToText(b));
        LiftSet(Obj(c), Obj(t), [], p, x, x, rel, rel');
      } else {
        LiftKeep(Obj(c), Obj(t), [], p, rel, rel');
      }
    }
  }

  lemma PlainIsReadable(cfg: Settings, secrets: Secrets, ids: set<nat>, plain: bool, b: Value)
    requires !IsRefValue(b)
    ensures Readable(cfg, secrets, ids, plain, b)
  {
    hide OwnedText;
    PlainIsOwned(b, cfg.mount, ids);
  }

  lemma {:induction false} ResolveTogether(cfg: Settings, secrets: Secrets, s: Secrets, t: Fields, c: Fields,
                                           keys: seq<string>, ids: set<nat>, plain: bool)
    requires Agree(secrets, s, ids) && (Held(secrets, cfg.mount, ids) || plain || Once(keys))
    requires Lift(Obj(c), Obj(t), [], TogetherRel(cfg, secrets, s, ids, plain, keys))
    ensures ResolvedTree(cfg, s, c, keys) == ResolvedTree(cfg, secrets, t, keys)
    decreases |keys|
  {
    if keys == [] {
      assert Paths(keys) == {};
      LiftEqual(Obj(c), Obj(t), [], TogetherRel(cfg, secrets, s, ids, plain, keys));
    } else {
      var key, rest := keys[0], keys[1..];
      assert keys == [key] + rest;
      TogetherTurn(cfg, secrets, s, t, c, key, rest, ids, plain);
      ResolvedOne(cfg, s, c, keys);
      ResolvedOne(cfg, secrets, t, keys);
      assert Once(keys) ==> Once(rest);
      hide ResolvedTree, Lift, TogetherRel, IsRefValue, ResolvedValue, SetByPath, Held, Agree, Once;
      var a, b := GetByPath(c, key), GetByPath(t, key);
      ResolveTogether(cfg, secrets, s,
                      if IsRefValue(b) then SetByPath(t, key, ResolvedValue(cfg, secrets, ToText(b))) else t,
                      if IsRefValue(a) then SetByPath(c, key, ResolvedValue(cfg, s, ToText(a)))
                        else c, rest, ids, plain);
    }
  }

  lemma CloneIsTogether(cfg: Settings, secrets: Secrets, s: Secrets, groupId: nat, t: Fields, keys: seq<string>,
                        ids: set<nat>, plain: bool, p: Path, a: Value)
    requires SensOwned(t, keys, cfg.mount, ids) && Clonable(cfg, secrets, t, keys)
             && HoldsCloned(cfg, secrets, s, groupId, t, keys) && (plain ==> PlainTexts(cfg, secrets, t, keys))
    requires CloneRel(cfg, secrets, groupId, keys)(p, a, Get(Obj(t), p))
    ensures TogetherRel(cfg, secrets, s, ids, plain, keys)(p, a, Get(Obj(t), p))
  {
    hide IsVaultRef, RefText, SecretName, Resolved, OwnedText, ToText;
    var b := Get(Obj(t), p);
    if p in Paths(keys) {
      var k :| k in keys && Split(k) == p;
      JoinSplit(k);
      RefTextIsRef(cfg.mount, groupId, k);
      ResolvedOwnRef(cfg, s, groupId, k);
      assert GetByPath(t, k) == b;
      TextOfStr(RefText(cfg.mount, groupId, k));
    }
  }

  lemma TextOfStr(s: string)
    ensures ToText(Str(s)) == s
  {
  }

  lemma ClonableResolvesAlike(cfg: Settings, secrets: Secrets, groupId: nat, t: Fields, keys: seq<string>,
                              ids: set<nat>)
    requires SensOwned(t, keys, cfg.mount, ids) && groupId !in ids && Clonable(cfg, secrets, t, keys)
    requires Direct(cfg, secrets, t, keys) || Held(secrets, cfg.mount, ids)
    ensures var (s', c) := ClonedTree(cfg, secrets, groupId, t, keys);
            ResolvedTree(cfg, s', c, keys) == ResolvedTree(cfg, secrets, t, keys)
  {
    hide IsVaultRef, RefText, SecretName, Resolved, Clonable, SensOwned, Held, Agree, HoldsCloned, HoldsPlain,
         PlainTexts, Once, Lift, CloneRel, TogetherRel;
    var (s', c) := ClonedTree(cfg, secrets, groupId, t, keys);
    var plain := PlainTexts(cfg, secrets, t, keys);
    CloneLeaves(cfg, secrets, groupId, t, keys, ids);
    assert keys[..|keys|] == keys;
    var rel, together := CloneRel(cfg, secrets, groupId, keys), TogetherRel(cfg, secrets, s', ids, plain, keys);
    forall p, a | rel(p, a, Get(Obj(t), p)) ensures together(p, a, Get(Obj(t), p)) {
      CloneIsTogether(cfg, secrets, s', groupId, t, keys, ids, plain, p, a);
    }
    LiftWeaken(Obj(t), Obj(c), Obj(t), [], rel, together);
    ResolveTogether(cfg, secrets, s', t, c, keys, ids, plain);
  }

  // ---------------------------------------------------------------------------------------
  // Otherwise something is lost
  // ---------------------------------------------------------------------------------------

  /** What a sensitive path of the source becomes in the clone. */
  lemma CloneReads(cfg: Settings, secrets: Secrets, s: Secrets, groupId: nat, t: Fields, c: Fields, keys: seq<string>,
                   ids: set<nat>, k: string)
    requires SensOwned(t, keys, cfg.mount, ids) && Cloning(cfg, secrets, s, groupId, t, c, keys, |keys|, ids)
             && k in keys
    ensures var a, b := GetByPath(c, k), GetByPath(t, k);
            if Resolving(cfg, secrets, b)
            then a == Str(RefText(cfg.mount, groupId, k))
                 && Resolved(cfg, s, ToText(a)) == if '/' in k then None else SecretText(s, groupId, k)
            else IsRefValue(a) ==> a == b && Resolved(cfg, s, ToText(a)).None?
  {
    hide IsVaultRef, RefText, SecretName, Resolved, SecretText, OwnedText, Agree, ToText;
    var p := Split(k);
    assert keys[..|keys|] == keys && [] + p == p;
    LiftGet(Obj(c), Obj(t), [], p, CloneRel(cfg, secrets, groupId, keys));
    hide Lift;
    var a, b := GetByPath(c, k), GetByPath(t, k);
    JoinSplit(k);
    TextOfStr(RefText(cfg.mount, groupId, k));
    ResolvedOwnRef(cfg, s, groupId, k);
    if a.Obj? {
      ObjectIsNoRef(a);
      ObjectIsNoRef(b);
    } else if IsRefValue(b) && !Resolving(cfg, secrets, b) {
      ResolvedOwned(cfg, secrets, s, ToText(b), ids);
    }
  }

  lemma ClonePlain(cfg: Settings, secrets: Secrets, s: Secrets, groupId: nat, t: Fields, c: Fields, keys: seq<string>,
                   ids: set<nat>)
    requires SensOwned(t, keys, cfg.mount, ids) && Cloning(cfg, secrets, s, groupId, t, c, keys, |keys|, ids)
    requires PlainTexts(cfg, secrets, t, keys)
    ensures PlainTexts(cfg, s, c, keys)
  {
    hide IsVaultRef, RefText, SecretName, Resolved, SecretText, SensOwned, Lift, Agree;
    assert keys[..|keys|] == keys;
    forall k | k in keys && IsRefValue(GetByPath(c, k))
      ensures !IsRefValue(ResolvedValue(cfg, s, ToText(GetByPath(c, k))))
    {
      CloneReads(cfg, secrets, s, groupId, t, c, keys, ids, k);
    }
  }

  /** A clone that resolves like its source had nothing to lose. */
  lemma AlikeIsClonable(cfg: Settings, secrets: Secrets, groupId: nat, t: Fields, keys: seq<string>, ids: set<nat>)
    requires SensOwned(t, keys, cfg.mount, ids) && groupId !in ids && Direct(cfg, secrets, t, keys)
    requires var (s', c) := ClonedTree(cfg, secrets, groupId, t, keys);
             ResolvedTree(cfg, s', c, keys) == ResolvedTree(cfg, secrets, t, keys)
    ensures Clonable(cfg, secrets, t, keys)
  {
    hide IsVaultRef, RefText, SecretName, Resolved, SecretText, SensOwned, Cloning, ResolvedTree, PlainTexts, Once,
         ClonedTree, ReplaceDots;
    var (s', c) := ClonedTree(cfg, secrets, groupId, t, keys);
    CloneLeaves(cfg, secrets, groupId, t, keys, ids);
    if PlainTexts(cfg, secrets, t, keys) { ClonePlain(cfg, secrets, s', groupId, t, c, keys, ids); }
    forall k | k in keys && Resolving(cfg, secrets, GetByPath(t, k))
      ensures '/' !in k && SecretText(s', groupId, k) == Resolved(cfg, secrets, ToText(GetByPath(t, k)))
    {
      CloneReads(cfg, secrets, s', groupId, t, c, keys, ids, k);
      RefTextIsRef(cfg.mount, groupId, k);
      ResolvedAt(cfg, s', c, keys, k);
      ResolvedAt(cfg, secrets, t, keys, k);
    }
    forall j, k | j in keys && k in keys && ReplaceDots(j) == ReplaceDots(k)
      && Resolving(cfg, secrets, GetByPath(t, j)) && Resolving(cfg, secrets, GetByPath(t, k))
      ensures Resolved(cfg, secrets, ToText(GetByPath(t, j))) == Resolved(cfg, secrets, ToText(GetByPath(t, k)))
    {
      SameSecretText(s', groupId, j, k);
    }
  }

  /** A cloned document whose sensitive paths name no secret of the clone resolves to the content of
      its source exactly when no key it re-stores contains '/' and keys that share a secret name
      (`a.b` and `a__b`) resolve alike. Where a path is listed twice and resolves to another reference,
      the condition is enough if the secrets name none of the clone either. */
  lemma CloneResolvesAlikeIff(cfg: Settings, secrets: Secrets, groupId: nat, t: Fields, keys: seq<string>,
                              ids: set<nat>)
    requires SensOwned(t, keys, cfg.mount, ids) && groupId !in ids
    ensures var (s', c) := ClonedTree(cfg, secrets, groupId, t, keys);
            var alike := ResolvedTree(cfg, s', c, keys) == ResolvedTree(cfg, secrets, t, keys);
            && (Clonable(cfg, secrets, t, keys) && Held(secrets, cfg.mount, ids) ==> alike)
            && (Direct(cfg, secrets, t, keys) ==> (alike <==> Clonable(cfg, secrets, t, keys)))
  {
    hide *;
    var (s', c) := ClonedTree(cfg, secrets, groupId, t, keys);
    if Clonable(cfg, secrets, t, keys) && (Direct(cfg, secrets, t, keys) || Held(secrets, cfg.mount, ids)) {
      ClonableResolvesAlike(cfg, secrets, groupId, t, keys, ids);
    }
    if Direct(cfg, secrets, t, keys) && ResolvedTree(cfg, s', c, keys) == ResolvedTree(cfg, secrets, t, keys) {
      AlikeIsClonable(cfg, secrets, groupId, t, keys, ids);
    }
  }
}
