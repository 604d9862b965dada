/** What resolving a document does to each of its paths, and when two stores resolve it alike. */
module ResolvedPaths {
  import opened Text
  import opened Tree
  import opened Vault
  import opened SecretKeys
  import opened SecretLaws

  /** No sensitive reference of the document resolves to another reference. */
  ghost predicate PlainTexts(cfg: Settings, secrets: Secrets, t: Fields, keys: seq<string>) {
    forall k | k in keys && IsRefValue(GetByPath(t, k)) ::
      !IsRefValue(ResolvedValue(cfg, secrets, ToText(GetByPath(t, k))))
  }

  ghost predicate Once(keys: seq<string>) {
    forall i, j | 0 <= i < j < |keys| :: keys[i] != keys[j]
  }

  /** The resolve loop meets no resolved text again as a reference: every path is listed once, or no
      sensitive reference resolves to another reference. */
  ghost predicate Direct(cfg: Settings, secrets: Secrets, t: Fields, keys: seq<string>) {
    Once(keys) || PlainTexts(cfg, secrets, t, keys)
  }

  /** Scalars of a document whose paths `done` are resolved. */
  ghost function ResolvedRel(cfg: Settings, secrets: Secrets, done: seq<string>): ScalarRelation {
    (p: Path, a: Value, b: Value) =>
      a == if p in Paths(done) && IsRefValue(b) then ResolvedValue(cfg, secrets, ToText(b)) else b
  }

  lemma ObjectIsNoRef(v: Value)
    requires v.Obj?
    ensures !IsRefValue(v)
  {
    assert PREFIX[0] == 'v' && ToText(v)[0] == '[';
  }

  lemma ResolvedTurn(cfg: Settings, secrets: Secrets, t: Fields, c: Fields, all: seq<string>, i: nat)
    requires i < |all| && Direct(cfg, secrets, t, all)
    requires Lift(Obj(c), Obj(t), [], ResolvedRel(cfg, secrets, all[..i]))
    ensures var a := GetByPath(c, all[i]);
            var c' := if IsRefValue(a) then SetByPath(c, all[i], ResolvedValue(cfg, secrets, ToText(a))) else c;
            Lift(Obj(c'), Obj(t), [], ResolvedRel(cfg, secrets, all[..i + 1]))
  {
    hide IsVaultRef, Resolved, ToText, Lift, Set, Get;
    var key, p := all[i], Split(all[i]);
    assert all[..i + 1] == all[..i] + [key] && [] + p == p && key in all;
    var rel, rel' := ResolvedRel(cfg, secrets, all[..i]), ResolvedRel(cfg, secrets, all[..i + 1]);
    var a, b := GetByPath(c, key), GetByPath(t, key);
    LiftGet(Obj(c), Obj(t), [], p, rel);
    NowResolved(cfg, secrets, t, all, i, a);
    if a.Obj? {
      ObjectIsNoRef(a);
      LiftKeep(Obj(c), Obj(t), [], p, rel, rel');
    } else if IsRefValue(a) {
      SetGet(Obj(t), p);
      LiftSet(Obj(c), Obj(t), [], p, ResolvedValue(cfg, secrets, ToText(a)), b, rel, rel');
    } else {
      LiftKeep(Obj(c), Obj(t), [], p, rel, rel');
    }
  }

  lemma NowResolved(cfg: Settings, secrets: Secrets, t: Fields, all: seq<string>, i: nat, a: Value)
    requires i < |all| && Direct(cfg, secrets, t, all)
    ensures var rel, rel' := ResolvedRel(cfg, secrets, all[..i]), ResolvedRel(cfg, secrets, all[..i + 1]);
            var p, b := Split(all[i]), GetByPath(t, all[i]);
            && WeakerExceptAt(rel, rel', p)
            && (rel(p, a, b) ==> if IsRefValue(a) then a == b && rel'(p, ResolvedValue(cfg, secrets, ToText(a)), b)
                                 else rel'(p, a, b))
            && (a == Null && b == Null ==> rel'(p, a, b))
  {
    hide IsVaultRef, Resolved, ToText, GetByPath, Split, ResolvedValue, Direct;
    assert Paths(all[..i + 1]) == Paths(all[..i]) + {Split(all[i])} by {
      assert all[..i + 1] == all[..i] + [all[i]];
    }
    SeenIsPlain(cfg, secrets, t, all, i);
    hide Paths;
  }

  /** A path met before does not hold a reference any more. */
  lemma SeenIsPlain(cfg: Settings, secrets: Secrets, t: Fields, all: seq<string>, i: nat)
    requires i < |all| && Direct(cfg, secrets, t, all)
    ensures var b := GetByPath(t, all[i]);
            Split(all[i]) in Paths(all[..i]) && IsRefValue(b) ==> !IsRefValue(ResolvedValue(cfg, secrets, ToText(b)))
  {
    hide IsVaultRef, Resolved, ToText, GetByPath, Split, ResolvedValue, Paths;
    assert all[i] in all;
    if Once(all) { OncePath(all, i); }
  }

  lemma OncePath(all: seq<string>, i: nat)
    requires Once(all) && i < |all|
    ensures Split(all[i]) !in Paths(all[..i])
  {
    hide Split;
    if Split(all[i]) in Paths(all[..i]) {
      var k :| k in all[..i] && Split(k) == Split(all[i]);
      SplitInjective(k, all[i]);
      assert false;
    }
  }

  lemma {:induction false} ResolvingRuns(cfg: Settings, secrets: Secrets, t: Fields, c: Fields, all: seq<string>,
                                         i: nat)
    requires i <= |all| && Direct(cfg, secrets, t, all)
    requires Lift(Obj(c), Obj(t), [], ResolvedRel(cfg, secrets, all[..i]))
    ensures Lift(Obj(ResolvedTree(cfg, secrets, c, all[i..])), Obj(t), [], ResolvedRel(cfg, secrets, all))
    decreases |all| - i
  {
    hide IsVaultRef, Resolved, Direct, ResolvedRel, Lift;
    if i < |all| {
      Suffix(all, i);
      ResolvedTurn(cfg, secrets, t, c, all, i);
      var a := GetByPath(c, all[i]);
      var c' := if IsRefValue(a) then SetByPath(c, all[i], ResolvedValue(cfg, secrets, ToText(a))) else c;
      ResolvingRuns(cfg, secrets, t, c', all, i + 1);
    } else {
      assert all[i..] == [] && all[..i] == all;
    }
  }

  /** Resolving replaces exactly the references at sensitive paths, each by what it resolves to. */
  lemma ResolvedShape(cfg: Settings, secrets: Secrets, t: Fields, keys: seq<string>)
    requires Direct(cfg, secrets, t, keys)
    ensures Lift(Obj(ResolvedTree(cfg, secrets, t, keys)), Obj(t), [], ResolvedRel(cfg, secrets, keys))
  {
    assert keys[..0] == [] && keys[0..] == keys && Paths([]) == {};
    LiftSame(Obj(t), [], ResolvedRel(cfg, secrets, keys[..0]));
    ResolvingRuns(cfg, secrets, t, t, keys, 0);
  }

  lemma ResolvedAt(cfg: Settings, secrets: Secrets, t: Fields, keys: seq<string>, k: string)
    requires Direct(cfg, secrets, t, keys) && k in keys && IsRefValue(GetByPath(t, k))
    ensures GetByPath(ResolvedTree(cfg, secrets, t, keys), k) == ResolvedValue(cfg, secrets, ToText(GetByPath(t, k)))
  {
    hide IsVaultRef, Resolved, ResolvedTree, Lift, Direct;
    var r := ResolvedTree(cfg, secrets, t, keys);
    ResolvedShape(cfg, secrets, t, keys);
    LiftGet(Obj(r), Obj(t), [], Split(k), ResolvedRel(cfg, secrets, keys));
    assert [] + Split(k) == Split(k);
    if GetByPath(t, k).Obj? {
      ObjectIsNoRef(GetByPath(t, k));
    }
  }

  /** Every sensitive reference of the document resolves to the same in both stores. */
  predicate ResolveAlike(cfg: Settings, a: Secrets, b: Secrets, t: Fields, keys: seq<string>) {
    forall k | k in keys && IsRefValue(GetByPath(t, k)) ::
      Resolved(cfg, a, ToText(GetByPath(t, k))) == Resolved(cfg, b, ToText(GetByPath(t, k)))
  }

  /** Two stores resolve a document to the same content exactly when they resolve each of its
      sensitive references alike. */
  lemma ResolvedAlikeIff(cfg: Settings, a: Secrets, b: Secrets, t: Fields, keys: seq<string>)
    requires Direct(cfg, a, t, keys) && Direct(cfg, b, t, keys)
    ensures ResolvedTree(cfg, a, t, keys) == ResolvedTree(cfg, b, t, keys) <==> ResolveAlike(cfg, a, b, t, keys)
  {
    hide IsVaultRef, Resolved, ResolvedTree, Direct, Lift;
    var r, s := ResolvedTree(cfg, a, t, keys), ResolvedTree(cfg, b, t, keys);
    if ResolveAlike(cfg, a, b, t, keys) {
      var rel, rel' := ResolvedRel(cfg, a, keys), ResolvedRel(cfg, b, keys);
      ResolvedShape(cfg, a, t, keys);
      ResolvedShape(cfg, b, t, keys);
      LiftWeaken(Obj(t), Obj(r), Obj(t), [], rel, rel');
      LiftUnique(Obj(r), Obj(s), Obj(t), [], rel');
    }
    if r == s {
      forall k | k in keys && IsRefValue(GetByPath(t, k))
        ensures Resolved(cfg, a, ToText(GetByPath(t, k))) == Resolved(cfg, b, ToText(GetByPath(t, k)))
      {
        ResolvedAt(cfg, a, t, keys, k);
        ResolvedAt(cfg, b, t, keys, k);
      }
    }
  }
}
