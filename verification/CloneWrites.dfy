/** What cloning groups writes to Vault, told from the state before it, whatever the groups refer to. */
module CloneWrites {
  import opened Options
  import opened Text
  import opened Tree
  import opened Vault
  import opened SecretKeys
  import opened SecretLaws
  import opened SecretOwnership
  import opened ResolvedPaths
  import opened CloneLaws
  import opened CloneContents
  import opened ConfigModel
  import opened DraftEdits
  import opened DropLaws
  import opened VaultWrites

  /** The secrets a clone of the document under this id stores, if nothing the document refers to
      changes on the way. */
  predicate ClonesTo(cfg: Settings, secrets: Secrets, groupId: nat, t: Fields, keys: seq<string>, n: string) {
    exists k :: k in keys && n == SecretName(groupId, k) && Resolving(cfg, secrets, GetByPath(t, k))
  }

  /** The same for groups cloned one after the other under consecutive ids. */
  predicate AllCloneTo(cfg: Settings, secrets: Secrets, nextId: nat, sources: seq<Group>, n: string) {
    exists i :: 0 <= i < |sources|
      && ClonesTo(cfg, secrets, nextId + i, sources[i].content, sources[i].sensitiveKeys, n)
  }

  /** The value is a reference to one of the names. */
  predicate NamesOne(cfg: Settings, names: string -> bool, v: Value) {
    && IsRefValue(v)
    && var ref := ParseVaultRef(ToText(v));
       ref.mount == cfg.mount && ref.field == CONFIG_FIELD && names(ref.secretId)
  }

  /** No sensitive path of the document names one. */
  predicate Quiet(cfg: Settings, t: Fields, keys: seq<string>, names: string -> bool) {
    forall k | k in keys :: !NamesOne(cfg, names, GetByPath(t, k))
  }

  // ---------------------------------------------------------------------------------------
  // The clone loop
  // ---------------------------------------------------------------------------------------

  /** The store `s` has all texts of `a`, and more only in config fields. */
  ghost predicate Grown(a: Secrets, s: Secrets) {
    && (forall n, f | FieldOf(a, n, f).Some? :: FieldOf(s, n, f) == FieldOf(a, n, f))
    && (forall n, f | f != CONFIG_FIELD :: FieldOf(s, n, f) == FieldOf(a, n, f))
  }

  /** It differs at these names only. */
  ghost predicate Only(a: Secrets, s: Secrets, names: string -> bool) {
    forall n | FieldOf(s, n, CONFIG_FIELD) != FieldOf(a, n, CONFIG_FIELD) :: names(n)
  }

  /** No new text is a reference. */
  ghost predicate PlainNew(a: Secrets, s: Secrets) {
    forall n | FieldOf(s, n, CONFIG_FIELD) != FieldOf(a, n, CONFIG_FIELD) ::
      FieldOf(s, n, CONFIG_FIELD).Some? && !IsVaultRef(FieldOf(s, n, CONFIG_FIELD).value)
  }

  /** Nothing is stored under the id yet. */
  ghost predicate FreshId(a: Secrets, groupId: nat) {
    forall k :: FieldOf(a, SecretName(groupId, k), CONFIG_FIELD) == None
  }

  /** Scalars of a clone: its own reference at some processed paths, the source's elsewhere. */
  ghost function OwnRel(mount: string, groupId: nat, done: seq<string>): ScalarRelation {
    (p: Path, a: Value, b: Value) =>
      a == b || (p in Paths(done) && IsRefValue(b) && a == Str(RefText(mount, groupId, Join(p))))
  }

  ghost predicate Written(cfg: Settings, a: Secrets, s: Secrets, groupId: nat, t: Fields, done: seq<string>) {
    forall k | k in done && Resolving(cfg, a, GetByPath(t, k)) ::
      FieldOf(s, SecretName(groupId, k), CONFIG_FIELD).Some?
  }

  /** The loop after `i` keys; `a` is the store before all cloning, `s` the current one. */
  ghost predicate Looping(cfg: Settings, a: Secrets, s: Secrets, groupId: nat, t: Fields, c: Fields, all: seq<string>,
                          i: nat, names: string -> bool, quiet: bool, plain: bool)
    requires i <= |all|
  {
    && Grown(a, s) && Lift(Obj(c), Obj(t), [], OwnRel(cfg.mount, groupId, all[..i]))
    && Written(cfg, a, s, groupId, t, all[..i])
    && (quiet ==> Only(a, s, names) && Quiet(cfg, t, all, names))
    && (plain ==> PlainNew(a, s) && PlainTexts(cfg, a, t, all))
  }

  /** The names cover what the clone stores. */
  ghost predicate Covering(cfg: Settings, a: Secrets, groupId: nat, t: Fields, all: seq<string>,
                           names: string -> bool) {
    forall n | ClonesTo(cfg, a, groupId, t, all, n) :: names(n)
  }

  /** What the loop sees at its `i`-th key. */
  lemma LoopSees(cfg: Settings, a: Secrets, s: Secrets, groupId: nat, t: Fields, c: Fields, all: seq<string>, i: nat,
                 names: string -> bool, quiet: bool, plain: bool)
    requires i < |all| && Looping(cfg, a, s, groupId, t, c, all, i, names, quiet, plain)
    ensures var v, b := GetByPath(c, all[i]), GetByPath(t, all[i]);
            || v == b || (v.Obj? && b.Obj?)
            || (all[i] in all[..i] && IsRefValue(b) && v == Str(RefText(cfg.mount, groupId, all[i])))
  {
    hide IsVaultRef, RefText, SecretName, ToText, Grown, Written, Only, PlainNew;
    var key, p := all[i], Split(all[i]);
    LiftGet(Obj(c), Obj(t), [], p, OwnRel(cfg.mount, groupId, all[..i]));
    hide Lift;
    assert [] + p == p;
    JoinSplit(key);
    if p in Paths(all[..i]) {
      var k :| k in all[..i] && Split(k) == p;
      SplitInjective(k, key);
    }
  }

  /** What a text read in the current store is in the store before: the same, or new there. */
  lemma ReadsNow(cfg: Settings, a: Secrets, s: Secrets, text: string)
    requires Grown(a, s) && IsVaultRef(text)
    ensures var ref := ParseVaultRef(text);
            || Resolved(cfg, s, text) == Resolved(cfg, a, text)
            || (ref.mount == cfg.mount && ref.field == CONFIG_FIELD && Resolved(cfg, a, text) == None
                && Resolved(cfg, s, text) == FieldOf(s, ref.secretId, CONFIG_FIELD)
                && FieldOf(s, ref.secretId, CONFIG_FIELD) != FieldOf(a, ref.secretId, CONFIG_FIELD))
  {
    hide Resolved, ParseVaultRef, IsVaultRef, FieldOf;
    ResolvedField(cfg, a, text);
    ResolvedField(cfg, s, text);
  }

  /** The text of a source's reference. */
  lemma SourceText(cfg: Settings, a: Secrets, s: Secrets, groupId: nat, t: Fields, all: seq<string>, key: string,
                   names: string -> bool)
    requires key in all && Grown(a, s) && Covering(cfg, a, groupId, t, all, names) && IsRefValue(GetByPath(t, key))
    ensures var b := GetByPath(t, key);
            && (Resolving(cfg, a, b) ==> Resolving(cfg, s, b))
            && (Resolving(cfg, s, b) && Quiet(cfg, t, all, names) && Only(a, s, names) ==>
                names(SecretName(groupId, key)))
            && (Resolving(cfg, s, b) && PlainTexts(cfg, a, t, all) && PlainNew(a, s) ==>
                !IsVaultRef(Resolved(cfg, s, ToText(b)).value))
  {
    hide IsVaultRef, SecretName, Resolved, ToText, FieldOf, ParseVaultRef, Grown, GetByPath;
    var b := GetByPath(t, key);
    ReadsNow(cfg, a, s, ToText(b));
    CloneLaws.PlainText(cfg, a, t, all, key);
    if Resolved(cfg, s, ToText(b)) == Resolved(cfg, a, ToText(b)) {
      if Resolving(cfg, a, b) {
        assert ClonesTo(cfg, a, groupId, t, all, SecretName(groupId, key));
      }
    } else {
      assert Only(a, s, names) ==> NamesOne(cfg, names, b);
    }
  }

  /** The text of the clone's own reference. */
  lemma OwnText(cfg: Settings, a: Secrets, s: Secrets, groupId: nat, key: string, names: string -> bool)
    requires FreshId(a, groupId)
    ensures var v := Str(RefText(cfg.mount, groupId, key));
            && (Resolving(cfg, s, v) && Only(a, s, names) ==> names(SecretName(groupId, key)))
            && (Resolving(cfg, s, v) && PlainNew(a, s) ==> !IsVaultRef(Resolved(cfg, s, ToText(v)).value))
  {
    hide IsVaultRef, RefText, SecretName, Resolved, ToText, FieldOf;
    TextOfStr(RefText(cfg.mount, groupId, key));
    ResolvedOwnRef(cfg, s, groupId, key);
    assert FieldOf(a, SecretName(groupId, key), CONFIG_FIELD) == None;
  }

  /** The text one turn stores: what the source resolves to before, or something new already. */
  lemma LoopText(cfg: Settings, a: Secrets, s: Secrets, groupId: nat, t: Fields, c: Fields, all: seq<string>, i: nat,
                 names: string -> bool, quiet: bool, plain: bool)
    requires i < |all| && Looping(cfg, a, s, groupId, t, c, all, i, names, quiet, plain) && FreshId(a, groupId)
    requires Covering(cfg, a, groupId, t, all, names)
    ensures var v, b := GetByPath(c, all[i]), GetByPath(t, all[i]);
            && (Resolving(cfg, a, b) && !Resolving(cfg, s, v) ==> Written(cfg, a, s, groupId, t, all[..i + 1]))
            && (Resolving(cfg, s, v) ==>
                && IsRefValue(b) && !v.Obj?
                && (quiet ==> names(SecretName(groupId, all[i])))
                && (plain ==> !IsVaultRef(Resolved(cfg, s, ToText(v)).value)))
  {
    hide IsVaultRef, RefText, SecretName, Resolved, ToText, FieldOf, Lift, OwnRel, ParseVaultRef, Grown;
    var key, v, b := all[i], GetByPath(c, all[i]), GetByPath(t, all[i]);
    assert key in all && all[..i + 1] == all[..i] + [key];
    LoopSees(cfg, a, s, groupId, t, c, all, i, names, quiet, plain);
    if v.Obj? {
      ObjectIsNoRef(v);
      ObjectIsNoRef(b);
    } else if IsRefValue(v) {
      ReadsNow(cfg, a, s, ToText(v));
      if v == b {
        SourceText(cfg, a, s, groupId, t, all, key, names);
      } else {
        OwnText(cfg, a, s, groupId, key, names);
        TextOfStr(RefText(cfg.mount, groupId, key));
      }
    } else if IsRefValue(b) {
      RefTextIsRef(cfg.mount, groupId, key);
    }
  }

  /** One turn of the loop. */
  lemma LoopTurn(cfg: Settings, a: Secrets, s: Secrets, groupId: nat, t: Fields, c: Fields, all: seq<string>, i: nat,
                 names: string -> bool, quiet: bool, plain: bool)
    requires i < |all| && Looping(cfg, a, s, groupId, t, c, all, i, names, quiet, plain) && FreshId(a, groupId)
    requires Covering(cfg, a, groupId, t, all, names)
    ensures var v := GetByPath(c, all[i]);
            if Resolving(cfg, s, v)
            then Looping(cfg, a, Stored(s, SecretName(groupId, all[i]), CONFIG_FIELD,
                                        Resolved(cfg, s, ToText(v)).value),
                         groupId, t, SetByPath(c, all[i], Str(RefText(cfg.mount, groupId, all[i]))), all, i + 1, names,
                           quiet, plain)
            else Looping(cfg, a, s, groupId, t, c, all, i + 1, names, quiet, plain)
  {
    hide IsVaultRef, RefText, SecretName, Resolved, ToText, FieldOf, Lift, OwnRel, ParseVaultRef, Quiet, PlainTexts,
         Stored, Grown, Only, PlainNew, Written;
    var v := GetByPath(c, all[i]);
    LoopText(cfg, a, s, groupId, t, c, all, i, names, quiet, plain);
    LoopDocument(cfg, groupId, t, c, all, i);
    if Resolving(cfg, s, v) {
      LoopStore(cfg, a, s, groupId, t, all, i, names, Resolved(cfg, s, ToText(v)).value);
    } else {
      StillWritten(cfg, a, s, groupId, t, all, i);
    }
  }

  lemma StillWritten(cfg: Settings, a: Secrets, s: Secrets, groupId: nat, t: Fields, all: seq<string>, i: nat)
    requires i < |all| && Written(cfg, a, s, groupId, t, all[..i])
    ensures !Resolving(cfg, a, GetByPath(t, all[i])) ==> Written(cfg, a, s, groupId, t, all[..i + 1])
  {
    hide Resolving, SecretName, FieldOf, GetByPath;
    assert all[..i + 1] == all[..i] + [all[i]];
  }

  /** Its document side. */
  lemma LoopDocument(cfg: Settings, groupId: nat, t: Fields, c: Fields, all: seq<string>, i: nat)
    requires i < |all| && Lift(Obj(c), Obj(t), [], OwnRel(cfg.mount, groupId, all[..i]))
    ensures Lift(Obj(c), Obj(t), [], OwnRel(cfg.mount, groupId, all[..i + 1]))
    ensures IsRefValue(GetByPath(t, all[i])) && !GetByPath(c, all[i]).Obj? && GetByPath(c, all[i]) != Null ==>
              Lift(Obj(SetByPath(c, all[i], Str(RefText(cfg.mount, groupId, all[i])))), Obj(t), [],
                   OwnRel(cfg.mount, groupId, all[..i + 1]))
  {
    hide IsVaultRef, RefText, ToText, Lift, Get, Set;
    var key, p := all[i], Split(all[i]);
    assert all[..i + 1] == all[..i] + [key] && [] + p == p;
    JoinSplit(key);
    var rel, rel' := OwnRel(cfg.mount, groupId, all[..i]), OwnRel(cfg.mount, groupId, all[..i + 1]);
    assert Paths(all[..i + 1]) == Paths(all[..i]) + {p};
    hide Paths;
    LiftGet(Obj(c), Obj(t), [], p, rel);
    LiftKeep(Obj(c), Obj(t), [], p, rel, rel');
    var b := GetByPath(t, key);
    if IsRefValue(b) && !GetByPath(c, key).Obj? && GetByPath(c, key) != Null {
      if b.Obj? { ObjectIsNoRef(b); }
      LiftSet(Obj(c), Obj(t), [], p, Str(RefText(cfg.mount, groupId, key)), b, rel, rel');
      SetGet(Obj(t), p);
    }
  }

  /** Its Vault side. */
  lemma LoopStore(cfg: Settings, a: Secrets, s: Secrets, groupId: nat, t: Fields, all: seq<string>, i: nat,
                  names: string -> bool, text: string)
    requires i < |all| && Grown(a, s) && Written(cfg, a, s, groupId, t, all[..i]) && FreshId(a, groupId)
    ensures var s' := Stored(s, SecretName(groupId, all[i]), CONFIG_FIELD, text);
            && Grown(a, s') && Written(cfg, a, s', groupId, t, all[..i + 1])
            && (Only(a, s, names) && names(SecretName(groupId, all[i])) ==> Only(a, s', names))
            && (PlainNew(a, s) && !IsVaultRef(text) ==> PlainNew(a, s'))
  {
    hide IsVaultRef, SecretName, Stored, FieldOf, Resolving, GetByPath;
    var name, s' := SecretName(groupId, all[i]), Stored(s, SecretName(groupId, all[i]), CONFIG_FIELD, text);
    assert all[..i + 1] == all[..i] + [all[i]];
    forall n, f ensures FieldOf(s', n, f) == if n == name && f == CONFIG_FIELD then Some(text) else FieldOf(s, n, f) {
      StoredField(s, name, CONFIG_FIELD, text, n, f);
    }
    assert FieldOf(a, name, CONFIG_FIELD) == None;
  }

  lemma {:induction false} LoopRuns(cfg: Settings, a: Secrets, s: Secrets, groupId: nat, t: Fields, c: Fields,
                                    all: seq<string>, i: nat, names: string -> bool, quiet: bool, plain: bool)
    requires i <= |all| && Looping(cfg, a, s, groupId, t, c, all, i, names, quiet, plain) && FreshId(a, groupId)
    requires Covering(cfg, a, groupId, t, all, names)
    ensures var (s', c') := ClonedTree(cfg, s, groupId, c, all[i..]);
            Looping(cfg, a, s', groupId, t, c', all, |all|, names, quiet, plain)
    decreases |all| - i
  {
    hide IsVaultRef, RefText, SecretName, Resolved, Looping, FreshId, Covering, Stored;
    if i < |all| {
      var key, v := all[i], GetByPath(c, all[i]);
      Suffix(all, i);
      LoopTurn(cfg, a, s, groupId, t, c, all, i, names, quiet, plain);
      if Resolving(cfg, s, v) {
        LoopRuns(cfg, a, Stored(s, SecretName(groupId, key), CONFIG_FIELD, Resolved(cfg, s, ToText(v)).value), groupId,
                 t,
                 SetByPath(c, key, Str(RefText(cfg.mount, groupId, key))), all, i + 1, names, quiet, plain);
      } else {
        LoopRuns(cfg, a, s, groupId, t, c, all, i + 1, names, quiet, plain);
      }
    } else {
      assert all[i..] == [] && all[..i] == all;
    }
  }

  // ---------------------------------------------------------------------------------------
  // Cloning several groups
  // ---------------------------------------------------------------------------------------

  /** The names the clones are stored under. */
  function StoredNames(cfg: Settings, a: Secrets, nextId: nat, sources: seq<Group>): string -> bool {
    n => AllCloneTo(cfg, a, nextId, sources, n)
  }

  /** No id from here on has a secret. */
  ghost predicate FreshFrom(a: Secrets, nextId: nat) {
    forall h: nat, k | h >= nextId :: FieldOf(a, SecretName(h, k), CONFIG_FIELD) == None
  }

  ghost predicate AllQuiet(cfg: Settings, sources: seq<Group>, names: string -> bool) {
    forall i | 0 <= i < |sources| :: Quiet(cfg, sources[i].content, sources[i].sensitiveKeys, names)
  }

  ghost predicate AllPlain(cfg: Settings, a: Secrets, sources: seq<Group>) {
    forall i | 0 <= i < |sources| :: PlainTexts(cfg, a, sources[i].content, sources[i].sensitiveKeys)
  }

  /** What the first `m` clones did to Vault. */
  ghost predicate AllLooped(cfg: Settings, a: Secrets, s: Secrets, nextId: nat, sources: seq<Group>, m: nat,
                         names: string -> bool, quiet: bool, plain: bool)
    requires m <= |sources|
  {
    && Grown(a, s) && (quiet ==> Only(a, s, names)) && (plain ==> PlainNew(a, s))
    && (forall i | 0 <= i < m :: Written(cfg, a, s, nextId + i, sources[i].content, sources[i].sensitiveKeys))
  }

  lemma CloneOne(cfg: Settings, a: Secrets, s: Secrets, nextId: nat, sources: seq<Group>, m: nat,
                 names: string -> bool, quiet: bool, plain: bool)
    requires m < |sources| && AllLooped(cfg, a, s, nextId, sources, m, names, quiet, plain) && FreshFrom(a, nextId)
    requires forall n | AllCloneTo(cfg, a, nextId, sources, n) :: names(n)
    requires (quiet ==> AllQuiet(cfg, sources, names)) && (plain ==> AllPlain(cfg, a, sources))
    ensures var g := sources[m];
            AllLooped(cfg, a, ClonedTree(cfg, s, nextId + m, g.content, g.sensitiveKeys).0, nextId, sources, m + 1,
                      names,
                      quiet, plain)
  {
    hide Grown, Only, PlainNew, SecretName, FieldOf, Resolving, ClonedTree, Quiet, PlainTexts, ClonesTo, OnlyWrites,
         Written;
    var g, id := sources[m], nextId + m;
    var t, keys := g.content, g.sensitiveKeys;
    var (s', c) := ClonedTree(cfg, s, id, t, keys);
    assert keys[..0] == [] && keys[0..] == keys && keys[..|keys|] == keys;
    LiftSame(Obj(t), [], OwnRel(cfg.mount, id, keys[..0]));
    NothingWritten(cfg, a, s, id, t);
    LoopRuns(cfg, a, s, id, t, t, keys, 0, names, quiet, plain);
    CloneWritesOwn(cfg, s, id, t, keys);
    forall i | 0 <= i < m + 1
      ensures Written(cfg, a, s', nextId + i, sources[i].content, sources[i].sensitiveKeys)
    {
      if i < m {
        StaysWritten(cfg, a, s, s', nextId + i, sources[i].content, sources[i].sensitiveKeys, id);
      }
    }
  }

  lemma NothingWritten(cfg: Settings, a: Secrets, s: Secrets, groupId: nat, t: Fields)
    ensures Written(cfg, a, s, groupId, t, [])
  {
  }

  lemma StaysWritten(cfg: Settings, a: Secrets, s: Secrets, s': Secrets, groupId: nat, t: Fields, keys: seq<string>,
                     other: nat)
    requires Written(cfg, a, s, groupId, t, keys) && OnlyWrites(s, s', {other}) && other != groupId
    ensures Written(cfg, a, s', groupId, t, keys)
  {
    hide SecretName, FieldOf, Resolving, OnlyWrites, Outside, GetByPath;
    forall k | k in keys && Resolving(cfg, a, GetByPath(t, k))
      ensures FieldOf(s', SecretName(groupId, k), CONFIG_FIELD).Some?
    {
      NameWithin(groupId, k, {other});
      SameField(s, s', {other}, SecretName(groupId, k), CONFIG_FIELD);
    }
  }

  lemma SameField(a: Secrets, b: Secrets, written: set<nat>, n: string, f: string)
    requires OnlyWrites(a, b, written) && Outside(n, written)
    ensures FieldOf(a, n, f) == FieldOf(b, n, f)
  {
    hide Outside;
    assert SameSecret(a, b, n);
  }

  lemma {:induction false} ClonesRun(vault: Settings, d: DraftState, sources: seq<Group>, m: nat, names: string -> bool,
                                     quiet: bool, plain: bool)
    requires vault.enabled && m <= |sources| && FreshFrom(d.secrets, d.nextId)
    requires forall n | AllCloneTo(vault, d.secrets, d.nextId, sources, n) :: names(n)
    requires (quiet ==> AllQuiet(vault, sources, names)) && (plain ==> AllPlain(vault, d.secrets, sources))
    ensures var d' := ClonedMissing(vault, d, sources[..m], {});
            && d'.nextId == d.nextId + m
            && AllLooped(vault, d.secrets, d'.secrets, d.nextId, sources, m, names, quiet, plain)
    decreases m
  {
    hide AllLooped, FreshFrom, AllCloneTo, AllQuiet, AllPlain, ClonedTree;
    if m == 0 {
      NothingCloned(vault, d.secrets, d.nextId, sources, names, quiet, plain);
    } else {
      ClonesRun(vault, d, sources, m - 1, names, quiet, plain);
      var d1 := ClonedMissing(vault, d, sources[..m - 1], {});
      assert sources[..m][..m - 1] == sources[..m - 1];
      CloneOne(vault, d.secrets, d1.secrets, d.nextId, sources, m - 1, names, quiet, plain);
    }
  }

  lemma NothingCloned(cfg: Settings, a: Secrets, nextId: nat, sources: seq<Group>, names: string -> bool, quiet: bool,
                      plain: bool)
    ensures AllLooped(cfg, a, a, nextId, sources, 0, names, quiet, plain)
  {
  }

  lemma {:induction false} MissingAreCloned(vault: Settings, d: DraftState, sources: seq<Group>, present: set<string>)
    ensures ClonedMissing(vault, d, sources, present) == ClonedMissing(vault, d, Missing(sources, present), {})
  {
    hide Cloned;
    if sources != [] {
      var n := |sources| - 1;
      MissingAreCloned(vault, d, sources[..n], present);
      var front := Missing(sources[..n], present);
      if sources[n].name !in present {
        assert (front + [sources[n]])[..|front|] == front;
      } else {
        assert front + [] == front;
      }
    }
  }

  // ---------------------------------------------------------------------------------------
  // Which groups the clones change
  // ---------------------------------------------------------------------------------------

  /** A sensitive path of the group names a secret the clones store, before it is stored. */
  predicate CloneDisturbs(vault: Settings, a: Secrets, nextId: nat, sources: seq<Group>, g: Group) {
    vault.enabled && !Quiet(vault, g.content, g.sensitiveKeys, StoredNames(vault, a, nextId, sources))
  }

  /** Every group lists each path once, or no sensitive reference resolves to another reference. */
  ghost predicate AllDirect(vault: Settings, a: Secrets, groups: Group -> bool) {
    || (forall g | groups(g) :: Once(g.sensitiveKeys))
    || (forall g | groups(g) :: PlainTexts(vault, a, g.content, g.sensitiveKeys))
  }

  lemma FieldDiffers(vault: Settings, a: Secrets, b: Secrets, g: Group, names: string -> bool)
    requires Grown(a, b) && Only(a, b, names) && Quiet(vault, g.content, g.sensitiveKeys, names)
    ensures !ReadsChanged(vault, a, b, g)
  {
    hide IsVaultRef, ToText, ParseVaultRef, FieldOf, GetByPath;
  }

  /** A reader of a secret that a clone stored sees it appear. */
  lemma CloneIsSeen(vault: Settings, a: Secrets, b: Secrets, nextId: nat, sources: seq<Group>, g: Group, plain: bool,
                    names: string -> bool, quiet: bool)
    requires AllLooped(vault, a, b, nextId, sources, |sources|, names, quiet, plain) && FreshFrom(a, nextId)
    requires CloneDisturbs(vault, a, nextId, sources, g)
    ensures ReadsChanged(vault, a, b, g)
  {
    hide IsVaultRef, ToText, ParseVaultRef, FieldOf, GetByPath, SecretName, Grown, Resolving;
    var names' := StoredNames(vault, a, nextId, sources);
    var k :| k in g.sensitiveKeys && NamesOne(vault, names', GetByPath(g.content, k));
    var n := ParseVaultRef(ToText(GetByPath(g.content, k))).secretId;
    var i :| 0 <= i < |sources| && ClonesTo(vault, a, nextId + i, sources[i].content, sources[i].sensitiveKeys, n);
    var j :| j in sources[i].sensitiveKeys && n == SecretName(nextId + i, j)
             && Resolving(vault, a, GetByPath(sources[i].content, j));
    assert FieldOf(a, SecretName(nextId + i, j), CONFIG_FIELD) == None;
    assert NamesChanged(vault, a, b, GetByPath(g.content, k));
  }

  lemma PlainAfter(vault: Settings, a: Secrets, b: Secrets, g: Group)
    requires Grown(a, b) && PlainNew(a, b) && PlainTexts(vault, a, g.content, g.sensitiveKeys)
    ensures PlainTexts(vault, b, g.content, g.sensitiveKeys)
  {
    hide IsVaultRef, ToText, ParseVaultRef, FieldOf, GetByPath, Resolved, Grown;
    forall k | k in g.sensitiveKeys && IsRefValue(GetByPath(g.content, k))
      ensures !IsRefValue(ResolvedValue(vault, b, ToText(GetByPath(g.content, k))))
    {
      var text := ToText(GetByPath(g.content, k));
      ReadsNow(vault, a, b, text);
      PlainOrNull(vault, a, text);
      PlainOrNull(vault, b, text);
    }
  }

  /** Cloning keeps the resolved contents of all groups of a set that includes the sources exactly when
      no sensitive path in the set names a secret the clones store. */
  lemma ClonesKeepIff(vault: Settings, d: DraftState, sources: seq<Group>, groups: Group -> bool)
    requires FreshFrom(d.secrets, d.nextId) && (forall i | 0 <= i < |sources| :: groups(sources[i]))
    requires vault.enabled ==> AllDirect(vault, d.secrets, groups)
    ensures var after := ClonedMissing(vault, d, sources, {}).secrets;
            (forall g | groups(g) :: ResolvedContent(vault, after, g) == ResolvedContent(vault, d.secrets, g)) <==>
            !exists g :: groups(g) && CloneDisturbs(vault, d.secrets, d.nextId, sources, g)
  {
    hide ResolvedContent, Quiet, FreshFrom, PlainTexts, Once, ReadsChanged, Grown, Only, PlainNew, StoredNames,
         ClonedMissing;
    var a, after := d.secrets, ClonedMissing(vault, d, sources, {}).secrets;
    var names := StoredNames(vault, a, d.nextId, sources);
    if vault.enabled {
      var quiet := !exists g :: groups(g) && CloneDisturbs(vault, a, d.nextId, sources, g);
      var plain := forall g | groups(g) :: PlainTexts(vault, a, g.content, g.sensitiveKeys);
      assert sources[..|sources|] == sources;
      forall n | AllCloneTo(vault, a, d.nextId, sources, n) ensures names(n) { Covers(vault, a, d.nextId, sources, n); }
      ClonesRun(vault, d, sources, |sources|, names, quiet, plain);
      forall g | groups(g)
        ensures ResolvedContent(vault, after, g) == ResolvedContent(vault, a, g) <==> !ReadsChanged(vault, a, after, g)
        ensures if quiet then !ReadsChanged(vault, a, after, g)
                else CloneDisturbs(vault, a, d.nextId, sources, g) ==> ReadsChanged(vault, a, after, g)
      {
        if plain { PlainAfter(vault, a, after, g); }
        ContentKeptIff(vault, a, after, g);
        if quiet {
          FieldDiffers(vault, a, after, g, names);
        } else if CloneDisturbs(vault, a, d.nextId, sources, g) {
          CloneIsSeen(vault, a, after, d.nextId, sources, g, plain, names, quiet);
        }
      }
    } else {
      Untouched(vault, d, sources);
    }
  }

  lemma Covers(cfg: Settings, a: Secrets, nextId: nat, sources: seq<Group>, n: string)
    requires AllCloneTo(cfg, a, nextId, sources, n)
    ensures StoredNames(cfg, a, nextId, sources)(n)
  {
  }

  lemma {:induction false} Untouched(vault: Settings, d: DraftState, sources: seq<Group>)
    requires !vault.enabled
    ensures ClonedMissing(vault, d, sources, {}).secrets == d.secrets
  {
    if sources != [] {
      Untouched(vault, d, sources[..|sources| - 1]);
    }
  }
}
