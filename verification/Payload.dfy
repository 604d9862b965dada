/** The two ways a device payload is built: live, overlaying config maps with the device's
    revision, and from the device's revision alone. */
module Payload {
  import opened Options
  import opened Tree
  import opened Vault
  import opened ConfigModel
  import opened DraftEdits
  import opened PopulateLaws

  /** `collectGlobals`. */
  function Globals(vault: Settings, secrets: Secrets, groups: seq<Group>): Fields {
    if groups == [] then map[]
    else
      var n := |groups| - 1;
      Globals(vault, secrets, groups[..n]) + (if groups[n].isGlobal then ResolvedContent(vault, secrets, groups[n])
                                              else map[])
  }

  /** Spreading each group over what is already there under its name. */
  function MergedByName(vault: Settings, secrets: Secrets, groups: seq<Group>): map<string, Fields> {
    if groups == [] then map[]
    else
      var n, g := |groups| - 1, groups[|groups| - 1];
      var front := MergedByName(vault, secrets, groups[..n]);
      if g.isGlobal then front
      else front[g.name := (if g.name in front then front[g.name] else map[]) + ResolvedContent(vault, secrets, g)]
  }

  /** Assigning each group under its name. */
  function AssignedByName(vault: Settings, secrets: Secrets, groups: seq<Group>): map<string, Fields> {
    if groups == [] then map[]
    else
      var n, g := |groups| - 1, groups[|groups| - 1];
      var front := AssignedByName(vault, secrets, groups[..n]);
      if g.isGlobal then front else front[g.name := ResolvedContent(vault, secrets, g)]
  }

  function OrEmpty(m: map<string, Fields>, name: string): Fields {
    if name in m then m[name] else map[]
  }

  /** Deleting the null entries. */
  function WithoutNulls(t: Fields): Fields {
    map k | k in t && t[k] != Null :: t[k]
  }

  /** The groups of `buildDeviceConfigPayload`: `mapGroups` are the groups of the applicable config
      maps in revision order, `own` the groups of the device's active revision. */
  function LiveGroups(vault: Settings, secrets: Secrets, mapGroups: seq<Group>, own: seq<Group>): map<string, Fields> {
    var fromMaps, fromDevice := MergedByName(vault, secrets, mapGroups), AssignedByName(vault, secrets, own);
    var globals := Globals(vault, secrets, mapGroups) + Globals(vault, secrets, own);
    map name | name in fromMaps.Keys + fromDevice.Keys ::
      WithoutNulls(globals + OrEmpty(fromMaps, name) + OrEmpty(fromDevice, name))
  }

  /** The groups `getDeviceConfigByVersion` rebuilds from one revision. */
  function RebuiltGroups(vault: Settings, secrets: Secrets, groups: seq<Group>): map<string, Fields> {
    RebuiltFrom(vault, secrets, Globals(vault, secrets, groups), groups)
  }

  function RebuiltFrom(vault: Settings, secrets: Secrets, globals: Fields, groups: seq<Group>): map<string, Fields> {
    if groups == [] then map[]
    else
      var n, g := |groups| - 1, groups[|groups| - 1];
      var front := RebuiltFrom(vault, secrets, globals, groups[..n]);
      if g.isGlobal then front else front[g.name := WithoutNulls(globals + ResolvedContent(vault, secrets, g))]
  }

  // ---------------------------------------------------------------------------------------
  // The lookup specification of the layered merge
  // ---------------------------------------------------------------------------------------

  /** The value of a key in the highest layer that mentions it; layers are listed lowest first. */
  function Lookup(layers: seq<Fields>, key: string): Option<Value> {
    if layers == [] then None
    else if key in layers[|layers| - 1] then Some(layers[|layers| - 1][key])
    else Lookup(layers[..|layers| - 1], key)
  }

  /** The resolved contents of the global groups, in order. */
  function GlobalLayers(vault: Settings, secrets: Secrets, groups: seq<Group>): seq<Fields> {
    if groups == [] then []
    else
      var n := |groups| - 1;
      GlobalLayers(vault, secrets, groups[..n]) + (if groups[n].isGlobal
                                                   then [ResolvedContent(vault, secrets, groups[n])] else [])
  }

  /** The resolved contents of the non-global groups of one name, in order. */
  function NamedLayers(vault: Settings, secrets: Secrets, groups: seq<Group>, name: string): seq<Fields> {
    if groups == [] then []
    else
      var n, g := |groups| - 1, groups[|groups| - 1];
      NamedLayers(vault, secrets, groups[..n], name) + (if !g.isGlobal && g.name == name
                                                        then [ResolvedContent(vault, secrets, g)] else [])
  }

  /** The last of the layers, if any. */
  function LastOnly(layers: seq<Fields>): seq<Fields> {
    if layers == [] then [] else [layers[|layers| - 1]]
  }

  /** All layers of one group of the payload, lowest first: config-map globals, device globals,
      config-map groups with later revisions above earlier ones, the device's own group. */
  function Layers(vault: Settings, secrets: Secrets, mapGroups: seq<Group>, own: seq<Group>,
                  name: string): seq<Fields> {
    GlobalLayers(vault, secrets, mapGroups) + GlobalLayers(vault, secrets, own)
    + NamedLayers(vault, secrets, mapGroups, name) + LastOnly(NamedLayers(vault, secrets, own, name))
  }

  /** `t` answers every key as the layers do. */
  ghost predicate Answers(t: Fields, layers: seq<Fields>) {
    forall k :: Lookup(layers, k) == if k in t then Some(t[k]) else None
  }

  lemma {:induction false} LookupConcat(a: seq<Fields>, b: seq<Fields>, key: string)
    ensures Lookup(a + b, key) == if Lookup(b, key).Some? then Lookup(b, key) else Lookup(a, key)
    decreases |b|
  {
    if b == [] {
      assert a + b == a;
    } else {
      assert (a + b)[..|a + b| - 1] == a + b[..|b| - 1];
      LookupConcat(a, b[..|b| - 1], key);
    }
  }

  lemma AnswersConcat(s: Fields, t: Fields, a: seq<Fields>, b: seq<Fields>)
    requires Answers(s, a) && Answers(t, b)
    ensures Answers(s + t, a + b)
  {
    forall k ensures Lookup(a + b, k) == if k in s + t then Some((s + t)[k]) else None {
      LookupConcat(a, b, k);
    }
  }

  lemma AnswersOne(t: Fields)
    ensures Answers(t, [t])
  {
    forall k ensures Lookup([t], k) == if k in t then Some(t[k]) else None {
      assert [t][..0] == [];
    }
  }

  lemma AnswersNothing()
    ensures Answers(map[], [])
  {
  }

  lemma {:induction false} GlobalsAnswer(vault: Settings, secrets: Secrets, groups: seq<Group>)
    ensures Answers(Globals(vault, secrets, groups), GlobalLayers(vault, secrets, groups))
  {
    hide ResolvedContent, Answers;
    AnswersNothing();
    if groups != [] {
      var n := |groups| - 1;
      GlobalsAnswer(vault, secrets, groups[..n]);
      var r := ResolvedContent(vault, secrets, groups[n]);
      AnswersOne(r);
      AnswersConcat(Globals(vault, secrets, groups[..n]), if groups[n].isGlobal then r else map[],
                    GlobalLayers(vault, secrets, groups[..n]), if groups[n].isGlobal then [r] else []);
    }
  }

  lemma {:induction false} MergedByNameAnswers(vault: Settings, secrets: Secrets, groups: seq<Group>, name: string)
    ensures Answers(OrEmpty(MergedByName(vault, secrets, groups), name), NamedLayers(vault, secrets, groups, name))
    ensures name in MergedByName(vault, secrets, groups) <==> NamedLayers(vault, secrets, groups, name) != []
  {
    hide ResolvedContent, Answers;
    AnswersNothing();
    if groups != [] {
      var n, g := |groups| - 1, groups[|groups| - 1];
      MergedByNameAnswers(vault, secrets, groups[..n], name);
      var r := ResolvedContent(vault, secrets, g);
      AnswersOne(r);
      if !g.isGlobal && g.name == name {
        AnswersConcat(OrEmpty(MergedByName(vault, secrets, groups[..n]), name), r,
                      NamedLayers(vault, secrets, groups[..n], name), [r]);
      } else {
        assert NamedLayers(vault, secrets, groups, name) == NamedLayers(vault, secrets, groups[..n], name);
      }
    }
  }

  lemma {:induction false} AssignedByNameAnswers(vault: Settings, secrets: Secrets, groups: seq<Group>, name: string)
    ensures Answers(OrEmpty(AssignedByName(vault, secrets, groups), name),
                    LastOnly(NamedLayers(vault, secrets, groups, name)))
    ensures name in AssignedByName(vault, secrets, groups) <==> NamedLayers(vault, secrets, groups, name) != []
  {
    hide ResolvedContent, Answers;
    AnswersNothing();
    if groups != [] {
      var n, g := |groups| - 1, groups[|groups| - 1];
      AssignedByNameAnswers(vault, secrets, groups[..n], name);
      var front := NamedLayers(vault, secrets, groups[..n], name);
      if !g.isGlobal && g.name == name {
        AnswersOne(ResolvedContent(vault, secrets, g));
        assert LastOnly(front + [ResolvedContent(vault, secrets, g)]) == [ResolvedContent(vault, secrets, g)];
      } else {
        assert front + [] == front;
      }
    }
  }

  /** The live payload answers every group and key from the highest layer that mentions the key;
      a null there removes the key instead of letting a lower layer show through. */
  lemma LiveIsLookup(vault: Settings, secrets: Secrets, mapGroups: seq<Group>, own: seq<Group>, name: string,
                     key: string)
    ensures var live := LiveGroups(vault, secrets, mapGroups, own);
            && (name in live <==>
                NamedLayers(vault, secrets, mapGroups, name) != [] || NamedLayers(vault, secrets, own, name) != [])
            && (name in live ==>
                var found := Lookup(Layers(vault, secrets, mapGroups, own, name), key);
                && (key in live[name] <==> found.Some? && found.value != Null)
                && (key in live[name] ==> live[name][key] == found.value))
  {
    hide ResolvedContent;
    var fromMaps, fromDevice := MergedByName(vault, secrets, mapGroups), AssignedByName(vault, secrets, own);
    var a, b := Globals(vault, secrets, mapGroups), Globals(vault, secrets, own);
    var la, lb := GlobalLayers(vault, secrets, mapGroups), GlobalLayers(vault, secrets, own);
    var lc, ld := NamedLayers(vault, secrets, mapGroups, name), LastOnly(NamedLayers(vault, secrets, own, name));
    GlobalsAnswer(vault, secrets, mapGroups);
    GlobalsAnswer(vault, secrets, own);
    MergedByNameAnswers(vault, secrets, mapGroups, name);
    AssignedByNameAnswers(vault, secrets, own, name);
    AnswersConcat(a, b, la, lb);
    AnswersConcat(a + b, OrEmpty(fromMaps, name), la + lb, lc);
    AnswersConcat(a + b + OrEmpty(fromMaps, name), OrEmpty(fromDevice, name), la + lb + lc, ld);
    var all := a + b + OrEmpty(fromMaps, name) + OrEmpty(fromDevice, name);
    assert Lookup(Layers(vault, secrets, mapGroups, own, name), key) == if key in all then Some(all[key]) else None;
  }

  // ---------------------------------------------------------------------------------------
  // When the two builders agree
  // ---------------------------------------------------------------------------------------

  /** Every config-map group has a group of its name, with its flag and all its keys, in the revision. */
  ghost predicate Covers(own: seq<Group>, mapGroups: seq<Group>) {
    forall i | 0 <= i < |mapGroups| :: CoversGroup(own, mapGroups[i])
  }

  ghost predicate CoversGroup(own: seq<Group>, g: Group) {
    exists j :: 0 <= j < |own| && own[j].name == g.name && own[j].isGlobal == g.isGlobal
      && g.content.Keys <= own[j].content.Keys
  }

  lemma {:induction false} GlobalsHaveKeys(vault: Settings, secrets: Secrets, own: seq<Group>, j: nat)
    requires j < |own| && own[j].isGlobal
    ensures own[j].content.Keys <= Globals(vault, secrets, own).Keys
  {
    hide ResolvedContent;
    var n := |own| - 1;
    if j < n {
      GlobalsHaveKeys(vault, secrets, own[..n], j);
    } else {
      ResolvedKeys(vault, secrets, own[n]);
    }
  }

  lemma {:induction false} AssignedHasKeys(vault: Settings, secrets: Secrets, own: seq<Group>, j: nat)
    requires j < |own| && !own[j].isGlobal && UniqueNames(own)
    ensures own[j].name in AssignedByName(vault, secrets, own)
    ensures own[j].content.Keys <= AssignedByName(vault, secrets, own)[own[j].name].Keys
  {
    hide ResolvedContent;
    var n := |own| - 1;
    if j < n {
      AssignedHasKeys(vault, secrets, own[..n], j);
    } else {
      ResolvedKeys(vault, secrets, own[n]);
    }
  }

  /** Globals of covered config maps bring no key the revision's own globals lack. */
  lemma {:induction false} GlobalsCovered(vault: Settings, secrets: Secrets, own: seq<Group>, mapGroups: seq<Group>)
    requires Covers(own, mapGroups)
    ensures Globals(vault, secrets, mapGroups).Keys <= Globals(vault, secrets, own).Keys
  {
    hide ResolvedContent;
    if mapGroups != [] {
      var n := |mapGroups| - 1;
      assert forall i | 0 <= i < n :: CoversGroup(own, mapGroups[..n][i]) by {
        assert forall i | 0 <= i < n :: mapGroups[..n][i] == mapGroups[i];
      }
      GlobalsCovered(vault, secrets, own, mapGroups[..n]);
      if mapGroups[n].isGlobal {
        assert CoversGroup(own, mapGroups[n]);
        var j :| 0 <= j < |own| && own[j].name == mapGroups[n].name && own[j].isGlobal
          && mapGroups[n].content.Keys <= own[j].content.Keys;
        GlobalsHaveKeys(vault, secrets, own, j);
        ResolvedKeys(vault, secrets, mapGroups[n]);
      }
    }
  }

  lemma {:induction false} NamesCovered(vault: Settings, secrets: Secrets, own: seq<Group>, mapGroups: seq<Group>,
                                        name: string)
    requires Covers(own, mapGroups) && UniqueNames(own)
    ensures name in MergedByName(vault, secrets, mapGroups) ==>
              && name in AssignedByName(vault, secrets, own)
              && MergedByName(vault, secrets, mapGroups)[name].Keys <= AssignedByName(vault, secrets, own)[name].Keys
  {
    hide ResolvedContent;
    if mapGroups != [] {
      var n, g := |mapGroups| - 1, mapGroups[|mapGroups| - 1];
      assert forall i | 0 <= i < n :: CoversGroup(own, mapGroups[..n][i]) by {
        assert forall i | 0 <= i < n :: mapGroups[..n][i] == mapGroups[i];
      }
      NamesCovered(vault, secrets, own, mapGroups[..n], name);
      if !g.isGlobal && g.name == name {
        assert CoversGroup(own, g);
        var j :| 0 <= j < |own| && own[j].name == g.name && !own[j].isGlobal && g.content.Keys <= own[j].content.Keys;
        AssignedHasKeys(vault, secrets, own, j);
        ResolvedKeys(vault, secrets, g);
      }
    }
  }

  lemma {:induction false} RebuiltIsAssigned(vault: Settings, secrets: Secrets, globals: Fields, groups: seq<Group>)
    ensures var byName := AssignedByName(vault, secrets, groups);
            RebuiltFrom(vault, secrets, globals, groups) == map name | name in byName ::
              WithoutNulls(globals + byName[name])
  {
    hide ResolvedContent, WithoutNulls;
    if groups != [] {
      RebuiltIsAssigned(vault, secrets, globals, groups[..|groups| - 1]);
    }
  }

  /** A key of a payload layer, absent and null alike. */
  function At(t: Fields, key: string): Value {
    if key in t then t[key] else Null
  }

  /** Layers `a` and `m`, placed below `b` and below `d`, do not show: a key that `d` lacks has in
      `m` what `b` has for it, or is in `b`, or is null in `a`. */
  predicate Unseen(a: Fields, b: Fields, m: Fields, d: Fields) {
    forall k | k in a.Keys + m.Keys && k !in d :: if k in m then At(b, k) == m[k] else k in b || a[k] == Null
  }

  lemma UnseenIff(a: Fields, b: Fields, m: Fields, d: Fields)
    ensures WithoutNulls(a + b + m + d) == WithoutNulls(b + d) <==> Unseen(a, b, m, d)
  {
    var all, own := a + b + m + d, b + d;
    assert forall k :: At(WithoutNulls(all), k) == At(all, k) && At(WithoutNulls(own), k) == At(own, k);
    if Unseen(a, b, m, d) {
      forall k ensures At(all, k) == At(own, k) {
        assert k in d || k in a.Keys + m.Keys || all.Keys !! {k} || k in b;
      }
      SameValues(WithoutNulls(all), WithoutNulls(own));
    }
    if WithoutNulls(all) == WithoutNulls(own) {
      forall k | k in a.Keys + m.Keys && k !in d ensures if k in m then At(b, k) == m[k] else k in b || a[k] == Null {
        assert At(all, k) == At(own, k);
      }
    }
  }

  lemma SameValues(s: Fields, t: Fields)
    requires forall k :: At(s, k) == At(t, k)
    requires (forall k | k in s :: s[k] != Null) && (forall k | k in t :: t[k] != Null)
    ensures s == t
  {
    forall k | k in s ensures k in t && s[k] == t[k] {
      assert At(s, k) == At(t, k);
    }
    forall k | k in t ensures k in s {
      assert At(s, k) == At(t, k);
    }
  }

  /** Overlaying the config maps on a revision's groups changes nothing: they bring no group of
      their own, and in no group a key that shows. */
  predicate OverlayIdle(vault: Settings, secrets: Secrets, mapGroups: seq<Group>, own: seq<Group>) {
    var fromMaps, fromDevice := MergedByName(vault, secrets, mapGroups), AssignedByName(vault, secrets, own);
    var a, b := Globals(vault, secrets, mapGroups), Globals(vault, secrets, own);
    && fromMaps.Keys <= fromDevice.Keys
    && forall name | name in fromDevice :: Unseen(a, b, OrEmpty(fromMaps, name), fromDevice[name])
  }

  /** The live payload and the payload rebuilt from the revision alone are the same exactly when
      overlaying the config maps changes nothing. */
  lemma BuildersAgreeIff(vault: Settings, secrets: Secrets, mapGroups: seq<Group>, own: seq<Group>)
    ensures LiveGroups(vault, secrets, mapGroups, own) == RebuiltGroups(vault, secrets, own)
       <==> OverlayIdle(vault, secrets, mapGroups, own)
  {
    hide Globals, MergedByName, AssignedByName, WithoutNulls, Unseen, RebuiltFrom;
    var fromMaps, fromDevice := MergedByName(vault, secrets, mapGroups), AssignedByName(vault, secrets, own);
    var a, b := Globals(vault, secrets, mapGroups), Globals(vault, secrets, own);
    var live, rebuilt := LiveGroups(vault, secrets, mapGroups, own), RebuiltGroups(vault, secrets, own);
    RebuiltIsAssigned(vault, secrets, b, own);
    assert rebuilt.Keys == fromDevice.Keys && live.Keys == fromMaps.Keys + fromDevice.Keys;
    forall name | name in fromDevice
      ensures live[name] == rebuilt[name] <==> Unseen(a, b, OrEmpty(fromMaps, name), fromDevice[name])
    {
      UnseenIff(a, b, OrEmpty(fromMaps, name), fromDevice[name]);
    }
    if fromMaps.Keys <= fromDevice.Keys {
      assert live.Keys == rebuilt.Keys;
    } else {
      var name :| name in fromMaps && name !in fromDevice;
      assert name in live && name !in rebuilt;
    }
  }

  /** The payload rebuilt from a revision alone answers in the same way, from its own layers. */
  lemma RebuiltIsLookup(vault: Settings, secrets: Secrets, own: seq<Group>, name: string, key: string)
    ensures var rebuilt := RebuiltGroups(vault, secrets, own);
            && (name in rebuilt <==> NamedLayers(vault, secrets, own, name) != [])
            && (name in rebuilt ==>
                var found := Lookup(GlobalLayers(vault, secrets, own)
                                    + LastOnly(NamedLayers(vault, secrets, own, name)),
                                    key);
                && (key in rebuilt[name] <==> found.Some? && found.value != Null)
                && (key in rebuilt[name] ==> rebuilt[name][key] == found.value))
  {
    hide Globals, AssignedByName, LiveGroups, RebuiltGroups, NamedLayers, GlobalLayers, Lookup;
    NoMaps(vault, secrets, own, name);
    BuildersAgreeIff(vault, secrets, [], own);
    LiveIsLookup(vault, secrets, [], own, name, key);
    var a, b := GlobalLayers(vault, secrets, own), LastOnly(NamedLayers(vault, secrets, own, name));
    assert [] + a + [] + b == a + b;
  }

  lemma NoMaps(vault: Settings, secrets: Secrets, own: seq<Group>, name: string)
    ensures OverlayIdle(vault, secrets, [], own)
    ensures GlobalLayers(vault, secrets, []) == [] && NamedLayers(vault, secrets, [], name) == []
  {
  }

  /** A revision that covers the config maps hides them. */
  lemma CoveringHides(vault: Settings, secrets: Secrets, mapGroups: seq<Group>, own: seq<Group>)
    requires Covers(own, mapGroups) && UniqueNames(own)
    ensures OverlayIdle(vault, secrets, mapGroups, own)
  {
    hide ResolvedContent, Covers, Globals, MergedByName, AssignedByName;
    GlobalsCovered(vault, secrets, own, mapGroups);
    var fromMaps, fromDevice := MergedByName(vault, secrets, mapGroups), AssignedByName(vault, secrets, own);
    forall name | name in fromMaps ensures name in fromDevice {
      NamesCovered(vault, secrets, own, mapGroups, name);
    }
    forall name | name in fromDevice
      ensures Unseen(Globals(vault, secrets, mapGroups), Globals(vault, secrets, own), OrEmpty(fromMaps, name),
                     fromDevice[name])
    {
      NamesCovered(vault, secrets, own, mapGroups, name);
    }
  }

  /** A config-map group of a name the revision does not have shows. */
  lemma NewNameShows(vault: Settings, secrets: Secrets, mapGroups: seq<Group>, own: seq<Group>, i: nat)
    requires i < |mapGroups| && !mapGroups[i].isGlobal
    requires forall j | 0 <= j < |own| :: own[j].isGlobal || own[j].name != mapGroups[i].name
    ensures !OverlayIdle(vault, secrets, mapGroups, own)
  {
    hide ResolvedContent, Answers, Lookup;
    var name := mapGroups[i].name;
    MergedByNameAnswers(vault, secrets, mapGroups, name);
    AssignedByNameAnswers(vault, secrets, own, name);
    LayersOfName(vault, secrets, mapGroups, name);
    LayersOfName(vault, secrets, own, name);
  }

  lemma {:induction false} LayersOfName(vault: Settings, secrets: Secrets, groups: seq<Group>, name: string)
    ensures NamedLayers(vault, secrets, groups, name) != [] <==>
            exists i :: 0 <= i < |groups| && !groups[i].isGlobal && groups[i].name == name
  {
    hide ResolvedContent;
    if groups != [] {
      LayersOfName(vault, secrets, groups[..|groups| - 1], name);
    }
  }

  /** The flags matter: a config map that marks a group global, over a device group of that name
      that is not global, shows its keys in every other group of the live payload only. */
  lemma FlagsMatter(vault: Settings, secrets: Secrets, net: Group, own: Group, app: Group, key: string)
    requires net.isGlobal && !own.isGlobal && !app.isGlobal && own.name == net.name && app.name != own.name
    requires var t := ResolvedContent(vault, secrets, net); key in t && t[key] != Null
    requires key !in ResolvedContent(vault, secrets, app)
    ensures !OverlayIdle(vault, secrets, [net], [own, app])
  {
    hide ResolvedContent;
    var maps, groups, rOwn, rApp := [net], [own, app], ResolvedContent(vault, secrets, own),
      ResolvedContent(vault, secrets, app);
    assert maps[..0] == [] && groups[..1] == [own] && [own][..0] == [];
    assert Globals(vault, secrets, []) == map[] && AssignedByName(vault, secrets, []) == map[];
    assert MergedByName(vault, secrets, []) == map[];
    assert Globals(vault, secrets, maps) == map[] + ResolvedContent(vault, secrets, net);
    assert Globals(vault, secrets, [own]) == map[] + map[];
    assert Globals(vault, secrets, groups) == Globals(vault, secrets, [own]) + map[];
    assert MergedByName(vault, secrets, maps) == map[];
    assert AssignedByName(vault, secrets, [own]) == map[][own.name := rOwn];
    assert AssignedByName(vault, secrets, groups) == AssignedByName(vault, secrets, [own])[app.name := rApp];
    assert app.name in AssignedByName(vault, secrets, groups) && AssignedByName(vault, secrets, groups)[app.name]
           == rApp;
    assert key in Globals(vault, secrets, maps).Keys + OrEmpty(MergedByName(vault, secrets, maps), app.name).Keys;
    assert key !in Globals(vault, secrets, groups) && OrEmpty(MergedByName(vault, secrets, maps), app.name) == map[];
  }
}
