/** What populating a draft from config maps leaves in it, whatever the contents refer to: one group
    per name, with all the keys of the config-map groups of its name. */
module PopulateLaws {
  import opened Text
  import opened Tree
  import opened Vault
  import opened SecretKeys
  import opened SecretOwnership
  import opened ConfigModel
  import opened DraftEdits

  lemma ResolvedKeys(vault: Settings, secrets: Secrets, g: Group)
    ensures ResolvedContent(vault, secrets, g).Keys == g.content.Keys
  {
    ResolvedTreeKeys(vault, secrets, g.content, g.sensitiveKeys);
  }

  // ---------------------------------------------------------------------------------------
  // Merging
  // ---------------------------------------------------------------------------------------

  ghost predicate UniqueMerged(merged: seq<MergedGroup>) {
    forall i, j | 0 <= i < j < |merged| :: merged[i].name != merged[j].name
  }

  /** The merged groups: one per name, each with all the keys of the config-map groups of its name
      and the flag of one of them. */
  ghost predicate MergedShape(merged: seq<MergedGroup>, groups: seq<Group>) {
    && UniqueMerged(merged)
    && (forall i | 0 <= i < |groups| :: CoveredBy(merged, groups[i]))
    && (forall i | 0 <= i < |merged| :: FlagFrom(groups, merged[i]))
  }

  ghost predicate CoveredBy(merged: seq<MergedGroup>, g: Group) {
    exists j :: 0 <= j < |merged| && merged[j].name == g.name && g.content.Keys <= merged[j].data.Keys
  }

  ghost predicate FlagFrom(groups: seq<Group>, m: MergedGroup) {
    exists j :: 0 <= j < |groups| && groups[j].name == m.name && groups[j].isGlobal == m.isGlobal
  }

  // ---------------------------------------------------------------------------------------
  // Writing the merged groups into the draft
  // ---------------------------------------------------------------------------------------

  /** What one merged group leaves behind in the draft. */
  ghost predicate HoldsMerged(groups: seq<Group>, m: MergedGroup) {
    exists i :: 0 <= i < |groups| && groups[i].name == m.name && groups[i].content.Keys == m.data.Keys
  }

  lemma {:induction false} CopiedTreeKeys(mount: string, objJson: Fields -> string, secrets: Secrets, groupId: nat,
                                          t: Fields, keys: seq<string>)
    ensures CopiedTree(mount, objJson, secrets, groupId, t, keys).1.Keys == t.Keys
    decreases |keys|
  {
    hide RefText, SecretName;
    if keys != [] {
      var v := GetByPath(t, keys[0]);
      if v != Null {
        SetKeepsKeys(t, Split(keys[0]), Str(RefText(mount, groupId, keys[0])));
        CopiedTreeKeys(mount, objJson,
                       Stored(secrets, SecretName(groupId, keys[0]), CONFIG_FIELD, PlainText(objJson, v)), groupId,
                       SetByPath(t, keys[0], Str(RefText(mount, groupId, keys[0]))), keys[1..]);
      } else {
        CopiedTreeKeys(mount, objJson, secrets, groupId, t, keys[1..]);
      }
    }
  }

  /** One merged group is written into the group of its name or a new one; the others stay. */
  ghost predicate OneWritten(groups: seq<Group>, groups': seq<Group>, m: MergedGroup) {
    && HoldsMerged(groups', m) && |groups| <= |groups'|
    && (forall i | 0 <= i < |groups| :: groups'[i].name == groups[i].name && groups'[i].isGlobal == groups[i].isGlobal)
    && (forall i | 0 <= i < |groups| && groups[i].name != m.name :: groups'[i] == groups[i])
    && (forall i | |groups| <= i < |groups'| :: groups'[i].name == m.name && groups'[i].isGlobal == m.isGlobal)
  }

  lemma PopulateWithWrites(e: Engine, d: DraftState, m: MergedGroup)
    ensures OneWritten(d.groups, PopulatedWith(e, d, m).groups, m)
  {
    hide CopiedTree, GroupSecretsDropped;
    var i := FindGroup(d.groups, m.name);
    var at := if i >= 0 then i else |d.groups|;
    var id := if i >= 0 then d.groups[i].id else d.nextId;
    var dropped := if i >= 0 then GroupSecretsDropped(e.vault, d.secrets, d.groups[i]) else d.secrets;
    CopiedTreeKeys(e.vault.mount, e.objJson, dropped, id, m.data, m.keys);
    var groups := PopulatedWith(e, d, m).groups;
    assert groups[at].name == m.name && groups[at].content.Keys == m.data.Keys;
  }

  /** Populating keeps every group and its flag, leaves each merged group's keys in the group of its
      name, and adds groups with a merged group's flag only. */
  ghost predicate PopulatedLike(groups: seq<Group>, groups': seq<Group>, merged: seq<MergedGroup>) {
    && |groups| <= |groups'|
    && (forall i | 0 <= i < |merged| :: HoldsMerged(groups', merged[i]))
    && (forall i | 0 <= i < |groups| :: groups'[i].name == groups[i].name && groups'[i].isGlobal == groups[i].isGlobal)
    && (forall i | |groups| <= i < |groups'| :: FlaggedBy(merged, groups'[i]))
  }

  ghost predicate FlaggedBy(merged: seq<MergedGroup>, g: Group) {
    exists j :: 0 <= j < |merged| && merged[j].name == g.name && merged[j].isGlobal == g.isGlobal
  }

  lemma HoldsMergedStays(groups: seq<Group>, more: seq<Group>, m: MergedGroup, other: string)
    requires HoldsMerged(groups, m) && m.name != other && |groups| <= |more|
    requires forall i | 0 <= i < |groups| && groups[i].name != other :: more[i] == groups[i]
    ensures HoldsMerged(more, m)
  {
    var i :| 0 <= i < |groups| && groups[i].name == m.name && groups[i].content.Keys == m.data.Keys;
    assert more[i] == groups[i];
  }

  lemma FlaggedByMore(front: seq<MergedGroup>, m: MergedGroup, g: Group, g': Group)
    requires FlaggedBy(front, g) && g'.name == g.name && g'.isGlobal == g.isGlobal
    ensures FlaggedBy(front + [m], g')
  {
    var j :| 0 <= j < |front| && front[j].name == g.name && front[j].isGlobal == g.isGlobal;
    assert (front + [m])[j] == front[j];
  }

  lemma {:induction false} PopulateAllLike(e: Engine, d: DraftState, merged: seq<MergedGroup>)
    requires UniqueMerged(merged)
    ensures PopulatedLike(d.groups, PopulatedAll(e, d, merged).groups, merged)
  {
    hide PopulatedWith, HoldsMerged, FlaggedBy;
    if merged != [] {
      hide PopulatedLike, OneWritten;
      var n := |merged| - 1;
      var front, m := merged[..n], merged[n];
      PopulateAllLike(e, d, front);
      var d1 := PopulatedAll(e, d, front);
      PopulateWithWrites(e, d1, m);
      assert merged == front + [m];
      LikeOneMore(d.groups, d1.groups, PopulatedWith(e, d1, m).groups, front, m);
    }
  }

  lemma LikeOneMore(groups: seq<Group>, groups1: seq<Group>, groups2: seq<Group>, front: seq<MergedGroup>,
                    m: MergedGroup)
    requires PopulatedLike(groups, groups1, front) && UniqueMerged(front + [m]) && OneWritten(groups1, groups2, m)
    ensures PopulatedLike(groups, groups2, front + [m])
  {
    hide HoldsMerged, FlaggedBy, UniqueMerged;
    AllHeld(groups1, groups2, front, m);
    forall i | |groups| <= i < |groups2| ensures FlaggedBy(front + [m], groups2[i]) {
      if i < |groups1| {
        FlaggedByMore(front, m, groups1[i], groups2[i]);
      } else {
        FlaggedByLast(front, m, groups2[i]);
      }
    }
  }

  lemma AllHeld(groups: seq<Group>, more: seq<Group>, front: seq<MergedGroup>, m: MergedGroup)
    requires UniqueMerged(front + [m]) && HoldsMerged(more, m) && |groups| <= |more|
    requires forall i | 0 <= i < |front| :: HoldsMerged(groups, front[i])
    requires forall i | 0 <= i < |groups| && groups[i].name != m.name :: more[i] == groups[i]
    ensures forall i | 0 <= i < |front + [m]| :: HoldsMerged(more, (front + [m])[i])
  {
    hide HoldsMerged;
    var merged := front + [m];
    forall i | 0 <= i < |merged| ensures HoldsMerged(more, merged[i]) {
      if i < |front| {
        assert merged[i] == front[i] && merged[i].name != merged[|front|].name;
        HoldsMergedStays(groups, more, front[i], m.name);
      }
    }
  }

  lemma FlaggedByLast(front: seq<MergedGroup>, m: MergedGroup, g: Group)
    requires m.name == g.name && m.isGlobal == g.isGlobal
    ensures FlaggedBy(front + [m], g)
  {
    assert (front + [m])[|front|] == m;
  }
}
