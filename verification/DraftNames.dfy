/** What the draft edits do to group names, whatever the contents hold. */
module DraftNames {
  import opened Vault
  import opened ConfigModel
  import opened DraftEdits

  lemma NamesOfMore(groups: seq<Group>, g: Group)
    ensures GroupNames(groups + [g]) == GroupNames(groups) + {g.name}
  {
    var all := groups + [g];
    assert all[|groups|] == g && forall i | 0 <= i < |groups| :: all[i] == groups[i];
    assert g.name in GroupNames(all);
    forall x | x in GroupNames(groups) ensures x in GroupNames(all) {
      var i :| 0 <= i < |groups| && groups[i].name == x;
      assert all[i].name == x;
    }
  }

  lemma NameAdded(groups: seq<Group>, g: Group)
    requires UniqueNames(groups) && g.name !in GroupNames(groups)
    ensures UniqueNames(groups + [g]) && GroupNames(groups + [g]) == GroupNames(groups) + {g.name}
  {
    NamesOfMore(groups, g);
    assert forall i | 0 <= i < |groups| :: groups[i].name in GroupNames(groups);
  }

  lemma NameKept(groups: seq<Group>, i: nat, g: Group)
    requires UniqueNames(groups) && i < |groups| && g.name == groups[i].name
    ensures UniqueNames(groups[i := g]) && GroupNames(groups[i := g]) == GroupNames(groups) + {g.name}
  {
    var all := groups[i := g];
    assert forall j | 0 <= j < |groups| :: all[j].name == groups[j].name;
    assert groups[i].name in GroupNames(groups);
    forall x ensures x in GroupNames(all) <==> x in GroupNames(groups) {
      if x in GroupNames(groups) {
        var j :| 0 <= j < |groups| && groups[j].name == x;
        assert all[j].name == x;
      }
    }
  }

  lemma UpsertNames(vault: Settings, d: DraftState, dto: UpsertDto)
    requires UniqueNames(d.groups)
    ensures UniqueNames(Upserted(vault, d, dto).groups)
    ensures GroupNames(Upserted(vault, d, dto).groups) == GroupNames(d.groups) + {dto.name}
  {
    hide UniqueNames, GroupNames, UpsertedContent;
    var i, groups := FindGroup(d.groups, dto.name), Upserted(vault, d, dto).groups;
    if i >= 0 {
      NameKept(d.groups, i, groups[i]);
    } else {
      NameAdded(d.groups, groups[|d.groups|]);
    }
  }

  lemma RemoveNames(vault: Settings, d: DraftState, i: nat)
    requires UniqueNames(d.groups) && i < |d.groups|
    ensures UniqueNames(Removed(vault, d, i).groups)
    ensures GroupNames(Removed(vault, d, i).groups) == GroupNames(d.groups) - {d.groups[i].name}
  {
    hide GroupSecretsDropped;
    var rest := Removed(vault, d, i).groups;
    assert forall j | 0 <= j < |rest| :: rest[j] == d.groups[if j < i then j else j + 1];
    forall x | x in GroupNames(d.groups) && x != d.groups[i].name ensures x in GroupNames(rest) {
      var j :| 0 <= j < |d.groups| && d.groups[j].name == x;
      assert rest[if j < i then j else j - 1].name == x;
    }
  }

  lemma CloneNames(vault: Settings, d: DraftState, source: Group)
    requires UniqueNames(d.groups) && source.name !in GroupNames(d.groups)
    ensures UniqueNames(Cloned(vault, d, source).groups)
    ensures GroupNames(Cloned(vault, d, source).groups) == GroupNames(d.groups) + {source.name}
  {
    hide UniqueNames, GroupNames;
    NameAdded(d.groups, Cloned(vault, d, source).groups[|d.groups|]);
  }

  /** Cloning the missing groups adds exactly their names, after the groups already there. */
  lemma {:induction false} CloneMissingNames(vault: Settings, d: DraftState, sources: seq<Group>, present: set<string>)
    requires UniqueNames(d.groups) && UniqueNames(sources) && GroupNames(d.groups) <= present
    ensures var groups := ClonedMissing(vault, d, sources, present).groups;
            && UniqueNames(groups) && d.groups <= groups
            && GroupNames(groups) == GroupNames(d.groups) + (GroupNames(sources) - present)
  {
    if sources != [] {
      var n := |sources| - 1;
      var front, last := sources[..n], sources[n];
      assert sources == front + [last];
      LastIsNew(front, last);
      NamesOfMore(front, last);
      assert UniqueNames(front) by { assert forall i | 0 <= i < n :: front[i] == sources[i]; }
      hide UniqueNames, GroupNames;
      CloneMissingNames(vault, d, front, present);
      if last.name !in present {
        CloneNames(vault, ClonedMissing(vault, d, front, present), last);
      }
    }
  }

  lemma LastIsNew(front: seq<Group>, last: Group)
    requires UniqueNames(front + [last])
    ensures last.name !in GroupNames(front)
  {
    var all := front + [last];
    assert all[|front|] == last && forall i | 0 <= i < |front| :: all[i] == front[i];
  }

  lemma DefaultsNames(d: DraftState)
    requires UniqueNames(d.groups)
    ensures UniqueNames(WithDefaults(d).groups)
  {
    assert ENROLLMENT[7] == 'e' && DEFAULT_CONFIG[7] == 'c';
  }

  lemma {:induction false} PopulateNames(e: Engine, d: DraftState, merged: seq<MergedGroup>)
    requires UniqueNames(d.groups)
    ensures UniqueNames(PopulatedAll(e, d, merged).groups)
    ensures GroupNames(PopulatedAll(e, d, merged).groups) == GroupNames(d.groups) + MergedNames(merged)
  {
    hide UniqueNames, GroupNames;
    if merged != [] {
      var n := |merged| - 1;
      var d1, m := PopulatedAll(e, d, merged[..n]), merged[n];
      PopulateNames(e, d, merged[..n]);
      assert MergedNames(merged) == MergedNames(merged[..n]) + {m.name};
      var i, groups := FindGroup(d1.groups, m.name), PopulatedWith(e, d1, m).groups;
      if i >= 0 {
        NameKept(d1.groups, i, groups[i]);
      } else {
        NameAdded(d1.groups, groups[|d1.groups|]);
      }
    }
  }
}
