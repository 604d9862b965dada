/** The policies delivered with a release: one release at a time, and in bulk for many. */
module Policies {

  datatype RuleType = Policy | Restriction

  /** The release behind an association row; its catalog id is the primary key. */
  datatype Release = Release(catalogId: string, projectId: nat, projectName: string, version: string)

  /** A rule with its association rows. `rest` stands for the fields that are only copied. */
  datatype Rule = Rule(id: string, kind: RuleType, isActive: bool, isPush: bool, rest: string, releases: seq<Release>)

  datatype Definition = Definition(id: string, kind: RuleType, isActive: bool, isPush: bool, rest: string,
                                   releases: seq<Release>)

  // ---------------------------------------------------------------------------------------
  // The rule queries
  // ---------------------------------------------------------------------------------------

  /** The joined rows a where-clause on the release leaves. */
  function OfReleases(releases: seq<Release>, ids: set<string>): seq<Release> {
    if releases == [] then []
    else
      var n := |releases| - 1;
      OfReleases(releases[..n], ids) + (if releases[n].catalogId in ids then [releases[n]] else [])
  }

  /** `findAllForReleases`: policies with a row among the releases, carrying those rows only. The
      rules are in the order of the query, newest first. */
  function FindAllForReleases(rules: seq<Rule>, ids: set<string>): seq<Rule> {
    if rules == [] then []
    else
      var n := |rules| - 1;
      var joined := OfReleases(rules[n].releases, ids);
      FindAllForReleases(rules[..n], ids) + (if rules[n].kind == Policy && joined != []
                                             then [rules[n].(releases := joined)] else [])
  }

  function AllPolicies(rules: seq<Rule>): seq<Rule> {
    if rules == [] then []
    else
      var n := |rules| - 1;
      AllPolicies(rules[..n]) + (if rules[n].kind == Policy then [rules[n]] else [])
  }

  /** The policies of one release; an empty id adds no where-clause. */
  function FindPolicies(rules: seq<Rule>, catalogId: string): seq<Rule> {
    if catalogId == "" then AllPolicies(rules) else FindAllForReleases(rules, {catalogId})
  }

  // ---------------------------------------------------------------------------------------
  // Delivery
  // ---------------------------------------------------------------------------------------

  predicate Hidden(r: Rule) {
    r.isPush && !r.isActive
  }

  /** `ruleEntityToDefinition` with the override for active push policies. */
  function Delivered(r: Rule): Definition {
    Definition(r.id, r.kind, if r.isPush && r.isActive then false else r.isActive, r.isPush, r.rest, r.releases)
  }

  function Visible(rules: seq<Rule>): seq<Definition> {
    if rules == [] then []
    else
      var n := |rules| - 1;
      Visible(rules[..n]) + (if Hidden(rules[n]) then [] else [Delivered(rules[n])])
  }

  /** `getPoliciesForRelease`. */
  function Single(rules: seq<Rule>, catalogId: string): seq<Definition> {
    Visible(FindPolicies(rules, catalogId))
  }

  predicate Has(releases: seq<Release>, catalogId: string) {
    exists r :: r in releases && r.catalogId == catalogId
  }

  /** The visible policies among fetched rules that carry a row of the release. */
  function Collected(fetched: seq<Rule>, catalogId: string): seq<Definition> {
    if fetched == [] then []
    else
      var n := |fetched| - 1;
      Collected(fetched[..n], catalogId)
      + (if !Hidden(fetched[n]) && catalogId != "" && Has(fetched[n].releases, catalogId) then [Delivered(fetched[n])]
         else [])
  }

  function IdSet(catalogIds: seq<string>): set<string> {
    set id | id in catalogIds
  }

  /** Each rule lists a release at most once. */
  ghost predicate UniqueReleases(rules: seq<Rule>) {
    forall r | r in rules :: UniqueRows(r.releases)
  }

  ghost predicate UniqueRows(releases: seq<Release>) {
    forall i, j | 0 <= i < j < |releases| :: releases[i].catalogId != releases[j].catalogId
  }

  /** `getPoliciesForReleases`. */
  method GetPoliciesForReleases(rules: seq<Rule>, catalogIds: seq<string>)
    returns (result: map<string, seq<Definition>>)
    requires UniqueReleases(rules)
    ensures result.Keys == IdSet(catalogIds)
    ensures forall id | id in catalogIds :: result[id] == Collected(FindAllForReleases(rules, IdSet(catalogIds)), id)
  {
    result := map[];
    if catalogIds == [] {
      return;
    }
    var fetched := FindAllForReleases(rules, IdSet(catalogIds));
    FetchedUnique(rules, IdSet(catalogIds));
    for i := 0 to |catalogIds|
      invariant result.Keys == IdSet(catalogIds[..i])
      invariant forall id | id in result :: result[id] == []
    {
      assert catalogIds[..i + 1] == catalogIds[..i] + [catalogIds[i]];
      result := result[catalogIds[i] := []];
    }
    assert catalogIds[..|catalogIds|] == catalogIds;
    for i := 0 to |fetched|
      invariant result.Keys == IdSet(catalogIds)
      invariant forall id | id in result :: result[id] == Collected(fetched[..i], id)
    {
      assert fetched[..i + 1][..i] == fetched[..i];
      if Hidden(fetched[i]) {
        continue;
      }
      result := Pushed(result, fetched[i]);
    }
    assert fetched[..|fetched|] == fetched;
  }

  /** The inner loop: one definition goes to the list of each of its releases. */
  method Pushed(lists: map<string, seq<Definition>>, rule: Rule) returns (result: map<string, seq<Definition>>)
    requires UniqueRows(rule.releases)
    ensures result.Keys == lists.Keys
    ensures forall id | id in lists ::
              result[id] == lists[id] + (if id != "" && Has(rule.releases, id) then [Delivered(rule)] else [])
  {
    result := lists;
    var definition := Delivered(rule);
    for j := 0 to |rule.releases|
      invariant result.Keys == lists.Keys
      invariant forall id | id in lists ::
                  result[id] == lists[id] + (if id != "" && Has(rule.releases[..j], id) then [definition] else [])
    {
      var id := rule.releases[j].catalogId;
      assert rule.releases[..j + 1] == rule.releases[..j] + [rule.releases[j]];
      assert !Has(rule.releases[..j], id);
      assert forall x :: Has(rule.releases[..j + 1], x) <==> Has(rule.releases[..j], x) || x == id;
      if id != "" && id in result {
        result := result[id := result[id] + [definition]];
      }
    }
    assert rule.releases[..|rule.releases|] == rule.releases;
  }

  lemma {:induction false} OfReleasesHas(releases: seq<Release>, ids: set<string>, r: Release)
    ensures r in OfReleases(releases, ids) <==> r in releases && r.catalogId in ids
    decreases |releases|
  {
    if releases != [] {
      var n := |releases| - 1;
      assert releases == releases[..n] + [releases[n]];
      OfReleasesHas(releases[..n], ids, r);
    }
  }

  lemma {:induction false} OfReleasesUnique(releases: seq<Release>, ids: set<string>)
    requires UniqueRows(releases)
    ensures UniqueRows(OfReleases(releases, ids))
    decreases |releases|
  {
    if releases != [] {
      var n := |releases| - 1;
      OfReleasesUnique(releases[..n], ids);
      var s := OfReleases(releases[..n], ids);
      forall i | 0 <= i < |s| ensures s[i].catalogId != releases[n].catalogId {
        OfReleasesHas(releases[..n], ids, s[i]);
      }
    }
  }

  lemma {:induction false} FetchedUnique(rules: seq<Rule>, ids: set<string>)
    requires UniqueReleases(rules)
    ensures UniqueReleases(FindAllForReleases(rules, ids))
    decreases |rules|
  {
    if rules != [] {
      var n := |rules| - 1;
      assert rules == rules[..n] + [rules[n]];
      FetchedUnique(rules[..n], ids);
      OfReleasesUnique(rules[n].releases, ids);
    }
  }

  // ---------------------------------------------------------------------------------------
  // Bulk against single
  // ---------------------------------------------------------------------------------------

  /** Narrowing the rows of a fetched rule to one release. */
  function Narrowed(d: Definition, catalogId: string): Definition {
    d.(releases := OfReleases(d.releases, {catalogId}))
  }

  function AllNarrowed(ds: seq<Definition>, catalogId: string): seq<Definition> {
    seq(|ds|, i requires 0 <= i < |ds| => Narrowed(ds[i], catalogId))
  }

  lemma {:induction false} OfReleasesTwice(releases: seq<Release>, ids: set<string>, catalogId: string)
    requires catalogId in ids
    ensures OfReleases(OfReleases(releases, ids), {catalogId}) == OfReleases(releases, {catalogId})
    decreases |releases|
  {
    if releases != [] {
      var n := |releases| - 1;
      var s := OfReleases(releases[..n], ids);
      OfReleasesTwice(releases[..n], ids, catalogId);
      OfReleasesOne(s, releases[n], {catalogId});
      if releases[n].catalogId in ids {
        assert OfReleases(releases, ids) == s + [releases[n]];
      } else {
        assert OfReleases(releases, ids) == s;
        assert OfReleases(releases, {catalogId}) == OfReleases(releases[..n], {catalogId});
      }
    }
  }

  lemma OfReleasesOne(front: seq<Release>, r: Release, ids: set<string>)
    ensures OfReleases(front + [r], ids) == OfReleases(front, ids) + (if r.catalogId in ids then [r] else [])
  {
    assert (front + [r])[..|front|] == front;
  }

  lemma HasMember(releases: seq<Release>, r: Release)
    requires r in releases
    ensures Has(releases, r.catalogId)
  {
  }

  lemma MemberOf(releases: seq<Release>, catalogId: string) returns (r: Release)
    requires Has(releases, catalogId)
    ensures r in releases && r.catalogId == catalogId
  {
    r :| r in releases && r.catalogId == catalogId;
  }

  lemma HasIff(releases: seq<Release>, ids: set<string>, catalogId: string)
    requires catalogId in ids
    ensures Has(OfReleases(releases, ids), catalogId) <==> OfReleases(releases, {catalogId}) != []
  {
    hide OfReleases, Has;
    var many, one := OfReleases(releases, ids), OfReleases(releases, {catalogId});
    if Has(many, catalogId) {
      var r := MemberOf(many, catalogId);
      OfReleasesHas(releases, ids, r);
      OfReleasesHas(releases, {catalogId}, r);
      assert one != [];
    }
    if one != [] {
      OfReleasesHas(releases, {catalogId}, one[0]);
      OfReleasesHas(releases, ids, one[0]);
      HasMember(many, one[0]);
    }
  }

  /** For every rule list and every list of ids, the bulk answer for an id is the single answer,
      policy by policy and in the same order, once the release lists are narrowed to that id. */
  lemma {:induction false} BulkRefinesSingle(rules: seq<Rule>, ids: set<string>, catalogId: string)
    requires catalogId in ids && catalogId != ""
    ensures AllNarrowed(Collected(FindAllForReleases(rules, ids), catalogId), catalogId) == Single(rules, catalogId)
    decreases |rules|
  {
    if rules == [] {
      assert Single(rules, catalogId) == [];
    } else {
      hide FindAllForReleases, Collected, Visible, OfReleases, Has, Hidden, Delivered, AllNarrowed;
      var n := |rules| - 1;
      BulkRefinesSingle(rules[..n], ids, catalogId);
      FetchOne(rules, ids);
      FetchOne(rules, {catalogId});
      OneMoreRule(FindAllForReleases(rules[..n], ids), FindAllForReleases(rules[..n], {catalogId}), rules[n], ids,
                  catalogId);
    }
  }

  lemma FetchOne(rules: seq<Rule>, ids: set<string>)
    requires rules != []
    ensures var n := |rules| - 1;
            var front, joined := FindAllForReleases(rules[..n], ids), OfReleases(rules[n].releases, ids);
            FindAllForReleases(rules, ids) == if rules[n].kind == Policy && joined != []
              then front + [rules[n].(releases := joined)] else front
  {
  }

  /** The step of the induction: one more rule on both sides. */
  lemma OneMoreRule(bulk: seq<Rule>, single: seq<Rule>, r: Rule, ids: set<string>, catalogId: string)
    requires catalogId in ids && catalogId != ""
    requires AllNarrowed(Collected(bulk, catalogId), catalogId) == Visible(single)
    ensures var many, one := OfReleases(r.releases, ids), OfReleases(r.releases, {catalogId});
            AllNarrowed(Collected(if r.kind == Policy && many != [] then bulk + [r.(releases := many)]
                                  else bulk, catalogId), catalogId)
            == Visible(if r.kind == Policy && one != [] then single + [r.(releases := one)] else single)
  {
    var many, one := OfReleases(r.releases, ids), OfReleases(r.releases, {catalogId});
    HasIff(r.releases, ids, catalogId);
    OfReleasesTwice(r.releases, ids, catalogId);
    NothingHas(catalogId);
    hide Collected, Visible, OfReleases, Has;
    CollectedOne(bulk, r.(releases := many), catalogId);
    VisibleOne(single, r.(releases := one));
  }

  lemma NothingHas(catalogId: string)
    ensures !Has([], catalogId)
  {
  }

  lemma CollectedOne(front: seq<Rule>, r: Rule, catalogId: string)
    ensures Collected(front + [r], catalogId) ==
            Collected(front, catalogId) + (if !Hidden(r) && catalogId != "" && Has(r.releases, catalogId)
                                           then [Delivered(r)] else [])
  {
    assert (front + [r])[..|front|] == front;
  }

  lemma VisibleOne(front: seq<Rule>, r: Rule)
    ensures Visible(front + [r]) == Visible(front) + (if Hidden(r) then [] else [Delivered(r)])
  {
    assert (front + [r])[..|front|] == front;
  }

  /** Narrowing changes nothing exactly when every listed release is the one asked for. */
  lemma NarrowingIsIdleIff(rules: seq<Rule>, ids: set<string>, catalogId: string)
    requires catalogId in ids && catalogId != ""
    ensures var bulk := Collected(FindAllForReleases(rules, ids), catalogId);
            bulk == Single(rules, catalogId) <==>
              forall d, r | d in bulk && r in d.releases :: r.catalogId == catalogId
  {
    var bulk := Collected(FindAllForReleases(rules, ids), catalogId);
    BulkRefinesSingle(rules, ids, catalogId);
    var single := AllNarrowed(bulk, catalogId);
    if bulk == single {
      forall d, r | d in bulk && r in d.releases ensures r.catalogId == catalogId {
        var i :| 0 <= i < |bulk| && bulk[i] == d;
        assert single[i] == Narrowed(bulk[i], catalogId);
        OfReleasesHas(bulk[i].releases, {catalogId}, r);
      }
    }
    if forall d, r | d in bulk && r in d.releases :: r.catalogId == catalogId {
      forall i | 0 <= i < |bulk| ensures bulk[i] == single[i] {
        assert bulk[i] in bulk;
        AllOfRelease(bulk[i].releases, catalogId);
      }
    }
  }

  lemma {:induction false} AllOfRelease(releases: seq<Release>, catalogId: string)
    requires forall r | r in releases :: r.catalogId == catalogId
    ensures OfReleases(releases, {catalogId}) == releases
    decreases |releases|
  {
    if releases != [] {
      var n := |releases| - 1;
      assert releases == releases[..n] + [releases[n]];
      AllOfRelease(releases[..n], catalogId);
    }
  }

  /** The empty id is different: the single query then has no release filter and returns every
      visible policy, the bulk query returns nothing. */
  lemma EmptyIdIff(rules: seq<Rule>, ids: set<string>)
    ensures Collected(FindAllForReleases(rules, ids), "") == Single(rules, "") <==>
              forall r | r in rules && r.kind == Policy :: Hidden(r)
  {
    EmptyCollects(FindAllForReleases(rules, ids));
    NoneVisibleIff(rules);
  }

  lemma {:induction false} EmptyCollects(fetched: seq<Rule>)
    ensures Collected(fetched, "") == []
    decreases |fetched|
  {
    if fetched != [] {
      EmptyCollects(fetched[..|fetched| - 1]);
    }
  }

  lemma {:induction false} NoneVisibleIff(rules: seq<Rule>)
    ensures Visible(AllPolicies(rules)) == [] <==> forall r | r in rules && r.kind == Policy :: Hidden(r)
    decreases |rules|
  {
    if rules != [] {
      var n := |rules| - 1;
      assert rules == rules[..n] + [rules[n]];
      NoneVisibleIff(rules[..n]);
      hide Visible, Hidden, Delivered;
      VisibleOne(AllPolicies(rules[..n]), rules[n]);
      assert rules[n].kind == Policy ==> AllPolicies(rules) == AllPolicies(rules[..n]) + [rules[n]];
      assert rules[n].kind != Policy ==> AllPolicies(rules) == AllPolicies(rules[..n]);
      assert (forall r | r in rules && r.kind == Policy :: Hidden(r)) <==>
             (forall r | r in rules[..n] && r.kind == Policy :: Hidden(r))
               && (rules[n].kind == Policy ==> Hidden(rules[n]));
    }
  }

  // ---------------------------------------------------------------------------------------
  // What is delivered
  // ---------------------------------------------------------------------------------------

  /** The definition to deliver for a policy of the release: none for a disabled push policy, and
      active only when the policy is active and not push. It lists the queried releases. */
  predicate Delivers(r: Rule, ids: set<string>, catalogId: string, d: Definition) {
    && r.kind == Policy && Has(r.releases, catalogId) && (r.isPush ==> r.isActive)
    && d == Definition(r.id, Policy, r.isActive && !r.isPush, r.isPush, r.rest, OfReleases(r.releases, ids))
  }

  predicate AnyDelivers(rules: seq<Rule>, ids: set<string>, catalogId: string, d: Definition) {
    exists r :: r in rules && Delivers(r, ids, catalogId, d)
  }

  /** Exactly those definitions are delivered in bulk. */
  lemma {:induction false} CollectedMeaning(rules: seq<Rule>, ids: set<string>, catalogId: string, d: Definition)
    requires catalogId in ids && catalogId != ""
    ensures d in Collected(FindAllForReleases(rules, ids), catalogId) <==> AnyDelivers(rules, ids, catalogId, d)
    decreases |rules|
  {
    if rules != [] {
      hide *;
      var n := |rules| - 1;
      var many, front := OfReleases(rules[n].releases, ids), FindAllForReleases(rules[..n], ids);
      CollectedMeaning(rules[..n], ids, catalogId, d);
      DeliversIff(rules[n], ids, catalogId, d);
      FetchOne(rules, ids);
      AnyDeliversOne(rules[..n], rules[n], ids, catalogId, d);
      assert rules == rules[..n] + [rules[n]];
      if rules[n].kind == Policy && many != [] {
        CollectedOne(front, rules[n].(releases := many), catalogId);
      }
    }
  }

  lemma AnyDeliversOne(front: seq<Rule>, r: Rule, ids: set<string>, catalogId: string, d: Definition)
    ensures AnyDelivers(front + [r], ids, catalogId, d) <==>
            AnyDelivers(front, ids, catalogId, d) || Delivers(r, ids, catalogId, d)
  {
    hide Delivers;
    assert r in front + [r];
    assert forall x :: x in front + [r] <==> x in front || x == r;
  }

  lemma DeliversIff(r: Rule, ids: set<string>, catalogId: string, d: Definition)
    requires catalogId in ids
    ensures var many := OfReleases(r.releases, ids);
            Delivers(r, ids, catalogId, d) <==>
              r.kind == Policy && many != [] && !Hidden(r.(releases := many)) && Has(many, catalogId)
                && d == Delivered(r.(releases := many))
  {
    HasStays(r.releases, ids, catalogId);
    NothingHas(catalogId);
    hide OfReleases, Has;
  }

  lemma HasStays(releases: seq<Release>, ids: set<string>, catalogId: string)
    requires catalogId in ids
    ensures Has(OfReleases(releases, ids), catalogId) <==> Has(releases, catalogId)
  {
    hide OfReleases, Has;
    var many := OfReleases(releases, ids);
    if Has(many, catalogId) {
      var r := MemberOf(many, catalogId);
      OfReleasesHas(releases, ids, r);
      HasMember(releases, r);
    }
    if Has(releases, catalogId) {
      var r := MemberOf(releases, catalogId);
      OfReleasesHas(releases, ids, r);
      HasMember(many, r);
    }
  }

  /** A visible policy of the release. */
  predicate Shown(r: Rule, catalogId: string) {
    r.kind == Policy && (r.isPush ==> r.isActive) && Has(r.releases, catalogId)
  }

  /** The release lists differ: a single answer lists only its own release, a bulk answer every
      queried release of the policy. The two answers are equal in every field exactly when no
      visible policy of the release belongs to a second queried release. */
  lemma BulkEqualsSingleIff(rules: seq<Rule>, ids: set<string>, catalogId: string)
    requires catalogId in ids && catalogId != ""
    ensures Collected(FindAllForReleases(rules, ids), catalogId) == Single(rules, catalogId) <==>
              forall r, x | r in rules && Shown(r, catalogId) && x in r.releases && x.catalogId in ids ::
                x.catalogId == catalogId
  {
    hide Collected, FindAllForReleases, Single, OfReleases, Has;
    var bulk := Collected(FindAllForReleases(rules, ids), catalogId);
    NarrowingIsIdleIff(rules, ids, catalogId);
    forall r, x | r in rules && Shown(r, catalogId) && x in r.releases && x.catalogId in ids
      ensures exists d :: d in bulk && x in d.releases
    {
      var d := Definition(r.id, Policy, r.isActive && !r.isPush, r.isPush, r.rest, OfReleases(r.releases, ids));
      assert Delivers(r, ids, catalogId, d);
      CollectedMeaning(rules, ids, catalogId, d);
      OfReleasesHas(r.releases, ids, x);
    }
    forall d, x | d in bulk && x in d.releases
      ensures x.catalogId in ids && exists r :: r in rules && Shown(r, catalogId) && x in r.releases
    {
      CollectedMeaning(rules, ids, catalogId, d);
      var r :| r in rules && Delivers(r, ids, catalogId, d);
      OfReleasesHas(r.releases, ids, x);
    }
  }

  /** What an agent receives for one release. */
  lemma DeliveredMeaning(rules: seq<Rule>, catalogId: string, d: Definition)
    requires catalogId != ""
    ensures d in Single(rules, catalogId) <==> AnyDelivers(rules, {catalogId}, catalogId, d)
  {
    hide *;
    CollectedMeaning(rules, {catalogId}, catalogId, d);
    BulkEqualsSingleIff(rules, {catalogId}, catalogId);
  }
}
