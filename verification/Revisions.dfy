/** A project's revision rows and the DRAFT, ACTIVE, ARCHIVED life cycle. */
module Revisions {
  import opened Options
  import opened ConfigModel
  import opened Versioning

  /** The first revision with the status, or -1. */
  function FindStatus(revs: seq<Revision>, status: Status): (i: int)
    ensures -1 <= i < |revs|
    ensures i >= 0 ==> revs[i].status == status
    ensures i < 0 ==> forall j | 0 <= j < |revs| :: revs[j].status != status
  {
    if revs == [] then -1
    else
      var n := |revs| - 1;
      var i := FindStatus(revs[..n], status);
      if i >= 0 then i else if revs[n].status == status then n else -1
  }

  /** The largest revision number, 0 for no rows. */
  function MaxNumber(revs: seq<Revision>): nat {
    if revs == [] then 0
    else
      var n := |revs| - 1;
      var m := MaxNumber(revs[..n]);
      if revs[n].number > m then revs[n].number else m
  }

  function NewDraft(number: nat): Revision {
    Revision(number, Draft, None, [])
  }

  /** `getOrCreateDraftRevision`. */
  function EnsureDraft(revs: seq<Revision>): (r: seq<Revision>)
    ensures FindStatus(r, Draft) >= 0
  {
    if FindStatus(revs, Draft) >= 0 then revs else revs + [NewDraft(MaxNumber(revs) + 1)]
  }

  /** The groups of the draft, `[]` when there is none. */
  function DraftGroups(revs: seq<Revision>): seq<Group> {
    var i := FindStatus(revs, Draft);
    if i >= 0 then revs[i].groups else []
  }

  function ActiveGroups(revs: seq<Revision>): seq<Group> {
    var i := FindStatus(revs, Active);
    if i >= 0 then revs[i].groups else []
  }

  function ActiveVersion(revs: seq<Revision>): Option<Version> {
    var i := FindStatus(revs, Active);
    if i >= 0 then revs[i].semVer else None
  }

  /** Writing the draft's group rows. */
  function WithDraftGroups(revs: seq<Revision>, groups: seq<Group>): seq<Revision>
    requires FindStatus(revs, Draft) >= 0
  {
    var i := FindStatus(revs, Draft);
    revs[i := revs[i].(groups := groups)]
  }

  /** Archiving whatever is active. */
  function ArchiveActive(revs: seq<Revision>): seq<Revision> {
    seq(|revs|, i requires 0 <= i < |revs| => if revs[i].status == Active then revs[i].(status := Archived)
                                              else revs[i])
  }

  /** Making the draft active under a version. */
  function Activate(revs: seq<Revision>, version: Version): seq<Revision>
    requires FindStatus(revs, Draft) >= 0
  {
    var i := FindStatus(revs, Draft);
    revs[i := revs[i].(status := Active, semVer := Some(version))]
  }

  /** The version the draft is published under. */
  function NextVersionOf(revs: seq<Revision>): Version {
    NextVersion(ActiveGroups(revs), DraftGroups(revs), ActiveVersion(revs))
  }

  /** `applyRevision`: archive the active revision, then publish the draft under the computed version. */
  function Applied(revs: seq<Revision>): seq<Revision>
    requires FindStatus(revs, Draft) >= 0
  {
    var i := FindStatus(revs, Draft);
    ArchiveActive(revs)[i := revs[i].(status := Active, semVer := Some(NextVersionOf(revs)))]
  }

  /** The fresh draft that provisioning and refresh append, numbered after the published one. */
  function WithNextDraft(revs: seq<Revision>, publishedNumber: nat): seq<Revision> {
    revs + [NewDraft(publishedNumber + 1)]
  }

  function DraftNumber(revs: seq<Revision>): nat
    requires FindStatus(revs, Draft) >= 0
  {
    revs[FindStatus(revs, Draft)].number
  }

  /** `deleteDraftRevision`. */
  function WithoutDraft(revs: seq<Revision>): seq<Revision>
    requires FindStatus(revs, Draft) >= 0
  {
    var i := FindStatus(revs, Draft);
    revs[..i] + revs[i + 1..]
  }

  // ---------------------------------------------------------------------------------------
  // The life cycle
  // ---------------------------------------------------------------------------------------

  /** The published revisions: all but a trailing draft. */
  function History(revs: seq<Revision>): seq<Revision> {
    if revs != [] && revs[|revs| - 1].status == Draft then revs[..|revs| - 1] else revs
  }

  /** Archived revisions, then the active one, then perhaps a draft; numbers count from 1 without a
      gap, versions follow the calculator, and group names are unique in each revision. */
  ghost predicate Lifecycle(revs: seq<Revision>) {
    && (forall i | 0 <= i < |revs| :: revs[i].number == i + 1)
    && (forall i | 0 <= i < |History(revs)| :: revs[i].status == if i == |History(revs)| - 1 then Active else Archived)
    && (forall i | 0 <= i < |revs| :: UniqueNames(revs[i].groups))
    && (History(revs) != revs ==> revs[|revs| - 1].semVer == None)
    && Linked(History(revs))
  }

  /** What the life cycle means for readers of the table: at most one DRAFT and one ACTIVE row,
      every DRAFT number is above the ACTIVE one, which is above every ARCHIVED one, and the numbers
      are 1 to the number of rows, each given once. */
  lemma LifecycleMeaning(revs: seq<Revision>, i: nat, j: nat)
    requires Lifecycle(revs) && i < |revs| && j < |revs|
    ensures revs[i].status == revs[j].status && revs[i].status != Archived ==> i == j
    ensures 1 <= revs[i].number <= |revs| && (revs[i].number == revs[j].number ==> i == j)
    ensures revs[i].status == Draft && revs[j].status != Draft ==> revs[i].number > revs[j].number
    ensures revs[i].status == Active && revs[j].status == Archived ==> revs[i].number > revs[j].number
    ensures revs[i].status == Draft <==> revs[i].semVer == None
  {
    assert i < |History(revs)| ==> History(revs)[i] == revs[i];
  }

  /** Where the queries find the draft and the active revision. */
  lemma LifecycleFinds(revs: seq<Revision>)
    requires Lifecycle(revs)
    ensures var h := History(revs);
            && h <= revs && |revs| <= |h| + 1
            && FindStatus(revs, Draft) == (if |revs| > |h| then |h| else -1)
            && FindStatus(revs, Active) == |h| - 1
            && MaxNumber(revs) == |revs|
  {
    var d, a := FindStatus(revs, Draft), FindStatus(revs, Active);
    MaxOfCounted(revs);
    if |History(revs)| > 0 {
      assert revs[|History(revs)| - 1].status == Active;
    }
  }

  lemma {:induction false} MaxOfCounted(revs: seq<Revision>)
    requires forall i | 0 <= i < |revs| :: revs[i].number == i + 1
    ensures MaxNumber(revs) == |revs|
  {
    if revs != [] {
      MaxOfCounted(revs[..|revs| - 1]);
    }
  }

  /** Published rows stay where they are with the same number, version and groups. */
  ghost predicate Frozen(before: seq<Revision>, after: seq<Revision>) {
    && |History(before)| <= |after|
    && forall i | 0 <= i < |History(before)| ::
         Published(after[i]) && after[i].number == before[i].number && after[i].semVer == before[i].semVer
           && after[i].groups == before[i].groups
  }

  lemma AppendDraftKeeps(revs: seq<Revision>, number: nat)
    requires Lifecycle(revs) && History(revs) == revs && number == |revs| + 1
    ensures var r := revs + [NewDraft(number)];
            && Lifecycle(r) && History(r) == revs && DraftGroups(r) == []
            && FindStatus(r, Draft) == |revs| && FindStatus(r, Active) == FindStatus(revs, Active)
  {
    hide Lifecycle, FindStatus, MaxNumber, History;
    AppendIsLifecycle(revs, number);
    LifecycleFinds(revs);
    LifecycleFinds(revs + [NewDraft(number)]);
  }

  lemma AppendIsLifecycle(revs: seq<Revision>, number: nat)
    requires Lifecycle(revs) && History(revs) == revs && number == |revs| + 1
    ensures Lifecycle(revs + [NewDraft(number)]) && History(revs + [NewDraft(number)]) == revs
  {
    hide Linked, UniqueNames;
    var r := revs + [NewDraft(number)];
    NoNamesUnique();
    assert History(r) == revs;
  }

  lemma NoNamesUnique()
    ensures UniqueNames([])
  {
  }

  /** Rows that are only appended to are frozen. */
  lemma FrozenPrefix(revs: seq<Revision>, r: seq<Revision>)
    requires Lifecycle(revs) && revs <= r
    ensures Frozen(revs, r)
  {
    hide Linked, UniqueNames, FindStatus, MaxNumber;
    LifecycleFinds(revs);
    assert forall i | 0 <= i < |History(revs)| :: r[i] == revs[i] == History(revs)[i];
  }

  lemma FrozenSelf(revs: seq<Revision>)
    requires Lifecycle(revs)
    ensures Frozen(revs, revs)
  {
    hide Lifecycle, Frozen;
    FrozenPrefix(revs, revs);
  }

  lemma EnsureDraftKeeps(revs: seq<Revision>)
    requires Lifecycle(revs)
    ensures var r := EnsureDraft(revs);
            && Lifecycle(r) && History(r) == History(revs) && |r| == |History(revs)| + 1
            && DraftGroups(r) == DraftGroups(revs) && Frozen(revs, r)
            && FindStatus(r, Draft) == |History(revs)| && FindStatus(r, Active) == FindStatus(revs, Active)
  {
    hide Lifecycle, Frozen, FindStatus, MaxNumber, History;
    LifecycleFinds(revs);
    FrozenPrefix(revs, EnsureDraft(revs));
    if FindStatus(revs, Draft) < 0 {
      assert History(revs) == revs;
      AppendDraftKeeps(revs, MaxNumber(revs) + 1);
    }
  }

  lemma DraftGroupsUnique(revs: seq<Revision>)
    requires Lifecycle(revs)
    ensures UniqueNames(DraftGroups(revs))
  {
    hide UniqueNames, Linked, FindStatus;
    NoNamesUnique();
  }

  lemma EditKeeps(revs: seq<Revision>, groups: seq<Group>)
    requires Lifecycle(revs) && FindStatus(revs, Draft) >= 0 && UniqueNames(groups)
    ensures var r := WithDraftGroups(revs, groups);
            && Lifecycle(r) && History(r) == History(revs) && Frozen(revs, r) && |r| == |revs|
            && DraftGroups(r) == groups && FindStatus(r, Draft) == FindStatus(revs, Draft)
              && DraftNumber(r) == DraftNumber(revs)
  {
    hide Linked, UniqueNames, FindStatus, MaxNumber;
    LifecycleFinds(revs);
    var r := WithDraftGroups(revs, groups);
    assert History(r) == History(revs);
    LifecycleFinds(r);
  }

  lemma DropKeeps(revs: seq<Revision>)
    requires Lifecycle(revs) && FindStatus(revs, Draft) >= 0
    ensures var r := WithoutDraft(revs);
            Lifecycle(r) && r == History(revs) && History(r) == History(revs) && Frozen(revs, r)
  {
    hide Linked, UniqueNames, FindStatus, MaxNumber;
    LifecycleFinds(revs);
    assert WithoutDraft(revs) == History(revs);
  }

  /** Publishing appends the draft to the history, under the version computed from the last entry. */
  lemma ApplyKeeps(revs: seq<Revision>)
    requires Lifecycle(revs) && FindStatus(revs, Draft) >= 0
    ensures var r, h := Applied(revs), History(revs);
            && Lifecycle(r) && History(r) == r && |r| == |h| + 1 && Frozen(revs, r)
            && r[|h|].groups == DraftGroups(revs) && r[|h|].number == DraftNumber(revs)
            && FindStatus(r, Active) == |h| && FindStatus(r, Draft) == -1
            && ActiveVersion(r) == Some(NextVersionOf(revs))
  {
    hide Linked, NextVersion, UniqueNames, FindStatus, MaxNumber;
    LifecycleFinds(revs);
    var r, h := Applied(revs), History(revs);
    assert History(r) == r;
    AppliedIsLinked(h, r);
    LifecycleFinds(r);
  }

  lemma AppliedIsLinked(h: seq<Revision>, r: seq<Revision>)
    requires Linked(h) && |r| == |h| + 1
    requires forall i | 0 <= i < |h| :: r[i].semVer == h[i].semVer && r[i].groups == h[i].groups
    requires r[|h|].semVer == Some(if h == [] then NextVersion([], r[|h|].groups, None)
                                   else NextVersion(h[|h| - 1].groups, r[|h|].groups, h[|h| - 1].semVer))
    ensures Linked(r)
  {
    hide Contents, MajorChange, MinorChange;
    forall i | 0 <= i < |r| - 1 ensures LinkedAt(r, i) {
      if i + 1 < |h| {
        assert LinkedAt(h, i);
      }
    }
  }

  lemma NextDraftKeeps(revs: seq<Revision>)
    requires Lifecycle(revs) && revs != [] && FindStatus(revs, Draft) < 0
    ensures var r := WithNextDraft(revs, revs[|revs| - 1].number);
            && Lifecycle(r) && History(r) == revs && Frozen(revs, r) && DraftGroups(r) == []
            && FindStatus(r, Active) == FindStatus(revs, Active)
            && r == EnsureDraft(revs)
  {
    hide Linked, UniqueNames, FindStatus, MaxNumber;
    LifecycleFinds(revs);
    AppendDraftKeeps(revs, |revs| + 1);
  }

  lemma FrozenTransitive(a: seq<Revision>, b: seq<Revision>, c: seq<Revision>)
    requires Frozen(a, b) && Frozen(b, c) && |History(a)| <= |History(b)|
    ensures Frozen(a, c)
  {
  }

  /** `autoPublishInitialRevision` does not archive: it keeps the life cycle exactly when the
      project has no active revision yet. */
  lemma InitialPublishKeepsIff(revs: seq<Revision>)
    requires Lifecycle(revs) && FindStatus(revs, Draft) >= 0
    ensures Lifecycle(Activate(revs, INITIAL)) <==> FindStatus(revs, Active) < 0
    ensures FindStatus(revs, Active) < 0 ==> NextVersionOf(revs) == INITIAL && Activate(revs, INITIAL) == Applied(revs)
  {
    LifecycleFinds(revs);
    var r, h := Activate(revs, INITIAL), History(revs);
    assert History(r) == r;
    if FindStatus(revs, Active) < 0 {
      assert r == Applied(revs);
      ApplyKeeps(revs);
    } else {
      assert r[|h| - 1].status == Active && |h| - 1 != |r| - 1;
    }
  }
}
