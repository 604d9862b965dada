/** Release readiness: `refreshReleaseState` as a transition that re-queues dependents, run in any
    order until nothing is pending. */
module ReleaseCascade {
  import opened ReleaseModel
  import opened FileReadiness

  datatype RegulationStatus = RegulationStatus(regulation: string, isCompliant: bool)

  /** What a refresh of one release reads besides statuses and uploads. */
  datatype Facts = Facts(
    regulations: seq<string>,
    statuses: seq<RegulationStatus>,
    artifacts: seq<Artifact>,
    dependencies: seq<nat>,
    dependents: seq<nat>)

  /** The facts of every release and the object store, fixed while the cascade runs. */
  datatype World = World(facts: map<nat, Facts>, objects: Objects, ownBucket: string)

  datatype Row = Row(status: Status, required: nat, compliant: nat)

  /** Release rows, upload rows, and the releases queued for a refresh. */
  datatype State = State(rows: map<nat, Row>, uploads: Uploads, pending: seq<nat>)

  // ---------------------------------------------------------------------------------------
  // The transition
  // ---------------------------------------------------------------------------------------

  /** The first status entry of the regulation, or -1. */
  function FindRegulation(statuses: seq<RegulationStatus>, name: string): (i: int)
    ensures -1 <= i < |statuses|
    ensures i >= 0 ==> statuses[i].regulation == name
    ensures forall j | 0 <= j < |statuses| && statuses[j].regulation == name :: 0 <= i <= j
  {
    if statuses == [] then -1
    else
      var n := |statuses| - 1;
      var i := FindRegulation(statuses[..n], name);
      if i >= 0 then i else if statuses[n].regulation == name then n else -1
  }

  predicate RegulationMet(statuses: seq<RegulationStatus>, name: string) {
    var i := FindRegulation(statuses, name);
    i >= 0 && statuses[i].isCompliant
  }

  function NumCompliant(f: Facts, regulations: seq<string>): nat {
    if regulations == [] then 0
    else
      var n := |regulations| - 1;
      NumCompliant(f, regulations[..n]) + (if RegulationMet(f.statuses, regulations[n]) then 1 else 0)
  }

  predicate Compliant(f: Facts) {
    forall name | name in f.regulations :: RegulationMet(f.statuses, name)
  }

  predicate DependenciesReleased(rows: map<nat, Row>, f: Facts) {
    |f.dependencies| > 0 && forall d | d in f.dependencies :: d in rows && rows[d].status == Released
  }

  /** The upload rows after the refresh looked at the release's installation files. */
  function UploadsChecked(w: World, uploads: Uploads, f: Facts): Uploads {
    Synced(uploads, w.objects, w.ownBucket, FileIds(f.artifacts))
  }

  predicate Ready(w: World, uploads: Uploads, f: Facts) {
    FilesReady(UploadsChecked(w, uploads, f), f.artifacts)
  }

  predicate Missing(w: World, uploads: Uploads, f: Facts) {
    AnyMissing(uploads, w.objects, w.ownBucket, FileIds(f.artifacts))
  }

  /** The release may be RELEASED: regulations met, and dependencies released or files ready. */
  predicate Releasable(w: World, s: State, r: nat)
    requires r in w.facts
  {
    Compliant(w.facts[r]) && (DependenciesReleased(s.rows, w.facts[r]) || Ready(w, s.uploads, w.facts[r]))
  }

  /** The status a refresh gives a release. */
  function NewStatus(w: World, s: State, r: nat): Status
    requires r in w.facts && r in s.rows
  {
    var status := s.rows[r].status;
    if status == Released && !Releasable(w, s, r) then (if Missing(w, s.uploads, w.facts[r]) then Error else InReview)
    else if status == InReview && Releasable(w, s, r) then Released
    else status
  }

  /** The compliance counts are written unless the release is RELEASED. */
  function NewRow(w: World, s: State, r: nat): Row
    requires r in w.facts && r in s.rows
  {
    var row, f := s.rows[r], w.facts[r];
    var counted := if row.status == Released then row
                   else Row(row.status, |f.regulations|, NumCompliant(f, f.regulations));
    counted.(status := NewStatus(w, s, r))
  }

  predicate Terminal(status: Status) {
    status == Error || status == Archived
  }

  /** `refreshReleaseState`: a status change queues every dependent. */
  function Refreshed(w: World, s: State, r: nat): State {
    if r !in w.facts || r !in s.rows || Terminal(s.rows[r].status) then s
    else
      State(s.rows[r := NewRow(w, s, r)], UploadsChecked(w, s.uploads, w.facts[r]),
            if NewStatus(w, s, r) != s.rows[r].status then s.pending + w.facts[r].dependents else s.pending)
  }

  /** Taking the `i`-th pending release and refreshing it. */
  function Step(w: World, s: State, i: nat): State
    requires i < |s.pending|
  {
    Refreshed(w, s.(pending := s.pending[..i] + s.pending[i + 1..]), s.pending[i])
  }

  /** A run processes pending releases in the order `choices` says. */
  ghost predicate ValidRun(w: World, s: State, choices: seq<nat>)
    decreases |choices|
  {
    choices != [] ==> choices[0] < |s.pending| && ValidRun(w, Step(w, s, choices[0]), choices[1..])
  }

  function Run(w: World, s: State, choices: seq<nat>): State
    requires ValidRun(w, s, choices)
    decreases |choices|
  {
    if choices == [] then s else Run(w, Step(w, s, choices[0]), choices[1..])
  }

  // ---------------------------------------------------------------------------------------
  // Consistency outside the pending set
  // ---------------------------------------------------------------------------------------

  /** Dependencies and dependents are inverse relations on existing releases. */
  ghost predicate WellFormed(w: World) {
    && (forall r, d | r in w.facts && d in w.facts[r].dependencies :: d in w.facts)
    && (forall r, d | r in w.facts && d in w.facts[r].dependents :: d in w.facts)
    && (forall r, d | r in w.facts && d in w.facts :: d in w.facts[r].dependents <==> r in w.facts[d].dependencies)
  }

  predicate Managed(status: Status) {
    status == InReview || status == Released
  }

  /** A release under review or released has the status its facts call for. */
  ghost predicate Settled(w: World, s: State, r: nat)
    requires r in w.facts && r in s.rows
  {
    Managed(s.rows[r].status) ==> (s.rows[r].status == Released <==> Releasable(w, s, r))
  }

  ghost predicate Consistent(w: World, s: State) {
    && WellFormed(w) && s.rows.Keys == w.facts.Keys && (forall r | r in s.pending :: r in w.facts)
    && (forall r | r in w.facts && r !in s.pending :: Settled(w, s, r))
  }

  /** Checking one release's files changes the readiness of none. */
  lemma ReadyStable(w: World, uploads: Uploads, f: Facts, g: Facts)
    ensures Ready(w, UploadsChecked(w, uploads, f), g) == Ready(w, uploads, g)
  {
    var a, b := UploadsChecked(w, uploads, g), UploadsChecked(w, UploadsChecked(w, uploads, f), g);
    var ids := FileIds(g.artifacts);
    FilesUploadedIff(a, ids);
    FilesUploadedIff(b, ids);
  }

  /** What a step changes: at most the row it refreshes, the uploads it looks at, and the queue. */
  lemma StepEffect(w: World, s: State, i: nat)
    requires i < |s.pending|
    ensures var r, rest, s' := s.pending[i], s.pending[..i] + s.pending[i + 1..], Step(w, s, i);
            if r !in w.facts || r !in s.rows || Terminal(s.rows[r].status) then s' == s.(pending := rest)
            else
              && s'.rows == s.rows[r := NewRow(w, s.(pending := rest), r)] && s'.rows[r].status == NewStatus(w, s, r)
              && s'.uploads == UploadsChecked(w, s.uploads, w.facts[r])
              && s'.pending == if NewStatus(w, s, r) != s.rows[r].status then rest + w.facts[r].dependents else rest
  {
    hide Compliant, Ready, Missing, UploadsChecked, NumCompliant, DependenciesReleased;
  }

  /** One step, whichever pending release it takes, keeps every release outside the pending set
      settled; cyclic dependencies included. */
  lemma StepKeepsConsistent(w: World, s: State, i: nat)
    requires Consistent(w, s) && i < |s.pending|
    ensures Consistent(w, Step(w, s, i))
  {
    StepEffect(w, s, i);
    hide Step, NewStatus, NewRow, Settled, UploadsChecked;
    var r := s.pending[i];
    var s' := Step(w, s, i);
    KeepsOthers(s.pending, i);
    assert r in s.pending;
    forall x | x in w.facts && x !in s'.pending ensures Settled(w, s', x) {
      SettledAfter(w, s, i, x);
    }
  }

  lemma SettledAfter(w: World, s: State, i: nat, x: nat)
    requires Consistent(w, s) && i < |s.pending| && x in w.facts && x !in Step(w, s, i).pending
             && x in Step(w, s, i).rows
    ensures Settled(w, Step(w, s, i), x)
  {
    StepEffect(w, s, i);
    KeepsOthers(s.pending, i);
    hide Step, NewRow, Compliant, Ready, Missing, UploadsChecked;
    var r, s' := s.pending[i], Step(w, s, i);
    assert r in s.pending;
    assert x != r ==> Settled(w, s, x);
    ReadyStable(w, s.uploads, w.facts[r], w.facts[x]);
    if s'.rows[r].status != s.rows[r].status {
      assert r !in w.facts[x].dependencies;
    }
    SameDependencies(s.rows, s'.rows, w.facts[x]);
  }

  lemma SameDependencies(rows: map<nat, Row>, rows': map<nat, Row>, f: Facts)
    requires forall d | d in f.dependencies ::
               (d in rows <==> d in rows') && (d in rows ==> rows[d].status == rows'[d].status)
    ensures DependenciesReleased(rows, f) == DependenciesReleased(rows', f)
  {
  }

  lemma KeepsOthers(xs: seq<nat>, i: nat)
    requires i < |xs|
    ensures forall x | x in xs && x != xs[i] :: x in xs[..i] + xs[i + 1..]
  {
    forall x | x in xs && x != xs[i] ensures x in xs[..i] + xs[i + 1..] {
      var j :| 0 <= j < |xs| && xs[j] == x;
      assert j < i ==> xs[..i][j] == x;
      assert j > i ==> xs[i + 1..][j - i - 1] == x;
    }
  }

  /** After any run, in any order, every release outside the pending set is settled; once nothing is
      pending, every release is. */
  lemma {:induction false} RunSettles(w: World, s: State, choices: seq<nat>)
    requires Consistent(w, s) && ValidRun(w, s, choices)
    ensures Consistent(w, Run(w, s, choices))
    ensures Run(w, s, choices).pending == [] ==> forall r | r in w.facts :: Settled(w, Run(w, s, choices), r)
    decreases |choices|
  {
    hide Step, Settled;
    if choices != [] {
      StepKeepsConsistent(w, s, choices[0]);
      RunSettles(w, Step(w, s, choices[0]), choices[1..]);
    }
  }

  // ---------------------------------------------------------------------------------------
  // Termination on acyclic graphs
  // ---------------------------------------------------------------------------------------

  /** `rank` grows from every release to its dependents, so there is no dependency cycle. */
  ghost predicate Ranked(w: World, rank: map<nat, nat>, bound: nat) {
    && (forall r | r in w.facts :: r in rank && rank[r] < bound)
    && (forall r, d | r in w.facts && d in w.facts[r].dependents :: d in w.facts && rank[r] < rank[d])
  }

  /** One plus the weights of the dependents: how many refreshes a status change can cause at most. */
  ghost function Weight(w: World, rank: map<nat, nat>, bound: nat, r: nat): nat
    requires Ranked(w, rank, bound) && r in w.facts
    decreases bound - rank[r], 1, 0
  {
    1 + WeightAbove(w, rank, bound, w.facts[r].dependents, rank[r])
  }

  ghost function WeightAbove(w: World, rank: map<nat, nat>, bound: nat, rs: seq<nat>, low: nat): nat
    requires Ranked(w, rank, bound) && low <= bound && forall d | d in rs :: d in w.facts && rank[d] > low
    decreases bound - low, 0, |rs|
  {
    if rs == [] then 0
    else
      WeightAbove(w, rank, bound, rs[..|rs| - 1], low) + Weight(w, rank, bound, rs[|rs| - 1])
  }

  ghost function Total(w: World, rank: map<nat, nat>, bound: nat, rs: seq<nat>): nat
    requires Ranked(w, rank, bound) && forall r | r in rs :: r in w.facts
  {
    if rs == [] then 0 else Total(w, rank, bound, rs[..|rs| - 1]) + Weight(w, rank, bound, rs[|rs| - 1])
  }

  lemma {:induction false} TotalConcat(w: World, rank: map<nat, nat>, bound: nat, a: seq<nat>, b: seq<nat>)
    requires Ranked(w, rank, bound) && (forall r | r in a :: r in w.facts) && (forall r | r in b :: r in w.facts)
    ensures Total(w, rank, bound, a + b) == Total(w, rank, bound, a) + Total(w, rank, bound, b)
    decreases |b|
  {
    if b == [] {
      assert a + b == a;
    } else {
      assert (a + b)[..|a + b| - 1] == a + b[..|b| - 1];
      TotalConcat(w, rank, bound, a, b[..|b| - 1]);
    }
  }

  lemma {:induction false} AboveIsTotal(w: World, rank: map<nat, nat>, bound: nat, rs: seq<nat>, low: nat)
    requires Ranked(w, rank, bound) && low <= bound && forall d | d in rs :: d in w.facts && rank[d] > low
    ensures WeightAbove(w, rank, bound, rs, low) == Total(w, rank, bound, rs)
    decreases |rs|
  {
    if rs != [] {
      AboveIsTotal(w, rank, bound, rs[..|rs| - 1], low);
    }
  }

  /** Every step shrinks the total weight of what is pending. */
  lemma StepShrinks(w: World, rank: map<nat, nat>, bound: nat, s: State, i: nat)
    requires Consistent(w, s) && Ranked(w, rank, bound) && i < |s.pending|
    requires forall r | r in Step(w, s, i).pending :: r in w.facts
    ensures Total(w, rank, bound, Step(w, s, i).pending) < Total(w, rank, bound, s.pending)
  {
    StepEffect(w, s, i);
    hide Step, Settled, NewStatus, NewRow, UploadsChecked, Total, Ranked;
    var r, before, after := s.pending[i], s.pending[..i], s.pending[i + 1..];
    assert s.pending == before + [r] + after;
    assert r in s.pending && forall x | x in before + after :: x in s.pending;
    ReplacedShrinks(w, rank, bound, before, r, after);
  }

  /** Replacing a release by its dependents shrinks the total weight. */
  lemma ReplacedShrinks(w: World, rank: map<nat, nat>, bound: nat, before: seq<nat>, r: nat, after: seq<nat>)
    requires Ranked(w, rank, bound) && r in w.facts && forall x | x in before + after :: x in w.facts
    ensures (forall x | x in before + [r] + after :: x in w.facts)
            && (forall x | x in w.facts[r].dependents :: x in w.facts)
    ensures Total(w, rank, bound, before + after) < Total(w, rank, bound, before + [r] + after)
    ensures Total(w, rank, bound, before + after + w.facts[r].dependents) < Total(w, rank, bound, before + [r] + after)
  {
    assert forall x | x in before || x in after :: x in before + after;
    hide Total;
    TotalConcat(w, rank, bound, before + [r], after);
    TotalConcat(w, rank, bound, before, [r]);
    TotalConcat(w, rank, bound, before, after);
    TotalOne(w, rank, bound, r);
    TotalConcat(w, rank, bound, before + after, w.facts[r].dependents);
  }

  lemma TotalOne(w: World, rank: map<nat, nat>, bound: nat, r: nat)
    requires Ranked(w, rank, bound) && r in w.facts
    ensures Total(w, rank, bound, [r]) == 1 + Total(w, rank, bound, w.facts[r].dependents)
  {
    assert [r][..0] == [];
    AboveIsTotal(w, rank, bound, w.facts[r].dependents, rank[r]);
  }

  /** On an acyclic dependency graph no run is longer than the weight of what is pending at the
      start, whatever the order. */
  lemma {:induction false} RunsAreBounded(w: World, rank: map<nat, nat>, bound: nat, s: State, choices: seq<nat>)
    requires Consistent(w, s) && Ranked(w, rank, bound) && ValidRun(w, s, choices)
    ensures |choices| <= Total(w, rank, bound, s.pending)
    decreases |choices|
  {
    hide Settled, Step;
    if choices != [] {
      StepKeepsConsistent(w, s, choices[0]);
      StepShrinks(w, rank, bound, s, choices[0]);
      RunsAreBounded(w, rank, bound, Step(w, s, choices[0]), choices[1..]);
    }
  }

  // ---------------------------------------------------------------------------------------
  // The final statuses do not depend on the order
  // ---------------------------------------------------------------------------------------

  /** No installation file is missing from the object store for a release under review or released that
      depends on others. */
  ghost predicate NothingMissing(w: World, s: State) {
    forall r | r in w.facts && r in s.rows && Managed(s.rows[r].status) && w.facts[r].dependencies != [] ::
      !Missing(w, s.uploads, w.facts[r])
  }

  /** Without dependencies and with a file missing a release can never be released. */
  predicate Hopeless(w: World, s: State, r: nat)
    requires r in w.facts
  {
    w.facts[r].dependencies == [] && Missing(w, s.uploads, w.facts[r])
  }

  /** Checking files changes neither what is ready nor what is missing. */
  ghost predicate SameFiles(w: World, a: Uploads, b: Uploads) {
    forall f :: Ready(w, a, f) == Ready(w, b, f) && Missing(w, a, f) == Missing(w, b, f)
  }

  lemma CheckedSame(w: World, uploads: Uploads, f: Facts)
    ensures SameFiles(w, uploads, UploadsChecked(w, uploads, f))
  {
    hide Ready;
    forall g ensures Ready(w, uploads, g) == Ready(w, UploadsChecked(w, uploads, f), g)
                  && Missing(w, uploads, g) == Missing(w, UploadsChecked(w, uploads, f), g)
    {
      ReadyStable(w, uploads, f, g);
    }
  }

  lemma {:induction false} FileIdIsInstalled(artifacts: seq<Artifact>, id: nat)
    requires id in FileIds(artifacts)
    ensures HasInstallationFile(artifacts)
  {
    var n := |artifacts| - 1;
    if id in FileIds(artifacts[..n]) {
      FileIdIsInstalled(artifacts[..n], id);
      var i :| 0 <= i < n && artifacts[..n][i].isInstallation && artifacts[..n][i].kind == File;
      assert artifacts[i].isInstallation && artifacts[i].kind == File;
    } else {
      assert artifacts[n].isInstallation && artifacts[n].kind == File;
    }
  }

  lemma MissingIsNotReady(w: World, uploads: Uploads, f: Facts)
    requires Missing(w, uploads, f)
    ensures !Ready(w, uploads, f)
  {
    var ids := FileIds(f.artifacts);
    var id :| id in ids && id in uploads && !Stored(uploads, w.objects, w.ownBucket, id);
    FileIdIsInstalled(f.artifacts, id);
    FilesUploadedIff(UploadsChecked(w, uploads, f), ids);
  }

  /** What a run keeps under this condition: which files are ready and missing, the status of releases
      that are neither under review nor released, and that the others stay one of these, but for the
      hopeless ones, which end in error when they were released. */
  ghost predicate KeepsManaged(w: World, s: State, s': State) {
    && SameFiles(w, s.uploads, s'.uploads) && s'.rows.Keys == s.rows.Keys
    && forall r | r in s.rows && r in w.facts :: KeepsOne(w, s, s', r)
  }

  ghost predicate KeepsOne(w: World, s: State, s': State, r: nat)
    requires r in s.rows && r in w.facts && r in s'.rows
  {
    var before, after := s.rows[r].status, s'.rows[r].status;
    if !Managed(before) then after == before
    else if !Hopeless(w, s, r) then Managed(after)
    else if before == InReview then after == InReview
    else after == Error || (after == Released && r in s'.pending)
  }

  lemma KeepsSelf(w: World, s: State)
    requires Consistent(w, s)
    ensures KeepsManaged(w, s, s)
  {
    hide Missing, Ready, Compliant, WellFormed, UploadsChecked;
    forall r | r in s.rows && r in w.facts ensures KeepsOne(w, s, s, r) {
      if Hopeless(w, s, r) && s.rows[r].status == Released && r !in s.pending {
        assert Settled(w, s, r);
        MissingIsNotReady(w, s.uploads, w.facts[r]);
      }
    }
  }

  lemma StepKeepsManaged(w: World, s: State, i: nat)
    requires Consistent(w, s) && i < |s.pending| && NothingMissing(w, s)
    ensures KeepsManaged(w, s, Step(w, s, i)) && NothingMissing(w, Step(w, s, i))
  {
    KeepsSelf(w, s);
    StepEffect(w, s, i);
    var r, s' := s.pending[i], Step(w, s, i);
    assert r in s.pending;
    CheckedSame(w, s.uploads, w.facts[r]);
    KeepsOthers(s.pending, i);
    StepKeepsStatus(w, s, i);
    hide Step, Missing, Ready, Compliant, WellFormed, UploadsChecked, NewStatus, NewRow, Settled;
    forall x | x in s.rows && x in w.facts ensures KeepsOne(w, s, s', x) {
      if x != r { assert KeepsOne(w, s, s, x); }
    }
  }

  /** What the refresh does to the release it refreshes. */
  lemma StepKeepsStatus(w: World, s: State, i: nat)
    requires Consistent(w, s) && i < |s.pending| && NothingMissing(w, s)
    ensures KeepsOne(w, s, Step(w, s, i), s.pending[i])
  {
    StepEffect(w, s, i);
    hide Step, Missing, Ready, Compliant, UploadsChecked, NewRow, Settled, WellFormed;
    var r := s.pending[i];
    assert r in s.pending;
    if Missing(w, s.uploads, w.facts[r]) {
      MissingIsNotReady(w, s.uploads, w.facts[r]);
    }
  }

  lemma KeepsTransitive(w: World, a: State, b: State, c: State)
    requires KeepsManaged(w, a, b) && KeepsManaged(w, b, c)
    ensures KeepsManaged(w, a, c)
  {
    hide Ready, Missing;
    forall r | r in a.rows && r in w.facts ensures KeepsOne(w, a, c, r) {
      assert KeepsOne(w, a, b, r) && KeepsOne(w, b, c, r);
    }
  }

  lemma {:induction false} RunKeepsManaged(w: World, s: State, choices: seq<nat>)
    requires Consistent(w, s) && ValidRun(w, s, choices) && NothingMissing(w, s)
    ensures KeepsManaged(w, s, Run(w, s, choices))
    decreases |choices|
  {
    hide Settled, NothingMissing, Step, WellFormed, KeepsManaged;
    if choices != [] {
      StepKeepsManaged(w, s, choices[0]);
      StepKeepsConsistent(w, s, choices[0]);
      RunKeepsManaged(w, Step(w, s, choices[0]), choices[1..]);
      KeepsTransitive(w, s, Step(w, s, choices[0]), Run(w, s, choices));
    } else {
      KeepsSelf(w, s);
    }
  }

  /** Two final states of runs from one state agree, by rank. */
  lemma {:induction false} SettledIsUnique(w: World, rank: map<nat, nat>, bound: nat, s: State, a: State, b: State,
                                           r: nat)
    requires WellFormed(w) && Ranked(w, rank, bound) && s.rows.Keys == w.facts.Keys
    requires KeepsManaged(w, s, a) && KeepsManaged(w, s, b) && a.pending == [] && b.pending == []
    requires forall x | x in w.facts :: Settled(w, a, x) && Settled(w, b, x)
    requires r in w.facts
    ensures a.rows[r].status == b.rows[r].status
    decreases rank[r]
  {
    hide KeepsOne, SameFiles, Settled;
    forall d | d in w.facts[r].dependencies ensures a.rows[d].status == b.rows[d].status {
      assert r in w.facts[d].dependents;
      SettledIsUnique(w, rank, bound, s, a, b, d);
    }
    SettledSame(w, s, a, b, r);
  }

  lemma SettledSame(w: World, s: State, a: State, b: State, r: nat)
    requires r in w.facts && r in s.rows && r in a.rows && r in b.rows && a.pending == [] && b.pending == []
    requires SameFiles(w, s.uploads, a.uploads) && SameFiles(w, s.uploads, b.uploads)
    requires KeepsOne(w, s, a, r) && KeepsOne(w, s, b, r) && Settled(w, a, r) && Settled(w, b, r)
    requires forall d | d in w.facts[r].dependencies ::
               d in a.rows && d in b.rows && a.rows[d].status == b.rows[d].status
    ensures a.rows[r].status == b.rows[r].status
  {
    hide Compliant, Ready, Missing;
    assert DependenciesReleased(a.rows, w.facts[r]) == DependenciesReleased(b.rows, w.facts[r]);
    hide DependenciesReleased;
    assert Ready(w, a.uploads, w.facts[r]) == Ready(w, s.uploads, w.facts[r]) == Ready(w, b.uploads, w.facts[r]);
  }

  /** When no release that depends on others has an installation file missing and the graph is acyclic,
      two complete runs end with the same status for every release. */
  lemma OrderDoesNotMatter(w: World, rank: map<nat, nat>, bound: nat, s: State, c1: seq<nat>, c2: seq<nat>, r: nat)
    requires Consistent(w, s) && Ranked(w, rank, bound) && NothingMissing(w, s) && r in w.facts
    requires ValidRun(w, s, c1) && Run(w, s, c1).pending == []
    requires ValidRun(w, s, c2) && Run(w, s, c2).pending == []
    ensures var a, b := Run(w, s, c1), Run(w, s, c2);
            r in a.rows && r in b.rows && a.rows[r].status == b.rows[r].status
  {
    hide Run, ValidRun, Settled, NothingMissing, KeepsManaged;
    RunSettles(w, s, c1);
    RunSettles(w, s, c2);
    RunKeepsManaged(w, s, c1);
    RunKeepsManaged(w, s, c2);
    SettledIsUnique(w, rank, bound, s, Run(w, s, c1), Run(w, s, c2), r);
  }

  // ---------------------------------------------------------------------------------------
  // The compliance counts
  // ---------------------------------------------------------------------------------------

  /** The first status reported for the regulation says that it is met. */
  ghost predicate ReportedMet(statuses: seq<RegulationStatus>, name: string) {
    exists j | 0 <= j < |statuses| ::
      && statuses[j].regulation == name && statuses[j].isCompliant
      && forall k | 0 <= k < j :: statuses[k].regulation != name
  }

  lemma MetIsReported(statuses: seq<RegulationStatus>, name: string)
    ensures RegulationMet(statuses, name) <==> ReportedMet(statuses, name)
  {
    var i := FindRegulation(statuses, name);
    if ReportedMet(statuses, name) {
      var j :| 0 <= j < |statuses| && statuses[j].regulation == name && statuses[j].isCompliant
               && forall k | 0 <= k < j :: statuses[k].regulation != name;
      assert i == j;
    }
  }

  /** The places of the regulations that are met. */
  ghost function MetPlaces(f: Facts, n: nat): set<nat>
    requires n <= |f.regulations|
  {
    set i: nat | i < n && ReportedMet(f.statuses, f.regulations[i])
  }

  lemma {:induction false} CountIsPlaces(f: Facts, n: nat)
    requires n <= |f.regulations|
    ensures NumCompliant(f, f.regulations[..n]) == |MetPlaces(f, n)|
  {
    hide ReportedMet, RegulationMet;
    if n > 0 {
      CountIsPlaces(f, n - 1);
      MetIsReported(f.statuses, f.regulations[n - 1]);
      assert f.regulations[..n][..n - 1] == f.regulations[..n - 1];
      PlacesGrow(f, n);
    }
  }

  lemma PlacesGrow(f: Facts, n: nat)
    requires 0 < n <= |f.regulations|
    ensures |MetPlaces(f, n)| == |MetPlaces(f, n - 1)| + if ReportedMet(f.statuses, f.regulations[n - 1]) then 1 else 0
  {
    hide ReportedMet;
    assert MetPlaces(f, n) == MetPlaces(f, n - 1)
                              + if ReportedMet(f.statuses, f.regulations[n - 1]) then {n - 1} else {};
  }

  lemma {:induction false} AllCompliant(f: Facts, regulations: seq<string>)
    ensures NumCompliant(f, regulations) <= |regulations|
    ensures NumCompliant(f, regulations) == |regulations| <==>
            forall name | name in regulations :: RegulationMet(f.statuses, name)
  {
    if regulations != [] {
      var n := |regulations| - 1;
      AllCompliant(f, regulations[..n]);
      assert regulations == regulations[..n] + [regulations[n]];
    }
  }

  /** The row shows how many regulations there are and how many of them are met. */
  ghost predicate Counted(w: World, s: State, r: nat)
    requires r in w.facts && r in s.rows
  {
    && s.rows[r].required == |w.facts[r].regulations|
    && s.rows[r].compliant == |MetPlaces(w.facts[r], |w.facts[r].regulations|)|
  }

  ghost predicate SameCounts(a: Row, b: Row) {
    a.required == b.required && a.compliant == b.compliant
  }

  /** A refresh counts the regulations of a release unless it is RELEASED, when both counts stay, or
      its state is final, when nothing changes. A release it makes RELEASED shows as many regulations
      met as required. */
  lemma RefreshCounts(w: World, s: State, r: nat)
    requires r in w.facts && r in s.rows
    ensures var s' := Refreshed(w, s, r);
            && s'.rows.Keys == s.rows.Keys && (forall x | x in s.rows && x != r :: s'.rows[x] == s.rows[x])
            && (Terminal(s.rows[r].status) ==> s' == s)
            && (s.rows[r].status == Released ==> SameCounts(s'.rows[r], s.rows[r]))
            && (!Terminal(s.rows[r].status) && s.rows[r].status != Released ==> Counted(w, s', r))
            && (s.rows[r].status != Released && s'.rows[r].status == Released ==>
                  s'.rows[r].compliant == s'.rows[r].required)
  {
    hide MetPlaces, RegulationMet, Ready, Missing, UploadsChecked, DependenciesReleased;
    var f := w.facts[r];
    CountIsPlaces(f, |f.regulations|);
    AllCompliant(f, f.regulations);
    assert f.regulations[..|f.regulations|] == f.regulations;
  }

  /** A row keeps its counts or shows the facts, and never more regulations met than required. */
  ghost predicate CountsFollow(w: World, s: State, s': State) {
    && s'.rows.Keys == s.rows.Keys
    && forall r | r in s.rows ::
         && (SameCounts(s'.rows[r], s.rows[r]) || (r in w.facts && Counted(w, s', r)))
         && (s.rows[r].compliant <= s.rows[r].required ==> s'.rows[r].compliant <= s'.rows[r].required)
  }

  lemma StepCounts(w: World, s: State, i: nat)
    requires i < |s.pending|
    ensures CountsFollow(w, s, Step(w, s, i))
  {
    hide NewRow, NewStatus, MetPlaces, Terminal;
    var r, s1 := s.pending[i], s.(pending := s.pending[..i] + s.pending[i + 1..]);
    if r in w.facts && r in s.rows {
      RefreshCounts(w, s1, r);
      CountIsPlaces(w.facts[r], |w.facts[r].regulations|);
      AllCompliant(w.facts[r], w.facts[r].regulations);
      assert w.facts[r].regulations[..|w.facts[r].regulations|] == w.facts[r].regulations;
      assert Step(w, s, i) == Refreshed(w, s1, r);
      hide Step, Refreshed;
    }
  }

  /** So over every run: a release whose counts were within bounds stays so, and its counts are those
      it had or those of its facts. */
  lemma {:induction false} RunCounts(w: World, s: State, choices: seq<nat>)
    requires ValidRun(w, s, choices)
    ensures CountsFollow(w, s, Run(w, s, choices))
    decreases |choices|
  {
    hide Step, MetPlaces;
    if choices != [] {
      var s1 := Step(w, s, choices[0]);
      StepCounts(w, s, choices[0]);
      RunCounts(w, s1, choices[1..]);
      var s' := Run(w, s1, choices[1..]);
      assert Run(w, s, choices) == s';
      hide Run;
      forall r | r in s.rows
        ensures SameCounts(s'.rows[r], s.rows[r]) || (r in w.facts && Counted(w, s', r))
      {
        assert SameCounts(s1.rows[r], s.rows[r]) || Counted(w, s1, r);
        assert SameCounts(s'.rows[r], s1.rows[r]) || Counted(w, s', r);
      }
    }
  }

  /** Told by the facts alone when a release may be RELEASED: the first status reported for every
      regulation says it is met, and either there are dependencies and all are RELEASED, or there is an
      installation artifact and the installation files, if any, are distinct uploads that are UPLOADED
      and stored. */
  ghost predicate MayBeReleased(w: World, s: State, r: nat)
    requires r in w.facts
  {
    var f := w.facts[r];
    && (forall name | name in f.regulations :: ReportedMet(f.statuses, name))
    && (|| (|f.dependencies| > 0 && forall d | d in f.dependencies :: d in s.rows && s.rows[d].status == Released)
        || (HasInstallation(f.artifacts)
            && (HasInstallationFile(f.artifacts) ==>
                  AllStored(s.uploads, w.objects, w.ownBucket, FileIds(f.artifacts)))))
  }

  lemma ReleasableIff(w: World, s: State, r: nat)
    requires r in w.facts
    ensures Releasable(w, s, r) <==> MayBeReleased(w, s, r)
  {
    hide ReportedMet, RegulationMet, HasInstallation, HasInstallationFile, AllStored, FilesReady;
    var f := w.facts[r];
    forall name | name in f.regulations ensures RegulationMet(f.statuses, name) <==> ReportedMet(f.statuses, name) {
      MetIsReported(f.statuses, name);
    }
    ReadyIff(s.uploads, w.objects, w.ownBucket, f.artifacts);
  }

  /** Once nothing is pending, after any run, a release under review or released is RELEASED exactly
      when its facts allow it. */
  lemma ReleasedIff(w: World, s: State, choices: seq<nat>, r: nat)
    requires Consistent(w, s) && ValidRun(w, s, choices) && Run(w, s, choices).pending == [] && r in w.facts
    requires r in Run(w, s, choices).rows && Managed(Run(w, s, choices).rows[r].status)
    ensures Run(w, s, choices).rows[r].status == Released <==> MayBeReleased(w, Run(w, s, choices), r)
  {
    hide Run, ValidRun, MayBeReleased, Releasable;
    RunSettles(w, s, choices);
    assert Settled(w, Run(w, s, choices), r);
    ReleasableIff(w, Run(w, s, choices), r);
  }

  /** What one refresh makes of a status: a release that may no longer be RELEASED falls back to
      review, or into error when the object of one of its installation files is gone; a release under
      review is RELEASED when it may be; any other status stays. Exactly a new status queues the
      dependents. */
  lemma RefreshStatus(w: World, s: State, r: nat)
    requires r in w.facts && r in s.rows
    ensures var before, s', f := s.rows[r].status, Refreshed(w, s, r), w.facts[r];
            var after := s'.rows[r].status;
            && (before == Released ==> (after == Released <==> MayBeReleased(w, s, r)))
            && (before == Released && after != Released ==>
                  after == if exists id | id in FileIds(f.artifacts) ::
                                id in s.uploads && !Stored(s.uploads, w.objects, w.ownBucket, id)
                           then Error else InReview)
            && (before == InReview ==> after == if MayBeReleased(w, s, r) then Released else InReview)
            && (!Managed(before) ==> after == before)
            && s'.pending == s.pending + if after != before then f.dependents else []
  {
    hide MayBeReleased, Releasable, NumCompliant, UploadsChecked;
    ReleasableIff(w, s, r);
  }

  // ---------------------------------------------------------------------------------------
  // The service
  // ---------------------------------------------------------------------------------------

  class ReleaseService {
    const world: World
    const files: FileUploadService
    var rows: map<nat, Row>
    var pending: seq<nat>

    constructor (world: World, files: FileUploadService)
      requires files.ownBucket == world.ownBucket
      ensures this.world == world && this.files == files && rows == map[] && pending == []
    {
      this.world, this.files := world, files;
      rows, pending := map[], [];
    }

    ghost function Model(): State
      reads this, files
    {
      State(rows, files.uploads, pending)
    }

    method CountCompliant(f: Facts) returns (regulationsCompliant: bool, numCompliant: nat)
      ensures regulationsCompliant == Compliant(f)
      ensures numCompliant == NumCompliant(f, f.regulations)
    {
      regulationsCompliant, numCompliant := true, 0;
      for i := 0 to |f.regulations|
        invariant numCompliant == NumCompliant(f, f.regulations[..i])
        invariant regulationsCompliant <==> forall j | 0 <= j < i :: RegulationMet(f.statuses, f.regulations[j])
      {
        assert f.regulations[..i + 1][..i] == f.regulations[..i];
        var found := FindRegulation(f.statuses, f.regulations[i]);
        if found < 0 || !f.statuses[found].isCompliant {
          regulationsCompliant := false;
        } else {
          numCompliant := numCompliant + 1;
        }
      }
      assert f.regulations[..|f.regulations|] == f.regulations;
    }

    method AllReleased(dependencies: seq<nat>) returns (all: bool)
      ensures all == (|dependencies| > 0 && forall d | d in dependencies :: d in rows && rows[d].status == Released)
    {
      all := |dependencies| > 0;
      for i := 0 to |dependencies|
        invariant all == (|dependencies| > 0 && forall j | 0 <= j < i ::
                          dependencies[j] in rows && rows[dependencies[j]].status == Released)
      {
        if dependencies[i] !in rows || rows[dependencies[i]].status != Released {
          all := false;
        }
      }
    }

    method CheckFiles(f: Facts) returns (storageMissing: bool, fileUploaded: bool)
      requires files.ownBucket == world.ownBucket && files.objects == world.objects
      modifies files`uploads
      ensures files.uploads == UploadsChecked(world, old(files.uploads), f)
      ensures storageMissing == Missing(world, old(files.uploads), f)
      ensures fileUploaded == Ready(world, old(files.uploads), f)
    {
      var fileIds := FileIds(f.artifacts);
      storageMissing := false;
      if |fileIds| > 0 {
        storageMissing := files.SyncAndCheckMissingFiles(fileIds);
      } else {
        assert UploadsChecked(world, files.uploads, f) == files.uploads;
      }
      fileUploaded := false;
      if HasInstallation(f.artifacts) {
        fileUploaded := true;
        if HasInstallationFile(f.artifacts) {
          fileUploaded := files.AreFilesUploaded(fileIds);
        }
      }
    }

    method RefreshReleaseState(r: nat)
      requires files.ownBucket == world.ownBucket && files.objects == world.objects
      modifies this, files`uploads
      ensures Model() == Refreshed(world, old(Model()), r)
    {
      hide Compliant, Ready, Missing, UploadsChecked, NumCompliant;
      if r !in world.facts || r !in rows || rows[r].status == Error || rows[r].status == Archived {
        return;
      }
      var f, before := world.facts[r], rows[r].status;
      var regulationsCompliant, numCompliant := CountCompliant(f);
      var dependenciesReleased := AllReleased(f.dependencies);
      if before != Released {
        rows := rows[r := rows[r].(required := |f.regulations|, compliant := numCompliant)];
      }
      var storageMissing, fileUploaded := CheckFiles(f);
      if (!regulationsCompliant || (!dependenciesReleased && !fileUploaded)) && before == Released {
        rows := rows[r := rows[r].(status := if storageMissing then Error else InReview)];
        pending := pending + f.dependents;
      } else if regulationsCompliant && before == InReview && (dependenciesReleased || fileUploaded) {
        rows := rows[r := rows[r].(status := Released)];
        pending := pending + f.dependents;
      }
      assert rows == old(rows)[r := NewRow(world, old(Model()), r)];
    }

    /** Refreshing the `i`-th queued release. */
    method ProcessPending(i: nat)
      requires i < |pending| && files.ownBucket == world.ownBucket && files.objects == world.objects
      modifies this, files`uploads
      ensures Model() == Step(world, old(Model()), i)
    {
      var r := pending[i];
      pending := pending[..i] + pending[i + 1..];
      RefreshReleaseState(r);
    }
  }
}
