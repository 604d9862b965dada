/** What happens to the release cascade when dependencies form a circle or a file is missing. */
module CascadeLimits {
  import opened Options
  import opened FileReadiness
  import opened ReleaseModel
  import opened Sets
  import opened ReleaseCascade

  // ---------------------------------------------------------------------------------------
  // Circles
  // ---------------------------------------------------------------------------------------

  /** A release that meets its regulations and has no artifacts: its dependencies alone decide. */
  predicate Fileless(f: Facts) {
    Compliant(f) && f.artifacts == []
  }

  /** A refresh of such a release looks at no file and follows its dependencies. */
  lemma FilelessStep(w: World, s: State, i: nat)
    requires i < |s.pending| && s.pending[i] in w.facts && s.pending[i] in s.rows && Fileless(w.facts[s.pending[i]])
    requires Managed(s.rows[s.pending[i]].status)
    ensures var r, s', rest := s.pending[i], Step(w, s, i), s.pending[..i] + s.pending[i + 1..];
            && s'.rows.Keys == s.rows.Keys && (forall x | x in s.rows && x != r :: s'.rows[x] == s.rows[x])
            && s'.rows[r].status == (if DependenciesReleased(s.rows, w.facts[r]) then Released else InReview)
            && s'.pending == if s'.rows[r].status != s.rows[r].status then rest + w.facts[r].dependents else rest
  {
    hide DependenciesReleased, Compliant, NumCompliant;
    var r := s.pending[i];
    NoFiles(w, s.uploads, w.facts[r]);
    StepEffect(w, s, i);
    hide Step, Missing, Ready, UploadsChecked;
  }

  lemma NoFiles(w: World, uploads: Uploads, f: Facts)
    requires f.artifacts == []
    ensures !Ready(w, uploads, f) && !Missing(w, uploads, f)
  {
  }

  function After(c: seq<nat>, i: nat): nat
    requires i < |c|
  {
    if i + 1 == |c| then 0 else i + 1
  }

  /** Three or more releases, each depending on the one before it in a circle and on no other of
      them; they may have any arcs to releases outside. */
  ghost predicate CircleOf(w: World, c: seq<nat>) {
    && |c| >= 3 && (forall i, j | 0 <= i < j < |c| :: c[i] != c[j])
    && (forall i | 0 <= i < |c| :: c[i] in w.facts && Fileless(w.facts[c[i]]))
    && (forall i, j | 0 <= i < |c| && 0 <= j < |c| :: c[j] in w.facts[c[i]].dependents <==> j == After(c, i))
    && (forall i, j | 0 <= i < |c| && 0 <= j < |c| :: c[i] in w.facts[c[j]].dependencies <==> j == After(c, i))
  }

  /** One release of the circle is released, the others are under review; it and the next one are
      pending, and what they depend on outside the circle is released. */
  ghost predicate Turning(w: World, s: State, c: seq<nat>, hot: nat)
    requires CircleOf(w, c) && hot < |c|
  {
    OneHot(s.rows, c, hot) && OutsideReleased(w, s.rows, c) && c[hot] in s.pending && c[After(c, hot)] in s.pending
  }

  predicate OneHot(rows: map<nat, Row>, c: seq<nat>, hot: nat) {
    forall i | 0 <= i < |c| :: c[i] in rows && rows[c[i]].status == if i == hot then Released else InReview
  }

  predicate OutsideReleased(w: World, rows: map<nat, Row>, c: seq<nat>) {
    forall r, d | r in c && r in w.facts && d in w.facts[r].dependencies && d !in c ::
        d in rows && rows[d].status == Released
  }

  /** The first place of a release in the queue. */
  function Place(xs: seq<nat>, x: nat): (i: nat)
    requires x in xs
    ensures i < |xs| && xs[i] == x
  {
    if xs[0] == x then 0 else 1 + Place(xs[1..], x)
  }

  lemma OnlyDependency(w: World, rows: map<nat, Row>, c: seq<nat>, i: nat)
    requires CircleOf(w, c) && i < |c| && c[i] in rows && OutsideReleased(w, rows, c)
    ensures DependenciesReleased(rows, w.facts[c[After(c, i)]]) <==> rows[c[i]].status == Released
  {
    hide Fileless;
    var f := w.facts[c[After(c, i)]];
    assert c[i] in f.dependencies && c[After(c, i)] in c;
    forall d | d in f.dependencies && d in c ensures d == c[i] {
      var j :| 0 <= j < |c| && c[j] == d;
    }
  }

  /** First the next release turns RELEASED. */
  lemma FirstTurn(w: World, s: State, c: seq<nat>, hot: nat, i: nat)
    requires CircleOf(w, c) && hot < |c| && Turning(w, s, c, hot) && i < |s.pending| && s.pending[i] == c[After(c, hot)]
    ensures var next, s' := After(c, hot), Step(w, s, i);
            && s'.rows.Keys == s.rows.Keys && (forall x | x in s.rows && x != c[next] :: s'.rows[x] == s.rows[x])
            && s'.rows[c[next]].status == Released
            && s'.pending == s.pending[..i] + s.pending[i + 1..] + w.facts[c[next]].dependents
  {
    hide Step, DependenciesReleased, Fileless, OutsideReleased;
    OnlyDependency(w, s.rows, c, hot);
    FilelessStep(w, s, i);
  }

  /** Then the hot one turns back under review. */
  lemma HotTurns(w: World, s: State, c: seq<nat>, hot: nat, i: nat, j: nat)
    requires CircleOf(w, c) && hot < |c| && Turning(w, s, c, hot) && i < |s.pending| && s.pending[i] == c[After(c, hot)]
    requires j < |Step(w, s, i).pending| && Step(w, s, i).pending[j] == c[hot]
    ensures var s1 := Step(w, s, i);
            var s2 := Step(w, s1, j);
            && s2.rows.Keys == s.rows.Keys && (forall x | x in s1.rows && x != c[hot] :: s2.rows[x] == s1.rows[x])
            && s2.rows[c[hot]].status == InReview
            && s2.pending == s1.pending[..j] + s1.pending[j + 1..] + w.facts[c[hot]].dependents
  {
    hide Step, DependenciesReleased, Fileless, OutsideReleased;
    var s1 := Step(w, s, i);
    FirstTurn(w, s, c, hot, i);
    OutsideStays(w, s.rows, s1.rows, c);
    var before := if hot == 0 then |c| - 1 else hot - 1;
    assert After(c, before) == hot && before != After(c, hot) && c[before] != c[After(c, hot)];
    OnlyDependency(w, s1.rows, c, before);
    FilelessStep(w, s1, j);
  }

  lemma OutsideStays(w: World, rows: map<nat, Row>, rows': map<nat, Row>, c: seq<nat>)
    requires OutsideReleased(w, rows, c) && forall x | x in rows && x !in c :: x in rows' && rows'[x] == rows[x]
    ensures OutsideReleased(w, rows', c)
  {
  }

  /** After both turns the next release is the hot one. */
  lemma SecondTurn(w: World, s: State, c: seq<nat>, hot: nat, i: nat, j: nat)
    requires CircleOf(w, c) && hot < |c| && Turning(w, s, c, hot) && i < |s.pending| && s.pending[i] == c[After(c, hot)]
    requires j < |Step(w, s, i).pending| && Step(w, s, i).pending[j] == c[hot]
    ensures var s1 := Step(w, s, i);
            var s2 := Step(w, s1, j);
            && Turning(w, s2, c, After(c, hot))
            && s2.pending == s1.pending[..j] + s1.pending[j + 1..] + w.facts[c[hot]].dependents
  {
    hide Step, Fileless, OutsideReleased;
    var next, s1 := After(c, hot), Step(w, s, i);
    FirstTurn(w, s, c, hot, i);
    HotTurns(w, s, c, hot, i, j);
    var s2 := Step(w, s1, j);
    OutsideStays(w, s.rows, s2.rows, c);
    assert c[After(c, next)] in w.facts[c[next]].dependents && c[next] in w.facts[c[hot]].dependents;
    assert c[After(c, next)] in s1.pending && c[After(c, next)] != c[hot];
    KeepsOthers(s1.pending, j);
  }

  lemma HotStaysQueued(w: World, s: State, c: seq<nat>, hot: nat, i: nat)
    requires CircleOf(w, c) && hot < |c| && Turning(w, s, c, hot) && i < |s.pending| && s.pending[i] == c[After(c, hot)]
    ensures c[hot] in Step(w, s, i).pending
  {
    hide Step, Fileless;
    FirstTurn(w, s, c, hot, i);
    KeepsOthers(s.pending, i);
  }

  /** No arcs to the outside, and nothing else pending. */
  ghost predicate Bare(w: World, s: State, c: seq<nat>, hot: nat)
    requires CircleOf(w, c) && hot < |c|
  {
    (forall i | 0 <= i < |c| :: w.facts[c[i]].dependents == [c[After(c, i)]]) && s.pending == [c[After(c, hot)], c[hot]]
  }

  /** On a circle of three or more releases the cascade can go on for ever: from every turning state
      there are valid runs of every even length. With nothing else in the queue and no arcs to the
      outside, queue order is such a run. */
  lemma {:induction false} CircleNeverStops(w: World, s: State, c: seq<nat>, hot: nat,
                                            rounds: nat) returns (choices: seq<nat>)
    requires CircleOf(w, c) && hot < |c| && Turning(w, s, c, hot)
    ensures |choices| == 2 * rounds && ValidRun(w, s, choices)
    ensures Bare(w, s, c, hot) ==> forall k | 0 <= k < |choices| :: choices[k] == 0
    decreases rounds
  {
    hide Step, CircleOf, Turning, Place, Bare;
    if rounds == 0 {
      choices := [];
    } else {
      var next := After(c, hot);
      CircleIds(w, s, c, hot);
      var i := Place(s.pending, c[next]);
      var s1 := Step(w, s, i);
      HotStaysQueued(w, s, c, hot, i);
      var j := Place(s1.pending, c[hot]);
      SecondTurn(w, s, c, hot, i, j);
      var s2 := Step(w, s1, j);
      var later := CircleNeverStops(w, s2, c, next, rounds - 1);
      choices := [i, j] + later;
      assert choices[1..] == [j] + later && choices[1..][1..] == later;
      if Bare(w, s, c, hot) {
        BareTurns(w, s, c, hot);
      }
    }
  }

  lemma BareTurns(w: World, s: State, c: seq<nat>, hot: nat)
    requires CircleOf(w, c) && hot < |c| && Turning(w, s, c, hot) && Bare(w, s, c, hot)
    ensures var next, s1 := After(c, hot), Step(w, s, 0);
            && Place(s.pending, c[next]) == 0 && c[hot] in s1.pending && Place(s1.pending, c[hot]) == 0
            && |s1.pending| > 0 && Bare(w, Step(w, s1, 0), c, next)
  {
    hide Step, Turning, Place, Fileless;
    var next, s1 := After(c, hot), Step(w, s, 0);
    FirstTurn(w, s, c, hot, 0);
    FirstPlace(s.pending);
    assert s1.pending == [c[hot], c[After(c, next)]];
    FirstPlace(s1.pending);
    SecondTurn(w, s, c, hot, 0, 0);
    assert Step(w, s1, 0).pending == [c[After(c, next)], c[next]];
  }

  lemma FirstPlace(xs: seq<nat>)
    requires xs != []
    ensures Place(xs, xs[0]) == 0
  {
  }

  lemma CircleIds(w: World, s: State, c: seq<nat>, hot: nat)
    requires CircleOf(w, c) && hot < |c| && Turning(w, s, c, hot)
    ensures forall i | 0 <= i < |c| :: c[i] in w.facts
    ensures c[hot] in s.pending && c[After(c, hot)] in s.pending
  {
    hide Fileless;
  }

  /** `n` releases without regulations and files in a circle. */
  function Ring(n: nat): World {
    World(map r | r in Below(n) ::
          Facts([], [], [], [if r == 0 then n - 1 else r - 1], [if r + 1 == n then 0 else r + 1]), {}, "")
  }

  function RingState(n: nat, hot: nat): State
    requires hot < n
  {
    State(map r | r in Below(n) ::
          Row(if r == hot then Released else InReview, 0, 0), map[], [if hot + 1 == n then 0 else hot + 1, hot])
  }

  lemma RingIsCircle(n: nat)
    requires n >= 3
    ensures CircleOf(Ring(n), seq(n, i => i)) && WellFormed(Ring(n))
  {
    hide NumCompliant;
  }

  lemma RingIsTurning(n: nat, hot: nat)
    requires n >= 3 && hot < n && CircleOf(Ring(n), seq(n, i => i))
    ensures Turning(Ring(n), RingState(n, hot), seq(n, i => i), hot)
  {
    hide CircleOf;
    var w, s, c := Ring(n), RingState(n, hot), seq(n, i => i);
    forall r, d | r in c && r in w.facts && d in w.facts[r].dependencies ensures d in c {
      assert d < n && c[d] == d;
    }
    assert c[hot] in s.pending && c[After(c, hot)] in s.pending;
  }

  lemma RingIsBare(n: nat, hot: nat)
    requires n >= 3 && hot < n && CircleOf(Ring(n), seq(n, i => i))
    ensures Bare(Ring(n), RingState(n, hot), seq(n, i => i), hot)
  {
    hide Fileless;
  }

  lemma RingIsConsistent(n: nat, hot: nat)
    requires n >= 3 && hot < n && WellFormed(Ring(n))
    ensures Consistent(Ring(n), RingState(n, hot))
  {
    hide WellFormed;
    var w, s := Ring(n), RingState(n, hot);
    forall r | r in w.facts && r !in s.pending ensures Settled(w, s, r) {
      var d := if r == 0 then n - 1 else r - 1;
      assert d in w.facts[r].dependencies && s.rows[d].status == InReview;
      NoFiles(w, s.uploads, w.facts[r]);
    }
  }

  /** For every length from three on there is such a circle, in a consistent state, on which even
      queue order never ends. */
  lemma RingNeverStops(n: nat, hot: nat, rounds: nat)
    requires n >= 3 && hot < n
    ensures Consistent(Ring(n), RingState(n, hot)) && ValidRun(Ring(n), RingState(n, hot), seq(2 * rounds, i => 0))
  {
    hide Turning, Consistent, ValidRun, CircleOf, Bare, Ring, RingState;
    var w, s, c := Ring(n), RingState(n, hot), seq(n, i => i);
    RingIsCircle(n);
    RingIsTurning(n, hot);
    RingIsConsistent(n, hot);
    RingIsBare(n, hot);
    var choices := CircleNeverStops(w, s, c, hot, rounds);
    assert choices == seq(2 * rounds, i => 0);
  }

  // ---------------------------------------------------------------------------------------
  // Pairs
  // ---------------------------------------------------------------------------------------

  /** Two releases, among any others, that depend on each other and on nothing else, and on which
      nothing else depends; both under review or released. */
  ghost predicate Pair(w: World, s: State, a: nat, b: nat) {
    && a != b && a in w.facts && b in w.facts && a in s.rows && b in s.rows
    && Fileless(w.facts[a]) && Fileless(w.facts[b])
    && w.facts[a].dependencies == w.facts[a].dependents == [b]
    && w.facts[b].dependencies == w.facts[b].dependents == [a]
    && (forall r | r in w.facts && r != a && r != b :: a !in w.facts[r].dependents && b !in w.facts[r].dependents)
    && Managed(s.rows[a].status) && Managed(s.rows[b].status)
  }

  /** How often the two are queued. */
  function Queued(xs: seq<nat>, a: nat, b: nat): nat {
    if xs == [] then 0 else Queued(xs[..|xs| - 1], a, b) + (if xs[|xs| - 1] == a || xs[|xs| - 1] == b then 1 else 0)
  }

  lemma {:induction false} QueuedConcat(xs: seq<nat>, ys: seq<nat>, a: nat, b: nat)
    ensures Queued(xs + ys, a, b) == Queued(xs, a, b) + Queued(ys, a, b)
    decreases |ys|
  {
    if ys == [] {
      assert xs + ys == xs;
    } else {
      assert (xs + ys)[..|xs + ys| - 1] == xs + ys[..|ys| - 1];
      QueuedConcat(xs, ys[..|ys| - 1], a, b);
    }
  }

  lemma QueuedWithout(xs: seq<nat>, i: nat, a: nat, b: nat)
    requires i < |xs|
    ensures Queued(xs, a, b) == Queued(xs[..i] + xs[i + 1..], a, b) + (if xs[i] == a || xs[i] == b then 1 else 0)
  {
    assert xs == xs[..i] + [xs[i]] + xs[i + 1..] && [xs[i]][..0] == [];
    QueuedConcat(xs[..i] + [xs[i]], xs[i + 1..], a, b);
    QueuedConcat(xs[..i], [xs[i]], a, b);
    QueuedConcat(xs[..i], xs[i + 1..], a, b);
  }

  lemma {:induction false} NoneQueued(xs: seq<nat>, a: nat, b: nat)
    requires a !in xs && b !in xs
    ensures Queued(xs, a, b) == 0
  {
    if xs != [] {
      NoneQueued(xs[..|xs| - 1], a, b);
    }
  }

  /** How often a run refreshes one of the two. */
  ghost function PairSteps(w: World, s: State, choices: seq<nat>, a: nat, b: nat): nat
    requires ValidRun(w, s, choices)
    decreases |choices|
  {
    if choices == [] then 0
    else
      (if s.pending[choices[0]] == a || s.pending[choices[0]] == b then 1 else 0)
      + PairSteps(w, Step(w, s, choices[0]), choices[1..], a, b)
  }

  lemma PairStep(w: World, s: State, a: nat, b: nat, i: nat)
    requires Pair(w, s, a, b) && i < |s.pending| && (s.pending[i] == a || s.pending[i] == b)
    ensures var s' := Step(w, s, i);
            && Pair(w, s', a, b) && s'.rows[a].status == s'.rows[b].status
            && Queued(s'.pending, a, b) + (if s.rows[a].status == s.rows[b].status then 1 else 0)
              == Queued(s.pending, a, b)
  {
    hide Step, Fileless;
    FilelessStep(w, s, i);
    assert b in [b] && a in [a];
    var s', rest := Step(w, s, i), s.pending[..i] + s.pending[i + 1..];
    QueuedWithout(s.pending, i, a, b);
    QueuedConcat(rest, w.facts[s.pending[i]].dependents, a, b);
    QueuedOne(a, b);
  }

  lemma QueuedOne(a: nat, b: nat)
    ensures Queued([a], a, b) == 1 && Queued([b], a, b) == 1
  {
    assert [a][..0] == [] && [b][..0] == [];
  }

  lemma OtherStep(w: World, s: State, a: nat, b: nat, i: nat)
    requires Pair(w, s, a, b) && i < |s.pending| && s.pending[i] != a && s.pending[i] != b
    ensures var s' := Step(w, s, i);
            && Pair(w, s', a, b) && s'.rows[a] == s.rows[a] && s'.rows[b] == s.rows[b]
            && Queued(s'.pending, a, b) == Queued(s.pending, a, b)
  {
    StepEffect(w, s, i);
    hide Step, Fileless, NewRow, NewStatus, UploadsChecked;
    var r, rest := s.pending[i], s.pending[..i] + s.pending[i + 1..];
    QueuedWithout(s.pending, i, a, b);
    if r in w.facts {
      QueuedConcat(rest, w.facts[r].dependents, a, b);
      NoneQueued(w.facts[r].dependents, a, b);
    }
  }

  /** In any world every run refreshes two such releases at most once more than they were queued, although
      no rank exists: acyclicity is enough for stopping but not needed. */
  lemma {:induction false} PairStops(w: World, s: State, a: nat, b: nat, choices: seq<nat>)
    requires Pair(w, s, a, b) && ValidRun(w, s, choices)
    ensures PairSteps(w, s, choices, a, b)
         <= Queued(s.pending, a, b) + (if s.rows[a].status == s.rows[b].status then 0 else 1)
    ensures forall rank, bound :: !Ranked(w, rank, bound)
    decreases |choices|
  {
    hide Step, Fileless, Queued;
    assert b in w.facts[a].dependents && a in w.facts[b].dependents;
    if choices != [] {
      var i := choices[0];
      if s.pending[i] == a || s.pending[i] == b {
        PairStep(w, s, a, b, i);
      } else {
        OtherStep(w, s, a, b, i);
      }
      PairStops(w, Step(w, s, i), a, b, choices[1..]);
    }
  }

  /** Where there are only the two, that bounds the whole run. */
  lemma {:induction false} OnlyThePair(w: World, s: State, a: nat, b: nat, choices: seq<nat>)
    requires Pair(w, s, a, b) && ValidRun(w, s, choices) && forall r | r in s.pending :: r == a || r == b
    ensures PairSteps(w, s, choices, a, b) == |choices|
    ensures |choices| <= |s.pending| + (if s.rows[a].status == s.rows[b].status then 0 else 1)
    decreases |choices|
  {
    hide Step, Fileless, Queued;
    PairStops(w, s, a, b, choices);
    AllQueued(s.pending, a, b);
    if choices != [] {
      var i, rest := choices[0], s.pending[..choices[0]] + s.pending[choices[0] + 1..];
      assert s.pending[i] in s.pending;
      PairStep(w, s, a, b, i);
      FilelessStep(w, s, i);
      var s' := Step(w, s, i);
      assert forall r | r in rest :: r in s.pending;
      assert forall r | r in s'.pending :: r in rest || r in [a] || r in [b];
      OnlyThePair(w, s', a, b, choices[1..]);
    }
  }

  lemma {:induction false} AllQueued(xs: seq<nat>, a: nat, b: nat)
    ensures Queued(xs, a, b) <= |xs|
  {
    if xs != [] {
      AllQueued(xs[..|xs| - 1], a, b);
    }
  }

  // ---------------------------------------------------------------------------------------
  // A missing file
  // ---------------------------------------------------------------------------------------

  lemma OneDependency(rows: map<nat, Row>, f: Facts, d: nat)
    requires f.dependencies == [d]
    ensures DependenciesReleased(rows, f) <==> d in rows && rows[d].status == Released
  {
    assert d in f.dependencies;
  }

  /** A released release whose file is gone depends on one that is about to be released. */
  function Broken(): World {
    World(map[0 := Facts([], [], [Artifact(DockerImage, true, None)], [], [1]),
              1 := Facts([], [], [Artifact(File, true, Some(7))], [0], [])], {}, "")
  }

  const FOUND: Uploads := map[7 := Upload("", "key", Uploaded)]
  const GONE: Uploads := map[7 := Upload("", "key", Removed)]

  function BrokenState(first: Status, second: Status, uploads: Uploads, pending: seq<nat>): State {
    State(map[0 := Row(first, 0, 0), 1 := Row(second, 0, 0)], uploads, pending)
  }

  lemma FirstFacts()
    ensures var w := Broken();
            var f := w.facts[0];
            && Compliant(f) && Ready(w, FOUND, f) && Ready(w, GONE, f)
            && UploadsChecked(w, FOUND, f) == FOUND && UploadsChecked(w, GONE, f) == GONE
  {
    var f := Broken().facts[0];
    assert f.artifacts[..0] == [];
    assert FileIds(f.artifacts) == [];
    assert f.artifacts[0].isInstallation && f.artifacts[0].kind == DockerImage;
  }

  lemma SecondFacts()
    ensures var w := Broken();
            var g := w.facts[1];
            && Compliant(g) && !Ready(w, FOUND, g) && Missing(w, FOUND, g)
            && UploadsChecked(w, FOUND, g) == GONE && UploadsChecked(w, GONE, g) == GONE
  {
    var w := Broken();
    var g := w.facts[1];
    assert g.artifacts[..0] == [];
    assert FileIds(g.artifacts) == [7];
    assert g.artifacts[0].isInstallation && g.artifacts[0].kind == File;
    assert 7 in [7] && !Stored(FOUND, w.objects, w.ownBucket, 7);
    assert UploadsChecked(w, FOUND, g) == GONE;
    FilesUploadedIff(GONE, [7]);
  }

  /** Refreshing the first release: it has no missing file and becomes RELEASED. */
  lemma BrokenFirst(second: Status, uploads: Uploads, pending: seq<nat>, i: nat)
    requires uploads in {FOUND, GONE} && i < |pending| && pending[i] == 0
    ensures Step(Broken(), BrokenState(InReview, second, uploads, pending), i)
         == BrokenState(Released, second, uploads, pending[..i] + pending[i + 1..] + [1])
  {
    FirstFacts();
    hide Compliant, Ready, Missing, UploadsChecked;
    assert NumCompliant(Broken().facts[0], []) == 0;
  }

  /** Refreshing the second release: its own file is gone, so it hangs on the first. */
  lemma BrokenSecond(first: Status, uploads: Uploads, pending: seq<nat>, i: nat)
    requires (first == Released && uploads in {FOUND, GONE}) || (first == InReview && uploads == FOUND)
    requires i < |pending| && pending[i] == 1
    ensures Step(Broken(), BrokenState(first, Released, uploads, pending), i)
         == BrokenState(first, if first == Released then Released else Error, GONE, pending[..i] + pending[i + 1..])
  {
    SecondFacts();
    hide Compliant, Ready, Missing, UploadsChecked;
    var w, s := Broken(), BrokenState(first, Released, uploads, pending);
    OneDependency(s.rows, w.facts[1], 0);
    hide DependenciesReleased;
  }

  lemma BrokenForward()
    ensures var w, s := Broken(), BrokenState(InReview, Released, FOUND, [0, 1]);
            ValidRun(w, s, [0, 0, 0]) && Run(w, s, [0, 0, 0]) == BrokenState(Released, Released, GONE, [])
  {
    hide Step;
    BrokenFirst(Released, FOUND, [0, 1], 0);
    BrokenSecond(Released, FOUND, [1, 1], 0);
    BrokenSecond(Released, GONE, [1], 0);
    ThreeSteps(Broken(), BrokenState(InReview, Released, FOUND, [0, 1]), BrokenState(Released, Released, FOUND, [1, 1]),
               BrokenState(Released, Released, GONE, [1]), BrokenState(Released, Released, GONE, []), 0);
  }

  lemma ThreeSteps(w: World, s: State, s1: State, s2: State, s3: State, i: nat)
    requires i < |s.pending| && |s1.pending| > 0 && |s2.pending| > 0
    requires Step(w, s, i) == s1 && Step(w, s1, 0) == s2 && Step(w, s2, 0) == s3
    ensures ValidRun(w, s, [i, 0, 0]) && Run(w, s, [i, 0, 0]) == s3
  {
    hide Step;
    assert [i, 0, 0][1..] == [0, 0] && [0, 0][1..] == [0] && [0][1..] == [];
    assert ValidRun(w, s2, [0]) && Run(w, s2, [0]) == s3;
    assert ValidRun(w, s1, [0, 0]) && Run(w, s1, [0, 0]) == s3;
  }

  lemma BrokenBackward()
    ensures var w, s := Broken(), BrokenState(InReview, Released, FOUND, [0, 1]);
            ValidRun(w, s, [1, 0, 0]) && Run(w, s, [1, 0, 0]) == BrokenState(Released, Error, GONE, [])
  {
    var last := BrokenState(Released, Error, GONE, [1]);
    assert Step(Broken(), last, 0) == BrokenState(Released, Error, GONE, []);
    hide Step;
    BrokenSecond(InReview, FOUND, [0, 1], 1);
    BrokenFirst(Error, GONE, [0], 0);
    ThreeSteps(Broken(), BrokenState(InReview, Released, FOUND, [0, 1]), BrokenState(InReview, Error, GONE, [0]), last,
               BrokenState(Released, Error, GONE, []), 1);
  }

  lemma BrokenWellFormed()
    ensures WellFormed(Broken())
  {
    assert 0 in [0] && 1 in [1];
  }

  /** With a file missing the order decides: refreshing the dependency first keeps the release
      RELEASED, refreshing the release first turns it into ERROR for good. */
  lemma OrderMattersWhenMissing()
    ensures var w, s := Broken(), BrokenState(InReview, Released, FOUND, [0, 1]);
            && Consistent(w, s)
            && ValidRun(w, s, [0, 0, 0]) && Run(w, s, [0, 0, 0]) == BrokenState(Released, Released, GONE, [])
            && ValidRun(w, s, [1, 0, 0]) && Run(w, s, [1, 0, 0]) == BrokenState(Released, Error, GONE, [])
  {
    hide Settled, Step, Run, ValidRun, WellFormed;
    BrokenWellFormed();
    BrokenForward();
    BrokenBackward();
  }
}
