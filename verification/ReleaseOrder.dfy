/** The sort order the release subscriber maintains, and the "latest" pointer that reads it. */
module ReleaseOrder {
  import opened Options
  import opened ReleaseModel
  import opened SemanticVersion

  /** A release row; a new row starts with sort order 0. */
  datatype Release = Release(id: nat, project: nat, version: string, status: Status, sortOrder: nat, latest: bool)

  /** `semver.valid` and the parsed version. */
  type Parser = string -> Option<SemVer>

  predicate ValidVersion(parse: Parser, r: Release) {
    parse(r.version).Some?
  }

  // ---------------------------------------------------------------------------------------
  // Stable sorting
  // ---------------------------------------------------------------------------------------

  type Before = (Release, Release) -> bool

  function InsertBy(before: Before, x: Release, s: seq<Release>): seq<Release> {
    if s == [] then [x]
    else if before(x, s[0]) then [x] + s
    else [s[0]] + InsertBy(before, x, s[1..])
  }

  /** A stable sort: `before` says that the left element may stay in front of the right one. */
  function SortBy(before: Before, s: seq<Release>): seq<Release> {
    if s == [] then [] else InsertBy(before, s[0], SortBy(before, s[1..]))
  }

  ghost predicate Transitive(rel: Before) {
    forall a, b, c :: rel(a, b) && rel(b, c) ==> rel(a, c)
  }

  ghost predicate Ordered(rel: Before, s: seq<Release>) {
    forall i, j | 0 <= i < j < |s| :: rel(s[i], s[j])
  }

  lemma {:induction false} InsertHas(before: Before, x: Release, s: seq<Release>, y: Release)
    ensures y in InsertBy(before, x, s) <==> y == x || y in s
    decreases |s|
  {
    if s != [] {
      assert s == [s[0]] + s[1..];
      InsertHas(before, x, s[1..], y);
    }
  }

  lemma {:induction false} SortHas(before: Before, s: seq<Release>, y: Release)
    ensures y in SortBy(before, s) <==> y in s
    decreases |s|
  {
    if s != [] {
      assert s == [s[0]] + s[1..];
      SortHas(before, s[1..], y);
      InsertHas(before, s[0], SortBy(before, s[1..]), y);
    }
  }

  lemma {:induction false} InsertOrders(before: Before, rel: Before, x: Release, s: seq<Release>)
    requires Transitive(rel) && Ordered(rel, s)
    requires forall y | y in s :: if before(x, y) then rel(x, y) else rel(y, x)
    ensures Ordered(rel, InsertBy(before, x, s))
    decreases |s|
  {
    if s != [] && !before(x, s[0]) {
      InsertOrders(before, rel, x, s[1..]);
      var t := InsertBy(before, x, s[1..]);
      forall j | 0 <= j < |t| ensures rel(s[0], t[j]) {
        InsertHas(before, x, s[1..], t[j]);
        if t[j] != x {
          var k :| 0 <= k < |s[1..]| && s[1..][k] == t[j];
          assert s[k + 1] == t[j];
        }
      }
    } else if s != [] {
      forall j | 0 <= j < |s| ensures rel(x, s[j]) {
        assert j > 0 ==> rel(s[0], s[j]);
        assert rel(x, s[0]);
      }
    }
  }

  /** The sorted list is ordered by `rel` when `before` decides `rel` for the elements in list order. */
  lemma {:induction false} SortOrders(before: Before, rel: Before, s: seq<Release>)
    requires Transitive(rel)
    requires forall i, j | 0 <= i < j < |s| :: if before(s[i], s[j]) then rel(s[i], s[j]) else rel(s[j], s[i])
    ensures Ordered(rel, SortBy(before, s))
    decreases |s|
  {
    if s != [] {
      SortOrders(before, rel, s[1..]);
      forall y | y in SortBy(before, s[1..]) ensures if before(s[0], y) then rel(s[0], y) else rel(y, s[0]) {
        SortHas(before, s[1..], y);
        var k :| 0 <= k < |s[1..]| && s[1..][k] == y;
        assert s[k + 1] == y;
      }
      InsertOrders(before, rel, s[0], SortBy(before, s[1..]));
    }
  }

  // ---------------------------------------------------------------------------------------
  // Inserting a release
  // ---------------------------------------------------------------------------------------

  function OfProject(rows: seq<Release>, project: nat): seq<Release> {
    if rows == [] then []
    else
      var n := |rows| - 1;
      OfProject(rows[..n], project) + (if rows[n].project == project then [rows[n]] else [])
  }

  function Valid(parse: Parser, rows: seq<Release>): seq<Release> {
    if rows == [] then []
    else
      var n := |rows| - 1;
      Valid(parse, rows[..n]) + (if ValidVersion(parse, rows[n]) then [rows[n]] else [])
  }

  const BY_SORT_ORDER: Before := (a: Release, b: Release) => a.sortOrder <= b.sortOrder
  const BY_SORT_ORDER_DESC: Before := (a: Release, b: Release) => a.sortOrder >= b.sortOrder

  /** Not later by precedence; invalid versions, which the subscriber filters out before sorting,
      compare as equal. */
  function ByVersion(parse: Parser): Before {
    (a: Release, b: Release) =>
      if ValidVersion(parse, a) && ValidVersion(parse, b)
        then Compare(parse(a.version).value, parse(b.version).value) <= 0 else true
  }

  /** The project's valid releases in version order, as the subscriber lists them. */
  function VersionOrder(parse: Parser, rows: seq<Release>, project: nat): seq<Release> {
    SortBy(ByVersion(parse), Valid(parse, SortBy(BY_SORT_ORDER, OfProject(rows, project))))
  }

  /** The first release of that version, or -1. */
  function FindVersion(s: seq<Release>, version: string): (i: int)
    ensures -1 <= i < |s|
    ensures i >= 0 ==> s[i].version == version
    ensures i < 0 ==> forall j | 0 <= j < |s| :: s[j].version != version
    ensures forall j | 0 <= j < i :: s[j].version != version
  {
    if s == [] then -1
    else
      var n := |s| - 1;
      var i := FindVersion(s[..n], version);
      if i >= 0 then i else if s[n].version == version then n else -1
  }

  function NewSortOrder(parse: Parser, rows: seq<Release>, project: nat, version: string): nat {
    var s := VersionOrder(parse, rows, project);
    var i := FindVersion(s, version);
    if i > 0 then s[i - 1].sortOrder + 1 else 1
  }

  function ShiftedRow(r: Release, from: nat): Release {
    if r.sortOrder >= from then r.(sortOrder := r.sortOrder + 1) else r
  }

  /** Incrementing every sort order from `from` on, in all projects. */
  function Shifted(rows: seq<Release>, from: nat): seq<Release> {
    seq(|rows|, i requires 0 <= i < |rows| => ShiftedRow(rows[i], from))
  }

  /** Inserting a row and `afterInsert`. */
  function Inserted(parse: Parser, rows: seq<Release>, id: nat, project: nat, version: string,
                    status: Status): seq<Release> {
    var all := rows + [Release(id, project, version, status, 0, false)];
    if parse(version).None? then all
    else
      var order := NewSortOrder(parse, all, project, version);
      var shifted := Shifted(all, order);
      shifted[|rows| := shifted[|rows|].(sortOrder := order)]
  }

  // ---------------------------------------------------------------------------------------
  // Faithfulness to precedence
  // ---------------------------------------------------------------------------------------

  predicate Precedes(parse: Parser, a: Release, b: Release) {
    ValidVersion(parse, a) && ValidVersion(parse, b) && Compare(parse(a.version).value, parse(b.version).value) < 0
  }

  /** Two rows of one project with valid versions: distinct sort orders that follow precedence. */
  predicate PairFaithful(parse: Parser, a: Release, b: Release) {
    a.project == b.project && ValidVersion(parse, a) && ValidVersion(parse, b) ==>
      && a.sortOrder != b.sortOrder
      && (Precedes(parse, a, b) ==> a.sortOrder < b.sortOrder)
      && (Precedes(parse, b, a) ==> b.sortOrder < a.sortOrder)
  }

  /** The table: unique versions per project (the unique index), sort orders at least 1 for valid
      versions and 0 for invalid ones, faithful within each project. */
  ghost predicate Faithful(parse: Parser, rows: seq<Release>) {
    && (forall i, j | 0 <= i < j < |rows| && rows[i].project == rows[j].project :: rows[i].version != rows[j].version)
    && (forall i | 0 <= i < |rows| :: ValidVersion(parse, rows[i]) <==> rows[i].sortOrder >= 1)
    && (forall i, j | 0 <= i < j < |rows| :: PairFaithful(parse, rows[i], rows[j]))
  }

  lemma {:induction false} OfProjectHas(rows: seq<Release>, project: nat, y: Release)
    ensures y in OfProject(rows, project) <==> y in rows && y.project == project
  {
    if rows != [] {
      var n := |rows| - 1;
      OfProjectHas(rows[..n], project, y);
      assert rows == rows[..n] + [rows[n]];
    }
  }

  lemma {:induction false} ValidHas(parse: Parser, rows: seq<Release>, y: Release)
    ensures y in Valid(parse, rows) <==> y in rows && ValidVersion(parse, y)
  {
    if rows != [] {
      var n := |rows| - 1;
      ValidHas(parse, rows[..n], y);
      assert rows == rows[..n] + [rows[n]];
    }
  }

  lemma {:induction false} ValidKeepsOrder(parse: Parser, rel: Before, rows: seq<Release>)
    requires Ordered(rel, rows)
    ensures Ordered(rel, Valid(parse, rows))
  {
    if rows != [] {
      var n := |rows| - 1;
      assert forall i | 0 <= i < n :: rows[..n][i] == rows[i];
      ValidKeepsOrder(parse, rel, rows[..n]);
      forall x | x in Valid(parse, rows[..n]) ensures rel(x, rows[n]) {
        ValidHas(parse, rows[..n], x);
        var k :| 0 <= k < n && rows[..n][k] == x;
        assert rel(rows[k], rows[n]);
      }
    }
  }

  lemma VersionOrderHas(parse: Parser, rows: seq<Release>, project: nat, y: Release)
    ensures y in VersionOrder(parse, rows, project) <==> y in rows && y.project == project && ValidVersion(parse, y)
  {
    var listed := SortBy(BY_SORT_ORDER, OfProject(rows, project));
    OfProjectHas(rows, project, y);
    SortHas(BY_SORT_ORDER, OfProject(rows, project), y);
    ValidHas(parse, listed, y);
    SortHas(ByVersion(parse), Valid(parse, listed), y);
  }

  /** Version order with ties broken by sort order. */
  ghost function Lexicographic(parse: Parser): Before {
    (a: Release, b: Release) =>
      && ValidVersion(parse, a) && ValidVersion(parse, b)
      && var c := Compare(parse(a.version).value, parse(b.version).value);
         c < 0 || (c == 0 && a.sortOrder <= b.sortOrder)
  }

  lemma LexicographicTransitive(parse: Parser)
    ensures Transitive(Lexicographic(parse))
  {
    hide Compare;
    forall a, b, c | Lexicographic(parse)(a, b) && Lexicographic(parse)(b, c) ensures Lexicographic(parse)(a, c) {
      assert ValidVersion(parse, a) && ValidVersion(parse, b) && ValidVersion(parse, c);
      CompareLaws(parse(a.version).value, parse(b.version).value, parse(c.version).value);
      CompareLaws(parse(b.version).value, parse(c.version).value, parse(a.version).value);
    }
  }

  /** The subscriber's list is in version order, ties by sort order. */
  lemma VersionOrderOrdered(parse: Parser, rows: seq<Release>, project: nat)
    ensures Ordered(Lexicographic(parse), VersionOrder(parse, rows, project))
  {
    hide Compare, SortBy, OfProject, Valid;
    var listed := SortBy(BY_SORT_ORDER, OfProject(rows, project));
    SortOrders(BY_SORT_ORDER, BY_SORT_ORDER, OfProject(rows, project));
    ValidKeepsOrder(parse, BY_SORT_ORDER, listed);
    var valid := Valid(parse, listed);
    LexicographicTransitive(parse);
    forall i, j | 0 <= i < j < |valid|
      ensures if ByVersion(parse)(valid[i], valid[j]) then Lexicographic(parse)(valid[i], valid[j])
              else Lexicographic(parse)(valid[j], valid[i])
    {
      ValidHas(parse, listed, valid[i]);
      ValidHas(parse, listed, valid[j]);
      CompareLaws(parse(valid[i].version).value, parse(valid[j].version).value, parse(valid[j].version).value);
      assert BY_SORT_ORDER(valid[i], valid[j]);
    }
    SortOrders(ByVersion(parse), Lexicographic(parse), valid);
  }

  /** Where the new row goes: above every valid row of its project that precedes it, at or below
      every one that follows it. */
  lemma NewSortOrderFits(parse: Parser, rows: seq<Release>, new': Release, x: Release)
    requires Faithful(parse, rows) && x in rows && x.project == new'.project
    requires new'.sortOrder == 0 && ValidVersion(parse, new') && forall y | y in rows && y.project == new'.project ::
             y.version != new'.version
    ensures var order := NewSortOrder(parse, rows + [new'], new'.project, new'.version);
            order >= 1 && (Precedes(parse, x, new') ==> x.sortOrder < order)
              && (Precedes(parse, new', x) ==> x.sortOrder >= order)
  {
    hide Compare, VersionOrder, FindVersion, Faithful, PairFaithful, Precedes, ValidVersion;
    var all := rows + [new'];
    var s := VersionOrder(parse, all, new'.project);
    var i := FindVersion(s, new'.version);
    VersionOrderHas(parse, all, new'.project, new');
    assert new' in all && x in all && new' in s;
    assert i >= 0;
    VersionOrderHas(parse, all, new'.project, s[i]);
    assert s[i] == new';
    if ValidVersion(parse, x) {
      VersionOrderHas(parse, all, new'.project, x);
      assert x in s;
      if i > 0 {
        VersionOrderHas(parse, all, new'.project, s[i - 1]);
        NotRepeated(s, i, new'.version);
        assert s[i - 1] in rows;
      }
      VersionOrderOrdered(parse, all, new'.project);
      PlaceFits(parse, rows, s, i, x);
    } else {
      assert !Precedes(parse, x, new') && !Precedes(parse, new', x) by { InvalidPrecedesNothing(parse, x, new'); }
    }
  }

  lemma NotRepeated(s: seq<Release>, i: nat, version: string)
    requires 0 < i < |s| && i == FindVersion(s, version)
    ensures s[i - 1].version != version
  {
    hide FindVersion;
  }

  lemma InvalidPrecedesNothing(parse: Parser, a: Release, b: Release)
    requires !ValidVersion(parse, a)
    ensures !Precedes(parse, a, b) && !Precedes(parse, b, a)
  {
  }

  /** The place after the left neighbour, or the first, lies between the rows before and after. */
  lemma PlaceFits(parse: Parser, rows: seq<Release>, s: seq<Release>, i: nat, x: Release)
    requires Faithful(parse, rows) && x in rows && x in s && ValidVersion(parse, x) && i < |s|
    requires Ordered(Lexicographic(parse), s) && ValidVersion(parse, s[i])
    requires s[i].sortOrder == 0 && s[i] !in rows
    requires i > 0 ==> s[i - 1] in rows && s[i - 1].project == x.project
    ensures var order := if i > 0 then s[i - 1].sortOrder + 1 else 1;
            (Precedes(parse, x, s[i]) ==> x.sortOrder < order) && (Precedes(parse, s[i], x) ==> x.sortOrder >= order)
  {
    hide Compare, Faithful, PairFaithful;
    var k :| 0 <= k < |s| && s[k] == x;
    CompareLaws(parse(x.version).value, parse(s[i].version).value, parse(x.version).value);
    ProjectRowsFaithful(parse, rows, x, x);
    if k < i {
      assert Lexicographic(parse)(s[k], s[i]);
      if k < i - 1 {
        assert Lexicographic(parse)(s[k], s[i - 1]);
        LexicographicIsFaithful(parse, rows, x, s[i - 1]);
      }
    } else {
      assert k > i;
      assert Lexicographic(parse)(s[i], s[k]);
      if i > 0 && Precedes(parse, s[i], x) {
        assert Lexicographic(parse)(s[i - 1], s[i]) && Lexicographic(parse)(s[i - 1], s[k]);
        LexicographicIsFaithful(parse, rows, s[i - 1], x);
        StrictlyBefore(parse, s[i - 1], s[i], x);
      }
    }
  }

  /** Among faithful rows of a project the list order is the order of the sort orders. */
  lemma LexicographicIsFaithful(parse: Parser, rows: seq<Release>, a: Release, b: Release)
    requires Faithful(parse, rows) && a in rows && b in rows && a.project == b.project && Lexicographic(parse)(a, b)
    ensures a.sortOrder <= b.sortOrder && (Precedes(parse, a, b) ==> a.sortOrder < b.sortOrder)
  {
    hide Compare, Faithful;
    ProjectRowsFaithful(parse, rows, a, b);
    CompareLaws(parse(a.version).value, parse(b.version).value, parse(a.version).value);
  }

  lemma StrictlyBefore(parse: Parser, a: Release, b: Release, c: Release)
    requires Lexicographic(parse)(a, b) && Precedes(parse, b, c)
    ensures Precedes(parse, a, c)
  {
    hide Compare;
    assert ValidVersion(parse, a) && ValidVersion(parse, b) && ValidVersion(parse, c);
    var u, v, z := parse(a.version).value, parse(b.version).value, parse(c.version).value;
    CompareLaws(u, v, z);
    assert Compare(u, v) <= 0 && Compare(v, z) < 0;
    assert Compare(u, z) < 0;
  }

  lemma ProjectRowsFaithful(parse: Parser, rows: seq<Release>, a: Release, b: Release)
    requires Faithful(parse, rows) && a in rows && b in rows
    ensures a != b ==> PairFaithful(parse, a, b) && PairFaithful(parse, b, a)
    ensures ValidVersion(parse, a) <==> a.sortOrder >= 1
  {
    var i :| 0 <= i < |rows| && rows[i] == a;
    var j :| 0 <= j < |rows| && rows[j] == b;
  }

  /** Inserting a release, in any order and into any project, keeps every project's sort order
      faithful to precedence, although the shift touches all projects. */
  lemma InsertKeepsFaithful(parse: Parser, rows: seq<Release>, id: nat, project: nat, version: string, status: Status)
    requires Faithful(parse, rows) && forall y | y in rows && y.project == project :: y.version != version
    ensures Faithful(parse, Inserted(parse, rows, id, project, version, status))
  {
    hide NewSortOrder, PairFaithful, Compare;
    var new' := Release(id, project, version, status, 0, false);
    var all := rows + [new'];
    var r := Inserted(parse, rows, id, project, version, status);
    if parse(version).Some? {
      var order := NewSortOrder(parse, all, project, version);
      NewOrderPositive(parse, all, project, version);
      InsertedAt(parse, rows, id, project, version, status);
      hide Inserted;
      forall i, j | 0 <= i < j < |r| ensures PairFaithful(parse, r[i], r[j]) {
        if j < |rows| {
          ShiftKeepsPair(parse, rows[i], rows[j], order);
        } else {
          assert rows[i] in rows;
          if rows[i].project == project {
            NewSortOrderFits(parse, rows, new', rows[i]);
          }
          NewPairFaithful(parse, rows[i], new', order);
        }
      }
    } else {
      forall i | 0 <= i < |rows| ensures PairFaithful(parse, rows[i], new') {
        InvalidPairFaithful(parse, rows[i], new');
      }
    }
  }

  /** The table after an insertion, row by row. */
  lemma InsertedAt(parse: Parser, rows: seq<Release>, id: nat, project: nat, version: string, status: Status)
    requires parse(version).Some?
    ensures var new' := Release(id, project, version, status, 0, false);
            var order, r := NewSortOrder(parse, rows + [new'], project, version),
              Inserted(parse, rows, id, project, version, status);
            && |r| == |rows| + 1 && r[|rows|] == new'.(sortOrder := order)
            && forall i | 0 <= i < |rows| :: r[i] == ShiftedRow(rows[i], order)
  {
    hide NewSortOrder;
  }

  lemma InvalidPairFaithful(parse: Parser, a: Release, b: Release)
    requires !ValidVersion(parse, b)
    ensures PairFaithful(parse, a, b)
  {
  }

  lemma ShiftKeepsPair(parse: Parser, a: Release, b: Release, from: nat)
    requires PairFaithful(parse, a, b)
    ensures PairFaithful(parse, ShiftedRow(a, from), ShiftedRow(b, from))
  {
    hide Compare;
  }

  lemma NewPairFaithful(parse: Parser, x: Release, new': Release, order: nat)
    requires x.project == new'.project ==>
               (Precedes(parse, x, new') ==> x.sortOrder < order) && (Precedes(parse, new', x) ==> x.sortOrder >= order)
    ensures PairFaithful(parse, ShiftedRow(x, order), new'.(sortOrder := order))
  {
    hide Compare;
  }

  lemma NewOrderPositive(parse: Parser, rows: seq<Release>, project: nat, version: string)
    ensures NewSortOrder(parse, rows, project, version) >= 1
  {
  }

  // ---------------------------------------------------------------------------------------
  // Every run of table operations
  // ---------------------------------------------------------------------------------------

  datatype Op = Insert(id: nat, project: nat, version: string, status: Status) | SetStatus(target: nat,
    newStatus: Status) | Delete(target: nat)

  function Without(rows: seq<Release>, id: nat): seq<Release> {
    if rows == [] then []
    else
      var n := |rows| - 1;
      Without(rows[..n], id) + (if rows[n].id == id then [] else [rows[n]])
  }

  function WithStatus(rows: seq<Release>, id: nat, status: Status): seq<Release> {
    seq(|rows|, i requires 0 <= i < |rows| => if rows[i].id == id then rows[i].(status := status) else rows[i])
  }

  predicate VersionTaken(rows: seq<Release>, project: nat, version: string) {
    exists i | 0 <= i < |rows| :: rows[i].project == project && rows[i].version == version
  }

  /** A second row of the same project and version violates the unique index. */
  function Apply(parse: Parser, rows: seq<Release>, op: Op): seq<Release> {
    match op
    case Insert(id, project, version, status) =>
      if VersionTaken(rows, project, version) then rows else Inserted(parse, rows, id, project, version, status)
    case SetStatus(id, status) => WithStatus(rows, id, status)
    case Delete(id) => Without(rows, id)
  }

  function ApplyAll(parse: Parser, rows: seq<Release>, ops: seq<Op>): seq<Release> {
    if ops == [] then rows else Apply(parse, ApplyAll(parse, rows, ops[..|ops| - 1]), ops[|ops| - 1])
  }

  lemma {:induction false} WithoutHas(rows: seq<Release>, id: nat, y: Release)
    ensures y in Without(rows, id) ==> y in rows
  {
    if rows != [] {
      WithoutHas(rows[..|rows| - 1], id, y);
      assert rows == rows[..|rows| - 1] + [rows[|rows| - 1]];
    }
  }

  lemma {:induction false} WithoutKeepsFaithful(parse: Parser, rows: seq<Release>, id: nat)
    requires Faithful(parse, rows)
    ensures Faithful(parse, Without(rows, id))
  {
    if rows != [] {
      var n := |rows| - 1;
      var front, last := rows[..n], rows[n];
      assert forall i | 0 <= i < n :: front[i] == rows[i];
      WithoutKeepsFaithful(parse, front, id);
      forall x | x in Without(front, id)
        ensures (x.project == last.project ==> x.version != last.version) && PairFaithful(parse, x, last)
      {
        WithoutHas(front, id, x);
        var k :| 0 <= k < n && front[k] == x;
        assert PairFaithful(parse, rows[k], rows[n]);
      }
    }
  }

  /** Whatever releases are inserted, deleted or change status, in any order, the sort order stays
      faithful to precedence in every project. */
  lemma {:induction false} RunsStayFaithful(parse: Parser, ops: seq<Op>)
    ensures Faithful(parse, ApplyAll(parse, [], ops))
  {
    if ops != [] {
      var rows, op := ApplyAll(parse, [], ops[..|ops| - 1]), ops[|ops| - 1];
      RunsStayFaithful(parse, ops[..|ops| - 1]);
      match op
      case Insert(id, project, version, status) =>
        if !VersionTaken(rows, project, version) {
          InsertKeepsFaithful(parse, rows, id, project, version, status);
        }
      case SetStatus(id, status) =>
        var r := WithStatus(rows, id, status);
        assert forall i, j | 0 <= i < j < |r| ::
                 PairFaithful(parse, rows[i], rows[j]) ==> PairFaithful(parse, r[i], r[j]);
      case Delete(id) => WithoutKeepsFaithful(parse, rows, id);
    }
  }

  // ---------------------------------------------------------------------------------------
  // The latest pointer
  // ---------------------------------------------------------------------------------------

  predicate Candidate(r: Release, project: nat) {
    r.project == project && r.status == Released
  }

  /** `ORDER BY sort_order DESC LIMIT 1` over the project's released rows, or -1. */
  function TopReleased(rows: seq<Release>, project: nat): (t: int)
    ensures -1 <= t < |rows|
    ensures t >= 0 ==> Candidate(rows[t], project)
    ensures t < 0 ==> forall i | 0 <= i < |rows| :: !Candidate(rows[i], project)
    ensures t >= 0 ==> forall i | 0 <= i < |rows| && Candidate(rows[i], project) ::
            rows[i].sortOrder <= rows[t].sortOrder
  {
    if rows == [] then -1
    else
      var n := |rows| - 1;
      var t := TopReleased(rows[..n], project);
      if Candidate(rows[n], project) && (t < 0 || rows[n].sortOrder > rows[t].sortOrder) then n else t
  }

  /** `updateLatestForProject`. */
  function UpdatedLatest(rows: seq<Release>, project: nat): seq<Release> {
    seq(|rows|, i requires 0 <= i < |rows| =>
      if rows[i].project == project then rows[i].(latest := i == TopReleased(rows, project)) else rows[i])
  }

  /** The first released row of a listing, or -1. */
  function FirstReleased(listing: seq<Release>): (i: int)
    ensures -1 <= i < |listing|
    ensures i >= 0 ==> listing[i].status == Released
    ensures forall j | 0 <= j < (if i < 0 then |listing| else i) :: listing[j].status != Released
  {
    if listing == [] then -1
    else
      var n := |listing| - 1;
      var i := FirstReleased(listing[..n]);
      if i >= 0 then i else if listing[n].status == Released then n else -1
  }

  /** `getReleases`: the project's rows by descending sort order. */
  function Listing(rows: seq<Release>, project: nat): seq<Release> {
    SortBy(BY_SORT_ORDER_DESC, OfProject(rows, project))
  }

  lemma ListingHas(rows: seq<Release>, project: nat, y: Release)
    ensures y in Listing(rows, project) <==> y in rows && y.project == project
  {
    OfProjectHas(rows, project, y);
    SortHas(BY_SORT_ORDER_DESC, OfProject(rows, project), y);
  }

  /** What `updateLatestForProject` leaves: in the project exactly one row is flagged if any is released,
      and none otherwise; a flagged row is released and no released one is sorted above it; nothing else
      changes. */
  lemma LatestFlags(rows: seq<Release>, project: nat)
    ensures var updated := UpdatedLatest(rows, project);
            && |updated| == |rows|
            && (forall i | 0 <= i < |rows| :: updated[i].(latest := rows[i].latest) == rows[i])
            && (forall i | 0 <= i < |rows| && rows[i].project != project :: updated[i] == rows[i])
            && (forall i | 0 <= i < |rows| && rows[i].project == project && updated[i].latest ::
                  rows[i].status == Released && forall j | 0 <= j < |rows| && Candidate(rows[j], project) ::
                    rows[j].sortOrder <= rows[i].sortOrder && (updated[j].latest ==> j == i))
            && ((exists i | 0 <= i < |rows| :: Candidate(rows[i], project)) ==>
                  exists i | 0 <= i < |rows| :: rows[i].project == project && updated[i].latest)
  {
    var t, updated := TopReleased(rows, project), UpdatedLatest(rows, project);
    if t >= 0 {
      assert updated[t].latest;
    }
  }

  /** When the project has a released row with a valid version, `updateLatestForProject` flags
      exactly one row of the project, no released row has a later version, and it is the row the
      release event reports as the latest. */
  lemma LatestIsMaximal(parse: Parser, rows: seq<Release>, project: nat, w: nat)
    requires Faithful(parse, rows) && w < |rows| && Candidate(rows[w], project) && ValidVersion(parse, rows[w])
    ensures var t, updated, listing := TopReleased(rows, project), UpdatedLatest(rows, project), Listing(rows, project);
            && t >= 0 && ValidVersion(parse, rows[t])
            && (forall i | 0 <= i < |rows| && rows[i].project == project :: updated[i].latest <==> i == t)
            && (forall i | 0 <= i < |rows| && rows[i].project != project :: updated[i] == rows[i])
            && (forall i | 0 <= i < |rows| && Candidate(rows[i], project) :: !Precedes(parse, rows[t], rows[i]))
            && FirstReleased(listing) >= 0 && listing[FirstReleased(listing)] == rows[t]
  {
    var t, listing := TopReleased(rows, project), Listing(rows, project);
    assert rows[w].sortOrder <= rows[t].sortOrder;
    forall i | 0 <= i < |rows| && Candidate(rows[i], project) ensures !Precedes(parse, rows[t], rows[i]) {
      if i != t {
        assert PairFaithful(parse, rows[if i < t then i else t], rows[if i < t then t else i]);
      } else {
        var v := parse(rows[t].version);
        assert v.Some? ==> Compare(v.value, v.value) == 0 by {
          if v.Some? { CompareLaws(v.value, v.value, v.value); }
        }
      }
    }
    ListingHas(rows, project, rows[t]);
    var at :| 0 <= at < |listing| && listing[at] == rows[t];
    var k := FirstReleased(listing);
    assert 0 <= k <= at;
    ListingHas(rows, project, listing[k]);
    SortOrders(BY_SORT_ORDER_DESC, BY_SORT_ORDER_DESC, OfProject(rows, project));
    assert k < at ==> BY_SORT_ORDER_DESC(listing[k], listing[at]);
    var j :| 0 <= j < |rows| && rows[j] == listing[k];
    assert rows[j].sortOrder == rows[t].sortOrder;
  }

  // ---------------------------------------------------------------------------------------
  // The table operations, step by step
  // ---------------------------------------------------------------------------------------

  class ReleaseTable {
    const parse: Parser
    var rows: seq<Release>

    constructor (parse: Parser)
      ensures this.parse == parse && rows == []
    {
      this.parse := parse;
      rows := [];
    }

    /** Saving a new release, with the subscriber's `afterInsert`. */
    method InsertRelease(id: nat, project: nat, version: string, status: Status)
      modifies this
      ensures rows == Inserted(parse, old(rows), id, project, version, status)
    {
      var at := |rows|;
      rows := rows + [Release(id, project, version, status, 0, false)];
      if parse(version).None? {
        return;
      }
      var semverReleases := VersionOrder(parse, rows, project);
      var currentIndex := FindVersion(semverReleases, version);
      var newSortOrder := if currentIndex > 0 then semverReleases[currentIndex - 1].sortOrder + 1 else 1;
      ShiftFrom(newSortOrder);
      rows := rows[at := rows[at].(sortOrder := newSortOrder)];
    }

    /** Moving all sort orders from a given one on up by one, in all projects. */
    method ShiftFrom(from: nat)
      modifies this
      ensures rows == Shifted(old(rows), from)
    {
      for i := 0 to |rows|
        invariant |rows| == |old(rows)|
        invariant forall j | 0 <= j < |rows| :: rows[j] == if j < i then Shifted(old(rows), from)[j] else old(rows)[j]
      {
        if rows[i].sortOrder >= from {
          rows := rows[i := rows[i].(sortOrder := rows[i].sortOrder + 1)];
        }
      }
    }

    method UpdateLatestForProject(project: nat)
      modifies this
      ensures rows == UpdatedLatest(old(rows), project)
    {
      var top := TopReleased(rows, project);
      for i := 0 to |rows|
        invariant |rows| == |old(rows)|
        invariant forall j | 0 <= j < |rows| ::
                    rows[j] == if j < i then UpdatedLatest(old(rows), project)[j] else old(rows)[j]
      {
        if rows[i].project == project {
          rows := rows[i := rows[i].(latest := i == top)];
        }
      }
    }

    /** The rows a release event reports: the first released one, and the first draft or in-review
        one listed before it. */
    method GetLatestAndUpcomingReleases(project: nat) returns (latest: Option<Release>, upcoming: Option<Release>)
      ensures var listing := Listing(rows, project);
              var k := FirstReleased(listing);
              && latest == (if k >= 0 then Some(listing[k]) else None)
              && (upcoming.Some? <==> exists j | 0 <= j < (if k < 0 then |listing| else k) ::
                  listing[j].status in {Draft, InReview})
              && (upcoming.Some? ==> exists j | 0 <= j < (if k < 0 then |listing| else k) ::
                    && listing[j] == upcoming.value && listing[j].status in {Draft, InReview}
                    && forall i | 0 <= i < j :: listing[i].status !in {Draft, InReview})
    {
      var listing := Listing(rows, project);
      latest, upcoming := None, None;
      var i := 0;
      while i < |listing|
        invariant 0 <= i <= |listing| && latest.None?
        invariant forall j | 0 <= j < i :: listing[j].status != Released
        invariant upcoming.Some? <==> exists j | 0 <= j < i :: listing[j].status in {Draft, InReview}
        invariant upcoming.Some? ==> exists j | 0 <= j < i ::
                    && listing[j] == upcoming.value && listing[j].status in {Draft, InReview}
                    && forall m | 0 <= m < j :: listing[m].status !in {Draft, InReview}
      {
        if (listing[i].status == Draft || listing[i].status == InReview) && upcoming.None? {
          upcoming := Some(listing[i]);
        } else if listing[i].status == Released {
          latest := Some(listing[i]);
          assert FirstReleased(listing) == i;
          return;
        }
        i := i + 1;
      }
    }
  }
}
