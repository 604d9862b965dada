/** The semantic version calculator and what it guarantees over whole publication histories. */
module Versioning {
  import opened Options
  import opened Text
  import opened Tree
  import opened SemanticVersion
  import opened ConfigModel

  /** Precedence of versions without pre-release identifiers. */
  predicate Before(a: Version, b: Version): (r: bool)
    ensures r <==>
            || a.major < b.major
            || (a.major == b.major && (a.minor < b.minor || (a.minor == b.minor && a.patch < b.patch)))
  {
    Compare(SemVer(a.major, a.minor, a.patch, []), SemVer(b.major, b.minor, b.patch, [])) < 0
  }

  /** JSON text of a value, up to the order of keys. */
  datatype Rendering = Scalar(json: string) | Object(fields: map<string, Rendering>)

  function Rendered(v: Value): Rendering {
    match v
    case Null => Scalar("null")
    case Str(s) => Scalar(Quoted(s))
    case Leaf(json, _) => Scalar(json)
    case Obj(fields) => Object(map k | k in fields :: Rendered(fields[k]))
  }

  /** Group name to parsed content, a later group of the same name replacing an earlier one. */
  function Contents(groups: seq<Group>): map<string, Fields> {
    if groups == [] then map[]
    else
      var n := |groups| - 1;
      Contents(groups[..n])[groups[n].name := groups[n].content]
  }

  /** A group that is new or lost a top-level key. */
  predicate BreaksGroup(prev: map<string, Fields>, draft: map<string, Fields>, name: string)
    requires name in draft
  {
    name !in prev || !(prev[name].Keys <= draft[name].Keys)
  }

  /** A kept group with a new or changed top-level key. */
  predicate ExtendsGroup(prev: map<string, Fields>, draft: map<string, Fields>, name: string)
    requires name in draft
  {
    name in prev && exists k | k in draft[name].Keys :: ChangedKey(prev[name], draft[name], k)
  }

  predicate ChangedKey(prev: Fields, draft: Fields, key: string)
    requires key in draft
  {
    key !in prev || Rendered(prev[key]) != Rendered(draft[key])
  }

  predicate MajorChange(prev: map<string, Fields>, draft: map<string, Fields>) {
    || (exists n | n in draft.Keys :: BreaksGroup(prev, draft, n))
    || (exists n | n in prev.Keys :: n !in draft.Keys)
  }

  predicate MinorChange(prev: map<string, Fields>, draft: map<string, Fields>) {
    exists n | n in draft.Keys :: ExtendsGroup(prev, draft, n)
  }

  function Bump(v: Version, major: bool, minor: bool): Version {
    if major then Version(v.major + 1, 0, 0)
    else if minor then Version(v.major, v.minor + 1, 0)
    else Version(v.major, v.minor, v.patch + 1)
  }

  /** `computeNextSemVer`; `prev` is empty when there is no previous active revision. */
  function NextVersion(prev: seq<Group>, draft: seq<Group>, prevVersion: Option<Version>): Version {
    if prev == [] then INITIAL
    else
      Bump(if prevVersion.Some? then prevVersion.value else Version(0, 0, 0),
           MajorChange(Contents(prev), Contents(draft)), MinorChange(Contents(prev), Contents(draft)))
  }

  /** The map-filling loop. */
  method ContentsOf(groups: seq<Group>) returns (contents: map<string, Fields>)
    ensures contents == Contents(groups)
  {
    contents := map[];
    for i := 0 to |groups|
      invariant contents == Contents(groups[..i])
    {
      contents := contents[groups[i].name := groups[i].content];
      assert groups[..i + 1][..i] == groups[..i];
    }
    assert groups[..|groups|] == groups;
  }

  /** The two key loops for one kept group. */
  method CompareGroup(prevParsed: Fields, draftParsed: Fields) returns (lostKey: bool, changedKey: bool)
    ensures lostKey <==> !(prevParsed.Keys <= draftParsed.Keys)
    ensures changedKey <==> exists k | k in draftParsed.Keys :: ChangedKey(prevParsed, draftParsed, k)
  {
    lostKey, changedKey := false, false;
    var todo := draftParsed.Keys;
    while todo != {}
      invariant todo <= draftParsed.Keys
      invariant changedKey <==> exists k | k in draftParsed.Keys && k !in todo :: ChangedKey(prevParsed, draftParsed, k)
      decreases todo
    {
      var key :| key in todo;
      if key !in prevParsed || Rendered(prevParsed[key]) != Rendered(draftParsed[key]) {
        assert ChangedKey(prevParsed, draftParsed, key);
        changedKey := true;
      }
      todo := todo - {key};
    }
    todo := prevParsed.Keys;
    while todo != {}
      invariant todo <= prevParsed.Keys
      invariant lostKey <==> exists k | k in prevParsed.Keys && k !in todo :: k !in draftParsed.Keys
      decreases todo
    {
      var key :| key in todo;
      lostKey := lostKey || key !in draftParsed;
      todo := todo - {key};
    }
  }

  method ComputeNextSemVer(prevGroups: seq<Group>, draftGroups: seq<Group>,
                           prevSemVer: Option<Version>) returns (next: Version)
    ensures next == NextVersion(prevGroups, draftGroups, prevSemVer)
  {
    if |prevGroups| == 0 {
      return INITIAL;
    }
    var version := if prevSemVer.Some? then prevSemVer.value else Version(0, 0, 0);
    var prevMap := ContentsOf(prevGroups);
    var draftMap := ContentsOf(draftGroups);
    var hasMajorChange, hasMinorChange := false, false;
    var todo := draftMap.Keys;
    while todo != {}
      invariant todo <= draftMap.Keys
      invariant hasMajorChange <==> exists n | n in draftMap.Keys && n !in todo :: BreaksGroup(prevMap, draftMap, n)
      invariant hasMinorChange <==> exists n | n in draftMap.Keys && n !in todo :: ExtendsGroup(prevMap, draftMap, n)
      decreases todo
    {
      var name :| name in todo;
      if name !in prevMap {
        assert BreaksGroup(prevMap, draftMap, name);
        hasMajorChange := true;
      } else {
        var lostKey, changedKey := CompareGroup(prevMap[name], draftMap[name]);
        assert lostKey <==> BreaksGroup(prevMap, draftMap, name);
        assert changedKey <==> ExtendsGroup(prevMap, draftMap, name);
        hasMajorChange := hasMajorChange || lostKey;
        hasMinorChange := hasMinorChange || changedKey;
      }
      todo := todo - {name};
    }
    var dropped := false;
    todo := prevMap.Keys;
    while todo != {}
      invariant todo <= prevMap.Keys
      invariant dropped <==> exists n | n in prevMap.Keys && n !in todo :: n !in draftMap.Keys
      decreases todo
    {
      var name :| name in todo;
      dropped := dropped || name !in draftMap;
      todo := todo - {name};
    }
    hasMajorChange := hasMajorChange || dropped;
    next := Bump(version, hasMajorChange, hasMinorChange);
  }

  // ---------------------------------------------------------------------------------------
  // Publication histories
  // ---------------------------------------------------------------------------------------

  /** A project's published revisions in order: the first is 1.0.0 and each later version is
      computed from its predecessor. */
  ghost predicate Linked(h: seq<Revision>) {
    && (forall i | 0 <= i < |h| :: h[i].semVer.Some?)
    && (|h| > 0 ==> h[0].semVer.value == INITIAL)
    && (forall i | 0 <= i < |h| - 1 :: LinkedAt(h, i))
  }

  ghost predicate LinkedAt(h: seq<Revision>, i: nat)
    requires i < |h| - 1
  {
    h[i + 1].semVer == Some(NextVersion(h[i].groups, h[i + 1].groups, h[i].semVer))
  }

  ghost predicate StrictlyIncreasing(h: seq<Revision>)
    requires forall i | 0 <= i < |h| :: h[i].semVer.Some?
  {
    forall i, j | 0 <= i < j < |h| :: Before(h[i].semVer.value, h[j].semVer.value)
  }

  /** Every revision but the last has a group. */
  ghost predicate NonEmptyBeforeLast(h: seq<Revision>) {
    forall i | 0 <= i < |h| - 1 :: h[i].groups != []
  }

  /** One computed version is later than the previous exactly when the previous revision has
      groups, or its version is below 1.0.0. */
  lemma NextIsLater(prev: seq<Group>, draft: seq<Group>, v: Version)
    ensures Before(v, NextVersion(prev, draft, Some(v))) <==> prev != [] || Before(v, INITIAL)
  {
  }

  lemma {:induction false} VersionsFromInitial(h: seq<Revision>, i: nat)
    requires Linked(h) && i < |h|
    ensures !Before(h[i].semVer.value, INITIAL)
  {
    if i > 0 {
      VersionsFromInitial(h, i - 1);
      assert LinkedAt(h, i - 1);
    }
  }

  /** Along non-empty revisions versions increase. */
  lemma {:induction false} IncreasingBetween(h: seq<Revision>, i: nat, j: nat)
    requires Linked(h) && NonEmptyBeforeLast(h) && i < j < |h|
    ensures Before(h[i].semVer.value, h[j].semVer.value)
  {
    assert LinkedAt(h, j - 1);
    NextIsLater(h[j - 1].groups, h[j].groups, h[j - 1].semVer.value);
    if i < j - 1 {
      IncreasingBetween(h, i, j - 1);
    }
  }

  /** Published versions strictly increase exactly when no revision but perhaps the last was
      published empty. */
  lemma VersionsIncreaseIff(h: seq<Revision>)
    requires Linked(h)
    ensures StrictlyIncreasing(h) <==> NonEmptyBeforeLast(h)
  {
    if NonEmptyBeforeLast(h) {
      forall i, j | 0 <= i < j < |h| ensures Before(h[i].semVer.value, h[j].semVer.value) {
        IncreasingBetween(h, i, j);
      }
    } else {
      var i :| 0 <= i < |h| - 1 && h[i].groups == [];
      assert LinkedAt(h, i);
      VersionsFromInitial(h, i);
      assert !Before(h[i].semVer.value, h[i + 1].semVer.value);
    }
  }

  /** Group names kept, and no group lost a top-level key. */
  ghost predicate Compatible(a: map<string, Fields>, b: map<string, Fields>) {
    a.Keys == b.Keys && forall n | n in a :: a[n].Keys <= b[n].Keys
  }

  lemma NoMajorChange(a: map<string, Fields>, b: map<string, Fields>)
    ensures !MajorChange(a, b) <==> Compatible(a, b)
  {
    if !MajorChange(a, b) {
      forall n | n in a ensures n in b && a[n].Keys <= b[n].Keys {
        assert n in a.Keys && n in b.Keys;
        assert !BreaksGroup(a, b, n);
      }
      forall n | n in b ensures n in a {
        assert n in b.Keys;
        assert !BreaksGroup(a, b, n);
      }
    }
  }

  /** The same groups with the same keys, whose values have the same JSON text. */
  ghost predicate SameText(a: map<string, Fields>, b: map<string, Fields>) {
    a.Keys == b.Keys
    && forall n | n in a ::
         a[n].Keys == b[n].Keys && forall k | k in a[n] :: Rendered(a[n][k]) == Rendered(b[n][k])
  }

  lemma NoChange(a: map<string, Fields>, b: map<string, Fields>)
    ensures !MajorChange(a, b) && !MinorChange(a, b) <==> SameText(a, b)
  {
    hide Rendered;
    NoMajorChange(a, b);
    if !MajorChange(a, b) && !MinorChange(a, b) {
      forall n | n in a
        ensures a[n].Keys == b[n].Keys && forall k | k in a[n] :: Rendered(a[n][k]) == Rendered(b[n][k])
      {
        assert n in b.Keys && !ExtendsGroup(a, b, n);
        forall k | k in b[n] ensures k in a[n] && Rendered(a[n][k]) == Rendered(b[n][k]) {
          assert !ChangedKey(a[n], b[n], k);
        }
      }
    }
  }

  /** What the version `next` after `v` tells about the contents published under the two: a new major
      number that they are not compatible, a new minor number that they are but some text is new, and
      a new patch number that all text is the same. */
  ghost predicate Tells(v: Version, next: Version, a: map<string, Fields>, b: map<string, Fields>) {
    && (next == Version(v.major + 1, 0, 0) <==> !Compatible(a, b))
    && (next == Version(v.major, v.minor + 1, 0) <==> Compatible(a, b) && !SameText(a, b))
    && (next == Version(v.major, v.minor, v.patch + 1) <==> SameText(a, b))
  }

  /** The calculator after a revision with groups. A revision without a version counts as 0.0.0. */
  lemma NextVersionIff(prev: seq<Group>, draft: seq<Group>, prevVersion: Option<Version>)
    requires prev != []
    ensures Tells(if prevVersion.Some? then prevVersion.value else Version(0, 0, 0),
                  NextVersion(prev, draft, prevVersion), Contents(prev), Contents(draft))
  {
    hide Contents, MajorChange, MinorChange, SameText, Compatible;
    NoMajorChange(Contents(prev), Contents(draft));
    NoChange(Contents(prev), Contents(draft));
  }

  ghost predicate FollowsInHistory(h: seq<Revision>, i: nat)
    requires i < |h| - 1
  {
    var a, b := h[i], h[i + 1];
    if a.groups == [] then b.semVer == Some(INITIAL)
    else
      a.semVer.Some? && b.semVer.Some?
      && Tells(a.semVer.value, b.semVer.value, Contents(a.groups), Contents(b.groups))
  }

  /** In a history each version after a revision with groups tells exactly how the contents changed,
      and the version after an empty one is the first again. */
  lemma ConsecutiveVersions(h: seq<Revision>, i: nat)
    requires Linked(h) && i < |h| - 1
    ensures FollowsInHistory(h, i)
  {
    hide Contents, MajorChange, MinorChange, SameText, Compatible;
    assert LinkedAt(h, i);
    if h[i].groups != [] {
      NextVersionIff(h[i].groups, h[i + 1].groups, h[i].semVer);
    }
  }

  /** Two strings have the same JSON text only if they are equal, and a string never has the text of
      `null`, of a number, of a boolean or of an array, which do not begin with a quote. */
  lemma StringText(s: string, t: string, v: Value)
    ensures Rendered(Str(s)) == Rendered(Str(t)) <==> s == t
    ensures v == Null || v.Obj? || (v.Leaf? && (v.json == "" || v.json[0] != '\"')) ==> Rendered(Str(s)) != Rendered(v)
  {
    hide Escaped;
    if Quoted(s) == Quoted(t) {
      QuotedInjective(s, t);
    }
    assert Quoted(s)[0] == '\"' && "null"[0] == 'n';
  }

  /** What a version promises about its history: with the same major number the group names are
      the same and no group lost a top-level key; with the same major and minor number the
      contents have the same JSON text. */
  lemma {:induction false} VersionsMeanCompatibility(h: seq<Revision>, i: nat, j: nat)
    requires Linked(h) && NonEmptyBeforeLast(h) && i <= j < |h|
    ensures var a, b := h[i].semVer.value, h[j].semVer.value;
            && (a.major == b.major ==> Compatible(Contents(h[i].groups), Contents(h[j].groups)))
            && (a.major == b.major && a.minor == b.minor ==> SameText(Contents(h[i].groups), Contents(h[j].groups)))
  {
    hide Rendered, Contents;
    if i < j {
      VersionsMeanCompatibility(h, i, j - 1);
      if i < j - 1 { IncreasingBetween(h, i, j - 1); }
      IncreasingBetween(h, j - 1, j);
      assert LinkedAt(h, j - 1);
      var p, q := Contents(h[j - 1].groups), Contents(h[j].groups);
      NoMajorChange(p, q);
      NoChange(p, q);
    }
  }

  /** The exception is real: after an empty revision the next one repeats version 1.0.0, so the
      history is linked but does not increase. */
  lemma EmptyPublishRepeats(g: Group)
    ensures var h := [Revision(1, Archived, Some(INITIAL), []), Revision(2, Active, Some(INITIAL), [g])];
            Linked(h) && !StrictlyIncreasing(h)
  {
    var h := [Revision(1, Archived, Some(INITIAL), []), Revision(2, Active, Some(INITIAL), [g])];
    assert !Before(h[0].semVer.value, h[1].semVer.value);
  }
}
