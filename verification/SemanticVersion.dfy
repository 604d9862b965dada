/** Precedence of semantic versions, section 11 of Semantic Versioning 2.0.0. Build metadata plays
    no part in it and is left out of the parsed form. */
module SemanticVersion {

  datatype Identifier = Numeric(n: nat) | Alphanumeric(s: string)

  datatype SemVer = SemVer(major: nat, minor: nat, patch: nat, pre: seq<Identifier>)

  /** -1, 0 or 1. */
  type Sign = s: int | -1 <= s <= 1

  function CompareNat(a: nat, b: nat): Sign {
    if a < b then -1 else if a == b then 0 else 1
  }

  /** Lexical order by character code. */
  function CompareText(a: string, b: string): Sign
    decreases |a|
  {
    if a == [] then (if b == [] then 0 else -1)
    else if b == [] then 1
    else if a[0] != b[0] then (if a[0] < b[0] then -1 else 1)
    else CompareText(a[1..], b[1..])
  }

  function CompareIdentifier(a: Identifier, b: Identifier): Sign {
    match (a, b)
    case (Numeric(m), Numeric(n)) => CompareNat(m, n)
    case (Numeric(_), Alphanumeric(_)) => -1
    case (Alphanumeric(_), Numeric(_)) => 1
    case (Alphanumeric(s), Alphanumeric(t)) => CompareText(s, t)
  }

  function CompareFields(a: seq<Identifier>, b: seq<Identifier>): Sign
    decreases |a|
  {
    if a == [] then (if b == [] then 0 else -1)
    else if b == [] then 1
    else if CompareIdentifier(a[0], b[0]) != 0 then CompareIdentifier(a[0], b[0])
    else CompareFields(a[1..], b[1..])
  }

  /** A version without pre-release fields comes after one with them. */
  function ComparePre(a: seq<Identifier>, b: seq<Identifier>): Sign {
    if a == [] && b == [] then 0
    else if a == [] then 1
    else if b == [] then -1
    else CompareFields(a, b)
  }

  function Compare(a: SemVer, b: SemVer): Sign {
    if a.major != b.major then CompareNat(a.major, b.major)
    else if a.minor != b.minor then CompareNat(a.minor, b.minor)
    else if a.patch != b.patch then CompareNat(a.patch, b.patch)
    else ComparePre(a.pre, b.pre)
  }

  lemma {:induction false} CompareTextLaws(a: string, b: string, c: string)
    ensures CompareText(a, b) == 0 <==> a == b
    ensures CompareText(a, b) == -CompareText(b, a)
    ensures CompareText(a, b) < 0 && CompareText(b, c) < 0 ==> CompareText(a, c) < 0
    decreases |a|
  {
    if a != [] && b != [] {
      assert a == [a[0]] + a[1..] && b == [b[0]] + b[1..];
      CompareTextLaws(a[1..], b[1..], if c == [] then [] else c[1..]);
    }
  }

  lemma IdentifierLaws(a: Identifier, b: Identifier, c: Identifier)
    ensures CompareIdentifier(a, b) == 0 <==> a == b
    ensures CompareIdentifier(a, b) == -CompareIdentifier(b, a)
    ensures CompareIdentifier(a, b) < 0 && CompareIdentifier(b, c) < 0 ==> CompareIdentifier(a, c) < 0
  {
    var s, t := if a.Alphanumeric? then a.s else "", if b.Alphanumeric? then b.s else "";
    CompareTextLaws(s, t, if c.Alphanumeric? then c.s else "");
  }

  lemma {:induction false} FieldsLaws(a: seq<Identifier>, b: seq<Identifier>, c: seq<Identifier>)
    ensures CompareFields(a, b) == 0 <==> a == b
    ensures CompareFields(a, b) == -CompareFields(b, a)
    ensures CompareFields(a, b) < 0 && CompareFields(b, c) < 0 ==> CompareFields(a, c) < 0
    decreases |a|
  {
    hide CompareIdentifier;
    if a != [] && b != [] {
      assert a == [a[0]] + a[1..] && b == [b[0]] + b[1..];
      IdentifierLaws(a[0], b[0], if c == [] then a[0] else c[0]);
      if c != [] {
        IdentifierLaws(b[0], c[0], a[0]);
        IdentifierLaws(a[0], c[0], b[0]);
      }
      FieldsLaws(a[1..], b[1..], if c == [] then [] else c[1..]);
    }
  }

  /** Precedence is a strict total order. */
  lemma CompareLaws(a: SemVer, b: SemVer, c: SemVer)
    ensures Compare(a, b) == 0 <==> a == b
    ensures Compare(a, b) == -Compare(b, a)
    ensures Compare(a, b) < 0 && Compare(b, c) < 0 ==> Compare(a, c) < 0
  {
    FieldsLaws(a.pre, b.pre, c.pre);
  }

  // ---------------------------------------------------------------------------------------
  // The rules of section 11
  // ---------------------------------------------------------------------------------------

  /** A lesser element at the first difference, or a proper prefix. */
  ghost predicate BeforeBy<T>(less: (T, T) -> bool, a: seq<T>, b: seq<T>) {
    exists i :: 0 <= i <= |a| && i < |b| && a[..i] == b[..i] && (i == |a| || less(a[i], b[i]))
  }

  const BY_CODE: (char, char) -> bool := (x, y) => x < y

  /** Numeric identifiers by number, and below all others, which go by character code. */
  ghost predicate IdentifierBefore(a: Identifier, b: Identifier) {
    if b.Numeric? then a.Numeric? && a.n < b.n else a.Numeric? || BeforeBy(BY_CODE, a.s, b.s)
  }

  ghost function ByRank(): (Identifier, Identifier) -> bool {
    (a: Identifier, b: Identifier) => IdentifierBefore(a, b)
  }

  /** Major, minor and patch decide by number in this order; with all three equal a pre-release comes
      before the release and among pre-releases the identifiers decide. */
  ghost predicate LowerPrecedence(a: SemVer, b: SemVer) {
    if a.major != b.major then a.major < b.major
    else if a.minor != b.minor then a.minor < b.minor
    else if a.patch != b.patch then a.patch < b.patch
    else a.pre != [] && (b.pre == [] || BeforeBy(ByRank(), a.pre, b.pre))
  }

  lemma BeforeHead<T>(less: (T, T) -> bool, a: seq<T>, b: seq<T>)
    requires a == [] || b == [] || a[0] != b[0]
    ensures BeforeBy(less, a, b) <==> b != [] && (a == [] || less(a[0], b[0]))
  {
    if b != [] {
      assert a[..0] == b[..0];
      assert forall i | 0 < i <= |a| && i < |b| :: a[..i][0] == a[0] && b[..i][0] == b[0];
    }
  }

  lemma BeforeTail<T>(less: (T, T) -> bool, a: seq<T>, b: seq<T>)
    requires a != [] && b != [] && a[0] == b[0] && !less(a[0], b[0])
    ensures BeforeBy(less, a, b) <==> BeforeBy(less, a[1..], b[1..])
  {
    var s, t := a[1..], b[1..];
    assert a == [a[0]] + s && b == [b[0]] + t;
    if i :| 0 <= i <= |s| && i < |t| && s[..i] == t[..i] && (i == |s| || less(s[i], t[i])) {
      assert a[..i + 1] == [a[0]] + s[..i] && b[..i + 1] == [b[0]] + t[..i];
    }
    if i :| 0 <= i <= |a| && i < |b| && a[..i] == b[..i] && (i == |a| || less(a[i], b[i])) {
      assert i > 0 && s[..i - 1] == a[..i][1..] && t[..i - 1] == b[..i][1..];
    }
  }

  lemma {:induction false} TextBeforeIff(a: string, b: string)
    ensures CompareText(a, b) < 0 <==> BeforeBy(BY_CODE, a, b)
    decreases |a|
  {
    hide BeforeBy;
    if a != [] && b != [] && a[0] == b[0] {
      TextBeforeIff(a[1..], b[1..]);
      BeforeTail(BY_CODE, a, b);
    } else {
      BeforeHead(BY_CODE, a, b);
    }
  }

  lemma IdentifierBeforeIff(a: Identifier, b: Identifier)
    ensures CompareIdentifier(a, b) < 0 <==> IdentifierBefore(a, b)
  {
    hide CompareText, BeforeBy;
    if a.Alphanumeric? && b.Alphanumeric? { TextBeforeIff(a.s, b.s); }
  }

  lemma {:induction false} FieldsBeforeIff(a: seq<Identifier>, b: seq<Identifier>)
    ensures CompareFields(a, b) < 0 <==> BeforeBy(ByRank(), a, b)
    decreases |a|
  {
    hide CompareIdentifier, IdentifierBefore, BeforeBy;
    if a != [] && b != [] {
      IdentifierBeforeIff(a[0], b[0]);
      IdentifierLaws(a[0], b[0], a[0]);
    }
    if a != [] && b != [] && a[0] == b[0] {
      FieldsBeforeIff(a[1..], b[1..]);
      BeforeTail(ByRank(), a, b);
    } else {
      BeforeHead(ByRank(), a, b);
    }
  }

  /** The comparison follows these rules. */
  lemma PrecedenceIff(a: SemVer, b: SemVer)
    ensures Compare(a, b) < 0 <==> LowerPrecedence(a, b)
  {
    hide CompareFields, BeforeBy;
    FieldsBeforeIff(a.pre, b.pre);
  }
}
