/** The string operations the services rely on: decimal rendering, splitting at dots, the dot
    replacement of Vault secret names, and the last index of a character. */
module Text {

  /** Decimal rendering. */
  function Dec(n: nat): string {
    if n < 10 then [Digit(n)] else Dec(n / 10) + [Digit(n % 10)]
  }

  function Digit(d: nat): char
    requires d < 10
  {
    '0' + d as char
  }

  lemma {:induction false} DecIsDigits(n: nat)
    ensures |Dec(n)| > 0
    ensures forall i :: 0 <= i < |Dec(n)| ==> '0' <= Dec(n)[i] <= '9'
  {
    if n >= 10 {
      DecIsDigits(n / 10);
    }
  }

  /** Different numbers have different decimal renderings. */
  lemma {:induction false} DecInjective(a: nat, b: nat)
    requires Dec(a) == Dec(b)
    ensures a == b
  {
    DecIsDigits(a / 10);
    DecIsDigits(b / 10);
    if a >= 10 && b >= 10 {
      var da, db := Dec(a), Dec(b);
      assert da[..|da| - 1] == Dec(a / 10) && db[..|db| - 1] == Dec(b / 10);
      assert da[|da| - 1] == Digit(a % 10) && db[|db| - 1] == Digit(b % 10);
      DecInjective(a / 10, b / 10);
    } else {
      assert a < 10 ==> |Dec(a)| == 1;
      assert b < 10 ==> |Dec(b)| == 1;
      assert Dec(a)[|Dec(a)| - 1] == Digit(a % 10) && Dec(b)[|Dec(b)| - 1] == Digit(b % 10);
    }
  }

  /** Every dot replaced by two underscores. */
  function ReplaceDots(s: string): string {
    if s == [] then [] else (if s[0] == '.' then "__" else [s[0]]) + ReplaceDots(s[1..])
  }

  lemma {:induction false} ReplaceDotsKeeps(s: string, c: char)
    requires c != '.' && c != '_'
    ensures c in ReplaceDots(s) <==> c in s
  {
    if s != [] {
      ReplaceDotsKeeps(s[1..], c);
      assert s == [s[0]] + s[1..];
    }
  }

  /** Splitting at dots: never empty, and the empty string splits to one empty part. */
  function Split(s: string): (parts: seq<string>)
    ensures |parts| >= 1
  {
    if s == [] then [""]
    else
      var rest := Split(s[1..]);
      if s[0] == '.' then [""] + rest else [[s[0]] + rest[0]] + rest[1..]
  }

  /** Joining with dots. */
  function Join(parts: seq<string>): string {
    if parts == [] then ""
    else if |parts| == 1 then parts[0]
    else parts[0] + "." + Join(parts[1..])
  }

  /** Splitting a key path at its dots loses nothing. */
  lemma {:induction false} JoinSplit(s: string)
    ensures Join(Split(s)) == s
  {
    if s != [] {
      JoinSplit(s[1..]);
      var rest := Split(s[1..]);
      if s[0] == '.' {
        assert ([""] + rest)[1..] == rest;
      } else {
        var parts := [[s[0]] + rest[0]] + rest[1..];
        assert parts[1..] == rest[1..];
        assert Join(parts) == [s[0]] + Join(rest);
      }
      assert s == [s[0]] + s[1..];
    }
  }

  /** A string as JSON text. */
  function Quoted(s: string): string {
    "\"" + Escaped(s) + "\""
  }

  function Escaped(s: string): string {
    if s == [] then [] else EscapedChar(s[0]) + Escaped(s[1..])
  }

  function EscapedChar(c: char): (r: string)
    ensures r != []
  {
    var code := c as int;
    if c == '\"' || c == '\\' then ['\\', c]
    else if code == 8 then "\\b"
    else if code == 9 then "\\t"
    else if code == 10 then "\\n"
    else if code == 12 then "\\f"
    else if code == 13 then "\\r"
    else if code < 32 then "\\u00" + [HexDigit(code / 16), HexDigit(code % 16)]
    else [c]
  }

  function HexDigit(d: nat): char
    requires d < 16
  {
    if d < 10 then Digit(d) else 'a' + (d - 10) as char
  }

  /** An escaped character tells which character it was, and where it ends. */
  lemma EscapedCharInjective(c: char, d: char, x: string, y: string)
    requires EscapedChar(c) + x == EscapedChar(d) + y
    ensures c == d && x == y
  {
    var a, b := EscapedChar(c), EscapedChar(d);
    assert (a + x)[0] == a[0] && (b + y)[0] == b[0];
    assert |a| > 1 ==> (a + x)[1] == a[1];
    assert |b| > 1 ==> (b + y)[1] == b[1];
    assert |a| == 6 ==> (a + x)[4] == a[4] && (a + x)[5] == a[5];
    assert |b| == 6 ==> (b + y)[4] == b[4] && (b + y)[5] == b[5];
    assert a == b;
    assert (a + x)[|a|..] == x && (b + y)[|b|..] == y;
  }

  lemma {:induction false} EscapedInjective(s: string, t: string)
    requires Escaped(s) == Escaped(t)
    ensures s == t
  {
    hide EscapedChar;
    if s != [] && t != [] {
      EscapedCharInjective(s[0], t[0], Escaped(s[1..]), Escaped(t[1..]));
      EscapedInjective(s[1..], t[1..]);
      assert s == [s[0]] + s[1..] && t == [t[0]] + t[1..];
    }
  }

  /** Different strings have different JSON texts. */
  lemma QuotedInjective(s: string, t: string)
    requires Quoted(s) == Quoted(t)
    ensures s == t
  {
    hide Escaped;
    assert Quoted(s)[1..|Quoted(s)| - 1] == Escaped(s) && Quoted(t)[1..|Quoted(t)| - 1] == Escaped(t);
    EscapedInjective(s, t);
  }

  /** The part of a string before an index, and from an index on. */
  function Upto(s: string, i: nat): (r: string)
    requires i <= |s|
  {
    if i == 0 then "" else Upto(s, i - 1) + [s[i - 1]]
  }

  function From(s: string, i: nat): (r: string)
    requires i <= |s|
    decreases |s| - i
  {
    if i == |s| then "" else [s[i]] + From(s, i + 1)
  }

  lemma {:induction false} UptoIs(s: string, i: nat)
    requires i <= |s|
    ensures Upto(s, i) == s[..i]
  {
    if i > 0 {
      UptoIs(s, i - 1);
    }
  }

  lemma {:induction false} FromIs(s: string, i: nat)
    requires i <= |s|
    ensures From(s, i) == s[i..]
    decreases |s| - i
  {
    if i < |s| {
      FromIs(s, i + 1);
    }
  }

  /** The last index of a character, or -1. */
  function LastIndexOf(s: string, c: char): (i: int)
    ensures -1 <= i < |s|
    ensures i >= 0 ==> s[i] == c
    ensures forall j :: i < j < |s| ==> s[j] != c
  {
    if s == [] then -1
    else if s[|s| - 1] == c then |s| - 1
    else LastIndexOf(s[..|s| - 1], c)
  }

  lemma LastIndexOfConcat(a: string, c: char, b: string)
    requires c !in b
    ensures LastIndexOf(a + [c] + b, c) == |a|
  {
    var s := a + [c] + b;
    var i := LastIndexOf(s, c);
    assert s[|a|] == c;
  }

  lemma ConcatParts(a: string, c: char, b: string)
    ensures var s := a + [c] + b;
            |s| == |a| + 1 + |b| && s[..|a|] == a && s[|a|] == c && s[|a| + 1..] == b
  {
  }

  /** Two decorated numbers agree only if the numbers and the rest agree. */
  lemma DecPrefixInjective(a: nat, b: nat, x: string, y: string, c: char)
    requires !('0' <= c <= '9')
    requires Dec(a) + [c] + x == Dec(b) + [c] + y
    ensures a == b && x == y
  {
    DecIsDigits(a);
    DecIsDigits(b);
    var s, t := Dec(a) + [c] + x, Dec(b) + [c] + y;
    assert s[|Dec(a)|] == c && t[|Dec(b)|] == c;
    assert forall i :: 0 <= i < |Dec(a)| ==> s[i] == Dec(a)[i];
    assert forall i :: 0 <= i < |Dec(b)| ==> t[i] == Dec(b)[i];
    assert |Dec(a)| == |Dec(b)|;
    assert s[..|Dec(a)|] == Dec(a) && t[..|Dec(b)|] == Dec(b);
    assert s[|Dec(a)| + 1..] == x && t[|Dec(b)| + 1..] == y;
    DecInjective(a, b);
  }
}
