/** Parsed YAML documents and the dot-path helpers, on values. `TreeInPlace` proves that the
    loops which update nested objects in place compute these functions. */
module Tree {
  import opened Text

  /** A parsed YAML value. `Leaf` is a number, boolean or array, kept opaque: `json` is its
      `JSON.stringify` text and `text` its `String()` text. */
  datatype Value = Null | Str(s: string) | Leaf(json: string, text: string) | Obj(fields: Fields)
  type Fields = map<string, Value>
  type Path = seq<string>

  /** The text a value is converted to. */
  function ToText(v: Value): string {
    match v
    case Null => "null"
    case Str(s) => s
    case Leaf(_, text) => text
    case Obj(_) => "[object Object]"
  }

  /** The value at a path, reading absent and null alike as `Null`. */
  function Get(v: Value, p: Path): Value {
    if p == [] then v
    else if v.Obj? && p[0] in v.fields then Get(v.fields[p[0]], p[1..])
    else Null
  }

  /** Assignment at a path; anything that is not an object on the way is replaced by `{}`. */
  function Set(v: Value, p: Path, x: Value): (r: Value)
    ensures p != [] ==> r.Obj?
    decreases |p|
  {
    if p == [] then x
    else
      var fields := if v.Obj? then v.fields else map[];
      var child := if p[0] in fields then fields[p[0]] else Null;
      Obj(fields[p[0] := Set(child, p[1..], x)])
  }

  /** `delete` at a path; a path that leaves the tree deletes nothing. */
  function Delete(v: Value, p: Path): (r: Value)
    requires p != []
    ensures v.Obj? ==> r.Obj?
    decreases |p|
  {
    if !v.Obj? then v
    else if |p| == 1 then Obj(v.fields - {p[0]})
    else if p[0] in v.fields then Obj(v.fields[p[0] := Delete(v.fields[p[0]], p[1..])])
    else v
  }

  /** The helpers as the service calls them, on a document and a dotted key path. */
  function GetByPath(t: Fields, key: string): Value {
    Get(Obj(t), Split(key))
  }

  function SetByPath(t: Fields, key: string, x: Value): Fields {
    Set(Obj(t), Split(key), x).fields
  }

  function DeleteByPath(t: Fields, key: string): Fields {
    Delete(Obj(t), Split(key)).fields
  }

  // ---------------------------------------------------------------------------------------
  // Reading back what was written
  // ---------------------------------------------------------------------------------------

  /** `p` is a prefix of `q` or the other way round. */
  predicate Related(p: Path, q: Path) {
    p <= q || q <= p
  }

  lemma {:induction false} GetSetSame(v: Value, p: Path, x: Value)
    ensures Get(Set(v, p, x), p) == x
    decreases |p|
  {
    if p != [] {
      var fields := if v.Obj? then v.fields else map[];
      GetSetSame(if p[0] in fields then fields[p[0]] else Null, p[1..], x);
    }
  }

  /** Writing a path, present or not, leaves every unrelated path alone. */
  lemma {:induction false} GetSetOther(v: Value, p: Path, x: Value, q: Path)
    requires !Related(p, q)
    ensures Get(Set(v, p, x), q) == Get(v, q)
    decreases |p|
  {
    if p[0] == q[0] {
      assert p == [p[0]] + p[1..] && q == [q[0]] + q[1..];
      var fields := if v.Obj? then v.fields else map[];
      GetSetOther(if p[0] in fields then fields[p[0]] else Null, p[1..], x, q[1..]);
    }
  }

  /** So does deleting at one. */
  lemma {:induction false} GetDeleteOther(v: Value, p: Path, q: Path)
    requires p != [] && !Related(p, q)
    ensures Get(Delete(v, p), q) == Get(v, q)
    decreases |p|
  {
    if |p| > 1 && v.Obj? && p[0] in v.fields && p[0] == q[0] {
      assert p == [p[0]] + p[1..] && q == [q[0]] + q[1..];
      GetDeleteOther(v.fields[p[0]], p[1..], q[1..]);
    } else {
      assert |p| == 1 ==> p == [p[0]] && q != [] && q == [q[0]] + q[1..] && p[0] != q[0];
    }
  }

  lemma {:induction false} GetDeleteSame(v: Value, p: Path)
    requires p != []
    ensures Get(Delete(v, p), p) == Null
    decreases |p|
  {
    if |p| > 1 && v.Obj? && p[0] in v.fields {
      GetDeleteSame(v.fields[p[0]], p[1..]);
    }
  }

  /** Below a value that is not an object there is nothing. */
  lemma {:induction false} GetBelow(v: Value, p: Path, q: Path)
    requires p < q && !Get(v, p).Obj?
    ensures Get(v, q) == Null
    decreases |p|
  {
    if p != [] {
      assert p[0] == q[0] && p[1..] < q[1..];
      if v.Obj? && p[0] in v.fields {
        GetBelow(v.fields[p[0]], p[1..], q[1..]);
      }
    }
  }

  lemma {:induction false} GetAbove(v: Value, p: Path, q: Path)
    requires p < q && Get(v, q) != Null
    ensures Get(v, p).Obj?
  {
    if !Get(v, p).Obj? {
      GetBelow(v, p, q);
    }
  }

  /** Replacing a scalar by a scalar is seen at that path and at no path that read a scalar. */
  lemma GetSetScalar(v: Value, p: Path, x: Value, q: Path)
    requires Get(v, p) != Null && !Get(v, p).Obj? && !x.Obj?
    requires !Get(v, q).Obj?
    ensures Get(Set(v, p, x), q) == if q == p then x else Get(v, q)
  {
    GetSetSame(v, p, x);
    if q == p {
    } else if p < q {
      GetBelow(v, p, q);
      GetBelow(Set(v, p, x), p, q);
    } else if q < p {
      GetAbove(v, q, p);
    } else {
      assert !Related(p, q);
      GetSetOther(v, p, x, q);
    }
  }

  lemma {:induction false} SetGet(v: Value, p: Path)
    requires Get(v, p) != Null
    ensures Set(v, p, Get(v, p)) == v
    decreases |p|
  {
    if p != [] {
      SetGet(v.fields[p[0]], p[1..]);
      assert v.fields == v.fields[p[0] := v.fields[p[0]]];
    }
  }

  /** Overwriting something present keeps the top-level keys. */
  lemma SetKeepsKeys(t: Fields, p: Path, x: Value)
    requires p != [] && Get(Obj(t), p) != Null
    ensures Set(Obj(t), p, x).fields.Keys == t.Keys
  {
  }

  // ---------------------------------------------------------------------------------------
  // Substitution: one tree is another with some positions overwritten
  // ---------------------------------------------------------------------------------------

  /** `c` is `t` with some non-null subtrees at paths in `at` overwritten by `f` of their path.
      `prefix` is the path of `c` and `t` in their documents. */
  ghost predicate Subst(c: Value, t: Value, prefix: Path, at: set<Path>, f: Path -> Value) {
    || c == t
    || (prefix in at && c == f(prefix) && t != Null)
    || (c.Obj? && t.Obj? && c.fields.Keys == t.fields.Keys &&
        forall k | k in c.fields :: Subst(c.fields[k], t.fields[k], prefix + [k], at, f))
  }

  lemma {:induction false} SubstGrow(c: Value, t: Value, prefix: Path, at: set<Path>, more: set<Path>, f: Path -> Value)
    requires Subst(c, t, prefix, at, f) && at <= more
    ensures Subst(c, t, prefix, more, f)
  {
    if c != t && !(prefix in at && c == f(prefix) && t != Null) {
      forall k | k in c.fields ensures Subst(c.fields[k], t.fields[k], prefix + [k], more, f) {
        SubstGrow(c.fields[k], t.fields[k], prefix + [k], at, more, f);
      }
    }
  }

  /** With nothing overwritten the trees are the same. */
  lemma {:induction false} SubstNone(c: Value, t: Value, prefix: Path, f: Path -> Value)
    requires Subst(c, t, prefix, {}, f)
    ensures c == t
  {
    if c != t {
      forall k | k in c.fields ensures c.fields[k] == t.fields[k] {
        SubstNone(c.fields[k], t.fields[k], prefix + [k], f);
      }
    }
  }

  /** Overwriting one more present position. */
  lemma {:induction false} SubstStep(c: Value, t: Value, prefix: Path, q: Path, at: set<Path>, f: Path -> Value)
    requires forall p :: f(p).Str?
    requires Subst(c, t, prefix, at, f) && Get(c, q) != Null
    ensures Subst(Set(c, q, f(prefix + q)), t, prefix, at + {prefix + q}, f)
    decreases |q|
  {
    var more := at + {prefix + q};
    if q == [] {
      assert prefix + q == prefix;
    } else {
      var k := q[0];
      var r := Set(c, q, f(prefix + q));
      assert prefix + q == (prefix + [k]) + q[1..];
      forall j | j in r.fields ensures Subst(r.fields[j], t.fields[j], prefix + [j], more, f) {
        assert Subst(c.fields[j], t.fields[j], prefix + [j], at, f);
        if j == k {
          SubstStep(c.fields[k], t.fields[k], prefix + [k], q[1..], at, f);
        } else {
          SubstGrow(c.fields[j], t.fields[j], prefix + [j], at, more, f);
        }
      }
    }
  }

  /** What is present after overwriting was present before. */
  lemma {:induction false} SubstPresent(c: Value, t: Value, prefix: Path, q: Path, at: set<Path>, f: Path -> Value)
    requires forall p :: f(p).Str?
    requires Subst(c, t, prefix, at, f) && Get(c, q) != Null
    ensures Get(t, q) != Null
    decreases |q|
  {
    if c != t && q != [] {
      SubstPresent(c.fields[q[0]], t.fields[q[0]], prefix + [q[0]], q[1..], at, f);
    }
  }

  /** A position that does not hold its replacement was not overwritten. */
  lemma {:induction false} SubstDrop(c: Value, t: Value, prefix: Path, p: Path, at: set<Path>, f: Path -> Value)
    requires Subst(c, t, prefix, at, f)
    requires prefix <= p ==> Get(c, p[|prefix|..]) != f(p)
    ensures Subst(c, t, prefix, at - {p}, f)
  {
    if c != t && !(prefix in at && c == f(prefix) && t != Null) {
      forall k | k in c.fields ensures Subst(c.fields[k], t.fields[k], prefix + [k], at - {p}, f) {
        if prefix + [k] <= p {
          assert prefix <= p && p[|prefix|..][0] == k && p[|prefix|..][1..] == p[|prefix + [k]|..];
        }
        SubstDrop(c.fields[k], t.fields[k], prefix + [k], p, at, f);
      }
    }
  }

  /** Putting the original back at one overwritten position. */
  lemma {:induction false} SubstRestore(c: Value, t: Value, prefix: Path, q: Path, at: set<Path>, f: Path -> Value)
    requires forall p :: f(p).Str?
    requires Subst(c, t, prefix, at, f) && Get(c, q) == f(prefix + q)
    ensures Subst(Set(c, q, Get(t, q)), t, prefix, at - {prefix + q}, f)
    decreases |q|
  {
    var p := prefix + q;
    if c == t {
      SetGet(c, q);
    } else if q != [] {
      var k := q[0];
      var r := Set(c, q, Get(t, q));
      assert p == (prefix + [k]) + q[1..];
      forall j | j in r.fields ensures Subst(r.fields[j], t.fields[j], prefix + [j], at - {p}, f) {
        assert Subst(c.fields[j], t.fields[j], prefix + [j], at, f);
        if j == k {
          SubstRestore(c.fields[k], t.fields[k], prefix + [k], q[1..], at, f);
        } else {
          assert p[|prefix|] == k && !(prefix + [j] <= p);
          SubstDrop(c.fields[j], t.fields[j], prefix + [j], p, at, f);
        }
      }
    }
  }

  // ---------------------------------------------------------------------------------------
  // Relating two trees of one shape, scalar by scalar
  // ---------------------------------------------------------------------------------------

  type ScalarRelation = (Path, Value, Value) -> bool

  /** `c` and `t` have the same objects, and `rel` relates their scalars at every path. */
  ghost predicate Lift(c: Value, t: Value, prefix: Path, rel: ScalarRelation) {
    || (!c.Obj? && !t.Obj? && rel(prefix, c, t))
    || (c.Obj? && t.Obj? && c.fields.Keys == t.fields.Keys &&
        forall k | k in c.fields :: Lift(c.fields[k], t.fields[k], prefix + [k], rel))
  }

  /** `weaker` accepts what `rel` accepts, except perhaps at the path `p`. */
  ghost predicate WeakerExceptAt(rel: ScalarRelation, weaker: ScalarRelation, p: Path) {
    forall q, a, b :: q != p && rel(q, a, b) ==> weaker(q, a, b)
  }

  lemma {:induction false} LiftSame(v: Value, prefix: Path, rel: ScalarRelation)
    requires forall p, a :: rel(p, a, a)
    ensures Lift(v, v, prefix, rel)
  {
    if v.Obj? {
      forall k | k in v.fields ensures Lift(v.fields[k], v.fields[k], prefix + [k], rel) {
        LiftSame(v.fields[k], prefix + [k], rel);
      }
    }
  }

  lemma {:induction false} LiftEqual(c: Value, t: Value, prefix: Path, rel: ScalarRelation)
    requires Lift(c, t, prefix, rel) && forall p, a, b :: rel(p, a, b) ==> a == b
    ensures c == t
  {
    if c.Obj? {
      forall k | k in c.fields ensures c.fields[k] == t.fields[k] {
        LiftEqual(c.fields[k], t.fields[k], prefix + [k], rel);
      }
      assert c.fields == t.fields;
    }
  }

  /** A relation that fixes the left scalars fixes the left tree. */
  lemma {:induction false} LiftUnique(c: Value, d: Value, t: Value, prefix: Path, rel: ScalarRelation)
    requires Lift(c, t, prefix, rel) && Lift(d, t, prefix, rel)
    requires forall p, a, b, x :: rel(p, a, x) && rel(p, b, x) ==> a == b
    ensures c == d
  {
    if c.Obj? {
      forall k | k in c.fields ensures c.fields[k] == d.fields[k] {
        LiftUnique(c.fields[k], d.fields[k], t.fields[k], prefix + [k], rel);
      }
      assert c.fields == d.fields;
    }
  }

  /** At every path both trees have an object, both have nothing, or `rel` relates the scalars. */
  lemma {:induction false} LiftGet(c: Value, t: Value, prefix: Path, q: Path, rel: ScalarRelation)
    requires Lift(c, t, prefix, rel)
    ensures var a, b := Get(c, q), Get(t, q);
            (a.Obj? && b.Obj?) || (a == Null && b == Null) || (!a.Obj? && !b.Obj? && rel(prefix + q, a, b))
    decreases |q|
  {
    if q == [] {
      assert prefix + q == prefix;
    } else if c.Obj? && q[0] in c.fields {
      assert prefix + q == (prefix + [q[0]]) + q[1..];
      LiftGet(c.fields[q[0]], t.fields[q[0]], prefix + [q[0]], q[1..], rel);
    }
  }

  lemma {:induction false} LiftElsewhere(c: Value, t: Value, prefix: Path, p: Path, rel: ScalarRelation,
                                         weaker: ScalarRelation)
    requires Lift(c, t, prefix, rel) && WeakerExceptAt(rel, weaker, p) && !(prefix <= p)
    ensures Lift(c, t, prefix, weaker)
  {
    if c.Obj? {
      forall k | k in c.fields ensures Lift(c.fields[k], t.fields[k], prefix + [k], weaker) {
        LiftElsewhere(c.fields[k], t.fields[k], prefix + [k], p, rel, weaker);
      }
    }
  }

  /** Replacing the scalars at one path by related ones; only that path needs the new relation. */
  lemma {:induction false} LiftSet(c: Value, t: Value, prefix: Path, q: Path, x: Value, y: Value, rel: ScalarRelation,
                                   weaker: ScalarRelation)
    requires Lift(c, t, prefix, rel) && WeakerExceptAt(rel, weaker, prefix + q)
    requires Get(c, q) != Null && !Get(c, q).Obj?
    requires !x.Obj? && !y.Obj? && weaker(prefix + q, x, y)
    ensures Lift(Set(c, q, x), Set(t, q, y), prefix, weaker)
    decreases |q|
  {
    if q == [] {
      assert prefix + q == prefix;
    } else {
      var k, p := q[0], prefix + q;
      assert p == (prefix + [k]) + q[1..];
      var r, u := Set(c, q, x), Set(t, q, y);
      forall j | j in r.fields ensures Lift(r.fields[j], u.fields[j], prefix + [j], weaker) {
        if j == k {
          LiftSet(c.fields[k], t.fields[k], prefix + [k], q[1..], x, y, rel, weaker);
        } else {
          assert p[|prefix|] == k && !(prefix + [j] <= p);
          LiftElsewhere(c.fields[j], t.fields[j], prefix + [j], p, rel, weaker);
        }
      }
    }
  }

  /** Leaving one path alone; only that path needs the new relation. */
  lemma {:induction false} LiftKeep(c: Value, t: Value, prefix: Path, q: Path, rel: ScalarRelation,
                                    weaker: ScalarRelation)
    requires Lift(c, t, prefix, rel) && WeakerExceptAt(rel, weaker, prefix + q)
    requires !Get(c, q).Obj? && !Get(t, q).Obj? ==> weaker(prefix + q, Get(c, q), Get(t, q))
    ensures Lift(c, t, prefix, weaker)
    decreases |q|
  {
    var p := prefix + q;
    if c.Obj? {
      forall j | j in c.fields ensures Lift(c.fields[j], t.fields[j], prefix + [j], weaker) {
        if q != [] && j == q[0] {
          assert p == (prefix + [j]) + q[1..];
          LiftKeep(c.fields[j], t.fields[j], prefix + [j], q[1..], rel, weaker);
        } else {
          assert q != [] ==> p[|prefix|] == q[0];
          assert !(prefix + [j] <= p);
          LiftElsewhere(c.fields[j], t.fields[j], prefix + [j], p, rel, weaker);
        }
      }
    } else if q == [] {
      assert p == prefix;
    } else {
      assert |p| > |prefix|;
    }
  }

  lemma {:induction false} GetAppend(v: Value, p: Path, k: string)
    requires Get(v, p).Obj? && k in Get(v, p).fields
    ensures Get(v, p + [k]) == Get(v, p).fields[k]
    decreases |p|
  {
    if p == [] {
      assert p + [k] == [k];
      assert Get(v, [k]) == Get(v.fields[k], []);
    } else {
      assert (p + [k])[0] == p[0] && (p + [k])[1..] == p[1..] + [k];
      GetAppend(v.fields[p[0]], p[1..], k);
    }
  }

  /** Weakening the relation at the scalars the right tree really has. */
  lemma {:induction false} LiftWeaken(root: Value, c: Value, t: Value, prefix: Path, rel: ScalarRelation,
                                      weaker: ScalarRelation)
    requires Lift(c, t, prefix, rel) && Get(root, prefix) == t
    requires forall p, a :: rel(p, a, Get(root, p)) ==> weaker(p, a, Get(root, p))
    ensures Lift(c, t, prefix, weaker)
  {
    if c.Obj? {
      forall k | k in c.fields ensures Lift(c.fields[k], t.fields[k], prefix + [k], weaker) {
        GetAppend(root, prefix, k);
        LiftWeaken(root, c.fields[k], t.fields[k], prefix + [k], rel, weaker);
      }
    }
  }
}
