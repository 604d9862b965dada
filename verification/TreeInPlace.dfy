/** The dot-path helpers as they run: loops that walk down nested objects and change one of them.
    Each is proved to compute the function on values that `Tree` defines. */
module TreeInPlace {
  import opened Text
  import opened Tree

  /** What a property holds: a reference to another object, or anything else. */
  datatype Slot = Scalar(v: Value) | Ref(node: JsObject)

  class JsObject {
    var fields: map<string, Slot>

    constructor ()
      ensures fields == map[]
    {
      fields := map[];
    }
  }

  /** The tree below each object, and the one property each object hangs from, if any. */
  datatype Forest = Forest(trees: map<JsObject, Fields>, owner: map<JsObject, (JsObject, string)>)

  const EMPTY := Forest(map[], map[])

  ghost predicate Known(f: Forest, s: Slot) {
    match s
    case Scalar(v) => !v.Obj?
    case Ref(n) => n in f.trees
  }

  ghost function ValueOf(f: Forest, s: Slot): Value
    requires Known(f, s)
  {
    match s
    case Scalar(v) => v
    case Ref(n) => Obj(f.trees[n])
  }

  /** With these properties, `n` spells out the tree `t`, and the objects below hang from it alone. */
  ghost predicate Spells(n: JsObject, fields: map<string, Slot>, f: Forest, t: Fields) {
    && t.Keys == fields.Keys
    && forall k | k in fields ::
         var s := fields[k];
         && Known(f, s) && t[k] == ValueOf(f, s)
         && (s.Ref? ==> s.node != n && s.node in f.owner && f.owner[s.node] == (n, k))
  }

  ghost predicate Shows(n: JsObject, f: Forest, t: Fields)
    reads n
  {
    Spells(n, n.fields, f, t)
  }

  ghost predicate Consistent(f: Forest, except: set<JsObject>)
    reads f.trees.Keys
  {
    && f.owner.Keys <= f.trees.Keys
    && (forall n | n in f.owner :: f.owner[n].0 in f.trees)
    && forall n | n in f.trees && n !in except :: Shows(n, f, f.trees[n])
  }

  /** Nothing outside `apart` refers into it. */
  ghost predicate Apart(f: Forest, apart: set<JsObject>) {
    forall n | n in apart && n in f.owner :: f.owner[n].0 in apart
  }

  /** In the middle of a walk: all objects but `curr` show their trees, and `curr` shows `here`. */
  ghost predicate Standing(curr: JsObject, here: Fields, f: Forest, apart: set<JsObject>)
    reads curr, f.trees.Keys
  {
    && curr in f.trees && curr !in apart
    && Consistent(f, {curr})
    && Shows(curr, f, here)
    && Apart(f, apart)
  }

  /** An object shows the same tree when nothing it refers to changes. */
  lemma ShowsStill(n: JsObject, f: Forest, f': Forest, t: Fields)
    requires Shows(n, f, t)
    requires forall c | c in f.owner && f.owner[c].0 == n && c in f.trees ::
               c in f'.trees && f'.trees[c] == f.trees[c] && c in f'.owner && f'.owner[c] == f.owner[c]
    ensures Shows(n, f', t)
  {
  }

  lemma ChildKnown(curr: JsObject, key: string, next: JsObject, here: Fields, f: Forest, apart: set<JsObject>)
    requires Standing(curr, here, f, apart)
    requires key in curr.fields && curr.fields[key] == Ref(next)
    ensures next in f.trees && next in f.owner && f.owner[next] == (curr, key) && next != curr && next !in apart
    ensures key in here && here[key] == Obj(f.trees[next])
  {
  }

  /** Stepping from `curr` to its child `next`: `curr` now shows the tree it is meant to have, and
      the child is the one still to be changed. */
  lemma StepDown(curr: JsObject, key: string, next: JsObject, here: Fields, f: Forest, apart: set<JsObject>,
                 wanted: Fields)
    requires Standing(curr, here, f, apart)
    requires key in curr.fields && curr.fields[key] == Ref(next)
    requires f.trees[curr] == here[key := Obj(wanted)]
    ensures next in f.trees && Standing(next, f.trees[next], f.(trees := f.trees[next := wanted]), apart)
  {
    var f' := f.(trees := f.trees[next := wanted]);
    ChildKnown(curr, key, next, here, f, apart);
    StepDownShows(curr, key, next, here, f, wanted);
    hide Spells;
    forall n | n in f.trees && n != curr ensures Shows(n, f', f.trees[n]) {
      assert Shows(n, f, f.trees[n]);
      ShowsStill(n, f, f', f.trees[n]);
    }
  }

  lemma StepDownShows(curr: JsObject, key: string, next: JsObject, here: Fields, f: Forest, wanted: Fields)
    requires Shows(curr, f, here) && key in curr.fields && curr.fields[key] == Ref(next)
    ensures Shows(curr, f.(trees := f.trees[next := wanted]), here[key := Obj(wanted)])
  {
  }

  /** More trees and more owners leave what is shown. */
  lemma MoreTreesStillShow(curr: JsObject, f: Forest, f': Forest)
    requires Consistent(f, {curr}) && f.trees.Keys <= f'.trees.Keys && f'.owner.Keys <= f'.trees.Keys
    requires forall n | n in f.trees :: f'.trees[n] == f.trees[n]
    requires forall n | n in f'.trees && n !in f.trees :: n.fields == map[] && f'.trees[n] == map[]
    requires forall n | n in f.owner :: n in f'.owner && f'.owner[n] == f.owner[n]
    requires forall n | n in f'.owner :: f'.owner[n].0 in f'.trees
    ensures Consistent(f', {curr})
  {
    hide Spells;
    forall n | n in f'.trees && n != curr ensures Shows(n, f', f'.trees[n]) {
      if n in f.trees {
        assert Shows(n, f, f.trees[n]);
        ShowsStill(n, f, f', f.trees[n]);
      } else {
        NothingSpelled(n, f');
      }
    }
  }

  lemma NothingSpelled(n: JsObject, f: Forest)
    ensures Spells(n, map[], f, map[])
  {
  }

  ghost function Hung(f: Forest, curr: JsObject, key: string, x: Slot): Forest {
    if x.Ref? then f.(owner := f.owner[x.node := (curr, key)]) else f
  }

  lemma PutSpells(curr: JsObject, fields: map<string, Slot>, key: string, x: Slot, here: Fields, f: Forest)
    requires Spells(curr, fields, f, here) && Known(f, x) && (x.Ref? ==> x.node !in f.owner && x.node != curr)
    ensures Spells(curr, fields[key := x], Hung(f, curr, key, x), here[key := ValueOf(f, x)])
  {
  }

  /** Assigning a property; an object assigned must not hang anywhere yet. */
  method Put(curr: JsObject, key: string, x: Slot, ghost here: Fields, ghost f: Forest)
    requires curr in f.trees && Consistent(f, {curr}) && Shows(curr, f, here)
    requires Known(f, x) && (x.Ref? ==> x.node !in f.owner && x.node != curr)
    modifies curr
    ensures curr.fields == old(curr.fields)[key := x]
    ensures Consistent(Hung(f, curr, key, x), {curr}) && Shows(curr, Hung(f, curr, key, x), here[key := ValueOf(f, x)])
  {
    PutSpells(curr, curr.fields, key, x, here, f);
    hide Spells;
    curr.fields := curr.fields[key := x];
    assert Consistent(f, {curr}) by {
      forall n | n in f.trees && n != curr ensures Shows(n, f, f.trees[n]) {
        assert old(Shows(n, f, f.trees[n]));
      }
    }
    MoreTreesStillShow(curr, f, Hung(f, curr, key, x));
  }

  /** Replacing whatever is no object under the key by an empty object. */
  method EnsureChild(curr: JsObject, key: string, ghost here: Fields, ghost f: Forest, ghost apart: set<JsObject>)
    returns (next: JsObject, ghost here': Fields, ghost f': Forest)
    requires Standing(curr, here, f, apart) && apart <= f.trees.Keys
    modifies curr
    ensures key in curr.fields && curr.fields[key] == Ref(next)
    ensures here' == (if key in here && here[key].Obj? then here else here[key := Obj(map[])])
    ensures f'.trees.Keys == f.trees.Keys + {next} && f'.owner.Keys == f.owner.Keys + {next}
            && ((next in f.trees && next in f.owner) || fresh(next))
    ensures forall n | n in f.trees :: f'.trees[n] == f.trees[n]
    ensures Standing(curr, here', f', apart)
  {
    SlotKind(curr, key, here, f);
    hide Spells;
    here', f' := here, f;
    if key !in curr.fields || curr.fields[key].Scalar? {
      next := new JsObject();
      f' := f.(trees := f.trees[next := map[]]);
      MoreTreesStillShow(curr, f, f');
      ShowsStill(curr, f, f', here);
      Put(curr, key, Ref(next), here, f');
      here', f' := here[key := Obj(map[])], Hung(f', curr, key, Ref(next));
    } else {
      next := curr.fields[key].node;
    }
  }

  lemma SlotKind(curr: JsObject, key: string, here: Fields, f: Forest)
    requires Shows(curr, f, here)
    ensures key in here <==> key in curr.fields
    ensures key in here ==> (here[key].Obj? <==> curr.fields[key].Ref?)
  {
  }

  /** What stays through a walk: the root is the root, and is meant to have the tree `wanted`. */
  ghost predicate Walking(root: JsObject, wanted: Fields, curr: JsObject, here: Fields, f: Forest, apart: set<JsObject>)
    reads curr, f.trees.Keys
  {
    && root in f.trees && root !in f.owner && f.trees[root] == wanted
    && Standing(curr, here, f, apart)
  }

  /** One turn of the loop in `setByPath`. */
  method SetTurn(root: JsObject, ghost wanted: Fields, curr: JsObject, key: string, rest: Path, ghost value: Value,
                 ghost here: Fields, ghost f: Forest, ghost apart: set<JsObject>)
    returns (next: JsObject, ghost here': Fields, ghost f': Forest)
    requires Walking(root, wanted, curr, here, f, apart) && apart <= f.trees.Keys && rest != []
    requires f.trees[curr] == Set(Obj(here), [key] + rest, value).fields
    modifies curr
    ensures Walking(root, wanted, next, here', f', apart) && f'.trees[next] == Set(Obj(here'), rest, value).fields
    ensures f'.trees.Keys == f.trees.Keys + {next} && f'.owner.Keys == f.owner.Keys + {next} && next !in apart
    ensures next in f.trees || fresh(next)
    ensures forall n | n in f.trees && n != next :: f'.trees[n] == f.trees[n]
  {
    hide *;
    InTrees(root, wanted, curr, here, f, apart);
    SetFilled(here, key, rest, value);
    ghost var here1, f1;
    next, here1, f1 := EnsureChild(curr, key, here, f, apart);
    StillWalking(root, wanted, curr, here1, f1, apart);
    here', f' := SetDown(root, wanted, curr, key, rest, value, next, here1, f1, apart);
  }

  lemma InTrees(root: JsObject, wanted: Fields, curr: JsObject, here: Fields, f: Forest, apart: set<JsObject>)
    requires Walking(root, wanted, curr, here, f, apart)
    ensures curr in f.trees && root in f.trees && root !in f.owner && f.trees[root] == wanted
            && Standing(curr, here, f, apart)
  {
  }

  lemma StillWalking(root: JsObject, wanted: Fields, curr: JsObject, here: Fields, f: Forest, apart: set<JsObject>)
    requires root in f.trees && root !in f.owner && f.trees[root] == wanted && Standing(curr, here, f, apart)
    ensures Walking(root, wanted, curr, here, f, apart)
  {
  }

  lemma SetFilled(here: Fields, key: string, rest: Path, value: Value)
    requires rest != []
    ensures var here1 := if key in here && here[key].Obj? then here else here[key := Obj(map[])];
            Set(Obj(here1), [key] + rest, value).fields == Set(Obj(here), [key] + rest, value).fields
  {
    hide Set;
    SetOne(here, key, rest, value);
    SetOne(if key in here && here[key].Obj? then here else here[key := Obj(map[])], key, rest, value);
  }

  /** The rest of the turn, once the child is there. */
  lemma SetDown(root: JsObject, wanted: Fields, curr: JsObject, key: string, rest: Path, value: Value, next: JsObject,
                       here: Fields, f: Forest, apart: set<JsObject>)
    returns (here': Fields, f': Forest)
    requires Walking(root, wanted, curr, here, f, apart) && rest != []
    requires key in curr.fields && curr.fields[key] == Ref(next)
    requires f.trees[curr] == Set(Obj(here), [key] + rest, value).fields
    ensures next in f.trees && next !in apart && next in f.owner
    ensures Walking(root, wanted, next, here', f', apart) && f'.trees[next] == Set(Obj(here'), rest, value).fields
    ensures f' == f.(trees := f.trees[next := f'.trees[next]])
  {
    ChildKnown(curr, key, next, here, f, apart);
    SetOne(here, key, rest, value);
    hide Spells, Shows, Consistent, Apart, Set;
    var below := Set(Obj(f.trees[next]), rest, value).fields;
    StepDown(curr, key, next, here, f, apart, below);
    here', f' := f.trees[next], f.(trees := f.trees[next := below]);
  }

  /** One turn of the loop in `deleteByPath`. */
  lemma DeleteTurn(root: JsObject, wanted: Fields, curr: JsObject, key: string, rest: Path, next: JsObject,
                   here: Fields, f: Forest)
    returns (here': Fields, f': Forest)
    requires Walking(root, wanted, curr, here, f, {}) && rest != []
    requires key in curr.fields && curr.fields[key] == Ref(next)
    requires f.trees[curr] == Delete(Obj(here), [key] + rest).fields
    ensures next in f.trees && f'.trees.Keys == f.trees.Keys
    ensures Walking(root, wanted, next, here', f', {}) && f'.trees[next] == Delete(Obj(here'), rest).fields
  {
    assert ([key] + rest)[1..] == rest;
    ChildKnown(curr, key, next, here, f, {});
    assert Delete(Obj(here), [key] + rest).fields == here[key := Delete(here[key], rest)];
    hide Spells, Shows, Consistent, Apart, Delete;
    var below := Delete(Obj(f.trees[next]), rest).fields;
    StepDown(curr, key, next, here, f, {}, below);
    here', f' := f.trees[next], f.(trees := f.trees[next := below]);
  }

  /** A path that leaves the objects before its last part deletes nothing. */
  lemma Stopped(curr: JsObject, key: string, rest: Path, here: Fields, f: Forest)
    requires Standing(curr, here, f, {}) && rest != []
    requires key !in curr.fields || curr.fields[key].Scalar?
    requires f.trees[curr] == Delete(Obj(here), [key] + rest).fields
    ensures Consistent(f, {})
  {
    assert ([key] + rest)[1..] == rest;
    assert f.trees[curr] == here;
  }

  /** The loop of `setByPath`. */
  method WalkForSet(root: JsObject, ghost wanted: Fields, parts: Path, ghost value: Value, ghost here0: Fields,
                    ghost f0: Forest, ghost apart: set<JsObject>)
    returns (curr: JsObject, ghost here: Fields, ghost f: Forest)
    requires parts != [] && apart <= f0.trees.Keys
    requires Walking(root, wanted, root, here0, f0, apart) && wanted == Set(Obj(here0), parts, value).fields
    modifies f0.trees.Keys - apart
    ensures Walking(root, wanted, curr, here, f, apart) && f.trees[curr] == here[parts[|parts| - 1] := value]
    ensures curr in f0.trees.Keys - apart || fresh(curr)
    ensures f0.trees.Keys <= f.trees.Keys && fresh(f.trees.Keys - f0.trees.Keys)
    ensures forall n | n in apart :: f.trees[n] == f0.trees[n] && (n in f.owner <==> n in f0.owner)
  {
    hide Spells, Shows, Consistent, Apart, Set;
    curr, here, f := root, here0, f0;
    assert parts[0..] == parts;
    for i := 0 to |parts| - 1
      invariant Walking(root, wanted, curr, here, f, apart)
      invariant f.trees[curr] == Set(Obj(here), parts[i..], value).fields
      invariant curr in f0.trees.Keys - apart || fresh(curr)
      invariant f0.trees.Keys <= f.trees.Keys && fresh(f.trees.Keys - f0.trees.Keys)
      invariant forall n | n in apart :: f.trees[n] == f0.trees[n] && (n in f.owner <==> n in f0.owner)
    {
      assert parts[i..] == [parts[i]] + parts[i + 1..];
      curr, here, f := SetTurn(root, wanted, curr, parts[i], parts[i + 1..], value, here, f, apart);
    }
    assert parts[|parts| - 1..] == [parts[|parts| - 1]];
    SetLast(here, parts[|parts| - 1], value);
  }

  lemma SetLast(here: Fields, key: string, value: Value)
    ensures Set(Obj(here), [key], value) == Obj(here[key := value])
    ensures Delete(Obj(here), [key]) == Obj(here - {key})
  {
  }

  /** The loop of `deleteByPath`; it stops when the path leaves the objects. */
  method WalkForDelete(root: JsObject, ghost wanted: Fields, parts: Path, ghost here0: Fields, ghost f0: Forest)
    returns (curr: JsObject, stopped: bool, ghost here: Fields, ghost f: Forest)
    requires parts != []
    requires Walking(root, wanted, root, here0, f0, {}) && wanted == Delete(Obj(here0), parts).fields
    ensures Walking(root, wanted, curr, here, f, {}) && f.trees.Keys == f0.trees.Keys
    ensures if stopped then Consistent(f, {}) else f.trees[curr] == here - {parts[|parts| - 1]}
  {
    hide Spells, Shows, Consistent, Apart, Delete;
    curr, stopped, here, f := root, false, here0, f0;
    assert parts[0..] == parts;
    for i := 0 to |parts| - 1
      invariant Walking(root, wanted, curr, here, f, {})
      invariant f.trees[curr] == Delete(Obj(here), parts[i..]).fields
      invariant f.trees.Keys == f0.trees.Keys && !stopped
    {
      assert parts[i..] == [parts[i]] + parts[i + 1..];
      if parts[i] !in curr.fields || curr.fields[parts[i]].Scalar? {
        Stopped(curr, parts[i], parts[i + 1..], here, f);
        stopped := true;
        return;
      }
      var next := curr.fields[parts[i]].node;
      here, f := DeleteTurn(root, wanted, curr, parts[i], parts[i + 1..], next, here, f);
      curr := next;
    }
    assert parts[|parts| - 1..] == [parts[|parts| - 1]];
    SetLast(here, parts[|parts| - 1], Null);
  }

  lemma SetOne(here: Fields, key: string, rest: Path, value: Value)
    requires rest != []
    ensures var child := if key in here && here[key].Obj? then here[key].fields else map[];
            Set(Obj(here), [key] + rest, value).fields == here[key := Obj(Set(Obj(child), rest, value).fields)]
  {
    assert ([key] + rest)[1..] == rest;
    var child := if key in here then here[key] else Null;
    assert Set(child, rest, value) == Set(Obj(if child.Obj? then child.fields else map[]), rest, value);
  }

  /** The assignment that ends a walk. */
  method Assign(curr: JsObject, key: string, x: Slot, ghost here: Fields, ghost f: Forest, ghost apart: set<JsObject>)
    requires Standing(curr, here, f, apart) && Known(f, x)
    requires f.trees[curr] == here[key := ValueOf(f, x)]
    requires x.Ref? ==> x.node in apart && x.node !in f.owner
    modifies curr
    ensures Consistent(Hung(f, curr, key, x), {})
  {
    hide Spells;
    Put(curr, key, x, here, f);
  }

  /** Deleting a property. */
  method Drop(curr: JsObject, key: string, ghost here: Fields, ghost f: Forest)
    requires Standing(curr, here, f, {}) && f.trees[curr] == here - {key}
    modifies curr
    ensures Consistent(f, {})
  {
    assert Spells(curr, curr.fields - {key}, f, here - {key});
    hide Spells;
    curr.fields := curr.fields - {key};
    forall n | n in f.trees && n != curr ensures Shows(n, f, f.trees[n]) {
      assert old(Shows(n, f, f.trees[n]));
    }
  }

  /** Two forests together, with the tree the root of the first is meant to have. */
  ghost function Joined(f: Forest, more: Forest, root: JsObject, wanted: Fields): Forest {
    Forest((f.trees + more.trees)[root := wanted], f.owner + more.owner)
  }

  lemma Begin(f: Forest, more: Forest, root: JsObject, wanted: Fields)
    requires Consistent(f, {}) && Consistent(more, {}) && f.trees.Keys !! more.trees.Keys
    requires root in f.trees && root !in f.owner
    ensures var f' := Joined(f, more, root, wanted);
            && Standing(root, f.trees[root], f', more.trees.Keys)
            && f'.trees.Keys == f.trees.Keys + more.trees.Keys && root !in f'.owner
            && forall n | n in more.trees :: f'.trees[n] == more.trees[n] && (n in f'.owner <==> n in more.owner)
  {
    var f' := Joined(f, more, root, wanted);
    JoinedOwners(f, more, root, wanted);
    forall n | n in f.trees ensures Shows(n, f', f.trees[n]) {
      ShowsJoined(n, f, more, root, wanted, f.trees[n]);
    }
    forall n | n in more.trees ensures Shows(n, f', more.trees[n]) {
      ShowsJoinedRight(n, f, more, root, wanted, more.trees[n]);
    }
    hide Shows, Apart;
    assert Consistent(f', {root}) by {
      hide Consistent;
      JoinedConsistent(f, more, root, wanted);
    }
  }

  lemma JoinedOwners(f: Forest, more: Forest, root: JsObject, wanted: Fields)
    requires f.owner.Keys <= f.trees.Keys && forall n | n in f.owner :: f.owner[n].0 in f.trees
    requires more.owner.Keys <= more.trees.Keys && forall n | n in more.owner :: more.owner[n].0 in more.trees
    requires f.trees.Keys !! more.trees.Keys && root in f.trees && root !in f.owner
    ensures var f' := Joined(f, more, root, wanted);
            && f'.owner.Keys <= f'.trees.Keys && f'.trees.Keys == f.trees.Keys + more.trees.Keys && root !in f'.owner
            && (forall n | n in f'.owner :: f'.owner[n].0 in f'.trees)
            && Apart(f', more.trees.Keys)
            && (forall n | n in f.trees && n != root :: f'.trees[n] == f.trees[n])
            && (forall n | n in more.trees :: f'.trees[n] == more.trees[n] && (n in f'.owner <==> n in more.owner))
  {
  }

  lemma JoinedConsistent(f: Forest, more: Forest, root: JsObject, wanted: Fields)
    requires var f' := Joined(f, more, root, wanted);
             && f'.owner.Keys <= f'.trees.Keys && f'.trees.Keys == f.trees.Keys + more.trees.Keys && root in f.trees
             && (forall n | n in f'.owner :: f'.owner[n].0 in f'.trees)
             && (forall n | n in f.trees && n != root :: f'.trees[n] == f.trees[n] && Shows(n, f', f.trees[n]))
             && (forall n | n in more.trees :: f'.trees[n] == more.trees[n] && Shows(n, f', more.trees[n]))
    ensures Consistent(Joined(f, more, root, wanted), {root})
  {
    hide Shows, Joined;
  }

  lemma ShowsJoined(n: JsObject, f: Forest, more: Forest, root: JsObject, wanted: Fields, t: Fields)
    requires f.trees.Keys !! more.trees.Keys && more.owner.Keys <= more.trees.Keys
    requires root !in f.owner && Shows(n, f, t)
    ensures Shows(n, Joined(f, more, root, wanted), t)
  {
    hide Spells;
    ShowsStill(n, f, Joined(f, more, root, wanted), t);
  }

  lemma ShowsJoinedRight(n: JsObject, f: Forest, more: Forest, root: JsObject, wanted: Fields, t: Fields)
    requires f.trees.Keys !! more.trees.Keys && root in f.trees && Shows(n, more, t)
    ensures Shows(n, Joined(f, more, root, wanted), t)
  {
    hide Spells;
    ShowsStill(n, more, Joined(f, more, root, wanted), t);
  }

  lemma ValueStays(x: Slot, more: Forest, f: Forest, f': Forest)
    requires Known(more, x) && (x.Ref? ==> x.node !in more.owner) && more.trees.Keys <= f.trees.Keys <= f'.trees.Keys
    requires forall n | n in more.trees :: f.trees[n] == more.trees[n] && (n in f.owner <==> n in more.owner)
    requires forall n | n in more.trees :: f'.trees[n] == f.trees[n] && (n in f'.owner <==> n in f.owner)
    ensures Known(f', x) && ValueOf(f', x) == ValueOf(more, x)
            && (x.Ref? ==> x.node in more.trees && x.node !in f'.owner)
  {
  }

  /** `root` holds the parsed document `t`. */
  ghost predicate Holds(root: JsObject, f: Forest, t: Fields)
    reads f.trees.Keys
  {
    root in f.trees && root !in f.owner && f.trees[root] == t && Consistent(f, {})
  }

  /** `getByPath`. */
  method GetByPath(root: JsObject, path: string, ghost f: Forest, ghost t: Fields) returns (s: Slot)
    requires Holds(root, f, t)
    ensures Known(f, s) && ValueOf(f, s) == Tree.GetByPath(t, path)
  {
    var parts := Split(path);
    s := Ref(root);
    for i := 0 to |parts|
      invariant Known(f, s)
      invariant Get(ValueOf(f, s), parts[i..]) == Get(Obj(t), parts)
    {
      assert parts[i..][1..] == parts[i + 1..];
      assert s.Ref? ==> Shows(s.node, f, f.trees[s.node]);
      if s.Ref? && parts[i] in s.node.fields {
        s := s.node.fields[parts[i]];
      } else {
        s := Scalar(Null);
      }
    }
  }

  /** `setByPath`, with a value that is not an object or with an object that hangs nowhere, of a
      forest apart from this one. */
  method SetByPath(root: JsObject, path: string, x: Slot, ghost f: Forest, ghost t: Fields,
                   ghost more: Forest) returns (ghost f': Forest)
    requires Holds(root, f, t)
    requires Consistent(more, {}) && more.trees.Keys !! f.trees.Keys && Known(more, x)
             && (x.Ref? ==> x.node !in more.owner)
    modifies f.trees.Keys
    ensures Holds(root, f', Tree.SetByPath(t, path, ValueOf(more, x)))
    ensures fresh(f'.trees.Keys - f.trees.Keys - more.trees.Keys)
  {
    var parts := Split(path);
    ghost var value := ValueOf(more, x);
    ghost var wanted := Set(Obj(t), parts, value).fields;
    Begin(f, more, root, wanted);
    ghost var joined := Joined(f, more, root, wanted);
    StillWalking(root, wanted, root, t, joined, more.trees.Keys);
    hide Spells, Shows, Apart, Joined, Set, Split, Consistent, Standing, Known, ValueOf;
    var curr;
    ghost var here;
    curr, here, f' := WalkForSet(root, wanted, parts, value, t, joined, more.trees.Keys);
    var last := parts[|parts| - 1];
    ValueStays(x, more, joined, f');
    Assign(curr, last, x, here, f', more.trees.Keys);
    f' := Hung(f', curr, last, x);
  }

  /** `deleteByPath`. */
  method DeleteByPath(root: JsObject, path: string, ghost f: Forest, ghost t: Fields) returns (ghost f': Forest)
    requires Holds(root, f, t)
    modifies f.trees.Keys
    ensures Holds(root, f', Tree.DeleteByPath(t, path)) && f'.trees.Keys == f.trees.Keys
  {
    assert Consistent(EMPTY, {});
    var parts := Split(path);
    ghost var wanted := Delete(Obj(t), parts).fields;
    Begin(f, EMPTY, root, wanted);
    ghost var joined := Joined(f, EMPTY, root, wanted);
    StillWalking(root, wanted, root, t, joined, {});
    hide Spells, Shows, Apart, Joined, Delete, Split, Consistent, Standing;
    var curr, stopped;
    ghost var here;
    curr, stopped, here, f' := WalkForDelete(root, wanted, parts, t, joined);
    if !stopped {
      Drop(curr, parts[|parts| - 1], here, f');
    }
  }
}
