/**
 * The object graphs that value objects hold: a heap of arrays, records and dates, in which sharing
 * and cycles are visible, and the tree a cycle-free value unfolds to.
 */
module ObjectGraph {
  import T = Text

  type Ref = nat

  /** A primitive value. Numbers are told apart as `Object.is` does. */
  datatype Primitive = Undefined | Null | Boolean(b: bool) | Number(n: int) | Text(s: string)

  datatype Value = Prim(p: Primitive) | Obj(ref: Ref)

  /** The key under which ordinary objects inherit an accessor from `Object.prototype`. */
  const PROTO := "__proto__"

  /**
   * What an object inherits: whether that accessor, and the names of properties that cannot be assigned.
   * A read-only `__proto__` on the way hides the accessor.
   */
  datatype Proto = Proto(accessor: bool, readOnly: set<string>)

  /** The prototype of an object literal. */
  const PLAIN := Proto(true, {})

  /**
   * A date is a valid one. A record lists its own keys in the order of `Object.keys`. `Unsupported` is a
   * Map, Set, RegExp or Buffer.
   */
  datatype Node =
    | DateNode(time: int)
    | Unsupported
    | ArrayNode(items: seq<Value>)
    | RecordNode(keys: seq<string>, fields: map<string, Value>, proto: Proto)
  {
    ghost predicate WellFormed() {
      RecordNode? ==>
        && (forall i, j :: 0 <= i < j < |keys| ==> keys[i] != keys[j])
        && (forall k :: k in keys <==> k in fields)
        && (PROTO in proto.readOnly ==> !proto.accessor)
    }

    function Kids(): set<Value> {
      match this
      case ArrayNode(items) => set i | 0 <= i < |items| :: items[i]
      case RecordNode(_, fields, _) => set k | k in fields :: fields[k]
      case _ => {}
    }
  }

  type Heap = map<Ref, Node>

  predicate ValueIn(s: set<Ref>, v: Value) {
    v.Obj? ==> v.ref in s
  }

  /** Every reference leads somewhere and every record is well formed. */
  ghost predicate Closed(h: Heap) {
    forall r :: r in h ==> h[r].WellFormed() && forall v :: v in h[r].Kids() ==> ValueIn(h.Keys, v)
  }

  // ----- Paths ---------------------------------------------------------------------------------

  ghost predicate IsPath(h: Heap, p: seq<Ref>) {
    && p != []
    && (forall i :: 0 <= i < |p| ==> p[i] in h)
    && (forall i :: 0 <= i < |p| - 1 ==> Obj(p[i + 1]) in h[p[i]].Kids())
  }

  ghost predicate PathFrom(h: Heap, v: Value, p: seq<Ref>) {
    v.Obj? && IsPath(h, p) && p[0] == v.ref
  }

  /** The path avoids `avoid`, never comes back to an object, and meets supported objects only. */
  ghost predicate GoodPath(h: Heap, p: seq<Ref>, avoid: set<Ref>)
    requires IsPath(h, p)
  {
    && (forall i :: 0 <= i < |p| ==> p[i] !in avoid && !h[p[i]].Unsupported?)
    && (forall i, j :: 0 <= i < j < |p| ==> p[i] != p[j])
  }

  /** No path from `v` meets an unsupported object, closes a cycle, or enters `avoid`. */
  ghost predicate Clean(h: Heap, v: Value, avoid: set<Ref>) {
    forall p :: PathFrom(h, v, p) ==> GoodPath(h, p, avoid)
  }

  ghost predicate Accepted(h: Heap, v: Value) {
    Closed(h) && ValueIn(h.Keys, v) && Clean(h, v, {})
  }

  lemma PathExtend(h: Heap, r: Ref, v: Value, p: seq<Ref>)
    requires r in h && v in h[r].Kids() && PathFrom(h, v, p)
    ensures PathFrom(h, Obj(r), [r] + p)
  {
    var q := [r] + p;
    forall i | 0 <= i < |q| - 1
      ensures Obj(q[i + 1]) in h[q[i]].Kids()
    {
      if i > 0 {
        assert q[i] == p[i - 1] && q[i + 1] == p[i];
      }
    }
  }

  lemma CleanKids(h: Heap, r: Ref, avoid: set<Ref>)
    requires Closed(h) && r in h && Clean(h, Obj(r), avoid)
    ensures !h[r].Unsupported? && r !in avoid
    ensures forall v :: v in h[r].Kids() ==> ValueIn(h.Keys, v) && Clean(h, v, avoid + {r})
  {
    assert PathFrom(h, Obj(r), [r]);
    assert GoodPath(h, [r], avoid);
    assert [r][0] == r;
    forall v, p | v in h[r].Kids() && PathFrom(h, v, p)
      ensures GoodPath(h, p, avoid + {r})
    {
      PathExtend(h, r, v, p);
      var q := [r] + p;
      assert GoodPath(h, q, avoid);
      forall i | 0 <= i < |p|
        ensures p[i] !in avoid + {r} && !h[p[i]].Unsupported?
      {
        assert q[i + 1] == p[i] && q[0] == r;
      }
      forall i, j | 0 <= i < j < |p|
        ensures p[i] != p[j]
      {
        assert q[i + 1] == p[i] && q[j + 1] == p[j];
      }
    }
  }

  lemma CleanFromKids(h: Heap, r: Ref, avoid: set<Ref>)
    requires Closed(h) && r in h && !h[r].Unsupported? && r !in avoid
    requires forall v :: v in h[r].Kids() ==> Clean(h, v, avoid + {r})
    ensures Clean(h, Obj(r), avoid)
  {
    forall p | PathFrom(h, Obj(r), p)
      ensures GoodPath(h, p, avoid)
    {
      if |p| > 1 {
        var q := p[1..];
        assert Obj(p[1]) in h[p[0]].Kids();
        assert PathFrom(h, Obj(p[1]), q) by {
          forall i | 0 <= i < |q| - 1
            ensures Obj(q[i + 1]) in h[q[i]].Kids()
          {
            assert Obj(p[i + 1 + 1]) in h[p[i + 1]].Kids();
          }
        }
        assert GoodPath(h, q, avoid + {r});
        assert p == [r] + q;
      }
    }
  }

  ghost predicate ClosedUnder(h: Heap, s: set<Ref>) {
    forall r :: r in s ==> r in h && forall v :: v in h[r].Kids() ==> ValueIn(s, v)
  }

  lemma {:induction false} PathStays(h: Heap, p: seq<Ref>, s: set<Ref>)
    requires IsPath(h, p) && ClosedUnder(h, s) && p[0] in s
    ensures forall i :: 0 <= i < |p| ==> p[i] in s
  {
    if |p| > 1 {
      var q := p[..|p| - 1];
      assert forall i :: 0 <= i < |q| ==> q[i] == p[i];
      PathStays(h, q, s);
      assert Obj(p[|p| - 2 + 1]) in h[p[|p| - 2]].Kids();
      assert ValueIn(s, Obj(p[|p| - 1]));
    }
  }

  /** Heaps that agree on a closed part agree on what is clean there. */
  lemma CleanElsewhere(h: Heap, g: Heap, s: set<Ref>, v: Value, avoid: set<Ref>, more: set<Ref>)
    requires ClosedUnder(h, s) && ClosedUnder(g, s) && ValueIn(s, v)
    requires forall r :: r in s ==> h[r] == g[r]
    requires Clean(h, v, avoid) && s !! more
    ensures Clean(g, v, avoid + more)
  {
    forall p | PathFrom(g, v, p)
      ensures GoodPath(g, p, avoid + more)
    {
      PathStays(g, p, s);
      assert PathFrom(h, v, p) by {
        forall i | 0 <= i < |p| - 1
          ensures Obj(p[i + 1]) in h[p[i]].Kids()
        {
          assert Obj(p[i + 1]) in g[p[i]].Kids();
        }
      }
      assert GoodPath(h, p, avoid);
    }
  }

  // ----- Unfolding -----------------------------------------------------------------------------

  datatype Tree =
    | PrimTree(p: Primitive)
    | DateTree(time: int)
    | ArrayTree(items: seq<Tree>)
    | RecordTree(fields: map<string, Tree>)

  ghost predicate DateFree(t: Tree)
    decreases t
  {
    match t
    case PrimTree(_) => true
    case DateTree(_) => false
    case ArrayTree(xs) => forall i :: 0 <= i < |xs| ==> DateFree(xs[i])
    case RecordTree(f) => forall k :: k in f ==> DateFree(f[k])
  }

  ghost function Unfold(h: Heap, v: Value, above: set<Ref>): Tree
    requires Closed(h) && ValueIn(h.Keys, v) && Clean(h, v, above)
    decreases h.Keys - above
  {
    match v
    case Prim(p) => PrimTree(p)
    case Obj(r) =>
      CleanKids(h, r, above);
      match h[r]
      case DateNode(time) => DateTree(time)
      case ArrayNode(items) =>
        ArrayTree(seq(|items|, i requires 0 <= i < |items| =>
                                (assert items[i] in h[r].Kids(); Unfold(h, items[i], above + {r}))))
      case RecordNode(_, fields, _) =>
        RecordTree(map k | k in fields :: (assert fields[k] in h[r].Kids(); Unfold(h, fields[k], above + {r})))
  }

  lemma {:induction false} UnfoldSame(h: Heap, g: Heap, s: set<Ref>, v: Value, above: set<Ref>, other: set<Ref>)
    requires Closed(h) && Closed(g) && ClosedUnder(h, s) && ClosedUnder(g, s) && ValueIn(s, v)
    requires forall r :: r in s ==> h[r] == g[r]
    requires Clean(h, v, above) && Clean(g, v, other)
    ensures Unfold(h, v, above) == Unfold(g, v, other)
    decreases h.Keys - above
  {
    if v.Obj? {
      CleanKids(h, v.ref, above);
      CleanKids(g, v.ref, other);
      forall kid | kid in h[v.ref].Kids()
        ensures Unfold(h, kid, above + {v.ref}) == Unfold(g, kid, other + {v.ref})
      {
        UnfoldSame(h, g, s, kid, above + {v.ref}, other + {v.ref});
      }
    }
  }

  /** The tree an accepted value unfolds to. */
  ghost function TreeOf(h: Heap, v: Value): Tree
    requires Accepted(h, v)
  {
    Unfold(h, v, {})
  }

  lemma KidsAccepted(h: Heap, r: Ref)
    requires Accepted(h, Obj(r))
    ensures !h[r].Unsupported?
    ensures forall v :: v in h[r].Kids() ==> Accepted(h, v) && Clean(h, v, {r}) && TreeOf(h, v) == Unfold(h, v, {r})
  {
    CleanKids(h, r, {});
    assert {} + {r} == {r};
    forall v | v in h[r].Kids()
      ensures Accepted(h, v) && Clean(h, v, {r}) && TreeOf(h, v) == Unfold(h, v, {r})
    {
      forall p | PathFrom(h, v, p)
        ensures GoodPath(h, p, {})
      {
        assert GoodPath(h, p, {r});
      }
      UnfoldSame(h, h, h.Keys, v, {}, {r});
    }
  }

  /** The tree of an object is made of the trees of what it holds. */
  lemma TreeShape(h: Heap, r: Ref)
    requires Accepted(h, Obj(r))
    ensures match h[r]
            case DateNode(time) => TreeOf(h, Obj(r)) == DateTree(time)
            case ArrayNode(items) =>
              && (forall i :: 0 <= i < |items| ==> Accepted(h, items[i]))
              && TreeOf(h, Obj(r)) ==
                 ArrayTree(seq(|items|, i requires 0 <= i < |items| => TreeOf(h, items[i])))
            case RecordNode(_, fields, _) =>
              && (forall k :: k in fields ==> Accepted(h, fields[k]))
              && TreeOf(h, Obj(r)) == RecordTree(map k | k in fields :: TreeOf(h, fields[k]))
            case Unsupported => false
  {
    match h[r] {
      case DateNode(_) =>
      case ArrayNode(_) => ArrayShape(h, r);
      case RecordNode(_, _, _) => RecordShape(h, r);
      case Unsupported => CleanKids(h, r, {});
    }
  }

  lemma ArrayShape(h: Heap, r: Ref)
    requires Accepted(h, Obj(r)) && h[r].ArrayNode?
    ensures var items := h[r].items;
            && (forall i :: 0 <= i < |items| ==> Accepted(h, items[i]))
            && TreeOf(h, Obj(r)) == ArrayTree(seq(|items|, i requires 0 <= i < |items| => TreeOf(h, items[i])))
  {
    hide Clean, Closed;
    KidsAccepted(h, r);
    CleanKids(h, r, {});
    assert {} + {r} == {r};
    var items, t := h[r].items, TreeOf(h, Obj(r));
    assert forall i :: 0 <= i < |items| ==> items[i] in h[r].Kids();
    assert forall i :: 0 <= i < |items| ==> t.items[i] == Unfold(h, items[i], {r});
    assert t.items == seq(|items|, i requires 0 <= i < |items| => TreeOf(h, items[i]));
  }

  lemma RecordShape(h: Heap, r: Ref)
    requires Accepted(h, Obj(r)) && h[r].RecordNode?
    ensures var fields := h[r].fields;
            && (forall k :: k in fields ==> Accepted(h, fields[k]))
            && TreeOf(h, Obj(r)) == RecordTree(map k | k in fields :: TreeOf(h, fields[k]))
  {
    hide Clean, Closed;
    KidsAccepted(h, r);
    CleanKids(h, r, {});
    assert {} + {r} == {r};
    var fields, t := h[r].fields, TreeOf(h, Obj(r));
    assert forall k :: k in fields ==> fields[k] in h[r].Kids();
    assert forall k :: k in fields ==> t.fields[k] == Unfold(h, fields[k], {r});
    assert t.fields == map k | k in fields :: TreeOf(h, fields[k]);
  }

  /** Heaps that agree on a closed part agree on the trees there. */
  lemma TreeElsewhere(h: Heap, g: Heap, s: set<Ref>, v: Value)
    requires Closed(g) && ClosedUnder(h, s) && ValueIn(s, v) && Accepted(h, v)
    requires forall r :: r in s ==> r in g && h[r] == g[r]
    ensures Accepted(g, v) && TreeOf(g, v) == TreeOf(h, v)
  {
    assert ClosedUnder(g, s);
    CleanElsewhere(h, g, s, v, {}, {});
    var none: set<Ref> := {};
    assert none + none == none;
    UnfoldSame(h, g, s, v, {}, {});
  }

  // ----- Properties of everything that is reachable ---------------------------------------------

  /** Every object on a path from `v` satisfies `f`. */
  ghost predicate Throughout(h: Heap, v: Value, f: Node -> bool) {
    forall p :: PathFrom(h, v, p) ==> f(h[p[|p| - 1]])
  }

  lemma ThroughoutKids(h: Heap, r: Ref, f: Node -> bool)
    requires r in h
    ensures Throughout(h, Obj(r), f) <==> f(h[r]) && forall v :: v in h[r].Kids() ==> Throughout(h, v, f)
  {
    if Throughout(h, Obj(r), f) {
      assert PathFrom(h, Obj(r), [r]);
      forall v, p | v in h[r].Kids() && PathFrom(h, v, p)
        ensures f(h[p[|p| - 1]])
      {
        PathExtend(h, r, v, p);
        assert ([r] + p)[|p|] == p[|p| - 1];
      }
    }
    if f(h[r]) && forall v :: v in h[r].Kids() ==> Throughout(h, v, f) {
      forall p | PathFrom(h, Obj(r), p)
        ensures f(h[p[|p| - 1]])
      {
        if |p| > 1 {
          PathRest(h, p);
        }
      }
    }
  }

  lemma PathRest(h: Heap, p: seq<Ref>)
    requires IsPath(h, p) && |p| > 1
    ensures Obj(p[1]) in h[p[0]].Kids() && PathFrom(h, Obj(p[1]), p[1..]) && p[1..][|p| - 2] == p[|p| - 1]
  {
    assert Obj(p[0 + 1]) in h[p[0]].Kids();
    var q := p[1..];
    forall i | 0 <= i < |q| - 1
      ensures Obj(q[i + 1]) in h[q[i]].Kids()
    {
      assert Obj(p[i + 1 + 1]) in h[p[i + 1]].Kids();
    }
  }

  lemma NothingReachable(h: Heap, p: Primitive, f: Node -> bool)
    ensures Throughout(h, Prim(p), f)
  {
  }

  const NOT_DATE: Node -> bool := (node: Node) => !node.DateNode?

  /** A tree is free of dates exactly when none can be reached. */
  lemma {:induction false} DatesReachable(h: Heap, v: Value, above: set<Ref>)
    requires Closed(h) && ValueIn(h.Keys, v) && Clean(h, v, above)
    ensures DateFree(Unfold(h, v, above)) <==> Throughout(h, v, NOT_DATE)
    decreases h.Keys - above
  {
    if v.Obj? {
      var r := v.ref;
      CleanKids(h, r, above);
      ThroughoutKids(h, r, NOT_DATE);
      forall kid | kid in h[r].Kids()
        ensures DateFree(Unfold(h, kid, above + {r})) <==> Throughout(h, kid, NOT_DATE)
      {
        DatesReachable(h, kid, above + {r});
      }
      hide Throughout, Clean;
      UnfoldedDates(h, r, above);
    }
  }

  lemma UnfoldedDates(h: Heap, r: Ref, above: set<Ref>)
    requires Closed(h) && r in h && Clean(h, Obj(r), above)
    ensures forall kid :: kid in h[r].Kids() ==> ValueIn(h.Keys, kid) && Clean(h, kid, above + {r})
    ensures DateFree(Unfold(h, Obj(r), above)) <==>
            !h[r].DateNode? && forall kid :: kid in h[r].Kids() ==> DateFree(Unfold(h, kid, above + {r}))
  {
    hide Clean, Closed;
    CleanKids(h, r, above);
    match h[r] {
      case ArrayNode(_) => ArrayDates(h, r, above);
      case RecordNode(_, _, _) => RecordDates(h, r, above);
      case _ =>
    }
  }

  lemma ArrayDates(h: Heap, r: Ref, above: set<Ref>)
    requires Closed(h) && r in h && Clean(h, Obj(r), above) && h[r].ArrayNode?
    requires forall kid :: kid in h[r].Kids() ==> ValueIn(h.Keys, kid) && Clean(h, kid, above + {r})
    ensures DateFree(Unfold(h, Obj(r), above)) <==>
            forall kid :: kid in h[r].Kids() ==> DateFree(Unfold(h, kid, above + {r}))
  {
    hide Clean, Closed;
    var items, t := h[r].items, Unfold(h, Obj(r), above);
    assert forall i :: 0 <= i < |items| ==> items[i] in h[r].Kids();
    assert forall i :: 0 <= i < |items| ==> t.items[i] == Unfold(h, items[i], above + {r});
  }

  lemma RecordDates(h: Heap, r: Ref, above: set<Ref>)
    requires Closed(h) && r in h && Clean(h, Obj(r), above) && h[r].RecordNode?
    requires forall kid :: kid in h[r].Kids() ==> ValueIn(h.Keys, kid) && Clean(h, kid, above + {r})
    ensures DateFree(Unfold(h, Obj(r), above)) <==>
            forall kid :: kid in h[r].Kids() ==> DateFree(Unfold(h, kid, above + {r}))
  {
    hide Clean, Closed;
    var fields, t := h[r].fields, Unfold(h, Obj(r), above);
    assert forall k :: k in fields ==> fields[k] in h[r].Kids();
    assert forall k :: k in fields ==> t.fields[k] == Unfold(h, fields[k], above + {r});
  }

  // ----- Assigning the entries of a record to a new object --------------------------------------

  /** Assigning the record's entries to an object of the same prototype loses the entry `__proto__`. */
  predicate LosesProto(node: Node) {
    node.RecordNode? && node.proto.accessor && PROTO in node.fields
  }

  /** No assignment is refused as long as the prototype stays the same. */
  predicate Assignable(node: Node) {
    node.RecordNode? ==> node.proto.readOnly !! node.fields.Keys
  }

  const COPYABLE: Node -> bool := (node: Node) => !LosesProto(node) && Assignable(node)
  const KEEPS_PROTO: Node -> bool := (node: Node) => !LosesProto(node)

  function WithoutProto(keys: seq<string>): (kept: seq<string>)
    ensures forall k :: k in kept <==> k in keys && k != PROTO
  {
    if keys == [] then []
    else WithoutProto(keys[..|keys| - 1]) + if keys[|keys| - 1] == PROTO then [] else [keys[|keys| - 1]]
  }

  lemma {:induction false} WithoutProtoDistinct(keys: seq<string>)
    requires forall i, j :: 0 <= i < j < |keys| ==> keys[i] != keys[j]
    ensures var kept := WithoutProto(keys); forall i, j :: 0 <= i < j < |kept| ==> kept[i] != kept[j]
  {
    if keys != [] {
      var init := keys[..|keys| - 1];
      WithoutProtoDistinct(init);
      assert forall i :: 0 <= i < |WithoutProto(init)| ==> WithoutProto(init)[i] in init;
    }
  }

  /** What is left of an object's entries. */
  function Stripped(node: Node): Node {
    if LosesProto(node) then RecordNode(WithoutProto(node.keys), node.fields - {PROTO}, node.proto) else node
  }

  function Strip(h: Heap): Heap {
    map r | r in h :: Stripped(h[r])
  }

  lemma StripNode(node: Node)
    requires node.WellFormed()
    ensures Stripped(node).WellFormed() && Stripped(node).Kids() <= node.Kids()
    ensures Stripped(node).Unsupported? <==> node.Unsupported?
    ensures Stripped(node).DateNode? <==> node.DateNode?
  {
    if LosesProto(node) {
      WithoutProtoDistinct(node.keys);
      var keys := Stripped(node).keys;
      assert keys == WithoutProto(node.keys);
      assert forall i, j :: 0 <= i < j < |keys| ==> keys[i] != keys[j];
    }
  }

  lemma StripClean(h: Heap, v: Value, above: set<Ref>)
    requires Closed(h) && ValueIn(h.Keys, v) && Clean(h, v, above)
    ensures Closed(Strip(h)) && Clean(Strip(h), v, above)
  {
    var g := Strip(h);
    forall r | r in h
      ensures g[r].WellFormed() && g[r].Kids() <= h[r].Kids() && (g[r].Unsupported? <==> h[r].Unsupported?)
    {
      StripNode(h[r]);
    }
    forall p | PathFrom(g, v, p)
      ensures GoodPath(g, p, above)
    {
      assert PathFrom(h, v, p) by {
        forall i | 0 <= i < |p| - 1
          ensures Obj(p[i + 1]) in h[p[i]].Kids()
        {
          assert Obj(p[i + 1]) in g[p[i]].Kids();
        }
      }
      assert GoodPath(h, p, above);
    }
  }

  lemma StripAccepted(h: Heap, v: Value)
    requires Accepted(h, v)
    ensures Accepted(Strip(h), v)
  {
    StripClean(h, v, {});
  }

  /** The tree without lost entries is the tree exactly when no record that is reachable loses one. */
  lemma {:induction false} StripExact(h: Heap, v: Value, above: set<Ref>)
    requires Closed(h) && ValueIn(h.Keys, v) && Clean(h, v, above)
    requires Closed(Strip(h)) && Clean(Strip(h), v, above)
    ensures Unfold(Strip(h), v, above) == Unfold(h, v, above) <==> Throughout(h, v, KEEPS_PROTO)
    decreases h.Keys - above
  {
    hide Throughout, Clean, Strip, Closed;
    if v.Obj? {
      var r, g := v.ref, Strip(h);
      StripAt(h, r);
      CleanKids(h, r, above);
      CleanKids(g, r, above);
      ThroughoutKids(h, r, KEEPS_PROTO);
      if !LosesProto(h[r]) {
        forall kid | kid in h[r].Kids()
          ensures Unfold(g, kid, above + {r}) == Unfold(h, kid, above + {r}) <==> Throughout(h, kid, KEEPS_PROTO)
        {
          StripExact(h, kid, above + {r});
        }
        UnfoldsEqual(h, g, r, above);
      } else {
        assert PROTO in Unfold(h, v, above).fields && PROTO !in Unfold(g, v, above).fields;
      }
    } else {
      NothingReachable(h, v.p, KEEPS_PROTO);
    }
  }

  lemma StripAt(h: Heap, r: Ref)
    requires r in h
    ensures r in Strip(h) && Strip(h)[r] == Stripped(h[r]) && Strip(h).Keys == h.Keys
  {
  }

  /** The kids of an object that both heaps hold unfold in both. */
  ghost predicate KidsUnfold(h: Heap, g: Heap, r: Ref, above: set<Ref>)
    requires r in h
  {
    forall kid :: kid in h[r].Kids() ==>
      && ValueIn(h.Keys, kid) && Clean(h, kid, above + {r})
      && ValueIn(g.Keys, kid) && Clean(g, kid, above + {r})
  }

  lemma ArraysUnfoldEqual(h: Heap, g: Heap, r: Ref, above: set<Ref>)
    requires Closed(h) && Closed(g) && r in h && r in g && h[r] == g[r] && h[r].ArrayNode?
    requires Clean(h, Obj(r), above) && Clean(g, Obj(r), above) && KidsUnfold(h, g, r, above)
    requires forall kid :: kid in h[r].Kids() ==> Unfold(g, kid, above + {r}) == Unfold(h, kid, above + {r})
    ensures Unfold(g, Obj(r), above) == Unfold(h, Obj(r), above)
  {
    hide Clean, Closed;
    var items, t, u := h[r].items, Unfold(h, Obj(r), above), Unfold(g, Obj(r), above);
    forall i | 0 <= i < |items|
      ensures t.items[i] == u.items[i]
    {
      assert items[i] in h[r].Kids();
    }
    assert t.items == u.items;
  }

  lemma RecordsUnfoldEqual(h: Heap, g: Heap, r: Ref, above: set<Ref>)
    requires Closed(h) && Closed(g) && r in h && r in g && h[r] == g[r] && h[r].RecordNode?
    requires Clean(h, Obj(r), above) && Clean(g, Obj(r), above) && KidsUnfold(h, g, r, above)
    requires forall kid :: kid in h[r].Kids() ==> Unfold(g, kid, above + {r}) == Unfold(h, kid, above + {r})
    ensures Unfold(g, Obj(r), above) == Unfold(h, Obj(r), above)
  {
    hide Clean, Closed;
    var fields, t, u := h[r].fields, Unfold(h, Obj(r), above), Unfold(g, Obj(r), above);
    forall k | k in fields
      ensures t.fields[k] == u.fields[k]
    {
      assert fields[k] in h[r].Kids();
    }
    assert t.fields == u.fields;
  }

  /** Equal trees of an object have equal trees of its kids. */
  lemma KidsUnfoldEqual(h: Heap, g: Heap, r: Ref, above: set<Ref>, kid: Value)
    requires Closed(h) && Closed(g) && r in h && r in g && h[r] == g[r] && kid in h[r].Kids()
    requires Clean(h, Obj(r), above) && Clean(g, Obj(r), above) && KidsUnfold(h, g, r, above)
    requires Unfold(g, Obj(r), above) == Unfold(h, Obj(r), above)
    ensures Unfold(g, kid, above + {r}) == Unfold(h, kid, above + {r})
  {
    hide Clean, Closed;
    var t, u := Unfold(h, Obj(r), above), Unfold(g, Obj(r), above);
    match h[r] {
      case ArrayNode(items) =>
        var i :| 0 <= i < |items| && items[i] == kid;
        assert t.items[i] == u.items[i];
      case RecordNode(_, fields, _) =>
        var k :| k in fields && fields[k] == kid;
        assert t.fields[k] == u.fields[k];
      case _ =>
    }
  }

  /** Trees of the same object in two heaps are equal exactly when the trees of its kids are. */
  lemma UnfoldsEqual(h: Heap, g: Heap, r: Ref, above: set<Ref>)
    requires Closed(h) && Closed(g) && r in h && r in g && h[r] == g[r]
    requires Clean(h, Obj(r), above) && Clean(g, Obj(r), above)
    ensures KidsUnfold(h, g, r, above)
    ensures Unfold(g, Obj(r), above) == Unfold(h, Obj(r), above) <==>
            forall kid :: kid in h[r].Kids() ==> Unfold(g, kid, above + {r}) == Unfold(h, kid, above + {r})
  {
    hide Clean, Closed;
    CleanKids(h, r, above);
    CleanKids(g, r, above);
    if Unfold(g, Obj(r), above) == Unfold(h, Obj(r), above) {
      forall kid | kid in h[r].Kids()
        ensures Unfold(g, kid, above + {r}) == Unfold(h, kid, above + {r})
      {
        KidsUnfoldEqual(h, g, r, above, kid);
      }
    }
    if forall kid :: kid in h[r].Kids() ==> Unfold(g, kid, above + {r}) == Unfold(h, kid, above + {r}) {
      match h[r] {
        case ArrayNode(_) => ArraysUnfoldEqual(h, g, r, above);
        case RecordNode(_, _, _) => RecordsUnfoldEqual(h, g, r, above);
        case _ =>
      }
    }
  }

  /** What an object that has got this frozen one as its prototype inherits. */
  function AsProto(node: Node): Proto {
    match node
    case ArrayNode(items) => Proto(true, {"length"} + set i | 0 <= i < |items| :: T.Numeral(i))
    case RecordNode(_, fields, proto) =>
      Proto(proto.accessor && PROTO !in fields, fields.Keys + proto.readOnly)
    case _ => PLAIN
  }

  /** The names that such an object cannot assign: those of the frozen one's own properties and what that inherits. */
  lemma CannotAssign(node: Node, name: string)
    ensures node.ArrayNode? ==>
              AsProto(node).accessor &&
              (name in AsProto(node).readOnly <==>
               name == "length" || exists i: nat :: i < |node.items| && name == T.Numeral(i))
    ensures node.RecordNode? ==>
              && (AsProto(node).accessor <==> node.proto.accessor && "__proto__" !in node.fields)
              && (name in AsProto(node).readOnly <==> name in node.fields || name in node.proto.readOnly)
    ensures !node.ArrayNode? && !node.RecordNode? ==> AsProto(node) == Proto(true, {})
  {
    if node.ArrayNode? && name != "length" {
      if name in AsProto(node).readOnly {
        var i :| 0 <= i < |node.items| && name == T.Numeral(i);
        assert exists j: nat :: j < |node.items| && name == T.Numeral(j);
      }
    }
  }

  lemma AsProtoFits(node: Node)
    requires node.WellFormed()
    ensures PROTO in AsProto(node).readOnly ==> !AsProto(node).accessor
  {
    if node.ArrayNode? {
      assert PROTO[0] != "length"[0];
      forall i | 0 <= i < |node.items|
        ensures T.Numeral(i) != PROTO
      {
        assert T.IsDigit(T.Numeral(i)[0]) && !T.IsDigit(PROTO[0]);
      }
    }
  }

  // ----- The prototypes of copies --------------------------------------------------------------

  /** What an object inherits after `object.__proto__ = item`, if it inherited `proto` before. */
  ghost function Reassigned(proto: Proto, item: Value, itemProto: Proto): Proto {
    if item.Obj? then itemProto else if item.p == Null then Proto(false, {}) else proto
  }

  /** What an object that has got the frozen copy of `v` as its prototype inherits; for primitives it is no matter. */
  ghost function CopyProto(h: Heap, v: Value, above: set<Ref>): Proto
    requires Closed(h) && ValueIn(h.Keys, v) && Clean(h, v, above)
    decreases h.Keys - above
  {
    if v.Prim? then PLAIN
    else
      CleanKids(h, v.ref, above);
      var node := h[v.ref];
      if LosesProto(node) then
        assert node.fields[PROTO] in node.Kids();
        var item := node.fields[PROTO];
        AsProto(Stripped(node).(proto := Reassigned(node.proto, item, CopyProto(h, item, above + {v.ref}))))
      else AsProto(node)
  }

  lemma {:induction false} CopyProtoSame(h: Heap, v: Value, above: set<Ref>, other: set<Ref>)
    requires Closed(h) && ValueIn(h.Keys, v) && Clean(h, v, above) && Clean(h, v, other)
    ensures CopyProto(h, v, above) == CopyProto(h, v, other)
    decreases h.Keys - above
  {
    if v.Obj? {
      CleanKids(h, v.ref, above);
      CleanKids(h, v.ref, other);
      var node := h[v.ref];
      if LosesProto(node) {
        assert node.fields[PROTO] in node.Kids();
        CopyProtoSame(h, node.fields[PROTO], above + {v.ref}, other + {v.ref});
      }
    }
  }

  ghost function ProtoOfCopy(h: Heap, v: Value): Proto
    requires Accepted(h, v)
  {
    CopyProto(h, v, {})
  }

  /** The prototype of the record's copy when its first `count` entries have been assigned. */
  ghost function InForce(h: Heap, r: Ref, count: nat): Proto
    requires Accepted(h, Obj(r)) && h[r].RecordNode? && count <= |h[r].keys|
  {
    if LosesProto(h[r]) && PROTO in h[r].keys[..count] then
      KidsAccepted(h, r);
      assert h[r].fields[PROTO] in h[r].Kids();
      Reassigned(h[r].proto, h[r].fields[PROTO], ProtoOfCopy(h, h[r].fields[PROTO]))
    else h[r].proto
  }

  /** What the copy of a record passes on is what it has and what it inherits in the end. */
  lemma RecordProto(h: Heap, r: Ref)
    requires Accepted(h, Obj(r)) && h[r].RecordNode?
    ensures Stripped(h[r]).RecordNode?
    ensures ProtoOfCopy(h, Obj(r)) == AsProto(Stripped(h[r]).(proto := InForce(h, r, |h[r].keys|)))
  {
    hide Clean, AsProto;
    var node := h[r];
    assert node.WellFormed() && node.keys[..|node.keys|] == node.keys;
    if LosesProto(node) {
      CleanKids(h, r, {});
      KidsAccepted(h, r);
      assert node.fields[PROTO] in node.Kids() && {} + {r} == {r};
      CopyProtoSame(h, node.fields[PROTO], {r}, {});
    }
  }

  lemma PlainProto(h: Heap, r: Ref)
    requires Accepted(h, Obj(r)) && !h[r].RecordNode?
    ensures ProtoOfCopy(h, Obj(r)) == AsProto(h[r])
  {
  }

  // ----- Refused assignments -------------------------------------------------------------------

  /** Key `key` of record `r` is assigned when the prototype in force makes it read-only. */
  ghost predicate RefusesAt(h: Heap, r: Ref, key: string) {
    && Accepted(h, Obj(r)) && h[r].RecordNode?
    && exists i :: 0 <= i < |h[r].keys| && h[r].keys[i] == key && key in InForce(h, r, i).readOnly
  }

  ghost predicate RefusesNothing(h: Heap, r: Ref) {
    forall key: string :: !RefusesAt(h, r, key)
  }

  /** Some record that can be reached has the key refused. */
  ghost predicate Refused(h: Heap, v: Value, key: string) {
    exists p :: PathFrom(h, v, p) && RefusesAt(h, p[|p| - 1], key)
  }

  ghost predicate Unrefused(h: Heap, v: Value) {
    forall key: string :: !Refused(h, v, key)
  }

  lemma RefusedKids(h: Heap, r: Ref, key: string)
    requires r in h
    ensures Refused(h, Obj(r), key) <==> RefusesAt(h, r, key) || exists v :: v in h[r].Kids() && Refused(h, v, key)
  {
    hide RefusesAt;
    if RefusesAt(h, r, key) {
      assert PathFrom(h, Obj(r), [r]) && [r][|[r]| - 1] == r;
    }
    if v :| v in h[r].Kids() && Refused(h, v, key) {
      var p :| PathFrom(h, v, p) && RefusesAt(h, p[|p| - 1], key);
      PathExtend(h, r, v, p);
      assert ([r] + p)[|[r] + p| - 1] == p[|p| - 1];
    }
    if p :| PathFrom(h, Obj(r), p) && RefusesAt(h, p[|p| - 1], key) {
      if |p| > 1 {
        PathRest(h, p);
        var q := p[1..];
        assert q[|q| - 1] == p[|p| - 1] && PathFrom(h, Obj(p[1]), q);
        assert Refused(h, Obj(p[1]), key);
      }
    }
  }

  lemma UnrefusedKids(h: Heap, r: Ref)
    requires r in h
    ensures Unrefused(h, Obj(r)) <==>
            RefusesNothing(h, r) && forall v :: v in h[r].Kids() ==> Unrefused(h, v)
  {
    hide RefusesAt, Refused;
    forall key: string
      ensures Refused(h, Obj(r), key) <==> RefusesAt(h, r, key) || exists v :: v in h[r].Kids() && Refused(h, v, key)
    {
      RefusedKids(h, r, key);
    }
    if v :| v in h[r].Kids() && !Unrefused(h, v) {
      var key :| Refused(h, v, key);
      assert Refused(h, Obj(r), key);
    }
  }

  /** A record whose copy keeps its prototype refuses exactly the keys that it inherits read-only. */
  lemma OwnKeysRefused(h: Heap, r: Ref)
    requires Accepted(h, Obj(r)) && !LosesProto(h[r])
    ensures RefusesNothing(h, r) <==> Assignable(h[r])
  {
    if h[r].RecordNode? {
      forall key
        ensures RefusesAt(h, r, key) <==> key in h[r].fields && key in h[r].proto.readOnly
      {
        assert h[r].WellFormed();
        if key in h[r].fields {
          var i :| 0 <= i < |h[r].keys| && h[r].keys[i] == key;
          assert InForce(h, r, i) == h[r].proto;
        }
      }
      hide RefusesAt;
    }
  }

  /** Nothing is lost and nothing refused exactly when every reachable object can be copied by assignment. */
  lemma RefusedExactly(h: Heap, v: Value)
    requires Accepted(h, v)
    ensures Throughout(h, v, KEEPS_PROTO) && Unrefused(h, v) <==> Throughout(h, v, COPYABLE)
  {
    hide Accepted, RefusesAt, Assignable;
    forall p | PathFrom(h, v, p)
      ensures KEEPS_PROTO(h[p[|p| - 1]]) && RefusesNothing(h, p[|p| - 1]) <==> COPYABLE(h[p[|p| - 1]])
    {
      PathAccepted(h, v, p);
      if KEEPS_PROTO(h[p[|p| - 1]]) {
        OwnKeysRefused(h, p[|p| - 1]);
      }
    }
    UnrefusedPaths(h, v);
  }

  lemma UnrefusedPaths(h: Heap, v: Value)
    ensures Unrefused(h, v) <==> forall p :: PathFrom(h, v, p) ==> RefusesNothing(h, p[|p| - 1])
  {
    hide RefusesAt;
    if Unrefused(h, v) {
      forall p | PathFrom(h, v, p)
        ensures RefusesNothing(h, p[|p| - 1])
      {
        var r := p[|p| - 1];
        forall key: string
          ensures !RefusesAt(h, r, key)
        {
          assert RefusesAt(h, r, key) ==> Refused(h, v, key);
        }
      }
    }
  }

  /** Everything that can be reached from an accepted value is accepted. */
  lemma {:induction false} PathAccepted(h: Heap, v: Value, p: seq<Ref>)
    requires Accepted(h, v) && PathFrom(h, v, p)
    ensures Accepted(h, Obj(p[|p| - 1]))
    decreases |p|
  {
    if |p| > 1 {
      KidsAccepted(h, p[0]);
      PathRest(h, p);
      PathAccepted(h, Obj(p[1]), p[1..]);
    }
  }
}
