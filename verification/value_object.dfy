/** src/core/domain/value-object.ts */
module ValueObjects {
  import opened Wrappers
  import opened ObjectGraph

  // ----- assertSupportedProps ------------------------------------------------------------------

  datatype PropsError = UnsupportedKind | Cycle

  /** The WeakSet of objects on the way from the root. */
  class ObjectSet {
    var members: set<Ref>

    constructor ()
      ensures members == {}
    {
      members := {};
    }
  }

  ghost predicate Offence(h: Heap, p: seq<Ref>, above: set<Ref>, e: PropsError)
    requires IsPath(h, p)
  {
    var last := p[|p| - 1];
    match e
    case UnsupportedKind => h[last].Unsupported?
    case Cycle => last in above || last in p[..|p| - 1]
  }

  /** Some path from `v` ends in what error `e` complains about. */
  ghost predicate Offends(h: Heap, v: Value, above: set<Ref>, e: PropsError) {
    exists p :: PathFrom(h, v, p) && Offence(h, p, above, e)
  }

  lemma OffendingIsNotClean(h: Heap, v: Value, above: set<Ref>, e: PropsError)
    requires Offends(h, v, above, e)
    ensures !Clean(h, v, above)
  {
    var p :| PathFrom(h, v, p) && Offence(h, p, above, e);
    if e == Cycle && p[|p| - 1] !in above {
      var i :| 0 <= i < |p| - 1 && p[i] == p[|p| - 1];
      assert !GoodPath(h, p, above);
    }
  }

  lemma KidOffends(h: Heap, r: Ref, v: Value, above: set<Ref>, e: PropsError)
    requires r in h && v in h[r].Kids() && Offends(h, v, above + {r}, e)
    ensures Offends(h, Obj(r), above, e)
  {
    var p :| PathFrom(h, v, p) && Offence(h, p, above + {r}, e);
    PathExtend(h, r, v, p);
    var q := [r] + p;
    assert q[|q| - 1] == p[|p| - 1] && q[..|q| - 1] == [r] + p[..|p| - 1];
    assert Offence(h, q, above, e);
  }

  lemma ObjectOffends(h: Heap, r: Ref, above: set<Ref>, e: PropsError)
    requires r in h && (if e.Cycle? then r in above else h[r].Unsupported?)
    ensures Offends(h, Obj(r), above, e)
  {
    assert PathFrom(h, Obj(r), [r]) && Offence(h, [r], above, e);
  }

  /** Accepts exactly the clean values and leaves the ancestors as they were. */
  method AssertSupportedProps(h: Heap, value: Value, ancestors: ObjectSet) returns (r: Outcome<PropsError>)
    requires Closed(h) && ValueIn(h.Keys, value)
    requires forall a :: a in ancestors.members ==> a in h && !h[a].DateNode?
    modifies ancestors
    ensures r.Pass? <==> Clean(h, value, old(ancestors.members))
    ensures r.Pass? ==> ancestors.members == old(ancestors.members)
    ensures r.Fail? ==> Offends(h, value, old(ancestors.members), r.error)
    decreases h.Keys - ancestors.members
  {
    if value.Prim? {
      return Pass;
    }
    var ref := value.ref;
    ghost var above := ancestors.members;
    if h[ref].DateNode? {
      CleanFromKids(h, ref, above);
      return Pass;
    }
    if h[ref].Unsupported? {
      ObjectOffends(h, ref, above, UnsupportedKind);
      OffendingIsNotClean(h, value, above, UnsupportedKind);
      return Fail(UnsupportedKind);
    }
    if ref in ancestors.members {
      ObjectOffends(h, ref, above, Cycle);
      OffendingIsNotClean(h, value, above, Cycle);
      return Fail(Cycle);
    }
    ancestors.members := ancestors.members + {ref};
    var items := ItemsOf(h[ref]);
    for i := 0 to |items|
      invariant ancestors.members == above + {ref}
      invariant forall j :: 0 <= j < i ==> Clean(h, items[j], above + {ref})
    {
      r := AssertSupportedProps(h, items[i], ancestors);
      if r.Fail? {
        KidOffends(h, ref, items[i], above, r.error);
        OffendingIsNotClean(h, value, above, r.error);
        return;
      }
    }
    CleanFromKids(h, ref, above);
    ancestors.members := ancestors.members - {ref};
    return Pass;
  }

  /** The items of an array, or the values of a record in key order. */
  function ItemsOf(node: Node): (items: seq<Value>)
    requires node.WellFormed()
    ensures forall v :: v in items <==> v in node.Kids()
  {
    match node
    case ArrayNode(items) => items
    case RecordNode(keys, fields, _) =>
      var items := seq(|keys|, i requires 0 <= i < |keys| => fields[keys[i]]);
      assert forall v :: v in node.Kids() ==> v in items by {
        forall v | v in node.Kids()
          ensures v in items
        {
          var k :| k in fields && fields[k] == v;
          var i :| 0 <= i < |keys| && keys[i] == k;
          assert items[i] == v;
        }
      }
      items
    case _ => []
  }

  // ----- structuralEqual -----------------------------------------------------------------------

  /** Equality of unfolded values, without a memo. A date and an empty record compare as equal. */
  ghost predicate SameTree(a: Tree, b: Tree)
    decreases a
  {
    match (a, b)
    case (PrimTree(p), PrimTree(q)) => p == q
    case (DateTree(s), DateTree(t)) => s == t
    case (ArrayTree(xs), ArrayTree(ys)) => |xs| == |ys| && forall i :: 0 <= i < |xs| ==> SameTree(xs[i], ys[i])
    case (RecordTree(f), RecordTree(g)) =>
      f.Keys == g.Keys && forall k :: k in f ==> SameTree(f[k], g[k])
    case (RecordTree(f), DateTree(_)) => f == map[]
    case (DateTree(_), RecordTree(g)) => g == map[]
    case _ => false
  }

  lemma {:induction false} SameTreeReflexive(a: Tree)
    ensures SameTree(a, a)
    decreases a
  {
    match a
    case ArrayTree(xs) =>
      forall i | 0 <= i < |xs| { SameTreeReflexive(xs[i]); }
    case RecordTree(f) =>
      forall k | k in f { SameTreeReflexive(f[k]); }
    case _ =>
  }

  lemma {:induction false} SameTreeSymmetric(a: Tree, b: Tree)
    requires SameTree(a, b)
    ensures SameTree(b, a)
    decreases a
  {
    match (a, b)
    case (ArrayTree(xs), ArrayTree(ys)) =>
      forall i | 0 <= i < |xs| { SameTreeSymmetric(xs[i], ys[i]); }
    case (RecordTree(f), RecordTree(g)) =>
      forall k | k in f { SameTreeSymmetric(f[k], g[k]); }
    case _ =>
  }

  /** On values without dates structural equality is equality of the unfolded trees. */
  lemma {:induction false} SameTreeIsEquality(a: Tree, b: Tree)
    requires DateFree(a) && DateFree(b)
    ensures SameTree(a, b) <==> a == b
    decreases a
  {
    SameTreeReflexive(a);
    match (a, b)
    case (ArrayTree(xs), ArrayTree(ys)) =>
      if |xs| == |ys| {
        forall i | 0 <= i < |xs| { SameTreeIsEquality(xs[i], ys[i]); }
        if SameTree(a, b) {
          assert xs == ys;
        }
      }
    case (RecordTree(f), RecordTree(g)) =>
      if f.Keys == g.Keys {
        forall k | k in f { SameTreeIsEquality(f[k], g[k]); }
        if SameTree(a, b) {
          assert f == g;
        }
      }
    case _ =>
  }

  /** Some record without keys occurs in the tree. */
  ghost predicate HasEmptyRecord(t: Tree)
    decreases t
  {
    match t
    case ArrayTree(xs) => exists i :: 0 <= i < |xs| && HasEmptyRecord(xs[i])
    case RecordTree(f) => f == map[] || exists k :: k in f && HasEmptyRecord(f[k])
    case _ => false
  }

  ghost predicate TransitiveThrough(b: Tree) {
    forall a, c :: SameTree(a, b) && SameTree(b, c) ==> SameTree(a, c)
  }

  /** Two values that equal a third one equal each other ... */
  lemma {:induction false} EqualThrough(a: Tree, b: Tree, c: Tree)
    requires SameTree(a, b) && SameTree(b, c) && !HasEmptyRecord(b)
    ensures SameTree(a, c)
    decreases b
  {
    match b
    case ArrayTree(xs) =>
      forall i | 0 <= i < |xs| { EqualThrough(a.items[i], xs[i], c.items[i]); }
    case RecordTree(f) =>
      forall k | k in f { EqualThrough(a.fields[k], f[k], c.fields[k]); }
    case _ =>
  }

  /** The tree with a date in the place of each empty record. */
  ghost function Dated(t: Tree, time: int): Tree
    decreases t
  {
    match t
    case ArrayTree(xs) => ArrayTree(seq(|xs|, i requires 0 <= i < |xs| => Dated(xs[i], time)))
    case RecordTree(f) => if f == map[] then DateTree(time) else RecordTree(map k | k in f :: Dated(f[k], time))
    case _ => t
  }

  lemma {:induction false} DatedIsSame(t: Tree, time: int)
    ensures SameTree(Dated(t, time), t) && SameTree(t, Dated(t, time))
    decreases t
  {
    match t
    case ArrayTree(xs) =>
      forall i | 0 <= i < |xs| { DatedIsSame(xs[i], time); }
    case RecordTree(f) =>
      forall k | k in f { DatedIsSame(f[k], time); }
    case _ =>
  }

  lemma {:induction false} DatesTellApart(t: Tree, x: int, y: int)
    requires HasEmptyRecord(t) && x != y
    ensures !SameTree(Dated(t, x), Dated(t, y))
    decreases t
  {
    match t
    case ArrayTree(xs) =>
      var i :| 0 <= i < |xs| && HasEmptyRecord(xs[i]);
      DatesTellApart(xs[i], x, y);
      assert Dated(t, x).items[i] == Dated(xs[i], x) && Dated(t, y).items[i] == Dated(xs[i], y);
    case RecordTree(f) =>
      if f != map[] {
        var k :| k in f && HasEmptyRecord(f[k]);
        DatesTellApart(f[k], x, y);
        assert Dated(t, x).fields[k] == Dated(f[k], x) && Dated(t, y).fields[k] == Dated(f[k], y);
      }
  }

  /** ... for all such values exactly when the third holds no empty record: every date compares equal to one. */
  lemma TransitiveExactly(b: Tree)
    ensures TransitiveThrough(b) <==> !HasEmptyRecord(b)
  {
    if HasEmptyRecord(b) {
      DatedIsSame(b, 0);
      DatedIsSame(b, 1);
      DatesTellApart(b, 0, 1);
    } else {
      forall a, c | SameTree(a, b) && SameTree(b, c)
        ensures SameTree(a, c)
      {
        EqualThrough(a, b, c);
      }
    }
  }

  /** Accepted values that unfold to trees of the same structure. */
  ghost predicate Same(h: Heap, v: Value, w: Value) {
    Accepted(h, v) && Accepted(h, w) && SameTree(TreeOf(h, v), TreeOf(h, w))
  }

  /** The WeakMap from left objects to the right object last compared with. */
  class PairMemo {
    var pairs: map<Ref, Ref>

    constructor ()
      ensures pairs == map[]
    {
      pairs := map[];
    }
  }

  /** Every memoised pair is under comparison or was found equal. */
  ghost predicate MemoSound(h: Heap, pairs: map<Ref, Ref>, stack: set<Ref>) {
    forall l :: l in pairs && l !in stack ==> Same(h, Obj(l), Obj(pairs[l]))
  }

  ghost predicate Extends(old_: map<Ref, Ref>, new_: map<Ref, Ref>, on: set<Ref>) {
    forall l :: l in on && l in old_ ==> l in new_ && new_[l] == old_[l]
  }

  method StructuralEqual(h: Heap, left: Value, right: Value, seen: PairMemo, ghost stack: set<Ref>)
    returns (equal: bool)
    requires Accepted(h, left) && Accepted(h, right) && Clean(h, left, stack)
    requires MemoSound(h, seen.pairs, stack)
    modifies seen
    ensures equal <==> Same(h, left, right)
    ensures equal ==> MemoSound(h, seen.pairs, stack)
    ensures Extends(old(seen.pairs), seen.pairs, stack)
    decreases h.Keys - stack
  {
    if left == right {
      SameTreeReflexive(TreeOf(h, left));
      return true;
    }
    if left.Prim? || right.Prim? {
      if left.Obj? {
        TreeShape(h, left.ref);
      } else if right.Obj? {
        TreeShape(h, right.ref);
      }
      return false;
    }
    var l, r := left.ref, right.ref;
    TreeShape(h, l);
    TreeShape(h, r);
    CleanKids(h, l, stack);
    if h[l].DateNode? && h[r].DateNode? {
      return h[l].time == h[r].time;
    }
    if l in seen.pairs && seen.pairs[l] == r {
      return true;
    }
    seen.pairs := seen.pairs[l := r];
    if h[l].ArrayNode? != h[r].ArrayNode? {
      return false;
    }
    if h[l].ArrayNode? {
      equal := ArraysEqual(h, l, r, seen, stack);
    } else {
      equal := RecordsEqual(h, l, r, seen, stack);
    }
  }

  method ArraysEqual(h: Heap, l: Ref, r: Ref, seen: PairMemo, ghost stack: set<Ref>) returns (equal: bool)
    requires Accepted(h, Obj(l)) && Accepted(h, Obj(r)) && Clean(h, Obj(l), stack) && l !in stack
    requires h[l].ArrayNode? && h[r].ArrayNode?
    requires MemoSound(h, seen.pairs, stack + {l}) && l in seen.pairs && seen.pairs[l] == r
    modifies seen
    ensures equal <==> Same(h, Obj(l), Obj(r))
    ensures equal ==> MemoSound(h, seen.pairs, stack)
    ensures Extends(old(seen.pairs), seen.pairs, stack)
    decreases h.Keys - stack, 0
  {
    hide MemoSound, Clean, Unfold;
    TreeShape(h, l);
    TreeShape(h, r);
    CleanKids(h, l, stack);
    var xs, ys := h[l].items, h[r].items;
    if |xs| != |ys| {
      return false;
    }
    for i := 0 to |xs|
      invariant MemoSound(h, seen.pairs, stack + {l})
      invariant Extends(old(seen.pairs), seen.pairs, stack + {l})
      invariant forall j :: 0 <= j < i ==> Same(h, xs[j], ys[j])
    {
      assert xs[i] in h[l].Kids();
      equal := StructuralEqual(h, xs[i], ys[i], seen, stack + {l});
      if !equal {
        assert !SameTree(TreeOf(h, Obj(l)).items[i], TreeOf(h, Obj(r)).items[i]);
        return;
      }
    }
    assert SameTree(TreeOf(h, Obj(l)), TreeOf(h, Obj(r)));
    MemoSettled(h, seen.pairs, stack, l);
    return true;
  }

  /** The own enumerable keys of an object that is not an array; a date has none. */
  function KeysOf(node: Node): seq<string> {
    if node.RecordNode? then node.keys else []
  }

  ghost predicate KeyedPair(h: Heap, l: Ref, r: Ref) {
    && Accepted(h, Obj(l)) && Accepted(h, Obj(r))
    && !h[l].ArrayNode? && !h[r].ArrayNode? && !(h[l].DateNode? && h[r].DateNode?)
  }

  /** Both sides hold `key` with the same tree below it. */
  ghost predicate SameAt(h: Heap, l: Ref, r: Ref, key: string)
    requires l in h && r in h && h[l].WellFormed() && h[r].WellFormed()
  {
    && key in KeysOf(h[l]) && key in KeysOf(h[r])
    && Same(h, h[l].fields[key], h[r].fields[key])
  }

  lemma KeyedSame(h: Heap, l: Ref, r: Ref)
    requires KeyedPair(h, l, r)
    ensures Same(h, Obj(l), Obj(r)) <==>
            && Elements(KeysOf(h[l])) == Elements(KeysOf(h[r]))
            && forall key :: key in KeysOf(h[l]) ==> SameAt(h, l, r, key)
  {
    KeyCounts(h[l]);
    KeyCounts(h[r]);
    if h[l].RecordNode? && h[r].RecordNode? {
      RecordsSame(h, l, r);
    } else {
      KidsAccepted(h, l);
      KidsAccepted(h, r);
      assert Elements([]) == {};
      DateSame(h, l, r);
      assert forall key :: key in KeysOf(h[l]) ==> key in Elements(KeysOf(h[l]));
    }
  }

  lemma DateSame(h: Heap, l: Ref, r: Ref)
    requires KeyedPair(h, l, r) && (h[l].DateNode? || h[r].DateNode?)
    ensures Same(h, Obj(l), Obj(r)) <==>
            (h[l].RecordNode? ==> h[l].fields.Keys == {}) && (h[r].RecordNode? ==> h[r].fields.Keys == {})
  {
    TreeShape(h, l);
    TreeShape(h, r);
    var a, b := TreeOf(h, Obj(l)), TreeOf(h, Obj(r));
    if h[l].RecordNode? {
      assert a.fields.Keys == h[l].fields.Keys;
      assert a.fields.Keys == {} <==> a.fields == map[];
    } else {
      assert b.fields.Keys == h[r].fields.Keys;
      assert b.fields.Keys == {} <==> b.fields == map[];
    }
  }

  lemma RecordsSame(h: Heap, l: Ref, r: Ref)
    requires KeyedPair(h, l, r) && h[l].RecordNode? && h[r].RecordNode?
    ensures Same(h, Obj(l), Obj(r)) <==>
            && h[l].fields.Keys == h[r].fields.Keys
            && forall key :: key in h[l].fields ==> SameAt(h, l, r, key)
  {
    hide Clean, Unfold, TreeOf;
    TreeShape(h, l);
    TreeShape(h, r);
    var a, b := TreeOf(h, Obj(l)), TreeOf(h, Obj(r));
    assert a.fields.Keys == h[l].fields.Keys && b.fields.Keys == h[r].fields.Keys;
    forall key | key in h[l].fields && key in h[r].fields
      ensures SameAt(h, l, r, key) <==> SameTree(a.fields[key], b.fields[key])
    {
    }
  }

  method RecordsEqual(h: Heap, l: Ref, r: Ref, seen: PairMemo, ghost stack: set<Ref>) returns (equal: bool)
    requires KeyedPair(h, l, r) && Clean(h, Obj(l), stack) && l !in stack
    requires MemoSound(h, seen.pairs, stack + {l}) && l in seen.pairs && seen.pairs[l] == r
    modifies seen
    ensures equal <==> Same(h, Obj(l), Obj(r))
    ensures equal ==> MemoSound(h, seen.pairs, stack)
    ensures Extends(old(seen.pairs), seen.pairs, stack)
    decreases h.Keys - stack, 2
  {
    hide Same, MemoSound, Clean, SameAt;
    KeyedSame(h, l, r);
    KeyCounts(h[l]);
    KeyCounts(h[r]);
    if |KeysOf(h[l])| != |KeysOf(h[r])| {
      return false;
    }
    equal := FieldsEqual(h, l, r, seen, stack);
    if equal {
      SameKeys(KeysOf(h[l]), KeysOf(h[r]));
      MemoSettled(h, seen.pairs, stack, l);
    }
  }

  method FieldsEqual(h: Heap, l: Ref, r: Ref, seen: PairMemo, ghost stack: set<Ref>) returns (equal: bool)
    requires KeyedPair(h, l, r) && Clean(h, Obj(l), stack) && l !in stack
    requires MemoSound(h, seen.pairs, stack + {l})
    modifies seen
    ensures equal <==> forall key :: key in KeysOf(h[l]) ==> SameAt(h, l, r, key)
    ensures equal ==> forall key :: key in KeysOf(h[l]) ==> key in KeysOf(h[r])
    ensures equal ==> MemoSound(h, seen.pairs, stack + {l})
    ensures Extends(old(seen.pairs), seen.pairs, stack + {l})
    decreases h.Keys - stack, 1
  {
    hide Same, SameAt, MemoSound;
    var keys := KeysOf(h[l]);
    for i := 0 to |keys|
      invariant MemoSound(h, seen.pairs, stack + {l})
      invariant Extends(old(seen.pairs), seen.pairs, stack + {l})
      invariant forall j :: 0 <= j < i ==> keys[j] in KeysOf(h[r]) && SameAt(h, l, r, keys[j])
    {
      equal := FieldEqual(h, l, r, keys[i], seen, stack);
      if !equal {
        return;
      }
    }
    return true;
  }

  lemma MemoSettled(h: Heap, pairs: map<Ref, Ref>, stack: set<Ref>, l: Ref)
    requires MemoSound(h, pairs, stack + {l}) && l in pairs && Same(h, Obj(l), Obj(pairs[l]))
    ensures MemoSound(h, pairs, stack)
  {
  }

  method FieldEqual(h: Heap, l: Ref, r: Ref, key: string, seen: PairMemo, ghost stack: set<Ref>)
    returns (equal: bool)
    requires KeyedPair(h, l, r) && Clean(h, Obj(l), stack) && l !in stack && key in KeysOf(h[l])
    requires MemoSound(h, seen.pairs, stack + {l})
    modifies seen
    ensures equal <==> SameAt(h, l, r, key)
    ensures equal ==> key in KeysOf(h[r])
    ensures equal ==> MemoSound(h, seen.pairs, stack + {l})
    ensures Extends(old(seen.pairs), seen.pairs, stack + {l})
    decreases h.Keys - stack, 0
  {
    if key !in KeysOf(h[r]) {
      return false;
    }
    FieldsAccepted(h, l, key, stack);
    FieldsAccepted(h, r, key, {});
    equal := StructuralEqual(h, h[l].fields[key], h[r].fields[key], seen, stack + {l});
  }

  lemma FieldsAccepted(h: Heap, r: Ref, key: string, above: set<Ref>)
    requires Accepted(h, Obj(r)) && Clean(h, Obj(r), above) && key in KeysOf(h[r])
    ensures Accepted(h, h[r].fields[key]) && Clean(h, h[r].fields[key], above + {r})
  {
    assert h[r].fields[key] in h[r].Kids();
    KidsAccepted(h, r);
    CleanKids(h, r, above);
  }

  ghost function Elements(s: seq<string>): set<string> {
    set x | x in s
  }

  lemma KeyCounts(node: Node)
    requires node.WellFormed()
    ensures |KeysOf(node)| == |Elements(KeysOf(node))|
    ensures node.RecordNode? ==> Elements(node.keys) == node.fields.Keys
  {
    DistinctCount(KeysOf(node));
  }

  lemma {:induction false} DistinctCount(s: seq<string>)
    requires forall i, j :: 0 <= i < j < |s| ==> s[i] != s[j]
    ensures |Elements(s)| == |s|
  {
    if s != [] {
      var init := s[..|s| - 1];
      DistinctCount(init);
      assert Elements(s) == Elements(init) + {s[|s| - 1]};
    }
  }

  /** Distinct keys, all found on the other side, and equally many: the same keys. */
  lemma SameKeys(xs: seq<string>, ys: seq<string>)
    requires |xs| == |Elements(xs)| == |Elements(ys)| == |ys|
    requires forall i :: 0 <= i < |xs| ==> xs[i] in ys
    ensures Elements(xs) == Elements(ys)
  {
    SubsetOfEqualSize(Elements(xs), Elements(ys));
  }

  lemma SubsetOfEqualSize(a: set<string>, b: set<string>)
    requires a <= b && |a| == |b|
    ensures a == b
  {
    assert |b - a| == |b| - |a|;
  }

  // ----- ValueObject.equals --------------------------------------------------------------------

  /** A value object: its class, and the props it keeps. */
  datatype ValueObject = ValueObject(constructor_: string, props: Value)

  /** The default equality components: the values of the props in key order. */
  function Components(h: Heap, props: Value): (items: seq<Value>)
    requires ValueIn(h.Keys, props) && (props.Obj? ==> h[props.ref].WellFormed())
  {
    if props.Obj? then ItemsOf(h[props.ref]) else [props]
  }

  ghost predicate AllSame(h: Heap, xs: seq<Value>, ys: seq<Value>) {
    |xs| == |ys| && forall i :: 0 <= i < |xs| ==> Same(h, xs[i], ys[i])
  }

  ghost predicate ComponentsAccepted(h: Heap, o: ValueObject) {
    Accepted(h, o.props) && forall v :: v in Components(h, o.props) ==> Accepted(h, v)
  }

  lemma ComponentsOfAccepted(h: Heap, o: ValueObject)
    requires Accepted(h, o.props)
    ensures ComponentsAccepted(h, o)
  {
    if o.props.Obj? {
      KidsAccepted(h, o.props.ref);
    }
  }

  /** Same class, and components pairwise of the same structure. */
  method Equals(h: Heap, this_: ValueObject, other: Option<ValueObject>) returns (equal: bool)
    requires Accepted(h, this_.props) && (other.Some? ==> Accepted(h, other.value.props))
    ensures equal <==>
            && other.Some? && this_.constructor_ == other.value.constructor_
            && AllSame(h, Components(h, this_.props), Components(h, other.value.props))
  {
    if other.None? {
      return false;
    }
    ComponentsOfAccepted(h, this_);
    ComponentsOfAccepted(h, other.value);
    var left, right := Components(h, this_.props), Components(h, other.value.props);
    if this_ == other.value {
      forall i | 0 <= i < |left| {
        SameTreeReflexive(TreeOf(h, left[i]));
      }
      return true;
    }
    if this_.constructor_ != other.value.constructor_ {
      return false;
    }
    if |left| != |right| {
      return false;
    }
    for i := 0 to |left|
      invariant forall j :: 0 <= j < i ==> Same(h, left[j], right[j])
    {
      var seen := new PairMemo();
      assert left[i] in left && right[i] in right;
      var same := StructuralEqual(h, left[i], right[i], seen, {});
      if !same {
        return false;
      }
    }
    return true;
  }

  /** For record props with the same keys in the same order this is structural equality of the props. */
  lemma EqualsIsStructural(h: Heap, p: Ref, q: Ref)
    requires Accepted(h, Obj(p)) && Accepted(h, Obj(q))
    requires h[p].RecordNode? && h[q].RecordNode? && h[p].keys == h[q].keys
    ensures AllSame(h, Components(h, Obj(p)), Components(h, Obj(q))) <==> Same(h, Obj(p), Obj(q))
  {
    KeyedSame(h, p, q);
    var keys, xs, ys := h[p].keys, Components(h, Obj(p)), Components(h, Obj(q));
    if AllSame(h, xs, ys) {
      forall key | key in keys
        ensures SameAt(h, p, q, key)
      {
        var i :| 0 <= i < |keys| && keys[i] == key;
        assert Same(h, xs[i], ys[i]);
      }
    }
    if Same(h, Obj(p), Obj(q)) {
      forall i | 0 <= i < |xs|
        ensures Same(h, xs[i], ys[i])
      {
        assert SameAt(h, p, q, keys[i]);
      }
    }
  }

  // What props can be, as far as the components of `equals` depend on it.
  datatype Kind = PrimKind | DateKind | ArrayKind(length: nat) | RecordKind(keys: seq<string>) {
    /** The number of components. */
    function Width(): nat {
      match this
      case PrimKind => 1
      case DateKind => 0
      case ArrayKind(length) => length
      case RecordKind(keys) => |keys|
    }

    ghost predicate Valid() {
      RecordKind? ==> DistinctKeys(keys)
    }
  }

  ghost predicate DistinctKeys(ks: seq<string>) {
    forall i, j :: 0 <= i < j < |ks| ==> ks[i] != ks[j]
  }

  ghost predicate OfKind(h: Heap, v: Value, kind: Kind)
    requires ValueIn(h.Keys, v)
  {
    match kind
    case PrimKind => v.Prim?
    case DateKind => v.Obj? && h[v.ref].DateNode?
    case ArrayKind(length) => v.Obj? && h[v.ref].ArrayNode? && |h[v.ref].items| == length
    case RecordKind(keys) => v.Obj? && h[v.ref].RecordNode? && h[v.ref].keys == keys
  }

  ghost predicate PropsOf(h: Heap, p: Value, q: Value, k: Kind, l: Kind) {
    Accepted(h, p) && Accepted(h, q) && OfKind(h, p, k) && OfKind(h, q, l)
  }

  /** `equals` is structural equality of the props, whatever props of these kinds hold. */
  ghost predicate AlwaysStructural(k: Kind, l: Kind) {
    forall h, p, q :: PropsOf(h, p, q, k, l) ==>
      (AllSame(h, Components(h, p), Components(h, q)) <==> Same(h, p, q))
  }

  /** Props of these kinds can have the same structure. */
  predicate Comparable(k: Kind, l: Kind) {
    match (k, l)
    case (PrimKind, PrimKind) => true
    case (DateKind, DateKind) => true
    case (ArrayKind(_), ArrayKind(_)) => true
    case (RecordKind(_), RecordKind(_)) => true
    case (DateKind, RecordKind(_)) => true
    case (RecordKind(_), DateKind) => true
    case _ => false
  }

  lemma WidthOf(h: Heap, v: Value, kind: Kind)
    requires Accepted(h, v) && OfKind(h, v, kind)
    ensures |Components(h, v)| == kind.Width()
  {
  }

  lemma SameKinds(h: Heap, p: Value, q: Value, k: Kind, l: Kind)
    requires PropsOf(h, p, q, k, l) && Same(h, p, q)
    ensures Comparable(k, l) && k.Width() == l.Width()
  {
    hide Clean, Closed;
    if p.Obj? {
      TreeShape(h, p.ref);
    }
    if q.Obj? {
      TreeShape(h, q.ref);
    }
    if k.RecordKind? && l.RecordKind? {
      RecordCounts(h, p.ref, q.ref);
    } else if k.RecordKind? || l.RecordKind? {
      KeysAndFields(h, p);
      KeysAndFields(h, q);
    }
  }

  lemma RecordCounts(h: Heap, p: Ref, q: Ref)
    requires Accepted(h, Obj(p)) && Accepted(h, Obj(q)) && Same(h, Obj(p), Obj(q))
    requires h[p].RecordNode? && h[q].RecordNode?
    ensures |h[p].keys| == |h[q].keys|
  {
    KeyedSame(h, p, q);
    KeyCounts(h[p]);
    KeyCounts(h[q]);
  }

  lemma KeysAndFields(h: Heap, v: Value)
    requires Accepted(h, v)
    ensures v.Obj? && h[v.ref].RecordNode? ==> (h[v.ref].keys == [] <==> h[v.ref].fields == map[])
  {
    if v.Obj? && h[v.ref].RecordNode? {
      assert h[v.ref].WellFormed();
      if h[v.ref].keys != [] {
        assert h[v.ref].keys[0] in h[v.ref].fields;
      }
    }
  }

  // ----- Where it is ---------------------------------------------------------------------------

  lemma PrimsStructural(h: Heap, p: Value, q: Value)
    requires PropsOf(h, p, q, PrimKind, PrimKind)
    ensures AllSame(h, Components(h, p), Components(h, q)) <==> Same(h, p, q)
  {
    var xs, ys := Components(h, p), Components(h, q);
    assert xs[0] == p && ys[0] == q;
  }

  lemma ArraysStructural(h: Heap, p: Ref, q: Ref)
    requires Accepted(h, Obj(p)) && Accepted(h, Obj(q)) && h[p].ArrayNode? && h[q].ArrayNode?
    ensures AllSame(h, Components(h, Obj(p)), Components(h, Obj(q))) <==> Same(h, Obj(p), Obj(q))
  {
    hide Clean, Closed, Unfold;
    TreeShape(h, p);
    TreeShape(h, q);
    var xs, ys := h[p].items, h[q].items;
    var a, b := TreeOf(h, Obj(p)), TreeOf(h, Obj(q));
    assert |a.items| == |xs| && |b.items| == |ys|;
    forall i | 0 <= i < |xs| && i < |ys|
      ensures Same(h, xs[i], ys[i]) <==> SameTree(a.items[i], b.items[i])
    {
    }
  }

  /** A date and a record without keys. */
  lemma EmptyStructural(h: Heap, p: Value, q: Value, k: Kind, l: Kind)
    requires PropsOf(h, p, q, k, l) && (k, l) in {(DateKind, RecordKind([])), (RecordKind([]), DateKind)}
    ensures AllSame(h, Components(h, p), Components(h, q)) && Same(h, p, q)
  {
    TreeShape(h, p.ref);
    TreeShape(h, q.ref);
    KeysAndFields(h, p);
    KeysAndFields(h, q);
    if k.DateKind? {
      assert TreeOf(h, q).fields == map[];
    } else {
      assert TreeOf(h, p).fields == map[];
    }
  }

  // ----- Where it is not -----------------------------------------------------------------------

  /** Two dates have no components, and always compare as equal. */
  lemma DatesAlwaysEqual(h: Heap, p: Ref, q: Ref)
    requires Accepted(h, Obj(p)) && Accepted(h, Obj(q)) && h[p].DateNode? && h[q].DateNode?
    ensures AllSame(h, Components(h, Obj(p)), Components(h, Obj(q)))
    ensures Same(h, Obj(p), Obj(q)) <==> h[p].time == h[q].time
  {
    TreeShape(h, p);
    TreeShape(h, q);
  }

  /** An array of one item compares as equal to the item. */
  lemma ItemEqualsItsArray(h: Heap, p: Ref, x: Primitive)
    requires Accepted(h, Obj(p)) && h[p] == ArrayNode([Prim(x)])
    ensures AllSame(h, Components(h, Obj(p)), Components(h, Prim(x))) && !Same(h, Obj(p), Prim(x))
  {
    TreeShape(h, p);
    PrimAccepted(h, x);
  }

  lemma PrimAccepted(h: Heap, p: Primitive)
    requires Closed(h)
    ensures Accepted(h, Prim(p))
  {
  }

  /** A record of `ks` that holds `a` under key `at` and `b` elsewhere. */
  function Marked(ks: seq<string>, at: string, a: Primitive, b: Primitive): Node {
    RecordNode(ks, map k | k in ks :: Prim(if k == at then a else b), PLAIN)
  }

  /** Props of a kind that hold nothing but null. */
  function Blank(kind: Kind): Node {
    match kind
    case ArrayKind(length) => ArrayNode(seq(length, _ => Prim(Null)))
    case RecordKind(keys) => Marked(keys, "", Null, Null)
    case _ => DateNode(0)
  }

  function BlankProps(kind: Kind, r: Ref): Value {
    if kind.PrimKind? then Prim(Null) else Obj(r)
  }

  lemma FlatAccepted(h: Heap)
    requires forall r :: r in h ==>
               h[r].WellFormed() && !h[r].Unsupported? && forall v :: v in h[r].Kids() ==> v.Prim?
    ensures forall r :: r in h ==> Accepted(h, Obj(r))
    ensures forall p: Primitive :: Accepted(h, Prim(p))
  {
    forall r | r in h
      ensures Accepted(h, Obj(r))
    {
      CleanFromKids(h, r, {});
    }
  }

  lemma FlatNode(node: Node, ks: seq<string>, at: string, a: Primitive, b: Primitive)
    requires DistinctKeys(ks) && node == Marked(ks, at, a, b)
    ensures node.WellFormed() && forall v :: v in node.Kids() ==> v.Prim?
  {
  }

  lemma BlankFlat(kind: Kind)
    requires kind.Valid()
    ensures var node := Blank(kind);
            node.WellFormed() && !node.Unsupported? && forall v :: v in node.Kids() ==> v == Prim(Null)
  {
  }

  /** Blank props with as many components compare as equal, of whatever kinds they are. */
  lemma BlanksEqual(k: Kind, l: Kind)
    requires k.Valid() && l.Valid() && k.Width() == l.Width() && !Comparable(k, l)
    ensures !AlwaysStructural(k, l)
  {
    hide Same, AllSame;
    var h: Heap := map[0 := Blank(k), 1 := Blank(l)];
    BlankFlat(k);
    BlankFlat(l);
    FlatAccepted(h);
    var p, q := BlankProps(k, 0), BlankProps(l, 1);
    BlankComponents(h, p, k, 0);
    BlankComponents(h, q, l, 1);
    NullsSame(h, Components(h, p), Components(h, q));
    assert PropsOf(h, p, q, k, l);
    if Same(h, p, q) {
      SameKinds(h, p, q, k, l);
    }
  }

  lemma BlankComponents(h: Heap, v: Value, kind: Kind, r: Ref)
    requires kind.Valid() && r in h && h[r] == Blank(kind) && v == BlankProps(kind, r) && Accepted(h, v)
    ensures OfKind(h, v, kind) && |Components(h, v)| == kind.Width()
    ensures forall x :: x in Components(h, v) ==> x == Prim(Null)
  {
    BlankFlat(kind);
    WidthOf(h, v, kind);
  }

  lemma NullsSame(h: Heap, xs: seq<Value>, ys: seq<Value>)
    requires Closed(h) && |xs| == |ys|
    requires forall x :: x in xs || x in ys ==> x == Prim(Null)
    ensures AllSame(h, xs, ys)
  {
    PrimAccepted(h, Null);
    forall i | 0 <= i < |xs|
      ensures Same(h, xs[i], ys[i])
    {
      assert xs[i] in xs && ys[i] in ys;
    }
  }

  lemma DatesDiffer()
    ensures !AlwaysStructural(DateKind, DateKind)
  {
    var h: Heap := map[0 := DateNode(0), 1 := DateNode(1)];
    FlatAccepted(h);
    assert PropsOf(h, Obj(0), Obj(1), DateKind, DateKind);
    DatesAlwaysEqual(h, 0, 1);
  }

  /** Records of one value under other keys compare as equal, in spite of the keys. */
  lemma KeysIgnored(ks: seq<string>, ls: seq<string>)
    requires DistinctKeys(ks) && DistinctKeys(ls) && |ks| == |ls| && Elements(ks) != Elements(ls)
    ensures !AlwaysStructural(RecordKind(ks), RecordKind(ls))
  {
    hide Same, AllSame;
    var h: Heap := map[0 := Blank(RecordKind(ks)), 1 := Blank(RecordKind(ls))];
    BlankFlat(RecordKind(ks));
    BlankFlat(RecordKind(ls));
    FlatAccepted(h);
    BlankComponents(h, Obj(0), RecordKind(ks), 0);
    BlankComponents(h, Obj(1), RecordKind(ls), 1);
    NullsSame(h, Components(h, Obj(0)), Components(h, Obj(1)));
    KeyedSame(h, 0, 1);
    assert PropsOf(h, Obj(0), Obj(1), RecordKind(ks), RecordKind(ls));
  }

  /** Equal records with their keys in another order can compare as different. */
  lemma KeyOrderNoticed(ks: seq<string>, ls: seq<string>, i: nat)
    requires DistinctKeys(ks) && DistinctKeys(ls) && |ks| == |ls| && Elements(ks) == Elements(ls)
    requires i < |ks| && ks[i] != ls[i]
    ensures !AlwaysStructural(RecordKind(ks), RecordKind(ls))
  {
    hide SameTree;
    var h: Heap := map[0 := Marked(ks, ks[i], Null, Undefined), 1 := Marked(ls, ks[i], Null, Undefined)];
    FlatNode(h[0], ks, ks[i], Null, Undefined);
    FlatNode(h[1], ls, ks[i], Null, Undefined);
    FlatAccepted(h);
    KeyedSame(h, 0, 1);
    forall key | key in ks
      ensures SameAt(h, 0, 1, key)
    {
      assert key in Elements(ls);
      PrimsSame(h, if key == ks[i] then Null else Undefined);
    }
    assert PropsOf(h, Obj(0), Obj(1), RecordKind(ks), RecordKind(ls));
    var xs, ys := Components(h, Obj(0)), Components(h, Obj(1));
    assert xs[i] == Prim(Null) && ys[i] == Prim(Undefined);
    PrimsDiffer(h, Null, Undefined);
    assert !Same(h, xs[i], ys[i]);
  }

  lemma PrimsSame(h: Heap, p: Primitive)
    requires Closed(h)
    ensures Same(h, Prim(p), Prim(p))
  {
  }

  lemma PrimsDiffer(h: Heap, p: Primitive, q: Primitive)
    requires Closed(h) && p != q
    ensures !Same(h, Prim(p), Prim(q))
  {
  }

  /** Kinds of which `equals` tells the structure. */
  predicate Told(k: Kind, l: Kind) {
    || k.Width() != l.Width()
    || (Comparable(k, l) && !(k.DateKind? && l.DateKind?) && (k.RecordKind? && l.RecordKind? ==> k == l))
  }

  lemma ToldIsStructural(h: Heap, p: Value, q: Value, k: Kind, l: Kind)
    requires PropsOf(h, p, q, k, l) && Told(k, l)
    ensures AllSame(h, Components(h, p), Components(h, q)) <==> Same(h, p, q)
  {
    hide Same, Accepted;
    if k.Width() != l.Width() {
      WidthOf(h, p, k);
      WidthOf(h, q, l);
      if Same(h, p, q) {
        SameKinds(h, p, q, k, l);
      }
    } else {
      match (k, l) {
        case (PrimKind, PrimKind) => PrimsStructural(h, p, q);
        case (ArrayKind(_), ArrayKind(_)) => ArraysStructural(h, p.ref, q.ref);
        case (RecordKind(_), RecordKind(_)) => EqualsIsStructural(h, p.ref, q.ref);
        case _ => EmptyStructural(h, p, q, k, l);
      }
    }
  }

  /**
   * `equals` is structural equality of the props, whatever they hold, exactly when they have different
   * numbers of components, or are of one kind other than dates and, being records, have the same key list, or
   * are a date and a record without keys.
   */
  lemma StructuralExactly(k: Kind, l: Kind)
    requires k.Valid() && l.Valid()
    ensures AlwaysStructural(k, l) <==> Told(k, l)
  {
    hide AllSame, Same, Clean;
    if Told(k, l) {
      forall h, p, q | PropsOf(h, p, q, k, l)
        ensures AllSame(h, Components(h, p), Components(h, q)) <==> Same(h, p, q)
      {
        ToldIsStructural(h, p, q, k, l);
      }
    } else if !Comparable(k, l) {
      BlanksEqual(k, l);
    } else if k.DateKind? && l.DateKind? {
      DatesDiffer();
    } else if Elements(k.keys) != Elements(l.keys) {
      KeysIgnored(k.keys, l.keys);
    } else {
      var i :| 0 <= i < |k.keys| && k.keys[i] != l.keys[i];
      KeyOrderNoticed(k.keys, l.keys, i);
    }
  }
}
