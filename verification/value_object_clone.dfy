/** The defensive copy that a value object of src/core/domain/value-object.ts keeps of its props. */
module FreezeClone {
  import opened Wrappers
  import opened ObjectGraph
  import opened ValueObjects

  /** Strict code throws when it assigns to a property that is inherited as read-only. */
  datatype CopyError = ReadOnlyProperty(key: string)

  /** The objects that exist, and which of them are frozen. */
  class Store {
    var nodes: Heap
    var frozen: set<Ref>
    var next: Ref

    ghost predicate Valid()
      reads this
    {
      (forall r :: r in nodes ==> r < next) && frozen <= nodes.Keys
    }

    method Allocate(node: Node) returns (r: Ref)
      requires Valid()
      modifies this
      ensures Valid() && frozen == old(frozen)
      ensures r !in old(nodes) && nodes == old(nodes)[r := node]
    {
      r := next;
      nodes := nodes[r := node];
      next := next + 1;
    }
  }

  /** The WeakMap from original objects to their copies. */
  class CopyMemo {
    var copies: map<Ref, Ref>

    constructor ()
      ensures copies == map[]
    {
      copies := map[];
    }
  }

  /**
   * `w` in heap `n` unfolds to the tree of `v` in heap `origin` without the entries that are lost, passes on
   * what the copy of `v` passes on as a prototype, and no assignment was refused on the way to it.
   */
  ghost predicate CopyOf(origin: Heap, v: Value, n: Heap, w: Value) {
    && Accepted(origin, v) && Accepted(Strip(origin), v) && Accepted(n, w)
    && TreeOf(Strip(origin), v) == TreeOf(n, w) && Unrefused(origin, v)
    && (v.Obj? <==> w.Obj?) && (v.Prim? ==> w == v)
    && (v.Obj? ==> AsProto(n[w.ref]) == ProtoOfCopy(origin, v))
  }

  ghost predicate Unchanged(before: Heap, after: Heap, on: set<Ref>) {
    forall r :: r in on ==> r in before && r in after && before[r] == after[r]
  }

  /** `done` are the finished copies: new objects, frozen except dates, leading to finished copies only. */
  ghost predicate Finished(n: Heap, frozen: set<Ref>, origin: Heap, done: set<Ref>) {
    && done !! origin.Keys && ClosedUnder(n, done)
    && forall r :: r in done ==> (r in frozen <==> !n[r].DateNode?)
  }

  /** Every memoised copy is finished and faithful, unless its original is still being copied. */
  ghost predicate MemoSound(n: Heap, copies: map<Ref, Ref>, origin: Heap, stack: set<Ref>, done: set<Ref>) {
    forall o :: o in copies && o !in stack ==>
      copies[o] in done && CopyOf(origin, Obj(o), n, Obj(copies[o]))
  }

  /** What a copying step reads and changes: the objects, which of them are frozen, and the memo. */
  datatype Snapshot = Snapshot(n: Heap, frozen: set<Ref>, copies: map<Ref, Ref>)

  ghost function Now(store: Store, seen: CopyMemo): Snapshot
    reads store, seen
  {
    Snapshot(store.nodes, store.frozen, seen.copies)
  }

  ghost predicate Consistent(s: Snapshot, origin: Heap, stack: set<Ref>, done: set<Ref>) {
    && Closed(s.n) && Unchanged(origin, s.n, origin.Keys) && s.frozen <= s.n.Keys
    && Finished(s.n, s.frozen, origin, done) && MemoSound(s.n, s.copies, origin, stack, done)
  }

  /** From `s` to `t` objects were only added, and `done2` extends `done` by new objects. */
  ghost predicate Grows(s: Snapshot, t: Snapshot, done: set<Ref>, done2: set<Ref>) {
    && Unchanged(s.n, t.n, s.n.Keys) && s.frozen <= t.frozen
    && (forall o :: o in s.copies ==> o in t.copies && t.copies[o] == s.copies[o])
    && done <= done2 && (done2 - done) !! s.n.Keys
  }

  lemma CopyOfKept(origin: Heap, v: Value, n: Heap, g: Heap, w: Value, done: set<Ref>)
    requires CopyOf(origin, v, n, w) && ValueIn(done, w)
    requires ClosedUnder(n, done) && Unchanged(n, g, done) && Closed(g)
    ensures CopyOf(origin, v, g, w)
  {
    TreeElsewhere(n, g, done, w);
  }

  /** Changes outside the finished copies and the originals disturb nothing. */
  lemma ConsistentKept(s: Snapshot, t: Snapshot, origin: Heap, stack: set<Ref>, done: set<Ref>)
    requires Consistent(s, origin, stack, done) && s.frozen == t.frozen && s.copies == t.copies
    requires Closed(t.n) && Unchanged(s.n, t.n, done) && Unchanged(s.n, t.n, origin.Keys) && s.n.Keys <= t.n.Keys
    ensures Consistent(t, origin, stack, done)
  {
    hide CopyOf;
    forall o | o in s.copies && o !in stack
      ensures CopyOf(origin, Obj(o), t.n, Obj(s.copies[o]))
    {
      CopyOfKept(origin, Obj(o), s.n, t.n, Obj(s.copies[o]), done);
    }
  }

  /** An object outside `done` that holds accepted values of `done` only is itself accepted. */
  lemma NewObjectAccepted(n: Heap, c: Ref, done: set<Ref>)
    requires Closed(n) && ClosedUnder(n, done) && c in n && c !in done && !n[c].Unsupported?
    requires forall v :: v in n[c].Kids() ==> ValueIn(done, v) && Accepted(n, v)
    ensures Accepted(n, Obj(c))
  {
    forall v | v in n[c].Kids()
      ensures Clean(n, v, {} + {c})
    {
      CleanElsewhere(n, n, done, v, {}, {c});
    }
    CleanFromKids(n, c, {});
  }

  // ----- Arrays --------------------------------------------------------------------------------

  /** `c` is the copy in progress of the array `o`: its first `count` items are copied. */
  ghost predicate ArrayCopied(origin: Heap, o: Ref, n: Heap, c: Ref, count: nat, done: set<Ref>) {
    && o in origin && origin[o].ArrayNode? && c in n && n[c].ArrayNode? && c !in origin && c !in done
    && count == |n[c].items| <= |origin[o].items|
    && forall i :: 0 <= i < count ==>
         ValueIn(done, n[c].items[i]) && CopyOf(origin, origin[o].items[i], n, n[c].items[i])
  }

  lemma NoRecordRefuses(h: Heap, r: Ref)
    requires r in h && !h[r].RecordNode?
    ensures RefusesNothing(h, r)
  {
  }

  lemma ArrayFinished(origin: Heap, o: Ref, n: Heap, c: Ref, count: nat, done: set<Ref>)
    requires Accepted(origin, Obj(o)) && ArrayCopied(origin, o, n, c, count, done)
    requires count == |origin[o].items| && Closed(n) && ClosedUnder(n, done)
    ensures CopyOf(origin, Obj(o), n, Obj(c))
  {
    hide Unrefused, Clean, Closed, RefusesAt;
    NewObjectAccepted(n, c, done);
    StripAccepted(origin, Obj(o));
    TreeShape(Strip(origin), o);
    TreeShape(n, c);
    UnrefusedKids(origin, o);
    NoRecordRefuses(origin, o);
    PlainProto(origin, o);
    var a, b := TreeOf(Strip(origin), Obj(o)), TreeOf(n, Obj(c));
    assert |a.items| == |b.items| && forall i :: 0 <= i < |a.items| ==> a.items[i] == b.items[i];
  }

  lemma ArrayPushed(origin: Heap, o: Ref, before: Heap, cloned: Heap, c: Ref, i: nat, done: set<Ref>,
                    done2: set<Ref>, item: Value)
    requires ArrayCopied(origin, o, before, c, i, done) && i < |origin[o].items|
    requires Unchanged(before, cloned, before.Keys) && done <= done2 && (done2 - done) !! before.Keys
    requires Closed(cloned) && ClosedUnder(before, done) && ClosedUnder(cloned, done2)
    requires ValueIn(done2, item) && CopyOf(origin, origin[o].items[i], cloned, item)
    ensures var after := cloned[c := ArrayNode(cloned[c].items + [item])];
            Closed(after) && Unchanged(cloned, after, done2) && ArrayCopied(origin, o, after, c, i + 1, done2)
  {
    hide CopyOf;
    var items := cloned[c].items + [item];
    var after := cloned[c := ArrayNode(items)];
    assert Closed(after) by {
      assert forall v :: v in after[c].Kids() ==> v in cloned[c].Kids() || v == item;
    }
    forall j | 0 <= j < i + 1
      ensures ValueIn(done2, items[j]) && CopyOf(origin, origin[o].items[j], after, items[j])
    {
      if j < i {
        CopyOfKept(origin, origin[o].items[j], before, cloned, items[j], done);
      }
      CopyOfKept(origin, origin[o].items[j], cloned, after, items[j], done2);
    }
  }

  // ----- Records -------------------------------------------------------------------------------

  /** The keys that the copy has got when the first `count` entries of `node` have been assigned. */
  function KeysAssigned(node: Node, count: nat): seq<string>
    requires node.RecordNode? && count <= |node.keys|
  {
    if LosesProto(node) then WithoutProto(node.keys[..count]) else node.keys[..count]
  }

  /**
   * `c` is the copy in progress of the record `o`, whose first `count` entries have been assigned.
   */
  ghost predicate KeysCopied(origin: Heap, o: Ref, n: Heap, c: Ref, count: nat, done: set<Ref>) {
    && o in origin && Accepted(origin, Obj(o)) && origin[o].RecordNode?
    && c in n && n[c].RecordNode? && c !in origin && c !in done
    && count <= |origin[o].keys| && n[c].keys == KeysAssigned(origin[o], count)
    && origin[o].WellFormed() && n[c].WellFormed() && n[c].proto == InForce(origin, o, count)
  }

  ghost predicate RecordCopied(origin: Heap, o: Ref, n: Heap, c: Ref, count: nat, done: set<Ref>) {
    && KeysCopied(origin, o, n, c, count, done)
    && (forall j :: 0 <= j < count ==> EntryAssigned(origin, o, j))
    && forall k :: k in n[c].fields ==> EntryCopied(origin, o, n, c, k, done)
  }

  ghost predicate EntryAssigned(origin: Heap, o: Ref, j: nat)
    requires o in origin && Accepted(origin, Obj(o)) && origin[o].RecordNode? && origin[o].WellFormed()
    requires j < |origin[o].keys|
  {
    var key := origin[o].keys[j];
    Unrefused(origin, origin[o].fields[key]) && key !in InForce(origin, o, j).readOnly
  }

  ghost predicate EntryCopied(origin: Heap, o: Ref, n: Heap, c: Ref, k: string, done: set<Ref>)
    requires o in origin && origin[o].RecordNode? && c in n && n[c].RecordNode? && k in n[c].fields
  {
    && k in origin[o].fields && ValueIn(done, n[c].fields[k])
    && CopyOf(origin, origin[o].fields[k], n, n[c].fields[k])
  }

  lemma AllAssigned(origin: Heap, o: Ref)
    requires o in origin && Accepted(origin, Obj(o)) && origin[o].RecordNode? && origin[o].WellFormed()
    requires forall j :: 0 <= j < |origin[o].keys| ==> EntryAssigned(origin, o, j)
    ensures Unrefused(origin, Obj(o))
  {
    hide Unrefused, Accepted, InForce;
    var node := origin[o];
    forall k | k in node.fields
      ensures Unrefused(origin, node.fields[k])
    {
      var j :| 0 <= j < |node.keys| && node.keys[j] == k;
      assert EntryAssigned(origin, o, j);
    }
    forall key: string
      ensures !RefusesAt(origin, o, key)
    {
      forall i | 0 <= i < |node.keys| && node.keys[i] == key
        ensures key !in InForce(origin, o, i).readOnly
      {
        assert EntryAssigned(origin, o, i);
      }
    }
    UnrefusedKids(origin, o);
  }

  lemma RecordCopyAccepted(origin: Heap, o: Ref, n: Heap, c: Ref, count: nat, done: set<Ref>)
    requires RecordCopied(origin, o, n, c, count, done) && Closed(n) && ClosedUnder(n, done)
    ensures Accepted(n, Obj(c))
  {
    hide Unrefused, Clean, Closed, KeysAssigned, EntryAssigned, InForce;
    forall v | v in n[c].Kids()
      ensures ValueIn(done, v) && Accepted(n, v)
    {
      var k :| k in n[c].fields && n[c].fields[k] == v;
      assert EntryCopied(origin, o, n, c, k, done);
    }
    NewObjectAccepted(n, c, done);
  }

  lemma RecordTreesEqual(h: Heap, r: Ref, n: Heap, c: Ref)
    requires Accepted(h, Obj(r)) && Accepted(n, Obj(c)) && h[r].RecordNode? && n[c].RecordNode?
    requires h[r].fields.Keys == n[c].fields.Keys
    requires forall k :: k in h[r].fields ==>
               Accepted(h, h[r].fields[k]) && Accepted(n, n[c].fields[k]) &&
               TreeOf(h, h[r].fields[k]) == TreeOf(n, n[c].fields[k])
    ensures TreeOf(h, Obj(r)) == TreeOf(n, Obj(c))
  {
    hide Accepted, TreeOf;
    TreeShape(h, r);
    TreeShape(n, c);
    assert TreeOf(h, Obj(r)).fields == TreeOf(n, Obj(c)).fields;
  }

  lemma SameKeySets(origin: Heap, o: Ref, n: Heap, c: Ref, count: nat, done: set<Ref>)
    requires KeysCopied(origin, o, n, c, count, done) && count == |origin[o].keys|
    ensures n[c].fields.Keys == Stripped(origin[o]).fields.Keys
  {
    hide InForce, Accepted;
    assert origin[o].keys[..count] == origin[o].keys;
    assert forall k :: k in n[c].keys <==> k in Stripped(origin[o]).keys;
  }

  lemma RecordPassesOn(origin: Heap, o: Ref, n: Heap, c: Ref, count: nat, done: set<Ref>)
    requires KeysCopied(origin, o, n, c, count, done) && count == |origin[o].keys|
    ensures Stripped(origin[o]).RecordNode?
    ensures AsProto(n[c]) == AsProto(Stripped(origin[o]).(proto := InForce(origin, o, |origin[o].keys|)))
  {
    hide InForce, Accepted;
    SameKeySets(origin, o, n, c, count, done);
  }

  lemma RecordFinished(origin: Heap, o: Ref, n: Heap, c: Ref, count: nat, done: set<Ref>)
    requires o in origin && Accepted(origin, Obj(o)) && RecordCopied(origin, o, n, c, count, done)
    requires count == |origin[o].keys| && Closed(n) && ClosedUnder(n, done)
    ensures CopyOf(origin, Obj(o), n, Obj(c))
  {
    hide Unrefused, Accepted, KeysAssigned, TreeOf, Strip, EntryAssigned, Closed, ClosedUnder, InForce, AsProto;
    hide ProtoOfCopy, RefusesAt;
    RecordProto(origin, o);
    RecordPassesOn(origin, o, n, c, count, done);
    RecordCopyAccepted(origin, o, n, c, count, done);
    StripAccepted(origin, Obj(o));
    StripAt(origin, o);
    SameKeySets(origin, o, n, c, count, done);
    AllAssigned(origin, o);
    forall k | k in Strip(origin)[o].fields
      ensures Accepted(Strip(origin), Strip(origin)[o].fields[k]) && Accepted(n, n[c].fields[k])
      ensures TreeOf(Strip(origin), Strip(origin)[o].fields[k]) == TreeOf(n, n[c].fields[k])
    {
      assert EntryCopied(origin, o, n, c, k, done);
    }
    RecordTreesEqual(Strip(origin), o, n, c);
  }

  /** The entries copied so far stay copied when the object `c` gets another node. */
  lemma EntriesKept(origin: Heap, o: Ref, before: Heap, cloned: Heap, c: Ref, i: nat, done: set<Ref>, done2: set<Ref>,
                    node: Node, k: string)
    requires KeysCopied(origin, o, before, c, i, done) && k in before[c].fields
    requires EntryCopied(origin, o, before, c, k, done)
    requires Unchanged(before, cloned, before.Keys) && done <= done2 && (done2 - done) !! before.Keys
    requires Closed(cloned) && ClosedUnder(before, done) && ClosedUnder(cloned, done2)
    requires node.RecordNode? && k in node.fields && node.fields[k] == before[c].fields[k]
    requires Closed(cloned[c := node])
    ensures EntryCopied(origin, o, cloned[c := node], c, k, done2)
  {
    hide CopyOf, Closed, KeysAssigned, InForce;
    var after := cloned[c := node];
    assert Unchanged(before, cloned, done);
    CopyOfKept(origin, origin[o].fields[k], before, cloned, node.fields[k], done);
    CopyOfKept(origin, origin[o].fields[k], cloned, after, node.fields[k], done2);
  }

  /** `copy[key] = item`, where the accessor `__proto__` takes objects and null. */
  function Assigned(n: Heap, c: Ref, key: string, item: Value): Result<Heap, CopyError>
    requires c in n && n[c].RecordNode? && ValueIn(n.Keys, item)
  {
    var node := n[c];
    if key == PROTO && node.proto.accessor then
      Success(n[c := node.(proto := if item.Obj? then AsProto(n[item.ref])
                                    else if item.p == Null then Proto(false, {}) else node.proto)])
    else if key in node.proto.readOnly then Failure(ReadOnlyProperty(key))
    else Success(n[c := WithEntry(node, key, item)])
  }

  /** Only the object itself changes; it stays well formed and holds what it held, and the item if it took it. */
  lemma AssignedClosed(n: Heap, c: Ref, key: string, item: Value)
    requires Closed(n) && c in n && n[c].RecordNode? && key !in n[c].keys && ValueIn(n.Keys, item)
    requires Assigned(n, c, key, item).Success?
    ensures var m := Assigned(n, c, key, item).value;
            && m.Keys == n.Keys && m == n[c := m[c]] && Closed(m) && m[c].RecordNode? && m[c].WellFormed()
            && forall k :: k in m[c].fields ==>
                 if k == key then m[c].fields[k] == item else k in n[c].fields && m[c].fields[k] == n[c].fields[k]
  {
    var m := Assigned(n, c, key, item).value;
    assert n[c].WellFormed();
    if item.Obj? {
      AsProtoFits(n[item.ref]);
    }
    hide AsProto;
    assert m[c].WellFormed();
    assert forall v :: v in m[c].Kids() ==> v in n[c].Kids() || v == item;
  }

  lemma KeysNext(origin: Heap, o: Ref, n: Heap, c: Ref, i: nat, done: set<Ref>, item: Value, m: Heap, done2: set<Ref>)
    requires KeysCopied(origin, o, n, c, i, done) && i < |origin[o].keys| && ValueIn(n.Keys, item)
    requires CopyOf(origin, origin[o].fields[origin[o].keys[i]], n, item)
    requires c !in done2 && Assigned(n, c, origin[o].keys[i], item) == Success(m) && m[c].WellFormed()
    ensures KeysCopied(origin, o, m, c, i + 1, done2)
    ensures origin[o].keys[i] !in InForce(origin, o, i).readOnly
  {
    hide AsProto, Accepted, TreeOf, Unrefused, ProtoOfCopy, Strip;
    var key := origin[o].keys[i];
    NextKey(origin[o], i);
    assert key in origin[o].fields;
    NextProto(origin, o, i);
  }

  /** The prototype in force changes only with the entry that is lost. */
  lemma NextProto(h: Heap, r: Ref, i: nat)
    requires r in h && Accepted(h, Obj(r)) && h[r].RecordNode? && h[r].WellFormed() && i < |h[r].keys|
    ensures var key := h[r].keys[i];
            if LosesProto(h[r]) && key == PROTO then
              && Accepted(h, h[r].fields[PROTO]) && InForce(h, r, i) == h[r].proto
              && InForce(h, r, i + 1) ==
                 Reassigned(h[r].proto, h[r].fields[PROTO], ProtoOfCopy(h, h[r].fields[PROTO]))
            else
              && InForce(h, r, i + 1) == InForce(h, r, i)
              && (key == PROTO ==> InForce(h, r, i) == h[r].proto && !h[r].proto.accessor)
  {
    hide Accepted, ProtoOfCopy, Reassigned;
    NextKey(h[r], i);
    var key := h[r].keys[i];
    assert key in h[r].fields;
    if LosesProto(h[r]) && key == PROTO {
      KidsAccepted(h, r);
      assert h[r].fields[PROTO] in h[r].Kids();
    }
  }

  lemma KeysRefused(origin: Heap, o: Ref, n: Heap, c: Ref, i: nat, done: set<Ref>, item: Value)
    requires KeysCopied(origin, o, n, c, i, done) && i < |origin[o].keys| && ValueIn(n.Keys, item)
    requires Assigned(n, c, origin[o].keys[i], item).Failure?
    ensures Refused(origin, Obj(o), origin[o].keys[i])
    ensures Assigned(n, c, origin[o].keys[i], item) == Failure(ReadOnlyProperty(origin[o].keys[i]))
  {
    hide AsProto, KeysAssigned, InForce;
    assert RefusesAt(origin, o, origin[o].keys[i]);
    RefusedKids(origin, o, origin[o].keys[i]);
  }

  lemma KeysKept(origin: Heap, o: Ref, before: Heap, cloned: Heap, c: Ref, i: nat, done: set<Ref>, done2: set<Ref>)
    requires KeysCopied(origin, o, before, c, i, done) && Unchanged(before, cloned, before.Keys)
    requires (done2 - done) !! before.Keys
    ensures KeysCopied(origin, o, cloned, c, i, done2) && before[c] == cloned[c]
  {
    hide InForce, Accepted, KeysAssigned;
  }

  /** One more entry is cloned and assigned. */
  lemma RecordNext(origin: Heap, o: Ref, before: Heap, cloned: Heap, c: Ref, i: nat, done: set<Ref>,
                   done2: set<Ref>, item: Value, after: Heap)
    requires RecordCopied(origin, o, before, c, i, done) && i < |origin[o].keys|
    requires Unchanged(before, cloned, before.Keys) && done <= done2 && (done2 - done) !! before.Keys
    requires Closed(cloned) && ClosedUnder(before, done) && ClosedUnder(cloned, done2)
    requires ValueIn(done2, item) && ValueIn(cloned.Keys, item)
    requires CopyOf(origin, origin[o].fields[origin[o].keys[i]], cloned, item)
    requires c in cloned && cloned[c].RecordNode? && Assigned(cloned, c, origin[o].keys[i], item) == Success(after)
    ensures Closed(after) && Unchanged(cloned, after, done2) && RecordCopied(origin, o, after, c, i + 1, done2)
    ensures after.Keys == cloned.Keys && forall r :: r in cloned && r != c ==> after[r] == cloned[r]
  {
    hide CopyOf, Closed, ClosedUnder, KeysCopied, Assigned, Unrefused, InForce, Accepted;
    KeysFacts(origin, o, before, c, i, done);
    var key := origin[o].keys[i];
    KeysKept(origin, o, before, cloned, c, i, done, done2);
    AssignedClosed(cloned, c, key, item);
    KeysNext(origin, o, cloned, c, i, done2, item, after, done2);
    CopyUnrefused(origin, origin[o].fields[key], cloned, item);
    assert EntryAssigned(origin, o, i);
    InHeap(cloned, done2);
    forall k | k in after[c].fields
      ensures EntryCopied(origin, o, after, c, k, done2)
    {
      if k == key {
        CopyOfKept(origin, origin[o].fields[k], cloned, after, item, done2);
      } else {
        EntriesKept(origin, o, before, cloned, c, i, done, done2, after[c], k);
      }
    }
  }

  lemma InHeap(n: Heap, done: set<Ref>)
    requires ClosedUnder(n, done)
    ensures done <= n.Keys
  {
  }

  lemma KeysFacts(origin: Heap, o: Ref, n: Heap, c: Ref, i: nat, done: set<Ref>)
    requires KeysCopied(origin, o, n, c, i, done) && i < |origin[o].keys|
    ensures o in origin && origin[o].RecordNode? && c in n && n[c].RecordNode? && c !in done
    ensures Accepted(origin, Obj(o)) && origin[o].WellFormed()
    ensures origin[o].keys[i] in origin[o].fields
    ensures origin[o].keys[i] !in n[c].keys
  {
    NextKey(origin[o], i);
  }

  lemma CopyUnrefused(origin: Heap, v: Value, n: Heap, w: Value)
    requires CopyOf(origin, v, n, w)
    ensures Unrefused(origin, v)
  {
  }

  lemma NextKey(node: Node, i: nat)
    requires node.RecordNode? && node.WellFormed() && i < |node.keys|
    ensures var key := node.keys[i];
            && key !in node.keys[..i] && node.keys[..i + 1] == node.keys[..i] + [key]
            && KeysAssigned(node, i + 1) ==
               KeysAssigned(node, i) + (if LosesProto(node) && key == PROTO then [] else [key])
            && key !in KeysAssigned(node, i)
  {
    var next := node.keys[..i + 1];
    assert next[..|next| - 1] == node.keys[..i] && next[|next| - 1] == node.keys[i];
  }

  function WithEntry(node: Node, key: string, item: Value): Node
    requires node.RecordNode?
  {
    RecordNode(node.keys + [key], node.fields[key := item], node.proto)
  }

  // ----- The copying methods -------------------------------------------------------------------

  /**
   * Copies an accepted value: the copy unfolds to the same tree but for the entries that are lost, consists
   * of new objects only, all of them frozen except dates, and no existing object is changed. It fails only
   * if some object that is reachable cannot be copied by assignment.
   */
  method DeepFreezeClone(store: Store, value: Value, seen: CopyMemo, ghost origin: Heap, ghost stack: set<Ref>,
                         ghost done: set<Ref>)
    returns (r: Result<Value, CopyError>, ghost done2: set<Ref>)
    requires store.Valid() && Accepted(origin, value) && Clean(origin, value, stack)
    requires Consistent(Now(store, seen), origin, stack, done)
    modifies store, seen
    ensures store.Valid() && Unchanged(old(store.nodes), store.nodes, old(store.nodes).Keys)
    ensures r.Failure? ==> Refused(origin, value, r.error.key)
    ensures r.Success? ==>
              && Consistent(Now(store, seen), origin, stack, done2)
              && Grows(old(Now(store, seen)), Now(store, seen), done, done2)
              && ValueIn(done2, r.value) && CopyOf(origin, value, store.nodes, r.value)
    decreases origin.Keys - stack
  {
    done2 := done;
    if value.Prim? {
      PrimCopied(Now(store, seen), origin, stack, done, value.p);
      return Success(value), done2;
    }
    var o := value.ref;
    CleanKids(origin, o, stack);
    if store.nodes[o].DateNode? {
      var c := store.Allocate(store.nodes[o]);
      r, done2 := Success(Obj(c)), done + {c};
      DateCopied(old(Now(store, seen)), Now(store, seen), origin, stack, done, o, c);
      return;
    }
    if o in seen.copies {
      return Success(Obj(seen.copies[o])), done2;
    }
    if store.nodes[o].ArrayNode? {
      r, done2 := CloneArray(store, o, seen, origin, stack, done);
    } else {
      r, done2 := CloneRecord(store, o, seen, origin, stack, done);
    }
  }

  lemma PrimCopied(s: Snapshot, origin: Heap, stack: set<Ref>, done: set<Ref>, p: Primitive)
    requires Consistent(s, origin, stack, done) && Accepted(origin, Prim(p))
    ensures CopyOf(origin, Prim(p), s.n, Prim(p))
  {
    StripAccepted(origin, Prim(p));
    assert forall key: string :: !Refused(origin, Prim(p), key);
  }

  lemma DateCopied(s: Snapshot, t: Snapshot, origin: Heap, stack: set<Ref>, done: set<Ref>, o: Ref, c: Ref)
    requires Consistent(s, origin, stack, done) && Accepted(origin, Obj(o)) && o in s.n
    requires s.n[o].DateNode? && c !in s.n && t == s.(n := s.n[c := s.n[o]])
    ensures Consistent(t, origin, stack, done + {c}) && CopyOf(origin, Obj(o), t.n, Obj(c))
  {
    hide MemoSound, Clean, CopyOf;
    assert Closed(t.n);
    ConsistentKept(s, t, origin, stack, done);
    DateAccepted(origin, o, t.n, c, done);
    MemoGrows(t, origin, stack, done, c);
  }

  lemma DateAccepted(origin: Heap, o: Ref, n: Heap, c: Ref, done: set<Ref>)
    requires Accepted(origin, Obj(o)) && Closed(n) && ClosedUnder(n, done) && c in n && c !in done
    requires n[c] == origin[o] && n[c].DateNode?
    ensures CopyOf(origin, Obj(o), n, Obj(c))
  {
    hide Unrefused, Clean, RefusesAt;
    NewObjectAccepted(n, c, done);
    StripAccepted(origin, Obj(o));
    TreeShape(Strip(origin), o);
    TreeShape(n, c);
    UnrefusedKids(origin, o);
    NoRecordRefuses(origin, o);
    PlainProto(origin, o);
  }

  lemma MemoGrows(s: Snapshot, origin: Heap, stack: set<Ref>, done: set<Ref>, c: Ref)
    requires MemoSound(s.n, s.copies, origin, stack, done)
    ensures MemoSound(s.n, s.copies, origin, stack, done + {c})
  {
  }

  lemma KidsReady(origin: Heap, o: Ref, stack: set<Ref>, v: Value)
    requires Accepted(origin, Obj(o)) && Clean(origin, Obj(o), stack) && v in origin[o].Kids()
    ensures Accepted(origin, v) && Clean(origin, v, stack + {o})
  {
    KidsAccepted(origin, o);
    CleanKids(origin, o, stack);
  }

  lemma KidFails(origin: Heap, o: Ref, v: Value, key: string)
    requires o in origin && v in origin[o].Kids() && Refused(origin, v, key)
    ensures Refused(origin, Obj(o), key)
  {
    RefusedKids(origin, o, key);
  }

  /** The empty copy `c` of `o` has been allocated and memoised. */
  lemma CopyBegun(s: Snapshot, t: Snapshot, origin: Heap, stack: set<Ref>, done: set<Ref>, o: Ref, c: Ref, empty: Node)
    requires Consistent(s, origin, stack, done) && o in origin && o !in s.copies
    requires c !in s.n && empty.WellFormed() && empty.Kids() == {}
    requires t == Snapshot(s.n[c := empty], s.frozen, s.copies[o := c])
    ensures Consistent(t, origin, stack + {o}, done) && Grows(s, t, done, done) && c !in done
  {
    assert Closed(t.n);
    ConsistentKept(s, s.(n := t.n), origin, stack, done);
  }

  /** The copy `c` of `o` has got all its items and been frozen. */
  lemma CopySettled(s: Snapshot, t: Snapshot, origin: Heap, stack: set<Ref>, done: set<Ref>, o: Ref, c: Ref)
    requires Consistent(s, origin, stack + {o}, done) && t == s.(frozen := s.frozen + {c})
    requires o in s.copies && s.copies[o] == c && c in s.n && c !in origin && c !in done && !s.n[c].DateNode?
    requires CopyOf(origin, Obj(o), s.n, Obj(c)) && forall v :: v in s.n[c].Kids() ==> ValueIn(done, v)
    ensures Consistent(t, origin, stack, done + {c})
  {
    assert ClosedUnder(t.n, done + {c});
  }

  ghost predicate InArray(origin: Heap, o: Ref, stack: set<Ref>, c: Ref, i: nat, s: Snapshot, done: set<Ref>,
                          t: Snapshot, done2: set<Ref>)
  {
    && Consistent(t, origin, stack + {o}, done2) && Grows(s, t, done, done2)
    && o in t.copies && t.copies[o] == c && c !in s.n
    && ArrayCopied(origin, o, t.n, c, i, done2)
  }

  lemma ArrayStep(origin: Heap, o: Ref, stack: set<Ref>, c: Ref, i: nat, s: Snapshot, done: set<Ref>, t: Snapshot,
                  done2: set<Ref>, u: Snapshot, done3: set<Ref>, item: Value)
    requires InArray(origin, o, stack, c, i, s, done, t, done2) && i < |origin[o].items|
    requires Consistent(u, origin, stack + {o}, done3) && Grows(t, u, done2, done3)
    requires ValueIn(done3, item) && CopyOf(origin, origin[o].items[i], u.n, item)
    ensures c in u.n && u.n[c].ArrayNode?
    ensures var v := u.(n := u.n[c := ArrayNode(u.n[c].items + [item])]);
            InArray(origin, o, stack, c, i + 1, s, done, v, done3) && Consistent(v, origin, stack + {o}, done3)
  {
    hide CopyOf, MemoSound;
    ArrayPushed(origin, o, t.n, u.n, c, i, done2, done3, item);
    ConsistentKept(u, u.(n := u.n[c := ArrayNode(u.n[c].items + [item])]), origin, stack + {o}, done3);
  }

  /** What is known of the originals at any time. */
  lemma OriginalsThere(s: Snapshot, origin: Heap, stack: set<Ref>, done: set<Ref>, o: Ref)
    requires Consistent(s, origin, stack, done) && o in origin
    ensures o in s.n && s.n[o] == origin[o]
  {
  }

  lemma ArrayBegun(s: Snapshot, t: Snapshot, origin: Heap, stack: set<Ref>, done: set<Ref>, o: Ref, c: Ref)
    requires Consistent(s, origin, stack, done) && o in origin && origin[o].ArrayNode? && o !in s.copies
    requires c !in s.n && t == Snapshot(s.n[c := ArrayNode([])], s.frozen, s.copies[o := c])
    ensures InArray(origin, o, stack, c, 0, s, done, t, done) && Consistent(t, origin, stack + {o}, done)
  {
    hide CopyOf, MemoSound;
    CopyBegun(s, t, origin, stack, done, o, c, ArrayNode([]));
  }

  lemma ArraySettled(s: Snapshot, t: Snapshot, origin: Heap, stack: set<Ref>, done: set<Ref>, done2: set<Ref>, o: Ref,
                     c: Ref)
    requires Accepted(origin, Obj(o)) && o in origin && origin[o].ArrayNode?
    requires InArray(origin, o, stack, c, |origin[o].items|, s, done, t, done2)
    ensures var u := t.(frozen := t.frozen + {c});
            Consistent(u, origin, stack, done2 + {c}) && Grows(s, u, done, done2 + {c}) &&
            CopyOf(origin, Obj(o), u.n, Obj(c))
  {
    hide CopyOf, MemoSound;
    ArrayFinished(origin, o, t.n, c, |origin[o].items|, done2);
    CopySettled(t, t.(frozen := t.frozen + {c}), origin, stack, done2, o, c);
  }

  /** What the objects that existed at the start look like at any later time. */
  lemma StillUnchanged(s: Snapshot, t: Snapshot, n: Heap, done: set<Ref>, done2: set<Ref>)
    requires Grows(s, t, done, done2) && Unchanged(t.n, n, t.n.Keys)
    ensures Unchanged(s.n, n, s.n.Keys)
  {
  }

  method CloneArray(store: Store, o: Ref, seen: CopyMemo, ghost origin: Heap, ghost stack: set<Ref>,
                    ghost done: set<Ref>)
    returns (r: Result<Value, CopyError>, ghost done2: set<Ref>)
    requires store.Valid() && Accepted(origin, Obj(o)) && Clean(origin, Obj(o), stack) && o !in stack
    requires Consistent(Now(store, seen), origin, stack, done)
    requires origin[o].ArrayNode? && o !in seen.copies
    modifies store, seen
    ensures store.Valid() && Unchanged(old(store.nodes), store.nodes, old(store.nodes).Keys)
    ensures r.Failure? ==> Refused(origin, Obj(o), r.error.key)
    ensures r.Success? ==>
              && Consistent(Now(store, seen), origin, stack, done2)
              && Grows(old(Now(store, seen)), Now(store, seen), done, done2)
              && ValueIn(done2, r.value) && CopyOf(origin, Obj(o), store.nodes, r.value)
    decreases origin.Keys - stack, 0
  {
    hide Consistent, CopyOf, InArray, Grows, Clean, Refused, Unchanged;
    OriginalsThere(Now(store, seen), origin, stack, done, o);
    var items := store.nodes[o].items;
    ghost var s := Now(store, seen);
    var c := store.Allocate(ArrayNode([]));
    seen.copies := seen.copies[o := c];
    ArrayBegun(s, Now(store, seen), origin, stack, done, o, c);
    done2 := done;
    for i := 0 to |items|
      invariant store.Valid() && c in store.nodes && store.nodes[c].ArrayNode?
      invariant Consistent(Now(store, seen), origin, stack + {o}, done2)
      invariant InArray(origin, o, stack, c, i, s, done, Now(store, seen), done2)
    {
      ghost var t, before := Now(store, seen), done2;
      ArrayGrew(origin, o, stack, c, i, s, done, t, before);
      assert items[i] in origin[o].Kids();
      KidsReady(origin, o, stack, items[i]);
      var item;
      item, done2 := DeepFreezeClone(store, items[i], seen, origin, stack + {o}, done2);
      if item.Failure? {
        KidFails(origin, o, items[i], item.error.key);
        StillUnchanged(s, t, store.nodes, done, before);
        return item, done2;
      }
      ArrayStep(origin, o, stack, c, i, s, done, t, before, Now(store, seen), done2, item.value);
      store.nodes := store.nodes[c := ArrayNode(store.nodes[c].items + [item.value])];
    }
    ArraySettled(s, Now(store, seen), origin, stack, done, done2, o, c);
    store.frozen := store.frozen + {c};
    done2 := done2 + {c};
    GrownUnchanged(s, Now(store, seen), done, done2);
    r := Success(Obj(c));
  }

  lemma ArrayGrew(origin: Heap, o: Ref, stack: set<Ref>, c: Ref, i: nat, s: Snapshot, done: set<Ref>, t: Snapshot,
                  done2: set<Ref>)
    requires InArray(origin, o, stack, c, i, s, done, t, done2)
    ensures Grows(s, t, done, done2)
  {
  }

  lemma GrownUnchanged(s: Snapshot, t: Snapshot, done: set<Ref>, done2: set<Ref>)
    requires Grows(s, t, done, done2)
    ensures Unchanged(s.n, t.n, s.n.Keys)
  {
  }

  ghost predicate InRecord(origin: Heap, o: Ref, stack: set<Ref>, c: Ref, i: nat, s: Snapshot, done: set<Ref>,
                           t: Snapshot, done2: set<Ref>)
  {
    && Consistent(t, origin, stack + {o}, done2) && Grows(s, t, done, done2)
    && o in t.copies && t.copies[o] == c && c !in s.n
    && RecordCopied(origin, o, t.n, c, i, done2)
  }

  /** One more entry has been cloned; assigning it makes progress, or shows that the record cannot be copied. */
  lemma RecordStep(origin: Heap, o: Ref, stack: set<Ref>, c: Ref, i: nat, s: Snapshot, done: set<Ref>, t: Snapshot,
                   done2: set<Ref>, u: Snapshot, done3: set<Ref>, key: string, item: Value)
    requires InRecord(origin, o, stack, c, i, s, done, t, done2) && i < |origin[o].keys| && key == origin[o].keys[i]
    requires Consistent(u, origin, stack + {o}, done3) && Grows(t, u, done2, done3)
    requires ValueIn(done3, item) && CopyOf(origin, origin[o].fields[key], u.n, item)
    ensures c in u.n && u.n[c].RecordNode? && ValueIn(u.n.Keys, item)
    ensures match Assigned(u.n, c, key, item)
            case Success(after) =>
              && InRecord(origin, o, stack, c, i + 1, s, done, u.(n := after), done3)
              && Consistent(u.(n := after), origin, stack + {o}, done3)
              && after.Keys == u.n.Keys && after[c].RecordNode? && Unchanged(s.n, after, s.n.Keys)
            case Failure(ReadOnlyProperty(k)) => Refused(origin, Obj(o), k) && Unchanged(s.n, u.n, s.n.Keys)
  {
    hide CopyOf, MemoSound, Closed, Refused, Assigned, KeysCopied, EntryAssigned, EntryCopied;
    RecordKeys(origin, o, stack, c, i, s, done, t, done2);
    KeysFacts(origin, o, t.n, c, i, done2);
    InHeap(u.n, done3);
    KeysKept(origin, o, t.n, u.n, c, i, done2, done3);
    match Assigned(u.n, c, key, item) {
      case Success(after) =>
        RecordNext(origin, o, t.n, u.n, c, i, done2, done3, item, after);
        KeysThere(origin, o, after, c, i + 1, done3);
        ConsistentKept(u, u.(n := after), origin, stack + {o}, done3);
      case Failure(_) =>
        KeysRefused(origin, o, u.n, c, i, done3, item);
    }
  }

  lemma RecordKeys(origin: Heap, o: Ref, stack: set<Ref>, c: Ref, i: nat, s: Snapshot, done: set<Ref>, t: Snapshot,
                   done2: set<Ref>)
    requires InRecord(origin, o, stack, c, i, s, done, t, done2)
    ensures KeysCopied(origin, o, t.n, c, i, done2)
  {
  }

  lemma KeysThere(origin: Heap, o: Ref, n: Heap, c: Ref, i: nat, done: set<Ref>)
    requires KeysCopied(origin, o, n, c, i, done)
    ensures c in n && n[c].RecordNode? && c !in origin && c !in done
  {
  }

  lemma RecordGrew(origin: Heap, o: Ref, stack: set<Ref>, c: Ref, i: nat, s: Snapshot, done: set<Ref>, t: Snapshot,
                   done2: set<Ref>)
    requires InRecord(origin, o, stack, c, i, s, done, t, done2)
    ensures Grows(s, t, done, done2)
  {
  }

  lemma RecordBegun(s: Snapshot, t: Snapshot, origin: Heap, stack: set<Ref>, done: set<Ref>, o: Ref, c: Ref)
    requires Consistent(s, origin, stack, done) && Accepted(origin, Obj(o)) && origin[o].RecordNode?
    requires origin[o].WellFormed() && o !in s.copies && c !in s.n
    requires t == Snapshot(s.n[c := RecordNode([], map[], origin[o].proto)], s.frozen, s.copies[o := c])
    ensures InRecord(origin, o, stack, c, 0, s, done, t, done) && Consistent(t, origin, stack + {o}, done)
  {
    hide CopyOf, MemoSound;
    CopyBegun(s, t, origin, stack, done, o, c, RecordNode([], map[], origin[o].proto));
  }

  lemma RecordSettled(s: Snapshot, t: Snapshot, origin: Heap, stack: set<Ref>, done: set<Ref>, done2: set<Ref>, o: Ref,
                      c: Ref)
    requires Accepted(origin, Obj(o)) && o in origin && origin[o].RecordNode?
    requires InRecord(origin, o, stack, c, |origin[o].keys|, s, done, t, done2)
    ensures var u := t.(frozen := t.frozen + {c});
            Consistent(u, origin, stack, done2 + {c}) && Grows(s, u, done, done2 + {c}) &&
            CopyOf(origin, Obj(o), u.n, Obj(c))
  {
    hide CopyOf, MemoSound;
    RecordFinished(origin, o, t.n, c, |origin[o].keys|, done2);
    assert forall k :: k in t.n[c].fields ==> EntryCopied(origin, o, t.n, c, k, done2);
    CopySettled(t, t.(frozen := t.frozen + {c}), origin, stack, done2, o, c);
  }

  method CloneRecord(store: Store, o: Ref, seen: CopyMemo, ghost origin: Heap, ghost stack: set<Ref>,
                     ghost done: set<Ref>)
    returns (r: Result<Value, CopyError>, ghost done2: set<Ref>)
    requires store.Valid() && Accepted(origin, Obj(o)) && Clean(origin, Obj(o), stack) && o !in stack
    requires Consistent(Now(store, seen), origin, stack, done)
    requires origin[o].RecordNode? && o !in seen.copies
    modifies store, seen
    ensures store.Valid() && Unchanged(old(store.nodes), store.nodes, old(store.nodes).Keys)
    ensures r.Failure? ==> Refused(origin, Obj(o), r.error.key)
    ensures r.Success? ==>
              && Consistent(Now(store, seen), origin, stack, done2)
              && Grows(old(Now(store, seen)), Now(store, seen), done, done2)
              && ValueIn(done2, r.value) && CopyOf(origin, Obj(o), store.nodes, r.value)
    decreases origin.Keys - stack, 0
  {
    hide Consistent, CopyOf, InRecord, Grows, Clean, Refused, Unchanged, Assigned;
    OriginalsThere(Now(store, seen), origin, stack, done, o);
    var keys, fields := store.nodes[o].keys, store.nodes[o].fields;
    assert origin[o].WellFormed();
    ghost var s := Now(store, seen);
    var c := store.Allocate(RecordNode([], map[], store.nodes[o].proto));
    seen.copies := seen.copies[o := c];
    RecordBegun(s, Now(store, seen), origin, stack, done, o, c);
    done2 := done;
    for i := 0 to |keys|
      invariant store.Valid() && c in store.nodes && store.nodes[c].RecordNode?
      invariant Consistent(Now(store, seen), origin, stack + {o}, done2)
      invariant InRecord(origin, o, stack, c, i, s, done, Now(store, seen), done2)
    {
      ghost var t, before := Now(store, seen), done2;
      RecordGrew(origin, o, stack, c, i, s, done, t, before);
      var key := keys[i];
      assert fields[key] in origin[o].Kids();
      KidsReady(origin, o, stack, fields[key]);
      var item;
      item, done2 := DeepFreezeClone(store, fields[key], seen, origin, stack + {o}, done2);
      if item.Failure? {
        KidFails(origin, o, fields[key], item.error.key);
        StillUnchanged(s, t, store.nodes, done, before);
        return item, done2;
      }
      RecordStep(origin, o, stack, c, i, s, done, t, before, Now(store, seen), done2, key, item.value);
      var nodes := Assigned(store.nodes, c, key, item.value);
      if nodes.Failure? {
        return Failure(nodes.error), done2;
      }
      store.nodes := nodes.value;
    }
    RecordSettled(s, Now(store, seen), origin, stack, done, done2, o, c);
    store.frozen := store.frozen + {c};
    done2 := done2 + {c};
    GrownUnchanged(s, Now(store, seen), done, done2);
    r := Success(Obj(c));
  }

  // ----- What a value object keeps -------------------------------------------------------------

  /** A copy, and exactly the tree of the original. */
  ghost predicate SameTreeKept(before: Heap, props: Value, after: Heap, r: Result<Value, CopyError>) {
    && r.Success? && Accepted(before, props) && Accepted(after, r.value)
    && TreeOf(after, r.value) == TreeOf(before, props)
  }

  /** A copy that structural equality, too, takes for the original. */
  ghost predicate SameKept(props: Value, after: Heap, r: Result<Value, CopyError>) {
    r.Success? && Same(after, props, r.value)
  }

  /**
   * The copy a value object keeps shares no object with its props or with anything else that existed.
   * There is none exactly when an assignment is refused on the way. It has the same structure exactly when, in
   * addition, no record that is reachable loses its `__proto__` entry. It is frozen except for dates, so
   * throughout exactly when no date can be reached in it.
   */
  method KeptProps(store: Store, props: Value) returns (r: Result<Value, CopyError>)
    requires store.Valid() && Accepted(store.nodes, props)
    modifies store
    ensures store.Valid() && Unchanged(old(store.nodes), store.nodes, old(store.nodes).Keys)
    ensures r.Success? <==> Unrefused(old(store.nodes), props)
    ensures r.Failure? ==> Refused(old(store.nodes), props, r.error.key)
    ensures SameTreeKept(old(store.nodes), props, store.nodes, r) <==> Throughout(old(store.nodes), props, COPYABLE)
    ensures SameKept(props, store.nodes, r) <==> Throughout(old(store.nodes), props, COPYABLE)
    ensures r.Success? ==> CopyOf(old(store.nodes), props, store.nodes, r.value)
    ensures r.Success? ==>
              forall p :: PathFrom(store.nodes, r.value, p) ==>
                forall i :: 0 <= i < |p| ==>
                  p[i] !in old(store.nodes) && (p[i] in store.frozen <==> !store.nodes[p[i]].DateNode?)
    ensures r.Success? ==>
              (FrozenThroughout(store.nodes, store.frozen, r.value) <==> Throughout(store.nodes, r.value, NOT_DATE))
    ensures Throughout(old(store.nodes), props, COPYABLE) ==>
              (FrozenThroughout(store.nodes, store.frozen, r.value) <==> Throughout(old(store.nodes), props, NOT_DATE))
  {
    hide Throughout, CopyOf, COPYABLE, Refused, Same;
    ghost var origin := store.nodes;
    var seen := new CopyMemo();
    ghost var done: set<Ref>;
    EmptyMemoConsistent(Now(store, seen), origin);
    r, done := DeepFreezeClone(store, props, seen, origin, {}, {});
    RefusedExactly(origin, props);
    if r.Success? {
      forall p | PathFrom(store.nodes, r.value, p)
        ensures forall i :: 0 <= i < |p| ==> p[i] in done
      {
        PathStays(store.nodes, p, done);
      }
      ExactCopy(origin, props, store.nodes, r.value);
      SameCopyExactly(origin, props, store.nodes, r.value);
      FrozenExceptDates(store.nodes, store.frozen, r.value, done);
      SameDates(origin, props, store.nodes, r.value);
    }
  }

  lemma EmptyMemoConsistent(s: Snapshot, origin: Heap)
    requires Closed(s.n) && s.n == origin && s.frozen <= s.n.Keys && s.copies == map[]
    ensures Consistent(s, origin, {}, {})
  {
  }

  ghost predicate FrozenThroughout(n: Heap, frozen: set<Ref>, v: Value) {
    forall p :: PathFrom(n, v, p) ==> p[|p| - 1] in frozen
  }

  lemma FrozenExceptDates(n: Heap, frozen: set<Ref>, v: Value, done: set<Ref>)
    requires forall p :: PathFrom(n, v, p) ==> forall i :: 0 <= i < |p| ==> p[i] in done
    requires forall r :: r in done ==> r in n && (r in frozen <==> !n[r].DateNode?)
    ensures FrozenThroughout(n, frozen, v) <==> Throughout(n, v, NOT_DATE)
  {
  }

  /** A copy that was made has the tree of the original exactly when every reachable object can be copied so. */
  lemma ExactCopy(origin: Heap, v: Value, n: Heap, w: Value)
    requires CopyOf(origin, v, n, w)
    ensures TreeOf(n, w) == TreeOf(origin, v) <==> Throughout(origin, v, COPYABLE)
  {
    hide Throughout, Unrefused;
    CopyUnrefused(origin, v, n, w);
    StripExact(origin, v, {});
    RefusedExactly(origin, v);
  }

  /** Structural equality tells a tree from what is left of it exactly when something is lost. */
  lemma {:induction false} StripSameExactly(h: Heap, v: Value, above: set<Ref>)
    requires Closed(h) && ValueIn(h.Keys, v) && Clean(h, v, above)
    requires Closed(Strip(h)) && Clean(Strip(h), v, above)
    ensures SameTree(Unfold(h, v, above), Unfold(Strip(h), v, above)) ==> Throughout(h, v, KEEPS_PROTO)
    decreases h.Keys - above
  {
    hide Throughout, Clean, Strip, Closed, SameTree;
    if v.Obj? {
      var r, g := v.ref, Strip(h);
      StripAt(h, r);
      CleanKids(h, r, above);
      CleanKids(g, r, above);
      ThroughoutKids(h, r, KEEPS_PROTO);
      if LosesProto(h[r]) {
        KeysTellApart(Unfold(h, v, above), Unfold(g, v, above));
      } else {
        forall kid | kid in h[r].Kids()
          ensures SameTree(Unfold(h, kid, above + {r}), Unfold(g, kid, above + {r})) ==> Throughout(h, kid, KEEPS_PROTO)
        {
          StripSameExactly(h, kid, above + {r});
        }
        SameUnfolds(h, g, r, above);
      }
    } else {
      NothingReachable(h, v.p, KEEPS_PROTO);
    }
  }

  lemma KeysTellApart(a: Tree, b: Tree)
    requires a.RecordTree? && b.RecordTree? && PROTO in a.fields && PROTO !in b.fields
    ensures !SameTree(a, b)
  {
  }

  lemma SameUnfolds(h: Heap, g: Heap, r: Ref, above: set<Ref>)
    requires Closed(h) && Closed(g) && r in h && r in g && h[r] == g[r]
    requires Clean(h, Obj(r), above) && Clean(g, Obj(r), above)
    requires forall kid :: kid in h[r].Kids() ==>
               && ValueIn(h.Keys, kid) && Clean(h, kid, above + {r})
               && ValueIn(g.Keys, kid) && Clean(g, kid, above + {r})
    ensures SameTree(Unfold(h, Obj(r), above), Unfold(g, Obj(r), above)) ==>
              forall kid :: kid in h[r].Kids() ==>
                SameTree(Unfold(h, kid, above + {r}), Unfold(g, kid, above + {r}))
  {
    hide Clean, Closed;
    CleanKids(h, r, above);
    CleanKids(g, r, above);
    var t, u := Unfold(h, Obj(r), above), Unfold(g, Obj(r), above);
    match h[r] {
      case ArrayNode(items) =>
        assert forall i :: 0 <= i < |items| ==>
          items[i] in h[r].Kids() && t.items[i] == Unfold(h, items[i], above + {r}) &&
          u.items[i] == Unfold(g, items[i], above + {r});
      case RecordNode(_, fields, _) =>
        assert forall k :: k in fields ==>
          fields[k] in h[r].Kids() && t.fields[k] == Unfold(h, fields[k], above + {r}) &&
          u.fields[k] == Unfold(g, fields[k], above + {r});
      case _ =>
    }
  }

  lemma SameCopyExactly(origin: Heap, v: Value, n: Heap, w: Value)
    requires CopyOf(origin, v, n, w) && Closed(n) && Unchanged(origin, n, origin.Keys)
    ensures Same(n, v, w) <==> Throughout(origin, v, COPYABLE)
  {
    hide Throughout, SameTree, Strip, Unrefused, Clean;
    ExactCopy(origin, v, n, w);
    AllClosed(origin);
    TreeElsewhere(origin, n, origin.Keys, v);
    StripSameExactly(origin, v, {});
    RefusedExactly(origin, v);
    SameTreeReflexive(TreeOf(n, w));
  }

  lemma AllClosed(h: Heap)
    requires Closed(h)
    ensures ClosedUnder(h, h.Keys)
  {
  }

  lemma SameDates(origin: Heap, v: Value, n: Heap, w: Value)
    requires CopyOf(origin, v, n, w)
    ensures Throughout(origin, v, COPYABLE) ==> (Throughout(n, w, NOT_DATE) <==> Throughout(origin, v, NOT_DATE))
  {
    hide Throughout, Unrefused;
    ExactCopy(origin, v, n, w);
    DatesReachable(origin, v, {});
    DatesReachable(n, w, {});
  }

  // ----- Two props that are not kept as given --------------------------------------------------

  /** `JSON.parse('{"__proto__":1}')` is accepted, and what is kept of it is an empty record. */
  lemma ProtoEntryLost(h: Heap, n: Heap, w: Value)
    requires h == map[0 := RecordNode([PROTO], map[PROTO := Prim(Number(1))], PLAIN)]
    ensures Accepted(h, Obj(0)) && !Throughout(h, Obj(0), COPYABLE)
    ensures CopyOf(h, Obj(0), n, w) ==> TreeOf(n, w) == RecordTree(map[]) != TreeOf(h, Obj(0))
  {
    CleanFromKids(h, 0, {});
    ThroughoutKids(h, 0, COPYABLE);
    StripAccepted(h, Obj(0));
    TreeShape(h, 0);
    TreeShape(Strip(h), 0);
    assert PROTO in TreeOf(h, Obj(0)).fields;
    assert TreeOf(Strip(h), Obj(0)).fields == map[];
  }

  /** The graph of `JSON.parse('{"__proto__":{"x":1},"x":2}')`. */
  ghost predicate ProtoWithKey(h: Heap) {
    && h.Keys == {0, 1} && h[1] == RecordNode(["x"], map["x" := Prim(Number(1))], PLAIN)
    && h[0] == RecordNode([PROTO, "x"], map[PROTO := Obj(1), "x" := Prim(Number(2))], PLAIN)
  }

  lemma ProtoWithKeyAccepted(h: Heap)
    requires ProtoWithKey(h)
    ensures Accepted(h, Obj(0)) && Accepted(h, Obj(1))
  {
    assert PROTO[0] != "x"[0];
    assert h[0].Kids() == {Obj(1), Prim(Number(2))} by {
      assert h[0].fields[PROTO] in h[0].Kids() && h[0].fields["x"] in h[0].Kids();
    }
    CleanFromKids(h, 1, {0});
    CleanFromKids(h, 1, {});
    assert {} + {0} == {0};
    CleanFromKids(h, 0, {});
  }

  lemma ProtoEntryRefuses(h: Heap)
    requires ProtoWithKey(h)
    ensures Accepted(h, Obj(0)) && Refused(h, Obj(0), "x")
    ensures forall key :: Refused(h, Obj(0), key) ==> key == "x"
  {
    ProtoWithKeyAccepted(h);
    assert PROTO[0] != "x"[0];
    assert h[0].keys[..1] == [PROTO] && h[1].fields.Keys == {"x"};
    PlainRecordProto(h, 1);
    assert "x" in InForce(h, 0, 1).readOnly;
    assert RefusesAt(h, 0, "x");
    forall key | Refused(h, Obj(0), key)
      ensures key == "x"
    {
      RefusedKids(h, 0, key);
      RefusedKids(h, 1, key);
    }
    RefusedKids(h, 0, "x");
  }

  lemma PlainRecordProto(h: Heap, r: Ref)
    requires Accepted(h, Obj(r)) && h[r].RecordNode? && !LosesProto(h[r])
    ensures ProtoOfCopy(h, Obj(r)) == AsProto(h[r])
  {
  }

  /** A value object of these props is never made: the copy's own `x` is refused by its new prototype. */
  method RefusedProps(store: Store) returns (r: Result<Value, CopyError>)
    requires store.Valid() && ProtoWithKey(store.nodes)
    modifies store
    ensures r == Failure(ReadOnlyProperty("x"))
  {
    ProtoEntryRefuses(store.nodes);
    r := KeptProps(store, Obj(0));
  }
}
