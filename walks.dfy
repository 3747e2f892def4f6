/** The two graph walks of the appender. lookupIndirectObjects marks the
    objects that already exist in the source document; addNewObjects queues
    the objects a new revision has to write. Both stop at objects already
    seen, and both are specified by the least set of arena identities that
    is closed under the walk. */
module Walks {
  import opened PdfCore

  /** No element occurs twice. */
  ghost predicate NoDup<T>(s: seq<T>) {
    forall i, j :: 0 <= i < j < |s| ==> s[i] != s[j]
  }

  // --------------------------------------------------------------------
  // The graph walks, on the appender's state passed by value

  /** The walk of lookupIndirectObjects: marks, in `marked`, every indirect
      object and stream reachable from `o`. It enters indirect objects'
      payloads, array and object-stream elements and dictionary values; it
      does not enter stream dictionaries and stops at objects already
      marked. The marked set grows by exactly the least set that is closed
      under that walk. */
  method LookupWalk(arena: Arena, marked: set<ObjId>, o: Obj) returns (marked': set<ObjId>)
    ensures marked <= marked'
    ensures Occurs(o) <= marked'
    ensures ClosedBeyond(arena, marked', marked, {}, false)
    ensures LeastAbove(arena, marked', marked, o, false)
    decreases |arena.Keys - marked|, o, 2
  {
    if o.Ptr? {
      OccursPtr(o);
      if o.id !in marked {
        marked' := LookupObject(arena, marked, o.id);
      } else {
        marked' := marked;
        Unchanged(arena, marked, {}, o, false);
      }
    } else if o.Array? || o.ObjStreams? || o.DictObj? {
      marked' := LookupChildren(arena, marked, o);
    } else {
      marked' := marked;
      OccursScalar(o);
      Unchanged(arena, marked, {}, o, false);
    }
  }

  /** The pointer case of the lookup walk: mark `id`, then walk an indirect object's payload. */
  method LookupObject(arena: Arena, marked: set<ObjId>, id: ObjId) returns (marked': set<ObjId>)
    requires id !in marked
    ensures marked + {id} <= marked'
    ensures ClosedBeyond(arena, marked', marked, {}, false)
    ensures LeastAbove(arena, marked', marked, Ptr(id), false)
    decreases |arena.Keys - marked|, Ptr(id), 1
  {
    var m1 := marked + {id};
    if id in arena && arena[id].IndirectNode? {
      FewerUnmarked(arena.Keys, marked, id);
      var child := arena[id].payload;
      assert Occurs(child) == Succ(arena, id, false);
      marked' := LookupWalk(arena, m1, child);
      PtrStep(arena, id, marked, marked', {}, child, false);
    } else {
      marked' := m1;
      PtrLeaf(arena, id, marked, {}, false);
    }
  }

  /** The container case of the lookup walk: each element or value in turn. */
  method LookupChildren(arena: Arena, marked: set<ObjId>, o: Obj) returns (marked': set<ObjId>)
    requires o.Array? || o.ObjStreams? || o.DictObj?
    ensures marked <= marked'
    ensures Occurs(o) <= marked'
    ensures ClosedBeyond(arena, marked', marked, {}, false)
    ensures LeastAbove(arena, marked', marked, o, false)
    decreases |arena.Keys - marked|, o, 1
  {
    var n := ChildCount(o);
    marked' := marked;
    Unchanged(arena, marked, {}, o, false);
    for i := 0 to n
      invariant LookedUpTo(arena, marked, o, i, marked')
    {
      marked' := LookupChild(arena, marked, o, i, marked');
    }
    OccursUpToAll(o);
  }

  /** The state of the lookup walk over a container after its first `i` children. */
  ghost predicate LookedUpTo(arena: Arena, marked: set<ObjId>, o: Obj, i: nat, marked': set<ObjId>) {
    && marked <= marked'
    && |arena.Keys - marked'| <= |arena.Keys - marked|
    && OccursUpTo(o, i) <= marked'
    && ClosedBeyond(arena, marked', marked, {}, false)
    && LeastAbove(arena, marked', marked, o, false)
  }

  /** One turn of the container loop of the lookup walk: walk child `i`. */
  method LookupChild(arena: Arena, marked: set<ObjId>, o: Obj, i: nat, before: set<ObjId>) returns (after: set<ObjId>)
    requires i < ChildCount(o) && LookedUpTo(arena, marked, o, i, before)
    ensures LookedUpTo(arena, marked, o, i + 1, after)
    decreases |arena.Keys - before|, o, 0
  {
    after := LookupWalk(arena, before, ChildAt(o, i));
    LookedUpStep(arena, marked, o, i, before, after);
  }

  /** Walking child `i` with the guarantees of LookupWalk advances LookedUpTo. */
  lemma LookedUpStep(arena: Arena, marked: set<ObjId>, o: Obj, i: nat, before: set<ObjId>, after: set<ObjId>)
    requires i < ChildCount(o) && LookedUpTo(arena, marked, o, i, before)
    requires before <= after && Occurs(ChildAt(o, i)) <= after
    requires ClosedBeyond(arena, after, before, {}, false)
    requires LeastAbove(arena, after, before, ChildAt(o, i), false)
    ensures LookedUpTo(arena, marked, o, i + 1, after)
  {
    assert before + {} == before && after + {} == after && marked + {} == marked;
    ChildStep(arena, o, i, marked, before, after, {}, false);
    SubsetFewerUnmarked(arena.Keys, marked, after);
  }

  /** The walk of addNewObjects: appends to the queue `q`, once each and in
      walk order, every indirect object and stream reachable from `o` that
      is neither queued (in `h`) nor pre-existing (in `src`). It enters
      indirect objects' payloads, stream dictionaries, array and
      object-stream elements and dictionary values, and stops at objects
      that are queued or pre-existing. What was queued before keeps its
      place, and the queue grows by exactly the least set closed under the
      walk. */
  method AddWalk(arena: Arena, q: seq<ObjId>, h: set<ObjId>, src: set<ObjId>, o: Obj) returns (q': seq<ObjId>, h': set<ObjId>)
    requires Delta(q, h, src)
    ensures Delta(q', h', src)
    ensures q <= q' && h <= h'
    ensures Occurs(o) <= h' + src
    ensures ClosedBeyond(arena, h', h, src, true)
    ensures LeastAbove(arena, h', h + src, o, true)
    decreases |arena.Keys - h|, o, 2
  {
    if o.Ptr? {
      OccursPtr(o);
      if o.id !in h && o.id !in src {
        q', h' := AddObject(arena, q, h, src, o.id);
      } else {
        q', h' := q, h;
        Unchanged(arena, h, src, o, true);
      }
    } else if o.Array? || o.ObjStreams? || o.DictObj? {
      q', h' := AddChildren(arena, q, h, src, o);
    } else {
      q', h' := q, h;
      OccursScalar(o);
      Unchanged(arena, h, src, o, true);
    }
  }

  /** The pointer case of the add walk: queue `id`, then walk its node. */
  method AddObject(arena: Arena, q: seq<ObjId>, h: set<ObjId>, src: set<ObjId>, id: ObjId) returns (q': seq<ObjId>, h': set<ObjId>)
    requires Delta(q, h, src)
    requires id !in h && id !in src
    ensures Delta(q', h', src)
    ensures q + [id] <= q' && h + {id} <= h'
    ensures ClosedBeyond(arena, h', h, src, true)
    ensures LeastAbove(arena, h', h + src, Ptr(id), true)
    decreases |arena.Keys - h|, Ptr(id), 1
  {
    DeltaPush(q, h, src, id);
    var q1, h1 := q + [id], h + {id};
    if id in arena {
      FewerUnmarked(arena.Keys, h, id);
      var child := if arena[id].IndirectNode? then arena[id].payload else DictObj(arena[id].sdict);
      SuccChild(arena, id, child);
      q', h' := AddWalk(arena, q1, h1, src, child);
      PtrStep(arena, id, h, h', src, child, true);
    } else {
      q', h' := q1, h1;
      PtrLeaf(arena, id, h, src, true);
    }
  }

  /** The container case of the add walk: each element or value in turn. */
  method AddChildren(arena: Arena, q: seq<ObjId>, h: set<ObjId>, src: set<ObjId>, o: Obj) returns (q': seq<ObjId>, h': set<ObjId>)
    requires o.Array? || o.ObjStreams? || o.DictObj?
    requires Delta(q, h, src)
    ensures Delta(q', h', src)
    ensures q <= q' && h <= h'
    ensures Occurs(o) <= h' + src
    ensures ClosedBeyond(arena, h', h, src, true)
    ensures LeastAbove(arena, h', h + src, o, true)
    decreases |arena.Keys - h|, o, 1
  {
    var n := ChildCount(o);
    q', h' := q, h;
    Unchanged(arena, h, src, o, true);
    for i := 0 to n
      invariant AddedUpTo(arena, q, h, src, o, i, q', h')
    {
      q', h' := AddChild(arena, q, h, src, o, i, q', h');
    }
    OccursUpToAll(o);
  }

  /** The state of the add walk over a container after its first `i` children. */
  ghost predicate AddedUpTo(arena: Arena, q: seq<ObjId>, h: set<ObjId>, src: set<ObjId>, o: Obj, i: nat,
                            q': seq<ObjId>, h': set<ObjId>) {
    && Delta(q', h', src)
    && q <= q' && h <= h'
    && |arena.Keys - h'| <= |arena.Keys - h|
    && OccursUpTo(o, i) <= h' + src
    && ClosedBeyond(arena, h', h, src, true)
    && LeastAbove(arena, h', h + src, o, true)
  }

  /** One turn of the container loop of the add walk: walk child `i`. */
  method AddChild(arena: Arena, q: seq<ObjId>, h: set<ObjId>, src: set<ObjId>, o: Obj, i: nat,
                  qb: seq<ObjId>, hb: set<ObjId>) returns (qa: seq<ObjId>, ha: set<ObjId>)
    requires i < ChildCount(o) && AddedUpTo(arena, q, h, src, o, i, qb, hb)
    ensures AddedUpTo(arena, q, h, src, o, i + 1, qa, ha)
    decreases |arena.Keys - hb|, o, 0
  {
    qa, ha := AddWalk(arena, qb, hb, src, ChildAt(o, i));
    AddedStep(arena, q, h, src, o, i, qb, hb, qa, ha);
  }

  /** Walking child `i` with the guarantees of AddWalk advances AddedUpTo. */
  lemma AddedStep(arena: Arena, q: seq<ObjId>, h: set<ObjId>, src: set<ObjId>, o: Obj, i: nat,
                  qb: seq<ObjId>, hb: set<ObjId>, qa: seq<ObjId>, ha: set<ObjId>)
    requires i < ChildCount(o) && AddedUpTo(arena, q, h, src, o, i, qb, hb)
    requires Delta(qa, ha, src) && qb <= qa && hb <= ha
    requires Occurs(ChildAt(o, i)) <= ha + src
    requires ClosedBeyond(arena, ha, hb, src, true)
    requires LeastAbove(arena, ha, hb + src, ChildAt(o, i), true)
    ensures AddedUpTo(arena, q, h, src, o, i + 1, qa, ha)
  {
    PrefixTrans(q, qb, qa);
    ChildStep(arena, o, i, h, hb, ha, src, true);
    SubsetFewerUnmarked(arena.Keys, h, ha);
  }

  // --------------------------------------------------------------------
  // What the graph walks compute

  /** `t` contains `base` and the identities in `o`, and every identity of
      `t` outside `base` has its successors in `t`: a set the walk from `o`
      that stops at `base` cannot leave. */
  ghost predicate Covers(arena: Arena, t: set<ObjId>, base: set<ObjId>, o: Obj, intoStreams: bool) {
    && base <= t
    && Occurs(o) <= t
    && forall id :: id in t && id !in base ==> Succ(arena, id, intoStreams) <= t
  }

  /** `s` lies inside every set that covers the walk from `o` stopping at `base`. */
  ghost predicate LeastAbove(arena: Arena, s: set<ObjId>, base: set<ObjId>, o: Obj, intoStreams: bool) {
    forall t :: Covers(arena, t, base, o, intoStreams) ==> s <= t
  }

  /** Every identity of `s` outside `base` has its successors in `s + extra`. */
  ghost predicate ClosedBeyond(arena: Arena, s: set<ObjId>, base: set<ObjId>, extra: set<ObjId>, intoStreams: bool) {
    forall id :: id in s && id !in base ==> Succ(arena, id, intoStreams) <= s + extra
  }

  /** A walk that marks nothing new. */
  lemma Unchanged(arena: Arena, s: set<ObjId>, extra: set<ObjId>, o: Obj, intoStreams: bool)
    ensures ClosedBeyond(arena, s, s, extra, intoStreams)
    ensures LeastAbove(arena, s, s + extra, o, intoStreams)
  {
  }

  /** Marking a node with no successors. */
  lemma PtrLeaf(arena: Arena, id: ObjId, s0: set<ObjId>, extra: set<ObjId>, intoStreams: bool)
    requires Succ(arena, id, intoStreams) == {}
    ensures ClosedBeyond(arena, s0 + {id}, s0, extra, intoStreams)
    ensures LeastAbove(arena, s0 + {id}, s0 + extra, Ptr(id), intoStreams)
  {
  }

  /** Marking a node and then walking its successors `child`. */
  lemma PtrStep(arena: Arena, id: ObjId, s0: set<ObjId>, after: set<ObjId>, extra: set<ObjId>, child: Obj, intoStreams: bool)
    requires id !in s0 + extra
    requires Occurs(child) == Succ(arena, id, intoStreams)
    requires s0 + {id} <= after
    requires ClosedBeyond(arena, after, s0 + {id}, extra, intoStreams)
    requires Occurs(child) <= after + extra
    requires LeastAbove(arena, after, s0 + {id} + extra, child, intoStreams)
    ensures ClosedBeyond(arena, after, s0, extra, intoStreams)
    ensures LeastAbove(arena, after, s0 + extra, Ptr(id), intoStreams)
  {
    forall t | Covers(arena, t, s0 + extra, Ptr(id), intoStreams) ensures after <= t {
      assert Covers(arena, t, s0 + {id} + extra, child, intoStreams);
    }
  }

  /** Walking the `i`-th child of a container after the first `i`. */
  lemma ChildStep(arena: Arena, o: Obj, i: nat, s0: set<ObjId>, before: set<ObjId>, after: set<ObjId>,
                  extra: set<ObjId>, intoStreams: bool)
    requires i < ChildCount(o)
    requires s0 <= before <= after
    requires OccursUpTo(o, i) <= before + extra
    requires Occurs(ChildAt(o, i)) <= after + extra
    requires ClosedBeyond(arena, before, s0, extra, intoStreams)
    requires ClosedBeyond(arena, after, before, extra, intoStreams)
    requires LeastAbove(arena, before, s0 + extra, o, intoStreams)
    requires LeastAbove(arena, after, before + extra, ChildAt(o, i), intoStreams)
    ensures OccursUpTo(o, i + 1) <= after + extra
    ensures ClosedBeyond(arena, after, s0, extra, intoStreams)
    ensures LeastAbove(arena, after, s0 + extra, o, intoStreams)
  {
    forall t | Covers(arena, t, s0 + extra, o, intoStreams) ensures after <= t {
      ChildOccurs(o, i);
      assert Covers(arena, t, before + extra, ChildAt(o, i), intoStreams);
    }
  }

  // --------------------------------------------------------------------
  // Helpers about values and sets

  /** The k-th child a walk visits in a container value. */
  function ChildAt(o: Obj, k: nat): Obj
  {
    match o
    case Array(es) => if k < |es| then es[k] else Null
    case ObjStreams(es) => if k < |es| then es[k] else Null
    case DictObj(d) => if k < |d.entries| then d.entries[k].val else Null
    case _ => Null
  }

  function ChildCount(o: Obj): nat
  {
    match o
    case Array(es) => |es|
    case ObjStreams(es) => |es|
    case DictObj(d) => |d.entries|
    case _ => 0
  }

  lemma SuccChild(arena: Arena, id: ObjId, child: Obj)
    requires id in arena
    requires child == if arena[id].IndirectNode? then arena[id].payload else DictObj(arena[id].sdict)
    ensures Occurs(child) == Succ(arena, id, true)
  {
  }

  lemma OccursPtr(o: Obj)
    requires o.Ptr?
    ensures Occurs(o) == {o.id}
  {
  }

  lemma OccursScalar(o: Obj)
    requires !(o.Ptr? || o.Array? || o.ObjStreams? || o.DictObj?)
    ensures Occurs(o) == {}
  {
  }

  lemma ChildOccurs(o: Obj, k: nat)
    requires k < ChildCount(o)
    ensures Occurs(ChildAt(o, k)) <= Occurs(o)
  {
  }

  lemma OccursOfChildren(o: Obj)
    requires o.Array? || o.ObjStreams? || o.DictObj?
    ensures forall x :: x in Occurs(o) ==> exists k :: 0 <= k < ChildCount(o) && x in Occurs(ChildAt(o, k))
  {
    forall x | x in Occurs(o) ensures exists k :: 0 <= k < ChildCount(o) && x in Occurs(ChildAt(o, k)) {
      match o
      case Array(es) =>
        var k :| 0 <= k < |es| && x in Occurs(es[k]);
        assert ChildAt(o, k) == es[k];
      case ObjStreams(es) =>
        var k :| 0 <= k < |es| && x in Occurs(es[k]);
        assert ChildAt(o, k) == es[k];
      case DictObj(d) =>
        var k :| 0 <= k < |d.entries| && x in Occurs(d.entries[k].val);
        assert ChildAt(o, k) == d.entries[k].val;
    }
  }

  /** The identities held by the first `i` children of a container. */
  ghost function OccursUpTo(o: Obj, i: nat): set<ObjId>
  {
    if i == 0 then {} else OccursUpTo(o, i - 1) + Occurs(ChildAt(o, i - 1))
  }

  lemma {:induction false} OccursUpToMembers(o: Obj, i: nat)
    ensures forall x :: x in OccursUpTo(o, i) <==> exists k :: 0 <= k < i && x in Occurs(ChildAt(o, k))
  {
    if i > 0 {
      OccursUpToMembers(o, i - 1);
    }
  }

  lemma OccursUpToAll(o: Obj)
    requires o.Array? || o.ObjStreams? || o.DictObj?
    ensures OccursUpTo(o, ChildCount(o)) == Occurs(o)
  {
    OccursUpToMembers(o, ChildCount(o));
    OccursOfChildren(o);
    forall k | 0 <= k < ChildCount(o) {
      ChildOccurs(o, k);
    }
  }

  /** A pending delta: the queue `q` lists each member of `h` exactly
      once, and none of them is in `src`. Stated by peeling off the last
      element so that extending the queue is cheap to reason about. */
  ghost predicate Delta(q: seq<ObjId>, h: set<ObjId>, src: set<ObjId>)
    decreases |q|
  {
    if q == [] then h == {}
    else q[|q| - 1] in h && q[|q| - 1] !in src && Delta(q[..|q| - 1], h - {q[|q| - 1]}, src)
  }

  /** What a pending delta means element by element. */
  lemma {:induction false} DeltaMeaning(q: seq<ObjId>, h: set<ObjId>, src: set<ObjId>)
    requires Delta(q, h, src)
    ensures NoDup(q)
    ensures forall x :: x in q <==> x in h
    ensures h !! src
    decreases |q|
  {
    if q != [] {
      var p, last := q[..|q| - 1], q[|q| - 1];
      DeltaMeaning(p, h - {last}, src);
      assert q == p + [last];
    }
  }

  lemma DeltaPush(q: seq<ObjId>, h: set<ObjId>, src: set<ObjId>, id: ObjId)
    requires Delta(q, h, src) && id !in h && id !in src
    ensures Delta(q + [id], h + {id}, src)
    ensures q <= q + [id]
  {
    assert (q + [id])[..|q|] == q;
    assert (h + {id}) - {id} == h;
  }

  lemma PrefixTrans<T>(a: seq<T>, b: seq<T>, c: seq<T>)
    requires a <= b && b <= c
    ensures a <= c
  {
  }

  lemma SubsetCard<T>(a: set<T>, b: set<T>)
    requires a <= b
    ensures |a| <= |b|
  {
    assert b == a + (b - a);
  }

  lemma FewerUnmarked(keys: set<ObjId>, marked: set<ObjId>, id: ObjId)
    requires id in keys && id !in marked
    ensures |keys - (marked + {id})| < |keys - marked|
  {
    assert keys - marked == (keys - (marked + {id})) + {id};
  }

  lemma SubsetFewerUnmarked(keys: set<ObjId>, s0: set<ObjId>, s1: set<ObjId>)
    requires s0 <= s1
    ensures |keys - s1| <= |keys - s0|
  {
    SubsetCard(keys - s1, keys - s0);
  }
}
