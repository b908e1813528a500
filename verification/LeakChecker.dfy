/** The heap leak checker: hooks that record objects and widen the known heap
    bounds, the flood that marks as live what the roots lead to, and the check that
    reports the rest. The contents of memory are a function from addresses to
    words; the roots come from outside. */
module LeakCheckers {
  import opened AddressMaps
  import opened Arithmetic
  import opened Common
  import opened HeapProfileTables
  import opened Lists
  import Mapped = RegionSubtraction

  datatype ObjectPlacement = MaybeLive | IgnoredOnHeap | MustBeOnHeap | InGlobalData | ThreadData | ThreadRegisters

  datatype AllocObject = AllocObject(ptr: int, size: int, place: ObjectPlacement)

  /** What the flood reads: the words of memory, at which alignment, and how far
      into an object a pointer may point. */
  datatype Scan = Scan(load: int -> int, align: int, maxSize: int)

  type Heap = map<int, AllocValue>

  // ---------- Reachability ----------

  /** A full word of [p, p + size) at a multiple of align. */
  ghost predicate Word(align: int, p: int, size: int, a: int)
  {
    align > 0 && p <= a && a + 8 <= p + size && a % align == 0
  }

  ghost function Target(o: Heap, w: Scan, a: int): Option<int>
  {
    if w.maxSize < 0 then None else Resolve(o, SizeOf, w.maxSize, w.load(a))
  }

  /** Some word of [p, p + size) points at or into object q. */
  ghost predicate Refers(o: Heap, w: Scan, p: int, size: int, q: int)
  {
    exists a {:trigger w.load(a)} {:trigger Word(w.align, p, size, a)} ::
        Word(w.align, p, size, a) && Target(o, w, a) == Some(q)
  }

  ghost predicate Rooted(o: Heap, w: Scan, roots: set<AllocObject>, q: int)
  {
    exists r | r in roots :: (r.place.MustBeOnHeap? && r.ptr == q) || Refers(o, w, r.ptr, r.size, q)
  }

  /** Objects, each referring to the next, the first one named or referred to by a root. */
  ghost predicate Path(o: Heap, w: Scan, roots: set<AllocObject>, path: seq<int>)
  {
    var n := |path|;
    && n > 0
    && (forall i | 0 <= i < n :: path[i] in o)
    && Rooted(o, w, roots, path[0])
    && forall i | 0 <= i < n - 1 :: Refers(o, w, path[i], o[path[i]].bytes, path[i + 1])
  }

  ghost predicate Reach(o: Heap, w: Scan, roots: set<AllocObject>, q: int)
  {
    exists path :: Path(o, w, roots, path) && path[|path| - 1] == q
  }

  lemma TargetIsObject(o: Heap, w: Scan, p: int, size: int, q: int)
    requires Refers(o, w, p, size, q)
    ensures q in o
  {
  }

  lemma ReachRooted(o: Heap, w: Scan, roots: set<AllocObject>, q: int)
    requires q in o && Rooted(o, w, roots, q)
    ensures Reach(o, w, roots, q)
  {
    assert Path(o, w, roots, [q]);
  }

  lemma ReachNext(o: Heap, w: Scan, roots: set<AllocObject>, p: int, q: int)
    requires p in o && Reach(o, w, roots, p) && Refers(o, w, p, o[p].bytes, q)
    ensures Reach(o, w, roots, q)
  {
    hide Rooted;
    TargetIsObject(o, w, p, o[p].bytes, q);
    hide Refers;
    var path :| Path(o, w, roots, path) && path[|path| - 1] == p;
    assert Path(o, w, roots, path + [q]);
  }

  /** Roots can be flooded in any number of batches. */
  lemma ReachUnion(o: Heap, w: Scan, a: set<AllocObject>, b: set<AllocObject>, q: int)
    ensures Reach(o, w, a + b, q) <==> Reach(o, w, a, q) || Reach(o, w, b, q)
  {
    hide Refers;
    if Reach(o, w, a + b, q) {
      var path :| Path(o, w, a + b, path) && path[|path| - 1] == q;
      assert Path(o, w, a, path) || Path(o, w, b, path);
    }
    if Reach(o, w, a, q) {
      var path :| Path(o, w, a, path) && path[|path| - 1] == q;
      assert Path(o, w, a + b, path);
    }
    if Reach(o, w, b, q) {
      var path :| Path(o, w, b, path) && path[|path| - 1] == q;
      assert Path(o, w, a + b, path);
    }
  }

  /** A set that holds what the roots name and all that its members refer to. */
  lemma {:induction false} ClosedHoldsPath(o: Heap, w: Scan, roots: set<AllocObject>, live: set<int>, path: seq<int>,
                                           n: nat)
    requires Path(o, w, roots, path) && n < |path|
    requires forall r | r in roots :: Covered(o, w, live, r.ptr, r.size) && (r.place.MustBeOnHeap? ==> r.ptr in live)
    requires forall k | k in live && k in o :: Covered(o, w, live, k, o[k].bytes)
    ensures path[n] in live
  {
    hide Refers;
    if n > 0 {
      ClosedHoldsPath(o, w, roots, live, path, n - 1);
      assert Refers(o, w, path[n - 1], o[path[n - 1]].bytes, path[n - 1 + 1]);
    }
  }

  // ---------- The flood ----------

  ghost predicate Covered(o: Heap, w: Scan, live: set<int>, p: int, size: int)
  {
    forall q {:trigger Refers(o, w, p, size, q)} | Refers(o, w, p, size, q) :: q in live
  }

  /** What the flood pushes for the object at k. */
  function HeapObject(o: Heap, k: int): AllocObject
    requires k in o
  {
    AllocObject(k, o[k].bytes, IgnoredOnHeap)
  }

  /** Only what the roots lead to is marked or waits to be scanned. */
  ghost predicate Sound(o: Heap, w: Scan, roots: set<AllocObject>, live0: set<int>, live: set<int>,
                        pending: set<AllocObject>)
  {
    && (forall k | k in live :: k in live0 || Reach(o, w, roots, k))
    && (forall x | x in pending :: x in roots || (x.ptr in o && x == HeapObject(o, x.ptr) && Reach(o, w, roots, x.ptr)))
  }

  /** What is not marked yet waits to be found from a pending object. */
  ghost predicate Complete(o: Heap, w: Scan, roots: set<AllocObject>, live: set<int>, pending: set<AllocObject>)
  {
    && (forall k | k in live && k in o :: Covered(o, w, live, k, o[k].bytes) || HeapObject(o, k) in pending)
    && (forall r | r in roots ::
          r in pending || (Covered(o, w, live, r.ptr, r.size) && (r.place.MustBeOnHeap? ==> r.ptr in live)))
  }

  ghost predicate FloodOk(o: Heap, w: Scan, roots: set<AllocObject>, live0: set<int>, live: set<int>,
                          pending: set<AllocObject>)
  {
    live0 <= live <= o.Keys && Sound(o, w, roots, live0, live, pending) && Complete(o, w, roots, live, pending)
  }

  /** Every live object refers to live objects only: so between batches. */
  ghost predicate Closed(o: Heap, w: Scan, live: set<int>)
  {
    live <= o.Keys && forall k | k in live && k in o :: Covered(o, w, live, k, o[k].bytes)
  }

  /** Roots that are heap objects give the size that is recorded. */
  ghost predicate RootsOk(o: Heap, roots: set<AllocObject>)
  {
    forall r | r in roots ::
      r.size >= 0 && (r.place.MustBeOnHeap? ==> r.ptr in o && r.size == o[r.ptr].bytes)
  }

  lemma FloodStarts(o: Heap, w: Scan, live: set<int>, roots: set<AllocObject>)
    requires Closed(o, w, live)
    ensures FloodOk(o, w, roots, live, live, roots)
  {
    hide Covered;
  }

  /** A word of pending object x leads to object q. */
  lemma FloodFinds(o: Heap, w: Scan, roots: set<AllocObject>, live0: set<int>, live: set<int>,
                   pending: set<AllocObject>,
                   x: AllocObject, q: int)
    requires FloodOk(o, w, roots, live0, live, pending)
    requires x in pending && Refers(o, w, x.ptr, x.size, q)
    ensures q in o && FloodOk(o, w, roots, live0, live + {q}, pending + {HeapObject(o, q)})
  {
    TargetIsObject(o, w, x.ptr, x.size, q);
    hide Refers;
    if x in roots {
      ReachRooted(o, w, roots, q);
    } else {
      ReachNext(o, w, roots, x.ptr, q);
    }
    hide Reach;
  }

  /** MarkAsLive on a popped root that must be on the heap. */
  lemma FloodMarksRoot(o: Heap, w: Scan, roots: set<AllocObject>, live0: set<int>, live: set<int>,
                       pending: set<AllocObject>,
                       x: AllocObject)
    requires FloodOk(o, w, roots, live0, live, pending) && RootsOk(o, roots)
    requires x in pending && x.place.MustBeOnHeap?
    ensures x.ptr in o && x.size == o[x.ptr].bytes
    ensures FloodOk(o, w, roots, live0, live + {x.ptr}, pending + {HeapObject(o, x.ptr)})
  {
    hide Refers;
    assert x in roots;
    ReachRooted(o, w, roots, x.ptr);
    hide Reach;
  }

  /** Once all its words have been followed, x need not wait any more. */
  lemma FloodFinishes(o: Heap, w: Scan, roots: set<AllocObject>, live0: set<int>, live: set<int>,
                      pending: set<AllocObject>, x: AllocObject, rest: set<AllocObject>)
    requires FloodOk(o, w, roots, live0, live, pending)
    requires Covered(o, w, live, x.ptr, x.size) && (x.place.MustBeOnHeap? ==> x.ptr in live)
    requires rest <= pending
    requires forall y | y in pending && y !in rest :: y == x || y == x.(place := IgnoredOnHeap)
    ensures FloodOk(o, w, roots, live0, live, rest)
  {
    hide Covered;
    hide Reach;
  }

  /** The outcome: live before, or reachable from the roots of this batch. */
  lemma FloodEnds(o: Heap, w: Scan, roots: set<AllocObject>, live0: set<int>, live: set<int>)
    requires FloodOk(o, w, roots, live0, live, {})
    ensures Closed(o, w, live)
    ensures forall q :: q in live <==> q in live0 || Reach(o, w, roots, q)
  {
    hide Covered;
    forall q | Reach(o, w, roots, q)
      ensures q in live
    {
      var path :| Path(o, w, roots, path) && path[|path| - 1] == q;
      ClosedHoldsPath(o, w, roots, live, path, |path| - 1);
    }
  }

  // ---------- Live bits in the table ----------

  ghost function LiveSet(o: Heap): (r: set<int>)
    ensures r <= o.Keys
  {
    set k | k in o && o[k].Live()
  }

  /** o differs from o0 in live bits only. */
  ghost predicate SameObjects(o: Heap, o0: Heap)
  {
    o.Keys == o0.Keys && forall k {:trigger o[k]} {:trigger o0[k]} | k in o0 ::
        o[k].bytes == o0[k].bytes && o[k] == o0[k].SetLive(o[k].Live())
  }

  /** The bytes of the objects of a set. */
  ghost function BytesOf(o: Heap, keys: set<int>): int
  {
    SumObjects(o - (o.Keys - keys), 0, Bytes)
  }

  lemma MarkingGrows(o: Heap, o0: Heap, q: int)
    requires SameObjects(o, o0) && q in o && !o[q].Live()
    ensures SameObjects(o[q := o[q].SetLive(true)], o0)
    ensures LiveSet(o[q := o[q].SetLive(true)]) == LiveSet(o) + {q} && q !in LiveSet(o)
    ensures BytesOf(o0, LiveSet(o) + {q}) == BytesOf(o0, LiveSet(o)) + o0[q].bytes
  {
    var live := LiveSet(o);
    var m := o0 - (o0.Keys - live);
    SumPut(m, 0, Bytes, q, o0[q]);
    assert o0 - (o0.Keys - (live + {q})) == m[q := o0[q]];
  }

  lemma SameCovers(o: Heap, o0: Heap, k: int, p: int)
    requires SameObjects(o, o0)
    ensures Covers(o, SizeOf, k, p) <==> Covers(o0, SizeOf, k, p)
  {
  }

  /** Lookups do not see the live bits. */
  lemma SameResolve(o: Heap, o0: Heap, maxSize: nat, p: int)
    requires SameObjects(o, o0) && NonOverlapping(o0, SizeOf)
    ensures NonOverlapping(o, SizeOf)
    ensures Resolve(o, SizeOf, maxSize, p) == Resolve(o0, SizeOf, maxSize, p)
  {
    hide InReach;
    forall a, b | a in o && b in o && a < b
      ensures a + SizeOf(o[a]) <= b
    {
      assert a + SizeOf(o0[a]) <= b;
    }
    forall j, k | Covers(o, SizeOf, j, p) && Covers(o0, SizeOf, k, p)
      ensures j == k
    {
      SameCovers(o, o0, j, p);
      CoverIsUnique(o0, SizeOf, j, k, p);
    }
    forall k
      ensures Covers(o, SizeOf, k, p) <==> Covers(o0, SizeOf, k, p)
    {
      SameCovers(o, o0, k, p);
    }
  }

  /** NewHook has widened the bounds around every recorded object. */
  ghost predicate InBounds(o: Heap, min: int, max: int)
  {
    min >= 0 && forall k | k in o :: min <= k && k + o[k].bytes <= max
  }

  /** The cheap test on a word turns down nothing that the lookup would find. */
  lemma FilterIsSafe(o: Heap, min: int, max: int, maxSize: nat, word: int)
    requires InBounds(o, min, max) && Resolve(o, SizeOf, maxSize, word).Some?
    ensures min <= word <= max
  {
  }

  /** The first multiple of align at or after p. */
  lemma AlignUp(align: int, p: int, a: int)
    requires align > 0 && p % align != 0
    ensures (p + align - p % align) % align == 0
    ensures a >= p && a % align == 0 ==> a >= p + align - p % align
  {
    Quotient(align, p);
    RemainderOf(align, p / align);
    RemainderOf(align, p / align + 1);
    assert (p / align + 1) * align == p / align * align + align;
    if a >= p && a % align == 0 {
      NextAligned(align, p - p % align, a);
    }
  }

  /** Every word of [p, end) before object has been followed. */
  ghost predicate ScannedTo(o: Heap, w: Scan, live: set<int>, p: int, size: int, object_: int)
  {
    forall a {:trigger Word(w.align, p, size, a)} | Word(w.align, p, size, a) && a < object_ ::
      Target(o, w, a).Some? ==> Target(o, w, a).value in live
  }

  lemma ScannedIsCovered(o: Heap, w: Scan, live: set<int>, p: int, size: int, object_: int)
    requires ScannedTo(o, w, live, p, size, object_)
    requires forall a | Word(w.align, p, size, a) :: a < object_
    ensures Covered(o, w, live, p, size)
  {
  }

  /** One word on: the words at align apart, none between. */
  lemma ScannedNext(o: Heap, w: Scan, live: set<int>, p: int, size: int, object_: int, live': set<int>)
    requires w.align > 0 && object_ % w.align == 0
    requires ScannedTo(o, w, live, p, size, object_) && live <= live'
    requires Target(o, w, object_).Some? ==> Target(o, w, object_).value in live'
    ensures ScannedTo(o, w, live', p, size, object_ + w.align) && (object_ + w.align) % w.align == 0
  {
    hide Target;
    RemainderOfNext(w.align, object_);
    forall a | Word(w.align, p, size, a) && a < object_ + w.align
      ensures Target(o, w, a).Some? ==> Target(o, w, a).value in live'
    {
      if a > object_ {
        NextAligned(w.align, object_, a);
      }
    }
  }

  ghost function Elems(s: seq<AllocObject>): set<AllocObject>
  {
    set x | x in s
  }

  lemma ElemsPush(s: seq<AllocObject>, t: seq<AllocObject>)
    ensures Elems(s + t) == Elems(s) + Elems(t)
  {
  }

  /** What following a word that leads to t does to the objects and the stack. */
  predicate Fresh(o: Heap, t: Option<int>)
  {
    t.Some? && t.value in o && !o[t.value].Live()
  }

  function Marked(o: Heap, t: Option<int>): Heap
  {
    if Fresh(o, t) then o[t.value := o[t.value].SetLive(true)] else o
  }

  function Pushed(o: Heap, t: Option<int>): seq<AllocObject>
  {
    if Fresh(o, t) then [HeapObject(o, t.value)] else []
  }

  ghost predicate Flooding(o: Heap, o0: Heap, w: Scan, roots: set<AllocObject>, live0: set<int>,
                           pending: set<AllocObject>)
  {
    SameObjects(o, o0) && FloodOk(o0, w, roots, live0, LiveSet(o), pending)
  }

  /** The counters follow the live set. */
  ghost predicate Tallied(o: Heap, o0: Heap, was: set<int>, count: int, bytes: int)
  {
    && was <= LiveSet(o) && count == |LiveSet(o)| - |was|
    && bytes == BytesOf(o0, LiveSet(o)) - BytesOf(o0, was)
  }

  lemma MarkTallies(o: Heap, o0: Heap, q: int, was: set<int>, count: int, bytes: int)
    requires SameObjects(o, o0) && q in o && !o[q].Live() && Tallied(o, o0, was, count, bytes)
    ensures Tallied(o[q := o[q].SetLive(true)], o0, was, count + 1, bytes + o[q].bytes)
  {
    MarkingGrows(o, o0, q);
    hide BytesOf;
    hide LiveSet;
  }

  lemma FollowKeepsFlood(o: Heap, o0: Heap, w: Scan, roots: set<AllocObject>, live0: set<int>,
                         pending: set<AllocObject>,
                         x: AllocObject, a: int, t: Option<int>)
    requires Flooding(o, o0, w, roots, live0, pending) && NonOverlapping(o0, SizeOf) && w.maxSize >= 0
    requires x in pending && Word(w.align, x.ptr, x.size, a) && t == Resolve(o, SizeOf, w.maxSize, w.load(a))
    ensures t == Target(o0, w, a)
    ensures t.Some? ==> t.value in LiveSet(Marked(o, t))
    ensures LiveSet(o) <= LiveSet(Marked(o, t))
    ensures Flooding(Marked(o, t), o0, w, roots, live0, pending + Elems(Pushed(o, t)))
  {
    SameResolve(o, o0, w.maxSize, w.load(a));
    hide NonOverlapping;
    hide FloodOk;
    if Fresh(o, t) {
      var q := t.value;
      FloodFinds(o0, w, roots, live0, LiveSet(o), pending, x, q);
      MarkingGrows(o, o0, q);
      assert Elems(Pushed(o, t)) == {HeapObject(o0, q)};
    } else {
      assert pending + Elems(Pushed(o, t)) == pending;
    }
  }

  lemma FollowTallies(o: Heap, o0: Heap, t: Option<int>, was: set<int>, count: int, bytes: int)
    requires SameObjects(o, o0) && Tallied(o, o0, was, count, bytes) && (t.Some? ==> t.value in o)
    ensures Tallied(Marked(o, t), o0, was, count + if Fresh(o, t) then 1 else 0,
                    bytes + if Fresh(o, t) then o[t.value].bytes else 0)
  {
    if Fresh(o, t) {
      MarkTallies(o, o0, t.value, was, count, bytes);
    }
  }

  lemma StartTally(o: Heap, o0: Heap)
    ensures Tallied(o, o0, LiveSet(o), 0, 0)
  {
  }

  lemma FloodIsSame(o: Heap, o0: Heap, w: Scan, roots: set<AllocObject>, live0: set<int>, pending: set<AllocObject>)
    requires Flooding(o, o0, w, roots, live0, pending)
    ensures SameObjects(o, o0)
  {
  }

  /** The flood starts at the first aligned address. */
  lemma NothingBefore(o: Heap, w: Scan, live: set<int>, p: int, size: int, object_: int)
    requires w.align > 0
    requires object_ == if p % w.align == 0 then p else p + w.align - p % w.align
    ensures object_ % w.align == 0 && object_ >= p && ScannedTo(o, w, live, p, size, object_)
  {
    if p % w.align != 0 {
      forall a
        ensures (p + w.align - p % w.align) % w.align == 0
        ensures a >= p && a % w.align == 0 ==> a >= object_
      {
        AlignUp(w.align, p, a);
      }
    }
  }

  lemma TallyOn(o: Heap, o': Heap, o0: Heap, was: set<int>, count: int, bytes: int, c: int, b: int)
    requires Tallied(o, o0, was, count, bytes) && Tallied(o', o0, LiveSet(o), c, b)
    ensures Tallied(o', o0, was, count + c, bytes + b)
    ensures LiveSet(o) <= LiveSet(o') && |LiveSet(o')| == |LiveSet(o)| + c
  {
  }

  lemma StartFlooding(o: Heap, o0: Heap, w: Scan, roots: set<AllocObject>)
    requires SameObjects(o, o0) && Closed(o0, w, LiveSet(o))
    ensures Flooding(o, o0, w, roots, LiveSet(o), roots)
  {
    FloodStarts(o0, w, LiveSet(o), roots);
  }

  /** Popping x, and marking it if it is a root on the heap: popped stands for x. */
  lemma PopKeepsFlood(o: Heap, o0: Heap, w: Scan, roots: set<AllocObject>, live0: set<int>, stack: seq<AllocObject>,
                      x: AllocObject,
                      min: int, max: int)
      returns (popped: set<AllocObject>)
    requires Flooding(o, o0, w, roots, live0, Elems(stack + [x])) && RootsOk(o0, roots) && InBounds(o0, min, max)
    ensures x in popped && x.size >= 0 && (x.place.MustBeOnHeap? ==> x.ptr >= 0)
    ensures forall y | y in popped :: y == x || y == x.(place := IgnoredOnHeap)
    ensures var t := if x.place.MustBeOnHeap? then Some(x.ptr) else None;
            && Flooding(Marked(o, t), o0, w, roots, live0, Elems(stack) + popped)
            && Tallied(Marked(o, t), o0, LiveSet(o), if Fresh(o, t) then 1 else 0, if Fresh(o, t) then x.size else 0)
            && (x.place.MustBeOnHeap? ==> x.ptr in LiveSet(Marked(o, t)))
  {
    hide Tallied;
    hide LiveSet;
    hide InBounds;
    PendingIsSized(o, o0, w, roots, live0, Elems(stack + [x]), x);
    hide Flooding;
    hide RootsOk;
    ElemsPush(stack, [x]);
    assert Elems([x]) == {x};
    StartTally(o, o0);
    popped := {x};
    if x.place.MustBeOnHeap? {
      popped := {x, x.(place := IgnoredOnHeap)};
      MarkRootKeepsFlood(o, o0, w, roots, live0, Elems(stack + [x]), x, min, max);
      assert Elems(stack) + popped == Elems(stack + [x]) + {HeapObject(o0, x.ptr)};
      FollowTallies(o, o0, Some(x.ptr), LiveSet(o), 0, 0);
    }
  }

  lemma PendingIsSized(o: Heap, o0: Heap, w: Scan, roots: set<AllocObject>, live0: set<int>,
                       pending: set<AllocObject>, x: AllocObject)
    requires Flooding(o, o0, w, roots, live0, pending) && RootsOk(o0, roots) && x in pending
    ensures SameObjects(o, o0) && x.size >= 0
  {
    hide Reach;
  }

  lemma MarkRootKeepsFlood(o: Heap, o0: Heap, w: Scan, roots: set<AllocObject>, live0: set<int>,
                           pending: set<AllocObject>,
                           x: AllocObject, min: int, max: int)
    requires Flooding(o, o0, w, roots, live0, pending) && RootsOk(o0, roots) && InBounds(o0, min, max)
    requires x in pending && x.place.MustBeOnHeap?
    ensures x.ptr >= 0 && x.ptr in o && x.ptr in o0 && x.size == o[x.ptr].bytes == o0[x.ptr].bytes
    ensures Flooding(Marked(o, Some(x.ptr)), o0, w, roots, live0, pending + {HeapObject(o0, x.ptr)})
    ensures x.ptr in LiveSet(Marked(o, Some(x.ptr)))
  {
    FloodMarksRoot(o0, w, roots, live0, LiveSet(o), pending, x);
    hide FloodOk;
    assert o[x.ptr].bytes == o0[x.ptr].bytes;
    if Fresh(o, Some(x.ptr)) {
      MarkingGrows(o, o0, x.ptr);
    } else {
      assert LiveSet(o) + {x.ptr} == LiveSet(o);
    }
  }

  lemma FinishFlooding(o: Heap, o0: Heap, w: Scan, roots: set<AllocObject>, live0: set<int>,
                       popped: set<AllocObject>, x: AllocObject, stack: seq<AllocObject>)
    requires Flooding(o, o0, w, roots, live0, Elems(stack) + popped)
    requires Covered(o0, w, LiveSet(o), x.ptr, x.size) && (x.place.MustBeOnHeap? ==> x.ptr in LiveSet(o))
    requires forall y | y in popped :: y == x || y == x.(place := IgnoredOnHeap)
    ensures Flooding(o, o0, w, roots, live0, Elems(stack))
  {
    FloodFinishes(o0, w, roots, live0, LiveSet(o), Elems(stack) + popped, x, Elems(stack));
  }

  lemma EndFlooding(o: Heap, o0: Heap, w: Scan, roots: set<AllocObject>, live0: set<int>)
    requires Flooding(o, o0, w, roots, live0, Elems([]))
    ensures SameObjects(o, o0) && Closed(o0, w, LiveSet(o))
    ensures forall q :: q in LiveSet(o) <==> q in live0 || Reach(o0, w, roots, q)
  {
    assert Elems([]) == {};
    FloodEnds(o0, w, roots, live0, LiveSet(o));
  }

  /** What bounds the flood: marks only ever grow. */
  lemma LiveFits(o: Heap, o0: Heap, w: Scan, roots: set<AllocObject>, live0: set<int>, pending: set<AllocObject>)
    requires Flooding(o, o0, w, roots, live0, pending)
    ensures |LiveSet(o)| <= |o0|
  {
    SmallerSet(LiveSet(o), o0.Keys);
  }

  lemma SameIsFloodable(o: Heap, o0: Heap, min: int, max: int)
    requires SameObjects(o, o0) && InBounds(o0, min, max) && NonOverlapping(o0, SizeOf)
    ensures InBounds(o, min, max) && NonOverlapping(o, SizeOf)
  {
    SameResolve(o, o0, 0, 0);
    forall k | k in o
      ensures min <= k && k + o[k].bytes <= max
    {
      assert o[k].bytes == o0[k].bytes;
    }
  }

  // ---------- A whole check ----------

  /** What IterateAllocs shows of an object; the bucket stands for its call stack. */
  datatype AllocInfo = AllocInfo(objectSize: int, bucket: int, ignored: bool)

  function InfoOf(v: AllocValue): AllocInfo
  {
    AllocInfo(v.bytes, v.Slot(), v.Ignore())
  }

  function MustBeLive(o: Heap, k: int): AllocObject
    requires k in o
  {
    AllocObject(k, o[k].bytes, MustBeOnHeap)
  }

  ghost function Picked(o: Heap, pick: (int, AllocInfo) -> bool): set<AllocObject>
  {
    set k | k in o && pick(k, InfoOf(o[k])) :: MustBeLive(o, k)
  }

  ghost function PickedOf(o: Heap, pick: (int, AllocInfo) -> bool, visited: seq<int>): set<AllocObject>
  {
    set k | k in visited && k in o && pick(k, InfoOf(o[k])) :: MustBeLive(o, k)
  }

  lemma SameStillThere(o: Heap, o0: Heap, ignored: seq<(nat, nat)>)
    requires SameObjects(o, o0)
    ensures StillThere(o, ignored) <==> StillThere(o0, ignored)
    ensures StillThere(o, ignored) ==> RootsOk(o0, Elems(IgnoredRoots(ignored)))
    decreases ignored
  {
    forall i | 0 <= i < |ignored| && ignored[i].0 in o
      ensures o[ignored[i].0].bytes == o0[ignored[i].0].bytes
    {
    }
    if ignored != [] {
      var n := |ignored| - 1;
      SameStillThere(o, o0, ignored[..n]);
      assert StillThere(o, ignored) ==> StillThere(o, ignored[..n]);
    }
  }

  lemma StartPicking(o: Heap, pick: (int, AllocInfo) -> bool, visited: seq<int>)
    requires forall k {:trigger k in visited} :: k in visited <==> k in o
    ensures Elems([]) == PickedOf(o, pick, visited[..0])
    ensures PickedOf(o, pick, visited[..|visited|]) == Picked(o, pick)
  {
    assert visited[..|visited|] == visited;
  }

  lemma PickNext(o: Heap, o0: Heap, pick: (int, AllocInfo) -> bool, visited: seq<int>, i: nat, stack: seq<AllocObject>)
    requires SameObjects(o, o0) && i < |visited| && visited[i] in o
    requires Elems(stack) == PickedOf(o0, pick, visited[..i])
    ensures PickedOf(o0, pick, visited[..i + 1]) ==
            Elems(if pick(visited[i], InfoOf(o[visited[i]])) then stack + [MustBeLive(o, visited[i])] else stack)
  {
    var k := visited[i];
    assert visited[..i + 1] == visited[..i] + [k];
    assert InfoOf(o[k]) == InfoOf(o0[k]) && MustBeLive(o, k) == MustBeLive(o0, k);
    ElemsPush(stack, [MustBeLive(o, k)]);
    assert Elems([MustBeLive(o, k)]) == {MustBeLive(o, k)};
    PickedOfConcat(o0, pick, visited[..i], [k]);
    if pick(k, InfoOf(o0[k])) {
      assert PickedOf(o0, pick, [k]) == {MustBeLive(o0, k)};
    } else {
      assert PickedOf(o0, pick, [k]) == {};
    }
  }

  lemma PickedOfConcat(o: Heap, pick: (int, AllocInfo) -> bool, s: seq<int>, t: seq<int>)
    ensures PickedOf(o, pick, s + t) == PickedOf(o, pick, s) + PickedOf(o, pick, t)
  {
  }

  function IgnoredRoots(ignored: seq<(nat, nat)>): seq<AllocObject>
  {
    if ignored == [] then [] else
    var n := |ignored| - 1;
    IgnoredRoots(ignored[..n]) + [AllocObject(ignored[n].0, ignored[n].1, MustBeOnHeap)]
  }

  /** The object that IgnoreObject was told of is still there. */
  predicate StillThere(o: Heap, ignored: seq<(nat, nat)>)
  {
    forall i | 0 <= i < |ignored| :: ignored[i].0 in o && o[ignored[i].0].bytes == ignored[i].1
  }

  /** Global data: what each library has mapped, and the regions to be cut out of it. */
  datatype Globals = Globals(libraries: seq<seq<Mapped.Piece>>, regions: seq<Mapped.Region>, ranges: Mapped.Ranges)

  ghost predicate GlobalsOk(g: Globals)
  {
    && Mapped.RegionsOk(g.regions) && (g.ranges.Known? ==> Mapped.Ordered(g.ranges.ranges))
    && forall l | 0 <= l < |g.libraries| :: Mapped.Sized(g.libraries[l])
  }

  function AsObjects(s: seq<Mapped.Piece>, place: ObjectPlacement): seq<AllocObject>
  {
    if s == [] then [] else AsObjects(s[..|s| - 1], place) + [AllocObject(s[|s| - 1].ptr, s[|s| - 1].size, place)]
  }

  lemma {:induction false} ObjectsAre(s: seq<Mapped.Piece>, place: ObjectPlacement)
    ensures |AsObjects(s, place)| == |s|
    ensures forall i | 0 <= i < |s| :: AsObjects(s, place)[i] == AllocObject(s[i].ptr, s[i].size, place)
  {
    if s != [] {
      ObjectsAre(s[..|s| - 1], place);
    }
  }

  /** The roots in the first n libraries. */
  ghost function GlobalRoots(g: Globals, n: nat): set<AllocObject>
    requires n <= |g.libraries|
  {
    if n == 0 then {} else
    GlobalRoots(g, n - 1)
    + Elems(AsObjects(Mapped.Filtered(g.libraries[n - 1], g.regions, g.ranges), InGlobalData))
  }

  /** Some root holds the address. */
  ghost predicate Holding(roots: set<AllocObject>, a: int)
  {
    exists x :: x in roots && x.ptr <= a < x.ptr + x.size
  }

  lemma NoRoots(a: int)
    ensures !Holding({}, a)
  {
  }

  lemma HoldingUnion(s: set<AllocObject>, t: set<AllocObject>, a: int)
    ensures Holding(s + t, a) <==> Holding(s, a) || Holding(t, a)
  {
  }

  lemma ObjectsHold(t: seq<Mapped.Piece>, a: int)
    ensures Holding(Elems(AsObjects(t, InGlobalData)), a) <==> Mapped.Holds(t, a)
  {
    ObjectsAre(t, InGlobalData);
    if Mapped.Holds(t, a) {
      var i :| 0 <= i < |t| && Mapped.In(t[i], a);
      assert AsObjects(t, InGlobalData)[i] in Elems(AsObjects(t, InGlobalData));
    }
  }

  ghost predicate CutOut(g: Globals, a: int)
  {
    exists i :: 0 <= i < |g.regions| && Mapped.Subtracted(g.regions[i], g.ranges) && Mapped.InRegion(g.regions[i], a)
  }

  lemma LibraryHolds(g: Globals, l: nat, a: int)
    requires l < |g.libraries| && GlobalsOk(g)
    ensures Mapped.Holds(Mapped.Filtered(g.libraries[l], g.regions, g.ranges), a) <==>
            Mapped.Holds(g.libraries[l], a) && !CutOut(g, a)
  {
    Mapped.FilteredIsExact(g.libraries[l], g.regions, g.ranges);
  }

  /** An address is in some global root exactly when some library has mapped it and no
      subtracted region holds it. */
  lemma {:induction false} GlobalRootsAre(g: Globals, n: nat, a: int)
    requires n <= |g.libraries| && GlobalsOk(g)
    ensures Holding(GlobalRoots(g, n), a)
            <==> (exists l :: 0 <= l < n && Mapped.Holds(g.libraries[l], a)) && !CutOut(g, a)
  {
    hide GlobalsOk;
    hide Mapped.Filtered;
    hide Mapped.Holds;
    hide CutOut;
    hide Holding;
    hide Elems;
    NoRoots(a);
    if n > 0 {
      GlobalRootsAre(g, n - 1, a);
      var t := Mapped.Filtered(g.libraries[n - 1], g.regions, g.ranges);
      LibraryHolds(g, n - 1, a);
      ObjectsHold(t, a);
      HoldingUnion(GlobalRoots(g, n - 1), Elems(AsObjects(t, InGlobalData)), a);
      assert (exists l :: 0 <= l < n && Mapped.Holds(g.libraries[l], a)) <==>
             (exists l :: 0 <= l < n - 1 && Mapped.Holds(g.libraries[l], a)) || Mapped.Holds(g.libraries[n - 1], a);
    }
  }

  /** The stacks: the tops of those of the other threads, with their saved registers if
      there are any, and the top of the checking thread's own. */
  datatype Stacks = Stacks(others: seq<int>, registers: seq<AllocObject>, self: int, growsDown: bool)

  /** Where a check gets its roots from: stacks and registers, ignored objects, objects of
      disabled code, global data. */
  datatype Roots = Roots(
    stacks: Stacks, ignored: seq<(nat, nat)>, disabled: (int, AllocInfo) -> bool, globals: Globals)

  /** After the stacks of the other threads have been registered. */
  function AtOthers(r: Roots): Mapped.Mapping
  {
    Mapped.RegisteredAll(Mapped.Mapping([], r.globals.regions, r.globals.libraries), r.stacks.others,
                         r.stacks.growsDown)
  }

  /** And then the checking thread's own. */
  function AtSelf(r: Roots): Mapped.Mapping
  {
    Mapped.Registered(AtOthers(r).(live := []), r.stacks.self, r.stacks.growsDown)
  }

  lemma AtIs(r: Roots)
    ensures AtOthers(r) == Mapped.RegisteredAll(Mapped.Mapping([], r.globals.regions, r.globals.libraries),
                                                r.stacks.others, r.stacks.growsDown)
    ensures AtSelf(r) == Mapped.Registered(AtOthers(r).(live := []), r.stacks.self, r.stacks.growsDown)
  {
  }

  /** The libraries without the stacks, and the regions with the stacks marked. */
  function RestOfGlobals(r: Roots): Globals
  {
    Globals(AtSelf(r).libs, AtSelf(r).regions, r.globals.ranges)
  }

  ghost function StackRoots(r: Roots): set<AllocObject>
  {
    {} + Elems(AsObjects(AtOthers(r).live, ThreadData)) + Elems(r.stacks.registers)
    + Elems(AsObjects(AtSelf(r).live, ThreadData))
  }

  /** What the process maps and the registers are like. */
  ghost predicate RootsGiven(r: Roots)
  {
    && Mapped.MappingOk(Mapped.Mapping([], r.globals.regions, r.globals.libraries))
    && (r.globals.ranges.Known? ==> Mapped.Ordered(r.globals.ranges.ranges))
    && forall x | x in r.stacks.registers :: x.size >= 0 && !x.place.MustBeOnHeap?
  }

  lemma RegisteredRoots(o: Heap, r: Roots)
    requires RootsGiven(r)
    ensures GlobalsOk(RestOfGlobals(r))
    ensures RootsOk(o, Elems(AsObjects(AtOthers(r).live, ThreadData)))
    ensures RootsOk(o, Elems(r.stacks.registers))
    ensures RootsOk(o, Elems(AsObjects(AtSelf(r).live, ThreadData)))
  {
    hide Mapped.Registered;
    hide Mapped.RegisteredAll;
    hide Mapped.Found;
    hide Mapped.FirstLibrary;
    hide Mapped.Chopped;
    hide AsObjects;
    Mapped.RegisteredAllIsOk(Mapped.Mapping([], r.globals.regions, r.globals.libraries), r.stacks.others,
                             r.stacks.growsDown);
    Mapped.RegisteredIsOk(AtOthers(r).(live := []), r.stacks.self, r.stacks.growsDown);
    ObjectsAre(AtOthers(r).live, ThreadData);
    ObjectsAre(AtSelf(r).live, ThreadData);
  }

  const MARKED_AS_IGNORED: (int, AllocInfo) -> bool := (p: int, i: AllocInfo) => i.ignored

  ghost function AllRoots(o: Heap, r: Roots): set<AllocObject>
  {
    StackRoots(r) + Elems(IgnoredRoots(r.ignored)) + Picked(o, MARKED_AS_IGNORED) + Picked(o, r.disabled)
    + GlobalRoots(RestOfGlobals(r), |RestOfGlobals(r).libraries|)
  }

  /** After the batches of roots: the live objects are the reachable ones, and counted. */
  ghost predicate Flooded(o: Heap, o0: Heap, w: Scan, roots: set<AllocObject>, count: int, bytes: int)
  {
    && SameObjects(o, o0) && (forall q :: q in LiveSet(o) <==> Reach(o0, w, roots, q))
    && count == |LiveSet(o)| && bytes == BytesOf(o0, LiveSet(o))
  }

  lemma FloodedIsClosed(o: Heap, o0: Heap, w: Scan, roots: set<AllocObject>, count: int, bytes: int)
    requires Flooded(o, o0, w, roots, count, bytes)
    ensures SameObjects(o, o0) && Closed(o0, w, LiveSet(o))
  {
    hide Reach;
    hide Refers;
    forall k, q | k in LiveSet(o) && Refers(o0, w, k, o0[k].bytes, q)
      ensures q in LiveSet(o)
    {
      ReachNext(o0, w, roots, k, q);
    }
  }

  lemma FloodedIsSame(o: Heap, o0: Heap, w: Scan, roots: set<AllocObject>, count: int, bytes: int)
    requires Flooded(o, o0, w, roots, count, bytes)
    ensures SameObjects(o, o0)
  {
  }

  lemma NothingFlooded(o: Heap, w: Scan)
    requires LiveSet(o) == {}
    ensures Flooded(o, o, w, {}, 0, 0)
  {
    hide Refers;
    assert o - o.Keys == map[];
    forall q
      ensures !Reach(o, w, {}, q)
    {
      forall path
        ensures !Path(o, w, {}, path)
      {
      }
    }
  }

  lemma NextFlooded(o: Heap, o': Heap, o0: Heap, w: Scan, roots: set<AllocObject>, batch: set<AllocObject>,
                    count: int, bytes: int, c: int, b: int)
    requires Flooded(o, o0, w, roots, count, bytes) && SameObjects(o', o0)
    requires forall q :: q in LiveSet(o') <==> q in LiveSet(o) || Reach(o0, w, batch, q)
    requires Tallied(o', o0, LiveSet(o), c, b)
    ensures Flooded(o', o0, w, roots + batch, count + c, bytes + b)
  {
    hide Reach;
    hide LiveSet;
    hide BytesOf;
    hide SameObjects;
    forall q
      ensures Reach(o0, w, roots + batch, q) <==> Reach(o0, w, roots, q) || Reach(o0, w, batch, q)
    {
      ReachUnion(o0, w, roots, batch, q);
    }
  }

  /** The flag caps the size as an unsigned 64-bit number, unless it is -1. So no other
      negative flag caps a size below half of the address space either. */
  function CappedSize(offset: int, maxObjectSize: int): (r: int)
    requires -0x8000_0000_0000_0000 <= offset && maxObjectSize >= 0
    ensures 0 <= r <= maxObjectSize
    ensures offset == -1 ==> r == maxObjectSize
    ensures 0 <= offset ==> r <= offset && (r == offset || r == maxObjectSize)
    ensures offset < -1 ==> r == if maxObjectSize <= offset + 0x1_0000_0000_0000_0000 then maxObjectSize
                                 else offset + 0x1_0000_0000_0000_0000
    ensures offset < 0 && maxObjectSize < 0x8000_0000_0000_0000 ==> r == maxObjectSize
  {
    var limit := if offset < 0 then offset + 0x1_0000_0000_0000_0000 else offset;
    if offset != -1 && limit < maxObjectSize then limit else maxObjectSize
  }

  /** Nothing is live, and the bounds hold every recorded object. */
  ghost predicate Quiet(o: Heap, min: int, max: int, maxSize: int)
  {
    InBounds(o, min, max) && maxSize >= 0 && forall k {:trigger o[k]} | k in o :: o[k].bytes <= maxSize && !o[k].Live()
  }

  lemma WiderIsQuiet(o: Heap, min: int, max: int, maxSize: int, ptr: nat, size: nat)
    requires Quiet(o, min, max, maxSize)
    ensures Quiet(o, if ptr < min then ptr else min, if ptr + size > max then ptr + size else max,
                  if size > maxSize then size else maxSize)
  {
  }

  /** The place of a new object: apart from every other object. */
  ghost predicate Fits(o: Heap, ptr: int, size: nat)
  {
    forall k | k in o && k != ptr :: if k < ptr then k + o[k].bytes <= ptr else ptr + size <= k
  }

  lemma RecordingIsQuiet(o: Heap, min: int, max: int, maxSize: int, ptr: int, v: AllocValue)
    requires Quiet(o, min, max, maxSize) && min <= ptr && ptr + v.bytes <= max && v.bytes <= maxSize && !v.Live()
    ensures Quiet(o[ptr := v], min, max, maxSize)
    ensures NonOverlapping(o, SizeOf) ==> (NonOverlapping(o[ptr := v], SizeOf) <==> Fits(o, ptr, v.bytes))
  {
    var o' := o[ptr := v];
    if NonOverlapping(o', SizeOf) {
      forall k | k in o && k != ptr
        ensures if k < ptr then k + o[k].bytes <= ptr else ptr + v.bytes <= k
      {
        assert k in o' && ptr in o' && o'[k] == o[k] && o'[ptr] == v;
        assert k < ptr ==> k + SizeOf(o'[k]) <= ptr;
        assert ptr < k ==> ptr + SizeOf(o'[ptr]) <= k;
      }
    }
    if NonOverlapping(o, SizeOf) && Fits(o, ptr, v.bytes) {
      forall a, b | a in o' && b in o' && a < b
        ensures a + SizeOf(o'[a]) <= b
      {
        if a != ptr && b != ptr {
          assert a + SizeOf(o[a]) <= b;
        }
      }
    }
  }

  /** What NewHook records: the object, and whether a Disabler was active. */
  function Hooked(s: Profile, ptr: nat, size: nat, stack: Stack, ignore: bool): Profile
    requires WellFormed(s)
  {
    var recorded := Step(s, Alloc(ptr, size, stack));
    if ignore then Step(recorded, MarkIgnored(ptr)) else recorded
  }

  lemma HookedObjects(s: Profile, ptr: nat, size: nat, stack: Stack, ignore: bool) returns (v: AllocValue)
    requires WellFormed(s)
    ensures Hooked(s, ptr, size, stack, ignore).objects == s.objects[ptr := v]
    ensures v.bytes == size && !v.Live() && v.Ignore() == ignore
  {
    v := Hooked(s, ptr, size, stack, ignore).objects[ptr];
  }

  ghost function BaseKeys(base: Snapshot?): set<int>
    reads if base == null then {} else {base.map_}
  {
    if base == null then {} else base.map_.Contents.Keys
  }

  /** What a check ought to report: the recorded objects that are not reachable
      from the roots and were not there at the start. */
  ghost function Leaks(o: Heap, w: Scan, r: Roots, base: set<int>): Heap
  {
    map k | k in o && !Reach(o, w, AllRoots(o, r), k) && k !in base :: o[k]
  }

  lemma QuietHasNoLive(o: Heap, min: int, max: int, maxSize: int)
    requires Quiet(o, min, max, maxSize)
    ensures LiveSet(o) == {}
  {
    forall k
      ensures k !in LiveSet(o)
    {
      assert k in o ==> !o[k].Live();
    }
  }

  /** What NonLiveSnapshot leaves behind: as before the flood. */
  lemma BitsAreCleared(o: Heap, o': Heap, o2: Heap)
    requires SameObjects(o', o) && forall k {:trigger o[k]} | k in o :: !o[k].Live()
    requires o2.Keys == o'.Keys && forall p {:trigger o2[p]} | p in o2 :: o2[p] == o'[p].SetLive(false)
    ensures o2 == o
  {
    forall p | p in o
      ensures o2[p] == o[p]
    {
      assert o'[p] == o[p].SetLive(o'[p].Live());
      assert o2[p] == o'[p].SetLive(false);
    }
  }

  lemma SnapshotIsLeaks(o: Heap, o': Heap, w: Scan, r: Roots, base: set<int>, count: int, bytes: int, leaks: Heap)
    requires Flooded(o', o, w, AllRoots(o, r), count, bytes) && forall k {:trigger o[k]} | k in o :: !o[k].Live()
    requires forall p {:trigger p in leaks} :: p in leaks <==> Reported(o', base, p)
    requires forall p {:trigger leaks[p]} | p in leaks :: p in o' && leaks[p] == o'[p]
    ensures leaks == Leaks(o, w, r, base)
  {
    hide Reach;
    hide AllRoots;
    var roots := AllRoots(o, r);
    forall p
      ensures p in leaks <==> p in o && !Reach(o, w, roots, p) && p !in base
      ensures p in leaks ==> leaks[p] == o[p]
    {
      assert p in LiveSet(o') <==> Reach(o, w, roots, p);
      if p in o {
        assert o'[p] == o[p].SetLive(o'[p].Live());
      }
      assert p in leaks <==> Reported(o', base, p);
      if p in leaks {
        assert leaks[p] == o'[p];
      }
    }
  }

  class HeapLeakChecker {
    const profile: HeapProfileTable
    var on: bool
    var minAddress: int
    var maxAddress: int
    var maxObjectSize: int
    var alignment: int
    var liveObjects: seq<AllocObject>
    var liveObjectsTotal: int
    var liveBytesTotal: int

    ghost function Objects(): Heap
      reads profile.addressMap
    {
      profile.addressMap.Contents
    }

    constructor (hash: Stack -> int, on: bool)
      ensures Valid() && fresh(profile) && fresh(profile.addressMap) && profile.View() == EMPTY && this.on == on
    {
      profile := new HeapProfileTable(hash);
      this.on := on;
      minAddress, maxAddress, maxObjectSize := 0xFFFF_FFFF_FFFF_FFFF, 0, 0;
      alignment := 8;
      liveObjects, liveObjectsTotal, liveBytesTotal := [], 0, 0;
    }

    /** What the flood needs: the table, the bounds around it, objects apart. */
    ghost predicate CanFlood()
      reads this, profile, profile.addressMap
    {
      && profile.Valid() && InBounds(Objects(), minAddress, maxAddress) && NonOverlapping(Objects(), SizeOf)
      && maxObjectSize >= 0 && alignment > 0
    }

    /** One word: the cheap filter, the lookup, the mark, the push. */
    method FollowWord(word: int) returns (count: int, bytes: int)
      requires CanFlood()
      modifies this`liveObjects, profile.addressMap
      ensures profile.Valid()
      ensures var o := old(Objects()); var t := Resolve(o, SizeOf, maxObjectSize, word);
              && Objects() == Marked(o, t) && liveObjects == old(liveObjects) + Pushed(o, t)
              && (t.Some? ==> t.value in o)
              && count == (if Fresh(o, t) then 1 else 0) && bytes == (if Fresh(o, t) then o[t.value].bytes else 0)
    {
      hide HeapProfileTable.Valid;
      count, bytes := 0, 0;
      ghost var o := Objects();
      ghost var t := Resolve(o, SizeOf, maxObjectSize, word);
      if t.Some? {
        FilterIsSafe(o, minAddress, maxAddress, maxObjectSize, word);
      }
      if word <= maxAddress && minAddress <= word {
        var owner, size := profile.FindInsideAlloc(word, maxObjectSize);
        if owner.Some? {
          var marked := profile.MarkAsLive(owner.value);
          if marked {
            count, bytes := 1, size;
            liveObjects := liveObjects + [AllocObject(owner.value, size, IgnoredOnHeap)];
          }
        }
      }
    }
  
    /** What the flood reads at its current settings. */
    ghost function Reading(load: int -> int): Scan
      reads `alignment, `maxObjectSize
    {
      Scan(load, alignment, maxObjectSize)
    }

    /** All the words of a popped object x. */
    method ScanObject(load: int -> int, x: AllocObject, ghost o0: Heap, ghost roots: set<AllocObject>,
                      ghost live0: set<int>,
                      ghost popped: set<AllocObject>)
        returns (count: int, bytes: int)
      requires profile.Valid() && alignment > 0 && maxObjectSize >= 0 && x.size >= 0 && x in popped
      requires InBounds(o0, minAddress, maxAddress) && NonOverlapping(o0, SizeOf)
      requires Flooding(Objects(), o0, Reading(load), roots, live0, Elems(liveObjects) + popped)
      modifies this`liveObjects, profile.addressMap
      ensures profile.Valid()
      ensures Flooding(Objects(), o0, Reading(load), roots, live0, Elems(liveObjects) + popped)
      ensures Covered(o0, Reading(load), LiveSet(Objects()), x.ptr, x.size)
      ensures Tallied(Objects(), o0, LiveSet(old(Objects())), count, bytes)
      ensures count >= 0 && (count == 0 ==> liveObjects == old(liveObjects))
    {
      hide HeapProfileTable.Valid;
      hide Flooding;
      hide Tallied;
      hide ScannedTo;
      hide Covered;
      hide LiveSet;
      hide NonOverlapping;
      hide InBounds;
      hide SameObjects;
      hide Resolve;
      count, bytes := 0, 0;
      ghost var w := Reading(load);
      var object_, size := x.ptr, x.size;
      var remainder := object_ % alignment;
      if remainder != 0 {
        object_ := object_ + (alignment - remainder);
        size := if size >= alignment - remainder then size - (alignment - remainder) else 0;
      }
      NothingBefore(o0, w, LiveSet(Objects()), x.ptr, x.size, object_);
      StartTally(Objects(), o0);
      if size < 8 {
        ScannedIsCovered(o0, w, LiveSet(Objects()), x.ptr, x.size, object_);
        return;
      }
      var maxObject := object_ + size - 8;
      while object_ <= maxObject
        invariant profile.Valid()
        invariant object_ % alignment == 0 && object_ >= x.ptr && maxObject + 8 == x.ptr + x.size
        invariant Flooding(Objects(), o0, w, roots, live0, Elems(liveObjects) + popped)
        invariant ScannedTo(o0, w, LiveSet(Objects()), x.ptr, x.size, object_)
        invariant Tallied(Objects(), o0, LiveSet(old(Objects())), count, bytes)
        invariant count >= 0 && (count == 0 ==> liveObjects == old(liveObjects))
      {
        ghost var o := Objects();
        ghost var stack := liveObjects;
        FloodIsSame(o, o0, w, roots, live0, Elems(liveObjects) + popped);
        SameIsFloodable(o, o0, minAddress, maxAddress);
        var c, b := FollowWord(load(object_));
        ghost var t := Resolve(o, SizeOf, maxObjectSize, load(object_));
        FollowKeepsFlood(o, o0, w, roots, live0, Elems(stack) + popped, x, object_, t);
        ElemsPush(stack, Pushed(o, t));
        assert Elems(liveObjects) + popped == Elems(stack) + popped + Elems(Pushed(o, t));
        ScannedNext(o0, w, LiveSet(o), x.ptr, x.size, object_, LiveSet(Objects()));
        FollowTallies(o, o0, t, LiveSet(old(Objects())), count, bytes);
        count, bytes, object_ := count + c, bytes + b, object_ + alignment;
      }
      ScannedIsCovered(o0, w, LiveSet(Objects()), x.ptr, x.size, object_);
    }
  
    /** `place == MUST_BE_ON_HEAP && heap_profile->MarkAsLive(object)`, counted. */
    method MarkRoot(x: AllocObject) returns (count: int, bytes: int)
      requires profile.Valid() && (x.place.MustBeOnHeap? ==> x.ptr >= 0)
      modifies profile.addressMap
      ensures profile.Valid()
      ensures var o := old(Objects()); var t := if x.place.MustBeOnHeap? then Some(x.ptr) else None;
              Objects() == Marked(o, t) && count == (if Fresh(o, t) then 1 else 0)
                && bytes == (if Fresh(o, t) then x.size else 0)
    {
      hide HeapProfileTable.Valid;
      count, bytes := 0, 0;
      if x.place.MustBeOnHeap? {
        var marked := profile.MarkAsLive(x.ptr);
        if marked {
          count, bytes := 1, x.size;
        }
      }
    }

    /** One round of the flood: the last object of the stack. */
    method ScanTop(load: int -> int, ghost o0: Heap, ghost roots: set<AllocObject>, ghost live0: set<int>)
        returns (count: int, bytes: int)
      requires profile.Valid() && alignment > 0 && maxObjectSize >= 0 && liveObjects != []
      requires InBounds(o0, minAddress, maxAddress) && NonOverlapping(o0, SizeOf) && RootsOk(o0, roots)
      requires Flooding(Objects(), o0, Reading(load), roots, live0, Elems(liveObjects))
      modifies this`liveObjects, profile.addressMap
      ensures profile.Valid()
      ensures Flooding(Objects(), o0, Reading(load), roots, live0, Elems(liveObjects))
      ensures Tallied(Objects(), o0, LiveSet(old(Objects())), count, bytes)
      ensures count >= 0 && (count == 0 ==> |liveObjects| < |old(liveObjects)|)
    {
      hide HeapProfileTable.Valid;
      hide Flooding;
      hide Tallied;
      hide Covered;
      hide LiveSet;
      ghost var w := Reading(load);
      ghost var o := Objects();
      ghost var stack := liveObjects;
      var x := liveObjects[|liveObjects| - 1];
      liveObjects := liveObjects[..|liveObjects| - 1];
      assert stack == liveObjects + [x];
      ghost var popped := PopKeepsFlood(o, o0, w, roots, live0, liveObjects, x, minAddress, maxAddress);
      count, bytes := MarkRoot(x);
      ghost var o1 := Objects();
      StartTally(o, o0);
      TallyOn(o, o1, o0, LiveSet(o), 0, 0, count, bytes);
      var c, b := ScanObject(load, x, o0, roots, live0, popped);
      TallyOn(o1, Objects(), o0, LiveSet(o), count, bytes, c, b);
      FinishFlooding(Objects(), o0, w, roots, live0, popped, x, liveObjects);
      count, bytes := count + c, bytes + b;
    }

    /** Pops, marks and scans until the stack is empty. */
    method IgnoreLiveObjectsLocked(load: int -> int, ghost o0: Heap)
      requires profile.Valid() && alignment > 0 && maxObjectSize >= 0
      requires InBounds(o0, minAddress, maxAddress) && NonOverlapping(o0, SizeOf)
      requires SameObjects(Objects(), o0) && Closed(o0, Reading(load), LiveSet(Objects()))
      requires RootsOk(o0, Elems(liveObjects))
      modifies this`liveObjects, this`liveObjectsTotal, this`liveBytesTotal, profile.addressMap
      ensures profile.Valid() && liveObjects == []
      ensures SameObjects(Objects(), o0) && Closed(o0, Reading(load), LiveSet(Objects()))
      ensures forall q :: q in LiveSet(Objects()) <==>
                q in LiveSet(old(Objects())) || Reach(o0, Reading(load), Elems(old(liveObjects)), q)
      ensures Tallied(Objects(), o0, LiveSet(old(Objects())),
                      liveObjectsTotal - old(liveObjectsTotal), liveBytesTotal - old(liveBytesTotal))
    {
      hide HeapProfileTable.Valid;
      hide Flooding;
      hide Covered;
      hide LiveSet;
      hide NonOverlapping;
      hide InBounds;
      hide SameObjects;
      hide Reach;
      hide Closed;
      hide Tallied;
      ghost var w := Reading(load);
      ghost var roots := Elems(liveObjects);
      ghost var live0 := LiveSet(Objects());
      var count, bytes := 0, 0;
      StartFlooding(Objects(), o0, w, roots);
      StartTally(Objects(), o0);
      while liveObjects != []
        invariant profile.Valid()
        invariant Flooding(Objects(), o0, w, roots, live0, Elems(liveObjects))
        invariant Tallied(Objects(), o0, live0, count, bytes)
        modifies this`liveObjects, profile.addressMap
        decreases |o0| - |LiveSet(Objects())|, |liveObjects|
      {
        LiveFits(Objects(), o0, w, roots, live0, Elems(liveObjects));
        ghost var o := Objects();
        var c, b := ScanTop(load, o0, roots, live0);
        TallyOn(o, Objects(), o0, live0, count, bytes, c, b);
        LiveFits(Objects(), o0, w, roots, live0, Elems(liveObjects));
        count, bytes := count + c, bytes + b;
      }
      EndFlooding(Objects(), o0, w, roots, live0);
      assert Tallied(Objects(), o0, live0, count, bytes);
      liveObjectsTotal := liveObjectsTotal + count;
      liveBytesTotal := liveBytesTotal + bytes;
    }
  
    /** Between batches: the roots so far have been flooded. */
    ghost predicate BetweenBatches(load: int -> int, o0: Heap, roots: set<AllocObject>)
      reads `minAddress, `maxAddress, `maxObjectSize, `alignment, `liveObjectsTotal, `liveBytesTotal, profile,
            profile.addressMap
    {
      && profile.Valid() && alignment > 0 && maxObjectSize >= 0
      && InBounds(o0, minAddress, maxAddress) && NonOverlapping(o0, SizeOf)
      && Flooded(Objects(), o0, Reading(load), roots, liveObjectsTotal, liveBytesTotal)
    }

    /** One batch of roots on top of those before. */
    method FloodBatch(load: int -> int, ghost o0: Heap, ghost roots: set<AllocObject>)
      requires BetweenBatches(load, o0, roots) && RootsOk(o0, Elems(liveObjects))
      modifies this`liveObjects, this`liveObjectsTotal, this`liveBytesTotal, profile.addressMap
      ensures BetweenBatches(load, o0, roots + Elems(old(liveObjects))) && liveObjects == []
    {
      hide HeapProfileTable.Valid;
      hide Flooded;
      hide Closed;
      hide LiveSet;
      hide Tallied;
      hide Reach;
      hide SameObjects;
      ghost var o, batch, count, bytes := Objects(), Elems(liveObjects), liveObjectsTotal, liveBytesTotal;
      FloodedIsClosed(o, o0, Reading(load), roots, count, bytes);
      IgnoreLiveObjectsLocked(load, o0);
      NextFlooded(o, Objects(), o0, Reading(load), roots, batch, count, bytes,
                  liveObjectsTotal - count, liveBytesTotal - bytes);
    }

    /** The stacks and registers, in three batches. */
    method FloodStacks(load: int -> int, r: Roots, ghost o0: Heap) returns (g: Globals)
      requires BetweenBatches(load, o0, {}) && RootsGiven(r) && liveObjects == []
      modifies this`liveObjects, this`liveObjectsTotal, this`liveBytesTotal, profile.addressMap
      ensures BetweenBatches(load, o0, StackRoots(r)) && liveObjects == []
      ensures g == RestOfGlobals(r) && GlobalsOk(g)
    {
      hide HeapProfileTable.Valid;
      hide BetweenBatches;
      hide Elems;
      hide GlobalsOk;
      RegisteredRoots(o0, r);
      hide RootsGiven;
      hide RootsOk;
      hide Mapped.Registered;
      hide Mapped.RegisteredAll;
      hide AsObjects;
      hide AtSelf;
      hide AtOthers;
      AtIs(r);
      var m := Mapped.RegisterStacks(Mapped.Mapping([], r.globals.regions, r.globals.libraries), r.stacks.others,
                                     r.stacks.growsDown);
      assert m == AtOthers(r);
      FloodObjects(load, AsObjects(m.live, ThreadData), o0, {});
      ghost var others := {} + Elems(AsObjects(m.live, ThreadData));
      FloodRegisters(load, r.stacks.registers, o0, others);
      m := Mapped.RegisterStack(m.(live := []), r.stacks.self, r.stacks.growsDown);
      assert m == AtSelf(r);
      FloodObjects(load, AsObjects(m.live, ThreadData), o0, others + Elems(r.stacks.registers));
      assert others + Elems(r.stacks.registers) + Elems(AsObjects(m.live, ThreadData)) == StackRoots(r);
      g := Globals(m.libs, m.regions, r.globals.ranges);
    }

    method FloodObjects(load: int -> int, objects: seq<AllocObject>, ghost o0: Heap, ghost roots: set<AllocObject>)
      requires BetweenBatches(load, o0, roots) && RootsOk(o0, Elems(objects)) && liveObjects == []
      modifies this`liveObjects, this`liveObjectsTotal, this`liveBytesTotal, profile.addressMap
      ensures BetweenBatches(load, o0, roots + Elems(objects)) && liveObjects == []
    {
      hide BetweenBatches;
      liveObjects := objects;
      FloodBatch(load, o0, roots);
    }

    /** The registers are a batch if there are any. */
    method FloodRegisters(load: int -> int, registers: seq<AllocObject>, ghost o0: Heap, ghost roots: set<AllocObject>)
      requires BetweenBatches(load, o0, roots) && RootsOk(o0, Elems(registers)) && liveObjects == []
      modifies this`liveObjects, this`liveObjectsTotal, this`liveBytesTotal, profile.addressMap
      ensures BetweenBatches(load, o0, roots + Elems(registers)) && liveObjects == []
    {
      hide BetweenBatches;
      assert registers == [] ==> roots + Elems(registers) == roots;
      if registers != [] {
        FloodObjects(load, registers, o0, roots);
      }
    }

    /** For each library, what the regions leave of it. */
    method FloodGlobals(load: int -> int, g: Globals, ghost o0: Heap, ghost roots: set<AllocObject>)
      requires BetweenBatches(load, o0, roots) && GlobalsOk(g) && liveObjects == []
      modifies this`liveObjects, this`liveObjectsTotal, this`liveBytesTotal, profile.addressMap
      ensures BetweenBatches(load, o0, roots + GlobalRoots(g, |g.libraries|)) && liveObjects == []
    {
      hide BetweenBatches;
      hide Mapped.Filtered;
      assert roots + {} == roots;
      for l := 0 to |g.libraries|
        invariant BetweenBatches(load, o0, roots + GlobalRoots(g, l)) && liveObjects == []
      {
        var live, nullCallers := Mapped.FilterByRegions(g.libraries[l], g.regions, g.ranges);
        Mapped.FilteredIsSized(g.libraries[l], g.regions, g.ranges);
        ObjectsAre(live, InGlobalData);
        liveObjects := AsObjects(live, InGlobalData);
        FloodBatch(load, o0, roots + GlobalRoots(g, l));
        assert roots + GlobalRoots(g, l) + Elems(AsObjects(live, InGlobalData)) == roots + GlobalRoots(g, l + 1);
      }
    }

    /** IterateAllocs with a callback that pushes the objects it picks. */
    method PickRoots(pick: (int, AllocInfo) -> bool, ghost o0: Heap)
      requires profile.Valid() && SameObjects(Objects(), o0) && liveObjects == []
      modifies this`liveObjects
      ensures Elems(liveObjects) == Picked(o0, pick)
    {
      hide AddressMap.Valid;
      hide BucketsOk;
      hide WellFormed;
      hide Elems;
      hide PickedOf;
      var visited := profile.addressMap.Iterate();
      StartPicking(o0, pick, visited);
      for i := 0 to |visited|
        invariant Elems(liveObjects) == PickedOf(o0, pick, visited[..i])
      {
        var p := visited[i];
        assert p in visited;
        var e := profile.addressMap.FindMutable(p);
        var v := profile.addressMap.mem.entryValue[e];
        PickNext(Objects(), o0, pick, visited, i, liveObjects);
        if pick(p, InfoOf(v)) {
          liveObjects := liveObjects + [AllocObject(p, v.bytes, MustBeOnHeap)];
        }
      }
    }
  
    /** The objects that IgnoreObject named; a missing one is a fatal error. */
    method PushIgnored(ignored: seq<(nat, nat)>) returns (ok: bool)
      requires profile.Valid() && liveObjects == []
      modifies this`liveObjects
      ensures ok <==> StillThere(Objects(), ignored)
      ensures ok ==> liveObjects == IgnoredRoots(ignored)
    {
      hide HeapProfileTable.Valid;
      assert ignored[..0] == [];
      for i := 0 to |ignored|
        invariant liveObjects == IgnoredRoots(ignored[..i]) && StillThere(Objects(), ignored[..i])
      {
        liveObjects := liveObjects + [AllocObject(ignored[i].0, ignored[i].1, MustBeOnHeap)];
        var found, size := profile.FindAlloc(ignored[i].0);
        if !(found && ignored[i].1 == size) {
          return false;
        }
        assert ignored[..i + 1][..i] == ignored[..i];
      }
      assert ignored[..|ignored|] == ignored;
      return true;
    }

    method FloodIgnored(load: int -> int, ignored: seq<(nat, nat)>, ghost o0: Heap, ghost roots: set<AllocObject>)
        returns (ok: bool)
      requires BetweenBatches(load, o0, roots) && liveObjects == []
      modifies this`liveObjects, this`liveObjectsTotal, this`liveBytesTotal, profile.addressMap
      ensures ok <==> StillThere(o0, ignored)
      ensures ok ==> BetweenBatches(load, o0, roots + Elems(IgnoredRoots(ignored))) && liveObjects == []
    {
      hide HeapProfileTable.Valid;
      hide InBounds;
      hide NonOverlapping;
      FloodedIsClosed(Objects(), o0, Reading(load), roots, liveObjectsTotal, liveBytesTotal);
      hide Flooded;
      ok := PushIgnored(ignored);
      SameStillThere(Objects(), o0, ignored);
      if ok {
        FloodBatch(load, o0, roots);
      }
    }

    method FloodPicked(load: int -> int, pick: (int, AllocInfo) -> bool, ghost o0: Heap, ghost roots: set<AllocObject>)
      requires BetweenBatches(load, o0, roots) && liveObjects == []
      modifies this`liveObjects, this`liveObjectsTotal, this`liveBytesTotal, profile.addressMap
      ensures BetweenBatches(load, o0, roots + Picked(o0, pick)) && liveObjects == []
    {
      hide HeapProfileTable.Valid;
      hide InBounds;
      hide NonOverlapping;
      FloodedIsClosed(Objects(), o0, Reading(load), roots, liveObjectsTotal, liveBytesTotal);
      hide Flooded;
      PickRoots(pick, o0);
      FloodBatch(load, o0, roots);
    }

    /** Marks everything that the roots lead to. False stands for the fatal error. */
    method IgnoreAllLiveObjectsLocked(load: int -> int, maxPointerOffset: int, r: Roots) returns (ok: bool)
      requires CanFlood() && liveObjects == [] && LiveSet(Objects()) == {}
      requires -0x8000_0000_0000_0000 <= maxPointerOffset && RootsGiven(r)
      modifies this`liveObjects, this`liveObjectsTotal, this`liveBytesTotal, this`maxObjectSize, profile.addressMap
      ensures ok <==> StillThere(old(Objects()), r.ignored)
      ensures ok ==> profile.Valid() && liveObjects == [] && maxObjectSize == old(maxObjectSize)
      ensures ok ==> var o := old(Objects());
              var w := Scan(load, alignment, CappedSize(maxPointerOffset, maxObjectSize));
              Flooded(Objects(), o, w, AllRoots(o, r), liveObjectsTotal, liveBytesTotal)
    {
      hide HeapProfileTable.Valid;
      hide Flooded;
      ghost var o := Objects();
      liveObjectsTotal, liveBytesTotal := 0, 0;
      var oldMaxObjectSize := maxObjectSize;
      maxObjectSize := CappedSize(maxPointerOffset, maxObjectSize);
      NothingFlooded(o, Reading(load));
      ok := FloodAll(load, r, o);
      maxObjectSize := oldMaxObjectSize;
    }

    /** The batches in their order. */
    method FloodAll(load: int -> int, r: Roots, ghost o: Heap) returns (ok: bool)
      requires BetweenBatches(load, o, {}) && liveObjects == [] && RootsGiven(r)
      modifies this`liveObjects, this`liveObjectsTotal, this`liveBytesTotal, profile.addressMap
      ensures ok <==> StillThere(o, r.ignored)
      ensures ok ==> BetweenBatches(load, o, AllRoots(o, r)) && liveObjects == []
    {
      hide BetweenBatches;
      var globals := FloodStacks(load, r, o);
      ghost var roots := StackRoots(r);
      ok := FloodIgnored(load, r.ignored, o, roots);
      if ok {
        roots := roots + Elems(IgnoredRoots(r.ignored));
        FloodPicked(load, MARKED_AS_IGNORED, o, roots);
        roots := roots + Picked(o, MARKED_AS_IGNORED);
        FloodPicked(load, r.disabled, o, roots);
        roots := roots + Picked(o, r.disabled);
        FloodGlobals(load, globals, o, roots);
      }
    }
  
    // ---------- The hooks and the check ----------

    /** Between hooks and checks: bounds and sizes cover what is recorded, no live bits. */
    ghost predicate Valid()
      reads this, profile, profile.addressMap
    {
      && profile.Valid() && Quiet(Objects(), minAddress, maxAddress, maxObjectSize)
      && alignment > 0 && liveObjects == []
    }

    lemma ProfileIsWellFormed()
      requires profile.Valid()
      ensures WellFormed(profile.View()) && profile.View().objects == Objects()
    {
    }

    method NewHook(ptr: nat, size: nat, stack: Stack, ignore: bool)
      requires Valid()
      modifies this`minAddress, this`maxAddress, this`maxObjectSize, profile, profile.addressMap
      ensures Valid()
      ensures ptr != NULL && on ==>
                profile.View() == Hooked(old(profile.View()), ptr, size, stack, ignore)
      ensures ptr == NULL || !on ==> profile.View() == old(profile.View())
      ensures NonOverlapping(old(Objects()), SizeOf) && ptr != NULL && on ==>
                (NonOverlapping(Objects(), SizeOf) <==> Fits(old(Objects()), ptr, size))
    {
      hide HeapProfileTable.Valid;
      hide Quiet;
      hide NonOverlapping;
      hide Fits;
      hide Step;
      ProfileIsWellFormed();
      if ptr != NULL {
        WiderIsQuiet(Objects(), minAddress, maxAddress, maxObjectSize, ptr, size);
        if size > maxObjectSize {
          maxObjectSize := size;
        }
        if ptr < minAddress {
          minAddress := ptr;
        }
        if ptr + size > maxAddress {
          maxAddress := ptr + size;
        }
        if on {
          profile.RecordAlloc(ptr, size, stack);
          if ignore {
            profile.MarkAsIgnored(ptr);
          }
          ghost var v := HookedObjects(old(profile.View()), ptr, size, stack, ignore);
          RecordingIsQuiet(old(Objects()), minAddress, maxAddress, maxObjectSize, ptr, v);
        }
      }
    }

    method DeleteHook(ptr: nat)
      requires Valid()
      modifies profile, profile.addressMap
      ensures Valid()
      ensures profile.View() == if ptr != NULL && on then Step(old(profile.View()), Free(ptr)) else old(profile.View())
      ensures NonOverlapping(old(Objects()), SizeOf) ==> NonOverlapping(Objects(), SizeOf)
    {
      hide HeapProfileTable.Valid;
      if ptr != NULL && on {
        profile.RecordFree(ptr);
      }
    }

    /** The leak check: flood from the roots, take what is not live and not in base. */
    method FindLeaks(base: Snapshot?, load: int -> int, maxPointerOffset: int, r: Roots)
        returns (ok: bool, leaks: Snapshot)
      requires Valid() && NonOverlapping(Objects(), SizeOf)
               && (base != null ==> base.Valid() && base.map_ != profile.addressMap)
      requires -0x8000_0000_0000_0000 <= maxPointerOffset && RootsGiven(r)
      modifies this`liveObjects, this`liveObjectsTotal, this`liveBytesTotal, this`maxObjectSize, profile.addressMap
      ensures fresh(leaks) && fresh(leaks.map_) && leaks.Valid() && leaks.Exact()
      ensures ok <==> StillThere(old(Objects()), r.ignored)
      ensures ok ==> Valid() && Objects() == old(Objects()) && maxObjectSize == old(maxObjectSize)
      ensures ok ==> var o := old(Objects());
                leaks.map_.Contents
                  == Leaks(o, Scan(load, alignment, CappedSize(maxPointerOffset, maxObjectSize)), r, BaseKeys(base))
    {
      hide SumObjects;
      hide HeapProfileTable.Valid;
      hide AllRoots;
      hide RootsGiven;
      hide Flooded;
      hide Reach;
      ghost var o := Objects();
      QuietHasNoLive(o, minAddress, maxAddress, maxObjectSize);
      ok := IgnoreAllLiveObjectsLocked(load, maxPointerOffset, r);
      if !ok {
        leaks := new Snapshot();
        return;
      }
      ghost var o' := Objects();
      leaks := profile.NonLiveSnapshot(base);
      SnapshotIsLeaks(o, o', Scan(load, alignment, CappedSize(maxPointerOffset, maxObjectSize)), r, BaseKeys(base),
                      liveObjectsTotal, liveBytesTotal, leaks.map_.Contents);
      FloodedIsSame(o', o, Scan(load, alignment, CappedSize(maxPointerOffset, maxObjectSize)), AllRoots(o, r),
                    liveObjectsTotal, liveBytesTotal);
      BitsAreCleared(o, o', Objects());
    }
  
    /** The check with its report: whether there are leaks, how many, of how many bytes,
        and whether looking at unaligned words as well makes them all go away. */
    method DoNoLeaks(base: Snapshot?, load: int -> int, sourceAlignment: nat, maxPointerOffset: int,
                     testAlignment: bool, r: Roots)
        returns (ok: bool, noLeaks: bool, allocsIncrease: int, bytesIncrease: int, unaligned: bool)
      requires Valid() && NonOverlapping(Objects(), SizeOf)
               && (base != null ==> base.Valid() && base.map_ != profile.addressMap)
      requires -0x8000_0000_0000_0000 <= maxPointerOffset && sourceAlignment > 0 && RootsGiven(r)
      modifies this`liveObjects, this`liveObjectsTotal, this`liveBytesTotal, this`maxObjectSize, this`alignment,
               profile.addressMap
      ensures ok <==> on ==> StillThere(old(Objects()), r.ignored)
      ensures ok ==> Valid() && Objects() == old(Objects())
      ensures !on ==> noLeaks
      ensures on && ok ==>
                var w := Scan(load, sourceAlignment, CappedSize(maxPointerOffset, maxObjectSize));
                var leaks := Leaks(Objects(), w, r, BaseKeys(base));
                && (noLeaks <==> leaks == map[])
                && allocsIncrease == |leaks| && bytesIncrease == SumObjects(leaks, 0, Bytes)
                && (unaligned <==> testAlignment && !noLeaks && sourceAlignment != 1
                                   && Leaks(Objects(), w.(align := 1), r, BaseKeys(base)) == map[])
    {
      hide SumObjects;
      hide HeapProfileTable.Valid;
      hide Quiet;
      hide NonOverlapping;
      hide Leaks;
      hide AddressMap.Valid;
      ok, noLeaks, allocsIncrease, bytesIncrease, unaligned := true, true, 0, 0, false;
      if !on {
        return;
      }
      alignment := sourceAlignment;
      var leaks;
      ok, leaks := FindLeaks(base, load, maxPointerOffset, r);
      if !ok {
        return;
      }
      allocsIncrease, bytesIncrease := leaks.total.allocs, leaks.total.allocSize;
      noLeaks := leaks.Empty();
      if !noLeaks && testAlignment && alignment != 1 {
        alignment := 1;
        ok, leaks := FindLeaks(base, load, maxPointerOffset, r);
        alignment := sourceAlignment;
        unaligned := leaks.Empty();
      }
    }
  }

  // ---------- What the verdict means ----------

  /** With no cap below the object sizes, a word refers to the object it points into. */
  lemma {:induction false} RefersIsExact(o: Heap, w: Scan, p: int, size: int, q: int)
    requires NonOverlapping(o, SizeOf) && w.maxSize >= 0 && forall k | k in o :: SizeOf(o[k]) <= w.maxSize
    ensures Refers(o, w, p, size, q) <==>
            exists a {:trigger w.load(a)} :: Word(w.align, p, size, a) && Covers(o, SizeOf, q, w.load(a))
  {
    hide Word;
    hide Covers;
    hide Resolve;
    hide NonOverlapping;
    forall a
      ensures Target(o, w, a) == Some(q) <==> Covers(o, SizeOf, q, w.load(a))
    {
      ResolveIsExact(o, SizeOf, w.maxSize, w.load(a), q);
    }
    if Refers(o, w, p, size, q) {
      var a :| Word(w.align, p, size, a) && Target(o, w, a) == Some(q);
      assert Word(w.align, p, size, a) && Covers(o, SizeOf, q, w.load(a));
    }
    if exists a {:trigger w.load(a)} :: Word(w.align, p, size, a) && Covers(o, SizeOf, q, w.load(a)) {
      var a {:trigger w.load(a)} :| Word(w.align, p, size, a) && Covers(o, SizeOf, q, w.load(a));
      assert Word(w.align, p, size, a) && Target(o, w, a) == Some(q);
    }
  }

  /** Words at multiples of align are words at alignment 1. */
  lemma FinerRefersMore(o: Heap, w: Scan, p: int, size: int, q: int)
    requires Refers(o, w, p, size, q)
    ensures Refers(o, w.(align := 1), p, size, q)
  {
    hide Resolve;
    var a :| Word(w.align, p, size, a) && Target(o, w, a) == Some(q);
    assert Word(1, p, size, a) && Target(o, w.(align := 1), a) == Some(q);
  }

  lemma FinerReachesMore(o: Heap, w: Scan, roots: set<AllocObject>, k: int)
    requires Reach(o, w, roots, k)
    ensures Reach(o, w.(align := 1), roots, k)
  {
    hide Refers;
    forall p, size, q | Refers(o, w, p, size, q)
      ensures Refers(o, w.(align := 1), p, size, q)
    {
      FinerRefersMore(o, w, p, size, q);
    }
    var path :| Path(o, w, roots, path) && path[|path| - 1] == k;
    assert Path(o, w.(align := 1), roots, path);
  }

  /** The second look, at every address, reports no more than the first. */
  lemma FinerReportsFewer(o: Heap, w: Scan, r: Roots, base: set<int>)
    ensures Leaks(o, w.(align := 1), r, base).Keys <= Leaks(o, w, r, base).Keys
  {
    hide Reach;
    forall k | k in Leaks(o, w.(align := 1), r, base)
      ensures k in Leaks(o, w, r, base)
    {
      if Reach(o, w, AllRoots(o, r), k) {
        FinerReachesMore(o, w, AllRoots(o, r), k);
      }
    }
  }

  /** Objects recorded while a Disabler was active are never reported, nor is what they
      lead to, although taking the snapshot does not look at the mark. */
  lemma IgnoredIsNeverReported(o: Heap, w: Scan, r: Roots, base: set<int>, k: int, q: int)
    requires k in o && o[k].Ignore()
    ensures k !in Leaks(o, w, r, base)
    ensures Refers(o, w, k, o[k].bytes, q) ==> q !in Leaks(o, w, r, base)
  {
    assert MustBeLive(o, k) in Picked(o, MARKED_AS_IGNORED);
    assert MustBeLive(o, k) in AllRoots(o, r);
    hide AllRoots;
    hide Refers;
    ReachRooted(o, w, AllRoots(o, r), k);
    if Refers(o, w, k, o[k].bytes, q) {
      TargetIsObject(o, w, k, o[k].bytes, q);
      ReachNext(o, w, AllRoots(o, r), k, q);
    }
  }
}
