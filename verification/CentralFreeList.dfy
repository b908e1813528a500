/** A central free list as it is in memory: chains of free objects linked through the
    objects themselves, span descriptors, the transfer slots and the counters. Each
    method runs under the lock and does what the functions of CentralLists say. */
module CentralFreeLists {
  import opened Arithmetic
  import opened CentralLists
  import opened Common
  import opened Lists

  type Words = int -> int

  function Store(mem: Words, a: int, v: int): Words
  {
    x => if x == a then v else mem(x)
  }

  /** From head along the links: exactly objs, then NULL. */
  ghost predicate Chain(mem: Words, head: int, objs: seq<int>)
    decreases objs
  {
    if objs == [] then head == NULL else head == objs[0] && head != NULL && Chain(mem, mem(head), objs[1..])
  }

  lemma {:induction false} ChainFrame(mem: Words, a: int, v: int, head: int, objs: seq<int>)
    requires a !in objs
    ensures Chain(Store(mem, a, v), head, objs) <==> Chain(mem, head, objs)
    decreases objs
  {
    if objs != [] {
      ChainFrame(mem, a, v, Store(mem, a, v)(head), objs[1..]);
      ChainFrame(mem, a, v, mem(head), objs[1..]);
    }
  }

  /** The link of the k-th object leads to the rest. */
  lemma {:induction false} ChainRest(mem: Words, head: int, objs: seq<int>, k: nat)
    requires Chain(mem, head, objs) && k < |objs|
    ensures objs[k] != NULL && Chain(mem, mem(objs[k]), objs[k + 1..])
    decreases k
  {
    if k > 0 {
      ChainRest(mem, mem(head), objs[1..], k - 1);
      assert objs[1..][k..] == objs[k + 1..];
    }
  }

  /** Cutting behind the k-th object leaves it last. */
  lemma {:induction false} ChainCut(mem: Words, head: int, objs: seq<int>, k: nat)
    requires Chain(mem, head, objs) && k < |objs| && Distinct(objs)
    ensures Chain(Store(mem, objs[k], NULL), head, objs[..k + 1])
    decreases k
  {
    if k == 0 {
      assert objs[..1][1..] == [];
    } else {
      DistinctSplit(objs, 1);
      assert objs[0] in objs[..1] && objs[k] == objs[1..][k - 1];
      ChainCut(mem, mem(head), objs[1..], k - 1);
      assert objs[..k + 1][1..] == objs[1..][..k];
    }
  }

  /** SLL_PushRange: linking the end of one chain to the head of another. */
  lemma {:induction false} ChainJoin(mem: Words, start: int, a: seq<int>, head: int, b: seq<int>)
    requires Chain(mem, start, a) && a != [] && Chain(mem, head, b) && Distinct(a)
    requires forall x {:trigger x in a} :: x in a ==> x !in b
    ensures Chain(Store(mem, a[|a| - 1], head), start, a + b)
    decreases a
  {
    var last := a[|a| - 1];
    assert last in a;
    if |a| == 1 {
      ChainFrame(mem, last, head, head, b);
      assert (a + b)[1..] == b;
    } else {
      DistinctSplit(a, 1);
      assert a[0] in a[..1] && last in a[1..];
      assert (a + b)[1..] == a[1..] + b;
      forall x | x in a[1..]
        ensures x !in b
      {
        assert x in a;
      }
      ChainJoin(mem, mem(start), a[1..], head, b);
    }
  }

  // ---------- The memory of one list ----------

  /** What a span descriptor says: the first free object, the objects that are out. */
  datatype Descriptor = Descriptor(objects: int, refcount: int)

  datatype TCEntry = TCEntry(head: int, tail: int)

  datatype ListMemory = ListMemory(
    mem: Words, spans: map<int, Descriptor>, nonempty: seq<int>, empty: seq<int>, numSpans: int, counter: int,
    slots: seq<TCEntry>, cacheSize: int, maxCacheSize: int)

  ghost predicate ChainsMatch(mem: Words, descriptors: map<int, Descriptor>, spans: map<int, Span>)
  {
    && descriptors.Keys == spans.Keys
    && (forall s {:trigger spans[s]} | s in spans ::
          s in descriptors && descriptors[s].refcount == spans[s].refcount
            && Chain(mem, descriptors[s].objects, spans[s].objects))
  }

  ghost predicate SlotsMatch(mem: Words, entries: seq<TCEntry>, slots: seq<seq<int>>)
  {
    && |entries| == |slots|
    && (forall i {:trigger slots[i]} | 0 <= i < |slots| ::
          && Chain(mem, entries[i].head, slots[i])
          && (slots[i] != [] ==> entries[i].tail == slots[i][|slots[i]| - 1]))
  }

  ghost predicate Represents(m: ListMemory, c: Central)
  {
    && m.nonempty == c.nonempty && m.empty == c.empty && m.numSpans == c.numSpans && m.counter == c.counter
    && m.cacheSize == c.cacheSize && m.maxCacheSize == c.maxCacheSize
    && ChainsMatch(m.mem, m.spans, c.spans) && SlotsMatch(m.mem, m.slots, c.slots)
  }

  /** A word written into an object that is neither on a chain nor in a slot. */
  lemma WriteElsewhere(k: int, g: ClassConfig, m: ListMemory, c: Central, cells: Cells, a: int, v: int)
    requires ClassOk(k, g, c, cells) && Represents(m, c)
    requires a in cells && cells[a].class_ == k ==> !cells[a].place.InChain? && !cells[a].place.InSlot?
    ensures Represents(m.(mem := Store(m.mem, a, v)), c)
  {
    var m' := m.(mem := Store(m.mem, a, v));
    forall s | s in c.spans
      ensures Chain(m'.mem, m'.spans[s].objects, c.spans[s].objects)
    {
      assert a !in c.spans[s].objects;
      ChainFrame(m.mem, a, v, m.spans[s].objects, c.spans[s].objects);
    }
    forall i | 0 <= i < |c.slots|
      ensures Chain(m'.mem, m'.slots[i].head, c.slots[i])
    {
      assert a !in c.slots[i];
      ChainFrame(m.mem, a, v, m.slots[i].head, c.slots[i]);
    }
    hide Chain;
    hide ClassOk;
  }

  /** SLL_PopRange: cutting a chain behind its k-th object makes two chains. */
  lemma ChainSplit(mem: Words, head: int, objs: seq<int>, k: nat)
    requires Chain(mem, head, objs) && 0 < k <= |objs| && Distinct(objs)
    ensures var last := objs[k - 1]; var cut := Store(mem, last, NULL);
            Chain(cut, head, objs[..k]) && Chain(cut, mem(last), objs[k..])
  {
    var last := objs[k - 1];
    ChainRest(mem, head, objs, k - 1);
    ChainCut(mem, head, objs, k - 1);
    DistinctSplit(objs, k);
    assert last in objs[..k];
    ChainFrame(mem, last, NULL, mem(last), objs[k..]);
  }

  /** What FetchFromOneSpans writes, when it has taken the objects up to last, count in
      all, off the chain of s. */
  function MemoryFetched(m: ListMemory, s: int, last: int, count: int): ListMemory
    requires s in m.spans && m.nonempty != []
  {
    var curr := m.mem(last);
    m.(mem := Store(m.mem, last, NULL),
       spans := m.spans[s := Descriptor(curr, m.spans[s].refcount + count)],
       nonempty := if curr == NULL then m.nonempty[1..] else m.nonempty,
       empty := if curr == NULL then [s] + m.empty else m.empty,
       counter := m.counter - count)
  }

  /** The chain that FetchFromOneSpans walks: its front becomes a chain of its own, the
      rest stays with the span. */
  lemma FetchKeepsMemory(k: int, g: ClassConfig, m: ListMemory, c: Central, cells: Cells, n: int)
    requires ClassOk(k, g, c, cells) && Represents(m, c) && n > 0 && c.nonempty != []
    ensures c.nonempty[0] in c.spans && c.nonempty[0] in m.spans && 0 < |Fetched(c, n)| <= n
    ensures var s, objs := c.nonempty[0], Fetched(c, n);
            var m' := MemoryFetched(m, s, objs[|objs| - 1], |objs|);
            Chain(m'.mem, m.spans[s].objects, objs) && Represents(m', AfterFetch(c, n))
  {
    FrontFacts(k, g, m, c, cells, n);
    hide Chain;
    hide ClassOk;
    hide CellsMatch;
    hide ListsMatch;
    var s, objs := c.nonempty[0], Fetched(c, n);
    var all := c.spans[s].objects;
    var last := objs[|objs| - 1];
    assert all[..|objs|] == objs && all[|objs| - 1] == last && all[|objs|..] == AfterFetch(c, n).spans[s].objects;
    ChainSplit(m.mem, m.spans[s].objects, all, |objs|);
    var m', c' := MemoryFetched(m, s, last, |objs|), AfterFetch(c, n);
    EmptyIsNull(m'.mem, m.mem(last), c'.spans[s].objects);
    SlotsUnread(k, m, c, cells, last, NULL);
    OtherChainsUnread(k, m, c, cells, s, last, NULL);
    OneChainChanges(m.spans, c.spans, s, m'.mem, m'.spans[s], c'.spans[s]);
    hide ChainsMatch;
    hide SlotsMatch;
  }

  /** The chain and the count of span s are new, the other chains are as they were. */
  lemma OneChainChanges(descriptors: map<int, Descriptor>, spans: map<int, Span>, s: int, mem: Words, d: Descriptor,
                        span: Span)
    requires descriptors.Keys == spans.Keys && d.refcount == span.refcount && Chain(mem, d.objects, span.objects)
    requires forall t {:trigger spans[t]} | t in spans && t != s ::
               t in descriptors && descriptors[t].refcount == spans[t].refcount
                 && Chain(mem, descriptors[t].objects, spans[t].objects)
    ensures ChainsMatch(mem, descriptors[s := d], spans[s := span])
  {
    hide Chain;
  }

  lemma FrontFacts(k: int, g: ClassConfig, m: ListMemory, c: Central, cells: Cells, n: int)
    requires ClassOk(k, g, c, cells) && Represents(m, c) && n > 0 && c.nonempty != []
    ensures CellsMatch(k, c, cells) && ListsMatch(c)
    ensures c.nonempty[0] in c.spans && c.nonempty[0] in m.spans && 0 < |Fetched(c, n)| <= n
    ensures var s := c.nonempty[0]; var last := Fetched(c, n)[|Fetched(c, n)| - 1];
            && Distinct(c.spans[s].objects) && Chain(m.mem, m.spans[s].objects, c.spans[s].objects)
            && m.spans[s].refcount == c.spans[s].refcount && last in cells && cells[last] == Cell(k, s, InChain)
  {
    HeadHasObjects(c, n);
    var s := c.nonempty[0];
    assert SpanOk(g.total, c.spans[s]);
    assert Fetched(c, n)[|Fetched(c, n)| - 1] in c.spans[s].objects;
    hide Chain;
  }

  /** A write to an object of span s leaves the chains of other spans. */
  lemma OtherChainsUnread(k: int, m: ListMemory, c: Central, cells: Cells, s: int, a: int, v: int)
    requires CellsMatch(k, c, cells) && ChainsMatch(m.mem, m.spans, c.spans) && a in cells && cells[a].span == s
    ensures forall t {:trigger c.spans[t]} | t in c.spans && t != s ::
              t in m.spans && m.spans[t].refcount == c.spans[t].refcount
              && Chain(Store(m.mem, a, v), m.spans[t].objects, c.spans[t].objects)
  {
    forall t | t in c.spans && t != s
      ensures t in m.spans && m.spans[t].refcount == c.spans[t].refcount
      ensures Chain(Store(m.mem, a, v), m.spans[t].objects, c.spans[t].objects)
    {
      assert a !in c.spans[t].objects;
      ChainFrame(m.mem, a, v, m.spans[t].objects, c.spans[t].objects);
    }
  }

  lemma SlotsUnread(k: int, m: ListMemory, c: Central, cells: Cells, a: int, v: int)
    requires CellsMatch(k, c, cells) && SlotsMatch(m.mem, m.slots, c.slots)
    requires a in cells && cells[a].class_ == k ==> !cells[a].place.InSlot?
    ensures SlotsMatch(Store(m.mem, a, v), m.slots, c.slots)
  {
    forall i | 0 <= i < |c.slots|
      ensures Chain(Store(m.mem, a, v), m.slots[i].head, c.slots[i])
    {
      assert a !in c.slots[i];
      ChainFrame(m.mem, a, v, m.slots[i].head, c.slots[i]);
    }
  }

  /** ReleaseToSpans links the object in front of its span's chain. */
  function MemoryReleased(g: ClassConfig, m: ListMemory, s: int, o: int): ListMemory
    requires s in m.spans
  {
    var span := m.spans[s];
    var moved := if span.objects == NULL then m.(empty := Without(m.empty, s), nonempty := [s] + m.nonempty) else m;
    if span.refcount == 1 then
      moved.(spans := m.spans - {s}, nonempty := Without(moved.nonempty, s), numSpans := m.numSpans - 1,
             counter := m.counter + 1 - g.total)
    else
      moved.(mem := Store(m.mem, o, span.objects), spans := m.spans[s := Descriptor(o, span.refcount - 1)],
             counter := m.counter + 1)
  }

  lemma EmptyIsNull(mem: Words, head: int, objs: seq<int>)
    requires Chain(mem, head, objs)
    ensures head == NULL <==> objs == []
  {
  }

  lemma ReleaseKeepsMemory(k: int, g: ClassConfig, m: ListMemory, c: Central, cells: Cells, o: int)
    requires ClassOk(k, g, c, cells) && Represents(m, c) && o in cells && cells[o].class_ == k && cells[o].place.Held?
             && o != NULL
    ensures cells[o].span in c.spans && cells[o].span in m.spans
    ensures Represents(MemoryReleased(g, m, cells[o].span, o), Released(g, c, cells[o].span, o))
  {
    var s := cells[o].span;
    assert s in m.spans && m.spans[s].refcount == c.spans[s].refcount;
    EmptyIsNull(m.mem, m.spans[s].objects, c.spans[s].objects);
    var m', c' := MemoryReleased(g, m, s, o), Released(g, c, s, o);
    if !Dies(c, s) {
      assert o !in c.spans[s].objects;
      ChainFrame(m.mem, o, m.spans[s].objects, m.spans[s].objects, c.spans[s].objects);
      assert ([o] + c.spans[s].objects)[1..] == c.spans[s].objects;
      assert Chain(m'.mem, o, [o] + c.spans[s].objects);
      OtherChainsUnread(k, m, c, cells, s, o, m.spans[s].objects);
      OneChainChanges(m.spans, c.spans, s, m'.mem, m'.spans[s], c'.spans[s]);
      SlotsUnread(k, m, c, cells, o, m.spans[s].objects);
    }
    hide Chain;
    hide ClassOk;
    hide Without;
  }

  // ---------- Carving a span ----------

  /** The addresses of n objects of a size, one after another. */
  function Carved(start: int, size: int, n: nat): (r: seq<int>)
    ensures |r| == n
  {
    if n == 0 then [] else Carved(start, size, n - 1) + [start + (n - 1) * size]
  }

  lemma {:induction false} CarvedAt(start: int, size: int, n: nat, i: nat)
    requires i < n
    ensures Carved(start, size, n)[i] == start + i * size
  {
    if i < n - 1 {
      CarvedAt(start, size, n - 1, i);
    }
  }

  /** The objects lie in the span, apart from each other. */
  lemma CarvedIsApart(start: int, size: int, bytes: int, n: nat)
    requires size > 0 && n * size <= bytes
    ensures Distinct(Carved(start, size, n))
    ensures forall i | 0 <= i < n ::
              start <= Carved(start, size, n)[i] && Carved(start, size, n)[i] + size <= start + bytes
    ensures forall i, j | 0 <= i < j < n :: Carved(start, size, n)[i] + size <= Carved(start, size, n)[j]
  {
    forall i, j | 0 <= i < j <= n
      ensures i < n && Carved(start, size, n)[i] == start + i * size
      ensures 0 <= i * size && i * size + size <= j * size <= n * size
      ensures j < n ==> Carved(start, size, n)[j] == start + j * size
    {
      CarvedAt(start, size, n, i);
      if j < n {
        CarvedAt(start, size, n, j);
      }
      Steps(size, i, j, n);
    }
    forall i | 0 <= i < n
      ensures start <= Carved(start, size, n)[i] && Carved(start, size, n)[i] + size <= start + bytes
    {
      assert 0 <= i < n <= n;
    }
  }

  lemma Steps(size: int, i: int, j: int, n: int)
    requires size > 0 && 0 <= i < j <= n
    ensures 0 <= i * size && i * size + size <= j * size <= n * size
  {
    MulMonotone(size, 0, i);
    MulMonotone(size, i + 1, j);
    MulMonotone(size, j, n);
    MulDistributes(i, 1, size);
  }

  /** The chain so far: the last carved object has yet to get its link. */
  ghost predicate CarvedTo(mem: Words, head: int, tail: int, start: int, size: int, n: nat)
  {
    if n == 0 then tail == NULL
    else tail == start + (n - 1) * size && Chain(Store(mem, tail, NULL), head, Carved(start, size, n))
  }

  lemma CarveNext(mem: Words, head: int, tail: int, start: int, size: int, n: nat)
    requires size > 0 && start > 0 && CarvedTo(mem, head, tail, start, size, n)
    ensures var ptr := start + n * size;
            CarvedTo(if tail == NULL then mem else Store(mem, tail, ptr), if tail == NULL then ptr else head, ptr,
                     start, size, n + 1)
  {
    var ptr := start + n * size;
    CarvedIsApart(start, size, (n + 1) * size, n + 1);
    CarvedIsApart(start, size, (n + 1) * size, n);
    var objs := Carved(start, size, n);
    CarvedAt(start, size, n + 1, n);
    if n > 0 {
      CarvedAt(start, size, n, n - 1);
      assert objs[n - 1] == tail && tail in objs;
      var cut := Store(mem, tail, NULL);
      forall i | 0 <= i < n
        ensures objs[i] != ptr
      {
        assert Carved(start, size, n + 1)[i] == objs[i] && Carved(start, size, n + 1)[n] == ptr;
      }
      var last := Store(cut, ptr, NULL);
      ChainFrame(cut, ptr, NULL, head, objs);
      assert Chain(last, ptr, [ptr]) by { assert [ptr][1..] == []; }
      ChainJoin(last, head, objs, ptr, [ptr]);
      SameWords(Store(last, tail, ptr), Store(Store(mem, tail, ptr), ptr, NULL), head, objs + [ptr]);
    } else {
      assert Carved(start, size, 1) == [ptr];
      assert [ptr][1..] == [];
    }
  }

  lemma {:induction false} SameWords(a: Words, b: Words, head: int, objs: seq<int>)
    requires Chain(a, head, objs) && forall x :: a(x) == b(x)
    ensures Chain(b, head, objs)
    decreases objs
  {
    if objs != [] {
      SameWords(a, b, a(head), objs[1..]);
    }
  }

  /** Populate's loop, outside of the lock: pieces of the span, each linked to the next. */
  method Carve(mem: Words, start: int, size: int, bytes: int) returns (mem': Words, head: int, num: nat)
    requires size > 0 && start > 0 && bytes >= 0
    ensures num == bytes / size && Chain(mem', head, Carved(start, size, num))
    ensures forall a | a !in Carved(start, size, num) :: mem'(a) == mem(a)
  {
    var ptr, limit, tail := start, start + bytes, NULL;
    mem', head, num := mem, NULL, 0;
    while ptr + size <= limit
      invariant ptr == start + num * size && num * size <= bytes
      invariant CarvedTo(mem', head, tail, start, size, num)
      invariant num > 0 ==> tail in Carved(start, size, num)
      invariant forall a | a !in Carved(start, size, num) :: mem'(a) == mem(a)
      decreases limit - ptr
    {
      CarveNext(mem', head, tail, start, size, num);
      if tail == NULL {
        head := ptr;
      } else {
        mem' := Store(mem', tail, ptr);
      }
      MulDistributes(num, 1, size);
      tail, ptr, num := ptr, ptr + size, num + 1;
    }
    QuotientOf(size, bytes, num, bytes - num * size);
    if tail == NULL {
      head := NULL;
    } else {
      mem' := Store(mem', tail, NULL);
    }
  }

  ghost function Last(objs: seq<int>): int
  {
    if objs == [] then NULL else objs[|objs| - 1]
  }

  /** A chain as it is handed around: where it starts and ends. */
  ghost predicate Range(mem: Words, start: int, end: int, objs: seq<int>)
  {
    Chain(mem, start, objs) && end == Last(objs)
  }

  class CentralFreeList {
    const k: int                 // the size class
    const g: ClassConfig
    var m: ListMemory
    ghost var view: Central
    ghost var cells: Cells

    ghost predicate Valid()
      reads this
    {
      ClassOk(k, g, view, cells) && Represents(m, view)
    }

    constructor (k: int, g: ClassConfig, cacheSize: int, maxCacheSize: int)
      requires g.move >= 1 && g.total >= 1 && 0 <= cacheSize <= maxCacheSize
      ensures Valid() && view == Central(map[], [], [], 0, 0, [], cacheSize, maxCacheSize) && cells == map[]
    {
      this.k, this.g := k, g;
      m := ListMemory(_ => 0, map[], [], [], 0, 0, [], cacheSize, maxCacheSize);
      view := Central(map[], [], [], 0, 0, [], cacheSize, maxCacheSize);
      cells := map[];
    }

    /** The walk along a chain: at most n objects, at least one. */
    method Walk(head: int, n: int, ghost objs: seq<int>) returns (prev: int, curr: int, count: int)
      requires n > 0 && objs != [] && Chain(m.mem, head, objs)
      ensures count == if n < |objs| then n else |objs|
      ensures prev == objs[count - 1] && curr == m.mem(prev)
    {
      prev, curr, count := head, m.mem(head), 1;
      while count < n && curr != NULL
        invariant 1 <= count <= |objs| && count <= n
        invariant prev == objs[count - 1] && curr == m.mem(prev) && Chain(m.mem, curr, objs[count..])
      {
        assert objs[count..][1..] == objs[count + 1..];
        prev, curr, count := curr, m.mem(curr), count + 1;
      }
    }

    method FetchFromOneSpans(n: int) returns (start: int, end: int, result: int)
      requires Valid() && n > 0
      modifies this
      ensures old(view).nonempty != [] ==> old(view).nonempty[0] in old(view).spans
      ensures Valid() && view == AfterFetch(old(view), n) && cells == Moved(old(cells), Fetched(old(view), n), Out)
      ensures result == |Fetched(old(view), n)| && (result == 0 <==> old(view).nonempty == [])
      ensures Range(m.mem, start, end, Fetched(old(view), n))
      ensures m.mem == if result > 0 then Store(old(m.mem), end, NULL) else old(m.mem)
    {
      hide ClassOk;
      hide Represents;
      hide Chain;
      hide AfterFetch;
      hide Fetched;
      hide Moved;
      hide MemoryFetched;
      FetchMemoryFacts(k, g, m, view, cells, n);
      if m.nonempty == [] {
        return NULL, NULL, 0;
      }
      var s := m.nonempty[0];
      start := m.spans[s].objects;
      var curr;
      end, curr, result := Walk(start, n, view.spans[s].objects);
      m := MemoryFetched(m, s, end, result);
      cells := Moved(cells, Fetched(view, n), Out);
      view := AfterFetch(view, n);
    }

    /** The fetching part of RemoveRange: the first chain, then SLL_PushRange puts each
        further chain in front. */
    method FetchObjects(n: int) returns (start: int, end: int, result: int)
      requires Valid() && n > 0
      modifies this
      ensures ListsMatch(old(view))
      ensures Valid() && view == FetchMore(old(view), n, []).0
      ensures cells == Moved(old(cells), FetchMore(old(view), n, []).1, Out)
      ensures result == |FetchMore(old(view), n, []).1| && Range(m.mem, start, end, FetchMore(old(view), n, []).1)
    {
      hide AllOut;
      hide ClassOk;
      hide Represents;
      hide Chain;
      hide AfterFetch;
      hide Fetched;
      hide Moved;
      hide FetchMore;
      hide ListsMatch;
      FetchingStarts(k, g, view, cells, n);
      start, end, result := FetchFromOneSpans(n);
      ghost var objs := Fetched(old(view), n);
      FetchingGoesOn(k, g, old(view), old(cells), n, n, []);
      while 0 < result < n
        invariant Valid() && ListsMatch(view) && FetchMore(view, n, objs) == FetchMore(old(view), n, [])
        invariant result == |objs| <= n && Range(m.mem, start, end, objs)
        invariant AllOut(k, cells, objs) && cells == Moved(old(cells), objs, Out)
        invariant result == 0 ==> view.nonempty == []
        decreases n - result
      {
        ghost var view0, cells0, mem0 := view, cells, m.mem;
        var head, tail, more := FetchFromOneSpans(n - result);
        FetchingGoesOn(k, g, view0, cells0, n - result, n, objs);
        if more == 0 {
          break;
        }
        ghost var taken := Fetched(view0, n - result);
        PushRangeFacts(k, g, m, view, cells0, taken, objs, mem0, start, end, head, tail);
        MovedTogether(old(cells), objs, taken, Out);
        m := m.(mem := Store(m.mem, tail, start));
        start, result, objs := head, result + more, taken + objs;
      }
      FetchingEnds(view, n, objs);
    }

    /** ReleaseToSpans; span is what the page map says of the object. True if the span
        now goes back to the page heap. */
    method ReleaseToSpans(o: int, span: int, ghost t: int) returns (dies: bool)
      requires Valid() && o != NULL && o in cells && cells[o] == Cell(k, span, Held(t))
      modifies this
      ensures span in old(view).spans && old(view).spans[span].refcount > 0
      ensures Valid() && dies == Dies(old(view), span)
      ensures view == Released(g, old(view), span, o) && cells == CellsReleased(old(view), old(cells), span, o, t)
      ensures m.mem == old(m.mem) || exists v :: m.mem == Store(old(m.mem), o, v)
    {
      hide Chain;
      hide ClassOk;
      hide Released;
      hide CellsReleased;
      hide Represents;
      ReleaseFacts(k, g, m, view, cells, o, t);
      dies := m.spans[span].refcount == 1;
      m := MemoryReleased(g, m, span, o);
      cells := CellsReleased(view, cells, span, o, t);
      view := Released(g, view, span, o);
    }

    /** ReleaseListToSpans; the link is read before the object is linked elsewhere. Every
        object is given back. The spans that die are handed to the page heap, here: listed. */
    method ReleaseListToSpans(start0: int, spanOf: int -> int, ghost objs: seq<int>, ghost t: int)
        returns (dead: seq<int>)
      requires Valid() && Chain(m.mem, start0, objs) && Distinct(objs) && HandsHold(k, cells, t, objs, spanOf)
      modifies this
      ensures Valid() && (view, cells) == ReleasedAll(g, old(view), old(cells), objs, t)
      ensures GivenBack(k, g, old(view), old(cells), objs, t, view, cells)
      ensures Distinct(dead) && forall s {:trigger s in dead} :: s in dead <==> AllBack(old(view), objs, s)
    {
      hide ClassOk;
      hide Represents;
      hide Released;
      hide CellsReleased;
      hide AllBack;
      hide GivenBack;
      HeldInHands(k, cells, t, objs, spanOf);
      AllAreGivenBack(k, g, view, cells, objs, t);
      var start := start0;
      dead := [];
      ghost var rest := objs;
      while start != NULL
        invariant Valid() && Chain(m.mem, start, rest) && Distinct(rest) && HandsHold(k, cells, t, rest, spanOf)
        invariant ReleasedAll(g, view, cells, rest, t) == ReleasedAll(g, old(view), old(cells), objs, t)
        invariant DeadSoFar(old(view), objs, dead, view, rest)
        decreases rest
      {
        var next := m.mem(start);
        ghost var view0, cells0, mem0 := view, cells, m.mem;
        var span := spanOf(start);
        assert start == rest[0] && start in rest;
        ReleaseKeepsClass(k, g, view, cells, start, t);
        var dies := ReleaseToSpans(start, span, t);
        HandsAfterRelease(k, g, view0, cells0, t, rest, spanOf);
        LinksAfterRelease(mem0, m.mem, start, next, rest);
        HeldInHands(k, cells0, t, rest, spanOf);
        DeadNext(k, g, old(view), objs, dead, view0, cells0, rest, t);
        if dies {
          dead := dead + [span];
        }
        start, rest := next, rest[1..];
      }
      DeadInTheEnd(old(view), objs, dead, view, rest);
    }

    /** Populate, once the page heap has given the pages: carve and add the span. */
    method Populate(span: int, start: int, size: int, bytes: int)
      requires Valid() && size > 0 && start > 0 && bytes >= 0 && g.total == bytes / size && span !in view.spans
      requires forall o | o in Carved(start, size, g.total) :: o !in cells
      modifies this
      ensures Valid() && view == WithSpan(old(view), span, Carved(start, size, g.total))
      ensures cells == WithCells(old(cells), Carved(start, size, g.total), Cell(k, span, InChain))
    {
      hide ClassOk;
      hide Represents;
      hide Chain;
      hide WithSpan;
      hide WithCells;
      hide Carved;
      var mem, head, num := Carve(m.mem, start, size, bytes);
      PopulateFacts(k, g, m, view, cells, span, start, size, bytes, mem, head);
      m := m.(mem := mem, spans := m.spans[span := Descriptor(head, 0)], nonempty := [span] + m.nonempty,
              numSpans := m.numSpans + 1, counter := m.counter + num);
      cells := WithCells(cells, Carved(start, size, num), Cell(k, span, InChain));
      view := WithSpan(view, span, Carved(start, size, num));
    }

    /** MakeCacheSpace; evicted says whether some other class gave up an entry. */
    method MakeCacheSpace(evicted: bool) returns (space: bool)
      requires Valid()
      modifies this
      ensures Valid() && cells == old(cells) && m.mem == old(m.mem)
      ensures space <==> HasSpace(old(view), evicted)
      ensures view == if space then WithSpace(old(view)) else old(view)
      ensures space ==> |view.slots| < view.cacheSize
    {
      hide ClassOk;
      hide Chain;
      SpaceFacts(k, g, m, view, cells);
      if |m.slots| < m.cacheSize {
        return true;
      }
      if m.cacheSize == m.maxCacheSize || !evicted {
        return false;
      }
      m := m.(cacheSize := m.cacheSize + 1);
      view := view.(cacheSize := view.cacheSize + 1);
      space := true;
    }

    /** Caches the chain as it is, or gives each of its objects back to its span; the spans
        that this leaves with all their objects go to the page heap. */
    method InsertRange(start: int, end: int, n: int, evicted: bool, spanOf: int -> int, ghost chain: seq<int>,
                       ghost t: int)
        returns (dead: seq<int>)
      requires Valid() && Range(m.mem, start, end, chain) && n == |chain| && Distinct(chain)
               && HandsHold(k, cells, t, chain, spanOf)
      modifies this
      ensures Valid()
      ensures if n == g.move && HasSpace(old(view), evicted)
              then view == WithSlot(WithSpace(old(view)), chain)
                && cells == Moved(old(cells), chain, InSlot(|old(view).slots|)) && dead == []
              else
                && (view, cells) == ReleasedAll(g, old(view), old(cells), chain, t)
                && GivenBack(k, g, old(view), old(cells), chain, t, view, cells)
                && Distinct(dead) && forall s {:trigger s in dead} :: s in dead <==> AllBack(old(view), chain, s)
    {
      hide AllBack;
      hide GivenBack;
      hide ClassOk;
      hide Represents;
      hide Chain;
      hide HandsHold;
      hide Moved;
      dead := [];
      if n == g.move {
        var space := MakeCacheSpace(evicted);
        if space {
          CacheFacts(k, g, m, view, cells, start, end, chain, spanOf, t);
          m := m.(slots := m.slots + [TCEntry(start, end)]);
          cells := Moved(cells, chain, InSlot(|view.slots|));
          view := WithSlot(view, chain);
          return;
        }
      }
      dead := ReleaseListToSpans(start, spanOf, chain, t);
    }

    /** The program, or a thread, writes into an object that it has. */
    method WriteObject(a: int, v: int)
      requires Valid() && a in cells && (cells[a].place.Out? || cells[a].place.Held?)
      modifies this`m
      ensures Valid() && m == old(m).(mem := Store(old(m).mem, a, v))
    {
      hide ClassOk;
      hide Represents;
      WriteElsewhere(k, g, m, view, cells, a, v);
      m := m.(mem := Store(m.mem, a, v));
    }

    /** The program hands objects to thread t, which is about to call InsertRange. */
    ghost method TakeBack(chain: seq<int>, t: int, spanOf: int -> int)
      requires Valid() && AllOut(k, cells, chain) && forall o | o in chain :: cells[o].span == spanOf(o)
      modifies this`cells
      ensures Valid() && cells == Moved(old(cells), chain, Held(t)) && HandsHold(k, cells, t, chain, spanOf)
    {
      hide ClassOk;
      hide Represents;
      HandOver(k, g, view, cells, chain, Held(t));
      cells := Moved(cells, chain, Held(t));
    }

    /** A whole RemoveRange with nobody in between; given is what the page heap has for
        Populate. The result is a chain of that many different objects, from start to
        end, and empty only if the page heap was asked and had nothing. */
    method RemoveRange(n: int, given: Given, size: int, bytes: int)
        returns (start: int, end: int, result: int, ghost objs: seq<int>)
      requires Valid() && n > 0 && size > 0 && bytes >= 0 && g.total == bytes / size
      requires given.Pages? ==> given.start > 0 && given.span !in view.spans
                                && forall o | o in Carved(given.start, size, g.total) :: o !in cells
      modifies this
      ensures Valid() && Range(m.mem, start, end, objs) && result == |objs| <= n && AllOut(k, cells, objs)
      ensures forall o | o in objs ::
                (o in old(cells) && (old(cells)[o].place.InChain? || old(cells)[o].place.InSlot?))
                || (given.Pages? && o in Carved(given.start, size, g.total))
      ensures forall o {:trigger o in cells} ::
                o in cells ==> o in old(cells) || (given.Pages? && o in Carved(given.start, size, g.total))
      ensures forall o {:trigger cells[o]} | o in cells ::
                cells[o] == if o in objs then Before(old(cells), k, given, o).(place := Out)
                  else Before(old(cells), k, given, o)
      ensures forall o | o in old(cells) :: o in cells
      ensures result == 0 ==> given.Nothing? && old(view).counter == 0
      ensures n == g.move && old(view).slots != [] ==>
                objs == LastSlot(old(view)) && view == WithoutSlot(old(view))
    {
      hide ClassOk;
      hide Represents;
      hide Chain;
      hide Carved;
      hide FetchMore;
      SlotFacts(k, g, m, view, cells);
      if n == g.move && m.slots != [] {
        objs := LastSlot(view);
        var entry := m.slots[|m.slots| - 1];
        m := m.(slots := m.slots[..|m.slots| - 1]);
        cells := Moved(cells, objs, Out);
        view := WithoutSlot(view);
        return entry.head, entry.tail, n, objs;
      }
      FetchFacts(k, g, view, cells, n);
      objs := FetchMore(view, n, []).1;
      start, end, result := FetchObjects(n);
      if result == 0 && given.Pages? {
        Populate(given.span, given.start, size, bytes);
        FetchFacts(k, g, view, cells, n);
        objs := FetchMore(view, n, []).1;
        start, end, result := FetchObjects(n);
      }
    }
  }

  datatype Given = Nothing | Pages(span: int, start: int)

  /** Where an object was before RemoveRange took its own; new ones come from the span given. */
  ghost function Before(cells: Cells, k: int, given: Given, o: int): Cell
  {
    if o in cells then cells[o] else Cell(k, if given.Pages? then given.span else NULL, InChain)
  }

  predicate HasSpace(c: Central, evicted: bool)
  {
    |c.slots| < c.cacheSize || (c.cacheSize != c.maxCacheSize && evicted)
  }

  function WithSpace(c: Central): Central
  {
    if |c.slots| < c.cacheSize then c else c.(cacheSize := c.cacheSize + 1)
  }

  /** A size with a free slot that the cache can have: its own, or one more if another class
      gave up an entry, within the maximum. */
  predicate RoomyAt(c: Central, evicted: bool, size: int)
  {
    |c.slots| < size && c.cacheSize <= size <= c.maxCacheSize && size <= c.cacheSize + if evicted then 1 else 0
  }

  /** There is space exactly if there is such a size, and the cache gets the least. */
  lemma SpaceIff(k: int, g: ClassConfig, c: Central, cells: Cells, evicted: bool)
    requires ClassOk(k, g, c, cells)
    ensures HasSpace(c, evicted) <==> exists size :: RoomyAt(c, evicted, size)
    ensures HasSpace(c, evicted) ==> var size := WithSpace(c).cacheSize;
              && WithSpace(c) == c.(cacheSize := size) && RoomyAt(c, evicted, size)
              && forall s :: RoomyAt(c, evicted, s) ==> size <= s
  {
    if HasSpace(c, evicted) {
      assert RoomyAt(c, evicted, WithSpace(c).cacheSize);
    }
    hide CellsMatch;
  }

  lemma SpaceFacts(k: int, g: ClassConfig, m: ListMemory, c: Central, cells: Cells)
    requires ClassOk(k, g, c, cells) && Represents(m, c)
    ensures |m.slots| == |c.slots| && m.cacheSize == c.cacheSize && m.maxCacheSize == c.maxCacheSize
    ensures |c.slots| <= c.cacheSize <= c.maxCacheSize
    ensures c.cacheSize < c.maxCacheSize ==> ClassOk(k, g, c.(cacheSize := c.cacheSize + 1), cells)
  {
    if c.cacheSize < c.maxCacheSize {
      ResizeKeepsClass(k, g, c, cells, c.cacheSize + 1);
    }
  }

  lemma CacheFacts(k: int, g: ClassConfig, m: ListMemory, c: Central, cells: Cells, start: int, end: int,
                   chain: seq<int>,
                   spanOf: int -> int, t: int)
    requires ClassOk(k, g, c, cells) && Represents(m, c) && |c.slots| < c.cacheSize
    requires |chain| == g.move && Distinct(chain) && Range(m.mem, start, end, chain)
             && HandsHold(k, cells, t, chain, spanOf)
    ensures ClassOk(k, g, WithSlot(c, chain), Moved(cells, chain, InSlot(|c.slots|)))
    ensures Represents(m.(slots := m.slots + [TCEntry(start, end)]), WithSlot(c, chain))
  {
    hide Chain;
    hide ClassOk;
    hide Moved;
    PushSlotKeepsClass(k, g, c, cells, chain);
  }

  lemma SlotFacts(k: int, g: ClassConfig, m: ListMemory, c: Central, cells: Cells)
    requires ClassOk(k, g, c, cells) && Represents(m, c)
    ensures (m.slots == [] <==> c.slots == []) && ListsMatch(c)
    ensures c.slots != [] ==>
              var objs := LastSlot(c); var entry := m.slots[|m.slots| - 1];
              && |objs| == g.move && Range(m.mem, entry.head, entry.tail, objs)
                 && AllOut(k, Moved(cells, objs, Out), objs)
              && ClassOk(k, g, WithoutSlot(c), Moved(cells, objs, Out))
              && Represents(m.(slots := m.slots[..|m.slots| - 1]), WithoutSlot(c))
              && (forall o {:trigger o in objs} | o in objs :: o in cells && cells[o].place.InSlot?)
  {
    if c.slots != [] {
      PopSlotKeepsClass(k, g, c, cells, Out);
      assert |c.slots[|c.slots| - 1]| == g.move;
    }
    hide Chain;
  }

  /** What the fetching part hands out. */
  lemma FetchFacts(k: int, g: ClassConfig, c: Central, cells: Cells, n: int)
    requires ClassOk(k, g, c, cells) && n > 0
    ensures ListsMatch(c)
    ensures var objs := FetchMore(c, n, []).1;
            && AllOut(k, Moved(cells, objs, Out), objs) && |objs| <= n
            && (forall o {:trigger o in objs} | o in objs :: o in cells && cells[o].place == InChain)
            && (objs == [] <==> c.nonempty == [])
            && (objs == [] ==> c.counter == 0 && FetchMore(c, n, []).0 == c && Moved(cells, objs, Out) == cells)
  {
    FetchMoreKeepsClass(k, g, c, cells, n, []);
    FetchedSomething(c, n);
    if c.nonempty == [] {
      NothingMoves(cells, Out);
    }
  }


  ghost predicate HandsHold(k: int, cells: Cells, t: int, objs: seq<int>, spanOf: int -> int)
  {
    forall o {:trigger o in objs} | o in objs :: o in cells && cells[o] == Cell(k, spanOf(o), Held(t))
  }

  ghost function ReleasedAll(g: ClassConfig, c: Central, cells: Cells, objs: seq<int>, t: int): (Central, Cells)
    decreases objs
  {
    if objs == [] || objs[0] !in cells || cells[objs[0]].span !in c.spans then (c, cells) else
    var o := objs[0];
    var s := cells[o].span;
    ReleasedAll(g, Released(g, c, s, o), CellsReleased(c, cells, s, o, t), objs[1..], t)
  }

  /** Of the objects of span s, one at least is given back, and all that were not on the
      chain are: the span is to go back to the page heap. */
  ghost predicate AllBack(c: Central, objs: seq<int>, s: int)
  {
    && s in c.spans && (exists o :: o in objs && o in c.spans[s].all)
    && forall x {:trigger x in c.spans[s].all} | x in c.spans[s].all :: x in c.spans[s].objects || x in objs
  }

  /** x is an object of a span that goes. */
  ghost predicate Goes(k: int, c: Central, cells: Cells, objs: seq<int>, x: int)
  {
    x in cells && cells[x].class_ == k && AllBack(c, objs, cells[x].span) && x in c.spans[cells[x].span].all
  }

  /** What giving back objs does: the objects of the spans that go are on their way with
      thread t, all others of objs are on the chain of their span, and nothing else has
      moved; exactly those spans are gone. */
  ghost predicate GivenBack(k: int, g: ClassConfig, c: Central, cells: Cells, objs: seq<int>, t: int,
                            c': Central, cells': Cells)
  {
    && cells'.Keys == cells.Keys
    && (forall x {:trigger cells'[x]} | x in cells ::
          cells'[x] == if Goes(k, c, cells, objs, x) then cells[x].(place := InTransit(t))
                       else if x in objs then cells[x].(place := InChain) else cells[x])
    && (forall s {:trigger s in c'.spans} :: s in c'.spans <==> s in c.spans && !AllBack(c, objs, s))
    && c'.numSpans - |c'.spans| == c.numSpans - |c.spans| && c'.slots == c.slots
    && c'.counter == c.counter + |objs| - (|c.spans| - |c'.spans|) * g.total
  }

  lemma OnlyOneOut(total: int, span: Span, o: int)
    requires SpanOk(total, span) && o in span.all && o !in span.objects
    requires forall x {:trigger x in span.all} | x in span.all :: x == o || x in span.objects
    ensures span.refcount == 1
  {
    DistinctCounts(span.all);
    DistinctCounts(span.objects);
    assert SetOf(span.all) == SetOf(span.objects) + {o};
  }

  /** A reference count above one: some other object is neither here nor on the chain. */
  lemma AnotherIsOut(total: int, span: Span, o: int) returns (x: int)
    requires SpanOk(total, span) && o in span.all && o !in span.objects && span.refcount != 1
    ensures x in span.all && x != o && x !in span.objects
  {
    if forall x {:trigger x in span.all} | x in span.all :: x == o || x in span.objects {
      OnlyOneOut(total, span, o);
    }
    x :| x in span.all && x != o && x !in span.objects;
  }

  /** One object more: which spans go is decided by all objects together. */
  lemma OneGivenBack(k: int, g: ClassConfig, c: Central, cells: Cells, objs: seq<int>, t: int, s: int)
    requires ClassOk(k, g, c, cells) && objs != [] && Distinct(objs)
    requires objs[0] in cells && cells[objs[0]].class_ == k && cells[objs[0]].place == Held(t)
    requires forall x {:trigger x in objs} | x in objs ::
               x in cells && cells[x].class_ == k && cells[x].place == Held(t)
    ensures var o := objs[0]; var own := cells[o].span;
            && own in c.spans && o in c.spans[own].all && o !in c.spans[own].objects
            && (AllBack(c, objs, s) <==>
                  (s == own && Dies(c, own)) || AllBack(Released(g, c, own, o), objs[1..], s))
            && (Dies(c, own) ==> forall x | x in objs[1..] :: x !in c.spans[own].all)
  {
    var o := objs[0];
    var own := cells[o].span;
    assert o in objs;
    assert o !in c.spans[own].objects;
    assert objs == [o] + objs[1..];
    OthersAreFree(g.total, c.spans[own], o);
    forall x | x in objs[1..]
      ensures x in objs && x != o && x in c.spans[cells[x].span].all
    {
      DistinctSplit(objs, 1);
      assert o in objs[..1];
    }
    if !Dies(c, own) {
      var x := AnotherIsOut(g.total, c.spans[own], o);
      assert x in c.spans[own].all && x != o && x !in c.spans[own].objects;
    }
  }

  /** What the first release leaves for the others. */
  lemma FirstGivenBack(k: int, g: ClassConfig, c: Central, cells: Cells, objs: seq<int>, t: int)
    requires ClassOk(k, g, c, cells) && objs != [] && Distinct(objs)
    requires forall x {:trigger x in objs} | x in objs ::
               x in cells && cells[x].class_ == k && cells[x].place == Held(t)
    ensures objs[0] in objs && cells[objs[0]].span in c.spans && Distinct(objs[1..])
    ensures var o := objs[0]; var c1 := Released(g, c, cells[o].span, o);
            var cells1 := CellsReleased(c, cells, cells[o].span, o, t);
            && ClassOk(k, g, c1, cells1)
            && (forall x {:trigger x in objs[1..]} | x in objs[1..] ::
                  x in cells1 && cells1[x].class_ == k && cells1[x].place == Held(t))
            && cells1.Keys == cells.Keys
            && (forall x {:trigger cells1[x]} | x in cells ::
                  cells1[x] == if Dies(c, cells[o].span) && x in c.spans[cells[o].span].all
                               then cells[x].(place := InTransit(t))
                               else if x == o then cells[x].(place := InChain) else cells[x])
  {
    var o := objs[0];
    assert o in objs;
    ReleaseKeepsClass(k, g, c, cells, o, t);
    OneGivenBack(k, g, c, cells, objs, t, 0);
    DistinctSplit(objs, 1);
    assert o in objs[..1];
    forall x | x in objs[1..]
      ensures x in objs && x != o
    {
    }
    hide ClassOk;
    hide Released;
  }

  lemma {:induction false} AllAreGivenBack(k: int, g: ClassConfig, c: Central, cells: Cells, objs: seq<int>, t: int)
    requires ClassOk(k, g, c, cells) && Distinct(objs)
    requires forall x {:trigger x in objs} | x in objs ::
               x in cells && cells[x].class_ == k && cells[x].place == Held(t)
    ensures var r := ReleasedAll(g, c, cells, objs, t);
            ClassOk(k, g, r.0, r.1) && GivenBack(k, g, c, cells, objs, t, r.0, r.1)
    decreases objs
  {
    if objs == [] {
      assert forall s :: !AllBack(c, objs, s);
    } else {
      var o := objs[0];
      FirstGivenBack(k, g, c, cells, objs, t);
      var own := cells[o].span;
      var c1, cells1 := Released(g, c, own, o), CellsReleased(c, cells, own, o, t);
      AllAreGivenBack(k, g, c1, cells1, objs[1..], t);
      GivenBackTogether(k, g, c, cells, objs, t, ReleasedAll(g, c1, cells1, objs[1..], t).0,
                        ReleasedAll(g, c1, cells1, objs[1..], t).1);
    }
  }

  lemma OneGoes(k: int, g: ClassConfig, c: Central, cells: Cells, objs: seq<int>, t: int, x: int)
    requires ClassOk(k, g, c, cells) && objs != [] && Distinct(objs) && x in cells
    requires forall y {:trigger y in objs} | y in objs ::
               y in cells && cells[y].class_ == k && cells[y].place == Held(t)
    requires objs[0] in cells && cells[objs[0]].span in c.spans
    ensures var o := objs[0]; var own := cells[o].span;
            Goes(k, c, cells, objs, x) <==>
              (Dies(c, own) && x in c.spans[own].all)
              || Goes(k, Released(g, c, own, o), CellsReleased(c, cells, own, o, t), objs[1..], x)
    ensures Dies(c, cells[objs[0]].span) && x in objs[1..] ==> x !in c.spans[cells[objs[0]].span].all
  {
    FirstGivenBack(k, g, c, cells, objs, t);
    OneGivenBack(k, g, c, cells, objs, t, cells[x].span);
    OneGivenBack(k, g, c, cells, objs, t, cells[objs[0]].span);
    OfItsSpan(k, g, c, cells, cells[objs[0]].span, x);
    hide ClassOk;
    hide AllBack;
    hide CellsReleased;
  }

  lemma OfItsSpan(k: int, g: ClassConfig, c: Central, cells: Cells, s: int, x: int)
    requires ClassOk(k, g, c, cells) && s in c.spans
    ensures x in c.spans[s].all ==> x in cells && cells[x].class_ == k && cells[x].span == s
  {
  }

  lemma GivenBackTogether(k: int, g: ClassConfig, c: Central, cells: Cells, objs: seq<int>, t: int,
                          c': Central, cells': Cells)
    requires ClassOk(k, g, c, cells) && objs != [] && Distinct(objs)
    requires forall x {:trigger x in objs} | x in objs ::
               x in cells && cells[x].class_ == k && cells[x].place == Held(t)
    requires objs[0] in cells && cells[objs[0]].span in c.spans
    requires var o := objs[0]; var own := cells[o].span;
             GivenBack(k, g, Released(g, c, own, o), CellsReleased(c, cells, own, o, t), objs[1..], t, c', cells')
    ensures GivenBack(k, g, c, cells, objs, t, c', cells')
  {
    hide ClassOk;
    hide AllBack;
    hide Goes;
    hide CellsReleased;
    hide Distinct;
    hide Released;
    var o := objs[0];
    FirstGivenBack(k, g, c, cells, objs, t);
    var own := cells[o].span;
    var c1, cells1 := Released(g, c, own, o), CellsReleased(c, cells, own, o, t);
    forall s
      ensures AllBack(c, objs, s) <==> (s == own && Dies(c, own)) || AllBack(c1, objs[1..], s)
    {
      OneGivenBack(k, g, c, cells, objs, t, s);
    }
    forall x | x in cells
      ensures cells'[x] == if Goes(k, c, cells, objs, x) then cells[x].(place := InTransit(t))
                           else if x in objs then cells[x].(place := InChain) else cells[x]
    {
      OneGoes(k, g, c, cells, objs, t, x);
      FirstOrRest(objs, x);
      assert cells'[x] == if Goes(k, c1, cells1, objs[1..], x) then cells1[x].(place := InTransit(t))
                          else if x in objs[1..] then cells1[x].(place := InChain) else cells1[x];
    }
    ReleasedCounts(g, c, own, o);
    MulDistributes(|c.spans| - |c1.spans|, |c1.spans| - |c'.spans|, g.total);
  }

  lemma ReleasedCounts(g: ClassConfig, c: Central, s: int, o: int)
    requires s in c.spans
    ensures var c' := Released(g, c, s, o);
            && c'.slots == c.slots && c'.numSpans - |c'.spans| == c.numSpans - |c.spans|
            && c'.counter == c.counter + 1 - (|c.spans| - |c'.spans|) * g.total
            && (forall x :: x in c'.spans <==> x in c.spans && !(x == s && Dies(c, s)))
  {
    var c' := Released(g, c, s, o);
    if Dies(c, s) {
      assert c.spans.Keys == c'.spans.Keys + {s};
    } else {
      assert c.spans.Keys == c'.spans.Keys;
    }
  }

  lemma FirstOrRest(objs: seq<int>, x: int)
    requires objs != []
    ensures x in objs <==> x == objs[0] || x in objs[1..]
  {
  }

  lemma HeldInHands(k: int, cells: Cells, t: int, objs: seq<int>, spanOf: int -> int)
    requires HandsHold(k, cells, t, objs, spanOf)
    ensures forall x {:trigger x in objs} | x in objs :: x in cells && cells[x].class_ == k && cells[x].place == Held(t)
  {
  }

  /** While objects of objs are still to be given back: the spans that go have gone, or the
      rest decides it. */
  ghost predicate DeadSoFar(c: Central, objs: seq<int>, dead: seq<int>, now: Central, rest: seq<int>)
  {
    && Distinct(dead) && (forall s {:trigger s in dead} | s in dead :: s !in now.spans)
    && (forall s {:trigger s in dead} {:trigger AllBack(c, objs, s)} ::
          AllBack(c, objs, s) <==> s in dead || AllBack(now, rest, s))
  }

  lemma DeadNext(k: int, g: ClassConfig, c: Central, objs: seq<int>, dead: seq<int>, now: Central, cells: Cells,
                 rest: seq<int>, t: int)
    requires ClassOk(k, g, now, cells) && rest != [] && Distinct(rest) && DeadSoFar(c, objs, dead, now, rest)
    requires forall x {:trigger x in rest} | x in rest ::
               x in cells && cells[x].class_ == k && cells[x].place == Held(t)
    requires rest[0] in cells && cells[rest[0]].span in now.spans
    ensures var s := cells[rest[0]].span;
            DeadSoFar(c, objs, if Dies(now, s) then dead + [s] else dead, Released(g, now, s, rest[0]), rest[1..])
  {
    hide ClassOk;
    hide AllBack;
    hide Released;
    var own := cells[rest[0]].span;
    assert rest[0] in rest;
    ReleasedCounts(g, now, own, rest[0]);
    forall s
      ensures AllBack(now, rest, s) <==>
              (s == own && Dies(now, own)) || AllBack(Released(g, now, own, rest[0]), rest[1..], s)
    {
      OneGivenBack(k, g, now, cells, rest, t, s);
    }
    if Dies(now, own) {
      DistinctPush(dead, own);
    }
  }

  lemma DistinctPush(s: seq<int>, x: int)
    requires Distinct(s) && x !in s
    ensures Distinct(s + [x]) && forall y :: y in s + [x] <==> y in s || y == x
  {
  }

  lemma DeadInTheEnd(c: Central, objs: seq<int>, dead: seq<int>, now: Central, rest: seq<int>)
    requires DeadSoFar(c, objs, dead, now, rest) && rest == []
    ensures Distinct(dead) && forall s {:trigger s in dead} :: s in dead <==> AllBack(c, objs, s)
  {
  }

  lemma ReleaseFacts(k: int, g: ClassConfig, m: ListMemory, c: Central, cells: Cells, o: int, t: int)
    requires ClassOk(k, g, c, cells) && Represents(m, c) && o != NULL && o in cells && cells[o].class_ == k
             && cells[o].place == Held(t)
    ensures var s := cells[o].span;
            && s in c.spans && s in m.spans && c.spans[s].refcount > 0 && m.spans[s].refcount == c.spans[s].refcount
            && ClassOk(k, g, Released(g, c, s, o), CellsReleased(c, cells, s, o, t))
            && Represents(MemoryReleased(g, m, s, o), Released(g, c, s, o))
  {
    ReleaseKeepsClass(k, g, c, cells, o, t);
    ReleaseKeepsMemory(k, g, m, c, cells, o);
    ChainOfSpan(m, c, cells[o].span);
    RefcountsMatch(m, c, cells[o].span);
    hide ClassOk;
    hide Represents;
  }

  lemma RefcountsMatch(m: ListMemory, c: Central, s: int)
    requires Represents(m, c) && s in c.spans
    ensures s in m.spans && m.spans[s].refcount == c.spans[s].refcount
  {
  }

  lemma HandsAfterRelease(k: int, g: ClassConfig, c: Central, cells: Cells, t: int, rest: seq<int>, spanOf: int -> int)
    requires ClassOk(k, g, c, cells) && rest != [] && Distinct(rest) && HandsHold(k, cells, t, rest, spanOf)
    requires rest[0] in cells && cells[rest[0]] == Cell(k, spanOf(rest[0]), Held(t)) && cells[rest[0]].span in c.spans
    ensures Distinct(rest[1..])
    ensures HandsHold(k, CellsReleased(c, cells, cells[rest[0]].span, rest[0], t), t, rest[1..], spanOf)
  {
    var o := rest[0];
    ReleaseKeepsClass(k, g, c, cells, o, t);
    DistinctSplit(rest, 1);
    assert o in rest[..1];
    forall x | x in rest[1..]
      ensures x in cells && cells[x] == Cell(k, spanOf(x), Held(t)) && x != o
    {
      assert x in rest;
    }
    hide ClassOk;
  }

  lemma LinksAfterRelease(mem0: Words, mem: Words, start: int, next: int, rest: seq<int>)
    requires Chain(mem0, start, rest) && start != NULL && next == mem0(start) && Distinct(rest)
    requires mem == mem0 || exists v :: mem == Store(mem0, start, v)
    ensures rest != [] && start == rest[0] && Chain(mem, next, rest[1..])
  {
    DistinctSplit(rest, 1);
    assert rest[0] in rest[..1];
    if mem != mem0 {
      var v :| mem == Store(mem0, start, v);
      ChainFrame(mem0, start, v, next, rest[1..]);
    }
  }

  lemma {:induction false} ChainAgrees(a: Words, b: Words, head: int, objs: seq<int>)
    requires Chain(a, head, objs) && forall o | o in objs :: a(o) == b(o)
    ensures Chain(b, head, objs)
    decreases objs
  {
    if objs != [] {
      ChainAgrees(a, b, a(head), objs[1..]);
    }
  }

  lemma ArrivalIsOk(k: int, g: ClassConfig, c: Central, cells: Cells, span: int, all: seq<int>)
    requires ClassOk(k, g, c, cells) && span !in c.spans && Distinct(all) && |all| == g.total
    requires forall o {:trigger o in all} | o in all :: o !in cells
    ensures ClassOk(k, g, WithSpan(c, span, all), WithCells(cells, all, Cell(k, span, InChain)))
  {
    var cells1 := WithCells(cells, all, Cell(k, span, InTransit(0)));
    NewCellsKeepClass(k, g, c, cells, all, Cell(k, span, InTransit(0)));
    hide ClassOk;
    NewSpanKeepsClass(k, g, c, cells1, span, all);
    ArrivesAtOnce(cells, all, k, span, 0);
  }

  lemma ArrivalIsRepresented(k: int, g: ClassConfig, m: ListMemory, c: Central, cells: Cells, span: int, all: seq<int>,
                             mem: Words, head: int)
    requires ClassOk(k, g, c, cells) && Represents(m, c) && Chain(mem, head, all)
    requires forall o {:trigger o in all} | o in all :: o !in cells
    requires forall a | a !in all :: mem(a) == m.mem(a)
    ensures Represents(m.(mem := mem, spans := m.spans[span := Descriptor(head, 0)], nonempty := [span] + m.nonempty,
                          numSpans := m.numSpans + 1, counter := m.counter + |all|), WithSpan(c, span, all))
  {
    OthersUnread(k, g, m, c, cells, mem, all);
    hide Chain;
    hide ClassOk;
    OneChainChanges(m.spans, c.spans, span, mem, Descriptor(head, 0), Span(all, all, 0));
    hide ChainsMatch;
    hide SlotsMatch;
  }

  lemma PopulateFacts(k: int, g: ClassConfig, m: ListMemory, c: Central, cells: Cells, span: int, start: int,
                      size: int, bytes: int,
                      mem: Words, head: int)
    requires ClassOk(k, g, c, cells) && Represents(m, c) && span !in c.spans && size > 0 && bytes >= 0
             && g.total == bytes / size
    requires forall o | o in Carved(start, size, g.total) :: o !in cells
    requires Chain(mem, head, Carved(start, size, g.total))
    requires forall a | a !in Carved(start, size, g.total) :: mem(a) == m.mem(a)
    ensures var all := Carved(start, size, g.total);
            && ClassOk(k, g, WithSpan(c, span, all), WithCells(cells, all, Cell(k, span, InChain)))
            && Represents(m.(mem := mem, spans := m.spans[span := Descriptor(head, 0)], nonempty := [span] + m.nonempty,
                             numSpans := m.numSpans + 1, counter := m.counter + g.total), WithSpan(c, span, all))
  {
    var all := Carved(start, size, g.total);
    Quotient(size, bytes);
    CarvedIsApart(start, size, bytes, g.total);
    hide ClassOk;
    hide Represents;
    hide Chain;
    hide Carved;
    ArrivalIsOk(k, g, c, cells, span, all);
    ArrivalIsRepresented(k, g, m, c, cells, span, all, mem, head);
  }

  lemma ArrivesAtOnce(cells: Cells, all: seq<int>, k: int, span: int, t: int)
    ensures Moved(WithCells(cells, all, Cell(k, span, InTransit(t))), all, InChain)
            == WithCells(cells, all, Cell(k, span, InChain))
  {
    var l, r := Moved(WithCells(cells, all, Cell(k, span, InTransit(t))), all, InChain),
      WithCells(cells, all, Cell(k, span, InChain));
    assert l.Keys == r.Keys;
    forall o | o in l
      ensures l[o] == r[o]
    {
    }
  }

  /** Writes to objects that the class does not know yet. */
  lemma OthersUnread(k: int, g: ClassConfig, m: ListMemory, c: Central, cells: Cells, mem: Words, all: seq<int>)
    requires ClassOk(k, g, c, cells) && Represents(m, c)
    requires forall o | o in all :: o !in cells
    requires forall a | a !in all :: mem(a) == m.mem(a)
    ensures m.spans.Keys == c.spans.Keys && SlotsMatch(mem, m.slots, c.slots)
    ensures forall t {:trigger c.spans[t]} | t in c.spans ::
              t in m.spans && m.spans[t].refcount == c.spans[t].refcount
                && Chain(mem, m.spans[t].objects, c.spans[t].objects)
  {
    forall t | t in c.spans
      ensures t in m.spans && m.spans[t].refcount == c.spans[t].refcount
              && Chain(mem, m.spans[t].objects, c.spans[t].objects)
    {
      assert forall o {:trigger o in c.spans[t].objects} | o in c.spans[t].objects :: o in cells;
      ChainAgrees(m.mem, mem, m.spans[t].objects, c.spans[t].objects);
    }
    forall i | 0 <= i < |c.slots|
      ensures Chain(mem, m.slots[i].head, c.slots[i])
    {
      assert forall o {:trigger o in c.slots[i]} | o in c.slots[i] :: o in cells;
      ChainAgrees(m.mem, mem, m.slots[i].head, c.slots[i]);
    }
    hide Chain;
  }

  lemma FetchingStarts(k: int, g: ClassConfig, c: Central, cells: Cells, n: int)
    requires ClassOk(k, g, c, cells) && n > 0
    ensures ListsMatch(c) && (c.nonempty != [] ==> c.nonempty[0] in c.spans)
    ensures AllOut(k, cells, []) && Moved(cells, [], Out) == cells
  {
    FetchKeepsOk(g, c, n);
    NothingMoves(cells, Out);
  }

  /** One more fetch, within fetching n objects. */
  lemma FetchingGoesOn(k: int, g: ClassConfig, c: Central, cells: Cells, m: int, n: int, objs: seq<int>)
    requires ClassOk(k, g, c, cells) && AllOut(k, cells, objs) && |objs| < n && m == n - |objs|
    ensures ListsMatch(c) && (c.nonempty != [] ==> c.nonempty[0] in c.spans)
    ensures var taken := Fetched(c, m);
            && |taken| <= m && (taken == [] <==> c.nonempty == []) && ListsMatch(AfterFetch(c, m))
            && FetchMore(AfterFetch(c, m), n, taken + objs) == FetchMore(c, n, objs)
            && AllOut(k, Moved(cells, taken, Out), taken + objs)
            && (taken == [] ==> AfterFetch(c, m) == c && Moved(cells, taken, Out) == cells)
            && taken + [] == taken && [] + objs == objs
            && (forall o {:trigger o in taken} | o in taken :: o in cells && cells[o].place == InChain)
  {
    if c.nonempty != [] {
      FetchStep(k, g, c, cells, m, objs);
    } else {
      FetchKeepsOk(g, c, m);
      NothingMoves(cells, Out);
      assert [] + objs == objs;
    }
    hide ClassOk;
  }

  lemma MovedTogether(cells: Cells, a: seq<int>, b: seq<int>, p: Place)
    ensures Moved(Moved(cells, a, p), b, p) == Moved(cells, b + a, p)
  {
    var l, r := Moved(Moved(cells, a, p), b, p), Moved(cells, b + a, p);
    forall o | o in cells
      ensures l[o] == r[o]
    {
    }
  }

  lemma FetchingEnds(c: Central, n: int, objs: seq<int>)
    requires ListsMatch(c) && (|objs| >= n || c.nonempty == [])
    ensures FetchMore(c, n, objs) == (c, objs)
  {
  }

  /** SLL_PushRange on chains of fetched objects. */
  lemma PushRangeFacts(k: int, g: ClassConfig, m: ListMemory, c: Central, cells: Cells, taken: seq<int>, objs: seq<int>,
                       mem0: Words, start: int, end: int, head: int, tail: int)
    requires ClassOk(k, g, c, Moved(cells, taken, Out)) && Represents(m, c) && m.mem == Store(mem0, tail, NULL)
    requires taken != [] && Range(m.mem, head, tail, taken) && AllOut(k, Moved(cells, taken, Out), taken + objs)
    requires forall o {:trigger o in taken} | o in taken :: o in cells && cells[o].place == InChain
    requires objs != [] && AllOut(k, cells, objs) && Range(mem0, start, end, objs)
    ensures Represents(m.(mem := Store(m.mem, tail, start)), c)
    ensures Range(Store(m.mem, tail, start), head, end, taken + objs)
  {
    hide Chain;
    hide ClassOk;
    hide Represents;
    assert tail in taken && tail in taken + objs;
    assert forall o {:trigger o in taken} | o in taken :: o !in objs;
    ChainFrame(mem0, tail, NULL, start, objs);
    DistinctSplit(taken + objs, |taken|);
    assert (taken + objs)[..|taken|] == taken;
    ChainJoin(m.mem, head, taken, start, objs);
    WriteElsewhere(k, g, m, c, Moved(cells, taken, Out), tail, start);
  }

  /** All that FetchFromOneSpans needs to know. */
  lemma FetchMemoryFacts(k: int, g: ClassConfig, m: ListMemory, c: Central, cells: Cells, n: int)
    requires ClassOk(k, g, c, cells) && Represents(m, c) && n > 0
    ensures m.nonempty == c.nonempty && (c.nonempty != [] ==> c.nonempty[0] in c.spans && c.nonempty[0] in m.spans)
    ensures ClassOk(k, g, AfterFetch(c, n), Moved(cells, Fetched(c, n), Out))
    ensures c.nonempty == [] ==>
              Fetched(c, n) == [] && AfterFetch(c, n) == c && Moved(cells, [], Out) == cells
                && Range(m.mem, NULL, NULL, [])
    ensures c.nonempty != [] ==>
              var s, objs := c.nonempty[0], Fetched(c, n);
              && Chain(m.mem, m.spans[s].objects, c.spans[s].objects) && c.spans[s].objects != []
              && |objs| == (if n < |c.spans[s].objects| then n else |c.spans[s].objects|)
              && Last(objs) == c.spans[s].objects[|objs| - 1]
              && var m' := MemoryFetched(m, s, Last(objs), |objs|);
              m'.mem == Store(m.mem, Last(objs), NULL) && Range(m'.mem, m.spans[s].objects, Last(objs), objs)
                && Represents(m', AfterFetch(c, n))
  {
    FetchKeepsClass(k, g, c, cells, n, Out);
    if c.nonempty == [] {
      NothingMoves(cells, Out);
    } else {
      FetchKeepsMemory(k, g, m, c, cells, n);
      ChainOfSpan(m, c, c.nonempty[0]);
    }
    hide ClassOk;
    hide Chain;
  }

  lemma NothingMoves(cells: Cells, p: Place)
    ensures Moved(cells, [], p) == cells
  {
    MovedSame(cells, [], p);
  }

  lemma ChainOfSpan(m: ListMemory, c: Central, s: int)
    requires Represents(m, c) && s in c.spans
    ensures s in m.spans && Chain(m.mem, m.spans[s].objects, c.spans[s].objects)
  {
  }
}
