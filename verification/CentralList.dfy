/** One size class of the central free list, as a value: spans with their chains of
    free objects, the transfer cache, the counters, and what each piece of code that
    runs under the lock does to them. */
module CentralLists {
  import opened Lists
  import opened Sums

  /** all are the objects that Populate carved, objects the free ones in chain order. */
  datatype Span = Span(all: seq<int>, objects: seq<int>, refcount: int)

  /** Spans are named by their descriptor; the two lists hold these names. */
  datatype Central = Central(
    spans: map<int, Span>, nonempty: seq<int>, empty: seq<int>, numSpans: int, counter: int,
    slots: seq<seq<int>>, cacheSize: int, maxCacheSize: int)

  /** Objects moved at a time, objects per span. */
  datatype ClassConfig = ClassConfig(move: int, total: int)

  ghost predicate SpanOk(total: int, s: Span)
  {
    && |s.all| == total && Distinct(s.all) && Distinct(s.objects)
    && (forall o | o in s.objects :: o in s.all)
    && s.refcount + |s.objects| == total
  }

  function ChainLengths<K>(spans: map<K, Span>): map<K, int>
  {
    map k | k in spans :: |spans[k].objects|
  }

  /** The free objects on all chains. */
  ghost function SumChains<K>(spans: map<K, Span>): int
  {
    Sum(ChainLengths(spans))
  }

  lemma SumWithout<K>(spans: map<K, Span>, k: K)
    requires k in spans
    ensures SumChains(spans) == |spans[k].objects| + SumChains(spans - {k})
  {
    SumRemove(ChainLengths(spans), k);
    assert ChainLengths(spans) - {k} == ChainLengths(spans - {k});
  }

  lemma SumPut<K>(spans: map<K, Span>, k: K, s: Span)
    ensures SumChains(spans[k := s]) ==
            SumChains(spans) + |s.objects| - if k in spans then |spans[k].objects| else 0
  {
    SumUpdate(ChainLengths(spans), k, |s.objects|);
    assert ChainLengths(spans[k := s]) == ChainLengths(spans)[k := |s.objects|];
  }

  /** Each span is on the list that its chain says, once. */
  ghost predicate ListsMatch(c: Central)
  {
    && Distinct(c.nonempty) && Distinct(c.empty)
    && (forall s {:trigger s in c.nonempty} :: s in c.nonempty <==> s in c.spans && c.spans[s].objects != [])
    && (forall s {:trigger s in c.empty} :: s in c.empty <==> s in c.spans && c.spans[s].objects == [])
  }

  /** What holds of a class whenever its lock is free. */
  ghost predicate CentralOk(g: ClassConfig, c: Central)
  {
    && g.move >= 1 && g.total >= 1
    && (forall s {:trigger c.spans[s]} | s in c.spans :: SpanOk(g.total, c.spans[s]))
    && ListsMatch(c)
    && c.numSpans == |c.spans| && c.counter == SumChains(c.spans)
    && |c.slots| <= c.cacheSize <= c.maxCacheSize
    && (forall i {:trigger c.slots[i]} | 0 <= i < |c.slots| :: |c.slots[i]| == g.move && Distinct(c.slots[i]))
  }

  // ---------- Fetching ----------

  /** How many objects the walk along the first chain takes. */
  function Took(c: Central, n: int): int
    requires c.nonempty != [] && c.nonempty[0] in c.spans && n > 0
  {
    var len := |c.spans[c.nonempty[0]].objects|;
    if n < len then n else len
  }

  /** FetchFromOneSpans: up to n objects off the first span with free ones. */
  function Fetched(c: Central, n: int): seq<int>
    requires n > 0 && (c.nonempty != [] ==> c.nonempty[0] in c.spans)
  {
    if c.nonempty == [] then [] else c.spans[c.nonempty[0]].objects[..Took(c, n)]
  }

  function AfterFetch(c: Central, n: int): Central
    requires n > 0 && (c.nonempty != [] ==> c.nonempty[0] in c.spans)
  {
    if c.nonempty == [] then c else
    var s := c.nonempty[0];
    var k := Took(c, n);
    var span := Span(c.spans[s].all, c.spans[s].objects[k..], c.spans[s].refcount + k);
    c.(spans := c.spans[s := span],
       nonempty := if span.objects == [] then c.nonempty[1..] else c.nonempty,
       empty := if span.objects == [] then [s] + c.empty else c.empty,
       counter := c.counter - k)
  }

  lemma FetchKeepsOk(g: ClassConfig, c: Central, n: int)
    requires CentralOk(g, c) && n > 0
    ensures c.nonempty != [] ==> c.nonempty[0] in c.spans
    ensures CentralOk(g, AfterFetch(c, n))
    ensures |Fetched(c, n)| <= n && (Fetched(c, n) == [] <==> c.nonempty == [])
    ensures Distinct(Fetched(c, n)) && AfterFetch(c, n).counter == c.counter - |Fetched(c, n)|
  {
    if c.nonempty != [] {
      var s := c.nonempty[0];
      assert s in c.nonempty;
      var k := Took(c, n);
      var old_ := c.spans[s];
      var c' := AfterFetch(c, n);
      assert SpanOk(g.total, old_);
      DistinctSplit(old_.objects, k);
      assert SpanOk(g.total, c'.spans[s]);
      SumPut(c.spans, s, c'.spans[s]);
      FetchKeepsLists(c, n);
    }
  }

  lemma FetchKeepsLists(c: Central, n: int)
    requires ListsMatch(c) && n > 0 && c.nonempty != []
    ensures c.nonempty[0] in c.spans && ListsMatch(AfterFetch(c, n))
  {
    var s := c.nonempty[0];
    assert s in c.nonempty;
    var c' := AfterFetch(c, n);
    assert c.nonempty == [s] + c.nonempty[1..];
    DistinctSplit(c.nonempty, 1);
    forall y
      ensures y in c.nonempty[1..] <==> y in c.nonempty && y != s
    {
      assert y in c.nonempty[..1] <==> y == s;
    }
    if c'.spans[s].objects == [] {
      Prepend(c.empty, s);
    }
  }

  // ---------- Where each object is ----------

  /** On the chain of its span, in a transfer slot, with a thread inside the central
      list, with the program, or in transit with its whole span from or to the page heap. */
  datatype Place = InChain | InSlot(slot: int) | Held(thread: int) | Out | InTransit(thread: int)

  datatype Cell = Cell(class_: int, span: int, place: Place)

  type Cells = map<int, Cell>

  function Moved(cells: Cells, objs: seq<int>, p: Place): (r: Cells)
    ensures r.Keys == cells.Keys
    ensures forall o {:trigger r[o]} | o in cells :: r[o] == if o in objs then cells[o].(place := p) else cells[o]
  {
    map o | o in cells :: if o in objs then cells[o].(place := p) else cells[o]
  }

  lemma MovedSame(cells: Cells, objs: seq<int>, p: Place)
    requires forall o {:trigger o in objs} | o in objs :: o in cells && cells[o].place == p
    ensures Moved(cells, objs, p) == cells
  {
    forall o | o in cells
      ensures Moved(cells, objs, p)[o] == cells[o]
    {
    }
  }

  lemma MovedTwice(cells: Cells, a: seq<int>, b: seq<int>, p: Place)
    requires forall o {:trigger o in a} | o in a :: o in b
    ensures Moved(Moved(cells, a, p), b, p) == Moved(cells, b, p)
  {
    forall o | o in cells
      ensures Moved(Moved(cells, a, p), b, p)[o] == Moved(cells, b, p)[o]
    {
    }
  }

  /** Every object of class k is in exactly the place that the class says. */
  ghost predicate CellsMatch(k: int, c: Central, cells: Cells)
  {
    && (forall s, o {:trigger o in c.spans[s].all} | s in c.spans && o in c.spans[s].all ::
          o in cells && cells[o].class_ == k && cells[o].span == s && !cells[o].place.InTransit?)
    && (forall s, o {:trigger o in c.spans[s].objects} | s in c.spans && o in c.spans[s].objects ::
          o in cells && cells[o] == Cell(k, s, InChain))
    && (forall i, o {:trigger o in c.slots[i]} | 0 <= i < |c.slots| && o in c.slots[i] ::
          o in cells && cells[o].class_ == k && cells[o].place == InSlot(i))
    && (forall o {:trigger cells[o]} | o in cells && cells[o].class_ == k ::
          && (cells[o].place.InTransit? || (cells[o].span in c.spans && o in c.spans[cells[o].span].all))
          && (cells[o].place.InChain? ==> o in c.spans[cells[o].span].objects)
          && (cells[o].place.InSlot? ==> 0 <= cells[o].place.slot < |c.slots| && o in c.slots[cells[o].place.slot]))
  }

  ghost predicate ClassOk(k: int, g: ClassConfig, c: Central, cells: Cells)
  {
    CentralOk(g, c) && CellsMatch(k, c, cells)
  }

  /** The free objects of a span and its reference count account for all its objects. */
  lemma RefcountIsExact(k: int, g: ClassConfig, c: Central, cells: Cells, s: int)
    requires ClassOk(k, g, c, cells) && s in c.spans
    ensures c.spans[s].refcount == |SetOf(c.spans[s].all) - SetOf(c.spans[s].objects)|
    ensures forall o | o in c.spans[s].all :: o in c.spans[s].objects <==> cells[o].place == InChain
  {
    var span := c.spans[s];
    DistinctCounts(span.all);
    DistinctCounts(span.objects);
    assert SetOf(span.objects) <= SetOf(span.all);
    forall o | o in span.all
      ensures o in span.objects <==> cells[o].place == InChain
    {
      assert o in cells && cells[o].span == s;
    }
  }

  /** What happens in another class, or to objects elsewhere, does not matter. */
  lemma ClassFrame(k: int, g: ClassConfig, c: Central, cells: Cells, cells': Cells)
    requires ClassOk(k, g, c, cells)
    requires forall o {:trigger cells[o]} | o in cells && cells[o].class_ == k :: o in cells' && cells'[o] == cells[o]
    requires forall o {:trigger cells'[o]} | o in cells' && cells'[o].class_ == k :: o in cells && cells'[o] == cells[o]
    ensures ClassOk(k, g, c, cells')
  {
    hide CentralOk;
  }

  /** Objects with a thread or the program may change hands. */
  lemma HandOver(k: int, g: ClassConfig, c: Central, cells: Cells, objs: seq<int>, p: Place)
    requires ClassOk(k, g, c, cells) && (p.Held? || p.Out?)
    requires forall o | o in objs :: o in cells && (cells[o].place.Held? || cells[o].place.Out?)
    ensures ClassOk(k, g, c, Moved(cells, objs, p))
  {
    hide CentralOk;
    var cells' := Moved(cells, objs, p);
    forall o | o in cells'
      ensures o in cells && cells'[o].class_ == cells[o].class_ && cells'[o].span == cells[o].span
      ensures cells[o].place.InChain? || cells[o].place.InSlot? || cells[o].place.InTransit? ==> cells'[o] == cells[o]
      ensures cells'[o].place.InChain? || cells'[o].place.InSlot? || cells'[o].place.InTransit?
              ==> cells'[o] == cells[o]
    {
    }
  }

  lemma FetchKeepsClass(k: int, g: ClassConfig, c: Central, cells: Cells, n: int, p: Place)
    requires ClassOk(k, g, c, cells) && n > 0 && (p.Held? || p.Out?)
    ensures c.nonempty != [] ==> c.nonempty[0] in c.spans
    ensures ClassOk(k, g, AfterFetch(c, n), Moved(cells, Fetched(c, n), p))
    ensures forall o {:trigger o in Fetched(c, n)} | o in Fetched(c, n) ::
              o in cells && cells[o].class_ == k && cells[o].place == InChain
  {
    FetchKeepsOk(g, c, n);
    var cells' := Moved(cells, Fetched(c, n), p);
    if c.nonempty != [] {
      FetchKeepsCells(k, c, cells, n, p);
    } else {
      assert cells' == cells;
    }
  }

  lemma FetchKeepsCells(k: int, c: Central, cells: Cells, n: int, p: Place)
    requires CellsMatch(k, c, cells) && n > 0 && (p.Held? || p.Out?)
    requires c.nonempty != [] && c.nonempty[0] in c.spans && Distinct(c.spans[c.nonempty[0]].objects)
    ensures CellsMatch(k, AfterFetch(c, n), Moved(cells, Fetched(c, n), p))
    ensures forall o {:trigger o in Fetched(c, n)} | o in Fetched(c, n) ::
              o in cells && cells[o].class_ == k && cells[o].place == InChain
  {
    var s := c.nonempty[0];
    DistinctSplit(c.spans[s].objects, Took(c, n));
    var c', cells' := AfterFetch(c, n), Moved(cells, Fetched(c, n), p);
    forall o | o in Fetched(c, n)
      ensures o in c.spans[s].objects && o in cells && cells[o] == Cell(k, s, InChain)
    {
    }
    forall t, o | t in c'.spans && o in c'.spans[t].objects
      ensures o in cells' && cells'[o] == Cell(k, t, InChain)
    {
      assert o in c.spans[t].objects;
    }
    forall i, o | 0 <= i < |c'.slots| && o in c'.slots[i]
      ensures o in cells' && cells'[o].class_ == k && cells'[o].place == InSlot(i)
    {
      assert o in c.slots[i];
    }
  }

  /** RemoveRange's loop: chains from one span after another, each pushed in front of
      what has been fetched, until there are n objects or no more. */
  function FetchMore(c: Central, n: int, fetched: seq<int>): (r: (Central, seq<int>))
    requires ListsMatch(c)
    decreases n - |fetched|
  {
    if |fetched| >= n || c.nonempty == [] then (c, fetched) else
    var k := n - |fetched|;
    HeadHasObjects(c, k);
    FetchMore(AfterFetch(c, k), n, Fetched(c, k) + fetched)
  }

  lemma HeadHasObjects(c: Central, n: int)
    requires ListsMatch(c) && c.nonempty != [] && n > 0
    ensures c.nonempty[0] in c.spans && ListsMatch(AfterFetch(c, n)) && 0 < |Fetched(c, n)| <= n
  {
    assert c.nonempty[0] in c.nonempty;
    FetchKeepsLists(c, n);
  }

  /** Objects of class k that the fetching has taken off the chains. */
  ghost predicate AllOut(k: int, cells: Cells, objs: seq<int>)
  {
    Distinct(objs) && forall o {:trigger o in objs} | o in objs ::
        o in cells && cells[o].class_ == k && cells[o].place == Out
  }

  lemma FetchStep(k: int, g: ClassConfig, c: Central, cells: Cells, m: int, fetched: seq<int>)
    requires ClassOk(k, g, c, cells) && AllOut(k, cells, fetched) && c.nonempty != [] && m > 0
    ensures ListsMatch(c) && c.nonempty[0] in c.spans
    ensures var c', objs := AfterFetch(c, m), Fetched(c, m);
            && ClassOk(k, g, c', Moved(cells, objs, Out)) && ListsMatch(c') && 0 < |objs| <= m
            && AllOut(k, Moved(cells, objs, Out), objs + fetched)
            && c'.counter == c.counter - |objs|
            && (forall o {:trigger o in objs} | o in objs ::
                  o in cells && cells[o].class_ == k && cells[o].place == InChain)
  {
    HeadHasObjects(c, m);
    FetchKeepsOk(g, c, m);
    FetchKeepsClass(k, g, c, cells, m, Out);
    hide ClassOk;
    hide ListsMatch;
    DistinctConcat(Fetched(c, m), fetched);
  }

  /** What RemoveRange makes of objects: n of them or, if the class runs out of free
      objects, all there are; all different, all free before, all out after. */
  lemma {:induction false} FetchMoreKeepsClass(k: int, g: ClassConfig, c: Central, cells: Cells, n: int,
                                               fetched: seq<int>)
    requires ClassOk(k, g, c, cells) && AllOut(k, cells, fetched) && |fetched| <= n
    ensures var (c', r) := FetchMore(c, n, fetched);
            && ClassOk(k, g, c', Moved(cells, r, Out)) && AllOut(k, Moved(cells, r, Out), r) && |fetched| <= |r| <= n
            && (|r| < n ==> c'.nonempty == [] && c'.counter == 0)
            && c'.counter == c.counter - (|r| - |fetched|)
            && c'.cacheSize == c.cacheSize && c'.slots == c.slots && c'.maxCacheSize == c.maxCacheSize
    ensures forall o {:trigger o in FetchMore(c, n, fetched).1} | o in FetchMore(c, n, fetched).1 ::
              o in cells && cells[o].class_ == k && (o in fetched || cells[o].place == InChain)
    ensures forall o {:trigger o in fetched} :: o in fetched ==> o in FetchMore(c, n, fetched).1
    decreases n - |fetched|
  {
    var r := FetchMore(c, n, fetched).1;
    if |fetched| < n && c.nonempty != [] {
      var m := n - |fetched|;
      FetchStep(k, g, c, cells, m, fetched);
      var objs := Fetched(c, m);
      var c', cells' := AfterFetch(c, m), Moved(cells, objs, Out);
      FetchMoreKeepsClass(k, g, c', cells', n, objs + fetched);
      assert FetchMore(c, n, fetched) == FetchMore(c', n, objs + fetched);
      hide FetchMore;
      hide ClassOk;
      hide ListsMatch;
      hide AllOut;
      forall o
        ensures o in objs + fetched <==> o in objs || o in fetched
        ensures o in objs || o in fetched ==> o in r
      {
        assert o in objs + fetched ==> o in r;
      }
      forall o | o in r
        ensures o in cells && cells[o].class_ == k && (o in fetched || cells[o].place == InChain)
      {
        assert o in objs + fetched || cells'[o].place == InChain;
      }
      MovedTwice(cells, objs, r, Out);
    } else {
      MovedSame(cells, fetched, Out);
      if c.nonempty == [] {
        EmptyCounter(c);
      }
    }
  }

  lemma {:induction false} EmptyCounter(c: Central)
    requires c.nonempty == [] && ListsMatch(c)
    ensures SumChains(c.spans) == 0
  {
    forall s | s in c.spans
      ensures c.spans[s].objects == []
    {
      assert s !in c.nonempty;
    }
    SumOfEmpty(c.spans);
  }

  lemma {:induction false} SumOfEmpty<K>(spans: map<K, Span>)
    requires forall s | s in spans :: spans[s].objects == []
    ensures SumChains(spans) == 0
    decreases spans.Keys
  {
    if spans.Keys != {} {
      var k :| k in spans;
      SumWithout(spans, k);
      SumOfEmpty(spans - {k});
    }
  }

  /** The first fetch gets something unless there is nothing. */
  lemma FetchedSomething(c: Central, n: int)
    requires ListsMatch(c) && n > 0
    ensures FetchMore(c, n, []).1 == [] <==> c.nonempty == []
  {
    if c.nonempty != [] {
      HeadHasObjects(c, n);
      FetchMoreGrows(AfterFetch(c, n), n, Fetched(c, n) + []);
    }
  }

  lemma {:induction false} FetchMoreGrows(c: Central, n: int, fetched: seq<int>)
    requires ListsMatch(c)
    ensures |FetchMore(c, n, fetched).1| >= |fetched|
    decreases n - |fetched|
  {
    if |fetched| < n && c.nonempty != [] {
      HeadHasObjects(c, n - |fetched|);
      FetchMoreGrows(AfterFetch(c, n - |fetched|), n, Fetched(c, n - |fetched|) + fetched);
    }
  }

  // ---------- Releasing ----------

  /** ReleaseToSpans on object o of span s: onto the chain; or, if it was the last one
      out, the span leaves the lists for the page heap. */
  function Released(g: ClassConfig, c: Central, s: int, o: int): Central
    requires s in c.spans
  {
    var span := c.spans[s];
    var moved := if span.objects == [] then c.(empty := Without(c.empty, s), nonempty := [s] + c.nonempty) else c;
    if span.refcount == 1 then
      moved.(spans := c.spans - {s}, nonempty := Without(moved.nonempty, s), numSpans := c.numSpans - 1,
             counter := c.counter + 1 - g.total)
    else
      moved.(spans := c.spans[s := Span(span.all, [o] + span.objects, span.refcount - 1)], counter := c.counter + 1)
  }

  predicate Dies(c: Central, s: int)
    requires s in c.spans
  {
    c.spans[s].refcount == 1
  }

  function CellsReleased(c: Central, cells: Cells, s: int, o: int, thread: int): Cells
    requires s in c.spans
  {
    if Dies(c, s) then Moved(cells, c.spans[s].all, InTransit(thread)) else Moved(cells, [o], InChain)
  }

  /** An object in hand is not on the chain: its span has a reference count, and the
      chain that the count reaches zero on holds all other objects. */
  lemma OthersAreFree(total: int, span: Span, o: int)
    requires SpanOk(total, span) && o in span.all && o !in span.objects
    ensures span.refcount > 0
    ensures span.refcount == 1 ==> forall x {:trigger x in span.all} | x in span.all :: x == o || x in span.objects
  {
    Prepend(span.objects, o);
    DistinctFits(span.all, [o] + span.objects);
    if span.refcount == 1 {
      forall x | x in span.all
        ensures x == o || x in span.objects
      {
        assert x in [o] + span.objects;
      }
    }
  }

  lemma ReleaseKeepsLists(g: ClassConfig, c: Central, s: int, o: int)
    requires ListsMatch(c) && s in c.spans
    ensures ListsMatch(Released(g, c, s, o))
  {
    var span := c.spans[s];
    var moved := if span.objects == [] then c.(empty := Without(c.empty, s), nonempty := [s] + c.nonempty) else c;
    if span.objects == [] {
      assert s in c.empty && s !in c.nonempty;
      WithoutRemoves(c.empty, s);
      Prepend(c.nonempty, s);
    } else {
      assert s in c.nonempty && s !in c.empty;
    }
    WithoutRemoves(moved.nonempty, s);
    hide Without;
  }

  lemma ReleaseKeepsOk(g: ClassConfig, c: Central, s: int, o: int)
    requires CentralOk(g, c) && s in c.spans && o in c.spans[s].all && o !in c.spans[s].objects
    ensures c.spans[s].refcount > 0
    ensures CentralOk(g, Released(g, c, s, o))
  {
    var span := c.spans[s];
    OthersAreFree(g.total, span, o);
    ReleaseKeepsLists(g, c, s, o);
    if Dies(c, s) {
      SumWithout(c.spans, s);
      assert |c.spans - {s}| == |c.spans| - 1 by {
        assert (c.spans - {s}).Keys == c.spans.Keys - {s};
      }
    } else {
      Prepend(span.objects, o);
      SumPut(c.spans, s, Span(span.all, [o] + span.objects, span.refcount - 1));
    }
    hide ListsMatch;
  }

  lemma ReleaseKeepsClass(k: int, g: ClassConfig, c: Central, cells: Cells, o: int, thread: int)
    requires ClassOk(k, g, c, cells) && o in cells && cells[o].class_ == k && cells[o].place.Held?
    ensures cells[o].span in c.spans && c.spans[cells[o].span].refcount > 0
    ensures ClassOk(k, g, Released(g, c, cells[o].span, o), CellsReleased(c, cells, cells[o].span, o, thread))
    ensures Dies(c, cells[o].span) ==>
              forall x {:trigger x in c.spans[cells[o].span].all} | x in c.spans[cells[o].span].all ::
                x in cells && cells[x].class_ == k && (x == o || cells[x].place == InChain)
  {
    var s := cells[o].span;
    assert o !in c.spans[s].objects;
    ReleaseKeepsOk(g, c, s, o);
    OthersAreFree(g.total, c.spans[s], o);
    hide CentralOk;
    if Dies(c, s) {
      DeathKeepsCells(k, g, c, cells, o, thread);
    } else {
      ReturnKeepsCells(k, g, c, cells, o);
    }
  }

  lemma DeathKeepsCells(k: int, g: ClassConfig, c: Central, cells: Cells, o: int, thread: int)
    requires CellsMatch(k, c, cells) && o in cells && cells[o].class_ == k && cells[o].place.Held?
    requires cells[o].span in c.spans && Dies(c, cells[o].span)
    requires var span := c.spans[cells[o].span];
             forall x {:trigger x in span.all} | x in span.all :: x == o || x in span.objects
    ensures CellsMatch(k, Released(g, c, cells[o].span, o), CellsReleased(c, cells, cells[o].span, o, thread))
    ensures forall x {:trigger x in c.spans[cells[o].span].all} | x in c.spans[cells[o].span].all ::
              x in cells && cells[x].class_ == k && (x == o || cells[x].place == InChain)
  {
    var s := cells[o].span;
    var all := c.spans[s].all;
    var c', cells' := Released(g, c, s, o), CellsReleased(c, cells, s, o, thread);
    forall x | x in all
      ensures x in cells && cells[x].class_ == k && cells[x].span == s && (x == o || cells[x].place == InChain)
    {
      assert x == o || x in c.spans[s].objects;
    }
    forall t, x | t in c'.spans && x in c'.spans[t].all
      ensures x !in all && x in cells' && cells'[x].class_ == k && cells'[x].span == t && !cells'[x].place.InTransit?
    {
      assert x in c.spans[t].all;
    }
    forall t, x | t in c'.spans && x in c'.spans[t].objects
      ensures x in cells' && cells'[x] == Cell(k, t, InChain)
    {
      assert x in c.spans[t].objects;
    }
    forall i, x | 0 <= i < |c'.slots| && x in c'.slots[i]
      ensures x in cells' && cells'[x].class_ == k && cells'[x].place == InSlot(i)
    {
      assert x in c.slots[i];
    }
  }

  lemma ReturnKeepsCells(k: int, g: ClassConfig, c: Central, cells: Cells, o: int)
    requires CellsMatch(k, c, cells) && o in cells && cells[o].class_ == k && cells[o].place.Held?
    requires cells[o].span in c.spans && !Dies(c, cells[o].span)
    ensures CellsMatch(k, Released(g, c, cells[o].span, o), Moved(cells, [o], InChain))
  {
    var s := cells[o].span;
    var c', cells' := Released(g, c, s, o), Moved(cells, [o], InChain);
    forall t, x | t in c'.spans && x in c'.spans[t].all
      ensures x in cells' && cells'[x].class_ == k && cells'[x].span == t && !cells'[x].place.InTransit?
    {
      assert x in c.spans[t].all;
    }
    forall t, x | t in c'.spans && x in c'.spans[t].objects
      ensures x in cells' && cells'[x] == Cell(k, t, InChain)
    {
      assert x == o || x in c.spans[t].objects;
    }
    forall i, x | 0 <= i < |c'.slots| && x in c'.slots[i]
      ensures x in cells' && cells'[x].class_ == k && cells'[x].place == InSlot(i)
    {
      assert x in c.slots[i];
    }
  }

  // ---------- New spans and the transfer cache ----------

  function WithCells(cells: Cells, objs: seq<int>, cell: Cell): (r: Cells)
    ensures forall o {:trigger o in r} :: o in r <==> o in cells || o in objs
    ensures forall o {:trigger r[o]} | o in r :: r[o] == if o in objs then cell else cells[o]
  {
    cells + map o | o in objs :: cell
  }

  /** Objects that are new and on their way change nothing yet. */
  lemma NewCellsKeepClass(k: int, g: ClassConfig, c: Central, cells: Cells, all: seq<int>, cell: Cell)
    requires ClassOk(k, g, c, cells) && cell.place.InTransit?
    requires forall o {:trigger o in all} | o in all :: o !in cells
    ensures ClassOk(k, g, c, WithCells(cells, all, cell))
  {
    hide CentralOk;
    var cells' := WithCells(cells, all, cell);
    forall s, o | s in c.spans && o in c.spans[s].objects
      ensures o in cells' && cells'[o] == Cell(k, s, InChain)
    {
      assert o in cells;
    }
    forall i, o | 0 <= i < |c.slots| && o in c.slots[i]
      ensures o in cells' && cells'[o].class_ == k && cells'[o].place == InSlot(i)
    {
      assert o in cells;
    }
  }

  /** The end of Populate: a carved span, all of whose objects are free. */
  function WithSpan(c: Central, s: int, all: seq<int>): Central
  {
    c.(spans := c.spans[s := Span(all, all, 0)], nonempty := [s] + c.nonempty, numSpans := c.numSpans + 1,
       counter := c.counter + |all|)
  }

  lemma NewSpanKeepsLists(c: Central, s: int, all: seq<int>)
    requires ListsMatch(c) && s !in c.spans && all != []
    ensures ListsMatch(WithSpan(c, s, all))
  {
    assert s !in c.nonempty && s !in c.empty;
    Prepend(c.nonempty, s);
  }

  lemma NewSpanKeepsOk(g: ClassConfig, c: Central, s: int, all: seq<int>)
    requires CentralOk(g, c) && s !in c.spans && Distinct(all) && |all| == g.total
    ensures CentralOk(g, WithSpan(c, s, all))
  {
    hide ListsMatch;
    NewSpanKeepsLists(c, s, all);
    SumPut(c.spans, s, Span(all, all, 0));
  }

  lemma NewSpanKeepsClass(k: int, g: ClassConfig, c: Central, cells: Cells, s: int, all: seq<int>)
    requires ClassOk(k, g, c, cells) && s !in c.spans && Distinct(all) && |all| == g.total
    requires forall o {:trigger o in all} | o in all ::
               o in cells && cells[o].class_ == k && cells[o].span == s && cells[o].place.InTransit?
    ensures ClassOk(k, g, WithSpan(c, s, all), Moved(cells, all, InChain))
  {
    hide CentralOk;
    hide CellsMatch;
    NewSpanKeepsOk(g, c, s, all);
    NewSpanKeepsCells(k, c, cells, s, all);
  }

  lemma NewSpanKeepsCells(k: int, c: Central, cells: Cells, s: int, all: seq<int>)
    requires CellsMatch(k, c, cells) && s !in c.spans
    requires forall o {:trigger o in all} | o in all ::
               o in cells && cells[o].class_ == k && cells[o].span == s && cells[o].place.InTransit?
    ensures CellsMatch(k, WithSpan(c, s, all), Moved(cells, all, InChain))
  {
    var c', cells' := WithSpan(c, s, all), Moved(cells, all, InChain);
    forall t, x | t in c'.spans && x in c'.spans[t].all
      ensures x in cells' && cells'[x].class_ == k && cells'[x].span == t && !cells'[x].place.InTransit?
    {
      assert x in all || x in c.spans[t].all;
    }
    forall t, x | t in c'.spans && x in c'.spans[t].objects
      ensures x in cells' && cells'[x] == Cell(k, t, InChain)
    {
      assert x in all || x in c.spans[t].objects;
    }
    forall i, x | 0 <= i < |c'.slots| && x in c'.slots[i]
      ensures x in cells' && cells'[x].class_ == k && cells'[x].place == InSlot(i)
    {
      assert x in c.slots[i];
    }
  }

  function WithSlot(c: Central, chain: seq<int>): Central
  {
    c.(slots := c.slots + [chain])
  }

  lemma PushSlotKeepsClass(k: int, g: ClassConfig, c: Central, cells: Cells, chain: seq<int>)
    requires ClassOk(k, g, c, cells) && |c.slots| < c.cacheSize && |chain| == g.move && Distinct(chain)
    requires forall o {:trigger o in chain} | o in chain :: o in cells && cells[o].class_ == k && cells[o].place.Held?
    ensures ClassOk(k, g, WithSlot(c, chain), Moved(cells, chain, InSlot(|c.slots|)))
  {
    var c', cells' := WithSlot(c, chain), Moved(cells, chain, InSlot(|c.slots|));
    assert CentralOk(g, c');
    hide CentralOk;
    forall i, x | 0 <= i < |c'.slots| && x in c'.slots[i]
      ensures x in cells' && cells'[x].class_ == k && cells'[x].place == InSlot(i)
    {
      assert i < |c.slots| ==> x in c.slots[i];
    }
    forall t, x | t in c'.spans && x in c'.spans[t].objects
      ensures x in cells' && cells'[x] == Cell(k, t, InChain)
    {
      assert x in c.spans[t].objects;
    }
  }

  function LastSlot(c: Central): seq<int>
    requires c.slots != []
  {
    c.slots[|c.slots| - 1]
  }

  function WithoutSlot(c: Central): Central
    requires c.slots != []
  {
    c.(slots := c.slots[..|c.slots| - 1])
  }

  lemma PopSlotKeepsClass(k: int, g: ClassConfig, c: Central, cells: Cells, p: Place)
    requires ClassOk(k, g, c, cells) && c.slots != [] && (p.Held? || p.Out?)
    ensures |LastSlot(c)| == g.move && Distinct(LastSlot(c))
    ensures forall o {:trigger o in LastSlot(c)} | o in LastSlot(c) ::
              o in cells && cells[o].class_ == k && cells[o].place.InSlot?
    ensures ClassOk(k, g, WithoutSlot(c), Moved(cells, LastSlot(c), p))
  {
    var n := |c.slots| - 1;
    var c', cells' := WithoutSlot(c), Moved(cells, LastSlot(c), p);
    assert |c.slots[n]| == g.move;
    assert CentralOk(g, c') by {
      assert forall i {:trigger c'.slots[i]} | 0 <= i < n :: c'.slots[i] == c.slots[i];
    }
    hide CentralOk;
    forall o | o in LastSlot(c)
      ensures o in cells && cells[o].class_ == k && cells[o].place == InSlot(n)
    {
      assert o in c.slots[n];
    }
    forall i, x | 0 <= i < |c'.slots| && x in c'.slots[i]
      ensures x in cells' && cells'[x].class_ == k && cells'[x].place == InSlot(i)
    {
      assert x in c.slots[i];
    }
    forall t, x | t in c'.spans && x in c'.spans[t].objects
      ensures x in cells' && cells'[x] == Cell(k, t, InChain)
    {
      assert x in c.spans[t].objects;
    }
  }

  lemma ResizeKeepsClass(k: int, g: ClassConfig, c: Central, cells: Cells, size: int)
    requires ClassOk(k, g, c, cells) && |c.slots| <= size <= c.maxCacheSize
    ensures ClassOk(k, g, c.(cacheSize := size), cells)
  {
  }

  // ---------- Last in, first out ----------

  lemma PutBackFirst(list: seq<int>, s: int)
    requires Distinct(list) && s in list
    ensures [s] + Without(list, s) == list <==> list[0] == s
  {
  }

  /** The next object fetched is the one released last, and that puts everything back,
      exactly if its span is the first of its list. */
  lemma FetchUndoesReleaseIff(g: ClassConfig, c: Central, s: int, o: int)
    requires ListsMatch(c) && s in c.spans && !Dies(c, s)
    ensures var r := Released(g, c, s, o); var list := if c.spans[s].objects == [] then c.empty else c.nonempty;
            && list != [] && r.nonempty != [] && r.nonempty[0] in r.spans
            && (Fetched(r, 1) == [o] && AfterFetch(r, 1) == c <==> list[0] == s)
  {
    var r, span := Released(g, c, s, o), c.spans[s];
    if span.objects == [] {
      assert s in c.empty;
      PutBackFirst(c.empty, s);
      assert ([s] + c.nonempty)[1..] == c.nonempty;
    } else {
      assert s in c.nonempty && c.nonempty[0] in c.nonempty;
    }
    assert ([o] + span.objects)[1..] == span.objects;
    assert c.spans[s := Span(span.all, [o] + span.objects, span.refcount - 1)][s := span] == c.spans;
    if r.nonempty[0] != s {
      var first, was := r.nonempty[0], Span(span.all, [o] + span.objects, span.refcount - 1);
      assert r.spans == c.spans[s := was] && r.spans[s] == was;
      var now := AfterFetch(r, 1);
      assert now.spans == r.spans[first := now.spans[first]];
      assert now.spans[s] == was != span;
    }
  }

  /** Releasing what has just been fetched puts everything back, unless no other object of
      its span was out: then the span goes. */
  lemma ReleaseUndoesFetchIff(g: ClassConfig, c: Central)
    requires ListsMatch(c) && c.nonempty != []
    ensures c.nonempty[0] in c.spans && c.spans[c.nonempty[0]].objects != []
    ensures var s := c.nonempty[0]; var o := c.spans[s].objects[0];
            && s in AfterFetch(c, 1).spans && Fetched(c, 1) == [o]
            && (Released(g, AfterFetch(c, 1), s, o) == c <==> c.spans[s].refcount != 0)
            && (Dies(AfterFetch(c, 1), s) <==> c.spans[s].refcount == 0)
  {
    var s := c.nonempty[0];
    assert s in c.nonempty && s !in c.empty;
    var span := c.spans[s];
    assert [span.objects[0]] + span.objects[1..] == span.objects;
    assert [s] + c.nonempty[1..] == c.nonempty && ([s] + c.empty)[1..] == c.empty;
    assert c.spans[s := Span(span.all, span.objects[1..], span.refcount + 1)][s := span] == c.spans;
    if span.refcount == 0 {
      assert s !in Released(g, AfterFetch(c, 1), s, span.objects[0]).spans;
    }
  }

  /** A new span is the first to be used. */
  lemma NewSpanIsFirst(c: Central, s: int, all: seq<int>, n: int)
    requires all != [] && n > 0
    ensures WithSpan(c, s, all).nonempty[0] == s && s in WithSpan(c, s, all).spans
    ensures Fetched(WithSpan(c, s, all), n) == if n < |all| then all[..n] else all
  {
  }
}
