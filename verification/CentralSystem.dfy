/** All size classes and all threads together: the central free lists as a machine
    whose steps are the pieces of code between two operations on a lock. Any thread
    that can go on may do so next. */
module CentralSystems {
  import opened CentralLists
  import opened Lists

  const PAGE_HEAP: int := -1

  /** Where ReleaseListToSpans returns to: InsertRange is done, or ShrinkCache has
      evicted an entry for the class that wants to cache chain. */
  datatype After = InsertDone | Evicted(k: int, chain: seq<int>)

  /** A piece of code to be run under one lock, with what the thread has in hand. */
  datatype Work =
    | Insert(k: int, chain: seq<int>)
    | Shrink(k: int, chain: seq<int>, victim: int, force: bool)
    | Return(k: int, chain: seq<int>, force: bool, won: bool)
    | Release(k: int, todo: seq<int>, after: After)
    | Delete(k: int, span: int, all: seq<int>, todo: seq<int>, after: After)
    | Remove(k: int, n: int)
    | Populate(k: int, n: int)
    | Populated(k: int, n: int, span: int, all: seq<int>)

  datatype Thread = Idle | Waiting(work: Work) | Running(work: Work)

  /** locks says which thread holds each lock that is held. */
  datatype System = System(classes: seq<Central>, threads: seq<Thread>, cells: Cells, locks: map<int, int>)

  /** The lock that a piece of work needs: that of a class, or of the page heap. */
  function LockOf(w: Work): int
  {
    match w
    case Shrink(_, _, victim, _) => victim
    case Delete(_, _, _, _, _) => PAGE_HEAP
    case Populate(_, _) => PAGE_HEAP
    case _ => w.k
  }

  function HeldAfter(a: After): seq<int>
  {
    if a.Evicted? then a.chain else []
  }

  /** The objects in a thread's hands. */
  function InHand(w: Work): seq<int>
  {
    match w
    case Insert(_, chain) => chain
    case Shrink(_, chain, _, _) => chain
    case Return(_, chain, _, _) => chain
    case Release(_, todo, after) => todo + HeldAfter(after)
    case Delete(_, _, _, todo, after) => todo + HeldAfter(after)
    case _ => []
  }

  // ---------- Steps ----------

  /** What a thread cannot control: the victims that EvictRandomSizeClass comes up
      with, what its unlocked look at them sees, and what the page heap gives. */
  datatype Chance = Chance(victim: int, seenCache: int, seenUsed: int, victim2: int, seenCache2: int, seenUsed2: int,
                           span: int, all: seq<int>)

  datatype Event = StartInsert(k: int, chain: seq<int>) | StartRemove(k: int, n: int) | Acquire | Run(chance: Chance)

  function Go(sys: System, t: int, w: Work): System
    requires 0 <= t < |sys.threads|
  {
    sys.(threads := sys.threads[t := Running(w)])
  }

  /** Unlock, then wait for the lock that comes next. */
  function UnlockThen(sys: System, t: int, lock: int, next: Thread): System
    requires 0 <= t < |sys.threads|
  {
    sys.(threads := sys.threads[t := next], locks := sys.locks - {lock})
  }

  function SetClass(sys: System, k: int, c: Central, cells: Cells): System
    requires 0 <= k < |sys.classes|
  {
    sys.(classes := sys.classes[k := c], cells := cells)
  }

  /** The look before taking the victim's lock. */
  predicate WorthTrying(k: int, victim: int, seenCache: int, seenUsed: int, force: bool)
  {
    victim != k && seenCache != 0 && (force || seenUsed != seenCache)
  }

  /** `EvictRandomSizeClass(c, false) || EvictRandomSizeClass(c, true)`, from the first
      or from the second attempt on; then back to ReleaseListToSpans. */
  function TryEvict(sys: System, t: int, k: int, chain: seq<int>, second: bool, h: Chance): System
    requires 0 <= t < |sys.threads|
  {
    if !second && WorthTrying(k, h.victim, h.seenCache, h.seenUsed, false) then
      UnlockThen(sys, t, k, Waiting(Shrink(k, chain, h.victim, false)))
    else if WorthTrying(k, h.victim2, h.seenCache2, h.seenUsed2, true) then
      UnlockThen(sys, t, k, Waiting(Shrink(k, chain, h.victim2, true)))
    else
      Go(sys, t, Release(k, chain, InsertDone))
  }

  function CacheChain(sys: System, t: int, k: int, chain: seq<int>): System
    requires 0 <= t < |sys.threads| && 0 <= k < |sys.classes|
  {
    var c := sys.classes[k];
    UnlockThen(SetClass(sys, k, WithSlot(c, chain), Moved(sys.cells, chain, InSlot(|c.slots|))), t, k, Idle)
  }

  function RunInsert(g: seq<ClassConfig>, sys: System, t: int, w: Work, h: Chance): System
    requires w.Insert? && 0 <= t < |sys.threads| && 0 <= w.k < |sys.classes| == |g|
  {
    var c := sys.classes[w.k];
    if |w.chain| != g[w.k].move then Go(sys, t, Release(w.k, w.chain, InsertDone))
    else if |c.slots| < c.cacheSize then CacheChain(sys, t, w.k, w.chain)
    else if c.cacheSize == c.maxCacheSize then Go(sys, t, Release(w.k, w.chain, InsertDone))
    else TryEvict(sys, t, w.k, w.chain, false, h)
  }

  function RunShrink(sys: System, t: int, w: Work): System
    requires w.Shrink? && 0 <= t < |sys.threads| && 0 <= w.victim < |sys.classes|
  {
    var c := sys.classes[w.victim];
    if c.cacheSize == 0 || (|c.slots| == c.cacheSize && !w.force) then
      UnlockThen(sys, t, w.victim, Waiting(Return(w.k, w.chain, w.force, false)))
    else if |c.slots| == c.cacheSize then
      var c' := WithoutSlot(c).(cacheSize := c.cacheSize - 1);
      Go(SetClass(sys, w.victim, c', Moved(sys.cells, LastSlot(c), Held(t))), t,
         Release(w.victim, LastSlot(c), Evicted(w.k, w.chain)))
    else
      UnlockThen(SetClass(sys, w.victim, c.(cacheSize := c.cacheSize - 1), sys.cells), t, w.victim,
                 Waiting(Return(w.k, w.chain, w.force, true)))
  }

  function RunReturn(sys: System, t: int, w: Work, h: Chance): System
    requires w.Return? && 0 <= t < |sys.threads| && 0 <= w.k < |sys.classes|
  {
    var c := sys.classes[w.k];
    if w.won && c.cacheSize < c.maxCacheSize then
      CacheChain(SetClass(sys, w.k, c.(cacheSize := c.cacheSize + 1), sys.cells), t, w.k, w.chain)
    else if !w.won && !w.force then TryEvict(sys, t, w.k, w.chain, true, h)
    else Go(sys, t, Release(w.k, w.chain, InsertDone))
  }

  function RunRelease(g: seq<ClassConfig>, sys: System, t: int, w: Work): System
    requires w.Release? && 0 <= t < |sys.threads| && 0 <= w.k < |sys.classes| == |g|
    requires w.todo != [] ==> w.todo[0] in sys.cells && sys.cells[w.todo[0]].span in sys.classes[w.k].spans
  {
    if w.todo == [] then
      UnlockThen(sys, t, w.k,
                 if w.after.InsertDone? then Idle else Waiting(Return(w.after.k, w.after.chain, true, true)))
    else
      var c, o := sys.classes[w.k], w.todo[0];
      var s := sys.cells[o].span;
      var sys' := SetClass(sys, w.k, Released(g[w.k], c, s, o), CellsReleased(c, sys.cells, s, o, t));
      if Dies(c, s) then UnlockThen(sys', t, w.k, Waiting(Delete(w.k, s, c.spans[s].all, w.todo[1..], w.after)))
      else Go(sys', t, Release(w.k, w.todo[1..], w.after))
  }

  function RunDelete(sys: System, t: int, w: Work): System
    requires w.Delete? && 0 <= t < |sys.threads|
  {
    UnlockThen(sys.(cells := WithoutCells(sys.cells, w.all)), t, PAGE_HEAP, Waiting(Release(w.k, w.todo, w.after)))
  }

  function WithoutCells(cells: Cells, objs: seq<int>): (r: Cells)
    ensures forall o {:trigger o in r} :: o in r <==> o in cells && o !in objs
    ensures forall o {:trigger r[o]} | o in r :: r[o] == cells[o]
  {
    map o | o in cells && o !in objs :: cells[o]
  }

  /** Objects fetched for the caller of RemoveRange. */
  function Deliver(sys: System, t: int, k: int, c: Central, objs: seq<int>): System
    requires 0 <= t < |sys.threads| && 0 <= k < |sys.classes|
  {
    UnlockThen(SetClass(sys, k, c, Moved(sys.cells, objs, Out)), t, k, Idle)
  }

  function RunRemove(g: seq<ClassConfig>, sys: System, t: int, w: Work): System
    requires w.Remove? && 0 <= t < |sys.threads| && 0 <= w.k < |sys.classes| == |g| && ListsMatch(sys.classes[w.k])
  {
    var c := sys.classes[w.k];
    if w.n == g[w.k].move && c.slots != [] then Deliver(sys, t, w.k, WithoutSlot(c), LastSlot(c))
    else if c.nonempty != [] then
      var r := FetchMore(c, w.n, []);
      Deliver(sys, t, w.k, r.0, r.1)
    else UnlockThen(sys, t, w.k, Waiting(Populate(w.k, w.n)))
  }

  /** The page heap gives pages for all, under descriptor span, or nothing. */
  function RunPopulate(sys: System, t: int, w: Work, h: Chance): System
    requires w.Populate? && 0 <= t < |sys.threads|
  {
    UnlockThen(sys.(cells := WithCells(sys.cells, h.all, Cell(w.k, h.span, InTransit(t)))), t, PAGE_HEAP,
               Waiting(Populated(w.k, w.n, h.span, h.all)))
  }

  /** Populate's end, for a span or for nothing; then the fetching goes on as in Remove. */
  function Joined(c: Central, span: int, all: seq<int>): Central
  {
    if all == [] then c else WithSpan(c, span, all)
  }

  function CellsJoined(cells: Cells, all: seq<int>): Cells
  {
    if all == [] then cells else Moved(cells, all, InChain)
  }

  function Arrived(sys: System, t: int, w: Work): System
    requires w.Populated? && 0 <= t < |sys.threads| && 0 <= w.k < |sys.classes|
  {
    Go(SetClass(sys, w.k, Joined(sys.classes[w.k], w.span, w.all), CellsJoined(sys.cells, w.all)), t, Remove(w.k, w.n))
  }

  function RunPopulated(sys: System, t: int, w: Work): System
    requires w.Populated? && 0 <= t < |sys.threads| && 0 <= w.k < |sys.classes|
    requires ListsMatch(Joined(sys.classes[w.k], w.span, w.all))
  {
    var r := FetchMore(Joined(sys.classes[w.k], w.span, w.all), w.n, []);
    Deliver(Arrived(sys, t, w), t, w.k, r.0, r.1)
  }

  // ---------- What every step keeps ----------

  /** Objects of class k in the hands of thread t. */
  ghost predicate HeldBy(cells: Cells, t: int, k: int, objs: seq<int>)
  {
    forall o {:trigger o in objs} | o in objs :: o in cells && cells[o].class_ == k && cells[o].place == Held(t)
  }

  ghost predicate AfterOk(g: seq<ClassConfig>, cells: Cells, t: int, a: After)
  {
    a.Evicted? ==> 0 <= a.k < |g| && |a.chain| == g[a.k].move && HeldBy(cells, t, a.k, a.chain)
  }

  /** A span between the page heap and its class, with all its objects. */
  ghost predicate SpanInTransit(g: seq<ClassConfig>, cells: Cells, t: int, k: int, span: int, all: seq<int>)
    requires 0 <= k < |g|
  {
    && Distinct(all) && |all| == g[k].total
    && forall o {:trigger o in all} | o in all :: o in cells && cells[o] == Cell(k, span, InTransit(t))
  }

  ghost predicate WorkOk(g: seq<ClassConfig>, cells: Cells, t: int, w: Work)
  {
    && 0 <= w.k < |g| && Distinct(InHand(w))
    && match w
       case Insert(k, chain) => HeldBy(cells, t, k, chain)
       case Shrink(k, chain, victim, _) => 0 <= victim < |g| && |chain| == g[k].move && HeldBy(cells, t, k, chain)
       case Return(k, chain, _, _) => |chain| == g[k].move && HeldBy(cells, t, k, chain)
       case Release(k, todo, after) => HeldBy(cells, t, k, todo) && AfterOk(g, cells, t, after)
       case Delete(k, span, all, todo, after) =>
         HeldBy(cells, t, k, todo) && AfterOk(g, cells, t, after) && SpanInTransit(g, cells, t, k, span, all)
       case Remove(_, n) => n > 0
       case Populate(_, n) => n > 0
       case Populated(k, n, span, all) => n > 0 && (all != [] ==> SpanInTransit(g, cells, t, k, span, all))
  }

  /** The objects that go with a thread between the page heap and a class. */
  function WithSpanOf(th: Thread): seq<int>
  {
    if th.Idle? then [] else if th.work.Delete? || th.work.Populated? then th.work.all else []
  }

  ghost predicate ThreadOk(g: seq<ClassConfig>, cells: Cells, t: int, th: Thread)
  {
    && (!th.Idle? ==> WorkOk(g, cells, t, th.work))
    && (forall o {:trigger cells[o]} | o in cells && cells[o].place == InTransit(t) :: o in WithSpanOf(th))
  }

  /** The objects of a span move between the page heap and the lists together. */
  ghost predicate TransitTogether(cells: Cells)
  {
    forall o, x {:trigger cells[o], cells[x]} |
      o in cells && x in cells && cells[o].class_ == cells[x].class_ && cells[o].span == cells[x].span
        && cells[o].place.InTransit? ::
      cells[x].place == cells[o].place
  }

  /** A lock is held by the thread that runs under it, and only then. */
  ghost predicate LocksOk(threads: seq<Thread>, locks: map<int, int>)
  {
    && (forall l {:trigger locks[l]} | l in locks ::
          0 <= locks[l] < |threads| && threads[locks[l]].Running? && LockOf(threads[locks[l]].work) == l)
    && (forall t {:trigger threads[t]} | 0 <= t < |threads| && threads[t].Running? ::
          LockOf(threads[t].work) in locks && locks[LockOf(threads[t].work)] == t)
  }

  ghost predicate Inv(g: seq<ClassConfig>, sys: System)
  {
    && |g| == |sys.classes|
    && (forall k {:trigger sys.classes[k]} | 0 <= k < |sys.classes| :: ClassOk(k, g[k], sys.classes[k], sys.cells))
    && (forall t {:trigger sys.threads[t]} | 0 <= t < |sys.threads| :: ThreadOk(g, sys.cells, t, sys.threads[t]))
    && TransitTogether(sys.cells) && LocksOk(sys.threads, sys.locks)
  }

  lemma WorkIsOk(g: seq<ClassConfig>, sys: System, t: int)
    requires Inv(g, sys) && 0 <= t < |sys.threads| && !sys.threads[t].Idle?
    ensures |g| == |sys.classes| && ThreadOk(g, sys.cells, t, sys.threads[t])
    ensures WorkOk(g, sys.cells, t, sys.threads[t].work)
  {
    assert ThreadOk(g, sys.cells, t, sys.threads[t]);
  }

  lemma TogetherByInv(g: seq<ClassConfig>, sys: System)
    requires Inv(g, sys)
    ensures TransitTogether(sys.cells)
  {
  }

  // ---------- Frames ----------

  /** A place that is none of thread t's business. */
  predicate Foreign(p: Place, t: int)
  {
    (p.Held? || p.InTransit?) && p.thread != t
  }

  /** Thread t has changed the places of objects of class k that it may touch; objects
      come and go only in its own transit. */
  ghost predicate TouchedBy(k: int, t: int, cells: Cells, cells': Cells)
  {
    && (forall o {:trigger o in cells} {:trigger o in cells'} | o in cells && o in cells' ::
          || cells'[o] == cells[o]
          || (cells[o].class_ == k && cells'[o].class_ == k && cells'[o].span == cells[o].span
              && !Foreign(cells[o].place, t) && !Foreign(cells'[o].place, t)))
    && (forall o {:trigger o in cells'} | o in cells && o !in cells' ::
          cells[o].class_ == k && cells[o].place == InTransit(t))
    && (forall o {:trigger o in cells} | o in cells' && o !in cells ::
          cells'[o].class_ == k && cells'[o].place == InTransit(t))
  }

  lemma MovesTouch(k: int, t: int, cells: Cells, objs: seq<int>, p: Place)
    requires !Foreign(p, t)
    requires forall o {:trigger o in objs} | o in objs ::
               o in cells && cells[o].class_ == k && !Foreign(cells[o].place, t)
    ensures TouchedBy(k, t, cells, Moved(cells, objs, p))
  {
    var cells' := Moved(cells, objs, p);
    forall o | o in cells
      ensures cells'[o] == cells[o] || (o in objs && cells'[o] == cells[o].(place := p))
    {
    }
  }

  lemma OtherClassKept(k: int, t: int, j: int, g: ClassConfig, c: Central, cells: Cells, cells': Cells)
    requires ClassOk(j, g, c, cells) && j != k && TouchedBy(k, t, cells, cells')
    ensures ClassOk(j, g, c, cells')
  {
    hide ClassOk;
    ClassFrame(j, g, c, cells, cells');
  }

  lemma OtherHandsKept(k: int, t: int, u: int, j: int, cells: Cells, cells': Cells, objs: seq<int>)
    requires HeldBy(cells, u, j, objs) && u != t && TouchedBy(k, t, cells, cells')
    ensures HeldBy(cells', u, j, objs)
  {
  }

  lemma OtherThreadKept(k: int, t: int, u: int, g: seq<ClassConfig>, cells: Cells, cells': Cells, th: Thread)
    requires ThreadOk(g, cells, u, th) && u != t && TouchedBy(k, t, cells, cells')
    ensures ThreadOk(g, cells', u, th)
  {
    forall j, objs | HeldBy(cells, u, j, objs)
      ensures HeldBy(cells', u, j, objs)
    {
      OtherHandsKept(k, t, u, j, cells, cells', objs);
    }
    hide HeldBy;
  }

  /** Thread t goes on to th, keeping its lock or giving it back. */
  predicate LockStep(sys: System, t: int, th: Thread, locks: map<int, int>)
    requires 0 <= t < |sys.threads|
  {
    var now := sys.threads[t];
    && now.Running?
    && (|| (th.Running? && LockOf(th.work) == LockOf(now.work) && locks == sys.locks)
        || (!th.Running? && locks == sys.locks - {LockOf(now.work)}))
  }

  lemma LocksKept(sys: System, t: int, th: Thread, locks: map<int, int>)
    requires LocksOk(sys.threads, sys.locks) && 0 <= t < |sys.threads| && LockStep(sys, t, th, locks)
    ensures LocksOk(sys.threads[t := th], locks)
  {
    var l := LockOf(sys.threads[t].work);
    forall u | 0 <= u < |sys.threads| && u != t && sys.threads[u].Running?
      ensures LockOf(sys.threads[u].work) != l
    {
    }
  }

  /** What a step has to show: its own class, its own thread, and the frame. */
  lemma FrameKeepsInv(g: seq<ClassConfig>, sys: System, sys': System, t: int, k: int)
    requires Inv(g, sys) && 0 <= t < |sys.threads| && 0 <= k < |g|
    requires |sys'.classes| == |g| && sys'.classes == sys.classes[k := sys'.classes[k]]
    requires |sys'.threads| == |sys.threads| && sys'.threads == sys.threads[t := sys'.threads[t]]
    requires LocksOk(sys'.threads, sys'.locks)
    requires TouchedBy(k, t, sys.cells, sys'.cells) && TransitTogether(sys'.cells)
    requires ClassOk(k, g[k], sys'.classes[k], sys'.cells) && ThreadOk(g, sys'.cells, t, sys'.threads[t])
    ensures Inv(g, sys')
  {
    hide LocksOk;
    hide TransitTogether;
    forall j | 0 <= j < |g|
      ensures ClassOk(j, g[j], sys'.classes[j], sys'.cells)
    {
      if j != k {
        assert sys'.classes[j] == sys.classes[j];
        OtherClassKept(k, t, j, g[j], sys.classes[j], sys.cells, sys'.cells);
      }
    }
    forall u | 0 <= u < |sys.threads|
      ensures ThreadOk(g, sys'.cells, u, sys'.threads[u])
    {
      if u != t {
        assert sys'.threads[u] == sys.threads[u];
        OtherThreadKept(k, t, u, g, sys.cells, sys'.cells, sys.threads[u]);
      }
    }
    hide ClassOk;
    hide ThreadOk;
    hide TouchedBy;
  }

  lemma CacheBounds(k: int, g: ClassConfig, c: Central, cells: Cells)
    requires ClassOk(k, g, c, cells)
    ensures |c.slots| <= c.cacheSize <= c.maxCacheSize
  {
  }

  lemma SpanCells(k: int, g: ClassConfig, c: Central, cells: Cells, s: int)
    requires ClassOk(k, g, c, cells) && s in c.spans
    ensures Distinct(c.spans[s].all) && |c.spans[s].all| == g.total
    ensures forall o {:trigger o in c.spans[s].all} | o in c.spans[s].all ::
              o in cells && cells[o].class_ == k && cells[o].span == s
  {
    assert SpanOk(g.total, c.spans[s]);
  }

  /** What the invariant says of one thread and one class. */
  lemma InvAt(g: seq<ClassConfig>, sys: System, t: int, k: int)
    requires Inv(g, sys) && 0 <= t < |sys.threads| && 0 <= k < |g|
    ensures |sys.classes| == |g| && TransitTogether(sys.cells)
    ensures ThreadOk(g, sys.cells, t, sys.threads[t]) && ClassOk(k, g[k], sys.classes[k], sys.cells)
  {
    hide ClassOk;
    hide ThreadOk;
  }

  lemma StepKeepsInv(g: seq<ClassConfig>, sys: System, sys': System, t: int, k: int)
    requires Inv(g, sys) && 0 <= t < |sys.threads| && 0 <= k < |g|
    requires |sys'.classes| == |g| && sys'.classes == sys.classes[k := sys'.classes[k]]
    requires |sys'.threads| == |sys.threads| && sys'.threads == sys.threads[t := sys'.threads[t]]
    requires LockStep(sys, t, sys'.threads[t], sys'.locks)
    requires TouchedBy(k, t, sys.cells, sys'.cells) && TransitTogether(sys'.cells)
    requires ClassOk(k, g[k], sys'.classes[k], sys'.cells) && ThreadOk(g, sys'.cells, t, sys'.threads[t])
    ensures Inv(g, sys')
  {
    LocksKept(sys, t, sys'.threads[t], sys'.locks);
    hide Inv;
    hide LocksOk;
    hide TouchedBy;
    hide TransitTogether;
    hide ClassOk;
    hide ThreadOk;
    FrameKeepsInv(g, sys, sys', t, k);
  }

  // ---------- The steps, one by one ----------

  /** Which threads are where they may run, and what chance may bring. */
  ghost predicate CanRun(sys: System, t: int, h: Chance)
  {
    && 0 <= t < |sys.threads| && sys.threads[t].Running?
    && 0 <= h.victim < |sys.classes| && 0 <= h.victim2 < |sys.classes|
  }

  /** The page heap hands out pages that are in no use, one span of them, or nothing. */
  ghost predicate FreshSpan(g: seq<ClassConfig>, cells: Cells, k: int, h: Chance)
    requires 0 <= k < |g|
  {
    h.all != [] ==>
      && Distinct(h.all) && |h.all| == g[k].total
      && (forall o {:trigger o in h.all} | o in h.all :: o !in cells)
      && (forall o {:trigger cells[o]} | o in cells && cells[o].class_ == k :: cells[o].span != h.span)
  }

  lemma MovedInHandTogether(cells: Cells, objs: seq<int>, p: Place)
    requires TransitTogether(cells) && !p.InTransit?
    requires forall o {:trigger o in objs} | o in objs :: o in cells && !cells[o].place.InTransit?
    ensures TransitTogether(Moved(cells, objs, p))
  {
    var cells' := Moved(cells, objs, p);
    forall o, x | o in cells' && x in cells' && cells'[o].class_ == cells'[x].class_ && cells'[o].span == cells'[x].span
                  && cells'[o].place.InTransit?
      ensures cells'[x].place == cells'[o].place
    {
      assert cells[x].place == cells[o].place;
    }
  }

  lemma CacheChainKeepsInv(g: seq<ClassConfig>, sys: System, t: int, k: int, chain: seq<int>)
    requires Inv(g, sys) && 0 <= t < |sys.threads| && sys.threads[t].Running? && LockOf(sys.threads[t].work) == k
             && 0 <= k < |g|
    requires WithSpanOf(sys.threads[t]) == []
    requires HeldBy(sys.cells, t, k, chain) && Distinct(chain) && |chain| == g[k].move
    requires |sys.classes[k].slots| < sys.classes[k].cacheSize
    ensures Inv(g, CacheChain(sys, t, k, chain))
  {
    assert ThreadOk(g, sys.cells, t, sys.threads[t]);
    var c := sys.classes[k];
    assert ClassOk(k, g[k], c, sys.cells);
    PushSlotKeepsClass(k, g[k], c, sys.cells, chain);
    MovesTouch(k, t, sys.cells, chain, InSlot(|c.slots|));
    MovedInHandTogether(sys.cells, chain, InSlot(|c.slots|));
    StepKeepsInv(g, sys, CacheChain(sys, t, k, chain), t, k);
  }

  /** A step that changes neither the class nor the places. */
  lemma MoveOnKeepsInv(g: seq<ClassConfig>, sys: System, sys': System, t: int)
    requires Inv(g, sys) && 0 <= t < |sys.threads| && |g| > 0
    requires sys' == sys.(threads := sys'.threads, locks := sys'.locks)
    requires |sys'.threads| == |sys.threads| && sys'.threads == sys.threads[t := sys'.threads[t]]
    requires LockStep(sys, t, sys'.threads[t], sys'.locks) && ThreadOk(g, sys.cells, t, sys'.threads[t])
    ensures Inv(g, sys')
  {
    assert sys.classes[0 := sys.classes[0]] == sys.classes;
    assert ClassOk(0, g[0], sys.classes[0], sys.cells);
    StepKeepsInv(g, sys, sys', t, 0);
  }

  lemma TryEvictKeepsInv(g: seq<ClassConfig>, sys: System, t: int, k: int, chain: seq<int>, second: bool, h: Chance)
    requires Inv(g, sys) && CanRun(sys, t, h) && LockOf(sys.threads[t].work) == k && 0 <= k < |g|
    requires WithSpanOf(sys.threads[t]) == []
    requires HeldBy(sys.cells, t, k, chain) && Distinct(chain) && |chain| == g[k].move
    ensures Inv(g, TryEvict(sys, t, k, chain, second, h))
  {
    assert ThreadOk(g, sys.cells, t, sys.threads[t]);
    assert chain + [] == chain;
    MoveOnKeepsInv(g, sys, TryEvict(sys, t, k, chain, second, h), t);
  }

  /** Back to ReleaseListToSpans, under the same lock. */
  lemma GiveUpKeepsInv(g: seq<ClassConfig>, sys: System, t: int, k: int, chain: seq<int>)
    requires Inv(g, sys) && 0 <= t < |sys.threads| && sys.threads[t].Running? && LockOf(sys.threads[t].work) == k
             && 0 <= k < |g|
    requires WithSpanOf(sys.threads[t]) == []
    requires HeldBy(sys.cells, t, k, chain) && Distinct(chain)
    ensures Inv(g, Go(sys, t, Release(k, chain, InsertDone)))
  {
    assert ThreadOk(g, sys.cells, t, sys.threads[t]);
    assert chain + [] == chain;
    MoveOnKeepsInv(g, sys, Go(sys, t, Release(k, chain, InsertDone)), t);
  }

  lemma RunInsertKeepsInv(g: seq<ClassConfig>, sys: System, t: int, h: Chance)
    requires Inv(g, sys) && CanRun(sys, t, h) && sys.threads[t].work.Insert?
    ensures 0 <= sys.threads[t].work.k < |g|
    ensures Inv(g, RunInsert(g, sys, t, sys.threads[t].work, h))
  {
    var w := sys.threads[t].work;
    assert ThreadOk(g, sys.cells, t, sys.threads[t]);
    var c := sys.classes[w.k];
    assert |g| == |sys.classes| && 0 <= w.k < |g|;
    hide Inv;
    hide HeldBy;
    hide Moved;
    if |w.chain| == g[w.k].move && |c.slots| < c.cacheSize {
      CacheChainKeepsInv(g, sys, t, w.k, w.chain);
    } else if |w.chain| == g[w.k].move && c.cacheSize != c.maxCacheSize {
      TryEvictKeepsInv(g, sys, t, w.k, w.chain, false, h);
    } else {
      GiveUpKeepsInv(g, sys, t, w.k, w.chain);
    }
  }

  lemma RunShrinkKeepsInv(g: seq<ClassConfig>, sys: System, t: int, h: Chance)
    requires Inv(g, sys) && CanRun(sys, t, h) && sys.threads[t].work.Shrink?
    ensures 0 <= sys.threads[t].work.victim < |g|
    ensures Inv(g, RunShrink(sys, t, sys.threads[t].work))
  {
    hide Inv;
    hide TransitTogether;
    hide CellsMatch;
    hide ListsMatch;
    hide SumChains;
    hide HeldBy;
    hide Moved;
    var w := sys.threads[t].work;
    WorkIsOk(g, sys, t);
    var v := w.victim;
    var c := sys.classes[v];
    ClassIsOk(g, sys, v);
    var sys' := RunShrink(sys, t, w);
    if c.cacheSize == 0 || (|c.slots| == c.cacheSize && !w.force) {
      MoveOnKeepsInv(g, sys, sys', t);
    } else if |c.slots| == c.cacheSize {
      ShrinkForcedKeepsInv(g, sys, t);
    } else {
      ResizeKeepsClass(v, g[v], c, sys.cells, c.cacheSize - 1);
      TogetherByInv(g, sys);
      StepKeepsInv(g, sys, sys', t, v);
    }
  }

  lemma ShrinkForcedKeepsInv(g: seq<ClassConfig>, sys: System, t: int)
    requires Inv(g, sys) && 0 <= t < |sys.threads| && sys.threads[t].Running? && sys.threads[t].work.Shrink?
    requires 0 <= sys.threads[t].work.victim < |g| == |sys.classes| && sys.threads[t].work.force
    requires |sys.classes[sys.threads[t].work.victim].slots| == sys.classes[sys.threads[t].work.victim].cacheSize != 0
    ensures Inv(g, RunShrink(sys, t, sys.threads[t].work))
  {
    hide Inv;
    hide ClassOk;
    hide TouchedBy;
    hide TransitTogether;
    var w := sys.threads[t].work;
    InvAt(g, sys, t, w.victim);
    var v := w.victim;
    var c := sys.classes[v];
    PopSlotKeepsClass(v, g[v], c, sys.cells, Held(t));
    var todo := LastSlot(c);
    var cells' := Moved(sys.cells, todo, Held(t));
    CacheBounds(v, g[v], c, sys.cells);
    ResizeKeepsClass(v, g[v], WithoutSlot(c), cells', c.cacheSize - 1);
    MovesTouch(v, t, sys.cells, todo, Held(t));
    MovedInHandTogether(sys.cells, todo, Held(t));
    DistinctConcat(todo, w.chain);
    assert HeldBy(cells', t, w.k, w.chain);
    StepKeepsInv(g, sys, RunShrink(sys, t, w), t, v);
  }

  lemma RunReturnKeepsInv(g: seq<ClassConfig>, sys: System, t: int, h: Chance)
    requires Inv(g, sys) && CanRun(sys, t, h) && sys.threads[t].work.Return?
    ensures 0 <= sys.threads[t].work.k < |g|
    ensures Inv(g, RunReturn(sys, t, sys.threads[t].work, h))
  {
    hide Inv;
    hide HeldBy;
    hide Moved;
    hide ThreadOk;
    ReturnFacts(g, sys, t);
    var w := sys.threads[t].work;
    var c := sys.classes[w.k];
    if w.won && c.cacheSize < c.maxCacheSize {
      GrowKeepsInv(g, sys, t);
    } else if !w.won && !w.force {
      TryEvictKeepsInv(g, sys, t, w.k, w.chain, true, h);
    } else {
      GiveUpKeepsInv(g, sys, t, w.k, w.chain);
    }
  }

  lemma ReturnFacts(g: seq<ClassConfig>, sys: System, t: int)
    requires Inv(g, sys) && 0 <= t < |sys.threads| && sys.threads[t].Running? && sys.threads[t].work.Return?
    ensures var w := sys.threads[t].work;
            && 0 <= w.k < |g| == |sys.classes| && Distinct(w.chain) && |w.chain| == g[w.k].move
            && HeldBy(sys.cells, t, w.k, w.chain)
  {
    assert ThreadOk(g, sys.cells, t, sys.threads[t]);
  }

  /** After the lock has been away and back: growing makes the free slot that
      MakeCacheSpace promises. */
  lemma GrowKeepsInv(g: seq<ClassConfig>, sys: System, t: int)
    requires Inv(g, sys) && 0 <= t < |sys.threads| && sys.threads[t].Running? && sys.threads[t].work.Return?
    requires var w := sys.threads[t].work; 0 <= w.k < |g| && sys.classes[w.k].cacheSize < sys.classes[w.k].maxCacheSize
    ensures var w := sys.threads[t].work; var c := sys.classes[w.k];
            Inv(g, CacheChain(SetClass(sys, w.k, c.(cacheSize := c.cacheSize + 1), sys.cells), t, w.k, w.chain))
  {
    var w := sys.threads[t].work;
    assert ThreadOk(g, sys.cells, t, sys.threads[t]);
    var c := sys.classes[w.k];
    assert ClassOk(w.k, g[w.k], c, sys.cells);
    ResizeKeepsClass(w.k, g[w.k], c, sys.cells, c.cacheSize + 1);
    var sys1 := SetClass(sys, w.k, c.(cacheSize := c.cacheSize + 1), sys.cells);
    assert Inv(g, sys1);
    CacheChainKeepsInv(g, sys1, t, w.k, w.chain);
  }

  lemma ReleaseIsCallable(g: seq<ClassConfig>, sys: System, t: int)
    requires Inv(g, sys) && 0 <= t < |sys.threads| && sys.threads[t].Running? && sys.threads[t].work.Release?
    ensures var w := sys.threads[t].work;
            0 <= w.k < |g|
              && (w.todo != [] ==> w.todo[0] in sys.cells && sys.cells[w.todo[0]].span in sys.classes[w.k].spans)
    ensures var w := sys.threads[t].work;
            w.todo != [] ==> sys.cells[w.todo[0]].class_ == w.k && sys.cells[w.todo[0]].place == Held(t)
  {
    var w := sys.threads[t].work;
    assert ThreadOk(g, sys.cells, t, sys.threads[t]);
    if w.todo != [] {
      var o := w.todo[0];
      assert o in w.todo && HeldBy(sys.cells, t, w.k, w.todo);
      assert o in sys.cells && sys.cells[o].place == Held(t);
      assert ClassOk(w.k, g[w.k], sys.classes[w.k], sys.cells);
    }
  }

  /** What stays in hand when the first object has been released. */
  lemma RestInHand(g: seq<ClassConfig>, cells: Cells, cells': Cells, t: int, k: int, todo: seq<int>, after: After)
    requires todo != [] && Distinct(todo + HeldAfter(after)) && HeldBy(cells, t, k, todo) && AfterOk(g, cells, t, after)
    requires forall o {:trigger o in cells} | o in cells && cells[o].place == Held(t) && o != todo[0] ::
               o in cells' && cells'[o] == cells[o]
    ensures Distinct(todo[1..] + HeldAfter(after)) && HeldBy(cells', t, k, todo[1..]) && AfterOk(g, cells', t, after)
  {
    DistinctSplit(todo + HeldAfter(after), 1);
    assert (todo + HeldAfter(after))[1..] == todo[1..] + HeldAfter(after);
    assert (todo + HeldAfter(after))[..1] == [todo[0]];
    forall o | o in todo[1..] || o in HeldAfter(after)
      ensures o != todo[0]
    {
      assert o in todo[1..] + HeldAfter(after);
    }
    forall o | o in todo[1..]
      ensures o in todo
    {
    }
  }

  lemma RunReleaseKeepsInv(g: seq<ClassConfig>, sys: System, t: int)
    requires Inv(g, sys) && 0 <= t < |sys.threads| && sys.threads[t].Running? && sys.threads[t].work.Release?
    ensures var w := sys.threads[t].work;
            0 <= w.k < |g|
              && (w.todo != [] ==> w.todo[0] in sys.cells && sys.cells[w.todo[0]].span in sys.classes[w.k].spans)
    ensures Inv(g, RunRelease(g, sys, t, sys.threads[t].work))
  {
    ReleaseIsCallable(g, sys, t);
    var w := sys.threads[t].work;
    assert ThreadOk(g, sys.cells, t, sys.threads[t]);
    if w.todo == [] {
      assert [] + HeldAfter(w.after) == HeldAfter(w.after);
      MoveOnKeepsInv(g, sys, RunRelease(g, sys, t, w), t);
    } else if Dies(sys.classes[w.k], sys.cells[w.todo[0]].span) {
      SpanDiesKeepsInv(g, sys, t);
    } else {
      ObjectReturnsKeepsInv(g, sys, t);
    }
  }

  lemma ObjectReturnsKeepsInv(g: seq<ClassConfig>, sys: System, t: int)
    requires Inv(g, sys) && 0 <= t < |sys.threads| && sys.threads[t].Running? && sys.threads[t].work.Release?
    requires 0 <= sys.threads[t].work.k < |g| && sys.threads[t].work.todo != []
             && sys.threads[t].work.todo[0] in sys.cells
    requires sys.cells[sys.threads[t].work.todo[0]].span in sys.classes[sys.threads[t].work.k].spans
    requires !Dies(sys.classes[sys.threads[t].work.k], sys.cells[sys.threads[t].work.todo[0]].span)
    ensures Inv(g, RunRelease(g, sys, t, sys.threads[t].work))
  {
    hide Inv;
    hide ClassOk;
    hide TouchedBy;
    hide TransitTogether;
    hide Released;
    ReleaseIsCallable(g, sys, t);
    var w := sys.threads[t].work;
    InvAt(g, sys, t, w.k);
    var k, c, o := w.k, sys.classes[w.k], w.todo[0];
    ReleaseKeepsClass(k, g[k], c, sys.cells, o, t);
    var cells' := Moved(sys.cells, [o], InChain);
    MovesTouch(k, t, sys.cells, [o], InChain);
    MovedInHandTogether(sys.cells, [o], InChain);
    RestInHand(g, sys.cells, cells', t, k, w.todo, w.after);
    StepKeepsInv(g, sys, RunRelease(g, sys, t, w), t, k);
  }

  lemma SpanDiesKeepsInv(g: seq<ClassConfig>, sys: System, t: int)
    requires Inv(g, sys) && 0 <= t < |sys.threads| && sys.threads[t].Running? && sys.threads[t].work.Release?
    requires 0 <= sys.threads[t].work.k < |g| && sys.threads[t].work.todo != []
             && sys.threads[t].work.todo[0] in sys.cells
    requires sys.cells[sys.threads[t].work.todo[0]].span in sys.classes[sys.threads[t].work.k].spans
    requires Dies(sys.classes[sys.threads[t].work.k], sys.cells[sys.threads[t].work.todo[0]].span)
    ensures Inv(g, RunRelease(g, sys, t, sys.threads[t].work))
  {
    hide Inv;
    hide ClassOk;
    hide TouchedBy;
    hide TransitTogether;
    hide Released;
    ReleaseIsCallable(g, sys, t);
    var w := sys.threads[t].work;
    InvAt(g, sys, t, w.k);
    var k, c, o := w.k, sys.classes[w.k], w.todo[0];
    var s := sys.cells[o].span;
    var all := c.spans[s].all;
    ReleaseKeepsClass(k, g[k], c, sys.cells, o, t);
    SpanCells(k, g[k], c, sys.cells, s);
    var cells' := Moved(sys.cells, all, InTransit(t));
    MovesTouch(k, t, sys.cells, all, InTransit(t));
    forall x | x in all
      ensures x in cells' && cells'[x] == Cell(k, s, InTransit(t))
    {
      assert x in c.spans[s].all;
    }
    assert SpanInTransit(g, cells', t, k, s, all);
    WholeSpanTogether(k, g[k], c, sys.cells, s, t);
    RestInHand(g, sys.cells, cells', t, k, w.todo, w.after);
    StepKeepsInv(g, sys, RunRelease(g, sys, t, w), t, k);
  }

  /** A live span goes into transit as a whole. */
  lemma WholeSpanTogether(k: int, g: ClassConfig, c: Central, cells: Cells, s: int, t: int)
    requires ClassOk(k, g, c, cells) && s in c.spans && TransitTogether(cells)
    requires forall x {:trigger x in c.spans[s].all} | x in c.spans[s].all :: x in cells && !cells[x].place.InTransit?
    ensures TransitTogether(Moved(cells, c.spans[s].all, InTransit(t)))
  {
    var all := c.spans[s].all;
    var cells' := Moved(cells, all, InTransit(t));
    assert SpanOk(g.total, c.spans[s]) && |all| > 0;
    var first := all[0];
    assert first in c.spans[s].all && first in cells;
    forall o | o in cells && cells[o].class_ == k && cells[o].span == s
      ensures o in all
    {
      assert cells[first] == cells[first] && cells[o] == cells[o];
    }
    forall o, x | o in cells' && x in cells' && cells'[o].class_ == cells'[x].class_ && cells'[o].span == cells'[x].span
                  && cells'[o].place.InTransit?
      ensures cells'[x].place == cells'[o].place
    {
      assert o in all ==> cells[o].class_ == k && cells[o].span == s;
      assert x in all ==> cells[x].class_ == k && cells[x].span == s;
      assert o !in all ==> cells[x].place == cells[o].place;
    }
  }

  lemma RunDeleteKeepsInv(g: seq<ClassConfig>, sys: System, t: int)
    requires Inv(g, sys) && 0 <= t < |sys.threads| && sys.threads[t].Running? && sys.threads[t].work.Delete?
    ensures Inv(g, RunDelete(sys, t, sys.threads[t].work))
  {
    var w := sys.threads[t].work;
    var k := w.k;
    assert ThreadOk(g, sys.cells, t, sys.threads[t]);
    var cells' := WithoutCells(sys.cells, w.all);
    assert ClassOk(k, g[k], sys.classes[k], sys.cells);
    DeletedKeepsClass(k, g[k], sys.classes[k], sys.cells, w.all);
    assert TouchedBy(k, t, sys.cells, cells');
    forall j, objs | HeldBy(sys.cells, t, j, objs)
      ensures HeldBy(cells', t, j, objs)
    {
    }
    assert TransitTogether(cells');
    assert sys.classes[k := sys.classes[k]] == sys.classes;
    hide ClassOk;
    hide HeldBy;
    StepKeepsInv(g, sys, RunDelete(sys, t, w), t, k);
  }

  /** Objects in transit are nobody's but the page heap's. */
  lemma DeletedKeepsClass(k: int, g: ClassConfig, c: Central, cells: Cells, all: seq<int>)
    requires ClassOk(k, g, c, cells) && TransitTogether(cells)
    requires forall o {:trigger o in all} | o in all :: o in cells && cells[o].place.InTransit?
    ensures ClassOk(k, g, c, WithoutCells(cells, all))
  {
    var cells' := WithoutCells(cells, all);
    forall s, o | s in c.spans && o in c.spans[s].all
      ensures o in cells'
    {
      assert o in cells && !cells[o].place.InTransit?;
    }
    forall s, o | s in c.spans && o in c.spans[s].objects
      ensures o in cells'
    {
      assert o in cells && cells[o].place == InChain;
    }
    forall i, o | 0 <= i < |c.slots| && o in c.slots[i]
      ensures o in cells'
    {
      assert o in cells && cells[o].place == InSlot(i);
    }
    hide CentralOk;
  }

  /** The end of RemoveRange: what has been taken off chains or from a slot is out. */
  lemma DeliverKeepsInv(g: seq<ClassConfig>, sys: System, t: int, k: int, c: Central, objs: seq<int>)
    requires Inv(g, sys) && 0 <= t < |sys.threads| && sys.threads[t].Running? && LockOf(sys.threads[t].work) == k
             && 0 <= k < |g|
    requires WithSpanOf(sys.threads[t]) == []
    requires forall o {:trigger o in objs} | o in objs ::
               o in sys.cells && sys.cells[o].class_ == k && (sys.cells[o].place.InChain? || sys.cells[o].place.InSlot?)
    requires ClassOk(k, g[k], c, Moved(sys.cells, objs, Out))
    ensures Inv(g, Deliver(sys, t, k, c, objs))
  {
    assert ThreadOk(g, sys.cells, t, sys.threads[t]);
    MovesTouch(k, t, sys.cells, objs, Out);
    MovedInHandTogether(sys.cells, objs, Out);
    hide ClassOk;
    StepKeepsInv(g, sys, Deliver(sys, t, k, c, objs), t, k);
  }

  lemma RunRemoveKeepsInv(g: seq<ClassConfig>, sys: System, t: int)
    requires Inv(g, sys) && 0 <= t < |sys.threads| && sys.threads[t].Running? && sys.threads[t].work.Remove?
    ensures 0 <= sys.threads[t].work.k < |g| && ListsMatch(sys.classes[sys.threads[t].work.k])
    ensures Inv(g, RunRemove(g, sys, t, sys.threads[t].work))
  {
    hide Inv;
    hide ClassOk;
    hide ListsMatch;
    hide HeldBy;
    hide Distinct;
    hide FetchMore;
    var w := sys.threads[t].work;
    WorkIsOk(g, sys, t);
    ClassIsOk(g, sys, w.k);
    var k, c := w.k, sys.classes[w.k];
    if w.n == g[k].move && c.slots != [] {
      PopSlotKeepsClass(k, g[k], c, sys.cells, Out);
      DeliverKeepsInv(g, sys, t, k, WithoutSlot(c), LastSlot(c));
    } else if c.nonempty != [] {
      FetchMoreKeepsClass(k, g[k], c, sys.cells, w.n, []);
      var r := FetchMore(c, w.n, []);
      DeliverKeepsInv(g, sys, t, k, r.0, r.1);
    } else {
      MoveOnKeepsInv(g, sys, RunRemove(g, sys, t, w), t);
    }
  }

  lemma RunPopulateKeepsInv(g: seq<ClassConfig>, sys: System, t: int, h: Chance)
    requires Inv(g, sys) && 0 <= t < |sys.threads| && sys.threads[t].Running? && sys.threads[t].work.Populate?
    requires 0 <= sys.threads[t].work.k < |g| && FreshSpan(g, sys.cells, sys.threads[t].work.k, h)
    ensures Inv(g, RunPopulate(sys, t, sys.threads[t].work, h))
  {
    var w := sys.threads[t].work;
    var k := w.k;
    assert ThreadOk(g, sys.cells, t, sys.threads[t]);
    assert ClassOk(k, g[k], sys.classes[k], sys.cells);
    var cells' := WithCells(sys.cells, h.all, Cell(k, h.span, InTransit(t)));
    NewCellsKeepClass(k, g[k], sys.classes[k], sys.cells, h.all, Cell(k, h.span, InTransit(t)));
    assert TouchedBy(k, t, sys.cells, cells');
    NewCellsTogether(k, sys.cells, h, t);
    assert sys.classes[k := sys.classes[k]] == sys.classes;
    hide ClassOk;
    hide TransitTogether;
    StepKeepsInv(g, sys, RunPopulate(sys, t, w, h), t, k);
  }

  lemma NewCellsTogether(k: int, cells: Cells, h: Chance, t: int)
    requires TransitTogether(cells)
    requires forall o {:trigger cells[o]} | h.all != [] && o in cells && cells[o].class_ == k :: cells[o].span != h.span
    ensures TransitTogether(WithCells(cells, h.all, Cell(k, h.span, InTransit(t))))
  {
    var cells' := WithCells(cells, h.all, Cell(k, h.span, InTransit(t)));
    forall o, x | o in cells' && x in cells' && cells'[o].class_ == cells'[x].class_ && cells'[o].span == cells'[x].span
                  && cells'[o].place.InTransit?
      ensures cells'[x].place == cells'[o].place
    {
      assert o !in h.all && x !in h.all ==> cells[x].place == cells[o].place;
    }
  }

  lemma TransitIsNotLive(k: int, g: ClassConfig, c: Central, cells: Cells, o: int)
    requires ClassOk(k, g, c, cells) && TransitTogether(cells)
    requires o in cells && cells[o].class_ == k && cells[o].place.InTransit?
    ensures cells[o].span !in c.spans
  {
    forall s | s in c.spans
      ensures s != cells[o].span
    {
      assert SpanOk(g.total, c.spans[s]);
      var x := c.spans[s].all[0];
      assert x in c.spans[s].all;
      assert cells[x].span == s && !cells[x].place.InTransit?;
    }
  }

  lemma ArrivalKeepsInv(g: seq<ClassConfig>, sys: System, t: int)
    requires Inv(g, sys) && 0 <= t < |sys.threads| && sys.threads[t].Running? && sys.threads[t].work.Populated?
    ensures 0 <= sys.threads[t].work.k < |g| && sys.threads[t].work.n > 0
    ensures Inv(g, Arrived(sys, t, sys.threads[t].work))
  {
    var w := sys.threads[t].work;
    assert ThreadOk(g, sys.cells, t, sys.threads[t]);
    var k, c := w.k, sys.classes[w.k];
    assert ClassOk(k, g[k], c, sys.cells);
    if w.all != [] {
      var o := w.all[0];
      assert o in w.all;
      TransitIsNotLive(k, g[k], c, sys.cells, o);
      NewSpanKeepsClass(k, g[k], c, sys.cells, w.span, w.all);
      MovesTouch(k, t, sys.cells, w.all, InChain);
      ArrivalTogether(g, sys.cells, t, k, w.span, w.all);
    }
    hide ClassOk;
    hide TransitTogether;
    StepKeepsInv(g, sys, Arrived(sys, t, w), t, k);
  }

  lemma ClassIsOk(g: seq<ClassConfig>, sys: System, k: int)
    requires Inv(g, sys) && 0 <= k < |g|
    ensures |sys.classes| == |g| && ClassOk(k, g[k], sys.classes[k], sys.cells) && ListsMatch(sys.classes[k])
  {
  }

  lemma RunPopulatedKeepsInv(g: seq<ClassConfig>, sys: System, t: int)
    requires Inv(g, sys) && 0 <= t < |sys.threads| && sys.threads[t].Running? && sys.threads[t].work.Populated?
    ensures 0 <= sys.threads[t].work.k < |g| == |sys.classes|
    ensures ListsMatch(Joined(sys.classes[sys.threads[t].work.k], sys.threads[t].work.span, sys.threads[t].work.all))
    ensures Inv(g, RunPopulated(sys, t, sys.threads[t].work))
  {
    var w := sys.threads[t].work;
    var k := w.k;
    ArrivalKeepsInv(g, sys, t);
    assert |g| == |sys.classes|;
    hide Inv;
    var sys1 := Arrived(sys, t, w);
    ClassIsOk(g, sys1, k);
    FetchMoreKeepsClass(k, g[k], sys1.classes[k], sys1.cells, w.n, []);
    var r := FetchMore(sys1.classes[k], w.n, []);
    hide FetchMore;
    hide ClassOk;
    DeliverKeepsInv(g, sys1, t, k, r.0, r.1);
  }

  /** A span leaves its transit as a whole. */
  lemma ArrivalTogether(g: seq<ClassConfig>, cells: Cells, t: int, k: int, span: int, all: seq<int>)
    requires TransitTogether(cells) && 0 <= k < |g|
    requires forall o {:trigger o in all} | o in all :: o in cells && cells[o] == Cell(k, span, InTransit(t))
    requires all != [] && forall o {:trigger cells[o]} | o in cells && cells[o].place == InTransit(t) :: o in all
    ensures TransitTogether(Moved(cells, all, InChain))
  {
    var cells' := Moved(cells, all, InChain);
    var first := all[0];
    assert first in all;
    forall o | o in cells && cells[o].class_ == k && cells[o].span == span
      ensures o in all
    {
      assert cells[first].place == InTransit(t) && cells[o] == cells[o];
    }
    forall o, x | o in cells' && x in cells' && cells'[o].class_ == cells'[x].class_ && cells'[o].span == cells'[x].span
                  && cells'[o].place.InTransit?
      ensures cells'[x].place == cells'[o].place
    {
      assert o !in all && cells[x].place == cells[o].place;
    }
  }
}
