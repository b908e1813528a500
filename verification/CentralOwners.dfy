/** Where every object is, over any run: what a thread holds is what its work says it has
    in hand, so that nothing is lost, and once nobody is at work every object is free,
    cached, or the program's. */
module CentralOwners {
  import opened CentralLists
  import opened CentralRuns
  import opened CentralSystems
  import opened Lists

  function Hands(th: Thread): seq<int>
  {
    if th.Idle? then [] else InHand(th.work)
  }

  predicate WithThread(p: Place)
  {
    p.Held? || p.InTransit?
  }

  /** The object is where its place says: in the hands of the thread, or of the span that
      goes with it. */
  predicate Carries(th: Thread, p: Place, o: int)
  {
    if p.Held? then o in Hands(th) else o in WithSpanOf(th)
  }

  /** Each object that is with a thread is in its hands, or of the span that goes with it. */
  ghost predicate HandsOk(threads: seq<Thread>, cells: Cells)
  {
    forall o {:trigger cells[o]} | o in cells && WithThread(cells[o].place) ::
      0 <= cells[o].place.thread < |threads| && Carries(threads[cells[o].place.thread], cells[o].place, o)
  }

  /** What is with thread t afterwards it carries; what is with others was so before. */
  ghost predicate HandsMove(t: int, th: Thread, cells: Cells, cells': Cells)
  {
    forall o {:trigger cells'[o]} | o in cells' && WithThread(cells'[o].place) ::
      if cells'[o].place.thread == t then Carries(th, cells'[o].place, o)
      else o in cells && cells[o].place == cells'[o].place
  }

  lemma HandsMoved(threads: seq<Thread>, t: int, th: Thread, cells: Cells, cells': Cells)
    requires HandsOk(threads, cells) && 0 <= t < |threads| && HandsMove(t, th, cells, cells')
    ensures HandsOk(threads[t := th], cells')
  {
    hide Carries;
  }

  /** Objects moved to a place with nobody, or with thread t. */
  lemma MoveHands(threads: seq<Thread>, t: int, th: Thread, cells: Cells, objs: seq<int>, p: Place)
    requires HandsOk(threads, cells) && 0 <= t < |threads| && (WithThread(p) ==> p.thread == t)
    requires forall o {:trigger o in Hands(th)} | o in Hands(threads[t]) :: o in Hands(th) || o in objs
    requires forall o {:trigger o in WithSpanOf(th)} | o in WithSpanOf(threads[t]) :: o in WithSpanOf(th) || o in objs
    requires WithThread(p) ==> forall o {:trigger o in objs} | o in objs :: Carries(th, p, o)
    ensures HandsOk(threads[t := th], Moved(cells, objs, p))
  {
    hide Hands;
    hide WithSpanOf;
    var cells' := Moved(cells, objs, p);
    forall o | o in cells' && WithThread(cells'[o].place)
      ensures if cells'[o].place.thread == t then Carries(th, cells'[o].place, o)
              else o in cells && cells[o].place == cells'[o].place
    {
    }
    HandsMoved(threads, t, th, cells, cells');
  }

  lemma KeepHands(threads: seq<Thread>, t: int, th: Thread, cells: Cells)
    requires HandsOk(threads, cells) && 0 <= t < |threads|
    requires forall o {:trigger o in Hands(th)} | o in Hands(threads[t]) :: o in Hands(th)
    requires forall o {:trigger o in WithSpanOf(th)} | o in WithSpanOf(threads[t]) :: o in WithSpanOf(th)
    ensures HandsOk(threads[t := th], cells)
  {
    hide Hands;
    hide WithSpanOf;
    HandsMoved(threads, t, th, cells, cells);
  }

  // ---------- Section by section ----------

  lemma TryEvictKeepsHands(sys: System, t: int, k: int, chain: seq<int>, second: bool, h: Chance)
    requires HandsOk(sys.threads, sys.cells) && 0 <= t < |sys.threads|
    requires forall o {:trigger o in chain} | o in Hands(sys.threads[t]) :: o in chain
    requires WithSpanOf(sys.threads[t]) == []
    ensures var sys' := TryEvict(sys, t, k, chain, second, h); HandsOk(sys'.threads, sys'.cells)
  {
    var th := TryEvict(sys, t, k, chain, second, h).threads[t];
    assert chain + [] == chain;
    KeepHands(sys.threads, t, th, sys.cells);
  }

  lemma CacheKeepsHands(sys: System, t: int, k: int, chain: seq<int>)
    requires HandsOk(sys.threads, sys.cells) && 0 <= t < |sys.threads| && 0 <= k < |sys.classes|
    requires forall o {:trigger o in chain} | o in Hands(sys.threads[t]) :: o in chain
    requires WithSpanOf(sys.threads[t]) == []
    ensures var sys' := CacheChain(sys, t, k, chain); HandsOk(sys'.threads, sys'.cells)
  {
    hide Moved;
    MoveHands(sys.threads, t, Idle, sys.cells, chain, InSlot(|sys.classes[k].slots|));
  }

  lemma InsertKeepsHands(g: seq<ClassConfig>, sys: System, t: int, h: Chance)
    requires Inv(g, sys) && CanRun(sys, t, h) && HandsOk(sys.threads, sys.cells)
    requires sys.threads[t].work.Insert? || sys.threads[t].work.Return?
    ensures var sys' := RunSection(g, sys, t, h); HandsOk(sys'.threads, sys'.cells)
  {
    hide Inv;
    hide HandsOk;
    hide TryEvict;
    hide CacheChain;
    WorkIsOk(g, sys, t);
    hide WorkOk;
    var w := sys.threads[t].work;
    assert w.chain + [] == w.chain;
    TryEvictKeepsHands(sys, t, w.k, w.chain, w.Return?, h);
    KeepHands(sys.threads, t, Running(Release(w.k, w.chain, InsertDone)), sys.cells);
    CacheKeepsHands(sys, t, w.k, w.chain);
    if w.Return? {
      CacheKeepsHands(SetClass(sys, w.k, sys.classes[w.k].(cacheSize := sys.classes[w.k].cacheSize + 1), sys.cells),
                      t, w.k, w.chain);
    }
  }

  lemma ShrinkKeepsHands(g: seq<ClassConfig>, sys: System, t: int, h: Chance)
    requires Inv(g, sys) && CanRun(sys, t, h) && HandsOk(sys.threads, sys.cells) && sys.threads[t].work.Shrink?
    ensures var sys' := RunSection(g, sys, t, h); HandsOk(sys'.threads, sys'.cells)
  {
    hide Inv;
    hide HandsOk;
    hide Moved;
    WorkIsOk(g, sys, t);
    hide WorkOk;
    var w := sys.threads[t].work;
    var c := sys.classes[w.victim];
    KeepHands(sys.threads, t, Waiting(Return(w.k, w.chain, w.force, false)), sys.cells);
    KeepHands(sys.threads, t, Waiting(Return(w.k, w.chain, w.force, true)), sys.cells);
    if |c.slots| == c.cacheSize && c.cacheSize != 0 {
      MoveHands(sys.threads, t, Running(Release(w.victim, LastSlot(c), Evicted(w.k, w.chain))), sys.cells,
                LastSlot(c), Held(t));
    }
  }

  lemma ReleaseKeepsHands(g: seq<ClassConfig>, sys: System, t: int, h: Chance)
    requires Inv(g, sys) && CanRun(sys, t, h) && HandsOk(sys.threads, sys.cells) && sys.threads[t].work.Release?
    ensures var sys' := RunSection(g, sys, t, h); HandsOk(sys'.threads, sys'.cells)
  {
    hide Inv;
    hide HandsOk;
    hide Moved;
    RunReleaseKeepsInv(g, sys, t);
    WorkIsOk(g, sys, t);
    hide WorkOk;
    var w := sys.threads[t].work;
    if w.todo == [] {
      assert [] + HeldAfter(w.after) == HeldAfter(w.after);
      KeepHands(sys.threads, t,
                if w.after.InsertDone? then Idle else Waiting(Return(w.after.k, w.after.chain, true, true)),
                sys.cells);
    } else {
      var c, o, rest := sys.classes[w.k], w.todo[0], w.todo[1..];
      var s := sys.cells[o].span;
      assert w.todo == [o] + rest;
      if Dies(c, s) {
        OwnSpan(g, sys, t);
        MoveHands(sys.threads, t, Waiting(Delete(w.k, s, c.spans[s].all, rest, w.after)), sys.cells, c.spans[s].all,
                  InTransit(t));
      } else {
        MoveHands(sys.threads, t, Running(Release(w.k, rest, w.after)), sys.cells, [o], InChain);
      }
    }
  }

  lemma OwnSpan(g: seq<ClassConfig>, sys: System, t: int)
    requires Inv(g, sys) && 0 <= t < |sys.threads| && sys.threads[t].Running? && sys.threads[t].work.Release?
    requires sys.threads[t].work.todo != []
    ensures var w := sys.threads[t].work; var o := w.todo[0];
            && o in sys.cells && 0 <= w.k < |sys.classes| && sys.cells[o].span in sys.classes[w.k].spans
            && o in sys.classes[w.k].spans[sys.cells[o].span].all
  {
    var w := sys.threads[t].work;
    assert ThreadOk(g, sys.cells, t, sys.threads[t]);
    assert w.todo[0] in w.todo;
    ClassIsOk(g, sys, w.k);
  }

  lemma DeleteKeepsHands(g: seq<ClassConfig>, sys: System, t: int, h: Chance)
    requires Inv(g, sys) && CanRun(sys, t, h) && HandsOk(sys.threads, sys.cells) && sys.threads[t].work.Delete?
    ensures var sys' := RunSection(g, sys, t, h); HandsOk(sys'.threads, sys'.cells)
  {
    hide Inv;
    var w := sys.threads[t].work;
    HandsMoved(sys.threads, t, Waiting(Release(w.k, w.todo, w.after)), sys.cells, WithoutCells(sys.cells, w.all));
  }

  lemma PopulateKeepsHands(g: seq<ClassConfig>, sys: System, t: int, h: Chance)
    requires Inv(g, sys) && Enabled(g, sys, t, Run(h)) && HandsOk(sys.threads, sys.cells)
    requires sys.threads[t].work.Populate?
    ensures var sys' := RunSection(g, sys, t, h); HandsOk(sys'.threads, sys'.cells)
  {
    hide Inv;
    var w := sys.threads[t].work;
    HandsMoved(sys.threads, t, Waiting(Populated(w.k, w.n, h.span, h.all)), sys.cells,
               WithCells(sys.cells, h.all, Cell(w.k, h.span, InTransit(t))));
  }

  lemma RemoveKeepsHands(g: seq<ClassConfig>, sys: System, t: int, h: Chance)
    requires Inv(g, sys) && CanRun(sys, t, h) && HandsOk(sys.threads, sys.cells)
    requires sys.threads[t].work.Remove? || sys.threads[t].work.Populated?
    ensures var sys' := RunSection(g, sys, t, h); HandsOk(sys'.threads, sys'.cells)
  {
    hide Inv;
    hide HandsOk;
    hide Moved;
    hide FetchMore;
    var w := sys.threads[t].work;
    WorkIsOk(g, sys, t);
    hide WorkOk;
    if w.Remove? {
      RunRemoveKeepsInv(g, sys, t);
      var c := sys.classes[w.k];
      if w.n == g[w.k].move && c.slots != [] {
        MoveHands(sys.threads, t, Idle, sys.cells, LastSlot(c), Out);
      }
      MoveHands(sys.threads, t, Idle, sys.cells, FetchMore(c, w.n, []).1, Out);
      KeepHands(sys.threads, t, Waiting(Populate(w.k, w.n)), sys.cells);
    } else {
      RunPopulatedKeepsInv(g, sys, t);
      var c := Joined(sys.classes[w.k], w.span, w.all);
      if w.all == [] {
        KeepHands(sys.threads, t, Running(Remove(w.k, w.n)), sys.cells);
      } else {
        MoveHands(sys.threads, t, Running(Remove(w.k, w.n)), sys.cells, w.all, InChain);
      }
      var sys1 := Arrived(sys, t, w);
      MoveHands(sys1.threads, t, Idle, sys1.cells, FetchMore(c, w.n, []).1, Out);
    }
  }

  lemma NextKeepsHands(g: seq<ClassConfig>, sys: System, t: int, e: Event)
    requires Inv(g, sys) && Enabled(g, sys, t, e) && HandsOk(sys.threads, sys.cells)
    ensures var sys' := Next(g, sys, t, e); HandsOk(sys'.threads, sys'.cells)
  {
    hide Inv;
    hide HandsOk;
    hide RunSection;
    match e
    case StartInsert(k, chain) => MoveHands(sys.threads, t, Waiting(Insert(k, chain)), sys.cells, chain, Held(t));
    case StartRemove(k, n) => KeepHands(sys.threads, t, Waiting(Remove(k, n)), sys.cells);
    case Acquire => KeepHands(sys.threads, t, Running(sys.threads[t].work), sys.cells);
    case Run(h) =>
      match sys.threads[t].work
      case Insert(_, _) => InsertKeepsHands(g, sys, t, h);
      case Shrink(_, _, _, _) => ShrinkKeepsHands(g, sys, t, h);
      case Return(_, _, _, _) => InsertKeepsHands(g, sys, t, h);
      case Release(_, _, _) => ReleaseKeepsHands(g, sys, t, h);
      case Delete(_, _, _, _, _) => DeleteKeepsHands(g, sys, t, h);
      case Remove(_, _) => RemoveKeepsHands(g, sys, t, h);
      case Populate(_, _) => PopulateKeepsHands(g, sys, t, h);
      case Populated(_, _, _, _) => RemoveKeepsHands(g, sys, t, h);
  }

  // ---------- Theorems ----------

  lemma {:induction false} RunKeepsHands(g: seq<ClassConfig>, sys: System, run: seq<(int, Event)>)
    requires Inv(g, sys) && ValidRun(g, sys, run) && HandsOk(sys.threads, sys.cells)
    ensures var sys' := AfterRun(g, sys, run); Inv(g, sys') && HandsOk(sys'.threads, sys'.cells)
    decreases run
  {
    hide Inv;
    hide HandsOk;
    if run != [] {
      NextKeepsInv(g, sys, run[0].0, run[0].1);
      NextKeepsHands(g, sys, run[0].0, run[0].1);
      RunKeepsHands(g, Next(g, sys, run[0].0, run[0].1), run[1..]);
    }
  }

  /** Nothing is lost: whatever the run from the start, what is held is in someone's hands,
      and when all threads are done, every object is on the chain of its span, in a slot, or
      the program's. */
  lemma NothingIsLost(g: seq<ClassConfig>, sys: System, entries: int, start: int, bytes: seq<int>,
                      run: seq<(int, Event)>)
    requires Initial(g, sys, entries, start, bytes) && Inv(g, sys) && ValidRun(g, sys, run)
    ensures var sys' := AfterRun(g, sys, run);
            && HandsOk(sys'.threads, sys'.cells)
            && ((forall t | 0 <= t < |sys'.threads| :: sys'.threads[t].Idle?) ==>
                  forall o {:trigger sys'.cells[o]} | o in sys'.cells ::
                    sys'.cells[o].place.InChain? || sys'.cells[o].place.InSlot? || sys'.cells[o].place.Out?)
  {
    hide Initial;
    StartsEmpty(g, sys, entries, start, bytes);
    RunKeepsHands(g, sys, run);
    Settled(g, AfterRun(g, sys, run));
    hide Inv;
    hide HandsOk;
  }

  lemma StartsEmpty(g: seq<ClassConfig>, sys: System, entries: int, start: int, bytes: seq<int>)
    requires Initial(g, sys, entries, start, bytes)
    ensures HandsOk(sys.threads, sys.cells)
  {
  }

  lemma Settled(g: seq<ClassConfig>, sys: System)
    requires Inv(g, sys) && HandsOk(sys.threads, sys.cells)
    ensures (forall t | 0 <= t < |sys.threads| :: sys.threads[t].Idle?) ==>
              forall o {:trigger sys.cells[o]} | o in sys.cells ::
                sys.cells[o].place.InChain? || sys.cells[o].place.InSlot? || sys.cells[o].place.Out?
  {
  }
}
