/** Runs of the central free lists: any number of threads, any interleaving. */
module CentralRuns {
  import opened Arithmetic
  import opened CentralLists
  import opened CentralSystems
  import opened Lists

  ghost predicate Enabled(g: seq<ClassConfig>, sys: System, t: int, e: Event)
  {
    && 0 <= t < |sys.threads| && |g| == |sys.classes|
    && match e
       case StartInsert(k, chain) =>
         sys.threads[t].Idle? && 0 <= k < |g| && Distinct(chain)
         && forall o {:trigger o in chain} | o in chain ::
              o in sys.cells && sys.cells[o].class_ == k && sys.cells[o].place == Out
       case StartRemove(k, n) => sys.threads[t].Idle? && 0 <= k < |g| && n > 0
       case Acquire => sys.threads[t].Waiting? && LockOf(sys.threads[t].work) !in sys.locks
       case Run(h) =>
         CanRun(sys, t, h)
         && (sys.threads[t].work.Populate?
             ==> 0 <= sys.threads[t].work.k < |g| && FreshSpan(g, sys.cells, sys.threads[t].work.k, h))
  }

  ghost function RunSection(g: seq<ClassConfig>, sys: System, t: int, h: Chance): System
    requires Inv(g, sys) && CanRun(sys, t, h)
  {
    var w := sys.threads[t].work;
    match w
    case Insert(_, _) => RunInsertKeepsInv(g, sys, t, h); RunInsert(g, sys, t, w, h)
    case Shrink(_, _, _, _) => RunShrinkKeepsInv(g, sys, t, h); RunShrink(sys, t, w)
    case Return(_, _, _, _) => RunReturnKeepsInv(g, sys, t, h); RunReturn(sys, t, w, h)
    case Release(_, _, _) => RunReleaseKeepsInv(g, sys, t); RunRelease(g, sys, t, w)
    case Delete(_, _, _, _, _) => RunDelete(sys, t, w)
    case Remove(_, _) => RunRemoveKeepsInv(g, sys, t); RunRemove(g, sys, t, w)
    case Populate(_, _) => RunPopulate(sys, t, w, h)
    case Populated(_, _, _, _) => RunPopulatedKeepsInv(g, sys, t); RunPopulated(sys, t, w)
  }

  ghost function Next(g: seq<ClassConfig>, sys: System, t: int, e: Event): System
    requires Inv(g, sys) && Enabled(g, sys, t, e)
  {
    match e
    case StartInsert(k, chain) =>
      sys.(threads := sys.threads[t := Waiting(Insert(k, chain))], cells := Moved(sys.cells, chain, Held(t)))
    case StartRemove(k, n) => sys.(threads := sys.threads[t := Waiting(Remove(k, n))])
    case Acquire =>
      var w := sys.threads[t].work;
      sys.(threads := sys.threads[t := Running(w)], locks := sys.locks[LockOf(w) := t])
    case Run(h) => RunSection(g, sys, t, h)
  }

  lemma StartInsertKeepsInv(g: seq<ClassConfig>, sys: System, t: int, k: int, chain: seq<int>)
    requires Inv(g, sys) && Enabled(g, sys, t, StartInsert(k, chain))
    ensures Inv(g, Next(g, sys, t, StartInsert(k, chain)))
  {
    var sys' := Next(g, sys, t, StartInsert(k, chain));
    assert ThreadOk(g, sys.cells, t, sys.threads[t]);
    assert ClassOk(k, g[k], sys.classes[k], sys.cells);
    HandOver(k, g[k], sys.classes[k], sys.cells, chain, Held(t));
    MovesTouch(k, t, sys.cells, chain, Held(t));
    MovedInHandTogether(sys.cells, chain, Held(t));
    assert sys.classes[k := sys.classes[k]] == sys.classes;
    hide ClassOk;
    hide TransitTogether;
    FrameKeepsInv(g, sys, sys', t, k);
  }

  lemma WaitOrAcquireKeepsInv(g: seq<ClassConfig>, sys: System, t: int, e: Event)
    requires Inv(g, sys) && Enabled(g, sys, t, e) && (e.Acquire? || e.StartRemove?)
    ensures Inv(g, Next(g, sys, t, e))
  {
    var sys' := Next(g, sys, t, e);
    assert ThreadOk(g, sys.cells, t, sys.threads[t]);
    assert sys'.cells == sys.cells && sys'.classes == sys.classes;
    assert LocksOk(sys'.threads, sys'.locks);
    forall u | 0 <= u < |sys'.threads|
      ensures ThreadOk(g, sys.cells, u, sys'.threads[u])
    {
      assert u != t ==> sys'.threads[u] == sys.threads[u] && ThreadOk(g, sys.cells, u, sys.threads[u]);
    }
    hide ClassOk;
    hide LocksOk;
    hide ThreadOk;
    hide TransitTogether;
  }

  /** How a call begins: its thread waits for the lock of the class, with the chain in hand;
      and a thread that takes the lock it waits for goes on with the same work. */
  lemma CallsBegin(g: seq<ClassConfig>, sys: System, t: int, e: Event)
    requires Inv(g, sys) && Enabled(g, sys, t, e) && !e.Run?
    ensures var sys', th := Next(g, sys, t, e), sys.threads[t];
            && sys'.classes == sys.classes && |sys'.threads| == |sys.threads|
            && (forall u | 0 <= u < |sys.threads| && u != t :: sys'.threads[u] == sys.threads[u])
            && match e
               case StartInsert(k, chain) =>
                 && th.Idle? && sys'.threads[t] == Waiting(Insert(k, chain)) && sys'.locks == sys.locks
                 && forall o {:trigger o in chain} | o in chain ::
                      o in sys.cells && sys.cells[o].place == Out && o in sys'.cells && sys'.cells[o].place == Held(t)
               case StartRemove(k, n) =>
                 && th.Idle? && sys'.threads[t] == Waiting(Remove(k, n)) && sys'.locks == sys.locks
                 && sys'.cells == sys.cells
               case Acquire =>
                 && th.Waiting? && sys'.threads[t] == Running(th.work) && sys'.cells == sys.cells
                 && LockOf(th.work) !in sys.locks && sys'.locks == sys.locks[LockOf(th.work) := t]
  {
    hide Inv;
  }

  /** Every step of every thread keeps the invariant. */
  lemma NextKeepsInv(g: seq<ClassConfig>, sys: System, t: int, e: Event)
    requires Inv(g, sys) && Enabled(g, sys, t, e)
    ensures Inv(g, Next(g, sys, t, e))
  {
    match e
    case StartInsert(k, chain) => StartInsertKeepsInv(g, sys, t, k, chain);
    case StartRemove(_, _) => WaitOrAcquireKeepsInv(g, sys, t, e);
    case Acquire => WaitOrAcquireKeepsInv(g, sys, t, e);
    case Run(h) => RunSectionKeepsInv(g, sys, t, h);
  }

  lemma RunSectionKeepsInv(g: seq<ClassConfig>, sys: System, t: int, h: Chance)
    requires Inv(g, sys) && Enabled(g, sys, t, Run(h))
    ensures Inv(g, RunSection(g, sys, t, h))
  {
    hide Inv;
    match sys.threads[t].work
    case Insert(_, _) => RunInsertKeepsInv(g, sys, t, h);
    case Shrink(_, _, _, _) => RunShrinkKeepsInv(g, sys, t, h);
    case Return(_, _, _, _) => RunReturnKeepsInv(g, sys, t, h);
    case Release(_, _, _) => RunReleaseKeepsInv(g, sys, t);
    case Delete(_, _, _, _, _) => RunDeleteKeepsInv(g, sys, t);
    case Remove(_, _) => RunRemoveKeepsInv(g, sys, t);
    case Populate(_, _) => RunPopulateKeepsInv(g, sys, t, h);
    case Populated(_, _, _, _) => RunPopulatedKeepsInv(g, sys, t);
  }

  // ---------- Cache sizes ----------

  function SumCache(classes: seq<Central>): int
  {
    if classes == [] then 0 else SumCache(classes[..|classes| - 1]) + classes[|classes| - 1].cacheSize
  }

  /** An entry that a thread has taken from one class and not yet given to its own. */
  function Token(th: Thread): int
  {
    if th.Idle? then 0 else
    match th.work
    case Return(_, _, _, won) => if won then 1 else 0
    case Release(_, _, after) => if after.Evicted? then 1 else 0
    case Delete(_, _, _, _, after) => if after.Evicted? then 1 else 0
    case _ => 0
  }

  function Tokens(threads: seq<Thread>): int
  {
    if threads == [] then 0 else Tokens(threads[..|threads| - 1]) + Token(threads[|threads| - 1])
  }

  /** The cache entries there are, with those in the hands of threads. */
  function Credit(sys: System): int
  {
    SumCache(sys.classes) + Tokens(sys.threads)
  }

  lemma {:induction false} SumCacheUpdate(classes: seq<Central>, k: int, c: Central)
    requires 0 <= k < |classes|
    ensures SumCache(classes[k := c]) == SumCache(classes) - classes[k].cacheSize + c.cacheSize
  {
    var n := |classes| - 1;
    if k == n {
      assert classes[k := c][..n] == classes[..n];
    } else {
      assert classes[k := c][..n] == classes[..n][k := c];
      SumCacheUpdate(classes[..n], k, c);
    }
  }

  lemma {:induction false} TokensUpdate(threads: seq<Thread>, t: int, th: Thread)
    requires 0 <= t < |threads|
    ensures Tokens(threads[t := th]) == Tokens(threads) - Token(threads[t]) + Token(th)
    ensures Tokens(threads) >= 0
  {
    var n := |threads| - 1;
    TokensAreNatural(threads);
    if t == n {
      assert threads[t := th][..n] == threads[..n];
    } else {
      assert threads[t := th][..n] == threads[..n][t := th];
      TokensUpdate(threads[..n], t, th);
    }
  }

  lemma {:induction false} TokensAreNatural(threads: seq<Thread>)
    ensures Tokens(threads) >= 0
  {
    if threads != [] {
      TokensAreNatural(threads[..|threads| - 1]);
    }
  }

  /** What a step does to the entries of its class and the token of its thread. */
  lemma CreditMoves(sys: System, sys': System, t: int, k: int)
    requires 0 <= t < |sys.threads| && 0 <= k < |sys.classes| && |sys'.classes| == |sys.classes|
             && |sys'.threads| == |sys.threads|
    requires sys'.classes == sys.classes[k := sys'.classes[k]] && sys'.threads == sys.threads[t := sys'.threads[t]]
    ensures Credit(sys') - Credit(sys) == sys'.classes[k].cacheSize + Token(sys'.threads[t])
                                          - sys.classes[k].cacheSize - Token(sys.threads[t])
  {
    SumCacheUpdate(sys.classes, k, sys'.classes[k]);
    TokensUpdate(sys.threads, t, sys'.threads[t]);
  }

  lemma {:induction false} FetchMoreKeepsCache(c: Central, n: int, fetched: seq<int>)
    requires ListsMatch(c)
    ensures FetchMore(c, n, fetched).0.cacheSize == c.cacheSize && FetchMore(c, n, fetched).0.slots == c.slots
    decreases n - |fetched|
  {
    if |fetched| < n && c.nonempty != [] {
      HeadHasObjects(c, n - |fetched|);
      FetchMoreKeepsCache(AfterFetch(c, n - |fetched|), n, Fetched(c, n - |fetched|) + fetched);
    }
  }

  /** The class whose lock a section runs under, or any class if it is the page heap's. */
  function ClassOf(w: Work): int
  {
    if w.Shrink? then w.victim else w.k
  }

  /** A thread comes back with an entry for its class, and that has come to its maximum in
      the meantime. */
  predicate DropsEntry(sys: System, t: int)
  {
    && 0 <= t < |sys.threads| && !sys.threads[t].Idle?
    && var w := sys.threads[t].work;
       w.Return? && w.won && 0 <= w.k < |sys.classes| && sys.classes[w.k].cacheSize >= sys.classes[w.k].maxCacheSize
  }

  lemma InsertingKeepsCredit(g: seq<ClassConfig>, sys: System, t: int, h: Chance)
    requires Inv(g, sys) && Enabled(g, sys, t, Run(h))
    requires sys.threads[t].work.Insert? || sys.threads[t].work.Shrink? || sys.threads[t].work.Return?
    ensures Credit(RunSection(g, sys, t, h)) == Credit(sys) - (if DropsEntry(sys, t) then 1 else 0)
  {
    hide Inv;
    hide Moved;
    hide HeldBy;
    hide Distinct;
    hide FetchMore;
    var w := sys.threads[t].work;
    WorkIsOk(g, sys, t);
    var k := ClassOf(w);
    assert sys.classes[k := sys.classes[k]] == sys.classes;
    CreditMoves(sys, RunSection(g, sys, t, h), t, k);
  }

  lemma ReleasingKeepsCredit(g: seq<ClassConfig>, sys: System, t: int, h: Chance)
    requires Inv(g, sys) && Enabled(g, sys, t, Run(h))
    requires sys.threads[t].work.Release? || sys.threads[t].work.Delete? || sys.threads[t].work.Populate?
    ensures Credit(RunSection(g, sys, t, h)) == Credit(sys) && !DropsEntry(sys, t)
  {
    hide Inv;
    hide Moved;
    hide HeldBy;
    hide Distinct;
    hide FetchMore;
    var w := sys.threads[t].work;
    WorkIsOk(g, sys, t);
    var k := w.k;
    assert sys.classes[k := sys.classes[k]] == sys.classes;
    if w.Release? {
      RunReleaseKeepsInv(g, sys, t);
    }
    CreditMoves(sys, RunSection(g, sys, t, h), t, k);
  }

  lemma RemovingKeepsCredit(g: seq<ClassConfig>, sys: System, t: int, h: Chance)
    requires Inv(g, sys) && Enabled(g, sys, t, Run(h))
    requires sys.threads[t].work.Remove? || sys.threads[t].work.Populated?
    ensures Credit(RunSection(g, sys, t, h)) == Credit(sys) && !DropsEntry(sys, t)
  {
    hide Inv;
    hide Moved;
    hide HeldBy;
    hide Distinct;
    hide FetchMore;
    var w := sys.threads[t].work;
    WorkIsOk(g, sys, t);
    var k := w.k;
    assert sys.classes[k := sys.classes[k]] == sys.classes;
    if w.Remove? {
      RunRemoveKeepsInv(g, sys, t);
      FetchMoreKeepsCache(sys.classes[k], w.n, []);
    } else {
      RunPopulatedKeepsInv(g, sys, t);
      FetchMoreKeepsCache(Joined(sys.classes[k], w.span, w.all), w.n, []);
    }
    CreditMoves(sys, RunSection(g, sys, t, h), t, k);
  }

  lemma NextKeepsCredit(g: seq<ClassConfig>, sys: System, t: int, e: Event)
    requires Inv(g, sys) && Enabled(g, sys, t, e)
    ensures Credit(Next(g, sys, t, e)) == Credit(sys) - (if e.Run? && DropsEntry(sys, t) then 1 else 0)
  {
    hide Inv;
    if e.Run? {
      var w := sys.threads[t].work;
      if w.Remove? || w.Populated? {
        RemovingKeepsCredit(g, sys, t, e.chance);
      } else if w.Release? || w.Delete? || w.Populate? {
        ReleasingKeepsCredit(g, sys, t, e.chance);
      } else {
        InsertingKeepsCredit(g, sys, t, e.chance);
      }
    } else {
      TokensUpdate(sys.threads, t, Next(g, sys, t, e).threads[t]);
    }
  }

  // ---------- Theorems ----------

  ghost predicate ValidRun(g: seq<ClassConfig>, sys: System, run: seq<(int, Event)>)
    requires Inv(g, sys)
    decreases run
  {
    run != [] ==>
      && Enabled(g, sys, run[0].0, run[0].1)
      && (NextKeepsInv(g, sys, run[0].0, run[0].1); ValidRun(g, Next(g, sys, run[0].0, run[0].1), run[1..]))
  }

  ghost function AfterRun(g: seq<ClassConfig>, sys: System, run: seq<(int, Event)>): System
    requires Inv(g, sys) && ValidRun(g, sys, run)
    decreases run
  {
    if run == [] then sys else
    NextKeepsInv(g, sys, run[0].0, run[0].1);
    AfterRun(g, Next(g, sys, run[0].0, run[0].1), run[1..])
  }

  /** How many entries were dropped in a run. */
  ghost function Dropped(g: seq<ClassConfig>, sys: System, run: seq<(int, Event)>): nat
    requires Inv(g, sys) && ValidRun(g, sys, run)
    decreases run
  {
    if run == [] then 0 else
    NextKeepsInv(g, sys, run[0].0, run[0].1);
    (if run[0].1.Run? && DropsEntry(sys, run[0].0) then 1 else 0)
    + Dropped(g, Next(g, sys, run[0].0, run[0].1), run[1..])
  }

  /** Whatever the interleaving: the invariant holds at every point, and the entries of all
      transfer caches together, with those on their way, are what they were but for those
      dropped, and so never grow. */
  lemma {:induction false} RunKeepsInv(g: seq<ClassConfig>, sys: System, run: seq<(int, Event)>)
    requires Inv(g, sys) && ValidRun(g, sys, run)
    ensures Inv(g, AfterRun(g, sys, run))
    ensures Credit(AfterRun(g, sys, run)) == Credit(sys) - Dropped(g, sys, run)
    ensures SumCache(AfterRun(g, sys, run).classes) <= Credit(sys)
    decreases run
  {
    hide Inv;
    if run != [] {
      NextKeepsInv(g, sys, run[0].0, run[0].1);
      NextKeepsCredit(g, sys, run[0].0, run[0].1);
      RunKeepsInv(g, Next(g, sys, run[0].0, run[0].1), run[1..]);
    } else {
      TokensAreNatural(sys.threads);
    }
  }

  /** A run takes its steps one after the other. */
  lemma {:induction false} RunIsSteps(g: seq<ClassConfig>, sys: System, run: seq<(int, Event)>, t: int, e: Event)
    requires Inv(g, sys) && ValidRun(g, sys, run)
    ensures var last := AfterRun(g, sys, run);
            && Inv(g, last) && (ValidRun(g, sys, run + [(t, e)]) <==> Enabled(g, last, t, e))
            && (Enabled(g, last, t, e) ==> AfterRun(g, sys, run + [(t, e)]) == Next(g, last, t, e))
    decreases run
  {
    hide Inv;
    if run == [] {
      assert ([] + [(t, e)])[1..] == [];
      if Enabled(g, sys, t, e) {
        NextKeepsInv(g, sys, t, e);
      }
    } else {
      NextKeepsInv(g, sys, run[0].0, run[0].1);
      RunIsSteps(g, Next(g, sys, run[0].0, run[0].1), run[1..], t, e);
      assert (run + [(t, e)])[1..] == run[1..] + [(t, e)];
    }
    hide Next;
    hide Enabled;
  }

  // ---------- Cached chains ----------

  /** A step pops at most the last chain of a class, or adds one behind the others. */
  ghost predicate PopsOrPushes(was: seq<seq<int>>, now: seq<seq<int>>)
  {
    && (forall i {:trigger was[i]} {:trigger now[i]} | 0 <= i < |was| && i < |now| :: now[i] == was[i])
    && |was| - 1 <= |now| <= |was| + 1
  }

  lemma InsertingKeepsSlots(g: seq<ClassConfig>, sys: System, t: int, h: Chance, k: int)
    requires Inv(g, sys) && Enabled(g, sys, t, Run(h)) && 0 <= k < |g|
    requires sys.threads[t].work.Insert? || sys.threads[t].work.Shrink? || sys.threads[t].work.Return?
    ensures var sys' := RunSection(g, sys, t, h);
            |sys'.classes| == |g| == |sys.classes| && PopsOrPushes(sys.classes[k].slots, sys'.classes[k].slots)
  {
    hide Inv;
    hide Moved;
    hide HeldBy;
    hide Distinct;
    WorkIsOk(g, sys, t);
  }

  lemma ReleasingKeepsSlots(g: seq<ClassConfig>, sys: System, t: int, h: Chance, k: int)
    requires Inv(g, sys) && Enabled(g, sys, t, Run(h)) && 0 <= k < |g|
    requires sys.threads[t].work.Release? || sys.threads[t].work.Delete? || sys.threads[t].work.Populate?
    ensures var sys' := RunSection(g, sys, t, h);
            |sys'.classes| == |g| == |sys.classes| && sys'.classes[k].slots == sys.classes[k].slots
  {
    hide Inv;
    hide Moved;
    hide HeldBy;
    hide Distinct;
    WorkIsOk(g, sys, t);
    if sys.threads[t].work.Release? {
      RunReleaseKeepsInv(g, sys, t);
    }
  }

  lemma RemovingKeepsSlots(g: seq<ClassConfig>, sys: System, t: int, h: Chance, k: int)
    requires Inv(g, sys) && Enabled(g, sys, t, Run(h)) && 0 <= k < |g|
    requires sys.threads[t].work.Remove? || sys.threads[t].work.Populated?
    ensures var sys' := RunSection(g, sys, t, h);
            |sys'.classes| == |g| == |sys.classes| && PopsOrPushes(sys.classes[k].slots, sys'.classes[k].slots)
  {
    hide Inv;
    hide Moved;
    hide HeldBy;
    hide Distinct;
    hide FetchMore;
    WorkIsOk(g, sys, t);
    var w := sys.threads[t].work;
    if w.Remove? {
      RunRemoveKeepsInv(g, sys, t);
      FetchMoreKeepsCache(sys.classes[w.k], w.n, []);
    } else {
      RunPopulatedKeepsInv(g, sys, t);
      FetchMoreKeepsCache(Joined(sys.classes[w.k], w.span, w.all), w.n, []);
    }
  }

  lemma NextKeepsSlots(g: seq<ClassConfig>, sys: System, t: int, e: Event, k: int)
    requires Inv(g, sys) && Enabled(g, sys, t, e) && 0 <= k < |g|
    ensures var sys' := Next(g, sys, t, e);
            |sys'.classes| == |g| == |sys.classes| && PopsOrPushes(sys.classes[k].slots, sys'.classes[k].slots)
  {
    hide Inv;
    if e.Run? {
      var w := sys.threads[t].work;
      if w.Remove? || w.Populated? {
        RemovingKeepsSlots(g, sys, t, e.chance, k);
      } else if w.Release? || w.Delete? || w.Populate? {
        ReleasingKeepsSlots(g, sys, t, e.chance, k);
      } else {
        InsertingKeepsSlots(g, sys, t, e.chance, k);
      }
    }
  }

  /** In a run of which no step pops slot i of class k. */
  ghost predicate NeverPopped(g: seq<ClassConfig>, sys: System, run: seq<(int, Event)>, k: int, i: int)
    requires Inv(g, sys) && ValidRun(g, sys, run) && 0 <= k < |sys.classes|
    decreases run
  {
    && 0 <= i < |sys.classes[k].slots|
    && (run != [] ==>
          && (NextKeepsInv(g, sys, run[0].0, run[0].1); NextKeepsSlots(g, sys, run[0].0, run[0].1, k);
              NeverPopped(g, Next(g, sys, run[0].0, run[0].1), run[1..], k, i)))
  }

  /** A chain that is in a slot stays there as it is, in its order, whatever other threads
      put on top of it and take off again, and its objects stay in that slot, out of reach
      of every thread and of the program, until the slot itself is popped. */
  lemma {:induction false} CachedChainStays(g: seq<ClassConfig>, sys: System, run: seq<(int, Event)>, k: int, i: int)
    requires Inv(g, sys) && ValidRun(g, sys, run) && 0 <= k < |sys.classes| && NeverPopped(g, sys, run, k, i)
    ensures var sys' := AfterRun(g, sys, run); var chain := sys.classes[k].slots[i];
            && Inv(g, sys') && |sys'.classes| == |g| == |sys.classes|
            && i < |sys'.classes[k].slots| && sys'.classes[k].slots[i] == chain
            && forall o {:trigger o in chain} | o in chain ::
                 o in sys'.cells && sys'.cells[o].class_ == k && sys'.cells[o].place == InSlot(i)
    decreases run
  {
    if run == [] {
      InSlotIs(g, sys, k, i);
    } else {
      NextKeepsInv(g, sys, run[0].0, run[0].1);
      NextKeepsSlots(g, sys, run[0].0, run[0].1, k);
      CachedChainStays(g, Next(g, sys, run[0].0, run[0].1), run[1..], k, i);
    }
    hide Inv;
  }

  lemma InSlotIs(g: seq<ClassConfig>, sys: System, k: int, i: int)
    requires Inv(g, sys) && 0 <= k < |sys.classes| && 0 <= i < |sys.classes[k].slots|
    ensures |g| == |sys.classes|
    ensures forall o {:trigger o in sys.classes[k].slots[i]} | o in sys.classes[k].slots[i] ::
              o in sys.cells && sys.cells[o].class_ == k && sys.cells[o].place == InSlot(i)
  {
    ClassIsOk(g, sys, k);
  }

  /** So what RemoveRange pops from a slot is the chain that was cached there. */
  lemma PoppedAsCached(g: seq<ClassConfig>, sys: System, run: seq<(int, Event)>, k: int, i: int, t: int, h: Chance)
    requires Inv(g, sys) && ValidRun(g, sys, run) && 0 <= k < |sys.classes| && NeverPopped(g, sys, run, k, i)
    requires var sys' := AfterRun(g, sys, run);
             && Enabled(g, sys', t, Run(h)) && sys'.threads[t].work == Remove(k, g[k].move)
             && |sys'.classes[k].slots| == i + 1
    ensures var sys' := AfterRun(g, sys, run);
            && ListsMatch(sys'.classes[k]) && Taken(g, sys', sys'.threads[t].work) == sys.classes[k].slots[i]
  {
    hide Inv;
    hide ClassOk;
    hide ListsMatch;
    hide FetchMore;
    hide AfterRun;
    CachedChainStays(g, sys, run, k, i);
    ClassIsOk(g, AfterRun(g, sys, run), k);
  }

  /** A thread that waits for a lock, of a class or of the page heap, holds none. */
  lemma NoWaitWhileHolding(g: seq<ClassConfig>, sys: System, t: int, l: int)
    requires Inv(g, sys) && 0 <= t < |sys.threads| && l in sys.locks && sys.locks[l] == t
    ensures sys.threads[t].Running? && LockOf(sys.threads[t].work) == l
    ensures forall m | m in sys.locks && sys.locks[m] == t :: m == l
  {
  }

  /** Hence no deadlock: while some thread has work, some thread can go on. */
  lemma NoDeadlock(g: seq<ClassConfig>, sys: System, t: int) returns (u: int, e: Event)
    requires Inv(g, sys) && 0 <= t < |sys.threads| && !sys.threads[t].Idle?
    ensures Enabled(g, sys, u, e) && (e.Run? || e.Acquire?)
  {
    assert ThreadOk(g, sys.cells, t, sys.threads[t]);
    u, e := t, Acquire;
    if sys.threads[t].Running? || LockOf(sys.threads[t].work) in sys.locks {
      if sys.threads[t].Waiting? {
        u := sys.locks[LockOf(sys.threads[t].work)];
      }
      assert ThreadOk(g, sys.cells, u, sys.threads[u]);
      e := Run(Chance(0, 0, 0, 0, 0, 0, 0, []));
    }
  }

  /** MakeCacheSpace finds a free slot when it grows the cache, although its thread has
      let go of the lock in between and others may have changed the sizes. */
  lemma SpaceAfterGrowing(g: seq<ClassConfig>, sys: System, t: int)
    requires Inv(g, sys) && 0 <= t < |sys.threads| && sys.threads[t].Running? && sys.threads[t].work.Return?
    ensures var k := sys.threads[t].work.k;
            0 <= k < |g| && |sys.classes[k].slots| < sys.classes[k].cacheSize + 1
  {
    var k := sys.threads[t].work.k;
    assert ThreadOk(g, sys.cells, t, sys.threads[t]);
    assert ClassOk(k, g[k], sys.classes[k], sys.cells);
  }

  /** The objects that a section of RemoveRange delivers. */
  ghost function Taken(g: seq<ClassConfig>, sys: System, w: Work): seq<int>
    requires (w.Remove? || w.Populated?) && 0 <= w.k < |sys.classes| == |g|
    requires ListsMatch(sys.classes[w.k]) && (w.Populated? ==> ListsMatch(Joined(sys.classes[w.k], w.span, w.all)))
  {
    var c := sys.classes[w.k];
    if w.Populated? then FetchMore(Joined(c, w.span, w.all), w.n, []).1
    else if w.n == g[w.k].move && c.slots != [] then LastSlot(c)
    else FetchMore(c, w.n, []).1
  }

  /** What RemoveRange hands out: at most n different objects, none of them anyone's
      before, all of them the program's after. */
  lemma RemoveRangeHandsOut(g: seq<ClassConfig>, sys: System, t: int, h: Chance)
    requires Inv(g, sys) && Enabled(g, sys, t, Run(h))
             && (sys.threads[t].work.Remove? || sys.threads[t].work.Populated?)
    ensures var w := sys.threads[t].work;
            && 0 <= w.k < |sys.classes| && ListsMatch(sys.classes[w.k])
            && (w.Populated? ==> ListsMatch(Joined(sys.classes[w.k], w.span, w.all)))
            && var objs := Taken(g, sys, w); var sys' := RunSection(g, sys, t, h);
            && Distinct(objs) && |objs| <= w.n
            && (forall o {:trigger o in objs} | o in objs ::
                  && o in sys.cells && sys.cells[o].class_ == w.k
                  && (sys.cells[o].place.InChain? || sys.cells[o].place.InSlot? || sys.cells[o].place == InTransit(t)))
            && (forall o {:trigger o in objs} | o in objs :: o in sys'.cells && sys'.cells[o].place == Out)
  {
    var w := sys.threads[t].work;
    assert ThreadOk(g, sys.cells, t, sys.threads[t]);
    ClassIsOk(g, sys, w.k);
    if w.Populated? {
      ArrivalKeepsInv(g, sys, t);
      ClassIsOk(g, Arrived(sys, t, w), w.k);
    }
    TakenFacts(g, sys, t, w);
    hide Inv;
    hide ClassOk;
    hide ListsMatch;
    hide FetchMore;
    hide Moved;
  }

  /** Where the objects are just before they are delivered. */
  ghost function CellsBefore(sys: System, w: Work): Cells
  {
    if w.Populated? then CellsJoined(sys.cells, w.all) else sys.cells
  }

  lemma TakenFacts(g: seq<ClassConfig>, sys: System, t: int, w: Work)
    requires (w.Remove? || w.Populated?) && 0 <= w.k < |sys.classes| == |g| && w.n > 0
    requires ClassOk(w.k, g[w.k], sys.classes[w.k], sys.cells) && ListsMatch(sys.classes[w.k])
    requires w.Populated? ==>
               && ClassOk(w.k, g[w.k], Joined(sys.classes[w.k], w.span, w.all), CellsJoined(sys.cells, w.all))
               && ListsMatch(Joined(sys.classes[w.k], w.span, w.all))
               && (w.all != [] ==> SpanInTransit(g, sys.cells, t, w.k, w.span, w.all))
    ensures var objs := Taken(g, sys, w);
            && Distinct(objs) && |objs| <= w.n
            && (forall o {:trigger o in objs} | o in objs ::
                  && o in sys.cells && sys.cells[o].class_ == w.k
                  && (sys.cells[o].place.InChain? || sys.cells[o].place.InSlot? || sys.cells[o].place == InTransit(t)))
            && (forall o {:trigger o in objs} | o in objs :: o in CellsBefore(sys, w))
  {
    var k, c := w.k, sys.classes[w.k];
    if w.Populated? {
      FetchMoreKeepsClass(k, g[k], Joined(c, w.span, w.all), CellsJoined(sys.cells, w.all), w.n, []);
    } else if w.n == g[k].move && c.slots != [] {
      PopSlotKeepsClass(k, g[k], c, sys.cells, Out);
    } else {
      FetchMoreKeepsClass(k, g[k], c, sys.cells, w.n, []);
    }
    hide ClassOk;
    hide ListsMatch;
    hide FetchMore;
  }

  /** A section of RemoveRange delivers fewer than n objects only if it leaves no free
      object on a chain of the class. It delivers none only if it finds neither a chain nor
      a cached slot of that size: then it goes to the page heap, and once it has been there
      it ends empty-handed only if the page heap had no span to give either. */
  lemma RemoveRangeFallsShort(g: seq<ClassConfig>, sys: System, t: int, h: Chance)
    requires Inv(g, sys) && Enabled(g, sys, t, Run(h))
    requires sys.threads[t].work.Remove? || sys.threads[t].work.Populated?
    ensures var w := sys.threads[t].work;
            && 0 <= w.k < |sys.classes| && ListsMatch(sys.classes[w.k])
            && (w.Populated? ==> ListsMatch(Joined(sys.classes[w.k], w.span, w.all)))
            && var objs := Taken(g, sys, w); var sys' := RunSection(g, sys, t, h); var c := sys.classes[w.k];
            && |objs| <= w.n && (|objs| < w.n ==> sys'.classes[w.k].counter == 0)
            && (w.Remove? ==>
                  && (objs == [] <==> c.nonempty == [] && !(w.n == g[w.k].move && c.slots != []))
                  && sys'.threads[t] == (if objs == [] then Waiting(Populate(w.k, w.n)) else Idle))
            && (w.Populated? ==>
                  && (objs == [] <==> c.nonempty == [] && w.all == [])
                  && sys'.threads[t] == Idle)
  {
    if sys.threads[t].work.Remove? {
      FirstTryFallsShort(g, sys, t);
    } else {
      SecondTryFallsShort(g, sys, t);
    }
    hide Inv;
    hide ListsMatch;
    hide FetchMore;
  }

  lemma FirstTryFallsShort(g: seq<ClassConfig>, sys: System, t: int)
    requires Inv(g, sys) && 0 <= t < |sys.threads| && sys.threads[t].Running? && sys.threads[t].work.Remove?
    ensures var w := sys.threads[t].work;
            && 0 <= w.k < |sys.classes| && ListsMatch(sys.classes[w.k])
            && var objs := Taken(g, sys, w); var sys' := RunRemove(g, sys, t, w); var c := sys.classes[w.k];
            && |objs| <= w.n && (|objs| < w.n ==> sys'.classes[w.k].counter == 0)
            && (objs == [] <==> c.nonempty == [] && !(w.n == g[w.k].move && c.slots != []))
            && sys'.threads[t] == (if objs == [] then Waiting(Populate(w.k, w.n)) else Idle)
  {
    var w := sys.threads[t].work;
    RunRemoveKeepsInv(g, sys, t);
    assert ThreadOk(g, sys.cells, t, sys.threads[t]);
    ClassIsOk(g, sys, w.k);
    var c := sys.classes[w.k];
    if w.n == g[w.k].move && c.slots != [] {
      PopSlotKeepsClass(w.k, g[w.k], c, sys.cells, Out);
    }
    FetchMoreKeepsClass(w.k, g[w.k], c, sys.cells, w.n, []);
    FetchedSomething(c, w.n);
    hide Inv;
    hide ClassOk;
    hide ListsMatch;
    hide FetchMore;
  }

  lemma SecondTryFallsShort(g: seq<ClassConfig>, sys: System, t: int)
    requires Inv(g, sys) && 0 <= t < |sys.threads| && sys.threads[t].Running? && sys.threads[t].work.Populated?
    ensures var w := sys.threads[t].work;
            && 0 <= w.k < |sys.classes| && ListsMatch(sys.classes[w.k])
            && ListsMatch(Joined(sys.classes[w.k], w.span, w.all))
            && var objs := Taken(g, sys, w); var sys' := RunPopulated(sys, t, w);
            && |objs| <= w.n && (|objs| < w.n ==> sys'.classes[w.k].counter == 0)
            && (objs == [] <==> sys.classes[w.k].nonempty == [] && w.all == [])
            && sys'.threads[t] == Idle
  {
    var w := sys.threads[t].work;
    ArrivalKeepsInv(g, sys, t);
    ClassIsOk(g, sys, w.k);
    var sys1 := Arrived(sys, t, w);
    ClassIsOk(g, sys1, w.k);
    FetchMoreKeepsClass(w.k, g[w.k], sys1.classes[w.k], sys1.cells, w.n, []);
    FetchedSomething(sys1.classes[w.k], w.n);
    RunPopulatedKeepsInv(g, sys, t);
    hide Inv;
    hide ClassOk;
    hide FetchMore;
  }

  /** Init of class cl: entries is the size of the slot array, start the first size of
      the cache (64 and 16, or both 0 for a small footprint). */
  function InitialCentral(cl: int, entries: int, start: int, bytes: int, move: int): Central
    requires cl > 0 ==> bytes > 0 && move > 0
  {
    var limit := if cl > 0 then 1048576 / (bytes * move) else entries;
    var atLeastOne := if limit < 1 && cl > 0 then 1 else limit;
    var most := if atLeastOne < entries then atLeastOne else entries;
    Central(map[], [], [], 0, 0, [], if cl > 0 && most < start then most else start, most)
  }

  /** Where every run begins: nothing allocated, nobody at work. */
  ghost predicate Initial(g: seq<ClassConfig>, sys: System, entries: int, start: int, bytes: seq<int>)
  {
    && 0 <= start <= entries && |g| == |sys.classes| == |bytes|
    && sys.cells == map[] && sys.locks == map[]
    && (forall t | 0 <= t < |sys.threads| :: sys.threads[t] == Idle)
    && (forall k {:trigger g[k]} | 0 <= k < |g| :: g[k].move >= 1 && g[k].total >= 1 && bytes[k] > 0)
    && (forall k {:trigger sys.classes[k]} | 0 <= k < |g| ::
          sys.classes[k] == InitialCentral(k, entries, start, bytes[k], g[k].move))
  }

  lemma InitialInv(g: seq<ClassConfig>, sys: System, entries: int, start: int, bytes: seq<int>)
    requires Initial(g, sys, entries, start, bytes)
    ensures Inv(g, sys)
    ensures forall k | 0 <= k < |g| :: sys.classes[k].cacheSize <= start
  {
    forall k | 0 <= k < |g|
      ensures ClassOk(k, g[k], sys.classes[k], sys.cells) && sys.classes[k].cacheSize <= start
    {
      InitialClassOk(k, g[k], entries, start, bytes[k]);
    }
    hide InitialCentral;
    hide ClassOk;
  }

  lemma InitialClassOk(k: int, g: ClassConfig, entries: int, start: int, bytes: int)
    requires k >= 0 && 0 <= start <= entries && g.move >= 1 && g.total >= 1 && bytes > 0
    ensures ClassOk(k, g, InitialCentral(k, entries, start, bytes, g.move), map[])
    ensures InitialCentral(k, entries, start, bytes, g.move).cacheSize <= start
  {
    var c := InitialCentral(k, entries, start, bytes, g.move);
    MulIsPositive(bytes, g.move);
    assert c.maxCacheSize >= c.cacheSize >= 0;
    assert |c.spans| == 0 && SumChains(c.spans) == 0;
  }

  lemma {:induction false} SumCacheAtMost(classes: seq<Central>, most: nat)
    requires forall k | 0 <= k < |classes| :: classes[k].cacheSize <= most
    ensures SumCache(classes) <= |classes| * most
  {
    if classes != [] {
      var n := |classes| - 1;
      SumCacheAtMost(classes[..n], most);
      assert |classes| * most == n * most + most;
    }
  }

  lemma {:induction false} NoTokens(threads: seq<Thread>)
    requires forall t | 0 <= t < |threads| :: threads[t].Idle?
    ensures Tokens(threads) == 0
  {
    if threads != [] {
      NoTokens(threads[..|threads| - 1]);
    }
  }

  /** So from the start on, over any run: the transfer caches of all classes together have no
      more entries than they began with, at most start for each class. */
  lemma CachesStaySmall(g: seq<ClassConfig>, sys: System, entries: int, start: nat, bytes: seq<int>,
                        run: seq<(int, Event)>)
    requires Initial(g, sys, entries, start, bytes) && Inv(g, sys) && ValidRun(g, sys, run)
    ensures SumCache(AfterRun(g, sys, run).classes) <= SumCache(sys.classes) <= |g| * start
  {
    InitialInv(g, sys, entries, start, bytes);
    NoTokens(sys.threads);
    SumCacheAtMost(sys.classes, start);
    RunKeepsInv(g, sys, run);
    hide Inv;
    hide ValidRun;
    hide AfterRun;
  }

  /** No more than the slot array has, and then as many chains as make up no more than 1 MB,
      but one if even one is more. */
  ghost predicate HoldsAtMost(entries: int, chain: int, m: nat)
  {
    && m <= entries && (m > 1 ==> m * chain <= 1048576)
    && (m < entries ==> m >= 1 && (m + 1) * chain > 1048576)
  }

  lemma InitialCacheIff(cl: int, entries: nat, start: nat, bytes: int, move: int, m: nat)
    requires cl >= 0 && start <= entries && bytes > 0 && move > 0
    ensures var c := InitialCentral(cl, entries, start, bytes, move);
            && (c.maxCacheSize == m <==> if cl == 0 then m == entries else HoldsAtMost(entries, bytes * move, m))
            && c.cacheSize == (if start <= c.maxCacheSize then start else c.maxCacheSize)
            && c.slots == [] && c.spans == map[] && c.numSpans == c.counter == 0
  {
    MulIsPositive(bytes, move);
    var chain := bytes * move;
    var limit := 1048576 / chain;
    Quotient(chain, 1048576);
    assert (limit + 1) * chain == limit * chain + chain;
    if m <= limit {
      MulMonotone(chain, m, limit);
    } else {
      MulMonotone(chain, limit + 1, m);
    }
    if m < limit {
      MulMonotone(chain, m + 1, limit);
    }
  }

  lemma MulIsPositive(a: int, b: int)
    requires a > 0 && b > 0
    ensures a * b > 0
  {
  }
}
