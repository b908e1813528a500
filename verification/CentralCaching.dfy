/** When a chain is cached, which class is asked for an entry, and when it gives one up:
    section by section, for a thread among others. */
module CentralCaching {
  import opened CentralLists
  import opened CentralRuns
  import opened CentralSystems
  import opened Lists

  /** The chain can be cached under this hold of the lock: there is a free slot at once, or
      the thread has come back with an entry and the class is below its maximum. */
  predicate CanCache(g: seq<ClassConfig>, sys: System, w: Work)
    requires (w.Insert? || w.Return?) && 0 <= w.k < |sys.classes| == |g|
  {
    var c := sys.classes[w.k];
    if w.Insert? then |w.chain| == g[w.k].move && |c.slots| < c.cacheSize else w.won && c.cacheSize < c.maxCacheSize
  }

  /** A full chain is cached exactly when it can be; it is then the last one of its class, and
      the call is over. Otherwise the section changes nothing but what its thread does next. */
  lemma CachesIff(g: seq<ClassConfig>, sys: System, t: int, h: Chance)
    requires Inv(g, sys) && Enabled(g, sys, t, Run(h))
    requires sys.threads[t].work.Insert? || sys.threads[t].work.Return?
    ensures var sys', w := Next(g, sys, t, Run(h)), sys.threads[t].work;
            && 0 <= w.k < |g| == |sys'.classes| && |sys'.threads| == |sys.threads|
            && var slots, slots' := sys.classes[w.k].slots, sys'.classes[w.k].slots;
            if CanCache(g, sys, w) then
              && |w.chain| == g[w.k].move && slots' == slots + [w.chain] && sys'.threads[t].Idle?
              && forall o | o in w.chain :: o in sys'.cells && sys'.cells[o].place == InSlot(|slots|)
            else
              sys'.classes == sys.classes && sys'.cells == sys.cells && !sys'.threads[t].Idle?
  {
    hide Inv;
    hide Distinct;
    WorkIsOk(g, sys, t);
    hide TryEvict;
    var w := sys.threads[t].work;
    EvictionOnlyAsks(sys, t, w.k, w.chain, w.Return?, h);
  }

  lemma EvictionOnlyAsks(sys: System, t: int, k: int, chain: seq<int>, second: bool, h: Chance)
    requires 0 <= t < |sys.threads|
    ensures var sys' := TryEvict(sys, t, k, chain, second, h);
            && sys'.classes == sys.classes && sys'.cells == sys.cells && |sys'.threads| == |sys.threads|
            && !sys'.threads[t].Idle?
  {
  }

  /** A look without the lock: there seemed to be an entry not in use. */
  predicate SeemsUnused(k: int, victim: int, cache: int, used: int)
  {
    victim != k && cache != 0 && used != cache
  }

  predicate SeemsToHaveAny(k: int, victim: int, cache: int)
  {
    victim != k && cache != 0
  }

  /** The class could grow, and no victim has been asked by force yet. */
  predicate MayAsk(g: seq<ClassConfig>, sys: System, w: Work)
    requires (w.Insert? || w.Return?) && 0 <= w.k < |sys.classes| == |g|
  {
    if w.Insert? then |w.chain| == g[w.k].move && sys.classes[w.k].cacheSize != sys.classes[w.k].maxCacheSize
    else !w.won && !w.force
  }

  /** A chain that is not cached: first another class is asked that seems to have an unused
      entry; when that did not help, or none did, another one that seems to have any, by
      force. If neither, or with the class at its maximum, or after the second attempt, the
      objects go back to their spans. */
  lemma AsksIff(g: seq<ClassConfig>, sys: System, t: int, h: Chance)
    requires Inv(g, sys) && Enabled(g, sys, t, Run(h))
    requires sys.threads[t].work.Insert? || sys.threads[t].work.Return?
    ensures 0 <= sys.threads[t].work.k < |g|
    ensures var sys', w := Next(g, sys, t, Run(h)), sys.threads[t].work; var k := w.k;
            var first := w.Insert? && SeemsUnused(k, h.victim, h.seenCache, h.seenUsed);
            var second := SeemsToHaveAny(k, h.victim2, h.seenCache2);
            && |sys'.threads| == |sys.threads|
            && (!CanCache(g, sys, w) ==>
                  sys'.threads[t] ==
                  if MayAsk(g, sys, w) && first then Waiting(Shrink(k, w.chain, h.victim, false))
                  else if MayAsk(g, sys, w) && second then Waiting(Shrink(k, w.chain, h.victim2, true))
                  else Running(Release(k, w.chain, InsertDone)))
  {
    hide Inv;
    hide Moved;
    hide Distinct;
    WorkIsOk(g, sys, t);
  }

  /** The class that is asked gives up one entry exactly if it has one, and one that is not
      in use or it must. An entry in use is the last slot, and its chain is then in the hands
      of the thread, to be released to its spans. */
  lemma GivesUpIff(g: seq<ClassConfig>, sys: System, t: int, h: Chance)
    requires Inv(g, sys) && Enabled(g, sys, t, Run(h)) && sys.threads[t].work.Shrink?
    ensures var sys', w := Next(g, sys, t, Run(h)), sys.threads[t].work; var v := w.victim;
            && 0 <= v < |sys.classes| == |sys'.classes| && |sys'.threads| == |sys.threads|
            && var c, c', th := sys.classes[v], sys'.classes[v], sys'.threads[t];
            && sys'.classes == sys.classes[v := c']
            && c' == c.(cacheSize := c'.cacheSize, slots := c'.slots)
            && if c.cacheSize == 0 || (|c.slots| == c.cacheSize && !w.force) then
                 c' == c && sys'.cells == sys.cells && th == Waiting(Return(w.k, w.chain, w.force, false))
               else
                 && c'.cacheSize == c.cacheSize - 1
                 && if |c.slots| < c.cacheSize then
                      && c'.slots == c.slots && sys'.cells == sys.cells
                      && th == Waiting(Return(w.k, w.chain, w.force, true))
                    else
                      && c.slots == c'.slots + [LastSlot(c)]
                      && th == Running(Release(v, LastSlot(c), Evicted(w.k, w.chain)))
                      && forall o | o in LastSlot(c) :: o in sys'.cells && sys'.cells[o].place == Held(t)
  {
    hide Inv;
    hide Distinct;
    WorkIsOk(g, sys, t);
    var v := sys.threads[t].work.victim;
    var c := sys.classes[v];
    ClassIsOk(g, sys, v);
    SlotsFit(v, g[v], c, sys.cells);
    hide ClassOk;
    assert sys.classes[v := c] == sys.classes;
  }

  lemma SlotsFit(k: int, g: ClassConfig, c: Central, cells: Cells)
    requires ClassOk(k, g, c, cells)
    ensures |c.slots| <= c.cacheSize
    ensures c.slots != [] ==> forall o | o in LastSlot(c) :: o in cells
  {
  }
}
