/** What the leak check takes for a root, said of addresses and without the batches in
    which the check floods them: which words of stacks, registers and global data it
    reads, which objects it is told of, and that exactly what these lead to is not
    reported. */
module LeakRoots {
  import opened AddressMaps
  import opened Common
  import opened HeapProfileTables
  import opened LeakCheckers
  import opened MappedWords
  import Mapped = RegionSubtraction

  /** The tops of all stacks, in the order in which they are registered. */
  function Tops(r: Roots): seq<int>
  {
    r.stacks.others + [r.stacks.self]
  }

  function Unregistered(r: Roots): Mapped.Mapping
  {
    Mapped.Mapping([], r.globals.regions, r.globals.libraries)
  }

  /** The maps of a process do not overlap. */
  ghost predicate MapsApart(r: Roots)
  {
    LibrariesApart(r.globals.libraries) && (r.globals.ranges.Known? ==> Mapped.Separate(r.globals.ranges.ranges))
  }

  /** The eight bytes at a are in one library interval; no region holds one of them but
      those that are no stack and were mapped from inside one of the known ranges; and no
      stack has one of them. */
  ghost predicate GlobalWord(r: Roots, a: int)
  {
    exists l :: 0 <= l < |r.globals.libraries|
                && Lies(r.globals.libraries[l], a, 8)
                && (forall i | 0 <= i < |r.globals.regions| :: Clear(r.globals.regions[i], a, 8) || Stays(r, i))
                && LeavesWord(Unregistered(r), Tops(r), r.stacks.growsDown, l, a, 8)
  }

  ghost predicate Stays(r: Roots, i: int)
    requires 0 <= i < |r.globals.regions|
  {
    var region, g := r.globals.regions[i], r.globals.ranges;
    && !region.isStack && !HoldsTop(r.globals.regions, i, Tops(r))
    && g.Known? && region.caller != 0
    && exists c :: 0 <= c < |g.ranges| && g.ranges[c].start < region.caller < g.ranges[c].end
  }

  ghost predicate RegisterWord(r: Roots, a: int)
  {
    exists x :: x in r.stacks.registers && x.ptr <= a && a + 8 <= x.ptr + x.size
  }

  /** The eight bytes at a are read as a root. */
  ghost predicate RootWord(r: Roots, a: int)
  {
    AnyStackWord(Unregistered(r), Tops(r), r.stacks.growsDown, a, 8) || RegisterWord(r, a) || GlobalWord(r, a)
  }

  /** The check was told of the object: by name, by a mark, or by where it comes from. */
  predicate Named(o: Heap, r: Roots, k: int)
  {
    k in o && ((exists i :: 0 <= i < |r.ignored| && r.ignored[i].0 == k)
               || o[k].Ignore() || r.disabled(k, AllocInfo(o[k].bytes, o[k].Slot(), o[k].Ignore())))
  }

  /** A word of some root that is no heap object. */
  ghost predicate WordOf(roots: set<AllocObject>, a: int)
  {
    exists x :: x in roots && !x.place.MustBeOnHeap? && x.ptr <= a && a + 8 <= x.ptr + x.size
  }

  ghost predicate HeapRoot(roots: set<AllocObject>, x: AllocObject)
  {
    x in roots && x.place.MustBeOnHeap?
  }

  // ---------- Batch by batch ----------

  lemma WordOfUnion(s: set<AllocObject>, t: set<AllocObject>)
    ensures forall a :: WordOf(s + t, a) <==> WordOf(s, a) || WordOf(t, a)
    ensures forall x :: HeapRoot(s + t, x) <==> HeapRoot(s, x) || HeapRoot(t, x)
  {
  }

  lemma PiecesAre(s: seq<Mapped.Piece>, place: ObjectPlacement)
    requires !place.MustBeOnHeap?
    ensures forall a :: WordOf(Elems(AsObjects(s, place)), a) <==> Lies(s, a, 8)
    ensures forall x :: !HeapRoot(Elems(AsObjects(s, place)), x)
  {
    ObjectsAre(s, place);
    var t := AsObjects(s, place);
    hide AsObjects;
    forall a | Lies(s, a, 8)
      ensures WordOf(Elems(t), a)
    {
      var i :| 0 <= i < |s| && Within(s[i], a, 8);
      assert t[i] in Elems(t);
    }
    forall a | WordOf(Elems(t), a)
      ensures Lies(s, a, 8)
    {
      var x :| x in Elems(t) && x.ptr <= a && a + 8 <= x.ptr + x.size;
      var i :| 0 <= i < |t| && t[i] == x;
      assert Within(s[i], a, 8);
    }
  }

  lemma RegistersAre(r: Roots)
    requires RootsGiven(r)
    ensures forall a :: WordOf(Elems(r.stacks.registers), a) <==> RegisterWord(r, a)
    ensures forall x :: !HeapRoot(Elems(r.stacks.registers), x)
  {
    hide Mapped.MappingOk;
    forall a
      ensures WordOf(Elems(r.stacks.registers), a) <==> RegisterWord(r, a)
    {
      if x :| x in r.stacks.registers && x.ptr <= a && a + 8 <= x.ptr + x.size {
        assert x in Elems(r.stacks.registers);
      }
    }
  }

  lemma {:induction false} IgnoredAre(ignored: seq<(nat, nat)>, x: AllocObject)
    ensures x in Elems(IgnoredRoots(ignored)) <==>
            exists i :: 0 <= i < |ignored| && x == AllocObject(ignored[i].0, ignored[i].1, MustBeOnHeap)
  {
    if ignored != [] {
      var n := |ignored| - 1;
      IgnoredAre(ignored[..n], x);
      if i :| 0 <= i < n && x == AllocObject(ignored[..n][i].0, ignored[..n][i].1, MustBeOnHeap) {
        assert ignored[..n][i] == ignored[i];
      }
      if i :| 0 <= i < |ignored| && x == AllocObject(ignored[i].0, ignored[i].1, MustBeOnHeap) {
        assert i < n ==> ignored[..n][i] == ignored[i];
      }
    }
  }

  lemma PickedAre(o: Heap, pick: (int, AllocInfo) -> bool, x: AllocObject)
    ensures x in Picked(o, pick) <==>
            x.ptr in o && x == AllocObject(x.ptr, o[x.ptr].bytes, MustBeOnHeap) && pick(x.ptr, InfoOf(o[x.ptr]))
  {
    if x.ptr in o && x == AllocObject(x.ptr, o[x.ptr].bytes, MustBeOnHeap) && pick(x.ptr, InfoOf(o[x.ptr])) {
      assert MustBeLive(o, x.ptr) == x;
    }
  }

  /** The roots that are heap objects are the objects named, in full. */
  lemma NamedAre(o: Heap, r: Roots, x: AllocObject)
    requires StillThere(o, r.ignored)
    ensures var roots := Elems(IgnoredRoots(r.ignored)) + Picked(o, MARKED_AS_IGNORED) + Picked(o, r.disabled);
            && (x in roots <==> Named(o, r, x.ptr) && x == AllocObject(x.ptr, o[x.ptr].bytes, MustBeOnHeap))
            && (forall a :: !WordOf(roots, a))
  {
    forall y
      ensures y in Elems(IgnoredRoots(r.ignored)) ==> y.place.MustBeOnHeap?
      ensures y in Picked(o, MARKED_AS_IGNORED) + Picked(o, r.disabled) ==> y.place.MustBeOnHeap?
    {
      IgnoredAre(r.ignored, y);
    }
    IgnoredAre(r.ignored, x);
    PickedAre(o, MARKED_AS_IGNORED, x);
    PickedAre(o, r.disabled, x);
    hide IgnoredRoots;
    hide Picked;
  }

  ghost predicate ClearOfCuts(g: Globals, a: int)
  {
    forall i | 0 <= i < |g.regions| && Mapped.Subtracted(g.regions[i], g.ranges) :: Clear(g.regions[i], a, 8)
  }

  /** The words read from the first n libraries. */
  lemma {:induction false} LibraryWordsAre(g: Globals, n: nat, a: int)
    requires n <= |g.libraries| && GlobalsOk(g)
    ensures WordOf(GlobalRoots(g, n), a) <==>
            ClearOfCuts(g, a) && exists l :: 0 <= l < n && Lies(g.libraries[l], a, 8)
    ensures forall x :: !HeapRoot(GlobalRoots(g, n), x)
  {
    hide Lies;
    hide WordOf;
    hide HeapRoot;
    hide Elems;
    hide AsObjects;
    hide Mapped.Filtered;
    hide ClearOfCuts;
    hide GlobalsOk;
    if n == 0 {
      NoWords();
    } else {
      LibraryWordsAre(g, n - 1, a);
      OneLibrary(g, n - 1, a);
      WordOfUnion(GlobalRoots(g, n - 1),
                  Elems(AsObjects(Mapped.Filtered(g.libraries[n - 1], g.regions, g.ranges), InGlobalData)));
    }
  }

  lemma NoWords()
    ensures forall a :: !WordOf({}, a)
    ensures forall x :: !HeapRoot({}, x)
  {
  }

  lemma OneLibrary(g: Globals, l: nat, a: int)
    requires l < |g.libraries| && GlobalsOk(g)
    ensures var roots := Elems(AsObjects(Mapped.Filtered(g.libraries[l], g.regions, g.ranges), InGlobalData));
            && (WordOf(roots, a) <==> ClearOfCuts(g, a) && Lies(g.libraries[l], a, 8))
            && (forall x :: !HeapRoot(roots, x))
  {
    PiecesAre(Mapped.Filtered(g.libraries[l], g.regions, g.ranges), InGlobalData);
    FilteredKeepsWords(g.libraries[l], g.regions, g.ranges, a, 8);
    hide Lies;
    hide WordOf;
    hide HeapRoot;
    hide Mapped.Filtered;
    hide Mapped.Subtracted;
  }

  // ---------- All batches ----------

  /** The mapping that the registration of all stacks leaves. */
  lemma AfterStacks(r: Roots, a: int)
    requires RootsGiven(r) && MapsApart(r)
    ensures var m, tops, down := Unregistered(r), Tops(r), r.stacks.growsDown; var rest := RestOfGlobals(r);
            && (AnyStackWord(m, tops, down, a, 8) <==> Lies(AtOthers(r).live, a, 8) || Lies(AtSelf(r).live, a, 8))
            && |rest.libraries| == |r.globals.libraries| && |rest.regions| == |r.globals.regions|
            && (forall l {:trigger rest.libraries[l]} | 0 <= l < |rest.libraries| ::
                  Lies(rest.libraries[l], a, 8) <==>
                  Lies(r.globals.libraries[l], a, 8) && LeavesWord(m, tops, down, l, a, 8))
            && (forall i {:trigger rest.regions[i]} | 0 <= i < |rest.regions| ::
                  var was := r.globals.regions[i];
                  rest.regions[i] == was.(isStack := was.isStack || HoldsTop(r.globals.regions, i, tops)))
  {
    hide Lies;
    hide AnyStackWord;
    hide LeavesWord;
    hide HoldsTop;
    hide FoundIn;
    hide LibrariesApart;
    hide Mapped.MappingOk;
    hide Mapped.Registered;
    hide Mapped.RegisteredAll;
    var m, tops, down := Unregistered(r), Tops(r), r.stacks.growsDown;
    var k := |tops| - 1;
    assert tops[..k] == r.stacks.others;
    RegisteredAllWords(m, r.stacks.others, down, a, 8);
    var before := AtOthers(r);
    WithoutLive(before, tops[k], down, a);
    RegisteredWords(before.(live := []), tops[k], down, a, 8);
    assert !Lies([], a, 8) by { NothingLies(a); }
    SameRegions(m.regions, before.regions, tops[k]);
    OneMoreStack(m, tops, down, 0, 0, a, 8);
    forall l
      ensures LeavesWord(m, tops, down, l, a, 8) <==>
              LeavesWord(m, r.stacks.others, down, l, a, 8) && NoneTaken(before, tops[k], l, a, 8)
    {
      OneMoreStack(m, tops, down, l, 0, a, 8);
    }
    forall i
      ensures HoldsTop(m.regions, i, tops) <==>
              HoldsTop(m.regions, i, r.stacks.others) || FoundIn(before.regions, i, tops[k])
    {
      OneMoreStack(m, tops, down, 0, i, a, 8);
    }
  }

  lemma NothingLies(a: int)
    ensures !Lies([], a, 8)
  {
  }

  lemma WithoutLive(m: Mapped.Mapping, top: int, down: bool, a: int)
    ensures Mapped.MappingOk(m) ==> Mapped.MappingOk(m.(live := []))
    ensures StackWord(m.(live := []), top, down, a, 8) <==> StackWord(m, top, down, a, 8)
    ensures forall l :: NoneTaken(m.(live := []), top, l, a, 8) <==> NoneTaken(m, top, l, a, 8)
  {
    hide StackHolds;
    hide TakenFrom;
    var m' := m.(live := []);
    forall x | StackWord(m', top, down, a, 8) && a <= x < a + 8
      ensures StackHolds(m.regions, m.libs, top, x) && Mapped.InUseAt(top, down, x)
    {
      assert StackHolds(m'.regions, m'.libs, top, x);
    }
    forall x | StackWord(m, top, down, a, 8) && a <= x < a + 8
      ensures StackHolds(m'.regions, m'.libs, top, x) && Mapped.InUseAt(top, down, x)
    {
      assert StackHolds(m.regions, m.libs, top, x);
    }
  }

  lemma StackRootsAre(r: Roots, a: int)
    requires RootsGiven(r) && MapsApart(r)
    ensures WordOf(StackRoots(r), a) <==>
            AnyStackWord(Unregistered(r), Tops(r), r.stacks.growsDown, a, 8) || RegisterWord(r, a)
    ensures forall x :: !HeapRoot(StackRoots(r), x)
  {
    AfterStacks(r, a);
    RegistersAre(r);
    PiecesAre(AtOthers(r).live, ThreadData);
    PiecesAre(AtSelf(r).live, ThreadData);
    NoWords();
    var others, self := Elems(AsObjects(AtOthers(r).live, ThreadData)), Elems(AsObjects(AtSelf(r).live, ThreadData));
    WordOfUnion({}, others);
    WordOfUnion({} + others, Elems(r.stacks.registers));
    WordOfUnion({} + others + Elems(r.stacks.registers), self);
    hide WordOf;
    hide HeapRoot;
    hide Lies;
    hide AtOthers;
    hide AtSelf;
    hide Elems;
    hide AsObjects;
    hide AnyStackWord;
    hide RootsGiven;
  }

  lemma GlobalRootsWords(r: Roots, a: int)
    requires RootsGiven(r) && MapsApart(r)
    ensures var g := RestOfGlobals(r);
            && (WordOf(GlobalRoots(g, |g.libraries|), a) <==> GlobalWord(r, a))
            && (forall x :: !HeapRoot(GlobalRoots(g, |g.libraries|), x))
  {
    var g := RestOfGlobals(r);
    RegisteredRoots(map[], r);
    AfterStacks(r, a);
    LibraryWordsAre(g, |g.libraries|, a);
    CutsAre(r, a);
    hide RestOfGlobals;
    hide GlobalRoots;
    hide WordOf;
    hide HeapRoot;
    hide Lies;
    hide LeavesWord;
    hide AnyStackWord;
    hide ClearOfCuts;
    hide Stays;
    hide RootsGiven;
    hide GlobalsOk;
    if GlobalWord(r, a) {
      var l :| 0 <= l < |r.globals.libraries| && Lies(r.globals.libraries[l], a, 8)
               && LeavesWord(Unregistered(r), Tops(r), r.stacks.growsDown, l, a, 8);
      assert Lies(g.libraries[l], a, 8);
    }
    if l :| 0 <= l < |g.libraries| && Lies(g.libraries[l], a, 8) {
      assert Lies(r.globals.libraries[l], a, 8);
    }
  }

  lemma CutsAre(r: Roots, a: int)
    requires RootsGiven(r) && MapsApart(r)
    ensures ClearOfCuts(RestOfGlobals(r), a) <==>
            forall i | 0 <= i < |r.globals.regions| :: Clear(r.globals.regions[i], a, 8) || Stays(r, i)
  {
    AfterStacks(r, a);
    var g := RestOfGlobals(r);
    forall i | 0 <= i < |g.regions|
      ensures Mapped.Subtracted(g.regions[i], g.ranges) <==> !Stays(r, i)
      ensures Clear(g.regions[i], a, 8) <==> Clear(r.globals.regions[i], a, 8)
    {
      Mapped.RegionStaysIff(g.regions[i], g.ranges);
    }
    hide AtSelf;
    hide AtOthers;
    hide Stays;
    hide Mapped.Subtracted;
    hide Lies;
    hide LeavesWord;
    hide AnyStackWord;
    hide HoldsTop;
  }

  /** The check floods from exactly these: the words read as roots, and the objects named. */
  lemma AllRootsAre(o: Heap, r: Roots, a: int, x: AllocObject)
    requires RootsGiven(r) && MapsApart(r) && StillThere(o, r.ignored)
    ensures WordOf(AllRoots(o, r), a) <==> RootWord(r, a)
    ensures HeapRoot(AllRoots(o, r), x) <==>
            Named(o, r, x.ptr) && x == AllocObject(x.ptr, o[x.ptr].bytes, MustBeOnHeap)
  {
    hide StackRoots;
    hide GlobalRoots;
    hide RestOfGlobals;
    hide Elems;
    hide Picked;
    hide Named;
    StackRootsAre(r, a);
    NamedAre(o, r, x);
    GlobalRootsWords(r, a);
    hide RootsGiven;
    hide MapsApart;
    hide GlobalWord;
    hide RegisterWord;
    hide AnyStackWord;
    var g := RestOfGlobals(r);
    var ignored, marked, disabled := Elems(IgnoredRoots(r.ignored)), Picked(o, MARKED_AS_IGNORED),
      Picked(o, r.disabled);
    var s, n, all := StackRoots(r), ignored + marked + disabled, GlobalRoots(g, |g.libraries|);
    assert AllRoots(o, r) == s + n + all;
    WordOfUnion(s, n);
    WordOfUnion(s + n, all);
    hide WordOf;
    assert HeapRoot(n, x) <==> x in n && x.place.MustBeOnHeap?;
    hide HeapRoot;
  }

  // ---------- The verdict ----------

  /** The word at a is at a multiple of the alignment, and its value points at or into q. */
  ghost predicate PointsAt(o: Heap, w: Scan, a: int, q: int)
  {
    w.align > 0 && a % w.align == 0 && w.maxSize >= 0 && Resolve(o, SizeOf, w.maxSize, w.load(a)) == Some(q)
  }

  ghost predicate PointsFrom(o: Heap, w: Scan, p: int, q: int)
    requires p in o
  {
    exists a :: p <= a && a + 8 <= p + o[p].bytes && PointsAt(o, w, a, q)
  }

  /** Objects, the first one named or pointed at by a root word, each other one pointed at
      by a word of the one before. */
  ghost predicate Leads(o: Heap, w: Scan, r: Roots, path: seq<int>)
  {
    && path != [] && (forall i | 0 <= i < |path| :: path[i] in o)
    && (Named(o, r, path[0]) || exists a :: RootWord(r, a) && PointsAt(o, w, a, path[0]))
    && forall i | 0 <= i < |path| - 1 :: PointsFrom(o, w, path[i], path[i + 1])
  }

  lemma RefersIs(o: Heap, w: Scan, p: int, size: int, q: int)
    ensures Refers(o, w, p, size, q) <==> exists a :: p <= a && a + 8 <= p + size && PointsAt(o, w, a, q)
  {
    hide Resolve;
    if Refers(o, w, p, size, q) {
      var a :| Word(w.align, p, size, a) && Target(o, w, a) == Some(q);
      assert PointsAt(o, w, a, q);
    }
    if a :| p <= a && a + 8 <= p + size && PointsAt(o, w, a, q) {
      assert Word(w.align, p, size, a) && Target(o, w, a) == Some(q);
    }
  }

  /** How the roots reach an object at once: by its name, by a word of theirs, or by a word
      of an object named. */
  lemma RootedLeads(o: Heap, w: Scan, r: Roots, q: int) returns (k: int)
    requires RootsGiven(r) && MapsApart(r) && StillThere(o, r.ignored) && Rooted(o, w, AllRoots(o, r), q)
    ensures || Named(o, r, q)
            || (exists a :: RootWord(r, a) && PointsAt(o, w, a, q))
            || (Named(o, r, k) && PointsFrom(o, w, k, q))
  {
    var roots := AllRoots(o, r);
    var x :| x in roots && ((x.place.MustBeOnHeap? && x.ptr == q) || Refers(o, w, x.ptr, x.size, q));
    k := x.ptr;
    AllRootsAre(o, r, 0, x);
    RefersIs(o, w, x.ptr, x.size, q);
    hide AllRoots;
    hide RootWord;
    hide Refers;
    hide PointsAt;
    hide Named;
    hide RootsGiven;
    if x.place.MustBeOnHeap? {
      assert HeapRoot(roots, x);
    } else {
      var a :| x.ptr <= a && a + 8 <= x.ptr + x.size && PointsAt(o, w, a, q);
      assert WordOf(roots, a);
      AllRootsAre(o, r, a, x);
    }
  }

  lemma PathLeads(o: Heap, w: Scan, r: Roots, path: seq<int>) returns (leads: seq<int>)
    requires RootsGiven(r) && MapsApart(r) && StillThere(o, r.ignored) && Path(o, w, AllRoots(o, r), path)
    ensures Leads(o, w, r, leads) && leads[|leads| - 1] == path[|path| - 1]
  {
    hide AllRoots;
    hide RootWord;
    hide Refers;
    hide Rooted;
    hide PointsAt;
    hide PointsFrom;
    hide RootsGiven;
    var k := RootedLeads(o, w, r, path[0]);
    forall i | 0 <= i < |path| - 1
      ensures PointsFrom(o, w, path[i], path[i + 1])
    {
      PointsFromIs(o, w, path[i], path[i + 1]);
    }
    leads := path;
    if !Leads(o, w, r, path) {
      leads := [k] + path;
      forall i | 0 <= i < |leads| - 1
        ensures PointsFrom(o, w, leads[i], leads[i + 1])
      {
        assert i > 0 ==> PointsFrom(o, w, path[i - 1], path[i - 1 + 1]);
      }
    }
  }

  lemma PointsFromIs(o: Heap, w: Scan, p: int, q: int)
    requires p in o
    ensures PointsFrom(o, w, p, q) <==> Refers(o, w, p, o[p].bytes, q)
  {
    RefersIs(o, w, p, o[p].bytes, q);
    hide PointsAt;
  }

  lemma LeadsIsPath(o: Heap, w: Scan, r: Roots, path: seq<int>)
    requires RootsGiven(r) && MapsApart(r) && StillThere(o, r.ignored) && Leads(o, w, r, path)
    ensures Path(o, w, AllRoots(o, r), path)
  {
    var roots := AllRoots(o, r);
    forall i | 0 <= i < |path| - 1
      ensures Refers(o, w, path[i], o[path[i]].bytes, path[i + 1])
    {
      PointsFromIs(o, w, path[i], path[i + 1]);
    }
    hide AllRoots;
    hide RootWord;
    hide Refers;
    hide PointsAt;
    hide PointsFrom;
    hide Named;
    hide RootsGiven;
    if Named(o, r, path[0]) {
      var x := AllocObject(path[0], o[path[0]].bytes, MustBeOnHeap);
      AllRootsAre(o, r, 0, x);
      assert HeapRoot(roots, x);
      assert Rooted(o, w, roots, path[0]);
    } else {
      var a :| RootWord(r, a) && PointsAt(o, w, a, path[0]);
      AllRootsAre(o, r, a, AllocObject(0, 0, InGlobalData));
      var x :| x in roots && !x.place.MustBeOnHeap? && x.ptr <= a && a + 8 <= x.ptr + x.size;
      RefersIs(o, w, x.ptr, x.size, path[0]);
      assert Rooted(o, w, roots, path[0]);
    }
  }

  /** A recorded object is not reported exactly if it was there at the start, or the objects
      named and the words of stacks, registers and global data lead to it. */
  lemma NotReportedIff(o: Heap, w: Scan, r: Roots, base: set<int>, q: int)
    requires RootsGiven(r) && MapsApart(r) && StillThere(o, r.ignored) && q in o
    ensures q !in Leaks(o, w, r, base) <==>
            q in base || exists path :: Leads(o, w, r, path) && path[|path| - 1] == q
  {
    hide AllRoots;
    hide RootsGiven;
    if path :| Path(o, w, AllRoots(o, r), path) && path[|path| - 1] == q {
      var leads := PathLeads(o, w, r, path);
    }
    if path :| Leads(o, w, r, path) && path[|path| - 1] == q {
      LeadsIsPath(o, w, r, path);
    }
    hide Path;
    hide Leads;
  }
}
