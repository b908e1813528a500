/** Which words of memory the leak check reads from stacks and global data: the same
    statements as for addresses, for stretches of n bytes that must lie in one interval. */
module MappedWords {
  import opened RegionSubtraction

  predicate Within(p: Piece, a: int, n: int)
  {
    p.ptr <= a && a + n <= p.ptr + p.size
  }

  /** [a, a + n) lies in one of the intervals. */
  ghost predicate Lies(s: seq<Piece>, a: int, n: int)
  {
    exists i :: 0 <= i < |s| && Within(s[i], a, n)
  }

  /** No byte of [a, a + n) is in the region. */
  predicate Clear(r: Region, a: int, n: int)
  {
    a + n <= r.start || r.end <= a
  }

  lemma LiesConcat(s: seq<Piece>, t: seq<Piece>, a: int, n: int)
    ensures Lies(s + t, a, n) <==> Lies(s, a, n) || Lies(t, a, n)
  {
    if Lies(s, a, n) {
      var i :| 0 <= i < |s| && Within(s[i], a, n);
      assert Within((s + t)[i], a, n);
    }
    if Lies(t, a, n) {
      var i :| 0 <= i < |t| && Within(t[i], a, n);
      assert Within((s + t)[|s| + i], a, n);
    }
    if Lies(s + t, a, n) {
      var i :| 0 <= i < |s + t| && Within((s + t)[i], a, n);
      assert i < |s| ==> Within(s[i], a, n);
      assert i >= |s| ==> Within(t[i - |s|], a, n);
    }
  }

  lemma LiesOne(p: Piece, a: int, n: int)
    ensures Lies([p], a, n) <==> Within(p, a, n)
  {
    assert Within([p][0], a, n) <==> Within(p, a, n);
  }

  // ---------- What regions leave ----------

  lemma CutKeepsWords(p: Piece, r: Region, a: int, n: int)
    requires n > 0 && r.start <= r.end
    ensures Lies(Cut(p, r), a, n) <==> Within(p, a, n) && Clear(r, a, n)
  {
    var c := Cut(p, r);
    assert |c| >= 1 ==> (Within(c[0], a, n) ==> Lies(c, a, n));
    assert |c| >= 2 ==> (Within(c[1], a, n) ==> Lies(c, a, n));
    if Lies(c, a, n) {
      var i :| 0 <= i < |c| && Within(c[i], a, n);
    }
  }

  lemma {:induction false} CutAllKeepsWords(s: seq<Piece>, r: Region, a: int, n: int)
    requires n > 0 && r.start <= r.end
    ensures Lies(CutAll(s, r), a, n) <==> Lies(s, a, n) && Clear(r, a, n)
  {
    if s != [] {
      var k := |s| - 1;
      assert s == s[..k] + [s[k]];
      CutAllKeepsWords(s[..k], r, a, n);
      CutKeepsWords(s[k], r, a, n);
      LiesConcat(CutAll(s[..k], r), Cut(s[k], r), a, n);
      LiesConcat(s[..k], [s[k]], a, n);
      LiesOne(s[k], a, n);
    }
  }

  /** A stretch of bytes is left in one interval exactly if it was in one and no byte of it
      is in a subtracted region. */
  lemma {:induction false} FilteredKeepsWords(s: seq<Piece>, regions: seq<Region>, g: Ranges, a: int, n: int)
    requires n > 0 && RegionsOk(regions)
    ensures Lies(Filtered(s, regions, g), a, n) <==>
            Lies(s, a, n) && forall i | 0 <= i < |regions| && Subtracted(regions[i], g) :: Clear(regions[i], a, n)
  {
    if regions != [] {
      var k := |regions| - 1;
      FilteredKeepsWords(s, regions[..k], g, a, n);
      CutAllKeepsWords(Filtered(s, regions[..k], g), regions[k], a, n);
      assert forall i | 0 <= i < k :: regions[..k][i] == regions[i];
    }
  }

  // ---------- What stacks leave ----------

  /** No region lies between the top and x. */
  ghost predicate Beside(regions: seq<Region>, top: int, x: int)
  {
    forall i | 0 <= i < |regions| ::
      && (regions[i].end <= top ==> regions[i].end <= x)
      && (top < regions[i].start ==> x < regions[i].start)
  }

  lemma {:induction false} ChoppedHolds(p: Piece, top: int, regions: seq<Region>, x: int)
    ensures In(Chopped(p, top, regions), x) <==> In(p, x) && Beside(regions, top, x)
  {
    if regions != [] {
      var k := |regions| - 1;
      ChoppedHolds(p, top, regions[..k], x);
      assert forall i | 0 <= i < k :: regions[..k][i] == regions[i];
    }
  }

  /** Address x is in the stack that is taken out of library l for the top: around the top,
      in one interval with it, and no region between them. */
  ghost predicate TakenFrom(regions: seq<Region>, libs: seq<seq<Piece>>, top: int, l: int, x: int)
  {
    && !Findable(regions, top) && 0 <= l < |libs| && (forall h | 0 <= h < l :: !Holds(libs[h], top))
    && (exists i :: 0 <= i < |libs[l]| && In(libs[l][i], top) && In(libs[l][i], x)) && Beside(regions, top, x)
  }

  /** Address x is in the stack with that top: in the region that holds the top if it can be
      found, and otherwise around it in the first library that holds it. */
  ghost predicate StackHolds(regions: seq<Region>, libs: seq<seq<Piece>>, top: int, x: int)
  {
    if Findable(regions, top) then
      exists i :: 0 <= i < |regions| && InRegion(regions[i], top) && InRegion(regions[i], x)
    else
      exists l :: TakenFrom(regions, libs, top, l, x)
  }

  ghost predicate StackWord(m: Mapping, top: int, growsDown: bool, a: int, n: int)
  {
    forall x {:trigger StackHolds(m.regions, m.libs, top, x)} | a <= x < a + n ::
      StackHolds(m.regions, m.libs, top, x) && InUseAt(top, growsDown, x)
  }

  /** The stack has no byte of [a, a + n) in library l. */
  ghost predicate NoneTaken(m: Mapping, top: int, l: int, a: int, n: int)
  {
    forall x {:trigger TakenFrom(m.regions, m.libs, top, l, x)} | a <= x < a + n ::
      !TakenFrom(m.regions, m.libs, top, l, x)
  }

  /** The region that the lookup of the top finds. */
  ghost predicate FoundIn(regions: seq<Region>, i: int, top: int)
  {
    0 <= i < |regions| && InRegion(regions[i], top) && Findable(regions, top)
  }

  /** The maps of a process do not overlap. */
  ghost predicate LibrariesApart(libs: seq<seq<Piece>>)
  {
    forall l {:trigger libs[l]} | 0 <= l < |libs| :: Disjoint(libs[l])
  }

  /** A stack leaves, of its library, the stretches without a byte in it. */
  lemma PutBackKeepsWords(s: seq<Piece>, i: nat, stack: Piece, a: int, n: int)
    requires n > 0 && i < |s| && stack.size > 0 && s[i].ptr <= stack.ptr
             && stack.ptr + stack.size <= s[i].ptr + s[i].size
    requires Disjoint(s)
    ensures Lies(PutBack(s, i, stack), a, n) <==> Lies(s, a, n) && forall x | a <= x < a + n :: !In(stack, x)
  {
    var r := Region(stack.ptr, stack.ptr + stack.size, true, 0);
    PutBackHolds(s, i, stack);
    OthersApart(s, i);
    var others := s[..i] + s[i + 1..];
    assert s == s[..i] + ([s[i]] + s[i + 1..]);
    LiesConcat(s[..i], [s[i]] + s[i + 1..], a, n);
    LiesConcat([s[i]], s[i + 1..], a, n);
    LiesConcat(s[..i], s[i + 1..], a, n);
    LiesOne(s[i], a, n);
    LiesConcat(others, Cut(s[i], r), a, n);
    CutKeepsWords(s[i], r, a, n);
    if Lies(others, a, n) {
      forall x | a <= x < a + n
        ensures !In(stack, x)
      {
        WordIsHeld(others, a, n, x);
        assert In(stack, x) ==> In(s[i], x);
      }
    }
    if !Clear(r, a, n) {
      assert In(stack, if a <= stack.ptr then stack.ptr else a);
    }
  }

  lemma WordIsHeld(s: seq<Piece>, a: int, n: int, x: int)
    requires Lies(s, a, n) && a <= x < a + n
    ensures Holds(s, x)
  {
    var i :| 0 <= i < |s| && Within(s[i], a, n);
    assert In(s[i], x);
  }

  lemma LivePartWords(stack: Piece, top: int, growsDown: bool, a: int, n: int)
    requires n > 0 && In(stack, top)
    ensures Within(LivePart(stack, top, growsDown), a, n) <==>
            forall x {:trigger In(stack, x)} | a <= x < a + n :: In(stack, x) && InUseAt(top, growsDown, x)
  {
    var live := LivePart(stack, top, growsDown);
    LivePartHolds(stack, top, growsDown);
    hide LivePart;
    if Within(live, a, n) {
      forall x | a <= x < a + n
        ensures In(stack, x) && InUseAt(top, growsDown, x)
      {
        assert In(live, x);
      }
    }
    if forall x {:trigger In(stack, x)} | a <= x < a + n :: In(stack, x) && InUseAt(top, growsDown, x) {
      assert In(stack, a) && In(stack, a + n - 1);
      assert In(live, a) && In(live, a + n - 1);
    }
  }

  /** The stack of a top is an interval: the region found, or what is chopped out. */
  lemma RegionStackIs(m: Mapping, top: int, x: int)
    requires MappingOk(m) && Findable(m.regions, top)
    ensures Found(m.regions, top) < |m.regions|
    ensures var r := m.regions[Found(m.regions, top)];
            StackHolds(m.regions, m.libs, top, x) <==> In(Piece(r.start, r.end - r.start), x)
  {
    FoundIffFindable(m.regions, top);
  }

  lemma OneHolds(s: seq<Piece>, i: nat, j: nat, a: int)
    requires Disjoint(s) && i < |s| && j < |s| && In(s[i], a) && In(s[j], a)
    ensures i == j
  {
  }

  lemma LibraryStackIs(m: Mapping, top: int, x: int)
    requires MappingOk(m) && LibrariesApart(m.libs) && !Findable(m.regions, top)
    ensures var l := FirstLibrary(m.libs, top);
            && (forall h :: TakenFrom(m.regions, m.libs, top, h, x) ==> h == l < |m.libs|)
            && (l < |m.libs| ==>
                  && FirstHolding(m.libs[l], top) < |m.libs[l]|
                  && (TakenFrom(m.regions, m.libs, top, l, x) <==>
                        In(Chopped(m.libs[l][FirstHolding(m.libs[l], top)], top, m.regions), x)))
  {
    hide FirstLibrary;
    hide FirstHolding;
    hide Chopped;
    hide Findable;
    hide MappingOk;
    hide Beside;
    var l := FirstLibrary(m.libs, top);
    if l < |m.libs| {
      HoldsFirst(m.libs[l], top);
      var i := FirstHolding(m.libs[l], top);
      ChoppedHolds(m.libs[l][i], top, m.regions, x);
      if j :| 0 <= j < |m.libs[l]| && In(m.libs[l][j], top) && In(m.libs[l][j], x) {
        OneHolds(m.libs[l], i, j, top);
      }
    }
  }

  /** What a stack makes live: the stretches that lie in it, on the side of its top that is
      in use. What it leaves of the libraries: the stretches without a byte in it. Which
      region it marks: the one that holds its top, if that can be found. */
  lemma RegisteredWords(m: Mapping, top: int, growsDown: bool, a: int, n: int)
    requires MappingOk(m) && LibrariesApart(m.libs) && n > 0
    ensures var r := Registered(m, top, growsDown);
            && MappingOk(r) && LibrariesApart(r.libs) && |r.libs| == |m.libs| && |r.regions| == |m.regions|
            && (Lies(r.live, a, n) <==> Lies(m.live, a, n) || StackWord(m, top, growsDown, a, n))
            && (forall l {:trigger r.libs[l]} | 0 <= l < |m.libs| ::
                  Lies(r.libs[l], a, n) <==> Lies(m.libs[l], a, n) && NoneTaken(m, top, l, a, n))
            && (forall i {:trigger r.regions[i]} | 0 <= i < |m.regions| ::
                  r.regions[i] == m.regions[i].(isStack := m.regions[i].isStack || FoundIn(m.regions, i, top)))
  {
    if Findable(m.regions, top) {
      RegionWords(m, top, growsDown, a, n);
    } else {
      LibraryWords(m, top, growsDown, a, n);
    }
    RegisteredIsOk(m, top, growsDown);
    hide Registered;
    hide StackWord;
    hide TakenFrom;
    hide Lies;
    hide Disjoint;
    hide Findable;
    hide MappingOk;
  }

  lemma RegionWords(m: Mapping, top: int, growsDown: bool, a: int, n: int)
    requires MappingOk(m) && Findable(m.regions, top) && n > 0
    ensures var r := Registered(m, top, growsDown);
            && r.libs == m.libs && |r.regions| == |m.regions|
            && (Lies(r.live, a, n) <==> Lies(m.live, a, n) || StackWord(m, top, growsDown, a, n))
            && (forall l :: NoneTaken(m, top, l, a, n))
            && (forall i {:trigger r.regions[i]} | 0 <= i < |m.regions| ::
                  r.regions[i] == m.regions[i].(isStack := m.regions[i].isStack || FoundIn(m.regions, i, top)))
  {
    RegionIsRegistered(m, top, growsDown);
    RegionStackIs(m, top, top);
    var r := m.regions[Found(m.regions, top)];
    var stack := Piece(r.start, r.end - r.start);
    forall x
      ensures StackHolds(m.regions, m.libs, top, x) <==> In(stack, x)
    {
      RegionStackIs(m, top, x);
    }
    LivePartWords(stack, top, growsDown, a, n);
    LiesConcat(m.live, [LivePart(stack, top, growsDown)], a, n);
    LiesOne(LivePart(stack, top, growsDown), a, n);
    hide StackHolds;
    hide Lies;
  }

  lemma NotFound(m: Mapping, top: int)
    requires MappingOk(m) && !Findable(m.regions, top)
    ensures Found(m.regions, top) == |m.regions|
  {
    FoundIffFindable(m.regions, top);
  }

  lemma LibraryWords(m: Mapping, top: int, growsDown: bool, a: int, n: int)
    requires MappingOk(m) && LibrariesApart(m.libs) && !Findable(m.regions, top) && n > 0
    ensures var r := Registered(m, top, growsDown);
            && r.regions == m.regions && |r.libs| == |m.libs| && LibrariesApart(r.libs)
            && (Lies(r.live, a, n) <==> Lies(m.live, a, n) || StackWord(m, top, growsDown, a, n))
            && (forall l {:trigger r.libs[l]} | 0 <= l < |m.libs| ::
                  Lies(r.libs[l], a, n) <==> Lies(m.libs[l], a, n) && NoneTaken(m, top, l, a, n))
  {
    hide TakenFrom;
    hide Findable;
    hide Lies;
    hide Disjoint;
    hide Chopped;
    hide LivePart;
    hide PutBack;
    hide FirstHolding;
    hide FirstLibrary;
    hide MappingOk;
    NotFound(m, top);
    LibraryStackIsRegistered(m, top, growsDown);
    var l := FirstLibrary(m.libs, top);
    forall h, x
      ensures TakenFrom(m.regions, m.libs, top, h, x) ==> h == l < |m.libs|
    {
      LibraryStackIs(m, top, x);
    }
    if l < |m.libs| {
      var i := FirstHolding(m.libs[l], top);
      HoldsFirst(m.libs[l], top);
      var stack := Chopped(m.libs[l][i], top, m.regions);
      ChoppedIsInside(m.libs[l][i], top, m.regions);
      forall x
        ensures StackHolds(m.regions, m.libs, top, x) <==> In(stack, x)
        ensures TakenFrom(m.regions, m.libs, top, l, x) <==> In(stack, x)
      {
        LibraryStackIs(m, top, x);
      }
      LivePartWords(stack, top, growsDown, a, n);
      LiesConcat(m.live, [LivePart(stack, top, growsDown)], a, n);
      LiesOne(LivePart(stack, top, growsDown), a, n);
      PutBackKeepsWords(m.libs[l], i, stack, a, n);
      if StackWord(m, top, growsDown, a, n) {
        forall x | a <= x < a + n
          ensures In(stack, x) && InUseAt(top, growsDown, x)
        {
          assert StackHolds(m.regions, m.libs, top, x);
        }
      }
      if NoneTaken(m, top, l, a, n) {
        forall x | a <= x < a + n
          ensures !In(stack, x)
        {
          assert !TakenFrom(m.regions, m.libs, top, l, x);
        }
      }
    } else {
      assert !StackHolds(m.regions, m.libs, top, a);
    }
  }

  /** The stretch is in use in one of the stacks, each looked up in what those before it
      have left. */
  ghost predicate AnyStackWord(m: Mapping, tops: seq<int>, growsDown: bool, a: int, n: int)
  {
    exists j {:trigger tops[j]} ::
        0 <= j < |tops| && StackWord(RegisteredAll(m, tops[..j], growsDown), tops[j], growsDown, a, n)
  }

  /** No stack has a byte of the stretch in library l. */
  ghost predicate LeavesWord(m: Mapping, tops: seq<int>, growsDown: bool, l: int, a: int, n: int)
  {
    forall j {:trigger tops[j]} | 0 <= j < |tops| :: NoneTaken(RegisteredAll(m, tops[..j], growsDown), tops[j], l, a, n)
  }

  /** One of the tops is found in region i. */
  ghost predicate HoldsTop(regions: seq<Region>, i: int, tops: seq<int>)
  {
    exists j :: 0 <= j < |tops| && FoundIn(regions, i, tops[j])
  }

  lemma OneMoreStack(m: Mapping, tops: seq<int>, growsDown: bool, l: int, i: int, a: int, n: int)
    requires tops != []
    ensures var k := |tops| - 1; var before := RegisteredAll(m, tops[..k], growsDown);
            && (AnyStackWord(m, tops, growsDown, a, n) <==>
                  AnyStackWord(m, tops[..k], growsDown, a, n) || StackWord(before, tops[k], growsDown, a, n))
            && (LeavesWord(m, tops, growsDown, l, a, n) <==>
                  LeavesWord(m, tops[..k], growsDown, l, a, n) && NoneTaken(before, tops[k], l, a, n))
            && (HoldsTop(m.regions, i, tops) <==>
                  HoldsTop(m.regions, i, tops[..k]) || FoundIn(m.regions, i, tops[k]))
  {
    hide StackWord;
    hide NoneTaken;
    hide FoundIn;
    hide RegisteredAll;
    var k := |tops| - 1;
    assert forall j {:trigger tops[j]} | 0 <= j < k :: tops[..k][j] == tops[j] && tops[..k][..j] == tops[..j];
    if j :| 0 <= j < |tops| && FoundIn(m.regions, i, tops[j]) {
      assert j < k ==> tops[..k][j] == tops[j];
    }
    if j :| 0 <= j < k && FoundIn(m.regions, i, tops[..k][j]) {
      assert tops[..k][j] == tops[j];
    }
  }

  /** And over all stacks, one after the other, each in what the ones before have left. */
  lemma {:induction false} RegisteredAllWords(m: Mapping, tops: seq<int>, growsDown: bool, a: int, n: int)
    requires MappingOk(m) && LibrariesApart(m.libs) && n > 0
    ensures var r := RegisteredAll(m, tops, growsDown);
            && MappingOk(r) && LibrariesApart(r.libs) && |r.libs| == |m.libs| && |r.regions| == |m.regions|
            && (Lies(r.live, a, n) <==> Lies(m.live, a, n) || AnyStackWord(m, tops, growsDown, a, n))
            && (forall l {:trigger r.libs[l]} | 0 <= l < |m.libs| ::
                  Lies(r.libs[l], a, n) <==> Lies(m.libs[l], a, n) && LeavesWord(m, tops, growsDown, l, a, n))
            && (forall i {:trigger r.regions[i]} | 0 <= i < |m.regions| ::
                  r.regions[i] == m.regions[i].(isStack := m.regions[i].isStack || HoldsTop(m.regions, i, tops)))
  {
    hide Registered;
    hide AnyStackWord;
    hide LeavesWord;
    hide HoldsTop;
    hide StackWord;
    hide NoneTaken;
    hide Lies;
    hide FoundIn;
    hide MappingOk;
    hide LibrariesApart;
    if tops == [] {
      NoStacks(m, tops, growsDown, a, n);
    } else {
      var k := |tops| - 1;
      var before := RegisteredAll(m, tops[..k], growsDown);
      RegisteredAllWords(m, tops[..k], growsDown, a, n);
      RegisteredWords(before, tops[k], growsDown, a, n);
      SameRegions(m.regions, before.regions, tops[k]);
      OneMoreStack(m, tops, growsDown, 0, 0, a, n);
      forall l
        ensures LeavesWord(m, tops, growsDown, l, a, n) <==>
                LeavesWord(m, tops[..k], growsDown, l, a, n) && NoneTaken(before, tops[k], l, a, n)
      {
        OneMoreStack(m, tops, growsDown, l, 0, a, n);
      }
      forall i
        ensures HoldsTop(m.regions, i, tops) <==>
                HoldsTop(m.regions, i, tops[..k]) || FoundIn(before.regions, i, tops[k])
      {
        OneMoreStack(m, tops, growsDown, 0, i, a, n);
      }
    }
  }

  lemma NoStacks(m: Mapping, tops: seq<int>, growsDown: bool, a: int, n: int)
    requires tops == []
    ensures !AnyStackWord(m, tops, growsDown, a, n)
    ensures forall l :: LeavesWord(m, tops, growsDown, l, a, n)
    ensures forall i :: !HoldsTop(m.regions, i, tops)
  {
  }

  /** Marking a region as a stack does not matter to the lookup. */
  lemma SameRegions(s: seq<Region>, t: seq<Region>, top: int)
    requires |s| == |t| && forall i {:trigger t[i]} {:trigger s[i]} | 0 <= i < |s| ::
               s[i].start == t[i].start && s[i].end == t[i].end
    ensures Findable(s, top) <==> Findable(t, top)
    ensures forall i :: FoundIn(s, i, top) <==> FoundIn(t, i, top)
  {
    if i :| 0 <= i < |s| && InRegion(s[i], top) {
      assert InRegion(t[i], top);
    }
    if i :| 0 <= i < |t| && InRegion(t[i], top) {
      assert InRegion(s[i], top);
    }
  }
}
