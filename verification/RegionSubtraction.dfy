/** Which parts of the global data are roots of the leak check: memory regions are
    cut out of the mapped intervals, and thread stacks are chopped out of them. */
module RegionSubtraction {

  /** An interval of addresses that may be live. */
  datatype Piece = Piece(ptr: int, size: int)

  /** A region that the program mapped. Caller 0 stands for an unknown one. */
  datatype Region = Region(start: int, end: int, isStack: bool, caller: int)

  predicate In(p: Piece, a: int)
  {
    p.ptr <= a < p.ptr + p.size
  }

  predicate InRegion(r: Region, a: int)
  {
    r.start <= a < r.end
  }

  /** The addresses that a list of intervals covers. */
  ghost predicate Holds(s: seq<Piece>, a: int)
  {
    exists i :: 0 <= i < |s| && In(s[i], a)
  }

  ghost predicate Apart(p: Piece, q: Piece)
  {
    forall a :: !(In(p, a) && In(q, a))
  }

  ghost predicate Disjoint(s: seq<Piece>)
  {
    forall i, j | 0 <= i < j < |s| :: Apart(s[i], s[j])
  }

  lemma HoldsConcat(s: seq<Piece>, t: seq<Piece>, a: int)
    ensures Holds(s + t, a) <==> Holds(s, a) || Holds(t, a)
  {
    if Holds(s, a) {
      var i :| 0 <= i < |s| && In(s[i], a);
      assert In((s + t)[i], a);
    }
    if Holds(t, a) {
      var i :| 0 <= i < |t| && In(t[i], a);
      assert In((s + t)[|s| + i], a);
    }
    if Holds(s + t, a) {
      var i :| 0 <= i < |s + t| && In((s + t)[i], a);
      assert i < |s| ==> In(s[i], a);
      assert i >= |s| ==> In(t[i - |s|], a);
    }
  }

  // ---------- Cutting a region out of intervals ----------

  /** The five cases of the inner loop. */
  function Cut(p: Piece, r: Region): seq<Piece>
  {
    var start, end := p.ptr, p.ptr + p.size;
    if r.start <= start && end <= r.end then []
    else if start < r.start && r.end < end then [Piece(start, r.start - start), Piece(r.end, end - r.end)]
    else if r.end > start && r.start <= start then [Piece(r.end, end - r.end)]
    else if r.start > start && r.start < end then [Piece(start, r.start - start)]
    else [p]
  }

  function CutAll(s: seq<Piece>, r: Region): seq<Piece>
  {
    if s == [] then [] else CutAll(s[..|s| - 1], r) + Cut(s[|s| - 1], r)
  }

  /** A cut leaves exactly the addresses of the interval outside of the region. */
  lemma CutIsExact(p: Piece, r: Region, a: int)
    requires r.start <= r.end
    ensures Holds(Cut(p, r), a) <==> In(p, a) && !InRegion(r, a)
  {
    var c := Cut(p, r);
    assert |c| >= 1 ==> (In(c[0], a) ==> Holds(c, a));
    assert |c| >= 2 ==> (In(c[1], a) ==> Holds(c, a));
    if Holds(c, a) {
      var i :| 0 <= i < |c| && In(c[i], a);
    }
  }

  lemma {:induction false} CutAllIsExact(s: seq<Piece>, r: Region, a: int)
    requires r.start <= r.end
    ensures Holds(CutAll(s, r), a) <==> Holds(s, a) && !InRegion(r, a)
  {
    if s != [] {
      var n := |s| - 1;
      assert s == s[..n] + [s[n]];
      CutAllIsExact(s[..n], r, a);
      CutIsExact(s[n], r, a);
      HoldsConcat(CutAll(s[..n], r), Cut(s[n], r), a);
      HoldsConcat(s[..n], [s[n]], a);
      assert Holds([s[n]], a) <==> In([s[n]][0], a);
    }
  }

  lemma DisjointConcat(s: seq<Piece>, t: seq<Piece>)
    requires Disjoint(s) && Disjoint(t) && forall a :: !(Holds(s, a) && Holds(t, a))
    ensures Disjoint(s + t)
  {
    forall i, j | 0 <= i < j < |s + t|
      ensures Apart((s + t)[i], (s + t)[j])
    {
      if i < |s| <= j {
        forall a
          ensures !(In(s[i], a) && In(t[j - |s|], a))
        {
          assert In(s[i], a) ==> Holds(s, a);
          assert In(t[j - |s|], a) ==> Holds(t, a);
        }
      }
    }
  }

  lemma DisjointParts(s: seq<Piece>, t: seq<Piece>)
    requires Disjoint(s + t)
    ensures Disjoint(s) && Disjoint(t) && forall a :: !(Holds(s, a) && Holds(t, a))
  {
    forall i, j | 0 <= i < j < |s|
      ensures Apart(s[i], s[j])
    {
      assert Apart((s + t)[i], (s + t)[j]);
    }
    forall i, j | 0 <= i < j < |t|
      ensures Apart(t[i], t[j])
    {
      assert Apart((s + t)[|s| + i], (s + t)[|s| + j]);
    }
    forall a
      ensures !(Holds(s, a) && Holds(t, a))
    {
      forall i, j | 0 <= i < |s| && 0 <= j < |t|
        ensures !(In(s[i], a) && In(t[j], a))
      {
        assert Apart((s + t)[i], (s + t)[|s| + j]);
      }
    }
  }

  lemma {:induction false} CutAllKeepsDisjoint(s: seq<Piece>, r: Region)
    requires Disjoint(s) && r.start <= r.end
    ensures Disjoint(CutAll(s, r))
  {
    if s != [] {
      var n := |s| - 1;
      assert s == s[..n] + [s[n]];
      DisjointParts(s[..n], [s[n]]);
      CutAllKeepsDisjoint(s[..n], r);
      forall a
        ensures !(Holds(CutAll(s[..n], r), a) && Holds(Cut(s[n], r), a))
      {
        CutAllIsExact(s[..n], r, a);
        CutIsExact(s[n], r, a);
        assert In(s[n], a) ==> Holds([s[n]], a) by { assert [s[n]][0] == s[n]; }
      }
      DisjointConcat(CutAll(s[..n], r), Cut(s[n], r));
    }
  }

  /** `subtract *region from *i` for every interval. */
  method SubtractRegion(s: seq<Piece>, r: Region) returns (live: seq<Piece>)
    ensures live == CutAll(s, r)
  {
    live := [];
    for k := 0 to |s|
      invariant live == CutAll(s[..k], r)
    {
      var i := s[k];
      var start, end := i.ptr, i.ptr + i.size;
      if r.start <= start && end <= r.end {
        // subsumed
      } else if start < r.start && r.end < end {
        live := live + [Piece(i.ptr, r.start - start)];
        live := live + [Piece(r.end, end - r.end)];
      } else if r.end > start && r.start <= start {
        live := live + [Piece(r.end, end - r.end)];
      } else if r.start > start && r.start < end {
        live := live + [Piece(i.ptr, r.start - start)];
      } else {
        live := live + [Piece(i.ptr, i.size)];
      }
      assert s[..k + 1][..k] == s[..k];
    }
    assert s[..|s|] == s;
  }

  // ---------- Which regions are cut out ----------

  /** Code whose regions stay: an ordered map from range ends to range starts. */
  datatype CallerRange = CallerRange(end: int, start: int)

  datatype Ranges = Unknown | Known(ranges: seq<CallerRange>)

  ghost predicate Ordered(s: seq<CallerRange>)
  {
    forall i, j | 0 <= i < j < |s| :: s[i].end < s[j].end
  }

  /** The ranges are mapped libraries, which do not overlap. */
  ghost predicate Separate(s: seq<CallerRange>)
  {
    forall i, j | 0 <= i < j < |s| :: s[i].end <= s[j].start
  }

  /** upper_bound: the first range that ends after caller, or |s|. */
  method UpperBound(s: seq<CallerRange>, caller: int) returns (i: int)
    requires Ordered(s)
    ensures 0 <= i <= |s| && (forall j | 0 <= j < i :: s[j].end <= caller) && (i < |s| ==> s[i].end > caller)
  {
    i := 0;
    while i < |s| && s[i].end <= caller
      invariant 0 <= i <= |s| && forall j | 0 <= j < i :: s[j].end <= caller
    {
      i := i + 1;
    }
  }

  /** Mapped from inside one of the ranges, by the first range that ends after the caller. */
  ghost predicate SpecialCaller(s: seq<CallerRange>, caller: int)
  {
    exists i :: CoversCaller(s, caller, i) && FirstAfter(s, caller, i)
  }

  ghost predicate CoversCaller(s: seq<CallerRange>, caller: int, i: int)
  {
    0 <= i < |s| && s[i].start < caller < s[i].end
  }

  ghost predicate FirstAfter(s: seq<CallerRange>, caller: int, i: int)
  {
    forall j | 0 <= j < i && j < |s| :: s[j].end <= caller
  }

  ghost predicate Subtracted(r: Region, g: Ranges)
  {
    r.isStack || g.Unknown? || r.caller == 0 || !SpecialCaller(g.ranges, r.caller)
  }

  /** A range that does not cover the caller is the first to end after it, and hides a
      range that does. */
  ghost predicate Hides(s: seq<CallerRange>, caller: int, i: int, j: int)
  {
    0 <= i < j < |s| && s[j].start < caller <= s[i].start && caller < s[i].end && (i > 0 ==> s[i - 1].end <= caller)
  }

  /** Looking at the first range that ends after the caller finds a caller that is inside
      of some range exactly when no range hides that one. */
  lemma SpecialCallerIff(s: seq<CallerRange>, caller: int)
    requires Ordered(s)
    ensures (SpecialCaller(s, caller) <==> exists i :: CoversCaller(s, caller, i)) <==> !exists i, j ::
              Hides(s, caller, i, j)
  {
    if i, j :| Hides(s, caller, i, j) {
      assert CoversCaller(s, caller, j);
      forall k
        ensures !(CoversCaller(s, caller, k) && FirstAfter(s, caller, k))
      {
        assert k > i ==> s[i].end > caller;
        assert 0 <= k < i ==> s[k].end <= s[i - 1].end;
      }
    }
    if j :| CoversCaller(s, caller, j) {
      var i := FirstEndingAfter(s, caller, j);
      assert CoversCaller(s, caller, i) || Hides(s, caller, i, j);
    }
  }

  /** So every caller inside of a library is found. */
  lemma LibraryCallerIsFound(s: seq<CallerRange>, caller: int)
    requires Ordered(s) && Separate(s)
    ensures SpecialCaller(s, caller) <==> exists i :: CoversCaller(s, caller, i)
  {
    forall i, j
      ensures !Hides(s, caller, i, j)
    {
      assert 0 <= i < j < |s| ==> s[i].end <= s[j].start;
    }
    SpecialCallerIff(s, caller);
  }

  /** A region stays exactly if it is no stack and its caller is known and inside of one of
      the ranges, provided the ranges are known. */
  lemma RegionStaysIff(r: Region, g: Ranges)
    requires g.Known? ==> Ordered(g.ranges) && Separate(g.ranges)
    ensures !Subtracted(r, g) <==>
            !r.isStack && g.Known? && r.caller != 0
            && exists i :: 0 <= i < |g.ranges| && g.ranges[i].start < r.caller < g.ranges[i].end
  {
    if g.Known? {
      LibraryCallerIsFound(g.ranges, r.caller);
      if i :| CoversCaller(g.ranges, r.caller, i) {
        assert g.ranges[i].start < r.caller < g.ranges[i].end;
      }
      if i :| 0 <= i < |g.ranges| && g.ranges[i].start < r.caller < g.ranges[i].end {
        assert CoversCaller(g.ranges, r.caller, i);
      }
    }
    hide SpecialCaller;
  }

  lemma FirstEndingAfter(s: seq<CallerRange>, caller: int, i: nat) returns (j: nat)
    requires i < |s| && s[i].end > caller && Ordered(s)
    ensures j <= i && s[j].end > caller && FirstAfter(s, caller, j)
  {
    j := i;
    while j > 0 && s[j - 1].end > caller
      invariant j <= i && s[j].end > caller
    {
      j := j - 1;
    }
    forall h | 0 <= h < j
      ensures s[h].end <= caller
    {
      assert s[h].end <= s[j - 1].end;
    }
  }

  method ShouldSubtract(r: Region, g: Ranges) returns (subtract: bool, nullCaller: bool)
    requires g.Known? ==> Ordered(g.ranges)
    ensures subtract <==> Subtracted(r, g)
    ensures nullCaller <==> !r.isStack && g.Known? && r.caller == 0
  {
    subtract, nullCaller := true, false;
    if !r.isStack && g.Known? {
      if r.caller == 0 {
        nullCaller := true;
      } else {
        var i := UpperBound(g.ranges, r.caller);
        if i < |g.ranges| {
          if g.ranges[i].start < r.caller {
            subtract := false;
          }
        }
        forall j | j != i
          ensures !(CoversCaller(g.ranges, r.caller, j) && FirstAfter(g.ranges, r.caller, j))
        {
          assert j > i && i < |g.ranges| ==> g.ranges[i].end > r.caller;
        }
        assert subtract || (CoversCaller(g.ranges, r.caller, i) && FirstAfter(g.ranges, r.caller, i));
      }
    }
  }

  /** The intervals left by the regions, one after the other. */
  ghost function Filtered(s: seq<Piece>, regions: seq<Region>, g: Ranges): seq<Piece>
  {
    if regions == [] then s
    else
      var n := |regions| - 1;
      var t := Filtered(s, regions[..n], g);
      if Subtracted(regions[n], g) then CutAll(t, regions[n]) else t
  }

  ghost predicate RegionsOk(regions: seq<Region>)
  {
    forall i | 0 <= i < |regions| :: regions[i].start <= regions[i].end
  }

  /** Exactly the addresses in no subtracted region are left, and disjoint intervals stay
      disjoint. */
  lemma {:induction false} FilteredIsExact(s: seq<Piece>, regions: seq<Region>, g: Ranges)
    requires RegionsOk(regions)
    ensures forall a :: Holds(Filtered(s, regions, g), a) <==>
              Holds(s, a) && forall i | 0 <= i < |regions| && Subtracted(regions[i], g) :: !InRegion(regions[i], a)
    ensures Disjoint(s) ==> Disjoint(Filtered(s, regions, g))
  {
    if regions != [] {
      var n := |regions| - 1;
      FilteredIsExact(s, regions[..n], g);
      var t := Filtered(s, regions[..n], g);
      if Subtracted(regions[n], g) && Disjoint(t) {
        CutAllKeepsDisjoint(t, regions[n]);
      }
      forall a
        ensures Holds(Filtered(s, regions, g), a)
                <==> Holds(t, a) && !(Subtracted(regions[n], g) && InRegion(regions[n], a))
      {
        CutAllIsExact(t, regions[n], a);
      }
      forall a
        ensures Holds(Filtered(s, regions, g), a) <==>
                Holds(s, a) && forall i | 0 <= i < |regions| && Subtracted(regions[i], g) :: !InRegion(regions[i], a)
      {
        assert forall i | 0 <= i < n :: regions[..n][i] == regions[i];
      }
    }
  }

  /** The sizes of intervals are sizes. */
  ghost predicate Sized(s: seq<Piece>)
  {
    forall i | 0 <= i < |s| :: s[i].size >= 0
  }

  lemma {:induction false} CutAllIsSized(s: seq<Piece>, r: Region)
    requires Sized(s) && r.start <= r.end
    ensures Sized(CutAll(s, r))
  {
    if s != [] {
      CutAllIsSized(s[..|s| - 1], r);
    }
  }

  lemma {:induction false} FilteredIsSized(s: seq<Piece>, regions: seq<Region>, g: Ranges)
    requires Sized(s) && RegionsOk(regions)
    ensures Sized(Filtered(s, regions, g))
  {
    if regions != [] {
      var n := |regions| - 1;
      FilteredIsSized(s, regions[..n], g);
      CutAllIsSized(Filtered(s, regions[..n], g), regions[n]);
    }
  }

  /** The loop over the regions. */
  method FilterByRegions(s: seq<Piece>, regions: seq<Region>, g: Ranges) returns (live: seq<Piece>, nullCallers: bool)
    requires g.Known? ==> Ordered(g.ranges)
    ensures live == Filtered(s, regions, g)
    ensures nullCallers <==> exists i :: 0 <= i < |regions| && !regions[i].isStack && g.Known? && regions[i].caller == 0
  {
    live, nullCallers := s, false;
    assert regions[..0] == [];
    for k := 0 to |regions|
      invariant live == Filtered(s, regions[..k], g)
      invariant nullCallers <==> exists i :: 0 <= i < k && !regions[i].isStack && g.Known? && regions[i].caller == 0
    {
      var subtract, nullCaller := ShouldSubtract(regions[k], g);
      nullCallers := nullCallers || nullCaller;
      if subtract {
        live := SubtractRegion(live, regions[k]);
      }
      assert regions[..k + 1][..k] == regions[..k];
    }
    assert regions[..|regions|] == regions;
  }

  // ---------- Finding the region of a stack ----------

  /** The set of regions, ordered by their ends, none overlapping another. */
  ghost predicate RegionSet(s: seq<Region>)
  {
    && (forall i {:trigger s[i]} | 0 <= i < |s| :: s[i].start < s[i].end)
    && (forall i, j {:trigger s[i], s[j]} | 0 <= i < j < |s| :: s[i].end <= s[j].start)
  }

  /** In a region, and at no region's end: the lookup stops at a region that ends there. */
  ghost predicate Findable(s: seq<Region>, addr: int)
  {
    (exists i :: 0 <= i < |s| && InRegion(s[i], addr)) && (forall i | 0 <= i < |s| :: s[i].end != addr)
  }

  /** The first region that does not end before the address. */
  function FirstEnd(s: seq<Region>, addr: int): (k: nat)
    ensures k <= |s| && (forall i | 0 <= i < k :: s[i].end < addr) && (k < |s| ==> addr <= s[k].end)
  {
    if s == [] then 0
    else
      var k := FirstEnd(s[..|s| - 1], addr);
      if k < |s| - 1 || s[|s| - 1].end >= addr then k else |s|
  }

  lemma {:induction false} EndIs(s: seq<Region>, addr: int, k: nat)
    requires k <= |s| && (forall i | 0 <= i < k :: s[i].end < addr) && (k < |s| ==> addr <= s[k].end)
    ensures FirstEnd(s, addr) == k
  {
  }

  /** Where the lookup finds the address; |s| for nowhere. */
  function Found(s: seq<Region>, addr: int): (k: nat)
    ensures k <= |s| && (k < |s| ==> InRegion(s[k], addr))
  {
    var k := FirstEnd(s, addr);
    if k < |s| && InRegion(s[k], addr) then k else |s|
  }

  lemma FoundIffFindable(s: seq<Region>, addr: int)
    requires RegionSet(s)
    ensures Found(s, addr) < |s| <==> Findable(s, addr)
    ensures forall i | 0 <= i < |s| && Findable(s, addr) :: InRegion(s[i], addr) <==> i == Found(s, addr)
  {
    var k := FirstEnd(s, addr);
    if k < |s| {
      forall i | k < i < |s|
        ensures s[i].start >= s[k].end && !(addr < s[k].end && InRegion(s[i], addr))
      {
      }
      forall i | 0 <= i < |s|
        ensures s[i].end == addr ==> i == k
      {
      }
    }
  }

  /** lower_bound on the ends, then one look at the region found. */
  method FindRegion(s: seq<Region>, addr: int) returns (found: nat)
    ensures found == Found(s, addr)
  {
    var k := 0;
    while k < |s| && s[k].end < addr
      invariant 0 <= k <= |s| && forall i | 0 <= i < k :: s[i].end < addr
    {
      k := k + 1;
    }
    EndIs(s, addr, k);
    found := if k < |s| && s[k].start <= addr && addr < s[k].end then k else |s|;
  }

  /** An address in a region is found there, unless it is the first one of a region that
      begins where the region before it ends: then nothing is found. */
  lemma OnlyFirstAddressIsMissed(s: seq<Region>, j: int, addr: int)
    requires RegionSet(s) && 0 <= j < |s| && InRegion(s[j], addr)
    ensures Found(s, addr) == if 0 < j && s[j - 1].end == addr then |s| else j
  {
    FoundIffFindable(s, addr);
    if Found(s, addr) == |s| {
      var i :| 0 <= i < |s| && s[i].end == addr;
      assert 0 < j ==> s[j - 1].start < s[j - 1].end <= s[j].start;
    }
  }

  /** Two regions of four addresses side by side: address 4 is in the second one, yet the
      lookup finds none. */
  lemma AdjoiningRegionIsMissed()
    ensures var s := [Region(0, 4, false, 1), Region(4, 8, false, 1)];
            RegionSet(s) && InRegion(s[1], 4) && Found(s, 4) == |s|
  {
    OnlyFirstAddressIsMissed([Region(0, 4, false, 1), Region(4, 8, false, 1)], 1, 4);
  }

  // ---------- Chopping a stack out of an interval ----------

  /** Cuts off, at both ends, what regions hold that do not hold top. */
  function Chopped(p: Piece, top: int, regions: seq<Region>): Piece
  {
    if regions == [] then p
    else
      var n := |regions| - 1;
      var q := Chopped(p, top, regions[..n]);
      var r := regions[n];
      var start := if q.ptr < r.end && r.end <= top then r.end else q.ptr;
      var end := if top < r.start && r.start < q.ptr + q.size then r.start else q.ptr + q.size;
      Piece(start, end - start)
  }

  /** The stack interval is around top, it touches no region but one around top, and it is
      as large as that allows. */
  lemma {:induction false} ChoppedIsStack(p: Piece, top: int, regions: seq<Region>)
    requires In(p, top)
    ensures var q := Chopped(p, top, regions);
            && In(q, top) && p.ptr <= q.ptr && q.ptr + q.size <= p.ptr + p.size
            && (forall i, a | 0 <= i < |regions| && In(q, a) && InRegion(regions[i], a) :: InRegion(regions[i], top))
            && (forall i | 0 <= i < |regions| :: (top < regions[i].start ==> q.ptr + q.size <= regions[i].start)
                                                 && (regions[i].end <= top ==> regions[i].end <= q.ptr))
            && (q.ptr + q.size == p.ptr + p.size || exists i ::
                  0 <= i < |regions| && regions[i].start == q.ptr + q.size)
            && (q.ptr == p.ptr || exists i :: 0 <= i < |regions| && regions[i].end == q.ptr)
  {
    if regions != [] {
      var n := |regions| - 1;
      ChoppedIsStack(p, top, regions[..n]);
      var q, t := Chopped(p, top, regions), Chopped(p, top, regions[..n]);
      if t.ptr + t.size != p.ptr + p.size {
        var i :| 0 <= i < n && regions[..n][i].start == t.ptr + t.size;
        assert regions[i].start == t.ptr + t.size;
      }
      if t.ptr != p.ptr {
        var i :| 0 <= i < n && regions[..n][i].end == t.ptr;
        assert regions[i].end == t.ptr;
      }
      forall i | 0 <= i < n
        ensures (top < regions[i].start ==> q.ptr + q.size <= regions[i].start)
                && (regions[i].end <= top ==> regions[i].end <= q.ptr)
      {
        assert regions[..n][i] == regions[i];
      }
    }
  }

  lemma ChoppedIsInside(p: Piece, top: int, regions: seq<Region>)
    requires In(p, top)
    ensures var q := Chopped(p, top, regions);
            In(q, top) && q.size > 0 && p.ptr <= q.ptr && q.ptr + q.size <= p.ptr + p.size
  {
    ChoppedIsStack(p, top, regions);
  }

  /** The loop that undoes the merging of neighbouring mappings. */
  method ChopStack(start: int, end: int, top: int, regions: seq<Region>) returns (stackStart: int, stackEnd: int)
    ensures Chopped(Piece(start, end - start), top, regions) == Piece(stackStart, stackEnd - stackStart)
  {
    stackStart, stackEnd := start, end;
    for k := 0 to |regions|
      invariant Chopped(Piece(start, end - start), top, regions[..k]) == Piece(stackStart, stackEnd - stackStart)
    {
      var r := regions[k];
      if top < r.start && r.start < stackEnd {
        stackEnd := r.start;
      }
      if stackStart < r.end && r.end <= top {
        stackStart := r.end;
      }
      assert regions[..k + 1][..k] == regions[..k];
    }
    assert regions[..|regions|] == regions;
  }

  // ---------- Registering stacks ----------

  /** The first interval that holds an address, or |s|. */
  function FirstHolding(s: seq<Piece>, a: int): (k: nat)
    ensures k <= |s| && (forall i | 0 <= i < k :: !In(s[i], a)) && (k < |s| ==> In(s[k], a))
  {
    if s == [] then 0
    else
      var k := FirstHolding(s[..|s| - 1], a);
      if k < |s| - 1 || In(s[|s| - 1], a) then k else |s|
  }

  /** The first library that holds an address, or |libs|. */
  function FirstLibrary(libs: seq<seq<Piece>>, a: int): (l: nat)
    ensures l <= |libs| && (forall h | 0 <= h < l :: !Holds(libs[h], a)) && (l < |libs| ==> Holds(libs[l], a))
  {
    if libs == [] then 0
    else
      var last := |libs| - 1;
      var l := FirstLibrary(libs[..last], a);
      if l < last || FirstHolding(libs[last], a) < |libs[last]| then l else |libs|
  }

  /** What is left of a library's intervals: the others, and what lay beside the stack. */
  function PutBack(s: seq<Piece>, i: nat, stack: Piece): seq<Piece>
    requires i < |s|
  {
    s[..i] + s[i + 1..]
    + (if stack.ptr != s[i].ptr then [Piece(s[i].ptr, stack.ptr - s[i].ptr)] else [])
    + (if stack.ptr + stack.size != s[i].ptr + s[i].size
       then [Piece(stack.ptr + stack.size, s[i].ptr + s[i].size - stack.ptr - stack.size)] else [])
  }

  function LivePart(stack: Piece, top: int, growsDown: bool): Piece
  {
    if growsDown then Piece(top, stack.ptr + stack.size - top) else Piece(stack.ptr, top - stack.ptr)
  }

  /** The side of the top that is in use. */
  predicate InUseAt(top: int, growsDown: bool, a: int)
  {
    if growsDown then top <= a else a < top
  }

  lemma PutBackIsSized(s: seq<Piece>, i: nat, stack: Piece)
    requires i < |s| && s[i].ptr <= stack.ptr && stack.ptr + stack.size <= s[i].ptr + s[i].size && Sized(s)
    ensures Sized(PutBack(s, i, stack))
  {
  }

  lemma LivePartHolds(stack: Piece, top: int, growsDown: bool)
    requires In(stack, top)
    ensures forall a :: In(LivePart(stack, top, growsDown), a) <==> In(stack, a) && InUseAt(top, growsDown, a)
    ensures LivePart(stack, top, growsDown).size >= 0
  {
  }

  /** The live parts of stacks, the regions with those of stacks marked, and what of the
      libraries is no stack. */
  datatype Mapping = Mapping(live: seq<Piece>, regions: seq<Region>, libs: seq<seq<Piece>>)

  /** One more stack, with the given top. */
  function Registered(m: Mapping, top: int, growsDown: bool): Mapping
  {
    var k, l := Found(m.regions, top), FirstLibrary(m.libs, top);
    if k < |m.regions| then
      var r := m.regions[k];
      m.(live := m.live + [LivePart(Piece(r.start, r.end - r.start), top, growsDown)],
         regions := m.regions[k := r.(isStack := true)])
    else if l < |m.libs| then
      HoldsFirst(m.libs[l], top);
      var i := FirstHolding(m.libs[l], top);
      var stack := Chopped(m.libs[l][i], top, m.regions);
      m.(live := m.live + [LivePart(stack, top, growsDown)], libs := m.libs[l := PutBack(m.libs[l], i, stack)])
    else m
  }

  lemma HoldsFirst(s: seq<Piece>, a: int)
    ensures Holds(s, a) <==> FirstHolding(s, a) < |s|
  {
  }

  ghost predicate MappingOk(m: Mapping)
  {
    RegionSet(m.regions) && Sized(m.live) && forall l {:trigger m.libs[l]} | 0 <= l < |m.libs| :: Sized(m.libs[l])
  }

  /** With a region found, exactly its addresses on the side of top that is in use become
      live and it is marked as a stack, so that it will be cut out of the libraries; nothing
      else changes. */
  lemma RegionIsRegistered(m: Mapping, top: int, growsDown: bool)
    requires MappingOk(m) && Findable(m.regions, top)
    ensures var n := Registered(m, top, growsDown);
            && MappingOk(n) && n.libs == m.libs && |n.live| == |m.live| + 1 && |n.regions| == |m.regions|
            && (forall i | 0 <= i < |m.regions| ::
                  n.regions[i] == m.regions[i].(isStack := m.regions[i].isStack || InRegion(m.regions[i], top)))
            && (forall i | 0 <= i < |m.regions| && InRegion(m.regions[i], top) ::
                  n.live == m.live
                    + [LivePart(Piece(m.regions[i].start, m.regions[i].end - m.regions[i].start), top, growsDown)]
                  && forall a :: In(n.live[|m.live|], a) <==>
                       InRegion(m.regions[i], a) && InUseAt(top, growsDown, a))
  {
    FoundIffFindable(m.regions, top);
    var r := m.regions[Found(m.regions, top)];
    LivePartHolds(Piece(r.start, r.end - r.start), top, growsDown);
  }

  /** Otherwise the stack comes out of the first library that holds top: exactly its addresses
      on the side of top that is in use become live, and the library and the stack together
      hold what the library held. With neither, nothing becomes live. */
  lemma LibraryStackIsRegistered(m: Mapping, top: int, growsDown: bool)
    requires MappingOk(m) && !Findable(m.regions, top)
    ensures var n := Registered(m, top, growsDown); var l := FirstLibrary(m.libs, top);
            && MappingOk(n) && n.regions == m.regions
            && (l == |m.libs| ==> n == m && forall h | 0 <= h < |m.libs| :: !Holds(m.libs[h], top))
            && (l < |m.libs| ==>
                  var stack := Chopped(m.libs[l][FirstHolding(m.libs[l], top)], top, m.regions);
                  && In(stack, top) && n.live == m.live + [LivePart(stack, top, growsDown)]
                  && (forall a :: In(n.live[|m.live|], a) <==> In(stack, a) && InUseAt(top, growsDown, a))
                  && |n.libs| == |m.libs| && (forall h | 0 <= h < |m.libs| && h != l :: n.libs[h] == m.libs[h])
                  && (forall a :: Holds(m.libs[l], a) <==> Holds(n.libs[l], a) || In(stack, a))
                  && (Disjoint(m.libs[l]) ==> Disjoint(n.libs[l]) && forall a ::
                        !(Holds(n.libs[l], a) && In(stack, a))))
  {
    hide FirstLibrary;
    hide FirstHolding;
    hide Chopped;
    hide PutBack;
    hide LivePart;
    hide Disjoint;
    hide Findable;
    FoundIffFindable(m.regions, top);
    var l := FirstLibrary(m.libs, top);
    if l < |m.libs| {
      HoldsFirst(m.libs[l], top);
      var i := FirstHolding(m.libs[l], top);
      ChoppedIsInside(m.libs[l][i], top, m.regions);
      var stack := Chopped(m.libs[l][i], top, m.regions);
      PutBackIsRest(m.libs[l], i, stack);
      PutBackIsSized(m.libs[l], i, stack);
      LivePartHolds(stack, top, growsDown);
    }
  }

  lemma RegisteredIsOk(m: Mapping, top: int, growsDown: bool)
    requires MappingOk(m)
    ensures MappingOk(Registered(m, top, growsDown))
  {
    hide MappingOk;
    if Findable(m.regions, top) {
      RegionIsRegistered(m, top, growsDown);
    } else {
      LibraryStackIsRegistered(m, top, growsDown);
    }
  }

  function RegisteredAll(m: Mapping, tops: seq<int>, growsDown: bool): Mapping
  {
    if tops == [] then m else Registered(RegisteredAll(m, tops[..|tops| - 1], growsDown), tops[|tops| - 1], growsDown)
  }

  lemma {:induction false} RegisteredAllIsOk(m: Mapping, tops: seq<int>, growsDown: bool)
    requires MappingOk(m)
    ensures MappingOk(RegisteredAll(m, tops, growsDown))
  {
    if tops != [] {
      RegisteredAllIsOk(m, tops[..|tops| - 1], growsDown);
      RegisteredIsOk(RegisteredAll(m, tops[..|tops| - 1], growsDown), tops[|tops| - 1], growsDown);
    }
  }

  /** RegisterStackLocked. */
  method RegisterStack(m: Mapping, top: int, growsDown: bool) returns (n: Mapping)
    ensures n == Registered(m, top, growsDown)
  {
    hide Found;
    hide FirstLibrary;
    hide FirstHolding;
    hide Chopped;
    n := m;
    var found := FindRegion(m.regions, top);
    if found < |m.regions| {
      var r := m.regions[found];
      n := n.(regions := m.regions[found := r.(isStack := true)]);
      n := n.(live := m.live + [if growsDown then Piece(top, r.end - top) else Piece(r.start, top - r.start)]);
      return;
    }
    for l := 0 to |m.libs|
      invariant forall h | 0 <= h < l :: !Holds(m.libs[h], top)
    {
      for i := 0 to |m.libs[l]|
        invariant forall h | 0 <= h < i :: !In(m.libs[l][h], top)
      {
        var p := m.libs[l][i];
        var start, end := p.ptr, p.ptr + p.size;
        if start <= top && top < end {
          IsFirst(m.libs, l, i, top);
          var stackStart, stackEnd := ChopStack(start, end, top, m.regions);
          var live := if growsDown then Piece(top, stackEnd - top) else Piece(stackStart, top - stackStart);
          var rest := m.libs[l][..i] + m.libs[l][i + 1..];
          if stackStart != start {
            rest := rest + [Piece(start, stackStart - start)];
          }
          if stackEnd != end {
            rest := rest + [Piece(stackEnd, end - stackEnd)];
          }
          assert rest == PutBack(m.libs[l], i, Piece(stackStart, stackEnd - stackStart));
          n := n.(live := m.live + [live], libs := m.libs[l := rest]);
          return;
        }
      }
    }
  }

  /** One stack after the other. */
  method RegisterStacks(m: Mapping, tops: seq<int>, growsDown: bool) returns (n: Mapping)
    ensures n == RegisteredAll(m, tops, growsDown)
  {
    hide Registered;
    n := m;
    assert tops[..0] == [];
    for i := 0 to |tops|
      invariant n == RegisteredAll(m, tops[..i], growsDown)
    {
      n := RegisterStack(n, tops[i], growsDown);
      assert tops[..i + 1][..i] == tops[..i];
    }
    assert tops[..|tops|] == tops;
  }

  lemma IsFirst(libs: seq<seq<Piece>>, l: nat, i: nat, top: int)
    requires l < |libs| && i < |libs[l]| && In(libs[l][i], top)
    requires (forall h | 0 <= h < l :: !Holds(libs[h], top)) && (forall h | 0 <= h < i :: !In(libs[l][h], top))
    ensures FirstLibrary(libs, top) == l && FirstHolding(libs[l], top) == i
  {
    assert Holds(libs[l], top);
  }

  /** The parts put back and the stack make up the interval that was taken out. */
  lemma PutBackIsRest(s: seq<Piece>, i: nat, stack: Piece)
    requires i < |s| && stack.size > 0 && s[i].ptr <= stack.ptr && stack.ptr + stack.size <= s[i].ptr + s[i].size
    ensures forall a :: Holds(s, a) <==> Holds(PutBack(s, i, stack), a) || In(stack, a)
    ensures Disjoint(s) ==> Disjoint(PutBack(s, i, stack)) && forall a ::
              !(Holds(PutBack(s, i, stack), a) && In(stack, a))
  {
    forall a
      ensures Holds(s, a) <==> Holds(PutBack(s, i, stack), a) || In(stack, a)
      ensures Disjoint(s) ==> !(Holds(PutBack(s, i, stack), a) && In(stack, a))
    {
      PutBackHolds(s, i, stack);
      if Disjoint(s) {
        OthersApart(s, i);
      }
      hide Holds;
      hide Disjoint;
      hide PutBack;
    }
    if Disjoint(s) {
      PutBackKeepsDisjoint(s, i, stack);
    }
    hide Holds;
    hide Disjoint;
    hide PutBack;
  }

  /** What is left of the interval, behind all the others. */
  lemma PutBackHolds(s: seq<Piece>, i: nat, stack: Piece)
    requires i < |s| && stack.size > 0 && s[i].ptr <= stack.ptr && stack.ptr + stack.size <= s[i].ptr + s[i].size
    ensures var r := Region(stack.ptr, stack.ptr + stack.size, true, 0);
            PutBack(s, i, stack) == s[..i] + s[i + 1..] + Cut(s[i], r)
    ensures forall a :: Holds(s, a) <==> Holds(s[..i] + s[i + 1..], a) || In(s[i], a)
    ensures forall a ::
              Holds(PutBack(s, i, stack), a) <==> Holds(s[..i] + s[i + 1..], a) || (In(s[i], a) && !In(stack, a))
  {
    var r := Region(stack.ptr, stack.ptr + stack.size, true, 0);
    var others, rest := s[..i] + s[i + 1..], PutBack(s, i, stack);
    assert rest == others + Cut(s[i], r);
    assert s == s[..i] + ([s[i]] + s[i + 1..]);
    forall a
      ensures Holds(s, a) <==> Holds(others, a) || In(s[i], a)
      ensures Holds(rest, a) <==> Holds(others, a) || (In(s[i], a) && !In(stack, a))
    {
      HoldsConcat(s[..i], [s[i]] + s[i + 1..], a);
      HoldsConcat([s[i]], s[i + 1..], a);
      HoldsConcat(s[..i], s[i + 1..], a);
      HoldsConcat(others, Cut(s[i], r), a);
      CutIsExact(s[i], r, a);
      assert Holds([s[i]], a) <==> In([s[i]][0], a);
    }
  }

  lemma PutBackKeepsDisjoint(s: seq<Piece>, i: nat, stack: Piece)
    requires i < |s| && stack.size > 0 && s[i].ptr <= stack.ptr && stack.ptr + stack.size <= s[i].ptr + s[i].size
    requires Disjoint(s)
    ensures Disjoint(PutBack(s, i, stack))
  {
    var r := Region(stack.ptr, stack.ptr + stack.size, true, 0);
    var others := s[..i] + s[i + 1..];
    hide Holds;
    hide Disjoint;
    hide Cut;
    OthersApart(s, i);
    CutKeepsDisjoint(s[i], r);
    PutBackHolds(s, i, stack);
    forall a
      ensures !(Holds(others, a) && Holds(Cut(s[i], r), a))
    {
      CutIsExact(s[i], r, a);
    }
    DisjointConcat(others, Cut(s[i], r));
  }

  lemma CutKeepsDisjoint(p: Piece, r: Region)
    requires Disjoint([p]) && r.start <= r.end
    ensures Disjoint(Cut(p, r))
  {
    hide Disjoint;
    hide Cut;
    CutAllKeepsDisjoint([p], r);
    assert [p][..0] == [] && [p][0] == p;
    assert CutAll([p], r) == CutAll([], r) + Cut(p, r);
    assert CutAll([], r) + Cut(p, r) == Cut(p, r);
  }

  lemma OthersApart(s: seq<Piece>, i: nat)
    requires i < |s| && Disjoint(s)
    ensures Disjoint([s[i]]) && Disjoint(s[..i] + s[i + 1..])
    ensures forall a :: In(s[i], a) ==> !Holds(s[..i] + s[i + 1..], a)
  {
    var others := s[..i] + s[i + 1..];
    forall j, k | 0 <= j < k < |others|
      ensures Apart(others[j], others[k])
    {
      assert Apart(s[if j < i then j else j + 1], s[if k < i then k else k + 1]);
    }
    forall j | 0 <= j < |others|
      ensures Apart(s[i], others[j])
    {
      assert if j < i then Apart(s[j], s[i]) else Apart(s[i], s[j + 1]);
    }
  }
}
