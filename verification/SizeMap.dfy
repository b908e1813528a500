/** The size classes of the allocator: which sizes get a class, how many pages a span
    of the class has, and the flattened table that leads from a size to its class.
    The page size, the minimal alignment, the number of objects to move and the number
    of classes are parameters. */
module SizeMaps {
  import opened Arithmetic

  const MAX_SIZE: nat := 262144
  const MAX_SMALL_SIZE: nat := 1024
  const CLASS_ARRAY_SIZE: nat := 2169

  /** minShift is 3 or 4 for a minimal alignment of 8 or 16. */
  datatype Config = Config(pageShift: nat, minShift: nat, transferNumObjects: nat, numClasses: nat)

  ghost predicate ConfigOk(g: Config)
  {
    7 <= g.pageShift && 3 <= g.minShift <= 4 && g.transferNumObjects >= 1 && 2 <= g.numClasses <= 256
  }

  function PageSize(g: Config): (r: nat)
    ensures r > 0
  {
    Pow2(g.pageShift)
  }

  // ---------- Alignment ----------

  /** Position of the highest bit, by halving the range of shifts. */
  method LgFloor(n0: nat) returns (log: nat)
    requires 1 <= n0 < Pow2(32)
    ensures Pow2(log) <= n0 < Pow2(log + 1)
  {
    hide Pow2;
    var n := n0;
    log := 0;
    var i := 4;
    FiveDoublings(n0);
    while i >= 0
      invariant -1 <= i <= 4 && n == n0 / Pow2(log) && 1 <= n < Pow2(Pow2(i + 1))
    {
      var shift := Pow2(i);
      var x := n / Pow2(shift);
      DoublePower(i);
      ShiftHalf(n, shift);
      ShiftTwice(n0, log, shift);
      if x != 0 {
        n := x;
        log := log + shift;
      }
      i := i - 1;
    }
    DoublePower(0);
    ShiftedToOne(n0, log);
  }

  lemma FiveDoublings(n: nat)
    requires n < Pow2(32)
    ensures n < Pow2(Pow2(4 + 1)) && n / Pow2(0) == n
  {
    assert Pow2(5) == 32;
  }

  lemma DoublePower(i: nat)
    ensures Pow2(i + 1) == 2 * Pow2(i) && Pow2(0) == 1 && Pow2(1) == 2
  {
  }

  /** The alignment of a size, as a power of two. */
  function AlignmentShift(g: Config, size: nat): nat
  {
    var shift := if size > MAX_SIZE then g.pageShift
                 else if size >= 128 then (if Log(size) >= 3 then Log(size) - 3 else 0)
                 else if size >= Pow2(g.minShift) then g.minShift
                 else 3;
    if shift > g.pageShift then g.pageShift else shift
  }

  function Alignment(g: Config, size: nat): (r: nat)
    ensures r > 0
  {
    Pow2(AlignmentShift(g, size))
  }

  lemma Powers()
    ensures Pow2(3) == 8 && Pow2(4) == 16 && Pow2(7) == 128 && Pow2(10) == 1024 && Pow2(18) == MAX_SIZE
            && Pow2(32) == 0x1_0000_0000
  {
    assert Pow2(7) == 128;
    assert Pow2(12) == 4096;
    assert Pow2(18) == MAX_SIZE;
    assert Pow2(25) == 0x200_0000;
  }

  lemma LogOfLarge(size: nat)
    requires 128 <= size
    ensures Log(size) >= 7 && (size >= 1024 ==> Log(size) >= 10)
    ensures size <= MAX_SIZE ==> Log(size) <= 18
    ensures Log(128) == 7 && Log(MAX_SIZE) == 18
  {
    Powers();
    LogBounds(size);
    LogIs(128, 7);
    LogIs(MAX_SIZE, 18);
    if Log(size) < 7 { Pow2Monotone(Log(size) + 1, 7); }
    if Log(size) < 10 { Pow2Monotone(Log(size) + 1, 10); }
    if Log(size) > 18 { Pow2Monotone(19, Log(size)); }
  }

  lemma EighthOf(log: nat)
    requires log >= 3
    ensures Pow2(log) / 8 == Pow2(log - 3)
  {
    Pow2Add(3, log - 3);
  }

  method AlignmentForSize(g: Config, size: nat) returns (alignment: nat)
    requires ConfigOk(g)
    ensures alignment == Alignment(g, size)
    ensures size < Pow2(g.minShift) || alignment >= Pow2(g.minShift)
  {
    hide Pow2;
    hide Log;
    hide AlignmentShift;
    AlignmentFacts(g, size);
    alignment := 8;
    if size > MAX_SIZE {
      alignment := PageSize(g);
    } else if size >= 128 {
      var log := LgFloor(size);
      LogIs(size, log);
      LogOfLarge(size);
      EighthOf(log);
      alignment := Pow2(log) / 8;
    } else if size >= Pow2(g.minShift) {
      alignment := Pow2(g.minShift);
    }
    if alignment > PageSize(g) {
      alignment := PageSize(g);
    }
  }

  lemma AlignmentFacts(g: Config, size: nat)
    requires ConfigOk(g)
    ensures size > MAX_SIZE ==> Alignment(g, size) == PageSize(g)
    ensures 128 <= size <= MAX_SIZE ==>
              Log(size) >= 7 && Alignment(g, size) == if Pow2(Log(size) - 3) > PageSize(g) then PageSize(g)
                else Pow2(Log(size) - 3)
    ensures size < 128 ==> Alignment(g, size) == if size >= Pow2(g.minShift) then Pow2(g.minShift) else 8
    ensures size >= Pow2(g.minShift) ==> Alignment(g, size) >= Pow2(g.minShift)
    ensures PageSize(g) >= Pow2(g.minShift) && PageSize(g) >= 8
    ensures size <= MAX_SIZE ==> size < Pow2(32)
  {
    Powers();
    AlignmentCapped(g, size);
    Pow2Monotone(g.minShift, g.pageShift);
    Pow2Monotone(3, g.pageShift);
    if size >= Pow2(g.minShift) {
      Pow2Monotone(g.minShift, AlignmentShift(g, size));
    }
  }

  /** Capping the alignment caps the shift. */
  lemma AlignmentCapped(g: Config, size: nat)
    requires ConfigOk(g)
    ensures size > MAX_SIZE ==> Alignment(g, size) == PageSize(g)
    ensures 128 <= size <= MAX_SIZE ==>
              Log(size) >= 7 && Alignment(g, size) == if Pow2(Log(size) - 3) > PageSize(g) then PageSize(g)
                else Pow2(Log(size) - 3)
    ensures size < 128 ==> Alignment(g, size) == Pow2(if size >= Pow2(g.minShift) then g.minShift else 3)
    ensures size >= Pow2(g.minShift) ==> AlignmentShift(g, size) >= g.minShift
  {
    hide Pow2;
    hide Log;
    LogOfLarge(if size < 128 then 128 else size);
    Powers();
    if 128 <= size <= MAX_SIZE {
      var shift := Log(size) - 3;
      if shift > g.pageShift {
        Pow2Strict(g.pageShift, shift);
      } else {
        Pow2Monotone(shift, g.pageShift);
      }
    }
  }

  /** With numbers: a power of two within a page. Between 128 and the largest size it is the
      one that wastes at most an eighth of the size and more than a sixteenth, or the page. */
  lemma AlignmentIs(g: Config, size: nat)
    requires ConfigOk(g)
    ensures exists shift :: Alignment(g, size) == Pow2(shift)
    ensures var a := Alignment(g, size);
            && a <= PageSize(g)
            && if size > MAX_SIZE then a == PageSize(g)
               else if size >= 128 then 8 * a <= size && (size < 16 * a || a == PageSize(g))
               else a == if size >= Pow2(g.minShift) then Pow2(g.minShift) else 8
  {
    hide Log;
    AlignmentFacts(g, size);
    Pow2Monotone(AlignmentShift(g, size), g.pageShift);
    if 128 <= size <= MAX_SIZE {
      LogBounds(size);
      EightTimes(Log(size) - 3);
    }
    hide Pow2;
  }

  lemma EightTimes(k: nat)
    ensures Pow2(k + 3) == 8 * Pow2(k) && Pow2(k + 4) == 16 * Pow2(k)
  {
    assert Pow2(k + 1) == 2 * Pow2(k) && Pow2(k + 2) == 4 * Pow2(k);
  }

  // ---------- The sizes that Init walks through ----------

  /** A size of the walk: a multiple of its own alignment. */
  ghost predicate IsStep(g: Config, size: nat)
  {
    8 <= size <= MAX_SIZE && size % Alignment(g, size) == 0
  }

  /** Where a size ends an index bucket of class_array. */
  predicate BucketEnd(size: int)
  {
    size % 8 == 0 && (size > MAX_SMALL_SIZE ==> size % 128 == 0)
  }

  lemma StepIsBucketEnd(g: Config, size: nat)
    requires ConfigOk(g) && IsStep(g, size)
    ensures BucketEnd(size)
  {
    Powers();
    var shift := AlignmentShift(g, size);
    if size >= 128 {
      LogOfLarge(size);
    }
    assert shift >= 3 && (size >= 1024 ==> shift >= 7) by {
      hide Pow2;
      hide Log;
    }
    hide Pow2;
    MultipleOfSmaller(size, 3, shift);
    if size >= 1024 {
      MultipleOfSmaller(size, 7, shift);
    }
  }

  /** Adding its alignment to a size leads to the next multiple, at most to the next
      power of two, which is a multiple of every alignment up to there. */
  lemma NextStepInBand(g: Config, size: nat, top: nat)
    requires ConfigOk(g) && IsStep(g, size) && size < Pow2(top) && AlignmentShift(g, size) <= top
    ensures size + Alignment(g, size) <= Pow2(top)
  {
    Pow2Divides(AlignmentShift(g, size), top);
    NextAligned(Alignment(g, size), size, Pow2(top));
  }

  lemma NextIsStep(g: Config, size: nat)
    requires ConfigOk(g) && IsStep(g, size) && size < MAX_SIZE
    ensures IsStep(g, size + Alignment(g, size))
  {
    hide Log;
    hide Pow2;
    var next := size + Alignment(g, size);
    var shift := AlignmentShift(g, size);
    Powers();
    RemainderOfNext(Alignment(g, size), size);
    if size < 128 {
      SmallNextIsStep(g, size);
    } else {
      LogOfLarge(size);
      LogBounds(size);
      var log := Log(size);
      LogOfPower(log + 1);
      DoublePower(log);
      assert log < 18;
      Pow2Monotone(log + 1, 18);
      NextStepInBand(g, size, log + 1);
      assert next >= 128;
      if next < Pow2(log + 1) {
        LogIs(next, log);
      } else {
        assert next == Pow2(log + 1);
        Pow2Divides(AlignmentShift(g, next), log + 1);
      }
    }
  }

  lemma LogOfPower(k: nat)
    ensures Log(Pow2(k)) == k
  {
    LogIs(Pow2(k), k);
  }

  /** Below 128 an alignment is 8 or 16. */
  lemma SmallAlignment(g: Config, size: nat)
    requires ConfigOk(g) && 8 <= size <= 128
    ensures Alignment(g, size) == if size == 128 || (g.minShift == 4 && size >= 16) then 16 else 8
  {
    Powers();
    LogOfLarge(128);
    hide Pow2;
    hide Log;
  }

  lemma SmallNextIsStep(g: Config, size: nat)
    requires ConfigOk(g) && IsStep(g, size) && size < 128
    ensures IsStep(g, size + Alignment(g, size))
  {
    hide Alignment;
    SmallAlignment(g, size);
    var next := size + Alignment(g, size);
    assert size % 8 == 0 && next <= 128;
    SmallAlignment(g, next);
  }

  /** The walk skips no such size. */
  lemma NoStepBetween(g: Config, size: nat, t: nat)
    requires ConfigOk(g) && IsStep(g, size) && size < MAX_SIZE && size < t < size + Alignment(g, size)
    ensures !IsStep(g, t)
  {
    NextIsStep(g, size);
    if IsStep(g, t) {
      assert AlignmentShift(g, t) >= AlignmentShift(g, size) by {
        ShiftGrows(g, size, t);
      }
      hide Pow2;
      MultipleOfSmaller(t, AlignmentShift(g, size), AlignmentShift(g, t));
      NextAligned(Alignment(g, size), size, t);
    }
  }

  lemma ShiftGrows(g: Config, size: nat, t: nat)
    requires ConfigOk(g) && size <= t <= MAX_SIZE
    ensures AlignmentShift(g, size) <= AlignmentShift(g, t)
  {
    Powers();
    if t >= 128 {
      LogOfLarge(t);
      if size >= 128 {
        LogOfLarge(size);
        LogGrows(size, t);
      }
    }
    hide Pow2;
    hide Log;
  }

  lemma {:induction false} LogGrows(a: nat, b: nat)
    requires a <= b
    ensures Log(a) <= Log(b)
  {
    if a >= 2 {
      LogGrows(a / 2, b / 2);
    }
  }

  // ---------- Spans ----------

  /** How many objects move at a time between a thread and the central list. */
  function NumMoveSize(g: Config, size: nat): nat
  {
    if size == 0 then 0 else
    var num := 65536 / size;
    var atLeastTwo := if num < 2 then 2 else num;
    if atLeastTwo > g.transferNumObjects then g.transferNumObjects else atLeastTwo
  }

  /** As many objects as 64K hold, but at least two, and never more than the limit. */
  ghost predicate MovesAtATime(g: Config, size: nat, r: int)
  {
    && r <= g.transferNumObjects
    && (r > 2 ==> r * size <= 65536)
    && (r < g.transferNumObjects ==> r >= 2 && (r + 1) * size > 65536)
  }

  lemma NumMoveIff(g: Config, size: nat, r: nat)
    ensures r == NumMoveSize(g, size) <==> if size > 0 then MovesAtATime(g, size, r) else r == 0
  {
    if size == 0 {
      return;
    }
    var num := 65536 / size;
    Quotient(size, 65536);
    MulDistributes(num, 1, size);
    if r <= num {
      MulMonotone(size, r, num);
    } else {
      MulMonotone(size, num + 1, r);
    }
    if r + 1 <= num {
      MulMonotone(size, r + 1, num);
    }
    var n := NumMoveSize(g, size);
    if n <= num {
      MulMonotone(size, n, num);
    }
    if n > num {
      MulMonotone(size, num + 1, n + 1);
    }
  }

  /** A span that wastes at most an eighth and holds enough objects to move. */
  predicate GoodSpan(g: Config, size: nat, bytes: nat)
    requires size > 0
  {
    bytes % size <= bytes / 8 && bytes / size >= NumMoveSize(g, size) / 4
  }

  function Enough(g: Config, size: nat): nat
  {
    (8 + NumMoveSize(g, size) / 4) * size
  }

  lemma EnoughIsGood(g: Config, size: nat, bytes: nat)
    requires size > 0 && bytes >= Enough(g, size)
    ensures bytes >= 8 * size && GoodSpan(g, size, bytes)
  {
    hide NumMoveSize;
    var blocks, found := NumMoveSize(g, size) / 4, bytes / size;
    MulDistributes(8, blocks, size);
    MulMonotone(size, 0, blocks);
    Quotient(size, bytes);
    if found < blocks {
      MulMonotone(size, found + 1, blocks);
    }
  }

  /** The first good size at or after bytes, page by page. */
  function SpanFrom(g: Config, size: nat, bytes: nat): (r: nat)
    requires size > 0 && bytes > 0
    ensures r >= bytes && GoodSpan(g, size, r)
    decreases if bytes < Enough(g, size) then Enough(g, size) - bytes else 0
  {
    if GoodSpan(g, size, bytes) then bytes else
    EnoughIsGoodHere(g, size, bytes);
    SpanFrom(g, size, bytes + PageSize(g))
  }

  lemma EnoughIsGoodHere(g: Config, size: nat, bytes: nat)
    requires size > 0 && !GoodSpan(g, size, bytes)
    ensures bytes < Enough(g, size)
  {
    if bytes >= Enough(g, size) {
      EnoughIsGood(g, size, bytes);
    }
  }

  function SpanBytes(g: Config, size: nat): nat
    requires size > 0
  {
    SpanFrom(g, size, PageSize(g))
  }

  /** A class gets the least number of pages that does; each span holds an object. */
  lemma {:induction false} SpanIsLeast(g: Config, size: nat, bytes: nat, other: nat)
    requires size > 0 && bytes > 0 && bytes % PageSize(g) == 0
    ensures SpanFrom(g, size, bytes) % PageSize(g) == 0
    ensures SpanFrom(g, size, bytes) / size >= 1
    ensures bytes <= other < SpanFrom(g, size, bytes) && other % PageSize(g) == 0 ==> !GoodSpan(g, size, other)
    decreases if bytes < Enough(g, size) then Enough(g, size) - bytes else 0
  {
    if GoodSpan(g, size, bytes) {
      Quotient(size, bytes);
      assert bytes / size >= 1;
    } else {
      EnoughIsGoodHere(g, size, bytes);
      RemainderOfNext(PageSize(g), bytes);
      SpanIsLeast(g, size, bytes + PageSize(g), other);
      if bytes < other && other % PageSize(g) == 0 {
        NextAligned(PageSize(g), bytes, other);
      }
    }
  }

  /** A span of whole pages with n objects, which leaves over at most an eighth of it, and
      where n is a fourth of what is moved at a time, rounded down, or more. */
  ghost predicate Holds(g: Config, size: nat, bytes: nat, n: nat)
  {
    && bytes > 0 && bytes % PageSize(g) == 0 && n * size <= bytes < n * size + size
    && 8 * (bytes - n * size) <= bytes && 4 * n + 3 >= NumMoveSize(g, size)
  }

  lemma HoldsIff(g: Config, size: nat, bytes: nat, n: nat)
    requires size > 0 && bytes > 0 && bytes % PageSize(g) == 0
    ensures Holds(g, size, bytes, n) <==> GoodSpan(g, size, bytes) && n == bytes / size
  {
    hide NumMoveSize;
    Quotient(size, bytes);
    if n * size <= bytes < n * size + size {
      QuotientOf(size, bytes, n, bytes - n * size);
    }
  }

  /** The bytes of a span are the least number that can be held so: this holds of that
      number and of no other. */
  lemma SpanBytesIff(g: Config, size: nat, bytes: nat)
    requires size > 0
    ensures bytes == SpanBytes(g, size) <==>
            && (exists n :: Holds(g, size, bytes, n))
            && forall other: nat, n: nat | other < bytes :: !Holds(g, size, other, n)
  {
    hide GoodSpan;
    hide Holds;
    var least := SpanBytes(g, size);
    RemainderOf(PageSize(g), 1);
    SpanIsLeast(g, size, PageSize(g), 0);
    HoldsIff(g, size, least, least / size);
    forall other: nat, n: nat | other < least
      ensures !Holds(g, size, other, n)
    {
      if Holds(g, size, other, n) {
        WholeIsPage(g, size, other, n);
        SpanIsLeast(g, size, PageSize(g), other);
        HoldsIff(g, size, other, n);
      }
    }
  }

  lemma WholeIsPage(g: Config, size: nat, bytes: nat, n: nat)
    requires Holds(g, size, bytes, n)
    ensures bytes % PageSize(g) == 0 && bytes >= PageSize(g) > 0
  {
    Quotient(PageSize(g), bytes);
    if bytes / PageSize(g) >= 1 {
      MulMonotone(PageSize(g), 1, bytes / PageSize(g));
    } else {
      MulMonotone(PageSize(g), bytes / PageSize(g), 0);
    }
  }

  /** Init's nested loops: pages until little is left over, and again until enough. */
  method SpanSize(g: Config, size: nat) returns (psize: nat)
    requires size > 0
    ensures psize == SpanBytes(g, size)
  {
    var blocksToMove := NumMoveSize(g, size) / 4;
    psize := 0;
    while true
      invariant SpanBytes(g, size) == SpanFrom(g, size, psize + PageSize(g))
      decreases Enough(g, size) - psize
    {
      ghost var before := psize;
      psize := psize + PageSize(g);
      while psize % size > psize / 8
        invariant psize > before
        invariant SpanBytes(g, size) == SpanFrom(g, size, psize)
        decreases Enough(g, size) - psize
      {
        EnoughIsGoodHere(g, size, psize);
        psize := psize + PageSize(g);
      }
      if psize / size >= blocksToMove {
        return;
      }
      EnoughIsGoodHere(g, size, psize);
    }
  }

  // ---------- Classes ----------

  /** Sizes and pages of the classes so far; class 0 is for large sizes. */
  datatype Table = Table(sizes: seq<int>, pages: seq<int>)

  const NO_CLASSES := Table([0], [0])

  function SpanPages(g: Config, size: nat): int
    requires size > 0
  {
    SpanBytes(g, size) / PageSize(g)
  }

  /** Two sizes that get the same spans with the same number of objects. */
  predicate SameSpan(g: Config, s: nat, t: nat)
    requires s > 0 && t > 0
  {
    SpanBytes(g, s) == SpanBytes(g, t) && SpanBytes(g, s) / s == SpanBytes(g, t) / t
  }

  /** A size joins the last class if that changes neither pages nor objects per span. */
  ghost function AddSize(g: Config, t: Table, size: nat): Table
    requires size > 0
  {
    var n := |t.sizes|;
    if n > 1 && t.sizes[n - 1] > 0 && SameSpan(g, t.sizes[n - 1], size)
    then t.(sizes := t.sizes[n - 1 := size])
    else Table(t.sizes + [size], t.pages + [SpanPages(g, size)])
  }

  ghost function Walk(g: Config, t: Table, size: nat): Table
    requires size > 0
    decreases MAX_SIZE + 1 - size
  {
    if size > MAX_SIZE then t else Walk(g, AddSize(g, t, size), size + Alignment(g, size))
  }

  lemma {:induction false} WalkGrows(g: Config, t: Table, size: nat)
    requires size > 0
    ensures |Walk(g, t, size).sizes| >= |t.sizes|
    decreases MAX_SIZE + 1 - size
  {
    if size <= MAX_SIZE {
      WalkGrows(g, AddSize(g, t, size), size + Alignment(g, size));
    }
  }

  /** c is the least class that can hold size s. */
  predicate Right(sizes: seq<int>, c: int, s: int)
  {
    1 <= c < |sizes| && s <= sizes[c] && (c > 1 ==> sizes[c - 1] < s)
  }

  /** Every class is of a size of the walk, with the least good number of pages. */
  ghost predicate Entries(g: Config, t: Table)
  {
    |t.sizes| == |t.pages| && forall c {:trigger t.sizes[c]} | 1 <= c < |t.sizes| ::
      t.sizes[c] > 0 && IsStep(g, t.sizes[c]) && t.pages[c] == SpanPages(g, t.sizes[c])
  }

  ghost predicate Ascending(t: Table)
  {
    forall c, d {:trigger t.sizes[c], t.sizes[d]} | 1 <= c < d < |t.sizes| :: t.sizes[c] < t.sizes[d]
  }

  /** Sizes of one class get spans as they would get on their own: merging is free. */
  ghost predicate MergedFreely(g: Config, t: Table)
  {
    forall c, s: nat {:trigger Right(t.sizes, c, s)} | IsStep(g, s) && Right(t.sizes, c, s) ::
      t.sizes[c] > 0 && SameSpan(g, s, t.sizes[c])
  }

  /** Sizes are in different classes for a reason. */
  ghost predicate MergedFully(g: Config, t: Table)
  {
    forall c {:trigger t.sizes[c]} | 1 <= c < |t.sizes| - 1 ::
      t.sizes[c] > 0 && !SameSpan(g, t.sizes[c], t.sizes[c] + Alignment(g, t.sizes[c]))
  }

  /** After the sizes up to last. */
  ghost predicate TableOk(g: Config, t: Table, last: nat)
  {
    var n := |t.sizes|;
    && n >= 1 && (n == 1 <==> last == 0) && (n > 1 ==> t.sizes[n - 1] == last)
    && Entries(g, t) && Ascending(t) && MergedFreely(g, t) && MergedFully(g, t)
  }

  /** Size follows last in the walk. */
  ghost predicate Follows(g: Config, last: nat, size: nat)
  {
    IsStep(g, size) && if last == 0 then size == 8 else IsStep(g, last) && size == last + Alignment(g, last)
  }

  lemma AddKeepsEntries(g: Config, t: Table, last: nat, size: nat)
    requires TableOk(g, t, last) && Follows(g, last, size)
    ensures Entries(g, AddSize(g, t, size)) && Ascending(AddSize(g, t, size))
  {
    hide SpanBytes;
    hide IsStep;
    hide Alignment;
    hide MergedFreely;
    hide MergedFully;
    hide Right;
    var n := |t.sizes|;
    assert n > 1 && SameSpan(g, last, size) ==> SpanPages(g, last) == SpanPages(g, size);
    hide SpanPages;
    hide SameSpan;
  }

  lemma AddMergesFully(g: Config, t: Table, last: nat, size: nat)
    requires TableOk(g, t, last) && Follows(g, last, size)
    ensures MergedFully(g, AddSize(g, t, size))
  {
    hide SpanBytes;
    hide IsStep;
    hide Alignment;
    hide MergedFreely;
    hide Entries;
    hide Right;
    hide SpanPages;
    hide SameSpan;
  }

  lemma AddMergesFreely(g: Config, t: Table, last: nat, size: nat, c: int, s: nat)
    requires ConfigOk(g) && TableOk(g, t, last) && Follows(g, last, size)
    requires IsStep(g, s) && Right(AddSize(g, t, size).sizes, c, s)
    ensures s > 0 && SameSpan(g, s, AddSize(g, t, size).sizes[c])
  {
    var t' := AddSize(g, t, size);
    var n := |t.sizes|;
    hide Entries;
    hide MergedFully;
    if s > last {
      if last == 0 {
        assert s >= 8;
      } else {
        StepsAreApart(g, last, s);
      }
      assert s == size == t'.sizes[c];
    } else {
      assert Right(t.sizes, c, s);
      assert SameSpan(g, s, t.sizes[c]);
    }
  }

  lemma AddKeepsTable(g: Config, t: Table, last: nat, size: nat)
    requires ConfigOk(g) && TableOk(g, t, last) && Follows(g, last, size)
    ensures TableOk(g, AddSize(g, t, size), size)
  {
    AddKeepsEntries(g, t, last, size);
    AddMergesFully(g, t, last, size);
    forall c, s: nat | IsStep(g, s) && Right(AddSize(g, t, size).sizes, c, s)
      ensures AddSize(g, t, size).sizes[c] > 0 && SameSpan(g, s, AddSize(g, t, size).sizes[c])
    {
      AddMergesFreely(g, t, last, size, c, s);
    }
    hide Entries;
    hide MergedFully;
    hide Ascending;
    hide SameSpan;
  }

  lemma StepsAreApart(g: Config, last: nat, s: nat)
    requires ConfigOk(g) && IsStep(g, last) && IsStep(g, s) && last < s
    ensures s >= last + Alignment(g, last)
  {
    if s < last + Alignment(g, last) {
      NoStepBetween(g, last, s);
    }
  }

  lemma {:induction false} WalkIsOk(g: Config, t: Table, last: nat, size: nat)
    requires ConfigOk(g) && TableOk(g, t, last) && Follows(g, last, size)
    ensures TableOk(g, Walk(g, t, size), MAX_SIZE)
    decreases MAX_SIZE - size
  {
    AddKeepsTable(g, t, last, size);
    if size < MAX_SIZE {
      NextIsStep(g, size);
      WalkIsOk(g, AddSize(g, t, size), size, size + Alignment(g, size));
    } else {
      assert Walk(g, AddSize(g, t, size), size + Alignment(g, size)) == AddSize(g, t, size);
    }
  }

  lemma WalkStarts(g: Config)
    requires ConfigOk(g)
    ensures TableOk(g, NO_CLASSES, 0) && Follows(g, 0, 8)
  {
    Powers();
    assert AlignmentShift(g, 8) == 3;
  }

  /** What Init makes of a configuration. */
  ghost function Classes(g: Config): Table
  {
    Walk(g, NO_CLASSES, 8)
  }

  lemma ClassesAreTable(g: Config)
    requires ConfigOk(g)
    ensures TableOk(g, Classes(g), MAX_SIZE) && |Classes(g).sizes| >= 1 && Classes(g).sizes[0] == 0
  {
    hide Walk;
    WalkStarts(g);
    WalkIsOk(g, NO_CLASSES, 0, 8);
    WalkKeepsClassZero(g, NO_CLASSES, 8);
  }

  /** A size shares the class of the next larger one exactly when their spans, and the
      objects these hold, are the same. */
  lemma ClassesMerge(g: Config, c: int, s: nat)
    requires ConfigOk(g) && IsStep(g, s) && Right(Classes(g).sizes, c, s)
    ensures Classes(g).sizes[c] > 0 && SameSpan(g, s, Classes(g).sizes[c])
    ensures s == Classes(g).sizes[c] && c < |Classes(g).sizes| - 1 ==> !SameSpan(g, s, s + Alignment(g, s))
  {
    hide Classes;
    hide SpanBytes;
    hide Alignment;
    ClassesAreTable(g);
  }

  /** The pages of a span hold what SpanBytes says, in whole pages. */
  lemma WholePages(g: Config, size: nat)
    requires size > 0
    ensures SpanPages(g, size) * PageSize(g) == SpanBytes(g, size)
  {
    RemainderOf(PageSize(g), 1);
    SpanIsLeast(g, size, PageSize(g), 0);
    Quotient(PageSize(g), SpanBytes(g, size));
  }

  /** Every class, merged or not: at most an eighth of a span is left over, and it holds
      at least one object and as many as are moved at a time, divided by four. */
  lemma ClassesWasteLittle(g: Config, c: int)
    requires ConfigOk(g) && 1 <= c < |Classes(g).sizes|
    ensures var t := Classes(g);
            && |t.pages| == |t.sizes| && t.sizes[c] > 0
            && var span := t.pages[c] * PageSize(g); var size := t.sizes[c];
            span % size <= span / 8 && span / size >= 1 && span / size >= NumMoveSize(g, size) / 4
  {
    hide Classes;
    ClassesAreTable(g);
    var size := Classes(g).sizes[c];
    WholePages(g, size);
    RemainderOf(PageSize(g), 1);
    SpanIsLeast(g, size, PageSize(g), 0);
  }

  // ---------- From sizes to classes ----------

  function ClassIndex(s: int): int
  {
    if s <= MAX_SMALL_SIZE then (s + 7) / 8 else (s + 127 + 15360) / 128
  }

  /** Sizes on both sides of a bucket end have different indices, in order. */
  lemma IndexSeparates(s: int, end: int, t: int)
    requires 0 <= s <= end < t && BucketEnd(end)
    ensures ClassIndex(s) < ClassIndex(t)
  {
    if end <= MAX_SMALL_SIZE {
      var k := end / 8;
      assert end == 8 * k;
      assert ClassIndex(s) <= k;
      assert t > MAX_SMALL_SIZE ==> ClassIndex(t) > 128;
    } else {
      var k := end / 128;
      assert end == 128 * k;
      assert s <= MAX_SMALL_SIZE ==> ClassIndex(s) <= 128;
      assert ClassIndex(t) > k + 120;
    }
  }

  lemma IndexInRange(s: int)
    requires 0 <= s <= MAX_SIZE
    ensures 0 <= ClassIndex(s) < CLASS_ARRAY_SIZE
  {
  }

  /** The last size of the index bucket of s. */
  function EndOfBucket(s: int): (end: int)
    requires s >= 0
    ensures s <= end && BucketEnd(end) && ClassIndex(end) == ClassIndex(s)
    ensures s <= MAX_SIZE ==> end <= MAX_SIZE
  {
    if s <= MAX_SMALL_SIZE then (s + 7) / 8 * 8 else (s + 127) / 128 * 128
  }

  /** Two sizes have one index exactly when they are in one bucket. */
  lemma SameIndexIff(s: int, t: int)
    requires s >= 0 && t >= 0
    ensures ClassIndex(s) == ClassIndex(t) <==> EndOfBucket(s) == EndOfBucket(t)
  {
    var d, e := EndOfBucket(s), EndOfBucket(t);
    if d < e {
      IndexSeparates(d, d, e);
    } else if e < d {
      IndexSeparates(e, e, d);
    }
  }

  /** Class sizes that end index buckets, up to the largest size. */
  ghost predicate SizesOk(sizes: seq<int>)
  {
    && |sizes| >= 2 && sizes[|sizes| - 1] == MAX_SIZE && sizes[0] == 0
    && (forall c {:trigger sizes[c]} | 1 <= c < |sizes| :: sizes[c] > 0 && BucketEnd(sizes[c]))
    && (forall c, d {:trigger sizes[c], sizes[d]} | 1 <= c < d < |sizes| :: sizes[c] < sizes[d])
  }

  lemma ClassesAreOk(g: Config)
    requires ConfigOk(g)
    ensures SizesOk(Classes(g).sizes)
  {
    hide Classes;
    hide BucketEnd;
    hide SpanBytes;
    hide Alignment;
    ClassesAreTable(g);
    var t := Classes(g);
    forall c | 1 <= c < |t.sizes|
      ensures t.sizes[c] > 0 && BucketEnd(t.sizes[c])
    {
      StepIsBucketEnd(g, t.sizes[c]);
    }
  }

  lemma {:induction false} WalkKeepsClassZero(g: Config, t: Table, size: nat)
    requires size > 0 && |t.sizes| >= 1 && t.sizes[0] == 0
    ensures |Walk(g, t, size).sizes| >= 1 && Walk(g, t, size).sizes[0] == 0
    decreases MAX_SIZE + 1 - size
  {
    if size <= MAX_SIZE {
      WalkKeepsClassZero(g, AddSize(g, t, size), size + Alignment(g, size));
    }
  }

  /** Right names the least class that can hold the size, and only that one. */
  lemma RightIsLeast(sizes: seq<int>, c: int, s: int)
    requires SizesOk(sizes)
    ensures Right(sizes, c, s) <==>
              1 <= c < |sizes| && s <= sizes[c] && forall d | 1 <= d < |sizes| && s <= sizes[d] :: c <= d
  {
    if Right(sizes, c, s) {
      forall d | 1 <= d < |sizes| && s <= sizes[d]
        ensures c <= d
      {
        assert c > 1 && s <= sizes[d] ==> sizes[c - 1] < sizes[d];
      }
    }
  }

  /** A bucket is on one side of every class size. */
  lemma BucketIsWhole(sizes: seq<int>, c: int, s: int)
    requires SizesOk(sizes) && 1 <= c < |sizes| && s >= 0
    ensures s <= sizes[c] <==> EndOfBucket(s) <= sizes[c]
  {
    if s <= sizes[c] < EndOfBucket(s) {
      IndexSeparates(s, sizes[c], EndOfBucket(s));
    }
  }

  /** So no bucket straddles two classes. */
  lemma RightInBucket(sizes: seq<int>, c: int, s: int, t: int)
    requires SizesOk(sizes) && 0 <= s && 0 <= t && ClassIndex(s) == ClassIndex(t)
    requires Right(sizes, c, s)
    ensures Right(sizes, c, t)
  {
    SameIndexIff(s, t);
    BucketIsWhole(sizes, c, s);
    BucketIsWhole(sizes, c, t);
    if c > 1 {
      BucketIsWhole(sizes, c - 1, s);
      BucketIsWhole(sizes, c - 1, t);
    }
  }

  lemma NextFollows(g: Config, last: nat, size: nat)
    requires ConfigOk(g) && Follows(g, last, size)
    ensures size % Alignment(g, size) == 0
    ensures size + Alignment(g, size) <= MAX_SIZE ==> Follows(g, size, size + Alignment(g, size))
  {
    if size < MAX_SIZE {
      NextIsStep(g, size);
    }
  }

  /** The merge test of Init, on pages and objects, is SameSpan. */
  lemma MergeTest(g: Config, last: nat, size: nat, pages: int, psize: nat)
    requires last > 0 && size > 0 && pages == SpanPages(g, last) && psize == SpanBytes(g, size)
    ensures psize / PageSize(g) * PageSize(g) == psize
    ensures SameSpan(g, last, size) <==>
              psize / PageSize(g) == pages && psize / PageSize(g) * PageSize(g) / size == pages * PageSize(g) / last
  {
    WholePages(g, last);
    WholePages(g, size);
  }

  /** The table is right for the sizes up to done. */
  ghost predicate Filled(sizes: seq<int>, a: seq<int>, done: int)
  {
    forall s {:trigger ClassIndex(s)} | 0 <= s <= done && s <= MAX_SIZE ::
      0 <= ClassIndex(s) < |a| && Right(sizes, a[ClassIndex(s)], s)
  }

  lemma FilledNothing(sizes: seq<int>, a: seq<int>)
    ensures Filled(sizes, a, -1)
  {
  }

  lemma LastSize(sizes: seq<int>)
    requires SizesOk(sizes)
    ensures |sizes| >= 2 && sizes[|sizes| - 1] == MAX_SIZE
  {
  }

  lemma SizesArePositive(sizes: seq<int>, c: int)
    requires SizesOk(sizes) && 1 <= c < |sizes|
    ensures sizes[c] > 0
  {
  }

  /** The double-check has passed for all indices before that of size. */
  ghost predicate CheckedTo(sizes: seq<int>, a: seq<int>, size: int)
  {
    forall s {:trigger ClassIndex(s)} | 0 <= s <= MAX_SIZE && ClassIndex(s) < ClassIndex(size) ::
      0 <= ClassIndex(s) < |a| && Right(sizes, a[ClassIndex(s)], s)
  }

  lemma NextIndex(size: int)
    requires 0 <= size && size % 8 == 0 && (size > MAX_SMALL_SIZE ==> size % 128 == 8)
    ensures var next := size + if size <= MAX_SMALL_SIZE then 8 else 128;
            ClassIndex(next) == ClassIndex(size) + 1 && next % 8 == 0 && (next > MAX_SMALL_SIZE ==> next % 128 == 8)
  {
    hide ClassIndex;
    if size <= MAX_SMALL_SIZE {
      SmallIndex(size, size / 8);
    } else {
      LargeIndex(size, size / 128);
    }
  }

  lemma SmallIndex(size: int, k: int)
    requires size == 8 * k && 0 <= k <= 128
    ensures ClassIndex(size) == k && ClassIndex(size + 8) == k + 1
    ensures (size + 8) % 8 == 0 && (size + 8 > MAX_SMALL_SIZE ==> (size + 8) % 128 == 8)
  {
  }

  lemma LargeIndex(size: int, k: int)
    requires size == 128 * k + 8 && k >= 8
    ensures ClassIndex(size) == k + 121 && ClassIndex(size + 128) == k + 122
    ensures (size + 128) % 8 == 0 && (size + 128) % 128 == 8
  {
    assert (size + 128) == 8 * (16 * k + 17);
  }

  /** One sample stands for its whole index bucket, and the next is in the next bucket. */
  lemma CheckNext(sizes: seq<int>, a: seq<int>, size: int)
    requires SizesOk(sizes) && CheckedTo(sizes, a, size) && 0 <= size <= MAX_SIZE
    requires size % 8 == 0 && (size > MAX_SMALL_SIZE ==> size % 128 == 8)
    requires 0 <= ClassIndex(size) < |a| && Right(sizes, a[ClassIndex(size)], size)
    ensures var next := size + if size <= MAX_SMALL_SIZE then 8 else 128;
            CheckedTo(sizes, a, next) && next % 8 == 0 && (next > MAX_SMALL_SIZE ==> next % 128 == 8)
  {
    NextIndex(size);
    hide ClassIndex;
    hide Right;
    hide SizesOk;
    forall s | 0 <= s <= MAX_SIZE && ClassIndex(s) == ClassIndex(size)
      ensures Right(sizes, a[ClassIndex(s)], s)
    {
      RightInBucket(sizes, a[ClassIndex(size)], size, s);
    }
  }

  lemma CheckedAll(sizes: seq<int>, a: seq<int>, size: int)
    requires CheckedTo(sizes, a, size) && size > MAX_SIZE && size % 128 == 8
    ensures Filled(sizes, a, MAX_SIZE)
  {
    forall s | 0 <= s <= MAX_SIZE
      ensures ClassIndex(s) < ClassIndex(size)
    {
      IndexSeparates(s, MAX_SIZE, size);
    }
    hide ClassIndex;
    hide Right;
  }

  /** Below s, the table is as before up to done, and says c after it. */
  ghost predicate FilledPart(before: seq<int>, a: seq<int>, c: int, done: int, s: int)
  {
    && |a| == |before| == CLASS_ARRAY_SIZE
    && (forall t {:trigger ClassIndex(t)} | 0 <= t <= done && t <= MAX_SIZE ::
          0 <= ClassIndex(t) < |a| && a[ClassIndex(t)] == before[ClassIndex(t)])
    && (forall t {:trigger ClassIndex(t)} | 0 <= t && done < t <= s - 8 && t <= MAX_SIZE ::
          0 <= ClassIndex(t) < |a| && a[ClassIndex(t)] == c)
  }

  lemma SizeBounds(sizes: seq<int>, c: int)
    requires SizesOk(sizes) && 1 <= c < |sizes|
    ensures 0 < sizes[c] <= MAX_SIZE && sizes[c] % 8 == 0
    ensures c > 1 ==> sizes[c - 1] < sizes[c] && BucketEnd(sizes[c - 1])
  {
    assert c < |sizes| - 1 ==> sizes[c] < sizes[|sizes| - 1];
  }

  lemma SevenBelow(s: int, j: int)
    requires s % 8 == 0 && j == (s - 8) / 128
    ensures j * 128 + 8 <= s <= j * 128 + 128
  {
    Quotient(8, s);
    Quotient(128, s - 8);
    EightsBelow(s - 8, s / 8 - 1, j, (s - 8) % 128);
  }

  lemma EightsBelow(a: int, k: int, j: int, r: int)
    requires a == k * 8 == j * 128 + r && 0 <= r < 128
    ensures r <= 120
  {
    assert r == (k - j * 16) * 8;
  }

  /** A multiple of 8 and the seven sizes before it share an index. */
  lemma IndexOfEight(s: int, t: int)
    requires s % 8 == 0 && 0 <= t && s - 8 < t <= s
    ensures ClassIndex(t) == ClassIndex(s)
  {
    var k := s / 8;
    Quotient(8, s);
    if s <= MAX_SMALL_SIZE {
      QuotientOf(8, s + 7, k, 7);
      QuotientOf(8, t + 7, k, t + 7 - k * 8);
    } else {
      var j := (s - 8) / 128;
      SevenBelow(s, j);
      QuotientOf(128, s + 127 + 15360, j + 121, s - j * 128 - 1);
      QuotientOf(128, t + 127 + 15360, j + 121, t - j * 128 - 1);
    }
  }

  lemma FillNext(sizes: seq<int>, before: seq<int>, a: seq<int>, c: int, done: int, s: int)
    requires SizesOk(sizes) && 1 <= c < |sizes| && done == (if c == 1 then -1 else sizes[c - 1]) && done < s <= sizes[c]
    requires s % 8 == 0 && 0 <= s && FilledPart(before, a, c, done, s) && 0 <= ClassIndex(s) < |a|
    ensures FilledPart(before, a[ClassIndex(s) := c], c, done, s + 8)
  {
    SizeBounds(sizes, c);
    forall t | 0 <= t <= s && t <= MAX_SIZE
      ensures t <= done ==> ClassIndex(t) < ClassIndex(s)
      ensures t > s - 8 ==> ClassIndex(t) == ClassIndex(s)
    {
      hide ClassIndex;
      if t <= done {
        IndexSeparates(t, done, s);
      }
      if t > s - 8 {
        IndexOfEight(s, t);
      }
    }
    hide ClassIndex;
    hide BucketEnd;
  }

  lemma FillDone(sizes: seq<int>, before: seq<int>, a: seq<int>, c: int, done: int)
    requires SizesOk(sizes) && 1 <= c < |sizes| && done == (if c == 1 then -1 else sizes[c - 1])
    requires Filled(sizes, before, done) && FilledPart(before, a, c, done, sizes[c] + 8)
    ensures Filled(sizes, a, sizes[c])
  {
    hide ClassIndex;
    hide BucketEnd;
  }

  class SizeMap {
    const g: Config
    const classToSize: array<int>
    const classToPages: array<int>
    const classArray: array<int>
    const numObjectsToMove: array<int>

    ghost predicate Shaped()
    {
      && ConfigOk(g) && classToSize.Length == classToPages.Length == numObjectsToMove.Length == g.numClasses
      && classArray.Length == CLASS_ARRAY_SIZE
      && classToSize != classToPages && classToSize != classArray && classToSize != numObjectsToMove
      && classToPages != classArray && classToPages != numObjectsToMove && classArray != numObjectsToMove
    }

    constructor (g: Config)
      requires ConfigOk(g)
      ensures Shaped() && this.g == g
      ensures fresh(classToSize) && fresh(classToPages) && fresh(classArray) && fresh(numObjectsToMove)
    {
      this.g := g;
      classToSize := new int[g.numClasses](_ => 0);
      classToPages := new int[g.numClasses](_ => 0);
      classArray := new int[CLASS_ARRAY_SIZE](_ => 0);
      numObjectsToMove := new int[g.numClasses](_ => 0);
    }

    /** One size of the walk: merged into the last class, or a class of its own. */
    method AddClass(sc: nat, size: nat, ghost t: Table, ghost last: nat) returns (ok: bool, next: nat)
      requires Shaped() && 1 <= sc <= g.numClasses && classToSize[..sc] == t.sizes && classToPages[..sc] == t.pages
      requires TableOk(g, t, last) && Follows(g, last, size)
      modifies classToSize, classToPages
      ensures 1 <= next == |AddSize(g, t, size).sizes|
      ensures ok <==> next <= g.numClasses
      ensures ok ==>
                && classToSize[..next] == AddSize(g, t, size).sizes
                && classToPages[..next] == AddSize(g, t, size).pages
    {
      hide SpanBytes;
      hide Alignment;
      hide MergedFreely;
      hide MergedFully;
      hide Ascending;
      hide IsStep;
      var psize := SpanSize(g, size);
      var myPages := psize / PageSize(g);
      if sc > 1 {
        assert t.sizes[sc - 1] == last && last > 0 && t.pages[sc - 1] == SpanPages(g, last);
        MergeTest(g, last, size, t.pages[sc - 1], psize);
      }
      hide SameSpan;
      if sc > 1 && myPages == classToPages[sc - 1] {
        var myObjects := myPages * PageSize(g) / size;
        var prevObjects := classToPages[sc - 1] * PageSize(g) / classToSize[sc - 1];
        if myObjects == prevObjects {
          classToSize[sc - 1] := size;
          return true, sc;
        }
      }
      next := sc + 1;
      if sc == g.numClasses {
        return false, next;
      }
      classToPages[sc] := myPages;
      classToSize[sc] := size;
      ok := true;
    }

    /** The class table. False when the number of classes is not the expected one;
        writing more classes than there is room for is taken for the same failure. */
    method AssignClasses() returns (ok: bool)
      requires Shaped()
      modifies classToSize, classToPages
      ensures ok <==> |Classes(g).sizes| == g.numClasses
      ensures ok ==> classToSize[..] == Classes(g).sizes && classToPages[..] == Classes(g).pages
    {
      hide Alignment;
      hide TableOk;
      hide Follows;
      hide AddSize;
      classToSize[0], classToPages[0] := 0, 0;
      var sc: nat, size: nat := 1, 8;
      ghost var t, last: nat := NO_CLASSES, 0;
      WalkStarts(g);
      while size <= MAX_SIZE
        invariant 1 <= sc == |t.sizes| <= g.numClasses && size > 0
        invariant classToSize[..sc] == t.sizes && classToPages[..sc] == t.pages
        invariant TableOk(g, t, last) && (size <= MAX_SIZE ==> Follows(g, last, size))
        invariant Walk(g, t, size) == Classes(g)
        decreases MAX_SIZE + 1 - size
      {
        var alignment := AlignmentForSize(g, size);
        AddKeepsTable(g, t, last, size);
        NextFollows(g, last, size);
        assert size % alignment == 0;
        ok, sc := AddClass(sc, size, t, last);
        t, last, size := AddSize(g, t, size), size, size + alignment;
        if !ok {
          WalkGrows(g, t, size);
          return;
        }
      }
      ok := sc == g.numClasses;
    }
  
    /** Every index from the first size of a class to its last. */
    method FillClassArray()
      requires Shaped() && SizesOk(classToSize[..])
      modifies classArray
      ensures Filled(classToSize[..], classArray[..], MAX_SIZE)
    {
      hide SizesOk;
      hide Filled;
      ghost var sizes := classToSize[..];
      var nextSize := 0;
      ghost var done := -1;
      FilledNothing(sizes, classArray[..]);
      LastSize(sizes);
      for c := 1 to g.numClasses
        invariant nextSize % 8 == 0 && nextSize == (if done < 0 then 0 else done + 8)
        invariant done == if c == 1 then -1 else sizes[c - 1]
        invariant Filled(sizes, classArray[..], done)
      {
        var maxSizeInClass := classToSize[c];
        SizeBounds(sizes, c);
        FillClass(c, nextSize, maxSizeInClass, sizes, done);
        nextSize, done := maxSizeInClass + 8, maxSizeInClass;
      }
    }

    /** The inner loop: the sizes of class c in steps of the alignment. */
    method FillClass(c: int, nextSize: int, maxSizeInClass: int, ghost sizes: seq<int>, ghost done: int)
      requires Shaped() && SizesOk(sizes) && 1 <= c < |sizes| <= 256 && maxSizeInClass == sizes[c] && nextSize % 8 == 0
      requires nextSize == (if done < 0 then 0 else done + 8) && done == if c == 1 then -1 else sizes[c - 1]
      requires Filled(sizes, classArray[..], done)
      modifies classArray
      ensures Filled(sizes, classArray[..], maxSizeInClass)
    {
      hide BucketEnd;
      ghost var before := classArray[..];
      var s := nextSize;
      SizeBounds(sizes, c);
      while s <= maxSizeInClass
        invariant s % 8 == 0 && nextSize <= s <= maxSizeInClass + 8
        invariant FilledPart(before, classArray[..], c, done, s)
      {
        IndexInRange(s);
        FillNext(sizes, before, classArray[..], c, done, s);
        classArray[ClassIndex(s)] := c % 256;
        s := s + 8;
      }
      FillDone(sizes, before, classArray[..], c, done);
    }
  
    /** SizeClass. */
    method SizeClass(size: nat) returns (sc: int)
      requires Shaped() && size <= MAX_SIZE
      ensures 0 <= ClassIndex(size) < CLASS_ARRAY_SIZE && sc == classArray[ClassIndex(size)]
      ensures Filled(classToSize[..], classArray[..], MAX_SIZE) ==> Right(classToSize[..], sc, size)
    {
      IndexInRange(size);
      sc := classArray[ClassIndex(size)];
    }

    /** Init's double-check of every eighth size, from 1024 on every 128th. Although it
        samples, it passes only if the table is right for all sizes. */
    method DoubleCheck() returns (ok: bool)
      requires Shaped() && SizesOk(classToSize[..])
      ensures ok <==> Filled(classToSize[..], classArray[..], MAX_SIZE)
    {
      hide SizesOk;
      ghost var sizes := classToSize[..];
      var size := 0;
      while size <= MAX_SIZE
        invariant size >= 0 && size % 8 == 0 && (size > MAX_SMALL_SIZE ==> size % 128 == 8)
        invariant CheckedTo(sizes, classArray[..], size)
        decreases MAX_SIZE + 128 - size
      {
        var sc := SizeClass(size);
        if sc <= 0 || sc >= g.numClasses {
          return false;
        }
        if sc > 1 && size <= classToSize[sc - 1] {
          return false;
        }
        var s := classToSize[sc];
        if size > s || s == 0 {
          SizesArePositive(sizes, sc);
          return false;
        }
        assert Right(sizes, sc, size);
        CheckNext(sizes, classArray[..], size);
        size := size + if size <= MAX_SMALL_SIZE then 8 else 128;
      }
      CheckedAll(sizes, classArray[..], size);
      return true;
    }

    method FillNumObjectsToMove()
      requires Shaped() && SizesOk(classToSize[..])
      modifies numObjectsToMove
      ensures forall c | 1 <= c < g.numClasses ::
                classToSize[c] > 0 && numObjectsToMove[c] == NumMoveSize(g, classToSize[c])
                && MovesAtATime(g, classToSize[c], numObjectsToMove[c])
    {
      hide NumMoveSize;
      hide MovesAtATime;
      for c := 1 to g.numClasses
        invariant forall d {:trigger numObjectsToMove[d]} | 1 <= d < c ::
                    classToSize[d] > 0 && numObjectsToMove[d] == NumMoveSize(g, classToSize[d])
                    && MovesAtATime(g, classToSize[d], numObjectsToMove[d])
      {
        SizesArePositive(classToSize[..], c);
        NumMoveIff(g, classToSize[c], NumMoveSize(g, classToSize[c]));
        numObjectsToMove[c] := NumMoveSize(g, classToSize[c]);
      }
    }

    /** All tables. False stands for the crash on a wrong number of classes; the
        double-check never fails. */
    method Init() returns (ok: bool)
      requires Shaped()
      modifies classToSize, classToPages, classArray, numObjectsToMove
      ensures ok <==> |Classes(g).sizes| == g.numClasses
      ensures ok ==> classToSize[..] == Classes(g).sizes && classToPages[..] == Classes(g).pages
      ensures ok ==> Filled(classToSize[..], classArray[..], MAX_SIZE)
      ensures ok ==> forall c | 1 <= c < g.numClasses ::
                classToSize[c] > 0 && numObjectsToMove[c] == NumMoveSize(g, classToSize[c])
                && MovesAtATime(g, classToSize[c], numObjectsToMove[c])
    {
      hide MovesAtATime;
      hide SizesOk;
      hide Filled;
      hide Walk;
      ok := AssignClasses();
      if !ok {
        return;
      }
      ClassesAreOk(g);
      FillClassArray();
      var passed := DoubleCheck();
      assert passed;
      FillNumObjectsToMove();
    }
  }
}
