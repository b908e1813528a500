/** The heap profile: one bucket of counters per allocation stack, the totals, and
    the map of recorded objects, whose values pack a bucket pointer and two flags
    into one word. */
module HeapProfileTables {
  import opened AddressMaps
  import opened Common
  import opened Lists
  import opened Sums

  // ---------- The packed word ----------

  /** Buckets are records at multiples of four; slot 0 is NULL. */
  function BucketAddress(slot: int): int
  {
    4 * slot
  }

  datatype AllocValue = AllocValue(bytes: nat, rep: int) {
    function Slot(): int
    {
      rep / 4
    }

    function Flags(): int
    {
      rep % 4
    }

    function Bucket(): int
    {
      BucketAddress(Slot())
    }

    predicate Live()
    {
      Flags() == 1 || Flags() == 3
    }

    predicate Ignore()
    {
      Flags() >= 2
    }

    function SetLive(l: bool): (v: AllocValue)
      ensures v.Live() == l && v.Ignore() == Ignore() && v.Bucket() == Bucket() && v.bytes == bytes
      ensures v.Slot() == Slot()
      ensures l == Live() ==> v == this
    {
      AllocValue(bytes, Bucket() + (if Ignore() then 2 else 0) + if l then 1 else 0)
    }

    function SetIgnore(r: bool): (v: AllocValue)
      ensures v.Ignore() == r && v.Live() == Live() && v.Bucket() == Bucket() && v.bytes == bytes
      ensures v.Slot() == Slot()
      ensures r == Ignore() ==> v == this
    {
      AllocValue(bytes, Bucket() + (if r then 2 else 0) + if Live() then 1 else 0)
    }
  }

  /** What RecordAlloc stores: set_bucket clears both flags. */
  function NewValue(bytes: nat, slot: int): (v: AllocValue)
    ensures !v.Live() && !v.Ignore() && v.Bucket() == BucketAddress(slot) && v.Slot() == slot && v.bytes == bytes
  {
    AllocValue(bytes, BucketAddress(slot))
  }

  /** The masks on machine words. */
  lemma PackingBits(rep: bv64)
    ensures rep & !(3 as bv64) == rep / 4 * 4
    ensures rep & 1 == 1 <==> rep % 4 == 1 || rep % 4 == 3
    ensures rep & 2 == 2 <==> rep % 4 >= 2
    ensures rep & !(1 as bv64) == (rep & !(3 as bv64)) | (rep & 2)
    ensures rep & !(2 as bv64) == (rep & !(3 as bv64)) | (rep & 1)
  {
  }

  function SizeOf(v: AllocValue): nat
  {
    v.bytes
  }

  // ---------- The profile as a value, and what each call does to it ----------

  type Stack = seq<int>

  datatype Stats = Stats(allocs: int, frees: int, allocSize: int, freeSize: int)

  const ZERO := Stats(0, 0, 0, 0)

  /** stacks and stats are indexed by bucket slot; slot 0 is no bucket. */
  datatype Profile = Profile(objects: map<int, AllocValue>, stacks: seq<Stack>, stats: seq<Stats>, total: Stats)

  datatype Op = Alloc(ptr: nat, bytes: nat, stack: Stack) | Free(ptr: nat) | MarkLive(ptr: nat) | MarkIgnored(ptr: nat)

  function PlusAlloc(s: Stats, bytes: int): Stats
  {
    s.(allocs := s.allocs + 1, allocSize := s.allocSize + bytes)
  }

  function PlusFree(s: Stats, bytes: int): Stats
  {
    s.(frees := s.frees + 1, freeSize := s.freeSize + bytes)
  }

  /** The slot of a stack, 0 if it has none yet. */
  function SlotOf(stacks: seq<Stack>, stack: Stack): (slot: int)
    ensures 0 <= slot && (slot > 0 ==> slot < |stacks| && stacks[slot] == stack)
    ensures slot == 0 ==> forall i | 0 < i < |stacks| :: stacks[i] != stack
  {
    if |stacks| <= 1 then 0
    else if stacks[|stacks| - 1] == stack then |stacks| - 1
    else SlotOf(stacks[..|stacks| - 1], stack)
  }

  function WithBucket(s: Profile, stack: Stack): Profile
  {
    if SlotOf(s.stacks, stack) != 0 then s else s.(stacks := s.stacks + [stack], stats := s.stats + [ZERO])
  }

  predicate WellFormed(s: Profile)
  {
    && |s.stats| == |s.stacks| > 0
    && (forall p {:trigger s.objects[p]} | p in s.objects :: 0 < s.objects[p].Slot() < |s.stats|)
    && (forall i, j | 0 < i < j < |s.stacks| :: s.stacks[i] != s.stacks[j])
  }

  function AllocTo(s: Profile, ptr: int, bytes: nat, slot: int): Profile
    requires 0 < slot < |s.stats|
  {
    Profile(s.objects[ptr := NewValue(bytes, slot)], s.stacks,
            s.stats[slot := PlusAlloc(s.stats[slot], bytes)], PlusAlloc(s.total, bytes))
  }

  function Step(s: Profile, op: Op): (s': Profile)
    requires WellFormed(s)
    ensures WellFormed(s')
  {
    match op
    case Alloc(ptr, bytes, stack) =>
      var t := WithBucket(s, stack);
      AllocTo(t, ptr, bytes, if SlotOf(s.stacks, stack) != 0 then SlotOf(s.stacks, stack) else |s.stacks|)
    case Free(ptr) =>
      if ptr !in s.objects then s else
      var v := s.objects[ptr];
      Profile(s.objects - {ptr}, s.stacks, s.stats[v.Slot() := PlusFree(s.stats[v.Slot()], v.bytes)],
              PlusFree(s.total, v.bytes))
    case MarkLive(ptr) =>
      if ptr !in s.objects then s else s.(objects := s.objects[ptr := s.objects[ptr].SetLive(true)])
    case MarkIgnored(ptr) =>
      if ptr !in s.objects then s else s.(objects := s.objects[ptr := s.objects[ptr].SetIgnore(true)])
  }

  function Run(s: Profile, ops: seq<Op>): (s': Profile)
    requires WellFormed(s)
    ensures WellFormed(s')
    decreases ops
  {
    if ops == [] then s else Run(Step(s, ops[0]), ops[1..])
  }

  const EMPTY := Profile(map[], [[]], [ZERO], ZERO)

  // ---------- Conservation ----------

  /** Each sum is taken twice: over the number of objects and over their bytes. */
  datatype Kind = Count | Bytes

  /** What the counters say is in use. */
  function InUse(s: Stats, kind: Kind): int
  {
    if kind.Count? then s.allocs - s.frees else s.allocSize - s.freeSize
  }

  /** What an object adds to the sum of bucket slot; slot 0 stands for all buckets. */
  function Weight(v: AllocValue, slot: int, kind: Kind): int
  {
    if slot != 0 && v.Slot() != slot then 0
    else if kind.Count? then 1 else v.bytes
  }

  function Weights<K>(m: map<K, AllocValue>, slot: int, kind: Kind): map<K, int>
  {
    map p | p in m :: Weight(m[p], slot, kind)
  }

  ghost function SumObjects<K>(m: map<K, AllocValue>, slot: int, kind: Kind): int
  {
    Sum(Weights(m, slot, kind))
  }

  lemma SumWithout<K>(m: map<K, AllocValue>, slot: int, kind: Kind, p: K)
    requires p in m
    ensures SumObjects(m, slot, kind) == Weight(m[p], slot, kind) + SumObjects(m - {p}, slot, kind)
  {
    SumRemove(Weights(m, slot, kind), p);
    assert Weights(m, slot, kind) - {p} == Weights(m - {p}, slot, kind);
  }

  lemma SumPut<K>(m: map<K, AllocValue>, slot: int, kind: Kind, p: K, v: AllocValue)
    ensures SumObjects(m[p := v], slot, kind) ==
            Weight(v, slot, kind) + SumObjects(m, slot, kind) - (if p in m then Weight(m[p], slot, kind) else 0)
  {
    SumUpdate(Weights(m, slot, kind), p, Weight(v, slot, kind));
    assert Weights(m[p := v], slot, kind) == Weights(m, slot, kind)[p := Weight(v, slot, kind)];
  }

  function SumStats(stats: seq<Stats>): Stats
  {
    if stats == [] then ZERO else
    var s, t := SumStats(stats[..|stats| - 1]), stats[|stats| - 1];
    Stats(s.allocs + t.allocs, s.frees + t.frees, s.allocSize + t.allocSize, s.freeSize + t.freeSize)
  }

  lemma {:induction false} SumStatsUpdate(stats: seq<Stats>, i: int, t: Stats)
    requires 0 <= i < |stats|
    ensures SumStats(stats[i := t]) ==
            Stats(SumStats(stats).allocs - stats[i].allocs + t.allocs, SumStats(stats).frees - stats[i].frees + t.frees,
                  SumStats(stats).allocSize - stats[i].allocSize + t.allocSize,
                  SumStats(stats).freeSize - stats[i].freeSize + t.freeSize)
  {
    var n := |stats| - 1;
    if i == n {
      assert stats[i := t][..n] == stats[..n];
    } else {
      assert stats[i := t][..n] == stats[..n][i := t];
      SumStatsUpdate(stats[..n], i, t);
    }
  }

  function CountersOf(s: Profile, slot: int): Stats
    requires 0 <= slot < |s.stats|
  {
    if slot == 0 then s.total else s.stats[slot]
  }

  /** What one call makes the counters lose sight of: the object that RecordAlloc
      overwrites when its pointer is recorded already. */
  function Overwritten(s: Profile, op: Op, slot: int, kind: Kind): int
  {
    if op.Alloc? && op.ptr in s.objects then Weight(s.objects[op.ptr], slot, kind) else 0
  }

  function Lost(s: Profile, ops: seq<Op>, slot: int, kind: Kind): int
    requires WellFormed(s)
    decreases ops
  {
    if ops == [] then 0 else Overwritten(s, ops[0], slot, kind) + Lost(Step(s, ops[0]), ops[1..], slot, kind)
  }

  ghost predicate Balanced(s: Profile, slot: int, kind: Kind, lost: int)
    requires 0 <= slot < |s.stats|
  {
    InUse(CountersOf(s, slot), kind) == SumObjects(s.objects, slot, kind) + lost
  }

  lemma AllocKeepsBalance(s: Profile, ptr: nat, bytes: nat, b: int, slot: int, kind: Kind, lost: int)
    requires 0 <= slot < |s.stats| && 0 < b < |s.stats| && Balanced(s, slot, kind, lost)
    ensures Balanced(AllocTo(s, ptr, bytes, b), slot, kind,
                     lost + if ptr in s.objects then Weight(s.objects[ptr], slot, kind) else 0)
  {
    SumPut(s.objects, slot, kind, ptr, NewValue(bytes, b));
  }

  lemma FreeKeepsBalance(s: Profile, ptr: nat, slot: int, kind: Kind, lost: int)
    requires WellFormed(s) && 0 <= slot < |s.stats| && Balanced(s, slot, kind, lost) && ptr in s.objects
    ensures Balanced(Step(s, Free(ptr)), slot, kind, lost)
  {
    SumWithout(s.objects, slot, kind, ptr);
  }

  lemma MarkKeepsBalance(s: Profile, ptr: nat, v: AllocValue, slot: int, kind: Kind, lost: int)
    requires WellFormed(s) && 0 <= slot < |s.stats| && Balanced(s, slot, kind, lost) && ptr in s.objects
    requires v.bytes == s.objects[ptr].bytes && v.Slot() == s.objects[ptr].Slot()
    ensures Balanced(s.(objects := s.objects[ptr := v]), slot, kind, lost)
  {
    SumPut(s.objects, slot, kind, ptr, v);
  }

  lemma StepKeepsBalance(s: Profile, op: Op, slot: int, kind: Kind, lost: int)
    requires WellFormed(s) && 0 <= slot < |s.stats| && Balanced(s, slot, kind, lost)
    ensures |Step(s, op).stats| >= |s.stats|
    ensures Balanced(Step(s, op), slot, kind, lost + Overwritten(s, op, slot, kind))
  {
    match op
    case Alloc(ptr, bytes, stack) =>
      var b := if SlotOf(s.stacks, stack) != 0 then SlotOf(s.stacks, stack) else |s.stacks|;
      AllocKeepsBalance(WithBucket(s, stack), ptr, bytes, b, slot, kind, lost);
    case Free(ptr) =>
      if ptr in s.objects {
        FreeKeepsBalance(s, ptr, slot, kind, lost);
      }
    case MarkLive(ptr) =>
      if ptr in s.objects {
        MarkKeepsBalance(s, ptr, s.objects[ptr].SetLive(true), slot, kind, lost);
      }
    case MarkIgnored(ptr) =>
      if ptr in s.objects {
        MarkKeepsBalance(s, ptr, s.objects[ptr].SetIgnore(true), slot, kind, lost);
      }
  }

  lemma {:induction false} RunKeepsBalance(s: Profile, ops: seq<Op>, slot: int, kind: Kind, lost: int)
    requires WellFormed(s) && 0 <= slot < |s.stats| && Balanced(s, slot, kind, lost)
    ensures |Run(s, ops).stats| >= |s.stats|
    ensures Balanced(Run(s, ops), slot, kind, lost + Lost(s, ops, slot, kind))
    decreases ops
  {
    if ops != [] {
      StepKeepsBalance(s, ops[0], slot, kind, lost);
      RunKeepsBalance(Step(s, ops[0]), ops[1..], slot, kind, lost + Overwritten(s, ops[0], slot, kind));
    }
  }

  /** No RecordAlloc of the run hits a pointer that is still recorded. */
  ghost predicate NeverRerecords(s: Profile, ops: seq<Op>)
    requires WellFormed(s)
    decreases ops
  {
    ops != [] ==> !(ops[0].Alloc? && ops[0].ptr in s.objects) && NeverRerecords(Step(s, ops[0]), ops[1..])
  }

  lemma {:induction false} LostCounts(s: Profile, ops: seq<Op>, slot: int, kind: Kind)
    requires WellFormed(s)
    ensures Lost(s, ops, slot, kind) >= 0
    ensures NeverRerecords(s, ops) ==> Lost(s, ops, slot, kind) == 0
    ensures slot == 0 && kind.Count? && Lost(s, ops, slot, kind) == 0 ==> NeverRerecords(s, ops)
    decreases ops
  {
    if ops != [] {
      LostCounts(Step(s, ops[0]), ops[1..], slot, kind);
    }
  }

  /** Conservation over any run from the empty table. For the totals (slot 0) and for
      each bucket, allocations minus frees, in count and in bytes, are what the recorded
      objects add up to, plus what re-recorded pointers overwrote. */
  lemma CountersMatchObjects(ops: seq<Op>, slot: int, kind: Kind)
    requires 0 <= slot < |Run(EMPTY, ops).stats|
    ensures var s := Run(EMPTY, ops);
            InUse(CountersOf(s, slot), kind) == SumObjects(s.objects, slot, kind) + Lost(EMPTY, ops, slot, kind)
  {
    BalancedFrom(EMPTY, ops, slot, kind);
  }

  /** A bucket that the run has yet to create is balanced when it appears. */
  lemma {:induction false} BalancedFrom(s: Profile, ops: seq<Op>, slot: int, kind: Kind)
    requires WellFormed(s) && 0 <= slot < |Run(s, ops).stats|
    requires slot < |s.stats| ==> Balanced(s, slot, kind, 0)
    ensures Balanced(Run(s, ops), slot, kind, Lost(s, ops, slot, kind))
    decreases ops
  {
    if slot < |s.stats| {
      RunKeepsBalance(s, ops, slot, kind, 0);
    } else {
      var t := Step(s, ops[0]);
      forall p | p in s.objects
        ensures s.objects[p].Slot() != slot
      {
      }
      SumOfStrangers(s.objects, slot, kind);
      LostStranger(s, ops[0], slot, kind);
      if slot < |t.stats| {
        NewBucketIsBalanced(s, ops[0], slot, kind);
      }
      BalancedFrom(t, ops[1..], slot, kind);
    }
  }

  lemma LostStranger(s: Profile, op: Op, slot: int, kind: Kind)
    requires WellFormed(s) && slot >= |s.stats|
    ensures Overwritten(s, op, slot, kind) == 0
  {
  }

  lemma NewBucketIsBalanced(s: Profile, op: Op, slot: int, kind: Kind)
    requires WellFormed(s) && |s.stats| <= slot < |Step(s, op).stats|
    requires SumObjects(s.objects, slot, kind) == 0
    ensures Balanced(Step(s, op), slot, kind, 0)
  {
    var grown := s.(stacks := s.stacks + [op.stack], stats := s.stats + [ZERO]);
    assert Balanced(grown, slot, kind, 0);
    AllocKeepsBalance(grown, op.ptr, op.bytes, |s.stacks|, slot, kind, 0);
    LostStranger(s, op, slot, kind);
  }

  lemma {:induction false} SumOfStrangers<K>(m: map<K, AllocValue>, slot: int, kind: Kind)
    requires slot > 0 && forall p | p in m :: m[p].Slot() != slot
    ensures SumObjects(m, slot, kind) == 0
    decreases m.Keys
  {
    if m.Keys != {} {
      var p :| p in m;
      SumWithout(m, slot, kind, p);
      SumOfStrangers(m - {p}, slot, kind);
    }
  }

  /** The counters and the objects agree exactly when no live pointer was re-recorded. */
  lemma ConservationIff(ops: seq<Op>)
    ensures var s := Run(EMPTY, ops);
            InUse(s.total, Count) == |s.objects| <==> NeverRerecords(EMPTY, ops)
    ensures var s := Run(EMPTY, ops);
            NeverRerecords(EMPTY, ops) ==>
              forall slot, kind | 0 <= slot < |s.stats| ::
                  InUse(CountersOf(s, slot), kind) == SumObjects(s.objects, slot, kind)
  {
    var s := Run(EMPTY, ops);
    forall slot, kind | 0 <= slot < |s.stats|
      ensures InUse(CountersOf(s, slot), kind) == SumObjects(s.objects, slot, kind) + Lost(EMPTY, ops, slot, kind)
      ensures NeverRerecords(EMPTY, ops) ==> Lost(EMPTY, ops, slot, kind) == 0
    {
      CountersMatchObjects(ops, slot, kind);
      LostCounts(EMPTY, ops, slot, kind);
    }
    CountersMatchObjects(ops, 0, Count);
    LostCounts(EMPTY, ops, 0, Count);
    SumCounts(s.objects);
  }

  lemma {:induction false} SumCounts<K>(m: map<K, AllocValue>)
    ensures SumObjects(m, 0, Count) == |m|
    decreases m.Keys
  {
    if m.Keys != {} {
      var p :| p in m;
      SumWithout(m, 0, Count, p);
      SumCounts(m - {p});
    }
  }

  /** The totals are the sum over the buckets, whatever the run. */
  lemma {:induction false} TotalIsSumOfBuckets(s: Profile, ops: seq<Op>)
    requires WellFormed(s) && s.total == SumStats(s.stats)
    ensures Run(s, ops).total == SumStats(Run(s, ops).stats)
    decreases ops
  {
    if ops != [] {
      StepKeepsTotal(s, ops[0]);
      TotalIsSumOfBuckets(Step(s, ops[0]), ops[1..]);
    }
  }

  lemma SumStatsPush(stats: seq<Stats>)
    ensures SumStats(stats + [ZERO]) == SumStats(stats)
  {
    assert (stats + [ZERO])[..|stats|] == stats;
  }

  lemma StepKeepsTotal(s: Profile, op: Op)
    requires WellFormed(s) && s.total == SumStats(s.stats)
    ensures Step(s, op).total == SumStats(Step(s, op).stats)
  {
    hide SumStats;
    match op
    case Alloc(ptr, bytes, stack) =>
      var t := WithBucket(s, stack);
      SumStatsPush(s.stats);
      var b := if SlotOf(s.stacks, stack) != 0 then SlotOf(s.stacks, stack) else |s.stacks|;
      SumStatsUpdate(t.stats, b, PlusAlloc(t.stats[b], bytes));
    case Free(ptr) =>
      if ptr in s.objects {
        var v := s.objects[ptr];
        SumStatsUpdate(s.stats, v.Slot(), PlusFree(s.stats[v.Slot()], v.bytes));
      }
    case MarkLive(_) =>
    case MarkIgnored(_) =>
  }

  // ---------- Whose bucket ----------

  /** An allocation is charged to the one bucket with its stack, which may be new. */
  lemma AllocIsCharged(s: Profile, ptr: nat, bytes: nat, stack: Stack)
    requires WellFormed(s)
    ensures var n := Step(s, Alloc(ptr, bytes, stack));
            && ptr in n.objects && n.objects == s.objects[ptr := n.objects[ptr]]
            && |s.stacks| <= |n.stacks| <= |s.stacks| + 1 && n.stacks[..|s.stacks|] == s.stacks
            && var v := n.objects[ptr]; var b := v.Slot();
            && v.bytes == bytes && !v.Live() && !v.Ignore() && 0 < b < |n.stacks| && n.stacks[b] == stack
            && (|n.stacks| > |s.stacks| ==> b == |s.stacks|)
            && n.stats[b] == PlusAlloc(if b < |s.stats| then s.stats[b] else ZERO, bytes)
            && (forall i | 0 <= i < |s.stats| && i != b :: n.stats[i] == s.stats[i])
  {
  }

  /** A free is charged where the object was allocated. */
  lemma FreeIsCharged(s: Profile, ptr: nat)
    requires WellFormed(s)
    ensures var n := Step(s, Free(ptr));
            && n.objects == s.objects - {ptr} && n.stacks == s.stacks
            && (ptr !in s.objects ==> n == s)
            && (ptr in s.objects ==>
                  var b := s.objects[ptr].Slot();
                  && n.stats[b] == PlusFree(s.stats[b], s.objects[ptr].bytes)
                  && (forall i | 0 <= i < |s.stats| && i != b :: n.stats[i] == s.stats[i]))
  {
    assert ptr !in s.objects ==> s.objects - {ptr} == s.objects;
  }

  lemma {:induction false} RunLast(s: Profile, ops: seq<Op>)
    requires WellFormed(s) && ops != []
    ensures Run(s, ops) == Step(Run(s, ops[..|ops| - 1]), ops[|ops| - 1])
    decreases ops
  {
    var n := |ops| - 1;
    if n == 0 {
      assert ops[1..] == [] && ops[..0] == [];
    } else {
      RunLast(Step(s, ops[0]), ops[1..]);
      assert ops[1..][..n - 1] == ops[..n][1..] && ops[1..][n - 1] == ops[n];
    }
  }

  /** The last call that recorded or freed the pointer, -1 if none did. */
  function Latest(ops: seq<Op>, p: int): (i: int)
    ensures -1 <= i < |ops| && (i >= 0 ==> (ops[i].Alloc? || ops[i].Free?) && ops[i].ptr == p)
    ensures forall j | i < j < |ops| :: !((ops[j].Alloc? || ops[j].Free?) && ops[j].ptr == p)
  {
    if ops == [] then -1
    else
      var n := |ops| - 1;
      if (ops[n].Alloc? || ops[n].Free?) && ops[n].ptr == p then n else Latest(ops[..n], p)
  }

  /** What one call does to the record of p. */
  lemma StepRecords(s: Profile, op: Op, p: nat)
    requires WellFormed(s)
    ensures var n := Step(s, op);
            if op.Alloc? && op.ptr == p then
              && p in n.objects && n.objects[p].Slot() < |n.stacks| && n.stacks[n.objects[p].Slot()] == op.stack
              && n.objects[p].bytes == op.bytes && !n.objects[p].Live() && !n.objects[p].Ignore()
            else if op.Free? && op.ptr == p then p !in n.objects
            else
              && (p in n.objects <==> p in s.objects)
              && (p in n.objects ==>
                    var v, w := s.objects[p], n.objects[p];
                    && w.Slot() == v.Slot() && w.bytes == v.bytes && n.stacks[w.Slot()] == s.stacks[v.Slot()]
                    && (w.Live() <==> v.Live() || op == MarkLive(p))
                    && (w.Ignore() <==> v.Ignore() || op == MarkIgnored(p)))
  {
    match op
    case Alloc(q, bytes, stack) =>
      AllocIsCharged(s, q, bytes, stack);
    case Free(q) =>
    case MarkLive(q) =>
    case MarkIgnored(q) =>
  }

  lemma InRest(ops: seq<Op>, i: nat, x: Op)
    requires i < |ops|
    ensures x in ops[i..] <==> (i < |ops| - 1 && x in ops[..|ops| - 1][i..]) || x == ops[|ops| - 1]
  {
    var n := |ops| - 1;
    assert ops[i..] == (if i < n then ops[..n][i..] else []) + [ops[n]];
  }

  /** Over any run: a pointer is recorded exactly if the last call about it was an
      allocation, with the size and the bucket of the stack of that call, live and ignored
      exactly if it was marked so since. */
  lemma {:induction false} RecordedIs(ops: seq<Op>, p: nat)
    ensures var s := Run(EMPTY, ops); var i := Latest(ops, p);
            && (p in s.objects <==> i >= 0 && ops[i].Alloc?)
            && (p in s.objects ==>
                  var v := s.objects[p];
                  && 0 < v.Slot() < |s.stacks| && s.stacks[v.Slot()] == ops[i].stack && v.bytes == ops[i].bytes
                  && (v.Live() <==> MarkLive(p) in ops[i..]) && (v.Ignore() <==> MarkIgnored(p) in ops[i..]))
  {
    hide Step;
    hide AllocValue.Live;
    hide AllocValue.Ignore;
    hide AllocValue.Slot;
    if ops != [] {
      var n, i := |ops| - 1, Latest(ops, p);
      RecordedIs(ops[..n], p);
      RunLast(EMPTY, ops);
      StepRecords(Run(EMPTY, ops[..n]), ops[n], p);
      if i >= 0 {
        InRest(ops, i, MarkLive(p));
        InRest(ops, i, MarkIgnored(p));
      }
    }
  }

  lemma SlotIs(s: Profile, b: int)
    requires WellFormed(s) && 0 < b < |s.stacks|
    ensures SlotOf(s.stacks, s.stacks[b]) == b
  {
  }

  /** What a run charges to a stack: its allocations, and the frees of what it allocated. */
  function Charge(ops: seq<Op>, stack: Stack): Stats
  {
    if ops == [] then ZERO
    else
      var n := |ops| - 1;
      var before := Charge(ops[..n], stack);
      match ops[n]
      case Alloc(_, bytes, st) => if st == stack then PlusAlloc(before, bytes) else before
      case Free(p) =>
        var i := Latest(ops[..n], p);
        if i >= 0 && ops[i].Alloc? && ops[i].stack == stack then PlusFree(before, ops[i].bytes) else before
      case _ => before
  }

  /** Over any run: the counters of a bucket are what its stack is charged with, and a stack
      without a bucket is charged with nothing. */
  lemma {:induction false} BucketIsCharged(ops: seq<Op>, stack: Stack)
    ensures var s := Run(EMPTY, ops); var b := SlotOf(s.stacks, stack);
            Charge(ops, stack) == if b == 0 then ZERO else s.stats[b]
  {
    if ops != [] {
      var n := |ops| - 1;
      var was, op := Run(EMPTY, ops[..n]), ops[n];
      BucketIsCharged(ops[..n], stack);
      RunLast(EMPTY, ops);
      match op
      case Alloc(q, bytes, st) =>
        AllocIsCharged(was, q, bytes, st);
        var now := Step(was, op);
        SlotIs(now, now.objects[q].Slot());
        if SlotOf(was.stacks, stack) != 0 {
          SlotIs(now, SlotOf(was.stacks, stack));
        }
      case Free(q) =>
        RecordedIs(ops[..n], q);
        FreeIsCharged(was, q);
      case MarkLive(q) =>
      case MarkIgnored(q) =>
    }
  }

  // ---------- The table in memory ----------

  /** The hash table of buckets and the bucket records, field by field. */
  datatype BucketMemory = BucketMemory(
    table: seq<Ptr>, next: seq<Ptr>, hash: seq<int>, stack: seq<Stack>, stats: seq<Stats>)

  datatype BucketShape = BucketShape(tag: seq<Tag>, height: map<int, int>)

  function TableIndex(hash: int): (i: int)
    ensures 0 <= i < 179999
  {
    hash % 0x1_0000_0000 % 179999
  }

  ghost predicate BucketsOk(hash: Stack -> int, m: BucketMemory, s: BucketShape)
  {
    && ListsOk(m.next, s.tag, s.height)
    && |m.next| == |m.hash| == |m.stack| == |m.stats|
    && |m.table| == 179999
    && (forall h {:trigger m.table[h]} | 0 <= h < |m.table| :: HeadOk(m.table[h], h, s.tag, s.height))
    && (forall b {:trigger m.stack[b]} | 0 < b < |m.stack| ::
          m.hash[b] == hash(m.stack[b]) && s.tag[b].home == TableIndex(m.hash[b]))
  }

  function WithBucketRecord(m: BucketMemory, i: int, h: int, stack: Stack): BucketMemory
    requires 0 <= i < |m.table|
  {
    BucketMemory(m.table[i := |m.next|], m.next + [m.table[i]], m.hash + [h], m.stack + [stack], m.stats + [ZERO])
  }

  lemma NewBucketKeepsShape(hash: Stack -> int, m: BucketMemory, s: BucketShape, stack: Stack) returns (s': BucketShape)
    requires BucketsOk(hash, m, s)
    ensures BucketsOk(hash, WithBucketRecord(m, TableIndex(hash(stack)), hash(stack), stack), s')
  {
    var i := TableIndex(hash(stack));
    var tag, height := PushKeepsLists(m.next, s.tag, s.height, i, m.table[i]);
    s' := BucketShape(tag, height);
    var m' := WithBucketRecord(m, i, hash(stack), stack);
    forall h | 0 <= h < |m'.table|
      ensures HeadOk(m'.table[h], h, s'.tag, s'.height)
    {
      assert HeadOk(m.table[h], h, s.tag, s.height);
    }
    forall c | 0 < c < |m'.stack|
      ensures m'.hash[c] == hash(m'.stack[c]) && s'.tag[c].home == TableIndex(m'.hash[c])
    {
      assert c < |m.stack| ==> m.hash[c] == hash(m.stack[c]);
    }
  }

  lemma CountingKeepsShape(hash: Stack -> int, m: BucketMemory, s: BucketShape, b: int, t: Stats)
    requires BucketsOk(hash, m, s) && 0 <= b < |m.stats|
    ensures BucketsOk(hash, m.(stats := m.stats[b := t]), s)
  {
    var m' := m.(stats := m.stats[b := t]);
    forall h | 0 <= h < |m'.table|
      ensures HeadOk(m'.table[h], h, s.tag, s.height)
    {
      assert HeadOk(m.table[h], h, s.tag, s.height);
    }
    forall c | 0 < c < |m'.stack|
      ensures m'.hash[c] == hash(m'.stack[c]) && s.tag[c].home == TableIndex(m'.hash[c])
    {
      assert m.hash[c] == hash(m.stack[c]);
    }
  }

  /** An object of the heap that a snapshot over base reports. */
  predicate Reported(objects: map<int, AllocValue>, base: set<int>, p: int)
  {
    p in objects && !objects[p].Live() && p !in base
  }

  /** What the walk over the heap has done: the objects in `done` have lost their live
      bits, and those of them to report are in `found`. */
  ghost predicate Passed(objects: map<int, AllocValue>, base: set<int>, done: seq<int>, now: map<int, AllocValue>,
                         found: map<int, AllocValue>)
  {
    && now.Keys == objects.Keys
    && (forall p {:trigger now[p]} | p in objects ::
          now[p] == if p in done then objects[p].SetLive(false) else objects[p])
    && (forall p {:trigger p in found} :: p in found <==> p in done && Reported(objects, base, p))
    && (forall p {:trigger found[p]} | p in found :: found[p] == objects[p])
  }

  lemma PassedNone(objects: map<int, AllocValue>, base: set<int>)
    ensures Passed(objects, base, [], objects, map[])
  {
  }

  lemma PassNext(objects: map<int, AllocValue>, base: set<int>, done: seq<int>, now: map<int, AllocValue>,
                 found: map<int, AllocValue>, p: int)
    requires Passed(objects, base, done, now, found) && p in objects && p !in done
    ensures p in now && p !in found
    ensures Reported(now, base, p) <==> Reported(objects, base, p)
    ensures Passed(objects, base, done + [p], now[p := now[p].SetLive(false)],
                   if Reported(objects, base, p) then found[p := now[p]] else found)
  {
    hide AllocValue.SetLive;
  }

  lemma PassedAll(objects: map<int, AllocValue>, base: set<int>, done: seq<int>, now: map<int, AllocValue>,
                  found: map<int, AllocValue>)
    requires Passed(objects, base, done, now, found) && forall p :: p in objects ==> p in done
    ensures forall p :: p in found <==> Reported(objects, base, p)
    ensures forall p | p in found :: found[p] == objects[p]
    ensures now.Keys == objects.Keys
    ensures forall p | p in now :: now[p] == objects[p].SetLive(false)
  {
    hide AllocValue.SetLive;
  }

  /** The number of objects and their bytes, as totals. */
  ghost function TotalOf(m: map<int, AllocValue>): Stats
  {
    Stats(|m|, 0, SumObjects(m, 0, Bytes), 0)
  }

  ghost predicate CountsAll(total: Stats, m: map<int, AllocValue>)
  {
    && total.allocs >= |m| && total.allocSize >= SumObjects(m, 0, Bytes)
    && total.frees == 0 && total.freeSize == 0
    && (m == map[] ==> total == ZERO)
  }

  lemma AddCounts(total: Stats, m: map<int, AllocValue>, ptr: int, v: AllocValue)
    requires CountsAll(total, m)
    ensures CountsAll(PlusAlloc(total, v.bytes), m[ptr := v])
    ensures PlusAlloc(total, v.bytes) == TotalOf(m[ptr := v]) <==> total == TotalOf(m) && ptr !in m
  {
    SumPut(m, 0, Bytes, ptr, v);
    assert ptr in m ==> m[ptr := v].Keys == m.Keys;
    assert ptr !in m ==> m[ptr := v].Keys == m.Keys + {ptr};
    assert ptr in m[ptr := v];
    hide SumObjects;
  }

  /** A set of objects of its own, sharing the buckets of the table. */
  class Snapshot {
    const map_: AddressMap<AllocValue>
    var total: Stats

    /** The totals count at least the objects of the map, and are 0 until the first Add. */
    ghost predicate Valid()
      reads this, map_
    {
      && map_.Valid()
      && CountsAll(total, map_.Contents)
    }

    /** The totals count the objects of the map, each of them once. */
    ghost predicate Exact()
      reads this, map_
    {
      total == TotalOf(map_.Contents)
    }

    constructor ()
      ensures Valid() && Exact() && fresh(map_) && map_.Contents == map[]
    {
      map_ := new AddressMap(HashInt, HASH_SIZE);
      total := ZERO;
    }

    /** A pointer that is there already gets the new value but is counted once more. So
        the totals are exact afterwards exactly if they were and the pointer was not there. */
    method Add(ptr: nat, v: AllocValue)
      requires Valid()
      modifies this, map_
      ensures Valid() && map_.Contents == old(map_.Contents)[ptr := v]
      ensures total == PlusAlloc(old(total), v.bytes)
      ensures Exact() <==> old(Exact()) && ptr !in old(map_.Contents)
    {
      AddCounts(total, map_.Contents, ptr, v);
      map_.Insert(ptr, v);
      total := PlusAlloc(total, v.bytes);
    }

    method Empty() returns (r: bool)
      requires Valid()
      ensures r <==> map_.Contents == map[]
    {
      SumIsNatural(map_.Contents, 0, Bytes);
      r := total.allocs == 0 && total.allocSize == 0;
    }
  }

  lemma {:induction false} SumIsNatural<K>(m: map<K, AllocValue>, slot: int, kind: Kind)
    ensures SumObjects(m, slot, kind) >= 0
    decreases m.Keys
  {
    if m.Keys != {} {
      var p :| p in m;
      SumWithout(m, slot, kind, p);
      SumIsNatural(m - {p}, slot, kind);
    }
  }

  lemma NextVisited(visited: seq<int>, i: int)
    requires Distinct(visited) && 0 <= i < |visited|
    ensures visited[i] in visited && visited[i] !in visited[..i]
  {
  }

  class HeapProfileTable {
    const hash: Stack -> int     // the hash of a call stack; any function will do
    const addressMap: AddressMap<AllocValue>
    var buckets: BucketMemory
    var total: Stats
    var numBuckets: int
    ghost var shape: BucketShape

    ghost function View(): Profile
      reads this, addressMap
    {
      Profile(addressMap.Contents, buckets.stack, buckets.stats, total)
    }

    ghost predicate Valid()
      reads this, addressMap
    {
      addressMap.Valid() && BucketsOk(hash, buckets, shape) && WellFormed(View()) && numBuckets == |buckets.stats| - 1
    }

    constructor (hash: Stack -> int)
      ensures Valid() && fresh(addressMap) && View() == EMPTY
    {
      this.hash := hash;
      addressMap := new AddressMap(HashInt, HASH_SIZE);
      buckets := BucketMemory(seq(179999, _ => NULL), [NULL], [0], [[]], [ZERO]);
      shape := BucketShape([Tag(0, 0)], map[]);
      total, numBuckets := ZERO, 0;
    }

    /** The lookup half of GetBucket. */
    method FindBucket(stack: Stack) returns (b: Ptr)
      requires BucketsOk(hash, buckets, shape) && forall i, j | 0 < i < j < |buckets.stack| ::
                 buckets.stack[i] != buckets.stack[j]
      ensures b == SlotOf(buckets.stack, stack)
    {
      var h := hash(stack);
      b := buckets.table[TableIndex(h)];
      ghost var slot := SlotOf(buckets.stack, stack);
      if slot != 0 {
        HeadIsFirst(buckets.next, shape.tag, shape.height, b, slot);
      }
      while b != NULL
        invariant b != NULL ==> 0 < b < |shape.tag| && shape.tag[b].home == TableIndex(h)
        invariant slot != 0 ==> b == slot || After(shape.tag, b, slot)
        decreases if b == NULL then 0 else shape.tag[b].rank + 1
      {
        if buckets.hash[b] == h && |buckets.stack[b]| == |stack| && buckets.stack[b] == stack {
          return;
        }
        if slot != 0 {
          NextStep(buckets.next, shape.tag, shape.height, b, slot);
        }
        b := buckets.next[b];
      }
    }

    method GetBucket(stack: Stack) returns (b: Ptr)
      requires Valid()
      modifies this
      ensures Valid() && View() == WithBucket(old(View()), stack)
      ensures b == if SlotOf(old(buckets.stack), stack) != 0 then SlotOf(old(buckets.stack), stack)
              else |old(buckets.stack)|
    {
      b := FindBucket(stack);
      if b != NULL {
        return;
      }
      b := |buckets.next|;
      ghost var shape' := NewBucketKeepsShape(hash, buckets, shape, stack);
      buckets := WithBucketRecord(buckets, TableIndex(hash(stack)), hash(stack), stack);
      shape := shape';
      numBuckets := numBuckets + 1;
    }

    method RecordAlloc(ptr: nat, bytes: nat, stack: Stack)
      requires Valid()
      modifies this, addressMap
      ensures Valid() && View() == Step(old(View()), Alloc(ptr, bytes, stack))
    {
      hide AddressMap.Valid;
      hide BucketsOk;
      var b := GetBucket(stack);
      CountingKeepsShape(hash, buckets, shape, b, PlusAlloc(buckets.stats[b], bytes));
      buckets := buckets.(stats := buckets.stats[b := PlusAlloc(buckets.stats[b], bytes)]);
      total := PlusAlloc(total, bytes);
      addressMap.Insert(ptr, NewValue(bytes, b));
      assert View() == AllocTo(WithBucket(old(View()), stack), ptr, bytes, b);
    }

    method RecordFree(ptr: nat)
      requires Valid()
      modifies this, addressMap
      ensures Valid() && View() == Step(old(View()), Free(ptr))
    {
      hide AddressMap.Valid;
      hide BucketsOk;
      var v := addressMap.FindAndRemove(ptr);
      if v.Some? {
        var b := v.value.Slot();
        CountingKeepsShape(hash, buckets, shape, b, PlusFree(buckets.stats[b], v.value.bytes));
        buckets := buckets.(stats := buckets.stats[b := PlusFree(buckets.stats[b], v.value.bytes)]);
        total := PlusFree(total, v.value.bytes);
        assert View() == Step(old(View()), Free(ptr));
      }
    }

    method FindInsideAlloc(ptr: nat, maxSize: nat) returns (owner: Option<int>, size: nat)
      requires Valid() && NonOverlapping(addressMap.Contents, SizeOf)
      ensures owner == Resolve(addressMap.Contents, SizeOf, maxSize, ptr)
      ensures owner.Some? ==> owner.value in addressMap.Contents && size == addressMap.Contents[owner.value].bytes
    {
      owner := addressMap.FindInside(SizeOf, maxSize, ptr);
      size := 0;
      if owner.Some? {
        var e := addressMap.FindMutable(owner.value);
        size := addressMap.mem.entryValue[e].bytes;
      }
    }

    method FindAlloc(ptr: nat) returns (found: bool, size: nat)
      requires Valid()
      ensures found <==> ptr in addressMap.Contents
      ensures found ==> size == addressMap.Contents[ptr].bytes
    {
      hide AddressMap.Valid;
      hide BucketsOk;
      var e := addressMap.FindMutable(ptr);
      found, size := e != NULL, 0;
      if found {
        size := addressMap.mem.entryValue[e].bytes;
      }
    }

    method MarkAsLive(ptr: nat) returns (marked: bool)
      requires Valid()
      modifies addressMap
      ensures Valid() && View() == Step(old(View()), MarkLive(ptr))
      ensures marked <==> ptr in old(addressMap.Contents) && !old(addressMap.Contents)[ptr].Live()
    {
      hide AddressMap.Valid;
      hide BucketsOk;
      var e := addressMap.FindMutable(ptr);
      marked := e != NULL && !addressMap.mem.entryValue[e].Live();
      if marked {
        addressMap.Store(e, addressMap.mem.entryValue[e].SetLive(true), ptr);
      }
    }

    method MarkAsIgnored(ptr: nat)
      requires Valid()
      modifies addressMap
      ensures Valid() && View() == Step(old(View()), MarkIgnored(ptr))
    {
      hide AddressMap.Valid;
      hide BucketsOk;
      var e := addressMap.FindMutable(ptr);
      if e != NULL {
        addressMap.Store(e, addressMap.mem.entryValue[e].SetIgnore(true), ptr);
      }
    }

    method AddIfNonLive(ptr: nat, base: Snapshot?, dest: Snapshot)
      requires Valid() && dest.Valid() && (base != null ==> base.Valid())
      requires ptr in addressMap.Contents
      requires dest.map_ != addressMap
               && (base != null ==> base != dest && base.map_ != dest.map_ && base.map_ != addressMap)
      modifies addressMap, dest, dest.map_
      ensures Valid() && dest.Valid()
      ensures ptr !in old(dest.map_.Contents) ==> dest.Exact() == old(dest.Exact())
      ensures addressMap.Contents == old(addressMap.Contents)[ptr := old(addressMap.Contents)[ptr].SetLive(false)]
      ensures var baseKeys := if base == null then {} else base.map_.Contents.Keys;
              dest.map_.Contents ==
              if Reported(old(addressMap.Contents), baseKeys, ptr)
              then old(dest.map_.Contents)[ptr := old(addressMap.Contents)[ptr]] else old(dest.map_.Contents)
    {
      hide AddressMap.Valid;
      hide BucketsOk;
      var e := addressMap.FindMutable(ptr);
      var v := addressMap.mem.entryValue[e];
      if v.Live() {
        addressMap.Store(e, v.SetLive(false), ptr);
      } else {
        var inBase := NULL;
        if base != null {
          inBase := base.map_.FindMutable(ptr);
        }
        if inBase == NULL {
          dest.Add(ptr, v);
        }
      }
      assert addressMap.Contents == old(addressMap.Contents)[ptr := v.SetLive(false)];
      assert WellFormed(View());
    }

    /** Every recorded object that is not live and not in base, with its count and
        bytes as totals; the live bits are cleared on the way. Whether an object is
        marked as ignored plays no part. */
    method NonLiveSnapshot(base: Snapshot?) returns (s: Snapshot)
      requires Valid() && (base != null ==> base.Valid() && base.map_ != addressMap)
      modifies addressMap
      ensures Valid() && s.Valid() && s.Exact() && fresh(s) && fresh(s.map_)
      ensures var baseKeys := if base == null then {} else base.map_.Contents.Keys;
              forall p :: p in s.map_.Contents <==> Reported(old(addressMap.Contents), baseKeys, p)
      ensures forall p | p in s.map_.Contents :: s.map_.Contents[p] == old(addressMap.Contents)[p]
      ensures addressMap.Contents.Keys == old(addressMap.Contents.Keys)
      ensures forall p | p in addressMap.Contents ::
                addressMap.Contents[p] == old(addressMap.Contents)[p].SetLive(false)
    {
      hide AddressMap.Valid;
      hide BucketsOk;
      hide TotalOf;
      hide CountsAll;
      hide Reported;
      hide AllocValue.SetLive;
      hide WellFormed;
      hide Passed;
      s := new Snapshot();
      ghost var objects := addressMap.Contents;
      ghost var baseKeys := if base == null then {} else base.map_.Contents.Keys;
      var visited := addressMap.Iterate();
      PassedNone(objects, baseKeys);
      for i := 0 to |visited|
        invariant Valid() && s.Valid() && s.Exact() && (base != null ==> base.Valid())
        invariant base != null ==> base.map_.Contents.Keys == baseKeys
        invariant Passed(objects, baseKeys, visited[..i], addressMap.Contents, s.map_.Contents)
      {
        NextVisited(visited, i);
        var p := visited[i];
        PassNext(objects, baseKeys, visited[..i], addressMap.Contents, s.map_.Contents, p);
        AddIfNonLive(p, base, s);
        assert visited[..i + 1] == visited[..i] + [p];
      }
      assert visited[..|visited|] == visited;
      PassedAll(objects, baseKeys, visited, addressMap.Contents, s.map_.Contents);
    }
  }
}
