/** The queue of freed blocks of the debug allocator: a ring of fixed capacity, and the
    loop that frees the oldest blocks in batches of four, giving up the lock while it
    does. The capacity and the bookkeeping bytes per entry are parameters. */
module FreeQueues {
  import opened Arithmetic
  import opened Common

  datatype Entry = Entry(block: int, size: nat)

  const BATCH: nat := 4

  // ---------- The ring ----------

  function Wrapped(i: int, capacity: int): int
  {
    if i < capacity then i else i - capacity
  }

  lemma WrapIs(i: int, capacity: int)
    requires 0 <= i < 2 * capacity
    ensures i % capacity == Wrapped(i, capacity)
  {
    QuotientOf(capacity, i, if i < capacity then 0 else 1, Wrapped(i, capacity));
  }

  class FreeQueue {
    const q: array<Entry>
    var front: int
    var back: int
    ghost var Contents: seq<Entry>

    /** Contents lie between back and front; one slot stays empty. */
    ghost predicate Valid()
      reads this, q
    {
      && q.Length >= 2 && 0 <= front < q.Length && 0 <= back < q.Length
      && |Contents| == (if front >= back then front - back else front - back + q.Length)
      && forall i {:trigger Contents[i]} | 0 <= i < |Contents| :: q[Wrapped(back + i, q.Length)] == Contents[i]
    }

    constructor (capacity: nat)
      requires capacity >= 2
      ensures Valid() && fresh(q) && q.Length == capacity && Contents == []
    {
      q := new Entry[capacity](_ => Entry(0, 0));
      front, back, Contents := 0, 0, [];
    }

    method Full() returns (r: bool)
      requires Valid()
      ensures r <==> |Contents| == q.Length - 1
    {
      WrapIs(front + 1, q.Length);
      r := (front + 1) % q.Length == back;
    }

    method Push(e: Entry)
      requires Valid() && |Contents| < q.Length - 1
      modifies this, q
      ensures Valid() && Contents == old(Contents) + [e]
    {
      WrapIs(front + 1, q.Length);
      q[front] := e;
      front := (front + 1) % q.Length;
      Contents := Contents + [e];
    }

    /** The check that the queue is not empty is the precondition. */
    method Pop() returns (e: Entry)
      requires Valid() && Contents != []
      modifies this
      ensures Valid() && e == old(Contents)[0] && Contents == old(Contents)[1..]
    {
      WrapIs(back + 1, q.Length);
      assert back != front;
      e := q[back];
      assert Contents[0] == e;
      forall i | 0 <= i < |Contents| - 1
        ensures q[Wrapped(Wrapped(back + 1, q.Length) + i, q.Length)] == Contents[1..][i]
      {
        assert Contents[i + 1] == Contents[1..][i];
      }
      back := (back + 1) % q.Length;
      Contents := Contents[1..];
    }

    method Size() returns (n: int)
      requires Valid()
      ensures n == |Contents|
    {
      WrapIs(front - back + q.Length, q.Length);
      n := (front - back + q.Length) % q.Length;
    }
  }

  // ---------- Batches ----------

  function Total(overhead: nat, s: seq<Entry>): nat
  {
    if s == [] then 0 else s[0].size + overhead + Total(overhead, s[1..])
  }

  lemma {:induction false} TotalPush(overhead: nat, s: seq<Entry>, e: Entry)
    ensures Total(overhead, s + [e]) == Total(overhead, s) + e.size + overhead
  {
    if s != [] {
      assert (s + [e])[1..] == s[1..] + [e];
      TotalPush(overhead, s[1..], e);
    } else {
      assert (s + [e])[1..] == [];
    }
  }

  /** The flag is an int, compared with a size: converted, it is the number modulo 2^64. */
  function Limit(flag: int): (r: nat)
    requires -0x8000_0000 <= flag < 0x8000_0000
    ensures r < 0x1_0000_0000_0000_0000 && (r == flag || r == flag + 0x1_0000_0000_0000_0000)
  {
    if flag < 0 then flag + 0x1_0000_0000_0000_0000 else flag
  }

  /** The condition of the loop, on the queue as it is. */
  predicate Excess(capacity: nat, overhead: nat, limit: nat, s: seq<Entry>)
  {
    Total(overhead, s) > limit || |s| == capacity - 1
  }

  lemma ExcessIs(capacity: nat, overhead: nat, limit: nat, s: seq<Entry>)
    ensures Excess(capacity, overhead, limit, s) <==> Total(overhead, s) > limit || |s| == capacity - 1
  {
  }

  /** The loop never pops an empty queue. */
  lemma ExcessIsNotEmpty(capacity: nat, overhead: nat, limit: nat, s: seq<Entry>)
    requires capacity >= 2 && Excess(capacity, overhead, limit, s)
    ensures s != []
  {
  }

  /** Where one hold of the lock stops taking entries off the queue, having begun at k:
      as long as there is too much, and no more than room. */
  function TakenTo(capacity: nat, overhead: nat, limit: nat, s: seq<Entry>, k: nat, room: nat): (n: nat)
    requires k <= |s|
    ensures k <= n <= |s| && n <= k + room
    ensures n < k + room ==> n == |s| || !Excess(capacity, overhead, limit, s[n..])
    ensures n > k ==> Excess(capacity, overhead, limit, s[n - 1..])
    decreases room
  {
    if room == 0 || k == |s| || !Excess(capacity, overhead, limit, s[k..]) then k
    else TakenTo(capacity, overhead, limit, s, k + 1, room - 1)
  }

  /** What is left of the queue after k entries. */
  ghost function Rest(s: seq<Entry>, k: nat): (r: seq<Entry>)
    requires k <= |s|
    ensures |r| == |s| - k
  {
    s[k..]
  }

  lemma NoneTaken(s: seq<Entry>)
    ensures Rest(s, 0) == s && s[..0] == []
  {
  }

  lemma TakenOnce(capacity: nat, overhead: nat, limit: nat, s: seq<Entry>, k: nat, room: nat)
    requires room > 0 && k < |s| && Excess(capacity, overhead, limit, Rest(s, k))
    ensures TakenTo(capacity, overhead, limit, s, k, room) == TakenTo(capacity, overhead, limit, s, k + 1, room - 1)
  {
  }

  lemma TakenMeans(capacity: nat, overhead: nat, limit: nat, s: seq<Entry>, k: nat)
    requires capacity >= 2 && k <= |s| && k <= BATCH && (k == BATCH || !Excess(capacity, overhead, limit, Rest(s, k)))
    requires TakenTo(capacity, overhead, limit, s, 0, BATCH) == TakenTo(capacity, overhead, limit, s, k, BATCH - k)
    ensures TakenTo(capacity, overhead, limit, s, 0, BATCH) == k && Rest(s, k) == s[k..]
    ensures k > 0 ==> [s[k - 1]] + s[k..] == s[k - 1..] && Excess(capacity, overhead, limit, s[k - 1..])
  {
    hide Excess;
    assert TakenTo(capacity, overhead, limit, s, k, BATCH - k) == k;
  }

  lemma Concatenated(a: seq<Entry>, b: seq<Entry>, c: seq<Entry>)
    ensures (a + b) + c == a + (b + c)
    ensures c != [] ==> (b + c)[|b + c| - 1] == c[|c| - 1]
    ensures c == [] ==> b + c == b
  {
  }

  lemma Splice(a: seq<Entry>, s: seq<Entry>, k: nat)
    requires k <= |s|
    ensures a + s == (a + s[..k]) + s[k..]
  {
  }

  lemma TotalPop(overhead: nat, s: seq<Entry>, k: nat)
    requires k < |s|
    ensures Total(overhead, Rest(s, k)) == s[k].size + overhead + Total(overhead, Rest(s, k + 1))
    ensures Rest(s, k)[0] == s[k] && Rest(s, k)[1..] == Rest(s, k + 1) && s[..k] + [s[k]] == s[..k + 1]
  {
  }

  class DelayedFree {
    const queue: FreeQueue
    const overhead: nat          // sizeof(MallocBlockQueueEntry)
    var freeQueueSize: int
    ghost var pushed: seq<Entry>
    ghost var popped: seq<Entry>

    ghost predicate Consistent()
      reads this, queue, queue.q
    {
      && queue.Valid() && freeQueueSize == Total(overhead, queue.Contents)
      && pushed == popped + queue.Contents
    }

    /** Whenever the lock is free. */
    ghost predicate Valid()
      reads this, queue, queue.q
    {
      Consistent() && |queue.Contents| < queue.q.Length - 1
    }

    constructor (capacity: nat, overhead: nat)
      requires capacity >= 2
      ensures Valid() && fresh(queue) && fresh(queue.q) && pushed == [] && queue.q.Length == capacity
    {
      queue := new FreeQueue(capacity);
      this.overhead, freeQueueSize, pushed, popped := overhead, 0, [], [];
    }

    /** From taking the lock, or going on with it, to giving it up: at most one batch. */
    method TakeBatch(limit: nat) returns (entries: seq<Entry>)
      requires Consistent()
      modifies this`freeQueueSize, this`popped, queue
      ensures Valid() && pushed == old(pushed) && popped == old(popped) + entries
      ensures var s := old(queue.Contents); var n := TakenTo(queue.q.Length, overhead, limit, s, 0, BATCH);
              entries == s[..n] && queue.Contents == s[n..]
      ensures |entries| < BATCH ==> !Excess(queue.q.Length, overhead, limit, queue.Contents)
      ensures entries != [] ==> Excess(queue.q.Length, overhead, limit, [entries[|entries| - 1]] + queue.Contents)
    {
      hide FreeQueue.Valid;
      hide Total;
      hide TakenTo;
      hide Excess;
      hide Rest;
      ghost var s := queue.Contents;
      ghost var k;
      QueueFits();
      entries, k := TakeWhileExcess(limit);
      ExcessIs(queue.q.Length, overhead, limit, queue.Contents);
      TakenMeans(queue.q.Length, overhead, limit, s, k);
      Splice(popped, s, k);
      popped := popped + entries;
    }

    /** The loop of one hold of the lock. */
    method TakeWhileExcess(limit: nat) returns (entries: seq<Entry>, ghost k: nat)
      requires Consistent()
      modifies this`freeQueueSize, queue
      ensures var s := old(queue.Contents);
              && k <= |s| && k <= BATCH && entries == s[..k] && queue.Contents == Rest(s, k)
              && (k == BATCH || !Excess(queue.q.Length, overhead, limit, Rest(s, k)))
              && TakenTo(queue.q.Length, overhead, limit, s, 0, BATCH)
                 == TakenTo(queue.q.Length, overhead, limit, s, k, BATCH - k)
      ensures queue.Valid() && freeQueueSize == Total(overhead, queue.Contents)
    {
      hide FreeQueue.Valid;
      hide Total;
      hide TakenTo;
      hide Wrapped;
      hide Excess;
      hide Rest;
      ghost var s := queue.Contents;
      k := 0;
      entries := [];
      var full := queue.Full();
      NoneTaken(s);
      QueueFits();
      while (freeQueueSize > limit || full) && |entries| < BATCH
        invariant 0 <= k <= BATCH && k <= |s| && entries == s[..k]
        invariant queue.Valid() && queue.Contents == Rest(s, k) && freeQueueSize == Total(overhead, Rest(s, k))
        invariant full <==> |s| - k == queue.q.Length - 1
        invariant TakenTo(queue.q.Length, overhead, limit, s, 0, BATCH)
                  == TakenTo(queue.q.Length, overhead, limit, s, k, BATCH - k)
        modifies this`freeQueueSize, queue
        decreases BATCH - k
      {
        ExcessIs(queue.q.Length, overhead, limit, queue.Contents);
        ExcessIsNotEmpty(queue.q.Length, overhead, limit, queue.Contents);
        TakenOnce(queue.q.Length, overhead, limit, s, k, BATCH - k);
        TotalPop(overhead, s, k);
        var e := queue.Pop();
        freeQueueSize := freeQueueSize - (e.size + overhead);
        entries := entries + [e];
        k := k + 1;
        full := queue.Full();
      }
      ExcessIs(queue.q.Length, overhead, limit, queue.Contents);
    }

    lemma QueueFits()
      requires Consistent()
      ensures |queue.Contents| < queue.q.Length && queue.q.Length >= 2
    {
    }

    /** The beginning of ProcessFreeQueue: the new block, if there is one. */
    method Enqueue(block: int, size: nat)
      requires Valid()
      modifies this`freeQueueSize, this`pushed, queue, queue.q
      ensures Consistent() && popped == old(popped)
      ensures pushed == if block != NULL then old(pushed) + [Entry(block, size)] else old(pushed)
    {
      hide FreeQueue.Valid;
      hide Total;
      if block != NULL {
        TotalPush(overhead, queue.Contents, Entry(block, size));
        freeQueueSize := freeQueueSize + (size + overhead);
        queue.Push(Entry(block, size));
        pushed := pushed + [Entry(block, size)];
      }
    }

    /** A call that nobody interferes with. The blocks it frees, in their order, are the
        oldest in the queue, no more of them than needed to get down to the limit. */
    method ProcessFreeQueue(block: int, size: nat, maxFreeQueueSize: int) returns (freed: seq<Entry>)
      requires Valid() && -0x8000_0000 <= maxFreeQueueSize < 0x8000_0000
      modifies this, queue, queue.q
      ensures Valid() && freeQueueSize <= Limit(maxFreeQueueSize)
      ensures pushed == if block != NULL then old(pushed) + [Entry(block, size)] else old(pushed)
      ensures popped == old(popped) + freed
      ensures freed != [] ==>
                Excess(queue.q.Length, overhead, Limit(maxFreeQueueSize), [freed[|freed| - 1]] + queue.Contents)
    {
      hide FreeQueue.Valid;
      hide Total;
      hide Excess;
      hide TakenTo;
      var limit := Limit(maxFreeQueueSize);
      Enqueue(block, size);
      var entries := TakeBatch(limit);
      freed := entries;
      while |entries| == BATCH
        invariant Valid() && |entries| <= BATCH
        invariant pushed == if block != NULL then old(pushed) + [Entry(block, size)] else old(pushed)
        invariant popped == old(popped) + freed
        invariant |entries| < BATCH ==> !Excess(queue.q.Length, overhead, limit, queue.Contents)
        invariant freed != [] ==> Excess(queue.q.Length, overhead, limit, [freed[|freed| - 1]] + queue.Contents)
        decreases |queue.Contents|, |entries|
      {
        entries := TakeBatch(limit);
        Concatenated(old(popped), freed, entries);
        freed := freed + entries;
      }
      ExcessMeans(limit);
    }

    lemma ExcessMeans(limit: nat)
      requires Valid() && !Excess(queue.q.Length, overhead, limit, queue.Contents)
      ensures freeQueueSize <= limit
    {
    }
  }

  // ---------- Many threads ----------

  /** Entries are known by their place in the order of pushing. A thread frees the
      entries lo..hi after giving up the lock, and goes back for more if they fill a batch. */
  datatype Thread = Idle | Entering(block: int, size: nat) | Freeing(lo: nat, hi: nat) | GoingBack

  datatype Owner = HeldBy(thread: int) | Freed

  /** popped entries have left the queue; owner says where they are. */
  datatype State = State(pushed: seq<Entry>, popped: nat, size: int, owner: seq<Owner>, threads: seq<Thread>)

  datatype Event = Call(block: int, size: nat) | Run

  ghost predicate OwnersOk(owner: seq<Owner>, threads: seq<Thread>)
  {
    && (forall i {:trigger owner[i]} | 0 <= i < |owner| && owner[i].HeldBy? ::
          var t := owner[i].thread; 0 <= t < |threads| && threads[t].Freeing? && threads[t].lo <= i < threads[t].hi)
    && (forall t {:trigger threads[t]} | 0 <= t < |threads| && threads[t].Freeing? ::
          threads[t].lo <= threads[t].hi <= |owner|
          && forall i | threads[t].lo <= i < threads[t].hi :: owner[i] == HeldBy(t))
  }

  /** At every point where the lock is free. */
  ghost predicate Inv(capacity: nat, overhead: nat, s: State)
  {
    && capacity >= 2 && s.popped <= |s.pushed| == s.popped + |s.pushed[s.popped..]|
    && |s.pushed| - s.popped < capacity - 1
    && s.size == Total(overhead, s.pushed[s.popped..])
    && |s.owner| == s.popped && OwnersOk(s.owner, s.threads)
  }

  /** Under the lock: at most one batch goes from the queue to thread t. */
  function Section(capacity: nat, overhead: nat, limit: nat, s: State, t: int): State
    requires 0 <= t < |s.threads| && s.popped <= |s.pushed|
  {
    var n := TakenTo(capacity, overhead, limit, s.pushed, s.popped, BATCH);
    s.(popped := n, size := s.size - Total(overhead, s.pushed[s.popped..n]),
       owner := s.owner + seq(n - s.popped, _ => HeldBy(t)),
       threads := s.threads[t := Freeing(s.popped, n)])
  }

  function Pushed(overhead: nat, s: State, block: int, size: nat): State
  {
    if block == NULL then s else s.(pushed := s.pushed + [Entry(block, size)], size := s.size + size + overhead)
  }

  function Next(capacity: nat, overhead: nat, limit: nat, s: State, t: int, e: Event): State
    requires 0 <= t < |s.threads| && s.popped <= |s.pushed|
  {
    match e
    case Call(block, size) => if s.threads[t].Idle? then s.(threads := s.threads[t := Entering(block, size)]) else s
    case Run =>
      match s.threads[t]
      case Idle => s
      case Entering(block, size) => Section(capacity, overhead, limit, Pushed(overhead, s, block, size), t)
      case GoingBack => Section(capacity, overhead, limit, s, t)
      case Freeing(lo, hi) =>
        s.(owner := FreedFrom(s.owner, lo, hi), threads := s.threads[t := if hi - lo == BATCH then GoingBack else Idle])
  }

  function FreedFrom(owner: seq<Owner>, lo: int, hi: int): (r: seq<Owner>)
    ensures |r| == |owner|
    ensures forall i {:trigger r[i]} | 0 <= i < |r| :: r[i] == if lo <= i < hi then Freed else owner[i]
  {
    seq(|owner|, i requires 0 <= i < |owner| => if lo <= i < hi then Freed else owner[i])
  }

  lemma {:induction false} TotalSplit(overhead: nat, s: seq<Entry>, k: nat, n: nat)
    requires k <= n <= |s|
    ensures Total(overhead, s[k..]) == Total(overhead, s[k..n]) + Total(overhead, s[n..])
    decreases n - k
  {
    if k == n {
      assert s[k..n] == [];
    } else {
      assert s[k..][0] == s[k] && s[k..][1..] == s[k + 1..];
      assert s[k..n][0] == s[k] && s[k..n][1..] == s[k + 1..n];
      TotalSplit(overhead, s, k + 1, n);
    }
  }

  lemma SectionKeepsInv(capacity: nat, overhead: nat, limit: nat, s: State, t: int)
    requires 0 <= t < |s.threads| && !s.threads[t].Freeing? && capacity >= 2
    requires s.popped <= |s.pushed| && |s.pushed| - s.popped < capacity
    requires s.size == Total(overhead, s.pushed[s.popped..])
    requires |s.owner| == s.popped && OwnersOk(s.owner, s.threads)
    ensures Inv(capacity, overhead, Section(capacity, overhead, limit, s, t))
  {
    var s' := Section(capacity, overhead, limit, s, t);
    var n := s'.popped;
    TotalSplit(overhead, s.pushed, s.popped, n);
    SectionIsNotFull(capacity, overhead, limit, s.pushed, s.popped);
    forall u | 0 <= u < |s'.threads| && s'.threads[u].Freeing?
      ensures s'.threads[u].lo <= s'.threads[u].hi <= |s'.owner|
      ensures forall i | s'.threads[u].lo <= i < s'.threads[u].hi :: s'.owner[i] == HeldBy(u)
    {
      if u != t {
        assert s'.threads[u] == s.threads[u];
      }
    }
  }

  /** However much a batch leaves behind, the queue is not full when the lock is free. */
  lemma SectionIsNotFull(capacity: nat, overhead: nat, limit: nat, s: seq<Entry>, k: nat)
    requires capacity >= 2 && k <= |s| && |s| - k < capacity
    ensures |s| - TakenTo(capacity, overhead, limit, s, k, BATCH) < capacity - 1
  {
    var n := TakenTo(capacity, overhead, limit, s, k, BATCH);
    if n == k && k < |s| {
      assert !Excess(capacity, overhead, limit, s[k..]);
    }
  }

  lemma FreeingKeepsOwners(owner: seq<Owner>, threads: seq<Thread>, t: int, next: Thread)
    requires OwnersOk(owner, threads) && 0 <= t < |threads| && threads[t].Freeing? && !next.Freeing?
    ensures OwnersOk(FreedFrom(owner, threads[t].lo, threads[t].hi), threads[t := next])
  {
    var owner', threads' := FreedFrom(owner, threads[t].lo, threads[t].hi), threads[t := next];
    assert forall i {:trigger owner[i]} | threads[t].lo <= i < threads[t].hi :: owner[i] == HeldBy(t);
    forall u | 0 <= u < |threads'| && threads'[u].Freeing?
      ensures threads'[u].lo <= threads'[u].hi <= |owner'|
      ensures forall i | threads'[u].lo <= i < threads'[u].hi :: owner'[i] == HeldBy(u)
    {
      assert u != t && threads'[u] == threads[u];
      forall i | threads[u].lo <= i < threads[u].hi
        ensures owner'[i] == HeldBy(u)
      {
        assert owner[i] == HeldBy(u);
      }
    }
    forall i | 0 <= i < |owner'| && owner'[i].HeldBy?
      ensures var u := owner'[i].thread;
              0 <= u < |threads'| && threads'[u].Freeing? && threads'[u].lo <= i < threads'[u].hi
    {
      assert owner[i] == owner'[i] && owner[i].thread != t;
    }
  }

  /** Whatever the threads do: the queue has room whenever the lock is free, its size is
      what it holds, and each entry that has left it is freed or about to be, once. */
  lemma NextKeepsInv(capacity: nat, overhead: nat, limit: nat, s: State, t: int, e: Event)
    requires Inv(capacity, overhead, s) && 0 <= t < |s.threads|
    ensures Inv(capacity, overhead, Next(capacity, overhead, limit, s, t, e))
  {
    match e
    case Call(block, size) =>
      if s.threads[t].Idle? {
        IdleKeepsOwners(s.owner, s.threads, t, Entering(block, size));
      }
    case Run =>
      match s.threads[t]
      case Idle =>
      case Entering(block, size) =>
        if block != NULL {
          TotalPush(overhead, s.pushed[s.popped..], Entry(block, size));
          assert Pushed(overhead, s, block, size).pushed[s.popped..] == s.pushed[s.popped..] + [Entry(block, size)];
        }
        SectionKeepsInv(capacity, overhead, limit, Pushed(overhead, s, block, size), t);
      case GoingBack =>
        SectionKeepsInv(capacity, overhead, limit, s, t);
      case Freeing(lo, hi) =>
        FreeingKeepsOwners(s.owner, s.threads, t, if hi - lo == BATCH then GoingBack else Idle);
  }

  lemma IdleKeepsOwners(owner: seq<Owner>, threads: seq<Thread>, t: int, next: Thread)
    requires OwnersOk(owner, threads) && 0 <= t < |threads| && !threads[t].Freeing? && !next.Freeing?
    ensures OwnersOk(owner, threads[t := next])
  {
    var threads' := threads[t := next];
    forall u | 0 <= u < |threads'| && threads'[u].Freeing?
      ensures threads'[u].lo <= threads'[u].hi <= |owner| && forall i | threads'[u].lo <= i < threads'[u].hi ::
                owner[i] == HeldBy(u)
    {
      assert u != t && threads'[u] == threads[u];
    }
  }

  /** A block is freed by the thread that holds it, and never again: once freed, an
      entry stays freed; and only entries at the front of the queue leave it, in order. */
  lemma FreedOnce(capacity: nat, overhead: nat, limit: nat, s: State, t: int, e: Event, i: int)
    requires Inv(capacity, overhead, s) && 0 <= t < |s.threads|
    ensures var s' := Next(capacity, overhead, limit, s, t, e);
            && s.popped <= s'.popped && s.pushed <= s'.pushed && |s.owner| <= |s'.owner|
            && (0 <= i < |s.owner| && s.owner[i].Freed? ==> s'.owner[i].Freed?)
            && (0 <= i < |s'.owner| && s'.owner[i].Freed? && !(i < |s.owner| && s.owner[i].Freed?) ==>
                  i < |s.owner| && s.owner[i] == HeldBy(t))
            && (0 <= i < |s'.owner| && i >= |s.owner| ==> s'.owner[i] == HeldBy(t))
  {
  }

  function RunAll(capacity: nat, overhead: nat, limit: nat, s: State, run: seq<(nat, Event)>): State
    requires s.popped <= |s.pushed| && forall k | 0 <= k < |run| :: run[k].0 < |s.threads|
    decreases run
  {
    if run == [] then s
      else RunAll(capacity, overhead, limit, Next(capacity, overhead, limit, s, run[0].0, run[0].1), run[1..])
  }

  /** Nothing has been freed yet. */
  function Initial(threads: nat): State
  {
    State([], 0, 0, [], seq(threads, _ => Idle))
  }

  lemma InitialInv(capacity: nat, overhead: nat, threads: nat)
    requires capacity >= 2
    ensures Inv(capacity, overhead, Initial(threads))
  {
    assert Initial(threads).pushed[0..] == [];
  }

  /** Over any run, from the initial state or any later one. When all threads are idle again, every entry
      that left the queue has been freed. */
  lemma {:induction false} RunKeepsInv(capacity: nat, overhead: nat, limit: nat, s: State, run: seq<(nat, Event)>)
    requires Inv(capacity, overhead, s) && forall k | 0 <= k < |run| :: run[k].0 < |s.threads|
    ensures Inv(capacity, overhead, RunAll(capacity, overhead, limit, s, run))
    ensures var s' := RunAll(capacity, overhead, limit, s, run);
            (forall t | 0 <= t < |s'.threads| :: s'.threads[t].Idle?) ==> forall i | 0 <= i < s'.popped ::
               s'.owner[i].Freed?
    decreases run
  {
    if run != [] {
      NextKeepsInv(capacity, overhead, limit, s, run[0].0, run[0].1);
      RunKeepsInv(capacity, overhead, limit, Next(capacity, overhead, limit, s, run[0].0, run[0].1), run[1..]);
    }
  }

  /** A run is its steps, one after the other. */
  lemma {:induction false} RunIsSteps(capacity: nat, overhead: nat, limit: nat, s: State, run: seq<(nat, Event)>,
                                      t: nat, e: Event)
    requires Inv(capacity, overhead, s) && t < |s.threads| && forall k | 0 <= k < |run| :: run[k].0 < |s.threads|
    ensures Inv(capacity, overhead, RunAll(capacity, overhead, limit, s, run))
            && |RunAll(capacity, overhead, limit, s, run).threads| == |s.threads|
    ensures RunAll(capacity, overhead, limit, s, run + [(t, e)])
            == Next(capacity, overhead, limit, RunAll(capacity, overhead, limit, s, run), t, e)
    decreases run
  {
    if run == [] {
      assert ([] + [(t, e)])[1..] == [];
    } else {
      NextKeepsInv(capacity, overhead, limit, s, run[0].0, run[0].1);
      RunIsSteps(capacity, overhead, limit, Next(capacity, overhead, limit, s, run[0].0, run[0].1), run[1..], t, e);
      assert (run + [(t, e)])[1..] == run[1..] + [(t, e)];
    }
  }

  /** A block that is there is pushed when its thread first gets the lock, and nothing else
      ever is. */
  lemma NextPushes(capacity: nat, overhead: nat, limit: nat, s: State, t: int, e: Event)
    requires Inv(capacity, overhead, s) && 0 <= t < |s.threads|
    ensures var s', th := Next(capacity, overhead, limit, s, t, e), s.threads[t];
            s'.pushed == if e.Run? && th.Entering? && th.block != NULL
                         then s.pushed + [Entry(th.block, th.size)] else s.pushed
  {
  }

  /** A call begins if its thread is idle. */
  lemma NextCalls(capacity: nat, overhead: nat, limit: nat, s: State, t: int, block: int, size: nat)
    requires Inv(capacity, overhead, s) && 0 <= t < |s.threads|
    ensures var s' := Next(capacity, overhead, limit, s, t, Call(block, size));
            && s' == s.(threads := s'.threads) && |s'.threads| == |s.threads|
            && forall u | 0 <= u < |s.threads| ::
                 s'.threads[u] == if u == t && s.threads[t].Idle? then Entering(block, size) else s.threads[u]
  {
  }

  /** With too much in the queue, some thread has yet to come back for more. */
  ghost predicate SomeoneComesBack(capacity: nat, overhead: nat, limit: nat, s: State)
    requires s.popped <= |s.pushed|
  {
    Excess(capacity, overhead, limit, s.pushed[s.popped..]) ==>
      exists t :: 0 <= t < |s.threads| && WillComeBack(s.threads[t])
  }

  predicate WillComeBack(th: Thread)
  {
    th.GoingBack? || (th.Freeing? && th.hi - th.lo == 4)
  }

  lemma SectionIsWatched(capacity: nat, overhead: nat, limit: nat, s: State, t: int)
    requires 0 <= t < |s.threads| && s.popped <= |s.pushed| && |s.pushed| - s.popped < capacity && capacity >= 2
    ensures var s' := Section(capacity, overhead, limit, s, t);
            s'.popped <= |s'.pushed| && SomeoneComesBack(capacity, overhead, limit, s')
  {
    var s' := Section(capacity, overhead, limit, s, t);
    hide Total;
    if Excess(capacity, overhead, limit, s'.pushed[s'.popped..]) {
      ExcessIsNotEmpty(capacity, overhead, limit, s'.pushed[s'.popped..]);
      assert WillComeBack(s'.threads[t]);
    }
  }

  lemma NextIsWatched(capacity: nat, overhead: nat, limit: nat, s: State, t: int, e: Event)
    requires Inv(capacity, overhead, s) && 0 <= t < |s.threads| && SomeoneComesBack(capacity, overhead, limit, s)
    ensures var s' := Next(capacity, overhead, limit, s, t, e);
            s'.popped <= |s'.pushed| && SomeoneComesBack(capacity, overhead, limit, s')
  {
    var s' := Next(capacity, overhead, limit, s, t, e);
    if e.Run? && (s.threads[t].Entering? || s.threads[t].GoingBack?) {
      if s.threads[t].Entering? {
        SectionIsWatched(capacity, overhead, limit, Pushed(overhead, s, s.threads[t].block, s.threads[t].size), t);
      } else {
        SectionIsWatched(capacity, overhead, limit, s, t);
      }
    } else if Excess(capacity, overhead, limit, s.pushed[s.popped..]) {
      var u :| 0 <= u < |s.threads| && WillComeBack(s.threads[u]);
      assert WillComeBack(s'.threads[u]);
    }
  }

  /** Over any run from the start: once all threads are idle, the queue is within its limit,
      however the threads have taken turns. */
  lemma {:induction false} IdleIsWithinLimit(capacity: nat, overhead: nat, limit: nat, s: State,
                                             run: seq<(nat, Event)>)
    requires Inv(capacity, overhead, s) && forall k | 0 <= k < |run| :: run[k].0 < |s.threads|
    requires SomeoneComesBack(capacity, overhead, limit, s)
    ensures var s' := RunAll(capacity, overhead, limit, s, run);
            (forall t | 0 <= t < |s'.threads| :: s'.threads[t].Idle?) ==> s'.size <= limit
    decreases run
  {
    hide TakenTo;
    if run != [] {
      NextKeepsInv(capacity, overhead, limit, s, run[0].0, run[0].1);
      NextIsWatched(capacity, overhead, limit, s, run[0].0, run[0].1);
      IdleIsWithinLimit(capacity, overhead, limit, Next(capacity, overhead, limit, s, run[0].0, run[0].1), run[1..]);
    }
  }

  lemma InitialIsWatched(capacity: nat, overhead: nat, limit: nat, threads: nat)
    requires capacity >= 2
    ensures SomeoneComesBack(capacity, overhead, limit, Initial(threads))
  {
    assert Initial(threads).pushed[0..] == [];
  }
}
