/** The hook list of the allocator: writers change it under a lock, one store at a time;
    readers take no lock. The number of ordinary slots is a parameter; the slot after
    them is for the deprecated single hook. */
module HookLists {

  // ---------- One past the last hook ----------

  /** Goes down from end over empty slots. */
  function Fixed(data: seq<int>, end: int): (r: int)
    requires 0 <= end <= |data|
    ensures 0 <= r <= end && (r > 0 ==> data[r - 1] != 0)
    ensures forall j | r <= j < end :: data[j] == 0
  {
    if end > 0 && data[end - 1] == 0 then Fixed(data, end - 1) else end
  }

  function EndOf(data: seq<int>): int
  {
    Fixed(data, |data|)
  }

  lemma EndIs(data: seq<int>, end: int)
    requires 0 <= end <= |data| && (end > 0 ==> data[end - 1] != 0) && forall j | end <= j < |data| :: data[j] == 0
    ensures EndOf(data) == end
  {
  }

  /** The first empty one among the ordinary slots, or their number. */
  function FirstFree(data: seq<int>, max: int): (r: int)
    requires 0 <= max <= |data|
    ensures 0 <= r <= max && (r < max ==> data[r] == 0)
    ensures forall j | 0 <= j < r :: data[j] != 0
  {
    if max == 0 then 0 else
    var r := FirstFree(data, max - 1);
    if r < max - 1 || data[max - 1] == 0 then r else max
  }

  /** The first slot before end with a value, or end. */
  function FirstWith(data: seq<int>, end: int, v: int): (r: int)
    requires 0 <= end <= |data|
    ensures 0 <= r <= end && (r < end ==> data[r] == v)
    ensures forall j | 0 <= j < r :: data[j] != v
  {
    if end == 0 then 0 else
    var r := FirstWith(data, end - 1, v);
    if r < end - 1 || data[end - 1] == v then r else end
  }

  /** The hooks, in slot order. */
  function Hooks(data: seq<int>): seq<int>
  {
    if data == [] then [] else
    var n := |data| - 1;
    Hooks(data[..n]) + if data[n] != 0 then [data[n]] else []
  }

  lemma {:induction false} HooksBeforeEnd(data: seq<int>, end: int)
    requires 0 <= end <= |data| && forall j | end <= j < |data| :: data[j] == 0
    ensures Hooks(data) == Hooks(data[..end])
    decreases |data|
  {
    if end < |data| {
      HooksBeforeEnd(data[..|data| - 1], end);
      assert data[..|data| - 1][..end] == data[..end];
    } else {
      assert data[..end] == data;
    }
  }

  lemma {:induction false} CountOfHooks(data: seq<int>)
    ensures |Hooks(data)| <= |data|
    ensures |Hooks(data)| == |data| <==> forall j | 0 <= j < |data| :: data[j] != 0
    ensures |Hooks(data)| == |data| ==> Hooks(data) == data
    decreases |data|
  {
    if data != [] {
      var n := |data| - 1;
      CountOfHooks(data[..n]);
      forall j | 0 <= j < n
        ensures data[..n][j] == data[j]
      {
      }
      assert data == data[..n] + [data[n]];
    }
  }

  /** Room for the ordinary hooks is room for all exactly when some slot is empty; with none
      empty, what the room does not take is the single hook, which is in the last slot. */
  lemma RoomForAllIff(data: seq<int>, max: nat)
    requires |data| == max + 1
    ensures |Hooks(data)| <= max <==> exists j :: 0 <= j <= max && data[j] == 0
    ensures |Hooks(data)| > max ==> Hooks(data) == data[..max] + [data[max]]
  {
    CountOfHooks(data);
    assert data == data[..max] + [data[max]];
    if |Hooks(data)| <= max {
      var j :| 0 <= j < |data| && data[j] == 0;
    }
  }

  // ---------- The list on its own ----------

  class HookList {
    const max: int
    const privData: array<int>
    var privEnd: int

    ghost predicate Shaped()
      reads this
    {
      max >= 0 && privData.Length == max + 1 && 0 <= privEnd <= max + 1
    }

    /** After every completed call. */
    ghost predicate Valid()
      reads this, privData
    {
      Shaped() && privEnd == EndOf(privData[..])
    }

    constructor (max: int)
      requires max >= 0
      ensures Valid() && this.max == max && privEnd == 0 && fresh(privData)
    {
      this.max, privEnd := max, 0;
      privData := new int[max + 1](_ => 0);
      new;
      EndIs(privData[..], 0);
    }

    method Add(value: int) returns (added: bool)
      requires Valid()
      modifies this`privEnd, privData
      ensures Valid()
      ensures added <==> value != 0 && FirstFree(old(privData[..]), max) < max
      ensures privData[..] == if added then old(privData[..])[FirstFree(old(privData[..]), max) := value]
              else old(privData[..])
    {
      if value == 0 {
        return false;
      }
      var index := 0;
      while index < max && privData[index] != 0
        invariant 0 <= index <= max && forall j | 0 <= j < index :: privData[j] != 0
      {
        index := index + 1;
      }
      FreeIs(privData[..], max, index);
      if index == max {
        return false;
      }
      var prevNumHooks := privEnd;
      privData[index] := value;
      if prevNumHooks <= index {
        privEnd := index + 1;
      }
      EndIs(privData[..], privEnd);
      added := true;
    }

    method FixupPrivEndLocked()
      requires Shaped() && forall j | privEnd <= j <= max :: privData[j] == 0
      modifies this`privEnd
      ensures Valid()
    {
      var hooksEnd := privEnd;
      while hooksEnd > 0 && privData[hooksEnd - 1] == 0
        invariant 0 <= hooksEnd <= max + 1 && forall j | hooksEnd <= j <= max :: privData[j] == 0
      {
        hooksEnd := hooksEnd - 1;
      }
      privEnd := hooksEnd;
      EndIs(privData[..], privEnd);
    }

    method Remove(value: int) returns (removed: bool)
      requires Valid()
      modifies this`privEnd, privData
      ensures Valid()
      ensures removed <==> value != 0 && value in old(privData[..])
      ensures removed ==> var i := FirstWith(old(privData[..]), old(privEnd), value);
                          i < old(privEnd) && privData[..] == old(privData[..])[i := 0]
      ensures !removed ==> privData[..] == old(privData[..])
    {
      if value == 0 {
        return false;
      }
      var hooksEnd := privEnd;
      var index := 0;
      while index < hooksEnd && value != privData[index]
        invariant 0 <= index <= hooksEnd && forall j | 0 <= j < index :: privData[j] != value
      {
        index := index + 1;
      }
      WithIs(privData[..], hooksEnd, value, index);
      if index == hooksEnd {
        return false;
      }
      assert privData[..][index] == value;
      privData[index] := 0;
      FixupPrivEndLocked();
      removed := true;
    }

    method ExchangeSingular(value: int) returns (oldValue: int)
      requires Valid()
      modifies this`privEnd, privData
      ensures Valid() && oldValue == old(privData[max]) && privData[..] == old(privData[..])[max := value]
    {
      oldValue := privData[max];
      privData[max] := value;
      if value != 0 {
        privEnd := max + 1;
        EndIs(privData[..], privEnd);
      } else {
        FixupPrivEndLocked();
      }
    }

    /** Without interference: the hooks in order, as many as there is room for. */
    method Traverse(n: nat) returns (output: seq<int>)
      requires Valid()
      ensures var all := Hooks(privData[..]); output == if |all| <= n then all else all[..n]
    {
      output := [];
      var i := 0;
      HooksBeforeEnd(privData[..], privEnd);
      while i < privEnd && |output| < n
        invariant 0 <= i <= privEnd && |output| <= n && output == Hooks(privData[..][..i])
      {
        if privData[i] != 0 {
          output := output + [privData[i]];
        }
        assert privData[..][..i + 1][..i] == privData[..][..i];
        i := i + 1;
      }
      HooksPrefix(privData[..][..privEnd], i);
      assert privData[..][..privEnd][..i] == privData[..][..i];
    }

    /** As the callers traverse, with as many places as there are ordinary slots: they get all
        hooks exactly when some slot is empty, and otherwise all but the single one. */
    method TraverseAsCalled() returns (output: seq<int>)
      requires Valid()
      ensures output == Hooks(privData[..]) <==> exists j :: 0 <= j <= max && privData[j] == 0
      ensures output != Hooks(privData[..]) ==> Hooks(privData[..]) == output + [privData[max]]
    {
      RoomForAllIff(privData[..], max);
      assert forall j | 0 <= j <= max :: privData[..][j] == privData[j];
      output := Traverse(max);
      if |Hooks(privData[..])| > max {
        assert |output| == max;
        assert output == privData[..][..max];
      }
    }
  }

  lemma FreeIs(data: seq<int>, max: int, index: int)
    requires 0 <= index <= max <= |data| && (forall j | 0 <= j < index :: data[j] != 0)
               && (index < max ==> data[index] == 0)
    ensures FirstFree(data, max) == index
  {
  }

  lemma WithIs(data: seq<int>, end: int, v: int, index: int)
    requires 0 <= index <= end <= |data| && (forall j | 0 <= j < index :: data[j] != v)
               && (index < end ==> data[index] == v)
    ensures FirstWith(data, end, v) == index
  {
  }

  lemma {:induction false} HooksPrefix(data: seq<int>, i: int)
    requires 0 <= i <= |data|
    ensures Hooks(data[..i]) <= Hooks(data)
    decreases |data|
  {
    if i < |data| {
      HooksPrefix(data[..|data| - 1], i);
      assert data[..|data| - 1][..i] == data[..i];
    } else {
      assert data[..i] == data;
    }
  }

  // ---------- Writers and readers, store by store ----------

  /** What the writer that holds the lock has still to store in priv_end. */
  datatype Writer = Free | EndOfAdd(index: int, prevEnd: int) | Fixup | EndOfSingular

  /** A reader in Traverse: it has loaded end, and looked at the slots before i. The rest
      is what has been true of the slots since it began: which have kept one hook all
      the time (0 for those that have not), and which values each has had. */
  datatype Reader = Reader(i: int, end: int, room: int, output: seq<(int, int)>, kept: seq<int>, seen: seq<set<int>>)

  datatype State = State(data: seq<int>, end: int, writer: Writer, readers: seq<Reader>)

  datatype Event =
    | AddSlot(v: int) | RemoveSlot(v: int) | ExchangeSlot(v: int) | StoreEnd
    | Begin(room: nat) | Look(r: nat)

  /** Each store to a slot is seen by every reader under way. */
  function Told(r: Reader, j: int, v: int): Reader
  {
    if !(0 <= j < |r.kept| == |r.seen|) then r else
    r.(kept := r.kept[j := if r.kept[j] == v then v else 0], seen := r.seen[j := r.seen[j] + {v}])
  }

  ghost predicate ReaderOk(data: seq<int>, r: Reader)
  {
    && 0 <= r.i <= r.end <= |data| == |r.kept| == |r.seen| && |r.output| <= r.room
    && (forall j {:trigger r.kept[j]} | 0 <= j < |data| && r.kept[j] != 0 :: j < r.end && data[j] == r.kept[j])
    && (forall j {:trigger r.kept[j]} | 0 <= j < r.i && r.kept[j] != 0 :: (j, r.kept[j]) in r.output)
    && (forall j {:trigger r.seen[j]} | 0 <= j < |data| :: data[j] in r.seen[j])
    && (forall k {:trigger r.output[k]} | 0 <= k < |r.output| ::
          0 <= r.output[k].0 < r.i && r.output[k].1 != 0 && r.output[k].1 in r.seen[r.output[k].0])
    && (forall k, l {:trigger r.output[k], r.output[l]} | 0 <= k < l < |r.output| :: r.output[k].0 < r.output[l].0)
  }

  ghost predicate WriterOk(max: int, s: State)
  {
    && max >= 0 && |s.data| == max + 1 && 0 <= s.end <= max + 1
    && match s.writer
       case Free => s.end == EndOf(s.data)
       case EndOfAdd(index, prevEnd) =>
         && 0 <= index < max && prevEnd == s.end && s.data[index] != 0
         && EndOf(s.data) == (if prevEnd <= index then index + 1 else prevEnd)
         && forall j | s.end <= j <= max && j != index :: s.data[j] == 0
       case Fixup => forall j | s.end <= j <= max :: s.data[j] == 0
       case EndOfSingular => s.data[max] != 0 && forall j | s.end <= j < max :: s.data[j] == 0
  }

  ghost predicate Inv(max: int, s: State)
  {
    WriterOk(max, s) && forall r {:trigger s.readers[r]} | 0 <= r < |s.readers| :: ReaderOk(s.data, s.readers[r])
  }

  predicate Enabled(max: int, s: State, e: Event)
    requires max >= 0 && |s.data| == max + 1 && 0 <= s.end <= max + 1
  {
    match e
    case AddSlot(v) => s.writer.Free? && v != 0 && FirstFree(s.data, max) < max
    case RemoveSlot(v) => s.writer.Free? && v != 0 && FirstWith(s.data, s.end, v) < s.end
    case ExchangeSlot(v) => s.writer.Free?
    case StoreEnd => !s.writer.Free?
    case Begin(_) => true
    case Look(r) => r < |s.readers| && s.readers[r].i < s.readers[r].end && |s.readers[r].output| < s.readers[r].room
  }

  ghost function Stored(s: State, j: int, v: int, w: Writer): State
    requires 0 <= j < |s.data|
  {
    State(s.data[j := v], s.end, w, seq(|s.readers|, r requires 0 <= r < |s.readers| => Told(s.readers[r], j, v)))
  }

  ghost function Next(max: int, s: State, e: Event): State
    requires Inv(max, s) && Enabled(max, s, e)
  {
    match e
    case AddSlot(v) => var i := FirstFree(s.data, max); Stored(s, i, v, EndOfAdd(i, s.end))
    case RemoveSlot(v) => Stored(s, FirstWith(s.data, s.end, v), 0, Fixup)
    case ExchangeSlot(v) => Stored(s, max, v, if v != 0 then EndOfSingular else Fixup)
    case StoreEnd =>
      (match s.writer
       case EndOfAdd(index, prevEnd) => s.(end := if prevEnd <= index then index + 1 else s.end, writer := Free)
       case Fixup => s.(end := Fixed(s.data, s.end), writer := Free)
       case EndOfSingular => s.(end := max + 1, writer := Free)
       case Free => s)
    case Begin(room) => s.(readers := s.readers + [Begun(s.data, s.end, room)])
    case Look(r) => s.(readers := s.readers[r := Looked(s.data, s.readers[r])])
  }

  /** The load of priv_end. */
  ghost function Begun(data: seq<int>, end: int, room: nat): Reader
    requires 0 <= end <= |data|
  {
    Reader(0, end, room, [], seq(|data|, j requires 0 <= j < |data| => if j < end then data[j] else 0),
           seq(|data|, j requires 0 <= j < |data| => {data[j]}))
  }

  /** The load of the next slot. */
  ghost function Looked(data: seq<int>, r: Reader): Reader
    requires 0 <= r.i < |data|
  {
    r.(i := r.i + 1, output := if data[r.i] != 0 then r.output + [(r.i, data[r.i])] else r.output)
  }

  lemma ToldKeepsOk(data: seq<int>, r: Reader, j: int, v: int)
    requires ReaderOk(data, r) && 0 <= j < |data|
    ensures ReaderOk(data[j := v], Told(r, j, v))
  {
  }

  lemma LookedKeepsOk(data: seq<int>, r: Reader)
    requires ReaderOk(data, r) && r.i < r.end && |r.output| < r.room
    ensures ReaderOk(data, Looked(data, r))
  {
    var r' := Looked(data, r);
    forall j | 0 <= j < r'.i && r'.kept[j] != 0
      ensures (j, r'.kept[j]) in r'.output
    {
      if j < r.i {
        assert (j, r.kept[j]) in r.output;
      } else {
        assert r'.output[|r.output|] == (j, r'.kept[j]);
      }
    }
  }

  lemma StoredKeepsReaders(s: State, j: int, v: int, w: Writer)
    requires 0 <= j < |s.data| && forall r {:trigger s.readers[r]} | 0 <= r < |s.readers| ::
               ReaderOk(s.data, s.readers[r])
    ensures var s' := Stored(s, j, v, w);
            forall r {:trigger s'.readers[r]} | 0 <= r < |s'.readers| :: ReaderOk(s'.data, s'.readers[r])
  {
    var s' := Stored(s, j, v, w);
    forall r | 0 <= r < |s'.readers|
      ensures ReaderOk(s'.data, s'.readers[r])
    {
      ToldKeepsOk(s.data, s.readers[r], j, v);
    }
  }

  lemma NextKeepsWriter(max: int, s: State, e: Event)
    requires Inv(max, s) && Enabled(max, s, e)
    ensures WriterOk(max, Next(max, s, e))
  {
    hide ReaderOk;
    match e
    case AddSlot(v) =>
      var i := FirstFree(s.data, max);
      EndIs(s.data[i := v], if s.end <= i then i + 1 else s.end);
    case StoreEnd =>
      EndIs(s.data, Next(max, s, e).end);
    case _ =>
  }

  lemma NextKeepsReaders(max: int, s: State, e: Event)
    requires Inv(max, s) && Enabled(max, s, e)
    ensures var s' := Next(max, s, e);
            forall r {:trigger s'.readers[r]} | 0 <= r < |s'.readers| :: ReaderOk(s'.data, s'.readers[r])
  {
    hide ReaderOk;
    match e
    case AddSlot(v) =>
      var i := FirstFree(s.data, max);
      StoredKeepsReaders(s, i, v, EndOfAdd(i, s.end));
    case RemoveSlot(v) =>
      StoredKeepsReaders(s, FirstWith(s.data, s.end, v), 0, Fixup);
    case ExchangeSlot(v) =>
      StoredKeepsReaders(s, max, v, if v != 0 then EndOfSingular else Fixup);
    case StoreEnd =>
    case Begin(room) =>
      BegunIsOk(s.data, s.end, room);
    case Look(r) =>
      LookedKeepsOk(s.data, s.readers[r]);
  }

  lemma NextKeepsInv(max: int, s: State, e: Event)
    requires Inv(max, s) && Enabled(max, s, e)
    ensures Inv(max, Next(max, s, e))
  {
    NextKeepsWriter(max, s, e);
    NextKeepsReaders(max, s, e);
    hide Next;
    hide WriterOk;
    hide ReaderOk;
  }

  lemma BegunIsOk(data: seq<int>, end: int, room: nat)
    requires 0 <= end <= |data|
    ensures ReaderOk(data, Begun(data, end, room))
  {
  }

  ghost predicate ValidRun(max: int, s: State, run: seq<Event>)
    requires Inv(max, s)
    decreases run
  {
    run != [] ==>
      && Enabled(max, s, run[0])
      && (NextKeepsInv(max, s, run[0]); ValidRun(max, Next(max, s, run[0]), run[1..]))
  }

  ghost function AfterRun(max: int, s: State, run: seq<Event>): State
    requires Inv(max, s) && ValidRun(max, s, run)
    decreases run
  {
    if run == [] then s else
    NextKeepsInv(max, s, run[0]);
    AfterRun(max, Next(max, s, run[0]), run[1..])
  }

  /** Over any interleaving: after each completed call of a writer, priv_end is one past
      the last hook. */
  lemma {:induction false} RunKeepsInv(max: int, s: State, run: seq<Event>)
    requires Inv(max, s) && ValidRun(max, s, run)
    ensures Inv(max, AfterRun(max, s, run))
    ensures AfterRun(max, s, run).writer.Free? ==> AfterRun(max, s, run).end == EndOf(AfterRun(max, s, run).data)
    decreases run
  {
    if run != [] {
      NextKeepsInv(max, s, run[0]);
      RunKeepsInv(max, Next(max, s, run[0]), run[1..]);
    }
  }

  /** A run takes its steps one after the other. */
  lemma {:induction false} RunIsSteps(max: int, s: State, run: seq<Event>, e: Event)
    requires Inv(max, s) && ValidRun(max, s, run)
    ensures var last := AfterRun(max, s, run);
            && Inv(max, last) && (ValidRun(max, s, run + [e]) <==> Enabled(max, last, e))
            && (Enabled(max, last, e) ==> AfterRun(max, s, run + [e]) == Next(max, last, e))
    decreases run
  {
    if run == [] {
      assert ([] + [e])[1..] == [];
      if Enabled(max, s, e) {
        NextKeepsInv(max, s, e);
      }
    } else {
      NextKeepsInv(max, s, run[0]);
      RunIsSteps(max, Next(max, s, run[0]), run[1..], e);
      assert (run + [e])[1..] == run[1..] + [e];
    }
    hide Next;
    hide Inv;
    hide Enabled;
  }

  /** The slot a call of a writer stores to, and what. */
  ghost predicate StoresTo(max: int, s: State, e: Event, i: int, v: int)
  {
    && 0 <= i < |s.data| == max + 1
    && match e
       case AddSlot(w) => v == w && i < max && s.data[i] == 0 && forall j | 0 <= j < i :: s.data[j] != 0
       case RemoveSlot(w) => v == 0 && s.data[i] == w && forall j | 0 <= j < i :: s.data[j] != w
       case ExchangeSlot(w) => v == w && i == max
       case _ => false
  }

  /** A writer may begin exactly if none is at work and there is a slot for its store. */
  lemma BeginsIff(max: int, s: State, e: Event)
    requires Inv(max, s) && (e.AddSlot? || e.RemoveSlot? || e.ExchangeSlot?)
    ensures Enabled(max, s, e) <==>
            s.writer.Free? && (e.ExchangeSlot? || e.v != 0) && exists i, v :: StoresTo(max, s, e, i, v)
  {
    hide ReaderOk;
    match e
    case AddSlot(v) =>
      var i := FirstFree(s.data, max);
      assert i < max ==> StoresTo(max, s, e, i, v);
    case RemoveSlot(v) =>
      var i := FirstWith(s.data, s.end, v);
      assert i < s.end ==> StoresTo(max, s, e, i, 0);
      if s.writer.Free? {
        EndIsPastHooks(max, s);
      }
    case ExchangeSlot(v) =>
      assert StoresTo(max, s, e, max, v);
  }

  lemma EndIsPastHooks(max: int, s: State)
    requires Inv(max, s) && s.writer.Free?
    ensures forall j | 0 <= j <= max && s.data[j] != 0 :: j < s.end
  {
  }

  /** The two stores of a writer together do what its call does on a list of its own; the
      readers do not touch the list. */
  lemma CallIsTwoStores(max: int, s: State, e: Event, i: int, v: int)
    requires Inv(max, s) && s.writer.Free? && Enabled(max, s, e)
    ensures e.Begin? || e.Look? ==> var s' := Next(max, s, e);
              s'.data == s.data && s'.end == s.end && s'.writer.Free?
    ensures StoresTo(max, s, e, i, v) ==> var s' := Next(max, s, e);
              && Inv(max, s') && !s'.writer.Free? && s'.end == s.end && s'.data == s.data[i := v]
              && var s'' := Next(max, s', StoreEnd);
              && s''.writer.Free? && s''.data == s'.data && s''.end == EndOf(s''.data)
  {
    NextKeepsInv(max, s, e);
    if StoresTo(max, s, e, i, v) {
      NextKeepsInv(max, Next(max, s, e), StoreEnd);
    }
    hide ReaderOk;
  }

  /** Before any call: no hooks. */
  function Initial(max: nat): State
  {
    State(seq(max + 1, _ => 0), 0, Free, [])
  }

  lemma InitialInv(max: nat)
    ensures Inv(max, Initial(max))
  {
    EndIs(Initial(max).data, 0);
  }

  /** Slot j holds v in every state of a run. */
  ghost predicate Throughout(max: int, s: State, run: seq<Event>, j: int, v: int)
    requires Inv(max, s) && ValidRun(max, s, run)
    decreases run
  {
    && 0 <= j <= max && s.data[j] == v
    && (run != [] ==> (NextKeepsInv(max, s, run[0]); Throughout(max, Next(max, s, run[0]), run[1..], j, v)))
  }

  /** Slot j holds v in some state of a run. */
  ghost predicate Sometime(max: int, s: State, run: seq<Event>, j: int, v: int)
    requires Inv(max, s) && ValidRun(max, s, run)
    decreases run
  {
    || (0 <= j <= max && s.data[j] == v)
    || (run != [] && (NextKeepsInv(max, s, run[0]); Sometime(max, Next(max, s, run[0]), run[1..], j, v)))
  }

  /** What one step does to the reader under way. */
  lemma ReaderStep(max: int, s: State, e: Event, r: nat, j: int)
    requires Inv(max, s) && Enabled(max, s, e) && r < |s.readers| && 0 <= j <= max
    ensures var s' := Next(max, s, e); var q := s.readers[r];
            && r < |s'.readers| && |q.kept| == |q.seen| == max + 1
            && |s'.readers[r].kept| == |s'.readers[r].seen| == max + 1 && s'.readers[r].room == q.room
            && (s'.data[j] == q.kept[j] ==> s'.readers[r].kept[j] == q.kept[j])
            && (forall v | v in s'.readers[r].seen[j] :: v in q.seen[j] || v == s'.data[j])
  {
    assert ReaderOk(s.data, s.readers[r]);
    hide ReaderOk;
  }

  lemma {:induction false} ReaderRuns(max: int, s: State, run: seq<Event>, r: nat, j: int)
    requires Inv(max, s) && ValidRun(max, s, run) && r < |s.readers| && 0 <= j <= max
    ensures Inv(max, AfterRun(max, s, run))
    ensures var q, q' := s.readers[r], AfterRun(max, s, run).readers;
            && r < |q'| && |q.kept| == |q.seen| == max + 1 && |q'[r].kept| == |q'[r].seen| == max + 1
               && q'[r].room == q.room
            && (Throughout(max, s, run, j, q.kept[j]) ==> q'[r].kept[j] == q.kept[j])
            && (forall v | v in q'[r].seen[j] :: v in q.seen[j] || Sometime(max, s, run, j, v))
    decreases run
  {
    if run != [] {
      NextKeepsInv(max, s, run[0]);
      ReaderStep(max, s, run[0], r, j);
      ReaderRuns(max, Next(max, s, run[0]), run[1..], r, j);
      hide Inv;
      hide Next;
      hide Enabled;
      var s', v := Next(max, s, run[0]), s.readers[r].kept[j];
      if Throughout(max, s, run, j, v) {
        assert Throughout(max, s', run[1..], j, v);
      }
    } else {
      assert ReaderOk(s.data, s.readers[r]);
    }
  }

  /** What a reader has returned. */
  lemma ReaderEnds(data: seq<int>, q: Reader)
    requires ReaderOk(data, q)
    ensures q.i <= q.end <= |data| == |q.kept| == |q.seen| && |q.output| <= q.room
    ensures q.i == q.end ==> forall j | 0 <= j < |data| && q.kept[j] != 0 :: (j, q.kept[j]) in q.output
    ensures forall k | 0 <= k < |q.output| ::
              0 <= q.output[k].0 < |data| && q.output[k].1 != 0 && q.output[k].1 in q.seen[q.output[k].0]
    ensures forall k, l | 0 <= k < l < |q.output| :: q.output[k].0 < q.output[l].0
  {
  }

  /** A reader that has come to its end: if room was left, it has returned each hook that
      was before priv_end when it began and in its slot ever since; each that it has
      returned was in its slot at some time since; no slot twice. Out of room, it has
      returned its fill. */
  lemma TraverseIsFair(max: int, s: State, room: nat, run: seq<Event>)
    requires Inv(max, s) && Inv(max, Next(max, s, Begin(room))) && ValidRun(max, Next(max, s, Begin(room)), run)
    ensures var begun := Next(max, s, Begin(room)); var end := AfterRun(max, begun, run); var r := |s.readers|;
            && Inv(max, end) && r < |end.readers|
            && var output := end.readers[r].output;
            && (!Enabled(max, end, Look(r)) && |output| < room ==>
                  forall j, v | 0 <= j < s.end && v != 0 && Throughout(max, begun, run, j, v) :: (j, v) in output)
            && (!Enabled(max, end, Look(r)) && |output| >= room ==> |output| == room)
            && (forall k | 0 <= k < |output| ::
                  output[k].1 != 0 && Sometime(max, begun, run, output[k].0, output[k].1))
            && (forall k, l | 0 <= k < l < |output| :: output[k].0 < output[l].0)
  {
    hide ReaderOk;
    var begun, r := Next(max, s, Begin(room)), |s.readers|;
    ReaderRuns(max, begun, run, r, 0);
    ReaderEnds(AfterRun(max, begun, run).data, AfterRun(max, begun, run).readers[r]);
    var q := AfterRun(max, begun, run).readers[r];
    forall j, v | 0 <= j < s.end && v != 0 && Throughout(max, begun, run, j, v)
      ensures q.kept[j] == v
    {
      ReaderRuns(max, begun, run, r, j);
      assert begun.data[j] == v;
    }
    forall k | 0 <= k < |q.output|
      ensures Sometime(max, begun, run, q.output[k].0, q.output[k].1)
    {
      var j, v := q.output[k].0, q.output[k].1;
      ReaderRuns(max, begun, run, r, j);
      assert v in q.seen[j];
      assert v in begun.readers[r].seen[j] ==> v == begun.data[j];
    }
  }

  /** Which hooks count as there when a reader begins: all but one whose writer has yet
      to store the end. */
  lemma BeginsWithCompleted(max: int, s: State, room: nat, j: int)
    requires Inv(max, s) && 0 <= j <= max && s.data[j] != 0
    ensures var q := Next(max, s, Begin(room)).readers[|s.readers|];
            && (q.kept[j] == s.data[j] <==> j < s.end)
            && (j < s.end || s.writer == EndOfAdd(j, s.end) || (s.writer.EndOfSingular? && j == max))
  {
  }
}
