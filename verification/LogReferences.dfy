/** The count that keeps the grease thread up: each buffer with data holds one reference
    until it has been written and comes back. When is the count exact, and so when can the
    thread be let go? */
module LogReferences {
  import opened LogDelivery
  import opened LogTargets

  /** The buffers with data that have yet to come back. */
  function Outstanding(g: Options, t: Target): nat
  {
    HasData(g, t, t.current) + Count(g, t, t.writeOut) + Count(g, t, t.inFlight)
  }

  /** A write of nothing into an empty buffer. */
  ghost predicate RefsForNothing(g: Options, t: Target, e: Event)
    requires 0 <= t.current < |t.bufs|
  {
    && e.Write? && g.maxPrefix <= g.bankSize && e.m.header == "" && e.m.text == "" && e.m.footer == ""
    && Used(g, t, t.current) == 0
  }

  /** The step leaves a reference behind that nothing will give back. */
  ghost predicate LeavesRef(g: Options, t: Target, e: Event)
    requires 0 <= t.current < |t.bufs|
  {
    Overwrites(g, t, e) || RefsForNothing(g, t, e)
  }

  // ---------- Step by step ----------

  lemma ClearDropsOne(g: Options, t: Target)
    requires Inv(g, t) && 0 <= t.current < |t.bufs|
    ensures Outstanding(g, Clear(t, t.current)) == Outstanding(g, t) - HasData(g, t, t.current)
  {
    var c := t.current;
    var t' := Clear(t, c);
    OnePlace(g, t, c);
    EmptyHasNoData(g, t', c);
    CountFrame(g, t, t', t.writeOut);
    CountFrame(g, t, t', t.inFlight);
  }

  lemma SwapMovesOne(g: Options, t: Target)
    requires t.avail != [] && 0 <= t.avail[0] < |t.bufs| && t.bufs[t.avail[0]] == [] && 0 <= t.current < |t.bufs|
    ensures Outstanding(g, Swapped(t)) == Outstanding(g, t)
  {
    hide Count;
    var t' := Swapped(t);
    CountFrame(g, t, t', t'.writeOut);
    CountPush(g, t, t.writeOut, t.current);
    CountFrame(g, t, t', t.inFlight);
    EmptyHasNoData(g, t', t'.current);
  }

  lemma RotateMoves(g: Options, t: Target)
    requires Inv(g, t) && 0 <= t.current < |t.bufs|
    ensures var t' := Rotated(g, t).0;
            && t'.need == t.need
            && Outstanding(g, t') == Outstanding(g, t) - (if OutOfBuffers(g, t) then 1 else 0)
  {
    if OutOfBuffers(g, t) {
      ClearDropsOne(g, t);
    } else if t.avail != [] {
      SwapKeepsInv(g, t);
      SwapMovesOne(g, t);
    }
    hide Inv;
    hide Count;
    hide Flat;
  }

  /** A copy puts data into an empty buffer, unless it copies nothing. */
  lemma CopyFills(g: Options, t: Target, m: Msg)
    requires Inv(g, t) && 0 <= t.current < |t.bufs|
    ensures Outstanding(g, CopiedIn(t, m)) == Outstanding(g, t)
              + (if Used(g, t, t.current) == 0 && Record(g.delim, m) != "" then 1 else 0)
  {
    var c, p := t.current, |t.accepted|;
    var t' := CopiedIn(t, m);
    OnePlace(g, t, c);
    hide Flat;
    FlatStable(g.delim, t.accepted, m, t.bufs[c]);
    FlatPush(g.delim, t'.accepted, t.bufs[c], p);
    forall b | b in t.writeOut || b in t.inFlight
      ensures HasData(g, t', b) == HasData(g, t, b)
    {
      OnePlace(g, t, b);
      FlatStable(g.delim, t.accepted, m, t.bufs[b]);
    }
    CountFrame(g, t, t', t.writeOut);
    CountFrame(g, t, t', t.inFlight);
  }

  lemma RefIsSame(g: Options, t: Target)
    requires Inv(g, t)
    ensures var t' := t.(need := t.need + 1);
            Inv(g, t') && Outstanding(g, t') == Outstanding(g, t) && t'.current == t.current && t'.bufs == t.bufs
  {
    RefKeepsInv(g, t);
    NeedFrame(g, t, t.(need := t.need + 1));
  }

  lemma RecordIsEmptyIff(delim: string, m: Msg)
    ensures Record(delim, m) == "" <==> m.header == "" && m.text == "" && m.footer == ""
  {
  }

  /** A write asks for one reference exactly when the buffer it goes into is empty; when it
      overwrites, the reference of what was there stays. */
  lemma WriteRefs(g: Options, t: Target, m: Msg, room: bool)
    requires Inv(g, t) && 0 <= t.current < |t.bufs|
    ensures t.avail != [] ==> 0 <= t.avail[0] < |t.bufs|
    ensures var t' := Written(g, t, m, room);
            t'.need - Outstanding(g, t')
            == t.need - Outstanding(g, t) + (if LeavesRef(g, t, Write(m, room)) then 1 else 0)
  {
    hide Inv;
    hide Outstanding;
    hide Used;
    hide Record;
    hide CopiedIn;
    CurrentIsBuffer(g, t);
    RotatedKeepsInv(g, t);
    RotateMoves(g, t);
    RecordIsEmptyIff(g.delim, m);
    CopyRefs(g, t, m);
    CopyRefs(g, Rotated(g, t).0, m);
  }

  lemma CopyRefs(g: Options, t: Target, m: Msg)
    requires Inv(g, t) && 0 <= t.current < |t.bufs|
    ensures var more := if Used(g, t, t.current) == 0 && Record(g.delim, m) != "" then 1 else 0;
            var t1, t2 := CopiedIn(t, m), CopiedIn(t.(need := t.need + 1), m);
            && Outstanding(g, t1) == Outstanding(g, t2) == Outstanding(g, t) + more
            && t1.need == t.need && t2.need == t.need + 1
  {
    RefIsSame(g, t);
    CopyFills(g, t, m);
    CopyFills(g, t.(need := t.need + 1), m);
    hide Inv;
    hide Outstanding;
    hide Record;
    hide Flat;
  }

  lemma FlushMovesOne(g: Options, t: Target)
    requires Inv(g, t) && t.writeOut != [] && 0 <= t.writeOut[0] < |t.bufs|
    ensures Outstanding(g, FlushedNext(t)) == Outstanding(g, t)
  {
    hide Inv;
    hide Flat;
    var t', b := FlushedNext(t), t.writeOut[0];
    CountFrame(g, t, t', t'.writeOut);
    CountFrame(g, t, t', t'.inFlight);
    CountPush(g, t, t.inFlight, b);
    assert Count(g, t, t.writeOut) == HasData(g, t, b) + Count(g, t, t'.writeOut);
  }

  /** A buffer b that is neither filled nor waits is emptied or not, and leaves those in flight. */
  lemma EmptyingOthers(g: Options, t: Target, t': Target, b: int)
    requires Inv(g, t) && 0 <= b < |t.bufs| && b != t.current && b !in t.writeOut && b !in t'.inFlight
    requires t'.current == t.current && t'.writeOut == t.writeOut && t'.accepted == t.accepted
    requires t'.bufs == t.bufs || t'.bufs == t.bufs[b := []]
    ensures Outstanding(g, t') == HasData(g, t, t.current) + Count(g, t, t.writeOut) + Count(g, t, t'.inFlight)
  {
    hide Flat;
    CountFrame(g, t, t', t.writeOut);
    CountFrame(g, t, t', t'.inFlight);
  }

  lemma ReturnRefs(g: Options, t: Target, b: int, wanted: bool)
    requires Inv(g, t) && b in t.inFlight && 0 <= b < |t.bufs|
    ensures var t' := Returned(g, t, b, wanted);
            t'.need - Outstanding(g, t') == t.need - Outstanding(g, t)
  {
    ReturnKeepsPlaces(g, t, b, wanted);
    OnePlace(g, t, b);
    GoneFrom(t.inFlight, b);
    CountWithout(g, t, t.inFlight, b);
    EmptyingOthers(g, t, Returned(g, t, b, wanted), b);
    hide Inv;
    hide Flat;
    hide Count;
    hide Partitioned;
  }

  lemma FinalizeRefs(g: Options, t: Target, b: int)
    requires Inv(g, t) && b in t.awaiting && 0 <= b < |t.bufs|
    ensures var t' := Finalized(t, b);
            t'.need == t.need && Outstanding(g, t') == Outstanding(g, t)
  {
    FinalizeKeepsPlaces(g, t, b);
    OnePlace(g, t, b);
    EmptyingOthers(g, t, Finalized(t, b), b);
    hide Inv;
    hide Flat;
    hide Count;
    hide Partitioned;
  }

  /** No step gives back a reference too many, and which leave one behind. */
  lemma NextRefs(g: Options, t: Target, e: Event)
    requires Inv(g, t) && Enabled(t, e) && 0 <= t.current < |t.bufs|
    ensures var t' := Next(g, t, e);
            t'.need - Outstanding(g, t') == t.need - Outstanding(g, t) + (if LeavesRef(g, t, e) then 1 else 0)
  {
    hide Inv;
    hide Outstanding;
    CurrentIsBuffer(g, Next(g, t, e));
    match e
    case Write(m, room) => WriteRefs(g, t, m, room);
    case Rotate => RotateMoves(g, t);
    case FlushOne => FlushedKeepsInv(g, t); FlushMovesOne(g, t);
    case Return(b, wanted) => ReturnedKeepsInv(g, t, b, wanted); ReturnRefs(g, t, b, wanted);
    case Finalize(b) => FinalizedKeepsInv(g, t, b); FinalizeRefs(g, t, b);
  }

  // ---------- Runs ----------

  /** How many steps of the run leave a reference behind. */
  ghost function RefsLeft(g: Options, t: Target, run: seq<Event>): nat
    requires Inv(g, t) && ValidRun(g, t, run)
    decreases run
  {
    if run == [] then 0
    else
      CurrentIsBuffer(g, t);
      (if LeavesRef(g, t, run[0]) then 1 else 0) + RefsLeft(g, Next(g, t, run[0]), run[1..])
  }

  lemma {:induction false} RunRefs(g: Options, t: Target, run: seq<Event>)
    requires Inv(g, t) && ValidRun(g, t, run)
    ensures var t' := AfterRun(g, t, run);
            t'.need - Outstanding(g, t') == t.need - Outstanding(g, t) + RefsLeft(g, t, run)
    decreases run
  {
    hide Inv;
    hide Outstanding;
    hide LeavesRef;
    if run != [] {
      CurrentIsBuffer(g, t);
      NextRefs(g, t, run[0]);
      RunRefs(g, Next(g, t, run[0]), run[1..]);
    }
  }

  /** Over any run from the start: the count is the number of buffers with data that have
      yet to come back, and one more for each step that left a reference behind. So once all
      of them are back, the grease thread can be let go exactly if there was no such step. */
  lemma ReleasedIff(g: Options, run: seq<Event>)
    requires g.banks > 0 && Inv(g, Initial(g)) && ValidRun(g, Initial(g), run)
    ensures var t := AfterRun(g, Initial(g), run);
            && t.need == Outstanding(g, t) + RefsLeft(g, Initial(g), run)
            && (Outstanding(g, t) == 0 ==> (t.need == 0 <==> RefsLeft(g, Initial(g), run) == 0))
  {
    EmptyHasNoData(g, Initial(g), 0);
    RunRefs(g, Initial(g), run);
  }

  const ONE_BANK: Options := Options(1, 100, 4, ".")
  const MESSAGE: Msg := Msg("", "abc", "")

  lemma FirstWrite()
    ensures Initial(ONE_BANK).bufs == [[]] && Initial(ONE_BANK).avail == [] && Initial(ONE_BANK).current == 0
    ensures Written(ONE_BANK, Initial(ONE_BANK), MESSAGE, true)
            == Target([MESSAGE], [], [[0]], 0, [], [], [], [], 1)
  {
    var t := Initial(ONE_BANK);
    assert ONE_BANK.banks == 1;
    assert |t.avail| == 0 && t.bufs == [t.bufs[0]] && t.bufs[0] + [0] == [0];
  }

  lemma ThenNoBuffer(t: Target)
    requires t == Target([MESSAGE], [], [[0]], 0, [], [], [], [], 1)
    ensures Overwrites(ONE_BANK, t, Rotate) && Rotated(ONE_BANK, t).0 == t.(bufs := [[]])
  {
    assert Flat(ONE_BANK.delim, t.accepted, [0]) == "" + Record(ONE_BANK.delim, MESSAGE);
    assert t.bufs[0 := []] == [[]];
  }

  lemma TwoSteps(g: Options, t: Target, e: Event, f: Event)
    requires Inv(g, t) && Enabled(t, e) && Enabled(Next(g, t, e), f)
    ensures ValidRun(g, t, [e, f]) && AfterRun(g, t, [e, f]) == Next(g, Next(g, t, e), f)
  {
    hide Inv;
    hide Next;
    hide Enabled;
    var run := [e, f];
    assert run[1..] == [f] && run[1..][1..] == [];
    var t2 := Next(g, Next(g, t, e), f);
    assert ValidRun(g, t2, []) && AfterRun(g, t2, []) == t2;
    assert ValidRun(g, Next(g, t, e), [f]) && AfterRun(g, Next(g, t, e), [f]) == t2;
  }

  /** An instance: one buffer, one message, a rotation that finds no other buffer; nothing
      is left to be written, and the thread stays. */
  lemma OneStays()
    ensures var g, run := ONE_BANK, [Write(MESSAGE, true), Rotate];
            && Inv(g, Initial(g)) && ValidRun(g, Initial(g), run)
            && var t := AfterRun(g, Initial(g), run);
               t.bufs == [[]] && t.writeOut == [] && t.inFlight == [] && t.awaiting == [] && t.need == 1
  {
    hide Inv;
    hide Written;
    hide Rotated;
    hide Initial;
    hide ValidRun;
    hide AfterRun;
    InitialInv(ONE_BANK);
    FirstWrite();
    ThenNoBuffer(Written(ONE_BANK, Initial(ONE_BANK), MESSAGE, true));
    TwoSteps(ONE_BANK, Initial(ONE_BANK), Write(MESSAGE, true), Rotate);
  }
}
