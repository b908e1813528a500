/** What becomes of a message: when a write takes it, when messages that wait are lost,
    and that nothing is lost while there are free buffers. */
module LogDelivery {
  import opened Lists
  import opened LogTargets

  /** Not too large a message for a buffer, and it fits with header, footer and delimiter
      into the current one, or a rotation finds a free buffer and room for its request. */
  ghost predicate Accepts(g: Options, t: Target, m: Msg, room: bool)
    requires 0 <= t.current < |t.bufs|
  {
    && |m.text| + g.maxPrefix <= g.bankSize
    && (Fits(g, t, m) || (Used(g, t, t.current) > 0 && t.avail != [] && room))
  }

  ghost predicate Fits(g: Options, t: Target, m: Msg)
    requires 0 <= t.current < |t.bufs|
  {
    var n := |m.header| + |m.text| + |m.footer|;
    n == 0 || Used(g, t, t.current) + |g.delim| + n <= g.bankSize
  }

  /** A rotation that finds data and no free buffer. */
  ghost predicate OutOfBuffers(g: Options, t: Target)
    requires 0 <= t.current < |t.bufs|
  {
    Used(g, t, t.current) > 0 && t.avail == []
  }

  ghost predicate Overwrites(g: Options, t: Target, e: Event)
    requires 0 <= t.current < |t.bufs|
  {
    match e
    case Rotate => OutOfBuffers(g, t)
    case Write(m, _) => |m.text| + g.maxPrefix <= g.bankSize && !Fits(g, t, m) && OutOfBuffers(g, t)
    case _ => false
  }

  /** What is flushed or waits to be, without the buffer that is being filled. */
  function Behind(t: Target): seq<int>
  {
    t.flushed + Pending(t.bufs, t.writeOut)
  }

  /** With a free buffer a rotation loses nothing; without, it loses what is in the current
      buffer. It swaps exactly if there are data and a free buffer. */
  lemma RotateLoses(g: Options, t: Target)
    requires Inv(g, t) && 0 <= t.current < |t.bufs|
    ensures var (t', rotated) := Rotated(g, t);
            && Inv(g, t') && 0 <= t'.current < |t'.bufs| && t'.accepted == t.accepted
            && InOrder(t') == (if OutOfBuffers(g, t) then Behind(t) else InOrder(t))
            && (rotated <==> Used(g, t, t.current) > 0 && t.avail != [])
            && (rotated ==> t'.bufs[t'.current] == [] && t'.writeOut == t.writeOut + [t.current])
  {
    RotatedKeepsInv(g, t);
    CurrentIsBuffer(g, t);
    if OutOfBuffers(g, t) {
      OnePlace(g, t, t.current);
      PendingFrame(t.bufs, t.writeOut, t.current, []);
      assert t.flushed + Pending(t.bufs, t.writeOut) + [] == Behind(t);
    } else if t.avail != [] {
      SwapKeepsInv(g, t);
      SwapKeepsOrder(t);
    }
    hide Inv;
    hide Flat;
    hide Pending;
  }

  lemma CopyAppends(g: Options, t: Target, m: Msg)
    requires Inv(g, t) && 0 <= t.current < |t.bufs|
    ensures InOrder(CopiedIn(t, m)) == InOrder(t) + [|t.accepted|]
  {
    OnePlace(g, t, t.current);
    PendingFrame(t.bufs, t.writeOut, t.current, t.bufs[t.current] + [|t.accepted|]);
    hide Pending;
    var behind, cur := t.flushed + Pending(t.bufs, t.writeOut), t.bufs[t.current];
    assert behind + (cur + [|t.accepted|]) == behind + cur + [|t.accepted|];
  }

  /** A write takes its message exactly if it fits or there is another buffer for it, and
      puts it behind all others. It loses others only if it finds no free buffer. */
  lemma WriteDelivers(g: Options, t: Target, m: Msg, room: bool)
    requires Inv(g, t) && 0 <= t.current < |t.bufs|
    ensures t.avail != [] ==> 0 <= t.avail[0] < |t.bufs|
    ensures var t' := Written(g, t, m, room);
            && Inv(g, t') && 0 <= t'.current < |t'.bufs|
            && t'.accepted == (if Accepts(g, t, m, room) then t.accepted + [m] else t.accepted)
            && InOrder(t') == (if Overwrites(g, t, Write(m, room)) then Behind(t) else InOrder(t))
                              + (if Accepts(g, t, m, room) then [|t.accepted|] else [])
  {
    hide Inv;
    hide InOrder;
    hide Behind;
    hide Used;
    hide Rotated;
    WrittenKeepsInv(g, t, m, room);
    CurrentIsBuffer(g, Written(g, t, m, room));
    var (t', rotated) := Rotated(g, t);
    RotateLoses(g, t);
    CopyOfRef(g, t, m);
    CopyOfRef(g, t', m);
  }

  lemma CopyOfRef(g: Options, t: Target, m: Msg)
    requires Inv(g, t) && 0 <= t.current < |t.bufs|
    ensures InOrder(CopiedIn(t, m)) == InOrder(t) + [|t.accepted|]
    ensures InOrder(CopiedIn(t.(need := t.need + 1), m)) == InOrder(t) + [|t.accepted|]
    ensures InOrder(t) + [] == InOrder(t)
  {
    CopyAppends(g, t, m);
    RefKeepsInv(g, t);
    CopyAppends(g, t.(need := t.need + 1), m);
  }

  lemma NextDelivers(g: Options, t: Target, e: Event)
    requires Inv(g, t) && Enabled(t, e) && 0 <= t.current < |t.bufs|
    ensures var t' := Next(g, t, e); var taken := e.Write? && Accepts(g, t, e.m, e.room);
            && 0 <= t'.current < |t'.bufs|
            && t'.accepted == (if taken then t.accepted + [e.m] else t.accepted)
            && InOrder(t') == (if Overwrites(g, t, e) then Behind(t) else InOrder(t))
                              + (if taken then [|t.accepted|] else [])
  {
    hide Inv;
    hide Behind;
    CurrentIsBuffer(g, Next(g, t, e));
    assert InOrder(t) + [] == InOrder(t) && Behind(t) + [] == Behind(t);
    match e
    case Write(m, room) => WriteDelivers(g, t, m, room);
    case Rotate => RotateLoses(g, t);
    case FlushOne => FlushedKeepsInv(g, t);
    case Return(b, wanted) => ReturnMovesNothing(g, t, b, wanted);
    case Finalize(b) => FinalizeMovesNothing(g, t, b);
  }

  lemma GoneFrom(list: seq<int>, b: int)
    requires b in list && multiset(list)[b] <= 1
    ensures b !in Without(list, b)
  {
    WithoutCounts(list, b);
    assert multiset(Without(list, b))[b] == multiset(list)[b] - 1;
  }

  /** A written buffer that has data and is wanted waits, as it is, for its callback; any
      other is emptied and free at once, and so is one whose callback has ended. */
  lemma WhereBuffersGo(g: Options, t: Target, b: int, wanted: bool)
    requires Inv(g, t) && 0 <= b < |t.bufs|
    ensures b in t.inFlight ==>
              var t', waits := Returned(g, t, b, wanted), Used(g, t, b) > 0 && wanted;
              && b !in t'.inFlight && (b in t'.awaiting <==> waits) && (b in t'.avail <==> !waits)
              && t'.bufs == t.bufs[b := if waits then t.bufs[b] else []]
    ensures b in t.awaiting ==>
              var t' := Finalized(t, b); b !in t'.awaiting && b in t'.avail && t'.bufs == t.bufs[b := []]
  {
    OnePlace(g, t, b);
    if b in t.inFlight {
      GoneFrom(t.inFlight, b);
    }
    if b in t.awaiting {
      GoneFrom(t.awaiting, b);
    }
    hide Flat;
  }

  lemma ReturnMovesNothing(g: Options, t: Target, b: int, wanted: bool)
    requires Inv(g, t) && b in t.inFlight && 0 <= t.current < |t.bufs|
    ensures 0 <= b < |t.bufs| && InOrder(Returned(g, t, b, wanted)) == InOrder(t)
  {
    ReturnKeepsPlaces(g, t, b, wanted);
    PendingFrame(t.bufs, t.writeOut, b, []);
    hide Pending;
    hide Flat;
  }

  lemma FinalizeMovesNothing(g: Options, t: Target, b: int)
    requires Inv(g, t) && b in t.awaiting && 0 <= t.current < |t.bufs|
    ensures 0 <= b < |t.bufs| && InOrder(Finalized(t, b)) == InOrder(t)
  {
    FinalizeKeepsPlaces(g, t, b);
    PendingFrame(t.bufs, t.writeOut, b, []);
    hide Pending;
    hide Flat;
  }

  // ---------- Runs ----------

  /** The messages that the writes of a run take, in order. */
  ghost function Taken(g: Options, t: Target, run: seq<Event>): seq<Msg>
    requires Inv(g, t) && ValidRun(g, t, run)
    decreases run
  {
    if run == [] then []
    else
      CurrentIsBuffer(g, t);
      var e := run[0];
      (if e.Write? && Accepts(g, t, e.m, e.room) then [e.m] else []) + Taken(g, Next(g, t, e), run[1..])
  }

  /** No rotation of the run is without a free buffer. */
  ghost predicate BuffersLast(g: Options, t: Target, run: seq<Event>)
    requires Inv(g, t) && ValidRun(g, t, run)
    decreases run
  {
    run == [] || (CurrentIsBuffer(g, t); !Overwrites(g, t, run[0]) && BuffersLast(g, Next(g, t, run[0]), run[1..]))
  }

  /** Every message so far is flushed or waits in a buffer, in order. */
  ghost predicate AllThere(t: Target)
    requires 0 <= t.current < |t.bufs|
  {
    InOrder(t) == seq(|t.accepted|, i => i)
  }

  lemma {:induction false} RunDelivers(g: Options, t: Target, run: seq<Event>)
    requires Inv(g, t) && ValidRun(g, t, run) && 0 <= t.current < |t.bufs|
    ensures var t' := AfterRun(g, t, run);
            && 0 <= t'.current < |t'.bufs| && t'.accepted == t.accepted + Taken(g, t, run)
            && (AllThere(t) && BuffersLast(g, t, run) ==> AllThere(t'))
    decreases run
  {
    hide Inv;
    hide InOrder;
    hide Accepts;
    hide Overwrites;
    hide AllThere;
    hide Behind;
    hide Next;
    hide Enabled;
    if run != [] {
      NextDelivers(g, t, run[0]);
      if AllThere(t) && !Overwrites(g, t, run[0]) {
        NextThere(g, t, run[0]);
      }
      RunDelivers(g, Next(g, t, run[0]), run[1..]);
    }
  }

  lemma NextThere(g: Options, t: Target, e: Event)
    requires Inv(g, t) && Enabled(t, e) && 0 <= t.current < |t.bufs| && AllThere(t) && !Overwrites(g, t, e)
    ensures 0 <= Next(g, t, e).current < |Next(g, t, e).bufs| && AllThere(Next(g, t, e))
  {
    hide Inv;
    hide Next;
    hide Enabled;
    hide InOrder;
    hide Accepts;
    hide AllThere;
    NextDelivers(g, t, e);
    OneMoreThere(t, Next(g, t, e), if e.Write? && Accepts(g, t, e.m, e.room) then [|t.accepted|] else []);
  }

  lemma OneMoreThere(t: Target, t': Target, more: seq<int>)
    requires 0 <= t.current < |t.bufs| && 0 <= t'.current < |t'.bufs| && AllThere(t)
    requires InOrder(t') == InOrder(t) + more && |t'.accepted| == |t.accepted| + |more|
    requires more == [] || more == [|t.accepted|]
    ensures AllThere(t')
  {
    hide InOrder;
  }

  /** From the start: the accepted messages are those that the writes took, and as long as
      no rotation is without a free buffer, each of them is flushed or waits, in order. */
  lemma NothingIsLost(g: Options, run: seq<Event>)
    requires g.banks > 0 && Inv(g, Initial(g)) && ValidRun(g, Initial(g), run)
    ensures var t := AfterRun(g, Initial(g), run);
            && 0 <= t.current < |t.bufs| && t.accepted == Taken(g, Initial(g), run)
            && (BuffersLast(g, Initial(g), run) ==> InOrder(t) == seq(|t.accepted|, i => i))
  {
    hide Inv;
    hide Initial;
    hide ValidRun;
    hide AfterRun;
    hide Taken;
    hide BuffersLast;
    hide InOrder;
    StartsThere(g);
    RunDelivers(g, Initial(g), run);
    assert [] + Taken(g, Initial(g), run) == Taken(g, Initial(g), run);
  }

  lemma StartsThere(g: Options)
    requires g.banks > 0
    ensures 0 <= Initial(g).current < |Initial(g).bufs| && Initial(g).accepted == [] && AllThere(Initial(g))
  {
    assert Pending(Initial(g).bufs, []) == [];
  }
}
