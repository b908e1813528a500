/** The buffers of one log target: one being filled, others free, waiting to be written
    out, being written, or waiting for a callback. Messages go into a buffer whole, with
    header, footer and delimiter; full buffers rotate out. */
module LogTargets {
  import opened Lists

  /** The lengths of header and footer are inputs: their texts come with the message. */
  datatype Msg = Msg(header: string, text: string, footer: string)

  datatype Options = Options(banks: nat, bankSize: nat, maxPrefix: nat, delim: string)

  /** Messages are known by their place among the accepted ones. A buffer is the list of
      the messages in it. need is this target's part of needGreaseThread. */
  datatype Target = Target(
    accepted: seq<Msg>, flushed: seq<int>, bufs: seq<seq<int>>,
    current: int, avail: seq<int>, writeOut: seq<int>, inFlight: seq<int>, awaiting: seq<int>, need: int)

  // ---------- Bytes ----------

  /** What the three copies of write leave in a buffer: the delimiter follows the footer,
      or a text without footer. */
  function Record(delim: string, m: Msg): string
  {
    m.header
    + (if |m.footer| > 0 then m.text + m.footer + delim
       else if |m.text| > 0 then m.text + delim
       else "")
  }

  function Flat(delim: string, accepted: seq<Msg>, buf: seq<int>): string
  {
    if buf == [] then "" else
    var n := |buf| - 1;
    Flat(delim, accepted, buf[..n]) + if 0 <= buf[n] < |accepted| then Record(delim, accepted[buf[n]]) else ""
  }

  lemma {:induction false} FlatStable(delim: string, accepted: seq<Msg>, m: Msg, buf: seq<int>)
    requires forall i | 0 <= i < |buf| :: 0 <= buf[i] < |accepted|
    ensures Flat(delim, accepted + [m], buf) == Flat(delim, accepted, buf)
  {
    if buf != [] {
      FlatStable(delim, accepted, m, buf[..|buf| - 1]);
    }
  }

  lemma FlatPush(delim: string, accepted: seq<Msg>, buf: seq<int>, p: int)
    requires 0 <= p < |accepted|
    ensures Flat(delim, accepted, buf + [p]) == Flat(delim, accepted, buf) + Record(delim, accepted[p])
  {
    assert (buf + [p])[..|buf|] == buf;
  }

  function Bytes(g: Options, t: Target, b: int): string
    requires 0 <= b < |t.bufs|
  {
    Flat(g.delim, t.accepted, t.bufs[b])
  }

  /** handle.len. */
  function Used(g: Options, t: Target, b: int): nat
    requires 0 <= b < |t.bufs|
  {
    |Bytes(g, t, b)|
  }

  function Remain(g: Options, used: nat): nat
  {
    var r := g.bankSize - used - |g.delim|;
    if r < 0 then 0 else r
  }

  // ---------- What each call does ----------

  function Clear(t: Target, b: int): Target
    requires 0 <= b < |t.bufs|
  {
    t.(bufs := t.bufs[b := []])
  }

  /** rotate; the flag is its result. */
  function Rotated(g: Options, t: Target): (Target, bool)
    requires 0 <= t.current < |t.bufs|
  {
    if Used(g, t, t.current) == 0 then (t, false)
    else if t.avail == [] then (Clear(t, t.current), false)
    else (t.(current := t.avail[0], avail := t.avail[1..], writeOut := t.writeOut + [t.current]), true)
  }

  function CopiedIn(t: Target, m: Msg): Target
    requires 0 <= t.current < |t.bufs|
  {
    t.(accepted := t.accepted + [m], bufs := t.bufs[t.current := t.bufs[t.current] + [|t.accepted|]])
  }

  predicate TooBig(g: Options, m: Msg)
  {
    g.bankSize < |m.text| + g.maxPrefix
  }

  predicate FitsIn(g: Options, used: nat, m: Msg)
  {
    Remain(g, used) >= |m.text| + |m.header| + |m.footer|
  }

  /** write; room says whether the command queue takes the request to write out. */
  function Written(g: Options, t: Target, m: Msg, room: bool): Target
    requires 0 <= t.current < |t.bufs| && (t.avail != [] ==> 0 <= t.avail[0] < |t.bufs|)
  {
    if TooBig(g, m) then t
    else if FitsIn(g, Used(g, t, t.current), m) then
      CopiedIn(if Used(g, t, t.current) == 0 then t.(need := t.need + 1) else t, m)
    else AfterRotate(g, t, m, room)
  }

  /** The next buffer that flushAll hands to flush. */
  function FlushedNext(t: Target): Target
    requires t.writeOut != [] && 0 <= t.writeOut[0] < |t.bufs|
  {
    var b := t.writeOut[0];
    t.(writeOut := t.writeOut[1..], inFlight := t.inFlight + [b], flushed := t.flushed + t.bufs[b])
  }

  /** returnBuffer on a buffer that has been written; wanted says whether there is a
      callback to call and room in its queue. */
  function Returned(g: Options, t: Target, b: int, wanted: bool): Target
    requires 0 <= b < |t.bufs|
  {
    var t' := t.(inFlight := Without(t.inFlight, b));
    if Used(g, t, b) == 0 then Clear(t', b).(avail := t.avail + [b])
    else if wanted then t'.(awaiting := t.awaiting + [b], need := t.need - 1)
    else Clear(t', b).(avail := t.avail + [b], need := t.need - 1)
  }

  function Finalized(t: Target, b: int): Target
    requires 0 <= b < |t.bufs|
  {
    Clear(t, b).(awaiting := Without(t.awaiting, b), avail := t.avail + [b])
  }

  // ---------- What every call keeps ----------

  /** Where the buffers are. */
  function Places(t: Target): multiset<int>
  {
    multiset{t.current} + multiset(t.avail) + multiset(t.writeOut) + multiset(t.inFlight) + multiset(t.awaiting)
  }

  /** Each buffer is in exactly one place. */
  ghost predicate Partitioned(g: Options, t: Target)
  {
    && |t.bufs| == g.banks == |Places(t)|
    && forall b {:trigger Places(t)[b]} :: Places(t)[b] == if 0 <= b < g.banks then 1 else 0
  }

  ghost predicate Ascending(s: seq<int>)
  {
    forall i, j | 0 <= i < j < |s| :: s[i] < s[j]
  }

  function Pending(bufs: seq<seq<int>>, list: seq<int>): seq<int>
  {
    if list == [] then [] else
    var n := |list| - 1;
    Pending(bufs, list[..n]) + if 0 <= list[n] < |bufs| then bufs[list[n]] else []
  }

  /** All that has been flushed or waits for it, oldest first. */
  function InOrder(t: Target): seq<int>
    requires 0 <= t.current < |t.bufs|
  {
    t.flushed + Pending(t.bufs, t.writeOut) + t.bufs[t.current]
  }

  function Count(g: Options, t: Target, list: seq<int>): nat
  {
    if list == [] then 0 else
    HasData(g, t, list[0]) + Count(g, t, list[1..])
  }

  /** Free buffers are empty; the others hold accepted messages. */
  ghost predicate BufsOk(t: Target)
  {
    forall b {:trigger t.bufs[b]} | 0 <= b < |t.bufs| ::
      (b in t.avail ==> t.bufs[b] == []) && forall i | 0 <= i < |t.bufs[b]| :: 0 <= t.bufs[b][i] < |t.accepted|
  }

  /** In the order of acceptance, none twice. */
  ghost predicate OrderOk(accepted: seq<Msg>, s: seq<int>)
  {
    Ascending(s) && forall i | 0 <= i < |s| :: 0 <= s[i] < |accepted|
  }

  /** The grease thread is asked for at least once for each buffer with data. */
  ghost predicate NeedOk(g: Options, t: Target)
  {
    t.need >= HasData(g, t, t.current) + Count(g, t, t.writeOut) + Count(g, t, t.inFlight)
  }

  ghost predicate Inv(g: Options, t: Target)
  {
    && Partitioned(g, t) && BufsOk(t) && 0 <= t.current < |t.bufs|
    && OrderOk(t.accepted, InOrder(t)) && NeedOk(g, t)
  }

  /** What the partition means for a buffer and for the lists. */
  lemma OnePlace(g: Options, t: Target, b: int)
    requires Partitioned(g, t)
    ensures (b == t.current || b in t.avail || b in t.writeOut || b in t.inFlight || b in t.awaiting)
            <==> 0 <= b < g.banks
    ensures (if b == t.current then 1 else 0) + multiset(t.avail)[b] + multiset(t.writeOut)[b] + multiset(t.inFlight)[b]
            + multiset(t.awaiting)[b] <= 1
    ensures 1 + |t.avail| + |t.writeOut| + |t.inFlight| + |t.awaiting| == g.banks
  {
    assert Places(t)[b] == (if b == t.current then 1 else 0) + multiset(t.avail)[b] + multiset(t.writeOut)[b]
                           + multiset(t.inFlight)[b] + multiset(t.awaiting)[b];
  }

  lemma Popped(list: seq<int>)
    requires list != []
    ensures multiset(list) == multiset{list[0]} + multiset(list[1..])
    ensures list[0] in list && forall b | b in list[1..] :: b in list
  {
    assert list == [list[0]] + list[1..];
  }

  lemma PushedOn(list: seq<int>, b: int)
    ensures multiset(list + [b]) == multiset(list) + multiset{b}
  {
  }

  lemma SamePlaces(g: Options, t: Target, t': Target)
    requires Partitioned(g, t) && Places(t') == Places(t) && |t'.bufs| == |t.bufs|
    ensures Partitioned(g, t')
  {
  }

  lemma {:induction false} WithoutCounts(list: seq<int>, b: int)
    requires b in list
    ensures multiset(Without(list, b)) + multiset{b} == multiset(list)
  {
    assert list == [list[0]] + list[1..];
    if list[0] != b {
      WithoutCounts(list[1..], b);
    }
  }

  lemma {:induction false} PendingFrame(bufs: seq<seq<int>>, list: seq<int>, b: int, buf: seq<int>)
    requires 0 <= b < |bufs| && b !in list
    ensures Pending(bufs[b := buf], list) == Pending(bufs, list)
  {
    if list != [] {
      PendingFrame(bufs, list[..|list| - 1], b, buf);
    }
  }

  lemma PendingPush(bufs: seq<seq<int>>, list: seq<int>, b: int)
    requires 0 <= b < |bufs|
    ensures Pending(bufs, list + [b]) == Pending(bufs, list) + bufs[b]
  {
    assert (list + [b])[..|list|] == list;
  }

  lemma {:induction false} PendingPop(bufs: seq<seq<int>>, list: seq<int>)
    requires list != [] && 0 <= list[0] < |bufs|
    ensures Pending(bufs, list) == bufs[list[0]] + Pending(bufs, list[1..])
    decreases |list|
  {
    var n := |list| - 1;
    if n > 0 {
      PendingPop(bufs, list[..n]);
      assert list[..n][1..] == list[1..][..n - 1];
    } else {
      assert list[..0] == [] && list[1..] == [];
    }
  }

  /** 1 for a buffer with data. */
  function HasData(g: Options, t: Target, b: int): nat
  {
    if 0 <= b < |t.bufs| && Used(g, t, b) > 0 then 1 else 0
  }

  lemma {:induction false} CountPush(g: Options, t: Target, list: seq<int>, b: int)
    ensures Count(g, t, list + [b]) == Count(g, t, list) + HasData(g, t, b)
  {
    if list != [] {
      assert (list + [b])[1..] == list[1..] + [b];
      CountPush(g, t, list[1..], b);
    } else {
      assert (list + [b])[1..] == [];
    }
  }

  lemma {:induction false} CountWithout(g: Options, t: Target, list: seq<int>, b: int)
    requires b in list
    ensures Count(g, t, Without(list, b)) + HasData(g, t, b) == Count(g, t, list)
  {
    if list[0] != b {
      assert list == [list[0]] + list[1..];
      CountWithout(g, t, list[1..], b);
      assert ([list[0]] + Without(list[1..], b))[1..] == Without(list[1..], b);
    }
  }

  lemma {:induction false} CountFrame(g: Options, t: Target, t': Target, list: seq<int>)
    requires forall b | b in list :: HasData(g, t', b) == HasData(g, t, b)
    ensures Count(g, t', list) == Count(g, t, list)
  {
    if list != [] {
      assert list[0] in list;
      assert forall b | b in list[1..] :: b in list;
      CountFrame(g, t, t', list[1..]);
    }
  }

  lemma OrderPrefix(accepted: seq<Msg>, a: seq<int>, b: seq<int>)
    requires OrderOk(accepted, a + b)
    ensures OrderOk(accepted, a)
  {
    assert a == (a + b)[..|a|];
  }

  lemma OrderPush(accepted: seq<Msg>, m: Msg, s: seq<int>)
    requires OrderOk(accepted, s)
    ensures OrderOk(accepted + [m], s + [|accepted|])
  {
  }

  /** rotate never finds the list of buffers to be written full: its room is one less
      than there are buffers, and one more is left over when rotate gets that far. */
  lemma RotateHasRoom(g: Options, t: Target)
    requires Inv(g, t) && t.avail != []
    ensures |t.writeOut| < g.banks - 1
  {
    OnePlace(g, t, 0);
  }

  lemma RotatedKeepsInv(g: Options, t: Target)
    requires Inv(g, t)
    ensures Inv(g, Rotated(g, t).0)
    ensures 0 <= Rotated(g, t).0.current < |Rotated(g, t).0.bufs|
    ensures Rotated(g, t).1 ==> Used(g, Rotated(g, t).0, Rotated(g, t).0.current) == 0
    ensures Rotated(g, t).0.flushed == t.flushed && Rotated(g, t).0.accepted == t.accepted
  {
    if Used(g, t, t.current) == 0 {
    } else if t.avail == [] {
      ClearCurrentKeepsInv(g, t);
    } else {
      SwapKeepsInv(g, t);
    }
  }

  lemma EmptyHasNoData(g: Options, t: Target, b: int)
    requires 0 <= b < |t.bufs| && t.bufs[b] == []
    ensures HasData(g, t, b) == 0
  {
  }

  lemma ClearKeepsNeed(g: Options, t: Target, c: int)
    requires NeedOk(g, t) && 0 <= c < |t.bufs| && c == t.current && c !in t.writeOut && c !in t.inFlight
    ensures NeedOk(g, Clear(t, c))
  {
    var t' := Clear(t, c);
    EmptyHasNoData(g, t', c);
    CountFrame(g, t, t', t.writeOut);
    CountFrame(g, t, t', t.inFlight);
  }

  lemma ClearKeepsOrder(t: Target, c: int)
    requires 0 <= c < |t.bufs| && c == t.current && c !in t.writeOut && OrderOk(t.accepted, InOrder(t))
    ensures OrderOk(t.accepted, InOrder(Clear(t, c)))
  {
    PendingFrame(t.bufs, t.writeOut, c, []);
    OrderPrefix(t.accepted, t.flushed + Pending(t.bufs, t.writeOut), t.bufs[c]);
    assert InOrder(Clear(t, c)) == t.flushed + Pending(t.bufs, t.writeOut);
  }

  /** Clearing loses what was in the buffer, and its reference stays counted. */
  lemma ClearCurrentKeepsInv(g: Options, t: Target)
    requires Inv(g, t)
    ensures Inv(g, Clear(t, t.current))
  {
    OnePlace(g, t, t.current);
    SamePlaces(g, t, Clear(t, t.current));
    hide Partitioned;
    ClearKeepsOrder(t, t.current);
    ClearKeepsNeed(g, t, t.current);
    hide NeedOk;
    hide OrderOk;
    hide InOrder;
  }

  function Swapped(t: Target): Target
    requires t.avail != []
  {
    t.(current := t.avail[0], avail := t.avail[1..], writeOut := t.writeOut + [t.current])
  }

  lemma SwapKeepsPlaces(g: Options, t: Target)
    requires Partitioned(g, t) && t.avail != []
    ensures Partitioned(g, Swapped(t)) && 0 <= t.avail[0] < |t.bufs|
    ensures forall b | b in t.avail[1..] :: b in t.avail
    ensures t.avail[0] in t.avail
  {
    Popped(t.avail);
    PushedOn(t.writeOut, t.current);
    OnePlace(g, t, t.avail[0]);
    assert Places(Swapped(t)) == Places(t);
  }

  lemma SwapKeepsNeed(g: Options, t: Target)
    requires NeedOk(g, t) && t.avail != [] && 0 <= t.avail[0] < |t.bufs| && t.bufs[t.avail[0]] == []
    ensures NeedOk(g, Swapped(t))
  {
    var t' := Swapped(t);
    CountFrame(g, t, t', t'.writeOut);
    CountPush(g, t, t.writeOut, t.current);
    CountFrame(g, t, t', t.inFlight);
    EmptyHasNoData(g, t', t'.current);
  }

  lemma SwapKeepsOrder(t: Target)
    requires t.avail != [] && 0 <= t.avail[0] < |t.bufs| && t.bufs[t.avail[0]] == [] && 0 <= t.current < |t.bufs|
    ensures InOrder(Swapped(t)) == InOrder(t)
  {
    PendingPush(t.bufs, t.writeOut, t.current);
    hide Pending;
    var cur, rest := t.bufs[t.current], Pending(t.bufs, t.writeOut);
    assert t.flushed + (rest + cur) + [] == t.flushed + rest + cur;
  }

  lemma SwapKeepsInv(g: Options, t: Target)
    requires Inv(g, t) && t.avail != []
    ensures 0 <= t.avail[0] < |t.bufs| && t.bufs[t.avail[0]] == [] && Inv(g, Swapped(t))
  {
    hide Partitioned;
    hide NeedOk;
    hide InOrder;
    hide OrderOk;
    SwapKeepsPlaces(g, t);
    SwapKeepsNeed(g, t);
    SwapKeepsOrder(t);
  }

  lemma CopiedInKeepsInv(g: Options, t: Target, m: Msg)
    requires Inv(g, t) && (Used(g, t, t.current) == 0 ==> t.need > Count(g, t, t.writeOut) + Count(g, t, t.inFlight))
    ensures Inv(g, CopiedIn(t, m))
    ensures Bytes(g, CopiedIn(t, m), t.current) == Bytes(g, t, t.current) + Record(g.delim, m)
  {
    hide Flat;
    hide Count;
    hide Pending;
    hide Without;
    var c, p := t.current, |t.accepted|;
    var t' := CopiedIn(t, m);
    OnePlace(g, t, c);
    SamePlaces(g, t, t');
    OrderPush(t.accepted, m, InOrder(t));
    PendingFrame(t.bufs, t.writeOut, c, t.bufs[c] + [p]);
    assert InOrder(t') == InOrder(t) + [p];
    FlatStable(g.delim, t.accepted, m, t.bufs[c]);
    FlatPush(g.delim, t'.accepted, t.bufs[c], p);
    forall b | b in t.writeOut || b in t.inFlight
      ensures HasData(g, t', b) == HasData(g, t, b)
    {
      OnePlace(g, t, b);
      FlatStable(g.delim, t.accepted, m, t.bufs[b]);
    }
    CountFrame(g, t, t', t.writeOut);
    CountFrame(g, t, t', t.inFlight);
  }

  /** refGreaseInGrease. */
  lemma RefKeepsInv(g: Options, t: Target)
    requires Inv(g, t)
    ensures var t' := t.(need := t.need + 1);
            Inv(g, t') && t'.need > Count(g, t', t'.writeOut) + Count(g, t', t'.inFlight)
              && Used(g, t', t'.current) == Used(g, t, t.current)
  {
    NeedFrame(g, t, t.(need := t.need + 1));
  }

  lemma CurrentIsBuffer(g: Options, t: Target)
    requires Inv(g, t)
    ensures 0 <= t.current < |t.bufs| && (t.avail != [] ==> 0 <= t.avail[0] < |t.bufs|)
  {
    if t.avail != [] {
      SwapKeepsPlaces(g, t);
    }
  }

  lemma RefAndCopyKeepInv(g: Options, t: Target, m: Msg)
    requires Inv(g, t)
    ensures Inv(g, CopiedIn(t.(need := t.need + 1), m))
  {
    RefKeepsInv(g, t);
    CopiedInKeepsInv(g, t.(need := t.need + 1), m);
  }

  /** The second half of write. */
  function AfterRotate(g: Options, t: Target, m: Msg, room: bool): Target
    requires 0 <= t.current < |t.bufs| && (t.avail != [] ==> 0 <= t.avail[0] < |t.bufs|)
  {
    var (t', rotated) := Rotated(g, t);
    if rotated && room then CopiedIn(t'.(need := t'.need + 1), m) else t'
  }

  lemma AfterRotateKeepsInv(g: Options, t: Target, m: Msg, room: bool)
    requires Inv(g, t)
    ensures 0 <= t.current < |t.bufs| && (t.avail != [] ==> 0 <= t.avail[0] < |t.bufs|)
    ensures Inv(g, AfterRotate(g, t, m, room))
  {
    hide Inv;
    hide Rotated;
    hide CopiedIn;
    CurrentIsBuffer(g, t);
    RotatedKeepsInv(g, t);
    var (t', rotated) := Rotated(g, t);
    if rotated && room {
      RefAndCopyKeepInv(g, t', m);
    }
  }

  lemma WrittenKeepsInv(g: Options, t: Target, m: Msg, room: bool)
    requires Inv(g, t)
    ensures 0 <= t.current < |t.bufs| && (t.avail != [] ==> 0 <= t.avail[0] < |t.bufs|)
    ensures Inv(g, Written(g, t, m, room))
  {
    hide Inv;
    hide CopiedIn;
    hide AfterRotate;
    hide Used;
    CurrentIsBuffer(g, t);
    AfterRotateKeepsInv(g, t, m, room);
    RefAndCopyKeepInv(g, t, m);
    if Used(g, t, t.current) > 0 {
      CopyKeepsInv(g, t, m);
    }
  }

  lemma CopyKeepsInv(g: Options, t: Target, m: Msg)
    requires Inv(g, t) && 0 <= t.current < |t.bufs| && Used(g, t, t.current) > 0
    ensures Inv(g, CopiedIn(t, m))
  {
    CopiedInKeepsInv(g, t, m);
  }

  lemma NeedFrame(g: Options, t: Target, t': Target)
    requires t' == t.(need := t'.need)
    ensures Count(g, t', t.writeOut) == Count(g, t, t.writeOut) && Count(g, t', t.inFlight) == Count(g, t, t.inFlight)
    ensures Inv(g, t) && t'.need >= t.need ==> Inv(g, t')
  {
    hide Flat;
    hide Count;
    hide Pending;
    hide Without;
    CountFrame(g, t, t', t.writeOut);
    CountFrame(g, t, t', t.inFlight);
    assert Places(t') == Places(t);
  }

  lemma FlushKeepsPlaces(g: Options, t: Target)
    requires Partitioned(g, t) && t.writeOut != []
    ensures 0 <= t.writeOut[0] < |t.bufs| && Partitioned(g, FlushedNext(t))
  {
    Popped(t.writeOut);
    PushedOn(t.inFlight, t.writeOut[0]);
    OnePlace(g, t, t.writeOut[0]);
    assert Places(FlushedNext(t)) == Places(t);
  }

  lemma FlushKeepsNeed(g: Options, t: Target)
    requires NeedOk(g, t) && t.writeOut != [] && 0 <= t.writeOut[0] < |t.bufs|
    ensures NeedOk(g, FlushedNext(t))
  {
    var t' := FlushedNext(t);
    var b := t.writeOut[0];
    CountFrame(g, t, t', t'.writeOut);
    CountFrame(g, t, t', t'.inFlight);
    CountPush(g, t, t.inFlight, b);
    assert Count(g, t, t.writeOut) == HasData(g, t, b) + Count(g, t, t'.writeOut);
  }

  lemma FlushKeepsOrder(t: Target)
    requires t.writeOut != [] && 0 <= t.writeOut[0] < |t.bufs| && 0 <= t.current < |t.bufs|
    ensures InOrder(FlushedNext(t)) == InOrder(t)
  {
    PendingPop(t.bufs, t.writeOut);
    hide Pending;
    var cur, first, rest := t.bufs[t.current], t.bufs[t.writeOut[0]], Pending(t.bufs, t.writeOut[1..]);
    assert (t.flushed + first) + rest + cur == t.flushed + (first + rest) + cur;
  }

  lemma FlushedKeepsInv(g: Options, t: Target)
    requires Inv(g, t) && t.writeOut != []
    ensures 0 <= t.writeOut[0] < |t.bufs| && Inv(g, FlushedNext(t))
    ensures InOrder(FlushedNext(t)) == InOrder(t)
  {
    hide Partitioned;
    hide NeedOk;
    hide InOrder;
    hide OrderOk;
    FlushKeepsPlaces(g, t);
    FlushKeepsNeed(g, t);
    FlushKeepsOrder(t);
  }

  /** The assertion in unrefGreaseInGrease holds: a buffer with data is still counted. */
  lemma UnrefIsSafe(g: Options, t: Target, b: int)
    requires Inv(g, t) && b in t.inFlight && 0 <= b < |t.bufs| && Used(g, t, b) > 0
    ensures t.need > 0
  {
    CountWithout(g, t, t.inFlight, b);
  }

  lemma ReturnKeepsPlaces(g: Options, t: Target, b: int, wanted: bool)
    requires Partitioned(g, t) && b in t.inFlight
    ensures 0 <= b < |t.bufs| && Partitioned(g, Returned(g, t, b, wanted)) && |t.avail| < g.banks
    ensures b != t.current && b !in t.writeOut
  {
    hide Flat;
    OnePlace(g, t, b);
    WithoutCounts(t.inFlight, b);
    PushedOn(t.avail, b);
    PushedOn(t.awaiting, b);
    assert Places(Returned(g, t, b, wanted)) == Places(t);
  }

  lemma ReturnedKeepsInv(g: Options, t: Target, b: int, wanted: bool)
    requires Inv(g, t) && b in t.inFlight
    ensures 0 <= b < |t.bufs| && Inv(g, Returned(g, t, b, wanted))
    ensures |t.avail| < g.banks
  {
    ReturnKeepsPlaces(g, t, b, wanted);
    CountWithout(g, t, t.inFlight, b);
    hide Partitioned;
    hide Flat;
    MoveOutKeepsInv(g, t, Returned(g, t, b, wanted), b);
  }

  lemma FinalizeKeepsPlaces(g: Options, t: Target, b: int)
    requires Partitioned(g, t) && b in t.awaiting
    ensures 0 <= b < |t.bufs| && Partitioned(g, Finalized(t, b)) && |t.avail| < g.banks
    ensures b != t.current && b !in t.writeOut
  {
    OnePlace(g, t, b);
    WithoutCounts(t.awaiting, b);
    PushedOn(t.avail, b);
    assert Places(Finalized(t, b)) == Places(t);
  }

  lemma FinalizedKeepsInv(g: Options, t: Target, b: int)
    requires Inv(g, t) && b in t.awaiting
    ensures 0 <= b < |t.bufs| && Inv(g, Finalized(t, b))
    ensures |t.avail| < g.banks
  {
    FinalizeKeepsPlaces(g, t, b);
    hide Partitioned;
    MoveOutKeepsInv(g, t, Finalized(t, b), b);
  }

  /** A buffer that is neither filled nor waiting to be written leaves the order alone. */
  lemma MoveOutKeepsInv(g: Options, t: Target, t': Target, b: int)
    requires Inv(g, t) && Partitioned(g, t') && 0 <= b < |t.bufs| && b != t.current && b !in t.writeOut
    requires t'.current == t.current && t'.writeOut == t.writeOut && t'.flushed == t.flushed
             && t'.accepted == t.accepted
    requires t'.bufs == t.bufs || t'.bufs == t.bufs[b := []]
    requires t'.avail == t.avail || (t'.avail == t.avail + [b] && t'.bufs == t.bufs[b := []])
    requires t'.need >= HasData(g, t, t.current) + Count(g, t, t.writeOut) + Count(g, t, t'.inFlight)
    ensures Inv(g, t')
  {
    hide Partitioned;
    PendingFrame(t.bufs, t.writeOut, b, []);
    assert InOrder(t') == InOrder(t);
    EmptyHasNoData(g, t.(bufs := t.bufs[b := []]), b);
    hide Flat;
    hide Pending;
    CountFrame(g, t, t', t.writeOut);
    CountShrinks(g, t, t', t'.inFlight);
  }

  lemma {:induction false} CountShrinks(g: Options, t: Target, t': Target, list: seq<int>)
    requires forall b :: HasData(g, t', b) <= HasData(g, t, b)
    ensures Count(g, t', list) <= Count(g, t, list)
  {
    if list != [] {
      CountShrinks(g, t, t', list[1..]);
    }
  }

  // ---------- Whether copies stay inside the buffer ----------

  /** No buffer is longer than a bank. */
  ghost predicate AllFit(g: Options, accepted: seq<Msg>, bufs: seq<seq<int>>)
  {
    forall b {:trigger bufs[b]} | 0 <= b < |bufs| :: |Flat(g.delim, accepted, bufs[b])| <= g.bankSize
  }

  /** The copy after a rotation is not checked against the room in the new buffer. */
  predicate Overruns(g: Options, t: Target, m: Msg, room: bool)
    requires 0 <= t.current < |t.bufs|
  {
    && !TooBig(g, m) && !FitsIn(g, Used(g, t, t.current), m)
    && Used(g, t, t.current) > 0 && t.avail != [] && room && |Record(g.delim, m)| > g.bankSize
  }

  lemma CopyFits(g: Options, t: Target, m: Msg)
    requires 0 <= t.current < |t.bufs| && BufsOk(t) && AllFit(g, t.accepted, t.bufs)
    ensures AllFit(g, CopiedIn(t, m).accepted, CopiedIn(t, m).bufs)
            <==> Used(g, t, t.current) + |Record(g.delim, m)| <= g.bankSize
  {
    hide Flat;
    var t' := CopiedIn(t, m);
    forall b | 0 <= b < |t.bufs|
      ensures |Flat(g.delim, t'.accepted, t'.bufs[b])| ==
              |Flat(g.delim, t.accepted, t.bufs[b])| + if b == t.current then |Record(g.delim, m)| else 0
    {
      assert forall i | 0 <= i < |t.bufs[b]| :: 0 <= t.bufs[b][i] < |t.accepted|;
      FlatStable(g.delim, t.accepted, m, t.bufs[b]);
      FlatPush(g.delim, t.accepted + [m], t.bufs[b], |t.accepted|);
    }
    hide Record;
    assert t'.bufs[t.current] == t'.bufs[t.current] && |t'.bufs| == |t.bufs|;
  }

  /** A write stays inside its buffer if and only if it does not put a record that is
      longer than a whole buffer into a new one. */
  lemma WriteFits(g: Options, t: Target, m: Msg, room: bool)
    requires Inv(g, t) && AllFit(g, t.accepted, t.bufs)
    ensures 0 <= t.current < |t.bufs| && (t.avail != [] ==> 0 <= t.avail[0] < |t.bufs|)
    ensures AllFit(g, Written(g, t, m, room).accepted, Written(g, t, m, room).bufs) <==> !Overruns(g, t, m, room)
  {
    hide Inv;
    hide BufsOk;
    hide CopiedIn;
    hide AllFit;
    hide Flat;
    CurrentIsBuffer(g, t);
    BuffersOk(g, t);
    if !TooBig(g, m) {
      if FitsIn(g, Used(g, t, t.current), m) {
        RecordFits(g, Used(g, t, t.current), m);
        BuffersOk(g, t);
        CopyFits(g, t, m);
        CopyIgnoresNeed(t, m);
      } else {
        RotateFits(g, t);
        RotatedKeepsInv(g, t);
        var (t', rotated) := Rotated(g, t);
        if rotated && room {
          BuffersOk(g, t');
          CopyFits(g, t', m);
          CopyIgnoresNeed(t', m);
        }
      }
    }
  }

  lemma RecordFits(g: Options, used: nat, m: Msg)
    requires FitsIn(g, used, m) && used <= g.bankSize
    ensures used + |Record(g.delim, m)| <= g.bankSize
  {
  }

  lemma CopyIgnoresNeed(t: Target, m: Msg)
    requires 0 <= t.current < |t.bufs|
    ensures CopiedIn(t.(need := t.need + 1), m).bufs == CopiedIn(t, m).bufs
    ensures CopiedIn(t.(need := t.need + 1), m).accepted == CopiedIn(t, m).accepted
  {
  }

  lemma BuffersOk(g: Options, t: Target)
    requires Inv(g, t)
    ensures BufsOk(t) && 0 <= t.current < |t.bufs|
    ensures AllFit(g, t.accepted, t.bufs) ==> Used(g, t, t.current) <= g.bankSize
  {
  }

  lemma RotateFits(g: Options, t: Target)
    requires Inv(g, t) && AllFit(g, t.accepted, t.bufs)
    ensures 0 <= t.current < |t.bufs| && AllFit(g, Rotated(g, t).0.accepted, Rotated(g, t).0.bufs)
    ensures Rotated(g, t).1 <==> Used(g, t, t.current) > 0 && t.avail != []
  {
    hide Partitioned;
    hide NeedOk;
    hide OrderOk;
    assert Flat(g.delim, t.accepted, []) == "";
    hide Flat;
  }

  /** Headers, footers and delimiters within the allowance never overrun; the allowance
      is checked for header and footer only. */
  lemma ShortPrefixFits(g: Options, t: Target, m: Msg, room: bool)
    requires 0 <= t.current < |t.bufs| && |m.header| + |m.footer| + |g.delim| <= g.maxPrefix
    ensures !Overruns(g, t, m, room)
  {
  }

  lemma LongPrefixOverruns()
    ensures var g, m := Options(2, 6, 4, "||"), Msg("h", "xy", "foo");
            var t := Target([Msg("", "abc", "")], [], [[0], []], 0, [1], [], [], [], 1);
            |m.header| + |m.footer| <= g.maxPrefix && Inv(g, t) && AllFit(g, t.accepted, t.bufs)
              && Overruns(g, t, m, true)
  {
    var g, m := Options(2, 6, 4, "||"), Msg("h", "xy", "foo");
    var t := Target([Msg("", "abc", "")], [], [[0], []], 0, [1], [], [], [], 1);
    assert [0][..0] == [];
    assert Flat(g.delim, t.accepted, [0]) == "" + Record(g.delim, t.accepted[0]);
    assert Places(t) == multiset{0, 1};
    hide Places;
  }

  // ---------- Runs ----------

  datatype Event = Write(m: Msg, room: bool) | Rotate | FlushOne | Return(b: int, wanted: bool) | Finalize(b: int)

  predicate Enabled(t: Target, e: Event)
  {
    match e
    case Write(_, _) => true
    case Rotate => true
    case FlushOne => t.writeOut != []
    case Return(b, _) => b in t.inFlight
    case Finalize(b) => b in t.awaiting
  }

  ghost function Next(g: Options, t: Target, e: Event): (t': Target)
    requires Inv(g, t) && Enabled(t, e)
    ensures Inv(g, t')
  {
    match e
    case Write(m, room) => WrittenKeepsInv(g, t, m, room); Written(g, t, m, room)
    case Rotate => RotatedKeepsInv(g, t); Rotated(g, t).0
    case FlushOne => FlushedKeepsInv(g, t); FlushedNext(t)
    case Return(b, wanted) => ReturnedKeepsInv(g, t, b, wanted); Returned(g, t, b, wanted)
    case Finalize(b) => FinalizedKeepsInv(g, t, b); Finalized(t, b)
  }

  ghost predicate ValidRun(g: Options, t: Target, run: seq<Event>)
    requires Inv(g, t)
    decreases run
  {
    run != [] ==> Enabled(t, run[0]) && ValidRun(g, Next(g, t, run[0]), run[1..])
  }

  ghost function AfterRun(g: Options, t: Target, run: seq<Event>): (t': Target)
    requires Inv(g, t) && ValidRun(g, t, run)
    ensures Inv(g, t')
    decreases run
  {
    if run == [] then t else AfterRun(g, Next(g, t, run[0]), run[1..])
  }

  /** As the constructor leaves it. */
  function Initial(g: Options): Target
    requires g.banks > 0
  {
    Target([], [], seq(g.banks, _ => []), 0, seq(g.banks - 1, i => i + 1), [], [], [], 0)
  }

  lemma InitialInv(g: Options)
    requires g.banks > 0
    ensures Inv(g, Initial(g)) && AllFit(g, Initial(g).accepted, Initial(g).bufs)
  {
    var t := Initial(g);
    var avail := t.avail;
    forall b
      ensures multiset(avail)[b] == if 1 <= b < g.banks then 1 else 0
    {
      CountUpTo(g.banks - 1, b);
    }
    assert Pending(t.bufs, []) == [];
    assert InOrder(t) == [];
  }

  lemma {:induction false} CountUpTo(n: nat, b: int)
    ensures multiset(seq(n, i => i + 1))[b] == if 1 <= b <= n then 1 else 0
  {
    if n > 0 {
      var s, r := seq(n, i => i + 1), seq(n - 1, i => i + 1);
      assert s == r + [n];
      CountUpTo(n - 1, b);
    }
  }

  /** Over any run from the start: what has been flushed is some of the accepted messages,
      in their order, whole and once; and no list of buffers ever overflows. */
  lemma FlushedInOrder(g: Options, run: seq<Event>)
    requires g.banks > 0 && Inv(g, Initial(g)) && ValidRun(g, Initial(g), run)
    ensures var t := AfterRun(g, Initial(g), run);
            && OrderOk(t.accepted, t.flushed)
            && |t.writeOut| <= g.banks - 1 && |t.avail| <= g.banks - 1
            && t.need >= Count(g, t, t.inFlight)
  {
    hide Inv;
    hide ValidRun;
    hide AfterRun;
    FlushedSoFar(g, AfterRun(g, Initial(g), run));
  }

  lemma FlushedSoFar(g: Options, t: Target)
    requires Inv(g, t)
    ensures OrderOk(t.accepted, t.flushed) && |t.writeOut| <= g.banks - 1 && |t.avail| <= g.banks - 1
            && t.need >= Count(g, t, t.inFlight)
  {
    hide Partitioned;
    hide Pending;
    hide OrderOk;
    hide BufsOk;
    OnePlace(g, t, 0);
    assert InOrder(t) == t.flushed + (Pending(t.bufs, t.writeOut) + t.bufs[t.current]);
    OrderPrefix(t.accepted, t.flushed, Pending(t.bufs, t.writeOut) + t.bufs[t.current]);
  }

  /** Header, footer and delimiter of every message written are within the allowance. */
  ghost predicate ShortPrefixes(g: Options, run: seq<Event>)
  {
    forall i | 0 <= i < |run| && run[i].Write? :: |run[i].m.header| + |run[i].m.footer| + |g.delim| <= g.maxPrefix
  }

  lemma NextFits(g: Options, t: Target, e: Event)
    requires Inv(g, t) && Enabled(t, e) && AllFit(g, t.accepted, t.bufs) && ShortPrefixes(g, [e])
    ensures AllFit(g, Next(g, t, e).accepted, Next(g, t, e).bufs)
  {
    hide Flat;
    hide Partitioned;
    hide NeedOk;
    hide OrderOk;
    hide BufsOk;
    hide Written;
    hide Rotated;
    hide Record;
    match e
    case Write(m, room) =>
      assert [e][0] == e;
      WriteFits(g, t, m, room);
      ShortPrefixFits(g, t, m, room);
      hide Inv;
      hide AllFit;
    case Rotate => RotateFits(g, t);
    case FlushOne =>
    case Return(b, wanted) =>
      PlacedIsBuffer(g, t, b);
      EmptyFits(g, t.accepted);
    case Finalize(b) =>
      PlacedIsBuffer(g, t, b);
      EmptyFits(g, t.accepted);
  }

  lemma PlacedIsBuffer(g: Options, t: Target, b: int)
    requires Inv(g, t) && (b in t.inFlight || b in t.awaiting)
    ensures 0 <= b < |t.bufs|
  {
    OnePlace(g, t, b);
  }

  lemma EmptyFits(g: Options, accepted: seq<Msg>)
    ensures Flat(g.delim, accepted, []) == ""
  {
  }

  /** Then no buffer is ever overrun, over any run from the start. */
  lemma RunFits(g: Options, run: seq<Event>)
    requires g.banks > 0 && Inv(g, Initial(g)) && ValidRun(g, Initial(g), run) && ShortPrefixes(g, run)
    ensures AllFit(g, AfterRun(g, Initial(g), run).accepted, AfterRun(g, Initial(g), run).bufs)
  {
    InitialInv(g);
    RunKeepsFit(g, Initial(g), run);
  }

  lemma {:induction false} RunKeepsFit(g: Options, t: Target, run: seq<Event>)
    requires Inv(g, t) && ValidRun(g, t, run) && AllFit(g, t.accepted, t.bufs) && ShortPrefixes(g, run)
    ensures AllFit(g, AfterRun(g, t, run).accepted, AfterRun(g, t, run).bufs)
    decreases run
  {
    hide Inv;
    hide AllFit;
    hide Next;
    if run != [] {
      NextFits(g, t, run[0]);
      RunKeepsFit(g, Next(g, t, run[0]), run[1..]);
    }
  }

  // ---------- The target in memory ----------

  /** copyIn. */
  function CopyIn(base: string, s: string, useDelim: bool, delim: string): string
  {
    if |s| > 0 then base + s + (if useDelim then delim else "") else base
  }

  lemma CopiesMakeRecord(base: string, m: Msg, delim: string)
    ensures var a := CopyIn(CopyIn(base, m.header, false, delim), m.text, |m.footer| == 0, delim);
            (if |m.footer| > 0 then CopyIn(a, m.footer, true, delim) else a) == base + Record(delim, m)
  {
    var a := CopyIn(CopyIn(base, m.header, false, delim), m.text, |m.footer| == 0, delim);
    assert base + m.header + "" == base + m.header;
    if |m.footer| > 0 {
      assert base + m.header + m.text + m.footer + delim == base + (m.header + (m.text + m.footer + delim));
    } else if |m.text| > 0 {
      assert base + m.header + m.text + delim == base + (m.header + (m.text + delim));
    }
  }

  class LogTarget {
    const g: Options
    var bufs: seq<string>
    var current: int
    var avail: seq<int>
    var writeOut: seq<int>
    var need: int
    ghost var t: Target

    ghost predicate Same(t: Target)
      reads this
    {
      && |bufs| == |t.bufs| && (forall b {:trigger bufs[b]} | 0 <= b < |bufs| :: bufs[b] == Bytes(g, t, b))
      && current == t.current && avail == t.avail && writeOut == t.writeOut && need == t.need
    }

    ghost predicate Valid()
      reads this
    {
      Inv(g, t) && Same(t)
    }

    constructor (g: Options)
      requires g.banks > 0
      ensures Valid() && t == Initial(g) && this.g == g
    {
      hide Inv;
      hide Flat;
      this.g := g;
      bufs := seq(g.banks, _ => "");
      current, avail, writeOut, need := 0, seq(g.banks - 1, i => i + 1), [], 0;
      t := Initial(g);
      InitialInv(g);
      EmptyBytes(g, Initial(g));
    }

    /** False when there is nothing to rotate out, or nothing to rotate in: then the data
        in the buffer are lost. The branch on a full write-out list is not reachable. */
    method DoRotate() returns (rotated: bool)
      requires Valid()
      modifies this
      ensures Valid() && 0 <= old(t).current < |old(t).bufs| && (t, rotated) == Rotated(g, old(t))
    {
      hide Inv;
      hide Flat;
      hide Places;
      CurrentIsBuffer(g, t);
      RotatedKeepsInv(g, t);
      rotated := false;
      if |bufs[current]| > 0 {
        if avail != [] {
          RotateHasRoom(g, t);
          var next := avail[0];
          avail := avail[1..];
          if |writeOut| < g.banks - 1 {
            writeOut := writeOut + [current];
            current := next;
            rotated := true;
          }
        } else {
          EmptyBytes(g, t);
          bufs := bufs[current := ""];
        }
      }
      t := Rotated(g, t).0;
    }

    /** Puts a message into the current buffer; isRef says whether to ask for the grease thread. */
    method CopyMessage(m: Msg, isRef: bool)
      requires Inv(g, t) && Same(t) && (isRef || Used(g, t, t.current) > 0)
      modifies this
      ensures 0 <= old(t).current < |old(t).bufs| && Valid()
      ensures t == CopiedIn(if isRef then old(t).(need := old(t).need + 1) else old(t), m)
    {
      hide Inv;
      hide Flat;
      CurrentIsBuffer(g, t);
      ghost var t1 := if isRef then t.(need := t.need + 1) else t;
      BuffersOk(g, t);
      CopyBytes(g, t1, m);
      if isRef {
        RefAndCopyKeepInv(g, t, m);
        need := need + 1;
      } else {
        CopyKeepsInv(g, t, m);
      }
      var buf := CopyIn(bufs[current], m.header, false, g.delim);
      buf := CopyIn(buf, m.text, |m.footer| == 0, g.delim);
      if |m.footer| > 0 {
        buf := CopyIn(buf, m.footer, true, g.delim);
      }
      CopiesMakeRecord(bufs[current], m, g.delim);
      bufs := bufs[current := buf];
      t := CopiedIn(t1, m);
    }

    /** False stands for the request for a large write of its own. */
    method DoWrite(m: Msg, room: bool) returns (buffered: bool)
      requires Valid()
      modifies this
      ensures Valid() && buffered == !TooBig(g, m)
      ensures 0 <= old(t).current < |old(t).bufs| && (old(t).avail != [] ==> 0 <= old(t).avail[0] < |old(t).bufs|)
      ensures t == Written(g, old(t), m, room)
    {
      hide Inv;
      hide Flat;
      hide CopiedIn;
      CurrentIsBuffer(g, t);
      if g.bankSize < |m.text| + g.maxPrefix {
        return false;
      }
      buffered := true;
      if Remain(g, |bufs[current]|) >= |m.text| + |m.header| + |m.footer| {
        CopyMessage(m, |bufs[current]| == 0);
      } else {
        var rotated := DoRotate();
        if rotated && room {
          CopyMessage(m, true);
        }
      }
    }

    /** flushAll: what goes to flush, oldest buffer first. */
    method FlushAll(rotate: bool) returns (out: seq<string>)
      requires Valid()
      modifies this
      ensures Valid() && writeOut == []
      ensures 0 <= old(t).current < |old(t).bufs|
      ensures var t0 := if rotate then Rotated(g, old(t)).0 else old(t);
              t.flushed == t0.flushed + Pending(t0.bufs, t0.writeOut) && t.current == t0.current && t.bufs == t0.bufs
              && |out| == |t0.writeOut| && |t0.bufs| == |t.bufs|
              && forall i | 0 <= i < |out| :: 0 <= t0.writeOut[i] < |t0.bufs| && out[i] == Bytes(g, t0, t0.writeOut[i])
    {
      hide Inv;
      hide Flat;
      hide Pending;
      CurrentIsBuffer(g, t);
      if rotate {
        var rotated := DoRotate();
      }
      ghost var t0 := t;
      out := [];
      NothingPending(t.flushed, Pending(t.bufs, t.writeOut), t.bufs);
      while writeOut != []
        invariant Valid() && t.current == t0.current && t.bufs == t0.bufs
        invariant t.flushed + Pending(t.bufs, t.writeOut) == t0.flushed + Pending(t0.bufs, t0.writeOut)
        invariant |out| <= |t0.writeOut| && t.writeOut == t0.writeOut[|out|..] && t.accepted == t0.accepted
        invariant forall i | 0 <= i < |out| :: 0 <= t0.writeOut[i] < |t0.bufs| && out[i] == Bytes(g, t0, t0.writeOut[i])
        decreases |writeOut|
      {
        FlushedKeepsInv(g, t);
        FlushedMoves(t);
        out := out + [bufs[writeOut[0]]];
        writeOut := writeOut[1..];
        t := FlushedNext(t);
      }
      NothingPending(t.flushed, [], t.bufs);
    }

    /** returnBuffer; wanted says whether a callback is set, not suppressed, and has room. */
    method ReturnBuffer(b: int, wanted: bool)
      requires Valid() && b in t.inFlight
      modifies this
      ensures Valid() && 0 <= b < |old(t).bufs| && t == Returned(g, old(t), b, wanted)
    {
      hide Inv;
      hide Flat;
      hide Without;
      ReturnedKeepsInv(g, t, b, wanted);
      EmptyBytes(g, t);
      if |bufs[b]| > 0 {
        UnrefIsSafe(g, t, b);
        assert need > 0;
        need := need - 1;
        if !wanted {
          bufs, avail := bufs[b := ""], avail + [b];
        }
      } else {
        bufs, avail := bufs[b := ""], avail + [b];
      }
      t := Returned(g, t, b, wanted);
    }

    method FinalizeV8Callback(b: int)
      requires Valid() && b in t.awaiting
      modifies this
      ensures Valid() && 0 <= b < |old(t).bufs| && t == Finalized(old(t), b)
    {
      hide Inv;
      hide Flat;
      hide Without;
      FinalizedKeepsInv(g, t, b);
      EmptyBytes(g, t);
      bufs := bufs[b := ""];
      avail := avail + [b];
      t := Finalized(t, b);
    }
  }

  lemma EmptyBytes(g: Options, t: Target)
    ensures Flat(g.delim, t.accepted, []) == ""
  {
  }

  lemma CopyBytes(g: Options, t: Target, m: Msg)
    requires BufsOk(t) && 0 <= t.current < |t.bufs|
    ensures forall b {:trigger t.bufs[b]} | 0 <= b < |t.bufs| ::
              Bytes(g, CopiedIn(t, m), b) == Bytes(g, t, b) + if b == t.current then Record(g.delim, m) else ""
  {
    hide Flat;
    forall b | 0 <= b < |t.bufs|
      ensures Bytes(g, CopiedIn(t, m), b) == Bytes(g, t, b) + if b == t.current then Record(g.delim, m) else ""
    {
      assert forall i | 0 <= i < |t.bufs[b]| :: 0 <= t.bufs[b][i] < |t.accepted|;
      FlatStable(g.delim, t.accepted, m, t.bufs[b]);
      FlatPush(g.delim, t.accepted + [m], t.bufs[b], |t.accepted|);
    }
  }

  lemma FlushedMoves(t: Target)
    requires t.writeOut != [] && 0 <= t.writeOut[0] < |t.bufs|
    ensures var t' := FlushedNext(t);
            t'.flushed + Pending(t'.bufs, t'.writeOut) == t.flushed + Pending(t.bufs, t.writeOut)
  {
    PendingPop(t.bufs, t.writeOut);
    hide Pending;
    var first, rest := t.bufs[t.writeOut[0]], Pending(t.bufs, t.writeOut[1..]);
    assert (t.flushed + first) + rest == t.flushed + (first + rest);
  }

  lemma NothingPending(flushed: seq<int>, rest: seq<int>, bufs: seq<seq<int>>)
    ensures Pending(bufs, []) == [] && flushed + [] == flushed
  {
  }
}
