/** What the queues of a control block look like after any sequence of calls
    with any arguments, incoming datagrams being arbitrary bytes. Positions on
    the sequence-number circle are measured from snd_una and from rcv_nxt. */
module KcpQueues {
  import opened Words
  import opened KcpWire
  import opened KcpSpec

  /** How far `x` lies ahead of `base` on the circle. */
  function Ahead(base: u32, x: u32): u32 {
    Wrap(x - base)
  }

  lemma AheadRebase(base: u32, mid: u32, x: u32)
    requires Ahead(base, mid) <= Ahead(base, x)
    ensures Ahead(mid, x) == Ahead(base, x) - Ahead(base, mid)
  {
    WrapDifference(x - base, mid - base);
  }

  /** Both signed comparisons agree with the distances from a common base. */
  lemma AheadDiff(base: u32, a: u32, b: u32)
    requires Ahead(base, a) < 0x8000_0000 && Ahead(base, b) < 0x8000_0000
    ensures TimeDiff(a, b) == Ahead(base, a) - Ahead(base, b)
  {
    hide Wrap, Signed;
    WrapDifference(a - base, b - base);
    SignedIs(a - b, Ahead(base, a) - Ahead(base, b));
  }

  lemma AheadAdd(base: u32, x: u32, k: nat)
    requires Ahead(base, x) + k < 0x1_0000_0000
    ensures Ahead(base, Wrap(x + k)) == Ahead(base, x) + k
  {
    hide Wrap;
    WrapDifference(x + k, base);
    WrapShift(x - base, k);
    assert x - base + k == x + k - base;
    WrapSame(base);
    WrapSame(Ahead(base, x) + k);
  }

  // ---- the sending half ----

  predicate TxAscending(base: u32, buf: seq<SndSeg>) {
    forall i, j :: 0 <= i < j < |buf| ==> Ahead(base, buf[i].sn) < Ahead(base, buf[j].sn)
  }

  /** The segments lie in ascending order between `base` and `end`. */
  predicate TxBetween(base: u32, end: u32, buf: seq<SndSeg>) {
    TxAscending(base, buf) && forall i :: 0 <= i < |buf| ==> Ahead(base, buf[i].sn) < Ahead(base, end)
  }

  predicate UnaIsOldest(tx: Tx) {
    tx.una == if tx.buf == [] then tx.nxt else tx.buf[0].sn
  }

  /** snd_buf ascends strictly in [snd_una, snd_nxt), snd_una is its head or
      snd_nxt, and no more than `limit` numbers are in flight. */
  predicate TxOrdered(tx: Tx, limit: nat) {
    TxBetween(tx.una, tx.nxt, tx.buf) && UnaIsOldest(tx) && Ahead(tx.una, tx.nxt) <= limit
  }

  /** snd_una moved on by some of the numbers in flight, never back. */
  predicate Advanced(tx: Tx, tx': Tx) {
    tx'.nxt == tx.nxt && Ahead(tx.una, tx'.una) + Ahead(tx'.una, tx.nxt) == Ahead(tx.una, tx.nxt)
  }

  /** snd_una moved on by some of the numbers in flight, and snd_nxt did not
      fall behind: neither moved back. */
  predicate Forward(tx: Tx, tx': Tx) {
    Ahead(tx.una, tx'.una) + Ahead(tx'.una, tx.nxt) == Ahead(tx.una, tx.nxt)
    && Ahead(tx'.una, tx.nxt) <= Ahead(tx'.una, tx'.nxt)
  }

  lemma AdvancedTwice(a: Tx, b: Tx, c: Tx)
    requires Advanced(a, b) && Advanced(b, c)
    ensures Advanced(a, c)
  {
    hide Ahead, Wrap;
    AheadAdd(a.una, b.una, Ahead(b.una, c.una));
    AheadReaches(b.una, c.una);
  }

  lemma AheadReaches(base: u32, x: u32)
    ensures Wrap(base + Ahead(base, x)) == x
  {
    hide Wrap;
    WrapShift(x - base, base);
    WrapSame(x);
  }

  /** Moving snd_una up to the oldest of the segments that are left. */
  lemma ShrinkOrders(tx: Tx, limit: nat)
    requires TxBetween(tx.una, tx.nxt, tx.buf) && Ahead(tx.una, tx.nxt) <= limit
    ensures TxOrdered(ShrinkBuf(tx), limit) && Advanced(tx, ShrinkBuf(tx))
  {
    var una := ShrinkBuf(tx).una;
    assert Ahead(tx.una, una) <= Ahead(tx.una, tx.nxt);
    AheadRebase(tx.una, una, tx.nxt);
    forall i | 0 <= i < |tx.buf|
      ensures Ahead(una, tx.buf[i].sn) == Ahead(tx.una, tx.buf[i].sn) - Ahead(tx.una, una)
    {
      assert i == 0 || Ahead(tx.una, tx.buf[0].sn) < Ahead(tx.una, tx.buf[i].sn);
      AheadRebase(tx.una, una, tx.buf[i].sn);
    }
  }

  lemma {:induction false} DropBelowIsSuffix(buf: seq<SndSeg>, una: u32)
    ensures |DropBelow(buf, una)| <= |buf| && DropBelow(buf, una) == buf[|buf| - |DropBelow(buf, una)|..]
  {
    if buf != [] && TimeDiff(una, buf[0].sn) > 0 {
      DropBelowIsSuffix(buf[1..], una);
    }
  }

  /** At most one segment goes, the one whose number was acknowledged. */
  lemma {:induction false} DropAckedRemovesOne(buf: seq<SndSeg>, sn: u32) returns (k: nat)
    ensures k <= |buf|
    ensures k == |buf| ==> DropAcked(buf, sn) == buf
    ensures k < |buf| ==> buf[k].sn == sn && DropAcked(buf, sn) == buf[..k] + buf[k + 1..]
  {
    k := 0;
    if buf != [] && sn != buf[0].sn {
      if TimeDiff(sn, buf[0].sn) < 0 {
        k := |buf|;
      } else {
        k := DropAckedRemovesOne(buf[1..], sn);
        k := k + 1;
      }
    }
  }

  lemma {:induction false} BumpKeepsNumbers(buf: seq<SndSeg>, sn: u32, p: nat)
    requires p <= |buf|
    ensures |BumpFastack(buf, sn, p)| == |buf|
    ensures forall i :: 0 <= i < |buf| ==>
              BumpFastack(buf, sn, p)[i].sn == buf[i].sn && BumpFastack(buf, sn, p)[i].frag == buf[i].frag
    decreases |buf| - p
  {
    if p < |buf| && TimeDiff(sn, buf[p].sn) >= 0 {
      var seg := if sn == buf[p].sn then buf[p] else buf[p].(fastack := Wrap(buf[p].fastack + 1));
      BumpKeepsNumbers(buf[p := seg], sn, p + 1);
    }
  }

  lemma UnaKeepsOrder(tx: Tx, una: u32, limit: nat)
    requires TxOrdered(tx, limit)
    ensures TxOrdered(ShrinkBuf(ParseUna(tx, una)), limit) && Advanced(tx, ShrinkBuf(ParseUna(tx, una)))
  {
    DropBelowIsSuffix(tx.buf, una);
    ShrinkOrders(ParseUna(tx, una), limit);
  }

  lemma AckKeepsOrder(tx: Tx, sn: u32, limit: nat)
    requires TxOrdered(tx, limit)
    ensures TxOrdered(ShrinkBuf(ParseAck(tx, sn)), limit) && Advanced(tx, ShrinkBuf(ParseAck(tx, sn)))
  {
    var k := DropAckedRemovesOne(tx.buf, sn);
    ShrinkOrders(ParseAck(tx, sn), limit);
  }

  lemma FastackKeepsOrder(tx: Tx, sn: u32, limit: nat)
    requires TxOrdered(tx, limit)
    ensures TxOrdered(ParseFastack(tx, sn), limit) && Advanced(tx, ParseFastack(tx, sn))
  {
    BumpKeepsNumbers(tx.buf, sn, 0);
  }

  lemma WindowOpen(tx: Tx, cwnd: u32)
    requires Ahead(tx.una, tx.nxt) < 0x8000_0000 && cwnd < 0x8000_0000
    ensures TimeDiff(tx.nxt, Wrap(tx.una + cwnd)) < 0 <==> Ahead(tx.una, tx.nxt) < cwnd
  {
    assert Ahead(tx.una, tx.una) == 0;
    AheadAdd(tx.una, tx.una, cwnd);
    AheadDiff(tx.una, tx.nxt, Wrap(tx.una + cwnd));
  }

  lemma FillOneKeepsOrder(cb: Cb, tx: Tx, limit: nat)
    requires TxOrdered(tx, limit) && Ahead(tx.una, tx.nxt) < limit < 0x8000_0000 && tx.queue != []
    ensures TxOrdered(FillOne(cb, tx), limit) && Ahead(tx.una, FillOne(cb, tx).nxt) == Ahead(tx.una, tx.nxt) + 1
  {
    hide Ahead, Wrap;
    AheadAdd(tx.una, tx.nxt, 1);
  }

  lemma {:induction false} FillKeepsOrder(cb: Cb, tx: Tx, cwnd: u32, limit: nat)
    requires TxOrdered(tx, limit) && cwnd <= limit < 0x8000_0000
    ensures TxOrdered(FillWindow(cb, tx, cwnd), limit) && FillWindow(cb, tx, cwnd).una == tx.una
    ensures Ahead(tx.una, tx.nxt) <= Ahead(tx.una, FillWindow(cb, tx, cwnd).nxt)
    decreases |tx.queue|
  {
    hide TxBetween, UnaIsOldest, Ahead, Wrap, TimeDiff, NewSeg;
    WindowOpen(tx, cwnd);
    if Ahead(tx.una, tx.nxt) < cwnd && tx.queue != [] {
      FillOneKeepsOrder(cb, tx, limit);
      FillKeepsOrder(cb, FillOne(cb, tx), cwnd, limit);
    }
  }

  lemma {:induction false} FlushKeepsNumbers(cb: Cb, buf: seq<SndSeg>)
    ensures |FlushBuf(cb, buf).buf| == |buf|
    ensures forall i :: 0 <= i < |buf| ==>
              FlushBuf(cb, buf).buf[i].sn == buf[i].sn && FlushBuf(cb, buf).buf[i].frag == buf[i].frag
  {
    if buf != [] {
      FlushKeepsNumbers(cb, buf[..|buf| - 1]);
      TouchKeeps(cb, buf[|buf| - 1]);
    }
  }

  // ---- the receiving half ----

  predicate RxAscending(base: u32, buf: seq<RcvSeg>) {
    forall i, j :: 0 <= i < j < |buf| ==> Ahead(base, buf[i].sn) < Ahead(base, buf[j].sn)
  }

  /** rcv_buf ascends strictly in [rcv_nxt, rcv_nxt + rcv_wnd). */
  predicate RxWithin(rx: Rx) {
    RxAscending(rx.nxt, rx.buf)
    && (forall i :: 0 <= i < |rx.buf| ==> Ahead(rx.nxt, rx.buf[i].sn) < rx.wnd)
    && |rx.queue| <= rx.wnd < 0x8000_0000
  }

  /** The next number in order waits in rcv_buf only while rcv_queue is full. */
  predicate HeadBlocked(rx: Rx) {
    rx.buf != [] && rx.buf[0].sn == rx.nxt ==> |rx.queue| == rx.wnd
  }

  predicate RxOrdered(rx: Rx) {
    RxWithin(rx) && HeadBlocked(rx)
  }

  lemma {:induction false} MoveReadyOrders(rx: Rx)
    requires RxWithin(rx)
    ensures RxOrdered(MoveReady(rx))
    decreases |rx.buf|
  {
    if rx.buf != [] && rx.buf[0].sn == rx.nxt && |rx.queue| < rx.wnd {
      var nxt := Wrap(rx.nxt + 1);
      AheadAdd(rx.nxt, rx.nxt, 1);
      forall i | 1 <= i < |rx.buf|
        ensures Ahead(nxt, rx.buf[i].sn) == Ahead(rx.nxt, rx.buf[i].sn) - 1
      {
        assert Ahead(rx.nxt, rx.buf[0].sn) < Ahead(rx.nxt, rx.buf[i].sn);
        AheadRebase(rx.nxt, nxt, rx.buf[i].sn);
      }
      MoveReadyOrders(Rx(nxt, rx.wnd, rx.queue + [rx.buf[0].frag], rx.buf[1..]));
    }
  }

  /** The two window tests of the source admit exactly [rcv_nxt, rcv_nxt + rcv_wnd). */
  lemma InWindowExact(rx: Rx, sn: u32)
    requires rx.wnd < 0x8000_0000
    ensures InWindow(rx, sn) <==> Ahead(rx.nxt, sn) < rx.wnd
  {
    var end := Wrap(rx.nxt + rx.wnd);
    AheadAdd(rx.nxt, rx.nxt, rx.wnd);
    assert Ahead(rx.nxt, rx.nxt) == 0;
    assert TimeDiff(sn, rx.nxt) == Signed(Ahead(rx.nxt, sn));
    if Ahead(rx.nxt, sn) < 0x8000_0000 {
      AheadDiff(rx.nxt, sn, end);
    }
  }

  /** The backward scan stops at the place that keeps the order. */
  lemma {:induction false} InsertPosOrders(rx: Rx, sn: u32, n: nat)
    requires RxWithin(rx) && Ahead(rx.nxt, sn) < rx.wnd && n <= |rx.buf|
    requires forall i :: n <= i < |rx.buf| ==> Ahead(rx.nxt, sn) < Ahead(rx.nxt, rx.buf[i].sn)
    ensures var (p, repeated) := InsertPos(rx.buf, sn, n);
            if repeated then exists i :: 0 <= i < |rx.buf| && rx.buf[i].sn == sn
            else (forall i :: 0 <= i < p ==> Ahead(rx.nxt, rx.buf[i].sn) < Ahead(rx.nxt, sn))
                 && (forall i :: p <= i < |rx.buf| ==> Ahead(rx.nxt, sn) < Ahead(rx.nxt, rx.buf[i].sn))
  {
    if n > 0 && rx.buf[n - 1].sn != sn {
      AheadDiff(rx.nxt, sn, rx.buf[n - 1].sn);
      if TimeDiff(sn, rx.buf[n - 1].sn) <= 0 {
        if Ahead(rx.nxt, sn) == Ahead(rx.nxt, rx.buf[n - 1].sn) {
          AheadInjective(rx.nxt, sn, rx.buf[n - 1].sn);
        }
        InsertPosOrders(rx, sn, n - 1);
      }
    }
  }

  lemma AheadInjective(base: u32, a: u32, b: u32)
    requires Ahead(base, a) == Ahead(base, b)
    ensures a == b
  {
    WrapInjective(a - base, b - base);
  }

  predicate Holds(buf: seq<RcvSeg>, sn: u32) {
    exists i :: 0 <= i < |buf| && buf[i].sn == sn
  }

  /** A segment that is there already changes nothing; any other goes in at the
      one place that keeps the order. */
  lemma InsertOrders(rx: Rx, seg: RcvSeg) returns (p: nat)
    requires RxWithin(rx) && InWindow(rx, seg.sn)
    ensures RxWithin(rx.(buf := Insert(rx.buf, seg)))
    ensures p <= |rx.buf|
    ensures Insert(rx.buf, seg) == if Holds(rx.buf, seg.sn) then rx.buf else rx.buf[..p] + [seg] + rx.buf[p..]
    ensures !Holds(rx.buf, seg.sn) ==>
              (forall i :: 0 <= i < p ==> Ahead(rx.nxt, rx.buf[i].sn) < Ahead(rx.nxt, seg.sn))
              && (forall i :: p <= i < |rx.buf| ==> Ahead(rx.nxt, seg.sn) < Ahead(rx.nxt, rx.buf[i].sn))
  {
    hide InWindow, Ahead;
    InWindowExact(rx, seg.sn);
    p := InsertPos(rx.buf, seg.sn, |rx.buf|).0;
    InsertPosOrders(rx, seg.sn, |rx.buf|);
  }

  lemma DataKeepsOrder(rx: Rx, seg: RcvSeg)
    requires RxOrdered(rx)
    ensures RxOrdered(ParseData(rx, seg))
  {
    if InWindow(rx, seg.sn) {
      var _ := InsertOrders(rx, seg);
      MoveReadyOrders(rx.(buf := Insert(rx.buf, seg)));
    }
  }

  // ---- whole control blocks ----

  /** As many numbers as the window field of a header allows, or fewer. */
  function Limit(cb: Cb): nat {
    Min(cb.cfg.sndWnd, 0xffff)
  }

  predicate Ordered(cb: Cb) {
    TxOrdered(cb.tx, Limit(cb)) && RxOrdered(cb.rx)
  }

  /** What ikcp_input may do to the sending half. */
  predicate Steps(cb: Cb, cb': Cb) {
    Ordered(cb') && cb'.cfg == cb.cfg && Advanced(cb.tx, cb'.tx)
  }

  lemma PacketKeepsOrder(st: InState, p: Packet)
    requires Ordered(st.cb)
    ensures Steps(st.cb, ProcessPacket(st, p).cb)
  {
    var cb := ProcessUna(st.cb, p);
    UnaKeepsOrder(st.cb.tx, p.una, Limit(st.cb));
    if p.cmd == CMD_ACK {
      AckKeepsOrder(cb.tx, p.sn, Limit(cb));
      AdvancedTwice(st.cb.tx, cb.tx, ShrinkBuf(ParseAck(cb.tx, p.sn)));
    } else if p.cmd == CMD_PUSH {
      DataKeepsOrder(cb.rx, RcvSeg(p.sn, Frag(p.frg, p.data)));
    }
  }

  lemma {:induction false} PacketsKeepOrder(st: InState, ps: seq<Packet>)
    requires Ordered(st.cb)
    ensures Steps(st.cb, ProcessAll(st, ps).cb)
  {
    if ps == [] {
      assert Advanced(st.cb.tx, st.cb.tx);
    } else {
      var mid := ProcessAll(st, ps[..|ps| - 1]);
      PacketsKeepOrder(st, ps[..|ps| - 1]);
      PacketKeepsOrder(mid, ps[|ps| - 1]);
      AdvancedTwice(st.cb.tx, mid.cb.tx, ProcessAll(st, ps).cb.tx);
    }
  }

  /** Whatever bytes arrive, the queues stay ordered and snd_una never moves back. */
  lemma InputKeepsOrder(cb: Cb, b: seq<byte>)
    requires Ordered(cb)
    ensures Steps(cb, Input(cb, b).0)
  {
    var st := ProcessAll(InState(cb, false, 0), DecodeAll(cb.cfg.conv, b).packets);
    assert Advanced(cb.tx, cb.tx);
    PacketsKeepOrder(InState(cb, false, 0), DecodeAll(cb.cfg.conv, b).packets);
    FastackKeepsOrder(st.cb.tx, st.maxack, Limit(cb));
    AdvancedTwice(cb.tx, st.cb.tx, ParseFastack(st.cb.tx, st.maxack));
  }

  lemma SameForward(tx: Tx)
    ensures Forward(tx, tx)
  {}

  lemma OnlyFilled(tx: Tx, tx': Tx)
    requires tx'.una == tx.una && Ahead(tx.una, tx.nxt) <= Ahead(tx.una, tx'.nxt)
    ensures Forward(tx, tx')
  {}

  lemma RenumberedOrdered(tx: Tx, buf: seq<SndSeg>, limit: nat)
    requires TxOrdered(tx, limit) && |buf| == |tx.buf|
    requires forall i :: 0 <= i < |buf| ==> buf[i].sn == tx.buf[i].sn
    ensures TxOrdered(tx.(buf := buf), limit)
  {
    hide Ahead;
  }

  lemma FlushKeepsOrder(cb: Cb)
    requires Ordered(cb)
    ensures Ordered(Flush(cb).0) && Forward(cb.tx, Flush(cb).0.tx)
  {
    hide FlushBuf, FillWindow, AfterFlush, Probing, PackAll, FlushPackets, Ahead, Wrap, TxOrdered, RxOrdered;
    FillKeepsOrder(cb, cb.tx, SendWindow(cb), Limit(cb));
    FlushKeepsNumbers(cb, Filled(cb).buf);
    RenumberedOrdered(Filled(cb), FlushBuf(cb, Filled(cb).buf).buf, Limit(cb));
    SameForward(cb.tx);
    OnlyFilled(cb.tx, Flush(cb).0.tx);
  }

  lemma RecvKeepsOrder(cb: Cb, len: int)
    requires Ordered(cb)
    ensures Ordered(Recv(cb, len).cb)
  {
    var n := MessageLen(cb.rx.queue);
    MoveReadyOrders(cb.rx);
    MoveReadyOrders(cb.rx.(queue := cb.rx.queue[n..]));
  }

  // ---- runs ----

  datatype Call = CallSend(data: seq<byte>) | CallRecv(len: int) | CallInput(bytes: seq<byte>)
                | CallFlush | CallUpdate(now: u32)

  function After(cb: Cb, call: Call): Cb {
    match call
    case CallSend(data) => Send(cb, data).0
    case CallRecv(len) => Recv(cb, len).cb
    case CallInput(bytes) => Input(cb, bytes).0
    case CallFlush => Flush(cb).0
    case CallUpdate(now) => Update(cb, now).0
  }

  function AfterAll(cb: Cb, calls: seq<Call>): Cb {
    if calls == [] then cb else After(AfterAll(cb, calls[..|calls| - 1]), calls[|calls| - 1])
  }

  lemma SendKeepsOrder(cb: Cb, data: seq<byte>)
    requires Ordered(cb)
    ensures Ordered(Send(cb, data).0) && Forward(cb.tx, Send(cb, data).0.tx)
  {
    hide Fragments, ExtendTail, FragCount, RxOrdered;
  }

  lemma ClockKeepsOrder(cb: Cb, clock: Clock)
    requires Ordered(cb)
    ensures Ordered(cb.(clock := clock))
  {}

  lemma UpdateKeepsOrder(cb: Cb, now: u32)
    requires Ordered(cb)
    ensures Ordered(Update(cb, now).0) && Forward(cb.tx, Update(cb, now).0.tx)
  {
    hide Flush, TxOrdered, RxOrdered, Tick;
    SameForward(cb.tx);
    FlushKeepsOrder(cb.(clock := Tick(cb.cfg.interval, cb.clock, now).0));
  }

  lemma AdvancedForward(tx: Tx, tx': Tx)
    requires Advanced(tx, tx')
    ensures Forward(tx, tx')
  {}

  /** No call of any kind breaks the order or moves snd_una or snd_nxt back. */
  lemma CallKeepsOrder(cb: Cb, call: Call)
    requires Ordered(cb)
    ensures Ordered(After(cb, call)) && Forward(cb.tx, After(cb, call).tx)
  {
    hide Ordered, Forward, Advanced, Send, Input, Flush, Update, PeekSize, RxAfterRecv, Join;
    match call
    case CallSend(data) => SendKeepsOrder(cb, data);
    case CallRecv(len) =>
      RecvKeepsOrder(cb, len);
      SameForward(cb.tx);
    case CallInput(bytes) =>
      InputKeepsOrder(cb, bytes);
      AdvancedForward(cb.tx, Input(cb, bytes).0.tx);
    case CallFlush => FlushKeepsOrder(cb);
    case CallUpdate(now) => UpdateKeepsOrder(cb, now);
  }

  lemma FreshOrdered(cfg: Config, rcvWnd: u32)
    requires rcvWnd < 0x8000_0000
    ensures Ordered(Create(cfg, rcvWnd))
  {}

  /** The queue invariant of every reachable control block; no step of the way
      there moved snd_una or snd_nxt back. */
  lemma {:induction false} AlwaysOrdered(cfg: Config, rcvWnd: u32, calls: seq<Call>)
    requires rcvWnd < 0x8000_0000
    ensures Ordered(AfterAll(Create(cfg, rcvWnd), calls))
    ensures forall k :: 0 <= k < |calls| ==>
              Forward(AfterAll(Create(cfg, rcvWnd), calls[..k]).tx, AfterAll(Create(cfg, rcvWnd), calls[..k + 1]).tx)
  {
    hide After, Forward, Ordered, Create;
    FreshOrdered(cfg, rcvWnd);
    if calls == [] {
    } else {
      var cb, last := Create(cfg, rcvWnd), |calls| - 1;
      AlwaysOrdered(cfg, rcvWnd, calls[..last]);
      CallKeepsOrder(AfterAll(cb, calls[..last]), calls[last]);
      forall k | 0 <= k < |calls|
        ensures Forward(AfterAll(cb, calls[..k]).tx, AfterAll(cb, calls[..k + 1]).tx)
      {
        assert calls[..last][..k] == calls[..k];
        assert k < last ==> calls[..last][..k + 1] == calls[..k + 1];
        assert calls[..last + 1] == calls;
      }
    }
  }
}
