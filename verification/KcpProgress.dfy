/** No dead ends: from every state that a run of two peers and their network can
    reach, some further run without a new message delivers everything. */
module KcpProgress {
  import opened Seqs
  import opened Words
  import opened KcpWire
  import opened KcpSpec
  import opened KcpUnbounded
  import opened KcpMessages
  import opened KcpNetwork
  import opened KcpDelivery
  import KcpControl
  import KcpFlush
  import KcpQueues

  // ---- runs that lead from one state to another ----

  predicate NoSends(steps: seq<Step>) {
    forall i :: 0 <= i < |steps| ==> !steps[i].action.DoSend?
  }

  ghost predicate Leading(n: Net, steps: seq<Step>, m: Net) {
    Run(n, steps) && After(n, steps) == m && NoSends(steps)
  }

  ghost predicate Leads(n: Net, m: Net) {
    exists steps: seq<Step> :: Leading(n, steps, m)
  }

  lemma LeadsSelf(n: Net)
    ensures Leads(n, n)
  {
    assert Leading(n, [], n);
  }

  lemma LeadsOne(n: Net, action: Action)
    requires Possible(n, action) && !action.DoSend?
    ensures Leads(n, Act(n, action))
  {
    hide Possible, Act;
    var steps := [Step(true, action)];
    assert steps[..0] == [];
    assert After(n, []) == n && Run(n, []);
    assert After(n, steps) == Act(n, action) && Run(n, steps);
    assert Leading(n, steps, Act(n, action));
  }

  lemma {:induction false} AfterConcat(n: Net, steps: seq<Step>, more: seq<Step>)
    ensures After(n, steps + more) == After(After(n, steps), more)
    ensures Run(n, steps + more) <==> Run(n, steps) && Run(After(n, steps), more)
  {
    hide Possible, KcpDelivery.Next;
    if more == [] {
      assert steps + more == steps;
    } else {
      var init := more[..|more| - 1];
      AfterConcat(n, steps, init);
      assert (steps + more)[..|steps + more| - 1] == steps + init;
    }
  }

  lemma LeadsOn(n: Net, m: Net, k: Net)
    requires Leads(n, m) && Leads(m, k)
    ensures Leads(n, k)
  {
    hide Run, After;
    var steps: seq<Step> :| Leading(n, steps, m);
    var more: seq<Step> :| Leading(m, more, k);
    AfterConcat(n, steps, more);
    assert Leading(n, steps + more, k);
  }

  function Flipped(steps: seq<Step>): (r: seq<Step>)
    ensures |r| == |steps|
  {
    seq(|steps|, i requires 0 <= i < |steps| => Step(!steps[i].left, steps[i].action))
  }

  /** Both ends are alike. */
  lemma {:induction false} RunSwaps(n: Net, steps: seq<Step>)
    ensures After(Swap(n), Flipped(steps)) == Swap(After(n, steps))
    ensures Run(n, steps) ==> Run(Swap(n), Flipped(steps))
  {
    hide Possible, Act;
    if steps != [] {
      var init := steps[..|steps| - 1];
      RunSwaps(n, init);
      assert Flipped(steps)[..|steps| - 1] == Flipped(init);
    }
  }

  lemma LeadsSwapped(n: Net, m: Net)
    requires Leads(n, m)
    ensures Leads(Swap(n), Swap(m))
  {
    hide Run, After;
    var steps: seq<Step> :| Leading(n, steps, m);
    RunSwaps(n, steps);
    assert Leading(Swap(n), Flipped(steps), Swap(m));
  }

  // ---- what a run without a new message keeps ----

  /** A window that the 16-bit field of a header shows as open while less than a
      longest message waits in the receive queue. */
  ghost predicate Serviceable(p: Peer) {
    p.cb.cfg.sndWnd >= 1 && p.id.rx.wnd % 0x1_0000 >= 128
  }

  ghost predicate Served(n: Net) {
    Serviceable(n.a) && Serviceable(n.b)
  }

  ghost predicate Good(n: Net) {
    Inv(n) && BothOrdered(n)
  }

  ghost predicate PeerOnward(p: Peer, p': Peer) {
    p'.cb.cfg == p.cb.cfg && p'.sent == p.sent && p.got <= p'.got
    && p.id.tx.una <= p'.id.tx.una && p.id.tx.nxt <= p'.id.tx.nxt && RxLater(p.id.rx, p'.id.rx)
  }

  ghost predicate Onward(n: Net, m: Net) {
    PeerOnward(n.a, m.a) && PeerOnward(n.b, m.b)
  }

  lemma OnwardTwice(n: Net, m: Net, k: Net)
    requires Onward(n, m) && Onward(m, k)
    ensures Onward(n, k)
  {}

  lemma PeerStays(p: Peer)
    ensures PeerOnward(p, p)
  {}

  lemma RecvOnward(n: Net, len: int)
    ensures Onward(n, Act(n, DoRecv(len)))
  {
    hide Recv, IAfterRecv, Stored;
    PeerStays(n.a);
    PeerStays(n.b);
    if Recv(n.a.cb, len).ret >= 0 {
      RecvEffect(n, len);
      AfterRecvLater(n.a.id.rx, len < 0);
    } else {
      RecvRefused(n, len);
    }
  }

  lemma {:induction false} FillOnward(tx: ITx, cwnd: nat)
    ensures IFill(tx, cwnd).una == tx.una && IFill(tx, cwnd).nxt >= tx.nxt
    decreases |tx.queue|
  {
    if tx.nxt < tx.una + cwnd && tx.queue != [] {
      FillOnward(IFillOne(tx), cwnd);
    }
  }

  lemma TransmitOnward(n: Net, cb: Cb)
    requires SameButClock(cb, n.a)
    ensures Onward(n, Transmit(n, cb))
  {
    hide Flush, IFill, IResent, Datagrams, Stored;
    KcpControl.FlushKeepsCfg(cb);
    FillOnward(n.a.id.tx, SendWindow(cb));
    PeerStays(n.a);
    PeerStays(n.b);
  }

  lemma DeliverOnward(n: Net, d: Dgram)
    requires Inv(n) && Possible(n, DoDeliver(d))
    ensures Onward(n, Act(n, DoDeliver(d)))
  {
    hide Act, Inv, Possible, Hist, Taken, BothFlow, Refines;
    DeliverEffect(n, d);
    InputKeepsFlows(n, d);
    PeerStays(n.b);
  }

  lemma ActOnward(n: Net, action: Action)
    requires Inv(n) && Possible(n, action) && !action.DoSend?
    ensures Onward(n, Act(n, action))
  {
    hide Inv, Possible, Onward, Recv, Flush, IFlush, HearInput, Input, DecodeAll, Datagrams, Transmit;
    match action
    case DoRecv(len) => RecvOnward(n, len);
    case DoFlush => TransmitOnward(n, n.a.cb);
    case DoUpdate(now) =>
      TransmitOnward(n, AtTime(n.a.cb, now));
      ClockOnward(n, AtTime(n.a.cb, now));
    case DoDeliver(d) => DeliverOnward(n, d);
  }

  lemma ClockOnward(n: Net, cb: Cb)
    requires SameButClock(cb, n.a)
    ensures Onward(n, n.(a := n.a.(cb := cb)))
  {}

  /** The control block when ikcp_update is called at `now`, before it flushes. */
  function AtTime(cb: Cb, now: u32): Cb {
    cb.(clock := Tick(cb.cfg.interval, cb.clock, now).0)
  }

  lemma OnwardSwapped(n: Net, m: Net)
    requires Onward(n, m)
    ensures Onward(Swap(n), Swap(m))
  {}

  lemma {:induction false} RunOnward(n: Net, steps: seq<Step>)
    requires Inv(n) && Run(n, steps) && NoSends(steps)
    ensures Onward(n, After(n, steps))
  {
    hide Inv, Possible, Act, PeerOnward;
    if steps == [] {
      PeerStays(n.a);
      PeerStays(n.b);
    } else {
      var init, last := steps[..|steps| - 1], steps[|steps| - 1];
      RunOnward(n, init);
      RunKeepsInv(n, init);
      var m := After(n, init);
      SwapKeepsInv(m);
      var k := if last.left then m else Swap(m);
      ActOnward(k, last.action);
      OnwardSwapped(k, Act(k, last.action));
      OnwardTwice(n, m, After(n, steps));
    }
  }

  lemma ServedOnward(n: Net, m: Net)
    requires Served(n) && Onward(n, m)
    ensures Served(m)
  {}

  lemma ServiceableOnward(p: Peer, p': Peer)
    requires Serviceable(p) && PeerOnward(p, p')
    ensures Serviceable(p')
  {}

  lemma LeadsGood(n: Net, m: Net)
    requires Good(n) && Leads(n, m)
    ensures Good(m) && Onward(n, m)
  {
    hide Inv, BothOrdered, Run, After, PeerOnward;
    var steps: seq<Step> :| Leading(n, steps, m);
    RunKeepsInv(n, steps);
    RunKeepsOrdered(n, steps);
    RunOnward(n, steps);
  }

  lemma GoodSwapped(n: Net)
    requires Good(n)
    ensures Good(Swap(n))
  {
    hide Inv, KcpQueues.Ordered;
    SwapKeepsInv(n);
  }

  // ---- the application receives ----

  /** The receiving application does not touch what a peer sends. */
  ghost predicate OnlyReceived(p: Peer, p': Peer) {
    p'.cb.tx == p.cb.tx && p'.id.tx == p.id.tx && p'.cb.acks == p.cb.acks && p'.id.acks == p.id.acks
    && p'.cb.cc == p.cb.cc && p'.cb.clock == p.cb.clock && p'.cb.probe.ask == p.cb.probe.ask
    && (p.cb.probe.tell ==> p'.cb.probe.tell)
  }

  lemma TakenOne(n: Net)
    requires Good(n) && PeekSize(n.a.cb.rx.queue) >= 0
    ensures var m := Act(n, DoRecv(PeekSize(n.a.cb.rx.queue)));
            Good(m) && Leads(n, m) && m == n.(a := m.a) && OnlyReceived(n.a, m.a)
            && |n.a.got| < |m.a.got| <= |n.b.sent|
  {
    hide Act, Inv, BothOrdered, IAfterRecv, RxAfterRecv, PeekSize, Join, MessageLen, Leads, Onward;
    var len := PeekSize(n.a.cb.rx.queue);
    PeekedMeansSome(n.a.cb.rx.queue);
    RecvEffect(n, len);
    RecvChanges(n, len);
    LeadsOne(n, DoRecv(len));
    LeadsGood(n, Act(n, DoRecv(len)));
    GotWithin(Act(n, DoRecv(len)));
  }

  lemma PeekedMeansSome(queue: seq<Frag>)
    requires PeekSize(queue) >= 0
    ensures queue != []
  {}

  lemma RecvChanges(n: Net, len: int)
    ensures OnlyReceived(n.a, Act(n, DoRecv(len)).a)
  {
    hide IAfterRecv, RxAfterRecv, PeekSize, Join, MessageLen;
  }

  lemma GotWithin(n: Net)
    requires Inv(n)
    ensures |n.a.got| <= |n.b.sent| && |n.b.got| <= |n.a.sent|
  {}

  /** The application takes all messages that are there; fewer segments than a
      longest message has are left. */
  lemma {:induction false} Receives(n: Net) returns (m: Net)
    requires Good(n)
    ensures Good(m) && Leads(n, m) && m == n.(a := m.a) && OnlyReceived(n.a, m.a)
    ensures PeekSize(m.a.cb.rx.queue) < 0 && |m.a.cb.rx.queue| < WND_RCV
    decreases |n.b.sent| - |n.a.got|
  {
    hide Act, Good, Leads, PeekSize;
    if PeekSize(n.a.cb.rx.queue) >= 0 {
      var k := Act(n, DoRecv(PeekSize(n.a.cb.rx.queue)));
      TakenOne(n);
      m := Receives(k);
      LeadsOn(n, k, m);
    } else {
      m := n;
      LeadsSelf(n);
      ShortQueue(n);
    }
  }

  lemma ShortQueue(n: Net)
    requires Good(n) && PeekSize(n.a.cb.rx.queue) < 0
    ensures |n.a.cb.rx.queue| < WND_RCV
  {
    hide BothOrdered, Serviceable, PeekSize, Flows, HonestNet;
    FullQueueHasMessage(n.b, n.a, n.ba);
  }

  // ---- one flush ----

  /** ikcp_update, and ikcp_flush if that was not due: either way one flush at time `now`. */
  lemma FlushAt(n: Net, now: u32)
    ensures Leads(n, Transmit(n, AtTime(n.a.cb, now)))
  {
    hide Flush, IFlush, Datagrams, Leads;
    var cb := AtTime(n.a.cb, now);
    var m := Act(n, DoUpdate(now));
    LeadsOne(n, DoUpdate(now));
    if m != Transmit(n, cb) {
      LeadsOne(m, DoFlush);
      LeadsOn(n, m, Transmit(n, cb));
    }
  }

  lemma AtTimeIs(n: Net, now: u32)
    ensures var cb := AtTime(n.a.cb, now);
            SameButClock(cb, n.a) && cb.clock.updated && cb.clock.current == now
  {}

  /** What a flush leaves behind. */
  lemma FlushLeaves(cb: Cb)
    requires cb.clock.updated
    ensures var cb' := Flush(cb).0;
            cb'.acks == [] && !cb'.probe.ask && !cb'.probe.tell && cb'.cc.rmtWnd == cb.cc.rmtWnd && cb'.cc.cwnd >= 1
            && cb'.rx == cb.rx && cb'.cfg == cb.cfg
            && (cb.cc.rmtWnd == 0 && cb.probe.wait == 0 ==> cb'.probe.wait != 0)
  {
    hide FlushBuf, FillWindow, PackAll, FlushPackets;
  }

  /** Everything a flush sends carries the window the receiver has left ... */
  lemma {:induction false} AckWindows(cb: Cb, n: nat)
    requires n <= |cb.acks|
    ensures forall p :: p in AckPackets(cb, n) ==> p.wnd == WndUnused(cb.rx) % 0x1_0000
  {
    if n > 0 {
      AckWindows(cb, n - 1);
    }
  }

  lemma {:induction false} PushWindows(cb: Cb, buf: seq<SndSeg>)
    ensures forall p :: p in FlushBuf(cb, buf).sent ==> p.wnd == WndUnused(cb.rx) % 0x1_0000
  {
    if buf != [] {
      PushWindows(cb, buf[..|buf| - 1]);
    }
  }

  lemma Windows(cb: Cb)
    ensures forall p :: p in FlushPackets(cb) ==> p.wnd == WndUnused(cb.rx) % 0x1_0000
  {
    hide FlushBuf, AckPackets, Filled, Probing;
    AckWindows(cb, |cb.acks|);
    PushWindows(cb, Filled(cb).buf);
  }

  /** ... and the number it wants next. */
  lemma {:induction false} AckUnas(id: Ideal, n: nat)
    requires n <= |id.acks|
    ensures |AckMarks(id, n)| == n
    ensures forall i :: 0 <= i < n ==> AckMarks(id, n)[i] == Mark(id.acks[i], id.rx.nxt)
  {
    if n > 0 {
      AckUnas(id, n - 1);
    }
  }

  lemma {:induction false} RepeatedMark(m: Mark, n: nat)
    ensures |RepeatMark(m, n)| == n && forall i :: 0 <= i < n ==> RepeatMark(m, n)[i] == m
  {
    if n > 0 {
      RepeatedMark(m, n - 1);
    }
  }

  /** The marks of data: one for each packet, of a number in flight. */
  lemma {:induction false} PushUnas(cb: Cb, buf: seq<SndSeg>, nums: seq<Num>, una: int)
    requires |buf| == |nums|
    ensures |PushMarks(cb, buf, nums, una)| == |FlushBuf(cb, buf).sent|
    ensures forall i :: 0 <= i < |PushMarks(cb, buf, nums, una)| ==>
              PushMarks(cb, buf, nums, una)[i].una == una && InBuf(nums, PushMarks(cb, buf, nums, una)[i].no)
    ensures forall i :: 0 <= i < |FlushBuf(cb, buf).sent| ==> FlushBuf(cb, buf).sent[i].cmd == CMD_PUSH
  {
    if buf != [] {
      var k := |buf| - 1;
      PushUnas(cb, buf[..k], nums[..k], una);
      assert nums[k].no == nums[k].no;
      assert InBuf(nums, nums[k].no);
      forall no: int | InBuf(nums[..k], no)
        ensures InBuf(nums, no)
      {
        var i :| 0 <= i < k && nums[..k][i].no == no;
        assert nums[i].no == no;
      }
    }
  }

  // ---- what a flush sends arrives ----

  /** The acknowledgements kept by `r` are not half a circle old. */
  ghost predicate AcksFresh(r: Ideal, s: Ideal) {
    forall i :: 0 <= i < |r.acks| ==> s.tx.nxt - 0x8000_0000 <= r.acks[i]
  }

  lemma FreshConcat(to: Ideal, from: Ideal, ps: seq<Packet>, ms: seq<Mark>, qs: seq<Packet>, ns: seq<Mark>)
    requires Fresh(to, from, ps, ms) && Fresh(to, from, qs, ns)
    ensures Fresh(to, from, ps + qs, ms + ns)
  {}

  lemma FreshPrefix(to: Ideal, from: Ideal, ps: seq<Packet>, ms: seq<Mark>, k: nat)
    requires Fresh(to, from, ps, ms) && k <= |ps|
    ensures Fresh(to, from, ps[..k], ms[..k])
  {}

  lemma AcksAreFresh(to: Ideal, from: Ideal, cb: Cb, id: Ideal)
    requires AcksRefine(cb.acks, id.acks) && AcksFresh(id, to) && to.tx.nxt - 0x8000_0000 <= id.rx.nxt
    ensures Fresh(to, from, AckPackets(cb, |cb.acks|), AckMarks(id, |id.acks|))
  {
    KcpFlush.AcksGood(cb, |cb.acks|);
    AckUnas(id, |id.acks|);
  }

  lemma ProbesAreFresh(to: Ideal, from: Ideal, cb: Cb, id: Ideal)
    requires to.tx.nxt - 0x8000_0000 <= id.rx.nxt
    ensures Fresh(to, from, ProbePackets(cb), RepeatMark(Mark(0, id.rx.nxt), |ProbePackets(cb)|))
  {
    RepeatedMark(Mark(0, id.rx.nxt), |ProbePackets(cb)|);
  }

  lemma PushesAreFresh(to: Ideal, from: Ideal, cb: Cb, buf: seq<SndSeg>, nums: seq<Num>, una: int)
    requires |buf| == |nums| && IWithin(nums, from.tx.nxt - 0xffff, from.tx.nxt) && to.tx.nxt - 0x8000_0000 <= una
    ensures Fresh(to, from, FlushBuf(cb, buf).sent, PushMarks(cb, buf, nums, una))
  {
    PushUnas(cb, buf, nums, una);
    forall no: int | InBuf(nums, no)
      ensures from.tx.nxt - 0x8000_0000 <= no
    {
      var i :| 0 <= i < |nums| && nums[i].no == no;
    }
  }

  /** Nothing in a flush is half a circle old for the other end. */
  lemma FlushFresh(n: Net, cb: Cb)
    requires Good(n) && SameButClock(cb, n.a) && cb.clock.updated && AcksFresh(n.a.id, n.b.id)
    ensures |Filled(cb).buf| == |IFill(n.a.id.tx, SendWindow(cb)).buf| && Refines(cb, n.a.id)
    ensures Fresh(n.b.id, IFlush(cb, n.a.id), FlushPackets(cb), FlushMarks(cb, n.a.id))
  {
    hide Fresh, AcksFresh, Hist, Taken, Flows, HonestNet, FlushBuf, AckPackets, ProbePackets, Stream, BothOrdered,
         Serviceable, SegsRefine, SkipsRefine, RcvRefine, FillWindow, IResent, IWithin;
    var to, id, from := n.b.id, n.a.id, IFlush(cb, n.a.id);
    FlightBounded(Hist(n.b), to, id, Taken(n.b, n.a));
    FlushTransmits(n.a, n.b, n.ab, cb);
    FillRefines(cb, cb.tx, id.tx, SendWindow(cb));
    FlushRefines(cb, id);
    var tx := IFill(id.tx, SendWindow(cb));
    Widened(tx);
    AcksAreFresh(to, from, cb, id);
    ProbesAreFresh(to, from, cb, id);
    PushesAreFresh(to, from, cb, Filled(cb).buf, tx.buf, id.rx.nxt);
    FreshConcat(to, from, AckPackets(cb, |cb.acks|), AckMarks(id, |id.acks|),
                ProbePackets(cb), RepeatMark(Mark(0, id.rx.nxt), |ProbePackets(cb)|));
    FreshConcat(to, from, AckPackets(cb, |cb.acks|) + ProbePackets(cb),
                AckMarks(id, |id.acks|) + RepeatMark(Mark(0, id.rx.nxt), |ProbePackets(cb)|),
                FlushBuf(cb, Filled(cb).buf).sent, PushMarks(cb, Filled(cb).buf, tx.buf, id.rx.nxt));
  }

  lemma Widened(tx: ITx)
    requires ITxOrdered(tx)
    ensures IWithin(tx.buf, tx.nxt - 0xffff, tx.nxt)
  {}

  lemma {:induction false} TagFirst(conv: u32, groups: seq<seq<Packet>>, marks: seq<Mark>)
    requires SendableGroups(groups) && |Flatten(groups)| <= |marks| && groups != []
    ensures |Tag(conv, groups, marks)| == |groups| && |groups[0]| <= |Flatten(groups)|
    ensures Tag(conv, groups, marks)[0] == Dgram(EncodeAll(conv, groups[0]), marks[..|groups[0]|])
  {
    var init := groups[..|groups| - 1];
    if init == [] {
      assert Flatten(groups) == groups[0];
    } else {
      TagFirst(conv, init, marks);
    }
  }

  /** The first datagram of a flush: the first so many of its packets. */
  lemma FirstDatagram(n: Net, cb: Cb) returns (d: Dgram, k: nat)
    requires Good(n) && SameButClock(cb, n.a) && cb.clock.updated && AcksFresh(n.a.id, n.b.id) && FlushPackets(cb) != []
    ensures |Filled(cb).buf| == |IFill(n.a.id.tx, SendWindow(cb)).buf| && Refines(cb, n.a.id)
    ensures d in Transmit(n, cb).ab && 0 < k <= |FlushPackets(cb)| == |FlushMarks(cb, n.a.id)|
    ensures DecodeAll(cb.cfg.conv, d.bytes) == Decoded(FlushPackets(cb)[..k], 0) && |d.bytes| >= OVERHEAD
    ensures d.marks == FlushMarks(cb, n.a.id)[..k]
    ensures Fresh(n.b.id, IFlush(cb, n.a.id), FlushPackets(cb)[..k], d.marks)
  {
    hide FlushPackets, FlushMarks, Fresh, HonestNet, IFlush, Refines, Hist, Taken, BothOrdered, Serviceable;
    FlushFresh(n, cb);
    SameLength(n.b.id, IFlush(cb, n.a.id), FlushPackets(cb), FlushMarks(cb, n.a.id));
    StoredAcks(n);
    DatagramsHonest(n.a, n.b, n.ab, cb);
    FlushTransmits(n.a, n.b, n.ab, cb);
    KcpFlush.FlushRoundTrip(cb);
    var gs := Flush(cb).1;
    FlattenHead(gs);
    k := |gs[0]|;
    TagFirst(cb.cfg.conv, gs, FlushMarks(cb, n.a.id));
    d := Datagrams(cb, n.a.id)[0];
    assert gs[0] == FlushPackets(cb)[..k];
    FreshPrefix(n.b.id, IFlush(cb, n.a.id), FlushPackets(cb), FlushMarks(cb, n.a.id), k);
    DatagramSize(cb.cfg.conv, gs[0]);
  }

  lemma SameLength(to: Ideal, from: Ideal, ps: seq<Packet>, ms: seq<Mark>)
    requires Fresh(to, from, ps, ms)
    ensures |ps| == |ms|
  {}

  lemma StoredAcks(n: Net)
    requires Inv(n)
    ensures AcksHold(n.a.id.acks, n.a.id.rx, n.b.id.tx.nxt)
  {
    AcksAreStored(n.b, n.a);
  }

  lemma DatagramSize(conv: u32, ps: seq<Packet>)
    requires Sendable(ps) && ps != []
    ensures |EncodeAll(conv, ps)| >= OVERHEAD
  {
    EncodeAllSize(conv, ps);
    SizeSnoc(ps[..|ps| - 1], ps[|ps| - 1]);
    assert ps == ps[..|ps| - 1] + [ps[|ps| - 1]];
  }

  // ---- what the first packet brings about ----

  /** ikcp_input took in the packets of one datagram. */
  ghost predicate TookIn(p: Peer, p': Peer, ps: seq<Packet>, ms: seq<Mark>) {
    |ps| == |ms| && p'.sent == p.sent && p'.got == p.got
    && p'.cb == FinishInput(ProcessAll(InState(p.cb, false, 0), ps), p.cb.tx.una)
    && p'.id == IFinish(HearAll(IState(p.id, false, 0), ps, ms))
  }

  /** A datagram of the other end arrives. */
  lemma Arrives(n: Net, d: Dgram, ps: seq<Packet>)
    requires Good(n) && Possible(n, DoDeliver(d)) && DecodeAll(n.a.cb.cfg.conv, d.bytes) == Decoded(ps, 0)
    requires |d.bytes| >= OVERHEAD
    ensures var m := Act(n, DoDeliver(d));
            Leads(n, m) && Good(m) && Onward(n, m) && m == n.(a := m.a) && TookIn(n.a, m.a, ps, d.marks)
  {
    hide Act, Inv, BothOrdered, Serviceable, Leads, Onward, Possible, HearAll, ProcessAll, FinishInput, IFinish;
    DeliverEffect(n, d);
    LeadsOne(n, DoDeliver(d));
    LeadsGood(n, Act(n, DoDeliver(d)));
  }

  /** The oldest number wanted by the sender of a packet is a bound at once. */
  lemma FirstStep(hist: seq<Frag>, a: Ideal, b: Ideal, taken: nat, p: Packet, m: Mark)
    requires Flows(hist, a, b, taken) && ITxOrdered(a.tx) && m.una <= b.rx.nxt
    ensures m.una <= IPacket(a, p, m).tx.una
    ensures p.cmd == CMD_PUSH && m.no < a.rx.nxt + a.rx.wnd ==>
              Stored(IPacket(a, p, m).rx, m.no) && IPacket(a, p, m).acks != []
  {
    hide IData, IDropAcked;
    UnaReached(a.tx, m.una);
    if p.cmd == CMD_ACK {
      AckReached(IUna(a.tx, m.una), m.no);
    } else if p.cmd == CMD_PUSH {
      DataLater(a.rx, Num(m.no, Frag(p.frg, p.data), 0));
    }
  }

  lemma UnaReached(tx: ITx, una: int)
    requires ITxOrdered(tx) && una <= tx.nxt
    ensures una <= IUna(tx, una).una && ITxOrdered(IUna(tx, una))
  {
    IDropBelowIsSuffix(tx.buf, una);
    DropBelowStops(tx.buf, una);
    var buf := IDropBelow(tx.buf, una);
    IShrinkOrders(tx.(buf := buf));
  }

  lemma {:induction false} DropBelowStops(nums: seq<Num>, una: int)
    ensures IDropBelow(nums, una) != [] ==> una <= IDropBelow(nums, una)[0].no
  {
    if nums != [] && nums[0].no < una {
      DropBelowStops(nums[1..], una);
    }
  }

  lemma AckReached(tx: ITx, no: int)
    requires ITxOrdered(tx)
    ensures tx.una <= IAck(tx, no).una
  {
    IDropAckedWithin(tx.buf, no, tx.una, tx.nxt);
    IShrinkOrders(tx.(buf := IDropAcked(tx.buf, no)));
    IShrinkOrders(tx);
  }

  /** Acknowledgements are only added, those of the data that was taken in. */
  lemma AcksGrow(a: Ideal, b: Ideal, p: Packet, m: Mark)
    requires p.cmd == CMD_PUSH ==> b.tx.nxt - 0x8000_0000 <= m.no
    ensures a.acks <= IPacket(a, p, m).acks
    ensures AcksFresh(a, b) ==> AcksFresh(IPacket(a, p, m), b)
  {
    hide IUna, IAck, IData;
  }

  /** Whatever follows in the same datagram. */
  lemma {:induction false} FirstCounts(histA: seq<Frag>, histB: seq<Frag>, st: InState, a: Ideal, b: Ideal,
                                       takenA: nat, takenB: nat, ps: seq<Packet>, ms: seq<Mark>)
    requires BothFlow(histA, histB, a, b, takenA, takenB) && ITxOrdered(b.tx) && a.rx.wnd <= 0x7fff_0000
    requires Fresh(a, b, ps, ms) && HonestAll(histB, b, a.tx.nxt, ps, ms) && InRefines(st, IState(a, false, 0)) && ps != []
    requires ITxOrdered(a.tx)
    ensures var id := HearAll(IState(a, false, 0), ps, ms).id;
            ms[0].una <= id.tx.una && (AcksFresh(a, b) ==> AcksFresh(id, b))
            && (ps[0].cmd == CMD_PUSH && a.rx.nxt + a.rx.wnd - 0x8000_0000 <= ms[0].no < a.rx.nxt + a.rx.wnd ==>
                  Stored(id.rx, ms[0].no) && id.acks != [])
  {
    hide BothFlow, InRefines, ProcessPacket, IPacket, ITxOrdered, Stored, AcksFresh, Flows, Honest;
    var k := |ps| - 1;
    PacketsKeepFlows(histA, histB, st, a, b, takenA, takenB, ps[..k], ms[..k]);
    var ist := HearAll(IState(a, false, 0), ps[..k], ms[..k]);
    FreshAfter(a, ist.id, b, ps, ms);
    assert Honest(histB, b, a.tx.nxt, ps[k], ms[k]);
    PacketHeard(histA, histB, ProcessAll(st, ps[..k]), ist, b, takenA, takenB, ps, ms, k);
    AcksGrow(ist.id, b, Heard(ist.id, ps[k], ms[k]), ms[k]);
    if k == 0 {
      assert ist == IState(a, false, 0);
      FirstHeard(histA, histB, a, b, takenA, takenB, ps[0], ms[0]);
    } else {
      FirstCounts(histA, histB, st, a, b, takenA, takenB, ps[..k], ms[..k]);
    }
  }

  lemma FirstHeard(histA: seq<Frag>, histB: seq<Frag>, a: Ideal, b: Ideal, takenA: nat, takenB: nat, p: Packet, m: Mark)
    requires BothFlow(histA, histB, a, b, takenA, takenB) && ITxOrdered(a.tx) && Honest(histB, b, a.tx.nxt, p, m)
    ensures var id := IPacket(a, Heard(a, p, m), m);
            m.una <= id.tx.una
            && (p.cmd == CMD_PUSH && a.rx.nxt + a.rx.wnd - 0x8000_0000 <= m.no < a.rx.nxt + a.rx.wnd ==>
                  Stored(id.rx, m.no) && id.acks != [])
  {
    hide IPacket, Flows, Stored, ITxOrdered;
    FirstStep(histA, a, b, takenA, Heard(a, p, m), m);
  }

  lemma PacketTells(st: InState, p: Packet)
    requires st.cb.probe.tell || p.cmd == CMD_WASK
    ensures ProcessPacket(st, p).cb.probe.tell
  {
    hide ParseUna, ParseAck, ParseData, ShrinkBuf, UpdateAck, BelowWindowEnd, TimeDiff;
  }

  /** A window probe makes the receiver tell its window. */
  lemma {:induction false} ProbeTells(st: InState, ps: seq<Packet>)
    requires st.cb.probe.tell || (ps != [] && ps[0].cmd == CMD_WASK)
    ensures ProcessAll(st, ps).cb.probe.tell
  {
    hide ProcessPacket;
    if ps != [] {
      var k := |ps| - 1;
      if k > 0 || st.cb.probe.tell {
        ProbeTells(st, ps[..k]);
      }
      PacketTells(ProcessAll(st, ps[..k]), ps[k]);
    }
  }

  lemma LastWindow(st: InState, ps: seq<Packet>)
    requires ps != []
    ensures ProcessAll(st, ps).cb.cc.rmtWnd == ps[|ps| - 1].wnd
  {}

  lemma FinishKeeps(st: InState, una: u32)
    ensures FinishInput(st, una).probe == st.cb.probe && FinishInput(st, una).cc.rmtWnd == st.cb.cc.rmtWnd
  {}

  /** Number `no` is within the receive window, or behind it by less than half a circle. */
  predicate WithinReach(rx: IRx, no: int) {
    rx.nxt + rx.wnd - 0x8000_0000 <= no < rx.nxt + rx.wnd
  }

  lemma TookInCounts(n: Net, d: Dgram, ps: seq<Packet>, p: Peer)
    requires Good(n) && Possible(n, DoDeliver(d)) && DecodeAll(n.a.cb.cfg.conv, d.bytes) == Decoded(ps, 0)
    requires TookIn(n.a, p, ps, d.marks) && ps != []
    ensures d.marks[0].una <= p.id.tx.una && (AcksFresh(n.a.id, n.b.id) ==> AcksFresh(p.id, n.b.id))
    ensures ps[0].cmd == CMD_PUSH && WithinReach(n.a.id.rx, d.marks[0].no) ==>
              Stored(p.id.rx, d.marks[0].no) && p.id.acks != []
    ensures ps[0].cmd == CMD_WASK ==> p.cb.probe.tell
    ensures p.cb.cc.rmtWnd == ps[|ps| - 1].wnd
  {
    hide HearAll, ProcessAll, FinishInput, IFinish, Stored, BothOrdered, Serviceable, Honest, Fresh, AcksFresh, DecodeAll,
         Flows, Hist, Taken, Refines;
    var a, b, st := n.a, n.b, InState(n.a.cb, false, 0);
    assert HonestDgram(b.cb.cfg.conv, Hist(b), b.id, a.id.tx.nxt, d);
    PeerOrdered(a);
    PeerOrdered(b);
    assert InRefines(st, IState(a.id, false, 0));
    FirstCounts(Hist(a), Hist(b), st, a.id, b.id, Taken(a, b), Taken(b, a), ps, d.marks);
    PacketsKeepFlows(Hist(a), Hist(b), st, a.id, b.id, Taken(a, b), Taken(b, a), ps, d.marks);
    FinishKeepsFlows(Hist(a), Hist(b), HearAll(IState(a.id, false, 0), ps, d.marks), b.id, Taken(a, b), Taken(b, a));
    SameAcksFresh(HearAll(IState(a.id, false, 0), ps, d.marks).id, p.id, b.id);
    SameStored(HearAll(IState(a.id, false, 0), ps, d.marks).id.rx, p.id.rx, d.marks[0].no);
    if ps[0].cmd == CMD_WASK {
      ProbeTells(st, ps);
    }
    LastWindow(st, ps);
    FinishKeeps(ProcessAll(st, ps), a.cb.tx.una);
  }

  lemma SameAcksFresh(r: Ideal, r': Ideal, s: Ideal)
    requires r'.acks == r.acks
    ensures AcksFresh(r', s) <==> AcksFresh(r, s)
  {}

  lemma SameStored(rx: IRx, rx': IRx, no: int)
    requires rx' == rx
    ensures Stored(rx', no) <==> Stored(rx, no)
  {}

  /** One flush at time `now` and the arrival of its first datagram. */
  ghost predicate FlushedAndHeard(n: Net, now: u32, m: Net, ps: seq<Packet>, ms: seq<Mark>) {
    && Good(m) && Leads(n, m) && Onward(n, m)
    && m.a == Transmit(n, AtTime(n.a.cb, now)).a && m.ab == Transmit(n, AtTime(n.a.cb, now)).ab && m.ba == n.ba
    && m.b.got == n.b.got
    && ps != [] && |ms| == |ps|
    && ms[0].una <= m.b.id.tx.una && (n.b.id.acks == [] ==> AcksFresh(m.b.id, m.a.id))
    && (ps[0].cmd == CMD_PUSH && WithinReach(n.b.id.rx, ms[0].no) ==> Stored(m.b.id.rx, ms[0].no) && m.b.id.acks != [])
    && (ps[0].cmd == CMD_WASK ==> m.b.cb.probe.tell)
    && m.b.cb.cc.rmtWnd == ps[|ps| - 1].wnd
  }

  lemma FlushHeard(n: Net, now: u32) returns (m: Net, k: nat)
    requires Good(n) && AcksFresh(n.a.id, n.b.id) && FlushPackets(AtTime(n.a.cb, now)) != []
    ensures var cb := AtTime(n.a.cb, now);
            |Filled(cb).buf| == |IFill(n.a.id.tx, SendWindow(cb)).buf| && Refines(cb, n.a.id)
            && 0 < k <= |FlushPackets(cb)| == |FlushMarks(cb, n.a.id)|
            && FlushedAndHeard(n, now, m, FlushPackets(cb)[..k], FlushMarks(cb, n.a.id)[..k])
  {
    hide Good, Leads, Onward, Act, Run, After, FlushPackets, FlushMarks, Fresh, AcksFresh, Refines, Filled, IFill, Datagrams,
         TookIn, Stored, WithinReach, DecodeAll, Flush, IFlush, IResent;
    var cb := AtTime(n.a.cb, now);
    AtTimeIs(n, now);
    var d;
    d, k := FirstDatagram(n, cb);
    var t := Transmit(n, cb);
    FlushAt(n, now);
    LeadsGood(n, t);
    var u := Swap(t);
    GoodSwapped(t);
    SameConv(n);
    var ps := FlushPackets(cb)[..k];
    assert Possible(u, DoDeliver(d));
    Arrives(u, d, ps);
    TookInCounts(u, d, ps, Act(u, DoDeliver(d)).a);
    TookNoMessage(u.a, Act(u, DoDeliver(d)).a, ps, d.marks);
    m := Swap(Act(u, DoDeliver(d)));
    LeadsSwapped(u, Swap(m));
    GoodSwapped(Swap(m));
    OnwardSwapped(u, Swap(m));
    LeadsOn(n, t, m);
    OnwardTwice(n, t, m);
    NoneFresh(n.b.id, t.a.id);
  }

  lemma TookNoMessage(p: Peer, p': Peer, ps: seq<Packet>, ms: seq<Mark>)
    requires TookIn(p, p', ps, ms)
    ensures p'.got == p.got
  {}

  lemma NoneFresh(r: Ideal, s: Ideal)
    ensures r.acks == [] ==> AcksFresh(r, s)
  {}

  lemma SameConv(n: Net)
    requires Good(n)
    ensures n.a.cb.cfg.conv == n.b.cb.cfg.conv
  {}

  // ---- the pieces, at either end ----

  ghost predicate Reached(n: Net, m: Net) {
    Good(m) && Leads(n, m) && Onward(n, m)
  }

  lemma ReachedOn(n: Net, m: Net, k: Net)
    requires Reached(n, m) && Reached(m, k)
    ensures Reached(n, k)
  {
    hide Good, Leads, Onward;
    LeadsOn(n, m, k);
    OnwardTwice(n, m, k);
  }

  lemma ReachedSwapped(n: Net, m: Net)
    requires Reached(n, m)
    ensures Reached(Swap(n), Swap(m))
  {
    hide Good, Leads, Onward;
    GoodSwapped(m);
    LeadsSwapped(n, m);
    OnwardSwapped(n, m);
  }

  lemma PeerReceives(n: Net) returns (m: Net)
    requires Good(n)
    ensures Reached(n, m) && m.a == n.a && m.ba == n.ba && OnlyReceived(n.b, m.b)
    ensures PeekSize(m.b.cb.rx.queue) < 0 && |m.b.cb.rx.queue| < WND_RCV
  {
    hide Good, Leads, Onward, OnlyReceived, PeekSize;
    GoodSwapped(n);
    var u := Receives(Swap(n));
    LeadsGood(Swap(n), u);
    m := Swap(u);
    ReachedSwapped(Swap(n), u);
  }

  /** Nothing is left to be acknowledged, asked or told, and the congestion window is open. */
  ghost predicate Quiet(p: Peer) {
    p.cb.acks == [] && p.id.acks == [] && !p.cb.probe.ask && !p.cb.probe.tell && p.cb.cc.cwnd >= 1
  }

  /** A flush whose datagrams are all lost. */
  lemma Quiets(n: Net) returns (m: Net)
    requires Good(n)
    ensures Reached(n, m) && m.b == n.b && m.ba == n.ba && Quiet(m.a) && m.a.cb.cc.rmtWnd == n.a.cb.cc.rmtWnd
    ensures m.a.id.tx.una == n.a.id.tx.una && m.a.id.rx == n.a.id.rx && m.a.cb.rx == n.a.cb.rx
    ensures n.a.cb.cc.rmtWnd == 0 && n.a.cb.probe.wait == 0 ==> m.a.cb.probe.wait != 0
  {
    hide Good, Leads, Onward, Flush, Datagrams, IFill, IResent;
    var cb := AtTime(n.a.cb, 0);
    m := Transmit(n, cb);
    AtTimeIs(n, 0);
    FlushAt(n, 0);
    LeadsGood(n, m);
    FlushLeaves(cb);
    FillOnward(n.a.id.tx, SendWindow(cb));
  }

  lemma PeerQuiets(n: Net) returns (m: Net)
    requires Good(n)
    ensures Reached(n, m) && m.a == n.a && m.b.id.acks == [] && m.b.id.rx == n.b.id.rx && m.b.cb.rx == n.b.cb.rx
  {
    hide Good, Leads, Onward;
    GoodSwapped(n);
    var u := Quiets(Swap(n));
    m := Swap(u);
    ReachedSwapped(Swap(n), u);
  }

  lemma MarksUna(cb: Cb, id: Ideal)
    requires Refines(cb, id) && |Filled(cb).buf| == |IFill(id.tx, SendWindow(cb)).buf|
    ensures forall i :: 0 <= i < |FlushMarks(cb, id)| ==> FlushMarks(cb, id)[i].una == id.rx.nxt
  {
    hide Refines, Filled, IFill, ProbePackets, FlushBuf, AckMarks, RepeatMark, PushMarks;
    AckUnas(id, |id.acks|);
    RepeatedMark(Mark(0, id.rx.nxt), |ProbePackets(cb)|);
    PushUnas(cb, Filled(cb).buf, IFill(id.tx, SendWindow(cb)).buf, id.rx.nxt);
  }

  /** The other end flushes; the sender hears what it wants next and its window. */
  lemma PeerFlushHeard(n: Net) returns (m: Net)
    requires Good(n) && AcksFresh(n.b.id, n.a.id) && (n.b.cb.acks != [] || n.b.cb.probe.tell)
    ensures Reached(n, m) && n.b.id.rx.nxt <= m.a.id.tx.una
    ensures m.a.cb.cc.rmtWnd == WndUnused(n.b.cb.rx) % 0x1_0000
    ensures m.b == Transmit(Swap(n), AtTime(n.b.cb, 0)).a && m.ba == Transmit(Swap(n), AtTime(n.b.cb, 0)).ab
  {
    hide Good, Leads, Onward, FlushPackets, FlushMarks, Filled, IFill, Refines, AcksFresh, WndUnused, Stored;
    var cb, k: nat := AtTime(n.b.cb, 0), 0;
    GoodSwapped(n);
    SomethingSent(cb);
    var u;
    u, k := FlushHeard(Swap(n), 0);
    MarksUna(cb, n.b.id);
    Windows(cb);
    assert FlushPackets(cb)[..k][k - 1] in FlushPackets(cb);
    m := Swap(u);
    ReachedSwapped(Swap(n), u);
  }

  lemma SomethingSent(cb: Cb)
    ensures cb.acks != [] || cb.probe.tell ==> FlushPackets(cb) != []
  {
    hide FlushBuf, Filled;
    KcpFlush.AcksGood(cb, |cb.acks|);
  }

  // ---- a closed window is opened ----

  lemma ProbeDue(cb: Cb)
    requires cb.acks == [] && cb.cc.rmtWnd == 0 && cb.probe.wait != 0 && cb.clock.current == cb.probe.ts
    ensures FlushPackets(cb) != [] && FlushPackets(cb)[0].cmd == CMD_WASK
  {
    hide FlushBuf, Filled;
  }

  lemma WindowShown(p: Peer)
    requires PeerOk(p) && Serviceable(p) && |p.cb.rx.queue| < WND_RCV
    ensures WndUnused(p.cb.rx) % 0x1_0000 > 0
  {
    hide SegsRefine, SkipsRefine, RcvRefine, AcksRefine, ITxOrdered, IRxOrdered;
    var q := p.id.rx.wnd / 0x1_0000;
    assert WndUnused(p.cb.rx) == q * 0x1_0000 + (p.id.rx.wnd % 0x1_0000 - |p.cb.rx.queue|);
  }

  lemma GoodPeers(n: Net)
    requires Good(n)
    ensures PeerOk(n.a) && PeerOk(n.b)
  {}

  /** A sender that was told of no room asks at its next probe, is told, and has a window again. */
  lemma OpensWindow(n: Net) returns (m: Net)
    requires Good(n) && Served(n) && n.a.cb.cc.rmtWnd == 0
    ensures Reached(n, m) && m.a.cb.cc.rmtWnd > 0
  {
    hide Good, Leads, Onward, FlushPackets, FlushMarks, Filled, IFill, Refines, AcksFresh, WndUnused, Stored, WithinReach,
         Transmit, Tick, PeerOk, Serviceable;
    var n1 := PeerQuiets(n);
    var n2 := Quiets(n1);
    ReachedOn(n, n1, n2);
    if n2.a.cb.probe.wait == 0 {
      var n3 := Quiets(n2);
      ReachedOn(n, n2, n3);
      n2 := n3;
    }
    var now := n2.a.cb.probe.ts;
    AtTimeIs(n2, now);
    ProbeDue(AtTime(n2.a.cb, now));
    NoneFresh(n2.a.id, n2.b.id);
    var n4, k := FlushHeard(n2, now);
    ReachedOn(n, n2, n4);
    var n5 := PeerReceives(n4);
    ReachedOn(n, n4, n5);
    SameAcksFresh(n4.b.id, n5.b.id, n5.a.id);
    GoodPeers(n5);
    ServedOnward(n, n5);
    WindowShown(n5.b);
    m := PeerFlushHeard(n5);
    ReachedOn(n, n5, m);
  }

  // ---- the oldest segment gets through ----

  lemma {:induction false} FillExtends(cb: Cb, tx: Tx, cwnd: u32)
    ensures tx.buf <= FillWindow(cb, tx, cwnd).buf
    decreases |tx.queue|
  {
    if TimeDiff(tx.nxt, Wrap(tx.una + cwnd)) < 0 && tx.queue != [] {
      FillExtends(cb, FillOne(cb, tx), cwnd);
    }
  }

  /** An open window lets the first queued segment into an empty snd_buf. */
  lemma FillHead(cb: Cb, tx: Tx, cwnd: u32)
    requires 1 <= cwnd <= 0xffff && tx.buf == [] && tx.queue != [] && tx.una == tx.nxt
    ensures var buf := FillWindow(cb, tx, cwnd).buf; buf != [] && buf[0].xmit == 0
  {
    hide FillOne, Wrap, TimeDiff;
    WrapSame(tx.una);
    TimeDiffExact(tx.una, tx.una + cwnd);
    var tx1 := FillOne(cb, tx);
    FillExtends(cb, tx1, cwnd);
    FilledOne(cb, tx);
  }

  lemma FilledOne(cb: Cb, tx: Tx)
    requires tx.buf == [] && tx.queue != []
    ensures |FillOne(cb, tx).buf| == 1 && FillOne(cb, tx).buf[0].xmit == 0
  {}

  lemma DueHead(cb: Cb, s: SndSeg)
    requires s.xmit == 0 || s.resendts == cb.clock.current
    ensures DueNow(cb, s) != NotDue
  {
    assert TimeDiff(s.resendts, s.resendts) == 0;
  }

  /** When the oldest segment is due, it is the first that is sent. */
  lemma {:induction false} FirstSent(cb: Cb, buf: seq<SndSeg>, nums: seq<Num>, una: int)
    requires buf != [] && |buf| == |nums| && DueNow(cb, buf[0]) != NotDue
    ensures FlushBuf(cb, buf).sent != [] && FlushBuf(cb, buf).sent[0].cmd == CMD_PUSH
    ensures PushMarks(cb, buf, nums, una) != [] && PushMarks(cb, buf, nums, una)[0].no == nums[0].no
  {
    hide DueNow, Touch;
    var k := |buf| - 1;
    if k > 0 {
      FirstSent(cb, buf[..k], nums[..k], una);
    }
  }

  /** The flush at the moment the oldest segment is due; an empty snd_buf gets one. */
  ghost predicate Timed(p: Peer, now: u32) {
    if p.cb.tx.buf == [] then p.cb.tx.queue != [] else now == p.cb.tx.buf[0].resendts
  }

  lemma HeadFilled(p: Peer, cb: Cb)
    requires PeerOk(p) && SameButClock(cb, p) && Timed(p, cb.clock.current) && 1 <= SendWindow(cb) <= 0xffff
    ensures Filled(cb).buf != [] && DueNow(cb, Filled(cb).buf[0]) != NotDue
  {
    hide DueNow, FillWindow, SkipsRefine, RcvRefine, AcksRefine, IRxOrdered;
    var tx := cb.tx;
    FillExtends(cb, tx, SendWindow(cb));
    if tx.buf == [] {
      FillHead(cb, tx, SendWindow(cb));
    }
    DueHead(cb, Filled(cb).buf[0]);
  }

  lemma HeadNumber(tx: ITx, cwnd: nat)
    requires ITxOrdered(IFill(tx, cwnd)) && IFill(tx, cwnd).buf != []
    ensures IFill(tx, cwnd).buf[0].no == tx.una
  {
    FillOnward(tx, cwnd);
  }

  lemma HeadSent(p: Peer, cb: Cb)
    requires PeerOk(p) && SameButClock(cb, p) && Timed(p, cb.clock.current) && Quiet(p) && 1 <= SendWindow(cb) <= 0xffff
    requires p.cb.cc.rmtWnd > 0
    ensures Refines(cb, p.id) && |Filled(cb).buf| == |IFill(p.id.tx, SendWindow(cb)).buf|
    ensures FlushPackets(cb) != [] && FlushPackets(cb)[0].cmd == CMD_PUSH
    ensures FlushMarks(cb, p.id) != [] && FlushMarks(cb, p.id)[0].no == p.id.tx.una
  {
    hide DueNow, FlushBuf, FillWindow, IFill, PushMarks, SegsRefine, SkipsRefine, RcvRefine, IWithin;
    HeadFilled(p, cb);
    FillRefines(cb, cb.tx, p.id.tx, SendWindow(cb));
    SameLengths(Filled(cb).buf, IFill(p.id.tx, SendWindow(cb)).buf);
    var nums := IFill(p.id.tx, SendWindow(cb)).buf;
    FirstSent(cb, Filled(cb).buf, nums, p.id.rx.nxt);
    HeadNumber(p.id.tx, SendWindow(cb));
    NothingElse(cb, p.id);
  }

  lemma SameLengths(buf: seq<SndSeg>, nums: seq<Num>)
    requires SegsRefine(buf, nums)
    ensures |buf| == |nums|
  {}

  lemma NothingElse(cb: Cb, id: Ideal)
    requires Refines(cb, id) && |Filled(cb).buf| == |IFill(id.tx, SendWindow(cb)).buf|
    requires cb.acks == [] && id.acks == [] && !cb.probe.ask && !cb.probe.tell && cb.cc.rmtWnd > 0
    ensures FlushPackets(cb) == FlushBuf(cb, Filled(cb).buf).sent
    ensures FlushMarks(cb, id) == PushMarks(cb, Filled(cb).buf, IFill(id.tx, SendWindow(cb)).buf, id.rx.nxt)
  {
    hide FlushBuf, Filled, IFill, PushMarks;
  }

  /** What the receiver misses next is still with the sender, so it is no older than snd_una. */
  lemma NothingMissed(s: Peer, r: Peer, ds: set<Dgram>)
    requires Direction(s, r, ds) && KcpQueues.Ordered(r.cb) && |r.cb.rx.queue| < r.cb.rx.wnd
    ensures s.id.tx.una <= r.id.rx.nxt
  {
    hide HonestNet, Stream;
    HeadMissing(r.id.rx);
    assert r.id.rx.nxt < s.id.tx.una ==> Stored(r.id.rx, r.id.rx.nxt) || InBuf(s.id.tx.buf, r.id.rx.nxt);
  }

  lemma InReach(s: Peer, r: Peer, ds: set<Dgram>)
    requires Direction(s, r, ds) && s.id.tx.una <= r.id.rx.nxt
    ensures WithinReach(r.id.rx, s.id.tx.una)
  {
    hide HonestNet, Stream;
  }

  /** With room in the receive queue a stored number is no longer wanted. */
  lemma StoredMoves(s: Peer, r: Peer, ds: set<Dgram>, s': Peer, r': Peer, ds': set<Dgram>)
    requires Direction(s, r, ds) && Direction(s', r', ds') && KcpQueues.Ordered(r'.cb)
    requires PeerOnward(s, s') && PeerOnward(r, r') && r'.got == r.got
    requires |r.cb.rx.queue| < WND_RCV && s.id.tx.una <= r.id.rx.nxt && Stored(r'.id.rx, s.id.tx.una)
    ensures s.id.tx.una < r'.id.rx.nxt
  {
    hide HonestNet, Stream, Carries, Covered, SegsRefine, SkipsRefine, AcksRefine, ITxOrdered;
    if r'.id.rx.nxt == s.id.tx.una {
      SameTaken(s, s', r, r');
      SamePeerHist(s, s');
      assert r'.id.rx.nxt == r.id.rx.nxt && r'.id.rx.queue == r.id.rx.queue;
      HeadMissing(r'.id.rx);
    }
  }

  lemma Directions(n: Net)
    requires Good(n)
    ensures Direction(n.a, n.b, n.ab) && Direction(n.b, n.a, n.ba)
    ensures KcpQueues.Ordered(n.a.cb) && KcpQueues.Ordered(n.b.cb)
  {}

  /** The whole stream of the messages accepted at `a`. */
  ghost function Upto(n: Net): nat
    requires Good(n)
  {
    |Hist(n.a)|
  }

  lemma SameUpto(n: Net, m: Net)
    requires Good(n) && Good(m) && Onward(n, m)
    ensures Upto(m) == Upto(n) && n.a.id.tx.una <= m.a.id.tx.una <= Upto(m)
  {
    SamePeerHist(n.a, m.a);
  }

  /** The moment at which the oldest segment is due. */
  lemma WhenDue(n: Net) returns (now: u32)
    requires Good(n) && n.a.id.tx.una < Upto(n)
    ensures Timed(n.a, now)
  {
    hide HonestNet, Stream, Carries, Covered, BothOrdered, Serviceable;
    now := if n.a.cb.tx.buf == [] then 0 else n.a.cb.tx.buf[0].resendts;
    assert n.a.cb.tx.buf == [] ==> n.a.id.tx.buf == [] && n.a.id.tx.una == n.a.id.tx.nxt;
    assert Hist(n.a)[n.a.id.tx.nxt..] == n.a.id.tx.queue == n.a.cb.tx.queue;
  }

  lemma WindowOpen(p: Peer, cb: Cb)
    requires p.cb.cfg.sndWnd >= 1 && SameButClock(cb, p) && Quiet(p) && p.cb.cc.rmtWnd > 0
    ensures 1 <= SendWindow(cb) <= 0xffff
  {}

  /** Room at the receiver and a window at the sender: the oldest segment arrives, is
      stored and waits to be acknowledged. */
  lemma HeadArrives(n: Net) returns (m: Net)
    requires Good(n) && Quiet(n.a) && n.b.id.acks == [] && n.a.cb.cc.rmtWnd > 0 && n.a.id.tx.una < Upto(n)
    requires |n.b.cb.rx.queue| < WND_RCV && n.a.cb.cfg.sndWnd >= 1
    ensures Reached(n, m) && n.a.id.tx.una < m.b.id.rx.nxt && m.b.cb.acks != [] && AcksFresh(m.b.id, m.a.id)
    ensures m.ba == n.ba
  {
    hide Good, Leads, Onward, FlushPackets, FlushMarks, Filled, IFill, Refines, AcksFresh, Stored, WithinReach, Timed, Transmit,
         Tick, PeerOk, Direction, KcpQueues.Ordered, SendWindow, IRxOrdered, ITxOrdered, TxRefines;
    GoodPeers(n);
    Directions(n);
    var now := WhenDue(n);
    var cb := AtTime(n.a.cb, now);
    AtTimeIs(n, now);
    WindowOpen(n.a, cb);
    HeadSent(n.a, cb);
    WideWindow(n.b);
    NothingMissed(n.a, n.b, n.ab);
    InReach(n.a, n.b, n.ab);
    NoneFresh(n.a.id, n.b.id);
    var k;
    m, k := FlushHeard(n, now);
    Directions(m);
    OnwardPeers(n, m);
    StoredMoves(n.a, n.b, n.ab, m.a, m.b, m.ab);
    GoodPeers(m);
    AcksKept(m.b);
  }

  lemma WideWindow(p: Peer)
    requires PeerOk(p)
    ensures p.cb.rx.wnd >= WND_RCV
  {}

  lemma OnwardPeers(n: Net, m: Net)
    requires Onward(n, m)
    ensures PeerOnward(n.a, m.a) && PeerOnward(n.b, m.b)
  {}

  lemma AcksKept(p: Peer)
    requires PeerOk(p)
    ensures |p.cb.acks| == |p.id.acks|
  {}

  /** One round moves snd_una on. */
  lemma Round(n: Net) returns (m: Net)
    requires Good(n) && Served(n) && n.a.id.tx.una < Upto(n)
    ensures Reached(n, m) && n.a.id.tx.una < m.a.id.tx.una
  {
    hide Good, Leads, Onward, AcksFresh, Quiet, OnlyReceived, Upto, WndUnused;
    m := n;
    ReachedSelf(n);
    if n.a.cb.cc.rmtWnd == 0 {
      m := OpensWindow(n);
    }
    SameUpto(n, m);
    if n.a.id.tx.una == m.a.id.tx.una {
      var m1 := PeerReceives(m);
      ReachedOn(n, m, m1);
      var m2 := PeerQuiets(m1);
      ReachedOn(n, m1, m2);
      var m3 := Quiets(m2);
      ReachedOn(n, m2, m3);
      SameUpto(n, m3);
      ServedOnward(n, m3);
      var m4 := HeadArrives(m3);
      ReachedOn(n, m3, m4);
      m := PeerFlushHeard(m4);
      ReachedOn(n, m4, m);
    }
  }

  lemma ReachedSelf(n: Net)
    requires Good(n)
    ensures Reached(n, n)
  {
    hide Good, Leads;
    LeadsSelf(n);
    PeerStays(n.a);
    PeerStays(n.b);
  }

  // ---- everything gets through ----

  /** `r` has all that `s` ever sent, and `s` waits for nothing. */
  ghost predicate Drained(s: Peer, r: Peer) {
    s.cb.tx.queue == [] && s.cb.tx.buf == [] && r.cb.rx.queue == [] && r.got == s.sent
  }

  lemma {:induction false} Acknowledges(n: Net) returns (m: Net)
    requires Good(n) && Served(n)
    ensures Reached(n, m) && m.a.id.tx.una == Upto(m)
    decreases Upto(n) - n.a.id.tx.una
  {
    hide Good, Leads, Onward, Upto;
    ReachedSelf(n);
    SameUpto(n, n);
    if n.a.id.tx.una < Upto(n) {
      var k := Round(n);
      SameUpto(n, k);
      ServedOnward(n, k);
      m := Acknowledges(k);
      ReachedOn(n, k, m);
    } else {
      m := n;
    }
  }

  lemma AllAcknowledged(s: Peer, r: Peer, ds: set<Dgram>)
    requires Direction(s, r, ds) && s.id.tx.una == |Hist(s)|
    ensures s.cb.tx.queue == [] && s.cb.tx.buf == []
  {
    hide HonestNet, Stream, Covered;
    assert s.id.tx.nxt == |Hist(s)| && Hist(s)[s.id.tx.nxt..] == [];
  }

  lemma AllReceived(s: Peer, r: Peer, ds: set<Dgram>)
    requires Direction(s, r, ds) && r.got == s.sent
    ensures r.cb.rx.queue == []
  {
    hide HonestNet, Stream, Covered, Carries;
  }

  lemma Drains(n: Net) returns (m: Net)
    requires Good(n) && Served(n)
    ensures Reached(n, m) && Drained(m.a, m.b)
  {
    hide Good, Leads, Onward, Direction, PeekSize, Hist, KcpQueues.Ordered, OnlyReceived;
    var k := Acknowledges(n);
    GoodSwapped(k);
    var u := Receives(Swap(k));
    LeadsGood(Swap(k), u);
    m := Swap(u);
    ReachedSwapped(Swap(k), u);
    ReachedOn(n, k, m);
    SameUpto(k, m);
    Directions(m);
    AllAcknowledged(m.a, m.b, m.ab);
    DrainedDirection(m.a, m.b, m.ab);
    AllReceived(m.a, m.b, m.ab);
  }

  /** What is drained stays so while nobody sends. */
  lemma StaysDrained(n: Net, m: Net)
    requires Good(n) && Drained(n.a, n.b) && Reached(n, m)
    ensures Drained(m.a, m.b)
  {
    hide Leads, BothOrdered, Serviceable, HonestNet, Stream, Flows;
    EmptyMeansAcknowledged(n.a, n.b, n.ab);
    SameUpto(n, m);
    AllAcknowledged(m.a, m.b, m.ab);
    assert m.b.got <= m.a.sent && |n.b.got| <= |m.b.got|;
    AllReceived(m.a, m.b, m.ab);
  }

  lemma EmptyMeansAcknowledged(s: Peer, r: Peer, ds: set<Dgram>)
    requires Direction(s, r, ds) && s.cb.tx.queue == [] && s.cb.tx.buf == []
    ensures s.id.tx.una == |Hist(s)|
  {
    hide HonestNet, Stream, Covered;
    assert |Hist(s)[s.id.tx.nxt..]| == 0;
  }

  /** No step changes the settings. */
  lemma ActServiceable(n: Net, action: Action)
    requires Inv(n) && Possible(n, action) && Serviceable(n.a) && Serviceable(n.b)
    ensures Serviceable(Act(n, action).a) && Serviceable(Act(n, action).b)
  {
    hide Act, Possible, Direction, Cut, Accepted, PeerOk;
    if action.DoSend? {
      FirstDirection(n);
      SendSetting(n, action.data);
    } else {
      ActOnward(n, action);
      ServiceableOnward(n.a, Act(n, action).a);
      ServiceableOnward(n.b, Act(n, action).b);
    }
  }

  lemma SendSetting(n: Net, data: seq<byte>)
    requires Direction(n.a, n.b, n.ab)
    ensures var m := Act(n, DoSend(data)); m.a.cb.cfg == n.a.cb.cfg && m.a.id.rx == n.a.id.rx && m.b == n.b
  {
    hide Flows, HonestNet, Cut, Accepted;
    SendIsAppend(n, data);
  }

  lemma {:induction false} RunServiceable(n: Net, steps: seq<Step>)
    requires Inv(n) && Run(n, steps) && Serviceable(n.a) && Serviceable(n.b)
    ensures Serviceable(After(n, steps).a) && Serviceable(After(n, steps).b)
  {
    hide Inv, Possible, Act, Serviceable;
    if steps != [] {
      var init, last := steps[..|steps| - 1], steps[|steps| - 1];
      RunServiceable(n, init);
      RunKeepsInv(n, init);
      var m := After(n, init);
      SwapKeepsInv(m);
      ActServiceable(if last.left then m else Swap(m), last.action);
    }
  }

  lemma ReachableGood(n: Net, steps: seq<Step>)
    requires SetUp(n) && Run(n, steps) && Served(n)
    ensures Good(After(n, steps)) && Served(After(n, steps))
  {
    hide Run, After, SetUp, Inv, BothOrdered, Serviceable;
    SetUpInv(n);
    FreshOrdered(n);
    RunKeepsInv(n, steps);
    RunKeepsOrdered(n, steps);
    RunServiceable(n, steps);
  }

  /** After `steps` the run `more`, without a new message, leaves nothing waiting and
      everything received, at either end. */
  ghost predicate Delivers(n: Net, steps: seq<Step>, more: seq<Step>) {
    && Run(n, steps + more) && NoSends(more)
    && var k, m := After(n, steps), After(n, steps + more);
       Drained(m.a, m.b) && Drained(m.b, m.a) && m.a.sent == k.a.sent && m.b.sent == k.b.sent
  }

  /** Main result: however badly the network and the applications have behaved so far,
      there is a way to go on in which everything arrives. */
  lemma NoDeadEnd(n: Net, steps: seq<Step>)
    requires SetUp(n) && Run(n, steps) && Served(n)
    ensures exists more: seq<Step> :: Delivers(n, steps, more)
  {
    hide Run, After, SetUp, Good, Onward, Drained, Serviceable;
    var k := After(n, steps);
    ReachableGood(n, steps);
    var m1 := Drains(k);
    GoodSwapped(m1);
    ServedOnward(k, m1);
    var u := Drains(Swap(m1));
    var m := Swap(u);
    ReachedSwapped(Swap(m1), u);
    StaysDrained(m1, m);
    ReachedOn(k, m1, m);
    var more: seq<Step> :| Leading(k, more, m);
    AfterConcat(n, steps, more);
    SentSame(k, m);
    assert Delivers(n, steps, more);
  }

  lemma SentSame(n: Net, m: Net)
    requires Onward(n, m)
    ensures m.a.sent == n.a.sent && m.b.sent == n.b.sent
  {}
}
