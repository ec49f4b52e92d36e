/** The window field of a header has 16 bits. A receiver whose window is a multiple of
    2^16 announces, once its queue is empty, that it has no room, and two peers can get
    stuck for good. */
module KcpClosedWindow {
  import opened Seqs
  import opened Words
  import opened KcpWire
  import opened KcpSpec
  import opened KcpUnbounded
  import opened KcpMessages
  import opened KcpNetwork
  import opened KcpDelivery
  import opened KcpProgress
  import KcpFlush
  import KcpQueues

  /** Every packet of every datagram says that there is no room. */
  ghost predicate SaysClosed(conv: u32, ds: set<Dgram>) {
    forall d :: d in ds ==> DgramClosed(conv, d)
  }

  ghost predicate DgramClosed(conv: u32, d: Dgram) {
    AllClosed(DecodeAll(conv, d.bytes).packets)
  }

  predicate AllClosed(ps: seq<Packet>) {
    forall p :: p in ps ==> p.wnd == 0
  }

  /** `a` may not send anything, `b` has all that was sent and nothing to announce. */
  ghost predicate Wedged(n: Net) {
    Good(n) && Waits(n.a) && n.b.id.rx.nxt == n.a.id.tx.nxt && Idle(n.b) && SaysClosed(n.b.cb.cfg.conv, n.ba)
  }

  ghost predicate Waits(p: Peer) {
    p.cb.cc.rmtWnd == 0 && p.cb.tx.buf == [] && p.cb.tx.queue != []
  }

  ghost predicate Idle(p: Peer) {
    p.cb.rx.queue == [] && p.cb.rx.wnd % 0x1_0000 == 0
  }

  // ---- the sender keeps waiting ----

  lemma {:induction false} PacketsClosed(st: InState, ps: seq<Packet>)
    requires st.cb.cc.rmtWnd == 0 && AllClosed(ps) && st.cb.tx.buf == [] && st.cb.tx.una == st.cb.tx.nxt
    ensures ProcessAll(st, ps).cb.cc.rmtWnd == 0 && ProcessAll(st, ps).cb.tx == st.cb.tx
  {
    if ps != [] {
      PacketsClosed(st, ps[..|ps| - 1]);
      assert ps[|ps| - 1] in ps;
    }
  }

  lemma InputClosed(cb: Cb, bytes: seq<byte>)
    requires cb.cc.rmtWnd == 0 && AllClosed(DecodeAll(cb.cfg.conv, bytes).packets) && cb.tx.buf == [] && cb.tx.una == cb.tx.nxt
    ensures Input(cb, bytes).0.cc.rmtWnd == 0 && Input(cb, bytes).0.tx == cb.tx
  {
    hide ProcessAll, DecodeAll, AllClosed;
    PacketsClosed(InState(cb, false, 0), DecodeAll(cb.cfg.conv, bytes).packets);
  }

  lemma FlushClosed(cb: Cb)
    requires cb.cc.rmtWnd == 0 && cb.tx.buf == [] && cb.tx.una == cb.tx.nxt
    ensures Flush(cb).0.cc.rmtWnd == 0 && Flush(cb).0.tx == cb.tx
  {
    hide FlushPackets, PackAll, Probing;
    WrapSame(cb.tx.una);
  }

  lemma UnaIsNext(n: Net)
    requires Good(n) && n.a.cb.tx.buf == []
    ensures n.a.cb.tx.una == n.a.cb.tx.nxt
  {}

  lemma ActWaits(n: Net, action: Action)
    requires Good(n) && Waits(n.a) && SaysClosed(n.a.cb.cfg.conv, n.ba) && Possible(n, action) && !action.DoSend?
    ensures Waits(Act(n, action).a) && Act(n, action).b == n.b && Act(n, action).ba == n.ba
    ensures Act(n, action).a.cb.tx == n.a.cb.tx
  {
    hide Good, Flush, IFlush, Datagrams, Input, HearInput, DecodeAll, Fresh, Recv, IAfterRecv, AllClosed;
    UnaIsNext(n);
    match action
    case DoRecv(len) => RecvChanges(n, len);
    case DoFlush => FlushClosed(n.a.cb);
    case DoUpdate(now) => FlushClosed(AtTime(n.a.cb, now));
    case DoDeliver(d) =>
      assert DgramClosed(n.a.cb.cfg.conv, d);
      InputClosed(n.a.cb, d.bytes);
  }

  /** With nothing moved out of snd_queue no number was used. */
  lemma SameNext(n: Net, m: Net)
    requires Good(n) && Good(m) && Onward(n, m) && m.a.cb.tx.queue == n.a.cb.tx.queue
    ensures m.a.id.tx.nxt == n.a.id.tx.nxt
  {
    SamePeerHist(n.a, m.a);
    assert |Hist(n.a)[n.a.id.tx.nxt..]| == |Hist(m.a)[m.a.id.tx.nxt..]|;
  }

  lemma SenderStep(n: Net, action: Action)
    requires Wedged(n) && Possible(n, action) && !action.DoSend?
    ensures Wedged(Act(n, action))
  {
    hide Good, Act, Possible, Onward, Waits, Idle;
    SameConv(n);
    GoodStep(n, action);
    ActWaits(n, action);
    SameNext(n, Act(n, action));
  }

  lemma GoodStep(n: Net, action: Action)
    requires Good(n) && Possible(n, action)
    ensures Good(Act(n, action)) && (!action.DoSend? ==> Onward(n, Act(n, action)))
  {
    hide Inv, BothOrdered, Act, Possible, Onward;
    ActKeepsInv(n, action);
    ActKeepsOrdered(n, action);
    if !action.DoSend? {
      ActOnward(n, action);
    }
  }

  // ---- the receiver keeps announcing nothing ----

  lemma {:induction false} TagClosed(conv: u32, gs: seq<seq<Packet>>, ms: seq<Mark>)
    requires SendableGroups(gs) && |Flatten(gs)| <= |ms| && AllClosed(Flatten(gs))
    ensures forall d :: d in Tag(conv, gs, ms) ==> DgramClosed(conv, d)
  {
    if gs != [] {
      var init, g := gs[..|gs| - 1], gs[|gs| - 1];
      assert forall p :: p in Flatten(init) || p in g ==> p in Flatten(gs);
      TagClosed(conv, init, ms);
      DecodeEncodeAll(conv, g);
    }
  }

  /** Here `a` is the receiver. */
  lemma TransmitClosed(n: Net, cb: Cb)
    requires Good(n) && SameButClock(cb, n.a) && Idle(n.a) && SaysClosed(n.a.cb.cfg.conv, n.ab)
    ensures SaysClosed(n.a.cb.cfg.conv, Transmit(n, cb).ab)
  {
    hide DgramClosed, Refines, Flush, IFlush, FlushMarks, FlushPackets, Tag, AllClosed;
    if cb.clock.updated && Transmittable(cb, n.a.id) {
      FlushTransmits(n.a, n.b, n.ab, cb);
      PacketsShowClosed(cb);
      TagClosed(cb.cfg.conv, Flush(cb).1, FlushMarks(cb, n.a.id));
    }
  }

  lemma PacketsShowClosed(cb: Cb)
    requires cb.rx.queue == [] && cb.rx.wnd % 0x1_0000 == 0
    ensures AllClosed(FlushPackets(cb))
  {
    hide FlushPackets;
    Windows(cb);
  }

  lemma NothingToTake(cb: Cb, len: int)
    requires cb.rx.queue == []
    ensures Recv(cb, len) == RecvResult(cb, -1, [])
  {}

  lemma ActCloses(n: Net, action: Action)
    requires Good(n) && Idle(n.a) && SaysClosed(n.a.cb.cfg.conv, n.ab) && Possible(n, action) && !action.DoSend?
    ensures var m := Act(n, action);
            m.b == n.b && m.a.got == n.a.got && SaysClosed(n.a.cb.cfg.conv, m.ab)
  {
    hide Good, Transmit, Input, HearInput, DecodeAll, Fresh, Recv, IAfterRecv, SaysClosed, Idle;
    match action
    case DoRecv(len) =>
      IdleQueue(n.a);
      NothingToTake(n.a.cb, len);
    case DoFlush =>
      TransmitClosed(n, n.a.cb);
      TransmitPeer(n, n.a.cb);
    case DoUpdate(now) =>
      TransmitClosed(n, AtTime(n.a.cb, now));
      TransmitPeer(n, AtTime(n.a.cb, now));
    case DoDeliver(d) =>
  }

  lemma IdleQueue(p: Peer)
    requires Idle(p)
    ensures p.cb.rx.queue == []
  {}

  lemma TransmitPeer(n: Net, cb: Cb)
    ensures Transmit(n, cb).b == n.b && Transmit(n, cb).a.got == n.a.got
  {
    hide Flush, IFlush, Datagrams;
  }

  /** Nothing new comes, so the queue stays empty. */
  lemma StaysIdle(s: Peer, r: Peer, ds: set<Dgram>, r': Peer, ds': set<Dgram>)
    requires Direction(s, r, ds) && Direction(s, r', ds') && PeerOnward(r, r') && r'.got == r.got
    requires Idle(r) && r.id.rx.nxt == s.id.tx.nxt
    ensures Idle(r') && r'.id.rx.nxt == s.id.tx.nxt
  {
    hide HonestNet, Stream, Carries, Covered, SegsRefine, SkipsRefine, RcvRefine, AcksRefine, ITxOrdered, IRxOrdered;
    SameTaken(s, s, r, r');
  }

  lemma ReceiverStep(n: Net, action: Action)
    requires Wedged(n) && Possible(Swap(n), action) && !action.DoSend?
    ensures Wedged(Swap(Act(Swap(n), action)))
  {
    hide Good, Act, Possible, Waits, Idle, Inv, Direction, SaysClosed;
    var u := Swap(n);
    GoodSwapped(n);
    GoodStep(u, action);
    ActCloses(u, action);
    var m := Swap(Act(u, action));
    GoodSwapped(Act(u, action));
    Directions(n);
    Directions(m);
    StaysIdle(n.a, n.b, n.ab, m.b, m.ab);
  }

  lemma {:induction false} RunWedged(n: Net, steps: seq<Step>)
    requires Wedged(n) && Run(n, steps) && NoSends(steps)
    ensures Wedged(After(n, steps))
  {
    hide Wedged, Possible, Act;
    if steps != [] {
      var init, last := steps[..|steps| - 1], steps[|steps| - 1];
      RunWedged(n, init);
      if last.left {
        SenderStep(After(n, init), last.action);
      } else {
        ReceiverStep(After(n, init), last.action);
      }
    }
  }

  // ---- how it comes to that ----

  /** A message of no bytes is one segment. */
  lemma EmptyMessage(n: Net)
    requires Good(n)
    ensures var m := Act(n, DoSend([]));
            Good(m) && Possible(n, DoSend([])) && m.b == n.b && m.ab == n.ab && m.ba == n.ba && m.a.cb == m.a.cb.(tx := m.a.cb.tx)
            && m.a.cb.cfg == n.a.cb.cfg && m.a.id.rx == n.a.id.rx && m.a.cb.cc == n.a.cb.cc
            && m.a.cb.tx.queue != [] && m.a.cb.tx.buf == n.a.cb.tx.buf && m.a.id.tx.una == n.a.id.tx.una
            && m.a.id.tx.nxt == n.a.id.tx.nxt && Upto(m) == Upto(n) + 1
  {
    hide Direction, BothOrdered, Stream;
    assert n.a.cb.cfg.Mss() > 0 && FragCount(0, n.a.cb.cfg.Mss()) == 1;
    FirstDirection(n);
    GoodStep(n, DoSend([]));
    SendIsAppend(n, []);
    AppendKeepsPeer(n.a, []);
  }

  lemma AllTaken(s: Peer, r: Peer, ds: set<Dgram>)
    requires Direction(s, r, ds) && PeekSize(r.cb.rx.queue) < 0 && r.id.rx.nxt >= |Hist(s)|
    ensures r.cb.rx.queue == []
  {
    hide HonestNet, Flows, Stream, PeekSize;
    NoFurther(s, r, ds);
    FullQueueHasMessage(s, r, ds);
    AllReceived(s, r, ds);
  }

  lemma NoFurther(s: Peer, r: Peer, ds: set<Dgram>)
    requires Direction(s, r, ds)
    ensures r.id.rx.nxt <= s.id.tx.nxt <= |Hist(s)|
  {
    hide HonestNet, Stream, Carries, Covered;
  }

  /** The first message goes through and is taken before it is acknowledged. */
  lemma FirstMessage(n: Net) returns (m: Net)
    requires Good(n) && n.a.cb.cfg.sndWnd >= 1 && n.a.cb.cc.rmtWnd > 0 && n.b.id.acks == [] && n.b.cb.rx.queue == []
    requires Upto(n) == 1 && n.a.id.tx.una == 0 && n.ba == {} && n.b.id.rx.wnd % 0x1_0000 == 0
    ensures Reached(n, m) && m.a.cb.cc.rmtWnd == 0 && m.a.cb.tx.buf == [] && Idle(m.b)
    ensures m.b.id.rx.nxt == m.a.id.tx.nxt && SaysClosed(m.b.cb.cfg.conv, m.ba)
  {
    hide Good, Leads, Onward, AcksFresh, Upto, Hist, Transmit, SaysClosed, Flush, Direction, PeekSize, Tick, Idle,
         KcpQueues.Ordered;
    var n2 := Quiets(n);
    SameUpto(n, n2);
    OnwardPeers(n, n2);
    var n3 := HeadArrives(n2);
    ReachedOn(n, n2, n3);
    var n4 := PeerReceives(n3);
    ReachedOn(n, n3, n4);
    SameAcksFresh(n3.b.id, n4.b.id, n4.a.id);
    OnwardPeers(n3, n4);
    SameUpto(n, n4);
    Directions(n4);
    IsUpto(n4);
    AllTaken(n4.a, n4.b, n4.ab);
    OnwardPeers(n, n4);
    GoodPeers(n4);
    WindowsAgree(n4.b);
    m := PeerFlushHeard(n4);
    ReachedOn(n, n4, m);
    SameUpto(n, m);
    Directions(m);
    IsUpto(m);
    AllAcknowledged(m.a, m.b, m.ab);
    NoFurther(m.a, m.b, m.ab);
    GoodPeers(m);
    Announced(n4);
  }

  lemma IsUpto(n: Net)
    requires Good(n)
    ensures Upto(n) == |Hist(n.a)|
  {}

  lemma WindowsAgree(p: Peer)
    requires PeerOk(p) && p.cb.rx.queue == [] && p.id.rx.wnd % 0x1_0000 == 0
    ensures Idle(p) && WndUnused(p.cb.rx) % 0x1_0000 == 0
  {
    hide SegsRefine, SkipsRefine, RcvRefine, AcksRefine, ITxOrdered;
  }

  /** The receiver's flush: it moves nothing and announces nothing. */
  lemma Announced(n: Net)
    requires Good(n) && Idle(n.b) && n.ba == {}
    ensures var t := Transmit(Swap(n), AtTime(n.b.cb, 0));
            Idle(t.a) && t.a.id.rx == n.b.id.rx && t.a.cb.cfg == n.b.cb.cfg && SaysClosed(n.b.cb.cfg.conv, t.ab)
  {
    hide Datagrams, Flush, DgramClosed, IFill, IResent, Good;
    GoodSwapped(n);
    AtTimeIs(Swap(n), 0);
    FlushLeaves(AtTime(n.b.cb, 0));
    TransmitClosed(Swap(n), AtTime(n.b.cb, 0));
  }

  /** After `steps` end `a` has a message to send that no further run gets across. */
  ghost predicate Stuck(n: Net, steps: seq<Step>) {
    Run(n, steps) && After(n, steps).a.cb.tx.queue != []
    && forall more: seq<Step> :: Run(n, steps + more) && NoSends(more) ==> StillWaits(After(n, steps + more))
  }

  ghost predicate StillWaits(n: Net) {
    n.a.cb.tx.queue != [] && n.b.got < n.a.sent
  }

  /** Main result: with a receive window at `b` that is a multiple of 2^16, whatever the
      other settings, there is such a run. */
  lemma DeadEnd(n: Net)
    requires SetUp(n) && n.a.cb.cfg.sndWnd >= 1 && n.b.id.rx.wnd % 0x1_0000 == 0
    ensures exists steps: seq<Step> :: Stuck(n, steps)
  {
    hide Run, After, SetUp, Good, Act, Onward, Waits, Idle, SaysClosed, Upto;
    StartsGood(n);
    EmptyMessage(n);
    var n1 := Act(n, DoSend([]));
    var m := FirstMessage(n1);
    EmptyMessage(m);
    var w := Act(m, DoSend([]));
    ToWedge(m, w);
    var more: seq<Step> :| Leading(n1, more, m);
    var steps := RunOf(n, n1, more, m, w);
    NotAll(w);
    forall more: seq<Step> | Run(n, steps + more) && NoSends(more)
      ensures StillWaits(After(n, steps + more))
    {
      AfterConcat(n, steps, more);
      RunWedged(w, more);
      NotAll(After(w, more));
    }
    assert Stuck(n, steps);
  }

  lemma StartsGood(n: Net)
    requires SetUp(n)
    ensures Good(n) && Upto(n) == 0 && n.a.id.tx.una == 0 && n.a.id.tx.nxt == 0 && n.ba == {}
    ensures n.a.cb.cc.rmtWnd == 128 && n.b.id.acks == [] && n.b.cb.rx.queue == []
  {
    hide Direction;
    SetUpInv(n);
    FreshOrdered(n);
    NothingSent(n);
  }

  lemma NothingSent(n: Net)
    requires SetUp(n) && PeerOk(n.a)
    ensures Hist(n.a) == []
  {}

  lemma ToWedge(m: Net, w: Net)
    requires Good(m) && Good(w) && m.a.cb.cc.rmtWnd == 0 && m.a.cb.tx.buf == [] && Idle(m.b)
    requires m.b.id.rx.nxt == m.a.id.tx.nxt && SaysClosed(m.b.cb.cfg.conv, m.ba)
    requires w.b == m.b && w.ba == m.ba && w.a.cb.cc == m.a.cb.cc && w.a.cb.tx.queue != []
    requires w.a.cb.tx.buf == m.a.cb.tx.buf && w.a.id.tx.nxt == m.a.id.tx.nxt
    ensures Wedged(w)
  {
    hide Good, Idle, SaysClosed;
  }

  lemma RunOf(n: Net, n1: Net, more: seq<Step>, m: Net, w: Net) returns (steps: seq<Step>)
    requires n1 == Act(n, DoSend([])) && Leading(n1, more, m) && w == Act(m, DoSend([]))
    ensures Run(n, steps) && After(n, steps) == w
  {
    hide Act;
    var send := [Step(true, DoSend([]))];
    assert send[..0] == [];
    assert After(n, []) == n && Run(n, []) && After(m, []) == m && Run(m, []);
    assert After(n, send) == n1 && Run(n, send) && After(m, send) == w && Run(m, send);
    AfterConcat(n, send, more);
    AfterConcat(n, send + more, send);
    steps := send + more + send;
  }

  lemma NotAll(n: Net)
    requires Wedged(n)
    ensures StillWaits(n)
  {
    hide BothOrdered, HonestNet, Stream, Carries, Covered;
    TakenAll(n.a, n.b);
    assert Hist(n.a)[n.a.id.tx.nxt..] == n.a.id.tx.queue;
  }

  lemma TakenAll(s: Peer, r: Peer)
    requires PeerOk(s) && r.got <= s.sent
    ensures r.got == s.sent ==> Taken(s, r) == |Hist(s)|
  {}
}
