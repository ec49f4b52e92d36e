/** Safety of KCP in message mode over any run of two peers and the network:
    what is received is a prefix of what was sent, message by message. */
module KcpDelivery {
  import opened Seqs
  import opened Words
  import opened KcpWire
  import opened KcpSpec
  import opened KcpUnbounded
  import opened KcpMessages
  import opened KcpNetwork
  import KcpControl
  import KcpQueues
  import KcpFlush

  // ---- steps ----

  /** What the application, the clock or the network does at one end. */
  datatype Action = DoSend(data: seq<byte>) | DoRecv(len: int) | DoFlush | DoUpdate(now: u32) | DoDeliver(d: Dgram)

  /** A step at end `a` (`left`) or at end `b`. */
  datatype Step = Step(left: bool, action: Action)

  /** A flush that fits the wire format; every reachable one does (FlushTransmits). */
  ghost predicate Transmittable(cb: Cb, id: Ideal) {
    Refines(cb, id) && |Filled(cb).buf| == |IFill(id.tx, SendWindow(cb)).buf| && SendableGroups(Flush(cb).1)
    && |Flatten(Flush(cb).1)| <= |FlushMarks(cb, id)|
  }

  /** The datagrams a flush puts on the network. */
  ghost function Datagrams(cb: Cb, id: Ideal): seq<Dgram> {
    if cb.clock.updated && Transmittable(cb, id) then Tag(cb.cfg.conv, Flush(cb).1, FlushMarks(cb, id)) else []
  }

  /** End `a` flushes with control block `cb`. */
  ghost function Transmit(n: Net, cb: Cb): Net {
    n.(a := n.a.(cb := Flush(cb).0, id := IFlush(cb, n.a.id)),
       ab := n.ab + set d | d in Datagrams(cb, n.a.id))
  }

  /** A data number more than half a circle behind the end of the receive window is
      taken for one beyond it: of its packet only una and window count. */
  function Heard(id: Ideal, p: Packet, m: Mark): Packet {
    if p.cmd == CMD_PUSH && m.no < id.rx.nxt + id.rx.wnd - 0x8000_0000 then p.(cmd := CMD_WINS) else p
  }

  function HearAll(st: IState, ps: seq<Packet>, ms: seq<Mark>): IState
    requires |ps| == |ms|
  {
    if ps == [] then st
    else
      var k := |ps| - 1;
      var st1 := HearAll(st, ps[..k], ms[..k]);
      IStep(st1, Heard(st1.id, ps[k], ms[k]), ms[k])
  }

  /** ikcp_input as a step of a run. */
  function HearInput(id: Ideal, ps: seq<Packet>, ms: seq<Mark>, ret: int): Ideal
    requires |ps| == |ms|
  {
    var st := HearAll(IState(id, false, 0), ps, ms);
    if ret < 0 then st.id else IFinish(st)
  }

  ghost function Act(n: Net, action: Action): Net {
    var a := n.a;
    match action
    case DoSend(data) =>
      var (cb, ret) := Send(a.cb, data);
      n.(a := a.(cb := cb, id := a.id.(tx := a.id.tx.(queue := cb.tx.queue)),
                 sent := if ret == 0 then a.sent + [data] else a.sent))
    case DoRecv(len) =>
      var r := Recv(a.cb, len);
      n.(a := a.(cb := r.cb, id := if r.ret >= 0 then a.id.(rx := IAfterRecv(a.id.rx, len < 0)) else a.id,
                 got := if r.ret >= 0 && len >= 0 then a.got + [r.data] else a.got))
    case DoFlush => Transmit(n, a.cb)
    case DoUpdate(now) =>
      var (clock, due) := Tick(a.cb.cfg.interval, a.cb.clock, now);
      var cb := a.cb.(clock := clock);
      if due then Transmit(n, cb) else n.(a := a.(cb := cb))
    case DoDeliver(d) =>
      var r := DecodeAll(a.cb.cfg.conv, d.bytes);
      var id := if |r.packets| == |d.marks| then HearInput(a.id, r.packets, d.marks, r.ret) else a.id;
      n.(a := a.(cb := Input(a.cb, d.bytes).0, id := id))
  }

  /** No number in the datagram is more than half a circle behind the newest one of its kind. */
  ghost predicate Fresh(to: Ideal, from: Ideal, ps: seq<Packet>, ms: seq<Mark>) {
    |ps| == |ms| && forall i :: 0 <= i < |ps| ==>
      && to.tx.nxt - 0x8000_0000 <= ms[i].una
      && (ps[i].cmd == CMD_ACK ==> to.tx.nxt - 0x8000_0000 <= ms[i].no)
      && (ps[i].cmd == CMD_PUSH ==> from.tx.nxt - 0x8000_0000 <= ms[i].no)
  }

  /** Only datagrams that the other end once sent are delivered. */
  ghost predicate Possible(n: Net, action: Action) {
    action.DoDeliver? ==>
      action.d in n.ba && Fresh(n.a.id, n.b.id, DecodeAll(n.a.cb.cfg.conv, action.d.bytes).packets, action.d.marks)
  }

  ghost function Next(n: Net, step: Step): Net {
    if step.left then Act(n, step.action) else Swap(Act(Swap(n), step.action))
  }

  ghost function After(n: Net, steps: seq<Step>): Net {
    if steps == [] then n else Next(After(n, steps[..|steps| - 1]), steps[|steps| - 1])
  }

  ghost predicate Run(n: Net, steps: seq<Step>) {
    steps == [] ||
    (Run(n, steps[..|steps| - 1])
     && var last := steps[|steps| - 1];
        var m := After(n, steps[..|steps| - 1]);
        Possible(if last.left then m else Swap(m), last.action))
  }

  function NewPeer(cfg: Config, rcvWnd: u32): Peer {
    Peer(Create(cfg, rcvWnd), Ideal(ITx(0, 0, [], []), IRx(0, rcvWnd, [], []), []), [], [])
  }

  // ---- the invariant ----

  ghost predicate PeerOk(p: Peer) {
    Refines(p.cb, p.id) && !p.cb.cfg.stream && AllAccepted(p.cb.cfg.Mss(), p.sent) && 128 <= p.id.rx.wnd <= 0x7fff_0000
  }

  /** The fragment stream of everything a peer has accepted. */
  ghost function Hist(p: Peer): seq<Frag>
    requires PeerOk(p)
  {
    Stream(p.cb.cfg.Mss(), p.sent)
  }

  /** How many fragments of `s` the application at `r` has received. */
  ghost function Taken(s: Peer, r: Peer): nat
    requires PeerOk(s) && r.got <= s.sent
  {
    |Stream(s.cb.cfg.Mss(), r.got)|
  }

  /** From `s` to `r`: a prefix is received, the rest is under way and accounted for. */
  ghost predicate Direction(s: Peer, r: Peer, ds: set<Dgram>) {
    PeerOk(s) && PeerOk(r) && s.cb.cfg.conv == r.cb.cfg.conv && r.got <= s.sent
    && Flows(Hist(s), s.id, r.id, Taken(s, r))
    && HonestNet(s.cb.cfg.conv, Hist(s), s.id, r.id.tx.nxt, ds)
  }

  ghost predicate Inv(n: Net) {
    Direction(n.a, n.b, n.ab) && Direction(n.b, n.a, n.ba)
  }

  // ---- ikcp_send ----

  lemma QueueRefines(cb: Cb, id: Ideal, queue: seq<Frag>)
    requires Refines(cb, id)
    ensures Refines(cb.(tx := cb.tx.(queue := queue)), id.(tx := id.tx.(queue := queue)))
  {
    hide SegsRefine, SkipsRefine, RcvRefine, AcksRefine, IWithin;
  }

  lemma AppendKeepsPeer(p: Peer, data: seq<byte>)
    requires PeerOk(p) && Accepted(p.cb.cfg.Mss(), data)
    ensures PeerOk(Append(p, data)) && Hist(Append(p, data)) == Hist(p) + Cut(p.cb.cfg.Mss(), data)
  {
    hide Refines, Stream, Cut, Accepted;
    StreamSnoc(p.cb.cfg.Mss(), p.sent, data);
    QueueRefines(p.cb, p.id, p.cb.tx.queue + Cut(p.cb.cfg.Mss(), data));
    SameQueue(p);
  }

  lemma SameQueue(p: Peer)
    requires PeerOk(p)
    ensures p.cb.tx.queue == p.id.tx.queue
  {}

  /** A peer that has accepted one more message. */
  function Append(p: Peer, data: seq<byte>): Peer
    requires Accepted(p.cb.cfg.Mss(), data)
  {
    var queue := p.cb.tx.queue + Cut(p.cb.cfg.Mss(), data);
    p.(cb := p.cb.(tx := p.cb.tx.(queue := queue)), id := p.id.(tx := p.id.tx.(queue := queue)), sent := p.sent + [data])
  }

  lemma SendIsAppend(n: Net, data: seq<byte>)
    requires PeerOk(n.a)
    ensures Act(n, DoSend(data)) == if Accepted(n.a.cb.cfg.Mss(), data) then n.(a := Append(n.a, data)) else n
  {
    hide Send, Cut, Accepted, Refines;
    SendCuts(n.a.cb, data);
    SameQueue(n.a);
  }

  lemma SendKeepsInv(n: Net, data: seq<byte>)
    requires Inv(n)
    ensures Inv(Act(n, DoSend(data)))
  {
    hide Act, PeerOk, Flows, HonestNet, Stream, Cut, Accepted, Refines;
    SendIsAppend(n, data);
    var mss, a := n.a.cb.cfg.Mss(), n.a;
    if Accepted(mss, data) {
      var a' := Append(a, data);
      AppendKeepsPeer(a, data);
      SameQueue(a);
      AppendKeepsFlow(Hist(a), a.id, n.b.id, Taken(a, n.b), Cut(mss, data));
      HonestLater(a.cb.cfg.conv, Hist(a), a.id, n.b.id.tx.nxt, Hist(a'), a'.id, n.b.id.tx.nxt, n.ab);
      FlowsDependOn(Hist(n.b), n.b.id, a.id, n.b.id, a'.id, Taken(n.b, a));
    }
  }

  // ---- ikcp_recv ----

  /** What the application gets is exactly the next message it has not got yet. */
  lemma RecvTakesNext(s: Peer, r: Peer, ds: set<Dgram>, len: int)
    requires Direction(s, r, ds) && Recv(r.cb, len).ret >= 0
    ensures |r.got| < |s.sent| && Recv(r.cb, len).data == s.sent[|r.got|]
    ensures MessageLen(r.id.rx.queue) == |Cut(s.cb.cfg.Mss(), s.sent[|r.got|])|
  {
    assert s.sent[..|r.got|] == r.got;
    QueueDeliversNext(s.cb.cfg.Mss(), s.sent, |r.got|, r.id.rx.queue, r.id.rx.nxt);
  }

  lemma AfterRecvRefines(cb: Cb, id: Ideal, peek: bool)
    requires Refines(cb, id)
    ensures RxRefines(RxAfterRecv(cb.rx, peek), IAfterRecv(id.rx, peek)) && IRxOrdered(IAfterRecv(id.rx, peek))
  {
    var n := MessageLen(cb.rx.queue);
    MoveReadyRefines(cb.rx, id.rx);
    MoveReadyRefines(cb.rx.(queue := cb.rx.queue[n..]), id.rx.(queue := id.rx.queue[n..]));
  }

  /** What a successful ikcp_recv changes. */
  lemma RecvEffect(n: Net, len: int)
    requires Recv(n.a.cb, len).ret >= 0
    ensures var m := Act(n, DoRecv(len));
            m == n.(a := m.a) && m.a.cb.cfg == n.a.cb.cfg && m.a.sent == n.a.sent
            && m.a.id == n.a.id.(rx := IAfterRecv(n.a.id.rx, len < 0))
            && m.a.got == if len >= 0 then n.a.got + [Recv(n.a.cb, len).data] else n.a.got
  {
    hide RxAfterRecv, IAfterRecv, PeekSize, Join, MessageLen;
  }

  lemma RecvKeepsPeer(n: Net, len: int)
    requires PeerOk(n.a) && Recv(n.a.cb, len).ret >= 0
    ensures PeerOk(Act(n, DoRecv(len)).a)
  {
    hide RxAfterRecv, IAfterRecv, PeekSize, Join, MessageLen, SegsRefine, SkipsRefine, RcvRefine, AcksRefine, IWithin;
    AfterRecvRefines(n.a.cb, n.a.id, len < 0);
    AfterRecvLater(n.a.id.rx, len < 0);
  }

  lemma TakenGrows(s: Peer, r: Peer, r': Peer)
    requires PeerOk(s) && r.got <= s.sent && |r.got| < |s.sent| && r'.got == r.got + [s.sent[|r.got|]]
    ensures r'.got <= s.sent && Taken(s, r') == Taken(s, r) + |Cut(s.cb.cfg.Mss(), s.sent[|r.got|])|
  {
    NextMessage(s.cb.cfg.Mss(), s.sent, |r.got|);
    assert r'.got == s.sent[..|r.got| + 1] && r.got == s.sent[..|r.got|];
  }

  lemma RecvKeepsIncoming(n: Net, len: int)
    requires Inv(n) && Recv(n.a.cb, len).ret >= 0
    ensures Direction(n.b, Act(n, DoRecv(len)).a, n.ba)
  {
    hide Act, Recv, PeerOk, Flows, HonestNet, Stream, Refines, Cut, MessageLen, IAfterRecv;
    var a, b, a' := n.a, n.b, Act(n, DoRecv(len)).a;
    RecvEffect(n, len);
    RecvKeepsPeer(n, len);
    RecvTakesNext(b, a, n.ba, len);
    AfterRecvKeepsFlow(Hist(b), b.id, a.id, Taken(b, a), len < 0);
    FlowsDependOn(Hist(b), b.id, a.id.(rx := IAfterRecv(a.id.rx, len < 0)), b.id, a'.id,
                  if len < 0 then Taken(b, a) else Taken(b, a) + MessageLen(a.id.rx.queue));
    if len >= 0 {
      TakenGrows(b, a, a');
    }
  }

  lemma SamePeerHist(p: Peer, p': Peer)
    requires PeerOk(p) && PeerOk(p') && p'.cb.cfg == p.cb.cfg && p'.sent == p.sent
    ensures Hist(p') == Hist(p)
  {}

  lemma RecvKeepsOutgoing(n: Net, len: int)
    requires Inv(n) && Recv(n.a.cb, len).ret >= 0
    ensures Direction(Act(n, DoRecv(len)).a, n.b, n.ab)
  {
    hide Act, Recv, PeerOk, Flows, HonestNet, Stream, Refines, IAfterRecv, Hist, Taken;
    var a, b, a' := n.a, n.b, Act(n, DoRecv(len)).a;
    RecvEffect(n, len);
    RecvKeepsPeer(n, len);
    SamePeerHist(a, a');
    SameTaken(a, a', b, b);
    AfterRecvLater(a.id.rx, len < 0);
    FlowsDependOn(Hist(a), a.id, b.id, a'.id, b.id, Taken(a, b));
    HonestLater(a.cb.cfg.conv, Hist(a), a.id, b.id.tx.nxt, Hist(a'), a'.id, b.id.tx.nxt, n.ab);
  }

  lemma SameTaken(s: Peer, s': Peer, r: Peer, r': Peer)
    requires PeerOk(s) && PeerOk(s') && s'.cb.cfg == s.cb.cfg && r'.got == r.got && r.got <= s.sent && r.got <= s'.sent
    ensures Taken(s', r') == Taken(s, r)
  {}

  lemma RecvRefused(n: Net, len: int)
    requires Recv(n.a.cb, len).ret < 0
    ensures Act(n, DoRecv(len)) == n
  {}

  lemma RecvKeepsInv(n: Net, len: int)
    requires Inv(n)
    ensures Inv(Act(n, DoRecv(len)))
  {
    hide Recv, Direction;
    if Recv(n.a.cb, len).ret >= 0 {
      RecvEffect(n, len);
      RecvKeepsIncoming(n, len);
      RecvKeepsOutgoing(n, len);
    } else {
      RecvRefused(n, len);
    }
  }

  // ---- ikcp_flush ----

  lemma {:induction false} StreamSmall(mss: nat, msgs: seq<seq<byte>>)
    requires AllAccepted(mss, msgs)
    ensures Small(Stream(mss, msgs), mss)
  {
    if msgs != [] {
      StreamSmall(mss, msgs[..|msgs| - 1]);
      CutRebuilds(mss, msgs[|msgs| - 1]);
    }
  }

  /** What a sender has queued are pieces of the stream, so they fit a datagram. */
  lemma StreamFits(mss: nat, hist: seq<Frag>, tx: Tx, itx: ITx)
    requires Small(hist, mss) && SenderHolds(hist, itx) && TxRefines(tx, itx)
    ensures SegmentsFit(mss, tx)
  {
    forall i | 0 <= i < |tx.queue|
      ensures |tx.queue[i].data| <= mss
    {
      assert tx.queue[i] == hist[itx.nxt + i];
    }
  }

  /** `cb` is the control block of `p`, up to the clock. */
  ghost predicate SameButClock(cb: Cb, p: Peer) {
    cb == p.cb.(clock := cb.clock)
  }

  /** A reachable flush always fits the wire format ... */
  lemma FlushTransmits(s: Peer, r: Peer, ds: set<Dgram>, cb: Cb)
    requires Direction(s, r, ds) && SameButClock(cb, s) && cb.clock.updated
    ensures Refines(cb, s.id) && SegsRefine(Filled(cb).buf, IFill(s.id.tx, SendWindow(cb)).buf)
    ensures SendableGroups(Flush(cb).1) && Flatten(Flush(cb).1) == FlushPackets(cb)
    ensures SegmentsFit(cb.cfg.Mss(), cb.tx)
  {
    StreamSmall(cb.cfg.Mss(), s.sent);
    StreamFits(cb.cfg.Mss(), Hist(s), cb.tx, s.id.tx);
    FillRefines(cb, cb.tx, s.id.tx, SendWindow(cb));
    KcpFlush.FlushRoundTrip(cb);
  }

  /** ... and the window it fills keeps the flow. */
  lemma FlushKeepsFlow(s: Peer, r: Peer, ds: set<Dgram>, cb: Cb)
    requires Direction(s, r, ds) && SameButClock(cb, s) && cb.clock.updated
    ensures var id' := IFlush(cb, s.id);
            Flows(Hist(s), id', r.id, Taken(s, r)) && Later(Hist(s), s.id, Hist(s), id') && id'.rx == s.id.rx
    ensures Carries(Hist(s), IFlush(cb, s.id).tx.nxt, IFill(s.id.tx, SendWindow(cb)).buf)
  {
    hide IFill, Stream, Carries, Covered, HonestNet, DueNow;
    var hist, id', tx := Hist(s), IFlush(cb, s.id), IFill(s.id.tx, SendWindow(cb));
    FillKeepsFlow(hist, s.id, r.id, Taken(s, r), SendWindow(cb));
    assert Carries(hist, tx.nxt, tx.buf);
    SkipsKeepFlow(hist, s.id.(tx := tx), r.id, Taken(s, r), id'.tx.buf);
    FlowsDependOn(hist, s.id.(tx := id'.tx), r.id, id', r.id, Taken(s, r));
  }

  /** Its datagrams say only what is so. */
  lemma DatagramsHonest(s: Peer, r: Peer, ds: set<Dgram>, cb: Cb)
    requires Direction(s, r, ds) && SameButClock(cb, s) && cb.clock.updated
    requires AcksHold(s.id.acks, s.id.rx, r.id.tx.nxt)
    ensures Transmittable(cb, s.id)
    ensures HonestNet(cb.cfg.conv, Hist(s), IFlush(cb, s.id), r.id.tx.nxt, set d | d in Datagrams(cb, s.id))
  {
    hide Honest, Flush, FlushPackets, FlushMarks, HonestNet, Refines, Stream, Flows;
    var hist, id' := Hist(s), IFlush(cb, s.id);
    FlushTransmits(s, r, ds, cb);
    FlushKeepsFlow(s, r, ds, cb);
    FlushHonest(hist, cb, s.id, r.id.tx.nxt);
    var ms := FlushMarks(cb, s.id);
    assert ms[..|ms|] == ms;
    TagHonest(cb.cfg.conv, hist, id', r.id.tx.nxt, Flush(cb).1, ms);
    assert forall d :: d in Datagrams(cb, s.id) ==> HonestDgram(cb.cfg.conv, hist, id', r.id.tx.nxt, d);
    HonestEach(cb.cfg.conv, hist, id', r.id.tx.nxt, Datagrams(cb, s.id));
  }

  lemma HonestEach(conv: u32, hist: seq<Frag>, id: Ideal, end: int, ds: seq<Dgram>)
    requires forall d :: d in ds ==> HonestDgram(conv, hist, id, end, d)
    ensures HonestNet(conv, hist, id, end, set d | d in ds)
  {}

  lemma HonestUnion(conv: u32, hist: seq<Frag>, id: Ideal, end: int, ds: set<Dgram>, es: set<Dgram>)
    requires HonestNet(conv, hist, id, end, ds) && HonestNet(conv, hist, id, end, es)
    ensures HonestNet(conv, hist, id, end, ds + es)
  {}

  /** The end that flushed. */
  lemma TransmitKeepsPeer(n: Net, cb: Cb)
    requires Inv(n) && SameButClock(cb, n.a) && cb.clock.updated
    ensures var a' := Transmit(n, cb).a;
            PeerOk(a') && a'.cb.cfg == n.a.cb.cfg && a'.sent == n.a.sent && a'.got == n.a.got && a'.id == IFlush(cb, n.a.id)
  {
    hide Flows, HonestNet, Datagrams, FillWindow, FlushBuf, FlushPackets, AfterFlush, Probing, PackAll, IFill, IResent,
         SegsRefine, SkipsRefine, RcvRefine, IWithin;
    FlushRefines(cb, n.a.id);
  }

  lemma TransmitKeepsOutgoing(n: Net, cb: Cb)
    requires Inv(n) && SameButClock(cb, n.a) && cb.clock.updated
    ensures Direction(Transmit(n, cb).a, n.b, Transmit(n, cb).ab)
  {
    hide PeerOk, Flows, HonestNet, Stream, Refines, Datagrams, IFlush, Flush, Hist, Taken;
    var a, b, a' := n.a, n.b, Transmit(n, cb).a;
    TransmitKeepsPeer(n, cb);
    FlushKeepsFlow(a, b, n.ab, cb);
    SamePeerHist(a, a');
    SameTaken(a, a', b, b);
    AcksAreStored(b, a);
    DatagramsHonest(a, b, n.ab, cb);
    HonestLater(a.cb.cfg.conv, Hist(a), a.id, b.id.tx.nxt, Hist(a'), a'.id, b.id.tx.nxt, n.ab);
    HonestUnion(a.cb.cfg.conv, Hist(a'), a'.id, b.id.tx.nxt, n.ab, set d | d in Datagrams(cb, a.id));
  }

  lemma AcksAreStored(s: Peer, r: Peer)
    requires PeerOk(s) && PeerOk(r) && r.got <= s.sent && Flows(Hist(s), s.id, r.id, Taken(s, r))
    ensures AcksHold(r.id.acks, r.id.rx, s.id.tx.nxt)
  {}

  /** A flush forgets the acknowledgements and moves the sender on; what it receives is not affected. */
  lemma FlushIsLater(cb: Cb, s: Peer, r: Peer)
    requires PeerOk(s) && PeerOk(r) && r.got <= s.sent && Flows(Hist(s), s.id, r.id, Taken(s, r))
    ensures Flows(Hist(s), s.id, r.id.(acks := []), Taken(s, r))
    ensures Later(Hist(s), s.id, Hist(s), s.id)
  {}

  lemma TransmitKeepsIncoming(n: Net, cb: Cb)
    requires Inv(n) && SameButClock(cb, n.a) && cb.clock.updated
    ensures Direction(n.b, Transmit(n, cb).a, n.ba)
  {
    hide PeerOk, Flows, HonestNet, Stream, Refines, Datagrams, Flush, IFill, IResent, Hist, Taken, FlushMarks;
    var a, b, a' := n.a, n.b, Transmit(n, cb).a;
    TransmitKeepsPeer(n, cb);
    FlushKeepsFlow(a, b, n.ab, cb);
    FlushIsLater(cb, b, a);
    SameTaken(b, b, a, a');
    FlowsDependOn(Hist(b), b.id, a.id.(acks := []), b.id, a'.id, Taken(b, a));
    HonestLater(b.cb.cfg.conv, Hist(b), b.id, a.id.tx.nxt, Hist(b), b.id, a'.id.tx.nxt, n.ba);
  }

  lemma ClockKeepsInv(n: Net, cb: Cb)
    requires Inv(n) && SameButClock(cb, n.a)
    ensures Inv(n.(a := n.a.(cb := cb)))
  {
    hide Flows, HonestNet, Stream, SegsRefine, SkipsRefine, RcvRefine, IWithin;
  }

  lemma NothingFlushed(n: Net, cb: Cb)
    requires !cb.clock.updated
    ensures Transmit(n, cb) == n.(a := n.a.(cb := cb))
  {
    assert Transmit(n, cb).ab == n.ab;
  }

  lemma TransmitKeepsInv(n: Net, cb: Cb)
    requires Inv(n) && SameButClock(cb, n.a)
    ensures Inv(Transmit(n, cb))
  {
    hide Direction, Flush, IFlush;
    if cb.clock.updated {
      TransmitKeepsOutgoing(n, cb);
      TransmitKeepsIncoming(n, cb);
    } else {
      NothingFlushed(n, cb);
      ClockKeepsInv(n, cb);
    }
  }

  // ---- ikcp_input ----

  /** Both directions while `a` works through a datagram of `b`. */
  ghost predicate BothFlow(histA: seq<Frag>, histB: seq<Frag>, a: Ideal, b: Ideal, takenA: nat, takenB: nat) {
    Flows(histA, a, b, takenA) && Flows(histB, b, a, takenB)
  }

  /** What one packet may change at the end that takes it in. */
  ghost predicate Absorbed(a: Ideal, a': Ideal) {
    a'.tx.nxt == a.tx.nxt && RxLater(a.rx, a'.rx)
  }

  lemma PacketKeepsFlows(histA: seq<Frag>, histB: seq<Frag>, a: Ideal, b: Ideal, takenA: nat, takenB: nat, p: Packet, m: Mark)
    requires BothFlow(histA, histB, a, b, takenA, takenB) && Honest(histB, b, a.tx.nxt, p, m)
    ensures BothFlow(histA, histB, IPacket(a, p, m), b, takenA, takenB) && Absorbed(a, IPacket(a, p, m))
  {
    var a1, a' := a.(tx := IUna(a.tx, m.una)), IPacket(a, p, m);
    UnaKeepsFlow(histA, a, b, takenA, m.una);
    FlowsDependOn(histB, b, a, b, a1, takenB);
    if p.cmd == CMD_ACK {
      AckKeepsFlow(histA, a1, b, takenA, m.no);
      FlowsDependOn(histB, b, a1, b, a', takenB);
    } else if p.cmd == CMD_PUSH {
      var num := Num(m.no, Frag(p.frg, p.data), 0);
      assert Carries(histB, b.tx.nxt, [num]);
      PushKeepsFlow(histB, b, a1, takenB, num);
      FlowsDependOn(histA, a1, b, a', b, takenA);
    }
  }

  /** A fresh honest packet, as far as it is heard, is within circular reach of the
      end that takes it in. */
  lemma FreshIsNear(histA: seq<Frag>, histB: seq<Frag>, a: Ideal, b: Ideal, takenA: nat, takenB: nat,
                    ps: seq<Packet>, ms: seq<Mark>, i: nat)
    requires BothFlow(histA, histB, a, b, takenA, takenB) && ITxOrdered(b.tx) && a.rx.wnd <= 0x7fff_0000
    requires IRxOrdered(a.rx) && Fresh(a, b, ps, ms) && i < |ps| && Honest(histB, b, a.tx.nxt, ps[i], ms[i])
    ensures Near(a, Heard(a, ps[i], ms[i]), ms[i])
  {
    FlightBounded(histB, b, a, takenB);
  }

  /** What is not heard does not pass the window test of ikcp_input either. */
  lemma HeardSame(st: InState, id: Ideal, end: int, p: Packet, m: Mark)
    requires RxRefines(st.cb.rx, id.rx) && IRxOrdered(id.rx) && id.rx.nxt <= end && Marks(p, m)
    requires p.cmd == CMD_PUSH ==> end - 0x8000_0000 <= m.no
    ensures ProcessPacket(st, Heard(id, p, m)) == ProcessPacket(st, p)
  {
    hide ParseUna, ShrinkBuf, ParseData, Wrap, TimeDiff, RcvRefine;
    if Heard(id, p, m) != p {
      var windowEnd := id.rx.nxt + id.rx.wnd;
      WrapPeriodic(m.no, 1);
      TimeDiffExact(m.no + 0x1_0000_0000, windowEnd);
      WrapShift(id.rx.nxt, id.rx.wnd);
      assert !BelowWindowEnd(st.cb.rx, p.sn);
    }
  }

  lemma HeardHonest(hist: seq<Frag>, b: Ideal, end: int, id: Ideal, p: Packet, m: Mark)
    requires Honest(hist, b, end, p, m)
    ensures Honest(hist, b, end, Heard(id, p, m), m)
  {}

  lemma FreshAfter(a: Ideal, a': Ideal, b: Ideal, ps: seq<Packet>, ms: seq<Mark>)
    requires Fresh(a, b, ps, ms) && Absorbed(a, a')
    ensures Fresh(a', b, ps, ms)
  {}

  /** One packet of a fresh honest datagram. */
  lemma PacketHeard(histA: seq<Frag>, histB: seq<Frag>, st: InState, ist: IState, b: Ideal, takenA: nat, takenB: nat,
                    ps: seq<Packet>, ms: seq<Mark>, i: nat)
    requires BothFlow(histA, histB, ist.id, b, takenA, takenB) && ITxOrdered(b.tx) && ist.id.rx.wnd <= 0x7fff_0000
    requires Fresh(ist.id, b, ps, ms) && i < |ps| && Honest(histB, b, ist.id.tx.nxt, ps[i], ms[i]) && InRefines(st, ist)
    ensures var ist' := IStep(ist, Heard(ist.id, ps[i], ms[i]), ms[i]);
            InRefines(ProcessPacket(st, ps[i]), ist') && BothFlow(histA, histB, ist'.id, b, takenA, takenB)
            && Absorbed(ist.id, ist'.id) && ist.id.tx.una <= ist'.id.tx.una
  {
    hide Near, ProcessPacket, IPacket, Heard, TxRefines, ITxOrdered, IRxOrdered;
    var p, m := ps[i], ms[i];
    FreshIsNear(histA, histB, ist.id, b, takenA, takenB, ps, ms, i);
    HeardSame(st, ist.id, b.tx.nxt, p, m);
    HeardHonest(histB, b, ist.id.tx.nxt, ist.id, p, m);
    PacketRefines(st, ist, Heard(ist.id, p, m), m);
    PacketKeepsFlows(histA, histB, ist.id, b, takenA, takenB, Heard(ist.id, p, m), m);
  }

  lemma {:induction false} PacketsKeepFlows(histA: seq<Frag>, histB: seq<Frag>, st: InState, a: Ideal, b: Ideal,
                                            takenA: nat, takenB: nat, ps: seq<Packet>, ms: seq<Mark>)
    requires BothFlow(histA, histB, a, b, takenA, takenB) && ITxOrdered(b.tx) && a.rx.wnd <= 0x7fff_0000
    requires Fresh(a, b, ps, ms) && HonestAll(histB, b, a.tx.nxt, ps, ms) && InRefines(st, IState(a, false, 0))
    ensures var ist := HearAll(IState(a, false, 0), ps, ms);
            InRefines(ProcessAll(st, ps), ist) && BothFlow(histA, histB, ist.id, b, takenA, takenB)
            && Absorbed(a, ist.id) && a.tx.una <= ist.id.tx.una
  {
    hide BothFlow, InRefines, ProcessPacket, IStep, Heard, ITxOrdered, Stored;
    if ps != [] {
      var k := |ps| - 1;
      PacketsKeepFlows(histA, histB, st, a, b, takenA, takenB, ps[..k], ms[..k]);
      var ist := HearAll(IState(a, false, 0), ps[..k], ms[..k]);
      assert Honest(histB, b, a.tx.nxt, ps[k], ms[k]);
      FreshAfter(a, ist.id, b, ps, ms);
      PacketHeard(histA, histB, ProcessAll(st, ps[..k]), ist, b, takenA, takenB, ps, ms, k);
    }
  }

  /** Counting skips after the loop changes no number. */
  lemma FinishKeepsFlows(histA: seq<Frag>, histB: seq<Frag>, st: IState, b: Ideal, takenA: nat, takenB: nat)
    requires BothFlow(histA, histB, st.id, b, takenA, takenB)
    ensures BothFlow(histA, histB, IFinish(st), b, takenA, takenB) && Absorbed(st.id, IFinish(st))
    ensures IFinish(st).tx.una == st.id.tx.una && IFinish(st).rx == st.id.rx && IFinish(st).acks == st.id.acks
  {
    var id := st.id;
    assert id.tx.(buf := id.tx.buf) == id.tx;
    SkipsKeepFlow(histA, id, b, takenA, IFinish(st).tx.buf);
    FlowsDependOn(histB, b, id, b, IFinish(st), takenB);
  }

  /** A fresh honest datagram keeps both directions and the refinement. */
  lemma DatagramKeepsFlows(histA: seq<Frag>, histB: seq<Frag>, cb: Cb, a: Ideal, b: Ideal, takenA: nat, takenB: nat,
                           bytes: seq<byte>, ms: seq<Mark>)
    requires BothFlow(histA, histB, a, b, takenA, takenB) && ITxOrdered(b.tx) && a.rx.wnd <= 0x7fff_0000
    requires var ps := DecodeAll(cb.cfg.conv, bytes).packets;
             Fresh(a, b, ps, ms) && HonestAll(histB, b, a.tx.nxt, ps, ms) && Refines(cb, a)
    ensures var d := DecodeAll(cb.cfg.conv, bytes);
            var a' := HearInput(a, d.packets, ms, d.ret);
            Refines(Input(cb, bytes).0, a') && BothFlow(histA, histB, a', b, takenA, takenB) && Absorbed(a, a')
            && a.tx.una <= a'.tx.una
  {
    hide BothFlow, ProcessAll, FinishInput;
    var d, st := DecodeAll(cb.cfg.conv, bytes), InState(cb, false, 0);
    assert InRefines(st, IState(a, false, 0));
    PacketsKeepFlows(histA, histB, st, a, b, takenA, takenB, d.packets, ms);
    var ist := HearAll(IState(a, false, 0), d.packets, ms);
    FinishKeepsFlows(histA, histB, ist, b, takenA, takenB);
    if |bytes| >= OVERHEAD && d.ret >= 0 {
      FinishRefines(ProcessAll(st, d.packets), ist, a.tx.una);
    }
  }

  /** What a datagram changes. */
  lemma DeliverEffect(n: Net, d: Dgram)
    requires Possible(n, DoDeliver(d))
    ensures var m, r := Act(n, DoDeliver(d)), DecodeAll(n.a.cb.cfg.conv, d.bytes);
            m == n.(a := m.a) && m.a.sent == n.a.sent && m.a.got == n.a.got && m.a.cb == Input(n.a.cb, d.bytes).0
            && |r.packets| == |d.marks| && m.a.id == HearInput(n.a.id, r.packets, d.marks, r.ret)
  {
    hide Input, DecodeAll, HearInput;
  }

  /** ikcp_input on a fresh datagram of the other end. */
  lemma InputKeepsFlows(n: Net, d: Dgram)
    requires Inv(n) && Possible(n, DoDeliver(d))
    ensures var a, b, a' := n.a, n.b, Act(n, DoDeliver(d)).a;
            Refines(a'.cb, a'.id) && a'.cb.cfg == a.cb.cfg && Absorbed(a.id, a'.id) && a.id.tx.una <= a'.id.tx.una
            && BothFlow(Hist(a), Hist(b), a'.id, b.id, Taken(a, b), Taken(b, a))
  {
    hide Act, Fresh, Honest, Flows, Stream, DecodeAll, Input, HearInput, Refines, Hist, Taken, Absorbed;
    var a, b := n.a, n.b;
    DeliverEffect(n, d);
    PeerOrdered(a);
    PeerOrdered(b);
    assert HonestDgram(b.cb.cfg.conv, Hist(b), b.id, a.id.tx.nxt, d);
    KcpControl.InputKeepsCfg(a.cb, d.bytes);
    DatagramKeepsFlows(Hist(a), Hist(b), a.cb, a.id, b.id, Taken(a, b), Taken(b, a), d.bytes, d.marks);
  }

  lemma PeerOrdered(p: Peer)
    requires PeerOk(p)
    ensures Refines(p.cb, p.id) && ITxOrdered(p.id.tx) && p.id.rx.wnd <= 0x7fff_0000
  {}

  lemma AbsorbedPeer(p: Peer, p': Peer)
    requires PeerOk(p) && Refines(p'.cb, p'.id) && p'.cb.cfg == p.cb.cfg && p'.sent == p.sent && Absorbed(p.id, p'.id)
    ensures PeerOk(p') && Later(Hist(p), p.id, Hist(p'), p'.id)
  {}

  lemma DeliverKeepsInv(n: Net, d: Dgram)
    requires Inv(n) && Possible(n, DoDeliver(d))
    ensures Inv(Act(n, DoDeliver(d)))
  {
    hide Act, Input, HearInput, DecodeAll, Flows, HonestNet, Stream, Refines, PeerOk, Hist, Taken, Possible, Later;
    var a, b, a' := n.a, n.b, Act(n, DoDeliver(d)).a;
    DeliverEffect(n, d);
    InputKeepsFlows(n, d);
    AbsorbedPeer(a, a');
    SamePeerHist(a, a');
    SameTaken(a, a', b, b);
    SameTaken(b, b, a, a');
    HonestLater(a.cb.cfg.conv, Hist(a), a.id, b.id.tx.nxt, Hist(a'), a'.id, b.id.tx.nxt, n.ab);
  }

  // ---- runs ----

  lemma ActKeepsInv(n: Net, action: Action)
    requires Inv(n) && Possible(n, action)
    ensures Inv(Act(n, action))
  {
    hide Inv, Send, Recv, Input, Flush, IFlush, HearInput, DecodeAll, Fresh, Datagrams;
    match action
    case DoSend(data) => SendKeepsInv(n, data);
    case DoRecv(len) => RecvKeepsInv(n, len);
    case DoFlush => TransmitKeepsInv(n, n.a.cb);
    case DoUpdate(now) =>
      var clock := Tick(n.a.cb.cfg.interval, n.a.cb.clock, now).0;
      TransmitKeepsInv(n, n.a.cb.(clock := clock));
      ClockKeepsInv(n, n.a.cb.(clock := clock));
    case DoDeliver(d) => DeliverKeepsInv(n, d);
  }

  lemma {:induction false} RunKeepsInv(n: Net, steps: seq<Step>)
    requires Inv(n) && Run(n, steps)
    ensures Inv(After(n, steps))
  {
    hide Inv, Act, Possible;
    if steps != [] {
      var init, last := steps[..|steps| - 1], steps[|steps| - 1];
      RunKeepsInv(n, init);
      var m := After(n, init);
      SwapKeepsInv(m);
      ActKeepsInv(if last.left then m else Swap(m), last.action);
      SwapKeepsInv(Act(if last.left then m else Swap(m), last.action));
    }
  }

  lemma SwapKeepsInv(n: Net)
    requires Inv(n)
    ensures Inv(Swap(n))
  {}

  /** Two freshly created ends in message mode with the same conversation number. */
  ghost predicate SetUp(n: Net) {
    exists cfgA: Config, wndA: u32, cfgB: Config, wndB: u32 ::
      n == Net(NewPeer(cfgA, wndA), NewPeer(cfgB, wndB), {}, {}) && cfgA.conv == cfgB.conv
      && !cfgA.stream && !cfgB.stream && 128 <= wndA <= 0x7fff_0000 && 128 <= wndB <= 0x7fff_0000
  }

  lemma SetUpInv(n: Net)
    requires SetUp(n)
    ensures Inv(n)
  {
    assert Stream(n.a.cb.cfg.Mss(), []) == [] && Stream(n.b.cb.cfg.Mss(), []) == [];
  }

  /** Main result: however the network loses, duplicates and reorders datagrams,
      each end receives a prefix of the messages the other end sent, whole and in order. */
  lemma Delivery(n: Net, steps: seq<Step>)
    requires SetUp(n) && Run(n, steps)
    ensures After(n, steps).b.got <= After(n, steps).a.sent
    ensures After(n, steps).a.got <= After(n, steps).b.sent
  {
    hide Next, Run, SetUp, Refines, Flows, HonestNet, PeerOk;
    SetUpInv(n);
    RunKeepsInv(n, steps);
  }

  /** A segment leaves the sender's buffer only once the receiver has stored it. */
  lemma DroppedOnlyWhenStored(n: Net, steps: seq<Step>, no: int)
    requires SetUp(n) && Run(n, steps)
    requires 0 <= no < After(n, steps).a.id.tx.nxt
    ensures InBuf(After(n, steps).a.id.tx.buf, no) || Stored(After(n, steps).b.id.rx, no)
    ensures SegsRefine(After(n, steps).a.cb.tx.buf, After(n, steps).a.id.tx.buf)
    ensures RcvRefine(After(n, steps).b.cb.rx.buf, After(n, steps).b.id.rx.buf)
  {
    hide Next, Run, SetUp, Stored, InBuf, HonestNet, SegsRefine, RcvRefine;
    SetUpInv(n);
    RunKeepsInv(n, steps);
  }

  /** A receive queue of 128 segments or more, and one that holds all that is
      left of the stream, has a whole message at its head. */
  lemma FullQueueHasMessage(s: Peer, r: Peer, ds: set<Dgram>)
    requires Direction(s, r, ds)
    ensures |r.cb.rx.queue| >= WND_RCV || (|r.got| < |s.sent| && r.id.rx.nxt == |Hist(s)|) ==> PeekSize(r.cb.rx.queue) >= 0
  {
    assert s.sent[..|r.got|] == r.got;
    QueueDeliversNext(s.cb.cfg.Mss(), s.sent, |r.got|, r.id.rx.queue, r.id.rx.nxt);
  }

  /** No wedged receiver: a full receive queue has a whole message at its head. */
  lemma FullQueueDelivers(n: Net, steps: seq<Step>)
    requires SetUp(n) && Run(n, steps)
    requires |After(n, steps).b.cb.rx.queue| >= After(n, steps).b.cb.rx.wnd
    ensures PeekSize(After(n, steps).b.cb.rx.queue) >= 0
  {
    hide Next, Run, SetUp, Flows, HonestNet, PeekSize;
    SetUpInv(n);
    RunKeepsInv(n, steps);
    var m := After(n, steps);
    FullQueueHasMessage(m.a, m.b, m.ab);
  }

  // ---- nothing is left over ----

  /** The queue order of KcpQueues holds at both ends throughout a run. */
  ghost predicate BothOrdered(n: Net) {
    KcpQueues.Ordered(n.a.cb) && KcpQueues.Ordered(n.b.cb)
  }

  lemma ActKeepsOrdered(n: Net, action: Action)
    requires BothOrdered(n)
    ensures BothOrdered(Act(n, action))
  {
    hide KcpQueues.Ordered, KcpQueues.Forward, KcpQueues.Advanced, Send, Recv, Input, Flush, IFlush, HearInput, DecodeAll, Datagrams, IAfterRecv;
    match action
    case DoSend(data) => KcpQueues.SendKeepsOrder(n.a.cb, data);
    case DoRecv(len) => KcpQueues.RecvKeepsOrder(n.a.cb, len);
    case DoFlush => KcpQueues.FlushKeepsOrder(n.a.cb);
    case DoUpdate(now) =>
      var cb := n.a.cb.(clock := Tick(n.a.cb.cfg.interval, n.a.cb.clock, now).0);
      KcpQueues.ClockKeepsOrder(n.a.cb, cb.clock);
      KcpQueues.FlushKeepsOrder(cb);
    case DoDeliver(d) => KcpQueues.InputKeepsOrder(n.a.cb, d.bytes);
  }

  lemma {:induction false} RunKeepsOrdered(n: Net, steps: seq<Step>)
    requires BothOrdered(n)
    ensures BothOrdered(After(n, steps))
  {
    hide KcpQueues.Ordered, Act;
    if steps != [] {
      var init, last := steps[..|steps| - 1], steps[|steps| - 1];
      RunKeepsOrdered(n, init);
      var m := After(n, init);
      ActKeepsOrdered(if last.left then m else Swap(m), last.action);
    }
  }

  lemma HeadMissing(rx: IRx)
    requires IRxOrdered(rx) && (rx.buf == [] || rx.buf[0].no != rx.nxt)
    ensures !Stored(rx, rx.nxt)
  {}

  /** When nothing waits at the sender and the receive queue is not full,
      everything ever sent is in the receive queue or with the application. */
  lemma AllArrived(s: Peer, r: Peer, ds: set<Dgram>)
    requires Direction(s, r, ds) && KcpQueues.Ordered(r.cb)
    requires s.cb.tx.queue == [] && s.cb.tx.buf == [] && |r.cb.rx.queue| < r.cb.rx.wnd
    ensures r.id.rx.nxt == |Hist(s)|
  {
    var rx, tx := r.id.rx, s.id.tx;
    HeadMissing(rx);
    assert rx.nxt < tx.nxt ==> Stored(rx, rx.nxt) || InBuf(tx.buf, rx.nxt);
    assert Hist(s)[tx.nxt..] == [];
  }

  lemma DrainedDirection(s: Peer, r: Peer, ds: set<Dgram>)
    requires Direction(s, r, ds) && KcpQueues.Ordered(r.cb)
    requires s.cb.tx.queue == [] && s.cb.tx.buf == [] && PeekSize(r.cb.rx.queue) < 0
    ensures r.got == s.sent
  {
    FullQueueHasMessage(s, r, ds);
    AllArrived(s, r, ds);
  }

  lemma FreshOrdered(n: Net)
    requires SetUp(n)
    ensures BothOrdered(n)
  {}

  lemma FirstDirection(n: Net)
    requires Inv(n)
    ensures Direction(n.a, n.b, n.ab)
  {}

  /** Once the sender waits for nothing (ikcp_waitsnd is 0) and ikcp_recv finds
      nothing more, the messages received are exactly the messages sent. */
  lemma DrainedMeansAll(n: Net, steps: seq<Step>)
    requires SetUp(n) && Run(n, steps)
    requires var m := After(n, steps);
             m.a.cb.tx.queue == [] && m.a.cb.tx.buf == [] && PeekSize(m.b.cb.rx.queue) < 0
    ensures After(n, steps).b.got == After(n, steps).a.sent
  {
    hide Next, Run, SetUp, Direction, Inv, PeekSize, KcpQueues.Ordered;
    SetUpInv(n);
    FreshOrdered(n);
    RunKeepsInv(n, steps);
    RunKeepsOrdered(n, steps);
    var m := After(n, steps);
    FirstDirection(m);
    DrainedDirection(m.a, m.b, m.ab);
  }
}
