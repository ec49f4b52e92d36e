/** The KCP control block as a value, and what each operation of ikcp.c does to
    it. The class in Kcp.dfy carries the same state in mutable fields; its
    methods are proved to compute these functions. */
module KcpSpec {
  import opened Words
  import opened KcpWire

  const RTO_MAX: u32 := 60000
  const WND_RCV: nat := 128
  const PROBE_INIT: u32 := 7000
  const PROBE_LIMIT: u32 := 120000
  const THRESH_MIN: u32 := 2

  /** One fragment of a message; `frg` counts the fragments still to come. */
  datatype Frag = Frag(frg: byte, data: seq<byte>)

  /** A segment of snd_buf: sent at least once, or about to be. */
  datatype SndSeg = SndSeg(sn: u32, frag: Frag, wnd: u16, ts: u32, una: u32,
                           resendts: u32, rto: u32, fastack: u32, xmit: u32)

  /** A segment of rcv_buf. */
  datatype RcvSeg = RcvSeg(sn: u32, frag: Frag)

  datatype Ack = Ack(sn: u32, ts: u32)

  /** The sizes ikcp_setmtu accepts. */
  type Mtu = m: int | 50 <= m < 0x8000_0000 witness 1400

  /** What is fixed at set-up. */
  datatype Config = Config(conv: u32, mtu: Mtu, sndWnd: u32, minrto: u32, interval: u32, nodelay: u32,
                           fastresend: int, fastlimit: int, nocwnd: bool, stream: bool, deadLink: u32)
  {
    function Mss(): u32 { mtu - OVERHEAD }
  }

  datatype Tx = Tx(una: u32, nxt: u32, queue: seq<Frag>, buf: seq<SndSeg>)

  /** No segment to be sent is longer than mss. */
  predicate SegmentsFit(mss: nat, tx: Tx) {
    (forall i :: 0 <= i < |tx.queue| ==> |tx.queue[i].data| <= mss)
    && (forall i :: 0 <= i < |tx.buf| ==> |tx.buf[i].frag.data| <= mss)
  }

  datatype Rx = Rx(nxt: u32, wnd: u32, queue: seq<Frag>, buf: seq<RcvSeg>)

  datatype Congestion = Congestion(rmtWnd: u16, cwnd: u32, incr: u32, ssthresh: u32)

  datatype Rtt = Rtt(srtt: int, rttval: int, rto: u32)

  /** Window probing: what to ask or tell next, and the back-off of asking. */
  datatype Probe = Probe(ask: bool, tell: bool, wait: u32, ts: u32)

  datatype Clock = Clock(current: u32, tsFlush: u32, updated: bool)

  /** Resend counter and the dead-link state. */
  datatype Link = Link(xmit: u32, dead: bool)

  datatype Cb = Cb(cfg: Config, tx: Tx, rx: Rx, cc: Congestion, rtt: Rtt, probe: Probe, clock: Clock,
                   link: Link, acks: seq<Ack>)

  /** A freshly created and configured control block. */
  function Create(cfg: Config, rcvWnd: u32): Cb {
    Cb(cfg, Tx(0, 0, [], []), Rx(0, rcvWnd, [], []), Congestion(128, 0, 0, 2), Rtt(0, 0, 200),
       Probe(false, false, 0, 0), Clock(0, 100, false), Link(0, false), [])
  }

  // ---- ikcp_send ----

  /** `data` cut into `count` pieces of at most `mss` bytes. In message mode the
      pieces count down to 0; in stream mode every piece is final. */
  function Fragments(data: seq<byte>, mss: nat, count: nat, stream: bool): (fs: seq<Frag>)
    requires count <= 256
    ensures |fs| == count
    decreases count
  {
    if count == 0 then []
    else
      var size := Min(|data|, mss);
      [Frag(if stream then 0 else count - 1, data[..size])] + Fragments(data[size..], mss, count - 1, stream)
  }

  function FragCount(len: nat, mss: nat): nat
    requires mss > 0
  {
    if len <= mss then 1 else (len + mss - 1) / mss
  }

  /** In stream mode the last queued segment is first filled up to mss. */
  function ExtendTail(queue: seq<Frag>, data: seq<byte>, mss: nat): (seq<Frag>, seq<byte>) {
    if queue == [] || |queue[|queue| - 1].data| >= mss then (queue, data)
    else
      var last := queue[|queue| - 1];
      var extend := Min(|data|, mss - |last.data|);
      (queue[..|queue| - 1] + [Frag(0, last.data + data[..extend])], data[extend..])
  }

  function Send(cb: Cb, data: seq<byte>): (Cb, int) {
    var mss := cb.cfg.Mss();
    var (queue, rest) := if cb.cfg.stream then ExtendTail(cb.tx.queue, data, mss) else (cb.tx.queue, data);
    var cb1 := cb.(tx := cb.tx.(queue := queue));
    if cb.cfg.stream && rest == [] then (cb1, 0)
    else
      var count := FragCount(|rest|, mss);
      if count >= WND_RCV then (cb1, -2)
      else (cb1.(tx := cb1.tx.(queue := queue + Fragments(rest, mss, count, cb.cfg.stream))), 0)
  }

  // ---- ikcp_peeksize, ikcp_recv ----

  /** The number of segments up to and including the first final one. */
  function MessageLen(queue: seq<Frag>): (n: nat)
    ensures n <= |queue|
  {
    if queue == [] then 0 else if queue[0].frg == 0 then 1 else 1 + MessageLen(queue[1..])
  }

  function Join(fs: seq<Frag>): seq<byte> {
    if fs == [] then [] else Join(fs[..|fs| - 1]) + fs[|fs| - 1].data
  }

  function PeekSize(queue: seq<Frag>): int {
    if queue == [] then -1
    else if queue[0].frg == 0 then |queue[0].data|
    else if |queue| < queue[0].frg as int + 1 then -1
    else |Join(queue[..MessageLen(queue)])|
  }

  /** Segments of rcv_buf that are next in order move to rcv_queue while it has room. */
  function MoveReady(rx: Rx): Rx
    decreases |rx.buf|
  {
    if rx.buf != [] && rx.buf[0].sn == rx.nxt && |rx.queue| < rx.wnd then
      MoveReady(Rx(Wrap(rx.nxt + 1), rx.wnd, rx.queue + [rx.buf[0].frag], rx.buf[1..]))
    else rx
  }

  datatype RecvResult = RecvResult(cb: Cb, ret: int, data: seq<byte>)

  /** The receiving half after the message at the head was taken, or only peeked at. */
  function RxAfterRecv(rx: Rx, peek: bool): Rx {
    MoveReady(if peek then rx else rx.(queue := rx.queue[MessageLen(rx.queue)..]))
  }

  function Take(cb: Cb, peek: bool): RecvResult {
    var rx := RxAfterRecv(cb.rx, peek);
    var tell := |cb.rx.queue| >= cb.rx.wnd && |rx.queue| < rx.wnd;
    var data := Join(cb.rx.queue[..MessageLen(cb.rx.queue)]);
    RecvResult(cb.(rx := rx, probe := cb.probe.(tell := cb.probe.tell || tell)), |data|, data)
  }

  /** `len < 0` asks for a copy that leaves the message in the queue. */
  function Recv(cb: Cb, len: int): RecvResult {
    var size := PeekSize(cb.rx.queue);
    if cb.rx.queue == [] then RecvResult(cb, -1, [])
    else if size < 0 then RecvResult(cb, -2, [])
    else if size > (if len < 0 then -len else len) then RecvResult(cb, -3, [])
    else Take(cb, len < 0)
  }

  lemma JoinSnoc(fs: seq<Frag>, p: nat)
    requires p < |fs|
    ensures Join(fs[..p + 1]) == Join(fs[..p]) + fs[p].data
  {
    assert fs[..p + 1][..p] == fs[..p];
  }

  /** A non-negative answer of ikcp_peeksize is the length ikcp_recv then finds. */
  lemma PeekSizeIsJoin(queue: seq<Frag>)
    requires PeekSize(queue) >= 0
    ensures queue != [] && PeekSize(queue) == |Join(queue[..MessageLen(queue)])|
  {
    if queue[0].frg == 0 {
      JoinSnoc(queue, 0);
    }
  }

  // ---- acknowledgements ----

  function ShrinkBuf(tx: Tx): Tx {
    tx.(una := if tx.buf == [] then tx.nxt else tx.buf[0].sn)
  }

  function DropBelow(buf: seq<SndSeg>, una: u32): seq<SndSeg> {
    if buf != [] && TimeDiff(una, buf[0].sn) > 0 then DropBelow(buf[1..], una) else buf
  }

  function ParseUna(tx: Tx, una: u32): Tx {
    tx.(buf := DropBelow(tx.buf, una))
  }

  function DropAcked(buf: seq<SndSeg>, sn: u32): seq<SndSeg> {
    if buf == [] then buf
    else if sn == buf[0].sn then buf[1..]
    else if TimeDiff(sn, buf[0].sn) < 0 then buf
    else [buf[0]] + DropAcked(buf[1..], sn)
  }

  predicate InFlight(tx: Tx, sn: u32) {
    TimeDiff(sn, tx.una) >= 0 && TimeDiff(sn, tx.nxt) < 0
  }

  function ParseAck(tx: Tx, sn: u32): Tx {
    if InFlight(tx, sn) then tx.(buf := DropAcked(tx.buf, sn)) else tx
  }

  /** Segments older than the largest acknowledged one, from position `p` on, count a skip. */
  function BumpFastack(buf: seq<SndSeg>, sn: u32, p: nat): seq<SndSeg>
    requires p <= |buf|
    decreases |buf| - p
  {
    if p == |buf| || TimeDiff(sn, buf[p].sn) < 0 then buf
    else
      var seg := if sn == buf[p].sn then buf[p] else buf[p].(fastack := Wrap(buf[p].fastack + 1));
      BumpFastack(buf[p := seg], sn, p + 1)
  }

  function ParseFastack(tx: Tx, sn: u32): Tx {
    if InFlight(tx, sn) then tx.(buf := BumpFastack(tx.buf, sn, 0)) else tx
  }

  function Bound(lower: u32, middle: u32, upper: u32): u32 {
    Min(Max(lower, middle), upper)
  }

  /** The round-trip estimator: the timeout that follows a measured `rtt`. */
  function UpdateAck(cfg: Config, r: Rtt, rtt: int): Rtt {
    var delta := if rtt - r.srtt < 0 then r.srtt - rtt else rtt - r.srtt;
    var rttval := if r.srtt == 0 then Quot(rtt, 2) else Quot(Signed(3 * r.rttval + delta), 4);
    var smooth := Quot(Signed(7 * r.srtt + rtt), 8);
    var srtt := if r.srtt == 0 then rtt else if smooth < 1 then 1 else smooth;
    var rto := Wrap(srtt + Max(cfg.interval, Wrap(4 * rttval)));
    Rtt(srtt, rttval, Bound(cfg.minrto, rto, RTO_MAX))
  }

  // ---- incoming data ----

  /** Where a segment goes among the first `n` of rcv_buf, scanning from the
      back; the flag says that its number is already there. */
  function InsertPos(buf: seq<RcvSeg>, sn: u32, n: nat): (r: (nat, bool))
    requires n <= |buf|
    ensures r.0 <= n
  {
    if n == 0 then (0, false)
    else if buf[n - 1].sn == sn then (n, true)
    else if TimeDiff(sn, buf[n - 1].sn) > 0 then (n, false)
    else InsertPos(buf, sn, n - 1)
  }

  function Insert(buf: seq<RcvSeg>, seg: RcvSeg): seq<RcvSeg> {
    var (p, repeated) := InsertPos(buf, seg.sn, |buf|);
    if repeated then buf else buf[..p] + [seg] + buf[p..]
  }

  /** The window test that admits data (and makes it acknowledged). */
  predicate BelowWindowEnd(rx: Rx, sn: u32) {
    TimeDiff(sn, Wrap(rx.nxt + rx.wnd)) < 0
  }

  predicate InWindow(rx: Rx, sn: u32) {
    BelowWindowEnd(rx, sn) && TimeDiff(sn, rx.nxt) >= 0
  }

  function ParseData(rx: Rx, seg: RcvSeg): Rx {
    if InWindow(rx, seg.sn) then MoveReady(rx.(buf := Insert(rx.buf, seg))) else rx
  }

  // ---- ikcp_input ----

  /** The loop state of ikcp_input: the control block and the largest ack seen. */
  datatype InState = InState(cb: Cb, flag: bool, maxack: u32)

  function ProcessAck(st: InState, p: Packet): InState {
    var cb := st.cb;
    var rtt := TimeDiff(cb.clock.current, p.ts);
    InState(cb.(rtt := if rtt >= 0 then UpdateAck(cb.cfg, cb.rtt, rtt) else cb.rtt,
                tx := ShrinkBuf(ParseAck(cb.tx, p.sn))),
            true,
            if !st.flag || TimeDiff(p.sn, st.maxack) > 0 then p.sn else st.maxack)
  }

  function ProcessPush(cb: Cb, p: Packet): Cb {
    if !BelowWindowEnd(cb.rx, p.sn) then cb
    else cb.(acks := cb.acks + [Ack(p.sn, p.ts)], rx := ParseData(cb.rx, RcvSeg(p.sn, Frag(p.frg, p.data))))
  }

  /** Every packet carries the peer's window and the lowest number it still wants. */
  function ProcessUna(cb: Cb, p: Packet): Cb {
    cb.(cc := cb.cc.(rmtWnd := p.wnd), tx := ShrinkBuf(ParseUna(cb.tx, p.una)))
  }

  function ProcessPacket(st: InState, p: Packet): InState {
    var cb := ProcessUna(st.cb, p);
    if p.cmd == CMD_ACK then ProcessAck(st.(cb := cb), p)
    else if p.cmd == CMD_PUSH then st.(cb := ProcessPush(cb, p))
    else if p.cmd == CMD_WASK then st.(cb := cb.(probe := cb.probe.(tell := true)))
    else st.(cb := cb)
  }

  function ProcessAll(st: InState, ps: seq<Packet>): InState {
    if ps == [] then st else ProcessPacket(ProcessAll(st, ps[..|ps| - 1]), ps[|ps| - 1])
  }

  lemma ProcessSnoc(st: InState, ps: seq<Packet>, p: Packet)
    ensures ProcessAll(st, ps + [p]) == ProcessPacket(ProcessAll(st, ps), p)
  {
    assert (ps + [p])[..|ps|] == ps;
  }

  function Mul32(a: u32, b: u32): u32 {
    Wrap(a * b)
  }

  function Div32(a: u32, b: u32): u32
    requires b > 0
  {
    a / b
  }

  /** Growth of the congestion window when the oldest unacknowledged number moved on. */
  function GrowWindow(cc: Congestion, mss: u32): Congestion
    requires mss > 0
  {
    if cc.cwnd >= cc.rmtWnd as int then cc
    else
      var base := Max(cc.incr, mss);
      var incr := if cc.cwnd < cc.ssthresh then Wrap(cc.incr + mss)
                  else Wrap(base + Div32(Mul32(mss, mss), base) + mss / 16);
      var cwnd := if cc.cwnd < cc.ssthresh then Wrap(cc.cwnd + 1)
                  else if Mul32(Wrap(cc.cwnd + 1), mss) <= incr then Div32(Wrap(incr + mss - 1), mss)
                  else cc.cwnd;
      if cwnd > cc.rmtWnd as int then cc.(cwnd := cc.rmtWnd, incr := Mul32(cc.rmtWnd, mss))
      else cc.(cwnd := cwnd, incr := incr)
  }

  function FinishInput(st: InState, oldUna: u32): Cb {
    var tx := if st.flag then ParseFastack(st.cb.tx, st.maxack) else st.cb.tx;
    var cc := if TimeDiff(tx.una, oldUna) > 0 then GrowWindow(st.cb.cc, st.cb.cfg.Mss()) else st.cb.cc;
    st.cb.(tx := tx, cc := cc)
  }

  function Input(cb: Cb, b: seq<byte>): (Cb, int) {
    if |b| < OVERHEAD then (cb, -1)
    else
      var d := DecodeAll(cb.cfg.conv, b);
      var st := ProcessAll(InState(cb, false, 0), d.packets);
      if d.ret < 0 then (st.cb, d.ret) else (FinishInput(st, cb.tx.una), 0)
  }

  // ---- ikcp_flush ----

  function WndUnused(rx: Rx): nat {
    if |rx.queue| < rx.wnd then rx.wnd - |rx.queue| else 0
  }

  function AckPacket(cb: Cb, i: nat): Packet
    requires i < |cb.acks|
  {
    Packet(CMD_ACK, 0, WndUnused(cb.rx) % 0x1_0000, cb.acks[i].ts, cb.acks[i].sn, cb.rx.nxt, [])
  }

  function AckPackets(cb: Cb, n: nat): seq<Packet>
    requires n <= |cb.acks|
  {
    if n == 0 then [] else AckPackets(cb, n - 1) + [AckPacket(cb, n - 1)]
  }

  /** A probe; its number fields repeat those of the last acknowledgement. */
  function ProbePacket(cb: Cb, cmd: byte): Packet {
    if cb.acks == [] then Packet(cmd, 0, WndUnused(cb.rx) % 0x1_0000, 0, 0, cb.rx.nxt, [])
    else AckPacket(cb, |cb.acks| - 1).(cmd := cmd)
  }

  function ProbeTimer(probe: Probe, rmtWnd: u16, current: u32): Probe {
    if rmtWnd != 0 then probe.(ts := 0, wait := 0)
    else if probe.wait == 0 then probe.(wait := PROBE_INIT, ts := Wrap(current + PROBE_INIT))
    else if TimeDiff(current, probe.ts) < 0 then probe
    else
      var base := Max(probe.wait, PROBE_INIT);
      var wait := Min(Wrap(base + base / 2), PROBE_LIMIT);
      probe.(wait := wait, ts := Wrap(current + wait), ask := true)
  }

  /** The probing state when this flush decides what to ask and tell. */
  function Probing(cb: Cb): Probe {
    ProbeTimer(cb.probe, cb.cc.rmtWnd, cb.clock.current)
  }

  function ProbePackets(cb: Cb): seq<Packet> {
    (if Probing(cb).ask then [ProbePacket(cb, CMD_WASK)] else [])
    + (if Probing(cb).tell then [ProbePacket(cb, CMD_WINS)] else [])
  }

  function SendWindow(cb: Cb): u32 {
    var w := Min(cb.cfg.sndWnd, cb.cc.rmtWnd);
    if cb.cfg.nocwnd then w else Min(cb.cc.cwnd, w)
  }

  function NewSeg(cb: Cb, sn: u32, frag: Frag): SndSeg {
    SndSeg(sn, frag, WndUnused(cb.rx) % 0x1_0000, cb.clock.current, cb.rx.nxt, cb.clock.current, cb.rtt.rto, 0, 0)
  }

  /** One segment more in flight. */
  function FillOne(cb: Cb, tx: Tx): Tx
    requires tx.queue != []
  {
    Tx(tx.una, Wrap(tx.nxt + 1), tx.queue[1..], tx.buf + [NewSeg(cb, tx.nxt, tx.queue[0])])
  }

  /** Segments move from snd_queue to snd_buf while the window is open. */
  function FillWindow(cb: Cb, tx: Tx, cwnd: u32): Tx
    decreases |tx.queue|
  {
    if TimeDiff(tx.nxt, Wrap(tx.una + cwnd)) < 0 && tx.queue != [] then
      FillWindow(cb, FillOne(cb, tx), cwnd)
    else tx
  }

  function Resent(cfg: Config): u32 {
    if cfg.fastresend > 0 then Wrap(cfg.fastresend) else 0xffff_ffff
  }

  datatype Due = First | Timeout | Fast | NotDue

  /** Whether and why a segment is transmitted by this flush. */
  function DueNow(cb: Cb, s: SndSeg): Due {
    if s.xmit == 0 then First
    else if TimeDiff(cb.clock.current, s.resendts) >= 0 then Timeout
    else if s.fastack >= Resent(cb.cfg) && (Signed(s.xmit) <= cb.cfg.fastlimit || cb.cfg.fastlimit <= 0) then Fast
    else NotDue
  }

  function BackedOff(cb: Cb, rto: u32): u32 {
    if cb.cfg.nodelay == 0 then Wrap(rto + Max(rto, cb.rtt.rto))
    else
      var step := if cb.cfg.nodelay < 2 then Signed(rto) else cb.rtt.rto;
      Wrap(rto + Quot(step, 2))
  }

  /** The segment after this flush has dealt with it. */
  function Touch(cb: Cb, s: SndSeg): SndSeg {
    var current := cb.clock.current;
    var s1 := match DueNow(cb, s)
      case First =>
        var rtomin := if cb.cfg.nodelay == 0 then cb.rtt.rto / 8 else 0;
        s.(xmit := 1, rto := cb.rtt.rto, resendts := Wrap(current + cb.rtt.rto + rtomin))
      case Timeout =>
        var rto := BackedOff(cb, s.rto);
        s.(xmit := Wrap(s.xmit + 1), rto := rto, resendts := Wrap(current + rto))
      case Fast =>
        s.(xmit := Wrap(s.xmit + 1), fastack := 0, resendts := Wrap(current + s.rto))
      case NotDue => s;
    if DueNow(cb, s) == NotDue then s else s1.(ts := current, wnd := WndUnused(cb.rx) % 0x1_0000, una := cb.rx.nxt)
  }

  /** A flush never changes what a segment carries. */
  lemma TouchKeeps(cb: Cb, s: SndSeg)
    ensures Touch(cb, s).sn == s.sn && Touch(cb, s).frag == s.frag
  {}

  function PushPacket(s: SndSeg): Packet {
    Packet(CMD_PUSH, s.frag.frg, s.wnd, s.ts, s.sn, s.una, s.frag.data)
  }

  /** The data loop of a flush over a prefix of snd_buf. */
  datatype Flushed = Flushed(buf: seq<SndSeg>, sent: seq<Packet>, lost: bool, change: bool, xmit: u32, dead: bool)

  function FlushOne(cb: Cb, f: Flushed, s: SndSeg): Flushed {
    var s' := Touch(cb, s);
    var due := DueNow(cb, s);
    Flushed(f.buf + [s'],
            if due == NotDue then f.sent else f.sent + [PushPacket(s')],
            f.lost || due == Timeout,
            f.change || due == Fast,
            if due == Timeout then Wrap(f.xmit + 1) else f.xmit,
            f.dead || (due != NotDue && s'.xmit >= cb.cfg.deadLink))
  }

  function FlushBuf(cb: Cb, buf: seq<SndSeg>): Flushed {
    if buf == [] then Flushed([], [], false, false, cb.link.xmit, cb.link.dead)
    else FlushOne(cb, FlushBuf(cb, buf[..|buf| - 1]), buf[|buf| - 1])
  }

  lemma UpdateMiddle<T>(done: seq<T>, all: seq<T>, i: nat, x: T)
    requires |done| == i < |all|
    ensures (done + all[i..])[i := x] == (done + [x]) + all[i + 1..]
  {}

  lemma FlushBufSnoc(cb: Cb, buf: seq<SndSeg>, i: nat)
    requires i < |buf|
    ensures FlushBuf(cb, buf[..i + 1]) == FlushOne(cb, FlushBuf(cb, buf[..i]), buf[i])
    ensures |FlushBuf(cb, buf[..i]).buf| == i
  {
    assert buf[..i + 1][..i] == buf[..i];
    FlushBufLength(cb, buf[..i]);
  }

  lemma {:induction false} FlushBufLength(cb: Cb, buf: seq<SndSeg>)
    ensures |FlushBuf(cb, buf).buf| == |buf|
  {
    if buf != [] {
      FlushBufLength(cb, buf[..|buf| - 1]);
    }
  }

  /** Congestion control after a flush that used window `cwnd`. */
  function AfterFlush(cfg: Config, cc: Congestion, tx: Tx, f: Flushed, cwnd: u32): Congestion {
    var mss := cfg.Mss();
    var c1 := if !f.change then cc else
      var thresh := Max(Wrap(tx.nxt - tx.una) / 2, THRESH_MIN);
      var w := Wrap(thresh + Resent(cfg));
      cc.(ssthresh := thresh, cwnd := w, incr := Mul32(w, mss));
    var c2 := if !f.lost then c1 else c1.(ssthresh := Max(cwnd / 2, THRESH_MIN), cwnd := 1, incr := mss);
    if c2.cwnd < 1 then c2.(cwnd := 1, incr := mss) else c2
  }

  /** The control block as the data loop sees it, with the window filled. */
  function Filled(cb: Cb): Tx {
    FillWindow(cb, cb.tx, SendWindow(cb))
  }

  /** Every packet of a flush: acknowledgements, probes, due segments. */
  function FlushPackets(cb: Cb): seq<Packet> {
    AckPackets(cb, |cb.acks|) + ProbePackets(cb) + FlushBuf(cb, Filled(cb).buf).sent
  }

  function Flush(cb: Cb): (Cb, seq<seq<Packet>>) {
    if !cb.clock.updated then (cb, [])
    else
      var tx := Filled(cb);
      var f := FlushBuf(cb, tx.buf);
      (cb.(tx := tx.(buf := f.buf), cc := AfterFlush(cb.cfg, cb.cc, tx, f, SendWindow(cb)),
           probe := Probing(cb).(ask := false, tell := false), link := Link(f.xmit, f.dead), acks := []),
       PackAll(cb.cfg.mtu, FlushPackets(cb)))
  }

  // ---- ikcp_update, ikcp_check ----

  /** The clock part of ikcp_update; the flag says that a flush follows. */
  function Tick(interval: u32, clock: Clock, current: u32): (Clock, bool) {
    var first := if clock.updated then clock.tsFlush else current;
    var far := TimeDiff(current, first) >= 10000 || TimeDiff(current, first) < -10000;
    var tsFlush := if far then current else first;
    if TimeDiff(current, tsFlush) < 0 then (Clock(current, tsFlush, true), false)
    else
      var next := Wrap(tsFlush + interval);
      (Clock(current, if TimeDiff(current, next) >= 0 then Wrap(current + interval) else next, true), true)
  }

  function Update(cb: Cb, current: u32): (Cb, seq<seq<Packet>>) {
    var (clock, due) := Tick(cb.cfg.interval, cb.clock, current);
    var cb1 := cb.(clock := clock);
    if due then Flush(cb1) else (cb1, [])
  }

  /** The least time to a resend among `buf`, or -1 when one is already due. */
  function NextResend(buf: seq<SndSeg>, current: u32, soonest: int): int {
    if buf == [] then soonest
    else
      var diff := TimeDiff(buf[0].resendts, current);
      if diff <= 0 then -1 else NextResend(buf[1..], current, Min(diff, soonest))
  }

  function Check(cb: Cb, current: u32): u32 {
    var slap := TimeDiff(current, cb.clock.tsFlush);
    if !cb.clock.updated || slap >= 0 || slap < -10000 then current
    else
      var packet := NextResend(cb.tx.buf, current, 0x7fff_ffff);
      if packet < 0 then current
      else Wrap(current + Min(Min(packet, TimeDiff(cb.clock.tsFlush, current)), cb.cfg.interval))
  }
}
