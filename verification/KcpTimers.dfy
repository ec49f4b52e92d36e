/** The timers of KCP in numbers: the retransmission timeout that follows a measured
    round trip, the moment a segment is sent again, the back-off of window probes and
    the flushes of ikcp_update. */
module KcpTimers {
  import opened Words
  import opened KcpWire
  import opened KcpSpec
  import opened KcpQueues
  import KcpControl
  import KcpPolling

  // ---- the retransmission timeout ----

  /** Magnitudes for which no 32-bit sum of the estimator wraps. */
  predicate Moderate(cfg: Config, r: Rtt, rtt: int) {
    && 0 <= r.srtt && 0 <= r.rttval && 0 <= rtt < 0x4000_0000 && cfg.interval < 0x4000_0000
    && 7 * r.srtt + rtt < 0x8000_0000 && 3 * r.rttval + Gap(r.srtt, rtt) < 0x8000_0000
  }

  function Gap(a: int, b: int): nat {
    if a <= b then b - a else a - b
  }

  /** Smoothed time and deviation: the sample and its half at first; after that seven
      eighths of the old time and three quarters of the old deviation, rounded down. */
  lemma Smoothed(cfg: Config, r: Rtt, rtt: int)
    requires Moderate(cfg, r, rtt)
    ensures var r' := UpdateAck(cfg, r, rtt);
            if r.srtt == 0 then r'.srtt == rtt && 2 * r'.rttval <= rtt < 2 * r'.rttval + 2
            else (r'.srtt == 1 || 8 * r'.srtt <= 7 * r.srtt + rtt) && 7 * r.srtt + rtt < 8 * r'.srtt + 8 && r'.srtt >= 1
                 && 4 * r'.rttval <= 3 * r.rttval + Gap(r.srtt, rtt) < 4 * r'.rttval + 4
  {
    hide Signed, Wrap, Bound;
    KcpControl.Small(7 * r.srtt + rtt);
    KcpControl.Small(3 * r.rttval + Gap(r.srtt, rtt));
  }

  lemma SmoothedSmall(cfg: Config, r: Rtt, rtt: int)
    requires Moderate(cfg, r, rtt)
    ensures var r' := UpdateAck(cfg, r, rtt);
            0 <= r'.srtt < 0x4000_0000 && 0 <= 4 * r'.rttval < 0x8000_0000
  {
    hide UpdateAck;
    Smoothed(cfg, r, rtt);
  }

  /** The timeout exceeds the smoothed time by four deviations and by the interval, and is
      at least minrto, unless one of these goes beyond 60 s; and it is no longer than that. */
  lemma TimeoutExact(cfg: Config, r: Rtt, rtt: int)
    requires Moderate(cfg, r, rtt)
    ensures var r' := UpdateAck(cfg, r, rtt);
            var wanted := r'.srtt + 4 * r'.rttval;
            r'.rto <= 60000
            && (r'.rto < 60000 ==> r'.rto >= cfg.minrto && r'.rto >= wanted && r'.rto >= r'.srtt + cfg.interval
                                   && (r'.rto == cfg.minrto || r'.rto == wanted || r'.rto == r'.srtt + cfg.interval))
            && (r'.rto == 60000 ==> cfg.minrto >= 60000 || wanted >= 60000 || r'.srtt + cfg.interval >= 60000)
  {
    hide Wrap, Signed;
    var r' := UpdateAck(cfg, r, rtt);
    SmoothedSmall(cfg, r, rtt);
    KcpControl.NoWrap(4 * r'.rttval);
    KcpControl.NoWrap(r'.srtt + Max(cfg.interval, 4 * r'.rttval));
  }

  // ---- the resend timer of a segment ----

  predicate TimedOut(cb: Cb, s: SndSeg) {
    s.xmit > 0 && TimeDiff(cb.clock.current, s.resendts) >= 0
  }

  /** Passed over often enough, and not yet sent too often for that. */
  predicate SkippedEnough(cb: Cb, s: SndSeg) {
    s.xmit > 0 && !TimedOut(cb, s)
    && (if cb.cfg.fastresend > 0 then s.fastack >= cb.cfg.fastresend as int else s.fastack == 0xffff_ffff)
    && (cb.cfg.fastlimit <= 0 || s.xmit >= 0x8000_0000 || s.xmit <= cb.cfg.fastlimit as int)
  }

  /** What this flush transmits. */
  predicate GoesOut(cb: Cb, s: SndSeg) {
    s.xmit == 0 || TimedOut(cb, s) || SkippedEnough(cb, s)
  }

  lemma Reasons(cb: Cb, s: SndSeg)
    requires cb.cfg.fastresend < 0x8000_0000
    ensures (DueNow(cb, s) == First <==> s.xmit == 0) && (DueNow(cb, s) == Timeout <==> TimedOut(cb, s))
    ensures (DueNow(cb, s) == Fast <==> SkippedEnough(cb, s)) && (DueNow(cb, s) == NotDue <==> !GoesOut(cb, s))
  {
    hide TimeDiff;
  }

  /** From now on, the time until the segment is sent again. */
  function Wait(cb: Cb, s: SndSeg): u32 {
    Ahead(cb.clock.current, s.resendts)
  }

  lemma WaitIs(current: u32, k: nat)
    requires k < 0x1_0000_0000
    ensures Ahead(current, Wrap(current + k)) == k
  {
    hide Wrap;
    WrapDifference(current + k, current);
    WrapSame(current);
    WrapSame(k);
  }

  /** First sent: the current timeout, and an eighth more unless nodelay. */
  lemma FirstWait(cb: Cb, s: SndSeg)
    requires s.xmit == 0 && cb.rtt.rto < 0x2000_0000
    ensures var s', w := Touch(cb, s), Wait(cb, Touch(cb, s)) - cb.rtt.rto;
            s'.xmit == 1 && s'.rto == cb.rtt.rto && s'.fastack == s.fastack
            && (if cb.cfg.nodelay == 0 then 8 * w <= cb.rtt.rto < 8 * w + 8 else w == 0)
  {
    hide Ahead, Wrap;
    WaitIs(cb.clock.current, cb.rtt.rto + if cb.cfg.nodelay == 0 then cb.rtt.rto / 8 else 0);
  }

  /** Timed out: the wait at least doubles, or with nodelay grows by a half of itself
      (nodelay 1) or of the current timeout (2 and above). */
  lemma TimeoutWait(cb: Cb, s: SndSeg)
    requires TimedOut(cb, s) && cb.rtt.rto < 0x2000_0000 && s.rto < 0x2000_0000 && s.xmit < 0xffff_ffff
    ensures var s' := Touch(cb, s);
            var more := s'.rto - s.rto;
            s'.xmit == s.xmit + 1 && s'.fastack == s.fastack && Wait(cb, s') == s'.rto
            && (cb.cfg.nodelay == 0 ==> more >= s.rto && more >= cb.rtt.rto && (more == s.rto || more == cb.rtt.rto))
            && (cb.cfg.nodelay == 1 ==> 2 * more <= s.rto < 2 * more + 2)
            && (cb.cfg.nodelay > 1 ==> 2 * more <= cb.rtt.rto < 2 * more + 2)
  {
    hide Ahead, Wrap, TimeDiff, Signed;
    KcpControl.Small(s.rto);
    KcpControl.NoWrap(s.xmit + 1);
    KcpControl.NoWrap(s.rto + Max(s.rto, cb.rtt.rto));
    KcpControl.NoWrap(s.rto + s.rto / 2);
    KcpControl.NoWrap(s.rto + cb.rtt.rto / 2);
    WaitIs(cb.clock.current, BackedOff(cb, s.rto));
  }

  /** Skipped: sent again at once, with the same wait and a new count. */
  lemma SkippedWait(cb: Cb, s: SndSeg)
    requires SkippedEnough(cb, s) && s.xmit < 0xffff_ffff && cb.cfg.fastresend < 0x8000_0000
    ensures var s' := Touch(cb, s);
            s'.xmit == s.xmit + 1 && s'.fastack == 0 && s'.rto == s.rto && Wait(cb, s') == s.rto
  {
    hide Ahead, Wrap, TimeDiff, SkippedEnough, TimedOut;
    Reasons(cb, s);
    KcpControl.NoWrap(s.xmit + 1);
    WaitIs(cb.clock.current, s.rto);
  }

  lemma Untouched(cb: Cb, s: SndSeg)
    requires cb.cfg.fastresend < 0x8000_0000
    ensures !GoesOut(cb, s) <==> Touch(cb, s) == s && DueNow(cb, s) == NotDue
  {
    hide GoesOut;
    Reasons(cb, s);
  }

  // ---- what a flush sends ----

  /** Positions of the segments that go out, in order. */
  function Outgoing(cb: Cb, buf: seq<SndSeg>): seq<nat> {
    if buf == [] then []
    else
      var k := |buf| - 1;
      Outgoing(cb, buf[..k]) + if GoesOut(cb, buf[k]) then [k] else []
  }

  lemma {:induction false} OutgoingExact(cb: Cb, buf: seq<SndSeg>)
    ensures var ks := Outgoing(cb, buf);
            (forall j :: 0 <= j < |ks| ==> ks[j] < |buf| && GoesOut(cb, buf[ks[j]]))
            && (forall i, j :: 0 <= i < j < |ks| ==> ks[i] < ks[j])
            && (forall i :: 0 <= i < |buf| && GoesOut(cb, buf[i]) ==> i in ks)
  {
    hide GoesOut;
    if buf != [] {
      OutgoingExact(cb, buf[..|buf| - 1]);
    }
  }

  /** A packet shows the lowest number still wanted and, in 16 bits, how many more
      segments the receive queue takes. */
  predicate Announces(rx: Rx, p: Packet) {
    p.una == rx.nxt && p.wnd == (if |rx.queue| >= rx.wnd then 0 else rx.wnd - |rx.queue|) % 0x1_0000
  }

  /** A segment on the wire, as this flush sends it. */
  predicate Carried(cb: Cb, s: SndSeg, p: Packet) {
    p.cmd == CMD_PUSH && p.sn == s.sn && p.frg == s.frag.frg && p.data == s.frag.data && p.ts == cb.clock.current
    && Announces(cb.rx, p)
  }

  /** Exactly the segments that were never sent, have timed out or were skipped often
      enough are sent, each once, in order, with the time, window and number of this flush; every
      segment of snd_buf is dealt with once. */
  lemma {:induction false} FlushSends(cb: Cb, buf: seq<SndSeg>)
    requires cb.cfg.fastresend < 0x8000_0000
    ensures |FlushBuf(cb, buf).buf| == |buf| && forall i :: 0 <= i < |buf| ==> FlushBuf(cb, buf).buf[i] == Touch(cb, buf[i])
    ensures |FlushBuf(cb, buf).sent| == |Outgoing(cb, buf)|
    ensures forall j :: 0 <= j < |Outgoing(cb, buf)| ==>
              Outgoing(cb, buf)[j] < |buf| && Carried(cb, buf[Outgoing(cb, buf)[j]], FlushBuf(cb, buf).sent[j])
  {
    hide GoesOut, DueNow;
    if buf != [] {
      var k := |buf| - 1;
      FlushSends(cb, buf[..k]);
      Reasons(cb, buf[k]);
      TouchKeeps(cb, buf[k]);
    }
  }

  predicate AllAnnounce(rx: Rx, ps: seq<Packet>) {
    forall i :: 0 <= i < |ps| ==> Announces(rx, ps[i])
  }

  predicate Has(ps: seq<Packet>, cmd: byte) {
    exists i :: 0 <= i < |ps| && ps[i].cmd == cmd
  }

  lemma Concat(rx: Rx, ps: seq<Packet>, qs: seq<Packet>, cmd: byte)
    ensures AllAnnounce(rx, ps + qs) <==> AllAnnounce(rx, ps) && AllAnnounce(rx, qs)
    ensures Has(ps + qs, cmd) <==> Has(ps, cmd) || Has(qs, cmd)
  {
    var all := ps + qs;
    assert forall i :: 0 <= i < |ps| ==> all[i] == ps[i];
    assert forall i :: |ps| <= i < |all| ==> all[i] == qs[i - |ps|];
    forall i | 0 <= i < |qs|
      ensures all[|ps| + i] == qs[i]
    {}
    if i :| 0 <= i < |qs| && qs[i].cmd == cmd {
      assert all[|ps| + i].cmd == cmd;
    }
  }

  /** A peer with a closed window is to be asked now. */
  predicate ProbeDue(cb: Cb) {
    cb.probe.ask || (cb.cc.rmtWnd == 0 && cb.probe.wait > 0 && TimeDiff(cb.clock.current, cb.probe.ts) >= 0)
  }

  /** Whatever a flush sends announces the receiving side of its sender; it asks for the
      peer's window exactly when a probe is due or wanted, and tells its own exactly when
      that was asked for; after that both are settled. */
  lemma FlushAnnounces(cb: Cb)
    requires cb.clock.updated
    ensures AllAnnounce(cb.rx, FlushPackets(cb))
    ensures Has(FlushPackets(cb), CMD_WASK) <==> ProbeDue(cb)
    ensures Has(FlushPackets(cb), CMD_WINS) <==> cb.probe.tell
    ensures !Flush(cb).0.probe.ask && !Flush(cb).0.probe.tell
  {
    hide AckPackets, FlushBuf, Filled, ProbePackets, PackAll, AfterFlush, AllAnnounce, Has, ProbeDue, Probing;
    var acks, probes, pushes := AckPackets(cb, |cb.acks|), ProbePackets(cb), FlushBuf(cb, Filled(cb).buf).sent;
    AcksAnnounce(cb, |cb.acks|);
    ProbesExact(cb);
    PushesAnnounce(cb, Filled(cb).buf);
    Concat(cb.rx, acks, probes, CMD_WASK);
    Concat(cb.rx, acks, probes, CMD_WINS);
    Concat(cb.rx, acks + probes, pushes, CMD_WASK);
    Concat(cb.rx, acks + probes, pushes, CMD_WINS);
  }

  /** A probe has no payload, and numbers that mean nothing: those of the last acknowledgement. */
  predicate Idle(cb: Cb, p: Packet) {
    p.frg == 0 && p.data == []
    && (if cb.acks == [] then p.sn == 0 && p.ts == 0
        else p.sn == cb.acks[|cb.acks| - 1].sn && p.ts == cb.acks[|cb.acks| - 1].ts)
  }

  lemma ProbesExact(cb: Cb)
    ensures forall i :: 0 <= i < |ProbePackets(cb)| ==> Idle(cb, ProbePackets(cb)[i])
    ensures AllAnnounce(cb.rx, ProbePackets(cb))
    ensures Has(ProbePackets(cb), CMD_WASK) <==> ProbeDue(cb)
    ensures Has(ProbePackets(cb), CMD_WINS) <==> cb.probe.tell
  {
    hide TimeDiff, Wrap;
    var ps := ProbePackets(cb);
    if ProbeDue(cb) {
      assert ps[0].cmd == CMD_WASK;
    }
    if cb.probe.tell {
      assert ps[|ps| - 1].cmd == CMD_WINS;
    }
  }

  lemma {:induction false} AcksAnnounce(cb: Cb, n: nat)
    requires n <= |cb.acks|
    ensures var ps := AckPackets(cb, n); AllAnnounce(cb.rx, ps) && !Has(ps, CMD_WASK) && !Has(ps, CMD_WINS)
  {
    if n > 0 {
      AcksAnnounce(cb, n - 1);
    }
  }

  lemma {:induction false} PushesAnnounce(cb: Cb, buf: seq<SndSeg>)
    ensures var ps := FlushBuf(cb, buf).sent; AllAnnounce(cb.rx, ps) && !Has(ps, CMD_WASK) && !Has(ps, CMD_WINS)
  {
    hide DueNow;
    if buf != [] {
      PushesAnnounce(cb, buf[..|buf| - 1]);
    }
  }

  /** How often a segment was sent again for its timeout, and the state of the link. */
  function Timeouts(cb: Cb, buf: seq<SndSeg>): nat {
    if buf == [] then 0 else Timeouts(cb, buf[..|buf| - 1]) + if TimedOut(cb, buf[|buf| - 1]) then 1 else 0
  }

  lemma {:induction false} LinkCounts(cb: Cb, buf: seq<SndSeg>)
    requires cb.cfg.fastresend < 0x8000_0000 && forall i :: 0 <= i < |buf| ==> buf[i].xmit < 0xffff_ffff
    ensures FlushBuf(cb, buf).xmit == Wrap(cb.link.xmit + Timeouts(cb, buf))
    ensures FlushBuf(cb, buf).dead <==>
              cb.link.dead || exists i :: 0 <= i < |buf| && GoesOut(cb, buf[i]) && buf[i].xmit + 1 >= cb.cfg.deadLink as int
  {
    hide GoesOut, Wrap;
    WrapSame(cb.link.xmit);
    if buf != [] {
      var k := |buf| - 1;
      LinkCounts(cb, buf[..k]);
      Reasons(cb, buf[k]);
      KcpControl.NoWrap(buf[k].xmit + 1);
      WrapShift(cb.link.xmit + Timeouts(cb, buf[..k]), 1);
      assert forall i :: 0 <= i < k ==> buf[..k][i] == buf[i];
      OneOnceMore(cb, buf[k]);
    }
  }

  lemma OneOnceMore(cb: Cb, s: SndSeg)
    requires s.xmit < 0xffff_ffff
    ensures DueNow(cb, s) != NotDue ==> Touch(cb, s).xmit == s.xmit + 1
  {}

  // ---- when ikcp_update flushes ----

  lemma AheadOf(current: u32, k: nat)
    requires 0 < k < 0x8000_0000
    ensures TimeDiff(current, Wrap(current + k)) + k == 0 && TimeDiff(Wrap(current + k), current) == k
  {
    hide Wrap, Signed;
    TimeDiffExact(current, current + k);
    TimeDiffExact(current + k, current);
    WrapSame(current);
  }

  /** ikcp_update notes the time, and flushes on the first call and whenever the flush
      moment is reached or more than 10 s off; the next one is then one interval after
      that moment, or after now when that is over already, and lies ahead. */
  lemma UpdateWhen(cb: Cb, now: u32)
    requires 0 < cb.cfg.interval < 0x8000_0000
    ensures var was, (clock, due) := cb.clock, Tick(cb.cfg.interval, cb.clock, now);
            var onTime := was.updated && 0 <= TimeDiff(now, was.tsFlush) < 10000;
            var next := Wrap(was.tsFlush + cb.cfg.interval);
            clock.current == now && clock.updated
            && (due <==> !was.updated || KcpPolling.FlushReached(cb, now))
            && (!due ==> clock.tsFlush == was.tsFlush)
            && (due ==> TimeDiff(now, clock.tsFlush) < 0)
            && (due && !(onTime && TimeDiff(now, next) < 0) ==> clock.tsFlush == Wrap(now + cb.cfg.interval))
            && (due && onTime && TimeDiff(now, next) < 0 ==> clock.tsFlush == next)
  {
    hide TimeDiff, Wrap;
    AheadOf(now, cb.cfg.interval);
    SameMoment(now);
  }

  lemma SameMoment(now: u32)
    ensures TimeDiff(now, now) == 0
  {}

  // ---- window probes ----

  /** A closed window is asked about after 7 s at first, and then after waits that grow by
      half each time, up to 120 s; an open one ends that. */
  lemma ProbeBackOff(probe: Probe, rmtWnd: u16, current: u32)
    requires probe.wait == 0 || PROBE_INIT <= probe.wait <= PROBE_LIMIT
    ensures var p := ProbeTimer(probe, rmtWnd, current);
            p.tell == probe.tell
            && (rmtWnd > 0 ==> p.wait == 0 && p.ask == probe.ask)
            && (rmtWnd == 0 && probe.wait == 0 ==> p.wait == 7000 && Ahead(current, p.ts) == 7000 && p.ask == probe.ask)
            && (rmtWnd == 0 && probe.wait > 0 && TimeDiff(current, probe.ts) < 0 ==> p == probe)
            && (rmtWnd == 0 && probe.wait > 0 && TimeDiff(current, probe.ts) >= 0 ==>
                  p.ask && Ahead(current, p.ts) == p.wait <= 120000
                  && (p.wait < 120000 ==> 2 * p.wait <= 3 * probe.wait < 2 * p.wait + 2)
                  && (p.wait == 120000 ==> 3 * probe.wait >= 240000))
  {
    hide Ahead, Wrap, TimeDiff;
    KcpControl.NoWrap(probe.wait + probe.wait / 2);
    WaitIs(current, 7000);
    WaitIs(current, Min(probe.wait + probe.wait / 2, PROBE_LIMIT));
  }

  lemma {:induction false} PacketsAsk(st: InState, ps: seq<Packet>)
    ensures ProcessAll(st, ps).cb.probe == st.cb.probe.(tell := st.cb.probe.tell || Has(ps, CMD_WASK))
  {
    if ps != [] {
      PacketsAsk(st, ps[..|ps| - 1]);
      assert ps == ps[..|ps| - 1] + [ps[|ps| - 1]];
      assert Has([ps[|ps| - 1]], CMD_WASK) <==> ps[|ps| - 1].cmd == CMD_WASK by {
        assert [ps[|ps| - 1]][0] == ps[|ps| - 1];
      }
      Concat(st.cb.rx, ps[..|ps| - 1], [ps[|ps| - 1]], CMD_WASK);
    }
  }

  /** The next flush tells the window exactly when some packet of a datagram asked for it,
      or that was wanted before. */
  lemma InputAsked(cb: Cb, b: seq<byte>)
    ensures Input(cb, b).0.probe
         == cb.probe.(tell := cb.probe.tell || (|b| >= 24 && Has(DecodeAll(cb.cfg.conv, b).packets, CMD_WASK)))
  {
    hide ProcessAll, DecodeAll, Has, GrowWindow, ParseFastack;
    PacketsAsk(InState(cb, false, 0), DecodeAll(cb.cfg.conv, b).packets);
  }

  // ---- the round trip that is measured ----

  /** Data sent at `sentAt` that the receiver takes in is acknowledged with that time,
      whenever it flushes; the sender's sample is the time since then. */
  lemma RoundTripMeasured(s: Cb, seg: SndSeg, p: Packet, r: Cb, sender: Cb)
    requires Carried(s, seg, p) && BelowWindowEnd(r.rx, p.sn) && sender.clock.updated
    ensures var n, r' := |r.acks|, ProcessPush(r, p);
            |r'.acks| == n + 1 && AckPacket(r', n).cmd == CMD_ACK && AckPacket(r', n).sn == seg.sn
            && AckPacket(r', n).ts == s.clock.current
            && var rtt := TimeDiff(sender.clock.current, s.clock.current);
               ProcessAck(InState(sender, false, 0), AckPacket(r', n)).cb.rtt
               == if rtt >= 0 then UpdateAck(sender.cfg, sender.rtt, rtt) else sender.rtt
  {
    hide ParseData, UpdateAck, ParseAck, ShrinkBuf, BelowWindowEnd, TimeDiff;
  }
}
