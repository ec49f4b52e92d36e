/** What the timers and windows of KCP stay within, in every run and for every
    input, and what a flush does to a segment's timer. */
module KcpControl {
  import opened Words
  import opened KcpWire
  import opened KcpSpec
  import opened KcpQueues

  /** The retransmission timeout and the probe back-off within their bounds, the
      slow-start threshold at two segments or more. */
  predicate Sane(cb: Cb) {
    && Min(cb.cfg.minrto, 200) <= cb.rtt.rto <= RTO_MAX
    && cb.cc.ssthresh >= THRESH_MIN
    && (cb.probe.wait == 0 || PROBE_INIT <= cb.probe.wait <= PROBE_LIMIT)
  }

  lemma PacketKeepsSane(st: InState, p: Packet)
    requires Sane(st.cb)
    ensures Sane(ProcessPacket(st, p).cb) && ProcessPacket(st, p).cb.cfg == st.cb.cfg
  {}

  lemma {:induction false} PacketsKeepSane(st: InState, ps: seq<Packet>)
    requires Sane(st.cb)
    ensures Sane(ProcessAll(st, ps).cb) && ProcessAll(st, ps).cb.cfg == st.cb.cfg
  {
    hide ProcessPacket;
    if ps != [] {
      PacketsKeepSane(st, ps[..|ps| - 1]);
      PacketKeepsSane(ProcessAll(st, ps[..|ps| - 1]), ps[|ps| - 1]);
    }
  }

  lemma InputKeepsSane(cb: Cb, b: seq<byte>)
    requires Sane(cb)
    ensures Sane(Input(cb, b).0)
  {
    hide ProcessAll, DecodeAll;
    PacketsKeepSane(InState(cb, false, 0), DecodeAll(cb.cfg.conv, b).packets);
  }

  /** A flush keeps the bounds, and leaves a congestion window of one segment or more. */
  lemma FlushKeepsSane(cb: Cb)
    requires Sane(cb)
    ensures Sane(Flush(cb).0)
    ensures cb.clock.updated ==> Flush(cb).0.cc.cwnd >= 1
  {
    hide Filled, FlushBuf, PackAll, FlushPackets;
  }

  lemma CallKeepsSane(cb: Cb, call: Call)
    requires Sane(cb)
    ensures Sane(After(cb, call))
  {
    hide Flush;
    match call
    case CallSend(data) =>
    case CallRecv(len) =>
    case CallInput(bytes) => InputKeepsSane(cb, bytes);
    case CallFlush => FlushKeepsSane(cb);
    case CallUpdate(now) =>
      FlushKeepsSane(cb.(clock := Tick(cb.cfg.interval, cb.clock, now).0));
  }

  lemma {:induction false} AlwaysSane(cfg: Config, rcvWnd: u32, calls: seq<Call>)
    ensures Sane(AfterAll(Create(cfg, rcvWnd), calls))
  {
    if calls == [] {
    } else {
      AlwaysSane(cfg, rcvWnd, calls[..|calls| - 1]);
      CallKeepsSane(AfterAll(Create(cfg, rcvWnd), calls[..|calls| - 1]), calls[|calls| - 1]);
    }
  }

  // ---- the round-trip estimator ----

  lemma Average(s: nat, x: nat)
    ensures Min(s, x) <= (7 * s + x) / 8 <= Max(s, x)
  {}

  lemma Small(n: nat)
    requires n < 0x8000_0000
    ensures Signed(n) == n && Wrap(n) == n
  {}

  /** The first sample is taken over; after that the smoothed time lies between
      the old one and the sample, and is never below 1. A sample equal to it leaves
      it alone and lets the deviation fade. */
  lemma SmoothedBetween(cfg: Config, r: Rtt, rtt: int)
    requires 0 <= r.srtt && 0 <= rtt && 7 * r.srtt + rtt < 0x8000_0000
    ensures r.srtt == 0 ==> UpdateAck(cfg, r, rtt).srtt == rtt
    ensures r.srtt > 0 ==> Max(1, Min(r.srtt, rtt)) <= UpdateAck(cfg, r, rtt).srtt <= Max(r.srtt, rtt)
    ensures rtt == r.srtt > 0 && 0 <= 3 * r.rttval < 0x8000_0000 ==>
              UpdateAck(cfg, r, rtt).srtt == rtt && UpdateAck(cfg, r, rtt).rttval <= r.rttval
  {
    hide Signed, Wrap, Bound;
    Average(r.srtt, rtt);
    Small(7 * r.srtt + rtt);
    if rtt == r.srtt && 0 <= 3 * r.rttval < 0x8000_0000 {
      Small(3 * r.rttval);
    }
  }

  // ---- the congestion window ----

  lemma NoWrap(n: nat)
    requires n < 0x1_0000_0000
    ensures Wrap(n) == n
  {}

  lemma NoMulWrap(a: nat, b: nat)
    requires a < 0x1_0000_0000 && b < 0x1_0000_0000 && a * b < 0x1_0000_0000
    ensures Mul32(a, b) == a * b
  {}

  lemma SumFits(mss: nat, base: nat, share: nat)
    requires mss <= 0xFFFF - OVERHEAD && base <= 0xFFFF * mss && share <= mss
    ensures base + share + mss / 16 + mss < 0x1_0000_0000
  {}

  /** The byte count of congestion avoidance does not wrap. */
  lemma CountFits(mss: u32, base: u32)
    requires 0 < mss <= 0xFFFF - OVERHEAD && mss <= base <= 0xFFFF * mss
    ensures base + Div32(Mul32(mss, mss), base) + mss / 16 + mss < 0x1_0000_0000
  {
    hide Mul32;
    Share(mss, base);
    Product(mss, mss);
    NoMulWrap(mss, mss);
    SumFits(mss, base, mss * mss / base);
  }

  /** A byte count that covers `w` segments makes a window of at least `w`. */
  lemma WindowCovers(incr: u32, mss: u32, w: u32)
    requires 0 < mss <= 0xFFFF - OVERHEAD && w <= 0xFFFF && incr + mss < 0x1_0000_0000 && Mul32(w, mss) <= incr
    ensures Div32(Wrap(incr + mss - 1), mss) >= w
  {
    hide Mul32, Wrap;
    Product(w, mss);
    NoMulWrap(w, mss);
    NoWrap(incr + mss - 1);
    Ceiling(incr, mss, w);
  }

  /** Congestion avoidance without wrap: when the grown byte count covers one more
      segment the window grows with it, otherwise it stays. */
  lemma AvoidanceGrows(cc: Congestion, mss: u32)
    requires 0 < mss <= 0xFFFF - OVERHEAD && cc.incr <= 0xFFFF * mss
    requires cc.ssthresh <= cc.cwnd < cc.rmtWnd as int
    ensures cc.cwnd <= GrowWindow(cc, mss).cwnd <= cc.rmtWnd as int
  {
    hide Wrap, Mul32, Div32;
    var base := Max(cc.incr, mss);
    CountFits(mss, base);
    NoWrap(cc.cwnd + 1);
    NoWrap(base + Div32(Mul32(mss, mss), base) + mss / 16);
    var incr: u32 := base + Div32(Mul32(mss, mss), base) + mss / 16;
    if Mul32(cc.cwnd + 1, mss) <= incr {
      WindowCovers(incr, mss, cc.cwnd + 1);
    }
  }

  /** The byte count stays below one segment more than the window, and the window
      below 2^16. */
  predicate Level(cc: Congestion, mss: u32) {
    cc.cwnd <= 0xFFFF && cc.incr < (cc.cwnd + 1) * mss
  }

  lemma SlowStartLevel(cc: Congestion, mss: u32)
    requires 0 < mss <= 0xFFFF - OVERHEAD && Level(cc, mss) && cc.cwnd < cc.rmtWnd as int
    ensures Wrap(cc.incr + mss) == cc.incr + mss < (cc.cwnd + 2) * mss && Wrap(cc.cwnd + 1) == cc.cwnd + 1
  {
    Product(0xFFFF, mss);
    Monotone(mss, cc.cwnd + 1, 0xFFFF);
    NoWrap(cc.incr + mss);
    NoWrap(cc.cwnd + 1);
  }

  lemma TimesLevel(w: u32, mss: u32)
    requires 0 < mss <= 0xFFFF - OVERHEAD && w <= 0xFFFF
    ensures Mul32(w, mss) == w * mss < (w + 1) * mss
  {
    Product(w, mss);
    NoMulWrap(w, mss);
  }

  lemma ExactLevel(cc: Congestion, w: u32, mss: u32)
    requires 0 < mss <= 0xFFFF - OVERHEAD && w <= 0xFFFF
    ensures Level(cc.(cwnd := w, incr := Mul32(w, mss)), mss)
  {
    hide Mul32;
    TimesLevel(w, mss);
  }

  /** What rounding up makes of a byte count is level with it. */
  lemma RoundedLevel(cc: Congestion, incr: u32, mss: u32)
    requires mss > 0 && incr + mss - 1 < 0x1_0000_0000 && Div32(Wrap(incr + mss - 1), mss) <= 0xFFFF
    ensures Level(cc.(cwnd := Div32(Wrap(incr + mss - 1), mss), incr := incr), mss)
  {
    var q := (incr + mss - 1) / mss;
    NoWrap(incr + mss - 1);
    assert incr + mss - 1 < (q + 1) * mss;
  }

  lemma BelowLevel(cc: Congestion, incr: u32, mss: u32)
    requires 0 < mss <= 0xFFFF - OVERHEAD && cc.cwnd < 0xFFFF && incr < Mul32(Wrap(cc.cwnd + 1), mss)
    ensures Level(cc.(incr := incr), mss)
  {
    hide Mul32, Wrap;
    NoWrap(cc.cwnd + 1);
    TimesLevel(cc.cwnd + 1, mss);
  }

  lemma LevelFits(cc: Congestion, mss: u32)
    requires Level(cc, mss) && cc.cwnd < 0xFFFF
    ensures cc.incr <= 0xFFFF * mss
  {
    Monotone(mss, cc.cwnd + 1, 0xFFFF);
  }

  lemma AvoidanceLevel(cc: Congestion, mss: u32)
    requires 0 < mss <= 0xFFFF - OVERHEAD && Level(cc, mss)
    requires cc.ssthresh <= cc.cwnd < cc.rmtWnd as int
    ensures Level(GrowWindow(cc, mss), mss)
  {
    hide Wrap, Mul32, Div32, Level;
    LevelFits(cc, mss);
    var base := Max(cc.incr, mss);
    CountFits(mss, base);
    NoWrap(base + Div32(Mul32(mss, mss), base) + mss / 16);
    var incr: u32 := base + Div32(Mul32(mss, mss), base) + mss / 16;
    ExactLevel(cc, cc.rmtWnd as int, mss);
    if Mul32(Wrap(cc.cwnd + 1), mss) <= incr {
      if Div32(Wrap(incr + mss - 1), mss) <= cc.rmtWnd as int {
        RoundedLevel(cc, incr, mss);
      }
    } else {
      BelowLevel(cc, incr, mss);
    }
  }

  /** Growth never shrinks the window nor lifts it above what the peer announced, and
      keeps the byte count level with it. */
  lemma GrowthBounded(cc: Congestion, mss: u32)
    requires 0 < mss <= 0xFFFF - OVERHEAD && Level(cc, mss)
    ensures var c := GrowWindow(cc, mss);
            cc.cwnd <= c.cwnd <= Max(cc.cwnd, cc.rmtWnd) && c.ssthresh == cc.ssthresh && c.rmtWnd == cc.rmtWnd
            && (cc.cwnd >= cc.rmtWnd as int ==> c == cc)
            && (cc.cwnd < cc.ssthresh && cc.cwnd < cc.rmtWnd as int ==> c.cwnd == cc.cwnd + 1 && c.incr == cc.incr + mss)
            && Level(c, mss)
  {
    hide Mul32, Div32, Wrap;
    if cc.cwnd < cc.rmtWnd as int {
      LevelFits(cc, mss);
      if cc.cwnd < cc.ssthresh {
        SlowStartLevel(cc, mss);
      } else {
        AvoidanceGrows(cc, mss);
        AvoidanceLevel(cc, mss);
      }
    }
  }

  lemma InFlightIs(tx: Tx)
    ensures Wrap(tx.nxt - tx.una) == Ahead(tx.una, tx.nxt)
  {}

  lemma ResentFits(cfg: Config, thresh: u32)
    requires cfg.fastresend <= 0x8000 && 2 <= thresh <= 0x7FFF
    ensures Wrap(thresh + Resent(cfg)) <= 0xFFFF
  {}

  /** A fast retransmission with at most `0xFFFF` numbers in flight. */
  lemma FastLevel(cfg: Config, tx: Tx)
    requires cfg.mtu <= 0xFFFF && cfg.fastresend <= 0x8000 && Ahead(tx.una, tx.nxt) <= 0xFFFF
    ensures var thresh := Max(Wrap(tx.nxt - tx.una) / 2, THRESH_MIN);
            var w := Wrap(thresh + Resent(cfg));
            w <= 0xFFFF && Mul32(w, cfg.Mss()) < (w + 1) * cfg.Mss()
  {
    hide Mul32, Ahead;
    var thresh := Max(Wrap(tx.nxt - tx.una) / 2, THRESH_MIN);
    InFlightIs(tx);
    ResentFits(cfg, thresh);
    TimesLevel(Wrap(thresh + Resent(cfg)), cfg.Mss());
  }

  lemma FlushLevel(cb: Cb)
    requires Ordered(cb) && cb.cfg.mtu <= 0xFFFF && cb.cfg.fastresend <= 0x8000 && Level(cb.cc, cb.cfg.Mss())
    ensures Level(Flush(cb).0.cc, cb.cfg.Mss())
  {
    hide FlushBuf, FillWindow, PackAll, FlushPackets, Wrap, Mul32;
    FillKeepsOrder(cb, cb.tx, SendWindow(cb), Limit(cb));
    FastLevel(cb.cfg, Filled(cb));
  }

  /** The packets themselves leave the window alone; only the peer's changes. */
  lemma {:induction false} PacketsKeepWindow(st: InState, ps: seq<Packet>)
    ensures ProcessAll(st, ps).cb.cfg == st.cb.cfg
    ensures ProcessAll(st, ps).cb.cc == st.cb.cc.(rmtWnd := ProcessAll(st, ps).cb.cc.rmtWnd)
  {
    if ps != [] {
      PacketsKeepWindow(st, ps[..|ps| - 1]);
    }
  }

  /** What ikcp_input makes of the congestion window, whatever bytes come. */
  lemma InputLevel(cb: Cb, b: seq<byte>)
    requires cb.cfg.mtu <= 0xFFFF && Level(cb.cc, cb.cfg.Mss())
    ensures var cc := Input(cb, b).0.cc;
            Level(cc, cb.cfg.Mss()) && cc.ssthresh == cb.cc.ssthresh
            && cb.cc.cwnd <= cc.cwnd <= Max(cb.cc.cwnd, cc.rmtWnd)
            && (cb.cc.cwnd < cb.cc.ssthresh ==> cc.cwnd <= cb.cc.cwnd + 1)
  {
    hide ProcessAll, DecodeAll, GrowWindow, ParseFastack, Level;
    var ps := DecodeAll(cb.cfg.conv, b).packets;
    var st := InState(cb, false, 0);
    PacketsKeepWindow(st, ps);
    SameLevel(cb.cc, ProcessAll(st, ps).cb.cc, cb.cfg.Mss());
    GrowthBounded(ProcessAll(st, ps).cb.cc, cb.cfg.Mss());
  }

  lemma SameLevel(cc: Congestion, cc': Congestion, mss: u32)
    requires Level(cc, mss) && cc'.cwnd == cc.cwnd && cc'.incr == cc.incr
    ensures Level(cc', mss)
  {}

  lemma CallLevel(cb: Cb, call: Call)
    requires Ordered(cb) && cb.cfg.mtu <= 0xFFFF && cb.cfg.fastresend <= 0x8000 && Level(cb.cc, cb.cfg.Mss())
    ensures After(cb, call).cfg == cb.cfg && Level(After(cb, call).cc, cb.cfg.Mss())
  {
    hide Flush, Level, Ordered, Send, Recv, Input, Tick;
    match call
    case CallSend(data) => SendKeepsWindow(cb, data);
    case CallRecv(len) => RecvKeepsWindow(cb, len);
    case CallInput(bytes) =>
      InputKeepsCfg(cb, bytes);
      InputLevel(cb, bytes);
    case CallFlush =>
      FlushKeepsCfg(cb);
      FlushLevel(cb);
    case CallUpdate(now) =>
      var cb1 := cb.(clock := Tick(cb.cfg.interval, cb.clock, now).0);
      ClockKeepsOrder(cb, cb1.clock);
      FlushKeepsCfg(cb1);
      FlushLevel(cb1);
  }

  lemma SendKeepsWindow(cb: Cb, data: seq<byte>)
    ensures Send(cb, data).0.cfg == cb.cfg && Send(cb, data).0.cc == cb.cc
  {}

  lemma RecvKeepsWindow(cb: Cb, len: int)
    ensures Recv(cb, len).cb.cfg == cb.cfg && Recv(cb, len).cb.cc == cb.cc
  {}

  lemma InputKeepsCfg(cb: Cb, b: seq<byte>)
    ensures Input(cb, b).0.cfg == cb.cfg
  {
    hide ProcessAll, DecodeAll;
    PacketsKeepWindow(InState(cb, false, 0), DecodeAll(cb.cfg.conv, b).packets);
  }

  lemma FlushKeepsCfg(cb: Cb)
    ensures Flush(cb).0.cfg == cb.cfg
  {
    hide FlushBuf, FillWindow, PackAll, FlushPackets, AfterFlush, Probing;
  }

  /** So in every run with a mtu and a number of fast retransmissions that 16 bits
      hold the byte count never wraps, and no input makes the congestion window smaller,
      or larger than what the peer announced. */
  lemma {:induction false} AlwaysLevel(cfg: Config, rcvWnd: u32, calls: seq<Call>, bytes: seq<byte>)
    requires rcvWnd < 0x8000_0000 && cfg.mtu <= 0xFFFF && cfg.fastresend <= 0x8000
    ensures var cb := AfterAll(Create(cfg, rcvWnd), calls);
            var cc := Input(cb, bytes).0.cc;
            cb.cfg == cfg && Level(cb.cc, cfg.Mss())
            && cb.cc.cwnd <= cc.cwnd <= Max(cb.cc.cwnd, cc.rmtWnd)
    decreases |calls|
  {
    hide Level, Input, After, Ordered;
    var cb := AfterAll(Create(cfg, rcvWnd), calls);
    if calls == [] {
      FreshLevel(cfg, rcvWnd);
    } else {
      var last := |calls| - 1;
      AlwaysOrdered(cfg, rcvWnd, calls[..last]);
      AlwaysLevel(cfg, rcvWnd, calls[..last], []);
      CallLevel(AfterAll(Create(cfg, rcvWnd), calls[..last]), calls[last]);
    }
    InputLevel(cb, bytes);
  }

  lemma FreshLevel(cfg: Config, rcvWnd: u32)
    ensures Level(Create(cfg, rcvWnd).cc, cfg.Mss())
  {}

  lemma Share(mss: nat, base: nat)
    requires 0 < mss <= base
    ensures mss * mss / base <= mss
  {
    if mss * mss / base > mss {
      Monotone(base, mss + 1, mss * mss / base);
      Monotone(mss, mss, base);
      assert false;
    }
  }

  lemma Monotone(k: nat, a: nat, b: nat)
    requires a <= b
    ensures k * a <= k * b
  {}

  lemma Product(w: nat, mss: nat)
    requires w <= 0xFFFF && mss <= 0xFFFF - OVERHEAD
    ensures w * mss <= 0xFFFF * (0xFFFF - OVERHEAD)
  {
    Monotone(mss, w, 0xFFFF);
  }

  lemma Ceiling(incr: nat, mss: nat, w: nat)
    requires mss > 0 && mss * w <= incr
    ensures (incr + mss - 1) / mss >= w
  {
    var q := (incr + mss - 1) / mss;
    if q < w {
      Monotone(mss, q + 1, w);
      assert false;
    }
  }

  // ---- one transmission per flush ----

  /** What is `d` ahead on the circle is not reached yet. */
  lemma NotReached(current: u32, ts: u32)
    requires 0 < Wrap(ts - current) < 0x8000_0000
    ensures TimeDiff(current, ts) < 0
  {
    var d := Wrap(ts - current);
    WrapShift(ts - current, current);
    TimeDiffExact(current, current + d);
  }

  /** A segment that a flush has dealt with is due again at the same moment only in
      one case: it was sent for its timeout, which leaves its skip counter as it was. */
  lemma DueAgain(cb: Cb, s: SndSeg)
    requires s.xmit < 0xFFFF_FFFF && (s.xmit == 0 ==> s.fastack == 0) && cb.cfg.fastresend < 0x8000_0000
    requires DueNow(cb, s) != NotDue ==> 0 < Wrap(Touch(cb, s).resendts - cb.clock.current) < 0x8000_0000
    ensures DueNow(cb, Touch(cb, s)) != NotDue <==>
            DueNow(cb, s) == Timeout && s.fastack >= Resent(cb.cfg)
            && (Signed(s.xmit + 1) <= cb.cfg.fastlimit || cb.cfg.fastlimit <= 0)
  {
    NoWrap(s.xmit + 1);
    if DueNow(cb, s) != NotDue {
      NotReached(cb.clock.current, Touch(cb, s).resendts);
    }
  }
}
