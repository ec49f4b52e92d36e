/** What a flush does with the windows: how much it lets out, and what timeouts and
    fast retransmissions make of the congestion window. */
module KcpCongestion {
  import opened Words
  import opened KcpWire
  import opened KcpSpec
  import opened KcpQueues
  import opened KcpTimers
  import KcpControl

  /** The least of the send window, the peer's and, unless it is switched off, the congestion window. */
  predicate UsedWindow(cb: Cb, w: nat) {
    w <= cb.cfg.sndWnd && w <= cb.cc.rmtWnd as int && (cb.cfg.nocwnd || w <= cb.cc.cwnd)
    && (w == cb.cfg.sndWnd as int || w == cb.cc.rmtWnd as int || (!cb.cfg.nocwnd && w == cb.cc.cwnd as int))
  }

  lemma WindowIsUsed(cb: Cb)
    ensures UsedWindow(cb, SendWindow(cb))
  {}

  // ---- what is let out ----

  /** How many of the queued segments the window has room for. */
  function Room(inFlight: nat, queued: nat, window: nat): nat {
    if inFlight >= window then 0 else Min(window - inFlight, queued)
  }

  /** `k` segments have moved from snd_queue to snd_buf and got the next numbers. */
  ghost predicate Moved(cb: Cb, tx: Tx, tx': Tx, k: nat) {
    k <= |tx.queue| && tx'.una == tx.una && tx'.nxt == Wrap(tx.nxt + k) && tx'.queue == tx.queue[k..]
    && |tx'.buf| == |tx.buf| + k && tx'.buf[..|tx.buf|] == tx.buf
    && forall i :: |tx.buf| <= i < |tx'.buf| ==>
         var s, j := tx'.buf[i], i - |tx.buf|;
         s.sn == Wrap(tx.nxt + j) && s.frag == tx.queue[j] && s.xmit == 0 && s.fastack == 0
  }

  lemma {:induction false} FillMoves(cb: Cb, tx: Tx, cwnd: u32)
    requires cwnd <= 0xffff && Ahead(tx.una, tx.nxt) <= 0xffff
    ensures Moved(cb, tx, FillWindow(cb, tx, cwnd), Room(Ahead(tx.una, tx.nxt), |tx.queue|, cwnd))
    decreases |tx.queue|
  {
    hide Ahead, Wrap, TimeDiff, NewSeg;
    WindowOpen(tx, cwnd);
    WrapSame(tx.nxt);
    if Ahead(tx.una, tx.nxt) < cwnd && tx.queue != [] {
      var tx1 := FillOne(cb, tx);
      AheadAdd(tx.una, tx.nxt, 1);
      FillMoves(cb, tx1, cwnd);
      MovedOne(cb, tx, FillWindow(cb, tx1, cwnd), Room(Ahead(tx1.una, tx1.nxt), |tx1.queue|, cwnd));
    }
  }

  lemma MovedOne(cb: Cb, tx: Tx, tx': Tx, k: nat)
    requires tx.queue != [] && Moved(cb, FillOne(cb, tx), tx', k)
    ensures Moved(cb, tx, tx', k + 1)
  {
    hide Wrap;
    var tx1, n := FillOne(cb, tx), |tx.buf|;
    NextNumber(tx.nxt, k);
    assert tx'.buf[n] == tx'.buf[..n + 1][n] == tx1.buf[n];
    assert tx'.buf[..n] == tx'.buf[..n + 1][..n] == tx.buf;
    forall i | n <= i < |tx'.buf|
      ensures var s, j := tx'.buf[i], i - n;
              s.sn == Wrap(tx.nxt + j) && s.frag == tx.queue[j] && s.xmit == 0 && s.fastack == 0
    {
      if i == n {
        WrapSame(tx.nxt);
        assert tx.nxt + 0 == tx.nxt;
      } else {
        NextNumber(tx.nxt, i - n - 1);
      }
    }
  }

  lemma NextNumber(nxt: u32, k: nat)
    ensures Wrap(Wrap(nxt + 1) + k) == Wrap(nxt + (k + 1))
  {
    hide Wrap;
    WrapShift(nxt + 1, k);
    assert nxt + 1 + k == nxt + (k + 1);
  }

  /** A flush lets out exactly as many queued segments as the least of the windows has
      room for, with the next numbers and in order; what was in flight stays. */
  lemma FlushLetsOut(cb: Cb, w: nat)
    requires Ordered(cb) && UsedWindow(cb, w)
    ensures Moved(cb, cb.tx, Filled(cb), Room(Ahead(cb.tx.una, cb.tx.nxt), |cb.tx.queue|, w))
  {
    hide FillWindow, Ahead, Moved, TxBetween, RxOrdered;
    WindowIsUsed(cb);
    FillMoves(cb, cb.tx, SendWindow(cb));
  }

  // ---- loss ----

  ghost predicate Lost(cb: Cb, buf: seq<SndSeg>) {
    exists i :: 0 <= i < |buf| && TimedOut(cb, buf[i])
  }

  ghost predicate Skipped(cb: Cb, buf: seq<SndSeg>) {
    exists i :: 0 <= i < |buf| && SkippedEnough(cb, buf[i])
  }

  lemma {:induction false} FlushReasons(cb: Cb, buf: seq<SndSeg>)
    requires cb.cfg.fastresend < 0x8000_0000
    ensures FlushBuf(cb, buf).lost <==> Lost(cb, buf)
    ensures FlushBuf(cb, buf).change <==> Skipped(cb, buf)
  {
    hide TimedOut, SkippedEnough, DueNow, Touch;
    if buf != [] {
      var k := |buf| - 1;
      FlushReasons(cb, buf[..k]);
      Reasons(cb, buf[k]);
      assert forall i :: 0 <= i < k ==> buf[..k][i] == buf[i];
    }
  }

  /** Main result. A timeout closes the congestion window to one segment and halves the
      threshold; without one, a fast retransmission sets the threshold to half of what is
      in flight and the window that much beyond it as skips were asked for; otherwise
      nothing changes, but that a window of 0 becomes 1. */
  lemma FlushReacts(cb: Cb, w: nat)
    requires cb.clock.updated && UsedWindow(cb, w) && cb.cfg.fastresend < 0x8000_0000
    ensures var buf, cc, mss := Filled(cb).buf, Flush(cb).0.cc, cb.cfg.Mss();
            var inFlight := Ahead(Filled(cb).una, Filled(cb).nxt);
            cc.rmtWnd == cb.cc.rmtWnd
            && (Lost(cb, buf) ==> cc.cwnd == 1 && cc.incr == mss && cc.ssthresh == Max(2, w / 2))
            && (!Lost(cb, buf) && Skipped(cb, buf) ==>
                  cc.ssthresh == Max(2, inFlight / 2) && cc.incr == Wrap(cc.cwnd * mss)
                  && cc.cwnd == if cb.cfg.fastresend > 0 then cc.ssthresh + cb.cfg.fastresend else cc.ssthresh - 1)
            && (!Lost(cb, buf) && !Skipped(cb, buf) ==>
                  cc == if cb.cc.cwnd == 0 then cb.cc.(cwnd := 1, incr := mss) else cb.cc)
  {
    hide FlushBuf, Lost, Skipped, FillWindow, PackAll, FlushPackets, Wrap;
    WindowIsUsed(cb);
    FlushReasons(cb, Filled(cb).buf);
    var thresh := Max(Ahead(Filled(cb).una, Filled(cb).nxt) / 2, 2);
    if cb.cfg.fastresend > 0 {
      KcpControl.NoWrap(thresh + cb.cfg.fastresend);
      KcpControl.NoWrap(cb.cfg.fastresend);
    } else {
      OneBelow(thresh);
    }
  }

  lemma OneBelow(x: u32)
    requires x > 0
    ensures Wrap(x + 0xffff_ffff) == x - 1
  {
    WrapPeriodic(x - 1, 1);
    WrapSame(x - 1);
  }

  // ---- growth ----

  /** The window of the last packet, if there is one. */
  function LastWindow(cc: Congestion, ps: seq<Packet>): u16 {
    if ps == [] then cc.rmtWnd else ps[|ps| - 1].wnd
  }

  lemma {:induction false} PacketsTellWindow(st: InState, ps: seq<Packet>)
    ensures ProcessAll(st, ps).cb.cc == st.cb.cc.(rmtWnd := LastWindow(st.cb.cc, ps)) && ProcessAll(st, ps).cb.cfg == st.cb.cfg
  {
    if ps != [] {
      PacketsTellWindow(st, ps[..|ps| - 1]);
    }
  }

  /** The peer's window is that of the last packet, and the congestion window grows, once,
      exactly when a datagram without error acknowledges the oldest number in flight. */
  lemma InputGrows(cb: Cb, b: seq<byte>)
    requires Ordered(cb)
    ensures var (cb', ret) := Input(cb, b);
            var heard := cb.cc.(rmtWnd := if |b| < 24 then cb.cc.rmtWnd else LastWindow(cb.cc, DecodeAll(cb.cfg.conv, b).packets));
            cb'.cc == if ret == 0 && cb'.tx.una != cb.tx.una then GrowWindow(heard, cb.cfg.Mss()) else heard
  {
    hide DecodeAll, ProcessAll, GrowWindow, TimeDiff, BumpFastack, InFlight, Ordered;
    var st := InState(cb, false, 0);
    PacketsTellWindow(st, DecodeAll(cb.cfg.conv, b).packets);
    InputKeepsOrder(cb, b);
    MovedOn(cb, Input(cb, b).0);
  }

  lemma MovedOn(cb: Cb, cb': Cb)
    requires Ordered(cb) && Steps(cb, cb')
    ensures TimeDiff(cb'.tx.una, cb.tx.una) > 0 <==> cb'.tx.una != cb.tx.una
  {
    hide TxBetween, RxOrdered;
  }

  /** Congestion avoidance: the byte count grows by a share of mss that shrinks as it
      grows, and by mss / 16; once it covers one segment more the window becomes the
      number of segments it fills, but no more than the peer's. */
  lemma AvoidanceExact(cc: Congestion, mss: u32, w: nat)
    requires 0 < mss <= 0xFFFF - OVERHEAD && KcpControl.Level(cc, mss) && cc.ssthresh <= cc.cwnd < cc.rmtWnd as int
    ensures var c, base := GrowWindow(cc, mss), Max(cc.incr, mss);
            var incr := base + mss * mss / base + mss / 16;
            c.ssthresh == cc.ssthresh && c.rmtWnd == cc.rmtWnd
            && (incr < (cc.cwnd + 1) * mss ==> c.cwnd == cc.cwnd && c.incr == incr)
            && (incr >= (cc.cwnd + 1) * mss && incr > cc.rmtWnd * mss ==>
                  c.cwnd == cc.rmtWnd as int && c.incr == cc.rmtWnd * mss)
            && (incr >= (cc.cwnd + 1) * mss && incr <= cc.rmtWnd * mss ==>
                  c.incr == incr && (w < c.cwnd <==> w * mss < incr))
  {
    hide Wrap, Mul32, Div32, KcpControl.Level;
    KcpControl.LevelFits(cc, mss);
    var base := Max(cc.incr, mss);
    KcpControl.CountFits(mss, base);
    KcpControl.NoWrap(cc.cwnd + 1);
    KcpControl.Product(mss, mss);
    KcpControl.NoMulWrap(mss, mss);
    DivIs(mss * mss, base);
    var incr := base + mss * mss / base + mss / 16;
    KcpControl.NoWrap(incr);
    KcpControl.NoWrap(incr + mss - 1);
    KcpControl.TimesLevel(cc.cwnd + 1, mss);
    KcpControl.TimesLevel(cc.rmtWnd as int, mss);
    DivIs(incr + mss - 1, mss);
    Covers(incr, mss, cc.rmtWnd as int);
    Covers(incr, mss, w);
  }

  lemma DivIs(a: u32, b: u32)
    requires b > 0
    ensures Div32(a, b) == a / b
  {}

  lemma Rounded(a: nat, b: nat)
    requires b > 0
    ensures a / b * b <= a < (a / b + 1) * b
  {}

  /** Rounding up gives the number of segments that a byte count fills. */
  lemma Covers(incr: nat, mss: nat, w: nat)
    requires mss > 0
    ensures (incr + mss - 1) / mss > w <==> w * mss < incr
  {
    var q := (incr + mss - 1) / mss;
    Rounded(incr + mss - 1, mss);
    if q > w {
      KcpControl.Monotone(mss, w + 1, q);
    } else {
      KcpControl.Monotone(mss, q + 1, w + 1);
    }
  }

  // ---- the first flight ----

  predicate Starting(cb: Cb) {
    cb.tx.una == 0 && cb.tx.nxt == 0 && cb.tx.buf == [] && cb.cc.rmtWnd == 128 && cb.cc.cwnd == 0 && cb.rtt.rto == 200
    && cb.acks == [] && !cb.probe.ask && !cb.probe.tell && cb.clock.updated && Ordered(cb)
  }

  lemma NoneAhead()
    ensures Ahead(0, 0) == 0 && Wrap(0) == 0
  {}

  lemma FirstFilled(cb: Cb)
    requires Starting(cb) && cb.cfg.sndWnd > 0
    ensures Moved(cb, cb.tx, Filled(cb), if cb.cfg.nocwnd then Min(|cb.tx.queue|, Min(cb.cfg.sndWnd, 128)) else 0)
  {
    hide FillWindow, Ordered, Moved, Ahead;
    NoneAhead();
    FlushLetsOut(cb, SendWindow(cb));
  }

  lemma FlushIs(cb: Cb)
    requires cb.clock.updated
    ensures Flush(cb).0.tx == Filled(cb).(buf := FlushBuf(cb, Filled(cb).buf).buf) && Flush(cb).0.clock == cb.clock
    ensures Flush(cb).1 == PackAll(cb.cfg.mtu, FlushPackets(cb))
  {
    hide FillWindow, FlushBuf, PackAll, AfterFlush, FlushPackets;
  }

  lemma OpenFlight(cb: Cb)
    requires Starting(cb) && cb.cfg.sndWnd > 0 && cb.cfg.nocwnd && cb.tx.queue != [] && cb.cfg.fastresend < 0x8000_0000
    ensures var cb' := Flush(cb).0;
            |cb'.tx.buf| == Min(|cb.tx.queue|, Min(cb.cfg.sndWnd, 128)) > 0 && cb'.tx.buf[0].sn == 0
            && Wait(cb', cb'.tx.buf[0]) == if cb.cfg.nodelay == 0 then 225 else 200
  {
    hide Flush, FillWindow, FlushBuf, Touch, Ahead, Wrap, Ordered;
    FirstFilled(cb);
    FlushIs(cb);
    NoneAhead();
    var buf := Filled(cb).buf;
    FlushSends(cb, buf);
    FirstWait(cb, buf[0]);
    TouchKeeps(cb, buf[0]);
  }

  lemma NothingToPack(cb: Cb)
    requires cb.acks == [] && Filled(cb).buf == [] && cb.cc.rmtWnd > 0 && !cb.probe.ask && !cb.probe.tell
    ensures PackAll(cb.cfg.mtu, FlushPackets(cb)) == [] && FlushBuf(cb, []).buf == []
  {
    hide FillWindow;
    assert FlushPackets(cb) == [];
  }

  lemma ClosedFlight(cb: Cb)
    requires Starting(cb) && cb.cfg.sndWnd > 0 && !cb.cfg.nocwnd
    ensures Flush(cb).1 == [] && Flush(cb).0.tx.queue == cb.tx.queue && Flush(cb).0.tx.buf == [] && Flush(cb).0.cc.cwnd >= 1
  {
    hide Flush, FillWindow, FlushBuf, Ordered;
    FirstFilled(cb);
    FlushIs(cb);
    NothingToPack(cb);
    WindowOpens(cb);
  }

  lemma WindowOpens(cb: Cb)
    requires cb.clock.updated
    ensures Flush(cb).0.cc.cwnd >= 1
  {
    hide Filled, FlushBuf, PackAll, FlushPackets;
  }

  /** A new control block with segments to send: its first update sends nothing and opens
      the congestion window; without congestion control it sends as many as the send window
      and a peer's window of 128 have room for, the first of them with number 0 and a
      timeout of 200 ms, an eighth more unless nodelay. */
  lemma FirstFlight(cfg: Config, rcvWnd: u32, fs: seq<Frag>, now: u32)
    requires rcvWnd < 0x8000_0000 && cfg.fastresend < 0x8000_0000 && fs != [] && cfg.sndWnd > 0
    ensures var made := Create(cfg, rcvWnd);
            var (cb, gs) := Update(made.(tx := made.tx.(queue := fs)), now);
            (!cfg.nocwnd ==> gs == [] && cb.tx.queue == fs && cb.tx.buf == [] && cb.cc.cwnd >= 1)
            && (cfg.nocwnd ==>
                  |cb.tx.buf| == Min(|fs|, Min(cfg.sndWnd, 128)) > 0 && cb.tx.buf[0].sn == 0
                  && Wait(cb, cb.tx.buf[0]) == if cfg.nodelay == 0 then 225 else 200)
  {
    hide Flush, Tick, Ordered, Wait;
    var made := Create(cfg, rcvWnd);
    var start := made.(tx := made.tx.(queue := fs));
    FirstTick(cfg.interval, start.clock, now);
    var cb1 := start.(clock := Tick(cfg.interval, start.clock, now).0);
    FreshOrdered(cfg, rcvWnd);
    QueueKeepsOrder(cb1, made);
    if cfg.nocwnd {
      OpenFlight(cb1);
    } else {
      ClosedFlight(cb1);
    }
  }

  lemma FirstTick(interval: u32, clock: Clock, now: u32)
    requires !clock.updated
    ensures Tick(interval, clock, now).1 && Tick(interval, clock, now).0.updated
  {}

  lemma QueueKeepsOrder(cb: Cb, made: Cb)
    requires Ordered(made) && cb.cfg == made.cfg && cb.rx == made.rx && cb.tx == made.tx.(queue := cb.tx.queue)
    ensures Ordered(cb)
  {}
}
