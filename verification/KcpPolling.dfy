/** Scheduling ikcp_update by ikcp_check instead of calling it all the time. */
module KcpPolling {
  import opened Words
  import opened KcpWire
  import opened KcpSpec
  import opened KcpQueues

  /** `t` lies in the half-open stretch of the clock from `from` to `to`. */
  predicate Before(from: u32, t: u32, to: u32) {
    Ahead(from, t) < Ahead(from, to)
  }

  lemma {:induction false} NextResendBounded(buf: seq<SndSeg>, current: u32, soonest: int)
    requires 0 < soonest < 0x8000_0000
    ensures -1 <= NextResend(buf, current, soonest) <= soonest && NextResend(buf, current, soonest) != 0
  {
    if buf != [] && TimeDiff(buf[0].resendts, current) > 0 {
      NextResendBounded(buf[1..], current, Min(TimeDiff(buf[0].resendts, current), soonest));
    }
  }

  lemma AheadSelf(t: u32)
    ensures Ahead(t, t) == 0
  {}

  /** The next flush is ahead. */
  lemma FlushAhead(current: u32, flush: u32)
    requires -10000 <= TimeDiff(current, flush) < 0
    ensures 0 < TimeDiff(flush, current) == Ahead(current, flush) <= 10000
  {
    hide Signed, Wrap;
    SignedNegated(current - flush);
    assert -(current - flush) == flush - current;
  }

  lemma WaitAhead(current: u32, wait: nat)
    requires wait < 0x8000_0000
    ensures Ahead(current, Wrap(current + wait)) == wait
  {
    hide Ahead, Wrap;
    AheadSelf(current);
    AheadAdd(current, current, wait);
  }

  /** The answer is at most one interval ahead, and at most the time to the next flush. */
  lemma CheckBounded(cb: Cb, current: u32)
    requires cb.clock.updated
    ensures Ahead(current, Check(cb, current)) <= cb.cfg.interval
    ensures Check(cb, current) != current ==>
              -10000 <= TimeDiff(current, cb.clock.tsFlush) < 0
              && Ahead(current, Check(cb, current)) <= TimeDiff(cb.clock.tsFlush, current)
  {
    hide Ahead, TimeDiff, NextResend, Wrap;
    AheadSelf(current);
    NextResendBounded(cb.tx.buf, current, 0x7fff_ffff);
    if Check(cb, current) != current {
      FlushAhead(current, cb.clock.tsFlush);
      var packet := NextResend(cb.tx.buf, current, 0x7fff_ffff);
      WaitAhead(current, Min(Min(packet, TimeDiff(cb.clock.tsFlush, current)), cb.cfg.interval));
    }
  }

  // ---- the moment itself ----

  /** ikcp_update flushes at `t`. */
  predicate FlushReached(cb: Cb, t: u32) {
    TimeDiff(t, cb.clock.tsFlush) >= 0 || TimeDiff(t, cb.clock.tsFlush) < -10000
  }

  predicate ResendReached(buf: seq<SndSeg>, t: u32) {
    exists i :: 0 <= i < |buf| && TimeDiff(buf[i].resendts, t) <= 0
  }

  /** The scan finds the least time to a resend, or that one is due. */
  lemma {:induction false} NextResendLeast(buf: seq<SndSeg>, current: u32, soonest: int)
    requires 0 < soonest < 0x8000_0000
    ensures var d := NextResend(buf, current, soonest);
            (d < 0 <==> ResendReached(buf, current))
            && (d >= 0 ==> (forall i :: 0 <= i < |buf| ==> d <= TimeDiff(buf[i].resendts, current))
                           && (d == soonest || exists i :: 0 <= i < |buf| && d == TimeDiff(buf[i].resendts, current)))
  {
    hide TimeDiff;
    if buf != [] {
      var diff := TimeDiff(buf[0].resendts, current);
      if diff > 0 {
        var less := Min(diff, soonest);
        NextResendLeast(buf[1..], current, less);
        assert forall i :: 1 <= i < |buf| ==> buf[i] == buf[1..][i - 1];
        assert NextResend(buf, current, soonest) >= 0 ==>
                 forall i :: 0 <= i < |buf| ==> NextResend(buf, current, soonest) <= TimeDiff(buf[i].resendts, current) by {
          NextResendBounded(buf[1..], current, less);
        }
      }
    }
  }

  /** A moment that is `d` ahead, looked at `k` later. */
  lemma Later(current: u32, ts: u32, k: nat)
    requires 0 < TimeDiff(ts, current) && k < 0x8000_0000
    ensures TimeDiff(ts, Wrap(current + k)) == TimeDiff(ts, current) - k
    ensures k > 0 ==> TimeDiff(Wrap(current + k), ts) == k - TimeDiff(ts, current)
  {
    hide Wrap, Signed;
    var d := TimeDiff(ts, current);
    Reaches(current, ts);
    TimeDiffExact(current + d, current + k);
    TimeDiffExact(current + k, current + d);
  }

  lemma Reaches(current: u32, ts: u32)
    requires 0 < TimeDiff(ts, current)
    ensures Wrap(current + TimeDiff(ts, current)) == ts
  {
    hide Wrap;
    WrapShift(ts - current, current);
    WrapSame(ts);
    assert TimeDiff(ts, current) == Wrap(ts - current) by { SignedPositive(ts - current); }
  }

  lemma SignedPositive(x: int)
    requires Signed(x) > 0
    ensures Signed(x) == Wrap(x)
  {}

  /** When neither a flush nor a resend is due now, the answer is the nearest of the next
      flush, the next resend and one interval. */
  lemma CheckWaits(cb: Cb, current: u32) returns (d: nat)
    requires cb.clock.updated && !FlushReached(cb, current) && !ResendReached(cb.tx.buf, current)
    ensures d < 0x8000_0000 && Check(cb, current) == Wrap(current + d)
    ensures d <= cb.cfg.interval && d <= TimeDiff(cb.clock.tsFlush, current) <= 10000
    ensures forall i :: 0 <= i < |cb.tx.buf| ==> d <= TimeDiff(cb.tx.buf[i].resendts, current)
    ensures d == cb.cfg.interval || d == TimeDiff(cb.clock.tsFlush, current)
            || exists i :: 0 <= i < |cb.tx.buf| && d == TimeDiff(cb.tx.buf[i].resendts, current)
  {
    hide TimeDiff, NextResend, Wrap, Ahead;
    FlushAhead(current, cb.clock.tsFlush);
    NextResendLeast(cb.tx.buf, current, 0x7fff_ffff);
    d := Min(Min(NextResend(cb.tx.buf, current, 0x7fff_ffff), TimeDiff(cb.clock.tsFlush, current)), cb.cfg.interval);
  }

  /** Main result: at the moment ikcp_check names, the flush or a resend is due, or one
      interval is over; and at no moment before is a flush or a resend due. */
  lemma CheckEarliest(cb: Cb, current: u32)
    ensures var r := Check(cb, current);
            if !cb.clock.updated then r == current
            else
              (FlushReached(cb, r) || ResendReached(cb.tx.buf, r) || r == Wrap(current + cb.cfg.interval))
              && forall t :: Before(current, t, r) ==> !FlushReached(cb, t) && !ResendReached(cb.tx.buf, t)
  {
    hide TimeDiff, Wrap, Ahead, NextResend;
    var r := Check(cb, current);
    AheadSelf(current);
    if cb.clock.updated {
      if FlushReached(cb, current) || ResendReached(cb.tx.buf, current) {
        DueNowAnswer(cb, current);
      } else {
        var d := CheckWaits(cb, current);
        WaitAhead(current, d);
        FlushAhead(current, cb.clock.tsFlush);
        ReachedAt(cb, current, d);
        forall t | Before(current, t, r)
          ensures !FlushReached(cb, t) && !ResendReached(cb.tx.buf, t)
        {
          NotReachedAt(cb, current, t, d);
        }
      }
    }
  }

  lemma DueNowAnswer(cb: Cb, current: u32)
    requires cb.clock.updated && (FlushReached(cb, current) || ResendReached(cb.tx.buf, current))
    ensures Check(cb, current) == current
  {
    hide TimeDiff;
    NextResendLeast(cb.tx.buf, current, 0x7fff_ffff);
  }

  lemma ReachedAt(cb: Cb, current: u32, d: nat)
    requires d < 0x8000_0000 && 0 < TimeDiff(cb.clock.tsFlush, current)
    requires forall i :: 0 <= i < |cb.tx.buf| ==> TimeDiff(cb.tx.buf[i].resendts, current) > 0
    ensures d == TimeDiff(cb.clock.tsFlush, current) ==> FlushReached(cb, Wrap(current + d))
    ensures (exists i :: 0 <= i < |cb.tx.buf| && d == TimeDiff(cb.tx.buf[i].resendts, current)) ==>
              ResendReached(cb.tx.buf, Wrap(current + d))
  {
    hide TimeDiff, Wrap;
    Later(current, cb.clock.tsFlush, d);
    if i :| 0 <= i < |cb.tx.buf| && d == TimeDiff(cb.tx.buf[i].resendts, current) {
      Later(current, cb.tx.buf[i].resendts, d);
    }
  }

  lemma NotReachedAt(cb: Cb, current: u32, t: u32, d: nat)
    requires Ahead(current, t) < d <= TimeDiff(cb.clock.tsFlush, current) <= 10000 && !FlushReached(cb, current)
    requires forall i :: 0 <= i < |cb.tx.buf| ==> d <= TimeDiff(cb.tx.buf[i].resendts, current)
    ensures !FlushReached(cb, t) && !ResendReached(cb.tx.buf, t)
  {
    hide TimeDiff, Wrap, Ahead;
    var k := Ahead(current, t);
    AheadReaches(current, t);
    Later(current, cb.clock.tsFlush, k);
    forall i | 0 <= i < |cb.tx.buf|
      ensures TimeDiff(cb.tx.buf[i].resendts, t) > 0
    {
      Later(current, cb.tx.buf[i].resendts, k);
    }
    assert k == 0 ==> t == Wrap(current) == current by { WrapSame(current); }
  }

  // ---- polling ----

  /** The control block when ikcp_update has only noted the time `t`. */
  function AtTime(cb: Cb, t: u32): Cb {
    cb.(clock := cb.clock.(current := t))
  }

  /** Until the time ikcp_check names, ikcp_update only notes the time. */
  lemma NothingBeforeCheck(cb: Cb, current: u32, t: u32)
    requires cb.clock.updated && Before(current, t, Check(cb, current))
    ensures Update(cb, t) == (AtTime(cb, t), [])
  {
    hide Check, Ahead, TimeDiff, Wrap, Flush;
    CheckBounded(cb, current);
    AheadSelf(current);
    FlushAhead(current, cb.clock.tsFlush);
    NotYet(current, t, cb.clock.tsFlush);
  }

  /** A moment between now and the next flush is before that flush, and not far from it. */
  lemma NotYet(current: u32, t: u32, flush: u32)
    requires Ahead(current, t) < Ahead(current, flush) <= 10000
    ensures -10000 <= TimeDiff(t, flush) < 0
  {
    hide Ahead, TimeDiff;
    AheadDiff(current, t, flush);
  }

  function PollAll(cb: Cb, times: seq<u32>): (Cb, seq<seq<Packet>>) {
    if times == [] then (cb, [])
    else
      var (cb1, out1) := PollAll(cb, times[..|times| - 1]);
      var (cb2, out2) := Update(cb1, times[|times| - 1]);
      (cb2, out1 + out2)
  }

  lemma {:induction false} PollsNoteTheTime(cb: Cb, current: u32, times: seq<u32>)
    requires cb.clock.updated && forall i :: 0 <= i < |times| ==> Before(current, times[i], Check(cb, current))
    ensures PollAll(cb, times) == (AtTime(cb, if times == [] then cb.clock.current else times[|times| - 1]), [])
  {
    hide Update, Check, Before;
    if times != [] {
      var init, t := times[..|times| - 1], times[|times| - 1];
      PollsNoteTheTime(cb, current, init);
      var cb1 := PollAll(cb, init).0;
      CheckForgetsTime(cb, cb1.clock.current, current);
      NothingBeforeCheck(cb1, current, t);
      assert PollAll(cb, init).1 + Update(cb1, t).1 == [];
    }
  }

  /** Nor does ikcp_check look at the time noted before. */
  lemma CheckForgetsTime(cb: Cb, before: u32, now: u32)
    ensures Check(AtTime(cb, before), now) == Check(cb, now)
  {}

  /** ikcp_update does not depend on the time noted before. */
  lemma UpdateForgetsTime(cb: Cb, before: u32, now: u32)
    ensures Update(AtTime(cb, before), now) == Update(cb, now)
  {
    hide Flush;
    var clock := Tick(cb.cfg.interval, cb.clock, now).0;
    assert AtTime(cb, before).(clock := clock) == cb.(clock := clock);
  }

  /** Calling ikcp_update at any moments before the one ikcp_check names changes
      neither the state nor the datagrams of the call made at that moment. */
  lemma PollingEqualsSleeping(cb: Cb, current: u32, times: seq<u32>)
    requires cb.clock.updated && forall i :: 0 <= i < |times| ==> Before(current, times[i], Check(cb, current))
    ensures PollAll(cb, times + [Check(cb, current)]) == Update(cb, Check(cb, current))
  {
    hide Update, Check, Before;
    var r := Check(cb, current);
    PollsNoteTheTime(cb, current, times);
    UpdateForgetsTime(cb, PollAll(cb, times).0.clock.current, r);
    assert (times + [r])[..|times|] == times;
    assert [] + Update(cb, r).1 == Update(cb, r).1;
  }
}
