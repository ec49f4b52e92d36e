/** What a flush puts on the wire is what the decode loop of the peer takes off it. */
module KcpFlush {
  import opened Seqs
  import opened Words
  import opened KcpWire
  import opened KcpSpec
  import KcpQueues

  ghost predicate Good(cb: Cb, ps: seq<Packet>) {
    Sendable(ps) && Fits(cb.cfg.mtu, ps)
  }

  lemma GoodConcat(cb: Cb, ps: seq<Packet>, qs: seq<Packet>)
    requires Good(cb, ps) && Good(cb, qs)
    ensures Good(cb, ps + qs)
  {}

  lemma {:induction false} AcksGood(cb: Cb, n: nat)
    requires n <= |cb.acks|
    ensures Good(cb, AckPackets(cb, n)) && |AckPackets(cb, n)| == n
    ensures forall i :: 0 <= i < n ==> AckPackets(cb, n)[i] == AckPacket(cb, i)
  {
    if n > 0 {
      AcksGood(cb, n - 1);
    }
  }

  /** A flush moves segments to snd_buf without making any longer. */
  lemma {:induction false} FillFits(cb: Cb, tx: Tx, cwnd: u32)
    requires SegmentsFit(cb.cfg.Mss(), tx)
    ensures SegmentsFit(cb.cfg.Mss(), FillWindow(cb, tx, cwnd))
    decreases |tx.queue|
  {
    if TimeDiff(tx.nxt, Wrap(tx.una + cwnd)) < 0 && tx.queue != [] {
      FillFits(cb, FillOne(cb, tx), cwnd);
    }
  }

  lemma {:induction false} PushesGood(cb: Cb, buf: seq<SndSeg>)
    requires forall i :: 0 <= i < |buf| ==> |buf[i].frag.data| <= cb.cfg.Mss()
    ensures Good(cb, FlushBuf(cb, buf).sent)
  {
    if buf != [] {
      PushesGood(cb, buf[..|buf| - 1]);
      TouchKeeps(cb, buf[|buf| - 1]);
    }
  }

  lemma PacketsGood(cb: Cb)
    requires SegmentsFit(cb.cfg.Mss(), cb.tx)
    ensures Good(cb, FlushPackets(cb))
  {
    AcksGood(cb, |cb.acks|);
    FillFits(cb, cb.tx, SendWindow(cb));
    PushesGood(cb, Filled(cb).buf);
    GoodConcat(cb, AckPackets(cb, |cb.acks|), ProbePackets(cb));
    GoodConcat(cb, AckPackets(cb, |cb.acks|) + ProbePackets(cb), FlushBuf(cb, Filled(cb).buf).sent);
  }

  lemma {:induction false} FlattenSendable(gs: seq<seq<Packet>>)
    requires Sendable(Flatten(gs))
    ensures SendableGroups(gs)
  {
    if gs != [] {
      var init, g := gs[..|gs| - 1], gs[|gs| - 1];
      var flat := Flatten(gs);
      assert flat == Flatten(init) + g;
      forall i | 0 <= i < |Flatten(init)|
        ensures SendableOne(Flatten(init)[i])
      {
        assert flat[i] == Flatten(init)[i];
      }
      forall i | 0 <= i < |g|
        ensures SendableOne(g[i])
      {
        assert flat[|Flatten(init)| + i] == g[i];
      }
      FlattenSendable(init);
    }
  }

  /** Flush and input are inverse: the datagrams of a flush have at most mtu
      bytes, each decodes without error, and together they decode to exactly the
      pushed acknowledgements, then the probes, then the due segments. */
  lemma FlushRoundTrip(cb: Cb)
    requires SegmentsFit(cb.cfg.Mss(), cb.tx) && cb.clock.updated
    ensures SendableGroups(Flush(cb).1) && Flatten(Flush(cb).1) == FlushPackets(cb)
    ensures forall i :: 0 <= i < |Flush(cb).1| ==>
              var b := EncodeAll(cb.cfg.conv, Flush(cb).1[i]);
              0 < |b| <= cb.cfg.mtu && DecodeAll(cb.cfg.conv, b) == Decoded(Flush(cb).1[i], 0)
  {
    var gs := Flush(cb).1;
    PacketsGood(cb);
    PackAllHolds(cb.cfg.mtu, FlushPackets(cb));
    FlattenSendable(gs);
    forall i | 0 <= i < |gs|
      ensures var b := EncodeAll(cb.cfg.conv, gs[i]);
              0 < |b| <= cb.cfg.mtu && DecodeAll(cb.cfg.conv, b) == Decoded(gs[i], 0)
    {
      EncodeAllSize(cb.cfg.conv, gs[i]);
      DecodeEncodeAll(cb.cfg.conv, gs[i]);
    }
  }

  /** Each acknowledgement pushed since the last flush is sent once, in order, and then forgotten. */
  lemma AcksSentOnce(cb: Cb)
    requires cb.clock.updated
    ensures Flush(cb).0.acks == []
    ensures |FlushPackets(cb)| >= |cb.acks|
    ensures forall i :: 0 <= i < |cb.acks| ==>
              FlushPackets(cb)[i].cmd == CMD_ACK
              && FlushPackets(cb)[i].sn == cb.acks[i].sn && FlushPackets(cb)[i].ts == cb.acks[i].ts
    ensures forall i :: |cb.acks| <= i < |FlushPackets(cb)| ==> FlushPackets(cb)[i].cmd != CMD_ACK
  {
    hide AckPackets, ProbePackets, FlushBuf, Filled, AfterFlush, Probing, PackAll;
    AcksGood(cb, |cb.acks|);
    ProbesAreProbes(cb);
    PushesArePushes(cb, Filled(cb).buf);
  }

  lemma ProbesAreProbes(cb: Cb)
    ensures forall i :: 0 <= i < |ProbePackets(cb)| ==> ProbePackets(cb)[i].cmd != CMD_ACK
  {}

  lemma {:induction false} PushesArePushes(cb: Cb, buf: seq<SndSeg>)
    ensures forall i :: 0 <= i < |FlushBuf(cb, buf).sent| ==> FlushBuf(cb, buf).sent[i].cmd == CMD_PUSH
  {
    if buf != [] {
      PushesArePushes(cb, buf[..|buf| - 1]);
    }
  }

  /** What ikcp_input answers to packets with anything behind them. */
  lemma InputAnswers(cb: Cb, ps: seq<Packet>, rest: seq<byte>)
    requires Sendable(ps) && Refusal(cb.cfg.conv, rest) <= 0
    ensures Input(cb, EncodeAll(cb.cfg.conv, ps) + rest).1
         == if ps == [] && |rest| < 24 then -1 else Refusal(cb.cfg.conv, rest)
  {
    hide ProcessAll, FinishInput, DecodeAll, Size, EncodePacket;
    DecodeStops(cb.cfg.conv, ps, rest);
    EncodeAllSize(cb.cfg.conv, ps);
    if ps != [] {
      AtLeastHeader(ps);
    }
  }

  lemma AtLeastHeader(ps: seq<Packet>)
    requires ps != []
    ensures Size(ps) >= 24
  {}
}
