/** The KCP control block with its mutable fields, grouped into the records of
    KcpSpec. Every method is proved to compute the function of the same name
    there, and to keep the four queue counters equal to the queue lengths. */
module Kcp {
  import opened Seqs
  import opened Words
  import opened KcpWire
  import opened KcpSpec

  class ControlBlock {
    const cfg: Config

    var tx: Tx
    var rx: Rx
    var cc: Congestion
    var rtt: Rtt
    var probe: Probe
    var clock: Clock
    var link: Link

    var nsndQue: nat
    var nsndBuf: nat
    var nrcvQue: nat
    var nrcvBuf: nat

    // Acknowledgements still to be sent: pairs (sn, ts) in a flat array.
    var acklist: array<u32>
    var ackcount: nat
    var ackblock: nat
    ghost var acks: seq<Ack>

    ghost function View(): Cb
      reads this
    {
      Cb(cfg, tx, rx, cc, rtt, probe, clock, link, acks)
    }

    ghost predicate TxCounted()
      reads `tx, `nsndQue, `nsndBuf
    {
      nsndQue == |tx.queue| && nsndBuf == |tx.buf| && SegmentsFit(cfg.Mss(), tx)
    }

    ghost predicate RxCounted()
      reads `rx, `nrcvQue, `nrcvBuf
    {
      nrcvQue == |rx.queue| && nrcvBuf == |rx.buf|
    }

    /** The flat array holds the acknowledgements. */
    ghost predicate AcksStored()
      reads `acklist, `ackcount, `ackblock, `acks, acklist
    {
      && acklist.Length == 2 * ackblock && ackcount <= ackblock && ackcount == |acks|
      && (forall i :: 0 <= i < ackcount ==> acks[i] == Ack(acklist[2 * i], acklist[2 * i + 1]))
    }

    ghost predicate Valid()
      reads this, acklist
    {
      TxCounted() && RxCounted() && AcksStored()
    }

    constructor (cfg: Config, rcvWnd: u32)
      ensures Valid() && fresh(acklist)
      ensures View() == Create(cfg, rcvWnd)
    {
      this.cfg := cfg;
      tx, rx := Tx(0, 0, [], []), Rx(0, rcvWnd, [], []);
      nsndQue, nsndBuf, nrcvQue, nrcvBuf := 0, 0, 0, 0;
      acklist, ackcount, ackblock, acks := new u32[0], 0, 0, [];
      cc, rtt, probe := Congestion(128, 0, 0, 2), Rtt(0, 0, 200), Probe(false, false, 0, 0);
      clock, link := Clock(0, 100, false), Link(0, false);
    }

    // ---- sending ----

    /** Stream mode: fill up the last queued segment; `rest` is what remains. */
    method ExtendTail(buffer: seq<byte>) returns (rest: seq<byte>)
      requires TxCounted()
      modifies `tx
      ensures TxCounted()
      ensures tx == old(tx).(queue := tx.queue)
      ensures (tx.queue, rest) == KcpSpec.ExtendTail(old(tx.queue), buffer, cfg.Mss())
    {
      rest := buffer;
      if tx.queue != [] {
        var last := tx.queue[|tx.queue| - 1];
        if |last.data| < cfg.Mss() {
          var extend := Min(|rest|, cfg.Mss() - |last.data|);
          tx := tx.(queue := tx.queue[..|tx.queue| - 1] + [Frag(0, last.data + rest[..extend])]);
          rest := rest[extend..];
        }
      }
    }

    static lemma FragmentsNext(data: seq<byte>, mss: nat, count: nat, stream: bool)
      requires 0 < count <= 256
      ensures var size := Min(|data|, mss);
              Fragments(data, mss, count, stream)
              == [Frag(if stream then 0 else count - 1, data[..size])] + Fragments(data[size..], mss, count - 1, stream)
    {}

    static lemma NoFragments(data: seq<byte>, mss: nat, stream: bool)
      ensures Fragments(data, mss, 0, stream) == []
    {}

    method Fragment(buffer: seq<byte>, count: nat)
      requires TxCounted() && count < WND_RCV
      modifies `tx, `nsndQue
      ensures TxCounted()
      ensures tx == old(tx).(queue := old(tx.queue) + Fragments(buffer, cfg.Mss(), count, cfg.stream))
    {
      hide Fragments;
      var mss, rest := cfg.Mss(), buffer;
      for i := 0 to count
        invariant tx == old(tx).(queue := tx.queue)
        invariant tx.queue + Fragments(rest, mss, count - i, cfg.stream)
               == old(tx.queue) + Fragments(buffer, mss, count, cfg.stream)
        invariant TxCounted()
      {
        var size := Min(|rest|, mss);
        var seg := Frag(if cfg.stream then 0 else count - i - 1, rest[..size]);
        FragmentsNext(rest, mss, count - i, cfg.stream);
        Assoc(tx.queue, [seg], Fragments(rest[size..], mss, count - i - 1, cfg.stream));
        tx := tx.(queue := tx.queue + [seg]);
        nsndQue := nsndQue + 1;
        rest := rest[size..];
      }
      NoFragments(rest, mss, cfg.stream);
    }

    method Send(buffer: seq<byte>, len: int) returns (ret: int)
      requires Valid() && len <= |buffer| && len < 0x8000_0000
      modifies `tx, `nsndQue
      ensures Valid()
      ensures len < 0 ==> ret == -1 && View() == old(View())
      ensures len >= 0 ==> (View(), ret) == KcpSpec.Send(old(View()), buffer[..len])
    {
      if len < 0 {
        return -1;
      }
      var mss, rest := cfg.Mss(), buffer[..len];
      if cfg.stream {
        rest := ExtendTail(rest);
        if |rest| <= 0 {
          return 0;
        }
      }
      var count := if |rest| <= mss then 1 else (|rest| + mss - 1) / mss;
      if count >= WND_RCV {
        return -2;
      }
      Fragment(rest, count);
      return 0;
    }

    // ---- receiving ----

    method PeekSize() returns (size: int)
      requires RxCounted()
      ensures size == KcpSpec.PeekSize(rx.queue)
    {
      var queue := rx.queue;
      if queue == [] {
        return -1;
      }
      if queue[0].frg == 0 {
        return |queue[0].data|;
      }
      if nrcvQue < queue[0].frg as int + 1 {
        return -1;
      }
      var length, p := 0, 0;
      while p < |queue|
        invariant 0 <= p <= |queue| && length == |Join(queue[..p])|
        invariant MessageLen(queue) == p + MessageLen(queue[p..])
      {
        JoinSnoc(queue, p);
        length := length + |queue[p].data|;
        p := p + 1;
        if queue[p - 1].frg == 0 {
          break;
        }
      }
      return length;
    }

    method MoveReady()
      requires RxCounted()
      modifies `rx, `nrcvBuf, `nrcvQue
      ensures RxCounted()
      ensures rx == KcpSpec.MoveReady(old(rx))
    {
      while rx.buf != []
        invariant RxCounted()
        invariant KcpSpec.MoveReady(rx) == KcpSpec.MoveReady(old(rx))
        decreases |rx.buf|
      {
        var seg := rx.buf[0];
        if seg.sn == rx.nxt && nrcvQue < rx.wnd {
          rx := Rx(Wrap(rx.nxt + 1), rx.wnd, rx.queue + [seg.frag], rx.buf[1..]);
          nrcvBuf := nrcvBuf - 1;
          nrcvQue := nrcvQue + 1;
        } else {
          break;
        }
      }
    }

    /** The merge loop of ikcp_recv; the message leaves the queue unless it is only peeked at. */
    method Merge(peek: bool) returns (data: seq<byte>)
      requires RxCounted()
      modifies `rx, `nrcvQue
      ensures RxCounted()
      ensures data == Join(old(rx.queue)[..MessageLen(old(rx.queue))])
      ensures rx == if peek then old(rx) else old(rx).(queue := old(rx.queue)[MessageLen(old(rx.queue))..])
    {
      var queue, p := rx.queue, 0;
      data := [];
      while p < |queue|
        invariant 0 <= p <= |queue|
        invariant data == Join(queue[..p])
        invariant MessageLen(queue) == p + MessageLen(queue[p..])
        invariant rx == if peek then old(rx) else old(rx).(queue := queue[p..])
        invariant RxCounted()
      {
        JoinSnoc(queue, p);
        data := data + queue[p].data;
        p := p + 1;
        if !peek {
          rx := rx.(queue := rx.queue[1..]);
          nrcvQue := nrcvQue - 1;
        }
        if queue[p - 1].frg == 0 {
          break;
        }
      }
    }

    method Recv(len: int) returns (ret: int, data: seq<byte>)
      requires Valid()
      modifies `rx, `nrcvBuf, `nrcvQue, `probe
      ensures Valid()
      ensures RecvResult(View(), ret, data) == KcpSpec.Recv(old(View()), len)
    {
      hide KcpSpec.PeekSize, KcpSpec.MoveReady, MessageLen, Join, TxCounted, AcksStored;
      if rx.queue == [] {
        return -1, [];
      }
      var peeksize := PeekSize();
      if peeksize < 0 {
        return -2, [];
      }
      if peeksize > (if len < 0 then -len else len) {
        return -3, [];
      }
      var recover := nrcvQue >= rx.wnd;
      PeekSizeIsJoin(rx.queue);
      data := Merge(len < 0);
      assert |data| == peeksize;
      MoveReady();
      if nrcvQue < rx.wnd && recover {
        probe := probe.(tell := true);
      }
      return |data|, data;
    }

    // ---- acknowledgements ----

    method UpdateAck(r: int)
      modifies `rtt
      ensures rtt == KcpSpec.UpdateAck(cfg, old(rtt), r)
    {
      if rtt.srtt == 0 {
        rtt := rtt.(srtt := r, rttval := Quot(r, 2));
      } else {
        var delta := r - rtt.srtt;
        if delta < 0 {
          delta := -delta;
        }
        rtt := rtt.(rttval := Quot(Signed(3 * rtt.rttval + delta), 4), srtt := Quot(Signed(7 * rtt.srtt + r), 8));
        if rtt.srtt < 1 {
          rtt := rtt.(srtt := 1);
        }
      }
      var rto := Wrap(rtt.srtt + Max(cfg.interval, Wrap(4 * rtt.rttval)));
      rtt := rtt.(rto := Bound(cfg.minrto, rto, RTO_MAX));
    }

    method ShrinkBuf()
      requires TxCounted()
      modifies `tx
      ensures TxCounted()
      ensures tx == KcpSpec.ShrinkBuf(old(tx))
    {
      if tx.buf != [] {
        tx := tx.(una := tx.buf[0].sn);
      } else {
        tx := tx.(una := tx.nxt);
      }
    }

    /** The search that has come to position `p`. */
    static lemma DropAckedFrom(buf: seq<SndSeg>, sn: u32, p: nat)
      requires p < |buf|
      ensures sn == buf[p].sn ==> DropAcked(buf[p..], sn) == buf[p + 1..]
      ensures sn != buf[p].sn && TimeDiff(sn, buf[p].sn) < 0 ==> DropAcked(buf[p..], sn) == buf[p..]
      ensures sn != buf[p].sn && TimeDiff(sn, buf[p].sn) >= 0 ==>
                buf[..p] + DropAcked(buf[p..], sn) == buf[..p + 1] + DropAcked(buf[p + 1..], sn)
    {
      hide TimeDiff;
      assert buf[p..][1..] == buf[p + 1..];
      assert buf[..p] + ([buf[p]] + DropAcked(buf[p + 1..], sn)) == buf[..p + 1] + DropAcked(buf[p + 1..], sn);
    }

    static lemma DropAckedNone(sn: u32)
      ensures DropAcked([], sn) == []
    {}

    method ParseAck(sn: u32)
      requires TxCounted()
      modifies `tx, `nsndBuf
      ensures TxCounted()
      ensures tx == KcpSpec.ParseAck(old(tx), sn)
    {
      hide DropAcked, TimeDiff;
      if TimeDiff(sn, tx.una) < 0 || TimeDiff(sn, tx.nxt) >= 0 {
        return;
      }
      var buf, p := tx.buf, 0;
      while p < |buf|
        invariant 0 <= p <= |buf| && tx == old(tx) && TxCounted()
        invariant DropAcked(buf, sn) == buf[..p] + DropAcked(buf[p..], sn)
      {
        DropAckedFrom(buf, sn, p);
        if sn == buf[p].sn {
          tx := tx.(buf := buf[..p] + buf[p + 1..]);
          nsndBuf := nsndBuf - 1;
          return;
        }
        if TimeDiff(sn, buf[p].sn) < 0 {
          break;
        }
        p := p + 1;
      }
      assert buf[..p] + buf[p..] == buf;
      DropAckedNone(sn);
    }

    method ParseUna(una: u32)
      requires TxCounted()
      modifies `tx, `nsndBuf
      ensures TxCounted()
      ensures tx == KcpSpec.ParseUna(old(tx), una)
    {
      while tx.buf != []
        invariant TxCounted() && tx == old(tx).(buf := tx.buf)
        invariant DropBelow(tx.buf, una) == DropBelow(old(tx.buf), una)
        decreases |tx.buf|
      {
        if TimeDiff(una, tx.buf[0].sn) > 0 {
          tx := tx.(buf := tx.buf[1..]);
          nsndBuf := nsndBuf - 1;
        } else {
          break;
        }
      }
    }

    method ParseFastack(sn: u32)
      requires TxCounted()
      modifies `tx
      ensures TxCounted()
      ensures tx == KcpSpec.ParseFastack(old(tx), sn)
    {
      if TimeDiff(sn, tx.una) < 0 || TimeDiff(sn, tx.nxt) >= 0 {
        return;
      }
      var p := 0;
      while p < |tx.buf|
        invariant 0 <= p <= |tx.buf| && TxCounted() && tx == old(tx).(buf := tx.buf)
        invariant BumpFastack(tx.buf, sn, p) == BumpFastack(old(tx.buf), sn, 0)
      {
        var seg := tx.buf[p];
        if TimeDiff(sn, seg.sn) < 0 {
          break;
        } else if sn != seg.sn {
          seg := seg.(fastack := Wrap(seg.fastack + 1));
        }
        tx := tx.(buf := tx.buf[p := seg]);
        p := p + 1;
      }
    }

    /** Room for one more pair: the array doubles from 8 pairs until it is large enough. */
    method GrowAcklist()
      requires AcksStored()
      modifies `acklist, `ackblock
      ensures AcksStored() && ackcount < ackblock
      ensures acklist == old(acklist) || fresh(acklist)
    {
      if ackcount + 1 > ackblock {
        var newblock := 8;
        while newblock < ackcount + 1
          invariant newblock > 0
        {
          newblock := 2 * newblock;
        }
        var list := new u32[2 * newblock];
        for x := 0 to ackcount
          invariant acklist == old(acklist) && ackblock == old(ackblock)
          invariant forall i :: 0 <= i < 2 * x ==> list[i] == acklist[i]
        {
          list[2 * x], list[2 * x + 1] := acklist[2 * x], acklist[2 * x + 1];
        }
        acklist := list;
        ackblock := newblock;
      }
    }

    method AckPush(sn: u32, ts: u32)
      requires AcksStored()
      modifies `acklist, `ackblock, `ackcount, `acks, acklist
      ensures AcksStored() && acks == old(acks) + [Ack(sn, ts)]
      ensures acklist == old(acklist) || fresh(acklist)
    {
      GrowAcklist();
      acklist[2 * ackcount], acklist[2 * ackcount + 1] := sn, ts;
      ackcount := ackcount + 1;
      acks := acks + [Ack(sn, ts)];
    }

    // ---- incoming data ----

    method ParseData(seg: RcvSeg)
      requires RxCounted()
      modifies `rx, `nrcvBuf, `nrcvQue
      ensures RxCounted()
      ensures rx == KcpSpec.ParseData(old(rx), seg)
    {
      if TimeDiff(seg.sn, Wrap(rx.nxt + rx.wnd)) >= 0 || TimeDiff(seg.sn, rx.nxt) < 0 {
        return;
      }
      var p, repeated := |rx.buf|, false;
      while p > 0
        invariant 0 <= p <= |rx.buf|
        invariant InsertPos(rx.buf, seg.sn, |rx.buf|) == InsertPos(rx.buf, seg.sn, p)
      {
        if rx.buf[p - 1].sn == seg.sn {
          repeated := true;
          break;
        }
        if TimeDiff(seg.sn, rx.buf[p - 1].sn) > 0 {
          break;
        }
        p := p - 1;
      }
      if !repeated {
        rx := rx.(buf := rx.buf[..p] + [seg] + rx.buf[p..]);
        nrcvBuf := nrcvBuf + 1;
      }
      MoveReady();
    }

    method ProcessUna(p: Packet)
      requires TxCounted()
      modifies `cc, `tx, `nsndBuf
      ensures TxCounted()
      ensures View() == KcpSpec.ProcessUna(old(View()), p)
    {
      cc := cc.(rmtWnd := p.wnd);
      ParseUna(p.una);
      ShrinkBuf();
    }

    method ProcessAck(p: Packet, flag: bool, maxack: u32) returns (maxack': u32)
      requires TxCounted()
      modifies `tx, `nsndBuf, `rtt
      ensures TxCounted()
      ensures InState(View(), true, maxack') == KcpSpec.ProcessAck(InState(old(View()), flag, maxack), p)
    {
      if TimeDiff(clock.current, p.ts) >= 0 {
        UpdateAck(TimeDiff(clock.current, p.ts));
      }
      ParseAck(p.sn);
      ShrinkBuf();
      maxack' := maxack;
      if !flag || TimeDiff(p.sn, maxack) > 0 {
        maxack' := p.sn;
      }
    }

    method ProcessPush(p: Packet)
      requires AcksStored() && RxCounted()
      modifies `rx, `nrcvBuf, `nrcvQue, `acklist, `ackblock, `ackcount, `acks, acklist
      ensures AcksStored() && RxCounted() && (acklist == old(acklist) || fresh(acklist))
      ensures View() == KcpSpec.ProcessPush(old(View()), p)
    {
      hide TimeDiff, KcpSpec.MoveReady, Insert, RxCounted, AcksStored;
      if TimeDiff(p.sn, Wrap(rx.nxt + rx.wnd)) < 0 {
        AckPush(p.sn, p.ts);
        if TimeDiff(p.sn, rx.nxt) >= 0 {
          ParseData(RcvSeg(p.sn, Frag(p.frg, p.data)));
        }
      }
    }

    /** One packet of the loop of ikcp_input. */
    method ProcessPacket(p: Packet, flag: bool, maxack: u32) returns (flag': bool, maxack': u32)
      requires Valid()
      modifies this, acklist
      ensures Valid() && (acklist == old(acklist) || fresh(acklist))
      ensures InState(View(), flag', maxack') == KcpSpec.ProcessPacket(InState(old(View()), flag, maxack), p)
    {
      hide KcpSpec.ProcessUna, KcpSpec.ProcessAck, KcpSpec.ProcessPush, TxCounted, RxCounted, AcksStored;
      flag', maxack' := flag, maxack;
      ProcessUna(p);
      if p.cmd == CMD_ACK {
        maxack' := ProcessAck(p, flag, maxack);
        flag' := true;
      } else if p.cmd == CMD_PUSH {
        ProcessPush(p);
      } else if p.cmd == CMD_WASK {
        probe := probe.(tell := true);
      }
    }

    method GrowWindow()
      modifies `cc
      ensures cc == KcpSpec.GrowWindow(old(cc), cfg.Mss())
    {
      var mss := cfg.Mss();
      if cc.cwnd < cc.rmtWnd as int {
        if cc.cwnd < cc.ssthresh {
          cc := cc.(cwnd := Wrap(cc.cwnd + 1), incr := Wrap(cc.incr + mss));
        } else {
          if cc.incr < mss {
            cc := cc.(incr := mss);
          }
          cc := cc.(incr := Wrap(cc.incr + Div32(Mul32(mss, mss), cc.incr) + mss / 16));
          if Mul32(Wrap(cc.cwnd + 1), mss) <= cc.incr {
            cc := cc.(cwnd := Div32(Wrap(cc.incr + mss - 1), mss));
          }
        }
        if cc.cwnd > cc.rmtWnd as int {
          cc := cc.(cwnd := cc.rmtWnd, incr := Mul32(cc.rmtWnd, mss));
        }
      }
    }

    method FinishInput(flag: bool, maxack: u32, prevUna: u32)
      requires TxCounted()
      modifies `tx, `cc
      ensures TxCounted()
      ensures View() == KcpSpec.FinishInput(InState(old(View()), flag, maxack), prevUna)
    {
      if flag {
        ParseFastack(maxack);
      }
      if TimeDiff(tx.una, prevUna) > 0 {
        GrowWindow();
      }
    }

    /** What was decoded when `done` is processed and `rest` is left. */
    static ghost predicate Parsed(conv: u32, all: Decoded, done: seq<Packet>, rest: seq<byte>) {
      all == Decoded(done + DecodeAll(conv, rest).packets, DecodeAll(conv, rest).ret)
    }

    static lemma ParsedNext(conv: u32, all: Decoded, done: seq<Packet>, rest: seq<byte>)
      requires Parsed(conv, all, done, rest)
      ensures if |rest| < OVERHEAD then all == Decoded(done, 0)
              else match DecodeNext(conv, rest)
                   case Stop(ret) => all == Decoded(done, ret)
                   case Got(p, more) => Parsed(conv, all, done + [p], more)
    {
      hide DecodeNext;
      if |rest| < OVERHEAD {
        assert done + [] == done;
      } else {
        var next := DecodeNext(conv, rest);
        if next.Stop? {
          assert done + [] == done;
        } else {
          assert done + ([next.packet] + DecodeAll(conv, next.rest).packets)
              == (done + [next.packet]) + DecodeAll(conv, next.rest).packets;
        }
      }
    }

    method Input(data: seq<byte>) returns (ret: int)
      requires Valid()
      modifies this, acklist
      ensures Valid() && (acklist == old(acklist) || fresh(acklist))
      ensures (View(), ret) == KcpSpec.Input(old(View()), data)
    {
      hide DecodeAll, DecodeNext, KcpSpec.ProcessPacket, KcpSpec.FinishInput, Parsed, ProcessAll, TxCounted, RxCounted, AcksStored;
      var prevUna, flag, maxack, b := tx.una, false, 0, data;
      if |data| < OVERHEAD {
        return -1;
      }
      ghost var all, done, st := DecodeAll(cfg.conv, data), [], InState(View(), false, 0);
      assert Parsed(cfg.conv, all, done, b) by {
        ParsedFirst(cfg.conv, data);
      }
      assert InState(View(), flag, maxack) == ProcessAll(st, done) by {
        ProcessNone(st);
      }
      while |b| >= OVERHEAD
        invariant Valid() && (acklist == old(acklist) || fresh(acklist))
        invariant Parsed(cfg.conv, all, done, b)
        invariant InState(View(), flag, maxack) == ProcessAll(st, done)
        decreases |b|
      {
        ParsedNext(cfg.conv, all, done, b);
        var next := DecodeNext(cfg.conv, b);
        if next.Stop? {
          return next.ret;
        }
        flag, maxack := ProcessPacket(next.packet, flag, maxack);
        ProcessSnoc(st, done, next.packet);
        done := done + [next.packet];
        b := next.rest;
      }
      ParsedNext(cfg.conv, all, done, b);
      FinishInput(flag, maxack, prevUna);
      return 0;
    }

    static lemma ParsedFirst(conv: u32, data: seq<byte>)
      ensures Parsed(conv, DecodeAll(conv, data), [], data)
    {
      assert [] + DecodeAll(conv, data).packets == DecodeAll(conv, data).packets;
    }

    static lemma ProcessNone(st: InState)
      ensures ProcessAll(st, []) == st
    {}

    // ---- ikcp_flush ----

    /** `out` and `ptr` are the datagrams already given to the output callback
        and the scratch buffer, once `ps` has been packed. */
    ghost predicate Packed(ps: seq<Packet>, out: seq<seq<byte>>, ptr: seq<byte>) {
      Buffered(cfg.conv, PackMany(cfg.mtu, Packer([], []), ps), out, ptr)
    }

    static ghost predicate Buffered(conv: u32, pk: Packer, out: seq<seq<byte>>, ptr: seq<byte>) {
      Sendable(pk.buf) && SendableGroups(pk.out) && out == EncodeGroups(conv, pk.out) && ptr == EncodeAll(conv, pk.buf)
    }

    /** ikcp_output: an empty buffer is not sent. */
    method Output(ghost pk: Packer, out: seq<seq<byte>>, ptr: seq<byte>) returns (out': seq<seq<byte>>)
      requires Buffered(cfg.conv, pk, out, ptr)
      ensures Buffered(cfg.conv, KcpWire.Output(pk), out', [])
    {
      EncodeAllSize(cfg.conv, pk.buf);
      out' := if |ptr| == 0 then out else out + [ptr];
      assert pk.buf == [] || Size(pk.buf) > 0;
      assert (pk.out + [pk.buf])[..|pk.out|] == pk.out;
    }

    /** Encode one packet, after sending the buffer if the packet would not fit. */
    method Append(ghost ps: seq<Packet>, out: seq<seq<byte>>, ptr: seq<byte>, p: Packet)
      returns (out': seq<seq<byte>>, ptr': seq<byte>)
      requires Packed(ps, out, ptr) && SendableOne(p)
      ensures Packed(ps + [p], out', ptr')
    {
      ghost var pk := PackMany(cfg.mtu, Packer([], []), ps);
      PackSnoc(cfg.mtu, Packer([], []), ps, p);
      out', ptr' := out, ptr;
      EncodeAllSize(cfg.conv, pk.buf);
      if |ptr'| + OVERHEAD + |p.data| > cfg.mtu {
        out' := Output(pk, out', ptr');
        ptr', pk := [], KcpWire.Output(pk);
      }
      EncodeAllSnoc(cfg.conv, pk.buf, p);
      ptr' := ptr' + EncodePacket(cfg.conv, p);
    }

    /** What remains in the scratch buffer goes out last. */
    method Finish(ghost ps: seq<Packet>, out: seq<seq<byte>>, ptr: seq<byte>) returns (out': seq<seq<byte>>)
      requires Packed(ps, out, ptr)
      ensures SendableGroups(PackAll(cfg.mtu, ps)) && out' == EncodeGroups(cfg.conv, PackAll(cfg.mtu, ps))
    {
      out' := Output(PackMany(cfg.mtu, Packer([], []), ps), out, ptr);
    }

    method GetAck(i: nat) returns (p: Packet)
      requires AcksStored() && i < ackcount
      ensures p == AckPacket(View(), i)
    {
      var sn, ts := acklist[2 * i], acklist[2 * i + 1];
      p := Packet(CMD_ACK, 0, WndUnused(rx) % 0x1_0000, ts, sn, rx.nxt, []);
    }

    lemma PackedNone()
      ensures Packed([], [], [])
    {}

    static lemma AckPacketsNext(cb: Cb, i: nat)
      requires i < |cb.acks|
      ensures AckPackets(cb, i + 1) == AckPackets(cb, i) + [AckPacket(cb, i)]
    {}

    method FlushAcks() returns (out: seq<seq<byte>>, ptr: seq<byte>)
      requires AcksStored()
      ensures Packed(AckPackets(View(), |acks|), out, ptr)
    {
      hide Packed, AckPackets, AckPacket, SendableOne;
      ghost var cb := View();
      out, ptr := [], [];
      PackedNone();
      assert AckPackets(cb, 0) == [] by { NoAckPackets(cb); }
      for i := 0 to ackcount
        invariant Packed(AckPackets(cb, i), out, ptr)
      {
        var p := GetAck(i);
        AckPacketsNext(cb, i);
        AckSendable(cb, i);
        out, ptr := Append(AckPackets(cb, i), out, ptr, p);
      }
    }

    static lemma NoAckPackets(cb: Cb)
      ensures AckPackets(cb, 0) == []
    {}

    static lemma AckSendable(cb: Cb, i: nat)
      requires i < |cb.acks|
      ensures SendableOne(AckPacket(cb, i))
    {}

    method RunProbeTimer()
      modifies `probe
      ensures probe == ProbeTimer(old(probe), cc.rmtWnd, clock.current)
    {
      if cc.rmtWnd == 0 {
        if probe.wait == 0 {
          probe := probe.(wait := PROBE_INIT, ts := Wrap(clock.current + PROBE_INIT));
        } else if TimeDiff(clock.current, probe.ts) >= 0 {
          if probe.wait < PROBE_INIT {
            probe := probe.(wait := PROBE_INIT);
          }
          probe := probe.(wait := Wrap(probe.wait + probe.wait / 2));
          if probe.wait > PROBE_LIMIT {
            probe := probe.(wait := PROBE_LIMIT);
          }
          probe := probe.(ts := Wrap(clock.current + probe.wait), ask := true);
        }
      } else {
        probe := probe.(ts := 0, wait := 0);
      }
    }

    method MoveToBuf(ghost cb: Cb, cwnd: u32)
      requires TxCounted()
      requires cb.rx == rx && cb.clock == clock && cb.rtt == rtt
      modifies `tx, `nsndQue, `nsndBuf
      ensures TxCounted()
      ensures tx == FillWindow(cb, old(tx), cwnd)
    {
      while TimeDiff(tx.nxt, Wrap(tx.una + cwnd)) < 0
        invariant TxCounted()
        invariant FillWindow(cb, tx, cwnd) == FillWindow(cb, old(tx), cwnd)
        decreases |tx.queue|
      {
        if tx.queue == [] {
          break;
        }
        var seg := SndSeg(tx.nxt, tx.queue[0], WndUnused(rx) % 0x1_0000, clock.current, rx.nxt,
                          clock.current, rtt.rto, 0, 0);
        tx := Tx(tx.una, Wrap(tx.nxt + 1), tx.queue[1..], tx.buf + [seg]);
        nsndQue := nsndQue - 1;
        nsndBuf := nsndBuf + 1;
      }
    }

    /** One segment of the data loop: is it due, and what becomes of its timers? */
    method TouchSegment(ghost cb: Cb, s: SndSeg) returns (s': SndSeg, due: Due)
      requires cb.cfg == cfg && cb.rx == rx && cb.clock == clock && cb.rtt == rtt
      ensures s' == Touch(cb, s) && due == DueNow(cb, s)
    {
      hide TimeDiff, Signed, Wrap, Quot, WndUnused, Resent;
      var current := clock.current;
      var rtomin := if cfg.nodelay == 0 then rtt.rto / 8 else 0;
      s', due := s, NotDue;
      if s.xmit == 0 {
        due := First;
        s' := s.(xmit := 1, rto := rtt.rto, resendts := Wrap(current + rtt.rto + rtomin));
      } else if TimeDiff(current, s.resendts) >= 0 {
        due := Timeout;
        s' := s.(xmit := Wrap(s.xmit + 1));
        if cfg.nodelay == 0 {
          s' := s'.(rto := Wrap(s'.rto + Max(s'.rto, rtt.rto)));
        } else {
          var step := if cfg.nodelay < 2 then Signed(s'.rto) else rtt.rto;
          s' := s'.(rto := Wrap(s'.rto + Quot(step, 2)));
        }
        s' := s'.(resendts := Wrap(current + s'.rto));
      } else if s.fastack >= Resent(cfg) {
        if Signed(s.xmit) <= cfg.fastlimit || cfg.fastlimit <= 0 {
          due := Fast;
          s' := s.(xmit := Wrap(s.xmit + 1), fastack := 0, resendts := Wrap(current + s.rto));
        }
      }
      if due != NotDue {
        s' := s'.(ts := current, wnd := WndUnused(rx) % 0x1_0000, una := rx.nxt);
      }
    }

    /** One turn of the data loop; `f` is what the turns before it did. */
    method FlushSegment(ghost cb: Cb, i: nat, ghost ps: seq<Packet>, ghost f: Flushed, out: seq<seq<byte>>, ptr: seq<byte>)
      returns (out': seq<seq<byte>>, ptr': seq<byte>, due: Due)
      requires i < |tx.buf| && TxCounted() && Packed(ps + f.sent, out, ptr)
      requires cb.cfg == cfg && cb.rx == rx && cb.clock == clock && cb.rtt == rtt && link == Link(f.xmit, f.dead)
      modifies `tx, `link
      ensures TxCounted() && due == DueNow(cb, old(tx.buf)[i])
      ensures tx == old(tx).(buf := old(tx.buf)[i := Touch(cb, old(tx.buf)[i])])
      ensures var f' := FlushOne(cb, f, old(tx.buf)[i]);
              link == Link(f'.xmit, f'.dead) && Packed(ps + f'.sent, out', ptr')
    {
      hide Packed, Touch, DueNow;
      out', ptr' := out, ptr;
      var s;
      TouchKeeps(cb, tx.buf[i]);
      s, due := TouchSegment(cb, tx.buf[i]);
      tx := tx.(buf := tx.buf[i := s]);
      if due == Timeout {
        link := link.(xmit := Wrap(link.xmit + 1));
      }
      if due != NotDue {
        out', ptr' := Append(ps + f.sent, out', ptr', PushPacket(s));
        assert ps + f.sent + [PushPacket(s)] == ps + (f.sent + [PushPacket(s)]);
        if s.xmit >= cfg.deadLink {
          link := link.(dead := true);
        }
      }
    }

    static lemma FlushBufNone(cb: Cb)
      ensures FlushBuf(cb, []) == Flushed([], [], false, false, cb.link.xmit, cb.link.dead)
    {}

    method FlushData(ghost cb: Cb, ghost ps: seq<Packet>, out: seq<seq<byte>>, ptr: seq<byte>)
      returns (out': seq<seq<byte>>, ptr': seq<byte>, lost: bool, change: bool)
      requires TxCounted() && Packed(ps, out, ptr)
      requires cb.cfg == cfg && cb.rx == rx && cb.clock == clock && cb.rtt == rtt && cb.link == link
      modifies `tx, `link
      ensures TxCounted()
      ensures var f := FlushBuf(cb, old(tx.buf));
              tx == old(tx).(buf := f.buf) && link == Link(f.xmit, f.dead) && lost == f.lost && change == f.change
              && Packed(ps + f.sent, out', ptr')
    {
      hide Packed, Touch, DueNow, FlushBuf, SegmentsFit;
      FlushBufNone(cb);
      ghost var buf := tx.buf;
      out', ptr', lost, change := out, ptr, false, false;
      assert ps + [] == ps;
      for i := 0 to |tx.buf|
        invariant TxCounted() && |tx.buf| == |buf|
        invariant tx == old(tx).(buf := FlushBuf(cb, buf[..i]).buf + buf[i..])
        invariant var f := FlushBuf(cb, buf[..i]);
                  link == Link(f.xmit, f.dead) && lost == f.lost && change == f.change
                  && Packed(ps + f.sent, out', ptr')
      {
        ghost var f := FlushBuf(cb, buf[..i]);
        FlushBufSnoc(cb, buf, i);
        var due;
        out', ptr', due := FlushSegment(cb, i, ps, f, out', ptr');
        UpdateMiddle(f.buf, buf, i, Touch(cb, buf[i]));
        lost := lost || due == Timeout;
        change := change || due == Fast;
      }
      assert buf[..|buf|] == buf;
    }

    /** Window probes, with the number fields left over from the acknowledgement loop. */
    method FlushProbes(ghost cb: Cb, ghost ps: seq<Packet>, out: seq<seq<byte>>, ptr: seq<byte>)
      returns (out': seq<seq<byte>>, ptr': seq<byte>)
      requires AcksStored() && probe == Probing(cb) && View() == cb.(probe := probe)
      requires Packed(ps, out, ptr)
      ensures Packed(ps + ProbePackets(cb), out', ptr')
    {
      hide Packed, AckPackets;
      out', ptr' := out, ptr;
      var p := Packet(CMD_WASK, 0, WndUnused(rx) % 0x1_0000, 0, 0, rx.nxt, []);
      if ackcount > 0 {
        p := GetAck(ackcount - 1);
      }
      ghost var qs := [];
      assert ps + qs == ps;
      if probe.ask {
        p := p.(cmd := CMD_WASK);
        out', ptr' := Append(ps, out', ptr', p);
        qs := [p];
      }
      if probe.tell {
        p := p.(cmd := CMD_WINS);
        out', ptr' := Append(ps + qs, out', ptr', p);
        assert ps + qs + [p] == ps + (qs + [p]);
        qs := qs + [p];
      }
      assert qs == ProbePackets(cb);
    }

    /** Congestion control at the end of a flush that used window `cwnd`. */
    method FinishFlush(cwnd: u32, lost: bool, change: bool)
      modifies `cc
      ensures forall f: Flushed :: f.lost == lost && f.change == change ==>
                AfterFlush(cfg, old(cc), tx, f, cwnd) == cc
    {
      var mss := cfg.Mss();
      if change {
        var inflight := Wrap(tx.nxt - tx.una);
        cc := cc.(ssthresh := inflight / 2);
        if cc.ssthresh < THRESH_MIN {
          cc := cc.(ssthresh := THRESH_MIN);
        }
        cc := cc.(cwnd := Wrap(cc.ssthresh + Resent(cfg)));
        cc := cc.(incr := Mul32(cc.cwnd, mss));
      }
      if lost {
        cc := cc.(ssthresh := cwnd / 2);
        if cc.ssthresh < THRESH_MIN {
          cc := cc.(ssthresh := THRESH_MIN);
        }
        cc := cc.(cwnd := 1, incr := mss);
      }
      if cc.cwnd < 1 {
        cc := cc.(cwnd := 1, incr := mss);
      }
    }

    /** Acknowledgements and probes: the first two parts of a flush. */
    method FlushControl() returns (out: seq<seq<byte>>, ptr: seq<byte>)
      requires AcksStored()
      modifies `probe, `ackcount, `acks
      ensures AcksStored() && acks == [] && probe == Probing(old(View())).(ask := false, tell := false)
      ensures Packed(AckPackets(old(View()), |old(acks)|) + ProbePackets(old(View())), out, ptr)
    {
      hide Packed, ProbePackets, AckPackets;
      ghost var cb := View();
      out, ptr := FlushAcks();
      RunProbeTimer();
      out, ptr := FlushProbes(cb, AckPackets(cb, |cb.acks|), out, ptr);
      ackcount := 0;
      acks := [];
      probe := probe.(ask := false, tell := false);
    }

    /** The third part: fill the window, then send what is due. */
    method FlushWindow(ghost cb: Cb, ghost ps: seq<Packet>, out: seq<seq<byte>>, ptr: seq<byte>)
      returns (out': seq<seq<byte>>, ptr': seq<byte>)
      requires TxCounted() && Packed(ps, out, ptr) && View() == cb.(probe := probe, acks := acks)
      modifies `tx, `link, `cc, `nsndQue, `nsndBuf
      ensures TxCounted()
      ensures var f := FlushBuf(cb, Filled(cb).buf);
              tx == Filled(cb).(buf := f.buf) && cc == AfterFlush(cfg, cb.cc, Filled(cb), f, SendWindow(cb))
              && link == Link(f.xmit, f.dead) && Packed(ps + f.sent, out', ptr')
    {
      hide Packed, FillWindow, FlushBuf, SegmentsFit, FlushOne;
      var cwnd := Min(cfg.sndWnd, cc.rmtWnd);
      if !cfg.nocwnd {
        cwnd := Min(cc.cwnd, cwnd);
      }
      var lost, change;
      MoveToBuf(cb, cwnd);
      out', ptr', lost, change := FlushData(cb, ps, out, ptr);
      FinishFlush(cwnd, lost, change);
    }

    method FlushUpdated() returns (out: seq<seq<byte>>)
      requires TxCounted() && AcksStored() && clock.updated
      modifies `tx, `cc, `probe, `link, `nsndQue, `nsndBuf, `ackcount, `acks
      ensures TxCounted() && AcksStored()
      ensures View() == KcpSpec.Flush(old(View())).0
      ensures SendableGroups(KcpSpec.Flush(old(View())).1)
      ensures out == EncodeGroups(cfg.conv, KcpSpec.Flush(old(View())).1)
    {
      hide Packed, PackAll, Filled, FlushBuf, AckPackets, ProbePackets, SendableGroups, EncodeGroups;
      ghost var cb := View();
      ghost var ps := AckPackets(cb, |cb.acks|) + ProbePackets(cb);
      var ptr;
      out, ptr := FlushControl();
      out, ptr := FlushWindow(cb, ps, out, ptr);
      out := Finish(ps + FlushBuf(cb, Filled(cb).buf).sent, out, ptr);
    }

    method Flush() returns (out: seq<seq<byte>>)
      requires Valid()
      modifies `tx, `cc, `probe, `link, `nsndQue, `nsndBuf, `ackcount, `acks
      ensures Valid()
      ensures View() == KcpSpec.Flush(old(View())).0
      ensures SendableGroups(KcpSpec.Flush(old(View())).1)
      ensures out == EncodeGroups(cfg.conv, KcpSpec.Flush(old(View())).1)
    {
      out := [];
      if clock.updated {
        out := FlushUpdated();
      }
    }

    // ---- ikcp_update, ikcp_check ----

    static lemma NoneSendable()
      ensures SendableGroups([])
    {}

    static lemma NoTimePassed(now: u32)
      ensures TimeDiff(now, now) == 0
    {}

    method Update(now: u32) returns (out: seq<seq<byte>>)
      requires Valid()
      modifies `clock, `tx, `cc, `probe, `link, `nsndQue, `nsndBuf, `ackcount, `acks
      ensures Valid()
      ensures View() == KcpSpec.Update(old(View()), now).0
      ensures SendableGroups(KcpSpec.Update(old(View()), now).1)
      ensures out == EncodeGroups(cfg.conv, KcpSpec.Update(old(View()), now).1)
    {
      hide KcpSpec.Flush, TimeDiff, Wrap, TxCounted, RxCounted, AcksStored, SendableGroups;
      ghost var was := clock;
      NoneSendable();
      NoTimePassed(now);
      clock := clock.(current := now);
      if !clock.updated {
        clock := clock.(updated := true, tsFlush := now);
      }
      var slap := TimeDiff(now, clock.tsFlush);
      if slap >= 10000 || slap < -10000 {
        clock := clock.(tsFlush := now);
        slap := 0;
      }
      out := [];
      if slap >= 0 {
        clock := clock.(tsFlush := Wrap(clock.tsFlush + cfg.interval));
        if TimeDiff(now, clock.tsFlush) >= 0 {
          clock := clock.(tsFlush := Wrap(now + cfg.interval));
        }
        assert (clock, true) == Tick(cfg.interval, was, now);
        out := Flush();
      }
    }

    method Check(now: u32) returns (next: u32)
      ensures next == KcpSpec.Check(View(), now)
    {
      var tsFlush := clock.tsFlush;
      if !clock.updated {
        return now;
      }
      if TimeDiff(now, tsFlush) >= 10000 || TimeDiff(now, tsFlush) < -10000 {
        tsFlush := now;
      }
      if TimeDiff(now, tsFlush) >= 0 {
        return now;
      }
      var tmFlush, tmPacket, p := TimeDiff(tsFlush, now), 0x7fff_ffff, 0;
      while p < |tx.buf|
        invariant 0 <= p <= |tx.buf| && tmPacket > 0
        invariant NextResend(tx.buf, now, 0x7fff_ffff) == NextResend(tx.buf[p..], now, tmPacket)
      {
        var diff := TimeDiff(tx.buf[p].resendts, now);
        if diff <= 0 {
          return now;
        }
        if diff < tmPacket {
          tmPacket := diff;
        }
        p := p + 1;
      }
      var minimal := if tmPacket < tmFlush then tmPacket else tmFlush;
      if minimal >= cfg.interval {
        minimal := cfg.interval;
      }
      return Wrap(now + minimal);
    }
  }
}
