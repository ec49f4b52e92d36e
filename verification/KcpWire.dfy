/** The wire format of KCP: the 24-byte header, packets with their payload,
    the decode loop over a datagram, and the packing of packets into
    datagrams of at most `mtu` bytes. */
module KcpWire {
  import opened Seqs
  import opened Words

  const CMD_PUSH: byte := 81
  const CMD_ACK: byte := 82
  const CMD_WASK: byte := 83
  const CMD_WINS: byte := 84
  const OVERHEAD: nat := 24

  datatype Packet = Packet(cmd: byte, frg: byte, wnd: u16, ts: u32, sn: u32, una: u32, data: seq<byte>)

  // ---- little-endian integers ----

  function Encode16(w: u16): (s: seq<byte>)
    ensures |s| == 2
  {
    [w % 0x100, w / 0x100]
  }

  function Decode16(s: seq<byte>): u16
    requires |s| == 2
  {
    s[0] as int + 0x100 * s[1] as int
  }

  function Encode32(w: u32): (s: seq<byte>)
    ensures |s| == 4
  {
    Encode16(w % 0x1_0000) + Encode16(w / 0x1_0000)
  }

  function Decode32(s: seq<byte>): u32
    requires |s| == 4
  {
    Decode16(s[..2]) + 0x1_0000 * Decode16(s[2..])
  }

  lemma Decode32Encode32(w: u32)
    ensures Decode32(Encode32(w)) == w
  {
    assert Encode32(w)[..2] == Encode16(w % 0x1_0000);
    assert Encode32(w)[2..] == Encode16(w / 0x1_0000);
  }

  // ---- one packet ----

  function EncodeHeader(conv: u32, p: Packet): (s: seq<byte>)
    requires |p.data| < 0x1_0000_0000
    ensures |s| == OVERHEAD
  {
    Encode32(conv) + [p.cmd, p.frg] + Encode16(p.wnd) + Encode32(p.ts)
    + Encode32(p.sn) + Encode32(p.una) + Encode32(|p.data|)
  }

  function EncodePacket(conv: u32, p: Packet): (s: seq<byte>)
    requires |p.data| < 0x1_0000_0000
    ensures |s| == OVERHEAD + |p.data|
  {
    EncodeHeader(conv, p) + p.data
  }

  function HeaderConv(b: seq<byte>): u32
    requires |b| >= OVERHEAD
  {
    Decode32(b[..4])
  }

  function HeaderLen(b: seq<byte>): u32
    requires |b| >= OVERHEAD
  {
    Decode32(b[20..24])
  }

  /** The packet whose header starts at `b` and whose payload has `len` bytes. */
  function DecodePacket(b: seq<byte>, len: nat): Packet
    requires |b| >= OVERHEAD + len
  {
    Packet(b[4], b[5], Decode16(b[6..8]), Decode32(b[8..12]), Decode32(b[12..16]), Decode32(b[16..20]),
           b[OVERHEAD..OVERHEAD + len])
  }

  lemma DecodeEncodePacket(conv: u32, p: Packet, rest: seq<byte>)
    requires |p.data| < 0x1_0000_0000
    ensures var b := EncodePacket(conv, p) + rest;
            HeaderConv(b) == conv && HeaderLen(b) == |p.data| && DecodePacket(b, |p.data|) == p
            && b[OVERHEAD + |p.data|..] == rest
  {
    var b := EncodePacket(conv, p) + rest;
    assert b[..4] == Encode32(conv);
    assert b[6..8] == Encode16(p.wnd);
    assert b[8..12] == Encode32(p.ts);
    assert b[12..16] == Encode32(p.sn);
    assert b[16..20] == Encode32(p.una);
    assert b[20..24] == Encode32(|p.data|);
    assert b[OVERHEAD..OVERHEAD + |p.data|] == p.data;
    Decode32Encode32(conv);
    Decode32Encode32(p.ts);
    Decode32Encode32(p.sn);
    Decode32Encode32(p.una);
    Decode32Encode32(|p.data|);
  }

  /** Four bytes as a number, least significant first. */
  function Le32(b: seq<byte>, i: nat): nat
    requires i + 4 <= |b|
  {
    b[i] + 0x100 * b[i + 1] as int + 0x1_0000 * b[i + 2] as int + 0x100_0000 * b[i + 3] as int
  }

  lemma Bytes32(w: u32)
    ensures Le32(Encode32(w), 0) == w
  {
    assert w % 0x1_0000 % 0x100 + 0x100 * (w % 0x1_0000 / 0x100) == w % 0x1_0000;
    assert w / 0x1_0000 % 0x100 + 0x100 * (w / 0x1_0000 / 0x100) == w / 0x1_0000;
  }

  lemma LeAt(b: seq<byte>, i: nat, w: u32)
    requires i + 4 <= |b| && b[i..i + 4] == Encode32(w)
    ensures Le32(b, i) == w
  {
    hide Encode32;
    Bytes32(w);
    var s := b[i..i + 4];
    assert s[0] == b[i] && s[1] == b[i + 1] && s[2] == b[i + 2] && s[3] == b[i + 3];
  }

  lemma HeaderReads(b: seq<byte>)
    requires |b| >= OVERHEAD
    ensures HeaderConv(b) == Le32(b, 0) && HeaderLen(b) == Le32(b, 20)
  {}

  /** Where each field of a packet stands on the wire. */
  lemma Layout(conv: u32, p: Packet)
    requires |p.data| < 0x1_0000_0000
    ensures var b := EncodePacket(conv, p);
            Le32(b, 0) == conv && b[4] == p.cmd && b[5] == p.frg && b[6] + 0x100 * b[7] as int == p.wnd
            && Le32(b, 8) == p.ts && Le32(b, 12) == p.sn && Le32(b, 16) == p.una && Le32(b, 20) == |p.data|
            && b[24..] == p.data
  {
    hide Encode32, Le32;
    var b := EncodePacket(conv, p);
    assert b[0..4] == Encode32(conv) && b[8..12] == Encode32(p.ts) && b[12..16] == Encode32(p.sn);
    assert b[16..20] == Encode32(p.una) && b[20..24] == Encode32(|p.data|);
    LeAt(b, 0, conv);
    LeAt(b, 8, p.ts);
    LeAt(b, 12, p.sn);
    LeAt(b, 16, p.una);
    LeAt(b, 20, |p.data|);
  }

  // ---- a datagram ----

  predicate KnownCmd(cmd: byte) {
    cmd == CMD_PUSH || cmd == CMD_ACK || cmd == CMD_WASK || cmd == CMD_WINS
  }

  datatype Decoded = Decoded(packets: seq<Packet>, ret: int)

  datatype Next = Stop(ret: int) | Got(packet: Packet, rest: seq<byte>)

  /** The header at the front of a datagram, checked in the order of the source:
      conversation, length, command. */
  function DecodeNext(conv: u32, b: seq<byte>): (n: Next)
    requires |b| >= OVERHEAD
    ensures n.Got? ==> |n.rest| < |b|
    ensures n.Stop? ==> n.ret < 0
  {
    if HeaderConv(b) != conv then Stop(-1)
    else
      var len := HeaderLen(b);
      if |b| - OVERHEAD < len || len >= 0x8000_0000 then Stop(-2)
      else if !KnownCmd(b[4]) then Stop(-3)
      else Got(DecodePacket(b, len), b[OVERHEAD + len..])
  }

  /** What the decode loop of ikcp_input reads from a datagram: the packets it
      processes, then 0 or the error it stops with. */
  function DecodeAll(conv: u32, b: seq<byte>): (d: Decoded)
    decreases |b|
  {
    if |b| < OVERHEAD then Decoded([], 0)
    else match DecodeNext(conv, b)
      case Stop(ret) => Decoded([], ret)
      case Got(p, rest) => Decoded([p] + DecodeAll(conv, rest).packets, DecodeAll(conv, rest).ret)
  }

  /** Packets a sender may put on the wire. */
  predicate SendableOne(p: Packet) {
    KnownCmd(p.cmd) && |p.data| < 0x8000_0000
  }

  predicate Sendable(ps: seq<Packet>) {
    forall i :: 0 <= i < |ps| ==> SendableOne(ps[i])
  }

  function EncodeAll(conv: u32, ps: seq<Packet>): (s: seq<byte>)
    requires Sendable(ps)
  {
    if ps == [] then [] else EncodePacket(conv, ps[0]) + EncodeAll(conv, ps[1..])
  }

  lemma DecodeStep(conv: u32, p: Packet, tail: seq<byte>)
    requires SendableOne(p)
    ensures DecodeAll(conv, EncodePacket(conv, p) + tail)
         == Decoded([p] + DecodeAll(conv, tail).packets, DecodeAll(conv, tail).ret)
  {
    DecodeEncodePacket(conv, p, tail);
    assert (EncodePacket(conv, p) + tail)[4] == p.cmd;
  }

  /** Decoding what was encoded gives back every packet, in order, and no error. */
  lemma {:induction false} DecodeEncodeAll(conv: u32, ps: seq<Packet>)
    requires Sendable(ps)
    ensures DecodeAll(conv, EncodeAll(conv, ps)) == Decoded(ps, 0)
  {
    if ps != [] {
      DecodeEncodeAll(conv, ps[1..]);
      DecodeStep(conv, ps[0], EncodeAll(conv, ps[1..]));
    }
  }

  /** What ikcp_input returns for the bytes after the last good packet: they are ignored
      when too few for a header, and otherwise refused for their conversation, their
      length or their command, in that order; 1 stands for a good packet. */
  function Refusal(conv: u32, rest: seq<byte>): int {
    if |rest| < 24 then 0
    else if Le32(rest, 0) != conv as int then -1
    else if Le32(rest, 20) > |rest| - 24 || Le32(rest, 20) >= 0x8000_0000 then -2
    else if !(81 <= rest[4] <= 84) then -3
    else 1
  }

  lemma RefusalStops(conv: u32, rest: seq<byte>)
    requires Refusal(conv, rest) <= 0
    ensures DecodeAll(conv, rest) == Decoded([], Refusal(conv, rest))
  {
    hide Le32, HeaderConv, HeaderLen, DecodePacket;
    if |rest| >= 24 {
      HeaderReads(rest);
    }
  }

  /** The packets before an error are taken in all the same. */
  lemma {:induction false} DecodeStops(conv: u32, ps: seq<Packet>, rest: seq<byte>)
    requires Sendable(ps) && Refusal(conv, rest) <= 0
    ensures DecodeAll(conv, EncodeAll(conv, ps) + rest) == Decoded(ps, Refusal(conv, rest))
  {
    hide Refusal, DecodeAll, EncodePacket;
    if ps == [] {
      RefusalStops(conv, rest);
      assert [] + rest == rest;
    } else {
      DecodeStops(conv, ps[1..], rest);
      Assoc(EncodePacket(conv, ps[0]), EncodeAll(conv, ps[1..]), rest);
      DecodeStep(conv, ps[0], EncodeAll(conv, ps[1..]) + rest);
    }
  }

  lemma {:induction false} EncodeAllSnoc(conv: u32, ps: seq<Packet>, p: Packet)
    requires Sendable(ps) && SendableOne(p)
    ensures Sendable(ps + [p])
    ensures EncodeAll(conv, ps + [p]) == EncodeAll(conv, ps) + EncodePacket(conv, p)
  {
    hide EncodePacket;
    if ps == [] {
      assert [p][0] == p && [p][1..] == [] && ps + [p] == [p];
      assert EncodePacket(conv, p) + [] == EncodePacket(conv, p) == [] + EncodePacket(conv, p);
    } else {
      EncodeAllSnoc(conv, ps[1..], p);
      assert (ps + [p])[1..] == ps[1..] + [p];
      Assoc(EncodePacket(conv, ps[0]), EncodeAll(conv, ps[1..]), EncodePacket(conv, p));
    }
  }

  // ---- packing packets into datagrams ----

  /** Datagrams already handed to the output callback, and the packets now in
      the scratch buffer. */
  datatype Packer = Packer(out: seq<seq<Packet>>, buf: seq<Packet>)

  function Size(ps: seq<Packet>): nat {
    if ps == [] then 0 else Size(ps[..|ps| - 1]) + OVERHEAD + |ps[|ps| - 1].data|
  }

  /** ikcp_output drops the call when the buffer is empty. */
  function Output(pk: Packer): Packer {
    if pk.buf == [] then pk else Packer(pk.out + [pk.buf], [])
  }

  function PackOne(mtu: nat, pk: Packer, p: Packet): Packer {
    var pk' := if Size(pk.buf) + OVERHEAD + |p.data| > mtu then Output(pk) else pk;
    pk'.(buf := pk'.buf + [p])
  }

  function PackMany(mtu: nat, pk: Packer, ps: seq<Packet>): Packer {
    if ps == [] then pk else PackOne(mtu, PackMany(mtu, pk, ps[..|ps| - 1]), ps[|ps| - 1])
  }

  lemma PackSnoc(mtu: nat, pk: Packer, ps: seq<Packet>, p: Packet)
    ensures PackMany(mtu, pk, ps + [p]) == PackOne(mtu, PackMany(mtu, pk, ps), p)
  {
    assert (ps + [p])[..|ps|] == ps;
  }

  /** Packing may stop and go on. */
  lemma {:induction false} PackAppend(mtu: nat, pk: Packer, ps: seq<Packet>, qs: seq<Packet>)
    ensures PackMany(mtu, PackMany(mtu, pk, ps), qs) == PackMany(mtu, pk, ps + qs)
  {
    hide PackOne;
    if qs == [] {
      assert ps + qs == ps;
    } else {
      var init, q := qs[..|qs| - 1], qs[|qs| - 1];
      PackAppend(mtu, pk, ps, init);
      PackSnoc(mtu, pk, ps + init, q);
      assert ps + qs == (ps + init) + [q];
    }
  }

  function PackAll(mtu: nat, ps: seq<Packet>): seq<seq<Packet>> {
    Output(PackMany(mtu, Packer([], []), ps)).out
  }

  /** Every packet fits into a datagram of its own. */
  predicate Fits(mtu: nat, ps: seq<Packet>) {
    forall i :: 0 <= i < |ps| ==> OVERHEAD + |ps[i].data| <= mtu
  }

  predicate GoodDatagrams(mtu: nat, gs: seq<seq<Packet>>) {
    forall i :: 0 <= i < |gs| ==> gs[i] != [] && Size(gs[i]) <= mtu
  }

  /** The packer holds exactly `ps`, in order, in datagrams that fit. */
  predicate Holds(mtu: nat, pk: Packer, ps: seq<Packet>) {
    Flatten(pk.out) + pk.buf == ps && Size(pk.buf) <= mtu && GoodDatagrams(mtu, pk.out)
  }

  lemma PackOneHolds(mtu: nat, pk: Packer, ps: seq<Packet>, p: Packet)
    requires OVERHEAD + |p.data| <= mtu && Holds(mtu, pk, ps)
    ensures Holds(mtu, PackOne(mtu, pk, p), ps + [p])
  {
    hide Size, Flatten;
    FlattenSnoc(pk.out, pk.buf);
    SizeSnoc(pk.buf, p);
    SizeSnoc([], p);
    NoSize();
    Assoc(Flatten(pk.out), pk.buf, [p]);
  }

  lemma SizeSnoc(ps: seq<Packet>, p: Packet)
    ensures Size(ps + [p]) == Size(ps) + OVERHEAD + |p.data|
  {
    assert (ps + [p])[..|ps|] == ps;
  }

  lemma NoSize()
    ensures Size([]) == 0
  {}

  /** Packing loses, reorders and duplicates nothing. */
  lemma {:induction false} PackManyHolds(mtu: nat, ps: seq<Packet>)
    requires Fits(mtu, ps)
    ensures Holds(mtu, PackMany(mtu, Packer([], []), ps), ps)
  {
    hide PackOne, Size;
    if ps == [] {
      NoSize();
    } else {
      var init, p := ps[..|ps| - 1], ps[|ps| - 1];
      PackManyHolds(mtu, init);
      PackOneHolds(mtu, PackMany(mtu, Packer([], []), init), init, p);
      assert ps == init + [p];
    }
  }

  lemma PackAllHolds(mtu: nat, ps: seq<Packet>)
    requires Fits(mtu, ps)
    ensures Flatten(PackAll(mtu, ps)) == ps
    ensures GoodDatagrams(mtu, PackAll(mtu, ps))
  {
    PackManyHolds(mtu, ps);
    var pk := PackMany(mtu, Packer([], []), ps);
    FlattenSnoc(pk.out, pk.buf);
    assert pk.buf == [] ==> Flatten(pk.out) + pk.buf == Flatten(pk.out);
  }

  /** The first packet of `next` would have been too much for `g`. */
  predicate Full(mtu: nat, g: seq<Packet>, next: seq<Packet>) {
    next != [] && Size(g) + OVERHEAD + |next[0].data| > mtu
  }

  predicate Tight(mtu: nat, gs: seq<seq<Packet>>) {
    forall i, j :: 0 <= i && j == i + 1 < |gs| ==> Full(mtu, gs[i], gs[j])
  }

  /** The packets in the scratch buffer count as one more datagram. */
  predicate TightSoFar(mtu: nat, pk: Packer) {
    if pk.buf == [] then pk.out == [] else Tight(mtu, pk.out + [pk.buf])
  }

  lemma PackOneTight(mtu: nat, pk: Packer, p: Packet)
    requires TightSoFar(mtu, pk)
    ensures TightSoFar(mtu, PackOne(mtu, pk, p))
  {
    hide Size;
    var pk' := PackOne(mtu, pk, p);
    if pk.buf != [] && pk'.out == pk.out {
      var n, gs := |pk.out|, pk.out + [pk.buf];
      assert forall i :: 0 <= i < n ==> gs[i] == pk.out[i] == (pk'.out + [pk'.buf])[i];
      assert gs[n] == pk.buf && (pk'.out + [pk'.buf])[n] == pk'.buf;
    }
  }

  /** Packing is greedy: a datagram ends only where the next packet does not fit it. */
  lemma {:induction false} PackTight(mtu: nat, ps: seq<Packet>)
    ensures TightSoFar(mtu, PackMany(mtu, Packer([], []), ps)) && Tight(mtu, PackAll(mtu, ps))
  {
    hide PackOne, Full;
    if ps != [] {
      PackTight(mtu, ps[..|ps| - 1]);
      PackOneTight(mtu, PackMany(mtu, Packer([], []), ps[..|ps| - 1]), ps[|ps| - 1]);
    }
  }

  lemma {:induction false} EncodeAllSize(conv: u32, ps: seq<Packet>)
    requires Sendable(ps)
    ensures |EncodeAll(conv, ps)| == Size(ps)
  {
    hide EncodePacket, SendableOne;
    if ps != [] {
      var init, p := ps[..|ps| - 1], ps[|ps| - 1];
      EncodeAllSize(conv, init);
      EncodeAllSnoc(conv, init, p);
      assert ps == init + [p];
    }
  }

  predicate SendableGroups(gs: seq<seq<Packet>>) {
    forall i :: 0 <= i < |gs| ==> Sendable(gs[i])
  }

  /** The bytes of every datagram. */
  function EncodeGroups(conv: u32, gs: seq<seq<Packet>>): (r: seq<seq<byte>>)
    requires SendableGroups(gs)
    ensures |r| == |gs|
  {
    if gs == [] then [] else EncodeGroups(conv, gs[..|gs| - 1]) + [EncodeAll(conv, gs[|gs| - 1])]
  }
}
