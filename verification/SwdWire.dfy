/** One SWD transaction clock by clock, in two implementations: the GPIO loops of
    SW_DP.c and the SPI peripheral of spi_op.c (ESP32). Chapter B4 of ARM IHI 0031
    (ADIv5.2) gives the transaction. */
module SwdWire {
  import opened Seqs
  import opened Bits
  import opened Parity

  const ACK_OK: nat := 1
  const ACK_WAIT: nat := 2
  const ACK_FAULT: nat := 4
  const ACK_ERROR: nat := 8

  /** What the host does with SWDIO during one clock. */
  datatype Slot = Drive(bit: bool) | Release

  function Driven(bits: seq<bool>): (s: seq<Slot>)
    ensures |s| == |bits| && forall i :: 0 <= i < |bits| ==> s[i] == Drive(bits[i])
  {
    seq(|bits|, i requires 0 <= i < |bits| => Drive(bits[i]))
  }

  function Released(n: nat): (s: seq<Slot>)
    ensures |s| == n && forall i :: 0 <= i < n ==> s[i] == Release
  {
    seq(n, _ => Release)
  }

  /** The level of SWDIO in `n` clocks from clock `from` on, as the target drives it. */
  function Sampled(line: nat -> bool, from: nat, n: nat): (s: seq<bool>)
    ensures |s| == n && forall i :: 0 <= i < n ==> s[i] == line(from + i)
  {
    seq(n, i requires 0 <= i => line(from + i))
  }

  predicate BitOf(v: nat, k: nat) {
    if k == 0 then v % 2 == 1 else BitOf(v / 2, k - 1)
  }

  predicate IsRead(request: nat) {
    BitOf(request, 1)
  }

  function AckOf(bits: seq<bool>): nat
    requires |bits| >= 3
  {
    (if bits[0] then 1 else 0) + (if bits[1] then 2 else 0) + (if bits[2] then 4 else 0)
  }

  // ---- the transaction itself ----

  /** The settings a transaction depends on. */
  datatype Conf = Conf(turnaround: nat, dataPhase: bool, idleCycles: nat)

  /** Start, APnDP, RnW, A2, A3, their parity, stop, park. */
  function Header(request: nat): (h: seq<bool>)
    ensures |h| == 8
  {
    [true, BitOf(request, 0), BitOf(request, 1), BitOf(request, 2), BitOf(request, 3), Odd(request % 16), false, true]
  }

  /** What follows an OK: the data, the turnaround on one side of it, the idle cycles. */
  function DataClocks(conf: Conf, read: bool, wdata: Bits32): seq<Slot> {
    (if read then Released(33 + conf.turnaround)
     else Released(conf.turnaround) + Driven(wdata + [XorAll(wdata)]))
    + Driven(Repeat(false, conf.idleCycles))
  }

  /** What follows a WAIT or FAULT. */
  function RefusedClocks(conf: Conf, read: bool): seq<Slot> {
    Released((if conf.dataPhase && read then 33 else 0) + conf.turnaround)
    + Driven(Repeat(false, if conf.dataPhase && !read then 33 else 0))
  }

  /** The clocks of a transaction that is answered `ack`, from the header on. */
  function Clocks(conf: Conf, request: nat, wdata: Bits32, ack: nat): seq<Slot> {
    Driven(Header(request)) + Released(conf.turnaround + 3)
    + if ack == ACK_OK then DataClocks(conf, IsRead(request), wdata)
      else if ack == ACK_WAIT || ack == ACK_FAULT then RefusedClocks(conf, IsRead(request))
      else Released(conf.turnaround + 33)
  }

  /** The acknowledgement of a transaction started at clock `t`. */
  function AckAt(conf: Conf, line: nat -> bool, t: nat): nat {
    AckOf(Sampled(line, t + 8 + conf.turnaround, 3))
  }

  /** The fourteen words of the buffer that no transfer writes. */
  type OtherWords = s: seq<bool> | |s| == 448 witness seq(448, _ => false)

  datatype Outcome = Outcome(ack: nat, rdata: Bits32)

  /** The word read at clock `t` and whether its parity is right. */
  function ReadOutcome(line: nat -> bool, t: nat): Outcome {
    var data := Sampled(line, t, 32);
    Outcome(if XorAll(data) != line(t + 32) then ACK_ERROR else ACK_OK, data)
  }

  /** The result of a transaction started at clock `t`. */
  function Result(conf: Conf, request: nat, wdata: Bits32, line: nat -> bool, t: nat): Outcome {
    if AckAt(conf, line, t) == ACK_OK && IsRead(request) then ReadOutcome(line, t + 11 + conf.turnaround)
    else Outcome(AckAt(conf, line, t), wdata)
  }

  /** `low`, `high` and `rest` are the sixteen words of the peripheral's data buffer. */
  class Port {
    const line: nat -> bool
    const conf: Conf
    var trace: seq<Slot>
    var output: bool
    var level: bool
    var low: Bits32
    var high: Bits32
    var rest: OtherWords

    constructor (line: nat -> bool, conf: Conf, low: Bits32, high: Bits32, rest: OtherWords)
      ensures this.line == line && this.conf == conf && trace == [] && output && level
      ensures this.low == low && this.high == high && this.rest == rest
    {
      this.line, this.conf, trace, output, level := line, conf, [], true, true;
      this.low, this.high, this.rest := low, high, rest;
    }

    // ---- GPIO ----

    method ClockCycle()
      modifies `trace
      ensures trace == old(trace) + [if output then Drive(level) else Release]
    {
      trace := trace + [if output then Drive(level) else Release];
    }

    method WriteBit(bit: bool)
      requires output
      modifies `trace, `level
      ensures trace == old(trace) + [Drive(bit)]
    {
      level := bit;
      ClockCycle();
    }

    method ReadBit() returns (bit: bool)
      requires !output
      modifies `trace
      ensures bit == line(|old(trace)|) && trace == old(trace) + [Release]
    {
      bit := line(|trace|);
      ClockCycle();
    }

    /** `n` clocks nobody looks at, the host not driving. */
    method Skip(n: nat)
      requires !output
      modifies `trace
      ensures trace == old(trace) + Released(n)
    {
      var i: nat := n;
      while i > 0
        invariant i <= n && trace == old(trace) + Released(n - i)
      {
        ClockCycle();
        i := i - 1;
      }
    }

    /** One more driven bit of the stretch that began at `start`. */
    method PutBit(bit: bool, ghost start: seq<Slot>, ghost sent: seq<bool>)
      requires output && trace == start + Driven(sent)
      modifies `trace, `level
      ensures trace == start + Driven(sent + [bit])
    {
      WriteBit(bit);
      assert Driven(sent + [bit]) == Driven(sent) + [Drive(bit)];
    }

    /** The packet request; the parity is the low bit of a sum of shifted requests. */
    method WriteHeader(request: nat)
      requires output
      modifies `trace, `level
      ensures trace == old(trace) + Driven(Header(request))
    {
      hide Driven, Header;
      ghost var start, h := trace, Header(request);
      var parity, bit := 0, request;
      HeaderBits(request);
      Prefixes(h);
      assert Driven([]) == [] && start + [] == start;
      PutBit(true, start, []);
      PutBit(bit % 2 == 1, start, h[..1]);
      parity, bit := parity + bit, bit / 2;
      PutBit(bit % 2 == 1, start, h[..2]);
      parity, bit := parity + bit, bit / 2;
      PutBit(bit % 2 == 1, start, h[..3]);
      parity, bit := parity + bit, bit / 2;
      PutBit(bit % 2 == 1, start, h[..4]);
      parity := parity + bit;
      PutBit(parity % 2 == 1, start, h[..5]);
      PutBit(false, start, h[..6]);
      PutBit(true, start, h[..7]);
    }

    /** One more data bit at the top, the others moved down. */
    method ReadInto(val: Bits32, ghost t: nat, ghost n: nat) returns (val': Bits32, bit: bool)
      requires !output && n < 32 && |trace| == t + n && val == Repeat(false, 32 - n) + Sampled(line, t, n)
      modifies `trace
      ensures trace == old(trace) + [Release] && bit == line(t + n)
      ensures val' == Repeat(false, 31 - n) + Sampled(line, t, n + 1)
      ensures XorAll(Sampled(line, t, n + 1)) == Xor(XorAll(Sampled(line, t, n)), bit)
    {
      hide Sampled, Repeat, XorAll, ShiftRight;
      bit := ReadBit();
      SampledNext(line, t, n);
      ShiftedInto(n, Sampled(line, t, n), bit);
      val' := ShiftRight(val)[31 := bit];
    }

    /** 32 data bits, counting the ones. */
    method ReadWord() returns (val: Bits32, parity: nat)
      requires !output
      modifies `trace
      ensures val == Sampled(line, |old(trace)|, 32) && trace == old(trace) + Released(32)
      ensures (parity % 2 == 1) == XorAll(val)
    {
      hide Sampled, Repeat, XorAll, ShiftRight;
      ghost var t := |trace|;
      val, parity := Repeat(false, 32), 0;
      var n := 0;
      NothingRead(Sampled(line, t, 0));
      while n < 32
        invariant n <= 32 && trace == old(trace) + Released(n)
        invariant val == Repeat(false, 32 - n) + Sampled(line, t, n)
        invariant (parity % 2 == 1) == XorAll(Sampled(line, t, n))
      {
        var bit;
        val, bit := ReadInto(val, t, n);
        parity := parity + if bit then 1 else 0;
        n := n + 1;
      }
    }

    /** 32 data bits and their parity. */
    method WriteWord(val: Bits32)
      requires output
      modifies `trace, `level
      ensures trace == old(trace) + Driven(val + [XorAll(val)])
    {
      hide Driven, Shifted, ShiftRight, XorAll;
      ghost var start := trace;
      var w, parity, n := val, 0, 0;
      NothingShifted(val);
      NothingRead(val[..0]);
      while n < 32
        invariant n <= 32 && w == Shifted(val, n)
        invariant trace == start + Driven(val[..n]) && (parity % 2 == 1) == XorAll(val[..n])
      {
        PutBit(w[0], start, val[..n]);
        XorNext(val, n);
        parity := parity + if w[0] then 1 else 0;
        ShiftedOnce(val, n);
        w := ShiftRight(w);
        n := n + 1;
      }
      assert val[..32] == val;
      PutBit(parity % 2 == 1, start, val);
    }

    method ReadAck() returns (ack: nat)
      requires !output
      modifies `trace
      ensures ack == AckOf(Sampled(line, |old(trace)|, 3)) && trace == old(trace) + Released(3)
    {
      var bit := ReadBit();
      ack := if bit then 1 else 0;
      bit := ReadBit();
      ack := ack + if bit then 2 else 0;
      bit := ReadBit();
      ack := ack + if bit then 4 else 0;
    }

    /** `n` clocks with SWDIO held low. */
    method Idle(n: nat)
      requires output
      modifies `trace, `level
      ensures trace == old(trace) + Driven(Repeat(false, n))
    {
      level := false;
      var i: nat := n;
      while i > 0
        invariant i <= n && !level && trace == old(trace) + Driven(Repeat(false, n - i))
      {
        assert Repeat(false, n - i + 1) == Repeat(false, n - i) + [false];
        ClockCycle();
        i := i - 1;
      }
    }

    /** The data phase after an OK. */
    method DataPhase(read: bool, wdata: Bits32) returns (ack: nat, rdata: Bits32)
      requires !output
      modifies `trace, `level, `output
      ensures output && trace == old(trace) + DataClocks(conf, read, wdata)
      ensures Outcome(ack, rdata) == if read then ReadOutcome(line, |old(trace)|) else Outcome(ACK_OK, wdata)
    {
      hide Driven, Sampled, Repeat, XorAll;
      ghost var start := trace;
      ack, rdata := ACK_OK, wdata;
      if read {
        var parity;
        rdata, parity := ReadWord();
        var bit := ReadBit();
        if (parity % 2 == 1) != bit {
          ack := ACK_ERROR;
        }
        Skip(conf.turnaround);
        assert trace == start + Released(33 + conf.turnaround);
        output := true;
      } else {
        Skip(conf.turnaround);
        output := true;
        WriteWord(wdata);
        Assoc(start, Released(conf.turnaround), Driven(wdata + [XorAll(wdata)]));
      }
      ghost var data := trace[|start|..];
      assert trace == start + data;
      Idle(conf.idleCycles);
      Assoc(start, data, Driven(Repeat(false, conf.idleCycles)));
      level := true;
    }

    /** The rest of a transaction answered WAIT or FAULT. */
    method Refused(read: bool)
      requires !output
      modifies `trace, `level, `output
      ensures output && trace == old(trace) + RefusedClocks(conf, read)
    {
      hide Driven, Repeat;
      ghost var start := trace;
      if conf.dataPhase && read {
        Skip(33);
      }
      Skip(conf.turnaround);
      ghost var quiet := Released((if conf.dataPhase && read then 33 else 0) + conf.turnaround);
      assert trace == start + quiet;
      output := true;
      Idle(if conf.dataPhase && !read then 33 else 0);
      Assoc(start, quiet, Driven(Repeat(false, if conf.dataPhase && !read then 33 else 0)));
      level := true;
    }

    /** SWD_Transfer_GPIO. */
    method TransferGpio(request: nat, wdata: Bits32) returns (ack: nat, rdata: Bits32)
      requires output
      modifies `trace, `level, `output
      ensures output
      ensures trace == old(trace) + Clocks(conf, request, wdata, AckAt(conf, line, |old(trace)|))
      ensures Outcome(ack, rdata) == Result(conf, request, wdata, line, |old(trace)|)
    {
      hide Driven, Sampled, AckOf, Header, DataClocks, RefusedClocks, ReadOutcome, IsRead;
      ghost var start := trace;
      rdata := wdata;
      WriteHeader(request);
      output := false;
      Skip(conf.turnaround);
      ack := ReadAck();
      ghost var opening := Driven(Header(request)) + Released(conf.turnaround + 3);
      assert trace == start + opening;
      assert |trace| == |start| + 11 + conf.turnaround;
      if ack == ACK_OK {
        ack, rdata := DataPhase(IsRead(request), wdata);
        Assoc(start, opening, DataClocks(conf, IsRead(request), wdata));
      } else if ack == ACK_WAIT || ack == ACK_FAULT {
        Refused(IsRead(request));
        Assoc(start, opening, RefusedClocks(conf, IsRead(request)));
      } else {
        Skip(conf.turnaround + 33);
        output, level := true, true;
        Assoc(start, opening, Released(conf.turnaround + 33));
      }
    }

    // ---- SPI ----

    /** One run of the peripheral: the first `mosi` bits of the buffer out, then `miso`
        clocks into it. */
    method Start(mosi: nat, miso: nat)
      requires output && mosi <= 512 && miso <= 64
      modifies `trace, `low, `high
      ensures trace == old(trace) + Driven((old(low) + old(high) + rest)[..mosi]) + Released(miso)
      ensures (low + high)[..miso] == Sampled(line, |old(trace)| + mosi, miso)
      ensures miso == 0 ==> low == old(low) && high == old(high)
    {
      var received := Sampled(line, |trace| + mosi, miso) + (low + high)[miso..];
      trace := trace + Driven((low + high + rest)[..mosi]) + Released(miso);
      low, high := received[..32], received[32..];
      assert low + high == received;
    }

    /** DAP_SPI_Send_Header: the turnaround and the acknowledgement in the same run. */
    method SendHeader(header: seq<bool>, after: nat) returns (ack: nat)
      requires output && |header| == 8 && after <= 1
      modifies `trace, `low, `high
      ensures trace == old(trace) + Driven(header) + Released(4 + after)
      ensures ack == AckOf(Sampled(line, |old(trace)| + 9, 3))
    {
      low := header + Repeat(false, 24);
      FirstBits(header, Repeat(false, 24), high + rest);
      Assoc(low, high, rest);
      Start(8, 1 + 3 + after);
      ack := AckOf(low[1..4]);
      assert low[1..4] == (low + high)[..4 + after][1..4] == Sampled(line, |old(trace)| + 9, 3);
    }

    /** DAP_SPI_Read_Data: data, parity, and the turnaround at the end. */
    method ReadData() returns (data: Bits32, parity: bool)
      requires output
      modifies `trace, `low, `high
      ensures trace == old(trace) + Released(34)
      ensures data == Sampled(line, |old(trace)|, 32) && parity == line(|old(trace)| + 32)
    {
      Start(0, 1 + 32 + 1);
      data, parity := low, high[0];
      assert data == (low + high)[..34][..32] && parity == (low + high)[..34][32];
    }

    /** DAP_SPI_Write_Data. */
    method WriteData(data: Bits32, parity: bool)
      requires output
      modifies `trace, `low, `high
      ensures trace == old(trace) + Driven(data + [parity])
      ensures high == [parity] + Repeat(false, 31)
    {
      low, high := data, [parity] + Repeat(false, 31);
      assert (low + high + rest)[..33] == data + [parity];
      Start(32 + 1, 0);
    }

    /** DAP_SPI_Generate_Cycle: only the first word of the buffer is cleared. */
    method GenerateCycle(n: nat)
      requires output && n <= 512
      modifies `trace, `low, `high
      ensures trace == old(trace) + Driven(IdleBits(n, old(high), rest)) && high == old(high)
    {
      low := Repeat(false, 32);
      Start(n, 0);
    }

    /** DAP_SPI_Protocol_Error_Read and DAP_SPI_Protocol_Error_Write. */
    method ProtocolError(n: nat)
      requires output && n <= 64
      modifies `trace, `level, `low, `high
      ensures trace == old(trace) + Driven(Repeat(true, n)) && level
    {
      low, high := Repeat(true, 32), Repeat(true, 32);
      assert (low + high + rest)[..n] == Repeat(true, n);
      Start(n, 0);
      level := true;
    }

    /** The read half of SWD_Transfer_SPI. */
    method ReadSpi(header: seq<bool>, wdata: Bits32) returns (ack: nat, rdata: Bits32)
      requires output && |header| == 8
      modifies `trace, `level, `low, `high
      ensures trace == old(trace) + (Driven(header) + Released(4) + ReadTail(AckAt(SpiConf(conf), line, |old(trace)|)))
      ensures Outcome(ack, rdata) == if AckAt(SpiConf(conf), line, |old(trace)|) == ACK_OK then ReadOutcome(line, |old(trace)| + 12)
                                     else Outcome(AckAt(SpiConf(conf), line, |old(trace)|), wdata)
    {
      hide Driven, Sampled, AckOf, XorAll, Repeat, ParityEvenUint32;
      ghost var start := trace;
      rdata := wdata;
      ack := SendHeader(header, 0);
      Assoc(start, Driven(header), Released(4));
      ghost var opening := Driven(header) + Released(4);
      if ack == ACK_OK {
        var parity;
        rdata, parity := ReadData();
        FoldedParity(rdata);
        if ParityEvenUint32(rdata) != parity {
          ack := ACK_ERROR;
        }
      } else if ack == ACK_WAIT || ack == ACK_FAULT {
        GenerateCycle(1);
      } else {
        ProtocolError(33);
      }
      Assoc(start, opening, ReadTail(AckAt(SpiConf(conf), line, |start|)));
    }

    /** The write half of SWD_Transfer_SPI. */
    method WriteSpi(header: seq<bool>, wdata: Bits32) returns (ack: nat)
      requires output && |header| == 8 && conf.idleCycles <= 255
      modifies `trace, `level, `low, `high
      ensures trace == old(trace) + (Driven(header) + Released(5) + WriteTail(IdleBits(conf.idleCycles, ParityWord(wdata), rest), wdata, AckAt(SpiConf(conf), line, |old(trace)|)))
      ensures ack == AckAt(SpiConf(conf), line, |old(trace)|)
    {
      hide Driven, Sampled, AckOf, XorAll, Repeat, ParityEvenUint32;
      ghost var start := trace;
      FoldedParity(wdata);
      var parity := ParityEvenUint32(wdata);
      ghost var idle := IdleBits(conf.idleCycles, ParityWord(wdata), rest);
      ack := SendHeader(header, 1);
      Assoc(start, Driven(header), Released(5));
      ghost var opening := Driven(header) + Released(5);
      if ack == ACK_OK {
        WriteData(wdata, parity);
        var n := conf.idleCycles;
        if n != 0 {
          GenerateCycle(n);
        }
        Assoc(start + opening, Driven(wdata + [XorAll(wdata)]), Driven(idle));
        level := true;
      } else if ack != ACK_WAIT && ack != ACK_FAULT {
        ProtocolError(34);
      }
      Assoc(start, opening, WriteTail(idle, wdata, ack));
    }

    /** SWD_Transfer_SPI. */
    method TransferSpi(request: nat, wdata: Bits32) returns (ack: nat, rdata: Bits32)
      requires output && conf.idleCycles <= 255
      modifies `trace, `level, `low, `high
      ensures trace == old(trace) + SpiClocks(IdleBits(conf.idleCycles, ParityWord(wdata), rest), request, wdata, AckAt(SpiConf(conf), line, |old(trace)|))
      ensures Outcome(ack, rdata) == Result(SpiConf(conf), request, wdata, line, |old(trace)|)
    {
      hide Driven, AckAt, Header, RequestByte, IsRead, ReadTail, WriteTail, ReadOutcome;
      RequestByteIsHeader(request);
      if IsRead(request) {
        ack, rdata := ReadSpi(RequestByte(request), wdata);
      } else {
        ack := WriteSpi(RequestByte(request), wdata);
        rdata := wdata;
      }
    }
  }

  /** SPI knows neither a longer turnaround nor a data phase. */
  function SpiConf(conf: Conf): Conf {
    Conf(1, false, conf.idleCycles)
  }

  /** The second word of the buffer after DAP_SPI_Write_Data. */
  function ParityWord(wdata: Bits32): Bits32 {
    [XorAll(wdata)] + Repeat(false, 31)
  }

  /** What `n` idle clocks drive: the cleared first word, then what the others hold. */
  function IdleBits(n: nat, high: Bits32, rest: OtherWords): (s: seq<bool>)
    requires n <= 512
    ensures |s| == n
  {
    (Repeat(false, 32) + high + rest)[..n]
  }

  function ReadTail(ack: nat): seq<Slot> {
    if ack == ACK_OK then Released(34)
    else if ack == ACK_WAIT || ack == ACK_FAULT then Driven(Repeat(false, 1))
    else Driven(Repeat(true, 33))
  }

  function WriteTail(idle: seq<bool>, wdata: Bits32, ack: nat): seq<Slot> {
    if ack == ACK_OK then Driven(wdata + [XorAll(wdata)]) + Driven(idle)
    else if ack == ACK_WAIT || ack == ACK_FAULT then []
    else Driven(Repeat(true, 34))
  }

  /** The clocks of the SPI form: a read has no idle cycles, the turnaround after a
      refused read is driven low, and the host drives ones after a protocol error. */
  function SpiClocks(idle: seq<bool>, request: nat, wdata: Bits32, ack: nat): seq<Slot> {
    if IsRead(request) then Driven(Header(request)) + Released(4) + ReadTail(ack)
    else Driven(Header(request)) + Released(5) + WriteTail(idle, wdata, ack)
  }

  /** `constantBits | (request & 0xF) << 1 | parity << 5`, least significant bit first. */
  function RequestByte(request: nat): (h: seq<bool>)
    ensures |h| == 8
  {
    var low := request % 16;
    [true, BitOf(low, 0), BitOf(low, 1), BitOf(low, 2), BitOf(low, 3), BYTE_TABLE[low], false, true]
  }

  lemma HalveSum(even: nat, low: nat)
    ensures (2 * even + low) / 2 == even + low / 2 && (2 * even + low) % 2 == low % 2
  {}

  lemma LowNibble(v: nat)
    ensures var low := v % 16;
            low % 2 == v % 2 && low / 2 % 2 == v / 2 % 2 && low / 2 / 2 % 2 == v / 2 / 2 % 2
            && low / 2 / 2 / 2 % 2 == v / 2 / 2 / 2 % 2 && low % 16 == low
  {
    var q, low := v / 16, v % 16;
    HalveSum(8 * q, low);
    HalveSum(4 * q, low / 2);
    HalveSum(2 * q, low / 2 / 2);
    HalveSum(q, low / 2 / 2 / 2);
  }

  lemma RequestByteIsHeader(request: nat)
    ensures RequestByte(request) == Header(request)
  {
    hide BitOf, Odd, Quad, P6;
    ByteTableIsParity(request % 16);
    LowNibble(request);
    BitsOf(request);
    BitsOf(request % 16);
  }

  lemma BitsOf(v: nat)
    ensures BitOf(v, 0) == (v % 2 == 1) && BitOf(v, 1) == (v / 2 % 2 == 1)
    ensures BitOf(v, 2) == (v / 2 / 2 % 2 == 1) && BitOf(v, 3) == (v / 2 / 2 / 2 % 2 == 1)
  {
    assert BitOf(v, 3) == BitOf(v / 2, 2) == BitOf(v / 2 / 2, 1) == BitOf(v / 2 / 2 / 2, 0);
  }

  // ---- the slots in numbers ----

  predicate AllReleased(s: seq<Slot>, from: nat, to: nat) {
    from <= to <= |s| && forall i :: from <= i < to ==> s[i] == Release
  }

  predicate AllLow(s: seq<Slot>, from: nat, to: nat) {
    from <= to <= |s| && forall i :: from <= i < to ==> s[i] == Drive(false)
  }

  /** Start, the four request bits from APnDP to A3, odd when an odd number of them is set, stop, park. */
  predicate Opens(s: seq<Slot>, request: nat) {
    |s| >= 8 && s[0] == Drive(true) && s[6] == Drive(false) && s[7] == Drive(true)
    && s[1] == Drive(request % 2 == 1) && s[2] == Drive(request / 2 % 2 == 1)
    && s[3] == Drive(request / 2 / 2 % 2 == 1) && s[4] == Drive(request / 2 / 2 / 2 % 2 == 1)
    && s[5] == Drive((request + request / 2 + request / 2 / 2 + request / 2 / 2 / 2) % 2 == 1)
  }

  lemma HeaderOpens(request: nat, rest: seq<Slot>)
    ensures Opens(Driven(Header(request)) + rest, request)
  {
    HeaderBits(request);
  }

  lemma ReadBit1(request: nat)
    ensures IsRead(request) <==> request / 2 % 2 == 1
  {
    BitsOf(request);
  }

  lemma SlotsRead(conf: Conf, request: nat, wdata: Bits32)
    requires IsRead(request)
    ensures var s, t, n := Clocks(conf, request, wdata, ACK_OK), conf.turnaround, conf.idleCycles;
            |s| == 8 + t + 36 + t + n && AllReleased(s, 8, 8 + t + 36 + t) && AllLow(s, 8 + t + 36 + t, |s|)
  {
    hide Header, XorAll, IsRead;
  }

  lemma SlotsWritten(conf: Conf, request: nat, wdata: Bits32)
    requires !IsRead(request)
    ensures var s, t, n := Clocks(conf, request, wdata, ACK_OK), conf.turnaround, conf.idleCycles;
            |s| == 8 + t + 3 + t + 33 + n && AllReleased(s, 8, 8 + t + 3 + t)
            && (forall i :: 0 <= i < 32 ==> s[8 + t + 3 + t + i] == Drive(wdata[i]))
            && s[8 + t + 3 + t + 32] == Drive(XorAll(wdata)) && AllLow(s, 8 + t + 3 + t + 33, |s|)
  {
    hide Header, XorAll, IsRead;
  }

  lemma SlotsRefused(conf: Conf, request: nat, wdata: Bits32, ack: nat, read: bool)
    requires read == IsRead(request) && ack != ACK_OK
    ensures var s, t := Clocks(conf, request, wdata, ack), conf.turnaround;
            var refused, dummy := ack == ACK_WAIT || ack == ACK_FAULT, if conf.dataPhase then 33 else 0;
            (refused && read ==> |s| == 8 + t + 3 + dummy + t && AllReleased(s, 8, |s|))
            && (refused && !read ==>
                  |s| == 8 + t + 3 + t + dummy && AllReleased(s, 8, 8 + t + 3 + t) && AllLow(s, 8 + t + 3 + t, |s|))
            && (!refused ==> |s| == 8 + t + 3 + t + 33 && AllReleased(s, 8, |s|))
  {
    hide Header, XorAll, IsRead;
  }

  /** A transaction slot by slot: who has the line, for how long, and what is driven. */
  lemma GpioSlots(conf: Conf, request: nat, wdata: Bits32, ack: nat)
    ensures var s, t, n := Clocks(conf, request, wdata, ack), conf.turnaround, conf.idleCycles;
            var read := request / 2 % 2 == 1;
            var refused, dummy := ack == ACK_WAIT || ack == ACK_FAULT, if conf.dataPhase then 33 else 0;
            Opens(s, request)
            && (ack == ACK_OK && read ==>
                  |s| == 8 + t + 36 + t + n && AllReleased(s, 8, 8 + t + 36 + t) && AllLow(s, 8 + t + 36 + t, |s|))
            && (ack == ACK_OK && !read ==>
                  |s| == 8 + t + 3 + t + 33 + n && AllReleased(s, 8, 8 + t + 3 + t)
                  && (forall i :: 0 <= i < 32 ==> s[8 + t + 3 + t + i] == Drive(wdata[i]))
                  && s[8 + t + 3 + t + 32] == Drive(XorAll(wdata)) && AllLow(s, 8 + t + 3 + t + 33, |s|))
            && (refused && read ==>
                  |s| == 8 + t + 3 + dummy + t && AllReleased(s, 8, |s|))
            && (refused && !read ==>
                  |s| == 8 + t + 3 + t + dummy && AllReleased(s, 8, 8 + t + 3 + t) && AllLow(s, 8 + t + 3 + t, |s|))
            && (ack != ACK_OK && !refused ==>
                  |s| == 8 + t + 3 + t + 33 && AllReleased(s, 8, |s|))
  {
    hide XorAll, IsRead, Clocks, AllReleased, AllLow, Opens;
    ReadBit1(request);
    ClocksOpen(conf, request, wdata, ack);
    if ack == ACK_OK && IsRead(request) {
      SlotsRead(conf, request, wdata);
    } else if ack == ACK_OK {
      SlotsWritten(conf, request, wdata);
    } else {
      SlotsRefused(conf, request, wdata, ack, request / 2 % 2 == 1);
    }
  }

  lemma ClocksOpen(conf: Conf, request: nat, wdata: Bits32, ack: nat)
    ensures Opens(Clocks(conf, request, wdata, ack), request)
  {
    hide Header, DataClocks, RefusedClocks, IsRead, Opens;
    var s := Clocks(conf, request, wdata, ack);
    HeaderOpens(request, s[8..]);
    assert s == Driven(Header(request)) + s[8..];
  }

  /** Which clocks are looked at: three for the acknowledgement, and after an OK to a read
      32 for the word and one for its parity; a wrong parity turns OK into ERROR. */
  lemma GpioSamples(conf: Conf, request: nat, wdata: Bits32, line: nat -> bool, t: nat)
    ensures var o, ackAt := Result(conf, request, wdata, line, t), t + 8 + conf.turnaround;
            var low := line(ackAt) && !line(ackAt + 1) && !line(ackAt + 2);
            if low && request / 2 % 2 == 1 then
              (forall i :: 0 <= i < 32 ==> o.rdata[i] == line(ackAt + 3 + i))
              && o.ack == if XorAll(o.rdata) == line(ackAt + 3 + 32) then 1 else 8
            else
              o.rdata == wdata
              && o.ack == (if line(ackAt) then 1 else 0) + (if line(ackAt + 1) then 2 else 0) + (if line(ackAt + 2) then 4 else 0)
  {
    hide XorAll, IsRead;
    ReadBit1(request);
  }

  lemma SameOpening(request: nat)
    ensures Driven(Header(request)) + Released(4) + Released(1) == Driven(Header(request)) + Released(5)
  {
    assert Released(4) + Released(1) == Released(5);
    Assoc(Driven(Header(request)), Released(4), Released(1));
  }

  lemma MoveTurnaround(opening: seq<Slot>, turn: seq<Slot>, data: seq<Slot>, idle: seq<Slot>)
    requires idle == []
    ensures opening + (turn + data + idle) == opening + turn + (data + idle)
    ensures opening + (data + idle) == opening + data
  {
    assert turn + data + idle == turn + data && data + idle == data;
    Assoc(opening, turn, data);
  }

  lemma SameWhenOk(request: nat, wdata: Bits32)
    ensures Clocks(Conf(1, false, 0), request, wdata, ACK_OK) == SpiClocks([], request, wdata, ACK_OK)
    ensures |SpiClocks([], request, wdata, ACK_OK)| == 46
  {
    hide Driven, Released, Header, XorAll, IsRead, Repeat;
    var opening, idle := Driven(Header(request)) + Released(4), Driven(Repeat(false, 0));
    SameOpening(request);
    MoveTurnaround(opening, Released(1), Driven(wdata + [XorAll(wdata)]), idle);
    MoveTurnaround(opening, [], Released(34), idle);
  }

  lemma SameWhenRefused(request: nat, wdata: Bits32, ack: nat)
    requires ack in {ACK_WAIT, ACK_FAULT}
    ensures var gpio, spi := Clocks(Conf(1, false, 0), request, wdata, ack), SpiClocks([], request, wdata, ack);
            gpio == Driven(Header(request)) + Released(5)
            && spi == if IsRead(request) then Driven(Header(request)) + Released(4) + [Drive(false)] else gpio
  {
    hide Driven, Released, Header, XorAll, IsRead;
    assert Driven(Repeat(false, 0)) == [] && Driven(Repeat(false, 1)) == [Drive(false)];
    SameOpening(request);
  }

  /** With turnaround 1, no data phase and no idle cycles both forms clock the same
      number of times and put the same bits in the same slots; the one exception is
      the last slot of a refused read, which SPI drives and GPIO releases. */
  lemma SameTransaction(request: nat, wdata: Bits32, ack: nat)
    requires ack in {ACK_OK, ACK_WAIT, ACK_FAULT}
    ensures var gpio, spi := Clocks(Conf(1, false, 0), request, wdata, ack), SpiClocks([], request, wdata, ack);
            |gpio| == |spi| == (if ack == ACK_OK then 46 else 13)
            && gpio[..12] == spi[..12]
            && (spi == gpio <==> (ack == ACK_OK || !IsRead(request)))
            && (spi != gpio ==> spi[12] == Drive(false) && gpio[12] == Release)
  {
    hide Clocks, SpiClocks, Header, Driven;
    if ack == ACK_OK {
      SameWhenOk(request, wdata);
    } else {
      SameWhenRefused(request, wdata, ack);
      var head := Driven(Header(request));
      var gpio, spi := head + Released(5), head + Released(4) + [Drive(false)];
      assert gpio[..12] == spi[..12] && gpio[12] == Release && spi[12] == Drive(false);
    }
  }

  /** So does a protocol error: GPIO releases the line for 34 clocks, SPI drives it
      for 33 after a read and, after the turnaround, for 34 after a write. */
  lemma ErrorClocksDiffer(request: nat, wdata: Bits32, ack: nat)
    requires ack !in {ACK_OK, ACK_WAIT, ACK_FAULT}
    ensures var gpio, spi := Clocks(Conf(1, false, 0), request, wdata, ack), SpiClocks([], request, wdata, ack);
            |gpio| == 46 && |spi| == (if IsRead(request) then 45 else 47)
            && gpio[..12] == spi[..12] && gpio[12..] == Released(34)
            && spi[|spi| - 33..] == Driven(Repeat(true, 33))
  {
    hide Header, Driven, IsRead, XorAll, Released, Repeat;
    var head := Driven(Header(request));
    SplitAtEnd(head + Released(4), Released(34));
    SplitAtEnd(head + Released(4), Driven(Repeat(true, 33)));
    OneOnMore(head);
  }

  lemma SplitAtEnd(a: seq<Slot>, b: seq<Slot>)
    ensures (a + b)[..|a|] == a && (a + b)[|a|..] == b
  {}

  lemma OneOnMore(head: seq<Slot>)
    requires |head| == 8
    ensures var s := head + Released(5) + Driven(Repeat(true, 34));
            |s| == 47 && s[..12] == head + Released(4) && s[14..] == Driven(Repeat(true, 33))
    ensures Released(1 + 33) == Released(34) && Released(1 + 3) == Released(4)
  {}

  /** No more than the first word is clocked out, or all of the rest is zero: the
      parity, which DAP_SPI_Write_Data left in the second word, and what is behind. */
  predicate IdlesLow(n: nat, wdata: Bits32, rest: OtherWords)
    requires n <= 512
  {
    n <= 32 || (!XorAll(wdata) && forall k :: 0 <= k < n - 64 ==> !rest[k])
  }

  lemma IdleLowExactly(n: nat, wdata: Bits32, rest: OtherWords)
    requires n <= 512
    ensures var idle := IdleBits(n, ParityWord(wdata), rest);
            (n > 32 ==> idle[32] == XorAll(wdata)) && (idle == Repeat(false, n) <==> IdlesLow(n, wdata, rest))
  {
    hide XorAll;
    var idle := IdleBits(n, ParityWord(wdata), rest);
    assert forall k :: 0 <= k < n ==>
             idle[k] == if k == 32 then XorAll(wdata) else k >= 64 && rest[k - 64];
    if n > 32 && idle == Repeat(false, n) {
      assert !idle[32];
      assert forall k :: 0 <= k < n - 64 ==> rest[k] == idle[k + 64];
    }
  }

  /** With idle cycles the clocks are as many only after a write, and the same only
      when all idle clocks are low. */
  lemma IdleCyclesDiffer(n: nat, request: nat, wdata: Bits32, rest: OtherWords)
    requires n <= 255
    ensures var gpio := Clocks(Conf(1, false, n), request, wdata, ACK_OK);
            var spi := SpiClocks(IdleBits(n, ParityWord(wdata), rest), request, wdata, ACK_OK);
            (|gpio| == |spi| <==> (n == 0 || !IsRead(request)))
            && (gpio == spi <==> (n == 0 || (!IsRead(request) && IdlesLow(n, wdata, rest))))
  {
    hide Driven, Header, XorAll, IsRead, Repeat, IdleBits, IdlesLow, ParityWord;
    var idle := IdleBits(n, ParityWord(wdata), rest);
    IdleLowExactly(n, wdata, rest);
    if n == 0 {
      SameWhenOk(request, wdata);
      assert idle == [];
    } else if !IsRead(request) {
      var head, data := Driven(Header(request)), Driven(wdata + [XorAll(wdata)]);
      OpenedAlike(head, data, Driven(Repeat(false, n)));
      SameTails(head + Released(5) + data, Repeat(false, n), idle);
      Assoc(head + Released(5), data, Driven(idle));
    }
  }

  lemma OpenedAlike(head: seq<Slot>, data: seq<Slot>, tail: seq<Slot>)
    ensures head + Released(1 + 3) + (Released(1) + data + tail) == head + Released(5) + data + tail
  {}

  lemma SameTails(a: seq<Slot>, b: seq<bool>, c: seq<bool>)
    ensures a + Driven(b) == a + Driven(c) <==> b == c
  {
    if a + Driven(b) == a + Driven(c) {
      assert (a + Driven(b))[|a|..] == Driven(b) && (a + Driven(c))[|a|..] == Driven(c);
      assert |b| == |Driven(b)| == |Driven(c)| == |c|;
      assert forall i :: 0 <= i < |b| ==> Driven(b)[i] == Drive(b[i]) && Driven(c)[i] == Drive(c[i]);
    }
  }

  lemma NothingRead(bits: seq<bool>)
    requires bits == []
    ensures !XorAll(bits) && Repeat(false, 32) + bits == Repeat(false, 32)
  {}

  lemma XorNext(bits: seq<bool>, n: nat)
    requires n < |bits|
    ensures bits[..n + 1] == bits[..n] + [bits[n]]
    ensures XorAll(bits[..n + 1]) == Xor(XorAll(bits[..n]), bits[n])
  {
    assert bits[..n + 1][..n] == bits[..n];
  }

  lemma SampledNext(line: nat -> bool, t: nat, n: nat)
    ensures Sampled(line, t, n + 1) == Sampled(line, t, n) + [line(t + n)]
    ensures XorAll(Sampled(line, t, n + 1)) == Xor(XorAll(Sampled(line, t, n)), line(t + n))
  {
    assert Sampled(line, t, n + 1)[..n] == Sampled(line, t, n);
  }

  lemma ShiftedInto(n: nat, bits: seq<bool>, bit: bool)
    requires |bits| == n < 32
    ensures ShiftRight(Repeat(false, 32 - n) + bits)[31 := bit] == Repeat(false, 31 - n) + (bits + [bit])
  {}

  /** The bits the shifted requests show, and the low bit of their sum. */
  lemma HeaderBits(request: nat)
    ensures var r1, r2, r3 := request / 2, request / 2 / 2, request / 2 / 2 / 2;
            Header(request) == [true, request % 2 == 1, r1 % 2 == 1, r2 % 2 == 1, r3 % 2 == 1,
                                (request + r1 + r2 + r3) % 2 == 1, false, true]
  {
    hide BitOf, Odd;
    HeaderParity(request);
    BitsOf(request);
  }

  lemma Prefixes(h: seq<bool>)
    requires |h| == 8
    ensures h[..1] == [h[0]] && h[..2] == h[..1] + [h[1]] && h[..3] == h[..2] + [h[2]] && h[..4] == h[..3] + [h[3]]
            && h[..5] == h[..4] + [h[4]] && h[..6] == h[..5] + [h[5]] && h[..7] == h[..6] + [h[6]] && h == h[..7] + [h[7]]
  {}

  lemma NibbleOdd(a: nat, b: nat, c: nat, d: nat)
    requires a < 2 && b < 2 && c < 2 && d < 2
    ensures Odd(a + 2 * b + 4 * c + 8 * d) == ((a + b + c + d) % 2 == 1)
  {
    assert Odd(d) == (d == 1);
    assert Odd(c + 2 * d) == Xor(c == 1, d == 1);
    assert (b + 2 * c + 4 * d) / 2 == c + 2 * d;
    assert Odd(b + 2 * c + 4 * d) == Xor(b == 1, Odd(c + 2 * d));
    assert (a + 2 * b + 4 * c + 8 * d) / 2 == b + 2 * c + 4 * d;
  }

  lemma SumParity(r0: nat, r1: nat, r2: nat, r3: nat, q: nat, a: nat, b: nat, c: nat, d: nat)
    requires r0 == a + 2 * r1 && r1 == b + 2 * r2 && r2 == c + 2 * r3 && r3 == d + 2 * q
    ensures (r0 + r1 + r2 + r3) % 2 == (a + b + c + d) % 2
  {
    EvenPart(r1 + r2 + r3 + q, a + b + c + d);
  }

  lemma EvenPart(even: nat, odd: nat)
    ensures (2 * even + odd) % 2 == odd % 2
  {}

  /** A number as its low four bits and the rest. */
  lemma LowFour(v: nat)
    ensures v % 16 == v % 2 + 2 * (v / 2 % 2) + 4 * (v / 2 / 2 % 2) + 8 * (v / 2 / 2 / 2 % 2)
  {
    var r1, r2, r3 := v / 2, v / 2 / 2, v / 2 / 2 / 2;
    Sixteenth(r3 / 2, v % 2 + 2 * (r1 % 2) + 4 * (r2 % 2) + 8 * (r3 % 2));
  }

  lemma Sixteenth(q: nat, low: nat)
    requires low < 16
    ensures (16 * q + low) % 16 == low
  {}

  lemma HeaderParity(request: nat)
    ensures ((request + request / 2 + request / 2 / 2 + request / 2 / 2 / 2) % 2 == 1) == Odd(request % 16)
  {
    hide Odd;
    var r1, r2, r3 := request / 2, request / 2 / 2, request / 2 / 2 / 2;
    var a, b, c, d := request % 2, r1 % 2, r2 % 2, r3 % 2;
    LowFour(request);
    NibbleOdd(a, b, c, d);
    SumParity(request, r1, r2, r3, r3 / 2, a, b, c, d);
  }

  /** Both forms on the same line, from the same clock, with turnaround 1, no data phase
      and no idle cycles: the same acknowledgement and the same word, and after all but
      a protocol error the same clocks up to the last slot of a refused read. */
  method BothForms(gpio: Port, spi: Port, request: nat, wdata: Bits32) returns (ack: nat, rdata: Bits32, ack': nat, rdata': Bits32)
    requires gpio != spi && gpio.output && spi.output && gpio.line == spi.line
    requires gpio.conf == spi.conf == Conf(1, false, 0) && |gpio.trace| == |spi.trace|
    modifies gpio, spi
    ensures ack == ack' && rdata == rdata'
    ensures var t := |old(gpio.trace)|;
            Outcome(ack, rdata) == Result(Conf(1, false, 0), request, wdata, gpio.line, t)
            && (AckAt(Conf(1, false, 0), gpio.line, t) in {ACK_OK, ACK_WAIT, ACK_FAULT} ==>
                  |gpio.trace| == |spi.trace| >= t + 12 && gpio.trace[t..t + 12] == spi.trace[t..t + 12]
                  && (gpio.trace[t..] == spi.trace[t..] <==> AckAt(Conf(1, false, 0), gpio.line, t) == ACK_OK || !IsRead(request)))
  {
    hide Result, AckAt, Clocks, SpiClocks, IsRead;
    ghost var t, before, before' := |gpio.trace|, gpio.trace, spi.trace;
    ghost var seen := AckAt(Conf(1, false, 0), gpio.line, t);
    ack, rdata := gpio.TransferGpio(request, wdata);
    ack', rdata' := spi.TransferSpi(request, wdata);
    if seen in {ACK_OK, ACK_WAIT, ACK_FAULT} {
      SameTransaction(request, wdata, seen);
      Behind(before, Clocks(Conf(1, false, 0), request, wdata, seen));
      Behind(before', SpiClocks([], request, wdata, seen));
    }
  }

  lemma FirstBits(a: seq<bool>, b: seq<bool>, c: seq<bool>)
    ensures (a + b + c)[..|a|] == a
  {}

  lemma Behind(a: seq<Slot>, b: seq<Slot>)
    ensures (a + b)[|a|..] == b && (|b| >= 12 ==> (a + b)[|a|..|a| + 12] == b[..12])
  {}
}
