/** JTAG_DP.c: clock loops that drive the pins of a scan chain, and the
    configuration of the chain. */
module JtagDriver {
  import opened Bits
  import opened JtagChain
  import JtagTransfer

  const OK: nat := 1

  /** The low `n` bits of a word; beyond bit 31 there are zeros. */
  function LowBits(w: Bits32, n: nat): (s: seq<bool>)
    ensures |s| == n
    ensures forall k :: 0 <= k < n ==> s[k] == (k < 32 && w[k])
  {
    seq(n, k requires 0 <= k => k < 32 && w[k])
  }

  /** The acknowledge code made of the first three bits shifted out. */
  function Ack(answer: seq<bool>): nat
    requires |answer| >= 3
  {
    (if answer[1] then 1 else 0) + (if answer[0] then 2 else 0) + (if answer[2] then 4 else 0)
  }

  /** A JTAG-DP acknowledges with 010 for OK and 001 for WAIT, least significant bit
      first; the first two bits are exchanged to get the codes of SWD, 1 and 2. */
  lemma AckMeans(answer: seq<bool>)
    requires |answer| >= 3
    ensures Ack(answer) == 1 <==> answer[..3] == [false, true, false]
    ensures Ack(answer) == 2 <==> answer[..3] == [true, false, false]
  {
    assert answer[..3] == [answer[0], answer[1], answer[2]];
  }

  lemma LowBitsSnoc(w: Bits32, n: nat, bit: bool)
    requires bit == (n < 32 && w[n])
    ensures LowBits(w, n + 1) == LowBits(w, n) + [bit]
  {}

  /** The instructions of the transfer engine, least significant bit first. */
  const DPACC: Bits32 := [false, true, false, true] + Repeat(false, 28)
  const APACC: Bits32 := [true, true, false, true] + Repeat(false, 28)

  /** They are the codes that the transfer commands ask for. */
  lemma CodesAgree()
    ensures forall k :: 0 <= k < 32 ==> DPACC[k] == (k == 1 || k == 3) && APACC[k] == (k == 0 || k == 1 || k == 3)
    ensures JtagTransfer.DPACC == 2 + 8 && JtagTransfer.APACC == 1 + 2 + 8
  {}

  /** In an instruction register of three bits or more neither of them is BYPASS. */
  lemma AccessIsNotBypass(n: nat)
    requires n >= 3
    ensures !AllOnes(LowBits(DPACC, n)) && !AllOnes(LowBits(APACC, n))
  {
    assert !LowBits(DPACC, n)[2] && !LowBits(APACC, n)[2];
  }

  /** Every device knows the instruction bits of the devices before and after it. */
  ghost predicate Positions(lens: seq<nat>, before: seq<nat>, after: seq<nat>) {
    |before| == |lens| == |after|
    && (forall n :: 0 <= n < |lens| ==> before[n] == SumTo(lens, n))
    && (forall n :: 0 <= n < |lens| ==> before[n] + lens[n] + after[n] == SumTo(lens, |lens|))
  }

  /** Ones for the devices before, the instruction, ones for the devices after. */
  lemma InstructionSent(ir: Bits32, n: nat, before: nat, after: nat, last: bool)
    requires n > 0 && last == (n - 1 < 32 && ir[n - 1])
    ensures [] + Repeat(true, before) + LowBits(ir, n - 1) + [last] + Repeat(true, after)
         == Ones(before) + LowBits(ir, n) + Ones(after)
  {
    hide LowBits, Repeat, Ones;
    LowBitsSnoc(ir, n - 1, last);
    assert Repeat(true, before) == Ones(before) && Repeat(true, after) == Ones(after);
    Regroup(Ones(before), LowBits(ir, n - 1), [last], Ones(after));
  }

  lemma Regroup(a: seq<bool>, b: seq<bool>, c: seq<bool>, d: seq<bool>)
    ensures [] + a + b + c + d == a + (b + c) + d
  {}

  class Port {
    // The chain, as configured.
    var irLength: seq<nat>
    var irBefore: seq<nat>
    var irAfter: seq<nat>
    var index: nat
    var idleCycles: nat

    // The pins, the devices behind them, and the clocks they have seen.
    var tms: bool
    var tdi: bool
    var chain: Chain
    var ticks: nat

    /** The configuration describes the chain, and the index is one of its devices. */
    ghost predicate Configured()
      reads `chain, `irLength, `irBefore, `irAfter, `index
    {
      Lengths(chain.irs, irLength) && Positions(irLength, irBefore, irAfter) && index < |irLength| && irLength[index] > 0
    }

    constructor (chain: Chain)
      ensures this.chain == chain && irLength == irBefore == irAfter == [] && index == 0 && idleCycles == 0
      ensures ticks == 0
    {
      irLength, irBefore, irAfter, index, idleCycles := [], [], [], 0, 0;
      tms, tdi, this.chain, ticks := false, false, chain, 0;
    }

    /** DAP_JTAG_Configure: the instruction lengths, and from them the bits before and after. */
    method Configure(lengths: seq<nat>)
      requires |lengths| <= 8
      modifies `irLength, `irBefore, `irAfter
      ensures irLength == lengths && Positions(irLength, irBefore, irAfter)
    {
      var bits := CountBefore(lengths);
      CountAfter(bits);
    }

    method CountBefore(lengths: seq<nat>) returns (bits: nat)
      modifies `irLength, `irBefore
      ensures irLength == lengths && |irBefore| == |lengths| && bits == SumTo(lengths, |lengths|)
      ensures forall n :: 0 <= n < |lengths| ==> irBefore[n] == SumTo(lengths, n)
    {
      hide SumTo;
      SumNone(lengths);
      bits, irLength, irBefore := 0, [], [];
      for n := 0 to |lengths|
        invariant irLength == lengths[..n] && |irBefore| == n && bits == SumTo(lengths, n)
        invariant forall k :: 0 <= k < n ==> irBefore[k] == SumTo(lengths, k)
      {
        SumNext(lengths, n);
        assert lengths[..n + 1] == lengths[..n] + [lengths[n]];
        irLength := irLength + [lengths[n]];
        irBefore := irBefore + [bits];
        bits := bits + lengths[n];
      }
    }

    method CountAfter(total: nat)
      requires total == SumTo(irLength, |irLength|)
      modifies `irAfter
      ensures |irAfter| == |irLength|
      ensures forall n :: 0 <= n < |irLength| ==> irAfter[n] == total - SumTo(irLength, n + 1)
    {
      hide SumTo;
      SumNone(irLength);
      var bits: int := total;
      irAfter := [];
      for n := 0 to |irLength|
        invariant |irAfter| == n && bits == total - SumTo(irLength, n)
        invariant forall k :: 0 <= k < n ==> irAfter[k] == total - SumTo(irLength, k + 1)
      {
        SumMonotone(irLength, n + 1, |irLength|);
        SumNext(irLength, n);
        bits := bits - irLength[n];
        irAfter := irAfter + [bits];
      }
    }

    // ---- clock cycles ----

    method CycleTck()
      modifies `chain, `ticks
      ensures ticks == old(ticks) + 1
      ensures chain == Clock(old(chain), tms, tdi)
    {
      chain, ticks := Clock(chain, tms, tdi), ticks + 1;
    }

    method CycleTdo() returns (tdo: bool)
      modifies `chain, `ticks
      ensures ticks == old(ticks) + 1
      ensures tdo == Tdo(old(chain)) && chain == Clock(old(chain), tms, tdi)
    {
      tdo := Tdo(chain);
      CycleTck();
    }

    method CycleTdio(bit: bool) returns (tdo: bool)
      modifies `chain, `ticks, `tdi
      ensures ticks == old(ticks) + 1
      ensures tdi == bit && tdo == Tdo(old(chain)) && chain == Clock(old(chain), tms, bit)
    {
      tdi := bit;
      tdo := CycleTdo();
    }

    /** In a shift state: the register that was there on entry, `captured`, has
        lost its first bits at TDO and gained `sent` at TDI. */
    ghost predicate Shifting(state: TapState, captured: seq<bool>, sent: seq<bool>)
      reads `chain, `tms
    {
      && !tms && chain.state == state && (state == ShiftDr || state == ShiftIr)
      && |sent| < |captured| && chain.shifts == |sent| && chain.reg == captured[|sent|..] + sent
    }

    /** The scan is over after the bits `sent`; the controllers are in Exit1. */
    ghost predicate Exited(state: TapState, captured: seq<bool>, sent: seq<bool>)
      reads `chain, `tms
    {
      && tms && chain.state == state && |sent| <= |captured|
      && chain.shifts == |sent| && chain.reg == captured[|sent|..] + sent
    }

    /** One more bit of a scan that goes on. */
    method ShiftBit(bit: bool, ghost state: TapState, ghost captured: seq<bool>, ghost sent: seq<bool>) returns (tdo: bool)
      requires Shifting(state, captured, sent) && |sent| + 1 < |captured|
      modifies `chain, `ticks, `tdi
      ensures ticks == old(ticks) + 1
      ensures Shifting(state, captured, sent + [bit]) && tdi == bit && tdo == captured[|sent|]
      ensures chain.irs == old(chain.irs) && chain.answer == old(chain.answer)
    {
      hide Captured, Update, Ones, TotalLen;
      tdo := CycleTdio(bit);
    }

    /** `n` cycles with TDI as it is. */
    method Hold(n: nat, ghost state: TapState, ghost captured: seq<bool>, ghost sent: seq<bool>) returns (ghost sent': seq<bool>)
      requires Shifting(state, captured, sent) && |sent| + n < |captured|
      modifies `chain, `ticks, `tdi
      ensures ticks == old(ticks) + n
      ensures Shifting(state, captured, sent') && sent' == sent + Repeat(tdi, n) && tdi == old(tdi)
      ensures chain.irs == old(chain.irs) && chain.answer == old(chain.answer)
    {
      hide Shifting;
      var i: nat := n;
      sent' := sent;
      while i > 0
        invariant ticks == old(ticks) + n - i
        invariant i <= n && |sent'| == |sent| + n - i && tdi == old(tdi)
        invariant Shifting(state, captured, sent') && sent' == sent + Repeat(tdi, n - i)
        invariant chain.irs == old(chain.irs) && chain.answer == old(chain.answer)
      {
        var _ := ShiftBit(tdi, state, captured, sent');
        sent' := sent' + [tdi];
        i := i - 1;
      }
    }

    /** The word's low `n` bits go out, least significant first; `rest` is the word shifted right. */
    method ShiftOut(w: Bits32, n: nat, ghost state: TapState, ghost captured: seq<bool>, ghost sent: seq<bool>)
      returns (rest: Bits32, ghost sent': seq<bool>)
      requires Shifting(state, captured, sent) && |sent| + n < |captured|
      modifies `chain, `ticks, `tdi
      ensures ticks == old(ticks) + n
      ensures Shifting(state, captured, sent') && sent' == sent + LowBits(w, n)
      ensures rest[0] == (n < 32 && w[n])
      ensures chain.irs == old(chain.irs) && chain.answer == old(chain.answer)
    {
      hide Shifting, LowBits, ShiftRight, Shifted;
      var i: nat := n;
      rest, sent' := w, sent;
      ghost var k: nat := 0;
      NothingShifted(w);
      while i > 0
        invariant ticks == old(ticks) + n - i
        invariant k + i == n && |sent'| == |sent| + k && rest == Shifted(w, k)
        invariant Shifting(state, captured, sent') && sent' == sent + LowBits(w, k)
        invariant chain.irs == old(chain.irs) && chain.answer == old(chain.answer)
      {
        var _ := ShiftBit(rest[0], state, captured, sent');
        LowBitsSnoc(w, k, rest[0]);
        sent' := sent' + [rest[0]];
        ShiftedOnce(w, k);
        rest, i, k := ShiftRight(rest), i - 1, k + 1;
      }
    }

    /** From Run-Test/Idle into Shift-IR. */
    method EnterShiftIr() returns (ghost captured: seq<bool>)
      requires chain.state == RunTestIdle && TotalLen(chain.irs) > 0
      modifies `chain, `ticks, `tms
      ensures ticks == old(ticks) + 4
      ensures Shifting(ShiftIr, captured, []) && |captured| == TotalLen(chain.irs)
      ensures chain.irs == old(chain.irs) && chain.answer == old(chain.answer)
    {
      hide Clock, TotalLen;
      SelectsIr(chain, tdi);
      tms := true;
      CycleTck();
      CycleTck();
      tms := false;
      CycleTck();
      CycleTck();
      captured := chain.reg;
    }

    /** From Run-Test/Idle into Shift-DR. */
    method EnterShiftDr() returns (ghost captured: seq<bool>)
      requires chain.state == RunTestIdle && Captured(chain.irs, chain.answer) != []
      modifies `chain, `ticks, `tms
      ensures ticks == old(ticks) + 3
      ensures Shifting(ShiftDr, captured, []) && captured == Captured(chain.irs, chain.answer)
      ensures chain.irs == old(chain.irs) && chain.answer == old(chain.answer)
    {
      hide Update, Ones, TotalLen;
      tms := true;
      CycleTck();
      tms := false;
      CycleTck();
      CycleTck();
      captured := chain.reg;
    }

    /** The last cycle of a scan, with TDI as it is. */
    method ExitShift(ghost state: TapState, ghost captured: seq<bool>, ghost sent: seq<bool>)
      returns (tdo: bool, ghost sent': seq<bool>)
      requires Shifting(state, captured, sent)
      modifies `chain, `ticks, `tms
      ensures ticks == old(ticks) + 1
      ensures Exited(if state == ShiftDr then Exit1Dr else Exit1Ir, captured, sent')
      ensures sent' == sent + [tdi] && tdo == captured[|sent|]
      ensures chain.irs == old(chain.irs) && chain.answer == old(chain.answer)
    {
      hide Captured, Update, Ones, TotalLen;
      tms := true;
      tdo := CycleTdo();
      sent' := sent + [tdi];
    }

    /** The device's last bit, the bits of the devices after it, if any, and the
        exit from the scan. TDI then stays at `bit`, or goes to 1. */
    method LastBit(bit: bool, after: nat, ghost state: TapState, ghost captured: seq<bool>, ghost sent: seq<bool>, ones: bool)
      returns (tdo: bool, ghost sent': seq<bool>)
      requires Shifting(state, captured, sent) && |sent| + after < |captured|
      modifies `chain, `ticks, `tdi, `tms
      ensures ticks == old(ticks) + 1 + after
      ensures Exited(if state == ShiftDr then Exit1Dr else Exit1Ir, captured, sent')
      ensures sent' == sent + [bit] + Repeat(ones || bit, after) && tdo == captured[|sent|]
      ensures chain.irs == old(chain.irs) && chain.answer == old(chain.answer)
    {
      hide Shifting, Exited;
      if after > 0 {
        tdo := ShiftBit(bit, state, captured, sent);
        sent' := sent + [bit];
        if ones {
          tdi := true;
        }
        sent' := Hold(after - 1, state, captured, sent');
        var _, s := ExitShift(state, captured, sent');
        sent' := s;
      } else {
        tdi := bit;
        tdo, sent' := ExitShift(state, captured, sent);
      }
    }

    /** Update, then Run-Test/Idle. */
    method ToIdle()
      requires tms && (chain.state == Exit1Ir || chain.state == Exit1Dr)
      modifies `chain, `ticks, `tms
      ensures ticks == old(ticks) + 2
      ensures chain.state == RunTestIdle && !tms
      ensures chain.shifts == old(chain.shifts) && chain.answer == old(chain.answer)
      ensures old(chain.state) == Exit1Dr ==> chain.dr == old(chain.reg) && chain.irs == old(chain.irs)
      ensures old(chain.state) == Exit1Ir && |old(chain.reg)| == TotalLen(old(chain.irs)) ==>
                chain.irs == Update(old(chain.irs), old(chain.reg))
    {
      hide Captured, Ones;
      CycleTck();
      tms := false;
      CycleTck();
    }

    /** JTAG_IR: the indexed device gets the low bits of `ir`, every other one is bypassed. */
    method SetIr(ir: Bits32)
      requires Configured() && chain.state == RunTestIdle
      modifies `chain, `ticks, `tms, `tdi
      ensures ticks == old(ticks) + 6 + TotalLen(old(chain.irs))
      ensures Configured() && chain.state == RunTestIdle && chain.answer == old(chain.answer)
      ensures chain.irs[index] == LowBits(ir, irLength[index])
      ensures forall j :: 0 <= j < |chain.irs| && j != index ==> AllOnes(chain.irs[j])
    {
      hide Repeat, LowBits, Ones, Shifting, Exited, Clock, Update, TotalLen, SumTo, AllOnes, Positions;
      BitsAround();
      ghost var irs, before, n, after := chain.irs, irBefore[index], irLength[index], irAfter[index];
      ghost var captured := EnterShiftIr();
      tdi := true;
      ghost var sent := Hold(irBefore[index], ShiftIr, captured, []);
      var rest;
      rest, sent := ShiftOut(ir, irLength[index] - 1, ShiftIr, captured, sent);
      ghost var last := rest[0];
      var tdo;
      tdo, sent := LastBit(rest[0], irAfter[index], ShiftIr, captured, sent, true);
      InstructionSent(ir, n, before, after, last);
      EndIr(captured, sent);
      tdi := true;
      UpdateSelects(irs, irLength, index, LowBits(ir, n), after);
    }

    /** The configured lengths add up to the instruction register of the chain. */
    lemma BitsAround()
      requires Configured()
      ensures |irLength| == |irBefore| == |irAfter| == |chain.irs| && index < |irLength| && irLength[index] > 0
      ensures irBefore[index] == SumTo(irLength, index)
      ensures irBefore[index] + irLength[index] + irAfter[index] == TotalLen(chain.irs)
    {
      TotalIsSum(chain.irs, irLength);
    }

    /** The end of an instruction scan. */
    method EndIr(ghost captured: seq<bool>, ghost sent: seq<bool>)
      requires Exited(Exit1Ir, captured, sent) && |sent| == |captured| == TotalLen(chain.irs)
      modifies `chain, `ticks, `tms
      ensures ticks == old(ticks) + 2
      ensures chain.state == RunTestIdle && !tms && chain.answer == old(chain.answer)
      ensures chain.irs == Update(old(chain.irs), sent)
    {
      assert chain.reg == sent;
      ToIdle();
    }

    /** The first `n` bits of a word are taken in; they end up at the top of `val`. */
    method ShiftIn(n: nat, ghost captured: seq<bool>, ghost sent: seq<bool>) returns (val: Bits32, ghost sent': seq<bool>)
      requires Shifting(ShiftDr, captured, sent) && |sent| + n < |captured| && n <= 31
      modifies `chain, `ticks, `tdi
      ensures ticks == old(ticks) + n
      ensures Shifting(ShiftDr, captured, sent') && sent' == sent + Repeat(tdi, n) && tdi == old(tdi)
      ensures val == TakenIn(captured[|sent|..|sent| + n])
      ensures chain.irs == old(chain.irs) && chain.answer == old(chain.answer)
    {
      hide Shifting, TakenIn, ShiftRight;
      var i: nat := n;
      val, sent' := Repeat(false, 32), sent;
      NothingTakenIn();
      assert captured[|sent|..|sent| + 0] == [] && sent == sent + Repeat(tdi, 0);
      while i > 0
        invariant ticks == old(ticks) + n - i
        invariant i <= n && |sent'| == |sent| + n - i && tdi == old(tdi)
        invariant Shifting(ShiftDr, captured, sent') && sent' == sent + Repeat(tdi, n - i)
        invariant val == TakenIn(captured[|sent|..|sent| + n - i])
        invariant chain.irs == old(chain.irs) && chain.answer == old(chain.answer)
      {
        var bit := ShiftBit(tdi, ShiftDr, captured, sent');
        TakenInNext(captured, |sent|, n - i);
        sent' := sent' + [tdi];
        val := ShiftRight(val[31 := val[31] || bit]);
        i := i - 1;
      }
    }

    /** The bits of the bypassed devices before the indexed one, and its first
        three, which carry the request out and the acknowledgement in. */
    method ShiftRequest(request: Bits32, ghost captured: seq<bool>) returns (ack: nat, ghost sent: seq<bool>)
      requires Shifting(ShiftDr, captured, []) && index + 3 < |captured|
      modifies `chain, `ticks, `tdi
      ensures ticks == old(ticks) + index + 3
      ensures Shifting(ShiftDr, captured, sent) && |sent| == index + 3
      ensures sent[index..] == [request[1], request[2], request[3]]
      ensures ack == Ack(captured[index..index + 3])
      ensures chain.irs == old(chain.irs) && chain.answer == old(chain.answer)
    {
      hide Shifting, Repeat;
      sent := Hold(index, ShiftDr, captured, []);
      ghost var head := sent;
      var bit := ShiftBit(request[1], ShiftDr, captured, sent);
      sent := sent + [request[1]];
      ack := if bit then 2 else 0;
      bit := ShiftBit(request[2], ShiftDr, captured, sent);
      sent := sent + [request[2]];
      ack := ack + if bit then 1 else 0;
      bit := ShiftBit(request[3], ShiftDr, captured, sent);
      sent := sent + [request[3]];
      ack := ack + if bit then 4 else 0;
      ThreeMore(head, request[1], request[2], request[3]);
    }

    /** The read data phase. */
    method ReadData(after: nat, ghost captured: seq<bool>, ghost sent: seq<bool>) returns (val: Bits32, ghost sent': seq<bool>)
      requires Shifting(ShiftDr, captured, sent) && |sent| + 32 + after == |captured|
      modifies `chain, `ticks, `tdi, `tms
      ensures ticks == old(ticks) + 32 + after
      ensures Exited(Exit1Dr, captured, sent') && |sent'| == |captured| && sent <= sent'
      ensures val == captured[|sent|..|sent| + 32]
      ensures chain.irs == old(chain.irs) && chain.answer == old(chain.answer)
    {
      hide Shifting, Exited, TakenIn, Repeat;
      ghost var k := |sent|;
      var bit;
      val, sent' := ShiftIn(31, captured, sent);
      bit, sent' := LastBit(tdi, after, ShiftDr, captured, sent', false);
      TakenInLast(captured[k..k + 31], bit);
      assert captured[k..k + 32] == captured[k..k + 31] + [bit];
      val := val[31 := val[31] || bit];
    }

    /** The write data phase. */
    method WriteData(val: Bits32, after: nat, ghost captured: seq<bool>, ghost sent: seq<bool>) returns (ghost sent': seq<bool>)
      requires Shifting(ShiftDr, captured, sent) && |sent| + 32 + after == |captured|
      modifies `chain, `ticks, `tdi, `tms
      ensures ticks == old(ticks) + 32 + after
      ensures Exited(Exit1Dr, captured, sent') && |sent'| == |captured|
      ensures sent <= sent' && sent'[|sent|..|sent| + 32] == val
      ensures chain.irs == old(chain.irs) && chain.answer == old(chain.answer)
    {
      hide Shifting, Exited, LowBits, Repeat;
      var rest, bit;
      rest, sent' := ShiftOut(val, 31, ShiftDr, captured, sent);
      ghost var last := rest[0];
      bit, sent' := LastBit(rest[0], after, ShiftDr, captured, sent', false);
      WordSent(sent, val, last, Repeat(last, after));
    }

    /** JTAG_Transfer. An OK access shifts index + 35 + (count - index - 1) bits and
        moves the device's own 35; every path ends in Run-Test/Idle. */
    method Transfer(request: Bits32, wdata: Bits32) returns (ack: nat, rdata: Bits32)
      requires Configured() && chain.state == RunTestIdle && BypassedBut(chain.irs, index) && |chain.answer| == 35
      modifies `chain, `ticks, `tms, `tdi
      ensures ticks == old(ticks) + idleCycles + if ack == OK then |irLength| + 39 else index + 9
      ensures chain.state == RunTestIdle && chain.irs == old(chain.irs) && chain.answer == old(chain.answer)
      ensures ack == Ack(chain.answer) && (ack == 1 <==> chain.answer[..3] == [false, true, false])
      ensures ack == 2 <==> chain.answer[..3] == [true, false, false]
      ensures ack != OK ==> chain.shifts == index + 4
      ensures ack == OK ==>
                chain.shifts == index + 35 + (|irLength| - index - 1) == |chain.dr|
                && chain.dr[index..index + 3] == [request[1], request[2], request[3]]
                && (request[1] ==> rdata == chain.answer[3..])
                && (!request[1] ==> chain.dr[index + 3..index + 35] == wdata)
    {
      hide Shifting, Exited, Clock, Captured, BypassedBut, Positions, Lengths, Ack, SumTo;
      ghost var sent;
      rdata := wdata;
      AckMeans(chain.answer);
      DeviceCount();
      CapturedLayout(chain.irs, index, chain.answer);
      ghost var captured := EnterShiftDr();
      AnswerAt(captured, index, chain.answer);
      ack, sent := ShiftRequest(request, captured);
      ghost var head := sent;
      if ack != OK {
        var _, s := ExitShift(ShiftDr, captured, sent);
        sent := s;
      } else if request[1] {
        rdata, sent := ReadData(|irLength| - index - 1, captured, sent);
        PrefixSlice(head, sent, index);
      } else {
        sent := WriteData(wdata, |irLength| - index - 1, captured, sent);
        PrefixSlice(head, sent, index);
      }
      EndDr(captured, sent);
      Idle();
    }

    lemma DeviceCount()
      requires Configured() && BypassedBut(chain.irs, index)
      ensures |irLength| == |chain.irs| && index < |irLength|
    {}

    /** DAP_JTAG_Configure, JTAG_IR and JTAG_Transfer one after the other, on a chain
        that is as it was configured: the indexed device is accessed, whatever
        instructions the chain held before. */
    method Access(lengths: seq<nat>, ap: bool, request: Bits32, wdata: Bits32) returns (ack: nat, rdata: Bits32)
      requires |lengths| <= 8 && Lengths(chain.irs, lengths) && index < |lengths| && lengths[index] >= 3
      requires chain.state == RunTestIdle && |chain.answer| == 35
      modifies `irLength, `irBefore, `irAfter, `chain, `ticks, `tms, `tdi
      ensures ticks == old(ticks) + 6 + TotalLen(old(chain.irs)) + idleCycles + if ack == OK then |lengths| + 39 else index + 9
      ensures chain.state == RunTestIdle && chain.answer == old(chain.answer) && BypassedBut(chain.irs, index)
      ensures chain.irs[index] == LowBits(if ap then APACC else DPACC, lengths[index]) && ack == Ack(chain.answer)
      ensures (ack == 1 <==> chain.answer[..3] == [false, true, false]) && (ack == 2 <==> chain.answer[..3] == [true, false, false])
      ensures ack == OK ==>
                chain.shifts == index + 35 + (|lengths| - index - 1) == |chain.dr|
                && chain.dr[index..index + 3] == [request[1], request[2], request[3]]
                && (request[1] ==> rdata == chain.answer[3..])
                && (!request[1] ==> chain.dr[index + 3..index + 35] == wdata)
    {
      hide Positions, LowBits, Captured, Clock;
      Configure(lengths);
      AccessIsNotBypass(lengths[index]);
      SetIr(if ap then APACC else DPACC);
      ack, rdata := Transfer(request, wdata);
    }

    /** The end of a data scan: a full scan moves exactly what was sent. */
    method EndDr(ghost captured: seq<bool>, ghost sent: seq<bool>)
      requires Exited(Exit1Dr, captured, sent)
      modifies `chain, `ticks, `tms, `tdi
      ensures ticks == old(ticks) + 2
      ensures chain.state == RunTestIdle && !tms && tdi && chain.shifts == |sent|
      ensures chain.irs == old(chain.irs) && chain.answer == old(chain.answer)
      ensures |sent| == |captured| ==> chain.dr == sent
    {
      ToIdle();
      tdi := true;
      assert |sent| == |captured| ==> captured[|sent|..] + sent == sent;
    }

    method Idle()
      requires chain.state == RunTestIdle && !tms
      modifies `chain, `ticks
      ensures ticks == old(ticks) + idleCycles
      ensures chain == old(chain)
    {
      var n: nat := idleCycles;
      while n > 0
        invariant n <= idleCycles && chain == old(chain) && ticks == old(ticks) + idleCycles - n
      {
        CycleTck();
        n := n - 1;
      }
    }

    /** JTAG_ReadIDCode: the 32 bits of the device's identification register. */
    method ReadIdCode() returns (val: Bits32)
      requires chain.state == RunTestIdle && BypassedBut(chain.irs, index) && |chain.answer| == 32
      modifies `chain, `ticks, `tms, `tdi
      ensures ticks == old(ticks) + index + 37
      ensures chain.state == RunTestIdle && chain.irs == old(chain.irs) && tdi == old(tdi)
      ensures val == old(chain.answer) && chain.shifts == index + 32
    {
      hide Shifting, Clock, Captured, TakenIn, Repeat;
      CapturedLayout(chain.irs, index, chain.answer);
      ghost var answer := chain.answer;
      ghost var captured := EnterShiftDr();
      ghost var sent := Hold(index, ShiftDr, captured, []);
      val, sent := ShiftIn(31, captured, sent);
      var bit, s := ExitShift(ShiftDr, captured, sent);
      assert captured[index..index + 31] + [bit] == captured[index..index + 32];
      TakenInLast(captured[index..index + 31], bit);
      val := val[31 := val[31] || bit];
      ToIdle();
    }

    /** JTAG_WriteAbort: a write of `data` to address 0, whatever is acknowledged. */
    method WriteAbort(data: Bits32)
      requires Configured() && chain.state == RunTestIdle && BypassedBut(chain.irs, index) && |chain.answer| == 35
      modifies `chain, `ticks, `tms, `tdi
      ensures ticks == old(ticks) + |irLength| + 39
      ensures chain.state == RunTestIdle && chain.irs == old(chain.irs)
      ensures chain.shifts == index + 35 + (|irLength| - index - 1) == |chain.dr|
      ensures chain.dr[index..index + 3] == [false, false, false] && chain.dr[index + 3..index + 35] == data
    {
      hide Shifting, Exited, Clock, Captured, BypassedBut, Positions, Lengths, Repeat, SumTo;
      DeviceCount();
      CapturedLayout(chain.irs, index, chain.answer);
      ghost var captured := EnterShiftDr();
      ghost var sent := Hold(index, ShiftDr, captured, []);
      ghost var before := sent;
      tdi := false;
      sent := Hold(3, ShiftDr, captured, sent);
      ThreeZeros(before);
      ghost var head := sent;
      sent := WriteData(data, |irLength| - index - 1, captured, sent);
      PrefixSlice(head, sent, index);
      EndDr(captured, sent);
    }
  }

  lemma ThreeMore(head: seq<bool>, a: bool, b: bool, c: bool)
    ensures (head + [a] + [b] + [c])[|head|..] == [a, b, c]
  {}

  lemma ThreeZeros(head: seq<bool>)
    ensures (head + Repeat(false, 3))[|head|..] == [false, false, false]
  {}

  lemma PrefixSlice(head: seq<bool>, s: seq<bool>, i: nat)
    requires head <= s && i <= |head|
    ensures s[i..|head|] == head[i..]
  {}

  lemma WordSent(sent: seq<bool>, w: Bits32, last: bool, rest: seq<bool>)
    requires last == w[31]
    ensures var s := sent + LowBits(w, 31) + [last] + rest; sent <= s && s[|sent|..|sent| + 32] == w
  {
    LowBitsSnoc(w, 31, last);
    assert LowBits(w, 32) == w;
  }

  lemma NothingTakenIn()
    ensures TakenIn([]) == Repeat(false, 32)
  {}

  /** A word that took in `bits` at the top, one after the other. */
  function TakenIn(bits: seq<bool>): Bits32
    requires |bits| <= 31
  {
    Repeat(false, 31 - |bits|) + bits + [false]
  }

  lemma TakenInNext(captured: seq<bool>, k: nat, n: nat)
    requires n < 31 && k + n < |captured|
    ensures var val := TakenIn(captured[k..k + n]);
            TakenIn(captured[k..k + n + 1]) == ShiftRight(val[31 := val[31] || captured[k + n]])
  {
    assert captured[k..k + n + 1] == captured[k..k + n] + [captured[k + n]];
  }

  lemma TakenInLast(bits: seq<bool>, bit: bool)
    requires |bits| == 31
    ensures var val := TakenIn(bits); val[31 := val[31] || bit] == bits + [bit]
  {}

  lemma AnswerAt(captured: seq<bool>, index: nat, answer: seq<bool>)
    requires |answer| == 35 && index + 35 <= |captured| && captured[index..index + 35] == answer
    ensures captured[index + 3..index + 35] == answer[3..]
    ensures Ack(captured[index..index + 3]) == Ack(answer)
  {
    assert captured[index..index + 3] == answer[..3];
  }

  /** TMS 1, 1, 0, 0 leads from Run-Test/Idle to Shift-IR. */
  lemma SelectsIr(c: Chain, tdi: bool)
    requires c.state == RunTestIdle
    ensures var c2 := Clock(Clock(c, true, tdi), true, tdi);
            var c4 := Clock(Clock(c2, false, tdi), false, tdi);
            c4.state == ShiftIr && c4.shifts == 0 && |c4.reg| == TotalLen(c.irs) && c4.irs == c.irs && c4.answer == c.answer
  {
    hide Update, Captured, TotalLen;
    var c2 := Clock(Clock(c, true, tdi), true, tdi);
    assert c2 == c.(state := SelectIr);
    CapturesIr(c2, tdi);
  }

  lemma CapturesIr(c: Chain, tdi: bool)
    requires c.state == SelectIr
    ensures var c2 := Clock(Clock(c, false, tdi), false, tdi);
            c2.state == ShiftIr && c2.shifts == 0 && |c2.reg| == TotalLen(c.irs) && c2.irs == c.irs && c2.answer == c.answer
  {
    hide Update, Captured, TotalLen;
  }
}
