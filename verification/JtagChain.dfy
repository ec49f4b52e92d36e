/** A chain of JTAG devices seen from the pins: the TAP controllers move in step,
    the shift registers form one long register with device 0 at TDO. Section 6.1
    of IEEE Std 1149.1-2001 gives the controller. */
module JtagChain {
  import opened Seqs

  datatype TapState = TestLogicReset | RunTestIdle | SelectDr | CaptureDr | ShiftDr | Exit1Dr | PauseDr | Exit2Dr
                    | UpdateDr | SelectIr | CaptureIr | ShiftIr | Exit1Ir | PauseIr | Exit2Ir | UpdateIr

  function NextState(s: TapState, tms: bool): TapState {
    match s
    case TestLogicReset => if tms then TestLogicReset else RunTestIdle
    case RunTestIdle => if tms then SelectDr else RunTestIdle
    case SelectDr => if tms then SelectIr else CaptureDr
    case CaptureDr => if tms then Exit1Dr else ShiftDr
    case ShiftDr => if tms then Exit1Dr else ShiftDr
    case Exit1Dr => if tms then UpdateDr else PauseDr
    case PauseDr => if tms then Exit2Dr else PauseDr
    case Exit2Dr => if tms then UpdateDr else ShiftDr
    case UpdateDr => if tms then SelectDr else RunTestIdle
    case SelectIr => if tms then TestLogicReset else CaptureIr
    case CaptureIr => if tms then Exit1Ir else ShiftIr
    case ShiftIr => if tms then Exit1Ir else ShiftIr
    case Exit1Ir => if tms then UpdateIr else PauseIr
    case PauseIr => if tms then Exit2Ir else PauseIr
    case Exit2Ir => if tms then UpdateIr else ShiftIr
    case UpdateIr => if tms then SelectDr else RunTestIdle
  }

  /** `reg` is the register between TDI and TDO, `irs` the loaded instructions,
      `dr` what the last Update-DR moved, `shifts` the shifts of the current scan,
      `answer` what the device that is not bypassed will capture next. */
  datatype Chain = Chain(state: TapState, reg: seq<bool>, irs: seq<seq<bool>>, dr: seq<bool>, shifts: nat, answer: seq<bool>)

  function Ones(n: nat): (s: seq<bool>)
    ensures |s| == n && forall i :: 0 <= i < n ==> s[i]
  {
    seq(n, _ => true)
  }

  /** An instruction of all ones selects the one-bit bypass register. */
  predicate AllOnes(ir: seq<bool>) {
    forall i :: 0 <= i < |ir| ==> ir[i]
  }

  /** Capture-DR: a bypassed device captures 0. */
  function Captured(irs: seq<seq<bool>>, answer: seq<bool>): seq<bool> {
    if irs == [] then [] else (if AllOnes(irs[0]) then [false] else answer) + Captured(irs[1..], answer)
  }

  function TotalLen(irs: seq<seq<bool>>): nat {
    if irs == [] then 0 else |irs[0]| + TotalLen(irs[1..])
  }

  /** Update-IR: every device takes its own stretch of the register. */
  function Update(irs: seq<seq<bool>>, reg: seq<bool>): (r: seq<seq<bool>>)
    requires |reg| == TotalLen(irs)
    ensures |r| == |irs|
  {
    if irs == [] then [] else [reg[..|irs[0]|]] + Update(irs[1..], reg[|irs[0]|..])
  }

  /** One rising edge of TCK. What Capture-IR loads does not matter: all of it is shifted out. */
  function Clock(c: Chain, tms: bool, tdi: bool): Chain {
    var c1 := match c.state
      case CaptureDr => c.(reg := Captured(c.irs, c.answer), shifts := 0)
      case CaptureIr => c.(reg := Ones(TotalLen(c.irs)), shifts := 0)
      case ShiftDr => c.(reg := if c.reg == [] then [] else c.reg[1..] + [tdi], shifts := c.shifts + 1)
      case ShiftIr => c.(reg := if c.reg == [] then [] else c.reg[1..] + [tdi], shifts := c.shifts + 1)
      case _ => c;
    var c2 := c1.(state := NextState(c.state, tms));
    if c2.state == UpdateIr && |c2.reg| == TotalLen(c2.irs) then c2.(irs := Update(c2.irs, c2.reg))
    else if c2.state == UpdateDr then c2.(dr := c2.reg)
    else c2
  }

  function Tdo(c: Chain): bool {
    c.reg != [] && c.reg[0]
  }

  /** Only device `index` is not bypassed. */
  ghost predicate BypassedBut(irs: seq<seq<bool>>, index: nat) {
    index < |irs| && !AllOnes(irs[index]) && forall j :: 0 <= j < |irs| && j != index ==> AllOnes(irs[j])
  }

  lemma {:induction false} CapturedAllBypassed(irs: seq<seq<bool>>, answer: seq<bool>)
    requires forall j :: 0 <= j < |irs| ==> AllOnes(irs[j])
    ensures |Captured(irs, answer)| == |irs|
  {
    if irs != [] {
      CapturedAllBypassed(irs[1..], answer);
    }
  }

  /** The data register of the chain: one bit per bypassed device, the answer in its place. */
  lemma {:induction false} CapturedLayout(irs: seq<seq<bool>>, index: nat, answer: seq<bool>)
    requires BypassedBut(irs, index)
    ensures var reg := Captured(irs, answer);
            |reg| == |irs| - 1 + |answer| && reg[index..index + |answer|] == answer
  {
    if index == 0 {
      CapturedAllBypassed(irs[1..], answer);
    } else {
      assert irs[1..][index - 1] == irs[index];
      CapturedLayout(irs[1..], index - 1, answer);
    }
  }

  /** The bits of the first `n` devices. */
  function SumTo(lens: seq<nat>, n: nat): nat
    requires n <= |lens|
  {
    if n == 0 then 0 else SumTo(lens, n - 1) + lens[n - 1]
  }

  lemma SumNone(lens: seq<nat>)
    ensures SumTo(lens, 0) == 0
  {}

  lemma SumNext(lens: seq<nat>, n: nat)
    requires n < |lens|
    ensures SumTo(lens, n + 1) == SumTo(lens, n) + lens[n]
  {}

  lemma {:induction false} SumTail(lens: seq<nat>, n: nat)
    requires 0 < n <= |lens|
    ensures SumTo(lens, n) == lens[0] + SumTo(lens[1..], n - 1)
  {
    if n > 1 {
      SumTail(lens, n - 1);
    }
  }

  ghost predicate Lengths(irs: seq<seq<bool>>, lens: seq<nat>) {
    |irs| == |lens| && forall j :: 0 <= j < |irs| ==> |irs[j]| == lens[j]
  }

  lemma {:induction false} TotalIsSum(irs: seq<seq<bool>>, lens: seq<nat>)
    requires Lengths(irs, lens)
    ensures TotalLen(irs) == SumTo(lens, |lens|)
  {
    if irs != [] {
      TotalIsSum(irs[1..], lens[1..]);
      SumTail(lens, |lens|);
    }
  }

  lemma UpdateNext(irs: seq<seq<bool>>, reg: seq<bool>, j: nat)
    requires 0 < j < |irs| && |reg| == TotalLen(irs)
    ensures |reg| >= |irs[0]| && |reg[|irs[0]|..]| == TotalLen(irs[1..])
    ensures Update(irs, reg)[j] == Update(irs[1..], reg[|irs[0]|..])[j - 1]
  {}

  lemma UpdateFirst(irs: seq<seq<bool>>, reg: seq<bool>)
    requires irs != [] && |reg| == TotalLen(irs)
    ensures |reg| == |irs[0]| + TotalLen(irs[1..]) && Update(irs, reg)[0] == reg[..|irs[0]|]
  {}

  /** Device `j` gets the bits after those of the devices before it. */
  lemma {:induction false} UpdatedAt(irs: seq<seq<bool>>, lens: seq<nat>, reg: seq<bool>, j: nat)
    requires Lengths(irs, lens) && |reg| == TotalLen(irs) && j < |irs|
    ensures SumTo(lens, j) + lens[j] <= |reg|
    ensures Update(irs, reg)[j] == reg[SumTo(lens, j)..SumTo(lens, j) + lens[j]]
  {
    hide Update, SumTo, TotalLen;
    UpdateFirst(irs, reg);
    if j > 0 {
      var rest, s := reg[lens[0]..], SumTo(lens[1..], j - 1);
      UpdatedAt(irs[1..], lens[1..], rest, j - 1);
      SumTail(lens, j);
      UpdateNext(irs, reg, j);
      SliceOfSlice(reg, lens[0], s, lens[j]);
    } else {
      SumNone(lens);
    }
  }

  lemma {:induction false} SumMonotone(lens: seq<nat>, i: nat, j: nat)
    requires i <= j <= |lens|
    ensures SumTo(lens, i) <= SumTo(lens, j)
    decreases j
  {
    if i < j {
      SumMonotone(lens, i, j - 1);
    }
  }

  /** An instruction between ones reaches its device; all others are bypassed. */
  lemma UpdateSelects(irs: seq<seq<bool>>, lens: seq<nat>, index: nat, ir: seq<bool>, after: nat)
    requires Lengths(irs, lens) && index < |irs| && |ir| == lens[index]
    requires SumTo(lens, index) + |ir| + after == TotalLen(irs)
    ensures var irs' := Update(irs, Ones(SumTo(lens, index)) + ir + Ones(after));
            Lengths(irs', lens) && irs'[index] == ir
            && forall j :: 0 <= j < |irs'| && j != index ==> AllOnes(irs'[j])
  {
    var reg := Ones(SumTo(lens, index)) + ir + Ones(after);
    forall j | 0 <= j < |irs|
      ensures |Update(irs, reg)[j]| == lens[j]
      ensures if j == index then Update(irs, reg)[j] == ir else AllOnes(Update(irs, reg)[j])
    {
      UpdatedAt(irs, lens, reg, j);
      if j < index {
        SumMonotone(lens, j + 1, index);
      } else if j > index {
        SumMonotone(lens, index + 1, j);
      }
    }
  }
}
