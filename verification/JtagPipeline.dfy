/** Pipelined DAP_JTAG_Transfer against a debug port on a scan chain, where every
    scan returns the result of the access before it and the loaded instruction
    decides whether DP or AP is meant. */
module JtagPipeline {
  import opened Seqs
  import opened Words
  import opened DapEngine
  import opened JtagTransfer

  /** Registers behind the port: reads and writes of AP (true) or DP (false) at
      an address 0..3, what a scan after a write or an RDBUFF read returns, and
      the timestamp after an access. */
  datatype Target<!T> = Target(read: (T, bool, byte) -> (T, u32), write: (T, bool, byte, u32) -> T,
                               idle: T -> u32, stamp: (T, byte) -> u32)

  datatype Port<T> = Port(t: T, result: u32, ir: byte)

  function Addr(v: byte): byte {
    (v / 4) % 4
  }

  /** What the loaded instruction makes of the access bits: the registers after it, and its result. */
  function Effect<T>(tg: Target<T>, t: T, ap: bool, req: byte, wdata: u32): (T, u32) {
    if !IsRead(req) then
      var t' := tg.write(t, ap, Addr(req), wdata);
      (t', tg.idle(t'))
    else if !ap && Addr(req) == 3 then (t, tg.idle(t))
    else tg.read(t, ap, Addr(req))
  }

  function PortDevice<T>(tg: Target<T>): Device<Port<T>> {
    Device((p: Port<T>, a: Access) =>
             var (t, v) := Effect(tg, p.t, p.ir == APACC, a.req, a.wdata);
             Reply(Port(t, v, p.ir), ACK_OK, p.result, tg.stamp(t, a.req), false),
           (p: Port<T>, ir: byte) => p.(ir := ir))
  }

  ghost predicate Plain(rs: seq<Req>) {
    forall i :: 0 <= i < |rs| ==> !(IsRead(rs[i].v) && HasValue(rs[i].v))
  }

  function StampBytes<T>(tg: Target<T>, t: T, v: byte): seq<byte> {
    if IsStamped(v) then Word(tg.stamp(t, v)) else []
  }

  // ---- one access at a time ----

  /** A read is posted, and its result fetched at once by reading RDBUFF. */
  function Naive<T>(tg: Target<T>, cfg: Config, st: State<Port<T>>, r: Req): State<Port<T>> {
    var dev := PortDevice(tg);
    if IsRead(r.v) then
      PutData(FetchPosted(dev, cfg, PutStamp(Do(dev, cfg, Select(dev, st, IrFor(r.v)), r.v, false), r.v)))
    else if HasMask(r.v) then st.(mask := r.arg)
    else PutStamp(Do(dev, cfg, Select(dev, st.(data := r.arg), IrFor(r.v)), r.v, false), r.v)
  }

  function NaiveAll<T>(tg: Target<T>, cfg: Config, st: State<Port<T>>, rs: seq<Req>): State<Port<T>>
    decreases |rs|
  {
    if rs == [] then st else NaiveAll(tg, cfg, Naive(tg, cfg, st, rs[0]), rs[1..])
  }

  /** One request answered by the registers themselves: its timestamp, then its word. */
  function Answered<T>(tg: Target<T>, t: T, r: Req): (T, seq<byte>) {
    if !IsRead(r.v) && HasMask(r.v) then (t, [])
    else
      var (t', v) := Effect(tg, t, IsAp(r.v), r.v, r.arg);
      (t', StampBytes(tg, t', r.v) + if IsRead(r.v) then Word(v) else [])
  }

  function Payload<T>(tg: Target<T>, t: T, rs: seq<Req>): seq<byte>
    decreases |rs|
  {
    if rs == [] then [] else Answered(tg, t, rs[0]).1 + Payload(tg, Answered(tg, t, rs[0]).0, rs[1..])
  }

  // ---- one access ----

  /** The cache is right, and nothing has gone wrong. */
  ghost predicate Sound<T>(st: State<Port<T>>) {
    (st.ir != 0 ==> st.w.s.ir == st.ir) && st.ok && !st.w.aborted
  }

  lemma SelectDo<T>(tg: Target<T>, cfg: Config, st: State<Port<T>>, req: byte, capture: bool)
    requires Sound(st)
    ensures var st1 := Do(PortDevice(tg), cfg, Select(PortDevice(tg), st, IrFor(req)), req, capture);
            var (t, v) := Effect(tg, st.w.s.t, IsAp(req), req, st.data);
            Sound(st1) && st1.ir == IrFor(req) && st1.w.s == Port(t, v, st1.ir)
            && st1 == st.(w := st1.w, ir := st1.ir, value := ACK_OK, data := if capture then st.w.s.result else st.data)
            && (IsStamped(req) ==> st1.w.stamp == tg.stamp(t, req))
  {}

  /** Reading does not depend on the data variable. */
  lemma EffectOfRead<T>(tg: Target<T>, t: T, ap: bool, req: byte, a: u32, b: u32)
    requires IsRead(req)
    ensures Effect(tg, t, ap, req, a) == Effect(tg, t, ap, req, b)
  {}

  lemma NaiveRead<T>(tg: Target<T>, cfg: Config, n: State<Port<T>>, r: Req)
    requires Sound(n) && IsRead(r.v)
    ensures var n1, (t, v) := Naive(tg, cfg, n, r), Effect(tg, n.w.s.t, IsAp(r.v), r.v, r.arg);
            Sound(n1) && n1.w.s.t == t && n1.mask == n.mask
            && n1.out == n.out + StampBytes(tg, t, r.v) + Word(v)
  {
    hide Do, Select;
    SelectDo(tg, cfg, n, r.v, false);
    EffectOfRead(tg, n.w.s.t, IsAp(r.v), r.v, n.data, r.arg);
    var n1 := PutStamp(Do(PortDevice(tg), cfg, Select(PortDevice(tg), n, IrFor(r.v)), r.v, false), r.v);
    SelectDo(tg, cfg, n1, RDBUFF, true);
    assert n.out + [] == n.out;
    assert Naive(tg, cfg, n, r) == PutData(FetchPosted(PortDevice(tg), cfg, n1));
  }

  lemma NaiveWrite<T>(tg: Target<T>, cfg: Config, n: State<Port<T>>, r: Req)
    requires Sound(n) && !IsRead(r.v) && !HasMask(r.v)
    ensures var n1, (t, v) := Naive(tg, cfg, n, r), Effect(tg, n.w.s.t, IsAp(r.v), r.v, r.arg);
            Sound(n1) && n1.w.s.t == t && n1.mask == n.mask && n1.out == n.out + StampBytes(tg, t, r.v)
  {
    hide Do, Select, Effect;
    SelectDo(tg, cfg, n.(data := r.arg), r.v, false);
    assert n.out + [] == n.out;
  }

  // ---- the pipeline ----

  /** Same registers; the naive command is ahead by the posted word. */
  ghost predicate InStep<T>(st: State<Port<T>>, n: State<Port<T>>) {
    Sound(st) && Sound(n) && st.w.s.t == n.w.s.t && st.mask == n.mask && (st.post ==> st.ir != 0)
    && n.out == if st.post then st.out + Word(st.w.s.result) else st.out
  }

  lemma RowStep<T>(tg: Target<T>, cfg: Config, st: State<Port<T>>, n: State<Port<T>>, r: Req)
    requires InStep(st, n) && st.post && IsRead(r.v) && st.ir == IrFor(r.v) && !HasValue(r.v)
    ensures var st1 := ReadPosted(PortDevice(tg), cfg, st, r.v);
            InStep(st1, Naive(tg, cfg, n, r)) && st1.post && st1.value == ACK_OK && st1.count == st.count
  {
    hide Naive, Do, Effect;
    SelectDo(tg, cfg, st, r.v, true);
    EffectOfRead(tg, st.w.s.t, IsAp(r.v), r.v, st.data, r.arg);
    NaiveRead(tg, cfg, n, r);
    assert st.out + Word(st.w.s.result) + [] == st.out + Word(st.w.s.result);
    assert ReadPosted(PortDevice(tg), cfg, st, r.v) == PutStamp(PutData(Do(PortDevice(tg), cfg, st, r.v, true)), r.v);
  }

  lemma SettleStep<T>(tg: Target<T>, cfg: Config, st: State<Port<T>>, n: State<Port<T>>, v: byte)
    requires InStep(st, n) && st.post && !(st.ir == IrFor(v) && !HasValue(v))
    ensures var st1 := ReadPosted(PortDevice(tg), cfg, st, v); InStep(st1, n) && !st1.post && st1.count == st.count
  {
    hide Do, Select;
    SelectDo(tg, cfg, st, RDBUFF, true);
  }

  lemma LevelReadStep<T>(tg: Target<T>, cfg: Config, st: State<Port<T>>, n: State<Port<T>>, r: Req)
    requires InStep(st, n) && !st.post && IsRead(r.v)
    ensures InStep(PlainRead(PortDevice(tg), cfg, st, r.v), Naive(tg, cfg, n, r))
    ensures var st1 := PlainRead(PortDevice(tg), cfg, st, r.v); st1.value == ACK_OK && st1.count == st.count
  {
    hide Naive, Do, Select, Effect;
    SelectDo(tg, cfg, st, r.v, false);
    EffectOfRead(tg, st.w.s.t, IsAp(r.v), r.v, st.data, r.arg);
    NaiveRead(tg, cfg, n, r);
    assert st.out + [] == st.out;
  }

  lemma ReadStep<T>(tg: Target<T>, cfg: Config, st: State<Port<T>>, n: State<Port<T>>, r: Req)
    requires InStep(st, n) && IsRead(r.v) && !HasValue(r.v)
    ensures InStep(Read(PortDevice(tg), cfg, st, r), Naive(tg, cfg, n, r))
    ensures var st1 := Read(PortDevice(tg), cfg, st, r); st1.value == ACK_OK && st1.count == st.count
  {
    hide ReadPosted, Naive, PortDevice, Do;
    if st.post && st.ir == IrFor(r.v) {
      RowStep(tg, cfg, st, n, r);
    } else {
      var st1 := st;
      if st.post {
        SettleStep(tg, cfg, st, n, r.v);
        st1 := ReadPosted(PortDevice(tg), cfg, st, r.v);
      }
      LevelReadStep(tg, cfg, st1, n, r);
    }
  }

  lemma DrainStep<T>(tg: Target<T>, cfg: Config, st: State<Port<T>>, n: State<Port<T>>)
    requires InStep(st, n)
    ensures var st1 := Drain(PortDevice(tg), cfg, st); InStep(st1, n) && !st1.post && st1.count == st.count
  {
    hide Do, Select;
    SelectDo(tg, cfg, st, RDBUFF, true);
  }

  lemma WriteStep<T>(tg: Target<T>, cfg: Config, st: State<Port<T>>, n: State<Port<T>>, r: Req)
    requires InStep(st, n) && !IsRead(r.v)
    ensures InStep(Write(PortDevice(tg), cfg, st, r), Naive(tg, cfg, n, r))
    ensures var st1 := Write(PortDevice(tg), cfg, st, r); st1.value == ACK_OK && st1.count == st.count
  {
    hide Do, Select, Drain, Effect;
    DrainStep(tg, cfg, st, n);
    var st1 := Drain(PortDevice(tg), cfg, st);
    if !HasMask(r.v) {
      SelectDo(tg, cfg, st1.(data := r.arg), r.v, false);
      NaiveWrite(tg, cfg, n, r);
      assert st1.out + [] == st1.out;
    }
  }

  lemma RequestStep<T>(tg: Target<T>, cfg: Config, st: State<Port<T>>, n: State<Port<T>>, r: Req)
    requires InStep(st, n) && !(IsRead(r.v) && HasValue(r.v))
    ensures var st1 := Request(PortDevice(tg), cfg, st, r);
            InStep(st1, Naive(tg, cfg, n, r)) && st1.value == ACK_OK && st1.count == st.count + 1
  {
    hide Read, Write, Naive;
    if IsRead(r.v) {
      ReadStep(tg, cfg, st, n, r);
    } else {
      WriteStep(tg, cfg, st, n, r);
    }
  }

  lemma {:induction false} RequestsStep<T>(tg: Target<T>, cfg: Config, st: State<Port<T>>, n: State<Port<T>>, rs: seq<Req>)
    requires InStep(st, n) && Plain(rs)
    ensures var st1 := Requests(PortDevice(tg), cfg, st, rs);
            InStep(st1, NaiveAll(tg, cfg, n, rs)) && st1.count == st.count + |rs|
            && (rs != [] ==> st1.value == ACK_OK) && (rs == [] ==> st1 == st)
    decreases |rs|
  {
    hide Request, Naive, PortDevice;
    if rs != [] {
      RequestStep(tg, cfg, st, n, rs[0]);
      RequestsStep(tg, cfg, Request(PortDevice(tg), cfg, st, rs[0]), Naive(tg, cfg, n, rs[0]), rs[1..]);
    }
  }

  lemma FinishStep<T>(tg: Target<T>, cfg: Config, st: State<Port<T>>, n: State<Port<T>>)
    requires InStep(st, n) && st.value == ACK_OK
    ensures var st1 := Finish(PortDevice(tg), cfg, st);
            st1.w.s.t == n.w.s.t && st1.out == n.out && st1.mask == n.mask && st1.count == st.count && st1.value == ACK_OK
  {
    hide Do, Select;
    SelectDo(tg, cfg, st, RDBUFF, true);
    SelectDo(tg, cfg, st, RDBUFF, false);
  }

  /** On lists without value match the pipelined command returns byte for byte
      what the executor returns that fetches every read at once. */
  lemma PipelineIsNaive<T>(tg: Target<T>, cfg: Config, w: Wire<Port<T>>, mask: u32, rs: seq<Req>)
    requires Plain(rs) && rs != []
    ensures var st, n := Transfer(PortDevice(tg), cfg, w, mask, rs), NaiveAll(tg, cfg, Start(w, mask), rs);
            Response(st) == [|rs| % 0x100, ACK_OK] + n.out && st.w.s.t == n.w.s.t && st.mask == n.mask
  {
    hide Requests, Finish, NaiveAll, PortDevice;
    var n := NaiveAll(tg, cfg, Start(w, mask), rs);
    RequestsStep(tg, cfg, Start(w, mask), Start(w, mask), rs);
    FinishStep(tg, cfg, Requests(PortDevice(tg), cfg, Start(w, mask), rs), n);
  }

  lemma NaiveAnswers<T>(tg: Target<T>, cfg: Config, n: State<Port<T>>, r: Req)
    requires Sound(n)
    ensures var n1, (t, bytes) := Naive(tg, cfg, n, r), Answered(tg, n.w.s.t, r);
            Sound(n1) && n1.w.s.t == t && n1.out == n.out + bytes
  {
    hide Effect, Do, Select;
    if IsRead(r.v) {
      NaiveRead(tg, cfg, n, r);
    } else if !HasMask(r.v) {
      NaiveWrite(tg, cfg, n, r);
    }
    assert n.out + [] == n.out;
  }

  /** And the payload is what the registers themselves answer, in order. */
  lemma {:induction false} NaiveReadsRegisters<T>(tg: Target<T>, cfg: Config, n: State<Port<T>>, rs: seq<Req>)
    requires Sound(n)
    ensures NaiveAll(tg, cfg, n, rs).out == n.out + Payload(tg, n.w.s.t, rs)
    decreases |rs|
  {
    hide Naive, Answered, Sound;
    if rs == [] {
      assert n.out + [] == n.out;
    } else {
      var (t, bytes) := Answered(tg, n.w.s.t, rs[0]);
      NaiveAnswers(tg, cfg, n, rs[0]);
      NaiveReadsRegisters(tg, cfg, Naive(tg, cfg, n, rs[0]), rs[1..]);
      Assoc(n.out, bytes, Payload(tg, t, rs[1..]));
    }
  }

  lemma PipelineReadsRegisters<T>(tg: Target<T>, cfg: Config, w: Wire<Port<T>>, mask: u32, rs: seq<Req>)
    requires Plain(rs) && rs != []
    ensures Response(Transfer(PortDevice(tg), cfg, w, mask, rs)) == [|rs| % 0x100, ACK_OK] + Payload(tg, w.s.t, rs)
  {
    hide Transfer, NaiveAll, PortDevice;
    PipelineIsNaive(tg, cfg, w, mask, rs);
    NaiveReadsRegisters(tg, cfg, Start(w, mask), rs);
    assert [] + Payload(tg, w.s.t, rs) == Payload(tg, w.s.t, rs);
  }
}
