/** Posted AP reads of DAP_SWD_Transfer against a debug port where an AP read
    returns the result of the previous one: the pipelined list of accesses
    answers as if every AP read were followed by a read of RDBUFF. */
module SwdPipeline {
  import opened Seqs
  import opened Words
  import opened DapEngine
  import opened SwdTransfer

  /** Registers behind the port, with state `T`: what reads return and change,
      what writes change, what an access other than an AP read does to the
      posted result, and what the timestamp reads after an access. */
  datatype Target<!T> = Target(apRead: (T, byte) -> (T, u32), dpRead: (T, byte) -> (T, u32),
                               write: (T, byte, u32) -> T, clobber: (T, u32) -> u32, stamp: (T, byte) -> u32)

  /** The port: the registers and the result of the last AP read. */
  datatype Port<T> = Port(t: T, posted: u32)

  predicate IsRdbuff(v: byte) {
    v % 16 == RDBUFF as int
  }

  function Answer<T>(tg: Target<T>, p: Port<T>, a: Access): (Port<T>, u32) {
    if !IsRead(a.req) then
      var t := tg.write(p.t, a.req % 16, a.wdata);
      (Port(t, tg.clobber(t, p.posted)), 0)
    else if IsAp(a.req) then
      var (t, v) := tg.apRead(p.t, a.req % 16);
      (Port(t, v), p.posted)
    else if IsRdbuff(a.req) then (p, p.posted)
    else
      var (t, v) := tg.dpRead(p.t, a.req % 16);
      (Port(t, tg.clobber(t, p.posted)), v)
  }

  /** A port that acknowledges everything. */
  function PortDevice<T>(tg: Target<T>): Device<Port<T>> {
    Device((p: Port<T>, a: Access) =>
             var (p', v) := Answer(tg, p, a);
             Reply(p', ACK_OK, v, tg.stamp(p'.t, a.req), false),
           (p: Port<T>, ir: byte) => p)
  }

  /** Plain reads, writes and match-mask writes. */
  ghost predicate Plain(rs: seq<Req>) {
    forall i :: 0 <= i < |rs| ==> !(IsRead(rs[i].v) && HasValue(rs[i].v))
  }

  // ---- one access at a time ----

  /** An AP read is posted, and its result fetched at once. */
  function Naive<T>(tg: Target<T>, cfg: Config, st: State<Port<T>>, r: Req): State<Port<T>> {
    var dev := PortDevice(tg);
    if IsRead(r.v) && IsAp(r.v) then
      var st1 := PutStamp(Do(dev, cfg, st, r.v, false), r.v);
      PutData(Do(dev, cfg, st1, RDBUFF, true))
    else if IsRead(r.v) then PutData(PutStamp(Do(dev, cfg, st, r.v, true), r.v))
    else if HasMask(r.v) then st.(mask := r.arg)
    else PutStamp(Do(dev, cfg, st.(data := r.arg), r.v, false), r.v)
  }

  function NaiveAll<T>(tg: Target<T>, cfg: Config, st: State<Port<T>>, rs: seq<Req>): State<Port<T>>
    decreases |rs|
  {
    if rs == [] then st else NaiveAll(tg, cfg, Naive(tg, cfg, st, rs[0]), rs[1..])
  }

  // ---- the pipeline ----

  lemma DoAnswers<T>(tg: Target<T>, cfg: Config, st: State<Port<T>>, req: byte, capture: bool)
    ensures var st1, (p, v) := Do(PortDevice(tg), cfg, st, req, capture), Answer(tg, st.w.s, Access(req, st.data));
            st1 == st.(w := st1.w, value := ACK_OK, ok := true, data := if capture then v else st.data)
            && st1.w.s == p && st1.w.aborted == st.w.aborted
            && (IsStamped(req) ==> st1.w.stamp == tg.stamp(p.t, req))
  {}

  /** The pipelined and the naive command after the same requests: the same
      port, and the naive one is ahead by the posted word. */
  ghost predicate InStep<T>(st: State<Port<T>>, n: State<Port<T>>) {
    st.w.s == n.w.s && st.ok && !st.w.aborted && !n.w.aborted && st.mask == n.mask
    && n.out == if st.post then st.out + Word(st.w.s.posted) else st.out
  }

  function StampBytes<T>(tg: Target<T>, t: T, v: byte): seq<byte> {
    if IsStamped(v) then Word(tg.stamp(t, v)) else []
  }

  /** A naive AP read: the register's value, after the timestamp if asked for. */
  lemma NaiveApRead<T>(tg: Target<T>, cfg: Config, n: State<Port<T>>, r: Req)
    requires IsRead(r.v) && IsAp(r.v) && !n.w.aborted
    ensures var n1, (t, v) := Naive(tg, cfg, n, r), tg.apRead(n.w.s.t, r.v % 16);
            n1.w.s == Port(t, v) && n1.out == n.out + StampBytes(tg, t, r.v) + Word(v) && n1.mask == n.mask && !n1.w.aborted
  {
    hide Do;
    DoAnswers(tg, cfg, n, r.v, false);
    var st1 := PutStamp(Do(PortDevice(tg), cfg, n, r.v, false), r.v);
    DoAnswers(tg, cfg, st1, RDBUFF, true);
    assert n.out + [] == n.out;
    var (t, v) := tg.apRead(n.w.s.t, r.v % 16);
    assert st1.w.s == Port(t, v) && st1.out == n.out + StampBytes(tg, t, r.v);
    assert Naive(tg, cfg, n, r) == PutData(Do(PortDevice(tg), cfg, st1, RDBUFF, true));
  }

  /** The next AP read of a row fetches the posted word and posts the next one. */
  lemma RowStep<T>(tg: Target<T>, cfg: Config, st: State<Port<T>>, n: State<Port<T>>, r: Req)
    requires InStep(st, n) && st.post && IsRead(r.v) && IsAp(r.v) && !HasValue(r.v)
    ensures InStep(ReadPosted(PortDevice(tg), cfg, st, r.v), Naive(tg, cfg, n, r))
    ensures var st1 := ReadPosted(PortDevice(tg), cfg, st, r.v); st1.post && st1.value == ACK_OK && st1.count == st.count
  {
    hide Naive, Do;
    DoAnswers(tg, cfg, st, r.v, true);
    NaiveApRead(tg, cfg, n, r);
    assert st.out + Word(st.w.s.posted) + [] == st.out + Word(st.w.s.posted);
    assert ReadPosted(PortDevice(tg), cfg, st, r.v) == PutStamp(PutData(Do(PortDevice(tg), cfg, st, r.v, true)), r.v);
  }

  /** Anything else first fetches the posted word, and both are level. */
  lemma SettleStep<T>(tg: Target<T>, cfg: Config, st: State<Port<T>>, n: State<Port<T>>, v: byte)
    requires InStep(st, n) && st.post && !(IsAp(v) && !HasValue(v))
    ensures var st1 := ReadPosted(PortDevice(tg), cfg, st, v); InStep(st1, n) && !st1.post && st1.count == st.count
  {
    hide Do, PortDevice;
    DoAnswers(tg, cfg, st, RDBUFF, true);
  }

  lemma LevelReadStep<T>(tg: Target<T>, cfg: Config, st: State<Port<T>>, n: State<Port<T>>, r: Req)
    requires InStep(st, n) && !st.post && IsRead(r.v) && !HasValue(r.v)
    ensures InStep(PlainRead(PortDevice(tg), cfg, st, r.v), Naive(tg, cfg, n, r))
    ensures var st1 := PlainRead(PortDevice(tg), cfg, st, r.v); st1.value == ACK_OK && st1.count == st.count
  {
    hide Do;
    if IsAp(r.v) {
      DoAnswers(tg, cfg, st, r.v, false);
      NaiveApRead(tg, cfg, n, r);
      assert st.out + [] == st.out;
      assert PlainRead(PortDevice(tg), cfg, st, r.v) == PutStamp(Do(PortDevice(tg), cfg, st, r.v, false), r.v).(post := true);
    } else {
      DoAnswers(tg, cfg, st, r.v, true);
      DoAnswers(tg, cfg, n, r.v, true);
      assert Naive(tg, cfg, n, r) == PutData(PutStamp(Do(PortDevice(tg), cfg, n, r.v, true), r.v));
    }
  }

  lemma ReadStep<T>(tg: Target<T>, cfg: Config, st: State<Port<T>>, n: State<Port<T>>, r: Req)
    requires InStep(st, n) && IsRead(r.v) && !HasValue(r.v)
    ensures InStep(Read(PortDevice(tg), cfg, st, r), Naive(tg, cfg, n, r))
    ensures var st1 := Read(PortDevice(tg), cfg, st, r); st1.value == ACK_OK && st1.count == st.count
  {
    hide ReadPosted, Naive, Do;
    if st.post && IsAp(r.v) {
      RowStep(tg, cfg, st, n, r);
    } else {
      var st1 := st;
      if st.post {
        SettleStep(tg, cfg, st, n, r.v);
        st1 := ReadPosted(PortDevice(tg), cfg, st, r.v);
      }
      LevelReadStep(tg, cfg, st1, n, r);
    }
  }

  lemma WriteStep<T>(tg: Target<T>, cfg: Config, st: State<Port<T>>, n: State<Port<T>>, r: Req)
    requires InStep(st, n) && !IsRead(r.v)
    ensures InStep(Write(PortDevice(tg), cfg, st, r), Naive(tg, cfg, n, r))
    ensures var st1 := Write(PortDevice(tg), cfg, st, r); st1.value == ACK_OK && st1.count == st.count
  {
    hide Do, PortDevice;
    DoAnswers(tg, cfg, st, RDBUFF, true);
    var st1 := Drain(PortDevice(tg), cfg, st);
    DoAnswers(tg, cfg, st1.(data := r.arg), r.v, false);
    DoAnswers(tg, cfg, n.(data := r.arg), r.v, false);
  }

  lemma {:induction false} RequestsStep<T>(tg: Target<T>, cfg: Config, st: State<Port<T>>, n: State<Port<T>>, rs: seq<Req>)
    requires InStep(st, n) && Plain(rs)
    ensures var st1 := Requests(PortDevice(tg), cfg, st, rs);
            InStep(st1, NaiveAll(tg, cfg, n, rs)) && st1.count == st.count + |rs|
            && (rs != [] ==> st1.value == ACK_OK) && (rs == [] ==> st1 == st)
    decreases |rs|
  {
    hide Read, Write, Naive;
    if rs != [] {
      var r := rs[0];
      if IsRead(r.v) {
        ReadStep(tg, cfg, st, n, r);
      } else {
        WriteStep(tg, cfg, st, n, r);
      }
      var st1 := Request(PortDevice(tg), cfg, st, r);
      assert Plain(rs[1..]);
      RequestsStep(tg, cfg, st1, Naive(tg, cfg, n, r), rs[1..]);
    }
  }

  /** Draining the last posted word brings both level. */
  lemma FinishStep<T>(tg: Target<T>, cfg: Config, st: State<Port<T>>, n: State<Port<T>>)
    requires InStep(st, n) && st.value == ACK_OK
    ensures var st1 := Finish(PortDevice(tg), cfg, st);
            st1.w.s == n.w.s && st1.out == n.out && st1.mask == n.mask && st1.count == st.count && st1.value == ACK_OK
  {
    hide Do, PortDevice;
    DoAnswers(tg, cfg, st, RDBUFF, true);
    DoAnswers(tg, cfg, st, RDBUFF, false);
  }

  /** Main result: on plain lists the pipelined command returns, byte for byte,
      what the naive executor returns, leaves the same registers behind, and
      reports every request done. */
  lemma PipelineIsNaive<T>(tg: Target<T>, cfg: Config, w: Wire<Port<T>>, mask: u32, rs: seq<Req>)
    requires Plain(rs) && rs != []
    ensures var st, n := Transfer(PortDevice(tg), cfg, w, mask, rs), NaiveAll(tg, cfg, Start(w, mask), rs);
            Response(st) == [|rs| % 0x100, ACK_OK] + n.out && st.w.s == n.w.s && st.mask == n.mask
  {
    hide Requests, Finish, NaiveAll, PortDevice;
    var n := NaiveAll(tg, cfg, Start(w, mask), rs);
    RequestsStep(tg, cfg, Start(w, mask), Start(w, mask), rs);
    FinishStep(tg, cfg, Requests(PortDevice(tg), cfg, Start(w, mask), rs), n);
  }

  // ---- what the naive executor means ----

  /** One request to the registers themselves: the port it leaves and the word it reads, if any. */
  function Effect<T>(tg: Target<T>, p: Port<T>, r: Req): (Port<T>, seq<byte>) {
    if !IsRead(r.v) then (if HasMask(r.v) then p else Answer(tg, p, Access(r.v, r.arg)).0, [])
    else if IsAp(r.v) then
      var (t, v) := tg.apRead(p.t, r.v % 16);
      (Port(t, v), Word(v))
    else
      var (p', v) := Answer(tg, p, Access(r.v, 0));
      (p', Word(v))
  }

  /** One request answered: its timestamp, then its word. */
  function Answered<T>(tg: Target<T>, p: Port<T>, r: Req): (Port<T>, seq<byte>) {
    var (p', word) := Effect(tg, p, r);
    (p', (if IsRead(r.v) || !HasMask(r.v) then StampBytes(tg, p'.t, r.v) else []) + word)
  }

  /** Every request answered by the registers, in order. */
  function Payload<T>(tg: Target<T>, p: Port<T>, rs: seq<Req>): seq<byte>
    decreases |rs|
  {
    if rs == [] then [] else Answered(tg, p, rs[0]).1 + Payload(tg, Answered(tg, p, rs[0]).0, rs[1..])
  }

  lemma NaiveAnswers<T>(tg: Target<T>, cfg: Config, n: State<Port<T>>, r: Req)
    requires !n.w.aborted
    ensures var n1, (p', bytes) := Naive(tg, cfg, n, r), Answered(tg, n.w.s, r);
            n1.w.s == p' && !n1.w.aborted && n1.out == n.out + bytes
  {
    hide Do;
    assert n.out + [] == n.out;
    if IsRead(r.v) && IsAp(r.v) {
      NaiveApRead(tg, cfg, n, r);
    } else if IsRead(r.v) {
      DoAnswers(tg, cfg, n, r.v, true);
      assert Naive(tg, cfg, n, r) == PutData(PutStamp(Do(PortDevice(tg), cfg, n, r.v, true), r.v));
      AnswerAnyData(tg, n.w.s, r.v, n.data);
    } else if !HasMask(r.v) {
      DoAnswers(tg, cfg, n.(data := r.arg), r.v, false);
      assert Naive(tg, cfg, n, r) == PutStamp(Do(PortDevice(tg), cfg, n.(data := r.arg), r.v, false), r.v);
    }
  }

  /** A read does not look at the word to write. */
  lemma AnswerAnyData<T>(tg: Target<T>, p: Port<T>, v: byte, data: u32)
    requires IsRead(v)
    ensures Answer(tg, p, Access(v, data)) == Answer(tg, p, Access(v, 0))
  {}

  lemma {:induction false} NaiveReadsRegisters<T>(tg: Target<T>, cfg: Config, n: State<Port<T>>, rs: seq<Req>)
    requires !n.w.aborted
    ensures NaiveAll(tg, cfg, n, rs).out == n.out + Payload(tg, n.w.s, rs)
    decreases |rs|
  {
    hide Naive, Answered, PortDevice;
    if rs == [] {
      assert n.out + [] == n.out;
    } else {
      NaiveAnswers(tg, cfg, n, rs[0]);
      var (p, bytes) := Answered(tg, n.w.s, rs[0]);
      NaiveReadsRegisters(tg, cfg, Naive(tg, cfg, n, rs[0]), rs[1..]);
      Assoc(n.out, bytes, Payload(tg, p, rs[1..]));
    }
  }

  /** The response is a count, OK, and what the registers themselves answer to
      the requests in order. */
  lemma PipelineReadsRegisters<T>(tg: Target<T>, cfg: Config, w: Wire<Port<T>>, mask: u32, rs: seq<Req>)
    requires Plain(rs) && rs != []
    ensures Response(Transfer(PortDevice(tg), cfg, w, mask, rs)) == [|rs| % 0x100, ACK_OK] + Payload(tg, w.s, rs)
  {
    hide NaiveAll, Transfer, PortDevice;
    PipelineIsNaive(tg, cfg, w, mask, rs);
    NaiveReadsRegisters(tg, cfg, Start(w, mask), rs);
    assert [] + Payload(tg, w.s, rs) == Payload(tg, w.s, rs);
  }

  function ResponseWords(rs: seq<Req>): nat {
    if rs == [] then 0
    else
      (if IsRead(rs[0].v) then 1 else 0)
      + (if IsStamped(rs[0].v) && (IsRead(rs[0].v) || !HasMask(rs[0].v)) then 1 else 0)
      + ResponseWords(rs[1..])
  }

  lemma {:induction false} PayloadLength<T>(tg: Target<T>, p: Port<T>, rs: seq<Req>)
    ensures |Payload(tg, p, rs)| == 4 * ResponseWords(rs)
    decreases |rs|
  {
    if rs != [] {
      PayloadLength(tg, Answered(tg, p, rs[0]).0, rs[1..]);
    }
  }

  /** The response has two bytes, four per read and four per timestamped access. */
  lemma ResponseLength<T>(tg: Target<T>, cfg: Config, w: Wire<Port<T>>, mask: u32, rs: seq<Req>)
    requires Plain(rs) && rs != []
    ensures |Response(Transfer(PortDevice(tg), cfg, w, mask, rs))| == 2 + 4 * ResponseWords(rs)
  {
    PipelineReadsRegisters(tg, cfg, w, mask, rs);
    PayloadLength(tg, w.s, rs);
  }
}
