/** DAP_JTAG_TransferBlock: every read is posted, and the last word is fetched by a
    read of RDBUFF under the DP instruction. */
module JtagBlock {
  import opened Seqs
  import opened Words
  import opened DapEngine
  import opened DapBlock
  import opened JtagTransfer
  import opened JtagPipeline

  /** One word; the last one is fetched from RDBUFF. */
  function OneRead<S>(dev: Device<S>, cfg: Config, st: State<S>, v: byte, last: bool): State<S> {
    Stored(if last then FetchPosted(dev, cfg, st) else Do(dev, cfg, st, v, true))
  }

  /** The loop over the words to read. */
  function Reads<S>(dev: Device<S>, cfg: Config, st: State<S>, v: byte, n: nat): State<S>
    decreases n
  {
    if n == 0 then st
    else
      var st1 := OneRead(dev, cfg, st, v, n == 1);
      if st1.ok then Reads(dev, cfg, st1, v, n - 1) else st1
  }

  function ReadBlock<S>(dev: Device<S>, cfg: Config, st: State<S>, v: byte, n: nat): State<S> {
    var st1 := Do(dev, cfg, Select(dev, st, IrFor(v)), v, false);
    if st1.ok then Reads(dev, cfg, st1, v, n) else st1
  }

  function WriteBlock<S>(dev: Device<S>, cfg: Config, st: State<S>, v: byte, mem: seq<byte>, n: nat): State<S> {
    var st1 := Writes(dev, cfg, Select(dev, st, IrFor(v)), v, mem, 4, n);
    if st1.ok then Do(dev, cfg, Select(dev, st1, DPACC), RDBUFF, false) else st1
  }

  function Block<S>(dev: Device<S>, cfg: Config, w: Wire<S>, mask: u32, mem: seq<byte>): State<S> {
    var st, n, v := Start(w, mask), Count(mem), At(mem, 3);
    if n == 0 then st
    else if IsRead(v) then ReadBlock(dev, cfg, st, v, n)
    else WriteBlock(dev, cfg, st, v, mem, n)
  }

  // ---- against a debug port ----

  /** A read request and its low bits read the same. */
  lemma LowRead<T>(tg: Target<T>, t: T, v: byte, data: u32)
    requires IsRead(v)
    ensures Answered(tg, t, Req(v % 16, 0)) == (var (t', word) := Effect(tg, t, IsAp(v), v, data); (t', Word(word)))
  {
    FlagsDropped(v);
    assert [] + Word(Effect(tg, t, IsAp(v), v, data).1) == Word(Effect(tg, t, IsAp(v), v, data).1);
  }

  /** One read of the row: the word of the read before it is captured. */
  lemma RowRead<T>(tg: Target<T>, cfg: Config, st: State<Port<T>>, v: byte)
    requires Sound(st) && st.ir == IrFor(v) && IsRead(v)
    ensures var st1, (t, bytes) := Do(PortDevice(tg), cfg, st, v, true), Answered(tg, st.w.s.t, Req(v % 16, 0));
            Sound(st1) && st1.ir == st.ir && st1.w.s.t == t && bytes == Word(st1.w.s.result) && st1.data == st.w.s.result
            && st1.out == st.out && st1.count == st.count
  {
    hide Do, Answered, Effect, PortDevice;
    SelectDo(tg, cfg, st, v, true);
    assert Select(PortDevice(tg), st, IrFor(v)) == st;
    LowRead(tg, st.w.s.t, v, st.data);
  }

  /** The last word is fetched from RDBUFF. */
  lemma LastRead<T>(tg: Target<T>, cfg: Config, st: State<Port<T>>, v: byte)
    requires Sound(st)
    ensures var st1 := Reads(PortDevice(tg), cfg, st, v, 1);
            st1.ok && st1.value == ACK_OK && st1.count == st.count + 1 && st1.out == st.out + Word(st.w.s.result)
  {
    hide Do, Select, PortDevice, Effect;
    SelectDo(tg, cfg, st, RDBUFF, true);
  }

  lemma {:induction false} ReadsAnswer<T>(tg: Target<T>, cfg: Config, st: State<Port<T>>, v: byte, n: nat)
    requires Sound(st) && st.ir == IrFor(v) && IsRead(v) && n > 0
    ensures var st1 := Reads(PortDevice(tg), cfg, st, v, n);
            st1.ok && st1.value == ACK_OK && st1.count == st.count + n
            && st1.out == st.out + Word(st.w.s.result) + Payload(tg, st.w.s.t, SameRead(v, n - 1))
    decreases n
  {
    hide Do, Answered, PortDevice, Effect;
    if n == 1 {
      LastRead(tg, cfg, st, v);
      assert st.out + Word(st.w.s.result) + [] == st.out + Word(st.w.s.result);
    } else {
      RowRead(tg, cfg, st, v);
      SameReadNext(v, n - 1);
      var st1 := Do(PortDevice(tg), cfg, st, v, true);
      var (t, bytes) := Answered(tg, st.w.s.t, Req(v % 16, 0));
      ReadsAnswer(tg, cfg, Stored(st1), v, n - 1);
      Assoc(st.out + Word(st.w.s.result), bytes, Payload(tg, t, SameRead(v, n - 2)));
    }
  }

  lemma ReadBlockAnswers<T>(tg: Target<T>, cfg: Config, st: State<Port<T>>, v: byte, n: nat)
    requires Sound(st) && IsRead(v) && n > 0
    ensures var st1 := ReadBlock(PortDevice(tg), cfg, st, v, n);
            st1.value == ACK_OK && st1.count == st.count + n
            && st1.out == st.out + Payload(tg, st.w.s.t, SameRead(v, n))
  {
    hide Do, Select, Answered, PortDevice, Reads, Effect;
    SelectDo(tg, cfg, st, v, false);
    LowRead(tg, st.w.s.t, v, st.data);
    SameReadNext(v, n);
    var st1 := Do(PortDevice(tg), cfg, Select(PortDevice(tg), st, IrFor(v)), v, false);
    var (t, bytes) := Answered(tg, st.w.s.t, Req(v % 16, 0));
    ReadsAnswer(tg, cfg, st1, v, n);
    Assoc(st.out, bytes, Payload(tg, t, SameRead(v, n - 1)));
  }

  /** A block of reads returns what as many single requests are answered by the
      registers, in order. */
  lemma ReadBlockReadsRegisters<T>(tg: Target<T>, cfg: Config, w: Wire<Port<T>>, mask: u32, mem: seq<byte>)
    requires Count(mem) > 0 && IsRead(At(mem, 3))
    ensures BlockResponse(Block(PortDevice(tg), cfg, w, mask, mem))
         == [At(mem, 1), At(mem, 2), ACK_OK] + Payload(tg, w.s.t, SameRead(At(mem, 3), Count(mem)))
  {
    hide Count, ReadBlock, PortDevice, Payload;
    var v, n := At(mem, 3), Count(mem);
    ReadBlockAnswers(tg, cfg, Start(w, mask), v, n);
    CountBytes(mem);
    assert [] + Payload(tg, w.s.t, SameRead(v, n)) == Payload(tg, w.s.t, SameRead(v, n));
  }

  /** The words are those of DAP_JTAG_Transfer for a list of the same reads. */
  lemma BlockIsList<T>(tg: Target<T>, cfg: Config, w: Wire<Port<T>>, mask: u32, mem: seq<byte>)
    requires Count(mem) > 0 && IsRead(At(mem, 3))
    ensures BlockResponse(Block(PortDevice(tg), cfg, w, mask, mem))[3..]
         == Response(Transfer(PortDevice(tg), cfg, w, mask, SameRead(At(mem, 3), Count(mem))))[2..]
  {
    hide Block, BlockResponse, Response, Payload, PortDevice, Transfer;
    var rs := SameRead(At(mem, 3), Count(mem));
    FlagsDropped(At(mem, 3));
    ReadBlockReadsRegisters(tg, cfg, w, mask, mem);
    PipelineReadsRegisters(tg, cfg, w, mask, rs);
  }

  /** The registers after single requests. */
  function Replay<T>(tg: Target<T>, t: T, rs: seq<Req>): T
    decreases |rs|
  {
    if rs == [] then t else Replay(tg, Answered(tg, t, rs[0]).0, rs[1..])
  }

  lemma OneWritten<T>(tg: Target<T>, cfg: Config, st: State<Port<T>>, v: byte, word: u32)
    requires !IsRead(v) && Sound(st) && st.ir == IrFor(v)
    ensures var st1 := OneWrite(PortDevice(tg), cfg, st, v, word);
            Sound(st1) && st1.ir == st.ir && st1.w.s.t == Answered(tg, st.w.s.t, Req(v % 16, word)).0
            && st1.count == st.count + 1 && st1.out == st.out
  {
    hide Do, PortDevice;
    var st0 := st.(data := word);
    SelectDo(tg, cfg, st0, v, false);
    assert Select(PortDevice(tg), st0, IrFor(v)) == st0;
    FlagsDropped(v);
  }

  lemma {:induction false} WritesReplay<T>(tg: Target<T>, cfg: Config, st: State<Port<T>>, v: byte, mem: seq<byte>, pos: nat, n: nat)
    requires !IsRead(v) && Sound(st) && st.ir == IrFor(v)
    ensures var st1 := Writes(PortDevice(tg), cfg, st, v, mem, pos, n);
            Sound(st1) && st1.w.s.t == Replay(tg, st.w.s.t, EachWrite(mem, pos, v, n))
            && st1.count == st.count + n && st1.out == st.out
    decreases n
  {
    hide OneWrite, Answered, PortDevice;
    if n > 0 {
      OneWritten(tg, cfg, st, v, WordAt(mem, pos));
      assert EachWrite(mem, pos, v, n)[1..] == EachWrite(mem, pos + 4, v, n - 1);
      WritesReplay(tg, cfg, OneWrite(PortDevice(tg), cfg, st, v, WordAt(mem, pos)), v, mem, pos + 4, n - 1);
    }
  }

  lemma SelectKeeps<T>(tg: Target<T>, st: State<Port<T>>, ir: byte)
    requires Sound(st)
    ensures var st1 := Select(PortDevice(tg), st, ir);
            Sound(st1) && st1.ir == ir && st1.w.s.t == st.w.s.t && st1.count == st.count && st1.out == st.out
  {}

  lemma WriteBlockAnswers<T>(tg: Target<T>, cfg: Config, st: State<Port<T>>, v: byte, mem: seq<byte>, n: nat)
    requires Sound(st) && !IsRead(v)
    ensures var st1 := WriteBlock(PortDevice(tg), cfg, st, v, mem, n);
            st1.value == ACK_OK && st1.count == st.count + n && st1.out == st.out
            && st1.w.s.t == Replay(tg, st.w.s.t, EachWrite(mem, 4, v, n))
  {
    hide Select, PortDevice, Writes, Replay, Do;
    var sel := Select(PortDevice(tg), st, IrFor(v));
    SelectKeeps(tg, st, IrFor(v));
    WritesReplay(tg, cfg, sel, v, mem, 4, n);
    SelectDo(tg, cfg, Writes(PortDevice(tg), cfg, sel, v, mem, 4, n), RDBUFF, false);
  }

  /** A block of writes leaves the registers as as many single requests leave them. */
  lemma WriteBlockWritesRegisters<T>(tg: Target<T>, cfg: Config, w: Wire<Port<T>>, mask: u32, mem: seq<byte>)
    requires Count(mem) > 0 && !IsRead(At(mem, 3))
    ensures var st := Block(PortDevice(tg), cfg, w, mask, mem);
            st.w.s.t == Replay(tg, w.s.t, EachWrite(mem, 4, At(mem, 3), Count(mem)))
            && BlockResponse(st) == [At(mem, 1), At(mem, 2), ACK_OK]
  {
    hide Count, WriteBlock, PortDevice, Replay;
    WriteBlockAnswers(tg, cfg, Start(w, mask), At(mem, 3), mem, Count(mem));
    CountBytes(mem);
  }

  // ---- for any target ----

  lemma {:induction false} ReadsTracked<S>(dev: Device<S>, cfg: Config, st: State<S>, v: byte, n: nat)
    requires Tracked(st) && st.ir == IrFor(v)
    ensures Tracked(Reads(dev, cfg, st, v, n))
    decreases n
  {
    hide Do, RightIr, Loaded;
    if n == 1 {
      SelectDoTracked(dev, cfg, st, RDBUFF, true);
    } else if n > 1 {
      DoTracked(dev, cfg, st, v, true);
      var st1 := Do(dev, cfg, st, v, true);
      ReadsTracked(dev, cfg, Stored(st1), v, n - 1);
    }
  }

  lemma {:induction false} WritesTracked<S>(dev: Device<S>, cfg: Config, st: State<S>, v: byte, mem: seq<byte>, pos: nat, n: nat)
    requires Tracked(st) && st.ir == IrFor(v)
    ensures Tracked(Writes(dev, cfg, st, v, mem, pos, n))
    decreases n
  {
    hide Do, RightIr, Loaded;
    if n > 0 {
      var st0 := st.(data := WordAt(mem, pos));
      DoTracked(dev, cfg, st0, v, false);
      var st1 := Do(dev, cfg, st0, v, false);
      WritesTracked(dev, cfg, st1.(count := st1.count + 1), v, mem, pos + 4, n - 1);
    }
  }

  /** Whatever acknowledgements come back, every transfer of a block runs with the
      instruction that its request asks for. */
  lemma BlockRightIr<S>(dev: Device<S>, cfg: Config, w: Wire<S>, mask: u32, mem: seq<byte>)
    requires w.log == []
    ensures RightIr(Block(dev, cfg, w, mask, mem).w.log)
  {
    hide Do, Reads, Writes;
    var st, v, n := Start(w, mask), At(mem, 3), Count(mem);
    var sel := Select(dev, st, IrFor(v));
    LogLoad(st.w.log, IrFor(v));
    SelectDoTracked(dev, cfg, st, v, false);
    ReadsTracked(dev, cfg, Do(dev, cfg, sel, v, false), v, n);
    WritesTracked(dev, cfg, sel, v, mem, 4, n);
    SelectDoTracked(dev, cfg, Writes(dev, cfg, sel, v, mem, 4, n), RDBUFF, false);
  }

  // ---- what the response reports ----

  lemma {:induction false} ReadsReport<S>(dev: Device<S>, cfg: Config, st: State<Noted<S>>, v: byte, n: nat)
    requires Fine(st)
    ensures Reports(Reads(NotingDevice(dev), cfg, st, v, n))
    decreases n
  {
    hide Do, Select, NotingDevice, OkOrWait, LastAck;
    if n > 0 {
      SelectFine(dev, st, DPACC);
      DoNoted(dev, cfg, Select(NotingDevice(dev), st, DPACC), RDBUFF, true);
      DoNoted(dev, cfg, st, v, true);
      var st1 := OneRead(NotingDevice(dev), cfg, st, v, n == 1);
      if st1.ok {
        ReadsReport(dev, cfg, st1, v, n - 1);
      }
    }
  }

  lemma {:induction false} ReadsCount<S>(dev: Device<S>, cfg: Config, st: State<S>, v: byte, n: nat)
    requires st.ok
    ensures var a := Reads(dev, cfg, st, v, n);
            st.count <= a.count <= st.count + n && |a.out| == |st.out| + 4 * (a.count - st.count)
            && (a.ok <==> a.count == st.count + n)
    decreases n
  {
    hide Retry;
    if n > 0 && OneRead(dev, cfg, st, v, n == 1).ok {
      ReadsCount(dev, cfg, OneRead(dev, cfg, st, v, n == 1), v, n - 1);
    }
  }

  /** Whatever is answered: nothing follows an access that was not answered OK in the end,
      and the value byte is the answer to the last access. */
  lemma BlockReports<S>(dev: Device<S>, cfg: Config, s: S, mask: u32, mem: seq<byte>)
    ensures Reports(Block(NotingDevice(dev), cfg, Wire(Noted(s, []), 0, false, []), mask, mem))
  {
    hide Do, Select, Reads, Writes, NotingDevice, OkOrWait, LastAck, Count;
    var d, st, v, n := NotingDevice(dev), Start(Wire(Noted(s, []), 0, false, []), mask), At(mem, 3), Count(mem);
    NothingYet(s, mask);
    SelectFine(dev, st, IrFor(v));
    var st0 := Select(d, st, IrFor(v));
    if IsRead(v) {
      DoNoted(dev, cfg, st0, v, false);
      var st1 := Do(d, cfg, st0, v, false);
      if st1.ok {
        ReadsReport(dev, cfg, st1, v, n);
      }
    } else {
      WritesReport(dev, cfg, st0, v, mem, 4, n);
      var st1 := Writes(d, cfg, st0, v, mem, 4, n);
      if st1.ok {
        SelectFine(dev, st1, DPACC);
        DoNoted(dev, cfg, Select(d, st1, DPACC), RDBUFF, false);
      }
    }
  }

  lemma NothingYet<S>(s: S, mask: u32)
    ensures Fine(Start(Wire(Noted(s, []), 0, false, []), mask))
  {}

  /** And the count is the number of words read or written before that: every one of a
      block that is answered OK to the end, and four bytes for each that is read. */
  lemma BlockCounted<S>(dev: Device<S>, cfg: Config, w: Wire<S>, mask: u32, mem: seq<byte>)
    ensures var st := Block(dev, cfg, w, mask, mem);
            st.count <= Count(mem) && (st.ok ==> st.count == Count(mem))
            && (if IsRead(At(mem, 3)) then |st.out| == 4 * st.count else st.out == [])
  {
    hide Retry, Reads, Writes, Count, IsRead;
    var st, v, n := Start(w, mask), At(mem, 3), Count(mem);
    var st0 := Select(dev, st, IrFor(v));
    var st1 := Do(dev, cfg, st0, v, false);
    if st1.ok {
      ReadsCount(dev, cfg, st1, v, n);
    }
    WritesCount(dev, cfg, st0, v, mem, 4, n);
  }
}
