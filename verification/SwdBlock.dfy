/** DAP_SWD_TransferBlock: a row of AP reads, each fetching the word of the one
    before, or a row of writes. */
module SwdBlock {
  import opened Seqs
  import opened Words
  import opened DapEngine
  import opened DapBlock
  import opened SwdPipeline
  import opened SwdTransfer

  /** One word; the last AP read is one of RDBUFF. */
  function OneRead<S>(dev: Device<S>, cfg: Config, st: State<S>, v: byte, last: bool): State<S> {
    Stored(Do(dev, cfg, st, if last && IsAp(v) then RDBUFF else v, true))
  }

  /** The loop over the words to read. */
  function Reads<S>(dev: Device<S>, cfg: Config, st: State<S>, v: byte, n: nat): State<S>
    decreases n
  {
    if n == 0 then st
    else
      var st1 := OneRead(dev, cfg, st, v, n == 1);
      if st1.ok then Reads(dev, cfg, st1, v, n - 1) else st1
  }

  function ReadBlock<S>(dev: Device<S>, cfg: Config, st: State<S>, v: byte, n: nat): State<S> {
    var st1 := if IsAp(v) then Do(dev, cfg, st, v, false) else st;
    if st1.ok then Reads(dev, cfg, st1, v, n) else st1
  }

  function WriteBlock<S>(dev: Device<S>, cfg: Config, st: State<S>, v: byte, mem: seq<byte>, n: nat): State<S> {
    var st1 := Writes(dev, cfg, st, v, mem, 4, n);
    if st1.ok then Do(dev, cfg, st1, RDBUFF, false) else st1
  }

  function Block<S>(dev: Device<S>, cfg: Config, w: Wire<S>, mask: u32, mem: seq<byte>): State<S> {
    var st, n, v := Start(w, mask), Count(mem), At(mem, 3);
    if n == 0 then st
    else if IsRead(v) then ReadBlock(dev, cfg, st, v, n)
    else WriteBlock(dev, cfg, st, v, mem, n)
  }

  // ---- against a debug port ----

  /** A DP read answers at once. */
  lemma DpRead<T>(tg: Target<T>, cfg: Config, st: State<Port<T>>, v: byte)
    requires IsRead(v) && !IsAp(v)
    ensures var st1, (p, bytes) := Do(PortDevice(tg), cfg, st, v, true), Answered(tg, st.w.s, Req(v % 16, 0));
            st1.ok && st1.value == ACK_OK && st1.w.s == p && bytes == Word(st1.data) && st1.out == st.out && st1.count == st.count
  {
    hide Do, PortDevice;
    DoAnswers(tg, cfg, st, v, true);
    FlagsDropped(v);
    AnswerAnyData(tg, st.w.s, v, st.data);
  }

  lemma {:induction false} DpReads<T>(tg: Target<T>, cfg: Config, st: State<Port<T>>, v: byte, n: nat)
    requires IsRead(v) && !IsAp(v) && st.ok
    ensures var st1 := Reads(PortDevice(tg), cfg, st, v, n);
            st1.ok && st1.out == st.out + Payload(tg, st.w.s, SameRead(v, n)) && st1.count == st.count + n
            && (n > 0 ==> st1.value == ACK_OK)
    decreases n
  {
    hide Do, Answered, PortDevice;
    if n == 0 {
      assert st.out + [] == st.out;
    } else {
      DpRead(tg, cfg, st, v);
      SameReadNext(v, n);
      var st1 := Do(PortDevice(tg), cfg, st, v, true);
      var (p, bytes) := Answered(tg, st.w.s, Req(v % 16, 0));
      DpReads(tg, cfg, Stored(st1), v, n - 1);
      Assoc(st.out, bytes, Payload(tg, p, SameRead(v, n - 1)));
    }
  }

  /** One AP read of the row: the posted word is captured, the next one posted. */
  lemma ApRead<T>(tg: Target<T>, cfg: Config, st: State<Port<T>>, v: byte, capture: bool)
    requires IsRead(v) && IsAp(v)
    ensures var st1, (p, bytes) := Do(PortDevice(tg), cfg, st, v, capture), Answered(tg, st.w.s, Req(v % 16, 0));
            st1.ok && st1.w.s == p && bytes == Word(p.posted) && (capture ==> st1.data == st.w.s.posted)
            && st1.out == st.out && st1.count == st.count
  {
    hide Do;
    DoAnswers(tg, cfg, st, v, capture);
    FlagsDropped(v);
  }

  /** The last word is fetched from RDBUFF. */
  lemma LastRead<T>(tg: Target<T>, cfg: Config, st: State<Port<T>>, v: byte)
    requires IsRead(v) && IsAp(v)
    ensures var st1 := Reads(PortDevice(tg), cfg, st, v, 1);
            st1.ok && st1.value == ACK_OK && st1.count == st.count + 1 && st1.out == st.out + Word(st.w.s.posted)
  {
    hide Do;
    DoAnswers(tg, cfg, st, RDBUFF, true);
  }

  /** An AP read posts the next word and fetches the one before. */
  lemma {:induction false} ApReads<T>(tg: Target<T>, cfg: Config, st: State<Port<T>>, v: byte, n: nat)
    requires IsRead(v) && IsAp(v) && n > 0
    ensures var st1 := Reads(PortDevice(tg), cfg, st, v, n);
            st1.ok && st1.value == ACK_OK && st1.count == st.count + n
            && st1.out == st.out + Word(st.w.s.posted) + Payload(tg, st.w.s, SameRead(v, n - 1))
    decreases n
  {
    hide Do, Answered, PortDevice;
    if n == 1 {
      LastRead(tg, cfg, st, v);
      assert st.out + Word(st.w.s.posted) + [] == st.out + Word(st.w.s.posted);
    } else {
      ApRead(tg, cfg, st, v, true);
      SameReadNext(v, n - 1);
      var st1 := Do(PortDevice(tg), cfg, st, v, true);
      var (p, bytes) := Answered(tg, st.w.s, Req(v % 16, 0));
      ApReads(tg, cfg, Stored(st1), v, n - 1);
      Assoc(st.out + Word(st.w.s.posted), bytes, Payload(tg, p, SameRead(v, n - 2)));
    }
  }

  /** A block of reads returns what as many single requests are answered by the
      registers, in order. */
  lemma ReadBlockReadsRegisters<T>(tg: Target<T>, cfg: Config, w: Wire<Port<T>>, mask: u32, mem: seq<byte>)
    requires Count(mem) > 0 && IsRead(At(mem, 3))
    ensures BlockResponse(Block(PortDevice(tg), cfg, w, mask, mem))
         == [At(mem, 1), At(mem, 2), ACK_OK] + Payload(tg, w.s, SameRead(At(mem, 3), Count(mem)))
  {
    hide Do, Answered, PortDevice, Reads, Count, Payload;
    var st, v, n := Start(w, mask), At(mem, 3), Count(mem);
    CountBytes(mem);
    assert [] + Payload(tg, w.s, SameRead(v, n)) == Payload(tg, w.s, SameRead(v, n));
    if IsAp(v) {
      ApRead(tg, cfg, st, v, false);
      ApReads(tg, cfg, Do(PortDevice(tg), cfg, st, v, false), v, n);
      RowPayload(tg, w.s, v, n);
    } else {
      DpReads(tg, cfg, st, v, n);
    }
  }

  lemma RowPayload<T>(tg: Target<T>, p: Port<T>, v: byte, n: nat)
    requires n > 0
    ensures var (p', bytes) := Answered(tg, p, Req(v % 16, 0));
            Payload(tg, p, SameRead(v, n)) == [] + bytes + Payload(tg, p', SameRead(v, n - 1))
  {
    hide Answered;
    SameReadNext(v, n);
    assert [] + Answered(tg, p, Req(v % 16, 0)).1 == Answered(tg, p, Req(v % 16, 0)).1;
  }

  /** The words are those of DAP_SWD_Transfer for a list of the same reads. */
  lemma BlockIsList<T>(tg: Target<T>, cfg: Config, w: Wire<Port<T>>, mask: u32, mem: seq<byte>)
    requires Count(mem) > 0 && IsRead(At(mem, 3))
    ensures BlockResponse(Block(PortDevice(tg), cfg, w, mask, mem))[3..]
         == Response(Transfer(PortDevice(tg), cfg, w, mask, SameRead(At(mem, 3), Count(mem))))[2..]
  {
    hide Block, BlockResponse, Response, Payload, PortDevice, Transfer;
    var rs := SameRead(At(mem, 3), Count(mem));
    FlagsDropped(At(mem, 3));
    ReadBlockReadsRegisters(tg, cfg, w, mask, mem);
    PipelineReadsRegisters(tg, cfg, w, mask, rs);
  }

  /** The port after single requests. */
  function Replay<T>(tg: Target<T>, p: Port<T>, rs: seq<Req>): Port<T>
    decreases |rs|
  {
    if rs == [] then p else Replay(tg, Answered(tg, p, rs[0]).0, rs[1..])
  }

  lemma OneWritten<T>(tg: Target<T>, cfg: Config, st: State<Port<T>>, v: byte, word: u32)
    requires !IsRead(v)
    ensures var st1 := OneWrite(PortDevice(tg), cfg, st, v, word);
            st1.ok && st1.w.s == Answered(tg, st.w.s, Req(v % 16, word)).0 && st1.count == st.count + 1 && st1.out == st.out
  {
    hide Do, PortDevice;
    DoAnswers(tg, cfg, st.(data := word), v, false);
    FlagsDropped(v);
  }

  lemma {:induction false} WritesReplay<T>(tg: Target<T>, cfg: Config, st: State<Port<T>>, v: byte, mem: seq<byte>, pos: nat, n: nat)
    requires !IsRead(v) && st.ok
    ensures var st1 := Writes(PortDevice(tg), cfg, st, v, mem, pos, n);
            st1.ok && st1.w.s == Replay(tg, st.w.s, EachWrite(mem, pos, v, n)) && st1.count == st.count + n && st1.out == st.out
    decreases n
  {
    hide OneWrite, Answered, PortDevice;
    if n > 0 {
      var st1 := OneWrite(PortDevice(tg), cfg, st, v, WordAt(mem, pos));
      OneWritten(tg, cfg, st, v, WordAt(mem, pos));
      assert EachWrite(mem, pos, v, n)[1..] == EachWrite(mem, pos + 4, v, n - 1);
      WritesReplay(tg, cfg, st1, v, mem, pos + 4, n - 1);
    }
  }

  /** A block of writes leaves what as many single requests leave. */
  lemma WriteBlockWritesRegisters<T>(tg: Target<T>, cfg: Config, w: Wire<Port<T>>, mask: u32, mem: seq<byte>)
    requires Count(mem) > 0 && !IsRead(At(mem, 3))
    ensures var st := Block(PortDevice(tg), cfg, w, mask, mem);
            st.w.s == Replay(tg, w.s, EachWrite(mem, 4, At(mem, 3), Count(mem)))
            && BlockResponse(st) == [At(mem, 1), At(mem, 2), ACK_OK]
  {
    hide Writes, Do, PortDevice, Replay, Count;
    var st, v, n := Start(w, mask), At(mem, 3), Count(mem);
    CountBytes(mem);
    WritesReplay(tg, cfg, st, v, mem, 4, n);
    DoAnswers(tg, cfg, Writes(PortDevice(tg), cfg, st, v, mem, 4, n), RDBUFF, false);
  }

  // ---- for any target ----

  lemma {:induction false} ReadsUse<S>(dev: Device<S>, cfg: Config, st: State<S>, v: byte, n: nat)
    ensures |Reads(dev, cfg, st, v, n).w.log| <= |st.w.log| + Budget(cfg, n)
    decreases n
  {
    hide Do, Budget;
    if n > 0 {
      var req := if n == 1 && IsAp(v) then RDBUFF else v;
      DoUses(dev, cfg, st, req, true);
      BudgetAdds(cfg, 1, n - 1);
      ReadsUse(dev, cfg, OneRead(dev, cfg, st, v, n == 1), v, n - 1);
    }
  }

  /** Whatever is answered, `n` words take at most (n + 1) * (retry_count + 1) transfers. */
  lemma BlockUses<S>(dev: Device<S>, cfg: Config, w: Wire<S>, mask: u32, mem: seq<byte>)
    ensures |Block(dev, cfg, w, mask, mem).w.log| <= |w.log| + (Count(mem) + 1) * (cfg.retry as int + 1)
  {
    hide Do, Reads, Writes, Budget, Count;
    var st, v, n := Start(w, mask), At(mem, 3), Count(mem);
    DoUses(dev, cfg, st, v, false);
    ReadsUse(dev, cfg, if IsAp(v) then Do(dev, cfg, st, v, false) else st, v, n);
    WritesUse(dev, cfg, st, v, mem, 4, n);
    DoUses(dev, cfg, Writes(dev, cfg, st, v, mem, 4, n), RDBUFF, false);
    BudgetAdds(cfg, 1, n);
    BudgetIs(cfg, n + 1);
  }

  // ---- what the response reports ----

  lemma {:induction false} ReadsReport<S>(dev: Device<S>, cfg: Config, st: State<Noted<S>>, v: byte, n: nat)
    requires Fine(st)
    ensures Reports(Reads(NotingDevice(dev), cfg, st, v, n))
    decreases n
  {
    hide Do, NotingDevice, OkOrWait, LastAck;
    if n > 0 {
      DoNoted(dev, cfg, st, if n == 1 && IsAp(v) then RDBUFF else v, true);
      var st1 := OneRead(NotingDevice(dev), cfg, st, v, n == 1);
      if st1.ok {
        ReadsReport(dev, cfg, st1, v, n - 1);
      }
    }
  }

  lemma {:induction false} ReadsCount<S>(dev: Device<S>, cfg: Config, st: State<S>, v: byte, n: nat)
    requires st.ok
    ensures var a := Reads(dev, cfg, st, v, n);
            st.count <= a.count <= st.count + n && |a.out| == |st.out| + 4 * (a.count - st.count)
            && (a.ok <==> a.count == st.count + n)
    decreases n
  {
    hide Retry;
    if n > 0 && OneRead(dev, cfg, st, v, n == 1).ok {
      ReadsCount(dev, cfg, OneRead(dev, cfg, st, v, n == 1), v, n - 1);
    }
  }

  /** Whatever is answered: nothing follows an access that was not answered OK in the end,
      and the value byte is the answer to the last access. */
  lemma BlockReports<S>(dev: Device<S>, cfg: Config, s: S, mask: u32, mem: seq<byte>)
    ensures Reports(Block(NotingDevice(dev), cfg, Wire(Noted(s, []), 0, false, []), mask, mem))
  {
    hide Do, Reads, Writes, NotingDevice, OkOrWait, LastAck, Count;
    var d, st, v, n := NotingDevice(dev), Start(Wire(Noted(s, []), 0, false, []), mask), At(mem, 3), Count(mem);
    NothingYet(s, mask);
    DoNoted(dev, cfg, st, v, false);
    if IsRead(v) {
      var st1 := if IsAp(v) then Do(d, cfg, st, v, false) else st;
      if st1.ok {
        ReadsReport(dev, cfg, st1, v, n);
      }
    } else {
      WritesReport(dev, cfg, st, v, mem, 4, n);
      var st1 := Writes(d, cfg, st, v, mem, 4, n);
      if st1.ok {
        DoNoted(dev, cfg, st1, RDBUFF, false);
      }
    }
  }

  lemma NothingYet<S>(s: S, mask: u32)
    ensures Fine(Start(Wire(Noted(s, []), 0, false, []), mask))
  {}

  /** And the count is the number of words read or written before that: every one of a
      block that is answered OK to the end, and four bytes for each that is read. */
  lemma BlockCounted<S>(dev: Device<S>, cfg: Config, w: Wire<S>, mask: u32, mem: seq<byte>)
    ensures var st := Block(dev, cfg, w, mask, mem);
            st.count <= Count(mem) && (st.ok ==> st.count == Count(mem))
            && (if IsRead(At(mem, 3)) then |st.out| == 4 * st.count else st.out == [])
  {
    hide Retry, Reads, Writes, Count, IsRead;
    var st, v, n := Start(w, mask), At(mem, 3), Count(mem);
    var st1 := if IsAp(v) then Do(dev, cfg, st, v, false) else st;
    if st1.ok {
      ReadsCount(dev, cfg, st1, v, n);
    }
    WritesCount(dev, cfg, st, v, mem, 4, n);
  }
}
