/** The transfer commands as they run: loops over the request bytes that update
    the probe's variables and append to the response. Each is proved to compute
    the function of SwdTransfer or JtagTransfer with the same name. */
module DapCommand {
  import opened Words
  import opened DapEngine
  import Swd = SwdTransfer
  import Jtag = JtagTransfer
  import opened DapBlock
  import SwdBlock
  import JtagBlock

  class Probe<S> {
    const dev: Device<S>
    const cfg: Config
    const devCount: nat

    // The wire and the match mask outlive a command.
    var w: Wire<S>
    var matchMask: u32

    // Variables of the running command; `pos` is where the packet is read.
    var pos: nat
    var data: u32
    var postRead: bool
    var checkWrite: bool
    var ir: byte
    var response: seq<byte>
    var responseCount: nat
    var responseValue: byte
    var ok: bool

    ghost function View(): State<S>
      reads this
    {
      State(w, data, postRead, checkWrite, ir, matchMask, response, responseCount, responseValue, ok)
    }

    constructor (dev: Device<S>, cfg: Config, devCount: nat, s: S)
      ensures this.dev == dev && this.cfg == cfg && this.devCount == devCount
      ensures w == Wire(s, 0, false, []) && matchMask == 0
    {
      this.dev, this.cfg, this.devCount := dev, cfg, devCount;
      w, matchMask := Wire(s, 0, false, []), 0;
      data, postRead, checkWrite, ir, response := 0, false, false, 0, [];
      responseCount, responseValue, ok := 0, 0, true;
      pos := 0;
    }

    method Begin()
      modifies this
      ensures View() == Start(old(w), old(matchMask))
    {
      w := w.(aborted := false);
      data, postRead, checkWrite, ir, response := 0, false, false, 0, [];
      responseCount, responseValue, ok := 0, 0, true;
    }

    method Access(req: byte) returns (ack: byte, rdata: u32)
      modifies `w
      ensures Result(w, ack, rdata) == Once(dev, old(w), DapEngine.Access(req, data))
    {
      var r := Once(dev, w, DapEngine.Access(req, data));
      w := r.w;
      return r.ack, r.rdata;
    }

    /** The transfer, repeated while the target answers WAIT. */
    method TransferRetry(req: byte, capture: bool)
      modifies `w, `data, `responseValue, `ok
      ensures View() == Do(dev, cfg, old(View()), req, capture)
    {
      var ack, rdata := Access(req);
      var retry: nat := cfg.retry;
      ghost var a := DapEngine.Access(req, data);
      while ack == ACK_WAIT && retry > 0 && !w.aborted
        invariant data == old(data) && responseValue == old(responseValue) && ok == old(ok)
        invariant Retry(dev, old(w), a, cfg.retry)
               == if ack == ACK_WAIT && retry > 0 && !w.aborted then Retry(dev, w, a, retry - 1)
                  else Result(w, ack, rdata)
        decreases retry
      {
        retry := retry - 1;
        ack, rdata := Access(req);
      }
      responseValue := ack;
      ok := ack == ACK_OK;
      if capture && (ack == ACK_OK || ack == ACK_ERROR) {
        data := rdata;
      }
    }

    method StoreData()
      modifies `response
      ensures View() == PutData(old(View()))
    {
      response := response + Word(data);
    }

    method StoreTimestamp(v: byte)
      modifies `response
      ensures View() == PutStamp(old(View()), v)
    {
      if IsStamped(v) {
        response := response + Word(w.stamp);
      }
    }

    /** Read until the value matches or the match retries run out. */
    method MatchValue(r: Req)
      modifies `w, `data, `responseValue, `ok
      ensures View() == MatchEnd(MatchLoop(dev, cfg, old(View()), r, cfg.matchRetry), r)
    {
      hide Do, And32;
      TransferRetry(r.v, true);
      var retry: nat := cfg.matchRetry;
      while ok && And32(data, matchMask) != r.arg && retry > 0 && !w.aborted
        invariant MatchLoop(dev, cfg, old(View()), r, cfg.matchRetry)
               == if ok && And32(data, matchMask) != r.arg && retry > 0 && !w.aborted
                  then MatchLoop(dev, cfg, View(), r, retry - 1) else View()
        decreases retry
      {
        retry := retry - 1;
        TransferRetry(r.v, true);
      }
      if And32(data, matchMask) != r.arg {
        responseValue := if responseValue < 16 then responseValue + MISMATCH else responseValue;
        ok := false;
      }
    }

    /** The requests that are left over after a break are passed over. */
    method Skip(request: seq<byte>, left: nat)
      modifies `pos
      ensures pos == SkipAll(request, old(pos), left)
    {
      var n: nat := left;
      while n != 0
        invariant n <= left && SkipAll(request, pos, n) == SkipAll(request, old(pos), left)
      {
        pos, n := pos + ReqSize(At(request, pos)), n - 1;
      }
    }

    // ---- SWD ----

    method SwdReadPosted(v: byte)
      modifies `w, `data, `responseValue, `ok, `response, `postRead
      ensures View() == Swd.ReadPosted(dev, cfg, old(View()), v)
    {
      hide Do;
      if IsAp(v) && !HasValue(v) {
        TransferRetry(v, true);
      } else {
        TransferRetry(RDBUFF, true);
        postRead := false;
      }
      if ok {
        StoreData();
        if IsAp(v) && !HasValue(v) {
          StoreTimestamp(v);
        }
      }
    }

    method SwdMatchRead(r: Req)
      requires ok
      modifies `w, `data, `responseValue, `ok
      ensures View() == Swd.MatchRead(dev, cfg, old(View()), r)
    {
      hide Do, MatchLoop;
      if IsAp(r.v) {
        TransferRetry(r.v, false);
      }
      if ok {
        MatchValue(r);
      }
    }

    method SwdPlainRead(v: byte)
      modifies `w, `data, `responseValue, `ok, `response, `postRead
      ensures View() == Swd.PlainRead(dev, cfg, old(View()), v)
    {
      hide Do;
      if IsAp(v) {
        if !postRead {
          TransferRetry(v, false);
          if ok {
            StoreTimestamp(v);
            postRead := true;
          }
        }
      } else {
        TransferRetry(v, true);
        if ok {
          StoreTimestamp(v);
          StoreData();
        }
      }
    }

    method SwdRead(r: Req)
      requires ok && IsRead(r.v)
      modifies this
      ensures View() == Swd.Read(dev, cfg, old(View()), r)
      ensures pos == old(pos) + if Swd.TookArg(dev, cfg, old(View()), r) then 4 else 0
    {
      hide Swd.ReadPosted, Swd.MatchRead, Swd.PlainRead;
      if postRead {
        SwdReadPosted(r.v);
      }
      if ok {
        if HasValue(r.v) {
          pos := pos + 4;
          SwdMatchRead(r);
        } else {
          SwdPlainRead(r.v);
        }
        if ok {
          checkWrite := false;
        }
      }
    }

    /** The data of a posted read, before something else is done. */
    method SwdDrain()
      modifies `w, `data, `responseValue, `ok, `response, `postRead
      ensures View() == Swd.Drain(dev, cfg, old(View()))
    {
      hide Do;
      if postRead {
        TransferRetry(RDBUFF, true);
        if ok {
          StoreData();
          postRead := false;
        }
      }
    }

    method SwdPlainWrite(r: Req)
      modifies `w, `data, `responseValue, `ok, `response, `matchMask, `checkWrite
      ensures View() == Swd.PlainWrite(dev, cfg, old(View()), r)
    {
      hide Do;
      data := r.arg;
      if HasMask(r.v) {
        matchMask := data;
        responseValue := ACK_OK;
      } else {
        TransferRetry(r.v, false);
        if ok {
          StoreTimestamp(r.v);
          checkWrite := true;
        }
      }
    }

    method SwdWrite(r: Req)
      requires ok && !IsRead(r.v)
      modifies this
      ensures View() == Swd.Write(dev, cfg, old(View()), r)
      ensures pos == old(pos) + if Swd.TookArg(dev, cfg, old(View()), r) then 4 else 0
    {
      hide Swd.Drain, Swd.PlainWrite;
      SwdDrain();
      if ok {
        pos := pos + 4;
        SwdPlainWrite(r);
      }
    }

    method SwdFinish()
      modifies `w, `data, `responseValue, `ok, `response
      ensures View() == Swd.Finish(dev, cfg, old(View()))
    {
      hide Do;
      if responseValue == ACK_OK {
        if postRead {
          TransferRetry(RDBUFF, true);
          if ok {
            StoreData();
          }
        } else if checkWrite {
          TransferRetry(RDBUFF, false);
        }
      }
    }

    method SwdRequest(r: Req)
      requires ok
      modifies this
      ensures View() == Swd.Request(dev, cfg, old(View()), r)
      ensures pos == old(pos) + if Swd.TookArg(dev, cfg, old(View()), r) then 4 else 0
    {
      hide Swd.Read, Swd.Write;
      if IsRead(r.v) {
        SwdRead(r);
      } else {
        SwdWrite(r);
      }
      if ok {
        responseCount := responseCount + 1;
      }
    }

    /** The loop over the requests; `left` are those it did not count off. */
    method SwdRequests(request: seq<byte>, count: nat) returns (left: nat)
      requires ok && !w.aborted
      modifies this
      ensures View() == Swd.Requests(dev, cfg, old(View()), Parse(request, old(pos), count))
      ensures (pos, left) == Swd.Stopped(dev, cfg, old(View()), request, old(pos), count)
    {
      hide Swd.Request, Swd.TookArg, Swd.Requests, Swd.Stopped, Parse;
      left := count;
      while left != 0 && ok && !w.aborted
        invariant Swd.Requests(dev, cfg, View(), Parse(request, pos, left))
               == Swd.Requests(dev, cfg, old(View()), Parse(request, old(pos), count))
        invariant Swd.Stopped(dev, cfg, View(), request, pos, left)
               == Swd.Stopped(dev, cfg, old(View()), request, old(pos), count)
        decreases left, ok && !w.aborted
      {
        Swd.Unrolled(dev, cfg, View(), request, pos, left);
        var r := AtHand(request, pos);
        pos := pos + 1;
        SwdRequest(r);
        if ok && !w.aborted {
          left := left - 1;
        }
      }
      Swd.Ended(dev, cfg, View(), request, pos, left);
    }

    /** DAP_SWD_Transfer: byte 0 is the DAP index, byte 1 the number of requests. */
    method SwdTransfer(request: seq<byte>) returns (reply: seq<byte>, used: nat)
      modifies this
      ensures var st := Swd.Transfer(dev, cfg, old(w), old(matchMask), Parse(request, 2, At(request, 1)));
              reply == Response(st) && w == st.w && matchMask == st.mask
      ensures used == Swd.Length(dev, cfg, old(w), old(matchMask), request)
    {
      hide Swd.Requests, Swd.Finish, Swd.Stopped, Parse, SkipAll;
      Begin();
      pos := 2;
      var left := SwdRequests(request, At(request, 1));
      Skip(request, left);
      SwdFinish();
      reply, used := [responseCount % 0x100, responseValue] + response, pos;
    }

    // ---- JTAG ----

    method SelectIr(want: byte)
      modifies `w, `ir
      ensures View() == Jtag.Select(dev, old(View()), want)
    {
      if ir != want {
        ir := want;
        w := w.(s := dev.loadIr(w.s, ir), log := w.log + [LoadIr(ir)]);
      }
    }

    method JtagReadPosted(v: byte)
      modifies `w, `ir, `data, `responseValue, `ok, `response, `postRead
      ensures View() == Jtag.ReadPosted(dev, cfg, old(View()), v)
    {
      hide Do, Jtag.Select;
      if ir == Jtag.IrFor(v) && !HasValue(v) {
        TransferRetry(v, true);
        if ok {
          StoreData();
          StoreTimestamp(v);
        }
      } else {
        SelectIr(Jtag.DPACC);
        TransferRetry(RDBUFF, true);
        postRead := false;
        if ok {
          StoreData();
        }
      }
    }

    method JtagMatchRead(r: Req)
      requires ok
      modifies `w, `ir, `data, `responseValue, `ok
      ensures View() == Jtag.MatchRead(dev, cfg, old(View()), r)
    {
      hide Do, Jtag.Select, MatchLoop;
      SelectIr(Jtag.IrFor(r.v));
      TransferRetry(r.v, false);
      if ok {
        MatchValue(r);
      }
    }

    method JtagPlainRead(v: byte)
      modifies `w, `ir, `data, `responseValue, `ok, `response, `postRead
      ensures View() == Jtag.PlainRead(dev, cfg, old(View()), v)
    {
      hide Do, Jtag.Select;
      if !postRead {
        SelectIr(Jtag.IrFor(v));
        TransferRetry(v, false);
        if ok {
          StoreTimestamp(v);
          postRead := true;
        }
      }
    }

    method JtagRead(r: Req)
      requires ok && IsRead(r.v)
      modifies this
      ensures View() == Jtag.Read(dev, cfg, old(View()), r)
      ensures pos == old(pos) + if Jtag.TookArg(dev, cfg, old(View()), r) then 4 else 0
    {
      hide Jtag.ReadPosted, Jtag.MatchRead, Jtag.PlainRead;
      if postRead {
        JtagReadPosted(r.v);
      }
      if ok {
        if HasValue(r.v) {
          pos := pos + 4;
          JtagMatchRead(r);
        } else {
          JtagPlainRead(r.v);
        }
      }
    }

    method JtagDrain()
      modifies `w, `ir, `data, `responseValue, `ok, `response, `postRead
      ensures View() == Jtag.Drain(dev, cfg, old(View()))
    {
      hide Do, Jtag.Select;
      if postRead {
        SelectIr(Jtag.DPACC);
        TransferRetry(RDBUFF, true);
        if ok {
          StoreData();
          postRead := false;
        }
      }
    }

    method JtagPlainWrite(r: Req)
      modifies `w, `ir, `data, `responseValue, `ok, `response, `matchMask
      ensures View() == Jtag.PlainWrite(dev, cfg, old(View()), r)
    {
      hide Do, Jtag.Select;
      data := r.arg;
      if HasMask(r.v) {
        matchMask := data;
        responseValue := ACK_OK;
      } else {
        SelectIr(Jtag.IrFor(r.v));
        TransferRetry(r.v, false);
        if ok {
          StoreTimestamp(r.v);
        }
      }
    }

    method JtagWrite(r: Req)
      requires ok && !IsRead(r.v)
      modifies this
      ensures View() == Jtag.Write(dev, cfg, old(View()), r)
      ensures pos == old(pos) + if Jtag.TookArg(dev, cfg, old(View()), r) then 4 else 0
    {
      hide Jtag.Drain, Jtag.PlainWrite;
      JtagDrain();
      if ok {
        pos := pos + 4;
        JtagPlainWrite(r);
      }
    }

    method JtagFinish()
      modifies `w, `ir, `data, `responseValue, `ok, `response
      ensures View() == Jtag.Finish(dev, cfg, old(View()))
    {
      hide Do, Jtag.Select;
      if responseValue == ACK_OK {
        SelectIr(Jtag.DPACC);
        if postRead {
          TransferRetry(RDBUFF, true);
          if ok {
            StoreData();
          }
        } else {
          TransferRetry(RDBUFF, false);
        }
      }
    }

    method JtagRequest(r: Req)
      requires ok
      modifies this
      ensures View() == Jtag.Request(dev, cfg, old(View()), r)
      ensures pos == old(pos) + if Jtag.TookArg(dev, cfg, old(View()), r) then 4 else 0
    {
      hide Jtag.Read, Jtag.Write;
      if IsRead(r.v) {
        JtagRead(r);
      } else {
        JtagWrite(r);
      }
      if ok {
        responseCount := responseCount + 1;
      }
    }

    /** The loop over the requests; `left` are those it did not count off. */
    method JtagRequests(request: seq<byte>, count: nat) returns (left: nat)
      requires ok && !w.aborted
      modifies this
      ensures View() == Jtag.Requests(dev, cfg, old(View()), Parse(request, old(pos), count))
      ensures (pos, left) == Jtag.Stopped(dev, cfg, old(View()), request, old(pos), count)
    {
      hide Jtag.Request, Jtag.TookArg, Jtag.Requests, Jtag.Stopped, Parse;
      left := count;
      while left != 0 && ok && !w.aborted
        invariant Jtag.Requests(dev, cfg, View(), Parse(request, pos, left))
               == Jtag.Requests(dev, cfg, old(View()), Parse(request, old(pos), count))
        invariant Jtag.Stopped(dev, cfg, View(), request, pos, left)
               == Jtag.Stopped(dev, cfg, old(View()), request, old(pos), count)
        decreases left, ok && !w.aborted
      {
        Jtag.Unrolled(dev, cfg, View(), request, pos, left);
        var r := AtHand(request, pos);
        pos := pos + 1;
        JtagRequest(r);
        if ok && !w.aborted {
          left := left - 1;
        }
      }
      Jtag.Ended(dev, cfg, View(), request, pos, left);
    }

    /** DAP_JTAG_Transfer: an unknown device index is answered with zeros and touches nothing. */
    method JtagTransfer(request: seq<byte>) returns (reply: seq<byte>, used: nat)
      modifies this
      ensures At(request, 0) >= devCount ==>
                reply == [0, 0] && w == old(w).(aborted := false) && matchMask == old(matchMask)
      ensures At(request, 0) < devCount ==>
                var st := Jtag.Transfer(dev, cfg, old(w), old(matchMask), Parse(request, 2, At(request, 1)));
                reply == Response(st) && w == st.w && matchMask == st.mask
      ensures used == Jtag.Used(dev, cfg, devCount, old(w), old(matchMask), request)
    {
      hide Jtag.Requests, Jtag.Finish, Jtag.Stopped, Parse, SkipAll;
      Begin();
      pos := 1;
      if At(request, 0) < devCount {
        pos := 2;
        var left := JtagRequests(request, At(request, 1));
        Skip(request, left);
        JtagFinish();
      }
      reply, used := [responseCount % 0x100, responseValue] + response, pos;
    }

    // ---- blocks ----

    method WriteWord(v: byte, word: u32)
      modifies this
      ensures View() == OneWrite(dev, cfg, old(View()), v, word)
    {
      hide Do;
      data := word;
      TransferRetry(v, false);
      if ok {
        responseCount := responseCount + 1;
      }
    }

    /** The loop over the words to write, from position `start` of the packet. */
    method WriteWords(request: seq<byte>, start: nat, v: byte, count: nat)
      requires ok
      modifies this
      ensures View() == Writes(dev, cfg, old(View()), v, request, start, count)
    {
      hide OneWrite;
      var pos: nat, n: nat := start, count;
      while n != 0 && ok
        invariant Writes(dev, cfg, old(View()), v, request, start, count)
               == if ok then Writes(dev, cfg, View(), v, request, pos, n) else View()
        decreases n
      {
        WriteWord(v, WordAt(request, pos));
        pos, n := pos + 4, n - 1;
      }
    }

    /** A captured word goes into the response. */
    method StoreWord()
      modifies `response, `responseCount
      ensures View() == Stored(old(View()))
    {
      if ok {
        StoreData();
        responseCount := responseCount + 1;
      }
    }

    method SwdReadWord(v: byte, last: bool)
      modifies this
      ensures View() == SwdBlock.OneRead(dev, cfg, old(View()), v, last)
    {
      hide Do;
      TransferRetry(if last && IsAp(v) then RDBUFF else v, true);
      StoreWord();
    }

    method SwdReadWords(v: byte, count: nat)
      requires ok
      modifies this
      ensures View() == SwdBlock.Reads(dev, cfg, old(View()), v, count)
    {
      hide SwdBlock.OneRead;
      var n: nat := count;
      while n != 0 && ok
        invariant SwdBlock.Reads(dev, cfg, old(View()), v, count)
               == if ok then SwdBlock.Reads(dev, cfg, View(), v, n) else View()
        decreases n
      {
        n := n - 1;
        SwdReadWord(v, n == 0);
      }
    }

    /** DAP_SWD_TransferBlock. */
    method SwdTransferBlock(request: seq<byte>) returns (reply: seq<byte>)
      modifies this
      ensures var st := SwdBlock.Block(dev, cfg, old(w), old(matchMask), request);
              reply == BlockResponse(st) && w == st.w && matchMask == st.mask
    {
      hide Do;
      Begin();
      var count, v := Count(request), At(request, 3);
      if count != 0 {
        if IsRead(v) {
          if IsAp(v) {
            TransferRetry(v, false);
          }
          if ok {
            SwdReadWords(v, count);
          }
        } else {
          WriteWords(request, 4, v, count);
          if ok {
            TransferRetry(RDBUFF, false);
          }
        }
      }
      reply := [responseCount % 0x100, responseCount / 0x100 % 0x100, responseValue] + response;
    }

    method JtagReadWord(v: byte, last: bool)
      modifies this
      ensures View() == JtagBlock.OneRead(dev, cfg, old(View()), v, last)
    {
      hide Do, Jtag.Select;
      if last {
        SelectIr(Jtag.DPACC);
        TransferRetry(RDBUFF, true);
      } else {
        TransferRetry(v, true);
      }
      StoreWord();
    }

    method JtagReadWords(v: byte, count: nat)
      requires ok
      modifies this
      ensures View() == JtagBlock.Reads(dev, cfg, old(View()), v, count)
    {
      hide JtagBlock.OneRead;
      var n: nat := count;
      while n != 0 && ok
        invariant JtagBlock.Reads(dev, cfg, old(View()), v, count)
               == if ok then JtagBlock.Reads(dev, cfg, View(), v, n) else View()
        decreases n
      {
        n := n - 1;
        JtagReadWord(v, n == 0);
      }
    }

    /** DAP_JTAG_TransferBlock: an unknown device index is answered with zeros and touches nothing. */
    method JtagTransferBlock(request: seq<byte>) returns (reply: seq<byte>)
      modifies this
      ensures At(request, 0) >= devCount ==>
                reply == [0, 0, 0] && w == old(w).(aborted := false) && matchMask == old(matchMask)
      ensures At(request, 0) < devCount ==>
                var st := JtagBlock.Block(dev, cfg, old(w), old(matchMask), request);
                reply == BlockResponse(st) && w == st.w && matchMask == st.mask
    {
      hide Do, Jtag.Select;
      Begin();
      var count, v := Count(request), At(request, 3);
      if At(request, 0) < devCount && count != 0 {
        SelectIr(Jtag.IrFor(v));
        if IsRead(v) {
          TransferRetry(v, false);
          if ok {
            JtagReadWords(v, count);
          }
        } else {
          WriteWords(request, 4, v, count);
          if ok {
            SelectIr(Jtag.DPACC);
            TransferRetry(RDBUFF, false);
          }
        }
      }
      reply := [responseCount % 0x100, responseCount / 0x100 % 0x100, responseValue] + response;
    }
  }
}
