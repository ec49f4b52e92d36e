/** The incremental frame parser of websocket_server.c over its 1500-byte buffer. */
module WsParser {
  import opened Seqs
  import opened WsMask
  import opened WsFrames

  const BUFFER_SIZE := 1500

  datatype Status = HEADER | EXTEND_LENGTH | MASK | PAYLOAD

  /** CO_OK, CO_FAIL, CO_ERROR_IO_PENDING. */
  datatype Code = OK | FAIL | PENDING

  predicate FailedWith(m: Machine, out: seq<bv8>) {
    m.phase == Failed && m.out == out
  }

  /** The bytes of a header that is not complete yet. */
  function Waiting(m: Machine): nat {
    if m.phase.Head? then |m.phase.got| else 0
  }

  /** What successive calls of recv() may return: something each time, and no more
      than the free part of the buffer. */
  predicate Receivable(m: Machine, chunks: seq<seq<bv8>>)
    decreases |chunks|
  {
    chunks == [] || (0 < |chunks[0]| <= BUFFER_SIZE - Waiting(m) && Receivable(Run(m, chunks[0]), chunks[1..]))
  }

  lemma FailedChunks(m: Machine, chunks: seq<seq<bv8>>)
    requires m.phase == Failed
    ensures RunChunks(m, chunks) == m
  {
    ChunkIndependence(m, chunks);
    FailedStays(m, Flatten(chunks));
  }

  class Parser {
    const buf: array<bv8>
    const base: nat
    var status: Status
    var remaining: nat
    var readLen: nat
    var opcode: bv8
    var mask: bool
    var payloadLen: nat
    var maskVal: bv32
    /** All that was handed to co_websocket_process_binary, in order. */
    var binary: seq<bv8>

    constructor (base: nat)
      ensures Valid() && fresh(buf) && State() == Machine(CONTINUATION, WsFrames.Head([]), [])
    {
      buf := new bv8[BUFFER_SIZE](_ => 0);
      this.base := base;
      status, remaining, readLen := HEADER, 0, 0;
      opcode, mask, payloadLen, maskVal, binary := CONTINUATION, false, 0, 0, [];
    }

    // ---- what the fields stand for ----

    ghost function CurrentKey(): Key
      reads `mask, `maskVal
    {
      if mask then BytesOf(maskVal) else [0, 0, 0, 0]
    }

    /** The state before the bytes that are buffered. */
    ghost function Before(): Machine
      reads `status, `opcode, `mask, `payloadLen, `maskVal, `binary
    {
      if status == PAYLOAD then Enter(opcode, payloadLen, CurrentKey(), binary)
      else Machine(opcode, WsFrames.Head([]), binary)
    }

    ghost predicate Fits()
      reads `remaining
    {
      buf.Length == BUFFER_SIZE && remaining <= BUFFER_SIZE
    }

    /** The state after all bytes received so far. */
    ghost function State(): Machine
      reads this, buf
      requires Fits()
    {
      Run(Before(), buf[..remaining])
    }

    /** The header bytes the status says were looked at agree with the fields. */
    ghost predicate InHeader()
      reads this, buf
      requires Fits()
    {
      match status
      case HEADER => true
      case EXTEND_LENGTH =>
        FirstTwo() && readLen == 2 && payloadLen == Len7(buf[1]) && LengthBytes(buf[1]) > 0
      case MASK =>
        FirstTwo() && mask && readLen == 2 + LengthBytes(buf[1]) <= remaining
        && !Bad(buf[..readLen]) && payloadLen == PayloadLen(buf[..readLen])
      case PAYLOAD => false
    }

    ghost predicate FirstTwo()
      reads this, buf
      requires Fits()
    {
      2 <= remaining && !HasRsv(buf[0]) && Known(Opcode(buf[0]))
      && NextOpcode(opcode, buf[0]) == opcode && mask == HasMask(buf[1])
    }

    /** Between two calls: nothing but an incomplete header is buffered. */
    ghost predicate Valid()
      reads this, buf
    {
      Fits() && (if status == PAYLOAD then remaining == 0 && readLen == 0 && payloadLen > 0 && opcode != CLOSE
                 else InHeader() && Incomplete())
    }

    ghost predicate Incomplete()
      reads this, buf
      requires Fits()
    {
      remaining <= 13 && Header(buf[..remaining]) && !Complete(buf[..remaining])
    }

    /** A complete header of which the fields are the meaning. */
    ghost predicate Entered(was: bv8)
      reads `remaining, `readLen, `opcode, `mask, `payloadLen, `maskVal, buf
      requires Fits()
    {
      && 2 <= readLen <= remaining && Header(buf[..readLen]) && Complete(buf[..readLen])
      && opcode == NextOpcode(was, buf[0]) && payloadLen == PayloadLen(buf[..readLen])
      && CurrentKey() == KeyOf(buf[..readLen])
    }

    // ---- co_websocket_process_header ----

    /** The first two bytes. */
    method ReadFirst() returns (ok: bool)
      requires Fits() && status == HEADER && remaining >= 2
      modifies `status, `opcode, `mask, `payloadLen, `readLen
      ensures !ok ==> Bad(buf[..2])
      ensures ok ==> !Bad(buf[..2]) && opcode == NextOpcode(old(opcode), buf[0]) && readLen == 2
                     && mask == HasMask(buf[1]) && payloadLen == Len7(buf[1])
                     && status == if payloadLen == 126 || payloadLen == 127 then EXTEND_LENGTH
                                  else if mask then MASK else HEADER
    {
      hide Opcode, HasRsv, HasMask, Len7, Declared;
      if HasRsv(buf[0]) {
        return false;
      }
      var code := Opcode(buf[0]);
      if code == CONTINUATION {
      } else if code == TEXT || code == BINARY || code == PING || code == PONG || code == CLOSE {
        opcode := code;
      } else {
        return false;
      }
      mask, payloadLen := HasMask(buf[1]), Len7(buf[1]);
      if payloadLen == 126 || payloadLen == 127 {
        status := EXTEND_LENGTH;
      } else if mask {
        status := MASK;
      }
      readLen := 2;
      ok := true;
    }

    /** The extended length, two bytes or eight. */
    method ReadLength() returns (code: Code)
      requires Fits() && status == EXTEND_LENGTH && InHeader()
      modifies `status, `payloadLen, `readLen
      ensures var size := 2 + LengthBytes(buf[1]);
              if remaining < size then code == PENDING && status == EXTEND_LENGTH && readLen == 2 && payloadLen == old(payloadLen)
              else if Bad(buf[..size]) then code == FAIL
              else code == OK && readLen == size && payloadLen == PayloadLen(buf[..size])
                   && status == if mask then MASK else PAYLOAD
    {
      hide Opcode, Known, HasRsv, HasMask, Len7, Num, NextOpcode;
      var length;
      if payloadLen == 126 {
        if remaining < readLen + 2 {
          return PENDING;
        }
        length := Num(buf[2]) * 0x100 + Num(buf[3]);
        TwoBytes(buf[..4]);
        readLen := readLen + 2;
      } else {
        if remaining < readLen + 8 {
          return PENDING;
        }
        length := Num(buf[9]);
        length := length + Num(buf[8]) * 0x100;
        length := length + Num(buf[7]) * 0x1_0000;
        length := length + Num(buf[6]) * 0x100_0000;
        length := length + Num(buf[5]) * 0x1_0000_0000;
        length := length + Num(buf[4]) * 0x100_0000_0000;
        length := length + Num(buf[3]) * 0x1_0000_0000_0000;
        length := length + Num(buf[2]) * 0x100_0000_0000_0000;
        EightBytes(buf[..10]);
        if length >= 0x8000_0000_0000_0000 {
          return FAIL;
        }
        readLen := readLen + 8;
      }
      payloadLen := length % 0x1_0000_0000;
      status := if mask then MASK else PAYLOAD;
      code := OK;
    }

    /** The masking key, as soon as all of it is there. */
    method ReadMask(ghost was: bv8)
      requires Fits() && status == MASK && InHeader() && opcode == NextOpcode(was, buf[0])
      modifies `status, `readLen, `maskVal
      ensures status == PAYLOAD ==> Entered(was)
      ensures status != PAYLOAD ==> InHeader() && Incomplete()
    {
      hide Opcode, Known, HasRsv, HasMask, Len7, Declared, NextOpcode, Word, BytesOf, Bad, PayloadLen;
      if remaining < readLen + 4 {
        assert buf[..remaining][..readLen] == buf[..readLen];
        LengthKnown(buf[..remaining], readLen);
        return;
      }
      maskVal := Word(buf[readLen], buf[readLen + 1], buf[readLen + 2], buf[readLen + 3]);
      ghost var h := buf[..readLen + 4];
      assert h[..readLen] == buf[..readLen];
      LengthKnown(h, readLen);
      assert h[readLen] == buf[readLen] && h[readLen + 1] == buf[readLen + 1];
      assert h[readLen + 2] == buf[readLen + 2] && h[readLen + 3] == buf[readLen + 3];
      WordFrom(h, readLen);
      readLen := readLen + 4;
      status := PAYLOAD;
    }

    /** The extended length, and what it means for the header. */
    method ExtendLength(ghost was: bv8) returns (ok: bool)
      requires Fits() && status == EXTEND_LENGTH && InHeader() && opcode == NextOpcode(was, buf[0])
      modifies `status, `payloadLen, `readLen
      ensures !ok ==> FailedWith(Run(Machine(was, WsFrames.Head([]), binary), buf[..remaining]), binary)
      ensures ok ==> status != HEADER && if status == PAYLOAD then Entered(was) else InHeader() && (status == EXTEND_LENGTH ==> Incomplete())
    {
      hide Opcode, HasRsv, HasMask, Len7, Run, BytesOf, NextOpcode, Declared;
      var code := ReadLength();
      ok := code != FAIL;
      if code == FAIL {
        ghost var s := buf[..remaining];
        assert s[..10] == buf[..10];
        NotYetBad(s);
        BadHeader(was, binary, s, 10);
      } else if code == OK {
        ghost var h := buf[..readLen];
        assert h[..readLen] == h;
        LengthKnown(h, readLen);
        hide Bad, Header, PayloadLen;
      }
    }

    /** What follows the first two bytes. */
    method ReadRest(ghost was: bv8) returns (ok: bool)
      requires Fits() && opcode == NextOpcode(was, buf[0])
      requires if status == HEADER then Entered(was) else InHeader()
      modifies `status, `payloadLen, `readLen, `maskVal
      ensures !ok ==> FailedWith(Run(Machine(was, WsFrames.Head([]), binary), buf[..remaining]), binary)
      ensures ok && status == PAYLOAD ==> Entered(was)
      ensures ok && status != PAYLOAD ==> InHeader() && Incomplete()
    {
      hide Opcode, HasRsv, HasMask, Len7, Run, Entered, Bad, PayloadLen;
      ok := true;
      if status == EXTEND_LENGTH {
        ok := ExtendLength(was);
        if !ok || status == EXTEND_LENGTH {
          return;
        }
      }
      if status == MASK {
        ReadMask(was);
      } else {
        status := PAYLOAD;
      }
    }

    /** CO_OK with another status than PAYLOAD means that more bytes are needed. */
    method ProcessHeader() returns (ok: bool)
      requires Fits() && InHeader()
      modifies `status, `opcode, `mask, `payloadLen, `readLen, `maskVal
      ensures !ok ==> FailedWith(Run(old(Before()), buf[..remaining]), binary)
      ensures ok && status == PAYLOAD ==> Entered(old(opcode))
      ensures ok && status != PAYLOAD ==> InHeader() && Incomplete() && opcode == OpcodeAfter(old(opcode), buf[..remaining])
    {
      hide Opcode, HasRsv, HasMask, Len7, Run, BytesOf;
      if status == HEADER {
        if remaining < 2 {
          ShortWaits(buf[..remaining]);
          return true;
        }
        ok := ReadFirst();
        if !ok {
          ghost var s := buf[..remaining];
          assert s[..2] == buf[..2];
          BadHeader(old(opcode), binary, s, 2);
          return false;
        }
      }
      hide Bad, Header, PayloadLen, Complete, KeyOf;
      ok := ReadRest(old(opcode));
    }

    // ---- co_websocket_process_payload ----

    /** The payload bytes in the buffer are unmasked and handed over. */
    method TakePayload(len: nat)
      requires Fits() && status == PAYLOAD && 0 < readLen + len <= remaining && len <= payloadLen
      modifies buf, `maskVal, `binary
      ensures CurrentKey() == KeyAfter(opcode, old(CurrentKey()), len)
      ensures binary == old(binary) + Output(opcode, old(CurrentKey()), old(buf[readLen..readLen + len]))
      ensures buf[readLen + len..] == old(buf[readLen + len..])
    {
      hide BytesOf, NewMask, Masked;
      ghost var was, key := buf[..], CurrentKey();
      if mask && opcode != PING {
        FastMask(buf, base, readLen, maskVal, len);
        NewMaskTurns(maskVal, len);
        maskVal := NewMask(maskVal, len);
      } else {
        ZeroKey(was[readLen..readLen + len], len);
      }
      if opcode == BINARY {
        binary := binary + buf[readLen..readLen + len];
      } else if opcode == PING {
        buf[0] := 0x8A;
      }
    }

    /** The rest of the buffer moves to its front. */
    method MoveDown(from: nat, n: nat)
      requires from + n <= buf.Length
      modifies buf
      ensures buf[..n] == old(buf[from..from + n])
    {
      forall i | 0 <= i < n {
        buf[i] := buf[from + i];
      }
    }

    /** After `len` payload bytes: the rest is a new frame, or the payload goes on,
        or the frame ends with the buffer. */
    method NextPiece(len: nat) returns (code: Code)
      requires Fits() && status == PAYLOAD && 0 < readLen + len <= remaining && len <= payloadLen && opcode != CLOSE
      requires readLen + len < remaining ==> len == payloadLen
      modifies buf, `status, `remaining, `readLen, `payloadLen
      ensures code != FAIL && Fits()
      ensures code == PENDING ==> status == HEADER && 0 < remaining < old(remaining)
      ensures code == OK ==> Valid()
      ensures State() == Run(Enter(opcode, old(payloadLen) - len, CurrentKey(), binary), old(buf[readLen + len..remaining]))
    {
      hide Run, BytesOf, Header, Complete, Bad, PayloadLen, HasRsv, HasMask, Len7, Opcode, FirstTwo;
      RunEmpty(Enter(opcode, payloadLen - len, CurrentKey(), binary));
      var newLen := remaining - readLen - len;
      assert buf[..0] == [] && (newLen == 0 ==> buf[readLen + len..remaining] == []);
      if newLen > 0 {
        MoveDown(readLen + len, newLen);
        readLen, remaining, status, payloadLen := 0, newLen, HEADER, 0;
        code := PENDING;
      } else if payloadLen > len {
        payloadLen := payloadLen - len;
        readLen, remaining := 0, 0;
        code := OK;
      } else {
        readLen, remaining, status, payloadLen := 0, 0, HEADER, 0;
        ShortWaits([]);
        code := OK;
      }
    }

    /** CO_ERROR_IO_PENDING means that another frame begins in the buffer. */
    method ProcessPayload() returns (code: Code)
      requires Fits() && status == PAYLOAD && readLen <= remaining
      requires readLen > 0 || (remaining > 0 && payloadLen > 0)
      modifies buf, `status, `remaining, `readLen, `payloadLen, `maskVal, `binary
      ensures Fits()
      ensures code == FAIL <==> opcode == CLOSE
      ensures code == FAIL ==> binary == old(binary)
      ensures code == PENDING ==> status == HEADER && 0 < remaining < old(remaining)
      ensures code == OK ==> Valid()
      ensures code != FAIL ==> State() == Run(old(Before()), old(buf[readLen..remaining]))
    {
      hide Run, Output, BytesOf, KeyAfter, Enter, State, Valid;
      var len := if remaining - readLen < payloadLen then remaining - readLen else payloadLen;
      ghost var key, out, left, all := CurrentKey(), binary, payloadLen, buf[readLen..remaining];
      assert all[..len] == buf[readLen..readLen + len];
      assert all[len..] == buf[readLen + len..][..remaining - readLen - len];
      TakePayload(len);
      if opcode == CLOSE {
        assert Output(CLOSE, key, all[..len]) == [] by { OnlyBinary(key, all[..len]); }
        return FAIL;
      }
      PayloadSplit(opcode, left, key, out, all, len);
      assert buf[readLen + len..][..remaining - readLen - len] == buf[readLen + len..remaining];
      code := NextPiece(len);
    }

    // ---- co_websocket_process ----

    /** What holds each time the loop begins. */
    ghost predicate Ready()
      reads this, buf
    {
      Fits() && remaining > 0 && (if status == PAYLOAD then readLen == 0 && payloadLen > 0 && opcode != CLOSE else InHeader())
    }

    /** At rest the automaton is alive, its output is what was handed over, and what
        is buffered is the header it has seen. */
    lemma AtRest()
      requires Valid()
      ensures State().phase != Failed && State().out == binary && remaining == Waiting(State())
    {
      if status == PAYLOAD {
        assert buf[..remaining] == [];
        RunEmpty(Before());
      } else {
        HeadRun(opcode, binary, buf[..remaining]);
      }
    }

    /** recv() puts its bytes behind those that are left. */
    method Receive(chunk: seq<bv8>)
      requires Valid() && 0 < |chunk| <= BUFFER_SIZE - remaining
      modifies buf, `remaining
      ensures Fits() && Ready() && State() == Run(old(State()), chunk)
    {
      hide Run, Header, Complete, Bad, PayloadLen, Enter, Opcode, HasRsv, HasMask, Len7;
      ghost var was := buf[..remaining];
      forall i | 0 <= i < |chunk| {
        buf[remaining + i] := chunk[i];
      }
      remaining := remaining + |chunk|;
      assert buf[..remaining] == was + chunk;
      RunConcat(Before(), was, chunk);
      assert status == MASK ==> buf[..readLen] == was[..readLen] == old(buf[..readLen]);
    }

    /** One pass of the loop; `more` says that another one follows. */
    method Pass(ghost goal: Machine) returns (ok: bool, more: bool)
      requires Ready() && State() == goal
      modifies this, buf
      ensures Fits() && (!ok ==> FailedWith(goal, binary))
      ensures ok && more ==> Ready() && State() == goal && remaining < old(remaining)
      ensures ok && !more ==> Valid() && State() == goal
    {
      hide Run, Header, Complete, Bad, PayloadLen, KeyOf, Enter, Opcode, HasRsv, HasMask, Len7;
      ghost var was, all := opcode, buf[..remaining];
      if status != PAYLOAD {
        ok := ProcessHeader();
        if !ok {
          return false, false;
        }
        if status != PAYLOAD {
          WaitingSame(was, binary, all);
          return true, false;
        }
        assert all[..readLen] == buf[..readLen] && all[readLen..] == buf[readLen..remaining];
        HeaderSplit(was, binary, all, readLen);
      } else {
        assert all == buf[readLen..remaining];
      }
      CloseFails(payloadLen, CurrentKey(), binary, buf[readLen..remaining]);
      var code := ProcessPayload();
      ok, more := code != FAIL, code == PENDING;
    }

    /** One chunk of the stream, of at most the size that recv() was asked for: the
        new state is what the chunk makes of the old one. */
    method Process(chunk: seq<bv8>) returns (ok: bool)
      requires Valid() && |chunk| <= BUFFER_SIZE - remaining
      modifies this, buf
      ensures ok <==> chunk != [] && Run(old(State()), chunk).phase != Failed
      ensures ok ==> Valid() && remaining <= 13 && State() == Run(old(State()), chunk)
      ensures chunk != [] ==> binary == Run(old(State()), chunk).out
    {
      hide Run, State, Ready, Header, Complete, InHeader;
      if |chunk| == 0 {
        return false;
      }
      ghost var goal := Run(State(), chunk);
      Receive(chunk);
      var more := true;
      ok := true;
      while more
        invariant ok && Fits() && State() == goal && if more then Ready() else Valid()
        decreases more, remaining
      {
        ok, more := Pass(goal);
        if !ok {
          return;
        }
      }
      AtRest();
    }

    /** A whole stream of chunks, until one fails: all that counts is the bytes, not
        how they were cut. */
    method ReceiveAll(chunks: seq<seq<bv8>>) returns (ok: bool)
      requires Valid() && Receivable(State(), chunks)
      modifies this, buf
      ensures ok <==> Run(old(State()), Flatten(chunks)).phase != Failed
      ensures ok ==> Valid() && State() == Run(old(State()), Flatten(chunks))
      ensures binary == Run(old(State()), Flatten(chunks)).out
    {
      hide Run, Flatten, InHeader, Incomplete;
      ghost var goal := RunChunks(State(), chunks);
      ChunkIndependence(State(), chunks);
      ok := true;
      for i := 0 to |chunks|
        invariant ok && Valid() && Receivable(State(), chunks[i..]) && RunChunks(State(), chunks[i..]) == goal
      {
        ghost var before := State();
        AtRest();
        assert chunks[i..][0] == chunks[i] && chunks[i..][1..] == chunks[i + 1..];
        ok := Process(chunks[i]);
        if !ok {
          FailedChunks(Run(before, chunks[i]), chunks[i + 1..]);
          return;
        }
      }
      AtRest();
    }
  }

  /** Main result: a new parser that receives a stream of frames, cut in any way,
      hands over exactly the unmasked payloads of the binary ones. */
  method ReceiveStream(base: nat, chunks: seq<seq<bv8>>, ghost frames: seq<Frame>) returns (p: Parser, ok: bool)
    requires WellFormedAll(frames) && Flatten(chunks) == Wire(frames)
    requires Receivable(Machine(CONTINUATION, WsFrames.Head([]), []), chunks)
    ensures fresh(p) && ok && p.binary == Delivered(CONTINUATION, frames)
  {
    hide Run, Delivered, Flatten, Wire, Receivable, WellFormedAll;
    p := new Parser(base);
    StreamRun(CONTINUATION, [], frames);
    assert [] + Delivered(CONTINUATION, frames) == Delivered(CONTINUATION, frames);
    ok := p.ReceiveAll(chunks);
  }

  lemma OnlyBinary(key: Key, s: seq<bv8>)
    ensures Output(CLOSE, key, s) == []
  {}

  lemma WaitingSame(opcode: bv8, out: seq<bv8>, h: seq<bv8>)
    requires Header(h) && !Complete(h)
    ensures Run(Machine(OpcodeAfter(opcode, h), WsFrames.Head([]), out), h)
         == Run(Machine(opcode, WsFrames.Head([]), out), h)
  {
    HeadRun(opcode, out, h);
    HeadRun(OpcodeAfter(opcode, h), out, h);
  }

  lemma HeaderSplit(opcode: bv8, out: seq<bv8>, all: seq<bv8>, n: nat)
    requires n <= |all| && Header(all[..n]) && Complete(all[..n])
    ensures Run(Machine(opcode, WsFrames.Head([]), out), all)
         == Run(Enter(NextOpcode(opcode, all[0]), PayloadLen(all[..n]), KeyOf(all[..n]), out), all[n..])
  {
    hide Run, Header, Bad, PayloadLen, KeyOf, NextOpcode, Enter;
    HeaderRun(opcode, out, all[..n]);
    RunConcat(Machine(opcode, WsFrames.Head([]), out), all[..n], all[n..]);
    assert all[..n] + all[n..] == all;
  }

  lemma CloseFails(left: nat, key: Key, out: seq<bv8>, s: seq<bv8>)
    ensures FailedWith(Run(Enter(CLOSE, left, key, out), s), out)
  {
    FailedStays(Enter(CLOSE, left, key, out), s);
  }

  lemma PayloadSplit(opcode: bv8, left: nat, key: Key, out: seq<bv8>, all: seq<bv8>, len: nat)
    requires opcode != CLOSE && len <= left && len <= |all|
    ensures Run(Enter(opcode, left, key, out), all)
         == Run(Enter(opcode, left - len, KeyAfter(opcode, key, len), out + Output(opcode, key, all[..len])), all[len..])
  {
    hide Run, Output, KeyAfter, Enter;
    BodyRun(opcode, left, key, out, all[..len]);
    RunConcat(Enter(opcode, left, key, out), all[..len], all[len..]);
    assert all[..len] + all[len..] == all;
  }

  lemma ZeroKey(s: seq<bv8>, n: nat)
    ensures Masked(s, [0, 0, 0, 0]) == s && Turned([0, 0, 0, 0], n) == [0, 0, 0, 0]
  {}

  lemma ShortWaits(s: seq<bv8>)
    requires |s| < 2
    ensures Header(s) && !Complete(s)
  {}

  lemma WordFrom(h: seq<bv8>, n: nat)
    requires |h| == n + 4
    ensures BytesOf(Word(h[n], h[n + 1], h[n + 2], h[n + 3])) == h[n..]
  {
    hide Word, BytesOf;
    WordOfBytes(h[n], h[n + 1], h[n + 2], h[n + 3]);
    assert h[n..] == [h[n], h[n + 1], h[n + 2], h[n + 3]];
  }

  lemma BigEndianNext(s: seq<bv8>, k: nat)
    requires k < |s|
    ensures BigEndian(s[..k + 1]) == 256 * BigEndian(s[..k]) + Num(s[k])
  {
    assert s[..k + 1][..k] == s[..k];
  }

  lemma TwoBytes(h: seq<bv8>)
    requires |h| == 4 && Len7(h[1]) == 126
    ensures Declared(h) == Num(h[2]) * 0x100 + Num(h[3])
  {
    var s := h[2..4];
    BigEndianNext(s, 0);
    BigEndianNext(s, 1);
    assert s[..2] == s && BigEndian(s[..0]) == 0;
  }

  function Four(s: seq<bv8>, k: nat): nat
    requires k + 4 <= |s|
  {
    Num(s[k + 3]) + Num(s[k + 2]) * 0x100 + Num(s[k + 1]) * 0x1_0000 + Num(s[k]) * 0x100_0000
  }

  lemma FourDigits(s: seq<bv8>, k: nat)
    requires k + 4 <= |s|
    ensures BigEndian(s[..k + 4]) == BigEndian(s[..k]) * 0x1_0000_0000 + Four(s, k)
  {
    hide BigEndian, Num;
    BigEndianNext(s, k);
    BigEndianNext(s, k + 1);
    BigEndianNext(s, k + 2);
    BigEndianNext(s, k + 3);
  }

  lemma EightDigits(s: seq<bv8>)
    requires |s| == 8
    ensures BigEndian(s) == Four(s, 0) * 0x1_0000_0000 + Four(s, 4)
  {
    assert BigEndian(s[..0]) == 0 && s[..8] == s;
    FourDigits(s, 0);
    FourDigits(s, 4);
  }

  lemma HighDigits(a: nat, b: nat, c: nat, d: nat)
    ensures (a + b * 0x100 + c * 0x1_0000 + d * 0x100_0000) * 0x1_0000_0000
         == a * 0x1_0000_0000 + b * 0x100_0000_0000 + c * 0x1_0000_0000_0000 + d * 0x100_0000_0000_0000
  {}

  lemma EightBytes(h: seq<bv8>)
    requires |h| == 10 && Len7(h[1]) == 127
    ensures Declared(h) == Num(h[9]) + Num(h[8]) * 0x100 + Num(h[7]) * 0x1_0000 + Num(h[6]) * 0x100_0000
                           + Num(h[5]) * 0x1_0000_0000 + Num(h[4]) * 0x100_0000_0000
                           + Num(h[3]) * 0x1_0000_0000_0000 + Num(h[2]) * 0x100_0000_0000_0000
  {
    hide BigEndian, Num, Len7;
    EightDigits(h[2..10]);
    HighDigits(Num(h[5]), Num(h[4]), Num(h[3]), Num(h[2]));
  }

  /** A header up to its extended length, and what still has to come. */
  lemma LengthKnown(h: seq<bv8>, size: nat)
    requires 2 <= size <= |h| && size == 2 + LengthBytes(h[1]) && |h| <= HeaderSize(h[1]) && !Bad(h[..size])
    ensures Header(h) && PayloadLen(h) == PayloadLen(h[..size]) && (!Complete(h) ==> |h| <= 13)
  {
    assert h[..size][2..size] == h[2..size];
    assert h[..size][0] == h[0] && h[..size][1] == h[1];
  }

  lemma NotYetBad(s: seq<bv8>)
    requires |s| >= 10 && !HasRsv(s[0]) && Known(Opcode(s[0])) && LengthBytes(s[1]) == 8
    ensures Header(s[..9]) && HeaderSize(s[1]) >= 10
  {}

  /** A buffered header that is bad after `n` bytes. */
  lemma BadHeader(opcode: bv8, out: seq<bv8>, s: seq<bv8>, n: nat)
    requires 2 <= n <= |s| && n <= HeaderSize(s[1]) && Bad(s[..n]) && Header(s[..n - 1])
    ensures FailedWith(Run(Machine(opcode, WsFrames.Head([]), out), s), out)
  {
    var h := s[..n];
    assert h[..n - 1] == s[..n - 1];
    assert h + s[n..] == s;
    BadRun(opcode, out, h, s[n..]);
  }
}
