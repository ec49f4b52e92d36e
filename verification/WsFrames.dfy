/** The frames of section 5.2 of RFC 6455 read one byte at a time: what the parser
    of websocket_server.c amounts to, however its input is cut. */
module WsFrames {
  import opened Seqs
  import opened WsMask

  const CONTINUATION: bv8 := 0
  const TEXT: bv8 := 1
  const BINARY: bv8 := 2
  const CLOSE: bv8 := 8
  const PING: bv8 := 9
  const PONG: bv8 := 10

  // ---- headers ----

  function Opcode(first: bv8): bv8 {
    first & 0x0F
  }

  predicate HasRsv(first: bv8) {
    first & 0x70 != 0
  }

  predicate HasMask(second: bv8) {
    second & 0x80 != 0
  }

  function Len7(second: bv8): (n: nat)
    ensures n < 128
  {
    (second & 0x7F) as nat
  }

  predicate Known(opcode: bv8) {
    opcode == CONTINUATION || opcode == TEXT || opcode == BINARY || opcode == CLOSE || opcode == PING || opcode == PONG
  }

  function Num(b: bv8): nat {
    b as nat
  }

  function BigEndian(s: seq<bv8>): (n: nat) {
    if s == [] then 0 else 256 * BigEndian(s[..|s| - 1]) + Num(s[|s| - 1])
  }

  function LengthBytes(second: bv8): nat {
    if Len7(second) == 126 then 2 else if Len7(second) == 127 then 8 else 0
  }

  function HeaderSize(second: bv8): (n: nat)
    ensures 2 <= n <= 14
  {
    2 + LengthBytes(second) + if HasMask(second) then 4 else 0
  }

  /** The payload length the header declares. */
  function Declared(h: seq<bv8>): nat
    requires |h| >= 2 && |h| >= 2 + LengthBytes(h[1])
  {
    if LengthBytes(h[1]) == 0 then Len7(h[1]) else BigEndian(h[2..2 + LengthBytes(h[1])])
  }

  /** The length field is a `size_t` of 32 bits. */
  function PayloadLen(h: seq<bv8>): nat
    requires |h| >= 2 && |h| >= 2 + LengthBytes(h[1])
  {
    Declared(h) % 0x1_0000_0000
  }

  function KeyOf(h: seq<bv8>): Key
    requires |h| >= 2 && |h| == HeaderSize(h[1])
  {
    if HasMask(h[1]) then h[|h| - 4..] else [0, 0, 0, 0]
  }

  /** What makes the parser give up on a header it has seen this much of. */
  predicate Bad(h: seq<bv8>) {
    && |h| >= 2
    && (HasRsv(h[0]) || !Known(Opcode(h[0]))
        || (Len7(h[1]) == 127 && |h| >= 10 && Declared(h) >= 0x8000_0000_0000_0000))
  }

  predicate Complete(h: seq<bv8>) {
    |h| >= 2 && |h| == HeaderSize(h[1])
  }

  // ---- the automaton ----

  datatype Phase = Head(got: seq<bv8>) | Body(left: nat, key: Key) | Failed

  /** `opcode` is that of the last frame that was no continuation; `out` is all
      that was handed to the binary consumer. */
  datatype Machine = Machine(opcode: bv8, phase: Phase, out: seq<bv8>)

  function NextOpcode(opcode: bv8, first: bv8): bv8 {
    if Opcode(first) == CONTINUATION then opcode else Opcode(first)
  }

  /** The state a complete header leads to. */
  function Enter(opcode: bv8, left: nat, key: Key, out: seq<bv8>): Machine {
    Machine(opcode, if opcode == CLOSE then Failed else if left == 0 then Head([]) else Body(left, key), out)
  }

  /** A ping is not unmasked, so its key stays. */
  function KeyAfter(opcode: bv8, key: Key, n: nat): Key {
    if opcode == PING then key else Turned(key, n)
  }

  function Output(opcode: bv8, key: Key, s: seq<bv8>): seq<bv8> {
    if opcode == BINARY then Masked(s, key) else []
  }

  function HeadStep(m: Machine, h: seq<bv8>): Machine {
    var opcode := if |h| == 2 then NextOpcode(m.opcode, h[0]) else m.opcode;
    if Bad(h) then m.(phase := Failed)
    else if Complete(h) then Enter(opcode, PayloadLen(h), KeyOf(h), m.out)
    else Machine(opcode, Head(h), m.out)
  }

  function Step(m: Machine, b: bv8): Machine {
    match m.phase
    case Failed => m
    case Head(got) => HeadStep(m, got + [b])
    case Body(left, key) =>
      var out := m.out + Output(m.opcode, key, [b]);
      if left <= 1 then Machine(m.opcode, Head([]), out)
      else Machine(m.opcode, Body(left - 1, KeyAfter(m.opcode, key, 1)), out)
  }

  function Run(m: Machine, s: seq<bv8>): Machine {
    if s == [] then m else Step(Run(m, s[..|s| - 1]), s[|s| - 1])
  }

  lemma {:induction false} RunConcat(m: Machine, a: seq<bv8>, b: seq<bv8>)
    ensures Run(m, a + b) == Run(Run(m, a), b)
  {
    hide Run, Step;
    if b == [] {
      assert a + b == a;
      RunEmpty(Run(m, a));
    } else {
      var n := |b| - 1;
      RunConcat(m, a, b[..n]);
      RunSnoc(m, a + b);
      RunSnoc(Run(m, a), b);
      assert (a + b)[..|a| + n] == a + b[..n];
    }
  }

  lemma RunEmpty(m: Machine)
    ensures Run(m, []) == m
  {}

  lemma RunSnoc(m: Machine, s: seq<bv8>)
    requires s != []
    ensures Run(m, s) == Step(Run(m, s[..|s| - 1]), s[|s| - 1])
  {}

  lemma {:induction false} FailedStays(m: Machine, s: seq<bv8>)
    requires m.phase == Failed
    ensures Run(m, s) == m
  {
    if s != [] {
      FailedStays(m, s[..|s| - 1]);
    }
  }

  function RunChunks(m: Machine, chunks: seq<seq<bv8>>): Machine
    decreases |chunks|
  {
    if chunks == [] then m else RunChunks(Run(m, chunks[0]), chunks[1..])
  }

  /** How the input was cut cannot be told from the state it leads to. */
  lemma {:induction false} ChunkIndependence(m: Machine, chunks: seq<seq<bv8>>)
    ensures RunChunks(m, chunks) == Run(m, Flatten(chunks))
    decreases |chunks|
  {
    if chunks != [] {
      ChunkIndependence(Run(m, chunks[0]), chunks[1..]);
      RunConcat(m, chunks[0], Flatten(chunks[1..]));
      FlattenHead(chunks);
    }
  }

  // ---- whole headers and payloads ----

  /** The opcode once `n` header bytes are seen. */
  function OpcodeAfter(opcode: bv8, h: seq<bv8>): bv8 {
    if |h| >= 2 then NextOpcode(opcode, h[0]) else opcode
  }

  /** A header the parser accepts, as far as it goes. */
  predicate Header(h: seq<bv8>) {
    !Bad(h) && (|h| >= 2 ==> |h| <= HeaderSize(h[1]))
  }

  lemma HeaderPrefix(h: seq<bv8>, n: nat)
    requires Header(h) && n <= |h|
    ensures Header(h[..n])
    ensures n < |h| ==> !Complete(h[..n])
  {
    if n >= 10 && Len7(h[1]) == 127 {
      assert h[..n][2..10] == h[2..10];
    }
  }

  /** An incomplete header only collects its bytes. */
  lemma {:induction false} HeadRun(opcode: bv8, out: seq<bv8>, h: seq<bv8>)
    requires Header(h) && !Complete(h)
    ensures Run(Machine(opcode, Head([]), out), h) == Machine(OpcodeAfter(opcode, h), Head(h), out)
  {
    if h != [] {
      var n := |h| - 1;
      HeaderPrefix(h, n);
      HeadRun(opcode, out, h[..n]);
      assert h[..n] + [h[n]] == h;
    }
  }

  lemma HeadStepIs(m: Machine, h: seq<bv8>, n: nat)
    requires n + 1 == |h| && m.phase == Head(h[..n])
    ensures Step(m, h[n]) == HeadStep(m, h)
  {
    hide HeadStep;
    assert h[..n] + [h[n]] == h;
  }

  lemma CompleteStep(opcode: bv8, out: seq<bv8>, h: seq<bv8>, n: nat)
    requires n + 1 == |h| && !Bad(h) && Complete(h)
    ensures HeadStep(Machine(OpcodeAfter(opcode, h[..n]), Head(h[..n]), out), h)
         == Enter(NextOpcode(opcode, h[0]), PayloadLen(h), KeyOf(h), out)
  {
    hide Bad, KeyOf, PayloadLen, Enter, NextOpcode;
    if n >= 2 {
      assert h[..n][0] == h[0];
    }
  }

  lemma HeaderRun(opcode: bv8, out: seq<bv8>, h: seq<bv8>)
    requires Header(h) && Complete(h)
    ensures Run(Machine(opcode, Head([]), out), h) == Enter(NextOpcode(opcode, h[0]), PayloadLen(h), KeyOf(h), out)
  {
    var n := |h| - 1;
    HeaderPrefix(h, n);
    CompleteStep(opcode, out, h, n);
    HeadRun(opcode, out, h[..n]);
    RunSnoc(Machine(opcode, Head([]), out), h);
    HeadStepIs(Run(Machine(opcode, Head([]), out), h[..n]), h, n);
  }

  lemma BadStep(m: Machine, h: seq<bv8>, n: nat)
    requires n + 1 == |h| && m.phase == Head(h[..n]) && Bad(h)
    ensures Step(m, h[n]) == m.(phase := Failed)
  {
    assert h[..n] + [h[n]] == h;
  }

  /** A header that turns bad makes the whole rest fail. */
  lemma BadRun(opcode: bv8, out: seq<bv8>, h: seq<bv8>, rest: seq<bv8>)
    requires |h| >= 2 && |h| <= HeaderSize(h[1]) && Bad(h) && Header(h[..|h| - 1])
    ensures Run(Machine(opcode, Head([]), out), h + rest).phase == Failed
    ensures Run(Machine(opcode, Head([]), out), h + rest).out == out
  {
    var n := |h| - 1;
    assert !Complete(h[..n]) by {
      if n >= 2 { assert h[..n][1] == h[1]; }
    }
    HeadRun(opcode, out, h[..n]);
    var m := Machine(opcode, Head([]), out);
    BadStep(Run(m, h[..n]), h, n);
    RunSnoc(m, h);
    RunConcat(m, h, rest);
    FailedStays(Run(m, h), rest);
  }

  lemma OutputMore(opcode: bv8, key: Key, s: seq<bv8>, b: bv8)
    ensures Output(opcode, key, s + [b]) == Output(opcode, key, s) + Output(opcode, KeyAfter(opcode, key, |s|), [b])
  {
    MaskedInPieces(s, [b], key);
  }

  lemma KeyMore(opcode: bv8, key: Key, n: nat)
    ensures KeyAfter(opcode, KeyAfter(opcode, key, n), 1) == KeyAfter(opcode, key, n + 1)
    ensures KeyAfter(opcode, key, 0) == key
  {
    TurnedTwice(key, n, 1);
    KeyUnturned(key);
  }

  /** Payload bytes, up to all of them. */
  lemma {:induction false} BodyRun(opcode: bv8, left: nat, key: Key, out: seq<bv8>, s: seq<bv8>)
    requires opcode != CLOSE && |s| <= left
    ensures Run(Enter(opcode, left, key, out), s)
         == Enter(opcode, left - |s|, KeyAfter(opcode, key, |s|), out + Output(opcode, key, s))
  {
    hide Run, Output, Masked, Turned, Step;
    if s == [] {
      KeyMore(opcode, key, 0);
      RunEmpty(Enter(opcode, left, key, out));
      assert out + Output(opcode, key, s) == out by { NoOutput(opcode, key); }
    } else {
      var n := |s| - 1;
      BodyRun(opcode, left, key, out, s[..n]);
      OutputMore(opcode, key, s[..n], s[n]);
      KeyMore(opcode, key, n);
      assert s[..n] + [s[n]] == s;
      RunSnoc(Enter(opcode, left, key, out), s);
      BodyStep(opcode, left - n, KeyAfter(opcode, key, n), out + Output(opcode, key, s[..n]), s[n]);
      Assoc(out, Output(opcode, key, s[..n]), Output(opcode, KeyAfter(opcode, key, n), [s[n]]));
    }
  }

  lemma NoOutput(opcode: bv8, key: Key)
    ensures Output(opcode, key, []) == []
  {}

  lemma BodyStep(opcode: bv8, left: nat, key: Key, out: seq<bv8>, b: bv8)
    requires opcode != CLOSE && left > 0
    ensures Step(Enter(opcode, left, key, out), b)
         == Enter(opcode, left - 1, KeyAfter(opcode, key, 1), out + Output(opcode, key, [b]))
  {}

  // ---- headers in numbers ----

  function First(fin: bool, rsv: bv8, opcode: bv8): bv8
    requires rsv < 8 && opcode < 16
  {
    (if fin then 0x80 else 0) | (rsv << 4) | opcode
  }

  function Second(masked: bool, len7: bv8): bv8
    requires len7 < 128
  {
    (if masked then 0x80 else 0) | len7
  }

  lemma FirstReads(fin: bool, rsv: bv8, opcode: bv8)
    requires rsv < 8 && opcode < 16
    ensures Opcode(First(fin, rsv, opcode)) == opcode && (HasRsv(First(fin, rsv, opcode)) <==> rsv != 0)
  {}

  lemma SecondReads(masked: bool, len7: bv8)
    requires len7 < 128
    ensures HasMask(Second(masked, len7)) == masked && Len7(Second(masked, len7)) == len7 as nat
  {}

  lemma BigEndianAt(s: seq<bv8>, k: nat)
    requires k < |s|
    ensures BigEndian(s[..k + 1]) == 256 * BigEndian(s[..k]) + Num(s[k])
  {
    assert s[..k + 1][..k] == s[..k];
  }

  lemma Ext2(s: seq<bv8>)
    requires |s| == 2
    ensures BigEndian(s) == 256 * Num(s[0]) + Num(s[1])
  {
    hide Num, BigEndian;
    BigEndianAt(s, 0);
    BigEndianAt(s, 1);
    NoDigits();
    assert s[..0] == [] && s[..2] == s;
  }

  /** The last four bytes as a number, most significant first. */
  function Last4(s: seq<bv8>): nat
    requires |s| >= 4
  {
    var n := |s|;
    0x100_0000 * Num(s[n - 4]) + 0x1_0000 * Num(s[n - 3]) + 0x100 * Num(s[n - 2]) + Num(s[n - 1])
  }

  lemma SplitLast4(s: seq<bv8>)
    requires |s| >= 4
    ensures BigEndian(s) == 0x1_0000_0000 * BigEndian(s[..|s| - 4]) + Last4(s)
  {
    hide Num, BigEndian;
    var n := |s|;
    BigEndianAt(s, n - 4);
    BigEndianAt(s, n - 3);
    BigEndianAt(s, n - 2);
    BigEndianAt(s, n - 1);
    assert s[..n] == s;
  }

  /** A header by its parts: the extended length as it stands on the wire. */
  datatype Fields = Fields(fin: bool, rsv: bv8, opcode: bv8, masked: bool, len7: bv8, ext: seq<bv8>, key: Key)

  predicate Possible(f: Fields) {
    f.rsv < 8 && f.opcode < 16 && f.len7 < 128 && |f.ext| == if f.len7 == 126 then 2 else if f.len7 == 127 then 8 else 0
  }

  function HeaderOf(f: Fields): seq<bv8>
    requires Possible(f)
  {
    [First(f.fin, f.rsv, f.opcode), Second(f.masked, f.len7)] + f.ext + if f.masked then f.key else []
  }

  /** Reserved bits, an opcode of neither section 5.5 nor 5.6, or a 64-bit length with its
      most significant bit set. */
  predicate Refused(f: Fields)
    requires Possible(f)
  {
    f.rsv != 0 || 3 <= f.opcode <= 7 || 11 <= f.opcode || (f.len7 == 127 && Num(f.ext[0]) >= 128)
  }

  /** The payload length modulo 2^32: its last four bytes, most significant first. */
  function LengthOf(f: Fields): nat
    requires Possible(f)
  {
    if f.len7 == 126 then 0x100 * Num(f.ext[0]) + Num(f.ext[1])
    else if f.len7 == 127 then Last4(f.ext)
    else Num(f.len7)
  }

  lemma ByteSize(b: bv8)
    ensures Num(b) < 256
  {}

  lemma Halved(high: nat, low: nat)
    requires low < 0x1_0000_0000
    ensures (0x1_0000_0000 * high + low) % 0x1_0000_0000 == low
    ensures 0x1_0000_0000 * high + low >= 0x8000_0000_0000_0000 <==> high >= 0x8000_0000
  {}

  lemma Last4Bound(s: seq<bv8>)
    requires |s| >= 4
    ensures Last4(s) < 0x1_0000_0000 && (Last4(s) >= 0x8000_0000 <==> Num(s[|s| - 4]) >= 128)
  {
    hide Num;
    ByteSize(s[|s| - 4]);
    ByteSize(s[|s| - 3]);
    ByteSize(s[|s| - 2]);
    ByteSize(s[|s| - 1]);
  }

  /** What eight length bytes amount to. */
  lemma Ext8(s: seq<bv8>)
    requires |s| == 8
    ensures BigEndian(s) >= 0x8000_0000_0000_0000 <==> Num(s[0]) >= 128
    ensures BigEndian(s) % 0x1_0000_0000 == Last4(s)
  {
    hide Num, BigEndian, Last4;
    SplitLast4(s);
    SplitLast4(s[..4]);
    Last4Bound(s);
    Last4Bound(s[..4]);
    NoDigits();
    assert s[..4][..0] == [];
    Halved(BigEndian(s[..4]), Last4(s));
  }

  lemma NoDigits()
    ensures BigEndian([]) == 0
  {}

  lemma KnownExactly(opcode: bv8)
    requires opcode < 16
    ensures Known(opcode) <==> !(3 <= opcode <= 7 || 11 <= opcode)
  {}

  lemma LengthReads(f: Fields)
    requires Possible(f)
    ensures LengthOf(f) == if f.ext == [] then f.len7 as nat else BigEndian(f.ext) % 0x1_0000_0000
    ensures f.len7 == 127 ==> (BigEndian(f.ext) >= 0x8000_0000_0000_0000 <==> Num(f.ext[0]) >= 128)
  {
    hide BigEndian, Last4, Num;
    Len7Is(f.len7);
    if f.len7 == 126 {
      Ext2(f.ext);
      ByteSize(f.ext[0]);
      ByteSize(f.ext[1]);
    } else if f.len7 == 127 {
      Ext8(f.ext);
    }
  }

  /** What the parser sees of a header in whole. */
  lemma HeaderParts(f: Fields)
    requires Possible(f)
    ensures var h := HeaderOf(f);
            Complete(h) && Opcode(h[0]) == f.opcode && (Bad(h) <==> Refused(f)) && PayloadLen(h) == LengthOf(f)
            && KeyOf(h) == if f.masked then f.key else [0, 0, 0, 0]
  {
    hide Opcode, HasRsv, HasMask, Len7, Known, First, Second, BigEndian, Num, LengthOf;
    var h := HeaderOf(f);
    FirstReads(f.fin, f.rsv, f.opcode);
    SecondReads(f.masked, f.len7);
    KnownExactly(f.opcode);
    Len7Is(f.len7);
    LengthReads(f);
    assert h[2..2 + |f.ext|] == f.ext;
    if f.masked {
      assert h[|h| - 4..] == f.key;
    }
  }

  lemma Len7Is(len7: bv8)
    requires len7 < 128
    ensures Num(len7) == len7 as nat < 128 && (len7 as nat == 126 <==> len7 == 126) && (len7 as nat == 127 <==> len7 == 127)
  {}

  /** The prefix of a refused header at which the parser gives up. */
  lemma RefusedAt(f: Fields) returns (n: nat)
    requires Possible(f) && Refused(f)
    ensures var h := HeaderOf(f);
            2 <= n <= |h| && n <= HeaderSize(h[1]) && Bad(h[..n]) && Header(h[..n - 1])
  {
    hide Opcode, HasRsv, HasMask, Len7, Known, First, Second, BigEndian, Num, Last4;
    var h := HeaderOf(f);
    HeaderParts(f);
    FirstReads(f.fin, f.rsv, f.opcode);
    SecondReads(f.masked, f.len7);
    KnownExactly(f.opcode);
    Len7Is(f.len7);
    if f.rsv != 0 || 3 <= f.opcode <= 7 || 11 <= f.opcode {
      n := 2;
    } else {
      n := 10;
      assert h[..10][2..10] == h[2..10];
    }
  }

  /** Main result: from between frames, the bytes of any header, of any of the three length
      forms, are refused exactly for those reasons; otherwise as many payload bytes follow
      as the length says modulo 2^32, masked with the key or not at all. */
  lemma HeaderMeans(opcode: bv8, out: seq<bv8>, f: Fields)
    requires Possible(f)
    ensures var m := Run(Machine(opcode, Head([]), out), HeaderOf(f));
            if Refused(f) then m.phase == Failed && m.out == out
            else m == Enter(if f.opcode == CONTINUATION then opcode else f.opcode, LengthOf(f),
                            if f.masked then f.key else [0, 0, 0, 0], out)
  {
    hide Run, Bad, Enter, PayloadLen, KeyOf, Opcode, LengthOf;
    var h := HeaderOf(f);
    HeaderParts(f);
    if Refused(f) {
      var n := RefusedAt(f);
      assert h[..n] + h[n..] == h && h[..n][..n - 1] == h[..n - 1] && h[..n][1] == h[1];
      BadRun(opcode, out, h[..n], h[n..]);
    } else {
      HeaderRun(opcode, out, h);
    }
  }

  // ---- streams of frames ----

  /** A frame as it is sent: any header of section 5.2 and the masked payload. */
  datatype Frame = Frame(header: seq<bv8>, body: seq<bv8>)

  predicate WellFormed(f: Frame) {
    Header(f.header) && Complete(f.header) && |f.body| == Declared(f.header) < 0x1_0000_0000
  }

  predicate WellFormedAll(frames: seq<Frame>) {
    forall f | f in frames :: WellFormed(f) && Opcode(f.header[0]) != CLOSE
  }

  function Wire(frames: seq<Frame>): seq<bv8> {
    if frames == [] then [] else frames[0].header + frames[0].body + Wire(frames[1..])
  }

  function LastOpcode(opcode: bv8, frames: seq<Frame>): bv8
    requires WellFormedAll(frames)
    decreases |frames|
  {
    if frames == [] then opcode else LastOpcode(NextOpcode(opcode, frames[0].header[0]), frames[1..])
  }

  function Payload(f: Frame): seq<bv8>
    requires WellFormed(f)
  {
    Masked(f.body, KeyOf(f.header))
  }

  /** What a frame adds to the binary output. */
  function Carried(opcode: bv8, f: Frame): seq<bv8>
    requires WellFormed(f)
  {
    if NextOpcode(opcode, f.header[0]) == BINARY then Payload(f) else []
  }

  /** The unmasked payloads of the frames that are taken for binary. */
  function Delivered(opcode: bv8, frames: seq<Frame>): seq<bv8>
    requires WellFormedAll(frames)
    decreases |frames|
  {
    if frames == [] then []
    else
      Carried(opcode, frames[0]) + Delivered(NextOpcode(opcode, frames[0].header[0]), frames[1..])
  }

  lemma FrameLength(f: Frame)
    requires WellFormed(f)
    ensures PayloadLen(f.header) == |f.body|
  {}

  lemma FrameRun(opcode: bv8, out: seq<bv8>, f: Frame)
    requires WellFormed(f) && NextOpcode(opcode, f.header[0]) != CLOSE
    ensures Run(Machine(opcode, Head([]), out), f.header + f.body)
         == Machine(NextOpcode(opcode, f.header[0]), Head([]), out + Carried(opcode, f))
  {
    var now, key := NextOpcode(opcode, f.header[0]), KeyOf(f.header);
    FrameLength(f);
    HeaderRun(opcode, out, f.header);
    RunConcat(Machine(opcode, Head([]), out), f.header, f.body);
    BodyRun(now, |f.body|, key, out, f.body);
  }

  /** A stream of frames leaves the parser between frames, having handed over the
      payloads of the binary ones, in order and whole. */
  lemma {:induction false} StreamRun(opcode: bv8, out: seq<bv8>, frames: seq<Frame>)
    requires WellFormedAll(frames) && opcode != CLOSE
    ensures Run(Machine(opcode, Head([]), out), Wire(frames))
         == Machine(LastOpcode(opcode, frames), Head([]), out + Delivered(opcode, frames))
    decreases |frames|
  {
    if frames == [] {
    } else {
      var f, now := frames[0], NextOpcode(opcode, frames[0].header[0]);
      var mine := Carried(opcode, f);
      FrameRun(opcode, out, f);
      RunConcat(Machine(opcode, Head([]), out), f.header + f.body, Wire(frames[1..]));
      StreamRun(now, out + mine, frames[1..]);
      Assoc(out, mine, Delivered(now, frames[1..]));
    }
  }

  /** A close frame ends the stream: what came before it was handed over, nothing
      after it is. */
  lemma CloseEndsStream(opcode: bv8, out: seq<bv8>, frames: seq<Frame>, close: seq<bv8>, rest: seq<bv8>)
    requires WellFormedAll(frames) && opcode != CLOSE && Header(close) && Complete(close) && Opcode(close[0]) == CLOSE
    ensures Run(Machine(opcode, Head([]), out), Wire(frames) + close + rest).phase == Failed
    ensures Run(Machine(opcode, Head([]), out), Wire(frames) + close + rest).out == out + Delivered(opcode, frames)
  {
    var m, now, out' := Machine(opcode, Head([]), out), LastOpcode(opcode, frames), out + Delivered(opcode, frames);
    assert NextOpcode(now, close[0]) == CLOSE;
    StreamRun(opcode, out, frames);
    RunConcat(m, Wire(frames), close);
    HeaderRun(now, out', close);
    RunConcat(m, Wire(frames) + close, rest);
    FailedStays(Run(m, Wire(frames) + close), rest);
  }

  // ---- what RFC 6455 asks for ----

  predicate Control(opcode: bv8) {
    opcode & 8 != 0
  }

  /** Section 5.4: a continuation belongs to the last data frame, whatever control
      frames came between. */
  function Message(data: bv8, first: bv8): bv8 {
    if Opcode(first) == CONTINUATION || Control(Opcode(first)) then data else Opcode(first)
  }

  function Binary(data: bv8, frames: seq<Frame>): seq<bv8>
    requires WellFormedAll(frames)
    decreases |frames|
  {
    if frames == [] then []
    else
      var first := frames[0].header[0];
      (if !Control(Opcode(first)) && Message(data, first) == BINARY then Payload(frames[0]) else [])
      + Binary(Message(data, first), frames[1..])
  }

  /** No continuation of a binary message that carries anything comes right after a
      control frame, or after other continuations that do. */
  predicate Uninterrupted(opcode: bv8, data: bv8, frames: seq<Frame>)
    requires WellFormedAll(frames)
    decreases |frames|
  {
    frames == [] ||
      var first := frames[0].header[0];
      (Opcode(first) == CONTINUATION && data == BINARY && Control(opcode) ==> frames[0].body == [])
      && Uninterrupted(NextOpcode(opcode, first), Message(data, first), frames[1..])
  }

  /** The parser takes a continuation for another frame of the last kind seen, so it
      delivers what section 5.4 asks for exactly when nothing is interrupted. */
  lemma {:induction false} DeliversMessages(opcode: bv8, data: bv8, frames: seq<Frame>)
    requires WellFormedAll(frames) && (opcode == data || Control(opcode)) && !Control(data)
    ensures Delivered(opcode, frames) == Binary(data, frames) <==> Uninterrupted(opcode, data, frames)
    ensures |Delivered(opcode, frames)| <= |Binary(data, frames)|
    decreases |frames|
  {
    hide Opcode, WellFormed, Payload;
    if frames != [] {
      var f := frames[0];
      FrameKnown(f);
      var first := f.header[0];
      var now, msg := NextOpcode(opcode, first), Message(data, first);
      DeliversMessages(now, msg, frames[1..]);
      var mine := Carried(opcode, f);
      var theirs := if !Control(Opcode(first)) && msg == BINARY then Payload(f) else [];
      assert mine == theirs || (mine == [] && theirs == Payload(f));
      SplitEqual(mine, theirs, Delivered(now, frames[1..]), Binary(msg, frames[1..]));
    }
  }

  lemma FrameKnown(f: Frame)
    requires WellFormed(f)
    ensures f.header != [] && Known(Opcode(f.header[0])) && |Payload(f)| == |f.body|
  {}

  lemma SplitEqual(a: seq<bv8>, b: seq<bv8>, c: seq<bv8>, d: seq<bv8>)
    requires (a == b || a == []) && |c| <= |d|
    ensures a + c == b + d <==> (a == b && c == d)
    ensures |a + c| <= |b + d|
  {
    if a + c == b + d {
      assert |a| == |b| && |c| == |d|;
      assert (a + c)[..|a|] == a && (b + d)[..|b|] == b;
      assert (a + c)[|a|..] == c && (b + d)[|b|..] == d;
    }
  }

  lemma ThreeFrames(a: Frame, b: Frame, c: Frame)
    ensures [a, b, c][1..] == [b, c] && [b, c][1..] == [c] && [c][1..] == []
  {}

  lemma ShortLength(len: bv8)
    requires len < 126
    ensures Len7(len) == len as nat < 126 && !HasMask(len)
  {}

  lemma ShortFrame(first: bv8, len: bv8, body: seq<bv8>)
    requires len < 126 && |body| == len as nat && !HasRsv(first) && Known(Opcode(first)) && Opcode(first) != CLOSE
    ensures var f := Frame([first, len], body); WellFormed(f) && Payload(f) == body
  {
    hide Len7, HasMask, Masked, Opcode, HasRsv;
    ShortLength(len);
    NoMask(body);
  }

  lemma NoMask(s: seq<bv8>)
    ensures Masked(s, [0, 0, 0, 0]) == s
  {}

  /** A ping between two fragments: the second fragment is lost. */
  lemma PingLosesFragment()
    ensures var frames := [Frame([0x02, 0x01], [7]), Frame([0x89, 0x00], []), Frame([0x80, 0x01], [9])];
            WellFormedAll(frames)
            && Delivered(CONTINUATION, frames) == [7] && Binary(CONTINUATION, frames) == [7, 9]
  {
    hide WellFormed, Payload;
    var f0, f1, f2 := Frame([0x02, 0x01], [7]), Frame([0x89, 0x00], []), Frame([0x80, 0x01], [9]);
    ShortFrame(0x02, 1, [7]);
    ShortFrame(0x89, 0, []);
    ShortFrame(0x80, 1, [9]);
    ThreeFrames(f0, f1, f2);
    assert [f0, f1, f2][0] == f0 && [f1, f2][0] == f1 && [f2][0] == f2;
    assert [7] + ([] + ([9] + [])) == [7, 9] && [7] + ([] + ([] + [])) == [7];
  }
}
