/** What the SWD and the JTAG transfer commands of CMSIS-DAP share: requests,
    the wire layer as a device answering accesses, and the retry loop. */
module DapEngine {
  import opened Words

  const ACK_OK: byte := 1
  const ACK_WAIT: byte := 2
  const ACK_ERROR: byte := 8
  const MISMATCH: byte := 16

  /** Reading RDBUFF: DP, address 0xC, RnW set. */
  const RDBUFF: byte := 0x0E

  // The bits of a request byte.
  predicate IsAp(v: byte) { v % 2 == 1 }
  predicate IsRead(v: byte) { (v / 2) % 2 == 1 }
  predicate HasValue(v: byte) { (v / 16) % 2 == 1 }
  predicate HasMask(v: byte) { (v / 32) % 2 == 1 }
  predicate IsStamped(v: byte) { (v / 128) % 2 == 1 }

  /** The bits of a request byte as DAP.h numbers them: APnDP 0, RnW 1, the address 2 and 3,
      match value 4, match mask 5, timestamp 7. */
  lemma RequestBits(v: byte, ap: nat, rnw: nat, address: nat, value: nat, mask: nat, spare: nat, stamp: nat)
    requires ap < 2 && rnw < 2 && address < 4 && value < 2 && mask < 2 && spare < 2 && stamp < 2
    requires v == ap + 2 * rnw + 4 * address + 16 * value + 32 * mask + 64 * spare + 128 * stamp
    ensures IsAp(v) == (ap == 1) && IsRead(v) == (rnw == 1) && HasValue(v) == (value == 1)
    ensures HasMask(v) == (mask == 1) && IsStamped(v) == (stamp == 1) && v / 4 % 4 == address
  {
    assert v as int / 4 == address + 4 * value + 8 * mask + 16 * spare + 32 * stamp;
    assert v as int / 16 == value + 2 * mask + 4 * spare + 8 * stamp;
    assert v as int / 32 == mask + 2 * spare + 4 * stamp;
  }

  /** One request of the command: its byte, and the word that follows it if any. */
  datatype Req = Req(v: byte, arg: u32)

  predicate HasArg(v: byte) {
    !IsRead(v) || HasValue(v)
  }

  function ReqSize(v: byte): nat {
    if HasArg(v) then 5 else 1
  }

  /** Packet memory; what lies beyond the packet reads as 0. */
  function At(mem: seq<byte>, i: nat): byte {
    if i < |mem| then mem[i] else 0
  }

  function WordAt(mem: seq<byte>, i: nat): u32 {
    At(mem, i) + 0x100 * (At(mem, i + 1) as int) + 0x1_0000 * (At(mem, i + 2) as int)
    + 0x100_0000 * (At(mem, i + 3) as int)
  }

  function Word(w: u32): (s: seq<byte>)
    ensures |s| == 4
  {
    [w % 0x100, w / 0x100 % 0x100, w / 0x1_0000 % 0x100, w / 0x100_0000]
  }

  /** Words are least significant byte first, in the packet and in the response. */
  lemma WordBytes(w: u32)
    ensures var s := Word(w);
            s[0] + 0x100 * s[1] as int + 0x1_0000 * s[2] as int + 0x100_0000 * s[3] as int == w && WordAt(s, 0) == w
  {
    var q := w / 0x100;
    assert q / 0x100 == w / 0x1_0000 && q / 0x1_0000 == w / 0x100_0000;
  }

  /** The `n` requests that start at position `pos`. */
  function Parse(mem: seq<byte>, pos: nat, n: nat): (rs: seq<Req>)
    ensures |rs| == n
    decreases n
  {
    if n == 0 then []
    else
      var v := At(mem, pos);
      [Req(v, if HasArg(v) then WordAt(mem, pos + 1) else 0)] + Parse(mem, pos + ReqSize(v), n - 1)
  }

  /** The request at position `pos`. */
  function AtHand(mem: seq<byte>, pos: nat): Req {
    Req(At(mem, pos), if HasArg(At(mem, pos)) then WordAt(mem, pos + 1) else 0)
  }

  /** The position after `n` requests. */
  function SkipAll(mem: seq<byte>, pos: nat, n: nat): nat
    decreases n
  {
    if n == 0 then pos else SkipAll(mem, pos + ReqSize(At(mem, pos)), n - 1)
  }

  /** Every request is one byte, or one byte and a word. */
  lemma {:induction false} SkipCongruent(mem: seq<byte>, pos: nat, n: nat) returns (q: nat)
    ensures SkipAll(mem, pos, n) == pos + n + 4 * q
    decreases n
  {
    q := 0;
    if n > 0 {
      q := SkipCongruent(mem, pos + ReqSize(At(mem, pos)), n - 1);
      if HasArg(At(mem, pos)) {
        q := q + 1;
      }
    }
  }

  lemma NoneLeft(mem: seq<byte>, pos: nat)
    ensures SkipAll(mem, pos, 0) == pos
  {}

  /** A loop over `n` requests that broke off at `at`, in the middle of one of the
      `left` it did not count off, and skips as many as are left, ends elsewhere. */
  lemma SkipsWrong(mem: seq<byte>, pos: nat, n: nat, at: nat, left: nat, q: nat)
    requires at + left == pos + n + 4 * q + 1
    ensures SkipAll(mem, at, left) != SkipAll(mem, pos, n)
  {
    var a := SkipCongruent(mem, at, left);
    var b := SkipCongruent(mem, pos, n);
  }

  function And32(a: u32, b: u32): u32 {
    ((a as bv32) & (b as bv32)) as u32
  }

  lemma MaskFacts(a: u32, b: u32)
    ensures And32(a, 0) == 0 && And32(a, 0xFFFF_FFFF) == a && And32(a, a) == a && And32(a, b) == And32(b, a)
  {}

  // ---- the wire ----

  /** A call of the wire layer: the request bits and the word to write. */
  datatype Access = Access(req: byte, wdata: u32)

  /** What the wire layer reports, and whether an abort command came in meanwhile. */
  datatype Reply<S> = Reply(s: S, ack: byte, rdata: u32, stamp: u32, abort: bool)

  /** Everything beyond the wire layer, with state `S`. */
  datatype Device<!S> = Device(xfer: (S, Access) -> Reply<S>, loadIr: (S, byte) -> S)

  datatype Op = Xfer(access: Access) | LoadIr(ir: byte)

  /** Device state, last captured timestamp, abort flag, and all wire operations so far. */
  datatype Wire<S> = Wire(s: S, stamp: u32, aborted: bool, log: seq<Op>)

  datatype Result<S> = Result(w: Wire<S>, ack: byte, rdata: u32)

  function Once<S>(dev: Device<S>, w: Wire<S>, a: Access): Result<S> {
    var r := dev.xfer(w.s, a);
    Result(Wire(r.s, if IsStamped(a.req) then r.stamp else w.stamp, w.aborted || r.abort, w.log + [Xfer(a)]),
           r.ack, r.rdata)
  }

  /** The transfer is repeated while it is answered WAIT, at most `retry` times more. */
  function Retry<S>(dev: Device<S>, w: Wire<S>, a: Access, retry: nat): Result<S>
    decreases retry
  {
    var r := Once(dev, w, a);
    if r.ack == ACK_WAIT && retry > 0 && !r.w.aborted then Retry(dev, r.w, a, retry - 1) else r
  }

  datatype Config = Config(retry: u16, matchRetry: u16)

  /** The variables of a transfer command. `ok` is cleared by the breaks of its
      loop; `ir` is the loaded instruction (JTAG only, 0 for none). */
  datatype State<S> = State(w: Wire<S>, data: u32, post: bool, check: bool, ir: byte, mask: u32,
                            out: seq<byte>, count: nat, value: byte, ok: bool)

  function Start<S>(w: Wire<S>, mask: u32): State<S> {
    State(w.(aborted := false), 0, false, false, 0, mask, [], 0, 0, true)
  }

  /** One transfer with retries. The data variable is written when `capture` is
      set and the wire layer delivered a word. */
  function Do<S>(dev: Device<S>, cfg: Config, st: State<S>, req: byte, capture: bool): State<S> {
    var r := Retry(dev, st.w, Access(req, st.data), cfg.retry);
    st.(w := r.w, value := r.ack, ok := r.ack == ACK_OK,
        data := if capture && (r.ack == ACK_OK || r.ack == ACK_ERROR) then r.rdata else st.data)
  }

  function PutData<S>(st: State<S>): State<S> {
    st.(out := st.out + Word(st.data))
  }

  function PutStamp<S>(st: State<S>, v: byte): State<S> {
    if IsStamped(v) then st.(out := st.out + Word(st.w.stamp)) else st
  }

  /** Read until the value matches or the retries are used up. */
  function MatchLoop<S>(dev: Device<S>, cfg: Config, st: State<S>, r: Req, retry: nat): State<S>
    decreases retry
  {
    var st1 := Do(dev, cfg, st, r.v, true);
    if st1.ok && And32(st1.data, st1.mask) != r.arg && retry > 0 && !st1.w.aborted
    then MatchLoop(dev, cfg, st1, r, retry - 1)
    else st1
  }

  /** The end of a match: a mismatch is flagged also when the last read failed. */
  function MatchEnd<S>(st: State<S>, r: Req): State<S> {
    if And32(st.data, st.mask) == r.arg then st
    else st.(value := if st.value < 16 then st.value + MISMATCH else st.value, ok := false)
  }

  function Response<S>(st: State<S>): seq<byte> {
    [st.count % 0x100, st.value] + st.out
  }

  // ---- value match ----

  /** A device that acknowledges everything, and whose reads do not look at the word to write. */
  ghost predicate Obliging<S(!new)>(dev: Device<S>) {
    forall s: S, a: Access ::
      dev.xfer(s, a).ack == ACK_OK && !dev.xfer(s, a).abort
      && (IsRead(a.req) ==> dev.xfer(s, a) == dev.xfer(s, Access(a.req, 0)))
  }

  /** The device after `i` reads of one register ... */
  function AfterReads<S>(dev: Device<S>, s: S, req: byte, i: nat): S {
    if i == 0 then s else dev.xfer(AfterReads(dev, s, req, i - 1), Access(req, 0)).s
  }

  /** ... and the word the next one returns. */
  function NextWord<S>(dev: Device<S>, s: S, req: byte, i: nat): u32 {
    dev.xfer(AfterReads(dev, s, req, i), Access(req, 0)).rdata
  }

  /** Read `i`, from 0 on, returns a word that matches. */
  predicate Hits<S>(dev: Device<S>, s: S, r: Req, mask: u32, i: nat) {
    And32(NextWord(dev, s, r.v, i), mask) == r.arg
  }

  ghost predicate FirstHit<S>(dev: Device<S>, s: S, r: Req, mask: u32, i: nat) {
    Hits(dev, s, r, mask, i) && forall j: nat :: j < i ==> !Hits(dev, s, r, mask, j)
  }

  ghost predicate Misses<S>(dev: Device<S>, s: S, r: Req, mask: u32, n: nat) {
    forall j: nat :: j < n ==> !Hits(dev, s, r, mask, j)
  }

  /** What `n` reads in a row leave behind. */
  ghost predicate ReadOn<S>(dev: Device<S>, st: State<S>, v: byte, n: nat, st1: State<S>) {
    n > 0 && st1.w.s == AfterReads(dev, st.w.s, v, n) && |st1.w.log| == |st.w.log| + n && !st1.w.aborted
    && st1.data == NextWord(dev, st.w.s, v, n - 1)
    && st1 == st.(w := st1.w, data := st1.data, value := st1.value, ok := st1.ok)
  }

  lemma DoObliged<S(!new)>(dev: Device<S>, cfg: Config, st: State<S>, v: byte, capture: bool)
    requires Obliging(dev) && IsRead(v)
    ensures var r, st1 := dev.xfer(st.w.s, Access(v, 0)), Do(dev, cfg, st, v, capture);
            st1.w.s == r.s && |st1.w.log| == |st.w.log| + 1 && st1.w.aborted == st.w.aborted
            && st1 == st.(w := st1.w, data := if capture then r.rdata else st.data, value := ACK_OK, ok := true)
  {
    var a := Access(v, st.data);
    assert dev.xfer(st.w.s, a) == dev.xfer(st.w.s, Access(a.req, 0));
    assert dev.xfer(st.w.s, a).ack == ACK_OK;
  }

  lemma {:induction false} AfterReadsFirst<S>(dev: Device<S>, s: S, v: byte, i: nat)
    ensures AfterReads(dev, dev.xfer(s, Access(v, 0)).s, v, i) == AfterReads(dev, s, v, i + 1)
    ensures NextWord(dev, dev.xfer(s, Access(v, 0)).s, v, i) == NextWord(dev, s, v, i + 1)
  {
    if i > 0 {
      AfterReadsFirst(dev, s, v, i - 1);
    }
  }

  /** The loop stops at the first word that matches, and otherwise when the retries are used up. */
  lemma {:induction false} MatchLoopReads<S(!new)>(dev: Device<S>, cfg: Config, st: State<S>, r: Req, retry: nat) returns (n: nat)
    requires Obliging(dev) && IsRead(r.v) && !st.w.aborted
    ensures 0 < n <= retry + 1 && ReadOn(dev, st, r.v, n, MatchLoop(dev, cfg, st, r, retry))
    ensures MatchLoop(dev, cfg, st, r, retry).ok && MatchLoop(dev, cfg, st, r, retry).value == ACK_OK
    ensures Misses(dev, st.w.s, r, st.mask, n - 1) && (n <= retry ==> Hits(dev, st.w.s, r, st.mask, n - 1))
    decreases retry
  {
    hide Do, Obliging, And32;
    var s := st.w.s;
    DoObliged(dev, cfg, st, r.v, true);
    var st1 := Do(dev, cfg, st, r.v, true);
    assert NextWord(dev, s, r.v, 0) == st1.data && AfterReads(dev, s, r.v, 1) == st1.w.s;
    if And32(st1.data, st1.mask) != r.arg && retry > 0 {
      n := MatchLoopReads(dev, cfg, st1, r, retry - 1);
      forall i: nat {
        AfterReadsFirst(dev, s, r.v, i);
      }
      forall j: nat | j < n
        ensures j > 0 ==> Hits(dev, s, r, st.mask, j) == Hits(dev, st1.w.s, r, st.mask, j - 1)
      {
        if j > 0 {
          AfterReadsFirst(dev, s, r.v, j - 1);
        }
      }
      assert !Hits(dev, s, r, st.mask, 0);
      n := n + 1;
    } else {
      n := 1;
    }
  }

  /** Read until the value matches: the request succeeds exactly when one of the first
      match_retry + 1 words does, and the reads stop at the first that does; otherwise
      they are all made, and the answer is OK with the mismatch bit. */
  lemma MatchAnswers<S(!new)>(dev: Device<S>, cfg: Config, st: State<S>, r: Req)
    requires Obliging(dev) && IsRead(r.v) && !st.w.aborted
    ensures var st1 := MatchEnd(MatchLoop(dev, cfg, st, r, cfg.matchRetry), r);
            (forall i: nat :: i <= cfg.matchRetry as int && FirstHit(dev, st.w.s, r, st.mask, i) ==>
               st1.ok && st1.value == ACK_OK && ReadOn(dev, st, r.v, i + 1, st1))
            && (Misses(dev, st.w.s, r, st.mask, cfg.matchRetry as int + 1) ==>
                  !st1.ok && st1.value == 0x11 && ReadOn(dev, st, r.v, cfg.matchRetry as int + 1, st1))
            && (st1.ok <==> exists i: nat :: i <= cfg.matchRetry as int && Hits(dev, st.w.s, r, st.mask, i))
  {
    hide MatchLoop, Obliging, And32;
    var n := MatchLoopReads(dev, cfg, st, r, cfg.matchRetry);
    var s := st.w.s;
    assert Hits(dev, s, r, st.mask, n - 1) == (And32(NextWord(dev, s, r.v, n - 1), st.mask) == r.arg);
  }

  /** A match whose first read is refused reports that acknowledgement, and a mismatch as
      well unless the word at hand happens to match: after a parity error (8) the word that
      came in, otherwise that of an earlier access. */
  lemma MatchFails<S>(dev: Device<S>, cfg: Config, st: State<S>, r: Req)
    requires var a := dev.xfer(st.w.s, Access(r.v, st.data)); a.ack != ACK_OK && a.ack != ACK_WAIT && a.ack < 16
    ensures var a, st1 := dev.xfer(st.w.s, Access(r.v, st.data)), MatchEnd(MatchLoop(dev, cfg, st, r, cfg.matchRetry), r);
            !st1.ok && st1.data == (if a.ack == 8 then a.rdata else st.data) && |st1.w.log| == |st.w.log| + 1
            && st1.value == a.ack + if And32(st1.data, st.mask) == r.arg then 0 else 16
  {
    hide And32;
  }

  lemma {:induction false} FirstExists<S>(dev: Device<S>, s: S, r: Req, mask: u32, i: nat) returns (k: nat)
    requires Hits(dev, s, r, mask, i)
    ensures k <= i && FirstHit(dev, s, r, mask, k)
  {
    if j: nat :| j < i && Hits(dev, s, r, mask, j) {
      k := FirstExists(dev, s, r, mask, j);
    } else {
      k := i;
    }
  }

  lemma {:induction false} MatchLoopFrame<S>(dev: Device<S>, cfg: Config, st: State<S>, r: Req, retry: nat)
    ensures var st1 := MatchLoop(dev, cfg, st, r, retry); st1 == st.(w := st1.w, data := st1.data, value := st1.value, ok := st1.ok)
    decreases retry
  {
    hide Retry, And32;
    if retry > 0 {
      MatchLoopFrame(dev, cfg, Do(dev, cfg, st, r.v, true), r, retry - 1);
    }
  }

  // ---- how often the wire is used ----

  lemma {:induction false} RetryUses<S>(dev: Device<S>, w: Wire<S>, a: Access, retry: nat)
    ensures |Retry(dev, w, a, retry).w.log| <= |w.log| + retry + 1
    decreases retry
  {
    var r := Once(dev, w, a);
    if r.ack == ACK_WAIT && retry > 0 && !r.w.aborted {
      RetryUses(dev, r.w, a, retry - 1);
    }
  }

  /** `k` transfers, each with all its retries. */
  function Budget(cfg: Config, k: nat): nat {
    k * (cfg.retry as int + 1)
  }

  lemma BudgetAdds(cfg: Config, j: nat, k: nat)
    ensures Budget(cfg, j) + Budget(cfg, k) == Budget(cfg, j + k)
  {}

  lemma DoUses<S>(dev: Device<S>, cfg: Config, st: State<S>, req: byte, capture: bool)
    ensures |Do(dev, cfg, st, req, capture).w.log| <= |st.w.log| + Budget(cfg, 1)
  {
    RetryUses(dev, st.w, Access(req, st.data), cfg.retry);
  }

  lemma {:induction false} MatchLoopUses<S>(dev: Device<S>, cfg: Config, st: State<S>, r: Req, retry: nat)
    ensures |MatchLoop(dev, cfg, st, r, retry).w.log| <= |st.w.log| + Budget(cfg, retry + 1)
    decreases retry
  {
    DoUses(dev, cfg, st, r.v, true);
    BudgetAdds(cfg, 1, retry);
    if retry > 0 {
      MatchLoopUses(dev, cfg, Do(dev, cfg, st, r.v, true), r, retry - 1);
    }
  }

  // ---- WAIT answers ----

  /** A device that now and then, by the clock `i` of its transfers, ignores an
      access and answers WAIT. */
  datatype Waiting<S> = Waiting(s: S, i: nat)

  function WaitingDevice<S>(dev: Device<S>, waits: nat -> bool): Device<Waiting<S>> {
    Device((q: Waiting<S>, a: Access) =>
             if waits(q.i) then Reply(Waiting(q.s, q.i + 1), ACK_WAIT, 0, 0, false)
             else
               var r := dev.xfer(q.s, a);
               Reply(Waiting(r.s, q.i + 1), r.ack, r.rdata, r.stamp, r.abort),
           (q: Waiting<S>, ir: byte) => Waiting(dev.loadIr(q.s, ir), q.i))
  }

  ghost predicate AnswersWithin(waits: nat -> bool, i: nat, k: nat) {
    exists j: nat :: i <= j <= i + k && !waits(j)
  }

  /** Never more than `k` WAITs in a row. */
  ghost predicate AtMostInARow(waits: nat -> bool, k: nat) {
    forall i: nat :: AnswersWithin(waits, i, k)
  }

  /** The device itself neither waits nor aborts. */
  ghost predicate Prompt<S(!new)>(dev: Device<S>) {
    forall s: S, a: Access :: dev.xfer(s, a).ack != ACK_WAIT && !dev.xfer(s, a).abort
  }

  /** The same wire, WAITs aside. */
  ghost predicate SameWire<S>(w: Wire<S>, q: Wire<Waiting<S>>) {
    q.s.s == w.s && !w.aborted && !q.aborted
  }

  lemma {:induction false} RetryHidesWaits<S(!new)>(dev: Device<S>, waits: nat -> bool, w: Wire<S>, q: Wire<Waiting<S>>,
                                                   a: Access, retry: nat, j: nat)
    requires Prompt(dev) && SameWire(w, q) && q.s.i <= j <= q.s.i + retry && !waits(j)
    ensures var r, p := Once(dev, w, a), Retry(WaitingDevice(dev, waits), q, a, retry);
            SameWire(r.w, p.w) && p.ack == r.ack && p.rdata == r.rdata
            && (IsStamped(a.req) ==> p.w.stamp == r.w.stamp)
    decreases retry
  {
    if waits(q.s.i) {
      RetryHidesWaits(dev, waits, w, Once(WaitingDevice(dev, waits), q, a).w, a, retry - 1, j);
    }
  }

  /** Equal up to the wire. */
  ghost predicate Same<S>(st: State<S>, q: State<Waiting<S>>) {
    SameWire(st.w, q.w) && st.data == q.data && st.post == q.post && st.check == q.check && st.ir == q.ir
    && st.mask == q.mask && st.out == q.out && st.count == q.count && st.value == q.value && st.ok == q.ok
  }

  /** The wait schedule fits the retry count, the device itself is prompt. */
  ghost predicate Transparent<S(!new)>(dev: Device<S>, cfg: Config, waits: nat -> bool) {
    Prompt(dev) && AtMostInARow(waits, cfg.retry)
  }

  lemma DoSame<S(!new)>(dev: Device<S>, cfg: Config, waits: nat -> bool, st: State<S>, q: State<Waiting<S>>, req: byte, capture: bool)
    requires Transparent(dev, cfg, waits) && Same(st, q)
    ensures var st1, q1 := Do(dev, cfg, st, req, capture), Do(WaitingDevice(dev, waits), cfg, q, req, capture);
            Same(st1, q1) && (IsStamped(req) ==> st1.w.stamp == q1.w.stamp)
  {
    assert AnswersWithin(waits, q.w.s.i, cfg.retry);
    var j: nat :| q.w.s.i <= j <= q.w.s.i + cfg.retry && !waits(j);
    RetryHidesWaits(dev, waits, st.w, q.w, Access(req, st.data), cfg.retry, j);
    var r := Once(dev, st.w, Access(req, st.data));
    assert r.ack != ACK_WAIT;
  }

  lemma {:induction false} MatchLoopSame<S(!new)>(dev: Device<S>, cfg: Config, waits: nat -> bool,
                                                  st: State<S>, q: State<Waiting<S>>, r: Req, retry: nat)
    requires Transparent(dev, cfg, waits) && Same(st, q)
    ensures Same(MatchLoop(dev, cfg, st, r, retry), MatchLoop(WaitingDevice(dev, waits), cfg, q, r, retry))
    decreases retry
  {
    var wd := WaitingDevice(dev, waits);
    DoSame(dev, cfg, waits, st, q, r.v, true);
    if retry > 0 {
      MatchLoopSame(dev, cfg, waits, Do(dev, cfg, st, r.v, true), Do(wd, cfg, q, r.v, true), r, retry - 1);
    }
  }

  // ---- what the value byte reports ----

  /** A device with a note of every acknowledgement it gave. */
  datatype Noted<S> = Noted(s: S, acks: seq<byte>)

  function NotingDevice<S>(dev: Device<S>): Device<Noted<S>> {
    Device((q: Noted<S>, a: Access) =>
             var r := dev.xfer(q.s, a);
             Reply(Noted(r.s, q.acks + [r.ack]), r.ack, r.rdata, r.stamp, r.abort),
           (q: Noted<S>, ir: byte) => Noted(dev.loadIr(q.s, ir), q.acks))
  }

  function LastAck(acks: seq<byte>): byte {
    if acks == [] then ACK_OK else acks[|acks| - 1]
  }

  predicate OkOrWait(acks: seq<byte>) {
    forall i :: 0 <= i < |acks| ==> acks[i] == ACK_OK || acks[i] == ACK_WAIT
  }

  /** So far every access was answered OK, possibly after WAITs. */
  predicate Fine<S>(st: State<Noted<S>>) {
    st.ok && (st.value == ACK_OK || st.value == 0) && OkOrWait(st.w.s.acks) && LastAck(st.w.s.acks) == ACK_OK
  }

  /** Or the last access ended the list: its answer, possibly with the mismatch bit, is the value. */
  predicate Broken<S>(st: State<Noted<S>>) {
    var acks := st.w.s.acks;
    !st.ok && st.value != ACK_OK && acks != [] && OkOrWait(acks[..|acks| - 1])
    && (st.value == LastAck(acks) || st.value == LastAck(acks) + MISMATCH as int)
  }

  predicate Reports<S>(st: State<Noted<S>>) {
    Fine(st) || Broken(st)
  }

  lemma {:induction false} RetryNoted<S>(dev: Device<S>, w: Wire<Noted<S>>, a: Access, retry: nat)
    requires OkOrWait(w.s.acks)
    ensures var r := Retry(NotingDevice(dev), w, a, retry);
            var acks := r.w.s.acks;
            acks != [] && LastAck(acks) == r.ack && OkOrWait(acks[..|acks| - 1])
    decreases retry
  {
    var r := Once(NotingDevice(dev), w, a);
    assert r.w.s.acks[..|w.s.acks|] == w.s.acks;
    if r.ack == ACK_WAIT && retry > 0 && !r.w.aborted {
      RetryNoted(dev, r.w, a, retry - 1);
    }
  }

  lemma DoNoted<S>(dev: Device<S>, cfg: Config, st: State<Noted<S>>, req: byte, capture: bool)
    requires Fine(st)
    ensures var st1 := Do(NotingDevice(dev), cfg, st, req, capture);
            Reports(st1) && st1.value == LastAck(st1.w.s.acks) && st1.w.s.acks != []
  {
    hide NotingDevice;
    RetryNoted(dev, st.w, Access(req, st.data), cfg.retry);
    var acks := Do(NotingDevice(dev), cfg, st, req, capture).w.s.acks;
    assert acks == acks[..|acks| - 1] + [LastAck(acks)];
  }

  lemma {:induction false} MatchLoopNoted<S>(dev: Device<S>, cfg: Config, st: State<Noted<S>>, r: Req, retry: nat)
    requires Fine(st)
    ensures var st1 := MatchLoop(NotingDevice(dev), cfg, st, r, retry);
            Reports(st1) && st1.value == LastAck(st1.w.s.acks) && st1.w.s.acks != []
    decreases retry
  {
    hide Do, NotingDevice, And32;
    DoNoted(dev, cfg, st, r.v, true);
    var st1 := Do(NotingDevice(dev), cfg, st, r.v, true);
    if st1.ok && retry > 0 {
      MatchLoopNoted(dev, cfg, st1, r, retry - 1);
    }
  }

  lemma MatchEndNoted<S>(st: State<Noted<S>>, r: Req)
    requires Reports(st) && st.value == LastAck(st.w.s.acks) && st.w.s.acks != []
    ensures Reports(MatchEnd(st, r)) && (MatchEnd(st, r).ok ==> MatchEnd(st, r).value == ACK_OK)
  {
    hide And32;
    var acks := st.w.s.acks;
    assert st.ok ==> OkOrWait(acks[..|acks| - 1]);
  }

  /** The last operation of a transfer with retries is that transfer. */
  lemma {:induction false} RetryLast<S>(dev: Device<S>, w: Wire<S>, a: Access, retry: nat)
    ensures var log := Retry(dev, w, a, retry).w.log; log != [] && log[|log| - 1] == Xfer(a)
    decreases retry
  {
    var r := Once(dev, w, a);
    if r.ack == ACK_WAIT && retry > 0 && !r.w.aborted {
      RetryLast(dev, r.w, a, retry - 1);
    }
  }

  /** The wire was last used for reading RDBUFF. */
  predicate EndsWithRdbuff(log: seq<Op>) {
    log != [] && log[|log| - 1].Xfer? && log[|log| - 1].access.req == RDBUFF
  }

  // ---- abort ----

  /** A device with a count of the transfers that come after an abort command. */
  datatype Counted<S> = Counted(s: S, aborted: bool, late: nat)

  function CountingDevice<S>(dev: Device<S>): Device<Counted<S>> {
    Device((q: Counted<S>, a: Access) =>
             var r := dev.xfer(q.s, a);
             Reply(Counted(r.s, q.aborted || r.abort, q.late + if q.aborted then 1 else 0), r.ack, r.rdata, r.stamp, r.abort),
           (q: Counted<S>, ir: byte) => q.(s := dev.loadIr(q.s, ir)))
  }

  /** The command knows of the abort, and at most `k` transfers came after it. */
  predicate LateAtMost<S>(st: State<Counted<S>>, k: nat) {
    st.w.aborted == st.w.s.aborted && st.w.s.late <= if st.w.aborted then k else 0
  }

  lemma {:induction false} RetryLate<S>(dev: Device<S>, w: Wire<Counted<S>>, a: Access, retry: nat)
    requires w.aborted == w.s.aborted
    ensures var r := Retry(CountingDevice(dev), w, a, retry);
            r.w.aborted == r.w.s.aborted && (w.aborted ==> r.w.aborted) && r.w.s.late == w.s.late + if w.aborted then 1 else 0
    decreases retry
  {
    var r := Once(CountingDevice(dev), w, a);
    if r.ack == ACK_WAIT && retry > 0 && !r.w.aborted {
      RetryLate(dev, r.w, a, retry - 1);
    }
  }

  /** No transfer is repeated once the abort is seen. */
  lemma DoLate<S>(dev: Device<S>, cfg: Config, st: State<Counted<S>>, req: byte, capture: bool, k: nat)
    requires LateAtMost(st, k)
    ensures LateAtMost(Do(CountingDevice(dev), cfg, st, req, capture), if st.w.aborted then k + 1 else 0)
  {
    hide Retry, CountingDevice;
    RetryLate(dev, st.w, Access(req, st.data), cfg.retry);
  }

  lemma {:induction false} MatchLoopLate<S>(dev: Device<S>, cfg: Config, st: State<Counted<S>>, r: Req, retry: nat, k: nat)
    requires LateAtMost(st, k)
    ensures LateAtMost(MatchLoop(CountingDevice(dev), cfg, st, r, retry), if st.w.aborted then k + 1 else 0)
    decreases retry
  {
    hide Do, CountingDevice, And32;
    DoLate(dev, cfg, st, r.v, true, k);
    var st1 := Do(CountingDevice(dev), cfg, st, r.v, true);
    if retry > 0 && !st1.w.aborted {
      MatchLoopLate(dev, cfg, st1, r, retry - 1, 0);
    }
  }
}
