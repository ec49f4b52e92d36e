/** DAP_JTAG_Transfer: the same list of accesses over a scan chain, where every
    read is posted and the instruction register chooses between DP and AP. */
module JtagTransfer {
  import opened Words
  import opened DapEngine

  const DPACC: byte := 0x0A
  const APACC: byte := 0x0B

  function IrFor(v: byte): byte {
    if IsAp(v) then APACC else DPACC
  }

  // ---- the command ----

  /** JTAG_IR, skipped when the instruction is loaded already. */
  function Select<S>(dev: Device<S>, st: State<S>, ir: byte): State<S> {
    if st.ir == ir then st
    else st.(ir := ir, w := st.w.(s := dev.loadIr(st.w.s, ir), log := st.w.log + [LoadIr(ir)]))
  }

  function FetchPosted<S>(dev: Device<S>, cfg: Config, st: State<S>): State<S> {
    Do(dev, cfg, Select(dev, st, DPACC), RDBUFF, true)
  }

  function ReadPosted<S>(dev: Device<S>, cfg: Config, st: State<S>, v: byte): State<S> {
    if st.ir == IrFor(v) && !HasValue(v) then
      var st1 := Do(dev, cfg, st, v, true);
      if st1.ok then PutStamp(PutData(st1), v) else st1
    else
      var st1 := FetchPosted(dev, cfg, st).(post := false);
      if st1.ok then PutData(st1) else st1
  }

  function MatchRead<S>(dev: Device<S>, cfg: Config, st: State<S>, r: Req): State<S> {
    var st1 := Do(dev, cfg, Select(dev, st, IrFor(r.v)), r.v, false);
    if st1.ok then MatchEnd(MatchLoop(dev, cfg, st1, r, cfg.matchRetry), r) else st1
  }

  function PlainRead<S>(dev: Device<S>, cfg: Config, st: State<S>, v: byte): State<S> {
    if st.post then st
    else
      var st1 := Do(dev, cfg, Select(dev, st, IrFor(v)), v, false);
      if st1.ok then PutStamp(st1, v).(post := true) else st1
  }

  function Read<S>(dev: Device<S>, cfg: Config, st: State<S>, r: Req): State<S> {
    var st1 := if st.post then ReadPosted(dev, cfg, st, r.v) else st;
    if !st1.ok then st1
    else if HasValue(r.v) then MatchRead(dev, cfg, st1, r)
    else PlainRead(dev, cfg, st1, r.v)
  }

  function Drain<S>(dev: Device<S>, cfg: Config, st: State<S>): State<S> {
    if !st.post then st
    else
      var st1 := FetchPosted(dev, cfg, st);
      if st1.ok then PutData(st1).(post := false) else st1
  }

  function PlainWrite<S>(dev: Device<S>, cfg: Config, st: State<S>, r: Req): State<S> {
    var st1 := st.(data := r.arg);
    if HasMask(r.v) then st1.(mask := r.arg, value := ACK_OK)
    else
      var st2 := Do(dev, cfg, Select(dev, st1, IrFor(r.v)), r.v, false);
      if st2.ok then PutStamp(st2, r.v) else st2
  }

  function Write<S>(dev: Device<S>, cfg: Config, st: State<S>, r: Req): State<S> {
    var st1 := Drain(dev, cfg, st);
    if st1.ok then PlainWrite(dev, cfg, st1, r) else st1
  }

  function Request<S>(dev: Device<S>, cfg: Config, st: State<S>, r: Req): State<S> {
    var st1 := if IsRead(r.v) then Read(dev, cfg, st, r) else Write(dev, cfg, st, r);
    if st1.ok then st1.(count := st1.count + 1) else st1
  }

  function Requests<S>(dev: Device<S>, cfg: Config, st: State<S>, rs: seq<Req>): State<S>
    decreases |rs|
  {
    if rs == [] || !st.ok || st.w.aborted then st else Requests(dev, cfg, Request(dev, cfg, st, rs[0]), rs[1..])
  }

  function Finish<S>(dev: Device<S>, cfg: Config, st: State<S>): State<S> {
    if st.value != ACK_OK then st
    else if st.post then
      var st1 := FetchPosted(dev, cfg, st);
      if st1.ok then PutData(st1) else st1
    else Do(dev, cfg, Select(dev, st, DPACC), RDBUFF, false)
  }

  function Transfer<S>(dev: Device<S>, cfg: Config, w: Wire<S>, mask: u32, rs: seq<Req>): State<S> {
    Finish(dev, cfg, Requests(dev, cfg, Start(w, mask), rs))
  }

  // ---- the length of the request ----

  /** The word of a request is taken from the packet once nothing is posted any more. */
  predicate TookArg<S>(dev: Device<S>, cfg: Config, st: State<S>, r: Req) {
    HasArg(r.v)
    && if IsRead(r.v) then (st.post ==> ReadPosted(dev, cfg, st, r.v).ok) else Drain(dev, cfg, st).ok
  }

  /** Where the loop over the requests stops reading, and the requests it has not
      counted off: a break leaves the count as it was. */
  function Stopped<S>(dev: Device<S>, cfg: Config, st: State<S>, mem: seq<byte>, pos: nat, n: nat): (r: (nat, nat))
    ensures r.1 <= n
    decreases n
  {
    if n == 0 || !st.ok || st.w.aborted then (pos, n)
    else
      var r := AtHand(mem, pos);
      var st1, next := Request(dev, cfg, st, r), pos + 1 + if TookArg(dev, cfg, st, r) then 4 else 0;
      if st1.ok && !st1.w.aborted then Stopped(dev, cfg, st1, mem, next, n - 1) else (next, n)
  }

  /** The number of request bytes that is returned: whatever is left is skipped. */
  function Length<S>(dev: Device<S>, cfg: Config, w: Wire<S>, mask: u32, mem: seq<byte>): nat {
    var (pos, left) := Stopped(dev, cfg, Start(w, mask), mem, 2, At(mem, 1));
    SkipAll(mem, pos, left)
  }

  lemma OkTookArg<S>(dev: Device<S>, cfg: Config, st: State<S>, r: Req)
    requires st.ok && Request(dev, cfg, st, r).ok
    ensures TookArg(dev, cfg, st, r) == HasArg(r.v)
  {
    hide ReadPosted, MatchRead, PlainRead, Drain, PlainWrite;
  }

  /** One turn of the loop. */
  lemma Unrolled<S>(dev: Device<S>, cfg: Config, st: State<S>, mem: seq<byte>, pos: nat, n: nat)
    requires n > 0 && st.ok && !st.w.aborted
    ensures var r := AtHand(mem, pos);
            var st1, next := Request(dev, cfg, st, r), pos + 1 + if TookArg(dev, cfg, st, r) then 4 else 0;
            var left := if st1.ok && !st1.w.aborted then n - 1 else n;
            Requests(dev, cfg, st, Parse(mem, pos, n)) == Requests(dev, cfg, st1, Parse(mem, next, left))
            && Stopped(dev, cfg, st, mem, pos, n) == Stopped(dev, cfg, st1, mem, next, left)
  {
    hide Request, TookArg;
    var r := AtHand(mem, pos);
    assert Parse(mem, pos, n)[0] == r && Parse(mem, pos, n)[1..] == Parse(mem, pos + ReqSize(r.v), n - 1);
    if Request(dev, cfg, st, r).ok {
      OkTookArg(dev, cfg, st, r);
    }
  }

  lemma Ended<S>(dev: Device<S>, cfg: Config, st: State<S>, mem: seq<byte>, pos: nat, n: nat)
    requires n == 0 || !st.ok || st.w.aborted
    ensures Requests(dev, cfg, st, Parse(mem, pos, n)) == st && Stopped(dev, cfg, st, mem, pos, n) == (pos, n)
  {}

  lemma {:induction false} StoppedRight<S>(dev: Device<S>, cfg: Config, st: State<S>, mem: seq<byte>, pos: nat, n: nat)
    requires st.ok && !st.w.aborted
    ensures var (p, left) := Stopped(dev, cfg, st, mem, pos, n);
            var st1 := Requests(dev, cfg, st, Parse(mem, pos, n));
            (left == 0 <==> n == 0 || (st1.ok && !st1.w.aborted)) && (left == 0 ==> p == SkipAll(mem, pos, n))
    decreases n
  {
    hide Request, TookArg;
    if n > 0 {
      var r := AtHand(mem, pos);
      var st1 := Request(dev, cfg, st, r);
      assert Parse(mem, pos, n)[0] == r && Parse(mem, pos, n)[1..] == Parse(mem, pos + ReqSize(r.v), n - 1);
      if st1.ok && !st1.w.aborted {
        OkTookArg(dev, cfg, st, r);
        StoppedRight(dev, cfg, st1, mem, pos + ReqSize(r.v), n - 1);
      }
    }
  }

  lemma {:induction false} StoppedCongruent<S>(dev: Device<S>, cfg: Config, st: State<S>, mem: seq<byte>, pos: nat, n: nat)
    returns (q: nat)
    requires st.ok && !st.w.aborted
    ensures var (p, left) := Stopped(dev, cfg, st, mem, pos, n);
            p + left == pos + n + 4 * q + if left > 0 then 1 else 0
    decreases n
  {
    hide Request, TookArg;
    q := 0;
    if n > 0 {
      var r := AtHand(mem, pos);
      var st1, took := Request(dev, cfg, st, r), TookArg(dev, cfg, st, r);
      if st1.ok && !st1.w.aborted {
        q := StoppedCongruent(dev, cfg, st1, mem, pos + 1 + if took then 4 else 0, n - 1);
      }
      q := q + if took then 1 else 0;
    }
  }

  /** What the command returns: for an unknown device index it goes past that byte only. */
  function Used<S>(dev: Device<S>, cfg: Config, devCount: nat, w: Wire<S>, mask: u32, mem: seq<byte>): nat {
    if At(mem, 0) < devCount then Length(dev, cfg, w, mask, mem) else 1
  }

  /** The returned number of request bytes is that of the packet exactly when the
      device is known, and no request failed and no abort came before the last one
      was done; after any other end the next command would be looked for at the
      wrong place. */
  lemma LengthRight<S>(dev: Device<S>, cfg: Config, devCount: nat, w: Wire<S>, mask: u32, mem: seq<byte>)
    ensures var n, st := At(mem, 1), Requests(dev, cfg, Start(w, mask), Parse(mem, 2, At(mem, 1)));
            Used(dev, cfg, devCount, w, mask, mem) == SkipAll(mem, 2, n)
            <==> At(mem, 0) < devCount && (n == 0 || (st.ok && !st.w.aborted))
  {
    hide Requests, Stopped, SkipAll;
    var (pos, left) := Stopped(dev, cfg, Start(w, mask), mem, 2, At(mem, 1));
    StoppedRight(dev, cfg, Start(w, mask), mem, 2, At(mem, 1));
    var q := StoppedCongruent(dev, cfg, Start(w, mask), mem, 2, At(mem, 1));
    var c := SkipCongruent(mem, 2, At(mem, 1));
    if left == 0 {
      NoneLeft(mem, pos);
    } else {
      SkipsWrong(mem, 2, At(mem, 1), pos, left, q);
    }
  }

  // ---- the instruction is always the right one ----

  /** The instruction loaded last, 0 for none. */
  function Loaded(log: seq<Op>): byte {
    if log == [] then 0
    else match log[|log| - 1]
      case LoadIr(ir) => ir
      case Xfer(_) => Loaded(log[..|log| - 1])
  }

  /** Every transfer so far ran with the instruction its request asks for. */
  ghost predicate RightIr(log: seq<Op>) {
    forall k :: 0 <= k < |log| && log[k].Xfer? ==> Loaded(log[..k]) == IrFor(log[k].access.req)
  }

  /** The cached instruction is the loaded one. */
  ghost predicate Tracked<S>(st: State<S>) {
    RightIr(st.w.log) && st.ir == Loaded(st.w.log)
  }

  lemma LogXfer(log: seq<Op>, a: Access)
    requires RightIr(log) && Loaded(log) == IrFor(a.req)
    ensures RightIr(log + [Xfer(a)]) && Loaded(log + [Xfer(a)]) == Loaded(log)
  {
    var log' := log + [Xfer(a)];
    assert log'[..|log|] == log;
    assert forall k :: 0 <= k < |log| ==> log'[..k] == log[..k];
  }

  lemma LogLoad(log: seq<Op>, ir: byte)
    requires RightIr(log)
    ensures RightIr(log + [LoadIr(ir)]) && Loaded(log + [LoadIr(ir)]) == ir
  {
    var log' := log + [LoadIr(ir)];
    assert forall k :: 0 <= k < |log| ==> log'[..k] == log[..k];
  }

  lemma {:induction false} RetryTracked<S>(dev: Device<S>, w: Wire<S>, a: Access, retry: nat)
    requires RightIr(w.log) && Loaded(w.log) == IrFor(a.req)
    ensures RightIr(Retry(dev, w, a, retry).w.log) && Loaded(Retry(dev, w, a, retry).w.log) == Loaded(w.log)
    decreases retry
  {
    var r := Once(dev, w, a);
    LogXfer(w.log, a);
    if r.ack == ACK_WAIT && retry > 0 && !r.w.aborted {
      RetryTracked(dev, r.w, a, retry - 1);
    }
  }

  lemma DoTracked<S>(dev: Device<S>, cfg: Config, st: State<S>, req: byte, capture: bool)
    requires Tracked(st) && st.ir == IrFor(req)
    ensures Tracked(Do(dev, cfg, st, req, capture)) && Do(dev, cfg, st, req, capture).ir == st.ir
  {
    RetryTracked(dev, st.w, Access(req, st.data), cfg.retry);
  }

  lemma SelectDoTracked<S>(dev: Device<S>, cfg: Config, st: State<S>, req: byte, capture: bool)
    requires Tracked(st)
    ensures var st1 := Do(dev, cfg, Select(dev, st, IrFor(req)), req, capture);
            Tracked(st1) && st1.ir == IrFor(req)
  {
    LogLoad(st.w.log, IrFor(req));
    DoTracked(dev, cfg, Select(dev, st, IrFor(req)), req, capture);
  }

  lemma {:induction false} MatchLoopTracked<S>(dev: Device<S>, cfg: Config, st: State<S>, r: Req, retry: nat)
    requires Tracked(st) && st.ir == IrFor(r.v)
    ensures Tracked(MatchLoop(dev, cfg, st, r, retry))
    decreases retry
  {
    DoTracked(dev, cfg, st, r.v, true);
    if retry > 0 {
      MatchLoopTracked(dev, cfg, Do(dev, cfg, st, r.v, true), r, retry - 1);
    }
  }

  lemma ReadPostedTracked<S>(dev: Device<S>, cfg: Config, st: State<S>, v: byte)
    requires Tracked(st)
    ensures Tracked(ReadPosted(dev, cfg, st, v))
  {
    hide Do, Select, RightIr, Loaded;
    SelectDoTracked(dev, cfg, st, RDBUFF, true);
    if st.ir == IrFor(v) {
      DoTracked(dev, cfg, st, v, true);
    }
  }

  lemma MatchReadTracked<S>(dev: Device<S>, cfg: Config, st: State<S>, r: Req)
    requires Tracked(st)
    ensures Tracked(MatchRead(dev, cfg, st, r))
  {
    hide Do, Select, MatchLoop, RightIr, Loaded;
    SelectDoTracked(dev, cfg, st, r.v, false);
    MatchLoopTracked(dev, cfg, Do(dev, cfg, Select(dev, st, IrFor(r.v)), r.v, false), r, cfg.matchRetry);
  }

  lemma WriteTracked<S>(dev: Device<S>, cfg: Config, st: State<S>, r: Req)
    requires Tracked(st)
    ensures Tracked(Write(dev, cfg, st, r))
  {
    hide Do, Select, RightIr, Loaded;
    SelectDoTracked(dev, cfg, st, RDBUFF, true);
    var st1 := Drain(dev, cfg, st);
    SelectDoTracked(dev, cfg, st1.(data := r.arg), r.v, false);
  }

  lemma RequestTracked<S>(dev: Device<S>, cfg: Config, st: State<S>, r: Req)
    requires Tracked(st)
    ensures Tracked(Request(dev, cfg, st, r))
  {
    hide ReadPosted, MatchRead, Write, Do, Select, RightIr, Loaded;
    if IsRead(r.v) {
      ReadPostedTracked(dev, cfg, st, r.v);
      var st1 := if st.post then ReadPosted(dev, cfg, st, r.v) else st;
      MatchReadTracked(dev, cfg, st1, r);
      SelectDoTracked(dev, cfg, st1, r.v, false);
    } else {
      WriteTracked(dev, cfg, st, r);
    }
  }

  lemma {:induction false} RequestsTracked<S>(dev: Device<S>, cfg: Config, st: State<S>, rs: seq<Req>)
    requires Tracked(st)
    ensures Tracked(Requests(dev, cfg, st, rs))
    decreases |rs|
  {
    hide Request, Tracked;
    if rs != [] && st.ok && !st.w.aborted {
      RequestTracked(dev, cfg, st, rs[0]);
      RequestsTracked(dev, cfg, Request(dev, cfg, st, rs[0]), rs[1..]);
    }
  }

  /** Whatever acknowledgements come back, every transfer runs with the
      instruction that matches its request's APnDP bit. */
  lemma TransferRightIr<S>(dev: Device<S>, cfg: Config, w: Wire<S>, mask: u32, rs: seq<Req>)
    requires w.log == []
    ensures RightIr(Transfer(dev, cfg, w, mask, rs).w.log)
  {
    hide Requests, Do, Select;
    RequestsTracked(dev, cfg, Start(w, mask), rs);
    var st := Requests(dev, cfg, Start(w, mask), rs);
    SelectDoTracked(dev, cfg, st, RDBUFF, true);
    SelectDoTracked(dev, cfg, st, RDBUFF, false);
  }

  // ---- WAIT answers change nothing ----

  lemma SelectSame<S>(dev: Device<S>, waits: nat -> bool, st: State<S>, q: State<Waiting<S>>, ir: byte)
    requires Same(st, q)
    ensures Same(Select(dev, st, ir), Select(WaitingDevice(dev, waits), q, ir))
  {}

  lemma SelectDoSame<S(!new)>(dev: Device<S>, cfg: Config, waits: nat -> bool, st: State<S>, q: State<Waiting<S>>,
                              req: byte, capture: bool)
    requires Transparent(dev, cfg, waits) && Same(st, q)
    ensures var st1 := Do(dev, cfg, Select(dev, st, IrFor(req)), req, capture);
            var q1 := Do(WaitingDevice(dev, waits), cfg, Select(WaitingDevice(dev, waits), q, IrFor(req)), req, capture);
            Same(st1, q1) && (IsStamped(req) ==> st1.w.stamp == q1.w.stamp)
  {
    hide Do, Select, Same, Transparent, WaitingDevice;
    SelectSame(dev, waits, st, q, IrFor(req));
    DoSame(dev, cfg, waits, Select(dev, st, IrFor(req)), Select(WaitingDevice(dev, waits), q, IrFor(req)), req, capture);
  }

  lemma ReadPostedSame<S(!new)>(dev: Device<S>, cfg: Config, waits: nat -> bool, st: State<S>, q: State<Waiting<S>>, v: byte)
    requires Transparent(dev, cfg, waits) && Same(st, q)
    ensures Same(ReadPosted(dev, cfg, st, v), ReadPosted(WaitingDevice(dev, waits), cfg, q, v))
  {
    hide Do, Select, Transparent, WaitingDevice;
    DoSame(dev, cfg, waits, st, q, v, true);
    SelectDoSame(dev, cfg, waits, st, q, RDBUFF, true);
  }

  lemma MatchReadSame<S(!new)>(dev: Device<S>, cfg: Config, waits: nat -> bool, st: State<S>, q: State<Waiting<S>>, r: Req)
    requires Transparent(dev, cfg, waits) && Same(st, q)
    ensures Same(MatchRead(dev, cfg, st, r), MatchRead(WaitingDevice(dev, waits), cfg, q, r))
  {
    hide Do, Select, MatchLoop, Transparent, WaitingDevice;
    var wd := WaitingDevice(dev, waits);
    SelectDoSame(dev, cfg, waits, st, q, r.v, false);
    MatchLoopSame(dev, cfg, waits, Do(dev, cfg, Select(dev, st, IrFor(r.v)), r.v, false),
                  Do(wd, cfg, Select(wd, q, IrFor(r.v)), r.v, false), r, cfg.matchRetry);
  }

  lemma PlainReadSame<S(!new)>(dev: Device<S>, cfg: Config, waits: nat -> bool, st: State<S>, q: State<Waiting<S>>, v: byte)
    requires Transparent(dev, cfg, waits) && Same(st, q)
    ensures Same(PlainRead(dev, cfg, st, v), PlainRead(WaitingDevice(dev, waits), cfg, q, v))
  {
    hide Do, Select, Transparent, WaitingDevice;
    SelectDoSame(dev, cfg, waits, st, q, v, false);
  }

  lemma WriteSame<S(!new)>(dev: Device<S>, cfg: Config, waits: nat -> bool, st: State<S>, q: State<Waiting<S>>, r: Req)
    requires Transparent(dev, cfg, waits) && Same(st, q)
    ensures Same(Write(dev, cfg, st, r), Write(WaitingDevice(dev, waits), cfg, q, r))
  {
    hide Do, Select, Transparent, WaitingDevice;
    SelectDoSame(dev, cfg, waits, st, q, RDBUFF, true);
    var st1, q1 := Drain(dev, cfg, st), Drain(WaitingDevice(dev, waits), cfg, q);
    assert Same(st1, q1);
    SelectDoSame(dev, cfg, waits, st1.(data := r.arg), q1.(data := r.arg), r.v, false);
  }

  lemma RequestSame<S(!new)>(dev: Device<S>, cfg: Config, waits: nat -> bool, st: State<S>, q: State<Waiting<S>>, r: Req)
    requires Transparent(dev, cfg, waits) && Same(st, q)
    ensures Same(Request(dev, cfg, st, r), Request(WaitingDevice(dev, waits), cfg, q, r))
  {
    hide ReadPosted, MatchRead, PlainRead, Write, Transparent, WaitingDevice;
    if IsRead(r.v) {
      ReadPostedSame(dev, cfg, waits, st, q, r.v);
      var st1 := if st.post then ReadPosted(dev, cfg, st, r.v) else st;
      var q1 := if st.post then ReadPosted(WaitingDevice(dev, waits), cfg, q, r.v) else q;
      MatchReadSame(dev, cfg, waits, st1, q1, r);
      PlainReadSame(dev, cfg, waits, st1, q1, r.v);
    } else {
      WriteSame(dev, cfg, waits, st, q, r);
    }
  }

  lemma {:induction false} RequestsSame<S(!new)>(dev: Device<S>, cfg: Config, waits: nat -> bool,
                                                 st: State<S>, q: State<Waiting<S>>, rs: seq<Req>)
    requires Transparent(dev, cfg, waits) && Same(st, q)
    ensures Same(Requests(dev, cfg, st, rs), Requests(WaitingDevice(dev, waits), cfg, q, rs))
    decreases |rs|
  {
    hide Request, Transparent, WaitingDevice;
    if rs != [] && st.ok {
      RequestSame(dev, cfg, waits, st, q, rs[0]);
      RequestsSame(dev, cfg, waits, Request(dev, cfg, st, rs[0]), Request(WaitingDevice(dev, waits), cfg, q, rs[0]), rs[1..]);
    }
  }

  /** A chain that answers WAIT at most retry_count times in a row, ignoring those
      accesses, gets the same response as one that never waits. */
  lemma WaitsChangeNothing<S(!new)>(dev: Device<S>, cfg: Config, waits: nat -> bool,
                                    w: Wire<S>, q: Wire<Waiting<S>>, mask: u32, rs: seq<Req>)
    requires Transparent(dev, cfg, waits) && q.s.s == w.s
    ensures var st, sq := Transfer(dev, cfg, w, mask, rs), Transfer(WaitingDevice(dev, waits), cfg, q, mask, rs);
            Response(st) == Response(sq) && st.mask == sq.mask && st.w.s == sq.w.s.s
  {
    hide Requests, Do, Select, Transparent, WaitingDevice;
    RequestsSame(dev, cfg, waits, Start(w, mask), Start(q, mask), rs);
    var st := Requests(dev, cfg, Start(w, mask), rs);
    var sq := Requests(WaitingDevice(dev, waits), cfg, Start(q, mask), rs);
    SelectDoSame(dev, cfg, waits, st, sq, RDBUFF, true);
    SelectDoSame(dev, cfg, waits, st, sq, RDBUFF, false);
  }

  // ---- what the count says ----

  lemma DoCount<S>(dev: Device<S>, cfg: Config, st: State<S>, ir: byte, req: byte, capture: bool)
    ensures Do(dev, cfg, st, req, capture).count == st.count && Do(dev, cfg, Select(dev, st, ir), req, capture).count == st.count
  {
    hide Retry;
  }

  lemma MatchCount<S>(dev: Device<S>, cfg: Config, st: State<S>, r: Req)
    ensures MatchRead(dev, cfg, st, r).count == st.count
  {
    hide Do, Select, MatchLoop, And32;
    DoCount(dev, cfg, st, IrFor(r.v), r.v, false);
    MatchLoopFrame(dev, cfg, Do(dev, cfg, Select(dev, st, IrFor(r.v)), r.v, false), r, cfg.matchRetry);
  }

  lemma PartsCount<S>(dev: Device<S>, cfg: Config, st: State<S>, r: Req)
    ensures ReadPosted(dev, cfg, st, r.v).count == st.count && MatchRead(dev, cfg, st, r).count == st.count
    ensures PlainRead(dev, cfg, st, r.v).count == st.count
    ensures Drain(dev, cfg, st).count == st.count && PlainWrite(dev, cfg, st, r).count == st.count
  {
    hide Do, Select, MatchRead, Word;
    MatchCount(dev, cfg, st, r);
    DoCount(dev, cfg, st, DPACC, RDBUFF, true);
    DoCount(dev, cfg, st, IrFor(r.v), r.v, true);
    DoCount(dev, cfg, st, IrFor(r.v), r.v, false);
    DoCount(dev, cfg, st.(data := r.arg), IrFor(r.v), r.v, false);
  }

  lemma RequestCounted<S>(dev: Device<S>, cfg: Config, st: State<S>, r: Req)
    requires st.ok
    ensures Request(dev, cfg, st, r).count == st.count + if Request(dev, cfg, st, r).ok then 1 else 0
  {
    hide ReadPosted, MatchRead, PlainRead, Drain, PlainWrite;
    PartsCount(dev, cfg, st, r);
    PartsCount(dev, cfg, if !IsRead(r.v) then Drain(dev, cfg, st) else if st.post then ReadPosted(dev, cfg, st, r.v) else st, r);
  }

  /** Whatever is answered, the count is the number of requests before the one that failed,
      or before the abort. */
  lemma {:induction false} RequestsCounted<S>(dev: Device<S>, cfg: Config, st: State<S>, rs: seq<Req>) returns (k: nat)
    requires st.ok
    ensures var a := Requests(dev, cfg, st, rs);
            k <= |rs| && a.count == st.count + k && Requests(dev, cfg, st, rs[..k]).ok
            && (if a.ok then a == Requests(dev, cfg, st, rs[..k]) && (k == |rs| || a.w.aborted)
                else k < |rs| && a == Request(dev, cfg, Requests(dev, cfg, st, rs[..k]), rs[k]))
    decreases |rs|
  {
    hide Request;
    k := 0;
    if rs != [] && !st.w.aborted {
      var st1 := Request(dev, cfg, st, rs[0]);
      RequestCounted(dev, cfg, st, rs[0]);
      if st1.ok {
        k := RequestsCounted(dev, cfg, st1, rs[1..]);
        assert rs[..k + 1][1..] == rs[1..][..k];
        k := k + 1;
      }
    }
  }

  // ---- what the response reports ----

  lemma SelectFine<S>(dev: Device<S>, st: State<Noted<S>>, ir: byte)
    requires Fine(st)
    ensures Fine(Select(NotingDevice(dev), st, ir))
  {}

  lemma PartsReport<S>(dev: Device<S>, cfg: Config, st: State<Noted<S>>, r: Req)
    requires Fine(st)
    ensures var d := NotingDevice(dev);
            Reports(ReadPosted(d, cfg, st, r.v)) && Reports(MatchRead(d, cfg, st, r)) && Reports(PlainRead(d, cfg, st, r.v))
            && Reports(Drain(d, cfg, st)) && Reports(PlainWrite(d, cfg, st, r))
  {
    hide Do, Select, NotingDevice, MatchLoop, OkOrWait, LastAck, MatchEnd;
    var d, st0 := NotingDevice(dev), st.(data := r.arg);
    SelectFine(dev, st, IrFor(r.v));
    SelectFine(dev, st0, IrFor(r.v));
    SelectFine(dev, st, DPACC);
    DoNoted(dev, cfg, st, r.v, true);
    DoNoted(dev, cfg, Select(d, st, IrFor(r.v)), r.v, false);
    DoNoted(dev, cfg, Select(d, st, DPACC), RDBUFF, true);
    DoNoted(dev, cfg, Select(d, st0, IrFor(r.v)), r.v, false);
    var st1 := Do(d, cfg, Select(d, st, IrFor(r.v)), r.v, false);
    if st1.ok {
      MatchLoopNoted(dev, cfg, st1, r, cfg.matchRetry);
      MatchEndNoted(MatchLoop(d, cfg, st1, r, cfg.matchRetry), r);
    }
  }

  lemma RequestReports<S>(dev: Device<S>, cfg: Config, st: State<Noted<S>>, r: Req)
    requires Fine(st)
    ensures Reports(Request(NotingDevice(dev), cfg, st, r))
  {
    hide ReadPosted, MatchRead, PlainRead, Drain, PlainWrite, NotingDevice, OkOrWait, LastAck;
    PartsReport(dev, cfg, st, r);
    var d := NotingDevice(dev);
    var st1 := if !IsRead(r.v) then Drain(d, cfg, st) else if st.post then ReadPosted(d, cfg, st, r.v) else st;
    if st1.ok {
      PartsReport(dev, cfg, st1, r);
    }
  }

  lemma {:induction false} RequestsReport<S>(dev: Device<S>, cfg: Config, st: State<Noted<S>>, rs: seq<Req>)
    requires Reports(st)
    ensures Reports(Requests(NotingDevice(dev), cfg, st, rs))
    decreases |rs|
  {
    hide Request, NotingDevice, OkOrWait, LastAck;
    if rs != [] && st.ok && !st.w.aborted {
      RequestReports(dev, cfg, st, rs[0]);
      RequestsReport(dev, cfg, Request(NotingDevice(dev), cfg, st, rs[0]), rs[1..]);
    }
  }

  /** Whatever the port answers: no access follows one that was not answered OK in the
      end, and the value byte is the answer to the last access, possibly with the
      mismatch bit. */
  lemma TransferReports<S>(dev: Device<S>, cfg: Config, s: S, mask: u32, rs: seq<Req>)
    ensures Reports(Transfer(NotingDevice(dev), cfg, Wire(Noted(s, []), 0, false, []), mask, rs))
  {
    hide Requests, Do, Select, NotingDevice;
    var w: Wire<Noted<S>> := Wire(Noted(s, []), 0, false, []);
    RequestsReport(dev, cfg, Start(w, mask), rs);
    var st := Requests(NotingDevice(dev), cfg, Start(w, mask), rs);
    if Fine(st) {
      SelectFine(dev, st, DPACC);
      DoNoted(dev, cfg, Select(NotingDevice(dev), st, DPACC), RDBUFF, true);
      DoNoted(dev, cfg, Select(NotingDevice(dev), st, DPACC), RDBUFF, false);
    }
  }

  /** Every list that ran through ends with a read of RDBUFF, whose answer is what the
      value byte reports. */
  lemma LastAccessChecked<S>(dev: Device<S>, cfg: Config, w: Wire<S>, mask: u32, rs: seq<Req>)
    requires Requests(dev, cfg, Start(w, mask), rs).value == ACK_OK
    ensures EndsWithRdbuff(Transfer(dev, cfg, w, mask, rs).w.log)
  {
    hide Requests, Retry, Select;
    var st := Select(dev, Requests(dev, cfg, Start(w, mask), rs), DPACC);
    RetryLast(dev, st.w, Access(RDBUFF, st.data), cfg.retry);
  }

  // ---- abort ----

  lemma SelectLate<S>(dev: Device<S>, st: State<Counted<S>>, ir: byte, k: nat)
    requires LateAtMost(st, k)
    ensures LateAtMost(Select(CountingDevice(dev), st, ir), k) && Select(CountingDevice(dev), st, ir).w.aborted == st.w.aborted
  {}

  lemma MatchLate<S>(dev: Device<S>, cfg: Config, st: State<Counted<S>>, r: Req, k: nat)
    requires LateAtMost(st, k)
    ensures LateAtMost(MatchRead(CountingDevice(dev), cfg, st, r), if st.w.aborted then k + 2 else 1)
  {
    hide Do, Select, CountingDevice, MatchLoop, And32;
    var d, n: nat := CountingDevice(dev), if st.w.aborted then k + 1 else 0;
    var st0 := Select(d, st, IrFor(r.v));
    SelectLate(dev, st, IrFor(r.v), k);
    DoLate(dev, cfg, st0, r.v, false, k);
    MatchLoopLate(dev, cfg, Do(d, cfg, st0, r.v, false), r, cfg.matchRetry, n);
  }

  lemma PartsLate<S>(dev: Device<S>, cfg: Config, st: State<Counted<S>>, r: Req, k: nat)
    requires LateAtMost(st, k)
    ensures var d, n: nat := CountingDevice(dev), if st.w.aborted then k + 1 else 0;
            LateAtMost(ReadPosted(d, cfg, st, r.v), n) && LateAtMost(PlainRead(d, cfg, st, r.v), n)
            && LateAtMost(Drain(d, cfg, st), n) && LateAtMost(PlainWrite(d, cfg, st, r), n)
  {
    hide Do, Select, CountingDevice, Word;
    var d, n: nat := CountingDevice(dev), if st.w.aborted then k + 1 else 0;
    var st0, q := Select(d, st, IrFor(r.v)), st.(data := r.arg);
    SelectLate(dev, st, IrFor(r.v), k);
    SelectLate(dev, st, DPACC, k);
    SelectLate(dev, q, IrFor(r.v), k);
    DoLate(dev, cfg, st, r.v, true, k);
    DoLate(dev, cfg, st0, r.v, false, k);
    DoLate(dev, cfg, Select(d, st, DPACC), RDBUFF, true, k);
    DoLate(dev, cfg, Select(d, q, IrFor(r.v)), r.v, false, k);
  }

  lemma RequestLate<S>(dev: Device<S>, cfg: Config, st: State<Counted<S>>, r: Req)
    requires LateAtMost(st, 0) && !st.w.aborted
    ensures LateAtMost(Request(CountingDevice(dev), cfg, st, r), 2)
  {
    hide ReadPosted, MatchRead, PlainRead, Drain, PlainWrite, CountingDevice;
    PartsLate(dev, cfg, st, r, 0);
    var d := CountingDevice(dev);
    var st1 := if !IsRead(r.v) then Drain(d, cfg, st) else if st.post then ReadPosted(d, cfg, st, r.v) else st;
    PartsLate(dev, cfg, st1, r, 0);
    MatchLate(dev, cfg, st1, r, 0);
  }

  lemma {:induction false} RequestsLate<S>(dev: Device<S>, cfg: Config, st: State<Counted<S>>, rs: seq<Req>)
    requires LateAtMost(st, 2)
    ensures LateAtMost(Requests(CountingDevice(dev), cfg, st, rs), 2)
    decreases |rs|
  {
    hide Request, CountingDevice;
    if rs != [] && st.ok && !st.w.aborted {
      RequestLate(dev, cfg, st, rs[0]);
      RequestsLate(dev, cfg, Request(CountingDevice(dev), cfg, st, rs[0]), rs[1..]);
    }
  }

  /** DAP_TransferAbort: whatever is left of the list and of the retries, at most three
      more transfers are made after the one during which it came. */
  lemma AbortStops<S>(dev: Device<S>, cfg: Config, s: S, mask: u32, rs: seq<Req>)
    ensures Transfer(CountingDevice(dev), cfg, Wire(Counted(s, false, 0), 0, false, []), mask, rs).w.s.late <= 3
  {
    hide Requests, Do, Select, CountingDevice;
    var w: Wire<Counted<S>> := Wire(Counted(s, false, 0), 0, false, []);
    RequestsLate(dev, cfg, Start(w, mask), rs);
    var st := Requests(CountingDevice(dev), cfg, Start(w, mask), rs);
    SelectLate(dev, st, DPACC, 2);
    DoLate(dev, cfg, Select(CountingDevice(dev), st, DPACC), RDBUFF, true, 2);
    DoLate(dev, cfg, Select(CountingDevice(dev), st, DPACC), RDBUFF, false, 2);
  }
}
