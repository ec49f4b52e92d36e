/** DAP_SWD_Transfer: a list of register accesses with posted AP reads, value
    matches and retries, as functions, with what they are worth. */
module SwdTransfer {
  import opened Words
  import opened DapEngine

  // ---- the command ----

  /** A read was posted before: fetch its data, and post the next AP read with it if there is one. */
  function ReadPosted<S>(dev: Device<S>, cfg: Config, st: State<S>, v: byte): State<S> {
    if IsAp(v) && !HasValue(v) then
      var st1 := Do(dev, cfg, st, v, true);
      if st1.ok then PutStamp(PutData(st1), v) else st1
    else
      var st1 := Do(dev, cfg, st, RDBUFF, true).(post := false);
      if st1.ok then PutData(st1) else st1
  }

  function MatchRead<S>(dev: Device<S>, cfg: Config, st: State<S>, r: Req): State<S> {
    var st1 := if IsAp(r.v) then Do(dev, cfg, st, r.v, false) else st;
    if st1.ok then MatchEnd(MatchLoop(dev, cfg, st1, r, cfg.matchRetry), r) else st1
  }

  function PlainRead<S>(dev: Device<S>, cfg: Config, st: State<S>, v: byte): State<S> {
    if IsAp(v) then
      if st.post then st
      else
        var st1 := Do(dev, cfg, st, v, false);
        if st1.ok then PutStamp(st1, v).(post := true) else st1
    else
      var st1 := Do(dev, cfg, st, v, true);
      if st1.ok then PutData(PutStamp(st1, v)) else st1
  }

  function Read<S>(dev: Device<S>, cfg: Config, st: State<S>, r: Req): State<S> {
    var st1 := if st.post then ReadPosted(dev, cfg, st, r.v) else st;
    if !st1.ok then st1
    else
      var st2 := if HasValue(r.v) then MatchRead(dev, cfg, st1, r) else PlainRead(dev, cfg, st1, r.v);
      if st2.ok then st2.(check := false) else st2
  }

  /** Fetch the data of a posted read before doing something else. */
  function Drain<S>(dev: Device<S>, cfg: Config, st: State<S>): State<S> {
    if !st.post then st
    else
      var st1 := Do(dev, cfg, st, RDBUFF, true);
      if st1.ok then PutData(st1).(post := false) else st1
  }

  function PlainWrite<S>(dev: Device<S>, cfg: Config, st: State<S>, r: Req): State<S> {
    var st1 := st.(data := r.arg);
    if HasMask(r.v) then st1.(mask := r.arg, value := ACK_OK)
    else
      var st2 := Do(dev, cfg, st1, r.v, false);
      if st2.ok then PutStamp(st2, r.v).(check := true) else st2
  }

  function Write<S>(dev: Device<S>, cfg: Config, st: State<S>, r: Req): State<S> {
    var st1 := Drain(dev, cfg, st);
    if st1.ok then PlainWrite(dev, cfg, st1, r) else st1
  }

  /** One request; its count goes up only when the loop does not break. */
  function Request<S>(dev: Device<S>, cfg: Config, st: State<S>, r: Req): State<S> {
    var st1 := if IsRead(r.v) then Read(dev, cfg, st, r) else Write(dev, cfg, st, r);
    if st1.ok then st1.(count := st1.count + 1) else st1
  }

  function Requests<S>(dev: Device<S>, cfg: Config, st: State<S>, rs: seq<Req>): State<S>
    decreases |rs|
  {
    if rs == [] || !st.ok || st.w.aborted then st else Requests(dev, cfg, Request(dev, cfg, st, rs[0]), rs[1..])
  }

  /** After the loop: fetch what is still posted, or check the last write. */
  function Finish<S>(dev: Device<S>, cfg: Config, st: State<S>): State<S> {
    if st.value != ACK_OK then st
    else if st.post then
      var st1 := Do(dev, cfg, st, RDBUFF, true);
      if st1.ok then PutData(st1) else st1
    else if st.check then Do(dev, cfg, st, RDBUFF, false)
    else st
  }

  function Transfer<S>(dev: Device<S>, cfg: Config, w: Wire<S>, mask: u32, rs: seq<Req>): State<S> {
    Finish(dev, cfg, Requests(dev, cfg, Start(w, mask), rs))
  }

  // ---- the length of the request ----

  /** The word of a request is taken from the packet once nothing is posted any more. */
  predicate TookArg<S>(dev: Device<S>, cfg: Config, st: State<S>, r: Req) {
    HasArg(r.v)
    && if IsRead(r.v) then (st.post ==> ReadPosted(dev, cfg, st, r.v).ok) else Drain(dev, cfg, st).ok
  }

  /** Where the loop over the requests stops reading, and the requests it has not
      counted off: a break leaves the count as it was. */
  function Stopped<S>(dev: Device<S>, cfg: Config, st: State<S>, mem: seq<byte>, pos: nat, n: nat): (r: (nat, nat))
    ensures r.1 <= n
    decreases n
  {
    if n == 0 || !st.ok || st.w.aborted then (pos, n)
    else
      var r := AtHand(mem, pos);
      var st1, next := Request(dev, cfg, st, r), pos + 1 + if TookArg(dev, cfg, st, r) then 4 else 0;
      if st1.ok && !st1.w.aborted then Stopped(dev, cfg, st1, mem, next, n - 1) else (next, n)
  }

  /** The number of request bytes that is returned: whatever is left is skipped. */
  function Length<S>(dev: Device<S>, cfg: Config, w: Wire<S>, mask: u32, mem: seq<byte>): nat {
    var (pos, left) := Stopped(dev, cfg, Start(w, mask), mem, 2, At(mem, 1));
    SkipAll(mem, pos, left)
  }

  lemma OkTookArg<S>(dev: Device<S>, cfg: Config, st: State<S>, r: Req)
    requires st.ok && Request(dev, cfg, st, r).ok
    ensures TookArg(dev, cfg, st, r) == HasArg(r.v)
  {
    hide ReadPosted, MatchRead, PlainRead, Drain, PlainWrite;
  }

  /** One turn of the loop. */
  lemma Unrolled<S>(dev: Device<S>, cfg: Config, st: State<S>, mem: seq<byte>, pos: nat, n: nat)
    requires n > 0 && st.ok && !st.w.aborted
    ensures var r := AtHand(mem, pos);
            var st1, next := Request(dev, cfg, st, r), pos + 1 + if TookArg(dev, cfg, st, r) then 4 else 0;
            var left := if st1.ok && !st1.w.aborted then n - 1 else n;
            Requests(dev, cfg, st, Parse(mem, pos, n)) == Requests(dev, cfg, st1, Parse(mem, next, left))
            && Stopped(dev, cfg, st, mem, pos, n) == Stopped(dev, cfg, st1, mem, next, left)
  {
    hide Request, TookArg;
    var r := AtHand(mem, pos);
    assert Parse(mem, pos, n)[0] == r && Parse(mem, pos, n)[1..] == Parse(mem, pos + ReqSize(r.v), n - 1);
    if Request(dev, cfg, st, r).ok {
      OkTookArg(dev, cfg, st, r);
    }
  }

  lemma Ended<S>(dev: Device<S>, cfg: Config, st: State<S>, mem: seq<byte>, pos: nat, n: nat)
    requires n == 0 || !st.ok || st.w.aborted
    ensures Requests(dev, cfg, st, Parse(mem, pos, n)) == st && Stopped(dev, cfg, st, mem, pos, n) == (pos, n)
  {}

  lemma {:induction false} StoppedRight<S>(dev: Device<S>, cfg: Config, st: State<S>, mem: seq<byte>, pos: nat, n: nat)
    requires st.ok && !st.w.aborted
    ensures var (p, left) := Stopped(dev, cfg, st, mem, pos, n);
            var st1 := Requests(dev, cfg, st, Parse(mem, pos, n));
            (left == 0 <==> n == 0 || (st1.ok && !st1.w.aborted)) && (left == 0 ==> p == SkipAll(mem, pos, n))
    decreases n
  {
    hide Request, TookArg;
    if n > 0 {
      var r := AtHand(mem, pos);
      var st1 := Request(dev, cfg, st, r);
      assert Parse(mem, pos, n)[0] == r && Parse(mem, pos, n)[1..] == Parse(mem, pos + ReqSize(r.v), n - 1);
      if st1.ok && !st1.w.aborted {
        OkTookArg(dev, cfg, st, r);
        StoppedRight(dev, cfg, st1, mem, pos + ReqSize(r.v), n - 1);
      }
    }
  }

  lemma {:induction false} StoppedCongruent<S>(dev: Device<S>, cfg: Config, st: State<S>, mem: seq<byte>, pos: nat, n: nat)
    returns (q: nat)
    requires st.ok && !st.w.aborted
    ensures var (p, left) := Stopped(dev, cfg, st, mem, pos, n);
            p + left == pos + n + 4 * q + if left > 0 then 1 else 0
    decreases n
  {
    hide Request, TookArg;
    q := 0;
    if n > 0 {
      var r := AtHand(mem, pos);
      var st1, took := Request(dev, cfg, st, r), TookArg(dev, cfg, st, r);
      if st1.ok && !st1.w.aborted {
        q := StoppedCongruent(dev, cfg, st1, mem, pos + 1 + if took then 4 else 0, n - 1);
      }
      q := q + if took then 1 else 0;
    }
  }

  /** The returned number of request bytes is that of the packet exactly when no
      request failed and no abort came before the last one was done; after any
      other end the next command would be looked for at the wrong place. */
  lemma LengthRight<S>(dev: Device<S>, cfg: Config, w: Wire<S>, mask: u32, mem: seq<byte>)
    ensures var st := Requests(dev, cfg, Start(w, mask), Parse(mem, 2, At(mem, 1)));
            Length(dev, cfg, w, mask, mem) == SkipAll(mem, 2, At(mem, 1)) <==> (At(mem, 1) == 0 || (st.ok && !st.w.aborted))
  {
    hide Requests, Stopped, SkipAll;
    var (pos, left) := Stopped(dev, cfg, Start(w, mask), mem, 2, At(mem, 1));
    StoppedRight(dev, cfg, Start(w, mask), mem, 2, At(mem, 1));
    var q := StoppedCongruent(dev, cfg, Start(w, mask), mem, 2, At(mem, 1));
    if left == 0 {
      NoneLeft(mem, pos);
    } else {
      SkipsWrong(mem, 2, At(mem, 1), pos, left, q);
    }
  }

  /** A device that answers FAULT to everything. */
  function Faulty<S(!new)>(): Device<S> {
    Device((s: S, a: Access) => Reply(s, 4, 0, 0, false), (s: S, ir: byte) => s)
  }

  /** One DP read that is answered FAULT: of the three bytes of the packet the
      command reports eight. */
  lemma FaultMisplaces<S(!new)>(s: S)
    ensures Length(Faulty(), Config(0, 0), Wire(s, 0, false, []), 0, [0, 1, 2]) == 8
    ensures SkipAll([0, 1, 2], 2, 1) == 3
  {
    var mem, st := [0, 1, 2], Start(Wire(s, 0, false, []), 0);
    assert At(mem, 1) == 1 && AtHand(mem, 2) == Req(2, 0);
    assert !Request(Faulty(), Config(0, 0), st, Req(2, 0)).ok;
    assert Stopped(Faulty(), Config(0, 0), st, mem, 2, 1) == (3, 1);
    assert SkipAll(mem, 3, 1) == SkipAll(mem, 8, 0);
    assert SkipAll(mem, 2, 1) == SkipAll(mem, 3, 0);
  }

  // ---- termination: the wire is used a bounded number of times ----

  /** Every part of a request but the match makes one transfer at most. */
  lemma PartsUse<S>(dev: Device<S>, cfg: Config, st: State<S>, r: Req)
    ensures |ReadPosted(dev, cfg, st, r.v).w.log| <= |st.w.log| + Budget(cfg, 1)
    ensures |PlainRead(dev, cfg, st, r.v).w.log| <= |st.w.log| + Budget(cfg, 1)
    ensures |Drain(dev, cfg, st).w.log| <= |st.w.log| + Budget(cfg, 1)
    ensures |PlainWrite(dev, cfg, st, r).w.log| <= |st.w.log| + Budget(cfg, 1)
  {
    hide Do, Budget;
    DoUses(dev, cfg, st, r.v, true);
    DoUses(dev, cfg, st, r.v, false);
    DoUses(dev, cfg, st, RDBUFF, true);
    DoUses(dev, cfg, st.(data := r.arg), r.v, false);
  }

  lemma MatchUses<S>(dev: Device<S>, cfg: Config, st: State<S>, r: Req)
    ensures |MatchRead(dev, cfg, st, r).w.log| <= |st.w.log| + Budget(cfg, cfg.matchRetry as int + 2)
  {
    hide Do, Budget, MatchLoop;
    var st1 := if IsAp(r.v) then Do(dev, cfg, st, r.v, false) else st;
    DoUses(dev, cfg, st, r.v, false);
    MatchLoopUses(dev, cfg, st1, r, cfg.matchRetry);
    BudgetAdds(cfg, 1, cfg.matchRetry as int + 1);
  }

  lemma RequestUses<S>(dev: Device<S>, cfg: Config, st: State<S>, r: Req)
    ensures |Request(dev, cfg, st, r).w.log| <= |st.w.log| + Budget(cfg, cfg.matchRetry as int + 3)
  {
    hide ReadPosted, PlainRead, Drain, PlainWrite, MatchRead, Budget;
    PartsUse(dev, cfg, st, r);
    var st1 := if !IsRead(r.v) then Drain(dev, cfg, st) else if st.post then ReadPosted(dev, cfg, st, r.v) else st;
    PartsUse(dev, cfg, st1, r);
    MatchUses(dev, cfg, st1, r);
    BudgetAdds(cfg, 1, 1);
    BudgetAdds(cfg, 2, cfg.matchRetry as int + 1);
    BudgetAdds(cfg, 1, cfg.matchRetry as int + 2);
  }

  lemma OneMore(n: nat, m: nat)
    requires n > 0
    ensures m + (n - 1) * m == n * m
  {}

  lemma {:induction false} RequestsUse<S>(dev: Device<S>, cfg: Config, st: State<S>, rs: seq<Req>)
    ensures |Requests(dev, cfg, st, rs).w.log| <= |st.w.log| + Budget(cfg, |rs| * (cfg.matchRetry as int + 3))
    decreases |rs|
  {
    hide Request, Budget;
    if rs != [] && st.ok && !st.w.aborted {
      RequestUses(dev, cfg, st, rs[0]);
      RequestsUse(dev, cfg, Request(dev, cfg, st, rs[0]), rs[1..]);
      BudgetAdds(cfg, cfg.matchRetry as int + 3, (|rs| - 1) * (cfg.matchRetry as int + 3));
      OneMore(|rs|, cfg.matchRetry as int + 3);
    }
  }

  /** Whatever the target answers, `n` requests make at most
      (n * (match_retry + 3) + 1) * (retry_count + 1) transfers. */
  lemma TransferUses<S>(dev: Device<S>, cfg: Config, w: Wire<S>, mask: u32, rs: seq<Req>)
    ensures |Transfer(dev, cfg, w, mask, rs).w.log|
         <= |w.log| + (|rs| * (cfg.matchRetry as int + 3) + 1) * (cfg.retry as int + 1)
  {
    hide Requests, Do, Budget;
    RequestsUse(dev, cfg, Start(w, mask), rs);
    var st := Requests(dev, cfg, Start(w, mask), rs);
    DoUses(dev, cfg, st, RDBUFF, true);
    DoUses(dev, cfg, st, RDBUFF, false);
    BudgetAdds(cfg, |rs| * (cfg.matchRetry as int + 3), 1);
    BudgetIs(cfg, |rs| * (cfg.matchRetry as int + 3) + 1);
  }

  lemma BudgetIs(cfg: Config, n: nat)
    ensures Budget(cfg, n) == n * (cfg.retry as int + 1)
  {}

  // ---- WAIT answers change nothing ----

  lemma ReadPostedSame<S(!new)>(dev: Device<S>, cfg: Config, waits: nat -> bool, st: State<S>, q: State<Waiting<S>>, v: byte)
    requires Transparent(dev, cfg, waits) && Same(st, q)
    ensures Same(ReadPosted(dev, cfg, st, v), ReadPosted(WaitingDevice(dev, waits), cfg, q, v))
  {
    hide Do, MatchLoop, Transparent, WaitingDevice;
    DoSame(dev, cfg, waits, st, q, v, true);
    DoSame(dev, cfg, waits, st, q, RDBUFF, true);
  }

  lemma MatchReadSame<S(!new)>(dev: Device<S>, cfg: Config, waits: nat -> bool, st: State<S>, q: State<Waiting<S>>, r: Req)
    requires Transparent(dev, cfg, waits) && Same(st, q)
    ensures Same(MatchRead(dev, cfg, st, r), MatchRead(WaitingDevice(dev, waits), cfg, q, r))
  {
    hide Do, MatchLoop, Transparent, WaitingDevice;
    var wd := WaitingDevice(dev, waits);
    DoSame(dev, cfg, waits, st, q, r.v, false);
    var st1 := if IsAp(r.v) then Do(dev, cfg, st, r.v, false) else st;
    var q1 := if IsAp(r.v) then Do(wd, cfg, q, r.v, false) else q;
    MatchLoopSame(dev, cfg, waits, st1, q1, r, cfg.matchRetry);
  }

  lemma PlainReadSame<S(!new)>(dev: Device<S>, cfg: Config, waits: nat -> bool, st: State<S>, q: State<Waiting<S>>, v: byte)
    requires Transparent(dev, cfg, waits) && Same(st, q)
    ensures Same(PlainRead(dev, cfg, st, v), PlainRead(WaitingDevice(dev, waits), cfg, q, v))
  {
    hide Do, MatchLoop, Transparent, WaitingDevice;
    DoSame(dev, cfg, waits, st, q, v, false);
    DoSame(dev, cfg, waits, st, q, v, true);
  }

  lemma WriteSame<S(!new)>(dev: Device<S>, cfg: Config, waits: nat -> bool, st: State<S>, q: State<Waiting<S>>, r: Req)
    requires Transparent(dev, cfg, waits) && Same(st, q)
    ensures Same(Write(dev, cfg, st, r), Write(WaitingDevice(dev, waits), cfg, q, r))
  {
    hide Do, Transparent, WaitingDevice;
    var wd := WaitingDevice(dev, waits);
    DoSame(dev, cfg, waits, st, q, RDBUFF, true);
    var st1, q1 := Drain(dev, cfg, st), Drain(wd, cfg, q);
    assert Same(st1, q1);
    DoSame(dev, cfg, waits, st1.(data := r.arg), q1.(data := r.arg), r.v, false);
  }

  lemma RequestSame<S(!new)>(dev: Device<S>, cfg: Config, waits: nat -> bool, st: State<S>, q: State<Waiting<S>>, r: Req)
    requires Transparent(dev, cfg, waits) && Same(st, q)
    ensures Same(Request(dev, cfg, st, r), Request(WaitingDevice(dev, waits), cfg, q, r))
  {
    hide ReadPosted, MatchRead, PlainRead, Write, Transparent, WaitingDevice;
    var wd := WaitingDevice(dev, waits);
    if IsRead(r.v) {
      ReadPostedSame(dev, cfg, waits, st, q, r.v);
      var st1 := if st.post then ReadPosted(dev, cfg, st, r.v) else st;
      var q1 := if st.post then ReadPosted(wd, cfg, q, r.v) else q;
      MatchReadSame(dev, cfg, waits, st1, q1, r);
      PlainReadSame(dev, cfg, waits, st1, q1, r.v);
    } else {
      WriteSame(dev, cfg, waits, st, q, r);
    }
  }

  lemma {:induction false} RequestsSame<S(!new)>(dev: Device<S>, cfg: Config, waits: nat -> bool,
                                                 st: State<S>, q: State<Waiting<S>>, rs: seq<Req>)
    requires Transparent(dev, cfg, waits) && Same(st, q)
    ensures Same(Requests(dev, cfg, st, rs), Requests(WaitingDevice(dev, waits), cfg, q, rs))
    decreases |rs|
  {
    hide Request, Transparent, WaitingDevice;
    if rs != [] && st.ok {
      var wd := WaitingDevice(dev, waits);
      RequestSame(dev, cfg, waits, st, q, rs[0]);
      RequestsSame(dev, cfg, waits, Request(dev, cfg, st, rs[0]), Request(wd, cfg, q, rs[0]), rs[1..]);
    }
  }

  /** A target that answers WAIT at most retry_count times in a row, ignoring
      those accesses, gets the same response as one that never waits. */
  lemma WaitsChangeNothing<S(!new)>(dev: Device<S>, cfg: Config, waits: nat -> bool,
                                    w: Wire<S>, q: Wire<Waiting<S>>, mask: u32, rs: seq<Req>)
    requires Transparent(dev, cfg, waits) && q.s.s == w.s
    ensures var st, sq := Transfer(dev, cfg, w, mask, rs), Transfer(WaitingDevice(dev, waits), cfg, q, mask, rs);
            Response(st) == Response(sq) && st.mask == sq.mask && st.w.s == sq.w.s.s
  {
    hide Requests, Do, Transparent, WaitingDevice;
    var wd := WaitingDevice(dev, waits);
    RequestsSame(dev, cfg, waits, Start(w, mask), Start(q, mask), rs);
    var st, sq := Requests(dev, cfg, Start(w, mask), rs), Requests(wd, cfg, Start(q, mask), rs);
    DoSame(dev, cfg, waits, st, sq, RDBUFF, true);
    DoSame(dev, cfg, waits, st, sq, RDBUFF, false);
  }

  // ---- what the count says ----

  lemma PartsCount<S>(dev: Device<S>, cfg: Config, st: State<S>, r: Req)
    ensures ReadPosted(dev, cfg, st, r.v).count == st.count && MatchRead(dev, cfg, st, r).count == st.count
    ensures PlainRead(dev, cfg, st, r.v).count == st.count
    ensures Drain(dev, cfg, st).count == st.count && PlainWrite(dev, cfg, st, r).count == st.count
  {
    hide Retry, MatchLoop, And32;
    MatchLoopFrame(dev, cfg, if IsAp(r.v) then Do(dev, cfg, st, r.v, false) else st, r, cfg.matchRetry);
  }

  lemma RequestCounted<S>(dev: Device<S>, cfg: Config, st: State<S>, r: Req)
    requires st.ok
    ensures Request(dev, cfg, st, r).count == st.count + if Request(dev, cfg, st, r).ok then 1 else 0
  {
    hide ReadPosted, MatchRead, PlainRead, Drain, PlainWrite;
    PartsCount(dev, cfg, st, r);
    PartsCount(dev, cfg, if !IsRead(r.v) then Drain(dev, cfg, st) else if st.post then ReadPosted(dev, cfg, st, r.v) else st, r);
  }

  /** Whatever is answered, the count is the number of requests before the one that failed,
      or before the abort. */
  lemma {:induction false} RequestsCounted<S>(dev: Device<S>, cfg: Config, st: State<S>, rs: seq<Req>) returns (k: nat)
    requires st.ok
    ensures var a := Requests(dev, cfg, st, rs);
            k <= |rs| && a.count == st.count + k && Requests(dev, cfg, st, rs[..k]).ok
            && (if a.ok then a == Requests(dev, cfg, st, rs[..k]) && (k == |rs| || a.w.aborted)
                else k < |rs| && a == Request(dev, cfg, Requests(dev, cfg, st, rs[..k]), rs[k]))
    decreases |rs|
  {
    hide Request;
    k := 0;
    if rs != [] && !st.w.aborted {
      var st1 := Request(dev, cfg, st, rs[0]);
      RequestCounted(dev, cfg, st, rs[0]);
      if st1.ok {
        k := RequestsCounted(dev, cfg, st1, rs[1..]);
        assert rs[..k + 1][1..] == rs[1..][..k];
        k := k + 1;
      }
    }
  }

  // ---- what the response reports ----

  lemma PartsReport<S>(dev: Device<S>, cfg: Config, st: State<Noted<S>>, r: Req)
    requires Fine(st)
    ensures var d := NotingDevice(dev);
            Reports(ReadPosted(d, cfg, st, r.v)) && Reports(MatchRead(d, cfg, st, r)) && Reports(PlainRead(d, cfg, st, r.v))
            && Reports(Drain(d, cfg, st)) && Reports(PlainWrite(d, cfg, st, r))
  {
    hide Do, NotingDevice, MatchLoop, OkOrWait, LastAck, MatchEnd;
    DoNoted(dev, cfg, st, r.v, true);
    DoNoted(dev, cfg, st, r.v, false);
    DoNoted(dev, cfg, st, RDBUFF, true);
    DoNoted(dev, cfg, st.(data := r.arg), r.v, false);
    var st1 := if IsAp(r.v) then Do(NotingDevice(dev), cfg, st, r.v, false) else st;
    if st1.ok {
      MatchLoopNoted(dev, cfg, st1, r, cfg.matchRetry);
      MatchEndNoted(MatchLoop(NotingDevice(dev), cfg, st1, r, cfg.matchRetry), r);
    }
  }

  lemma RequestReports<S>(dev: Device<S>, cfg: Config, st: State<Noted<S>>, r: Req)
    requires Fine(st)
    ensures Reports(Request(NotingDevice(dev), cfg, st, r))
  {
    hide ReadPosted, MatchRead, PlainRead, Drain, PlainWrite, NotingDevice, OkOrWait, LastAck;
    PartsReport(dev, cfg, st, r);
    var d := NotingDevice(dev);
    var st1 := if !IsRead(r.v) then Drain(d, cfg, st) else if st.post then ReadPosted(d, cfg, st, r.v) else st;
    if st1.ok {
      PartsReport(dev, cfg, st1, r);
    }
  }

  lemma {:induction false} RequestsReport<S>(dev: Device<S>, cfg: Config, st: State<Noted<S>>, rs: seq<Req>)
    requires Reports(st)
    ensures Reports(Requests(NotingDevice(dev), cfg, st, rs))
    decreases |rs|
  {
    hide Request, NotingDevice, OkOrWait, LastAck;
    if rs != [] && st.ok && !st.w.aborted {
      RequestReports(dev, cfg, st, rs[0]);
      RequestsReport(dev, cfg, Request(NotingDevice(dev), cfg, st, rs[0]), rs[1..]);
    }
  }

  /** Whatever the target answers: no access follows one that was not answered OK in the
      end, and the value byte is the answer to the last access, possibly with the
      mismatch bit; a list that ran through reports OK, the empty one 0. */
  lemma TransferReports<S>(dev: Device<S>, cfg: Config, s: S, mask: u32, rs: seq<Req>)
    ensures Reports(Transfer(NotingDevice(dev), cfg, Wire(Noted(s, []), 0, false, []), mask, rs))
  {
    hide Requests, Do, NotingDevice;
    var w: Wire<Noted<S>> := Wire(Noted(s, []), 0, false, []);
    RequestsReport(dev, cfg, Start(w, mask), rs);
    var st := Requests(NotingDevice(dev), cfg, Start(w, mask), rs);
    if Fine(st) {
      DoNoted(dev, cfg, st, RDBUFF, true);
      DoNoted(dev, cfg, st, RDBUFF, false);
    }
  }

  lemma {:induction false} RequestsSnoc<S>(dev: Device<S>, cfg: Config, st: State<S>, rs: seq<Req>, r: Req)
    requires var a := Requests(dev, cfg, st, rs); a.ok && !a.w.aborted
    ensures Requests(dev, cfg, st, rs + [r]) == Request(dev, cfg, Requests(dev, cfg, st, rs), r)
    decreases |rs|
  {
    hide Request;
    if rs == [] {
      assert [r][1..] == [];
    } else {
      RequestsSnoc(dev, cfg, Request(dev, cfg, st, rs[0]), rs[1..], r);
      assert (rs + [r])[1..] == rs[1..] + [r];
    }
  }

  lemma WriteWaitsForCheck<S>(dev: Device<S>, cfg: Config, st: State<S>, r: Req)
    requires !IsRead(r.v) && !HasMask(r.v) && st.ok && Request(dev, cfg, st, r).ok
    ensures var st1 := Request(dev, cfg, st, r); st1.check && !st1.post && st1.value == ACK_OK
  {
    hide Retry;
  }

  /** A list that ends with a register write ends with a read of RDBUFF, whose answer,
      and so a late fault of the write, is what the value byte reports. */
  lemma LastWriteChecked<S>(dev: Device<S>, cfg: Config, w: Wire<S>, mask: u32, rs: seq<Req>, r: Req)
    requires !IsRead(r.v) && !HasMask(r.v)
    requires var a := Requests(dev, cfg, Start(w, mask), rs); a.ok && !a.w.aborted && Request(dev, cfg, a, r).ok
    ensures EndsWithRdbuff(Transfer(dev, cfg, w, mask, rs + [r]).w.log)
  {
    hide Request, Retry;
    var a := Requests(dev, cfg, Start(w, mask), rs);
    RequestsSnoc(dev, cfg, Start(w, mask), rs, r);
    WriteWaitsForCheck(dev, cfg, a, r);
    var b := Request(dev, cfg, a, r);
    RetryLast(dev, b.w, Access(RDBUFF, b.data), cfg.retry);
  }

  lemma ReadNeedsNoCheck<S>(dev: Device<S>, cfg: Config, st: State<S>, r: Req)
    requires IsRead(r.v) && (!IsAp(r.v) || HasValue(r.v)) && st.ok && Request(dev, cfg, st, r).ok
    ensures var st1 := Request(dev, cfg, st, r); !st1.check && !st1.post
  {
    hide Retry, MatchLoop, And32, Word;
    var st0 := if st.post then ReadPosted(dev, cfg, st, r.v) else st;
    MatchLoopFrame(dev, cfg, if IsAp(r.v) then Do(dev, cfg, st0, r.v, false) else st0, r, cfg.matchRetry);
  }

  /** A list that ends with a read that was answered at once ends there. */
  lemma LastReadEnds<S>(dev: Device<S>, cfg: Config, w: Wire<S>, mask: u32, rs: seq<Req>, r: Req)
    requires IsRead(r.v) && (!IsAp(r.v) || HasValue(r.v))
    requires var a := Requests(dev, cfg, Start(w, mask), rs); a.ok && !a.w.aborted && Request(dev, cfg, a, r).ok
    ensures Transfer(dev, cfg, w, mask, rs + [r]) == Request(dev, cfg, Requests(dev, cfg, Start(w, mask), rs), r)
  {
    hide Request, Retry;
    var a := Requests(dev, cfg, Start(w, mask), rs);
    RequestsSnoc(dev, cfg, Start(w, mask), rs, r);
    ReadNeedsNoCheck(dev, cfg, a, r);
  }

  // ---- abort ----

  lemma MatchLate<S>(dev: Device<S>, cfg: Config, st: State<Counted<S>>, r: Req, k: nat)
    requires LateAtMost(st, k)
    ensures LateAtMost(MatchRead(CountingDevice(dev), cfg, st, r), if st.w.aborted then k + 2 else 1)
  {
    hide Do, CountingDevice, MatchLoop, And32;
    var d, n: nat := CountingDevice(dev), if st.w.aborted then k + 1 else 0;
    DoLate(dev, cfg, st, r.v, false, k);
    var st1 := if IsAp(r.v) then Do(d, cfg, st, r.v, false) else st;
    MatchLoopLate(dev, cfg, st1, r, cfg.matchRetry, n);
  }

  lemma PartsLate<S>(dev: Device<S>, cfg: Config, st: State<Counted<S>>, r: Req, k: nat)
    requires LateAtMost(st, k)
    ensures var d, n: nat := CountingDevice(dev), if st.w.aborted then k + 1 else 0;
            LateAtMost(ReadPosted(d, cfg, st, r.v), n) && LateAtMost(PlainRead(d, cfg, st, r.v), n)
            && LateAtMost(Drain(d, cfg, st), n) && LateAtMost(PlainWrite(d, cfg, st, r), n)
  {
    hide Do, CountingDevice, Word;
    var d, n: nat := CountingDevice(dev), if st.w.aborted then k + 1 else 0;
    DoLate(dev, cfg, st, r.v, true, k);
    DoLate(dev, cfg, st, r.v, false, k);
    DoLate(dev, cfg, st, RDBUFF, true, k);
    DoLate(dev, cfg, st.(data := r.arg), r.v, false, k);
  }

  lemma RequestLate<S>(dev: Device<S>, cfg: Config, st: State<Counted<S>>, r: Req)
    requires LateAtMost(st, 0) && !st.w.aborted
    ensures LateAtMost(Request(CountingDevice(dev), cfg, st, r), 2)
  {
    hide ReadPosted, MatchRead, PlainRead, Drain, PlainWrite, CountingDevice;
    PartsLate(dev, cfg, st, r, 0);
    var d := CountingDevice(dev);
    var st1 := if !IsRead(r.v) then Drain(d, cfg, st) else if st.post then ReadPosted(d, cfg, st, r.v) else st;
    PartsLate(dev, cfg, st1, r, 0);
    MatchLate(dev, cfg, st1, r, 0);
  }

  lemma {:induction false} RequestsLate<S>(dev: Device<S>, cfg: Config, st: State<Counted<S>>, rs: seq<Req>)
    requires LateAtMost(st, 2)
    ensures LateAtMost(Requests(CountingDevice(dev), cfg, st, rs), 2)
    decreases |rs|
  {
    hide Request, CountingDevice;
    if rs != [] && st.ok && !st.w.aborted {
      RequestLate(dev, cfg, st, rs[0]);
      RequestsLate(dev, cfg, Request(CountingDevice(dev), cfg, st, rs[0]), rs[1..]);
    }
  }

  /** DAP_TransferAbort: whatever is left of the list and of the retries, at most three
      more transfers are made after the one during which it came. */
  lemma AbortStops<S>(dev: Device<S>, cfg: Config, s: S, mask: u32, rs: seq<Req>)
    ensures Transfer(CountingDevice(dev), cfg, Wire(Counted(s, false, 0), 0, false, []), mask, rs).w.s.late <= 3
  {
    hide Requests, Do, CountingDevice;
    var w: Wire<Counted<S>> := Wire(Counted(s, false, 0), 0, false, []);
    RequestsLate(dev, cfg, Start(w, mask), rs);
    var st := Requests(CountingDevice(dev), cfg, Start(w, mask), rs);
    DoLate(dev, cfg, st, RDBUFF, true, 2);
    DoLate(dev, cfg, st, RDBUFF, false, 2);
  }
}
