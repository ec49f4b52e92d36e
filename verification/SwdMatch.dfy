/** Value-match reads of DAP_SWD_Transfer, in lists mixed with any other requests,
    against the registers behind the port. */
module SwdMatch {
  import opened Seqs
  import opened Words
  import opened DapEngine
  import opened SwdTransfer
  import opened SwdPipeline

  // ---- what the registers answer ----

  /** An AP read is posted before its words are compared. */
  function FirstPosted<T>(tg: Target<T>, p: Port<T>, v: byte): Port<T> {
    if IsAp(v) then Answer(tg, p, Access(v, 0)).0 else p
  }

  ghost predicate Found<T>(tg: Target<T>, cfg: Config, p: Port<T>, r: Req, mask: u32) {
    exists i: nat :: i <= cfg.matchRetry as int && Hits(PortDevice(tg), FirstPosted(tg, p, r.v), r, mask, i)
  }

  lemma FoundFirst<T>(tg: Target<T>, cfg: Config, p: Port<T>, r: Req, mask: u32)
    requires Found(tg, cfg, p, r, mask)
    ensures exists i: nat :: i <= cfg.matchRetry as int && FirstHit(PortDevice(tg), FirstPosted(tg, p, r.v), r, mask, i)
  {
    var i: nat :| i <= cfg.matchRetry as int && Hits(PortDevice(tg), FirstPosted(tg, p, r.v), r, mask, i);
    var k := FirstExists(PortDevice(tg), FirstPosted(tg, p, r.v), r, mask, i);
  }

  /** How many words are compared: up to the first that matches, or all. */
  ghost function Tries<T>(tg: Target<T>, cfg: Config, p: Port<T>, r: Req, mask: u32): nat {
    if Found(tg, cfg, p, r, mask) then
      FoundFirst(tg, cfg, p, r, mask);
      var i: nat :| i <= cfg.matchRetry as int && FirstHit(PortDevice(tg), FirstPosted(tg, p, r.v), r, mask, i);
      i + 1
    else cfg.matchRetry as int + 1
  }

  /** The end of a list: the port, the mask, the bytes, the requests done, and whether
      it broke off at a mismatch. */
  datatype Ran<T> = Ran(p: Port<T>, mask: u32, bytes: seq<byte>, done: nat, mismatch: bool)

  /** The registers work through a list, one request after the other. */
  ghost function Execute<T>(tg: Target<T>, cfg: Config, p: Port<T>, mask: u32, rs: seq<Req>): Ran<T>
    decreases |rs|
  {
    if rs == [] then Ran(p, mask, [], 0, false)
    else
      var r := rs[0];
      if IsRead(r.v) && HasValue(r.v) then
        var p1 := AfterReads(PortDevice(tg), FirstPosted(tg, p, r.v), r.v, Tries(tg, cfg, p, r, mask));
        if Found(tg, cfg, p, r, mask) then
          var e := Execute(tg, cfg, p1, mask, rs[1..]);
          e.(done := e.done + 1)
        else Ran(p1, mask, [], 0, true)
      else
        var (p1, bytes) := Answered(tg, p, r);
        var e := Execute(tg, cfg, p1, if !IsRead(r.v) && HasMask(r.v) then r.arg else mask, rs[1..]);
        e.(bytes := bytes + e.bytes, done := e.done + 1)
  }

  // ---- the command ----

  lemma PortObliges<T(!new)>(tg: Target<T>)
    ensures Obliging(PortDevice(tg))
  {
    forall p: Port<T>, a: Access | IsRead(a.req)
      ensures PortDevice(tg).xfer(p, a) == PortDevice(tg).xfer(p, Access(a.req, 0))
    {
      AnswerAnyData(tg, p, a.req, a.wdata);
    }
  }

  /** The command is at port `p`; with the word still posted it will have answered `out`. */
  ghost predicate At<T>(st: State<Port<T>>, p: Port<T>, mask: u32, out: seq<byte>) {
    st.w.s == p && st.ok && !st.w.aborted && st.mask == mask
    && out == if st.post then st.out + Word(p.posted) else st.out
  }

  /** An executor that stands there too. */
  function Stand<T>(p: Port<T>, mask: u32, out: seq<byte>): State<Port<T>> {
    State(Wire(p, 0, false, []), 0, false, false, 0, mask, out, 0, 0, true)
  }

  lemma NaiveMask<T>(tg: Target<T>, cfg: Config, n: State<Port<T>>, r: Req)
    ensures Naive(tg, cfg, n, r).mask == if !IsRead(r.v) && HasMask(r.v) then r.arg else n.mask
  {
    hide PortDevice, Retry;
  }

  lemma PlainStep<T>(tg: Target<T>, cfg: Config, st: State<Port<T>>, p: Port<T>, mask: u32, out: seq<byte>, r: Req)
    requires At(st, p, mask, out) && !(IsRead(r.v) && HasValue(r.v))
    ensures var st1, (p1, bytes) := Request(PortDevice(tg), cfg, st, r), Answered(tg, p, r);
            At(st1, p1, if !IsRead(r.v) && HasMask(r.v) then r.arg else mask, out + bytes)
            && st1.value == ACK_OK && st1.count == st.count + 1
  {
    hide Read, Write, Naive, Answered, PortDevice;
    var n := Stand(p, mask, out);
    NaiveMask(tg, cfg, n, r);
    NaiveAnswers(tg, cfg, n, r);
    if IsRead(r.v) {
      ReadStep(tg, cfg, st, n, r);
    } else {
      WriteStep(tg, cfg, st, n, r);
    }
  }

  /** The value match itself, with nothing posted. */
  lemma MatchReadStep<T(!new)>(tg: Target<T>, cfg: Config, st: State<Port<T>>, p: Port<T>, mask: u32, r: Req)
    requires At(st, p, mask, st.out) && !st.post && IsRead(r.v) && HasValue(r.v)
    ensures var st1 := MatchRead(PortDevice(tg), cfg, st, r);
            st1.w.s == AfterReads(PortDevice(tg), FirstPosted(tg, p, r.v), r.v, Tries(tg, cfg, p, r, mask))
            && st1.ok == Found(tg, cfg, p, r, mask) && st1.value == (if st1.ok then ACK_OK else 0x11)
            && st1.out == st.out && st1.mask == mask && st1.count == st.count && !st1.post && !st1.w.aborted
  {
    hide Do, MatchLoop, Obliging, Hits, AfterReads;
    var dev := PortDevice(tg);
    PortObliges(tg);
    DoObliged(dev, cfg, st, r.v, false);
    var st1 := if IsAp(r.v) then Do(dev, cfg, st, r.v, false) else st;
    assert st1.w.s == FirstPosted(tg, p, r.v);
    MatchAnswers(dev, cfg, st1, r);
    assert Found(tg, cfg, p, r, mask) || Misses(dev, st1.w.s, r, mask, cfg.matchRetry as int + 1);
  }

  lemma MatchStep<T(!new)>(tg: Target<T>, cfg: Config, st: State<Port<T>>, p: Port<T>, mask: u32, out: seq<byte>, r: Req)
    requires At(st, p, mask, out) && IsRead(r.v) && HasValue(r.v)
    ensures var st1 := Request(PortDevice(tg), cfg, st, r);
            var p1 := AfterReads(PortDevice(tg), FirstPosted(tg, p, r.v), r.v, Tries(tg, cfg, p, r, mask));
            if Found(tg, cfg, p, r, mask) then At(st1, p1, mask, out) && st1.value == ACK_OK && st1.count == st.count + 1
            else !st1.ok && st1.value == 0x11 && st1.w.s == p1 && st1.mask == mask && st1.out == out && st1.count == st.count
  {
    hide MatchRead, ReadPosted, PortDevice, Tries, Found;
    var st0 := if st.post then ReadPosted(PortDevice(tg), cfg, st, r.v) else st;
    if st.post {
      SettleStep(tg, cfg, st, Stand(p, mask, out), r.v);
    }
    MatchReadStep(tg, cfg, st0, p, mask, r);
  }

  lemma {:induction false} RequestsRun<T(!new)>(tg: Target<T>, cfg: Config, st: State<Port<T>>, p: Port<T>, mask: u32,
                                               out: seq<byte>, rs: seq<Req>)
    requires At(st, p, mask, out)
    ensures var st1, e := Requests(PortDevice(tg), cfg, st, rs), Execute(tg, cfg, p, mask, rs);
            st1.count == st.count + e.done
            && (if e.mismatch then
                  !st1.ok && st1.value == 0x11 && st1.w.s == e.p && st1.mask == e.mask && st1.out == out + e.bytes
                else At(st1, e.p, e.mask, out + e.bytes) && (rs != [] ==> st1.value == ACK_OK) && (rs == [] ==> st1 == st))
    decreases |rs|
  {
    hide Request, PortDevice, Answered, Found, Tries, AfterReads;
    if rs == [] {
      assert out + [] == out;
    } else {
      var r := rs[0];
      var st1 := Request(PortDevice(tg), cfg, st, r);
      if IsRead(r.v) && HasValue(r.v) {
        MatchStep(tg, cfg, st, p, mask, out, r);
        if Found(tg, cfg, p, r, mask) {
          var p1 := AfterReads(PortDevice(tg), FirstPosted(tg, p, r.v), r.v, Tries(tg, cfg, p, r, mask));
          RequestsRun(tg, cfg, st1, p1, mask, out, rs[1..]);
        } else {
          assert out + [] == out;
          BrokenOff(PortDevice(tg), cfg, st1, rs[1..]);
        }
      } else {
        PlainStep(tg, cfg, st, p, mask, out, r);
        var (p1, bytes) := Answered(tg, p, r);
        var mask1 := if !IsRead(r.v) && HasMask(r.v) then r.arg else mask;
        RequestsRun(tg, cfg, st1, p1, mask1, out + bytes, rs[1..]);
        Assoc(out, bytes, Execute(tg, cfg, p1, mask1, rs[1..]).bytes);
      }
    }
  }

  lemma BrokenOff<S>(dev: Device<S>, cfg: Config, st: State<S>, rs: seq<Req>)
    requires !st.ok
    ensures Requests(dev, cfg, st, rs) == st
  {}

  /** Main result: for every list, value matches anywhere in it, the response is the number
      of requests done, OK or OK with the mismatch bit, and what the registers answered in
      order; a match that never comes ends the list, and its request is not counted. */
  lemma MixedListAnswers<T(!new)>(tg: Target<T>, cfg: Config, w: Wire<Port<T>>, mask: u32, rs: seq<Req>)
    requires rs != []
    ensures var st, e := Transfer(PortDevice(tg), cfg, w, mask, rs), Execute(tg, cfg, w.s, mask, rs);
            Response(st) == [e.done % 0x100, if e.mismatch then 0x11 else ACK_OK] + e.bytes
            && st.w.s == e.p && st.mask == e.mask
  {
    hide Requests, Execute, PortDevice;
    var e := Execute(tg, cfg, w.s, mask, rs);
    RequestsRun(tg, cfg, Start(w, mask), w.s, mask, [], rs);
    assert [] + e.bytes == e.bytes;
    if !e.mismatch {
      FinishStep(tg, cfg, Requests(PortDevice(tg), cfg, Start(w, mask), rs), Stand(e.p, e.mask, e.bytes));
    }
  }
}
