/** Value-match reads of DAP_JTAG_Transfer, in lists mixed with any other requests,
    against the registers behind a port on a scan chain. */
module JtagMatch {
  import opened Seqs
  import opened Words
  import opened DapEngine
  import opened JtagTransfer
  import opened JtagPipeline

  // ---- what the registers answer ----

  /** Every read is posted before its words are compared; each scan returns the result
      of the one before it. */
  function FirstPosted<T>(tg: Target<T>, t: T, v: byte): Port<T> {
    var (t', result) := Effect(tg, t, IsAp(v), v, 0);
    Port(t', result, IrFor(v))
  }

  ghost predicate Found<T>(tg: Target<T>, cfg: Config, t: T, r: Req, mask: u32) {
    exists i: nat :: i <= cfg.matchRetry as int && Hits(PortDevice(tg), FirstPosted(tg, t, r.v), r, mask, i)
  }

  lemma FoundFirst<T>(tg: Target<T>, cfg: Config, t: T, r: Req, mask: u32)
    requires Found(tg, cfg, t, r, mask)
    ensures exists i: nat :: i <= cfg.matchRetry as int && FirstHit(PortDevice(tg), FirstPosted(tg, t, r.v), r, mask, i)
  {
    var i: nat :| i <= cfg.matchRetry as int && Hits(PortDevice(tg), FirstPosted(tg, t, r.v), r, mask, i);
    var k := FirstExists(PortDevice(tg), FirstPosted(tg, t, r.v), r, mask, i);
  }

  /** How many words are compared: up to the first that matches, or all. */
  ghost function Tries<T>(tg: Target<T>, cfg: Config, t: T, r: Req, mask: u32): nat {
    if Found(tg, cfg, t, r, mask) then
      FoundFirst(tg, cfg, t, r, mask);
      var i: nat :| i <= cfg.matchRetry as int && FirstHit(PortDevice(tg), FirstPosted(tg, t, r.v), r, mask, i);
      i + 1
    else cfg.matchRetry as int + 1
  }

  /** The end of a list: the registers, the mask, the bytes, the requests done, and
      whether it broke off at a mismatch. */
  datatype Ran<T> = Ran(t: T, mask: u32, bytes: seq<byte>, done: nat, mismatch: bool)

  /** The registers work through a list, one request after the other. */
  ghost function Execute<T>(tg: Target<T>, cfg: Config, t: T, mask: u32, rs: seq<Req>): Ran<T>
    decreases |rs|
  {
    if rs == [] then Ran(t, mask, [], 0, false)
    else
      var r := rs[0];
      if IsRead(r.v) && HasValue(r.v) then
        var t1 := AfterReads(PortDevice(tg), FirstPosted(tg, t, r.v), r.v, Tries(tg, cfg, t, r, mask)).t;
        if Found(tg, cfg, t, r, mask) then
          var e := Execute(tg, cfg, t1, mask, rs[1..]);
          e.(done := e.done + 1)
        else Ran(t1, mask, [], 0, true)
      else
        var (t1, bytes) := Answered(tg, t, r);
        var e := Execute(tg, cfg, t1, if !IsRead(r.v) && HasMask(r.v) then r.arg else mask, rs[1..]);
        e.(bytes := bytes + e.bytes, done := e.done + 1)
  }

  // ---- the command ----

  lemma PortObliges<T(!new)>(tg: Target<T>)
    ensures Obliging(PortDevice(tg))
  {
    forall p: Port<T>, a: Access | IsRead(a.req)
      ensures PortDevice(tg).xfer(p, a) == PortDevice(tg).xfer(p, Access(a.req, 0))
    {
      EffectOfRead(tg, p.t, p.ir == APACC, a.req, a.wdata, 0);
    }
  }

  /** The command is at registers `t`; with the word still posted it will have answered `out`. */
  ghost predicate At<T>(st: State<Port<T>>, t: T, mask: u32, out: seq<byte>) {
    Sound(st) && st.w.s.t == t && st.mask == mask && (st.post ==> st.ir != 0)
    && out == if st.post then st.out + Word(st.w.s.result) else st.out
  }

  /** An executor that stands there too, with no instruction loaded. */
  function Stand<T>(t: T, mask: u32, out: seq<byte>): State<Port<T>> {
    State(Wire(Port(t, 0, 0), 0, false, []), 0, false, false, 0, mask, out, 0, 0, true)
  }

  lemma NaiveMask<T>(tg: Target<T>, cfg: Config, n: State<Port<T>>, r: Req)
    ensures Naive(tg, cfg, n, r).mask == if !IsRead(r.v) && HasMask(r.v) then r.arg else n.mask
  {
    hide PortDevice, Retry;
  }

  lemma PlainStep<T>(tg: Target<T>, cfg: Config, st: State<Port<T>>, t: T, mask: u32, out: seq<byte>, r: Req)
    requires At(st, t, mask, out) && !(IsRead(r.v) && HasValue(r.v))
    ensures var st1, (t1, bytes) := Request(PortDevice(tg), cfg, st, r), Answered(tg, t, r);
            At(st1, t1, if !IsRead(r.v) && HasMask(r.v) then r.arg else mask, out + bytes)
            && st1.value == ACK_OK && st1.count == st.count + 1
  {
    hide Request, Naive, Answered, PortDevice;
    var n := Stand(t, mask, out);
    NaiveMask(tg, cfg, n, r);
    NaiveAnswers(tg, cfg, n, r);
    RequestStep(tg, cfg, st, n, r);
  }

  lemma {:induction false} ReadsKeepIr<T>(tg: Target<T>, p: Port<T>, v: byte, i: nat)
    ensures AfterReads(PortDevice(tg), p, v, i).ir == p.ir
  {
    if i > 0 {
      ReadsKeepIr(tg, p, v, i - 1);
    }
  }

  /** The value match itself, with nothing posted. */
  lemma MatchReadStep<T(!new)>(tg: Target<T>, cfg: Config, st: State<Port<T>>, t: T, mask: u32, r: Req)
    requires At(st, t, mask, st.out) && !st.post && IsRead(r.v) && HasValue(r.v)
    ensures var st1 := MatchRead(PortDevice(tg), cfg, st, r);
            var p := AfterReads(PortDevice(tg), FirstPosted(tg, t, r.v), r.v, Tries(tg, cfg, t, r, mask));
            st1.w.s == p && st1.ir == p.ir == IrFor(r.v)
            && st1.ok == Found(tg, cfg, t, r, mask) && st1.value == (if st1.ok then ACK_OK else 0x11)
            && st1.out == st.out && st1.mask == mask && st1.count == st.count && !st1.post && !st1.w.aborted
  {
    hide Do, MatchLoop, Obliging, Hits, AfterReads, Select, Effect;
    var dev := PortDevice(tg);
    PortObliges(tg);
    SelectDo(tg, cfg, st, r.v, false);
    EffectOfRead(tg, t, IsAp(r.v), r.v, st.data, 0);
    var st1 := Do(dev, cfg, Select(dev, st, IrFor(r.v)), r.v, false);
    assert st1.w.s == FirstPosted(tg, t, r.v);
    MatchAnswers(dev, cfg, st1, r);
    assert Found(tg, cfg, t, r, mask) || Misses(dev, st1.w.s, r, mask, cfg.matchRetry as int + 1);
    ReadsKeepIr(tg, st1.w.s, r.v, Tries(tg, cfg, t, r, mask));
  }

  lemma MatchStep<T(!new)>(tg: Target<T>, cfg: Config, st: State<Port<T>>, t: T, mask: u32, out: seq<byte>, r: Req)
    requires At(st, t, mask, out) && IsRead(r.v) && HasValue(r.v)
    ensures var st1 := Request(PortDevice(tg), cfg, st, r);
            var t1 := AfterReads(PortDevice(tg), FirstPosted(tg, t, r.v), r.v, Tries(tg, cfg, t, r, mask)).t;
            if Found(tg, cfg, t, r, mask) then At(st1, t1, mask, out) && st1.value == ACK_OK && st1.count == st.count + 1
            else !st1.ok && st1.value == 0x11 && st1.w.s.t == t1 && st1.mask == mask && st1.out == out && st1.count == st.count
  {
    hide MatchRead, ReadPosted, PortDevice, Tries, Found;
    var st0 := if st.post then ReadPosted(PortDevice(tg), cfg, st, r.v) else st;
    if st.post {
      SettleStep(tg, cfg, st, Stand(t, mask, out), r.v);
    }
    MatchReadStep(tg, cfg, st0, t, mask, r);
  }

  lemma {:induction false} RequestsRun<T(!new)>(tg: Target<T>, cfg: Config, st: State<Port<T>>, t: T, mask: u32,
                                               out: seq<byte>, rs: seq<Req>)
    requires At(st, t, mask, out)
    ensures var st1, e := Requests(PortDevice(tg), cfg, st, rs), Execute(tg, cfg, t, mask, rs);
            st1.count == st.count + e.done
            && (if e.mismatch then
                  !st1.ok && st1.value == 0x11 && st1.w.s.t == e.t && st1.mask == e.mask && st1.out == out + e.bytes
                else At(st1, e.t, e.mask, out + e.bytes) && (rs != [] ==> st1.value == ACK_OK) && (rs == [] ==> st1 == st))
    decreases |rs|
  {
    hide Request, PortDevice, Answered, Found, Tries, AfterReads, Sound;
    if rs == [] {
      assert out + [] == out;
    } else {
      var r := rs[0];
      var st1 := Request(PortDevice(tg), cfg, st, r);
      Sane(st);
      if IsRead(r.v) && HasValue(r.v) {
        MatchStep(tg, cfg, st, t, mask, out, r);
        if Found(tg, cfg, t, r, mask) {
          var t1 := AfterReads(PortDevice(tg), FirstPosted(tg, t, r.v), r.v, Tries(tg, cfg, t, r, mask)).t;
          RequestsRun(tg, cfg, st1, t1, mask, out, rs[1..]);
        } else {
          assert out + [] == out;
          BrokenOff(PortDevice(tg), cfg, st1, rs[1..]);
        }
      } else {
        PlainStep(tg, cfg, st, t, mask, out, r);
        var (t1, bytes) := Answered(tg, t, r);
        var mask1 := if !IsRead(r.v) && HasMask(r.v) then r.arg else mask;
        RequestsRun(tg, cfg, st1, t1, mask1, out + bytes, rs[1..]);
        Assoc(out, bytes, Execute(tg, cfg, t1, mask1, rs[1..]).bytes);
      }
    }
  }

  lemma Sane<T>(st: State<Port<T>>)
    requires Sound(st)
    ensures st.ok && !st.w.aborted
  {}

  lemma BrokenOff<S>(dev: Device<S>, cfg: Config, st: State<S>, rs: seq<Req>)
    requires !st.ok
    ensures Requests(dev, cfg, st, rs) == st
  {}

  /** Main result: for every list, value matches anywhere in it, the response is the number
      of requests done, OK or OK with the mismatch bit, and what the registers answered in
      order; a match that never comes ends the list, and its request is not counted. */
  lemma MixedListAnswers<T(!new)>(tg: Target<T>, cfg: Config, w: Wire<Port<T>>, mask: u32, rs: seq<Req>)
    requires rs != []
    ensures var st, e := Transfer(PortDevice(tg), cfg, w, mask, rs), Execute(tg, cfg, w.s.t, mask, rs);
            Response(st) == [e.done % 0x100, if e.mismatch then 0x11 else ACK_OK] + e.bytes
            && st.w.s.t == e.t && st.mask == e.mask
  {
    hide Requests, Execute, PortDevice;
    var e := Execute(tg, cfg, w.s.t, mask, rs);
    RequestsRun(tg, cfg, Start(w, mask), w.s.t, mask, [], rs);
    assert [] + e.bytes == e.bytes;
    if !e.mismatch {
      FinishStep(tg, cfg, Requests(PortDevice(tg), cfg, Start(w, mask), rs), Stand(e.t, e.mask, e.bytes));
    }
  }
}
