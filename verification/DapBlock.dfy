/** What the two transfer block commands share: one request byte for `n` words. */
module DapBlock {
  import opened Words
  import opened DapEngine

  /** The 16-bit number of words. */
  function Count(mem: seq<byte>): nat {
    At(mem, 1) + 0x100 * (At(mem, 2) as int)
  }

  function OneWrite<S>(dev: Device<S>, cfg: Config, st: State<S>, v: byte, word: u32): State<S> {
    var st1 := Do(dev, cfg, st.(data := word), v, false);
    if st1.ok then st1.(count := st1.count + 1) else st1
  }

  /** The loop over the words to write; it ends early unless each is answered OK. */
  function Writes<S>(dev: Device<S>, cfg: Config, st: State<S>, v: byte, mem: seq<byte>, pos: nat, n: nat): State<S>
    decreases n
  {
    if n == 0 then st
    else
      var st1 := OneWrite(dev, cfg, st, v, WordAt(mem, pos));
      if st1.ok then Writes(dev, cfg, st1, v, mem, pos + 4, n - 1) else st1
  }

  /** A captured word goes into the response. */
  function Stored<S>(st: State<S>): State<S> {
    if st.ok then PutData(st).(count := st.count + 1) else st
  }

  function BlockResponse<S>(st: State<S>): seq<byte> {
    [st.count % 0x100, st.count / 0x100 % 0x100, st.value] + st.out
  }

  // ---- a block as single requests ----

  /** `n` reads of the register the request byte names. */
  function SameRead(v: byte, n: nat): (rs: seq<Req>)
    ensures |rs| == n
  {
    seq(n, _ => Req(v % 16, 0))
  }

  /** Its writes, one word each. */
  function EachWrite(mem: seq<byte>, pos: nat, v: byte, n: nat): (rs: seq<Req>)
    ensures |rs| == n
    decreases n
  {
    if n == 0 then [] else [Req(v % 16, WordAt(mem, pos))] + EachWrite(mem, pos + 4, v, n - 1)
  }

  lemma SameReadNext(v: byte, n: nat)
    requires n > 0
    ensures SameRead(v, n)[0] == Req(v % 16, 0) && SameRead(v, n)[1..] == SameRead(v, n - 1)
  {}

  lemma Halves(e: nat, x: nat)
    ensures (2 * e + x) / 2 == e + x / 2 && (2 * e + x) % 2 == x % 2
  {}

  lemma Quarters(e: nat, x: nat)
    ensures (4 * e + x) / 4 == e + x / 4 && (4 * e + x) % 4 == x % 4
  {}

  lemma Low(q: nat, low: nat)
    ensures (16 * q + low) % 2 == low % 2 && (16 * q + low) / 2 % 2 == low / 2 % 2 && (16 * q + low) / 4 % 4 == low / 4 % 4
  {
    Halves(8 * q, low);
    Halves(4 * q, low / 2);
    Quarters(4 * q, low);
    Quarters(q, low / 4);
  }

  lemma NoFlags(low: byte)
    requires low < 16
    ensures !HasValue(low) && !HasMask(low) && !IsStamped(low) && low % 16 == low
  {}

  /** The low four bits say all that a register access depends on. */
  lemma FlagsDropped(v: byte)
    ensures IsAp(v % 16) == IsAp(v) && IsRead(v % 16) == IsRead(v) && v % 16 % 16 == v % 16 && v % 16 / 4 % 4 == v / 4 % 4
    ensures !HasValue(v % 16) && !HasMask(v % 16) && !IsStamped(v % 16)
  {
    hide HasValue, HasMask, IsStamped;
    Low(v as int / 16, v as int % 16);
    NoFlags(v % 16);
  }

  lemma CountBytes(mem: seq<byte>)
    ensures Count(mem) % 0x100 == At(mem, 1) && Count(mem) / 0x100 % 0x100 == At(mem, 2)
  {}

  // ---- how often the wire is used ----

  lemma {:induction false} WritesUse<S>(dev: Device<S>, cfg: Config, st: State<S>, v: byte, mem: seq<byte>, pos: nat, n: nat)
    ensures |Writes(dev, cfg, st, v, mem, pos, n).w.log| <= |st.w.log| + Budget(cfg, n)
    decreases n
  {
    hide Do, Budget;
    if n > 0 {
      DoUses(dev, cfg, st.(data := WordAt(mem, pos)), v, false);
      BudgetAdds(cfg, 1, n - 1);
      WritesUse(dev, cfg, OneWrite(dev, cfg, st, v, WordAt(mem, pos)), v, mem, pos + 4, n - 1);
    }
  }

  // ---- what the response reports ----

  lemma {:induction false} WritesReport<S>(dev: Device<S>, cfg: Config, st: State<Noted<S>>, v: byte, mem: seq<byte>, pos: nat, n: nat)
    requires Fine(st)
    ensures Reports(Writes(NotingDevice(dev), cfg, st, v, mem, pos, n))
    decreases n
  {
    hide Do, NotingDevice, OkOrWait, LastAck;
    if n > 0 {
      var st1 := st.(data := WordAt(mem, pos));
      DoNoted(dev, cfg, st1, v, false);
      if Do(NotingDevice(dev), cfg, st1, v, false).ok {
        WritesReport(dev, cfg, OneWrite(NotingDevice(dev), cfg, st, v, WordAt(mem, pos)), v, mem, pos + 4, n - 1);
      }
    }
  }

  lemma {:induction false} WritesCount<S>(dev: Device<S>, cfg: Config, st: State<S>, v: byte, mem: seq<byte>, pos: nat, n: nat)
    requires st.ok
    ensures var a := Writes(dev, cfg, st, v, mem, pos, n);
            a.out == st.out && st.count <= a.count <= st.count + n && (a.ok <==> a.count == st.count + n)
    decreases n
  {
    hide Retry;
    if n > 0 && OneWrite(dev, cfg, st, v, WordAt(mem, pos)).ok {
      WritesCount(dev, cfg, OneWrite(dev, cfg, st, v, WordAt(mem, pos)), v, mem, pos + 4, n - 1);
    }
  }
}
