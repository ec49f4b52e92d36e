/** KCP with sequence numbers that never wrap: the same decisions taken by
    plain integer comparison. The control block refines it: as long as every
    number that arrives is less than half a circle away from the numbers it is
    compared with, each circular test of ikcp.c decides as the plain one. */
module KcpUnbounded {
  import opened Words
  import opened KcpWire
  import opened KcpSpec
  import KcpQueues

  /** A numbered fragment; `skips` is the skip counter of a segment in flight,
      and 0 at the receiver. */
  datatype Num = Num(no: int, frag: Frag, skips: u32)

  datatype ITx = ITx(una: int, nxt: int, queue: seq<Frag>, buf: seq<Num>)

  datatype IRx = IRx(nxt: int, wnd: u32, queue: seq<Frag>, buf: seq<Num>)

  datatype Ideal = Ideal(tx: ITx, rx: IRx, acks: seq<int>)

  // ---- the sending half ----

  function IShrink(tx: ITx): ITx {
    tx.(una := if tx.buf == [] then tx.nxt else tx.buf[0].no)
  }

  function IDropBelow(buf: seq<Num>, una: int): seq<Num> {
    if buf != [] && buf[0].no < una then IDropBelow(buf[1..], una) else buf
  }

  function IUna(tx: ITx, una: int): ITx {
    IShrink(tx.(buf := IDropBelow(tx.buf, una)))
  }

  function IDropAcked(buf: seq<Num>, no: int): seq<Num> {
    if buf == [] then buf
    else if no == buf[0].no then buf[1..]
    else if no < buf[0].no then buf
    else [buf[0]] + IDropAcked(buf[1..], no)
  }

  function IAck(tx: ITx, no: int): ITx {
    IShrink(if tx.una <= no < tx.nxt then tx.(buf := IDropAcked(tx.buf, no)) else tx)
  }

  /** The same numbered fragments; the skip counters may differ. */
  predicate SameNumbers(nums: seq<Num>, nums': seq<Num>) {
    |nums| == |nums'| && forall i :: 0 <= i < |nums| ==> nums'[i].no == nums[i].no && nums'[i].frag == nums[i].frag
  }

  /** Every segment in flight below the newest acknowledged number counts one skip. */
  function IFastack(tx: ITx, no: int): ITx {
    if tx.una <= no < tx.nxt then tx.(buf := ISkip(tx.buf, no)) else tx
  }

  function ISkip(buf: seq<Num>, no: int): (r: seq<Num>)
    ensures |r| == |buf|
  {
    seq(|buf|, i requires 0 <= i < |buf| =>
      if buf[i].no < no then buf[i].(skips := Wrap(buf[i].skips + 1)) else buf[i])
  }

  /** One segment more in flight. */
  function IFillOne(tx: ITx): ITx
    requires tx.queue != []
  {
    ITx(tx.una, tx.nxt + 1, tx.queue[1..], tx.buf + [Num(tx.nxt, tx.queue[0], 0)])
  }

  function IFill(tx: ITx, cwnd: nat): ITx
    decreases |tx.queue|
  {
    if tx.nxt < tx.una + cwnd && tx.queue != [] then
      IFill(IFillOne(tx), cwnd)
    else tx
  }

  // ---- the receiving half ----

  function IMoveReady(rx: IRx): IRx
    decreases |rx.buf|
  {
    if rx.buf != [] && rx.buf[0].no == rx.nxt && |rx.queue| < rx.wnd then
      IMoveReady(IRx(rx.nxt + 1, rx.wnd, rx.queue + [rx.buf[0].frag], rx.buf[1..]))
    else rx
  }

  function IInsertPos(buf: seq<Num>, no: int, n: nat): (r: (nat, bool))
    requires n <= |buf|
    ensures r.0 <= n
  {
    if n == 0 then (0, false)
    else if buf[n - 1].no == no then (n, true)
    else if no > buf[n - 1].no then (n, false)
    else IInsertPos(buf, no, n - 1)
  }

  function IInsert(buf: seq<Num>, num: Num): seq<Num> {
    var (p, repeated) := IInsertPos(buf, num.no, |buf|);
    if repeated then buf else buf[..p] + [num] + buf[p..]
  }

  function IData(rx: IRx, num: Num): IRx {
    if rx.nxt <= num.no < rx.nxt + rx.wnd then IMoveReady(rx.(buf := IInsert(rx.buf, num))) else rx
  }

  function IAfterRecv(rx: IRx, peek: bool): IRx {
    IMoveReady(if peek then rx else rx.(queue := rx.queue[MessageLen(rx.queue)..]))
  }

  // ---- packets whose true numbers are known ----

  /** The unwrapped numbers behind the fields of a packet. */
  datatype Mark = Mark(no: int, una: int)

  function IPush(id: Ideal, num: Num): Ideal {
    if num.no < id.rx.nxt + id.rx.wnd then id.(acks := id.acks + [num.no], rx := IData(id.rx, num)) else id
  }

  function IPacket(id: Ideal, p: Packet, m: Mark): Ideal {
    var id1 := id.(tx := IUna(id.tx, m.una));
    if p.cmd == CMD_ACK then id1.(tx := IAck(id1.tx, m.no))
    else if p.cmd == CMD_PUSH then IPush(id1, Num(m.no, Frag(p.frg, p.data), 0))
    else id1
  }

  /** The loop state of ikcp_input: whether an acknowledgement was seen, and the largest number acknowledged. */
  datatype IState = IState(id: Ideal, flag: bool, maxack: int)

  function IStep(st: IState, p: Packet, m: Mark): IState {
    var acked := p.cmd == CMD_ACK;
    IState(IPacket(st.id, p, m), st.flag || acked,
           if acked && (!st.flag || m.no > st.maxack) then m.no else st.maxack)
  }

  function ISteps(st: IState, ps: seq<Packet>, ms: seq<Mark>): IState
    requires |ps| == |ms|
  {
    if ps == [] then st
    else IStep(ISteps(st, ps[..|ps| - 1], ms[..|ms| - 1]), ps[|ps| - 1], ms[|ms| - 1])
  }

  /** What follows the loop: skips are counted once, against the largest acknowledged number. */
  function IFinish(st: IState): Ideal {
    if st.flag then st.id.(tx := IFastack(st.id.tx, st.maxack)) else st.id
  }

  /** ikcp_input on the packets of a datagram that decoded with code `ret`. */
  function IInput(id: Ideal, ps: seq<Packet>, ms: seq<Mark>, ret: int): Ideal
    requires |ps| == |ms|
  {
    var st := ISteps(IState(id, false, 0), ps, ms);
    if ret < 0 then st.id else IFinish(st)
  }

  // ---- order ----

  predicate IAscending(buf: seq<Num>) {
    forall i, j :: 0 <= i < j < |buf| ==> buf[i].no < buf[j].no
  }

  predicate IWithin(buf: seq<Num>, lo: int, hi: int) {
    IAscending(buf) && forall i :: 0 <= i < |buf| ==> lo <= buf[i].no < hi
  }

  predicate ITxOrdered(tx: ITx) {
    IWithin(tx.buf, tx.una, tx.nxt) && tx.una <= tx.nxt <= tx.una + 0xffff
    && tx.una == if tx.buf == [] then tx.nxt else tx.buf[0].no
  }

  predicate IRxOrdered(rx: IRx) {
    IWithin(rx.buf, rx.nxt, rx.nxt + rx.wnd) && rx.wnd < 0x8000_0000
  }

  // ---- refinement ----

  predicate TxRefines(tx: Tx, itx: ITx) {
    tx.una == Wrap(itx.una) && tx.nxt == Wrap(itx.nxt) && tx.queue == itx.queue
    && SegsRefine(tx.buf, itx.buf) && SkipsRefine(tx.buf, itx.buf)
  }

  predicate SegsRefine(buf: seq<SndSeg>, nums: seq<Num>) {
    |buf| == |nums| && forall i :: 0 <= i < |buf| ==> buf[i].sn == Wrap(nums[i].no) && buf[i].frag == nums[i].frag
  }

  predicate SkipsRefine(buf: seq<SndSeg>, nums: seq<Num>) {
    |buf| == |nums| && forall i :: 0 <= i < |buf| ==> buf[i].fastack == nums[i].skips
  }

  predicate RxRefines(rx: Rx, irx: IRx) {
    rx.nxt == Wrap(irx.nxt) && rx.wnd == irx.wnd && rx.queue == irx.queue && RcvRefine(rx.buf, irx.buf)
  }

  predicate RcvRefine(buf: seq<RcvSeg>, nums: seq<Num>) {
    |buf| == |nums| && forall i :: 0 <= i < |buf| ==> buf[i] == RcvSeg(Wrap(nums[i].no), nums[i].frag)
  }

  predicate AcksRefine(acks: seq<Ack>, nos: seq<int>) {
    |acks| == |nos| && forall i :: 0 <= i < |acks| ==> acks[i].sn == Wrap(nos[i])
  }

  predicate Refines(cb: Cb, id: Ideal) {
    TxRefines(cb.tx, id.tx) && RxRefines(cb.rx, id.rx) && AcksRefine(cb.acks, id.acks)
    && ITxOrdered(id.tx) && IRxOrdered(id.rx)
  }

  /** The loop states agree, and the largest acknowledged number is within reach. */
  predicate InRefines(st: InState, ist: IState) {
    Refines(st.cb, ist.id) && st.flag == ist.flag
    && (st.flag ==> st.maxack == Wrap(ist.maxack) && ist.id.tx.nxt - 0x8000_0000 <= ist.maxack < ist.id.tx.nxt)
  }

  /** The marks are the packet's numbers before truncation. */
  predicate Marks(p: Packet, m: Mark) {
    p.una == Wrap(m.una)
    && (p.cmd == CMD_ACK || p.cmd == CMD_PUSH ==> p.sn == Wrap(m.no))
  }

  /** Less than half a circle from everything the packet is compared with. */
  predicate Near(id: Ideal, p: Packet, m: Mark) {
    id.tx.nxt - 0x8000_0000 <= m.una <= id.tx.nxt
    && (p.cmd == CMD_ACK ==> id.tx.nxt - 0x8000_0000 <= m.no < id.tx.nxt)
    && (p.cmd == CMD_PUSH ==> id.rx.nxt + id.rx.wnd - 0x8000_0000 <= m.no < id.rx.nxt + 0x8000_0000)
  }

  /** Every packet is near what the packets before it have left. */
  predicate NearAll(st: IState, ps: seq<Packet>, ms: seq<Mark>)
    requires |ps| == |ms|
  {
    forall k :: 0 <= k < |ps| ==> NearAt(st, ps, ms, k)
  }

  predicate NearAt(st: IState, ps: seq<Packet>, ms: seq<Mark>, k: nat)
    requires |ps| == |ms| && k < |ps|
  {
    Marks(ps[k], ms[k]) && Near(ISteps(st, ps[..k], ms[..k]).id, ps[k], ms[k])
  }

  lemma ShrinkRefines(tx: Tx, itx: ITx)
    requires TxRefines(tx, itx)
    ensures TxRefines(ShrinkBuf(tx), IShrink(itx))
  {}

  lemma {:induction false} DropBelowRefines(buf: seq<SndSeg>, nums: seq<Num>, una: int, hi: int)
    requires SegsRefine(buf, nums) && SkipsRefine(buf, nums)
    requires IWithin(nums, hi - 0xffff, hi) && hi - 0x8000_0000 <= una <= hi
    ensures SegsRefine(DropBelow(buf, Wrap(una)), IDropBelow(nums, una))
    ensures SkipsRefine(DropBelow(buf, Wrap(una)), IDropBelow(nums, una))
    ensures |IDropBelow(nums, una)| <= |nums| && IDropBelow(nums, una) == nums[|nums| - |IDropBelow(nums, una)|..]
    ensures forall i :: 0 <= i < |nums| - |IDropBelow(nums, una)| ==> nums[i].no < una
  {
    if buf != [] {
      TimeDiffExact(una, nums[0].no);
      if nums[0].no < una {
        DropBelowRefines(buf[1..], nums[1..], una, hi);
      }
    }
  }

  /** snd_una moves up to the oldest number that is left. */
  lemma IShrinkOrders(tx: ITx)
    requires IWithin(tx.buf, tx.una, tx.nxt) && tx.una <= tx.nxt <= tx.una + 0xffff
    ensures ITxOrdered(IShrink(tx)) && tx.una <= IShrink(tx).una
  {}

  lemma UnaRefines(tx: Tx, itx: ITx, una: int)
    requires TxRefines(tx, itx) && ITxOrdered(itx) && itx.nxt - 0x8000_0000 <= una <= itx.nxt
    ensures TxRefines(ShrinkBuf(ParseUna(tx, Wrap(una))), IUna(itx, una))
    ensures ITxOrdered(IUna(itx, una)) && itx.una <= IUna(itx, una).una
  {
    DropBelowRefines(tx.buf, itx.buf, una, itx.nxt);
    var itx' := itx.(buf := IDropBelow(itx.buf, una));
    ShrinkRefines(ParseUna(tx, Wrap(una)), itx');
    IShrinkOrders(itx');
  }

  /** At most one number goes, and only the acknowledged one. */
  lemma {:induction false} IDropAckedRemovesOne(nums: seq<Num>, no: int) returns (k: nat)
    ensures k <= |nums|
    ensures k == |nums| ==> IDropAcked(nums, no) == nums
    ensures k < |nums| ==> nums[k].no == no && IDropAcked(nums, no) == nums[..k] + nums[k + 1..]
  {
    k := 0;
    if nums != [] && no != nums[0].no {
      if no < nums[0].no {
        k := |nums|;
      } else {
        k := IDropAckedRemovesOne(nums[1..], no);
        k := k + 1;
      }
    }
  }

  lemma {:induction false} DropAckedRefines(buf: seq<SndSeg>, nums: seq<Num>, no: int, lo: int)
    requires SegsRefine(buf, nums) && SkipsRefine(buf, nums)
    requires IWithin(nums, lo, lo + 0xffff) && lo <= no < lo + 0xffff
    ensures SegsRefine(DropAcked(buf, Wrap(no)), IDropAcked(nums, no))
    ensures SkipsRefine(DropAcked(buf, Wrap(no)), IDropAcked(nums, no))
  {
    if buf != [] {
      TimeDiffExact(no, nums[0].no);
      if no != nums[0].no {
        if Wrap(no) == Wrap(nums[0].no) {
          WrapInjective(no, nums[0].no);
        }
        if no > nums[0].no {
          DropAckedRefines(buf[1..], nums[1..], no, lo);
        }
      }
    }
  }

  lemma InFlightRefines(tx: Tx, itx: ITx, no: int)
    requires TxRefines(tx, itx) && ITxOrdered(itx) && itx.nxt - 0x8000_0000 <= no < itx.nxt
    ensures InFlight(tx, Wrap(no)) <==> itx.una <= no
  {
    hide TimeDiff, Wrap;
    TimeDiffExact(no, itx.una);
    TimeDiffExact(no, itx.nxt);
  }

  lemma IDropAckedWithin(nums: seq<Num>, no: int, lo: int, hi: int)
    requires IWithin(nums, lo, hi)
    ensures IWithin(IDropAcked(nums, no), lo, hi)
  {
    hide IDropAcked;
    var k := IDropAckedRemovesOne(nums, no);
  }

  lemma AckRefines(tx: Tx, itx: ITx, no: int)
    requires TxRefines(tx, itx) && ITxOrdered(itx) && itx.nxt - 0x8000_0000 <= no < itx.nxt
    ensures TxRefines(ShrinkBuf(ParseAck(tx, Wrap(no))), IAck(itx, no))
    ensures ITxOrdered(IAck(itx, no)) && itx.una <= IAck(itx, no).una
  {
    hide InFlight, Wrap, DropAcked, IDropAcked, ShrinkBuf, IShrink;
    InFlightRefines(tx, itx, no);
    if itx.una <= no {
      DropAckedRefines(tx.buf, itx.buf, no, itx.una);
      IDropAckedWithin(itx.buf, no, itx.una, itx.nxt);
      var itx' := itx.(buf := IDropAcked(itx.buf, no));
      ShrinkRefines(ParseAck(tx, Wrap(no)), itx');
      IShrinkOrders(itx');
    } else {
      ShrinkRefines(tx, itx);
      IShrinkOrders(itx);
    }
  }

  lemma FillOneRefines(cb: Cb, tx: Tx, itx: ITx)
    requires TxRefines(tx, itx) && ITxOrdered(itx) && itx.nxt < itx.una + 0xffff && tx.queue != []
    ensures TxRefines(FillOne(cb, tx), IFillOne(itx)) && ITxOrdered(IFillOne(itx))
  {
    hide Wrap;
    WrapShift(itx.nxt, 1);
  }

  lemma {:induction false} FillRefines(cb: Cb, tx: Tx, itx: ITx, cwnd: u32)
    requires TxRefines(tx, itx) && ITxOrdered(itx) && cwnd <= 0xffff
    ensures TxRefines(FillWindow(cb, tx, cwnd), IFill(itx, cwnd))
    ensures ITxOrdered(IFill(itx, cwnd))
    decreases |tx.queue|
  {
    WrapShift(itx.una, cwnd);
    TimeDiffExact(itx.nxt, itx.una + cwnd);
    if itx.nxt < itx.una + cwnd && tx.queue != [] {
      FillOneRefines(cb, tx, itx);
      FillRefines(cb, FillOne(cb, tx), IFillOne(itx), cwnd);
      hide ITxOrdered, NewSeg, SegsRefine, SkipsRefine;
    }
  }

  lemma {:induction false} MoveReadyRefines(rx: Rx, irx: IRx)
    requires RxRefines(rx, irx) && IRxOrdered(irx)
    ensures RxRefines(MoveReady(rx), IMoveReady(irx))
    ensures IRxOrdered(IMoveReady(irx))
    decreases |rx.buf|
  {
    if rx.buf != [] {
      if rx.buf[0].sn == rx.nxt {
        WrapInjective(irx.buf[0].no, irx.nxt);
      }
      if irx.buf[0].no == irx.nxt && |irx.queue| < irx.wnd {
        WrapShift(irx.nxt, 1);
        MoveReadyRefines(Rx(Wrap(rx.nxt + 1), rx.wnd, rx.queue + [rx.buf[0].frag], rx.buf[1..]),
                         IRx(irx.nxt + 1, irx.wnd, irx.queue + [irx.buf[0].frag], irx.buf[1..]));
      }
    }
  }

  lemma {:induction false} InsertPosRefines(buf: seq<RcvSeg>, nums: seq<Num>, no: int, lo: int, n: nat)
    requires RcvRefine(buf, nums) && IWithin(nums, lo, lo + 0x8000_0000) && lo <= no < lo + 0x8000_0000 && n <= |buf|
    requires n < |nums| ==> no < nums[n].no
    ensures InsertPos(buf, Wrap(no), n) == IInsertPos(nums, no, n)
    ensures var (p, repeated) := IInsertPos(nums, no, n);
            if repeated then 0 < p && nums[p - 1].no == no
            else (p > 0 ==> nums[p - 1].no < no) && (p < |nums| ==> no < nums[p].no)
  {
    if n > 0 {
      TimeDiffExact(no, nums[n - 1].no);
      if Wrap(no) == Wrap(nums[n - 1].no) {
        WrapInjective(no, nums[n - 1].no);
      }
      if no < nums[n - 1].no {
        InsertPosRefines(buf, nums, no, lo, n - 1);
      }
    }
  }

  lemma InsertAtRefines(buf: seq<RcvSeg>, nums: seq<Num>, p: nat, num: Num)
    requires RcvRefine(buf, nums) && p <= |buf|
    ensures RcvRefine(buf[..p] + [RcvSeg(Wrap(num.no), num.frag)] + buf[p..], nums[..p] + [num] + nums[p..])
  {}

  lemma InsertAtWithin(nums: seq<Num>, p: nat, num: Num, lo: int, hi: int)
    requires IWithin(nums, lo, hi) && p <= |nums| && lo <= num.no < hi
    requires (p > 0 ==> nums[p - 1].no < num.no) && (p < |nums| ==> num.no < nums[p].no)
    ensures IWithin(nums[..p] + [num] + nums[p..], lo, hi)
  {
    var r := nums[..p] + [num] + nums[p..];
    forall i, j | 0 <= i < j < |r|
      ensures r[i].no < r[j].no
    {
      assert i < p ==> nums[i].no <= nums[p - 1].no;
      assert j > p ==> nums[p].no <= nums[j - 1].no;
    }
  }

  lemma InsertRefines(rx: Rx, irx: IRx, num: Num)
    requires RxRefines(rx, irx) && IRxOrdered(irx) && irx.nxt <= num.no < irx.nxt + irx.wnd
    ensures RxRefines(rx.(buf := Insert(rx.buf, RcvSeg(Wrap(num.no), num.frag))), irx.(buf := IInsert(irx.buf, num)))
    ensures IRxOrdered(irx.(buf := IInsert(irx.buf, num)))
  {
    InsertPosRefines(rx.buf, irx.buf, num.no, irx.nxt, |rx.buf|);
    var (p, repeated) := IInsertPos(irx.buf, num.no, |irx.buf|);
    if !repeated {
      InsertAtRefines(rx.buf, irx.buf, p, num);
      InsertAtWithin(irx.buf, p, num, irx.nxt, irx.nxt + irx.wnd);
    }
  }

  lemma WindowRefines(rx: Rx, irx: IRx, no: int)
    requires RxRefines(rx, irx) && IRxOrdered(irx)
    requires irx.nxt + irx.wnd - 0x8000_0000 <= no < irx.nxt + 0x8000_0000
    ensures BelowWindowEnd(rx, Wrap(no)) <==> no < irx.nxt + irx.wnd
    ensures InWindow(rx, Wrap(no)) <==> irx.nxt <= no < irx.nxt + irx.wnd
  {
    WrapShift(irx.nxt, irx.wnd);
    TimeDiffExact(no, irx.nxt + irx.wnd);
    TimeDiffExact(no, irx.nxt);
  }

  lemma DataRefines(rx: Rx, irx: IRx, num: Num)
    requires RxRefines(rx, irx) && IRxOrdered(irx)
    requires irx.nxt + irx.wnd - 0x8000_0000 <= num.no < irx.nxt + 0x8000_0000
    ensures RxRefines(ParseData(rx, RcvSeg(Wrap(num.no), num.frag)), IData(irx, num))
    ensures IRxOrdered(IData(irx, num))
  {
    WindowRefines(rx, irx, num.no);
    if irx.nxt <= num.no < irx.nxt + irx.wnd {
      InsertRefines(rx, irx, num);
      MoveReadyRefines(rx.(buf := Insert(rx.buf, RcvSeg(Wrap(num.no), num.frag))), irx.(buf := IInsert(irx.buf, num)));
    }
  }

  /** One incoming packet: the wrapped control block does what the unbounded one
      does, and picks the same largest acknowledged number. */
  lemma PacketRefines(st: InState, ist: IState, p: Packet, m: Mark)
    requires InRefines(st, ist) && Marks(p, m) && Near(ist.id, p, m)
    ensures InRefines(ProcessPacket(st, p), IStep(ist, p, m))
    ensures var tx' := IStep(ist, p, m).id.tx; ist.id.tx.una <= tx'.una && tx'.nxt == ist.id.tx.nxt
  {
    hide IUna, IAck, IData, ParseUna, ParseAck, ParseData, ShrinkBuf, UpdateAck, BelowWindowEnd, Wrap, TimeDiff, SegsRefine,
         SkipsRefine, RcvRefine, IWithin;
    var id := ist.id;
    var cb, id1 := ProcessUna(st.cb, p), id.(tx := IUna(id.tx, m.una));
    UnaRefines(st.cb.tx, id.tx, m.una);
    KeepsNext(id.tx, m.una, m.no);
    if p.cmd == CMD_ACK {
      AckRefines(cb.tx, id1.tx, m.no);
      TimeDiffExact(m.no, if ist.flag then ist.maxack else m.no);
    } else if p.cmd == CMD_PUSH {
      var num := Num(m.no, Frag(p.frg, p.data), 0);
      WindowRefines(cb.rx, id1.rx, m.no);
      DataRefines(cb.rx, id1.rx, num);
    }
  }

  lemma KeepsNext(tx: ITx, una: int, no: int)
    ensures IUna(tx, una).nxt == tx.nxt && IAck(IUna(tx, una), no).nxt == tx.nxt
  {}

  lemma {:induction false} PacketsRefine(st: InState, ist: IState, ps: seq<Packet>, ms: seq<Mark>)
    requires |ps| == |ms| && InRefines(st, ist) && NearAll(ist, ps, ms)
    ensures InRefines(ProcessAll(st, ps), ISteps(ist, ps, ms))
    ensures var tx' := ISteps(ist, ps, ms).id.tx; ist.id.tx.una <= tx'.una && tx'.nxt == ist.id.tx.nxt
  {
    if ps != [] {
      var k := |ps| - 1;
      assert NearAt(ist, ps, ms, k);
      forall i | 0 <= i < k
        ensures NearAt(ist, ps[..k], ms[..k], i)
      {
        assert NearAt(ist, ps, ms, i);
        assert ps[..k][..i] == ps[..i] && ms[..k][..i] == ms[..i];
      }
      PacketsRefine(st, ist, ps[..k], ms[..k]);
      PacketRefines(ProcessAll(st, ps[..k]), ISteps(ist, ps[..k], ms[..k]), ps[k], ms[k]);
    }
  }

  /** The scan over snd_buf passes exactly the segments below `no`. */
  lemma {:induction false} BumpRefines(buf: seq<SndSeg>, nums: seq<Num>, no: int, lo: int, p: nat)
    requires SegsRefine(buf, nums) && IWithin(nums, lo, lo + 0xffff) && lo <= no < lo + 0xffff && p <= |buf|
    ensures var r := BumpFastack(buf, Wrap(no), p);
            |r| == |buf| && forall i :: 0 <= i < |buf| ==>
              r[i] == if p <= i && nums[i].no < no then buf[i].(fastack := Wrap(buf[i].fastack + 1)) else buf[i]
    decreases |buf| - p
  {
    if p < |buf| {
      TimeDiffExact(no, nums[p].no);
      if no >= nums[p].no {
        if Wrap(no) == Wrap(nums[p].no) {
          WrapInjective(no, nums[p].no);
        }
        var seg := if Wrap(no) == buf[p].sn then buf[p] else buf[p].(fastack := Wrap(buf[p].fastack + 1));
        BumpRefines(buf[p := seg], nums, no, lo, p + 1);
      }
    }
  }

  lemma SkipRefines(buf: seq<SndSeg>, nums: seq<Num>, buf': seq<SndSeg>, no: int)
    requires SegsRefine(buf, nums) && SkipsRefine(buf, nums) && |buf'| == |buf|
    requires forall i :: 0 <= i < |buf| ==>
               buf'[i] == if nums[i].no < no then buf[i].(fastack := Wrap(buf[i].fastack + 1)) else buf[i]
    ensures SegsRefine(buf', ISkip(nums, no)) && SkipsRefine(buf', ISkip(nums, no))
  {
    hide Wrap;
  }

  /** Skips are counted for the same segments as with plain numbers. */
  lemma FastackRefines(tx: Tx, itx: ITx, no: int)
    requires TxRefines(tx, itx) && ITxOrdered(itx) && itx.nxt - 0x8000_0000 <= no < itx.nxt
    ensures TxRefines(ParseFastack(tx, Wrap(no)), IFastack(itx, no))
    ensures ITxOrdered(IFastack(itx, no))
  {
    hide InFlight, Wrap, BumpFastack, ISkip;
    InFlightRefines(tx, itx, no);
    if itx.una <= no {
      BumpRefines(tx.buf, itx.buf, no, itx.una, 0);
      SkipRefines(tx.buf, itx.buf, BumpFastack(tx.buf, Wrap(no), 0), no);
      ISkipWithin(itx.buf, no, itx.una, itx.nxt);
    }
  }

  lemma ISkipWithin(nums: seq<Num>, no: int, lo: int, hi: int)
    requires IWithin(nums, lo, hi)
    ensures IWithin(ISkip(nums, no), lo, hi)
    ensures SameNumbers(nums, ISkip(nums, no))
  {}

  /** After the loop: the same skips are counted, and the congestion window grows
      exactly when the oldest unacknowledged number has risen. */
  lemma FinishRefines(st: InState, ist: IState, una: int)
    requires InRefines(st, ist) && una <= ist.id.tx.una <= ist.id.tx.nxt <= una + 0xffff
    ensures Refines(FinishInput(st, Wrap(una)), IFinish(ist))
    ensures FinishInput(st, Wrap(una)).cc
         == if ist.id.tx.una > una then GrowWindow(st.cb.cc, st.cb.cfg.Mss()) else st.cb.cc
  {
    if ist.flag {
      FastackRefines(st.cb.tx, ist.id.tx, ist.maxack);
    }
    TimeDiffExact(ist.id.tx.una, una);
  }

  /** Main result: a datagram whose numbers are all within reach does to the
      control block what it does with plain numbers. */
  lemma InputRefines(cb: Cb, bytes: seq<byte>, id: Ideal, ms: seq<Mark>)
    requires var d := DecodeAll(cb.cfg.conv, bytes);
             Refines(cb, id) && |d.packets| == |ms| && NearAll(IState(id, false, 0), d.packets, ms)
    ensures var d := DecodeAll(cb.cfg.conv, bytes);
            Refines(Input(cb, bytes).0, IInput(id, d.packets, ms, d.ret))
    ensures var d := DecodeAll(cb.cfg.conv, bytes);
            var st := ProcessAll(InState(cb, false, 0), d.packets);
            var risen := ISteps(IState(id, false, 0), d.packets, ms).id.tx.una > id.tx.una;
            Input(cb, bytes).0.cc == if d.ret >= 0 && risen then GrowWindow(st.cb.cc, st.cb.cfg.Mss()) else st.cb.cc
  {
    var d := DecodeAll(cb.cfg.conv, bytes);
    var st, ist := InState(cb, false, 0), IState(id, false, 0);
    PacketsRefine(st, ist, d.packets, ms);
    if |bytes| >= OVERHEAD && d.ret >= 0 {
      FinishRefines(ProcessAll(st, d.packets), ISteps(ist, d.packets, ms), id.tx.una);
    }
  }

  // ---- flush ----

  /** A fast retransmission starts the skip counter of its segment again. */
  function IResent(cb: Cb, buf: seq<SndSeg>, nums: seq<Num>): (r: seq<Num>)
    ensures |r| == |nums|
  {
    seq(|nums|, i requires 0 <= i < |nums| =>
      if i < |buf| && DueNow(cb, buf[i]) == Fast then nums[i].(skips := 0) else nums[i])
  }

  /** What a flush does to the numbers: the window is filled, the skip counters
      of fast retransmissions start again, the acknowledgements are gone. */
  function IFlush(cb: Cb, id: Ideal): Ideal {
    if !cb.clock.updated then id
    else
      var tx := IFill(id.tx, SendWindow(cb));
      id.(tx := tx.(buf := IResent(cb, Filled(cb).buf, tx.buf)), acks := [])
  }

  lemma {:induction false} FlushResets(cb: Cb, buf: seq<SndSeg>)
    ensures |FlushBuf(cb, buf).buf| == |buf|
    ensures forall i :: 0 <= i < |buf| ==>
              FlushBuf(cb, buf).buf[i].fastack == if DueNow(cb, buf[i]) == Fast then 0 else buf[i].fastack
  {
    if buf != [] {
      FlushResets(cb, buf[..|buf| - 1]);
    }
  }

  lemma ResentRefines(cb: Cb, buf: seq<SndSeg>, nums: seq<Num>, lo: int, hi: int)
    requires SegsRefine(buf, nums) && SkipsRefine(buf, nums) && IWithin(nums, lo, hi)
    ensures SegsRefine(FlushBuf(cb, buf).buf, IResent(cb, buf, nums))
    ensures SkipsRefine(FlushBuf(cb, buf).buf, IResent(cb, buf, nums))
    ensures IWithin(IResent(cb, buf, nums), lo, hi)
    ensures SameNumbers(nums, IResent(cb, buf, nums))
  {
    hide DueNow;
    KcpQueues.FlushKeepsNumbers(cb, buf);
    FlushResets(cb, buf);
  }

  lemma FlushRefines(cb: Cb, id: Ideal)
    requires Refines(cb, id)
    ensures |Filled(cb).buf| == |IFill(id.tx, SendWindow(cb)).buf|
    ensures Refines(Flush(cb).0, IFlush(cb, id))
  {
    FillRefines(cb, cb.tx, id.tx, SendWindow(cb));
    var tx := IFill(id.tx, SendWindow(cb));
    assert TxRefines(Filled(cb), tx) && ITxOrdered(tx);
    ResentRefines(cb, Filled(cb).buf, tx.buf, tx.una, tx.nxt);
  }
}
