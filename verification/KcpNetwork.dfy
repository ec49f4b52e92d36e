/** Two control blocks joined by a network that loses, duplicates and reorders
    datagrams. Every datagram ever sent stays deliverable, any number of times,
    as long as no number in it is half a circle behind. */
module KcpNetwork {
  import opened Seqs
  import opened Words
  import opened KcpWire
  import opened KcpSpec
  import opened KcpUnbounded
  import opened KcpMessages

  /** One end: its control block, the unbounded numbers behind it, the messages
      ikcp_send accepted and those ikcp_recv returned. */
  datatype Peer = Peer(cb: Cb, id: Ideal, sent: seq<seq<byte>>, got: seq<seq<byte>>)

  /** A datagram with the unbounded numbers of its packets. */
  datatype Dgram = Dgram(bytes: seq<byte>, marks: seq<Mark>)

  /** `ab` and `ba` hold all datagrams ever sent by `a` and by `b`. */
  datatype Net = Net(a: Peer, b: Peer, ab: set<Dgram>, ba: set<Dgram>)

  function Swap(n: Net): Net {
    Net(n.b, n.a, n.ba, n.ab)
  }

  // ---- sending datagrams ----

  function RepeatMark(m: Mark, n: nat): seq<Mark> {
    if n == 0 then [] else RepeatMark(m, n - 1) + [m]
  }

  function AckMarks(id: Ideal, n: nat): seq<Mark>
    requires n <= |id.acks|
  {
    if n == 0 then [] else AckMarks(id, n - 1) + [Mark(id.acks[n - 1], id.rx.nxt)]
  }

  /** Marks of the segments the data loop sends. */
  function PushMarks(cb: Cb, buf: seq<SndSeg>, nums: seq<Num>, una: int): seq<Mark>
    requires |buf| == |nums|
  {
    if buf == [] then []
    else
      PushMarks(cb, buf[..|buf| - 1], nums[..|buf| - 1], una)
      + if DueNow(cb, buf[|buf| - 1]) == NotDue then [] else [Mark(nums[|buf| - 1].no, una)]
  }

  function FlushMarks(cb: Cb, id: Ideal): seq<Mark>
    requires Refines(cb, id) && |Filled(cb).buf| == |IFill(id.tx, SendWindow(cb)).buf|
  {
    AckMarks(id, |id.acks|) + RepeatMark(Mark(0, id.rx.nxt), |ProbePackets(cb)|)
    + PushMarks(cb, Filled(cb).buf, IFill(id.tx, SendWindow(cb)).buf, id.rx.nxt)
  }

  /** The datagrams of one flush, each with its share of the marks. */
  function Tag(conv: u32, groups: seq<seq<Packet>>, marks: seq<Mark>): seq<Dgram>
    requires SendableGroups(groups) && |Flatten(groups)| <= |marks|
  {
    if groups == [] then []
    else
      var init, g := groups[..|groups| - 1], groups[|groups| - 1];
      Tag(conv, init, marks) + [Dgram(EncodeAll(conv, g), marks[|Flatten(init)|..|Flatten(groups)|])]
  }

  // ---- what is true of one packet on the wire ----

  /** Number `n` has reached the receiver for good. */
  ghost predicate Stored(rx: IRx, n: int) {
    n < rx.nxt || exists i :: 0 <= i < |rx.buf| && rx.buf[i].no == n
  }

  /** What a packet from a peer with state `id` and fragment stream `hist` says
      is so: its data is the fragment of that number, and what it acknowledges
      among the numbers below `end` has been stored. */
  ghost predicate Honest(hist: seq<Frag>, id: Ideal, end: int, p: Packet, m: Mark) {
    && Marks(p, m) && m.una <= id.rx.nxt
    && (p.cmd == CMD_ACK ==> 0 <= m.no < end && Stored(id.rx, m.no))
    && (p.cmd == CMD_PUSH ==> 0 <= m.no < id.tx.nxt && m.no < |hist| && hist[m.no] == Frag(p.frg, p.data))
  }

  ghost predicate HonestAll(hist: seq<Frag>, id: Ideal, end: int, ps: seq<Packet>, ms: seq<Mark>) {
    |ps| == |ms| && forall i :: 0 <= i < |ps| ==> Honest(hist, id, end, ps[i], ms[i])
  }

  ghost predicate HonestDgram(conv: u32, hist: seq<Frag>, id: Ideal, end: int, d: Dgram) {
    HonestAll(hist, id, end, DecodeAll(conv, d.bytes).packets, d.marks)
  }

  ghost predicate HonestNet(conv: u32, hist: seq<Frag>, id: Ideal, end: int, ds: set<Dgram>) {
    forall d :: d in ds ==> HonestDgram(conv, hist, id, end, d)
  }

  /** A later state of the peer keeps everything its packets said. */
  ghost predicate Later(hist: seq<Frag>, id: Ideal, hist': seq<Frag>, id': Ideal) {
    hist <= hist' && id.tx.nxt <= id'.tx.nxt && RxLater(id.rx, id'.rx)
  }

  ghost predicate RxLater(rx: IRx, rx': IRx) {
    rx.nxt <= rx'.nxt && rx.wnd == rx'.wnd && forall n: int :: Stored(rx, n) ==> Stored(rx', n)
  }

  lemma HonestLater(conv: u32, hist: seq<Frag>, id: Ideal, end: int, hist': seq<Frag>, id': Ideal, end': int, ds: set<Dgram>)
    requires HonestNet(conv, hist, id, end, ds) && Later(hist, id, hist', id') && end <= end'
    ensures HonestNet(conv, hist', id', end', ds)
  {
    forall d | d in ds
      ensures HonestDgram(conv, hist', id', end', d)
    {
      var ps := DecodeAll(conv, d.bytes).packets;
      assert HonestAll(hist, id, end, ps, d.marks);
      forall i | 0 <= i < |ps|
        ensures Honest(hist', id', end', ps[i], d.marks[i])
      {
        assert Honest(hist, id, end, ps[i], d.marks[i]);
      }
    }
  }

  // ---- one direction: `s` sends, `r` receives ----

  ghost predicate Carries(hist: seq<Frag>, end: int, buf: seq<Num>) {
    forall i :: 0 <= i < |buf| ==> 0 <= buf[i].no < end && buf[i].no < |hist| && hist[buf[i].no] == buf[i].frag
  }

  /** Everything sent and no longer kept by the sender is with the receiver. */
  ghost predicate Covered(tx: ITx, rx: IRx) {
    forall n :: 0 <= n < tx.nxt ==> Stored(rx, n) || InBuf(tx.buf, n)
  }

  ghost predicate InBuf(buf: seq<Num>, n: int) {
    exists i :: 0 <= i < |buf| && buf[i].no == n
  }

  ghost predicate SenderHolds(hist: seq<Frag>, tx: ITx) {
    0 <= tx.una <= tx.nxt <= |hist| && hist[tx.nxt..] == tx.queue && Carries(hist, tx.nxt, tx.buf)
  }

  /** The receiver has handed the first `taken` fragments to the application. */
  ghost predicate ReceiverHolds(hist: seq<Frag>, end: int, rx: IRx, taken: nat) {
    taken <= rx.nxt <= end <= |hist| && rx.queue == hist[taken..rx.nxt] && Carries(hist, end, rx.buf)
  }

  ghost predicate AcksHold(acks: seq<int>, rx: IRx, end: int) {
    forall i :: 0 <= i < |acks| ==> 0 <= acks[i] < end && Stored(rx, acks[i])
  }

  ghost predicate Flows(hist: seq<Frag>, s: Ideal, r: Ideal, taken: nat) {
    SenderHolds(hist, s.tx) && ReceiverHolds(hist, s.tx.nxt, r.rx, taken) && Covered(s.tx, r.rx)
    && AcksHold(r.acks, r.rx, s.tx.nxt)
  }

  /** The oldest number in flight is at most one receive window ahead of what
      the receiver has, so nothing in flight is out of circular reach. */
  lemma FlightBounded(hist: seq<Frag>, s: Ideal, r: Ideal, taken: nat)
    requires Flows(hist, s, r, taken) && ITxOrdered(s.tx) && IRxOrdered(r.rx)
    ensures s.tx.nxt <= r.rx.nxt + r.rx.wnd + 0xffff
  {
    if s.tx.una > 0 {
      assert !InBuf(s.tx.buf, s.tx.una - 1);
      assert Stored(r.rx, s.tx.una - 1);
    }
  }

  // ---- the receiver stores and never loses ----

  lemma {:induction false} MoveReadyLater(rx: IRx)
    ensures RxLater(rx, IMoveReady(rx))
    decreases |rx.buf|
  {
    if rx.buf != [] && rx.buf[0].no == rx.nxt && |rx.queue| < rx.wnd {
      var rx' := IRx(rx.nxt + 1, rx.wnd, rx.queue + [rx.buf[0].frag], rx.buf[1..]);
      forall n: int | Stored(rx, n)
        ensures Stored(rx', n)
      {
        if n >= rx'.nxt {
          var i :| 0 <= i < |rx.buf| && rx.buf[i].no == n;
          assert rx'.buf[i - 1].no == n;
        }
      }
      MoveReadyLater(rx');
    }
  }

  lemma {:induction false} MoveReadyHolds(hist: seq<Frag>, end: int, rx: IRx, taken: nat)
    requires ReceiverHolds(hist, end, rx, taken)
    ensures ReceiverHolds(hist, end, IMoveReady(rx), taken)
    decreases |rx.buf|
  {
    if rx.buf != [] && rx.buf[0].no == rx.nxt && |rx.queue| < rx.wnd {
      MoveReadyHolds(hist, end, IRx(rx.nxt + 1, rx.wnd, rx.queue + [rx.buf[0].frag], rx.buf[1..]), taken);
    }
  }

  lemma {:induction false} IInsertPosFinds(buf: seq<Num>, no: int, n: nat)
    requires n <= |buf|
    ensures var (p, repeated) := IInsertPos(buf, no, n); repeated ==> 0 < p && buf[p - 1].no == no
  {
    if n > 0 && buf[n - 1].no != no && no < buf[n - 1].no {
      IInsertPosFinds(buf, no, n - 1);
    }
  }

  /** Inserting a segment stores its number and forgets none. */
  lemma InsertStores(rx: IRx, num: Num)
    ensures RxLater(rx, rx.(buf := IInsert(rx.buf, num)))
    ensures Stored(rx.(buf := IInsert(rx.buf, num)), num.no)
  {
    var buf := IInsert(rx.buf, num);
    var (p, repeated) := IInsertPos(rx.buf, num.no, |rx.buf|);
    IInsertPosFinds(rx.buf, num.no, |rx.buf|);
    if !repeated {
      assert buf[p] == num;
      forall n: int | Stored(rx, n)
        ensures Stored(rx.(buf := buf), n)
      {
        if n >= rx.nxt {
          var i :| 0 <= i < |rx.buf| && rx.buf[i].no == n;
          assert buf[if i < p then i else i + 1].no == n;
        }
      }
    }
  }

  lemma DataLater(rx: IRx, num: Num)
    ensures RxLater(rx, IData(rx, num))
    ensures num.no < rx.nxt + rx.wnd ==> Stored(IData(rx, num), num.no)
  {
    if rx.nxt <= num.no < rx.nxt + rx.wnd {
      InsertStores(rx, num);
      MoveReadyLater(rx.(buf := IInsert(rx.buf, num)));
    }
  }

  lemma DataHolds(hist: seq<Frag>, end: int, rx: IRx, taken: nat, num: Num)
    requires ReceiverHolds(hist, end, rx, taken) && Carries(hist, end, [num])
    ensures ReceiverHolds(hist, end, IData(rx, num), taken)
  {
    assert [num][0] == num;
    MoveReadyHolds(hist, end, rx.(buf := IInsert(rx.buf, num)), taken);
  }

  // ---- the sender drops only what is stored ----

  /** What the receiver no longer misses may leave the sender's buffer. */
  ghost predicate DropsStored(buf: seq<Num>, buf': seq<Num>, rx: IRx) {
    (forall n: int :: InBuf(buf, n) ==> InBuf(buf', n) || Stored(rx, n))
    && (forall i :: 0 <= i < |buf'| ==> exists j :: 0 <= j < |buf| && buf[j] == buf'[i])
  }

  lemma DropKeepsFlow(hist: seq<Frag>, s: Ideal, r: Ideal, taken: nat, buf': seq<Num>)
    requires Flows(hist, s, r, taken) && DropsStored(s.tx.buf, buf', r.rx)
    ensures Flows(hist, s.(tx := IShrink(s.tx.(buf := buf'))), r, taken)
  {
    var tx' := IShrink(s.tx.(buf := buf'));
    forall i | 0 <= i < |buf'|
      ensures 0 <= buf'[i].no < s.tx.nxt && hist[buf'[i].no] == buf'[i].frag
    {
      var j :| 0 <= j < |s.tx.buf| && s.tx.buf[j] == buf'[i];
    }
  }

  lemma {:induction false} IDropBelowIsSuffix(nums: seq<Num>, una: int)
    ensures |IDropBelow(nums, una)| <= |nums| && IDropBelow(nums, una) == nums[|nums| - |IDropBelow(nums, una)|..]
    ensures forall i :: 0 <= i < |nums| - |IDropBelow(nums, una)| ==> nums[i].no < una
  {
    if nums != [] && nums[0].no < una {
      IDropBelowIsSuffix(nums[1..], una);
    }
  }

  lemma UnaDropsStored(buf: seq<Num>, una: int, rx: IRx)
    requires una <= rx.nxt
    ensures DropsStored(buf, IDropBelow(buf, una), rx)
  {
    var buf' := IDropBelow(buf, una);
    IDropBelowIsSuffix(buf, una);
    var k := |buf| - |buf'|;
    forall n: int | InBuf(buf, n)
      ensures InBuf(buf', n) || Stored(rx, n)
    {
      var i :| 0 <= i < |buf| && buf[i].no == n;
      if i >= k {
        assert buf'[i - k].no == n;
      }
    }
    forall i | 0 <= i < |buf'|
      ensures exists j :: 0 <= j < |buf| && buf[j] == buf'[i]
    {
      assert buf[i + k] == buf'[i];
    }
  }

  lemma AckDropsStored(buf: seq<Num>, no: int, rx: IRx)
    requires Stored(rx, no)
    ensures DropsStored(buf, IDropAcked(buf, no), rx)
  {
    var k := IDropAckedRemovesOne(buf, no);
    var buf' := IDropAcked(buf, no);
    forall n: int | InBuf(buf, n)
      ensures InBuf(buf', n) || Stored(rx, n)
    {
      var i :| 0 <= i < |buf| && buf[i].no == n;
      if i != k {
        assert buf'[if i < k then i else i - 1].no == n;
      }
    }
    forall i | 0 <= i < |buf'|
      ensures exists j :: 0 <= j < |buf| && buf[j] == buf'[i]
    {
      assert buf[if i < k then i else i + 1] == buf'[i];
    }
  }

  /** A direction does not look at skip counters. */
  lemma SkipsKeepFlow(hist: seq<Frag>, s: Ideal, r: Ideal, taken: nat, buf': seq<Num>)
    requires Flows(hist, s, r, taken) && SameNumbers(s.tx.buf, buf')
    ensures Flows(hist, s.(tx := s.tx.(buf := buf')), r, taken)
  {
    forall n: int | InBuf(s.tx.buf, n)
      ensures InBuf(buf', n)
    {
      var i :| 0 <= i < |s.tx.buf| && s.tx.buf[i].no == n;
      assert buf'[i].no == n;
    }
  }

  lemma UnaKeepsFlow(hist: seq<Frag>, s: Ideal, r: Ideal, taken: nat, una: int)
    requires Flows(hist, s, r, taken) && una <= r.rx.nxt
    ensures Flows(hist, s.(tx := IUna(s.tx, una)), r, taken)
  {
    UnaDropsStored(s.tx.buf, una, r.rx);
    DropKeepsFlow(hist, s, r, taken, IDropBelow(s.tx.buf, una));
  }

  lemma AckKeepsFlow(hist: seq<Frag>, s: Ideal, r: Ideal, taken: nat, no: int)
    requires Flows(hist, s, r, taken) && Stored(r.rx, no)
    ensures Flows(hist, s.(tx := IAck(s.tx, no)), r, taken)
  {
    var buf' := if s.tx.una <= no < s.tx.nxt then IDropAcked(s.tx.buf, no) else s.tx.buf;
    AckDropsStored(s.tx.buf, no, r.rx);
    assert DropsStored(s.tx.buf, s.tx.buf, r.rx);
    DropKeepsFlow(hist, s, r, taken, buf');
  }

  /** The receiving half moves on; the flow holds. */
  lemma PushKeepsFlow(hist: seq<Frag>, s: Ideal, r: Ideal, taken: nat, num: Num)
    requires Flows(hist, s, r, taken) && Carries(hist, s.tx.nxt, [num])
    ensures Flows(hist, s, IPush(r, num), taken) && RxLater(r.rx, IPush(r, num).rx) && IPush(r, num).tx == r.tx
  {
    assert [num][0] == num;
    DataLater(r.rx, num);
    DataHolds(hist, s.tx.nxt, r.rx, taken, num);
  }

  // ---- the application sends and receives ----

  lemma AppendKeepsFlow(hist: seq<Frag>, s: Ideal, r: Ideal, taken: nat, tail: seq<Frag>)
    requires Flows(hist, s, r, taken)
    ensures var s' := s.(tx := s.tx.(queue := s.tx.queue + tail));
            Flows(hist + tail, s', r, taken) && Later(hist, s, hist + tail, s')
  {
    var hist' := hist + tail;
    assert hist'[s.tx.nxt..] == s.tx.queue + tail;
    assert hist'[taken..r.rx.nxt] == hist[taken..r.rx.nxt];
  }

  /** A direction looks at the sender's sending half and at the receiver's
      receiving half and acknowledgements only. */
  lemma FlowsDependOn(hist: seq<Frag>, s: Ideal, r: Ideal, s': Ideal, r': Ideal, taken: nat)
    requires Flows(hist, s, r, taken) && s.tx == s'.tx && r.rx == r'.rx && r.acks == r'.acks
    ensures Flows(hist, s', r', taken)
  {}

  lemma AfterRecvLater(rx: IRx, peek: bool)
    ensures RxLater(rx, IAfterRecv(rx, peek))
  {
    var rx1 := rx.(queue := rx.queue[MessageLen(rx.queue)..]);
    assert RxLater(rx, rx1);
    MoveReadyLater(rx);
    MoveReadyLater(rx1);
  }

  lemma AfterRecvKeepsFlow(hist: seq<Frag>, s: Ideal, r: Ideal, taken: nat, peek: bool)
    requires Flows(hist, s, r, taken)
    ensures Flows(hist, s, r.(rx := IAfterRecv(r.rx, peek)), if peek then taken else taken + MessageLen(r.rx.queue))
  {
    var n := MessageLen(r.rx.queue);
    AfterRecvLater(r.rx, peek);
    MoveReadyHolds(hist, s.tx.nxt, r.rx, taken);
    assert r.rx.queue[n..] == hist[taken + n..r.rx.nxt];
    MoveReadyHolds(hist, s.tx.nxt, r.rx.(queue := r.rx.queue[n..]), taken + n);
  }

  // ---- a flush ----

  lemma {:induction false} FillKeepsFlow(hist: seq<Frag>, s: Ideal, r: Ideal, taken: nat, cwnd: nat)
    requires Flows(hist, s, r, taken)
    ensures Flows(hist, s.(tx := IFill(s.tx, cwnd)), r, taken) && s.tx.nxt <= IFill(s.tx, cwnd).nxt
    decreases |s.tx.queue|
  {
    if s.tx.nxt < s.tx.una + cwnd && s.tx.queue != [] {
      var frag := s.tx.queue[0];
      assert hist[s.tx.nxt..][0] == frag && hist[s.tx.nxt + 1..] == s.tx.queue[1..];
      var tx := IFillOne(s.tx);
      forall n | 0 <= n < tx.nxt
        ensures Stored(r.rx, n) || InBuf(tx.buf, n)
      {
        if n == s.tx.nxt {
          assert tx.buf[|s.tx.buf|].no == n;
        } else if !Stored(r.rx, n) {
          var i :| 0 <= i < |s.tx.buf| && s.tx.buf[i].no == n;
          assert tx.buf[i].no == n;
        }
      }
      FillKeepsFlow(hist, s.(tx := tx), r, taken, cwnd);
    }
  }

  lemma HonestConcat(hist: seq<Frag>, id: Ideal, end: int, ps: seq<Packet>, ms: seq<Mark>, qs: seq<Packet>, ns: seq<Mark>)
    requires HonestAll(hist, id, end, ps, ms) && HonestAll(hist, id, end, qs, ns)
    ensures HonestAll(hist, id, end, ps + qs, ms + ns)
  {}

  lemma {:induction false} AcksHonest(hist: seq<Frag>, cb: Cb, id: Ideal, id': Ideal, end: int, n: nat)
    requires Refines(cb, id) && AcksHold(id.acks, id.rx, end) && id'.rx == id.rx && n <= |cb.acks|
    ensures HonestAll(hist, id', end, AckPackets(cb, n), AckMarks(id, n))
  {
    if n > 0 {
      AcksHonest(hist, cb, id, id', end, n - 1);
      var p, m := AckPacket(cb, n - 1), Mark(id.acks[n - 1], id.rx.nxt);
      assert Honest(hist, id', end, p, m);
      HonestConcat(hist, id', end, AckPackets(cb, n - 1), AckMarks(id, n - 1), [p], [m]);
    }
  }

  lemma ProbesHonest(hist: seq<Frag>, cb: Cb, id: Ideal, id': Ideal, end: int)
    requires RxRefines(cb.rx, id.rx) && id'.rx == id.rx
    ensures HonestAll(hist, id', end, ProbePackets(cb), RepeatMark(Mark(0, id.rx.nxt), |ProbePackets(cb)|))
  {
    var m := Mark(0, id.rx.nxt);
    assert RepeatMark(m, 1) == RepeatMark(m, 0) + [m] && RepeatMark(m, 2) == RepeatMark(m, 1) + [m];
  }

  lemma {:induction false} PushesHonest(hist: seq<Frag>, cb: Cb, id: Ideal, end: int, buf: seq<SndSeg>, nums: seq<Num>)
    requires RxRefines(cb.rx, id.rx) && SegsRefine(buf, nums) && Carries(hist, id.tx.nxt, nums)
    ensures HonestAll(hist, id, end, FlushBuf(cb, buf).sent, PushMarks(cb, buf, nums, id.rx.nxt))
  {
    if buf != [] {
      var k := |buf| - 1;
      PushesHonest(hist, cb, id, end, buf[..k], nums[..k]);
      if DueNow(cb, buf[k]) != NotDue {
        var p, m := PushPacket(Touch(cb, buf[k])), Mark(nums[k].no, id.rx.nxt);
        TouchKeeps(cb, buf[k]);
        assert Honest(hist, id, end, p, m);
        HonestConcat(hist, id, end, FlushBuf(cb, buf[..k]).sent, PushMarks(cb, buf[..k], nums[..k], id.rx.nxt), [p], [m]);
      }
    }
  }

  /** Every packet of a flush says only what is so. */
  lemma FlushHonest(hist: seq<Frag>, cb: Cb, id: Ideal, end: int)
    requires Refines(cb, id) && cb.clock.updated && AcksHold(id.acks, id.rx, end)
    requires SegsRefine(Filled(cb).buf, IFill(id.tx, SendWindow(cb)).buf)
    requires Carries(hist, IFlush(cb, id).tx.nxt, IFill(id.tx, SendWindow(cb)).buf)
    ensures HonestAll(hist, IFlush(cb, id), end, FlushPackets(cb), FlushMarks(cb, id))
  {
    hide HonestAll, ProbePackets, AckPackets, FlushBuf, Filled, IFill;
    var id', nums := IFlush(cb, id), IFill(id.tx, SendWindow(cb)).buf;
    AcksHonest(hist, cb, id, id', end, |cb.acks|);
    ProbesHonest(hist, cb, id, id', end);
    PushesHonest(hist, cb, id', end, Filled(cb).buf, nums);
    var probes := RepeatMark(Mark(0, id.rx.nxt), |ProbePackets(cb)|);
    HonestConcat(hist, id', end, AckPackets(cb, |cb.acks|), AckMarks(id, |id.acks|), ProbePackets(cb), probes);
    HonestConcat(hist, id', end, AckPackets(cb, |cb.acks|) + ProbePackets(cb), AckMarks(id, |id.acks|) + probes,
                 FlushBuf(cb, Filled(cb).buf).sent, PushMarks(cb, Filled(cb).buf, nums, id.rx.nxt));
  }

  /** Cutting honest packets into datagrams leaves every datagram honest. */
  lemma {:induction false} TagHonest(conv: u32, hist: seq<Frag>, id: Ideal, end: int, gs: seq<seq<Packet>>, ms: seq<Mark>)
    requires SendableGroups(gs) && |Flatten(gs)| <= |ms|
    requires HonestAll(hist, id, end, Flatten(gs), ms[..|Flatten(gs)|])
    ensures forall i :: 0 <= i < |Tag(conv, gs, ms)| ==> HonestDgram(conv, hist, id, end, Tag(conv, gs, ms)[i])
  {
    hide Honest;
    if gs != [] {
      var init, g := gs[..|gs| - 1], gs[|gs| - 1];
      var flat, k := Flatten(gs), |Flatten(init)|;
      var share := ms[k..|flat|];
      DecodeEncodeAll(conv, g);
      forall i | 0 <= i < k
        ensures Honest(hist, id, end, Flatten(init)[i], ms[..k][i])
      {
        assert Honest(hist, id, end, flat[i], ms[..|flat|][i]);
      }
      forall i | 0 <= i < |g|
        ensures Honest(hist, id, end, g[i], share[i])
      {
        assert Honest(hist, id, end, flat[k + i], ms[..|flat|][k + i]);
      }
      TagHonest(conv, hist, id, end, init, ms);
    }
  }
}
