/** The two tasks behind USB/IP: the TCP task of usbip_server.c takes commands and
    answers IN requests, DAP_Thread of DAP_handle.c executes the commands; between
    them lie two rings, a counting notification and `dap_req_num`. Every action is
    one step that no other task can cut. */
module UsbipPipeline {
  const SLOTS := 10
  const ID_QUEUE_COMMANDS := 0x7E
  const ID_EXECUTE_COMMANDS := 0x7F

  datatype Packet = Packet(id: nat, data: seq<nat>)

  /** What the probe makes of a command: its next state and the response. */
  type Exec<!S> = (S, Packet) -> (S, Packet)

  function Unqueued(cmd: Packet): Packet {
    if cmd.id == ID_QUEUE_COMMANDS then cmd.(id := ID_EXECUTE_COMMANDS) else cmd
  }

  /** The probe after executing commands one after the other. */
  function ProbeAfter<S>(exec: Exec<S>, probe: S, cmds: seq<Packet>): S {
    if cmds == [] then probe
    else exec(ProbeAfter(exec, probe, cmds[..|cmds| - 1]), Unqueued(cmds[|cmds| - 1])).0
  }

  /** The responses to commands executed one after the other. */
  function Results<S>(exec: Exec<S>, probe: S, cmds: seq<Packet>): (r: seq<Packet>)
    ensures |r| == |cmds|
  {
    if cmds == [] then []
    else
      var n := |cmds| - 1;
      Results(exec, probe, cmds[..n]) + [exec(ProbeAfter(exec, probe, cmds[..n]), Unqueued(cmds[n])).1]
  }

  // ---- the state ----

  /** Where the TCP task stands: reading from the socket, at the IN ring with a
      command, before the notification, at the OUT ring, with a response in hand,
      with a response sent but not yet returned to the ring. */
  datatype Tcp = Reading | Pushing(cmd: Packet) | Notifying | Awaiting | Replying(resp: Packet) | Returning

  /** Where DAP_Thread stands: before the notification, at the IN ring, with a
      command in hand, with its response but the command still in the ring, at the
      OUT ring, before the counter. */
  datatype Dap = Sleeping | Receiving | Holding(cmd: Packet) | Answered(resp: Packet) | Sending(resp: Packet) | Counting

  datatype Reply = Data(packet: Packet) | Empty

  /** `received` and `replies` are all that came and went on the socket. */
  datatype State<S> = State(tcp: Tcp, dap: Dap, inRing: seq<Packet>, outRing: seq<Packet>, notified: nat,
                            reqNum: nat, respond: int, probe: S, received: seq<Packet>, replies: seq<Reply>)
  {
    /** An item in hand keeps its slot until it is returned. */
    function InUsed(): nat {
      |inRing| + if dap.Holding? || dap.Answered? then 1 else 0
    }

    function OutUsed(): nat {
      |outRing| + if tcp.Replying? || tcp.Returning? then 1 else 0
    }
  }

  function Initial<S>(probe: S): State<S> {
    State(Reading, Sleeping, [], [], 0, 0, 0, probe, [], [])
  }

  // ---- the steps ----

  datatype Act =
    | GetOut(cmd: Packet) | PushIn | Notify
    | GetIn | Take | Reply | Return
    | Wake | Receive | TimeOut | Execute | ReturnItem | PushOut | Count

  /** The host decides when these happen. */
  predicate FromHost(a: Act) {
    a.GetOut? || a.GetIn?
  }

  predicate Enabled<S>(s: State<S>, a: Act) {
    match a
    case GetOut(_) => s.tcp.Reading?
    case PushIn => s.tcp.Pushing? && s.InUsed() < SLOTS
    case Notify => s.tcp.Notifying?
    case GetIn => s.tcp.Reading?
    case Take => s.tcp.Awaiting? && s.outRing != []
    case Reply => s.tcp.Replying?
    case Return => s.tcp.Returning?
    case Wake => s.dap.Sleeping? && s.notified > 0
    case Receive => s.dap.Receiving? && s.inRing != []
    case TimeOut => s.dap.Receiving? && s.inRing == []
    case Execute => s.dap.Holding?
    case ReturnItem => s.dap.Answered?
    case PushOut => s.dap.Sending? && s.OutUsed() < SLOTS
    case Count => s.dap.Counting?
  }

  function Step<S>(exec: Exec<S>, s: State<S>, a: Act): State<S>
    requires Enabled(s, a)
  {
    match a
    case GetOut(cmd) => s.(tcp := Pushing(cmd), reqNum := s.reqNum + 1, received := s.received + [cmd])
    case PushIn => s.(tcp := Notifying, inRing := s.inRing + [s.tcp.cmd])
    case Notify => s.(tcp := Reading, notified := s.notified + 1)
    case GetIn => if s.reqNum > 0 then s.(tcp := Awaiting) else s.(replies := s.replies + [Empty])
    case Take => s.(tcp := Replying(s.outRing[0]), outRing := s.outRing[1..])
    case Reply => s.(tcp := Returning, replies := s.replies + [Data(s.tcp.resp)], respond := s.respond - 1)
    case Return => s.(tcp := Reading, reqNum := if s.reqNum > 0 then s.reqNum - 1 else 0)
    case Wake => s.(dap := Receiving, notified := s.notified - 1)
    case Receive => s.(dap := Holding(s.inRing[0]), inRing := s.inRing[1..])
    case TimeOut => s.(dap := Sleeping)
    case Execute =>
      var (next, resp) := exec(s.probe, Unqueued(s.dap.cmd));
      s.(dap := Answered(resp), probe := next)
    case ReturnItem => s.(dap := Sending(s.dap.resp))
    case PushOut => s.(dap := Counting, outRing := s.outRing + [s.dap.resp])
    case Count => s.(dap := Sleeping, respond := s.respond + 1)
  }

  // ---- what every step keeps ----

  function One(b: bool): nat {
    if b then 1 else 0
  }

  function DataOf(replies: seq<Reply>): seq<Packet> {
    if replies == [] then []
    else
      var last := replies[|replies| - 1];
      DataOf(replies[..|replies| - 1]) + if last.Data? then [last.packet] else []
  }

  function InHand(s: State): seq<Packet> {
    if s.tcp.Replying? then [s.tcp.resp] else []
  }

  function Answer(s: State): seq<Packet> {
    if s.dap.Answered? || s.dap.Sending? then [s.dap.resp] else []
  }

  /** Responses in the order in which they go out. */
  function Responses(s: State): seq<Packet> {
    DataOf(s.replies) + InHand(s) + s.outRing + Answer(s)
  }

  function Command(s: State): seq<Packet> {
    if s.dap.Holding? then [s.dap.cmd] else []
  }

  function Arriving(s: State): seq<Packet> {
    if s.tcp.Pushing? then [s.tcp.cmd] else []
  }

  /** Commands that are not executed yet, oldest first. */
  function Unexecuted(s: State): seq<Packet> {
    Command(s) + s.inRing + Arriving(s)
  }

  /** dap_req_num counts the commands that are under way, wherever they are. */
  ghost predicate Counted(s: State) {
    s.reqNum == |Unexecuted(s)| + |Answer(s)| + |s.outRing| + One(s.tcp.Replying? || s.tcp.Returning?)
  }

  /** A notification, or a task about to give or use one, for each command in the
      ring: DAP_Thread never finds it empty. */
  ghost predicate Notified(s: State) {
    |s.inRing| == s.notified + One(s.dap.Receiving?) + One(s.tcp.Notifying?)
  }

  /** dap_respond can lag behind by the one response that is pushed but not counted. */
  ghost predicate Responding(s: State) {
    s.respond == |s.outRing| + One(s.tcp.Replying?) - One(s.dap.Counting?)
  }

  ghost predicate Bounded(s: State) {
    s.InUsed() <= SLOTS && s.OutUsed() <= SLOTS && (s.tcp.Awaiting? ==> s.reqNum > 0)
  }

  /** Nothing is lost, repeated, reordered or changed on the way. */
  ghost predicate InOrder<S>(exec: Exec<S>, probe: S, s: State<S>) {
    exists n: nat :: n <= |s.received| && Executed(exec, probe, s, n)
  }

  /** The first `n` commands are executed, the others still under way. */
  ghost predicate Executed<S>(exec: Exec<S>, probe: S, s: State<S>, n: nat)
    requires n <= |s.received|
  {
    && s.received[n..] == Unexecuted(s)
    && Responses(s) == Results(exec, probe, s.received[..n])
    && s.probe == ProbeAfter(exec, probe, s.received[..n])
  }

  ghost predicate Inv<S>(exec: Exec<S>, probe: S, s: State<S>) {
    Counted(s) && Notified(s) && Responding(s) && Bounded(s) && InOrder(exec, probe, s)
  }

  lemma CountedKept<S>(exec: Exec<S>, s: State<S>, a: Act)
    requires Enabled(s, a) && Counted(s)
    ensures Counted(Step(exec, s, a))
  {
    var t := Step(exec, s, a);
    assert |Unexecuted(t)| == |t.inRing| + One(t.dap.Holding?) + One(t.tcp.Pushing?);
    assert |Unexecuted(s)| == |s.inRing| + One(s.dap.Holding?) + One(s.tcp.Pushing?);
  }

  lemma NotifiedKept<S>(exec: Exec<S>, s: State<S>, a: Act)
    requires Enabled(s, a) && Notified(s)
    ensures Notified(Step(exec, s, a)) && a != TimeOut
  {}

  lemma RespondingKept<S>(exec: Exec<S>, s: State<S>, a: Act)
    requires Enabled(s, a) && Responding(s)
    ensures Responding(Step(exec, s, a))
  {}

  lemma BoundedKept<S>(exec: Exec<S>, s: State<S>, a: Act)
    requires Enabled(s, a) && Bounded(s)
    ensures Bounded(Step(exec, s, a))
  {}

  lemma CountsKept<S>(exec: Exec<S>, s: State<S>, a: Act)
    requires Enabled(s, a) && Counted(s) && Notified(s) && Responding(s) && Bounded(s)
    ensures var t := Step(exec, s, a); Counted(t) && Notified(t) && Responding(t) && Bounded(t)
    ensures a != TimeOut
  {
    hide Counted, Notified, Responding, Bounded, Step;
    CountedKept(exec, s, a);
    NotifiedKept(exec, s, a);
    RespondingKept(exec, s, a);
    BoundedKept(exec, s, a);
  }

  lemma DataOfMore(replies: seq<Reply>, r: Reply)
    ensures DataOf(replies + [r]) == DataOf(replies) + if r.Data? then [r.packet] else []
  {
    assert (replies + [r])[..|replies|] == replies;
  }

  lemma Regroup(a: seq<Packet>, b: seq<Packet>, c: seq<Packet>, d: seq<Packet>)
    ensures a + b + c + d == a + (b + c) + d
    ensures a + b + c + d == a + b + (c + d)
  {
    assert a + b + c == a + (b + c);
  }

  lemma ReplyKeeps<S>(exec: Exec<S>, s: State<S>)
    requires s.tcp.Replying?
    ensures Responses(Step(exec, s, Reply)) == Responses(s)
  {
    hide DataOf;
    DataOfMore(s.replies, Data(s.tcp.resp));
    var d := DataOf(s.replies) + [s.tcp.resp];
    assert d + [] == d;
  }

  lemma TakeKeeps<S>(exec: Exec<S>, s: State<S>)
    requires s.tcp.Awaiting? && s.outRing != []
    ensures Responses(Step(exec, s, Take)) == Responses(s)
  {
    hide DataOf;
    var o := s.outRing;
    Regroup(DataOf(s.replies), [], o, Answer(s));
    Regroup(DataOf(s.replies), [o[0]], o[1..], Answer(s));
    assert [] + o == [o[0]] + o[1..];
  }

  lemma PushOutKeeps<S>(exec: Exec<S>, s: State<S>)
    requires Enabled(s, PushOut)
    ensures Responses(Step(exec, s, PushOut)) == Responses(s)
  {
    hide DataOf;
    var o, r := s.outRing, s.dap.resp;
    Regroup(DataOf(s.replies), InHand(s), o, [r]);
    Regroup(DataOf(s.replies), InHand(s), o + [r], []);
    assert o + [r] == (o + [r]) + [];
  }

  /** A step moves responses on without touching their order. */
  lemma ResponsesKept<S>(exec: Exec<S>, s: State<S>, a: Act)
    requires Enabled(s, a) && !a.Execute?
    ensures Responses(Step(exec, s, a)) == Responses(s)
  {
    hide DataOf;
    match a
    case Reply => ReplyKeeps(exec, s);
    case Take => TakeKeeps(exec, s);
    case PushOut => PushOutKeeps(exec, s);
    case GetIn =>
      DataOfMore(s.replies, Empty);
      assert DataOf(s.replies) + [] == DataOf(s.replies);
    case _ =>
  }

  /** A step moves commands on without touching their order. */
  lemma UnexecutedKept<S>(exec: Exec<S>, s: State<S>, a: Act)
    requires Enabled(s, a) && !a.Execute? && !a.GetOut?
    ensures Unexecuted(Step(exec, s, a)) == Unexecuted(s)
  {
    var t := Step(exec, s, a);
    if a.Receive? {
      assert Command(t) + t.inRing == Command(s) + s.inRing;
    } else if a.PushIn? {
      assert t.inRing + Arriving(t) == s.inRing + Arriving(s);
      Regroup([], Command(s), s.inRing, Arriving(s));
      Regroup([], Command(t), t.inRing, Arriving(t));
    }
  }

  lemma ResultsNext<S>(exec: Exec<S>, probe: S, cmds: seq<Packet>, n: nat)
    requires n < |cmds|
    ensures var (next, resp) := exec(ProbeAfter(exec, probe, cmds[..n]), Unqueued(cmds[n]));
            ProbeAfter(exec, probe, cmds[..n + 1]) == next
            && Results(exec, probe, cmds[..n + 1]) == Results(exec, probe, cmds[..n]) + [resp]
  {
    assert cmds[..n + 1][..n] == cmds[..n];
  }

  lemma ExecutesNext<S>(exec: Exec<S>, probe: S, s: State<S>, n: nat)
    requires s.dap.Holding? && n <= |s.received| && Executed(exec, probe, s, n)
    ensures var t := Step(exec, s, Execute); n < |t.received| && Executed(exec, probe, t, n + 1)
  {
    hide DataOf, Unexecuted, Results, ProbeAfter, Responses;
    var t, r := Step(exec, s, Execute), s.received;
    ExecutesFirst(exec, s);
    assert r[n] == r[n..][0] && r[n + 1..] == r[n..][1..];
    ResultsNext(exec, probe, r, n);
  }

  lemma ExecutesFirst<S>(exec: Exec<S>, s: State<S>)
    requires s.dap.Holding?
    ensures var t, u := Step(exec, s, Execute), Unexecuted(s);
            |u| > 0 && u[0] == s.dap.cmd && u[1..] == Unexecuted(t)
            && Responses(t) == Responses(s) + [exec(s.probe, Unqueued(s.dap.cmd)).1]
  {
    hide DataOf;
    var t := Step(exec, s, Execute);
    assert Unexecuted(s) == [s.dap.cmd] + Unexecuted(t) by {
      assert [s.dap.cmd] + s.inRing + Arriving(s) == [s.dap.cmd] + (s.inRing + Arriving(s));
      assert [] + s.inRing == s.inRing;
    }
    assert Responses(s) + Answer(t) == Responses(t);
  }

  lemma OrderKept<S>(exec: Exec<S>, probe: S, s: State<S>, a: Act)
    requires Enabled(s, a) && InOrder(exec, probe, s)
    ensures InOrder(exec, probe, Step(exec, s, a))
  {
    var n: nat :| n <= |s.received| && Executed(exec, probe, s, n);
    if a.Execute? {
      ExecutesNext(exec, probe, s, n);
    } else {
      OthersMove(exec, probe, s, a, n);
    }
  }

  lemma Arrives<S>(exec: Exec<S>, s: State<S>, cmd: Packet)
    requires s.tcp.Reading?
    ensures Unexecuted(Step(exec, s, GetOut(cmd))) == Unexecuted(s) + [cmd]
  {
    var u := Command(s) + s.inRing;
    assert u + [] == u;
  }

  lemma SameHistory<S>(exec: Exec<S>, s: State<S>, a: Act)
    requires Enabled(s, a) && !a.Execute? && !a.GetOut?
    ensures Step(exec, s, a).received == s.received && Step(exec, s, a).probe == s.probe
  {}

  lemma Received<S>(exec: Exec<S>, s: State<S>, cmd: Packet)
    requires Enabled(s, GetOut(cmd))
    ensures Step(exec, s, GetOut(cmd)).received == s.received + [cmd] && Step(exec, s, GetOut(cmd)).probe == s.probe
  {}

  lemma OthersMove<S>(exec: Exec<S>, probe: S, s: State<S>, a: Act, n: nat)
    requires Enabled(s, a) && !a.Execute? && n <= |s.received| && Executed(exec, probe, s, n)
    ensures n <= |Step(exec, s, a).received| && Executed(exec, probe, Step(exec, s, a), n)
  {
    hide Step, Responses, Results, ProbeAfter, Unexecuted;
    ResponsesKept(exec, s, a);
    if a.GetOut? {
      Arrives(exec, s, a.cmd);
      Received(exec, s, a.cmd);
      var t := Step(exec, s, a);
      assert t.received[n..] == s.received[n..] + [a.cmd] && t.received[..n] == s.received[..n];
    } else {
      UnexecutedKept(exec, s, a);
      SameHistory(exec, s, a);
    }
  }

  lemma StepKeeps<S>(exec: Exec<S>, probe: S, s: State<S>, a: Act)
    requires Enabled(s, a) && Inv(exec, probe, s)
    ensures Inv(exec, probe, Step(exec, s, a))
  {
    hide Counted, Notified, Responding, Bounded, InOrder, Step;
    CountsKept(exec, s, a);
    OrderKept(exec, probe, s, a);
  }

  // ---- whole runs ----

  ghost predicate Run<S>(exec: Exec<S>, s: State<S>, acts: seq<Act>, t: State<S>)
    decreases |acts|
  {
    if acts == [] then s == t else Enabled(s, acts[0]) && Run(exec, Step(exec, s, acts[0]), acts[1..], t)
  }

  lemma {:induction false} RunKeeps<S>(exec: Exec<S>, probe: S, s: State<S>, acts: seq<Act>, t: State<S>)
    requires Run(exec, s, acts, t) && Inv(exec, probe, s)
    ensures Inv(exec, probe, t)
    decreases |acts|
  {
    if acts == [] {
    } else {
      StepKeeps(exec, probe, s, acts[0]);
      RunKeeps(exec, probe, Step(exec, s, acts[0]), acts[1..], t);
    }
  }

  lemma InitialInv<S>(exec: Exec<S>, probe: S)
    ensures Inv(exec, probe, Initial(probe))
  {
    var s := Initial(probe);
    assert Executed(exec, probe, s, 0);
  }

  /** In every interleaving the k-th data reply is the result of the k-th command,
      the commands being executed one after the other in the order they came. */
  lemma RepliesAreResults<S>(exec: Exec<S>, probe: S, acts: seq<Act>, t: State<S>)
    requires Run(exec, Initial(probe), acts, t)
    ensures DataOf(t.replies) <= Results(exec, probe, t.received)
    ensures Counted(t) && Notified(t) && Responding(t) && Bounded(t)
  {
    hide DataOf, Results, ProbeAfter, Run, Unexecuted, Counted, Notified, Responding, Bounded;
    InitialInv(exec, probe);
    RunKeeps(exec, probe, Initial(probe), acts, t);
    var n: nat :| n <= |t.received| && Executed(exec, probe, t, n);
    ResultsPrefix(exec, probe, t.received, n);
    Regroup(DataOf(t.replies), InHand(t), t.outRing, Answer(t));
    assert DataOf(t.replies) <= Responses(t);
  }

  /** An IN request gets the empty reply exactly when every command was answered, and
      otherwise waits for data. */
  lemma InAnswered<S>(exec: Exec<S>, probe: S, s: State<S>)
    requires Inv(exec, probe, s) && s.tcp.Reading?
    ensures var t := Step(exec, s, GetIn);
            if |DataOf(s.replies)| == |s.received| then t == s.(replies := s.replies + [Empty])
            else |DataOf(s.replies)| < |s.received| && t == s.(tcp := Awaiting)
  {
    hide DataOf, ProbeAfter;
    var n: nat :| n <= |s.received| && Executed(exec, probe, s, n);
    assert |Responses(s)| == n && |Unexecuted(s)| == |s.received| - n;
  }

  /** The k-th response is what the probe, after the commands before, makes of the k-th
      command; one marked for queueing is executed, with all it carries, at once. */
  lemma {:induction false} ResultAt<S>(exec: Exec<S>, probe: S, cmds: seq<Packet>, k: nat)
    requires k < |cmds|
    ensures Results(exec, probe, cmds)[k]
         == exec(ProbeAfter(exec, probe, cmds[..k]), if cmds[k].id == 0x7E then Packet(0x7F, cmds[k].data) else cmds[k]).1
    decreases |cmds|
  {
    hide ProbeAfter;
    var n := |cmds| - 1;
    if k < n {
      ResultAt(exec, probe, cmds[..n], k);
      assert cmds[..n][..k] == cmds[..k];
    }
  }

  lemma {:induction false} ResultsPrefix<S>(exec: Exec<S>, probe: S, cmds: seq<Packet>, n: nat)
    requires n <= |cmds|
    ensures Results(exec, probe, cmds[..n]) <= Results(exec, probe, cmds)
    decreases |cmds|
  {
    if n == |cmds| {
      assert cmds[..n] == cmds;
    } else {
      var k := |cmds| - 1;
      ResultsPrefix(exec, probe, cmds[..k], n);
      assert cmds[..k][..n] == cmds[..n];
    }
  }

  // ---- deadlock ----

  /** Nothing can happen without the host, and the TCP task does not listen to it. */
  ghost predicate Stuck(s: State) {
    !s.tcp.Reading? && forall a :: !FromHost(a) ==> !Enabled(s, a)
  }

  /** Both rings full, each task waiting for the other to make room. */
  predicate Blocked(s: State) {
    s.tcp.Pushing? && |s.inRing| == SLOTS && s.dap.Sending? && |s.outRing| == SLOTS
  }

  lemma Outstanding(s: State)
    requires Counted(s) && Bounded(s)
    ensures s.reqNum == |s.inRing| + One(s.dap.Holding?) + One(s.tcp.Pushing?) + One(s.dap.Answered? || s.dap.Sending?)
                        + |s.outRing| + One(s.tcp.Replying? || s.tcp.Returning?)
    ensures s.reqNum <= 22 && (s.reqNum == 22 <==> Blocked(s))
  {
    assert |Unexecuted(s)| == |Command(s)| + |s.inRing| + |Arriving(s)|;
  }

  /** That is the only deadlock; there are never more than 22 outstanding commands, and
      it happens exactly when there are that many. */
  lemma OnlyDeadlock(s: State)
    requires Counted(s) && Notified(s) && Bounded(s)
    ensures Stuck(s) <==> Blocked(s)
    ensures s.reqNum <= 22 && (Stuck(s) <==> s.reqNum == 22)
  {
    hide Unexecuted, Counted;
    Outstanding(s);
    if Stuck(s) {
      assert !Enabled(s, PushIn) && !Enabled(s, Notify) && !Enabled(s, Take) && !Enabled(s, Reply) && !Enabled(s, Return);
      assert !Enabled(s, Wake) && !Enabled(s, Receive) && !Enabled(s, TimeOut) && !Enabled(s, Execute);
      assert !Enabled(s, ReturnItem) && !Enabled(s, PushOut) && !Enabled(s, Count);
    }
  }

  /** Steps of the tasks themselves use something up, so that between two requests
      only finitely many happen. */
  function Rank(s: State): nat {
    s.notified + 6 * |s.inRing|
    + (match s.tcp
       case Reading => 0
       case Pushing(_) => 10
       case Notifying => 2
       case Awaiting => 3
       case Replying(_) => 2
       case Returning => 1)
    + (match s.dap
       case Sleeping => 0
       case Receiving => 0
       case Holding(_) => 5
       case Answered(_) => 4
       case Sending(_) => 3
       case Counting => 2)
  }

  lemma TasksFinish<S>(exec: Exec<S>, s: State<S>, a: Act)
    requires Enabled(s, a) && !FromHost(a) && Notified(s)
    ensures Rank(Step(exec, s, a)) < Rank(s)
  {}

  predicate TasksOnly(acts: seq<Act>) {
    forall a | a in acts :: !FromHost(a)
  }

  /** However the tasks are scheduled, with fewer than 22 commands outstanding the TCP
      task is back at its socket after at most `Rank` steps: what cannot go on is
      there already. */
  lemma {:induction false} BackAtTheSocket<S>(exec: Exec<S>, s: State<S>, acts: seq<Act>, t: State<S>)
    requires Run(exec, s, acts, t) && TasksOnly(acts)
    requires Counted(s) && Notified(s) && Responding(s) && Bounded(s) && s.reqNum < 22
    ensures |acts| <= Rank(s)
    ensures t.tcp.Reading? || exists a :: !FromHost(a) && Enabled(t, a)
    decreases |acts|
  {
    if acts == [] {
      OnlyDeadlock(s);
    } else {
      CountsKept(exec, s, acts[0]);
      TasksFinish(exec, s, acts[0]);
      BackAtTheSocket(exec, Step(exec, s, acts[0]), acts[1..], t);
    }
  }

  // ---- 22 commands in a row do block both tasks ----

  ghost predicate Reach<S(!new)>(exec: Exec<S>, s: State<S>, t: State<S>) {
    exists acts: seq<Act> :: Run(exec, s, acts, t)
  }

  lemma {:induction false} RunMore<S>(exec: Exec<S>, s: State<S>, acts: seq<Act>, t: State<S>, a: Act)
    requires Run(exec, s, acts, t) && Enabled(t, a)
    ensures Run(exec, s, acts + [a], Step(exec, t, a))
    decreases |acts|
  {
    if acts == [] {
      assert ([] + [a])[1..] == [];
    } else {
      RunMore(exec, Step(exec, s, acts[0]), acts[1..], t, a);
      assert (acts + [a])[1..] == acts[1..] + [a];
    }
  }

  lemma Then<S(!new)>(exec: Exec<S>, s: State<S>, t: State<S>, a: Act) returns (u: State<S>)
    requires Reach(exec, s, t) && Enabled(t, a)
    ensures u == Step(exec, t, a) && Reach(exec, s, u)
  {
    var acts :| Run(exec, s, acts, t);
    RunMore(exec, s, acts, t, a);
    u := Step(exec, t, a);
  }

  /** One more command reaches the IN ring. */
  lemma OneArrives<S(!new)>(exec: Exec<S>, s: State<S>, t: State<S>, cmd: Packet) returns (u: State<S>)
    requires Reach(exec, s, t) && t.tcp.Reading? && t.InUsed() < SLOTS
    ensures Reach(exec, s, u) && u.tcp.Reading? && u.dap == t.dap && |u.inRing| == |t.inRing| + 1
    ensures u.outRing == t.outRing && u.notified == t.notified + 1
  {
    u := Then(exec, s, t, GetOut(cmd));
    u := Then(exec, s, u, PushIn);
    u := Then(exec, s, u, Notify);
  }

  /** One command is executed, up to the OUT ring. */
  lemma OneExecuted<S(!new)>(exec: Exec<S>, s: State<S>, t: State<S>) returns (u: State<S>)
    requires Reach(exec, s, t) && t.dap.Sleeping? && t.notified > 0 && t.inRing != []
    ensures Reach(exec, s, u) && u.tcp == t.tcp && u.dap.Sending? && u.inRing == t.inRing[1..]
    ensures u.outRing == t.outRing && u.notified == t.notified - 1
  {
    u := Then(exec, s, t, Wake);
    u := Then(exec, s, u, Receive);
    u := Then(exec, s, u, Execute);
    u := Then(exec, s, u, ReturnItem);
  }

  lemma {:induction false} OutFills<S(!new)>(exec: Exec<S>, s: State<S>, cmd: Packet, k: nat) returns (u: State<S>)
    requires k <= SLOTS && s.tcp.Reading? && s.dap.Sleeping? && s.inRing == [] && s.outRing == [] && s.notified == 0
    ensures Reach(exec, s, u) && u.tcp.Reading? && u.dap.Sleeping? && u.inRing == [] && |u.outRing| == k && u.notified == 0
  {
    if k == 0 {
      u := s;
      assert Run(exec, s, [], s);
    } else {
      u := OutFills(exec, s, cmd, k - 1);
      u := OneArrives(exec, s, u, cmd);
      u := OneExecuted(exec, s, u);
      u := Then(exec, s, u, PushOut);
      u := Then(exec, s, u, Count);
    }
  }

  lemma {:induction false} InFills<S(!new)>(exec: Exec<S>, s: State<S>, t: State<S>, cmd: Packet, k: nat) returns (u: State<S>)
    requires k <= SLOTS && Reach(exec, s, t) && t.tcp.Reading? && t.dap.Sending? && t.inRing == []
    ensures Reach(exec, s, u) && u.tcp.Reading? && u.dap == t.dap && |u.inRing| == k && u.outRing == t.outRing
  {
    if k == 0 {
      u := t;
    } else {
      u := InFills(exec, s, t, cmd, k - 1);
      u := OneArrives(exec, s, u, cmd);
    }
  }

  /** A host that sends 22 commands without asking for a response blocks both tasks
      for good: the bound of `OnlyDeadlock` is reached. */
  lemma FloodBlocks<S(!new)>(exec: Exec<S>, probe: S, cmd: Packet) returns (t: State<S>)
    ensures Reach(exec, Initial(probe), t) && Blocked(t) && Stuck(t) && t.reqNum == 22
  {
    var s := Initial(probe);
    t := OutFills(exec, s, cmd, SLOTS);
    t := OneArrives(exec, s, t, cmd);
    t := OneExecuted(exec, s, t);
    t := InFills(exec, s, t, cmd, SLOTS);
    t := Then(exec, s, t, GetOut(cmd));
    var acts :| Run(exec, s, acts, t);
    RepliesAreResults(exec, probe, acts, t);
    OnlyDeadlock(t);
  }
}
