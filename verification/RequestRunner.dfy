/** Who owns a pool buffer: ws_req_handler and api_post_handler take one, the long-run
    task, the send-out task and httpd's work queue pass it on, and one of them puts it
    back. Any number of handlers run beside the tasks; each statement that touches
    something shared is a step of its own. */
module RequestRunner {
  import opened MemoryPool

  const LONG_RUN_LENGTH := 2
  const SEND_OUT_LENGTH := 4
  const API_JSON_OK := 0

  datatype Kind = Ws | Api

  /** Where an activity stands, named after what it does next. */
  datatype Pc =
    // ws_req_handler and ws_on_close
    | RecvLength | FrameType | RecvText | RecvClose | RecvPing | SendPong | OnClose
    // ws_on_text_data
    | Parse | Route | Push | DeleteIn | SendFrame
    // api_post_handler
    | ApiRecv | ApiParse | ApiRoute | ApiBegin | ApiPush | ApiCancel | ApiEnd | ApiEndNull | ApiRespond | ApiSendOut
    // req_long_task
    | RunModule | PushOut
    // the two async_send_out_cb and ws_async_resp
    | CbDelete | CbError | CbQueueWork | CbSendOut | CbComplete | AsyncResp
    | PutBack

  datatype Frame = Continue | Text | Binary | Close | Ping | Pong | Other

  datatype Routed = Async | Refused | NothingOut | SomethingOut

  /** What the statement at hand is answered by the world outside. */
  datatype Answer = Answer(ok: bool, frame: Frame, routed: Routed, status: int)

  datatype Activity = Activity(kind: Kind, buf: Buffer, status: int, pc: Pc)

  /** A queued `req_task_cb_t *`, or a queued work item. */
  datatype Req = Req(kind: Kind, buf: Buffer, status: int)

  /** `trees` are the buffers whose parsed input is allocated, `begun` those whose
      httpd request is kept open. */
  datatype State = State(free: seq<Buffer>, running: seq<Activity>, longRun: seq<Req>, sendOut: seq<Req>,
                         work: seq<Req>, trees: multiset<Buffer>, begun: multiset<Buffer>)

  // ---- the control flow of the handlers ----

  function NextPc(a: Activity, e: Answer): Pc {
    match a.pc
    case RecvLength => if e.ok then FrameType else OnClose
    case FrameType =>
      (match e.frame
       case Text => RecvText
       case Close => RecvClose
       case Ping => RecvPing
       case _ => PutBack)
    case RecvText => if e.ok then Parse else OnClose
    case RecvClose => OnClose
    case RecvPing => if e.ok then SendPong else OnClose
    case SendPong => if e.ok then PutBack else OnClose
    case OnClose => PutBack
    case Parse => if e.ok then Route else SendFrame
    case Route => if e.routed.Async? then Push else DeleteIn
    case Push => DeleteIn
    case DeleteIn => SendFrame
    case SendFrame => PutBack
    case ApiRecv => if e.ok then ApiParse else PutBack
    case ApiParse => if e.ok then ApiRoute else ApiEndNull
    case ApiRoute => if e.routed.Async? then ApiBegin else if e.routed.SomethingOut? then ApiSendOut else ApiEnd
    case ApiBegin => ApiPush
    case ApiPush => ApiCancel
    case ApiCancel => ApiEnd
    case ApiEnd => ApiRespond
    case ApiEndNull => ApiRespond
    case ApiRespond => PutBack
    case ApiSendOut => PutBack
    case RunModule => PushOut
    case PushOut => if a.kind.Ws? then CbDelete else CbSendOut
    case CbDelete => if a.status != API_JSON_OK then CbError else CbQueueWork
    case CbError => PutBack
    case CbQueueWork => PutBack
    case CbSendOut => CbComplete
    case CbComplete => PutBack
    case AsyncResp => PutBack
    case PutBack => PutBack
  }

  predicate HasTree(pc: Pc) {
    pc.Route? || pc.Push? || pc.DeleteIn?
    || pc.ApiRoute? || pc.ApiBegin? || pc.ApiPush? || pc.ApiCancel? || pc.ApiEnd? || pc.ApiSendOut?
    || pc.RunModule? || pc.PushOut? || pc.CbDelete? || pc.CbSendOut?
  }

  predicate Deletes(pc: Pc) {
    pc.DeleteIn? || pc.ApiEnd? || pc.ApiSendOut? || pc.CbDelete? || pc.CbSendOut?
  }

  predicate Allocates(a: Activity, e: Answer) {
    (a.pc.Parse? || a.pc.ApiParse?) && e.ok
  }

  predicate Completes(pc: Pc) {
    pc.ApiCancel? || pc.CbComplete?
  }

  predicate HasBegun(a: Activity) {
    a.kind.Api? && (a.pc.ApiPush? || a.pc.ApiCancel? || a.pc.RunModule? || a.pc.PushOut? || a.pc.CbSendOut? || a.pc.CbComplete?)
  }

  // ---- steps ----

  /** A request arrives; a task takes the head of its queue; an activity goes on. */
  datatype Act = Arrive(kind: Kind) | TakeLong | TakeOut | TakeWork | Move(who: nat, answer: Answer)

  predicate Enabled(s: State, a: Act) {
    match a
    case Arrive(_) => s.free != []
    case TakeLong => s.longRun != []
    case TakeOut => s.sendOut != []
    case TakeWork => s.work != []
    case Move(who, _) => who < |s.running|
  }

  function Without(running: seq<Activity>, i: nat): seq<Activity>
    requires i < |running|
  {
    running[..i] + running[i + 1..]
  }

  /** The statement is done and something else owns the buffer now. */
  function Leaves(s: State, a: Activity, e: Answer): bool {
    match a.pc
    case Push => |s.longRun| < LONG_RUN_LENGTH
    case ApiPush => |s.longRun| < LONG_RUN_LENGTH
    case PushOut => |s.sendOut| < SEND_OUT_LENGTH
    case CbQueueWork => e.ok
    case PutBack => true
    case _ => false
  }

  function HandedOver(s: State, a: Activity): State {
    var req := Req(a.kind, a.buf, a.status);
    match a.pc
    case Push => s.(longRun := s.longRun + [req])
    case ApiPush => s.(longRun := s.longRun + [req])
    case PushOut => s.(sendOut := s.sendOut + [req])
    case CbQueueWork => s.(work := s.work + [req])
    case _ => s.(free := s.free + [a.buf])
  }

  /** The module's result, or -1 when the send-out queue stays full. */
  function NextStatus(a: Activity, e: Answer): int {
    if a.pc.RunModule? then e.status else if a.pc.PushOut? then -1 else a.status
  }

  function Next(a: Activity, e: Answer): Activity {
    a.(pc := NextPc(a, e), status := NextStatus(a, e))
  }

  function GoneOn(s: State, i: nat, a: Activity, e: Answer): State
    requires i < |s.running|
  {
    var one := multiset{a.buf};
    s.(running := s.running[i := Next(a, e)],
       trees := if Allocates(a, e) then s.trees + one else if Deletes(a.pc) then s.trees - one else s.trees,
       begun := if a.pc.ApiBegin? then s.begun + one else if Completes(a.pc) then s.begun - one else s.begun)
  }

  function Step(s: State, act: Act): State
    requires Enabled(s, act)
  {
    match act
    case Arrive(kind) =>
      s.(free := s.free[1..],
         running := s.running + [Activity(kind, s.free[0], 0, if kind.Ws? then RecvLength else ApiRecv)])
    case TakeLong =>
      var r := s.longRun[0];
      s.(longRun := s.longRun[1..], running := s.running + [Activity(r.kind, r.buf, r.status, RunModule)])
    case TakeOut =>
      var r := s.sendOut[0];
      s.(sendOut := s.sendOut[1..],
         running := s.running + [Activity(r.kind, r.buf, r.status, if r.kind.Ws? then CbDelete else CbSendOut)])
    case TakeWork =>
      var r := s.work[0];
      s.(work := s.work[1..], running := s.running + [Activity(r.kind, r.buf, r.status, AsyncResp)])
    case Move(i, e) =>
      var a := s.running[i];
      if Leaves(s, a, e) then HandedOver(s.(running := Without(s.running, i)), a) else GoneOn(s, i, a, e)
  }

  // ---- counting ----

  /** The sum of `p` over a sequence. */
  function Total<T>(s: seq<T>, f: T -> nat): nat {
    if s == [] then 0 else Total(s[..|s| - 1], f) + f(s[|s| - 1])
  }

  function One(b: bool): nat {
    if b then 1 else 0
  }

  lemma TotalMore<T>(s: seq<T>, x: T, f: T -> nat)
    ensures Total(s + [x], f) == Total(s, f) + f(x)
  {
    assert (s + [x])[..|s|] == s;
  }

  lemma {:induction false} TotalConcat<T>(a: seq<T>, b: seq<T>, f: T -> nat)
    ensures Total(a + b, f) == Total(a, f) + Total(b, f)
  {
    if b == [] {
      assert a + b == a;
    } else {
      var n := |b| - 1;
      TotalConcat(a, b[..n], f);
      TotalMore(a + b[..n], b[n], f);
      assert (a + b[..n]) + [b[n]] == a + b;
    }
  }

  lemma SplitAt<T>(s: seq<T>, i: nat)
    requires i < |s|
    ensures s[..i] + s[i..] == s && [s[i]] + s[i + 1..] == s[i..]
  {}

  lemma TotalOne<T>(x: T, f: T -> nat)
    ensures Total([x], f) == f(x)
  {
    assert [x][..0] == [];
  }

  lemma TotalAround<T>(s: seq<T>, i: nat, f: T -> nat)
    requires i < |s|
    ensures Total(s, f) == Total(s[..i], f) + f(s[i]) + Total(s[i + 1..], f)
  {
    hide Total;
    TotalOne(s[i], f);
    TotalConcat(s[..i], s[i..], f);
    TotalConcat([s[i]], s[i + 1..], f);
    SplitAt(s, i);
  }

  lemma TotalUpdate<T>(s: seq<T>, i: nat, x: T, f: T -> nat)
    requires i < |s|
    ensures Total(s[i := x], f) + f(s[i]) == Total(s, f) + f(x)
  {
    TotalAround(s, i, f);
    TotalAround(s[i := x], i, f);
    assert s[i := x][..i] == s[..i] && s[i := x][i + 1..] == s[i + 1..];
  }

  lemma TotalWithout<T>(s: seq<T>, i: nat, f: T -> nat)
    requires i < |s|
    ensures Total(s[..i] + s[i + 1..], f) + f(s[i]) == Total(s, f)
  {
    TotalAround(s, i, f);
    TotalConcat(s[..i], s[i + 1..], f);
  }

  lemma TotalFirst<T>(s: seq<T>, f: T -> nat)
    requires s != []
    ensures Total(s, f) == f(s[0]) + Total(s[1..], f)
  {
    TotalAround(s, 0, f);
  }

  // ---- ownership ----

  function Is(b: Buffer): Buffer -> nat {
    (x: Buffer) => One(x == b)
  }

  function At(b: Buffer): Activity -> nat {
    (a: Activity) => One(a.buf == b)
  }

  function TreeAt(b: Buffer): Activity -> nat {
    (a: Activity) => One(a.buf == b && HasTree(a.pc))
  }

  function BegunAt(b: Buffer): Activity -> nat {
    (a: Activity) => One(a.buf == b && HasBegun(a))
  }

  function ReqOf(b: Buffer): Req -> nat {
    (r: Req) => One(r.buf == b)
  }

  function ApiReq(b: Buffer): Req -> nat {
    (r: Req) => One(r.buf == b && r.kind.Api?)
  }

  /** In how many places buffer `b` is. */
  function Owners(s: State, b: Buffer): nat {
    Total(s.free, Is(b)) + Total(s.running, At(b))
    + Total(s.longRun, ReqOf(b)) + Total(s.sendOut, ReqOf(b))
    + Total(s.work, ReqOf(b))
  }

  /** How many of these still have their parsed input. */
  function TreeOwners(s: State, b: Buffer): nat {
    Total(s.running, TreeAt(b))
    + Total(s.longRun, ReqOf(b)) + Total(s.sendOut, ReqOf(b))
  }

  /** How many of these keep an httpd request open. */
  function BegunOwners(s: State, b: Buffer): nat {
    Total(s.running, BegunAt(b))
    + Total(s.longRun, ApiReq(b)) + Total(s.sendOut, ApiReq(b))
  }

  predicate WsOnly(pc: Pc) {
    pc.Parse? || pc.Route? || pc.Push? || pc.DeleteIn? || pc.CbDelete? || pc.CbQueueWork?
  }

  predicate ApiOnly(pc: Pc) {
    pc.ApiParse? || pc.ApiRoute? || pc.ApiBegin? || pc.ApiPush? || pc.ApiCancel? || pc.ApiEnd? || pc.ApiRecv?
    || pc.ApiSendOut? || pc.CbSendOut? || pc.CbComplete?
  }

  predicate KindFits(a: Activity) {
    (WsOnly(a.pc) ==> a.kind.Ws?) && (ApiOnly(a.pc) ==> a.kind.Api?)
    && (a.pc.RecvLength? || a.pc.FrameType? || a.pc.RecvText? ==> a.kind.Ws?)
  }

  /** Every buffer is in exactly one place; a parsed input and an open request belong
      to exactly the places that will end them. */
  ghost predicate Inv(s: State) {
    && (forall b: Buffer :: Conserved(s, b))
    && (forall a | a in s.running :: KindFits(a))
  }

  ghost predicate Conserved(s: State, b: Buffer) {
    Owners(s, b) == One(b < BUFFER_NR) && s.trees[b] == TreeOwners(s, b) && s.begun[b] == BegunOwners(s, b)
  }

  /** A new activity counts wherever it belongs. */
  lemma Started(running: seq<Activity>, a: Activity, b: Buffer)
    ensures Total(running + [a], At(b)) == Total(running, At(b)) + One(a.buf == b)
    ensures Total(running + [a], TreeAt(b)) == Total(running, TreeAt(b)) + One(a.buf == b && HasTree(a.pc))
    ensures Total(running + [a], BegunAt(b)) == Total(running, BegunAt(b)) + One(a.buf == b && HasBegun(a))
  {
    TotalMore(running, a, At(b));
    TotalMore(running, a, TreeAt(b));
    TotalMore(running, a, BegunAt(b));
  }

  lemma Ended(running: seq<Activity>, i: nat, b: Buffer)
    requires i < |running|
    ensures var a, rest := running[i], Without(running, i);
            Total(rest, At(b)) + One(a.buf == b) == Total(running, At(b))
            && Total(rest, TreeAt(b)) + One(a.buf == b && HasTree(a.pc)) == Total(running, TreeAt(b))
            && Total(rest, BegunAt(b)) + One(a.buf == b && HasBegun(a)) == Total(running, BegunAt(b))
  {
    TotalWithout(running, i, At(b));
    TotalWithout(running, i, TreeAt(b));
    TotalWithout(running, i, BegunAt(b));
  }

  lemma Changed(running: seq<Activity>, i: nat, a: Activity, b: Buffer)
    requires i < |running|
    ensures var was, now := running[i], running[i := a];
            Total(now, At(b)) + One(was.buf == b) == Total(running, At(b)) + One(a.buf == b)
            && Total(now, TreeAt(b)) + One(was.buf == b && HasTree(was.pc)) == Total(running, TreeAt(b)) + One(a.buf == b && HasTree(a.pc))
            && Total(now, BegunAt(b)) + One(was.buf == b && HasBegun(was)) == Total(running, BegunAt(b)) + One(a.buf == b && HasBegun(a))
  {
    TotalUpdate(running, i, a, At(b));
    TotalUpdate(running, i, a, TreeAt(b));
    TotalUpdate(running, i, a, BegunAt(b));
  }

  lemma Taken(q: seq<Req>, b: Buffer)
    requires q != []
    ensures Total(q, ReqOf(b)) == One(q[0].buf == b) + Total(q[1..], ReqOf(b))
    ensures Total(q, ApiReq(b)) == One(q[0].buf == b && q[0].kind.Api?) + Total(q[1..], ApiReq(b))
  {
    TotalFirst(q, ReqOf(b));
    TotalFirst(q, ApiReq(b));
  }

  lemma Queued(q: seq<Req>, r: Req, b: Buffer)
    ensures Total(q + [r], ReqOf(b)) == Total(q, ReqOf(b)) + One(r.buf == b)
    ensures Total(q + [r], ApiReq(b)) == Total(q, ApiReq(b)) + One(r.buf == b && r.kind.Api?)
  {
    TotalMore(q, r, ReqOf(b));
    TotalMore(q, r, ApiReq(b));
  }

  lemma TakeKeeps(s: State, act: Act, b: Buffer)
    requires Enabled(s, act) && !act.Move? && Conserved(s, b)
    ensures Conserved(Step(s, act), b)
  {
    hide Total, At, TreeAt, BegunAt, ReqOf, ApiReq;
    var t := Step(s, act);
    Started(s.running, t.running[|s.running|], b);
    match act
    case Arrive(_) => TotalFirst(s.free, Is(b));
    case TakeLong => Taken(s.longRun, b);
    case TakeOut => Taken(s.sendOut, b);
    case TakeWork => Taken(s.work, b);
  }

  lemma HandOverOwners(s: State, a: Activity, e: Answer, b: Buffer)
    requires Leaves(s, a, e)
    ensures Owners(HandedOver(s, a), b) == Owners(s, b) + One(a.buf == b)
  {
    hide Total, At, ReqOf, KindFits;
    var r := Req(a.kind, a.buf, a.status);
    Queued(s.longRun, r, b);
    Queued(s.sendOut, r, b);
    Queued(s.work, r, b);
    TotalMore(s.free, a.buf, Is(b));
  }

  lemma HandOverTokens(s: State, a: Activity, e: Answer, b: Buffer)
    requires Leaves(s, a, e) && KindFits(a)
    ensures TreeOwners(HandedOver(s, a), b) == TreeOwners(s, b) + One(a.buf == b && HasTree(a.pc))
    ensures BegunOwners(HandedOver(s, a), b) == BegunOwners(s, b) + One(a.buf == b && HasBegun(a))
  {
    hide Total, TreeAt, BegunAt, ReqOf, ApiReq;
    var r := Req(a.kind, a.buf, a.status);
    Queued(s.longRun, r, b);
    Queued(s.sendOut, r, b);
  }

  lemma WithoutCounts(s: State, i: nat, b: Buffer)
    requires i < |s.running|
    ensures var t, a := s.(running := Without(s.running, i)), s.running[i];
            Owners(t, b) + One(a.buf == b) == Owners(s, b)
            && TreeOwners(t, b) + One(a.buf == b && HasTree(a.pc)) == TreeOwners(s, b)
            && BegunOwners(t, b) + One(a.buf == b && HasBegun(a)) == BegunOwners(s, b)
  {
    hide Total, At, TreeAt, BegunAt, ReqOf, ApiReq, Without, HasTree, HasBegun;
    Ended(s.running, i, b);
  }

  lemma SameTokens(s: State, a: Activity)
    ensures HandedOver(s, a).trees == s.trees && HandedOver(s, a).begun == s.begun
  {}

  lemma HandOverKeeps(s: State, i: nat, e: Answer, b: Buffer)
    requires i < |s.running| && Conserved(s, b) && KindFits(s.running[i]) && Leaves(s, s.running[i], e)
    ensures Conserved(Step(s, Move(i, e)), b)
  {
    hide Owners, TreeOwners, BegunOwners, Without, HandedOver, HasTree, HasBegun, KindFits;
    var a, s1 := s.running[i], s.(running := Without(s.running, i));
    WithoutCounts(s, i, b);
    StillLeaves(s, i, e);
    HandOverOwners(s1, a, e, b);
    HandOverTokens(s1, a, e, b);
    SameTokens(s1, a);
  }

  /** Whether it leaves does not depend on the other activities. */
  lemma StillLeaves(s: State, i: nat, e: Answer)
    requires i < |s.running| && Leaves(s, s.running[i], e)
    ensures Leaves(s.(running := Without(s.running, i)), s.running[i], e)
  {}

  /** The control flow: what is allocated is deleted once, what is begun is completed
      once, on every path that ends in a put. */
  lemma FlowKeeps(a: Activity, e: Answer)
    requires KindFits(a) && !a.pc.PutBack?
    ensures KindFits(Next(a, e))
    ensures One(HasTree(Next(a, e).pc)) + One(Deletes(a.pc)) == One(HasTree(a.pc)) + One(Allocates(a, e))
    ensures One(HasBegun(Next(a, e))) + One(Completes(a.pc)) == One(HasBegun(a)) + One(a.pc.ApiBegin?)
    ensures (Deletes(a.pc) ==> HasTree(a.pc)) && (Completes(a.pc) ==> HasBegun(a)) && !(Allocates(a, e) && Deletes(a.pc))
    ensures !(a.pc.ApiBegin? && Completes(a.pc))
  {}

  lemma GoOnKeeps(s: State, i: nat, e: Answer, b: Buffer)
    requires i < |s.running| && Conserved(s, b) && KindFits(s.running[i]) && !Leaves(s, s.running[i], e)
    ensures Conserved(GoneOn(s, i, s.running[i], e), b)
  {
    hide Total, At, TreeAt, BegunAt, ReqOf, ApiReq, NextPc, NextStatus, HasTree, HasBegun, Deletes, Completes,
         Allocates, KindFits, Leaves;
    var a, t := s.running[i], GoneOn(s, i, s.running[i], e);
    PutsBackLast(s, a, e);
    FlowKeeps(a, e);
    Changed(s.running, i, Next(a, e), b);
    assert Owners(t, b) == Owners(s, b);
    assert t.trees[b] == TreeOwners(t, b);
    assert t.begun[b] == BegunOwners(t, b);
  }

  lemma PutsBackLast(s: State, a: Activity, e: Answer)
    requires !Leaves(s, a, e)
    ensures !a.pc.PutBack?
  {}

  lemma StepKeeps(s: State, act: Act)
    requires Enabled(s, act) && Inv(s)
    ensures Inv(Step(s, act))
  {
    hide Conserved;
    var t := Step(s, act);
    forall b: Buffer ensures Conserved(t, b) {
      assert Conserved(s, b);
      if act.Move? {
        assert s.running[act.who] in s.running;
        if Leaves(s, s.running[act.who], act.answer) {
          HandOverKeeps(s, act.who, act.answer, b);
        } else {
          GoOnKeeps(s, act.who, act.answer, b);
        }
      } else {
        TakeKeeps(s, act, b);
      }
    }
    KindsKept(s, act);
  }

  lemma KindsKept(s: State, act: Act)
    requires Enabled(s, act) && forall a | a in s.running :: KindFits(a)
    ensures forall a | a in Step(s, act).running :: KindFits(a)
  {
    var t := Step(s, act);
    if act.Move? {
      var was := s.running[act.who];
      if Leaves(s, was, act.answer) {
        hide KindFits, Leaves;
        forall a | a in t.running ensures KindFits(a) {
          assert a in s.running;
        }
      } else {
        FlowKeeps(was, act.answer);
        hide KindFits, Leaves, NextPc;
        forall a | a in t.running ensures KindFits(a) {
          assert a == Next(was, act.answer) || a in s.running;
        }
      }
    }
  }

  // ---- whole runs ----

  function Initial(): State {
    State(AllBuffers(BUFFER_NR), [], [], [], [], multiset{}, multiset{})
  }

  predicate Run(s: State, acts: seq<Act>, t: State)
    decreases |acts|
  {
    if acts == [] then s == t else Enabled(s, acts[0]) && Run(Step(s, acts[0]), acts[1..], t)
  }

  lemma {:induction false} AllBuffersOnce(n: nat, b: Buffer)
    ensures Total(AllBuffers(n), Is(b)) == One(b < n)
  {
    if n > 0 {
      AllBuffersOnce(n - 1, b);
      assert AllBuffers(n)[..n - 1] == AllBuffers(n - 1);
      assert Is(b)(AllBuffers(n)[n - 1]) == One(n - 1 == b);
    }
  }

  lemma InitialInv()
    ensures Inv(Initial())
  {
    forall b: Buffer ensures Conserved(Initial(), b) {
      AllBuffersOnce(BUFFER_NR, b);
    }
  }

  lemma {:induction false} RunKeeps(s: State, acts: seq<Act>, t: State)
    requires Run(s, acts, t) && Inv(s)
    ensures Inv(t)
    decreases |acts|
  {
    if acts == [] {
    } else {
      StepKeeps(s, acts[0]);
      RunKeeps(Step(s, acts[0]), acts[1..], t);
    }
  }

  // ---- the pool never overflows ----

  lemma IsItself(b: Buffer)
    ensures Is(b)(b) == 1
  {
    assert Is(b)(b) == One(b == b);
  }

  lemma OccursOnce(free: seq<Buffer>, i: nat)
    requires i < |free|
    ensures Total(free, Is(free[i])) >= 1
  {
    TotalAround(free, i, Is(free[i]));
    IsItself(free[i]);
  }

  lemma Below(n: nat) returns (all: set<Buffer>)
    ensures |all| == n && forall b: Buffer :: b in all <==> b < n
  {
    all := {};
    for i := 0 to n
      invariant |all| == i && forall b: Buffer :: b in all <==> b < i
    {
      all := all + {i};
    }
  }

  /** A sequence that has every element of a set once has as many elements. */
  lemma {:induction false} DistinctCount(bufs: seq<Buffer>, all: set<Buffer>)
    requires forall b: Buffer :: Total(bufs, Is(b)) == One(b in all)
    ensures |bufs| == |all|
  {
    if bufs == [] {
      forall b: Buffer ensures b !in all {
        assert Total(bufs, Is(b)) == One(b in all);
      }
    } else {
      var n := |bufs| - 1;
      var last := bufs[n];
      assert last in all by {
        OccursOnce(bufs, n);
      }
      forall b: Buffer ensures Total(bufs[..n], Is(b)) == One(b in all - {last}) {
        assert Total(bufs, Is(b)) == Total(bufs[..n], Is(b)) + One(last == b);
      }
      DistinctCount(bufs[..n], all - {last});
    }
  }

  function Bufs<T>(s: seq<T>, f: T -> Buffer): (r: seq<Buffer>)
    ensures |r| == |s| && forall i :: 0 <= i < |s| ==> r[i] == f(s[i])
  {
    seq(|s|, i requires 0 <= i < |s| => f(s[i]))
  }

  lemma {:induction false} BufsTotal<T>(s: seq<T>, f: T -> Buffer, g: T -> nat, b: Buffer)
    requires forall i :: 0 <= i < |s| ==> g(s[i]) == One(f(s[i]) == b)
    ensures Total(Bufs(s, f), Is(b)) == Total(s, g)
  {
    if s != [] {
      var n := |s| - 1;
      assert Bufs(s, f)[..n] == Bufs(s[..n], f);
      BufsTotal(s[..n], f, g, b);
    }
  }

  /** All buffers, place by place. */
  function Everywhere(s: State): (r: seq<Buffer>)
    ensures |r| == |s.free| + Held(s)
  {
    var ofReq := (r: Req) => r.buf;
    s.free + Bufs(s.running, (a: Activity) => a.buf) + Bufs(s.longRun, ofReq) + Bufs(s.sendOut, ofReq) + Bufs(s.work, ofReq)
  }

  /** The buffers handlers, tasks and queues have. */
  function Held(s: State): nat {
    |s.running| + |s.longRun| + |s.sendOut| + |s.work|
  }

  lemma EverywhereCounts(s: State, b: Buffer)
    ensures Total(Everywhere(s), Is(b)) == Owners(s, b)
  {
    hide Total;
    var ofReq, ofActivity := (r: Req) => r.buf, (a: Activity) => a.buf;
    var running, longRun, sendOut, work := Bufs(s.running, ofActivity), Bufs(s.longRun, ofReq), Bufs(s.sendOut, ofReq), Bufs(s.work, ofReq);
    BufsTotal(s.running, ofActivity, At(b), b);
    BufsTotal(s.longRun, ofReq, ReqOf(b), b);
    BufsTotal(s.sendOut, ofReq, ReqOf(b), b);
    BufsTotal(s.work, ofReq, ReqOf(b), b);
    TotalConcat(s.free + running + longRun + sendOut, work, Is(b));
    TotalConcat(s.free + running + longRun, sendOut, Is(b));
    TotalConcat(s.free + running, longRun, Is(b));
    TotalConcat(s.free, running, Is(b));
  }

  /** None is lost and none comes in: the pool is empty exactly when all seven are held. */
  lemma PoolAndHeld(s: State)
    requires Inv(s)
    ensures |s.free| + Held(s) == BUFFER_NR
  {
    hide Owners, Total;
    var all := Below(BUFFER_NR);
    forall b: Buffer ensures Total(Everywhere(s), Is(b)) == One(b in all) {
      EverywhereCounts(s, b);
      assert Conserved(s, b);
    }
    DistinctCount(Everywhere(s), all);
  }

  /** While an activity has a buffer the pool has room for it: the assertion of
      memory_pool_put holds. */
  lemma PutHasRoom(s: State, i: nat)
    requires Inv(s) && i < |s.running|
    ensures |s.free| < BUFFER_NR
  {
    hide Inv;
    PoolAndHeld(s);
  }

  /** In every interleaving each of the seven buffers is in exactly one place, and
      whoever holds one can put it back. */
  lemma EveryRun(acts: seq<Act>, t: State)
    requires Run(Initial(), acts, t)
    ensures forall b: Buffer :: Owners(t, b) == One(b < BUFFER_NR)
    ensures |t.free| + Held(t) == BUFFER_NR
  {
    InitialInv();
    RunKeeps(Initial(), acts, t);
    forall b: Buffer ensures Owners(t, b) == One(b < BUFFER_NR) {
      assert Conserved(t, b);
    }
    PoolAndHeld(t);
  }

  // ---- the same over the pool itself ----

  lemma PutBackStep(s: State, i: nat, e: Answer)
    requires i < |s.running| && s.running[i].pc.PutBack?
    ensures Enabled(s, Move(i, e))
    ensures Step(s, Move(i, e)) == s.(running := Without(s.running, i), free := s.free + [s.running[i].buf])
  {
    hide Without;
  }

  lemma PoolUntouched(s: State, act: Act)
    requires Enabled(s, act) && !act.Arrive? && !(act.Move? && s.running[act.who].pc.PutBack?)
    ensures Step(s, act).free == s.free
  {
    hide Without, NextPc;
  }

  lemma {:induction false} RunSnoc(s: State, acts: seq<Act>, t: State, act: Act)
    requires Run(s, acts, t) && Enabled(t, act)
    ensures Run(s, acts + [act], Step(t, act))
    decreases |acts|
  {
    hide Step;
    if acts == [] {
      assert [act][1..] == [];
    } else {
      RunSnoc(Step(s, acts[0]), acts[1..], t, act);
      assert (acts + [act])[1..] == acts[1..] + [act];
    }
  }

  /** Handlers and tasks, with the buffers that no one has in the queue of
      memory_pool.c. */
  class Server {
    const pool: Pool
    var running: seq<Activity>
    var longRun: seq<Req>
    var sendOut: seq<Req>
    var work: seq<Req>
    var trees: multiset<Buffer>
    var begun: multiset<Buffer>

    constructor ()
      ensures fresh(pool) && Now() == Initial()
    {
      pool := new Pool();
      running, longRun, sendOut, work, trees, begun := [], [], [], [], multiset{}, multiset{};
      new;
      pool.Init();
    }

    function Now(): State
      reads this, pool
    {
      State(pool.free, running, longRun, sendOut, work, trees, begun)
    }

    /** memory_pool_get at the beginning of a handler: when all seven buffers are held
        for the whole waiting time, its assertion fails. */
    method Begin(kind: Kind) returns (ok: bool)
      requires Inv(Now())
      modifies `running, pool`free
      ensures ok == (Held(old(Now())) < BUFFER_NR)
      ensures ok ==> Enabled(old(Now()), Arrive(kind)) && Now() == Step(old(Now()), Arrive(kind))
      ensures !ok ==> Now() == old(Now())
      ensures Inv(Now())
    {
      hide Inv, HandedOver, GoneOn, Leaves;
      PoolAndHeld(Now());
      ghost var before := Now();
      var b: Buffer;
      ok, b := pool.Get();
      if ok {
        StepKeeps(before, Arrive(kind));
        running := running + [Activity(kind, b, 0, if kind.Ws? then RecvLength else ApiRecv)];
      }
    }

    /** memory_pool_put: whoever does it finds room. */
    method Finish(i: nat, ghost e: Answer)
      requires Inv(Now()) && i < |running| && running[i].pc.PutBack?
      modifies `running, pool`free
      ensures Now() == Step(old(Now()), Move(i, e)) && Inv(Now())
    {
      hide Inv, Step, Without;
      PutHasRoom(Now(), i);
      PutBackStep(Now(), i, e);
      StepKeeps(Now(), Move(i, e));
      pool.Put(running[i].buf);
      running := Without(running, i);
    }

    /** Any other step leaves the pool alone. */
    method Proceed(act: Act)
      requires Inv(Now()) && Enabled(Now(), act)
      requires !act.Arrive? && !(act.Move? && running[act.who].pc.PutBack?)
      modifies this
      ensures Now() == Step(old(Now()), act) && Inv(Now())
    {
      hide Inv, Step;
      StepKeeps(Now(), act);
      PoolUntouched(Now(), act);
      var t := Step(Now(), act);
      running, longRun, sendOut, work, trees, begun := t.running, t.longRun, t.sendOut, t.work, t.trees, t.begun;
    }

    /** Requests and tasks in any order, as long as each can take its turn. The
        assertion of memory_pool_put never fails; that of memory_pool_get stops it
        at the first request for which all seven buffers are held. */
    method Serve(acts: seq<Act>) returns (n: nat)
      requires Inv(Now())
      modifies this, pool
      ensures n <= |acts| && Run(old(Now()), acts[..n], Now()) && Inv(Now())
      ensures n < |acts| ==> if acts[n].Arrive? then Held(Now()) == BUFFER_NR else !Enabled(Now(), acts[n])
    {
      hide Inv, Step;
      n := 0;
      while n < |acts|
        invariant n <= |acts| && Inv(Now()) && Run(old(Now()), acts[..n], Now())
      {
        var act := acts[n];
        ghost var before := Now();
        PoolAndHeld(before);
        if act.Arrive? {
          var ok := Begin(act.kind);
          if !ok {
            return;
          }
        } else if !Enabled(Now(), act) {
          return;
        } else if act.Move? && running[act.who].pc.PutBack? {
          Finish(act.who, act.answer);
        } else {
          Proceed(act);
        }
        RunSnoc(old(Now()), acts[..n], before, act);
        assert acts[..n + 1] == acts[..n] + [act];
        n := n + 1;
      }
      assert acts[..n] == acts;
    }
  }

  // ---- the pool can run empty ----

  /** The task that runs an activity; a callback also runs in the long-run task when
      the send-out queue stays full. */
  datatype Task = Httpd | LongRun | SendOut

  function TaskOf(a: Activity): Task {
    match a.pc
    case RunModule => LongRun
    case PushOut => LongRun
    case CbDelete => SendOut
    case CbError => SendOut
    case CbQueueWork => SendOut
    case CbSendOut => SendOut
    case CbComplete => SendOut
    case _ => Httpd
  }

  /** As in the firmware each task does one thing at a time. */
  ghost predicate Alone(s: State) {
    forall i, j :: 0 <= i < j < |s.running| ==> TaskOf(s.running[i]) != TaskOf(s.running[j])
  }

  ghost predicate AloneRun(s: State, acts: seq<Act>, t: State)
    decreases |acts|
  {
    Alone(s) && if acts == [] then s == t else Enabled(s, acts[0]) && AloneRun(Step(s, acts[0]), acts[1..], t)
  }

  lemma {:induction false} AloneSnoc(s: State, acts: seq<Act>, t: State, act: Act)
    requires AloneRun(s, acts, t) && Enabled(t, act) && Alone(Step(t, act))
    ensures AloneRun(s, acts + [act], Step(t, act))
    decreases |acts|
  {
    hide Step, Alone;
    if acts == [] {
      assert [act][1..] == [];
    } else {
      AloneSnoc(Step(s, acts[0]), acts[1..], t, act);
      assert (acts + [act])[1..] == acts[1..] + [act];
    }
  }

  /** Nothing but possibly one callback under way, and only websocket requests queued. */
  ghost predicate Filling(s: State, longRun: nat, sendOut: nat, out: nat) {
    && |s.free| + longRun + sendOut + out == BUFFER_NR
    && |s.longRun| == longRun && |s.sendOut| == sendOut && |s.running| == out <= 1 && s.work == []
    && (forall r | r in s.longRun + s.sendOut :: r.kind.Ws?)
    && (forall a | a in s.running :: TaskOf(a).SendOut?)
  }

  /** The same with a websocket request under way, which stands at `pc`. */
  ghost predicate Handling(s: State, longRun: nat, sendOut: nat, out: nat, pc: Pc) {
    && |s.running| == out + 1 && s.running[out].kind.Ws? && s.running[out].pc == pc && !TaskOf(s.running[out]).SendOut?
    && Filling(s.(running := s.running[..out], free := s.free + [s.running[out].buf]), longRun, sendOut, out)
  }

  const YES := Answer(true, Text, Async, 0)

  lemma Then(s0: State, acts: seq<Act>, s: State, act: Act) returns (acts': seq<Act>, t: State)
    requires AloneRun(s0, acts, s) && Enabled(s, act) && Alone(Step(s, act))
    ensures AloneRun(s0, acts', t) && t == Step(s, act)
  {
    acts', t := acts + [act], Step(s, act);
    AloneSnoc(s0, acts, s, act);
  }

  lemma HandlingAlone(s: State, longRun: nat, sendOut: nat, out: nat, pc: Pc)
    requires Handling(s, longRun, sendOut, out, pc)
    ensures Alone(s)
  {
    assert forall i :: 0 <= i < out ==> s.running[i] == s.running[..out][i];
  }

  lemma BeginsAt(s: State, longRun: nat, sendOut: nat, out: nat)
    requires Filling(s, longRun, sendOut, out) && s.free != []
    ensures Handling(Step(s, Arrive(Ws)), longRun, sendOut, out, RecvLength)
  {
    var t := Step(s, Arrive(Ws));
    assert t.running[..out] == s.running;
  }

  lemma ModuleAt(s: State, longRun: nat, sendOut: nat, out: nat)
    requires Filling(s, longRun, sendOut, out) && longRun > 0
    ensures s.longRun != [] && Handling(Step(s, TakeLong), longRun - 1, sendOut, out, RunModule)
  {
    var t := Step(s, TakeLong);
    assert t.running[..out] == s.running;
    assert forall r :: r in t.longRun ==> r in s.longRun;
    assert s.longRun[0] in s.longRun + s.sendOut;
  }

  /** The pcs on the way, and where they lead. */
  function Onward(pc: Pc): Pc {
    match pc
    case RecvLength => FrameType
    case FrameType => RecvText
    case RecvText => Parse
    case Parse => Route
    case Route => Push
    case _ => PushOut
  }

  lemma GoesOn(s: State, longRun: nat, sendOut: nat, out: nat, pc: Pc)
    requires Handling(s, longRun, sendOut, out, pc)
    requires pc.RecvLength? || pc.FrameType? || pc.RecvText? || pc.Parse? || pc.Route? || pc.RunModule?
    ensures Handling(Step(s, Move(out, YES)), longRun, sendOut, out, Onward(pc))
  {
    var t := Step(s, Move(out, YES));
    assert t.running[..out] == s.running[..out];
  }

  lemma HandsOver(s: State, longRun: nat, sendOut: nat, out: nat, pc: Pc)
    requires Handling(s, longRun, sendOut, out, pc) && (pc.Push? || pc.PushOut?)
    requires if pc.Push? then longRun < LONG_RUN_LENGTH else sendOut < SEND_OUT_LENGTH
    ensures Filling(Step(s, Move(out, YES)), longRun + One(pc.Push?), sendOut + One(pc.PushOut?), out)
  {
    var t := Step(s, Move(out, YES));
    assert t.running == s.running[..out];
  }

  /** From a request that stands at `pc` to the one that leaves at `last`. */
  lemma {:induction false} WalksTo(s0: State, acts: seq<Act>, s: State, longRun: nat, sendOut: nat, out: nat, pc: Pc)
    returns (acts': seq<Act>, t: State)
    requires AloneRun(s0, acts, s) && Handling(s, longRun, sendOut, out, pc)
    requires pc.RecvLength? || pc.FrameType? || pc.RecvText? || pc.Parse? || pc.Route? || pc.RunModule?
    ensures AloneRun(s0, acts', t) && Handling(t, longRun, sendOut, out, if pc.RunModule? then PushOut else Push)
    decreases Weight(Activity(Ws, 0, 0, pc))
  {
    hide AloneRun, Handling, Alone, Step;
    Stands(s, longRun, sendOut, out, pc);
    GoesOn(s, longRun, sendOut, out, pc);
    HandlingAlone(Step(s, Move(out, YES)), longRun, sendOut, out, Onward(pc));
    acts', t := Then(s0, acts, s, Move(out, YES));
    if !pc.Route? && !pc.RunModule? {
      acts', t := WalksTo(s0, acts', t, longRun, sendOut, out, Onward(pc));
    }
  }

  lemma FillingAlone(s: State, longRun: nat, sendOut: nat, out: nat)
    requires Filling(s, longRun, sendOut, out)
    ensures Alone(s)
  {}

  lemma IntoQueue(s0: State, acts: seq<Act>, s: State, longRun: nat, sendOut: nat, out: nat, pc: Pc)
    returns (acts': seq<Act>, t: State)
    requires AloneRun(s0, acts, s) && Handling(s, longRun, sendOut, out, pc) && (pc.Push? || pc.PushOut?)
    requires if pc.Push? then longRun < LONG_RUN_LENGTH else sendOut < SEND_OUT_LENGTH
    ensures AloneRun(s0, acts', t) && Filling(t, longRun + One(pc.Push?), sendOut + One(pc.PushOut?), out)
  {
    hide AloneRun, Handling, Alone, Step, Filling;
    Stands(s, longRun, sendOut, out, pc);
    HandsOver(s, longRun, sendOut, out, pc);
    FillingAlone(Step(s, Move(out, YES)), longRun + One(pc.Push?), sendOut + One(pc.PushOut?), out);
    acts', t := Then(s0, acts, s, Move(out, YES));
  }

  lemma Stands(s: State, longRun: nat, sendOut: nat, out: nat, pc: Pc)
    requires Handling(s, longRun, sendOut, out, pc)
    ensures Enabled(s, Move(out, YES))
  {}

  /** An asynchronous websocket request goes through its handler into the long-run queue. */
  lemma Received(s0: State, acts: seq<Act>, s: State, longRun: nat, sendOut: nat, out: nat) returns (acts': seq<Act>, t: State)
    requires AloneRun(s0, acts, s) && Filling(s, longRun, sendOut, out) && s.free != [] && longRun < LONG_RUN_LENGTH
    ensures AloneRun(s0, acts', t) && Filling(t, longRun + 1, sendOut, out)
  {
    hide AloneRun, Handling, Alone, Step, Filling;
    BeginsAt(s, longRun, sendOut, out);
    HandlingAlone(Step(s, Arrive(Ws)), longRun, sendOut, out, RecvLength);
    acts', t := Then(s0, acts, s, Arrive(Ws));
    acts', t := WalksTo(s0, acts', t, longRun, sendOut, out, RecvLength);
    acts', t := IntoQueue(s0, acts', t, longRun, sendOut, out, Push);
  }

  /** The long-run task runs the module of a request and queues it for sending. */
  lemma Processed(s0: State, acts: seq<Act>, s: State, longRun: nat, sendOut: nat, out: nat) returns (acts': seq<Act>, t: State)
    requires AloneRun(s0, acts, s) && Filling(s, longRun, sendOut, out) && longRun > 0 && sendOut < SEND_OUT_LENGTH
    ensures AloneRun(s0, acts', t) && Filling(t, longRun - 1, sendOut + 1, out)
  {
    hide AloneRun, Handling, Alone, Step, Filling;
    ModuleAt(s, longRun, sendOut, out);
    HandlingAlone(Step(s, TakeLong), longRun - 1, sendOut, out, RunModule);
    acts', t := Then(s0, acts, s, TakeLong);
    acts', t := WalksTo(s0, acts', t, longRun - 1, sendOut, out, RunModule);
    acts', t := IntoQueue(s0, acts', t, longRun - 1, sendOut, out, PushOut);
  }

  lemma SentOut(s0: State, acts: seq<Act>, s: State, longRun: nat, sendOut: nat) returns (acts': seq<Act>, t: State)
    requires AloneRun(s0, acts, s) && Filling(s, longRun, sendOut, 0) && sendOut > 0
    ensures AloneRun(s0, acts', t) && Filling(t, longRun, sendOut - 1, 1)
  {
    hide AloneRun;
    acts', t := Then(s0, acts, s, TakeOut);
  }

  /** Each task does one thing at a time, and still all seven buffers get held: one by
      a callback that takes its time, four in the send-out queue, two in the long-run
      queue. The next request finds none, and the assertion of memory_pool_get fails. */
  lemma PoolRunsEmpty() returns (acts: seq<Act>, t: State)
    ensures AloneRun(Initial(), acts, t) && t.free == [] && Held(t) == BUFFER_NR
    ensures forall kind: Kind :: !Enabled(t, Arrive(kind))
  {
    hide AloneRun;
    acts, t := [], Initial();
    assert AloneRun(Initial(), acts, t) by { StartsAlone(); }
    acts, t := Received(Initial(), acts, t, 0, 0, 0);
    acts, t := Processed(Initial(), acts, t, 1, 0, 0);
    acts, t := SentOut(Initial(), acts, t, 0, 1);
    for i := 0 to SEND_OUT_LENGTH
      invariant AloneRun(Initial(), acts, t) && Filling(t, 0, i, 1)
    {
      acts, t := Received(Initial(), acts, t, 0, i, 1);
      acts, t := Processed(Initial(), acts, t, 1, i, 1);
    }
    acts, t := Received(Initial(), acts, t, 0, SEND_OUT_LENGTH, 1);
    acts, t := Received(Initial(), acts, t, 1, SEND_OUT_LENGTH, 1);
  }

  lemma StartsAlone()
    ensures AloneRun(Initial(), [], Initial())
  {}

  // ---- every buffer comes back ----

  function Weight(a: Activity): nat {
    match a.pc
    case RecvLength => 15
    case FrameType => 14
    case RecvText => 13
    case Parse => 12
    case Route => 11
    case Push => 10
    case ApiRecv => 14
    case ApiParse => 13
    case ApiRoute => 12
    case ApiBegin => 11
    case ApiPush => 10
    case RunModule => 8
    case PushOut => 7
    case CbDelete => 5
    case CbQueueWork => 4
    case RecvPing => 4
    case ApiCancel => 4
    case RecvClose => 3
    case SendPong => 3
    case DeleteIn => 3
    case ApiEnd => 3
    case ApiEndNull => 3
    case CbSendOut => 3
    case PutBack => 1
    case _ => 2
  }

  function Weigh(): Activity -> nat {
    (a: Activity) => Weight(a)
  }

  function Rank(s: State): nat {
    Total(s.running, Weigh()) + 9 * |s.longRun| + 6 * |s.sendOut| + 3 * |s.work|
  }

  lemma WeightFalls(a: Activity, e: Answer)
    requires !a.pc.PutBack?
    ensures Weight(Next(a, e)) < Weight(a)
  {}

  lemma LeavingFalls(s: State, i: nat, e: Answer)
    requires i < |s.running| && Leaves(s, s.running[i], e)
    ensures Rank(HandedOver(s.(running := Without(s.running, i)), s.running[i])) < Rank(s)
  {
    hide Total;
    TotalWithout(s.running, i, Weigh());
    assert Weigh()(s.running[i]) == Weight(s.running[i]);
  }

  lemma GoingOnFalls(s: State, i: nat, e: Answer)
    requires i < |s.running| && !Leaves(s, s.running[i], e)
    ensures Rank(GoneOn(s, i, s.running[i], e)) < Rank(s)
  {
    hide Total, Weight, NextPc, NextStatus, Leaves;
    var a := s.running[i];
    PutsBackLast(s, a, e);
    WeightFalls(a, e);
    TotalUpdate(s.running, i, Next(a, e), Weigh());
  }

  /** Every step but a new request brings the end nearer. */
  lemma RankFalls(s: State, act: Act)
    requires Enabled(s, act) && !act.Arrive?
    ensures Rank(Step(s, act)) < Rank(s)
  {
    hide Total;
    var t := Step(s, act);
    if act.Move? {
      hide Rank, HandedOver, GoneOn;
      if Leaves(s, s.running[act.who], act.answer) {
        LeavingFalls(s, act.who, act.answer);
      } else {
        GoingOnFalls(s, act.who, act.answer);
      }
    } else {
      TotalMore(s.running, t.running[|s.running|], Weigh());
    }
  }

  predicate NoArrival(acts: seq<Act>) {
    forall a | a in acts :: !a.Arrive?
  }

  /** However handlers and tasks are scheduled, once no more requests arrive only
      `Rank` steps remain; when none is left, every buffer is back in the pool, once,
      and no parsed input and no open request is left over. */
  lemma {:induction false} AllComeBack(s: State, acts: seq<Act>, t: State)
    requires Run(s, acts, t) && Inv(s) && NoArrival(acts)
    ensures |acts| <= Rank(s)
    ensures (forall a :: Enabled(t, a) ==> a.Arrive?) ==>
              (forall b: Buffer :: Total(t.free, Is(b)) == One(b < BUFFER_NR))
              && t.trees == multiset{} && t.begun == multiset{}
    decreases |acts|
  {
    if acts == [] {
      if forall a :: Enabled(t, a) ==> a.Arrive? {
        AllIdle(t);
      }
    } else {
      StepKeeps(s, acts[0]);
      RankFalls(s, acts[0]);
      AllComeBack(Step(s, acts[0]), acts[1..], t);
    }
  }

  lemma AllIdle(s: State)
    requires Inv(s) && forall a :: Enabled(s, a) ==> a.Arrive?
    ensures forall b: Buffer :: Total(s.free, Is(b)) == One(b < BUFFER_NR)
    ensures s.trees == multiset{} && s.begun == multiset{}
  {
    assert !Enabled(s, TakeLong) && !Enabled(s, TakeOut) && !Enabled(s, TakeWork);
    assert !Enabled(s, Move(0, Answer(true, Text, Async, 0)));
    forall b: Buffer ensures Total(s.free, Is(b)) == One(b < BUFFER_NR) && s.trees[b] == 0 && s.begun[b] == 0 {
      assert Conserved(s, b);
    }
  }
}
