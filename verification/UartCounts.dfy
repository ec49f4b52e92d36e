/** The transmit half of UART.c in numbers: how many bytes are accepted, done and
    under way, what the driver's events do to these, and what UART_Transfer admits
    when events come between its statements. */
module UartCounts {
  const TX_BUFFER_SIZE := 1024
  const PACKET_SIZE := 512

  type Word = w: nat | w < 0x1_0000_0000

  /** Subtraction of 32-bit numbers. */
  function Sub32(a: nat, b: nat): (r: Word)
    ensures b <= a < b + 0x1_0000_0000 ==> r == a - b
    ensures a < b <= a + 0x1_0000_0000 ==> r == 0x1_0000_0000 + a - b
  {
    (a - b) % 0x1_0000_0000
  }

  /** The place of byte number `n` in the ring. */
  function Slot(n: nat): (i: nat)
    ensures i < TX_BUFFER_SIZE
  {
    n % 1024
  }

  /** All that is accepted, but not beyond the end of the ring. */
  function LongestBlock(done: nat, accepted: nat): (r: nat)
    requires done <= accepted
    ensures r <= accepted - done && Slot(done) + r <= TX_BUFFER_SIZE && (done < accepted ==> 0 < r)
  {
    if Slot(done) + (accepted - done) <= TX_BUFFER_SIZE then accepted - done else TX_BUFFER_SIZE - Slot(done)
  }

  function Min(a: nat, b: nat): nat {
    if a <= b then a else b
  }

  /** How many bytes were accepted since the last reset, how many of them were in
      completed blocks, and how many of the `num` bytes of the running block are out. */
  datatype Counts = Counts(accepted: nat, done: nat, active: bool, num: nat, sent: nat)

  /** Bytes on the wire. */
  function Out(c: Counts): nat {
    c.done + if c.active then c.sent else 0
  }

  /** Between two statements of the source: a block lies inside the buffer and is
      made of accepted bytes. */
  predicate Ok(c: Counts) {
    c.done <= c.accepted < c.done + 4 * TX_BUFFER_SIZE
    && (c.active ==> c.sent <= c.num && 0 < c.num && Slot(c.done) + c.num <= TX_BUFFER_SIZE && c.done + c.num <= c.accepted)
  }

  /** Between two commands: no more than a buffer is unsent, and an idle driver
      has nothing to send. */
  predicate Steady(c: Counts) {
    Ok(c) && c.accepted <= Out(c) + TX_BUFFER_SIZE && (!c.active ==> c.done == c.accepted)
  }

  /** UART_Transmit */
  function Begin(c: Counts): Counts
    requires c.done <= c.accepted
  {
    if c.done < c.accepted then c.(active := true, num := LongestBlock(c.done, c.accepted), sent := 0) else c
  }

  /** One byte leaves, or the block completes and the next one begins. */
  function Next(c: Counts): Counts
    requires Ok(c)
  {
    if !c.active then c
    else if c.sent < c.num then c.(sent := c.sent + 1)
    else Begin(c.(done := c.done + c.num, active := false))
  }

  function Events(c: Counts, n: nat): (r: Counts)
    requires Ok(c)
    ensures Ok(r) && r.accepted == c.accepted && c.done <= r.done
  {
    if n == 0 then c else Next(Events(c, n - 1))
  }

  /** The block that is running goes on, or at least that one is done. */
  predicate Onward(c: Counts, c': Counts) {
    && c'.accepted == c.accepted && Out(c) <= Out(c')
    && ((c' == c.(sent := c'.sent) && c.sent <= c'.sent) || (c.active && c.done + c.num <= c'.done))
  }

  lemma {:induction false} Progress(c: Counts, n: nat)
    requires Ok(c)
    ensures Onward(c, Events(c, n))
    ensures Steady(c) ==> Steady(Events(c, n))
  {
    if n > 0 {
      Progress(c, n - 1);
    }
  }

  /** What UART_Transfer reads: the bytes not in completed blocks, the count of the
      running block, and whether one is running. */
  datatype Seen = Seen(notDone: nat, count: nat, active: bool)
  {
    /** The unsent bytes, as it works them out. */
    function Difference(): Word {
      if active then Sub32(notDone, count) else if notDone < 0x1_0000_0000 then notDone else 0
    }
  }

  /** How many of the offered bytes UART_Transfer takes, given what it read. */
  function Admitted(offered: nat, seen: Seen): nat {
    Min(Min(offered, PACKET_SIZE - 5), Sub32(TX_BUFFER_SIZE, seen.Difference()))
  }

  /** What happens before each of the three readings, before the copy, between its
      two halves, before the bytes count as accepted and before the driver is looked at. */
  type Pauses = p: seq<nat> | |p| == 7 witness [0, 0, 0, 0, 0, 0, 0]

  function After(c: Counts, p: Pauses, k: nat): (r: Counts)
    requires Ok(c) && k <= 7
    ensures Ok(r) && r.accepted == c.accepted && c.done <= r.done
  {
    if k == 0 then c else Events(After(c, p, k - 1), p[k - 1])
  }

  lemma {:induction false} AfterProgress(c: Counts, p: Pauses, j: nat, k: nat)
    requires Ok(c) && j <= k <= 7
    ensures Onward(After(c, p, j), After(c, p, k))
    ensures Steady(After(c, p, j)) ==> Steady(After(c, p, k))
  {
    if j < k {
      AfterProgress(c, p, j, k - 1);
      Progress(After(c, p, k - 1), p[k - 1]);
    }
  }

  function Reads(c: Counts, p: Pauses): Seen
    requires Ok(c)
  {
    Seen(c.accepted - After(c, p, 1).done, After(c, p, 2).sent, After(c, p, 3).active)
  }

  /** The room there really is when the bytes are copied. */
  function Free(c: Counts, p: Pauses): int
    requires Ok(c)
  {
    TX_BUFFER_SIZE - (c.accepted - Out(After(c, p, 4)))
  }

  /** The bytes that are admitted find room. */
  predicate Fits(c: Counts, offered: nat, p: Pauses)
    requires Ok(c)
  {
    Admitted(offered, Reads(c, p)) <= Free(c, p)
  }

  /** What a caller can know beforehand: the driver is idle, or no more than a
      buffer is in blocks not yet completed, or all that can be admitted would find
      room as soon as the running block is done. */
  predicate Safe(c: Counts, offered: nat) {
    !c.active || c.accepted - c.done <= TX_BUFFER_SIZE
    || Min(offered, PACKET_SIZE - 5) <= TX_BUFFER_SIZE - (c.accepted - c.done) + c.num
  }

  /** A difference beyond the buffer is read only when the block that was running is
      done by then; otherwise the room worked out is there. */
  lemma ReadingsSound(c: Counts, p: Pauses)
    requires Steady(c)
    ensures var d := Reads(c, p).Difference();
            d <= c.accepted - c.done
            && (if d <= TX_BUFFER_SIZE then TX_BUFFER_SIZE - d <= Free(c, p)
                else c.active && TX_BUFFER_SIZE - (c.accepted - c.done) + c.num <= Free(c, p))
  {
    AfterProgress(c, p, 0, 1);
    AfterProgress(c, p, 1, 2);
    AfterProgress(c, p, 2, 3);
    AfterProgress(c, p, 3, 4);
    AfterProgress(c, p, 0, 3);
    hide After, Slot;
  }

  lemma {:induction false} BlockEnds(c: Counts, n: nat)
    requires Ok(c) && c.active && n <= c.num - c.sent
    ensures Events(c, n) == c.(sent := c.sent + n)
  {
    if n > 0 {
      BlockEnds(c, n - 1);
    }
  }

  /** The block that is running completes between the first two readings. */
  function CompletionBetween(c: Counts): Pauses
    requires Ok(c) && c.active
  {
    [0, c.num - c.sent + 1, 0, 0, 0, 0, 0]
  }

  lemma {:induction false} QuietAfter(c: Counts, p: Pauses, j: nat, k: nat)
    requires Ok(c) && j <= k <= 7 && forall i :: j <= i < k ==> p[i] == 0
    ensures After(c, p, k) == After(c, p, j)
  {
    if j < k {
      QuietAfter(c, p, j, k - 1);
    }
  }

  lemma CompletionStates(c: Counts)
    requires Ok(c) && c.active && c.done + c.num < c.accepted
    ensures var p, next := CompletionBetween(c), Begin(c.(done := c.done + c.num));
            After(c, p, 1) == c && After(c, p, 2) == After(c, p, 3) == After(c, p, 4) == next
    ensures var next := Begin(c.(done := c.done + c.num));
            Ok(next) && next.active && next.sent == 0 < next.num && next.done == c.done + c.num
  {
    hide Slot, LongestBlock;
    var p := CompletionBetween(c);
    BlockEnds(c, c.num - c.sent);
    QuietAfter(c, p, 0, 1);
    QuietAfter(c, p, 2, 3);
    QuietAfter(c, p, 2, 4);
    assert After(c, p, 2) == Events(After(c, p, 1), p[1]);
  }

  /** Then more may be admitted than fits. */
  lemma UnsafeOverruns(c: Counts, offered: nat)
    requires Steady(c) && !Safe(c, offered)
    ensures var p := CompletionBetween(c);
            !Fits(c, offered, p) && Free(c, p) == TX_BUFFER_SIZE - (c.accepted - c.done) + c.num
    ensures Admitted(offered, Reads(c, CompletionBetween(c))) == Min(offered, PACKET_SIZE - 5)
  {
    hide After, Slot, LongestBlock, CompletionBetween;
    CompletionStates(c);
  }

  /** It leaves a block behind whose first byte lies where a new byte was put. */
  lemma UnsafeTransferred(c: Counts, offered: nat)
    requires Steady(c) && !Safe(c, offered)
    ensures var n, p := Min(offered, PACKET_SIZE - 5), CompletionBetween(c);
            var r := Transferred(c, offered, p);
            Admitted(offered, Reads(c, p)) == n && r.active && r.sent == 0 < r.num && Out(After(c, p, 4)) == Out(r)
            && c.accepted <= Out(r) + TX_BUFFER_SIZE < c.accepted + n && Out(r) < c.accepted
  {
    hide After, Slot, LongestBlock, Admitted, Reads, Fits, Appended;
    var p, n := CompletionBetween(c), Min(offered, PACKET_SIZE - 5);
    CompletionStates(c);
    UnsafeOverruns(c, offered);
    QuietAppended(After(c, p, 4), n, p);
  }

  /** Main result: whatever the driver does in between, the admitted bytes find
      room, exactly when the state before the call is safe. */
  lemma FitsExactly(c: Counts, offered: nat)
    requires Steady(c)
    ensures (forall p: Pauses :: Fits(c, offered, p)) <==> Safe(c, offered)
  {
    hide Reads, Free;
    if Safe(c, offered) {
      forall p: Pauses
        ensures Fits(c, offered, p)
      {
        ReadingsSound(c, p);
      }
    } else {
      UnsafeOverruns(c, offered);
      assert !Fits(c, offered, CompletionBetween(c));
    }
  }

  // ---- whole commands ----

  /** Up to the moment when `n` bytes are in the ring; there are two copies when
      these go around its end. */
  function Copied(c: Counts, n: nat, p: Pauses): (r: Counts)
    requires Ok(c)
    ensures Ok(r) && r.accepted == c.accepted && c.done <= r.done
  {
    Events((if Slot(c.accepted) + n <= TX_BUFFER_SIZE then c else Events(c, p[4])), p[5])
  }

  /** The copied bytes are accepted. */
  function Appended(c: Counts, n: nat, p: Pauses): (r: Counts)
    requires Ok(c) && c.accepted + n < c.done + 4 * TX_BUFFER_SIZE
    ensures Ok(r)
  {
    var d := Copied(c, n, p);
    Events(d.(accepted := d.accepted + n), p[6])
  }

  /** The counts after UART_Transfer. */
  function Transferred(c: Counts, offered: nat, p: Pauses): Counts
    requires Steady(c)
  {
    var d := Appended(After(c, p, 4), Admitted(offered, Reads(c, p)), p);
    if d.active then d else Begin(d)
  }

  lemma QuietAppended(c: Counts, n: nat, p: Pauses)
    requires Ok(c) && c.active && c.accepted + n < c.done + 4 * TX_BUFFER_SIZE && p[4] == p[5] == p[6] == 0
    ensures Appended(c, n, p) == c.(accepted := c.accepted + n)
  {
    hide Slot;
  }

  lemma CopiedOnward(c: Counts, n: nat, p: Pauses)
    requires Ok(c)
    ensures Out(c) <= Out(Copied(c, n, p))
  {
    if Slot(c.accepted) + n <= TX_BUFFER_SIZE {
      Progress(c, p[5]);
    } else {
      Progress(c, p[4]);
      Progress(Events(c, p[4]), p[5]);
    }
  }

  lemma AppendedOnward(c: Counts, n: nat, p: Pauses)
    requires Ok(c) && c.accepted + n < c.done + 4 * TX_BUFFER_SIZE
    ensures Out(c) <= Out(Appended(c, n, p)) && Appended(c, n, p).accepted == c.accepted + n
  {
    CopiedOnward(c, n, p);
    var d := Copied(c, n, p);
    Progress(d.(accepted := d.accepted + n), p[6]);
    hide Slot, LongestBlock, Copied;
  }

  /** What fits leaves a state between two commands behind. */
  lemma FittingKeepsSteady(c: Counts, offered: nat, p: Pauses)
    requires Steady(c) && Fits(c, offered, p)
    ensures Steady(Transferred(c, offered, p))
  {
    hide Admitted, Reads, After, Appended, Slot, LongestBlock;
    AfterProgress(c, p, 0, 4);
    var d, n := After(c, p, 4), Admitted(offered, Reads(c, p));
    AppendedOnward(d, n, p);
  }

  const QUIET: Pauses := [0, 0, 0, 0, 0, 0, 0]

  /** Undisturbed, exactly the room there is gets used. */
  lemma QuietTransfer(c: Counts, offered: nat)
    requires Steady(c)
    ensures var n := Min(Min(offered, PACKET_SIZE - 5), TX_BUFFER_SIZE - (c.accepted - Out(c)));
            var d := c.(accepted := c.accepted + n);
            Admitted(offered, Reads(c, QUIET)) == n
            && Transferred(c, offered, QUIET) == if c.active then d else Begin(d)
  {
    QuietAfter(c, QUIET, 0, 1);
    QuietAfter(c, QUIET, 0, 2);
    QuietAfter(c, QUIET, 0, 3);
    QuietAfter(c, QUIET, 0, 4);
  }

  datatype Command = Wait(events: nat) | Offer(offered: nat, pauses: Pauses)

  function Step(c: Counts, cmd: Command): Counts
    requires Steady(c)
  {
    if cmd.Wait? then Events(c, cmd.events) else Transferred(c, cmd.offered, cmd.pauses)
  }

  /** A run up to the first overrun. */
  function Run(c: Counts, cmds: seq<Command>): Counts {
    if cmds == [] then c
    else
      var d := Run(c, cmds[..|cmds| - 1]);
      if Steady(d) then Step(d, cmds[|cmds| - 1]) else d
  }

  lemma RunSnoc(c: Counts, cmds: seq<Command>, cmd: Command)
    requires Steady(Run(c, cmds))
    ensures Run(c, cmds + [cmd]) == Step(Run(c, cmds), cmd)
  {
    assert (cmds + [cmd])[..|cmds|] == cmds;
  }

  /** Every command finds a safe state. */
  predicate SafeRun(c: Counts, cmds: seq<Command>) {
    forall k :: 0 <= k < |cmds| && cmds[k].Offer? ==> Safe(Run(c, cmds[..k]), cmds[k].offered)
  }

  /** Then nothing is ever overrun. */
  lemma {:induction false} SafeRunFits(c: Counts, cmds: seq<Command>)
    requires Steady(c) && SafeRun(c, cmds)
    ensures Steady(Run(c, cmds))
  {
    if cmds != [] {
      var init, last := cmds[..|cmds| - 1], cmds[|cmds| - 1];
      forall k | 0 <= k < |init| && init[k].Offer?
        ensures Safe(Run(c, init[..k]), init[k].offered)
      {
        assert init[k] == cmds[k] && init[..k] == cmds[..k];
      }
      SafeRunFits(c, init);
      var d := Run(c, init);
      if last.Wait? {
        Progress(d, last.events);
      } else {
        FitsExactly(d, last.offered);
        FittingKeepsSteady(d, last.offered, last.pauses);
      }
      RunSnoc(c, init, last);
      assert init + [last] == cmds;
    }
  }

  const RESET := Counts(0, 0, false, 0, 0)

  /** An undisturbed command while the driver is running. */
  lemma OfferMore(cmds: seq<Command>, n: nat)
    requires var c := Run(RESET, cmds);
             Steady(c) && c.active && n <= PACKET_SIZE - 5 && c.accepted + n <= Out(c) + TX_BUFFER_SIZE
    ensures var c := Run(RESET, cmds); Run(RESET, cmds + [Offer(n, QUIET)]) == c.(accepted := c.accepted + n)
  {
    hide Transferred;
    RunSnoc(RESET, cmds, Offer(n, QUIET));
    QuietTransfer(Run(RESET, cmds), n);
  }

  /** `n` more bytes leave. */
  lemma SendMore(cmds: seq<Command>, n: nat)
    requires var c := Run(RESET, cmds); Steady(c) && c.active && c.sent + n <= c.num
    ensures var c := Run(RESET, cmds); Run(RESET, cmds + [Wait(n)]) == c.(sent := c.sent + n)
  {
    RunSnoc(RESET, cmds, Wait(n));
    BlockEnds(Run(RESET, cmds), n);
  }

  /** Two packets, all of the first and most of the second sent, and the ring filled
      up again. */
  const STALE: seq<Command> :=
    [Offer(507, QUIET)] + [Offer(507, QUIET)] + [Wait(507)] + [Wait(1)] + [Wait(506)] + [Offer(507, QUIET)]
    + [Offer(507, QUIET)] + [Offer(9, QUIET)]

  lemma FirstOffer()
    ensures Run(RESET, [Offer(507, QUIET)]) == Counts(507, 0, true, 507, 0)
  {
    hide Transferred, Reads, Admitted;
    RunSnoc(RESET, [], Offer(507, QUIET));
    QuietTransfer(RESET, 507);
    assert [] + [Offer(507, QUIET)] == [Offer(507, QUIET)];
  }

  lemma LastByteDone(cmds: seq<Command>)
    requires Run(RESET, cmds) == Counts(1014, 0, true, 507, 507)
    ensures Run(RESET, cmds + [Wait(1)]) == Counts(1014, 507, true, 507, 0)
  {
    hide Run;
    RunSnoc(RESET, cmds, Wait(1));
    var c := Run(RESET, cmds);
    assert Events(c, 1) == Next(Events(c, 0));
  }

  lemma StaleEnds()
    ensures Run(RESET, STALE) == Counts(2037, 507, true, 507, 506)
  {
    hide Run;
    FirstOffer();
    var two := [Offer(507, QUIET)] + [Offer(507, QUIET)];
    OfferMore([Offer(507, QUIET)], 507);
    SendMore(two, 507);
    LastByteDone(two + [Wait(507)]);
    var five := two + [Wait(507)] + [Wait(1)] + [Wait(506)];
    SendMore(two + [Wait(507)] + [Wait(1)], 506);
    OfferMore(five, 507);
    OfferMore(five + [Offer(507, QUIET)], 507);
    OfferMore(five + [Offer(507, QUIET)] + [Offer(507, QUIET)], 9);
  }

  /** A run from reset after which three more bytes are admitted where one fits, if
      the completion interrupt comes between the first two readings. */
  lemma UnsafeReachable()
    ensures var c := Run(RESET, STALE);
            Steady(c) && !Safe(c, 3) && !Fits(c, 3, CompletionBetween(c))
            && Admitted(3, Reads(c, CompletionBetween(c))) == 3 && Free(c, CompletionBetween(c)) == 1
  {
    hide Run, Reads, Free;
    StaleEnds();
    UnsafeOverruns(Run(RESET, STALE), 3);
  }
}
