/** The transmit ring of UART.c. The driver takes the bytes of a block straight out of
    the ring while UART_Transfer fills it, and its completion interrupt may come
    between any two statements of UART_Transfer. */
module UartRing {
  import opened UartCounts

  type Byte = b: nat | b < 256

  class Uart {
    const buf: array<Byte>
    var indexI: Word
    var indexO: Word
    var txNum: Word
    var active: bool

    // the driver: where the block begins, its length, and what is shifted out of it
    var sendFrom: nat
    var sendNum: nat
    var sent: nat
    /** The bytes that were shifted out since the last reset. */
    var wire: seq<Byte>

    /** The bytes that were accepted since the last reset, and how many of them were
        in blocks that are completed. */
    ghost var accepted: seq<Byte>
    ghost var done: nat

    constructor ()
      ensures Valid() && fresh(buf) && accepted == [] && wire == []
    {
      buf := new Byte[TX_BUFFER_SIZE](_ => 0);
      indexI, indexO, txNum, active := 0, 0, 0, false;
      sendFrom, sendNum, sent, wire := 0, 0, 0, [];
      accepted, done := [], 0;
    }

    /** The state in numbers. */
    ghost function Tally(): Counts
      reads `active, `sendNum, `sent, `accepted, `done
    {
      Counts(|accepted|, done, active, sendNum, sent)
    }

    /** Free-running 32-bit indices stand for unbounded counts. */
    ghost predicate Indices()
      reads `indexI, `indexO, `accepted, `done
    {
      indexI == |accepted| % 0x1_0000_0000 && indexO == done % 0x1_0000_0000
    }

    /** What holds of the indices and the driver, whatever the bytes are: a block is
        taken from the place of the first byte that is not done. */
    ghost predicate Driver()
      reads `indexI, `indexO, `txNum, `active, `sendFrom, `sendNum, `sent, `wire, `accepted, `done
    {
      Indices() && Ok(Tally()) && |wire| == Out(Tally()) && buf.Length == TX_BUFFER_SIZE
      && (active ==> sendFrom == Slot(done) && txNum == sendNum)
    }

    /** The wire has a prefix of what was accepted; the rest is in the ring. */
    ghost predicate Stored()
      reads `accepted, `wire, buf
      requires buf.Length == TX_BUFFER_SIZE
    {
      && wire <= accepted && |accepted| - |wire| <= TX_BUFFER_SIZE
      && forall j :: |wire| <= j < |accepted| ==> buf[Slot(j)] == accepted[j]
    }

    /** Outside UART_Transfer an idle driver means an empty ring. */
    ghost predicate Settled()
      reads `active, `accepted, `done
    {
      !active ==> done == |accepted|
    }

    ghost predicate Valid()
      reads this, buf
    {
      Driver() && Stored() && Settled()
    }

    // ---- the driver ----

    /** pUSART->Send */
    method Send(from: nat, num: nat)
      modifies `sendFrom, `sendNum, `sent
      ensures sendFrom == from && sendNum == num && sent == 0
    {
      sendFrom, sendNum, sent := from, num, 0;
    }

    /** UART_Transmit */
    method Transmit()
      requires Driver() && !active
      modifies `txNum, `active, `sendFrom, `sendNum, `sent
      ensures Driver() && Settled() && Tally() == Begin(old(Tally()))
    {
      var count := Sub32(indexI, indexO);
      var index := indexO % TX_BUFFER_SIZE;
      CountIs(|accepted|, done);
      SlotIs(done);
      if count != 0 {
        if index + count <= TX_BUFFER_SIZE {
          txNum := count;
        } else {
          txNum := TX_BUFFER_SIZE - index;
        }
        active := true;
        Send(index, txNum);
      }
    }

    /** USART_Callback for a completed block. */
    method SendComplete()
      requires Driver() && active && sent == sendNum
      modifies `indexO, `txNum, `active, `sendFrom, `sendNum, `sent, `done
      ensures Driver() && Settled() && Tally() == Next(old(Tally()))
    {
      NextIndex(done, txNum);
      indexO := (indexO + txNum) % 0x1_0000_0000;
      done := done + txNum;
      active := false;
      Transmit();
    }

    /** One more byte leaves, as it is in the ring at that moment. */
    method ShiftOut()
      requires Driver() && active && sent < sendNum
      modifies `sent, `wire
      ensures Driver() && Tally() == Next(old(Tally())) && wire == old(wire) + [buf[Slot(|old(wire)|)]]
      ensures old(Stored()) ==> Stored()
    {
      hide Slot;
      SlotWithin(done, sent);
      wire := wire + [buf[sendFrom + sent]];
      sent := sent + 1;
    }

    /** A byte leaves, or the block completes. */
    method Event()
      requires Driver() && active
      modifies `indexO, `txNum, `active, `sendFrom, `sendNum, `sent, `wire, `done
      ensures Driver() && old(wire) <= wire && Tally() == Next(old(Tally()))
      ensures old(Stored()) ==> Stored()
      ensures old(Settled()) ==> Settled()
    {
      hide Stored;
      if sent < sendNum {
        ShiftOut();
      } else {
        SendComplete();
      }
    }

    /** What happens while UART_Transfer is between two statements: `events` bytes or
        completions. */
    method Elapse(events: nat)
      requires Driver()
      modifies `indexO, `txNum, `active, `sendFrom, `sendNum, `sent, `wire, `done
      ensures Driver() && old(wire) <= wire && Tally() == Events(old(Tally()), events)
      ensures events == 0 ==> wire == old(wire)
      ensures old(Stored()) ==> Stored()
      ensures old(Settled()) ==> Settled()
    {
      hide Stored, Settled;
      ghost var stored, settled := Stored(), Settled();
      for i := 0 to events
        invariant Driver() && old(wire) <= wire && Tally() == Events(old(Tally()), i) && (i == 0 ==> wire == old(wire))
        invariant (stored ==> Stored()) && (settled ==> Settled())
      {
        if active {
          Event();
        }
      }
    }

    /** UART_Transmit_Flush: the ring is empty and counting starts again. */
    method Flush()
      requires Driver()
      modifies `indexI, `indexO, `txNum, `active, `wire, `accepted, `done
      ensures Valid() && !active && accepted == [] && wire == []
    {
      active := false;
      indexI, indexO, txNum := 0, 0, 0;
      wire, accepted, done := [], [], 0;
    }

    // ---- UART_Transfer ----

    /** The difference of the indices, then the driver's count. */
    method Measure(pauses: Pauses) returns (txUnsent: Word, num: nat)
      requires Valid()
      modifies `indexO, `txNum, `active, `sendFrom, `sendNum, `sent, `wire, `done
      ensures Valid() && old(wire) <= wire && Tally() == After(old(Tally()), pauses, 2)
      ensures txUnsent == |accepted| - After(old(Tally()), pauses, 1).done && num == sent
    {
      hide Stored, Slot, Sub32, Settled;
      Elapse(pauses[0]);
      assert Tally() == Events(After(old(Tally()), pauses, 0), pauses[0]) == After(old(Tally()), pauses, 1);
      txUnsent := Sub32(indexI, indexO);
      CountIs(|accepted|, done);
      Elapse(pauses[1]);
      num := sent;
    }

    /** The room in the ring as UART_Transfer works it out, in 32 bits, from the
        indices, the driver's count and the active flag. */
    method Room(pauses: Pauses) returns (room: Word)
      requires Valid()
      modifies `indexO, `txNum, `active, `sendFrom, `sendNum, `sent, `wire, `done
      ensures Valid() && old(wire) <= wire && Tally() == After(old(Tally()), pauses, 3)
      ensures room == Sub32(TX_BUFFER_SIZE, Reads(old(Tally()), pauses).Difference())
    {
      hide Stored, Slot, Sub32, Settled;
      var txUnsent, num := Measure(pauses);
      Elapse(pauses[2]);
      if active {
        txUnsent := Sub32(txUnsent, num);
      }
      room := Sub32(TX_BUFFER_SIZE, txUnsent);
    }

    /** memcpy into the ring, as far as its end, for the bytes from number `at` on. The
        bytes that are still to be sent are not touched if these are near enough. */
    method Copy(index: nat, from: seq<Byte>, ghost at: nat)
      requires Driver() && index == Slot(at) && index + |from| <= TX_BUFFER_SIZE && |accepted| <= at
      modifies buf
      ensures forall i :: 0 <= i < TX_BUFFER_SIZE && !(index <= i < index + |from|) ==> buf[i] == old(buf[i])
      ensures Placed(at, from)
      ensures old(Stored()) && at + |from| <= |wire| + TX_BUFFER_SIZE ==> Stored()
    {
      hide Slot;
      forall i | 0 <= i < |from| {
        buf[index + i] := from[i];
      }
      assert Placed(at, from) by {
        forall k | 0 <= k < |from| ensures buf[Slot(at + k)] == from[k] {
          SlotWithin(at, k);
        }
      }
      if old(Stored()) && at + |from| <= |wire| + TX_BUFFER_SIZE {
        forall j | |wire| <= j < |accepted| ensures buf[Slot(j)] == accepted[j] {
          SlotsApart(j, at, |from|);
        }
      }
    }

    /** The bytes lie in the slots from that of byte `at` on. */
    ghost predicate Placed(at: nat, from: seq<Byte>)
      reads buf
      requires buf.Length == TX_BUFFER_SIZE
    {
      forall k :: 0 <= k < |from| ==> buf[Slot(at + k)] == from[k]
    }

    /** Two copies, up to the end of the ring and from its beginning. */
    method FillAround(index: nat, from: seq<Byte>, pause: nat)
      requires Driver() && index == Slot(|accepted|) && TX_BUFFER_SIZE < index + |from| && |from| <= PACKET_SIZE
      modifies buf, `indexO, `txNum, `active, `sendFrom, `sendNum, `sent, `wire, `done
      ensures Driver() && old(wire) <= wire && Tally() == Events(old(Tally()), pause) && Placed(|accepted|, from)
      ensures old(Stored()) && |accepted| + |from| <= |old(wire)| + TX_BUFFER_SIZE ==> Stored()
      ensures pause == 0 ==> wire == old(wire)
      ensures old(Settled()) ==> Settled()
    {
      hide Stored, Settled, Slot, Driver;
      TallyOk();
      var num := TX_BUFFER_SIZE - index;
      Copy(index, from[..num], |accepted|);
      Elapse(pause);
      SlotWithin(|accepted|, num);
      label second:
      Copy(0, from[num..], |accepted| + num);
      forall k | 0 <= k < |from| ensures buf[Slot(|accepted| + k)] == from[k] {
        if k < num {
          SlotWithin(|accepted|, k);
          assert buf[index + k] == old@second(buf[index + k]) && from[..num][k] == from[k];
        } else {
          assert |accepted| + num + (k - num) == |accepted| + k && from[num..][k - num] == from[k];
        }
      }
    }

    /** The one or two copies of the bytes behind the accepted ones. */
    method Fill(from: seq<Byte>, pause: nat)
      requires Driver() && |from| <= PACKET_SIZE
      modifies buf, `indexO, `txNum, `active, `sendFrom, `sendNum, `sent, `wire, `done
      ensures Driver() && old(wire) <= wire && Placed(|accepted|, from)
      ensures Tally() == if Slot(|accepted|) + |from| <= TX_BUFFER_SIZE then old(Tally()) else Events(old(Tally()), pause)
      ensures old(Stored()) && |accepted| + |from| <= |old(wire)| + TX_BUFFER_SIZE ==> Stored()
      ensures pause == 0 ==> wire == old(wire)
      ensures old(Settled()) ==> Settled()
    {
      hide Stored, Settled, Slot, Placed;
      SlotIs(|accepted|);
      var index := indexI % TX_BUFFER_SIZE;
      if index + |from| <= TX_BUFFER_SIZE {
        Copy(index, from, |accepted|);
      } else {
        FillAround(index, from, pause);
      }
    }

    /** UartTxIndexI moves on: the copied bytes are accepted. */
    method Accept(n: nat, ghost from: seq<Byte>)
      requires Driver() && |from| == n <= PACKET_SIZE && Placed(|accepted|, from)
      requires |accepted| + n < done + 4 * TX_BUFFER_SIZE
      modifies `indexI, `accepted
      ensures Driver() && accepted == old(accepted) + from && Tally() == old(Tally()).(accepted := |accepted|)
      ensures old(Stored()) && |accepted| <= |wire| + TX_BUFFER_SIZE ==> Stored()
    {
      hide Slot;
      NextIndex(|accepted|, n);
      indexI := (indexI + n) % 0x1_0000_0000;
      ghost var was := accepted;
      accepted := accepted + from;
      if old(Stored()) && |accepted| <= |wire| + TX_BUFFER_SIZE {
        forall j | |wire| <= j < |accepted| ensures buf[Slot(j)] == accepted[j] {
          if j >= |was| {
            assert buf[Slot(|was| + (j - |was|))] == from[j - |was|];
          }
        }
      }
    }

    lemma TallyOk()
      requires Driver()
      ensures Ok(Tally()) && buf.Length == TX_BUFFER_SIZE
    {}

    lemma ValidSteady()
      requires Valid()
      ensures Steady(Tally()) && buf.Length == TX_BUFFER_SIZE
      ensures wire <= accepted && |wire| == Out(Tally()) && done <= |accepted| <= done + 2 * TX_BUFFER_SIZE
    {}

    /** The bytes are copied, then accepted. */
    method Append(from: seq<Byte>, pauses: Pauses)
      requires Driver() && |from| <= PACKET_SIZE && |accepted| + |from| < done + 4 * TX_BUFFER_SIZE
      modifies buf, `indexI, `indexO, `txNum, `active, `sendFrom, `sendNum, `sent, `wire, `accepted, `done
      ensures Driver() && accepted == old(accepted) + from && old(wire) <= wire
      ensures Tally() == Appended(old(Tally()), |from|, pauses)
      ensures Placed(|old(accepted)|, from)
      ensures old(Stored()) && |accepted| <= |old(wire)| + TX_BUFFER_SIZE ==> Stored()
      ensures pauses[4] == pauses[5] == pauses[6] == 0 ==> wire == old(wire)
    {
      hide Driver, Stored, Slot, Placed, LongestBlock, Events, Ok;
      TallyOk();
      Fill(from, pauses[4]);
      Elapse(pauses[5]);
      Accept(|from|, from);
      Elapse(pauses[6]);
    }

    /** How many of the offered bytes are taken; then the moment before the copy. */
    method Admit(offered: nat, pauses: Pauses) returns (n: nat)
      requires Valid()
      modifies `indexO, `txNum, `active, `sendFrom, `sendNum, `sent, `wire, `done
      ensures Valid() && old(wire) <= wire && Tally() == After(old(Tally()), pauses, 4)
      ensures n == Admitted(offered, Reads(old(Tally()), pauses)) <= PACKET_SIZE - 5
    {
      hide Stored, Slot, Sub32, Settled, Reads, LongestBlock;
      n := offered;
      if n > PACKET_SIZE - 5 {
        n := PACKET_SIZE - 5;
      }
      var room := Room(pauses);
      if n > room {
        n := room;
      }
      Elapse(pauses[3]);
    }

    /** An idle driver is started. */
    method Wake()
      requires Driver()
      modifies `txNum, `active, `sendFrom, `sendNum, `sent
      ensures Driver() && Settled() && Tally() == if old(active) then old(Tally()) else Begin(old(Tally()))
    {
      if !active {
        Transmit();
      }
    }

    /** The transmit half of UART_Transfer. What it admits is what it read, and its
        bytes follow those accepted before; when they fit the room there really is,
        none that is still to be sent is overwritten. They fit whatever happens in
        between when the state before is safe. */
    method Transfer(offered: nat, data: seq<Byte>, pauses: Pauses) returns (n: nat)
      requires Valid() && |data| >= PACKET_SIZE - 5
      modifies this, buf
      ensures Driver() && Settled() && n <= PACKET_SIZE - 5 && accepted == old(accepted) + data[..n]
      ensures n == Admitted(offered, Reads(old(Tally()), pauses)) && Tally() == Transferred(old(Tally()), offered, pauses)
      ensures old(wire) <= wire && Placed(|old(accepted)|, data[..n])
      ensures Fits(old(Tally()), offered, pauses) ==> Valid()
      ensures Safe(old(Tally()), offered) ==> Valid()
      ensures pauses[4] == pauses[5] == pauses[6] == 0 ==> wire <= old(accepted) && |wire| == Out(After(old(Tally()), pauses, 4))
    {
      hide Driver, Stored, Slot, Placed, Settled, Reads, Admitted, Appended, After, Safe, Ok, LongestBlock;
      ValidSteady();
      FitsExactly(Tally(), offered);
      n := Admit(offered, pauses);
      ValidSteady();
      Append(data[..n], pauses);
      Wake();
    }

    // ---- an interrupt between the readings ----

    lemma PlacedByte(at: nat, from: seq<Byte>, k: nat)
      requires buf.Length == TX_BUFFER_SIZE && Placed(at, from) && k < |from|
      ensures buf[Slot(at + k)] == from[k]
    {}

    /** UART_Transfer in an unsafe state, with the completion of the running block
        between its first two readings: it accepts more than fits, and the next byte to
        leave is one of the new ones instead of the one accepted at that place. */
    method Overrun(offered: nat, data: seq<Byte>) returns (n: nat, ghost k: nat)
      requires Valid() && !Safe(Tally(), offered) && |data| >= PACKET_SIZE - 5
      modifies this, buf
      ensures n == Min(offered, PACKET_SIZE - 5) && accepted == old(accepted) + data[..n]
      ensures Tally() == Transferred(old(Tally()), offered, CompletionBetween(old(Tally())))
      ensures Driver() && active && sent < sendNum && wire < old(accepted)
      ensures |wire| + TX_BUFFER_SIZE == |old(accepted)| + k && k < n && buf[Slot(|wire|)] == data[k]
    {
      hide Admitted, Reads, Transferred, Slot, After, Safe, Fits, Ok, LongestBlock, Stored, Placed;
      ValidSteady();
      UnsafeTransferred(Tally(), offered);
      var pauses: Pauses := [0, sendNum - sent + 1, 0, 0, 0, 0, 0];
      n := Transfer(offered, data, pauses);
      k := |wire| + TX_BUFFER_SIZE - |old(accepted)|;
      SameSlot(|wire|);
      PlacedByte(|old(accepted)|, data[..n], k);
    }

    /** The byte that then leaves is not the one that was accepted. */
    method StaleIndex(offered: nat, data: seq<Byte>) returns (n: nat, ghost k: nat)
      requires Valid() && !Safe(Tally(), offered) && |data| >= PACKET_SIZE - 5
      requires forall i :: 0 <= i < PACKET_SIZE - 5 ==> data[i] !in accepted
      modifies this, buf
      ensures n == Min(offered, PACKET_SIZE - 5) && accepted == old(accepted) + data[..n]
      ensures Tally() == Next(Transferred(old(Tally()), offered, CompletionBetween(old(Tally()))))
      ensures 0 < |wire| <= |old(accepted)| && wire[..|wire| - 1] < old(accepted) && k < n
      ensures wire[|wire| - 1] == data[k] != accepted[|wire| - 1]
    {
      hide Admitted, Reads, Transferred, Slot, After, Safe, Fits, CompletionBetween, Stored, Placed, Next;
      n, k := Overrun(offered, data);
      ghost var before := wire;
      ShiftOut();
      assert wire[..|wire| - 1] == before;
    }
  }

  lemma SlotWithin(at: nat, k: nat)
    ensures Slot(at) + k < 1024 ==> Slot(at + k) == Slot(at) + k
    ensures Slot(at) + k == 1024 ==> Slot(at + k) == 0
  {}

  lemma SameSlot(n: nat)
    ensures Slot(n + 1024) == Slot(n)
  {}

  /** Less than a whole buffer apart means different slots. */
  lemma SlotsApart(j: nat, at: nat, n: nat)
    requires j < at && at + n <= j + 1024 && Slot(at) + n <= 1024
    ensures !(Slot(at) <= Slot(j) < Slot(at) + n)
  {}

  lemma CountIs(i: nat, o: nat)
    requires o <= i < o + 0x1_0000_0000
    ensures Sub32(i % 0x1_0000_0000, o % 0x1_0000_0000) == i - o
  {}

  lemma SlotIs(n: nat)
    ensures n % 0x1_0000_0000 % 1024 == Slot(n)
  {
    assert n == 0x1_0000_0000 * (n / 0x1_0000_0000) + n % 0x1_0000_0000;
    assert 0x1_0000_0000 == 1024 * 4194304;
  }

  lemma NextIndex(n: nat, k: nat)
    ensures (n % 0x1_0000_0000 + k) % 0x1_0000_0000 == (n + k) % 0x1_0000_0000
  {}
}
