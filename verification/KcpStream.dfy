/** ikcp_send in stream mode: bytes without boundaries, packed into full segments. */
module KcpStream {
  import opened Seqs
  import opened Words
  import opened KcpWire
  import opened KcpSpec
  import opened KcpMessages

  /** How many more bytes the last queued segment takes. */
  function TailRoom(queue: seq<Frag>, mss: nat): nat {
    if queue == [] || |queue[|queue| - 1].data| >= mss then 0 else mss - |queue[|queue| - 1].data|
  }

  /** From position `from` on every segment is final, and all but the last are full. */
  predicate Packed(fs: seq<Frag>, from: nat, mss: nat) {
    (forall i :: from <= i < |fs| ==> fs[i].frg == 0) && (forall i :: from <= i < |fs| - 1 ==> |fs[i].data| >= mss)
  }

  lemma {:induction false} StreamFragments(data: seq<byte>, mss: nat, count: nat)
    requires 0 < count <= 256 && (count == 1 || (count - 1) * mss < |data|)
    ensures Packed(Fragments(data, mss, count, true), 0, mss)
    decreases count
  {
    if count > 1 {
      var size := Min(|data|, mss);
      assert (count - 1) * mss == mss + (count - 2) * mss;
      assert (count - 2) * mss >= 0;
      StreamFragments(data[size..], mss, count - 1);
      var rest := Fragments(data[size..], mss, count - 1, true);
      assert Fragments(data, mss, count, true) == [Frag(0, data[..size])] + rest;
    }
  }

  lemma {:induction false} JoinConcat(a: seq<Frag>, b: seq<Frag>)
    ensures Join(a + b) == Join(a) + Join(b)
  {
    hide Join;
    if b == [] {
      JoinFew(Frag(0, []));
      assert a + b == a && Join(a) + [] == Join(a);
    } else {
      var init := b[..|b| - 1];
      JoinConcat(a, init);
      assert (a + b)[..|a + b| - 1] == a + init;
      JoinLast(a + b);
      JoinLast(b);
      Assoc(Join(a), Join(init), b[|b| - 1].data);
    }
  }

  /** The tail is filled up with the first bytes, in order, and becomes final. */
  lemma TailFilled(queue: seq<Frag>, data: seq<byte>, mss: nat)
    ensures var k, (q, rest) := Min(|data|, TailRoom(queue, mss)), ExtendTail(queue, data, mss);
            rest == data[k..] && Join(q) == Join(queue) + data[..k] && |q| == |queue|
            && (k == 0 && TailRoom(queue, mss) == 0 ==> q == queue)
            && (queue != [] ==> q[..|q| - 1] == queue[..|queue| - 1])
            && (TailRoom(queue, mss) > 0 ==> Packed(q, |q| - 1, mss) && |q[|q| - 1].data| == |queue[|q| - 1].data| + k <= mss)
  {
    hide Join;
    if TailRoom(queue, mss) == 0 {
      assert data[..0] == [] && data[0..] == data && Join(queue) + [] == Join(queue);
    } else {
      var q := ExtendTail(queue, data, mss).0;
      JoinLast(queue);
      JoinLast(q);
      assert q[..|q| - 1] == queue[..|queue| - 1];
      Assoc(Join(queue[..|queue| - 1]), queue[|queue| - 1].data, data[..Min(|data|, TailRoom(queue, mss))]);
    }
  }

  /** Main result: a send is accepted exactly when what does not fit the tail is at most
      127 * mss bytes; then the queued bytes are those from before and the new ones, in
      order, in segments of which all but the last are full. A refused one has still put
      its first bytes into the tail, if that had room. */
  lemma StreamSend(cb: Cb, data: seq<byte>)
    requires cb.cfg.stream
    ensures var queue, mss, (cb', ret) := cb.tx.queue, cb.cfg.Mss(), Send(cb, data);
            var q, k := cb'.tx.queue, Min(|data|, TailRoom(queue, mss));
            cb' == cb.(tx := cb.tx.(queue := q))
            && (ret == 0 <==> |data| - k <= 127 * mss) && (ret == 0 || ret == -2)
            && (ret == 0 ==> Join(q) == Join(queue) + data)
            && (ret == -2 ==> Join(q) == Join(queue) + data[..k] && |q| == |queue|)
            && (queue != [] ==> |q| >= |queue| && q[..|queue| - 1] == queue[..|queue| - 1])
            && (Small(queue, mss) ==> Small(q, mss))
            && (|q| > |queue| ==> Packed(q, |queue|, mss) && (queue != [] ==> |q[|queue| - 1].data| >= mss))
  {
    hide Join, ExtendTail, Fragments, FragCount;
    var queue, mss := cb.tx.queue, cb.cfg.Mss();
    var k := Min(|data|, TailRoom(queue, mss));
    TailFilled(queue, data, mss);
    var (q, rest) := ExtendTail(queue, data, mss);
    FewestFragments(|rest|, mss);
    if rest == [] {
      assert data[..k] == data;
    } else if FragCount(|rest|, mss) < WND_RCV {
      var n := FragCount(|rest|, mss);
      FragCountCovers(|rest|, mss);
      FragmentsRebuild(rest, mss, n, true);
      FragmentsShape(rest, mss, n, true);
      StreamFragments(rest, mss, n);
      var fs := Fragments(rest, mss, n, true);
      JoinConcat(q, fs);
      Assoc(Join(queue), data[..k], rest);
      assert data[..k] + rest == data;
      Appended(queue, q, fs, mss);
    }
  }

  lemma Appended(queue: seq<Frag>, q: seq<Frag>, fs: seq<Frag>, mss: nat)
    requires |q| == |queue| && (queue != [] ==> q[..|q| - 1] == queue[..|queue| - 1])
    requires Packed(fs, 0, mss) && Small(fs, mss)
    ensures queue != [] ==> (q + fs)[..|queue| - 1] == queue[..|queue| - 1]
    ensures Packed(q + fs, |queue|, mss) && (Small(q, mss) ==> Small(q + fs, mss))
  {}
}
