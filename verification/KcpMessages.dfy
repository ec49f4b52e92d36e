/** Messages, their fragments, and the stream of fragments a sender makes of them. */
module KcpMessages {
  import opened Seqs
  import opened Words
  import opened KcpWire
  import opened KcpSpec

  /** Fragments counting down to 0. */
  predicate CountsDown(fs: seq<Frag>) {
    fs != [] && forall i :: 0 <= i < |fs| ==> fs[i].frg == |fs| - 1 - i
  }

  predicate Small(fs: seq<Frag>, mss: nat) {
    forall i :: 0 <= i < |fs| ==> |fs[i].data| <= mss
  }

  lemma JoinLast(fs: seq<Frag>)
    requires fs != []
    ensures Join(fs) == Join(fs[..|fs| - 1]) + fs[|fs| - 1].data
  {}

  lemma JoinFew(f: Frag)
    ensures Join([]) == [] && Join([f]) == f.data
  {
    assert [f][..0] == [] && [] + f.data == f.data;
  }

  lemma {:induction false} JoinCons(f: Frag, fs: seq<Frag>)
    ensures Join([f] + fs) == f.data + Join(fs)
  {
    hide Join;
    if fs == [] {
      JoinFew(f);
      assert [f] + fs == [f] && f.data + [] == f.data;
    } else {
      var init := fs[..|fs| - 1];
      JoinCons(f, init);
      assert ([f] + fs)[..|fs|] == [f] + init;
      JoinLast([f] + fs);
      JoinLast(fs);
      Assoc(f.data, Join(init), fs[|fs| - 1].data);
    }
  }

  /** Cutting `data` into enough pieces and joining them gives `data` back. */
  lemma {:induction false} FragmentsRebuild(data: seq<byte>, mss: nat, count: nat, stream: bool)
    requires count <= 256 && |data| <= count * mss
    ensures Join(Fragments(data, mss, count, stream)) == data
    decreases count
  {
    if count > 0 {
      var size := Min(|data|, mss);
      assert |data[size..]| <= (count - 1) * mss;
      FragmentsRebuild(data[size..], mss, count - 1, stream);
      JoinCons(Frag(if stream then 0 else count - 1, data[..size]), Fragments(data[size..], mss, count - 1, stream));
    } else {
      assert data == [];
    }
  }

  lemma {:induction false} FragmentsShape(data: seq<byte>, mss: nat, count: nat, stream: bool)
    requires count <= 256
    ensures Small(Fragments(data, mss, count, stream), mss)
    ensures !stream && count > 0 ==> CountsDown(Fragments(data, mss, count, stream))
    decreases count
  {
    if count > 0 {
      FragmentsShape(data[Min(|data|, mss)..], mss, count - 1, stream);
    }
  }

  lemma FragCountCovers(len: nat, mss: nat)
    requires mss > 0
    ensures len <= FragCount(len, mss) * mss && FragCount(len, mss) > 0
  {
    if len > mss {
      var q := (len + mss - 1) / mss;
      assert len + mss - 1 == q * mss + (len + mss - 1) % mss;
      assert q != 0;
    }
  }

  /** No more fragments than the bytes need, and 127 are enough for exactly 127 * mss bytes. */
  lemma FewestFragments(len: nat, mss: nat)
    requires mss > 0
    ensures FragCount(len, mss) == 1 || (FragCount(len, mss) - 1) * mss < len
    ensures FragCount(len, mss) < WND_RCV <==> len <= 127 * mss
  {
    if len > mss {
      var q := (len + mss - 1) / mss;
      assert len + mss - 1 == q * mss + (len + mss - 1) % mss;
      if q <= 127 {
        Times(q, 127, mss);
      } else {
        Times(127, q - 1, mss);
      }
    }
  }

  lemma Times(a: nat, b: nat, k: nat)
    requires a <= b
    ensures a * k <= b * k
  {}

  /** The messages ikcp_send accepts: at most 127 fragments. */
  predicate Accepted(mss: nat, msg: seq<byte>) {
    mss > 0 && FragCount(|msg|, mss) < WND_RCV
  }

  function Cut(mss: nat, msg: seq<byte>): seq<Frag>
    requires Accepted(mss, msg)
  {
    Fragments(msg, mss, FragCount(|msg|, mss), false)
  }

  /** Fragment and reassemble: an accepted message becomes at most 127 fragments
      of at most mss bytes that count down to 0 and join to the message. */
  lemma CutRebuilds(mss: nat, msg: seq<byte>)
    requires Accepted(mss, msg)
    ensures CountsDown(Cut(mss, msg)) && Small(Cut(mss, msg), mss) && |Cut(mss, msg)| < WND_RCV
    ensures Join(Cut(mss, msg)) == msg && (|Cut(mss, msg)| == 1 || (|Cut(mss, msg)| - 1) * mss < |msg|)
  {
    FewestFragments(|msg|, mss);
    FragCountCovers(|msg|, mss);
    FragmentsShape(msg, mss, FragCount(|msg|, mss), false);
    FragmentsRebuild(msg, mss, FragCount(|msg|, mss), false);
  }

  /** In message mode ikcp_send accepts exactly the messages of fewer than 128
      fragments, which are those of at most 127 * mss bytes, and a refused one leaves no trace. */
  lemma SendCuts(cb: Cb, msg: seq<byte>)
    requires !cb.cfg.stream
    ensures Accepted(cb.cfg.Mss(), msg) <==> |msg| <= 127 * cb.cfg.Mss()
    ensures Accepted(cb.cfg.Mss(), msg) ==>
              Send(cb, msg) == (cb.(tx := cb.tx.(queue := cb.tx.queue + Cut(cb.cfg.Mss(), msg))), 0)
    ensures !Accepted(cb.cfg.Mss(), msg) ==> Send(cb, msg) == (cb, -2)
  {
    FewestFragments(|msg|, cb.cfg.Mss());
  }

  /** The answer of ikcp_recv: nothing there, no whole message yet, no room for it, or its
      length and its bytes; an error changes nothing, and a receive queue that was full and
      now has room is announced. */
  lemma RecvAnswers(cb: Cb, len: int)
    ensures var q, r := cb.rx.queue, Recv(cb, len);
            var whole := q != [] && (q[0].frg == 0 || |q| > q[0].frg as int);
            var msg := q[..MessageLen(q)];
            (r.ret == -1 <==> q == []) && (r.ret == -2 <==> q != [] && !whole)
            && (r.ret == -3 <==> whole && |Join(msg)| > (if len < 0 then -len else len))
            && (r.ret < 0 ==> r.ret >= -3 && r.cb == cb && r.data == [])
            && (r.ret >= 0 ==> r.ret == |r.data| && r.data == Join(msg)
                               && (r.cb.probe.tell <==> cb.probe.tell || (|q| >= cb.rx.wnd && |r.cb.rx.queue| < cb.rx.wnd)))
  {
    hide Join, MoveReady;
    if PeekSize(cb.rx.queue) >= 0 {
      PeekSizeIsJoin(cb.rx.queue);
    }
    MovedKeepsWindow(cb.rx);
    MovedKeepsWindow(cb.rx.(queue := cb.rx.queue[MessageLen(cb.rx.queue)..]));
  }

  lemma {:induction false} MovedKeepsWindow(rx: Rx)
    ensures MoveReady(rx).wnd == rx.wnd
    decreases |rx.buf|
  {
    if rx.buf != [] && rx.buf[0].sn == rx.nxt && |rx.queue| < rx.wnd {
      MovedKeepsWindow(Rx(Wrap(rx.nxt + 1), rx.wnd, rx.queue + [rx.buf[0].frag], rx.buf[1..]));
    }
  }

  // ---- what ikcp_recv makes of a queue ----

  lemma {:induction false} MessageLenCounts(queue: seq<Frag>, n: nat)
    requires 0 < n <= |queue| && CountsDown(queue[..n])
    ensures MessageLen(queue) == n
  {
    assert queue[0] == queue[..n][0];
    if n > 1 {
      assert queue[1..][..n - 1] == queue[..n][1..];
      MessageLenCounts(queue[1..], n - 1);
    }
  }

  /** A queue that starts with a whole message delivers exactly that message. */
  lemma WholeMessage(queue: seq<Frag>, fs: seq<Frag>)
    requires CountsDown(fs) && fs <= queue
    ensures PeekSize(queue) == |Join(fs)| && MessageLen(queue) == |fs| && queue[..|fs|] == fs
  {
    assert queue[..|fs|] == fs;
    MessageLenCounts(queue, |fs|);
    assert queue[0] == fs[0];
    if |fs| == 1 {
      assert Join(fs[..0]) == [];
    }
  }

  /** A queue that holds only the beginning of a message delivers nothing. */
  lemma PartMessage(queue: seq<Frag>, fs: seq<Frag>)
    requires CountsDown(fs) && queue < fs
    ensures PeekSize(queue) == -1
  {
    if queue != [] {
      assert queue[0] == fs[0];
    }
  }

  // ---- the stream ----

  predicate AllAccepted(mss: nat, msgs: seq<seq<byte>>) {
    forall i :: 0 <= i < |msgs| ==> Accepted(mss, msgs[i])
  }

  /** All fragments of all messages, in order. */
  function Stream(mss: nat, msgs: seq<seq<byte>>): seq<Frag>
    requires AllAccepted(mss, msgs)
  {
    if msgs == [] then [] else Stream(mss, msgs[..|msgs| - 1]) + Cut(mss, msgs[|msgs| - 1])
  }

  lemma StreamSnoc(mss: nat, msgs: seq<seq<byte>>, msg: seq<byte>)
    requires AllAccepted(mss, msgs) && Accepted(mss, msg)
    ensures AllAccepted(mss, msgs + [msg])
    ensures Stream(mss, msgs + [msg]) == Stream(mss, msgs) + Cut(mss, msg)
  {
    assert (msgs + [msg])[..|msgs|] == msgs;
  }

  lemma {:induction false} StreamPrefix(mss: nat, msgs: seq<seq<byte>>, k: nat)
    requires AllAccepted(mss, msgs) && k <= |msgs|
    ensures Stream(mss, msgs[..k]) <= Stream(mss, msgs)
  {
    if k == |msgs| {
      assert msgs[..k] == msgs;
    } else {
      StreamPrefix(mss, msgs[..|msgs| - 1], k);
      assert msgs[..|msgs| - 1][..k] == msgs[..k];
    }
  }

  lemma {:induction false} StreamLength(mss: nat, msgs: seq<seq<byte>>)
    requires AllAccepted(mss, msgs)
    ensures |Stream(mss, msgs)| >= |msgs|
  {
    if msgs != [] {
      StreamLength(mss, msgs[..|msgs| - 1]);
      CutRebuilds(mss, msgs[|msgs| - 1]);
    }
  }

  /** Where the k-th message lies in the stream. */
  lemma NextMessage(mss: nat, msgs: seq<seq<byte>>, k: nat)
    requires AllAccepted(mss, msgs) && k < |msgs|
    ensures var c := |Stream(mss, msgs[..k])|;
            c + |Cut(mss, msgs[k])| <= |Stream(mss, msgs)|
            && Stream(mss, msgs)[c..c + |Cut(mss, msgs[k])|] == Cut(mss, msgs[k])
            && Stream(mss, msgs[..k + 1]) == Stream(mss, msgs[..k]) + Cut(mss, msgs[k])
  {
    StreamSnoc(mss, msgs[..k], msgs[k]);
    assert msgs[..k + 1] == msgs[..k] + [msgs[k]];
    StreamPrefix(mss, msgs, k + 1);
  }

  /** A receive queue that continues the stream after `k` whole messages delivers
      message `k` or nothing; it delivers when it holds 128 segments or more, and
      when it holds all of the stream and a message is left. */
  lemma QueueDeliversNext(mss: nat, msgs: seq<seq<byte>>, k: nat, queue: seq<Frag>, upto: nat)
    requires AllAccepted(mss, msgs) && k <= |msgs|
    requires |Stream(mss, msgs[..k])| <= upto <= |Stream(mss, msgs)|
    requires queue == Stream(mss, msgs)[|Stream(mss, msgs[..k])|..upto]
    ensures |queue| >= WND_RCV || (k < |msgs| && upto == |Stream(mss, msgs)|) ==> PeekSize(queue) >= 0
    ensures PeekSize(queue) >= 0 ==>
              k < |msgs| && MessageLen(queue) == |Cut(mss, msgs[k])|
              && Join(queue[..MessageLen(queue)]) == msgs[k]
  {
    hide Stream, Cut, PeekSize, MessageLen, Join;
    if k == |msgs| {
      assert msgs[..k] == msgs && queue == [];
      EmptyDelivers();
    } else {
      NextMessage(mss, msgs, k);
      CutRebuilds(mss, msgs[k]);
      var fs, c := Cut(mss, msgs[k]), |Stream(mss, msgs[..k])|;
      if c + |fs| <= upto {
        FrontOf(Stream(mss, msgs), c, |fs|, upto);
        WholeMessage(queue, fs);
      } else {
        PartOf(Stream(mss, msgs), c, |fs|, upto);
        PartMessage(queue, fs);
      }
    }
  }

  lemma EmptyDelivers()
    ensures PeekSize([]) == -1
  {}

  lemma FrontOf(s: seq<Frag>, c: nat, n: nat, upto: nat)
    requires c + n <= upto <= |s|
    ensures s[c..c + n] <= s[c..upto]
  {
    assert s[c..upto][..n] == s[c..c + n];
  }

  lemma PartOf(s: seq<Frag>, c: nat, n: nat, upto: nat)
    requires c <= upto < c + n <= |s|
    ensures s[c..upto] < s[c..c + n]
  {
    assert s[c..upto] == s[c..c + n][..upto - c];
  }
}
