/** The masking of websocket_server.c: word at a time on a buffer in place, and the
    rotated mask that carries on in the next piece (section 5.3 of RFC 6455). */
module WsMask {
  import opened Seqs

  type Key = k: seq<bv8> | |k| == 4 witness [0, 0, 0, 0]

  // ---- a mask as a little-endian word ----

  function Word(b0: bv8, b1: bv8, b2: bv8, b3: bv8): bv32 {
    (b0 as bv32) | ((b1 as bv32) << 8) | ((b2 as bv32) << 16) | ((b3 as bv32) << 24)
  }

  function ByteOf(w: bv32, i: nat): bv8
    requires i < 4
  {
    if i == 0 then (w & 0xFF) as bv8
    else if i == 1 then ((w >> 8) & 0xFF) as bv8
    else if i == 2 then ((w >> 16) & 0xFF) as bv8
    else ((w >> 24) & 0xFF) as bv8
  }

  function BytesOf(w: bv32): (k: Key) {
    [ByteOf(w, 0), ByteOf(w, 1), ByteOf(w, 2), ByteOf(w, 3)]
  }

  /** co_rotr32 for the amounts that are used. */
  function RotateRight(n: bv32, c: bv32): bv32
    requires 0 < c < 32
  {
    (n >> c) | (n << (32 - c))
  }

  function XorByte(a: bv8, b: bv8): bv8 {
    a ^ b
  }

  function XorWord(v: bv32, w: bv32): bv32 {
    v ^ w
  }

  lemma WordOfBytes(b0: bv8, b1: bv8, b2: bv8, b3: bv8)
    ensures BytesOf(Word(b0, b1, b2, b3)) == [b0, b1, b2, b3]
  {}

  lemma XorAt0(v: bv32, w: bv32)
    ensures ByteOf(XorWord(v, w), 0) == XorByte(ByteOf(v, 0), ByteOf(w, 0))
  {}

  lemma XorAt1(v: bv32, w: bv32)
    ensures ByteOf(XorWord(v, w), 1) == XorByte(ByteOf(v, 1), ByteOf(w, 1))
  {}

  lemma XorAt2(v: bv32, w: bv32)
    ensures ByteOf(XorWord(v, w), 2) == XorByte(ByteOf(v, 2), ByteOf(w, 2))
  {}

  lemma XorAt3(v: bv32, w: bv32)
    ensures ByteOf(XorWord(v, w), 3) == XorByte(ByteOf(v, 3), ByteOf(w, 3))
  {}

  // ---- masking one byte at a time ----

  function KeyAt(key: Key, i: nat): bv8 {
    key[i % 4]
  }

  /** Byte `i` is combined with byte `i % 4` of the key. */
  function Masked(s: seq<bv8>, key: Key): (r: seq<bv8>)
    ensures |r| == |s| && forall i :: 0 <= i < |s| ==> r[i] == XorByte(s[i], KeyAt(key, i))
  {
    seq(|s|, i requires 0 <= i < |s| => XorByte(s[i], KeyAt(key, i)))
  }

  /** The key that byte `n` of the payload sees first. */
  function Turned(key: Key, n: nat): Key {
    [KeyAt(key, n), KeyAt(key, n + 1), KeyAt(key, n + 2), KeyAt(key, n + 3)]
  }

  lemma RestAdds(n: nat, i: nat)
    ensures (n + i % 4) % 4 == (n + i) % 4
  {
    assert n + i == n + i % 4 + 4 * (i / 4);
  }

  lemma TurnedAt(key: Key, n: nat, i: nat)
    ensures KeyAt(Turned(key, n), i) == KeyAt(key, n + i)
  {
    hide Turned;
    RestAdds(n, i);
    TurnedBytes(key, n, i % 4);
  }

  lemma TurnedBytes(key: Key, n: nat, r: nat)
    requires r < 4
    ensures Turned(key, n)[r] == KeyAt(key, n + r)
  {
    hide KeyAt;
  }

  /** co_websocket_get_new_mask turns the key by the length of the piece. */
  function NewMask(mask: bv32, len: nat): bv32 {
    if len % 4 == 1 then RotateRight(mask, 8)
    else if len % 4 == 2 then RotateRight(mask, 16)
    else if len % 4 == 3 then RotateRight(mask, 24)
    else mask
  }

  lemma RotatedBy8(w: bv32)
    ensures ByteOf(RotateRight(w, 8), 0) == ByteOf(w, 1)
    ensures ByteOf(RotateRight(w, 8), 1) == ByteOf(w, 2)
    ensures ByteOf(RotateRight(w, 8), 2) == ByteOf(w, 3)
    ensures ByteOf(RotateRight(w, 8), 3) == ByteOf(w, 0)
  {}

  lemma RotatedBy16(w: bv32)
    ensures ByteOf(RotateRight(w, 16), 0) == ByteOf(w, 2)
    ensures ByteOf(RotateRight(w, 16), 1) == ByteOf(w, 3)
    ensures ByteOf(RotateRight(w, 16), 2) == ByteOf(w, 0)
    ensures ByteOf(RotateRight(w, 16), 3) == ByteOf(w, 1)
  {}

  lemma RotatedBy24(w: bv32)
    ensures ByteOf(RotateRight(w, 24), 0) == ByteOf(w, 3)
    ensures ByteOf(RotateRight(w, 24), 1) == ByteOf(w, 0)
    ensures ByteOf(RotateRight(w, 24), 2) == ByteOf(w, 1)
    ensures ByteOf(RotateRight(w, 24), 3) == ByteOf(w, 2)
  {}

  lemma RotatedBytes(mask: bv32)
    ensures BytesOf(RotateRight(mask, 8)) == Turned(BytesOf(mask), 1)
    ensures BytesOf(RotateRight(mask, 16)) == Turned(BytesOf(mask), 2)
    ensures BytesOf(RotateRight(mask, 24)) == Turned(BytesOf(mask), 3)
  {
    hide RotateRight, ByteOf;
    RotatedBy8(mask);
    RotatedBy16(mask);
    RotatedBy24(mask);
  }

  lemma NewMaskTurns(mask: bv32, len: nat)
    ensures BytesOf(NewMask(mask, len)) == Turned(BytesOf(mask), len)
  {
    hide RotateRight, ByteOf;
    RotatedBytes(mask);
    var k := BytesOf(mask);
    assert Turned(k, len) == Turned(k, len % 4) by {
      assert (len + 1) % 4 == (len % 4 + 1) % 4 && (len + 2) % 4 == (len % 4 + 2) % 4 && (len + 3) % 4 == (len % 4 + 3) % 4;
    }
    assert Turned(k, 0) == k;
  }

  /** A payload masked in two pieces, the second with the turned key, is masked whole. */
  lemma MaskedInPieces(a: seq<bv8>, b: seq<bv8>, key: Key)
    ensures Masked(a + b, key) == Masked(a, key) + Masked(b, Turned(key, |a|))
  {
    forall i | 0 <= i < |b| ensures Masked(a + b, key)[|a| + i] == Masked(b, Turned(key, |a|))[i] {
      TurnedAt(key, |a|, i);
    }
    assert Masked(a + b, key) == Masked(a, key) + Masked(b, Turned(key, |a|));
  }

  lemma TurnedTwice(key: Key, n: nat, k: nat)
    ensures Turned(Turned(key, n), k) == Turned(key, n + k)
  {
    TurnedAt(key, n, k);
    TurnedAt(key, n, k + 1);
    TurnedAt(key, n, k + 2);
    TurnedAt(key, n, k + 3);
  }

  /** Masking any split of a payload piece by piece, each with the key the one
      before left, is masking the whole. */
  function MaskedPieces(pieces: seq<seq<bv8>>, mask: bv32): seq<bv8> {
    if pieces == [] then []
    else Masked(pieces[0], BytesOf(mask)) + MaskedPieces(pieces[1..], NewMask(mask, |pieces[0]|))
  }

  lemma {:induction false} PiecewiseIsWhole(pieces: seq<seq<bv8>>, mask: bv32)
    ensures MaskedPieces(pieces, mask) == Masked(Flatten(pieces), BytesOf(mask))
  {
    if pieces == [] {
    } else {
      PiecewiseIsWhole(pieces[1..], NewMask(mask, |pieces[0]|));
      NewMaskTurns(mask, |pieces[0]|);
      MaskedInPieces(pieces[0], Flatten(pieces[1..]), BytesOf(mask));
      FlattenHead(pieces);
    }
  }

  /** Masking is its own inverse. */
  lemma MaskedTwice(s: seq<bv8>, key: Key)
    ensures Masked(Masked(s, key), key) == s
  {
    forall i | 0 <= i < |s| ensures Masked(Masked(s, key), key)[i] == s[i] {
      XorBack(s[i], KeyAt(key, i));
    }
  }

  lemma XorBack(a: bv8, b: bv8)
    ensures XorByte(XorByte(a, b), b) == a
  {}

  // ---- the fast form ----

  lemma KeyAtIs(key: Key, i: nat)
    ensures KeyAt(key, i) == key[i % 4]
  {}

  /** Byte `i` of the stretch from `off` on is masked when `i` is below `done`. */
  ghost predicate Partly(now: seq<bv8>, was: seq<bv8>, key: Key, off: nat, done: nat) {
    && |now| == |was| && off + done <= |was|
    && (forall j :: 0 <= j < |was| && !(off <= j < off + done) ==> now[j] == was[j])
    && (forall j :: off <= j < off + done ==> now[j] == XorByte(was[j], KeyAt(key, j - off)))
  }

  /** The bytes one by one, with the key that is turned by what is already done. */
  method MaskBytes(a: array<bv8>, mask: bv32, off: nat, done: nat, len: nat, ghost was: seq<bv8>, ghost key: Key)
    requires off + done + len <= a.Length && Partly(a[..], was, key, off, done)
    requires BytesOf(mask) == Turned(key, done)
    modifies a
    ensures Partly(a[..], was, key, off, done + len)
  {
    hide BytesOf, Turned, KeyAt, XorByte;
    var pMask := BytesOf(mask);
    var i := 0;
    while i < len
      invariant i <= len && Partly(a[..], was, key, off, done + i)
    {
      TurnedAt(key, done, i);
      assert pMask[i % 4] == KeyAt(pMask, i) by { KeyAtIs(pMask, i); }
      a[off + done + i] := XorByte(a[off + done + i], pMask[i % 4]);
      i := i + 1;
    }
  }

  lemma FourMore(now: seq<bv8>, next: seq<bv8>, was: seq<bv8>, key: Key, off: nat, done: nat)
    requires off + done + 4 <= |now| == |next| && Partly(now, was, key, off, done)
    requires forall j :: 0 <= j < |now| && !(off + done <= j < off + done + 4) ==> next[j] == now[j]
    requires next[off + done] == XorByte(now[off + done], KeyAt(key, done))
    requires next[off + done + 1] == XorByte(now[off + done + 1], KeyAt(key, done + 1))
    requires next[off + done + 2] == XorByte(now[off + done + 2], KeyAt(key, done + 2))
    requires next[off + done + 3] == XorByte(now[off + done + 3], KeyAt(key, done + 3))
    ensures Partly(next, was, key, off, done + 4)
  {
    hide KeyAt, XorByte;
  }

  /** The bytes of a masked word. */
  lemma WordMasked(b0: bv8, b1: bv8, b2: bv8, b3: bv8, mask: bv32)
    ensures var k := BytesOf(mask);
            BytesOf(XorWord(Word(b0, b1, b2, b3), mask)) == [XorByte(b0, k[0]), XorByte(b1, k[1]), XorByte(b2, k[2]), XorByte(b3, k[3])]
  {
    hide Word, ByteOf, XorWord, XorByte;
    WordOfBytes(b0, b1, b2, b3);
    var w := Word(b0, b1, b2, b3);
    XorAt0(w, mask);
    XorAt1(w, mask);
    XorAt2(w, mask);
    XorAt3(w, mask);
  }

  /** One word, at an aligned address. */
  method MaskWord(a: array<bv8>, base: nat, mask: bv32, off: nat, done: nat, ghost was: seq<bv8>, ghost key: Key)
    requires (base + off + done) % 4 == 0
    requires off + done + 4 <= a.Length && Partly(a[..], was, key, off, done)
    requires BytesOf(mask) == Turned(key, done)
    modifies a
    ensures Partly(a[..], was, key, off, done + 4)
  {
    hide Word, BytesOf, Partly, KeyAt, XorWord, XorByte;
    var d := off + done;
    ghost var now := a[..];
    var w := Word(a[d], a[d + 1], a[d + 2], a[d + 3]);
    WordMasked(a[d], a[d + 1], a[d + 2], a[d + 3], mask);
    var x := BytesOf(XorWord(w, mask));
    a[d], a[d + 1], a[d + 2], a[d + 3] := x[0], x[1], x[2], x[3];
    FourMore(now, a[..], was, key, off, done);
  }

  /** co_websocket_fast_mask on the `len` bytes from `off` on, where the buffer
      lies at address `base`. */
  method FastMask(a: array<bv8>, base: nat, off: nat, mask: bv32, len: nat)
    requires off + len <= a.Length
    modifies a
    ensures a[..] == old(a[..off]) + Masked(old(a[off..off + len]), BytesOf(mask)) + old(a[off + len..])
  {
    hide BytesOf, Turned, NewMask, KeyAt, XorByte, Partly;
    ghost var was, key := a[..], BytesOf(mask);
    var done, newMask := 0, mask;
    KeyUnturned(key);
    assert Partly(was, was, key, off, 0) by { NothingMasked(was, key, off); }
    if len >= 8 {
      var alignLen := (4 - (base + off) % 4) % 4;
      MaskBytes(a, mask, off, 0, alignLen, was, key);
      newMask := NewMask(mask, alignLen);
      NewMaskTurns(mask, alignLen);
      done := alignLen;
      var i := 0;
      while i < (len - alignLen) / 4
        invariant i <= (len - alignLen) / 4 && done == alignLen + 4 * i && (base + off + done) % 4 == 0
        invariant Partly(a[..], was, key, off, done) && BytesOf(newMask) == Turned(key, done)
      {
        MaskWord(a, base, newMask, off, done, was, key);
        SameTurn(key, done);
        done := done + 4;
        i := i + 1;
      }
    }
    MaskBytes(a, newMask, off, done, len - done, was, key);
    PartlyIsMasked(a[..], was, key, off, len);
  }

  lemma PartlyIsMasked(now: seq<bv8>, was: seq<bv8>, key: Key, off: nat, len: nat)
    requires off + len <= |was| && Partly(now, was, key, off, len)
    ensures now == was[..off] + Masked(was[off..off + len], key) + was[off + len..]
  {
    hide KeyAt, XorByte;
  }

  lemma NothingMasked(was: seq<bv8>, key: Key, off: nat)
    requires off <= |was|
    ensures Partly(was, was, key, off, 0)
  {}

  lemma KeyUnturned(key: Key)
    ensures Turned(key, 0) == key
  {}

  lemma SameTurn(key: Key, n: nat)
    ensures Turned(key, n + 4) == Turned(key, n)
  {
    TurnedAt(key, n, 4);
    TurnedAt(key, n, 5);
    TurnedAt(key, n, 6);
    TurnedAt(key, n, 7);
  }
}
