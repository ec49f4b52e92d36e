/** dap_utility.h and dap_utility.c: parity by folding and by a table. */
module Parity {
  import opened Bits

  predicate Xor(a: bool, b: bool) {
    a != b
  }

  /** The sum of the bits, modulo 2. */
  predicate XorAll(s: seq<bool>) {
    s != [] && Xor(XorAll(s[..|s| - 1]), s[|s| - 1])
  }

  function ZipXor(a: seq<bool>, b: seq<bool>): (r: seq<bool>)
    requires |a| == |b|
    ensures |r| == |a|
  {
    seq(|a|, i requires 0 <= i < |a| => Xor(a[i], b[i]))
  }

  lemma {:induction false} XorConcat(a: seq<bool>, b: seq<bool>)
    ensures XorAll(a + b) == Xor(XorAll(a), XorAll(b))
  {
    if b == [] {
      assert a + b == a;
    } else {
      XorConcat(a, b[..|b| - 1]);
      assert (a + b)[..|a + b| - 1] == a + b[..|b| - 1];
    }
  }

  lemma {:induction false} XorZip(a: seq<bool>, b: seq<bool>)
    requires |a| == |b|
    ensures XorAll(ZipXor(a, b)) == Xor(XorAll(a), XorAll(b))
  {
    if a != [] {
      var n := |a| - 1;
      XorZip(a[..n], b[..n]);
      assert ZipXor(a, b)[..n] == ZipXor(a[..n], b[..n]);
    }
  }

  /** `v ^= v >> n`. */
  function FoldBy(v: Bits32, n: nat): Bits32 {
    seq(32, i requires 0 <= i < 32 => Xor(v[i], i + n < 32 && v[i + n]))
  }

  lemma FoldKeeps(v: Bits32, n: nat)
    requires 2 * n <= 32
    ensures XorAll(FoldBy(v, n)[..n]) == XorAll(v[..2 * n])
  {
    assert FoldBy(v, n)[..n] == ZipXor(v[..n], v[n..2 * n]);
    XorZip(v[..n], v[n..2 * n]);
    XorConcat(v[..n], v[n..2 * n]);
    assert v[..2 * n] == v[..n] + v[n..2 * n];
  }

  /** The bits of 0x6996, least significant first. */
  const FOLD_TABLE: seq<bool> := [false, true, true, false, true, false, false, true,
                                  true, false, false, true, false, true, true, false]

  function Nibble(s: seq<bool>): (n: nat)
    requires |s| >= 4
    ensures n < 16
  {
    (if s[0] then 1 else 0) + (if s[1] then 2 else 0) + (if s[2] then 4 else 0) + (if s[3] then 8 else 0)
  }

  /** ParityEvenUint32: three folds, then a look at the low four bits. */
  predicate ParityEvenUint32(v: Bits32) {
    FOLD_TABLE[Nibble(FoldBy(FoldBy(FoldBy(v, 16), 8), 4))]
  }

  lemma FoldTableIsParity(s: seq<bool>)
    requires |s| == 4
    ensures FOLD_TABLE[Nibble(s)] == XorAll(s)
  {
    var s3, s2, s1 := s[..3], s[..2], s[..1];
    assert s3[..2] == s2 && s2[..1] == s1 && s1[..0] == [];
    assert XorAll(s1) == s[0];
    assert XorAll(s2) == Xor(s[0], s[1]);
    assert XorAll(s3) == Xor(XorAll(s2), s[2]);
  }

  lemma LowNibble(s: seq<bool>)
    requires |s| >= 4
    ensures Nibble(s[..4]) == Nibble(s)
  {}

  /** The folded parity is the sum of the bits. */
  lemma FoldedParity(v: Bits32)
    ensures ParityEvenUint32(v) == XorAll(v)
  {
    hide FoldBy, XorAll, Nibble;
    var a := FoldBy(v, 16);
    var b := FoldBy(a, 8);
    var c := FoldBy(b, 4);
    FoldKeeps(v, 16);
    FoldKeeps(a, 8);
    FoldKeeps(b, 4);
    assert v[..32] == v;
    FoldTableIsParity(c[..4]);
    LowNibble(c);
  }

  // ---- the byte table ----

  function P2(n: bool): (t: seq<bool>)
    ensures |t| == 4
  {
    [n, !n, !n, n]
  }

  /** The shape of each macro: a table, its opposite twice, the table again. */
  function Quad(t: seq<bool>, u: seq<bool>): (r: seq<bool>)
    ensures |r| == 2 * |t| + 2 * |u|
  {
    t + u + u + t
  }

  lemma QuadAt(t: seq<bool>, u: seq<bool>, q: nat, i: nat)
    requires |t| == |u| && q < 4 && i < |t|
    ensures Quad(t, u)[q * |t| + i] == if q == 0 || q == 3 then t[i] else u[i]
  {
    assert q == 0 || q == 1 || q == 2 || q == 3;
  }

  function P4(n: bool): (t: seq<bool>)
    ensures |t| == 16
  {
    Quad(P2(n), P2(!n))
  }

  function P6(n: bool): (t: seq<bool>)
    ensures |t| == 64
  {
    Quad(P4(n), P4(!n))
  }

  const BYTE_TABLE: seq<bool> := Quad(P6(false), P6(true))

  /** Whether a number has an odd number of ones. */
  predicate Odd(v: nat) {
    v != 0 && Xor(v % 2 == 1, Odd(v / 2))
  }

  lemma OddQuarter(v: nat)
    ensures Odd(v) == Xor(Odd(v / 4), Odd(v % 4))
  {
    assert v / 2 / 2 == v / 4 && v % 4 / 2 == v / 2 % 2 && v % 4 % 2 == v % 2;
    assert Odd(v % 4) == Xor(v % 2 == 1, v / 2 % 2 == 1);
  }

  lemma OddSixteenth(v: nat)
    ensures Odd(v) == Xor(Odd(v / 16), Odd(v % 16))
  {
    OddQuarter(v);
    OddQuarter(v / 4);
    OddQuarter(v % 16);
    assert v / 4 / 4 == v / 16 && v % 16 / 4 == v / 4 % 4 && v % 16 % 4 == v % 4;
  }

  lemma OddSixtyFourth(v: nat)
    ensures Odd(v) == Xor(Odd(v / 64), Odd(v % 64))
  {
    OddSixteenth(v);
    OddQuarter(v / 16);
    OddSixteenth(v % 64);
    assert v / 16 / 4 == v / 64 && v % 64 / 16 == v / 16 % 4 && v % 64 % 16 == v % 16;
  }

  lemma P2IsParity(n: bool, v: nat)
    requires v < 4
    ensures P2(n)[v] == Xor(n, Odd(v))
  {}

  lemma P4IsParity(n: bool, v: nat)
    requires v < 16
    ensures P4(n)[v] == Xor(n, Odd(v))
  {
    OddQuarter(v);
    P2IsParity(n, v % 4);
    P2IsParity(!n, v % 4);
    P2IsParity(n, v / 4);
    QuadAt(P2(n), P2(!n), v / 4, v % 4);
  }

  lemma P6IsParity(n: bool, v: nat)
    requires v < 64
    ensures P6(n)[v] == Xor(n, Odd(v))
  {
    hide P4, Odd, Quad;
    OddSixteenth(v);
    P4IsParity(n, v % 16);
    P4IsParity(!n, v % 16);
    P2IsParity(n, v / 16);
    QuadAt(P4(n), P4(!n), v / 16, v % 16);
  }

  /** The table the macros build is the parity of its index. */
  lemma ByteTableIsParity(v: nat)
    requires v < 256
    ensures BYTE_TABLE[v] == Odd(v)
  {
    hide P6, Odd, Quad;
    OddSixtyFourth(v);
    P6IsParity(false, v % 64);
    P6IsParity(true, v % 64);
    P2IsParity(false, v / 64);
    QuadAt(P6(false), P6(true), v / 64, v % 64);
  }
}
