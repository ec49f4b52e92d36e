/** Machine words: 32-bit wrap-around, signed views, bytes, and the circular
    comparison that every sequence-number and clock test is built on. */
module Words {
  type byte = x: int | 0 <= x < 0x100
  type u16 = x: int | 0 <= x < 0x1_0000
  type u32 = x: int | 0 <= x < 0x1_0000_0000

  /** Truncation to an unsigned 32-bit word. */
  function Wrap(x: int): u32 {
    x % 0x1_0000_0000
  }

  /** Truncation to a signed 32-bit word (two's complement). */
  function Signed(x: int): (s: int)
    ensures -0x8000_0000 <= s < 0x8000_0000
  {
    if Wrap(x) < 0x8000_0000 then Wrap(x) else Wrap(x) - 0x1_0000_0000
  }

  /** Division of C: truncates toward zero. */
  function Quot(a: int, b: int): int
    requires b > 0
  {
    if a >= 0 then a / b else -((-a) / b)
  }

  function Min(a: int, b: int): int { if a <= b then a else b }

  function Max(a: int, b: int): int { if a >= b then a else b }

  /** The signed distance between two points of the 32-bit circle. */
  function TimeDiff(later: u32, earlier: u32): int {
    Signed(later - earlier)
  }

  /** Circular comparison of two wrapped numbers is plain subtraction exactly
      when the numbers are less than half a circle apart. */
  lemma TimeDiffExact(a: int, b: int)
    ensures TimeDiff(Wrap(a), Wrap(b)) == a - b <==> -0x8000_0000 <= a - b < 0x8000_0000
  {
    hide Wrap, Signed;
    WrapDifference(a, b);
    if -0x8000_0000 <= a - b < 0x8000_0000 {
      SignedIs(Wrap(a) - Wrap(b), a - b);
    }
  }

  lemma WrapDifference(a: int, b: int)
    ensures Wrap(Wrap(a) - Wrap(b)) == Wrap(a - b)
  {
    var qa, qb := a / 0x1_0000_0000, b / 0x1_0000_0000;
    assert a - b == Wrap(a) - Wrap(b) + (qa - qb) * 0x1_0000_0000;
    WrapPeriodic(Wrap(a) - Wrap(b), qa - qb);
  }

  /** Adding whole turns of the circle changes nothing. */
  lemma WrapPeriodic(x: int, k: int)
    ensures Wrap(x + k * 0x1_0000_0000) == Wrap(x)
  {
    var q := x / 0x1_0000_0000;
    assert x + k * 0x1_0000_0000 == (q + k) * 0x1_0000_0000 + Wrap(x);
  }

  lemma WrapShift(a: int, k: int)
    ensures Wrap(Wrap(a) + k) == Wrap(a + k)
  {
    var q := a / 0x1_0000_0000;
    assert a + k == Wrap(a) + k + q * 0x1_0000_0000;
    WrapPeriodic(Wrap(a) + k, q);
  }

  /** Two numbers less than a full circle apart have equal wrapped forms only
      when they are equal. */
  lemma WrapInjective(a: int, b: int)
    requires Wrap(a) == Wrap(b)
    requires -0x1_0000_0000 < a - b < 0x1_0000_0000
    ensures a == b
  {}

  lemma WrapSame(x: u32)
    ensures Wrap(x) == x
  {}

  /** The signed view depends on the wrapped form only. */
  lemma SignedIs(x: int, y: int)
    requires Wrap(x) == Wrap(y) && -0x8000_0000 <= y < 0x8000_0000
    ensures Signed(x) == y
  {}

  lemma SignedNegated(d: int)
    requires -0x8000_0000 < Signed(d) < 0
    ensures Signed(-d) == Wrap(-d) == -Signed(d)
  {
    var q := d / 0x1_0000_0000;
    assert -d == -Signed(d) + (-q - 1) * 0x1_0000_0000;
    WrapPeriodic(-Signed(d), -q - 1);
  }
}
