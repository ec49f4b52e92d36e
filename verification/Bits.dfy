/** Words as their bits, least significant first. */
module Bits {
  function Repeat(b: bool, n: nat): (s: seq<bool>)
    ensures |s| == n && forall i :: 0 <= i < n ==> s[i] == b
  {
    seq(n, _ => b)
  }

  type Bits32 = s: seq<bool> | |s| == 32 witness seq(32, _ => false)

  function ShiftRight(w: Bits32): Bits32 {
    w[1..] + [false]
  }

  /** A word after `n` shifts to the right. */
  function Shifted(w: Bits32, n: nat): (s: Bits32)
    ensures s[0] == (n < 32 && w[n])
  {
    seq(32, k requires 0 <= k => k + n < 32 && w[k + n])
  }

  lemma NothingShifted(w: Bits32)
    ensures w == Shifted(w, 0)
  {}

  lemma ShiftedOnce(w: Bits32, n: nat)
    ensures ShiftRight(Shifted(w, n)) == Shifted(w, n + 1)
  {}
}
