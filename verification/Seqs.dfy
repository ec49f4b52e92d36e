/** Sequences. */
module Seqs {
  lemma Assoc<T>(a: seq<T>, b: seq<T>, c: seq<T>)
    ensures (a + b) + c == a + (b + c)
  {}

  lemma SliceOfSlice<T>(s: seq<T>, k: nat, i: nat, n: nat)
    requires k + i + n <= |s|
    ensures s[k..][i..i + n] == s[k + i..k + i + n]
  {}

  function Flatten<T>(ss: seq<seq<T>>): seq<T> {
    if ss == [] then [] else Flatten(ss[..|ss| - 1]) + ss[|ss| - 1]
  }

  lemma FlattenSnoc<T>(ss: seq<seq<T>>, s: seq<T>)
    ensures Flatten(ss + [s]) == Flatten(ss) + s
  {
    assert (ss + [s])[..|ss|] == ss;
  }

  lemma {:induction false} FlattenHead<T>(ss: seq<seq<T>>)
    requires ss != []
    ensures Flatten(ss) == ss[0] + Flatten(ss[1..])
  {
    var n := |ss| - 1;
    if n > 0 {
      FlattenHead(ss[..n]);
      assert ss[..n][1..] == ss[1..][..n - 1] && ss[1..][n - 1] == ss[n];
      Assoc(ss[0], Flatten(ss[1..][..n - 1]), ss[n]);
    } else {
      assert ss[..0] == [] && ss[1..] == [] && [] + ss[0] == ss[0] == ss[0] + [];
    }
  }
}
