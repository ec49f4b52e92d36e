/** memory_pool.c: a queue of pointers to seven static buffers. */
module MemoryPool {
  const BUFFER_NR := 7

  /** A buffer is named by its index in the static array. */
  type Buffer = nat

  function AllBuffers(n: nat): (s: seq<Buffer>)
    ensures |s| == n && forall i :: 0 <= i < n ==> s[i] == i
  {
    seq(n, i => i)
  }

  class Pool {
    var created: bool
    var free: seq<Buffer>

    constructor ()
      ensures !created && free == []
    {
      created, free := false, [];
    }

    /** The queue holds each buffer once; a second call changes nothing. */
    method Init()
      modifies this
      ensures created
      ensures free == if old(created) then old(free) else AllBuffers(BUFFER_NR)
    {
      if created {
        return;
      }
      created, free := true, [];
      for i := 0 to BUFFER_NR
        invariant created && free == AllBuffers(i)
      {
        free := free + [i];
      }
    }

    /** `ok` is the assertion that a pointer was received. */
    method Get() returns (ok: bool, b: Buffer)
      modifies `free
      ensures ok == (old(free) != [])
      ensures free == if ok then old(free)[1..] else old(free)
      ensures ok ==> b == old(free)[0]
    {
      if free == [] {
        return false, 0;
      }
      ok, b, free := true, free[0], free[1..];
    }

    /** The assertion that the queue has room is the precondition, which every
        run of RequestRunner meets. */
    method Put(b: Buffer)
      requires |free| < BUFFER_NR
      modifies `free
      ensures free == old(free) + [b]
    {
      free := free + [b];
    }
  }
}
