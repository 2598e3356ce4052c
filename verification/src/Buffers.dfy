// The tunnel's buffer pool: a bounded channel of byte arrays.
module Buffers {
  import opened BufferPool

  type Byte = b: int | 0 <= b < 256

  class BufferManager {
    const bufferSize: int
    const maxBuffers: nat
    var pool: seq<array<Byte>>
    ghost var got: seq<array<Byte>>
    ghost var back: set<int>

    ghost function View(): Pool<array<Byte>>
      reads this
    {
      Pool(pool, got, back)
    }

    /** Within the capacity, with no buffer lost. */
    ghost predicate Valid()
      reads this
    {
      Conserved(maxBuffers, View())
    }

    ghost predicate Blank(b: array<Byte>)
      reads b
    {
      b.Length == bufferSize && forall k :: 0 <= k < b.Length ==> b[k] == 0
    }

    /** The pooled buffers have the right size and are zeroed, apart from what `user` may be writing to. */
    ghost predicate CleanBut(user: array?<Byte>)
      reads this, set b | b in pool
    {
      forall b :: b in pool ==> b.Length == bufferSize && (b != user ==> Blank(b))
    }

    ghost predicate Clean()
      reads this, set b | b in pool
    {
      CleanBut(null)
    }

    constructor (bufferSize: int, maxBuffers: nat)
      requires maxBuffers > 0 ==> bufferSize >= 0
      ensures Valid() && Clean() && Apart(View()) && got == [] && |pool| == maxBuffers
      ensures this.bufferSize == bufferSize && this.maxBuffers == maxBuffers
      ensures forall b :: b in pool ==> fresh(b)
    {
      this.bufferSize, this.maxBuffers := bufferSize, maxBuffers;
      pool, got, back := [], [], {};
      new;
      for i := 0 to maxBuffers
        invariant |pool| == i && got == [] && back == {} && Clean() && Apart(View())
        invariant forall b :: b in pool ==> fresh(b)
      {
        var b := new Byte[bufferSize](_ => 0);
        DistinctSnoc(pool, b);
        pool := pool + [b];
      }
    }

    /**
     * The buffer goes out under the next ticket. Null stands for the panic of
     * allocating a buffer of negative size; it leaves the pool alone.
     */
    method GetBuffer() returns (buf: array?<Byte>)
      requires Valid()
      modifies this`pool, this`got
      ensures Valid() && (old(Clean()) ==> Clean())
      ensures buf == null <==> old(pool) == [] && bufferSize < 0
      ensures buf == null ==> View() == old(View())
      ensures buf != null ==> View() == Do(maxBuffers, old(View()), Get(buf)) && got == old(got) + [buf]
      ensures buf != null && old(pool) == [] ==> fresh(buf)
      ensures old(pool) != [] ==> buf == old(pool[0])
      ensures buf != null && old(Clean()) ==> Blank(buf)
      ensures old(Apart(View())) ==> Apart(View())
      ensures old(Apart(View())) ==> forall i :: Holds(View(), i) && got[i] == buf ==> i == |old(got)|
    {
      ghost var p := View();
      if pool != [] {
        buf := pool[0];
        pool := pool[1..];
        assert buf in p.free;
      } else if bufferSize < 0 {
        return null;
      } else {
        buf := new Byte[bufferSize](_ => 0);
      }
      got := got + [buf];
      assert View() == Do(maxBuffers, p, Get(buf));
      ConservedStep(maxBuffers, p, Get(buf));
      if Apart(p) {
        GetApart(maxBuffers, p, buf);
      }
      assert forall b :: b in pool ==> b in old(pool);
    }

    /** How a buffer comes back: under its ticket, or as one the pool never handed out. */
    ghost predicate Returns(buf: array<Byte>, op: PoolOp<array<Byte>>)
      reads this
    {
      match op
      case Get(_) => false
      case GiveBack(i) => i < |got| && got[i] == buf
      case Donate(b) => b == buf && buf !in got
    }

    /**
     * Zeroes the buffer and puts it back if there is room. The buffers keep
     * one user each exactly if the return does not break that: a second
     * return, or one of a foreign buffer, with room for it while the buffer
     * is pooled or in use.
     */
    method ReturnBuffer(buf: array<Byte>, ghost op: PoolOp<array<Byte>>)
      requires Valid() && Returns(buf, op)
      modifies this`pool, this`back, buf
      ensures Valid() && View() == Do(maxBuffers, old(View()), op)
      ensures forall k :: 0 <= k < buf.Length ==> buf[k] == 0
      ensures old(Apart(View())) ==> (Apart(View()) <==> !old(Breaks(maxBuffers, View(), op)))
      ensures old(CleanBut(buf)) ==> (Clean() <==> |old(pool)| == maxBuffers || buf.Length == bufferSize)
    {
      ghost var p := View();
      Zero(buf);
      if |pool| < maxBuffers {
        pool := pool + [buf];
        assert pool[|pool| - 1] == buf;
      }
      back := if op.GiveBack? then back + {op.ticket} else back;
      assert View() == Do(maxBuffers, p, op);
      ConservedStep(maxBuffers, p, op);
      if Apart(p) {
        ApartStep(maxBuffers, p, op);
      }
      assert forall b :: b in pool ==> b == buf || b in old(pool);
    }

    method Zero(buf: array<Byte>)
      modifies buf
      ensures forall k :: 0 <= k < buf.Length ==> buf[k] == 0
    {
      for i := 0 to buf.Length
        invariant forall k :: 0 <= k < i ==> buf[k] == 0
      {
        buf[i] := 0;
      }
    }
  }

  /**
   * Null stands for the panic of making a channel of negative size or, for a
   * channel that is not empty, buffers of negative size.
   */
  method NewBufferManager(bufferSize: int, maxBuffers: int) returns (bm: BufferManager?)
    ensures bm == null <==> maxBuffers < 0 || (maxBuffers > 0 && bufferSize < 0)
    ensures bm != null ==> bm.Valid() && bm.bufferSize == bufferSize && |bm.pool| == bm.maxBuffers == maxBuffers
    ensures bm != null ==> bm.Clean() && Apart(bm.View()) && bm.got == []
    ensures bm != null ==> fresh(bm) && forall b :: b in bm.pool ==> fresh(b)
  {
    if maxBuffers < 0 || (maxBuffers > 0 && bufferSize < 0) {
      return null;
    }
    bm := new BufferManager(bufferSize, maxBuffers);
  }
}
