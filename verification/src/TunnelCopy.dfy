// One direction of a tunnel connection: borrow a buffer, copy until a read or
// a write fails, give the buffer back.
module TunnelCopy {
  import opened BufferPool
  import opened Buffers

  /** What one Read call yields; bytes that come together with an error are dropped. */
  datatype Read = Read(bytes: seq<Byte>, failed: bool)

  class TunnelStats {
    var bytesTransferred: int

    method UpdateBytesTransferred(n: int)
      modifies this
      ensures bytesTransferred == old(bytesTransferred) + n
    {
      bytesTransferred := bytesTransferred + n;
    }
  }

  /** The stream the peer receives from the i-th read on. After the last read the source reports its end. */
  function Forwarded(input: seq<Read>, writeOk: nat -> bool, i: nat): seq<Byte>
    requires i <= |input|
    decreases |input| - i
  {
    if i == |input| || input[i].failed then []
    else if |input[i].bytes| > 0 && !writeOk(i) then []
    else input[i].bytes + Forwarded(input, writeOk, i + 1)
  }

  /** Everything that was read from the i-th read on. */
  function Incoming(input: seq<Read>, i: nat): seq<Byte>
    requires i <= |input|
    decreases |input| - i
  {
    if i == |input| then [] else input[i].bytes + Incoming(input, i + 1)
  }

  /**
   * The peer receives a prefix of what was read, in order and unchanged; if
   * nothing fails it receives everything.
   */
  lemma {:induction false} ForwardedIsPrefix(input: seq<Read>, writeOk: nat -> bool, i: nat)
    requires i <= |input|
    ensures Forwarded(input, writeOk, i) <= Incoming(input, i)
    ensures (forall k :: i <= k < |input| ==> !input[k].failed && writeOk(k)) ==>
              Forwarded(input, writeOk, i) == Incoming(input, i)
    decreases |input| - i
  {
    if i < |input| {
      ForwardedIsPrefix(input, writeOk, i + 1);
    }
  }

  /** The i-th read is delivered: it does not fail and, if it yields bytes, neither does their write. */
  predicate Delivered(input: seq<Read>, writeOk: nat -> bool, i: nat)
    requires i < |input|
  {
    !input[i].failed && (input[i].bytes != [] ==> writeOk(i))
  }

  /** Exactly the reads before the first undelivered one reach the peer. */
  lemma {:induction false} ForwardedExactly(input: seq<Read>, writeOk: nat -> bool, i: nat, stop: nat)
    requires i <= stop <= |input| && forall k :: i <= k < stop ==> Delivered(input, writeOk, k)
    requires stop < |input| ==> !Delivered(input, writeOk, stop)
    ensures Forwarded(input, writeOk, i) == Incoming(input[..stop], i)
    decreases stop - i
  {
    var sent := input[..stop];
    if i == stop {
      assert Incoming(sent, i) == [];
    } else {
      ForwardedExactly(input, writeOk, i + 1, stop);
      assert Delivered(input, writeOk, i) && sent[i] == input[i];
      assert Incoming(sent, i) == sent[i].bytes + Incoming(sent, i + 1);
    }
  }

  method Fill(buffer: array<Byte>, bytes: seq<Byte>)
    requires |bytes| <= buffer.Length
    modifies buffer
    ensures buffer[..|bytes|] == bytes
  {
    for k := 0 to |bytes|
      invariant buffer[..k] == bytes[..k]
    {
      buffer[k] := bytes[k];
    }
  }

  lemma ForwardedStep(input: seq<Read>, writeOk: nat -> bool, i: nat, before: seq<Byte>)
    requires i < |input| && !input[i].failed
    ensures before + Forwarded(input, writeOk, i) ==
              (if |input[i].bytes| == 0 then before + Forwarded(input, writeOk, i + 1)
               else if writeOk(i) then before + input[i].bytes + Forwarded(input, writeOk, i + 1)
               else before)
  {
    if |input[i].bytes| == 0 {
      assert Forwarded(input, writeOk, i) == Forwarded(input, writeOk, i + 1);
    }
  }

  method CopyWith(buffer: array<Byte>, stats: TunnelStats, input: seq<Read>, writeOk: nat -> bool)
    returns (written: seq<Byte>)
    requires forall r :: r in input ==> |r.bytes| <= buffer.Length
    modifies buffer, stats
    ensures written == Forwarded(input, writeOk, 0)
    ensures stats.bytesTransferred == old(stats.bytesTransferred) + |written|
  {
    written := [];
    var i := 0;
    while i < |input|
      invariant i <= |input|
      invariant written + Forwarded(input, writeOk, i) == Forwarded(input, writeOk, 0)
      invariant stats.bytesTransferred == old(stats.bytesTransferred) + |written|
    {
      if input[i].failed {
        break;
      }
      var n := |input[i].bytes|;
      assert input[i] in input;
      Fill(buffer, input[i].bytes);
      ForwardedStep(input, writeOk, i, written);
      if n > 0 {
        if !writeOk(i) {
          break;
        }
        written := written + buffer[..n];
        stats.UpdateBytesTransferred(n);
      }
      i := i + 1;
    }
  }

  /**
   * Copies one direction; the pool is clean afterwards and has its buffer
   * back, and the buffers still have one user each. Every tunnel makes its
   * buffers of 4096 bytes.
   */
  method Copy(bm: BufferManager, stats: TunnelStats, input: seq<Read>, writeOk: nat -> bool)
    returns (written: seq<Byte>)
    requires bm.Valid() && bm.Clean()
    requires bm.bufferSize >= 0 && forall r :: r in input ==> |r.bytes| <= bm.bufferSize
    modifies bm`pool, bm`got, bm`back, stats, set b | b in bm.pool
    ensures bm.Valid() && bm.Clean() && HeldTickets(bm.View()) == old(HeldTickets(bm.View()))
    ensures old(Apart(bm.View())) ==> Apart(bm.View())
    ensures written == Forwarded(input, writeOk, 0)
    ensures stats.bytesTransferred == old(stats.bytesTransferred) + |written|
  {
    ghost var ticket := |bm.got|;
    var buffer := bm.GetBuffer();
    written := CopyWith(buffer, stats, input, writeOk);
    bm.ReturnBuffer(buffer, GiveBack(ticket));
  }
}
