/** Memory asked for, and filling part of a byte buffer while leaving the rest of it alone. */
module Buffers {
  import opened Bytes

  /** The heap.  Any request may be refused, unless memory is ample. */
  datatype Heap = Heap(ample: bool) {
    method Grant() returns (ok: bool)
      ensures ample ==> ok
    {
      ok := *;
      ok := ok || ample;
    }
  }

  method Fill(dst: array<byte>, from: int, to: int, v: byte)
    requires 0 <= from <= to <= dst.Length
    modifies dst
    ensures forall k :: 0 <= k < dst.Length ==>
      dst[k] == if from <= k < to then v else old(dst[k])
  {
    var i := from;
    while i < to
      invariant from <= i <= to
      invariant forall k :: 0 <= k < dst.Length ==>
        dst[k] == if from <= k < i then v else old(dst[k])
    {
      dst[i] := v;
      i := i + 1;
    }
  }

  /** Nothing outside [at, at + n) has changed. */
  twostate predicate OnlyWithin(dst: array<byte>, at: int, n: int)
    reads dst
  {
    forall k :: 0 <= k < dst.Length && !(at <= k < at + n) ==> dst[k] == old(dst[k])
  }
}
