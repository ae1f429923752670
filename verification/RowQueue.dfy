/** The queue of converted bytes between the device and the frontend: filled at the end,
    read from the front in pieces of any size, compacted before it is grown. */
module RowQueue {
  import opened Bytes
  import opened Buffers
  import opened ScanRows

  lemma Joined(s: seq<byte>, i: nat, j: nat, k: nat)
    requires i <= j <= k <= |s|
    ensures s[i..k] == s[i..j] + s[j..k]
  {
  }

  class Queue {
    var buf: array<byte>
    var len: nat
    var pos: nat

    ghost predicate Valid()
      reads this
    {
      pos <= len <= buf.Length
    }

    /** The bytes still to be delivered. */
    ghost function Contents(): seq<byte>
      reads this, buf
      requires Valid()
    {
      buf[pos..len]
    }

    constructor ()
      ensures Valid() && Contents() == [] && fresh(buf)
    {
      buf := new byte[0];
      len, pos := 0, 0;
    }

    method Clear()
      requires Valid()
      modifies `len, `pos
      ensures Valid() && Contents() == [] && pos == 0
    {
      len, pos := 0, 0;
    }

    /** Make room for `extra` more bytes without touching what is queued. */
    method Reserve(extra: nat)
      requires Valid()
      modifies this, buf
      ensures Valid() && len + extra <= buf.Length
      ensures Contents() == old(Contents())
      ensures (buf == old(buf) || fresh(buf)) && pos <= old(pos)
    {
      ghost var queued := Contents();
      if pos == len {
        len, pos := 0, 0;
      }
      if len + extra <= buf.Length {
        return;
      }
      if pos != 0 {
        Compact();
        if len + extra <= buf.Length {
          return;
        }
      }
      var cap := buf.Length;
      while cap < len + extra
        invariant cap >= buf.Length
        decreases len + extra - cap
      {
        cap := if cap != 0 then cap * 2 else 65536;
      }
      var bigger := new byte[cap](_ => 0);
      forall k | 0 <= k < len { bigger[k] := buf[k]; }
      buf := bigger;
      assert Contents() == queued;
    }

    /** Move what is queued to the front of the buffer. */
    method Compact()
      requires Valid()
      modifies `len, `pos, buf
      ensures Valid() && pos == 0
      ensures Contents() == old(Contents())
    {
      var n := len - pos;
      forall k | 0 <= k < n { buf[k] := buf[pos + k]; }
      len, pos := n, 0;
    }

    method AppendWhite(n: nat, v: byte)
      requires Valid()
      modifies this, buf
      ensures Valid() && (buf == old(buf) || fresh(buf)) && pos <= old(pos)
      ensures Contents() == old(Contents()) + seq(n, _ => v)
    {
      Reserve(n);
      ghost var queued := Contents();
      Fill(buf, len, len + n, v);
      len := len + n;
      assert Contents() == queued + seq(n, _ => v);
    }

    method AppendRow(job: Job, src: seq<byte>, avail: nat, row: nat)
      requires Valid() && job.Valid() && Holds(job, src, avail)
      modifies this, buf
      ensures Valid() && (buf == old(buf) || fresh(buf)) && pos <= old(pos)
      ensures Contents() == old(Contents()) + ConvertRow(job, src, avail, row)
    {
      var bpl := job.BytesPerLine();
      Reserve(bpl);
      ghost var queued := Contents();
      ConvertRowInto(job, src, avail, row, buf, len);
      Joined(buf[..], pos, len, len + bpl);
      assert buf[pos..len] == queued;
      len := len + bpl;
    }

    /** Hand over at most `max` of the queued bytes. */
    method Take(max: nat) returns (data: seq<byte>)
      requires Valid()
      modifies `pos
      ensures Valid() && |data| == Min(max, |old(Contents())|)
      ensures old(Contents()) == data + Contents()
    {
      var avail := len - pos;
      if avail > max {
        avail := max;
      }
      data := buf[pos..pos + avail];
      pos := pos + avail;
    }
  }
}
