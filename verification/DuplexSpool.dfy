/** The manual duplex spool: pages written one after another to a temporary file, and where
    each of them sits. */
module DuplexSpool {
  import opened Buffers
  import opened Bytes
  import opened ZjStream

  datatype Slot = Slot(offset: nat, length: nat)

  const COPY_MAX := 65536

  class Spool {
    const file: Sink
    var slots: array<Slot>
    var count: nat

    ghost predicate Valid()
      reads this, slots, file
    {
      && count <= slots.Length
      && forall k :: 0 <= k < count ==> slots[k].offset + slots[k].length <= |file.data|
    }

    /** The bytes of every page marked so far. */
    ghost function Pages(): (pages: seq<seq<byte>>)
      reads this, slots, file
      requires Valid()
      ensures |pages| == count
    {
      seq(count, k requires 0 <= k < count && Valid() reads this, slots, file =>
        file.data[slots[k].offset..slots[k].offset + slots[k].length])
    }

    constructor (sound: bool)
      ensures Valid() && Pages() == [] && fresh(file) && fresh(slots)
      ensures file.data == [] && file.sound == sound
    {
      file := new Sink(sound);
      slots := new Slot[0];
      count := 0;
    }

    /** Writing more to the end of the file leaves the marked pages alone. */
    twostate lemma Extended()
      requires old(Valid()) && slots == old(slots) && unchanged(this, slots) && old(file.data) <= file.data
      ensures Valid() && Pages() == old(Pages())
    {
      forall k | 0 <= k < count ensures Pages()[k] == old(Pages()[k]) {
        assert slots[k].offset + slots[k].length <= |old(file.data)|;
      }
    }

    /** Where the next page will begin; the file may refuse to say. */
    method Position() returns (ok: bool, start: nat)
      ensures start == |file.data| && (file.sound ==> ok)
    {
      ok := file.Try();
      start := |file.data|;
    }

    /** Note down the newest page, which begins at `start`; the table doubles when it is full. */
    method Mark(start: nat, heap: Heap) returns (ok: bool)
      requires Valid() && start <= |file.data|
      modifies this, slots
      ensures Valid() && (slots == old(slots) || fresh(slots))
      ensures file.sound && heap.ample ==> ok
      ensures Pages() == if ok then old(Pages()) + [file.data[start..]] else old(Pages())
    {
      ok := file.Try();
      if ok && count == slots.Length {
        ok := Grow(heap);
      }
      if !ok {
        return;
      }
      slots[count] := Slot(start, |file.data| - start);
      count := count + 1;
      assert file.data[start..] == file.data[start..start + (|file.data| - start)];
    }

    method Grow(heap: Heap) returns (ok: bool)
      requires Valid() && count == slots.Length
      modifies this`slots
      ensures Valid() && Pages() == old(Pages()) && (heap.ample ==> ok)
      ensures if ok then fresh(slots) && slots.Length > count else slots == old(slots)
    {
      ok := heap.Grant();
      if !ok {
        return;
      }
      var bigger := new Slot[if slots.Length != 0 then slots.Length * 2 else 16];
      var i := 0;
      while i < count
        invariant 0 <= i <= count && Valid() && slots == old(slots)
        invariant forall k :: 0 <= k < i ==> bigger[k] == slots[k]
        modifies bigger
      {
        bigger[i] := slots[i];
        i := i + 1;
      }
      slots := bigger;
    }

    /** Copy one page out, at most 64 KiB at a time. */
    method Copy(index: nat, out: Sink) returns (ok: bool)
      requires Valid() && index < count && out != file
      modifies out
      ensures Valid() && Pages() == old(Pages())
      ensures out.sound && file.sound ==> ok
      ensures ok ==> out.data == old(out.data) + Pages()[index]
    {
      ok := file.Try();
      if !ok {
        return;
      }
      ghost var page := Pages()[index];
      var from, left := slots[index].offset, slots[index].length;
      assert page[..0] == [];
      while left > 0
        invariant 0 <= left <= |page| && from + left == slots[index].offset + |page| <= |file.data|
        invariant Valid() && file.data == old(file.data)
        invariant out.data == old(out.data) + page[..|page| - left]
      {
        var want := Min(left, COPY_MAX);
        ok := file.Try();
        if !ok {
          return;
        }
        var chunk := file.data[from..from + want];
        Piece(old(out.data), file.data, slots[index].offset, page, |page| - left, want);
        ok := out.Write(chunk);
        if !ok {
          return;
        }
        from, left := from + want, left - want;
      }
      assert page[..|page|] == page;
      ok := true;
    }
  }

  lemma Piece(start: seq<byte>, data: seq<byte>, offset: nat, page: seq<byte>, done: nat, want: nat)
    requires offset + |page| <= |data| && page == data[offset..offset + |page|]
    requires done + want <= |page|
    ensures start + page[..done] + data[offset + done..offset + done + want] == start + page[..done + want]
  {
  }
}
