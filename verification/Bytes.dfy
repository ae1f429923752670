/** Bytes, their bits counted from the most significant, and big-endian words. */
module Bytes {
  type byte = x: int | 0 <= x < 256

  type word = x: int | 0 <= x < 0x1_0000_0000

  /** x >> n */
  function Halved(x: nat, n: nat): nat {
    if n == 0 then x else Halved(x / 2, n - 1)
  }

  /** Bit k of a byte, bit 0 being the most significant: b & (0x80 >> k). */
  predicate Bit(b: byte, k: int)
    requires 0 <= k < 8
  {
    Halved(b, 7 - k) % 2 == 1
  }

  function Two(n: nat): nat { if n == 0 then 1 else 2 * Two(n - 1) }

  /** The number whose binary digits are given, most significant first. */
  function Number(bits: seq<bool>): (x: nat)
    ensures x < Two(|bits|)
  {
    if bits == [] then 0
    else
      var last := |bits| - 1;
      2 * Number(bits[..last]) + if bits[last] then 1 else 0
  }

  function Digits(x: nat, n: nat): (bits: seq<bool>)
    ensures |bits| == n
  {
    if n == 0 then [] else Digits(x / 2, n - 1) + [x % 2 == 1]
  }

  lemma {:induction false} DigitAt(x: nat, n: nat, k: int)
    requires 0 <= k < n
    ensures Digits(x, n)[k] <==> Halved(x, n - 1 - k) % 2 == 1
  {
    if k < n - 1 {
      DigitAt(x / 2, n - 1, k);
    }
  }

  lemma {:induction false} NumberOfDigits(x: nat, n: nat)
    requires x < Two(n)
    ensures Number(Digits(x, n)) == x
  {
    if n > 0 {
      NumberOfDigits(x / 2, n - 1);
      assert Digits(x, n)[..n - 1] == Digits(x / 2, n - 1);
    }
  }

  lemma {:induction false} DigitsOfNumber(bits: seq<bool>)
    ensures Digits(Number(bits), |bits|) == bits
  {
    if bits != [] {
      var last := |bits| - 1;
      DigitsOfNumber(bits[..last]);
      assert bits == bits[..last] + [bits[last]];
    }
  }

  lemma ByteRange()
    ensures Two(8) == 256
  {
  }

  function Bits(b: byte): (bits: seq<bool>)
    ensures |bits| == 8
    ensures forall k :: 0 <= k < 8 ==> bits[k] == Bit(b, k)
  {
    assert forall k :: 0 <= k < 8 ==> Digits(b, 8)[k] == Bit(b, k) by {
      forall k | 0 <= k < 8 ensures Digits(b, 8)[k] == Bit(b, k) { DigitAt(b, 8, k); }
    }
    Digits(b, 8)
  }

  /** The byte with the given bits. */
  function FromBits(bits: seq<bool>): (b: byte)
    requires |bits| == 8
    ensures forall k :: 0 <= k < 8 ==> Bit(b, k) == bits[k]
  {
    ByteRange();
    DigitsOfNumber(bits);
    assert Bits(Number(bits)) == bits;
    Number(bits)
  }

  /** A byte is determined by its bits. */
  lemma ByteOfBits(a: byte, b: byte)
    requires forall k :: 0 <= k < 8 ==> Bit(a, k) == Bit(b, k)
    ensures a == b
  {
    ByteRange();
    NumberOfDigits(a, 8);
    NumberOfDigits(b, 8);
    assert Bits(a) == Bits(b);
  }

  /** b |= 0x80 >> k */
  function WithBit(b: byte, k: int): (r: byte)
    requires 0 <= k < 8
    ensures forall j :: 0 <= j < 8 ==> Bit(r, j) == (j == k || Bit(b, j))
  {
    FromBits(Bits(b)[k := true])
  }

  function Be32(w: word): (s: seq<byte>)
    ensures |s| == 4
  {
    Be16(w / 0x1_0000) + Be16(w % 0x1_0000)
  }

  function Be16(w: int): (s: seq<byte>)
    requires 0 <= w < 0x1_0000
    ensures |s| == 2
  {
    [w / 256, w % 256]
  }

  function GetBe16(s: seq<byte>): (w: int)
    requires |s| >= 2
    ensures 0 <= w < 0x1_0000
  {
    var hi: int, lo: int := s[0], s[1];
    hi * 256 + lo
  }

  function GetBe32(s: seq<byte>): word
    requires |s| >= 4
  {
    GetBe16(s) * 0x1_0000 + GetBe16(s[2..])
  }

  lemma Be32RoundTrip(w: word, rest: seq<byte>)
    ensures GetBe32(Be32(w) + rest) == w
  {
  }

  /** The big-endian words of a run of bytes. */
  function Words(s: seq<byte>): (w: seq<word>)
    ensures |w| == |s| / 4
  {
    if |s| < 4 then [] else [GetBe32(s)] + Words(s[4..])
  }

  lemma WordsCons(w: word, rest: seq<byte>)
    ensures Words(Be32(w) + rest) == [w] + Words(rest)
  {
  }

  /** Words laid out one after another. */
  function WordBytes(words: seq<word>): (s: seq<byte>)
    ensures |s| == 4 * |words|
  {
    if words == [] then [] else Be32(words[0]) + WordBytes(words[1..])
  }

  lemma WordsLaidOut(w: word, others: seq<word>, bytes: seq<byte>, rest: seq<byte>)
    requires Words(bytes + rest) == others + Words(rest)
    ensures Words(Be32(w) + bytes + rest) == [w] + others + Words(rest)
  {
    WordsCons(w, bytes + rest);
    assert Be32(w) + bytes + rest == Be32(w) + (bytes + rest);
    var more := Words(rest);
    assert [w] + others + more == [w] + (others + more);
  }

  lemma {:induction false} WordsRoundTrip(words: seq<word>, rest: seq<byte>)
    ensures Words(WordBytes(words) + rest) == words + Words(rest)
  {
    if words == [] {
      assert WordBytes(words) + rest == rest;
    } else {
      WordsRoundTrip(words[1..], rest);
      WordsLaidOut(words[0], words[1..], WordBytes(words[1..]), rest);
      assert words == [words[0]] + words[1..];
    }
  }

  function Min(a: int, b: int): int { if a < b then a else b }

  function Max(a: int, b: int): int { if a > b then a else b }

  /** The same elements, last one first. */
  function Reversed<T>(s: seq<T>): (r: seq<T>)
    ensures |r| == |s|
  {
    seq(|s|, k requires 0 <= k < |s| => s[|s| - 1 - k])
  }

  /** All the pieces, in order. */
  function Flatten<T>(pieces: seq<seq<T>>): seq<T> {
    if pieces == [] then [] else pieces[0] + Flatten(pieces[1..])
  }

  lemma {:induction false} FlattenConcat<T>(a: seq<seq<T>>, b: seq<seq<T>>)
    ensures Flatten(a + b) == Flatten(a) + Flatten(b)
  {
    if a == [] {
      assert a + b == b;
    } else {
      assert (a + b)[1..] == a[1..] + b;
      FlattenConcat(a[1..], b);
    }
  }

  lemma FlattenSnoc<T>(a: seq<seq<T>>, piece: seq<T>)
    ensures Flatten(a + [piece]) == Flatten(a) + piece
  {
    FlattenConcat(a, [piece]);
    assert Flatten([piece]) == piece + Flatten<T>([]);
  }

  lemma {:induction false} FlattenSize<T>(a: seq<seq<T>>, each: nat)
    requires forall k :: 0 <= k < |a| ==> |a[k]| == each
    ensures |Flatten(a)| == |a| * each
  {
    if a != [] {
      FlattenSize(a[1..], each);
    }
  }

  lemma InTurn<T>(a: seq<T>, b: seq<T>, c: seq<T>)
    ensures a + b + c == a + (b + c)
    ensures a + b + [] == a + b && a + [] == a
  {
  }

  /** `rest` is what is left of `all` behind some first part of it. */
  ghost predicate Tail<T>(rest: seq<T>, all: seq<T>) {
    |rest| <= |all| && rest == all[|all| - |rest|..]
  }

  lemma TailOfTail<T>(a: seq<T>, b: seq<T>, c: seq<T>)
    requires Tail(a, b) && Tail(b, c)
    ensures Tail(a, c)
  {
    assert b[|b| - |a|..] == c[|c| - |a|..];
  }

  /** a is b with some of its elements left out: nothing is invented, nothing changes places. */
  ghost predicate Sub<T>(a: seq<T>, b: seq<T>)
    decreases |b|
  {
    || a == []
    || (b != [] && Sub(a, b[..|b| - 1]))
    || (b != [] && a[|a| - 1] == b[|b| - 1] && Sub(a[..|a| - 1], b[..|b| - 1]))
  }

  lemma {:induction false} SubAll<T>(a: seq<T>)
    ensures Sub(a, a)
  {
    if a != [] {
      SubAll(a[..|a| - 1]);
    }
  }

  lemma {:induction false} SubBoth<T>(a: seq<T>, b: seq<T>, c: seq<T>, d: seq<T>)
    requires Sub(a, b) && Sub(c, d)
    ensures Sub(a + c, b + d)
    decreases |d|
  {
    if d == [] {
      assert a + c == a && b + d == b;
    } else {
      var init := d[..|d| - 1];
      assert (b + d)[..|b + d| - 1] == b + init;
      if c == [] || Sub(c, init) {
        SubBoth(a, b, c, init);
      } else {
        SubBoth(a, b, c[..|c| - 1], init);
        assert (a + c)[..|a + c| - 1] == a + c[..|c| - 1];
      }
    }
  }

  /** What is left of a stretch of a stream is left of a longer one. */
  lemma SubWider<T>(a: seq<T>, stream: seq<T>, from: nat, to: nat, from': nat, to': nat)
    requires from' <= from <= to <= to' <= |stream| && Sub(a, stream[from..to])
    ensures Sub(a, stream[from'..to'])
  {
    assert stream[from'..from] + stream[from..to] == stream[from'..to] && [] + a == a;
    assert stream[from'..to] + stream[to..to'] == stream[from'..to'] && a + [] == a;
    SubBoth([], stream[from'..from], a, stream[from..to]);
    SubBoth(a, stream[from'..to], [], stream[to..to']);
  }

  /** Two stretches one behind the other. */
  lemma SubNext<T>(a: seq<T>, c: seq<T>, stream: seq<T>, from: nat, mid: nat, to: nat)
    requires from <= mid <= to <= |stream| && Sub(a, stream[from..mid]) && Sub(c, stream[mid..to])
    ensures Sub(a + c, stream[from..to])
  {
    SubBoth(a, stream[from..mid], c, stream[mid..to]);
    assert stream[from..mid] + stream[mid..to] == stream[from..to];
  }
}
