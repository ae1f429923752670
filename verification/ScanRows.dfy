/** Turning the scanner's rows into the frontend's, and reassembling the page from the
    blocks the device sends. */
module ScanRows {
  import opened Bytes
  import opened Buffers

  datatype Format = Gray | Rgb | Bilevel

  /** What sane_start fixes for one job: the page, the margins, the tone curve, what a
      bilevel sample is compared with, whether the feeder is used, and the words of the
      device's settings block that the host sets. */
  datatype Job = Job(
    format: Format, pixels: nat, lines: nat,
    whiteTop: nat, whiteBottom: nat, whiteLeft: nat, whiteRight: nat,
    lut: seq<byte>, halftone: bool, threshold: byte, mask: seq<byte>,
    feeder: bool, settings: map<int, word>)
  {
    ghost predicate Valid() {
      && 0 < pixels < 0x1000_0000 && 0 < lines < 0x8000_0000
      && |lut| == 256 && |mask| == 128 * 128
    }

    function BytesPerLine(): (n: nat) {
      match format
      case Gray => pixels
      case Rgb => 3 * pixels
      case Bilevel => (pixels + 7) / 8
    }

    function Planes(): nat { if format.Rgb? then 3 else 1 }

    /** White is a clear bit in the bilevel modes and 0xff in the others. */
    function WhiteByte(): byte { if format.Bilevel? then 0 else 255 }

    function White(): (r: seq<byte>)
      ensures |r| == BytesPerLine()
    {
      seq(BytesPerLine(), _ => WhiteByte())
    }

    function Lead(): int { Min(whiteLeft, pixels) }

    function Tail(): int { pixels - Min(whiteRight, pixels) }

    predicate MarginRow(row: int) {
      row < whiteTop || (whiteBottom != 0 && row >= lines - whiteBottom)
    }

    /** Pixel i of the row shows what the sensor saw. */
    predicate Seen(row: int, avail: int, i: int) {
      !MarginRow(row) && Lead() <= i < Tail() && i < avail
    }

    /** What a bilevel sample at this pixel has to fall below to be black. */
    function Cut(row: int, i: int): byte
      requires Valid() && 0 <= row && 0 <= i
    {
      if halftone then mask[row % 128 * 128 + i % 128] else threshold
    }
  }

  predicate Holds(job: Job, src: seq<byte>, avail: int) {
    0 <= avail && avail * job.Planes() <= |src|
  }

  /** Grey sample i of a row. */
  function GraySample(job: Job, src: seq<byte>, avail: int, row: int, i: int): byte
    requires job.Valid() && 0 <= i && 0 <= avail <= |src|
  {
    if job.Seen(row, avail, i) then job.lut[src[i]] else 255
  }

  /** Where byte k of an RGB row is found in the device's row, which has blue first. */
  function Swapped(k: int): int { 3 * (k / 3) + 2 - k % 3 }

  /** Byte k of a colour row. */
  function RgbSample(job: Job, src: seq<byte>, avail: int, row: int, k: int): byte
    requires job.Valid() && 0 <= k && 0 <= avail && 3 * avail <= |src|
  {
    if job.Seen(row, avail, k / 3) then job.lut[src[Swapped(k)]] else 255
  }

  predicate Dot(job: Job, src: seq<byte>, avail: int, row: int, i: int)
    requires job.Valid() && 0 <= i && 0 <= row && 0 <= avail <= |src|
  {
    job.Seen(row, avail, i) && job.lut[src[i]] < job.Cut(row, i)
  }

  function DotByte(job: Job, src: seq<byte>, avail: int, row: int, k: int): (b: byte)
    requires job.Valid() && 0 <= k && 0 <= row && 0 <= avail <= |src|
    ensures forall j :: 0 <= j < 8 ==> Bit(b, j) == Dot(job, src, avail, row, 8 * k + j)
  {
    FromBits(seq(8, j requires 0 <= j => Dot(job, src, avail, row, 8 * k + j)))
  }

  /** Byte k of a converted row. */
  function RowByte(job: Job, src: seq<byte>, avail: int, row: int, k: int): byte
    requires job.Valid() && Holds(job, src, avail) && 0 <= row && 0 <= k
  {
    match job.format
    case Gray => GraySample(job, src, avail, row, k)
    case Rgb => RgbSample(job, src, avail, row, k)
    case Bilevel => DotByte(job, src, avail, row, k)
  }

  /** One row as the frontend receives it. */
  function ConvertRow(job: Job, src: seq<byte>, avail: int, row: int): (r: seq<byte>)
    requires job.Valid() && Holds(job, src, avail) && 0 <= row
    ensures |r| == job.BytesPerLine()
  {
    RowBytes(job, src, avail, row, job.BytesPerLine())
  }

  /** The first n bytes of a converted row. */
  function RowBytes(job: Job, src: seq<byte>, avail: int, row: int, n: nat): (r: seq<byte>)
    requires job.Valid() && Holds(job, src, avail) && 0 <= row
    ensures |r| == n
  {
    if n == 0 then [] else RowBytes(job, src, avail, row, n - 1) + [RowByte(job, src, avail, row, n - 1)]
  }

  lemma {:induction false} RowBytesAt(job: Job, src: seq<byte>, avail: int, row: int, n: nat)
    requires job.Valid() && Holds(job, src, avail) && 0 <= row
    ensures forall k :: 0 <= k < n ==>
      RowBytes(job, src, avail, row, n)[k] == RowByte(job, src, avail, row, k)
  {
    if n > 0 {
      RowBytesAt(job, src, avail, row, n - 1);
    }
  }

  lemma ConvertedBytes(job: Job, src: seq<byte>, avail: int, row: int)
    requires job.Valid() && Holds(job, src, avail) && 0 <= row
    ensures forall k :: 0 <= k < job.BytesPerLine() ==>
      ConvertRow(job, src, avail, row)[k] == RowByte(job, src, avail, row, k)
  {
    RowBytesAt(job, src, avail, row, job.BytesPerLine());
  }

  // ----------------------------------------------------- conversion in place

  /** Write the frontend's form of a row at `at`. */
  method ConvertRowInto(job: Job, src: seq<byte>, avail: nat, row: nat, dst: array<byte>, at: nat)
    requires job.Valid() && Holds(job, src, avail)
    requires at + job.BytesPerLine() <= dst.Length
    modifies dst
    ensures dst[at..at + job.BytesPerLine()] == ConvertRow(job, src, avail, row)
    ensures OnlyWithin(dst, at, job.BytesPerLine())
  {
    ConvertedBytes(job, src, avail, row);
    if job.MarginRow(row) {
      Fill(dst, at, at + job.BytesPerLine(), job.WhiteByte());
      if job.format.Bilevel? {
        forall k | 0 <= k < job.BytesPerLine() ensures RowByte(job, src, avail, row, k) == 0 {
          NoDots(job, src, avail, row, k);
        }
      }
    } else if job.format.Rgb? {
      ConvertRgb(job, src, avail, row, dst, at);
    } else if job.format.Bilevel? {
      ConvertBilevel(job, src, avail, row, dst, at);
    } else {
      ConvertGray(job, src, avail, row, dst, at);
    }
  }

  lemma NoDots(job: Job, src: seq<byte>, avail: nat, row: nat, k: nat)
    requires job.Valid() && Holds(job, src, avail) && job.format.Bilevel?
    requires job.MarginRow(row)
    ensures RowByte(job, src, avail, row, k) == 0
  {
    var b := DotByte(job, src, avail, row, k);
    forall j | 0 <= j < 8 ensures Bit(b, j) == Bit(0, j) {
      assert Bit(b, j) == Dot(job, src, avail, row, 8 * k + j);
      ZeroBits();
    }
    ByteOfBits(b, 0);
  }

  lemma ZeroBits()
    ensures forall j :: 0 <= j < 8 ==> !Bit(0, j)
  {
    forall j | 0 <= j < 8 ensures !Bit(0, j) { ZeroHalved(7 - j); }
  }

  lemma {:induction false} ZeroHalved(n: nat)
    ensures Halved(0, n) == 0
  {
    if n > 0 { ZeroHalved(n - 1); }
  }

  method ConvertGray(job: Job, src: seq<byte>, avail: nat, row: nat, dst: array<byte>, at: nat)
    requires job.Valid() && Holds(job, src, avail) && job.format.Gray? && !job.MarginRow(row)
    requires at + job.BytesPerLine() <= dst.Length
    modifies dst
    ensures dst[at..at + job.BytesPerLine()] == ConvertRow(job, src, avail, row)
    ensures OnlyWithin(dst, at, job.BytesPerLine())
  {
    ConvertedBytes(job, src, avail, row);
    var n := Min(avail, job.pixels);
    ToneRow(job, src, n, dst, at);
    Fill(dst, at + n, at + job.pixels, 255);
    Fill(dst, at, at + job.Lead(), 255);
    Fill(dst, at + job.Tail(), at + job.pixels, 255);
  }

  method ToneRow(job: Job, src: seq<byte>, n: nat, dst: array<byte>, at: nat)
    requires job.Valid() && n <= |src| && at + n <= dst.Length
    modifies dst
    ensures forall k :: 0 <= k < n ==> dst[at + k] == job.lut[src[k]]
    ensures OnlyWithin(dst, at, n)
  {
    var i := 0;
    while i < n
      invariant 0 <= i <= n
      invariant forall k :: 0 <= k < i ==> dst[at + k] == job.lut[src[k]]
      invariant OnlyWithin(dst, at, n)
    {
      dst[at + i] := job.lut[src[i]];
      i := i + 1;
    }
  }

  method ConvertRgb(job: Job, src: seq<byte>, avail: nat, row: nat, dst: array<byte>, at: nat)
    requires job.Valid() && Holds(job, src, avail) && job.format.Rgb? && !job.MarginRow(row)
    requires at + job.BytesPerLine() <= dst.Length
    modifies dst
    ensures dst[at..at + job.BytesPerLine()] == ConvertRow(job, src, avail, row)
    ensures OnlyWithin(dst, at, job.BytesPerLine())
  {
    ConvertedBytes(job, src, avail, row);
    var n := Min(avail, job.pixels);
    SwapChannels(job, src, n, dst, at);
    Fill(dst, at + 3 * n, at + 3 * job.pixels, 255);
    Fill(dst, at, at + 3 * job.Lead(), 255);
    Fill(dst, at + 3 * job.Tail(), at + 3 * job.pixels, 255);
  }

  method SwapChannels(job: Job, src: seq<byte>, n: nat, dst: array<byte>, at: nat)
    requires job.Valid() && 3 * n <= |src| && at + 3 * n <= dst.Length
    modifies dst
    ensures forall k :: 0 <= k < 3 * n ==> dst[at + k] == job.lut[src[Swapped(k)]]
    ensures OnlyWithin(dst, at, 3 * n)
  {
    var i := 0;
    while i < n
      invariant 0 <= i <= n
      invariant forall k :: 0 <= k < 3 * i ==> dst[at + k] == job.lut[src[Swapped(k)]]
      invariant OnlyWithin(dst, at, 3 * n)
    {
      SwapPixel(job.lut[src[3 * i]], job.lut[src[3 * i + 1]], job.lut[src[3 * i + 2]], dst, at + 3 * i);
      assert Swapped(3 * i) == 3 * i + 2 && Swapped(3 * i + 1) == 3 * i + 1;
      assert Swapped(3 * i + 2) == 3 * i;
      i := i + 1;
    }
  }

  method SwapPixel(a: byte, b: byte, c: byte, dst: array<byte>, at: nat)
    requires at + 3 <= dst.Length
    modifies dst
    ensures dst[at] == c && dst[at + 1] == b && dst[at + 2] == a && OnlyWithin(dst, at, 3)
  {
    dst[at] := c;
    dst[at + 1] := b;
    dst[at + 2] := a;
  }

  method ConvertBilevel(job: Job, src: seq<byte>, avail: nat, row: nat, dst: array<byte>, at: nat)
    requires job.Valid() && Holds(job, src, avail) && job.format.Bilevel? && !job.MarginRow(row)
    requires at + job.BytesPerLine() <= dst.Length
    modifies dst
    ensures dst[at..at + job.BytesPerLine()] == ConvertRow(job, src, avail, row)
    ensures OnlyWithin(dst, at, job.BytesPerLine())
  {
    Fill(dst, at, at + job.BytesPerLine(), 0);
    SetDots(job, src, avail, row, dst, at);
    RowOfDots(job, src, avail, row, dst, at);
  }

  /** A packed row with the dots set that are called for. */
  lemma RowOfDots(job: Job, src: seq<byte>, avail: nat, row: nat, dst: array<byte>, at: nat)
    requires job.Valid() && Holds(job, src, avail) && job.format.Bilevel?
    requires at + job.BytesPerLine() <= dst.Length
    requires forall p :: 0 <= p < 8 * job.BytesPerLine() ==>
      PixelBit(dst, at, p) == Dot(job, src, avail, row, p)
    ensures dst[at..at + job.BytesPerLine()] == ConvertRow(job, src, avail, row)
  {
    ConvertedBytes(job, src, avail, row);
    forall k | 0 <= k < job.BytesPerLine() ensures dst[at + k] == RowByte(job, src, avail, row, k) {
      var a := dst[at + k];
      forall j | 0 <= j < 8 ensures Bit(a, j) == Dot(job, src, avail, row, 8 * k + j) {
        assert PixelBit(dst, at, 8 * k + j) == Dot(job, src, avail, row, 8 * k + j);
      }
      DotsMakeByte(job, src, avail, row, k, a);
    }
  }

  lemma DotsMakeByte(job: Job, src: seq<byte>, avail: nat, row: nat, k: nat, a: byte)
    requires job.Valid() && Holds(job, src, avail) && k < job.BytesPerLine()
    requires forall j :: 0 <= j < 8 ==> Bit(a, j) == Dot(job, src, avail, row, 8 * k + j)
    ensures a == DotByte(job, src, avail, row, k)
  {
    ByteOfBits(a, DotByte(job, src, avail, row, k));
  }

  /** Set the bit of every black pixel in a cleared row. */
  method SetDots(job: Job, src: seq<byte>, avail: nat, row: nat, dst: array<byte>, at: nat)
    requires job.Valid() && Holds(job, src, avail) && job.format.Bilevel? && !job.MarginRow(row)
    requires at + job.BytesPerLine() <= dst.Length
    requires forall k :: at <= k < at + job.BytesPerLine() ==> dst[k] == 0
    modifies dst
    ensures forall p :: 0 <= p < 8 * job.BytesPerLine() ==>
      PixelBit(dst, at, p) == Dot(job, src, avail, row, p)
    ensures OnlyWithin(dst, at, job.BytesPerLine())
  {
    var bpl := job.BytesPerLine();
    ZeroBits();
    var n := Min(Min(avail, job.pixels), job.Tail());
    var i := job.Lead();
    while i < n
      invariant job.Lead() <= i
      invariant forall p :: 0 <= p < 8 * bpl ==>
        PixelBit(dst, at, p) == (p < i && Dot(job, src, avail, row, p))
      invariant OnlyWithin(dst, at, bpl)
    {
      if job.lut[src[i]] < job.Cut(row, i) {
        SetPixel(dst, at, bpl, i);
      }
      i := i + 1;
    }
  }

  /** Bit p of the packed row that starts at `at`. */
  predicate PixelBit(dst: array<byte>, at: nat, p: int)
    requires 0 <= p && at + p / 8 < dst.Length
    reads dst
  {
    Bit(dst[at + p / 8], p % 8)
  }

  method SetPixel(dst: array<byte>, at: nat, bpl: nat, i: nat)
    requires at + bpl <= dst.Length && i < 8 * bpl
    modifies dst
    ensures forall p :: 0 <= p < 8 * bpl ==>
      PixelBit(dst, at, p) == (p == i || old(PixelBit(dst, at, p)))
    ensures OnlyWithin(dst, at, bpl)
  {
    dst[at + i / 8] := WithBit(dst[at + i / 8], i % 8);
  }

  // ------------------------------------------------------- modes and margins

  /** Column i of a row lies on the paper: not on a row or column that a margin whitens, and not
      past what the block brought. */
  ghost predicate OnPaper(job: Job, avail: nat, row: nat, i: nat) {
    && job.whiteTop <= row && (job.whiteBottom == 0 || row < job.lines - job.whiteBottom)
    && job.whiteLeft <= i && i + job.whiteRight < job.pixels && i < avail
  }

  /** What the frontend gets of a grey row: the tone of every sample on the paper, white
      elsewhere. */
  lemma GrayMeans(job: Job, src: seq<byte>, avail: nat, row: nat)
    requires job.Valid() && job.format.Gray? && avail <= |src|
    ensures var got := ConvertRow(job, src, avail, row);
      && |got| == job.pixels
      && forall i :: 0 <= i < job.pixels ==> got[i] == if OnPaper(job, avail, row, i) then job.lut[src[i]] else 255
    ensures job.White() == seq(job.pixels, _ => 255)
  {
    ConvertedBytes(job, src, avail, row);
  }

  /** Of a colour row: red, green and blue for every pixel, where the device sends blue, green
      and red. */
  lemma ColourMeans(job: Job, src: seq<byte>, avail: nat, row: nat)
    requires job.Valid() && job.format.Rgb? && 3 * avail <= |src|
    ensures var got := ConvertRow(job, src, avail, row);
      && |got| == 3 * job.pixels
      && forall i :: 0 <= i < job.pixels ==>
           if OnPaper(job, avail, row, i)
           then && got[3 * i] == job.lut[src[3 * i + 2]] && got[3 * i + 1] == job.lut[src[3 * i + 1]]
                && got[3 * i + 2] == job.lut[src[3 * i]]
           else got[3 * i] == got[3 * i + 1] == got[3 * i + 2] == 255
    ensures job.White() == seq(3 * job.pixels, _ => 255)
  {
    var got := ConvertRow(job, src, avail, row);
    ConvertedBytes(job, src, avail, row);
    forall i | 0 <= i < job.pixels ensures
      if OnPaper(job, avail, row, i)
      then && got[3 * i] == job.lut[src[3 * i + 2]] && got[3 * i + 1] == job.lut[src[3 * i + 1]]
           && got[3 * i + 2] == job.lut[src[3 * i]]
      else got[3 * i] == got[3 * i + 1] == got[3 * i + 2] == 255
    {
      assert got[3 * i] == RgbSample(job, src, avail, row, 3 * i);
      assert got[3 * i + 1] == RgbSample(job, src, avail, row, 3 * i + 1);
      assert got[3 * i + 2] == RgbSample(job, src, avail, row, 3 * i + 2);
    }
  }

  /** Of a packed row: a set bit for every sample on the paper whose tone is below the fixed
      threshold, or below the mask's, which repeats every 128 rows and columns. */
  lemma PackedMeans(job: Job, src: seq<byte>, avail: nat, row: nat)
    requires job.Valid() && job.format.Bilevel? && avail <= |src|
    ensures var got := ConvertRow(job, src, avail, row);
      && |got| == (job.pixels + 7) / 8
      && forall i :: 0 <= i < 8 * |got| ==>
           (Bit(got[i / 8], i % 8) <==>
             OnPaper(job, avail, row, i)
             && job.lut[src[i]] < if job.halftone then job.mask[128 * (row % 128) + i % 128] else job.threshold)
    ensures job.White() == seq((job.pixels + 7) / 8, _ => 0)
  {
    var got := ConvertRow(job, src, avail, row);
    ConvertedBytes(job, src, avail, row);
    forall i | 0 <= i < 8 * |got| ensures
      Bit(got[i / 8], i % 8) <==>
        OnPaper(job, avail, row, i)
        && job.lut[src[i]] < if job.halftone then job.mask[128 * (row % 128) + i % 128] else job.threshold
    {
      var b := DotByte(job, src, avail, row, i / 8);
      assert Bit(b, i % 8) == Dot(job, src, avail, row, 8 * (i / 8) + i % 8);
    }
  }

  /** The bilevel modes see what Gray sees: bit i of the packed row is set
      exactly when sample i of the grey row made from the same input is below the
      threshold or the mask cell, and the bits past the last pixel are clear.  Margins,
      short rows and gap rows are covered. */
  lemma ModesCommute(gray: Job, bilevel: Job, src: seq<byte>, avail: nat, row: nat, i: nat)
    requires gray.Valid() && avail <= |src|
    requires gray.format.Gray? && bilevel == gray.(format := Bilevel)
    requires i < 8 * bilevel.BytesPerLine()
    ensures var packed, samples :=
        ConvertRow(bilevel, src, avail, row), ConvertRow(gray, src, avail, row);
      Bit(packed[i / 8], i % 8) <==> i < gray.pixels && samples[i] < gray.Cut(row, i)
    ensures !Bit(bilevel.White()[i / 8], i % 8)
    ensures i < gray.pixels ==> gray.White()[i] >= gray.Cut(row, i)
  {
    ConvertedBytes(bilevel, src, avail, row);
    ConvertedBytes(gray, src, avail, row);
    var b := DotByte(bilevel, src, avail, row, i / 8);
    assert Bit(b, i % 8) == Dot(bilevel, src, avail, row, 8 * (i / 8) + i % 8);
    assert bilevel.Cut(row, i) == gray.Cut(row, i);
    assert bilevel.Seen(row, avail, i) == gray.Seen(row, avail, i);
    ZeroBits();
  }

  /** A row the device padded with white converts as if it were short: given
      a curve that leaves white alone, padding before it and after it agree byte for byte,
      in every mode. */
  lemma PaddingCommutesWithTone(job: Job, src: seq<byte>, avail: nat, padded: seq<byte>, row: nat)
    requires job.Valid() && job.lut[255] == 255 && Holds(job, src, avail) && avail <= job.pixels
    requires padded == src[..avail * job.Planes()] + WhiteSamples((job.pixels - avail) * job.Planes())
    ensures ConvertRow(job, padded, job.pixels, row) == ConvertRow(job, src, avail, row)
  {
    if job.format.Rgb? {
      assert padded == src[..3 * avail] + WhiteSamples(3 * job.pixels - 3 * avail);
      PaddedRgb(job, src, avail, padded, row);
    } else {
      assert padded == src[..avail] + WhiteSamples(job.pixels - avail);
      PaddedGray(job, src, avail, padded, row);
    }
  }

  /** White as the scanner sends it. */
  function WhiteSamples(n: nat): seq<byte> { seq(n, _ => 255) }

  lemma PaddedRgb(job: Job, src: seq<byte>, avail: nat, padded: seq<byte>, row: nat)
    requires job.Valid() && job.lut[255] == 255 && job.format.Rgb?
    requires 3 * avail <= |src| && avail <= job.pixels
    requires padded == src[..3 * avail] + WhiteSamples(3 * job.pixels - 3 * avail)
    ensures ConvertRow(job, padded, job.pixels, row) == ConvertRow(job, src, avail, row)
  {
    ConvertedBytes(job, src, avail, row);
    ConvertedBytes(job, padded, job.pixels, row);
    forall k | 0 <= k < 3 * job.pixels
      ensures RgbSample(job, padded, job.pixels, row, k) == RgbSample(job, src, avail, row, k)
    {
      PaddedSample(job, src, avail, padded, row, k);
    }
  }

  lemma PaddedGray(job: Job, src: seq<byte>, avail: nat, padded: seq<byte>, row: nat)
    requires job.Valid() && job.lut[255] == 255 && !job.format.Rgb?
    requires avail <= |src| && avail <= job.pixels
    requires padded == src[..avail] + WhiteSamples(job.pixels - avail)
    ensures ConvertRow(job, padded, job.pixels, row) == ConvertRow(job, src, avail, row)
  {
    ConvertedBytes(job, src, avail, row);
    ConvertedBytes(job, padded, job.pixels, row);
    if job.format.Bilevel? {
      forall k | 0 <= k < job.BytesPerLine()
        ensures DotByte(job, padded, job.pixels, row, k) == DotByte(job, src, avail, row, k)
      {
        PaddedDots(job, src, avail, padded, row, k);
      }
    }
  }

  lemma PaddedSample(job: Job, src: seq<byte>, avail: nat, padded: seq<byte>, row: nat, k: nat)
    requires job.Valid() && job.lut[255] == 255 && 3 * avail <= |src| && avail <= job.pixels
    requires padded == src[..3 * avail] + WhiteSamples(3 * job.pixels - 3 * avail) && k < 3 * job.pixels
    ensures RgbSample(job, padded, job.pixels, row, k) == RgbSample(job, src, avail, row, k)
  {
    var i, c := k / 3, k % 3;
    assert 3 * i + 2 - c < 3 * avail <==> i < avail;
  }

  /** White is below no threshold, so a padded pixel makes no dot. */
  lemma PaddedDots(job: Job, src: seq<byte>, avail: nat, padded: seq<byte>, row: nat, k: nat)
    requires job.Valid() && job.lut[255] == 255 && avail <= |src| && avail <= job.pixels
    requires padded == src[..avail] + WhiteSamples(job.pixels - avail)
    ensures DotByte(job, padded, job.pixels, row, k) == DotByte(job, src, avail, row, k)
  {
    var a, b := DotByte(job, padded, job.pixels, row, k), DotByte(job, src, avail, row, k);
    forall j | 0 <= j < 8 ensures Bit(a, j) == Bit(b, j) {
      assert Bit(b, j) == Dot(job, src, avail, row, 8 * k + j);
    }
    ByteOfBits(a, b);
  }
}
