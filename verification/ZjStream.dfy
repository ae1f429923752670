/** The printer's stream: chunks of items and raw bytes between two UEL escapes, the writer,
    and the dump tool's parser, which undoes it. */
module ZjStream {
  import opened Bytes

  const UEL: seq<byte> := [0x1b, 0x25, 0x2d, 0x31, 0x32, 0x33, 0x34, 0x35, 0x58]
  const MAGIC: seq<byte> := [0x4a, 0x5a, 0x4a, 0x5a]
  const SIGNATURE := 0x5a5a

  const START_DOC := 0x00
  const END_DOC := 0x01
  const START_PAGE := 0x02
  const END_PAGE := 0x03
  const JBIG_BIH := 0x04
  const JBIG_BID := 0x05
  const END_JBIG := 0x06
  const PAUSE := 0x0b
  const PANTUM_PARAM := 0x11

  type word16 = x: int | 0 <= x < 0x1_0000

  datatype Item = Item(kind: word16, value: word)

  datatype Chunk = Chunk(kind: word, items: seq<Item>, raw: seq<byte>) {
    function Size(): nat { 16 + 12 * |items| + |raw| }

    /** The size fits its field. */
    ghost predicate Valid() {
      Size() < 0x1_0000_0000
    }
  }

  // --------------------------------------------------------------- writing

  /** An item: its own size, its type, a parameter byte of one, a reserved zero, the value. */
  function ItemBytes(i: Item): (b: seq<byte>)
    ensures |b| == 12
  {
    Be32(12) + (Be16(i.kind) + ([1, 0] + Be32(i.value)))
  }

  function ItemsBytes(items: seq<Item>): (b: seq<byte>)
    ensures |b| == 12 * |items|
  {
    if items == [] then [] else ItemBytes(items[0]) + ItemsBytes(items[1..])
  }

  /** The header counts the item bytes in 16 bits, and the whole chunk in 32. */
  function HeaderBytes(c: Chunk): (b: seq<byte>)
    ensures |b| == 16
  {
    FieldBytes(c.Size() % 0x1_0000_0000, c.kind, |c.items| % 0x1_0000_0000, 12 * |c.items| % 0x1_0000)
  }

  function FieldBytes(size: word, kind: word, n: word, itemBytes: word16): (b: seq<byte>)
    ensures |b| == 16
  {
    Be32(size) + (Be32(kind) + (Be32(n) + (Be16(itemBytes) + Be16(SIGNATURE))))
  }

  /** Numbers that fit their fields are what the header holds. */
  lemma HeaderHolds(c: Chunk)
    requires |c.items| < 0x1_0000_0000
    ensures HeaderBytes(c)
      == FieldBytes(c.Size() % 0x1_0000_0000, c.kind, |c.items|, 12 * |c.items| % 0x1_0000)
  {
    assert |c.items| % 0x1_0000_0000 == |c.items|;
  }

  function ChunkBytes(c: Chunk): (b: seq<byte>)
    ensures |b| == c.Size()
  {
    HeaderBytes(c) + (ItemsBytes(c.items) + c.raw)
  }

  function ChunksBytes(chunks: seq<Chunk>): seq<byte> {
    if chunks == [] then [] else ChunkBytes(chunks[0]) + ChunksBytes(chunks[1..])
  }

  lemma {:induction false} ChunksConcat(a: seq<Chunk>, b: seq<Chunk>)
    ensures ChunksBytes(a + b) == ChunksBytes(a) + ChunksBytes(b)
  {
    if a == [] {
      assert a + b == b;
    } else {
      assert (a + b)[1..] == a[1..] + b;
      ChunksConcat(a[1..], b);
    }
  }

  function DocumentBytes(chunks: seq<Chunk>): seq<byte> {
    UEL + (MAGIC + (ChunksBytes(chunks) + UEL))
  }

  /** Anything bytes are written to.  Any dealing with it may fail, unless it is sound; a
      failed write leaves some prefix behind. */
  class Sink {
    const sound: bool
    var data: seq<byte>

    constructor (sound: bool)
      ensures data == [] && this.sound == sound
    {
      this.sound, data := sound, [];
    }

    /** What becomes of one dealing with the file. */
    method Try() returns (ok: bool)
      ensures sound ==> ok
    {
      ok := *;
      ok := ok || sound;
    }

    method Write(bytes: seq<byte>) returns (ok: bool)
      modifies this
      ensures sound ==> ok
      ensures ok ==> data == old(data) + bytes
    {
      ok := Try();
      var n := |bytes|;
      if !ok {
        n :| 0 <= n <= |bytes|;
      }
      data := data + bytes[..n];
    }
  }

  /** Write one chunk: header, items one by one, raw bytes. */
  method WriteChunk(fp: Sink, c: Chunk) returns (ok: bool)
    modifies fp
    ensures fp.sound ==> ok
    ensures ok ==> fp.data == old(fp.data) + ChunkBytes(c)
  {
    ok := fp.Write(HeaderBytes(c));
    if !ok {
      return;
    }
    ok := WriteItems(fp, c.items);
    if !ok {
      return;
    }
    if |c.raw| != 0 {
      ok := fp.Write(c.raw);
    }
    ThreeParts(old(fp.data), HeaderBytes(c), ItemsBytes(c.items), c.raw);
  }

  lemma ThreeParts(start: seq<byte>, a: seq<byte>, b: seq<byte>, c: seq<byte>)
    ensures start + a + b + c == start + (a + (b + c))
    ensures c == [] ==> start + a + b == start + (a + (b + c))
  {
  }

  method WriteItems(fp: Sink, items: seq<Item>) returns (ok: bool)
    modifies fp
    ensures fp.sound ==> ok
    ensures ok ==> fp.data == old(fp.data) + ItemsBytes(items)
  {
    ok := true;
    var i := 0;
    while i < |items| && ok
      invariant 0 <= i <= |items| && (fp.sound ==> ok)
      invariant ok ==> fp.data == old(fp.data) + ItemsBytes(items[..i])
    {
      ItemsSnoc(old(fp.data), items[..i], items[i]);
      assert items[..i + 1] == items[..i] + [items[i]];
      ok := fp.Write(ItemBytes(items[i]));
      i := i + 1;
    }
    assert items[..|items|] == items;
  }

  lemma {:induction false} ItemsConcat(a: seq<Item>, b: seq<Item>)
    ensures ItemsBytes(a + b) == ItemsBytes(a) + ItemsBytes(b)
  {
    if a == [] {
      assert a + b == b;
    } else {
      assert (a + b)[1..] == a[1..] + b;
      ItemsConcat(a[1..], b);
    }
  }

  lemma ItemsSnoc(start: seq<byte>, a: seq<Item>, i: Item)
    ensures start + ItemsBytes(a) + ItemBytes(i) == start + ItemsBytes(a + [i])
  {
    ItemsConcat(a, [i]);
    assert [i][1..] == [];
    var b, c := ItemsBytes(a), ItemBytes(i);
    assert ItemsBytes([i]) == c + [] == c;
    ThreeParts(start, b, c, []);
  }

  // --------------------------------------------------------------- parsing

  /** An item record as the parser reads it. */
  datatype Record = Record(size: word, kind: word16, param: byte, reserved: byte, value: word)

  datatype Entry =
    | UelAt(pos: nat)
    | MagicAt(pos: nat)
    | ChunkAt(pos: nat, size: word, kind: word, nitems: word, itemBytes: word16,
              items: seq<Record>, raw: seq<byte>)
    | Trailing(pos: nat, rest: seq<byte>)
    | Unparsed(pos: nat, rest: seq<byte>)

  /** What the parser returns, or the exception it raises on an item cut short. */
  datatype Parsed = Entries(entries: seq<Entry>) | StructError

  function GetRecord(b: seq<byte>): Record
    requires |b| >= 12
  {
    Record(GetBe32(b), GetBe16(b[4..]), b[6], b[7], GetBe32(b[8..]))
  }

  /** A Python slice: clipped to what is there. */
  function Slice(b: seq<byte>, from: nat, to: nat): seq<byte> {
    if from >= |b| || from >= to then [] else b[from..Min(to, |b|)]
  }

  datatype Records = Items(items: seq<Record>) | Short

  /** The first n records of a chunk body. */
  function GetRecords(body: seq<byte>, n: nat): Records {
    if n == 0 then Items([])
    else if |body| < 12 then Short
    else
      var others := GetRecords(body[12..], n - 1);
      if others.Short? then Short else Items([GetRecord(body)] + others.items)
  }

  datatype ChunkHead = ChunkHead(size: word, kind: word, nitems: word, itemBytes: word16, sig: word16)

  function GetHead(b: seq<byte>): ChunkHead
    requires |b| >= 16
  {
    ChunkHead(GetBe32(b), GetBe32(b[4..]), GetBe32(b[8..]), GetBe16(b[12..]), GetBe16(b[14..]))
  }

  function Prepend(e: Entry, p: Parsed): Parsed {
    if p.StructError? then StructError else Entries([e] + p.entries)
  }

  /** What stands at one position: an entry and how far to move on, or the end of parsing. */
  datatype Step = Next(e: Entry, size: positive) | Stop(p: Parsed)

  type positive = x: int | x > 0 witness 1

  function FirstEntry(rest: seq<byte>, pos: nat): Step {
    if UEL <= rest then Next(UelAt(pos), |UEL|)
    else if |rest| < 16 then Stop(Entries([Trailing(pos, rest)]))
    else
      var h := GetHead(rest);
      if h.sig != SIGNATURE || h.size < 16 then Stop(Entries([Unparsed(pos, rest)]))
      else
        var body := Slice(rest, 16, h.size);
        var items := GetRecords(body, h.nitems);
        if items.Short? then Stop(StructError)
        else Next(ChunkAt(pos, h.size, h.kind, h.nitems, h.itemBytes, items.items,
                          Slice(body, 12 * h.nitems, |body|)), h.size)
  }

  /** The entries of a document from position pos on, as `first` reads them one by one. */
  function ParseWith(first: (seq<byte>, nat) -> Step, buf: seq<byte>, pos: nat): Parsed
    decreases |buf| - pos
  {
    if pos >= |buf| then Entries([])
    else
      match first(buf[pos..], pos)
      case Next(e, size) => Prepend(e, ParseWith(first, buf, pos + size))
      case Stop(p) => p
  }

  function ParseFrom(buf: seq<byte>, pos: nat): Parsed { ParseWith(FirstEntry, buf, pos) }

  function ParseSpec(buf: seq<byte>): Parsed {
    var pre := if UEL <= buf then [UelAt(0)] else [];
    var at := if UEL <= buf then |UEL| else 0;
    if MAGIC <= buf[at..] then Joined(pre + [MagicAt(at)], ParseFrom(buf, at + |MAGIC|))
    else Joined(pre, ParseFrom(buf, at))
  }

  /** The parser: one pass down the document. */
  method Parse(buf: seq<byte>) returns (p: Parsed)
    ensures p == ParseSpec(buf)
  {
    var out: seq<Entry> := [];
    var pos := 0;
    if UEL <= buf {
      out := out + [UelAt(0)];
      pos := |UEL|;
    }
    if MAGIC <= buf[pos..] {
      out := out + [MagicAt(pos)];
      pos := pos + |MAGIC|;
    }
    p := ParseChunks(buf, pos, out);
  }

  /** Entries in hand, and what the rest of the document gives. */
  function Joined(before: seq<Entry>, r: Parsed): Parsed {
    if r.StructError? then StructError else Entries(before + r.entries)
  }

  lemma JoinedNext(before: seq<Entry>, buf: seq<byte>, pos: nat, s: Step)
    requires pos < |buf| && s == FirstEntry(buf[pos..], pos)
    ensures Joined(before, ParseFrom(buf, pos))
      == match s
         case Next(e, size) => Joined(before + [e], ParseFrom(buf, pos + size))
         case Stop(p) => Joined(before, p)
  {
    if s.Next? {
      JoinedOne(before, s.e, ParseFrom(buf, pos + s.size));
    }
  }

  lemma JoinedOne(before: seq<Entry>, e: Entry, r: Parsed)
    ensures Joined(before + [e], r) == Joined(before, Prepend(e, r))
  {
  }

  method ParseChunks(buf: seq<byte>, from: nat, before: seq<Entry>) returns (p: Parsed)
    ensures p == Joined(before, ParseFrom(buf, from))
  {
    var out, pos, more := before, from, from < |buf|;
    p := Entries(before);
    while more
      invariant more ==> pos < |buf| && Joined(out, ParseFrom(buf, pos)) == Joined(before, ParseFrom(buf, from))
      invariant !more ==> p == Joined(before, ParseFrom(buf, from))
      decreases more, |buf| - pos
    {
      more, out, pos, p := ParseStep(buf, pos, out);
    }
  }

  /** Read one entry; the parse is over at the end of the buffer or where an entry says so. */
  method ParseStep(buf: seq<byte>, pos: nat, before: seq<Entry>)
      returns (more: bool, out: seq<Entry>, next: nat, p: Parsed)
    requires pos < |buf|
    ensures more ==>
      && pos < next < |buf|
      && Joined(before, ParseFrom(buf, pos)) == Joined(out, ParseFrom(buf, next))
    ensures !more ==> p == Joined(before, ParseFrom(buf, pos))
  {
    var s := ParseEntry(buf[pos..], pos);
    JoinedNext(before, buf, pos, s);
    if s.Stop? {
      return false, before, pos, Joined(before, s.p);
    }
    out, next := before + [s.e], pos + s.size;
    more, p := next < |buf|, Entries(out);
    assert out + [] == out;
  }

  /** The entry at the front of `rest`. */
  method ParseEntry(rest: seq<byte>, pos: nat) returns (s: Step)
    ensures s == FirstEntry(rest, pos)
  {
    if UEL <= rest {
      return Next(UelAt(pos), |UEL|);
    }
    if |rest| < 16 {
      return Stop(Entries([Trailing(pos, rest)]));
    }
    var h := GetHead(rest);
    if h.sig != SIGNATURE || h.size < 16 {
      return Stop(Entries([Unparsed(pos, rest)]));
    }
    var body := Slice(rest, 16, h.size);
    var ok, items := ReadItems(body, h.nitems);
    if !ok {
      return Stop(StructError);
    }
    s := Next(ChunkAt(pos, h.size, h.kind, h.nitems, h.itemBytes, items,
                      Slice(body, 12 * h.nitems, |body|)), h.size);
  }

  /** Records in hand, and what the rest of the body gives. */
  function WithRecords(before: seq<Record>, r: Records): Records {
    if r.Short? then Short else Items(before + r.items)
  }

  lemma RecordsNext(before: seq<Record>, body: seq<byte>, n: nat)
    requires n > 0
    ensures |body| < 12 ==> GetRecords(body, n) == Short
    ensures |body| >= 12 ==>
      WithRecords(before, GetRecords(body, n))
      == WithRecords(before + [GetRecord(body)], GetRecords(body[12..], n - 1))
  {
  }

  lemma RecordOfSlice(body: seq<byte>, i: nat)
    requires 12 * i <= |body|
    ensures |Slice(body, 12 * i, 12 * (i + 1))| >= 12 <==> |body[12 * i..]| >= 12
    ensures |body[12 * i..]| >= 12 ==>
      && GetRecord(Slice(body, 12 * i, 12 * (i + 1))) == GetRecord(body[12 * i..])
      && body[12 * i..][12..] == body[12 * (i + 1)..]
  {
  }

  lemma RecordStep(before: seq<Record>, body: seq<byte>, i: nat, n: nat, rec: seq<byte>)
    requires i < n && 12 * i <= |body| && rec == Slice(body, 12 * i, 12 * (i + 1))
    ensures |rec| < 12 ==> GetRecords(body[12 * i..], n - i) == Short
    ensures |rec| >= 12 ==>
      && 12 * (i + 1) <= |body|
      && WithRecords(before, GetRecords(body[12 * i..], n - i))
         == WithRecords(before + [GetRecord(rec)], GetRecords(body[12 * (i + 1)..], n - (i + 1)))
  {
    RecordsNext(before, body[12 * i..], n - i);
    RecordOfSlice(body, i);
  }

  method ReadItems(body: seq<byte>, n: nat) returns (ok: bool, items: seq<Record>)
    ensures GetRecords(body, n) == if ok then Items(items) else Short
  {
    items := [];
    var i := 0;
    ghost var goal := GetRecords(body, n);
    AllAhead(body, n);
    while i < n
      invariant 0 <= i <= n && Ahead(items, body, i, n, goal)
    {
      var rec := Slice(body, 12 * i, 12 * (i + 1));
      RecordAhead(items, body, i, n, rec, goal);
      if |rec| < 12 {
        return false, items;
      }
      items := items + [GetRecord(rec)];
      i := i + 1;
    }
    assert items + [] == items;
    ok := true;
  }

  /** What has been read and what is ahead make up the goal. */
  ghost predicate Ahead(items: seq<Record>, body: seq<byte>, i: nat, n: nat, goal: Records) {
    && i <= n && 12 * i <= |body|
    && WithRecords(items, GetRecords(body[12 * i..], n - i)) == goal
  }

  lemma AllAhead(body: seq<byte>, n: nat)
    ensures Ahead([], body, 0, n, GetRecords(body, n))
  {
  }

  lemma RecordAhead(items: seq<Record>, body: seq<byte>, i: nat, n: nat, rec: seq<byte>, goal: Records)
    requires i < n && Ahead(items, body, i, n, goal) && rec == Slice(body, 12 * i, 12 * (i + 1))
    ensures |rec| < 12 ==> goal == Short
    ensures |rec| >= 12 ==> Ahead(items + [GetRecord(rec)], body, i + 1, n, goal)
  {
    RecordStep(items, body, i, n, rec);
  }

  // ------------------------------------------------------------ round trip

  function RecordOf(i: Item): Record { Record(12, i.kind, 1, 0, i.value) }

  function RecordsOf(items: seq<Item>): (r: seq<Record>)
    ensures |r| == |items|
  {
    seq(|items|, k requires 0 <= k < |items| => RecordOf(items[k]))
  }

  /** A written chunk as the parser reports it. */
  function EntryOf(c: Chunk, pos: nat): Entry
    requires c.Valid()
  {
    ChunkAt(pos, c.Size(), c.kind, |c.items|, 12 * |c.items| % 0x1_0000, RecordsOf(c.items), c.raw)
  }

  ghost predicate AllValid(chunks: seq<Chunk>) {
    forall k :: 0 <= k < |chunks| ==> chunks[k].Valid()
  }

  /** Chunks written from pos on, and the escape that closes the document. */
  function EntriesOf(chunks: seq<Chunk>, pos: nat): seq<Entry>
    requires AllValid(chunks)
  {
    if chunks == [] then [UelAt(pos)]
    else [EntryOf(chunks[0], pos)] + EntriesOf(chunks[1..], pos + chunks[0].Size())
  }

  lemma RecordRoundTrip(i: Item, rest: seq<byte>)
    ensures GetRecord(ItemBytes(i) + rest) == RecordOf(i)
    ensures (ItemBytes(i) + rest)[12..] == rest
  {
  }

  lemma {:induction false} RecordsRoundTrip(items: seq<Item>, raw: seq<byte>)
    ensures GetRecords(ItemsBytes(items) + raw, |items|) == Items(RecordsOf(items))
  {
    if items != [] {
      var rest := ItemsBytes(items[1..]) + raw;
      RecordsRoundTrip(items[1..], raw);
      RecordRoundTrip(items[0], rest);
      assert ItemsBytes(items) + raw == ItemBytes(items[0]) + rest;
      assert [RecordOf(items[0])] + RecordsOf(items[1..]) == RecordsOf(items);
    }
  }

  lemma HeadRoundTrip(c: Chunk, rest: seq<byte>)
    requires |c.items| < 0x1_0000_0000
    ensures GetHead(HeaderBytes(c) + rest)
      == ChunkHead(c.Size() % 0x1_0000_0000, c.kind, |c.items|, 12 * |c.items| % 0x1_0000, SIGNATURE)
  {
    HeaderHolds(c);
    HeadFields(c.Size() % 0x1_0000_0000, c.kind, |c.items|, 12 * |c.items| % 0x1_0000, rest);
  }

  lemma HeadFields(size: word, kind: word, n: word, itemBytes: word16, rest: seq<byte>)
    ensures GetHead(FieldBytes(size, kind, n, itemBytes) + rest)
      == ChunkHead(size, kind, n, itemBytes, SIGNATURE)
  {
  }

  /** When the first nine bytes of a chunk are the ones of the escape. */
  lemma MistakenForUel(c: Chunk, rest: seq<byte>)
    ensures UEL <= ChunkBytes(c) + rest
      <==> (&& c.Size() % 0x1_0000_0000 == 0x1b252d31 && c.kind == 0x32333435
            && |c.items| % 0x1_0000_0000 / 0x100_0000 == 0x58)
  {
    var b := ChunkBytes(c) + rest;
    var size, n := c.Size() % 0x1_0000_0000, |c.items| % 0x1_0000_0000;
    assert b[..4] == Be32(size) && b[4..8] == Be32(c.kind) && b[8..12] == Be32(n);
    assert b[8] == Be32(n)[0] == n / 0x100_0000;
    assert Be32(0x1b252d31) == UEL[..4] && Be32(0x32333435) == UEL[4..8];
    if UEL <= b {
      assert b[..4] == UEL[..4] && b[4..8] == UEL[4..8];
      Be32RoundTrip(size, []);
      Be32RoundTrip(c.kind, []);
      assert Be32(size) + [] == UEL[..4] && Be32(c.kind) + [] == UEL[4..8];
    }
    if size == 0x1b252d31 && c.kind == 0x32333435 && n / 0x100_0000 == 0x58 {
      assert b[..9] == b[..4] + b[4..8] + [b[8]];
      assert UEL == UEL[..4] + UEL[4..8] + [UEL[8]];
    }
  }

  /** A chunk whose size fits its field is never taken for the escape: one with that many
      items would be far larger. */
  lemma NeverMistaken(c: Chunk, rest: seq<byte>)
    requires c.Valid()
    ensures !(UEL <= ChunkBytes(c) + rest)
  {
    MistakenForUel(c, rest);
  }

  lemma ChunkParts(c: Chunk, body: seq<byte>, rest: seq<byte>, b: seq<byte>)
    requires c.Valid() && body == ItemsBytes(c.items) + c.raw && b == ChunkBytes(c) + rest
    ensures b == HeaderBytes(c) + (body + rest) && |b| >= 16
    ensures Slice(b, 16, c.Size()) == body && Slice(body, 12 * |c.items|, |body|) == c.raw
  {
    assert b[16..c.Size()] == body;
  }

  lemma ChunkHeadRead(c: Chunk, tail: seq<byte>, b: seq<byte>)
    requires c.Valid() && b == HeaderBytes(c) + tail
    ensures GetHead(b) == ChunkHead(c.Size(), c.kind, |c.items|, 12 * |c.items| % 0x1_0000, SIGNATURE)
  {
    HeadRoundTrip(c, tail);
  }

  lemma EntryAtHead(b: seq<byte>, pos: nat, h: ChunkHead, body: seq<byte>, items: seq<Record>)
    requires |b| >= 16 && !(UEL <= b) && h == GetHead(b) && h.sig == SIGNATURE && h.size >= 16
    requires Slice(b, 16, h.size) == body && GetRecords(body, h.nitems) == Items(items)
    ensures FirstEntry(b, pos)
      == Next(ChunkAt(pos, h.size, h.kind, h.nitems, h.itemBytes, items,
                      Slice(body, 12 * h.nitems, |body|)), h.size)
  {
  }

  lemma ChunkRoundTrip(c: Chunk, rest: seq<byte>, pos: nat)
    requires c.Valid()
    ensures FirstEntry(ChunkBytes(c) + rest, pos) == Next(EntryOf(c, pos), c.Size())
  {
    var body, b := ItemsBytes(c.items) + c.raw, ChunkBytes(c) + rest;
    NeverMistaken(c, rest);
    ChunkParts(c, body, rest, b);
    ChunkHeadRead(c, body + rest, b);
    RecordsRoundTrip(c.items, c.raw);
    EntryAtHead(b, pos, GetHead(b), body, RecordsOf(c.items));
  }

  lemma {:induction false} TooFewRecords(body: seq<byte>, n: nat)
    ensures GetRecords(body, n).Short? <==> |body| < 12 * n
    decreases n
  {
    if n > 0 && |body| >= 12 {
      TooFewRecords(body[12..], n - 1);
    }
  }

  /** A file that ends inside a chunk: in its header the rest is reported as it is, among its
      items the reader fails, and among its raw bytes the chunk is reported with as many as
      there are. */
  lemma CutShort(c: Chunk, cut: nat, pos: nat)
    requires c.Valid() && cut < c.Size()
    ensures var b, items := ChunkBytes(c)[..cut], 16 + 12 * |c.items|;
      FirstEntry(b, pos)
      == if cut < 16 then Stop(Entries([Trailing(pos, b)]))
         else if cut < items then Stop(StructError)
         else Next(ChunkAt(pos, c.Size(), c.kind, |c.items|, 12 * |c.items| % 0x1_0000,
                           RecordsOf(c.items), c.raw[..cut - items]), c.Size())
  {
    var b, tail := ChunkBytes(c)[..cut], ItemsBytes(c.items) + c.raw;
    NoEscapeInPart(c, cut);
    if cut >= 16 {
      var body := tail[..cut - 16];
      CutBehindHeader(c, cut, body);
      ChunkHeadRead(c, body, b);
      TooFewRecords(body, |c.items|);
      if cut < 16 + 12 * |c.items| {
        CutAmongItems(b, pos, GetHead(b), body);
      } else {
        var raw := c.raw[..cut - 16 - 12 * |c.items|];
        assert body == ItemsBytes(c.items) + raw;
        RecordsRoundTrip(c.items, raw);
        EntryAtHead(b, pos, GetHead(b), body, RecordsOf(c.items));
        assert Slice(body, 12 * |c.items|, |body|) == raw;
      }
    }
  }

  lemma NoEscapeInPart(c: Chunk, cut: nat)
    requires c.Valid() && cut < c.Size()
    ensures !(UEL <= ChunkBytes(c)[..cut])
  {
    NeverMistaken(c, []);
    assert ChunkBytes(c) + [] == ChunkBytes(c);
    assert ChunkBytes(c)[..cut] <= ChunkBytes(c);
  }

  lemma CutBehindHeader(c: Chunk, cut: nat, body: seq<byte>)
    requires c.Valid() && 16 <= cut < c.Size() && body == (ItemsBytes(c.items) + c.raw)[..cut - 16]
    ensures ChunkBytes(c)[..cut] == HeaderBytes(c) + body
    ensures Slice(ChunkBytes(c)[..cut], 16, c.Size()) == body
  {
    assert (HeaderBytes(c) + body)[16..] == body;
  }

  lemma CutAmongItems(b: seq<byte>, pos: nat, h: ChunkHead, body: seq<byte>)
    requires |b| >= 16 && !(UEL <= b) && h == GetHead(b) && h.sig == SIGNATURE && h.size >= 16
    requires Slice(b, 16, h.size) == body && GetRecords(body, h.nitems).Short?
    ensures FirstEntry(b, pos) == Stop(StructError)
  {
  }

  /** A reader of entries that knows chunks and the escape when it sees one. */
  ghost predicate Reads(first: (seq<byte>, nat) -> Step) {
    && (forall pos: nat :: first(UEL, pos) == Next(UelAt(pos), |UEL|))
    && (forall c: Chunk, rest, pos: nat :: c.Valid() ==>
          first(ChunkBytes(c) + rest, pos) == Next(EntryOf(c, pos), c.Size()))
  }

  lemma FirstEntryReads()
    ensures Reads(FirstEntry)
  {
    forall c: Chunk, rest, pos: nat | c.Valid()
      ensures FirstEntry(ChunkBytes(c) + rest, pos) == Next(EntryOf(c, pos), c.Size())
    {
      ChunkRoundTrip(c, rest, pos);
    }
  }

  lemma Behind(buf: seq<byte>, pos: nat, front: seq<byte>, rest: seq<byte>)
    requires pos <= |buf| && buf[pos..] == front + rest
    ensures pos + |front| <= |buf| && buf[pos + |front|..] == rest
  {
  }

  lemma ParseChunk(first: (seq<byte>, nat) -> Step, buf: seq<byte>, pos: nat, c: Chunk,
                   rest: seq<byte>)
    requires Reads(first) && c.Valid() && pos <= |buf| && buf[pos..] == ChunkBytes(c) + rest
    ensures var after := pos + c.Size();
      && after <= |buf| && buf[after..] == rest
      && ParseWith(first, buf, pos) == Prepend(EntryOf(c, pos), ParseWith(first, buf, after))
  {
  }

  lemma {:induction false} ChunksRoundTrip(first: (seq<byte>, nat) -> Step, buf: seq<byte>, pos: nat,
                                           chunks: seq<Chunk>)
    requires Reads(first) && AllValid(chunks)
    requires pos <= |buf| && buf[pos..] == ChunksBytes(chunks) + UEL
    ensures ParseWith(first, buf, pos) == Entries(EntriesOf(chunks, pos))
    decreases |chunks|
  {
    if chunks == [] {
      assert buf[pos..] == UEL;
      assert ParseWith(first, buf, pos + |UEL|) == Entries([]);
    } else {
      var rest := ChunksBytes(chunks[1..]) + UEL;
      InTurn(ChunkBytes(chunks[0]), ChunksBytes(chunks[1..]), UEL);
      ParseChunk(first, buf, pos, chunks[0], rest);
      ChunksRoundTrip(first, buf, pos + chunks[0].Size(), chunks[1..]);
    }
  }

  /** Parsing a written document gives back its chunks, in order, with their items and raw
      bytes, between the two escapes. */
  lemma DocumentRoundTrip(chunks: seq<Chunk>)
    requires AllValid(chunks)
    ensures ParseSpec(DocumentBytes(chunks))
      == Entries([UelAt(0), MagicAt(9)] + EntriesOf(chunks, 13))
  {
    var buf := DocumentBytes(chunks);
    assert buf[9..] == MAGIC + (ChunksBytes(chunks) + UEL);
    assert buf[13..] == ChunksBytes(chunks) + UEL;
    assert [UelAt(0)] + [MagicAt(9)] == [UelAt(0), MagicAt(9)];
    FirstEntryReads();
    ChunksRoundTrip(FirstEntry, buf, 13, chunks);
  }

  lemma {:induction false} EntriesDetermineChunks(a: seq<Chunk>, b: seq<Chunk>, pos: nat)
    requires AllValid(a) && AllValid(b) && EntriesOf(a, pos) == EntriesOf(b, pos)
    ensures a == b
  {
    if a != [] && b != [] {
      var x, y := EntryOf(a[0], pos), EntryOf(b[0], pos);
      assert EntriesOf(a, pos)[0] == x && EntriesOf(b, pos)[0] == y;
      SameEntry(a[0], b[0], pos);
      assert EntriesOf(a, pos)[1..] == EntriesOf(a[1..], pos + x.size);
      assert EntriesOf(b, pos)[1..] == EntriesOf(b[1..], pos + y.size);
      EntriesDetermineChunks(a[1..], b[1..], pos + x.size);
      assert a == [a[0]] + a[1..] && b == [b[0]] + b[1..];
    } else {
      assert EntriesOf(a, pos)[0] == EntriesOf(b, pos)[0];
    }
  }

  lemma SameEntry(c: Chunk, d: Chunk, pos: nat)
    requires c.Valid() && d.Valid() && EntryOf(c, pos) == EntryOf(d, pos)
    ensures c == d
  {
    forall k | 0 <= k < |c.items| ensures c.items[k] == d.items[k] {
      assert RecordsOf(c.items)[k] == RecordsOf(d.items)[k];
    }
  }

  /** No two documents share their bytes. */
  lemma DocumentDeterminesChunks(a: seq<Chunk>, b: seq<Chunk>)
    requires AllValid(a) && AllValid(b) && DocumentBytes(a) == DocumentBytes(b)
    ensures a == b
  {
    DocumentRoundTrip(a);
    DocumentRoundTrip(b);
    var pre := [UelAt(0), MagicAt(9)];
    assert (pre + EntriesOf(a, 13))[2..] == EntriesOf(a, 13);
    assert (pre + EntriesOf(b, 13))[2..] == EntriesOf(b, 13);
    EntriesDetermineChunks(a, b, 13);
  }
}
