/** What the finished 128 by 128 mask does to tones: how often each threshold occurs, and
    exactly how many dots a flat tone gets. */
module DitherTone {
  import opened FiniteSets
  import opened Torus
  import opened Greedy
  import opened VoidCluster
  import opened Bytes
  import opened ScanRows

  const CELLS := 128 * 128

  /** The mask the generator left, on the grid the source uses. */
  ghost predicate Finished(g: Grid, order: seq<int>, mask: seq<int>) {
    && g.Valid() && g.n == 128
    && |order| == CELLS && Distinct(order) && Elems(order) == g.All()
    && MaskFollows(mask, order)
  }

  /** Any ranking of the 128 grid gives such a mask. */
  lemma RankingFinishes(g: Grid, proto: set<int>, order: seq<int>, mask: seq<int>)
    requires g.Valid() && g.n == 128 && IsRanking(g, proto, order) && MaskFollows(mask, order)
    ensures Finished(g, order, mask)
  {
  }

  /** The first rank whose threshold is above v: the number of cells v is not below. */
  function Cutoff(v: int): int { (CELLS * v + 254) / 255 }

  lemma CutoffExact(m: int, v: int)
    requires 0 <= m < CELLS && 0 <= v <= 255
    ensures v < Threshold(m, CELLS) <==> Cutoff(v) <= m
    ensures 1 <= Threshold(m, CELLS) <= 255
  {
  }

  lemma CutoffRange(v: int)
    requires 0 <= v <= 255
    ensures 0 <= Cutoff(v) <= CELLS && Cutoff(0) == 0 && Cutoff(255) == CELLS
    ensures v < 255 ==> 64 <= Cutoff(v + 1) - Cutoff(v) <= 65
  {
  }

  // ------------------------------------------------------ counting by rank

  ghost function CellsOfRanks(order: seq<int>, ranks: set<int>): set<int>
    requires ranks <= Below(|order|)
  {
    set m | m in ranks :: order[m]
  }

  lemma {:induction false} RanksCountCells(order: seq<int>, ranks: set<int>)
    requires Distinct(order) && ranks <= Below(|order|)
    ensures |CellsOfRanks(order, ranks)| == |ranks|
    decreases ranks
  {
    if ranks == {} {
      assert CellsOfRanks(order, ranks) == {};
    } else {
      var m := Pick(ranks);
      var others := ranks - {m};
      assert InRange(m, |order|);
      forall k | k in others ensures order[k] != order[m] {
        assert InRange(k, |order|);
        assert k < m || m < k;
      }
      assert CellsOfRanks(order, ranks) == CellsOfRanks(order, others) + {order[m]};
      RanksCountCells(order, others);
    }
  }

  lemma {:induction false} IntervalSize(a: nat, b: nat)
    requires a <= b
    ensures |Below(b) - Below(a)| == b - a
  {
    BelowSize(a);
    BelowSize(b);
    assert Below(a) <= Below(b);
    assert |Below(b) - Below(a)| == |Below(b)| - |Below(a)|;
  }

  lemma NotBelow(m: int, n: int)
    ensures m in Below(n) <==> 0 <= m < n
  {
  }

  /** The cells a sample of v comes out black on. */
  ghost function BlackCells(g: Grid, mask: seq<int>, v: int): set<int>
    requires |mask| == g.Cells()
  {
    set c | c in g.All() && v < mask[c]
  }

  lemma BlackCellCount(g: Grid, order: seq<int>, mask: seq<int>, v: int)
    requires Finished(g, order, mask) && 0 <= v <= 255
    ensures |BlackCells(g, mask, v)| == CELLS - Cutoff(v)
  {
    CutoffRange(v);
    var ranks := Below(CELLS) - Below(Cutoff(v));
    IntervalSize(Cutoff(v), CELLS);
    RanksCountCells(order, ranks);
    var cells := CellsOfRanks(order, ranks);
    forall c ensures c in BlackCells(g, mask, v) <==> c in cells {
      if c in BlackCells(g, mask, v) {
        BlackIsRankedHigh(g, order, mask, v, c);
      }
      if c in cells {
        RankedHighIsBlack(g, order, mask, v, c);
      }
    }
    assert cells == BlackCells(g, mask, v);
  }

  lemma BlackIsRankedHigh(g: Grid, order: seq<int>, mask: seq<int>, v: int, c: int)
    requires Finished(g, order, mask) && 0 <= v <= 255 && c in BlackCells(g, mask, v)
    ensures c in CellsOfRanks(order, Below(CELLS) - Below(Cutoff(v)))
  {
    assert c in Elems(order);
    var m :| 0 <= m < |order| && order[m] == c;
    CutoffExact(m, v);
    assert InRange(m, CELLS) && m in Below(CELLS) - Below(Cutoff(v));
  }

  lemma RankedHighIsBlack(g: Grid, order: seq<int>, mask: seq<int>, v: int, c: int)
    requires Finished(g, order, mask) && 0 <= v <= 255 && 0 <= Cutoff(v) <= CELLS
    requires c in CellsOfRanks(order, Below(CELLS) - Below(Cutoff(v)))
    ensures c in BlackCells(g, mask, v)
  {
    var m :| m in Below(CELLS) - Below(Cutoff(v)) && order[m] == c;
    assert InRange(m, CELLS) && c in Elems(order);
    NotBelow(m, Cutoff(v));
    CutoffExact(m, v);
  }

  ghost function CellsAt(g: Grid, mask: seq<int>, t: int): set<int>
    requires |mask| == g.Cells()
  {
    set c | c in g.All() && mask[c] == t
  }

  /** Every threshold from 1 to 255 occurs 64 or 65 times, and no other occurs. */
  lemma ThresholdHistogram(g: Grid, order: seq<int>, mask: seq<int>, t: int)
    requires Finished(g, order, mask)
    ensures 1 <= t <= 255 ==> 64 <= |CellsAt(g, mask, t)| <= 65
    ensures !(1 <= t <= 255) ==> CellsAt(g, mask, t) == {}
  {
    forall c | c in g.All() ensures 1 <= mask[c] <= 255 {
      assert c in Elems(order);
      var m :| 0 <= m < |order| && order[m] == c;
      CutoffExact(m, 0);
    }
    if 1 <= t <= 255 {
      BlackCellCount(g, order, mask, t);
      BlackCellCount(g, order, mask, t - 1);
      CutoffRange(t - 1);
      var more, fewer := BlackCells(g, mask, t - 1), BlackCells(g, mask, t);
      assert more == fewer + CellsAt(g, mask, t);
      assert |more| == |fewer| + |CellsAt(g, mask, t)|;
    }
  }

  /** The mask of the scanner's own size, whatever is drawn: 16384 thresholds, evenly
      spread. */
  method BuildMask(d: Dither, ones: nat, draws: seq<nat>) returns (mask: array<int>, ghost order: seq<int>)
    requires d.Valid() && d.Cells() == {} && d.g.n == 128
    requires 1 <= ones && |Drawn(d.g, draws)| >= ones
    modifies d.pattern, d.energy
    ensures fresh(mask) && mask.Length == CELLS && Finished(d.g, order, mask[..])
    ensures exists seeded :: Built(d.g, ones, draws, seeded, order, mask[..])
    ensures Even(d.g, mask[..])
  {
    ghost var seeded;
    mask, seeded, order := d.Build(ones, draws);
    RankingFinishes(d.g, Prototype(d.g, seeded), order, mask[..]);
    FinishedEven(d.g, order, mask[..]);
  }

  /** Every threshold is in range, and each occurs about as often as any other. */
  ghost predicate Even(g: Grid, mask: seq<int>) {
    && |mask| == g.Cells() && (forall c :: 0 <= c < |mask| ==> 1 <= mask[c] <= 255)
    && forall t :: 1 <= t <= 255 ==> 64 <= |CellsAt(g, mask, t)| <= 65
  }

  lemma FinishedEven(g: Grid, order: seq<int>, mask: seq<int>)
    requires Finished(g, order, mask)
    ensures Even(g, mask)
  {
    forall t ensures 1 <= t <= 255 ==> 64 <= |CellsAt(g, mask, t)| <= 65 {
      ThresholdHistogram(g, order, mask, t);
    }
    forall c | 0 <= c < |mask| ensures 1 <= mask[c] <= 255 {
      ThresholdHistogram(g, order, mask, mask[c]);
      assert c in CellsAt(g, mask, mask[c]);
    }
  }

  // ---------------------------------------------------------- flat windows

  lemma {:induction false} ShiftKeepsSize(g: Grid, cells: set<int>, tx: int, ty: int)
    requires g.Valid() && cells <= g.All()
    ensures |ShiftSet(g, cells, tx, ty)| == |cells|
    decreases cells
  {
    if cells == {} {
      assert ShiftSet(g, cells, tx, ty) == {};
    } else {
      var c := Pick(cells);
      var others := cells - {c};
      forall d | d in others ensures g.Shift(d, tx, ty) != g.Shift(c, tx, ty) {
        if g.Shift(d, tx, ty) == g.Shift(c, tx, ty) {
          ShiftInjective(g, c, d, tx, ty);
        }
      }
      assert ShiftSet(g, cells, tx, ty) == ShiftSet(g, others, tx, ty) + {g.Shift(c, tx, ty)};
      ShiftKeepsSize(g, others, tx, ty);
    }
  }

  /** A 128 by 128 window of the page, its pixels numbered in scan order. */
  datatype Window = Window(row: nat, col: nat) {
    function Row(k: int): int { row + k / 128 }

    function Col(k: int): int { col + k % 128 }
  }

  /** Row by row, as wide as the block that brought it makes it useful. */
  ghost predicate Rows(rows: seq<seq<byte>>, avails: seq<nat>) {
    |rows| == |avails| == 128 && forall i :: 0 <= i < 128 ==> |rows[i]| >= avails[i]
  }

  /** The window lies inside the margins, and the curve gives v at every pixel of it. */
  ghost predicate Flat(job: Job, rows: seq<seq<byte>>, avails: seq<nat>, w: Window, v: byte) {
    && job.Valid() && job.format.Bilevel? && job.halftone
    && Rows(rows, avails) && job.Lead() <= w.col && w.col + 128 <= job.Tail()
    && (forall i :: 0 <= i < 128 ==> w.col + 128 <= avails[i])
    && (forall r :: w.row <= r < w.row + 128 ==> !job.MarginRow(r))
    && forall k :: 0 <= k < CELLS ==> job.lut[rows[k / 128][w.Col(k)]] == v
  }

  /** Pixel k of the window is black in the packed rows the frontend gets. */
  ghost predicate Black(job: Job, rows: seq<seq<byte>>, avails: seq<nat>, w: Window, k: int)
    requires job.Valid() && job.format.Bilevel? && Rows(rows, avails) && 0 <= k < CELLS
    requires w.Col(k) < job.pixels
  {
    Bit(ConvertRow(job, rows[k / 128], avails[k / 128], w.Row(k))[w.Col(k) / 8], w.Col(k) % 8)
  }

  lemma BlackByMask(g: Grid, order: seq<int>, job: Job, rows: seq<seq<byte>>, avails: seq<nat>,
                    w: Window, v: byte, k: int)
    requires Finished(g, order, job.mask) && Flat(job, rows, avails, w, v) && 0 <= k < CELLS
    ensures Black(job, rows, avails, w, k) <==> v < job.mask[g.Shift(k, w.col, w.row)]
    ensures g.Shift(k, w.col, w.row) in g.All()
  {
    var i, row := w.Col(k), w.Row(k);
    ConvertedBytes(job, rows[k / 128], avails[k / 128], row);
    var b := DotByte(job, rows[k / 128], avails[k / 128], row, i / 8);
    assert Bit(b, i % 8) == Dot(job, rows[k / 128], avails[k / 128], row, 8 * (i / 8) + i % 8);
    assert job.Seen(row, avails[k / 128], i) by {
      assert !job.MarginRow(row);
    }
    ShiftStaysOnGrid(g, k, w.col, w.row);
    assert g.Shift(k, w.col, w.row) == row % 128 * 128 + i % 128;
  }

  /** The black pixels of the window. */
  ghost function BlackPixels(job: Job, rows: seq<seq<byte>>, avails: seq<nat>, w: Window, v: byte): set<int>
    requires Flat(job, rows, avails, w, v)
  {
    set k | k in Below(CELLS) && 0 <= k < CELLS && Black(job, rows, avails, w, k)
  }

  /** A flat tone is reproduced exactly, wherever the window lies on the page: a curve
      output of v leaves ceil(16384 v / 255) of its 16384 pixels white.  So 0 is all black
      and 255 all white. */
  lemma FlatToneExact(g: Grid, order: seq<int>, job: Job, rows: seq<seq<byte>>, avails: seq<nat>,
                      w: Window, v: byte)
    requires Finished(g, order, job.mask) && Flat(job, rows, avails, w, v)
    ensures |BlackPixels(job, rows, avails, w, v)| == CELLS - Cutoff(v)
    ensures v == 0 ==> |BlackPixels(job, rows, avails, w, v)| == CELLS
    ensures v == 255 ==> |BlackPixels(job, rows, avails, w, v)| == 0
  {
    var black, cells := BlackPixels(job, rows, avails, w, v), BlackCells(g, job.mask, v);
    forall c | c in cells ensures c in ShiftSet(g, black, w.col, w.row) {
      ShiftedGridIsGrid(g, w.col, w.row);
      assert c in ShiftSet(g, g.All(), w.col, w.row);
      var k :| k in g.All() && c == g.Shift(k, w.col, w.row);
      BlackByMask(g, order, job, rows, avails, w, v, k);
      assert k in black;
    }
    forall c | c in ShiftSet(g, black, w.col, w.row) ensures c in cells {
      var k :| k in black && c == g.Shift(k, w.col, w.row);
      BlackByMask(g, order, job, rows, avails, w, v, k);
    }
    assert ShiftSet(g, black, w.col, w.row) == cells;
    ShiftKeepsSize(g, black, w.col, w.row);
    BlackCellCount(g, order, job.mask, v);
    CutoffRange(v);
  }
}
