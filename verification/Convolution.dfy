/** The field as a plain sum over the kernel's entries, and that the field of a pattern is
    that sum at every cell. */
module Convolution {
  import opened Arithmetic
  import opened FiniteSets
  import opened Torus

  /** The cell dx columns and dy rows before cell d. */
  function Before(g: Grid, d: int, dx: int, dy: int): int
    requires g.Valid()
  {
    (d / g.n - dy) % g.n * g.n + (d % g.n - dx) % g.n
  }

  /** The cell from which kernel entry p, in the kernel's own scan order, lands on cell d: as
      many columns and rows before it as the entry lies behind the kernel's centre. */
  function Origin(g: Grid, d: int, p: nat): int
    requires g.Valid()
  {
    Before(g, d, p % (2 * g.r + 1) - g.r, p / (2 * g.r + 1) - g.r)
  }

  /** The first p entries of the kernel, each taken if the cell it comes from is set. */
  ghost function SumOver(g: Grid, pattern: set<int>, d: int, p: nat): nat
    requires g.Valid() && p <= |g.kernel|
  {
    if p == 0 then 0
    else SumOver(g, pattern, d, p - 1) + if Origin(g, d, p - 1) in pattern then g.kernel[p - 1] else 0
  }

  /** The pattern convolved with the kernel, at cell d. */
  ghost function Convolved(g: Grid, pattern: set<int>, d: int): nat
    requires g.Valid()
  {
    SumOver(g, pattern, d, |g.kernel|)
  }

  lemma {:induction false} SumPick(g: Grid, pattern: set<int>, c: int, d: int, p: nat)
    requires g.Valid() && p <= |g.kernel| && c in pattern
    ensures SumOver(g, pattern, d, p) == SumOver(g, {c}, d, p) + SumOver(g, pattern - {c}, d, p)
  {
    if p > 0 {
      SumPick(g, pattern, c, d, p - 1);
    }
  }

  lemma {:induction false} NothingSet(g: Grid, d: int, p: nat)
    requires g.Valid() && p <= |g.kernel|
    ensures SumOver(g, {}, d, p) == 0
  {
    if p > 0 {
      NothingSet(g, d, p - 1);
    }
  }

  /** Along one axis: a is e before b. */
  lemma OffBack(g: Grid, a: int, b: int, e: int)
    requires g.Valid() && 0 <= a < g.n && g.InWindow(e)
    ensures g.Off(a, b) == e <==> a == (b - e) % g.n
  {
    OffAntisymmetric(g, a, b);
    OffInverse(g, b, a, -e);
  }

  /** Entry p of the kernel takes cell c to cell d exactly if it is the entry at d's offset
      from c. */
  lemma OriginByOffset(g: Grid, c: int, d: int, p: nat)
    requires g.Valid() && c in g.All() && d in g.All() && p < |g.kernel|
    ensures var dx, dy := p % (2 * g.r + 1) - g.r, p / (2 * g.r + 1) - g.r;
      && g.InWindow(dx) && g.InWindow(dy)
      && (Origin(g, d, p) == c <==> g.Off(g.Col(c), g.Col(d)) == dx && g.Off(g.Row(c), g.Row(d)) == dy)
  {
    var side := 2 * g.r + 1;
    var dx, dy := p % side - g.r, p / side - g.r;
    EntryInSquare(p, side);
    BeforeIs(g, c, d, dx, dy);
    CoordinatesInRange(g, c);
    OffBack(g, g.Col(c), g.Col(d), dx);
    OffBack(g, g.Row(c), g.Row(d), dy);
  }

  lemma BeforeIs(g: Grid, c: int, d: int, dx: int, dy: int)
    requires g.Valid() && c in g.All()
    ensures Before(g, d, dx, dy) == c <==> g.Row(c) == (g.Row(d) - dy) % g.n && g.Col(c) == (g.Col(d) - dx) % g.n
  {
    CoordinatesInRange(g, c);
    CellCoordinates(g, (g.Row(d) - dy) % g.n, (g.Col(d) - dx) % g.n);
  }

  lemma EntryInSquare(p: nat, side: int)
    requires side > 0 && p < side * side
    ensures 0 <= p / side < side && 0 <= p % side < side
  {
    if p / side >= side {
      assert (p / side - side) * side >= 0;
      Distribute(p / side, -side, side);
      assert false;
    }
  }

  /** The place in the kernel of the weight that c puts on d. */
  function Entry(g: Grid, c: int, d: int): int
    requires g.Valid()
  {
    (g.Off(g.Row(c), g.Row(d)) + g.r) * (2 * g.r + 1) + g.Off(g.Col(c), g.Col(d)) + g.r
  }

  predicate Reaches(g: Grid, c: int, d: int)
    requires g.Valid()
  {
    g.InWindow(g.Off(g.Col(c), g.Col(d))) && g.InWindow(g.Off(g.Row(c), g.Row(d)))
  }

  lemma QuotientAndRest(p: int, q: int, t: int, side: int)
    requires 0 <= t < side
    ensures p == q * side + t <==> p / side == q && p % side == t
  {
    if p == q * side + t {
      DivModUnique(p, q, t, side);
    }
  }

  /** One cell reaches another through one entry of the kernel at most. */
  lemma SoleEntry(g: Grid, c: int, d: int, p: nat)
    requires g.Valid() && c in g.All() && d in g.All() && p < |g.kernel|
    ensures Origin(g, d, p) == c <==> Reaches(g, c, d) && p == Entry(g, c, d)
  {
    OriginByOffset(g, c, d, p);
    var dx, dy := g.Off(g.Col(c), g.Col(d)), g.Off(g.Row(c), g.Row(d));
    if Reaches(g, c, d) {
      QuotientAndRest(p, dy + g.r, dx + g.r, 2 * g.r + 1);
    }
  }

  lemma {:induction false} SumOfOne(g: Grid, c: int, d: int, p: nat)
    requires g.Valid() && c in g.All() && d in g.All() && p <= |g.kernel|
    ensures SumOver(g, {c}, d, p) == if Reaches(g, c, d) && 0 <= Entry(g, c, d) < p then g.kernel[Entry(g, c, d)] else 0
  {
    if p > 0 {
      SumOfOne(g, c, d, p - 1);
      SoleEntry(g, c, d, p - 1);
    }
  }

  lemma WeightIsSum(g: Grid, c: int, d: int)
    requires g.Valid() && c in g.All() && d in g.All()
    ensures Convolved(g, {c}, d) == g.Weight(c, d)
  {
    SumOfOne(g, c, d, |g.kernel|);
    if Reaches(g, c, d) {
      KernelIndexInRange(g.r, g.Off(g.Col(c), g.Col(d)), g.Off(g.Row(c), g.Row(d)));
    }
  }

  /** The field is the convolution of the pattern with the kernel on the torus. */
  lemma {:induction false} FieldIsConvolution(g: Grid, pattern: set<int>, d: int)
    requires g.Valid() && pattern <= g.All() && d in g.All()
    ensures g.Field(pattern, d) == Convolved(g, pattern, d)
    decreases pattern
  {
    if pattern == {} {
      NothingSet(g, d, |g.kernel|);
    } else {
      var c := Pick(pattern);
      SumPick(g, pattern, c, d, |g.kernel|);
      WeightIsSum(g, c, d);
      FieldIsConvolution(g, pattern - {c}, d);
    }
  }

  /** The cell on which kernel entry p lands when it is centred on c. */
  function Landing(g: Grid, c: int, p: nat): int
    requires g.Valid()
  {
    g.Shift(c, p % (2 * g.r + 1) - g.r, p / (2 * g.r + 1) - g.r)
  }

  lemma LandsOnce(g: Grid, c: int, p: nat)
    requires g.Valid() && c in g.All() && p < |g.kernel|
    ensures Landing(g, c, p) in g.All() && Origin(g, Landing(g, c, p), p) == c
  {
    var dx, dy := p % (2 * g.r + 1) - g.r, p / (2 * g.r + 1) - g.r;
    var d := Landing(g, c, p);
    ShiftStaysOnGrid(g, c, dx, dy);
    CoordinatesInRange(g, c);
    CoordinatesInRange(g, d);
    ShiftUndone(g.Col(c), -dx, g.n);
    ShiftUndone(g.Row(c), -dy, g.n);
  }

  /** Back and forth along one axis. */
  lemma ThereAndBack(g: Grid, a: int, b: int, e: int)
    requires g.Valid() && 0 <= b < g.n && a == (b - e) % g.n
    ensures (a + e) % g.n == b
  {
    ShiftUndone(b, e, g.n);
  }

  lemma ShiftedBack(g: Grid, c: int, d: int, dx: int, dy: int)
    requires g.Valid() && c in g.All() && d in g.All()
    requires g.Row(c) == (g.Row(d) - dy) % g.n && g.Col(c) == (g.Col(d) - dx) % g.n
    ensures g.Shift(c, dx, dy) == d
  {
    CoordinatesInRange(g, d);
    ThereAndBack(g, g.Col(c), g.Col(d), dx);
    ThereAndBack(g, g.Row(c), g.Row(d), dy);
  }

  lemma BeforeCoordinates(g: Grid, d: int, dx: int, dy: int)
    requires g.Valid() && d in g.All()
    ensures g.Row(Before(g, d, dx, dy)) == (g.Row(d) - dy) % g.n
    ensures g.Col(Before(g, d, dx, dy)) == (g.Col(d) - dx) % g.n
  {
    CellCoordinates(g, (g.Row(d) - dy) % g.n, (g.Col(d) - dx) % g.n);
  }

  lemma LandsFrom(g: Grid, c: int, d: int, p: nat)
    requires g.Valid() && c in g.All() && d in g.All() && p < |g.kernel| && Origin(g, d, p) == c
    ensures Landing(g, c, p) == d
  {
    var dx, dy := p % (2 * g.r + 1) - g.r, p / (2 * g.r + 1) - g.r;
    BeforeCoordinates(g, d, dx, dy);
    ShiftedBack(g, c, d, dx, dy);
  }

  /** `field` is what one set cell makes of an empty grid: the kernel laid round it, row by
      row, and nothing anywhere else. */
  ghost predicate KernelAround(g: Grid, c: int, field: seq<int>)
    requires g.Valid()
  {
    && |field| == g.Cells()
    && (forall p :: 0 <= p < |g.kernel| ==>
          0 <= Landing(g, c, p) < |field| && field[Landing(g, c, p)] == g.kernel[p])
    && forall d :: 0 <= d < |field| && (forall p :: 0 <= p < |g.kernel| ==> Landing(g, c, p) != d) ==> field[d] == 0
  }

  /** One set cell has the kernel round it: entry p of it where p lands, and nothing where
      none does. */
  lemma FieldOfOne(g: Grid, c: int)
    requires g.Valid() && c in g.All()
    ensures forall p :: 0 <= p < |g.kernel| ==>
      Landing(g, c, p) in g.All() && g.Field({c}, Landing(g, c, p)) == g.kernel[p]
    ensures forall d :: d in g.All() && (forall p :: 0 <= p < |g.kernel| ==> Landing(g, c, p) != d) ==>
      g.Field({c}, d) == 0
  {
    forall p | 0 <= p < |g.kernel|
      ensures Landing(g, c, p) in g.All() && g.Field({c}, Landing(g, c, p)) == g.kernel[p]
    {
      var d := Landing(g, c, p);
      LandsOnce(g, c, p);
      FieldIsConvolution(g, {c}, d);
      SoleEntry(g, c, d, p);
      SumOfOne(g, c, d, |g.kernel|);
    }
    forall d | d in g.All() && (forall p :: 0 <= p < |g.kernel| ==> Landing(g, c, p) != d)
      ensures g.Field({c}, d) == 0
    {
      FieldIsConvolution(g, {c}, d);
      SumOfOne(g, c, d, |g.kernel|);
      if Reaches(g, c, d) {
        var q := Entry(g, c, d);
        KernelIndexInRange(g.r, g.Off(g.Col(c), g.Col(d)), g.Off(g.Row(c), g.Row(d)));
        SoleEntry(g, c, d, q);
        LandsFrom(g, c, d, q);
      }
    }
  }
}
