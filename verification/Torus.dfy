/** The grid the dither mask is grown on: an n by n torus of cells, numbered in scan
    order, and the weight one set cell adds to the field at another.

    The source fixes n at 128 and uses a truncated Gaussian in single precision; here
    the side, the radius and the kernel are arbitrary, with exact integer weights that
    are non-negative and symmetric about the centre. */
module Torus {

  import opened Arithmetic
  import opened FiniteSets

  /** `kernel` holds (2r+1) by (2r+1) weights, row by row. */
  datatype Grid = Grid(n: int, r: int, kernel: seq<nat>) {

    ghost predicate Valid() {
      && 0 <= r && 2 * r + 1 <= n
      && |kernel| == (2 * r + 1) * (2 * r + 1)
      && forall dx, dy :: InWindow(dx) && InWindow(dy) ==> Kernel(dx, dy) == Kernel(-dx, -dy)
    }

    predicate InWindow(d: int) { -r <= d <= r }

    function Kernel(dx: int, dy: int): nat
      requires 0 <= r && |kernel| == (2 * r + 1) * (2 * r + 1)
      requires InWindow(dx) && InWindow(dy)
    {
      KernelIndexInRange(r, dx, dy);
      kernel[(dy + r) * (2 * r + 1) + dx + r]
    }

    function Cells(): (m: int)
      ensures n > 0 ==> m > 0
    {
      n * n
    }

    function Row(c: int): int requires n > 0 { c / n }

    function Col(c: int): int requires n > 0 { c % n }

    /** The signed distance from coordinate a to coordinate b, counted the short way
        round when that is at most r. */
    function Off(a: int, b: int): int
      requires n > 0
    {
      (b - a + r) % n - r
    }

    /** What a set cell c contributes to the field at d. */
    function Weight(c: int, d: int): nat
      requires Valid()
    {
      var dx, dy := Off(Col(c), Col(d)), Off(Row(c), Row(d));
      if InWindow(dx) && InWindow(dy) then Kernel(dx, dy) else 0
    }

    ghost function All(): set<int> { Below(Cells()) }

    /** The field at x: the pattern convolved with the kernel on the torus. */
    ghost function Field(pattern: set<int>, x: int): nat
      requires Valid()
      decreases pattern
    {
      if pattern == {} then 0
      else var c := Pick(pattern); Weight(c, x) + Field(pattern - {c}, x)
    }

    /** The sum of the field of one pattern over the cells of another. */
    ghost function Mutual(pattern: set<int>, over: set<int>): nat
      requires Valid()
      decreases over
    {
      if over == {} then 0
      else var c := Pick(over); Field(pattern, c) + Mutual(pattern, over - {c})
    }

    /** Total pairwise energy: the field of the pattern summed over its own cells. */
    ghost function Energy(pattern: set<int>): nat
      requires Valid()
    {
      Mutual(pattern, pattern)
    }

    /** Cell c moved by tx columns and ty rows. */
    function Shift(c: int, tx: int, ty: int): int
      requires n > 0
    {
      ((Row(c) + ty) % n) * n + (Col(c) + tx) % n
    }
  }

  // ------------------------------------------------------------ arithmetic

  lemma KernelIndexInRange(r: int, dx: int, dy: int)
    requires 0 <= r && -r <= dx <= r && -r <= dy <= r
    ensures 0 <= (dy + r) * (2 * r + 1) + dx + r < (2 * r + 1) * (2 * r + 1)
  {
  }

  lemma ModShift(x: int, k: int, n: int)
    requires n > 0
    ensures (x + k * n) % n == x % n
  {
    DivModUnique(x + k * n, x / n + k, x % n, n);
  }

  /** A cell number and its coordinates determine each other. */
  lemma CellCoordinates(g: Grid, row: int, col: int)
    requires g.n > 0 && 0 <= row < g.n && 0 <= col < g.n
    ensures 0 <= row * g.n + col < g.Cells()
    ensures g.Row(row * g.n + col) == row && g.Col(row * g.n + col) == col
  {
    DivModUnique(row * g.n + col, row, col, g.n);
    assert row * g.n <= (g.n - 1) * g.n;
  }

  lemma CoordinatesInRange(g: Grid, c: int)
    requires g.n > 0 && 0 <= c < g.Cells()
    ensures 0 <= g.Row(c) < g.n && 0 <= g.Col(c) < g.n
    ensures c == g.Row(c) * g.n + g.Col(c)
  {
  }

  // -------------------------------------------------------- window offsets

  /** Inside the window, the offset names exactly one coordinate. */
  lemma OffInverse(g: Grid, a: int, b: int, d: int)
    requires g.Valid() && 0 <= b < g.n && g.InWindow(d)
    ensures g.Off(a, b) == d <==> b == (a + d) % g.n
  {
    var n, r := g.n, g.r;
    if g.Off(a, b) == d {
      var q := (b - a + r) / n;
      assert b - a + r == q * n + (d + r);
      DivModUnique(a + d, -q, b, n);
    }
    if b == (a + d) % n {
      var q := (a + d) / n;
      DivModUnique(b - a + r, -q, d + r, n);
    }
  }

  lemma OffAntisymmetric(g: Grid, a: int, b: int)
    requires g.Valid()
    ensures g.InWindow(g.Off(a, b)) <==> g.InWindow(g.Off(b, a))
    ensures g.InWindow(g.Off(a, b)) ==> g.Off(b, a) == -g.Off(a, b)
  {
    var n, r := g.n, g.r;
    var q, m := (b - a + r) / n, (b - a + r) % n;
    assert a - b + r == -q * n + (2 * r - m);
    if m <= 2 * r {
      DivModUnique(a - b + r, -q, 2 * r - m, n);
    } else {
      DivModUnique(a - b + r, -q - 1, 2 * r - m + n, n);
    }
  }

  lemma OffShiftInvariant(g: Grid, a: int, b: int, t: int)
    requires g.n > 0
    ensures g.Off((a + t) % g.n, (b + t) % g.n) == g.Off(a, b)
  {
    var n := g.n;
    var k := (a + t) / n - (b + t) / n;
    assert (b + t) % n - (a + t) % n + g.r == (b - a + g.r) + k * n;
    ModShift(b - a + g.r, k, n);
  }

  // ---------------------------------------------------------------- weights

  lemma WeightSymmetric(g: Grid, c: int, d: int)
    requires g.Valid()
    ensures g.Weight(c, d) == g.Weight(d, c)
  {
    OffAntisymmetric(g, g.Col(c), g.Col(d));
    OffAntisymmetric(g, g.Row(c), g.Row(d));
  }

  /** Every cell weighs the same on itself. */
  lemma WeightSelf(g: Grid, c: int)
    requires g.Valid()
    ensures g.Weight(c, c) == g.Kernel(0, 0)
  {
    DivModUnique(g.r, 0, g.r, g.n);
  }

  lemma ShiftStaysOnGrid(g: Grid, c: int, tx: int, ty: int)
    requires g.Valid()
    ensures g.Shift(c, tx, ty) in g.All()
    ensures g.Row(g.Shift(c, tx, ty)) == (g.Row(c) + ty) % g.n
    ensures g.Col(g.Shift(c, tx, ty)) == (g.Col(c) + tx) % g.n
  {
    CellCoordinates(g, (g.Row(c) + ty) % g.n, (g.Col(c) + tx) % g.n);
  }

  lemma WeightTranslates(g: Grid, c: int, d: int, tx: int, ty: int)
    requires g.Valid()
    ensures g.Weight(g.Shift(c, tx, ty), g.Shift(d, tx, ty)) == g.Weight(c, d)
  {
    ShiftStaysOnGrid(g, c, tx, ty);
    ShiftStaysOnGrid(g, d, tx, ty);
    OffShiftInvariant(g, g.Col(c), g.Col(d), tx);
    OffShiftInvariant(g, g.Row(c), g.Row(d), ty);
  }

  lemma ModInjective(a: int, b: int, t: int, n: int)
    requires 0 <= a < n && 0 <= b < n && (a + t) % n == (b + t) % n
    ensures a == b
  {
    var k := (a + t) / n - (b + t) / n;
    assert a - b == k * n;
    MultipleInRange(k, n);
  }

  lemma ShiftInjective(g: Grid, c: int, d: int, tx: int, ty: int)
    requires g.Valid() && c in g.All() && d in g.All()
    requires g.Shift(c, tx, ty) == g.Shift(d, tx, ty)
    ensures c == d
  {
    ShiftStaysOnGrid(g, c, tx, ty);
    ShiftStaysOnGrid(g, d, tx, ty);
    CoordinatesInRange(g, c);
    CoordinatesInRange(g, d);
    ModInjective(g.Col(c), g.Col(d), tx, g.n);
    ModInjective(g.Row(c), g.Row(d), ty, g.n);
  }

  /** Some translation carries any cell onto any other, and the whole grid onto itself. */
  lemma ShiftReaches(g: Grid, x: int, y: int)
    requires g.Valid() && x in g.All() && y in g.All()
    ensures g.Shift(x, g.Col(y) - g.Col(x), g.Row(y) - g.Row(x)) == y
  {
    CoordinatesInRange(g, y);
    DivModUnique(g.Col(y), 0, g.Col(y), g.n);
    DivModUnique(g.Row(y), 0, g.Row(y), g.n);
  }

  // ------------------------------------------------------------------ field

  /** The field does not depend on the order in which the cells are summed. */
  lemma {:induction false} FieldPick(g: Grid, pattern: set<int>, c: int, x: int)
    requires g.Valid() && c in pattern
    ensures g.Field(pattern, x) == g.Weight(c, x) + g.Field(pattern - {c}, x)
    decreases pattern
  {
    var b := Pick(pattern);
    if b != c {
      FieldPick(g, pattern - {b}, c, x);
      FieldPick(g, pattern - {c}, b, x);
      assert pattern - {b} - {c} == pattern - {c} - {b};
    }
  }

  /** Toggling one cell changes the field by exactly that cell's weight. */
  lemma FieldAdd(g: Grid, pattern: set<int>, c: int, x: int)
    requires g.Valid() && c !in pattern
    ensures g.Field(pattern + {c}, x) == g.Field(pattern, x) + g.Weight(c, x)
  {
    FieldPick(g, pattern + {c}, c, x);
    assert pattern + {c} - {c} == pattern;
  }

  lemma {:induction false} FieldDisjointUnion(g: Grid, p: set<int>, q: set<int>, x: int)
    requires g.Valid() && p !! q
    ensures g.Field(p + q, x) == g.Field(p, x) + g.Field(q, x)
    decreases q
  {
    if q == {} {
      assert p + q == p;
    } else {
      var c := Pick(q);
      FieldPick(g, q, c, x);
      FieldPick(g, p + q, c, x);
      assert p + q - {c} == p + (q - {c});
      FieldDisjointUnion(g, p, q - {c}, x);
    }
  }

  ghost function ShiftSet(g: Grid, pattern: set<int>, tx: int, ty: int): set<int>
    requires g.n > 0
  {
    set c | c in pattern :: g.Shift(c, tx, ty)
  }

  /** Convolution on the torus commutes with translation. */
  lemma {:induction false} FieldTranslates(g: Grid, pattern: set<int>, x: int, tx: int, ty: int)
    requires g.Valid() && pattern <= g.All()
    ensures g.Field(ShiftSet(g, pattern, tx, ty), g.Shift(x, tx, ty)) == g.Field(pattern, x)
    decreases pattern
  {
    if pattern == {} {
      assert ShiftSet(g, pattern, tx, ty) == {};
    } else {
      var c := Pick(pattern);
      var c', image := g.Shift(c, tx, ty), ShiftSet(g, pattern, tx, ty);
      assert image - {c'} == ShiftSet(g, pattern - {c}, tx, ty) by {
        forall d | d in pattern && g.Shift(d, tx, ty) == c' ensures d == c {
          ShiftInjective(g, c, d, tx, ty);
        }
      }
      FieldPick(g, pattern, c, x);
      FieldPick(g, image, c', g.Shift(x, tx, ty));
      WeightTranslates(g, c, x, tx, ty);
      FieldTranslates(g, pattern - {c}, x, tx, ty);
    }
  }

  lemma ShiftedGridIsGrid(g: Grid, tx: int, ty: int)
    requires g.Valid()
    ensures ShiftSet(g, g.All(), tx, ty) == g.All()
  {
    forall d | d in g.All() ensures d in ShiftSet(g, g.All(), tx, ty) {
      var c := g.Shift(d, -tx, -ty);
      ShiftStaysOnGrid(g, d, -tx, -ty);
      CoordinatesInRange(g, d);
      ShiftUndone(g.Col(d), tx, g.n);
      ShiftUndone(g.Row(d), ty, g.n);
      assert g.Shift(c, tx, ty) == d;
    }
    forall d | d in ShiftSet(g, g.All(), tx, ty) ensures d in g.All() {
      var c :| c in g.All() && d == g.Shift(c, tx, ty);
      ShiftStaysOnGrid(g, c, tx, ty);
    }
  }

  lemma ShiftUndone(a: int, t: int, n: int)
    requires 0 <= a < n
    ensures ((a - t) % n + t) % n == a
  {
    DivModUnique((a - t) % n + t, -((a - t) / n), a, n);
  }

  /** A full grid has the same field everywhere. */
  lemma FullFieldConstant(g: Grid, x: int, y: int)
    requires g.Valid() && x in g.All() && y in g.All()
    ensures g.Field(g.All(), x) == g.Field(g.All(), y)
  {
    ShiftReaches(g, x, y);
    FullFieldTranslates(g, x, g.Col(y) - g.Col(x), g.Row(y) - g.Row(x));
  }

  lemma FullFieldTranslates(g: Grid, x: int, tx: int, ty: int)
    requires g.Valid()
    ensures g.Field(g.All(), g.Shift(x, tx, ty)) == g.Field(g.All(), x)
  {
    ShiftedGridIsGrid(g, tx, ty);
    FieldTranslates(g, g.All(), x, tx, ty);
  }

  /** The complement's field is a constant minus the pattern's. */
  lemma ComplementField(g: Grid, pattern: set<int>, x: int, y: int)
    requires g.Valid() && pattern <= g.All() && x in g.All() && y in g.All()
    ensures g.Field(pattern, x) + g.Field(g.All() - pattern, x)
            == g.Field(pattern, y) + g.Field(g.All() - pattern, y)
  {
    assert pattern + (g.All() - pattern) == g.All();
    FieldDisjointUnion(g, pattern, g.All() - pattern, x);
    FieldDisjointUnion(g, pattern, g.All() - pattern, y);
    FullFieldConstant(g, x, y);
  }

  // ----------------------------------------------------------------- energy

  lemma {:induction false} MutualPick(g: Grid, pattern: set<int>, over: set<int>, c: int)
    requires g.Valid() && c in over
    ensures g.Mutual(pattern, over) == g.Field(pattern, c) + g.Mutual(pattern, over - {c})
    decreases over
  {
    var b := Pick(over);
    if b != c {
      MutualPick(g, pattern, over - {b}, c);
      MutualPick(g, pattern, over - {c}, b);
      assert over - {b} - {c} == over - {c} - {b};
    }
  }

  lemma {:induction false} MutualAdd(g: Grid, pattern: set<int>, over: set<int>, c: int)
    requires g.Valid() && c !in pattern
    ensures g.Mutual(pattern + {c}, over) == g.Mutual(pattern, over) + g.Field(over, c)
    decreases over
  {
    if over != {} {
      var b := Pick(over);
      MutualPick(g, pattern + {c}, over, b);
      MutualPick(g, pattern, over, b);
      FieldAdd(g, pattern, c, b);
      WeightSymmetric(g, b, c);
      FieldPick(g, over, b, c);
      MutualAdd(g, pattern, over - {b}, c);
    }
  }

  /** Adding a cell raises the total energy by twice its field plus its own weight. */
  lemma EnergyAdd(g: Grid, pattern: set<int>, c: int)
    requires g.Valid() && c !in pattern
    ensures g.Energy(pattern + {c}) == g.Energy(pattern) + 2 * g.Field(pattern, c) + g.Kernel(0, 0)
  {
    var bigger := pattern + {c};
    MutualPick(g, bigger, bigger, c);
    assert bigger - {c} == pattern;
    MutualAdd(g, pattern, pattern, c);
    FieldAdd(g, pattern, c, c);
    WeightSelf(g, c);
  }
}
