/** The halftone mask generator: a bit pattern and its energy field, kept in step cell by
    cell, and the rearranging, thinning and filling loops that rank every cell. */
module VoidCluster {
  import opened FiniteSets
  import opened Torus
  import opened Greedy
  import opened Convolution

  /** The cell a number drawn by the seeding generator names. */
  ghost function CellOf(g: Grid, draw: nat): (c: int)
    requires g.Valid()
    ensures c in g.All()
  {
    draw % g.Cells()
  }

  /** The cells a run of draws names. */
  ghost function Drawn(g: Grid, draws: seq<nat>): set<int>
    requires g.Valid()
  {
    set d | d in draws :: CellOf(g, d)
  }

  /** The threshold of a rank: 1 to 255, so that no mask whitens a sample of 0 or blackens
      one of 255. */
  ghost function Threshold(rank: int, cells: int): int
    requires cells > 0
  {
    1 + rank * 255 / cells
  }

  lemma DrawnSnoc(g: Grid, draws: seq<nat>, at: nat)
    requires g.Valid() && at < |draws|
    ensures Drawn(g, draws[..at + 1]) == Drawn(g, draws[..at]) + {CellOf(g, draws[at])}
    ensures Drawn(g, draws[..at]) <= Drawn(g, draws)
  {
  }

  /** The offset from one cell to another, as columns and rows. */
  function OffX(g: Grid, c: int, d: int): int requires g.n > 0 { g.Off(g.Col(c), g.Col(d)) }

  function OffY(g: Grid, c: int, d: int): int requires g.n > 0 { g.Off(g.Row(c), g.Row(d)) }

  /** The part of a cell's weight at d that kernel row dy holds, before column dx. */
  ghost function InRow(g: Grid, cell: int, d: int, dy: int, dx: int): nat
    requires g.Valid()
  {
    if OffY(g, cell, d) == dy && OffX(g, cell, d) < dx then g.Weight(cell, d) else 0
  }

  /** The part of a cell's weight at d that the kernel rows before dy hold. */
  ghost function InRows(g: Grid, cell: int, d: int, dy: int): nat
    requires g.Valid()
  {
    if OffY(g, cell, d) < dy then g.Weight(cell, d) else 0
  }

  /** Kernel entry (dx, dy) lands on one cell only. */
  lemma KernelEntry(g: Grid, cell: int, d: int, dy: int, dx: int)
    requires g.Valid() && d in g.All() && g.InWindow(dx) && g.InWindow(dy)
    ensures var target := ((g.Row(cell) + dy) % g.n) * g.n + (g.Col(cell) + dx) % g.n;
      InRow(g, cell, d, dy, dx + 1)
      == InRow(g, cell, d, dy, dx) + if d == target then g.Kernel(dx, dy) else 0
  {
    var row, col := (g.Row(cell) + dy) % g.n, (g.Col(cell) + dx) % g.n;
    CoordinatesInRange(g, d);
    CellCoordinates(g, row, col);
    OffInverse(g, g.Row(cell), g.Row(d), dy);
    OffInverse(g, g.Col(cell), g.Col(d), dx);
  }

  lemma KernelRow(g: Grid, cell: int, d: int, dy: int)
    requires g.Valid() && g.InWindow(dy)
    ensures InRows(g, cell, d, dy + 1) == InRows(g, cell, d, dy) + InRow(g, cell, d, dy, g.r + 1)
  {
  }

  class Dither {
    const g: Grid
    const pattern: array<bool>
    const energy: array<int>

    constructor (g: Grid)
      requires g.Valid()
      ensures this.g == g && Valid() && Cells() == {}
      ensures fresh(pattern) && fresh(energy)
    {
      this.g := g;
      pattern := new bool[g.Cells()](_ => false);
      energy := new int[g.Cells()](_ => 0);
    }

    /** The set cells. */
    ghost function Cells(): set<int>
      reads pattern
    {
      set c | 0 <= c < pattern.Length && pattern[c]
    }

    ghost predicate Sized() {
      && g.Valid() && pattern.Length == g.Cells() && energy.Length == g.Cells()
      && pattern as object != energy
    }

    /** The energy array is the convolution of the pattern with the kernel. */
    ghost predicate Valid()
      reads pattern, energy
    {
      && Sized()
      && forall d :: 0 <= d < energy.Length ==> energy[d] == g.Field(Cells(), d)
    }

    /** Change one cell, and the energy of every cell by its weight. */
    method Toggle(cell: int, on: bool)
      requires Valid() && 0 <= cell < pattern.Length && pattern[cell] != on
      modifies pattern, energy
      ensures Valid()
      ensures Cells() == if on then old(Cells()) + {cell} else old(Cells()) - {cell}
      ensures Convolving()
      ensures on && old(Cells()) == {} ==> KernelAround(g, cell, energy[..])
    {
      ghost var was := Cells();
      pattern[cell] := on;
      ghost var now := if on then was + {cell} else was - {cell};
      assert Cells() == now;
      label folding:
      Fold(cell, if on then 1 else -1);
      assert Cells() == now;
      forall d | 0 <= d < energy.Length
        ensures energy[d] == g.Field(now, d)
      {
        assert old@folding(energy[d]) == g.Field(was, d);
        if on {
          FieldAdd(g, was, cell, d);
        } else {
          FieldPick(g, was, cell, d);
        }
      }
      Convolves();
      if on && was == {} {
        assert now == {cell};
        FieldOfOne(g, cell);
      }
    }

    /** Every energy is the sum of the kernel's entries that land there from a set cell. */
    ghost predicate Convolving()
      reads pattern, energy
      requires Sized()
    {
      forall d :: 0 <= d < energy.Length ==> energy[d] == Convolved(g, Cells(), d)
    }

    lemma Convolves()
      requires Valid()
      ensures Convolving()
    {
      forall d | 0 <= d < energy.Length ensures energy[d] == Convolved(g, Cells(), d) {
        FieldIsConvolution(g, Cells(), d);
      }
    }

    /** The energy half of Toggle: add or take away the kernel, centred on the cell. */
    method Fold(cell: int, sign: int)
      requires Sized() && 0 <= cell < pattern.Length
      modifies energy
      ensures forall d :: 0 <= d < energy.Length ==>
        energy[d] == old(energy[d]) + sign * g.Weight(cell, d)
    {
      var cy := cell / g.n;
      var dy := -g.r;
      while dy <= g.r
        invariant -g.r <= dy <= g.r + 1
        invariant forall d :: 0 <= d < energy.Length ==>
          energy[d] == old(energy[d]) + sign * InRows(g, cell, d, dy)
      {
        FoldRow(cell, dy, ((cy + dy) % g.n) * g.n, sign);
        forall d | 0 <= d < energy.Length
          ensures energy[d] == old(energy[d]) + sign * InRows(g, cell, d, dy + 1)
        {
          KernelRow(g, cell, d, dy);
        }
        dy := dy + 1;
      }
    }

    method FoldRow(cell: int, dy: int, row: int, sign: int)
      requires Sized() && 0 <= cell < pattern.Length && g.InWindow(dy)
      requires row == ((g.Row(cell) + dy) % g.n) * g.n
      modifies energy
      ensures forall d :: 0 <= d < energy.Length ==>
        energy[d] == old(energy[d]) + sign * InRow(g, cell, d, dy, g.r + 1)
    {
      var cx := cell % g.n;
      var dx := -g.r;
      while dx <= g.r
        invariant -g.r <= dx <= g.r + 1
        invariant forall d :: 0 <= d < energy.Length ==>
          energy[d] == old(energy[d]) + sign * InRow(g, cell, d, dy, dx)
      {
        var col := (cx + dx) % g.n;
        CellCoordinates(g, (g.Row(cell) + dy) % g.n, col);
        ghost var was := energy[..];
        energy[row + col] := energy[row + col] + sign * g.Kernel(dx, dy);
        forall d | 0 <= d < energy.Length
          ensures energy[d] == old(energy[d]) + sign * InRow(g, cell, d, dy, dx + 1)
        {
          KernelEntry(g, cell, d, dy, dx);
          assert energy[d] == was[d] + if d == row + col then sign * g.Kernel(dx, dy) else 0;
        }
        dx := dx + 1;
      }
    }

    /** The first cell in scan order with the most extreme energy among those of the
        wanted colour, or -1 when there is none. */
    method Extreme(want: bool, biggest: bool) returns (best: int)
      requires Valid()
      ensures best == -1 <==> (if want then Cells() else g.All() - Cells()) == {}
      ensures best != -1 ==>
        IsBest(g, Cells(), if want then Cells() else g.All() - Cells(), biggest, best)
    {
      best := -1;
      var bestE := 0;
      var i := 0;
      while i < pattern.Length
        invariant 0 <= i <= pattern.Length
        invariant best == -1 ==> forall k :: 0 <= k < i ==> pattern[k] != want
        invariant best != -1 ==> 0 <= best < i && pattern[best] == want && bestE == energy[best]
        invariant best != -1 ==> forall k :: 0 <= k < i && pattern[k] == want ==>
          (if biggest then energy[k] < bestE else energy[k] > bestE) || (energy[k] == bestE && best <= k)
      {
        if pattern[i] == want {
          if best < 0 || (if biggest then energy[i] > bestE else energy[i] < bestE) {
            best := i;
            bestE := energy[i];
          }
        }
        i := i + 1;
      }
      ghost var among := if want then Cells() else g.All() - Cells();
      if best != -1 {
        assert best in among;
        forall d | d in among ensures Beats(g, Cells(), biggest, best, d) {
          assert pattern[d] == want;
        }
      } else {
        assert forall d :: d in among ==> pattern[d] == want;
      }
    }

    /** Lift the tightest cluster out of the pattern. */
    method TakeCluster() returns (cluster: int)
      requires Valid() && Cells() != {}
      modifies pattern, energy
      ensures Valid() && IsCluster(g, old(Cells()), cluster)
      ensures Cells() == old(Cells()) - {cluster}
    {
      cluster := Extreme(true, true);
      if cluster < 0 {
        assert false;
        return;
      }
      Toggle(cluster, false);
    }

    /** Fill the largest void. */
    method PlugVoid() returns (hole: int)
      requires Valid() && g.All() - Cells() != {}
      modifies pattern, energy
      ensures Valid() && IsVoid(g, old(Cells()), hole)
      ensures Cells() == old(Cells()) + {hole}
    {
      hole := Extreme(false, false);
      if hole < 0 {
        assert false;
        return;
      }
      Toggle(hole, true);
    }

    /** White noise: set the cells the generator names, passing over repeats. */
    method Seed(ones: nat, draws: seq<nat>)
      requires Valid() && Cells() == {}
      requires |Drawn(g, draws)| >= ones
      modifies pattern, energy
      ensures Valid() && |Cells()| == ones && Cells() <= Drawn(g, draws)
      ensures exists k: nat :: k <= |draws| && Cells() == Drawn(g, draws[..k])
    {
      var placed, at := 0, 0;
      assert Drawn(g, draws[..0]) == {};
      while placed < ones
        invariant 0 <= at <= |draws| && placed <= ones
        invariant Valid() && Cells() == Drawn(g, draws[..at]) && |Cells()| == placed
        decreases |draws| - at
      {
        assert at < |draws| by {
          assert draws[..|draws|] == draws;
        }
        var cell := draws[at] % pattern.Length;
        assert cell == CellOf(g, draws[at]);
        DrawnSnoc(g, draws, at);
        at := at + 1;
        if pattern[cell] {
          assert cell in Cells();
          continue;
        }
        Toggle(cell, true);
        placed := placed + 1;
      }
      if at < |draws| {
        DrawnSnoc(g, draws, at);
      } else {
        assert draws[..at] == draws;
      }
    }

    /** Go from the pattern to its prototype, one cell at a time. */
    method Rearrange()
      requires Valid() && Cells() != {} && Cells() <= g.All()
      modifies pattern, energy
      ensures Valid() && Cells() == Prototype(g, old(Cells()))
    {
      while true
        invariant Valid() && Cells() != {} && Cells() <= g.All()
        invariant Prototype(g, Cells()) == Prototype(g, old(Cells()))
        decreases g.Energy(Cells()), IndexSum(Cells())
      {
        ghost var was := Cells();
        var cluster := TakeCluster();
        BestUnique(g, was, was, true, cluster, Cluster(g, was));
        assert cluster in g.All() - Cells();
        var hole := PlugVoid();
        BestUnique(g, was - {cluster}, g.All() - (was - {cluster}), false, hole, Hole(g, was));
        if hole == cluster {
          assert Cells() == was;
          break;
        }
        MoveLowers(g, was);
        MoveKeepsSize(g, was);
        assert Cells() == Moved(was, cluster, hole);
      }
    }

    /** Thin the prototype out, tightest cluster first, ranking downwards. */
    method Thin(ones: nat, rank: array<uint16>) returns (ghost order: seq<int>)
      requires Valid() && |Cells()| == ones && ones <= 0x1_0000 && Cells() <= g.All()
      requires rank.Length == pattern.Length && rank as object != energy
      modifies pattern, energy, rank
      ensures Valid() && Cells() == {}
      ensures |order| == ones && Filled(g, ones, old(Cells()), order)
      ensures RanksAre(rank[..], order, 0)
    {
      ghost var start := Cells();
      order := [];
      var i := ones - 1;
      while i >= 0
        invariant -1 <= i < ones && |Cells()| == i + 1 && |order| == ones - 1 - i
        invariant Valid() && Thinned(g, Cells(), order, start)
        invariant RanksAre(rank[..], order, i + 1)
      {
        order := ThinOne(rank, i, order, start);
        i := i - 1;
      }
      ThinnedOut(g, order, start);
    }

    /** Give the tightest cluster rank i, and take it out. */
    method ThinOne(rank: array<uint16>, i: uint16, ghost order: seq<int>, ghost start: set<int>)
        returns (ghost longer: seq<int>)
      requires Valid() && |Cells()| == i + 1 && Thinned(g, Cells(), order, start) && start <= g.All()
      requires rank.Length == pattern.Length && rank as object != energy && RanksAre(rank[..], order, i + 1)
      modifies pattern, energy, rank
      ensures Valid() && |Cells()| == i && |longer| == |order| + 1
      ensures Thinned(g, Cells(), longer, start) && RanksAre(rank[..], longer, i)
    {
      ghost var was, ranks := Cells(), rank[..];
      var cluster := TakeCluster();
      ThinningStep(g, was, cluster, order, start);
      RankBelow(ranks, order, cluster, i);
      rank[cluster] := i;
      assert rank[..] == ranks[cluster := i];
      longer := [cluster] + order;
    }

    /** Back to a saved pattern. */
    method Restore(proto: seq<bool>)
      requires Valid() && |proto| == pattern.Length
      modifies pattern, energy
      ensures Valid() && pattern[..] == proto
    {
      forall c | 0 <= c < pattern.Length { pattern[c] := false; }
      forall c | 0 <= c < energy.Length { energy[c] := 0; }
      assert Cells() == {};
      var i := 0;
      while i < pattern.Length
        invariant 0 <= i <= pattern.Length && Valid()
        invariant forall c :: 0 <= c < pattern.Length ==> pattern[c] == (c < i && proto[c])
      {
        if proto[i] {
          ghost var was := Cells();
          Toggle(i, true);
          forall c | 0 <= c < pattern.Length
            ensures pattern[c] == (c < i + 1 && proto[c])
          {
            assert pattern[c] == (c in Cells());
            assert c in was <==> (c < i && proto[c]);
          }
        }
        i := i + 1;
      }
    }

    /** Rank the cells that are still clear, in the order in which voids are filled. */
    method Fill(ones: nat, rank: array<uint16>, ghost low: seq<int>) returns (ghost order: seq<int>)
      requires Valid() && |Cells()| == ones && g.Cells() <= 0x1_0000
      requires rank.Length == pattern.Length && rank as object != energy
      requires Filled(g, ones, Cells(), low) && |low| == ones && RanksAre(rank[..], low, 0)
      modifies pattern, energy, rank
      ensures IsRanking(g, old(Cells()), order) && RanksAre(rank[..], order, 0)
    {
      order := low;
      ghost var start := Cells();
      BelowSize(g.Cells());
      SubsetSize(Cells(), g.All());
      var i := ones;
      while i < pattern.Length
        invariant ones <= i <= pattern.Length && |order| == i
        invariant Valid() && |Cells()| == i
        invariant order[..ones] == low
        invariant Filled(g, ones, Cells(), order) && RanksAre(rank[..], order, 0)
      {
        order := FillOne(ones, rank, i, order);
        i := i + 1;
      }
      FullSize(Cells(), g.All());
    }

    /** Give the largest void rank i. */
    method FillOne(ones: nat, rank: array<uint16>, i: nat, ghost order: seq<int>) returns (ghost longer: seq<int>)
      requires Valid() && |Cells()| == i < g.Cells() <= 0x1_0000
      requires rank.Length == pattern.Length && rank as object != energy
      requires ones <= i == |order| && Filled(g, ones, Cells(), order) && RanksAre(rank[..], order, 0)
      modifies pattern, energy, rank
      ensures Valid() && |Cells()| == i + 1 == |longer| && order <= longer
      ensures Filled(g, ones, Cells(), longer) && RanksAre(rank[..], longer, 0)
    {
      ghost var was, ranks := Cells(), rank[..];
      BelowSize(g.Cells());
      assert g.All() - Cells() != {} by {
        DifferenceOfSmaller(g.All(), Cells());
      }
      var hole := PlugVoid();
      FillingStep(g, ones, was, order, hole);
      RankAbove(ranks, order, hole, i);
      rank[hole] := i;
      assert rank[..] == ranks[hole := i as uint16];
      longer := order + [hole];
    }

    /** Rank every cell, starting from the prototype the pattern holds. */
    method Rank(ones: nat) returns (rank: array<uint16>, ghost order: seq<int>)
      requires Valid() && |Cells()| == ones && Cells() <= g.All() && g.Cells() <= 0x1_0000
      modifies pattern, energy
      ensures IsRanking(g, old(Cells()), order)
      ensures rank.Length == |order| && RanksAre(rank[..], order, 0)
    {
      BelowSize(g.Cells());
      SubsetSize(Cells(), g.All());
      var proto := pattern[..];
      ghost var prototype := Cells();
      rank := new uint16[pattern.Length](_ => 0);
      ghost var low := Thin(ones, rank);
      Restore(proto);
      assert Cells() == prototype;
      order := Fill(ones, rank, low);
    }

    /** The thresholds of the mask. */
    method Build(ones: nat, draws: seq<nat>)
        returns (mask: array<int>, ghost seeded: set<int>, ghost order: seq<int>)
      requires Valid() && Cells() == {}
      requires 1 <= ones && g.Cells() <= 0x1_0000
      requires |Drawn(g, draws)| >= ones
      modifies pattern, energy
      ensures fresh(mask) && seeded <= Drawn(g, draws)
      ensures Built(g, ones, draws, seeded, order, mask[..])
    {
      Seed(ones, draws);
      seeded := Cells();
      PrototypeAtRest(g, seeded);
      Rearrange();
      var rank;
      rank, order := Rank(ones);
      mask := Spread(rank);
      MaskOfRanks(rank[..], order, mask[..]);
    }
  }

  /** `seeded` are the first so many different cells that the draws name. */
  ghost predicate Seeded(g: Grid, ones: nat, draws: seq<nat>, seeded: set<int>)
    requires g.Valid()
  {
    && |seeded| == ones && seeded <= g.All()
    && exists k: nat :: k <= |draws| && seeded == Drawn(g, draws[..k])
  }

  /** The mask is the one that the ranking of the prototype of the seeded cells calls for. */
  ghost predicate Built(g: Grid, ones: nat, draws: seq<nat>, seeded: set<int>, order: seq<int>, mask: seq<int>)
    requires g.Valid()
  {
    && ones > 0 && Seeded(g, ones, draws, seeded) && seeded != {}
    && IsRanking(g, Prototype(g, seeded), order) && MaskFollows(mask, order)
  }

  lemma SeededUnique(g: Grid, ones: nat, draws: seq<nat>, a: set<int>, b: set<int>)
    requires g.Valid() && Seeded(g, ones, draws, a) && Seeded(g, ones, draws, b)
    ensures a == b
  {
    var i: nat :| i <= |draws| && a == Drawn(g, draws[..i]);
    var j: nat :| j <= |draws| && b == Drawn(g, draws[..j]);
    if i <= j {
      assert draws[..i] <= draws[..j];
      FullSize(a, b);
    } else {
      assert draws[..j] <= draws[..i];
      FullSize(b, a);
    }
  }

  /** The draws alone decide the mask, to the last threshold. */
  lemma DrawsDecideMask(g: Grid, ones: nat, draws: seq<nat>, seeded: set<int>, order: seq<int>, mask: seq<int>,
                        seeded': set<int>, order': seq<int>, mask': seq<int>)
    requires g.Valid() && Built(g, ones, draws, seeded, order, mask)
    requires Built(g, ones, draws, seeded', order', mask')
    ensures mask == mask' && order == order' && seeded == seeded'
  {
    SeededUnique(g, ones, draws, seeded, seeded');
    RankingUnique(g, Prototype(g, seeded), order, order');
    forall c | 0 <= c < |mask| ensures mask[c] == mask'[c] {
      assert c in Elems(order);
      var m :| 0 <= m < |order| && order[m] == c;
    }
  }

  /** Spread the ranks over the thresholds. */
  method Spread(rank: array<uint16>) returns (mask: array<int>)
    ensures fresh(mask) && mask.Length == rank.Length
    ensures forall c :: 0 <= c < rank.Length ==> mask[c] == Threshold(rank[c], rank.Length)
  {
    mask := new int[rank.Length];
    var i := 0;
    while i < mask.Length
      invariant 0 <= i <= mask.Length
      invariant forall c :: 0 <= c < i ==> mask[c] == Threshold(rank[c], rank.Length)
    {
      mask[i] := 1 + rank[i] * 255 / rank.Length;
      i := i + 1;
    }
  }

  type uint16 = x: int | 0 <= x < 0x1_0000

  /** The cells of `order` hold consecutive ranks counting from `first`. */
  ghost predicate RanksAre(ranks: seq<uint16>, order: seq<int>, first: int) {
    forall m :: 0 <= m < |order| ==>
      0 <= order[m] < |ranks| && ranks[order[m]] == first + m
  }

  /** Every cell's threshold is the one its rank calls for. */
  ghost predicate MaskFollows(mask: seq<int>, order: seq<int>) {
    && |mask| == |order|
    && forall m :: 0 <= m < |order| ==>
      0 <= order[m] < |mask| && mask[order[m]] == Threshold(m, |order|)
  }

  lemma MaskOfRanks(ranks: seq<uint16>, order: seq<int>, mask: seq<int>)
    requires RanksAre(ranks, order, 0) && |ranks| == |order| == |mask|
    requires forall c :: 0 <= c < |mask| ==> mask[c] == Threshold(ranks[c], |ranks|)
    ensures MaskFollows(mask, order)
  {
  }

  lemma RankBelow(ranks: seq<uint16>, order: seq<int>, cell: int, first: uint16)
    requires 0 <= cell < |ranks| && cell !in order && RanksAre(ranks, order, first + 1)
    ensures RanksAre(ranks[cell := first], [cell] + order, first)
  {
  }

  lemma RankAbove(ranks: seq<uint16>, order: seq<int>, cell: int, last: uint16)
    requires 0 <= cell < |ranks| && cell !in order && RanksAre(ranks, order, 0)
    requires last == |order|
    ensures RanksAre(ranks[cell := last], order + [cell], 0)
  {
  }

  /** What thinning keeps: `order` holds the cells taken out of `start`, last one first,
      each the tightest cluster of the pattern it was taken from. */
  ghost predicate Thinned(g: Grid, left: set<int>, order: seq<int>, start: set<int>)
    requires g.Valid()
  {
    && Distinct(order) && left !! Elems(order) && left + Elems(order) == start
    && forall m :: 0 <= m < |order| ==> ThinnedAt(g, left, order, m)
  }

  ghost predicate ThinnedAt(g: Grid, left: set<int>, order: seq<int>, m: int)
    requires g.Valid() && 0 <= m < |order|
  {
    IsCluster(g, left + Elems(order[..m + 1]), order[m])
  }

  lemma ThinningStep(g: Grid, was: set<int>, cluster: int, order: seq<int>, start: set<int>)
    requires g.Valid() && Thinned(g, was, order, start) && IsCluster(g, was, cluster)
    ensures Thinned(g, was - {cluster}, [cluster] + order, start)
  {
    var longer := [cluster] + order;
    assert Elems(longer) == {cluster} + Elems(order);
    forall m | 0 <= m < |longer| ensures ThinnedAt(g, was - {cluster}, longer, m) {
      assert longer[..m + 1] == [cluster] + order[..m];
      assert was - {cluster} + Elems(longer[..m + 1]) == was + Elems(order[..m]);
      if m == 0 {
        assert was + Elems(order[..m]) == was;
      } else {
        assert ThinnedAt(g, was, order, m - 1);
      }
    }
  }

  lemma ThinnedOut(g: Grid, order: seq<int>, start: set<int>)
    requires g.Valid() && Thinned(g, {}, order, start) && start <= g.All()
    ensures Filled(g, |order|, start, order)
  {
    forall m | 0 <= m < |order| ensures RankedAt(g, |order|, order, m) {
      assert ThinnedAt(g, {}, order, m);
      assert {} + Elems(order[..m + 1]) == Elems(order[..m + 1]);
    }
  }

  /** What filling keeps: `order` holds the set cells by rank, each rank earned. */
  ghost predicate Filled(g: Grid, ones: int, pattern: set<int>, order: seq<int>)
    requires g.Valid()
  {
    && Distinct(order) && Elems(order) == pattern && pattern <= g.All()
    && forall m :: 0 <= m < |order| ==> RankedAt(g, ones, order, m)
  }

  lemma FillingStep(g: Grid, ones: int, was: set<int>, order: seq<int>, hole: int)
    requires g.Valid() && Filled(g, ones, was, order) && ones <= |order|
    requires IsVoid(g, was, hole)
    ensures Filled(g, ones, was + {hole}, order + [hole])
  {
    var longer := order + [hole];
    forall m | 0 <= m < |longer| ensures RankedAt(g, ones, longer, m) {
      assert longer[..m] == order[..m];
      if m < |order| {
        assert RankedAt(g, ones, order, m);
        assert longer[..m + 1] == order[..m + 1];
      } else {
        assert longer[..m] == order;
      }
    }
  }
}
