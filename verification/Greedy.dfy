/** The choices the void-and-cluster method makes, as functions of the pattern alone:
    the tightest cluster, the largest void, the rearrangement down to a prototype, and
    the ranking of every cell. */
module Greedy {
  import opened FiniteSets
  import opened Torus

  /** Cell c beats cell d: by field, and on a tie by coming first in scan order. */
  ghost predicate Beats(g: Grid, pattern: set<int>, biggest: bool, c: int, d: int)
    requires g.Valid()
  {
    var fc, fd := g.Field(pattern, c), g.Field(pattern, d);
    (if biggest then fc > fd else fc < fd) || (fc == fd && c <= d)
  }

  ghost predicate IsBest(g: Grid, pattern: set<int>, among: set<int>, biggest: bool, c: int)
    requires g.Valid()
  {
    c in among && forall d :: d in among ==> Beats(g, pattern, biggest, c, d)
  }

  /** The highest-energy set cell. */
  ghost predicate IsCluster(g: Grid, pattern: set<int>, c: int)
    requires g.Valid()
  {
    IsBest(g, pattern, pattern, true, c)
  }

  /** The lowest-energy clear cell. */
  ghost predicate IsVoid(g: Grid, pattern: set<int>, c: int)
    requires g.Valid()
  {
    IsBest(g, pattern, g.All() - pattern, false, c)
  }

  /** The first best cell of a non-empty set. */
  ghost function Best(g: Grid, pattern: set<int>, among: set<int>, biggest: bool): (c: int)
    requires g.Valid() && among != {}
    ensures IsBest(g, pattern, among, biggest, c)
    decreases among
  {
    var c := Pick(among);
    if among - {c} == {} then assert among == {c}; c
    else
      var rest := Best(g, pattern, among - {c}, biggest);
      assert forall d :: d in among ==> d == c || d in among - {c};
      if Beats(g, pattern, biggest, c, rest) then c else rest
  }

  lemma BestUnique(g: Grid, pattern: set<int>, among: set<int>, biggest: bool, c: int, d: int)
    requires g.Valid()
    requires IsBest(g, pattern, among, biggest, c) && IsBest(g, pattern, among, biggest, d)
    ensures c == d
  {
  }

  ghost function Cluster(g: Grid, pattern: set<int>): (c: int)
    requires g.Valid() && pattern != {}
    ensures IsCluster(g, pattern, c)
  {
    Best(g, pattern, pattern, true)
  }

  ghost function Void(g: Grid, pattern: set<int>): (c: int)
    requires g.Valid() && g.All() - pattern != {}
    ensures IsVoid(g, pattern, c)
  {
    Best(g, pattern, g.All() - pattern, false)
  }

  // -------------------------------------------------------------- prototype

  ghost function IndexSum(pattern: set<int>): int
    decreases pattern
  {
    if pattern == {} then 0 else var c := Pick(pattern); c + IndexSum(pattern - {c})
  }

  lemma {:induction false} IndexSumPick(pattern: set<int>, c: int)
    requires c in pattern
    ensures IndexSum(pattern) == c + IndexSum(pattern - {c})
    decreases pattern
  {
    var b := Pick(pattern);
    if b != c {
      IndexSumPick(pattern - {b}, c);
      IndexSumPick(pattern - {c}, b);
      assert pattern - {b} - {c} == pattern - {c} - {b};
    }
  }

  lemma {:induction false} IndexSumNonNegative(g: Grid, pattern: set<int>)
    requires pattern <= g.All()
    ensures IndexSum(pattern) >= 0
    decreases pattern
  {
    if pattern != {} {
      IndexSumNonNegative(g, pattern - {Pick(pattern)});
    }
  }

  /** Where the tightest cluster goes when it is lifted out of the pattern. */
  ghost function Hole(g: Grid, pattern: set<int>): (h: int)
    requires g.Valid() && pattern <= g.All() && pattern != {}
    ensures IsVoid(g, pattern - {Cluster(g, pattern)}, h)
  {
    var c := Cluster(g, pattern);
    assert c in g.All() - (pattern - {c});
    Void(g, pattern - {c})
  }

  ghost function Moved(pattern: set<int>, c: int, h: int): set<int> { pattern - {c} + {h} }

  /** Moving one cell changes the total energy by twice the difference of the two fields
      it sees once lifted out. */
  lemma EnergyOfMove(g: Grid, pattern: set<int>, c: int, h: int)
    requires g.Valid() && c in pattern && h !in pattern - {c}
    ensures g.Energy(Moved(pattern, c, h)) - g.Energy(pattern)
            == 2 * (g.Field(pattern - {c}, h) as int - g.Field(pattern - {c}, c))
    ensures IndexSum(Moved(pattern, c, h)) - IndexSum(pattern) == h - c
  {
    var lifted := pattern - {c};
    EnergyAdd(g, lifted, c);
    EnergyAdd(g, lifted, h);
    assert lifted + {c} == pattern;
    IndexSumPick(pattern, c);
    IndexSumPick(Moved(pattern, c, h), h);
    assert Moved(pattern, c, h) - {h} == lifted;
  }

  /** A move that is not the last one lowers the total energy, or keeps it and lowers
      the sum of the cell numbers: the tie-break is what makes the rearrangement stop. */
  lemma MoveLowers(g: Grid, pattern: set<int>)
    requires g.Valid() && pattern <= g.All() && pattern != {}
    requires Hole(g, pattern) != Cluster(g, pattern)
    ensures var next := Moved(pattern, Cluster(g, pattern), Hole(g, pattern));
      g.Energy(next) < g.Energy(pattern)
      || (g.Energy(next) == g.Energy(pattern) && 0 <= IndexSum(next) < IndexSum(pattern))
  {
    var c, h := Cluster(g, pattern), Hole(g, pattern);
    assert c in g.All() - (pattern - {c});
    assert Beats(g, pattern - {c}, false, h, c);
    EnergyOfMove(g, pattern, c, h);
    IndexSumNonNegative(g, Moved(pattern, c, h));
  }

  lemma MoveKeepsSize(g: Grid, pattern: set<int>)
    requires g.Valid() && pattern <= g.All() && pattern != {}
    ensures var next := Moved(pattern, Cluster(g, pattern), Hole(g, pattern));
      next <= g.All() && |next| == |pattern|
  {
  }

  /** The pattern the rearrangement comes to rest on. */
  ghost function Prototype(g: Grid, pattern: set<int>): set<int>
    requires g.Valid() && pattern <= g.All() && pattern != {}
    decreases g.Energy(pattern), IndexSum(pattern)
  {
    var c, h := Cluster(g, pattern), Hole(g, pattern);
    if h == c then pattern
    else
      MoveLowers(g, pattern);
      MoveKeepsSize(g, pattern);
      Prototype(g, Moved(pattern, c, h))
  }

  /** Every starting pattern comes to rest, on a pattern with as many cells, from which
      no move of the tightest cluster to a clear cell lowers the energy. */
  lemma {:induction false} PrototypeAtRest(g: Grid, pattern: set<int>)
    requires g.Valid() && pattern <= g.All() && pattern != {}
    ensures var p := Prototype(g, pattern);
      && p <= g.All() && |p| == |pattern| && p != {}
      && g.Energy(p) <= g.Energy(pattern)
      && forall h :: h in g.All() - p ==> g.Energy(p) <= g.Energy(Moved(p, Cluster(g, p), h))
    decreases g.Energy(pattern), IndexSum(pattern)
  {
    var c, h := Cluster(g, pattern), Hole(g, pattern);
    if h == c {
      forall k | k in g.All() - pattern
        ensures g.Energy(pattern) <= g.Energy(Moved(pattern, c, k))
      {
        assert k in g.All() - (pattern - {c});
        assert Beats(g, pattern - {c}, false, c, k);
        EnergyOfMove(g, pattern, c, k);
      }
    } else {
      MoveLowers(g, pattern);
      MoveKeepsSize(g, pattern);
      PrototypeAtRest(g, Moved(pattern, c, h));
    }
  }

  // ---------------------------------------------------------------- ranking

  ghost function Elems(s: seq<int>): set<int> { set c | c in s }

  ghost predicate Distinct(s: seq<int>) {
    forall i, j :: 0 <= i < j < |s| ==> s[i] != s[j]
  }

  /** `order` lists the cells by rank.  The first `ones` of them are the prototype; at
      every density below it the next cell down is the tightest cluster of the pattern
      held so far, and at every density above it the next cell up is the largest void. */
  ghost predicate IsRanking(g: Grid, proto: set<int>, order: seq<int>)
    requires g.Valid()
  {
    var ones := |proto|;
    && |order| == g.Cells() && ones <= |order|
    && Distinct(order) && Elems(order) == g.All()
    && Elems(order[..ones]) == proto
    && forall m :: 0 <= m < |order| ==> RankedAt(g, ones, order, m)
  }

  ghost predicate RankedAt(g: Grid, ones: int, order: seq<int>, m: int)
    requires g.Valid() && 0 <= m < |order|
  {
    if m < ones then IsCluster(g, Elems(order[..m + 1]), order[m])
    else IsVoid(g, Elems(order[..m]), order[m])
  }

  lemma ElemsSnoc(s: seq<int>, m: int)
    requires 0 <= m < |s|
    ensures Elems(s[..m + 1]) == Elems(s[..m]) + {s[m]}
    ensures Distinct(s) ==> Elems(s[..m]) == Elems(s[..m + 1]) - {s[m]}
  {
  }

  /** The prototype alone decides the ranking. */
  lemma RankingUnique(g: Grid, proto: set<int>, a: seq<int>, b: seq<int>)
    requires g.Valid() && IsRanking(g, proto, a) && IsRanking(g, proto, b)
    ensures a == b
  {
    forall m | 0 <= m < |proto| ensures a[m] == b[m] {
      ThinningAgrees(g, proto, a, b, m);
    }
    forall m | |proto| <= m < |a| ensures a[m] == b[m] {
      FillingAgrees(g, proto, a, b, m);
    }
  }

  lemma {:induction false} ThinningAgrees(g: Grid, proto: set<int>, a: seq<int>, b: seq<int>, m: int)
    requires g.Valid() && IsRanking(g, proto, a) && IsRanking(g, proto, b)
    requires 0 <= m < |proto|
    ensures a[m] == b[m] && Elems(a[..m]) == Elems(b[..m])
    decreases |proto| - m
  {
    assert RankedAt(g, |proto|, a, m) && RankedAt(g, |proto|, b, m);
    if m + 1 < |proto| {
      ThinningAgrees(g, proto, a, b, m + 1);
    }
    var p := Elems(a[..m + 1]);
    assert p == Elems(b[..m + 1]);
    BestUnique(g, p, p, true, a[m], b[m]);
    ElemsSnoc(a, m);
    ElemsSnoc(b, m);
  }

  lemma {:induction false} FillingAgrees(g: Grid, proto: set<int>, a: seq<int>, b: seq<int>, m: int)
    requires g.Valid() && IsRanking(g, proto, a) && IsRanking(g, proto, b)
    requires |proto| <= m < |a|
    ensures a[m] == b[m] && Elems(a[..m + 1]) == Elems(b[..m + 1])
    decreases m
  {
    assert RankedAt(g, |proto|, a, m) && RankedAt(g, |proto|, b, m);
    if m > |proto| {
      FillingAgrees(g, proto, a, b, m - 1);
    }
    var p := Elems(a[..m]);
    assert p == Elems(b[..m]);
    BestUnique(g, p, g.All() - p, false, a[m], b[m]);
    ElemsSnoc(a, m);
    ElemsSnoc(b, m);
  }

  // ---------------------------------------------------- complement duality

  /** The largest void of a pattern is the tightest cluster of its complement, ties
      included. */
  lemma VoidIsComplementCluster(g: Grid, pattern: set<int>, c: int)
    requires g.Valid() && pattern <= g.All()
    ensures IsVoid(g, pattern, c) <==> IsCluster(g, g.All() - pattern, c)
  {
    if c in g.All() - pattern {
      forall d | d in g.All() - pattern
        ensures Beats(g, pattern, false, c, d) <==> Beats(g, g.All() - pattern, true, c, d)
      {
        ComplementField(g, pattern, c, d);
      }
    }
  }

  /** Each of `cells` is the largest void once those before it have been filled. */
  ghost predicate Fills(g: Grid, pattern: set<int>, cells: seq<int>)
    requires g.Valid()
    decreases cells
  {
    cells != [] ==> IsVoid(g, pattern, cells[0]) && Fills(g, pattern + {cells[0]}, cells[1..])
  }

  /** Each of `cells` is the tightest cluster once those before it have been taken out. */
  ghost predicate Thins(g: Grid, pattern: set<int>, cells: seq<int>)
    requires g.Valid()
    decreases cells
  {
    cells != [] ==> IsCluster(g, pattern, cells[0]) && Thins(g, pattern - {cells[0]}, cells[1..])
  }

  /** Filling a pattern and thinning its complement pick the same cells, step for step. */
  lemma {:induction false} FillingIsThinningComplement(g: Grid, pattern: set<int>, cells: seq<int>)
    requires g.Valid() && pattern <= g.All()
    ensures Fills(g, pattern, cells) <==> Thins(g, g.All() - pattern, cells)
    decreases cells
  {
    if cells != [] {
      var c := cells[0];
      VoidIsComplementCluster(g, pattern, c);
      if IsVoid(g, pattern, c) {
        FillingIsThinningComplement(g, pattern + {c}, cells[1..]);
        assert g.All() - pattern - {c} == g.All() - (pattern + {c});
      }
    }
  }

  lemma {:induction false} RankingTailFills(g: Grid, proto: set<int>, order: seq<int>, m: int)
    requires g.Valid() && IsRanking(g, proto, order)
    requires |proto| <= m <= |order|
    ensures Fills(g, Elems(order[..m]), order[m..])
    decreases |order| - m
  {
    if m < |order| {
      assert RankedAt(g, |proto|, order, m);
      RankingTailFills(g, proto, order, m + 1);
      ElemsSnoc(order, m);
      assert order[m..][1..] == order[m + 1..];
    }
  }

  /** So the upper half of the ranking needs no loop of its own kind: it is the thinning
      of the prototype's complement. */
  lemma UpperRanksThinTheComplement(g: Grid, proto: set<int>, order: seq<int>)
    requires g.Valid() && IsRanking(g, proto, order)
    ensures Thins(g, g.All() - proto, order[|proto|..])
  {
    RankingTailFills(g, proto, order, |proto|);
    FillingIsThinningComplement(g, proto, order[|proto|..]);
  }
}
