/** The option table of a scanner handle: what each option may hold, how a frontend's value is
    pulled into that, and how a change of mode or source changes the table itself. */
module ScanOptions {
  import opened Arithmetic

  // -------------------------------------------------------------- constraints

  /** The C int. */
  type int32 = x: int | -0x8000_0000 <= x < 0x8000_0000

  function Wrap32(x: int): int32 {
    (x + 0x8000_0000) % 0x1_0000_0000 - 0x8000_0000
  }

  datatype Constraint =
    | Free
    | Range(min: int32, max: int32, quant: int32)
    | WordList(words: seq<int32>)
    | StringList(strings: seq<string>)
  {
    /** Every range in the table starts at zero and every list of words is ascending. */
    ghost predicate Sound() {
      match this
      case Free => true
      case Range(min, max, quant) => 0 <= min <= max && 0 <= quant && max + quant < 0x8000_0000
      case WordList(words) => |words| > 0 && words[0] >= 0 && Ascending(words)
      case StringList(strings) => true
    }
  }

  ghost predicate Ascending(words: seq<int32>) {
    forall i, j :: 0 <= i < j < |words| ==> words[i] < words[j]
  }

  function Clamped(v: int, min: int, max: int): int {
    if v < min then min else if v > max then max else v
  }

  /** A word pulled into a range: clamped, then rounded to the nearest step. */
  function InRange(v: int32, min: int32, max: int32, quant: int32): int32
    requires Range(min, max, quant).Sound()
  {
    var c := Clamped(v, min, max);
    if quant == 0 then c
    else
      StepBound(c - min, quant);
      var stepped := min + (c - min + quant / 2) / quant * quant;
      if stepped > max then max else stepped
  }

  lemma StepBound(d: int, quant: int)
    requires 0 <= d && 0 < quant
    ensures 0 <= (d + quant / 2) / quant * quant <= d + quant / 2
  {
  }

  /** How far apart two words are, in 32-bit arithmetic. */
  function Distance(a: int32, b: int32): int32 {
    if a > b then Wrap32(a - b) else Wrap32(b - a)
  }

  /** The list's word kept after looking at the first n. */
  function BestOf(words: seq<int32>, v: int32, n: nat): (best: int32)
    requires 0 < |words| && n <= |words|
  {
    if n == 0 then words[0]
    else
      var best := BestOf(words, v, n - 1);
      if Distance(words[n - 1], v) < Distance(best, v) then words[n - 1] else best
  }

  method PickWord(words: seq<int32>, v: int32) returns (best: int32)
    requires |words| > 0
    ensures best == BestOf(words, v, |words|)
  {
    best := words[0];
    var i := 0;
    while i < |words|
      invariant 0 <= i <= |words| && best == BestOf(words, v, i)
    {
      var d1 := Distance(words[i], v);
      var d2 := Distance(best, v);
      if d1 < d2 {
        best := words[i];
      }
      i := i + 1;
    }
  }

  function Constrained(c: Constraint, v: int32): int32
    requires c.Sound()
  {
    match c
    case Range(min, max, quant) => InRange(v, min, max, quant)
    case WordList(words) => BestOf(words, v, |words|)
    case _ => v
  }

  /** A value the constraint lets an option hold. */
  ghost predicate Allows(c: Constraint, v: int32)
    requires c.Sound()
  {
    match c
    case Free => true
    case Range(min, max, quant) => min <= v <= max && (quant == 0 || (v - min) % quant == 0 || v == max)
    case WordList(words) => v in words
    case StringList(_) => true
  }

  /** A value pulled into a range: it is clamped to the nearest value between the ends, and then
      goes to the step within half a step of that, upwards from the middle, if that step lies
      in the range. */
  lemma InRangeAllowed(v: int32, min: int32, max: int32, quant: int32)
    requires Range(min, max, quant).Sound()
    ensures var c, r := Clamped(v, min, max), InRange(v, min, max, quant);
      && Allows(Range(min, max, quant), r)
      && min <= c <= max && (forall w :: min <= w <= max ==> Gap(c, v) <= Gap(w, v))
      && (quant == 0 ==> r == c)
      && (quant > 0 ==> 2 * Abs(r - c) <= quant)
      && forall s :: min <= s <= max && NearStep(s, c, min, quant) ==> r == s
  {
    var c := Clamped(v, min, max);
    ClampedNearest(v, min, max);
    if quant > 0 {
      StepNear(c - min, quant);
      forall s | min <= s <= max && NearStep(s, c, min, quant) ensures InRange(v, min, max, quant) == s {
        SoleNearStep(v, min, max, quant, s);
      }
    }
  }

  lemma StepNear(d: int, quant: int)
    requires 0 <= d && 0 < quant
    ensures var step := (d + quant / 2) / quant * quant;
      0 <= step && step % quant == 0 && -quant <= 2 * (step - d) <= quant
  {
    var n := d + quant / 2;
    Multiple(n, quant);
    HalfBelow(n % quant, quant);
    assert n / quant * quant == n - n % quant;
  }

  lemma Multiple(n: nat, quant: int)
    requires 0 < quant
    ensures n / quant * quant == n - n % quant >= 0 && n / quant * quant % quant == 0
  {
    StepBound(n, quant);
    DivModUnique(n / quant * quant, n / quant, 0, quant);
  }

  lemma HalfBelow(t: int, quant: int)
    requires 0 <= t < quant
    ensures -quant <= 2 * (quant / 2 - t) <= quant
  {
  }

  lemma ClampedNearest(v: int32, min: int32, max: int32)
    requires min <= max
    ensures min <= Clamped(v, min, max) <= max
    ensures forall w :: min <= w <= max ==> Gap(Clamped(v, min, max), v) <= Gap(w, v)
  {
  }

  lemma SoleNearStep(v: int32, min: int32, max: int32, quant: int32, s: int)
    requires Range(min, max, quant).Sound() && quant > 0
    requires min <= s <= max && NearStep(s, Clamped(v, min, max), min, quant)
    ensures InRange(v, min, max, quant) == s
  {
    var n := Clamped(v, min, max) - min + quant / 2;
    DivModUnique(n, (s - min) / quant, n - (s - min), quant);
    assert (s - min) / quant * quant == s - min;
  }

  /** s is a step counted from `min` and lies nearest to c, above it if there are two. */
  ghost predicate NearStep(s: int, c: int, min: int, quant: int) {
    quant > 0 && (s - min) % quant == 0 && -(quant / 2) <= c - s < quant - quant / 2
  }

  ghost function Gap(a: int, b: int): nat { if a < b then b - a else a - b }

  function Abs(x: int): int { if x < 0 then -x else x }

  lemma InRangeIdempotent(v: int32, min: int32, max: int32, quant: int32)
    requires Range(min, max, quant).Sound()
    ensures InRange(InRange(v, min, max, quant), min, max, quant) == InRange(v, min, max, quant)
  {
    if quant > 0 {
      Settles(Clamped(v, min, max) - min, max - min, quant);
    }
  }

  /** Going to the nearest step, or to the top where that lies past it, changes nothing the
      second time. */
  lemma Settles(d: int, top: int, quant: int)
    requires 0 < quant && 0 <= d <= top
    ensures var to := (d + quant / 2) / quant * quant;
      && 0 <= to
      && if to > top then (top + quant / 2) / quant * quant > top else (to + quant / 2) / quant * quant == to
  {
    var steps := (d + quant / 2) / quant;
    StepBound(d, quant);
    if steps * quant > top {
      Rounded(top, quant, steps);
    } else {
      OnStep(steps, quant);
    }
  }

  /** The largest value still rounds up to what a smaller one rounded up to. */
  lemma Rounded(d: int, quant: int, steps: int)
    requires 0 < quant && 0 <= d && 0 <= steps && steps * quant > d
    requires steps * quant <= d + quant / 2
    ensures (d + quant / 2) / quant * quant > d
  {
    DivModUnique(d + quant / 2, steps, d + quant / 2 - steps * quant, quant);
  }

  lemma OnStep(steps: int, quant: int)
    requires 0 < quant && 0 <= steps
    ensures (steps * quant + quant / 2) / quant == steps
  {
    DivModUnique(steps * quant + quant / 2, steps, quant / 2, quant);
  }

  lemma {:induction false} BestFromList(words: seq<int32>, v: int32, n: nat)
    requires 0 < |words| && n <= |words|
    ensures BestOf(words, v, n) in words
  {
    if n > 0 {
      BestFromList(words, v, n - 1);
    }
  }

  /** The first of the words nearest to v. */
  ghost predicate FirstNearest(words: seq<int32>, v: int, best: int) {
    exists k :: 0 <= k < |words| && words[k] == best && IsFirstNearest(words, v, k)
  }

  ghost predicate IsFirstNearest(words: seq<int32>, v: int, k: int)
    requires 0 <= k < |words|
  {
    forall j :: 0 <= j < |words| ==>
      && Abs(words[k] - v) <= Abs(words[j] - v)
      && (j < k ==> Abs(words[k] - v) < Abs(words[j] - v))
  }

  /** The difference overflows where the word lies too far above v. */
  lemma DistanceExact(a: int32, v: int32)
    requires a >= 0
    ensures a - v < 0x8000_0000 ==> Distance(a, v) == Abs(a - v)
    ensures a - v >= 0x8000_0000 ==> Distance(a, v) == a - v - 0x1_0000_0000 < 0
  {
  }

  lemma {:induction false} BestSoFar(words: seq<int32>, v: int32, n: nat) returns (k: nat)
    requires 0 < n <= |words| && words[0] >= 0 && Ascending(words)
    requires forall j :: 0 <= j < n ==> words[j] - v < 0x8000_0000
    ensures k < n && BestOf(words, v, n) == words[k] && IsFirstNearest(words[..n], v, k)
  {
    k := 0;
    DistanceExact(words[0], v);
    if n > 1 {
      k := BestSoFar(words, v, n - 1);
      NearestExtended(words, v, n, k);
      DistanceExact(words[n - 1], v);
      DistanceExact(words[k], v);
      if Abs(words[n - 1] - v) < Abs(words[k] - v) {
        k := n - 1;
      }
    }
  }

  lemma NearestExtended(words: seq<int32>, v: int32, n: nat, k: nat)
    requires 1 < n <= |words| && k < n - 1 && IsFirstNearest(words[..n - 1], v, k)
    ensures IsFirstNearest(words[..n], v, if Abs(words[n - 1] - v) < Abs(words[k] - v) then n - 1 else k)
  {
    forall j | 0 <= j < n - 1
      ensures Abs(words[k] - v) <= Abs(words[j] - v) && (j < k ==> Abs(words[k] - v) < Abs(words[j] - v))
    {
      assert words[..n - 1][j] == words[j];
    }
  }

  /** Once a difference has overflowed, the word it belongs to is kept: it seems nearer than
      any word below it, and the ones above it seem farther. */
  lemma {:induction false} BestPastOverflow(words: seq<int32>, v: int32, n: nat, m: nat)
    requires 0 < m < n <= |words| && words[0] >= 0 && Ascending(words)
    requires words[m - 1] - v < 0x8000_0000 <= words[m] - v
    ensures BestOf(words, v, n) == words[m]
  {
    DistanceExact(words[n - 1], v);
    if n - 1 == m {
      BestBelow(words, v, m);
    } else {
      BestPastOverflow(words, v, n - 1, m);
      DistanceExact(words[m], v);
    }
  }

  lemma {:induction false} BestBelow(words: seq<int32>, v: int32, n: nat)
    requires 0 < n <= |words| && words[0] >= 0 && Ascending(words)
    requires words[n - 1] - v < 0x8000_0000
    ensures Distance(BestOf(words, v, n), v) >= 0
  {
    DistanceExact(words[n - 1], v);
    if n > 1 {
      BestBelow(words, v, n - 1);
    }
  }

  /** If every difference overflows, the order of the words still comes out right. */
  lemma {:induction false} BestAllOverflown(words: seq<int32>, v: int32, n: nat)
    requires 0 < n <= |words| && words[0] >= 0 && Ascending(words)
    requires words[0] - v >= 0x8000_0000
    ensures BestOf(words, v, n) == words[0]
  {
    DistanceExact(words[0], v);
    DistanceExact(words[n - 1], v);
    if n > 1 {
      BestAllOverflown(words, v, n - 1);
    }
  }

  /** The first word too far above v, if the first of all is not. */
  lemma {:induction false} FirstOverflow(words: seq<int32>, v: int32, n: nat) returns (m: nat)
    requires 0 < n <= |words| && words[0] - v < 0x8000_0000 <= words[n - 1] - v
    ensures 0 < m < n && words[m - 1] - v < 0x8000_0000 <= words[m] - v
  {
    m := n - 1;
    if words[n - 2] - v >= 0x8000_0000 {
      m := FirstOverflow(words, v, n - 1);
    }
  }

  /** The list search returns the first nearest word unless v is so far below zero that the
      distance to some of the words overflows and to the first one does not. */
  lemma ListNearest(words: seq<int32>, v: int32)
    requires WordList(words).Sound()
    ensures FirstNearest(words, v, BestOf(words, v, |words|))
      <==> !(words[0] < v + 0x8000_0000 <= words[|words| - 1])
  {
    var n := |words|;
    if words[0] < v + 0x8000_0000 <= words[n - 1] {
      var m := FirstOverflow(words, v, n);
      BestPastOverflow(words, v, n, m);
      forall k | 0 <= k < n && words[k] == words[m] ensures !IsFirstNearest(words, v, k) {
        assert Abs(words[0] - v) < Abs(words[k] - v);
      }
    } else if v + 0x8000_0000 <= words[0] {
      BestAllOverflown(words, v, n);
      assert IsFirstNearest(words, v, 0);
    } else {
      assert words[..n] == words;
      var k := BestSoFar(words, v, n);
    }
  }

  /** A resolution asked for from the very bottom of the range of words comes out as 150,
      although 75 is nearer. */
  lemma OverflowExample()
    ensures BestOf([75, 150, 300, 600, 1200], -0x8000_0000 + 100, 5) == 150
  {
  }

  /** A word the constraint has produced is one it allows, and it is left alone. */
  lemma ConstrainedAllowed(c: Constraint, v: int32)
    requires c.Sound()
    ensures Allows(c, Constrained(c, v))
    ensures Constrained(c, Constrained(c, v)) == Constrained(c, v)
  {
    match c {
      case Range(min, max, quant) =>
        InRangeAllowed(v, min, max, quant);
        InRangeIdempotent(v, min, max, quant);
      case WordList(words) =>
        BestFromList(words, v, |words|);
        ListKeepsItsOwn(words, BestOf(words, v, |words|));
      case _ =>
    }
  }

  lemma ListKeepsItsOwn(words: seq<int32>, w: int32)
    requires WordList(words).Sound() && w in words
    ensures BestOf(words, w, |words|) == w
  {
    assert forall k :: 0 <= k < |words| ==> words[k] >= words[0];
    assert words[..|words|] == words;
    var k := BestSoFar(words, w, |words|);
    var j :| 0 <= j < |words| && words[j] == w;
    assert Abs(words[k] - w) <= Abs(words[j] - w);
  }
}
