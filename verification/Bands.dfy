/**
 Weighted bands over the bucket space. Bucket b lies in band i of the weights ws when
 b / BUCKETS, scaled to the total weight, falls between the cumulative weights before and
 after i. Everything is compared by cross-multiplication, without division.
 */
module Bands {
  const BUCKETS: nat := 10000

  function Sum(ws: seq<int>): int {
    if ws == [] then 0 else Sum(ws[..|ws| - 1]) + ws[|ws| - 1]
  }

  /** Cumulative weight of the first i entries. */
  function Upto(ws: seq<int>, i: nat): int
    requires i <= |ws|
  {
    Sum(ws[..i])
  }

  lemma UptoStep(ws: seq<int>, i: nat)
    requires i < |ws|
    ensures Upto(ws, i + 1) == Upto(ws, i) + ws[i]
  {
    assert ws[..i + 1][..i] == ws[..i];
  }

  lemma UptoAll(ws: seq<int>)
    ensures Upto(ws, 0) == 0 && Upto(ws, |ws|) == Sum(ws)
  {
    assert ws[..|ws|] == ws;
  }

  ghost predicate NonNegative(ws: seq<int>) {
    forall i :: 0 <= i < |ws| ==> 0 <= ws[i]
  }

  lemma {:induction false} UptoMonotone(ws: seq<int>, i: nat, j: nat)
    requires NonNegative(ws) && i <= j <= |ws|
    ensures Upto(ws, i) <= Upto(ws, j)
    decreases j
  {
    if i < j {
      UptoMonotone(ws, i, j - 1);
      UptoStep(ws, j - 1);
    }
  }

  /** Bucket b lies below the upper edge of entry i. */
  predicate Below(ws: seq<int>, b: nat, i: nat)
    requires i < |ws|
  {
    b * Sum(ws) < Upto(ws, i + 1) * BUCKETS
  }

  lemma Scale(a: int, b: int, t: int)
    requires a < b && 0 < t
    ensures a * t < b * t
  {
  }

  /** The last entry's upper edge lies above every bucket, whatever the weights. */
  lemma LastIsBelow(ws: seq<int>, b: nat)
    requires ws != [] && Sum(ws) > 0 && b < BUCKETS
    ensures Below(ws, b, |ws| - 1)
  {
    UptoAll(ws);
    Scale(b, BUCKETS, Sum(ws));
  }

  function Seek(ws: seq<int>, b: nat, i: nat): (r: nat)
    requires ws != [] && Sum(ws) > 0 && b < BUCKETS && i < |ws|
    ensures i <= r < |ws|
    ensures Below(ws, b, r)
    ensures forall j :: i <= j < r ==> !Below(ws, b, j)
    decreases |ws| - i
  {
    LastIsBelow(ws, b);
    if Below(ws, b, i) then i else Seek(ws, b, i + 1)
  }

  /** The first entry whose upper edge lies above the bucket. */
  function BandOf(ws: seq<int>, b: nat): (r: nat)
    requires ws != [] && Sum(ws) > 0 && b < BUCKETS
    ensures r < |ws| && Below(ws, b, r)
    ensures forall j :: 0 <= j < r ==> !Below(ws, b, j)
  {
    Seek(ws, b, 0)
  }

  /** Bucket b lies between the lower and the upper edge of entry i. */
  predicate InBand(ws: seq<int>, b: nat, i: nat)
    requires i < |ws|
  {
    Upto(ws, i) * BUCKETS <= b * Sum(ws) < Upto(ws, i + 1) * BUCKETS
  }

  lemma FoundBandHolds(ws: seq<int>, b: nat)
    requires ws != [] && Sum(ws) > 0 && b < BUCKETS
    ensures InBand(ws, b, BandOf(ws, b))
  {
    var r := BandOf(ws, b);
    if b > 0 {
      Scale(0, b, Sum(ws));
    }
    if r > 0 {
      assert !Below(ws, b, r - 1);
    }
  }

  lemma LaterBandsMiss(ws: seq<int>, b: nat, i: nat)
    requires ws != [] && NonNegative(ws) && Sum(ws) > 0 && b < BUCKETS && BandOf(ws, b) < i < |ws|
    ensures !InBand(ws, b, i)
  {
    UptoMonotone(ws, BandOf(ws, b) + 1, i);
    assert Below(ws, b, BandOf(ws, b));
  }

  /** Every bucket lies in exactly one band, and that is the band the search finds. */
  lemma ExactlyOneBand(ws: seq<int>, b: nat, i: nat)
    requires ws != [] && NonNegative(ws) && Sum(ws) > 0 && b < BUCKETS && i < |ws|
    ensures InBand(ws, b, i) <==> i == BandOf(ws, b)
  {
    FoundBandHolds(ws, b);
    if i < BandOf(ws, b) {
      assert !Below(ws, b, i);
    } else if BandOf(ws, b) < i {
      LaterBandsMiss(ws, b, i);
    }
  }

  // ---- Where the edges fall in the bucket space --------------------------------------

  /** The first bucket at or above the lower edge of entry i. */
  function Edge(ws: seq<int>, i: nat): int
    requires i <= |ws| && Sum(ws) > 0
  {
    (Upto(ws, i) * BUCKETS + Sum(ws) - 1) / Sum(ws)
  }

  lemma CeilingDivision(x: int, t: int, b: int)
    requires t > 0
    ensures var q := (x + t - 1) / t; 0 <= q * t - x < t && (b * t < x <==> b < q)
  {
    var q := (x + t - 1) / t;
    assert (x + t - 1) == q * t + (x + t - 1) % t;
    if b < q {
      assert b * t <= (q - 1) * t;
    } else {
      assert b * t >= q * t;
    }
  }

  lemma EdgeSplits(ws: seq<int>, i: nat, b: nat)
    requires i <= |ws| && Sum(ws) > 0
    ensures b * Sum(ws) < Upto(ws, i) * BUCKETS <==> b < Edge(ws, i)
    ensures 0 <= Edge(ws, i) * Sum(ws) - Upto(ws, i) * BUCKETS < Sum(ws)
  {
    CeilingDivision(Upto(ws, i) * BUCKETS, Sum(ws), b);
  }

  lemma CeilingInOrder(x: int, y: int, t: int)
    requires t > 0 && x <= y
    ensures (x + t - 1) / t <= (y + t - 1) / t
  {
    CeilingDivision(x, t, (y + t - 1) / t);
    CeilingDivision(y, t, (y + t - 1) / t);
  }

  lemma CeilingOfMultiple(n: int, t: int)
    requires t > 0
    ensures (n * t + t - 1) / t == n
  {
    CeilingDivision(n * t, t, n);
    CeilingDivision(n * t, t, n - 1);
    Distribute(n, 1, t);
  }

  lemma CeilingsInOrder(x: int, y: int, n: int, t: int)
    requires t > 0 && 0 <= x <= y <= n * t
    ensures 0 <= (x + t - 1) / t <= (y + t - 1) / t <= n
  {
    CeilingInOrder(0, x, t);
    CeilingInOrder(x, y, t);
    CeilingInOrder(y, n * t, t);
    CeilingOfMultiple(0, t);
    CeilingOfMultiple(n, t);
  }

  lemma EdgesInOrder(ws: seq<int>, i: nat, j: nat)
    requires NonNegative(ws) && Sum(ws) > 0 && i <= j <= |ws|
    ensures 0 <= Edge(ws, i) <= Edge(ws, j) <= BUCKETS
  {
    var t := Sum(ws);
    UptoMonotone(ws, 0, i);
    UptoMonotone(ws, i, j);
    UptoMonotone(ws, j, |ws|);
    UptoAll(ws);
    CeilingsInOrder(Upto(ws, i) * BUCKETS, Upto(ws, j) * BUCKETS, BUCKETS, t);
  }

  predicate Within(lo: int, b: int, hi: int) { lo <= b < hi }

  /** The buckets from lo up to, not including, hi. */
  function Range(lo: int, hi: int): set<int> {
    set b | lo <= b < hi && Within(lo, b, hi)
  }

  lemma {:induction false} RangeSize(lo: int, hi: int)
    ensures |Range(lo, hi)| == if lo <= hi then hi - lo else 0
    decreases hi - lo
  {
    if lo < hi {
      RangeSize(lo, hi - 1);
      assert Range(lo, hi) == Range(lo, hi - 1) + {hi - 1};
    } else {
      assert Range(lo, hi) == {};
    }
  }

  /** The buckets served entry i. */
  function BucketsOf(ws: seq<int>, i: nat): set<int>
    requires ws != [] && Sum(ws) > 0
  {
    set b | 0 <= b < BUCKETS && BandOf(ws, b) == i
  }

  lemma BucketsAreARange(ws: seq<int>, i: nat)
    requires ws != [] && NonNegative(ws) && Sum(ws) > 0 && i < |ws|
    ensures BucketsOf(ws, i) == Range(Edge(ws, i), Edge(ws, i + 1))
  {
    EdgesInOrder(ws, i, i + 1);
    forall b: nat | b < BUCKETS
      ensures BandOf(ws, b) == i <==> Edge(ws, i) <= b < Edge(ws, i + 1)
    {
      ExactlyOneBand(ws, b, i);
      EdgeSplits(ws, i, b);
      EdgeSplits(ws, i + 1, b);
    }
  }

  /** Edges within one of their exact places leave a width within one of its exact share. */
  lemma WidthNearShare(lo: int, hi: int, t: int, from: int, to: int, w: int)
    requires t > 0 && to - from == w
    requires 0 <= lo * t - from * BUCKETS < t && 0 <= hi * t - to * BUCKETS < t
    ensures -t < (hi - lo) * t - BUCKETS * w < t
    ensures t == 100 ==> hi - lo == 100 * w
  {
    Distribute(hi, lo, t);
  }

  /**
   Exact apportionment: entry i receives a number of buckets that differs from its exact
   share BUCKETS * w / T by less than one, and exactly that share when T divides evenly.
   */
  lemma Apportionment(ws: seq<int>, i: nat)
    requires ws != [] && NonNegative(ws) && Sum(ws) > 0 && i < |ws|
    ensures -Sum(ws) < |BucketsOf(ws, i)| * Sum(ws) - BUCKETS * ws[i] < Sum(ws)
    ensures Sum(ws) == 100 ==> |BucketsOf(ws, i)| == 100 * ws[i]
    ensures ws[i] == 0 ==> BucketsOf(ws, i) == {}
  {
    BucketsAreARange(ws, i);
    EdgesInOrder(ws, i, i + 1);
    var lo, hi := Edge(ws, i), Edge(ws, i + 1);
    RangeSize(lo, hi);
    EdgeSplits(ws, i, 0);
    EdgeSplits(ws, i + 1, 0);
    UptoStep(ws, i);
    WidthNearShare(lo, hi, Sum(ws), Upto(ws, i), Upto(ws, i + 1), ws[i]);
    if ws[i] == 0 {
      RangeIsEmpty(lo, hi);
    }
  }

  lemma Distribute(a: int, b: int, t: int)
    ensures (a - b) * t == a * t - b * t
  {
  }

  lemma RangeIsEmpty(lo: int, hi: int)
    requires lo >= hi
    ensures Range(lo, hi) == {}
  {
  }

  // ---- Reweighting -----------------------------------------------------------------

  /** The buckets between the old and the new position of the edge below entry i. */
  function Swept(ws: seq<int>, ws': seq<int>, i: nat): set<int>
    requires Sum(ws) > 0 && Sum(ws') > 0 && i <= |ws| && i <= |ws'|
  {
    Range(Edge(ws, i), Edge(ws', i)) + Range(Edge(ws', i), Edge(ws, i))
  }

  /** The buckets whose band changes. */
  function Moved(ws: seq<int>, ws': seq<int>): set<int>
    requires ws != [] && ws' != [] && Sum(ws) > 0 && Sum(ws') > 0
  {
    set b | 0 <= b < BUCKETS && BandOf(ws, b) != BandOf(ws', b)
  }

  lemma BandByEdges(ws: seq<int>, b: nat, i: nat)
    requires ws != [] && NonNegative(ws) && Sum(ws) > 0 && b < BUCKETS && i < |ws|
    ensures BandOf(ws, b) < i <==> b < Edge(ws, i)
  {
    var r := BandOf(ws, b);
    ExactlyOneBand(ws, b, r);
    EdgeSplits(ws, r, b);
    EdgeSplits(ws, r + 1, b);
    if r < i {
      EdgesInOrder(ws, r + 1, i);
    } else {
      EdgesInOrder(ws, i, r);
    }
  }

  /** A bucket changes band exactly when some edge sweeps over it. */
  lemma MovedIffSwept(ws: seq<int>, ws': seq<int>, b: nat)
    requires |ws| == |ws'| > 0 && NonNegative(ws) && NonNegative(ws')
    requires Sum(ws) > 0 && Sum(ws') > 0 && b < BUCKETS
    ensures b in Moved(ws, ws') <==> exists i :: 1 <= i < |ws| && b in Swept(ws, ws', i)
  {
    var r, r' := BandOf(ws, b), BandOf(ws', b);
    if r != r' {
      var i := if r < r' then r' else r;
      BandByEdges(ws, b, i);
      BandByEdges(ws', b, i);
      assert 1 <= i < |ws| && b in Swept(ws, ws', i);
    }
    if i :| 1 <= i < |ws| && b in Swept(ws, ws', i) {
      BandByEdges(ws, b, i);
      BandByEdges(ws', b, i);
    }
  }

  function Abs(x: int): nat { if x < 0 then -x else x }

  lemma SweptSize(ws: seq<int>, ws': seq<int>, i: nat)
    requires Sum(ws) > 0 && Sum(ws') > 0 && i <= |ws| && i <= |ws'|
    ensures |Swept(ws, ws', i)| == Abs(Edge(ws, i) - Edge(ws', i))
  {
    RangeSize(Edge(ws, i), Edge(ws', i));
    RangeSize(Edge(ws', i), Edge(ws, i));
    assert Edge(ws, i) >= Edge(ws', i) ==> Range(Edge(ws, i), Edge(ws', i)) == {};
    assert Edge(ws, i) <= Edge(ws', i) ==> Range(Edge(ws', i), Edge(ws, i)) == {};
  }

  /** How far the first n cumulative weights travel, in total. */
  function Drift(ws: seq<int>, ws': seq<int>, n: nat): nat
    requires n <= |ws| && n <= |ws'|
  {
    if n == 0 then 0 else Drift(ws, ws', n - 1) + Abs(Upto(ws, n - 1) - Upto(ws', n - 1))
  }

  function SweptUpto(ws: seq<int>, ws': seq<int>, n: nat): set<int>
    requires Sum(ws) > 0 && Sum(ws') > 0 && n <= |ws| && n <= |ws'|
  {
    if n == 0 then {} else SweptUpto(ws, ws', n - 1) + Swept(ws, ws', n - 1)
  }

  lemma {:induction false} SweptUptoCovers(ws: seq<int>, ws': seq<int>, n: nat, i: nat)
    requires Sum(ws) > 0 && Sum(ws') > 0 && i < n <= |ws| && n <= |ws'|
    ensures Swept(ws, ws', i) <= SweptUpto(ws, ws', n)
  {
    if i < n - 1 {
      SweptUptoCovers(ws, ws', n - 1, i);
    }
  }

  lemma EdgeOfHundred(ws: seq<int>, i: nat)
    requires Sum(ws) == 100 && i <= |ws|
    ensures Edge(ws, i) == 100 * Upto(ws, i)
  {
    EdgeSplits(ws, i, 0);
  }

  lemma SweptByDrift(ws: seq<int>, ws': seq<int>, i: nat)
    requires Sum(ws) == 100 && Sum(ws') == 100 && i <= |ws| && i <= |ws'|
    ensures |Swept(ws, ws', i)| == 100 * Abs(Upto(ws, i) - Upto(ws', i))
  {
    SweptSize(ws, ws', i);
    EdgeOfHundred(ws, i);
    EdgeOfHundred(ws', i);
  }

  lemma {:induction false} SweptUptoSize(ws: seq<int>, ws': seq<int>, n: nat)
    requires Sum(ws) == 100 && Sum(ws') == 100 && n <= |ws| && n <= |ws'|
    ensures |SweptUpto(ws, ws', n)| <= 100 * Drift(ws, ws', n)
  {
    if n > 0 {
      SweptUptoSize(ws, ws', n - 1);
      SweptByDrift(ws, ws', n - 1);
      UnionSize(SweptUpto(ws, ws', n - 1), Swept(ws, ws', n - 1));
    }
  }

  lemma UnionSize(a: set<int>, b: set<int>)
    ensures |a + b| <= |a| + |b|
  {
    assert |a + b| == |a| + |b| - |a * b|;
  }

  lemma SubsetSize(a: set<int>, b: set<int>)
    requires a <= b
    ensures |a| <= |b|
  {
    assert b == a + (b - a);
    assert |b| == |a| + |b - a|;
  }

  /** Changing weights that sum to 100 moves at most 100 buckets per point of drift. */
  lemma ReshuffleIsBounded(ws: seq<int>, ws': seq<int>)
    requires |ws| == |ws'| > 0 && NonNegative(ws) && NonNegative(ws')
    requires Sum(ws) == 100 && Sum(ws') == 100
    ensures |Moved(ws, ws')| <= 100 * Drift(ws, ws', |ws|)
  {
    forall b | b in Moved(ws, ws') ensures b in SweptUpto(ws, ws', |ws|) {
      MovedIffSwept(ws, ws', b);
      var i: nat :| 1 <= i < |ws| && b in Swept(ws, ws', i);
      SweptUptoCovers(ws, ws', |ws|, i);
    }
    SubsetSize(Moved(ws, ws'), SweptUpto(ws, ws', |ws|));
    SweptUptoSize(ws, ws', |ws|);
  }

  // ---- Floating point ------------------------------------------------------------------

  /** Every whole number up to 2^53 is a binary64 value. */
  const WHOLE_LIMIT: int := 0x20_0000_0000_0000

  /** Totals whose buckets are told apart: 10,000 of them stay below 2^53. */
  const TOTAL_LIMIT: int := 900_000_000_000

  ghost predicate KeepsWhole(round: real -> real, n: int) { round(n as real) == n as real }

  /** A relative error of at most 2^-53. */
  ghost predicate NearlyKeeps(round: real -> real, x: real) {
    -x <= (round(x) - x) * (WHOLE_LIMIT as real) <= x
  }

  /**
   What binary64 rounding to nearest guarantees: it keeps order, keeps whole numbers up to 2^53,
   and is accurate to 2^-53 of the value between 0.0001 and 2^53.
   */
  ghost predicate RoundsLikeBinary64(round: real -> real) {
    && (forall a: real, b: real :: a <= b ==> round(a) <= round(b))
    && (forall n: int :: -WHOLE_LIMIT <= n <= WHOLE_LIMIT ==> KeepsWhole(round, n))
    && (forall x: real :: 0.0001 <= x <= WHOLE_LIMIT as real ==> NearlyKeeps(round, x))
  }

  /** The place of a bucket on the scale of the weights, before rounding. */
  function Position(b: nat, total: nat): real {
    (b * total) as real / BUCKETS as real
  }

  lemma ExactComparison(b: nat, total: nat, cumulative: int)
    ensures Position(b, total) < cumulative as real <==> b * total < cumulative * BUCKETS
  {
    assert Position(b, total) * (BUCKETS as real) == (b * total) as real;
    if b * total < cumulative * BUCKETS {
      assert (b * total) as real < (cumulative * BUCKETS) as real;
    }
  }

  lemma PositionInRange(b: nat, total: nat)
    requires b < BUCKETS && total <= TOTAL_LIMIT
    ensures b * total > 0 ==> 0.0001 <= Position(b, total)
    ensures Position(b, total) * (BUCKETS as real) < WHOLE_LIMIT as real
  {
    assert Position(b, total) * (BUCKETS as real) == (b * total) as real;
    assert b * total <= BUCKETS * total;
  }

  /** Rounding moves a position by less than the 10,000th part that separates it from a whole number. */
  lemma RoundingIsSmall(round: real -> real, b: nat, total: nat)
    requires RoundsLikeBinary64(round) && b < BUCKETS && total <= TOTAL_LIMIT
    ensures (round(Position(b, total)) - Position(b, total)) * (BUCKETS as real) < 1.0
  {
    var x := Position(b, total);
    PositionInRange(b, total);
    if b * total == 0 {
      assert KeepsWhole(round, 0) && x == 0 as real;
    } else {
      assert NearlyKeeps(round, x);
      var error := round(x) - x;
      assert error * (WHOLE_LIMIT as real) <= x;
      assert error * (BUCKETS as real) * (WHOLE_LIMIT as real) <= x * (BUCKETS as real);
    }
  }

  /** The rounded position compares with every cumulative weight as the exact one does. */
  lemma RoundedComparisonIsExact(round: real -> real, b: nat, total: nat, cumulative: int)
    requires RoundsLikeBinary64(round) && b < BUCKETS && total <= TOTAL_LIMIT
    requires -WHOLE_LIMIT <= cumulative <= WHOLE_LIMIT
    ensures round(Position(b, total)) < cumulative as real <==> b * total < cumulative * BUCKETS
  {
    var x := Position(b, total);
    ExactComparison(b, total, cumulative);
    RoundingIsSmall(round, b, total);
    assert KeepsWhole(round, cumulative);
    if x < cumulative as real {
      assert (b * total) as real + 1.0 <= (cumulative * BUCKETS) as real;
      assert x * (BUCKETS as real) + 1.0 <= cumulative as real * (BUCKETS as real);
    } else {
      assert round(cumulative as real) <= round(x);
    }
  }
}
