/** Nearest-neighbour matching of a target against one profile's reference
    table: the `distance` column assigned for every target, and pandas'
    idxmin over it. Distances are compared squared; SqrtKeepsClosest shows
    that any strictly increasing function of them, the square root among
    them, selects the same row. */
module Matcher {
  import opened Features

  /** One reference row: its Evalue column (already on the -log10 axis, used
      as it is), its length column and its attribute label. */
  datatype RefPoint = RefPoint(evalue: real, length: real, attribute: string)

  /** The position idxmin returns, or the ValueError it raises on an empty column. */
  datatype MatchResult = Found(index: nat) | EmptyReferenceSpace

  lemma SquareNonNegative(x: real)
    ensures x * x >= 0.0
  {
    if x < 0.0 {
      assert x * x == (-x) * (-x);
      assert (-x) * (-x) > 0.0;
    }
  }

  function Square(x: real): (r: real)
    ensures r >= 0.0
  {
    SquareNonNegative(x);
    x * x
  }

  /** Squared Euclidean distance over the raw (Evalue, length) axes: zero at
      the target itself, never negative. */
  function SqDistance(p: RefPoint, q: Query): (d: real)
    ensures d >= 0.0
    ensures p.evalue == q.score && p.length == q.length as real ==> d == 0.0
  {
    Square(p.evalue - q.score) + Square(p.length - q.length as real)
  }

  /** The distance column for one target, row by row. */
  function Distances(points: seq<RefPoint>, q: Query): (ds: seq<real>)
    ensures |ds| == |points|
  {
    seq(|points|, i requires 0 <= i < |points| => SqDistance(points[i], q))
  }

  /** k is the first position holding the smallest value of ds. */
  predicate IsFirstMinimum(ds: seq<real>, k: int)
  {
    0 <= k < |ds|
    && (forall j :: 0 <= j < |ds| ==> ds[k] <= ds[j])
    && (forall j :: 0 <= j < k ==> ds[k] < ds[j])
  }

  /** The reference definition of idxmin on a non-empty column. */
  function FirstArgMin(ds: seq<real>): (k: nat)
    requires |ds| > 0
    ensures IsFirstMinimum(ds, k)
  {
    if |ds| == 1 then 0
    else
      var k := FirstArgMin(ds[..|ds| - 1]);
      if ds[|ds| - 1] < ds[k] then |ds| - 1 else k
  }

  /** At most one position is the first minimum. */
  lemma FirstMinimumUnique(ds: seq<real>, i: int, j: int)
    requires IsFirstMinimum(ds, i) && IsFirstMinimum(ds, j)
    ensures i == j
  {
    assert ds[i] <= ds[j] && ds[j] <= ds[i];
  }

  /** The reference row closest to a target, first one on ties. */
  function ClosestIndex(points: seq<RefPoint>, q: Query): (k: nat)
    requires |points| > 0
    ensures k < |points|
    ensures forall j :: 0 <= j < |points| ==> SqDistance(points[k], q) <= SqDistance(points[j], q)
    ensures forall j :: 0 <= j < k ==> SqDistance(points[k], q) < SqDistance(points[j], q)
  {
    var ds := Distances(points, q);
    var k := FirstArgMin(ds);
    assert forall j :: 0 <= j < |points| ==> ds[j] == SqDistance(points[j], q);
    k
  }

  /** Two rows equally close to the target: the later one is never chosen. */
  lemma TieGoesToLowerIndex(points: seq<RefPoint>, q: Query, i: nat, j: nat)
    requires i < j < |points|
    requires SqDistance(points[i], q) == SqDistance(points[j], q)
    ensures ClosestIndex(points, q) != j
  {
  }

  /** A reference row at the target itself is chosen, unless an earlier row is too. */
  lemma ExactHitIsChosen(points: seq<RefPoint>, q: Query, i: nat)
    requires i < |points|
    requires points[i].evalue == q.score && points[i].length == q.length as real
    ensures ClosestIndex(points, q) <= i
    ensures SqDistance(points[ClosestIndex(points, q)], q) == 0.0
  {
    var k := ClosestIndex(points, q);
    assert SqDistance(points[k], q) <= SqDistance(points[i], q) == 0.0;
  }

  function Apply(f: real -> real, ds: seq<real>): (fs: seq<real>)
    ensures |fs| == |ds|
  {
    seq(|ds|, i requires 0 <= i < |ds| => f(ds[i]))
  }

  /** Taking a strictly increasing function of non-negative distances, as the
      source takes their square root, keeps the first minimum where it is. */
  lemma MonotoneKeepsFirstMinimum(ds: seq<real>, f: real -> real, k: int)
    requires forall i :: 0 <= i < |ds| ==> ds[i] >= 0.0
    requires forall x, y :: 0.0 <= x < y ==> f(x) < f(y)
    ensures IsFirstMinimum(ds, k) <==> IsFirstMinimum(Apply(f, ds), k)
  {
    var fs := Apply(f, ds);
    assert forall i :: 0 <= i < |ds| ==> fs[i] == f(ds[i]);
  }

  /** idxmin over the square roots of the squared distances picks the row ClosestIndex picks. */
  lemma SqrtKeepsClosest(points: seq<RefPoint>, q: Query, sqrt: real -> real)
    requires |points| > 0
    requires forall x, y :: 0.0 <= x < y ==> sqrt(x) < sqrt(y)
    ensures FirstArgMin(Apply(sqrt, Distances(points, q))) == ClosestIndex(points, q)
  {
    var ds := Distances(points, q);
    var k := ClosestIndex(points, q);
    var m := FirstArgMin(Apply(sqrt, ds));
    MonotoneKeepsFirstMinimum(ds, sqrt, k);
    MonotoneKeepsFirstMinimum(ds, sqrt, m);
    FirstMinimumUnique(ds, k, m);
  }

  /** pandas Series.idxmin: the first position of the smallest value, or the
      error raised on an empty column. */
  method IdxMin(ds: seq<real>) returns (r: MatchResult)
    ensures r == EmptyReferenceSpace <==> |ds| == 0
    ensures r.Found? ==> IsFirstMinimum(ds, r.index)
  {
    if |ds| == 0 {
      return EmptyReferenceSpace;
    }
    var best := 0;
    var i := 1;
    while i < |ds|
      invariant best < i <= |ds|
      invariant forall j :: 0 <= j < i ==> ds[best] <= ds[j]
      invariant forall j :: 0 <= j < best ==> ds[best] < ds[j]
    {
      if ds[i] < ds[best] {
        best := i;
      }
      i := i + 1;
    }
    r := Found(best);
  }

  /** The reference DataFrame of one profile: the columns read from the
      table, which matching never changes, and the `distance` column that
      every target overwrites. */
  class ReferenceTable {
    const points: seq<RefPoint>
    var distance: seq<real>

    constructor (points: seq<RefPoint>)
      ensures this.points == points && distance == []
    {
      this.points := points;
      distance := [];
    }

    /** tsv_df['distance'] = ... for one target. */
    method AssignDistance(q: Query)
      modifies this`distance
      ensures distance == Distances(points, q)
    {
      distance := Distances(points, q);
    }

    /** One query: overwrite the distance column, then idxmin over it. */
    method Closest(q: Query) returns (r: MatchResult)
      modifies this`distance
      ensures distance == Distances(points, q)
      ensures r == if |points| == 0 then EmptyReferenceSpace else Found(ClosestIndex(points, q))
    {
      AssignDistance(q);
      r := IdxMin(distance);
      if r.Found? {
        FirstMinimumUnique(distance, r.index, FirstArgMin(distance));
      }
    }
  }
}
