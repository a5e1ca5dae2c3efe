/**
 * Element-wise arithmetic on coordinate tuples: coords_add, coords_distance,
 * coords_div and coords_zero. Coordinates are sequences of exact reals; the
 * Euclidean distance is replaced by its square, which orders pairs of
 * coordinates the same way because the square root is monotone.
 */
module Geometry {

  type Coords = seq<real>

  function Min(a: nat, b: nat): nat
  {
    if a <= b then a else b
  }

  /** coords_add: pairs the coordinates as zip does, so the shorter operand decides the length. */
  function Add(a: Coords, b: Coords): (r: Coords)
    ensures |r| == Min(|a|, |b|)
  {
    if a == [] || b == [] then [] else [a[0] + b[0]] + Add(a[1..], b[1..])
  }

  /** Coordinate i of a sum is the sum of the operands' coordinates i. */
  lemma {:induction false} AddElementwise(a: Coords, b: Coords)
    ensures forall i :: 0 <= i < |Add(a, b)| ==> Add(a, b)[i] == a[i] + b[i]
  {
    if a != [] && b != [] {
      AddElementwise(a[1..], b[1..]);
    }
  }

  /**
   * coords_div: divides every coordinate by n. Python only divides when there is
   * a coordinate to divide, so n may be zero for the empty tuple.
   */
  function Div(c: Coords, n: real): (r: Coords)
    requires n != 0.0 || c == []
    ensures |r| == |c|
  {
    if c == [] then [] else [c[0] / n] + Div(c[1..], n)
  }

  /** Coordinate i of the quotient is coordinate i of c divided by n. */
  lemma {:induction false} DivElementwise(c: Coords, n: real)
    requires n != 0.0 || c == []
    ensures forall i :: 0 <= i < |c| ==> Div(c, n)[i] == c[i] / n
  {
    if c != [] {
      DivElementwise(c[1..], n);
    }
  }

  /** coords_zero: the origin with as many coordinates as c. */
  function Zero(c: Coords): (z: Coords)
    ensures |z| == |c|
  {
    seq(|c|, _ => 0.0)
  }

  /**
   * coords_distance without the final square root: the sum of squared
   * differences over the zipped coordinates.
   */
  function SquaredDistance(a: Coords, b: Coords): (r: real)
    ensures r >= 0.0
  {
    if a == [] || b == [] then 0.0
    else (a[0] - b[0]) * (a[0] - b[0]) + SquaredDistance(a[1..], b[1..])
  }

  /**
   * coords_distance as the source computes it, one zipped pair at a time, without the
   * final square root.
   */
  method Measure(a: Coords, b: Coords) returns (total: real)
    ensures total == SquaredDistance(a, b)
  {
    total := 0.0;
    var i := 0;
    while i < Min(|a|, |b|)
      invariant 0 <= i <= Min(|a|, |b|)
      invariant total + SquaredDistance(a[i..], b[i..]) == SquaredDistance(a, b)
    {
      assert a[i..][1..] == a[i + 1..] && b[i..][1..] == b[i + 1..];
      total := total + (a[i] - b[i]) * (a[i] - b[i]);
      i := i + 1;
    }
  }

  /** Adding the origin on either side of c gives c back. */
  lemma AddZeroIdentity(c: Coords)
    ensures Add(Zero(c), c) == c
    ensures Add(c, Zero(c)) == c
  {
    AddElementwise(Zero(c), c);
    AddElementwise(c, Zero(c));
    assert Add(Zero(c), c) == c by {
      forall i | 0 <= i < |c| ensures Add(Zero(c), c)[i] == c[i] { }
    }
    assert Add(c, Zero(c)) == c by {
      forall i | 0 <= i < |c| ensures Add(c, Zero(c))[i] == c[i] { }
    }
  }

  /** Every coordinate is at distance zero from itself. */
  lemma {:induction false} DistanceToSelf(a: Coords)
    ensures SquaredDistance(a, a) == 0.0
  {
    if a != [] {
      DistanceToSelf(a[1..]);
    }
  }

  /** The distance does not depend on the order of its arguments. */
  lemma {:induction false} DistanceSymmetric(a: Coords, b: Coords)
    ensures SquaredDistance(a, b) == SquaredDistance(b, a)
  {
    if a != [] && b != [] {
      DistanceSymmetric(a[1..], b[1..]);
      assert (a[0] - b[0]) * (a[0] - b[0]) == (b[0] - a[0]) * (b[0] - a[0]);
    }
  }
}
