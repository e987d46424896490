/**
 * Rank-1 quantities: `Affine1` is an absolute point and `Diff1` a free vector,
 * each a single coordinate `x` in a unit. In C# the unit is a type parameter;
 * here it is a tag of an arbitrary type `U`, and `GetConversion(from, to)` (not
 * part of this model) is the parameter `conv`. C# resolves the same-unit
 * operator overloads statically; an operand whose unit equals the other's
 * takes the plain pointwise branch, any other operand is first converted into
 * the left operand's unit.
 */
module Affine {
  import opened Transforms

  datatype Affine1<U> = Affine1(x: real, unit: U)

  datatype Diff1<U> = Diff1(x: real, unit: U)

  /** `GetConversion(from, to)`: the transform taking a value in `from` to `to`. */
  type Conversion<!U> = (U, U) -> Lft

  /** The conversion from `from` to `to` is defined at `x`. */
  predicate Convertible<U>(conv: Conversion<U>, from: U, to: U, x: real)
  {
    conv(from, to).Denominator(x) != 0.0
  }

  /** The value `x` in unit `from`, as the right operand of an operator whose left
      operand is in unit `to`: unchanged in the same unit, converted otherwise. */
  predicate Reconcilable<U(==)>(conv: Conversion<U>, from: U, to: U, x: real)
  {
    from == to || Convertible(conv, from, to, x)
  }

  function Reconciled<U(==)>(conv: Conversion<U>, from: U, to: U, x: real): (r: real)
    requires Reconcilable(conv, from, to, x)
    ensures from == to ==> r == x
    ensures from != to ==> r * conv(from, to).Denominator(x) == conv(from, to).a * x + conv(from, to).b
  {
    if from == to then x else conv(from, to).Transform(x)
  }

  // ----- Conversion -----

  /** `Linear.ConvertTo` on an affine point, and `Affine1.ConvertTo`: the
      coordinate is pushed through the conversion and tagged with the target unit. */
  function ConvertAffine<U>(conv: Conversion<U>, p: Affine1<U>, target: U): (r: Affine1<U>)
    requires Convertible(conv, p.unit, target, p.x)
    ensures r.unit == target
    ensures r.x * conv(p.unit, target).Denominator(p.x) == conv(p.unit, target).a * p.x + conv(p.unit, target).b
  {
    Affine1(conv(p.unit, target).Transform(p.x), target)
  }

  /** `Linear.ConvertTo` on a difference, and `Diff1.ConvertTo`. */
  function ConvertDiff<U>(conv: Conversion<U>, v: Diff1<U>, target: U): (r: Diff1<U>)
    requires Convertible(conv, v.unit, target, v.x)
    ensures r.unit == target
    ensures r.x * conv(v.unit, target).Denominator(v.x) == conv(v.unit, target).a * v.x + conv(v.unit, target).b
  {
    Diff1(conv(v.unit, target).Transform(v.x), target)
  }

  // ----- Affine1 operators -----

  /** `Affine1.Zero`, the default value: the origin of the unit. */
  function Zero<U>(unit: U): (r: Affine1<U>)
    ensures r.x == 0.0 && r.unit == unit
  {
    Affine1(0.0, unit)
  }

  /** `Affine1 - Affine1` and `Affine1 - IAffine1`: the difference of two points,
      in the left operand's unit. */
  function SubPoints<U(==)>(conv: Conversion<U>, first: Affine1<U>, second: Affine1<U>): (r: Diff1<U>)
    requires Reconcilable(conv, second.unit, first.unit, second.x)
    ensures r.unit == first.unit
  {
    Diff1(first.x - Reconciled(conv, second.unit, first.unit, second.x), first.unit)
  }

  /** `Affine1 - Diff1` and `Affine1 - IDiff1`: a point moved back by a difference. */
  function SubDiffFromPoint<U(==)>(conv: Conversion<U>, first: Affine1<U>, second: Diff1<U>): (r: Affine1<U>)
    requires Reconcilable(conv, second.unit, first.unit, second.x)
    ensures r.unit == first.unit
  {
    Affine1(first.x - Reconciled(conv, second.unit, first.unit, second.x), first.unit)
  }

  /** `Affine1 + Diff1` and `Affine1 + IDiff1`: as written, the sum is a `Diff1`,
      not a point. */
  function AddPointDiff<U(==)>(conv: Conversion<U>, first: Affine1<U>, second: Diff1<U>): (r: Diff1<U>)
    requires Reconcilable(conv, second.unit, first.unit, second.x)
    ensures r.unit == first.unit
  {
    Diff1(first.x + Reconciled(conv, second.unit, first.unit, second.x), first.unit)
  }

  /** `Diff1 + Affine1` (declared in both structs) and `Diff1 + IAffine1`: also a `Diff1`. */
  function AddDiffPoint<U(==)>(conv: Conversion<U>, first: Diff1<U>, second: Affine1<U>): (r: Diff1<U>)
    requires Reconcilable(conv, second.unit, first.unit, second.x)
    ensures r.unit == first.unit
  {
    Diff1(first.x + Reconciled(conv, second.unit, first.unit, second.x), first.unit)
  }

  /** `Affine1.Norm`: the lazily cached absolute value, as a difference. */
  function Norm<U>(p: Affine1<U>): (r: Diff1<U>)
    ensures r.unit == p.unit
    ensures r.x >= 0.0 && (r.x == p.x || r.x == -p.x)
  {
    Diff1(if p.x < 0.0 then -p.x else p.x, p.unit)
  }

  // ----- Diff1 operators -----

  /** `Diff1 + Diff1` and `Diff1 + IDiff1`. */
  function AddDiffs<U(==)>(conv: Conversion<U>, first: Diff1<U>, second: Diff1<U>): (r: Diff1<U>)
    requires Reconcilable(conv, second.unit, first.unit, second.x)
    ensures r.unit == first.unit
  {
    Diff1(first.x + Reconciled(conv, second.unit, first.unit, second.x), first.unit)
  }

  /** `Diff1 - Diff1` and `Diff1 - IDiff1`. */
  function SubDiffs<U(==)>(conv: Conversion<U>, first: Diff1<U>, second: Diff1<U>): (r: Diff1<U>)
    requires Reconcilable(conv, second.unit, first.unit, second.x)
    ensures r.unit == first.unit
  {
    Diff1(first.x - Reconciled(conv, second.unit, first.unit, second.x), first.unit)
  }

  /** `scalar * Diff1`. */
  function ScaleLeft<U>(k: real, v: Diff1<U>): (r: Diff1<U>)
    ensures r.unit == v.unit
  {
    Diff1(k * v.x, v.unit)
  }

  /** `Diff1 * scalar`. */
  function ScaleRight<U>(v: Diff1<U>, k: real): (r: Diff1<U>)
    ensures r.unit == v.unit
  {
    Diff1(v.x * k, v.unit)
  }

  /** `Diff1 / scalar`; a zero scalar gives a non-finite double in C# and is excluded. */
  function Divide<U>(v: Diff1<U>, k: real): (r: Diff1<U>)
    requires k != 0.0
    ensures r.unit == v.unit
    ensures r.x * k == v.x
  {
    Diff1(v.x / k, v.unit)
  }

  /** `Diff1 & Diff1`: the square of `second.X - first.X`; both operands have the
      same unit type. */
  function SquaredDistance<U>(first: Diff1<U>, second: Diff1<U>): (r: Diff1<U>)
    requires first.unit == second.unit
    ensures r.unit == first.unit
    ensures r.x >= 0.0
  {
    var delta := second.x - first.x;
    Diff1(delta * delta, first.unit)
  }

  /** `Diff1.Magnitude`: the lazily cached absolute value. */
  function Magnitude<U>(v: Diff1<U>): (r: Diff1<U>)
    ensures r.unit == v.unit
    ensures r.x >= 0.0 && (r.x == v.x || r.x == -v.x)
  {
    Diff1(if v.x < 0.0 then -v.x else v.x, v.unit)
  }

  /** `Diff1.SquareMagnitude`: the lazily cached square, equal to the square of the magnitude. */
  function SquareMagnitude<U>(v: Diff1<U>): (r: Diff1<U>)
    ensures r.unit == v.unit
    ensures r.x == Magnitude(v).x * Magnitude(v).x
    ensures r.x >= 0.0
  {
    Diff1(v.x * v.x, v.unit)
  }

  // ----- Batch conversion -----

  /** `Linear.Convert` as written: the `Parallel.For` upper bound `Length - 1` is
      exclusive, so the last slot keeps its default value. The parallel loop is
      modelled as a sequential one; each slot is written by one iteration only. */
  method Convert<U>(conv: Conversion<U>, source: U, target: U, affines: array<Affine1<U>>)
    returns (result: array<Affine1<U>>)
    requires forall i :: 0 <= i < affines.Length - 1 ==> Convertible(conv, source, target, affines[i].x)
    ensures fresh(result)
    ensures result.Length == affines.Length
    ensures forall i :: 0 <= i < affines.Length - 1 ==>
      result[i] == ConvertAffine(conv, Affine1(affines[i].x, source), target)
    ensures affines.Length > 0 ==> result[affines.Length - 1] == Zero(target)
  {
    var transform := conv(source, target);
    result := new Affine1<U>[affines.Length](_ => Zero(target));
    var i := 0;
    while i < affines.Length - 1
      invariant 0 <= i && (affines.Length == 0 ==> i == 0) && (affines.Length > 0 ==> i <= affines.Length - 1)
      invariant forall j :: 0 <= j < affines.Length - 1 ==> Convertible(conv, source, target, affines[j].x)
      invariant forall j :: 0 <= j < i ==> result[j] == Affine1(transform.Transform(affines[j].x), target)
      invariant forall j :: i <= j < affines.Length ==> result[j] == Zero(target)
    {
      result[i] := Affine1(transform.Transform(affines[i].x), target);
      i := i + 1;
    }
  }

  /** `Linear.Convert` with every slot converted, as the same-length result
      array implies. */
  method ConvertAll<U>(conv: Conversion<U>, source: U, target: U, affines: array<Affine1<U>>)
    returns (result: array<Affine1<U>>)
    requires forall i :: 0 <= i < affines.Length ==> Convertible(conv, source, target, affines[i].x)
    ensures fresh(result)
    ensures result.Length == affines.Length
    ensures forall i :: 0 <= i < affines.Length ==>
      result[i] == ConvertAffine(conv, Affine1(affines[i].x, source), target)
  {
    var transform := conv(source, target);
    result := new Affine1<U>[affines.Length](_ => Zero(target));
    for i := 0 to affines.Length
      invariant forall j :: 0 <= j < affines.Length ==> Convertible(conv, source, target, affines[j].x)
      invariant forall j :: 0 <= j < i ==> result[j] == Affine1(transform.Transform(affines[j].x), target)
    {
      result[i] := Affine1(transform.Transform(affines[i].x), target);
    }
  }

  /** A one-element batch under a doubling conversion: the loop as written leaves
      the only slot at the origin, where the full conversion holds 10. */
  method ConvertSingleton<U>(source: U, target: U) returns (asWritten: Affine1<U>, intended: Affine1<U>)
    ensures asWritten == Zero(target)
    ensures intended == Affine1(10.0, target)
    ensures asWritten != intended
  {
    var conv: Conversion<U> := (_, _) => Scale(2.0);
    var affines := new Affine1<U>[1](_ => Affine1(5.0, source));
    var written := Convert(conv, source, target, affines);
    var all := ConvertAll(conv, source, target, affines);
    asWritten := written[0];
    intended := all[0];
  }

  // ----- Properties -----

  /** A mixed-unit operand is first converted into the left operand's unit:
      each mixed-unit operator equals its same-unit form applied to the
      converted right operand. */
  lemma MixedUnitsConvertRight<U>(conv: Conversion<U>, p: Affine1<U>, q: Affine1<U>, v: Diff1<U>, w: Diff1<U>)
    requires q.unit != p.unit && Convertible(conv, q.unit, p.unit, q.x)
    requires v.unit != p.unit && Convertible(conv, v.unit, p.unit, v.x)
    requires w.unit == v.unit
    ensures SubPoints(conv, p, q) == SubPoints(conv, p, ConvertAffine(conv, q, p.unit))
    ensures SubDiffFromPoint(conv, p, v) == SubDiffFromPoint(conv, p, ConvertDiff(conv, v, p.unit))
    ensures AddPointDiff(conv, p, v) == AddPointDiff(conv, p, ConvertDiff(conv, v, p.unit))
    ensures SubPoints(conv, p, q).x == p.x - ConvertAffine(conv, q, p.unit).x
  {
  }

  /** The difference operators `Diff1 + IDiff1`, `Diff1 - IDiff1` and
      `Diff1 + IAffine1` with a right operand in another unit: the operand is
      first converted into the left operand's unit, then the coordinates are
      added or subtracted. */
  lemma MixedUnitDiffOperators<U>(conv: Conversion<U>, v: Diff1<U>, w: Diff1<U>, q: Affine1<U>)
    requires w.unit != v.unit && Convertible(conv, w.unit, v.unit, w.x)
    requires q.unit != v.unit && Convertible(conv, q.unit, v.unit, q.x)
    ensures AddDiffs(conv, v, w) == Diff1(v.x + ConvertDiff(conv, w, v.unit).x, v.unit)
    ensures SubDiffs(conv, v, w) == Diff1(v.x - ConvertDiff(conv, w, v.unit).x, v.unit)
    ensures AddDiffPoint(conv, v, q) == Diff1(v.x + ConvertAffine(conv, q, v.unit).x, v.unit)
    ensures AddDiffs(conv, v, w) == AddDiffs(conv, v, ConvertDiff(conv, w, v.unit))
    ensures SubDiffs(conv, v, w) == SubDiffs(conv, v, ConvertDiff(conv, w, v.unit))
    ensures AddDiffPoint(conv, v, q) == AddDiffPoint(conv, v, ConvertAffine(conv, q, v.unit))
  {
  }

  /** Same-unit point arithmetic: subtracting two points gives the difference of
      their coordinates, and moving a point back by that difference reaches the
      other point. */
  lemma PointDifferences<U>(conv: Conversion<U>, p: Affine1<U>, q: Affine1<U>)
    requires p.unit == q.unit
    ensures SubPoints(conv, p, q) == Diff1(p.x - q.x, p.unit)
    ensures SubDiffFromPoint(conv, p, SubPoints(conv, p, q)) == q
    ensures SubPoints(conv, q, p).x == -SubPoints(conv, p, q).x
  {
  }

  /** Adding a difference to a point in the same unit yields a `Diff1` whose
      coordinate is the sum, whichever operand comes first; `q + (p - q)` has
      the coordinate of `p`. */
  lemma PointPlusDiff<U>(conv: Conversion<U>, p: Affine1<U>, q: Affine1<U>, v: Diff1<U>)
    requires p.unit == q.unit && v.unit == p.unit
    ensures AddPointDiff(conv, p, v) == AddDiffPoint(conv, v, p)
    ensures AddPointDiff(conv, p, v).x == p.x + v.x
    ensures AddPointDiff(conv, q, SubPoints(conv, p, q)) == Diff1(p.x, p.unit)
  {
  }

  /** Same-unit difference arithmetic: addition commutes, subtraction undoes it,
      and scaling by a nonzero scalar is undone by dividing by it. */
  lemma DiffArithmetic<U>(conv: Conversion<U>, v: Diff1<U>, w: Diff1<U>, k: real)
    requires v.unit == w.unit
    ensures AddDiffs(conv, v, w) == Diff1(v.x + w.x, v.unit)
    ensures SubDiffs(conv, v, w) == Diff1(v.x - w.x, v.unit)
    ensures AddDiffs(conv, v, w).x == AddDiffs(conv, w, v).x
    ensures SubDiffs(conv, AddDiffs(conv, v, w), w) == v
    ensures ScaleLeft(k, v) == ScaleRight(v, k)
    ensures k != 0.0 ==> Divide(ScaleRight(v, k), k) == v
  {
  }

  /** Scaling multiplies the coordinate: zero gives the zero difference, one
      changes nothing, scalings compose by multiplying the scalars, and scaling
      distributes over the sum of two differences in one unit. */
  lemma ScalingLaws<U>(conv: Conversion<U>, v: Diff1<U>, w: Diff1<U>, k: real, m: real)
    requires v.unit == w.unit
    ensures ScaleLeft(k, v) == Diff1(k * v.x, v.unit) && ScaleRight(v, k) == Diff1(v.x * k, v.unit)
    ensures ScaleLeft(0.0, v).x == 0.0
    ensures ScaleLeft(1.0, v) == v
    ensures ScaleLeft(k, ScaleLeft(m, v)) == ScaleLeft(k * m, v)
    ensures ScaleLeft(k, AddDiffs(conv, v, w)) == AddDiffs(conv, ScaleLeft(k, v), ScaleLeft(k, w))
  {
    assert k * (m * v.x) == (k * m) * v.x;
    assert k * (v.x + w.x) == k * v.x + k * w.x;
  }

  /** `&` is symmetric and equals the square magnitude of the difference. */
  lemma SquaredDistanceIsSquareMagnitude<U>(conv: Conversion<U>, v: Diff1<U>, w: Diff1<U>)
    requires v.unit == w.unit
    ensures SquaredDistance(v, w) == SquaredDistance(w, v)
    ensures SquaredDistance(v, w) == SquareMagnitude(SubDiffs(conv, v, w))
  {
  }

  /** Converting to another unit and back restores the coordinate when the
      conversion back is projectively the inverse of the conversion there. */
  lemma ConvertRoundTrip<U>(conv: Conversion<U>, p: Affine1<U>, target: U)
    requires conv(p.unit, target).Determinant() != 0.0
    requires Equals(conv(target, p.unit), conv(p.unit, target).Inverse(), 0.0)
    requires Convertible(conv, p.unit, target, p.x)
    requires Convertible(conv, target, p.unit, ConvertAffine(conv, p, target).x)
    ensures ConvertAffine(conv, ConvertAffine(conv, p, target), p.unit) == p
  {
    var t := conv(p.unit, target);
    var y := t.Transform(p.x);
    InverseTransform(t, p.x);
    EqualsExactAgree(conv(target, p.unit), t.Inverse(), y);
  }
}
