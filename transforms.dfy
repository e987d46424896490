/**
 * Linear-fractional (Moebius) transformations used to convert values between
 * units: four coefficients (A, B, C, D) denote the map x |-> (A*x + B) / (C*x + D).
 * Composition is 2x2 matrix multiplication, folded left to right over a list.
 * Doubles are modelled as reals; a zero denominator, which yields an infinity or
 * NaN in the C# code, is a precondition here.
 */
module Transforms {
  import opened Wrappers

  /** The exceptions the transform code can raise. */
  datatype Error =
    | IndexOutOfRange  // the matrix indexer was given an index outside {0, 1}
    | EmptySequence    // `Aggregate` over an empty list of matrices

  /** `Matrix2x2`, stored row by row. */
  datatype Matrix2x2 = Matrix2x2(a11: real, a12: real, a21: real, a22: real)

  /** The indexer `m[i, j]`: only indices in {0, 1} are accepted. */
  function At(m: Matrix2x2, i: int, j: int): (r: Result<real, Error>)
    ensures r.Success? <==> 0 <= i <= 1 && 0 <= j <= 1
    ensures r.Failure? ==> r.error == IndexOutOfRange
  {
    if i == 0 && j == 0 then Success(m.a11)
    else if i == 0 && j == 1 then Success(m.a12)
    else if i == 1 && j == 0 then Success(m.a21)
    else if i == 1 && j == 1 then Success(m.a22)
    else Failure(IndexOutOfRange)
  }

  /** `operator *` on matrices. */
  function Mul(m: Matrix2x2, n: Matrix2x2): Matrix2x2
  {
    Matrix2x2(
      m.a11 * n.a11 + m.a12 * n.a21,
      m.a11 * n.a12 + m.a12 * n.a22,
      m.a21 * n.a11 + m.a22 * n.a21,
      m.a21 * n.a12 + m.a22 * n.a22)
  }

  const IdentityMatrix := Matrix2x2(1.0, 0.0, 0.0, 1.0)

  lemma MulAssociative(m: Matrix2x2, n: Matrix2x2, p: Matrix2x2)
    ensures Mul(Mul(m, n), p) == Mul(m, Mul(n, p))
  {
    var mn, np := Mul(m, n), Mul(n, p);
    var l, r := Mul(mn, p), Mul(m, np);
    assert l.a11 == r.a11 by {
      DotAssociative(m.a11, m.a12, n.a11, n.a21, n.a12, n.a22, p.a11, p.a21, mn.a11, mn.a12, np.a11, np.a21);
    }
    assert l.a12 == r.a12 by {
      DotAssociative(m.a11, m.a12, n.a11, n.a21, n.a12, n.a22, p.a12, p.a22, mn.a11, mn.a12, np.a12, np.a22);
    }
    assert l.a21 == r.a21 by {
      DotAssociative(m.a21, m.a22, n.a11, n.a21, n.a12, n.a22, p.a11, p.a21, mn.a21, mn.a22, np.a11, np.a21);
    }
    assert l.a22 == r.a22 by {
      DotAssociative(m.a21, m.a22, n.a11, n.a21, n.a12, n.a22, p.a12, p.a22, mn.a21, mn.a22, np.a12, np.a22);
    }
  }

  /** One entry of a triple product, grouped either way: (a c)(b f; d g)(e; h). */
  lemma DotAssociative(a: real, c: real, b: real, d: real, f: real, g: real, e: real, h: real,
                       x: real, y: real, u: real, v: real)
    requires x == a * b + c * d && y == a * f + c * g
    requires u == b * e + f * h && v == d * e + g * h
    ensures x * e + y * h == a * u + c * v
  {
    calc {
      x * e + y * h;
      (a * b + c * d) * e + (a * f + c * g) * h;
      (a * b) * e + (c * d) * e + (a * f) * h + (c * g) * h;
      a * (b * e) + c * (d * e) + a * (f * h) + c * (g * h);
      a * (b * e + f * h) + c * (d * e + g * h);
      a * u + c * v;
    }
  }

  /** The left fold `Aggregate((a, b) => a * b)` continued from accumulator `acc`. */
  function FoldMul(acc: Matrix2x2, rest: seq<Matrix2x2>): Matrix2x2
    decreases |rest|
  {
    if rest == [] then acc else FoldMul(Mul(acc, rest[0]), rest[1..])
  }

  /** `Matrix2x2.Multiply`: `Aggregate` seeds the fold with the first element and
      throws on an empty sequence. */
  function Multiply(ms: seq<Matrix2x2>): (r: Result<Matrix2x2, Error>)
    ensures r.Failure? <==> ms == []
    ensures r.Failure? ==> r.error == EmptySequence
    ensures |ms| == 1 ==> r == Success(ms[0])
  {
    if ms == [] then Failure(EmptySequence) else Success(FoldMul(ms[0], ms[1..]))
  }

  lemma {:induction false} FoldMulAppend(acc: Matrix2x2, xs: seq<Matrix2x2>, ys: seq<Matrix2x2>)
    ensures FoldMul(acc, xs + ys) == FoldMul(FoldMul(acc, xs), ys)
    decreases |xs|
  {
    if xs != [] {
      assert (xs + ys)[1..] == xs[1..] + ys;
      FoldMulAppend(Mul(acc, xs[0]), xs[1..], ys);
    } else {
      assert xs + ys == ys;
    }
  }

  /** Pulling a left factor out of the fold needs associativity at every step. */
  lemma {:induction false} FoldMulFactor(m: Matrix2x2, n: Matrix2x2, ys: seq<Matrix2x2>)
    ensures FoldMul(Mul(m, n), ys) == Mul(m, FoldMul(n, ys))
    decreases |ys|
  {
    if ys != [] {
      MulAssociative(m, n, ys[0]);
      FoldMulFactor(m, Mul(n, ys[0]), ys[1..]);
    }
  }

  /** The product of a concatenation is the product of the two products: the
      left fold gives the same matrix however the list is grouped. */
  lemma MultiplyAppend(xs: seq<Matrix2x2>, ys: seq<Matrix2x2>)
    requires xs != [] && ys != []
    ensures Multiply(xs + ys).Success?
    ensures Multiply(xs + ys).value == Mul(Multiply(xs).value, Multiply(ys).value)
  {
    assert (xs + ys)[0] == xs[0];
    assert (xs + ys)[1..] == xs[1..] + ys;
    FoldMulAppend(xs[0], xs[1..], ys);
    var p := FoldMul(xs[0], xs[1..]);
    assert ys == [ys[0]] + ys[1..];
    FoldMulFactor(p, ys[0], ys[1..]);
  }

  /** `LinearFractionalTransformation`: the map x |-> (a*x + b) / (c*x + d). */
  datatype Lft = Lft(a: real, b: real, c: real, d: real) {

    function Denominator(x: real): real
    {
      c * x + d
    }

    /** `Transform`: defined wherever the denominator does not vanish. */
    function Transform(x: real): (r: real)
      requires Denominator(x) != 0.0
      ensures r * Denominator(x) == a * x + b
    {
      (a * x + b) / (c * x + d)
    }

    function Determinant(): real
    {
      a * d - b * c
    }

    /** `AsSquareMatrix2`. */
    function AsSquareMatrix2(): Matrix2x2
    {
      Matrix2x2(a, b, c, d)
    }

    /** `Inverse`: the adjugate matrix (d, -b, -c, a). */
    function Inverse(): (r: Lft)
      ensures r.Determinant() == Determinant()
    {
      Lft(d, -b, -c, a)
    }

    /** `ComposeWith(other)`, that is `Compose(this, other)`: `other` is applied first. */
    function ComposeWith(other: Lft): (r: Lft)
      ensures r.AsSquareMatrix2() == Mul(AsSquareMatrix2(), other.AsSquareMatrix2())
    {
      var m, n := AsSquareMatrix2(), other.AsSquareMatrix2();
      var ms := Matrices([this, other]);
      assert ms == [m, n] && ms[1..] == [n] && [n][1..] == [];
      assert FoldMul(m, [n]) == FoldMul(Mul(m, n), []) == Mul(m, n);
      Compose([this, other]).value
    }

    /** `Normalized`: the coefficients scaled by the inverse of the determinant.
        The C# value is lazily memoised; a singular transform yields non-finite
        coefficients there and is excluded here. */
    function Normalized(): (r: Lft)
      requires Determinant() != 0.0
      ensures Equals(this, r, 0.0)
      ensures r.Determinant() * Determinant() == 1.0
    {
      var iDet := 1.0 / Determinant();
      EqualsScaled(this, iDet, 0.0);
      DeterminantScaled(this, iDet);
      Lft(a * iDet, b * iDet, c * iDet, d * iDet)
    }
  }

  /** The constructor taking a `Matrix2x2`, which reads the four entries through the indexer. */
  function FromMatrix(m: Matrix2x2): (r: Lft)
    ensures r.AsSquareMatrix2() == m
  {
    Lft(At(m, 0, 0).value, At(m, 0, 1).value, At(m, 1, 0).value, At(m, 1, 1).value)
  }

  /** The two-argument constructor: an affine map. */
  function Affine(a: real, b: real): (r: Lft)
    ensures forall x :: r.Denominator(x) == 1.0 && r.Transform(x) == a * x + b
  {
    Lft(a, b, 0.0, 1.0)
  }

  /** The one-argument constructor: a pure scale. */
  function Scale(a: real): (r: Lft)
    ensures forall x :: r.Denominator(x) == 1.0 && r.Transform(x) == a * x
  {
    Lft(a, 0.0, 0.0, 1.0)
  }

  /** `Identity`. */
  function Identity(): (r: Lft)
    ensures forall x :: r.Denominator(x) == 1.0 && r.Transform(x) == x
  {
    Lft(1.0, 0.0, 0.0, 1.0)
  }

  /** The matrices of a list of transforms (`transformations.Select(o => o.AsSquareMatrix2())`). */
  function Matrices(ts: seq<Lft>): (ms: seq<Matrix2x2>)
    ensures |ms| == |ts|
    ensures forall i :: 0 <= i < |ts| ==> ms[i] == ts[i].AsSquareMatrix2()
  {
    seq(|ts|, i requires 0 <= i < |ts| => ts[i].AsSquareMatrix2())
  }

  /** `Compose(params transformations)`: fails on an empty list, as `Aggregate` does. */
  function Compose(ts: seq<Lft>): (r: Result<Lft, Error>)
    ensures r.Failure? <==> ts == []
    ensures r.Failure? ==> r.error == EmptySequence
  {
    match Multiply(Matrices(ts))
    case Success(m) => Success(FromMatrix(m))
    case Failure(e) => Failure(e)
  }

  /** The transform with every coefficient multiplied by `k`. */
  function ScaledBy(t: Lft, k: real): Lft
  {
    Lft(k * t.a, k * t.b, k * t.c, k * t.d)
  }

  function Abs(x: real): real
  {
    if x < 0.0 then -x else x
  }

  /** The three cross-multiplied expressions that `Equals` compares with zero:
      the coefficients of x^2, x and 1 in (A1*x + B1)(C2*x + D2) - (A2*x + B2)(C1*x + D1). */
  function CrossSquare(first: Lft, second: Lft): real
  {
    first.a * second.c - second.a * first.c
  }

  function CrossLinear(first: Lft, second: Lft): real
  {
    first.a * second.d + first.b * second.c - second.a * first.d - second.b * first.c
  }

  function CrossConstant(first: Lft, second: Lft): real
  {
    first.b * second.d - second.b * first.d
  }

  /** The static `Equals(first, second, epsilon)`: the three cross-multiplied
      expressions are each within `epsilon` of zero. */
  predicate Equals(first: Lft, second: Lft, epsilon: real)
  {
    && Abs(CrossSquare(first, second)) <= epsilon
    && Abs(CrossLinear(first, second)) <= epsilon
    && Abs(CrossConstant(first, second)) <= epsilon
  }

  /** Two to the power `n`. */
  function Pow2(n: nat): (r: real)
    ensures r >= 1.0
  {
    if n == 0 then 1.0 else 2.0 * Pow2(n - 1)
  }

  /** `double.Epsilon`, the smallest positive (subnormal) double, 2^-1074: the
      default tolerance of `Equals`. */
  const DoubleEpsilon: real := 1.0 / Pow2(1074)

  /** `operator ==`: identical coefficients, or `Equals` with the default tolerance. */
  predicate Eq(first: Lft, second: Lft)
  {
    (first.a == second.a && first.b == second.b && first.c == second.c && first.d == second.d)
    || Equals(first, second, DoubleEpsilon)
  }

  /** `operator !=`. */
  predicate Neq(first: Lft, second: Lft)
  {
    (first.a != second.a || first.b != second.b || first.c != second.c || first.d != second.d)
    && !Equals(first, second, DoubleEpsilon)
  }

  lemma DeterminantScaled(t: Lft, k: real)
    ensures ScaledBy(t, k).Determinant() == k * k * t.Determinant()
  {
    calc {
      ScaledBy(t, k).Determinant();
      (k * t.a) * (k * t.d) - (k * t.b) * (k * t.c);
      k * k * (t.a * t.d) - k * k * (t.b * t.c);
    }
  }

  // ----- Properties -----

  /** Matrix round trip: the matrix constructor undoes `AsSquareMatrix2`, and conversely. */
  lemma MatrixRoundTrip(t: Lft, m: Matrix2x2)
    ensures FromMatrix(t.AsSquareMatrix2()) == t
    ensures FromMatrix(m).AsSquareMatrix2() == m
  {
  }

  /** Composition agrees with function composition, the second transform being
      applied first, wherever the inner and the composite denominators do not vanish. */
  lemma ComposeWithTransform(t1: Lft, t2: Lft, x: real)
    requires t2.Denominator(x) != 0.0
    requires t1.ComposeWith(t2).Denominator(x) != 0.0
    ensures t1.Denominator(t2.Transform(x)) != 0.0
    ensures t1.ComposeWith(t2).Transform(x) == t1.Transform(t2.Transform(x))
  {
    var t := t1.ComposeWith(t2);
    var y := t2.Transform(x);
    var d2 := t2.Denominator(x);
    Regroup(t1.c, t1.d, t2.b, t2.d, t2.a, t2.c, x);
    Regroup(t1.a, t1.b, t2.b, t2.d, t2.a, t2.c, x);
    assert t2.a * x + t2.b == y * d2;
    Factor(t1.c, t1.d, y, d2);
    Factor(t1.a, t1.b, y, d2);
    assert t.Denominator(x) == d2 * t1.Denominator(y);
    assert t.a * x + t.b == d2 * (t1.a * y + t1.b);
    CancelCommon(d2, t1.a * y + t1.b, t1.Denominator(y));
  }

  /** The numerator and denominator of a composite, in terms of the inner map's. */
  lemma Regroup(p: real, q: real, r: real, s: real, u: real, v: real, x: real)
    ensures (p * u + q * v) * x + (p * r + q * s) == p * (u * x + r) + q * (v * x + s)
  {
  }

  lemma Factor(c: real, d: real, y: real, den: real)
    ensures c * (y * den) + d * den == den * (c * y + d)
  {
  }

  lemma CancelCommon(s: real, n: real, den: real)
    requires s != 0.0 && den != 0.0
    ensures s * den != 0.0
    ensures (s * n) / (s * den) == n / den
  {
  }

  lemma CrossQuotient(n1: real, d1: real, n2: real, d2: real)
    requires d1 != 0.0 && d2 != 0.0 && n1 * d2 == n2 * d1
    ensures n1 / d1 == n2 / d2
  {
  }

  lemma ProductExpand(a: real, b: real, c: real, d: real, x: real)
    ensures (a * x + b) * (c * x + d) == (a * c) * (x * x) + (a * d + b * c) * x + b * d
  {
  }

  /** Two reals that give the same product with a nonzero factor are equal. */
  lemma UniqueQuotient(p: real, q: real, den: real)
    requires den != 0.0 && p * den == q * den
    ensures p == q
  {
    assert (p - q) * den == 0.0;
  }

  /** The list form of `Compose` is independent of grouping: composing a
      concatenation composes the two partial composites. */
  lemma ComposeGrouping(ts: seq<Lft>, us: seq<Lft>)
    requires ts != [] && us != []
    ensures Compose(ts + us).Success?
    ensures Compose(ts + us).value == Compose(ts).value.ComposeWith(Compose(us).value)
  {
    assert Matrices(ts + us) == Matrices(ts) + Matrices(us);
    MultiplyAppend(Matrices(ts), Matrices(us));
    var m := Multiply(Matrices(ts)).value;
    var n := Multiply(Matrices(us)).value;
    MatrixRoundTrip(Compose(ts).value, m);
    MatrixRoundTrip(Compose(us).value, n);
    var left := Compose(ts + us).value;
    var right := Compose(ts).value.ComposeWith(Compose(us).value);
    assert left.AsSquareMatrix2() == right.AsSquareMatrix2();
  }

  /** A single transform composes to itself, and `Identity` is an exact two-sided
      neutral element. */
  lemma ComposeIdentity(t: Lft)
    ensures Compose([t]) == Success(t)
    ensures Identity().ComposeWith(t) == t
    ensures t.ComposeWith(Identity()) == t
  {
    assert Matrices([t]) == [t.AsSquareMatrix2()];
    var l := Identity().ComposeWith(t);
    var r := t.ComposeWith(Identity());
    assert l.AsSquareMatrix2() == t.AsSquareMatrix2();
    assert r.AsSquareMatrix2() == t.AsSquareMatrix2();
  }

  /** `Inverse` is an involution on the coefficients. */
  lemma InverseInvolution(t: Lft)
    ensures t.Inverse().Inverse() == t
  {
  }

  /** Composing with the inverse, on either side, gives the identity matrix times
      the determinant, which `Equals` identifies with `Identity` exactly. */
  lemma ComposeInverse(t: Lft)
    ensures t.ComposeWith(t.Inverse()) == ScaledBy(Identity(), t.Determinant())
    ensures t.Inverse().ComposeWith(t) == ScaledBy(Identity(), t.Determinant())
    ensures Equals(t.ComposeWith(t.Inverse()), Identity(), 0.0)
  {
    var r := t.ComposeWith(t.Inverse());
    var l := t.Inverse().ComposeWith(t);
    assert r.AsSquareMatrix2() == ScaledBy(Identity(), t.Determinant()).AsSquareMatrix2();
    assert l.AsSquareMatrix2() == ScaledBy(Identity(), t.Determinant()).AsSquareMatrix2();
    EqualsScaled(Identity(), t.Determinant(), 0.0);
    EqualsSymmetric(Identity(), r, 0.0);
  }

  /** The inverse undoes the transform wherever it is defined and the map is not singular. */
  lemma InverseTransform(t: Lft, x: real)
    requires t.Denominator(x) != 0.0 && t.Determinant() != 0.0
    ensures t.Inverse().Denominator(t.Transform(x)) != 0.0
    ensures t.Inverse().Transform(t.Transform(x)) == x
  {
    var y := t.Transform(x);
    var den := t.Denominator(x);
    var inv := t.Inverse();
    assert y * den == t.a * x + t.b;
    assert inv.Denominator(y) * den == t.Determinant() by {
      calc {
        inv.Denominator(y) * den;
        (-t.c * y + t.a) * den;
        -t.c * (y * den) + t.a * den;
        -t.c * (t.a * x + t.b) + t.a * (t.c * x + t.d);
      }
    }
    assert (inv.a * y + inv.b) * den == t.Determinant() * x by {
      calc {
        (inv.a * y + inv.b) * den;
        t.d * (y * den) - t.b * den;
        t.d * (t.a * x + t.b) - t.b * (t.c * x + t.d);
      }
    }
    var z := inv.Transform(y);
    assert z * inv.Denominator(y) == inv.a * y + inv.b;
    assert z * t.Determinant() == x * t.Determinant() by {
      calc {
        z * t.Determinant();
        z * (inv.Denominator(y) * den);
        (z * inv.Denominator(y)) * den;
        (inv.a * y + inv.b) * den;
      }
    }
    UniqueQuotient(z, x, t.Determinant());
  }

  /** Projective equality: every coefficient multiple of a transform equals it,
      for any multiplier and any non-negative tolerance. */
  lemma EqualsScaled(t: Lft, k: real, epsilon: real)
    requires epsilon >= 0.0
    ensures Equals(t, ScaledBy(t, k), epsilon)
  {
    var s := ScaledBy(t, k);
    assert CrossSquare(t, s) == 0.0 by {
      ScaledCross(t.a, t.c, s.a, s.c, k);
    }
    assert CrossLinear(t, s) == 0.0 by {
      ScaledCross(t.a, t.d, s.a, s.d, k);
      ScaledCross(t.b, t.c, s.b, s.c, k);
    }
    assert CrossConstant(t, s) == 0.0 by {
      ScaledCross(t.b, t.d, s.b, s.d, k);
    }
  }

  lemma ScaledCross(p: real, q: real, sp: real, sq: real, k: real)
    requires sp == k * p && sq == k * q
    ensures p * sq == sp * q
  {
  }

  lemma EqualsSymmetric(t1: Lft, t2: Lft, epsilon: real)
    ensures Equals(t1, t2, epsilon) == Equals(t2, t1, epsilon)
  {
    assert CrossSquare(t2, t1) == -CrossSquare(t1, t2);
    assert CrossLinear(t2, t1) == -CrossLinear(t1, t2);
    assert CrossConstant(t2, t1) == -CrossConstant(t1, t2);
  }

  /** With zero tolerance, `Equals` implies that the two transforms agree at every
      point where both are defined. */
  lemma EqualsExactAgree(t1: Lft, t2: Lft, x: real)
    requires Equals(t1, t2, 0.0)
    requires t1.Denominator(x) != 0.0 && t2.Denominator(x) != 0.0
    ensures t1.Transform(x) == t2.Transform(x)
  {
    ExactCrossTerms(t1, t2);
    AgreeFromCrossTerms(t1, t2, x);
  }

  lemma ExactCrossTerms(t1: Lft, t2: Lft)
    requires Equals(t1, t2, 0.0)
    ensures t1.a * t2.c == t2.a * t1.c
    ensures t1.a * t2.d + t1.b * t2.c == t2.a * t1.d + t2.b * t1.c
    ensures t1.b * t2.d == t2.b * t1.d
  {
    assert CrossSquare(t1, t2) == 0.0 && CrossLinear(t1, t2) == 0.0 && CrossConstant(t1, t2) == 0.0;
  }

  lemma AgreeFromCrossTerms(t1: Lft, t2: Lft, x: real)
    requires t1.a * t2.c == t2.a * t1.c
    requires t1.a * t2.d + t1.b * t2.c == t2.a * t1.d + t2.b * t1.c
    requires t1.b * t2.d == t2.b * t1.d
    requires t1.Denominator(x) != 0.0 && t2.Denominator(x) != 0.0
    ensures t1.Transform(x) == t2.Transform(x)
  {
    CrossAgree(t1.a, t1.b, t1.c, t1.d, t2.a, t2.b, t2.c, t2.d, x);
  }

  /** Equal cross-multiplied coefficients make the two quotients equal. */
  lemma CrossAgree(a1: real, b1: real, c1: real, d1: real, a2: real, b2: real, c2: real, d2: real, x: real)
    requires a1 * c2 == a2 * c1
    requires a1 * d2 + b1 * c2 == a2 * d1 + b2 * c1
    requires b1 * d2 == b2 * d1
    requires c1 * x + d1 != 0.0 && c2 * x + d2 != 0.0
    ensures (a1 * x + b1) / (c1 * x + d1) == (a2 * x + b2) / (c2 * x + d2)
  {
    assert (a1 * x + b1) * (c2 * x + d2) == (a2 * x + b2) * (c1 * x + d1) by {
      ProductExpand(a1, b1, c2, d2, x);
      ProductExpand(a2, b2, c1, d1, x);
    }
    CrossQuotient(a1 * x + b1, c1 * x + d1, a2 * x + b2, c2 * x + d2);
  }

  /** `!=` is exactly the negation of `==`, and `==` identifies a transform with
      itself and with each of its coefficient multiples. */
  lemma EqualityOperators(t1: Lft, t2: Lft, k: real)
    ensures Neq(t1, t2) == !Eq(t1, t2)
    ensures Eq(t1, t1)
    ensures Eq(t1, ScaledBy(t1, k))
    ensures Equals(t1, t2, DoubleEpsilon) ==> Eq(t1, t2)
  {
    EqualsScaled(t1, k, DoubleEpsilon);
  }
}
