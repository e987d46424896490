/**
 * Quantities (absolute values) and differences in a unit, and their
 * arithmetic. Units are compared by reference. When the operands' units
 * differ, the left operand's value is brought over into the right operand's
 * unit and the result carries the right operand's unit.
 *
 * As written, that bringing-over applies the conversion into the base unit
 * twice (`b.ToBase(a.ToBase(a))`); the operators below model that. The
 * `Converted` operators take the route the rest of the library takes in
 * `ConvertTo` (`b.FromBase(a.ToBase(a))`) for a quantity, and convert a
 * difference by that route less the converted origin, so that an offset such
 * as Celsius's 273.15 does not enter a difference. They are what the
 * properties about mixed units are proved for.
 */
module Quantities {
  import opened PhysicalUnits

  datatype PhysicalQuantity = PhysicalQuantity(value: real, unit: PhysicalUnit)

  datatype PhysicalDifference = PhysicalDifference(value: real, unit: PhysicalUnit)

  /** `PhysicalQuantity.Create`: stores the value and unit, computing nothing. */
  function Create(value: real, unit: PhysicalUnit): (r: PhysicalQuantity)
    ensures r.value == value && r.unit == unit
  {
    PhysicalQuantity(value, unit)
  }

  /** `PhysicalQuantity.ConvertTo`: through the base unit into `newUnit`. */
  function ConvertTo(q: PhysicalQuantity, newUnit: PhysicalUnit): (r: PhysicalQuantity)
    ensures r.unit == newUnit
    ensures Inverses(newUnit) ==> newUnit.toBase(r.value) == q.unit.toBase(q.value)
  {
    Create(newUnit.fromBase(q.unit.toBase(q.value)), newUnit)
  }

  // ----- Bringing the left operand into the right operand's unit -----

  /** The left operand's value as the operators compute it: unchanged when the
      units are the same object, else converted into the base unit twice. */
  function WrittenOperand(value: real, from: PhysicalUnit, to: PhysicalUnit): (r: real)
    ensures from == to ==> r == value
    ensures from != to ==> r == to.toBase(from.toBase(value))
  {
    if from == to then value else to.toBase(from.toBase(value))
  }

  /** The left operand's value expressed in the right operand's unit. */
  function ConvertedOperand(value: real, from: PhysicalUnit, to: PhysicalUnit): (r: real)
    ensures from == to ==> r == value
    ensures from != to ==> r == ConvertTo(PhysicalQuantity(value, from), to).value
  {
    if from == to then value else to.fromBase(from.toBase(value))
  }

  // ----- Operators as written -----

  /** `PhysicalQuantity - PhysicalQuantity`, giving a difference. */
  function Sub(a: PhysicalQuantity, b: PhysicalQuantity): (r: PhysicalDifference)
    ensures r.unit == b.unit
    ensures a.unit == b.unit ==> r.value == a.value - b.value
    ensures a.unit != b.unit ==> r.value == b.unit.toBase(a.unit.toBase(a.value)) - b.value
  {
    PhysicalDifference(WrittenOperand(a.value, a.unit, b.unit) - b.value, b.unit)
  }

  /** `PhysicalDifference - PhysicalDifference`. */
  function SubDiffs(a: PhysicalDifference, b: PhysicalDifference): (r: PhysicalDifference)
    ensures r.unit == b.unit
    ensures a.unit == b.unit ==> r.value == a.value - b.value
    ensures a.unit != b.unit ==> r.value == b.unit.toBase(a.unit.toBase(a.value)) - b.value
  {
    PhysicalDifference(WrittenOperand(a.value, a.unit, b.unit) - b.value, b.unit)
  }

  /** `PhysicalDifference + PhysicalDifference`. */
  function AddDiffs(a: PhysicalDifference, b: PhysicalDifference): (r: PhysicalDifference)
    ensures r.unit == b.unit
    ensures a.unit == b.unit ==> r.value == a.value + b.value
    ensures a.unit != b.unit ==> r.value == b.unit.toBase(a.unit.toBase(a.value)) + b.value
  {
    PhysicalDifference(WrittenOperand(a.value, a.unit, b.unit) + b.value, b.unit)
  }

  /** `PhysicalQuantity + PhysicalDifference`, giving a quantity. */
  function AddQuantityDiff(a: PhysicalQuantity, b: PhysicalDifference): (r: PhysicalQuantity)
    ensures r.unit == b.unit
    ensures a.unit == b.unit ==> r.value == a.value + b.value
    ensures a.unit != b.unit ==> r.value == b.unit.toBase(a.unit.toBase(a.value)) + b.value
  {
    PhysicalQuantity(WrittenOperand(a.value, a.unit, b.unit) + b.value, b.unit)
  }

  /** `PhysicalDifference + PhysicalQuantity`, giving a quantity. */
  function AddDiffQuantity(a: PhysicalDifference, b: PhysicalQuantity): (r: PhysicalQuantity)
    ensures r.unit == b.unit
    ensures a.unit == b.unit ==> r.value == a.value + b.value
    ensures a.unit != b.unit ==> r.value == b.unit.toBase(a.unit.toBase(a.value)) + b.value
  {
    PhysicalQuantity(WrittenOperand(a.value, a.unit, b.unit) + b.value, b.unit)
  }

  /** A difference's value in the right operand's unit: the converted value
      less the converted origin, so that a unit's offset cancels out. */
  function ConvertedDifference(value: real, from: PhysicalUnit, to: PhysicalUnit): (r: real)
    ensures from == to ==> r == value
    ensures from != to ==> r == ConvertTo(PhysicalQuantity(value, from), to).value
                               - ConvertTo(PhysicalQuantity(0.0, from), to).value
  {
    if from == to then value else to.fromBase(from.toBase(value)) - to.fromBase(from.toBase(0.0))
  }

  // ----- Operators with the left operand converted -----

  /** `PhysicalQuantity - PhysicalQuantity` with the left operand converted into
      the right operand's unit: the same-unit difference of `a` in `b`'s unit and `b`. */
  function SubConverted(a: PhysicalQuantity, b: PhysicalQuantity): (r: PhysicalDifference)
    ensures Inverses(b.unit) ==> r == Sub(ConvertTo(a, b.unit), b)
  {
    PhysicalDifference(ConvertedOperand(a.value, a.unit, b.unit) - b.value, b.unit)
  }

  /** `PhysicalDifference - PhysicalDifference` with the left difference
      converted into the right operand's unit. */
  function SubDiffsConverted(a: PhysicalDifference, b: PhysicalDifference): (r: PhysicalDifference)
    ensures r == SubDiffs(PhysicalDifference(ConvertedDifference(a.value, a.unit, b.unit), b.unit), b)
  {
    PhysicalDifference(ConvertedDifference(a.value, a.unit, b.unit) - b.value, b.unit)
  }

  /** `PhysicalDifference + PhysicalDifference` with the left difference
      converted into the right operand's unit. */
  function AddDiffsConverted(a: PhysicalDifference, b: PhysicalDifference): (r: PhysicalDifference)
    ensures r == AddDiffs(PhysicalDifference(ConvertedDifference(a.value, a.unit, b.unit), b.unit), b)
  {
    PhysicalDifference(ConvertedDifference(a.value, a.unit, b.unit) + b.value, b.unit)
  }

  /** `PhysicalQuantity + PhysicalDifference` with the quantity converted into
      the difference's unit. */
  function AddQuantityDiffConverted(a: PhysicalQuantity, b: PhysicalDifference): (r: PhysicalQuantity)
    ensures Inverses(b.unit) ==> r == AddQuantityDiff(ConvertTo(a, b.unit), b)
  {
    PhysicalQuantity(ConvertedOperand(a.value, a.unit, b.unit) + b.value, b.unit)
  }

  /** `PhysicalDifference + PhysicalQuantity` with the difference converted into
      the quantity's unit. */
  function AddDiffQuantityConverted(a: PhysicalDifference, b: PhysicalQuantity): (r: PhysicalQuantity)
    ensures r == AddDiffQuantity(PhysicalDifference(ConvertedDifference(a.value, a.unit, b.unit), b.unit), b)
  {
    PhysicalQuantity(ConvertedDifference(a.value, a.unit, b.unit) + b.value, b.unit)
  }

  // ----- Properties -----

  /** Converting into another unit and back restores the quantity when both
      units' conversions undo each other. */
  lemma ConvertRoundTrip(q: PhysicalQuantity, u: PhysicalUnit)
    requires Inverses(q.unit) && Inverses(u)
    ensures ConvertTo(ConvertTo(q, u), q.unit) == q
    ensures ConvertTo(q, q.unit) == q
  {
    var base := q.unit.toBase(q.value);
    assert u.toBase(u.fromBase(base)) == base;
    assert q.unit.fromBase(base) == q.value;
  }

  /** Same-unit arithmetic: addition of differences commutes, subtraction undoes
      it, and a quantity moved by `a - b` from `b` lands back on `a`. */
  lemma SameUnitArithmetic(p: PhysicalQuantity, q: PhysicalQuantity, a: PhysicalDifference, b: PhysicalDifference)
    requires p.unit == q.unit && a.unit == b.unit && a.unit == p.unit
    ensures AddDiffs(a, b).value == AddDiffs(b, a).value
    ensures SubDiffs(AddDiffs(a, b), b) == a
    ensures AddDiffQuantity(Sub(p, q), q) == p
    ensures AddQuantityDiff(q, Sub(p, q)) == p
  {
  }

  /** For operands in different units, the value as written and the converted
      value agree exactly when the right unit's two conversions agree on the left
      operand's base value, which for a non-trivial unit is the exception. */
  lemma WrittenAgreesWithConverted(value: real, from: PhysicalUnit, to: PhysicalUnit)
    requires from != to
    ensures WrittenOperand(value, from, to) == ConvertedOperand(value, from, to)
      <==> to.toBase(from.toBase(value)) == to.fromBase(from.toBase(value))
  {
  }

  /** Between linear units, a value converted through the base unit. */
  lemma ConvertedLinear(from: PhysicalUnit, to: PhysicalUnit, s1: real, o1: real, s2: real, o2: real, z: real)
    requires s2 != 0.0
    requires forall z :: from.toBase(z) == LinearToBase(s1, o1, z)
    requires forall z :: to.fromBase(z) == LinearFromBase(s2, o2, z)
    ensures to.fromBase(from.toBase(z)) == (z * s1 + (o1 - o2)) / s2
  {
    assert from.toBase(z) == z * s1 + o1;
  }

  /** The offsets cancel in the difference of two converted values. */
  lemma QuotientDifference(x: real, y: real, s1: real, c: real, s2: real)
    requires s2 != 0.0
    ensures (x * s1 + c) / s2 - (y * s1 + c) / s2 == (x - y) * s1 / s2
  {
    assert (x * s1 + c) / s2 - (y * s1 + c) / s2 == ((x * s1 + c) - (y * s1 + c)) / s2;
  }

  /** Between linear units, a converted difference is the difference scaled by
      the ratio of the scales, whatever the offsets: it is additive, and the
      difference of two converted points is the converted difference. */
  lemma LinearDifference(from: PhysicalUnit, to: PhysicalUnit, s1: real, o1: real, s2: real, o2: real, x: real, y: real)
    requires from != to && s2 != 0.0
    requires forall z :: from.toBase(z) == LinearToBase(s1, o1, z)
    requires forall z :: to.fromBase(z) == LinearFromBase(s2, o2, z)
    ensures ConvertedDifference(x, from, to) == x * s1 / s2
    ensures ConvertedDifference(x + y, from, to) == ConvertedDifference(x, from, to) + ConvertedDifference(y, from, to)
    ensures ConvertTo(PhysicalQuantity(x, from), to).value - ConvertTo(PhysicalQuantity(y, from), to).value
         == ConvertedDifference(x - y, from, to)
  {
    forall z | z in {x, y, x + y, x - y}
      ensures ConvertedDifference(z, from, to) == z * s1 / s2
    {
      ConvertedLinear(from, to, s1, o1, s2, o2, z);
      ConvertedLinear(from, to, s1, o1, s2, o2, 0.0);
      QuotientDifference(z, 0.0, s1, o1 - o2, s2);
    }
    assert (x + y) * s1 / s2 == x * s1 / s2 + y * s1 / s2;
    ConvertedLinear(from, to, s1, o1, s2, o2, x);
    ConvertedLinear(from, to, s1, o1, s2, o2, y);
    QuotientDifference(x, y, s1, o1 - o2, s2);
  }

  /** As written, 300 K minus 0 °C is 573.15, where the difference of the two
      temperatures in degrees Celsius is 26.85; and a difference of 10 K plus one
      of 5 °C is 288.15, where the two differences add up to 15 °C. */
  lemma KelvinMinusCelsius(kelvin: PhysicalUnit, celsius: PhysicalUnit)
    requires kelvin != celsius
    requires forall x :: kelvin.toBase(x) == x
    requires forall x :: celsius.toBase(x) == LinearToBase(1.0, 273.15, x)
    requires forall x :: celsius.fromBase(x) == LinearFromBase(1.0, 273.15, x)
    ensures Sub(PhysicalQuantity(300.0, kelvin), PhysicalQuantity(0.0, celsius)).value == 573.15
    ensures SubConverted(PhysicalQuantity(300.0, kelvin), PhysicalQuantity(0.0, celsius)).value == 26.85
    ensures AddDiffs(PhysicalDifference(10.0, kelvin), PhysicalDifference(5.0, celsius)).value == 288.15
    ensures AddDiffsConverted(PhysicalDifference(10.0, kelvin), PhysicalDifference(5.0, celsius)).value == 15.0
  {
    assert kelvin.toBase(300.0) == 300.0;
    assert celsius.toBase(300.0) == 573.15;
    assert celsius.fromBase(300.0) == 26.85;
    assert kelvin.toBase(10.0) == 10.0 && kelvin.toBase(0.0) == 0.0;
    assert celsius.toBase(10.0) == 283.15;
    assert celsius.fromBase(10.0) == -263.15 && celsius.fromBase(0.0) == -273.15;
  }
}
