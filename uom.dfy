/**
 * The unit-of-measure catalog: the Length and Time dimensions, and the
 * Position, Time and Velocity measurements with their dimension exponents,
 * base units and units. A unit is a value here; `Instance` allocates a new,
 * field-less object on every access, so no identity is lost.
 *
 * `Identity * k` has no operator in the transform code; it is read as the pure
 * scale with coefficients (k, 0, 0, 1).
 */
module Catalog {
  import opened Wrappers
  import Transforms
  import Dimensions

  // ----- Dimensions -----

  /** `Dimension.Length`: text id and symbol as passed to the constructor. */
  const LengthTextID: string := "Length"
  const LengthSymbol: char := 'L'
  /** `Dimension.Time`. */
  const TimeTextID: string := "Time"
  const TimeSymbol: char := 'T'

  /** Both catalog dimensions pass the constructor's checks and keep their
      symbols, which are already upper case. */
  lemma CatalogDimensionsValid()
    ensures Dimensions.Check(Some(LengthTextID), LengthSymbol).None?
    ensures Dimensions.Check(Some(TimeTextID), TimeSymbol).None?
    ensures Dimensions.ToUpper(LengthSymbol) == LengthSymbol
    ensures Dimensions.ToUpper(TimeSymbol) == TimeSymbol
    ensures Dimensions.FoldCase(LengthTextID) != Dimensions.FoldCase(TimeTextID)
  {
    assert Dimensions.FoldCase(LengthTextID)[0] == 'L';
    assert Dimensions.FoldCase(TimeTextID)[0] == 'T';
  }

  // ----- Measurements and units -----

  datatype Measurement = Position | Time | Velocity

  datatype Unit = Meters | Inches | Feet | Seconds | Minutes | MetersPerSecond | MilesPerHour

  /** The `Name` of each measurement. */
  function MeasurementName(m: Measurement): string
  {
    match m
    case Position => "Position"
    case Time => "Time"
    case Velocity => "Velocity"
  }

  /** `Dimensions`: the exponent of each dimension symbol. */
  function Exponents(m: Measurement): (r: map<char, int>)
    ensures TimeSymbol in r <==> m != Position
    ensures LengthSymbol in r <==> m != Time
  {
    match m
    case Position => map[LengthSymbol := 1]
    case Time => map[TimeSymbol := 1]
    case Velocity => map[LengthSymbol := 1, TimeSymbol := -1]
  }

  /** The measurement a unit class is nested in. */
  function MeasurementOf(u: Unit): Measurement
  {
    match u
    case Meters | Inches | Feet => Position
    case Seconds | Minutes => Time
    case MetersPerSecond | MilesPerHour => Velocity
  }

  /** `BaseUnit`. */
  function BaseUnit(m: Measurement): (r: Unit)
    ensures MeasurementOf(r) == m
    ensures ToBase(r) == Transforms.Identity()
  {
    match m
    case Position => Meters
    case Time => Seconds
    case Velocity => MetersPerSecond
  }

  function Name(u: Unit): string
  {
    match u
    case Meters => "Meter"
    case Inches => "Inch"
    case Feet => "Foot"
    case Seconds => "Second"
    case Minutes => "Minute"
    case MetersPerSecond => "MeterPerSecond"
    case MilesPerHour => "MilePerHour"
  }

  function Plural(u: Unit): string
  {
    match u
    case Meters => "Meters"
    case Inches => "Inches"
    case Feet => "Feet"
    case Seconds => "Seconds"
    case Minutes => "Minutes"
    case MetersPerSecond => "MetersPerSecond"
    case MilesPerHour => "MilesPerHour"
  }

  /** The scale factor of each unit into its base unit. */
  function ScaleToBase(u: Unit): (r: real)
    ensures r > 0.0
  {
    match u
    case Meters => 1.0
    case Inches => 0.025399999999999999
    case Feet => 0.30480000000000002
    case Seconds => 1.0
    case Minutes => 60.0
    case MetersPerSecond => 1.0
    case MilesPerHour => 0.44703999999999999
  }

  /** `ToBase`: `Identity` for a base unit, `Identity * k` otherwise. */
  function ToBase(u: Unit): (r: Transforms.Lft)
    ensures forall x :: r.Denominator(x) == 1.0 && r.Transform(x) == ScaleToBase(u) * x
    ensures r.Determinant() > 0.0
  {
    if ScaleToBase(u) == 1.0 then Transforms.Identity() else Transforms.Scale(ScaleToBase(u))
  }

  // ----- Properties -----

  /** The exponent maps are exactly {L: 1}, {T: 1} and {L: 1, T: -1}, and every
      key is the symbol of a catalog dimension. */
  lemma ExponentsExact(m: Measurement)
    ensures Exponents(m).Keys <= {LengthSymbol, TimeSymbol}
    ensures m == Position ==> Exponents(m)[LengthSymbol] == 1 && |Exponents(m)| == 1
    ensures m == Time ==> Exponents(m)[TimeSymbol] == 1 && |Exponents(m)| == 1
    ensures m == Velocity ==> Exponents(m)[LengthSymbol] == 1 && Exponents(m)[TimeSymbol] == -1
    ensures m == Velocity ==> |Exponents(m)| == 2
  {
  }

  /** Within a measurement, distinct units have distinct names and plurals. */
  lemma NamesDistinct(u: Unit, v: Unit)
    requires MeasurementOf(u) == MeasurementOf(v) && u != v
    ensures Name(u) != Name(v)
    ensures Plural(u) != Plural(v)
  {
    match u
    case Meters => assert Name(u)[0] != Name(v)[0];
    case Inches => assert Name(u)[0] != Name(v)[0];
    case Feet => assert Name(u)[0] != Name(v)[0];
    case Seconds => assert Name(u)[0] != Name(v)[0];
    case Minutes => assert Name(u)[0] != Name(v)[0];
    case MetersPerSecond => assert Name(u)[1] != Name(v)[1];
    case MilesPerHour => assert Name(u)[1] != Name(v)[1];
  }

  /** Every unit's `ToBase` is invertible, and its inverse takes a base value back:
      a value converted to the base and back is unchanged. */
  lemma ToBaseInvertible(u: Unit, x: real)
    ensures ToBase(u).Inverse().Denominator(ToBase(u).Transform(x)) != 0.0
    ensures ToBase(u).Inverse().Transform(ToBase(u).Transform(x)) == x
  {
    Transforms.InverseTransform(ToBase(u), x);
  }
}
