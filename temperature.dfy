/**
 * The temperature measure: Kelvin as base unit, Millikelvin and Rankin as
 * scaled units, Celsius and Fahrenheit as linear units. Each unit is built by
 * a factory and none is registered in the measure's unit list.
 */
module Temperatures {
  import opened PhysicalUnits
  import opened Quantities
  import opened Measures

  datatype TemperatureUnit = Kelvin | Millikelvin | Rankin | Celsius | Fahrenheit

  /** The scale each unit is declared with (a base unit has scale one). */
  function DeclaredScale(u: TemperatureUnit): (r: real)
    ensures r > 0.0
  {
    match u
    case Kelvin => 1.0
    case Millikelvin => 1000.0
    case Rankin => 1.8
    case Celsius => 1.0
    case Fahrenheit => 1.8
  }

  /** The offset each unit is declared with (zero for base and scaled units). */
  function DeclaredOffset(u: TemperatureUnit): real
  {
    match u
    case Celsius => 273.15
    case Fahrenheit => 459.67
    case _ => 0.0
  }

  /** The scale that takes a reading in the unit to kelvins. */
  function IntendedScale(u: TemperatureUnit): (r: real)
    ensures r > 0.0
  {
    match u
    case Kelvin => 1.0
    case Millikelvin => 0.001
    case Rankin => 1.0 / 1.8
    case Celsius => 1.0
    case Fahrenheit => 1.0 / 1.8
  }

  function IntendedOffset(u: TemperatureUnit): real
  {
    match u
    case Celsius => 273.15
    case Fahrenheit => 459.67 / 1.8
    case _ => 0.0
  }

  class Temperature {
    const kelvin: PhysicalUnit
    const millikelvin: PhysicalUnit
    const rankin: PhysicalUnit
    const celsius: PhysicalUnit
    const fahrenheit: PhysicalUnit
    /** The shared instance of the measure, with `BaseUnit` Kelvin. */
    const measure: Measure

    function UnitOf(u: TemperatureUnit): PhysicalUnit
    {
      match u
      case Kelvin => kelvin
      case Millikelvin => millikelvin
      case Rankin => rankin
      case Celsius => celsius
      case Fahrenheit => fahrenheit
    }

    /** The five units are distinct objects converting with their declared scale and offset. */
    ghost predicate Valid()
    {
      && kelvin != millikelvin && kelvin != rankin && kelvin != celsius && kelvin != fahrenheit
      && millikelvin != rankin && millikelvin != celsius && millikelvin != fahrenheit
      && rankin != celsius && rankin != fahrenheit && celsius != fahrenheit
      && ConvertsAs(kelvin, Kelvin) && ConvertsAs(millikelvin, Millikelvin) && ConvertsAs(rankin, Rankin)
      && ConvertsAs(celsius, Celsius) && ConvertsAs(fahrenheit, Fahrenheit)
      && measure.baseUnit == kelvin
    }

    /** The static initialisers: each unit from its factory; the unit list stays empty. */
    constructor ()
      ensures Valid()
      ensures fresh(measure) && measure.units == []
      ensures forall u :: UnitOf(u).name == Name(u) && UnitOf(u).symbols == [Symbol(u)]
    {
      var k := Declare(Kelvin);
      var mk := Declare(Millikelvin);
      var r := Declare(Rankin);
      var c := Declare(Celsius);
      var f := Declare(Fahrenheit);
      kelvin, millikelvin, rankin, celsius, fahrenheit := k, mk, r, c, f;
      measure := new Measure(k);
    }

    /** `BaseUnit`. */
    function BaseUnit(): (r: PhysicalUnit)
      requires Valid()
      ensures r == measure.baseUnit
    {
      kelvin
    }
  }

  function Name(u: TemperatureUnit): string
  {
    match u
    case Kelvin => "Kelvin"
    case Millikelvin => "Millikelvin"
    case Rankin => "Rankin"
    case Celsius => "Celsius"
    case Fahrenheit => "Fahrenheit"
  }

  function Symbol(u: TemperatureUnit): string
  {
    match u
    case Kelvin => "K"
    case Millikelvin => "mK"
    case Rankin => "R"
    case Celsius => "°C"
    case Fahrenheit => "°F"
  }

  /** The initialiser of one unit field: the factory call it makes. */
  method Declare(u: TemperatureUnit) returns (unit: PhysicalUnit)
    ensures fresh(unit) && unit.name == Name(u) && unit.symbols == [Symbol(u)]
    ensures ConvertsAs(unit, u)
  {
    match u
    case Kelvin =>
      unit := RegisterBase("Kelvin", ["K"]);
      BaseIsLinear(unit);
    case Millikelvin =>
      unit := RegisterScaled("Millikelvin", 1000.0, ["mK"]);
      ScaledIsLinearUnit(unit, 1000.0);
    case Rankin =>
      unit := RegisterScaled("Rankin", 1.8, ["R"]);
      ScaledIsLinearUnit(unit, 1.8);
    case Celsius =>
      unit := RegisterLinear("Celsius", 1.0, 273.15, ["°C"]);
    case Fahrenheit =>
      unit := RegisterLinear("Fahrenheit", 1.8, 459.67, ["°F"]);
  }

  /** The unit converts with the scale and offset `u` is declared with. */
  ghost predicate ConvertsAs(unit: PhysicalUnit, u: TemperatureUnit)
  {
    forall x :: unit.toBase(x) == LinearToBase(DeclaredScale(u), DeclaredOffset(u), x)
      && unit.fromBase(x) == LinearFromBase(DeclaredScale(u), DeclaredOffset(u), x)
  }

  /** A base unit converts as the linear unit with scale one and offset zero. */
  lemma BaseIsLinear(u: PhysicalUnit)
    requires forall x :: u.toBase(x) == x && u.fromBase(x) == x
    ensures forall x :: u.toBase(x) == LinearToBase(1.0, 0.0, x) && u.fromBase(x) == LinearFromBase(1.0, 0.0, x)
  {
  }

  /** A scaled unit converts as the linear unit with that scale and offset zero. */
  lemma ScaledIsLinearUnit(u: PhysicalUnit, scale: real)
    requires scale != 0.0
    requires forall x :: u.toBase(x) == ScaledToBase(scale, x) && u.fromBase(x) == ScaledFromBase(scale, x)
    ensures forall x :: u.toBase(x) == LinearToBase(scale, 0.0, x) && u.fromBase(x) == LinearFromBase(scale, 0.0, x)
  {
    forall x
      ensures u.toBase(x) == LinearToBase(scale, 0.0, x) && u.fromBase(x) == LinearFromBase(scale, 0.0, x)
    {
      ScaledIsLinear(scale, x);
    }
  }

  // ----- Properties -----

  /** Every temperature unit's conversions undo each other. */
  lemma UnitsInvertible(t: Temperature, u: TemperatureUnit)
    requires t.Valid()
    ensures Inverses(t.UnitOf(u))
  {
    var unit := t.UnitOf(u);
    assert ConvertsAs(unit, u);
    forall x
      ensures unit.fromBase(unit.toBase(x)) == x && unit.toBase(unit.fromBase(x)) == x
    {
      var y, z := unit.toBase(x), unit.fromBase(x);
      assert y == LinearToBase(DeclaredScale(u), DeclaredOffset(u), x);
      assert z == LinearFromBase(DeclaredScale(u), DeclaredOffset(u), x);
      assert unit.fromBase(y) == LinearFromBase(DeclaredScale(u), DeclaredOffset(u), y);
      assert unit.toBase(z) == LinearToBase(DeclaredScale(u), DeclaredOffset(u), z);
      LinearRoundTrip(DeclaredScale(u), DeclaredOffset(u), x);
    }
  }

  /** Celsius is Kelvin shifted by 273.15, in both directions. */
  lemma CelsiusShift(t: Temperature, x: real)
    requires t.Valid()
    ensures t.celsius.toBase(x) == x + 273.15
    ensures t.celsius.fromBase(x) == x - 273.15
  {
    assert ConvertsAs(t.celsius, Celsius);
  }

  /** As declared, 1000 mK is a million kelvins, 491.67 °R is 885.006 K and
      32 °F is 517.27 K, where 0 °C is 273.15 K. */
  lemma DeclaredReadings()
    ensures LinearToBase(DeclaredScale(Millikelvin), DeclaredOffset(Millikelvin), 1000.0) == 1000000.0
    ensures LinearToBase(DeclaredScale(Rankin), DeclaredOffset(Rankin), 491.67) == 885.006
    ensures LinearToBase(DeclaredScale(Fahrenheit), DeclaredOffset(Fahrenheit), 32.0) == 517.27
    ensures LinearToBase(DeclaredScale(Celsius), DeclaredOffset(Celsius), 0.0) == 273.15
  {
  }

  /** With the scales and offsets that take readings to kelvins, 1000 mK is 1 K,
      and Fahrenheit, Rankin and Celsius readings of the same temperature meet:
      F = 32 + 1.8 C and R = F + 459.67. */
  lemma IntendedReadings(x: real)
    ensures LinearToBase(IntendedScale(Millikelvin), IntendedOffset(Millikelvin), 1000.0) == 1.0
    ensures LinearToBase(IntendedScale(Fahrenheit), IntendedOffset(Fahrenheit), 32.0 + 1.8 * x)
         == LinearToBase(IntendedScale(Celsius), IntendedOffset(Celsius), x)
    ensures LinearToBase(IntendedScale(Rankin), IntendedOffset(Rankin), x + 459.67)
         == LinearToBase(IntendedScale(Fahrenheit), IntendedOffset(Fahrenheit), x)
  {
  }

  /** The base unit is Kelvin, whose conversions are the identity, and `Zero`
      is 0 K. */
  lemma KelvinIsBase(t: Temperature, x: real)
    requires t.Valid()
    ensures t.BaseUnit() == t.kelvin
    ensures t.kelvin.toBase(x) == x && t.kelvin.fromBase(x) == x
    ensures Zero(t.measure) == PhysicalQuantity(0.0, t.kelvin)
  {
    assert ConvertsAs(t.kelvin, Kelvin);
  }
}
