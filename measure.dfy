/**
 * A measure (temperature, pressure, ...): a base unit and a list of
 * registered units. In C# each measure type has one shared instance whose list
 * `Register` appends to; here that instance is the `Measure` object passed in.
 */
module Measures {
  import opened PhysicalUnits
  import opened Quantities

  class Measure {
    /** `_units`, the list `Units` enumerates in registration order. */
    var units: seq<PhysicalUnit>
    /** The measure's `BaseUnit`. */
    const baseUnit: PhysicalUnit

    /** A new measure has an empty unit list. */
    constructor (baseUnit: PhysicalUnit)
      ensures this.baseUnit == baseUnit && units == []
    {
      this.baseUnit := baseUnit;
      units := [];
    }

    /** `Origin`: zero in the base unit. */
    function Origin(): (r: PhysicalQuantity)
      ensures r.value == 0.0 && r.unit == baseUnit
    {
      Create(0.0, baseUnit)
    }

    /** `Register`: appends the unit to the list and hands it back. */
    method Register(unit: PhysicalUnit) returns (r: PhysicalUnit)
      modifies this
      ensures units == old(units) + [unit] && r == unit
      ensures |units| == |old(units)| + 1 && units[|units| - 1] == unit
    {
      units := units + [unit];
      r := unit;
    }
  }

  /** `Zero`: the origin of the shared instance. */
  function Zero(instance: Measure): (r: PhysicalQuantity)
    ensures r == instance.Origin()
    ensures r.value == 0.0 && r.unit == instance.baseUnit
  {
    instance.Origin()
  }

  /** `RegisterBase`: builds a base unit; no list is touched. */
  method RegisterBase(name: string, symbols: seq<string>) returns (u: PhysicalUnit)
    ensures fresh(u) && u.name == name && u.symbols == symbols
    ensures forall x :: u.toBase(x) == x && u.fromBase(x) == x
    ensures Inverses(u)
  {
    u := BaseUnit(name, symbols);
  }

  /** `RegisterScaled`: builds a scaled unit; no list is touched. */
  method RegisterScaled(name: string, scale: real, symbols: seq<string>) returns (u: PhysicalUnit)
    requires scale != 0.0
    ensures fresh(u) && u.name == name && u.symbols == symbols
    ensures forall x :: u.toBase(x) == ScaledToBase(scale, x) && u.fromBase(x) == ScaledFromBase(scale, x)
    ensures Inverses(u)
  {
    u := ScaledUnit(name, scale, symbols);
  }

  /** `RegisterLinear`: builds a linear unit; no list is touched. */
  method RegisterLinear(name: string, scale: real, offset: real, symbols: seq<string>) returns (u: PhysicalUnit)
    requires scale != 0.0
    ensures fresh(u) && u.name == name && u.symbols == symbols
    ensures forall x :: u.toBase(x) == LinearToBase(scale, offset, x) && u.fromBase(x) == LinearFromBase(scale, offset, x)
    ensures Inverses(u)
  {
    u := LinearUnit(name, scale, offset, symbols);
  }
}
