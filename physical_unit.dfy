/**
 * A unit given by a pair of conversions into and out of its measure's base
 * unit, with a name and a list of symbols. Units are compared by reference, so
 * a unit is a class whose fields never change.
 */
module PhysicalUnits {

  class PhysicalUnit {
    const name: string
    const symbols: seq<string>
    /** `ConvertToBase`: a value in this unit, expressed in the base unit. */
    const toBase: real -> real
    /** `ConvertFromBase`: a value in the base unit, expressed in this unit. */
    const fromBase: real -> real

    constructor (name: string, toBase: real -> real, fromBase: real -> real, symbols: seq<string>)
      ensures this.name == name && this.symbols == symbols
      ensures this.toBase == toBase && this.fromBase == fromBase
    {
      this.name := name;
      this.symbols := symbols;
      this.toBase := toBase;
      this.fromBase := fromBase;
    }
  }

  /** The unit's two conversions undo each other, in both orders. */
  ghost predicate Inverses(u: PhysicalUnit)
  {
    forall x :: u.fromBase(u.toBase(x)) == x && u.toBase(u.fromBase(x)) == x
  }

  // ----- The conversions the factories build -----

  function ScaledToBase(scale: real, x: real): real
  {
    x * scale
  }

  function ScaledFromBase(scale: real, x: real): real
    requires scale != 0.0
  {
    x / scale
  }

  function LinearToBase(scale: real, offset: real, x: real): real
  {
    x * scale + offset
  }

  function LinearFromBase(scale: real, offset: real, x: real): real
    requires scale != 0.0
  {
    (x - offset) / scale
  }

  /** A linear unit's conversions are mutual inverses when the scale is nonzero. */
  lemma LinearRoundTrip(scale: real, offset: real, x: real)
    requires scale != 0.0
    ensures LinearFromBase(scale, offset, LinearToBase(scale, offset, x)) == x
    ensures LinearToBase(scale, offset, LinearFromBase(scale, offset, x)) == x
  {
    assert (x * scale + offset - offset) / scale == x * scale / scale;
    assert (x - offset) / scale * scale == x - offset;
  }

  /** A scaled unit is the linear unit with offset zero, and scale one gives the
      identity of a base unit. */
  lemma ScaledIsLinear(scale: real, x: real)
    requires scale != 0.0
    ensures ScaledToBase(scale, x) == LinearToBase(scale, 0.0, x)
    ensures ScaledFromBase(scale, x) == LinearFromBase(scale, 0.0, x)
    ensures ScaledToBase(1.0, x) == x && ScaledFromBase(1.0, x) == x
  {
  }

  // ----- Factories -----

  /** `PhysicalUnit.BaseUnit`: both conversions are the identity. */
  method BaseUnit(name: string, symbols: seq<string>) returns (u: PhysicalUnit)
    ensures fresh(u) && u.name == name && u.symbols == symbols
    ensures forall x :: u.toBase(x) == x && u.fromBase(x) == x
    ensures Inverses(u)
  {
    u := new PhysicalUnit(name, x => x, x => x, symbols);
  }

  /** `PhysicalUnit.ScaledUnit`: multiply by the scale into the base, divide out of it.
      A zero scale would make `ConvertFromBase` non-finite and is excluded. */
  method ScaledUnit(name: string, scale: real, symbols: seq<string>) returns (u: PhysicalUnit)
    requires scale != 0.0
    ensures fresh(u) && u.name == name && u.symbols == symbols
    ensures forall x :: u.toBase(x) == ScaledToBase(scale, x) && u.fromBase(x) == ScaledFromBase(scale, x)
    ensures Inverses(u)
  {
    u := new PhysicalUnit(name, x => ScaledToBase(scale, x), x => ScaledFromBase(scale, x), symbols);
    forall x
      ensures u.fromBase(u.toBase(x)) == x && u.toBase(u.fromBase(x)) == x
    {
      var y, z := ScaledToBase(scale, x), ScaledFromBase(scale, x);
      assert u.toBase(x) == y && u.fromBase(x) == z;
      assert u.fromBase(y) == ScaledFromBase(scale, y);
      assert u.toBase(z) == ScaledToBase(scale, z);
      ScaledIsLinear(scale, x);
      ScaledIsLinear(scale, y);
      ScaledIsLinear(scale, z);
      LinearRoundTrip(scale, 0.0, x);
    }
  }

  /** `PhysicalUnit.LinearUnit`: scale then shift into the base, and back. */
  method LinearUnit(name: string, scale: real, offset: real, symbols: seq<string>) returns (u: PhysicalUnit)
    requires scale != 0.0
    ensures fresh(u) && u.name == name && u.symbols == symbols
    ensures forall x :: u.toBase(x) == LinearToBase(scale, offset, x) && u.fromBase(x) == LinearFromBase(scale, offset, x)
    ensures Inverses(u)
  {
    u := new PhysicalUnit(name, x => LinearToBase(scale, offset, x), x => LinearFromBase(scale, offset, x), symbols);
    forall x
      ensures u.fromBase(u.toBase(x)) == x && u.toBase(u.fromBase(x)) == x
    {
      var y, z := LinearToBase(scale, offset, x), LinearFromBase(scale, offset, x);
      assert u.toBase(x) == y && u.fromBase(x) == z;
      assert u.fromBase(y) == LinearFromBase(scale, offset, y);
      assert u.toBase(z) == LinearToBase(scale, offset, z);
      LinearRoundTrip(scale, offset, x);
    }
  }
}
