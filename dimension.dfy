/**
 * A physical dimension (length, time, ...) identified by a text id and a
 * one-character symbol. Construction upper-cases the symbol, rejects a symbol
 * that is not a letter or digit and then a blank text id, and registers the new
 * dimension in two lookup tables. The tables are fields of the instance being
 * built, so each dimension's tables hold exactly itself.
 */
module Dimensions {
  import opened Wrappers

  /** The two argument errors the constructor raises, in the order it checks them. */
  datatype DimensionError = SymbolNotLetterOrDigit | TextIDBlank

  /** `char.ToUpper`, on the ASCII range. */
  function ToUpper(c: char): (r: char)
    ensures 'a' <= c <= 'z' ==> 'A' <= r <= 'Z' && r as int == c as int - 32
    ensures !('a' <= c <= 'z') ==> r == c
  {
    if 'a' <= c <= 'z' then (c as int - 32) as char else c
  }

  /** `char.IsLetterOrDigit`, on the ASCII range. */
  predicate IsLetterOrDigit(c: char)
  {
    'A' <= c <= 'Z' || 'a' <= c <= 'z' || '0' <= c <= '9'
  }

  /** `char.IsWhiteSpace`: the Unicode space separators, the line and paragraph
      separators, and the control characters U+0009 to U+000D and U+0085. */
  predicate IsWhiteSpace(c: char)
  {
    ('\U{0009}' <= c <= '\U{000D}') || c == '\U{0020}' || c == '\U{0085}' || c == '\U{00A0}'
    || c == '\U{1680}' || ('\U{2000}' <= c <= '\U{200A}') || c == '\U{2028}' || c == '\U{2029}'
    || c == '\U{202F}' || c == '\U{205F}' || c == '\U{3000}'
  }

  /** `string.IsNullOrWhiteSpace`; `None` stands for a null reference. */
  predicate IsNullOrWhiteSpace(s: Option<string>)
  {
    s.None? || forall i :: 0 <= i < |s.value| ==> IsWhiteSpace(s.value[i])
  }

  /** The case folding of `StringComparer.OrdinalIgnoreCase`: every character upper-cased. */
  function FoldCase(s: string): (r: string)
    ensures |r| == |s|
    ensures forall i :: 0 <= i < |s| ==> r[i] == ToUpper(s[i])
  {
    if s == [] then [] else [ToUpper(s[0])] + FoldCase(s[1..])
  }

  /** The constructor's validation: the error it raises, if any. */
  function Check(textID: Option<string>, symbol: char): (r: Option<DimensionError>)
    ensures r == Some(SymbolNotLetterOrDigit) <==> !IsLetterOrDigit(ToUpper(symbol))
    ensures r == Some(TextIDBlank) <==> IsLetterOrDigit(ToUpper(symbol)) && IsNullOrWhiteSpace(textID)
    ensures r.None? ==> textID.Some? && |textID.value| > 0
  {
    if !IsLetterOrDigit(ToUpper(symbol)) then Some(SymbolNotLetterOrDigit)
    else if IsNullOrWhiteSpace(textID) then Some(TextIDBlank)
    else None
  }

  class Dimension {
    const textID: string
    const symbol: char
    /** `_bySymbol`, an ordinal dictionary. */
    var bySymbol: map<char, Dimension>
    /** `_byTextID`, a case-insensitive dictionary: keys are stored case-folded. */
    var byTextID: map<string, Dimension>

    /** The constructor once its checks have passed: it stores the upper-cased
        symbol and adds this dimension to its own, empty, tables. */
    constructor (textID: string, symbol: char)
      requires Check(Some(textID), symbol).None?
      ensures this.textID == textID && this.symbol == ToUpper(symbol)
      ensures bySymbol == map[ToUpper(symbol) := this]
      ensures byTextID == map[FoldCase(textID) := this]
    {
      this.textID := textID;
      this.symbol := ToUpper(symbol);
      bySymbol := map[];
      byTextID := map[];
      new;
      AddSymbol(this.symbol, this);
      AddTextID(textID, this);
    }

    /** `Dictionary.Add` on the symbol table; a duplicate key would throw. */
    method AddSymbol(key: char, value: Dimension)
      requires key !in bySymbol
      modifies this
      ensures bySymbol == old(bySymbol)[key := value]
      ensures byTextID == old(byTextID)
    {
      bySymbol := bySymbol[key := value];
    }

    /** `Dictionary.Add` on the case-insensitive text-id table. */
    method AddTextID(key: string, value: Dimension)
      requires FoldCase(key) !in byTextID
      modifies this
      ensures byTextID == old(byTextID)[FoldCase(key) := value]
      ensures bySymbol == old(bySymbol)
    {
      byTextID := byTextID[FoldCase(key) := value];
    }

    /** The symbol table's entry for `key`. */
    function LookupSymbol(key: char): (r: Option<Dimension>)
      reads this
      ensures r.Some? <==> key in bySymbol
    {
      if key in bySymbol then Some(bySymbol[key]) else None
    }

    /** The text-id table's entry for `key`, compared ignoring case. */
    function LookupTextID(key: string): (r: Option<Dimension>)
      reads this
      ensures r.Some? <==> FoldCase(key) in byTextID
    {
      if FoldCase(key) in byTextID then Some(byTextID[FoldCase(key)]) else None
    }

    /** `new Dimension(textID, symbol)`: the argument errors as results, and on
        success a fresh dimension registered in its own tables. */
    static method Create(textID: Option<string>, symbol: char) returns (r: Result<Dimension, DimensionError>)
      ensures r.Failure? <==> Check(textID, symbol).Some?
      ensures r.Failure? ==> r.error == Check(textID, symbol).value
      ensures r.Success? ==> (fresh(r.value) && textID.Some?
        && r.value.textID == textID.value && r.value.symbol == ToUpper(symbol)
        && r.value.bySymbol == map[ToUpper(symbol) := r.value]
        && r.value.byTextID == map[FoldCase(textID.value) := r.value])
    {
      var error := Check(textID, symbol);
      if error.Some? {
        return Failure(error.value);
      }
      var d := new Dimension(textID.value, symbol);
      return Success(d);
    }
  }

  // ----- Properties -----

  /** Upper-casing is idempotent, so the stored symbol is already upper case, and
      a symbol and its upper-case form pass or fail the checks alike. */
  lemma SymbolCaseNormalised(textID: Option<string>, symbol: char)
    ensures ToUpper(ToUpper(symbol)) == ToUpper(symbol)
    ensures Check(textID, symbol) == Check(textID, ToUpper(symbol))
  {
  }

  /** Case folding is idempotent, and two keys that differ only in ASCII case
      fold to the same key. */
  lemma {:induction false} FoldCaseIdempotent(s: string)
    ensures FoldCase(FoldCase(s)) == FoldCase(s)
  {
    if s != [] {
      FoldCaseIdempotent(s[1..]);
    }
  }

  /** After construction each table holds exactly the new dimension: looking up
      its symbol, or any text id equal to its own ignoring case, finds it, and
      nothing else is found. */
  lemma RegisteredLookups(d: Dimension, symbol: char, key: string)
    requires d.bySymbol == map[d.symbol := d]
    requires d.byTextID == map[FoldCase(d.textID) := d]
    ensures d.LookupSymbol(symbol) == (if symbol == d.symbol then Some(d) else None)
    ensures d.LookupTextID(key) == (if FoldCase(key) == FoldCase(d.textID) then Some(d) else None)
    ensures d.LookupTextID(FoldCase(d.textID)) == Some(d)
  {
    FoldCaseIdempotent(d.textID);
  }

  /** A blank text id is rejected only once the symbol is acceptable: the symbol
      check runs first. */
  lemma SymbolCheckedFirst(symbol: char)
    requires !IsLetterOrDigit(ToUpper(symbol))
    ensures Check(None, symbol) == Some(SymbolNotLetterOrDigit)
    ensures Check(Some(" "), symbol) == Some(SymbolNotLetterOrDigit)
  {
  }
}

/**
 * The reduced copy of the linear-fractional transform declared beside
 * `Dimension`: coefficients, `Transform`, `Identity`, `Inverse`, the projective
 * `Equals` and the `==`/`!=` operators, with no matrices and no composition.
 */
module DimensionTransforms {
  import Transforms

  datatype Lft = Lft(a: real, b: real, c: real, d: real) {
    function Transform(x: real): (r: real)
      requires c * x + d != 0.0
      ensures r * (c * x + d) == a * x + b
    {
      (a * x + b) / (c * x + d)
    }

    function Inverse(): (r: Lft)
      ensures r.Full() == Full().Inverse()
    {
      Lft(d, -b, -c, a)
    }

    /** The same coefficients as a full transform. */
    function Full(): Transforms.Lft
    {
      Transforms.Lft(a, b, c, d)
    }
  }

  function Identity(): (r: Lft)
    ensures r.Full() == Transforms.Identity()
  {
    Lft(1.0, 0.0, 0.0, 1.0)
  }

  function Abs(x: real): real
  {
    if x < 0.0 then -x else x
  }

  /** The three cross-multiplied expressions `Equals` compares with zero. */
  function CrossSquare(first: Lft, second: Lft): real
  {
    first.a * second.c - second.a * first.c
  }

  function CrossLinear(first: Lft, second: Lft): real
  {
    first.a * second.d + first.b * second.c - second.a * first.d - second.b * first.c
  }

  function CrossConstant(first: Lft, second: Lft): real
  {
    first.b * second.d - second.b * first.d
  }

  predicate Equals(first: Lft, second: Lft, epsilon: real)
  {
    && Abs(CrossSquare(first, second)) <= epsilon
    && Abs(CrossLinear(first, second)) <= epsilon
    && Abs(CrossConstant(first, second)) <= epsilon
  }

  /** `==`: identical coefficients, or `Equals` at the default epsilon. */
  predicate Eq(first: Lft, second: Lft)
  {
    (first.a == second.a && first.b == second.b && first.c == second.c && first.d == second.d)
    || Equals(first, second, Transforms.DoubleEpsilon)
  }

  /** `!=`: some coefficient differs, and `Equals` fails at the default epsilon. */
  predicate Neq(first: Lft, second: Lft)
  {
    (first.a != second.a || first.b != second.b || first.c != second.c || first.d != second.d)
    && !Equals(first, second, Transforms.DoubleEpsilon)
  }

  // ----- Properties -----

  /** The copy computes the same value as the full transform. */
  lemma TransformAgrees(t: Lft, x: real)
    requires t.c * x + t.d != 0.0
    ensures t.Full().Transform(x) == t.Transform(x)
  {
    assert t.Full().Denominator(x) == t.c * x + t.d;
  }

  /** The copy's `Equals` is the full transform's `Equals`. */
  lemma EqualsAgrees(t: Lft, u: Lft, epsilon: real)
    ensures Equals(t, u, epsilon) == Transforms.Equals(t.Full(), u.Full(), epsilon)
  {
    var ft, fu := t.Full(), u.Full();
    assert Abs(CrossSquare(t, u)) == Transforms.Abs(Transforms.CrossSquare(ft, fu));
    assert Abs(CrossLinear(t, u)) == Transforms.Abs(Transforms.CrossLinear(ft, fu));
    assert Abs(CrossConstant(t, u)) == Transforms.Abs(Transforms.CrossConstant(ft, fu));
  }

  /** The copy's `==` and `!=` are the full transform's operators. */
  lemma OperatorsAgree(t: Lft, u: Lft)
    ensures Eq(t, u) == Transforms.Eq(t.Full(), u.Full())
    ensures Neq(t, u) == Transforms.Neq(t.Full(), u.Full())
  {
    EqualsAgrees(t, u, Transforms.DoubleEpsilon);
  }

  /** `Inverse` is an involution and `!=` is the negation of `==`, as in the full transform. */
  lemma InverseAndOperators(t: Lft, u: Lft)
    ensures t.Inverse().Inverse() == t
    ensures Neq(t, u) == !Eq(t, u)
    ensures Eq(t, t)
  {
    OperatorsAgree(t, u);
    OperatorsAgree(t, t);
    Transforms.EqualityOperators(t.Full(), u.Full(), 1.0);
    Transforms.EqualityOperators(t.Full(), t.Full(), 1.0);
  }

  /** Every multiple of a transform, zero included, is projectively equal to it. */
  lemma EqualsScaled(t: Lft, k: real, epsilon: real)
    requires epsilon >= 0.0
    ensures Equals(t, Lft(k * t.a, k * t.b, k * t.c, k * t.d), epsilon)
  {
    var s := Lft(k * t.a, k * t.b, k * t.c, k * t.d);
    EqualsAgrees(t, s, epsilon);
    assert s.Full() == Transforms.ScaledBy(t.Full(), k);
    Transforms.EqualsScaled(t.Full(), k, epsilon);
  }

  /** Projectively equal transforms at epsilon zero compute the same value. */
  lemma EqualsExactAgree(t1: Lft, t2: Lft, x: real)
    requires Equals(t1, t2, 0.0)
    requires t1.c * x + t1.d != 0.0 && t2.c * x + t2.d != 0.0
    ensures t1.Transform(x) == t2.Transform(x)
  {
    EqualsAgrees(t1, t2, 0.0);
    TransformAgrees(t1, x);
    TransformAgrees(t2, x);
    Transforms.EqualsExactAgree(t1.Full(), t2.Full(), x);
  }
}
