# PhysicalUnits in Dafny

A Dafny model of the unit-conversion core of the C# library PhysicalUnits. The library has two parallel implementations, and the model covers both.

**Measurements.** Conversions in this half are linear-fractional transforms `(A·x + B)/(C·x + D)`.
- Transforms compose by 2×2 matrix multiplication, folded over a list, and compare by a projective "cross-multiplied" equality. This is in `transforms.dfy`.
- Rank-1 affine points (`Affine1`) and differences (`Diff1`) carry one coordinate tagged with a unit (`affine.dfy`).
- A `Dimension` validates its symbol and text id and registers itself in two lookup tables (`dimension.dfy`).
- A catalog lists the Position, Time and Velocity measurements with their units (`uom.dfy`).

**PhysicalUnits.** Conversions in this half are pairs of functions into and out of a base unit.
- Base, scaled and linear units: `physical_unit.dfy`.
- Quantities and differences with unit-reconciling arithmetic: `quantities.dfy`.
- A measure with a list of registered units: `measure.dfy`.
- The temperature catalog: `temperature.dfy`.

Modelling choices:
- C# `double` is modelled as `real`. A zero denominator, which gives a non-finite double in C#, is a precondition. So is division by a zero scalar or a zero unit scale.
- An exception is a `Failure` result:
  - `IndexOutOfRangeException` from the matrix indexer.
  - `InvalidOperationException` from `Aggregate` over no matrices.
  - `ArgumentException` from the `Dimension` constructor.
- In `Affine1`/`Diff1` the unit type parameter becomes a tag value `unit: U`. `GetConversion(from, to)` becomes a parameter `conv`.
  - C# picks the same-unit operator overload statically. The model takes that branch whenever the tags are equal, and converts the right operand otherwise.
- A `PhysicalUnit` is a class whose fields never change, because units are compared by reference.
- `Measure` and `Dimension` are classes whose methods update their list and maps.
- `Linear.Convert` fills an array in a loop.

Where the code does something surprising, the model follows the code:
- `Compose(T1, T2)` multiplies `M1·M2`, so `T2` is applied first. `Lft.ComposeWith` and `ComposeWithTransform` state it that way.
- The `Dimension` lookup tables are fields of each instance. Creating two dimensions with the same symbol therefore succeeds: `Dimension.Create` succeeds exactly when `Check` finds no error, whatever dimensions exist already.
- `Affine1 + Diff1` returns a `Diff1`, not a point.

## Model

| member | source | states |
|---|---|---|
| Transforms.At | Measurements/LinearFractionalTransformation.cs:19-27 | the indexer succeeds exactly for indices in {0,1}², otherwise it fails with IndexOutOfRange |
| Transforms.Mul | Measurements/LinearFractionalTransformation.cs:29-34 | no contract of its own; MulAssociative, FoldMulFactor and Lft.ComposeWith state its meaning |
| Transforms.MulAssociative | Measurements/LinearFractionalTransformation.cs:29-34 | matrix `*` is associative |
| Transforms.Multiply | Measurements/LinearFractionalTransformation.cs:36-40 | the left fold fails exactly on an empty list (EmptySequence), and a single matrix is returned unchanged |
| Transforms.FoldMulAppend | Measurements/LinearFractionalTransformation.cs:36-40 | folding a concatenation is folding the second part onto the fold of the first |
| Transforms.FoldMulFactor | Measurements/LinearFractionalTransformation.cs:36-40 | a leading factor can be pulled out of the fold |
| Transforms.MultiplyAppend | Measurements/LinearFractionalTransformation.cs:36-40 | the product of a concatenation of non-empty lists is the product of the two products, so grouping does not matter |
| Transforms.Lft.Transform | Measurements/LinearFractionalTransformation.cs:49-50 | the result times the denominator `C·x+D` is `A·x+B` |
| Transforms.Lft.Determinant | Measurements/LinearFractionalTransformation.cs:59-60 | no contract of its own; DeterminantScaled, Lft.Normalized, Lft.Inverse and ComposeInverse state its meaning |
| Transforms.Lft.AsSquareMatrix2 | Measurements/LinearFractionalTransformation.cs:77-78 | no contract of its own; MatrixRoundTrip, FromMatrix and Lft.ComposeWith state its meaning |
| Transforms.Lft.Inverse | Measurements/LinearFractionalTransformation.cs:89-90 | the inverse has the same determinant; InverseInvolution, ComposeInverse and InverseTransform state that it undoes the transform |
| Transforms.Lft.ComposeWith | Measurements/LinearFractionalTransformation.cs:83-84 | the composite's matrix is `this` matrix times the argument's matrix |
| Transforms.Lft.Normalized | Measurements/LinearFractionalTransformation.cs:58-62 | for a nonzero determinant, the normalized transform is projectively equal (epsilon 0) to the original and its determinant is the reciprocal of the original's |
| Transforms.FromMatrix | Measurements/LinearFractionalTransformation.cs:65-67 | the transform built from a matrix has that matrix as `AsSquareMatrix2` |
| Transforms.Affine | Measurements/LinearFractionalTransformation.cs:69-71 | the two-argument constructor has denominator 1 and computes `a·x+b` |
| Transforms.Scale | Measurements/LinearFractionalTransformation.cs:73-75 | the one-argument constructor has denominator 1 and computes `a·x` |
| Transforms.Identity | Measurements/LinearFractionalTransformation.cs:86-87 | `Identity` has denominator 1 and maps every x to x |
| Transforms.Matrices | Measurements/LinearFractionalTransformation.cs:80-81 | the selected matrices are the transforms' `AsSquareMatrix2`, in order |
| Transforms.Compose | Measurements/LinearFractionalTransformation.cs:80-81 | composition fails exactly on an empty list |
| Transforms.MatrixRoundTrip | Measurements/LinearFractionalTransformation.cs:65-78 | building from a transform's matrix gives back the transform, and the matrix of a transform built from a matrix is that matrix |
| Transforms.ComposeWithTransform | Measurements/LinearFractionalTransformation.cs:80-84 | where the inner and composite denominators are nonzero, `ComposeWith(t1, t2)` computes `t1(t2(x))`, so the argument is applied first |
| Transforms.ComposeGrouping | Measurements/LinearFractionalTransformation.cs:80-84 | composing a concatenation of non-empty lists equals composing the two partial composites |
| Transforms.ComposeIdentity | Measurements/LinearFractionalTransformation.cs:80-87 | composing one transform returns it, and `Identity` is an exact two-sided neutral element |
| Transforms.InverseInvolution | Measurements/LinearFractionalTransformation.cs:89-90 | the inverse of the inverse has the original coefficients |
| Transforms.ComposeInverse | Measurements/LinearFractionalTransformation.cs:89-90 | a transform composed with its inverse, in either order, is `Identity` scaled by the determinant, hence projectively equal to `Identity` |
| Transforms.InverseTransform | Measurements/LinearFractionalTransformation.cs:89-90 | with a nonzero determinant, the inverse is defined at `t(x)` and takes it back to x |
| Transforms.DeterminantScaled | Measurements/LinearFractionalTransformation.cs:58-62 | scaling the coefficients by k scales the determinant by k² |
| Transforms.EqualsScaled | Measurements/LinearFractionalTransformation.cs:96-99 | every multiple k·T is projectively equal to T for every epsilon ≥ 0 |
| Transforms.EqualsSymmetric | Measurements/LinearFractionalTransformation.cs:96-99 | `Equals` is symmetric |
| Transforms.EqualsExactAgree | Measurements/LinearFractionalTransformation.cs:96-99 | transforms equal at epsilon 0 compute the same value wherever both denominators are nonzero |
| Transforms.Equals | Measurements/LinearFractionalTransformation.cs:96-99 | no contract of its own; EqualsScaled, EqualsSymmetric and EqualsExactAgree state its meaning |
| Transforms.Eq | Measurements/LinearFractionalTransformation.cs:101-106 | no contract of its own; EqualityOperators states its meaning |
| Transforms.Neq | Measurements/LinearFractionalTransformation.cs:108-113 | no contract of its own; EqualityOperators states that it is the negation of `Eq` |
| Transforms.EqualityOperators | Measurements/LinearFractionalTransformation.cs:101-113 | `!=` is exactly the negation of `==`; `==` is reflexive, holds between T and any multiple of T, and holds whenever `Equals` holds at the default epsilon |
| Affine.Reconciled | Measurements/Affine1.cs:78-79 | a right operand in the same unit is used as is, one in another unit is pushed through the conversion into the left operand's unit |
| Affine.ConvertAffine | Measurements/Affine1.cs:33-36 | the converted point carries the target unit and its coordinate is the conversion applied to X |
| Affine.ConvertDiff | Measurements/Affine1.cs:28-31 | the converted difference carries the target unit and its coordinate is the conversion applied to X |
| Affine.Zero | Measurements/Affine1.cs:58 | `Zero` is the point with coordinate 0 in the unit |
| Affine.SubPoints | Measurements/Affine1.cs:74-79 | the difference of two points is tagged with the left operand's unit |
| Affine.SubDiffFromPoint | Measurements/Affine1.cs:82-87 | a point minus a difference is a point tagged with the left operand's unit |
| Affine.AddPointDiff | Measurements/Affine1.cs:92-97 | a point plus a difference is a `Diff1` in the left operand's unit |
| Affine.AddDiffPoint | Measurements/Affine1.cs:100-101 | a difference plus a point is a `Diff1` in the left operand's unit |
| Affine.Norm | Measurements/Affine1.cs:103 | `Norm` is non-negative and is X or -X |
| Affine.AddDiffs | Measurements/Affine1.cs:126-131 | the sum of differences is tagged with the left operand's unit |
| Affine.SubDiffs | Measurements/Affine1.cs:134-139 | the difference of differences is tagged with the left operand's unit |
| Affine.ScaleLeft | Measurements/Affine1.cs:149-150 | scaling keeps the unit; ScalingLaws states that it multiplies X by k |
| Affine.ScaleRight | Measurements/Affine1.cs:152-153 | scaling keeps the unit; ScalingLaws states that it multiplies X by k |
| Affine.Divide | Measurements/Affine1.cs:155-156 | for a nonzero scalar, the quotient times the scalar is X, in the same unit |
| Affine.SquaredDistance | Measurements/Affine1.cs:159-162 | `&` is non-negative and keeps the unit |
| Affine.Magnitude | Measurements/Affine1.cs:164-165 | `Magnitude` is non-negative and is X or -X |
| Affine.SquareMagnitude | Measurements/Affine1.cs:167-168 | `SquareMagnitude` is the square of `Magnitude`, hence non-negative |
| Affine.Convert | Measurements/Affine1.cs:38-47 | the result is a fresh array of the input's length; every slot below `Length-1` holds the converted point, and the last slot stays at the origin |
| Affine.ConvertAll | Measurements/Affine1.cs:38-47 | the batch conversion with every slot converted |
| Affine.ConvertSingleton | Measurements/Affine1.cs:44 | on a one-point batch under a doubling conversion, the batch as written yields the origin, where conversion yields 10 |
| Affine.MixedUnitsConvertRight | Measurements/Affine1.cs:78-97 | the point operators `Affine1 - IAffine1`, `Affine1 - IDiff1` and `Affine1 + IDiff1` with a right operand in another unit equal their same-unit form applied to the right operand converted into the left unit |
| Affine.MixedUnitDiffOperators | Measurements/Affine1.cs:130-147 | `Diff1 + IDiff1`, `Diff1 - IDiff1` and `Diff1 + IAffine1` with a right operand in another unit add or subtract the right operand's coordinate converted into the left unit, and equal their same-unit form on the converted operand |
| Affine.PointDifferences | Measurements/Affine1.cs:74-83 | same-unit `p - q` is `Diff1(p.X - q.X)`, `p - (p - q)` is `q`, and `q - p` is the negation of `p - q` |
| Affine.PointPlusDiff | Measurements/Affine1.cs:92-101 | point plus difference equals difference plus point, with coordinate the sum, and `q + (p - q)` has p's coordinate |
| Affine.DiffArithmetic | Measurements/Affine1.cs:126-156 | in one unit, `v + w` and `v - w` are the Diff1 of the sum and difference of the coordinates; addition commutes, `(a + b) - b` is a, `k*v` equals `v*k`, and `(v*k)/k` is v for k ≠ 0 |
| Affine.ScalingLaws | Measurements/Affine1.cs:126-153 | `k * v` and `v * k` multiply X by k; scaling by 0 gives 0 and by 1 changes nothing, scalings compose by multiplying the scalars, and scaling distributes over the sum of differences in one unit |
| Affine.SquaredDistanceIsSquareMagnitude | Measurements/Affine1.cs:159-168 | `&` is symmetric and equals `(v - w).SquareMagnitude` |
| Affine.ConvertRoundTrip | Measurements/Affine1.cs:69-71 | converting there and back restores the point when the way back is projectively the inverse of the way there |
| Dimensions.ToUpper | Measurements/Dimension.cs:18 | lower-case ASCII letters map to their upper-case letter and everything else is unchanged |
| Dimensions.FoldCase | Measurements/Dimension.cs:11-12 | the case-insensitive key has the same length and every character upper-cased |
| Dimensions.Check | Measurements/Dimension.cs:18-25 | the symbol error is raised exactly when the upper-cased symbol is not a letter or digit; the text-id error is raised exactly when the symbol passes and the text id is null or white space; success implies a non-empty text id |
| Dimensions.Dimension.constructor | Measurements/Dimension.cs:17-31 | once the checks pass, the dimension stores the text id and the upper-cased symbol, and each of its tables maps its key to the dimension alone |
| Dimensions.Dimension.AddSymbol | Measurements/Dimension.cs:30 | the symbol table gains exactly the new key and the text-id table is unchanged |
| Dimensions.Dimension.AddTextID | Measurements/Dimension.cs:31 | the text-id table gains exactly the case-folded key and the symbol table is unchanged |
| Dimensions.Dimension.LookupSymbol | Measurements/Dimension.cs:8-9 | a lookup finds an entry exactly when the symbol is a key |
| Dimensions.Dimension.LookupTextID | Measurements/Dimension.cs:11-12 | a lookup finds an entry exactly when the key, ignoring case, is present |
| Dimensions.Dimension.Create | Measurements/Dimension.cs:17-32 | creation fails exactly with the error `Check` reports; on success the new dimension stores the text id and upper-cased symbol, and each table maps its key to the new dimension alone |
| Dimensions.SymbolCaseNormalised | Measurements/Dimension.cs:18-21 | upper-casing is idempotent, and a symbol passes the check exactly when its upper-case form does |
| Dimensions.FoldCaseIdempotent | Measurements/Dimension.cs:11-12 | case folding is idempotent |
| Dimensions.RegisteredLookups | Measurements/Dimension.cs:27-31 | after construction, the symbol lookup finds the dimension only under its symbol, and the text-id lookup finds it exactly for keys equal to its text id ignoring case |
| Dimensions.SymbolCheckedFirst | Measurements/Dimension.cs:19-25 | a bad symbol is reported even when the text id is null or blank |
| DimensionTransforms.Lft.Transform | Measurements/Dimension.cs:57-58 | the result times `C·x+D` is `A·x+B` |
| DimensionTransforms.Lft.Inverse | Measurements/Dimension.cs:70-71 | the copy's inverse is the full transform's inverse |
| DimensionTransforms.Identity | Measurements/Dimension.cs:67-68 | the copy's identity is the full transform's identity |
| DimensionTransforms.Equals | Measurements/Dimension.cs:73-76 | no contract of its own; EqualsAgrees, EqualsScaled and EqualsExactAgree state its meaning |
| DimensionTransforms.Eq | Measurements/Dimension.cs:78-83 | no contract of its own; OperatorsAgree and InverseAndOperators state its meaning |
| DimensionTransforms.Neq | Measurements/Dimension.cs:85-90 | no contract of its own; OperatorsAgree and InverseAndOperators state that it is the negation of `Eq` |
| DimensionTransforms.TransformAgrees | Measurements/Dimension.cs:57-58 | the copy computes the same value as the full transform |
| DimensionTransforms.EqualsAgrees | Measurements/Dimension.cs:73-76 | the copy's `Equals` coincides with the full transform's |
| DimensionTransforms.OperatorsAgree | Measurements/Dimension.cs:78-90 | the copy's `==` and `!=` coincide with the full transform's |
| DimensionTransforms.InverseAndOperators | Measurements/Dimension.cs:70-90 | `Inverse` is an involution, `!=` is the negation of `==`, and `==` is reflexive |
| DimensionTransforms.EqualsScaled | Measurements/Dimension.cs:73-76 | every multiple of a transform is projectively equal to it for epsilon ≥ 0 |
| DimensionTransforms.EqualsExactAgree | Measurements/Dimension.cs:73-76 | transforms equal at epsilon 0 compute the same value where both are defined |
| Catalog.CatalogDimensionsValid | Measurements/UOM.cs:5-8 | ("Length", 'L') and ("Time", 'T') pass the constructor's checks, keep their symbols, and have distinct text ids ignoring case |
| Catalog.MeasurementName | Measurements/UOM.cs:12-81 | no contract of its own: the names "Position", "Time" and "Velocity" |
| Catalog.MeasurementOf | Measurements/UOM.cs:22-109 | no contract of its own; BaseUnit and NamesDistinct use it to group the units by measurement |
| Catalog.Name | Measurements/UOM.cs:25-104 | no contract of its own; NamesDistinct states that names are distinct within a measurement |
| Catalog.Plural | Measurements/UOM.cs:26-105 | no contract of its own; NamesDistinct states that plurals are distinct within a measurement |
| Catalog.Exponents | Measurements/UOM.cs:14-87 | T is a key except for Position, and L is a key except for Time |
| Catalog.ExponentsExact | Measurements/UOM.cs:14-87 | the maps are exactly {L:1}, {T:1} and {L:1, T:-1}, and every key is a catalog dimension symbol |
| Catalog.BaseUnit | Measurements/UOM.cs:19-90 | each measurement's base unit belongs to it and has `Identity` as `ToBase` |
| Catalog.ScaleToBase | Measurements/UOM.cs:37-108 | every unit's scale to its base unit is positive |
| Catalog.ToBase | Measurements/UOM.cs:28-108 | every `ToBase` has denominator 1, multiplies by the unit's scale, and has a positive determinant |
| Catalog.NamesDistinct | Measurements/UOM.cs:25-105 | distinct units of one measurement have distinct names and plurals |
| Catalog.ToBaseInvertible | Measurements/UOM.cs:28-108 | every unit's `ToBase` is undone by its inverse |
| PhysicalUnits.PhysicalUnit.constructor | PhysicalUnits/PhysicalUnit.cs:23-40 | `Name`, `Symbols` and both conversions are exactly the constructor's arguments |
| PhysicalUnits.LinearRoundTrip | PhysicalUnits/PhysicalUnit.cs:54-57 | for a nonzero scale, `(x·s+o - o)/s = x` and `((x-o)/s)·s + o = x` |
| PhysicalUnits.ScaledIsLinear | PhysicalUnits/PhysicalUnit.cs:44-57 | a scaled unit converts as the linear unit with offset 0, and scale 1 is the identity of a base unit |
| PhysicalUnits.BaseUnit | PhysicalUnits/PhysicalUnit.cs:44-47 | a fresh unit with the given name and symbols whose conversions are both the identity |
| PhysicalUnits.ScaledUnit | PhysicalUnits/PhysicalUnit.cs:49-52 | a fresh unit multiplying by the scale into the base and dividing out of it; the two undo each other |
| PhysicalUnits.LinearUnit | PhysicalUnits/PhysicalUnit.cs:54-57 | a fresh unit computing `x·s+o` into the base and `(x-o)/s` out of it; the two undo each other |
| Quantities.Create | PhysicalUnits/PhysicalQuantity.cs:46-50 | the quantity holds exactly the value and unit given |
| Quantities.ConvertTo | PhysicalUnits/PhysicalQuantity.cs:36-44 | the result carries the new unit and, when that unit's conversions undo each other, denotes the same base value as the input |
| Quantities.ConvertRoundTrip | PhysicalUnits/PhysicalQuantity.cs:36-44 | converting to another unit and back, or to the same unit, restores the quantity when both units' conversions undo each other |
| Quantities.WrittenOperand | PhysicalUnits/PhysicalQuantity.cs:27-29 | the left value is used as is for the same unit object, and passed through `ToBase` of both units otherwise |
| Quantities.ConvertedOperand | PhysicalUnits/PhysicalQuantity.cs:26-44 | the left value is used as is for the same unit object, and is the `ConvertTo` value in the right unit otherwise |
| Quantities.Sub | PhysicalUnits/PhysicalQuantity.cs:26-32 | quantity minus quantity is a difference in the right operand's unit: `a - b` for the same unit object, `b.ToBase(a.ToBase(a)) - b` otherwise |
| Quantities.SubDiffs | PhysicalUnits/PhysicalDifference.cs:23-29 | difference minus difference, in the right operand's unit, same-unit and mixed branches as written |
| Quantities.AddDiffs | PhysicalUnits/PhysicalDifference.cs:31-37 | difference plus difference, in the right operand's unit, same-unit and mixed branches as written |
| Quantities.AddQuantityDiff | PhysicalUnits/PhysicalDifference.cs:39-45 | quantity plus difference is a quantity in the right operand's unit, same-unit and mixed branches as written |
| Quantities.AddDiffQuantity | PhysicalUnits/PhysicalDifference.cs:47-53 | difference plus quantity is a quantity in the right operand's unit, same-unit and mixed branches as written |
| Quantities.ConvertedDifference | PhysicalUnits/PhysicalDifference.cs:26 | a difference is brought into another unit as the converted value less the converted origin, and is unchanged in its own unit |
| Quantities.LinearDifference | PhysicalUnits/PhysicalDifference.cs:23-37 | between linear units a converted difference is the difference times the ratio of the scales, whatever the offsets; the conversion is additive, and the difference of two converted quantities is the converted difference |
| Quantities.SubConverted | PhysicalUnits/PhysicalQuantity.cs:26-32 | when the right unit's conversions undo each other, the corrected subtraction equals converting the left operand into the right unit and subtracting there |
| Quantities.SubDiffsConverted | PhysicalUnits/PhysicalDifference.cs:23-29 | the corrected subtraction of differences equals converting the left difference with `ConvertedDifference` and subtracting in the right unit |
| Quantities.AddDiffsConverted | PhysicalUnits/PhysicalDifference.cs:31-37 | the corrected addition of differences equals converting the left difference with `ConvertedDifference` and adding in the right unit |
| Quantities.AddQuantityDiffConverted | PhysicalUnits/PhysicalDifference.cs:39-45 | when the right unit's conversions undo each other, the corrected quantity-plus-difference equals converting the quantity and adding in the right unit |
| Quantities.AddDiffQuantityConverted | PhysicalUnits/PhysicalDifference.cs:47-53 | the corrected difference-plus-quantity equals converting the difference with `ConvertedDifference` and adding in the right unit |
| Quantities.SameUnitArithmetic | PhysicalUnits/PhysicalQuantity.cs:26-31 | in one unit, addition of differences commutes, `(a + b) - b` is a, and `q + (p - q)` and `(p - q) + q` are p |
| Quantities.WrittenAgreesWithConverted | PhysicalUnits/PhysicalQuantity.cs:29 | for different units, the value as written equals the converted value exactly when the right unit's `ToBase` and `FromBase` agree at the left operand's base value |
| Quantities.KelvinMinusCelsius | PhysicalUnits/PhysicalQuantity.cs:29 | 300 K minus 0 °C is 573.15 as written and 26.85 with the left operand converted; a difference of 10 K plus one of 5 °C is 288.15 as written and 15 with the left difference converted |
| Measures.Measure.constructor | PhysicalUnits/Measure.cs:9-12 | a new measure has its base unit and an empty unit list |
| Measures.Measure.Origin | PhysicalUnits/Measure.cs:27-31 | `Origin` is 0 in the base unit |
| Measures.Measure.Register | PhysicalUnits/Measure.cs:39-42 | the unit is appended at the end of the list, which grows by one, and is returned |
| Measures.Zero | PhysicalUnits/Measure.cs:33-37 | `Zero` is the instance's `Origin`, 0 in the base unit |
| Measures.RegisterBase | PhysicalUnits/Measure.cs:44-46 | builds a base unit and touches no list |
| Measures.RegisterScaled | PhysicalUnits/Measure.cs:48-50 | builds a scaled unit and touches no list |
| Measures.RegisterLinear | PhysicalUnits/Measure.cs:52-54 | builds a linear unit and touches no list |
| Temperatures.Declare | PhysicalUnits/Temperature.cs:9-13 | each unit field is a fresh unit with its name and symbol, converting with its declared scale and offset |
| Temperatures.Temperature.constructor | PhysicalUnits/Temperature.cs:9-13 | the five units are distinct objects with their declared conversions, names and symbols, and the measure's unit list stays empty |
| Temperatures.Temperature.BaseUnit | PhysicalUnits/Temperature.cs:15-19 | `BaseUnit` is the measure's base unit |
| Temperatures.DeclaredScale | PhysicalUnits/Temperature.cs:9-13 | every declared scale is positive |
| Temperatures.IntendedScale | PhysicalUnits/Temperature.cs:10-13 | every intended scale is positive |
| Temperatures.UnitsInvertible | PhysicalUnits/Temperature.cs:9-13 | every temperature unit's conversions undo each other |
| Temperatures.CelsiusShift | PhysicalUnits/Temperature.cs:12 | Celsius converts by adding 273.15 into kelvins and subtracting it out |
| Temperatures.KelvinIsBase | PhysicalUnits/Temperature.cs:9-19 | the base unit is Kelvin, whose conversions are the identity, and `Zero` is 0 K |
| Temperatures.DeclaredReadings | PhysicalUnits/Temperature.cs:10-13 | as declared, 1000 mK is 10⁶ K, 491.67 °R is 885.006 K and 32 °F is 517.27 K, while 0 °C is 273.15 K |
| Temperatures.IntendedReadings | PhysicalUnits/Temperature.cs:10-13 | with the intended scales and offsets, 1000 mK is 1 K, `32 + 1.8·c` °F is c °C, and `f + 459.67` °R is f °F |

## Left out

- Floating point: `double` is `real`. Rounding, NaN and infinities from a zero denominator or a zero divisor are not modelled; those inputs are excluded by preconditions. `double.Epsilon` is its exact value, 2^-1074.
- Concurrency: the `Parallel.For` of `Linear.Convert` is a sequential loop. Each slot is written by one iteration only, so the result is the same.
- `Lazy<T>` caching of `Normalized`, `Norm`, `Magnitude` and `SquareMagnitude` is a plain computed value. A `default` struct (`Affine1.Zero`, or the slot `Convert` leaves unwritten) has null lazies in C#, so `Norm` and `Magnitude` on it throw; the model returns |X| instead.
- `GetConversion` and the `IPhysicalUnit<TUnit, TMeasurement>` interface are not part of this model. The conversion is a parameter `conv` from a unit pair to a transform. The same-unit branch is taken whenever the tags are equal, whatever `conv` returns for that pair.
- Affine.ConvertRoundTrip: holds only under the stated assumption that the conversion back is projectively the inverse, because `GetConversion` is not available.
- `Identity * k` (UOM.cs) has no operator in the transform code. The catalog reads it as the pure scale (k, 0, 0, 1).
- `FromBase` of the Measurements unit classes is abstract and never overridden, so no catalog unit defines it.
- Each `Instance` property of a catalog unit allocates a new, field-less object. The catalog's units are values, so there is no identity to model.
- `char.ToUpper` and `char.IsLetterOrDigit` are modelled on ASCII only. A non-ASCII letter is treated as not a letter, and its case is left unchanged. `StringComparer.OrdinalIgnoreCase` is modelled as comparison after ASCII upper-casing.
- `PhysicalUnit.ScaledUnit`, `PhysicalUnit.LinearUnit`: a zero scale is excluded, because `ConvertFromBase` would divide by zero.
- `IPhysicalUnit.ConvertToBase`/`ConvertFromBase` are the unit's `toBase`/`fromBase` fields read directly.
- `Measure<TSelf>`'s static `Instance` is the `Measure` object a caller holds. `Temperature` holds its `Measure` rather than deriving from it, and its base unit is that measure's.
- `GetHashCode`, the JSON test, the quaternion stub and the scale-only unit tables (pressure, voltage, current, angle, fraction) are not part of this model.

## Findings

| source | as written | input that shows it | evidently intended | confidence | as-written member | corrected member |
|---|---|---|---|---|---|---|
| Measurements/Affine1.cs:44 | `Parallel.For(0, affines.Length - 1, …)` has an exclusive upper bound, so the last slot is never converted | a one-point batch `[5]` under a doubling conversion gives `[0]` | every slot converted (`[10]`) | high, not executed | Affine.Convert, Affine.ConvertSingleton | Affine.ConvertAll |
| PhysicalUnits/PhysicalQuantity.cs:29 | the mixed-unit branch computes `b.Unit.ConvertToBase(a.Unit.ConvertToBase(a.Value))` | 300 K minus 0 °C gives 573.15 | `b.Unit.ConvertFromBase(a.Unit.ConvertToBase(a.Value))`, as in `ConvertTo`, giving 26.85 | high, not executed | Quantities.Sub, Quantities.KelvinMinusCelsius | Quantities.SubConverted |
| PhysicalUnits/PhysicalDifference.cs:26-50 | the same double `ConvertToBase` in all four mixed-unit branches | a difference of 10 K plus one of 5 °C gives 288.15 | convert the left difference into the right unit, with the unit's offset cancelled, giving 15 | high, not executed | Quantities.AddDiffs, Quantities.KelvinMinusCelsius | Quantities.AddDiffsConverted, Quantities.LinearDifference |
| PhysicalUnits/Temperature.cs:10-13 | Millikelvin, Rankin and Fahrenheit are declared with the factor from kelvins to the unit (1000, 1.8, and 1.8 with offset 459.67), where `ToBase` takes the unit to kelvins, as Celsius's offset 273.15 does | 1000 mK converts to 10⁶ K, and 32 °F to 517.27 K instead of 273.15 K | scales 0.001, 1/1.8 and 1/1.8 with offset 459.67/1.8 | high, not executed | Temperatures.DeclaredReadings | Temperatures.IntendedReadings |
