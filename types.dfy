// The Rise type hierarchy: every Rise type is an MLIR type; data types (scalars, arrays,
// tuples), naturals, and Rise types proper (function types and wrapped data types).
module RiseTypes {
  /** A type-level natural number; `intValue` is what `getIntValue` returns. */
  datatype Nat = Nat(intValue: int)

  /** The MLIR types the model needs: builtin host types (`f32`, `index`, ...), memrefs
      of a static shape, and the three Rise categories. */
  datatype MlirType =
    | Builtin(name: string)
    | MemRef(shape: seq<int>, element: MlirType)
    | NatType(nat: Nat)
    | Data(data: DataType)
    | Rise(rise: RiseType)

  /** Data types. A scalar wraps an arbitrary MLIR type; an array has a size and a DATA
      element type; a tuple pairs two data types. */
  datatype DataType =
    | Scalar(wrapped: MlirType)
    | Array(size: Nat, elementType: DataType)
    | Tuple(first: DataType, second: DataType)

  /** The type of every Rise value: a (curried) function type or a wrapped data type. */
  datatype RiseType =
    | FunType(input: MlirType, output: MlirType)
    | DataTypeWrapper(dataType: DataType)

  const F32: MlirType := Builtin("f32")
  const IndexType: MlirType := Builtin("index")

  predicate IsFunType(t: MlirType) { t.Rise? && t.rise.FunType? }
  predicate IsArrayType(t: MlirType) { t.Data? && t.data.Array? }
  predicate IsMemRefType(t: MlirType) { t.MemRef? }

  /** True of the types that belong to the Rise dialect. */
  predicate IsRiseDialectType(t: MlirType) { t.NatType? || t.Data? || t.Rise? }

  /** The element of an array type is, by construction, never a function type: the type
      system keeps functions out of arrays. */
  lemma ArrayElementsAreNotFunctions(d: DataType)
    requires d.Array?
    ensures !IsFunType(Data(d.elementType))
    ensures IsRiseDialectType(Data(d.elementType))
  {
  }

  /** Types are uniqued: two array types are the same type exactly when their size and
      element type agree (and likewise for every other kind). */
  lemma ArrayTypesAreUniqued(n1: Nat, e1: DataType, n2: Nat, e2: DataType)
    ensures (Array(n1, e1) == Array(n2, e2)) <==> (n1.intValue == n2.intValue && e1 == e2)
  {
  }

  /** Every `get` constructor gives its arguments back through the accessors. */
  lemma AccessorsGiveBackArguments(k: int, w: MlirType, n: Nat, e: DataType, a: DataType, b: DataType,
                                   input: MlirType, output: MlirType, d: DataType)
    ensures Nat(k).intValue == k && Scalar(w).wrapped == w
    ensures Array(n, e).size == n && Array(n, e).elementType == e
    ensures Tuple(a, b).first == a && Tuple(a, b).second == b
    ensures FunType(input, output).input == input && FunType(input, output).output == output
    ensures DataTypeWrapper(d).dataType == d
  {
  }
}
