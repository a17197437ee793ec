# Rise to imperative: a Dafny model

This project models the core of the Rise dialect for MLIR. Rise is a functional array
language built from `map`, `reduce`, `zip`, `split`, `join`, `transpose`, `slide`, `pad`,
lambdas, applications and literals.

The model covers four parts of that core:

- its type system;
- the type computations its operation parsers perform;
- the lowering that turns a Rise function body into imperative loops, assignments, loads and
  stores;
- six rewriting strategies of its Elevate layer.

## Parts of the model

- **Types** (`types.dfy`, module `RiseTypes`). This is the type hierarchy: `Nat`, the data
  types `Scalar`, `Array` and `Tuple`, and the Rise types `FunType` and `DataTypeWrapper`.
  Next to them are the host types the lowering produces (`memref`, `f32`, `index`).
- **Typing** (`ops.dfy`, module `RiseOps`). This covers:
  - the signatures of the combinators;
  - the walk over a curried function type that the `apply` and `lambda` parsers perform;
  - the check of a `to` lowering target;
  - the result types of `wrap`, `unwrap`, `idx` and `literal`.
- **IR** (`ir.dfy`, module `RiseIR`).
  - A value is the operation that defines it, with its operands as sub-values, or it is a
    block argument identified by a number.
  - A lambda or an embed carries the value its region returns. The IR is read as a tree.
  - The module also defines simultaneous substitution of block arguments, and the
    argument order that `Substitute` receives from an application.
- **Index arithmetic** (`int64.dfy`, `paths.dfy`, modules `Int64` and `AccessPaths`).
  - When code generation walks a value or a store location, it keeps a path of index
    tokens. Each intermediate operation rewrites the top of that path.
  - Index values are evaluated as 64-bit `index` arithmetic, with
    truncating division and remainder, so the index expressions can be proved to compute
    what they mean.
  - `generateWriteAccess` and `generateReadAccess` turn a path into a load or a store.
- **Code generation** (`codegen.dfy`, module `CodeGen`).
  - `codeGen` is the read side: it resolves a value, through the intermediate operations,
    to a load or to an inlined scalar computation.
  - `codeGenStore` is the write side: it resolves an assignment's target, through
    `idx`, `cast`, `joinAcc`, `splitAcc` and `embed`, to a store.
  - The recursion follows the source case for case.
- **Lowering** (`lowering.dfy`, module `Lowering`).
  - `AccT` is the acceptor translation of an application and of a returned value.
  - `ConT` is the continuation translation.
  - `rewrite` is the pattern that drives both from the `rise.out` operation and then
    collects the assignments for code generation.
  - The rewriter's in-place edits are modelled by threading a generator state through
    pure functions. That state holds the emitted statements, the next fresh identity and
    the diagnostics.
- **Cleanup** (`cleanup.dfy`, module `Cleanup`). This is `match` (is a function lowered at
  all) and the two erase sweeps of `rewrite`. They are modelled as the class
  `FunctionBody`, whose methods update its operation list in place.
- **Strategies** (`strategies.dfy`, module `Strategies`). These are the strategies
  `fuseReduceMap`, `splitJoin`, `addIdAfter`, `createTransposePair`,
  `removeTransposePair` and `mapMapFBeforeTranspose`, each with its match conditions and
  the term it builds.

### How the model reads the source's behaviour

Lowering and code generation distinguish three outcomes:

- a fault (`Err`): the source crashes or has undefined behaviour. Examples are
  `getDefiningOp()` of a block argument that is then dereferenced, a failed `cast`, an
  `assert`, an operand index out of range, and an uninitialised loop body.
- a diagnostic: the source emits an error or remark and carries on.
- a result.

A strategy's result is `Success(term)`, `Failure`, or `Abort`. `Abort` means the strategy
would crash: it calls `isa` on a null defining operation, asks for an operand that is not
there, or takes a remainder by zero.

## Model

| member | source | states |
|---|---|---|
| RiseTypes.ArrayElementsAreNotFunctions | mlir/include/mlir/Dialect/Rise/IR/Types.h:111-123 | an array's element is a data type, so it is never a function type and always belongs to the dialect |
| RiseTypes.ArrayTypesAreUniqued | mlir/include/mlir/Dialect/Rise/IR/Types.h:111-123 | two array types are equal exactly when their sizes and element types are equal |
| RiseTypes.AccessorsGiveBackArguments | mlir/include/mlir/Dialect/Rise/IR/Types.h:81-163 | each type's accessors return what its `get` was given: nat value, scalar's wrapped type, array size and element, tuple halves, function input and output, wrapped data type |
| RiseOps.Level | mlir/lib/Dialect/Rise/IR/Ops.cpp:306-322 | every curry level below the count of accepted arguments is itself a function type |
| RiseOps.LevelOutput | mlir/lib/Dialect/Rise/IR/Ops.cpp:306-322 | the next curry level is the output of the current one |
| RiseOps.LevelsOfOutput | mlir/lib/Dialect/Rise/IR/Ops.cpp:306-322 | the levels of a function type's output are its own levels shifted by one |
| RiseOps.LevelsEnd | mlir/lib/Dialect/Rise/IR/Ops.cpp:306-322 | a level's output is again a function type exactly when a further argument can be accepted |
| RiseOps.WalkCurriedType | mlir/lib/Dialect/Rise/IR/Ops.cpp:306-322 | the walk succeeds exactly when the type accepts that many arguments. On success it records the input at each level and the innermost function type. On failure it reports the number of levels |
| RiseOps.ParseApplyTypes | mlir/lib/Dialect/Rise/IR/Ops.cpp:266-326 | a non-function operand is rejected. Otherwise typing succeeds exactly when there are no more arguments than levels. The argument types are the inputs level by level, and the result type is the output after the last consumed level. Zero arguments count as one |
| RiseOps.ParseLambdaTypes | mlir/lib/Dialect/Rise/IR/Ops.cpp:224-264 | typing succeeds exactly when the parameters do not outnumber the type's levels. The parameter types are the inputs level by level, and the lambda's type is the written function type |
| RiseOps.MapSeqApplication | mlir/lib/Dialect/Rise/IR/Ops.cpp:407-419 | mapSeq takes a function s->t and an n.s array, and yields an n.t array |
| RiseOps.MapParIsMapSeq | mlir/lib/Dialect/Rise/IR/Ops.cpp:477-489 | mapPar has the same signature as mapSeq |
| RiseOps.ReduceSeqApplication | mlir/lib/Dialect/Rise/IR/Ops.cpp:551-568 | reduceSeq takes s->t->t, an initial t and an n.s array, and yields t |
| RiseOps.ZipApplication | mlir/lib/Dialect/Rise/IR/Ops.cpp:596-610 | zip takes n.s and n.t, and yields n.(s x t) |
| RiseOps.TupleApplication | mlir/lib/Dialect/Rise/IR/Ops.cpp:628-636 | tuple takes s and t, and yields s x t |
| RiseOps.ProjectionApplication | mlir/lib/Dialect/Rise/IR/Ops.cpp:641-689 | fst and snd each take one s x t and yield its first or its second component type |
| RiseOps.ArithmeticApplication | mlir/lib/Dialect/Rise/IR/Ops.cpp:691-727 | add and mult share the signature t->t->t |
| RiseOps.WithSeparatorsIsJoined | mlir/lib/Dialect/Rise/IR/Ops.cpp:380-384 | the loop that prints the target list writes each target followed by ", ", so its text is the joined list plus one trailing separator |
| RiseOps.JoinTargets | mlir/lib/Dialect/Rise/IR/Ops.cpp:380-386 | appending each target with ", " and then dropping the last two characters prints the targets with ", " between them and none at the end |
| RiseOps.LoweringTargetsMessage | mlir/lib/Dialect/Rise/IR/Ops.cpp:362 | the accepted targets print as "affine, loop" |
| RiseOps.ValidateLoweringTarget | mlir/lib/Dialect/Rise/IR/Ops.cpp:362-393 | an attribute dictionary passes exactly when it is absent or empty, or when its first entry is `to` with a string naming an accepted target. The first entry is then kept, and a rejection carries the error text |
| RiseOps.WrapResultType | mlir/lib/Dialect/Rise/IR/Ops.cpp:104-118 | wrap yields the scalar type that wraps its operand's type |
| RiseOps.UnwrapResultType | mlir/lib/Dialect/Rise/IR/Ops.cpp:120-135 | unwrap succeeds exactly on scalar types, and then its result wraps back to the operand's type |
| RiseOps.WrapUnwrapRoundTrip | mlir/lib/Dialect/Rise/IR/Ops.cpp:104-135 | unwrap undoes wrap on every type |
| RiseOps.IdxResultType | mlir/lib/Dialect/Rise/IR/Ops.cpp:168-202 | idx needs a memref of rank at least 1. It yields an f32 memref with the last dimension dropped and the other dimensions kept in order |
| RiseOps.LiteralResultType | mlir/lib/Dialect/Rise/IR/Ops.cpp:337-349 | a literal has exactly the data type of its attribute, wrapped, and is not a function |
| RiseIR.Children | mlir/lib/Conversion/RiseToImperative/ConvertRiseToImperative.cpp:1553-1563 | every child (operand or returned value) of a value is structurally smaller than it |
| RiseIR.WithChildren | mlir/lib/Conversion/RiseToImperative/ConvertRiseToImperative.cpp:1553-1563 | replacing a value's children keeps its kind and gives exactly the new children |
| RiseIR.SubstChildren | mlir/lib/Conversion/RiseToImperative/ConvertRiseToImperative.cpp:1553-1563 | substitution acts child by child |
| RiseIR.SubstUnmentioned | mlir/lib/Conversion/RiseToImperative/ConvertRiseToImperative.cpp:1553-1563 | substituting arguments a value never mentions leaves it unchanged |
| RiseIR.SubstCompose | mlir/lib/Conversion/RiseToImperative/ConvertRiseToImperative.cpp:1553-1563 | replacing one argument and then others is one simultaneous replacement, provided the others are not replaced again and leave the first replacement unchanged |
| RiseIR.ParamMap | mlir/lib/Conversion/RiseToImperative/ConvertRiseToImperative.cpp:1553-1563 | the substitution binds exactly the first |args| parameters |
| RiseIR.ParamMapAt | mlir/lib/Conversion/RiseToImperative/ConvertRiseToImperative.cpp:1553-1563 | with distinct parameters, parameter i is bound to argument i |
| RiseIR.SubstituteIsSimultaneous | mlir/lib/Conversion/RiseToImperative/ConvertRiseToImperative.cpp:1553-1563 | replacing parameters one at a time, as the source's loop does, equals one simultaneous substitution, provided no argument mentions a parameter |
| RiseIR.Substitute | mlir/lib/Conversion/RiseToImperative/ConvertRiseToImperative.cpp:1553-1563 | more arguments than block arguments is the out-of-range fault. Otherwise the result is the one-at-a-time substitution of the arguments for the first parameters |
| RiseIR.ApplyArguments | mlir/lib/Conversion/RiseToImperative/ConvertRiseToImperative.cpp:708-711 | the arguments passed to the lambda are the application's operands after the function, in reverse order |
| RiseIR.LambdaArguments | mlir/lib/Conversion/RiseToImperative/ConvertRiseToImperative.cpp:708-711 | the loop collecting the lambda's arguments yields exactly the reversed operands |
| Int64.Wrap | mlir/lib/Conversion/RiseToImperative/ConvertRiseToImperative.cpp:1365-1416 | 64-bit arithmetic keeps its result in range and is exact whenever the exact result fits |
| Int64.TruncDivRange | mlir/lib/Conversion/RiseToImperative/ConvertRiseToImperative.cpp:1309-1333 | signed division and remainder of 64-bit operands fit in 64 bits, except the one overflowing division, and agree with Euclidean `/` and `%` on non-negative operands |
| Int64.TruncDivMagnitude | mlir/lib/Conversion/RiseToImperative/ConvertRiseToImperative.cpp:1309-1333 | truncating division divides the magnitudes and takes the sign of the operands' product |
| Int64.TruncRemMagnitude | mlir/include/mlir/Dialect/Rise/Elevate/algorithmic.h:74 | the truncating remainder is strictly smaller in magnitude than the divisor |
| Int64.LinearDivMod | mlir/lib/Conversion/RiseToImperative/ConvertRiseToImperative.cpp:1288-1333 | dividing q*m+r by m, with 0 <= r < m, gives back q and r |
| AccessPaths.PopIndex | mlir/lib/Conversion/RiseToImperative/ConvertRiseToImperative.cpp:1292-1293 | popping the path succeeds exactly when its top token is an index, and yields that index and the rest |
| AccessPaths.ComposeTopShape | mlir/lib/Conversion/RiseToImperative/ConvertRiseToImperative.cpp:1288-1308 | split (and slide) replace the top two indices i, j by the single index i*n+j, and need two indices on top |
| AccessPaths.DecomposeTopShape | mlir/lib/Conversion/RiseToImperative/ConvertRiseToImperative.cpp:1309-1333 | join (and splitAcc) replace the top index k by the corrected remainder and the quotient of k by the constant, and need one index on top |
| AccessPaths.TransposeInvolution | mlir/lib/Conversion/RiseToImperative/ConvertRiseToImperative.cpp:1334-1343 | transpose swaps the top two tokens of any path with at least two. It keeps the rest, and doing it twice restores the path |
| AccessPaths.ZipShape | mlir/lib/Conversion/RiseToImperative/ConvertRiseToImperative.cpp:1254-1269 | zip consumes the selector token below the top, chooses the first or second input by it, and keeps the top index |
| AccessPaths.EvalBinary | mlir/lib/Conversion/RiseToImperative/ConvertRiseToImperative.cpp:1288-1416 | every defined 64-bit index operation yields a 64-bit value |
| AccessPaths.Eval | mlir/lib/Conversion/RiseToImperative/ConvertRiseToImperative.cpp:1288-1416 | every index expression that evaluates yields a 64-bit value |
| AccessPaths.ComposeEval | mlir/lib/Conversion/RiseToImperative/ConvertRiseToImperative.cpp:1295-1306 | split's index expression evaluates to i*n+j when that fits in 64 bits |
| AccessPaths.CorrectedRemainderEval | mlir/lib/Conversion/RiseToImperative/ConvertRiseToImperative.cpp:1320-1326 | the remainder with the negative correction (from AffineToStandard) evaluates to the mathematical remainder |
| AccessPaths.QuotientEval | mlir/lib/Conversion/RiseToImperative/ConvertRiseToImperative.cpp:1327 | the signed and the unsigned quotient of a non-negative index by a positive constant both evaluate to the mathematical quotient |
| AccessPaths.JoinRoundTrip | mlir/lib/Conversion/RiseToImperative/ConvertRiseToImperative.cpp:1105-1122 | writing through joinAcc and reading back through join recovers both original indices, on the same path prefix |
| AccessPaths.SplitRoundTrip | mlir/lib/Conversion/RiseToImperative/ConvertRiseToImperative.cpp:1123-1145 | writing through splitAcc and reading back through split recovers the original index |
| AccessPaths.SplitIndexEval | mlir/lib/Conversion/RiseToImperative/ConvertRiseToImperative.cpp:1123-1145 | (k / n) * n + k mod n evaluates back to k |
| AccessPaths.PadClampEval | mlir/lib/Conversion/RiseToImperative/ConvertRiseToImperative.cpp:1365-1416 | pad-clamp evaluates to 0 left of the array, i-l inside it and n-1 right of it. It always indexes inside the array |
| AccessPaths.PadInnerEval | mlir/lib/Conversion/RiseToImperative/ConvertRiseToImperative.cpp:1402-1405 | the inner select of pad evaluates to the 64-bit i-l below l+n and to n-1 elsewhere |
| AccessPaths.Indices | mlir/lib/Conversion/RiseToImperative/ConvertRiseToImperative.cpp:1451-1458 | the index tokens of a path are at most as many as its tokens |
| AccessPaths.Reverse | mlir/lib/Conversion/RiseToImperative/ConvertRiseToImperative.cpp:1451-1458 | reversal keeps the length and mirrors every position |
| AccessPaths.IndicesPush | mlir/lib/Conversion/RiseToImperative/ConvertRiseToImperative.cpp:1451-1458 | pushing an index token adds its index, and pushing a selector adds nothing |
| AccessPaths.IndicesFromTokens | mlir/lib/Conversion/RiseToImperative/ConvertRiseToImperative.cpp:1451-1458 | a value is an index of the path exactly when the path holds it as an index token |
| AccessPaths.CollectIndices | mlir/lib/Conversion/RiseToImperative/ConvertRiseToImperative.cpp:1451-1458 | the loop popping the path collects its index tokens, top first, skipping selectors |
| AccessPaths.ReversePush | mlir/lib/Conversion/RiseToImperative/ConvertRiseToImperative.cpp:1451-1458 | pushing onto the path puts the element first in the collected order |
| AccessPaths.GenerateWriteAccess | mlir/lib/Conversion/RiseToImperative/ConvertRiseToImperative.cpp:1446-1472 | a read is a load from the buffer at the path's indices, top first, and it needs a memref |
| AccessPaths.GenerateReadAccess | mlir/lib/Conversion/RiseToImperative/ConvertRiseToImperative.cpp:1474-1503 | a write stores the value at the path's indices, top first, when their count equals the target's rank. Otherwise the first collected index is dropped, which faults when there is none |
| CodeGen.ReadMarkerStep | mlir/lib/Conversion/RiseToImperative/ConvertRiseToImperative.cpp:1254-1416 | each intermediate operation continues with a strictly smaller value |
| CodeGen.ReadSpec | mlir/lib/Conversion/RiseToImperative/ConvertRiseToImperative.cpp:1187-1444 | reading a value only ever adds embeds to the inlined set and never forgets one; its cases are stated by ReadIdx, ReadMarker, ReadBuffer, BinaryResult and the read laws (LoadOfIndexedBuffer, TransposeSwapsIndices, ProjectionOfZip, SplitReadsComposedIndex, JoinReadsDecomposedIndex) |
| CodeGen.BinaryResult | mlir/lib/Conversion/RiseToImperative/ConvertRiseToImperative.cpp:1233-1248 | "add" and "mul" become the float add or multiply of the inlined operands, and any other operator leaves the value as it is |
| CodeGen.ReadEach | mlir/lib/Conversion/RiseToImperative/ConvertRiseToImperative.cpp:1191-1226 | reading an embed's operands yields one value per operand and keeps what was already inlined |
| CodeGen.StoreMarkerStep | mlir/lib/Conversion/RiseToImperative/ConvertRiseToImperative.cpp:1105-1145 | joinAcc and splitAcc continue with a strictly smaller location |
| CodeGen.StoreSpec | mlir/lib/Conversion/RiseToImperative/ConvertRiseToImperative.cpp:1091-1185 | resolving a store location only ever adds embeds to the inlined set; its cases are stated by StoreIdx, StoreMarker, StoreArgument, StoreInlinesEmbed and the write laws (StoreIntoIndexedBuffer, JoinAccStoresComposedIndex, SplitAccStoresDecomposedIndex) |
| CodeGen.CodeGenValue | mlir/lib/Conversion/RiseToImperative/ConvertRiseToImperative.cpp:1187-1444 | the recursive read generator computes exactly the read specification |
| CodeGen.CodeGenLeaf | mlir/lib/Conversion/RiseToImperative/ConvertRiseToImperative.cpp:1191-1443 | the cases that are not index-rewriting operations (embed, binOp, alloc, in, cast, other operations, block argument) compute the read specification |
| CodeGen.CodeGenOperands | mlir/lib/Conversion/RiseToImperative/ConvertRiseToImperative.cpp:1196-1205 | the loop over an embed's operands computes the operand-wise specification |
| CodeGen.CodeGenStore | mlir/lib/Conversion/RiseToImperative/ConvertRiseToImperative.cpp:1091-1185 | the recursive store generator computes exactly the store specification |
| CodeGen.CodeGenAll | mlir/lib/Conversion/RiseToImperative/ConvertRiseToImperative.cpp:138-143 | generating code for the assignments yields one store per assignment |
| CodeGen.CodeGenAssigns | mlir/lib/Conversion/RiseToImperative/ConvertRiseToImperative.cpp:138-143 | the loop over the collected assignments computes the program specification, starting with nothing inlined |
| CodeGen.IxTokens | mlir/lib/Conversion/RiseToImperative/ConvertRiseToImperative.cpp:1095-1100 | each idx contributes one index token, in order |
| CodeGen.ReadIdx | mlir/lib/Conversion/RiseToImperative/ConvertRiseToImperative.cpp:1227-1232 | reading through idx pushes its index and reads the array |
| CodeGen.ReadMarker | mlir/lib/Conversion/RiseToImperative/ConvertRiseToImperative.cpp:1254-1416 | reading an intermediate operation rewrites the path and reads its operand, or faults with the step's fault |
| CodeGen.ReadBuffer | mlir/lib/Conversion/RiseToImperative/ConvertRiseToImperative.cpp:1249-1253 | reading an allocated buffer is the load at the path's indices |
| CodeGen.StoreIdx | mlir/lib/Conversion/RiseToImperative/ConvertRiseToImperative.cpp:1095-1100 | storing through idx pushes its index and resolves the array |
| CodeGen.StoreMarker | mlir/lib/Conversion/RiseToImperative/ConvertRiseToImperative.cpp:1105-1145 | storing through joinAcc or splitAcc rewrites the path and resolves their operand |
| CodeGen.StoreArgument | mlir/lib/Conversion/RiseToImperative/ConvertRiseToImperative.cpp:1179-1184 | storing into a block argument is the store built from the path |
| CodeGen.ReadThroughIdx | mlir/lib/Conversion/RiseToImperative/ConvertRiseToImperative.cpp:1227-1232 | a chain of idx pushes its indices innermost first |
| CodeGen.StoreThroughIdx | mlir/lib/Conversion/RiseToImperative/ConvertRiseToImperative.cpp:1095-1100 | a chain of idx on the store side pushes its indices innermost first |
| CodeGen.IndicesOfIxTokens | mlir/lib/Conversion/RiseToImperative/ConvertRiseToImperative.cpp:1451-1458 | a path made only of indices collects to exactly those indices |
| CodeGen.FlattenIdx | mlir/lib/Conversion/RiseToImperative/ConvertRiseToImperative.cpp:1446-1472 | the indices of an idx chain come out of the path in the order they were written |
| CodeGen.LoadOfIndexedBuffer | mlir/lib/Conversion/RiseToImperative/ConvertRiseToImperative.cpp:1446-1472 | reading buffer[i1]...[ik] is the load of the buffer at i1..ik |
| CodeGen.TransposeSwapsIndices | mlir/lib/Conversion/RiseToImperative/ConvertRiseToImperative.cpp:1334-1343 | transpose(x)[i][j] loads x[j][i] |
| CodeGen.ProjectionOfZip | mlir/lib/Conversion/RiseToImperative/ConvertRiseToImperative.cpp:1254-1283 | fst and snd of zip(a,b)[i] read a[i] and b[i] |
| CodeGen.SplitReadsComposedIndex | mlir/lib/Conversion/RiseToImperative/ConvertRiseToImperative.cpp:1288-1308 | split_n(x)[i][j] loads x[i*n+j], and that index evaluates to i*n+j |
| CodeGen.JoinReadsDecomposedIndex | mlir/lib/Conversion/RiseToImperative/ConvertRiseToImperative.cpp:1309-1333 | join_m(x)[k] loads x[k/m][k mod m], and both indices evaluate to the mathematical quotient and remainder |
| CodeGen.JoinReadPath | mlir/lib/Conversion/RiseToImperative/ConvertRiseToImperative.cpp:1309-1333 | join_m(x)[k] loads x at the quotient and the corrected remainder of k by m |
| CodeGen.StoreIntoIndexedBuffer | mlir/lib/Conversion/RiseToImperative/ConvertRiseToImperative.cpp:1101-1104 | storing into cast(out)[i1]...[ik] stores at i1..ik when k equals out's rank. Otherwise the first index is dropped, and no index at all is a fault |
| CodeGen.JoinAccStoresComposedIndex | mlir/lib/Conversion/RiseToImperative/ConvertRiseToImperative.cpp:1105-1122 | writing joinAcc_m(out)[i][j] stores at out[i*m+j] |
| CodeGen.SplitAccStoresDecomposedIndex | mlir/lib/Conversion/RiseToImperative/ConvertRiseToImperative.cpp:1123-1145 | writing splitAcc_n(out)[k] stores at out[k/n][k mod n] |
| CodeGen.StoreInlinesEmbed | mlir/lib/Conversion/RiseToImperative/ConvertRiseToImperative.cpp:1146-1170 | storing into an embed stores into the value its region returns and records the embed as inlined, so a later read of it reads that value |
| Lowering.Emit | mlir/lib/Conversion/RiseToImperative/ConvertRiseToImperative.cpp:219-768 | emitting appends exactly one statement and changes nothing else |
| Lowering.Warn | mlir/lib/Conversion/RiseToImperative/ConvertRiseToImperative.cpp:219-768 | a diagnostic is appended and nothing else changes |
| Lowering.Operand | mlir/lib/Conversion/RiseToImperative/ConvertRiseToImperative.cpp:633-643 | operand i of an application exists exactly when i is at most its argument count: 0 is the function, and a larger index is a fault. The operand is smaller than the application |
| Lowering.LoopKindOf | mlir/lib/Conversion/RiseToImperative/ConvertRiseToImperative.cpp:308-336 | the target chooses the loop: "loop", or no target, gives `scf.for` and "affine" gives `affine.for`. Any other target is the uninitialised-loop-body fault |
| Lowering.LiteralShape | mlir/lib/Conversion/RiseToImperative/ConvertRiseToImperative.cpp:806-836 | an array literal's shape is non-empty and starts with its outer size |
| Lowering.Nest | mlir/lib/Conversion/RiseToImperative/ConvertRiseToImperative.cpp:806-836 | nesting sizes always gives an array type |
| Lowering.ShapeOfNest | mlir/lib/Conversion/RiseToImperative/ConvertRiseToImperative.cpp:806-836 | the shape read off a nested array type is the list of its sizes, outermost first |
| Lowering.BeforeComma | mlir/lib/Conversion/RiseToImperative/ConvertRiseToImperative.cpp:806-836 | the text before the first comma is a prefix with no comma, followed by a comma or the end |
| Lowering.TrimLeft | mlir/lib/Conversion/RiseToImperative/ConvertRiseToImperative.cpp:806-836 | left-trimming removes exactly the leading run of the character |
| Lowering.TrimRight | mlir/lib/Conversion/RiseToImperative/ConvertRiseToImperative.cpp:806-836 | right-trimming removes exactly the trailing run of the character |
| Lowering.TrimIsSlice | mlir/lib/Conversion/RiseToImperative/ConvertRiseToImperative.cpp:806-836 | trimming yields a contiguous slice of the text |
| Lowering.TrimKeepsAbsent | mlir/lib/Conversion/RiseToImperative/ConvertRiseToImperative.cpp:806-836 | trimming introduces no character that was not there |
| Lowering.TrimEnds | mlir/lib/Conversion/RiseToImperative/ConvertRiseToImperative.cpp:806-836 | a trimmed non-empty text neither starts nor ends with the character |
| Lowering.FillTextHasNoComma | mlir/lib/Conversion/RiseToImperative/ConvertRiseToImperative.cpp:806-836 | the fill value taken from an array literal contains no comma |
| Lowering.FillTextIsUnbracketed | mlir/lib/Conversion/RiseToImperative/ConvertRiseToImperative.cpp:806-836 | the fill value neither starts nor ends with a closing bracket |
| Lowering.BeforeCommaOf | mlir/lib/Conversion/RiseToImperative/ConvertRiseToImperative.cpp:806-836 | the text before the comma of "s,t" is s when s has no comma |
| Lowering.TrimNothing | mlir/lib/Conversion/RiseToImperative/ConvertRiseToImperative.cpp:806-836 | trimming a text that neither starts nor ends with the character leaves it unchanged |
| Lowering.FillTextOfFirstElement | mlir/lib/Conversion/RiseToImperative/ConvertRiseToImperative.cpp:806-836 | an array literal "[d,..." fills its buffer with its first element d |
| Lowering.AccT | mlir/lib/Conversion/RiseToImperative/ConvertRiseToImperative.cpp:219-768 | the acceptor translation only appends statements and diagnostics and only advances fresh identities; its cases are stated by MapLowersToLoop, ReduceLowersToLoop, SplitWritesThroughSplitAcc, JoinWritesThroughJoinAcc, AppliedLambdaSubstitutes, AccTAssignsOnce and AccTOfUnknownFunction |
| Lowering.CheckOut | mlir/lib/Conversion/RiseToImperative/ConvertRiseToImperative.cpp:220-224 | the check on out's type at most adds a diagnostic |
| Lowering.AccTReduce | mlir/lib/Conversion/RiseToImperative/ConvertRiseToImperative.cpp:231-428 | reduceSeq's translation only appends; the statements it emits (the initial assignment and the loop with its body) are stated by ReduceLowersToLoop |
| Lowering.AccTMap | mlir/lib/Conversion/RiseToImperative/ConvertRiseToImperative.cpp:430-632 | mapSeq's and mapPar's translations only append; the loop they emit and its body are stated by MapLowersToLoop |
| Lowering.AccTProjection | mlir/lib/Conversion/RiseToImperative/ConvertRiseToImperative.cpp:633-654 | fst's and snd's translations only append; the projection they assign to out is stated by AccTAssignsOnce |
| Lowering.AccTView | mlir/lib/Conversion/RiseToImperative/ConvertRiseToImperative.cpp:655-702 | split's and join's translations only append; the marker and type of the destination are stated by SplitWritesThroughSplitAcc, JoinWritesThroughJoinAcc and ReshapeOfNonApplication |
| Lowering.AccTLambda | mlir/lib/Conversion/RiseToImperative/ConvertRiseToImperative.cpp:703-728 | an applied lambda's translation only appends; the reversed arguments and the substitution are stated by AppliedLambdaSubstitutes and AppliedLambdaBindsReversed |
| Lowering.AccTBinary | mlir/lib/Conversion/RiseToImperative/ConvertRiseToImperative.cpp:729-763 | add's and mult's translations only append; the operation they assign to out is stated by AccTAssignsOnce |
| Lowering.AccTReturn | mlir/lib/Conversion/RiseToImperative/ConvertRiseToImperative.cpp:179-217 | the translation of a returned value only appends; the embed case is stated by ReturnedEmbedIsCopied and ReturnedEmbedArity |
| Lowering.ConT | mlir/lib/Conversion/RiseToImperative/ConvertRiseToImperative.cpp:771-1058 | the continuation translation only appends; its cases are stated by ConTLeavesMarker, ConTOfZip, ConTOfPad, ConTOfMap, ConTOfEmbed, ConTOfScalarLiteral, ConTOfArrayLiteral, ConTOfTupleLiteralOrLambda and ConTKeepsValue |
| Lowering.ConTLiteral | mlir/lib/Conversion/RiseToImperative/ConvertRiseToImperative.cpp:778-841 | a literal's translation only appends; its cases are stated by ConTOfScalarLiteral, ConTOfArrayLiteral and ConTOfTupleLiteralOrLambda |
| Lowering.ConTApply | mlir/lib/Conversion/RiseToImperative/ConvertRiseToImperative.cpp:861-1023 | an application's translation only appends; its cases are stated by ConTLeavesMarker, ConTOfZip, ConTOfPad and ConTOfMap |
| Lowering.ConTMap | mlir/lib/Conversion/RiseToImperative/ConvertRiseToImperative.cpp:968-1020 | a map's translation only appends; the fresh buffer and the acceptor translation into it are stated by ConTOfMap |
| Lowering.ConTEach | mlir/lib/Conversion/RiseToImperative/ConvertRiseToImperative.cpp:1027-1033 | translating an embed's operands yields one value per operand and only appends |
| Lowering.VerifiedTargetsLower | mlir/lib/Dialect/Rise/IR/Ops.cpp:362-393 | every target the parser accepts selects a loop in the lowering, so a parsed program never takes the uninitialised-loop path |
| Lowering.MapLowersToLoop | mlir/lib/Conversion/RiseToImperative/ConvertRiseToImperative.cpp:430-632 | a map that lowers has a lambda f and an array output. Its statements are those the input's translation emitted, followed by one loop from 0 to n with step 1, of the kind its target selects, over a fresh induction variable iv. The loop body is the acceptor translation of f applied to element iv of the translated input, written into element iv of out |
| Lowering.ReduceLowersToLoop | mlir/lib/Conversion/RiseToImperative/ConvertRiseToImperative.cpp:231-428 | a reduction that lowers has a lambda f and an input that translates to an array. After what the translations of the input and of the initial value emitted, it assigns the translated initial value to out (to out[0] when out is an array). It then loops from 0 to n with step 1 over a fresh iv. The loop body is the acceptor translation, into out, of f applied to out and element iv of the translated input |
| Lowering.SplitWritesThroughSplitAcc | mlir/lib/Conversion/RiseToImperative/ConvertRiseToImperative.cpp:655-679 | split of an application writes its input through splitAcc of out, typed as the flat n*m array |
| Lowering.JoinWritesThroughJoinAcc | mlir/lib/Conversion/RiseToImperative/ConvertRiseToImperative.cpp:680-702 | join of an application writes its input through joinAcc of out, typed as the n.m array |
| Lowering.ReshapeOfNonApplication | mlir/lib/Conversion/RiseToImperative/ConvertRiseToImperative.cpp:655-702 | split or join of a block argument faults; of another non-application it only warns |
| Lowering.ApplyArgumentsReversed | mlir/lib/Conversion/RiseToImperative/ConvertRiseToImperative.cpp:708-711 | the lambda receives the application's arguments in reverse order |
| Lowering.AppliedLambdaSubstitutes | mlir/lib/Conversion/RiseToImperative/ConvertRiseToImperative.cpp:703-728 | an applied lambda with too many arguments faults. Otherwise its translation is that of its returned value after substituting the reversed arguments |
| Lowering.AppliedLambdaBindsReversed | mlir/lib/Conversion/RiseToImperative/ConvertRiseToImperative.cpp:703-728 | with distinct parameters, parameter k is bound to the k-th argument from the end |
| Lowering.AccTOfUnknownFunction | mlir/lib/Conversion/RiseToImperative/ConvertRiseToImperative.cpp:764-768 | an application of anything other than a block argument, a lambda or a combinator the translation handles only emits a remark naming the function and writes nothing into out |
| Lowering.AccTAssignsOnce | mlir/lib/Conversion/RiseToImperative/ConvertRiseToImperative.cpp:633-654 | fst, snd, add and mult end with one f32 assignment to out of the projection or binary operation they denote |
| Lowering.ReturnedEmbedIsCopied | mlir/lib/Conversion/RiseToImperative/ConvertRiseToImperative.cpp:190-212 | a returned embed has its operands translated, is copied under a fresh identity, and is assigned to out |
| Lowering.ReturnedEmbedArity | mlir/lib/Conversion/RiseToImperative/ConvertRiseToImperative.cpp:194-197 | a returned embed whose operand and block-argument counts differ fails the assertion |
| Lowering.ConTLeavesMarker | mlir/lib/Conversion/RiseToImperative/ConvertRiseToImperative.cpp:888-953 | fst, snd, split, join, transpose and slide become their intermediate operation on the translated input |
| Lowering.ConTOfZip | mlir/lib/Conversion/RiseToImperative/ConvertRiseToImperative.cpp:863-887 | zip of two arrays becomes the zip intermediate of the translated inputs with the tuple array type, and zip of a non-array faults |
| Lowering.ConTOfPad | mlir/lib/Conversion/RiseToImperative/ConvertRiseToImperative.cpp:954-966 | pad becomes the pad intermediate of the translated pad value and array |
| Lowering.ConTOfMap | mlir/lib/Conversion/RiseToImperative/ConvertRiseToImperative.cpp:968-1020 | continuing a map allocates a fresh n-element buffer in a fresh embed and writes the map into it through the acceptor translation |
| Lowering.ConTKeepsValue | mlir/lib/Conversion/RiseToImperative/ConvertRiseToImperative.cpp:1037-1056 | `in`, other operations and block arguments are returned unchanged. All but `in` leave a diagnostic; the informational remark the source emits for `in` is not modelled |
| Lowering.ConTOfEmbed | mlir/lib/Conversion/RiseToImperative/ConvertRiseToImperative.cpp:1024-1036 | an embed keeps its identity and region and gets its operands translated |
| Lowering.ConTOfScalarLiteral | mlir/lib/Conversion/RiseToImperative/ConvertRiseToImperative.cpp:789-804 | a scalar literal becomes a fresh embed returning the float constant |
| Lowering.ConTOfArrayLiteral | mlir/lib/Conversion/RiseToImperative/ConvertRiseToImperative.cpp:806-836 | an array literal allocates a fresh buffer of its shape and fills it with the literal's first element |
| Lowering.ConTOfTupleLiteralOrLambda | mlir/lib/Conversion/RiseToImperative/ConvertRiseToImperative.cpp:838-860 | a tuple literal or a lambda yields no value, which is falling off the end of the function |
| Lowering.Lower | mlir/lib/Conversion/RiseToImperative/ConvertRiseToImperative.cpp:72-97 | lowering from the out operation only appends |
| Lowering.LowerOfApplication | mlir/lib/Conversion/RiseToImperative/ConvertRiseToImperative.cpp:72-97 | with no out operation or a block-argument result lowering faults; an application result is translated by the acceptor translation into the out buffer cast to the result's type, and a successful translation goes on to code generation |
| Lowering.AssignsAppend | mlir/lib/Conversion/RiseToImperative/ConvertRiseToImperative.cpp:122-134 | the walk collecting assignments distributes over concatenation, so their order is emission order |
| Lowering.Rewrite | mlir/lib/Conversion/RiseToImperative/ConvertRiseToImperative.cpp:62-176 | a completed rewrite generates one store per assignment it collected |
| Lowering.RewriteStopsOnNonApplication | mlir/lib/Conversion/RiseToImperative/ConvertRiseToImperative.cpp:91-97 | when out is given neither an application nor a block argument, the rewrite only reports it and stops |
| Cleanup.ChosenMembers | mlir/lib/Conversion/RiseToImperative/ConvertRiseToImperative.cpp:99-117 | a sweep collects exactly the operations it erases |
| Cleanup.WithoutMembers | mlir/lib/Conversion/RiseToImperative/ConvertRiseToImperative.cpp:99-117 | erasing keeps exactly the operations that are neither erased nor nested in an erased one |
| Cleanup.ErasedUnion | mlir/lib/Conversion/RiseToImperative/ConvertRiseToImperative.cpp:99-117 | an operation is gone after erasing a union exactly when it is gone after erasing one part |
| Cleanup.WithoutNothing | mlir/lib/Conversion/RiseToImperative/ConvertRiseToImperative.cpp:99-117 | erasing nothing leaves the body unchanged |
| Cleanup.WithoutTwice | mlir/lib/Conversion/RiseToImperative/ConvertRiseToImperative.cpp:99-117 | erasing in two rounds equals erasing the union at once |
| Cleanup.DoomedByNesting | mlir/lib/Conversion/RiseToImperative/ConvertRiseToImperative.cpp:99-173 | when the lambda and embed flags agree with the enclosing operations, the first sweep erases exactly the functional operations no lambda encloses, and the second exactly the dialect operations no lambda or embed encloses |
| Cleanup.SurvivorsOfSweep | mlir/lib/Conversion/RiseToImperative/ConvertRiseToImperative.cpp:99-173 | after a sweep an operation remains exactly when it is not doomed and no doomed operation encloses it |
| Cleanup.CodeGenSweepLeavesOnlyRegions | mlir/lib/Conversion/RiseToImperative/ConvertRiseToImperative.cpp:152-173 | after the second sweep every remaining dialect operation is flagged as inside a lambda or an embed, and in a well-nested body some lambda or embed of the body encloses it |
| Cleanup.LoweringSweepKeepsImperative | mlir/lib/Conversion/RiseToImperative/ConvertRiseToImperative.cpp:99-117 | the first sweep keeps every non-functional operation, such as emitted assignments and loops, that is not nested in an erased one |
| Cleanup.ForeignOpsSurvive | mlir/lib/Conversion/RiseToImperative/ConvertRiseToImperative.cpp:99-173 | operations of other dialects survive both sweeps unless nested in an erased operation |
| Cleanup.FunctionBody.Matches | mlir/lib/Conversion/RiseToImperative/ConvertRiseToImperative.cpp:43-60 | a function is lowered exactly when it has a body and that body contains a `rise.in` |
| Cleanup.FunctionBody.Collect | mlir/lib/Conversion/RiseToImperative/ConvertRiseToImperative.cpp:99-117 | the walk collects the doomed operations, in walk order |
| Cleanup.FunctionBody.EraseAll | mlir/lib/Conversion/RiseToImperative/ConvertRiseToImperative.cpp:108-116 | popping and erasing the collected operations leaves the body without them and without what they enclose |
| Cleanup.FunctionBody.RunSweep | mlir/lib/Conversion/RiseToImperative/ConvertRiseToImperative.cpp:99-173 | one sweep leaves exactly its survivors |
| Strategies.FuseReduceMap | mlir/include/mlir/Dialect/Rise/Elevate/algorithmic.h:23-57 | the strategy matches exactly reduceSeq(f, init, mapSeq(g, x)) whose f, init and g are operation results, and builds reduceSeq(λ(y,acc). f(g(y), acc), init, x) |
| Strategies.FuseReduceMapGuarded | mlir/include/mlir/Dialect/Rise/Elevate/algorithmic.h:23-57 | the guarded strategy never crashes, matches exactly reduceSeq over mapSeq, and builds the same fused reduction |
| Strategies.FuseReduceMapGuardedAgrees | mlir/include/mlir/Dialect/Rise/Elevate/algorithmic.h:23-57 | wherever the strategy does not crash, the guarded one gives the same answer |
| Strategies.FuseReduceMapCrashesOnParameterInit | mlir/include/mlir/Dialect/Rise/Elevate/algorithmic.h:32-52 | on a reduction whose init is a block argument the strategy crashes, while the guarded one rewrites |
| Strategies.FuseReduceMapCrashesOnPartialReduction | mlir/include/mlir/Dialect/Rise/Elevate/algorithmic.h:32-40 | a reduceSeq applied to only two operands makes the strategy read a missing operand |
| Strategies.SplitJoin | mlir/include/mlir/Dialect/Rise/Elevate/algorithmic.h:62-87 | a mapSeq(f, x) whose length the C remainder divides evenly by n becomes join(mapSeq2D(f, split(n, x))). It fails exactly on a non-application, a non-map, or a non-zero remainder. It crashes exactly on a block argument in function position, and, for a mapSeq, on n = 0, on INT_MIN % -1, and on a missing operand or a block-argument lambda once the remainder is zero |
| Strategies.RemainderOfNatural | mlir/include/mlir/Dialect/Rise/Elevate/algorithmic.h:74 | on natural lengths and positive n, the C remainder is the mathematical one |
| Strategies.SplitJoinDivides | mlir/include/mlir/Dialect/Rise/Elevate/algorithmic.h:62-87 | for positive n, the strategy succeeds on a mapSeq application exactly when n divides its length |
| Strategies.AddIdAfter | mlir/include/mlir/Dialect/Rise/Elevate/algorithmic.h:93-112 | every application gets wrapped in id, and anything else fails |
| Strategies.CreateTransposePair | mlir/include/mlir/Dialect/Rise/Elevate/algorithmic.h:116-136 | id applied to a two-dimensional array becomes transpose(transpose(x)), and it crashes only on a block argument in function position or a missing operand |
| Strategies.RemoveTransposePair | mlir/include/mlir/Dialect/Rise/Elevate/algorithmic.h:140-161 | transpose(transpose(x)), with x an operation result, rewrites to x, which is a strict subterm |
| Strategies.RemoveUndoesCreate | mlir/include/mlir/Dialect/Rise/Elevate/algorithmic.h:116-161 | removing the pair that creating inserted gives back the original operand, unless it is a block argument |
| Strategies.RemoveTransposeOfTranspose | mlir/include/mlir/Dialect/Rise/Elevate/algorithmic.h:140-161 | transpose(transpose(x)) rewrites to x for every operation result x |
| Strategies.MapMapFBeforeTranspose | mlir/include/mlir/Dialect/Rise/Elevate/algorithmic.h:166-220 | transpose(mapSeq(λ. mapSeq(f, .), x)) with both lambdas eta-reducible matches, and becomes the two maps swapped over transpose(x), with the inner input as written in the source |
| Strategies.MapMapFBeforeTransposeFixed | mlir/include/mlir/Dialect/Rise/Elevate/algorithmic.h:166-220 | the corrected strategy matches the same terms and maps f over the new lambda's own parameter |
| Strategies.MapMapFUsesUnboundArgument | mlir/include/mlir/Dialect/Rise/Elevate/algorithmic.h:214-216 | on a concrete term the as-written rewrite mentions a block argument bound nowhere in its input, and its new lambda ignores its parameter |
| Strategies.MapMapFFixedIsClosed | mlir/include/mlir/Dialect/Rise/Elevate/algorithmic.h:166-220 | the corrected rewrite uses no free argument that the original term and f did not, and its new lambda uses its parameter |

## Left out

- The pass plumbing and the registration of the conversion pattern are not modelled. This
  covers `runOnFunction`, the conversion target, the greedy pattern driver and the pass
  registry. The model starts at the pattern's `match` and `rewrite`.
- Remarks and debug dumps are not modelled. The model records them only where they
  stand in for behaviour, as diagnostics after which the source carries on. The remark that `ConT` emits for `rise.in` is
  purely informational and is not recorded.
- Floating-point values are not modelled. Literal text is kept as text, and
  `std::stof` is not modelled. Float add and multiply are modelled only as the operations
  emitted, not as arithmetic.
- `AccT` of a reduction does not model the branch that defines a new accumulator: the
  model keeps the path that writes into `out`. `reduceSeq`'s loop body is modelled as the
  statements emitted, not as their execution.
- Whether a loop or access is `affine` or `scf` is kept only as the loop kind. The
  separate load and store operations of the two dialects are modelled as one `Load` and
  one store.
- The textual parsers' own mechanics (tokens, attribute syntax, error locations) are
  not modelled. The model covers the type computations and the lowering-target check they
  perform.
- The strategies' builders (`reduceSeq`, `mapSeq`, `mapSeq2D`, `lambda`, `apply`,
  `split`, `join`) build their result types by inference. Those types are not modelled:
  terms built by them carry the placeholder type `Inferred`.
- `mapMapFBeforeTranspose` calls `etaReducible`, which is not part of this model. It is a
  parameter of the strategy here.
- `mapPar` has no parallel loop semantics in the model. It also differs from `mapSeq` in
  the input it indexes, as in the source: `mapSeq` indexes a memref input by its last
  dimension and crashes on a block-argument input, whose defining operation it asks
  for, while `mapPar` does neither (`Lowering.MapInput`, through its `sequential` flag).
- `Attributes.h` (attribute storage for the dialect) is not part of this model.
- The IR is a DAG with in-place mutation in the source. The model reads it as a tree of
  values:
  - Sharing and use-def chains are not modelled.
  - `setOperand` is modelled as building a new value.
  - Insertion points are modelled as the order of emitted statements.
- Termination of `AccT`, `ConT`, `codeGen` and `codeGenStore` is not proved. Each takes a
  `fuel` bound, because substitution can make a lambda's body larger. Running out of
  fuel is reported as a fault that the source has no counterpart for.
- `Nat` holds an unbounded integer. The source keeps `int` values, so overflow of Rise
  sizes and of `n*m` in the type computations is not modelled. Index arithmetic in
  generated code is modelled at 64 bits.
- Fresh SSA values are modelled as fresh identities (`Gen.next`, or a caller-given
  `first`, `y`, `acc` or `elem` for the strategies). Constant index operations such as
  zero are modelled as constants rather than as separately emitted operations.
- Every strategy except `addIdAfter` asks for the defining operation of operand 0 of an
  application, which is null when that operand is a block argument. The model reports
  this as `Abort`.
- Strategies.SplitJoinDivides: stated only for positive `n` and non-negative lengths. For
  those the C remainder agrees with the mathematical one. The general case is stated by
  `Strategies.SplitJoin` itself.
- Cleanup.FunctionBody.Collect: the function body's walk order is taken as given. The
  model does not derive the order of nested regions from the IR.
- Cleanup.FunctionBody.EraseAll: erasing an operation whose result is still used is not
  modelled as an error, because use-def chains are not part of the model.

### Where the lowering differs from its description

- `generateReadAccess` drops the first collected index whenever the number of indices
  differs from the target's rank, not only when there is one index too many. With no
  index at all, dropping one is undefined behaviour, which the model reports as a fault.
- An application of a function the acceptor translation has no case for only produces a
  remark. The lowering carries on, so nothing is written into `out`.
- `parseApplyOp` with no arguments still consumes one level of the function type, so it
  types like an application to one argument.

## Findings

| source | as written | input that shows it | evidently intended | confidence | as-written member | corrected member |
|---|---|---|---|---|---|---|
| mlir/include/mlir/Dialect/Rise/Elevate/algorithmic.h:32-52 | `fuseReduceMap` asks for the defining operation of the reduction's init, of the lambda f and of the map's lambda g, and asks whether the reduction has a third operand, without checking any of these | reduceSeq(λ(1,2).2, %arg0, mapSeq(λ3.3, %arg5)), where the init is a block argument, or a reduceSeq applied to only two operands | match reduceSeq over mapSeq and build the fused reduction whatever kind of value the operands are | not executed | Strategies.FuseReduceMap, Strategies.FuseReduceMapCrashesOnParameterInit | Strategies.FuseReduceMapGuarded, Strategies.FuseReduceMapGuardedAgrees |
| mlir/include/mlir/Dialect/Rise/Elevate/algorithmic.h:214-216 | the new inner map is applied to `apply3.getOperand(2)`, the input of the original inner map, which is the old lambda's parameter | transpose(mapSeq(λ7. mapSeq(λ8.8, %7), %5)) rewrites to mapSeq(λ9. mapSeq(λ8.8, %7), transpose(%5)), where %7 is bound nowhere | apply the new inner map to the new lambda's own parameter | not executed | Strategies.MapMapFBeforeTranspose, Strategies.MapMapFUsesUnboundArgument | Strategies.MapMapFBeforeTransposeFixed, Strategies.MapMapFFixedIsClosed |
