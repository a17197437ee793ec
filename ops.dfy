// Types the Rise operations give their results: the fixed curried signatures of the
// combinators, the curried walk that types an application or a lambda, the check of the
// optional lowering-target attribute, and the result types of wrap, unwrap, idx and literal.
module RiseOps {
  import opened Outcomes
  import opened RiseTypes

  function Wrapped(d: DataType): MlirType { Rise(DataTypeWrapper(d)) }
  function Fun(input: MlirType, output: MlirType): MlirType { Rise(FunType(input, output)) }

  // ---------------------------------------------------------------------------------
  // Combinator signatures
  // ---------------------------------------------------------------------------------

  /** map: (s -> t) -> n.s -> n.t */
  function MapSeqType(n: Nat, s: DataType, t: DataType): MlirType
  {
    Fun(Fun(Wrapped(s), Wrapped(t)), Fun(Wrapped(Array(n, s)), Wrapped(Array(n, t))))
  }

  /** mapPar has its own parser, which builds the same type as mapSeq. */
  function MapParType(n: Nat, s: DataType, t: DataType): MlirType
  {
    Fun(Fun(Wrapped(s), Wrapped(t)), Fun(Wrapped(Array(n, s)), Wrapped(Array(n, t))))
  }

  /** reduce: (s -> t -> t) -> t -> n.s -> t */
  function ReduceSeqType(n: Nat, s: DataType, t: DataType): MlirType
  {
    Fun(Fun(Wrapped(s), Fun(Wrapped(t), Wrapped(t))),
        Fun(Wrapped(t), Fun(Wrapped(Array(n, s)), Wrapped(t))))
  }

  /** zip: n.s -> n.t -> n.(s x t) */
  function ZipType(n: Nat, s: DataType, t: DataType): MlirType
  {
    Fun(Wrapped(Array(n, s)), Fun(Wrapped(Array(n, t)), Wrapped(Array(n, Tuple(s, t)))))
  }

  /** tuple: s -> t -> s x t */
  function TupleType(s: DataType, t: DataType): MlirType
  {
    Fun(Wrapped(s), Fun(Wrapped(t), Wrapped(Tuple(s, t))))
  }

  /** fst: s x t -> s */
  function FstType(s: DataType, t: DataType): MlirType { Fun(Wrapped(Tuple(s, t)), Wrapped(s)) }

  /** snd: s x t -> t */
  function SndType(s: DataType, t: DataType): MlirType { Fun(Wrapped(Tuple(s, t)), Wrapped(t)) }

  /** add: t -> t -> t */
  function AddType(t: DataType): MlirType { Fun(Wrapped(t), Fun(Wrapped(t), Wrapped(t))) }

  /** mult: t -> t -> t */
  function MulType(t: DataType): MlirType { Fun(Wrapped(t), Fun(Wrapped(t), Wrapped(t))) }

  // ---------------------------------------------------------------------------------
  // Curry levels of a function type
  // ---------------------------------------------------------------------------------

  /** How many arguments a (curried) function type accepts. */
  function Levels(t: MlirType): nat
  {
    if IsFunType(t) then 1 + Levels(t.rise.output) else 0
  }

  /** The function type reached after descending `i` times into the output. */
  function Level(t: MlirType, i: nat): (l: MlirType)
    requires i < Levels(t)
    ensures IsFunType(l)
  {
    if i == 0 then t else Level(t.rise.output, i - 1)
  }

  /** The type of argument `i` of a function of type `t`. */
  function InputAt(t: MlirType, i: nat): MlirType
    requires i < Levels(t)
  {
    Level(t, i).rise.input
  }

  /** The type of an application of `t` to `k` arguments. */
  function OutputAfter(t: MlirType, k: nat): MlirType
    requires 1 <= k <= Levels(t)
  {
    Level(t, k - 1).rise.output
  }

  /** Level `i + 1` is the output of level `i`: the walk goes one output at a time. */
  lemma {:induction false} LevelOutput(t: MlirType, i: nat)
    requires i + 1 < Levels(t)
    ensures Level(t, i + 1) == Level(t, i).rise.output
  {
    if i > 0 {
      LevelOutput(t.rise.output, i - 1);
    }
  }

  /** Descending once keeps the levels below: level `i + 1` of `t` is level `i` of its output. */
  lemma {:induction false} LevelsOfOutput(t: MlirType, i: nat)
    requires IsFunType(t) && i < Levels(t.rise.output)
    ensures Level(t, i + 1) == Level(t.rise.output, i)
  {
  }

  // ---------------------------------------------------------------------------------
  // Typing applications and lambdas
  // ---------------------------------------------------------------------------------

  datatype TypingError =
    | NotAFunction
    | TooManyApplyArguments(maximum: nat)
    | TooManyLambdaParameters(count: nat)
    | NotAScalar
    | NotARankedMemRef
  {
    /** The diagnostic text for the two arity errors. */
    function Message(): string
    {
      match this
      case TooManyApplyArguments(i) => "expected a maximum " + NatToString(i) + " arguments for this function."
      case TooManyLambdaParameters(i) => ": number of arguments: " + NatToString(i) + " is too high for specified funType"
      case _ => ""
    }
  }

  function DigitChar(d: nat): char
    requires d < 10
  {
    "0123456789"[d]
  }

  /** Decimal rendering, as `std::to_string`. */
  function NatToString(n: nat): string
  {
    if n < 10 then [DigitChar(n)] else NatToString(n / 10) + [DigitChar(n % 10)]
  }

  /** What the curried walk produced: one type per argument and the innermost function type reached. */
  datatype CurryWalk = CurryWalk(argumentTypes: seq<MlirType>, innermost: MlirType)

  /** At least the input of the outermost level is recorded, even for no arguments. */
  function Steps(count: nat): nat { if count == 0 then 1 else count }

  /** The walk shared by the apply and lambda parsers: record the input of the outermost
      level, then for every further argument descend into the output, which must again be
      a function type; the error carries the argument position at which that failed. */
  method WalkCurriedType(funType: MlirType, count: nat) returns (r: Result<CurryWalk, nat>)
    requires IsFunType(funType)
    ensures r.Ok? <==> count <= Levels(funType)
    ensures r.Err? ==> r.error == Levels(funType)
    ensures r.Ok? ==>
      |r.value.argumentTypes| == Steps(count) &&
      (forall i :: 0 <= i < Steps(count) ==> r.value.argumentTypes[i] == InputAt(funType, i)) &&
      r.value.innermost == Level(funType, Steps(count) - 1)
  {
    var current := funType;
    var argumentTypes := [current.rise.input];
    var i := 1;
    while i < count
      invariant 1 <= i <= Steps(count)
      invariant i <= Levels(funType)
      invariant current == Level(funType, i - 1)
      invariant |argumentTypes| == i
      invariant forall k :: 0 <= k < i ==> argumentTypes[k] == InputAt(funType, k)
    {
      LevelsEnd(funType, i - 1);
      if IsFunType(current.rise.output) {
        LevelOutput(funType, i - 1);
        current := current.rise.output;
        argumentTypes := argumentTypes + [current.rise.input];
      } else {
        return Err(i);
      }
      i := i + 1;
    }
    r := Ok(CurryWalk(argumentTypes, current));
  }

  /** When the output at level `i` is not a function type, the type has exactly `i + 1` levels. */
  lemma {:induction false} LevelsEnd(t: MlirType, i: nat)
    requires i < Levels(t)
    ensures IsFunType(Level(t, i).rise.output) <==> i + 1 < Levels(t)
  {
    if i > 0 {
      LevelsEnd(t.rise.output, i - 1);
    }
  }

  /** The typing of `rise.apply %f %a1 ... %ak`. */
  datatype ApplyTyping = ApplyTyping(argumentTypes: seq<MlirType>, resultType: MlirType)

  /** Types an application of a value of type `funOperandType` to `count` arguments: argument
      `i` gets the input type of curry level `i` and the application the output reached after
      the last argument. A function operand that is not a function type is an error (the
      parser dereferences the failed cast). With no arguments the input of the outermost level
      is still recorded, so the result type is that of a one-argument application. */
  method ParseApplyTypes(funOperandType: MlirType, count: nat) returns (r: Result<ApplyTyping, TypingError>)
    ensures !IsFunType(funOperandType) ==> r == Err(NotAFunction)
    ensures IsFunType(funOperandType) ==>
      (r.Ok? <==> count <= Levels(funOperandType)) &&
      (r.Err? ==> r.error == TooManyApplyArguments(Levels(funOperandType)))
    ensures r.Ok? ==>
      IsFunType(funOperandType) &&
      |r.value.argumentTypes| == Steps(count) &&
      (forall i :: 0 <= i < Steps(count) ==> r.value.argumentTypes[i] == InputAt(funOperandType, i)) &&
      r.value.resultType == OutputAfter(funOperandType, Steps(count))
  {
    if !IsFunType(funOperandType) {
      return Err(NotAFunction);
    }
    var walk := WalkCurriedType(funOperandType, count);
    if walk.Err? {
      return Err(TooManyApplyArguments(walk.error));
    }
    r := Ok(ApplyTyping(walk.value.argumentTypes, walk.value.innermost.rise.output));
  }

  /** The typing of `rise.lambda (%p1, ..., %pk) : funType`. */
  datatype LambdaTyping = LambdaTyping(parameterTypes: seq<MlirType>, resultType: MlirType)

  /** Types a lambda with `count` parameters declared with type `funType`: parameter `i` gets
      the input type of curry level `i`, and the lambda's own type is exactly `funType`. */
  method ParseLambdaTypes(funType: RiseType, count: nat) returns (r: Result<LambdaTyping, TypingError>)
    requires funType.FunType?
    ensures r.Ok? <==> count <= Levels(Rise(funType))
    ensures r.Err? ==> r.error == TooManyLambdaParameters(Levels(Rise(funType)))
    ensures r.Ok? ==>
      r.value.resultType == Rise(funType) &&
      |r.value.parameterTypes| == Steps(count) &&
      (forall i :: 0 <= i < Steps(count) ==> r.value.parameterTypes[i] == InputAt(Rise(funType), i))
  {
    var walk := WalkCurriedType(Rise(funType), count);
    if walk.Err? {
      return Err(TooManyLambdaParameters(walk.error));
    }
    r := Ok(LambdaTyping(walk.value.argumentTypes, Rise(funType)));
  }

  // ---------------------------------------------------------------------------------
  // What the signatures mean once applied
  // ---------------------------------------------------------------------------------

  /** map takes a function s -> t and an n.s array and yields an n.t array; after the function
      alone it is a function from n.s arrays to n.t arrays. */
  lemma MapSeqApplication(n: Nat, s: DataType, t: DataType)
    ensures Levels(MapSeqType(n, s, t)) == 2
    ensures InputAt(MapSeqType(n, s, t), 0) == Fun(Wrapped(s), Wrapped(t))
    ensures InputAt(MapSeqType(n, s, t), 1) == Wrapped(Array(n, s))
    ensures OutputAfter(MapSeqType(n, s, t), 1) == Fun(Wrapped(Array(n, s)), Wrapped(Array(n, t)))
    ensures OutputAfter(MapSeqType(n, s, t), 2) == Wrapped(Array(n, t))
  {
    var f := MapSeqType(n, s, t);
    assert Levels(f.rise.output) == 1 + Levels(Wrapped(Array(n, t)));
    LevelOutput(f, 0);
  }

  lemma MapParIsMapSeq(n: Nat, s: DataType, t: DataType)
    ensures MapParType(n, s, t) == MapSeqType(n, s, t)
  {
  }

  /** reduce takes the reducing function s -> t -> t, the initial t and an n.s array and yields a t. */
  lemma ReduceSeqApplication(n: Nat, s: DataType, t: DataType)
    ensures Levels(ReduceSeqType(n, s, t)) == 3
    ensures InputAt(ReduceSeqType(n, s, t), 0) == Fun(Wrapped(s), Fun(Wrapped(t), Wrapped(t)))
    ensures InputAt(ReduceSeqType(n, s, t), 1) == Wrapped(t)
    ensures InputAt(ReduceSeqType(n, s, t), 2) == Wrapped(Array(n, s))
    ensures OutputAfter(ReduceSeqType(n, s, t), 3) == Wrapped(t)
  {
    var f := ReduceSeqType(n, s, t);
    assert Levels(f.rise.output.rise.output) == 1 + Levels(Wrapped(t));
    assert Levels(f.rise.output) == 2;
    LevelOutput(f, 0);
    LevelOutput(f, 1);
  }

  /** zip takes an n.s and an n.t array and yields an n.(s x t) array. */
  lemma ZipApplication(n: Nat, s: DataType, t: DataType)
    ensures Levels(ZipType(n, s, t)) == 2
    ensures InputAt(ZipType(n, s, t), 0) == Wrapped(Array(n, s))
    ensures InputAt(ZipType(n, s, t), 1) == Wrapped(Array(n, t))
    ensures OutputAfter(ZipType(n, s, t), 2) == Wrapped(Array(n, Tuple(s, t)))
  {
    var f := ZipType(n, s, t);
    assert Levels(f.rise.output) == 1 + Levels(Wrapped(Array(n, Tuple(s, t))));
    LevelOutput(f, 0);
  }

  /** tuple takes an s and a t and yields an s x t. */
  lemma TupleApplication(s: DataType, t: DataType)
    ensures Levels(TupleType(s, t)) == 2
    ensures InputAt(TupleType(s, t), 0) == Wrapped(s)
    ensures InputAt(TupleType(s, t), 1) == Wrapped(t)
    ensures OutputAfter(TupleType(s, t), 2) == Wrapped(Tuple(s, t))
  {
    var f := TupleType(s, t);
    assert Levels(f.rise.output) == 1 + Levels(Wrapped(Tuple(s, t)));
    LevelOutput(f, 0);
  }

  /** fst and snd take an s x t and yield its first, respectively second, component type. */
  lemma ProjectionApplication(s: DataType, t: DataType)
    ensures Levels(FstType(s, t)) == 1 && Levels(SndType(s, t)) == 1
    ensures InputAt(FstType(s, t), 0) == Wrapped(Tuple(s, t)) && OutputAfter(FstType(s, t), 1) == Wrapped(s)
    ensures InputAt(SndType(s, t), 0) == Wrapped(Tuple(s, t)) && OutputAfter(SndType(s, t), 1) == Wrapped(t)
  {
  }

  /** add and mult take two t and yield a t. */
  lemma ArithmeticApplication(t: DataType)
    ensures AddType(t) == MulType(t)
    ensures Levels(AddType(t)) == 2
    ensures InputAt(AddType(t), 0) == Wrapped(t) && InputAt(AddType(t), 1) == Wrapped(t)
    ensures OutputAfter(AddType(t), 2) == Wrapped(t)
  {
    var f := AddType(t);
    assert Levels(f.rise.output) == 1 + Levels(Wrapped(t));
    LevelOutput(f, 0);
  }

  // ---------------------------------------------------------------------------------
  // The optional lowering target of mapSeq, mapPar and reduceSeq
  // ---------------------------------------------------------------------------------

  datatype AttrValue = StringAttr(text: string) | OtherAttr(kind: string)
  datatype NamedAttr = NamedAttr(name: string, value: AttrValue)

  const LoweringTargets: seq<string> := ["affine", "loop"]

  /** A non-empty attribute dictionary is accepted when its FIRST entry is `to` with a string
      naming one of the lowering targets; the remaining entries are not looked at. */
  predicate IsValidLowering(dict: seq<NamedAttr>)
  {
    |dict| == 0 ||
    (dict[0].name == "to" && dict[0].value.StringAttr? && dict[0].value.text in LoweringTargets)
  }

  /** The targets separated by ", ". */
  function Joined(targets: seq<string>): string
    requires |targets| > 0
  {
    if |targets| == 1 then targets[0]
    else Joined(targets[..|targets| - 1]) + ", " + targets[|targets| - 1]
  }

  /** Every target followed by ", ", as the message loop appends them. */
  function WithSeparators(targets: seq<string>): string
  {
    if |targets| == 0 then "" else WithSeparators(targets[..|targets| - 1]) + targets[|targets| - 1] + ", "
  }

  lemma {:induction false} WithSeparatorsIsJoined(targets: seq<string>)
    requires |targets| > 0
    ensures WithSeparators(targets) == Joined(targets) + ", "
  {
    if |targets| > 1 {
      WithSeparatorsIsJoined(targets[..|targets| - 1]);
    }
  }

  /** Builds the list of targets for the diagnostic: append each followed by ", ", then drop
      the last two characters. */
  method JoinTargets(targets: seq<string>) returns (s: string)
    requires |targets| > 0
    ensures s == Joined(targets)
  {
    var acc := "";
    for i := 0 to |targets|
      invariant acc == WithSeparators(targets[..i])
    {
      assert targets[..i + 1][..i] == targets[..i];
      acc := acc + targets[i];
      acc := acc + ", ";
    }
    assert targets[..|targets|] == targets;
    WithSeparatorsIsJoined(targets);
    s := acc[..|acc| - 1];
    s := s[..|s| - 1];
  }

  lemma LoweringTargetsMessage()
    ensures Joined(LoweringTargets) == "affine, loop"
  {
    assert LoweringTargets[..1] == ["affine"];
  }

  const InvalidLoweringMessage: string := "invalid lowering target specified. Use on of the following: to = "

  /** Checks the optionally parsed attribute dictionary. On success the kept attribute is the
      first entry (if any); on failure the message names the targets. */
  method ValidateLoweringTarget(dict: Option<seq<NamedAttr>>) returns (r: Result<Option<NamedAttr>, string>)
    ensures r.Ok? <==> (dict.None? || IsValidLowering(dict.value))
    ensures r.Ok? ==> r.value == (if dict.Some? && |dict.value| > 0 then Some(dict.value[0]) else None)
    ensures r.Err? ==> r.error == InvalidLoweringMessage + "affine, loop"
  {
    if dict.None? || |dict.value| == 0 {
      return Ok(None);
    }
    var first := dict.value[0];
    var validLowering := false;
    if first.name == "to" && first.value.StringAttr? {
      var text := first.value.text;
      var i := 0;
      while i < |LoweringTargets|
        invariant 0 <= i <= |LoweringTargets|
        invariant !validLowering ==> text !in LoweringTargets[..i]
        invariant validLowering ==> text in LoweringTargets
      {
        if LoweringTargets[i] == text {
          validLowering := true;
          break;
        }
        i := i + 1;
      }
      assert LoweringTargets[..|LoweringTargets|] == LoweringTargets;
    }
    if !validLowering {
      var names := JoinTargets(LoweringTargets);
      LoweringTargetsMessage();
      return Err(InvalidLoweringMessage + names);
    }
    r := Ok(Some(first));
  }

  // ---------------------------------------------------------------------------------
  // wrap, unwrap, idx and literal
  // ---------------------------------------------------------------------------------

  /** `rise.wrap` turns a value of any type T into a scalar of T. */
  function WrapResultType(operandType: MlirType): (r: MlirType)
    ensures r.Data? && r.data.Scalar? && r.data.wrapped == operandType
  {
    Data(Scalar(operandType))
  }

  /** `rise.unwrap` takes a scalar back to the type it wraps; any other operand type is an
      error (the parser dereferences the failed cast). */
  function UnwrapResultType(operandType: MlirType): (r: Result<MlirType, TypingError>)
    ensures r.Ok? <==> operandType.Data? && operandType.data.Scalar?
    ensures r.Ok? ==> WrapResultType(r.value) == operandType
    ensures r.Err? ==> r.error == NotAScalar
  {
    if operandType.Data? && operandType.data.Scalar? then Ok(operandType.data.wrapped) else Err(NotAScalar)
  }

  lemma WrapUnwrapRoundTrip(t: MlirType)
    ensures UnwrapResultType(WrapResultType(t)) == Ok(t)
  {
  }

  /** `rise.idx` on a memref yields a memref of f32 with the innermost dimension stripped off;
      a non-memref or rank-0 operand is an error. */
  function IdxResultType(inputType: MlirType): (r: Result<MlirType, TypingError>)
    ensures r.Ok? <==> inputType.MemRef? && |inputType.shape| >= 1
    ensures r.Ok? ==>
      r.value.MemRef? && r.value.element == F32 &&
      |r.value.shape| == |inputType.shape| - 1 &&
      r.value.shape + [inputType.shape[|inputType.shape| - 1]] == inputType.shape
  {
    if inputType.MemRef? && |inputType.shape| >= 1 then
      Ok(MemRef(inputType.shape[..|inputType.shape| - 1], F32))
    else
      Err(NotARankedMemRef)
  }

  /** `rise.literal` has the wrapped type its attribute carries. */
  function LiteralResultType(attributeType: DataType): (r: MlirType)
    ensures r.Rise? && r.rise.DataTypeWrapper? && r.rise.dataType == attributeType
    ensures Levels(r) == 0
  {
    Wrapped(attributeType)
  }
}
