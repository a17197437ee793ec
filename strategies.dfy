// The algorithmic rewrite strategies. A strategy looks at one expression (an operation
// of the function body, here its result value) and either fails to match, or builds a
// replacement term. The checks read the defining operations of operands; a block argument
// has none, and inspecting the missing operation, or reading an operand past the last,
// crashes (`Abort`). New terms are built with the high-level builders, whose result types
// are not modelled.
module Strategies {
  import opened Outcomes
  import opened RiseTypes
  import opened RiseIR
  import opened Int64

  datatype RewriteResult = Success(term: Value) | Failure | Abort

  /** The type of a builder-made value, which the builders infer. */
  const Inferred: MlirType := Builtin("none")
  const ScalarF32: DataType := Scalar(F32)

  // ---------------------------------------------------------------------------------
  // Builders
  // ---------------------------------------------------------------------------------

  function ReduceSeqOf(t: DataType, lam: Value, init: Value, input: Value): Value
  {
    Built(ReduceSeqB(t), [lam, init, input])
  }

  function LambdaOf(params: seq<nat>, body: Value): Value { Built(LambdaB(params), [body]) }

  function ApplyOf(t: DataType, f: Value, args: seq<Value>): Value { Built(ApplyB(t), [f] + args) }

  function MapSeqOf(target: string, t: DataType, f: Value, input: Value): Value
  {
    Built(MapSeqB(target, t), [f, input])
  }

  function MapSeq2DOf(t: DataType, f: Value, input: Value): Value { Built(MapSeq2DB(t), [f, input]) }

  function SplitOf(n: int, input: Value): Value { Built(SplitB(n), [input]) }

  function JoinOf(input: Value): Value { Built(JoinB, [input]) }

  /** The transpose and id builders emit an application of the primitive. */
  function TransposeOf(x: Value): Value { Apply(PrimOp(TransposeP, Inferred), [x], Inferred) }

  function IdOf(x: Value): Value { Apply(PrimOp(IdP, Inferred), [x], Inferred) }

  // ---------------------------------------------------------------------------------
  // What the checks look for
  // ---------------------------------------------------------------------------------

  predicate IsReduceSeqOp(v: Value) { v.Op0? && v.k0.PrimK? && v.k0.prim.ReduceSeqP? }

  predicate IsMapSeqOp(v: Value) { v.Op0? && v.k0.PrimK? && v.k0.prim.MapSeqP? }

  predicate IsTransposeOp(v: Value) { v.Op0? && v.k0.PrimK? && v.k0.prim.TransposeP? }

  predicate IsIdOp(v: Value) { v.Op0? && v.k0.PrimK? && v.k0.prim.IdP? }

  /** The block arguments a value uses and does not bind itself. */
  function FreeArgs(v: Value): set<nat>
  {
    if v.Arg? then {v.id}
    else if v.Lambda? then FreeArgs(v.ret) - (set p | p in v.params)
    else if v.Embed? then ArgsOfAll(v, v.operands) + (FreeArgs(v.ret) - (set p | p in v.params))
    else if v.Built? && v.builder.LambdaB? then ArgsOfAll(v, v.operands) - (set p | p in v.builder.params)
    else ArgsOfAll(v, Children(v))
  }

  function ArgsOfAll(v: Value, cs: seq<Value>): set<nat>
    requires forall c :: c in cs ==> c < v
    decreases v, |cs|
  {
    if cs == [] then {}
    else
      assert cs[0] in cs && forall c :: c in cs[1..] ==> c in cs;
      FreeArgs(cs[0]) + ArgsOfAll(v, cs[1..])
  }

  lemma {:induction false} ArgsOfAllMember(v: Value, cs: seq<Value>, i: nat)
    requires forall c :: c in cs ==> c < v
    requires i < |cs|
    ensures FreeArgs(cs[i]) <= ArgsOfAll(v, cs)
  {
    if i > 0 {
      assert forall c :: c in cs[1..] ==> c in cs;
      ArgsOfAllMember(v, cs[1..], i - 1);
    }
  }

  lemma ArgsOfOne(v: Value, a: Value)
    requires a < v
    ensures ArgsOfAll(v, [a]) == FreeArgs(a)
  {
    assert [a][1..] == [];
  }

  lemma ArgsOfPair(v: Value, a: Value, b: Value)
    requires Children(v) == [a, b]
    ensures ArgsOfAll(v, [a, b]) == FreeArgs(a) + FreeArgs(b)
  {
    assert a in Children(v) && b in Children(v);
    assert [a, b][1..] == [b];
    ArgsOfOne(v, b);
  }

  lemma ArgsOfTriple(v: Value, a: Value, b: Value, c: Value)
    requires Children(v) == [a, b, c]
    ensures ArgsOfAll(v, [a, b, c]) == FreeArgs(a) + FreeArgs(b) + FreeArgs(c)
  {
    assert a in Children(v) && b in Children(v) && c in Children(v);
    assert [a, b, c][1..] == [b, c];
    assert [b, c][1..] == [c];
    ArgsOfOne(v, c);
  }

  // ---------------------------------------------------------------------------------
  // Fusing a reduction with the map that feeds it
  // ---------------------------------------------------------------------------------

  /** `e` is `reduceSeq(f, init, mapSeq(g, x))`, both applications complete. */
  predicate ReduceOfMap(e: Value)
  {
    e.Apply? && IsReduceSeqOp(e.fun) && |e.args| >= 3 &&
    e.args[2].Apply? && IsMapSeqOp(e.args[2].fun) && |e.args[2].args| >= 2
  }

  /** `reduceSeq(f32, λ(y, acc). f(g(y), acc), init, x)`. */
  function FusedReduction(f: Value, g: Value, init: Value, x: Value, y: nat, acc: nat): Value
  {
    var mapped := ApplyOf(ScalarF32, g, [Arg(y, Inferred)]);
    ReduceSeqOf(ScalarF32, LambdaOf([y, acc], ApplyOf(ScalarF32, f, [mapped, Arg(acc, Inferred)])), init, x)
  }

  /** The fusion as written. `y` and `acc` name the new lambda's block arguments. The
      reducing function, the initial value and the mapped function are used through their
      defining operations without a check that they have one. */
  function FuseReduceMap(e: Value, y: nat, acc: nat): (r: RewriteResult)
    ensures r.Success? <==>
      ReduceOfMap(e) && IsOpResult(e.args[0]) && IsOpResult(e.args[1]) && IsOpResult(e.args[2].args[0])
    ensures r.Success? ==>
      r.term == FusedReduction(e.args[0], e.args[2].args[0], e.args[1], e.args[2].args[1], y, acc)
  {
    if !e.Apply? then Failure
    else if e.fun.Arg? then Abort
    else if !IsReduceSeqOp(e.fun) then Failure
    else if |e.args| < 3 then Abort
    else
      var f, init, input := e.args[0], e.args[1], e.args[2];
      if input.Arg? then Abort
      else if !input.Apply? then Failure
      else if input.fun.Arg? then Abort
      else if !IsMapSeqOp(input.fun) then Failure
      else if |input.args| < 2 then Abort
      else
        var g, x := input.args[0], input.args[1];
        if f.Arg? || init.Arg? || g.Arg? then Abort
        else Success(FusedReduction(f, g, init, x, y, acc))
  }

  /** The fusion with the missing checks: an operand without a defining operation, or a
      partial application, is no match, and the operands are used as values. */
  function FuseReduceMapGuarded(e: Value, y: nat, acc: nat): (r: RewriteResult)
    ensures !r.Abort?
    ensures r.Success? <==> ReduceOfMap(e)
    ensures r.Success? ==>
      r.term == FusedReduction(e.args[0], e.args[2].args[0], e.args[1], e.args[2].args[1], y, acc)
  {
    if !e.Apply? || !IsReduceSeqOp(e.fun) || |e.args| < 3 then Failure
    else
      var input := e.args[2];
      if !input.Apply? || !IsMapSeqOp(input.fun) || |input.args| < 2 then Failure
      else Success(FusedReduction(e.args[0], input.args[0], e.args[1], input.args[1], y, acc))
  }

  /** The guarded fusion only differs where the one as written crashes. */
  lemma FuseReduceMapGuardedAgrees(e: Value, y: nat, acc: nat)
    ensures !FuseReduceMap(e, y, acc).Abort? ==> FuseReduceMapGuarded(e, y, acc) == FuseReduceMap(e, y, acc)
  {
  }

  /** A reduction whose initial value is a block argument, here the accumulator of an
      enclosing lambda, crashes the fusion as written; the guarded fusion fuses it. */
  lemma FuseReduceMapCrashesOnParameterInit()
    ensures var reduceOp := PrimOp(ReduceSeqP(Nat(4), ScalarF32, ScalarF32, None), Inferred);
            var mapOp := PrimOp(MapSeqP(Nat(4), ScalarF32, ScalarF32, None), Inferred);
            var f := Lambda([1, 2], Arg(2, Inferred), Inferred);
            var g := Lambda([3], Arg(3, Inferred), Inferred);
            var e := Apply(reduceOp, [f, Arg(0, Inferred), Apply(mapOp, [g, Arg(5, Inferred)], Inferred)], Inferred);
            FuseReduceMap(e, 6, 7) == Abort && FuseReduceMapGuarded(e, 6, 7).Success?
  {
  }

  /** Applying a partially applied reduction crashes the fusion as written. */
  lemma FuseReduceMapCrashesOnPartialReduction(f: Value, init: Value)
    ensures var reduceOp := PrimOp(ReduceSeqP(Nat(4), ScalarF32, ScalarF32, None), Inferred);
            FuseReduceMap(Apply(reduceOp, [f, init], Inferred), 0, 1) == Abort
  {
  }

  // ---------------------------------------------------------------------------------
  // Splitting a map into a map over chunks
  // ---------------------------------------------------------------------------------

  /** `join(mapSeq2D(t, f, split(n, x)))`. */
  function SplitJoined(t: DataType, f: Value, x: Value, n: int): Value
  {
    JoinOf(MapSeq2DOf(t, f, SplitOf(n, x)))
  }

  /** Split-join with a chunk size `n`: the map's length must be a multiple of `n`, by
      the truncating remainder; a remainder by zero crashes, as does the one overflowing
      remainder of 32-bit operands. */
  function SplitJoin(e: Value, n: int): (r: RewriteResult)
    ensures r.Success? ==>
      e.Apply? && IsMapSeqOp(e.fun) && |e.args| >= 2 && IsOpResult(e.args[0]) && n != 0 &&
      TruncRem(e.fun.k0.prim.n.intValue, n) == 0 &&
      r.term == SplitJoined(e.fun.k0.prim.t, e.args[0], e.args[1], n)
    ensures r.Failure? <==>
      !e.Apply? || (!e.fun.Arg? && (!IsMapSeqOp(e.fun) ||
        (n != 0 && !(e.fun.k0.prim.n.intValue == -0x8000_0000 && n == -1) && TruncRem(e.fun.k0.prim.n.intValue, n) != 0)))
    ensures r.Abort? <==>
      e.Apply? && (e.fun.Arg? || (IsMapSeqOp(e.fun) &&
        (n == 0 || (e.fun.k0.prim.n.intValue == -0x8000_0000 && n == -1) ||
         (TruncRem(e.fun.k0.prim.n.intValue, n) == 0 && (|e.args| < 2 || e.args[0].Arg?)))))
  {
    if !e.Apply? then Failure
    else if e.fun.Arg? then Abort
    else if !IsMapSeqOp(e.fun) then Failure
    else
      var len := e.fun.k0.prim.n.intValue;
      if n == 0 || (len == -0x8000_0000 && n == -1) then Abort
      else if TruncRem(len, n) != 0 then Failure
      else if |e.args| < 2 || e.args[0].Arg? then Abort
      else Success(SplitJoined(e.fun.k0.prim.t, e.args[0], e.args[1], n))
  }

  lemma RemainderOfNatural(a: nat, b: int)
    requires b > 0
    ensures TruncRem(a, b) == a % b
  {
    assert a == b * (a / b) + a % b;
  }

  /** For a positive chunk size and a non-negative length, split-join applies exactly when
      the chunk size divides the length. */
  lemma {:induction false} SplitJoinDivides(e: Value, n: int)
    requires n > 0 && e.Apply? && IsMapSeqOp(e.fun) && e.fun.k0.prim.n.intValue >= 0
    requires |e.args| >= 2 && IsOpResult(e.args[0])
    ensures SplitJoin(e, n).Success? <==> e.fun.k0.prim.n.intValue % n == 0
  {
    RemainderOfNatural(e.fun.k0.prim.n.intValue, n);
  }

  // ---------------------------------------------------------------------------------
  // Identity and transposes
  // ---------------------------------------------------------------------------------

  /** Every application gets an identity after a copy of it (the copy is the same term). */
  function AddIdAfter(e: Value): (r: RewriteResult)
    ensures r.Failure? <==> !e.Apply?
    ensures !r.Abort?
    ensures r.Success? ==> r.term.Apply? && IsIdOp(r.term.fun) && r.term.args == [e]
  {
    if !e.Apply? then Failure else Success(IdOf(e))
  }

  /** An identity whose result is an array of arrays becomes two transposes. */
  function CreateTransposePair(e: Value): (r: RewriteResult)
    ensures r.Success? <==>
      e.Apply? && IsIdOp(e.fun) && IsArrayType(e.ty) && e.ty.data.elementType.Array? && |e.args| >= 1
    ensures r.Success? ==> r.term == TransposeOf(TransposeOf(e.args[0]))
    ensures r.Abort? ==> e.Apply? && (e.fun.Arg? || |e.args| == 0)
  {
    if !e.Apply? then Failure
    else if e.fun.Arg? then Abort
    else if !IsIdOp(e.fun) then Failure
    else if !IsArrayType(e.ty) then Failure
    else if !e.ty.data.elementType.Array? then Failure
    else if |e.args| < 1 then Abort
    else Success(TransposeOf(TransposeOf(e.args[0])))
  }

  /** Two transposes in a row are removed, when what they transpose is an op result. */
  function RemoveTransposePair(e: Value): (r: RewriteResult)
    ensures r.Success? <==>
      e.Apply? && IsTransposeOp(e.fun) && |e.args| >= 1 && e.args[0].Apply? &&
      IsTransposeOp(e.args[0].fun) && |e.args[0].args| >= 1 && IsOpResult(e.args[0].args[0])
    ensures r.Success? ==> r.term == e.args[0].args[0] && r.term < e
  {
    if !e.Apply? then Failure
    else if e.fun.Arg? then Abort
    else if !IsTransposeOp(e.fun) then Failure
    else if |e.args| < 1 then Abort
    else if !e.args[0].Apply? then Failure
    else
      var apply2 := e.args[0];
      if apply2.fun.Arg? then Abort
      else if !IsTransposeOp(apply2.fun) then Failure
      else if |apply2.args| < 1 then Abort
      else if apply2.args[0].Arg? then Failure
      else Success(apply2.args[0])
  }

  /** Removing the pair just created gives back what the identity was applied to, unless
      that is a block argument. */
  lemma {:induction false} RemoveUndoesCreate(e: Value)
    requires CreateTransposePair(e).Success?
    ensures RemoveTransposePair(CreateTransposePair(e).term) ==
      (if IsOpResult(e.args[0]) then Success(e.args[0]) else Failure)
  {
    var x := e.args[0];
    assert CreateTransposePair(e).term == TransposeOf(TransposeOf(x));
    assert IsTransposeOp(PrimOp(TransposeP, Inferred));
  }

  /** Any transpose of a transpose of an op result is removed. */
  lemma RemoveTransposeOfTranspose(x: Value)
    requires IsOpResult(x)
    ensures RemoveTransposePair(TransposeOf(TransposeOf(x))) == Success(x)
  {
    assert IsTransposeOp(PrimOp(TransposeP, Inferred));
  }

  // ---------------------------------------------------------------------------------
  // Moving a map of maps before a transpose
  // ---------------------------------------------------------------------------------

  /** `e` is `transpose(mapSeq(lamA, x))` where `lamA` returns `mapSeq(lamB, z)`, all
      applications complete. */
  predicate TransposeOfMapMap(e: Value)
  {
    e.Apply? && IsTransposeOp(e.fun) && |e.args| >= 1 &&
    e.args[0].Apply? && IsMapSeqOp(e.args[0].fun) && |e.args[0].args| >= 2 &&
    e.args[0].args[0].Lambda? &&
    e.args[0].args[0].ret.Apply? && IsMapSeqOp(e.args[0].args[0].ret.fun) &&
    |e.args[0].args[0].ret.args| >= 2 && e.args[0].args[0].ret.args[0].Lambda?
  }

  /** `mapSeq("affine", t1, λelem. mapSeq("affine", t2, lamB, inner), transpose(outer))`. */
  function MapsSwapped(t1: DataType, t2: DataType, lamB: Value, inner: Value, outer: Value, elem: nat): Value
  {
    MapSeqOf("affine", t1, LambdaOf([elem], MapSeqOf("affine", t2, lamB, inner)), TransposeOf(outer))
  }

  /** The movement as written: the inner map of the new term maps over the input of the
      inner map in `lamA`'s body. `etaReducible` is the check on the two lambdas;
      `elem` names the new lambda's block argument. */
  function MapMapFBeforeTranspose(e: Value, etaReducible: Value -> bool, elem: nat): (r: RewriteResult)
    ensures r.Success? <==>
      TransposeOfMapMap(e) && etaReducible(e.args[0].args[0]) && etaReducible(e.args[0].args[0].ret.args[0])
    ensures r.Success? ==>
      var apply2 := e.args[0];
      var apply3 := apply2.args[0].ret;
      r.term == MapsSwapped(apply2.fun.k0.prim.t, apply3.fun.k0.prim.t, apply3.args[0], apply3.args[1], apply2.args[1], elem)
  {
    if !e.Apply? then Failure
    else if e.fun.Arg? then Abort
    else if !IsTransposeOp(e.fun) then Failure
    else if |e.args| < 1 then Abort
    else if !e.args[0].Apply? then Failure
    else
      var apply2 := e.args[0];
      if apply2.fun.Arg? then Abort
      else if !IsMapSeqOp(apply2.fun) then Failure
      else if |apply2.args| < 1 then Abort
      else if !apply2.args[0].Lambda? then Failure
      else
        var lamA := apply2.args[0];
        if lamA.ret.Arg? then Abort
        else if !lamA.ret.Apply? then Failure
        else
          var apply3 := lamA.ret;
          if apply3.fun.Arg? then Abort
          else if !IsMapSeqOp(apply3.fun) then Failure
          else if |apply3.args| < 1 || apply3.args[0].Arg? then Abort
          else if !apply3.args[0].Lambda? then Failure
          else if !etaReducible(lamA) || !etaReducible(apply3.args[0]) then Failure
          else if |apply3.args| < 2 || |apply2.args| < 2 then Abort
          else Success(MapsSwapped(apply2.fun.k0.prim.t, apply3.fun.k0.prim.t, apply3.args[0], apply3.args[1], apply2.args[1], elem))
  }

  /** The movement as intended: the inner map maps over the new lambda's argument. */
  function MapMapFBeforeTransposeFixed(e: Value, etaReducible: Value -> bool, elem: nat): (r: RewriteResult)
    ensures r.Success? <==> MapMapFBeforeTranspose(e, etaReducible, elem).Success?
    ensures r.Success? ==>
      var apply2 := e.args[0];
      var apply3 := apply2.args[0].ret;
      r.term == MapsSwapped(apply2.fun.k0.prim.t, apply3.fun.k0.prim.t, apply3.args[0], Arg(elem, Inferred), apply2.args[1], elem)
  {
    var r := MapMapFBeforeTranspose(e, etaReducible, elem);
    if !r.Success? then r
    else
      var apply2 := e.args[0];
      var apply3 := apply2.args[0].ret;
      Success(MapsSwapped(apply2.fun.k0.prim.t, apply3.fun.k0.prim.t, apply3.args[0], Arg(elem, Inferred), apply2.args[1], elem))
  }

  // The counterexample: inside `transpose(mapSeq(λ7. mapSeq(λ8. 8, 7), 5))`.
  function ExampleMap(): Value { PrimOp(MapSeqP(Nat(4), ScalarF32, ScalarF32, None), Inferred) }

  function ExampleLamB(): Value { Lambda([8], Arg(8, Inferred), Inferred) }

  function ExampleLamA(): Value
  {
    Lambda([7], Apply(ExampleMap(), [ExampleLamB(), Arg(7, Inferred)], Inferred), Inferred)
  }

  function ExampleTerm(): Value { TransposeOf(Apply(ExampleMap(), [ExampleLamA(), Arg(5, Inferred)], Inferred)) }

  lemma ExampleRewrites()
    ensures MapMapFBeforeTranspose(ExampleTerm(), _ => true, 9) ==
      Success(MapSeqOf("affine", ScalarF32,
        LambdaOf([9], MapSeqOf("affine", ScalarF32, ExampleLamB(), Arg(7, Inferred))),
        TransposeOf(Arg(5, Inferred))))
  {
  }

  lemma ExampleArgs()
    ensures FreeArgs(ExampleTerm()) == {5} && FreeArgs(ExampleLamB()) == {}
  {
    var mapOp, lamB, lamA := ExampleMap(), ExampleLamB(), ExampleLamA();
    var inner := lamA.ret;
    var mapped := Apply(mapOp, [lamA, Arg(5, Inferred)], Inferred);
    assert FreeArgs(lamB) == {};
    assert FreeArgs(mapOp) == {};
    assert FreeArgs(inner) == {7} by {
      ArgsOfTriple(inner, mapOp, lamB, Arg(7, Inferred));
    }
    assert FreeArgs(lamA) == {};
    assert FreeArgs(mapped) == {5} by {
      ArgsOfTriple(mapped, mapOp, lamA, Arg(5, Inferred));
    }
    ArgsOfPair(ExampleTerm(), PrimOp(TransposeP, Inferred), mapped);
  }

  /** In the example, the term as written uses block argument 7 outside the lambda that
      binds it, and the new lambda ignores its own argument 9. */
  lemma MapMapFUsesUnboundArgument()
    ensures var r := MapMapFBeforeTranspose(ExampleTerm(), _ => true, 9);
            r.Success? && 7 in FreeArgs(r.term) && 7 !in FreeArgs(ExampleTerm()) + FreeArgs(ExampleLamB()) &&
            9 !in FreeArgs(r.term.operands[0].operands[0])
  {
    ExampleRewrites();
    ExampleArgs();
    var lamB := ExampleLamB();
    var body := MapSeqOf("affine", ScalarF32, lamB, Arg(7, Inferred));
    var r := MapMapFBeforeTranspose(ExampleTerm(), _ => true, 9);
    assert FreeArgs(body) == {7} by {
      ArgsOfPair(body, lamB, Arg(7, Inferred));
    }
    assert FreeArgs(LambdaOf([9], body)) == {7};
    assert 7 in FreeArgs(r.term) by {
      ArgsOfAllMember(r.term, r.term.operands, 0);
    }
  }

  /** The intended term uses no block argument that the original term or the copied
      inner lambda does not already use, and the new lambda uses its own argument. */
  lemma {:induction false} MapMapFFixedIsClosed(e: Value, etaReducible: Value -> bool, elem: nat)
    requires MapMapFBeforeTransposeFixed(e, etaReducible, elem).Success?
    ensures var r := MapMapFBeforeTransposeFixed(e, etaReducible, elem).term;
            FreeArgs(r) <= FreeArgs(e) + FreeArgs(e.args[0].args[0].ret.args[0]) &&
            elem in FreeArgs(r.operands[0].operands[0])
  {
    var apply2 := e.args[0];
    var lamB := apply2.args[0].ret.args[0];
    var r := MapMapFBeforeTransposeFixed(e, etaReducible, elem).term;
    var body := r.operands[0].operands[0];
    assert body == MapSeqOf("affine", apply2.args[0].ret.fun.k0.prim.t, lamB, Arg(elem, Inferred));
    assert FreeArgs(body) == FreeArgs(lamB) + {elem} by {
      ArgsOfPair(body, lamB, Arg(elem, Inferred));
    }
    assert FreeArgs(r.operands[0]) <= FreeArgs(lamB) by {
      ArgsOfOne(r.operands[0], body);
    }
    var t := TransposeOf(apply2.args[1]);
    assert FreeArgs(apply2.args[1]) <= FreeArgs(apply2) by {
      ArgsOfAllMember(apply2, Children(apply2), 2);
    }
    assert FreeArgs(apply2) <= FreeArgs(e) by {
      ArgsOfAllMember(e, Children(e), 1);
    }
    assert FreeArgs(PrimOp(TransposeP, Inferred)) == {};
    assert FreeArgs(t) <= FreeArgs(apply2.args[1]) by {
      ArgsOfPair(t, PrimOp(TransposeP, Inferred), apply2.args[1]);
    }
    ArgsOfPair(r, r.operands[0], t);
  }
}
