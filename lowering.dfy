// Lowering a Rise program to imperative form: the acceptor translation `AccT` (an
// application, and the value a lambda or embed returns, is written into an output
// location) and the continuation translation `ConT` (a value is made readable). The
// translation emits assignments, loops and fills; the index bookkeeping in the
// assignments is left to code generation (module CodeGen).
//
// The source mutates the IR in place through a rewriter; here the emitted statements,
// the generator of fresh identities and the diagnostics are threaded through pure
// functions. A bound `fuel` stands in for termination, since substitution can make a
// lambda's body larger than the application it came from.
module Lowering {
  import opened Outcomes
  import opened RiseTypes
  import opened RiseOps
  import opened RiseIR
  import AccessPaths
  import opened CodeGen

  /** The loop a map or reduction becomes: `scf.for` (target "loop") or `affine.for`. */
  datatype LoopKind = ScfFor | AffineFor

  /** The imperative statements the lowering emits. */
  datatype Stmt =
    | Assign(assign: AssignOp)
    | For(kind: LoopKind, lower: int, upper: int, step: int, iv: nat, body: seq<Stmt>)
    | Fill(buffer: Value, fillText: string)

  /** Diagnostics after which the lowering carries on. */
  datatype Diag =
    | OutTypeNotRise(out: Value)
    | CannotLower(fun: Value)
    | SplitInputNotApply
    | JoinInputNotApply
    | ReturnOfArgument
    | ReturnWentWrong
    | BlockArgLeftAsIs(arg: Value)
    | LeftAsIs(v: Value)
    | OutNotApply

  /** The ways the lowering crashes or has undefined behaviour in the source: asking a
      block argument for its defining operation, a missing operand, a failed cast or
      assertion, an unknown loop target (an uninitialised loop body), falling off the end
      of `ConT` without a value, and running out of fuel. */
  datatype LoweringFault =
    | AppliedBlockArgument
    | MissingOperand
    | LambdaExpected
    | NoIndexIntoInput
    | EmptyShape
    | OutNotArray
    | UnknownLoweringTarget
    | EmbedArityMismatch
    | ZipInputsNotArrays
    | NoValueReturned
    | TooManyLambdaArguments
    | NoOutOp
    | OutOfFuel

  /** The generator state: statements emitted so far (in the current block), the next
      fresh identity, and the diagnostics. */
  datatype Gen = Gen(stmts: seq<Stmt>, next: nat, diags: seq<Diag>)

  /** `h` is `g` after more was emitted: statements and diagnostics are only appended and
      fresh identities only advance. */
  predicate Grows(g: Gen, h: Gen)
  {
    g.stmts <= h.stmts && g.next <= h.next && g.diags <= h.diags
  }

  function Emit(g: Gen, s: Stmt): (h: Gen)
    ensures Grows(g, h) && h.stmts == g.stmts + [s] && h.next == g.next && h.diags == g.diags
  {
    g.(stmts := g.stmts + [s])
  }

  function Warn(g: Gen, d: Diag): (h: Gen)
    ensures Grows(g, h) && h.stmts == g.stmts && h.next == g.next && h.diags == g.diags + [d]
  {
    g.(diags := g.diags + [d])
  }

  /** A translated value and the generator after translating it. */
  datatype Cont = Cont(value: Value, gen: Gen)
  datatype Conts = Conts(values: seq<Value>, gen: Gen)

  /** Operand `i` of an application: operand 0 is the applied function. */
  function Operand(apply: Value, i: nat): (r: Result<Value, LoweringFault>)
    requires apply.Apply?
    ensures r.Ok? <==> i <= |apply.args|
    ensures r.Ok? ==> r.value == ([apply.fun] + apply.args)[i]
    ensures r.Ok? ==> r.value < apply
    ensures r.Err? ==> r.error == MissingOperand
  {
    if i == 0 then Ok(apply.fun)
    else if i - 1 < |apply.args| then Ok(apply.args[i - 1])
    else Err(MissingOperand)
  }

  /** The combinator a value is, if it is one. */
  function PrimOf(f: Value): Option<Prim>
  {
    if f.Op0? && f.k0.PrimK? then Some(f.k0.prim) else None
  }

  /** The loop a map or reduction with target attribute `to` becomes. The default target
      is "loop"; the targets accepted are exactly those the verifier lists. */
  function LoopKindOf(to: Option<string>): (r: Result<LoopKind, LoweringFault>)
    ensures r.Ok? <==> (to.None? || to.value in LoweringTargets)
    ensures r.Err? ==> r.error == UnknownLoweringTarget
  {
    if to.None? || to.value == "loop" then Ok(ScfFor)
    else if to.value == "affine" then Ok(AffineFor)
    else Err(UnknownLoweringTarget)
  }

  /** Element type of an array type, as a type. */
  function ElementOf(t: MlirType): MlirType
    requires IsArrayType(t)
  {
    Data(t.data.elementType)
  }

  // ---------------------------------------------------------------------------------
  // Literals
  // ---------------------------------------------------------------------------------

  /** The sizes of a nested array type, outermost first. */
  function LiteralShape(d: DataType): (shape: seq<int>)
    requires d.Array?
    ensures |shape| >= 1 && shape[0] == d.size.intValue
  {
    [d.size.intValue] + (if d.elementType.Array? then LiteralShape(d.elementType) else [])
  }

  /** The nested array type with the given sizes around a non-array element. */
  function Nest(shape: seq<int>, e: DataType): (d: DataType)
    requires |shape| >= 1
    ensures d.Array?
  {
    if |shape| == 1 then Array(Nat(shape[0]), e) else Array(Nat(shape[0]), Nest(shape[1..], e))
  }

  /** Reading the shape back from the nested array type gives the sizes it was built
      from. */
  lemma {:induction false} ShapeOfNest(shape: seq<int>, e: DataType)
    requires |shape| >= 1 && !e.Array?
    ensures LiteralShape(Nest(shape, e)) == shape
    decreases |shape|
  {
    if |shape| > 1 {
      ShapeOfNest(shape[1..], e);
    }
  }

  /** The text up to the first comma. */
  function BeforeComma(s: string): (r: string)
    ensures r <= s && ',' !in r
    ensures |r| < |s| ==> s[|r|] == ','
  {
    if s == [] || s[0] == ',' then [] else [s[0]] + BeforeComma(s[1..])
  }

  /** The text without its leading copies of `c`. */
  function TrimLeft(s: string, c: char): (r: string)
    ensures |r| <= |s| && r == s[|s| - |r|..]
    ensures |r| > 0 ==> r[0] != c
    ensures forall i :: 0 <= i < |s| - |r| ==> s[i] == c
  {
    if s != [] && s[0] == c then TrimLeft(s[1..], c) else s
  }

  /** The text without its trailing copies of `c`. */
  function TrimRight(s: string, c: char): (r: string)
    ensures r <= s
    ensures |r| > 0 ==> r[|r| - 1] != c
    ensures forall i :: |r| <= i < |s| ==> s[i] == c
  {
    if s != [] && s[|s| - 1] == c then TrimRight(s[..|s| - 1], c) else s
  }

  /** The text without leading or trailing copies of `c`. */
  function Trim(s: string, c: char): string
  {
    TrimRight(TrimLeft(s, c), c)
  }

  /** The one value an array literal is filled with: the text of its first element, that
      is, up to the first comma, with the brackets trimmed off both ends. */
  function FillText(literal: string): string
  {
    Trim(Trim(BeforeComma(literal), '['), ']')
  }

  /** Trimming keeps a contiguous part of the text. */
  lemma TrimIsSlice(s: string, c: char)
    ensures exists i, j :: 0 <= i <= j <= |s| && Trim(s, c) == s[i..j]
  {
    var l := TrimLeft(s, c);
    var r := TrimRight(l, c);
    var i := |s| - |l|;
    assert l == s[i..];
    assert r == l[..|r|];
    PrefixOfSuffix(s, i, |r|);
    assert Trim(s, c) == s[i..i + |r|];
  }

  lemma PrefixOfSuffix(s: string, i: nat, k: nat)
    requires i + k <= |s|
    ensures s[i..][..k] == s[i..i + k]
  {
  }

  /** Trimming adds no character. */
  lemma TrimKeepsAbsent(s: string, c: char, x: char)
    requires x !in s
    ensures x !in Trim(s, c)
  {
    var l := TrimLeft(s, c);
    assert l == s[|s| - |l|..];
    assert x !in l;
    var r := TrimRight(l, c);
    assert r == l[..|r|];
  }

  /** A trimmed text neither starts nor ends with the trimmed character. */
  lemma TrimEnds(s: string, c: char, r: string)
    requires r == Trim(s, c)
    ensures |r| > 0 ==> r[0] != c && r[|r| - 1] != c
  {
    var l := TrimLeft(s, c);
    if |r| > 0 {
      assert r == l[..|r|];
      assert r[0] == l[0];
    }
  }

  /** The fill text has no comma. */
  lemma FillTextHasNoComma(literal: string)
    ensures ',' !in FillText(literal)
  {
    var b := BeforeComma(literal);
    TrimKeepsAbsent(b, '[', ',');
    TrimKeepsAbsent(Trim(b, '['), ']', ',');
  }

  /** The fill text neither starts nor ends with a closing bracket. */
  lemma FillTextIsUnbracketed(literal: string)
    ensures var f := FillText(literal); |f| > 0 ==> f[0] != ']' && f[|f| - 1] != ']'
  {
    TrimEnds(Trim(BeforeComma(literal), '['), ']', FillText(literal));
  }

  /** The text before the first comma of `s + "," + t` is `s` when `s` has no comma. */
  lemma {:induction false} BeforeCommaOf(s: string, t: string)
    requires ',' !in s
    ensures BeforeComma(s + "," + t) == s
  {
    if s != [] {
      assert (s + "," + t)[1..] == s[1..] + "," + t;
      assert s[0] in s;
      BeforeCommaOf(s[1..], t);
    } else {
      assert (s + "," + t)[0] == ',';
    }
  }

  lemma TrimNothing(s: string, c: char)
    requires s != [] && s[0] != c && s[|s| - 1] != c
    ensures Trim(s, c) == s
  {
  }

  /** The fill text of a literal `[d,...]` whose first element `d` has no brackets is
      `d`. */
  lemma FillTextOfFirstElement(d: string, rest: string)
    requires d != [] && ',' !in d && '[' !in d && ']' !in d
    ensures FillText("[" + d + "," + rest) == d
  {
    var open := "[" + d;
    assert "[" + d + "," + rest == open + "," + rest;
    assert ',' !in open by {
      assert forall k :: 0 < k < |open| ==> open[k] == d[k - 1];
    }
    BeforeCommaOf(open, rest);
    assert BeforeComma("[" + d + "," + rest) == open;
    assert open[1..] == d;
    assert d[0] in d && d[|d| - 1] in d;
    assert TrimLeft(open, '[') == TrimLeft(d, '[');
    TrimNothing(d, '[');
    assert Trim(open, '[') == d;
    TrimNothing(d, ']');
  }

  // ---------------------------------------------------------------------------------
  // The acceptor translation
  // ---------------------------------------------------------------------------------

  /** The acceptor translation of an application into the output location `out`. */
  function AccT(apply: Value, out: Value, g: Gen, fuel: nat): (r: Result<Gen, LoweringFault>)
    requires apply.Apply?
    ensures r.Ok? ==> Grows(g, r.value)
    decreases fuel, 2
  {
    if fuel == 0 then Err(OutOfFuel)
    else
      var g1 := CheckOut(out, g);
      var f := apply.fun;
      if f.Arg? then Err(AppliedBlockArgument)
      else if f.Lambda? then AccTLambda(apply, out, g1, fuel)
      else match PrimOf(f)
        case Some(ReduceSeqP(n, _, _, to)) => AccTReduce(apply, n, to, out, g1, fuel)
        case Some(MapSeqP(n, _, _, to)) => AccTMap(apply, n, to, true, out, g1, fuel)
        case Some(MapParP(n, _, _, to)) => AccTMap(apply, n, to, false, out, g1, fuel)
        case Some(FstP) => AccTProjection(apply, FstK, out, g1, fuel)
        case Some(SndP) => AccTProjection(apply, SndK, out, g1, fuel)
        case Some(SplitP(n, m, t)) =>
          AccTView(apply, Op1(SplitAccK(n, m, t), out, SplitAccType(n, m, t)), SplitInputNotApply, g1, fuel)
        case Some(JoinP(n, m, t)) =>
          AccTView(apply, Op1(JoinAccK(n, m, t), out, JoinAccType(n, m, t)), JoinInputNotApply, g1, fuel)
        case Some(AddP) => AccTBinary(apply, "add", out, g1, fuel)
        case Some(MulP) => AccTBinary(apply, "mul", out, g1, fuel)
        case _ => Ok(Warn(g1, CannotLower(f)))
  }

  /** An output location whose type is not a Rise type is reported, and the translation
      goes on. */
  function CheckOut(out: Value, g: Gen): (h: Gen)
    ensures Grows(g, h) && h.stmts == g.stmts && h.next == g.next
  {
    if IsRiseDialectType(TypeOf(out)) then g else Warn(g, OutTypeNotRise(out))
  }

  /** The type of the location a split writes through: `n * m` elements. */
  function SplitAccType(n: Nat, m: Nat, t: DataType): MlirType
  {
    Data(Array(Nat(n.intValue * m.intValue), t))
  }

  /** The type of the location a join writes through: `n` rows of `m` elements. */
  function JoinAccType(n: Nat, m: Nat, t: DataType): MlirType
  {
    Data(Array(n, Array(m, t)))
  }

  /** A reduction: the initial value is assigned to the accumulator (element 0 of `out`
      when `out` is an array), then a loop over `0 .. n` applies the reduction lambda to
      the accumulator and element `i` of the input, writing into `out`. */
  function AccTReduce(apply: Value, n: Nat, to: Option<string>, out: Value, g: Gen, fuel: nat)
    : (r: Result<Gen, LoweringFault>)
    requires apply.Apply? && fuel > 0
    ensures r.Ok? ==> Grows(g, r.value)
    decreases fuel, 1
  {
    var reductionFun :- Operand(apply, 1);
    var initializer :- Operand(apply, 2);
    var input :- Operand(apply, 3);
    var ca :- ConT(input, g, fuel - 1);
    var indexedAccum := if IsArrayType(TypeOf(out)) then Op2(IdxK, out, ConstIndex(0), ElementOf(TypeOf(out))) else out;
    var ci :- ConT(initializer, ca.gen, fuel - 1);
    var g1 := Emit(ci.gen, Assign(AssignOp(ci.value, indexedAccum)));
    var kind :- LoopKindOf(to);
    var iv := g1.next;
    if reductionFun.Arg? then Err(AppliedBlockArgument)
    else if !reductionFun.Lambda? then Err(LambdaExpected)
    else if !IsArrayType(TypeOf(ca.value)) then Err(NoIndexIntoInput)
    else
      var xi := Op2(IdxK, ca.value, Arg(iv, IndexType), ElementOf(TypeOf(ca.value)));
      var fxi := Apply(reductionFun, [out, xi], TypeOf(reductionFun));
      var body :- AccT(fxi, out, Gen([], iv + 1, g1.diags), fuel - 1);
      Ok(Gen(g1.stmts + [For(kind, 0, n.intValue, 1, iv, body.stmts)], body.next, body.diags))
  }

  /** Element `iv` of the translated input of a map: a sequential map indexes a memref
      by its last dimension (a rank-0 memref has none) and asks a non-memref for its
      defining operation; both then index an array. `None` when nothing matches. */
  function MapInput(c: Value, iv: Value, sequential: bool): (r: Result<Option<Value>, LoweringFault>)
  {
    var ct := TypeOf(c);
    if sequential && ct.MemRef? then
      if |ct.shape| == 0 then Err(EmptyShape)
      else Ok(Some(Op2(IdxK, c, iv, MemRef(ct.shape[..|ct.shape| - 1], F32))))
    else if sequential && c.Arg? then Err(AppliedBlockArgument)
    else if IsArrayType(ct) then Ok(Some(Op2(IdxK, c, iv, ElementOf(ct))))
    else Ok(None)
  }

  /** A map: a loop over `0 .. n` whose body writes the lambda applied to element `iv` of
      the input into element `iv` of `out`. */
  function AccTMap(apply: Value, n: Nat, to: Option<string>, sequential: bool, out: Value, g: Gen, fuel: nat)
    : (r: Result<Gen, LoweringFault>)
    requires apply.Apply? && fuel > 0
    ensures r.Ok? ==> Grows(g, r.value)
    decreases fuel, 1
  {
    var f :- Operand(apply, 1);
    var input :- Operand(apply, 2);
    var ca :- ConT(input, g, fuel - 1);
    var kind :- LoopKindOf(to);
    var iv := ca.gen.next;
    if f.Arg? then Err(AppliedBlockArgument)
    else
      var xi :- MapInput(ca.value, Arg(iv, IndexType), sequential);
      if !f.Lambda? then Err(LambdaExpected)
      else if xi.None? then Err(NoIndexIntoInput)
      else if !IsArrayType(TypeOf(out)) then Err(OutNotArray)
      else
        var outi := Op2(IdxK, out, Arg(iv, IndexType), ElementOf(TypeOf(out)));
        var fxi := Apply(f, [xi.value], TypeOf(f));
        var body :- AccT(fxi, outi, Gen([], iv + 1, ca.gen.diags), fuel - 1);
        Ok(Gen(ca.gen.stmts + [For(kind, 0, n.intValue, 1, iv, body.stmts)], body.next, body.diags))
  }

  /** A projection: the projected translated tuple is assigned to `out`. */
  function AccTProjection(apply: Value, k: Kind1, out: Value, g: Gen, fuel: nat): (r: Result<Gen, LoweringFault>)
    requires apply.Apply? && fuel > 0
    ensures r.Ok? ==> Grows(g, r.value)
    decreases fuel, 1
  {
    var tuple :- Operand(apply, 1);
    var ct :- ConT(tuple, g, fuel - 1);
    Ok(Emit(ct.gen, Assign(AssignOp(Op1(k, ct.value, F32), out))))
  }

  /** Split and join: the input application is translated into `acc`, the output location
      seen through the reshaping marker. */
  function AccTView(apply: Value, acc: Value, d: Diag, g: Gen, fuel: nat): (r: Result<Gen, LoweringFault>)
    requires apply.Apply? && fuel > 0
    ensures r.Ok? ==> Grows(g, r.value)
    decreases fuel, 1
  {
    var x :- Operand(apply, 1);
    if x.Arg? then Err(AppliedBlockArgument)
    else if x.Apply? then AccT(x, acc, g, fuel - 1)
    else Ok(Warn(g, d))
  }

  /** An applied lambda: the arguments, from the last operand down, replace the
      parameters, and what the body returns is translated into `out`. */
  function AccTLambda(apply: Value, out: Value, g: Gen, fuel: nat): (r: Result<Gen, LoweringFault>)
    requires apply.Apply? && apply.fun.Lambda? && fuel > 0
    ensures r.Ok? ==> Grows(g, r.value)
    decreases fuel, 1
  {
    var f := apply.fun;
    var args := ApplyArguments([f] + apply.args);
    if |f.params| < |args| then Err(TooManyLambdaArguments)
    else AccTReturn(SubstituteSpec(f.ret, f.params, args), out, g, fuel - 1)
  }

  /** Addition and multiplication: the operation on the translated operands is assigned
      to `out`. */
  function AccTBinary(apply: Value, op: string, out: Value, g: Gen, fuel: nat): (r: Result<Gen, LoweringFault>)
    requires apply.Apply? && fuel > 0
    ensures r.Ok? ==> Grows(g, r.value)
    decreases fuel, 1
  {
    var s0 :- Operand(apply, 1);
    var s1 :- Operand(apply, 2);
    var c0 :- ConT(s0, g, fuel - 1);
    var c1 :- ConT(s1, c0.gen, fuel - 1);
    Ok(Emit(c1.gen, Assign(AssignOp(Op2(BinaryK(op), c0.value, c1.value, F32), out))))
  }

  /** The acceptor translation of the value a region returns. An embed has its operands
      translated and a copy of it, with a fresh identity, is assigned to `out`. */
  function AccTReturn(ret: Value, out: Value, g: Gen, fuel: nat): (r: Result<Gen, LoweringFault>)
    ensures r.Ok? ==> Grows(g, r.value)
    decreases fuel, 2
  {
    if fuel == 0 then Err(OutOfFuel)
    else if ret.Arg? then Ok(Warn(g, ReturnOfArgument))
    else if ret.Apply? then AccT(ret, out, g, fuel - 1)
    else if ret.Embed? then
      if |ret.operands| != |ret.params| then Err(EmbedArityMismatch)
      else
        var cs :- ConTEach(ret.operands, g, fuel - 1);
        var copy := Embed(cs.gen.next, cs.values, ret.params, ret.ret, ret.ty);
        var g1 := cs.gen.(next := cs.gen.next + 1);
        Ok(Emit(g1, Assign(AssignOp(copy, out))))
    else Ok(Warn(g, ReturnWentWrong))
  }

  // ---------------------------------------------------------------------------------
  // The continuation translation
  // ---------------------------------------------------------------------------------

  /** The continuation translation: the value, rewritten so that it can be read. */
  function ConT(v: Value, g: Gen, fuel: nat): (r: Result<Cont, LoweringFault>)
    ensures r.Ok? ==> Grows(g, r.value.gen)
    decreases fuel, 2
  {
    if fuel == 0 then Err(OutOfFuel)
    else if v.Arg? then Ok(Cont(v, Warn(g, BlockArgLeftAsIs(v))))
    else if v.Op0? && v.k0.LiteralK? then ConTLiteral(v.k0.litType, v.k0.text, g)
    else if v.Lambda? then Err(NoValueReturned)
    else if v.Apply? then ConTApply(v, g, fuel)
    else if v.Embed? then
      var cs :- ConTEach(v.operands, g, fuel - 1);
      Ok(Cont(Embed(v.id, cs.values, v.params, v.ret, v.ty), cs.gen))
    else if v.Op1? && v.k1.InK? then Ok(Cont(v, g))
    else Ok(Cont(v, Warn(g, LeftAsIs(v))))
  }

  /** A scalar literal becomes an embed returning the constant; an array literal becomes
      a fresh buffer of its shape, filled with its first element. */
  function ConTLiteral(d: DataType, text: string, g: Gen): (r: Result<Cont, LoweringFault>)
    ensures r.Ok? ==> Grows(g, r.value.gen)
  {
    var id := g.next;
    var g1 := g.(next := g.next + 1);
    match d
    case Scalar(_) => Ok(Cont(Embed(id, [], [], ConstFloat(text), Data(Scalar(F32))), g1))
    case Array(_, _) =>
      var buffer := Alloc(id, LiteralShape(d));
      Ok(Cont(buffer, Emit(g1, Fill(buffer, FillText(text)))))
    case Tuple(_, _) => Err(NoValueReturned)
  }

  /** The marker an applied reshaping combinator leaves for code generation. */
  function ViewKind(p: Prim): Option<Kind1>
  {
    match p
    case SplitP(n, m, t) => Some(SplitK(n, m, t))
    case JoinP(n, m, t) => Some(JoinK(n, m, t))
    case TransposeP => Some(TransposeK)
    case SlideP(n, sz, sp, t) => Some(SlideK(n, sz, sp, t))
    case FstP => Some(FstK)
    case SndP => Some(SndK)
    case _ => None
  }

  /** The continuation translation of an application. */
  function ConTApply(v: Value, g: Gen, fuel: nat): (r: Result<Cont, LoweringFault>)
    requires v.Apply? && fuel > 0
    ensures r.Ok? ==> Grows(g, r.value.gen)
    decreases fuel, 1, 1
  {
    var f := v.fun;
    if f.Arg? then Err(AppliedBlockArgument)
    else
      var p := PrimOf(f);
      if p.None? then Err(NoValueReturned)
      else if p.value.ZipP? then
        var lhs :- Operand(v, 1);
        var rhs :- Operand(v, 2);
        var cl :- ConT(lhs, g, fuel - 1);
        var cr :- ConT(rhs, cl.gen, fuel - 1);
        if !IsArrayType(TypeOf(lhs)) || !IsArrayType(TypeOf(rhs)) then Err(ZipInputsNotArrays)
        else
          var lt := TypeOf(lhs).data;
          var zipType := Data(Array(lt.size, Tuple(lt.elementType, TypeOf(rhs).data.elementType)));
          Ok(Cont(Op2(ZipK, cl.value, cr.value, zipType), cr.gen))
      else if p.value.PadP? then
        var padVal :- Operand(v, 1);
        var input :- Operand(v, 2);
        var cp :- ConT(padVal, g, fuel - 1);
        var ca :- ConT(input, cp.gen, fuel - 1);
        var pad := p.value;
        Ok(Cont(Op2(PadK(pad.n, pad.l, pad.r, pad.t), cp.value, ca.value, v.ty), ca.gen))
      else if p.value.MapSeqP? || p.value.MapParP? then ConTMap(v, p.value.n, g, fuel)
      else if ViewKind(p.value).None? then Err(NoValueReturned)
      else
        var x :- Operand(v, 1);
        var cx :- ConT(x, g, fuel - 1);
        var ty := if p.value.FstP? || p.value.SndP? then F32 else v.ty;
        Ok(Cont(Op1(ViewKind(p.value).value, cx.value, ty), cx.gen))
  }

  /** An applied map: a fresh embed returning a fresh buffer of `n` floats, which the map
      is then written into. */
  function ConTMap(v: Value, n: Nat, g: Gen, fuel: nat): (r: Result<Cont, LoweringFault>)
    requires v.Apply? && fuel > 0
    ensures r.Ok? ==> Grows(g, r.value.gen)
    decreases fuel, 1, 0
  {
    var embed := Embed(g.next, [], [], Alloc(g.next + 1, [n.intValue]), Data(Array(n, Scalar(F32))));
    var g1 := g.(next := g.next + 2);
    var g2 :- AccT(v, embed, g1, fuel - 1);
    Ok(Cont(embed, g2))
  }

  /** The continuation translation of each value in turn. */
  function ConTEach(vs: seq<Value>, g: Gen, fuel: nat): (r: Result<Conts, LoweringFault>)
    ensures r.Ok? ==> Grows(g, r.value.gen) && |r.value.values| == |vs|
    decreases fuel, 0, |vs|
  {
    if vs == [] then Ok(Conts([], g))
    else if fuel == 0 then Err(OutOfFuel)
    else
      var c :- ConT(vs[0], g, fuel - 1);
      var rest :- ConTEach(vs[1..], c.gen, fuel);
      Ok(Conts([c.value] + rest.values, rest.gen))
  }

  // ---------------------------------------------------------------------------------
  // What the translation produces
  // ---------------------------------------------------------------------------------

  /** Every target the verifier accepts has a loop to lower to. */
  lemma VerifiedTargetsLower(dict: seq<NamedAttr>)
    requires |dict| > 0 && IsValidLowering(dict)
    ensures LoopKindOf(Some(dict[0].value.text)).Ok?
  {
  }

  function MapPrim(n: Nat, s: DataType, t: DataType, to: Option<string>, sequential: bool): Prim
  {
    if sequential then MapSeqP(n, s, t, to) else MapParP(n, s, t, to)
  }

  /** The statements a map of the lambda `f` over `input` into `out` emits, starting from
      generator `g`: those of the input's translation, then one loop from 0 to `n` in
      steps of 1, of the kind the target `to` names, over the fresh induction variable
      `iv`. Its body is the acceptor translation of `f` applied to element `iv` of the
      translated input, written into element `iv` of `out`. */
  predicate EmitsMap(stmts: seq<Stmt>, f: Value, input: Value, n: Nat, to: Option<string>, sequential: bool,
                     out: Value, g: Gen, fuel: nat)
  {
    fuel > 0 && LoopKindOf(to).Ok? && IsArrayType(TypeOf(out)) && ConT(input, g, fuel - 1).Ok? &&
    var ca := ConT(input, g, fuel - 1).value;
    var iv := ca.gen.next;
    var xi := MapInput(ca.value, Arg(iv, IndexType), sequential);
    var outi := Op2(IdxK, out, Arg(iv, IndexType), ElementOf(TypeOf(out)));
    Grows(g, ca.gen) && xi.Ok? && xi.value.Some? &&
    var body := AccT(Apply(f, [xi.value.value], TypeOf(f)), outi, Gen([], iv + 1, ca.gen.diags), fuel - 1);
    body.Ok? && stmts == ca.gen.stmts + [For(LoopKindOf(to).value, 0, n.intValue, 1, iv, body.value.stmts)]
  }

  /** The statements a reduction with lambda `f` and initial value `init` over `input`
      into `out` emits, starting from generator `g`: those of the translations of the
      input and then of the initial value; the assignment of the translated initial value
      to the accumulator (element 0 of `out` when `out` is an array, `out` itself
      otherwise); then one loop from 0 to `n` in steps of 1 over the fresh induction
      variable `iv`. Its body is the acceptor translation, into `out`, of `f` applied to
      `out` and element `iv` of the translated input. */
  predicate EmitsReduction(stmts: seq<Stmt>, f: Value, init: Value, input: Value, n: Nat, to: Option<string>,
                           out: Value, g: Gen, fuel: nat)
  {
    fuel > 0 && LoopKindOf(to).Ok? && ConT(input, g, fuel - 1).Ok? &&
    var ca := ConT(input, g, fuel - 1).value;
    ConT(init, ca.gen, fuel - 1).Ok? && IsArrayType(TypeOf(ca.value)) &&
    var ci := ConT(init, ca.gen, fuel - 1).value;
    var acc := if IsArrayType(TypeOf(out)) then Op2(IdxK, out, ConstIndex(0), ElementOf(TypeOf(out))) else out;
    var iv := ci.gen.next;
    var xi := Op2(IdxK, ca.value, Arg(iv, IndexType), ElementOf(TypeOf(ca.value)));
    var body := AccT(Apply(f, [out, xi], TypeOf(f)), out, Gen([], iv + 1, ci.gen.diags), fuel - 1);
    Grows(g, ca.gen) && Grows(ca.gen, ci.gen) && body.Ok? &&
    stmts == ci.gen.stmts + [Assign(AssignOp(ci.value, acc)), For(LoopKindOf(to).value, 0, n.intValue, 1, iv, body.value.stmts)]
  }

  /** A map lowers only when its function is a lambda and its output is an array, and
      then to one loop, last in the block, from 0 to `n` in steps of 1, of the kind its
      target names, counting with a fresh induction variable; the loop's body writes the
      lambda applied to element `iv` of the input into element `iv` of `out`. */
  lemma MapLowersToLoop(n: Nat, s: DataType, t: DataType, to: Option<string>, sequential: bool, ft: MlirType,
                        f: Value, input: Value, ty: MlirType, out: Value, g: Gen, fuel: nat)
    requires AccT(Apply(PrimOp(MapPrim(n, s, t, to, sequential), ft), [f, input], ty), out, g, fuel).Ok?
    ensures f.Lambda? && IsArrayType(TypeOf(out))
    ensures var h := AccT(Apply(PrimOp(MapPrim(n, s, t, to, sequential), ft), [f, input], ty), out, g, fuel).value;
      |g.stmts| < |h.stmts| &&
      var l := h.stmts[|h.stmts| - 1];
      l.For? && l.lower == 0 && l.upper == n.intValue && l.step == 1 && LoopKindOf(to) == Ok(l.kind) && g.next <= l.iv
    ensures EmitsMap(AccT(Apply(PrimOp(MapPrim(n, s, t, to, sequential), ft), [f, input], ty), out, g, fuel).value.stmts,
                     f, input, n, to, sequential, out, CheckOut(out, g), fuel)
  {
    var apply := Apply(PrimOp(MapPrim(n, s, t, to, sequential), ft), [f, input], ty);
    AccTDispatchesMap(apply, n, s, t, to, sequential, ft, out, g, fuel);
    assert Operand(apply, 1) == Ok(f) && Operand(apply, 2) == Ok(input);
    MapLoopShape(apply, n, to, sequential, out, CheckOut(out, g), fuel);
  }

  /** The shape of a map's translation, for any operands. */
  lemma MapLoopShape(apply: Value, n: Nat, to: Option<string>, sequential: bool, out: Value, g: Gen, fuel: nat)
    requires apply.Apply? && fuel > 0
    requires AccTMap(apply, n, to, sequential, out, g, fuel).Ok?
    ensures Operand(apply, 1).Ok? && Operand(apply, 1).value.Lambda? && IsArrayType(TypeOf(out))
    ensures var h := AccTMap(apply, n, to, sequential, out, g, fuel).value;
      |g.stmts| < |h.stmts| &&
      var l := h.stmts[|h.stmts| - 1];
      l.For? && l.lower == 0 && l.upper == n.intValue && l.step == 1 && LoopKindOf(to) == Ok(l.kind) && g.next <= l.iv
    ensures Operand(apply, 2).Ok? &&
      EmitsMap(AccTMap(apply, n, to, sequential, out, g, fuel).value.stmts,
               Operand(apply, 1).value, Operand(apply, 2).value, n, to, sequential, out, g, fuel)
  {
    var input := Operand(apply, 2).value;
    var ca := ConT(input, g, fuel - 1).value;
    assert Grows(g, ca.gen);
  }

  /** A reduction lowers only when its function is a lambda and its input translates to
      an array; it assigns the initial value to the accumulator (element 0 of `out` when
      `out` is an array, `out` itself otherwise) and then loops from 0 to `n` in steps of
      1 with a fresh induction variable, whose body writes the lambda applied to `out`
      and element `iv` of the input into `out`. */
  lemma ReduceLowersToLoop(n: Nat, s: DataType, t: DataType, to: Option<string>, ft: MlirType,
                           f: Value, init: Value, input: Value, ty: MlirType, out: Value, g: Gen, fuel: nat)
    requires AccT(Apply(PrimOp(ReduceSeqP(n, s, t, to), ft), [f, init, input], ty), out, g, fuel).Ok?
    ensures f.Lambda?
    ensures var h := AccT(Apply(PrimOp(ReduceSeqP(n, s, t, to), ft), [f, init, input], ty), out, g, fuel).value;
      |g.stmts| + 1 < |h.stmts| &&
      var a := h.stmts[|h.stmts| - 2];
      var l := h.stmts[|h.stmts| - 1];
      a.Assign? &&
      a.assign.assignee == (if IsArrayType(TypeOf(out)) then Op2(IdxK, out, ConstIndex(0), ElementOf(TypeOf(out))) else out) &&
      l.For? && l.lower == 0 && l.upper == n.intValue && l.step == 1 && LoopKindOf(to) == Ok(l.kind) && g.next <= l.iv
    ensures EmitsReduction(AccT(Apply(PrimOp(ReduceSeqP(n, s, t, to), ft), [f, init, input], ty), out, g, fuel).value.stmts,
                           f, init, input, n, to, out, CheckOut(out, g), fuel)
  {
    var apply := Apply(PrimOp(ReduceSeqP(n, s, t, to), ft), [f, init, input], ty);
    AccTDispatchesReduce(apply, n, s, t, to, ft, out, g, fuel);
    assert Operand(apply, 1) == Ok(f) && Operand(apply, 2) == Ok(init) && Operand(apply, 3) == Ok(input);
    ReduceLoopShape(apply, n, to, out, CheckOut(out, g), fuel);
  }

  /** The shape of a reduction's translation, for any operands. */
  lemma ReduceLoopShape(apply: Value, n: Nat, to: Option<string>, out: Value, g: Gen, fuel: nat)
    requires apply.Apply? && fuel > 0
    requires AccTReduce(apply, n, to, out, g, fuel).Ok?
    ensures Operand(apply, 1).Ok? && Operand(apply, 1).value.Lambda?
    ensures var h := AccTReduce(apply, n, to, out, g, fuel).value;
      |g.stmts| + 1 < |h.stmts| &&
      var a := h.stmts[|h.stmts| - 2];
      var l := h.stmts[|h.stmts| - 1];
      a.Assign? &&
      a.assign.assignee == (if IsArrayType(TypeOf(out)) then Op2(IdxK, out, ConstIndex(0), ElementOf(TypeOf(out))) else out) &&
      l.For? && l.lower == 0 && l.upper == n.intValue && l.step == 1 && LoopKindOf(to) == Ok(l.kind) && g.next <= l.iv
    ensures Operand(apply, 2).Ok? && Operand(apply, 3).Ok? &&
      EmitsReduction(AccTReduce(apply, n, to, out, g, fuel).value.stmts,
                     Operand(apply, 1).value, Operand(apply, 2).value, Operand(apply, 3).value, n, to, out, g, fuel)
  {
    var f, init, input := Operand(apply, 1).value, Operand(apply, 2).value, Operand(apply, 3).value;
    var ca := ConT(input, g, fuel - 1).value;
    var acc := if IsArrayType(TypeOf(out)) then Op2(IdxK, out, ConstIndex(0), ElementOf(TypeOf(out))) else out;
    var ci := ConT(init, ca.gen, fuel - 1).value;
    assert Grows(g, ca.gen) && Grows(ca.gen, ci.gen);
    var g1 := Emit(ci.gen, Assign(AssignOp(ci.value, acc)));
    var iv := g1.next;
    var xi := Op2(IdxK, ca.value, Arg(iv, IndexType), ElementOf(TypeOf(ca.value)));
    var body := AccT(Apply(f, [out, xi], TypeOf(f)), out, Gen([], iv + 1, g1.diags), fuel - 1);
    assert AccTReduce(apply, n, to, out, g, fuel)
        == Ok(Gen(g1.stmts + [For(LoopKindOf(to).value, 0, n.intValue, 1, iv, body.value.stmts)], body.value.next, body.value.diags));
    assert g1.stmts + [For(LoopKindOf(to).value, 0, n.intValue, 1, iv, body.value.stmts)]
        == ci.gen.stmts + [Assign(AssignOp(ci.value, acc)), For(LoopKindOf(to).value, 0, n.intValue, 1, iv, body.value.stmts)];
  }

  /** An application of `reduceSeq` is translated by `AccTReduce`. */
  lemma AccTDispatchesReduce(apply: Value, n: Nat, s: DataType, t: DataType, to: Option<string>, ft: MlirType,
                             out: Value, g: Gen, fuel: nat)
    requires apply.Apply? && apply.fun == PrimOp(ReduceSeqP(n, s, t, to), ft) && fuel > 0
    ensures AccT(apply, out, g, fuel) == AccTReduce(apply, n, to, out, CheckOut(out, g), fuel)
  {
    assert PrimOf(apply.fun) == Some(ReduceSeqP(n, s, t, to));
  }

  /** An application of `mapSeq` or `mapPar` is translated by `AccTMap`. */
  lemma AccTDispatchesMap(apply: Value, n: Nat, s: DataType, t: DataType, to: Option<string>, sequential: bool,
                          ft: MlirType, out: Value, g: Gen, fuel: nat)
    requires apply.Apply? && apply.fun == PrimOp(MapPrim(n, s, t, to, sequential), ft) && fuel > 0
    ensures AccT(apply, out, g, fuel) == AccTMap(apply, n, to, sequential, out, CheckOut(out, g), fuel)
  {
    assert PrimOf(apply.fun) == Some(MapPrim(n, s, t, to, sequential));
  }

  /** An applied split writes its input through a split-accumulator marker over `out`,
      typed as an array of `n * m` elements. */
  lemma SplitWritesThroughSplitAcc(n: Nat, m: Nat, t: DataType, ft: MlirType, x: Value, ty: MlirType,
                                   out: Value, g: Gen, fuel: nat)
    requires x.Apply?
    ensures AccT(Apply(PrimOp(SplitP(n, m, t), ft), [x], ty), out, g, fuel + 1)
         == AccT(x, Op1(SplitAccK(n, m, t), out, Data(Array(Nat(n.intValue * m.intValue), t))), CheckOut(out, g), fuel)
  {
  }

  /** An applied join writes its input through a join-accumulator marker over `out`,
      typed as `n` rows of `m` elements. */
  lemma JoinWritesThroughJoinAcc(n: Nat, m: Nat, t: DataType, ft: MlirType, x: Value, ty: MlirType,
                                 out: Value, g: Gen, fuel: nat)
    requires x.Apply?
    ensures AccT(Apply(PrimOp(JoinP(n, m, t), ft), [x], ty), out, g, fuel + 1)
         == AccT(x, Op1(JoinAccK(n, m, t), out, Data(Array(n, Array(m, t)))), CheckOut(out, g), fuel)
  {
  }

  /** Split and join need their input to be an application: a block argument is a crash,
      anything else is reported and nothing is emitted. */
  lemma ReshapeOfNonApplication(p: Prim, ft: MlirType, x: Value, ty: MlirType, out: Value, g: Gen, fuel: nat)
    requires (p.SplitP? || p.JoinP?) && !x.Apply?
    ensures x.Arg? ==> AccT(Apply(PrimOp(p, ft), [x], ty), out, g, fuel + 1) == Err(AppliedBlockArgument)
    ensures !x.Arg? ==>
      AccT(Apply(PrimOp(p, ft), [x], ty), out, g, fuel + 1)
      == Ok(Warn(CheckOut(out, g), if p.SplitP? then SplitInputNotApply else JoinInputNotApply))
  {
  }

  /** The arguments a lambda receives are the application's arguments reversed. */
  lemma ApplyArgumentsReversed(f: Value, args: seq<Value>)
    ensures ApplyArguments([f] + args) == AccessPaths.Reverse(args)
  {
    var a := ApplyArguments([f] + args);
    assert |a| == |args|;
    forall k | 0 <= k < |args|
      ensures a[k] == AccessPaths.Reverse(args)[k]
    {
      assert ([f] + args)[|args| - k] == args[|args| - 1 - k];
    }
  }

  /** An applied lambda: with more arguments than parameters the lowering crashes;
      otherwise the arguments, last first, replace the parameters one after the other and
      the body's returned value is translated into `out`. */
  lemma AppliedLambdaSubstitutes(params: seq<nat>, ret: Value, ft: MlirType, args: seq<Value>, ty: MlirType,
                                 out: Value, g: Gen, fuel: nat)
    ensures |params| < |args| ==>
      AccT(Apply(Lambda(params, ret, ft), args, ty), out, g, fuel + 1) == Err(TooManyLambdaArguments)
    ensures |args| <= |params| ==>
      AccT(Apply(Lambda(params, ret, ft), args, ty), out, g, fuel + 1)
      == AccTReturn(SubstituteSpec(ret, params, AccessPaths.Reverse(args)), out, CheckOut(out, g), fuel)
  {
    ApplyArgumentsReversed(Lambda(params, ret, ft), args);
  }

  /** With distinct parameters and arguments that do not mention them, the application
      binds the FIRST parameter to the LAST argument, and so on: parameter `k` is replaced
      by argument `|args| - 1 - k`, all at once. */
  lemma AppliedLambdaBindsReversed(params: seq<nat>, ret: Value, ft: MlirType, args: seq<Value>, ty: MlirType,
                                   out: Value, g: Gen, fuel: nat)
    requires |args| <= |params| && Distinct(params)
    requires forall i, k :: 0 <= i < |args| && k in params ==> !Mentions(args[i], k)
    ensures AccT(Apply(Lambda(params, ret, ft), args, ty), out, g, fuel + 1)
         == AccTReturn(Subst(ret, ParamMap(params, AccessPaths.Reverse(args))), out, CheckOut(out, g), fuel)
    ensures forall k :: 0 <= k < |args| ==> ParamMap(params, AccessPaths.Reverse(args))[params[k]] == args[|args| - 1 - k]
  {
    AppliedLambdaSubstitutes(params, ret, ft, args, ty, out, g, fuel);
    var rev := AccessPaths.Reverse(args);
    forall i, k | 0 <= i < |rev| && k in params
      ensures !Mentions(rev[i], k)
    {
      assert rev[i] == args[|args| - 1 - i];
    }
    SubstituteIsSimultaneous(ret, params, rev);
    forall k | 0 <= k < |args|
      ensures ParamMap(params, rev)[params[k]] == args[|args| - 1 - k]
    {
      ParamMapAt(params, rev, k);
    }
  }

  /** The combinators the acceptor translation handles. */
  predicate Lowerable(p: Prim)
  {
    p.ReduceSeqP? || p.MapSeqP? || p.MapParP? || p.FstP? || p.SndP? || p.SplitP? || p.JoinP? || p.AddP? || p.MulP?
  }

  /** Any other applied operation is reported and nothing is emitted. */
  lemma AccTOfUnknownFunction(f: Value, args: seq<Value>, ty: MlirType, out: Value, g: Gen, fuel: nat)
    requires !f.Arg? && !f.Lambda?
    requires PrimOf(f).None? || !Lowerable(PrimOf(f).value)
    ensures AccT(Apply(f, args, ty), out, g, fuel + 1) == Ok(Warn(CheckOut(out, g), CannotLower(f)))
  {
  }

  /** Projections and arithmetic assign one marker or operation, typed `f32`, to `out`. */
  lemma AccTAssignsOnce(p: Prim, ft: MlirType, args: seq<Value>, ty: MlirType, out: Value, g: Gen, fuel: nat)
    requires p.FstP? || p.SndP? || p.AddP? || p.MulP?
    requires AccT(Apply(PrimOp(p, ft), args, ty), out, g, fuel).Ok?
    ensures var h := AccT(Apply(PrimOp(p, ft), args, ty), out, g, fuel).value;
      |g.stmts| < |h.stmts| && h.stmts[|h.stmts| - 1].Assign? &&
      var a := h.stmts[|h.stmts| - 1].assign;
      a.assignee == out && TypeOf(a.value) == F32 &&
      (p.FstP? ==> a.value.Op1? && a.value.k1 == FstK) &&
      (p.SndP? ==> a.value.Op1? && a.value.k1 == SndK) &&
      (p.AddP? ==> a.value.Op2? && a.value.k2 == BinaryK("add")) &&
      (p.MulP? ==> a.value.Op2? && a.value.k2 == BinaryK("mul"))
  {
    var apply := Apply(PrimOp(p, ft), args, ty);
    var g1 := CheckOut(out, g);
    if p.FstP? {
      assert AccT(apply, out, g, fuel) == AccTProjection(apply, FstK, out, g1, fuel);
    } else if p.SndP? {
      assert AccT(apply, out, g, fuel) == AccTProjection(apply, SndK, out, g1, fuel);
    } else if p.AddP? {
      assert AccT(apply, out, g, fuel) == AccTBinary(apply, "add", out, g1, fuel);
    } else {
      assert AccT(apply, out, g, fuel) == AccTBinary(apply, "mul", out, g1, fuel);
    }
  }

  /** A returned embed has its operands translated, and a copy of it with a fresh
      identity and the translated operands is assigned to `out`. */
  lemma ReturnedEmbedIsCopied(e: Value, out: Value, g: Gen, fuel: nat)
    requires e.Embed? && |e.operands| == |e.params|
    requires ConTEach(e.operands, g, fuel).Ok?
    ensures var cs := ConTEach(e.operands, g, fuel).value;
      AccTReturn(e, out, g, fuel + 1).Ok? &&
      var h := AccTReturn(e, out, g, fuel + 1).value;
      h.stmts == cs.gen.stmts + [Assign(AssignOp(Embed(cs.gen.next, cs.values, e.params, e.ret, e.ty), out))] &&
      g.next <= cs.gen.next < h.next
  {
  }

  /** A returned embed whose operand count differs from its parameter count is a crash. */
  lemma ReturnedEmbedArity(e: Value, out: Value, g: Gen, fuel: nat)
    requires e.Embed? && |e.operands| != |e.params|
    ensures AccTReturn(e, out, g, fuel + 1) == Err(EmbedArityMismatch)
  {
  }

  // ---------------------------------------------------------------------------------
  // What the continuation translation produces
  // ---------------------------------------------------------------------------------

  /** An applied reshaping combinator or projection becomes the marker code generation
      reads through, over the translated input; projections are typed `f32`, the others
      keep the application's type. */
  lemma ConTLeavesMarker(p: Prim, ft: MlirType, x: Value, ty: MlirType, g: Gen, fuel: nat)
    requires ViewKind(p).Some?
    ensures var r := ConT(Apply(PrimOp(p, ft), [x], ty), g, fuel + 1);
      var rx := ConT(x, g, fuel);
      (r.Ok? <==> rx.Ok?) &&
      (r.Ok? ==> r.value == Cont(Op1(ViewKind(p).value, rx.value.value, if p.FstP? || p.SndP? then F32 else ty), rx.value.gen)
                 && IsReadMarker(r.value.value))
  {
  }

  /** An applied zip of two arrays becomes a zip marker over the translated inputs, typed
      as an array of pairs as long as the first input; zipping a non-array is a crash. */
  lemma ConTOfZip(ft: MlirType, a: Value, b: Value, ty: MlirType, g: Gen, fuel: nat)
    requires ConT(a, g, fuel).Ok? && ConT(b, ConT(a, g, fuel).value.gen, fuel).Ok?
    ensures var r := ConT(Apply(PrimOp(ZipP, ft), [a, b], ty), g, fuel + 1);
      var ca := ConT(a, g, fuel).value;
      var cb := ConT(b, ca.gen, fuel).value;
      if IsArrayType(TypeOf(a)) && IsArrayType(TypeOf(b)) then
        r.Ok? && IsReadMarker(r.value.value) && r.value.gen == cb.gen &&
        r.value.value == Op2(ZipK, ca.value, cb.value,
                             Data(Array(TypeOf(a).data.size, Tuple(TypeOf(a).data.elementType, TypeOf(b).data.elementType))))
      else r == Err(ZipInputsNotArrays)
  {
  }

  /** An applied pad becomes a pad marker over the translated padding value and input. */
  lemma ConTOfPad(n: Nat, l: Nat, rr: Nat, t: DataType, ft: MlirType, v: Value, x: Value, ty: MlirType, g: Gen, fuel: nat)
    requires ConT(v, g, fuel).Ok? && ConT(x, ConT(v, g, fuel).value.gen, fuel).Ok?
    ensures var r := ConT(Apply(PrimOp(PadP(n, l, rr, t), ft), [v, x], ty), g, fuel + 1);
      var cv := ConT(v, g, fuel).value;
      var cx := ConT(x, cv.gen, fuel).value;
      r == Ok(Cont(Op2(PadK(n, l, rr, t), cv.value, cx.value, ty), cx.gen)) && IsReadMarker(r.value.value)
  {
  }

  /** An applied map becomes a fresh embed, without operands, returning a fresh buffer of
      `n` floats, and the map is written into that embed. */
  lemma ConTOfMap(n: Nat, s: DataType, t: DataType, to: Option<string>, sequential: bool, ft: MlirType,
                  args: seq<Value>, ty: MlirType, g: Gen, fuel: nat)
    ensures var apply := Apply(PrimOp(MapPrim(n, s, t, to, sequential), ft), args, ty);
      var embed := Embed(g.next, [], [], Alloc(g.next + 1, [n.intValue]), Data(Array(n, Scalar(F32))));
      var r := ConT(apply, g, fuel + 1);
      var w := AccT(apply, embed, g.(next := g.next + 2), fuel);
      (r.Ok? <==> w.Ok?) && (r.Ok? ==> r.value == Cont(embed, w.value))
  {
    var apply := Apply(PrimOp(MapPrim(n, s, t, to, sequential), ft), args, ty);
    assert PrimOf(apply.fun) == Some(MapPrim(n, s, t, to, sequential));
    assert ConT(apply, g, fuel + 1) == ConTApply(apply, g, fuel + 1);
    assert ConTApply(apply, g, fuel + 1) == ConTMap(apply, n, g, fuel + 1);
  }

  /** Block arguments, inputs and the operations the translation does not know are left
      as they are: nothing is emitted and no identity is drawn. Only block arguments and
      unknown operations are reported. */
  lemma ConTKeepsValue(v: Value, g: Gen, fuel: nat)
    requires fuel > 0
    requires !(v.Op0? && v.k0.LiteralK?) && !v.Lambda? && !v.Apply? && !v.Embed?
    ensures ConT(v, g, fuel).Ok? && ConT(v, g, fuel).value.value == v
    ensures var h := ConT(v, g, fuel).value.gen; h.stmts == g.stmts && h.next == g.next
    ensures (v.Op1? && v.k1.InK?) ==> ConT(v, g, fuel).value.gen == g
    ensures !(v.Op1? && v.k1.InK?) ==> |ConT(v, g, fuel).value.gen.diags| == |g.diags| + 1
  {
  }

  /** An embed keeps its identity, parameters and body; only its operands are
      translated. */
  lemma ConTOfEmbed(e: Value, g: Gen, fuel: nat)
    requires e.Embed?
    ensures var r := ConT(e, g, fuel + 1);
      var cs := ConTEach(e.operands, g, fuel);
      (r.Ok? <==> cs.Ok?) &&
      (r.Ok? ==> r.value == Cont(Embed(e.id, cs.value.values, e.params, e.ret, e.ty), cs.value.gen))
  {
  }

  /** A scalar literal becomes a fresh embed returning the float constant. */
  lemma ConTOfScalarLiteral(w: MlirType, text: string, g: Gen, fuel: nat)
    requires fuel > 0
    ensures ConT(Literal(Scalar(w), text), g, fuel)
         == Ok(Cont(Embed(g.next, [], [], ConstFloat(text), Data(Scalar(F32))), g.(next := g.next + 1)))
  {
  }

  /** An array literal becomes a fresh buffer of exactly its shape, filled with its first
      element; a tuple literal and a lambda are crashes. */
  lemma ConTOfArrayLiteral(shape: seq<int>, e: DataType, text: string, g: Gen, fuel: nat)
    requires |shape| >= 1 && !e.Array? && fuel > 0
    ensures ConT(Literal(Nest(shape, e), text), g, fuel)
         == Ok(Cont(Alloc(g.next, shape), Gen(g.stmts + [Fill(Alloc(g.next, shape), FillText(text))], g.next + 1, g.diags)))
  {
    ShapeOfNest(shape, e);
  }

  lemma ConTOfTupleLiteralOrLambda(v: Value, g: Gen, fuel: nat)
    requires fuel > 0
    requires v.Lambda? || (v.Op0? && v.k0.LiteralK? && v.k0.litType.Tuple?)
    ensures ConT(v, g, fuel) == Err(NoValueReturned)
  {
  }

  // ---------------------------------------------------------------------------------
  // The whole function
  // ---------------------------------------------------------------------------------

  /** The function's `rise.out`: the buffer written and the value written into it. */
  datatype OutOp = OutOp(buffer: Value, result: Value)

  /** The lowered function, or the report that its result is not an application, after
      which the rewrite stops. */
  datatype Lowered = Lowered(gen: Gen, stopped: bool)

  /** The lowering of a whole function: the last `rise.out` must exist; its buffer, cast
      to the result's type, is where the result application is written. */
  function Lower(outOp: Option<OutOp>, g: Gen, fuel: nat): (r: Result<Lowered, LoweringFault>)
    ensures r.Ok? ==> Grows(g, r.value.gen)
  {
    if outOp.None? then Err(NoOutOp)
    else
      var result := outOp.value.result;
      var out := Op1(CastK, outOp.value.buffer, TypeOf(result));
      if result.Arg? then Err(AppliedBlockArgument)
      else if result.Apply? then
        var h :- AccT(result, out, g, fuel);
        Ok(Lowered(h, false))
      else Ok(Lowered(Warn(g, OutNotApply), true))
  }

  /** Lowering from the out operation: with no out operation, or a block argument as its
      result, the source crashes; an application result is translated by `AccT` into the
      out buffer cast to the result's type, and lowering then goes on to code generation. */
  lemma LowerOfApplication(buffer: Value, result: Value, g: Gen, fuel: nat)
    ensures Lower(None, g, fuel) == Err(NoOutOp)
    ensures result.Arg? ==> Lower(Some(OutOp(buffer, result)), g, fuel) == Err(AppliedBlockArgument)
    ensures result.Apply? ==>
      var acc := AccT(result, Op1(CastK, buffer, TypeOf(result)), g, fuel);
      Lower(Some(OutOp(buffer, result)), g, fuel) ==
        (if acc.Ok? then Ok(Lowered(acc.value, false)) else Err(acc.error))
  {
  }

  /** The assignments among the statements, in program order, loop bodies in place. */
  function Assigns(stmts: seq<Stmt>): seq<AssignOp>
    decreases stmts
  {
    if stmts == [] then []
    else
      (match stmts[0]
       case Assign(a) => [a]
       case For(_, _, _, _, _, body) => Assigns(body)
       case Fill(_, _) => []) + Assigns(stmts[1..])
  }

  /** Collecting assignments distributes over concatenation. */
  lemma {:induction false} AssignsAppend(a: seq<Stmt>, b: seq<Stmt>)
    ensures Assigns(a + b) == Assigns(a) + Assigns(b)
    decreases a
  {
    if a != [] {
      assert (a + b)[0] == a[0];
      assert (a + b)[1..] == a[1..] + b;
      AssignsAppend(a[1..], b);
    } else {
      assert a + b == b;
    }
  }

  datatype RewriteFault = LoweringFailed(lowering: LoweringFault) | CodeGenFailed(codegen: AccessPaths.Fault)

  datatype Rewritten =
    | Stopped(diags: seq<Diag>)
    | Done(stmts: seq<Stmt>, program: Program, diags: seq<Diag>)

  /** The rewrite of a function: lower it, starting fresh identities at `first`, then
      generate code for every assignment in program order. */
  function Rewrite(outOp: Option<OutOp>, first: nat, fuel: nat): (r: Result<Rewritten, RewriteFault>)
    ensures r.Ok? && r.value.Done? ==> |r.value.program.stores| == |Assigns(r.value.stmts)|
  {
    match Lower(outOp, Gen([], first, []), fuel)
    case Err(e) => Err(LoweringFailed(e))
    case Ok(l) =>
      if l.stopped then Ok(Stopped(l.gen.diags))
      else
        match CodeGenAll(Assigns(l.gen.stmts), map[], fuel)
        case Err(e) => Err(CodeGenFailed(e))
        case Ok(p) => Ok(Done(l.gen.stmts, p, l.gen.diags))
  }

  /** A result that is not an application stops the rewrite with one report and nothing
      emitted. */
  lemma RewriteStopsOnNonApplication(buffer: Value, result: Value, first: nat, fuel: nat)
    requires !result.Arg? && !result.Apply?
    ensures Rewrite(Some(OutOp(buffer, result)), first, fuel) == Ok(Stopped([OutNotApply]))
  {
    assert [] + [OutNotApply] == [OutNotApply];
  }
}
