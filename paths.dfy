// Access paths: the stack of tokens code generation carries from a use of a value back
// to the buffer it reads or writes. The markers left by the lowering (join, split,
// transpose, slide, pad, fst, snd, zip) each rewrite the top of the stack with small
// index formulas built from host integer operations; `Eval` gives those operations
// their 64-bit meaning so that the formulas' laws can be stated.
module AccessPaths {
  import opened Outcomes
  import opened RiseTypes
  import opened RiseIR
  import opened Int64

  /** A path element: a tuple selector (1 for the first component, 0 for the second) or
      an index, which is an IR value of index type. */
  datatype Token = Sel(sel: int) | Ix(index: Value)

  /** A stack of tokens; the top is the last element. */
  type Path = seq<Token>

  /** The ways code generation goes wrong: popping an empty path, finding a selector
      where an index is needed, and the other failures the source does not guard. */
  datatype Fault =
    | PopFromEmptyPath
    | SelectorWhereIndexExpected
    | ZipWithoutSelector
    | NotAMemRef
    | EraseFromEmptyIndexList
    | StoreToEmbedWithOperands
    | BlockArgumentHasNoDefiningOp
    | TooFewRegionArguments
    | OutOfFuel

  // ---------------------------------------------------------------------------------
  // The index formulas
  // ---------------------------------------------------------------------------------

  const I1: MlirType := Builtin("i1")

  /** `i * c + j`, the flat index of element `(i, j)` of rows of length `c`. */
  function Compose(i: Value, c: int, j: Value): Value
  {
    IndexOp(AddIK, IndexOp(MulIK, i, ConstIndex(c)), j)
  }

  /** `k mod c` computed as in the affine-to-standard lowering: the signed remainder,
      plus `c` when it is negative. */
  function CorrectedRemainder(k: Value, c: int): Value
  {
    var rem := IndexOp(RemSIK, k, ConstIndex(c));
    Select(Op2(CmpSltK, rem, ConstIndex(0), I1), IndexOp(AddIK, rem, ConstIndex(c)), rem, IndexType)
  }

  /** The pad clamp `(i < l) ? 0 : (i < l + n) ? i - l : n - 1`. */
  function PadClamp(i: Value, n: int, l: int): Value
  {
    Select(Op2(CmpSltK, i, ConstIndex(l), I1), ConstIndex(0), PadInner(i, n, l), IndexType)
  }

  function PadInner(i: Value, n: int, l: int): Value
  {
    Select(Op2(CmpSltK, i, IndexOp(AddIK, ConstIndex(l), ConstIndex(n)), I1),
           IndexOp(SubIK, i, ConstIndex(l)),
           IndexOp(SubIK, ConstIndex(n), ConstIndex(1)), IndexType)
  }

  // ---------------------------------------------------------------------------------
  // Stack operations
  // ---------------------------------------------------------------------------------

  function Top(p: Path): Token requires |p| > 0 { p[|p| - 1] }
  function Below(p: Path): Path requires |p| > 0 { p[..|p| - 1] }

  datatype Popped = Popped(index: Value, rest: Path)

  /** Pop the top token, which has to be an index. */
  function PopIndex(p: Path): (r: Result<Popped, Fault>)
    ensures r.Ok? <==> |p| > 0 && Top(p).Ix?
    ensures r.Ok? ==> r.value == Popped(Top(p).index, Below(p))
  {
    if |p| == 0 then Err(PopFromEmptyPath)
    else if Top(p).Sel? then Err(SelectorWhereIndexExpected)
    else Ok(Popped(Top(p).index, Below(p)))
  }

  /** Pop `i` (the top), then `j`, and push `i * c + j`: the store-side join accessor
      (with `c = m`), the read-side split (with `c = n`) and slide (with `c = sp`). */
  function ComposeTop(c: int, p: Path): (r: Result<Path, Fault>)
  {
    var i :- PopIndex(p);
    var j :- PopIndex(i.rest);
    Ok(j.rest + [Ix(Compose(i.index, c, j.index))])
  }

  /** Pop a flat index `k` and push `k mod c`, then `k div c`, so that the quotient ends
      on top. The store-side split accessor divides unsigned, the read-side join signed. */
  function DecomposeTop(c: int, p: Path, unsigned: bool): (r: Result<Path, Fault>)
  {
    var k :- PopIndex(p);
    var quotient := IndexOp(if unsigned then DivUIK else DivSIK, k.index, ConstIndex(c));
    Ok(k.rest + [Ix(CorrectedRemainder(k.index, c)), Ix(quotient)])
  }

  /** The store side of join: the accessor that presents an `n.m` array as `n*m`. */
  function StoreJoinAcc(m: int, p: Path): Result<Path, Fault> { ComposeTop(m, p) }

  /** The store side of split: the accessor that presents an `n*m` array as `m.n`. */
  function StoreSplitAcc(n: int, p: Path): Result<Path, Fault> { DecomposeTop(n, p, true) }

  function ReadSplit(n: int, p: Path): Result<Path, Fault> { ComposeTop(n, p) }
  function ReadJoin(m: int, p: Path): Result<Path, Fault> { DecomposeTop(m, p, false) }
  function ReadSlide(sp: int, p: Path): Result<Path, Fault> { ComposeTop(sp, p) }

  /** Transpose exchanges the top two tokens, whatever they are. */
  function ReadTranspose(p: Path): (r: Result<Path, Fault>)
  {
    if |p| < 2 then Err(PopFromEmptyPath)
    else Ok(p[..|p| - 2] + [p[|p| - 1], p[|p| - 2]])
  }

  /** Pad replaces the top index by its clamp into the unpadded array. */
  function ReadPad(n: int, l: int, p: Path): (r: Result<Path, Fault>)
  {
    var i :- PopIndex(p);
    Ok(i.rest + [Ix(PadClamp(i.index, n, l))])
  }

  datatype ZipChoice = ZipChoice(first: bool, rest: Path)

  /** Zip removes the selector just below the top index and says which side it picks. */
  function ReadZip(p: Path): (r: Result<ZipChoice, Fault>)
  {
    if |p| < 2 then Err(PopFromEmptyPath)
    else if p[|p| - 2].Ix? then Err(ZipWithoutSelector)
    else Ok(ZipChoice(p[|p| - 2].sel != 0, p[..|p| - 2] + [p[|p| - 1]]))
  }

  // ---------------------------------------------------------------------------------
  // Shape laws of the steps
  // ---------------------------------------------------------------------------------

  /** Composing consumes two indices and pushes one; the tokens below are untouched. */
  lemma ComposeTopShape(c: int, p: Path)
    ensures ComposeTop(c, p).Ok? <==> |p| >= 2 && p[|p| - 1].Ix? && p[|p| - 2].Ix?
    ensures ComposeTop(c, p).Ok? ==>
      ComposeTop(c, p).value == p[..|p| - 2] + [Ix(Compose(p[|p| - 1].index, c, p[|p| - 2].index))]
  {
    if |p| >= 2 && p[|p| - 1].Ix? {
      assert Below(p)[..|Below(p)| - 1] == p[..|p| - 2];
    }
  }

  /** Decomposing consumes one index and pushes two, the quotient on top. */
  lemma DecomposeTopShape(c: int, p: Path, unsigned: bool)
    ensures DecomposeTop(c, p, unsigned).Ok? <==> |p| >= 1 && Top(p).Ix?
    ensures DecomposeTop(c, p, unsigned).Ok? ==>
      DecomposeTop(c, p, unsigned).value ==
        Below(p) + [Ix(CorrectedRemainder(Top(p).index, c)),
                    Ix(IndexOp(if unsigned then DivUIK else DivSIK, Top(p).index, ConstIndex(c)))]
  {
  }

  /** Transpose fails exactly on paths shorter than two and is an involution. */
  lemma TransposeInvolution(p: Path)
    ensures ReadTranspose(p).Ok? <==> |p| >= 2
    ensures ReadTranspose(p).Ok? ==>
      |ReadTranspose(p).value| == |p| &&
      ReadTranspose(p).value[..|p| - 2] == p[..|p| - 2] &&
      ReadTranspose(ReadTranspose(p).value) == Ok(p)
  {
    if |p| >= 2 {
      var q := ReadTranspose(p).value;
      assert q[..|q| - 2] == p[..|p| - 2];
      assert q[..|q| - 2] + [q[|q| - 1], q[|q| - 2]] == p;
    }
  }

  /** Zip needs a selector just below the top; it drops it and keeps the top index. */
  lemma ZipShape(p: Path)
    ensures ReadZip(p).Ok? <==> |p| >= 2 && p[|p| - 2].Sel?
    ensures ReadZip(p).Ok? ==>
      ReadZip(p).value.first == (p[|p| - 2].sel != 0) &&
      ReadZip(p).value.rest == p[..|p| - 2] + [Top(p)]
  {
  }

  // ---------------------------------------------------------------------------------
  // 64-bit meaning of index expressions
  // ---------------------------------------------------------------------------------

  /** One host integer operation on 64-bit operands; `None` where the result is
      undefined (division by zero, and the one signed division that overflows). */
  function EvalBinary(k: Kind2, x: int, y: int): (r: Option<int>)
    requires InI64(x) && InI64(y)
    ensures r.Some? ==> InI64(r.value)
  {
    match k
    case MulIK => Some(Wrap(x * y))
    case AddIK => Some(Wrap(x + y))
    case SubIK => Some(Wrap(x - y))
    case RemSIK =>
      if y == 0 || (x == I64Min && y == -1) then None
      else TruncDivRange(x, y); Some(TruncRem(x, y))
    case DivSIK =>
      if y == 0 || (x == I64Min && y == -1) then None
      else TruncDivRange(x, y); Some(TruncDiv(x, y))
    case DivUIK => if y == 0 then None else Some(Wrap(Unsigned(x) / Unsigned(y)))
    case CmpSltK => Some(if x < y then 1 else 0)
    case _ => None
  }

  /** The value of an index expression, given the values of the block arguments (loop
      induction variables) it uses. */
  function Eval(v: Value, env: map<nat, int>): (r: Option<int>)
    ensures r.Some? ==> InI64(r.value)
  {
    match v
    case Arg(id, _) => if id in env then Some(Wrap(env[id])) else None
    case Op0(ConstIndexK(c), _) => Some(Wrap(c))
    case Op2(k, a, b, _) =>
      var x, y := Eval(a, env), Eval(b, env);
      if x.Some? && y.Some? then EvalBinary(k, x.value, y.value) else None
    case Select(c, a, b, _) =>
      var x, y, z := Eval(c, env), Eval(a, env), Eval(b, env);
      if x.Some? && y.Some? && z.Some? then (if x.value != 0 then y else z) else None
    case _ => None
  }

  /** One step of evaluation: a constant. */
  lemma EvalConst(c: int, env: map<nat, int>)
    requires InI64(c)
    ensures Eval(ConstIndex(c), env) == Some(c)
  {
  }

  /** One step of evaluation: a binary operation on evaluated operands. */
  lemma EvalOp2(k: Kind2, a: Value, b: Value, ty: MlirType, env: map<nat, int>, x: int, y: int)
    requires Eval(a, env) == Some(x) && Eval(b, env) == Some(y)
    ensures InI64(x) && InI64(y)
    ensures Eval(Op2(k, a, b, ty), env) == EvalBinary(k, x, y)
  {
  }

  /** One step of evaluation: a select on evaluated operands. */
  lemma EvalSelect(c: Value, a: Value, b: Value, ty: MlirType, env: map<nat, int>, z: int, x: int, y: int)
    requires Eval(c, env) == Some(z) && Eval(a, env) == Some(x) && Eval(b, env) == Some(y)
    ensures Eval(Select(c, a, b, ty), env) == Some(if z != 0 then x else y)
  {
  }

  /** The composed index `i * c + j` evaluates to exactly that when it fits. */
  lemma ComposeEval(i: Value, c: int, j: Value, env: map<nat, int>, x: int, y: int)
    requires Eval(i, env) == Some(x) && Eval(j, env) == Some(y) && InI64(c)
    requires InI64(x * c) && InI64(x * c + y)
    ensures Eval(Compose(i, c, j), env) == Some(x * c + y)
  {
    var cst := ConstIndex(c);
    EvalConst(c, env);
    var prod := IndexOp(MulIK, i, cst);
    EvalOp2(MulIK, i, cst, IndexType, env, x, c);
    assert EvalBinary(MulIK, x, c) == Some(x * c);
    EvalOp2(AddIK, prod, j, IndexType, env, x * c, y);
    assert EvalBinary(AddIK, x * c, y) == Some(x * c + y);
  }

  /** For a non-negative index and a positive divisor, the corrected remainder is the
      plain remainder: the correcting `select` never fires. */
  lemma CorrectedRemainderEval(k: Value, c: int, env: map<nat, int>, x: int)
    requires Eval(k, env) == Some(x) && x >= 0 && 0 < c <= I64Max
    ensures Eval(CorrectedRemainder(k, c), env) == Some(x % c)
  {
    var cst := ConstIndex(c);
    EvalConst(c, env);
    EvalConst(0, env);
    var rem := IndexOp(RemSIK, k, cst);
    EvalOp2(RemSIK, k, cst, IndexType, env, x, c);
    var r := x % c;
    RemainderOfNonNegative(x, c);
    assert EvalBinary(RemSIK, x, c) == Some(r);
    var negative := Op2(CmpSltK, rem, ConstIndex(0), I1);
    EvalOp2(CmpSltK, rem, ConstIndex(0), I1, env, r, 0);
    assert EvalBinary(CmpSltK, r, 0) == Some(0);
    var corrected := IndexOp(AddIK, rem, cst);
    EvalOp2(AddIK, rem, cst, IndexType, env, r, c);
    var cr := EvalBinary(AddIK, r, c).value;
    EvalSelect(negative, corrected, rem, IndexType, env, 0, cr, r);
  }

  /** The signed remainder of 64-bit non-negative operands is the mathematical one. */
  lemma RemainderOfNonNegative(x: int, c: int)
    requires InI64(x) && x >= 0 && 0 < c <= I64Max
    ensures !(x == I64Min && c == -1) && TruncRem(x, c) == x % c && 0 <= x % c < c
  {
    TruncDivRange(x, c);
  }

  /** The signed and the unsigned quotient agree on a non-negative index. */
  lemma QuotientEval(k: Value, c: int, env: map<nat, int>, x: int, unsigned: bool)
    requires Eval(k, env) == Some(x) && x >= 0 && 0 < c <= I64Max
    ensures Eval(IndexOp(if unsigned then DivUIK else DivSIK, k, ConstIndex(c)), env) == Some(x / c)
  {
    var cst := ConstIndex(c);
    EvalConst(c, env);
    EvalOp2(if unsigned then DivUIK else DivSIK, k, cst, IndexType, env, x, c);
    QuotientOfNonNegative(x, c, unsigned);
  }

  /** Both host divisions of 64-bit non-negative operands give the mathematical
      quotient. */
  lemma QuotientOfNonNegative(x: int, c: int, unsigned: bool)
    requires InI64(x) && x >= 0 && 0 < c <= I64Max
    ensures EvalBinary(if unsigned then DivUIK else DivSIK, x, c) == Some(x / c)
  {
    DivIsAtMost(x, c);
    if unsigned {
      assert Unsigned(x) == x && Unsigned(c) == c;
      assert InI64(x / c);
    } else {
      TruncDivRange(x, c);
    }
  }

  /** Round trip through join: the read-side join decomposition of the index the
      store-side join accessor composed from `(i, j)` gives back `j` under `i`. */
  lemma {:induction false} JoinRoundTrip(m: int, p: Path, i: Value, j: Value, env: map<nat, int>, x: int, y: int)
    requires 0 < m <= I64Max && Eval(i, env) == Some(x) && Eval(j, env) == Some(y)
    requires 0 <= x && 0 <= y < m && x * m + y <= I64Max
    ensures StoreJoinAcc(m, p + [Ix(j), Ix(i)]).Ok?
    ensures ReadJoin(m, StoreJoinAcc(m, p + [Ix(j), Ix(i)]).value).Ok?
    ensures var q := ReadJoin(m, StoreJoinAcc(m, p + [Ix(j), Ix(i)]).value).value;
      |q| == |p| + 2 && q[..|p|] == p && q[|p|].Ix? && q[|p| + 1].Ix? &&
      Eval(q[|p|].index, env) == Some(y) && Eval(q[|p| + 1].index, env) == Some(x)
  {
    var p0 := p + [Ix(j), Ix(i)];
    ComposeTopShape(m, p0);
    assert p0[..|p0| - 2] == p;
    var k := Compose(i, m, j);
    var p1 := StoreJoinAcc(m, p0).value;
    assert p1 == p + [Ix(k)];
    assert 0 <= x * m <= x * m + y by {
      assert x * m >= 0;
    }
    ComposeEval(i, m, j, env, x, y);
    DecomposeTopShape(m, p1, false);
    assert Below(p1) == p;
    CorrectedRemainderEval(k, m, env, x * m + y);
    QuotientEval(k, m, env, x * m + y, false);
    LinearDivMod(x, m, y);
  }

  /** Round trip through split: the read-side split composition of the two indices the
      store-side split accessor decomposed a flat index `k` into gives back `k`. */
  lemma {:induction false} SplitRoundTrip(n: int, p: Path, k: Value, env: map<nat, int>, x: int)
    requires 0 < n <= I64Max && Eval(k, env) == Some(x) && 0 <= x
    ensures StoreSplitAcc(n, p + [Ix(k)]).Ok?
    ensures ReadSplit(n, StoreSplitAcc(n, p + [Ix(k)]).value).Ok?
    ensures var q := ReadSplit(n, StoreSplitAcc(n, p + [Ix(k)]).value).value;
      |q| == |p| + 1 && q[..|p|] == p && q[|p|].Ix? && Eval(q[|p|].index, env) == Some(x)
  {
    var p0 := p + [Ix(k)];
    DecomposeTopShape(n, p0, true);
    assert Below(p0) == p;
    var rem := CorrectedRemainder(k, n);
    var quo := IndexOp(DivUIK, k, ConstIndex(n));
    var p1 := StoreSplitAcc(n, p0).value;
    assert p1 == p + [Ix(rem), Ix(quo)];
    ComposeTopShape(n, p1);
    assert p1[..|p1| - 2] == p;
    SplitIndexEval(k, n, env, x);
  }

  /** The arithmetic of the split round trip: `(k div n) * n + k mod n == k`. */
  lemma SplitIndexEval(k: Value, n: int, env: map<nat, int>, x: int)
    requires 0 < n <= I64Max && Eval(k, env) == Some(x) && 0 <= x
    ensures Eval(Compose(IndexOp(DivUIK, k, ConstIndex(n)), n, CorrectedRemainder(k, n)), env) == Some(x)
  {
    var qv, rv := x / n, x % n;
    CorrectedRemainderEval(k, n, env, x);
    QuotientEval(k, n, env, x, true);
    DivModParts(x, n);
    ComposeEval(IndexOp(DivUIK, k, ConstIndex(n)), n, CorrectedRemainder(k, n), env, qv, rv);
  }

  /** The pad clamp selects `0` left of the array, `i - l` inside it and `n - 1` right
      of it; for `n >= 1` the result is a valid index into the unpadded array. */
  lemma PadClampEval(i: Value, n: int, l: int, env: map<nat, int>, x: int)
    requires Eval(i, env) == Some(x) && 1 <= n && 0 <= l && l + n <= I64Max
    ensures Eval(PadClamp(i, n, l), env) ==
      Some(if x < l then 0 else if x < l + n then x - l else n - 1)
    ensures 0 <= Eval(PadClamp(i, n, l), env).value <= n - 1
  {
    PadInnerEval(i, n, l, env, x);
    EvalConst(l, env);
    EvalConst(0, env);
    var test := Op2(CmpSltK, i, ConstIndex(l), I1);
    EvalOp2(CmpSltK, i, ConstIndex(l), I1, env, x, l);
    var inner := if x < l + n then Wrap(x - l) else n - 1;
    if l <= x {
      assert InI64(x - l);
    }
    EvalSelect(test, ConstIndex(0), PadInner(i, n, l), IndexType, env, if x < l then 1 else 0, 0, inner);
  }

  lemma PadInnerEval(i: Value, n: int, l: int, env: map<nat, int>, x: int)
    requires Eval(i, env) == Some(x) && 1 <= n && 0 <= l && l + n <= I64Max
    ensures Eval(PadInner(i, n, l), env) == Some(if x < l + n then Wrap(x - l) else n - 1)
  {
    EvalConst(l, env);
    EvalConst(n, env);
    EvalConst(1, env);
    var bound := IndexOp(AddIK, ConstIndex(l), ConstIndex(n));
    EvalOp2(AddIK, ConstIndex(l), ConstIndex(n), IndexType, env, l, n);
    assert EvalBinary(AddIK, l, n) == Some(l + n);
    var test := Op2(CmpSltK, i, bound, I1);
    EvalOp2(CmpSltK, i, bound, I1, env, x, l + n);
    var inside := IndexOp(SubIK, i, ConstIndex(l));
    EvalOp2(SubIK, i, ConstIndex(l), IndexType, env, x, l);
    var last := IndexOp(SubIK, ConstIndex(n), ConstIndex(1));
    EvalOp2(SubIK, ConstIndex(n), ConstIndex(1), IndexType, env, n, 1);
    assert EvalBinary(SubIK, n, 1) == Some(n - 1);
    EvalSelect(test, inside, last, IndexType, env, if x < l + n then 1 else 0, Wrap(x - l), n - 1);
  }

  // ---------------------------------------------------------------------------------
  // Flattening a path into an index list
  // ---------------------------------------------------------------------------------

  /** The index tokens of a path in push order; selectors are dropped. */
  function Indices(p: Path): (r: seq<Value>)
    ensures |r| <= |p|
  {
    if p == [] then []
    else (if Top(p).Ix? then Indices(Below(p)) + [Top(p).index] else Indices(Below(p)))
  }

  function Reverse<T>(s: seq<T>): (r: seq<T>)
    ensures |r| == |s| && forall i :: 0 <= i < |s| ==> r[i] == s[|s| - 1 - i]
  {
    if s == [] then [] else [s[|s| - 1]] + Reverse(s[..|s| - 1])
  }

  /** Pushing a selector adds no index; pushing an index adds it last. */
  lemma IndicesPush(p: Path, t: Token)
    ensures Indices(p + [t]) == if t.Ix? then Indices(p) + [t.index] else Indices(p)
  {
    assert Below(p + [t]) == p;
  }

  /** Every collected index comes from an index token of the path. */
  lemma {:induction false} IndicesFromTokens(p: Path, v: Value)
    ensures v in Indices(p) <==> Ix(v) in p
  {
    if p != [] {
      IndicesFromTokens(Below(p), v);
      assert p == Below(p) + [Top(p)];
    }
  }

  /** Collect the index tokens walking the path from its top down: the first index is
      the last one pushed. */
  method CollectIndices(p: Path) returns (indexValues: seq<Value>)
    ensures indexValues == Reverse(Indices(p))
  {
    indexValues := [];
    var k := |p|;
    assert p[..k] == p;
    while k > 0
      invariant 0 <= k <= |p|
      invariant Reverse(Indices(p)) == indexValues + Reverse(Indices(p[..k]))
    {
      var rest := p[..k - 1];
      assert p[..k] == rest + [p[k - 1]];
      IndicesPush(rest, p[k - 1]);
      if p[k - 1].Ix? {
        ReversePush(Indices(rest), p[k - 1].index);
        indexValues := indexValues + [p[k - 1].index];
      }
      k := k - 1;
    }
    assert p[..0] == [];
  }

  lemma ReversePush<T>(s: seq<T>, x: T)
    ensures Reverse(s + [x]) == [x] + Reverse(s)
  {
    assert (s + [x])[..|s|] == s;
  }

  /** The read (load) of `accessVal` at the path, as the write-access generator builds it:
      all collected indices, no rank adjustment. */
  function WriteAccess(p: Path, accessVal: Value): (r: Result<Value, Fault>)
  {
    var t := TypeOf(accessVal);
    if t.MemRef? then Ok(Load(accessVal, Reverse(Indices(p)), t.element)) else Err(NotAMemRef)
  }

  /** A store of `value` into `memref` at `indices`. */
  datatype StoreOp = StoreOp(value: Value, memref: Value, indices: seq<Value>)

  /** The store of `storeVal` into `storeLoc` at the path, as the read-access generator
      builds it: when the number of collected indices differs from the rank of the
      buffer, the first collected index (the last one pushed) is dropped. */
  function ReadAccess(p: Path, storeVal: Value, storeLoc: Value): (r: Result<StoreOp, Fault>)
  {
    var t := TypeOf(storeLoc);
    var ix := Reverse(Indices(p));
    if !t.MemRef? then Err(NotAMemRef)
    else if |ix| == |t.shape| then Ok(StoreOp(storeVal, storeLoc, ix))
    else if ix == [] then Err(EraseFromEmptyIndexList)
    else Ok(StoreOp(storeVal, storeLoc, ix[1..]))
  }

  /** The load reads every index of the path, the most recently pushed first. */
  method GenerateWriteAccess(p: Path, accessVal: Value) returns (r: Result<Value, Fault>)
    ensures r == WriteAccess(p, accessVal)
    ensures r.Ok? <==> TypeOf(accessVal).MemRef?
    ensures r.Ok? ==> r.value.Load? && r.value.memref == accessVal &&
                      r.value.indices == Reverse(Indices(p)) &&
                      r.value.ty == TypeOf(accessVal).element
  {
    var indexValues := CollectIndices(p);
    var t := TypeOf(accessVal);
    if !t.MemRef? {
      return Err(NotAMemRef);
    }
    return Ok(Load(accessVal, indexValues, t.element));
  }

  /** The store uses every index of the path when their number is the buffer's rank,
      and otherwise all but the most recently pushed one (an error if there is none). */
  method GenerateReadAccess(p: Path, storeVal: Value, storeLoc: Value) returns (r: Result<StoreOp, Fault>)
    ensures r == ReadAccess(p, storeVal, storeLoc)
    ensures r.Ok? <==> TypeOf(storeLoc).MemRef? && (|Indices(p)| == |TypeOf(storeLoc).shape| || |Indices(p)| > 0)
    ensures r.Ok? ==>
      r.value.value == storeVal && r.value.memref == storeLoc &&
      r.value.indices == (if |Indices(p)| == |TypeOf(storeLoc).shape| then Reverse(Indices(p))
                          else Reverse(Indices(p))[1..])
  {
    var indexValues := CollectIndices(p);
    var t := TypeOf(storeLoc);
    if !t.MemRef? {
      return Err(NotAMemRef);
    }
    if |indexValues| != |t.shape| {
      if |indexValues| == 0 {
        return Err(EraseFromEmptyIndexList);
      }
      indexValues := indexValues[1..];
    }
    return Ok(StoreOp(storeVal, storeLoc, indexValues));
  }
}
