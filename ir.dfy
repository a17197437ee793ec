// Values of a function body during the Rise-to-imperative lowering. An SSA value is
// modelled by the operation that defines it, with its operands as sub-values (the IR is
// read as a tree), or as a block argument identified by number.
module RiseIR {
  import opened Outcomes
  import opened RiseTypes

  /** The Rise primitives ("functions" whose result is applied), with the attributes the
      lowering and the strategies read. `to` is the optional lowering target attribute. */
  datatype Prim =
    | MapSeqP(n: Nat, s: DataType, t: DataType, to: Option<string>)
    | MapParP(n: Nat, s: DataType, t: DataType, to: Option<string>)
    | ReduceSeqP(n: Nat, s: DataType, t: DataType, to: Option<string>)
    | SplitP(n: Nat, m: Nat, t: DataType)
    | JoinP(n: Nat, m: Nat, t: DataType)
    | TransposeP
    | SlideP(n: Nat, sz: Nat, sp: Nat, t: DataType)
    | PadP(n: Nat, l: Nat, r: Nat, t: DataType)
    | ZipP
    | FstP
    | SndP
    | AddP
    | MulP
    | IdP
    | OtherP(name: string)

  /** The high-level builders the rewriting strategies call to construct new terms. */
  datatype Builder =
    | ReduceSeqB(t: DataType)
    | MapSeqB(target: string, t: DataType)
    | MapSeq2DB(t: DataType)
    | SplitB(n: int)
    | JoinB
    | LambdaB(params: seq<nat>)
    | ApplyB(t: DataType)

  /** Operations without operands: Rise primitives and literals, and the host
      allocation (numbered, so that two buffers of one shape stay distinct) and
      constants. */
  datatype Kind0 =
    | PrimK(prim: Prim)
    | LiteralK(litType: DataType, text: string)
    | AllocK(id: nat, shape: seq<int>)
    | ConstFloatK(text: string)
    | ConstIndexK(c: int)

  /** Operations with one operand: `rise.in`, the cast of the output, and the lowering's
      intermediate operations that view one array (or access it, for the `Acc` kinds). */
  datatype Kind1 =
    | InK
    | CastK
    | JoinAccK(n: Nat, m: Nat, t: DataType)
    | SplitAccK(n: Nat, m: Nat, t: DataType)
    | FstK
    | SndK
    | SplitK(n: Nat, m: Nat, t: DataType)
    | JoinK(n: Nat, m: Nat, t: DataType)
    | TransposeK
    | SlideK(n: Nat, sz: Nat, sp: Nat, t: DataType)

  /** Operations with two operands: indexing, zip, pad (pad value, then array), the
      scalar binary operation, and the host's integer and float arithmetic. */
  datatype Kind2 =
    | IdxK
    | ZipK
    | PadK(n: Nat, l: Nat, r: Nat, t: DataType)
    | BinaryK(op: string)
    | MulIK
    | AddIK
    | SubIK
    | RemSIK
    | DivSIK
    | DivUIK
    | CmpSltK
    | AddFK
    | MulFK

  datatype Value =
    | Arg(id: nat, ty: MlirType)
    | Apply(fun: Value, args: seq<Value>, ty: MlirType)
    | Lambda(params: seq<nat>, ret: Value, ty: MlirType)
    | Embed(id: nat, operands: seq<Value>, params: seq<nat>, ret: Value, ty: MlirType)
    | Op0(k0: Kind0, ty: MlirType)
    | Op1(k1: Kind1, x: Value, ty: MlirType)
    | Op2(k2: Kind2, a: Value, b: Value, ty: MlirType)
    | Select(cond: Value, a: Value, b: Value, ty: MlirType)
    | Load(memref: Value, indices: seq<Value>, ty: MlirType)
    | HostOp(name: string, operands: seq<Value>, ty: MlirType)
    | Built(builder: Builder, operands: seq<Value>)

  /** The result type of a value. The builders' own type inference is not modelled. */
  function TypeOf(v: Value): MlirType
  {
    if v.Built? then Builtin("none") else v.ty
  }

  // Operations at their result types
  function PrimOp(p: Prim, t: MlirType): Value { Op0(PrimK(p), t) }
  function Literal(d: DataType, text: string): Value { Op0(LiteralK(d, text), Rise(DataTypeWrapper(d))) }
  function Alloc(id: nat, shape: seq<int>): Value { Op0(AllocK(id, shape), MemRef(shape, F32)) }
  function ConstFloat(text: string): Value { Op0(ConstFloatK(text), F32) }
  function ConstIndex(c: int): Value { Op0(ConstIndexK(c), IndexType) }
  function IndexOp(k: Kind2, a: Value, b: Value): Value { Op2(k, a, b, IndexType) }

  /** Block arguments have no defining operation; every other value is an op result. */
  predicate IsOpResult(v: Value) { !v.Arg? }

  // ---------------------------------------------------------------------------------
  // Children and substitution
  // ---------------------------------------------------------------------------------

  /** The sub-values of a value: its operands and, for lambda and embed, the value its
      region returns. */
  function Children(v: Value): (cs: seq<Value>)
    ensures forall c :: c in cs ==> c < v
  {
    match v
    case Arg(_, _) => []
    case Apply(f, args, _) => [f] + args
    case Lambda(_, ret, _) => [ret]
    case Embed(_, ops, _, ret, _) => ops + [ret]
    case Op0(_, _) => []
    case Op1(_, x, _) => [x]
    case Op2(_, a, b, _) => [a, b]
    case Select(c, a, b, _) => [c, a, b]
    case Load(m, ix, _) => [m] + ix
    case HostOp(_, ops, _) => ops
    case Built(_, ops) => ops
  }

  /** `v` with its sub-values replaced, position by position, by `cs`. */
  function WithChildren(v: Value, cs: seq<Value>): (w: Value)
    requires |cs| == |Children(v)|
    ensures w.Arg? == v.Arg? && Children(w) == cs
  {
    match v
    case Arg(_, _) => v
    case Apply(_, _, ty) => Apply(cs[0], cs[1..], ty)
    case Lambda(ps, _, ty) => Lambda(ps, cs[0], ty)
    case Embed(id, ops, ps, _, ty) => Embed(id, cs[..|ops|], ps, cs[|ops|], ty)
    case Op0(_, _) => v
    case Op1(k, _, ty) => Op1(k, cs[0], ty)
    case Op2(k, _, _, ty) => Op2(k, cs[0], cs[1], ty)
    case Select(_, _, _, ty) => Select(cs[0], cs[1], cs[2], ty)
    case Load(_, _, ty) => Load(cs[0], cs[1..], ty)
    case HostOp(name, _, ty) => HostOp(name, cs, ty)
    case Built(b, _) => Built(b, cs)
  }

  lemma WithOwnChildren(v: Value)
    ensures WithChildren(v, Children(v)) == v
  {
  }

  /** Does block argument `id` occur in `v`? */
  predicate Mentions(v: Value, id: nat)
  {
    (v.Arg? && v.id == id) || exists i :: 0 <= i < |Children(v)| && Mentions(Children(v)[i], id)
  }

  /** Replace every use of block argument `k in s` by `s[k]` (all at once). */
  function Subst(v: Value, s: map<nat, Value>): Value
    decreases v, 1
  {
    if v.Arg? && v.id in s then s[v.id] else WithChildren(v, SubstChildren(v, s))
  }

  function SubstChildren(v: Value, s: map<nat, Value>): (cs: seq<Value>)
    ensures |cs| == |Children(v)|
    ensures forall i :: 0 <= i < |cs| ==> cs[i] == Subst(Children(v)[i], s)
    decreases v, 0
  {
    seq(|Children(v)|, i requires 0 <= i < |Children(v)| => Subst(Children(v)[i], s))
  }

  /** A value that mentions none of the substituted arguments is left as it is. */
  lemma {:induction false} SubstUnmentioned(v: Value, s: map<nat, Value>)
    requires forall k :: k in s ==> !Mentions(v, k)
    ensures Subst(v, s) == v
  {
    if !(v.Arg? && v.id in s) {
      var cs := Children(v);
      forall i | 0 <= i < |cs|
        ensures SubstChildren(v, s)[i] == cs[i]
      {
        SubstUnmentioned(cs[i], s);
      }
      assert SubstChildren(v, s) == cs;
      WithOwnChildren(v);
    }
  }

  /** Substituting one argument and then a map that does not touch it (nor what replaced
      it) is one substitution by the extended map. */
  lemma {:induction false} SubstCompose(v: Value, p: nat, a: Value, m: map<nat, Value>)
    requires p !in m
    requires Subst(a, m) == a
    ensures Subst(Subst(v, map[p := a]), m) == Subst(v, m[p := a])
    decreases v, 2
  {
    if v.Arg? && v.id == p {
    } else if v.Arg? {
      assert Subst(v, map[p := a]) == v;
    } else {
      SubstComposeOp(v, p, a, m);
    }
  }

  lemma {:induction false} SubstComposeOp(v: Value, p: nat, a: Value, m: map<nat, Value>)
    requires !v.Arg? && p !in m
    requires Subst(a, m) == a
    ensures Subst(Subst(v, map[p := a]), m) == Subst(v, m[p := a])
    decreases v, 1
  {
    var cs1 := SubstChildren(v, map[p := a]);
    var w := WithChildren(v, cs1);
    assert Subst(v, map[p := a]) == w;
    var cs2 := SubstChildren(w, m);
    assert Subst(w, m) == WithChildren(w, cs2);
    assert Subst(v, m[p := a]) == WithChildren(v, SubstChildren(v, m[p := a]));
    SubstComposeChildren(v, w, p, a, m);
    WithChildrenTwice(v, cs1, cs2);
  }

  /** The composition, child by child: `w` has the children of `v` after the first
      substitution. */
  lemma {:induction false} SubstComposeChildren(v: Value, w: Value, p: nat, a: Value, m: map<nat, Value>)
    requires p !in m
    requires Subst(a, m) == a
    requires |Children(w)| == |Children(v)|
    requires forall i :: 0 <= i < |Children(v)| ==> Children(w)[i] == Subst(Children(v)[i], map[p := a])
    ensures SubstChildren(w, m) == SubstChildren(v, m[p := a])
    decreases v, 0
  {
    var cs2 := SubstChildren(w, m);
    var cs3 := SubstChildren(v, m[p := a]);
    forall i | 0 <= i < |cs3|
      ensures cs2[i] == cs3[i]
    {
      var c := Children(v)[i];
      assert c in Children(v);
      SubstCompose(c, p, a, m);
    }
  }

  lemma WithChildrenTwice(v: Value, cs1: seq<Value>, cs2: seq<Value>)
    requires |cs1| == |Children(v)| == |cs2|
    ensures WithChildren(WithChildren(v, cs1), cs2) == WithChildren(v, cs2)
  {
  }

  // ---------------------------------------------------------------------------------
  // Substituting lambda parameters
  // ---------------------------------------------------------------------------------

  /** Replacing the uses of the lambda's block arguments one by one, argument `i` by
      `args[i]`, as a left fold. */
  function SubstituteSpec(body: Value, params: seq<nat>, args: seq<Value>): Value
    requires |args| <= |params|
    decreases |args|
  {
    if args == [] then body
    else SubstituteSpec(Subst(body, map[params[0] := args[0]]), params[1..], args[1..])
  }

  /** The map sending the first `|args|` parameters to the arguments. */
  function ParamMap(params: seq<nat>, args: seq<Value>): (m: map<nat, Value>)
    requires |args| <= |params|
    ensures forall k :: k in m <==> k in params[..|args|]
    decreases |args|
  {
    if args == [] then map[] else ParamMap(params[1..], args[1..])[params[0] := args[0]]
  }

  predicate Distinct(params: seq<nat>)
  {
    forall i, j :: 0 <= i < j < |params| ==> params[i] != params[j]
  }

  /** With distinct parameters, the map binds parameter `i` to argument `i`. */
  lemma {:induction false} ParamMapAt(params: seq<nat>, args: seq<Value>, i: nat)
    requires |args| <= |params| && Distinct(params) && i < |args|
    ensures ParamMap(params, args)[params[i]] == args[i]
  {
    if i > 0 {
      assert params[1..][i - 1] == params[i];
      assert params[i] != params[0];
      ParamMapAt(params[1..], args[1..], i - 1);
    }
  }

  /** The successive replacements are one simultaneous substitution when the parameters
      are distinct and no argument mentions a parameter: each argument is put exactly
      where its parameter was used. */
  lemma {:induction false} SubstituteIsSimultaneous(body: Value, params: seq<nat>, args: seq<Value>)
    requires |args| <= |params| && Distinct(params)
    requires forall i, k :: 0 <= i < |args| && k in params ==> !Mentions(args[i], k)
    ensures SubstituteSpec(body, params, args) == Subst(body, ParamMap(params, args))
    decreases |args|
  {
    if args != [] {
      var rest := ParamMap(params[1..], args[1..]);
      assert ParamMap(params, args) == rest[params[0] := args[0]];
      assert params[0] !in rest by {
        assert forall j :: 0 <= j < |args| - 1 ==> params[1..][j] == params[j + 1];
      }
      forall k | k in rest
        ensures !Mentions(args[0], k)
      {
        assert k in params[1..][..|args| - 1];
        assert k in params;
      }
      forall i, k | 0 <= i < |args[1..]| && k in params[1..]
        ensures !Mentions(args[1..][i], k)
      {
        assert args[1..][i] == args[i + 1];
        assert k in params;
      }
      assert Distinct(params[1..]);
      var body' := Subst(body, map[params[0] := args[0]]);
      assert SubstituteSpec(body, params, args) == SubstituteSpec(body', params[1..], args[1..]);
      SubstituteIsSimultaneous(body', params[1..], args[1..]);
      assert SubstituteSpec(body', params[1..], args[1..]) == Subst(body', rest);
      SubstUnmentioned(args[0], rest);
      SubstCompose(body, params[0], args[0], rest);
    } else {
      SubstUnmentioned(body, map[]);
    }
  }

  datatype SubstituteError = TooManyArguments(parameters: nat, arguments: nat)

  /** Replace every use of the lambda's `i`-th block argument by `args[i]`. More
      arguments than block arguments is an error. */
  method Substitute(body: Value, params: seq<nat>, args: seq<Value>)
    returns (r: Result<Value, SubstituteError>)
    ensures r.Err? <==> |params| < |args|
    ensures r.Err? ==> r.error == TooManyArguments(|params|, |args|)
    ensures r.Ok? ==> r.value == SubstituteSpec(body, params, args)
  {
    if |params| < |args| {
      return Err(TooManyArguments(|params|, |args|));
    }
    var current := body;
    var i := 0;
    while i < |args|
      invariant 0 <= i <= |args|
      invariant SubstituteSpec(body, params, args) == SubstituteSpec(current, params[i..], args[i..])
    {
      assert params[i..][1..] == params[i + 1..] && args[i..][1..] == args[i + 1..];
      current := Subst(current, map[params[i] := args[i]]);
      i := i + 1;
    }
    return Ok(current);
  }

  /** The arguments a lambda receives from an application: the application's operands from
      the last down to the second (the first is the lambda itself), so `args[k]` is operand
      `|operands| - 1 - k`. */
  function ApplyArguments(operands: seq<Value>): (args: seq<Value>)
    ensures |operands| == 0 ==> args == []
    ensures |operands| > 0 ==> |args| == |operands| - 1
    ensures forall k :: 0 <= k < |args| ==> args[k] == operands[|operands| - 1 - k]
  {
    if |operands| <= 1 then [] else [operands[|operands| - 1]] + ApplyArguments(operands[..|operands| - 1])
  }

  /** The loop that collects them. */
  method LambdaArguments(operands: seq<Value>) returns (args: seq<Value>)
    ensures args == ApplyArguments(operands)
  {
    args := [];
    var i := |operands| - 1;
    while i > 0
      invariant |operands| == 0 ==> i == -1 && args == []
      invariant |operands| > 0 ==> 0 <= i <= |operands| - 1 && |args| == |operands| - 1 - i
      invariant forall k :: 0 <= k < |args| ==> args[k] == operands[|operands| - 1 - k]
    {
      args := args + [operands[i]];
      i := i - 1;
    }
  }
}
