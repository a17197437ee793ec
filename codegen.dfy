// Code generation: after the lowering has produced assignments whose values and
// destinations are chains of intermediate operations, each assignment becomes a load
// expression and a store. Walking the value (`codeGen`) and the destination
// (`codeGenStore`) from the outside in, each marker rewrites the access path; at a
// buffer the path is flattened into an index list.
module CodeGen {
  import opened Outcomes
  import opened RiseTypes
  import opened RiseIR
  import opened AccessPaths
  import opened Int64

  /** The embeds already inlined, each with the value its uses now refer to (inlining
      replaces all uses of the embed's result). */
  type Inlined = map<nat, Value>

  /** Inlining only adds embeds: one inlined stays inlined, to the same value. */
  predicate Extends(bigger: Inlined, smaller: Inlined)
  {
    forall k :: k in smaller ==> k in bigger && bigger[k] == smaller[k]
  }

  datatype Read = Read(value: Value, inlined: Inlined)
  datatype Reads = Reads(values: seq<Value>, inlined: Inlined)
  datatype Stored = Stored(store: StoreOp, inlined: Inlined)

  /** One step of the walk through a marker: the operation to continue with and the
      updated path. */
  datatype Step = Step(next: Value, path: Path)

  /** The intermediate operations `codeGen` walks through without emitting anything:
      each only rewrites the path. */
  predicate IsReadMarker(v: Value)
  {
    (v.Op2? && (v.k2.IdxK? || v.k2.ZipK? || v.k2.PadK?)) ||
    (v.Op1? && (v.k1.FstK? || v.k1.SndK? || v.k1.SplitK? || v.k1.JoinK? || v.k1.TransposeK? || v.k1.SlideK?))
  }

  /** The path update of each read marker: idx pushes its index, fst and snd push the
      selector of their component, zip pops the selector to choose its lhs or rhs, and
      split, join, transpose, slide and pad transform the top of the path. Pad reads its
      array operand; the pad value is not consulted. */
  function ReadMarkerStep(v: Value, p: Path): (r: Result<Step, Fault>)
    requires IsReadMarker(v)
    ensures r.Ok? ==> r.value.next < v
  {
    match v
    case Op2(IdxK, b, i, _) => Ok(Step(b, p + [Ix(i)]))
    case Op2(ZipK, lhs, rhs, _) =>
      var z :- ReadZip(p);
      Ok(Step(if z.first then lhs else rhs, z.rest))
    case Op2(PadK(n, l, _, _), _, x, _) =>
      var q :- ReadPad(n.intValue, l.intValue, p);
      Ok(Step(x, q))
    case Op1(FstK, t, _) => Ok(Step(t, p + [Sel(1)]))
    case Op1(SndK, t, _) => Ok(Step(t, p + [Sel(0)]))
    case Op1(SplitK(n, _, _), x, _) =>
      var q :- ReadSplit(n.intValue, p);
      Ok(Step(x, q))
    case Op1(JoinK(_, m, _), x, _) =>
      var q :- ReadJoin(m.intValue, p);
      Ok(Step(x, q))
    case Op1(TransposeK, x, _) =>
      var q :- ReadTranspose(p);
      Ok(Step(x, q))
    case Op1(SlideK(_, _, sp, _), x, _) =>
      var q :- ReadSlide(sp.intValue, p);
      Ok(Step(x, q))
  }

  /** The value `codeGen` returns for `v` at path `p`: a load of the buffer the markers
      lead to, the value an embed's region computes (with its block arguments replaced by
      the generated operands), or an operation rebuilt from generated operands. `fuel`
      bounds how often an inlined embed is followed to its replacement. */
  function ReadSpec(v: Value, p: Path, inl: Inlined, fuel: nat): (r: Result<Read, Fault>)
    ensures r.Ok? ==> Extends(r.value.inlined, inl)
    decreases fuel, v, 2, 0
  {
    if IsReadMarker(v) then
      var s :- ReadMarkerStep(v, p);
      ReadSpec(s.next, s.path, inl, fuel)
    else if v.Arg? || (v.Op0? && v.k0.AllocK?) then
      var l :- WriteAccess(p, v);
      Ok(Read(l, inl))
    else if v.Embed? then
      if v.id in inl then
        if fuel == 0 then Err(OutOfFuel) else ReadSpec(inl[v.id], p, inl, fuel - 1)
      else
        var rs :- ReadEach(v, v.operands, 0, p, inl, fuel);
        if |v.params| < |v.operands| then Err(TooFewRegionArguments)
        else
          var replacement := SubstituteSpec(v.ret, v.params, rs.values);
          Ok(Read(replacement, rs.inlined[v.id := replacement]))
    else if v.Op2? && v.k2.BinaryK? then
      var ra :- ReadSpec(v.a, [], inl, fuel);
      var rb :- ReadSpec(v.b, [], ra.inlined, fuel);
      Ok(BinaryResult(v, v.k2.op, ra.value, rb))
    else if v.Load? || v.Lambda? then Ok(Read(v, inl))
    else if v.Op1? && (v.k1.InK? || v.k1.CastK?) then
      var l :- WriteAccess(p, v.x);
      Ok(Read(l, inl))
    else
      var rs :- ReadEach(v, Children(v), 0, p, inl, fuel);
      Ok(Read(WithChildren(v, rs.values), rs.inlined))
  }

  /** A binary operation on generated operands: "add" and "mul" become the float
      addition and multiplication, typed as the left operand; any other tag leaves the
      operation as it was. */
  function BinaryResult(v: Value, op: string, a: Value, rb: Read): (r: Read)
    ensures r.inlined == rb.inlined
    ensures op == "add" ==> r.value.Op2? && r.value.k2 == AddFK && r.value.a == a && r.value.b == rb.value
    ensures op == "mul" ==> r.value.Op2? && r.value.k2 == MulFK && r.value.a == a && r.value.b == rb.value
    ensures op != "add" && op != "mul" ==> r.value == v
  {
    if op == "add" then Read(Op2(AddFK, a, rb.value, TypeOf(a)), rb.inlined)
    else if op == "mul" then Read(Op2(MulFK, a, rb.value, TypeOf(a)), rb.inlined)
    else Read(v, rb.inlined)
  }

  /** Code generation for the operands `vs[i..]`, left to right, all at the same path. */
  function ReadEach(parent: Value, vs: seq<Value>, i: nat, p: Path, inl: Inlined, fuel: nat): (r: Result<Reads, Fault>)
    requires i <= |vs|
    requires forall c :: c in vs ==> c < parent
    ensures r.Ok? ==> |r.value.values| == |vs| - i && Extends(r.value.inlined, inl)
    decreases fuel, parent, 0, |vs| - i
  {
    if i == |vs| then Ok(Reads([], inl))
    else
      assert vs[i] in vs;
      var first :- ReadSpec(vs[i], p, inl, fuel);
      var rest :- ReadEach(parent, vs, i + 1, p, first.inlined, fuel);
      Ok(Reads([first.value] + rest.values, rest.inlined))
  }

  /** The destination operations `codeGenStore` walks through: idx pushes its index,
      cast is transparent, and the two accessors rewrite the top of the path. */
  predicate IsStoreMarker(loc: Value)
  {
    (loc.Op2? && loc.k2.IdxK?) ||
    (loc.Op1? && (loc.k1.CastK? || loc.k1.JoinAccK? || loc.k1.SplitAccK?))
  }

  function StoreMarkerStep(loc: Value, p: Path): (r: Result<Step, Fault>)
    requires IsStoreMarker(loc)
    ensures r.Ok? ==> r.value.next < loc
  {
    match loc
    case Op2(IdxK, b, i, _) => Ok(Step(b, p + [Ix(i)]))
    case Op1(CastK, x, _) => Ok(Step(x, p))
    case Op1(JoinAccK(_, m, _), b, _) =>
      var q :- StoreJoinAcc(m.intValue, p);
      Ok(Step(b, q))
    case Op1(SplitAccK(n, _, _), b, _) =>
      var q :- StoreSplitAcc(n.intValue, p);
      Ok(Step(b, q))
  }

  /** The store `codeGenStore` emits for writing `val` through the destination `loc`. At a
      buffer the path becomes the store's index list. An embed destination without
      operands is inlined and the store goes to the buffer its region returns. */
  function StoreSpec(loc: Value, val: Value, p: Path, inl: Inlined, fuel: nat): (r: Result<Stored, Fault>)
    ensures r.Ok? ==> Extends(r.value.inlined, inl)
    decreases fuel, loc
  {
    if IsStoreMarker(loc) then
      var s :- StoreMarkerStep(loc, p);
      StoreSpec(s.next, val, s.path, inl, fuel)
    else if loc.Embed? then
      if loc.id in inl then
        if fuel == 0 then Err(OutOfFuel) else StoreSpec(inl[loc.id], val, p, inl, fuel - 1)
      else if |loc.operands| != 0 then Err(StoreToEmbedWithOperands)
      else
        var s :- ReadAccess(p, val, loc.ret);
        Ok(Stored(s, inl[loc.id := loc.ret]))
    else if !loc.Arg? && val.Arg? then Err(BlockArgumentHasNoDefiningOp)
    else
      var s :- ReadAccess(p, val, loc);
      Ok(Stored(s, inl))
  }

  // ---------------------------------------------------------------------------------
  // The walks, updating the path in place
  // ---------------------------------------------------------------------------------

  /** `codeGen(val, path)`: follow the markers to the buffer, updating the path at each,
      and generate the operands of an embed, a binary operation or an unknown operation
      recursively. */
  method CodeGenValue(v0: Value, path0: Path, inl: Inlined, fuel0: nat) returns (r: Result<Read, Fault>)
    ensures r == ReadSpec(v0, path0, inl, fuel0)
    decreases fuel0, v0, 2, 0
  {
    var v, path := v0, path0;
    var fuel: nat := fuel0;
    while IsReadMarker(v) || (v.Embed? && v.id in inl)
      invariant ReadSpec(v, path, inl, fuel) == ReadSpec(v0, path0, inl, fuel0)
      invariant fuel < fuel0 || (fuel == fuel0 && (v == v0 || v < v0))
      decreases fuel, v
    {
      if IsReadMarker(v) {
        var s :- ReadMarkerStep(v, path);
        v, path := s.next, s.path;
      } else {
        if fuel == 0 {
          return Err(OutOfFuel);
        }
        v, fuel := inl[v.id], fuel - 1;
      }
    }
    r := CodeGenLeaf(v, path, inl, fuel);
  }

  /** The cases of `codeGen` that end the walk. */
  method CodeGenLeaf(v: Value, path: Path, inl: Inlined, fuel: nat) returns (r: Result<Read, Fault>)
    requires !IsReadMarker(v) && !(v.Embed? && v.id in inl)
    ensures r == ReadSpec(v, path, inl, fuel)
    decreases fuel, v, 1, 0
  {
    if v.Arg? || (v.Op0? && v.k0.AllocK?) {
      var l :- GenerateWriteAccess(path, v);
      return Ok(Read(l, inl));
    } else if v.Embed? {
      var rs :- CodeGenOperands(v, v.operands, path, inl, fuel);
      if |v.params| < |v.operands| {
        return Err(TooFewRegionArguments);
      }
      var replacement := SubstituteSpec(v.ret, v.params, rs.values);
      return Ok(Read(replacement, rs.inlined[v.id := replacement]));
    } else if v.Op2? && v.k2.BinaryK? {
      var ra :- CodeGenValue(v.a, [], inl, fuel);
      var rb :- CodeGenValue(v.b, [], ra.inlined, fuel);
      return Ok(BinaryResult(v, v.k2.op, ra.value, rb));
    } else if v.Load? || v.Lambda? {
      return Ok(Read(v, inl));
    } else if v.Op1? && (v.k1.InK? || v.k1.CastK?) {
      var l :- GenerateWriteAccess(path, v.x);
      return Ok(Read(l, inl));
    } else {
      var rs :- CodeGenOperands(v, Children(v), path, inl, fuel);
      return Ok(Read(WithChildren(v, rs.values), rs.inlined));
    }
  }

  /** What is left to prepend once the operands before position `i` are generated. */
  function Prepend(done: seq<Value>, r: Result<Reads, Fault>): Result<Reads, Fault>
  {
    if r.Err? then r else Ok(Reads(done + r.value.values, r.value.inlined))
  }

  lemma PrependNothing(r: Result<Reads, Fault>)
    ensures Prepend([], r) == r
  {
    if r.Ok? {
      assert [] + r.value.values == r.value.values;
    }
  }

  /** Generating operand `i` either fails, and so does the whole list, or adds its value
      to those already generated. */
  lemma ReadEachStep(parent: Value, vs: seq<Value>, i: nat, p: Path, inl: Inlined, fuel: nat, done: seq<Value>)
    requires i < |vs|
    requires forall c :: c in vs ==> c < parent
    ensures var first := ReadSpec(vs[i], p, inl, fuel);
      if first.Err? then ReadEach(parent, vs, i, p, inl, fuel) == Err(first.error)
      else Prepend(done, ReadEach(parent, vs, i, p, inl, fuel)) ==
           Prepend(done + [first.value.value], ReadEach(parent, vs, i + 1, p, first.value.inlined, fuel))
  {
    var first := ReadSpec(vs[i], p, inl, fuel);
    if first.Ok? {
      var rest := ReadEach(parent, vs, i + 1, p, first.value.inlined, fuel);
      if rest.Ok? {
        assert done + ([first.value.value] + rest.value.values) == (done + [first.value.value]) + rest.value.values;
      }
    }
  }

  /** Generate each operand in turn, threading the inlined embeds. */
  method CodeGenOperands(parent: Value, vs: seq<Value>, path: Path, inl0: Inlined, fuel: nat)
    returns (r: Result<Reads, Fault>)
    requires forall c :: c in vs ==> c < parent
    ensures r == ReadEach(parent, vs, 0, path, inl0, fuel)
    decreases fuel, parent, 0, |vs|
  {
    var done: seq<Value> := [];
    var inl := inl0;
    var i := 0;
    PrependNothing(ReadEach(parent, vs, 0, path, inl0, fuel));
    while i < |vs|
      invariant 0 <= i <= |vs|
      invariant ReadEach(parent, vs, 0, path, inl0, fuel) == Prepend(done, ReadEach(parent, vs, i, path, inl, fuel))
    {
      assert vs[i] in vs;
      var first := CodeGenValue(vs[i], path, inl, fuel);
      ReadEachStep(parent, vs, i, path, inl, fuel, done);
      if first.Err? {
        return Err(first.error);
      }
      done := done + [first.value.value];
      inl := first.value.inlined;
      i := i + 1;
    }
    assert done + [] == done;
    return Ok(Reads(done, inl));
  }

  /** `codeGenStore(loc, val, path)`: follow the destination's markers to the buffer,
      updating the path, and emit the store there. */
  method CodeGenStore(loc0: Value, val: Value, path0: Path, inl: Inlined, fuel0: nat) returns (r: Result<Stored, Fault>)
    ensures r == StoreSpec(loc0, val, path0, inl, fuel0)
  {
    var loc, path := loc0, path0;
    var fuel: nat := fuel0;
    while IsStoreMarker(loc) || (loc.Embed? && loc.id in inl)
      invariant StoreSpec(loc, val, path, inl, fuel) == StoreSpec(loc0, val, path0, inl, fuel0)
      decreases fuel, loc
    {
      if IsStoreMarker(loc) {
        var s :- StoreMarkerStep(loc, path);
        loc, path := s.next, s.path;
      } else {
        if fuel == 0 {
          return Err(OutOfFuel);
        }
        loc, fuel := inl[loc.id], fuel - 1;
      }
    }
    if loc.Embed? {
      if |loc.operands| != 0 {
        return Err(StoreToEmbedWithOperands);
      }
      var s :- GenerateReadAccess(path, val, loc.ret);
      return Ok(Stored(s, inl[loc.id := loc.ret]));
    }
    if !loc.Arg? && val.Arg? {
      return Err(BlockArgumentHasNoDefiningOp);
    }
    var s :- GenerateReadAccess(path, val, loc);
    return Ok(Stored(s, inl));
  }

  // ---------------------------------------------------------------------------------
  // Assignments
  // ---------------------------------------------------------------------------------

  /** An assignment left by the lowering: write `value` through `assignee`. */
  datatype AssignOp = AssignOp(value: Value, assignee: Value)

  /** `codeGen(assign)`: generate the value with an empty path, then the store of it
      into the assignee, also from an empty path. */
  function CodeGenAssign(a: AssignOp, inl: Inlined, fuel: nat): Result<Stored, Fault>
  {
    var w :- ReadSpec(a.value, [], inl, fuel);
    StoreSpec(a.assignee, w.value, [], w.inlined, fuel)
  }

  datatype Program = Program(stores: seq<StoreOp>, inlined: Inlined)

  /** All assignments in program order, each seeing the embeds the earlier ones inlined. */
  function CodeGenAll(assigns: seq<AssignOp>, inl: Inlined, fuel: nat): (r: Result<Program, Fault>)
    ensures r.Ok? ==> |r.value.stores| == |assigns|
  {
    if assigns == [] then Ok(Program([], inl))
    else
      var s :- CodeGenAssign(assigns[0], inl, fuel);
      var rest :- CodeGenAll(assigns[1..], s.inlined, fuel);
      Ok(Program([s.store] + rest.stores, rest.inlined))
  }

  function PrependStores(done: seq<StoreOp>, r: Result<Program, Fault>): Result<Program, Fault>
  {
    if r.Err? then r else Ok(Program(done + r.value.stores, r.value.inlined))
  }

  lemma PrependStoresNothing(r: Result<Program, Fault>)
    ensures PrependStores([], r) == r
  {
    if r.Ok? {
      assert [] + r.value.stores == r.value.stores;
    }
  }

  /** The loop over the collected assignments. */
  method CodeGenAssigns(assigns: seq<AssignOp>, fuel: nat) returns (r: Result<Program, Fault>)
    ensures r == CodeGenAll(assigns, map[], fuel)
  {
    var stores: seq<StoreOp> := [];
    var inl: Inlined := map[];
    var i := 0;
    assert assigns[0..] == assigns;
    PrependStoresNothing(CodeGenAll(assigns, map[], fuel));
    while i < |assigns|
      invariant 0 <= i <= |assigns|
      invariant CodeGenAll(assigns, map[], fuel) == PrependStores(stores, CodeGenAll(assigns[i..], inl, fuel))
    {
      assert assigns[i..][0] == assigns[i] && assigns[i..][1..] == assigns[i + 1..];
      var w := CodeGenValue(assigns[i].value, [], inl, fuel);
      if w.Err? {
        return Err(w.error);
      }
      var s := CodeGenStore(assigns[i].assignee, w.value.value, [], w.value.inlined, fuel);
      if s.Err? {
        return Err(s.error);
      }
      ghost var rest := CodeGenAll(assigns[i + 1..], s.value.inlined, fuel);
      if rest.Ok? {
        assert stores + ([s.value.store] + rest.value.stores) == (stores + [s.value.store]) + rest.value.stores;
      }
      stores := stores + [s.value.store];
      inl := s.value.inlined;
      i := i + 1;
    }
    assert assigns[i..] == [];
    assert stores + [] == stores;
    return Ok(Program(stores, inl));
  }

  // ---------------------------------------------------------------------------------
  // What the generated accesses read and write
  // ---------------------------------------------------------------------------------

  /** `x[ixs[0]][ixs[1]]...`: a chain of idx operations, the innermost first. */
  function IdxChain(x: Value, ixs: seq<Value>, t: MlirType): (r: Value)
    decreases |ixs|
  {
    if ixs == [] then x else Op2(IdxK, IdxChain(x, ixs[..|ixs| - 1], t), ixs[|ixs| - 1], t)
  }

  function IxTokens(ixs: seq<Value>): (r: Path)
    ensures |r| == |ixs| && forall k :: 0 <= k < |ixs| ==> r[k] == Ix(ixs[k])
  {
    if ixs == [] then [] else [Ix(ixs[0])] + IxTokens(ixs[1..])
  }

  /** A buffer the walk ends at: a block argument or an allocation of memref type. */
  predicate IsBuffer(x: Value)
  {
    (x.Arg? || (x.Op0? && x.k0.AllocK?)) && x.ty.MemRef?
  }

  /** An idx operation pushes its index and reads on from its base. */
  lemma ReadIdx(b: Value, i: Value, t: MlirType, p: Path, inl: Inlined, fuel: nat)
    ensures ReadSpec(Op2(IdxK, b, i, t), p, inl, fuel) == ReadSpec(b, p + [Ix(i)], inl, fuel)
  {
    assert IsReadMarker(Op2(IdxK, b, i, t));
  }

  /** A read marker reads on from the operand and path its step gives. */
  lemma ReadMarker(v: Value, p: Path, inl: Inlined, fuel: nat)
    requires IsReadMarker(v)
    ensures var s := ReadMarkerStep(v, p);
      ReadSpec(v, p, inl, fuel) == if s.Err? then Err(s.error) else ReadSpec(s.value.next, s.value.path, inl, fuel)
  {
  }

  /** At a buffer the read is a load at the flattened path. */
  lemma ReadBuffer(x: Value, p: Path, inl: Inlined, fuel: nat)
    requires IsBuffer(x)
    ensures ReadSpec(x, p, inl, fuel) == Ok(Read(Load(x, Reverse(Indices(p)), x.ty.element), inl))
  {
  }

  lemma StoreIdx(b: Value, i: Value, t: MlirType, val: Value, p: Path, inl: Inlined, fuel: nat)
    ensures StoreSpec(Op2(IdxK, b, i, t), val, p, inl, fuel) == StoreSpec(b, val, p + [Ix(i)], inl, fuel)
  {
    assert IsStoreMarker(Op2(IdxK, b, i, t));
  }

  /** A store marker writes on through the operand and path its step gives. */
  lemma StoreMarker(loc: Value, val: Value, p: Path, inl: Inlined, fuel: nat)
    requires IsStoreMarker(loc)
    ensures var s := StoreMarkerStep(loc, p);
      StoreSpec(loc, val, p, inl, fuel) == if s.Err? then Err(s.error) else StoreSpec(s.value.next, val, s.value.path, inl, fuel)
  {
  }

  /** At a block argument the store goes to it at the flattened path. */
  lemma StoreArgument(out: Value, val: Value, p: Path, inl: Inlined, fuel: nat)
    requires out.Arg?
    ensures var s := ReadAccess(p, val, out);
      StoreSpec(out, val, p, inl, fuel) == if s.Err? then Err(s.error) else Ok(Stored(s.value, inl))
  {
    assert !IsStoreMarker(out);
  }

  /** Walking an idx chain pushes its indices, the outermost first. */
  lemma {:induction false} ReadThroughIdx(x: Value, ixs: seq<Value>, t: MlirType, p: Path, inl: Inlined, fuel: nat)
    ensures ReadSpec(IdxChain(x, ixs, t), p, inl, fuel) == ReadSpec(x, p + IxTokens(Reverse(ixs)), inl, fuel)
    decreases |ixs|
  {
    if ixs == [] {
      assert p + IxTokens(Reverse(ixs)) == p;
    } else {
      var init, last := ixs[..|ixs| - 1], ixs[|ixs| - 1];
      ReadIdx(IdxChain(x, init, t), last, t, p, inl, fuel);
      ReadThroughIdx(x, init, t, p + [Ix(last)], inl, fuel);
      assert Reverse(ixs) == [last] + Reverse(init);
      assert p + IxTokens(Reverse(ixs)) == p + [Ix(last)] + IxTokens(Reverse(init));
    }
  }

  lemma {:induction false} StoreThroughIdx(x: Value, ixs: seq<Value>, t: MlirType, val: Value, p: Path, inl: Inlined, fuel: nat)
    ensures StoreSpec(IdxChain(x, ixs, t), val, p, inl, fuel) == StoreSpec(x, val, p + IxTokens(Reverse(ixs)), inl, fuel)
    decreases |ixs|
  {
    if ixs == [] {
      assert p + IxTokens(Reverse(ixs)) == p;
    } else {
      var init, last := ixs[..|ixs| - 1], ixs[|ixs| - 1];
      StoreIdx(IdxChain(x, init, t), last, t, val, p, inl, fuel);
      StoreThroughIdx(x, init, t, val, p + [Ix(last)], inl, fuel);
      assert Reverse(ixs) == [last] + Reverse(init);
      assert p + IxTokens(Reverse(ixs)) == p + [Ix(last)] + IxTokens(Reverse(init));
    }
  }

  lemma {:induction false} IndicesOfIxTokens(ixs: seq<Value>)
    ensures Indices(IxTokens(ixs)) == ixs
    decreases |ixs|
  {
    if ixs != [] {
      var init := ixs[..|ixs| - 1];
      assert IxTokens(ixs) == IxTokens(init) + [Ix(ixs[|ixs| - 1])];
      IndicesPush(IxTokens(init), Ix(ixs[|ixs| - 1]));
      IndicesOfIxTokens(init);
    }
  }

  lemma ReverseReverse<T>(s: seq<T>)
    ensures Reverse(Reverse(s)) == s
  {
  }

  /** The indices walked to a buffer come out in the order they were applied. */
  lemma FlattenIdx(ixs: seq<Value>)
    ensures Reverse(Indices([] + IxTokens(Reverse(ixs)))) == ixs
  {
    assert [] + IxTokens(Reverse(ixs)) == IxTokens(Reverse(ixs));
    IndicesOfIxTokens(Reverse(ixs));
    ReverseReverse(ixs);
  }

  /** Reading `x[i0][i1]...` from a buffer loads it at `[i0, i1, ...]`. */
  lemma LoadOfIndexedBuffer(x: Value, ixs: seq<Value>, t: MlirType, inl: Inlined, fuel: nat)
    requires IsBuffer(x)
    ensures ReadSpec(IdxChain(x, ixs, t), [], inl, fuel) == Ok(Read(Load(x, ixs, x.ty.element), inl))
  {
    ReadThroughIdx(x, ixs, t, [], inl, fuel);
    FlattenIdx(ixs);
  }

  lemma TwoIndexPath(i: Value, j: Value)
    ensures [] + IxTokens(Reverse([i, j])) == [Ix(j), Ix(i)]
  {
    assert Reverse([i, j]) == [j, i];
  }

  lemma FlattenOne(a: Value)
    ensures Reverse(Indices([Ix(a)])) == [a]
  {
    assert [Ix(a)] == IxTokens([a]);
    IndicesOfIxTokens([a]);
  }

  lemma FlattenTwo(a: Value, b: Value)
    ensures Reverse(Indices([Ix(a), Ix(b)])) == [b, a]
  {
    assert [Ix(a), Ix(b)] == IxTokens([a, b]);
    IndicesOfIxTokens([a, b]);
  }

  lemma TransposeTwo(a: Token, b: Token)
    ensures ReadTranspose([a, b]) == Ok([b, a])
  {
    assert [a, b][..0] + [b, a] == [b, a];
  }

  /** Decomposing a lone flat index `k` by `c` leaves the remainder under the quotient. */
  lemma DecomposeOne(k: Value, c: int, unsigned: bool)
    ensures DecomposeTop(c, [Ix(k)], unsigned) ==
      Ok([Ix(CorrectedRemainder(k, c)), Ix(IndexOp(if unsigned then DivUIK else DivSIK, k, ConstIndex(c)))])
  {
    var rest := [Ix(CorrectedRemainder(k, c)), Ix(IndexOp(if unsigned then DivUIK else DivSIK, k, ConstIndex(c)))];
    assert Below([Ix(k)]) + rest == rest;
  }

  /** `transpose(x)[i][j]` loads `x[j][i]`. */
  lemma TransposeSwapsIndices(x: Value, tt: MlirType, i: Value, j: Value, t: MlirType, inl: Inlined, fuel: nat)
    requires IsBuffer(x)
    ensures ReadSpec(IdxChain(Op1(TransposeK, x, tt), [i, j], t), [], inl, fuel) ==
            Ok(Read(Load(x, [j, i], x.ty.element), inl))
  {
    var tr := Op1(TransposeK, x, tt);
    ReadThroughIdx(tr, [i, j], t, [], inl, fuel);
    TwoIndexPath(i, j);
    ReadMarker(tr, [Ix(j), Ix(i)], inl, fuel);
    TransposeTwo(Ix(j), Ix(i));
    ReadBuffer(x, [Ix(i), Ix(j)], inl, fuel);
    FlattenTwo(i, j);
  }

  /** `fst(zip(a, b)[i])` reads `a[i]` and `snd(zip(a, b)[i])` reads `b[i]`. */
  lemma ProjectionOfZip(a: Value, b: Value, tz: MlirType, i: Value, ti: MlirType, first: bool, tp: MlirType,
                        p: Path, inl: Inlined, fuel: nat)
    ensures ReadSpec(Op1(if first then FstK else SndK, Op2(IdxK, Op2(ZipK, a, b, tz), i, ti), tp), p, inl, fuel) ==
            ReadSpec(if first then a else b, p + [Ix(i)], inl, fuel)
  {
    var z := Op2(ZipK, a, b, tz);
    var q := p + [Sel(if first then 1 else 0)];
    var proj := Op1(if first then FstK else SndK, Op2(IdxK, z, i, ti), tp);
    ReadMarker(proj, p, inl, fuel);
    ReadIdx(z, i, t := ti, p := q, inl := inl, fuel := fuel);
    ReadMarker(z, q + [Ix(i)], inl, fuel);
    assert (q + [Ix(i)])[..|q + [Ix(i)]| - 2] + [Ix(i)] == p + [Ix(i)];
  }

  /** Composing the top two indices `[j, i]` by `c` leaves the single index `i * c + j`. */
  lemma ComposeTwo(c: int, i: Value, j: Value)
    ensures ComposeTop(c, [Ix(j), Ix(i)]) == Ok([Ix(Compose(i, c, j))])
  {
    assert Below([Ix(j), Ix(i)]) == [Ix(j)] && Below([Ix(j)]) == [];
    assert PopIndex([Ix(j), Ix(i)]) == Ok(Popped(i, [Ix(j)]));
    assert PopIndex([Ix(j)]) == Ok(Popped(j, []));
    assert [] + [Ix(Compose(i, c, j))] == [Ix(Compose(i, c, j))];
  }

  /** Element `(i, j)` of `split n x` is element `i * n + j` of `x`. */
  lemma SplitReadsComposedIndex(x: Value, n: int, m: Nat, e: DataType, ts: MlirType, i: Value, j: Value, t: MlirType,
                                inl: Inlined, fuel: nat, env: map<nat, int>, xi: int, yj: int)
    requires IsBuffer(x)
    requires Eval(i, env) == Some(xi) && Eval(j, env) == Some(yj) && InI64(n)
    requires InI64(xi * n) && InI64(xi * n + yj)
    ensures ReadSpec(IdxChain(Op1(SplitK(Nat(n), m, e), x, ts), [i, j], t), [], inl, fuel) ==
            Ok(Read(Load(x, [Compose(i, n, j)], x.ty.element), inl))
    ensures Eval(Compose(i, n, j), env) == Some(xi * n + yj)
  {
    SplitReadPath(x, n, m, e, ts, i, j, t, inl, fuel);
    ComposeEval(i, n, j, env, xi, yj);
  }

  lemma SplitReadPath(x: Value, n: int, m: Nat, e: DataType, ts: MlirType, i: Value, j: Value, t: MlirType,
                      inl: Inlined, fuel: nat)
    requires IsBuffer(x)
    ensures ReadSpec(IdxChain(Op1(SplitK(Nat(n), m, e), x, ts), [i, j], t), [], inl, fuel) ==
            Ok(Read(Load(x, [Compose(i, n, j)], x.ty.element), inl))
  {
    var sp := Op1(SplitK(Nat(n), m, e), x, ts);
    var walked := [Ix(j), Ix(i)];
    var composed := [Ix(Compose(i, n, j))];
    ReadThroughIdx(sp, [i, j], t, [], inl, fuel);
    TwoIndexPath(i, j);
    assert ReadSpec(IdxChain(sp, [i, j], t), [], inl, fuel) == ReadSpec(sp, walked, inl, fuel);
    ComposeTwo(n, i, j);
    assert ReadMarkerStep(sp, walked) == Ok(Step(x, composed));
    ReadMarker(sp, walked, inl, fuel);
    assert ReadSpec(sp, walked, inl, fuel) == ReadSpec(x, composed, inl, fuel);
    ReadBuffer(x, composed, inl, fuel);
    FlattenOne(Compose(i, n, j));
  }

  /** Element `k` of `join x` (rows of length `m`) is element `(k div m, k mod m)` of
      `x`. */
  lemma JoinReadsDecomposedIndex(x: Value, nn: Nat, m: int, e: DataType, tj: MlirType, k: Value, t: MlirType,
                                 inl: Inlined, fuel: nat, env: map<nat, int>, kv: int)
    requires IsBuffer(x)
    requires Eval(k, env) == Some(kv) && 0 <= kv && 0 < m <= I64Max
    ensures var quotient := IndexOp(DivSIK, k, ConstIndex(m));
      ReadSpec(Op2(IdxK, Op1(JoinK(nn, Nat(m), e), x, tj), k, t), [], inl, fuel) ==
      Ok(Read(Load(x, [quotient, CorrectedRemainder(k, m)], x.ty.element), inl)) &&
      Eval(quotient, env) == Some(kv / m) && Eval(CorrectedRemainder(k, m), env) == Some(kv % m)
  {
    JoinReadPath(x, nn, m, e, tj, k, t, inl, fuel);
    QuotientEval(k, m, env, kv, false);
    CorrectedRemainderEval(k, m, env, kv);
  }

  lemma JoinReadPath(x: Value, nn: Nat, m: int, e: DataType, tj: MlirType, k: Value, t: MlirType,
                     inl: Inlined, fuel: nat)
    requires IsBuffer(x)
    ensures ReadSpec(Op2(IdxK, Op1(JoinK(nn, Nat(m), e), x, tj), k, t), [], inl, fuel) ==
      Ok(Read(Load(x, [IndexOp(DivSIK, k, ConstIndex(m)), CorrectedRemainder(k, m)], x.ty.element), inl))
  {
    var jn := Op1(JoinK(nn, Nat(m), e), x, tj);
    var quotient := IndexOp(DivSIK, k, ConstIndex(m));
    var walked := [Ix(CorrectedRemainder(k, m)), Ix(quotient)];
    ReadIdx(jn, k, t, [], inl, fuel);
    assert [] + [Ix(k)] == [Ix(k)];
    ReadMarker(jn, [Ix(k)], inl, fuel);
    DecomposeOne(k, m, false);
    ReadBuffer(x, walked, inl, fuel);
    FlattenTwo(CorrectedRemainder(k, m), quotient);
  }

  /** Writing through `cast(out)[i0][i1]...` stores into `out` at `[i0, i1, ...]` when
      there are as many indices as `out` has dimensions, and otherwise at all but the
      innermost one; with no index at all for a buffer of higher rank it fails. */
  lemma StoreIntoIndexedBuffer(out: Value, tc: MlirType, ixs: seq<Value>, t: MlirType, val: Value, inl: Inlined, fuel: nat)
    requires out.Arg? && out.ty.MemRef?
    ensures StoreSpec(IdxChain(Op1(CastK, out, tc), ixs, t), val, [], inl, fuel) ==
      if |ixs| == |out.ty.shape| then Ok(Stored(StoreOp(val, out, ixs), inl))
      else if ixs == [] then Err(EraseFromEmptyIndexList)
      else Ok(Stored(StoreOp(val, out, ixs[1..]), inl))
  {
    var cast := Op1(CastK, out, tc);
    var p := [] + IxTokens(Reverse(ixs));
    StoreThroughIdx(cast, ixs, t, val, [], inl, fuel);
    StoreMarker(cast, val, p, inl, fuel);
    StoreArgument(out, val, p, inl, fuel);
    FlattenIdx(ixs);
  }

  /** The join accessor presents a flat buffer as rows of length `m`: writing element
      `(i, j)` stores at `i * m + j`. */
  lemma JoinAccStoresComposedIndex(out: Value, n: Nat, m: int, e: DataType, ta: MlirType, i: Value, j: Value,
                                   t: MlirType, val: Value, inl: Inlined, fuel: nat)
    requires out.Arg? && out.ty.MemRef? && |out.ty.shape| == 1
    ensures StoreSpec(IdxChain(Op1(JoinAccK(n, Nat(m), e), out, ta), [i, j], t), val, [], inl, fuel) ==
            Ok(Stored(StoreOp(val, out, [Compose(i, m, j)]), inl))
  {
    var acc := Op1(JoinAccK(n, Nat(m), e), out, ta);
    var walked := [Ix(j), Ix(i)];
    var composed := [Ix(Compose(i, m, j))];
    StoreThroughIdx(acc, [i, j], t, val, [], inl, fuel);
    TwoIndexPath(i, j);
    assert StoreSpec(IdxChain(acc, [i, j], t), val, [], inl, fuel) == StoreSpec(acc, val, walked, inl, fuel);
    ComposeTwo(m, i, j);
    assert StoreMarkerStep(acc, walked) == Ok(Step(out, composed));
    StoreMarker(acc, val, walked, inl, fuel);
    assert StoreSpec(acc, val, walked, inl, fuel) == StoreSpec(out, val, composed, inl, fuel);
    StoreArgument(out, val, composed, inl, fuel);
    FlattenOne(Compose(i, m, j));
  }

  /** The split accessor presents a two-dimensional buffer with rows of length `n` as a
      flat one: writing element `k` stores at `(k div n, k mod n)`. */
  lemma SplitAccStoresDecomposedIndex(out: Value, n: int, m: Nat, e: DataType, ta: MlirType, k: Value, t: MlirType,
                                      val: Value, inl: Inlined, fuel: nat)
    requires out.Arg? && out.ty.MemRef? && |out.ty.shape| == 2
    ensures StoreSpec(Op2(IdxK, Op1(SplitAccK(Nat(n), m, e), out, ta), k, t), val, [], inl, fuel) ==
            Ok(Stored(StoreOp(val, out, [IndexOp(DivUIK, k, ConstIndex(n)), CorrectedRemainder(k, n)]), inl))
  {
    var acc := Op1(SplitAccK(Nat(n), m, e), out, ta);
    var quotient := IndexOp(DivUIK, k, ConstIndex(n));
    var walked := [Ix(CorrectedRemainder(k, n)), Ix(quotient)];
    StoreIdx(acc, k, t, val, [], inl, fuel);
    assert [] + [Ix(k)] == [Ix(k)];
    StoreMarker(acc, val, [Ix(k)], inl, fuel);
    DecomposeOne(k, n, true);
    StoreArgument(out, val, walked, inl, fuel);
    FlattenTwo(CorrectedRemainder(k, n), quotient);
  }

  /** Storing into an embed without operands inlines it: the store goes to the buffer
      its region returns, and from then on every read of the embed reads that buffer. */
  lemma StoreInlinesEmbed(e: Value, val: Value, p: Path, inl: Inlined, fuel: nat, q: Path, f: nat)
    requires e.Embed? && e.id !in inl && e.operands == []
    requires StoreSpec(e, val, p, inl, fuel).Ok?
    ensures var s := StoreSpec(e, val, p, inl, fuel).value;
      s.store.memref == e.ret && s.store.value == val &&
      e.id in s.inlined && s.inlined[e.id] == e.ret &&
      ReadSpec(e, q, s.inlined, f + 1) == ReadSpec(e.ret, q, s.inlined, f)
  {
  }
}
