// The function-level parts of the rewrite pattern: whether a function is lowered at all,
// and the two sweeps that erase what the lowering left behind. The function body is
// seen as its operations in walk order; each records the regions (of lambdas and
// embeds) it is nested in, since erasing an operation erases its regions too.
module Cleanup {
  /** The operations the sweeps tell apart. Every kind but the last two belongs to the
      Rise dialect. */
  datatype OpKind =
    | ApplyOp | LambdaOp | MapSeqOp | MapParOp | ReduceSeqOp | OutOp | LiteralOp
    | TransposeOp | SplitOp | JoinOp | SlideOp | PadOp | InOp | EmbedOp | AssignOp
    | OtherRiseOp(name: string)
    | ForeignOp(dialect: string, name: string)
    | UnregisteredOp(name: string)

  /** An operation: its identity, its kind, the operations whose regions enclose it, and
      whether one of those is a lambda or an embed. */
  datatype OpRecord = OpRecord(id: nat, kind: OpKind, enclosing: seq<nat>, inLambda: bool, inEmbed: bool)

  predicate InRiseDialect(k: OpKind)
  {
    !k.ForeignOp? && !k.UnregisteredOp?
  }

  /** The functional operations the first sweep removes. */
  predicate IsFunctional(k: OpKind)
  {
    k.ApplyOp? || k.LambdaOp? || k.MapSeqOp? || k.MapParOp? || k.ReduceSeqOp? || k.OutOp? ||
    k.LiteralOp? || k.TransposeOp? || k.SplitOp? || k.JoinOp? || k.SlideOp? || k.PadOp?
  }

  /** The first sweep runs after the lowering, the second after code generation. */
  datatype Sweep = AfterLowering | AfterCodeGen

  /** What a sweep erases: after the lowering, the functional operations outside
      lambdas; after code generation, every operation of the dialect outside lambdas and
      embeds. Operations of no dialect are never erased. */
  predicate Doomed(s: Sweep, o: OpRecord)
  {
    match s
    case AfterLowering => IsFunctional(o.kind) && !o.inLambda
    case AfterCodeGen => InRiseDialect(o.kind) && !o.inLambda && !o.inEmbed
  }

  /** Some lambda of `ops` encloses `o`. */
  predicate InLambdaOf(ops: seq<OpRecord>, o: OpRecord)
  {
    exists d :: d in ops && d.id in o.enclosing && d.kind.LambdaOp?
  }

  /** Some embed of `ops` encloses `o`. */
  predicate InEmbedOf(ops: seq<OpRecord>, o: OpRecord)
  {
    exists d :: d in ops && d.id in o.enclosing && d.kind.EmbedOp?
  }

  /** The flags of every operation agree with the operations enclosing it: an operation
      is in a lambda (an embed) exactly when a lambda (an embed) of the body encloses it,
      which is what `getParentOfType` asks. */
  predicate WellNested(ops: seq<OpRecord>)
  {
    forall o :: o in ops ==> (o.inLambda <==> InLambdaOf(ops, o)) && (o.inEmbed <==> InEmbedOf(ops, o))
  }

  /** In a well-nested body, what a sweep erases is decided by the operations enclosing
      it: after the lowering, a functional operation no lambda encloses; after code
      generation, an operation of the dialect no lambda and no embed encloses. */
  lemma DoomedByNesting(ops: seq<OpRecord>, s: Sweep, o: OpRecord)
    requires WellNested(ops) && o in ops
    ensures s.AfterLowering? ==>
      (Doomed(s, o) <==> IsFunctional(o.kind) && !exists d :: d in ops && d.id in o.enclosing && d.kind.LambdaOp?)
    ensures s.AfterCodeGen? ==>
      (Doomed(s, o) <==>
         InRiseDialect(o.kind) && !exists d :: d in ops && d.id in o.enclosing && (d.kind.LambdaOp? || d.kind.EmbedOp?))
  {
    if s.AfterCodeGen? && InRiseDialect(o.kind) && !Doomed(s, o) {
      if o.inLambda {
        var d :| d in ops && d.id in o.enclosing && d.kind.LambdaOp?;
      } else {
        var d :| d in ops && d.id in o.enclosing && d.kind.EmbedOp?;
      }
    }
  }

  /** The operations a sweep collects, in walk order. */
  function Chosen(ops: seq<OpRecord>, s: Sweep): seq<OpRecord>
  {
    if ops == [] then []
    else Chosen(ops[..|ops| - 1], s) + (if Doomed(s, ops[|ops| - 1]) then [ops[|ops| - 1]] else [])
  }

  /** A sweep collects exactly the operations it erases. */
  lemma {:induction false} ChosenMembers(ops: seq<OpRecord>, s: Sweep, o: OpRecord)
    ensures o in Chosen(ops, s) <==> o in ops && Doomed(s, o)
  {
    if ops != [] {
      var init := ops[..|ops| - 1];
      ChosenMembers(init, s, o);
      assert ops == init + [ops[|ops| - 1]];
    }
  }

  function Ids(list: seq<OpRecord>): set<nat>
  {
    set o | o in list :: o.id
  }

  /** An operation is gone when it, or an operation enclosing it, was erased. */
  predicate Erased(o: OpRecord, ids: set<nat>)
  {
    o.id in ids || exists e :: e in o.enclosing && e in ids
  }

  /** The operations left after erasing those with identities in `ids`. */
  function Without(ops: seq<OpRecord>, ids: set<nat>): seq<OpRecord>
  {
    if ops == [] then []
    else Without(ops[..|ops| - 1], ids) + (if Erased(ops[|ops| - 1], ids) then [] else [ops[|ops| - 1]])
  }

  /** Erasing keeps exactly the operations that are not gone. */
  lemma {:induction false} WithoutMembers(ops: seq<OpRecord>, ids: set<nat>, o: OpRecord)
    ensures o in Without(ops, ids) <==> o in ops && !Erased(o, ids)
  {
    if ops != [] {
      var init := ops[..|ops| - 1];
      WithoutMembers(init, ids, o);
      assert ops == init + [ops[|ops| - 1]];
    }
  }

  lemma ErasedUnion(o: OpRecord, a: set<nat>, b: set<nat>)
    ensures Erased(o, a + b) <==> Erased(o, a) || Erased(o, b)
  {
    if Erased(o, a + b) && o.id !in a + b {
      var e :| e in o.enclosing && e in a + b;
      assert e in a || e in b;
    }
  }

  /** Erasing nothing leaves everything. */
  lemma {:induction false} WithoutNothing(ops: seq<OpRecord>)
    ensures Without(ops, {}) == ops
  {
    if ops != [] {
      WithoutNothing(ops[..|ops| - 1]);
      assert ops == ops[..|ops| - 1] + [ops[|ops| - 1]];
    }
  }

  /** Erasing in two rounds is erasing the union. */
  lemma {:induction false} WithoutTwice(ops: seq<OpRecord>, a: set<nat>, b: set<nat>)
    ensures Without(Without(ops, a), b) == Without(ops, a + b)
  {
    if ops != [] {
      var init, last := ops[..|ops| - 1], ops[|ops| - 1];
      WithoutTwice(init, a, b);
      ErasedUnion(last, a, b);
      var w := Without(init, a);
      if !Erased(last, a) {
        assert Without(ops, a) == w + [last];
        assert (w + [last])[..|w + [last]| - 1] == w;
        assert Without(w + [last], b) == Without(w, b) + (if Erased(last, b) then [] else [last]);
      } else {
        assert Without(ops, a) == w + [];
        assert w + [] == w;
      }
    }
  }

  predicate UniqueIds(ops: seq<OpRecord>)
  {
    forall i, j :: 0 <= i < j < |ops| ==> ops[i].id != ops[j].id
  }

  /** What a sweep leaves: with distinct identities, exactly the operations it does not
      erase and that are not nested in a region of one it erases. */
  function Survivors(ops: seq<OpRecord>, s: Sweep): seq<OpRecord>
  {
    Without(ops, Ids(Chosen(ops, s)))
  }

  lemma SurvivorsOfSweep(ops: seq<OpRecord>, s: Sweep, o: OpRecord)
    requires UniqueIds(ops)
    ensures o in Survivors(ops, s) <==>
      o in ops && !Doomed(s, o) && forall d :: d in ops && Doomed(s, d) ==> d.id !in o.enclosing
  {
    var ids := Ids(Chosen(ops, s));
    WithoutMembers(ops, ids, o);
    ChosenMembers(ops, s, o);
    if o in ops && !Doomed(s, o) && o.id in ids {
      var d :| d in Chosen(ops, s) && d.id == o.id;
      ChosenMembers(ops, s, d);
      var i :| 0 <= i < |ops| && ops[i] == o;
    }
    if o in Survivors(ops, s) {
      forall d | d in ops && Doomed(s, d)
        ensures d.id !in o.enclosing
      {
        ChosenMembers(ops, s, d);
        assert d.id in ids;
      }
    }
    if o in ops && !Doomed(s, o) && forall d :: d in ops && Doomed(s, d) ==> d.id !in o.enclosing {
      forall e | e in o.enclosing
        ensures e !in ids
      {
        if e in ids {
          var d :| d in Chosen(ops, s) && d.id == e;
          ChosenMembers(ops, s, d);
        }
      }
    }
  }

  /** After the second sweep, what is left of the dialect is inside lambdas and embeds:
      in a well-nested body, some lambda or embed of the body encloses it. */
  lemma CodeGenSweepLeavesOnlyRegions(ops: seq<OpRecord>, o: OpRecord)
    requires UniqueIds(ops) && WellNested(ops) && o in Survivors(ops, AfterCodeGen)
    ensures !InRiseDialect(o.kind) || o.inLambda || o.inEmbed
    ensures !InRiseDialect(o.kind) ||
      exists d :: d in ops && d.id in o.enclosing && (d.kind.LambdaOp? || d.kind.EmbedOp?)
  {
    SurvivorsOfSweep(ops, AfterCodeGen, o);
    DoomedByNesting(ops, AfterCodeGen, o);
  }

  /** The first sweep keeps everything that is not a functional operation, in particular
      the assignments, loops and markers the lowering emitted, unless it sits in a region
      of an erased operation. */
  lemma LoweringSweepKeepsImperative(ops: seq<OpRecord>, o: OpRecord)
    requires UniqueIds(ops) && o in ops && !IsFunctional(o.kind)
    requires forall d :: d in ops && Doomed(AfterLowering, d) ==> d.id !in o.enclosing
    ensures o in Survivors(ops, AfterLowering)
  {
    SurvivorsOfSweep(ops, AfterLowering, o);
  }

  /** Operations of other dialects survive both sweeps unless nested in an erased one. */
  lemma ForeignOpsSurvive(ops: seq<OpRecord>, s: Sweep, o: OpRecord)
    requires UniqueIds(ops) && o in ops && !InRiseDialect(o.kind)
    requires forall d :: d in ops && Doomed(s, d) ==> d.id !in o.enclosing
    ensures o in Survivors(ops, s)
  {
    SurvivorsOfSweep(ops, s, o);
  }

  /** A function and its body. */
  class FunctionBody {
    var external: bool
    var ops: seq<OpRecord>

    constructor (external: bool, ops: seq<OpRecord>)
      ensures this.external == external && this.ops == ops
    {
      this.external := external;
      this.ops := ops;
    }

    /** A function is lowered when it has a body containing a `rise.in`. */
    method Matches() returns (b: bool)
      ensures b <==> !external && exists i :: 0 <= i < |ops| && ops[i].kind.InOp?
    {
      if external {
        return false;
      }
      var riseInside := false;
      var i := 0;
      while i < |ops|
        invariant 0 <= i <= |ops|
        invariant riseInside <==> exists k :: 0 <= k < i && ops[k].kind.InOp?
      {
        if ops[i].kind.InOp? {
          riseInside := true;
        }
        i := i + 1;
      }
      return riseInside;
    }

    /** The walk collecting what a sweep erases. */
    method Collect(s: Sweep) returns (list: seq<OpRecord>)
      ensures list == Chosen(ops, s)
    {
      list := [];
      var i := 0;
      while i < |ops|
        invariant 0 <= i <= |ops|
        invariant list == Chosen(ops[..i], s)
      {
        assert ops[..i + 1][..i] == ops[..i];
        if Doomed(s, ops[i]) {
          list := list + [ops[i]];
        }
        i := i + 1;
      }
      assert ops[..|ops|] == ops;
    }

    /** Erasing the collected operations, popping them from the back of the list. */
    method EraseAll(list: seq<OpRecord>)
      modifies this
      ensures ops == Without(old(ops), Ids(list)) && external == old(external)
    {
      WithoutNothing(ops);
      assert Ids(list[|list|..]) == {};
      var i := |list|;
      while i > 0
        invariant 0 <= i <= |list|
        invariant ops == Without(old(ops), Ids(list[i..])) && external == old(external)
      {
        i := i - 1;
        var op := list[i];
        WithoutTwice(old(ops), Ids(list[i + 1..]), {op.id});
        assert list[i..] == [op] + list[i + 1..];
        assert Ids(list[i..]) == Ids(list[i + 1..]) + {op.id};
        ops := Without(ops, {op.id});
      }
      assert list[0..] == list;
    }

    /** One sweep: collect, then erase. */
    method RunSweep(s: Sweep)
      modifies this
      ensures ops == Survivors(old(ops), s) && external == old(external)
    {
      var list := Collect(s);
      EraseAll(list);
    }
  }
}
