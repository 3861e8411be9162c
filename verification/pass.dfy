/**
  The pass itself (`runOnFunction`, `runOnModule`): seed a worklist with
  every instruction that has an operand holding a constant expression,
  then lower instructions taken off the worklist until it is empty, adding
  each new instruction to it. The worklist is a set with no defined
  iteration order, so the instruction taken next is an arbitrary member.
*/
module Pass {
  import opened Results
  import opened Ir
  import opened Scanner
  import opened Materializer
  import opened Measure
  import opened Driver
  import opened DriverFacts
  import opened Properties
  import opened Invariants

  /** What `runOnFunction` returns, with the function it leaves behind. */
  datatype Outcome = Outcome(fn: Function, changed: bool)

  /** What `runOnModule` returns, with the functions it leaves behind, in module order. */
  datatype ModuleOutcome = ModuleOutcome(fns: seq<Function>, changed: bool)

  /**
    What a successful `runOnFunction` makes of `f`: a well-formed function
    with the same blocks and terminators, in which every operand of an
    instruction of `f` is the operand it was or a new instruction computing
    the expression the scanner found in it, every new instruction is
    defined before its uses, and, when `f` uses expressions only directly,
    no operand holds a constant expression any more.
  */
  ghost predicate Rewritten(pool: Pool, f: Function, g: Function)
    requires WellFormedPool(pool)
  {
    && WellFormed(pool, g) && Evolves(f, g)
    && Traced(pool, f, g) && DefinedBeforeUse(f, g)
    && (UsesDirectly(pool, f) ==> Lowered(pool, g))
  }

  /** Some instruction of `f` has an operand that holds a constant expression. */
  ghost predicate HasSeed(pool: Pool, f: Function)
    requires ClosedPool(pool)
  {
    exists x :: InSeed(pool, f, x)
  }

  /** The inner loop of lines 163-167: does some operand of `i` hold a constant expression? */
  method HasOffendingOperand(pool: Pool, i: Inst) returns (b: bool)
    requires ClosedPool(pool) && AllInPool(pool, Operands(i))
    ensures b <==> NeedsLowering(pool, i)
  {
    var ops := Operands(i);
    b := false;
    var k := 0;
    while k < |ops|
      invariant 0 <= k <= |ops|
      invariant b <==> exists j :: 0 <= j < k && Offending(pool, ops[j])
    {
      if HasCstExpr(pool, ops[k]).Some? {
        b := true;
      }
      k := k + 1;
    }
  }

  /**
    The seeding loop of lines 159-168, walking the instructions block by
    block in order: the worklist holds exactly the instructions with an
    operand that holds a constant expression.
  */
  method CollectSeeds(pool: Pool, f: Function) returns (w: set<InstId>)
    requires WellFormedPool(pool) && WellFormed(pool, f)
    ensures forall x :: x in w <==> InSeed(pool, f, x)
  {
    w := {};
    var c := 0;
    while c < |f.blocks|
      invariant 0 <= c <= |f.blocks|
      invariant forall x :: x in w ==> InSeed(pool, f, x)
      invariant forall p :: ValidPos(f, p) && p.block < c && InSeed(pool, f, At(f, p)) ==> At(f, p) in w
    {
      var k := 0;
      while k < |f.blocks[c]|
        invariant 0 <= k <= |f.blocks[c]|
        invariant forall x :: x in w ==> InSeed(pool, f, x)
        invariant forall p :: ValidPos(f, p) && p.block < c && InSeed(pool, f, At(f, p)) ==> At(f, p) in w
        invariant forall p :: ValidPos(f, p) && p.block == c && p.index < k && InSeed(pool, f, At(f, p)) ==> At(f, p) in w
      {
        var x := At(f, Pos(c, k));
        assert ValidPos(f, Pos(c, k));
        InstOperandsOk(pool, f, x);
        var needs := HasOffendingOperand(pool, f.insts[x]);
        if needs {
          w := w + {x};
        }
        k := k + 1;
      }
      c := c + 1;
    }
    forall x | InSeed(pool, f, x)
      ensures x in w
    {
      assert Placed(f, x);
      var p :| ValidPos(f, p) && At(f, p) == x;
    }
  }

  /**
    A fault genuine in a later version `g` of `f` is genuine in `f`: blocks
    and terminators are kept, every PHI node of `g` is one of `f` with the
    same incoming blocks, and every constant `g` holds, `f` holds.
  */
  lemma GenuineFaultBack(pool: Pool, f: Function, g: Function, err: Fatal)
    requires Evolves(f, g) && Rooted(pool, f, g) && NoNewPhis(f, g) && GenuineFault(pool, g, err)
    ensures GenuineFault(pool, f, err)
  {
    match err
    case MissingTerminator(b) =>
      assert SameTerminator(f, g, b);
      var x, k :| x in g.insts && g.insts[x].PhiNode? && 0 <= k < |g.insts[x].incoming| && g.insts[x].incoming[k].block == b;
      assert x in f.insts && SameShape(f.insts[x], g.insts[x]);
      assert f.insts[x].incoming[k].block == b;
    case UnsupportedExpr(op) =>
      var c :| c in pool && pool[c].Expr? && pool[c].op == op && FromFunction(pool, g, Const(c));
      var y, m :| y in g.insts && 0 <= m < |Operands(g.insts[y])| && Occurs(pool, Operands(g.insts[y])[m], c);
      var u := Operands(g.insts[y])[m];
      OccursConst(pool, u, c);
      assert FromFunction(pool, f, u);
      var y', m' :| y' in f.insts && 0 <= m' < |Operands(f.insts[y'])| && Occurs(pool, Operands(f.insts[y'])[m'], u.cid);
      OccursTrans(pool, Operands(f.insts[y'])[m'], u.cid, c);
      assert FromFunction(pool, f, Const(c));
  }

  /**
    Taking `id` off worklist `w` and adding what processing it created
    lowers the worklist's potential and keeps the worklist within the
    function.
  */
  lemma {:induction false} WorklistStep(pool: Pool, f: Function, g: Function, w: set<InstId>, id: InstId, s: Step)
    requires WellFormedPool(pool) && Ranked(pool) && WellFormed(pool, g) && Evolves(f, g)
    requires w <= g.insts.Keys && id in w
    requires Process(pool, g, id) == Success(s)
    ensures WellFormed(pool, s.fn) && Evolves(f, s.fn)
    ensures (w - {id}) + s.created <= s.fn.insts.Keys
    ensures SumPot(pool, s.fn, (w - {id}) + s.created) < SumPot(pool, g, w)
  {
    var rest := w - {id};
    ProcessPot(pool, g, id);
    SumPotRemove(pool, g, w, id);
    assert forall x :: x in rest ==> x in g.insts && x != id;
    SumPotSame(pool, g, s.fn, rest);
    SumPotUnion(pool, s.fn, rest, s.created);
    EvolvesTransitive(f, g, s.fn);
  }

  /**
    Every instruction of a later version `g` of `f` uses expressions only
    directly when `f` does: each of its operands is one `f` holds.
  */
  lemma RootedDirect(pool: Pool, f: Function, g: Function, x: InstId)
    requires WellFormedPool(pool) && Rooted(pool, f, g) && UsesDirectly(pool, f) && x in g.insts
    ensures DirectOperands(pool, g.insts[x])
  {
    var ops := Operands(g.insts[x]);
    forall k | 0 <= k < |ops|
      ensures Direct(pool, ops[k])
    {
      assert FromFunction(pool, f, ops[k]);
      if ops[k].Const? && ops[k].cid in pool {
        assert FromFunction(pool, f, Const(ops[k].cid));
      }
    }
  }

  /** A pool in which aggregate 2 wraps expression 1, a bit cast of leaf 0. */
  function NestingPool(): Pool {
    map[0 := Leaf, 1 := Expr(BitCast, [Const(0)], 0, 0), 2 := Aggregate([Const(1)])]
  }

  /** A function whose one call uses expression 1 itself and nothing else. */
  function DirectCaller(): Function {
    Function([[0, 1]], map[0 := OtherInst(Call, [Const(1)]), 1 := TermInst(OtherOpcode(0), [], [])], 2)
  }

  /** The pool is closed and its expression has the operand count of its family. */
  lemma NestingPoolWellFormed()
    ensures WellFormedPool(NestingPool())
  {
    assert ClosedPool(NestingPool());
  }

  /** The pool is one the pass accepts: the aggregate refers down to the expression, and the leaf leads nowhere. */
  lemma NestingPoolAccepted()
    ensures WellFormedPool(NestingPool()) && Ranked(NestingPool())
  {
    var pool := NestingPool();
    NestingPoolWellFormed();
    ClosedLeadsNowhere(pool, {0}, Const(0));
    forall c, k | c in pool && 0 <= k < |NodeOperands(pool[c])| && ContainsExpr(pool, NodeOperands(pool[c])[k])
      ensures RefersBelow(NodeOperands(pool[c])[k], c)
    {
      assert c != 1 && c == 2;
    }
  }

  /** Aggregate 2 hides expression 1: the scanner finds it there. */
  lemma NestingPoolHides()
    ensures HasCstExpr(NestingPool(), Const(2)) == Some(1)
  {
    var pool := NestingPool();
    assert IsPath(pool, [Const(2), Const(1)]);
    HasCstExprIffContainsExpr(pool, Const(2));
  }

  /**
    A constant the function does not reach may hide an expression without
    affecting it: the caller uses expression 1 only directly, so
    `Rewritten` promises it that nothing is left to lower, although
    aggregate 2 of the same pool wraps expression 1.
  */
  lemma UnrelatedNestingIgnored()
    ensures UsesDirectly(NestingPool(), DirectCaller())
  {
    var pool, f := NestingPool(), DirectCaller();
    forall x, k | x in f.insts && 0 <= k < |Operands(f.insts[x])|
      ensures !Occurs(pool, Operands(f.insts[x])[k], 2)
    {
      assert Operands(f.insts[x])[k] == Const(1);
      forall p | IsAnyPath(pool, p) && p[0] == Const(1)
        ensures p[|p| - 1] != Const(2)
      {
        ClosedAnyPath(pool, {0, 1}, p, |p| - 1);
      }
    }
    assert HasCstExpr(pool, Const(0)).None?;
  }

  /**
    When the instruction taken off uses expressions only directly (or is a
    PHI node), a worklist that holds every instruction still needing
    lowering keeps doing so after `id` is taken off and the instructions
    its processing created are added.
  */
  lemma WorklistCovers(pool: Pool, g: Function, w: set<InstId>, id: InstId, s: Step)
    requires WellFormedPool(pool) && WellFormed(pool, g) && id in w && id in g.insts
    requires !g.insts[id].PhiNode? ==> DirectOperands(pool, g.insts[id])
    requires forall x :: x in g.insts && NeedsLowering(pool, g.insts[x]) ==> x in w
    requires Process(pool, g, id) == Success(s)
    ensures forall x :: x in s.fn.insts && NeedsLowering(pool, s.fn.insts[x]) ==> x in (w - {id}) + s.created
  {
    ProcessCleans(pool, g, id);
  }

  /**
    `runOnFunction` (lines 154-215): reports a change exactly when the
    seeding loop found an instruction to lower, and leaves the function as
    it was otherwise. When it succeeds the function is `Rewritten`; when it
    fails, the fault is genuine.
  */
  method RunOnFunction(pool: Pool, f: Function) returns (r: Result<Outcome, Fatal>)
    requires WellFormedPool(pool) && Ranked(pool) && WellFormed(pool, f)
    ensures r.Success? ==> Rewritten(pool, f, r.value.fn)
    ensures r.Success? ==> (r.value.changed <==> HasSeed(pool, f))
    ensures r.Success? && !r.value.changed ==> r.value.fn == f
    ensures r.Failure? ==> GenuineFault(pool, f, r.error)
  {
    var w := CollectSeeds(pool, f);
    var changed := w != {};
    var g := f;
    EvolvesReflexive(f);
    FaithfulStart(pool, f);
    while w != {}
      invariant WellFormed(pool, g) && Evolves(f, g) && Faithful(pool, f, g)
      invariant w <= g.insts.Keys
      invariant !changed ==> g == f && w == {}
      invariant UsesDirectly(pool, f) ==> forall x :: x in g.insts && NeedsLowering(pool, g.insts[x]) ==> x in w
      decreases SumPot(pool, g, w)
    {
      var id :| id in w;
      var p := Process(pool, g, id);
      if p.Failure? {
        ProcessFaultGenuine(pool, g, id);
        GenuineFaultBack(pool, f, g, p.error);
        return Failure(p.error);
      }
      WorklistStep(pool, f, g, w, id, p.value);
      FaithfulStep(pool, f, g, id, p.value);
      if UsesDirectly(pool, f) {
        RootedDirect(pool, f, g, id);
        WorklistCovers(pool, g, w, id, p.value);
      }
      g, w := p.value.fn, (w - {id}) + p.value.created;
    }
    return Success(Outcome(g, changed));
  }

  /** The functions rewritten so far, with one more. */
  lemma RewrittenAppend(pool: Pool, m: seq<Function>, fns: seq<Function>, g: Function)
    requires WellFormedPool(pool) && |fns| < |m|
    requires forall k :: 0 <= k < |fns| ==> Rewritten(pool, m[k], fns[k])
    requires Rewritten(pool, m[|fns|], g)
    ensures forall k :: 0 <= k < |fns| + 1 ==> Rewritten(pool, m[k], (fns + [g])[k])
  {
    forall k | 0 <= k < |fns| + 1
      ensures Rewritten(pool, m[k], (fns + [g])[k])
    {
      if k < |fns| {
        assert (fns + [g])[k] == fns[k];
      }
    }
  }

  /** Whether any of the first `j + 1` functions had a seed, given whether the first `j` did and function `j` does. */
  lemma SeedsAppend(pool: Pool, m: seq<Function>, j: nat, before: bool, here: bool)
    requires ClosedPool(pool) && j < |m|
    requires before <==> exists k :: 0 <= k < j && HasSeed(pool, m[k])
    requires here <==> HasSeed(pool, m[j])
    ensures (before || here) <==> exists k :: 0 <= k < j + 1 && HasSeed(pool, m[k])
  {
  }

  /**
    `runOnModule` (lines 223-227): every function in turn, reporting a
    change when any function changed; the first failure aborts the pass.
  */
  method RunOnModule(pool: Pool, m: seq<Function>) returns (r: Result<ModuleOutcome, Fatal>)
    requires WellFormedPool(pool) && Ranked(pool) && forall j :: 0 <= j < |m| ==> WellFormed(pool, m[j])
    ensures r.Success? ==> |r.value.fns| == |m|
    ensures r.Success? ==> forall j :: 0 <= j < |m| ==> Rewritten(pool, m[j], r.value.fns[j])
    ensures r.Success? ==> (r.value.changed <==> exists j :: 0 <= j < |m| && HasSeed(pool, m[j]))
    ensures r.Failure? ==> exists j :: 0 <= j < |m| && GenuineFault(pool, m[j], r.error)
  {
    var fns: seq<Function> := [];
    var changed := false;
    var j := 0;
    while j < |m|
      invariant 0 <= j <= |m| && |fns| == j
      invariant forall k :: 0 <= k < j ==> Rewritten(pool, m[k], fns[k])
      invariant changed <==> exists k :: 0 <= k < j && HasSeed(pool, m[k])
    {
      var o := RunOnFunction(pool, m[j]);
      if o.Failure? {
        return Failure(o.error);
      }
      RewrittenAppend(pool, m, fns, o.value.fn);
      SeedsAppend(pool, m, |fns|, changed, o.value.changed);
      fns := fns + [o.value.fn];
      changed := changed || o.value.changed;
      j := j + 1;
    }
    return Success(ModuleOutcome(fns, changed));
  }
}
