/**
  What one iteration of the worklist loop guarantees about the instruction
  it processed, derived from `Process`'s contract: the PHI case gives every
  offending slot an instruction of its own and leaves nothing to lower; the
  non-PHI case shares one instruction among equal operands, leaves operands
  that merely contain an expression as they were, and leaves nothing to
  lower when its operands use expressions only directly; a failure names a
  real fault.
*/
module Properties {
  import opened Results
  import opened Ir
  import opened Scanner
  import opened Materializer
  import opened Driver
  import opened DriverFacts

  /** Counting offending slots over `lo..hi` splits at any `m` between. */
  lemma {:induction false} CountOffendingSplit(pool: Pool, a: seq<Incoming>, lo: nat, m: nat, hi: nat)
    requires ClosedPool(pool) && lo <= m <= hi <= |a|
    ensures CountOffending(pool, a, lo, hi) == CountOffending(pool, a, lo, m) + CountOffending(pool, a, m, hi)
    decreases m - lo
  {
    if lo < m {
      CountOffendingSplit(pool, a, lo + 1, m, hi);
    }
  }

  /** An offending slot before `k2` counts towards the slots before `k2`. */
  lemma CountOffendingGrows(pool: Pool, a: seq<Incoming>, i: nat, k1: nat, k2: nat)
    requires ClosedPool(pool) && i <= k1 < k2 <= |a| && Offending(pool, a[k1].value)
    ensures CountOffending(pool, a, i, k1) < CountOffending(pool, a, i, k2)
  {
    CountOffendingSplit(pool, a, i, k1, k2);
    assert CountOffending(pool, a, k1, k2) >= 1;
  }

  /**
    In an incoming list lowered from slot 0 on, two different offending
    slots hold different instructions, even when they held the same value
    for the same block.
  */
  lemma SlotsDistinct(pool: Pool, a: seq<Incoming>, s: Step, b: seq<Incoming>, first: InstId)
    requires WellFormedPool(pool) && IncomingLowered(pool, a, s, b, 0, first)
    ensures forall k1, k2 :: 0 <= k1 < k2 < |a| && Offending(pool, a[k1].value) && Offending(pool, a[k2].value) ==>
      b[k1].value != b[k2].value
  {
    forall k1, k2 | 0 <= k1 < k2 < |a| && Offending(pool, a[k1].value) && Offending(pool, a[k2].value)
      ensures b[k1].value != b[k2].value
    {
      CountOffendingGrows(pool, a, 0, k1, k2);
    }
  }

  /**
    The PHI case does not coalesce: every offending incoming slot gets its
    own new instruction, whether or not another slot held the same value
    for the same block.
  */
  lemma PhiNoCoalescing(pool: Pool, f: Function, id: InstId)
    requires WellFormedPool(pool) && WellFormed(pool, f) && id in f.insts && f.insts[id].PhiNode?
    requires Process(pool, f, id).Success?
    ensures var a, s := f.insts[id].incoming, Process(pool, f, id).value;
      forall k1, k2 :: 0 <= k1 < k2 < |a| && Offending(pool, a[k1].value) && Offending(pool, a[k2].value) ==>
        s.fn.insts[id].incoming[k1].value != s.fn.insts[id].incoming[k2].value
  {
    var s := Process(pool, f, id).value;
    SlotsDistinct(pool, f.insts[id].incoming, s, s.fn.insts[id].incoming, f.next);
  }

  /** A lowered slot holds nothing the scanner would find. */
  lemma SlotClean(pool: Pool, v: Value, g: Function, created: set<InstId>, w: Value)
    requires WellFormedPool(pool) && SlotLowered(pool, v, g, created, w)
    ensures !Offending(pool, w)
  {
  }

  /** After the PHI case, no incoming value of the node holds a constant expression. */
  lemma PhiCleaned(pool: Pool, f: Function, id: InstId)
    requires WellFormedPool(pool) && WellFormed(pool, f) && id in f.insts && f.insts[id].PhiNode?
    requires Process(pool, f, id).Success?
    ensures !NeedsLowering(pool, Process(pool, f, id).value.fn.insts[id])
  {
    var s := Process(pool, f, id).value;
    var a, b := f.insts[id].incoming, s.fn.insts[id].incoming;
    assert IncomingLowered(pool, a, s, b, 0, f.next);
    forall k | 0 <= k < |Operands(s.fn.insts[id])|
      ensures !Offending(pool, Operands(s.fn.insts[id])[k])
    {
      assert Operands(s.fn.insts[id])[k] == b[k].value;
      SlotClean(pool, a[k].value, s.fn, s.created, b[k].value);
    }
  }

  /**
    In the non-PHI case all uses of one expression are replaced at once:
    operands that were the same expression hold the same new instruction.
  */
  lemma UsesShared(pool: Pool, f: Function, id: InstId)
    requires WellFormedPool(pool) && WellFormed(pool, f) && id in f.insts && !f.insts[id].PhiNode?
    requires Process(pool, f, id).Success?
    ensures var a, b := Operands(f.insts[id]), Operands(Process(pool, f, id).value.fn.insts[id]);
      |b| == |a| &&
      forall k1, k2 :: 0 <= k1 < |a| && 0 <= k2 < |a| && a[k1] == a[k2] && ExprValue(pool, a[k1]) ==> b[k1] == b[k2]
  {
    var s := Process(pool, f, id).value;
    var a, b := Operands(f.insts[id]), Operands(s.fn.insts[id]);
    assert OperandsLowered(pool, a, s, b, 0);
    forall k1, k2 | 0 <= k1 < |a| && 0 <= k2 < |a| && a[k1] == a[k2] && ExprValue(pool, a[k1])
      ensures b[k1] == b[k2]
    {
      assert b[k1] == b[FirstIndex(a, a[k1])];
      assert b[k2] == b[FirstIndex(a, a[k2])];
    }
  }

  /**
    In the non-PHI case an operand that is not itself an expression is left
    as it was, even when an expression is nested inside it: the instruction
    built for the nested expression replaces no operand.
  */
  lemma NestedKept(pool: Pool, f: Function, id: InstId)
    requires WellFormedPool(pool) && WellFormed(pool, f) && id in f.insts && !f.insts[id].PhiNode?
    requires Process(pool, f, id).Success?
    ensures var a, b := Operands(f.insts[id]), Operands(Process(pool, f, id).value.fn.insts[id]);
      |b| == |a| && forall k :: 0 <= k < |a| && !ExprValue(pool, a[k]) ==> b[k] == a[k]
  {
    var s := Process(pool, f, id).value;
    assert OperandsLowered(pool, Operands(f.insts[id]), s, Operands(s.fn.insts[id]), 0);
  }

  /**
    Consequently a non-PHI instruction with an expression nested in an
    operand still needs lowering after it was processed.
  */
  lemma NestedStaysOffending(pool: Pool, f: Function, id: InstId, k: nat)
    requires WellFormedPool(pool) && WellFormed(pool, f) && id in f.insts && !f.insts[id].PhiNode?
    requires Process(pool, f, id).Success?
    requires k < |Operands(f.insts[id])|
    requires Offending(pool, Operands(f.insts[id])[k]) && !ExprValue(pool, Operands(f.insts[id])[k])
    ensures NeedsLowering(pool, Process(pool, f, id).value.fn.insts[id])
  {
    NestedKept(pool, f, id);
    var b := Operands(Process(pool, f, id).value.fn.insts[id]);
    assert Offending(pool, b[k]);
  }

  /**
    When the instruction's operands use expressions only directly, the
    non-PHI case leaves no operand of it holding a constant expression.
  */
  lemma NonPhiCleaned(pool: Pool, f: Function, id: InstId)
    requires WellFormedPool(pool) && WellFormed(pool, f) && id in f.insts && DirectOperands(pool, f.insts[id])
    requires !f.insts[id].PhiNode? && Process(pool, f, id).Success?
    ensures !NeedsLowering(pool, Process(pool, f, id).value.fn.insts[id])
  {
    var s := Process(pool, f, id).value;
    var a, b := Operands(f.insts[id]), Operands(s.fn.insts[id]);
    assert OperandsLowered(pool, a, s, b, 0);
    InstOperandsOk(pool, f, id);
    forall k | 0 <= k < |b|
      ensures !Offending(pool, b[k])
    {
      DirectOnly(pool, a[k]);
      if ExprValue(pool, a[k]) {
        assert b[k] != a[k];
        assert Materialized(pool, a[k], s.fn, s.created, b[k]);
      }
    }
  }

  /**
    Whichever the case, processing an instruction leaves it with nothing to
    lower, provided a non-PHI instruction uses expressions only directly.
  */
  lemma ProcessCleans(pool: Pool, f: Function, id: InstId)
    requires WellFormedPool(pool) && WellFormed(pool, f) && id in f.insts
    requires !f.insts[id].PhiNode? ==> DirectOperands(pool, f.insts[id])
    requires Process(pool, f, id).Success?
    ensures !NeedsLowering(pool, Process(pool, f, id).value.fn.insts[id])
  {
    if f.insts[id].PhiNode? {
      PhiCleaned(pool, f, id);
    } else {
      NonPhiCleaned(pool, f, id);
    }
  }

  /** Constant value `v` sits, at any depth, inside an operand of some instruction of `f`. */
  ghost predicate FromFunction(pool: Pool, f: Function, v: Value) {
    v.Const? ==>
      exists x, k :: x in f.insts && 0 <= k < |Operands(f.insts[x])| && Occurs(pool, Operands(f.insts[x])[k], v.cid)
  }

  lemma OperandFromFunction(pool: Pool, f: Function, x: InstId, k: nat)
    requires x in f.insts && k < |Operands(f.insts[x])|
    ensures FromFunction(pool, f, Operands(f.insts[x])[k])
  {
    var v := Operands(f.insts[x])[k];
    if v.Const? {
      OccursSelf(pool, v.cid);
    }
  }

  /**
    Every constant that `f` holds, at any depth, and that is not itself an
    expression hides no expression: `f` uses expressions only directly.
    Constants `f` does not reach are unconstrained.
  */
  ghost predicate UsesDirectly(pool: Pool, f: Function)
    requires ClosedPool(pool)
  {
    forall c :: c in pool && FromFunction(pool, f, Const(c)) ==> Direct(pool, Const(c))
  }

  /** Block `b` is the incoming block of some slot of some PHI node of `f`. */
  ghost predicate IncomingBlock(f: Function, b: BlockId) {
    exists x, k :: x in f.insts && f.insts[x].PhiNode? && 0 <= k < |f.insts[x].incoming| && f.insts[x].incoming[k].block == b
  }

  /**
    A fault the pass may stop with is genuine: an expression the input
    actually holds (inside an operand of an instruction of `f`) whose
    opcode `lowerCstExpr` does not handle, or a block of `f` that has no
    terminator and is the incoming block of a slot of a PHI node of `f`.
  */
  ghost predicate GenuineFault(pool: Pool, f: Function, err: Fatal) {
    match err
    case UnsupportedExpr(op) =>
      && !IsLowerable(op)
      && exists c :: c in pool && pool[c].Expr? && pool[c].op == op && FromFunction(pool, f, Const(c))
    case MissingTerminator(b) => Structured(f) && b < |f.blocks| && TerminatorOf(f, b).None? && IncomingBlock(f, b)
  }

  /** A function without PHI nodes can have no genuine missing-terminator fault, whatever its blocks hold. */
  lemma NoPhiNoMissingTerminator(pool: Pool, f: Function, b: BlockId)
    requires forall x :: x in f.insts ==> !f.insts[x].PhiNode?
    ensures !GenuineFault(pool, f, MissingTerminator(b))
  {
  }

  /** The scanner finds, in a value taken from `f`, only an expression `f` holds. */
  lemma FoundFromFunction(pool: Pool, f: Function, v: Value)
    requires ClosedPool(pool) && InPool(pool, v) && FromFunction(pool, f, v) && HasCstExpr(pool, v).Some?
    ensures FromFunction(pool, f, Const(HasCstExpr(pool, v).value))
  {
    var e := HasCstExpr(pool, v).value;
    HasCstExprIffContainsExpr(pool, v);
    ReachesOccurs(pool, v, e);
    var x, k :| x in f.insts && 0 <= k < |Operands(f.insts[x])| && Occurs(pool, Operands(f.insts[x])[k], v.cid);
    OccursTrans(pool, Operands(f.insts[x])[k], v.cid, e);
  }

  /** An operand of a constant `f` holds is held by `f` too. */
  lemma OperandFromFunctionToo(pool: Pool, f: Function, c: ConstId, k: nat)
    requires ClosedPool(pool) && c in pool && k < |NodeOperands(pool[c])| && FromFunction(pool, f, Const(c))
    ensures FromFunction(pool, f, NodeOperands(pool[c])[k])
  {
    var x, j :| x in f.insts && 0 <= j < |Operands(f.insts[x])| && Occurs(pool, Operands(f.insts[x])[j], c);
    OccursOperand(pool, Operands(f.insts[x])[j], c, k);
  }

  lemma UseFaultGenuine(pool: Pool, f: Function, v: Value)
    requires ClosedPool(pool) && Structured(f) && InPool(pool, v) && FromFunction(pool, f, v)
    ensures UseFault(pool, v).Some? ==> GenuineFault(pool, f, UseFault(pool, v).value)
  {
    if UseFault(pool, v).Some? {
      var e := HasCstExpr(pool, v).value;
      assert e in pool && pool[e].Expr?;
      FoundFromFunction(pool, f, v);
    }
  }

  lemma {:induction false} UseFaultsGenuine(pool: Pool, f: Function, ops: seq<Value>, i: nat)
    requires ClosedPool(pool) && Structured(f) && i <= |ops|
    requires forall k :: i <= k < |ops| ==> InPool(pool, ops[k]) && FromFunction(pool, f, ops[k])
    ensures UseFaults(pool, ops, i).Some? ==> GenuineFault(pool, f, UseFaults(pool, ops, i).value)
    decreases |ops| - i
  {
    if i < |ops| {
      UseFaultGenuine(pool, f, ops[i]);
      UseFaultsGenuine(pool, f, ops, i + 1);
    }
  }

  lemma {:induction false} IncomingFaultsGenuine(pool: Pool, f: Function, inc: seq<Incoming>, i: nat)
    requires ClosedPool(pool) && Structured(f) && i <= |inc| && SlotsOk(pool, f, inc, i)
    requires forall k :: i <= k < |inc| ==> FromFunction(pool, f, inc[k].value) && IncomingBlock(f, inc[k].block)
    ensures IncomingFaults(pool, f, inc, i).Some? ==> GenuineFault(pool, f, IncomingFaults(pool, f, inc, i).value)
    decreases |inc| - i
  {
    if i < |inc| {
      UseFaultGenuine(pool, f, inc[i].value);
      IncomingFaultsGenuine(pool, f, inc, i + 1);
    }
  }

  /** Processing an instruction fails only with a genuine fault. */
  lemma ProcessFaultGenuine(pool: Pool, f: Function, id: InstId)
    requires WellFormedPool(pool) && WellFormed(pool, f) && id in f.insts
    ensures Process(pool, f, id).Failure? ==> GenuineFault(pool, f, Process(pool, f, id).error)
  {
    var ops := Operands(f.insts[id]);
    forall k | 0 <= k < |ops|
      ensures FromFunction(pool, f, ops[k])
    {
      OperandFromFunction(pool, f, id, k);
    }
    if f.insts[id].PhiNode? {
      var inc := f.insts[id].incoming;
      PhiSlotsOk(pool, f, id);
      forall k | 0 <= k < |inc|
        ensures FromFunction(pool, f, inc[k].value) && IncomingBlock(f, inc[k].block)
      {
        assert inc[k].value == ops[k];
      }
      IncomingFaultsGenuine(pool, f, inc, 0);
    } else {
      InstOperandsOk(pool, f, id);
      UseFaultsGenuine(pool, f, ops, 0);
    }
  }
}
