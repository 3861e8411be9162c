/**
  Why the worklist loop terminates on a `Ranked` pool: the instructions
  that lowering one instruction creates weigh strictly less, in total, than
  the operands of the instruction lowered. Also the condition under which
  every use of an expression is direct.
*/
module DriverFacts {
  import opened Results
  import opened Ir
  import opened Scanner
  import opened Materializer
  import opened Measure
  import opened Driver

  /** Value `v` holds an expression only by being one: a constant that is not an expression hides none. */
  predicate Direct(pool: Pool, v: Value)
    requires ClosedPool(pool)
  {
    v.Const? && v.cid in pool && !pool[v.cid].Expr? ==> HasCstExpr(pool, v).None?
  }

  /** Every operand of `i` uses expressions only directly. */
  predicate DirectOperands(pool: Pool, i: Inst)
    requires ClosedPool(pool)
  {
    forall k :: 0 <= k < |Operands(i)| ==> Direct(pool, Operands(i)[k])
  }

  /** A value that uses expressions only directly is offending exactly when it is an expression. */
  lemma DirectOnly(pool: Pool, v: Value)
    requires ClosedPool(pool) && InPool(pool, v) && Direct(pool, v)
    ensures Offending(pool, v) <==> ExprValue(pool, v)
    ensures Offending(pool, v) ==> HasCstExpr(pool, v) == Some(v.cid)
  {
    if v.Const? && !pool[v.cid].Expr? {
      assert HasCstExpr(pool, v).None?;
    }
  }

  /** The instruction built for an expression weighs what the expression does. */
  lemma PotBuild(pool: Pool, e: ConstId)
    requires Ranked(pool) && WellFormedPool(pool) && e in pool && pool[e].Expr? && IsLowerable(pool[e].op)
    ensures Pot(pool, Build(pool[e])) == Size(pool, Const(e))
  {
    assert Operands(Build(pool[e])) == NodeOperands(pool[e]);
    ExprContains(pool, e);
  }

  /** The operands of instruction `id` in function `f`. */
  function OpsOf(f: Function, id: InstId): seq<Value>
    requires id in f.insts
  {
    Operands(f.insts[id])
  }

  /** Operand lists that differ only where the new one holds an instruction weigh no more. */
  lemma LighterTail(pool: Pool, a: seq<Value>, b: seq<Value>, i: nat)
    requires Ranked(pool) && |a| == |b| && i <= |a|
    requires forall k :: i <= k < |a| ==> a[k] == b[k] || !a[k].Const?
    ensures SumSizes(pool, a[i..]) <= SumSizes(pool, b[i..])
  {
    forall k | 0 <= k < |a[i..]|
      ensures Size(pool, a[i..][k]) <= Size(pool, b[i..][k])
    {
      assert a[i..][k] == a[i + k] && b[i..][k] == b[i + k];
    }
    SumSizesPointwise(pool, a[i..], b[i..]);
  }

  /** The instruction built for the expression the scanner finds in `v` weighs no more than `v`. */
  lemma BuildLighter(pool: Pool, v: Value, e: ConstId)
    requires Ranked(pool) && WellFormedPool(pool) && InPool(pool, v)
    requires HasCstExpr(pool, v) == Some(e) && IsLowerable(pool[e].op)
    ensures Pot(pool, Build(pool[e])) <= Size(pool, v)
  {
    PotBuild(pool, e);
    FoundSize(pool, v);
  }

  /** After slot `i` is rewritten to an instruction, the later incoming values weigh no more. */
  lemma SlotsLighter(pool: Pool, a: seq<Incoming>, i: nat, n: InstId)
    requires Ranked(pool) && i < |a|
    ensures var b := RewriteSlots(a, i, i, Inst(n));
      SumSizes(pool, IncomingValues(b)[i + 1..]) <= SumSizes(pool, IncomingValues(a)[i + 1..])
  {
    var b := RewriteSlots(a, i, i, Inst(n));
    var ops, ops' := IncomingValues(a), IncomingValues(b);
    forall k | i < k < |ops|
      ensures ops'[k] == ops[k] || !ops'[k].Const?
    {
      assert ops'[k] == b[k].value && ops[k] == a[k].value;
    }
    LighterTail(pool, ops', ops, i + 1);
  }

  /** One step of the PHI case keeps the bound of `LowerIncomingPot`. */
  lemma SlotPot(pool: Pool, f: Function, id: InstId, i: nat, e: ConstId, l: Lowering, s: Step)
    requires Ranked(pool) && WellFormedPool(pool)
    requires id in f.insts && f.insts[id].PhiNode? && i < |f.insts[id].incoming|
    requires InPool(pool, f.insts[id].incoming[i].value)
    requires HasCstExpr(pool, f.insts[id].incoming[i].value) == Some(e) && IsLowerable(pool[e].op)
    requires id in l.fn.insts
    requires l.fn.insts[id] == PhiNode(RewriteSlots(f.insts[id].incoming, i, i, Inst(l.newInst)))
    requires l.newInst in s.fn.insts && l.newInst !in s.created && s.created <= s.fn.insts.Keys
    requires s.fn.insts[l.newInst] == Build(pool[e])
    requires SumPot(pool, s.fn, s.created) <= SumSizes(pool, OpsOf(l.fn, id)[i + 1..])
    ensures SumPot(pool, s.fn, s.created + {l.newInst}) <= SumSizes(pool, OpsOf(f, id)[i..])
  {
    var inc := f.insts[id].incoming;
    var ops := OpsOf(f, id);
    var ops' := OpsOf(l.fn, id);
    assert SumSizes(pool, ops[i..]) == Size(pool, ops[i]) + SumSizes(pool, ops[i + 1..]) by {
      SumSizesUnfold(pool, ops, i);
    }
    assert ops[i] == inc[i].value;
    BuildLighter(pool, ops[i], e);
    SumPotAdd(pool, s.fn, s.created, l.newInst);
    SlotsLighter(pool, inc, i, l.newInst);
  }

  /** One step of the non-PHI case keeps the bound of `LowerOperandsPot`. */
  lemma UsePot(pool: Pool, f: Function, id: InstId, i: nat, e: ConstId, l: Lowering, s: Step)
    requires Ranked(pool) && WellFormedPool(pool)
    requires id in f.insts && i < |OpsOf(f, id)| && InPool(pool, OpsOf(f, id)[i])
    requires HasCstExpr(pool, OpsOf(f, id)[i]) == Some(e) && IsLowerable(pool[e].op)
    requires id in l.fn.insts
    requires l.fn.insts[id] == ReplaceUses(f.insts[id], Const(e), Inst(l.newInst))
    requires l.newInst in s.fn.insts && l.newInst !in s.created && s.created <= s.fn.insts.Keys
    requires s.fn.insts[l.newInst] == Build(pool[e])
    requires SumPot(pool, s.fn, s.created) <= SumSizes(pool, OpsOf(l.fn, id)[i + 1..])
    ensures SumPot(pool, s.fn, s.created + {l.newInst}) <= SumSizes(pool, OpsOf(f, id)[i..])
  {
    var ops := OpsOf(f, id);
    assert SumSizes(pool, ops[i..]) == Size(pool, ops[i]) + SumSizes(pool, ops[i + 1..]) by {
      SumSizesUnfold(pool, ops, i);
    }
    BuildLighter(pool, ops[i], e);
    SumPotAdd(pool, s.fn, s.created, l.newInst);
    LighterTail(pool, OpsOf(l.fn, id), ops, i + 1);
  }

  /**
    The instructions the PHI case creates from slot `i` on weigh no more than
    the incoming values from slot `i` on.
  */
  lemma {:induction false} LowerIncomingPot(pool: Pool, f: Function, id: InstId, i: nat)
    requires Ranked(pool) && WellFormedPool(pool) && WellFormed(pool, f)
    requires id in f.insts && f.insts[id].PhiNode? && i <= |f.insts[id].incoming|
    ensures var r := LowerIncoming(pool, f, id, i);
      r.Success? ==>
        && r.value.created <= r.value.fn.insts.Keys
        && SumPot(pool, r.value.fn, r.value.created) <= SumSizes(pool, OpsOf(f, id)[i..])
    decreases |f.insts[id].incoming| - i
  {
    var inc := f.insts[id].incoming;
    var ops := OpsOf(f, id);
    var r := LowerIncoming(pool, f, id, i);
    if i < |inc| && r.Success? {
      assert InstOk(pool, f, f.insts[id]) && ops[i] == inc[i].value && OperandOk(pool, f, ops[i]);
      SumSizesUnfold(pool, ops, i);
      var t := TerminatorOf(f, inc[i].block).value;
      var found := HasCstExpr(pool, inc[i].value);
      if found.None? {
        LowerIncomingPot(pool, f, id, i + 1);
      } else {
        var e := found.value;
        assert r == LowerIncomingAt(pool, f, id, i, e, t);
        var l := LowerSlot(pool, f, id, i, e, t).value;
        var rest := LowerIncoming(pool, l.fn, id, i + 1);
        assert r == Preceded(l.newInst, rest);
        var s := rest.value;
        LowerIncomingPot(pool, l.fn, id, i + 1);
        StepFacts(pool, f, id, l, s);
        SlotPot(pool, f, id, i, e, l, s);
      }
    }
  }

  /**
    The instructions the non-PHI case creates from operand `i` on weigh no
    more than the operands from `i` on.
  */
  lemma {:induction false} LowerOperandsPot(pool: Pool, f: Function, id: InstId, i: nat)
    requires Ranked(pool) && WellFormedPool(pool) && WellFormed(pool, f)
    requires id in f.insts && !f.insts[id].PhiNode? && i <= |OpsOf(f, id)|
    ensures var r := LowerOperands(pool, f, id, i);
      r.Success? ==>
        && r.value.created <= r.value.fn.insts.Keys
        && SumPot(pool, r.value.fn, r.value.created) <= SumSizes(pool, OpsOf(f, id)[i..])
    decreases |OpsOf(f, id)| - i
  {
    var ops := OpsOf(f, id);
    var r := LowerOperands(pool, f, id, i);
    if i < |ops| && r.Success? {
      assert InstOk(pool, f, f.insts[id]) && OperandOk(pool, f, ops[i]);
      SumSizesUnfold(pool, ops, i);
      var found := HasCstExpr(pool, ops[i]);
      if found.None? {
        LowerOperandsPot(pool, f, id, i + 1);
      } else {
        var e := found.value;
        assert r == LowerOperandsAt(pool, f, id, i, e);
        var l := LowerUse(pool, f, id, e).value;
        var rest := LowerOperands(pool, l.fn, id, i + 1);
        assert r == Preceded(l.newInst, rest);
        var s := rest.value;
        LowerOperandsPot(pool, l.fn, id, i + 1);
        StepFacts(pool, f, id, l, s);
        UsePot(pool, f, id, i, e, l, s);
      }
    }
  }

  /** Lowering an instruction creates strictly less work than it removes. */
  lemma ProcessPot(pool: Pool, f: Function, id: InstId)
    requires Ranked(pool) && WellFormedPool(pool) && WellFormed(pool, f) && id in f.insts
    ensures var r := Process(pool, f, id);
      r.Success? ==>
        && r.value.created <= r.value.fn.insts.Keys
        && SumPot(pool, r.value.fn, r.value.created) < Pot(pool, f.insts[id])
  {
    assert OpsOf(f, id)[0..] == Operands(f.insts[id]);
    if f.insts[id].PhiNode? {
      LowerIncomingPot(pool, f, id, 0);
    } else {
      LowerOperandsPot(pool, f, id, 0);
    }
  }
}
