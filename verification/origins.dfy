/**
  Where the values of one processed instruction come from: afterwards each
  operand is the operand it was, or a new instruction computing the
  expression the scanner found in that operand; and every instruction the
  processing created computes an expression the scanner found in one of
  the instruction's operands.
*/
module Origins {
  import opened Results
  import opened Ir
  import opened Scanner
  import opened Materializer
  import opened Driver

  /**
    Value `w` stands where `v` stood after step `s`: `v` itself, or a new
    instruction of `s` computing the expression the scanner finds in `v`.
  */
  ghost predicate Replaces(pool: Pool, v: Value, s: Step, w: Value)
    requires WellFormedPool(pool)
  {
    || w == v
    || (Offending(pool, v) && Materialized(pool, Const(HasCstExpr(pool, v).value), s.fn, s.created, w))
  }

  /** Instruction `x` of step `s` computes the expression the scanner finds in one of `ops` from `i` on. */
  ghost predicate BuiltFrom(pool: Pool, ops: seq<Value>, i: nat, s: Step, x: InstId)
    requires WellFormedPool(pool)
  {
    exists k :: i <= k < |ops| && Offending(pool, ops[k])
      && Materialized(pool, Const(HasCstExpr(pool, ops[k]).value), s.fn, s.created, Inst(x))
  }

  /** Every operand of a processed instruction is the one it was or the instruction computing what it held. */
  lemma ProcessReplaces(pool: Pool, f: Function, id: InstId)
    requires WellFormedPool(pool) && WellFormed(pool, f) && id in f.insts
    ensures var r := Process(pool, f, id);
      r.Success? ==>
        var a, b := Operands(f.insts[id]), Operands(r.value.fn.insts[id]);
        |b| == |a| && forall k :: 0 <= k < |a| ==> Replaces(pool, a[k], r.value, b[k])
  {
    var r := Process(pool, f, id);
    if r.Success? {
      var s := r.value;
      var a, b := Operands(f.insts[id]), Operands(s.fn.insts[id]);
      if f.insts[id].PhiNode? {
        var ia, ib := f.insts[id].incoming, s.fn.insts[id].incoming;
        assert IncomingLowered(pool, ia, s, ib, 0, f.next);
        forall k | 0 <= k < |a|
          ensures Replaces(pool, a[k], s, b[k])
        {
          assert a[k] == ia[k].value && b[k] == ib[k].value;
          assert SlotLowered(pool, ia[k].value, s.fn, s.created, ib[k].value);
        }
      } else {
        assert OperandsLowered(pool, a, s, b, 0);
        forall k | 0 <= k < |a|
          ensures Replaces(pool, a[k], s, b[k])
        {
          if b[k] != a[k] {
            assert Materialized(pool, a[k], s.fn, s.created, b[k]);
            assert HasCstExpr(pool, a[k]) == Some(a[k].cid);
          }
        }
      }
    }
  }

  /** What was built from the operands after `i` was built from the operands from `i` on. */
  lemma BuiltFromLater(pool: Pool, ops: seq<Value>, i: nat, s: Step)
    requires WellFormedPool(pool)
    requires forall x :: x in s.created ==> BuiltFrom(pool, ops, i + 1, s, x)
    ensures forall x :: x in s.created ==> BuiltFrom(pool, ops, i, s, x)
  {
    forall x | x in s.created
      ensures BuiltFrom(pool, ops, i, s, x)
    {
      var k :| i + 1 <= k < |ops| && Offending(pool, ops[k])
        && Materialized(pool, Const(HasCstExpr(pool, ops[k]).value), s.fn, s.created, Inst(x));
    }
  }

  /**
    Operand `i` of `ops` held an expression, now computed by instruction
    `n`; the later operands that still hold an expression are as they were
    (list `ops'`), and what the rest of the loop created was built from
    them: then everything created from `i` on was built from `ops`.
  */
  lemma BuiltStep(pool: Pool, ops: seq<Value>, ops': seq<Value>, i: nat, n: InstId, s: Step)
    requires WellFormedPool(pool) && i < |ops| && |ops'| == |ops| && Offending(pool, ops[i])
    requires IsLowerable(pool[HasCstExpr(pool, ops[i]).value].op)
    requires forall k :: i < k < |ops| && Offending(pool, ops'[k]) ==> ops'[k] == ops[k]
    requires n in s.fn.insts && s.fn.insts[n] == Build(pool[HasCstExpr(pool, ops[i]).value])
    requires forall x :: x in s.created ==> BuiltFrom(pool, ops', i + 1, s, x)
    ensures forall x :: x in s.created + {n} ==> BuiltFrom(pool, ops, i, Step(s.fn, s.created + {n}), x)
  {
    var c := s.created + {n};
    forall x | x in c
      ensures BuiltFrom(pool, ops, i, Step(s.fn, c), x)
    {
      if x == n {
        assert Materialized(pool, Const(HasCstExpr(pool, ops[i]).value), s.fn, c, Inst(x));
      } else {
        var k :| i + 1 <= k < |ops'| && Offending(pool, ops'[k])
          && Materialized(pool, Const(HasCstExpr(pool, ops'[k]).value), s.fn, s.created, Inst(x));
        assert ops'[k] == ops[k];
      }
    }
  }

  /** The PHI case from slot `i` on creates only instructions computing expressions found in slots from `i` on. */
  lemma {:induction false} LowerIncomingBuilds(pool: Pool, f: Function, id: InstId, i: nat)
    requires WellFormedPool(pool) && WellFormed(pool, f)
    requires id in f.insts && f.insts[id].PhiNode? && i <= |f.insts[id].incoming|
    ensures var r := LowerIncoming(pool, f, id, i);
      r.Success? ==> forall x :: x in r.value.created ==> BuiltFrom(pool, Operands(f.insts[id]), i, r.value, x)
    decreases |f.insts[id].incoming| - i, 1
  {
    var inc := f.insts[id].incoming;
    var r := LowerIncoming(pool, f, id, i);
    if i == |inc| {
      assert r == Success(Step(f, {}));
    } else if r.Success? {
      var t := TerminatorOf(f, inc[i].block).value;
      var found := HasCstExpr(pool, inc[i].value);
      if found.None? {
        LowerIncomingSkipBuilds(pool, f, id, i);
      } else {
        LowerIncomingHere(pool, f, id, i);
        LowerIncomingAtBuilds(pool, f, id, i, found.value, t);
      }
    }
  }

  /** `LowerIncomingBuilds` for a slot `i` that holds no expression. */
  lemma {:induction false} LowerIncomingSkipBuilds(pool: Pool, f: Function, id: InstId, i: nat)
    requires WellFormedPool(pool) && WellFormed(pool, f) && id in f.insts && f.insts[id].PhiNode?
    requires i < |f.insts[id].incoming| && SlotsOk(pool, f, f.insts[id].incoming, 0)
    requires TerminatorOf(f, f.insts[id].incoming[i].block).Some?
    requires HasCstExpr(pool, f.insts[id].incoming[i].value).None?
    ensures var r := LowerIncoming(pool, f, id, i);
      r.Success? ==> forall x :: x in r.value.created ==> BuiltFrom(pool, Operands(f.insts[id]), i, r.value, x)
    decreases |f.insts[id].incoming| - i, 0
  {
    LowerIncomingNext(pool, f, id, i);
    LowerIncomingBuilds(pool, f, id, i + 1);
    var r := LowerIncoming(pool, f, id, i);
    if r.Success? {
      BuiltFromLater(pool, Operands(f.insts[id]), i, r.value);
    }
  }

  /** `LowerIncomingBuilds` for a slot `i` that holds expression `e`, whose block ends in terminator `t`. */
  lemma {:induction false} LowerIncomingAtBuilds(pool: Pool, f: Function, id: InstId, i: nat, e: ConstId, t: InstId)
    requires WellFormedPool(pool) && WellFormed(pool, f) && id in f.insts && f.insts[id].PhiNode?
    requires i < |f.insts[id].incoming| && SlotsOk(pool, f, f.insts[id].incoming, 0)
    requires HasCstExpr(pool, f.insts[id].incoming[i].value) == Some(e)
    requires TerminatorOf(f, f.insts[id].incoming[i].block) == Some(t)
    ensures var r := LowerIncomingAt(pool, f, id, i, e, t);
      r.Success? ==> forall x :: x in r.value.created ==> BuiltFrom(pool, Operands(f.insts[id]), i, r.value, x)
    decreases |f.insts[id].incoming| - i, 0
  {
    var r := LowerIncomingAt(pool, f, id, i, e, t);
    if r.Success? {
      var l := LowerSlot(pool, f, id, i, e, t).value;
      LowerSlotLeaves(pool, f, id, i, e, t, l);
      LowerIncomingBuilds(pool, l.fn, id, i + 1);
      var rest := LowerIncoming(pool, l.fn, id, i + 1);
      assert r == Preceded(l.newInst, rest);
      SlotBuilt(pool, f, id, i, e, l, rest.value);
    }
  }

  /** Lowering slot `i` into `l` and then the later slots into `s` creates only what the slots call for. */
  lemma SlotBuilt(pool: Pool, f: Function, id: InstId, i: nat, e: ConstId, l: Lowering, s: Step)
    requires WellFormedPool(pool) && WellFormed(pool, f) && id in f.insts && f.insts[id].PhiNode?
    requires i < |f.insts[id].incoming| && InPool(pool, f.insts[id].incoming[i].value)
    requires HasCstExpr(pool, f.insts[id].incoming[i].value) == Some(e) && IsLowerable(pool[e].op)
    requires OneStep(pool, f, id, l) && StepOk(pool, l.fn, id, s)
    requires l.fn.insts[l.newInst] == Build(pool[e])
    requires l.fn.insts[id] ==
      PhiNode(f.insts[id].incoming[i := Incoming(Inst(l.newInst), f.insts[id].incoming[i].block)])
    requires forall x :: x in s.created ==> BuiltFrom(pool, Operands(l.fn.insts[id]), i + 1, s, x)
    ensures forall x :: x in s.created + {l.newInst} ==>
      BuiltFrom(pool, Operands(f.insts[id]), i, Step(s.fn, s.created + {l.newInst}), x)
  {
    StepFacts(pool, f, id, l, s);
    SlotValuesKept(f.insts[id].incoming, i, l.newInst);
    BuiltStep(pool, Operands(f.insts[id]), Operands(l.fn.insts[id]), i, l.newInst, s);
  }

  /** Rewriting slot `i` of an incoming list changes only the value of slot `i`. */
  lemma SlotValuesKept(inc: seq<Incoming>, i: nat, n: InstId)
    requires i < |inc|
    ensures var ops, ops' := IncomingValues(inc), IncomingValues(inc[i := Incoming(Inst(n), inc[i].block)]);
      |ops'| == |ops| && ops[i] == inc[i].value && forall k :: 0 <= k < |ops| && k != i ==> ops'[k] == ops[k]
  {
  }

  /** The non-PHI case from operand `i` on creates only instructions computing expressions found in operands from `i` on. */
  lemma {:induction false} LowerOperandsBuilds(pool: Pool, f: Function, id: InstId, i: nat)
    requires WellFormedPool(pool) && WellFormed(pool, f)
    requires id in f.insts && !f.insts[id].PhiNode? && i <= |Operands(f.insts[id])|
    ensures var r := LowerOperands(pool, f, id, i);
      r.Success? ==> forall x :: x in r.value.created ==> BuiltFrom(pool, Operands(f.insts[id]), i, r.value, x)
    decreases |Operands(f.insts[id])| - i, 1
  {
    var ops := Operands(f.insts[id]);
    var r := LowerOperands(pool, f, id, i);
    if i == |ops| {
      assert r == Success(Step(f, {}));
    } else if r.Success? {
      var found := HasCstExpr(pool, ops[i]);
      if found.None? {
        LowerOperandsSkipBuilds(pool, f, id, i);
      } else {
        LowerOperandsHere(pool, f, id, i);
        LowerOperandsAtBuilds(pool, f, id, i, found.value);
      }
    }
  }

  /** `LowerOperandsBuilds` for an operand `i` that holds no expression. */
  lemma {:induction false} LowerOperandsSkipBuilds(pool: Pool, f: Function, id: InstId, i: nat)
    requires WellFormedPool(pool) && WellFormed(pool, f) && id in f.insts && !f.insts[id].PhiNode?
    requires i < |Operands(f.insts[id])| && AllInPool(pool, Operands(f.insts[id]))
    requires HasCstExpr(pool, Operands(f.insts[id])[i]).None?
    ensures var r := LowerOperands(pool, f, id, i);
      r.Success? ==> forall x :: x in r.value.created ==> BuiltFrom(pool, Operands(f.insts[id]), i, r.value, x)
    decreases |Operands(f.insts[id])| - i, 0
  {
    LowerOperandsNext(pool, f, id, i);
    LowerOperandsBuilds(pool, f, id, i + 1);
    var r := LowerOperands(pool, f, id, i);
    if r.Success? {
      BuiltFromLater(pool, Operands(f.insts[id]), i, r.value);
    }
  }

  /** `LowerOperandsBuilds` for an operand `i` that holds expression `e`. */
  lemma {:induction false} LowerOperandsAtBuilds(pool: Pool, f: Function, id: InstId, i: nat, e: ConstId)
    requires WellFormedPool(pool) && WellFormed(pool, f) && id in f.insts && !f.insts[id].PhiNode?
    requires i < |Operands(f.insts[id])| && AllInPool(pool, Operands(f.insts[id]))
    requires HasCstExpr(pool, Operands(f.insts[id])[i]) == Some(e)
    ensures var r := LowerOperandsAt(pool, f, id, i, e);
      r.Success? ==> forall x :: x in r.value.created ==> BuiltFrom(pool, Operands(f.insts[id]), i, r.value, x)
    decreases |Operands(f.insts[id])| - i, 0
  {
    var r := LowerOperandsAt(pool, f, id, i, e);
    if r.Success? {
      var l := LowerUse(pool, f, id, e).value;
      LowerUseLeaves(pool, f, id, e, l);
      LowerOperandsBuilds(pool, l.fn, id, i + 1);
      var rest := LowerOperands(pool, l.fn, id, i + 1);
      assert r == Preceded(l.newInst, rest);
      UseBuilt(pool, f, id, i, e, l, rest.value);
    }
  }

  /** Lowering operand `i` into `l` and then the later operands into `s` creates only what the operands call for. */
  lemma UseBuilt(pool: Pool, f: Function, id: InstId, i: nat, e: ConstId, l: Lowering, s: Step)
    requires WellFormedPool(pool) && WellFormed(pool, f) && id in f.insts && !f.insts[id].PhiNode?
    requires i < |Operands(f.insts[id])| && InPool(pool, Operands(f.insts[id])[i])
    requires HasCstExpr(pool, Operands(f.insts[id])[i]) == Some(e) && IsLowerable(pool[e].op)
    requires OneStep(pool, f, id, l) && StepOk(pool, l.fn, id, s)
    requires l.fn.insts[l.newInst] == Build(pool[e])
    requires l.fn.insts[id] == ReplaceUses(f.insts[id], Const(e), Inst(l.newInst))
    requires forall x :: x in s.created ==> BuiltFrom(pool, Operands(l.fn.insts[id]), i + 1, s, x)
    ensures forall x :: x in s.created + {l.newInst} ==>
      BuiltFrom(pool, Operands(f.insts[id]), i, Step(s.fn, s.created + {l.newInst}), x)
  {
    StepFacts(pool, f, id, l, s);
    var ops, ops' := Operands(f.insts[id]), Operands(l.fn.insts[id]);
    forall k | i < k < |ops| && Offending(pool, ops'[k])
      ensures ops'[k] == ops[k]
    {
    }
    BuiltStep(pool, ops, ops', i, l.newInst, s);
  }

  /** Every instruction processing `id` creates computes an expression the scanner found in an operand of `id`. */
  lemma ProcessBuilds(pool: Pool, f: Function, id: InstId)
    requires WellFormedPool(pool) && WellFormed(pool, f) && id in f.insts
    ensures var r := Process(pool, f, id);
      r.Success? ==> forall x :: x in r.value.created ==> BuiltFrom(pool, Operands(f.insts[id]), 0, r.value, x)
  {
    if f.insts[id].PhiNode? {
      assert Process(pool, f, id) == LowerIncoming(pool, f, id, 0);
      LowerIncomingBuilds(pool, f, id, 0);
    } else {
      assert Process(pool, f, id) == LowerOperands(pool, f, id, 0);
      LowerOperandsBuilds(pool, f, id, 0);
    }
  }
}
