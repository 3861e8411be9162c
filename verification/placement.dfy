/**
  Where the instructions created while lowering one instruction sit: in the
  PHI case, each one computing a slot's expression sits in the slot's
  incoming block before the terminator that ends it; in the non-PHI case,
  each one sits in the user's block before the user. So every new
  definition comes before its use on every path through the block.
*/
module Placement {
  import opened Results
  import opened Ir
  import opened Scanner
  import opened Materializer
  import opened Driver

  /**
    Incoming list `a` became `b` in step `s`: every offending slot from `i`
    on keeps its block and names an instruction that sits in that block
    before its terminator.
  */
  ghost predicate SlotsPlaced(pool: Pool, a: seq<Incoming>, s: Step, b: seq<Incoming>, i: nat)
    requires ClosedPool(pool)
  {
    && |b| == |a|
    && forall k :: i <= k < |a| && Offending(pool, a[k].value) ==>
         && b[k].block == a[k].block && b[k].value.Inst?
         && EndsBefore(s.fn, b[k].value.iid, a[k].block)
  }

  /** Every instruction step `s` created sits in the block of instruction `id`, before it. */
  ghost predicate CreatedBefore(s: Step, id: InstId) {
    forall x :: x in s.created ==> Before(s.fn, x, id)
  }

  /**
    Slot `i` of `a` was rewritten to new instruction `n` (list `a'`), which
    sits before the terminator of the slot's block in `g`; the later slots
    were then placed on the way to `s`: every offending slot from `i` on is
    placed in `s`.
  */
  lemma SlotPlacedStep(pool: Pool, a: seq<Incoming>, a': seq<Incoming>, b: seq<Incoming>, i: nat, n: InstId, g: Function, s: Step)
    requires ClosedPool(pool) && i < |a| && a' == a[i := Incoming(Inst(n), a[i].block)]
    requires |b| == |a| && b[i] == a'[i]
    requires Evolves(g, s.fn) && EndsBefore(g, n, a[i].block)
    requires SlotsPlaced(pool, a', s, b, i + 1)
    ensures SlotsPlaced(pool, a, Step(s.fn, s.created + {n}), b, i)
  {
    EvolvesKeepsEndsBefore(g, s.fn, n, a[i].block);
    forall k | i < k < |a| && Offending(pool, a[k].value)
      ensures b[k].block == a[k].block && b[k].value.Inst? && EndsBefore(s.fn, b[k].value.iid, a[k].block)
    {
      assert a'[k] == a[k];
    }
  }

  /**
    The PHI case from slot `i` on: every offending slot ends up naming an
    instruction that sits before the terminator of the slot's incoming block.
  */
  lemma {:induction false} LowerIncomingPlaced(pool: Pool, f: Function, id: InstId, i: nat)
    requires WellFormedPool(pool) && WellFormed(pool, f)
    requires id in f.insts && f.insts[id].PhiNode? && i <= |f.insts[id].incoming|
    ensures var r := LowerIncoming(pool, f, id, i);
      r.Success? ==> SlotsPlaced(pool, f.insts[id].incoming, r.value, r.value.fn.insts[id].incoming, i)
    decreases |f.insts[id].incoming| - i, 1
  {
    var inc := f.insts[id].incoming;
    var r := LowerIncoming(pool, f, id, i);
    if i == |inc| {
      assert r.Success? ==> r.value.fn == f;
    } else if r.Success? {
      var t := TerminatorOf(f, inc[i].block).value;
      var found := HasCstExpr(pool, inc[i].value);
      if found.None? {
        LowerIncomingSkipPlaced(pool, f, id, i);
      } else {
        LowerIncomingHere(pool, f, id, i);
        LowerIncomingAtPlaced(pool, f, id, i, found.value, t);
      }
    }
  }

  /** `LowerIncomingPlaced` for a slot `i` that holds no expression. */
  lemma {:induction false} LowerIncomingSkipPlaced(pool: Pool, f: Function, id: InstId, i: nat)
    requires WellFormedPool(pool) && WellFormed(pool, f) && id in f.insts && f.insts[id].PhiNode?
    requires i < |f.insts[id].incoming| && SlotsOk(pool, f, f.insts[id].incoming, 0)
    requires TerminatorOf(f, f.insts[id].incoming[i].block).Some?
    requires HasCstExpr(pool, f.insts[id].incoming[i].value).None?
    ensures var r := LowerIncoming(pool, f, id, i);
      r.Success? ==> SlotsPlaced(pool, f.insts[id].incoming, r.value, r.value.fn.insts[id].incoming, i)
    decreases |f.insts[id].incoming| - i, 0
  {
    LowerIncomingNext(pool, f, id, i);
    LowerIncomingPlaced(pool, f, id, i + 1);
  }

  /** `LowerIncomingPlaced` for a slot `i` that holds expression `e`, whose block ends in terminator `t`. */
  lemma {:induction false} LowerIncomingAtPlaced(pool: Pool, f: Function, id: InstId, i: nat, e: ConstId, t: InstId)
    requires WellFormedPool(pool) && WellFormed(pool, f) && id in f.insts && f.insts[id].PhiNode?
    requires i < |f.insts[id].incoming| && SlotsOk(pool, f, f.insts[id].incoming, 0)
    requires HasCstExpr(pool, f.insts[id].incoming[i].value) == Some(e)
    requires TerminatorOf(f, f.insts[id].incoming[i].block) == Some(t)
    ensures var r := LowerIncomingAt(pool, f, id, i, e, t);
      r.Success? ==> SlotsPlaced(pool, f.insts[id].incoming, r.value, r.value.fn.insts[id].incoming, i)
    decreases |f.insts[id].incoming| - i, 0
  {
    var r := LowerIncomingAt(pool, f, id, i, e, t);
    if r.Success? {
      var l := LowerSlot(pool, f, id, i, e, t).value;
      LowerSlotLeaves(pool, f, id, i, e, t, l);
      LowerIncomingPlaced(pool, l.fn, id, i + 1);
      var rest := LowerIncoming(pool, l.fn, id, i + 1);
      assert r == Preceded(l.newInst, rest);
      LowerSlotPlaced(pool, f, id, i, e, t);
      var s := rest.value;
      SlotPlacedStep(pool, f.insts[id].incoming, l.fn.insts[id].incoming, s.fn.insts[id].incoming, i, l.newInst, l.fn, s);
    }
  }

  /** The non-PHI case from operand `i` on: every instruction it creates sits before the user. */
  lemma {:induction false} LowerOperandsPlaced(pool: Pool, f: Function, id: InstId, i: nat)
    requires WellFormedPool(pool) && WellFormed(pool, f)
    requires id in f.insts && !f.insts[id].PhiNode? && i <= |Operands(f.insts[id])|
    ensures var r := LowerOperands(pool, f, id, i);
      r.Success? ==> CreatedBefore(r.value, id)
    decreases |Operands(f.insts[id])| - i, 1
  {
    var ops := Operands(f.insts[id]);
    var r := LowerOperands(pool, f, id, i);
    if i == |ops| {
      assert r == Success(Step(f, {}));
    } else if r.Success? {
      var found := HasCstExpr(pool, ops[i]);
      if found.None? {
        LowerOperandsSkipPlaced(pool, f, id, i);
      } else {
        LowerOperandsHere(pool, f, id, i);
        LowerOperandsAtPlaced(pool, f, id, i, found.value);
      }
    }
  }

  /** `LowerOperandsPlaced` for an operand `i` that holds no expression. */
  lemma {:induction false} LowerOperandsSkipPlaced(pool: Pool, f: Function, id: InstId, i: nat)
    requires WellFormedPool(pool) && WellFormed(pool, f) && id in f.insts && !f.insts[id].PhiNode?
    requires i < |Operands(f.insts[id])| && AllInPool(pool, Operands(f.insts[id]))
    requires HasCstExpr(pool, Operands(f.insts[id])[i]).None?
    ensures var r := LowerOperands(pool, f, id, i);
      r.Success? ==> CreatedBefore(r.value, id)
    decreases |Operands(f.insts[id])| - i, 0
  {
    LowerOperandsNext(pool, f, id, i);
    LowerOperandsPlaced(pool, f, id, i + 1);
  }

  /** Lowering operand `i` into `l` and the later operands into `rest` places every instruction before the user. */
  lemma UseAtPlaced(l: Lowering, rest: Result<Step, Fatal>, id: InstId)
    requires Before(l.fn, l.newInst, id)
    requires rest.Success? ==> Evolves(l.fn, rest.value.fn) && CreatedBefore(rest.value, id)
    ensures var r := Preceded(l.newInst, rest);
      r.Success? ==> CreatedBefore(r.value, id)
  {
    if rest.Success? {
      EvolvesKeepsBefore(l.fn, rest.value.fn, l.newInst, id);
    }
  }

  /** `LowerOperandsPlaced` for an operand `i` that holds expression `e`. */
  lemma {:induction false} LowerOperandsAtPlaced(pool: Pool, f: Function, id: InstId, i: nat, e: ConstId)
    requires WellFormedPool(pool) && WellFormed(pool, f) && id in f.insts && !f.insts[id].PhiNode?
    requires i < |Operands(f.insts[id])| && AllInPool(pool, Operands(f.insts[id]))
    requires HasCstExpr(pool, Operands(f.insts[id])[i]) == Some(e)
    ensures var r := LowerOperandsAt(pool, f, id, i, e);
      r.Success? ==> CreatedBefore(r.value, id)
    decreases |Operands(f.insts[id])| - i, 0
  {
    var r := LowerOperandsAt(pool, f, id, i, e);
    if r.Success? {
      var l := LowerUse(pool, f, id, e).value;
      LowerUseLeaves(pool, f, id, e, l);
      LowerOperandsPlaced(pool, l.fn, id, i + 1);
      var rest := LowerOperands(pool, l.fn, id, i + 1);
      assert r == Preceded(l.newInst, rest);
      LowerUsePlaced(pool, f, id, e);
      UseAtPlaced(l, rest, id);
    }
  }

  /**
    One iteration of the worklist loop defines before it uses: a PHI slot
    it rewrites names an instruction placed before the terminator of the
    slot's incoming block, and an operand it rewrites names an instruction
    placed before the user, in the user's block.
  */
  lemma ProcessPlaced(pool: Pool, f: Function, id: InstId)
    requires WellFormedPool(pool) && WellFormed(pool, f) && id in f.insts
    ensures var r := Process(pool, f, id);
      r.Success? && f.insts[id].PhiNode? ==>
        SlotsPlaced(pool, f.insts[id].incoming, r.value, r.value.fn.insts[id].incoming, 0)
    ensures var r := Process(pool, f, id);
      r.Success? && !f.insts[id].PhiNode? ==>
        var a, b := Operands(f.insts[id]), Operands(r.value.fn.insts[id]);
        && CreatedBefore(r.value, id)
        && forall k :: 0 <= k < |a| && b[k] != a[k] ==> b[k].Inst? && Before(r.value.fn, b[k].iid, id)
  {
    if f.insts[id].PhiNode? {
      LowerIncomingPlaced(pool, f, id, 0);
    } else {
      LowerOperandsPlaced(pool, f, id, 0);
    }
  }
}
