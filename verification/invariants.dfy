/**
  What the worklist loop of `runOnFunction` keeps true of the function `g`
  it is rewriting, relative to the function `f` it started from: every
  operand of an instruction of `f` is the operand it was or a new
  instruction computing the expression it held; every new instruction is
  defined before it is used; and every constant operand comes from `f`.
*/
module Invariants {
  import opened Results
  import opened Ir
  import opened Scanner
  import opened Materializer
  import opened Driver
  import opened Properties
  import opened Origins
  import opened Placement

  /**
    Operand `w` of a later version `g` of `f` stands where operand `v` of
    `f` stood: `v` itself, or a new instruction (numbered from `f.next` on)
    shaped like the instruction built for the expression the scanner finds
    in `v`.
  */
  ghost predicate Traces(pool: Pool, f: Function, g: Function, v: Value, w: Value)
    requires WellFormedPool(pool)
  {
    || w == v
    || (&& Offending(pool, v) && IsLowerable(pool[HasCstExpr(pool, v).value].op)
        && w.Inst? && f.next <= w.iid && w.iid in g.insts
        && SameShape(Build(pool[HasCstExpr(pool, v).value]), g.insts[w.iid]))
  }

  /** Every instruction of `f` is in `g` with as many operands, each tracing back to the operand of `f` it replaces. */
  ghost predicate Traced(pool: Pool, f: Function, g: Function)
    requires WellFormedPool(pool)
  {
    && (forall x :: x in f.insts ==> x in g.insts && |Operands(g.insts[x])| == |Operands(f.insts[x])|)
    && (forall x, k :: x in f.insts && 0 <= k < |Operands(f.insts[x])| ==>
          Traces(pool, f, g, Operands(f.insts[x])[k], Operands(g.insts[x])[k]))
  }

  /**
    Every new instruction (numbered from `f.next` on) that an instruction of
    `g` uses is defined before the use: before the terminator of the
    incoming block for a PHI slot, earlier in the user's block otherwise.
  */
  ghost predicate DefinedBeforeUse(f: Function, g: Function) {
    && (forall x, k ::
          (&& x in g.insts && g.insts[x].PhiNode? && 0 <= k < |g.insts[x].incoming|
           && g.insts[x].incoming[k].value.Inst? && f.next <= g.insts[x].incoming[k].value.iid) ==>
          EndsBefore(g, g.insts[x].incoming[k].value.iid, g.insts[x].incoming[k].block))
    && (forall x, k ::
          (&& x in g.insts && !g.insts[x].PhiNode? && 0 <= k < |Operands(g.insts[x])|
           && Operands(g.insts[x])[k].Inst? && f.next <= Operands(g.insts[x])[k].iid) ==>
          Before(g, Operands(g.insts[x])[k].iid, x))
  }

  /** Every constant operand of an instruction of `g` sits inside an operand of an instruction of `f`. */
  ghost predicate Rooted(pool: Pool, f: Function, g: Function) {
    forall x, k :: x in g.insts && 0 <= k < |Operands(g.insts[x])| ==> FromFunction(pool, f, Operands(g.insts[x])[k])
  }

  /** Every PHI node of `g` is one of `f`: the instructions the loop creates are never PHI nodes. */
  ghost predicate NoNewPhis(f: Function, g: Function) {
    forall x :: x in g.insts && x !in f.insts ==> !g.insts[x].PhiNode?
  }

  /** All the facts the worklist loop keeps. */
  ghost predicate Faithful(pool: Pool, f: Function, g: Function)
    requires WellFormedPool(pool)
  {
    Traced(pool, f, g) && DefinedBeforeUse(f, g) && Rooted(pool, f, g) && NoNewPhis(f, g)
  }

  /** The loop starts from `f` itself, of which all three facts hold. */
  lemma FaithfulStart(pool: Pool, f: Function)
    requires WellFormedPool(pool) && WellFormed(pool, f)
    ensures Faithful(pool, f, f)
  {
    forall x, k | x in f.insts && 0 <= k < |Operands(f.insts[x])| && Operands(f.insts[x])[k].Inst?
      ensures Operands(f.insts[x])[k].iid < f.next
    {
      assert InstOk(pool, f, f.insts[x]);
      assert OperandOk(pool, f, Operands(f.insts[x])[k]);
      StructuredBelowNext(f, Operands(f.insts[x])[k].iid);
    }
    forall x, k | x in f.insts && f.insts[x].PhiNode? && 0 <= k < |f.insts[x].incoming|
      ensures f.insts[x].incoming[k].value == Operands(f.insts[x])[k]
    {
    }
    forall x, k | x in f.insts && 0 <= k < |Operands(f.insts[x])|
      ensures FromFunction(pool, f, Operands(f.insts[x])[k])
    {
      OperandFromFunction(pool, f, x, k);
    }
  }

  /** A trace stays a trace while the function evolves. */
  lemma TracesLater(pool: Pool, f: Function, g: Function, h: Function, v: Value, w: Value)
    requires WellFormedPool(pool) && Evolves(g, h) && Traces(pool, f, g, v, w)
    ensures Traces(pool, f, h, v, w)
  {
    if w != v {
      var b := Build(pool[HasCstExpr(pool, v).value]);
      SameShapeTransitive(b, g.insts[w.iid], h.insts[w.iid]);
    }
  }

  /** The facts about one iteration, taking `id` off the worklist of `g`, that the invariants rest on. */
  ghost predicate Iteration(pool: Pool, f: Function, g: Function, id: InstId, s: Step)
    requires WellFormedPool(pool)
  {
    && WellFormed(pool, g) && Evolves(f, g) && id in g.insts
    && StepOk(pool, g, id, s) && Evolves(f, s.fn)
    && id in s.fn.insts && s.fn.insts[id].PhiNode? == g.insts[id].PhiNode?
    && |Operands(s.fn.insts[id])| == |Operands(g.insts[id])|
    && (forall k :: 0 <= k < |Operands(g.insts[id])| ==>
          Replaces(pool, Operands(g.insts[id])[k], s, Operands(s.fn.insts[id])[k]))
    && (forall x :: x in s.created ==> BuiltFrom(pool, Operands(g.insts[id]), 0, s, x))
  }

  lemma IterationOf(pool: Pool, f: Function, g: Function, id: InstId, s: Step)
    requires WellFormedPool(pool) && WellFormed(pool, g) && Evolves(f, g) && id in g.insts
    requires Process(pool, g, id) == Success(s)
    ensures Iteration(pool, f, g, id, s)
  {
    ProcessReplaces(pool, g, id);
    ProcessBuilds(pool, g, id);
    EvolvesTransitive(f, g, s.fn);
  }

  /** An instruction of the step's result is an old one or one the step created. */
  lemma OldOrCreated(pool: Pool, f: Function, g: Function, id: InstId, s: Step, x: InstId)
    requires WellFormedPool(pool) && Iteration(pool, f, g, id, s) && x in s.fn.insts
    ensures x in g.insts || x in s.created
  {
  }

  /** An instruction the step created computes the expression `e` the scanner found in operand `j` of `id`. */
  lemma CreatedFrom(pool: Pool, f: Function, g: Function, id: InstId, s: Step, x: InstId) returns (j: nat, e: ConstId)
    requires WellFormedPool(pool) && Iteration(pool, f, g, id, s) && x in s.created
    ensures j < |Operands(g.insts[id])| && InPool(pool, Operands(g.insts[id])[j])
    ensures HasCstExpr(pool, Operands(g.insts[id])[j]) == Some(e)
    ensures e in pool && pool[e].Expr? && IsLowerable(pool[e].op) && s.fn.insts[x] == Build(pool[e])
  {
    var ops := Operands(g.insts[id]);
    assert BuiltFrom(pool, ops, 0, s, x);
    j :| 0 <= j < |ops| && Offending(pool, ops[j])
      && Materialized(pool, Const(HasCstExpr(pool, ops[j]).value), s.fn, s.created, Inst(x));
    e := HasCstExpr(pool, ops[j]).value;
  }

  /** The instruction built for an expression uses only constants. */
  lemma BuildUsesConstants(pool: Pool, e: ConstId)
    requires WellFormedPool(pool) && e in pool && pool[e].Expr? && IsLowerable(pool[e].op)
    ensures forall k :: 0 <= k < |Operands(Build(pool[e]))| ==> Operands(Build(pool[e]))[k].Const?
  {
    forall k | 0 <= k < |Operands(Build(pool[e]))|
      ensures Operands(Build(pool[e]))[k].Const?
    {
      assert Operands(Build(pool[e]))[k] == NodeOperands(pool[e])[k];
    }
  }

  /** One iteration keeps every operand of `f` traced. */
  lemma TracedStep(pool: Pool, f: Function, g: Function, id: InstId, s: Step)
    requires WellFormedPool(pool) && Iteration(pool, f, g, id, s) && Traced(pool, f, g)
    ensures Traced(pool, f, s.fn)
  {
    forall x, k | x in f.insts && 0 <= k < |Operands(f.insts[x])|
      ensures Traces(pool, f, s.fn, Operands(f.insts[x])[k], Operands(s.fn.insts[x])[k])
    {
      var v, u := Operands(f.insts[x])[k], Operands(g.insts[x])[k];
      TracesLater(pool, f, g, s.fn, v, u);
      if x == id {
        TracedSlot(pool, f, g, id, s, k, v);
      }
    }
  }

  /** Operand `k` of `id`, which traced back to `v` of `f` before the iteration, still does after it. */
  lemma TracedSlot(pool: Pool, f: Function, g: Function, id: InstId, s: Step, k: nat, v: Value)
    requires WellFormedPool(pool) && Iteration(pool, f, g, id, s) && k < |Operands(g.insts[id])|
    requires Traces(pool, f, g, v, Operands(g.insts[id])[k])
    ensures Traces(pool, f, s.fn, v, Operands(s.fn.insts[id])[k])
  {
    var u, w := Operands(g.insts[id])[k], Operands(s.fn.insts[id])[k];
    TracesLater(pool, f, g, s.fn, v, u);
    if w != u {
      assert Replaces(pool, u, s, w);
      var e := HasCstExpr(pool, u).value;
      assert u == v;
      assert w.iid !in g.insts && w.iid !in f.insts;
      SameShapeReflexive(Build(pool[e]));
    }
  }

  /** One iteration keeps every new instruction defined before its uses. */
  lemma DefinedStep(pool: Pool, f: Function, g: Function, id: InstId, s: Step)
    requires WellFormedPool(pool) && Iteration(pool, f, g, id, s) && DefinedBeforeUse(f, g)
    requires Process(pool, g, id) == Success(s)
    ensures DefinedBeforeUse(f, s.fn)
  {
    var h := s.fn;
    forall x, k | x in h.insts && h.insts[x].PhiNode? && 0 <= k < |h.insts[x].incoming|
      && h.insts[x].incoming[k].value.Inst? && f.next <= h.insts[x].incoming[k].value.iid
      ensures EndsBefore(h, h.insts[x].incoming[k].value.iid, h.insts[x].incoming[k].block)
    {
      OldOrCreated(pool, f, g, id, s, x);
      if x in s.created {
        var j, e := CreatedFrom(pool, f, g, id, s, x);
        assert false;
      } else if x == id {
        DefinedSlot(pool, f, g, id, s, k);
      } else {
        EvolvesKeepsEndsBefore(g, h, g.insts[x].incoming[k].value.iid, g.insts[x].incoming[k].block);
      }
    }
    forall x, k | x in h.insts && !h.insts[x].PhiNode? && 0 <= k < |Operands(h.insts[x])|
      && Operands(h.insts[x])[k].Inst? && f.next <= Operands(h.insts[x])[k].iid
      ensures Before(h, Operands(h.insts[x])[k].iid, x)
    {
      OldOrCreated(pool, f, g, id, s, x);
      if x in s.created {
        var j, e := CreatedFrom(pool, f, g, id, s, x);
        BuildUsesConstants(pool, e);
      } else if x == id {
        DefinedUse(pool, f, g, id, s, k);
      } else {
        EvolvesKeepsBefore(g, h, Operands(g.insts[x])[k].iid, x);
      }
    }
  }

  /** PHI slot `k` of `id` names, after the iteration, a new instruction only when it is defined before the slot's block ends. */
  lemma DefinedSlot(pool: Pool, f: Function, g: Function, id: InstId, s: Step, k: nat)
    requires WellFormedPool(pool) && Iteration(pool, f, g, id, s) && DefinedBeforeUse(f, g)
    requires Process(pool, g, id) == Success(s)
    requires g.insts[id].PhiNode? && k < |g.insts[id].incoming|
    requires s.fn.insts[id].incoming[k].value.Inst? && f.next <= s.fn.insts[id].incoming[k].value.iid
    ensures EndsBefore(s.fn, s.fn.insts[id].incoming[k].value.iid, s.fn.insts[id].incoming[k].block)
  {
    var a, b := g.insts[id].incoming, s.fn.insts[id].incoming;
    ProcessPlaced(pool, g, id);
    assert SlotsPlaced(pool, a, s, b, 0);
    assert SameShape(g.insts[id], s.fn.insts[id]);
    assert Operands(g.insts[id])[k] == a[k].value && Operands(s.fn.insts[id])[k] == b[k].value;
    if b[k].value == a[k].value {
      EvolvesKeepsEndsBefore(g, s.fn, a[k].value.iid, a[k].block);
    } else {
      assert Replaces(pool, a[k].value, s, b[k].value);
    }
  }

  /** Operand `k` of a non-PHI `id` names, after the iteration, a new instruction only when it is defined earlier in the block. */
  lemma DefinedUse(pool: Pool, f: Function, g: Function, id: InstId, s: Step, k: nat)
    requires WellFormedPool(pool) && Iteration(pool, f, g, id, s) && DefinedBeforeUse(f, g)
    requires Process(pool, g, id) == Success(s)
    requires !g.insts[id].PhiNode? && k < |Operands(g.insts[id])|
    requires Operands(s.fn.insts[id])[k].Inst? && f.next <= Operands(s.fn.insts[id])[k].iid
    ensures Before(s.fn, Operands(s.fn.insts[id])[k].iid, id)
  {
    var a, b := Operands(g.insts[id]), Operands(s.fn.insts[id]);
    ProcessPlaced(pool, g, id);
    if b[k] == a[k] {
      EvolvesKeepsBefore(g, s.fn, a[k].iid, id);
    }
  }

  /** One iteration brings in no constant that was not already inside `f`'s operands. */
  lemma RootedStep(pool: Pool, f: Function, g: Function, id: InstId, s: Step)
    requires WellFormedPool(pool) && Iteration(pool, f, g, id, s) && Rooted(pool, f, g)
    ensures Rooted(pool, f, s.fn)
  {
    var h := s.fn;
    forall x, k | x in h.insts && 0 <= k < |Operands(h.insts[x])|
      ensures FromFunction(pool, f, Operands(h.insts[x])[k])
    {
      RootedAt(pool, f, g, id, s, x, k);
    }
  }

  /** Operand `k` of instruction `x` after the iteration comes from `f`. */
  lemma RootedAt(pool: Pool, f: Function, g: Function, id: InstId, s: Step, x: InstId, k: nat)
    requires WellFormedPool(pool) && Iteration(pool, f, g, id, s) && Rooted(pool, f, g)
    requires x in s.fn.insts && k < |Operands(s.fn.insts[x])|
    ensures FromFunction(pool, f, Operands(s.fn.insts[x])[k])
  {
    OldOrCreated(pool, f, g, id, s, x);
    if x in s.created {
      var j, e := CreatedFrom(pool, f, g, id, s, x);
      var v := Operands(g.insts[id])[j];
      assert FromFunction(pool, f, v);
      RootedBuilt(pool, f, v, e, s.fn.insts[x], k);
    } else if x == id {
      assert Replaces(pool, Operands(g.insts[id])[k], s, Operands(s.fn.insts[id])[k]);
    }
  }

  /** An operand of the instruction built for the expression the scanner finds in `v` comes from where `v` does. */
  lemma RootedBuilt(pool: Pool, f: Function, v: Value, e: ConstId, inst: Inst, k: nat)
    requires WellFormedPool(pool) && InPool(pool, v) && FromFunction(pool, f, v) && HasCstExpr(pool, v) == Some(e)
    requires e in pool && pool[e].Expr? && IsLowerable(pool[e].op) && inst == Build(pool[e]) && k < |Operands(inst)|
    ensures FromFunction(pool, f, Operands(inst)[k])
  {
    FoundFromFunction(pool, f, v);
    assert Operands(inst)[k] == NodeOperands(pool[e])[k];
    OperandFromFunctionToo(pool, f, e, k);
  }

  /** One iteration of the worklist loop keeps all three facts. */
  lemma FaithfulStep(pool: Pool, f: Function, g: Function, id: InstId, s: Step)
    requires WellFormedPool(pool) && WellFormed(pool, g) && Evolves(f, g) && id in g.insts
    requires Process(pool, g, id) == Success(s) && Faithful(pool, f, g)
    ensures Faithful(pool, f, s.fn)
  {
    IterationOf(pool, f, g, id, s);
    TracedStep(pool, f, g, id, s);
    DefinedStep(pool, f, g, id, s);
    RootedStep(pool, f, g, id, s);
    NoNewPhisStep(pool, f, g, id, s);
  }

  /** One iteration creates no PHI node. */
  lemma NoNewPhisStep(pool: Pool, f: Function, g: Function, id: InstId, s: Step)
    requires WellFormedPool(pool) && Iteration(pool, f, g, id, s) && NoNewPhis(f, g)
    ensures NoNewPhis(f, s.fn)
  {
    forall x | x in s.fn.insts && x !in f.insts
      ensures !s.fn.insts[x].PhiNode?
    {
      OldOrCreated(pool, f, g, id, s, x);
      if x in s.created {
        var j, e := CreatedFrom(pool, f, g, id, s, x);
      }
    }
  }
}
