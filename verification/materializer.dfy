/**
  The expression materializer (`lowerCstExpr`): builds the instruction
  equivalent to a constant expression and inserts it immediately before a
  given instruction. Opcode families outside the handled ones abort the pass.
*/
module Materializer {
  import opened Results
  import opened Ir

  /** The two ways the pass aborts on input outside its domain. */
  datatype Fatal =
    | UnsupportedExpr(op: Opcode)     // an expression family lowerCstExpr does not handle
    | MissingTerminator(block: BlockId)  // a PHI names a block without a terminator

  /** The result of one materialization: the updated function and the new instruction. */
  datatype Lowering = Lowering(fn: Function, newInst: InstId)

  /**
    The instruction for expression `e`: the same opcode and the operands in
    their order, with the comparison predicate or the cast's target type.
  */
  function Build(e: ConstNode): (r: Inst)
    requires e.Expr? && WellFormedExpr(e) && IsLowerable(e.op)
    ensures OpcodeOf(r) == e.op
    ensures Operands(r) == e.args
    ensures IsBinaryOp(e.op) <==> r.BinaryInst?
    ensures IsCastOp(e.op) <==> r.CastInst?
    ensures IsCmpOp(e.op) <==> r.CmpInst?
    ensures r.CastInst? ==> r.ty == e.ty
    ensures r.CmpInst? ==> r.pred == e.pred
    ensures r.GepInst? ==> r.base == e.args[0] && r.indices == e.args[1..]
    ensures !r.PhiNode? && !r.TermInst? && !r.OtherInst?
  {
    if IsBinaryOp(e.op) then BinaryInst(e.op, e.args[0], e.args[1])
    else if IsCastOp(e.op) then CastInst(e.op, e.args[0], e.ty)
    else if IsCmpOp(e.op) then CmpInst(e.op, e.pred, e.args[0], e.args[1])
    else if e.op.Select? then SelectInst(e.args[0], e.args[1], e.args[2])
    else
      assert [e.args[0]] + e.args[1..] == e.args;
      GepInst(e.args[0], e.args[1..])
  }

  /**
    `lowerCstExpr(CstExp, InsertionLoc)`: fails exactly on an unhandled
    opcode; otherwise the new instruction, numbered `f.next`, computes the
    expression, and the function keeps its shape (where the instruction
    sits is `LowerCstExprPlacement`).
  */
  function LowerCstExpr(pool: Pool, f: Function, e: ConstId, loc: InstId): (r: Result<Lowering, Fatal>)
    requires WellFormedPool(pool) && WellFormed(pool, f)
    requires e in pool && pool[e].Expr? && loc in f.insts
    ensures r.Failure? <==> !IsLowerable(pool[e].op)
    ensures r.Failure? ==> r.error == UnsupportedExpr(pool[e].op)
    ensures r.Success? ==>
      && r.value.newInst == f.next && f.next !in f.insts
      && WellFormed(pool, r.value.fn) && Evolves(f, r.value.fn)
      && r.value.fn.insts == f.insts[f.next := Build(pool[e])]
      && r.value.fn.next == f.next + 1
  {
    var node := pool[e];
    if !IsLowerable(node.op) then Failure(UnsupportedExpr(node.op))
    else
      var inst := Build(node);
      BuildOperandsOk(pool, f, e);
      InsertBeforeOperandsOk(pool, f, loc, inst);
      Success(Lowering(InsertBefore(f, loc, inst), f.next))
  }

  /**
    The new instruction sits immediately before `loc`, in `loc`'s block,
    which is otherwise unchanged; the other blocks are unchanged.
  */
  lemma LowerCstExprPlacement(pool: Pool, f: Function, e: ConstId, loc: InstId)
    requires WellFormedPool(pool) && WellFormed(pool, f)
    requires e in pool && pool[e].Expr? && loc in f.insts
    ensures Locate(f, loc).Some?
    ensures LowerCstExpr(pool, f, e, loc).Success? ==>
      var g := LowerCstExpr(pool, f, e, loc).value.fn;
      var p := Locate(f, loc).value;
      && Locate(g, f.next) == Some(p)
      && Locate(g, loc) == Some(Pos(p.block, p.index + 1))
      && g.blocks[p.block][..p.index] + g.blocks[p.block][p.index + 1..] == f.blocks[p.block]
      && (forall b :: 0 <= b < |f.blocks| && b != p.block ==> g.blocks[b] == f.blocks[b])
  {
    assert Locate(f, loc).Some?;
    if IsLowerable(pool[e].op) {
      var inst := Build(pool[e]);
      InsertBeforeLocates(f, loc, inst);
      InsertBeforeBlocks(f, loc, inst);
      assert LowerCstExpr(pool, f, e, loc).value.fn == InsertBefore(f, loc, inst);
    }
  }

  lemma BuildOperandsOk(pool: Pool, f: Function, e: ConstId)
    requires WellFormedPool(pool) && e in pool && pool[e].Expr? && IsLowerable(pool[e].op)
    ensures InstOk(pool, f, Build(pool[e]))
  {
    var args := pool[e].args;
    forall k | 0 <= k < |args|
      ensures OperandOk(pool, f, args[k])
    {
      assert NodeOperands(pool[e])[k] == args[k];
    }
  }
}
