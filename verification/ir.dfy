/**
  The intermediate representation the lowering pass works on.

  Constants live in a shared pool addressed by identity (`ConstId`): a leaf
  constant, an aggregate of other constants (structs, arrays, and any other
  non-expression constant with operands, such as a global variable and its
  initializer), or a constant expression. A function is a sequence of blocks,
  each an ordered sequence of instruction identities, and a map from identity
  to instruction. `next` is the identity the next created instruction gets.
*/
module Ir {
  import opened Results

  type ConstId = nat
  type InstId = nat
  type BlockId = nat
  type TypeId = nat
  type PredicateId = nat

  /** Opcodes are opaque tags; only their family matters to the pass. */
  datatype Opcode =
    | Add | FAdd | Sub | FSub | Mul | FMul | UDiv | SDiv | FDiv | URem | SRem | FRem
    | Shl | LShr | AShr | And | Or | Xor
    | Trunc | ZExt | SExt | FPToUI | FPToSI | UIToFP | SIToFP | FPTrunc | FPExt
    | PtrToInt | IntToPtr | BitCast
    | ICmp | FCmp | Select | GetElementPtr
    | Phi | Call | VAArg | ExtractElement | InsertElement | ShuffleVector
    | ExtractValue | InsertValue
    | OtherOpcode(code: nat)

  predicate IsBinaryOp(op: Opcode) {
    || op.Add? || op.FAdd? || op.Sub? || op.FSub? || op.Mul? || op.FMul?
    || op.UDiv? || op.SDiv? || op.FDiv? || op.URem? || op.SRem? || op.FRem?
    || op.Shl? || op.LShr? || op.AShr? || op.And? || op.Or? || op.Xor?
  }

  predicate IsCastOp(op: Opcode) {
    || op.Trunc? || op.ZExt? || op.SExt? || op.FPToUI? || op.FPToSI?
    || op.UIToFP? || op.SIToFP? || op.FPTrunc? || op.FPExt?
    || op.PtrToInt? || op.IntToPtr? || op.BitCast?
  }

  predicate IsCmpOp(op: Opcode) {
    op.ICmp? || op.FCmp?
  }

  /** The opcode families the materializer knows how to turn into instructions. */
  predicate IsLowerable(op: Opcode) {
    IsBinaryOp(op) || IsCastOp(op) || IsCmpOp(op) || op.Select? || op.GetElementPtr?
  }

  /** An operand: a constant of the pool, an instruction, or a function argument. */
  datatype Value = Const(cid: ConstId) | Inst(iid: InstId) | Arg(index: nat)

  datatype ConstNode =
    | Leaf
    | Aggregate(elems: seq<Value>)
    | Expr(op: Opcode, args: seq<Value>, pred: PredicateId, ty: TypeId)

  type Pool = map<ConstId, ConstNode>

  function NodeOperands(n: ConstNode): seq<Value> {
    match n
    case Leaf => []
    case Aggregate(elems) => elems
    case Expr(_, args, _, _) => args
  }

  /** Constants only have constants of the pool as operands. */
  predicate ClosedPool(pool: Pool) {
    forall c, k :: c in pool && 0 <= k < |NodeOperands(pool[c])| ==>
      NodeOperands(pool[c])[k].Const? && NodeOperands(pool[c])[k].cid in pool
  }

  /** The operand count every handled expression family has. */
  predicate WellFormedExpr(n: ConstNode)
    requires n.Expr?
  {
    && (IsBinaryOp(n.op) ==> |n.args| == 2)
    && (IsCastOp(n.op) ==> |n.args| == 1)
    && (IsCmpOp(n.op) ==> |n.args| == 2)
    && (n.op.Select? ==> |n.args| == 3)
    && (n.op.GetElementPtr? ==> |n.args| >= 1)
  }

  predicate WellFormedPool(pool: Pool) {
    ClosedPool(pool) && forall c :: c in pool && pool[c].Expr? ==> WellFormedExpr(pool[c])
  }

  datatype Incoming = Incoming(value: Value, block: BlockId)

  datatype Inst =
    | PhiNode(incoming: seq<Incoming>)
    | BinaryInst(op: Opcode, lhs: Value, rhs: Value)
    | CastInst(op: Opcode, src: Value, ty: TypeId)
    | CmpInst(op: Opcode, pred: PredicateId, lhs: Value, rhs: Value)
    | SelectInst(cond: Value, ifTrue: Value, ifFalse: Value)
    | GepInst(base: Value, indices: seq<Value>)
    | OtherInst(op: Opcode, args: seq<Value>)
    | TermInst(op: Opcode, args: seq<Value>, succs: seq<BlockId>)

  function OpcodeOf(i: Inst): Opcode {
    match i
    case PhiNode(_) => Phi
    case BinaryInst(op, _, _) => op
    case CastInst(op, _, _) => op
    case CmpInst(op, _, _, _) => op
    case SelectInst(_, _, _) => Select
    case GepInst(_, _) => GetElementPtr
    case OtherInst(op, _) => op
    case TermInst(op, _, _) => op
  }

  function IncomingValues(inc: seq<Incoming>): (r: seq<Value>)
    ensures |r| == |inc|
    ensures forall k :: 0 <= k < |inc| ==> r[k] == inc[k].value
  {
    seq(|inc|, k requires 0 <= k < |inc| => inc[k].value)
  }

  /** The operand list in positional order; a PHI's operands are its incoming values. */
  function Operands(i: Inst): seq<Value> {
    match i
    case PhiNode(inc) => IncomingValues(inc)
    case BinaryInst(_, l, r) => [l, r]
    case CastInst(_, s, _) => [s]
    case CmpInst(_, _, l, r) => [l, r]
    case SelectInst(c, t, e) => [c, t, e]
    case GepInst(b, idx) => [b] + idx
    case OtherInst(_, a) => a
    case TermInst(_, a, _) => a
  }

  /** Two instructions that differ at most in their operands. */
  predicate SameShape(a: Inst, b: Inst) {
    match a
    case PhiNode(inc) =>
      b.PhiNode? && |b.incoming| == |inc| && forall k :: 0 <= k < |inc| ==> b.incoming[k].block == inc[k].block
    case BinaryInst(op, _, _) => b.BinaryInst? && b.op == op
    case CastInst(op, _, ty) => b.CastInst? && b.op == op && b.ty == ty
    case CmpInst(op, p, _, _) => b.CmpInst? && b.op == op && b.pred == p
    case SelectInst(_, _, _) => b.SelectInst?
    case GepInst(_, idx) => b.GepInst? && |b.indices| == |idx|
    case OtherInst(op, args) => b.OtherInst? && b.op == op && |b.args| == |args|
    case TermInst(op, args, succs) => b.TermInst? && b.op == op && |b.args| == |args| && b.succs == succs
  }

  lemma SameShapeTransitive(a: Inst, b: Inst, c: Inst)
    requires SameShape(a, b) && SameShape(b, c)
    ensures SameShape(a, c)
  {
  }

  /** Replaces the operand list of `i`, keeping everything else. */
  function WithOperands(i: Inst, ops: seq<Value>): (r: Inst)
    requires |ops| == |Operands(i)|
    ensures Operands(r) == ops
    ensures SameShape(i, r)
    ensures SameShape(r, i)
  {
    match i
    case PhiNode(inc) =>
      var inc' := seq(|inc|, k requires 0 <= k < |inc| => Incoming(ops[k], inc[k].block));
      assert IncomingValues(inc') == ops;
      PhiNode(inc')
    case BinaryInst(op, _, _) => BinaryInst(op, ops[0], ops[1])
    case CastInst(op, _, ty) => CastInst(op, ops[0], ty)
    case CmpInst(op, p, _, _) => CmpInst(op, p, ops[0], ops[1])
    case SelectInst(_, _, _) => SelectInst(ops[0], ops[1], ops[2])
    case GepInst(_, _) =>
      assert [ops[0]] + ops[1..] == ops;
      GepInst(ops[0], ops[1..])
    case OtherInst(op, _) => OtherInst(op, ops)
    case TermInst(op, _, succs) => TermInst(op, ops, succs)
  }

  /** Every operand slot holding `from` now holds `to`; the others are kept. */
  function ReplaceUses(i: Inst, from: Value, to: Value): (r: Inst)
    ensures |Operands(r)| == |Operands(i)|
    ensures SameShape(i, r) && SameShape(r, i)
    ensures forall k :: 0 <= k < |Operands(i)| ==>
      Operands(r)[k] == (if Operands(i)[k] == from then to else Operands(i)[k])
  {
    var ops := Operands(i);
    WithOperands(i, seq(|ops|, k requires 0 <= k < |ops| => if ops[k] == from then to else ops[k]))
  }

  datatype Function = Function(blocks: seq<seq<InstId>>, insts: map<InstId, Inst>, next: InstId)

  datatype Pos = Pos(block: BlockId, index: nat)

  predicate ValidPos(f: Function, p: Pos) {
    p.block < |f.blocks| && p.index < |f.blocks[p.block]|
  }

  function At(f: Function, p: Pos): InstId
    requires ValidPos(f, p)
  {
    f.blocks[p.block][p.index]
  }

  ghost predicate Placed(f: Function, x: InstId) {
    exists p :: ValidPos(f, p) && At(f, p) == x
  }

  /**
    Every block entry names a known instruction below `next`, no instruction
    sits at two positions, and every known instruction sits in some block.
  */
  ghost predicate Structured(f: Function) {
    && (forall p :: ValidPos(f, p) ==> At(f, p) in f.insts && At(f, p) < f.next)
    && (forall p, q :: ValidPos(f, p) && ValidPos(f, q) && At(f, p) == At(f, q) ==> p == q)
    && (forall x {:trigger Placed(f, x)} :: x in f.insts ==> Placed(f, x))
  }

  predicate OperandOk(pool: Pool, f: Function, v: Value) {
    match v
    case Const(c) => c in pool
    case Inst(j) => j in f.insts
    case Arg(_) => true
  }

  /** Operands name existing constants or instructions; PHI blocks exist. */
  predicate InstOk(pool: Pool, f: Function, i: Inst) {
    && (forall k :: 0 <= k < |Operands(i)| ==> OperandOk(pool, f, Operands(i)[k]))
    && (i.PhiNode? ==> forall k :: 0 <= k < |i.incoming| ==> i.incoming[k].block < |f.blocks|)
  }

  ghost predicate OperandsOk(pool: Pool, f: Function) {
    forall x :: x in f.insts ==> InstOk(pool, f, f.insts[x])
  }

  ghost predicate WellFormed(pool: Pool, f: Function) {
    Structured(f) && OperandsOk(pool, f)
  }

  lemma StructuredBelowNext(f: Function, x: InstId)
    requires Structured(f) && x in f.insts
    ensures x < f.next
  {
    assert Placed(f, x);
    var p :| ValidPos(f, p) && At(f, p) == x;
  }

  lemma NextIsFresh(f: Function)
    requires Structured(f)
    ensures f.next !in f.insts
  {
    if f.next in f.insts {
      StructuredBelowNext(f, f.next);
    }
  }

  function IndexOf(s: seq<InstId>, x: InstId, from: nat): (r: Option<nat>)
    requires from <= |s|
    ensures r.Some? ==> from <= r.value < |s| && s[r.value] == x
    ensures r.None? ==> forall k :: from <= k < |s| ==> s[k] != x
    decreases |s| - from
  {
    if from == |s| then None
    else if s[from] == x then Some(from)
    else IndexOf(s, x, from + 1)
  }

  function LocateFrom(f: Function, x: InstId, b: nat): (r: Option<Pos>)
    requires b <= |f.blocks|
    ensures r.Some? ==> ValidPos(f, r.value) && At(f, r.value) == x
    ensures r.None? ==> forall p :: ValidPos(f, p) && p.block >= b ==> At(f, p) != x
    decreases |f.blocks| - b
  {
    if b == |f.blocks| then None
    else match IndexOf(f.blocks[b], x, 0)
      case Some(k) => Some(Pos(b, k))
      case None => LocateFrom(f, x, b + 1)
  }

  /** The position of instruction `x`, searching the blocks in order. */
  function Locate(f: Function, x: InstId): (r: Option<Pos>)
    ensures r.Some? ==> ValidPos(f, r.value) && At(f, r.value) == x
    ensures r.None? <==> !Placed(f, x)
  {
    LocateFrom(f, x, 0)
  }

  /** In a structured function, the position holding `x` is the one `Locate` finds. */
  lemma LocateAt(f: Function, p: Pos)
    requires Structured(f) && ValidPos(f, p)
    ensures Locate(f, At(f, p)) == Some(p)
  {
  }

  /** The last instruction of block `b` when it is a terminator (LLVM's getTerminator). */
  function TerminatorOf(f: Function, b: BlockId): (r: Option<InstId>)
    requires Structured(f) && b < |f.blocks|
    ensures r.Some? ==> r.value in f.insts && f.insts[r.value].TermInst?
    ensures r.Some? ==> |f.blocks[b]| > 0 && Locate(f, r.value) == Some(Pos(b, |f.blocks[b]| - 1))
    ensures r.None? <==> |f.blocks[b]| == 0 || !f.insts[At(f, Pos(b, |f.blocks[b]| - 1))].TermInst?
  {
    var s := f.blocks[b];
    if |s| == 0 then None
    else
      var last := At(f, Pos(b, |s| - 1));
      LocateAt(f, Pos(b, |s| - 1));
      if f.insts[last].TermInst? then Some(last) else None
  }

  /** Instructions `x` and `y` sit in the same block, `x` first. */
  ghost predicate Before(f: Function, x: InstId, y: InstId) {
    && Locate(f, x).Some? && Locate(f, y).Some?
    && Locate(f, x).value.block == Locate(f, y).value.block
    && Locate(f, x).value.index < Locate(f, y).value.index
  }

  /** Instruction `x` sits in block `b`, before the terminator that ends it. */
  ghost predicate EndsBefore(f: Function, x: InstId, b: BlockId) {
    && Structured(f) && b < |f.blocks| && TerminatorOf(f, b).Some?
    && Before(f, x, TerminatorOf(f, b).value)
  }

  /** Two functions with the same blocks place an instruction alike. */
  lemma LocateSameBlocks(f: Function, g: Function, x: InstId)
    requires Structured(g) && g.blocks == f.blocks && Locate(f, x).Some?
    ensures Locate(g, x) == Locate(f, x)
  {
    LocateAt(g, Locate(f, x).value);
  }

  /** The elements of `s` below `bound`, in order: what `s` was before ids from `bound` on were added. */
  function Keep(s: seq<InstId>, bound: nat): (r: seq<InstId>)
    ensures |r| <= |s|
    ensures forall k :: 0 <= k < |r| ==> r[k] < bound
  {
    if s == [] then [] else (if s[0] < bound then [s[0]] else []) + Keep(s[1..], bound)
  }

  lemma {:induction false} KeepConcat(a: seq<InstId>, b: seq<InstId>, bound: nat)
    ensures Keep(a + b, bound) == Keep(a, bound) + Keep(b, bound)
  {
    if a == [] {
      assert a + b == b;
    } else {
      assert (a + b)[1..] == a[1..] + b;
      KeepConcat(a[1..], b, bound);
    }
  }

  lemma {:induction false} KeepBelow(s: seq<InstId>, bound: nat)
    requires forall k :: 0 <= k < |s| ==> s[k] < bound
    ensures Keep(s, bound) == s
  {
    if s != [] {
      KeepBelow(s[1..], bound);
    }
  }

  lemma {:induction false} KeepKeep(s: seq<InstId>, b0: nat, b1: nat)
    requires b0 <= b1
    ensures Keep(Keep(s, b1), b0) == Keep(s, b0)
  {
    if s != [] {
      KeepKeep(s[1..], b0, b1);
      var head := if s[0] < b1 then [s[0]] else [];
      KeepConcat(head, Keep(s[1..], b1), b0);
      if s[0] < b1 {
        assert Keep(head, b0) == (if s[0] < b0 then [s[0]] else []) by {
          assert head[1..] == [];
        }
      }
    }
  }

  /** The position of `s` that the `i`-th element `Keep` keeps comes from. */
  function KeepSource(s: seq<InstId>, bound: nat, i: nat): (r: nat)
    requires i < |Keep(s, bound)|
    ensures r < |s| && s[r] == Keep(s, bound)[i]
    decreases |s|
  {
    var head := if s[0] < bound then [s[0]] else [];
    assert Keep(s, bound) == head + Keep(s[1..], bound);
    if s[0] < bound && i == 0 then 0
    else 1 + KeepSource(s[1..], bound, i - |head|)
  }

  /** `Keep` keeps the order: a later kept element comes from a later position. */
  lemma {:induction false} KeepSourceOrder(s: seq<InstId>, bound: nat, i: nat, j: nat)
    requires i < j < |Keep(s, bound)|
    ensures KeepSource(s, bound, i) < KeepSource(s, bound, j)
    decreases |s|
  {
    var head := if s[0] < bound then [s[0]] else [];
    assert Keep(s, bound) == head + Keep(s[1..], bound);
    if !(s[0] < bound && i == 0) {
      KeepSourceOrder(s[1..], bound, i - |head|, j - |head|);
    }
  }

  /**
    `g` is `f` after inserting instructions and rewriting operands: the same
    blocks, old instructions kept in their old order with new ones (identities
    from `f.next` on) interleaved, every old instruction keeps its shape, and
    every block keeps its terminator (so no control-flow edge changes).
  */
  ghost predicate Evolves(f: Function, g: Function) {
    && Structured(f) && Structured(g)
    && |g.blocks| == |f.blocks|
    && f.next <= g.next
    && (forall b :: 0 <= b < |f.blocks| ==> KeptBlock(f, g, b))
    && (forall x :: x in f.insts ==> x in g.insts && SameShape(f.insts[x], g.insts[x]))
    && (forall x :: x in g.insts && x !in f.insts ==> f.next <= x)
    && (forall b :: 0 <= b < |f.blocks| ==> SameTerminator(f, g, b))
  }

  /** Block `b` of `g` is block `b` of `f` with only identities from `f.next` on interleaved. */
  ghost predicate KeptBlock(f: Function, g: Function, b: nat) {
    b < |f.blocks| && b < |g.blocks| && Keep(g.blocks[b], f.next) == f.blocks[b]
  }

  /** Block `b` has the same terminator in `f` and in `g`. */
  ghost predicate SameTerminator(f: Function, g: Function, b: nat) {
    && Structured(f) && Structured(g) && b < |f.blocks| && b < |g.blocks|
    && TerminatorOf(g, b) == TerminatorOf(f, b)
  }

  lemma EvolvesReflexive(f: Function)
    requires Structured(f)
    ensures Evolves(f, f)
  {
    forall b | 0 <= b < |f.blocks|
      ensures KeptBlock(f, f, b)
    {
      forall k | 0 <= k < |f.blocks[b]|
        ensures f.blocks[b][k] < f.next
      {
        assert ValidPos(f, Pos(b, k));
      }
      KeepBelow(f.blocks[b], f.next);
    }
  }

  lemma EvolvesTransitive(f: Function, g: Function, h: Function)
    requires Evolves(f, g) && Evolves(g, h)
    ensures Evolves(f, h)
  {
    forall b | 0 <= b < |f.blocks|
      ensures KeptBlock(f, h, b) && SameTerminator(f, h, b)
    {
      assert KeptBlock(f, g, b) && KeptBlock(g, h, b);
      assert SameTerminator(f, g, b) && SameTerminator(g, h, b);
      KeepKeep(h.blocks[b], f.next, g.next);
    }
    forall x | x in f.insts
      ensures x in h.insts && SameShape(f.insts[x], h.insts[x])
    {
      SameShapeTransitive(f.insts[x], g.insts[x], h.insts[x]);
    }
  }

  /** Inserting instructions and rewriting operands keeps the order of the instructions already there. */
  lemma EvolvesKeepsBefore(f: Function, g: Function, x: InstId, y: InstId)
    requires Evolves(f, g) && Before(f, x, y)
    ensures Before(g, x, y)
  {
    var p, q := Locate(f, x).value, Locate(f, y).value;
    var b := p.block;
    assert KeptBlock(f, g, b);
    var s := g.blocks[b];
    var i, j := KeepSource(s, f.next, p.index), KeepSource(s, f.next, q.index);
    KeepSourceOrder(s, f.next, p.index, q.index);
    LocateAt(g, Pos(b, i));
    LocateAt(g, Pos(b, j));
  }

  /** An instruction before a block's terminator stays before it. */
  lemma EvolvesKeepsEndsBefore(f: Function, g: Function, x: InstId, b: BlockId)
    requires Evolves(f, g) && EndsBefore(f, x, b)
    ensures EndsBefore(g, x, b)
  {
    assert SameTerminator(f, g, b);
    EvolvesKeepsBefore(f, g, x, TerminatorOf(f, b).value);
  }

  /** `g` is `f` with instruction `id` rewritten to a same-shaped instruction. */
  function Rewrite(f: Function, id: InstId, i: Inst): (g: Function)
    requires Structured(f) && id in f.insts && SameShape(f.insts[id], i)
    ensures Structured(g) && Evolves(f, g)
    ensures g.blocks == f.blocks && g.next == f.next
    ensures g.insts == f.insts[id := i]
  {
    var g := Function(f.blocks, f.insts[id := i], f.next);
    RewriteEvolves(f, id, i, g);
    g
  }

  lemma RewriteEvolves(f: Function, id: InstId, i: Inst, g: Function)
    requires Structured(f) && id in f.insts && SameShape(f.insts[id], i)
    requires g == Function(f.blocks, f.insts[id := i], f.next)
    ensures Structured(g) && Evolves(f, g)
  {
    RewriteStructured(f, id, i, g);
    EvolvesReflexive(f);
    forall x | x in f.insts
      ensures x in g.insts && SameShape(f.insts[x], g.insts[x])
    {
      if x != id {
        SameShapeReflexive(f.insts[x]);
      }
    }
    forall b | 0 <= b < |f.blocks|
      ensures KeptBlock(f, g, b) && SameTerminator(f, g, b)
    {
      assert KeptBlock(f, f, b);
      var s := f.blocks[b];
      if |s| > 0 {
        var last := At(f, Pos(b, |s| - 1));
        assert g.insts[last].TermInst? == f.insts[last].TermInst?;
      }
    }
  }

  lemma RewriteStructured(f: Function, id: InstId, i: Inst, g: Function)
    requires Structured(f) && id in f.insts
    requires g == Function(f.blocks, f.insts[id := i], f.next)
    ensures Structured(g)
  {
    forall p | ValidPos(g, p)
      ensures ValidPos(f, p) && At(g, p) == At(f, p)
    {
    }
    forall p, q | ValidPos(g, p) && ValidPos(g, q) && At(g, p) == At(g, q)
      ensures p == q
    {
      assert ValidPos(f, p) && ValidPos(f, q) && At(f, p) == At(f, q);
    }
    forall x | x in g.insts
      ensures Placed(g, x)
    {
      assert Placed(f, x);
      var p :| ValidPos(f, p) && At(f, p) == x;
      assert ValidPos(g, p) && At(g, p) == x;
    }
  }

  lemma SameShapeReflexive(a: Inst)
    ensures SameShape(a, a)
  {
  }

  /** The function `f` with `inst`, numbered `f.next`, inserted at position `p`. */
  function Inserted(f: Function, p: Pos, inst: Inst): Function
    requires ValidPos(f, p)
  {
    var s := f.blocks[p.block];
    Function(f.blocks[p.block := s[..p.index] + [f.next] + s[p.index..]], f.insts[f.next := inst], f.next + 1)
  }

  /** Position `q` after insertion at `p` holds the new id (at `p`) or what `OldPos(p, q)` held. */
  lemma InsertedAt(f: Function, p: Pos, inst: Inst, q: Pos)
    requires ValidPos(f, p) && ValidPos(Inserted(f, p, inst), q)
    ensures q == p ==> At(Inserted(f, p, inst), q) == f.next
    ensures q != p ==> ValidPos(f, OldPos(p, q)) && At(Inserted(f, p, inst), q) == At(f, OldPos(p, q))
  {
    var s := f.blocks[p.block];
    var s' := s[..p.index] + [f.next] + s[p.index..];
    if q.block == p.block {
      if q.index < p.index {
        assert s'[q.index] == s[q.index];
      } else if q.index > p.index {
        assert s'[q.index] == s[q.index - 1];
      }
    }
  }

  /** Position `q` of `f` moves to `NewPos(p, q)` on insertion at `p`. */
  lemma InsertedNewPos(f: Function, p: Pos, inst: Inst, q: Pos)
    requires ValidPos(f, p) && ValidPos(f, q)
    ensures ValidPos(Inserted(f, p, inst), NewPos(p, q))
    ensures NewPos(p, q) != p && OldPos(p, NewPos(p, q)) == q
  {
  }

  lemma InsertedStructured(f: Function, p: Pos, inst: Inst)
    requires Structured(f) && ValidPos(f, p)
    ensures var g := Inserted(f, p, inst);
      && Structured(g)
      && ValidPos(g, p) && At(g, p) == f.next
      && ValidPos(g, Pos(p.block, p.index + 1)) && At(g, Pos(p.block, p.index + 1)) == At(f, p)
  {
    var g := Inserted(f, p, inst);
    var n := f.next;
    assert ValidPos(g, p) && At(g, p) == n by {
      InsertedAt(f, p, inst, p);
    }
    assert ValidPos(g, Pos(p.block, p.index + 1)) && At(g, Pos(p.block, p.index + 1)) == At(f, p) by {
      InsertedNewPos(f, p, inst, p);
      InsertedAt(f, p, inst, Pos(p.block, p.index + 1));
    }
    assert forall q :: ValidPos(g, q) ==> At(g, q) in g.insts && At(g, q) < g.next by {
      forall q | ValidPos(g, q)
        ensures At(g, q) in g.insts && At(g, q) < g.next
      {
        InsertedAt(f, p, inst, q);
        if q != p {
          assert ValidPos(f, OldPos(p, q));
        }
      }
    }
    assert forall q1, q2 :: ValidPos(g, q1) && ValidPos(g, q2) && At(g, q1) == At(g, q2) ==> q1 == q2 by {
      forall q1, q2 | ValidPos(g, q1) && ValidPos(g, q2) && At(g, q1) == At(g, q2)
        ensures q1 == q2
      {
        InsertedAt(f, p, inst, q1);
        InsertedAt(f, p, inst, q2);
        if q1 != p {
          assert ValidPos(f, OldPos(p, q1));
        }
        if q2 != p {
          assert ValidPos(f, OldPos(p, q2));
        }
        if q1 != p && q2 != p {
          assert OldPos(p, q1) == OldPos(p, q2);
        }
      }
    }
    assert forall x :: x in g.insts ==> Placed(g, x) by {
      forall x | x in g.insts
        ensures Placed(g, x)
      {
        if x != n {
          assert Placed(f, x);
          var q :| ValidPos(f, q) && At(f, q) == x;
          InsertedNewPos(f, p, inst, q);
          InsertedAt(f, p, inst, NewPos(p, q));
          assert ValidPos(g, NewPos(p, q)) && At(g, NewPos(p, q)) == x;
        }
      }
    }
  }

  /** Where position `q` of the function after insertion at `p` was before it. */
  function OldPos(p: Pos, q: Pos): Pos {
    if q.block == p.block && q.index > p.index then Pos(q.block, q.index - 1) else q
  }

  /** Where position `q` moves to when an instruction is inserted at `p`. */
  function NewPos(p: Pos, q: Pos): Pos {
    if q.block == p.block && q.index >= p.index then Pos(q.block, q.index + 1) else q
  }

  /** Inserting an id at or above the bound anywhere leaves what `Keep` sees unchanged. */
  lemma KeepInsert(s: seq<InstId>, i: nat, x: InstId, bound: nat)
    requires i <= |s| && bound <= x
    requires forall k :: 0 <= k < |s| ==> s[k] < bound
    ensures Keep(s[..i] + [x] + s[i..], bound) == s
  {
    var a, c := s[..i], s[i..];
    assert Keep(a + [x], bound) == a by {
      assert forall k :: 0 <= k < |a| ==> a[k] == s[k];
      KeepBelow(a, bound);
      assert Keep([x], bound) == [] by {
        assert [x][1..] == [];
      }
      KeepConcat(a, [x], bound);
    }
    assert Keep(a + [x] + c, bound) == a + c by {
      assert forall k :: 0 <= k < |c| ==> c[k] == s[i + k];
      KeepBelow(c, bound);
      KeepConcat(a + [x], c, bound);
    }
    assert a + c == s;
  }

  lemma InsertedKeepsOrder(f: Function, p: Pos, inst: Inst, b: nat)
    requires Structured(f) && ValidPos(f, p) && b < |f.blocks|
    ensures Keep(Inserted(f, p, inst).blocks[b], f.next) == f.blocks[b]
  {
    forall k | 0 <= k < |f.blocks[b]|
      ensures f.blocks[b][k] < f.next
    {
      assert ValidPos(f, Pos(b, k));
    }
    if b == p.block {
      KeepInsert(f.blocks[b], p.index, f.next, f.next);
    } else {
      KeepBelow(f.blocks[b], f.next);
    }
  }

  lemma InsertedKeepsTerminators(f: Function, p: Pos, inst: Inst, b: nat)
    requires Structured(f) && ValidPos(f, p) && b < |f.blocks|
    ensures Structured(Inserted(f, p, inst))
    ensures TerminatorOf(Inserted(f, p, inst), b) == TerminatorOf(f, b)
  {
    var g := Inserted(f, p, inst);
    InsertedStructured(f, p, inst);
    var s := f.blocks[b];
    if b == p.block {
      var lastOld := At(f, Pos(b, |s| - 1));
      assert At(g, Pos(b, |s|)) == lastOld;
      StructuredBelowNext(f, lastOld);
      assert g.insts[lastOld] == f.insts[lastOld];
    } else {
      assert g.blocks[b] == s;
      if |s| > 0 {
        var lastOld := At(f, Pos(b, |s| - 1));
        StructuredBelowNext(f, lastOld);
        assert g.insts[lastOld] == f.insts[lastOld];
      }
    }
  }

  lemma InsertedEvolves(f: Function, p: Pos, inst: Inst)
    requires Structured(f) && ValidPos(f, p)
    ensures Evolves(f, Inserted(f, p, inst))
  {
    var g := Inserted(f, p, inst);
    InsertedStructured(f, p, inst);
    forall b | 0 <= b < |f.blocks|
      ensures KeptBlock(f, g, b) && SameTerminator(f, g, b)
    {
      InsertedKeepsOrder(f, p, inst, b);
      InsertedKeepsTerminators(f, p, inst, b);
    }
    forall x | x in f.insts
      ensures x in g.insts && SameShape(f.insts[x], g.insts[x])
    {
      StructuredBelowNext(f, x);
    }
  }

  /**
    Inserts `inst` immediately before instruction `loc`, in `loc`'s block,
    under the fresh identity `f.next` (LLVM's insert-before constructors);
    where it lands is `InsertBeforeLocates`.
  */
  function InsertBefore(f: Function, loc: InstId, inst: Inst): (g: Function)
    requires Structured(f) && loc in f.insts
    ensures Structured(g) && Evolves(f, g)
    ensures g.insts == f.insts[f.next := inst] && g.next == f.next + 1
    ensures f.next !in f.insts
  {
    assert Locate(f, loc).Some?;
    var p := Locate(f, loc).value;
    InsertedStructured(f, p, inst);
    InsertedEvolves(f, p, inst);
    NextIsFresh(f);
    Inserted(f, p, inst)
  }

  /** The new instruction takes `loc`'s position and `loc` moves one on. */
  lemma InsertBeforeLocates(f: Function, loc: InstId, inst: Inst)
    requires Structured(f) && loc in f.insts
    ensures Locate(f, loc).Some?
    ensures var p := Locate(f, loc).value;
      && Locate(InsertBefore(f, loc, inst), f.next) == Some(p)
      && Locate(InsertBefore(f, loc, inst), loc) == Some(Pos(p.block, p.index + 1))
  {
    var p := Locate(f, loc).value;
    var g := Inserted(f, p, inst);
    InsertedStructured(f, p, inst);
    LocateAt(g, p);
    LocateAt(g, Pos(p.block, p.index + 1));
  }

  lemma InsertedBlocks(f: Function, p: Pos, inst: Inst)
    requires ValidPos(f, p)
    ensures var g := Inserted(f, p, inst);
      && p.block < |g.blocks| && p.index < |g.blocks[p.block]|
      && g.blocks[p.block][..p.index] + g.blocks[p.block][p.index + 1..] == f.blocks[p.block]
      && (forall b :: 0 <= b < |f.blocks| && b != p.block ==> g.blocks[b] == f.blocks[b])
  {
    var s := f.blocks[p.block];
    var s' := s[..p.index] + [f.next] + s[p.index..];
    assert s'[..p.index] == s[..p.index];
    assert s'[p.index + 1..] == s[p.index..];
    assert s[..p.index] + s[p.index..] == s;
  }

  /** Apart from the new slot, `loc`'s block is unchanged, and so are the other blocks. */
  lemma InsertBeforeBlocks(f: Function, loc: InstId, inst: Inst)
    requires Structured(f) && loc in f.insts
    ensures Locate(f, loc).Some?
    ensures var g := InsertBefore(f, loc, inst);
      var p := Locate(f, loc).value;
      && p.block < |g.blocks| && p.index < |g.blocks[p.block]|
      && g.blocks[p.block][..p.index] + g.blocks[p.block][p.index + 1..] == f.blocks[p.block]
      && (forall b :: 0 <= b < |f.blocks| && b != p.block ==> g.blocks[b] == f.blocks[b])
  {
    InsertedBlocks(f, Locate(f, loc).value, inst);
  }

  /** Inserting an instruction whose operands exist keeps every operand valid. */
  lemma InsertBeforeOperandsOk(pool: Pool, f: Function, loc: InstId, inst: Inst)
    requires WellFormed(pool, f) && loc in f.insts && InstOk(pool, f, inst)
    ensures WellFormed(pool, InsertBefore(f, loc, inst))
  {
    var g := InsertBefore(f, loc, inst);
    forall x | x in g.insts
      ensures InstOk(pool, g, g.insts[x])
    {
      var i := g.insts[x];
      assert InstOk(pool, f, i);
      forall k | 0 <= k < |Operands(i)|
        ensures OperandOk(pool, g, Operands(i)[k])
      {
        assert OperandOk(pool, f, Operands(i)[k]);
      }
    }
  }

  /** Rewriting an instruction to one whose operands exist keeps every operand valid. */
  lemma RewriteOperandsOk(pool: Pool, f: Function, id: InstId, i: Inst)
    requires WellFormed(pool, f) && id in f.insts && SameShape(f.insts[id], i) && InstOk(pool, f, i)
    ensures WellFormed(pool, Rewrite(f, id, i))
  {
  }
}
