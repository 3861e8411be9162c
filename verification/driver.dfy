/**
  Lowering one instruction taken off the worklist (the body of the loop in
  `runOnFunction`): a PHI node has each offending incoming value lowered
  before the terminator of its incoming block; any other instruction has each
  offending operand lowered immediately before itself.
*/
module Driver {
  import opened Results
  import opened Ir
  import opened Scanner
  import opened Materializer

  /** The function after lowering one instruction, and the instructions that created. */
  datatype Step = Step(fn: Function, created: set<InstId>)

  /** The scanner finds a constant expression in `v`. */
  predicate Offending(pool: Pool, v: Value)
    requires ClosedPool(pool)
  {
    InPool(pool, v) && HasCstExpr(pool, v).Some?
  }

  /** Some operand of `i` holds a constant expression: `i` belongs in the initial worklist. */
  ghost predicate NeedsLowering(pool: Pool, i: Inst)
    requires ClosedPool(pool)
  {
    exists k :: 0 <= k < |Operands(i)| && Offending(pool, Operands(i)[k])
  }

  ghost predicate InSeed(pool: Pool, f: Function, x: InstId)
    requires ClosedPool(pool)
  {
    x in f.insts && NeedsLowering(pool, f.insts[x])
  }

  /** No operand of any instruction holds a constant expression. */
  ghost predicate Lowered(pool: Pool, f: Function)
    requires ClosedPool(pool)
  {
    forall x :: x in f.insts ==> !NeedsLowering(pool, f.insts[x])
  }

  /** `w` is a new instruction (one of `created`, present in `g`) computing expression `v`. */
  ghost predicate Materialized(pool: Pool, v: Value, g: Function, created: set<InstId>, w: Value)
    requires WellFormedPool(pool)
  {
    && ExprValue(pool, v) && IsLowerable(pool[v.cid].op)
    && w.Inst? && w.iid in created && w.iid in g.insts && g.insts[w.iid] == Build(pool[v.cid])
  }

  /**
    What a PHI slot holding `v` ends up holding (`w`): `v` itself when the
    scanner finds no expression in it, otherwise a new instruction computing
    the expression found, which replaces `v` as a whole.
  */
  ghost predicate SlotLowered(pool: Pool, v: Value, g: Function, created: set<InstId>, w: Value)
    requires WellFormedPool(pool)
  {
    && InPool(pool, v)
    && match HasCstExpr(pool, v)
       case None => w == v
       case Some(e) => Materialized(pool, Const(e), g, created, w)
  }

  /** The number of slots of `inc` from `lo` up to `hi` whose value holds an expression. */
  function CountOffending(pool: Pool, inc: seq<Incoming>, lo: nat, hi: nat): nat
    requires ClosedPool(pool) && hi <= |inc|
    decreases hi - lo
  {
    if lo >= hi then 0
    else (if Offending(pool, inc[lo].value) then 1 else 0) + CountOffending(pool, inc, lo + 1, hi)
  }

  /**
    Incoming list `a` became `b` in step `s`, which processed slots `i` on
    and numbered its new instructions from `first`: earlier slots are
    untouched, every later slot is lowered, and each offending slot gets an
    instruction of its own, numbered by how many offending slots precede it.
  */
  ghost predicate IncomingLowered(pool: Pool, a: seq<Incoming>, s: Step, b: seq<Incoming>, i: nat, first: InstId)
    requires WellFormedPool(pool)
  {
    && |b| == |a|
    && (forall k :: 0 <= k < i && k < |a| ==> b[k] == a[k])
    && (forall k :: i <= k < |a| ==> SlotLowered(pool, a[k].value, s.fn, s.created, b[k].value))
    && (forall k :: i <= k < |a| && Offending(pool, a[k].value) ==>
          b[k].value == Inst(first + CountOffending(pool, a, i, k)))
  }

  /** The first position of `v` in `s`. */
  function FirstIndex(s: seq<Value>, v: Value): (r: nat)
    requires v in s
    ensures r < |s| && s[r] == v
    ensures forall j :: 0 <= j < r ==> s[j] != v
  {
    if s[0] == v then 0 else 1 + FirstIndex(s[1..], v)
  }

  /** Two lists holding `v` at the same positions hold it first at the same position. */
  lemma FirstIndexSame(a: seq<Value>, b: seq<Value>, v: Value)
    requires |a| == |b| && v in a && v in b
    requires forall j :: 0 <= j < |a| ==> (a[j] == v <==> b[j] == v)
    ensures FirstIndex(a, v) == FirstIndex(b, v)
  {
    var x, y := FirstIndex(a, v), FirstIndex(b, v);
    assert a[y] == v && b[x] == v;
  }

  /**
    Operand list `a` became `b` in step `s`, which processed operands `i` on:
    an operand is either kept or was an expression and now names a new
    instruction computing it, every expression operand from `i` on is
    replaced, and an expression operand holds what the first operand equal
    to it holds (all uses are replaced at once, by one instruction).
  */
  ghost predicate OperandsLowered(pool: Pool, a: seq<Value>, s: Step, b: seq<Value>, i: nat)
    requires WellFormedPool(pool)
  {
    && |b| == |a|
    && (forall k :: 0 <= k < |a| ==> b[k] == a[k] || Materialized(pool, a[k], s.fn, s.created, b[k]))
    && (forall k :: i <= k < |a| && ExprValue(pool, a[k]) ==> b[k] != a[k])
    && (forall k :: 0 <= k < |a| && ExprValue(pool, a[k]) ==> b[k] == b[FirstIndex(a, a[k])])
  }

  /** What stops the pass at value `v`: it holds an expression `lowerCstExpr` cannot handle. */
  function UseFault(pool: Pool, v: Value): Option<Fatal>
    requires ClosedPool(pool) && InPool(pool, v)
  {
    match HasCstExpr(pool, v)
    case None => None
    case Some(e) => if IsLowerable(pool[e].op) then None else Some(UnsupportedExpr(pool[e].op))
  }

  /** Every operand names a value of the pool. */
  predicate AllInPool(pool: Pool, ops: seq<Value>) {
    forall k :: 0 <= k < |ops| ==> InPool(pool, ops[k])
  }

  /** The operands of an instruction of a well-formed function name pool values. */
  lemma InstOperandsOk(pool: Pool, f: Function, id: InstId)
    requires WellFormed(pool, f) && id in f.insts
    ensures AllInPool(pool, Operands(f.insts[id]))
  {
    assert InstOk(pool, f, f.insts[id]);
  }

  /** The first fault among operands `i` on. */
  function UseFaults(pool: Pool, ops: seq<Value>, i: nat): Option<Fatal>
    requires ClosedPool(pool) && i <= |ops| && forall k :: i <= k < |ops| ==> InPool(pool, ops[k])
    decreases |ops| - i
  {
    if i == |ops| then None
    else if UseFault(pool, ops[i]).Some? then UseFault(pool, ops[i])
    else UseFaults(pool, ops, i + 1)
  }

  /** Every slot of `inc` from `i` on names a block of `f` and a value of the pool. */
  predicate SlotsOk(pool: Pool, f: Function, inc: seq<Incoming>, i: nat) {
    forall k :: i <= k < |inc| ==> inc[k].block < |f.blocks| && InPool(pool, inc[k].value)
  }

  /**
    The first fault among the incoming slots `inc` from `i` on: a slot whose
    block has no terminator, whatever its value, or whose value holds an
    expression that cannot be lowered.
  */
  function IncomingFaults(pool: Pool, f: Function, inc: seq<Incoming>, i: nat): Option<Fatal>
    requires ClosedPool(pool) && Structured(f) && i <= |inc| && SlotsOk(pool, f, inc, i)
    decreases |inc| - i
  {
    if i == |inc| then None
    else if TerminatorOf(f, inc[i].block).None? then Some(MissingTerminator(inc[i].block))
    else if UseFault(pool, inc[i].value).Some? then UseFault(pool, inc[i].value)
    else IncomingFaults(pool, f, inc, i + 1)
  }

  /** The slots of a PHI node in a well-formed function name its blocks and pool values. */
  lemma PhiSlotsOk(pool: Pool, f: Function, id: InstId)
    requires WellFormed(pool, f) && id in f.insts && f.insts[id].PhiNode?
    ensures SlotsOk(pool, f, f.insts[id].incoming, 0)
  {
    var inc := f.insts[id].incoming;
    assert InstOk(pool, f, f.insts[id]);
    forall k | 0 <= k < |inc|
      ensures InPool(pool, inc[k].value)
    {
      assert OperandOk(pool, f, Operands(f.insts[id])[k]);
    }
  }

  /**
    The inner loop over `j` of the PHI case (lines 189-196), as written:
    slot `j` is compared with slot `i` as it is at that moment, and slot
    `i` is itself rewritten first.
  */
  function RewriteSlots(inc: seq<Incoming>, i: nat, j: nat, v: Value): (r: seq<Incoming>)
    requires i < |inc| && i <= j <= |inc|
    ensures |r| == |inc|
    ensures forall k :: 0 <= k < |inc| ==> r[k].block == inc[k].block
    ensures forall k :: 0 <= k < |inc| ==> r[k] == inc[k] || r[k].value == v
    ensures forall k :: 0 <= k < i ==> r[k] == inc[k]
    ensures i < j ==> r[i] == inc[i]
    ensures j == i ==> r[i] == Incoming(v, inc[i].block)
    decreases |inc| - j
  {
    if j == |inc| then inc
    else
      var inc' :=
        if inc[j].value == inc[i].value && inc[j].block == inc[i].block
        then inc[j := Incoming(v, inc[j].block)]
        else inc;
      RewriteSlots(inc', i, j + 1, v)
  }

  /**
    Once slot `i` holds the new value, a later slot is rewritten only if it
    equals the pair now in slot `i`, and then it is rewritten to itself:
    the rest of the loop changes nothing.
  */
  lemma {:induction false} RewriteSlotsRest(inc: seq<Incoming>, i: nat, j: nat, v: Value)
    requires i < j <= |inc| && inc[i].value == v
    ensures RewriteSlots(inc, i, j, v) == inc
    decreases |inc| - j
  {
    if j < |inc| {
      if inc[j] == inc[i] {
        assert inc[j := Incoming(v, inc[j].block)] == inc;
      }
      RewriteSlotsRest(inc, i, j + 1, v);
    }
  }

  /**
    The rewriting loop as written, for any new value `v`: exactly slot `i`
    changes. Duplicates of the pair in slot `i` are therefore not coalesced.
  */
  lemma {:induction false} RewriteSlotsOnlyI(inc: seq<Incoming>, i: nat, v: Value)
    requires i < |inc|
    ensures RewriteSlots(inc, i, i, v) == inc[i := Incoming(v, inc[i].block)]
  {
    var inc' := inc[i := Incoming(v, inc[i].block)];
    assert RewriteSlots(inc, i, i, v) == RewriteSlots(inc', i, i + 1, v);
    RewriteSlotsRest(inc', i, i + 1, v);
  }

  /** PHI slot `i` of instruction `id` after the rewriting loop with new instruction `n`. */
  function SetIncoming(pool: Pool, g: Function, id: InstId, i: nat, n: InstId): (h: Function)
    requires WellFormed(pool, g) && id in g.insts && g.insts[id].PhiNode?
    requires i < |g.insts[id].incoming| && n in g.insts
    ensures WellFormed(pool, h) && Evolves(g, h)
    ensures h.blocks == g.blocks && h.next == g.next
    ensures h.insts == g.insts[id := PhiNode(RewriteSlots(g.insts[id].incoming, i, i, Inst(n)))]
  {
    var inc := g.insts[id].incoming;
    var phi := PhiNode(RewriteSlots(inc, i, i, Inst(n)));
    SetIncomingOk(pool, g, id, i, n);
    RewriteOperandsOk(pool, g, id, phi);
    Rewrite(g, id, phi)
  }

  lemma SetIncomingOk(pool: Pool, g: Function, id: InstId, i: nat, n: InstId)
    requires WellFormed(pool, g) && id in g.insts && g.insts[id].PhiNode?
    requires i < |g.insts[id].incoming| && n in g.insts
    ensures SameShape(g.insts[id], PhiNode(RewriteSlots(g.insts[id].incoming, i, i, Inst(n))))
    ensures InstOk(pool, g, PhiNode(RewriteSlots(g.insts[id].incoming, i, i, Inst(n))))
  {
    var inc := g.insts[id].incoming;
    var r := RewriteSlots(inc, i, i, Inst(n));
    assert InstOk(pool, g, g.insts[id]);
    forall k | 0 <= k < |r|
      ensures OperandOk(pool, g, IncomingValues(r)[k])
    {
      assert Operands(g.insts[id])[k] == inc[k].value;
      assert OperandOk(pool, g, Operands(g.insts[id])[k]);
      assert IncomingValues(r)[k] == r[k].value;
    }
  }

  /** `I->replaceUsesOfWith(CstExp, NewInst)` on instruction `id`. */
  function ReplaceOperand(pool: Pool, g: Function, id: InstId, e: ConstId, n: InstId): (h: Function)
    requires WellFormed(pool, g) && id in g.insts && n in g.insts
    ensures WellFormed(pool, h) && Evolves(g, h)
    ensures h.blocks == g.blocks && h.next == g.next
    ensures h.insts == g.insts[id := ReplaceUses(g.insts[id], Const(e), Inst(n))]
  {
    var i := ReplaceUses(g.insts[id], Const(e), Inst(n));
    ReplaceOperandOk(pool, g, id, e, n);
    RewriteOperandsOk(pool, g, id, i);
    Rewrite(g, id, i)
  }

  lemma ReplaceOperandOk(pool: Pool, g: Function, id: InstId, e: ConstId, n: InstId)
    requires WellFormed(pool, g) && id in g.insts && n in g.insts
    ensures InstOk(pool, g, ReplaceUses(g.insts[id], Const(e), Inst(n)))
  {
    var old_ := g.insts[id];
    var i := ReplaceUses(old_, Const(e), Inst(n));
    assert InstOk(pool, g, old_);
    forall k | 0 <= k < |Operands(i)|
      ensures OperandOk(pool, g, Operands(i)[k])
    {
    }
    if i.PhiNode? {
      assert old_.PhiNode?;
    }
  }

  /**
    The PHI case (lines 181-199), from incoming slot `i` on. For each slot
    the incoming block must have a terminator; an offending incoming value
    is lowered before it, and the new instruction joins the worklist.
  */
  function LowerIncoming(pool: Pool, f: Function, id: InstId, i: nat): (r: Result<Step, Fatal>)
    requires WellFormedPool(pool) && WellFormed(pool, f) && id in f.insts && f.insts[id].PhiNode?
    requires i <= |f.insts[id].incoming|
    ensures SlotsOk(pool, f, f.insts[id].incoming, 0)
    ensures r.Success? ==> StepOk(pool, f, id, r.value)
    ensures r.Success? ==>
      IncomingLowered(pool, f.insts[id].incoming, r.value, r.value.fn.insts[id].incoming, i, f.next)
    ensures ErrorOf(r) == IncomingFaults(pool, f, f.insts[id].incoming, i)
    decreases |f.insts[id].incoming| - i, 1
  {
    var inc := f.insts[id].incoming;
    PhiSlotsOk(pool, f, id);
    if i == |inc| then
      EvolvesReflexive(f);
      assert StepOk(pool, f, id, Step(f, {}));
      Success(Step(f, {}))
    else
      var b := inc[i].block;
      match TerminatorOf(f, b)
      case None => Failure(MissingTerminator(b))
      case Some(t) =>
        match HasCstExpr(pool, inc[i].value)
        case None =>
          var r := LowerIncoming(pool, f, id, i + 1);
          if r.Success? then
            IncomingSkip(pool, inc, r.value, r.value.fn.insts[id].incoming, i, f.next);
            r
          else r
        case Some(e) => LowerIncomingAt(pool, f, id, i, e, t)
  }

  /**
    Lines 186-197 for slot `i`, whose incoming value holds expression `e`
    and whose block ends in terminator `t`, followed by the rest of the loop.
  */
  function LowerIncomingAt(pool: Pool, f: Function, id: InstId, i: nat, e: ConstId, t: InstId): (r: Result<Step, Fatal>)
    requires WellFormedPool(pool) && WellFormed(pool, f) && id in f.insts && f.insts[id].PhiNode?
    requires i < |f.insts[id].incoming| && SlotsOk(pool, f, f.insts[id].incoming, 0)
    requires HasCstExpr(pool, f.insts[id].incoming[i].value) == Some(e)
    requires TerminatorOf(f, f.insts[id].incoming[i].block) == Some(t)
    ensures r.Success? ==> StepOk(pool, f, id, r.value)
    ensures r.Success? ==>
      IncomingLowered(pool, f.insts[id].incoming, r.value, r.value.fn.insts[id].incoming, i, f.next)
    ensures ErrorOf(r) == IncomingFaults(pool, f, f.insts[id].incoming, i)
    decreases |f.insts[id].incoming| - i, 0
  {
    match LowerSlot(pool, f, id, i, e, t)
    case Failure(err) => Failure(err)
    case Success(l) =>
      var rest := LowerIncoming(pool, l.fn, id, i + 1);
      SlotStep(pool, f, id, i, e, l, rest);
      Preceded(l.newInst, rest)
  }

  /**
    The non-PHI case (lines 203-211), from operand `i` on: an offending
    operand is lowered immediately before the instruction, every operand
    equal to the expression found is replaced by the new instruction, and
    the new instruction joins the worklist.
  */
  function LowerOperands(pool: Pool, f: Function, id: InstId, i: nat): (r: Result<Step, Fatal>)
    requires WellFormedPool(pool) && WellFormed(pool, f) && id in f.insts && !f.insts[id].PhiNode?
    requires i <= |Operands(f.insts[id])|
    ensures AllInPool(pool, Operands(f.insts[id]))
    ensures r.Success? ==> StepOk(pool, f, id, r.value)
    ensures r.Success? ==>
      OperandsLowered(pool, Operands(f.insts[id]), r.value, Operands(r.value.fn.insts[id]), i)
    ensures ErrorOf(r) == UseFaults(pool, Operands(f.insts[id]), i)
    decreases |Operands(f.insts[id])| - i, 1
  {
    var ops := Operands(f.insts[id]);
    InstOperandsOk(pool, f, id);
    if i == |ops| then
      EvolvesReflexive(f);
      assert StepOk(pool, f, id, Step(f, {}));
      Success(Step(f, {}))
    else
      match HasCstExpr(pool, ops[i])
      case None =>
        var r := LowerOperands(pool, f, id, i + 1);
        if r.Success? then
          OperandsSkip(pool, ops, r.value, Operands(r.value.fn.insts[id]), i);
          r
        else r
      case Some(e) => LowerOperandsAt(pool, f, id, i, e)
  }

  /** Lines 206-210 for operand `i`, which holds expression `e`, followed by the rest of the loop. */
  function LowerOperandsAt(pool: Pool, f: Function, id: InstId, i: nat, e: ConstId): (r: Result<Step, Fatal>)
    requires WellFormedPool(pool) && WellFormed(pool, f) && id in f.insts && !f.insts[id].PhiNode?
    requires i < |Operands(f.insts[id])| && AllInPool(pool, Operands(f.insts[id]))
    requires HasCstExpr(pool, Operands(f.insts[id])[i]) == Some(e)
    ensures r.Success? ==> StepOk(pool, f, id, r.value)
    ensures r.Success? ==>
      OperandsLowered(pool, Operands(f.insts[id]), r.value, Operands(r.value.fn.insts[id]), i)
    ensures ErrorOf(r) == UseFaults(pool, Operands(f.insts[id]), i)
    decreases |Operands(f.insts[id])| - i, 0
  {
    match LowerUse(pool, f, id, e)
    case Failure(err) => Failure(err)
    case Success(l) =>
      var rest := LowerOperands(pool, l.fn, id, i + 1);
      UseStep(pool, f, id, i, e, l, rest);
      Preceded(l.newInst, rest)
  }

  /** The PHI loop moves past a slot that holds no expression. */
  lemma LowerIncomingNext(pool: Pool, f: Function, id: InstId, i: nat)
    requires WellFormedPool(pool) && WellFormed(pool, f) && id in f.insts && f.insts[id].PhiNode?
    requires i < |f.insts[id].incoming| && SlotsOk(pool, f, f.insts[id].incoming, 0)
    requires TerminatorOf(f, f.insts[id].incoming[i].block).Some?
    requires HasCstExpr(pool, f.insts[id].incoming[i].value).None?
    ensures LowerIncoming(pool, f, id, i) == LowerIncoming(pool, f, id, i + 1)
  {
  }

  /** The PHI loop lowers a slot that holds an expression. */
  lemma LowerIncomingHere(pool: Pool, f: Function, id: InstId, i: nat)
    requires WellFormedPool(pool) && WellFormed(pool, f) && id in f.insts && f.insts[id].PhiNode?
    requires i < |f.insts[id].incoming| && SlotsOk(pool, f, f.insts[id].incoming, 0)
    requires TerminatorOf(f, f.insts[id].incoming[i].block).Some?
    requires HasCstExpr(pool, f.insts[id].incoming[i].value).Some?
    ensures LowerIncoming(pool, f, id, i) == LowerIncomingAt(pool, f, id, i,
      HasCstExpr(pool, f.insts[id].incoming[i].value).value, TerminatorOf(f, f.insts[id].incoming[i].block).value)
  {
  }

  /** The operand loop moves past an operand that holds no expression. */
  lemma LowerOperandsNext(pool: Pool, f: Function, id: InstId, i: nat)
    requires WellFormedPool(pool) && WellFormed(pool, f) && id in f.insts && !f.insts[id].PhiNode?
    requires i < |Operands(f.insts[id])| && AllInPool(pool, Operands(f.insts[id]))
    requires HasCstExpr(pool, Operands(f.insts[id])[i]).None?
    ensures LowerOperands(pool, f, id, i) == LowerOperands(pool, f, id, i + 1)
  {
  }

  /** The operand loop lowers an operand that holds an expression. */
  lemma LowerOperandsHere(pool: Pool, f: Function, id: InstId, i: nat)
    requires WellFormedPool(pool) && WellFormed(pool, f) && id in f.insts && !f.insts[id].PhiNode?
    requires i < |Operands(f.insts[id])| && AllInPool(pool, Operands(f.insts[id]))
    requires HasCstExpr(pool, Operands(f.insts[id])[i]).Some?
    ensures LowerOperands(pool, f, id, i) == LowerOperandsAt(pool, f, id, i, HasCstExpr(pool, Operands(f.insts[id])[i]).value)
  {
  }

  /** What a successful `LowerSlot` leaves for the rest of the PHI loop. */
  lemma LowerSlotLeaves(pool: Pool, f: Function, id: InstId, i: nat, e: ConstId, t: InstId, l: Lowering)
    requires WellFormedPool(pool) && WellFormed(pool, f) && id in f.insts && f.insts[id].PhiNode?
    requires i < |f.insts[id].incoming| && e in pool && pool[e].Expr?
    requires f.insts[id].incoming[i].block < |f.blocks|
    requires TerminatorOf(f, f.insts[id].incoming[i].block) == Some(t)
    requires LowerSlot(pool, f, id, i, e, t) == Success(l)
    ensures WellFormed(pool, l.fn) && id in l.fn.insts && l.fn.insts[id].PhiNode?
    ensures |l.fn.insts[id].incoming| == |f.insts[id].incoming|
  {
  }

  /** What a successful `LowerUse` leaves for the rest of the operand loop. */
  lemma LowerUseLeaves(pool: Pool, f: Function, id: InstId, e: ConstId, l: Lowering)
    requires WellFormedPool(pool) && WellFormed(pool, f) && id in f.insts && !f.insts[id].PhiNode?
    requires e in pool && pool[e].Expr?
    requires LowerUse(pool, f, id, e) == Success(l)
    ensures WellFormed(pool, l.fn) && id in l.fn.insts && !l.fn.insts[id].PhiNode?
    ensures |Operands(l.fn.insts[id])| == |Operands(f.insts[id])|
  {
  }

  /** The facts the lowering functions promise, for a step from `f` on instruction `id`. */
  ghost predicate StepOk(pool: Pool, f: Function, id: InstId, s: Step)
    requires ClosedPool(pool)
  {
    && WellFormed(pool, s.fn) && Evolves(f, s.fn)
    && (forall x :: x in f.insts && x != id ==> s.fn.insts[x] == f.insts[x])
    && (forall x :: x in s.created <==> x in s.fn.insts && x !in f.insts)
  }

  /** The facts one materialization followed by one rewrite of `id` keeps. */
  ghost predicate OneStep(pool: Pool, f: Function, id: InstId, l: Lowering)
    requires ClosedPool(pool)
  {
    && WellFormed(pool, l.fn) && Evolves(f, l.fn)
    && l.newInst == f.next && l.newInst !in f.insts && l.fn.next == f.next + 1
    && l.fn.insts.Keys == f.insts.Keys + {l.newInst}
    && (forall x :: x in f.insts && x != id ==> l.fn.insts[x] == f.insts[x])
  }

  /**
    Lines 186-196 for slot `i`, whose incoming value holds expression `e`:
    the expression is materialized before terminator `t` and slot `i` (with
    every later slot equal to it at that moment) takes the new instruction.
  */
  function LowerSlot(pool: Pool, f: Function, id: InstId, i: nat, e: ConstId, t: InstId): (r: Result<Lowering, Fatal>)
    requires WellFormedPool(pool) && WellFormed(pool, f) && id in f.insts && f.insts[id].PhiNode?
    requires i < |f.insts[id].incoming| && e in pool && pool[e].Expr?
    requires f.insts[id].incoming[i].block < |f.blocks|
    requires TerminatorOf(f, f.insts[id].incoming[i].block) == Some(t)
    ensures r.Failure? <==> !IsLowerable(pool[e].op)
    ensures r.Failure? ==> r.error == UnsupportedExpr(pool[e].op)
    ensures r.Success? ==> OneStep(pool, f, id, r.value)
    ensures r.Success? ==> r.value.fn.insts[r.value.newInst] == Build(pool[e])
    ensures r.Success? ==>
      r.value.fn.insts[id] == PhiNode(RewriteSlots(f.insts[id].incoming, i, i, Inst(r.value.newInst)))
    ensures r.Success? ==>
      var inc := f.insts[id].incoming;
      r.value.fn.insts[id] == PhiNode(inc[i := Incoming(Inst(r.value.newInst), inc[i].block)])
  {
    var m := LowerCstExpr(pool, f, e, t);
    if m.Failure? then Failure(m.error)
    else
      LowerSlotOk(pool, f, id, i, e, t);
      Success(Lowering(SetIncoming(pool, m.value.fn, id, i, m.value.newInst), m.value.newInst))
  }

  /**
    Lines 206-210 for an operand holding expression `e`: the expression is
    materialized before `id` and every use of it in `id` is replaced.
  */
  function LowerUse(pool: Pool, f: Function, id: InstId, e: ConstId): (r: Result<Lowering, Fatal>)
    requires WellFormedPool(pool) && WellFormed(pool, f) && id in f.insts
    requires e in pool && pool[e].Expr?
    ensures r.Failure? <==> !IsLowerable(pool[e].op)
    ensures r.Failure? ==> r.error == UnsupportedExpr(pool[e].op)
    ensures r.Success? ==> OneStep(pool, f, id, r.value)
    ensures r.Success? ==> r.value.fn.insts[r.value.newInst] == Build(pool[e])
    ensures r.Success? ==> r.value.fn.insts[id] == ReplaceUses(f.insts[id], Const(e), Inst(r.value.newInst))
  {
    var m := LowerCstExpr(pool, f, e, id);
    if m.Failure? then Failure(m.error)
    else
      LowerUseOk(pool, f, id, e);
      Success(Lowering(ReplaceOperand(pool, m.value.fn, id, e, m.value.newInst), m.value.newInst))
  }

  /**
    Where `LowerSlot` puts the new instruction: it takes the place of the
    terminator of the slot's incoming block, which moves one place on, so it
    sits last before the terminator.
  */
  lemma LowerSlotPlaced(pool: Pool, f: Function, id: InstId, i: nat, e: ConstId, t: InstId)
    requires WellFormedPool(pool) && WellFormed(pool, f) && id in f.insts && f.insts[id].PhiNode?
    requires i < |f.insts[id].incoming| && e in pool && pool[e].Expr?
    requires f.insts[id].incoming[i].block < |f.blocks|
    requires TerminatorOf(f, f.insts[id].incoming[i].block) == Some(t)
    ensures var r := LowerSlot(pool, f, id, i, e, t);
      var b := f.insts[id].incoming[i].block;
      r.Success? ==>
        && Locate(r.value.fn, r.value.newInst) == Some(Pos(b, |f.blocks[b]| - 1))
        && Locate(r.value.fn, t) == Some(Pos(b, |f.blocks[b]|))
        && EndsBefore(r.value.fn, r.value.newInst, b)
  {
    if IsLowerable(pool[e].op) {
      var m := LowerCstExpr(pool, f, e, t).value;
      LowerCstExprPlacement(pool, f, e, t);
      LowerSlotOk(pool, f, id, i, e, t);
      var h := SetIncoming(pool, m.fn, id, i, m.newInst);
      assert LowerSlot(pool, f, id, i, e, t) == Success(Lowering(h, m.newInst));
      EvolvesTransitive(f, m.fn, h);
      BeforeTerminator(f, m.fn, h, f.insts[id].incoming[i].block, t, m.newInst);
    }
  }

  /**
    An instruction `n` inserted in `g` at the place of terminator `t` of
    block `b` of `f` sits last before it, in `g` and in a function `h` with
    the same blocks.
  */
  lemma BeforeTerminator(f: Function, g: Function, h: Function, b: BlockId, t: InstId, n: InstId)
    requires Structured(f) && b < |f.blocks| && TerminatorOf(f, b) == Some(t)
    requires Structured(g) && Locate(f, t).Some?
    requires Locate(g, n) == Some(Locate(f, t).value)
    requires Locate(g, t) == Some(Pos(Locate(f, t).value.block, Locate(f, t).value.index + 1))
    requires Evolves(f, h) && h.blocks == g.blocks
    ensures |f.blocks[b]| > 0
    ensures Locate(h, n) == Some(Pos(b, |f.blocks[b]| - 1)) && Locate(h, t) == Some(Pos(b, |f.blocks[b]|))
    ensures EndsBefore(h, n, b)
  {
    LocateSameBlocks(g, h, n);
    LocateSameBlocks(g, h, t);
    assert SameTerminator(f, h, b);
  }

  /**
    Where `LowerUse` puts the new instruction: it takes the place of the
    user, which moves one place on, so it sits just before the user.
  */
  lemma LowerUsePlaced(pool: Pool, f: Function, id: InstId, e: ConstId)
    requires WellFormedPool(pool) && WellFormed(pool, f) && id in f.insts
    requires e in pool && pool[e].Expr?
    ensures Locate(f, id).Some?
    ensures var r := LowerUse(pool, f, id, e);
      var p := Locate(f, id).value;
      r.Success? ==>
        && Locate(r.value.fn, r.value.newInst) == Some(p)
        && Locate(r.value.fn, id) == Some(Pos(p.block, p.index + 1))
        && Before(r.value.fn, r.value.newInst, id)
  {
    LowerCstExprPlacement(pool, f, e, id);
    if IsLowerable(pool[e].op) {
      var m := LowerCstExpr(pool, f, e, id).value;
      LowerUseOk(pool, f, id, e);
      var h := ReplaceOperand(pool, m.fn, id, e, m.newInst);
      assert LowerUse(pool, f, id, e) == Success(Lowering(h, m.newInst));
      LocateSameBlocks(m.fn, h, m.newInst);
      LocateSameBlocks(m.fn, h, id);
    }
  }

  lemma LowerSlotOk(pool: Pool, f: Function, id: InstId, i: nat, e: ConstId, t: InstId)
    requires WellFormedPool(pool) && WellFormed(pool, f) && id in f.insts && f.insts[id].PhiNode?
    requires i < |f.insts[id].incoming| && e in pool && pool[e].Expr? && t in f.insts
    requires IsLowerable(pool[e].op)
    ensures var m := LowerCstExpr(pool, f, e, t).value;
      && WellFormed(pool, m.fn) && m.newInst in m.fn.insts && id in m.fn.insts
      && m.fn.insts[id] == f.insts[id] && m.fn.insts[m.newInst] == Build(pool[e])
    ensures var m := LowerCstExpr(pool, f, e, t).value;
      OneStep(pool, f, id, Lowering(SetIncoming(pool, m.fn, id, i, m.newInst), m.newInst))
    ensures var m := LowerCstExpr(pool, f, e, t).value;
      var inc := f.insts[id].incoming;
      RewriteSlots(inc, i, i, Inst(m.newInst)) == inc[i := Incoming(Inst(m.newInst), inc[i].block)]
  {
    var m := LowerCstExpr(pool, f, e, t).value;
    var h := SetIncoming(pool, m.fn, id, i, m.newInst);
    OneStepIntro(pool, f, m.fn, h, id, m.newInst);
    RewriteSlotsOnlyI(f.insts[id].incoming, i, Inst(m.newInst));
  }

  lemma LowerUseOk(pool: Pool, f: Function, id: InstId, e: ConstId)
    requires WellFormedPool(pool) && WellFormed(pool, f) && id in f.insts
    requires e in pool && pool[e].Expr? && IsLowerable(pool[e].op)
    ensures var m := LowerCstExpr(pool, f, e, id).value;
      && WellFormed(pool, m.fn) && m.newInst in m.fn.insts && id in m.fn.insts
      && m.fn.insts[id] == f.insts[id] && m.fn.insts[m.newInst] == Build(pool[e])
    ensures var m := LowerCstExpr(pool, f, e, id).value;
      OneStep(pool, f, id, Lowering(ReplaceOperand(pool, m.fn, id, e, m.newInst), m.newInst))
  {
    var m := LowerCstExpr(pool, f, e, id).value;
    var h := ReplaceOperand(pool, m.fn, id, e, m.newInst);
    OneStepIntro(pool, f, m.fn, h, id, m.newInst);
  }

  lemma OneStepIntro(pool: Pool, f: Function, g: Function, h: Function, id: InstId, n: InstId)
    requires ClosedPool(pool) && WellFormed(pool, h) && Evolves(f, g) && Evolves(g, h)
    requires n == f.next && n !in f.insts && n in g.insts && g.insts == f.insts[n := g.insts[n]]
    requires g.next == f.next + 1 && h.next == g.next
    requires h.insts.Keys == g.insts.Keys
    requires forall x :: x in g.insts && x != id ==> h.insts[x] == g.insts[x]
    ensures OneStep(pool, f, id, Lowering(h, n))
  {
    EvolvesTransitive(f, g, h);
  }

  lemma ComposeStep(pool: Pool, f: Function, id: InstId, l: Lowering, s: Step)
    requires ClosedPool(pool) && OneStep(pool, f, id, l) && StepOk(pool, l.fn, id, s)
    ensures StepOk(pool, f, id, Step(s.fn, s.created + {l.newInst}))
  {
    EvolvesTransitive(f, l.fn, s.fn);
  }

  /** The new instruction of one step outlives the rest of the step untouched and uncounted. */
  lemma StepFacts(pool: Pool, f: Function, id: InstId, l: Lowering, s: Step)
    requires ClosedPool(pool) && OneStep(pool, f, id, l) && StepOk(pool, l.fn, id, s) && id in f.insts
    ensures l.newInst != id && l.newInst in s.fn.insts && l.newInst !in s.created
    ensures s.created <= s.fn.insts.Keys
    ensures s.fn.insts[l.newInst] == l.fn.insts[l.newInst]
  {
  }

  /** The outcome `rest` of the later slots or operands, with instruction `n` created before it. */
  function Preceded(n: InstId, rest: Result<Step, Fatal>): (r: Result<Step, Fatal>)
    ensures ErrorOf(r) == ErrorOf(rest)
  {
    match rest
    case Failure(err) => Failure(err)
    case Success(s) => Success(Step(s.fn, s.created + {n}))
  }

  /**
    Lowering slot `i` into `l` and then the later slots into `rest`
    composes into one outcome from slot `i` on.
  */
  lemma SlotStep(pool: Pool, f: Function, id: InstId, i: nat, e: ConstId, l: Lowering, rest: Result<Step, Fatal>)
    requires WellFormedPool(pool) && WellFormed(pool, f) && id in f.insts && f.insts[id].PhiNode?
    requires i < |f.insts[id].incoming| && SlotsOk(pool, f, f.insts[id].incoming, 0)
    requires HasCstExpr(pool, f.insts[id].incoming[i].value) == Some(e) && IsLowerable(pool[e].op)
    requires TerminatorOf(f, f.insts[id].incoming[i].block).Some?
    requires OneStep(pool, f, id, l) && l.fn.insts[l.newInst] == Build(pool[e])
    requires l.fn.insts[id] ==
      PhiNode(f.insts[id].incoming[i := Incoming(Inst(l.newInst), f.insts[id].incoming[i].block)])
    requires SlotsOk(pool, l.fn, l.fn.insts[id].incoming, 0)
    requires rest.Success? ==> StepOk(pool, l.fn, id, rest.value)
    requires rest.Success? ==>
      IncomingLowered(pool, l.fn.insts[id].incoming, rest.value, rest.value.fn.insts[id].incoming, i + 1, l.fn.next)
    requires ErrorOf(rest) == IncomingFaults(pool, l.fn, l.fn.insts[id].incoming, i + 1)
    ensures var r := Preceded(l.newInst, rest);
      && (r.Success? ==> StepOk(pool, f, id, r.value))
      && (r.Success? ==> IncomingLowered(pool, f.insts[id].incoming, r.value, r.value.fn.insts[id].incoming, i, f.next))
      && ErrorOf(r) == IncomingFaults(pool, f, f.insts[id].incoming, i)
  {
    var inc := f.insts[id].incoming;
    assert UseFault(pool, inc[i].value).None?;
    SlotFaultsStep(pool, f, l.fn, inc, l.fn.insts[id].incoming, i);
    if rest.Success? {
      SlotSuccessStep(pool, f, id, i, e, l, rest.value);
    }
  }

  /** Slot `i` is lowered without fault, so the faults from `i` on are those of the later slots. */
  lemma SlotFaultsStep(pool: Pool, f: Function, g: Function, a: seq<Incoming>, b: seq<Incoming>, i: nat)
    requires ClosedPool(pool) && Structured(f) && Structured(g) && |g.blocks| == |f.blocks|
    requires forall c :: 0 <= c < |f.blocks| ==> SameTerminator(f, g, c)
    requires i < |a| == |b| && SlotsOk(pool, f, a, i) && SlotsOk(pool, g, b, i + 1)
    requires forall k :: i < k < |a| ==> b[k] == a[k]
    requires TerminatorOf(f, a[i].block).Some? && UseFault(pool, a[i].value).None?
    ensures IncomingFaults(pool, g, b, i + 1) == IncomingFaults(pool, f, a, i)
  {
    IncomingFaultsSame(pool, f, g, a, b, i + 1);
  }

  /** Lowering slot `i` into `l` and then the later slots into `s` composes into one step. */
  lemma SlotSuccessStep(pool: Pool, f: Function, id: InstId, i: nat, e: ConstId, l: Lowering, s: Step)
    requires WellFormedPool(pool) && WellFormed(pool, f) && id in f.insts && f.insts[id].PhiNode?
    requires i < |f.insts[id].incoming| && InPool(pool, f.insts[id].incoming[i].value)
    requires HasCstExpr(pool, f.insts[id].incoming[i].value) == Some(e) && IsLowerable(pool[e].op)
    requires OneStep(pool, f, id, l) && StepOk(pool, l.fn, id, s)
    requires l.fn.insts[l.newInst] == Build(pool[e])
    requires l.fn.insts[id] ==
      PhiNode(f.insts[id].incoming[i := Incoming(Inst(l.newInst), f.insts[id].incoming[i].block)])
    requires IncomingLowered(pool, l.fn.insts[id].incoming, s, s.fn.insts[id].incoming, i + 1, l.fn.next)
    ensures StepOk(pool, f, id, Step(s.fn, s.created + {l.newInst}))
    ensures IncomingLowered(pool, f.insts[id].incoming, Step(s.fn, s.created + {l.newInst}),
      s.fn.insts[id].incoming, i, f.next)
  {
    var n := l.newInst;
    ComposeStep(pool, f, id, l, s);
    StepFacts(pool, f, id, l, s);
    assert Materialized(pool, Const(e), s.fn, s.created + {n}, Inst(n));
    IncomingTake(pool, f.insts[id].incoming, l.fn.insts[id].incoming, s, s.fn.insts[id].incoming, i, n);
  }

  /** Lowering operand `i` and then the rest of the instruction composes into one step from operand `i` on. */
  lemma UseStep(pool: Pool, f: Function, id: InstId, i: nat, e: ConstId, l: Lowering, rest: Result<Step, Fatal>)
    requires WellFormedPool(pool) && WellFormed(pool, f) && id in f.insts && !f.insts[id].PhiNode?
    requires i < |Operands(f.insts[id])| && AllInPool(pool, Operands(f.insts[id]))
    requires HasCstExpr(pool, Operands(f.insts[id])[i]) == Some(e) && IsLowerable(pool[e].op)
    requires OneStep(pool, f, id, l) && l.fn.insts[l.newInst] == Build(pool[e])
    requires l.fn.insts[id] == ReplaceUses(f.insts[id], Const(e), Inst(l.newInst))
    requires AllInPool(pool, Operands(l.fn.insts[id]))
    requires rest.Success? ==> StepOk(pool, l.fn, id, rest.value)
    requires rest.Success? ==>
      OperandsLowered(pool, Operands(l.fn.insts[id]), rest.value, Operands(rest.value.fn.insts[id]), i + 1)
    requires ErrorOf(rest) == UseFaults(pool, Operands(l.fn.insts[id]), i + 1)
    ensures var r := Preceded(l.newInst, rest);
      && (r.Success? ==> StepOk(pool, f, id, r.value))
      && (r.Success? ==> OperandsLowered(pool, Operands(f.insts[id]), r.value, Operands(r.value.fn.insts[id]), i))
      && ErrorOf(r) == UseFaults(pool, Operands(f.insts[id]), i)
  {
    var ops := Operands(f.insts[id]);
    UseFaultsSame(pool, ops, Operands(l.fn.insts[id]), e, l.newInst, i + 1);
    if rest.Success? {
      UseSuccessStep(pool, f, id, i, e, l, rest.value);
    }
  }

  /** Lowering operand `i` into `l` and then the later operands into `s` composes into one step. */
  lemma UseSuccessStep(pool: Pool, f: Function, id: InstId, i: nat, e: ConstId, l: Lowering, s: Step)
    requires WellFormedPool(pool) && WellFormed(pool, f) && id in f.insts && !f.insts[id].PhiNode?
    requires i < |Operands(f.insts[id])| && InPool(pool, Operands(f.insts[id])[i])
    requires HasCstExpr(pool, Operands(f.insts[id])[i]) == Some(e) && IsLowerable(pool[e].op)
    requires OneStep(pool, f, id, l) && StepOk(pool, l.fn, id, s)
    requires l.fn.insts[l.newInst] == Build(pool[e])
    requires l.fn.insts[id] == ReplaceUses(f.insts[id], Const(e), Inst(l.newInst))
    requires OperandsLowered(pool, Operands(l.fn.insts[id]), s, Operands(s.fn.insts[id]), i + 1)
    ensures StepOk(pool, f, id, Step(s.fn, s.created + {l.newInst}))
    ensures OperandsLowered(pool, Operands(f.insts[id]), Step(s.fn, s.created + {l.newInst}),
      Operands(s.fn.insts[id]), i)
  {
    ComposeStep(pool, f, id, l, s);
    StepFacts(pool, f, id, l, s);
    OperandsTake(pool, Operands(f.insts[id]), Operands(l.fn.insts[id]), s, Operands(s.fn.insts[id]), i, e, l.newInst);
  }

  /** Slot `i` holds no expression and is kept: what holds from `i + 1` on holds from `i` on. */
  lemma IncomingSkip(pool: Pool, a: seq<Incoming>, s: Step, b: seq<Incoming>, i: nat, first: InstId)
    requires WellFormedPool(pool) && i < |a| && InPool(pool, a[i].value) && HasCstExpr(pool, a[i].value).None?
    requires IncomingLowered(pool, a, s, b, i + 1, first)
    ensures IncomingLowered(pool, a, s, b, i, first)
  {
    forall k | i < k < |a| && Offending(pool, a[k].value)
      ensures b[k].value == Inst(first + CountOffending(pool, a, i, k))
    {
      assert CountOffending(pool, a, i, k) == CountOffending(pool, a, i + 1, k);
    }
  }

  /**
    Slot `i` holds an expression and was rewritten, alone, to the new
    instruction `n` computing it (list `a'`); the rest of the loop, which
    numbers from `n + 1`, then finishes the job for `a` from slot `i` on.
  */
  lemma IncomingTake(pool: Pool, a: seq<Incoming>, a': seq<Incoming>, s: Step, b: seq<Incoming>, i: nat, n: InstId)
    requires WellFormedPool(pool) && i < |a| && InPool(pool, a[i].value) && HasCstExpr(pool, a[i].value).Some?
    requires a' == a[i := Incoming(Inst(n), a[i].block)]
    requires Materialized(pool, Const(HasCstExpr(pool, a[i].value).value), s.fn, s.created + {n}, Inst(n))
    requires IncomingLowered(pool, a', s, b, i + 1, n + 1)
    ensures IncomingLowered(pool, a, Step(s.fn, s.created + {n}), b, i, n)
  {
    var c := s.created + {n};
    forall k | i < k < |a|
      ensures SlotLowered(pool, a[k].value, s.fn, c, b[k].value)
    {
      assert a'[k] == a[k];
    }
    forall k | i < k < |a| && Offending(pool, a[k].value)
      ensures b[k].value == Inst(n + CountOffending(pool, a, i, k))
    {
      assert a'[k] == a[k];
      CountOffendingSame(pool, a, a', i + 1, k);
    }
  }

  /** Operand `i` holds no expression and is kept: what holds from `i + 1` on holds from `i` on. */
  lemma OperandsSkip(pool: Pool, a: seq<Value>, s: Step, b: seq<Value>, i: nat)
    requires WellFormedPool(pool) && i < |a| && InPool(pool, a[i]) && HasCstExpr(pool, a[i]).None?
    requires OperandsLowered(pool, a, s, b, i + 1)
    ensures OperandsLowered(pool, a, s, b, i)
  {
  }

  /**
    Operand `i` holds expression `e`, and every operand equal to `e` was
    replaced by the new instruction `n` computing it (list `a'`); the rest of
    the loop then finishes the job for `a` from operand `i` on.
  */
  lemma OperandsTake(pool: Pool, a: seq<Value>, a': seq<Value>, s: Step, b: seq<Value>, i: nat, e: ConstId, n: InstId)
    requires WellFormedPool(pool) && i < |a| && InPool(pool, a[i]) && HasCstExpr(pool, a[i]) == Some(e)
    requires |a'| == |a| && forall k :: 0 <= k < |a| ==> a'[k] == if a[k] == Const(e) then Inst(n) else a[k]
    requires Materialized(pool, Const(e), s.fn, s.created + {n}, Inst(n))
    requires OperandsLowered(pool, a', s, b, i + 1)
    ensures OperandsLowered(pool, a, Step(s.fn, s.created + {n}), b, i)
  {
    var c := s.created + {n};
    forall k | 0 <= k < |a|
      ensures b[k] == a[k] || Materialized(pool, a[k], s.fn, c, b[k])
    {
      if a[k] == Const(e) {
        assert a'[k] == Inst(n);
      }
    }
    forall k | 0 <= k < |a| && ExprValue(pool, a[k])
      ensures b[k] == b[FirstIndex(a, a[k])]
    {
      var j := FirstIndex(a, a[k]);
      if a[k] == Const(e) {
        assert a'[k] == Inst(n) && a'[j] == Inst(n);
      } else {
        assert a'[k] == a[k];
        FirstIndexSame(a, a', a[k]);
      }
    }
  }

  /** Lists with the same values from `lo` up to `hi` have as many offending slots there. */
  lemma {:induction false} CountOffendingSame(pool: Pool, a: seq<Incoming>, b: seq<Incoming>, lo: nat, hi: nat)
    requires ClosedPool(pool) && hi <= |a| && hi <= |b|
    requires forall k :: lo <= k < hi ==> a[k].value == b[k].value
    ensures CountOffending(pool, a, lo, hi) == CountOffending(pool, b, lo, hi)
    decreases hi - lo
  {
    if lo < hi {
      CountOffendingSame(pool, a, b, lo + 1, hi);
    }
  }

  /** Slots that are the same from `i` on fail the same way, in a function that kept its terminators. */
  lemma {:induction false} IncomingFaultsSame(pool: Pool, f: Function, g: Function, a: seq<Incoming>, b: seq<Incoming>, i: nat)
    requires ClosedPool(pool) && Structured(f) && Structured(g) && |g.blocks| == |f.blocks|
    requires forall c :: 0 <= c < |f.blocks| ==> SameTerminator(f, g, c)
    requires i <= |a| == |b| && SlotsOk(pool, f, a, i)
    requires forall k :: i <= k < |a| ==> b[k] == a[k]
    ensures SlotsOk(pool, g, b, i)
    ensures IncomingFaults(pool, g, b, i) == IncomingFaults(pool, f, a, i)
    decreases |a| - i
  {
    if i < |a| {
      assert SameTerminator(f, g, a[i].block);
      IncomingFaultsSame(pool, f, g, a, b, i + 1);
    }
  }

  /**
    Replacing expression `e`, which can be lowered, by an instruction
    changes no operand's fault.
  */
  lemma {:induction false} UseFaultsSame(pool: Pool, a: seq<Value>, b: seq<Value>, e: ConstId, n: InstId, i: nat)
    requires ClosedPool(pool) && ExprValue(pool, Const(e)) && IsLowerable(pool[e].op)
    requires |b| == |a| && i <= |a| && forall k :: i <= k < |a| ==> InPool(pool, a[k])
    requires forall k :: i <= k < |a| ==> b[k] == if a[k] == Const(e) then Inst(n) else a[k]
    ensures UseFaults(pool, b, i) == UseFaults(pool, a, i)
    decreases |a| - i
  {
    if i < |a| {
      UseFaultsSame(pool, a, b, e, n, i + 1);
    }
  }

  /** What stops the lowering of instruction `id`, if anything: its first faulty slot or operand. */
  function InstFault(pool: Pool, f: Function, id: InstId): Option<Fatal>
    requires WellFormedPool(pool) && WellFormed(pool, f) && id in f.insts
  {
    if f.insts[id].PhiNode? then
      PhiSlotsOk(pool, f, id);
      IncomingFaults(pool, f, f.insts[id].incoming, 0)
    else
      InstOperandsOk(pool, f, id);
      UseFaults(pool, Operands(f.insts[id]), 0)
  }

  /**
    One iteration of the worklist loop, for instruction `id` (lines 179-212):
    it fails exactly at the first faulty slot or operand; otherwise every
    slot or operand is lowered as `IncomingLowered` or `OperandsLowered`
    describes, and no other instruction changes.
  */
  function Process(pool: Pool, f: Function, id: InstId): (r: Result<Step, Fatal>)
    requires WellFormedPool(pool) && WellFormed(pool, f) && id in f.insts
    ensures ErrorOf(r) == InstFault(pool, f, id)
    ensures r.Success? ==> StepOk(pool, f, id, r.value)
    ensures r.Success? && f.insts[id].PhiNode? ==>
      && r.value.fn.insts[id].PhiNode?
      && IncomingLowered(pool, f.insts[id].incoming, r.value, r.value.fn.insts[id].incoming, 0, f.next)
    ensures r.Success? && !f.insts[id].PhiNode? ==>
      OperandsLowered(pool, Operands(f.insts[id]), r.value, Operands(r.value.fn.insts[id]), 0)
  {
    if f.insts[id].PhiNode? then LowerIncoming(pool, f, id, 0) else LowerOperands(pool, f, id, 0)
  }
}
