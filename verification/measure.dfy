/**
  The measure that makes the worklist loop terminate on a `Ranked` pool.

  `Size(v)` counts the expressions in the tree unfolding of a constant
  (none when no expression is reachable from it);
  `Pot(i)` bounds the work lowering instruction `i` and everything it
  creates can cause, and `SumPot` adds it up over a worklist. Lowering an
  instruction removes it from the worklist and adds instructions whose
  potentials sum to less than its own.
*/
module Measure {
  import opened Results
  import opened Ir
  import opened Scanner

  predicate RefersBelow(v: Value, c: ConstId) {
    v.Const? && v.cid < c
  }

  /**
    The constants that lead to an expression are ordered by identity: an
    operand from which an expression is reachable has a smaller identity
    than the constant using it. So no cycle of constants leads to an
    expression, while cycles that lead to none (a self-referential global
    whose initializer holds no expression) are allowed.
  */
  ghost predicate Ranked(pool: Pool) {
    && ClosedPool(pool)
    && forall c, k :: c in pool && 0 <= k < |NodeOperands(pool[c])| && ContainsExpr(pool, NodeOperands(pool[c])[k]) ==>
         RefersBelow(NodeOperands(pool[c])[k], c)
  }

  /** The rank of a value that leads to an expression; the others need none. */
  ghost function Rank(pool: Pool, v: Value): nat {
    if v.Const? && ContainsExpr(pool, v) then v.cid + 1 else 0
  }

  ghost function MaxRank(pool: Pool, ops: seq<Value>): (r: nat)
    ensures forall k :: 0 <= k < |ops| ==> Rank(pool, ops[k]) <= r
  {
    if ops == [] then 0
    else
      var m := MaxRank(pool, ops[1..]);
      assert forall k :: 1 <= k < |ops| ==> ops[k] == ops[1..][k - 1];
      if Rank(pool, ops[0]) > m then Rank(pool, ops[0]) else m
  }

  lemma {:induction false} MaxRankAtMost(pool: Pool, ops: seq<Value>, c: nat)
    requires forall k :: 0 <= k < |ops| ==> Rank(pool, ops[k]) <= c
    ensures MaxRank(pool, ops) <= c
  {
    if ops != [] {
      MaxRankAtMost(pool, ops[1..], c);
    }
  }

  lemma OperandsRankBelow(pool: Pool, c: ConstId)
    requires Ranked(pool) && c in pool
    ensures MaxRank(pool, NodeOperands(pool[c])) <= c
  {
    var ops := NodeOperands(pool[c]);
    forall k | 0 <= k < |ops|
      ensures Rank(pool, ops[k]) <= c
    {
      if ContainsExpr(pool, ops[k]) {
        assert RefersBelow(ops[k], c);
      }
    }
    MaxRankAtMost(pool, ops, c);
  }

  /** An expression leads to itself. */
  lemma ExprContains(pool: Pool, e: ConstId)
    requires e in pool && pool[e].Expr?
    ensures ContainsExpr(pool, Const(e))
  {
    var p := [Const(e)];
    assert IsPath(pool, p) && p[0] == Const(e) && ExprValue(pool, p[|p| - 1]);
  }

  /** A constant the scanner looks through leads to every expression its operand leads to. */
  lemma EdgeContains(pool: Pool, a: Value, b: Value)
    requires Edge(pool, a, b) && ContainsExpr(pool, b)
    ensures ContainsExpr(pool, a)
  {
    var p :| IsPath(pool, p) && p[0] == b && ExprValue(pool, p[|p| - 1]);
    PrependEdge(pool, a, p);
    var q := [a] + p;
    assert q[0] == a && q[|q| - 1] == p[|p| - 1];
  }

  /** Constants `s` refer only to constants of `s`. */
  ghost predicate ClosedUnder(pool: Pool, s: set<ConstId>) {
    forall c, j :: c in s && c in pool && 0 <= j < |NodeOperands(pool[c])| ==>
      NodeOperands(pool[c])[j].Const? && NodeOperands(pool[c])[j].cid in s
  }

  /** A path of the scanner that starts in a closed set stays in it. */
  lemma {:induction false} ClosedPath(pool: Pool, s: set<ConstId>, p: seq<Value>, k: nat)
    requires ClosedUnder(pool, s) && IsPath(pool, p) && p[0].Const? && p[0].cid in s && k < |p|
    ensures p[k].Const? && p[k].cid in s
  {
    if k > 0 {
      ClosedPath(pool, s, p, k - 1);
      assert Edge(pool, p[k - 1], p[k]);
    }
  }

  /** Likewise for a path through any constant, expressions included. */
  lemma {:induction false} ClosedAnyPath(pool: Pool, s: set<ConstId>, p: seq<Value>, k: nat)
    requires ClosedUnder(pool, s) && IsAnyPath(pool, p) && p[0].Const? && p[0].cid in s && k < |p|
    ensures p[k].Const? && p[k].cid in s
  {
    if k > 0 {
      ClosedAnyPath(pool, s, p, k - 1);
      assert AnyEdge(pool, p[k - 1], p[k]);
    }
  }

  /** From a closed set of constants that holds no expression, no expression is reachable, cycles or not. */
  lemma ClosedLeadsNowhere(pool: Pool, s: set<ConstId>, v: Value)
    requires ClosedUnder(pool, s) && forall c :: c in s && c in pool ==> !pool[c].Expr?
    requires v.Const? && v.cid in s
    ensures !ContainsExpr(pool, v)
  {
    forall p | IsPath(pool, p) && p[0] == v
      ensures !ExprValue(pool, p[|p| - 1])
    {
      ClosedPath(pool, s, p, |p| - 1);
    }
  }

  /**
    A global whose initializer refers to itself (an intrusive list head),
    next to an expression over a plain constant: the cycle leads to no
    expression, so the pool is `Ranked`.
  */
  lemma SelfReferenceRanked(op: Opcode)
    ensures Ranked(map[0 := Aggregate([Const(0)]), 1 := Leaf, 2 := Expr(op, [Const(1)], 0, 0)])
  {
    var pool := map[0 := Aggregate([Const(0)]), 1 := Leaf, 2 := Expr(op, [Const(1)], 0, 0)];
    ClosedLeadsNowhere(pool, {0}, Const(0));
    ClosedLeadsNowhere(pool, {1}, Const(1));
  }

  /** The number of expressions in the tree unfolding of `v`. */
  ghost function Size(pool: Pool, v: Value): nat
    requires Ranked(pool)
    decreases Rank(pool, v), 0
  {
    if v.Const? && v.cid in pool && ContainsExpr(pool, v) then
      OperandsRankBelow(pool, v.cid);
      (if pool[v.cid].Expr? then 1 else 0) + SumSizes(pool, NodeOperands(pool[v.cid]))
    else 0
  }

  ghost function SumSizes(pool: Pool, ops: seq<Value>): nat
    requires Ranked(pool)
    decreases MaxRank(pool, ops), 1, |ops|
  {
    if ops == [] then 0 else Size(pool, ops[0]) + SumSizes(pool, ops[1..])
  }

  /** One plus the sizes of the operands: bounds the instructions lowering `i` can cause. */
  ghost function Pot(pool: Pool, i: Inst): nat
    requires Ranked(pool)
  {
    1 + SumSizes(pool, Operands(i))
  }

  lemma SumSizesUnfold(pool: Pool, ops: seq<Value>, i: nat)
    requires Ranked(pool) && i < |ops|
    ensures SumSizes(pool, ops[i..]) == Size(pool, ops[i]) + SumSizes(pool, ops[i + 1..])
  {
    assert ops[i..][1..] == ops[i + 1..];
  }

  /** An operand weighs no more than the whole operand list. */
  lemma {:induction false} SumSizesMember(pool: Pool, ops: seq<Value>, k: nat)
    requires Ranked(pool) && k < |ops|
    ensures Size(pool, ops[k]) <= SumSizes(pool, ops)
  {
    if k > 0 {
      SumSizesMember(pool, ops[1..], k - 1);
    }
  }

  /** Replacing operands by lighter ones makes the list lighter. */
  lemma {:induction false} SumSizesPointwise(pool: Pool, a: seq<Value>, b: seq<Value>)
    requires Ranked(pool) && |a| == |b|
    requires forall k :: 0 <= k < |a| ==> Size(pool, a[k]) <= Size(pool, b[k])
    ensures SumSizes(pool, a) <= SumSizes(pool, b)
  {
    if a != [] {
      SumSizesPointwise(pool, a[1..], b[1..]);
    }
  }

  /** Along an edge of the scanner, sizes do not grow. */
  lemma EdgeSize(pool: Pool, a: Value, b: Value)
    requires Ranked(pool) && Edge(pool, a, b)
    ensures Size(pool, b) <= Size(pool, a)
  {
    if ContainsExpr(pool, b) {
      EdgeContains(pool, a, b);
      var ops := NodeOperands(pool[a.cid]);
      var k :| 0 <= k < |ops| && ops[k] == b;
      SumSizesMember(pool, ops, k);
    }
  }

  lemma {:induction false} PathSize(pool: Pool, p: seq<Value>)
    requires Ranked(pool) && IsPath(pool, p)
    ensures Size(pool, p[|p| - 1]) <= Size(pool, p[0])
    decreases |p|
  {
    if |p| > 1 {
      var q := p[..|p| - 1];
      assert IsPath(pool, q) by {
        forall k | 0 <= k < |q| - 1
          ensures Edge(pool, q[k], q[k + 1])
        {
          assert Edge(pool, p[k], p[k + 1]);
        }
      }
      PathSize(pool, q);
      EdgeSize(pool, p[|p| - 2], p[|p| - 1]);
    }
  }

  /** The expression the scanner finds weighs no more than the scanned value. */
  lemma FoundSize(pool: Pool, v: Value)
    requires Ranked(pool) && InPool(pool, v) && HasCstExpr(pool, v).Some?
    ensures Size(pool, Const(HasCstExpr(pool, v).value)) <= Size(pool, v)
  {
    HasCstExprIffContainsExpr(pool, v);
    var e := HasCstExpr(pool, v).value;
    var p :| IsPath(pool, p) && p[0] == v && p[|p| - 1] == Const(e);
    PathSize(pool, p);
  }

  ghost function Pick(w: set<InstId>): InstId
    requires w != {}
  {
    var x :| x in w; x
  }

  /** The potential of a whole worklist. */
  ghost function SumPot(pool: Pool, f: Function, w: set<InstId>): nat
    requires Ranked(pool) && w <= f.insts.Keys
    decreases w
  {
    if w == {} then 0
    else
      var x := Pick(w);
      Pot(pool, f.insts[x]) + SumPot(pool, f, w - {x})
  }

  /** Any element may be taken out first. */
  lemma {:induction false} SumPotRemove(pool: Pool, f: Function, w: set<InstId>, y: InstId)
    requires Ranked(pool) && w <= f.insts.Keys && y in w
    ensures SumPot(pool, f, w) == Pot(pool, f.insts[y]) + SumPot(pool, f, w - {y})
    decreases w
  {
    var x := Pick(w);
    if x != y {
      SumPotRemove(pool, f, w - {x}, y);
      SumPotRemove(pool, f, w - {y}, x);
      assert w - {x} - {y} == w - {y} - {x};
    }
  }

  lemma {:induction false} SumPotUnion(pool: Pool, f: Function, a: set<InstId>, b: set<InstId>)
    requires Ranked(pool) && a <= f.insts.Keys && b <= f.insts.Keys && a !! b
    ensures SumPot(pool, f, a + b) == SumPot(pool, f, a) + SumPot(pool, f, b)
    decreases b
  {
    if b != {} {
      var y := Pick(b);
      SumPotRemove(pool, f, a + b, y);
      assert (a + b) - {y} == a + (b - {y});
      SumPotUnion(pool, f, a, b - {y});
    } else {
      assert a + b == a;
    }
  }

  /** The potential only depends on the instructions in the worklist. */
  lemma {:induction false} SumPotSame(pool: Pool, f: Function, g: Function, w: set<InstId>)
    requires Ranked(pool) && w <= f.insts.Keys && w <= g.insts.Keys
    requires forall x :: x in w ==> f.insts[x] == g.insts[x]
    ensures SumPot(pool, f, w) == SumPot(pool, g, w)
    decreases w
  {
    if w != {} {
      SumPotSame(pool, f, g, w - {Pick(w)});
    }
  }

  lemma SumPotAdd(pool: Pool, f: Function, w: set<InstId>, n: InstId)
    requires Ranked(pool) && w <= f.insts.Keys && n in f.insts && n !in w
    ensures SumPot(pool, f, w + {n}) == Pot(pool, f.insts[n]) + SumPot(pool, f, w)
  {
    SumPotRemove(pool, f, w + {n}, n);
    assert (w + {n}) - {n} == w;
  }
}
