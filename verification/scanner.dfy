/**
  The constant-expression scanner (`hasCstExpr`): finds the first constant
  expression reachable from a value, looking through constants that are not
  expressions (aggregates, globals with initializers), depth-first and left
  to right, with one visited set threaded through the whole walk so that it
  terminates on cyclic constant graphs.
*/
module Scanner {
  import opened Results
  import opened Ir

  /** What one scan reports: the expression found, if any, and the visited set afterwards. */
  datatype Scan = Scan(found: Option<ConstId>, visited: set<Value>)

  predicate InPool(pool: Pool, v: Value) {
    v.Const? ==> v.cid in pool
  }

  predicate ExprValue(pool: Pool, v: Value) {
    v.Const? && v.cid in pool && pool[v.cid].Expr?
  }

  /** The constants the scan may still enter: it only grows `visited`, so this only shrinks. */
  ghost function Unvisited(pool: Pool, visited: set<Value>): set<ConstId> {
    set c | c in pool && Const(c) !in visited
  }

  /** `hasCstExpr(V, visited)`. */
  function ScanValue(pool: Pool, v: Value, visited: set<Value>): (r: Scan)
    requires ClosedPool(pool) && InPool(pool, v)
    ensures visited <= r.visited
    ensures v in r.visited
    ensures v in visited ==> r == Scan(None, visited)
    ensures v !in visited && ExprValue(pool, v) ==> r.found == Some(v.cid)
    ensures !v.Const? ==> r.found == None
    ensures r.found.Some? ==> ExprValue(pool, Const(r.found.value))
    decreases Unvisited(pool, visited), 0
  {
    if v in visited then Scan(None, visited)
    else
      var visited' := visited + {v};
      if v.Const? then
        if pool[v.cid].Expr? then Scan(Some(v.cid), visited')
        else
          assert v.cid in Unvisited(pool, visited) - Unvisited(pool, visited');
          ScanOperands(pool, v.cid, 0, visited')
      else Scan(None, visited')
  }

  /** The loop over the operands of a constant that is not an expression (lines 33-41). */
  function ScanOperands(pool: Pool, c: ConstId, k: nat, visited: set<Value>): (r: Scan)
    requires ClosedPool(pool) && c in pool && !pool[c].Expr? && k <= |NodeOperands(pool[c])|
    ensures visited <= r.visited
    ensures r.found.Some? ==> ExprValue(pool, Const(r.found.value))
    decreases Unvisited(pool, visited), 1, |NodeOperands(pool[c])| - k
  {
    var ops := NodeOperands(pool[c]);
    if k == |ops| then Scan(None, visited)
    else
      var s := ScanValue(pool, ops[k], visited);
      if s.found.Some? then s
      else
        assert Unvisited(pool, s.visited) <= Unvisited(pool, visited);
        ScanOperands(pool, c, k + 1, s.visited)
  }

  /** `hasCstExpr(V)`: a scan from an empty visited set. */
  function HasCstExpr(pool: Pool, v: Value): (r: Option<ConstId>)
    requires ClosedPool(pool) && InPool(pool, v)
    ensures r.Some? ==> ExprValue(pool, Const(r.value))
    ensures ExprValue(pool, v) ==> r == Some(v.cid)
    ensures !v.Const? ==> r == None
  {
    ScanValue(pool, v, {}).found
  }

  /** The scanner looks from a non-expression constant into its operands. */
  ghost predicate Edge(pool: Pool, a: Value, b: Value) {
    a.Const? && a.cid in pool && !pool[a.cid].Expr? && b in NodeOperands(pool[a.cid])
  }

  ghost predicate IsPath(pool: Pool, p: seq<Value>) {
    |p| > 0 && forall k :: 0 <= k < |p| - 1 ==> Edge(pool, p[k], p[k + 1])
  }

  /** Expression `e` is reachable from `v` through non-expression constants. */
  ghost predicate Reaches(pool: Pool, v: Value, e: ConstId) {
    exists p :: IsPath(pool, p) && p[0] == v && p[|p| - 1] == Const(e)
  }

  /** Some expression is reachable from `v` through non-expression constants. */
  ghost predicate ContainsExpr(pool: Pool, v: Value) {
    exists p :: IsPath(pool, p) && p[0] == v && ExprValue(pool, p[|p| - 1])
  }

  lemma PrependEdge(pool: Pool, v: Value, p: seq<Value>)
    requires IsPath(pool, p) && Edge(pool, v, p[0])
    ensures IsPath(pool, [v] + p)
  {
    var q := [v] + p;
    forall k | 0 <= k < |q| - 1
      ensures Edge(pool, q[k], q[k + 1])
    {
      if k > 0 {
        assert q[k] == p[k - 1] && q[k + 1] == p[k];
      }
    }
  }

  /** Whatever the scan finds is reachable from the scanned value. */
  lemma {:induction false} ScanValueSound(pool: Pool, v: Value, visited: set<Value>)
    requires ClosedPool(pool) && InPool(pool, v)
    ensures ScanValue(pool, v, visited).found.Some? ==>
      Reaches(pool, v, ScanValue(pool, v, visited).found.value)
    decreases Unvisited(pool, visited), 0
  {
    var r := ScanValue(pool, v, visited);
    if v !in visited && v.Const? && r.found.Some? {
      var e := r.found.value;
      if pool[v.cid].Expr? {
        assert IsPath(pool, [v]);
      } else {
        var visited' := visited + {v};
        assert v.cid in Unvisited(pool, visited) - Unvisited(pool, visited');
        ScanOperandsSound(pool, v.cid, 0, visited');
        var ops := NodeOperands(pool[v.cid]);
        var j :| 0 <= j < |ops| && Reaches(pool, ops[j], e);
        var p :| IsPath(pool, p) && p[0] == ops[j] && p[|p| - 1] == Const(e);
        PrependEdge(pool, v, p);
        assert ([v] + p)[|[v] + p| - 1] == Const(e);
      }
    }
  }

  lemma {:induction false} ScanOperandsSound(pool: Pool, c: ConstId, k: nat, visited: set<Value>)
    requires ClosedPool(pool) && c in pool && !pool[c].Expr? && k <= |NodeOperands(pool[c])|
    ensures var r := ScanOperands(pool, c, k, visited);
      r.found.Some? ==> exists j :: k <= j < |NodeOperands(pool[c])| && Reaches(pool, NodeOperands(pool[c])[j], r.found.value)
    decreases Unvisited(pool, visited), 1, |NodeOperands(pool[c])| - k
  {
    var ops := NodeOperands(pool[c]);
    if k < |ops| {
      var s := ScanValue(pool, ops[k], visited);
      ScanValueSound(pool, ops[k], visited);
      if s.found.None? {
        assert Unvisited(pool, s.visited) <= Unvisited(pool, visited);
        ScanOperandsSound(pool, c, k + 1, s.visited);
      }
    }
  }

  /** A visited value the scan has finished with: not an expression, all its operands visited. */
  ghost predicate Explored(pool: Pool, w: Value, s: set<Value>) {
    && !ExprValue(pool, w)
    && (w.Const? && w.cid in pool ==> forall u :: u in NodeOperands(pool[w.cid]) ==> u in s)
  }

  /** A scan that finds nothing has explored everything it added to the visited set. */
  lemma {:induction false} ScanValueComplete(pool: Pool, v: Value, visited: set<Value>)
    requires ClosedPool(pool) && InPool(pool, v)
    ensures var r := ScanValue(pool, v, visited);
      r.found.None? ==> forall w :: w in r.visited - visited ==> Explored(pool, w, r.visited)
    decreases Unvisited(pool, visited), 0
  {
    var r := ScanValue(pool, v, visited);
    if v !in visited && v.Const? && !pool[v.cid].Expr? {
      var visited' := visited + {v};
      assert v.cid in Unvisited(pool, visited) - Unvisited(pool, visited');
      ScanOperandsComplete(pool, v.cid, 0, visited');
      if r.found.None? {
        var ops := NodeOperands(pool[v.cid]);
        forall u | u in ops
          ensures u in r.visited
        {
          var j :| 0 <= j < |ops| && ops[j] == u;
        }
      }
    }
  }

  lemma {:induction false} ScanOperandsComplete(pool: Pool, c: ConstId, k: nat, visited: set<Value>)
    requires ClosedPool(pool) && c in pool && !pool[c].Expr? && k <= |NodeOperands(pool[c])|
    ensures var r := ScanOperands(pool, c, k, visited);
      r.found.None? ==>
        && (forall j :: k <= j < |NodeOperands(pool[c])| ==> NodeOperands(pool[c])[j] in r.visited)
        && (forall w :: w in r.visited - visited ==> Explored(pool, w, r.visited))
    decreases Unvisited(pool, visited), 1, |NodeOperands(pool[c])| - k
  {
    var ops := NodeOperands(pool[c]);
    if k < |ops| {
      var s := ScanValue(pool, ops[k], visited);
      ScanValueComplete(pool, ops[k], visited);
      if s.found.None? {
        assert Unvisited(pool, s.visited) <= Unvisited(pool, visited);
        ScanOperandsComplete(pool, c, k + 1, s.visited);
        var r := ScanOperands(pool, c, k + 1, s.visited);
        forall w | w in s.visited - visited
          ensures Explored(pool, w, r.visited)
        {
          assert Explored(pool, w, s.visited);
        }
      }
    }
  }

  /** A path that starts inside a set of explored values never leaves it. */
  lemma {:induction false} PathStaysExplored(pool: Pool, p: seq<Value>, s: set<Value>)
    requires IsPath(pool, p) && p[0] in s
    requires forall w :: w in s ==> Explored(pool, w, s)
    ensures forall k :: 0 <= k < |p| ==> p[k] in s
    decreases |p|
  {
    if |p| > 1 {
      assert Edge(pool, p[0], p[1]);
      assert Explored(pool, p[0], s);
      var q := p[1..];
      assert IsPath(pool, q) by {
        forall k | 0 <= k < |q| - 1
          ensures Edge(pool, q[k], q[k + 1])
        {
          assert Edge(pool, p[k + 1], p[k + 2]);
        }
      }
      PathStaysExplored(pool, q, s);
      forall k | 0 <= k < |p|
        ensures p[k] in s
      {
        if k > 0 {
          assert p[k] == q[k - 1];
        }
      }
    }
  }

  /**
    The public scan finds an expression exactly when one is reachable from
    the value through non-expression constants, and what it finds is one of
    them.
  */
  lemma HasCstExprIffContainsExpr(pool: Pool, v: Value)
    requires ClosedPool(pool) && InPool(pool, v)
    ensures HasCstExpr(pool, v).Some? <==> ContainsExpr(pool, v)
    ensures HasCstExpr(pool, v).Some? ==> Reaches(pool, v, HasCstExpr(pool, v).value)
  {
    var none: set<Value> := {};
    var r := ScanValue(pool, v, none);
    ScanValueSound(pool, v, none);
    if r.found.Some? {
      var p :| IsPath(pool, p) && p[0] == v && p[|p| - 1] == Const(r.found.value);
      assert ExprValue(pool, p[|p| - 1]);
    } else {
      ScanValueComplete(pool, v, none);
      assert forall w :: w in r.visited - none ==> Explored(pool, w, r.visited);
      forall w | w in r.visited
        ensures Explored(pool, w, r.visited)
      {
        assert w in r.visited - none;
      }
      forall p | IsPath(pool, p) && p[0] == v
        ensures !ExprValue(pool, p[|p| - 1])
      {
        PathStaysExplored(pool, p, r.visited);
        assert Explored(pool, p[|p| - 1], r.visited);
      }
    }
  }

  /** Constant `b` is an operand of constant `a`, whether or not `a` is an expression. */
  ghost predicate AnyEdge(pool: Pool, a: Value, b: Value) {
    a.Const? && a.cid in pool && b in NodeOperands(pool[a.cid])
  }

  ghost predicate IsAnyPath(pool: Pool, p: seq<Value>) {
    |p| > 0 && forall k :: 0 <= k < |p| - 1 ==> AnyEdge(pool, p[k], p[k + 1])
  }

  /** Constant `c` is `v` itself or sits, at any depth, among the operands of constant `v`. */
  ghost predicate Occurs(pool: Pool, v: Value, c: ConstId) {
    exists p :: IsAnyPath(pool, p) && p[0] == v && p[|p| - 1] == Const(c)
  }

  lemma OccursSelf(pool: Pool, c: ConstId)
    ensures Occurs(pool, Const(c), c)
  {
    assert IsAnyPath(pool, [Const(c)]);
  }

  /** Only a constant has constants inside it. */
  lemma OccursConst(pool: Pool, v: Value, c: ConstId)
    requires Occurs(pool, v, c)
    ensures v.Const?
  {
    var p :| IsAnyPath(pool, p) && p[0] == v && p[|p| - 1] == Const(c);
    if |p| > 1 {
      assert AnyEdge(pool, p[0], p[1]);
    }
  }

  /** What sits inside a constant inside `v` sits inside `v`. */
  lemma OccursTrans(pool: Pool, v: Value, c: ConstId, d: ConstId)
    requires Occurs(pool, v, c) && Occurs(pool, Const(c), d)
    ensures Occurs(pool, v, d)
  {
    var p :| IsAnyPath(pool, p) && p[0] == v && p[|p| - 1] == Const(c);
    var q :| IsAnyPath(pool, q) && q[0] == Const(c) && q[|q| - 1] == Const(d);
    var r := p + q[1..];
    forall k | 0 <= k < |r| - 1
      ensures AnyEdge(pool, r[k], r[k + 1])
    {
      if k < |p| - 1 {
        assert r[k] == p[k] && r[k + 1] == p[k + 1];
      } else {
        assert r[k] == q[k - |p| + 1] && r[k + 1] == q[k - |p| + 2];
      }
    }
    assert r[|r| - 1] == q[|q| - 1];
  }

  /** An operand of a constant inside `v` is inside `v`. */
  lemma OccursOperand(pool: Pool, v: Value, c: ConstId, k: nat)
    requires Occurs(pool, v, c) && c in pool && k < |NodeOperands(pool[c])| && NodeOperands(pool[c])[k].Const?
    ensures Occurs(pool, v, NodeOperands(pool[c])[k].cid)
  {
    var w := NodeOperands(pool[c])[k];
    assert IsAnyPath(pool, [Const(c), w]);
    OccursTrans(pool, v, c, w.cid);
  }

  /** What the scanner can reach from `v` sits inside `v`. */
  lemma ReachesOccurs(pool: Pool, v: Value, e: ConstId)
    requires Reaches(pool, v, e)
    ensures Occurs(pool, v, e)
  {
    var p :| IsPath(pool, p) && p[0] == v && p[|p| - 1] == Const(e);
    forall k | 0 <= k < |p| - 1
      ensures AnyEdge(pool, p[k], p[k + 1])
    {
      assert Edge(pool, p[k], p[k + 1]);
    }
    assert IsAnyPath(pool, p);
  }
}
