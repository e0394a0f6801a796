/** Constant elimination, elimination of common operands, and structural equality of expressions. */
module ExprEq {
  import opened Tristate
  import opened Expressions

  /** The constant that absorbs under `op`: n for &&, y for ||. */
  function ZeroSym(op: Op): Symbol { if op.OpAnd? then SymNo else SymYes }

  /** `expr_eliminate_yn`. */
  function ElimYN(e: Expr): (r: Expr)
    ensures Size(r) <= Size(e)
  {
    match e
    case Bin(op, l0, r0) =>
      var l, r := ElimYN(l0), ElimYN(r0);
      if l == Sym(ZeroSym(op)) then l
      else if l == Sym(UnitSym(op)) then r
      else if r == Sym(ZeroSym(op)) then r
      else if r == Sym(UnitSym(op)) then l
      else Bin(op, l, r)
    case _ => e
  }

  /** No y or n is an operand of && or ||, outside negations. */
  predicate YNFree(e: Expr) {
    e.Bin? ==> !IsYN(e.left) && !IsYN(e.right) && YNFree(e.left) && YNFree(e.right)
  }

  predicate IsYN(e: Expr) { e == Sym(SymYes) || e == Sym(SymNo) }

  /** Some && has the operand y, or some || the operand n, outside negations. */
  predicate HasUnit(e: Expr) {
    e.Bin? && (e.left == Sym(UnitSym(e.op)) || e.right == Sym(UnitSym(e.op)) || HasUnit(e.left) || HasUnit(e.right))
  }

  /** Eliminating constants leaves none behind, and shrinks every tree that has a unit operand. */
  lemma {:induction false} ElimYNReduces(e: Expr)
    ensures YNFree(ElimYN(e))
    ensures HasUnit(e) ==> Size(ElimYN(e)) < Size(e)
    ensures YNFree(e) ==> ElimYN(e) == e
  {
    if e.Bin? {
      ElimYNReduces(e.left);
      ElimYNReduces(e.right);
    }
  }

  /** Eliminating constants keeps the value. */
  lemma {:induction false} ElimYNValue(e: Expr, env: Env)
    ensures Calc(ElimYN(e), env) == Calc(e, env)
  {
    if e.Bin? {
      ElimYNValue(e.left, env);
      ElimYNValue(e.right, env);
      assert TriOf(env, UnitSym(e.op)) == Unit(e.op);
    }
  }

  // ----- expr_eliminate_eq and expr_eq

  /** Tells a call of `ElimEqWalk` that still has to descend from one at a pair of leaves. */
  function WalkRank(op: Op, e1: Expr, e2: Expr): nat {
    if (e1.Bin? && e1.op == op) || (e2.Bin? && e2.op == op) then 0 else 2
  }

  /** `__expr_eliminate_eq`: every pair of equal operands of the two `op` levels is replaced by units. */
  function ElimEqWalk(op: Op, e1: Expr, e2: Expr): (r: (Expr, Expr))
    ensures Size(r.0) <= Size(e1) && Size(r.1) <= Size(e2)
    ensures e1.Bin? && e1.op == op ==> r.0.Bin? && r.0.op == op
    ensures e2.Bin? && e2.op == op ==> r.1.Bin? && r.1.op == op
    decreases Size(e1) + Size(e2), WalkRank(op, e1, e2)
  {
    if e1.Bin? && e1.op == op then
      var (l, f) := ElimEqWalk(op, e1.left, e2);
      var (r, g) := ElimEqWalk(op, e1.right, f);
      (Bin(op, l, r), g)
    else if e2.Bin? && e2.op == op then
      var (f, l) := ElimEqWalk(op, e1, e2.left);
      var (g, r) := ElimEqWalk(op, f, e2.right);
      (g, Bin(op, l, r))
    else if e1 == e2 && IsYN(e1) then (e1, e2)
    else if !Eq(e1, e2) then (e1, e2)
    else (Sym(UnitSym(op)), Sym(UnitSym(op)))
  }

  /** The first walk of `expr_eliminate_eq`, at the root operator of the first expression. */
  function ElimEqFirst(e1: Expr, e2: Expr): (Expr, Expr) {
    if e1.Bin? then ElimEqWalk(e1.op, e1, e2) else (e1, e2)
  }

  /** The second walk, at the root operator of the second expression when it is a different one. */
  function ElimEqSecond(e1: Expr, e2: Expr): (Expr, Expr) {
    if e2.Bin? && !(e1.Bin? && e1.op == e2.op) then ElimEqWalk(e2.op, e1, e2) else (e1, e2)
  }

  /** `expr_eliminate_eq` on two non-null expressions. */
  function ElimEq(e1: Expr, e2: Expr): (Expr, Expr) {
    var (f1, f2) := ElimEqFirst(e1, e2);
    var (g1, g2) := ElimEqSecond(f1, f2);
    (ElimYN(g1), ElimYN(g2))
  }

  /** `expr_eq` on two non-null expressions. */
  function Eq(e1: Expr, e2: Expr): bool
    decreases Size(e1) + Size(e2), 1
  {
    match e1
    case Sym(s) => e2 == Sym(s)
    case Cmp(_, _, _) => e1 == e2
    case Neg(a) => e2.Neg? && Eq(a, e2.arg)
    case Bin(op, _, _) =>
      e2.Bin? && e2.op == op &&
      // same root operators, so only the first walk of expr_eliminate_eq runs
      var (f1, f2) := ElimEqWalk(op, e1, e2);
      var (g1, g2) := (ElimYN(f1), ElimYN(f2));
      g1.Sym? && g1 == g2
  }

  /** What a walk removed from two expressions of values v1 and v2, leaving w1 and w2: a common operand. */
  ghost predicate Removed(op: Op, c: Tri, v1: Tri, v2: Tri, w1: Tri, w2: Tri) {
    v1 == Apply(op, c, w1) && v2 == Apply(op, c, w2)
  }

  ghost predicate CommonOperand(op: Op, v1: Tri, v2: Tri, w1: Tri, w2: Tri) {
    exists c: Tri :: Removed(op, c, v1, v2, w1, w2)
  }

  /** Two removals in a row, the first from the left operand of one side. */
  lemma CommonOperandSplit(op: Op, l: Tri, r: Tri, v: Tri, l': Tri, u: Tri, r': Tri, w: Tri)
    requires CommonOperand(op, l, v, l', u) && CommonOperand(op, r, u, r', w)
    ensures CommonOperand(op, Apply(op, l, r), v, Apply(op, l', r'), w)
  {
    var c :| Removed(op, c, l, v, l', u);
    var d :| Removed(op, d, r, u, r', w);
    if op.OpAnd? {
      assert Removed(op, And(c, d), And(l, r), v, And(l', r'), w);
    } else {
      assert Removed(op, Or(c, d), Or(l, r), v, Or(l', r'), w);
    }
  }

  lemma CommonOperandSymmetric(op: Op, v1: Tri, v2: Tri, w1: Tri, w2: Tri)
    requires CommonOperand(op, v1, v2, w1, w2)
    ensures CommonOperand(op, v2, v1, w2, w1)
  {
    var c :| Removed(op, c, v1, v2, w1, w2);
    assert Removed(op, c, v2, v1, w2, w1);
  }

  lemma CommonOperandReflectsOrder(op: Op, v1: Tri, v2: Tri, w1: Tri, w2: Tri)
    requires CommonOperand(op, v1, v2, w1, w2)
    ensures (w1 <= w2 ==> v1 <= v2) && (w2 <= w1 ==> v2 <= v1)
  {
  }

  /** One walk removes the same value from both sides. */
  lemma {:induction false} ElimEqWalkCommon(op: Op, e1: Expr, e2: Expr, env: Env)
    ensures var (f1, f2) := ElimEqWalk(op, e1, e2);
            CommonOperand(op, Calc(e1, env), Calc(e2, env), Calc(f1, env), Calc(f2, env))
    decreases Size(e1) + Size(e2), WalkRank(op, e1, e2)
  {
    var (f1, f2) := ElimEqWalk(op, e1, e2);
    var v1, v2 := Calc(e1, env), Calc(e2, env);
    if e1.Bin? && e1.op == op {
      var (l, f) := ElimEqWalk(op, e1.left, e2);
      var (r, g) := ElimEqWalk(op, e1.right, f);
      ElimEqWalkCommon(op, e1.left, e2, env);
      ElimEqWalkCommon(op, e1.right, f, env);
      CommonOperandSplit(op, Calc(e1.left, env), Calc(e1.right, env), v2,
                         Calc(l, env), Calc(f, env), Calc(r, env), Calc(g, env));
    } else if e2.Bin? && e2.op == op {
      var (f, l) := ElimEqWalk(op, e1, e2.left);
      var (g, r) := ElimEqWalk(op, f, e2.right);
      ElimEqWalkCommon(op, e1, e2.left, env);
      ElimEqWalkCommon(op, f, e2.right, env);
      CommonOperandSymmetric(op, v1, Calc(e2.left, env), Calc(f, env), Calc(l, env));
      CommonOperandSymmetric(op, Calc(f, env), Calc(e2.right, env), Calc(g, env), Calc(r, env));
      CommonOperandSplit(op, Calc(e2.left, env), Calc(e2.right, env), v1,
                         Calc(l, env), Calc(f, env), Calc(r, env), Calc(g, env));
      CommonOperandSymmetric(op, v2, v1, Calc(f2, env), Calc(f1, env));
    } else if (e1 == e2 && IsYN(e1)) || !Eq(e1, e2) {
      assert Removed(op, Unit(op), v1, v2, v1, v2);
    } else {
      EqSound(e1, e2, env);
      assert Removed(op, v1, v1, v2, Unit(op), Unit(op));
    }
  }

  /** `expr_eq` is sound: expressions it calls equal have the same value in every environment. */
  lemma {:induction false} EqSound(e1: Expr, e2: Expr, env: Env)
    requires Eq(e1, e2)
    ensures Calc(e1, env) == Calc(e2, env)
    decreases Size(e1) + Size(e2), 1
  {
    match e1
    case Sym(_) =>
    case Cmp(_, _, _) =>
    case Neg(a) => EqSound(a, e2.arg, env);
    case Bin(op, _, _) =>
      var (f1, f2) := ElimEqWalk(op, e1, e2);
      ElimEqWalkCommon(op, e1, e2, env);
      ElimYNValue(f1, env);
      ElimYNValue(f2, env);
      CommonOperandReflectsOrder(op, Calc(e1, env), Calc(e2, env), Calc(f1, env), Calc(f2, env));
  }

  /** The values of two expressions are ordered the way those of two others are. */
  ghost predicate SameOrder(e1: Expr, e2: Expr, f1: Expr, f2: Expr, env: Env) {
    && (Calc(f1, env) <= Calc(f2, env) ==> Calc(e1, env) <= Calc(e2, env))
    && (Calc(f2, env) <= Calc(f1, env) ==> Calc(e2, env) <= Calc(e1, env))
  }

  lemma ElimEqWalkReflectsOrder(op: Op, e1: Expr, e2: Expr, env: Env)
    ensures var (f1, f2) := ElimEqWalk(op, e1, e2); SameOrder(e1, e2, f1, f2, env)
  {
    var (f1, f2) := ElimEqWalk(op, e1, e2);
    ElimEqWalkCommon(op, e1, e2, env);
    CommonOperandReflectsOrder(op, Calc(e1, env), Calc(e2, env), Calc(f1, env), Calc(f2, env));
  }

  /** Removing common operands reflects the order of values, and so their equality. */
  lemma ElimEqReflectsOrder(e1: Expr, e2: Expr, env: Env)
    ensures var (g1, g2) := ElimEq(e1, e2); SameOrder(e1, e2, g1, g2, env)
  {
    var (f1, f2) := ElimEqFirst(e1, e2);
    assert SameOrder(e1, e2, f1, f2, env) by {
      if e1.Bin? { ElimEqWalkReflectsOrder(e1.op, e1, e2, env); }
    }
    var (g1, g2) := ElimEqSecond(f1, f2);
    assert SameOrder(f1, f2, g1, g2, env) by {
      if f2.Bin? { ElimEqWalkReflectsOrder(f2.op, f1, f2, env); }
    }
    ElimYNValue(g1, env);
    ElimYNValue(g2, env);
  }

  /** The superset test of the automatic submenus: once the second argument has been reduced to y,
      the first expression was at most the second in every environment. */
  lemma ElimEqSuperset(e1: Expr, e2: Expr)
    requires IsYes(ElimEq(e1, e2).1)
    ensures forall env: Env :: Calc(e1, env) <= Calc(e2, env)
  {
    forall env: Env ensures Calc(e1, env) <= Calc(e2, env) {
      ElimEqReflectsOrder(e1, e2, env);
    }
  }

  // ----- completeness on identical expressions

  /** All operands of the `op` level at the root are y or n. */
  predicate YNLevel(op: Op, e: Expr) {
    if e.Bin? && e.op == op then YNLevel(op, e.left) && YNLevel(op, e.right) else IsYN(e)
  }

  lemma {:induction false} WalkOverConstants(op: Op, e1: Expr, e2: Expr)
    requires YNLevel(op, e1) || YNLevel(op, e2)
    ensures ElimEqWalk(op, e1, e2) == (e1, e2)
    decreases Size(e1) + Size(e2), WalkRank(op, e1, e2)
  {
    if e1.Bin? && e1.op == op {
      WalkOverConstants(op, e1.left, e2);
      WalkOverConstants(op, e1.right, e2);
    } else if e2.Bin? && e2.op == op {
      WalkOverConstants(op, e1, e2.left);
      WalkOverConstants(op, e1, e2.right);
    }
  }

  /** Meeting a level is meeting its left part, then its right part. */
  lemma {:induction false} WalkSplit(op: Op, e: Expr, l: Expr, r: Expr)
    ensures var (f, l') := ElimEqWalk(op, e, l);
            var (g, r') := ElimEqWalk(op, f, r);
            ElimEqWalk(op, e, Bin(op, l, r)) == (g, Bin(op, l', r'))
    decreases e
  {
    if e.Bin? && e.op == op {
      WalkSplit(op, e.left, l, r);
      var (_, l1) := ElimEqWalk(op, e.left, l);
      var (a1, _) := ElimEqWalk(op, e.left, l);
      var (_, r1) := ElimEqWalk(op, a1, r);
      WalkSplit(op, e.right, l1, r1);
    }
  }

  lemma {:induction false} WalkSelf(op: Op, e: Expr)
    ensures var (f, g) := ElimEqWalk(op, e, e); f == g && YNLevel(op, f)
    decreases Size(e), 2 + WalkRank(op, e, e)
  {
    if e.Bin? && e.op == op {
      var (l1, _) := ElimEqWalk(op, e.left, e.left);
      var (r1, _) := ElimEqWalk(op, e.right, e.right);
      WalkSelf(op, e.left);
      WalkSelf(op, e.right);
      WalkSplit(op, e.left, e.left, e.right);
      WalkOverConstants(op, l1, e.right);
      WalkSplit(op, e.right, l1, e.right);
      WalkOverConstants(op, e.right, l1);
    } else {
      EqReflexive(e);
    }
  }

  lemma {:induction false} ElimYNLevel(op: Op, e: Expr)
    requires YNLevel(op, e)
    ensures IsYN(ElimYN(e))
  {
    if e.Bin? {
      ElimYNLevel(op, e.left);
      ElimYNLevel(op, e.right);
    }
  }

  /** `expr_eq` calls every expression equal to itself, whatever constants and repetitions it holds. */
  lemma {:induction false} EqReflexive(e: Expr)
    ensures Eq(e, e)
    decreases Size(e), 3
  {
    match e
    case Sym(_) =>
    case Cmp(_, _, _) =>
    case Neg(a) => EqReflexive(a);
    case Bin(op, l, r) =>
      var (l1, _) := ElimEqWalk(op, l, l);
      WalkSelf(op, e);
      var (f, _) := ElimEqWalk(op, e, e);
      ElimYNLevel(op, f);
  }
}
