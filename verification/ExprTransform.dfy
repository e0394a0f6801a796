/** `expr_transform` (negations pushed inwards, boolean tests simplified) and `expr_trans_bool`. */
module ExprTransform {
  import opened Tristate
  import opened Expressions

  /** Grows with the number of operators below a negation; every rewriting step lowers it. */
  function Weight(e: Expr): nat {
    match e
    case Sym(_) => 1
    case Cmp(_, _, _) => 2
    case Neg(a) => 2 * Weight(a)
    case Bin(_, l, r) => 1 + Weight(l) + Weight(r)
  }

  lemma {:induction false} WeightPositive(e: Expr)
    ensures Weight(e) >= 1
  {
    if e.Neg? { WeightPositive(e.arg); }
  }

  /** De Morgan adds a negation but lowers the weight. */
  lemma DeMorganLowers(op: Op, l: Expr, r: Expr)
    ensures Weight(Bin(Dual(op), Neg(l), Neg(r))) < 2 * Weight(Bin(op, l, r))
  {
    assert Weight(Neg(l)) == 2 * Weight(l) && Weight(Neg(r)) == 2 * Weight(r);
  }

  function Opposite(rel: Rel): Rel {
    match rel
    case Equal => Unequal
    case Unequal => Equal
    case Less => GreaterEq
    case LessEq => Greater
    case Greater => LessEq
    case GreaterEq => Less
  }

  function Dual(op: Op): Op { if op.OpAnd? then OpOr else OpAnd }

  /** A comparison of a bool symbol with n, m or y, as the symbol itself. */
  function TransformCmp(e: Expr): (r: Expr)
    requires e.Cmp?
    ensures Weight(r) <= Weight(e)
  {
    if !e.lhs.Type().Boolean? then e
    else if e.rel.Equal? then
      if e.rhs.SymNo? then Neg(Sym(e.lhs))
      else if e.rhs.SymMod? then Sym(SymNo)
      else if e.rhs.SymYes? then Sym(e.lhs)
      else e
    else if e.rel.Unequal? then
      if e.rhs.SymNo? then Sym(e.lhs)
      else if e.rhs.SymMod? then Sym(SymYes)
      else if e.rhs.SymYes? then Neg(Sym(e.lhs))
      else e
    else e
  }

  /** `expr_transform`. */
  function Transform(e: Expr): (r: Expr)
    ensures Weight(r) <= Weight(e)
    decreases Weight(e)
  {
    match e
    case Sym(_) => e
    case Cmp(_, _, _) => TransformCmp(e)
    case Bin(op, l, r) => Bin(op, Transform(l), Transform(r))
    case Neg(a0) =>
      WeightPositive(a0);
      var a := Transform(a0);
      (match a
       case Neg(b) => WeightPositive(b); Transform(b)
       case Cmp(rel, l, r) => Cmp(Opposite(rel), l, r)
       case Bin(op, l, r) => DeMorganLowers(op, l, r); Transform(Bin(Dual(op), Neg(l), Neg(r)))
       case Sym(SymYes) => Sym(SymNo)
       case Sym(SymMod) => Sym(SymMod)
       case Sym(SymNo) => Sym(SymYes)
       case Sym(_) => Neg(a))
  }

  /** What one rewriting of a negation does, and De Morgan in particular. */
  lemma NegationValue(a: Expr, env: Env)
    ensures a.Neg? ==> Calc(Neg(a), env) == Calc(a.arg, env)
    ensures a.Cmp? ==> Calc(Neg(a), env) == Calc(Cmp(Opposite(a.rel), a.lhs, a.rhs), env)
    ensures a.Bin? ==> Calc(Neg(a), env) == Calc(Bin(Dual(a.op), Neg(a.left), Neg(a.right)), env)
  {
    if a.Bin? {
      assert Calc(Neg(a.left), env) == Not(Calc(a.left, env));
      assert Calc(Neg(a.right), env) == Not(Calc(a.right, env));
    }
  }

  lemma {:induction false} TransformValue(e: Expr, env: Env)
    requires ValidEnv(env)
    ensures Calc(Transform(e), env) == Calc(e, env)
    decreases Weight(e)
  {
    match e
    case Sym(_) =>
    case Cmp(_, l, r) =>
      if l.Type().Boolean? && r.IsBuiltin() { BuiltinCompare(l, r, env); }
    case Bin(_, l, r) => TransformValue(l, env); TransformValue(r, env);
    case Neg(a0) =>
      WeightPositive(a0);
      TransformValue(a0, env);
      var a := Transform(a0);
      NegationValue(a, env);
      match a {
        case Neg(b) => WeightPositive(b); TransformValue(b, env);
        case Bin(op, l, r) =>
          DeMorganLowers(op, l, r);
          TransformValue(Bin(Dual(op), Neg(l), Neg(r)), env);
        case _ =>
      }
  }

  /** Negation stands directly above non-constant symbols only (a quoted string counts as a symbol here,
      the code tests the three built-in constants), and no bool symbol is compared with y, m or n. */
  predicate Normal(e: Expr) {
    match e
    case Sym(_) => true
    case Cmp(rel, l, r) =>
      !(l.Type().Boolean? && (rel.Equal? || rel.Unequal?) && r.IsBuiltin())
    case Neg(a) => a.Sym? && !a.sym.SymYes? && !a.sym.SymMod? && !a.sym.SymNo?
    case Bin(_, l, r) => Normal(l) && Normal(r)
  }

  lemma {:induction false} TransformNormal(e: Expr)
    ensures Normal(Transform(e))
    decreases Weight(e)
  {
    match e
    case Sym(_) =>
    case Cmp(_, _, _) =>
    case Bin(_, l, r) => TransformNormal(l); TransformNormal(r);
    case Neg(a0) =>
      WeightPositive(a0);
      TransformNormal(a0);
      var a := Transform(a0);
      match a {
        case Neg(b) => WeightPositive(b); TransformNormal(b);
        case Bin(op, l, r) => DeMorganLowers(op, l, r); TransformNormal(Bin(Dual(op), Neg(l), Neg(r)));
        case _ =>
      }
  }

  /** A normal form is left alone, so transforming twice is transforming once. */
  lemma {:induction false} NormalIsFixed(e: Expr)
    requires Normal(e)
    ensures Transform(e) == e
  {
    if e.Bin? { NormalIsFixed(e.left); NormalIsFixed(e.right); }
  }

  /** `expr_transform`: same value everywhere, negation normal form, and nothing left to do. */
  lemma TransformCorrect(e: Expr)
    ensures Equivalent(e, Transform(e))
    ensures Normal(Transform(e))
    ensures Transform(Transform(e)) == Transform(e)
  {
    forall env: Env | ValidEnv(env) ensures Calc(e, env) == Calc(Transform(e), env) { TransformValue(e, env); }
    TransformNormal(e);
    NormalIsFixed(Transform(e));
  }

  // ----- expr_trans_bool

  /** `expr_trans_bool`: a tristate test FOO!=n becomes FOO. */
  function TransBool(e: Expr): Expr {
    match e
    case Sym(_) => e
    case Cmp(rel, l, r) => if rel.Unequal? && l.Type().Tristate? && r.SymNo? then Sym(l) else e
    case Neg(a) => Neg(TransBool(a))
    case Bin(op, l, r) => Bin(op, TransBool(l), TransBool(r))
  }

  /** No tristate is tested for being different from n. */
  predicate Untested(e: Expr) {
    match e
    case Sym(_) => true
    case Cmp(rel, l, r) => !(rel.Unequal? && l.Type().Tristate? && r.SymNo?)
    case Neg(a) => Untested(a)
    case Bin(_, l, r) => Untested(l) && Untested(r)
  }

  /** `expr_trans_bool` leaves no such test and nothing else changes: no variable is lost, an expression without a test
      stays as it is, and so does the value of every expression where none of its variables is m. */
  lemma {:induction false} TransBoolExact(e: Expr, env: Env)
    requires ValidEnv(env)
    ensures Untested(TransBool(e)) && Vars(TransBool(e)) == Vars(e)
    ensures Untested(e) ==> TransBool(e) == e
    ensures (forall s :: s in Vars(e) ==> TriOf(env, s) != MOD) ==> Calc(TransBool(e), env) == Calc(e, env)
  {
    match e
    case Sym(_) =>
    case Cmp(rel, l, r) => if TransBool(e) != e { assert l in Vars(e); BuiltinCompare(l, r, env); }
    case Neg(a) => TransBoolExact(a, env);
    case Bin(_, l, r) => TransBoolExact(l, env); TransBoolExact(r, env);
  }

  /** In negation normal form, `expr_trans_bool` can only lower a value, and keeps whether it is n. */
  lemma {:induction false} TransBoolVisible(e: Expr, env: Env)
    requires Normal(e) && ValidEnv(env)
    ensures Calc(TransBool(e), env) <= Calc(e, env)
    ensures Calc(TransBool(e), env) == NO <==> Calc(e, env) == NO
  {
    match e
    case Sym(_) =>
    case Cmp(rel, l, r) => if TransBool(e) != e { BuiltinCompare(l, r, env); }
    case Neg(_) =>
    case Bin(_, l, r) => TransBoolVisible(l, env); TransBoolVisible(r, env);
  }

  /** Outside negation normal form it does change whether an expression is n: !(FOO!=n) at FOO = m. */
  lemma TransBoolNeedsNormal(id: nat)
    ensures var foo := Var(id, SymType.Tristate);
            var e := Neg(Cmp(Unequal, foo, SymNo));
            var env := Env(map[foo := MOD], map[], YES);
            ValidEnv(env) && Calc(e, env) == NO && Calc(TransBool(e), env) == MOD
  {
    var foo := Var(id, SymType.Tristate);
    BuiltinCompare(foo, SymNo, Env(map[foo := MOD], map[], YES));
  }
}
