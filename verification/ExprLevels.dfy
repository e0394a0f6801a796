/** Slots inside a tree. `expr_eliminate_dups1` walks the operands of one level of && or || through pointers
    to the slots that hold them, and both pointers may lead into the same tree. A slot is named here by the
    path that leads to it from the root of the level; two pointers are equal when their paths are. */
module ExprLevels {
  import opened Tristate
  import opened Expressions
  import opened ExprEq

  type Path = seq<bool>

  predicate IsOp(op: Op, e: Expr) { e.Bin? && e.op == op }

  function Child(e: Expr, right: bool): Expr
    requires e.Bin?
  {
    if right then e.right else e.left
  }

  /** The path runs through nodes of operator `op` only. */
  predicate OnLevel(op: Op, e: Expr, p: Path) {
    p == [] || (IsOp(op, e) && OnLevel(op, Child(e, p[0]), p[1..]))
  }

  function At(op: Op, e: Expr, p: Path): (r: Expr)
    requires OnLevel(op, e, p)
    ensures Size(r) <= Size(e) && (p != [] ==> Size(r) < Size(e))
  {
    if p == [] then e else At(op, Child(e, p[0]), p[1..])
  }

  /** The tree after storing `x` in the slot. */
  function Put(op: Op, e: Expr, p: Path, x: Expr): (r: Expr)
    requires OnLevel(op, e, p)
    ensures Size(r) == Size(e) - Size(At(op, e, p)) + Size(x)
  {
    if p == [] then x
    else if p[0] then Bin(op, e.left, Put(op, e.right, p[1..], x))
    else Bin(op, Put(op, e.left, p[1..], x), e.right)
  }

  /** The slot holds an operand of the level. */
  predicate IsLeaf(op: Op, e: Expr, p: Path) { OnLevel(op, e, p) && !IsOp(op, At(op, e, p)) }

  /** Number of nodes of the level, operands included. */
  function LevelSize(op: Op, e: Expr): nat {
    if IsOp(op, e) then 1 + LevelSize(op, e.left) + LevelSize(op, e.right) else 1
  }

  /** Both trees have their level nodes at the same places. */
  predicate SameShape(op: Op, a: Expr, b: Expr) {
    if IsOp(op, a) then IsOp(op, b) && SameShape(op, a.left, b.left) && SameShape(op, a.right, b.right)
    else !IsOp(op, b)
  }

  lemma {:induction false} SameShapeTransitive(op: Op, a: Expr, b: Expr, c: Expr)
    requires SameShape(op, a, b) && SameShape(op, b, c)
    ensures SameShape(op, a, c)
  {
    if IsOp(op, a) {
      SameShapeTransitive(op, a.left, b.left, c.left);
      SameShapeTransitive(op, a.right, b.right, c.right);
    }
  }

  lemma {:induction false} SameShapeRefl(op: Op, a: Expr)
    ensures SameShape(op, a, a)
  {
    if IsOp(op, a) { SameShapeRefl(op, a.left); SameShapeRefl(op, a.right); }
  }

  lemma {:induction false} SameShapeLevel(op: Op, a: Expr, b: Expr, p: Path)
    requires SameShape(op, a, b) && OnLevel(op, a, p)
    ensures OnLevel(op, b, p) && SameShape(op, At(op, a, p), At(op, b, p))
  {
    if p != [] { SameShapeLevel(op, Child(a, p[0]), Child(b, p[0]), p[1..]); }
  }

  lemma {:induction false} SameShapeSize(op: Op, a: Expr, b: Expr)
    requires SameShape(op, a, b)
    ensures LevelSize(op, a) == LevelSize(op, b)
  {
    if IsOp(op, a) { SameShapeSize(op, a.left, b.left); SameShapeSize(op, a.right, b.right); }
  }

  /** Descending from a slot. */
  lemma {:induction false} Descend(op: Op, e: Expr, p: Path, right: bool)
    requires OnLevel(op, e, p) && IsOp(op, At(op, e, p))
    ensures OnLevel(op, e, p + [right]) && At(op, e, p + [right]) == Child(At(op, e, p), right)
  {
    if p != [] {
      Descend(op, Child(e, p[0]), p[1..], right);
      assert (p + [right])[1..] == p[1..] + [right];
    }
  }

  /** Storing an operand keeps the shape and every other slot. */
  lemma {:induction false} PutShape(op: Op, e: Expr, p: Path, x: Expr)
    requires IsLeaf(op, e, p) && !IsOp(op, x)
    ensures SameShape(op, e, Put(op, e, p, x))
    ensures IsLeaf(op, Put(op, e, p, x), p) && At(op, Put(op, e, p, x), p) == x
  {
    if p != [] {
      PutShape(op, Child(e, p[0]), p[1..], x);
      SameShapeRefl(op, Child(e, !p[0]));
    }
  }

  lemma {:induction false} PutOther(op: Op, e: Expr, p: Path, x: Expr, q: Path)
    requires IsLeaf(op, e, p) && IsLeaf(op, e, q) && p != q && !IsOp(op, x)
    ensures IsLeaf(op, Put(op, e, p, x), q) && At(op, Put(op, e, p, x), q) == At(op, e, q)
  {
    assert p != [] && q != [];
    if p[0] == q[0] {
      assert p == [p[0]] + p[1..] && q == [q[0]] + q[1..];
      PutOther(op, Child(e, p[0]), p[1..], x, q[1..]);
    }
  }

  // ----- the value of a level

  /** The value of all operands of the level except the one in the slot. */
  function Rest(op: Op, e: Expr, p: Path, env: Env): Tri
    requires OnLevel(op, e, p)
  {
    if p == [] then Unit(op)
    else Apply(op, Calc(Child(e, !p[0]), env), Rest(op, Child(e, p[0]), p[1..], env))
  }

  lemma ApplyAssoc(op: Op, a: Tri, b: Tri, c: Tri)
    ensures Apply(op, Apply(op, a, b), c) == Apply(op, a, Apply(op, b, c))
    ensures Apply(op, a, b) == Apply(op, b, a)
    ensures Apply(op, Unit(op), a) == a
  {
  }

  lemma {:induction false} PutValue(op: Op, e: Expr, p: Path, x: Expr, env: Env)
    requires OnLevel(op, e, p)
    ensures Calc(Put(op, e, p, x), env) == Apply(op, Rest(op, e, p, env), Calc(x, env))
  {
    if p == [] {
      ApplyAssoc(op, Calc(x, env), Calc(x, env), Calc(x, env));
    } else {
      PutValue(op, Child(e, p[0]), p[1..], x, env);
      ApplyAssoc(op, Calc(Child(e, !p[0]), env), Rest(op, Child(e, p[0]), p[1..], env), Calc(x, env));
      ApplyAssoc(op, Calc(Put(op, Child(e, p[0]), p[1..], x), env), Calc(Child(e, !p[0]), env), Calc(x, env));
    }
  }

  lemma {:induction false} PutSelf(op: Op, e: Expr, p: Path)
    requires OnLevel(op, e, p)
    ensures Put(op, e, p, At(op, e, p)) == e
  {
    if p != [] { PutSelf(op, Child(e, p[0]), p[1..]); }
  }

  /** Storing an operand of equal value keeps the value of the level. */
  lemma PutSameValue(op: Op, e: Expr, p: Path, x: Expr, env: Env)
    requires OnLevel(op, e, p) && Calc(x, env) == Calc(At(op, e, p), env)
    ensures Calc(Put(op, e, p, x), env) == Calc(e, env)
  {
    PutSelf(op, e, p);
    PutValue(op, e, p, x, env);
    PutValue(op, e, p, At(op, e, p), env);
  }

  /** Replacing two operands by two others that combine to the same value keeps the value of the level. */
  lemma {:induction false} PutPairValue(op: Op, e: Expr, p: Path, q: Path, x: Expr, y: Expr, env: Env)
    requires IsLeaf(op, e, p) && IsLeaf(op, e, q) && p != q && !IsOp(op, x)
    requires Apply(op, Calc(x, env), Calc(y, env)) == Apply(op, Calc(At(op, e, p), env), Calc(At(op, e, q), env))
    ensures OnLevel(op, Put(op, e, p, x), q)
    ensures Calc(Put(op, Put(op, e, p, x), q, y), env) == Calc(e, env)
  {
    hide Apply, Size;
    assert p != [] && q != [];
    PutOther(op, e, p, x, q);
    if p[0] == q[0] {
      assert p == [p[0]] + p[1..] && q == [q[0]] + q[1..];
      PutPairValue(op, Child(e, p[0]), p[1..], q[1..], x, y, env);
    } else {
      var l, r := Child(e, p[0]), Child(e, q[0]);
      PutValue(op, l, p[1..], x, env);
      PutValue(op, r, q[1..], y, env);
      PutSelf(op, l, p[1..]);
      PutSelf(op, r, q[1..]);
      PutValue(op, l, p[1..], At(op, l, p[1..]), env);
      PutValue(op, r, q[1..], At(op, r, q[1..]), env);
      Interchange(op, Rest(op, l, p[1..], env), Calc(x, env), Rest(op, r, q[1..], env), Calc(y, env));
      Interchange(op, Rest(op, l, p[1..], env), Calc(At(op, e, p), env), Rest(op, r, q[1..], env),
        Calc(At(op, e, q), env));
      assert Put(op, Put(op, e, p, x), q, y) ==
             if p[0] then Bin(op, Put(op, r, q[1..], y), Put(op, l, p[1..], x))
             else Bin(op, Put(op, l, p[1..], x), Put(op, r, q[1..], y));
    }
  }

  lemma Interchange(op: Op, a: Tri, b: Tri, c: Tri, d: Tri)
    ensures Apply(op, Apply(op, a, b), Apply(op, c, d)) == Apply(op, Apply(op, a, c), Apply(op, b, d))
    ensures Apply(op, Apply(op, c, d), Apply(op, a, b)) == Apply(op, Apply(op, a, c), Apply(op, b, d))
  {
  }

  // ----- units in slots

  lemma {:induction false} UnitInSlot(op: Op, e: Expr, p: Path)
    requires OnLevel(op, e, p) && p != []
    requires At(op, e, p) == Sym(UnitSym(op)) || HasUnit(At(op, e, p))
    ensures HasUnit(e)
  {
    if |p| > 1 { UnitInSlot(op, Child(e, p[0]), p[1..]); }
  }
}
