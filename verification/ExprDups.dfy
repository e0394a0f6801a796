/** `expr_join_or`, `expr_join_and` and `expr_eliminate_dups`: joining redundant operands of && and ||. */
module ExprDups {
  import opened Tristate
  import opened Expressions
  import opened ExprEq
  import opened ExprLevels

  // ----- joining two operands

  /** The operand compares some symbol with `c` by = or !=. */
  predicate IsTest(e: Expr, rel: Rel, c: Symbol) { e.Cmp? && e.rel == rel && e.rhs == c }

  predicate IsEquality(e: Expr) { e.Cmp? && (e.rel.Equal? || e.rel.Unequal?) }

  /** The one symbol the first operand is about, when a join may consider it. */
  function FirstSym(e: Expr): Option<Symbol> {
    if IsEquality(e) then Some(e.lhs)
    else if e.Sym? then Some(e.sym)
    else if e.Neg? && IsEquality(e.arg) then Some(e.arg.lhs)
    else if e.Neg? && e.arg.Sym? then Some(e.arg.sym)
    else None
  }

  function SecondSym(e: Expr): Option<Symbol> {
    if e.Neg? && !e.arg.Sym? then None else FirstSym(e)
  }

  /** The symbol both operands are about, if it is the same bool or tristate. */
  function SharedSym(e1: Expr, e2: Expr): Option<Symbol> {
    var s1, s2 := FirstSym(e1), SecondSym(e2);
    if s1.Some? && s1 == s2 && s1.value.IsBoolOrTristate() then s1 else None
  }

  /** The operands are the tests `rel b` and `rel c`, in either order. */
  predicate TestPair(e1: Expr, e2: Expr, rel: Rel, b: Symbol, c: Symbol) {
    (IsTest(e1, rel, b) && IsTest(e2, rel, c)) || (IsTest(e1, rel, c) && IsTest(e2, rel, b))
  }

  /** One operand is a plain symbol, the other the test `rel c`. */
  predicate SymAndTest(e1: Expr, e2: Expr, rel: Rel, c: Symbol) {
    (e1.Sym? && IsTest(e2, rel, c)) || (e2.Sym? && IsTest(e1, rel, c))
  }

  /** `expr_join_or`. */
  function JoinOr(e1: Expr, e2: Expr): Option<Expr> {
    if Eq(e1, e2) then Some(e1)
    else
      var shared := SharedSym(e1, e2);
      if shared.None? then None
      else
        var a := shared.value;
        if a.Type().Tristate? && TestPair(e1, e2, Equal, SymYes, SymMod) then Some(Cmp(Unequal, a, SymNo))
        else if a.Type().Tristate? && TestPair(e1, e2, Equal, SymYes, SymNo) then Some(Cmp(Unequal, a, SymMod))
        else if a.Type().Tristate? && TestPair(e1, e2, Equal, SymMod, SymNo) then Some(Cmp(Unequal, a, SymYes))
        else if a.Type().Boolean? &&
                ((e1.Neg? && e1.arg.Sym? && e2.Sym?) || (e2.Neg? && e2.arg.Sym? && e1.Sym?)) then Some(Sym(SymYes))
        else None
  }

  /** (a = b) && (a != c) for two constants: n when they are the same symbol, a = b otherwise. */
  function JoinEqNeq(a: Symbol, b: Symbol, c: Symbol): Expr {
    if b != c then Cmp(Equal, a, b) else Sym(SymNo)
  }

  /** `expr_join_and`. */
  function JoinAnd(e1: Expr, e2: Expr): Option<Expr> {
    if Eq(e1, e2) then Some(e1)
    else
      var shared := SharedSym(e1, e2);
      if shared.None? then None
      else
        var a := shared.value;
        if SymAndTest(e1, e2, Equal, SymYes) then Some(Cmp(Equal, a, SymYes))
        else if SymAndTest(e1, e2, Unequal, SymNo) then Some(Sym(a))
        else if SymAndTest(e1, e2, Unequal, SymMod) then Some(Cmp(Equal, a, SymYes))
        else if !a.Type().Tristate? then None
        else if e1.Cmp? && e2.Cmp? && e1.rel.Equal? && e2.rel.Unequal? && e1.rhs.IsConst() && e2.rhs.IsConst()
        then Some(JoinEqNeq(a, e1.rhs, e2.rhs))
        else if e1.Cmp? && e2.Cmp? && e1.rel.Unequal? && e2.rel.Equal? && e1.rhs.IsConst() && e2.rhs.IsConst()
        then Some(JoinEqNeq(a, e2.rhs, e1.rhs))
        else if TestPair(e1, e2, Unequal, SymYes, SymNo) then Some(Cmp(Equal, a, SymMod))
        else if TestPair(e1, e2, Unequal, SymYes, SymMod) then Some(Cmp(Equal, a, SymNo))
        else if TestPair(e1, e2, Unequal, SymMod, SymNo) then Some(Cmp(Equal, a, SymYes))
        else None
  }

  function Join(op: Op, e1: Expr, e2: Expr): Option<Expr> {
    if op.OpAnd? then JoinAnd(e1, e2) else JoinOr(e1, e2)
  }

  /** A tristate symbol of value `v` compares equal to the constant `c`. */
  predicate Spells(c: Symbol, v: Tri)
    requires c.IsConst()
  {
    Compare(TriString(v, YES), SymType.Tristate, ConstString(c), c.Type()) == 0
  }

  function ConstString(c: Symbol): string
    requires c.IsConst()
  {
    StrOf(Env(map[], map[], YES), c)
  }

  /** Two different constants that one value equals, like n and "0". */
  predicate Clash(b: Symbol, c: Symbol) {
    b.IsConst() && c.IsConst() && b != c && exists v: Tri :: Spells(b, v) && Spells(c, v)
  }

  /** The operands are (a = b) and (a != c) for constants b and c. */
  predicate EqNeqConst(e1: Expr, e2: Expr) {
    e1.Cmp? && e2.Cmp? && e1.lhs.Type().Tristate? && e1.rhs.IsConst() && e2.rhs.IsConst() &&
    ((e1.rel.Equal? && e2.rel.Unequal?) || (e1.rel.Unequal? && e2.rel.Equal?))
  }

  /** The two operands are (a = b) and (a != c), in either order, for clashing constants b and c. */
  predicate ClashingTests(op: Op, e1: Expr, e2: Expr) {
    op.OpAnd? && EqNeqConst(e1, e2) && e1.lhs == e2.lhs && Clash(e1.rhs, e2.rhs)
  }

  ghost predicate JoinKeepsValue(op: Op, e1: Expr, e2: Expr, env: Env)
    requires Join(op, e1, e2).Some?
  {
    Calc(Join(op, e1, e2).value, env) == Apply(op, Calc(e1, env), Calc(e2, env))
  }

  lemma EqApply(op: Op, e1: Expr, e2: Expr, env: Env)
    requires Eq(e1, e2)
    ensures Apply(op, Calc(e1, env), Calc(e2, env)) == Calc(e1, env)
  {
    EqSound(e1, e2, env);
  }

  /** The value of an operand about a symbol of value `v`, for plain symbols and tests against y, m and n. */
  function TestValue(e: Expr, v: Tri): Tri {
    if e.Sym? && e.sym.IsBuiltin() then BuiltinTri(e.sym)
    else if e.Sym? then v
    else if e.Cmp? && e.rhs.IsBuiltin() then FromBool((v == BuiltinTri(e.rhs)) == e.rel.Equal?)
    else Not(v)
  }

  function BuiltinTri(c: Symbol): Tri { if c.SymYes? then YES else if c.SymMod? then MOD else NO }

  /** The operands `TestValue` describes. */
  predicate Simple(e: Expr, a: Symbol) {
    || e == Sym(a) || e == Neg(Sym(a)) || (e.Sym? && e.sym.IsBuiltin())
    || (IsEquality(e) && e.lhs == a && e.rhs.IsBuiltin())
  }

  lemma SimpleValue(e: Expr, a: Symbol, env: Env)
    requires Simple(e, a) && a.IsBoolOrTristate() && ValidEnv(env)
    ensures Calc(e, env) == TestValue(e, TriOf(env, a))
    ensures a.Type().Boolean? ==> TriOf(env, a) != MOD
  {
    if e.Cmp? { BuiltinCompare(a, e.rhs, env); }
    if e.Neg? { assert Calc(e.arg, env) == TriOf(env, a); }
  }

  /** The rules of `expr_join_or` other than the one for equal operands, on values. */
  lemma JoinOrTests(e1: Expr, e2: Expr, a: Symbol, v: Tri)
    requires !Eq(e1, e2) && SharedSym(e1, e2) == Some(a) && JoinOr(e1, e2).Some?
    requires a.Type().Boolean? ==> v != MOD
    ensures Simple(e1, a) && Simple(e2, a) && Simple(JoinOr(e1, e2).value, a)
    ensures TestValue(JoinOr(e1, e2).value, v) == Or(TestValue(e1, v), TestValue(e2, v))
  {
  }

  lemma JoinOrValue(e1: Expr, e2: Expr, env: Env)
    requires JoinOr(e1, e2).Some? && ValidEnv(env)
    ensures Calc(JoinOr(e1, e2).value, env) == Or(Calc(e1, env), Calc(e2, env))
  {
    if Eq(e1, e2) {
      EqApply(OpOr, e1, e2, env);
    } else {
      var a := SharedSym(e1, e2).value;
      SimpleValue(Sym(a), a, env);
      JoinOrTests(e1, e2, a, TriOf(env, a));
      SimpleValue(e1, a, env);
      SimpleValue(e2, a, env);
      SimpleValue(JoinOr(e1, e2).value, a, env);
    }
  }

  /** How a constant compares with a tristate depends on the value of the tristate only. */
  lemma ConstTest(a: Symbol, rel: Rel, c: Symbol, env: Env)
    requires a.Type().Tristate? && c.IsConst() && ValidEnv(env) && (rel.Equal? || rel.Unequal?)
    ensures Calc(Cmp(rel, a, c), env) == FromBool(Spells(c, TriOf(env, a)) == rel.Equal?)
  {
    var v := TriOf(env, a);
    assert a.Var?;
    assert v == MOD ==> env.modules != NO;
    assert StrOf(env, a) == TriString(v, YES);
  }

  lemma JoinAndTests(e1: Expr, e2: Expr, a: Symbol, v: Tri)
    requires !Eq(e1, e2) && SharedSym(e1, e2) == Some(a) && JoinAnd(e1, e2).Some? && !EqNeqConst(e1, e2)
    requires a.Type().Boolean? ==> v != MOD
    ensures Simple(e1, a) && Simple(e2, a) && Simple(JoinAnd(e1, e2).value, a)
    ensures TestValue(JoinAnd(e1, e2).value, v) == And(TestValue(e1, v), TestValue(e2, v))
  {
  }

  lemma JoinAndValue(e1: Expr, e2: Expr, env: Env)
    requires JoinAnd(e1, e2).Some? && ValidEnv(env) && !ClashingTests(OpAnd, e1, e2)
    ensures Calc(JoinAnd(e1, e2).value, env) == And(Calc(e1, env), Calc(e2, env))
  {
    if Eq(e1, e2) {
      EqApply(OpAnd, e1, e2, env);
    } else if EqNeqConst(e1, e2) {
      JoinEqNeqValue(e1, e2, env);
    } else {
      var a := SharedSym(e1, e2).value;
      SimpleValue(Sym(a), a, env);
      JoinAndTests(e1, e2, a, TriOf(env, a));
      SimpleValue(e1, a, env);
      SimpleValue(e2, a, env);
      SimpleValue(JoinAnd(e1, e2).value, a, env);
    }
  }

  lemma JoinEqNeqValue(e1: Expr, e2: Expr, env: Env)
    requires !Eq(e1, e2) && JoinAnd(e1, e2).Some? && EqNeqConst(e1, e2) && ValidEnv(env)
    requires !ClashingTests(OpAnd, e1, e2)
    ensures Calc(JoinAnd(e1, e2).value, env) == And(Calc(e1, env), Calc(e2, env))
  {
    var a := e1.lhs;
    var v := TriOf(env, a);
    ConstTest(a, e1.rel, e1.rhs, env);
    ConstTest(a, e2.rel, e2.rhs, env);
    assert e1.rhs != e2.rhs ==> !(Spells(e1.rhs, v) && Spells(e2.rhs, v));
  }

  lemma BuiltinSpells(c: Symbol, v: Tri)
    requires c.IsBuiltin()
    ensures Spells(c, v) <==> v == BuiltinTri(c)
  {
    assert ParseString(ConstString(c), Unknown) == KString;
    StrCmpZero(TriString(v, YES), ConstString(c));
  }

  /** A join keeps the value of its two operands in every environment, unless they are the tests
      (a = b) && (a != c) of a tristate against two constants that one of its values equals. */
  lemma JoinExact(op: Op, e1: Expr, e2: Expr)
    requires Join(op, e1, e2).Some?
    ensures (forall env: Env | ValidEnv(env) :: JoinKeepsValue(op, e1, e2, env)) <==> !ClashingTests(op, e1, e2)
  {
    if ClashingTests(op, e1, e2) {
      var a, b, c := e1.lhs, e1.rhs, e2.rhs;
      var v: Tri :| Spells(b, v) && Spells(c, v);
      var env := Env(map[a := v], map[], YES);
      ConstTest(a, e1.rel, b, env);
      ConstTest(a, e2.rel, c, env);
      ConstTest(a, Equal, b, env);
      ConstTest(a, Equal, c, env);
      assert ValidEnv(env) && !JoinKeepsValue(op, e1, e2, env);
    } else {
      forall env: Env | ValidEnv(env) ensures JoinKeepsValue(op, e1, e2, env) {
        if op.OpAnd? { JoinAndValue(e1, e2, env); } else { JoinOrValue(e1, e2, env); }
      }
    }
  }

  /** The number 0 equals a tristate symbol of value n. */
  lemma ZeroSpellsNo()
    ensures Spells(Const("0"), NO)
  {
    assert "0"[..0] == "" && Magnitude("0", 8) == 0;
    assert ParseString("0", Unknown) == KSigned(0);
  }

  /** At a value both constants spell, the join has lost the second test. */
  lemma ClashLosesTest(a: Symbol, b: Symbol, c: Symbol, v: Tri)
    requires a.Type().Tristate? && b.IsConst() && c.IsConst() && b != c && Spells(b, v) && Spells(c, v)
    ensures var e1, e2 := Cmp(Equal, a, b), Cmp(Unequal, a, c);
            var env := Env(map[a := v], map[], YES);
            ValidEnv(env) && JoinAnd(e1, e2) == Some(e1) && Calc(Conj(e1, e2), env) == NO && Calc(e1, env) == YES
  {
    var env := Env(map[a := v], map[], YES);
    ConstTest(a, Equal, b, env);
    ConstTest(a, Unequal, c, env);
  }

  /** The exception is real: A="n" && A!="0" is joined to A="n", but is n when A is n, where A="n" is y. */
  lemma JoinClashExample(id: nat)
    ensures var a := Var(id, SymType.Tristate);
            var e1, e2 := Cmp(Equal, a, SymNo), Cmp(Unequal, a, Const("0"));
            var env := Env(map[a := NO], map[], YES);
            ValidEnv(env) && JoinAnd(e1, e2) == Some(e1) && Calc(Conj(e1, e2), env) == NO && Calc(e1, env) == YES
  {
    ZeroSpellsNo();
    BuiltinSpells(SymNo, NO);
    ClashLosesTest(Var(id, SymType.Tristate), SymNo, Const("0"), NO);
  }

  /** Two different tests for equality of one tristate with y, m or n, or for inequality. */
  predicate TwoTests(rel: Rel, x: Expr, y: Expr) {
    && x.Cmp? && y.Cmp? && x.rel == y.rel == rel && x.lhs == y.lhs && x.lhs.Type().Tristate?
    && x.rhs.IsBuiltin() && y.rhs.IsBuiltin() && x.rhs != y.rhs
  }

  /** Two operands one of which says something about the other, in this order: for ||, two values of a tristate or a
      bool and its negation; for &&, a symbol and a test that it is y, not n or not m, a value of a tristate and
      another constant that it is not, or two values that it is not. */
  predicate Overlap(op: Op, x: Expr, y: Expr) {
    match op
    case OpOr => TwoTests(Equal, x, y) || (x.Sym? && x.sym.Type().Boolean? && y == Neg(x))
    case OpAnd =>
      || TwoTests(Unequal, x, y)
      || (x.Sym? && x.sym.IsBoolOrTristate() &&
          (y == Cmp(Equal, x.sym, SymYes) || y == Cmp(Unequal, x.sym, SymNo) || y == Cmp(Unequal, x.sym, SymMod)))
      || (x.Cmp? && y.Cmp? && x.rel.Equal? && y.rel.Unequal? && x.lhs == y.lhs && x.lhs.Type().Tristate? &&
          x.rhs.IsConst() && y.rhs.IsConst())
  }

  /** Exactly equal and overlapping operands are joined. */
  lemma JoinedExactly(op: Op, x: Expr, y: Expr)
    ensures Join(op, x, y).Some? <==> Eq(x, y) || Overlap(op, x, y) || Overlap(op, y, x)
  {
  }

  // ----- the walk over all pairs of operands

  /** Joining two operands yields an operand no larger than the first. */
  lemma JoinSize(op: Op, e1: Expr, e2: Expr)
    requires Join(op, e1, e2).Some?
    ensures Size(Join(op, e1, e2).value) <= Size(e1)
    ensures !IsOp(op, e1) ==> !IsOp(op, Join(op, e1, e2).value)
  {
  }

  /** `expr_eliminate_dups1` with both pointers into the tree `root`, at the slots `p` and `q` of its `op` level.
      Returns the tree afterwards and by how much `trans_count` has grown. */
  function Walk(op: Op, root: Expr, p: Path, q: Path): (r: (Expr, nat))
    requires IsOp(op, root) && OnLevel(op, root, p) && OnLevel(op, root, q)
    ensures SameShape(op, root, r.0) && Size(r.0) <= Size(root)
    decreases Size(root), LevelSize(op, At(op, root, p)) + LevelSize(op, At(op, root, q))
  {
    if IsOp(op, At(op, root, p)) then
      Descend(op, root, p, false);
      Descend(op, root, p, true);
      var (r1, n1) := Walk(op, root, p + [false], q);
      Moved(op, root, r1, p + [true], q);
      var (r2, n2) := Walk(op, r1, p + [true], q);
      SameShapeTransitive(op, root, r1, r2);
      (r2, n1 + n2)
    else if IsOp(op, At(op, root, q)) then
      Descend(op, root, q, false);
      Descend(op, root, q, true);
      var (r1, n1) := Walk(op, root, p, q + [false]);
      Moved(op, root, r1, p, q + [true]);
      var (r2, n2) := Walk(op, r1, p, q + [true]);
      SameShapeTransitive(op, root, r1, r2);
      (r2, n1 + n2)
    else
      SameShapeRefl(op, root);
      if p == q then (root, 0) else
      var (r1, n1) := WalkInside(op, root, p);
      var (r2, n2) := JoinSlots(op, r1, p, q);
      SameShapeTransitive(op, root, r1, r2);
      (r2, n1 + n2)
  }

  /** The operand in the slot has its own level walked first. */
  function WalkInside(op: Op, root: Expr, p: Path): (r: (Expr, nat))
    requires IsOp(op, root) && IsLeaf(op, root, p)
    ensures SameShape(op, root, r.0) && Size(r.0) <= Size(root)
    ensures forall q :: q != p && IsLeaf(op, root, q) ==> IsLeaf(op, r.0, q) && At(op, r.0, q) == At(op, root, q)
    ensures IsLeaf(op, r.0, p)
    decreases Size(root), 0
  {
    var e := At(op, root, p);
    if e.Bin? then
      var (f, n) := Walk(e.op, e, [], []);
      PutShape(op, root, p, f);
      assert forall q :: q != p && IsLeaf(op, root, q) ==>
          IsLeaf(op, Put(op, root, p, f), q) && At(op, Put(op, root, p, f), q) == At(op, root, q) by {
        forall q | q != p && IsLeaf(op, root, q)
          ensures IsLeaf(op, Put(op, root, p, f), q) && At(op, Put(op, root, p, f), q) == At(op, root, q)
        { PutOther(op, root, p, f, q); }
      }
      (Put(op, root, p, f), n)
    else
      SameShapeRefl(op, root);
      (root, 0)
  }

  /** The operands in two slots are replaced by a unit and their join, if they have one. */
  function JoinSlots(op: Op, root: Expr, p: Path, q: Path): (r: (Expr, nat))
    requires IsLeaf(op, root, p) && IsLeaf(op, root, q) && p != q
    ensures SameShape(op, root, r.0) && Size(r.0) <= Size(root)
  {
    var e1, e2 := At(op, root, p), At(op, root, q);
    var tmp := Join(op, e1, e2);
    if tmp.None? then
      SameShapeRefl(op, root);
      (root, 0)
    else
      JoinSize(op, e1, e2);
      PutShape(op, root, p, Sym(UnitSym(op)));
      PutOther(op, root, p, Sym(UnitSym(op)), q);
      var r1 := Put(op, root, p, Sym(UnitSym(op)));
      PutShape(op, r1, q, tmp.value);
      SameShapeTransitive(op, root, r1, Put(op, r1, q, tmp.value));
      (Put(op, r1, q, tmp.value), 1)
  }

  /** After one part of a walk the slots of the level are still there, with levels of the same size in them. */
  lemma Moved(op: Op, a: Expr, b: Expr, p: Path, q: Path)
    requires SameShape(op, a, b) && OnLevel(op, a, p) && OnLevel(op, a, q)
    ensures OnLevel(op, b, p) && OnLevel(op, b, q)
    ensures LevelSize(op, At(op, b, p)) == LevelSize(op, At(op, a, p))
    ensures LevelSize(op, At(op, b, q)) == LevelSize(op, At(op, a, q))
  {
    SameShapeLevel(op, a, b, p);
    SameShapeLevel(op, a, b, q);
    SameShapeSize(op, At(op, a, p), At(op, b, p));
    SameShapeSize(op, At(op, a, q), At(op, b, q));
  }

  predicate Counted(before: Expr, after: Expr, n: nat) {
    if n == 0 then after == before else HasUnit(after)
  }

  lemma CountedCompose(a: Expr, b: Expr, c: Expr, m: nat, n: nat)
    requires Counted(a, b, m) && Counted(b, c, n)
    ensures Counted(a, c, m + n)
  {
  }

  /** A walk that counts nothing changes nothing; one that counts leaves a unit operand behind. */
  lemma {:induction false} WalkCount(op: Op, root: Expr, p: Path, q: Path)
    requires IsOp(op, root) && OnLevel(op, root, p) && OnLevel(op, root, q)
    ensures var (r, n) := Walk(op, root, p, q); Counted(root, r, n)
    decreases Size(root), LevelSize(op, At(op, root, p)) + LevelSize(op, At(op, root, q))
  {
    if IsOp(op, At(op, root, p)) {
      Descend(op, root, p, false);
      Descend(op, root, p, true);
      var (r1, n1) := Walk(op, root, p + [false], q);
      Moved(op, root, r1, p + [true], q);
      WalkCount(op, root, p + [false], q);
      WalkCount(op, r1, p + [true], q);
      var (r2, n2) := Walk(op, r1, p + [true], q);
      CountedCompose(root, r1, r2, n1, n2);
    } else if IsOp(op, At(op, root, q)) {
      Descend(op, root, q, false);
      Descend(op, root, q, true);
      var (r1, n1) := Walk(op, root, p, q + [false]);
      Moved(op, root, r1, p, q + [true]);
      WalkCount(op, root, p, q + [false]);
      WalkCount(op, r1, p, q + [true]);
      var (r2, n2) := Walk(op, r1, p, q + [true]);
      CountedCompose(root, r1, r2, n1, n2);
    } else if p != q {
      var (r1, n1) := WalkInside(op, root, p);
      var (r2, n2) := JoinSlots(op, r1, p, q);
      WalkInsideCount(op, root, p);
      JoinSlotsCount(op, r1, p, q);
      CountedCompose(root, r1, r2, n1, n2);
    }
  }

  lemma {:induction false} WalkInsideCount(op: Op, root: Expr, p: Path)
    requires IsOp(op, root) && IsLeaf(op, root, p)
    ensures var (r, n) := WalkInside(op, root, p); Counted(root, r, n)
    decreases Size(root), 0
  {
    var e := At(op, root, p);
    if e.Bin? {
      WalkCount(e.op, e, [], []);
      PutSelf(op, root, p);
      PutShape(op, root, p, Walk(e.op, e, [], []).0);
      if Walk(e.op, e, [], []).1 > 0 { UnitInSlot(op, WalkInside(op, root, p).0, p); }
    }
  }

  lemma JoinSlotsCount(op: Op, root: Expr, p: Path, q: Path)
    requires IsOp(op, root) && IsLeaf(op, root, p) && IsLeaf(op, root, q) && p != q
    ensures var (r, n) := JoinSlots(op, root, p, q); Counted(root, r, n)
  {
    var tmp := Join(op, At(op, root, p), At(op, root, q));
    if tmp.Some? {
      var unit := Sym(UnitSym(op));
      JoinSize(op, At(op, root, p), At(op, root, q));
      PutShape(op, root, p, unit);
      PutOther(op, root, p, unit, q);
      var r1 := Put(op, root, p, unit);
      PutOther(op, r1, q, tmp.value, p);
      UnitInSlot(op, Put(op, r1, q, tmp.value), p);
    }
  }

  // ----- the value of a walk

  /** No tristate symbol is compared with a constant, other than y, m and n, that one of its values equals. */
  predicate ClashFree(e: Expr) { Tidy(false, e) }

  /** Clash-free, and with `nnf` also free of negations of anything but symbols. */
  predicate Tidy(nnf: bool, e: Expr) {
    match e
    case Sym(_) => true
    case Cmp(_, l, r) => l.Type().Tristate? && r.Const? ==> SpellsNone(r)
    case Neg(a) => (nnf ==> a.Sym?) && Tidy(nnf, a)
    case Bin(_, l, r) => Tidy(nnf, l) && Tidy(nnf, r)
  }

  predicate SpellsNone(c: Symbol)
    requires c.IsConst()
  {
    !Spells(c, NO) && !Spells(c, MOD) && !Spells(c, YES)
  }

  lemma ClashFreeTests(nnf: bool, op: Op, e1: Expr, e2: Expr)
    requires Tidy(nnf, e1) && Tidy(nnf, e2)
    ensures !ClashingTests(op, e1, e2)
  {
    if ClashingTests(op, e1, e2) {
      var v: Tri :| Spells(e1.rhs, v) && Spells(e2.rhs, v);
      if e1.rhs.IsBuiltin() && e2.rhs.IsBuiltin() {
        BuiltinSpells(e1.rhs, v);
        BuiltinSpells(e2.rhs, v);
      }
    }
  }

  lemma JoinTidy(nnf: bool, op: Op, e1: Expr, e2: Expr)
    requires Tidy(nnf, e1) && Tidy(nnf, e2) && Join(op, e1, e2).Some?
    ensures Tidy(nnf, Join(op, e1, e2).value)
  {
    if !Eq(e1, e2) {
      var r := Join(op, e1, e2).value;
      assert r.Cmp? ==>
               r.rhs.IsBuiltin() || (r.lhs == e1.lhs && r.rhs == e1.rhs) || (r.lhs == e2.lhs && r.rhs == e2.rhs);
    }
  }

  lemma {:induction false} AtTidy(nnf: bool, op: Op, e: Expr, p: Path)
    requires OnLevel(op, e, p) && Tidy(nnf, e)
    ensures Tidy(nnf, At(op, e, p))
  {
    if p != [] { AtTidy(nnf, op, Child(e, p[0]), p[1..]); }
  }

  lemma {:induction false} PutTidy(nnf: bool, op: Op, e: Expr, p: Path, x: Expr)
    requires OnLevel(op, e, p) && Tidy(nnf, e) && Tidy(nnf, x)
    ensures Tidy(nnf, Put(op, e, p, x))
  {
    if p != [] { PutTidy(nnf, op, Child(e, p[0]), p[1..], x); }
  }

  /** A walk keeps the value. */
  lemma {:induction false} WalkValue(nnf: bool, op: Op, root: Expr, p: Path, q: Path, env: Env)
    requires IsOp(op, root) && OnLevel(op, root, p) && OnLevel(op, root, q)
    requires Tidy(nnf, root) && ValidEnv(env)
    ensures var r := Walk(op, root, p, q).0; Tidy(nnf, r) && Calc(r, env) == Calc(root, env)
    decreases Size(root), LevelSize(op, At(op, root, p)) + LevelSize(op, At(op, root, q))
  {
    if IsOp(op, At(op, root, p)) {
      Descend(op, root, p, false);
      Descend(op, root, p, true);
      var (r1, n1) := Walk(op, root, p + [false], q);
      Moved(op, root, r1, p + [true], q);
      WalkValue(nnf, op, root, p + [false], q, env);
      WalkValue(nnf, op, r1, p + [true], q, env);
    } else if IsOp(op, At(op, root, q)) {
      Descend(op, root, q, false);
      Descend(op, root, q, true);
      var (r1, n1) := Walk(op, root, p, q + [false]);
      Moved(op, root, r1, p, q + [true]);
      WalkValue(nnf, op, root, p, q + [false], env);
      WalkValue(nnf, op, r1, p, q + [true], env);
    } else if p != q {
      WalkInsideValue(nnf, op, root, p, env);
      JoinSlotsValue(nnf, op, WalkInside(op, root, p).0, p, q, env);
    }
  }

  lemma {:induction false} WalkInsideValue(nnf: bool, op: Op, root: Expr, p: Path, env: Env)
    requires IsOp(op, root) && IsLeaf(op, root, p) && Tidy(nnf, root) && ValidEnv(env)
    ensures var r := WalkInside(op, root, p).0; Tidy(nnf, r) && Calc(r, env) == Calc(root, env)
    decreases Size(root), 0
  {
    var e := At(op, root, p);
    AtTidy(nnf, op, root, p);
    if e.Bin? {
      WalkValue(nnf, e.op, e, [], [], env);
      PutSameValue(op, root, p, Walk(e.op, e, [], []).0, env);
      PutTidy(nnf, op, root, p, Walk(e.op, e, [], []).0);
    }
  }

  lemma JoinSlotsValue(nnf: bool, op: Op, root: Expr, p: Path, q: Path, env: Env)
    requires IsLeaf(op, root, p) && IsLeaf(op, root, q) && p != q && Tidy(nnf, root) && ValidEnv(env)
    ensures var r := JoinSlots(op, root, p, q).0; Tidy(nnf, r) && Calc(r, env) == Calc(root, env)
  {
    var e1, e2 := At(op, root, p), At(op, root, q);
    var tmp := Join(op, e1, e2);
    AtTidy(nnf, op, root, p);
    AtTidy(nnf, op, root, q);
    if tmp.Some? {
      var unit := Sym(UnitSym(op));
      ClashFreeTests(nnf, op, e1, e2);
      JoinExact(op, e1, e2);
      assert JoinKeepsValue(op, e1, e2, env);
      JoinTidy(nnf, op, e1, e2);
      ApplyAssoc(op, Calc(tmp.value, env), YES, YES);
      PutPairValue(op, root, p, q, unit, tmp.value, env);
      PutTidy(nnf, op, root, p, unit);
      PutTidy(nnf, op, Put(op, root, p, unit), q, tmp.value);
    }
  }

  // ----- what is left when nothing was joined

  /** No two operands of any level outside negations can be joined. */
  ghost predicate JoinFree(e: Expr)
    decreases Size(e)
  {
    e.Bin? ==> forall p :: IsLeaf(e.op, e, p) ==> LeafJoinFree(e, p)
  }

  ghost predicate LeafJoinFree(e: Expr, p: Path)
    requires e.Bin? && IsLeaf(e.op, e, p)
    decreases Size(e), 0
  {
    && (p != [] ==> JoinFree(At(e.op, e, p)))
    && forall q :: q != p && IsLeaf(e.op, e, q) ==> Join(e.op, At(e.op, e, p), At(e.op, e, q)).None?
  }

  lemma NextStep(op: Op, root: Expr, p: Path, p': Path)
    requires OnLevel(op, root, p) && IsOp(op, At(op, root, p)) && p <= p' && IsLeaf(op, root, p')
    ensures p + [false] <= p' || p + [true] <= p'
  {
    assert |p| == |p'| ==> p == p';
    if p'[|p|] { assert p + [true] <= p'; } else { assert p + [false] <= p'; }
  }

  lemma {:induction false} LeafBelowLeaf(op: Op, e: Expr, p: Path, p': Path)
    requires IsLeaf(op, e, p) && p <= p' && OnLevel(op, e, p')
    ensures p == p'
  {
    if p != [] {
      assert p[1..] <= p'[1..];
      LeafBelowLeaf(op, Child(e, p[0]), p[1..], p'[1..]);
      assert p == [p[0]] + p[1..] && p' == [p'[0]] + p'[1..];
    }
  }

  /** A walk that counts nothing has found no pair below its two slots to join. */
  lemma {:induction false} WalkZero(op: Op, root: Expr, p: Path, q: Path, p': Path, q': Path)
    requires IsOp(op, root) && OnLevel(op, root, p) && OnLevel(op, root, q)
    requires Walk(op, root, p, q).1 == 0
    requires IsLeaf(op, root, p') && IsLeaf(op, root, q') && p <= p' && q <= q' && p' != q'
    ensures Join(op, At(op, root, p'), At(op, root, q')).None?
    ensures JoinFree(At(op, root, p'))
    decreases Size(root), LevelSize(op, At(op, root, p)) + LevelSize(op, At(op, root, q)), 1
  {
    WalkCount(op, root, p, q);
    if IsOp(op, At(op, root, p)) {
      Descend(op, root, p, false);
      Descend(op, root, p, true);
      NextStep(op, root, p, p');
      WalkCount(op, root, p + [false], q);
      WalkZero(op, root, p + [p'[|p|]], q, p', q');
    } else if IsOp(op, At(op, root, q)) {
      Descend(op, root, q, false);
      Descend(op, root, q, true);
      NextStep(op, root, q, q');
      WalkCount(op, root, p, q + [false]);
      WalkZero(op, root, p, q + [q'[|q|]], p', q');
    } else {
      LeafBelowLeaf(op, root, p, p');
      LeafBelowLeaf(op, root, q, q');
      WalkInsideCount(op, root, p);
      var e := At(op, root, p);
      if e.Bin? { WalkZeroJoinFree(e); }
    }
  }

  lemma {:induction false} WalkZeroJoinFree(e: Expr)
    requires e.Bin? && Walk(e.op, e, [], []).1 == 0
    ensures JoinFree(e)
    decreases Size(e), 2 * LevelSize(e.op, e), 2
  {
    forall p | IsLeaf(e.op, e, p) ensures LeafJoinFree(e, p) {
      forall q | q != p && IsLeaf(e.op, e, q)
        ensures Join(e.op, At(e.op, e, p), At(e.op, e, q)).None?
      {
        WalkZero(e.op, e, [], [], p, q);
      }
      var q := SomeLeaf(e.op, Child(e, !p[0]));
      WalkZero(e.op, e, [], [], p, [!p[0]] + q);
    }
  }

  ghost function SomeLeaf(op: Op, e: Expr): (p: Path)
    ensures IsLeaf(op, e, p)
  {
    if IsOp(op, e) then [false] + SomeLeaf(op, e.left) else []
  }

  // ----- expr_eliminate_dups

  /** No level outside negations has two operands that are equal or overlap. */
  ghost predicate Settled(e: Expr)
    decreases Size(e)
  {
    e.Bin? ==> forall p :: IsLeaf(e.op, e, p) && p != [] ==>
      Settled(At(e.op, e, p)) && forall q :: q != p && IsLeaf(e.op, e, q) ==>
        !Eq(At(e.op, e, p), At(e.op, e, q)) && !Overlap(e.op, At(e.op, e, p), At(e.op, e, q))
  }

  lemma {:induction false} NothingOverlaps(e: Expr)
    requires JoinFree(e)
    ensures Settled(e)
    decreases Size(e)
  {
    if e.Bin? {
      forall p | IsLeaf(e.op, e, p) && p != [] ensures Settled(At(e.op, e, p)) {
        assert LeafJoinFree(e, p);
        NothingOverlaps(At(e.op, e, p));
      }
      forall p, q | IsLeaf(e.op, e, p) && p != [] && q != p && IsLeaf(e.op, e, q)
        ensures !Eq(At(e.op, e, p), At(e.op, e, q)) && !Overlap(e.op, At(e.op, e, p), At(e.op, e, q))
      {
        assert LeafJoinFree(e, p);
        JoinedExactly(e.op, At(e.op, e, p), At(e.op, e, q));
      }
    }
  }

  /** What `expr_eliminate_dups` computes: walk the root level, drop the units, until a walk counts nothing. */
  function Dups(e: Expr): (r: Expr)
    ensures Size(r) <= Size(e)
    decreases Size(e)
  {
    if !e.Bin? then e else
    var (f, n) := Walk(e.op, e, [], []);
    if n == 0 then f
    else
      WalkCount(e.op, e, [], []);
      ElimYNReduces(f);
      Dups(ElimYN(f))
  }

  /** Two operands that cannot be joined, nor anything within them, stay as they are. */
  lemma PairKept(op: Op, l: Expr, r: Expr)
    requires !IsOp(op, l) && !IsOp(op, r) && Join(op, l, r).None? && Join(op, r, l).None?
    requires (l.Bin? ==> Walk(l.op, l, [], []) == (l, 0)) && (r.Bin? ==> Walk(r.op, r, [], []) == (r, 0))
    ensures Walk(op, Bin(op, l, r), [], []) == (Bin(op, l, r), 0) && Dups(Bin(op, l, r)) == Bin(op, l, r)
  {
    hide Join;
    var e, left, right: Path := Bin(op, l, r), [false], [true];
    assert OnLevel(op, e, left) && At(op, e, left) == l && OnLevel(op, e, right) && At(op, e, right) == r;
    assert [] + left == left && [] + right == right;
    assert Put(op, e, left, l) == e && Put(op, e, right, r) == e;
    assert WalkInside(op, e, left) == (e, 0) && WalkInside(op, e, right) == (e, 0);
    assert Walk(op, e, left, left) == (e, 0) && Walk(op, e, left, right) == (e, 0);
    assert Walk(op, e, right, left) == (e, 0) && Walk(op, e, right, right) == (e, 0);
    assert Walk(op, e, left, []) == (e, 0) && Walk(op, e, right, []) == (e, 0);
  }

  /** `expr_eliminate_dups`. The walk never enlarges the tree and a pass that counts leaves a unit behind,
      which the constant elimination removes: so the loop ends. */
  method EliminateDups(e0: Expr) returns (e: Expr)
    ensures e == Dups(e0)
    ensures Settled(e)
    ensures ClashFree(e0) ==> Equivalent(e0, e)
  {
    e := e0;
    while true
      invariant Dups(e) == Dups(e0)
      decreases Size(e)
    {
      var transCount := 0;
      if e.Bin? {
        WalkCount(e.op, e, [], []);
        var (f, n) := Walk(e.op, e, [], []);
        e, transCount := f, n;
      }
      if transCount == 0 { break; }
      ElimYNReduces(e);
      e := ElimYN(e);
    }
    DupsCorrect(e0);
  }

  lemma {:induction false} ElimYNTidy(nnf: bool, e: Expr)
    requires Tidy(nnf, e)
    ensures Tidy(nnf, ElimYN(e))
  {
    if e.Bin? { ElimYNTidy(nnf, e.left); ElimYNTidy(nnf, e.right); }
  }

  lemma {:induction false} DupsValue(nnf: bool, e: Expr, env: Env)
    requires Tidy(nnf, e) && ValidEnv(env)
    ensures Tidy(nnf, Dups(e)) && Calc(Dups(e), env) == Calc(e, env)
    decreases Size(e)
  {
    if e.Bin? {
      var (f, n) := Walk(e.op, e, [], []);
      WalkValue(nnf, e.op, e, [], [], env);
      if n != 0 {
        WalkCount(e.op, e, [], []);
        ElimYNReduces(f);
        ElimYNValue(f, env);
        ElimYNTidy(nnf, f);
        DupsValue(nnf, ElimYN(f), env);
      }
    }
  }

  lemma {:induction false} DupsJoinFree(e: Expr)
    ensures JoinFree(Dups(e))
    ensures Dups(Dups(e)) == Dups(e)
    decreases Size(e)
  {
    if e.Bin? {
      var (f, n) := Walk(e.op, e, [], []);
      WalkCount(e.op, e, [], []);
      if n == 0 {
        WalkZeroJoinFree(e);
      } else {
        ElimYNReduces(f);
        DupsJoinFree(ElimYN(f));
      }
    }
  }

  /** Joining operands to the end keeps the value in every environment, and leaves nothing to join: no operands that are
      equal, none that overlap. */
  lemma DupsCorrect(e: Expr)
    ensures Settled(Dups(e))
    ensures Dups(Dups(e)) == Dups(e)
    ensures ClashFree(e) ==> Equivalent(e, Dups(e))
  {
    hide Settled, JoinFree;
    if ClashFree(e) {
      forall env: Env | ValidEnv(env) ensures Calc(e, env) == Calc(Dups(e), env) { DupsValue(false, e, env); }
    }
    DupsJoinFree(e);
    NothingOverlaps(Dups(e));
  }

  /** The two slots of a pair. */
  lemma PairSlots(op: Op, l: Expr, r: Expr, x: Expr)
    ensures var e := Bin(op, l, r);
            && OnLevel(op, e, [false]) && At(op, e, [false]) == l && Put(op, e, [false], x) == Bin(op, x, r)
            && OnLevel(op, e, [true]) && At(op, e, [true]) == r && Put(op, e, [true], x) == Bin(op, l, x)
  {
    var e, left, right: Path := Bin(op, l, r), [false], [true];
    assert left[1..] == [] && right[1..] == [];
    assert OnLevel(op, l, []) && OnLevel(op, r, []) && At(op, l, []) == l && At(op, r, []) == r;
    assert Put(op, l, [], x) == x && Put(op, r, [], x) == x;
  }

  /** The walk over a pair, from the walks over its four pairs of slots. */
  lemma PairWalk(op: Op, e: Expr, f: Expr, n: nat, g: Expr, m: nat)
    requires !e.Bin? && IsOp(op, f) && !f.left.Bin? && f.right == e && IsOp(op, g)
    requires JoinSlotsOf(op, Bin(op, e, e), [false], [true], f, n) && JoinSlotsOf(op, f, [true], [false], g, m)
    requires !g.left.Bin? && !g.right.Bin?
    ensures Walk(op, Bin(op, e, e), [], []) == (g, n + m)
  {
    hide JoinSlots, WalkInside;
    var both, left, right: Path := Bin(op, e, e), [false], [true];
    assert [] + left == left && [] + right == right;
    PairSlots(op, e, e, e);
    PairSlots(op, f.left, e, e);
    PairSlots(op, g.left, g.right, e);
    InsideLeaf(op, both, left);
    InsideLeaf(op, f, right);
    assert Walk(op, both, left, left) == (both, 0) && Walk(op, both, left, right) == (f, n);
    assert Walk(op, both, left, []) == (f, n);
    assert Walk(op, f, right, left) == (g, m) && Walk(op, g, right, right) == (g, 0);
    assert Walk(op, f, right, []) == (g, m);
  }

  lemma InsideLeaf(op: Op, e: Expr, p: Path)
    requires IsOp(op, e) && IsLeaf(op, e, p) && !At(op, e, p).Bin?
    ensures WalkInside(op, e, p) == (e, 0)
  {
  }

  ghost predicate JoinSlotsOf(op: Op, e: Expr, p: Path, q: Path, f: Expr, n: nat) {
    IsLeaf(op, e, p) && IsLeaf(op, e, q) && p != q && JoinSlots(op, e, p, q) == (f, n)
  }

  /** A condition that is stated twice counts once. */
  lemma DupsTwice(op: Op, e: Expr)
    requires !e.Bin?
    ensures Dups(Bin(op, e, e)) == e
  {
    hide Join, Walk;
    var unit := Sym(UnitSym(op));
    var once := Bin(op, unit, e);
    PairSlots(op, e, e, unit);
    PairSlots(op, unit, e, e);
    PairSlots(op, unit, e, unit);
    EqJoined(op, e);
    UnitJoined(op, e);
    assert JoinSlotsOf(op, Bin(op, e, e), [false], [true], once, 1);
    var m := JoinSlots(op, once, [true], [false]).1;
    assert JoinSlotsOf(op, once, [true], [false], once, m);
    PairWalk(op, e, once, 1, once, m);
    assert ElimYN(once) == e;
  }

  lemma EqJoined(op: Op, e: Expr)
    requires !e.Bin?
    ensures Join(op, e, e) == Some(e)
  {
    EqReflexive(e);
  }

  /** The unit that a join leaves behind is not joined with anything but itself. */
  lemma UnitJoined(op: Op, e: Expr)
    requires !e.Bin?
    ensures Join(op, e, Sym(UnitSym(op))).Some? ==> e == Sym(UnitSym(op))
    ensures Join(op, Sym(UnitSym(op)), Sym(UnitSym(op))) == Some(Sym(UnitSym(op)))
  {
    EqReflexive(Sym(UnitSym(op)));
    JoinedExactly(op, e, Sym(UnitSym(op)));
  }
}
