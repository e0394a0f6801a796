/** Which entries go into an automatic submenu, exactly: those that ask for the symbol, and those whose condition states
    everything that the prompt of the symbol does. */
module Submenus {
  import opened Tristate
  import opened Expressions
  import opened ExprEq
  import opened ExprLevels
  import opened ExprTransform
  import opened ExprDups
  import opened ExprEqOrder
  import opened MenuDeps

  // ----- conjuncts and how often they occur

  /** Some operand of the && level is equal to x. */
  ghost predicate HasConjunct(e: Expr, x: Expr) {
    exists p :: IsLeaf(OpAnd, e, p) && Eq(x, At(OpAnd, e, p))
  }

  lemma {:induction false} Occurs(op: Op, e: Expr, x: Expr) returns (p: Path)
    requires Count(op, e, x) > 0
    ensures IsLeaf(op, e, p) && Eq(x, At(op, e, p))
  {
    if IsOp(op, e) {
      var right := Count(op, e.left, x) == 0;
      var q := Occurs(op, Child(e, right), x);
      p := [right] + q;
      assert p[1..] == q;
    } else {
      p := [];
    }
  }

  lemma {:induction false} OccursTwice(op: Op, e: Expr, x: Expr) returns (p: Path, q: Path)
    requires Count(op, e, x) > 1
    ensures p != q && IsLeaf(op, e, p) && Eq(x, At(op, e, p)) && IsLeaf(op, e, q) && Eq(x, At(op, e, q))
  {
    if Count(op, e.left, x) > 0 && Count(op, e.right, x) > 0 {
      var l := Occurs(op, e.left, x);
      var r := Occurs(op, e.right, x);
      p, q := [false] + l, [true] + r;
      assert p[0] != q[0] && p[1..] == l && q[1..] == r;
    } else {
      var right := Count(op, e.left, x) == 0;
      var l, r := OccursTwice(op, Child(e, right), x);
      p, q := [right] + l, [right] + r;
      assert p[1..] == l && q[1..] == r;
    }
  }

  lemma {:induction false} OccursCounts(op: Op, e: Expr, x: Expr, p: Path)
    requires IsLeaf(op, e, p) && Eq(x, At(op, e, p))
    ensures Count(op, e, x) > 0
    decreases |p|
  {
    if p != [] { OccursCounts(op, Child(e, p[0]), x, p[1..]); }
  }

  lemma {:induction false} OperandFree(op: Op, e: Expr, p: Path)
    requires OnLevel(op, e, p) && Free(e) && !IsYN(e)
    ensures Free(At(op, e, p)) && !IsYN(At(op, e, p))
    decreases |p|
  {
    if p != [] { OperandFree(op, Child(e, p[0]), p[1..]); }
  }

  lemma AtMostOnce(e: Expr, x: Expr)
    requires Settled(e) && Free(e) && !IsYN(e) && Free(x)
    ensures Count(OpAnd, e, x) <= 1
  {
    hide Eq, Free;
    if Count(OpAnd, e, x) > 1 {
      var p, q := OccursTwice(OpAnd, e, x);
      OperandFree(OpAnd, e, p);
      OperandFree(OpAnd, e, q);
      EqEquivalence(x, At(OpAnd, e, p), x);
      EqEquivalence(At(OpAnd, e, p), x, At(OpAnd, e, q));
    }
  }

  /** Where nothing is stated twice, it comes down to single conjuncts. */
  lemma CoversConjuncts(e1: Expr, e2: Expr)
    requires Free(e1) && !IsYN(e1) && Free(e2) && !IsYN(e2) && Settled(e2)
    ensures Covers(OpAnd, e1, e2) <==> forall q :: IsLeaf(OpAnd, e2, q) ==> HasConjunct(e1, At(OpAnd, e2, q))
  {
    hide Eq, Free, Count, Settled;
    if Covers(OpAnd, e1, e2) {
      forall q | IsLeaf(OpAnd, e2, q) ensures HasConjunct(e1, At(OpAnd, e2, q)) {
        var x := At(OpAnd, e2, q);
        OperandFree(OpAnd, e2, q);
        EqReflexive(x);
        OccursCounts(OpAnd, e2, x, q);
        var p := Occurs(OpAnd, e1, x);
      }
    }
    if forall q :: IsLeaf(OpAnd, e2, q) ==> HasConjunct(e1, At(OpAnd, e2, q)) {
      forall x | Free(x) && !IsYN(x) && !IsOp(OpAnd, x) ensures Count(OpAnd, e1, x) >= Count(OpAnd, e2, x) {
        AtMostOnce(e2, x);
        if Count(OpAnd, e2, x) == 1 {
          var q := Occurs(OpAnd, e2, x);
          var p :| IsLeaf(OpAnd, e1, p) && Eq(At(OpAnd, e2, q), At(OpAnd, e1, p));
          OperandFree(OpAnd, e1, p);
          OperandFree(OpAnd, e2, q);
          EqEquivalence(x, At(OpAnd, e2, q), At(OpAnd, e1, p));
          OccursCounts(OpAnd, e1, x, p);
        }
      }
    }
  }

  // ----- conditions whose footing holds no constants

  /** No operand is y or n, and no bool symbol is compared with m, a test that is decided beforehand. */
  predicate Undecided(e: Expr) {
    match e
    case Sym(s) => !s.SymYes? && !s.SymNo?
    case Cmp(rel, l, r) => !(l.Type().Boolean? && (rel.Equal? || rel.Unequal?) && r.SymMod?)
    case Neg(a) => Undecided(a)
    case Bin(_, l, r) => Undecided(l) && Undecided(r)
  }

  /** No bool symbol is compared with m; constants may be operands. */
  predicate NoModTest(e: Expr) {
    match e
    case Sym(_) => true
    case Cmp(_, _, _) => Undecided(e)
    case Neg(a) => NoModTest(a)
    case Bin(_, l, r) => NoModTest(l) && NoModTest(r)
  }

  lemma {:induction false} ComparedUndecided(e: Expr, equal: bool)
    requires NoModTest(e)
    ensures Undecided(TransCompareNo(e, equal))
  {
    match e
    case Sym(_) =>
    case Cmp(_, _, _) =>
    case Neg(a) => ComparedUndecided(a, !equal);
    case Bin(_, l, r) => ComparedUndecided(l, true); ComparedUndecided(r, true);
  }

  lemma {:induction false} TransformUndecided(e: Expr)
    requires Undecided(e)
    ensures Undecided(Transform(e))
    decreases Weight(e)
  {
    match e
    case Sym(_) =>
    case Cmp(_, _, _) =>
    case Bin(_, l, r) => TransformUndecided(l); TransformUndecided(r);
    case Neg(a0) =>
      WeightPositive(a0);
      TransformUndecided(a0);
      var a := Transform(a0);
      match a {
        case Neg(b) => WeightPositive(b); TransformUndecided(b);
        case Bin(op, l, r) => DeMorganLowers(op, l, r); TransformUndecided(Bin(Dual(op), Neg(l), Neg(r)));
        case _ =>
      }
  }

  lemma {:induction false} UndecidedYNFree(e: Expr)
    requires Undecided(e)
    ensures YNFree(e) && !IsYN(e)
  {
    if e.Bin? { UndecidedYNFree(e.left); UndecidedYNFree(e.right); }
  }

  lemma {:induction false} DupsYNFree(e: Expr)
    requires YNFree(e)
    ensures YNFree(Dups(e))
    decreases Size(e)
  {
    if e.Bin? {
      var (f, n) := Walk(e.op, e, [], []);
      WalkCount(e.op, e, [], []);
      ElimYNReduces(f);
      if n > 0 { DupsYNFree(ElimYN(f)); }
    }
  }

  // ----- joining operands negates nothing but symbols

  lemma {:induction false} NormalPushed(e: Expr)
    requires Normal(e)
    ensures Pushed(e)
  {
    if e.Bin? { NormalPushed(e.left); NormalPushed(e.right); }
  }

  lemma JoinPushed(op: Op, e1: Expr, e2: Expr)
    requires Pushed(e1) && Pushed(e2) && Join(op, e1, e2).Some?
    ensures Pushed(Join(op, e1, e2).value)
  {
    hide Eq;
    var r := Join(op, e1, e2).value;
    assert r == e1 || !r.Bin?;
  }

  lemma {:induction false} AtPushed(op: Op, e: Expr, p: Path)
    requires OnLevel(op, e, p) && Pushed(e)
    ensures Pushed(At(op, e, p))
  {
    if p != [] { AtPushed(op, Child(e, p[0]), p[1..]); }
  }

  lemma {:induction false} PutPushed(op: Op, e: Expr, p: Path, x: Expr)
    requires OnLevel(op, e, p) && Pushed(e) && Pushed(x)
    ensures Pushed(Put(op, e, p, x))
  {
    if p != [] { PutPushed(op, Child(e, p[0]), p[1..], x); }
  }

  lemma {:induction false} WalkPushed(op: Op, root: Expr, p: Path, q: Path)
    requires IsOp(op, root) && OnLevel(op, root, p) && OnLevel(op, root, q) && Pushed(root)
    ensures Pushed(Walk(op, root, p, q).0)
    decreases Size(root), LevelSize(op, At(op, root, p)) + LevelSize(op, At(op, root, q))
  {
    hide Pushed;
    if IsOp(op, At(op, root, p)) {
      Descend(op, root, p, false);
      Descend(op, root, p, true);
      var r1 := Walk(op, root, p + [false], q).0;
      Moved(op, root, r1, p + [true], q);
      WalkPushed(op, root, p + [false], q);
      WalkPushed(op, r1, p + [true], q);
    } else if IsOp(op, At(op, root, q)) {
      Descend(op, root, q, false);
      Descend(op, root, q, true);
      var r1 := Walk(op, root, p, q + [false]).0;
      Moved(op, root, r1, p, q + [true]);
      WalkPushed(op, root, p, q + [false]);
      WalkPushed(op, r1, p, q + [true]);
    } else if p != q {
      WalkInsidePushed(op, root, p);
      JoinSlotsPushed(op, WalkInside(op, root, p).0, p, q);
    }
  }

  lemma {:induction false} WalkInsidePushed(op: Op, root: Expr, p: Path)
    requires IsOp(op, root) && IsLeaf(op, root, p) && Pushed(root)
    ensures Pushed(WalkInside(op, root, p).0)
    decreases Size(root), 0
  {
    var e := At(op, root, p);
    AtPushed(op, root, p);
    if e.Bin? {
      WalkPushed(e.op, e, [], []);
      PutPushed(op, root, p, Walk(e.op, e, [], []).0);
    }
  }

  lemma JoinSlotsPushed(op: Op, root: Expr, p: Path, q: Path)
    requires IsLeaf(op, root, p) && IsLeaf(op, root, q) && p != q && Pushed(root)
    ensures Pushed(JoinSlots(op, root, p, q).0)
  {
    var tmp, unit := Join(op, At(op, root, p), At(op, root, q)), Sym(UnitSym(op));
    AtPushed(op, root, p);
    AtPushed(op, root, q);
    if tmp.Some? {
      JoinPushed(op, At(op, root, p), At(op, root, q));
      PutPushed(op, root, p, unit);
      PutShape(op, root, p, unit);
      PutOther(op, root, p, unit, q);
      PutPushed(op, Put(op, root, p, unit), q, tmp.value);
    }
  }

  lemma {:induction false} ElimYNPushed(e: Expr)
    requires Pushed(e)
    ensures Pushed(ElimYN(e))
  {
    if e.Bin? { ElimYNPushed(e.left); ElimYNPushed(e.right); }
  }

  lemma {:induction false} DupsPushed(e: Expr)
    requires Pushed(e)
    ensures Pushed(Dups(e))
    decreases Size(e)
  {
    if e.Bin? {
      var (f, n) := Walk(e.op, e, [], []);
      WalkPushed(e.op, e, [], []);
      if n != 0 {
        WalkCount(e.op, e, [], []);
        ElimYNReduces(f);
        ElimYNPushed(f);
        DupsPushed(ElimYN(f));
      }
    }
  }

  lemma {:induction false} PushedFree(e: Expr)
    requires Pushed(e) && YNFree(e)
    ensures Free(e)
  {
    if e.Bin? { PushedFree(e.left); PushedFree(e.right); }
  }

  /** No bool symbol is tested for m in the condition. */
  predicate Plain(e: Option<Expr>) { e.Some? ==> NoModTest(e.value) }

  /** Then what the superset test looks at has no constants for operands, and states nothing twice. */
  lemma FootingFree(e: Option<Expr>)
    requires Plain(e)
    ensures Free(Footing(e)) && Settled(Footing(e))
  {
    hide Settled, NoModTest, Normal, Transform, Dups, TransCompareNo;
    if e.None? {
      NoFooting();
    } else {
      var c := TransCompareNo(e.value, false);
      ComparedUndecided(e.value, false);
      TransformUndecided(c);
      UndecidedYNFree(Transform(c));
      DupsYNFree(Transform(c));
      TransformNormal(c);
      NormalPushed(Transform(c));
      DupsPushed(Transform(c));
      PushedFree(Footing(e));
    }
    DupsCorrect(Transform(TransCompareNoOpt(e)));
  }

  // ----- the automatic submenu

  /** The condition says all that the prompt says: each conjunct of the prompt's is one of its own. */
  ghost predicate SaysAll(dep: Option<Expr>, visible: Option<Expr>) {
    || Footing(visible) == Sym(SymYes)
    || (IsOp(OpAnd, Footing(dep)) &&
        forall q :: IsLeaf(OpAnd, Footing(visible), q) ==> HasConjunct(Footing(dep), At(OpAnd, Footing(visible), q)))
  }

  /** An entry belongs to the submenu of a symbol if and only if its condition mentions the symbol and, besides, has a
      conjunct that asks for it or says all that the condition of the symbol's prompt does. */
  lemma SubmenuExactly(s: Symbol, visible: Option<Expr>, dep: Option<Expr>)
    requires s.Var? && Plain(visible) && Plain(dep)
    ensures InSubmenu(s, visible, dep) <==>
            dep.Some? && s in Vars(dep.value) && ((exists p :: AskedAt(dep.value, s, p)) || SaysAll(dep, visible))
  {
    hide Footing, Vars, AskedAt, Eq, Free, Plain, HasConjunct, ElimEq, Settled, SaysAll;
    FootingFree(visible);
    FootingFree(dep);
    SaysAllExactly(dep, visible);
    if dep.Some? {
      MentionedIn(dep.value, s);
      ConjunctAsks(dep.value, s);
    }
  }

  lemma SaysAllExactly(dep: Option<Expr>, visible: Option<Expr>)
    requires Free(Footing(visible)) && Settled(Footing(visible)) && Free(Footing(dep))
    ensures IsYes(ElimEq(Footing(dep), Footing(visible)).1) <==> SaysAll(dep, visible)
  {
    hide Footing, Eq, Free, ElimEq, Settled, Covers;
    var e1, e2 := Footing(dep), Footing(visible);
    if e2 == Sym(SymYes) {
      NothingEliminated(e1);
    } else if e2 == Sym(SymNo) {
      NoStays(e1);
      if IsOp(OpAnd, e1) { NoConjunct(e1); }
    } else {
      SupersetExactly(e1, e2);
      if IsOp(OpAnd, e1) { CoversConjuncts(e1, e2); }
    }
  }

  lemma NoStays(e: Expr)
    requires Free(e)
    ensures ElimEq(e, Sym(SymNo)).1 == Sym(SymNo)
  {
    if e.Bin? { WalkOverConstants(e.op, e, Sym(SymNo)); }
  }

  /** No conjunct is n. */
  lemma NoConjunct(e: Expr)
    requires Free(e) && IsOp(OpAnd, e)
    ensures IsLeaf(OpAnd, Sym(SymNo), []) && !HasConjunct(e, At(OpAnd, Sym(SymNo), []))
  {
    forall p | IsLeaf(OpAnd, e, p) ensures !Eq(Sym(SymNo), At(OpAnd, e, p)) { OperandFree(OpAnd, e, p); }
  }
}
