/** What `expr_eq` means: on expressions without the constants y and n among their operands, it is equality up to the
    order and the grouping of operands. */
module ExprEqOrder {
  import opened Tristate
  import opened Expressions
  import opened ExprEq
  import opened ExprLevels

  /** No y or n is an operand of && or ||, not even below a negation. */
  predicate Free(e: Expr) {
    match e
    case Neg(a) => Free(a)
    case Bin(_, l, r) => !IsYN(l) && !IsYN(r) && Free(l) && Free(r)
    case _ => true
  }

  /** How many operands of the `op` level are equal to x. */
  function Count(op: Op, e: Expr, x: Expr): nat {
    if IsOp(op, e) then Count(op, e.left, x) + Count(op, e.right, x) else if Eq(x, e) then 1 else 0
  }

  /** Something that can be an operand of an `op` level, of at most n nodes. */
  predicate Operand(op: Op, x: Expr, n: nat) { Free(x) && !IsYN(x) && !IsOp(op, x) && Size(x) <= n }

  /** Up to n nodes, equality is symmetric and transitive. */
  ghost predicate Equivalence(n: nat) {
    && (forall a, b :: Free(a) && Free(b) && Size(a) <= n && Size(b) <= n && Eq(a, b) ==> Eq(b, a))
    && (forall a, b, c ::
          Free(a) && Free(b) && Free(c) && Size(a) <= n && Size(b) <= n && Size(c) <= n && Eq(a, b) && Eq(b, c) ==>
          Eq(a, c))
  }

  /** Every operand of the level is one of at most n nodes, or the unit that a walk has left. */
  predicate Ready(op: Op, e: Expr, n: nat) {
    if IsOp(op, e) then Ready(op, e.left, n) && Ready(op, e.right, n) else e == Sym(UnitSym(op)) || Operand(op, e, n)
  }

  lemma {:induction false} FreeReady(op: Op, e: Expr, n: nat)
    requires Free(e) && !IsYN(e) && (if IsOp(op, e) then Size(e) <= n + 1 else Size(e) <= n)
    ensures Ready(op, e, n)
  {
    if IsOp(op, e) {
      FreeReady(op, e.left, n);
      FreeReady(op, e.right, n);
    }
  }

  /** What is left of `a` when as many as possible of `b` are taken away. */
  function Less(a: nat, b: nat): nat { if a <= b then 0 else a - b }

  lemma LeafCounts(op: Op, e1: Expr, e2: Expr, x: Expr, n: nat)
    requires Equivalence(n) && Operand(op, x, n)
    requires Ready(op, e1, n) && Ready(op, e2, n) && !IsOp(op, e1) && !IsOp(op, e2)
    ensures !Eq(e1, e2) ==> Count(op, e1, x) == 0 || Count(op, e2, x) == 0
    ensures Eq(e1, e2) ==> Count(op, e1, x) == Count(op, e2, x)
  {
    UnitCount(op, x);
    if Eq(x, e1) && Eq(x, e2) {
      assert Eq(e1, x);
    }
    if Eq(e1, e2) { assert e1 != Sym(UnitSym(op)) && e2 != Sym(UnitSym(op)) ==> Eq(e2, e1); }
  }

  lemma UnitCount(op: Op, x: Expr)
    requires !IsYN(x)
    ensures Count(op, Sym(UnitSym(op)), x) == 0
  {
  }

  lemma LessSplit(a: nat, b: nat, c: nat)
    ensures Less(a, c) + Less(b, Less(c, a)) == Less(a + b, c) && Less(Less(c, a), b) == Less(c, a + b)
  {
  }

  ghost predicate Taken(op: Op, e1: Expr, e2: Expr, f1: Expr, f2: Expr, x: Expr, n: nat) {
    && Ready(op, f1, n) && Ready(op, f2, n)
    && Count(op, f1, x) == Less(Count(op, e1, x), Count(op, e2, x))
    && Count(op, f2, x) == Less(Count(op, e2, x), Count(op, e1, x))
  }

  lemma WalkLeafCounts(op: Op, e1: Expr, e2: Expr, x: Expr, n: nat)
    requires Equivalence(n) && Operand(op, x, n) && Ready(op, e1, n) && Ready(op, e2, n)
    requires !IsOp(op, e1) && !IsOp(op, e2)
    ensures var (f1, f2) := ElimEqWalk(op, e1, e2); Taken(op, e1, e2, f1, f2, x, n)
  {
    hide Equivalence, Eq, Free;
    LeafCounts(op, e1, e2, x, n);
    UnitCount(op, x);
  }

  lemma {:induction false} WalkReady(op: Op, e1: Expr, e2: Expr, n: nat)
    requires Equivalence(n) && Ready(op, e1, n) && Ready(op, e2, n)
    ensures var (f1, f2) := ElimEqWalk(op, e1, e2); Ready(op, f1, n) && Ready(op, f2, n)
    decreases Size(e1) + Size(e2), WalkRank(op, e1, e2)
  {
    hide Equivalence, Eq, Free, Operand;
    if IsOp(op, e1) {
      WalkReady(op, e1.left, e2, n);
      WalkReady(op, e1.right, ElimEqWalk(op, e1.left, e2).1, n);
    } else if IsOp(op, e2) {
      WalkReady(op, e1, e2.left, n);
      WalkReady(op, ElimEqWalk(op, e1, e2.left).0, e2.right, n);
    }
  }

  /** Two walks in a row, over the two operands of one side. */
  lemma TakenTwice(op: Op, e: Expr, c: Expr, l: Expr, f: Expr, r: Expr, g: Expr, x: Expr, n: nat)
    requires IsOp(op, e) && Taken(op, e.left, c, l, f, x, n) && Taken(op, e.right, f, r, g, x, n)
    ensures Taken(op, e, c, Bin(op, l, r), g, x, n)
  {
    hide Operand, Eq;
    LessSplit(Count(op, e.left, x), Count(op, e.right, x), Count(op, c, x));
  }

  lemma TakenSwapped(op: Op, e1: Expr, e2: Expr, f1: Expr, f2: Expr, x: Expr, n: nat)
    requires Taken(op, e1, e2, f1, f2, x, n)
    ensures Taken(op, e2, e1, f2, f1, x, n)
  {
  }

  /** A walk takes as many operands equal to x from both levels as there are in the one that has fewer of them. */
  lemma {:induction false} WalkCounts(op: Op, e1: Expr, e2: Expr, x: Expr, n: nat)
    requires Equivalence(n) && Operand(op, x, n) && Ready(op, e1, n) && Ready(op, e2, n)
    ensures var (f1, f2) := ElimEqWalk(op, e1, e2); Taken(op, e1, e2, f1, f2, x, n)
    decreases Size(e1) + Size(e2), WalkRank(op, e1, e2)
  {
    hide Equivalence, Eq, Free, Operand, Taken, Count;
    if IsOp(op, e1) {
      var (l, f) := ElimEqWalk(op, e1.left, e2);
      var (r, g) := ElimEqWalk(op, e1.right, f);
      WalkCounts(op, e1.left, e2, x, n);
      WalkReady(op, e1.left, e2, n);
      WalkCounts(op, e1.right, f, x, n);
      TakenTwice(op, e1, e2, l, f, r, g, x, n);
    } else if IsOp(op, e2) {
      var (f, l) := ElimEqWalk(op, e1, e2.left);
      var (g, r) := ElimEqWalk(op, f, e2.right);
      WalkCounts(op, e1, e2.left, x, n);
      WalkReady(op, e1, e2.left, n);
      WalkCounts(op, f, e2.right, x, n);
      TakenSwapped(op, e1, e2.left, f, l, x, n);
      TakenSwapped(op, f, e2.right, g, r, x, n);
      TakenTwice(op, e2, e1, l, f, r, g, x, n);
      TakenSwapped(op, e2, e1, Bin(op, l, r), g, x, n);
    } else {
      WalkLeafCounts(op, e1, e2, x, n);
    }
  }

  // ----- what is left of a level when the units are dropped

  predicate AllUnits(op: Op, e: Expr) {
    if IsOp(op, e) then AllUnits(op, e.left) && AllUnits(op, e.right) else e == Sym(UnitSym(op))
  }

  lemma {:induction false} FreeYNFree(e: Expr)
    requires Free(e)
    ensures YNFree(e)
  {
    if e.Bin? { FreeYNFree(e.left); FreeYNFree(e.right); }
  }

  /** The unit is left if all operands were units; and otherwise, if a symbol is left, it was an operand. */
  lemma {:induction false} UnitsDropped(op: Op, e: Expr, n: nat)
    requires Ready(op, e, n)
    ensures AllUnits(op, e) <==> ElimYN(e) == Sym(UnitSym(op))
    ensures !IsYN(ElimYN(e)) || ElimYN(e) == Sym(UnitSym(op))
    ensures !AllUnits(op, e) && ElimYN(e).Sym? ==> Operand(op, ElimYN(e), n) && Count(op, e, ElimYN(e)) > 0
  {
    if IsOp(op, e) {
      UnitsDropped(op, e.left, n);
      UnitsDropped(op, e.right, n);
    } else {
      if e != Sym(UnitSym(op)) { FreeYNFree(e); }
      ElimYNReduces(e);
      EqReflexive(e);
    }
  }

  lemma {:induction false} UnitsCount(op: Op, e: Expr, x: Expr)
    requires AllUnits(op, e) && !IsYN(x)
    ensures Count(op, e, x) == 0
  {
    if IsOp(op, e) {
      UnitsCount(op, e.left, x);
      UnitsCount(op, e.right, x);
    } else {
      UnitCount(op, x);
    }
  }

  lemma {:induction false} SomeOperand(op: Op, e: Expr, n: nat) returns (x: Expr)
    requires Ready(op, e, n) && !AllUnits(op, e)
    ensures Operand(op, x, n) && Count(op, e, x) > 0
  {
    if IsOp(op, e) {
      x := SomeOperand(op, if AllUnits(op, e.left) then e.right else e.left, n);
    } else {
      x := e;
      EqReflexive(e);
    }
  }

  /** Both levels have as many operands equal to each x. */
  ghost predicate SameCounts(op: Op, e1: Expr, e2: Expr, n: nat) {
    forall x :: Operand(op, x, n) ==> Count(op, e1, x) == Count(op, e2, x)
  }

  lemma EqCounts(op: Op, e1: Expr, e2: Expr, n: nat)
    requires Equivalence(n) && Ready(op, e1, n) && Ready(op, e2, n) && IsOp(op, e1) && IsOp(op, e2)
    ensures Eq(e1, e2) <==> SameCounts(op, e1, e2, n)
  {
    hide Equivalence, Ready, Count, Operand, ElimEqWalk, ElimYN;
    var (f1, f2) := ElimEqWalk(op, e1, e2);
    WalkReady(op, e1, e2, n);
    UnitsDropped(op, f1, n);
    UnitsDropped(op, f2, n);
    if Eq(e1, e2) {
      if !AllUnits(op, f1) {
        WalkCounts(op, e1, e2, ElimYN(f1), n);
      }
      forall x | Operand(op, x, n) ensures Count(op, e1, x) == Count(op, e2, x) {
        OperandNotYN(op, x, n);
        WalkCounts(op, e1, e2, x, n);
        UnitsCount(op, f1, x);
        UnitsCount(op, f2, x);
      }
    }
    if SameCounts(op, e1, e2, n) {
      if !AllUnits(op, f1) {
        var x := SomeOperand(op, f1, n);
        WalkCounts(op, e1, e2, x, n);
      }
      if !AllUnits(op, f2) {
        var x := SomeOperand(op, f2, n);
        WalkCounts(op, e1, e2, x, n);
      }
    }
  }

  lemma OperandNotYN(op: Op, x: Expr, n: nat)
    requires Operand(op, x, n)
    ensures !IsYN(x)
  {
  }

  lemma EquivalenceStep(n: nat)
    requires Equivalence(n)
    ensures Equivalence(n + 1)
  {
    forall a, b | Free(a) && Free(b) && Size(a) <= n + 1 && Size(b) <= n + 1 && Eq(a, b) ensures Eq(b, a) {
      SymmetricStep(a, b, n);
    }
    forall a, b, c | Free(a) && Free(b) && Free(c) && Size(a) <= n + 1 && Size(b) <= n + 1 && Size(c) <= n + 1 &&
                     Eq(a, b) && Eq(b, c)
      ensures Eq(a, c)
    {
      TransitiveStep(a, b, c, n);
    }
  }

  lemma SymmetricStep(a: Expr, b: Expr, n: nat)
    requires Equivalence(n) && Free(a) && Free(b) && Size(a) <= n + 1 && Size(b) <= n + 1 && Eq(a, b)
    ensures Eq(b, a)
  {
    if a.Bin? {
      hide Equivalence;
      FreeReady(a.op, a, n);
      FreeReady(a.op, b, n);
      EqCounts(a.op, a, b, n);
      EqCounts(a.op, b, a, n);
    }
  }

  lemma TransitiveStep(a: Expr, b: Expr, c: Expr, n: nat)
    requires Equivalence(n) && Free(a) && Free(b) && Free(c) && Size(a) <= n + 1 && Size(b) <= n + 1 && Size(c) <= n + 1
    requires Eq(a, b) && Eq(b, c)
    ensures Eq(a, c)
  {
    if a.Bin? {
      hide Equivalence;
      FreeReady(a.op, a, n);
      FreeReady(a.op, b, n);
      FreeReady(a.op, c, n);
      EqCounts(a.op, a, b, n);
      EqCounts(a.op, b, c, n);
      EqCounts(a.op, a, c, n);
    }
  }

  lemma {:induction false} EquivalenceAll(n: nat)
    ensures Equivalence(n)
  {
    if n == 0 {
      forall e: Expr ensures Size(e) > 0 {}
    } else {
      EquivalenceAll(n - 1);
      EquivalenceStep(n - 1);
    }
  }

  // ----- the results

  /** On expressions without constants among their operands `expr_eq` is an equivalence. */
  lemma EqEquivalence(a: Expr, b: Expr, c: Expr)
    requires Free(a) && Free(b) && Free(c)
    ensures Eq(a, a) && (Eq(a, b) ==> Eq(b, a)) && (Eq(a, b) && Eq(b, c) ==> Eq(a, c))
  {
    EqReflexive(a);
    EquivalenceAll(Size(a) + Size(b) + Size(c));
  }

  /** As often in both levels. */
  ghost predicate AsOften(op: Op, e1: Expr, e2: Expr) {
    forall x :: Free(x) && !IsYN(x) && !IsOp(op, x) ==> Count(op, e1, x) == Count(op, e2, x)
  }

  lemma SameAsOften(op: Op, e1: Expr, e2: Expr)
    ensures AsOften(op, e1, e2) <==> forall n: nat :: SameCounts(op, e1, e2, n)
  {
    hide Count;
    if forall n: nat :: SameCounts(op, e1, e2, n) {
      forall x | Free(x) && !IsYN(x) && !IsOp(op, x) ensures Count(op, e1, x) == Count(op, e2, x) {
        assert SameCounts(op, e1, e2, Size(x)) && Operand(op, x, Size(x));
      }
    }
  }

  /** Two levels are equal exactly if every operand occurs as often in one as in the other, up to equality: neither
      order nor grouping matters, but repetitions do. */
  lemma EqExactly(op: Op, e1: Expr, e2: Expr)
    requires Free(e1) && Free(e2) && IsOp(op, e1) && IsOp(op, e2)
    ensures Eq(e1, e2) <==> AsOften(op, e1, e2)
  {
    hide Eq, Free, Count, AsOften, SameCounts, Equivalence;
    var least := Size(e1) + Size(e2);
    SameAsOften(op, e1, e2);
    EqCountsUpTo(op, e1, e2, least);
    forall n: nat ensures Eq(e1, e2) ==> SameCounts(op, e1, e2, n) {
      EqCountsUpTo(op, e1, e2, least + n);
      SameCountsBelow(op, e1, e2, n, least + n);
    }
  }

  lemma SameCountsBelow(op: Op, e1: Expr, e2: Expr, n: nat, m: nat)
    requires n <= m
    ensures SameCounts(op, e1, e2, m) ==> SameCounts(op, e1, e2, n)
  {
    hide Count;
    if SameCounts(op, e1, e2, m) {
      forall x | Operand(op, x, n) ensures Count(op, e1, x) == Count(op, e2, x) { assert Operand(op, x, m); }
    }
  }

  lemma EqCountsUpTo(op: Op, e1: Expr, e2: Expr, n: nat)
    requires Free(e1) && Free(e2) && IsOp(op, e1) && IsOp(op, e2) && Size(e1) + Size(e2) <= n
    ensures Eq(e1, e2) <==> SameCounts(op, e1, e2, n)
  {
    EquivalenceAll(n);
    FreeReady(op, e1, n);
    FreeReady(op, e2, n);
    EqCounts(op, e1, e2, n);
  }

  lemma CountTwo(op: Op, l: Expr, r: Expr, x: Expr)
    ensures Count(op, Bin(op, l, r), x) == Count(op, l, x) + Count(op, r, x)
  {
  }

  lemma FreeTwo(op: Op, l: Expr, r: Expr)
    requires Free(l) && Free(r) && !IsYN(l) && !IsYN(r)
    ensures Free(Bin(op, l, r)) && !IsYN(Bin(op, l, r))
  {
  }

  lemma EqSwapped(op: Op, a: Expr, b: Expr)
    requires Free(a) && Free(b) && !IsYN(a) && !IsYN(b)
    ensures Eq(Bin(op, a, b), Bin(op, b, a))
  {
    hide Eq, Count, Free;
    FreeTwo(op, a, b);
    FreeTwo(op, b, a);
    forall x ensures Count(op, Bin(op, a, b), x) == Count(op, Bin(op, b, a), x) {
      CountTwo(op, a, b, x);
      CountTwo(op, b, a, x);
    }
    EqExactly(op, Bin(op, a, b), Bin(op, b, a));
  }

  /** In particular operands may change places and be grouped in another way. */
  lemma EqReordered(op: Op, a: Expr, b: Expr, c: Expr)
    requires Free(a) && Free(b) && Free(c) && !IsYN(a) && !IsYN(b) && !IsYN(c)
    ensures Eq(Bin(op, a, b), Bin(op, b, a))
    ensures Eq(Bin(op, Bin(op, a, b), c), Bin(op, a, Bin(op, b, c)))
  {
    hide Eq, Count, Free;
    EqSwapped(op, a, b);
    FreeTwo(op, a, b);
    FreeTwo(op, b, c);
    FreeTwo(op, Bin(op, a, b), c);
    FreeTwo(op, a, Bin(op, b, c));
    forall x ensures Count(op, Bin(op, Bin(op, a, b), c), x) == Count(op, Bin(op, a, Bin(op, b, c)), x) {
      CountTwo(op, a, b, x);
      CountTwo(op, b, c, x);
      CountTwo(op, Bin(op, a, b), c, x);
      CountTwo(op, a, Bin(op, b, c), x);
    }
    EqExactly(op, Bin(op, Bin(op, a, b), c), Bin(op, a, Bin(op, b, c)));
  }

  /** And equals may be put for equals. */
  lemma EqReplaced(op: Op, a: Expr, b: Expr, a': Expr, b': Expr)
    requires Free(a) && Free(b) && Free(a') && Free(b') && !IsYN(a) && !IsYN(b) && !IsYN(a') && !IsYN(b')
    requires Eq(a, a') && Eq(b, b')
    ensures Eq(Bin(op, a, b), Bin(op, a', b'))
  {
    hide Eq;
    EqExactly(op, Bin(op, a, b), Bin(op, a', b'));
    EqAsOften(op, a, a');
    EqAsOften(op, b, b');
  }

  lemma EqAsOften(op: Op, e: Expr, f: Expr)
    requires Free(e) && Free(f) && Eq(e, f)
    ensures AsOften(op, e, f)
  {
    if IsOp(op, e) {
      EqExactly(op, e, f);
    } else {
      forall x | Free(x) && !IsYN(x) && !IsOp(op, x) ensures Count(op, e, x) == Count(op, f, x) {
        EqEquivalence(x, e, f);
        EqEquivalence(x, f, e);
        EqEquivalence(e, f, x);
      }
    }
  }

  /** A walk with an operand that is no level on its left. */
  lemma WalkRight(op: Op, x: Expr, l: Expr, r: Expr, f: Expr, l': Expr, g: Expr, r': Expr)
    requires !IsOp(op, x) && ElimEqWalk(op, x, l) == (f, l') && ElimEqWalk(op, f, r) == (g, r')
    ensures ElimEqWalk(op, x, Bin(op, l, r)) == (g, Bin(op, l', r'))
  {
  }

  lemma WalkLeft(op: Op, l: Expr, r: Expr, e: Expr, l': Expr, f: Expr, r': Expr, g: Expr)
    requires ElimEqWalk(op, l, e) == (l', f) && ElimEqWalk(op, r, f) == (r', g)
    ensures ElimEqWalk(op, Bin(op, l, r), e) == (Bin(op, l', r'), g)
  {
  }

  /** An operand meets itself, or one that is of another kind. */
  lemma Met(op: Op, x: Expr, s: Symbol)
    requires !IsOp(op, x)
    ensures !IsYN(x) ==> ElimEqWalk(op, x, x) == (Sym(UnitSym(op)), Sym(UnitSym(op)))
    ensures x != Sym(s) ==> ElimEqWalk(op, x, Sym(s)) == (x, Sym(s)) && ElimEqWalk(op, Sym(s), x) == (Sym(s), x)
    ensures IsYN(x) ==> ElimEqWalk(op, x, x) == (x, x)
  {
    EqReflexive(x);
  }

  lemma Unmet(op: Op, x: Expr, z: Expr)
    requires !IsOp(op, x) && !IsOp(op, z) && !Eq(x, z)
    ensures ElimEqWalk(op, x, z) == (x, z)
  {
  }

  lemma EqFrom(op: Op, e1: Expr, e2: Expr, f1: Expr, f2: Expr, s: Symbol)
    requires IsOp(op, e1) && IsOp(op, e2) && ElimEqWalk(op, e1, e2) == (f1, f2)
    requires ElimYN(f1) == Sym(s) && ElimYN(f2) == Sym(s)
    ensures Eq(e1, e2)
  {
    hide ElimEqWalk, ElimYN;
  }

  lemma YesDropped(x: Expr, s: Symbol)
    requires s.Var? && (x == Sym(s) || x == Disj(Sym(s), Sym(SymNo)))
    ensures var y := Sym(SymYes); ElimYN(Conj(Conj(x, y), y)) == Sym(s) && ElimYN(Conj(Conj(y, x), y)) == Sym(s)
  {
    var y := Sym(SymYes);
    assert ElimYN(y) == y && ElimYN(x) == Sym(s) by { NoDropped(s); }
    assert ElimYN(Conj(x, y)) == Sym(s) && ElimYN(Conj(y, x)) == Sym(s);
  }

  /** Every operand of the second level occurs at least as often in the first. */
  ghost predicate Covers(op: Op, e1: Expr, e2: Expr) {
    forall x :: Free(x) && !IsYN(x) && !IsOp(op, x) ==> Count(op, e1, x) >= Count(op, e2, x)
  }

  /** The superset test of the automatic submenus: what is left of the second condition is y if and only if the first
      is a conjunction that has all its conjuncts, as often. */
  lemma SupersetExactly(e1: Expr, e2: Expr)
    requires Free(e1) && Free(e2) && !IsYN(e2)
    ensures IsYes(ElimEq(e1, e2).1) <==> IsOp(OpAnd, e1) && Covers(OpAnd, e1, e2)
  {
    hide Eq, Free, Count, AllUnits, ElimEq, Covers;
    if !IsOp(OpAnd, e1) {
      NothingCovered(e1, e2);
    } else {
      YesLeft(e1, e2);
      CoversUnits(e1, e2);
    }
  }

  /** Every conjunct has been taken exactly if the first level covers the second. */
  lemma CoversUnits(e1: Expr, e2: Expr)
    requires Free(e1) && Free(e2) && !IsYN(e2) && IsOp(OpAnd, e1)
    ensures AllUnits(OpAnd, ElimEqWalk(OpAnd, e1, e2).1) <==> Covers(OpAnd, e1, e2)
  {
    hide Eq, Count, Ready, ElimEqWalk, Equivalence, Operand, AllUnits;
    var n := Size(e1) + Size(e2);
    var f2 := ElimEqWalk(OpAnd, e1, e2).1;
    EquivalenceAll(n);
    FreeReady(OpAnd, e1, n);
    FreeReady(OpAnd, e2, n);
    WalkReady(OpAnd, e1, e2, n);
    if AllUnits(OpAnd, f2) {
      forall x | Free(x) && !IsYN(x) && !IsOp(OpAnd, x) ensures Count(OpAnd, e1, x) >= Count(OpAnd, e2, x) {
        TakenFrom(OpAnd, e1, e2, x, n + Size(x));
        UnitsCount(OpAnd, f2, x);
      }
    } else {
      var x := SomeOperand(OpAnd, f2, n);
      OperandParts(OpAnd, x, n);
      TakenFrom(OpAnd, e1, e2, x, n);
    }
  }

  /** Then, and only then, y is left of the second one. */
  lemma YesLeft(e1: Expr, e2: Expr)
    requires Free(e1) && Free(e2) && !IsYN(e2) && IsOp(OpAnd, e1)
    ensures IsYes(ElimEq(e1, e2).1) <==> AllUnits(OpAnd, ElimEqWalk(OpAnd, e1, e2).1)
  {
    hide Eq, Free, Count, Ready, ElimEqWalk, Equivalence, Operand;
    var (f1, f2) := ElimEqWalk(OpAnd, e1, e2);
    WalkDropped(OpAnd, e1, e2);
    if IsOp(OpOr, e2) {
      WalkOne(OpAnd, e1, e2);
      WalkDropped(OpOr, e1, e2);
    } else if !e2.Bin? {
      WalkKind(OpAnd, e1, e2);
    }
  }

  /** What a walk leaves of the second expression is the unit exactly if it has taken everything, and not another
      constant. */
  lemma WalkDropped(op: Op, e1: Expr, e2: Expr)
    requires Free(e1) && Free(e2) && !IsYN(e1) && !IsYN(e2)
    ensures var f2 := ElimEqWalk(op, e1, e2).1;
            && (AllUnits(op, f2) <==> ElimYN(f2) == Sym(UnitSym(op)))
            && (!IsYN(ElimYN(f2)) || ElimYN(f2) == Sym(UnitSym(op)))
  {
    hide Eq, Free, ElimEqWalk, Equivalence, Operand, ElimYN, AllUnits;
    var n := Size(e1) + Size(e2);
    EquivalenceAll(n);
    FreeReady(op, e1, n);
    FreeReady(op, e2, n);
    WalkReady(op, e1, e2, n);
    UnitsDropped(op, ElimEqWalk(op, e1, e2).1, n);
  }

  /** A walk against one operand changes nothing, or puts the unit for it. */
  lemma {:induction false} WalkOne(op: Op, e: Expr, x: Expr)
    requires !IsOp(op, x)
    ensures ElimEqWalk(op, e, x) == (e, x) || ElimEqWalk(op, e, x).1 == Sym(UnitSym(op))
    decreases e
  {
    if IsOp(op, e) {
      WalkOne(op, e.left, x);
      WalkOne(op, e.right, ElimEqWalk(op, e.left, x).1);
    }
  }

  /** One operand takes at most one from a level. */
  lemma {:induction false} OneTaken(op: Op, x: Expr, e: Expr)
    requires !IsOp(op, x) && Free(e) && !IsYN(e)
    ensures ElimEqWalk(op, x, e) == (x, e) || ElimEqWalk(op, x, e).0 == Sym(UnitSym(op))
    ensures IsYN(x) ==> ElimEqWalk(op, x, e) == (x, e)
    ensures IsOp(op, e) ==> !AllUnits(op, ElimEqWalk(op, x, e).1)
    decreases e
  {
    if IsOp(op, e) {
      OneTaken(op, x, e.left);
      OneTaken(op, ElimEqWalk(op, x, e.left).0, e.right);
      SomeLeft(op, e.left);
      SomeLeft(op, e.right);
    }
  }

  lemma {:induction false} SomeLeft(op: Op, e: Expr)
    requires Free(e) && !IsYN(e)
    ensures !AllUnits(op, e)
  {
    if IsOp(op, e) { SomeLeft(op, e.left); }
  }

  lemma NothingCovered(e1: Expr, e2: Expr)
    requires Free(e1) && Free(e2) && !IsYN(e2) && !IsOp(OpAnd, e1)
    ensures !IsYes(ElimEq(e1, e2).1)
  {
    hide Eq, Free, AllUnits, ElimEqWalk;
    if IsOp(OpAnd, e2) { OneTaken(OpAnd, e1, e2); }
    FreeYNFree(e2);
    ElimYNReduces(e2);
    if IsYN(e1) {
      if e2.Bin? { OneTaken(e2.op, e1, e2); }
    } else {
      WalkDropped(OpAnd, e1, e2);
      WalkDropped(OpOr, e1, e2);
      if !IsOp(OpOr, e2) { WalkOne(OpOr, e1, e2); }
    }
  }

  lemma OperandParts(op: Op, x: Expr, n: nat)
    requires Operand(op, x, n)
    ensures Free(x) && !IsYN(x) && !IsOp(op, x) && Size(x) <= n
  {
  }

  /** A walk leaves an operand that is no level of either kind what it is or a unit. */
  lemma WalkKind(op: Op, e1: Expr, e2: Expr)
    requires !e2.Bin?
    ensures !ElimEqWalk(op, e1, e2).1.Bin?
    decreases Size(e1)
  {
    if IsOp(op, e1) {
      WalkKind(op, e1.left, e2);
      WalkKind(op, e1.right, ElimEqWalk(op, e1.left, e2).1);
    }
  }

  lemma TakenFrom(op: Op, e1: Expr, e2: Expr, x: Expr, n: nat)
    requires Free(e1) && Free(e2) && !IsYN(e1) && !IsYN(e2) && Size(e1) + Size(e2) <= n
    requires Free(x) && !IsYN(x) && !IsOp(op, x) && Size(x) <= n
    ensures Count(op, ElimEqWalk(op, e1, e2).1, x) == Less(Count(op, e2, x), Count(op, e1, x))
  {
    EquivalenceAll(n);
    FreeReady(op, e1, n);
    FreeReady(op, e2, n);
    WalkCounts(op, e1, e2, x, n);
  }

  /** With constants it is not even transitive: (A || n) && y is equal to A && y, but put together with B || n and B
      in the same way, the ends of the chain differ. */
  lemma EqNotTransitive(a: Symbol, b: Symbol)
    requires a.Var? && b.Var? && a != b
    ensures var y, an, bn := Sym(SymYes), Disj(Sym(a), Sym(SymNo)), Disj(Sym(b), Sym(SymNo));
            var e1, e2, e3 := Conj(Conj(an, bn), y), Conj(Conj(Sym(a), bn), y), Conj(Conj(Sym(a), Sym(b)), y);
            Eq(e1, e2) && Eq(e2, e3) && !Eq(e1, e3)
  {
    hide ElimEqWalk;
    FirstLink(a, b);
    SecondLink(a, b);
    NoThirdLink(a, b);
  }

  lemma FirstLink(a: Symbol, b: Symbol)
    requires a.Var? && b.Var? && a != b
    ensures var y, an, bn := Sym(SymYes), Disj(Sym(a), Sym(SymNo)), Disj(Sym(b), Sym(SymNo));
            Eq(Conj(Conj(an, bn), y), Conj(Conj(Sym(a), bn), y))
  {
    hide ElimEqWalk, ElimYN, Eq;
    var y, va, an, bn := Sym(SymYes), Sym(a), Disj(Sym(a), Sym(SymNo)), Disj(Sym(b), Sym(SymNo));
    var e2, f := Conj(Conj(va, bn), y), Conj(Conj(va, y), y);
    DisjunctsDiffer(a, b);
    Met(OpAnd, an, a);
    Met(OpAnd, an, SymYes);
    Met(OpAnd, bn, a);
    Met(OpAnd, y, SymYes);
    Unmet(OpAnd, an, bn);
    WalkRight(OpAnd, an, va, bn, an, va, an, bn);
    WalkRight(OpAnd, an, Conj(va, bn), y, an, Conj(va, bn), an, y);
    WalkRight(OpAnd, bn, va, bn, bn, va, y, y);
    WalkRight(OpAnd, bn, Conj(va, bn), y, y, Conj(va, y), y, y);
    WalkLeft(OpAnd, an, bn, e2, an, e2, y, f);
    WalkOverConstants(OpAnd, y, f);
    WalkLeft(OpAnd, Conj(an, bn), y, e2, Conj(an, y), f, y, f);
    YesDropped(an, a);
    YesDropped(va, a);
    EqFrom(OpAnd, Conj(Conj(an, bn), y), e2, Conj(Conj(an, y), y), f, a);
  }

  lemma SecondLink(a: Symbol, b: Symbol)
    requires a.Var? && b.Var? && a != b
    ensures var y, bn := Sym(SymYes), Disj(Sym(b), Sym(SymNo));
            Eq(Conj(Conj(Sym(a), bn), y), Conj(Conj(Sym(a), Sym(b)), y))
  {
    hide ElimEqWalk, ElimYN, Eq;
    var y, va, vb, bn := Sym(SymYes), Sym(a), Sym(b), Disj(Sym(b), Sym(SymNo));
    var e3, f := Conj(Conj(va, vb), y), Conj(Conj(y, vb), y);
    Met(OpAnd, va, a);
    Met(OpAnd, y, b);
    Met(OpAnd, y, SymYes);
    Met(OpAnd, bn, SymYes);
    Met(OpAnd, bn, b);
    WalkRight(OpAnd, va, va, vb, y, y, y, vb);
    WalkRight(OpAnd, va, Conj(va, vb), y, y, Conj(y, vb), y, y);
    WalkRight(OpAnd, bn, y, vb, bn, y, bn, vb);
    WalkRight(OpAnd, bn, Conj(y, vb), y, bn, Conj(y, vb), bn, y);
    WalkLeft(OpAnd, va, bn, e3, y, f, bn, f);
    WalkOverConstants(OpAnd, y, f);
    WalkLeft(OpAnd, Conj(va, bn), y, e3, Conj(y, bn), f, y, f);
    YesDropped(bn, b);
    YesDropped(vb, b);
    EqFrom(OpAnd, Conj(Conj(va, bn), y), e3, Conj(Conj(y, bn), y), f, b);
  }

  lemma NoThirdLink(a: Symbol, b: Symbol)
    requires a.Var? && b.Var? && a != b
    ensures var y, an, bn := Sym(SymYes), Disj(Sym(a), Sym(SymNo)), Disj(Sym(b), Sym(SymNo));
            !Eq(Conj(Conj(an, bn), y), Conj(Conj(Sym(a), Sym(b)), y))
  {
    hide ElimEqWalk;
    var y, va, vb := Sym(SymYes), Sym(a), Sym(b);
    var an, bn, e3 := Disj(va, Sym(SymNo)), Disj(vb, Sym(SymNo)), Conj(Conj(va, vb), y);
    NoneMet(an, va, vb);
    NoneMet(bn, va, vb);
    WalkLeft(OpAnd, an, bn, e3, an, e3, bn, e3);
    WalkOverConstants(OpAnd, y, e3);
    WalkLeft(OpAnd, Conj(an, bn), y, e3, Conj(an, bn), e3, y, e3);
    NoDropped(a);
    NoDropped(b);
    assert ElimYN(Conj(an, bn)) == Conj(va, vb) && ElimYN(y) == y;
    assert ElimYN(Conj(Conj(an, bn), y)) == Conj(va, vb);
  }

  lemma NoDropped(s: Symbol)
    requires s.Var?
    ensures ElimYN(Disj(Sym(s), Sym(SymNo))) == Sym(s)
  {
    assert ElimYN(Sym(s)) == Sym(s) && ElimYN(Sym(SymNo)) == Sym(SymNo);
  }

  lemma NoneMet(x: Expr, va: Expr, vb: Expr)
    requires IsOp(OpOr, x) && va.Sym? && vb.Sym?
    ensures var e := Conj(Conj(va, vb), Sym(SymYes)); ElimEqWalk(OpAnd, x, e) == (x, e)
  {
    Met(OpAnd, x, va.sym);
    Met(OpAnd, x, vb.sym);
    Met(OpAnd, x, SymYes);
    WalkRight(OpAnd, x, va, vb, x, va, x, vb);
    WalkRight(OpAnd, x, Conj(va, vb), Sym(SymYes), x, Conj(va, vb), x, Sym(SymYes));
  }

  lemma DisjunctsDiffer(a: Symbol, b: Symbol)
    requires a.Var? && b.Var? && a != b
    ensures !Eq(Disj(Sym(a), Sym(SymNo)), Disj(Sym(b), Sym(SymNo)))
  {
    var an, bn, n := Disj(Sym(a), Sym(SymNo)), Disj(Sym(b), Sym(SymNo)), Sym(SymNo);
    hide ElimEqWalk;
    Met(OpOr, Sym(a), b);
    Met(OpOr, Sym(a), SymNo);
    Met(OpOr, n, b);
    Met(OpOr, n, SymNo);
    WalkRight(OpOr, Sym(a), Sym(b), n, Sym(a), Sym(b), Sym(a), n);
    WalkRight(OpOr, n, Sym(b), n, n, Sym(b), n, n);
    WalkLeft(OpOr, Sym(a), n, bn, Sym(a), bn, n, bn);
    NoDropped(a);
    NoDropped(b);
  }

  /** A repeated operand is not the same as one: A && A && B is not equal to A && B && B. */
  lemma EqCountsRepetitions(a: Symbol, b: Symbol)
    requires a.Var? && b.Var? && a != b
    ensures !Eq(Conj(Sym(a), Conj(Sym(a), Sym(b))), Conj(Sym(a), Conj(Sym(b), Sym(b))))
  {
    var va, vb := Sym(a), Sym(b);
    FreeTwo(OpAnd, va, vb);
    FreeTwo(OpAnd, vb, vb);
    FreeTwo(OpAnd, va, Conj(va, vb));
    FreeTwo(OpAnd, va, Conj(vb, vb));
    EqExactly(OpAnd, Conj(va, Conj(va, vb)), Conj(va, Conj(vb, vb)));
    CountTwo(OpAnd, va, vb, va);
    CountTwo(OpAnd, vb, vb, va);
    CountTwo(OpAnd, va, Conj(va, vb), va);
    CountTwo(OpAnd, va, Conj(vb, vb), va);
    assert Count(OpAnd, va, va) == 1 && Count(OpAnd, vb, va) == 0;
  }
}
