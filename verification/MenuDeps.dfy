/** What `menu_finalize` does to expressions: dependencies are handed down from a menu to its entries, and an
    entry that depends on the symbol in front of it goes into an automatic submenu. */
module MenuDeps {
  import opened Tristate
  import opened Expressions
  import opened ExprEq
  import opened ExprLevels
  import opened ExprTransform
  import opened ExprDups

  // ----- null pointers

  function AndOpt(a: Option<Expr>, b: Option<Expr>): Option<Expr> {
    if a.None? then b else if b.None? then a else Some(Conj(a.value, b.value))
  }

  function OrOpt(a: Option<Expr>, b: Option<Expr>): Option<Expr> {
    if a.None? then b else if b.None? then a else Some(Disj(a.value, b.value))
  }

  predicate TidyOpt(nnf: bool, e: Option<Expr>) { e.Some? ==> Tidy(nnf, e.value) }

  // ----- handing dependencies down

  /** `rewrite_m`: the constant m only counts together with the modules symbol. */
  function RewriteM(e: Expr, modules: Symbol): Expr {
    match e
    case Sym(s) => if s.SymMod? then Conj(e, Sym(modules)) else e
    case Cmp(_, _, _) => e
    case Neg(a) => Neg(RewriteM(a, modules))
    case Bin(op, l, r) => Bin(op, RewriteM(l, modules), RewriteM(r, modules))
  }

  function RewriteMOpt(e: Option<Expr>, modules: Symbol): Option<Expr> {
    if e.Some? then Some(RewriteM(e.value, modules)) else None
  }

  /** The expression with `m` in place of the constant m, where that stands alone. */
  function WithM(e: Expr, m: Symbol): Expr {
    match e
    case Sym(s) => if s.SymMod? then Sym(m) else e
    case Cmp(_, _, _) => e
    case Neg(a) => Neg(WithM(a, m))
    case Bin(op, l, r) => Bin(op, WithM(l, m), WithM(r, m))
  }

  /** What a condition is worth as it was written: the constant m means n while the modules symbol is n. */
  function AsWritten(e: Option<Expr>, modules: Symbol, env: Env): Tri {
    if e.None? then YES
    else if TriOf(env, modules) == NO then Calc(WithM(e.value, SymNo), env) else Calc(e.value, env)
  }

  lemma {:induction false} RewriteMValue(e: Expr, modules: Symbol, env: Env)
    ensures Calc(RewriteM(e, modules), env) ==
            if TriOf(env, modules) == NO then Calc(WithM(e, SymNo), env) else Calc(e, env)
  {
    match e
    case Sym(s) =>
      assert Calc(Sym(modules), env) == TriOf(env, modules);
    case Cmp(_, _, _) =>
    case Neg(a) => RewriteMValue(a, modules, env);
    case Bin(_, l, r) => RewriteMValue(l, modules, env); RewriteMValue(r, modules, env);
  }

  function TransformOpt(e: Option<Expr>): Option<Expr> {
    if e.Some? then Some(Transform(e.value)) else None
  }

  function DupsOpt(e: Option<Expr>): Option<Expr> {
    if e.Some? then Some(Dups(e.value)) else None
  }

  /** The condition of an entry or a property, below the condition it inherits. */
  function Inherit(above: Option<Expr>, own: Option<Expr>, modules: Symbol): Option<Expr> {
    DupsOpt(AndOpt(above, TransformOpt(RewriteMOpt(own, modules))))
  }

  /** The condition of a property of an entry whose symbol, if any, has the given type. */
  function InheritProp(above: Option<Expr>, own: Option<Expr>, modules: Symbol, t: Option<SymType>): Option<Expr> {
    var dep := Inherit(above, own, modules);
    if t.Some? && !t.value.Tristate? && dep.Some? then Some(TransBool(dep.value)) else dep
  }

  lemma {:induction false} TransformTidy(e: Expr)
    requires ClashFree(e)
    ensures Tidy(true, Transform(e))
    decreases Weight(e)
  {
    match e
    case Sym(_) =>
    case Cmp(_, _, _) =>
    case Bin(_, l, r) => TransformTidy(l); TransformTidy(r);
    case Neg(a0) =>
      WeightPositive(a0);
      TransformTidy(a0);
      var a := Transform(a0);
      match a {
        case Neg(b) => WeightPositive(b); TransformTidy(b);
        case Bin(op, l, r) =>
          DeMorganLowers(op, l, r);
          TidyIsClashFree(l);
          TidyIsClashFree(r);
          TransformTidy(Bin(Dual(op), Neg(l), Neg(r)));
        case _ =>
      }
  }

  lemma {:induction false} TidyIsClashFree(e: Expr)
    requires Tidy(true, e)
    ensures ClashFree(e)
  {
    if e.Bin? { TidyIsClashFree(e.left); TidyIsClashFree(e.right); }
  }

  lemma {:induction false} RewriteMTidy(e: Expr, modules: Symbol)
    requires ClashFree(e)
    ensures ClashFree(RewriteM(e, modules))
  {
    match e
    case Sym(_) =>
    case Cmp(_, _, _) =>
    case Neg(a) => RewriteMTidy(a, modules);
    case Bin(_, l, r) => RewriteMTidy(l, modules); RewriteMTidy(r, modules);
  }

  /** An inherited condition is worth the condition above together with the entry's own one, and states nothing
      twice. */
  lemma InheritValue(above: Option<Expr>, own: Option<Expr>, modules: Symbol, env: Env)
    requires TidyOpt(true, above) && TidyOpt(false, own) && ValidEnv(env)
    ensures CalcOpt(Inherit(above, own, modules), env) ==
            And(CalcOpt(above, env), AsWritten(own, modules, env))
    ensures TidyOpt(true, Inherit(above, own, modules))
    ensures Inherit(above, own, modules).Some? ==> Settled(Inherit(above, own, modules).value)
  {
    hide Settled;
    var rewritten := RewriteMOpt(own, modules);
    var transformed := TransformOpt(rewritten);
    if own.Some? {
      RewriteMTidy(own.value, modules);
      RewriteMValue(own.value, modules, env);
      TransformValue(rewritten.value, env);
      TransformTidy(rewritten.value);
    }
    var both := AndOpt(above, transformed);
    if both.Some? {
      DupsValue(true, both.value, env);
      DupsCorrect(both.value);
    }
  }

  lemma {:induction false} TransBoolTidyVisible(e: Expr, env: Env)
    requires Tidy(true, e) && ValidEnv(env)
    ensures Calc(TransBool(e), env) <= Calc(e, env)
    ensures Calc(TransBool(e), env) == NO <==> Calc(e, env) == NO
  {
    match e
    case Sym(_) =>
    case Cmp(rel, l, r) => if TransBool(e) != e { BuiltinCompare(l, r, env); }
    case Neg(_) =>
    case Bin(_, l, r) => TransBoolTidyVisible(l, env); TransBoolTidyVisible(r, env);
  }

  /** A property is out of sight exactly when the condition above it or its own condition is n. */
  lemma InheritPropVisible(above: Option<Expr>, own: Option<Expr>, modules: Symbol, t: Option<SymType>, env: Env)
    requires TidyOpt(true, above) && TidyOpt(false, own) && ValidEnv(env)
    ensures CalcOpt(InheritProp(above, own, modules, t), env) == NO <==>
            CalcOpt(above, env) == NO || AsWritten(own, modules, env) == NO
    ensures CalcOpt(InheritProp(above, own, modules, t), env) <= And(CalcOpt(above, env), AsWritten(own, modules, env))
  {
    hide Inherit, TransBool, Calc, Tidy;
    InheritValue(above, own, modules, env);
    var dep := Inherit(above, own, modules);
    if dep.Some? { TransBoolTidyVisible(dep.value, env); }
  }

  /** A property of a tristate, or of no symbol, is worth exactly the condition above it together with its own; one of
      any other symbol tests no tristate for being different from n, and is worth the same wherever nothing is m. */
  lemma InheritPropExact(above: Option<Expr>, own: Option<Expr>, modules: Symbol, t: Option<SymType>, env: Env)
    requires TidyOpt(true, above) && TidyOpt(false, own) && ValidEnv(env)
    ensures var e := InheritProp(above, own, modules, t);
            var both := And(CalcOpt(above, env), AsWritten(own, modules, env));
            if t.None? || t.value.Tristate? then CalcOpt(e, env) == both
            else e.Some? ==>
                Untested(e.value) && ((forall s :: s in Vars(e.value) ==> TriOf(env, s) != MOD) ==>
                                      CalcOpt(e, env) == both)
  {
    hide Inherit, TransBool, Calc, Tidy, AsWritten, Untested;
    InheritValue(above, own, modules, env);
    var dep := Inherit(above, own, modules);
    if dep.Some? { TransBoolExact(dep.value, env); }
  }

  // ----- automatic submenus

  predicate ContainsSym(e: Expr, s: Symbol) {
    match e
    case Sym(x) => x == s
    case Cmp(_, l, r) => l == s || r == s
    case Neg(a) => ContainsSym(a, s)
    case Bin(_, l, r) => ContainsSym(l, s) || ContainsSym(r, s)
  }

  /** `expr_depends_symbol`. */
  predicate DependsSym(e: Expr, s: Symbol) {
    match e
    case Sym(x) => x == s
    case Cmp(rel, l, r) => l == s && ((rel.Equal? && (r.SymYes? || r.SymMod?)) || (rel.Unequal? && r.SymNo?))
    case Neg(_) => false
    case Bin(op, l, r) => op.OpAnd? && (DependsSym(l, s) || DependsSym(r, s))
  }

  /** `expr_trans_compare` with the constant n: whether the expression equals n, or with !`equal`, does not. */
  function TransCompareNo(e: Expr, equal: bool): Expr {
    match e
    case Sym(s) => Cmp(if equal then Equal else Unequal, s, SymNo)
    case Cmp(_, _, _) => if equal then Neg(e) else e
    case Neg(a) => TransCompareNo(a, !equal)
    case Bin(op, l, r) =>
      var f := Bin(Dual(op), TransCompareNo(l, true), TransCompareNo(r, true));
      if equal then f else Neg(f)
  }

  function TransCompareNoOpt(e: Option<Expr>): Expr {
    if e.Some? then TransCompareNo(e.value, false) else Neg(Sym(SymNo))
  }

  /** The visibility of an entry as the superset test looks at it. */
  function Footing(e: Option<Expr>): Expr { Dups(Transform(TransCompareNoOpt(e))) }

  /** Whether an entry of dependencies `dep` goes into the submenu of a symbol whose prompt has the condition
      `visible`. */
  predicate InSubmenu(s: Symbol, visible: Option<Expr>, dep: Option<Expr>) {
    dep.Some? && ContainsSym(dep.value, s) &&
    (DependsSym(dep.value, s) || IsYes(ElimEq(Footing(dep), Footing(visible)).1))
  }

  lemma {:induction false} MentionedIn(e: Expr, s: Symbol)
    requires s.Var?
    ensures ContainsSym(e, s) <==> s in Vars(e)
  {
    match e
    case Sym(_) =>
    case Cmp(_, _, _) =>
    case Neg(a) => MentionedIn(a, s);
    case Bin(_, l, r) => MentionedIn(l, s); MentionedIn(r, s);
  }

  /** The operand asks for the symbol: it is the symbol, or a test that only holds if the symbol is not n. */
  predicate AsksFor(e: Expr, s: Symbol) {
    e == Sym(s) || e == Cmp(Equal, s, SymYes) || e == Cmp(Equal, s, SymMod) || e == Cmp(Unequal, s, SymNo)
  }

  /** The operand in slot p of the && level does. */
  predicate AskedAt(e: Expr, s: Symbol, p: Path) { OnLevel(OpAnd, e, p) && AsksFor(At(OpAnd, e, p), s) }

  lemma {:induction false} OperandAsks(e: Expr, s: Symbol) returns (p: Path)
    requires DependsSym(e, s)
    ensures AskedAt(e, s, p)
  {
    if e.Bin? {
      var right := !DependsSym(e.left, s);
      var q := OperandAsks(Child(e, right), s);
      p := [right] + q;
      assert p[1..] == q;
    } else {
      p := [];
    }
  }

  lemma {:induction false} AskedByOperand(e: Expr, s: Symbol, p: Path)
    requires AskedAt(e, s, p)
    ensures DependsSym(e, s)
    decreases |p|
  {
    if p != [] { AskedByOperand(Child(e, p[0]), s, p[1..]); }
  }

  /** An expression depends on a symbol exactly if one of the operands of its && level asks for it. */
  lemma ConjunctAsks(e: Expr, s: Symbol)
    ensures DependsSym(e, s) <==> exists p :: AskedAt(e, s, p)
  {
    hide DependsSym, AskedAt;
    forall p | AskedAt(e, s, p) ensures DependsSym(e, s) { AskedByOperand(e, s, p); }
    if DependsSym(e, s) { var p := OperandAsks(e, s); }
  }

  /** Only entries that mention the symbol go into its submenu; those that need it do, whatever else they ask for; and
      behind a prompt without a condition, all that mention it. */
  lemma SubmenuEntries(s: Symbol, visible: Option<Expr>, dep: Option<Expr>)
    requires s.Var?
    ensures InSubmenu(s, visible, dep) ==> dep.Some? && s in Vars(dep.value)
    ensures dep.Some? ==> forall p :: AskedAt(dep.value, s, p) ==> InSubmenu(s, visible, dep)
    ensures InSubmenu(s, None, dep) <==> dep.Some? && s in Vars(dep.value)
  {
    hide Footing, Vars;
    if dep.Some? {
      MentionedIn(dep.value, s);
      ConjunctAsks(dep.value, s);
      if DependsSym(dep.value, s) { DependingContains(dep.value, s); }
      NoFooting();
      NothingEliminated(Footing(dep));
    }
  }

  lemma {:induction false} DependingContains(e: Expr, s: Symbol)
    requires DependsSym(e, s)
    ensures ContainsSym(e, s)
  {
    if e.Bin? { if DependsSym(e.left, s) { DependingContains(e.left, s); } else { DependingContains(e.right, s); } }
  }

  lemma NoFooting()
    ensures Footing(None) == Sym(SymYes)
  {
    assert Transform(Neg(Sym(SymNo))) == Sym(SymYes);
  }

  lemma NothingEliminated(e: Expr)
    ensures ElimEq(e, Sym(SymYes)).1 == Sym(SymYes)
  {
    if e.Bin? { WalkOverConstants(e.op, e, Sym(SymYes)); }
  }

  /** The conditions under which `expr_trans_compare` is exact in an environment: every plain symbol is logical,
      and nothing that is negated is m. */
  ghost predicate Exact(e: Expr, env: Env) {
    match e
    case Sym(s) => s.IsBuiltin() || s.IsBoolOrTristate()
    case Cmp(_, _, _) => true
    case Neg(a) => Calc(a, env) != MOD && Exact(a, env)
    case Bin(_, l, r) => Exact(l, env) && Exact(r, env)
  }

  lemma SymbolIsNo(s: Symbol, env: Env)
    requires (s.IsBuiltin() || s.IsBoolOrTristate()) && ValidEnv(env)
    ensures CompareSyms(env, s, SymNo) == 0 <==> TriOf(env, s) == NO
  {
    if s.IsBoolOrTristate() {
      BuiltinCompare(s, SymNo, env);
    } else {
      assert ParseString("n", Unknown) == KString;
      StrCmpZero(StrOf(env, s), "n");
    }
  }

  lemma {:induction false} TransCompareValue(e: Expr, equal: bool, env: Env)
    requires Exact(e, env) && ValidEnv(env)
    ensures Calc(TransCompareNo(e, equal), env) == FromBool((Calc(e, env) == NO) == equal)
  {
    match e
    case Sym(s) => SymbolIsNo(s, env);
    case Cmp(_, _, _) =>
    case Neg(a) => TransCompareValue(a, !equal, env);
    case Bin(op, l, r) =>
      TransCompareValue(l, true, env);
      TransCompareValue(r, true, env);
      var f := Bin(Dual(op), TransCompareNo(l, true), TransCompareNo(r, true));
      assert Calc(f, env) == Apply(Dual(op), Calc(f.left, env), Calc(f.right, env));
  }

  /** What the rewritten expression tests, for every expression: each symbol is read as set or not, and ! as the
      negation of that reading. */
  predicate Reading(e: Expr, env: Env) {
    match e
    case Sym(s) => CompareSyms(env, s, SymNo) != 0
    case Cmp(_, _, _) => Calc(e, env) != NO
    case Neg(a) => !Reading(a, env)
    case Bin(op, l, r) => if op.OpAnd? then Reading(l, env) && Reading(r, env) else Reading(l, env) || Reading(r, env)
  }

  lemma {:induction false} TransCompareReading(e: Expr, equal: bool, env: Env)
    ensures Calc(TransCompareNo(e, equal), env) == FromBool(Reading(e, env) != equal)
  {
    match e
    case Sym(_) =>
    case Cmp(_, _, _) =>
    case Neg(a) => TransCompareReading(a, !equal, env);
    case Bin(op, l, r) =>
      TransCompareReading(l, true, env);
      TransCompareReading(r, true, env);
      var f := Bin(Dual(op), TransCompareNo(l, true), TransCompareNo(r, true));
      assert Calc(f, env) == Apply(Dual(op), Calc(f.left, env), Calc(f.right, env));
  }

  /** Every symbol that stands alone is logical. */
  predicate Logical(e: Expr) {
    match e
    case Sym(s) => s.IsBuiltin() || s.IsBoolOrTristate()
    case Cmp(_, _, _) => true
    case Neg(a) => Logical(a)
    case Bin(_, l, r) => Logical(l) && Logical(r)
  }

  /** Only symbols are negated, as in negation normal form. */
  predicate Pushed(e: Expr) {
    match e
    case Sym(_) => true
    case Cmp(_, _, _) => true
    case Neg(a) => a.Sym?
    case Bin(_, l, r) => Pushed(l) && Pushed(r)
  }

  /** Then the reading errs to one side only: what it calls set is not n. */
  lemma {:induction false} NormalReading(e: Expr, env: Env)
    requires Pushed(e) && Logical(e) && ValidEnv(env) && Reading(e, env)
    ensures Calc(e, env) != NO
  {
    match e
    case Sym(s) => SymbolIsNo(s, env);
    case Cmp(_, _, _) =>
    case Neg(a) => SymbolIsNo(a.sym, env);
    case Bin(op, l, r) =>
      if Reading(l, env) { NormalReading(l, env); }
      if Reading(r, env) { NormalReading(r, env); }
  }

  /** Where `expr_trans_compare` is exact, the reading is that the expression is not n. */
  lemma ExactReading(e: Expr, env: Env)
    requires Exact(e, env) && ValidEnv(env)
    ensures Reading(e, env) <==> Calc(e, env) != NO
  {
    TransCompareValue(e, false, env);
    TransCompareReading(e, false, env);
  }

  lemma {:induction false} TidyPushed(e: Expr)
    requires Tidy(true, e)
    ensures Pushed(e)
  {
    if e.Bin? { TidyPushed(e.left); TidyPushed(e.right); }
  }

  /** Without that condition it is not exact: the test whether !s differs from n fails exactly when s is m. */
  lemma TransCompareNegation(s: Symbol, env: Env)
    requires s.IsBoolOrTristate() && ValidEnv(env)
    ensures Calc(TransCompareNo(Neg(Sym(s)), false), env) == FromBool(Calc(Neg(Sym(s)), env) != NO) <==>
            TriOf(env, s) != MOD
  {
    SymbolIsNo(s, env);
  }

  lemma {:induction false} TransCompareTidy(e: Expr, equal: bool)
    requires ClashFree(e)
    ensures ClashFree(TransCompareNo(e, equal))
  {
    match e
    case Sym(_) =>
    case Cmp(_, _, _) =>
    case Neg(a) => TransCompareTidy(a, !equal);
    case Bin(_, l, r) => TransCompareTidy(l, true); TransCompareTidy(r, true);
  }

  predicate ReadingOpt(e: Option<Expr>, env: Env) { e.Some? ==> Reading(e.value, env) }

  /** What the superset test compares is the readings. */
  lemma FootingReading(e: Option<Expr>, env: Env)
    requires TidyOpt(false, e) && ValidEnv(env)
    ensures Calc(Footing(e), env) == FromBool(ReadingOpt(e, env))
  {
    hide Reading, Transform;
    var c := TransCompareNoOpt(e);
    if e.Some? {
      TransCompareReading(e.value, false, env);
      TransCompareTidy(e.value, false);
    }
    TransformValue(c, env);
    TransformTidy(c);
    DupsValue(true, Transform(c), env);
  }

  lemma {:induction false} DependsSymReading(e: Expr, s: Symbol, env: Env)
    requires DependsSym(e, s) && s.IsBoolOrTristate() && ValidEnv(env) && Reading(e, env)
    ensures TriOf(env, s) != NO
  {
    match e
    case Sym(_) => SymbolIsNo(s, env);
    case Cmp(_, l, r) => BuiltinCompare(l, r, env);
    case Neg(_) =>
    case Bin(_, l, r) =>
      if DependsSym(l, s) { DependsSymReading(l, s, env); } else { DependsSymReading(r, s, env); }
  }

  /** An entry that is put into the submenu of a symbol is read as set only if the symbol is not n or the symbol's own
      prompt is read as set. */
  lemma SubmenuReading(s: Symbol, visible: Option<Expr>, dep: Option<Expr>, env: Env)
    requires InSubmenu(s, visible, dep) && s.IsBoolOrTristate() && ValidEnv(env) && Reading(dep.value, env)
    requires TidyOpt(false, dep) && TidyOpt(false, visible)
    ensures TriOf(env, s) != NO || ReadingOpt(visible, env)
  {
    hide Footing, Reading, Tidy;
    if DependsSym(dep.value, s) {
      DependsSymReading(dep.value, s, env);
    } else {
      ElimEqSuperset(Footing(dep), Footing(visible));
      FootingReading(dep, env);
      FootingReading(visible, env);
      assert Calc(Footing(dep), env) <= Calc(Footing(visible), env);
    }
  }

  /** So an entry that is read as set cannot be seen while the symbol is n, or not while the symbol's own prompt
      is out of sight: for any prompt condition in negation normal form, as the finalisation leaves it, and for any
      other one in which nothing that is negated is m. */
  lemma SubmenuEntriesNeedTheSymbol(s: Symbol, visible: Option<Expr>, dep: Option<Expr>, env: Env)
    requires InSubmenu(s, visible, dep) && s.IsBoolOrTristate() && ValidEnv(env)
    requires Reading(dep.value, env) || (Exact(dep.value, env) && CalcOpt(dep, env) != NO)
    requires TidyOpt(false, dep) && TidyOpt(false, visible)
    requires visible.Some? ==> Exact(visible.value, env) || (Pushed(visible.value) && Logical(visible.value))
    ensures TriOf(env, s) != NO || CalcOpt(visible, env) != NO
  {
    if !Reading(dep.value, env) { ExactReading(dep.value, env); }
    SubmenuReading(s, visible, dep, env);
    if visible.Some? && Reading(visible.value, env) {
      if Exact(visible.value, env) { ExactReading(visible.value, env); } else { NormalReading(visible.value, env); }
    }
  }

  /** The entry (S || Q) && !R, which can be seen without being read as set, behind a symbol S whose prompt has the
      condition R = n. */
  function Dangling(s: Symbol, q: Symbol, r: Symbol): Expr { Conj(Disj(Sym(s), Sym(q)), Neg(Sym(r))) }

  lemma DanglingFooting(s: Symbol, q: Symbol, r: Symbol)
    requires s.Var? && q.Var? && r.Var? && s != q && s != r && q != r
    requires s.varType.Tristate? && q.varType.Tristate? && r.varType.Tristate?
    ensures Footing(Some(Dangling(s, q, r))) ==
            Conj(Disj(Cmp(Unequal, s, SymNo), Cmp(Unequal, q, SymNo)), Cmp(Equal, r, SymNo))
  {
    var sn, qn, rn := Cmp(Equal, s, SymNo), Cmp(Equal, q, SymNo), Cmp(Unequal, r, SymNo);
    var either := Disj(Cmp(Unequal, s, SymNo), Cmp(Unequal, q, SymNo));
    assert TransCompareNo(Sym(s), true) == sn && TransCompareNo(Sym(q), true) == qn;
    assert TransCompareNo(Sym(r), false) == rn;
    assert TransCompareNo(Disj(Sym(s), Sym(q)), true) == Conj(sn, qn) && TransCompareNo(Neg(Sym(r)), true) == rn;
    assert TransCompareNo(Dangling(s, q, r), false) == Neg(Disj(Conj(sn, qn), rn));
    assert Transform(sn) == sn && Transform(qn) == qn && Transform(rn) == rn;
    assert Transform(Conj(sn, qn)) == Conj(sn, qn);
    assert Transform(Disj(Conj(sn, qn), rn)) == Disj(Conj(sn, qn), rn);
    assert Transform(Neg(Conj(sn, qn))) == either by {
      assert Transform(Neg(sn)) == either.left && Transform(Neg(qn)) == either.right;
    }
    assert Transform(Neg(rn)) == Cmp(Equal, r, SymNo);
    assert Transform(Conj(Neg(Conj(sn, qn)), Neg(rn))) == Conj(either, Cmp(Equal, r, SymNo));
    PairKept(OpOr, either.left, either.right);
    PairKept(OpAnd, either, Cmp(Equal, r, SymNo));
  }

  /** With S n, Q y and R m it is worth m, while S and the condition of its prompt are n. */
  lemma SubmenuExample(s: Symbol, q: Symbol, r: Symbol, env: Env)
    requires s.Var? && q.Var? && r.Var? && s != q && s != r && q != r
    requires s.varType.Tristate? && q.varType.Tristate? && r.varType.Tristate? && ValidEnv(env)
    requires TriOf(env, s) == NO && TriOf(env, q) == YES && TriOf(env, r) == MOD
    ensures var dep, visible := Dangling(s, q, r), Cmp(Equal, r, SymNo);
            && InSubmenu(s, Some(visible), Some(dep)) && Tidy(true, dep) && Tidy(true, visible)
            && Calc(dep, env) == MOD && !Reading(dep, env) && Calc(visible, env) == NO
  {
    var dep, visible := Dangling(s, q, r), Cmp(Equal, r, SymNo);
    DanglingFooting(s, q, r);
    assert Footing(Some(visible)) == visible;
    var either := Footing(Some(dep)).left;
    assert ElimEqWalk(OpAnd, either, visible) == (either, visible);
    assert ElimEqWalk(OpAnd, visible, visible) == (Sym(SymYes), Sym(SymYes));
    assert ElimEq(Footing(Some(dep)), visible).1 == Sym(SymYes);
    BuiltinCompare(r, SymNo, env);
    assert Reading(Sym(r), env) && !Reading(Neg(Sym(r)), env);
    assert Calc(Sym(s), env) == NO && Calc(Sym(q), env) == YES && Calc(Sym(r), env) == MOD;
    assert Calc(Disj(Sym(s), Sym(q)), env) == YES && Calc(Neg(Sym(r)), env) == MOD;
  }
}
