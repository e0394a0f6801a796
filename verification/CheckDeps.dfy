/** `sym_check_deps`: the depth-first search for recursive dependencies. SYMBOL_CHECK marks the symbols on the
    current path, SYMBOL_CHECKED all symbols ever entered. */
module CheckDeps {
  import opened Tristate
  import opened Expressions
  import opened Symbols

  datatype Marks = Marks(check: set<nat>, checked: set<nat>)

  /** Choices and their members name each other. */
  predicate RolesMatch(t: Table) {
    && (forall i, k :: 0 <= i < |t| && t[i].role.Choice? && 0 <= k < |t[i].role.members| ==>
          t[i].role.members[k] < |t| && t[t[i].role.members[k]].role == Member(i))
    && (forall i :: 0 <= i < |t| && t[i].role.Member? ==>
          t[i].role.choice < |t| && t[t[i].role.choice].role.Choice? && i in t[t[i].role.choice].role.members)
  }

  ghost predicate ChoiceTable(t: Table) { WellFormed(t) && RolesMatch(t) }

  function Below(n: nat): (ids: set<nat>)
    ensures forall i: nat :: i in ids <==> i < n
  {
    if n == 0 then {} else Below(n - 1) + {n - 1}
  }

  function Ids(t: Table): set<nat> { Below(|t|) }

  /** What holds of the marks between calls: a choice and its members are entered together. */
  predicate Proper(t: Table, m: Marks) {
    && m.check <= m.checked <= Ids(t)
    && forall i :: 0 <= i < |t| && t[i].role.Member? ==> (i in m.checked <==> t[i].role.choice in m.checked)
  }

  function MemberSet(ms: seq<nat>): set<nat> { set x | x in ms }

  /** The search only enters new symbols, and leaves the path as it found it. */
  predicate Grown(m: Marks, n: Marks) { n.check == m.check && m.checked <= n.checked }

  predicate Known(t: Table, s: Option<nat>) { s.Some? ==> s.value < |t| }

  /** `sym_check_deps`. `strict` is `recursive_is_error`. */
  function CheckSym(t: Table, strict: bool, m: Marks, s: nat): (r: (Marks, Option<nat>))
    requires ChoiceTable(t) && Proper(t, m) && s < |t|
    ensures Proper(t, r.0) && Grown(m, r.0) && Known(t, r.1) && s in r.0.checked
    decreases Ids(t) - m.checked, if t[s].role.Member? then 3 else 2
  {
    if s in m.check then (m, Some(s))
    else if s in m.checked then (m, None)
    else
      var (n, r) :=
        if t[s].role.Member? then CheckSym(t, strict, m, t[s].role.choice)
        else if t[s].role.Choice? then CheckChoice(t, strict, m, s)
        else CheckPlain(t, strict, m, s);
      if !strict && r == Some(s) then (n, None) else (n, r)
  }

  function CheckPlain(t: Table, strict: bool, m: Marks, s: nat): (r: (Marks, Option<nat>))
    requires ChoiceTable(t) && Proper(t, m) && s < |t| && t[s].role.Plain? && s !in m.checked
    ensures Proper(t, r.0) && Grown(m, r.0) && Known(t, r.1) && s in r.0.checked
    decreases Ids(t) - m.checked, 1
  {
    assert s in Ids(t);
    var (n, r) := CheckOwn(t, strict, Marks(m.check + {s}, m.checked + {s}), s);
    (Marks(n.check - {s}, n.checked), r)
  }

  /** `sym_check_sym_deps`. */
  function CheckOwn(t: Table, strict: bool, m: Marks, s: nat): (r: (Marks, Option<nat>))
    requires ChoiceTable(t) && Proper(t, m) && s < |t|
    ensures Proper(t, r.0) && Grown(m, r.0) && Known(t, r.1)
    decreases Ids(t) - m.checked, 8
  {
    var (m1, r1) := CheckOwned(t, strict, m, s, t[s].dirDep);
    if r1.Some? then (m1, r1) else
    var (m2, r2) := CheckOwned(t, strict, m1, s, t[s].revDep);
    if r2.Some? then (m2, r2) else
    var (m3, r3) := CheckOwned(t, strict, m2, s, t[s].implied);
    if r3.Some? then (m3, r3) else
    CheckProps(t, strict, m3, s, 0)
  }

  /** The loop over the properties from the k-th one on. */
  function CheckProps(t: Table, strict: bool, m: Marks, s: nat, k: nat): (r: (Marks, Option<nat>))
    requires ChoiceTable(t) && Proper(t, m) && s < |t| && k <= |t[s].props|
    ensures Proper(t, r.0) && Grown(m, r.0) && Known(t, r.1)
    decreases Ids(t) - m.checked, 7, |t[s].props| - k
  {
    if k == |t[s].props| then (m, None) else
    var p := t[s].props[k];
    if p.kind.ChoiceProp? || p.kind.Select? || p.kind.Imply? then CheckProps(t, strict, m, s, k + 1) else
    PropVisibleOwned(t[s], k);
    var (m1, r1) := CheckOwned(t, strict, m, s, p.visible);
    if r1.Some? then (m1, r1) else
    if !p.kind.Default? || t[s].role.Choice? then CheckProps(t, strict, m1, s, k + 1) else
    PropExprOwned(t[s], k);
    var (m2, r2) := CheckOwned(t, strict, m1, s, p.expr);
    if r2.Some? then (m2, r2) else CheckProps(t, strict, m2, s, k + 1)
  }

  lemma PropVisibleOwned(def: SymDef, k: nat)
    requires k < |def.props|
    requires var p := def.props[k]; !p.kind.ChoiceProp? && !p.kind.Select? && !p.kind.Imply?
    ensures def.props[k].visible.Some? ==> Owns(def, def.props[k].visible.value)
  {
    if def.props[k].visible.Some? { assert PropOwns(def.role, def.props[k], def.props[k].visible.value); }
  }

  lemma PropExprOwned(def: SymDef, k: nat)
    requires k < |def.props| && def.props[k].kind.Default? && !def.role.Choice?
    ensures def.props[k].expr.Some? ==> Owns(def, def.props[k].expr.value)
  {
    if def.props[k].expr.Some? { assert PropOwns(def.role, def.props[k], def.props[k].expr.value); }
  }

  /** `sym_check_expr_deps` on an expression of the definition of s, or on a null pointer. */
  function CheckOwned(t: Table, strict: bool, m: Marks, s: nat, e: Option<Expr>): (r: (Marks, Option<nat>))
    requires ChoiceTable(t) && Proper(t, m) && s < |t| && (e.Some? ==> Owns(t[s], e.value))
    ensures Proper(t, r.0) && Grown(m, r.0) && Known(t, r.1)
    decreases Ids(t) - m.checked, 6
  {
    if e.None? then (m, None) else
    assert Resolved(t, e.value);
    CheckExpr(t, strict, m, e.value)
  }

  /** `sym_check_expr_deps`. */
  function CheckExpr(t: Table, strict: bool, m: Marks, e: Expr): (r: (Marks, Option<nat>))
    requires ChoiceTable(t) && Proper(t, m) && Resolved(t, e)
    ensures Proper(t, r.0) && Grown(m, r.0) && Known(t, r.1)
    decreases Ids(t) - m.checked, 5, e
  {
    match e
    case Sym(x) => CheckName(t, strict, m, x)
    case Neg(a) => CheckExpr(t, strict, m, a)
    case Bin(_, a, b) =>
      var (m1, r1) := CheckExpr(t, strict, m, a);
      if r1.Some? then (m1, r1) else CheckExpr(t, strict, m1, b)
    case Cmp(_, x, y) =>
      assert x.Var? ==> x in Vars(e);
      assert y.Var? ==> y in Vars(e);
      var (m1, r1) := CheckName(t, strict, m, x);
      if r1.Some? then (m1, r1) else CheckName(t, strict, m1, y)
  }

  /** `sym_check_deps` on a symbol an expression mentions; a constant has nothing to check. */
  function CheckName(t: Table, strict: bool, m: Marks, x: Symbol): (r: (Marks, Option<nat>))
    requires ChoiceTable(t) && Proper(t, m) && (x.Var? ==> x.id < |t|)
    ensures Proper(t, r.0) && Grown(m, r.0) && Known(t, r.1)
    decreases Ids(t) - m.checked, 4
  {
    if x.Var? then CheckSym(t, strict, m, x.id) else (m, None)
  }

  /** `sym_check_choice_deps`: the members stay on the path until the whole group has been checked, the choice
      itself leaves it once its own dependencies have been. */
  function CheckChoice(t: Table, strict: bool, m: Marks, c: nat): (r: (Marks, Option<nat>))
    requires ChoiceTable(t) && Proper(t, m) && c < |t| && t[c].role.Choice? && c !in m.checked
    ensures Proper(t, r.0) && Grown(m, r.0) && Known(t, r.1) && c in r.0.checked
    decreases Ids(t) - m.checked, 1
  {
    var ms := MemberSet(t[c].role.members);
    assert c in Ids(t) && c !in ms;
    assert ms !! m.checked;
    var (m1, r1) := CheckOwn(t, strict, Marks(m.check + ms + {c}, m.checked + ms + {c}), c);
    var m2 := Marks(m1.check - {c}, m1.checked);
    var (m3, r3) := if r1.Some? then (m2, r1) else CheckMembers(t, strict, m2, c, 0);
    var r := if r3.Some? && t[r3.value].role == Member(c) then Some(c) else r3;
    assert m3.check - ms == m.check;
    (Marks(m3.check - ms, m3.checked), r)
  }

  /** The loop over the members from the k-th one on. */
  function CheckMembers(t: Table, strict: bool, m: Marks, c: nat, k: nat): (r: (Marks, Option<nat>))
    requires ChoiceTable(t) && Proper(t, m) && c < |t| && t[c].role.Choice? && k <= |t[c].role.members|
    ensures Proper(t, r.0) && Grown(m, r.0) && Known(t, r.1)
    decreases Ids(t) - m.checked, 9, |t[c].role.members| - k
  {
    if k == |t[c].role.members| then (m, None) else
    var (m1, r1) := CheckOwn(t, strict, m, t[c].role.members[k]);
    if r1.Some? then (m1, r1) else CheckMembers(t, strict, m1, c, k + 1)
  }

  /** The check of every symbol after parsing, counting the errors. */
  function CheckFrom(t: Table, strict: bool, m: Marks, k: nat): (r: (Marks, nat))
    requires ChoiceTable(t) && Proper(t, m) && k <= |t|
    ensures Proper(t, r.0) && Grown(m, r.0) && forall i :: k <= i < |t| ==> i in r.0.checked
    decreases |t| - k
  {
    if k == |t| then (m, 0) else
    var (m1, r1) := CheckSym(t, strict, m, k);
    var (m2, n) := CheckFrom(t, strict, m1, k + 1);
    (m2, n + if r1.Some? then 1 else 0)
  }

  function CheckAll(t: Table, strict: bool): nat
    requires ChoiceTable(t)
  {
    CheckFrom(t, strict, Marks({}, {}), 0).1
  }

  // ----- what the search guarantees when it reports nothing

  /** The symbols in the order in which the search has left them: each level is one symbol outside choices, or a
      choice, or all members of a choice. */
  datatype Levels = Start | Then(before: Levels, level: set<nat>)

  ghost function All(l: Levels): set<nat> {
    if l.Start? then {} else All(l.before) + l.level
  }

  /** Everything a symbol depends on is on an earlier level; the members of a choice come after the choice. */
  ghost predicate Sound(t: Table, l: Levels) {
    l.Then? ==> Sound(t, l.before) && LevelSound(t, l.level, All(l.before))
  }

  ghost predicate LevelSound(t: Table, level: set<nat>, before: set<nat>) {
    && (forall s :: s in level ==> s < |t| && s !in before && DepsIn(t, s, before))
    && (|| (exists s :: level == {s} && s < |t| && !t[s].role.Member?)
        || (exists c :: c in before && c < |t| && t[c].role.Choice? && level == MemberSet(t[c].role.members)))
  }

  ghost predicate DepsIn(t: Table, s: nat, before: set<nat>)
    requires s < |t|
  {
    forall j :: 0 <= j < |t| && DependsOn(t, s, j) ==> j in before
  }

  /** The symbols that have been entered and left again. */
  ghost function Left(m: Marks): set<nat> { m.checked - m.check }

  ghost predicate Finished(t: Table, m: Marks, l: Levels) { Sound(t, l) && All(l) == Left(m) }

  /** A plain symbol or a choice is left once everything it depends on has been. */
  lemma Leave(t: Table, m: Marks, s: nat, l: Levels) returns (o: Levels)
    requires ChoiceTable(t) && Proper(t, m) && s in m.check && s < |t| && !t[s].role.Member?
    requires Finished(t, m, l) && DepsIn(t, s, Left(m))
    ensures Finished(t, Marks(m.check - {s}, m.checked), o)
  {
    o := Then(l, {s});
    assert All(o) == Left(Marks(m.check - {s}, m.checked));
  }

  /** The members of a choice, which do not depend on each other, are left together. */
  lemma MembersLeave(t: Table, m: Marks, c: nat, l: Levels) returns (o: Levels)
    requires ChoiceTable(t) && Proper(t, m) && c < |t| && t[c].role.Choice? && Finished(t, m, l) && c in Left(m)
    requires MemberSet(t[c].role.members) <= m.check
    requires forall i :: 0 <= i < |t[c].role.members| ==> DepsIn(t, t[c].role.members[i], Left(m))
    ensures Finished(t, Marks(m.check - MemberSet(t[c].role.members), m.checked), o)
  {
    var ms := MemberSet(t[c].role.members);
    o := Then(l, ms);
    forall i | i in ms ensures i < |t| && i !in All(l) && DepsIn(t, i, All(l)) {
      var k :| 0 <= k < |t[c].role.members| && t[c].role.members[k] == i;
    }
    assert All(o) == Left(Marks(m.check - ms, m.checked));
  }

  lemma {:induction false} SymSound(t: Table, m: Marks, s: nat, l: Levels) returns (o: Levels)
    requires ChoiceTable(t) && Proper(t, m) && s < |t| && Finished(t, m, l)
    requires CheckSym(t, true, m, s).1 == None
    ensures Finished(t, CheckSym(t, true, m, s).0, o)
    decreases Ids(t) - m.checked, if t[s].role.Member? then 3 else 2
  {
    if s in m.checked {
      o := l;
    } else if t[s].role.Member? {
      o := SymSound(t, m, t[s].role.choice, l);
    } else if t[s].role.Choice? {
      o := ChoiceSound(t, m, s, l);
    } else {
      o := PlainSound(t, m, s, l);
    }
  }

  lemma {:induction false} PlainSound(t: Table, m: Marks, s: nat, l: Levels) returns (o: Levels)
    requires ChoiceTable(t) && Proper(t, m) && s < |t| && t[s].role.Plain? && s !in m.checked && Finished(t, m, l)
    requires CheckPlain(t, true, m, s).1 == None
    ensures Finished(t, CheckPlain(t, true, m, s).0, o)
    decreases Ids(t) - m.checked, 1
  {
    assert s in Ids(t);
    o := OwnSound(t, Marks(m.check + {s}, m.checked + {s}), s, l);
    var (m1, _) := CheckOwn(t, true, Marks(m.check + {s}, m.checked + {s}), s);
    o := Leave(t, m1, s, o);
  }

  lemma {:induction false} OwnSound(t: Table, m: Marks, s: nat, l: Levels) returns (o: Levels)
    requires ChoiceTable(t) && Proper(t, m) && s < |t| && Finished(t, m, l)
    requires CheckOwn(t, true, m, s).1 == None
    ensures Finished(t, CheckOwn(t, true, m, s).0, o) && DepsIn(t, s, Left(CheckOwn(t, true, m, s).0))
    decreases Ids(t) - m.checked, 8
  {
    var (m1, _) := CheckOwned(t, true, m, s, t[s].dirDep);
    var (m2, _) := CheckOwned(t, true, m1, s, t[s].revDep);
    var (m3, _) := CheckOwned(t, true, m2, s, t[s].implied);
    var o1 := OwnedSound(t, m, s, t[s].dirDep, l);
    var o2 := OwnedSound(t, m1, s, t[s].revDep, o1);
    var o3 := OwnedSound(t, m2, s, t[s].implied, o2);
    o := PropsSound(t, m3, s, 0, o3);
    forall j | 0 <= j < |t| && DependsOn(t, s, j) ensures j in Left(CheckOwn(t, true, m, s).0) {
      var e :| Owns(t[s], e) && SymbolAt(t, j) in Vars(e);
      if t[s].dirDep != Some(e) && t[s].revDep != Some(e) && t[s].implied != Some(e) {
        var k :| 0 <= k < |t[s].props| && PropOwns(t[s].role, t[s].props[k], e);
        assert PropDepsIn(t, s, k, Left(CheckOwn(t, true, m, s).0));
      }
    }
  }

  ghost predicate ReadsIn(e: Expr, left: set<nat>) { forall x :: x in Vars(e) && x.Var? ==> x.id in left }

  ghost predicate PropDepsIn(t: Table, s: nat, k: nat, left: set<nat>)
    requires s < |t| && k < |t[s].props|
  {
    forall e :: PropOwns(t[s].role, t[s].props[k], e) ==> ReadsIn(e, left)
  }

  lemma {:induction false} PropsSound(t: Table, m: Marks, s: nat, k: nat, l: Levels) returns (o: Levels)
    requires ChoiceTable(t) && Proper(t, m) && s < |t| && k <= |t[s].props| && Finished(t, m, l)
    requires CheckProps(t, true, m, s, k).1 == None
    ensures Finished(t, CheckProps(t, true, m, s, k).0, o)
    ensures forall i :: k <= i < |t[s].props| ==> PropDepsIn(t, s, i, Left(CheckProps(t, true, m, s, k).0))
    decreases Ids(t) - m.checked, 7, |t[s].props| - k
  {
    if k == |t[s].props| {
      o := l;
    } else {
      var p := t[s].props[k];
      if p.kind.ChoiceProp? || p.kind.Select? || p.kind.Imply? {
        o := PropsSound(t, m, s, k + 1, l);
      } else {
        PropVisibleOwned(t[s], k);
        var (m1, _) := CheckOwned(t, true, m, s, p.visible);
        var o1 := OwnedSound(t, m, s, p.visible, l);
        if !p.kind.Default? || t[s].role.Choice? {
          o := PropsSound(t, m1, s, k + 1, o1);
        } else {
          PropExprOwned(t[s], k);
          var (m2, _) := CheckOwned(t, true, m1, s, p.expr);
          var o2 := OwnedSound(t, m1, s, p.expr, o1);
          o := PropsSound(t, m2, s, k + 1, o2);
        }
        assert PropDepsIn(t, s, k, Left(CheckProps(t, true, m, s, k).0));
      }
    }
  }

  lemma {:induction false} OwnedSound(t: Table, m: Marks, s: nat, e: Option<Expr>, l: Levels) returns (o: Levels)
    requires ChoiceTable(t) && Proper(t, m) && s < |t| && (e.Some? ==> Owns(t[s], e.value)) && Finished(t, m, l)
    requires CheckOwned(t, true, m, s, e).1 == None
    ensures Finished(t, CheckOwned(t, true, m, s, e).0, o)
    ensures e.Some? ==> ReadsIn(e.value, Left(CheckOwned(t, true, m, s, e).0))
    decreases Ids(t) - m.checked, 6
  {
    if e.None? {
      o := l;
    } else {
      assert Resolved(t, e.value);
      o := ExprSound(t, m, e.value, l);
    }
  }

  lemma {:induction false} ExprSound(t: Table, m: Marks, e: Expr, l: Levels) returns (o: Levels)
    requires ChoiceTable(t) && Proper(t, m) && Resolved(t, e) && Finished(t, m, l)
    requires CheckExpr(t, true, m, e).1 == None
    ensures Finished(t, CheckExpr(t, true, m, e).0, o) && ReadsIn(e, Left(CheckExpr(t, true, m, e).0))
    decreases Ids(t) - m.checked, 5, e
  {
    match e
    case Sym(x) =>
      o := NameSound(t, m, x, l);
    case Neg(a) =>
      o := ExprSound(t, m, a, l);
    case Bin(_, a, b) =>
      var (m1, _) := CheckExpr(t, true, m, a);
      var o1 := ExprSound(t, m, a, l);
      o := ExprSound(t, m1, b, o1);
    case Cmp(_, x, y) =>
      assert x.Var? ==> x in Vars(e);
      assert y.Var? ==> y in Vars(e);
      var (m1, _) := CheckName(t, true, m, x);
      var o1 := NameSound(t, m, x, l);
      o := NameSound(t, m1, y, o1);
  }

  lemma {:induction false} NameSound(t: Table, m: Marks, x: Symbol, l: Levels) returns (o: Levels)
    requires ChoiceTable(t) && Proper(t, m) && (x.Var? ==> x.id < |t|) && Finished(t, m, l)
    requires CheckName(t, true, m, x).1 == None
    ensures Finished(t, CheckName(t, true, m, x).0, o) && (x.Var? ==> x.id in Left(CheckName(t, true, m, x).0))
    decreases Ids(t) - m.checked, 4
  {
    if x.Var? { o := SymSound(t, m, x.id, l); } else { o := l; }
  }

  lemma {:induction false} ChoiceSound(t: Table, m: Marks, c: nat, l: Levels) returns (o: Levels)
    requires ChoiceTable(t) && Proper(t, m) && c < |t| && t[c].role.Choice? && c !in m.checked && Finished(t, m, l)
    requires CheckChoice(t, true, m, c).1 == None
    ensures Finished(t, CheckChoice(t, true, m, c).0, o)
    decreases Ids(t) - m.checked, 1
  {
    var ms := MemberSet(t[c].role.members);
    assert c in Ids(t) && c !in ms;
    assert ms !! m.checked;
    var m0 := Marks(m.check + ms + {c}, m.checked + ms + {c});
    assert Finished(t, m0, l);
    var o1 := OwnSound(t, m0, c, l);
    var (m1, _) := CheckOwn(t, true, m0, c);
    var o2 := Leave(t, m1, c, o1);
    var m2 := Marks(m1.check - {c}, m1.checked);
    var o3 := MembersSound(t, m2, c, 0, o2);
    var (m3, _) := CheckMembers(t, true, m2, c, 0);
    o := MembersLeave(t, m3, c, o3);
  }

  lemma {:induction false} MembersSound(t: Table, m: Marks, c: nat, k: nat, l: Levels) returns (o: Levels)
    requires ChoiceTable(t) && Proper(t, m) && c < |t| && t[c].role.Choice? && k <= |t[c].role.members| &&
             Finished(t, m, l)
    requires CheckMembers(t, true, m, c, k).1 == None
    ensures Finished(t, CheckMembers(t, true, m, c, k).0, o)
    ensures forall i :: k <= i < |t[c].role.members| ==>
            DepsIn(t, t[c].role.members[i], Left(CheckMembers(t, true, m, c, k).0))
    decreases Ids(t) - m.checked, 9, |t[c].role.members| - k
  {
    hide CheckOwn, DependsOn, WellFormed;
    if k == |t[c].role.members| {
      o := l;
    } else {
      var s := t[c].role.members[k];
      var (m1, _) := CheckOwn(t, true, m, s);
      var o1 := OwnSound(t, m, s, l);
      o := MembersSound(t, m1, c, k + 1, o1);
    }
  }

  lemma {:induction false} FromSound(t: Table, m: Marks, k: nat, l: Levels) returns (o: Levels)
    requires ChoiceTable(t) && Proper(t, m) && k <= |t| && Finished(t, m, l)
    requires CheckFrom(t, true, m, k).1 == 0
    ensures Finished(t, CheckFrom(t, true, m, k).0, o)
    decreases |t| - k
  {
    if k == |t| {
      o := l;
    } else {
      var (m1, _) := CheckSym(t, true, m, k);
      var o1 := SymSound(t, m, k, l);
      o := FromSound(t, m1, k + 1, o1);
    }
  }

  /** Dependencies rank below, and the members of a choice rank equal and above it. */
  ghost predicate MembersTied(t: Table, rank: seq<nat>) {
    && Ranked(t, rank)
    && (forall i :: 0 <= i < |t| && t[i].role.Member? && t[i].role.choice < |t| ==> rank[t[i].role.choice] < rank[i])
    && (forall i, j :: 0 <= i < |t| && 0 <= j < |t| && t[i].role.Member? && t[i].role == t[j].role ==>
      rank[i] == rank[j])
  }

  ghost function Height(l: Levels): nat { if l.Start? then 0 else 1 + Height(l.before) }

  /** The number of the level a symbol is on. */
  ghost function LevelOf(l: Levels, i: nat): nat
    requires i in All(l)
  {
    if i in l.level then Height(l.before) else LevelOf(l.before, i)
  }

  lemma {:induction false} LevelBound(l: Levels, i: nat)
    requires i in All(l)
    ensures LevelOf(l, i) < Height(l)
  {
    if i !in l.level { LevelBound(l.before, i); }
  }

  lemma {:induction false} LevelsOrdered(t: Table, l: Levels, i: nat, j: nat)
    requires Sound(t, l) && i in All(l) && i < |t| && j < |t|
    requires DependsOn(t, i, j) || (ChoiceTable(t) && t[i].role == Member(j))
    ensures j in All(l) && LevelOf(l, j) < LevelOf(l, i)
  {
    if i in l.level {
      assert j in All(l.before);
      LevelBound(l.before, j);
      assert j !in l.level;
    } else {
      LevelsOrdered(t, l.before, i, j);
      assert j !in l.level;
    }
  }

  lemma {:induction false} LevelsTied(t: Table, l: Levels, i: nat, j: nat)
    requires ChoiceTable(t) && Sound(t, l) && i in All(l) && i < |t| && j < |t| && t[i].role.Member? &&
             t[i].role == t[j].role
    ensures j in All(l) && LevelOf(l, j) == LevelOf(l, i)
  {
    if i !in l.level {
      LevelsTied(t, l.before, i, j);
      assert j !in l.level;
    }
  }

  /** If recursion is an error and the check reports none, the dependencies of all symbols, choices and their
      members included, have an order, in which the members of a choice do not depend on each other. */
  lemma NoErrorsMeansAcyclic(t: Table)
    requires ChoiceTable(t) && CheckAll(t, true) == 0
    ensures exists rank :: MembersTied(t, rank)
  {
    var l := FromSound(t, Marks({}, {}), 0, Start);
    assert forall i :: 0 <= i < |t| ==> i in All(l);
    var rank: seq<nat> := seq(|t|, i requires 0 <= i < |t| => LevelOf(l, i));
    forall i, j | 0 <= i < |t| && 0 <= j < |t| && (DependsOn(t, i, j) || t[i].role == Member(j))
      ensures rank[j] < rank[i]
    {
      LevelsOrdered(t, l, i, j);
    }
    forall i, j | 0 <= i < |t| && 0 <= j < |t| && t[i].role.Member? && t[i].role == t[j].role
      ensures rank[i] == rank[j]
    {
      LevelsTied(t, l, i, j);
    }
    assert MembersTied(t, rank);
  }

  // ----- what the search reports

  /** An order of the groups, a choice and its members being one group: everything a symbol depends on is in a
      lower group, except that a member may depend on its own choice. It exists when the table has no cycle
      even if evaluating a choice is taken to need all that its members depend on. */
  ghost predicate GroupRanked(t: Table, rank: seq<nat>) {
    && |rank| == |t|
    && (forall i :: 0 <= i < |t| && t[i].role.Member? && t[i].role.choice < |t| ==> rank[i] == rank[t[i].role.choice])
    && (forall i, j :: 0 <= i < |t| && 0 <= j < |t| && DependsOn(t, i, j) ==>
      rank[j] < rank[i] || t[i].role == Member(j))
  }

  /** Entering j meets no symbol of the current path. */
  ghost predicate Free(m: Marks, rank: seq<nat>, j: nat)
    requires j < |rank|
  {
    j !in m.check && (j in m.checked || forall g :: g in m.check && g < |rank| ==> rank[j] < rank[g])
  }

  ghost predicate ReadsFree(m: Marks, rank: seq<nat>, e: Expr) {
    forall x :: x in Vars(e) && x.Var? && x.id < |rank| ==> Free(m, rank, x.id)
  }

  lemma {:induction false} SymClean(t: Table, strict: bool, m: Marks, s: nat, rank: seq<nat>)
    requires ChoiceTable(t) && Proper(t, m) && s < |t| && GroupRanked(t, rank) && Free(m, rank, s)
    ensures CheckSym(t, strict, m, s).1 == None
    decreases Ids(t) - m.checked, if t[s].role.Member? then 3 else 2
  {
    if s !in m.checked {
      if t[s].role.Member? {
        SymClean(t, strict, m, t[s].role.choice, rank);
      } else if t[s].role.Choice? {
        ChoiceClean(t, strict, m, s, rank);
      } else {
        assert s in Ids(t);
        OwnClean(t, strict, Marks(m.check + {s}, m.checked + {s}), s, rank);
      }
    }
  }

  lemma {:induction false} OwnClean(t: Table, strict: bool, m: Marks, s: nat, rank: seq<nat>)
    requires ChoiceTable(t) && Proper(t, m) && s < |t| && GroupRanked(t, rank)
    requires forall g :: g in m.check ==> rank[s] <= rank[g]
    requires t[s].role.Member? ==> t[s].role.choice in m.checked && t[s].role.choice !in m.check
    ensures CheckOwn(t, strict, m, s).1 == None
    decreases Ids(t) - m.checked, 8
  {
    OwnedClean(t, strict, m, s, t[s].dirDep, rank);
    var (m1, _) := CheckOwned(t, strict, m, s, t[s].dirDep);
    OwnedClean(t, strict, m1, s, t[s].revDep, rank);
    var (m2, _) := CheckOwned(t, strict, m1, s, t[s].revDep);
    OwnedClean(t, strict, m2, s, t[s].implied, rank);
    var (m3, _) := CheckOwned(t, strict, m2, s, t[s].implied);
    PropsClean(t, strict, m3, s, 0, rank);
  }

  lemma {:induction false} PropsClean(t: Table, strict: bool, m: Marks, s: nat, k: nat, rank: seq<nat>)
    requires ChoiceTable(t) && Proper(t, m) && s < |t| && k <= |t[s].props| && GroupRanked(t, rank)
    requires forall g :: g in m.check ==> rank[s] <= rank[g]
    requires t[s].role.Member? ==> t[s].role.choice in m.checked && t[s].role.choice !in m.check
    ensures CheckProps(t, strict, m, s, k).1 == None
    decreases Ids(t) - m.checked, 7, |t[s].props| - k
  {
    if k < |t[s].props| {
      var p := t[s].props[k];
      if p.kind.ChoiceProp? || p.kind.Select? || p.kind.Imply? {
        PropsClean(t, strict, m, s, k + 1, rank);
      } else {
        PropVisibleOwned(t[s], k);
        OwnedClean(t, strict, m, s, p.visible, rank);
        var (m1, _) := CheckOwned(t, strict, m, s, p.visible);
        if !p.kind.Default? || t[s].role.Choice? {
          PropsClean(t, strict, m1, s, k + 1, rank);
        } else {
          PropExprOwned(t[s], k);
          OwnedClean(t, strict, m1, s, p.expr, rank);
          var (m2, _) := CheckOwned(t, strict, m1, s, p.expr);
          PropsClean(t, strict, m2, s, k + 1, rank);
        }
      }
    }
  }

  lemma {:induction false} OwnedClean(t: Table, strict: bool, m: Marks, s: nat, e: Option<Expr>, rank: seq<nat>)
    requires ChoiceTable(t) && Proper(t, m) && s < |t| && (e.Some? ==> Owns(t[s], e.value)) && GroupRanked(t, rank)
    requires forall g :: g in m.check ==> rank[s] <= rank[g]
    requires t[s].role.Member? ==> t[s].role.choice in m.checked && t[s].role.choice !in m.check
    ensures CheckOwned(t, strict, m, s, e).1 == None
    decreases Ids(t) - m.checked, 6
  {
    if e.Some? {
      assert Resolved(t, e.value);
      forall x | x in Vars(e.value) ensures Free(m, rank, x.id) {
        assert DependsOn(t, s, x.id);
      }
      ExprClean(t, strict, m, e.value, rank);
    }
  }

  lemma {:induction false} ExprClean(t: Table, strict: bool, m: Marks, e: Expr, rank: seq<nat>)
    requires ChoiceTable(t) && Proper(t, m) && Resolved(t, e) && GroupRanked(t, rank) && ReadsFree(m, rank, e)
    ensures CheckExpr(t, strict, m, e).1 == None
    decreases Ids(t) - m.checked, 5, e
  {
    match e
    case Sym(x) =>
      NameClean(t, strict, m, x, rank);
    case Neg(a) =>
      ExprClean(t, strict, m, a, rank);
    case Bin(_, a, b) =>
      ExprClean(t, strict, m, a, rank);
      ExprClean(t, strict, CheckExpr(t, strict, m, a).0, b, rank);
    case Cmp(_, x, y) =>
      assert x.Var? ==> x in Vars(e);
      assert y.Var? ==> y in Vars(e);
      NameClean(t, strict, m, x, rank);
      NameClean(t, strict, CheckName(t, strict, m, x).0, y, rank);
  }

  lemma {:induction false} NameClean(t: Table, strict: bool, m: Marks, x: Symbol, rank: seq<nat>)
    requires ChoiceTable(t) && Proper(t, m) && GroupRanked(t, rank)
    requires x.Var? ==> x.id < |t| && Free(m, rank, x.id)
    ensures CheckName(t, strict, m, x).1 == None
    decreases Ids(t) - m.checked, 4
  {
    if x.Var? { SymClean(t, strict, m, x.id, rank); }
  }

  lemma {:induction false} ChoiceClean(t: Table, strict: bool, m: Marks, c: nat, rank: seq<nat>)
    requires ChoiceTable(t) && Proper(t, m) && c < |t| && t[c].role.Choice? && c !in m.checked
    requires GroupRanked(t, rank) && Free(m, rank, c)
    ensures CheckChoice(t, strict, m, c).1 == None
    decreases Ids(t) - m.checked, 1
  {
    var ms := MemberSet(t[c].role.members);
    assert c in Ids(t) && c !in ms;
    assert ms !! m.checked;
    var m0 := Marks(m.check + ms + {c}, m.checked + ms + {c});
    assert forall g :: g in m0.check ==> rank[c] <= rank[g];
    OwnClean(t, strict, m0, c, rank);
    var (m1, _) := CheckOwn(t, strict, m0, c);
    MembersClean(t, strict, Marks(m1.check - {c}, m1.checked), c, 0, rank);
  }

  lemma {:induction false} MembersClean(t: Table, strict: bool, m: Marks, c: nat, k: nat, rank: seq<nat>)
    requires ChoiceTable(t) && Proper(t, m) && c < |t| && t[c].role.Choice? && k <= |t[c].role.members|
    requires GroupRanked(t, rank) && c in m.checked && c !in m.check
    requires forall g :: g in m.check ==> rank[c] <= rank[g]
    ensures CheckMembers(t, strict, m, c, k).1 == None
    decreases Ids(t) - m.checked, 9, |t[c].role.members| - k
  {
    if k < |t[c].role.members| {
      var s := t[c].role.members[k];
      OwnClean(t, strict, m, s, rank);
      MembersClean(t, strict, CheckOwn(t, strict, m, s).0, c, k + 1, rank);
    }
  }

  lemma {:induction false} FromClean(t: Table, strict: bool, m: Marks, k: nat, rank: seq<nat>)
    requires ChoiceTable(t) && Proper(t, m) && k <= |t| && GroupRanked(t, rank) && m.check == {}
    ensures CheckFrom(t, strict, m, k).1 == 0
    decreases |t| - k
  {
    if k < |t| {
      SymClean(t, strict, m, k, rank);
      FromClean(t, strict, CheckSym(t, strict, m, k).0, k + 1, rank);
    }
  }

  /** The check never raises a false alarm: a table without cycles through groups passes. */
  lemma AcyclicGroupsPass(t: Table, strict: bool, rank: seq<nat>)
    requires ChoiceTable(t) && GroupRanked(t, rank)
    ensures CheckAll(t, strict) == 0
  {
    FromClean(t, strict, Marks({}, {}), 0, rank);
  }

  // ----- when cycles are not errors

  predicate OnPath(m: Marks, r: Option<nat>) { r.Some? ==> r.value in m.check }

  /** Then a symbol is reported upwards only as far as it is on the path. */
  lemma {:induction false} SymLenient(t: Table, m: Marks, s: nat)
    requires ChoiceTable(t) && Proper(t, m) && s < |t|
    ensures OnPath(m, CheckSym(t, false, m, s).1)
    decreases Ids(t) - m.checked, if t[s].role.Member? then 3 else 2
  {
    if s !in m.checked {
      if t[s].role.Member? {
        SymLenient(t, m, t[s].role.choice);
      } else if t[s].role.Choice? {
        ChoiceLenient(t, m, s);
      } else {
        assert s in Ids(t);
        OwnLenient(t, Marks(m.check + {s}, m.checked + {s}), s);
      }
    }
  }

  lemma {:induction false} OwnLenient(t: Table, m: Marks, s: nat)
    requires ChoiceTable(t) && Proper(t, m) && s < |t|
    ensures OnPath(m, CheckOwn(t, false, m, s).1)
    decreases Ids(t) - m.checked, 8
  {
    OwnedLenient(t, m, s, t[s].dirDep);
    var (m1, _) := CheckOwned(t, false, m, s, t[s].dirDep);
    OwnedLenient(t, m1, s, t[s].revDep);
    var (m2, _) := CheckOwned(t, false, m1, s, t[s].revDep);
    OwnedLenient(t, m2, s, t[s].implied);
    var (m3, _) := CheckOwned(t, false, m2, s, t[s].implied);
    PropsLenient(t, m3, s, 0);
  }

  lemma {:induction false} PropsLenient(t: Table, m: Marks, s: nat, k: nat)
    requires ChoiceTable(t) && Proper(t, m) && s < |t| && k <= |t[s].props|
    ensures OnPath(m, CheckProps(t, false, m, s, k).1)
    decreases Ids(t) - m.checked, 7, |t[s].props| - k
  {
    if k < |t[s].props| {
      var p := t[s].props[k];
      if p.kind.ChoiceProp? || p.kind.Select? || p.kind.Imply? {
        PropsLenient(t, m, s, k + 1);
      } else {
        PropVisibleOwned(t[s], k);
        OwnedLenient(t, m, s, p.visible);
        var (m1, _) := CheckOwned(t, false, m, s, p.visible);
        if !p.kind.Default? || t[s].role.Choice? {
          PropsLenient(t, m1, s, k + 1);
        } else {
          PropExprOwned(t[s], k);
          OwnedLenient(t, m1, s, p.expr);
          PropsLenient(t, CheckOwned(t, false, m1, s, p.expr).0, s, k + 1);
        }
      }
    }
  }

  lemma {:induction false} OwnedLenient(t: Table, m: Marks, s: nat, e: Option<Expr>)
    requires ChoiceTable(t) && Proper(t, m) && s < |t| && (e.Some? ==> Owns(t[s], e.value))
    ensures OnPath(m, CheckOwned(t, false, m, s, e).1)
    decreases Ids(t) - m.checked, 6
  {
    if e.Some? {
      assert Resolved(t, e.value);
      ExprLenient(t, m, e.value);
    }
  }

  lemma {:induction false} ExprLenient(t: Table, m: Marks, e: Expr)
    requires ChoiceTable(t) && Proper(t, m) && Resolved(t, e)
    ensures OnPath(m, CheckExpr(t, false, m, e).1)
    decreases Ids(t) - m.checked, 5, e
  {
    match e
    case Sym(x) => NameLenient(t, m, x);
    case Neg(a) => ExprLenient(t, m, a);
    case Bin(_, a, b) =>
      ExprLenient(t, m, a);
      ExprLenient(t, CheckExpr(t, false, m, a).0, b);
    case Cmp(_, x, y) =>
      assert x.Var? ==> x in Vars(e);
      assert y.Var? ==> y in Vars(e);
      NameLenient(t, m, x);
      NameLenient(t, CheckName(t, false, m, x).0, y);
  }

  lemma {:induction false} NameLenient(t: Table, m: Marks, x: Symbol)
    requires ChoiceTable(t) && Proper(t, m) && (x.Var? ==> x.id < |t|)
    ensures OnPath(m, CheckName(t, false, m, x).1)
    decreases Ids(t) - m.checked, 4
  {
    if x.Var? { SymLenient(t, m, x.id); }
  }

  /** From a choice, the choice itself may still be reported. */
  lemma {:induction false} ChoiceLenient(t: Table, m: Marks, c: nat)
    requires ChoiceTable(t) && Proper(t, m) && c < |t| && t[c].role.Choice? && c !in m.checked
    ensures var r := CheckChoice(t, false, m, c).1; r == Some(c) || OnPath(m, r)
    decreases Ids(t) - m.checked, 1
  {
    var ms := MemberSet(t[c].role.members);
    assert c in Ids(t) && c !in ms;
    assert ms !! m.checked;
    var m0 := Marks(m.check + ms + {c}, m.checked + ms + {c});
    OwnLenient(t, m0, c);
    var (m1, _) := CheckOwn(t, false, m0, c);
    MembersLenient(t, Marks(m1.check - {c}, m1.checked), c, 0);
  }

  lemma {:induction false} MembersLenient(t: Table, m: Marks, c: nat, k: nat)
    requires ChoiceTable(t) && Proper(t, m) && c < |t| && t[c].role.Choice? && k <= |t[c].role.members|
    ensures OnPath(m, CheckMembers(t, false, m, c, k).1)
    decreases Ids(t) - m.checked, 9, |t[c].role.members| - k
  {
    if k < |t[c].role.members| {
      var s := t[c].role.members[k];
      OwnLenient(t, m, s);
      MembersLenient(t, CheckOwn(t, false, m, s).0, c, k + 1);
    }
  }

  lemma {:induction false} FromLenient(t: Table, m: Marks, k: nat)
    requires ChoiceTable(t) && Proper(t, m) && k <= |t| && m.check == {}
    ensures CheckFrom(t, false, m, k).1 == 0
    decreases |t| - k
  {
    if k < |t| {
      SymLenient(t, m, k);
      FromLenient(t, CheckSym(t, false, m, k).0, k + 1);
    }
  }

  /** So unless the caller has asked for it, no table is refused, whatever cycles it has: the report stops at the symbol
      where the cycle was closed. */
  lemma NothingRefused(t: Table)
    requires ChoiceTable(t)
    ensures CheckAll(t, false) == 0
  {
    FromLenient(t, Marks({}, {}), 0);
  }

  /** A choice is referred to by its members only, as is always so for a choice without a name that holds nothing
      but its members. */
  ghost predicate OnlyMembersUseChoices(t: Table) {
    forall i, j :: 0 <= i < |t| && 0 <= j < |t| && DependsOn(t, i, j) && t[j].role.Choice? ==> t[i].role == Member(j)
  }

  /** Then the check decides exactly whether there is a cycle, cycles through choices included. */
  lemma CheckDecidesChoices(t: Table)
    requires ChoiceTable(t) && OnlyMembersUseChoices(t)
    ensures CheckAll(t, true) == 0 <==> exists rank :: GroupRanked(t, rank)
  {
    hide CheckAll, DependsOn, WellFormed;
    if CheckAll(t, true) == 0 {
      NoErrorsMeansAcyclic(t);
      var r :| MembersTied(t, r);
      var rank: seq<nat> := seq(|t|, i requires 0 <= i < |t| =>
        if t[i].role.Choice? && |t[i].role.members| > 0 then r[t[i].role.members[0]] else r[i]);
      assert forall i :: 0 <= i < |t| ==> r[i] <= rank[i];
      assert GroupRanked(t, rank);
    }
    if rank :| GroupRanked(t, rank) { AcyclicGroupsPass(t, true, rank); }
  }

  /** Without choices the check decides exactly whether the dependencies are acyclic. */
  lemma CheckDecides(t: Table)
    requires ChoiceTable(t) && AllPlain(t)
    ensures CheckAll(t, true) == 0 <==> exists rank :: Ranked(t, rank)
  {
    if CheckAll(t, true) == 0 {
      NoErrorsMeansAcyclic(t);
      var r :| MembersTied(t, r);
    }
    if rank :| Ranked(t, rank) {
      assert GroupRanked(t, rank);
      AcyclicGroupsPass(t, true, rank);
    }
  }

  // ----- what the search misses

  function Depending(role: Role, on: Option<Symbol>): SymDef {
    SymDef(SymType.Boolean, [], if on.Some? then Some(Sym(on.value)) else None, None, None, role)
  }

  function B(i: nat): Symbol { Var(i, SymType.Boolean) }

  /** A choice, its one member, and a symbol X: the member depends on X, and X on the choice. */
  const CHOICE_FIRST: Table := [
    Depending(Choice([1]), None),
    Depending(Member(0), Some(B(2))),
    Depending(Plain, Some(B(0)))]

  /** The same three symbols, with X in front. */
  const CHOICE_LAST: Table := [
    Depending(Plain, Some(B(1))),
    Depending(Choice([2]), None),
    Depending(Member(1), Some(B(0)))]

  lemma ChoiceFirstTable()
    ensures ChoiceTable(CHOICE_FIRST) && forall rank :: !GroupRanked(CHOICE_FIRST, rank)
  {
    assert Owns(CHOICE_FIRST[1], Sym(B(2))) && Owns(CHOICE_FIRST[2], Sym(B(0)));
    assert DependsOn(CHOICE_FIRST, 1, 2) && DependsOn(CHOICE_FIRST, 2, 0);
  }

  lemma ChoiceLastTable()
    ensures ChoiceTable(CHOICE_LAST) && forall rank :: !GroupRanked(CHOICE_LAST, rank)
  {
    assert Owns(CHOICE_LAST[2], Sym(B(0))) && Owns(CHOICE_LAST[0], Sym(B(1)));
    assert DependsOn(CHOICE_LAST, 2, 0) && DependsOn(CHOICE_LAST, 0, 1);
  }

  /** A symbol that is on the path is reported, one that has been left is not. */
  lemma NameMarked(t: Table, m: Marks, i: nat)
    requires ChoiceTable(t) && Proper(t, m) && i < |t| && i in m.checked
    ensures CheckName(t, true, m, B(i)) == (m, if i in m.check then Some(i) else None)
  {
  }

  /** A definition that is nothing but a dependency on one symbol. */
  lemma OwnSingle(t: Table, m: Marks, s: nat, on: Option<Symbol>, role: Role)
    requires ChoiceTable(t) && Proper(t, m) && s < |t| && t[s] == Depending(role, on)
    requires on.Some? ==> Resolved(t, Sym(on.value))
    ensures on.None? ==> CheckOwn(t, true, m, s) == (m, None)
    ensures on.Some? && on.value.Var? ==>
            on.value.id < |t| && CheckOwn(t, true, m, s) == CheckName(t, true, m, on.value)
  {
    if on.Some? && on.value.Var? {
      assert on.value in Vars(Sym(on.value));
      var e := Sym(on.value);
      assert t[s].dirDep == Some(e) && Owns(t[s], e);
      assert CheckOwned(t, true, m, s, Some(e)) == CheckName(t, true, m, on.value);
    }
  }

  /** A cycle from a member of a choice over another symbol back to the choice goes unreported when the choice
      is checked first, and is reported when that other symbol is. */
  lemma CycleThroughChoiceDependsOnOrder()
    ensures ChoiceTable(CHOICE_FIRST) && (forall rank :: !GroupRanked(CHOICE_FIRST, rank)) &&
            CheckAll(CHOICE_FIRST, true) == 0
    ensures ChoiceTable(CHOICE_LAST) && (forall rank :: !GroupRanked(CHOICE_LAST, rank)) &&
            CheckAll(CHOICE_LAST, true) > 0
  {
    ChoiceFirstTable();
    ChoiceLastTable();
    ChoiceFirstPasses();
    ChoiceLastFails();
  }

  lemma ChoiceFirstPasses()
    requires ChoiceTable(CHOICE_FIRST)
    ensures CheckAll(CHOICE_FIRST, true) == 0
  {
    var t := CHOICE_FIRST;
    var m := Marks({0, 1}, {0, 1});
    assert MemberSet([1]) == {1};
    OwnSingle(t, m, 0, None, Choice([1]));
    MembersOfFirst();
    var none: set<nat> := {};
    assert none + {1} + {0} == {0, 1} && {0, 1} - {0} == {1} && {1} - {1} == none;
    assert CheckChoice(t, true, Marks({}, {}), 0) == (Marks({}, {0, 1, 2}), None);
    assert CheckSym(t, true, Marks({}, {}), 0) == (Marks({}, {0, 1, 2}), None);
    CheckedPass(t, Marks({}, {0, 1, 2}), 1);
  }

  /** Checking the member enters X, and X finds the choice already left. */
  lemma MembersOfFirst()
    requires ChoiceTable(CHOICE_FIRST)
    ensures CheckMembers(CHOICE_FIRST, true, Marks({1}, {0, 1}), 0, 0) == (Marks({1}, {0, 1, 2}), None)
  {
    var t := CHOICE_FIRST;
    var m1 := Marks({1}, {0, 1});
    OwnSingle(t, m1, 1, Some(B(2)), Member(0));
    var m2 := Marks({1, 2}, {0, 1, 2});
    OwnSingle(t, m2, 2, Some(B(0)), Plain);
    NameMarked(t, m2, 0);
    var m3 := Marks({1}, {0, 1, 2});
    assert m1.check + {2} == {1, 2} && m1.checked + {2} == {0, 1, 2} && {1, 2} - {2} == {1};
    assert CheckPlain(t, true, m1, 2) == (m3, None);
    assert CheckOwn(t, true, m1, 1) == (m3, None);
  }

  lemma {:induction false} CheckedPass(t: Table, m: Marks, k: nat)
    requires ChoiceTable(t) && Proper(t, m) && k <= |t| && m.check == {} && m.checked == Ids(t)
    ensures CheckFrom(t, true, m, k).1 == 0
    decreases |t| - k
  {
    if k < |t| { CheckedPass(t, m, k + 1); }
  }

  lemma ChoiceLastFails()
    requires ChoiceTable(CHOICE_LAST)
    ensures CheckAll(CHOICE_LAST, true) > 0
  {
    var t := CHOICE_LAST;
    var m := Marks({0}, {0});
    OwnSingle(t, m, 0, Some(B(1)), Plain);
    assert MemberSet([2]) == {2};
    var m1 := Marks({0, 1, 2}, {0, 1, 2});
    OwnSingle(t, m1, 1, None, Choice([2]));
    var m2 := Marks({0, 2}, {0, 1, 2});
    OwnSingle(t, m2, 2, Some(B(0)), Member(1));
    NameMarked(t, m2, 0);
    assert CheckMembers(t, true, m2, 1, 0) == (m2, Some(0));
    assert m.check + {2} + {1} == {0, 1, 2} && {0, 1, 2} - {1} == {0, 2};
    assert CheckChoice(t, true, m, 1).1 == Some(0);
    assert CheckSym(t, true, m, 1).1 == Some(0);
    var none: set<nat> := {};
    assert none + {0} == {0};
    assert CheckPlain(t, true, Marks({}, {}), 0).1 == Some(0);
    assert CheckSym(t, true, Marks({}, {}), 0).1 == Some(0);
  }

  /** Two choices with one member each, and each member depends on the other choice; the four symbols are in any
      order. */
  predicate Crossed(t: Table, c1: nat, m1: nat, c2: nat, m2: nat) {
    && |t| == 4 && c1 < 4 && m1 < 4 && c2 < 4 && m2 < 4
    && c1 != m1 && c1 != c2 && c1 != m2 && m1 != c2 && m1 != m2 && c2 != m2
    && t[c1] == Depending(Choice([m1]), None) && t[m1] == Depending(Member(c1), Some(B(c2)))
    && t[c2] == Depending(Choice([m2]), None) && t[m2] == Depending(Member(c2), Some(B(c1)))
  }

  lemma CrossedTable(t: Table, c1: nat, m1: nat, c2: nat, m2: nat)
    requires Crossed(t, c1, m1, c2, m2)
    ensures ChoiceTable(t)
  {
    CrossedRoles(t, c1, m1, c2, m2);
    forall i, e | 0 <= i < |t| && Owns(t[i], e) ensures Resolved(t, e) {
      assert i == c1 || i == m1 || i == c2 || i == m2;
      assert e == Sym(B(c1)) || e == Sym(B(c2));
    }
  }

  lemma CrossedRoles(t: Table, c1: nat, m1: nat, c2: nat, m2: nat)
    requires Crossed(t, c1, m1, c2, m2)
    ensures RolesMatch(t)
  {
    hide Depending;
    DependingRole(Choice([m1]), None);
    DependingRole(Member(c1), Some(B(c2)));
    DependingRole(Choice([m2]), None);
    DependingRole(Member(c2), Some(B(c1)));
    forall i | 0 <= i < |t|
      ensures t[i].role.Choice? ==>
              |t[i].role.members| == 1 && t[i].role.members[0] < |t| && t[t[i].role.members[0]].role == Member(i)
      ensures t[i].role.Member? ==>
                t[i].role.choice < |t| && t[t[i].role.choice].role.Choice? && i in t[t[i].role.choice].role.members
    {
      assert i == c1 || i == m1 || i == c2 || i == m2;
    }
  }

  lemma DependingRole(role: Role, on: Option<Symbol>)
    ensures Depending(role, on).role == role
  {
  }

  lemma CrossedCycle(t: Table, c1: nat, m1: nat, c2: nat, m2: nat, rank: seq<nat>)
    requires Crossed(t, c1, m1, c2, m2)
    ensures !GroupRanked(t, rank)
  {
    assert Owns(t[m1], Sym(B(c2))) && Owns(t[m2], Sym(B(c1)));
    assert DependsOn(t, m1, c2) && DependsOn(t, m2, c1);
  }

  /** The inner choice is entered from the member of the outer one, which is on the path; the outer choice is not any
      more. */
  lemma InnerChoice(t: Table, c1: nat, m1: nat, c2: nat, m2: nat)
    requires Crossed(t, c1, m1, c2, m2) && ChoiceTable(t)
    ensures CheckChoice(t, true, Marks({m1}, {m1, c1}), c2) == (Marks({m1}, {m1, c1, m2, c2}), None)
  {
    hide CheckOwn, CheckSym, CheckPlain, CheckProps, CheckExpr, CheckName;
    var all := {m1, c1, m2, c2};
    assert MemberSet([m2]) == {m2};
    assert {m1} + {m2} + {c2} == {m1, m2, c2} && {m1, c1} + {m2} + {c2} == all;
    OwnSingle(t, Marks({m1, m2, c2}, all), c2, None, Choice([m2]));
    assert {m1, m2, c2} - {c2} == {m1, m2} && {m1, m2} - {m2} == {m1};
    var m := Marks({m1, m2}, all);
    OwnSingle(t, m, m2, Some(B(c1)), Member(c2));
    NameMarked(t, m, c1);
    assert CheckMembers(t, true, m, c2, 1) == (m, None);
    assert CheckMembers(t, true, m, c2, 0) == (m, None);
  }

  lemma OuterChoice(t: Table, c1: nat, m1: nat, c2: nat, m2: nat)
    requires Crossed(t, c1, m1, c2, m2) && ChoiceTable(t)
    ensures CheckChoice(t, true, Marks({}, {}), c1) == (Marks({}, {m1, c1, m2, c2}), None)
  {
    var none: set<nat> := {};
    var all := {m1, c1, m2, c2};
    assert MemberSet([m1]) == {m1};
    assert none + {m1} + {c1} == {m1, c1};
    OwnSingle(t, Marks({m1, c1}, {m1, c1}), c1, None, Choice([m1]));
    assert {m1, c1} - {c1} == {m1} && {m1} - {m1} == none;
    var m := Marks({m1}, {m1, c1});
    OwnSingle(t, m, m1, Some(B(c2)), Member(c1));
    InnerChoice(t, c1, m1, c2, m2);
    assert CheckSym(t, true, m, c2) == (Marks({m1}, all), None);
    assert CheckOwn(t, true, m, m1) == (Marks({m1}, all), None);
    assert CheckMembers(t, true, Marks({m1}, all), c1, 1) == (Marks({m1}, all), None);
    assert CheckMembers(t, true, m, c1, 0) == (Marks({m1}, all), None);
  }

  /** That cycle goes unreported in every order of the symbols. */
  lemma CrossedChoicesPass(t: Table, c1: nat, m1: nat, c2: nat, m2: nat)
    requires Crossed(t, c1, m1, c2, m2)
    ensures ChoiceTable(t) && (forall rank :: !GroupRanked(t, rank)) && CheckAll(t, true) == 0
  {
    CrossedTable(t, c1, m1, c2, m2);
    forall rank ensures !GroupRanked(t, rank) {
      CrossedCycle(t, c1, m1, c2, m2, rank);
    }
    var after := Marks({}, {m1, c1, m2, c2});
    FourIds(c1, m1, c2, m2);
    EntryPasses(t, c1, m1, c2, m2);
    EntryPasses(t, c2, m2, c1, m1);
    assert {m1, c1, m2, c2} == {m2, c2, m1, c1} && 0 in Below(4);
    assert CheckSym(t, true, Marks({}, {}), 0) == (after, None);
    CheckedPass(t, after, 1);
  }

  /** Whichever symbol of the first choice is checked first, nothing is reported and all four are marked. */
  lemma EntryPasses(t: Table, c1: nat, m1: nat, c2: nat, m2: nat)
    requires Crossed(t, c1, m1, c2, m2) && ChoiceTable(t)
    ensures CheckSym(t, true, Marks({}, {}), c1) == (Marks({}, {m1, c1, m2, c2}), None)
    ensures CheckSym(t, true, Marks({}, {}), m1) == (Marks({}, {m1, c1, m2, c2}), None)
  {
    OuterChoice(t, c1, m1, c2, m2);
  }

  lemma FourIds(c1: nat, m1: nat, c2: nat, m2: nat)
    requires c1 < 4 && m1 < 4 && c2 < 4 && m2 < 4
    requires c1 != m1 && c1 != c2 && c1 != m2 && m1 != c2 && m1 != m2 && c2 != m2
    ensures {m1, c1, m2, c2} == Below(4)
  {
    assert forall i: nat :: i in Below(4) <==> i == c1 || i == m1 || i == c2 || i == m2;
  }

  // ----- the search as it is written, updating the flags in place

  class Checker {
    const table: Table
    const strict: bool
    var check: set<nat>
    var checked: set<nat>

    constructor (table: Table, strict: bool)
      requires ChoiceTable(table)
      ensures this.table == table && this.strict == strict && Now() == Marks({}, {})
    {
      this.table, this.strict := table, strict;
      check, checked := {}, {};
    }

    function Now(): Marks
      reads this
    {
      Marks(check, checked)
    }

    ghost predicate Ready()
      reads this
    {
      ChoiceTable(table) && Proper(table, Now())
    }

    /** `sym_check_deps`. */
    method CheckDeps(s: nat) returns (r: Option<nat>)
      requires Ready() && s < |table|
      modifies this
      ensures Ready() && (Now(), r) == CheckSym(table, strict, old(Now()), s)
      decreases Ids(table) - checked, if table[s].role.Member? then 3 else 2
    {
      if s in check { return Some(s); }
      if s in checked { return None; }
      match table[s].role {
        case Member(c) =>
          r := CheckDeps(c);
        case Choice(_) =>
          r := CheckChoiceDeps(s);
        case Plain =>
          assert s in Ids(table);
          check, checked := check + {s}, checked + {s};
          r := CheckSymDeps(s);
          check := check - {s};
      }
      if !strict && r == Some(s) { r := None; }
    }

    /** `sym_check_sym_deps`. */
    method CheckSymDeps(s: nat) returns (r: Option<nat>)
      requires Ready() && s < |table|
      modifies this
      ensures Ready() && (Now(), r) == CheckOwn(table, strict, old(Now()), s)
      decreases Ids(table) - checked, 8
    {
      var def := table[s];
      r := CheckOwnedDeps(s, def.dirDep);
      if r.Some? { return; }
      r := CheckOwnedDeps(s, def.revDep);
      if r.Some? { return; }
      r := CheckOwnedDeps(s, def.implied);
      if r.Some? { return; }
      r := CheckPropDeps(s);
    }

    /** The loop over the properties in `sym_check_sym_deps`. */
    method CheckPropDeps(s: nat) returns (r: Option<nat>)
      requires Ready() && s < |table|
      modifies this
      ensures Ready() && (Now(), r) == CheckProps(table, strict, old(Now()), s, 0)
      decreases Ids(table) - checked, 7
    {
      var props := table[s].props;
      var k := 0;
      while k < |props|
        invariant 0 <= k <= |props| && Ready() && Grown(old(Now()), Now())
        invariant CheckProps(table, strict, old(Now()), s, 0) == CheckProps(table, strict, Now(), s, k)
      {
        var p := props[k];
        if !p.kind.ChoiceProp? && !p.kind.Select? && !p.kind.Imply? {
          PropVisibleOwned(table[s], k);
          r := CheckOwnedDeps(s, p.visible);
          if r.Some? { return; }
          if p.kind.Default? && !table[s].role.Choice? {
            PropExprOwned(table[s], k);
            r := CheckOwnedDeps(s, p.expr);
            if r.Some? { return; }
          }
        }
        k := k + 1;
      }
      r := None;
    }

    /** `sym_check_expr_deps`, which accepts a null pointer. */
    method CheckOwnedDeps(s: nat, e: Option<Expr>) returns (r: Option<nat>)
      requires Ready() && s < |table| && (e.Some? ==> Owns(table[s], e.value))
      modifies this
      ensures Ready() && (Now(), r) == CheckOwned(table, strict, old(Now()), s, e)
      decreases Ids(table) - checked, 6
    {
      if e.None? { return None; }
      assert Resolved(table, e.value);
      r := CheckExprDeps(e.value);
    }

    method CheckExprDeps(e: Expr) returns (r: Option<nat>)
      requires Ready() && Resolved(table, e)
      modifies this
      ensures Ready() && (Now(), r) == CheckExpr(table, strict, old(Now()), e)
      decreases Ids(table) - checked, 5, e
    {
      match e
      case Sym(x) =>
        r := CheckNameDeps(x);
      case Neg(a) =>
        r := CheckExprDeps(a);
      case Bin(_, a, b) =>
        r := CheckExprDeps(a);
        if r.None? { r := CheckExprDeps(b); }
      case Cmp(_, x, y) =>
        assert x.Var? ==> x in Vars(e);
        assert y.Var? ==> y in Vars(e);
        r := CheckNameDeps(x);
        if r.None? { r := CheckNameDeps(y); }
    }

    method CheckNameDeps(x: Symbol) returns (r: Option<nat>)
      requires Ready() && (x.Var? ==> x.id < |table|)
      modifies this
      ensures Ready() && (Now(), r) == CheckName(table, strict, old(Now()), x)
      decreases Ids(table) - checked, 4
    {
      if x.Var? { r := CheckDeps(x.id); } else { r := None; }
    }

    /** `sym_check_choice_deps`. */
    method CheckChoiceDeps(c: nat) returns (r: Option<nat>)
      requires Ready() && c < |table| && table[c].role.Choice? && c !in checked
      modifies this
      ensures Ready() && (Now(), r) == CheckChoice(table, strict, old(Now()), c)
      decreases Ids(table) - checked, 1
    {
      var members := table[c].role.members;
      var ms := MemberSet(members);
      assert c in Ids(table) && c !in ms;
      assert ms !! checked;
      check, checked := check + ms + {c}, checked + ms + {c};
      r := CheckSymDeps(c);
      check := check - {c};
      if r.None? { r := CheckMemberDeps(c); }
      check := check - ms;
      if r.Some? && table[r.value].role == Member(c) { r := Some(c); }
    }

    /** The loop over the members in `sym_check_choice_deps`. */
    method CheckMemberDeps(c: nat) returns (r: Option<nat>)
      requires Ready() && c < |table| && table[c].role.Choice?
      modifies this
      ensures Ready() && (Now(), r) == CheckMembers(table, strict, old(Now()), c, 0)
      decreases Ids(table) - checked, 9
    {
      var members := table[c].role.members;
      var k := 0;
      r := None;
      while k < |members|
        invariant 0 <= k <= |members| && Ready() && Grown(old(Now()), Now()) && r.None?
        invariant CheckMembers(table, strict, old(Now()), c, 0) == CheckMembers(table, strict, Now(), c, k)
      {
        r := CheckSymDeps(members[k]);
        if r.Some? { return; }
        k := k + 1;
      }
    }

    /** The loop over all symbols after parsing. If it counts no error, the dependencies can be ordered. */
    method CheckTable() returns (errors: nat)
      requires Ready() && Now() == Marks({}, {})
      modifies this
      ensures errors == CheckAll(table, strict)
      ensures strict && errors == 0 ==> exists rank :: MembersTied(table, rank)
    {
      errors := 0;
      var i := 0;
      while i < |table|
        invariant 0 <= i <= |table| && Ready()
        invariant CheckAll(table, strict) == errors + CheckFrom(table, strict, Now(), i).1
      {
        var r := CheckDeps(i);
        if r.Some? { errors := errors + 1; }
        i := i + 1;
      }
      if strict && errors == 0 { NoErrorsMeansAcyclic(table); }
    }
  }
}
