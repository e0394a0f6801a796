/** `sym_calc_value` and its helpers: values are computed on demand and cached behind a validity flag. */
module Evaluator {
  import opened Tristate
  import opened Expressions
  import opened Symbols
  import opened UserValues

  /** The fields of a symbol that evaluation updates: SYMBOL_VALID and the computed values. */
  datatype SymState = SymState(valid: bool, vals: Values)

  class Config {
    const table: Table
    const modules: Tri
    /** SYMBOL_DEF_USER and def[S_DEF_USER].tri of each symbol. */
    var user: seq<Option<Tri>>
    var state: seq<SymState>
    /** The symbols whose SYMBOL_WRITE flag a writer has taken away since the cache was last cleared. */
    ghost var cleared: set<nat>

    constructor (table: Table, modules: Tri, user: seq<Option<Tri>>)
      requires WellFormed(table) && BoolOrTristate(table) && AllPlain(table) && |user| == |table|
      ensures this.table == table && this.modules == modules && this.user == user
      ensures Proper() && forall i :: 0 <= i < |table| ==> !state[i].valid
    {
      this.table, this.modules, this.user := table, modules, user;
      this.state := seq(|table|, _ => SymState(false, Values(NO, NO, NO, NO, NO, false)));
      this.cleared := {};
    }

    ghost predicate Proper()
      reads this
    {
      && WellFormed(table) && BoolOrTristate(table) && AllPlain(table) && |user| == |table| == |state|
      && forall i :: i in cleared ==> i < |state| && state[i].valid
    }

    ghost function Invalid(): set<nat>
      reads this
    {
      set i | 0 <= i < |state| && !state[i].valid
    }

    /** What the equation of symbol i says in the assignment `v`. */
    ghost function Expected(v: seq<Tri>, i: nat): Values
      reads this
      requires |user| == |table| == |v| && i < |table|
    {
      var vals := Compute(table[i], user[i], EnvOf(table, v, modules));
      if i in cleared then vals.(write := false) else vals
    }

    /** Every valid symbol that is not under evaluation holds what its equation says. */
    ghost predicate Coherent(v: seq<Tri>, busy: set<nat>)
      reads this
      requires |user| == |table| == |state| == |v|
    {
      forall i :: 0 <= i < |table| && state[i].valid && i !in busy ==>
                    state[i].vals == Expected(v, i)
    }

    /** The table is acyclic, `v` is its assignment, and the cache agrees with it outside `busy`. */
    ghost predicate Good(v: seq<Tri>, rank: seq<nat>, busy: set<nat>)
      reads this
    {
      Proper() && Solves(table, user, modules, v) && Ranked(table, rank) && Coherent(v, busy)
    }

    /** What is under evaluation ranks at least as high as s. */
    ghost predicate AtLeast(s: nat, rank: seq<nat>, busy: set<nat>) {
      s < |rank| && forall g :: g in busy ==> g < |rank| && rank[s] <= rank[g]
    }

    /** Everything under evaluation ranks above the symbols that `e` reads. */
    ghost predicate ReadsBelow(e: Expr, rank: seq<nat>, busy: set<nat>) {
      forall x :: x in Vars(e) ==> x.Var? && x.id < |rank| && forall g :: g in busy ==>
        g < |rank| && rank[x.id] < rank[g]
    }

    lemma OwnedReadsBelow(s: nat, e: Expr, rank: seq<nat>, busy: set<nat>)
      requires WellFormed(table) && Ranked(table, rank) && s < |table| && Owns(table[s], e) && AtLeast(s, rank, busy)
      ensures ReadsBelow(e, rank, busy)
    {
      assert Resolved(table, e);
      forall x | x in Vars(e) ensures rank[x.id] < rank[s] {
        assert DependsOn(table, s, x.id);
      }
    }

    /** Valid symbols stay as they are, and so do the user values. */
    twostate predicate Extended()
      reads this
    {
      && user == old(user) && cleared == old(cleared)
      && |state| == |old(state)|
      && forall i :: 0 <= i < |state| && old(state[i].valid) ==> state[i] == old(state[i])
    }

    /** The same, but for the four dependency values of the symbol s under evaluation. */
    twostate predicate ExtendedBut(s: nat)
      reads this
    {
      && user == old(user) && cleared == old(cleared)
      && |state| == |old(state)|
      && (forall i :: 0 <= i < |state| && i != s && old(state[i].valid) ==> state[i] == old(state[i]))
      && s < |state| && state[s].valid
      && state[s].vals.tri == old(state[s].vals.tri) && state[s].vals.write == old(state[s].vals.write)
    }

    /** Writes the computed fields of a symbol under evaluation. */
    method Store(s: nat, vals: Values, ghost v: seq<Tri>, ghost rank: seq<nat>, ghost busy: set<nat>, ghost ok: bool)
      requires Proper() && s < |table| && state[s].valid && s in busy
      requires ok ==> Good(v, rank, busy)
      modifies this`state
      ensures Proper() && state == old(state)[s := SymState(true, vals)] && Invalid() == old(Invalid())
      ensures ok ==> Good(v, rank, busy)
    {
      state := state[s := SymState(true, vals)];
    }

    /** `sym_calc_value`, given that the evaluation of the symbols in `busy` is under way.
        It terminates on every table, cyclic or not, because a symbol becomes valid before anything it
        depends on is evaluated. If the table is acyclic (`ok`), the cache stays coherent. */
    method CalcValue(s: nat, ghost v: seq<Tri>, ghost rank: seq<nat>, ghost busy: set<nat>, ghost ok: bool)
      requires Proper() && s < |table|
      requires ok ==> Good(v, rank, busy) && s !in busy && AtLeast(s, rank, busy)
      modifies this
      ensures Proper() && Extended() && state[s].valid
      ensures ok ==> Good(v, rank, busy)
      decreases Invalid(), 0
    {
      hide Solves, Ranked, WellFormed, Visible, Dir, Rev, Implied;
      if state[s].valid { return; }
      ghost var busy' := busy + {s};
      state := state[s := SymState(true, state[s].vals.(write := false))];
      assert s in old(Invalid()) && s !in Invalid() && Invalid() <= old(Invalid());
      CalcVisibility(s, v, rank, busy', ok);
      // the value in case s is reached again
      Store(s, state[s].vals.(tri := NO, write := state[s].vals.visible != NO), v, rank, busy', ok);
      var newval := CalcOwnValue(s, v, rank, busy', ok);
      if state[s].vals.dir == NO && state[s].vals.rev != NO {
        newval := NO;
      } else {
        newval := Or(newval, state[s].vals.rev);
      }
      if newval == MOD && (IsBool(table[s], modules) || state[s].vals.implied == YES) {
        newval := YES;
      }
      Store(s, state[s].vals.(tri := newval), v, rank, busy', ok);
    }

    /** The part of `sym_calc_value` that picks the user value, or the default and the implying symbols. */
    method CalcOwnValue(s: nat, ghost v: seq<Tri>, ghost rank: seq<nat>, ghost busy: set<nat>, ghost ok: bool)
      returns (newval: Tri)
      requires Proper() && s < |table| && state[s].valid && s in busy
      requires state[s].vals.write == (state[s].vals.visible != NO)
      requires ok ==> Good(v, rank, busy) && AtLeast(s, rank, busy) && HasDeps(s, state[s].vals, v)
      modifies this
      ensures Proper() && (ok ==> Good(v, rank, busy))
      ensures user == old(user) && cleared == old(cleared) && |state| == |old(state)|
      ensures forall i :: 0 <= i < |state| && i != s && old(state[i].valid) ==> state[i] == old(state[i])
      ensures state[s].valid && state[s].vals == old(state[s].vals).(write := state[s].vals.write)
      ensures ok ==> newval == OwnValue(table[s], user[s], EnvOf(table, v, modules))
      ensures ok ==> state[s].vals.write == Compute(table[s], user[s], EnvOf(table, v, modules)).write
      decreases Invalid(), 6
    {
      newval := NO;
      var vals := state[s].vals;
      if vals.visible != NO && user[s].Some? {
        return And(user[s].value, vals.visible);
      }
      if vals.rev != NO { vals := vals.(write := true); }
      var prop, visible := GetDefault(s, v, rank, busy, ok);
      if prop.Some? {
        vals := vals.(write := true);
        var t := CalcOwned(s, prop.value.expr, v, rank, busy, ok);
        newval := And(t, visible);
      }
      if vals.implied != NO {
        vals := vals.(write := true);
        newval := Or(newval, vals.implied);
      }
      Store(s, vals, v, rank, busy, ok);
    }

    /** The four dependency values are those of the equation. */
    ghost predicate HasDeps(s: nat, vals: Values, v: seq<Tri>)
      requires s < |table| == |v|
    {
      var env := EnvOf(table, v, modules);
      && vals.visible == Visible(table[s], env) && vals.dir == Dir(table[s], env)
      && vals.rev == Rev(table[s], env) && vals.implied == Implied(table[s], env)
    }

    /** The loop over the prompts in `sym_calc_visibility`. */
    method CalcPrompts(s: nat, ghost v: seq<Tri>, ghost rank: seq<nat>, ghost busy: set<nat>, ghost ok: bool)
      returns (tri: Tri)
      requires Proper() && s < |table|
      requires ok ==> Good(v, rank, busy) && AtLeast(s, rank, busy)
      modifies this
      ensures Proper() && Extended() && Invalid() <= old(Invalid())
      ensures ok ==> Good(v, rank, busy)
      ensures ok ==> tri == PromptsUpTo(table[s].props, |table[s].props|, EnvOf(table, v, modules))
      decreases Invalid(), 5
    {
      ghost var env := if ok then EnvOf(table, v, modules) else Env(map[], map[], modules);
      var def := table[s];
      tri := NO;
      var k := 0;
      while k < |def.props|
        invariant 0 <= k <= |def.props|
        invariant Proper() && Extended() && Invalid() <= old(Invalid())
        invariant ok ==> Good(v, rank, busy) && tri == PromptsUpTo(def.props, k, env)
      {
        if def.props[k].kind.Prompt? {
          if def.props[k].visible.Some? { PropOwned(def, k, def.props[k].visible.value); }
          var t := CalcOwned(s, def.props[k].visible, v, rank, busy, ok);
          tri := Or(tri, t);
        }
        k := k + 1;
      }
    }

    /** `sym_calc_visibility`. */
    method CalcVisibility(s: nat, ghost v: seq<Tri>, ghost rank: seq<nat>, ghost busy: set<nat>, ghost ok: bool)
      requires Proper() && s < |table| && state[s].valid && s in busy && s !in cleared
      requires ok ==> Good(v, rank, busy) && AtLeast(s, rank, busy)
      modifies this
      ensures Proper() && ExtendedBut(s)
      ensures ok ==> Good(v, rank, busy) && HasDeps(s, state[s].vals, v)
      decreases Invalid(), 7
    {
      var def := table[s];
      var tri := CalcPrompts(s, v, rank, busy, ok);
      Store(s, state[s].vals.(visible := Promote(def, modules, tri)), v, rank, busy, ok);

      tri := CalcOwned(s, def.dirDep, v, rank, busy, ok);
      Store(s, state[s].vals.(dir := Promote(def, modules, tri)), v, rank, busy, ok);

      CalcReverse(s, v, rank, busy, ok);
    }

    /** Its last part: the selecting and the implying symbols. */
    method CalcReverse(s: nat, ghost v: seq<Tri>, ghost rank: seq<nat>, ghost busy: set<nat>, ghost ok: bool)
      requires Proper() && s < |table| && state[s].valid && s in busy && s !in cleared
      requires ok ==> Good(v, rank, busy) && AtLeast(s, rank, busy)
      requires ok ==> state[s].vals.dir == Dir(table[s], EnvOf(table, v, modules))
      modifies this
      ensures Proper() && ExtendedBut(s)
      ensures state[s].vals.visible == old(state[s].vals.visible) && state[s].vals.dir == old(state[s].vals.dir)
      ensures ok ==> Good(v, rank, busy)
      ensures ok ==> state[s].vals.rev == Rev(table[s], EnvOf(table, v, modules))
      ensures ok ==> state[s].vals.implied == Implied(table[s], EnvOf(table, v, modules))
      decreases Invalid(), 6
    {
      var def, tri := table[s], NO;
      if def.revDep.Some? { tri := CalcOwned(s, def.revDep, v, rank, busy, ok); }
      Store(s, state[s].vals.(rev := Promote(def, modules, tri)), v, rank, busy, ok);

      tri := NO;
      if def.implied.Some? && state[s].vals.dir != NO { tri := CalcOwned(s, def.implied, v, rank, busy, ok); }
      Store(s, state[s].vals.(implied := Promote(def, modules, tri)), v, rank, busy, ok);
    }

    /** `sym_get_default_prop`: the first default whose condition holds, and the value of that condition. */
    method GetDefault(s: nat, ghost v: seq<Tri>, ghost rank: seq<nat>, ghost busy: set<nat>, ghost ok: bool)
      returns (prop: Option<Prop>, visible: Tri)
      requires Proper() && s < |table|
      requires ok ==> Good(v, rank, busy) && AtLeast(s, rank, busy)
      modifies this
      ensures Proper() && Extended() && Invalid() <= old(Invalid())
      ensures prop.Some? && prop.value.expr.Some? ==> Owns(table[s], prop.value.expr.value)
      ensures ok ==> Good(v, rank, busy) && prop == ActiveDefault(table[s].props, 0, EnvOf(table, v, modules))
      ensures ok && prop.Some? ==> visible == CalcOpt(prop.value.visible, EnvOf(table, v, modules))
      decreases Invalid(), 5
    {
      ghost var env := if ok then EnvOf(table, v, modules) else Env(map[], map[], modules);
      var def := table[s];
      var k := 0;
      while k < |def.props|
        invariant 0 <= k <= |def.props|
        invariant Proper() && Extended() && Invalid() <= old(Invalid())
        invariant ok ==> Good(v, rank, busy) && ActiveDefault(def.props, 0, env) == ActiveDefault(def.props, k, env)
      {
        var p := def.props[k];
        if p.kind.Default? {
          if p.visible.Some? { PropOwned(def, k, p.visible.value); }
          if p.expr.Some? { PropOwned(def, k, p.expr.value); }
          visible := CalcOwned(s, p.visible, v, rank, busy, ok);
          if visible != NO { return Some(p), visible; }
        }
        k := k + 1;
      }
      return None, NO;
    }

    /** `expr_calc_value` on an expression of the definition of s, or on a null pointer. */
    method CalcOwned(s: nat, e: Option<Expr>, ghost v: seq<Tri>, ghost rank: seq<nat>, ghost busy: set<nat>,
                     ghost ok: bool)
      returns (r: Tri)
      requires Proper() && s < |table| && (e.Some? ==> Owns(table[s], e.value))
      requires ok ==> Good(v, rank, busy) && AtLeast(s, rank, busy)
      modifies this
      ensures Proper() && Extended() && Invalid() <= old(Invalid())
      ensures ok ==> Good(v, rank, busy) && r == CalcOpt(e, EnvOf(table, v, modules))
      decreases Invalid(), 4
    {
      if e.None? { return YES; }
      assert Resolved(table, e.value);
      if ok { OwnedReadsBelow(s, e.value, rank, busy); }
      r := CalcExpr(e.value, v, rank, busy, ok);
    }

    /** `expr_calc_value`. */
    method CalcExpr(e: Expr, ghost v: seq<Tri>, ghost rank: seq<nat>, ghost busy: set<nat>, ghost ok: bool)
      returns (r: Tri)
      requires Proper() && Resolved(table, e)
      requires ok ==> Good(v, rank, busy) && ReadsBelow(e, rank, busy)
      modifies this
      ensures Proper() && Extended() && Invalid() <= old(Invalid())
      ensures ok ==> Good(v, rank, busy) && r == Calc(e, EnvOf(table, v, modules))
      decreases Invalid(), 3, e
    {
      match e
      case Sym(x) =>
        r := CalcSymbol(x, v, rank, busy, ok);
      case Neg(a) =>
        r := CalcExpr(a, v, rank, busy, ok);
        r := Not(r);
      case Bin(op, left, right) =>
        var a := CalcExpr(left, v, rank, busy, ok);
        var b := CalcExpr(right, v, rank, busy, ok);
        r := Apply(op, a, b);
      case Cmp(rel, x, y) =>
        r := CalcCompare(rel, x, y, v, rank, busy, ok);
    }

    method CalcCompare(rel: Rel, x: Symbol, y: Symbol, ghost v: seq<Tri>, ghost rank: seq<nat>, ghost busy: set<nat>,
                       ghost ok: bool)
      returns (r: Tri)
      requires Proper() && Resolved(table, Cmp(rel, x, y))
      requires ok ==> Good(v, rank, busy) && ReadsBelow(Cmp(rel, x, y), rank, busy)
      modifies this
      ensures Proper() && Extended() && Invalid() <= old(Invalid())
      ensures ok ==> Good(v, rank, busy) && r == Calc(Cmp(rel, x, y), EnvOf(table, v, modules))
      decreases Invalid(), 2
    {
      var a := CalcSymbol(x, v, rank, busy, ok);
      var b := CalcSymbol(y, v, rank, busy, ok);
      r := FromBool(RelHolds(rel, Compare(SymbolString(x, a), x.Type(), SymbolString(y, b), y.Type())));
    }

    /** `sym_get_string_value` of a symbol whose tristate value is `t`. */
    function SymbolString(x: Symbol, t: Tri): string {
      if x.Var? then TriString(t, modules) else StrOf(Env(map[], map[], modules), x)
    }

    /** `sym_calc_value` on a symbol an expression mentions; constants are always valid. */
    method CalcSymbol(x: Symbol, ghost v: seq<Tri>, ghost rank: seq<nat>, ghost busy: set<nat>, ghost ok: bool)
      returns (r: Tri)
      requires Proper() && (x.Var? ==> x.id < |table| && x == SymbolAt(table, x.id))
      requires ok ==> Good(v, rank, busy) && ReadsBelow(Sym(x), rank, busy)
      modifies this
      ensures Proper() && Extended() && Invalid() <= old(Invalid())
      ensures ok ==> Good(v, rank, busy) && r == TriOf(EnvOf(table, v, modules), x)
      decreases Invalid(), 1
    {
      match x
      case SymYes => r := YES;
      case SymMod => r := MOD;
      case SymNo => r := NO;
      case Const(_) => r := NO;
      case Var(id, _) =>
        assert x in Vars(Sym(x));
        CalcValue(id, v, rank, busy, ok);
        r := state[id].vals.tri;
        if ok { EnvLookup(table, v, modules, id); }
    }
  
    // ----- the operations callers use

    /** `sym_calc_value` from outside, then the value. On an acyclic table it is the value of the symbol in the
        table's assignment, whatever was evaluated before. */
    method Read(s: nat, ghost v: seq<Tri>, ghost rank: seq<nat>) returns (r: Tri)
      requires Good(v, rank, {}) && s < |table|
      modifies this
      ensures Good(v, rank, {}) && Extended() && state[s].valid && r == v[s]
    {
      CalcValue(s, v, rank, {}, true);
      r := state[s].vals.tri;
    }

    /** Takes SYMBOL_WRITE away from a valid symbol. */
    method ClearWrite(s: nat, ghost v: seq<Tri>, ghost rank: seq<nat>)
      requires Good(v, rank, {}) && s < |table| && state[s].valid
      modifies this`state, this`cleared
      ensures Good(v, rank, {}) && cleared == old(cleared) + {s}
      ensures state == old(state)[s := SymState(true, old(state[s].vals).(write := false))]
    {
      state := state[s := SymState(true, state[s].vals.(write := false))];
      cleared := cleared + {s};
    }

    /** `sym_clear_all_valid`, with the modules symbol fixed. */
    method ClearAllValid()
      requires Proper()
      modifies this`state, this`cleared
      ensures Proper() && forall i :: 0 <= i < |state| ==> !state[i].valid
      ensures cleared == {}
    {
      var i := 0;
      cleared := {};
      while i < |state|
        invariant 0 <= i <= |state| == |table| && cleared == {}
        invariant forall j :: 0 <= j < i ==> !state[j].valid
      {
        state := state[i := state[i].(valid := false)];
        i := i + 1;
      }
    }

    /** `sym_set_tristate_value`. */
    method SetTristate(s: nat, val: Tri, ghost v: seq<Tri>, ghost rank: seq<nat>) returns (accepted: bool)
      requires Good(v, rank, {}) && s < |table| && state[s].valid
      modifies this
      ensures Proper()
      ensures accepted <==> val == v[s] || WithinRange(table[s], modules, old(state[s].vals), val)
      ensures user == if accepted then old(user)[s := Some(val)] else old(user)
      ensures !accepted || val == v[s] ==> state == old(state) && cleared == old(cleared)
      ensures accepted && val != v[s] ==>
                forall w :: Solves(table, user, modules, w) ==> Good(w, rank, {})
    {
      var oldval := state[s].vals.tri;
      if oldval != val && !WithinRange(table[s], modules, state[s].vals, val) { return false; }
      user := user[s := Some(val)];
      if oldval != val { ClearAllValid(); }
      return true;
    }

    /** Set, then read: in one cache, from any coherent state. What is read is the value that was set, unless the
        symbol is selected although its direct dependencies are not met. */
    method SetThenReadBack(s: nat, val: Tri, ghost v: seq<Tri>, ghost w: seq<Tri>, ghost rank: seq<nat>)
      returns (accepted: bool, r: Tri)
      requires Good(v, rank, {}) && s < |table| && state[s].valid && val != v[s]
      requires Solves(table, user[s := Some(val)], modules, w)
      modifies this
      ensures accepted ==> Good(w, rank, {}) && r == w[s]
      ensures accepted ==> (r == val <==> !(old(state[s].vals.dir) == NO && old(state[s].vals.rev) != NO))
      ensures accepted ==> forall i :: 0 <= i < |table| && !Reaches(table, i, s) ==> w[i] == v[i]
      ensures !accepted ==> state == old(state) && user == old(user) && r == v[s]
    {
      ghost var before := user;
      ghost var vals := state[s].vals;
      accepted := SetTristate(s, val, v, rank);
      if accepted {
        r := Read(s, w, rank);
        assert vals.(write := true) == Compute(table[s], before[s], EnvOf(table, v, modules)).(write := true);
        SetThenRead(table, rank, before, modules, v, w, s, val);
      } else {
        r := state[s].vals.tri;
      }
    }
  }
}
