/** What setting a user value does to the assignment: `sym_tristate_within_range` and `sym_set_tristate_value`. */
module UserValues {
  import opened Tristate
  import opened Expressions
  import opened Symbols

  /** `sym_tristate_within_range`, on the computed values of a symbol. */
  predicate WithinRange(def: SymDef, modules: Tri, vals: Values, val: Tri) {
    if vals.visible == NO then false
    else if !def.stype.Boolean? && !def.stype.Tristate? then false
    else if IsBool(def, modules) && val == MOD then false
    else if vals.visible <= vals.rev then false
    else if vals.implied == YES && val == MOD then false
    else vals.rev <= val <= vals.visible
  }

  /** `sym_is_changeable`. */
  predicate Changeable(vals: Values) { vals.visible > vals.rev }

  // ----- which symbols can be affected

  /** Symbol i reaches symbol j in at most n dependency steps. */
  ghost predicate ReachesIn(table: Table, i: nat, j: nat, n: nat)
    requires i < |table| && j < |table|
    decreases n
  {
    || i == j
    || (n > 0 && exists k :: 0 <= k < |table| && DependsOn(table, i, k) && ReachesIn(table, k, j, n - 1))
  }

  ghost predicate Reaches(table: Table, i: nat, j: nat)
    requires i < |table| && j < |table|
  {
    exists n: nat :: ReachesIn(table, i, j, n)
  }

  lemma ReachesStep(table: Table, i: nat, k: nat, j: nat)
    requires i < |table| && j < |table| && k < |table| && DependsOn(table, i, k) && Reaches(table, k, j)
    ensures Reaches(table, i, j)
  {
    var n: nat :| ReachesIn(table, k, j, n);
    assert ReachesIn(table, i, j, n + 1);
  }

  ghost predicate Setting(table: Table, rank: seq<nat>, modules: Tri) {
    WellFormed(table) && BoolOrTristate(table) && AllPlain(table) && Ranked(table, rank)
  }

  /** A new user value for s changes nothing that does not depend on s. */
  lemma {:induction false} OnlyDependentsChange(table: Table, rank: seq<nat>, user: seq<Option<Tri>>, modules: Tri,
                                                v: seq<Tri>, v': seq<Tri>, s: nat, u: Option<Tri>, i: nat)
    requires Setting(table, rank, modules) && i < |table| && s < |table|
    requires Solves(table, user, modules, v) && Solves(table, user[s := u], modules, v')
    requires !Reaches(table, i, s)
    ensures v'[i] == v[i]
    decreases rank[i]
  {
    assert i != s by { if i == s { assert ReachesIn(table, i, s, 0); } }
    forall k | 0 <= k < |table| && DependsOn(table, i, k) ensures v'[k] == v[k] {
      if Reaches(table, k, s) { ReachesStep(table, i, k, s); }
      OnlyDependentsChange(table, rank, user, modules, v, v', s, u, k);
    }
    EquationFrame(table, i, user[i], modules, v', v);
  }

  lemma {:induction false} ReachesRank(table: Table, rank: seq<nat>, i: nat, j: nat, n: nat)
    requires Ranked(table, rank) && i < |table| && j < |table| && ReachesIn(table, i, j, n)
    ensures rank[j] <= rank[i]
    decreases n
  {
    if i != j {
      var k :| 0 <= k < |table| && DependsOn(table, i, k) && ReachesIn(table, k, j, n - 1);
      ReachesRank(table, rank, k, j, n - 1);
    }
  }

  /** Nothing s depends on changes, so its equation keeps everything but the user value. */
  lemma DependenciesKept(table: Table, rank: seq<nat>, user: seq<Option<Tri>>, modules: Tri,
                         v: seq<Tri>, v': seq<Tri>, s: nat, u: Option<Tri>, w: Option<Tri>)
    requires Setting(table, rank, modules) && s < |table|
    requires Solves(table, user, modules, v) && Solves(table, user[s := u], modules, v')
    ensures Compute(table[s], w, EnvOf(table, v', modules)) == Compute(table[s], w, EnvOf(table, v, modules))
  {
    forall k | 0 <= k < |table| && DependsOn(table, s, k) ensures v'[k] == v[k] {
      if Reaches(table, k, s) {
        var n: nat :| ReachesIn(table, k, s, n);
        ReachesRank(table, rank, k, s, n);
      }
      OnlyDependentsChange(table, rank, user, modules, v, v', s, u, k);
    }
    EquationFrame(table, s, w, modules, v', v);
  }

  // ----- set, then read

  /** On one equation: a value within range is what the symbol then has, unless the symbol is selected
      although its direct dependencies are not met. */
  lemma SetThenReadLocal(def: SymDef, user: Option<Tri>, val: Tri, env: Env)
    requires WithinRange(def, env.modules, Compute(def, user, env), val)
    ensures Compute(def, Some(val), env).tri == val <==> !(Dir(def, env) == NO && Rev(def, env) != NO)
  {
  }

  /** The values within range are exactly those that the symbol takes when it is set to them, among those up to its
      visibility, provided it can be seen as more than it is selected as. */
  lemma RangeExact(def: SymDef, user: Option<Tri>, val: Tri, env: Env)
    requires (def.stype.Boolean? || def.stype.Tristate?) && !(Dir(def, env) == NO && Rev(def, env) != NO)
    ensures WithinRange(def, env.modules, Compute(def, user, env), val) <==>
            Visible(def, env) > Rev(def, env) && val <= Visible(def, env) && Compute(def, Some(val), env).tri == val
  {
  }

  /** Setting a symbol to a new value within range gives it exactly that value, or n if it is selected with
      unmet direct dependencies; every symbol that does not depend on it keeps its value. */
  lemma SetThenRead(table: Table, rank: seq<nat>, user: seq<Option<Tri>>, modules: Tri,
                    v: seq<Tri>, v': seq<Tri>, s: nat, val: Tri)
    requires Setting(table, rank, modules) && s < |table|
    requires Solves(table, user, modules, v) && Solves(table, user[s := Some(val)], modules, v')
    requires WithinRange(table[s], modules, Compute(table[s], user[s], EnvOf(table, v, modules)), val)
    ensures var vals := Compute(table[s], user[s], EnvOf(table, v, modules));
            v'[s] == val <==> !(vals.dir == NO && vals.rev != NO)
    ensures forall i :: 0 <= i < |table| && !Reaches(table, i, s) ==> v'[i] == v[i]
  {
    SetThenReadLocal(table[s], user[s], val, EnvOf(table, v, modules));
    DependenciesKept(table, rank, user, modules, v, v', s, Some(val), Some(val));
    forall i | 0 <= i < |table| && !Reaches(table, i, s) ensures v'[i] == v[i] {
      OnlyDependentsChange(table, rank, user, modules, v, v', s, Some(val), i);
    }
  }

  /** The exception is real: a symbol that can be seen as y and is selected as m, with dependencies that are n. It
      can be set to y, and is n. */
  lemma SetThenReadExample(a: Symbol, env: Env)
    requires a.Var? && ValidEnv(env) && TriOf(env, a) == NO && env.modules == YES
    ensures var def := SymDef(SymType.Tristate, [Prop(Prompt, None, None)], Some(Sym(a)), Some(Sym(SymMod)), None,
            Plain);
            WithinRange(def, env.modules, Compute(def, None, env), YES) && Compute(def, Some(YES), env).tri == NO
  {
    var props := [Prop(Prompt, None, None)];
    assert PromptsUpTo(props, 0, env) == NO && PromptsUpTo(props, 1, env) == YES;
  }

  /** Setting a symbol to the value it already has is accepted without a range check and without clearing the
      cache. The cached values still fit exactly if the symbol is not a visible-as-m symbol that is y for
      reasons other than being selected or implied. */
  lemma SetCurrentValue(table: Table, user: seq<Option<Tri>>, modules: Tri, v: seq<Tri>, s: nat)
    requires Solves(table, user, modules, v) && s < |table|
    ensures var vals := Compute(table[s], user[s], EnvOf(table, v, modules));
            Solves(table, user[s := Some(v[s])], modules, v) <==>
            !(vals.visible == MOD && vals.tri == YES && vals.rev != YES && vals.implied != YES)
  {
    var env := EnvOf(table, v, modules);
    SetCurrentLocal(table[s], user[s], env);
    var user' := user[s := Some(v[s])];
    if Compute(table[s], user'[s], env).tri == v[s] {
      assert Solves(table, user', modules, v);
    }
  }

  lemma SetCurrentLocal(def: SymDef, user: Option<Tri>, env: Env)
    ensures var vals := Compute(def, user, env);
            Compute(def, Some(vals.tri), env).tri == vals.tri <==>
            !(vals.visible == MOD && vals.tri == YES && vals.rev != YES && vals.implied != YES)
  {
  }

  // ----- no value without dependencies

  /** Every prompt and default of the symbol is conditional on its direct dependencies, as the menu
      finalisation arranges. */
  ghost predicate Guarded(def: SymDef) {
    forall k, env: Env | 0 <= k < |def.props| && ValidEnv(env) && CalcOpt(def.dirDep, env) == NO ::
      def.props[k].kind.Prompt? || def.props[k].kind.Default? ==> CalcOpt(def.props[k].visible, env) == NO
  }

  lemma {:induction false} NoPrompts(def: SymDef, k: nat, env: Env)
    requires Guarded(def) && ValidEnv(env) && CalcOpt(def.dirDep, env) == NO && k <= |def.props|
    ensures PromptsUpTo(def.props, k, env) == NO
  {
    if k > 0 { NoPrompts(def, k - 1, env); }
  }

  lemma {:induction false} NoDefaults(def: SymDef, k: nat, env: Env)
    requires Guarded(def) && ValidEnv(env) && CalcOpt(def.dirDep, env) == NO && k <= |def.props|
    ensures ActiveDefault(def.props, k, env) == None
    decreases |def.props| - k
  {
    if k < |def.props| { NoDefaults(def, k + 1, env); }
  }

  /** A guarded symbol whose direct dependencies are not met is n, whatever selects it, implies it, is its
      default or was set by the user; and the user cannot change that. */
  lemma NoValueWithoutDependencies(def: SymDef, user: Option<Tri>, env: Env)
    requires Guarded(def) && ValidEnv(env) && Dir(def, env) == NO
    ensures Compute(def, user, env).tri == NO
    ensures forall val: Tri :: !WithinRange(def, env.modules, Compute(def, user, env), val)
  {
    NoPrompts(def, |def.props|, env);
    NoDefaults(def, 0, env);
  }

  /** While its direct dependencies are not met, no user value gives a symbol a value if and only if something
      selects it (it is forced to n then), or it can neither be seen nor has a default of its own. */
  lemma ValuesWithoutDependencies(def: SymDef, env: Env)
    requires ValidEnv(env) && Dir(def, env) == NO
    ensures (forall user: Option<Tri> :: Compute(def, user, env).tri == NO) <==>
            Rev(def, env) != NO || (Visible(def, env) == NO && DefaultTri(def, env) == NO)
  {
    if Rev(def, env) == NO {
      assert Implied(def, env) == NO;
      if Visible(def, env) != NO { assert Compute(def, Some(YES), env).tri != NO; }
      else { assert Compute(def, None, env).tri == NO <==> DefaultTri(def, env) == NO; }
    }
  }

  /** So after the menu finalisation a value that is accepted is always the value read back. */
  lemma SetThenReadGuarded(def: SymDef, user: Option<Tri>, val: Tri, env: Env)
    requires Guarded(def) && ValidEnv(env) && WithinRange(def, env.modules, Compute(def, user, env), val)
    ensures Compute(def, Some(val), env).tri == val
  {
    if Dir(def, env) == NO { NoValueWithoutDependencies(def, user, env); }
    SetThenReadLocal(def, user, val, env);
  }
}
