/** Symbol definitions, and the equation each symbol's value has to satisfy. */
module Symbols {
  import opened Tristate
  import opened Expressions

  datatype PropKind = Prompt | Default | Select | Imply | ChoiceProp | OtherProp

  /** A property: its condition `visible`, and its value `expr` (the value of a default). */
  datatype Prop = Prop(kind: PropKind, visible: Option<Expr>, expr: Option<Expr>)

  /** The part a symbol plays in a choice block. */
  datatype Role = Plain | Choice(members: seq<nat>) | Member(choice: nat)

  datatype SymDef = SymDef(
    stype: SymType,
    props: seq<Prop>,
    dirDep: Option<Expr>,
    revDep: Option<Expr>,
    implied: Option<Expr>,
    role: Role)

  type Table = seq<SymDef>

  function SymbolAt(table: Table, i: nat): Symbol
    requires i < |table|
  {
    Var(i, table[i].stype)
  }

  /** A property holds an expression that evaluating or checking its symbol looks at. */
  predicate PropOwns(role: Role, p: Prop, e: Expr) {
    && !p.kind.Select? && !p.kind.Imply? && !p.kind.ChoiceProp?
    && (p.visible == Some(e) || (p.kind.Default? && !role.Choice? && p.expr == Some(e)))
  }

  predicate Owns(def: SymDef, e: Expr) {
    || def.dirDep == Some(e) || def.revDep == Some(e) || def.implied == Some(e)
    || exists k :: 0 <= k < |def.props| && PropOwns(def.role, def.props[k], e)
  }

  /** Symbol i depends on symbol j. */
  ghost predicate DependsOn(table: Table, i: nat, j: nat)
    requires i < |table| && j < |table|
  {
    exists e :: Owns(table[i], e) && SymbolAt(table, j) in Vars(e)
  }

  /** Every name in an expression has its definition in the table. */
  predicate Resolved(table: Table, e: Expr) {
    forall s :: s in Vars(e) ==> s.Var? && s.id < |table| && s == SymbolAt(table, s.id)
  }

  ghost predicate WellFormed(table: Table) {
    forall i, e :: 0 <= i < |table| && Owns(table[i], e) ==> Resolved(table, e)
  }

  /** A dependency order: everything a symbol depends on ranks below it. */
  ghost predicate Ranked(table: Table, rank: seq<nat>) {
    && |rank| == |table|
    && forall i, j :: 0 <= i < |table| && 0 <= j < |table| && DependsOn(table, i, j) ==> rank[j] < rank[i]
  }

  // ----- the equation of one symbol (bool and tristate symbols outside choices)

  /** What evaluating a symbol stores besides its validity. */
  datatype Values = Values(visible: Tri, dir: Tri, rev: Tri, implied: Tri, tri: Tri, write: bool)

  /** `sym_get_type` says bool. */
  predicate IsBool(def: SymDef, modules: Tri) { def.stype.Boolean? || (def.stype.Tristate? && modules == NO) }

  function Promote(def: SymDef, modules: Tri, t: Tri): Tri {
    if t == MOD && IsBool(def, modules) then YES else t
  }

  /** The best visibility among the first k prompts. */
  function PromptsUpTo(props: seq<Prop>, k: nat, env: Env): Tri
    requires k <= |props|
  {
    if k == 0 then NO
    else if props[k - 1].kind.Prompt? then Or(PromptsUpTo(props, k - 1, env), CalcOpt(props[k - 1].visible, env))
    else PromptsUpTo(props, k - 1, env)
  }

  /** The first default, from the k-th property on, whose condition holds. */
  function ActiveDefault(props: seq<Prop>, k: nat, env: Env): Option<Prop>
    requires k <= |props|
    decreases |props| - k
  {
    if k == |props| then None
    else if props[k].kind.Default? && CalcOpt(props[k].visible, env) != NO then Some(props[k])
    else ActiveDefault(props, k + 1, env)
  }

  function CalcOrNo(e: Option<Expr>, env: Env): Tri { if e.Some? then Calc(e.value, env) else NO }

  function Visible(def: SymDef, env: Env): Tri {
    Promote(def, env.modules, PromptsUpTo(def.props, |def.props|, env))
  }

  function Dir(def: SymDef, env: Env): Tri { Promote(def, env.modules, CalcOpt(def.dirDep, env)) }

  function Rev(def: SymDef, env: Env): Tri { Promote(def, env.modules, CalcOrNo(def.revDep, env)) }

  function Implied(def: SymDef, env: Env): Tri {
    Promote(def, env.modules, if Dir(def, env) != NO then CalcOrNo(def.implied, env) else NO)
  }

  function DefaultTri(def: SymDef, env: Env): Tri {
    var d := ActiveDefault(def.props, 0, env);
    if d.None? then NO else And(CalcOpt(d.value.expr, env), CalcOpt(d.value.visible, env))
  }

  /** The user value where it counts, the default and the implying symbols where it does not. */
  function OwnValue(def: SymDef, user: Option<Tri>, env: Env): Tri {
    if Visible(def, env) != NO && user.Some? then And(user.value, Visible(def, env))
    else Or(DefaultTri(def, env), Implied(def, env))
  }

  function Final(def: SymDef, own: Tri, env: Env): Tri {
    var t := if Dir(def, env) == NO && Rev(def, env) != NO then NO else Or(own, Rev(def, env));
    if t == MOD && (IsBool(def, env.modules) || Implied(def, env) == YES) then YES else t
  }

  function Compute(def: SymDef, user: Option<Tri>, env: Env): Values {
    Values(Visible(def, env), Dir(def, env), Rev(def, env), Implied(def, env),
           Final(def, OwnValue(def, user, env), env),
           || Visible(def, env) != NO || Rev(def, env) != NO || ActiveDefault(def.props, 0, env).Some?
           || Implied(def, env) != NO)
  }

  // ----- assignments that satisfy every equation

  function SymbolsOf(table: Table): set<Symbol> { set i | 0 <= i < |table| :: SymbolAt(table, i) }

  function EnvOf(table: Table, v: seq<Tri>, modules: Tri): Env
    requires |v| == |table|
  {
    Env(map s | s in SymbolsOf(table) && s.Var? && s.id < |v| :: v[s.id], map[], modules)
  }

  predicate BoolOrTristate(table: Table) {
    forall i :: 0 <= i < |table| ==> SymbolAt(table, i).IsBoolOrTristate()
  }

  predicate AllPlain(table: Table) {
    forall i :: 0 <= i < |table| ==> table[i].role.Plain?
  }

  /** `v` gives every symbol the value its definition asks for. */
  predicate Solves(table: Table, user: seq<Option<Tri>>, modules: Tri, v: seq<Tri>) {
    && |v| == |table| == |user|
    && forall i :: 0 <= i < |table| ==> v[i] == Compute(table[i], user[i], EnvOf(table, v, modules)).tri
  }

  lemma EnvLookup(table: Table, v: seq<Tri>, modules: Tri, i: nat)
    requires |v| == |table| && i < |table| && SymbolAt(table, i).IsBoolOrTristate()
    ensures TriOf(EnvOf(table, v, modules), SymbolAt(table, i)) == v[i]
  {
    assert SymbolAt(table, i) in SymbolsOf(table);
  }

  /** A solution never gives a bool symbol the value m. */
  lemma SolutionValid(table: Table, user: seq<Option<Tri>>, modules: Tri, v: seq<Tri>)
    requires Solves(table, user, modules, v) && BoolOrTristate(table)
    ensures ValidEnv(EnvOf(table, v, modules))
  {
  }

  // ----- dependence on the symbols a definition mentions only

  ghost predicate Agree(def: SymDef, env1: Env, env2: Env) {
    && env1.modules == env2.modules
    && forall e, s :: Owns(def, e) && s in Vars(e) ==>
      TriOf(env1, s) == TriOf(env2, s) && StrOf(env1, s) == StrOf(env2, s)
  }

  lemma OwnedFrame(def: SymDef, e: Option<Expr>, env1: Env, env2: Env)
    requires Agree(def, env1, env2) && (e.Some? ==> Owns(def, e.value))
    ensures CalcOpt(e, env1) == CalcOpt(e, env2) && CalcOrNo(e, env1) == CalcOrNo(e, env2)
  {
    if e.Some? { CalcFrame(e.value, env1, env2); }
  }

  lemma PropOwned(def: SymDef, k: nat, e: Expr)
    requires k < |def.props| && PropOwns(def.role, def.props[k], e)
    ensures Owns(def, e)
  {
  }

  lemma PropFrame(def: SymDef, k: nat, env1: Env, env2: Env)
    requires Agree(def, env1, env2) && k < |def.props| && !def.role.Choice?
    ensures var p := def.props[k];
            && (p.kind.Prompt? || p.kind.Default? ==> CalcOpt(p.visible, env1) == CalcOpt(p.visible, env2))
            && (p.kind.Default? ==> CalcOpt(p.expr, env1) == CalcOpt(p.expr, env2))
  {
    var p := def.props[k];
    if p.kind.Prompt? || p.kind.Default? {
      if p.visible.Some? { PropOwned(def, k, p.visible.value); }
      OwnedFrame(def, p.visible, env1, env2);
      if p.kind.Default? {
        if p.expr.Some? { PropOwned(def, k, p.expr.value); }
        OwnedFrame(def, p.expr, env1, env2);
      }
    }
  }

  lemma {:induction false} PromptsFrame(def: SymDef, k: nat, env1: Env, env2: Env)
    requires Agree(def, env1, env2) && k <= |def.props| && !def.role.Choice?
    ensures PromptsUpTo(def.props, k, env1) == PromptsUpTo(def.props, k, env2)
  {
    if k > 0 {
      PropFrame(def, k - 1, env1, env2);
      PromptsFrame(def, k - 1, env1, env2);
    }
  }

  lemma {:induction false} DefaultFrame(def: SymDef, k: nat, env1: Env, env2: Env)
    requires Agree(def, env1, env2) && k <= |def.props| && !def.role.Choice?
    ensures ActiveDefault(def.props, k, env1) == ActiveDefault(def.props, k, env2)
    ensures var d := ActiveDefault(def.props, k, env1);
            d.Some? ==> CalcOpt(d.value.visible, env1) == CalcOpt(d.value.visible, env2) &&
                        CalcOpt(d.value.expr, env1) == CalcOpt(d.value.expr, env2)
    decreases |def.props| - k
  {
    if k < |def.props| {
      PropFrame(def, k, env1, env2);
      DefaultFrame(def, k + 1, env1, env2);
    }
  }

  lemma ComputeFrame(def: SymDef, user: Option<Tri>, env1: Env, env2: Env)
    requires Agree(def, env1, env2) && !def.role.Choice?
    ensures Compute(def, user, env1) == Compute(def, user, env2)
  {
    OwnedFrame(def, def.dirDep, env1, env2);
    OwnedFrame(def, def.revDep, env1, env2);
    OwnedFrame(def, def.implied, env1, env2);
    PromptsFrame(def, |def.props|, env1, env2);
    DefaultFrame(def, 0, env1, env2);
  }

  /** Two assignments that agree on all a symbol depends on give its equation the same value. */
  lemma EquationFrame(table: Table, i: nat, user: Option<Tri>, modules: Tri, v: seq<Tri>, w: seq<Tri>)
    requires WellFormed(table) && BoolOrTristate(table) && AllPlain(table)
    requires i < |table| == |v| == |w|
    requires forall j :: 0 <= j < |table| && DependsOn(table, i, j) ==> v[j] == w[j]
    ensures Compute(table[i], user, EnvOf(table, v, modules)) == Compute(table[i], user, EnvOf(table, w, modules))
  {
    var env1, env2 := EnvOf(table, v, modules), EnvOf(table, w, modules);
    forall e, s | Owns(table[i], e) && s in Vars(e)
      ensures TriOf(env1, s) == TriOf(env2, s) && StrOf(env1, s) == StrOf(env2, s)
    {
      assert Resolved(table, e);
      assert DependsOn(table, i, s.id);
      EnvLookup(table, v, modules, s.id);
      EnvLookup(table, w, modules, s.id);
    }
    ComputeFrame(table[i], user, env1, env2);
  }

  // ----- on an acyclic table there is exactly one assignment

  lemma {:induction false} UniqueAt(table: Table, rank: seq<nat>, user: seq<Option<Tri>>, modules: Tri,
                                    v: seq<Tri>, w: seq<Tri>, i: nat)
    requires WellFormed(table) && BoolOrTristate(table) && AllPlain(table) && Ranked(table, rank)
    requires Solves(table, user, modules, v) && Solves(table, user, modules, w) && i < |table|
    ensures v[i] == w[i]
    decreases rank[i]
  {
    hide Compute, EnvOf, WellFormed, BoolOrTristate, AllPlain, DependsOn;
    forall j | 0 <= j < |table| && DependsOn(table, i, j) ensures v[j] == w[j] {
      UniqueAt(table, rank, user, modules, v, w, j);
    }
    EquationFrame(table, i, user[i], modules, v, w);
  }

  /** All equations evaluated once, in the assignment `w`. */
  function Round(table: Table, user: seq<Option<Tri>>, modules: Tri, w: seq<Tri>): (v: seq<Tri>)
    requires |user| == |table| == |w|
    ensures |v| == |table|
    ensures forall i :: 0 <= i < |table| ==> v[i] == Compute(table[i], user[i], EnvOf(table, w, modules)).tri
  {
    seq(|table|, i requires 0 <= i < |table| => Compute(table[i], user[i], EnvOf(table, w, modules)).tri)
  }

  function Iterate(table: Table, user: seq<Option<Tri>>, modules: Tri, k: nat): (v: seq<Tri>)
    requires |user| == |table|
    ensures |v| == |table|
  {
    if k == 0 then seq(|table|, _ => NO) else Round(table, user, modules, Iterate(table, user, modules, k - 1))
  }

  lemma {:induction false} IterateStable(table: Table, rank: seq<nat>, user: seq<Option<Tri>>, modules: Tri, k: nat,
                                         i: nat)
    requires WellFormed(table) && BoolOrTristate(table) && AllPlain(table) && Ranked(table, rank)
    requires |user| == |table| && i < |table| && rank[i] < k
    ensures Iterate(table, user, modules, k + 1)[i] == Iterate(table, user, modules, k)[i]
    decreases k
  {
    hide Compute, EnvOf, WellFormed, BoolOrTristate, AllPlain, DependsOn;
    var v, w := Iterate(table, user, modules, k), Iterate(table, user, modules, k - 1);
    assert Iterate(table, user, modules, k + 1) == Round(table, user, modules, v);
    assert v == Round(table, user, modules, w);
    forall j | 0 <= j < |table| && DependsOn(table, i, j) ensures v[j] == w[j] {
      IterateStable(table, rank, user, modules, k - 1, j);
    }
    EquationFrame(table, i, user[i], modules, v, w);
  }

  ghost function Above(rank: seq<nat>): (m: nat)
    ensures forall i :: 0 <= i < |rank| ==> rank[i] < m
  {
    if rank == [] then 0
    else
      var n := Above(rank[..|rank| - 1]);
      assert forall i :: 0 <= i < |rank| - 1 ==> rank[i] == rank[..|rank| - 1][i];
      if rank[|rank| - 1] < n then n else rank[|rank| - 1] + 1
  }

  /** On an acyclic table, every choice of user values determines exactly one assignment. */
  lemma UniqueSolution(table: Table, rank: seq<nat>, user: seq<Option<Tri>>, modules: Tri)
    requires WellFormed(table) && BoolOrTristate(table) && AllPlain(table) && Ranked(table, rank)
    requires |user| == |table|
    ensures exists v :: Solves(table, user, modules, v)
    ensures forall v, w :: Solves(table, user, modules, v) && Solves(table, user, modules, w) ==> v == w
  {
    var m := Above(rank);
    var v := Iterate(table, user, modules, m);
    assert Iterate(table, user, modules, m + 1) == Round(table, user, modules, v);
    forall i | 0 <= i < |table| ensures v[i] == Compute(table[i], user[i], EnvOf(table, v, modules)).tri {
      IterateStable(table, rank, user, modules, m, i);
    }
    assert Solves(table, user, modules, v);
    forall w, x | Solves(table, user, modules, w) && Solves(table, user, modules, x) ensures w == x {
      forall i | 0 <= i < |table| ensures w[i] == x[i] { UniqueAt(table, rank, user, modules, w, x, i); }
    }
  }
}
