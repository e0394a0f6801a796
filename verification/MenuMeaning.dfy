/** What the finalised menu means: every condition is worth its own condition and those of all enclosing blocks, choices
    bound their values, and when a symbol has no value while its direct dependencies are not met. */
module MenuMeaning {
  import opened Tristate
  import opened Expressions
  import opened ExprTransform
  import opened ExprDups
  import opened Symbols
  import opened UserValues
  import opened MenuForest
  import opened MenuDeps
  import opened MenuShape
  import opened MenuChoices
  import opened MenuFinalize

  /** The condition node n was written with. */
  ghost function OwnCondition(t: MenuTree, n: nat, env: Env): Tri
    requires t.DataSized(t.initial) && n < |t.syms|
  {
    AsWritten(t.initial.dep[n], t.modules, env)
  }

  predicate Within(t: MenuTree, f: Forest) { forall i :: i in Ids(f) ==> i < |t.syms| }

  /** What block n asks of its entries, in addition to what is asked of itself: a choice only asks to be set. */
  ghost function Inside(t: MenuTree, n: nat, above: Tri, env: Env): Tri
    requires t.DataSized(t.initial) && n < |t.syms|
  {
    if IsChoice(t.Shape(), n) then TriOf(env, t.syms[n].value) else And(above, OwnCondition(t, n, env))
  }

  /** The condition of node n together with those of all blocks around it, up to the innermost choice or else the
      outermost block, which is below the condition `above`. */
  ghost function BlockCondition(t: MenuTree, f: Forest, n: nat, above: Tri, env: Env): Tri
    requires t.DataSized(t.initial) && Within(t, f) && n in Ids(f)
    decreases f
  {
    if n == f.id then And(above, OwnCondition(t, n, env))
    else if n in Ids(f.kids) then BlockCondition(t, f.kids, n, Inside(t, f.id, above, env), env)
    else BlockCondition(t, f.rest, n, above, env)
  }

  /** Everything that was parsed is free of clashing comparisons. */
  ghost predicate TidyParsed(t: MenuTree)
    requires t.DataSized(t.initial)
  {
    forall n :: 0 <= n < |t.syms| ==>
      && TidyOpt(false, t.initial.dep[n])
      && forall k :: 0 <= k < |t.initial.props[n]| ==> TidyOpt(false, t.initial.props[n][k].visible)
  }

  /** The entries of `f` have inherited from `up`. */
  ghost predicate HandedDown(t: MenuTree, d: MenuData, f: Forest, up: nat) {
    && t.DataSized(d) && t.DataSized(t.initial) && up < |t.syms| && t.Handed(d, f, up) && Within(t, f)
    && TidyParsed(t) && TidyOpt(true, t.Above(d, up))
  }

  /** A condition that was handed down is worth all the conditions around the node, as they were written. */
  lemma {:induction false} HandedMeaning(t: MenuTree, d: MenuData, f: Forest, up: nat, n: nat, env: Env)
    requires HandedDown(t, d, f, up) && n in Ids(f) && ValidEnv(env)
    ensures CalcOpt(d.dep[n], env) == BlockCondition(t, f, n, CalcOpt(t.Above(d, up), env), env)
    ensures TidyOpt(true, d.dep[n]) && d.props[n] == t.HandedProps(n, d.dep[n], t.initial.props[n])
    decreases f
  {
    InheritValue(t.Above(d, up), t.initial.dep[f.id], t.modules, env);
    if n != f.id {
      if n in Ids(f.kids) {
        HandedMeaning(t, d, f.kids, f.id, n, env);
      } else {
        HandedMeaning(t, d, f.rest, up, n, env);
      }
    }
  }

  /** A property is hidden exactly when its own condition, or that of a block around it, is n; and one of a tristate
      is worth exactly all of them together; one of another symbol tests no tristate for being different from n. */
  lemma PropertyMeaning(t: MenuTree, d: MenuData, f: Forest, up: nat, n: nat, k: nat, env: Env)
    requires HandedDown(t, d, f, up) && n in Ids(f) && ValidEnv(env)
    requires |d.props[n]| == |t.initial.props[n]| && k < |d.props[n]|
    ensures CalcOpt(d.props[n][k].visible, env) == NO <==>
            || BlockCondition(t, f, n, CalcOpt(t.Above(d, up), env), env) == NO
            || AsWritten(t.initial.props[n][k].visible, t.modules, env) == NO
    ensures CalcOpt(d.props[n][k].visible, env) <= CalcOpt(d.dep[n], env)
    ensures t.syms[n].None? || t.syms[n].value.Type().Tristate? ==>
              CalcOpt(d.props[n][k].visible, env) ==
              And(BlockCondition(t, f, n, CalcOpt(t.Above(d, up), env), env),
                  AsWritten(t.initial.props[n][k].visible, t.modules, env))
    ensures t.syms[n].Some? && !t.syms[n].value.Type().Tristate? && d.props[n][k].visible.Some? ==>
              Untested(d.props[n][k].visible.value)
  {
    hide AsWritten, InheritProp, Tidy;
    HandedMeaning(t, d, f, up, n, env);
    InheritPropExact(d.dep[n], t.initial.props[n][k].visible, t.modules, t.TypeOf(n), env);
    InheritPropVisible(d.dep[n], t.initial.props[n][k].visible, t.modules, t.TypeOf(n), env);
  }

  // ----- the values of a choice

  /** No block among `f` is a choice. */
  predicate NoChoices(t: MenuTree, f: Forest) {
    f.Entry? ==> (f.kids.Entry? ==> !IsChoice(t.Shape(), f.id)) && NoChoices(t, f.kids) && NoChoices(t, f.rest)
  }

  lemma {:induction false} BlockBelow(t: MenuTree, f: Forest, n: nat, above: Tri, env: Env)
    requires t.DataSized(t.initial) && Within(t, f) && n in Ids(f) && NoChoices(t, f)
    ensures BlockCondition(t, f, n, above, env) <= above
    decreases f
  {
    if n != f.id {
      if n in Ids(f.kids) {
        BlockBelow(t, f.kids, n, Inside(t, f.id, above, env), env);
      } else {
        BlockBelow(t, f.rest, n, above, env);
      }
    }
  }

  /** The mode of a choice bounds the visibility of everything in its block, ifs included; and a choice value that
      is not tristate, of a choice that is, cannot be seen unless the choice is y. */
  lemma ChoiceBounds(t: MenuTree, d: MenuData, m: Members, f: Forest, c: nat, n: nat, k: nat, env: Env)
    requires HandedDown(t, d, f, c) && IsChoice(t.Shape(), c) && NoChoices(t, f) && n in Ids(f) && ValidEnv(env)
    requires |d.props[n]| == |t.initial.props[n]| && k < |d.props[n]|
    ensures var visible := CalcOpt(Gated(t.Shape(), m, n, d.props[n][k].visible), env);
            && visible <= TriOf(env, t.syms[c].value)
            && (Gate(t.Shape(), m, n) == Some(t.syms[c].value) && TriOf(env, t.syms[c].value) != YES ==> visible == NO)
  {
    HandedMeaning(t, d, f, c, n, env);
    PropertyMeaning(t, d, f, c, n, k, env);
    BlockBelow(t, f, n, TriOf(env, t.syms[c].value), env);
    GatedValue(t.Shape(), m, n, d.props[n][k].visible, env);
  }

  // ----- no value without dependencies

  predicate Site(t: MenuTree, n: nat, s: nat) {
    n < |t.syms| && t.syms[n].Some? && t.syms[n].value.Var? && t.syms[n].value.id == s
  }

  /** Where a property is: its node, and its index there. */
  datatype Place = Place(node: nat, index: nat)

  /** The properties of the symbol are those at `places`, all of them definition sites of the symbol. */
  ghost predicate Located(t: MenuTree, d: MenuData, props: seq<Prop>, places: seq<Place>, s: nat)
    requires t.DataSized(d)
  {
    && |places| == |props|
    && forall k :: 0 <= k < |props| ==>
         Site(t, places[k].node, s) && places[k].index < |d.props[places[k].node]| &&
         props[k] == d.props[places[k].node][places[k].index]
  }

  /** The conditions of the definition sites of symbol s that have one. */
  ghost function SiteValues(t: MenuTree, d: MenuData, order: seq<nat>, s: nat, env: Env): set<Tri>
    requires t.DataSized(d) && forall i :: 0 <= i < |order| ==> order[i] < |t.syms|
  {
    set i | 0 <= i < |order| && Site(t, order[i], s) && d.dep[order[i]].Some? :: CalcOpt(d.dep[order[i]], env)
  }

  /** The direct dependencies are worth the best of them. */
  lemma {:induction false} DirectMax(t: MenuTree, d: MenuData, order: seq<nat>, s: nat, env: Env)
    requires t.DataSized(d) && forall i :: 0 <= i < |order| ==> order[i] < |t.syms|
    ensures IsMax(CalcOrNo(Direct(t.syms, d.dep, order, s), env), SiteValues(t, d, order, s, env))
  {
    if order != [] {
      var before, n := order[..|order| - 1], order[|order| - 1];
      DirectMax(t, d, before, s, env);
      SiteMore(t, d, before, n, s, env);
      assert order == before + [n];
      if Site(t, n, s) && d.dep[n].Some? {
        MaxOne(CalcOrNo(Direct(t.syms, d.dep, before, s), env), SiteValues(t, d, before, s, env),
               CalcOpt(d.dep[n], env));
        OrOptValue(Direct(t.syms, d.dep, before, s), d.dep[n], env);
      }
    }
  }

  lemma OrOptValue(a: Option<Expr>, b: Option<Expr>, env: Env)
    requires b.Some?
    ensures CalcOrNo(OrOpt(a, b), env) == Or(CalcOrNo(a, env), CalcOpt(b, env))
  {
  }

  lemma SiteMore(t: MenuTree, d: MenuData, before: seq<nat>, n: nat, s: nat, env: Env)
    requires t.DataSized(d) && n < |t.syms| && forall i :: 0 <= i < |before| ==> before[i] < |t.syms|
    ensures SiteValues(t, d, before + [n], s, env) ==
            SiteValues(t, d, before, s, env) +
            if Site(t, n, s) && d.dep[n].Some? then {CalcOpt(d.dep[n], env)} else {}
  {
    var order := before + [n];
    assert order[|before|] == n;
    forall i | 0 <= i < |before| ensures order[i] == before[i] {}
  }

  /** So they are met exactly when the condition of some site is, not counting sites without one. */
  lemma {:induction false} DirectValue(t: MenuTree, d: MenuData, order: seq<nat>, s: nat, env: Env)
    requires t.DataSized(d) && forall i :: 0 <= i < |order| ==> order[i] < |t.syms|
    requires forall i :: 0 <= i < |order| ==> t.syms[order[i]].Some? ==> t.syms[order[i]].value.Var?
    ensures Direct(t.syms, d.dep, order, s).None? <==>
            forall i :: 0 <= i < |order| && Site(t, order[i], s) ==> d.dep[order[i]].None?
    ensures var e := Direct(t.syms, d.dep, order, s);
            e.Some? ==> (CalcOpt(e, env) == NO <==>
                         forall i :: 0 <= i < |order| && Site(t, order[i], s) && d.dep[order[i]].Some? ==>
                                       CalcOpt(d.dep[order[i]], env) == NO)
  {
    if order != [] {
      var k := |order| - 1;
      DirectValue(t, d, order[..k], s, env);
      assert forall i :: 0 <= i < k ==> order[..k][i] == order[i];
    }
  }

  /** The site does not count towards the direct dependencies: it has no condition, or it is a block (a choice). */
  ghost predicate Loose(t: MenuTree, d: MenuData, n: nat)
    requires t.DataSized(d) && n < |t.syms|
  {
    d.dep[n].None? || n in t.blocks
  }

  /** As it was written: neither node n nor any block around it has a condition, and no choice is around it. */
  ghost predicate Unconditional(t: MenuTree, f: Forest, n: nat, bare: bool)
    requires t.DataSized(t.initial) && Within(t, f) && n in Ids(f)
    decreases f
  {
    if n == f.id then bare && t.initial.dep[n].None?
    else if n in Ids(f.kids) then
      Unconditional(t, f.kids, n, bare && t.initial.dep[f.id].None? && !IsChoice(t.Shape(), f.id))
    else Unconditional(t, f.rest, n, bare)
  }

  /** So that is when a site that is not a block is loose. */
  lemma {:induction false} LooseAsWritten(t: MenuTree, d: MenuData, f: Forest, up: nat, n: nat)
    requires t.DataSized(d) && t.DataSized(t.initial) && up < |t.syms| && t.Handed(d, f, up) && Within(t, f) &&
             n in Ids(f)
    ensures Loose(t, d, n) <==> n in t.blocks || Unconditional(t, f, n, t.Above(d, up).None?)
    ensures d.dep[n].None? <==> Unconditional(t, f, n, t.Above(d, up).None?)
    decreases f
  {
    assert t.HandedTo(d, f.id, t.Above(d, up));
    if n != f.id {
      if n in Ids(f.kids) {
        LooseAsWritten(t, d, f.kids, f.id, n);
      } else {
        LooseAsWritten(t, d, f.rest, up, n);
      }
    }
  }

  /** What is known of the definition of symbol s, which is neither a choice nor a choice value, after the
      finalisation of the blocks `f` below `root`. */
  ghost predicate FinalizedSymbol(t: MenuTree, d: MenuData, f: Forest, root: nat, order: seq<nat>, def: SymDef,
                                  places: seq<Place>, s: nat) {
    && HandedDown(t, d, f, root) && s !in t.choices
    && (forall i :: 0 <= i < |order| ==> order[i] < |t.syms|)
    && (forall n :: 0 <= n < |t.syms| && t.syms[n].Some? ==> t.syms[n].value.Var?)
    && (forall n: nat :: Site(t, n, s) ==> n in Ids(f) && (n in order <==> n !in t.blocks))
    && def.dirDep == Direct(t.syms, d.dep, order, s) && Located(t, d, def.props, places, s)
  }

  /** The property at a place can be seen, judging by the conditions as they were written: its own and those
      around it. */
  ghost predicate Shown(t: MenuTree, f: Forest, above: Tri, p: Place, env: Env)
    requires t.DataSized(t.initial) && Within(t, f)
  {
    && p.node in Ids(f) && p.index < |t.initial.props[p.node]|
    && BlockCondition(t, f, p.node, above, env) != NO
    && AsWritten(t.initial.props[p.node][p.index].visible, t.modules, env) != NO
  }

  /** A property can be seen after the finalisation exactly if it could as it was written; while the direct dependencies
      are n, only those at loose sites can. */
  lemma PlaceShown(t: MenuTree, d: MenuData, f: Forest, root: nat, order: seq<nat>, def: SymDef, places: seq<Place>,
                   s: nat, k: nat, env: Env)
    requires FinalizedSymbol(t, d, f, root, order, def, places, s) && ValidEnv(env) && k < |def.props|
    ensures CalcOpt(def.props[k].visible, env) != NO <==> Shown(t, f, CalcOpt(t.Above(d, root), env), places[k], env)
    ensures places[k].index < |t.initial.props[places[k].node]|
    ensures var p := t.initial.props[places[k].node][places[k].index];
            def.props[k].kind == p.kind && def.props[k].expr == p.expr
    ensures CalcOpt(def.dirDep, env) == NO && CalcOpt(def.props[k].visible, env) != NO ==> Loose(t, d, places[k].node)
  {
    var n, j := places[k].node, places[k].index;
    assert Site(t, n, s);
    HandedMeaning(t, d, f, root, n, env);
    PropertyMeaning(t, d, f, root, n, j, env);
    if CalcOpt(def.dirDep, env) == NO && !Loose(t, d, n) {
      DirectValue(t, d, order, s, env);
      var i :| 0 <= i < |order| && order[i] == n;
      assert Site(t, order[i], s);
    }
  }

  /** The property of kind `kind` at place k can be seen although its site is loose. */
  ghost predicate LooseShown(t: MenuTree, d: MenuData, f: Forest, above: Tri, p: Place, kind: PropKind, env: Env)
    requires t.DataSized(t.initial) && t.DataSized(d) && Within(t, f)
  {
    Shown(t, f, above, p, env) && t.initial.props[p.node][p.index].kind == kind && Loose(t, d, p.node)
  }

  /** The first default, from the k-th place on, that can be seen although its site is loose. */
  ghost function FirstLoose(t: MenuTree, d: MenuData, f: Forest, above: Tri, places: seq<Place>, k: nat,
                            env: Env): (q: nat)
    requires t.DataSized(t.initial) && t.DataSized(d) && Within(t, f) && k <= |places|
    ensures k <= q <= |places| && (q < |places| ==> LooseShown(t, d, f, above, places[q], Default, env))
    decreases |places| - k
  {
    if k == |places| || LooseShown(t, d, f, above, places[k], Default, env) then k
    else FirstLoose(t, d, f, above, places, k + 1, env)
  }

  /** No prompt at a loose site can be seen, and the first default there that can be seen, if any, is worth n. */
  ghost predicate Silent(t: MenuTree, d: MenuData, f: Forest, above: Tri, places: seq<Place>, env: Env)
    requires t.DataSized(t.initial) && t.DataSized(d) && Within(t, f)
  {
    && (forall k :: 0 <= k < |places| ==> !LooseShown(t, d, f, above, places[k], Prompt, env))
    && var q := FirstLoose(t, d, f, above, places, 0, env);
       q < |places| ==> CalcOpt(t.initial.props[places[q].node][places[q].index].expr, env) == NO
  }

  lemma {:induction false} PromptsSilent(t: MenuTree, d: MenuData, f: Forest, root: nat, order: seq<nat>, def: SymDef,
                                         places: seq<Place>, s: nat, k: nat, env: Env)
    requires FinalizedSymbol(t, d, f, root, order, def, places, s) && ValidEnv(env) && CalcOpt(def.dirDep, env) == NO
    requires k <= |def.props|
    ensures PromptsUpTo(def.props, k, env) == NO <==>
            forall i :: 0 <= i < k ==> !LooseShown(t, d, f, CalcOpt(t.Above(d, root), env), places[i], Prompt, env)
  {
    hide Shown, Loose, Direct, Inherit;
    if k > 0 {
      PromptsSilent(t, d, f, root, order, def, places, s, k - 1, env);
      PlaceShown(t, d, f, root, order, def, places, s, k - 1, env);
    }
  }

  lemma {:induction false} DefaultsSilent(t: MenuTree, d: MenuData, f: Forest, root: nat, order: seq<nat>, def: SymDef,
                                          places: seq<Place>, s: nat, k: nat, env: Env)
    requires FinalizedSymbol(t, d, f, root, order, def, places, s) && ValidEnv(env) && CalcOpt(def.dirDep, env) == NO
    requires k <= |def.props|
    ensures var q := FirstLoose(t, d, f, CalcOpt(t.Above(d, root), env), places, k, env);
            ActiveDefault(def.props, k, env) == if q < |places| then Some(def.props[q]) else None
    decreases |def.props| - k
  {
    hide Shown, Loose, Direct, Inherit;
    if k < |def.props| {
      DefaultsSilent(t, d, f, root, order, def, places, s, k + 1, env);
      PlaceShown(t, d, f, root, order, def, places, s, k, env);
    }
  }

  /** While its direct dependencies are not met, a symbol has no value, whatever the user sets it to, if and only if
      something selects it (it is forced to n then), or nothing at its loose sites speaks up. */
  lemma NoValueExactly(t: MenuTree, d: MenuData, f: Forest, root: nat, order: seq<nat>, def: SymDef, places: seq<Place>,
                       s: nat, env: Env)
    requires FinalizedSymbol(t, d, f, root, order, def, places, s) && ValidEnv(env) && Dir(def, env) == NO
    ensures (forall user: Option<Tri> :: Compute(def, user, env).tri == NO) <==>
            Rev(def, env) != NO || Silent(t, d, f, CalcOpt(t.Above(d, root), env), places, env)
  {
    hide Shown, Loose, LooseShown, Direct, Compute;
    ValuesWithoutDependencies(def, env);
    PromptsSilent(t, d, f, root, order, def, places, s, |def.props|, env);
    DefaultsSilent(t, d, f, root, order, def, places, s, 0, env);
    var q := FirstLoose(t, d, f, CalcOpt(t.Above(d, root), env), places, 0, env);
    if q < |places| {
      PlaceShown(t, d, f, root, order, def, places, s, q, env);
      ActiveShown(def.props, 0, env);
    }
  }

  lemma {:induction false} ActiveShown(props: seq<Prop>, k: nat, env: Env)
    requires k <= |props|
    ensures var p := ActiveDefault(props, k, env); p.Some? ==> CalcOpt(p.value.visible, env) != NO
    decreases |props| - k
  {
    if k < |props| { ActiveShown(props, k + 1, env); }
  }

  /** A site with a condition is not loose, so a symbol whose sites all have one, or none of whose has, never has
      a value without its dependencies. */
  ghost predicate SameKind(t: MenuTree, d: MenuData, s: nat)
    requires t.DataSized(d)
  {
    || (forall n: nat :: Site(t, n, s) ==> !Loose(t, d, n))
    || (forall n: nat :: Site(t, n, s) ==> Loose(t, d, n))
  }

  lemma NoValueAfterFinalization(t: MenuTree, d: MenuData, f: Forest, root: nat, order: seq<nat>, def: SymDef,
                                 places: seq<Place>, s: nat, user: Option<Tri>, env: Env)
    requires FinalizedSymbol(t, d, f, root, order, def, places, s) && SameKind(t, d, s)
    requires ValidEnv(env) && Dir(def, env) == NO
    ensures Compute(def, user, env).tri == NO
    ensures Guarded(def)
  {
    FinalizedGuarded(t, d, f, root, order, def, places, s);
    NoValueWithoutDependencies(def, user, env);
  }

  /** After the finalisation the prompts and defaults of such a symbol are guarded by its direct dependencies. */
  lemma FinalizedGuarded(t: MenuTree, d: MenuData, f: Forest, root: nat, order: seq<nat>, def: SymDef,
                         places: seq<Place>, s: nat)
    requires FinalizedSymbol(t, d, f, root, order, def, places, s) && SameKind(t, d, s)
    ensures Guarded(def)
  {
    forall k, env: Env | 0 <= k < |def.props| && ValidEnv(env) && CalcOpt(def.dirDep, env) == NO
      ensures CalcOpt(def.props[k].visible, env) == NO
    {
      PlaceShown(t, d, f, root, order, def, places, s, k, env);
      if Loose(t, d, places[k].node) {
        DirectValue(t, d, order, s, env);
      }
    }
  }

  /** A site without a condition does not count towards the direct dependencies, so beside a site with one its
      prompt stays visible when those are n: the user then sets the symbol to y against its dependencies. */
  lemma SiteWithoutCondition(a: Symbol, s: Symbol, env: Env)
    requires a.Var? && s.Var? && s.varType.Boolean? && ValidEnv(env) && TriOf(env, a) == NO
    ensures var dirDep := Direct([Some(s), Some(s)], [Some(Sym(a)), None], [0, 1], s.id);
            var def := SymDef(Boolean, [Prop(Prompt, None, None)], dirDep, None, None, Plain);
            Dir(def, env) == NO && Compute(def, Some(YES), env).tri == YES
  {
    var syms, dep := [Some(s), Some(s)], [Some(Sym(a)), None];
    assert [0, 1][..1] == [0] && [0][..0] == [];
    assert Direct(syms, dep, [0], s.id) == Some(Sym(a));
    assert Direct(syms, dep, [0, 1], s.id) == Some(Sym(a));
    var def := SymDef(Boolean, [Prop(Prompt, None, None)], Some(Sym(a)), None, None, Plain);
    assert PromptsUpTo(def.props, 1, env) == Or(PromptsUpTo(def.props, 0, env), YES);
  }
}
