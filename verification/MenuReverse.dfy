/** What the reverse dependencies that the menu finalisation collects are worth: the best of all that select a symbol,
    or that imply it. */
module MenuReverse {
  import opened Tristate
  import opened Expressions
  import opened Symbols
  import opened MenuDeps
  import opened MenuShape
  import opened MenuChoices
  import opened MenuFinalize

  /** The property is a select (or an imply) of symbol s. */
  ghost predicate Names(p: Prop, kind: PropKind, s: nat) {
    p.kind == kind && exists t: SymType :: p.expr == Some(Sym(Var(s, t)))
  }

  /** What a property of a node with symbol `from` asks of the symbol it names: as much as it is worth, and no more than
      its own condition. */
  function Asks(from: Symbol, p: Prop, env: Env): Tri { And(TriOf(env, from), CalcOpt(p.visible, env)) }

  ghost function AskedAt(from: Option<Symbol>, props: seq<Prop>, kind: PropKind, s: nat, env: Env): set<Tri> {
    set k | 0 <= k < |props| && from.Some? && Names(props[k], kind, s) :: Asks(from.value, props[k], env)
  }

  /** What the properties of all the nodes ask of symbol s. */
  ghost function Asked(syms: seq<Option<Symbol>>, props: seq<seq<Prop>>, nodes: set<nat>, kind: PropKind, s: nat,
                       env: Env): set<Tri>
  {
    set n, x | n in nodes && n < |syms| && n < |props| && x in AskedAt(syms[n], props[n], kind, s, env) :: x
  }

  /** The node has a prompt for symbol s. */
  ghost predicate Prompts(t: Menus, props: seq<seq<Prop>>, n: nat, s: nat) {
    && n < |t.syms| && n < |t.prompt| && n < |props| && (exists st: SymType :: t.syms[n] == Some(Var(s, st)))
    && t.prompt[n].Some? && t.prompt[n].value < |props[n]|
  }

  ghost function Demand(t: Menus, props: seq<seq<Prop>>, n: nat, env: Env): Tri
    requires n < |t.prompt| && n < |props| && t.prompt[n].Some? && t.prompt[n].value < |props[n]|
  {
    And(CalcOpt(props[n][t.prompt[n].value].visible, env), MOD)
  }

  /** What the prompts of symbol s ask, if it is not optional: to be m at least wherever it can be seen. */
  ghost function Forced(t: Menus, props: seq<seq<Prop>>, nodes: set<nat>, s: nat, env: Env): set<Tri> {
    set n | n in nodes && s !in t.optional && Prompts(t, props, n, s) :: Demand(t, props, n, env)
  }

  /** One property adds what it asks. */
  lemma PropWorth(syms: seq<Option<Symbol>>, n: nat, p: Prop, kind: PropKind, s: nat, acc: Option<Expr>, env: Env)
    requires n < |syms|
    ensures CalcOrNo(AddProp(syms, n, p, kind, s, acc), env) ==
            if syms[n].Some? && Names(p, kind, s) then Or(CalcOrNo(acc, env), Asks(syms[n].value, p, env))
            else CalcOrNo(acc, env)
  {
    if Targets(p, kind, s) { assert p.expr == Some(Sym(Var(s, p.expr.value.sym.varType))); }
    if syms[n].Some? {
      assert Calc(Sym(syms[n].value), env) == TriOf(env, syms[n].value);
      var e := Selecting(syms, n, p);
      assert e.Some? && Calc(e.value, env) == Asks(syms[n].value, p, env);
      var both := OrOpt(acc, e);
      assert CalcOrNo(both, env) == Or(CalcOrNo(acc, env), Calc(e.value, env));
    }
  }

  lemma {:induction false} PropsWorth(syms: seq<Option<Symbol>>, n: nat, props: seq<Prop>, k: nat, kind: PropKind,
                                      s: nat,
                                      acc: Option<Expr>, xs: set<Tri>, env: Env)
    requires n < |syms| && k <= |props| && IsMax(CalcOrNo(acc, env), xs)
    ensures IsMax(CalcOrNo(AddProps(syms, n, props, k, kind, s, acc), env),
                  xs + AskedAt(syms[n], props[..k], kind, s, env))
  {
    hide AddProp, Asks, Names, AskedAt, CalcOrNo, IsMax;
    if k == 0 {
      NothingAsked(syms[n], kind, s, env);
      assert props[..0] == [] && xs + {} == xs;
    } else {
      var p, before := props[k - 1], AskedAt(syms[n], props[..k - 1], kind, s, env);
      PropsWorth(syms, n, props, k - 1, kind, s, acc, xs, env);
      PropWorth(syms, n, p, kind, s, AddProps(syms, n, props, k - 1, kind, s, acc), env);
      assert props[..k] == props[..k - 1] + [p];
      AskedMore(syms[n], props[..k - 1], p, kind, s, env);
      if syms[n].Some? && Names(p, kind, s) {
        var x := Asks(syms[n].value, p, env);
        MaxOne(CalcOrNo(AddProps(syms, n, props, k - 1, kind, s, acc), env), xs + before, x);
        assert xs + (before + {x}) == xs + before + {x};
      } else {
        assert xs + (before + {}) == xs + before;
      }
    }
  }

  lemma NothingAsked(from: Option<Symbol>, kind: PropKind, s: nat, env: Env)
    ensures AskedAt(from, [], kind, s, env) == {}
  {
  }

  lemma AskedMore(from: Option<Symbol>, props: seq<Prop>, p: Prop, kind: PropKind, s: nat, env: Env)
    ensures AskedAt(from, props + [p], kind, s, env) ==
            AskedAt(from, props, kind, s, env) + if from.Some? &&
              Names(p, kind, s) then {Asks(from.value, p, env)} else {}
  {
    var all, few := AskedAt(from, props + [p], kind, s, env), AskedAt(from, props, kind, s, env);
    assert from.Some? && Names(p, kind, s) ==> (props + [p])[|props|] == p && Asks(from.value, p, env) in all;
    forall x | x in few ensures x in all {
      var k :| 0 <= k < |props| && from.Some? && Names(props[k], kind, s) && x == Asks(from.value, props[k], env);
      assert (props + [p])[k] == props[k];
    }
  }

  ghost function Inheriting(order: seq<Step>): set<nat> { set x | x in order && x.Inherited? :: x.node }

  ghost function Demanding(order: seq<Step>): set<nat> { set x | x in order && x.Required? :: x.node }

  /** All that is asked of symbol s by the steps in `order`. */
  ghost function Worth(t: Menus, props: seq<seq<Prop>>, order: seq<Step>, kind: PropKind, s: nat, env: Env): set<Tri> {
    Asked(t.syms, props, Inheriting(order), kind, s, env) +
    if kind.Select? then Forced(t, props, Demanding(order), s, env) else {}
  }

  /** What has been collected is worth the best of what has been asked. */
  lemma {:induction false} CollectedWorth(t: Menus, props: seq<seq<Prop>>, order: seq<Step>, kind: PropKind, s: nat,
                                          env: Env)
    requires |props| == |t.syms| && StepsIn(t, order)
    requires forall n :: 0 <= n < |t.syms| && HasPrompt(t, n) ==> t.prompt[n].value < |props[n]|
    ensures IsMax(CalcOrNo(Collected(t, props, order, kind, s), env), Worth(t, props, order, kind, s, env))
  {
    hide AddProps, Worth, CalcOrNo, IsMax, AskedAt;
    if order == [] {
      NothingWorth(t, props, kind, s, env);
    } else {
      var before, step := order[..|order| - 1], order[|order| - 1];
      assert order == before + [step];
      CollectedWorth(t, props, before, kind, s, env);
      var acc := Collected(t, props, before, kind, s);
      match step
      case Inherited(n) =>
        PropsWorth(t.syms, n, props[n], |props[n]|, kind, s, acc, Worth(t, props, before, kind, s, env), env);
        InheritedMore(t, props, before, n, kind, s, env);
      case Required(n) =>
        RequiredMore(t, props, before, n, kind, s, env);
        RequirementWorth(t, props, n, kind, s, acc, env);
        if kind.Select? && s !in t.optional && Prompts(t, props, n, s) {
          MaxOne(CalcOrNo(acc, env), Worth(t, props, before, kind, s, env), Demand(t, props, n, env));
        } else {
          assert Worth(t, props, before, kind, s, env) + {} == Worth(t, props, before, kind, s, env);
        }
    }
  }

  lemma NothingWorth(t: Menus, props: seq<seq<Prop>>, kind: PropKind, s: nat, env: Env)
    ensures IsMax(CalcOrNo(None, env), Worth(t, props, [], kind, s, env))
  {
  }

  /** One prompt that forces its symbol adds what it asks. */
  lemma RequirementWorth(t: Menus, props: seq<seq<Prop>>, n: nat, kind: PropKind, s: nat, acc: Option<Expr>, env: Env)
    requires |props| == |t.syms| && n < |t.syms| && (HasPrompt(t, n) ==> t.prompt[n].value < |props[n]|)
    ensures CalcOrNo(AddStep(t, props, Required(n), kind, s, acc), env) ==
            if kind.Select? && s !in t.optional && Prompts(t, props, n, s)
            then Or(CalcOrNo(acc, env), Demand(t, props, n, env)) else CalcOrNo(acc, env)
  {
    if kind.Select? && Requiring(t, n) && t.syms[n].value.id == s {
      assert t.syms[n] == Some(Var(s, t.syms[n].value.varType));
      var e := Requirement(t, props[n], n);
      assert Calc(Sym(SymMod), env) == MOD;
      assert e.Some? && Calc(e.value, env) == Demand(t, props, n, env);
      assert CalcOrNo(OrOpt(acc, e), env) == Or(CalcOrNo(acc, env), Calc(e.value, env));
    }
  }

  lemma InheritedMore(t: Menus, props: seq<seq<Prop>>, before: seq<Step>, n: nat, kind: PropKind, s: nat, env: Env)
    requires |props| == |t.syms| && n < |t.syms|
    ensures Worth(t, props, before + [Inherited(n)], kind, s, env) ==
            Worth(t, props, before, kind, s, env) + AskedAt(t.syms[n], props[n][..|props[n]|], kind, s, env)
  {
    var order := before + [Inherited(n)];
    assert order[|before|] == Inherited(n);
    assert Inheriting(order) == Inheriting(before) + {n};
    assert Demanding(order) == Demanding(before);
    assert props[n][..|props[n]|] == props[n];
  }

  lemma RequiredMore(t: Menus, props: seq<seq<Prop>>, before: seq<Step>, n: nat, kind: PropKind, s: nat, env: Env)
    requires |props| == |t.syms| && n < |t.syms|
    ensures Worth(t, props, before + [Required(n)], kind, s, env) ==
            Worth(t, props, before, kind, s, env) +
            if kind.Select? && s !in t.optional && Prompts(t, props, n, s)
            then {Demand(t, props, n, env)} else {}
  {
    var order := before + [Required(n)];
    assert order[|before|] == Required(n);
    assert Inheriting(order) == Inheriting(before);
    assert Demanding(order) == Demanding(before) + {n};
  }

  /** After the finalisation of the tree the reverse dependencies `rev` of symbol s are worth the best of what the
      selects of it and its own prompts ask, and `implied` is worth the best of what the implies of it ask: n if there
      are none. Every condition is the one of the finalised property. */
  ghost predicate ReverseWorth(t: Menus, d: MenuData, root: nat, below: set<nat>, rev: Option<Expr>,
                               implied: Option<Expr>, s: nat, env: Env)
  {
    && IsMax(CalcOrNo(rev, env),
             Asked(t.syms, d.props, below, Select, s, env) + Forced(t, d.props, {root} + below, s, env))
    && IsMax(CalcOrNo(implied, env), Asked(t.syms, d.props, below, Imply, s, env))
  }

  lemma ReverseMeaning(t: MenuTree, root: nat, below: set<nat>, s: nat, env: Env)
    requires t.Sane() && t.Collecting() && s < |t.data.dirDep|
    requires forall i :: Inherited(i) in t.order <==> i in below
    requires forall i :: Required(i) in t.order <==> (i == root || i in below) && Requiring(t.Shape(), i)
    ensures ReverseWorth(t.Shape(), t.data, root, below, t.data.revDep[s], t.data.implied[s], s, env)
  {
    hide Asked, IsMax, CalcOrNo, Collected, MenuTree.Collecting, Demand;
    var u, d := t.Shape(), t.data;
    AllCollected(t, s);
    CollectedWorth(u, d.props, t.order, Select, s, env);
    CollectedWorth(u, d.props, t.order, Imply, s, env);
    assert Inheriting(t.order) == below;
    assert Forced(u, d.props, Demanding(t.order), s, env) == Forced(u, d.props, {root} + below, s, env);
    assert Worth(u, d.props, t.order, Imply, s, env) == Asked(u.syms, d.props, below, Imply, s, env);
  }

  lemma AllCollected(t: MenuTree, s: nat)
    requires t.Sane() && t.Collecting() && s < |t.data.dirDep|
    ensures t.data.revDep[s] == Collected(t.Shape(), t.data.props, t.order, Select, s)
    ensures t.data.implied[s] == Collected(t.Shape(), t.data.props, t.order, Imply, s)
  {
  }
}
