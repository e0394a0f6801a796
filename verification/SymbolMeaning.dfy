/** What the equation of a symbol means, put in terms of its prompts, its defaults and what selects or implies it. */
module SymbolMeaning {
  import opened Tristate
  import opened Expressions
  import opened Symbols

  /** The values of the conditions of the prompts. */
  ghost function PromptValues(props: seq<Prop>, env: Env): set<Tri> {
    set k | 0 <= k < |props| && props[k].kind.Prompt? :: CalcOpt(props[k].visible, env)
  }

  /** Of all defaults property q is the first one whose condition is not n. */
  ghost predicate FirstDefault(props: seq<Prop>, q: nat, env: Env) {
    && q < |props| && props[q].kind.Default? && CalcOpt(props[q].visible, env) != NO
    && forall j :: 0 <= j < q && props[j].kind.Default? ==> CalcOpt(props[j].visible, env) == NO
  }

  /** What the defaults give: as much as the first one that counts says, and no more than its condition. */
  ghost function DefaultValues(props: seq<Prop>, env: Env): set<Tri> {
    set q | 0 <= q < |props| && FirstDefault(props, q, env) ::
      And(CalcOpt(props[q].expr, env), CalcOpt(props[q].visible, env))
  }

  /** A symbol that is never m has y instead: every bool, and without modules every tristate as well. */
  function Whole(def: SymDef, modules: Tri, t: Tri): Tri {
    if t == MOD && (def.stype.Boolean? || modules == NO) then YES else t
  }

  lemma {:induction false} PromptsMax(props: seq<Prop>, k: nat, env: Env)
    requires k <= |props|
    ensures IsMax(PromptsUpTo(props, k, env), PromptValues(props[..k], env))
  {
    if k > 0 {
      PromptsMax(props, k - 1, env);
      var few, all := PromptValues(props[..k - 1], env), PromptValues(props[..k], env);
      assert all == few + if props[k - 1].kind.Prompt? then {CalcOpt(props[k - 1].visible, env)} else {} by {
        assert props[..k] == props[..k - 1] + [props[k - 1]];
      }
    }
  }

  /** The default that is found, from the k-th property on, is the first one that counts. */
  lemma {:induction false} ActiveIsFirst(props: seq<Prop>, k: nat, env: Env) returns (q: nat)
    requires k <= |props|
    ensures var d := ActiveDefault(props, k, env);
            && k <= q <= |props| && (d.Some? <==> q < |props|)
            && (d.Some? ==> d.value == props[q] && props[q].kind.Default? && CalcOpt(props[q].visible, env) != NO)
    ensures forall j :: k <= j < q && props[j].kind.Default? ==> CalcOpt(props[j].visible, env) == NO
    decreases |props| - k
  {
    if k == |props| || (props[k].kind.Default? && CalcOpt(props[k].visible, env) != NO) {
      q := k;
    } else {
      q := ActiveIsFirst(props, k + 1, env);
    }
  }

  lemma DefaultMax(def: SymDef, env: Env)
    ensures IsMax(DefaultTri(def, env), DefaultValues(def.props, env))
  {
    var q := ActiveIsFirst(def.props, 0, env);
    assert forall i :: 0 <= i < |def.props| && FirstDefault(def.props, i, env) ==> i == q;
    if q < |def.props| { assert FirstDefault(def.props, q, env); }
  }

  /** What has a say in the value of a symbol: what selects it; and the user value, cut down to the visibility, where
      there is one and the symbol can be seen, or else what implies it and its default. */
  ghost function Votes(def: SymDef, user: Option<Tri>, vals: Values, env: Env): set<Tri> {
    {vals.rev} +
    if vals.visible != NO && user.Some? then {And(user.value, vals.visible)}
    else {vals.implied} + DefaultValues(def.props, env)
  }

  ghost predicate VisibleMeaning(def: SymDef, vals: Values, env: Env) {
    exists p :: IsMax(p, PromptValues(def.props, env)) && vals.visible == Whole(def, env.modules, p)
  }

  /** The highest vote wins: n if the symbol is selected with unmet dependencies, and y for m if it cannot be m or
      is implied as y. */
  ghost predicate TriMeaning(def: SymDef, user: Option<Tri>, vals: Values, env: Env) {
    exists t :: IsMax(t, Votes(def, user, vals, env)) &&
      vals.tri == if vals.dir == NO && vals.rev != NO then NO
                  else if t == MOD && vals.implied == YES then YES else Whole(def, env.modules, t)
  }

  /** What evaluating a bool or tristate symbol gives. */
  lemma ValueMeaning(def: SymDef, user: Option<Tri>, env: Env)
    requires def.stype.Boolean? || def.stype.Tristate?
    ensures var vals := Compute(def, user, env);
            && VisibleMeaning(def, vals, env)
            && vals.dir == Whole(def, env.modules, CalcOpt(def.dirDep, env))
            && vals.rev == Whole(def, env.modules, CalcOrNo(def.revDep, env))
            && vals.implied == (if CalcOpt(def.dirDep, env) == NO then NO
                                else Whole(def, env.modules, CalcOrNo(def.implied, env)))
            && TriMeaning(def, user, vals, env)
  {
    var vals := Compute(def, user, env);
    var p := PromptsUpTo(def.props, |def.props|, env);
    PromptsMax(def.props, |def.props|, env);
    assert def.props[..|def.props|] == def.props;
    assert IsMax(p, PromptValues(def.props, env)) && vals.visible == Whole(def, env.modules, p);
    DefaultMax(def, env);
    var own := OwnValue(def, user, env);
    assert IsMax(Or(own, vals.rev), Votes(def, user, vals, env));
  }

  /** Without a user value that counts, with direct dependencies that are met and nothing that selects or implies it, a
      symbol is worth its first default that counts, cut down to the condition of that default: and n without one. */
  lemma DefaultValue(def: SymDef, user: Option<Tri>, q: nat, env: Env)
    requires def.stype.Boolean? || def.stype.Tristate?
    requires user.None? || forall k :: 0 <= k < |def.props| && def.props[k].kind.Prompt? ==>
               CalcOpt(def.props[k].visible, env) == NO
    requires CalcOpt(def.dirDep, env) != NO && CalcOrNo(def.revDep, env) == NO && CalcOrNo(def.implied, env) == NO
    ensures FirstDefault(def.props, q, env) ==>
              var d := def.props[q];
              Compute(def, user, env).tri == Whole(def, env.modules, And(CalcOpt(d.expr, env), CalcOpt(d.visible, env)))
    ensures (forall j :: 0 <= j < |def.props| && def.props[j].kind.Default? ==>
            CalcOpt(def.props[j].visible, env) == NO)
              ==> Compute(def, user, env).tri == NO
  {
    ValueMeaning(def, user, env);
    var vals := Compute(def, user, env);
    if user.Some? { assert vals.visible == NO; }
    DefaultMax(def, env);
    if FirstDefault(def.props, q, env) {
      var x := And(CalcOpt(def.props[q].expr, env), CalcOpt(def.props[q].visible, env));
      assert x in DefaultValues(def.props, env);
    }
  }

  /** The symbol can be seen, is selected, is implied while its direct dependencies are met, or has a default that
      counts. */
  ghost predicate Concerned(def: SymDef, env: Env) {
    || (exists k :: 0 <= k < |def.props| && def.props[k].kind.Prompt? && CalcOpt(def.props[k].visible, env) != NO)
    || CalcOrNo(def.revDep, env) != NO
    || (CalcOpt(def.dirDep, env) != NO && CalcOrNo(def.implied, env) != NO)
    || (exists k :: 0 <= k < |def.props| && def.props[k].kind.Default? && CalcOpt(def.props[k].visible, env) != NO)
  }

  /** SYMBOL_WRITE is set exactly for those symbols, and every other one is n. */
  lemma WriteMeaning(def: SymDef, user: Option<Tri>, env: Env)
    ensures Compute(def, user, env).write <==> Concerned(def, env)
    ensures !Concerned(def, env) ==> Compute(def, user, env).tri == NO
  {
    PromptsMax(def.props, |def.props|, env);
    assert def.props[..|def.props|] == def.props;
    var q := ActiveIsFirst(def.props, 0, env);
    var p := PromptsUpTo(def.props, |def.props|, env);
    if p != NO {
      assert p in PromptValues(def.props, env);
    } else {
      forall k | 0 <= k < |def.props| && def.props[k].kind.Prompt? ensures CalcOpt(def.props[k].visible, env) == NO {
        assert CalcOpt(def.props[k].visible, env) in PromptValues(def.props, env);
      }
    }
  }
}
