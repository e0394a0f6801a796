/** A choice block: how it picks its member while it is y, and what values its members are evaluated to. */
module Choices {
  import opened Tristate
  import opened Expressions

  /** A default of the choice: its condition and the symbol it names. */
  datatype Preferred = Preferred(visible: Option<Expr>, target: nat)

  /** A default of a member: its condition and its value. (The code warns about them, but evaluates them.) */
  datatype OwnDefault = OwnDefault(visible: Option<Expr>, value: Option<Expr>)

  /** What the Kconfig files say about the block. `types`, `prompts` and `ownDefaults` cover all symbols. */
  datatype Block = Block(
    modules: Tri,
    types: seq<SymType>,
    prompts: seq<seq<Option<Expr>>>,
    ownDefaults: seq<seq<OwnDefault>>,
    members: seq<nat>,
    defaults: seq<Preferred>)

  predicate Sized(b: Block) {
    && |b.types| == |b.prompts| == |b.ownDefaults|
    && (forall k :: 0 <= k < |b.members| ==> b.members[k] < |b.types|)
    && (forall k :: 0 <= k < |b.defaults| ==> b.defaults[k].target < |b.types|)
  }

  /** A prompt of a member: a tristate member that could only be m is hidden while the choice is y. */
  function PromptValue(t: SymType, choice: Tri, p: Option<Expr>, env: Env): Tri {
    var v := CalcOpt(p, env);
    if t.Tristate? && v == MOD && choice == YES then NO else v
  }

  function BestPrompt(t: SymType, choice: Tri, prompts: seq<Option<Expr>>, k: nat, env: Env): Tri
    requires k <= |prompts|
  {
    if k == 0 then NO else Or(BestPrompt(t, choice, prompts, k - 1, env), PromptValue(t, choice, prompts[k - 1], env))
  }

  function MemberVisible(b: Block, m: nat, choice: Tri, env: Env): Tri
    requires Sized(b) && m < |b.types|
  {
    var v := BestPrompt(b.types[m], choice, b.prompts[m], |b.prompts[m]|, env);
    if v == MOD && (!b.types[m].Tristate? || b.modules == NO) then YES else v
  }

  /** While the choice is y its members are visible as y or not at all. */
  lemma {:induction false} NeverModule(t: SymType, prompts: seq<Option<Expr>>, k: nat, env: Env)
    requires k <= |prompts| && t.Tristate?
    ensures BestPrompt(t, YES, prompts, k, env) != MOD
  {
    if k > 0 { NeverModule(t, prompts, k - 1, env); }
  }

  lemma VisibleIsYes(b: Block, m: nat, env: Env)
    requires Sized(b) && m < |b.types|
    ensures MemberVisible(b, m, YES, env) != MOD
  {
    if b.types[m].Tristate? { NeverModule(b.types[m], b.prompts[m], |b.prompts[m]|, env); }
  }

  // ----- which member is picked

  function FirstDefault(b: Block, visible: seq<Tri>, k: nat, env: Env): (r: Option<nat>)
    requires Sized(b) && |visible| == |b.types| && k <= |b.defaults|
    ensures r.Some? ==> r.value < |visible| && visible[r.value] != NO
    ensures r.Some? ==> exists i :: 0 <= i < |b.defaults| && b.defaults[i].target == r.value
    decreases |b.defaults| - k
  {
    if k == |b.defaults| then None
    else if CalcOpt(b.defaults[k].visible, env) != NO && visible[b.defaults[k].target] != NO
    then Some(b.defaults[k].target)
    else FirstDefault(b, visible, k + 1, env)
  }

  function FirstMember(b: Block, visible: seq<Tri>, k: nat): (r: Option<nat>)
    requires Sized(b) && |visible| == |b.types| && k <= |b.members|
    ensures r.Some? ==> r.value in b.members && visible[r.value] != NO
    ensures r.None? ==> forall i :: k <= i < |b.members| ==> visible[b.members[i]] == NO
    decreases |b.members| - k
  {
    if k == |b.members| then None
    else if visible[b.members[k]] != NO then Some(b.members[k])
    else FirstMember(b, visible, k + 1)
  }

  /** The user's pick if it is visible, or the first default that is, or the first visible member. */
  function Pick(b: Block, visible: seq<Tri>, user: Option<nat>, env: Env): (r: Option<nat>)
    requires Sized(b) && |visible| == |b.types| && (user.Some? ==> user.value < |visible|)
    ensures r.Some? ==> r.value < |visible| && visible[r.value] != NO
  {
    if user.Some? && visible[user.value] != NO then user
    else
      var d := FirstDefault(b, visible, 0, env);
      if d.Some? then d else FirstMember(b, visible, 0)
  }

  /** The k-th default can take effect: its condition holds and its symbol is visible. */
  predicate Active(b: Block, visible: seq<Tri>, k: nat, env: Env)
    requires Sized(b) && |visible| == |b.types| && k < |b.defaults|
  {
    CalcOpt(b.defaults[k].visible, env) != NO && visible[b.defaults[k].target] != NO
  }

  /** The first default, from the j-th on, that can take effect names a symbol that is not a member. */
  predicate StrayDefault(b: Block, visible: seq<Tri>, j: nat, env: Env)
    requires Sized(b) && |visible| == |b.types|
  {
    exists k :: j <= k < |b.defaults| && Active(b, visible, k, env) && b.defaults[k].target !in b.members
                && forall i :: j <= i < k ==> !Active(b, visible, i, env)
  }

  /** What the user has picked, if it is visible, or else the first default that can take effect, is not a member. */
  predicate StrayFirst(b: Block, visible: seq<Tri>, chosen: Option<nat>, env: Env)
    requires Sized(b) && |visible| == |b.types| && (chosen.Some? ==> chosen.value < |visible|)
  {
    if chosen.Some? && visible[chosen.value] != NO then chosen.value !in b.members
    else StrayDefault(b, visible, 0, env)
  }

  lemma {:induction false} FirstDefaultStray(b: Block, visible: seq<Tri>, j: nat, env: Env)
    requires Sized(b) && |visible| == |b.types| && j <= |b.defaults|
    ensures StrayDefault(b, visible, j, env) <==>
            var d := FirstDefault(b, visible, j, env); d.Some? && d.value !in b.members
    decreases |b.defaults| - j
  {
    if j < |b.defaults| {
      FirstDefaultStray(b, visible, j + 1, env);
      if !Active(b, visible, j, env) && StrayDefault(b, visible, j + 1, env) {
        var k :| j + 1 <= k < |b.defaults| && Active(b, visible, k, env) && b.defaults[k].target !in b.members
                 && forall i :: j + 1 <= i < k ==> !Active(b, visible, i, env);
        assert forall i :: j <= i < k ==> !Active(b, visible, i, env);
      }
    }
  }

  /** Every symbol the user or a default names is a member. */
  predicate PicksAreMembers(b: Block, user: Option<nat>) {
    && (user.Some? ==> user.value in b.members)
    && (forall k :: 0 <= k < |b.defaults| ==> b.defaults[k].target in b.members)
  }

  // ----- the value of a member

  /** `sym_get_type` says bool. */
  predicate CountsAsBool(b: Block, m: nat, visible: Tri)
    requires Sized(b) && m < |b.types|
  {
    !b.types[m].Tristate? || visible == YES || b.modules == NO
  }

  /** The first default of a member, from the k-th on, whose condition holds. */
  function OwnDefaultTri(defaults: seq<OwnDefault>, k: nat, env: Env): Tri
    requires k <= |defaults|
    decreases |defaults| - k
  {
    if k == |defaults| then NO
    else
      var v := CalcOpt(defaults[k].visible, env);
      if v != NO then And(CalcOpt(defaults[k].value, env), v) else OwnDefaultTri(defaults, k + 1, env)
  }

  /** `sym_calc_value` of a choice value: its selecting and implying symbols are never evaluated. */
  function MemberTri(b: Block, m: nat, pick: Option<nat>, visible: Tri, user: Option<Tri>, env: Env): Tri
    requires Sized(b) && m < |b.types|
  {
    var own :=
      if visible == YES then FromBool(pick == Some(m))
      else if visible != NO && user.Some? then And(user.value, visible)
      else OwnDefaultTri(b.ownDefaults[m], 0, env);
    if own == MOD && CountsAsBool(b, m, visible) then YES else own
  }

  /** What the members are evaluated to, given the pick and their visibilities. */
  function MemberTris(b: Block, pick: Option<nat>, visible: seq<Tri>, user: seq<Option<Tri>>, env: Env): (r: seq<Tri>)
    requires Sized(b) && |visible| == |user| == |b.types|
    ensures |r| == |b.types|
    ensures forall m :: 0 <= m < |r| ==> r[m] == MemberTri(b, m, pick, visible[m], user[m], env)
  {
    seq(|b.types|, m requires 0 <= m < |b.types| => MemberTri(b, m, pick, visible[m], user[m], env))
  }

  predicate SomeVisible(b: Block, visible: seq<Tri>)
    requires Sized(b) && |visible| == |b.types|
  {
    exists m :: m in b.members && visible[m] != NO
  }

  /** No visible member is visible as m only. */
  predicate VisibleAsYes(b: Block, visible: seq<Tri>)
    requires Sized(b) && |visible| == |b.types|
  {
    forall m :: m in b.members ==> visible[m] != MOD
  }

  /** Exactly one visible member is y, and the other visible ones are n. */
  predicate OneVisibleYes(b: Block, visible: seq<Tri>, tris: seq<Tri>)
    requires Sized(b) && |visible| == |tris| == |b.types|
  {
    exists m :: m in b.members && visible[m] != NO && OnlyYes(b, visible, tris, m)
  }

  predicate OnlyYes(b: Block, visible: seq<Tri>, tris: seq<Tri>, m: nat)
    requires Sized(b) && |visible| == |tris| == |b.types|
  {
    forall i :: i in b.members && visible[i] != NO ==> tris[i] == if i == m then YES else NO
  }

  /** While a choice stays y, which it does when a member is visible: exactly one visible member is evaluated to
      y, whatever the user has set the members to, if and only if what takes effect first is not a stray symbol. */
  lemma ExactlyOneIff(b: Block, visible: seq<Tri>, chosen: Option<nat>, user: seq<Option<Tri>>, env: Env)
    requires Sized(b) && |visible| == |user| == |b.types| && VisibleAsYes(b, visible)
    requires (chosen.Some? ==> chosen.value < |visible|) &&
             (SomeVisible(b, visible) || Pick(b, visible, chosen, env).Some?)
    ensures OneVisibleYes(b, visible, MemberTris(b, Pick(b, visible, chosen, env), visible, user, env)) <==>
            !StrayFirst(b, visible, chosen, env)
  {
    hide MemberTri;
    var pick := Pick(b, visible, chosen, env);
    var tris := MemberTris(b, pick, visible, user, env);
    PickIsMember(b, visible, chosen, env);
    if StrayFirst(b, visible, chosen, env) {
      StrayPick(b, visible, chosen, user, env);
    } else {
      ExactlyOneMember(b, visible, pick, chosen, user, env);
      assert OnlyYes(b, visible, tris, pick.value);
    }
  }

  /** That member is the one the choice has picked. */
  lemma ExactlyOneMember(b: Block, visible: seq<Tri>, pick: Option<nat>, chosen: Option<nat>, user: seq<Option<Tri>>,
                         env: Env)
    requires Sized(b) && |visible| == |user| == |b.types| && VisibleAsYes(b, visible) && SomeVisible(b, visible)
    requires (chosen.Some? ==> chosen.value < |visible|) && !StrayFirst(b, visible, chosen, env)
    requires pick == Pick(b, visible, chosen, env)
    ensures pick.Some? && pick.value in b.members && visible[pick.value] != NO
    ensures var tris := MemberTris(b, pick, visible, user, env);
            forall m :: m in b.members && visible[m] != NO ==> tris[m] == (if m == pick.value then YES else NO)
  {
    PickIsMember(b, visible, chosen, env);
  }

  /** A choice finds something to pick if a member is visible; it picks a member if and only if no stray symbol takes
      effect first. */
  lemma PickIsMember(b: Block, visible: seq<Tri>, chosen: Option<nat>, env: Env)
    requires Sized(b) && |visible| == |b.types| && (chosen.Some? ==> chosen.value < |visible|)
    ensures var pick := Pick(b, visible, chosen, env);
            && (SomeVisible(b, visible) ==> pick.Some?)
            && (StrayFirst(b, visible, chosen, env) <==> pick.Some? && pick.value !in b.members)
            && (pick.Some? && !StrayFirst(b, visible, chosen, env) ==> SomeVisible(b, visible))
  {
    FirstDefaultStray(b, visible, 0, env);
    if SomeVisible(b, visible) {
      var m :| m in b.members && visible[m] != NO;
      var k :| 0 <= k < |b.members| && b.members[k] == m;
      assert FirstMember(b, visible, 0).Some?;
    }
  }

  /** If all symbols that are named are members, nothing stray can take effect. */
  lemma MembersAreNotStray(b: Block, visible: seq<Tri>, chosen: Option<nat>, env: Env)
    requires Sized(b) && |visible| == |b.types| && PicksAreMembers(b, chosen)
    ensures !StrayFirst(b, visible, chosen, env)
  {
  }

  /** Members that are not visible are not covered by that: exactly one member of all is y if and only if no hidden
      member has a default that is not n (for a bool) or is y (for a tristate). */
  lemma ExactlyOneOfAll(b: Block, visible: seq<Tri>, pick: Option<nat>, chosen: Option<nat>, user: seq<Option<Tri>>,
                        env: Env)
    requires Sized(b) && |visible| == |user| == |b.types| && VisibleAsYes(b, visible) && SomeVisible(b, visible)
    requires (chosen.Some? ==> chosen.value < |visible|) && !StrayFirst(b, visible, chosen, env)
    requires pick == Pick(b, visible, chosen, env)
    ensures (forall m :: m in b.members ==>
            (MemberTris(b, pick, visible, user, env)[m] == YES <==> pick == Some(m))) <==>
            (forall m :: m in b.members && visible[m] == NO ==> !HiddenYes(b, m, env))
  {
    ExactlyOneMember(b, visible, pick, chosen, user, env);
    var tris := MemberTris(b, pick, visible, user, env);
    forall m | m in b.members && visible[m] == NO ensures tris[m] == YES <==> HiddenYes(b, m, env) {
    }
  }

  /** Such a block: member 1 has no prompt, but a default that is y. */
  lemma HiddenExample(env: Env, user: seq<Option<Tri>>)
    requires |user| == 2
    ensures var types := [SymType.Boolean, SymType.Boolean];
            var b := Block(YES, types, [[None], []], [[], [OwnDefault(None, None)]], [0, 1], []);
            var tris := MemberTris(b, Some(0), [YES, NO], user, env);
            && Sized(b) && MemberVisible(b, 0, YES, env) == YES && MemberVisible(b, 1, YES, env) == NO
            && Pick(b, [YES, NO], None, env) == Some(0) && tris[0] == YES && tris[1] == YES
  {
    var own := [OwnDefault(None, None)];
    assert BestPrompt(SymType.Boolean, YES, [None], 0, env) == NO;
    assert OwnDefaultTri(own, 0, env) == YES;
  }

  /** The default of a hidden member makes it y. */
  predicate HiddenYes(b: Block, m: nat, env: Env)
    requires Sized(b) && m < |b.types|
  {
    var d := OwnDefaultTri(b.ownDefaults[m], 0, env);
    d == YES || (d == MOD && (!b.types[m].Tristate? || b.modules == NO))
  }

  /** Such a block: its one member has a prompt, as has symbol 1, which is not a member but the default. */
  lemma StrayExample(env: Env, user: seq<Option<Tri>>)
    requires |user| == 2
    ensures var types := [SymType.Boolean, SymType.Boolean];
            var b := Block(YES, types, [[None], [None]], [[], []], [0], [Preferred(None, 1)]);
            var visible := [YES, YES];
            && Sized(b) && SomeVisible(b, visible) &&
              MemberVisible(b, 0, YES, env) == MemberVisible(b, 1, YES, env) == YES
            && Pick(b, visible, None, env) == Some(1) && MemberTris(b, Some(1), visible, user, env)[0] == NO
            && StrayFirst(b, visible, None, env) &&
              !OneVisibleYes(b, visible, MemberTris(b, Some(1), visible, user, env))
  {
    var b := Block(YES, [SymType.Boolean, SymType.Boolean], [[None], [None]], [[], []], [0], [Preferred(None, 1)]);
    assert BestPrompt(SymType.Boolean, YES, [None], 0, env) == NO;
    assert 0 in b.members;
    FirstDefaultStray(b, [YES, YES], 0, env);
  }

  /** A visible pick that is not a member leaves no visible member y. */
  lemma StrayPick(b: Block, visible: seq<Tri>, chosen: Option<nat>, user: seq<Option<Tri>>, env: Env)
    requires Sized(b) && |visible| == |user| == |b.types| && VisibleAsYes(b, visible)
    requires chosen.Some? ==> chosen.value < |visible|
    requires var p := Pick(b, visible, chosen, env); p.Some? && p.value !in b.members
    ensures var tris := MemberTris(b, Pick(b, visible, chosen, env), visible, user, env);
            forall m :: m in b.members && visible[m] != NO ==> tris[m] == NO
  {
    var p := Pick(b, visible, chosen, env);
    forall m | m in b.members && visible[m] != NO ensures MemberTri(b, m, p, visible[m], user[m], env) == NO {
      assert visible[m] == YES;
    }
  }

  /** A condition that the menu finalisation has given a prompt of a member: the choice itself, or for a bool member of
      a tristate choice that the choice is y. */
  predicate Bounded(b: Block, m: nat, choice: Tri, env: Env)
    requires Sized(b) && m < |b.types|
  {
    forall k :: 0 <= k < |b.prompts[m]| ==>
      CalcOpt(b.prompts[m][k], env) <= (if b.types[m].Tristate? || choice == YES then choice else NO)
  }

  lemma {:induction false} BestBounded(t: SymType, choice: Tri, prompts: seq<Option<Expr>>, k: nat, bound: Tri,
                                       env: Env)
    requires k <= |prompts| && forall i :: 0 <= i < |prompts| ==> CalcOpt(prompts[i], env) <= bound
    ensures BestPrompt(t, choice, prompts, k, env) <= bound
  {
    if k > 0 { BestBounded(t, choice, prompts, k - 1, bound, env); }
  }

  /** While a choice is m, its members are independent of each other: each is what the user has set, cut down to m, and
      none without a default is y. While it is n, they are hidden. */
  lemma ChoiceBelowYes(b: Block, m: nat, choice: Tri, pick: Option<nat>, user: Option<Tri>, env: Env)
    requires Sized(b) && m < |b.types| && Bounded(b, m, choice, env) && choice != YES && b.modules != NO
    ensures var v := MemberVisible(b, m, choice, env);
            && v <= choice
            && (v == MOD && user.Some? ==> MemberTri(b, m, pick, v, user, env) == And(user.value, MOD))
            && (b.ownDefaults[m] == [] ==> MemberTri(b, m, pick, v, user, env) <= choice)
  {
    var bound := if b.types[m].Tristate? then choice else NO;
    BestBounded(b.types[m], choice, b.prompts[m], |b.prompts[m]|, bound, env);
  }

  /** The visibilities that evaluating a choice finds: those of its members are calculated, others stay as they are. */
  function Seen(b: Block, before: seq<Tri>, env: Env): (r: seq<Tri>)
    requires Sized(b) && |before| == |b.types|
    ensures |r| == |before|
    ensures forall m :: 0 <= m < |r| ==> r[m] == if m in b.members then MemberVisible(b, m, YES, env) else before[m]
  {
    seq(|before|, m requires 0 <= m < |before| && |before| == |b.types| && Sized(b) =>
      if m in b.members then MemberVisible(b, m, YES, env) else before[m])
  }

  /** The user values, of the symbols that have one. */
  function UserValues(given: seq<bool>, tris: seq<Tri>): (r: seq<Option<Tri>>)
    requires |given| == |tris|
    ensures |r| == |given| && forall m :: 0 <= m < |r| ==> r[m] == if given[m] then Some(tris[m]) else None
  {
    seq(|given|, m requires 0 <= m < |given| && |given| == |tris| => if given[m] then Some(tris[m]) else None)
  }

  // ----- the evaluation in place

  class ChoiceBlock {
    const b: Block
    var tri: Tri
    var val: Option<nat>
    /** The member the user picked, and for which symbols there is a user value, and which. */
    var user: Option<nat>
    var hasUser: bool
    var userSet: seq<bool>
    var userTri: seq<Tri>
    var visible: seq<Tri>
    /** The values of the members. */
    var values: seq<Tri>

    constructor (b: Block, tri: Tri)
      requires Sized(b)
      ensures Valid() && this.b == b && this.tri == tri && user == None && !hasUser
      ensures forall m :: 0 <= m < |visible| ==> visible[m] == NO && !userSet[m]
    {
      this.b, this.tri, this.val, this.user, this.hasUser := b, tri, None, None, false;
      this.userSet := seq(|b.types|, _ => false);
      this.userTri, this.visible := seq(|b.types|, _ => NO), seq(|b.types|, _ => NO);
      this.values := seq(|b.types|, _ => NO);
    }

    ghost predicate Valid()
      reads this
    {
      && Sized(b) && |visible| == |userSet| == |userTri| == |values| == |b.types|
      && (user.Some? ==> user.value < |visible|)
    }

    function UserOf(m: nat): Option<Tri>
      reads this
      requires Valid() && m < |visible|
    {
      if userSet[m] then Some(userTri[m]) else None
    }

    /** The prompts of a member in `sym_calc_visibility`. */
    method CalcVisibility(m: nat, env: Env)
      requires Valid() && m < |b.types|
      modifies this`visible
      ensures Valid() && visible == old(visible)[m := MemberVisible(b, m, tri, env)]
    {
      var best, k := NO, 0;
      while k < |b.prompts[m]|
        invariant k <= |b.prompts[m]| && best == BestPrompt(b.types[m], tri, b.prompts[m], k, env)
      {
        var v := CalcOpt(b.prompts[m][k], env);
        if b.types[m].Tristate? && v == MOD && tri == YES { v := NO; }
        best := Or(best, v);
        k := k + 1;
      }
      if best == MOD && (!b.types[m].Tristate? || b.modules == NO) { best := YES; }
      visible := visible[m := best];
    }

    /** `sym_choice_default`. */
    method ChoiceDefault(env: Env) returns (r: Option<nat>)
      requires Valid()
      ensures r == Pick(b, visible, None, env)
    {
      var k := 0;
      while k < |b.defaults|
        invariant k <= |b.defaults| && FirstDefault(b, visible, 0, env) == FirstDefault(b, visible, k, env)
      {
        if CalcOpt(b.defaults[k].visible, env) != NO && visible[b.defaults[k].target] != NO {
          return Some(b.defaults[k].target);
        }
        k := k + 1;
      }
      k := 0;
      while k < |b.members|
        invariant k <= |b.members| && FirstMember(b, visible, 0) == FirstMember(b, visible, k)
      {
        if visible[b.members[k]] != NO {
          return Some(b.members[k]);
        }
        k := k + 1;
      }
      r := None;
    }

    /** After the first k members: their visibility is up to date, and the user's choice only counts if the user has
        set all the visible ones. */
    ghost predicate UpTo(k: nat, flag: bool, before: seq<Tri>, env: Env)
      reads this
      requires Valid() && k <= |b.members| && |before| == |visible|
    {
      && (forall m :: 0 <= m < |visible| ==>
            visible[m] == if m in b.members[..k] then MemberVisible(b, m, tri, env) else before[m])
      && (flag <==> forall i :: 0 <= i < k && MemberVisible(b, b.members[i], tri, env) != NO ==> userSet[b.members[i]])
    }

    method CalcVisibilities(env: Env) returns (flag: bool)
      requires Valid()
      modifies this`visible
      ensures Valid() && UpTo(|b.members|, flag, old(visible), env)
    {
      flag := true;
      var k := 0;
      while k < |b.members|
        invariant k <= |b.members| && Valid() && UpTo(k, flag, old(visible), env)
      {
        var m := b.members[k];
        CalcVisibility(m, env);
        assert b.members[..k + 1] == b.members[..k] + [m];
        if visible[m] != NO && !userSet[m] { flag := false; }
        k := k + 1;
      }
    }

    /** `sym_calc_choice`, and the assignment of its result. */
    method CalcChoice(env: Env)
      requires Valid() && tri == YES
      modifies this
      ensures Valid() && user == old(user) && userSet == old(userSet) && userTri == old(userTri)
      ensures forall m :: 0 <= m < |visible| ==>
                            visible[m] == if m in b.members then MemberVisible(b, m, YES, env) else old(visible)[m]
      ensures hasUser <==> old(hasUser) && forall m :: m in b.members && visible[m] != NO ==> userSet[m]
      ensures forall m :: m in b.members ==> visible[m] != MOD
      ensures val == Pick(b, visible, user, env)
      ensures tri == if val.Some? then YES else NO
      ensures !StrayFirst(b, visible, user, env) ==> (tri == YES <==> SomeVisible(b, visible))
      ensures tri == YES ==> (val.value in b.members <==> !StrayFirst(b, visible, user, env))
    {
      hide MemberVisible, Pick, StrayFirst;
      var flag := CalcVisibilities(env);
      assert b.members[..|b.members|] == b.members;
      hasUser := hasUser && flag;
      SelectMember(env);
      PickIsMember(b, visible, user, env);
      forall m | m in b.members ensures m < |visible| && visible[m] != MOD {
        VisibleIsYes(b, m, env);
      }
    }

    method SelectMember(env: Env)
      requires Valid() && tri == YES
      modifies this`val, this`tri
      ensures val == Pick(b, visible, user, env) && tri == if val.Some? then YES else NO
    {
      hide Pick;
      PickParts(b, visible, user, env);
      if user.Some? && visible[user.value] != NO {
        val := user;
      } else {
        val := ChoiceDefault(env);
        if val.None? { tri := NO; }
      }
    }

    /** The value of a member in `sym_calc_value`. */
    method CalcMember(m: nat, env: Env)
      requires Valid() && m < |b.types|
      modifies this`visible, this`values
      ensures Valid() && visible == old(visible)[m := MemberVisible(b, m, tri, env)]
      ensures values == old(values)[m := MemberTri(b, m, val, MemberVisible(b, m, tri, env), UserOf(m), env)]
    {
      CalcVisibility(m, env);
      var newval := NO;
      if visible[m] == YES {
        if val == Some(m) { newval := YES; }
      } else if visible[m] != NO && userSet[m] {
        newval := And(userTri[m], visible[m]);
      } else {
        newval := MemberDefault(m, env);
      }
      if newval == MOD && CountsAsBool(b, m, visible[m]) { newval := YES; }
      values := values[m := newval];
    }

    /** The loop of `sym_get_default_prop`, and the value of the default. */
    method MemberDefault(m: nat, env: Env) returns (r: Tri)
      requires Valid() && m < |b.types|
      ensures r == OwnDefaultTri(b.ownDefaults[m], 0, env)
    {
      var k, defaults := 0, b.ownDefaults[m];
      while k < |defaults|
        invariant k <= |defaults| && OwnDefaultTri(defaults, 0, env) == OwnDefaultTri(defaults, k, env)
      {
        var v := CalcOpt(defaults[k].visible, env);
        if v != NO { return And(CalcOpt(defaults[k].value, env), v); }
        k := k + 1;
      }
      r := NO;
    }

    /** The members in `order` are up to date, their visibilities and their values; other visibilities are as before. */
    ghost predicate Evaluated(order: seq<nat>, before: seq<Tri>, env: Env)
      reads this
      requires Valid() && |before| == |visible|
    {
      forall m :: 0 <= m < |visible| ==>
        if m in order then visible[m] == MemberVisible(b, m, tri, env) &&
          values[m] == MemberTri(b, m, val, visible[m], UserOf(m), env)
        else visible[m] == before[m]
    }

    /** Members are asked for their values, in any order and repeatedly. */
    method CalcMembers(order: seq<nat>, env: Env)
      requires Valid() && forall k :: 0 <= k < |order| ==> order[k] < |b.types|
      modifies this`visible, this`values
      ensures Valid() && Evaluated(order, old(visible), env)
    {
      hide MemberTri, MemberVisible;
      var k := 0;
      while k < |order|
        invariant k <= |order| && Valid() && Evaluated(order[..k], old(visible), env)
      {
        assert order[..k + 1] == order[..k] + [order[k]];
        CalcMember(order[k], env);
        k := k + 1;
      }
      assert order[..k] == order;
    }

    /** Evaluating a choice that is y and then its members, in any order. While it stays y, exactly one visible
        member is y and the others are n if and only if no stray symbol takes effect first; then it is the one the
        choice holds. */
    method EvaluateAll(order: seq<nat>, env: Env)
      requires Valid() && tri == YES
      requires forall k :: 0 <= k < |order| ==> order[k] in b.members
      requires forall m :: m in b.members ==> m in order
      modifies this
      ensures Valid() && user == old(user) && userSet == old(userSet) && userTri == old(userTri)
      ensures val == Pick(b, Seen(b, old(visible), env), user, env) && tri == if val.Some? then YES else NO
      ensures SomeVisible(b, Seen(b, old(visible), env)) ==> tri == YES
      ensures tri == YES ==> visible == Seen(b, old(visible), env)
      ensures tri == YES ==> (OneVisibleYes(b, visible, values) <==> !StrayFirst(b, visible, user, env))
      ensures tri == YES && !StrayFirst(b, visible, user, env) ==>
                val.value in b.members && visible[val.value] == YES && OnlyYes(b, visible, values, val.value)
      ensures forall m :: m in b.members ==> visible[m] == MemberVisible(b, m, tri, env)
    {
      hide Pick, MemberTri, MemberVisible, StrayFirst, OneVisibleYes, SomeVisible, OnlyYes;
      ghost var before := visible;
      CalcChoice(env);
      assert visible == Seen(b, before, env);
      PickIsMember(b, visible, user, env);
      ghost var found := visible;
      CalcMembers(order, env);
      if tri == YES {
        assert visible == found;
        AllEvaluated(order, found, env);
      }
    }

    lemma AllEvaluated(order: seq<nat>, before: seq<Tri>, env: Env)
      requires Valid() && tri == YES && |before| == |visible| && Evaluated(order, before, env)
      requires forall m :: m in b.members ==> m in order
      requires val == Pick(b, visible, user, env) && val.Some?
      ensures OneVisibleYes(b, visible, values) <==> !StrayFirst(b, visible, user, env)
      ensures !StrayFirst(b, visible, user, env) ==>
                val.value in b.members && visible[val.value] == YES && OnlyYes(b, visible, values, val.value)
    {
      hide Pick, MemberTri, MemberVisible, StrayFirst;
      forall m | m in b.members ensures visible[m] != MOD { VisibleIsYes(b, m, env); }
      PickIsMember(b, visible, user, env);
      var tris := MemberTris(b, val, visible, UserValues(userSet, userTri), env);
      forall m | m in b.members ensures tris[m] == values[m] {
        assert visible[m] == MemberVisible(b, m, tri, env) && UserValues(userSet, userTri)[m] == UserOf(m);
      }
      ExactlyOneIff(b, visible, user, UserValues(userSet, userTri), env);
      if !StrayFirst(b, visible, user, env) {
        ExactlyOneMember(b, visible, val, user, UserValues(userSet, userTri), env);
      }
    }

    /** The part of `sym_set_tristate_value` for a member that is set to y. */
    method PickMember(m: nat)
      requires Valid() && m in b.members
      modifies this`user, this`hasUser, this`userSet, this`userTri
      ensures Valid() && user == Some(m) && hasUser && userTri == old(userTri)[m := YES]
      ensures forall i :: 0 <= i < |userSet| ==>
              (userSet[i] <==> old(userSet[i]) || i == m || (i in b.members && visible[i] != NO))
    {
      userSet := userSet[m := true];
      user, hasUser := Some(m), true;
      var k := 0;
      while k < |b.members|
        invariant k <= |b.members| && |userSet| == |visible| && user == Some(m) && hasUser && userTri == old(userTri)
        invariant forall i :: 0 <= i < |userSet| ==>
                    (userSet[i] <==> old(userSet[i]) || i == m || (i in b.members[..k] && visible[i] != NO))
      {
        assert b.members[..k + 1] == b.members[..k] + [b.members[k]];
        if visible[b.members[k]] != NO { userSet := userSet[b.members[k] := true]; }
        k := k + 1;
      }
      assert b.members[..k] == b.members;
      userTri := userTri[m := YES];
    }

    /** Picking a visible member and evaluating again gives that member y and the other visible ones n. */
    method PickThenRead(m: nat, order: seq<nat>, env: Env)
      requires Valid() && tri == YES && m in b.members && MemberVisible(b, m, YES, env) != NO
      requires forall k :: 0 <= k < |order| ==> order[k] in b.members
      requires forall i :: i in b.members ==> i in order
      modifies this
      ensures Valid() && tri == YES && val == Some(m) && values[m] == YES
      ensures forall i :: i in b.members && i != m && visible[i] != NO ==> values[i] == NO
    {
      PickMember(m);
      PickedFound(m, env);
      EvaluateAll(order, env);
    }

    /** A visible member that the user has picked is what takes effect first. */
    lemma PickedFound(m: nat, env: Env)
      requires Valid() && m in b.members && user == Some(m) && MemberVisible(b, m, YES, env) != NO
      ensures Pick(b, Seen(b, visible, env), user, env) == Some(m) && !StrayFirst(b, Seen(b, visible, env), user, env)
    {
    }
  }

  lemma PickParts(b: Block, visible: seq<Tri>, user: Option<nat>, env: Env)
    requires Sized(b) && |visible| == |b.types| && (user.Some? ==> user.value < |visible|)
    ensures Pick(b, visible, user, env) ==
            if user.Some? && visible[user.value] != NO then user else Pick(b, visible, None, env)
  {
  }
}
