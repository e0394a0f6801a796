/** The mode of a choice: its own value, whether evaluating it twice gives it twice, and what a minimal
    configuration that is read back makes of a choice. */
module ChoiceMode {
  import opened Tristate
  import opened Expressions
  import opened Choices

  /** What the value of a choice symbol depends on besides the user. Its defaults name members and do not count. */
  datatype Mode = Mode(stype: SymType, optional: bool, visible: Tri, dir: Tri, rev: Tri, implied: Tri)

  predicate IsBool(c: Mode, modules: Tri) { !c.stype.Tristate? || modules == NO }

  /** `sym_calc_value` of a choice, up to the pick. */
  function ModeTri(c: Mode, modules: Tri, user: Option<Tri>): Tri {
    var own := if c.visible != NO && user.Some? then And(user.value, c.visible) else NO;
    var t := if c.dir == NO && c.rev != NO then NO else Or(own, c.rev);
    if t == MOD && (IsBool(c, modules) || c.implied == YES) then YES else t
  }

  /** The choice is y without the user's help. */
  predicate Forced(c: Mode, modules: Tri) {
    c.dir != NO && (c.rev == YES || (c.rev == MOD && (IsBool(c, modules) || c.implied == YES)))
  }

  lemma ForcedMode(c: Mode, modules: Tri)
    ensures Forced(c, modules) <==> ModeTri(c, modules, None) == YES
    ensures Forced(c, modules) <==> ModeTri(c, modules, Some(NO)) == YES
    ensures forall user: Option<Tri> :: Forced(c, modules) ==> ModeTri(c, modules, user) == YES
  {
  }

  lemma MoreIsMore(c: Mode, modules: Tri, user: Option<Tri>)
    requires ModeTri(c, modules, user) == YES
    ensures ModeTri(c, modules, Some(YES)) == YES
  {
  }

  // ----- evaluating twice

  /** Evaluating a choice takes its user value away if some visible member has none. */
  predicate LosesUser(b: Block, found: seq<Tri>, given: seq<bool>)
    requires Sized(b) && |found| == |given| == |b.types|
  {
    exists m :: m in b.members && found[m] != NO && !given[m]
  }

  method Evaluate(x: ChoiceBlock, c: Mode, userTri: Tri, env: Env)
    requires x.Valid()
    modifies x
    ensures x.Valid() && x.user == old(x.user) && x.userSet == old(x.userSet) && x.userTri == old(x.userTri)
    ensures var own := ModeTri(c, x.b.modules, if old(x.hasUser) then Some(userTri) else None);
            var found := Seen(x.b, old(x.visible), env);
            if own == YES then
              && x.visible == found && x.hasUser == (old(x.hasUser) && !LosesUser(x.b, found, x.userSet))
              && x.tri == if Pick(x.b, found, x.user, env).Some? then YES else NO
            else x.visible == old(x.visible) && x.hasUser == old(x.hasUser) && x.tri == own
  {
    hide MemberVisible, Pick, StrayFirst, SomeVisible;
    ghost var before := x.visible;
    x.tri := ModeTri(c, x.b.modules, if x.hasUser then Some(userTri) else None);
    if x.tri == YES {
      x.CalcChoice(env);
      assert x.visible == Seen(x.b, before, env);
    }
  }

  /** Evaluating a choice twice, with nothing else changed in between, gives the same value if and only if the first
      evaluation has not taken away a user value that the choice needs to be y. */
  method EvaluateTwice(x: ChoiceBlock, c: Mode, userTri: Tri, env: Env) returns (first: Tri, second: Tri)
    requires x.Valid()
    modifies x
    ensures first == second <==>
            !(first == YES && old(x.hasUser) && LosesUser(x.b, Seen(x.b, old(x.visible), env), old(x.userSet))
              && !Forced(c, x.b.modules))
  {
    hide MemberVisible, Pick, LosesUser;
    Evaluate(x, c, userTri, env);
    first := x.tri;
    assert Seen(x.b, Seen(x.b, old(x.visible), env), env) == Seen(x.b, old(x.visible), env);
    ForcedMode(c, x.b.modules);
    NothingSeen(x.b, Seen(x.b, old(x.visible), env), x.user, x.userSet, env);
    Evaluate(x, c, userTri, env);
    second := x.tri;
  }

  /** That happens: a tristate choice that the user has set to y, with a visible member that has no user value, is y
      once and m when it is evaluated again. */
  lemma LosesUserExample(env: Env)
    ensures var b := Block(YES, [SymType.Tristate], [[None]], [[]], [0], []);
            var c := Mode(SymType.Tristate, false, YES, YES, MOD, NO);
            && Sized(b) && MemberVisible(b, 0, YES, env) == YES && LosesUser(b, [YES], [false])
            && ModeTri(c, YES, Some(YES)) == YES && ModeTri(c, YES, None) == MOD && !Forced(c, YES)
  {
    var b := Block(YES, [SymType.Tristate], [[None]], [[]], [0], []);
    assert BestPrompt(SymType.Tristate, YES, [None], 0, env) == NO;
    assert 0 in b.members;
  }

  /** A choice that finds nothing to pick keeps its user value. */
  lemma NothingSeen(b: Block, found: seq<Tri>, user: Option<nat>, given: seq<bool>, env: Env)
    requires Sized(b) && |found| == |given| == |b.types| && (user.Some? ==> user.value < |found|)
    ensures Pick(b, found, user, env).None? ==> !LosesUser(b, found, given)
  {
    PickIsMember(b, found, user, env);
  }

  // ----- the minimal configuration

  /** `sym_get_string_default` of a member, whose selecting and implying symbols are never evaluated. */
  function DefaultOf(b: Block, m: nat, env: Env): Tri
    requires Sized(b) && m < |b.types|
  {
    var d := OwnDefaultTri(b.ownDefaults[m], 0, env);
    if d == MOD && b.types[m].Boolean? then YES else d
  }

  /** What `conf_write_defconfig` writes of a member: nothing if it cannot be changed, if it has its own default,
      or if it is y as the one that the choice picks by default. */
  function MemberLine(b: Block, c: Mode, visible: seq<Tri>, m: nat, value: Tri, env: Env): Option<Tri>
    requires Sized(b) && |visible| == |b.types| && m < |b.types|
  {
    if visible[m] == NO then None
    else if TriString(value, b.modules) == TriName(DefaultOf(b, m, env)) then None
    else if !c.optional && Pick(b, visible, None, env) == Some(m) && b.types[m].Boolean? && value == YES then None
    else Some(value)
  }

  type Line = (nat, Tri)

  predicate InRange(lines: seq<Line>, n: nat) { forall k :: 0 <= k < |lines| ==> lines[k].0 < n }

  function WriteMembers(b: Block, c: Mode, visible: seq<Tri>, tris: seq<Tri>, order: seq<nat>,
                        env: Env): (lines: seq<Line>)
    requires Sized(b) && |visible| == |tris| == |b.types| && forall k :: 0 <= k < |order| ==> order[k] < |b.types|
    ensures InRange(lines, |b.types|)
  {
    if order == [] then []
    else
      var m, front := order[|order| - 1], WriteMembers(b, c, visible, tris, order[..|order| - 1], env);
      var line := MemberLine(b, c, visible, m, tris[m], env);
      if line.Some? then front + [(m, line.value)] else front
  }

  /** What the file gives a choice and its members: after `conf_reset` every choice counts as set, to n. */
  datatype Given = Given(has: bool, tri: Tri, chosen: Option<nat>, user: seq<Option<Tri>>) {
    function Mode(): Option<Tri> { if has then Some(tri) else None }
  }

  function ReadMember(g: Given, line: Line): Given
    requires line.0 < |g.user|
  {
    var has, chosen := g.has && !(line.1 == MOD && g.tri == YES), if line.1 == YES then Some(line.0) else g.chosen;
    Given(has, Or(g.tri, line.1), chosen, g.user[line.0 := Some(line.1)])
  }

  function ReadMembers(n: nat, lines: seq<Line>): (g: Given)
    requires InRange(lines, n)
    ensures |g.user| == n && (g.chosen.Some? ==> g.chosen.value < n)
  {
    if lines == [] then Given(true, NO, None, seq(n, _ => None))
    else ReadMember(ReadMembers(n, lines[..|lines| - 1]), lines[|lines| - 1])
  }

  /** What the file that was written gives back. */
  function ReadBack(b: Block, c: Mode, visible: seq<Tri>, tris: seq<Tri>, order: seq<nat>, env: Env): (g: Given)
    requires Sized(b) && |visible| == |tris| == |b.types| && forall k :: 0 <= k < |order| ==> order[k] < |b.types|
    ensures |g.user| == |b.types| && (g.chosen.Some? ==> g.chosen.value < |b.types|)
  {
    ReadMembers(|b.types|, WriteMembers(b, c, visible, tris, order, env))
  }

  /** The member p is y and the other members that are visible are n. */
  predicate Picked(b: Block, visible: seq<Tri>, tris: seq<Tri>, p: nat)
    requires Sized(b) && |visible| == |tris| == |b.types|
  {
    p in b.members && p < |visible| && visible[p] != NO && OnlyYes(b, visible, tris, p)
  }

  /** So the choice is given the member p, and to be y, exactly if there is a line for p. */
  lemma {:induction false} GivenBack(b: Block, c: Mode, visible: seq<Tri>, tris: seq<Tri>, order: seq<nat>, p: nat,
                                     env: Env)
    requires Sized(b) && |visible| == |tris| == |b.types| && forall k :: 0 <= k < |order| ==> order[k] in b.members
    requires Picked(b, visible, tris, p)
    ensures var g := ReadBack(b, c, visible, tris, order, env);
            var there := p in order && MemberLine(b, c, visible, p, YES, env).Some?;
            g.has && g.tri == FromBool(there) && g.chosen == if there then Some(p) else None
  {
    hide Pick, DefaultOf, TriString;
    if order != [] {
      var n := |order| - 1;
      var m := order[n];
      GivenBack(b, c, visible, tris, order[..n], p, env);
      var front := WriteMembers(b, c, visible, tris, order[..n], env);
      var line := MemberLine(b, c, visible, m, tris[m], env);
      assert p in order <==> p in order[..n] || p == m;
      if line.Some? {
        var lines := front + [(m, line.value)];
        assert lines[..|lines| - 1] == front;
        assert ReadBack(b, c, visible, tris, order, env) == ReadMember(ReadMembers(|b.types|, front), (m, line.value));
      }
    }
  }

  /** While the choice is y its members have the values `tris` again. */
  predicate SameAgain(b: Block, visible: seq<Tri>, tris: seq<Tri>, g: Given, env: Env)
    requires Sized(b) && |visible| == |tris| == |g.user| == |b.types| && (g.chosen.Some? ==> g.chosen.value < |visible|)
  {
    forall m :: m in b.members ==> MemberTris(b, Pick(b, visible, g.chosen, env), visible, g.user, env)[m] == tris[m]
  }

  /** There is a line for what the choice has picked, or else it would pick the same and be y without any. */
  predicate Remembered(b: Block, c: Mode, visible: seq<Tri>, p: nat, env: Env)
    requires Sized(b) && |visible| == |b.types| && p < |b.types|
  {
    MemberLine(b, c, visible, p, YES, env).Some? || (Pick(b, visible, None, env) == Some(p) && Forced(c, b.modules))
  }

  /** A choice that is y comes back from a minimal configuration as y, with the same values of all its members, if
      and only if its pick is remembered. */
  lemma ChoiceDefconfigExact(b: Block, c: Mode, visible: seq<Tri>, chosen: Option<nat>, mode: Option<Tri>,
                             user: seq<Option<Tri>>, order: seq<nat>, env: Env)
    requires Sized(b) && |visible| == |user| == |b.types| && VisibleAsYes(b, visible)
    requires (chosen.Some? ==> chosen.value < |visible|) && !StrayFirst(b, visible, chosen, env)
    requires Pick(b, visible, chosen, env).Some? && ModeTri(c, b.modules, mode) == YES
    requires (forall k :: 0 <= k < |order| ==> order[k] in b.members) && forall m :: m in b.members ==> m in order
    ensures var pick := Pick(b, visible, chosen, env);
            var tris := MemberTris(b, pick, visible, user, env);
            var g := ReadBack(b, c, visible, tris, order, env);
            ModeTri(c, b.modules, g.Mode()) == YES && SameAgain(b, visible, tris, g, env) <==>
            Remembered(b, c, visible, pick.value, env)
  {
    hide StrayFirst, Pick, MemberLine, ModeTri, ReadBack;
    var pick := Pick(b, visible, chosen, env);
    var p, tris := pick.value, MemberTris(b, pick, visible, user, env);
    PickIsMember(b, visible, chosen, env);
    ExactlyOneMember(b, visible, pick, chosen, user, env);
    GivenBack(b, c, visible, tris, order, p, env);
    var g := ReadBack(b, c, visible, tris, order, env);
    ForcedMode(c, b.modules);
    MoreIsMore(c, b.modules, mode);
    ChosenAgain(b, visible, p, env);
    PickDecides(b, visible, tris, g, p, user, env);
  }

  lemma ChosenAgain(b: Block, visible: seq<Tri>, p: nat, env: Env)
    requires Sized(b) && |visible| == |b.types| && p < |visible| && visible[p] != NO
    ensures Pick(b, visible, Some(p), env) == Some(p)
  {
  }

  /** The members have the same values again exactly if the choice picks the same member again. */
  lemma PickDecides(b: Block, visible: seq<Tri>, tris: seq<Tri>, g: Given, p: nat, user: seq<Option<Tri>>, env: Env)
    requires Sized(b) && |visible| == |user| == |g.user| == |b.types| && (g.chosen.Some? ==> g.chosen.value < |visible|)
    requires p in b.members && visible[p] != NO && VisibleAsYes(b, visible) &&
             tris == MemberTris(b, Some(p), visible, user, env)
    ensures SameAgain(b, visible, tris, g, env) <==> Pick(b, visible, g.chosen, env) == Some(p)
  {
    hide Pick;
    var again := MemberTris(b, Pick(b, visible, g.chosen, env), visible, g.user, env);
    assert visible[p] == YES && tris[p] == YES;
    assert again[p] == FromBool(Pick(b, visible, g.chosen, env) == Some(p));
  }

  /** Without defaults of members nothing is lost of a choice that is optional, or that is forced to be y. */
  lemma ChoiceKept(b: Block, c: Mode, visible: seq<Tri>, p: nat, env: Env)
    requires Sized(b) && |visible| == |b.types| && p < |b.types| && visible[p] != NO
    requires b.ownDefaults[p] == [] && (c.optional || Forced(c, b.modules))
    ensures Remembered(b, c, visible, p, env)
  {
    assert DefaultOf(b, p, env) == NO;
  }

  /** With modules on, a tristate choice that is y with a bool member as its default pick comes back as m. */
  lemma ChoiceLostExample(env: Env)
    ensures var b := Block(YES, [SymType.Boolean], [[None]], [[]], [0], []);
            var c := Mode(SymType.Tristate, false, YES, YES, MOD, NO);
            && Sized(b) && MemberVisible(b, 0, YES, env) == YES && ModeTri(c, YES, Some(YES)) == YES
            && Pick(b, [YES], None, env) == Some(0) && !Remembered(b, c, [YES], 0, env)
            && ModeTri(c, YES, ReadBack(b, c, [YES], [YES], [0], env).Mode()) == MOD
  {
    var b := Block(YES, [SymType.Boolean], [[None]], [[]], [0], []);
    var c := Mode(SymType.Tristate, false, YES, YES, MOD, NO);
    assert BestPrompt(SymType.Boolean, YES, [None], 0, env) == NO;
    assert DefaultOf(b, 0, env) == NO;
    assert [0][..0] == [];
    assert WriteMembers(b, c, [YES], [YES], [0], env) == [];
  }

  // ----- the loops

  /** The writer's walk, as far as it concerns the members of this choice. */
  method WriteGroup(x: ChoiceBlock, c: Mode, order: seq<nat>, env: Env) returns (lines: seq<Line>)
    requires x.Valid() && forall k :: 0 <= k < |order| ==> order[k] < |x.b.types|
    ensures lines == WriteMembers(x.b, c, x.visible, x.values, order, env)
  {
    lines := [];
    var k := 0;
    while k < |order|
      invariant k <= |order| && lines == WriteMembers(x.b, c, x.visible, x.values, order[..k], env)
    {
      assert order[..k + 1][..k] == order[..k];
      var line := MemberLine(x.b, c, x.visible, order[k], x.values[order[k]], env);
      if line.Some? { lines := lines + [(order[k], line.value)]; }
      k := k + 1;
    }
    assert order[..k] == order;
  }

  /** The part of `conf_read_simple` behind a line for a member. */
  method ReadGroup(n: nat, lines: seq<Line>) returns (g: Given)
    requires InRange(lines, n)
    ensures g == ReadMembers(n, lines)
  {
    g := Given(true, NO, None, seq(n, _ => None));
    var k := 0;
    while k < |lines|
      invariant k <= |lines| && g == ReadMembers(n, lines[..k])
    {
      assert lines[..k + 1][..k] == lines[..k];
      var m, val := lines[k].0, lines[k].1;
      g := g.(user := g.user[m := Some(val)]);
      if val == MOD && g.tri == YES { g := g.(has := false); }
      if val == YES { g := g.(chosen := Some(m)); }
      g := g.(tri := Or(g.tri, val));
      k := k + 1;
    }
    assert lines[..k] == lines;
  }
}
