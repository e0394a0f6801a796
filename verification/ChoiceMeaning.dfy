/** What a choice picks and what it and its members are worth, in terms of their prompts, defaults and user values; and
    what the lines of a configuration file mean to them. */
module ChoiceMeaning {
  import opened Tristate
  import opened Expressions
  import opened Choices
  import opened ChoiceMode

  // ----- visibility

  /** The values of the prompts, but for those that are m: a tristate member that can only be m is hidden while the
      choice is y. */
  ghost function PromptValues(t: SymType, choice: Tri, prompts: seq<Option<Expr>>, env: Env): set<Tri> {
    set k | 0 <= k < |prompts| && !(t.Tristate? && choice == YES && CalcOpt(prompts[k], env) == MOD) ::
      CalcOpt(prompts[k], env)
  }

  lemma {:induction false} BestMax(t: SymType, choice: Tri, prompts: seq<Option<Expr>>, k: nat, env: Env)
    requires k <= |prompts|
    ensures IsMax(BestPrompt(t, choice, prompts, k, env), PromptValues(t, choice, prompts[..k], env))
  {
    if k > 0 {
      BestMax(t, choice, prompts, k - 1, env);
      var few, all := PromptValues(t, choice, prompts[..k - 1], env), PromptValues(t, choice, prompts[..k], env);
      var v := CalcOpt(prompts[k - 1], env);
      assert prompts[..k] == prompts[..k - 1] + [prompts[k - 1]];
      assert all == few + if t.Tristate? && choice == YES && v == MOD then {} else {v};
    }
  }

  /** A member is as visible as its best prompt; what cannot be m is y instead. */
  lemma VisibleMeaning(b: Block, m: nat, choice: Tri, env: Env) returns (p: Tri)
    requires Sized(b) && m < |b.types|
    ensures IsMax(p, PromptValues(b.types[m], choice, b.prompts[m], env))
    ensures MemberVisible(b, m, choice, env) == if p == MOD &&
            (!b.types[m].Tristate? || b.modules == NO) then YES else p
  {
    p := BestPrompt(b.types[m], choice, b.prompts[m], |b.prompts[m]|, env);
    BestMax(b.types[m], choice, b.prompts[m], |b.prompts[m]|, env);
    assert b.prompts[m][..|b.prompts[m]|] == b.prompts[m];
  }

  // ----- the pick

  /** Of all defaults of the choice, the k-th is the first one that can take effect. */
  ghost predicate FirstActive(b: Block, visible: seq<Tri>, k: nat, env: Env)
    requires Sized(b) && |visible| == |b.types|
  {
    && k < |b.defaults| && CalcOpt(b.defaults[k].visible, env) != NO && visible[b.defaults[k].target] != NO
    && forall j :: 0 <= j < k ==> CalcOpt(b.defaults[j].visible, env) == NO || visible[b.defaults[j].target] == NO
  }

  /** Of all members, the i-th is the first one that is visible. */
  ghost predicate FirstSeen(b: Block, visible: seq<Tri>, i: nat)
    requires Sized(b) && |visible| == |b.types|
  {
    && i < |b.members| && visible[b.members[i]] != NO
    && forall j :: 0 <= j < i ==> visible[b.members[j]] == NO
  }

  lemma {:induction false} DefaultIsFirst(b: Block, visible: seq<Tri>, k: nat, env: Env)
    requires Sized(b) && |visible| == |b.types| && k <= |b.defaults|
    requires forall j :: 0 <= j < k ==> CalcOpt(b.defaults[j].visible, env) == NO || visible[b.defaults[j].target] == NO
    ensures var r := Choices.FirstDefault(b, visible, k, env);
            && (r.Some? <==> exists q: nat :: FirstActive(b, visible, q, env))
            && forall q: nat :: FirstActive(b, visible, q, env) ==> r == Some(b.defaults[q].target)
    decreases |b.defaults| - k
  {
    hide CalcOpt;
    if k < |b.defaults| {
      if CalcOpt(b.defaults[k].visible, env) != NO && visible[b.defaults[k].target] != NO {
        assert FirstActive(b, visible, k, env);
      } else {
        DefaultIsFirst(b, visible, k + 1, env);
      }
    }
  }

  lemma {:induction false} MemberIsFirst(b: Block, visible: seq<Tri>, k: nat)
    requires Sized(b) && |visible| == |b.types| && k <= |b.members|
    requires forall j :: 0 <= j < k ==> visible[b.members[j]] == NO
    ensures var r := FirstMember(b, visible, k);
            && (r.Some? <==> exists i: nat :: FirstSeen(b, visible, i))
            && forall i: nat :: FirstSeen(b, visible, i) ==> r == Some(b.members[i])
    decreases |b.members| - k
  {
    if k < |b.members| {
      if visible[b.members[k]] != NO { assert FirstSeen(b, visible, k); } else { MemberIsFirst(b, visible, k + 1); }
    }
  }

  /** What the user has picked, if that is visible; or else what the first default names that can take effect; or else
      the first visible member; or else nothing. */
  lemma PickMeaning(b: Block, visible: seq<Tri>, user: Option<nat>, env: Env)
    requires Sized(b) && |visible| == |b.types| && (user.Some? ==> user.value < |visible|)
    ensures var pick := Pick(b, visible, user, env);
            if user.Some? && visible[user.value] != NO then pick == user
            else if exists q: nat :: FirstActive(b, visible, q, env)
            then forall q: nat :: FirstActive(b, visible, q, env) ==> pick == Some(b.defaults[q].target)
            else if exists i: nat :: FirstSeen(b, visible, i)
            then forall i: nat :: FirstSeen(b, visible, i) ==> pick == Some(b.members[i])
            else pick == None
  {
    DefaultIsFirst(b, visible, 0, env);
    MemberIsFirst(b, visible, 0);
  }

  // ----- the value of a member

  /** Of all its defaults, the q-th is the first one of a member whose condition is not n. */
  ghost predicate FirstOwn(defaults: seq<OwnDefault>, q: nat, env: Env) {
    && q < |defaults| && CalcOpt(defaults[q].visible, env) != NO
    && forall j :: 0 <= j < q ==> CalcOpt(defaults[j].visible, env) == NO
  }

  lemma {:induction false} OwnIsFirst(defaults: seq<OwnDefault>, k: nat, env: Env)
    requires k <= |defaults| && forall j :: 0 <= j < k ==> CalcOpt(defaults[j].visible, env) == NO
    ensures forall q: nat :: FirstOwn(defaults, q, env) ==>
              OwnDefaultTri(defaults, k, env) == And(CalcOpt(defaults[q].value, env), CalcOpt(defaults[q].visible, env))
    ensures (forall j :: 0 <= j < |defaults| ==> CalcOpt(defaults[j].visible, env) == NO) ==>
              OwnDefaultTri(defaults, k, env) == NO
    decreases |defaults| - k
  {
    if k < |defaults| && CalcOpt(defaults[k].visible, env) == NO { OwnIsFirst(defaults, k + 1, env); }
  }

  /** A member that is visible as y is y if it is picked and n otherwise; one that is visible as m and has a user
      value is worth that, cut down to m; any other is worth its first default that counts, cut down to the condition
      of that default, with y for m if it cannot be m: and n without one. */
  lemma MemberMeaning(b: Block, m: nat, pick: Option<nat>, choice: Tri, user: Option<Tri>, env: Env)
    requires Sized(b) && m < |b.types|
    ensures var v := MemberVisible(b, m, choice, env);
            var t := MemberTri(b, m, pick, v, user, env);
            && (v == YES ==> t == if pick == Some(m) then YES else NO)
            && (v == MOD && user.Some? ==> t == And(user.value, MOD))
            && (v == NO || (v == MOD && user.None?) ==>
                  (forall q: nat :: FirstOwn(b.ownDefaults[m], q, env) ==>
                     var d := b.ownDefaults[m][q];
                     var x := And(CalcOpt(d.value, env), CalcOpt(d.visible, env));
                     t == if x == MOD && (!b.types[m].Tristate? || b.modules == NO) then YES else x) &&
                  ((forall j :: 0 <= j < |b.ownDefaults[m]| ==> CalcOpt(b.ownDefaults[m][j].visible, env) == NO) ==>
                     t == NO))
  {
    OwnIsFirst(b.ownDefaults[m], 0, env);
  }

  // ----- the mode of the choice

  /** A choice is worth the better of what selects it and of its user value, cut down to its visibility: n if it is
      selected with unmet dependencies, and y for m if it cannot be m or is implied as y. */
  lemma ModeMeaning(c: Mode, modules: Tri, user: Option<Tri>) returns (t: Tri)
    ensures IsMax(t, {c.rev} + if user.Some? then {And(user.value, c.visible)} else {})
    ensures ModeTri(c, modules, user) ==
            if c.dir == NO && c.rev != NO then NO
            else if t == MOD && (c.implied == YES || !c.stype.Tristate? || modules == NO) then YES else t
  {
    t := if c.visible != NO && user.Some? then Or(And(user.value, c.visible), c.rev) else c.rev;
  }

  // ----- the lines of the members

  /** Of the members of a choice that is y, without defaults of their own, only the one it has picked gets a line: and
      not even that if it is a bool that the choice picks by default, of a choice that is not optional. */
  lemma LinesOfChoice(b: Block, c: Mode, visible: seq<Tri>, tris: seq<Tri>, p: nat, m: nat, env: Env)
    requires Sized(b) && |visible| == |tris| == |b.types| && Picked(b, visible, tris, p)
    requires m in b.members && forall j :: 0 <= j < |b.ownDefaults[m]| ==>
             CalcOpt(b.ownDefaults[m][j].visible, env) == NO
    ensures MemberLine(b, c, visible, m, tris[m], env) ==
            if m == p && !(b.types[m].Boolean? && !c.optional && Pick(b, visible, None, env) == Some(m)) then Some(YES)
            else None
  {
    hide Pick;
    OwnIsFirst(b.ownDefaults[m], 0, env);
    assert DefaultOf(b, m, env) == NO;
  }

  /** A line says what its member is worth, and never what the default of the member says. */
  lemma LineMeaning(b: Block, c: Mode, visible: seq<Tri>, m: nat, value: Tri, q: nat, env: Env)
    requires Sized(b) && |visible| == |b.types| && m < |b.types|
    ensures var line := MemberLine(b, c, visible, m, value, env);
            && (line.Some? ==> line.value == value && visible[m] != NO)
            && (FirstOwn(b.ownDefaults[m], q, env) && b.types[m].Tristate? && b.modules != NO && line.Some? ==>
                  var d := b.ownDefaults[m][q]; value != And(CalcOpt(d.value, env), CalcOpt(d.visible, env)))
  {
    hide Pick;
    OwnIsFirst(b.ownDefaults[m], 0, env);
  }

  /** There is a line for each of the members in `order` that needs one, with its value, and no other line. */
  lemma {:induction false} WrittenLines(b: Block, c: Mode, visible: seq<Tri>, tris: seq<Tri>, order: seq<nat>, env: Env)
    requires Sized(b) && |visible| == |tris| == |b.types| && forall k :: 0 <= k < |order| ==> order[k] < |b.types|
    ensures forall m, t :: (m, t) in WriteMembers(b, c, visible, tris, order, env) <==>
              m in order && MemberLine(b, c, visible, m, tris[m], env) == Some(t)
  {
    hide MemberLine;
    if order != [] {
      var front, m := order[..|order| - 1], order[|order| - 1];
      WrittenLines(b, c, visible, tris, front, env);
      assert order == front + [m];
    }
  }

  // ----- reading the lines

  /** The last of the lines that gives symbol m a value. */
  ghost predicate LastFor(lines: seq<Line>, k: nat, m: nat) {
    k < |lines| && lines[k].0 == m && forall j :: k < j < |lines| ==> lines[j].0 != m
  }

  /** The last of the lines that sets a symbol to y. */
  ghost predicate LastYes(lines: seq<Line>, k: nat) {
    k < |lines| && lines[k].1 == YES && forall j :: k < j < |lines| ==> lines[j].1 != YES
  }

  /** Some line with m comes behind one with y. */
  ghost predicate Mixed(lines: seq<Line>) {
    exists i, j :: 0 <= i < j < |lines| && lines[i].1 == YES && lines[j].1 == MOD
  }

  ghost predicate UserRead(user: seq<Option<Tri>>, lines: seq<Line>) {
    && (forall m: nat, k: nat :: m < |user| && LastFor(lines, k, m) ==> user[m] == Some(lines[k].1))
    && (forall m :: 0 <= m < |user| && (forall j :: 0 <= j < |lines| ==> lines[j].0 != m) ==> user[m] == None)
  }

  ghost predicate ChosenRead(chosen: Option<nat>, lines: seq<Line>) {
    && (forall k: nat :: LastYes(lines, k) ==> chosen == Some(lines[k].0))
    && ((forall j :: 0 <= j < |lines| ==> lines[j].1 != YES) ==> chosen == None)
  }

  ghost function LineValues(lines: seq<Line>): set<Tri> { set k | 0 <= k < |lines| :: lines[k].1 }

  /** After the lines have been read, every member has the value of its last line, the choice has picked the last member
      that was set to y, and is worth the greatest of all values: but that does not count if an m came behind a y. */
  lemma {:induction false} ReadMeaning(n: nat, lines: seq<Line>)
    requires InRange(lines, n)
    ensures var g := ReadMembers(n, lines);
            && UserRead(g.user, lines) && ChosenRead(g.chosen, lines) && IsMax(g.tri, LineValues(lines))
            && (g.has <==> !Mixed(lines))
  {
    hide UserRead, ChosenRead, IsMax, LineValues, Mixed;
    if lines == [] {
      NothingRead(n);
    } else {
      var front, line := lines[..|lines| - 1], lines[|lines| - 1];
      ReadMeaning(n, front);
      var g := ReadMembers(n, front);
      assert lines == front + [line];
      UserReadMore(g.user, front, line);
      ChosenReadMore(g.chosen, front, line);
      ValuesMore(front, line);
      MaxOne(g.tri, LineValues(front), line.1);
      MixedMore(g.tri, front, line);
    }
  }

  lemma NothingRead(n: nat)
    ensures var g := ReadMembers(n, []);
            UserRead(g.user, []) && ChosenRead(g.chosen, []) && IsMax(g.tri, LineValues([])) && g.has && !Mixed([])
  {
  }

  lemma UserReadMore(user: seq<Option<Tri>>, front: seq<Line>, line: Line)
    requires UserRead(user, front) && line.0 < |user|
    ensures UserRead(user[line.0 := Some(line.1)], front + [line])
  {
    var lines, after := front + [line], user[line.0 := Some(line.1)];
    forall m: nat, k: nat | m < |user| && LastFor(lines, k, m) ensures after[m] == Some(lines[k].1) {
      if k < |front| {
        assert forall j :: k < j < |front| ==> front[j] == lines[j];
        assert LastFor(front, k, m);
        assert lines[|front|].0 != m;
      }
    }
    forall m | 0 <= m < |user| && (forall j :: 0 <= j < |lines| ==> lines[j].0 != m) ensures after[m] == None {
      assert lines[|front|].0 != m;
      assert forall j :: 0 <= j < |front| ==> front[j] == lines[j];
    }
  }

  lemma ChosenReadMore(chosen: Option<nat>, front: seq<Line>, line: Line)
    requires ChosenRead(chosen, front)
    ensures ChosenRead(if line.1 == YES then Some(line.0) else chosen, front + [line])
  {
    var lines := front + [line];
    assert lines[|front|] == line;
    forall k: nat | LastYes(lines, k) && line.1 != YES ensures chosen == Some(lines[k].0) {
      assert forall j :: k < j < |front| ==> front[j] == lines[j];
      assert LastYes(front, k);
    }
    if forall j :: 0 <= j < |lines| ==> lines[j].1 != YES {
      assert forall j :: 0 <= j < |front| ==> front[j] == lines[j];
    }
  }

  lemma ValuesMore(front: seq<Line>, line: Line)
    ensures LineValues(front + [line]) == LineValues(front) + {line.1}
  {
    var lines := front + [line];
    assert lines[|front|] == line;
    forall x | x in LineValues(front) ensures x in LineValues(lines) {
      var k :| 0 <= k < |front| && front[k].1 == x;
      assert lines[k].1 == x;
    }
  }

  lemma MixedMore(tri: Tri, front: seq<Line>, line: Line)
    requires IsMax(tri, LineValues(front))
    ensures Mixed(front + [line]) <==> Mixed(front) || (line.1 == MOD && tri == YES)
  {
    var lines := front + [line];
    assert lines[|front|] == line;
    if Mixed(front) {
      var i, j :| 0 <= i < j < |front| && front[i].1 == YES && front[j].1 == MOD;
      assert lines[i].1 == YES && lines[j].1 == MOD;
    }
    if line.1 == MOD && tri == YES {
      var i :| 0 <= i < |front| && front[i].1 == YES;
      assert lines[i].1 == YES && lines[|front|].1 == MOD;
    }
    if Mixed(lines) {
      var i, j :| 0 <= i < j < |lines| && lines[i].1 == YES && lines[j].1 == MOD;
      if j < |front| { assert front[i].1 == YES && front[j].1 == MOD; } else { assert front[i].1 in LineValues(front); }
    }
  }
}
