/** `conf_write`: the whole configuration is saved, and what loading it again gives. */
module SavedConfig {
  import opened Tristate
  import opened Expressions
  import opened Symbols
  import opened UserValues
  import opened Evaluator
  import opened Defconfig
  import opened SymbolMeaning

  /** The user value of a symbol after its line, if there is one, has been read back. */
  function SavedValue(def: SymDef, user: Option<Tri>, env: Env): Option<Tri> {
    var vals := Compute(def, user, env);
    if vals.write then Some(vals.tri) else None
  }

  /** A symbol has a line exactly if it can be seen, is selected or implied, or has a default that counts; and the
      line says what it is worth. Whatever is not n has one. */
  lemma LineMeaning(def: SymDef, user: Option<Tri>, env: Env)
    ensures SavedValue(def, user, env) ==
            if Concerned(def, env) then Some(Compute(def, user, env).tri) else None
    ensures Compute(def, user, env).tri != NO ==> SavedValue(def, user, env) == Some(Compute(def, user, env).tri)
  {
    WriteMeaning(def, user, env);
  }

  function Saved(table: Table, user: seq<Option<Tri>>, modules: Tri, v: seq<Tri>): (m: seq<Option<Tri>>)
    requires |user| == |table| == |v|
    ensures |m| == |table|
    ensures forall i :: 0 <= i < |table| ==> m[i] == SavedValue(table[i], user[i], EnvOf(table, v, modules))
  {
    seq(|table|, i requires 0 <= i < |table| => SavedValue(table[i], user[i], EnvOf(table, v, modules)))
  }

  /** A tristate that can be seen as m only but is y by default: as a user value, its y is cut down to m. */
  predicate Sinks(def: SymDef, user: Option<Tri>, env: Env) {
    var vals := Compute(def, user, env);
    vals.visible == MOD && vals.tri == YES && vals.rev != YES && vals.implied != YES
  }

  lemma SavedLocal(def: SymDef, user: Option<Tri>, env: Env)
    ensures Compute(def, SavedValue(def, user, env), env).tri == Compute(def, user, env).tri <==> !Sinks(def, user, env)
  {
    if Compute(def, user, env).write { SetCurrentLocal(def, user, env); }
  }

  lemma {:induction false} SameBelow(table: Table, rank: seq<nat>, user: seq<Option<Tri>>, modules: Tri,
                                     v: seq<Tri>, v': seq<Tri>, i: nat)
    requires Setting(table, rank, modules) && i < |table| && Solves(table, user, modules, v)
    requires Solves(table, Saved(table, user, modules, v), modules, v')
    requires forall j :: 0 <= j < |table| ==> !Sinks(table[j], user[j], EnvOf(table, v, modules))
    ensures v'[i] == v[i]
    decreases rank[i]
  {
    hide Compute, SavedValue, Sinks;
    forall j | 0 <= j < |table| && DependsOn(table, i, j) ensures v'[j] == v[j] {
      SameBelow(table, rank, user, modules, v, v', j);
    }
    EquationFrame(table, i, Saved(table, user, modules, v)[i], modules, v', v);
    SavedLocal(table[i], user[i], EnvOf(table, v, modules));
  }

  /** Loading a saved configuration gives every symbol the value it had, if and only if there is no tristate that is
      y although it can be seen as m only, and is neither selected nor implied as y. */
  lemma SavedExact(table: Table, rank: seq<nat>, user: seq<Option<Tri>>, modules: Tri, v: seq<Tri>, v': seq<Tri>)
    requires Setting(table, rank, modules) && Solves(table, user, modules, v)
    requires Solves(table, Saved(table, user, modules, v), modules, v')
    ensures v' == v <==> forall i :: 0 <= i < |table| ==> !Sinks(table[i], user[i], EnvOf(table, v, modules))
  {
    hide Compute, SavedValue, Sinks;
    if forall i :: 0 <= i < |table| ==> !Sinks(table[i], user[i], EnvOf(table, v, modules)) {
      forall i | 0 <= i < |table| ensures v'[i] == v[i] {
        SameBelow(table, rank, user, modules, v, v', i);
      }
    } else {
      var i :| 0 <= i < |table| && Sinks(table[i], user[i], EnvOf(table, v, modules));
      SavedLocal(table[i], user[i], EnvOf(table, v, modules));
    }
  }

  /** Only a value that the user has not set can sink, so a configuration in which every visible symbol has a user
      value is loaded exactly as it was. */
  lemma UserValuesStay(table: Table, rank: seq<nat>, user: seq<Option<Tri>>, modules: Tri, v: seq<Tri>, v': seq<Tri>)
    requires Setting(table, rank, modules) && Solves(table, user, modules, v)
    requires forall i :: 0 <= i < |table| && Visible(table[i], EnvOf(table, v, modules)) != NO ==> user[i].Some?
    requires Solves(table, Saved(table, user, modules, v), modules, v')
    ensures v' == v
  {
    forall i | 0 <= i < |table| ensures !Sinks(table[i], user[i], EnvOf(table, v, modules)) {
      var env := EnvOf(table, v, modules);
      assert Visible(table[i], env) == MOD ==> OwnValue(table[i], user[i], env) <= MOD;
    }
    SavedExact(table, rank, user, modules, v, v');
  }

  /** The exception is real: a default y below a prompt that is visible as m. */
  lemma SinksExample()
    ensures var def := SymDef(SymType.Tristate,
                              [Prop(Prompt, Some(Sym(SymMod)), None), Prop(Default, None, Some(Sym(SymYes)))],
                              None, None, None, Plain);
            var env := Env(map[], map[], YES);
            && Compute(def, None, env).tri == YES && SavedValue(def, None, env) == Some(YES)
            && Compute(def, Some(YES), env).tri == MOD
  {
  }

  // ----- the writer

  /** The lines written so far: one for each symbol in `written`, none for the others that were met. */
  ghost predicate SavedUpTo(m: seq<Option<Tri>>, lines: seq<Line>, done: set<nat>, written: set<nat>) {
    && written <= done && (forall i :: i in done && i < |m| ==> (i in written <==> m[i].Some?))
    && ReadLines(|m|, lines) == Part(m, done)
    && (forall j :: 0 <= j < |lines| ==> lines[j].0 in written)
    && OneEach(lines)
  }

  lemma SavedStep(m: seq<Option<Tri>>, lines: seq<Line>, done: set<nat>, written: set<nat>, s: nat)
    requires SavedUpTo(m, lines, done, written) && s < |m|
    ensures s in written || m[s].None? ==> SavedUpTo(m, lines, done + {s}, written)
    ensures s !in written && m[s].Some? ==> SavedUpTo(m, lines + [(s, m[s].value)], done + {s}, written + {s})
  {
    hide OneEach;
    assert Part(m, done + {s}) == Part(m, done)[s := m[s]];
    if s in written || m[s].None? {
      assert Part(m, done)[s := m[s]] == Part(m, done);
    } else {
      ReadOneMore(|m|, lines, (s, m[s].value));
      OneMoreLine(lines, written, (s, m[s].value));
    }
  }

  /** There is exactly one line for each symbol of the nodes that can be seen, is selected or implied, or has a default
      that counts, and it holds its value; the others, which are n, have none. */
  ghost predicate HoldsLines(table: Table, modules: Tri, v: seq<Tri>, nodes: seq<Option<nat>>, lines: seq<Line>)
    requires |v| == |table|
  {
    && (forall i, t :: (i, t) in lines <==>
          0 <= i < |table| && Some(i) in nodes && Concerned(table[i], EnvOf(table, v, modules)) && t == v[i])
    && (forall i :: 0 <= i < |table| && Some(i) in nodes && v[i] != NO ==> (i, v[i]) in lines)
    && OneEach(lines) && NodeOrder(nodes, lines)
  }

  /** The loop of `conf_write` over the menu nodes: a symbol that has several of them is written once. */
  method SaveConfig(c: Config, nodes: seq<Option<nat>>, ghost v: seq<Tri>, ghost rank: seq<nat>)
    returns (lines: seq<Line>)
    requires c.Good(v, rank, {}) && c.cleared == {}
    requires forall k :: 0 <= k < |nodes| && nodes[k].Some? ==> nodes[k].value < |c.table|
    modifies c
    ensures c.Good(v, rank, {}) && c.user == old(c.user)
    ensures (forall i :: 0 <= i < |c.table| ==> Some(i) in nodes) ==>
              ReadLines(|c.table|, lines) == Saved(c.table, c.user, c.modules, v)
    ensures HoldsLines(c.table, c.modules, v, nodes, lines)
  {
    ghost var m := Saved(c.table, c.user, c.modules, v);
    var written: set<nat> := {};
    hide Config.Good, SavedUpTo, Saved, HoldsLines, NodeOrder;
    lines := [];
    NoOrder(nodes);
    NothingSaved(m);
    var k := 0;
    while k < |nodes|
      invariant 0 <= k <= |nodes|
      invariant c.Good(v, rank, {}) && c.user == old(c.user) && c.cleared == {}
      invariant SavedUpTo(m, lines, NodeSyms(nodes, k), written) && NodeOrder(nodes, lines)
    {
      if nodes[k].Some? {
        SavedSyms(m, lines, NodeSyms(nodes, k), written);
        ghost var before := lines;
        lines, written := SaveNode(c, nodes[k].value, lines, written, m, NodeSyms(nodes, k), v, rank);
        OrderStep(nodes, k, before, lines);
      }
      k := k + 1;
    }
    SavedEnd(c.table, c.user, c.modules, v, nodes, lines, written);
  }

  lemma SavedEnd(table: Table, user: seq<Option<Tri>>, modules: Tri, v: seq<Tri>, nodes: seq<Option<nat>>,
                 lines: seq<Line>, written: set<nat>)
    requires Solves(table, user, modules, v)
    requires SavedUpTo(Saved(table, user, modules, v), lines, NodeSyms(nodes, |nodes|), written)
    requires NodeOrder(nodes, lines)
    requires forall k :: 0 <= k < |nodes| && nodes[k].Some? ==> nodes[k].value < |table|
    ensures (forall i :: 0 <= i < |table| ==> Some(i) in nodes) ==>
              ReadLines(|table|, lines) == Saved(table, user, modules, v)
    ensures HoldsLines(table, modules, v, nodes, lines)
  {
    hide SavedUpTo, HoldsLines, OneEach, NodeSyms, ReadLines, NodeOrder;
    SavedAll(Saved(table, user, modules, v), lines, nodes, written);
    SavedLines(table, user, modules, v, nodes, lines);
  }

  /** The lines are those of the symbols of the nodes that are saved. */
  lemma SavedLines(table: Table, user: seq<Option<Tri>>, modules: Tri, v: seq<Tri>, nodes: seq<Option<nat>>,
                   lines: seq<Line>)
    requires Solves(table, user, modules, v)
    requires forall i, t :: (i, t) in lines <==>
      0 <= i < |table| && Some(i) in nodes && Saved(table, user, modules, v)[i] == Some(t)
    requires OneEach(lines) && NodeOrder(nodes, lines)
    ensures HoldsLines(table, modules, v, nodes, lines)
  {
    hide Compute, Concerned, SavedValue, OneEach, NodeOrder;
    var env := EnvOf(table, v, modules);
    forall i | 0 <= i < |table|
      ensures Saved(table, user, modules, v)[i] == if Concerned(table[i], env) then Some(v[i]) else None
      ensures v[i] != NO ==> Saved(table, user, modules, v)[i] == Some(v[i])
    {
      LineMeaning(table[i], user[i], env);
    }
  }

  lemma SavedSyms(m: seq<Option<Tri>>, lines: seq<Line>, done: set<nat>, written: set<nat>)
    requires SavedUpTo(m, lines, done, written)
    ensures forall j :: 0 <= j < |lines| ==> lines[j].0 in done
  {
  }

  lemma NothingSaved(m: seq<Option<Tri>>)
    ensures SavedUpTo(m, [], {}, {})
  {
    assert ReadLines(|m|, []) == Part(m, {});
  }

  lemma SavedAll(m: seq<Option<Tri>>, lines: seq<Line>, nodes: seq<Option<nat>>, written: set<nat>)
    requires SavedUpTo(m, lines, NodeSyms(nodes, |nodes|), written)
    requires forall k :: 0 <= k < |nodes| && nodes[k].Some? ==> nodes[k].value < |m|
    ensures (forall i :: 0 <= i < |m| ==> Some(i) in nodes) ==> ReadLines(|m|, lines) == m
    ensures forall i, t :: (i, t) in lines <==> 0 <= i < |m| && Some(i) in nodes && m[i] == Some(t)
    ensures OneEach(lines)
  {
    hide OneEach, NodeSyms, ReadLines;
    AllRead(nodes, m);
    AllLines(m, lines, nodes);
  }

  method SaveNode(c: Config, s: nat, lines: seq<Line>, written: set<nat>, ghost m: seq<Option<Tri>>,
                  ghost done: set<nat>,
                  ghost v: seq<Tri>, ghost rank: seq<nat>) returns (lines': seq<Line>, written': set<nat>)
    requires c.Good(v, rank, {}) && c.cleared == {} && s < |c.table| && m == Saved(c.table, c.user, c.modules, v)
    requires SavedUpTo(m, lines, done, written)
    modifies c
    ensures c.Good(v, rank, {}) && c.user == old(c.user) && c.cleared == {}
    ensures SavedUpTo(m, lines', done + {s}, written') && Extends(lines, lines', s, done)
  {
    lines', written' := lines, written;
    SavedStep(m, lines, done, written, s);
    if s !in written {
      var t := c.Read(s, v, rank);
      if c.state[s].vals.write {
        lines', written' := lines + [(s, t)], written + {s};
      }
    }
  }
}
