/** `conf_write_defconfig`: which user values a minimal configuration keeps, and what it loses. */
module Defconfig {
  import opened Tristate
  import opened Expressions
  import opened Symbols
  import opened UserValues
  import opened Evaluator

  /** `sym_get_string_default` of a bool or tristate, as a value: the default, raised by selecting symbols,
      promoted, and raised by implying symbols. */
  function DefaultOf(def: SymDef, env: Env): Tri {
    var d := Or(DefaultTri(def, env), Rev(def, env));
    var p := if d == MOD && (env.modules == NO || def.stype.Boolean?) then YES else d;
    if p < Implied(def, env) then Implied(def, env) else p
  }

  /** The tests `conf_write_defconfig` makes before it writes a symbol. */
  predicate Kept(def: SymDef, vals: Values, env: Env) {
    vals.write && Changeable(vals) && TriString(vals.tri, env.modules) != TriName(DefaultOf(def, env))
  }

  /** The user value of a symbol after its line, if there is one, has been read back. */
  function KeptValue(def: SymDef, user: Option<Tri>, env: Env): Option<Tri> {
    var vals := Compute(def, user, env);
    if Kept(def, vals, env) then Some(vals.tri) else None
  }

  /** The default is what the symbol would be worth without a user value, if and only if it is not selected with
      unmet dependencies, which forces it to n. */
  lemma DefaultIsUnset(def: SymDef, env: Env)
    requires def.stype.Boolean? || def.stype.Tristate?
    ensures DefaultOf(def, env) == Compute(def, None, env).tri <==> !(Dir(def, env) == NO && Rev(def, env) != NO)
  {
  }

  /** The symbol gets a line: the user can change it, and without a user value it would be worth something else. The one
      line too many is that of a symbol that is selected with unmet dependencies, which is n with or without it. */
  predicate Chosen(def: SymDef, user: Option<Tri>, env: Env) {
    var vals := Compute(def, user, env);
    Changeable(vals) && (Compute(def, None, env).tri != vals.tri || (vals.dir == NO && vals.rev != NO))
  }

  /** So a minimal configuration holds exactly those lines, each with the value of its symbol. */
  lemma KeptMeaning(def: SymDef, user: Option<Tri>, env: Env)
    requires def.stype.Boolean? || def.stype.Tristate?
    ensures KeptValue(def, user, env) == if Chosen(def, user, env) then Some(Compute(def, user, env).tri) else None
  {
    var vals, d := Compute(def, user, env), DefaultOf(def, env);
    DefaultIsUnset(def, env);
    assert TriString(vals.tri, env.modules) == TriName(d) <==> vals.tri == d;
  }

  function Minimal(table: Table, user: seq<Option<Tri>>, modules: Tri, v: seq<Tri>): (m: seq<Option<Tri>>)
    requires |user| == |table| == |v|
    ensures |m| == |table|
    ensures forall i :: 0 <= i < |table| ==> m[i] == KeptValue(table[i], user[i], EnvOf(table, v, modules))
  {
    seq(|table|, i requires 0 <= i < |table| => KeptValue(table[i], user[i], EnvOf(table, v, modules)))
  }

  /** A tristate that is both visible and selected as m cannot be changed, so its user value is not written;
      but that value was all that kept it from its default y. */
  predicate Lost(def: SymDef, user: Option<Tri>, env: Env) {
    && user.Some? && Visible(def, env) == MOD && Rev(def, env) == MOD
    && Dir(def, env) != NO && DefaultTri(def, env) == YES && Implied(def, env) != YES
  }

  lemma KeptLocal(def: SymDef, user: Option<Tri>, env: Env)
    requires def.stype.Boolean? || def.stype.Tristate?
    ensures Compute(def, KeptValue(def, user, env), env).tri == Compute(def, user, env).tri <==> !Lost(def, user, env)
  {
    var vals := Compute(def, user, env);
    var d := DefaultOf(def, env);
    assert TriString(vals.tri, env.modules) == TriName(d) <==> vals.tri == d;
  }

  /** Without modules nothing is ever m, so nothing is lost. */
  lemma NothingLostWithoutModules(def: SymDef, user: Option<Tri>, env: Env)
    requires (def.stype.Boolean? || def.stype.Tristate?) && env.modules == NO
    ensures !Lost(def, user, env)
  {
  }

  lemma {:induction false} SameBelow(table: Table, rank: seq<nat>, user: seq<Option<Tri>>, modules: Tri,
                                     v: seq<Tri>, v': seq<Tri>, i: nat)
    requires Setting(table, rank, modules) && i < |table| && Solves(table, user, modules, v)
    requires Solves(table, Minimal(table, user, modules, v), modules, v')
    requires forall j :: 0 <= j < |table| ==> !Lost(table[j], user[j], EnvOf(table, v, modules))
    ensures v'[i] == v[i]
    decreases rank[i]
  {
    forall j | 0 <= j < |table| && DependsOn(table, i, j) ensures v'[j] == v[j] {
      SameBelow(table, rank, user, modules, v, v', j);
    }
    var kept := Minimal(table, user, modules, v)[i];
    EquationFrame(table, i, kept, modules, v', v);
    assert SymbolAt(table, i).IsBoolOrTristate();
    KeptLocal(table[i], user[i], EnvOf(table, v, modules));
  }

  /** Reading the minimal configuration back gives every symbol the value it had, if and only if no symbol
      is in the one situation where a user value that matters is not written. */
  lemma DefconfigExact(table: Table, rank: seq<nat>, user: seq<Option<Tri>>, modules: Tri, v: seq<Tri>, v': seq<Tri>)
    requires Setting(table, rank, modules) && Solves(table, user, modules, v)
    requires Solves(table, Minimal(table, user, modules, v), modules, v')
    ensures v' == v <==> forall i :: 0 <= i < |table| ==> !Lost(table[i], user[i], EnvOf(table, v, modules))
  {
    if forall i :: 0 <= i < |table| ==> !Lost(table[i], user[i], EnvOf(table, v, modules)) {
      forall i | 0 <= i < |table| ensures v'[i] == v[i] {
        SameBelow(table, rank, user, modules, v, v', i);
      }
    } else {
      var i :| 0 <= i < |table| && Lost(table[i], user[i], EnvOf(table, v, modules));
      assert SymbolAt(table, i).IsBoolOrTristate();
      KeptLocal(table[i], user[i], EnvOf(table, v, modules));
    }
  }

  /** In particular a minimal configuration loses nothing when modules are off. */
  lemma DefconfigWithoutModules(table: Table, rank: seq<nat>, user: seq<Option<Tri>>, v: seq<Tri>, v': seq<Tri>)
    requires Setting(table, rank, NO) && Solves(table, user, NO, v)
    requires Solves(table, Minimal(table, user, NO, v), NO, v')
    ensures v' == v
  {
    forall i | 0 <= i < |table| ensures !Lost(table[i], user[i], EnvOf(table, v, NO)) {
      assert SymbolAt(table, i).IsBoolOrTristate();
      NothingLostWithoutModules(table[i], user[i], EnvOf(table, v, NO));
    }
    DefconfigExact(table, rank, user, NO, v, v');
  }

  /** With modules on, the exception is real: visible and selected as m, default y, and the user had set any value. */
  lemma LostExample(set_: Tri)
    ensures var def := SymDef(SymType.Tristate,
                              [Prop(Prompt, Some(Sym(SymMod)), None), Prop(Default, None, Some(Sym(SymYes)))],
                              None, Some(Sym(SymMod)), None, Plain);
            var env := Env(map[], map[], YES);
            && Compute(def, Some(set_), env).tri == MOD
            && KeptValue(def, Some(set_), env) == None
            && Compute(def, None, env).tri == YES
  {
  }

  // ----- the writer

  /** A configuration line: the symbol and the value it is set to. */
  type Line = (nat, Tri)

  /** No two lines are for the same symbol. */
  predicate OneEach(lines: seq<Line>) { forall j, k :: 0 <= j < k < |lines| ==> lines[j].0 != lines[k].0 }

  /** The user values after a configuration file has been read into n cleared symbols. */
  function ReadLines(n: nat, lines: seq<Line>): (u: seq<Option<Tri>>)
    ensures |u| == n
  {
    if lines == [] then seq(n, _ => None)
    else
      var u := ReadLines(n, lines[..|lines| - 1]);
      var (s, t) := lines[|lines| - 1];
      if s < n then u[s := Some(t)] else u
  }

  /** The part of `m` that belongs to the symbols in `done`. */
  ghost function Part(m: seq<Option<Tri>>, done: set<nat>): (p: seq<Option<Tri>>)
    ensures |p| == |m|
    ensures forall i :: 0 <= i < |m| ==> p[i] == if i in done then m[i] else None
  {
    seq(|m|, i requires 0 <= i < |m| => if i in done then m[i] else None)
  }

  lemma ReadOneMore(n: nat, lines: seq<Line>, l: Line)
    requires l.0 < n
    ensures ReadLines(n, lines + [l]) == ReadLines(n, lines)[l.0 := Some(l.1)]
  {
    assert (lines + [l])[..|lines + [l]| - 1] == lines;
  }

  /** `sym_get_string_default`. */
  method StringDefault(c: Config, s: nat, ghost v: seq<Tri>, ghost rank: seq<nat>) returns (str: string)
    requires c.Good(v, rank, {}) && s < |c.table| && c.state[s].valid && s in c.cleared
    modifies c
    ensures c.Good(v, rank, {}) && c.Extended()
    ensures str == TriName(DefaultOf(c.table[s], EnvOf(c.table, v, c.modules)))
    ensures !(c.state[s].vals.dir == NO && c.state[s].vals.rev != NO) ==>
              str == TriName(Compute(c.table[s], None, EnvOf(c.table, v, c.modules)).tri)
  {
    var def := c.table[s];
    var val := NO;
    var prop, visible := c.GetDefault(s, v, rank, {}, true);
    if prop.Some? {
      var t := c.CalcOwned(s, prop.value.expr, v, rank, {}, true);
      val := And(t, visible);
    }
    val := Or(val, c.state[s].vals.rev);
    if val == MOD && c.modules == NO { val := YES; }
    if def.stype.Boolean? && val == MOD { val := YES; }
    if val < c.state[s].vals.implied { val := c.state[s].vals.implied; }
    str := TriName(val);
    UnsetDefault(c, s, v, rank);
  }

  lemma UnsetDefault(c: Config, s: nat, v: seq<Tri>, rank: seq<nat>)
    requires c.Good(v, rank, {}) && s < |c.table| && c.state[s].valid
    ensures !(c.state[s].vals.dir == NO && c.state[s].vals.rev != NO) ==>
              DefaultOf(c.table[s], EnvOf(c.table, v, c.modules)) ==
              Compute(c.table[s], None, EnvOf(c.table, v, c.modules)).tri
  {
    hide DefaultOf;
    assert SymbolAt(c.table, s).IsBoolOrTristate();
    DefaultIsUnset(c.table[s], EnvOf(c.table, v, c.modules));
  }

  /** `conf_write_defconfig`, on the menu nodes in the order of the walk: None for a node without a symbol.
      A symbol with several nodes is dealt with once, because dealing with it takes its SYMBOL_WRITE flag. */
  method WriteDefconfig(c: Config, nodes: seq<Option<nat>>, ghost v: seq<Tri>, ghost rank: seq<nat>)
    returns (lines: seq<Line>)
    requires c.Proper() && Solves(c.table, c.user, c.modules, v) && Ranked(c.table, rank)
    requires forall k :: 0 <= k < |nodes| && nodes[k].Some? ==> nodes[k].value < |c.table|
    modifies c
    ensures c.Good(v, rank, {}) && c.user == old(c.user)
    ensures (forall i :: 0 <= i < |c.table| ==> Some(i) in nodes) ==>
              ReadLines(|c.table|, lines) == Minimal(c.table, c.user, c.modules, v)
    ensures MinimalLines(c.table, c.user, c.modules, v, nodes, lines)
  {
    ghost var m := Minimal(c.table, c.user, c.modules, v);
    c.ClearAllValid();
    lines := WriteNodes(c, nodes, m, v, rank);
    hide NodeOrder;
    WrittenAll(m, lines, nodes, c.cleared);
    LinesMinimal(c.table, c.user, c.modules, v, nodes, lines);
  }

  lemma WrittenAll(m: seq<Option<Tri>>, lines: seq<Line>, nodes: seq<Option<nat>>, cleared: set<nat>)
    requires Written(m, lines, NodeSyms(nodes, |nodes|), cleared)
    requires forall k :: 0 <= k < |nodes| && nodes[k].Some? ==> nodes[k].value < |m|
    ensures (forall i :: 0 <= i < |m| ==> Some(i) in nodes) ==> ReadLines(|m|, lines) == m
    ensures forall i, t :: (i, t) in lines <==> 0 <= i < |m| && Some(i) in nodes && m[i] == Some(t)
    ensures OneEach(lines)
  {
    hide OneEach, NodeSyms, ReadLines;
    AllRead(nodes, m);
    AllLines(m, lines, nodes);
  }

  /** The loop of the writer over the nodes. */
  method WriteNodes(c: Config, nodes: seq<Option<nat>>, ghost m: seq<Option<Tri>>, ghost v: seq<Tri>,
                    ghost rank: seq<nat>)
    returns (lines: seq<Line>)
    requires c.Good(v, rank, {}) && c.cleared == {} && m == Minimal(c.table, c.user, c.modules, v)
    requires forall k :: 0 <= k < |nodes| && nodes[k].Some? ==> nodes[k].value < |c.table|
    modifies c
    ensures c.Good(v, rank, {}) && c.user == old(c.user)
    ensures Written(m, lines, NodeSyms(nodes, |nodes|), c.cleared) && NodeOrder(nodes, lines)
  {
    hide Config.Good, Written, Minimal, NodeOrder;
    lines := [];
    NoOrder(nodes);
    NothingWritten(m);
    var k := 0;
    while k < |nodes|
      invariant 0 <= k <= |nodes|
      invariant c.Good(v, rank, {}) && c.user == old(c.user)
      invariant Written(m, lines, NodeSyms(nodes, k), c.cleared) && NodeOrder(nodes, lines)
    {
      if nodes[k].Some? {
        WrittenSyms(m, lines, NodeSyms(nodes, k), c.cleared);
        ghost var before := lines;
        lines := WriteNode(c, nodes[k].value, lines, m, NodeSyms(nodes, k), v, rank);
        OrderStep(nodes, k, before, lines);
      } else {
        assert NodeSyms(nodes, k + 1) == NodeSyms(nodes, k);
      }
      k := k + 1;
    }
  }

  /** Symbol a has a node in front of all nodes of symbol b. */
  ghost predicate NodeFirst(nodes: seq<Option<nat>>, a: nat, b: nat) {
    exists j :: 0 <= j < |nodes| && nodes[j] == Some(a) && forall i :: 0 <= i < j ==> nodes[i] != Some(b)
  }

  /** The lines come in the order in which their symbols are met. */
  ghost predicate NodeOrder(nodes: seq<Option<nat>>, lines: seq<Line>) {
    forall a, b :: 0 <= a < b < |lines| ==> NodeFirst(nodes, lines[a].0, lines[b].0)
  }

  lemma NoOrder(nodes: seq<Option<nat>>)
    ensures NodeOrder(nodes, [])
  {
  }

  /** Nothing changes, or there is one more line, for a symbol that is met for the first time. */
  ghost predicate Extends(lines: seq<Line>, more: seq<Line>, s: nat, done: set<nat>) {
    more == lines || (s !in done && exists t: Tri :: more == lines + [(s, t)])
  }

  lemma OrderStep(nodes: seq<Option<nat>>, k: nat, lines: seq<Line>, more: seq<Line>)
    requires k < |nodes| && nodes[k].Some? && Extends(lines, more, nodes[k].value, NodeSyms(nodes, k))
    requires NodeOrder(nodes, lines) && forall j :: 0 <= j < |lines| ==> lines[j].0 in NodeSyms(nodes, k)
    ensures NodeOrder(nodes, more)
  {
    hide NodeFirst;
    if more != lines {
      NodeSymsExact(nodes, k);
      forall a | 0 <= a < |lines| ensures NodeFirst(nodes, lines[a].0, nodes[k].value) {
        assert Some(lines[a].0) in nodes[..k];
        FirstOf(nodes, k, lines[a].0, nodes[k].value);
      }
    }
  }

  lemma FirstOf(nodes: seq<Option<nat>>, k: nat, a: nat, b: nat)
    requires k <= |nodes| && Some(a) in nodes[..k] && Some(b) !in nodes[..k]
    ensures NodeFirst(nodes, a, b)
  {
    var j :| 0 <= j < k && nodes[..k][j] == Some(a);
    assert nodes[j] == Some(a);
    forall i | 0 <= i < j ensures nodes[i] != Some(b) { assert nodes[..k][i] == nodes[i]; }
  }

  /** The symbols of the first k nodes. */
  ghost function NodeSyms(nodes: seq<Option<nat>>, k: nat): set<nat>
    requires k <= |nodes|
  {
    if k == 0 then {}
    else NodeSyms(nodes, k - 1) + if nodes[k - 1].Some? then {nodes[k - 1].value} else {}
  }

  lemma {:induction false} InNodeSyms(nodes: seq<Option<nat>>, j: nat, k: nat)
    requires j < k <= |nodes| && nodes[j].Some?
    ensures nodes[j].value in NodeSyms(nodes, k)
  {
    if j < k - 1 { InNodeSyms(nodes, j, k - 1); }
  }

  lemma AllDone(nodes: seq<Option<nat>>, m: seq<Option<Tri>>)
    requires forall i :: 0 <= i < |m| ==> Some(i) in nodes
    ensures Part(m, NodeSyms(nodes, |nodes|)) == m
  {
    forall i | 0 <= i < |m| ensures i in NodeSyms(nodes, |nodes|) {
      var j :| 0 <= j < |nodes| && nodes[j] == Some(i);
      InNodeSyms(nodes, j, |nodes|);
    }
  }

  /** Among lines for different symbols, those for known symbols are exactly what is read. */
  lemma {:induction false} ReadMembers(n: nat, lines: seq<Line>)
    requires OneEach(lines)
    ensures forall i, t :: 0 <= i < n ==> ((i, t) in lines <==> ReadLines(n, lines)[i] == Some(t))
  {
    if lines != [] {
      var k := |lines| - 1;
      ReadMembers(n, lines[..k]);
      assert lines == lines[..k] + [lines[k]];
      forall l | l in lines[..k] ensures l.0 != lines[k].0 {
        var j :| 0 <= j < k && lines[j] == l;
      }
      forall i, t | 0 <= i < n ensures (i, t) in lines <==> ReadLines(n, lines)[i] == Some(t) {
        assert (i, t) in lines <==> (i, t) in lines[..k] || (i, t) == lines[k];
        assert (i, t) in lines[..k] <==> ReadLines(n, lines[..k])[i] == Some(t);
      }
    }
  }

  lemma {:induction false} NodeSymsExact(nodes: seq<Option<nat>>, k: nat)
    requires k <= |nodes|
    ensures forall i :: i in NodeSyms(nodes, k) <==> Some(i) in nodes[..k]
  {
    if k > 0 {
      NodeSymsExact(nodes, k - 1);
      assert nodes[..k] == nodes[..k - 1] + [nodes[k - 1]];
    }
  }

  /** Lines for different symbols of the nodes that say what `m` says of them: those are all the lines. */
  lemma AllLines(m: seq<Option<Tri>>, lines: seq<Line>, nodes: seq<Option<nat>>)
    requires forall k :: 0 <= k < |nodes| && nodes[k].Some? ==> nodes[k].value < |m|
    requires ReadLines(|m|, lines) == Part(m, NodeSyms(nodes, |nodes|))
    requires forall j :: 0 <= j < |lines| ==> lines[j].0 in NodeSyms(nodes, |nodes|)
    requires OneEach(lines)
    ensures forall i, t :: (i, t) in lines <==> 0 <= i < |m| && Some(i) in nodes && m[i] == Some(t)
  {
    hide OneEach, NodeSyms, ReadLines;
    NodeSymsAll(nodes, |m|);
    SomeLines(m, lines, nodes, NodeSyms(nodes, |nodes|));
  }

  lemma AllRead(nodes: seq<Option<nat>>, m: seq<Option<Tri>>)
    ensures (forall i :: 0 <= i < |m| ==> Some(i) in nodes) ==> Part(m, NodeSyms(nodes, |nodes|)) == m
  {
    if forall i :: 0 <= i < |m| ==> Some(i) in nodes { AllDone(nodes, m); }
  }

  lemma SomeLines(m: seq<Option<Tri>>, lines: seq<Line>, nodes: seq<Option<nat>>, done: set<nat>)
    requires forall i :: i in done <==> 0 <= i < |m| && Some(i) in nodes
    requires ReadLines(|m|, lines) == Part(m, done) && forall j :: 0 <= j < |lines| ==> lines[j].0 in done
    requires OneEach(lines)
    ensures forall i, t :: (i, t) in lines <==> 0 <= i < |m| && Some(i) in nodes && m[i] == Some(t)
  {
    LinesOf(m, lines, done);
    forall i, t ensures (i, t) in lines <==> 0 <= i < |m| && Some(i) in nodes && m[i] == Some(t) {
      assert i in done <==> 0 <= i < |m| && Some(i) in nodes;
    }
  }

  lemma NodeSymsAll(nodes: seq<Option<nat>>, n: nat)
    requires forall k :: 0 <= k < |nodes| && nodes[k].Some? ==> nodes[k].value < n
    ensures forall i :: i in NodeSyms(nodes, |nodes|) <==> 0 <= i < n && Some(i) in nodes
  {
    NodeSymsExact(nodes, |nodes|);
    assert nodes[..|nodes|] == nodes;
    forall i | i in NodeSyms(nodes, |nodes|) ensures i < n {
      var k :| 0 <= k < |nodes| && nodes[k] == Some(i);
    }
  }

  lemma LinesOf(m: seq<Option<Tri>>, lines: seq<Line>, done: set<nat>)
    requires forall i :: i in done ==> i < |m|
    requires ReadLines(|m|, lines) == Part(m, done) && forall j :: 0 <= j < |lines| ==> lines[j].0 in done
    requires OneEach(lines)
    ensures forall i, t :: (i, t) in lines <==> i in done && m[i] == Some(t)
  {
    ReadMembers(|m|, lines);
    forall i, t ensures (i, t) in lines <==> i in done && m[i] == Some(t) {
      if (i, t) in lines {
        assert i in done;
        assert ReadLines(|m|, lines)[i] == Some(t);
      }
      if i in done && m[i] == Some(t) { assert ReadLines(|m|, lines)[i] == Some(t); }
    }
  }

  /** The lines are those of the symbols of the nodes that need one, each with the value of its symbol, in the order of
      the nodes. */
  ghost predicate MinimalLines(table: Table, user: seq<Option<Tri>>, modules: Tri, v: seq<Tri>,
                               nodes: seq<Option<nat>>, lines: seq<Line>)
    requires |v| == |table| == |user|
  {
    && (forall i, t :: (i, t) in lines <==>
          0 <= i < |table| && Some(i) in nodes && Chosen(table[i], user[i], EnvOf(table, v, modules)) && t == v[i])
    && OneEach(lines) && NodeOrder(nodes, lines)
  }

  lemma LinesMinimal(table: Table, user: seq<Option<Tri>>, modules: Tri, v: seq<Tri>, nodes: seq<Option<nat>>,
                     lines: seq<Line>)
    requires Solves(table, user, modules, v) && BoolOrTristate(table)
    requires forall i, t :: (i, t) in lines <==>
      0 <= i < |table| && Some(i) in nodes && Minimal(table, user, modules, v)[i] == Some(t)
    requires OneEach(lines) && NodeOrder(nodes, lines)
    ensures MinimalLines(table, user, modules, v, nodes, lines)
  {
    hide Compute, Chosen, KeptValue, OneEach, NodeOrder;
    var env := EnvOf(table, v, modules);
    forall i | 0 <= i < |table|
      ensures Minimal(table, user, modules, v)[i] == if Chosen(table[i], user[i], env) then Some(v[i]) else None
    {
      assert SymbolAt(table, i).IsBoolOrTristate();
      KeptMeaning(table[i], user[i], env);
    }
  }

  /** The lines written so far say what `m` says of the symbols in `done`, one line a symbol at most. */
  ghost predicate Written(m: seq<Option<Tri>>, lines: seq<Line>, done: set<nat>, cleared: set<nat>) {
    && cleared <= done
    && (forall i :: i in done && i < |m| && i !in cleared ==> m[i] == None)
    && ReadLines(|m|, lines) == Part(m, done)
    && (forall j :: 0 <= j < |lines| ==> lines[j].0 in cleared)
    && OneEach(lines)
  }

  lemma WrittenSyms(m: seq<Option<Tri>>, lines: seq<Line>, done: set<nat>, cleared: set<nat>)
    requires Written(m, lines, done, cleared)
    ensures forall j :: 0 <= j < |lines| ==> lines[j].0 in done
  {
  }

  lemma NothingWritten(m: seq<Option<Tri>>)
    ensures Written(m, [], {}, {})
  {
    assert ReadLines(|m|, []) == Part(m, {});
  }

  lemma OneMoreLine(lines: seq<Line>, ids: set<nat>, l: Line)
    requires OneEach(lines) && l.0 !in ids && forall j :: 0 <= j < |lines| ==> lines[j].0 in ids
    ensures OneEach(lines + [l]) && forall j :: 0 <= j <= |lines| ==> (lines + [l])[j].0 in ids + {l.0}
  {
  }

  lemma WrittenStep(m: seq<Option<Tri>>, lines: seq<Line>, done: set<nat>, before: set<nat>, cleared: set<nat>,
                    s: nat, line: Option<Line>)
    requires Written(m, lines, done, before) && s < |m|
    requires cleared == before || cleared == before + {s}
    requires s !in cleared ==> m[s] == None
    requires line == if s in before || m[s].None? then None else Some((s, m[s].value))
    ensures Written(m, if line.Some? then lines + [line.value] else lines, done + {s}, cleared)
  {
    hide OneEach;
    assert Part(m, done + {s}) == Part(m, done)[s := m[s]];
    if line.Some? {
      ReadOneMore(|m|, lines, line.value);
      OneMoreLine(lines, before, line.value);
    } else if s !in done {
      assert m[s] == None;
    }
    assert forall i :: i in done + {s} && i < |m| && i !in cleared ==> m[i] == None;
  }

  /** One node of the walk that has a symbol. */
  method WriteNode(c: Config, s: nat, lines: seq<Line>, ghost m: seq<Option<Tri>>, ghost done: set<nat>,
                   ghost v: seq<Tri>, ghost rank: seq<nat>) returns (lines': seq<Line>)
    requires c.Good(v, rank, {}) && s < |c.table| && m == Minimal(c.table, c.user, c.modules, v)
    requires Written(m, lines, done, c.cleared)
    modifies c
    ensures c.Good(v, rank, {}) && c.user == old(c.user)
    ensures Written(m, lines', done + {s}, c.cleared) && Extends(lines, lines', s, done)
  {
    ghost var before := c.cleared;
    var line := WriteSymbol(c, s, v, rank);
    WrittenStep(m, lines, done, before, c.cleared, s, line);
    lines' := if line.Some? then lines + [line.value] else lines;
  }

  /** One node of the walk: the line for its symbol, if it gets one. */
  method WriteSymbol(c: Config, s: nat, ghost v: seq<Tri>, ghost rank: seq<nat>) returns (line: Option<Line>)
    requires c.Good(v, rank, {}) && s < |c.table|
    modifies c
    ensures c.Good(v, rank, {}) && c.user == old(c.user)
    ensures c.cleared == old(c.cleared) || c.cleared == old(c.cleared) + {s}
    ensures var kept := Minimal(c.table, c.user, c.modules, v)[s];
            && line == (if s in old(c.cleared) || kept.None? then None else Some((s, kept.value)))
            && (s !in c.cleared ==> kept == None)
  {
    c.CalcValue(s, v, rank, {}, true);
    var vals := c.state[s].vals;
    if !vals.write { return None; }
    c.ClearWrite(s, v, rank);
    if !Changeable(vals) { return None; }
    var str := StringDefault(c, s, v, rank);
    if TriString(vals.tri, c.modules) == str { return None; }
    return Some((s, vals.tri));
  }
}
