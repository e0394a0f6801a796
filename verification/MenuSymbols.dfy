/** The symbol definitions that the evaluation starts from, as the menu finalisation leaves them, and what a solution of
    them gives a symbol whose direct dependencies are not met. */
module MenuSymbols {
  import opened Tristate
  import opened Expressions
  import opened Symbols
  import opened UserValues
  import opened MenuForest
  import opened MenuDeps
  import opened MenuShape
  import opened MenuChoices
  import opened MenuFinalize
  import opened MenuMeaning
  import opened MenuReverse
  import opened MenuWalk
  import C = CheckDeps

  function PlacesOf(n: nat, count: nat): (r: seq<Place>)
    ensures |r| == count && forall p :: p in r <==> p.node == n && p.index < count
  {
    if count == 0 then [] else PlacesOf(n, count - 1) + [Place(n, count - 1)]
  }

  /** The places of the properties of symbol s, in the order of the nodes. */
  function Places(t: MenuTree, d: MenuData, nodes: seq<nat>, s: nat): seq<Place>
    requires t.DataSized(d)
  {
    if nodes == [] then []
    else
      var n := nodes[|nodes| - 1];
      Places(t, d, nodes[..|nodes| - 1], s) + if Site(t, n, s) then PlacesOf(n, |d.props[n]|) else []
  }

  predicate InTree(t: MenuTree, d: MenuData, p: Place, s: nat)
    requires t.DataSized(d)
  {
    Site(t, p.node, s) && p.index < |d.props[p.node]|
  }

  /** They are the properties of the definition sites of s among the nodes, all of them. */
  lemma {:induction false} PlacesExact(t: MenuTree, d: MenuData, nodes: seq<nat>, s: nat)
    requires t.DataSized(d)
    ensures forall p :: p in Places(t, d, nodes, s) <==> p.node in nodes && InTree(t, d, p, s)
  {
    if nodes != [] {
      var k := |nodes| - 1;
      var n := nodes[k];
      PlacesExact(t, d, nodes[..k], s);
      assert nodes == nodes[..k] + [n];
    }
  }

  /** Place p stands at an earlier node than q, or at the same one with a smaller index. */
  ghost predicate Earlier(nodes: seq<nat>, p: Place, q: Place) {
    exists a, b :: 0 <= a <= b < |nodes| && nodes[a] == p.node && nodes[b] == q.node && (a == b ==> p.index < q.index)
  }

  ghost predicate InNodeOrder(nodes: seq<nat>, places: seq<Place>) {
    forall i, j :: 0 <= i < j < |places| ==> Earlier(nodes, places[i], places[j])
  }

  lemma {:induction false} PlacesOfOrder(n: nat, count: nat)
    ensures forall i :: 0 <= i < count ==> PlacesOf(n, count)[i] == Place(n, i)
  {
    if count > 0 { PlacesOfOrder(n, count - 1); }
  }

  /** They come in the order of the nodes, those of one node in its own order: which is what decides between
      defaults. */
  lemma {:induction false} PlacesOrdered(t: MenuTree, d: MenuData, nodes: seq<nat>, s: nat)
    requires t.DataSized(d)
    ensures InNodeOrder(nodes, Places(t, d, nodes, s))
  {
    if nodes != [] {
      var before, n := nodes[..|nodes| - 1], nodes[|nodes| - 1];
      var front, back := Places(t, d, before, s), if Site(t, n, s) then PlacesOf(n, |d.props[n]|) else [];
      PlacesOrdered(t, d, before, s);
      PlacesExact(t, d, before, s);
      if Site(t, n, s) { PlacesOfOrder(n, |d.props[n]|); }
      forall i, j | 0 <= i < j < |front + back| ensures Earlier(nodes, (front + back)[i], (front + back)[j]) {
        PlacesJoined(before, n, front, back, i, j);
      }
    }
  }

  lemma PlacesJoined(before: seq<nat>, n: nat, front: seq<Place>, back: seq<Place>, i: nat, j: nat)
    requires InNodeOrder(before, front) && forall k :: 0 <= k < |front| ==> front[k].node in before
    requires forall k :: 0 <= k < |back| ==> back[k] == Place(n, k)
    requires i < j < |front + back|
    ensures Earlier(before + [n], (front + back)[i], (front + back)[j])
  {
    var nodes, p, q := before + [n], (front + back)[i], (front + back)[j];
    assert nodes[|before|] == n;
    if j < |front| {
      assert Earlier(before, front[i], front[j]);
      var a, b :|
        0 <= a <= b < |before| && before[a] == p.node && before[b] == q.node && (a == b ==> p.index < q.index);
      assert nodes[a] == p.node && nodes[b] == q.node;
    } else if i < |front| {
      assert front[i].node in before;
      var a :| 0 <= a < |before| && before[a] == p.node;
      assert nodes[a] == p.node && nodes[|before|] == q.node;
    } else {
      assert p == back[i - |front|] && q == back[j - |front|];
    }
  }

  /** The properties at `places`, with what the choice adds to the conditions of its values. */
  function PropsAt(t: MenuTree, d: MenuData, m: Members, places: seq<Place>, s: nat): (r: seq<Prop>)
    requires t.DataSized(d) && forall k :: 0 <= k < |places| ==> InTree(t, d, places[k], s)
    ensures |r| == |places|
  {
    seq(|places|, k requires 0 <= k < |places| && InTree(t, d, places[k], s) =>
      var p := d.props[places[k].node][places[k].index];
      p.(visible := Gated(t.Shape(), m, places[k].node, p.visible)))
  }

  /** A choice value has a property that names its choice. */
  function ValueProps(m: Members, s: nat): seq<Prop> {
    if s in m.valueOf then [Prop(ChoiceProp, None, Some(Sym(m.valueOf[s].choice)))] else []
  }

  function RoleOf(t: MenuTree, m: Members, s: nat): Role {
    if s in t.choices then Choice(ListOf(m, s))
    else if s in m.valueOf && m.valueOf[s].choice.Var? then Member(m.valueOf[s].choice.id)
    else Plain
  }

  function FinalDef(t: MenuTree, d: MenuData, m: Members, nodes: seq<nat>, stype: SymType, s: nat): SymDef
    requires Fits(t.Shape(), d) && s < |d.dirDep|
  {
    PlacesExact(t, d, nodes, s);
    assert forall k :: 0 <= k < |Places(t, d, nodes, s)| ==> Places(t, d, nodes, s)[k] in Places(t, d, nodes, s);
    var props := PropsAt(t, d, m, Places(t, d, nodes, s), s) + ValueProps(m, s);
    SymDef(stype, props, d.dirDep[s], d.revDep[s], d.implied[s], RoleOf(t, m, s))
  }

  /** Node n is where symbol s, which is not tristate, was found to be a value of a tristate choice. */
  ghost predicate GatedAt(t: MenuTree, m: Members, n: nat, s: nat) {
    && s in m.valueOf && m.valueOf[s].node == n && m.valueOf[s].choice.Type().Tristate?
    && n < |t.syms| && t.syms[n].Some? && !t.syms[n].value.Type().Tristate?
  }

  /** The k-th property of a symbol is that of its k-th place, with the condition it has there; but where the symbol is
      gated, it is hidden unless the choice is y. */
  lemma PropertyOfSymbol(t: MenuTree, d: MenuData, m: Members, nodes: seq<nat>, stype: SymType, s: nat, k: nat,
                         env: Env)
    requires Fits(t.Shape(), d) && s < |d.dirDep| && k < |Places(t, d, nodes, s)| && ValidEnv(env)
    ensures var at := Places(t, d, nodes, s)[k];
            && InTree(t, d, at, s) && k < |FinalDef(t, d, m, nodes, stype, s).props|
            && var p, q := d.props[at.node][at.index], FinalDef(t, d, m, nodes, stype, s).props[k];
               && q.kind == p.kind && q.expr == p.expr
               && (GatedAt(t, m, at.node, s) ==>
                     CalcOpt(q.visible, env) ==
                     if TriOf(env, m.valueOf[s].choice) == YES then CalcOpt(p.visible, env) else NO)
               && (!GatedAt(t, m, at.node, s) ==> q.visible == p.visible)
  {
    hide Gated, Calc, TriOf;
    PlacesExact(t, d, nodes, s);
    var at := Places(t, d, nodes, s)[k];
    assert at in Places(t, d, nodes, s);
    var p := d.props[at.node][at.index];
    GateExactly(t.Shape(), m, at.node, p.visible, if s in m.valueOf then m.valueOf[s].choice else SymNo, env);
  }

  /** Besides, a choice value has one more property, which names its choice, and no other symbol has any. */
  lemma LastProperty(t: MenuTree, d: MenuData, m: Members, nodes: seq<nat>, stype: SymType, s: nat)
    requires Fits(t.Shape(), d) && s < |d.dirDep|
    ensures var places, props := Places(t, d, nodes, s), FinalDef(t, d, m, nodes, stype, s).props;
            if s in m.valueOf then |props| == |places| + 1 && props[|places|].kind.ChoiceProp? &&
                                   props[|places|].expr == Some(Sym(m.valueOf[s].choice))
            else |props| == |places|
  {
    hide Places;
    PlacesExact(t, d, nodes, s);
  }

  /** The table of symbols. */
  function TableOf(t: MenuTree, d: MenuData, m: Members, nodes: seq<nat>, types: seq<SymType>): (table: Table)
    requires Fits(t.Shape(), d) && |types| == |d.dirDep|
    ensures |table| == |types|
  {
    seq(|types|, s requires 0 <= s < |types| => FinalDef(t, d, m, nodes, types[s], s))
  }

  predicate RolesOf(t: MenuTree, m: Members, table: Table) {
    forall s :: 0 <= s < |table| ==> table[s].role == RoleOf(t, m, s)
  }

  predicate ValueFits(t: MenuTree, m: Members, count: nat, s: nat) {
    && s in m.valueOf && m.valueOf[s].choice.Var? && m.valueOf[s].choice.id in t.choices
    && s < count && m.valueOf[s].choice.id < count && s in ListOf(m, m.valueOf[s].choice.id)
  }

  predicate ValuesFit(t: MenuTree, m: Members, count: nat) { forall s :: s in m.valueOf ==> ValueFits(t, m, count, s) }

  lemma NoNestedChoice(t: MenuTree, m: Members, table: Table, s: nat)
    requires RolesOf(t, m, table) && ValuesFit(t, m, |table|) && C.RolesMatch(table) && s in m.valueOf
    ensures s !in t.choices
  {
    assert ValueFits(t, m, |table|, s);
    var c := m.valueOf[s].choice.id;
    var k :| 0 <= k < |ListOf(m, c)| && ListOf(m, c)[k] == s;
    assert table[c].role.members[k] == s;
  }

  lemma RolesMatching(t: MenuTree, m: Members, table: Table)
    requires RolesOf(t, m, table) && ValuesFit(t, m, |table|) && Consistent(t.Shape(), m)
    requires forall s :: s in m.valueOf ==> s !in t.choices
    ensures C.RolesMatch(table)
  {
    forall c, k | 0 <= c < |table| && table[c].role.Choice? && 0 <= k < |table[c].role.members|
      ensures table[c].role.members[k] < |table| && table[table[c].role.members[k]].role == Member(c)
    {
      var s := table[c].role.members[k];
      assert s in ListOf(m, c);
      assert ValueFits(t, m, |table|, s);
    }
    forall i | 0 <= i < |table| && table[i].role.Member?
      ensures table[i].role.choice < |table| && table[table[i].role.choice].role.Choice?
      ensures i in table[table[i].role.choice].role.members
    {
      assert ValueFits(t, m, |table|, i);
    }
  }

  /** Choices and choice values name each other, as the dependency check needs it, if and only if no choice has
      become a value of a choice. */
  lemma RolesFit(t: MenuTree, d: MenuData, m: Members, nodes: seq<nat>, types: seq<SymType>)
    requires Fits(t.Shape(), d) && |types| == |d.dirDep| && Consistent(t.Shape(), m)
    requires forall c :: c in t.choices ==> c < |types|
    ensures C.RolesMatch(TableOf(t, d, m, nodes, types)) <==> forall s :: s in m.valueOf ==> s !in t.choices
  {
    hide PropsAt, Places, C.RolesMatch;
    var table := TableOf(t, d, m, nodes, types);
    assert RolesOf(t, m, table);
    forall s | s in m.valueOf ensures ValueFits(t, m, |table|, s) { assert FoundAt(t.Shape(), m, s); }
    if C.RolesMatch(table) {
      forall s | s in m.valueOf ensures s !in t.choices { NoNestedChoice(t, m, table, s); }
    }
    if forall s :: s in m.valueOf ==> s !in t.choices { RolesMatching(t, m, table); }
  }

  /** The symbol is neither a choice nor a choice value. */
  predicate Ordinary(t: MenuTree, s: nat)
    reads t
  {
    s !in t.choices && s !in t.joined.valueOf
  }

  /** What `NoValueExactly` asks of the definition of every such symbol. */
  ghost predicate FinalTable(t: MenuTree, root: nat, g: Forest, table: Table)
    reads t
  {
    t.DataSized(t.data) &&
    forall s :: 0 <= s < |table| && Ordinary(t, s) ==>
      FinalizedSymbol(t, t.data, g, root, t.direct, table[s], Places(t, t.data, Preorder(g), s), s)
  }

  lemma DefFinalized(t: MenuTree, root: nat, g: Forest, stype: SymType, s: nat)
    requires t.Sane() && t.Collecting() && s < |t.data.dirDep| && Ordinary(t, s)
    requires HandedDown(t, t.data, g, root)
    requires forall n :: 0 <= n < |t.syms| && t.syms[n].Some? ==> n in Ids(g)
    requires forall i :: i in t.direct <==>
             (i == root || i in Ids(g)) && i < |t.syms| && t.syms[i].Some? && i !in t.blocks
    ensures var places := Places(t, t.data, Preorder(g), s);
            var def := FinalDef(t, t.data, t.joined, Preorder(g), stype, s);
            FinalizedSymbol(t, t.data, g, root, t.direct, def, places, s)
  {
    hide Direct, Collected, NoRepeat, HandedDown, Places;
    var d, places := t.data, Places(t, t.data, Preorder(g), s);
    PlacesExact(t, d, Preorder(g), s);
    forall k | 0 <= k < |places|
      ensures InTree(t, d, places[k], s) && Gate(t.Shape(), t.joined, places[k].node) == None
    {
      assert places[k] in places;
    }
  }

  lemma TableFinalized(t: MenuTree, root: nat, g: Forest, table: Table, types: seq<SymType>)
    requires t.Sane() && t.Collecting() && HandedDown(t, t.data, g, root)
    requires |types| == |t.data.dirDep| && table == TableOf(t, t.data, t.joined, Preorder(g), types)
    requires forall n :: 0 <= n < |t.syms| && t.syms[n].Some? ==> n in Ids(g)
    requires forall i :: i in t.direct <==>
             (i == root || i in Ids(g)) && i < |t.syms| && t.syms[i].Some? && i !in t.blocks
    ensures FinalTable(t, root, g, table)
  {
    hide FinalizedSymbol, HandedDown, FinalDef;
    forall s | 0 <= s < |table| && Ordinary(t, s)
      ensures FinalizedSymbol(t, t.data, g, root, t.direct, table[s], Places(t, t.data, Preorder(g), s), s)
    {
      DefFinalized(t, root, g, types[s], s);
    }
  }

  /** While the direct dependencies of a symbol are not met, every solution of a table without choices gives it n,
      if it is selected or nothing at its loose sites speaks up; for a symbol without loose sites that is always so.
      */
  ghost predicate SolvedSafely(t: MenuTree, root: nat, g: Forest, table: Table, user: seq<Option<Tri>>, modules: Tri,
      v: seq<Tri>, s: nat)
    requires |v| == |table| && s < |table| && FinalTable(t, root, g, table) && Ordinary(t, s)
    reads t
  {
    var env := EnvOf(table, v, modules);
    var places := Places(t, t.data, Preorder(g), s);
    var silent := Silent(t, t.data, g, CalcOpt(t.Above(t.data, root), env), places, env);
    Dir(table[s], env) == NO && (SameKind(t, t.data, s) || Rev(table[s], env) != NO || silent) ==> v[s] == NO
  }

  lemma SolutionSafe(t: MenuTree, root: nat, g: Forest, table: Table, user: seq<Option<Tri>>, modules: Tri,
      v: seq<Tri>, s: nat)
    requires FinalTable(t, root, g, table) && s < |table| && Ordinary(t, s)
    requires BoolOrTristate(table) && Solves(table, user, modules, v)
    ensures SolvedSafely(t, root, g, table, user, modules, v, s)
  {
    var env, places := EnvOf(table, v, modules), Places(t, t.data, Preorder(g), s);
    SolutionValid(table, user, modules, v);
    if Dir(table[s], env) == NO {
      NoValueExactly(t, t.data, g, root, t.direct, table[s], places, s, env);
      if SameKind(t, t.data, s) {
        NoValueAfterFinalization(t, t.data, g, root, t.direct, table[s], places, s, user[s], env);
      }
    }
  }

  /** For a symbol whose sites all count towards its dependencies, or none of whose do, a value that is accepted
      is always the value read back, and the symbols that do not depend on it keep theirs. */
  lemma SetThenReadFinal(t: MenuTree, root: nat, g: Forest, table: Table, rank: seq<nat>, user: seq<Option<Tri>>,
                         modules: Tri, v: seq<Tri>, v': seq<Tri>, s: nat, val: Tri)
    requires FinalTable(t, root, g, table) && s < |table| && Ordinary(t, s) && SameKind(t, t.data, s)
    requires Setting(table, rank, modules)
    requires Solves(table, user, modules, v) && Solves(table, user[s := Some(val)], modules, v')
    requires WithinRange(table[s], modules, Compute(table[s], user[s], EnvOf(table, v, modules)), val)
    ensures v'[s] == val && forall i :: 0 <= i < |table| && !Reaches(table, i, s) ==> v'[i] == v[i]
  {
    var env := EnvOf(table, v, modules);
    SolutionValid(table, user, modules, v);
    FinalizedGuarded(t, t.data, g, root, t.direct, table[s], Places(t, t.data, Preorder(g), s), s);
    if Dir(table[s], env) == NO { NoValueWithoutDependencies(table[s], user[s], env); }
    SetThenRead(table, rank, user, modules, v, v', s, val);
  }

  /** In a tree without choices there are no choice values. */
  lemma NoValues(t: Menus, m: Members)
    requires Consistent(t, m) && t.choices == {}
    ensures m.valueOf == map[]
  {
    if exists s :: s in m.valueOf {
      var s :| s in m.valueOf;
      var found := FoundAt(t, m, s);
    }
  }

  /** So all its symbols are plain, and what the equations say is what they are worth. */
  lemma TableSafe(t: MenuTree, root: nat, g: Forest, table: Table, types: seq<SymType>)
    requires t.Sane() && t.Collecting() && t.choices == {} && FinalTable(t, root, g, table)
    requires |types| == |t.data.dirDep| && table == TableOf(t, t.data, t.joined, Preorder(g), types)
    ensures AllPlain(table) && t.joined.valueOf == map[]
    ensures forall user, modules, v, s ::
              BoolOrTristate(table) && Solves(table, user, modules, v) && 0 <= s < |table| ==>
              SolvedSafely(t, root, g, table, user, modules, v, s)
  {
    hide SolvedSafely, FinalizedSymbol;
    NoValues(t.Shape(), t.joined);
    forall user, modules, v, s | BoolOrTristate(table) && Solves(table, user, modules, v) && 0 <= s < |table|
      ensures SolvedSafely(t, root, g, table, user, modules, v, s)
    {
      SolutionSafe(t, root, g, table, user, modules, v, s);
    }
  }

  /** What selects and implies each symbol is worth what the finalised properties ask. */
  ghost predicate ReverseTable(t: MenuTree, root: nat, g: Forest, table: Table)
    reads t
  {
    forall s, env :: 0 <= s < |table| ==>
      ReverseWorth(t.Shape(), t.data, root, Ids(g), table[s].revDep, table[s].implied, s, env)
  }

  lemma TableReverse(t: MenuTree, root: nat, g: Forest, table: Table, types: seq<SymType>)
    requires t.Sane() && t.Collecting()
    requires |types| == |t.data.dirDep| && table == TableOf(t, t.data, t.joined, Preorder(g), types)
    requires forall i :: Inherited(i) in t.order <==> i in Ids(g)
    requires forall i :: Required(i) in t.order <==> (i == root || i in Ids(g)) && Requiring(t.Shape(), i)
    ensures ReverseTable(t, root, g, table)
  {
    hide ReverseWorth, MenuTree.Collecting;
    forall s, env: Env | 0 <= s < |table|
      ensures ReverseWorth(t.Shape(), t.data, root, Ids(g), table[s].revDep, table[s].implied, s, env)
    {
      ReverseMeaning(t, root, Ids(g), s, env);
    }
  }

  /** The finalised tree, and its nodes in the order of the walk. */
  method FinalizeNodes(t: MenuTree, root: nat, ghost g: Forest) returns (nodes: seq<nat>)
    requires t.Sane() && t.Parsed() && Rep(t.links, root, -1, Entry(root, g, Nil))
    requires Distinct(Entry(root, g, Nil)) && t.ParsedKids(Entry(root, g, Nil))
    requires TidyParsed(t) && root < |t.syms| && t.syms[root].None? && TidyOpt(true, t.initial.dep[root])
    modifies t
    ensures t.Sane() && t.Collecting() && |t.data.dirDep| == |old(t.data.dirDep)| && nodes == Preorder(g)
    ensures HandedDown(t, t.data, g, root)
    ensures forall i :: i in t.direct <==>
            (i == root || i in Ids(g)) && i < |t.syms| && t.syms[i].Some? && i !in t.blocks
    ensures forall i :: Inherited(i) in t.order <==> i in Ids(g)
    ensures forall i :: Required(i) in t.order <==> (i == root || i in Ids(g)) && Requiring(t.Shape(), i)
  {
    hide TidyParsed, Filled, FinalEntry, Distinct, MenuTree.Handed, MenuTree.Collecting, MenuTree.ParsedKids;
    ghost var h := t.FinalizeRoot(root, g);
    var events := Walk(t.links, root, h);
    EventsPreorder(h);
    nodes := Entered(events);
    RepBounds(t.links, root, -1, Entry(root, h, Nil));
    SamePreorder(h, g);
  }

  /** Finalising the menus gives definitions for which that is so. */
  method FinalizeSymbols(t: MenuTree, root: nat, ghost g: Forest, types: seq<SymType>) returns (table: Table)
    requires t.Sane() && t.Parsed() && Rep(t.links, root, -1, Entry(root, g, Nil))
    requires Distinct(Entry(root, g, Nil)) && t.ParsedKids(Entry(root, g, Nil)) && |types| == |t.data.dirDep|
    requires TidyParsed(t) && root < |t.syms| && t.syms[root].None? && TidyOpt(true, t.initial.dep[root])
    requires forall n :: 0 <= n < |t.syms| && t.syms[n].Some? ==> n in Ids(g)
    modifies t
    ensures t.Sane() && t.Collecting() && |types| == |t.data.dirDep|
    ensures table == TableOf(t, t.data, t.joined, Preorder(g), types) && FinalTable(t, root, g, table)
    ensures ReverseTable(t, root, g, table)
    ensures t.choices == {} ==>
              AllPlain(table) && t.joined.valueOf == map[] &&
              forall user, modules, v, s ::
                BoolOrTristate(table) && Solves(table, user, modules, v) && 0 <= s < |table| ==>
                SolvedSafely(t, root, g, table, user, modules, v, s)
  {
    hide TableOf, SolvedSafely, FinalizedSymbol, FinalTable, ReverseTable;
    var nodes := FinalizeNodes(t, root, g);
    table := TableOf(t, t.data, t.joined, nodes, types);
    TableFinalized(t, root, g, table, types);
    TableReverse(t, root, g, table, types);
    if t.choices == {} { TableSafe(t, root, g, table, types); }
  }
}
