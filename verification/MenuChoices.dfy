/** Choice blocks in the menu tree: which symbols become choice values, and what becomes of their conditions. */
module MenuChoices {
  import opened Tristate
  import opened Expressions
  import opened Symbols
  import opened MenuForest
  import opened MenuDeps
  import opened MenuShape

  predicate NoRepeat<T(==)>(order: seq<T>) {
    order != [] ==> order[|order| - 1] !in order[..|order| - 1] && NoRepeat(order[..|order| - 1])
  }

  lemma NoRepeatStep<T>(order: seq<T>, n: T)
    requires NoRepeat(order) && n !in order
    ensures NoRepeat(order + [n])
  {
    assert (order + [n])[..|order|] == order;
  }

  predicate IsChoice(t: Menus, n: nat) { HasSymbol(t, n) && t.syms[n].value.Var? && t.syms[n].value.id in t.choices }

  /** The prompt of node n forces its symbol to be set, as that of a choice that is not optional does. */
  predicate Requiring(t: Menus, n: nat) {
    HasSymbol(t, n) && HasPrompt(t, n) && t.syms[n].value.Var? && t.syms[n].value.id !in t.optional
  }

  /** How a choice value came into its choice: the choice, and the node with which it was found there. */
  datatype Membership = Membership(choice: Symbol, node: nat)

  /** The choice values by their ids, and the ids of the values of each choice in the order in which they joined. */
  datatype Members = Members(valueOf: map<nat, Membership>, lists: map<nat, seq<nat>>)

  const NOBODY := Members(map[], map[])

  function ListOf(m: Members, c: nat): seq<nat> { if c in m.lists then m.lists[c] else [] }

  /** The symbol of node n, found in the list of node p, becomes a choice value. */
  predicate Joins(t: Menus, m: Members, p: nat, n: nat) {
    IsChoice(t, p) && HasSymbol(t, n) && t.syms[n].value.Var? && t.syms[n].value.id !in m.valueOf
  }

  function Join(t: Menus, m: Members, p: nat, n: nat): Members {
    if Joins(t, m, p, n) then
      var c, s := t.syms[p].value, t.syms[n].value.id;
      Members(m.valueOf[s := Membership(c, n)], m.lists[c.id := ListOf(m, c.id) + [s]])
    else m
  }

  /** The same for all entries of `f`, one after the other. */
  function JoinAll(t: Menus, m: Members, p: nat, f: Forest): Members
    decreases f
  {
    if f.Nil? then m else JoinAll(t, Join(t, m, p, f.id), p, f.rest)
  }

  /** No choice value has been found with node n. */
  predicate Unjoined(m: Members, n: nat) { forall s :: s in m.valueOf ==> m.valueOf[s].node != n }

  /** The list of a choice holds its values and nothing else, none of them twice; every choice value has been found at a
      node of its own symbol. */
  ghost predicate Consistent(t: Menus, m: Members) {
    && (forall s, c :: s in ListOf(m, c) <==> s in m.valueOf && m.valueOf[s].choice.Var? && m.valueOf[s].choice.id == c)
    && (forall c :: NoRepeat(ListOf(m, c)))
    && (forall s :: s in m.valueOf ==> FoundAt(t, m, s))
  }

  predicate FoundAt(t: Menus, m: Members, s: nat)
    requires s in m.valueOf
  {
    var v := m.valueOf[s];
    && v.choice.Var? && v.choice.id in t.choices
    && HasSymbol(t, v.node) && t.syms[v.node].value.Var? && t.syms[v.node].value.id == s
  }

  lemma JoinConsistent(t: Menus, m: Members, p: nat, n: nat)
    requires Consistent(t, m)
    ensures Consistent(t, Join(t, m, p, n))
  {
    if Joins(t, m, p, n) {
      var c, s := t.syms[p].value, t.syms[n].value.id;
      var k := Join(t, m, p, n);
      assert s !in ListOf(m, c.id);
      NoRepeatStep(ListOf(m, c.id), s);
      assert forall d :: ListOf(k, d) == if d == c.id then ListOf(m, d) + [s] else ListOf(m, d);
      forall x | x in k.valueOf ensures FoundAt(t, k, x) { if x != s { assert FoundAt(t, m, x); } }
    }
  }

  lemma {:induction false} JoinAllConsistent(t: Menus, m: Members, p: nat, f: Forest)
    requires Consistent(t, m)
    ensures Consistent(t, JoinAll(t, m, p, f))
    decreases f
  {
    if f.Entry? {
      JoinConsistent(t, m, p, f.id);
      JoinAllConsistent(t, Join(t, m, p, f.id), p, f.rest);
    }
  }

  /** One entry more. */
  lemma {:induction false} JoinAllNext(t: Menus, m: Members, p: nat, f: Forest, id: nat, kids: Forest)
    ensures JoinAll(t, m, p, Append(f, Entry(id, kids, Nil))) == Join(t, JoinAll(t, m, p, f), p, id)
    decreases f
  {
    if f.Entry? { JoinAllNext(t, Join(t, m, p, f.id), p, f.rest, id, kids); }
  }

  /** Choice values stay what they are, and new ones are found in `nodes`. */
  predicate Grown(m: Members, k: Members, nodes: set<nat>) {
    && (forall s :: s in m.valueOf ==> s in k.valueOf && k.valueOf[s] == m.valueOf[s])
    && (forall s :: s in k.valueOf && s !in m.valueOf ==> k.valueOf[s].node in nodes)
  }

  lemma {:induction false} JoinAllGrown(t: Menus, m: Members, p: nat, f: Forest)
    ensures Grown(m, JoinAll(t, m, p, f), Tops(f))
    decreases f
  {
    if f.Entry? { JoinAllGrown(t, Join(t, m, p, f.id), p, f.rest); }
  }

  /** The symbols of the entries that are not among `known`, each once, in the order of the entries. */
  function Newcomers(t: Menus, known: set<nat>, f: Forest): seq<nat>
    decreases f
  {
    if f.Nil? then []
    else if HasSymbol(t, f.id) && t.syms[f.id].value.Var? && t.syms[f.id].value.id !in known then
      [t.syms[f.id].value.id] + Newcomers(t, known + {t.syms[f.id].value.id}, f.rest)
    else Newcomers(t, known, f.rest)
  }

  /** A choice gets the symbols of its entries that are not values of any choice yet, in the order in which they stand
      in its list; the lists of other choices stay what they were. */
  lemma {:induction false} JoinAllOrdered(t: Menus, m: Members, p: nat, f: Forest, c: nat)
    ensures ListOf(JoinAll(t, m, p, f), c) ==
            ListOf(m, c) + if IsChoice(t, p) && c == t.syms[p].value.id then Newcomers(t, m.valueOf.Keys, f) else []
    decreases f
  {
    if f.Entry? {
      var first := Join(t, m, p, f.id);
      JoinAllOrdered(t, first, p, f.rest, c);
      if Joins(t, m, p, f.id) {
        var s := t.syms[f.id].value.id;
        assert first.valueOf.Keys == m.valueOf.Keys + {s};
        assert ListOf(first, c) == if c == t.syms[p].value.id then ListOf(m, c) + [s] else ListOf(m, c);
      }
    }
  }

  /** The symbol of node n, if it has one, is a choice value. */
  predicate IsValue(t: Menus, m: Members, n: nat) {
    HasSymbol(t, n) && t.syms[n].value.Var? ==> t.syms[n].value.id in m.valueOf
  }

  /** All entries in the list of a choice are choice values, throughout `f`. */
  predicate Filled(t: Menus, m: Members, f: Forest) {
    f.Entry? ==> Listed(t, m, f.id, f.kids) && Filled(t, m, f.kids) && Filled(t, m, f.rest)
  }

  predicate Listed(t: Menus, m: Members, p: nat, kids: Forest) {
    IsChoice(t, p) ==> forall n :: n in Tops(kids) ==> IsValue(t, m, n)
  }

  lemma {:induction false} JoinAllListed(t: Menus, m: Members, p: nat, f: Forest)
    ensures Listed(t, JoinAll(t, m, p, f), p, f)
    decreases f
  {
    if f.Entry? {
      var k := Join(t, m, p, f.id);
      JoinAllListed(t, k, p, f.rest);
      JoinAllGrown(t, k, p, f.rest);
      assert IsChoice(t, p) ==> IsValue(t, k, f.id);
    }
  }

  lemma {:induction false} FilledGrown(t: Menus, m: Members, k: Members, nodes: set<nat>, f: Forest)
    requires Filled(t, m, f) && Grown(m, k, nodes)
    ensures Filled(t, k, f)
    decreases f
  {
    if f.Entry? {
      FilledGrown(t, m, k, nodes, f.kids);
      FilledGrown(t, m, k, nodes, f.rest);
    }
  }

  lemma {:induction false} FilledAppend(t: Menus, m: Members, f: Forest, g: Forest)
    ensures Filled(t, m, Append(f, g)) <==> Filled(t, m, f) && Filled(t, m, g)
    decreases f
  {
    if f.Entry? { FilledAppend(t, m, f.rest, g); }
  }

  /** Flattening keeps that. */
  lemma {:induction false} FilledFlattened(t: Menus, m: Members, f: Forest)
    requires Filled(t, m, f)
    ensures Filled(t, m, Flattened(t, f))
    decreases NodeCount(f)
  {
    if f.Entry? {
      AppendPreorder(f.kids, f.rest);
      if f.kids.Entry? && !HasPrompt(t, f.id) {
        FilledAppend(t, m, f.kids, f.rest);
        FilledFlattened(t, m, Append(f.kids, f.rest));
      } else {
        FilledFlattened(t, m, f.rest);
      }
    }
  }

  // ----- the condition that a choice value gets on top

  /** Choice values that are not tristate, of a choice that is, depend on the choice being y. */
  predicate NeedsYes(c: Symbol, s: Symbol) { c.Type().Tristate? && !s.Type().Tristate? }

  /** The choice that node n depends on being y. */
  function Gate(t: Menus, m: Members, n: nat): Option<Symbol> {
    if HasSymbol(t, n) && t.syms[n].value.Var? && t.syms[n].value.id in m.valueOf then
      var v := m.valueOf[t.syms[n].value.id];
      if v.node == n && NeedsYes(v.choice, t.syms[n].value) then Some(v.choice) else None
    else None
  }

  /** A condition of node n, its own or that of a property, together with that. */
  function Gated(t: Menus, m: Members, n: nat, e: Option<Expr>): Option<Expr> {
    var c := Gate(t, m, n);
    if c.Some? then AndOpt(Some(Cmp(Equal, c.value, SymYes)), e) else e
  }

  /** It is worth what it was if there is no such choice or it is y, and n otherwise. */
  lemma GatedValue(t: Menus, m: Members, n: nat, e: Option<Expr>, env: Env)
    requires ValidEnv(env)
    ensures var c := Gate(t, m, n);
            CalcOpt(Gated(t, m, n, e), env) ==
            if c.None? || TriOf(env, c.value) == YES then CalcOpt(e, env) else NO
  {
    var c := Gate(t, m, n);
    if c.Some? {
      var test := Cmp(Equal, c.value, SymYes);
      BuiltinCompare(c.value, SymYes, env);
      assert Calc(test, env) == FromBool(TriOf(env, c.value) == YES);
      if e.Some? { assert Calc(Conj(test, e.value), env) == And(Calc(test, env), Calc(e.value, env)); }
    }
  }

  /** A node is gated exactly if its symbol was found to be a choice value there and does not have the type that
      the choice has; no two nodes are gated for the same symbol. */
  lemma GateSites(t: Menus, m: Members, n: nat, k: nat)
    requires Consistent(t, m) && Gate(t, m, n).Some?
    ensures t.syms[n].value.id in ListOf(m, Gate(t, m, n).value.id)
    ensures Gate(t, m, k).Some? && t.syms[k] == t.syms[n] ==> k == n
  {
  }

  /** A symbol that is not tristate, found at node n to be a value of a tristate choice, is hidden there unless the
      choice is y; every other condition of a node stays what it was. */
  lemma GateExactly(t: Menus, m: Members, n: nat, e: Option<Expr>, c: Symbol, env: Env)
    requires ValidEnv(env)
    ensures HasSymbol(t, n) && t.syms[n].value.Var? && t.syms[n].value.id in m.valueOf &&
            m.valueOf[t.syms[n].value.id] == Membership(c, n) && c.Type().Tristate? &&
            !t.syms[n].value.Type().Tristate? ==>
              CalcOpt(Gated(t, m, n, e), env) == if TriOf(env, c) == YES then CalcOpt(e, env) else NO
    ensures (forall s :: s in m.valueOf && m.valueOf[s].node == n && HasSymbol(t, n) && t.syms[n].value.Var? &&
                         t.syms[n].value.id == s ==>
                           !m.valueOf[s].choice.Type().Tristate? || t.syms[n].value.Type().Tristate?) ==>
              Gated(t, m, n, e) == e
  {
    GatedValue(t, m, n, e, env);
  }

  lemma UnjoinedUngated(t: Menus, m: Members, n: nat, e: Option<Expr>)
    requires Unjoined(m, n)
    ensures Gated(t, m, n, e) == e
  {
  }
}
