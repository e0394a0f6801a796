/** The shape of the finalised menu tree: which entries are drawn into automatic submenus, and which give up their
    children. */
module MenuShape {
  import opened Tristate
  import opened Expressions
  import opened Symbols
  import opened MenuForest
  import opened MenuDeps

  /** The expressions of all nodes and of all symbols. `props[n]` are the properties defined at node n. */
  datatype MenuData = MenuData(
    dep: seq<Option<Expr>>,
    props: seq<seq<Prop>>,
    dirDep: seq<Option<Expr>>,
    revDep: seq<Option<Expr>>,
    implied: seq<Option<Expr>>)

  // ----- which part of a forest a step has dealt with

  predicate SuffixOf(g: Forest, f: Forest) { g == f || (f.Entry? && SuffixOf(g, f.rest)) }

  /** The nodes below the top-level entries of `f` in front of `g`. */
  function DeepUpTo(f: Forest, g: Forest): set<nat>
    decreases f
  {
    if f == g || f.Nil? then {} else Ids(f.kids) + DeepUpTo(f.rest, g)
  }

  function Deep(f: Forest): set<nat> { if f.Nil? then {} else Ids(f.kids) + Deep(f.rest) }

  lemma {:induction false} SuffixTransitive(a: Forest, b: Forest, c: Forest)
    requires SuffixOf(a, b) && SuffixOf(b, c)
    ensures SuffixOf(a, c)
    decreases c
  {
    if b != c { SuffixTransitive(a, b, c.rest); }
  }

  lemma {:induction false} SuffixFacts(g: Forest, f: Forest)
    requires SuffixOf(g, f)
    ensures NodeCount(g) <= NodeCount(f) && Ids(g) <= Ids(f) && Deep(g) <= Deep(f) && Tops(g) <= Tops(f)
    ensures Deep(f) == DeepUpTo(f, g) + Deep(g)
    ensures Distinct(f) ==> Distinct(g) && DeepUpTo(f, g) !! Ids(g)
    decreases f
  {
    if g != f {
      SuffixFacts(g, f.rest);
    }
  }

  lemma {:induction false} DeepInIds(f: Forest)
    ensures Deep(f) <= Ids(f) && Ids(f) == Tops(f) + Deep(f)
    ensures Distinct(f) ==> Tops(f) !! Deep(f)
  {
    if f.Entry? {
      DeepInIds(f.rest);
      TopsInIds(f.rest);
    }
  }

  lemma {:induction false} DeepUpToCompose(f: Forest, g: Forest, h: Forest)
    requires SuffixOf(g, f) && SuffixOf(h, g)
    ensures DeepUpTo(f, h) == DeepUpTo(f, g) + DeepUpTo(g, h)
    decreases f
  {
    if f != g {
      DeepUpToCompose(f.rest, g, h);
      SuffixFacts(h, g);
      SuffixFacts(g, f.rest);
    }
  }

  /** Moving over one more entry at the top level. */
  lemma TopsStep(g: Forest, cur: Forest, tops: set<nat>)
    requires SuffixOf(cur, g) && cur.Entry? && Distinct(g) && Tops(g) == tops + Tops(cur) && tops !! Tops(cur)
    ensures SuffixOf(cur.rest, g) && cur.id in Tops(g) && cur.id in Ids(g) && cur.id !in tops
    ensures Tops(g) == tops + {cur.id} + Tops(cur.rest) && tops + {cur.id} !! Tops(cur.rest)
  {
    SuffixFacts(cur, g);
    SuffixTransitive(cur.rest, cur, g);
    TopsInIds(cur.rest);
    TopsInIds(g);
  }

  // ----- which entries belong into a submenu

  /** The symbol of each node, and where among its properties its prompt is; which symbols are choices, and which are
      flagged as optional. */
  datatype Menus = Menus(syms: seq<Option<Symbol>>, prompt: seq<Option<nat>>, choices: set<nat>, optional: set<nat>)

  predicate HasPrompt(t: Menus, n: nat) { n < |t.prompt| && t.prompt[n].Some? }

  /** The condition of the prompt of node n; `otherwise` without a prompt. */
  function PromptOr(t: Menus, d: MenuData, n: nat, otherwise: Option<Expr>): Option<Expr> {
    if HasPrompt(t, n) && n < |d.props| && t.prompt[n].value < |d.props[n]| then d.props[n][t.prompt[n].value].visible
    else otherwise
  }

  /** The condition under which node n can be seen. */
  function ItemOf(t: Menus, d: MenuData, n: nat): Option<Expr> {
    PromptOr(t, d, n, if n < |d.dep| then d.dep[n] else None)
  }

  predicate HasSymbol(t: Menus, n: nat) { n < |t.syms| && t.syms[n].Some? }

  /** Node i passes the test for the submenu of node p. */
  predicate Belongs(t: Menus, d: MenuData, p: nat, i: nat) {
    HasSymbol(t, p) && InSubmenu(t.syms[p].value, PromptOr(t, d, p, None), ItemOf(t, d, i))
  }

  /** Whether node n can be seen depends on e: the condition of its prompt, or else that of the node itself. */
  ghost predicate ShownIf(t: Menus, d: MenuData, n: nat, e: Option<Expr>) {
    && n < |t.prompt| && n < |d.props| && n < |d.dep|
    && match t.prompt[n] { case Some(k) => k < |d.props[n]| && e == d.props[n][k].visible case None => e == d.dep[n] }
  }

  /** An entry that belongs to the submenu of a node has a condition that mentions the symbol of the node. If a conjunct
      of it asks for the symbol, or it mentions the symbol and the node has no condition on its prompt, it belongs. */
  lemma EntryBelongs(t: Menus, d: MenuData, p: nat, i: nat, s: Symbol, dep: Option<Expr>)
    requires s.Var? && p < |t.syms| && t.syms[p] == Some(s) && ShownIf(t, d, i, dep)
    ensures Belongs(t, d, p, i) ==> dep.Some? && s in Vars(dep.value)
    ensures dep.Some? ==> forall q :: AskedAt(dep.value, s, q) ==> Belongs(t, d, p, i)
    ensures dep.Some? && s in Vars(dep.value) && p < |t.prompt| && (t.prompt[p].Some? ==> ShownIf(t, d, p, None)) ==>
              Belongs(t, d, p, i)
  {
    hide Vars, AskedAt, InSubmenu;
    SubmenuEntries(s, PromptOr(t, d, p, None), dep);
    assert ItemOf(t, d, i) == dep;
  }

  // ----- the finalised forest

  /** Entries without a prompt give up their children, which follow them. */
  function Flattened(t: Menus, f: Forest): Forest
    decreases NodeCount(f)
  {
    if f.Nil? then Nil
    else if f.kids.Entry? && !HasPrompt(t, f.id) then
      AppendPreorder(f.kids, f.rest);
      Entry(f.id, Nil, Flattened(t, Append(f.kids, f.rest)))
    else Entry(f.id, f.kids, Flattened(t, f.rest))
  }

  /** One step of the flattening loop, behind the entries that are finished. */
  lemma FlattenedNext(t: Menus, done: Forest, cur: Forest)
    requires cur.Entry?
    ensures Append(done, Flattened(t, cur)) ==
            if cur.kids.Entry? && !HasPrompt(t, cur.id)
            then Append(Append(done, Entry(cur.id, Nil, Nil)), Flattened(t, Append(cur.kids, cur.rest)))
            else Append(Append(done, Entry(cur.id, cur.kids, Nil)), Flattened(t, cur.rest))
  {
    AppendEntry(done, cur.id, Nil, Flattened(t, Append(cur.kids, cur.rest)));
    AppendEntry(done, cur.id, cur.kids, Flattened(t, cur.rest));
  }

  /** Node n is in the list itself, or only in blocks without a prompt. */
  predicate Exposed(t: Menus, f: Forest, n: nat) {
    f.Entry? && (n == f.id || (n in Ids(f.kids) && !HasPrompt(t, f.id) && Exposed(t, f.kids, n)) ||
                 Exposed(t, f.rest, n))
  }

  lemma {:induction false} ExposedAppend(t: Menus, f: Forest, g: Forest, n: nat)
    ensures Exposed(t, Append(f, g), n) <==> Exposed(t, f, n) || Exposed(t, g, n)
  {
    if f.Entry? { ExposedAppend(t, f.rest, g, n); }
  }

  lemma {:induction false} ExposedInIds(t: Menus, f: Forest, n: nat)
    requires Exposed(t, f, n)
    ensures n in Ids(f)
  {
    if n != f.id && n !in Ids(f.kids) { ExposedInIds(t, f.rest, n); }
  }

  lemma {:induction false} FlattenedIds(t: Menus, f: Forest)
    ensures Ids(Flattened(t, f)) == Ids(f)
    decreases NodeCount(f)
  {
    if f.Entry? {
      AppendPreorder(f.kids, f.rest);
      AppendIds(f.kids, f.rest);
      if f.kids.Entry? && !HasPrompt(t, f.id) {
        FlattenedIds(t, Append(f.kids, f.rest));
      } else {
        FlattenedIds(t, f.rest);
      }
    }
  }

  /** After flattening, the list holds exactly the entries that were in it or in blocks without a prompt; those of them
      without a prompt have no children any more, and every other entry has the children it had. */
  lemma {:induction false} FlattenedMeaning(t: Menus, f: Forest, n: nat)
    requires Distinct(f) && n in Ids(f)
    ensures n in Ids(Flattened(t, f))
    ensures n in Tops(Flattened(t, f)) <==> Exposed(t, f, n)
    ensures KidsOf(Flattened(t, f), n) == if Exposed(t, f, n) && !HasPrompt(t, n) then Nil else KidsOf(f, n)
    decreases NodeCount(f)
  {
    FlattenedIds(t, f);
    AppendPreorder(f.kids, f.rest);
    AppendDistinct(f.kids, f.rest);
    AppendIds(f.kids, f.rest);
    if f.kids.Entry? && !HasPrompt(t, f.id) {
      var g := Append(f.kids, f.rest);
      FlattenedIds(t, g);
      if n != f.id {
        FlattenedMeaning(t, g, n);
        ExposedAppend(t, f.kids, f.rest, n);
        AppendKids(f.kids, f.rest, n);
        if Exposed(t, f.rest, n) { ExposedInIds(t, f.rest, n); }
        if Exposed(t, f.kids, n) { ExposedInIds(t, f.kids, n); }
      }
    } else {
      FlattenedIds(t, f.rest);
      if n in Ids(f.rest) {
        FlattenedMeaning(t, f.rest, n);
      } else {
        TopsInIds(Flattened(t, f.rest));
        if Exposed(t, f.rest, n) { ExposedInIds(t, f.rest, n); }
      }
    }
  }

  /** The first entry of a chain, finalised but with its own entries not flattened yet, and what is left of the chain
      when its submenu has been drawn from it. */
  function Unflattened(t: Menus, d: MenuData, f: Forest): (h: Forest)
    requires f.Entry?
    ensures h.Entry? && h.id == f.id && SuffixOf(h.rest, f.rest)
    decreases NodeCount(f), 1
  {
    if f.kids.Entry? then Entry(f.id, FinalChain(t, d, f.kids), f.rest)
    else if HasSymbol(t, f.id) then
      var (done, rest) := Submenu(t, d, f.id, f.rest);
      Entry(f.id, done, rest)
    else f
  }

  function FinalEntry(t: Menus, d: MenuData, f: Forest): (h: Forest)
    requires f.Entry?
    ensures h.Entry? && h.id == f.id && SuffixOf(h.rest, f.rest) && NodeCount(h.rest) < NodeCount(f)
    decreases NodeCount(f), 2
  {
    var u := Unflattened(t, d, f);
    SuffixFacts(u.rest, f.rest);
    Entry(u.id, Flattened(t, u.kids), u.rest)
  }

  /** All entries of a chain, one after the other. */
  function FinalChain(t: Menus, d: MenuData, g: Forest): Forest
    decreases NodeCount(g), 3
  {
    if g.Nil? then Nil
    else
      var h := FinalEntry(t, d, g);
      Entry(h.id, h.kids, FinalChain(t, d, h.rest))
  }

  /** The longest run of entries that belong to node p, finalised, and what is left. */
  function Submenu(t: Menus, d: MenuData, p: nat, g: Forest): (r: (Forest, Forest))
    ensures SuffixOf(r.1, g)
    decreases NodeCount(g), 3
  {
    if g.Nil? || !Belongs(t, d, p, g.id) then (Nil, g)
    else
      var h := FinalEntry(t, d, g);
      var (done, rest) := Submenu(t, d, p, h.rest);
      SuffixTransitive(rest, h.rest, g.rest);
      (Entry(h.id, h.kids, done), rest)
  }

  /** The entries of `g` in front of `cur` have become `done`; with an owner, all of them belong to it. */
  predicate DoneAs(t: Menus, d: MenuData, owner: Option<nat>, g: Forest, done: Forest, cur: Forest)
    decreases NodeCount(g)
  {
    if g == cur then done.Nil?
    else
      && g.Entry? && done.Entry? && (owner.Some? ==> Belongs(t, d, owner.value, g.id))
      && var h := FinalEntry(t, d, g);
         done.id == h.id && done.kids == h.kids && DoneAs(t, d, owner, h.rest, done.rest, cur)
  }

  /** An entry that was written as a block keeps its first child; any other one draws in the entry behind it exactly
      if it has a symbol and that entry belongs to it. */
  lemma DrawsNext(t: Menus, d: MenuData, f: Forest)
    requires f.Entry?
    ensures var h := FinalEntry(t, d, f);
            && (f.kids.Entry? ==> h.kids.Entry? && h.kids.id == f.kids.id && h.rest == f.rest)
            && (f.kids.Nil? ==>
                  (h.kids.Entry? <==> f.rest.Entry? && HasSymbol(t, f.id) && Belongs(t, d, f.id, f.rest.id)) &&
                  (h.kids.Entry? ==> h.kids.id == f.rest.id) && (h.kids.Nil? ==> h.rest == f.rest))
  {
    hide Belongs;
    var u := Unflattened(t, d, f);
    FirstStays(t, u.kids);
    if f.kids.Entry? {
      assert u == Entry(f.id, FinalChain(t, d, f.kids), f.rest);
      assert FinalChain(t, d, f.kids).id == FinalEntry(t, d, f.kids).id;
    } else if HasSymbol(t, f.id) {
      assert u == Entry(f.id, Submenu(t, d, f.id, f.rest).0, Submenu(t, d, f.id, f.rest).1);
    }
  }

  lemma FirstStays(t: Menus, f: Forest)
    ensures Flattened(t, f).Entry? <==> f.Entry?
    ensures f.Entry? ==> Flattened(t, f).id == f.id
  {
  }

  predicate SameNodes(d: MenuData, e: MenuData, ids: set<nat>) {
    && |d.dep| == |e.dep| && |d.props| == |e.props|
    && (forall i :: i in ids && i < |d.dep| ==> d.dep[i] == e.dep[i])
    && (forall i :: i in ids && i < |d.props| ==> d.props[i] == e.props[i])
  }

  lemma BelongsFrame(t: Menus, d: MenuData, e: MenuData, p: nat, i: nat)
    requires SameNodes(d, e, {p, i})
    ensures Belongs(t, d, p, i) == Belongs(t, e, p, i)
  {
  }

  /** The shape depends on the conditions of the chain and of what has been finalised only. */
  lemma {:induction false} UnflattenedFrame(t: Menus, d: MenuData, e: MenuData, f: Forest)
    requires f.Entry? && SameNodes(d, e, Tops(f) + DeepUpTo(f, Unflattened(t, d, f).rest))
    ensures Unflattened(t, e, f) == Unflattened(t, d, f)
    decreases NodeCount(f), 1
  {
    if f.kids.Entry? {
      DeepInIds(f.kids);
      FinalChainFrame(t, d, e, f.kids);
    } else if HasSymbol(t, f.id) {
      var rest := Unflattened(t, d, f).rest;
      SuffixFacts(rest, f.rest);
      assert DeepUpTo(f, rest) == DeepUpTo(f.rest, rest);
      SubmenuFrame(t, d, e, f.id, f.rest);
    }
  }

  lemma FinalEntryFrame(t: Menus, d: MenuData, e: MenuData, f: Forest)
    requires f.Entry? && SameNodes(d, e, Tops(f) + DeepUpTo(f, FinalEntry(t, d, f).rest))
    ensures FinalEntry(t, e, f) == FinalEntry(t, d, f)
    decreases NodeCount(f), 2
  {
    UnflattenedFrame(t, d, e, f);
  }

  lemma {:induction false} FinalChainFrame(t: Menus, d: MenuData, e: MenuData, g: Forest)
    requires SameNodes(d, e, Ids(g))
    ensures FinalChain(t, e, g) == FinalChain(t, d, g)
    decreases NodeCount(g), 3
  {
    if g.Entry? {
      var h := FinalEntry(t, d, g);
      PrefixIds(g, h.rest);
      FinalEntryFrame(t, d, e, g);
      FinalChainFrame(t, d, e, h.rest);
    }
  }

  lemma PrefixIds(g: Forest, rest: Forest)
    requires g.Entry? && SuffixOf(rest, g.rest)
    ensures Tops(g) + DeepUpTo(g, rest) <= Ids(g) && Ids(rest) <= Ids(g) && SuffixOf(rest, g)
  {
    SuffixTransitive(rest, g.rest, g);
    SuffixFacts(rest, g);
    DeepInIds(g);
  }

  /** What finalising the entry `cur` changes is not what the shape of the entries in front of it depends on. */
  lemma ShapeApart(g: Forest, cur: Forest, rest: Forest)
    requires cur.Entry? && SuffixOf(cur, g) && SuffixOf(rest, cur) && Distinct(g)
    ensures Tops(g) + DeepUpTo(g, cur) !! DeepUpTo(cur, rest)
    ensures DeepUpTo(cur, rest) <= Ids(g) && cur.id in Tops(g) && cur.id in Ids(g)
  {
    SuffixFacts(cur, g);
    SuffixFacts(rest, cur);
    DeepInIds(g);
    DeepInIds(cur);
    assert DeepUpTo(cur, rest) <= Deep(cur) <= Deep(g) && Deep(cur) <= Ids(cur);
  }

  lemma {:induction false} SubmenuFrame(t: Menus, d: MenuData, e: MenuData, p: nat, g: Forest)
    requires SameNodes(d, e, {p} + Tops(g) + DeepUpTo(g, Submenu(t, d, p, g).1))
    ensures Submenu(t, e, p, g) == Submenu(t, d, p, g)
    decreases NodeCount(g), 3
  {
    if g.Entry? {
      BelongsFrame(t, d, e, p, g.id);
      if Belongs(t, d, p, g.id) {
        var h := FinalEntry(t, d, g);
        var rest := Submenu(t, d, p, h.rest).1;
        SuffixTransitive(h.rest, g.rest, g);
        SuffixFacts(h.rest, g);
        DeepUpToCompose(g, h.rest, rest);
        FinalEntryFrame(t, d, e, g);
        SubmenuFrame(t, d, e, p, h.rest);
      }
    }
  }

  lemma {:induction false} DoneFrame(t: Menus, d: MenuData, e: MenuData, owner: Option<nat>, g: Forest, done: Forest,
                                     cur: Forest)
    requires DoneAs(t, d, owner, g, done, cur) && SuffixOf(cur, g)
    requires SameNodes(d, e, (if owner.Some? then {owner.value} else {}) + Tops(g) + DeepUpTo(g, cur))
    ensures DoneAs(t, e, owner, g, done, cur)
    decreases NodeCount(g)
  {
    hide Belongs, Ids, FinalEntry, Deep, Distinct;
    if g != cur {
      var h := FinalEntry(t, d, g);
      SuffixTransitive(h.rest, g.rest, g);
      SuffixFacts(h.rest, g);
      DoneSuffix(t, d, owner, h.rest, done.rest, cur);
      DeepUpToCompose(g, h.rest, cur);
      FinalEntryFrame(t, d, e, g);
      if owner.Some? { BelongsFrame(t, d, e, owner.value, g.id); }
      DoneFrame(t, d, e, owner, h.rest, done.rest, cur);
    }
  }

  lemma {:induction false} DoneSuffix(t: Menus, d: MenuData, owner: Option<nat>, g: Forest, done: Forest, cur: Forest)
    requires DoneAs(t, d, owner, g, done, cur)
    ensures SuffixOf(cur, g)
    decreases NodeCount(g)
  {
    if g != cur {
      var h := FinalEntry(t, d, g);
      DoneSuffix(t, d, owner, h.rest, done.rest, cur);
      SuffixTransitive(cur, h.rest, g.rest);
    }
  }

  lemma DoneStart(t: Menus, d: MenuData, owner: Option<nat>, g: Forest)
    ensures DoneAs(t, d, owner, g, Nil, g)
  {
  }

  /** One entry more. */
  lemma {:induction false} DoneNext(t: Menus, d: MenuData, owner: Option<nat>, g: Forest, done: Forest, cur: Forest)
    requires DoneAs(t, d, owner, g, done, cur) && cur.Entry? && (owner.Some? ==> Belongs(t, d, owner.value, cur.id))
    ensures var h := FinalEntry(t, d, cur);
            DoneAs(t, d, owner, g, Append(done, Entry(h.id, h.kids, Nil)), h.rest)
    decreases NodeCount(g)
  {
    var h := FinalEntry(t, d, cur);
    if g == cur {
      assert DoneAs(t, d, owner, h.rest, Nil, h.rest);
    } else {
      var first := FinalEntry(t, d, g);
      DoneNext(t, d, owner, first.rest, done.rest, cur);
      DoneSuffix(t, d, owner, first.rest, done.rest, cur);
      SuffixFacts(cur, first.rest);
    }
  }

  /** At the end of the chain it is the finalised chain. */
  lemma {:induction false} DoneChain(t: Menus, d: MenuData, g: Forest, done: Forest)
    requires DoneAs(t, d, None, g, done, Nil)
    ensures done == FinalChain(t, d, g)
    decreases NodeCount(g)
  {
    if g.Entry? { DoneChain(t, d, FinalEntry(t, d, g).rest, done.rest); }
  }

  /** At the first entry that does not belong it is the submenu. */
  lemma {:induction false} DoneSubmenu(t: Menus, d: MenuData, p: nat, g: Forest, done: Forest, cur: Forest)
    requires DoneAs(t, d, Some(p), g, done, cur) && (cur.Nil? || !Belongs(t, d, p, cur.id))
    ensures Submenu(t, d, p, g) == (done, cur)
    decreases NodeCount(g)
  {
    if g != cur { DoneSubmenu(t, d, p, FinalEntry(t, d, g).rest, done.rest, cur); }
  }

  /** The submenu of a node is the one run of entries that all belong to it and that ends at the end of the list or at
      an entry that does not. */
  lemma {:induction false} SubmenuIsLongest(t: Menus, d: MenuData, p: nat, g: Forest, done: Forest, cur: Forest)
    ensures Submenu(t, d, p, g) == (done, cur) <==>
            DoneAs(t, d, Some(p), g, done, cur) && (cur.Nil? || !Belongs(t, d, p, cur.id))
    decreases NodeCount(g)
  {
    if Submenu(t, d, p, g) == (done, cur) {
      if g.Entry? && Belongs(t, d, p, g.id) {
        var h := FinalEntry(t, d, g);
        SubmenuIsLongest(t, d, p, h.rest, done.rest, cur);
        SuffixFacts(cur, h.rest);
        assert g != cur;
      }
    } else if DoneAs(t, d, Some(p), g, done, cur) && (cur.Nil? || !Belongs(t, d, p, cur.id)) {
      DoneSubmenu(t, d, p, g, done, cur);
    }
  }
}
