/** `menu_finalize`: hands conditions down, builds automatic submenus, fills choices and flattens `if` blocks, by
    relinking the menu nodes in place. The condition that a choice value gets on top (`Gated`) is kept apart from the
    one it was handed, which is what `data` holds. */
module MenuFinalize {
  import opened Tristate
  import opened Expressions
  import opened Symbols
  import opened MenuForest
  import opened MenuDeps
  import opened MenuShape
  import opened MenuChoices

  // ----- what the symbols collect

  /** The condition under which a property located at `node` selects or implies its target. */
  function Selecting(syms: seq<Option<Symbol>>, node: nat, p: Prop): Option<Expr>
    requires node < |syms| && syms[node].Some?
  {
    AndOpt(Some(Sym(syms[node].value)), p.visible)
  }

  predicate Targets(p: Prop, kind: PropKind, s: nat) {
    p.kind == kind && p.expr.Some? && p.expr.value.Sym? && p.expr.value.sym.Var? && p.expr.value.sym.id == s
  }

  /** What one property of a node adds to the reverse dependencies of symbol s. */
  function AddProp(syms: seq<Option<Symbol>>, node: nat, p: Prop, kind: PropKind, s: nat,
                   acc: Option<Expr>): Option<Expr>
    requires node < |syms|
  {
    if syms[node].Some? && Targets(p, kind, s) then OrOpt(acc, Selecting(syms, node, p)) else acc
  }

  /** What the first k properties of a node add. */
  function AddProps(syms: seq<Option<Symbol>>, node: nat, props: seq<Prop>, k: nat, kind: PropKind, s: nat,
                    acc: Option<Expr>): Option<Expr>
    requires node < |syms| && k <= |props|
  {
    if k == 0 then acc
    else AddProp(syms, node, props[k - 1], kind, s, AddProps(syms, node, props, k - 1, kind, s, acc))
  }

  // ----- the order in which the reverse dependencies grow

  /** A node has inherited, and its properties have been looked at; or its prompt has forced its symbol to be set. */
  datatype Step = Inherited(node: nat) | Required(node: nat)

  /** A visible prompt that requires its symbol selects it as m. */
  function Requirement(t: Menus, props: seq<Prop>, n: nat): Option<Expr> {
    var visible := if HasPrompt(t, n) && t.prompt[n].value < |props| then props[t.prompt[n].value].visible else None;
    AndOpt(visible, Some(Sym(SymMod)))
  }

  /** What one step adds to the reverse dependencies of symbol s. */
  function AddStep(t: Menus, props: seq<seq<Prop>>, step: Step, kind: PropKind, s: nat, acc: Option<Expr>): Option<Expr>
    requires |props| == |t.syms| && step.node < |t.syms|
  {
    match step
    case Inherited(n) => AddProps(t.syms, n, props[n], |props[n]|, kind, s, acc)
    case Required(n) =>
      if kind.Select? && Requiring(t, n) && t.syms[n].value.id == s then OrOpt(acc, Requirement(t, props[n], n))
      else acc
  }

  predicate StepsIn(t: Menus, order: seq<Step>) { forall i :: 0 <= i < |order| ==> order[i].node < |t.syms| }

  /** The reverse dependencies of symbol s after the steps in `order`. */
  function Collected(t: Menus, props: seq<seq<Prop>>, order: seq<Step>, kind: PropKind, s: nat): Option<Expr>
    requires |props| == |t.syms| && StepsIn(t, order)
  {
    if order == [] then None
    else AddStep(t, props, order[|order| - 1], kind, s, Collected(t, props, order[..|order| - 1], kind, s))
  }

  /** The direct dependencies of symbol s from the nodes in `order`. */
  function Direct(syms: seq<Option<Symbol>>, dep: seq<Option<Expr>>, order: seq<nat>, s: nat): Option<Expr>
    requires |dep| == |syms| && forall i :: 0 <= i < |order| ==> order[i] < |syms|
  {
    if order == [] then None
    else
      var n := order[|order| - 1];
      var before := Direct(syms, dep, order[..|order| - 1], s);
      if syms[n].Some? && syms[n].value.Var? && syms[n].value.id == s then OrOpt(before, dep[n]) else before
  }

  lemma {:induction false} CollectedFrame(t: Menus, p1: seq<seq<Prop>>, p2: seq<seq<Prop>>, order: seq<Step>,
                                          kind: PropKind, s: nat)
    requires |p1| == |p2| == |t.syms| && StepsIn(t, order)
    requires forall i :: 0 <= i < |order| ==> p1[order[i].node] == p2[order[i].node]
    ensures Collected(t, p1, order, kind, s) == Collected(t, p2, order, kind, s)
  {
    if order != [] { CollectedFrame(t, p1, p2, order[..|order| - 1], kind, s); }
  }

  lemma {:induction false} DirectFrame(syms: seq<Option<Symbol>>, d1: seq<Option<Expr>>, d2: seq<Option<Expr>>,
                                       order: seq<nat>, s: nat)
    requires |d1| == |d2| == |syms| && forall i :: 0 <= i < |order| ==>
             order[i] < |syms| && d1[order[i]] == d2[order[i]]
    ensures Direct(syms, d1, order, s) == Direct(syms, d2, order, s)
  {
    if order != [] { DirectFrame(syms, d1, d2, order[..|order| - 1], s); }
  }

  /** One node more inherits, whose properties have just been replaced. */
  lemma CollectedStep(t: Menus, before: seq<seq<Prop>>, n: nat, target: seq<Prop>, order: seq<Step>, kind: PropKind,
                      s: nat)
    requires |before| == |t.syms| && n < |t.syms| && Inherited(n) !in order && Required(n) !in order &&
             StepsIn(t, order)
    ensures Collected(t, before[n := target], order + [Inherited(n)], kind, s) ==
            AddProps(t.syms, n, target, |target|, kind, s, Collected(t, before, order, kind, s))
  {
    var next := order + [Inherited(n)];
    assert next[..|order|] == order && next[|order|] == Inherited(n);
    forall i | 0 <= i < |order| ensures order[i].node != n { assert order[i] in order; }
    CollectedFrame(t, before[n := target], before, order, kind, s);
  }

  // ----- the tree

  /** The state of a menu tree at one moment. */
  datatype Snap = Snap(links: Links, data: MenuData, joined: Members, log: seq<nat>, order: seq<Step>, direct: seq<nat>)

  /** Every symbol is in the table of symbols, and every prompt is a property of its node. */
  predicate Fits(t: Menus, d: MenuData) {
    && |d.dep| == |d.props| == |t.syms| == |t.prompt| && |d.dirDep| == |d.revDep| == |d.implied|
    && (forall n :: 0 <= n < |t.syms| && t.syms[n].Some? ==> t.syms[n].value.Var? && t.syms[n].value.id < |d.dirDep|)
    && (forall n :: 0 <= n < |t.prompt| && t.prompt[n].Some? ==> t.prompt[n].value < |d.props[n]|)
  }

  /** No symbol depends on anything yet. */
  predicate Bare(d: MenuData) {
    && |d.dirDep| == |d.revDep| == |d.implied|
    && forall s :: 0 <= s < |d.dirDep| ==> d.dirDep[s] == None && d.revDep[s] == None && d.implied[s] == None
  }

  /** The nodes that have children. */
  function Blocks(f: Forest): set<nat> {
    if f.Nil? then {} else (if f.kids.Entry? then {f.id} else {}) + Blocks(f.kids) + Blocks(f.rest)
  }

  lemma {:induction false} BlocksInIds(f: Forest)
    ensures Blocks(f) <= Ids(f)
  {
    if f.Entry? { BlocksInIds(f.kids); BlocksInIds(f.rest); }
  }

  class MenuTree {
    /** The modules symbol, the symbol of each node, where among its properties its prompt is, and the symbols that
        are choices and that are optional. */
    const modules: Symbol
    const syms: seq<Option<Symbol>>
    const prompt: seq<Option<nat>>
    const choices: set<nat>
    const optional: set<nat>
    /** The expressions as they were parsed, and the nodes that had children then. */
    ghost const initial: MenuData
    ghost const blocks: set<nat>
    var links: Links
    var data: MenuData
    /** The choice values found so far. */
    var joined: Members
    /** The nodes in the order in which they were finalised; the steps by which reverse dependencies have grown; and the
        nodes in the order in which they added to the direct dependencies of their symbol. */
    ghost var log: seq<nat>
    ghost var order: seq<Step>
    ghost var direct: seq<nat>

    /** The tree as it was parsed: `f` is what the pointers lead to. */
    constructor (modules: Symbol, t: Menus, parsed: MenuData, pointers: Links, ghost f: Forest)
      requires Sized(pointers) && |pointers.next| == |t.syms| && Fits(t, parsed) && Bare(parsed) && Distinct(f)
      ensures Sane() && Collecting() && Parsed() && ParsedKids(f)
      ensures Shape() == t && this.modules == modules && data == parsed && links == pointers && blocks == Blocks(f)
    {
      this.modules, syms, prompt, choices, optional := modules, t.syms, t.prompt, t.choices, t.optional;
      initial, blocks := parsed, Blocks(f);
      links, data, joined := pointers, parsed, NOBODY;
      log, order, direct := [], [], [];
      new;
      ParsedBlocks(f);
    }

    lemma {:induction false} ParsedBlocks(f: Forest)
      requires Distinct(f) && forall i :: i in Ids(f) ==> (i in blocks <==> i in Blocks(f))
      ensures ParsedKids(f)
      decreases f
    {
      if f.Entry? {
        BlocksInIds(f.kids);
        BlocksInIds(f.rest);
        ParsedBlocks(f.kids);
        ParsedBlocks(f.rest);
      }
    }

    ghost predicate Sane()
      reads this
    {
      && Sized(links) && |links.next| == |syms| && DataSized(initial) && Fits(Shape(), data)
      && (forall i :: 0 <= i < |log| ==> log[i] < |syms|)
      && StepsIn(Shape(), order)
      && (forall i :: 0 <= i < |direct| ==> direct[i] < |syms|)
    }

    ghost predicate DataSized(d: MenuData) {
      |d.dep| == |d.props| == |syms|
    }

    /** Every symbol has collected what the nodes dealt with so far contribute. */
    ghost predicate Collecting()
      reads this
      requires Sane()
    {
      && NoRepeat(order) && NoRepeat(direct) && Consistent(Shape(), joined)
      && forall s :: 0 <= s < |data.dirDep| ==>
                       && data.dirDep[s] == Direct(syms, data.dep, direct, s)
                       && data.revDep[s] == Collected(Shape(), data.props, order, Select, s)
                       && data.implied[s] == Collected(Shape(), data.props, order, Imply, s)
    }

    /** No node of `f` has been finalised, and those below the top level still have what was parsed. */
    ghost predicate Untouched(x: Snap, f: Forest)
      requires DataSized(x.data) && DataSized(initial)
    {
      && (forall i :: i in Ids(f) ==> i < |syms| && i !in x.log && i !in x.direct && Required(i) !in x.order)
      && (forall i :: i in Ids(f) ==> Unjoined(x.joined, i))
      && (forall i :: i in Deep(f) ==> Inherited(i) !in x.order)
      && SameData(initial, x.data, Deep(f))
    }

    /** `f` is as it was parsed. */
    ghost predicate ParsedKids(f: Forest) {
      f.Entry? ==> (f.kids.Entry? <==> f.id in blocks) && ParsedKids(f.kids) && ParsedKids(f.rest)
    }

    /** What the entries of block `up` inherit: the condition of a menu or an if, and a choice itself. */
    function Above(d: MenuData, up: nat): Option<Expr>
      requires |d.dep| == |syms| && up < |syms|
    {
      if IsChoice(Shape(), up) then Some(Sym(syms[up].value)) else d.dep[up]
    }

    /** The properties of an entry below the condition `dep`. */
    function HandedProps(n: nat, dep: Option<Expr>, props: seq<Prop>): (r: seq<Prop>)
      requires n < |syms|
      ensures |r| == |props|
      ensures forall k :: 0 <= k < |props| ==>
                            r[k] == props[k].(visible := InheritProp(dep, props[k].visible, modules, TypeOf(n)))
    {
      seq(|props|, k requires 0 <= k < |props| =>
        props[k].(visible := InheritProp(dep, props[k].visible, modules, TypeOf(n))))
    }

    function TypeOf(n: nat): Option<SymType>
      requires n < |syms|
    {
      if syms[n].Some? then Some(syms[n].value.Type()) else None
    }

    /** Entry n has inherited the condition `above`. */
    ghost predicate HandedTo(d: MenuData, n: nat, above: Option<Expr>)
      requires DataSized(d) && DataSized(initial)
    {
      && n < |syms|
      && d.dep[n] == Inherit(above, initial.dep[n], modules)
      && d.props[n] == HandedProps(n, d.dep[n], initial.props[n])
    }

    /** All entries of `f` have inherited from `up`, and their children from them. */
    ghost predicate Handed(d: MenuData, f: Forest, up: nat)
      requires DataSized(d) && DataSized(initial)
    {
      f.Entry? ==> up < |syms| && HandedTo(d, f.id, Above(d, up)) && Handed(d, f.kids, f.id) && Handed(d, f.rest, up)
    }

    /** The children of the entries of `f` in front of `g` have inherited, and so on down. */
    ghost predicate HandedUpTo(d: MenuData, f: Forest, g: Forest)
      requires DataSized(d) && DataSized(initial)
      decreases f
    {
      f == g || (f.Entry? && Handed(d, f.kids, f.id) && HandedUpTo(d, f.rest, g))
    }

    ghost predicate SameData(d: MenuData, e: MenuData, ids: set<nat>)
      requires DataSized(d) && DataSized(e)
    {
      forall i :: i in ids && i < |syms| ==> d.dep[i] == e.dep[i] && d.props[i] == e.props[i]
    }

    lemma {:induction false} HandedFrame(d: MenuData, e: MenuData, f: Forest, up: nat)
      requires DataSized(d) && DataSized(e) && DataSized(initial)
      requires Handed(d, f, up) && SameData(d, e, Ids(f) + {up})
      ensures Handed(e, f, up)
      decreases f
    {
      if f.Entry? {
        HandedFrame(d, e, f.kids, f.id);
        HandedFrame(d, e, f.rest, up);
      }
    }

    lemma {:induction false} HandedUpToFrame(d: MenuData, e: MenuData, f: Forest, g: Forest)
      requires DataSized(d) && DataSized(e) && DataSized(initial)
      requires HandedUpTo(d, f, g) && SuffixOf(g, f) && SameData(d, e, Tops(f) + DeepUpTo(f, g))
      ensures HandedUpTo(e, f, g)
      decreases f
    {
      if f != g {
        HandedFrame(d, e, f.kids, f.id);
        HandedUpToFrame(d, e, f.rest, g);
      }
    }

    lemma {:induction false} HandedUpToCompose(d: MenuData, f: Forest, g: Forest, h: Forest)
      requires DataSized(d) && DataSized(initial)
      requires HandedUpTo(d, f, g) && HandedUpTo(d, g, h) && SuffixOf(g, f)
      ensures HandedUpTo(d, f, h)
      decreases f
    {
      if f != g { HandedUpToCompose(d, f.rest, g, h); }
    }

    /** Entries that have inherited, and whose children have, all the way to the end. */
    lemma {:induction false} HandedAll(d: MenuData, f: Forest, up: nat)
      requires DataSized(d) && DataSized(initial) && up < |syms|
      requires HandedUpTo(d, f, Nil) && forall i :: i in Tops(f) ==> HandedTo(d, i, Above(d, up))
      ensures Handed(d, f, up)
      decreases f
    {
      if f.Entry? { HandedAll(d, f.rest, up); }
    }

    // ----- the shape of the result

    function Shape(): Menus { Menus(syms, prompt, choices, optional) }

    lemma SameForShape(b: Snap, s: Snap, owner: Option<nat>, g: Forest, cur: Forest, rest: Forest, visited: seq<nat>)
      requires cur.Entry? && SuffixOf(cur, g) && Distinct(g) && SuffixOf(rest, cur) && Stepped(b, s, cur, rest, visited)
      requires owner.Some? ==> owner.value !in Ids(g)
      ensures SameNodes(b.data, s.data, (if owner.Some? then {owner.value} else {}) + Tops(g) + DeepUpTo(g, cur))
      ensures owner.Some? ==> SameNodes(b.data, s.data, {owner.value, cur.id})
    {
      hide Ids, Tops, DeepUpTo, SuffixOf, Distinct;
      ShapeApart(g, cur, rest);
    }

    /** One entry more has been finalised, without touching what the shape of the others depends on. */
    lemma ShapeNext(b: Snap, s: Snap, owner: Option<nat>, g: Forest, done: Forest, cur: Forest, h: Forest,
                    visited: seq<nat>)
      requires DoneAs(Shape(), b.data, owner, g, done, cur) && cur.Entry? && SuffixOf(cur, g) && Distinct(g)
      requires h.Entry? && SuffixOf(h.rest, cur) && Stepped(b, s, cur, h.rest, visited) &&
               h == FinalEntry(Shape(), s.data, cur)
      requires owner.Some? ==> owner.value !in Ids(g) && Belongs(Shape(), b.data, owner.value, cur.id)
      ensures DoneAs(Shape(), s.data, owner, g, Append(done, Entry(h.id, h.kids, Nil)), h.rest)
    {
      hide DoneAs, Belongs, FinalEntry, SameNodes, Stepped, Ids, Tops, DeepUpTo, Distinct;
      SameForShape(b, s, owner, g, cur, h.rest, visited);
      DoneFrame(Shape(), b.data, s.data, owner, g, done, cur);
      if owner.Some? { BelongsFrame(Shape(), b.data, s.data, owner.value, cur.id); }
      DoneNext(Shape(), s.data, owner, g, done, cur);
    }

    // ----- what one step of the finalisation may change

    ghost function Now(): Snap
      reads this
    {
      Snap(links, data, joined, log, order, direct)
    }

    /** From `a` to `b` the entries of `f` in front of `r` have been finalised, visiting `visited`. */
    ghost predicate Stepped(a: Snap, b: Snap, f: Forest, r: Forest, visited: seq<nat>) {
      && SameOutside(a.links, b.links, Ids(f))
      && DataSized(a.data) && DataSized(b.data) && |a.data.dirDep| == |b.data.dirDep|
      && (forall i :: 0 <= i < |syms| && i !in DeepUpTo(f, r) ==>
            a.data.dep[i] == b.data.dep[i] && a.data.props[i] == b.data.props[i])
      && b.log == a.log + visited
      && (forall i :: Inherited(i) in b.order <==> Inherited(i) in a.order || i in DeepUpTo(f, r))
      && (forall i :: i in b.direct <==> i in a.direct || (i in visited && i < |syms| && syms[i].Some? && i !in blocks))
    }

    lemma SteppedCompose(a: Snap, b: Snap, c: Snap, f: Forest, g: Forest, r: Forest, v: seq<nat>, w: seq<nat>)
      requires SuffixOf(g, f) && SuffixOf(r, g)
      requires Stepped(a, b, f, g, v) && Stepped(b, c, g, r, w)
      ensures Stepped(a, c, f, r, v + w)
    {
      SuffixFacts(g, f);
      DeepUpToCompose(f, g, r);
    }

    /** From `a` to `b` the nodes `visited` have required their symbols, and choice values have been found among
        them. */
    ghost predicate Chosen(a: Snap, b: Snap, visited: seq<nat>) {
      && (forall i :: Required(i) in b.order <==> Required(i) in a.order || (i in visited && Requiring(Shape(), i)))
      && Grown(a.joined, b.joined, (set i | i in visited))
    }

    lemma ChosenCompose(a: Snap, b: Snap, c: Snap, v: seq<nat>, w: seq<nat>)
      requires Chosen(a, b, v) && Chosen(b, c, w)
      ensures Chosen(a, c, v + w)
    {
    }

    predicate Prompted(n: nat) { n < |prompt| && prompt[n].Some? }

    /** No entry without a prompt has children. */
    predicate Flat(f: Forest) {
      f.Entry? ==> (f.kids.Entry? ==> Prompted(f.id)) && Flat(f.kids) && Flat(f.rest)
    }

    /** That is so below the top level. */
    predicate FlatBelow(f: Forest) { f.Entry? ==> Flat(f.kids) && FlatBelow(f.rest) }

    // ----- handing conditions down

    /** A select or imply adds its condition to the reverse dependencies of its target. */
    method AddTarget(n: nat, p: Prop)
      requires Sane() && n < |syms|
      modifies this`data
      ensures data == old(data).(revDep := data.revDep, implied := data.implied)
      ensures |data.revDep| == |data.implied| == |old(data.revDep)|
      ensures forall s :: 0 <= s < |data.revDep| ==>
                            && data.revDep[s] == AddProp(syms, n, p, Select, s, old(data.revDep[s]))
                            && data.implied[s] == AddProp(syms, n, p, Imply, s, old(data.implied[s]))
    {
      if syms[n].Some? && p.expr.Some? && p.expr.value.Sym? && p.expr.value.sym.Var? &&
        p.expr.value.sym.id < |data.revDep| {
        var s := p.expr.value.sym.id;
        if p.kind.Select? {
          data := data.(revDep := data.revDep[s := OrOpt(data.revDep[s], Selecting(syms, n, p))]);
        } else if p.kind.Imply? {
          data := data.(implied := data.implied[s := OrOpt(data.implied[s], Selecting(syms, n, p))]);
        }
      }
    }

    /** What the loop over the properties of node n has done after k of them. */
    ghost predicate PropsDone(n: nat, target: seq<Prop>, k: nat, before: MenuData)
      reads this
    {
      && Sane() && DataSized(before) && n < |syms| && |before.props[n]| == |target| && k <= |target|
      && NoRepeat(order) && NoRepeat(direct) && data.dep == before.dep && data.dirDep == before.dirDep
      && data.props == before.props[n := target[..k] + before.props[n][k..]]
      && forall s :: 0 <= s < |data.dirDep| ==>
                       && data.revDep[s] ==
                          AddProps(syms, n, target, k, Select, s, Collected(Shape(), before.props, order, Select, s))
                       && data.implied[s] ==
                          AddProps(syms, n, target, k, Imply, s, Collected(Shape(), before.props, order, Imply, s))
    }

    /** The loop over the properties of a child. */
    method InheritProps(n: nat)
      requires Sane() && Collecting() && n < |syms| && Fresh(n)
      modifies this`data, this`order
      ensures Sane() && Collecting() && order == old(order) + [Inherited(n)]
      ensures data.dep == old(data.dep) && data.dirDep == old(data.dirDep)
      ensures data.props == old(data.props)[n := HandedProps(n, data.dep[n], old(data.props[n]))]
    {
      var k := 0;
      var base := data.dep[n];
      ghost var before := data;
      ghost var target := HandedProps(n, base, data.props[n]);
      var count := |data.props[n]|;
      assert target[..0] + before.props[n][0..] == before.props[n];
      while k < count
        invariant k <= count == |target| && order == old(order) && PropsDone(n, target, k, before)
      {
        InheritProp1(n, k, target, before);
        k := k + 1;
      }
      PropsAllDone(n, target, before);
      NoRepeatStep(order, Inherited(n));
      order := order + [Inherited(n)];
    }

    lemma PropsAllDone(n: nat, target: seq<Prop>, before: MenuData)
      requires PropsDone(n, target, |target|, before) && Inherited(n) !in order && Required(n) !in order
      ensures data.props == before.props[n := target]
      ensures StepsIn(Shape(), order + [Inherited(n)])
      ensures forall s :: 0 <= s < |data.dirDep| ==>
                && data.revDep[s] == Collected(Shape(), data.props, order + [Inherited(n)], Select, s)
                && data.implied[s] == Collected(Shape(), data.props, order + [Inherited(n)], Imply, s)
    {
      assert target[..|target|] + before.props[n][|target|..] == target;
      forall s | 0 <= s < |data.dirDep|
        ensures data.revDep[s] == Collected(Shape(), data.props, order + [Inherited(n)], Select, s)
        ensures data.implied[s] == Collected(Shape(), data.props, order + [Inherited(n)], Imply, s)
      {
        CollectedStep(Shape(), before.props, n, target, order, Select, s);
        CollectedStep(Shape(), before.props, n, target, order, Imply, s);
      }
    }

    method InheritProp1(n: nat, k: nat, ghost target: seq<Prop>, ghost before: MenuData)
      requires PropsDone(n, target, k, before) && k < |target|
      requires target == HandedProps(n, data.dep[n], before.props[n])
      modifies this`data
      ensures PropsDone(n, target, k + 1, before)
    {
      assert data.props[n][k] == before.props[n][k];
      var p := data.props[n][k];
      p := p.(visible := InheritProp(data.dep[n], p.visible, modules, TypeOf(n)));
      assert p == target[k];
      data := data.(props := data.props[n := data.props[n][k := p]]);
      assert data.props[n] == target[..k + 1] + before.props[n][k + 1..];
      AddTarget(n, p);
    }

    /** Stores the condition of a node that has not been finalised. */
    method SetDep(n: nat, e: Option<Expr>)
      requires Sane() && Collecting() && n < |syms| && n !in direct
      modifies this`data
      ensures Sane() && Collecting() && data == old(data).(dep := old(data.dep)[n := e])
    {
      ghost var before := data.dep;
      data := data.(dep := data.dep[n := e]);
      forall s | 0 <= s < |data.dirDep| ensures Direct(syms, data.dep, direct, s) == Direct(syms, before, direct, s) {
        DirectFrame(syms, data.dep, before, direct, s);
      }
    }

    /** Node n has not contributed to any symbol, and is not a choice value: its condition is the one stored. */
    ghost predicate Fresh(n: nat)
      reads this
    {
      Inherited(n) !in order && Required(n) !in order && n !in direct && Unjoined(joined, n)
    }

    /** One child of p inherits. */
    method InheritChild(p: nat, n: nat)
      requires Sane() && Collecting() && p < |syms| && n < |syms| && n != p && Fresh(n) && Unjoined(joined, p)
      requires data.dep[n] == initial.dep[n] && data.props[n] == initial.props[n]
      modifies this`data, this`order
      ensures Sane() && Collecting() && HandedTo(data, n, Above(data, p))
      ensures data.dep == old(data.dep)[n := data.dep[n]] && data.props == old(data.props)[n := data.props[n]]
      ensures order == old(order) + [Inherited(n)] && data.dirDep == old(data.dirDep)
    {
      SetDep(n, Inherit(Above(data, p), data.dep[n], modules));
      InheritProps(n);
    }

    /** The nodes in `tops` have inherited from p since `before`, and nothing else has changed. */
    ghost predicate ChildrenDone(p: nat, tops: set<nat>, before: MenuData, order0: seq<Step>)
      reads this
    {
      && Sane() && Collecting() && DataSized(before) && p < |syms| && |data.dirDep| == |before.dirDep|
      && (forall i :: 0 <= i < |syms| && i !in tops ==>
        data.dep[i] == before.dep[i] && data.props[i] == before.props[i])
      && (forall i :: i in tops ==> HandedTo(data, i, Above(data, p)))
      && (forall i :: Inherited(i) in order <==> Inherited(i) in order0 || i in tops)
      && (forall i :: Required(i) in order <==> Required(i) in order0)
    }

    method InheritNext(p: nat, n: nat, ghost tops: set<nat>, ghost before: MenuData, ghost order0: seq<Step>)
      requires ChildrenDone(p, tops, before, order0) && n < |syms| && n != p && n !in tops && p !in tops
      requires Fresh(n) && Unjoined(joined, p) && before.dep[n] == initial.dep[n] && before.props[n] == initial.props[n]
      modifies this`data, this`order
      ensures ChildrenDone(p, tops + {n}, before, order0) && order == old(order) + [Inherited(n)]
    {
      hide Consistent, Collected, Direct, NoRepeat, HandedProps, Inherit;
      InheritChild(p, n);
    }

    /** The loop that hands the condition of p down to its children. */
    method InheritChildren(p: nat, ghost g: Forest)
      requires Sane() && Collecting() && p < |syms| && Rep(links, links.list[p], p, g)
      requires Distinct(g) && p !in Ids(g) && SameData(initial, data, Ids(g))
      requires (forall i :: i in Ids(g) ==> i < |syms| && Fresh(i)) && Unjoined(joined, p)
      modifies this`data, this`order
      ensures ChildrenDone(p, Tops(g), old(data), old(order))
    {
      var menu := links.list[p];
      ghost var cur, tops: set<nat> := g, {};
      while menu != -1
        invariant SuffixOf(cur, g) && Rep(links, menu, p, cur)
        invariant Tops(g) == tops + Tops(cur) && tops !! Tops(cur)
        invariant ChildrenDone(p, tops, old(data), old(order))
        decreases NodeCount(cur)
      {
        TopsStep(g, cur, tops);
        TopsInIds(g);
        InheritNext(p, menu, tops, old(data), old(order));
        menu := links.next[menu];
        tops, cur := tops + {cur.id}, cur.rest;
      }
    }

    // ----- flattening

    /** The inner loop of the flattening: the children of `menu` become entries of p, right behind `menu`. */
    method Splice(p: nat, menu: nat, ghost kids: Forest, ghost rest: Forest)
      requires Sized(links) && menu < |links.next| && links.parent[menu] == p && kids.Entry?
      requires Rep(links, links.list[menu], menu, kids) && Rep(links, links.next[menu], p, rest)
      requires Distinct(Entry(menu, kids, rest)) && p !in Ids(kids)
      modifies this`links
      ensures Sized(links) && |links.next| == |old(links.next)| && links.parent[menu] == p && links.list[menu] == -1
      ensures Rep(links, links.next[menu], p, Append(kids, rest))
      ensures SameOutside(old(links), links, Ids(kids) + {menu})
    {
      var last := SpliceParents(p, menu, kids);
      RepFrame(old(links), links, links.next[menu], p, rest);
      Relink(menu, p, last, kids, rest);
      LastInTops(kids);
      TopsInIds(kids);
    }

    /** Every child of `menu` gets p as its parent; the last one is returned. */
    method SpliceParents(p: nat, menu: nat, ghost kids: Forest) returns (last: nat)
      requires Sized(links) && menu < |links.next| && kids.Entry? && Distinct(kids)
      requires Rep(links, links.list[menu], menu, kids)
      modifies this`links
      ensures Splicing(links, old(links), p, menu, kids, Nil, kids) && last == LastId(kids)
      ensures links == old(links).(parent := links.parent)
    {
      last := links.list[menu];
      links := links.(parent := links.parent[last := p]);
      ghost var done, cur := Entry(last, kids.kids, Nil), kids.rest;
      RepFrame(old(links), links, links.list[last], last, kids.kids);
      RepFrame(old(links), links, links.next[last], menu, kids.rest);
      while links.next[last] != -1
        invariant Splicing(links, old(links), p, menu, done, cur, kids) && last == LastId(done)
        decreases NodeCount(cur)
      {
        SpliceNext(links, links.(parent := links.parent[links.next[last] := p]), old(links), p, menu, done, cur, kids);
        last := links.next[last];
        links := links.(parent := links.parent[last := p]);
        LastAppend(done, Entry(last, cur.kids, Nil));
        done, cur := Append(done, Entry(last, cur.kids, Nil)), cur.rest;
      }
      AppendAssoc(done, Nil, Nil);
    }

    /** The children `done` of `menu` already name p as their parent, `cur` do not yet. */
    ghost predicate Splicing(l: Links, before: Links, p: nat, menu: nat, done: Forest, cur: Forest, kids: Forest) {
      && Sized(l) && Sized(before) && |l.next| == |before.next| && menu < |l.next|
      && done.Entry? && LastId(done) < |l.next| && Append(done, cur) == kids
      && Seg(l, l.list[menu], p, done, l.next[LastId(done)]) && Rep(l, l.next[LastId(done)], menu, cur)
      && l.next == before.next && l.list == before.list
      && forall i :: 0 <= i < |l.next| && i !in Ids(kids) ==> l.parent[i] == before.parent[i]
    }

    lemma SpliceNext(l: Links, m: Links, before: Links, p: nat, menu: nat, done: Forest, cur: Forest, kids: Forest)
      requires Splicing(l, before, p, menu, done, cur, kids) && Distinct(kids) && cur.Entry?
      requires m == l.(parent := l.parent[l.next[LastId(done)] := p])
      ensures Splicing(m, before, p, menu, Append(done, Entry(cur.id, cur.kids, Nil)), cur.rest, kids)
    {
      var e := Entry(cur.id, cur.kids, Nil);
      AppendIds(done, cur);
      AppendDistinct(done, cur);
      SegFrame(l, m, l.list[menu], p, done, cur.id);
      RepFrame(l, m, l.list[cur.id], cur.id, cur.kids);
      RepFrame(l, m, l.next[cur.id], menu, cur.rest);
      SegExtend(m, m.list[menu], p, done, cur.id, cur.kids);
      LastAppend(done, e);
      AppendAssoc(done, e, cur.rest);
    }

    /** The end of the splice: `menu` leads to its former children, and they to the entries after it. */
    method Relink(menu: nat, p: nat, last: nat, ghost kids: Forest, ghost rest: Forest)
      requires Sized(links) && menu < |links.next| && kids.Entry? && last == LastId(kids) < |links.next|
      requires Seg(links, links.list[menu], p, kids, -1) && Rep(links, links.next[menu], p, rest)
      requires Distinct(Entry(menu, kids, rest))
      modifies this`links
      ensures links == old(links).(
                next := old(links.next)[last := old(links.next)[menu]][menu := old(links.list)[menu]],
                list := old(links.list)[menu := -1])
      ensures Rep(links, links.next[menu], p, Append(kids, rest))
    {
      ghost var before := links;
      LastInTops(kids);
      TopsInIds(kids);
      links := links.(next := links.next[last := links.next[menu]]);
      links := links.(next := links.next[menu := links.list[menu]], list := links.list[menu := -1]);
      SegRelink(before, links, before.list[menu], p, kids, -1, before.next[menu]);
      RepFrame(before, links, before.next[menu], p, rest);
      SegRep(links, links.next[menu], p, kids, before.next[menu], rest);
    }

    /** The loop that flattens the entries of p: an `if`, or any other entry without a prompt, gives up its children. */
    method Flatten(p: nat, ghost g: Forest) returns (ghost k: Forest)
      requires Sized(links) && |links.next| == |prompt| && p < |links.next| && Rep(links, links.list[p], p, g)
      requires Distinct(g) && p !in Ids(g) && FlatBelow(g)
      requires |syms| == |prompt| && forall n :: 0 <= n < |syms| && syms[n].Some? ==> syms[n].value.Var?
      modifies this`links, this`joined
      ensures Sized(links) && |links.next| == |prompt| && Rep(links, links.list[p], p, k)
      ensures Distinct(k) && Preorder(k) == Preorder(g) && Flat(k) && k == Flattened(Shape(), g)
      ensures SameOutside(old(links), links, Ids(g)) && joined == JoinAll(Shape(), old(joined), p, k)
    {
      var menu := links.list[p];
      ghost var done, cur := Nil, g;
      while menu != -1
        invariant FlattenInv(p, g, done, menu, cur)
        invariant SameOutside(old(links), links, Ids(g)) &&
                  Append(done, Flattened(Shape(), cur)) == Flattened(Shape(), g)
        invariant joined == JoinAll(Shape(), old(joined), p, done)
        decreases NodeCount(cur)
      {
        JoinEntry(p, menu);
        ghost var before := done;
        done, cur := FlattenEntry(p, menu, g, done, cur);
        JoinedNext(old(joined), p, before, menu, done);
        menu := links.next[menu];
      }
      AppendAssoc(done, Nil, Nil);
      SegRep(links, links.list[p], p, done, -1, Nil);
      k := done;
    }

    /** An entry in the list of a choice becomes a choice value, unless it is one already. */
    method JoinEntry(p: nat, n: nat)
      requires p < |syms| && n < |syms| && forall n :: 0 <= n < |syms| && syms[n].Some? ==> syms[n].value.Var?
      modifies this`joined
      ensures joined == Join(Shape(), old(joined), p, n)
    {
      if syms[p].Some? && syms[p].value.id in choices && syms[n].Some? && syms[n].value.id !in joined.valueOf {
        var c, s := syms[p].value, syms[n].value.id;
        joined := joined.(valueOf := joined.valueOf[s := Membership(c, n)]);
        joined := joined.(lists := joined.lists[c.id := ListOf(joined, c.id) + [s]]);
      }
    }

    lemma JoinedNext(m: Members, p: nat, done: Forest, menu: nat, done': Forest)
      requires exists kids :: done' == Append(done, Entry(menu, kids, Nil))
      ensures JoinAll(Shape(), m, p, done') == Join(Shape(), JoinAll(Shape(), m, p, done), p, menu)
    {
      var kids :| done' == Append(done, Entry(menu, kids, Nil));
      JoinAllNext(Shape(), m, p, done, menu, kids);
    }

    /** One entry of the flattening. */
    method FlattenEntry(p: nat, menu: nat, ghost g: Forest, ghost done: Forest, ghost cur: Forest)
      returns (ghost done': Forest, ghost cur': Forest)
      requires FlattenInv(p, g, done, menu, cur) && cur.Entry? && p !in Ids(g) && Distinct(g)
      modifies this`links
      ensures menu < |links.next| && FlattenInv(p, g, done', links.next[menu], cur')
      ensures SameOutside(old(links), links, Ids(g)) && NodeCount(cur') < NodeCount(cur)
      ensures Append(done', Flattened(Shape(), cur')) == Append(done, Flattened(Shape(), cur))
      ensures exists kids :: done' == Append(done, Entry(menu, kids, Nil))
    {
      hide Flattened, Flat, FlatBelow;
      FlattenReady(p, menu, g, done, cur);
      FlattenedNext(Shape(), done, cur);
      if links.list[menu] != -1 && prompt[menu].None? {
        FlattenMove(p, menu, g, done, cur);
        done', cur' := Append(done, Entry(menu, Nil, Nil)), Append(cur.kids, cur.rest);
      } else {
        FlattenStep(p, g, done, menu, cur, cur.kids, cur.rest);
        done', cur' := Append(done, Entry(menu, cur.kids, Nil)), cur.rest;
      }
    }

    lemma FlattenReady(p: nat, menu: nat, g: Forest, done: Forest, cur: Forest)
      requires FlattenInv(p, g, done, menu, cur) && cur.Entry? && p !in Ids(g)
      ensures menu == cur.id < |prompt| && Ids(cur) <= Ids(g) && Ids(done) !! Ids(cur) && Distinct(cur) &&
              p !in Ids(cur)
      ensures Rep(links, links.list[menu], menu, cur.kids) && Rep(links, links.next[menu], p, cur.rest) &&
              links.parent[menu] == p
    {
      AppendIds(done, cur);
      AppendDistinct(done, cur);
      SamePreorder(Append(done, cur), g);
    }

    /** The children of an entry without a prompt move behind it. */
    method FlattenMove(p: nat, menu: nat, ghost g: Forest, ghost done: Forest, ghost cur: Forest)
      requires FlattenInv(p, g, done, menu, cur) && cur.Entry? && p !in Ids(g) && cur.kids.Entry? && !Prompted(menu)
      modifies this`links
      ensures menu < |links.next|
      ensures FlattenInv(p, g, Append(done, Entry(menu, Nil, Nil)), links.next[menu], Append(cur.kids, cur.rest))
      ensures SameOutside(old(links), links, Ids(g)) && NodeCount(Append(cur.kids, cur.rest)) < NodeCount(cur)
    {
      hide Flat, FlatBelow;
      FlattenReady(p, menu, g, done, cur);
      Splice(p, menu, cur.kids, cur.rest);
      SegFrame(old(links), links, links.list[p], p, done, menu);
      FlattenStep(p, g, done, menu, cur, Nil, Append(cur.kids, cur.rest));
    }

    /** The entries `done` of p are flat, `menu` leads to the others. */
    ghost predicate FlattenInv(p: nat, g: Forest, done: Forest, menu: int, cur: Forest)
      reads this
    {
      && Sized(links) && |links.next| == |prompt| && p < |links.next|
      && Seg(links, links.list[p], p, done, menu) && Rep(links, menu, p, cur)
      && Distinct(Append(done, cur)) && Preorder(Append(done, cur)) == Preorder(g)
      && Flat(done) && FlatBelow(cur)
    }

    lemma {:induction false} FlatAppend(f: Forest, g: Forest)
      ensures Flat(f) && Flat(g) ==> Flat(Append(f, g))
      ensures Flat(f) && FlatBelow(g) ==> FlatBelow(Append(f, g))
      decreases f
    {
      if f.Entry? { FlatAppend(f.rest, g); }
    }

    /** The children of an entry stay (`kids`), or move in front of the entries after it (`after`). */
    predicate StaysOrMoves(cur: Forest, kids: Forest, after: Forest)
      requires cur.Entry?
    {
      (kids == cur.kids && after == cur.rest) || (kids == Nil && after == Append(cur.kids, cur.rest))
    }

    /** One entry of the flattening loop, whose children have stayed (`kids`) or have moved in front of the rest. */
    lemma FlattenStep(p: nat, g: Forest, done: Forest, menu: nat, cur: Forest, kids: Forest, after: Forest)
      requires Sized(links) && |links.next| == |prompt| && p < |links.next| && menu < |links.next|
      requires Seg(links, links.list[p], p, done, menu) && links.parent[menu] == p
      requires Rep(links, links.list[menu], menu, kids) && Rep(links, links.next[menu], p, after)
      requires cur.Entry? && cur.id == menu && StaysOrMoves(cur, kids, after)
      requires Distinct(Append(done, cur)) && Preorder(Append(done, cur)) == Preorder(g)
      requires Flat(done) && FlatBelow(cur) && (kids.Entry? ==> Prompted(menu))
      ensures FlattenInv(p, g, Append(done, Entry(menu, kids, Nil)), links.next[menu], after)
      ensures NodeCount(after) < NodeCount(cur)
    {
      SegExtend(links, links.list[p], p, done, menu, kids);
      AppendEntry(done, menu, kids, after);
      FlattenOrder(done, cur, Entry(menu, kids, after));
      FlattenFlat(done, cur, kids, after);
    }

    lemma FlattenOrder(done: Forest, cur: Forest, e: Forest)
      requires cur.Entry? && e.Entry? && e.id == cur.id && StaysOrMoves(cur, e.kids, e.rest) &&
               Distinct(Append(done, cur))
      ensures Distinct(Append(done, e)) && Preorder(Append(done, e)) == Preorder(Append(done, cur))
      ensures NodeCount(e.rest) < NodeCount(cur)
    {
      AppendDistinct(done, cur);
      AppendDistinct(done, e);
      SameEntry(cur, e.kids, e.rest);
      SamePreorder(cur, e);
      AppendPreorder(done, cur);
      AppendPreorder(done, e);
    }

    lemma FlattenFlat(done: Forest, cur: Forest, kids: Forest, after: Forest)
      requires cur.Entry? && StaysOrMoves(cur, kids, after)
      requires Flat(done) && FlatBelow(cur) && (kids.Entry? ==> Prompted(cur.id))
      ensures Flat(Append(done, Entry(cur.id, kids, Nil))) && FlatBelow(after)
    {
      assert Flat(Entry(cur.id, kids, Nil));
      FlatAppend(done, Entry(cur.id, kids, Nil));
      FlatAppend(cur.kids, cur.rest);
    }

    /** Moving children behind their parent keeps the preorder. */
    lemma SameEntry(cur: Forest, kids: Forest, after: Forest)
      requires cur.Entry? && StaysOrMoves(cur, kids, after) && Distinct(cur)
      ensures var e := Entry(cur.id, kids, after); Distinct(e) && Preorder(e) == Preorder(cur)
    {
      AppendPreorder(cur.kids, cur.rest);
      AppendIds(cur.kids, cur.rest);
      AppendDistinct(cur.kids, cur.rest);
      if kids == Nil { assert Preorder(kids) + Preorder(after) == Preorder(after); }
    }

    // ----- finalising

    /** Entry p, the head of the chain `f` below `up`, is about to be finalised. */
    ghost predicate Ready(x: Snap, p: nat, up: int, f: Forest) {
      && DataSized(initial) && DataSized(x.data)
      && f.Entry? && f.id == p && Rep(x.links, p, up, f) && Distinct(f) && ParsedKids(f) && Untouched(x, f)
    }

    /** From `a` to `s` entry p has been dealt with, but its own entries are not flat yet: the chain `f` has
        become `h`, whose entries after the first are the ones that were not drawn into the submenu of p. */
    ghost predicate EntryDone(a: Snap, s: Snap, p: nat, up: int, f: Forest, h: Forest) {
      && DataSized(initial) && DataSized(s.data)
      && f.Entry? && h.Entry? && h.id == p && Rep(s.links, p, up, h) && Distinct(h) && Preorder(h) == Preorder(f)
      && SuffixOf(h.rest, f.rest) && FlatBelow(h.kids)
      && Stepped(a, s, f, h.rest, [p] + Preorder(h.kids)) && HandedUpTo(s.data, f, h.rest)
    }

    /** In addition, all choices below entry p have been filled. */
    ghost predicate EntryChosen(a: Snap, s: Snap, h: Forest)
      requires h.Entry?
    {
      Chosen(a, s, Preorder(h.kids)) && Filled(Shape(), s.joined, h.kids)
    }

    /** Entry p has been finalised. */
    ghost predicate Finalized(a: Snap, s: Snap, p: nat, up: int, f: Forest, h: Forest) {
      EntryDone(a, s, p, up, f, h) && Flat(h.kids) && HeadChosen(a, s, h)
    }

    /** The choices at and below the first entry have been filled. */
    ghost predicate HeadChosen(a: Snap, s: Snap, h: Forest)
      requires h.Entry?
    {
      Chosen(a, s, [h.id] + Preorder(h.kids)) && Filled(Shape(), s.joined, Entry(h.id, h.kids, Nil))
    }

    /** `menu_finalize`. Returns the chain that pointer p leads to afterwards. */
    method Finalize(p: nat, ghost up: int, ghost f: Forest) returns (ghost h: Forest)
      requires Sane() && Collecting() && Ready(Now(), p, up, f)
      modifies this
      ensures Sane() && Collecting() && Finalized(old(Now()), Now(), p, up, f, h)
      ensures h == FinalEntry(Shape(), data, f)
      decreases NodeCount(f), 2
    {
      ghost var start := Now();
      log := log + [p];
      if links.list[p] != -1 {
        h := FinalizeMenu(p, up, f, start);
      } else {
        h := FinalizeEntry(p, up, f, start);
      }
      h := FinalizeList(p, up, f, h, start);
    }

    /** The end of `menu_finalize`: the list of p is flattened, and its entries join the choice that p may be. */
    method FinalizeList(p: nat, ghost up: int, ghost f: Forest, ghost u: Forest, ghost start: Snap)
      returns (ghost h: Forest)
      requires Sane() && Collecting() && Ready(start, p, up, f) && EntryDone(start, Now(), p, up, f, u)
      requires EntryChosen(start, Now(), u) && u == Unflattened(Shape(), data, f)
      modifies this
      ensures Sane() && Collecting() && Finalized(start, Now(), p, up, f, h) && h == FinalEntry(Shape(), data, f)
    {
      hide Collected, Direct, Consistent, NoRepeat, Flattened, Unflattened, ParsedKids, FlatBelow;
      ghost var mid := Now();
      HeadInOrder(f, u);
      ghost var kids := Flatten(p, u.kids);
      JoinAllConsistent(Shape(), mid.joined, p, kids);
      ListChosen(start, mid, joined, p, up, f, u, kids);
      Require(p);
      h := Entry(p, kids, u.rest);
      RequiredChosen(start, mid, Now(), p, u, h);
      FlattenedEntry(start, mid, Now(), p, up, f, u, kids);
      UnflattenedFrame(Shape(), mid.data, data, f);
    }

    lemma HeadInOrder(f: Forest, u: Forest)
      requires f.Entry? && u.Entry? && u.id == f.id && Distinct(u) && Preorder(u) == Preorder(f)
      ensures u.id !in Ids(u.kids) && u.id !in Preorder(u.kids) && Distinct(u.kids)
    {
      PreorderIds(u.kids);
    }

    /** The entries of the flattened list have joined. */
    lemma ListChosen(a: Snap, b: Snap, m: Members, p: nat, up: int, f: Forest, u: Forest, kids: Forest)
      requires Ready(a, p, up, f) && u.Entry? && u.id == p && p !in Preorder(u.kids) && EntryChosen(a, b, u)
      requires Preorder(kids) == Preorder(u.kids) && kids == Flattened(Shape(), u.kids) &&
               m == JoinAll(Shape(), b.joined, p, kids)
      ensures Grown(a.joined, m, (set i | i in Preorder(kids))) && Filled(Shape(), m, Entry(p, kids, Nil))
      ensures Required(p) !in b.order && Unjoined(m, p)
    {
      var nodes := set i | i in Preorder(kids);
      JoinAllGrown(Shape(), b.joined, p, kids);
      TopsInIds(kids);
      PreorderIds(kids);
      GrownTwice(a.joined, b.joined, m, nodes, Tops(kids), p);
      FilledFlattened(Shape(), b.joined, u.kids);
      FilledGrown(Shape(), b.joined, m, Tops(kids), kids);
      JoinAllListed(Shape(), b.joined, p, kids);
    }

    lemma GrownTwice(m: Members, k: Members, l: Members, nodes: set<nat>, tops: set<nat>, p: nat)
      requires Grown(m, k, nodes) && Grown(k, l, tops) && tops <= nodes && Unjoined(m, p) && p !in nodes
      ensures Grown(m, l, nodes) && Unjoined(l, p)
    {
    }

    lemma RequiredChosen(a: Snap, b: Snap, s: Snap, p: nat, u: Forest, h: Forest)
      requires u.Entry? && h.Entry? && u.id == h.id == p && Preorder(h.kids) == Preorder(u.kids) &&
               Chosen(a, b, Preorder(u.kids))
      requires Grown(a.joined, s.joined, (set i | i in Preorder(h.kids))) &&
               Filled(Shape(), s.joined, Entry(p, h.kids, Nil))
      requires s.order == if Requiring(Shape(), p) then b.order + [Required(p)] else b.order
      ensures HeadChosen(a, s, h)
    {
    }

    /** The prompt of a node that requires its symbol selects it as m. */
    method Require(p: nat)
      requires Sane() && Collecting() && p < |syms| && Required(p) !in order && Unjoined(joined, p)
      modifies this`data, this`order
      ensures Sane() && Collecting() && data == old(data).(revDep := data.revDep)
      ensures order == if Requiring(Shape(), p) then old(order) + [Required(p)] else old(order)
    {
      if syms[p].Some? && syms[p].value.id !in optional && prompt[p].Some? {
        var s := syms[p].value.id;
        var visible := data.props[p][prompt[p].value].visible;
        data := data.(revDep := data.revDep[s := OrOpt(data.revDep[s], AndOpt(visible, Some(Sym(SymMod))))]);
        NoRepeatStep(order, Required(p));
        order := order + [Required(p)];
        assert order[..|order| - 1] == old(order);
      }
    }

    lemma FlattenedEntry(a: Snap, b: Snap, s: Snap, p: nat, up: int, f: Forest, h: Forest, kids: Forest)
      requires EntryDone(a, b, p, up, f, h) && b.direct == s.direct && b.log == s.log
      requires s.data == b.data.(revDep := s.data.revDep) && (s.order == b.order || s.order == b.order + [Required(p)])
      requires SameOutside(b.links, s.links, Ids(h.kids)) && Rep(s.links, s.links.list[p], p, kids)
      requires Distinct(kids) && Preorder(kids) == Preorder(h.kids) && Flat(kids)
      ensures EntryDone(a, s, p, up, f, Entry(p, kids, h.rest))
    {
      hide Rep, Seg, Ids, Preorder, Distinct, Flat, FlatBelow, SuffixOf, DeepUpTo;
      FlattenedOrder(f, h, kids);
      FlattenedLinks(a.links, b.links, s.links, p, up, f, h, kids);
      FlatIsFlatBelow(kids);
      HandedUpToFrame(b.data, s.data, f, h.rest);
    }

    lemma FlattenedOrder(f: Forest, h: Forest, kids: Forest)
      requires f.Entry? && h.Entry? && Distinct(h) && Preorder(h) == Preorder(f)
      requires Distinct(kids) && Preorder(kids) == Preorder(h.kids)
      ensures var k := Entry(h.id, kids, h.rest);
              Distinct(k) && Preorder(k) == Preorder(f) && [h.id] + Preorder(kids) == [h.id] + Preorder(h.kids)
      ensures Ids(h.kids) <= Ids(f) && h.id !in Ids(h.kids) && h.id in Ids(f) && Ids(h.kids) !! Ids(h.rest)
    {
      SamePreorder(kids, h.kids);
      SamePreorder(h, f);
    }

    lemma FlattenedLinks(a: Links, b: Links, l: Links, p: nat, up: int, f: Forest, h: Forest, kids: Forest)
      requires h.Entry? && h.id == p && Rep(b, p, up, h) && SameOutside(a, b, Ids(f))
      requires SameOutside(b, l, Ids(h.kids)) && Rep(l, l.list[p], p, kids)
      requires Ids(h.kids) <= Ids(f) && p !in Ids(h.kids) && Ids(h.kids) !! Ids(h.rest)
      ensures Rep(l, p, up, Entry(p, kids, h.rest)) && SameOutside(a, l, Ids(f))
    {
      RepFrame(b, l, b.next[p], up, h.rest);
    }

    lemma {:induction false} FlatIsFlatBelow(f: Forest)
      requires Flat(f)
      ensures FlatBelow(f)
    {
      if f.Entry? { FlatIsFlatBelow(f.rest); }
    }

    // ----- a menu with children

    /** The children of p have been finalised one after the other: `done`, then `cur` from `menu` on. */
    ghost predicate ChildrenInv(a: Snap, s: Snap, p: nat, g: Forest, done: Forest, menu: int, cur: Forest) {
      && DataSized(initial) && DataSized(s.data) && Sized(s.links) && p < |s.links.next|
      && Seg(s.links, s.links.list[p], p, done, menu) && Rep(s.links, menu, p, cur)
      && Progress(a, s, g, done, cur)
    }

    /** The loop that finalises the children of p. */
    method FinalizeChildren(p: nat, ghost g: Forest) returns (ghost k: Forest)
      requires Sane() && Collecting() && p < |syms| && Rep(links, links.list[p], p, g)
      requires Distinct(g) && p !in Ids(g) && ParsedKids(g) && Untouched(Now(), g)
      modifies this
      ensures Sane() && Collecting() && ChildrenInv(old(Now()), Now(), p, g, k, -1, Nil) &&
              k == FinalChain(Shape(), data, g)
      decreases NodeCount(g), 3
    {
      hide DoneAs, FinalChain, Untouched, ParsedKids, Collecting;
      var menu := links.list[p];
      ghost var done, cur := Nil, g;
      DoneStart(Shape(), data, None, g);
      while menu != -1
        invariant Sane() && Collecting() && ChildrenInv(old(Now()), Now(), p, g, done, menu, cur)
        invariant DoneAs(Shape(), data, None, g, done, cur)
        decreases NodeCount(cur)
      {
        done, cur := FinalizeChild(old(Now()), p, g, done, menu, cur);
        menu := links.next[menu];
      }
      k := done;
      DoneChain(Shape(), data, g, done);
    }

    method FinalizeChild(ghost a: Snap, p: nat, ghost g: Forest, ghost done: Forest, menu: nat, ghost cur: Forest)
      returns (ghost done': Forest, ghost cur': Forest)
      requires Sane() && Collecting() && DataSized(a.data) && Distinct(g) && p !in Ids(g) && ParsedKids(g) &&
               Untouched(a, g)
      requires ChildrenInv(a, Now(), p, g, done, menu, cur) && cur.Entry? && DoneAs(Shape(), data, None, g, done, cur)
      modifies this
      ensures Sane() && Collecting() && menu < |links.next| &&
              ChildrenInv(a, Now(), p, g, done', links.next[menu], cur')
      ensures DoneAs(Shape(), data, None, g, done', cur') && NodeCount(cur') < NodeCount(cur)
      decreases NodeCount(g), 3, 0
    {
      ghost var before := Now();
      ChildReady(a, before, p, p, g, done, menu, cur);
      ghost var h := Finalize(menu, p, cur);
      ChildrenStep(a, before, Now(), p, g, done, menu, cur, h);
      SuffixTransitive(h.rest, cur.rest, cur);
      ShapeNext(before, Now(), None, g, done, cur, h, [menu] + Preorder(h.kids));
      done', cur' := Append(done, Entry(h.id, h.kids, Nil)), h.rest;
    }

    /** The entries that are still to come are as they were. */
    lemma ChildReady(a: Snap, s: Snap, p: nat, up: int, g: Forest, done: Forest, menu: int, cur: Forest)
      requires DataSized(initial) && DataSized(a.data) && Distinct(g) && ParsedKids(g) && Untouched(a, g)
      requires SuffixOf(cur, g) && Distinct(Append(done, cur)) && Stepped(a, s, g, cur, Preorder(done))
      requires cur.Entry? && Rep(s.links, menu, up, cur) && Chosen(a, s, Preorder(done))
      ensures Ready(s, cur.id, up, cur) && menu == cur.id && NodeCount(cur) <= NodeCount(g)
    {
      hide Untouched, Chosen;
      SuffixFacts(cur, g);
      SuffixParsed(cur, g);
      StillUntouched(a, s, g, done, cur);
    }

    lemma StillUntouched(a: Snap, s: Snap, g: Forest, done: Forest, cur: Forest)
      requires DataSized(initial) && DataSized(a.data) && Distinct(g) && Untouched(a, g)
      requires SuffixOf(cur, g) && Distinct(Append(done, cur)) && Stepped(a, s, g, cur, Preorder(done))
      requires Chosen(a, s, Preorder(done))
      ensures Untouched(s, cur)
    {
      hide SuffixOf, Ids, Deep, DeepUpTo, Distinct, Rep, Preorder, Requiring;
      SuffixFacts(cur, g);
      AppendDistinct(done, cur);
      PreorderIds(done);
      DeepInIds(cur);
      assert SameData(initial, s.data, Deep(cur));
    }

    lemma {:induction false} SuffixParsed(g: Forest, f: Forest)
      requires SuffixOf(g, f) && ParsedKids(f)
      ensures ParsedKids(g)
      decreases f
    {
      if g != f { SuffixParsed(g, f.rest); }
    }

    /** One child more. */
    lemma ChildrenStep(a: Snap, b: Snap, s: Snap, p: nat, g: Forest, done: Forest, menu: nat, cur: Forest, h: Forest)
      requires ChildrenInv(a, b, p, g, done, menu, cur) && cur.Entry? && Distinct(g) && p !in Ids(g)
      requires Finalized(b, s, menu, p, cur, h)
      ensures menu < |s.links.next|
      ensures ChildrenInv(a, s, p, g, Append(done, Entry(menu, h.kids, Nil)), s.links.next[menu], h.rest)
      ensures NodeCount(h.rest) < NodeCount(cur)
    {
      SuffixFacts(cur, g);
      ChainStep(done, cur, h, Preorder(g));
      SameAtOutside(b.links, s.links, done, cur);
      SegFrame(b.links, s.links, b.links.list[p], p, done, menu);
      SegExtend(s.links, s.links.list[p], p, done, menu, h.kids);
      ProgressStep(a, b, s, g, done, cur, h);
    }

    /** On forests: the first entry of `cur` joins the finished ones, as `h` has it. */
    lemma ChainStep(done: Forest, cur: Forest, h: Forest, order: seq<nat>)
      requires cur.Entry? && h.Entry? && Distinct(Append(done, cur)) && Preorder(Append(done, cur)) == order
      requires Distinct(h) && Preorder(h) == Preorder(cur)
      ensures var done' := Append(done, Entry(h.id, h.kids, Nil));
              Distinct(Append(done', h.rest)) && Preorder(Append(done', h.rest)) == order
      ensures NodeCount(h.rest) < NodeCount(cur) && Ids(done) !! Ids(cur)
    {
      AppendDistinct(done, cur);
      AppendDistinct(done, h);
      SamePreorder(h, cur);
      AppendEntry(done, h.id, h.kids, h.rest);
      AppendPreorder(done, cur);
      AppendPreorder(done, h);
    }

    lemma SameAtOutside(l: Links, m: Links, done: Forest, cur: Forest)
      requires SameOutside(l, m, Ids(cur)) && Ids(done) !! Ids(cur)
      ensures SameAt(l, m, Ids(done))
    {
    }

    lemma {:induction false} FlatBelowAppend(done: Forest, menu: nat, kids: Forest)
      requires FlatBelow(done) && Flat(kids)
      ensures FlatBelow(Append(done, Entry(menu, kids, Nil)))
      decreases done
    {
      if done.Entry? { FlatBelowAppend(done.rest, menu, kids); }
    }

    /** What the steps have changed adds up. */
    lemma DataStep(a: Snap, b: Snap, s: Snap, g: Forest, done: Forest, cur: Forest, h: Forest)
      requires DataSized(initial) && DataSized(b.data) && DataSized(s.data)
      requires SuffixOf(cur, g) && Distinct(g) && cur.Entry? && h.Entry? && SuffixOf(h.rest, cur.rest)
      requires Stepped(a, b, g, cur, Preorder(done)) && Stepped(b, s, cur, h.rest, [h.id] + Preorder(h.kids))
      requires HandedUpTo(b.data, g, cur) && HandedUpTo(s.data, cur, h.rest)
      ensures SuffixOf(h.rest, g)
      ensures Stepped(a, s, g, h.rest, Preorder(Append(done, Entry(h.id, h.kids, Nil))))
      ensures HandedUpTo(s.data, g, h.rest)
    {
      SuffixTransitive(h.rest, cur, g);
      SteppedCompose(a, b, s, g, cur, h.rest, Preorder(done), [h.id] + Preorder(h.kids));
      AppendPreorder(done, Entry(h.id, h.kids, Nil));
      assert Preorder(Entry(h.id, h.kids, Nil)) == [h.id] + Preorder(h.kids);
      SuffixFacts(cur, g);
      SuffixFacts(h.rest, cur);
      DeepInIds(g);
      DeepInIds(cur);
      HandedUpToFrame(b.data, s.data, g, cur);
      HandedUpToCompose(s.data, g, cur, h.rest);
    }

    /** The first branch of `menu_finalize`: p has children from the parser. */
    method FinalizeMenu(p: nat, ghost up: int, ghost f: Forest, ghost start: Snap) returns (ghost h: Forest)
      requires Sane() && Collecting() && Ready(start, p, up, f) && Now() == start.(log := start.log + [p])
      requires links.list[p] != -1
      modifies this
      ensures Sane() && Collecting() && EntryDone(start, Now(), p, up, f, h) && EntryChosen(start, Now(), h)
      ensures h == Unflattened(Shape(), data, f)
      decreases NodeCount(f), 1
    {
      hide Collecting, ChildrenInv, FinalChain, Submenu, EntryDone, EntryChosen, HandedTo;
      assert Rep(links, links.list[p], p, f.kids);
      assert Ids(f.kids) <= Deep(f) && f.kids.Entry?;
      TopsInIds(f.kids);
      DeepInIds(f);
      InheritChildren(p, f.kids);
      ghost var handed := Now();
      KidsUntouched(start, handed, f);
      ghost var k := FinalizeChildren(p, f.kids);
      MenuDone(start, handed, Now(), p, up, f, k);
      h := Entry(p, k, f.rest);
    }

    lemma KidsUntouched(a: Snap, b: Snap, f: Forest)
      requires DataSized(initial) && DataSized(a.data) && DataSized(b.data) && f.Entry? && Distinct(f) &&
               Untouched(a, f)
      requires KidsInherited(a, b, f)
      ensures Untouched(b, f.kids)
    {
      DeepInIds(f.kids);
      DeepInIds(f);
    }

    lemma {:induction false} DeepUpToNil(f: Forest)
      ensures DeepUpTo(f, Nil) == Deep(f) && SuffixOf(Nil, f)
      decreases f
    {
      if f.Entry? { DeepUpToNil(f.rest); }
    }

    /** The children of f have inherited since `a`, and nothing else has happened. */
    ghost predicate KidsInherited(a: Snap, b: Snap, f: Forest)
      requires f.Entry? && DataSized(a.data) && DataSized(b.data)
    {
      && b.links == a.links && b.log == a.log + [f.id] && b.direct == a.direct && b.joined == a.joined
      && |b.data.dirDep| == |a.data.dirDep|
      && (forall i :: 0 <= i < |syms| && i !in Tops(f.kids) ==>
        a.data.dep[i] == b.data.dep[i] && a.data.props[i] == b.data.props[i])
      && (forall i :: Inherited(i) in b.order <==> Inherited(i) in a.order || i in Tops(f.kids))
      && (forall i :: Required(i) in b.order <==> Required(i) in a.order)
    }

    /** The children have inherited (up to `b`) and have been finalised (up to `s`). */
    lemma MenuDone(a: Snap, b: Snap, s: Snap, p: nat, up: int, f: Forest, k: Forest)
      requires Ready(a, p, up, f) && f.kids.Entry? && DataSized(b.data) && ChildrenInv(b, s, p, f.kids, k, -1, Nil)
      requires KidsInherited(a, b, f) && forall i :: i in Tops(f.kids) ==> HandedTo(b.data, i, Above(b.data, p))
      ensures EntryDone(a, s, p, up, f, Entry(p, k, f.rest)) && EntryChosen(a, s, Entry(p, k, f.rest))
    {
      hide Rep, Seg, FlatBelow, Filled, HandedTo, Distinct, Preorder;
      AppendAssoc(k, Nil, Nil);
      MenuOrder(f, k);
      MenuLinks(a.links, s.links, p, up, f, k);
      DeepUpToNil(f.kids);
      assert DeepUpTo(f, f.rest) == Ids(f.kids);
      KidsHanded(b, s, f);
      MenuStepped(a, b, s, f, Preorder(k));
      assert HandedUpTo(s.data, f, f.rest);
    }

    lemma MenuOrder(f: Forest, k: Forest)
      requires f.Entry? && Distinct(f) && Distinct(k) && Preorder(k) == Preorder(f.kids)
      ensures var h := Entry(f.id, k, f.rest); Distinct(h) && Preorder(h) == Preorder(f)
      ensures Distinct(f.kids) && f.id !in Ids(f.kids) && SuffixOf(f.rest, f.rest)
    {
      SamePreorder(k, f.kids);
    }

    lemma MenuLinks(l: Links, m: Links, p: nat, up: int, f: Forest, k: Forest)
      requires Rep(l, p, up, f) && f.Entry? && Distinct(f) && p < |m.next| && Sized(m)
      requires Seg(m, m.list[p], p, k, -1) && SameOutside(l, m, Ids(f.kids))
      ensures Rep(m, p, up, Entry(p, k, f.rest))
    {
      AppendAssoc(k, Nil, Nil);
      SegRep(m, m.list[p], p, k, -1, Nil);
      SameAtOutside(l, m, f.rest, f.kids);
      RepFrame(l, m, l.next[p], up, f.rest);
    }

    lemma KidsHanded(b: Snap, s: Snap, f: Forest)
      requires DataSized(initial) && DataSized(b.data) && DataSized(s.data) && f.Entry? && Distinct(f) && f.id < |syms|
      requires forall i :: i in Tops(f.kids) ==> HandedTo(b.data, i, Above(b.data, f.id))
      requires forall i :: 0 <= i < |syms| && i !in Deep(f.kids) ==>
                 b.data.dep[i] == s.data.dep[i] && b.data.props[i] == s.data.props[i]
      requires HandedUpTo(s.data, f.kids, Nil)
      ensures Handed(s.data, f.kids, f.id)
    {
      DeepInIds(f.kids);
      HandedAll(s.data, f.kids, f.id);
    }

    lemma MenuStepped(a: Snap, b: Snap, s: Snap, f: Forest, visited: seq<nat>)
      requires f.Entry? && f.kids.Entry? && f.id < |syms| && f.id in blocks && DeepUpTo(f, f.rest) == Ids(f.kids)
      requires DataSized(a.data) && Sized(a.links) && DataSized(b.data) && KidsInherited(a, b, f)
      requires Stepped(b, s, f.kids, Nil, visited) && DeepUpTo(f.kids, Nil) == Deep(f.kids)
      ensures Stepped(a, s, f, f.rest, [f.id] + visited)
    {
      DeepInIds(f.kids);
      assert s.log == a.log + ([f.id] + visited);
    }

    // ----- a symbol without children: automatic submenus

    /** The condition under which an entry can be seen: that of its prompt, or its dependencies. It is not a
        choice value, so nothing has been put on top of them. */
    function ItemCondition(n: nat): (e: Option<Expr>)
      reads this
      requires Unjoined(joined, n)
      requires |prompt| == |data.dep| == |data.props| && n < |prompt|
      requires prompt[n].Some? ==> prompt[n].value < |data.props[n]|
      ensures Gated(Shape(), joined, n, e) == e
    {
      UnjoinedUngated(Shape(), joined, n,
        if prompt[n].Some? then data.props[n][prompt[n].value].visible else data.dep[n]);
      if prompt[n].Some? then data.props[n][prompt[n].value].visible else data.dep[n]
    }

    /** The same for the symbol that is to get the submenu. */
    function PromptCondition(n: nat): (e: Option<Expr>)
      reads this
      requires Unjoined(joined, n)
      requires |prompt| == |data.props| && n < |prompt|
      requires prompt[n].Some? ==> prompt[n].value < |data.props[n]|
      ensures Gated(Shape(), joined, n, e) == e
    {
      UnjoinedUngated(Shape(), joined, n, if prompt[n].Some? then data.props[n][prompt[n].value].visible else None);
      if prompt[n].Some? then data.props[n][prompt[n].value].visible else None
    }

    /** The second branch of `menu_finalize`. */
    method FinalizeEntry(p: nat, ghost up: int, ghost f: Forest, ghost start: Snap) returns (ghost h: Forest)
      requires Sane() && Collecting() && Ready(start, p, up, f) && Now() == start.(log := start.log + [p])
      requires links.list[p] == -1
      modifies this
      ensures Sane() && Collecting() && EntryDone(start, Now(), p, up, f, h) && EntryChosen(start, Now(), h)
      ensures h == Unflattened(Shape(), data, f)
      decreases NodeCount(f), 1
    {
      hide EntryDone, Collecting, Submenu, SubmenuLinked, ParsedKids;
      assert Rep(links, links.list[p], p, f.kids);
      assert f.kids == Nil;
      if syms[p].Some? {
        RestUntouched(start, Now(), f);
        assert Unjoined(joined, p);
        ghost var done, cur := BuildSubmenu(p, up, f);
        ghost var mid := Now();
        SubmenuDone(start, mid, p, up, f, done, cur);
        AddDirect(p);
        h := Entry(p, done, cur);
        DirectAdded(start, mid, Now(), p, up, f, h);
        UnflattenedFrame(Shape(), mid.data, data, f);
      } else {
        h := f;
        NoSubmenu(start, Now(), p, up, f);
      }
    }

    /** A node without a symbol and without children has no submenu. */
    lemma NoSubmenu(a: Snap, s: Snap, p: nat, up: int, f: Forest)
      requires Ready(a, p, up, f) && s == a.(log := a.log + [p]) && f.kids == Nil && p < |syms| && syms[p].None? &&
               Sized(a.links)
      ensures EntryDone(a, s, p, up, f, f) && EntryChosen(a, s, f)
    {
      assert Preorder(f.kids) == [] && [p] + [] == [p];
      assert DeepUpTo(f, f.rest) == {};
    }

    lemma RestUntouched(a: Snap, b: Snap, f: Forest)
      requires DataSized(a.data) && DataSized(initial) && f.Entry? && Distinct(f) && Untouched(a, f)
      requires b == a.(log := a.log + [f.id])
      ensures Untouched(b, f.rest)
    {
      assert Deep(f.rest) <= Deep(f) && Ids(f.rest) <= Ids(f) && f.id !in Ids(f.rest);
      assert forall i :: i in b.log ==> i in a.log || i == f.id;
    }

    /** The dependencies of a node are added to those of its symbol. */
    method AddDirect(p: nat)
      requires Sane() && Collecting() && p < |syms| && syms[p].Some? && p !in direct && Unjoined(joined, p)
      modifies this`data, this`direct
      ensures Sane() && Collecting() && direct == old(direct) + [p]
      ensures data == old(data).(dirDep := data.dirDep) && |data.dirDep| == |old(data.dirDep)|
    {
      var s := syms[p].value.id;
      data := data.(dirDep := data.dirDep[s := OrOpt(data.dirDep[s], data.dep[p])]);
      NoRepeatStep(direct, p);
      direct := direct + [p];
      assert direct[..|direct| - 1] == old(direct);
    }

    /** The submenu so far: the entries `done` behind p already name p as their parent, `cur` from `menu` on are
        still to be looked at. */
    predicate SubmenuLinks(l: Links, p: nat, up: int, done: Forest, menu: int, cur: Forest) {
      && Sized(l) && p < |l.next| && l.list[p] == -1 && l.parent[p] == up
      && Seg(l, l.next[p], p, done, menu) && Rep(l, menu, up, cur)
    }

    /** The entries `done` have been finalised, and nothing has been lost. */
    ghost predicate Progress(a: Snap, s: Snap, g: Forest, done: Forest, cur: Forest) {
      && DataSized(initial) && DataSized(s.data)
      && SuffixOf(cur, g) && Distinct(Append(done, cur)) && Preorder(Append(done, cur)) == Preorder(g)
      && FlatBelow(done) && Stepped(a, s, g, cur, Preorder(done)) && HandedUpTo(s.data, g, cur)
      && Chosen(a, s, Preorder(done)) && Filled(Shape(), s.joined, done)
    }

    /** Consecutive entries that depend on the symbol of p become its children. */
    method BuildSubmenu(p: nat, ghost up: int, ghost f: Forest) returns (ghost done: Forest, ghost cur: Forest)
      requires Sane() && Collecting() && p < |syms| && syms[p].Some? && links.list[p] == -1
      requires f.Entry? && f.id == p && f.kids == Nil && Rep(links, p, up, f) && Distinct(f) && ParsedKids(f)
      requires Untouched(Now(), f.rest) && Unjoined(joined, p)
      modifies this
      ensures Sane() && Collecting() && Unjoined(joined, p)
      ensures SubmenuLinked(old(Now()), Now(), p, up, f, done, cur) && Submenu(Shape(), data, p, f.rest) == (done, cur)
      decreases NodeCount(f), 0
    {
      hide DoneAs, Belongs, InSubmenu, Submenu, PromptOr, ParsedKids, Untouched, Progress, Collecting, Unjoined;
      var visible := PromptCondition(p);
      SamePrompt(p);
      var menu := links.next[p];
      var last := -1;
      done, cur := Nil, f.rest;
      SubmenuStart(Now(), p, up, f);
      while menu != -1
        invariant Sane() && Collecting() && Progress(old(Now()), Now(), f.rest, done, cur)
        invariant SubmenuLinks(links, p, up, done, menu, cur)
        invariant DoneAs(Shape(), data, Some(p), f.rest, done, cur) && visible == PromptOr(Shape(), data, p, None)
        invariant last == (if done.Nil? then -1 else LastId(done))
        decreases NodeCount(cur)
      {
        RestUnjoined(old(Now()), Now(), f, done, menu, cur);
        TestedHere(p, menu);
        if !InSubmenu(syms[p].value, visible, ItemCondition(menu)) { break; }
        done, cur := SubmenuEntry(old(Now()), p, up, f, done, menu, cur);
        last := menu;
        menu := links.next[menu];
      }
      RestUnjoined(old(Now()), Now(), f, done, menu, cur);
      DoneSubmenu(Shape(), data, p, f.rest, done, cur);
      CloseSubmenu(old(Now()), p, up, f, done, menu, cur, last);
    }

    /** Nothing has been drawn into the submenu yet. */
    lemma SubmenuStart(a: Snap, p: nat, up: int, f: Forest)
      requires DataSized(a.data) && DataSized(initial) && f.Entry? && f.id == p && f.kids == Nil && Distinct(f)
      requires Rep(a.links, p, up, f)
      ensures Progress(a, a, f.rest, Nil, f.rest) && SubmenuLinks(a.links, p, up, Nil, a.links.next[p], f.rest)
      ensures DoneAs(Shape(), a.data, Some(p), f.rest, Nil, f.rest)
    {
      assert DeepUpTo(f.rest, f.rest) == {};
    }

    /** The entries still to be looked at are not choice values, nor is p. */
    lemma RestUnjoined(a: Snap, s: Snap, f: Forest, done: Forest, menu: int, cur: Forest)
      requires f.Entry? && Distinct(f) && DataSized(a.data) && DataSized(initial) && Untouched(a, f.rest) &&
               Unjoined(a.joined, f.id)
      requires Progress(a, s, f.rest, done, cur)
      ensures Unjoined(s.joined, f.id)
      ensures cur.Entry? ==> Unjoined(s.joined, cur.id)
    {
      hide SuffixOf, Ids, Distinct, Preorder, Requiring, Stepped, Filled, FlatBelow, HandedUpTo, SameData, Deep;
      SplitInOrder(f, done, cur);
    }

    /** The ids of a chain that is partly done. */
    lemma SplitInOrder(f: Forest, done: Forest, cur: Forest)
      requires f.Entry? && Distinct(f) && SuffixOf(cur, f.rest)
      requires Distinct(Append(done, cur)) && Preorder(Append(done, cur)) == Preorder(f.rest)
      ensures f.id !in Preorder(done)
      ensures cur.Entry? ==> cur.id !in Preorder(done) && cur.id in Ids(f.rest)
    {
      NotInSubmenu(f, done, cur);
      SuffixFacts(cur, f.rest);
      AppendDistinct(done, cur);
      PreorderIds(done);
    }

    method CloseSubmenu(ghost a: Snap, p: nat, ghost up: int, ghost f: Forest, ghost done: Forest, ghost menu: int,
                        ghost cur: Forest, last: int)
      requires f.Entry? && f.id == p && f.kids == Nil && Distinct(f) && Sane() && Collecting()
      requires Progress(a, Now(), f.rest, done, cur) && SubmenuLinks(links, p, up, done, menu, cur)
      requires last == (if done.Nil? then -1 else LastId(done))
      modifies this`links
      ensures Sane() && Collecting() && SubmenuLinked(a, Now(), p, up, f, done, cur)
    {
      hide Progress, SubmenuLinked, Collecting, Distinct;
      ghost var s := Now();
      if last != -1 {
        SubmenuLast(a, s, p, up, f, done, menu, cur);
        LinkSubmenu(p, last);
      }
      SubmenuClose(a, s, Now(), p, up, f, done, menu, cur, last);
    }

    /** The entries behind p up to `last` become its list. */
    method LinkSubmenu(p: nat, last: nat)
      requires Sane() && Collecting() && p < |links.next| && last < |links.next| && p != last
      modifies this`links
      ensures Sane() && Collecting()
      ensures links == old(links).(list := old(links.list)[p := old(links.next)[p]],
                                   next := old(links.next)[p := old(links.next)[last]][last := -1])
    {
      links := links.(list := links.list[p := links.next[p]]);
      links := links.(next := links.next[p := links.next[last]]);
      links := links.(next := links.next[last := -1]);
    }

    method SetParent(n: nat, p: nat)
      requires Sane() && Collecting() && n < |links.parent|
      modifies this`links
      ensures Sane() && Collecting() && links == old(links).(parent := old(links.parent)[n := p])
    {
      links := links.(parent := links.parent[n := p]);
    }

    lemma SubmenuLast(a: Snap, s: Snap, p: nat, up: int, f: Forest, done: Forest, menu: int, cur: Forest)
      requires f.Entry? && f.id == p && f.kids == Nil && Distinct(f) && done.Entry?
      requires Progress(a, s, f.rest, done, cur) && SubmenuLinks(s.links, p, up, done, menu, cur)
      ensures LastId(done) < |s.links.next| && LastId(done) != p
    {
      SegLast(s.links, s.links.next[p], p, done, menu);
      LastInTops(done);
      TopsInIds(done);
      AppendIds(done, cur);
      SamePreorder(Append(done, cur), f.rest);
    }

    lemma SamePrompt(p: nat)
      requires Sane() && p < |prompt| && Unjoined(joined, p)
      ensures PromptCondition(p) == PromptOr(Shape(), data, p, None)
    {
    }

    /** The test of the loop is the one of the specification. */
    lemma TestedHere(p: nat, menu: nat)
      requires Sane() && p < |syms| && syms[p].Some? && menu < |prompt| && Unjoined(joined, menu)
      ensures InSubmenu(syms[p].value, PromptOr(Shape(), data, p, None), ItemCondition(menu)) <==>
              Belongs(Shape(), data, p, menu)
    {
    }

    /** One entry is finalised and becomes a child of p. */
    method SubmenuEntry(ghost a: Snap, p: nat, ghost up: int, ghost f: Forest, ghost done: Forest, menu: nat,
                        ghost cur: Forest)
      returns (ghost done': Forest, ghost cur': Forest)
      requires Sane() && Collecting() && f.Entry? && f.id == p && Distinct(f) && ParsedKids(f) && cur.Entry?
      requires DataSized(a.data) && Untouched(a, f.rest)
      requires Progress(a, Now(), f.rest, done, cur) && SubmenuLinks(links, p, up, done, menu, cur)
      requires DoneAs(Shape(), data, Some(p), f.rest, done, cur) && Belongs(Shape(), data, p, menu)
      modifies this
      ensures Sane() && Collecting() && menu < |links.next| && Progress(a, Now(), f.rest, done', cur')
      ensures SubmenuLinks(links, p, up, done', links.next[menu], cur')
      ensures NodeCount(cur') < NodeCount(cur) && done'.Entry? && LastId(done') == menu
      ensures DoneAs(Shape(), data, Some(p), f.rest, done', cur')
      ensures PromptOr(Shape(), data, p, None) == old(PromptOr(Shape(), data, p, None))
      decreases NodeCount(f), 0, 0
    {
      hide Untouched, DoneAs, Belongs, FinalEntry, Chosen, Filled, Stepped, HandedUpTo, FlatBelow;
      hide Collecting, HeadChosen;
      ghost var before := Now();
      ChildReady(a, before, p, up, f.rest, done, menu, cur);
      ghost var h := Finalize(menu, up, cur);
      ghost var mid := Now();
      SetParent(menu, p);
      SubmenuStep(a, before, mid, Now(), p, up, f, done, menu, cur, h);
      SubmenuShape(before, mid, p, f, done, cur, h);
      done', cur' := Append(done, Entry(h.id, h.kids, Nil)), h.rest;
    }

    lemma SubmenuShape(b: Snap, m: Snap, p: nat, f: Forest, done: Forest, cur: Forest, h: Forest)
      requires f.Entry? && f.id == p && Distinct(f) && SuffixOf(cur, f.rest) && cur.Entry? && h.Entry? &&
               SuffixOf(h.rest, cur.rest)
      requires DoneAs(Shape(), b.data, Some(p), f.rest, done, cur) && Belongs(Shape(), b.data, p, cur.id)
      requires Stepped(b, m, cur, h.rest, [h.id] + Preorder(h.kids)) && h == FinalEntry(Shape(), m.data, cur)
      ensures DoneAs(Shape(), m.data, Some(p), f.rest, Append(done, Entry(h.id, h.kids, Nil)), h.rest)
      ensures PromptOr(Shape(), m.data, p, None) == PromptOr(Shape(), b.data, p, None)
    {
      SuffixTransitive(h.rest, cur.rest, cur);
      SuffixFacts(cur, f.rest);
      SuffixFacts(h.rest, cur);
      DeepInIds(cur);
      ShapeNext(b, m, Some(p), f.rest, done, cur, h, [h.id] + Preorder(h.kids));
    }

    lemma SubmenuStep(a: Snap, b: Snap, m: Snap, s: Snap, p: nat, up: int, f: Forest, done: Forest, menu: nat,
                      cur: Forest, h: Forest)
      requires f.Entry? && f.id == p && Distinct(f) && cur.Entry? && Finalized(b, m, menu, up, cur, h)
      requires Progress(a, b, f.rest, done, cur) && SubmenuLinks(b.links, p, up, done, menu, cur)
      requires menu < |m.links.parent| && s == m.(links := m.links.(parent := m.links.parent[menu := p]))
      ensures menu < |s.links.next| && Progress(a, s, f.rest, Append(done, Entry(h.id, h.kids, Nil)), h.rest)
      ensures SubmenuLinks(s.links, p, up, Append(done, Entry(h.id, h.kids, Nil)), s.links.next[menu], h.rest)
      ensures NodeCount(h.rest) < NodeCount(cur)
      ensures var k := Append(done, Entry(h.id, h.kids, Nil)); k.Entry? && LastId(k) == menu
    {
      ChainStep(done, cur, h, Preorder(f.rest));
      SamePreorder(h, cur);
      LastAppend(done, Entry(menu, h.kids, Nil));
      SubmenuStepLinks(b.links, m.links, s.links, p, up, f, done, menu, cur, h);
      ProgressStep(a, b, s, f.rest, done, cur, h);
    }

    /** One entry more in the submenu: the pointers. */
    lemma SubmenuStepLinks(b: Links, m: Links, l: Links, p: nat, up: int, f: Forest, done: Forest, menu: nat,
                           cur: Forest, h: Forest)
      requires SubmenuLinks(b, p, up, done, menu, cur) && cur.Entry? && h.Entry? && h.id == menu
      requires f.Entry? && f.id == p && Distinct(f) && SuffixOf(cur, f.rest) && Ids(done) !! Ids(cur)
      requires Rep(m, menu, up, h) && SameOutside(b, m, Ids(cur)) && Distinct(h) && Ids(h) == Ids(cur)
      requires l == m.(parent := m.parent[menu := p])
      ensures menu < |l.next| && SubmenuLinks(l, p, up, Append(done, Entry(menu, h.kids, Nil)), l.next[menu], h.rest)
      ensures SameOutside(b, l, Ids(cur))
    {
      hide Ids, Distinct, SuffixOf;
      SubmenuApart(f, cur, h);
      SameAtOutside(b, l, done, cur);
      SegFrame(b, l, b.next[p], p, done, menu);
      RepFrame(m, l, m.list[menu], menu, h.kids);
      RepFrame(m, l, m.next[menu], up, h.rest);
      SegExtend(l, l.next[p], p, done, menu, h.kids);
    }

    lemma SubmenuApart(f: Forest, cur: Forest, h: Forest)
      requires f.Entry? && Distinct(f) && SuffixOf(cur, f.rest) && cur.Entry? && h.Entry? && Distinct(h) &&
               Ids(h) == Ids(cur)
      ensures f.id !in Ids(cur) && h.id in Ids(cur) && h.id !in Ids(h.kids) && h.id !in Ids(h.rest)
    {
      SuffixFacts(cur, f.rest);
    }

    /** One entry more: the data. */
    lemma ProgressStep(a: Snap, b: Snap, s: Snap, g: Forest, done: Forest, cur: Forest, h: Forest)
      requires Progress(a, b, g, done, cur) && cur.Entry? && h.Entry? && Distinct(g)
      requires DataSized(s.data) && SuffixOf(h.rest, cur.rest) && Distinct(h) && Preorder(h) == Preorder(cur)
      requires Stepped(b, s, cur, h.rest, [h.id] + Preorder(h.kids)) && HandedUpTo(s.data, cur, h.rest)
      requires Flat(h.kids) && HeadChosen(b, s, h)
      ensures Progress(a, s, g, Append(done, Entry(h.id, h.kids, Nil)), h.rest)
    {
      ChainStep(done, cur, h, Preorder(g));
      DataStep(a, b, s, g, done, cur, h);
      FlatBelowAppend(done, h.id, h.kids);
      ChosenStep(a, b, s, done, h);
    }

    lemma ChosenStep(a: Snap, b: Snap, s: Snap, done: Forest, h: Forest)
      requires Chosen(a, b, Preorder(done)) && Filled(Shape(), b.joined, done) && h.Entry? && HeadChosen(b, s, h)
      ensures var k := Append(done, Entry(h.id, h.kids, Nil)); Chosen(a, s, Preorder(k)) && Filled(Shape(), s.joined, k)
    {
      var e, visited := Entry(h.id, h.kids, Nil), [h.id] + Preorder(h.kids);
      AppendPreorder(done, e);
      assert Preorder(e) == visited;
      ChosenCompose(a, b, s, Preorder(done), visited);
      FilledGrown(Shape(), b.joined, s.joined, (set i | i in visited), done);
      FilledAppend(Shape(), s.joined, done, e);
    }

    /** The submenu has been linked in. */
    ghost predicate SubmenuLinked(a: Snap, s: Snap, p: nat, up: int, f: Forest, done: Forest, cur: Forest) {
      && DataSized(initial) && DataSized(s.data) && f.Entry?
      && Rep(s.links, p, up, Entry(p, done, cur)) && SameOutside(a.links, s.links, Ids(f))
      && Progress(a, s.(links := a.links), f.rest, done, cur)
    }

    lemma SubmenuClose(a: Snap, s: Snap, t: Snap, p: nat, up: int, f: Forest, done: Forest, menu: int, cur: Forest,
                       last: int)
      requires f.Entry? && f.id == p && f.kids == Nil && Distinct(f)
      requires Progress(a, s, f.rest, done, cur) && SubmenuLinks(s.links, p, up, done, menu, cur)
      requires done.Nil? ==> t == s
      requires done.Entry? ==> SubmenuEnd(s, t, p, last, done)
      ensures SubmenuLinked(a, t, p, up, f, done, cur)
    {
      hide Grown, Filled, HandedUpTo, FlatBelow, SuffixOf, Seg, DeepUpTo, SameData, Ids, Preorder, Distinct;
      SubmenuParts(f, done, cur);
      SubmenuCloseLinks(s, t, p, up, done, menu, cur, last);
      assert SameOutside(a.links, t.links, Ids(f));
    }

    lemma SubmenuParts(f: Forest, done: Forest, cur: Forest)
      requires f.Entry? && f.kids == Nil && Distinct(f)
      requires Distinct(Append(done, cur)) && Preorder(Append(done, cur)) == Preorder(f.rest)
      ensures Distinct(done) && Ids(done) !! Ids(cur) && f.id !in Ids(done) && f.id !in Ids(cur)
      ensures f.id in Ids(f) && Ids(f.rest) <= Ids(f) && (done.Entry? ==> LastId(done) in Ids(f))
    {
      AppendIds(done, cur);
      AppendDistinct(done, cur);
      SamePreorder(Append(done, cur), f.rest);
      if done.Entry? {
        LastInTops(done);
        TopsInIds(done);
      }
    }

    /** The last step of building the submenu `done`: p gets it as its list. */
    predicate SubmenuEnd(s: Snap, t: Snap, p: nat, last: int, done: Forest)
      requires done.Entry?
    {
      && Sized(s.links) && p < |s.links.next| && last == LastId(done) < |s.links.next| && last != p
      && t == s.(links := s.links.(list := s.links.list[p := s.links.next[p]],
                                   next := s.links.next[p := s.links.next[last]][last := -1]))
    }

    lemma SubmenuCloseLinks(s: Snap, t: Snap, p: nat, up: int, done: Forest, menu: int, cur: Forest, last: int)
      requires SubmenuLinks(s.links, p, up, done, menu, cur)
      requires Distinct(done) && Ids(done) !! Ids(cur) && p !in Ids(done) && p !in Ids(cur)
      requires done.Nil? ==> t == s
      requires done.Entry? ==> SubmenuEnd(s, t, p, last, done)
      ensures Rep(t.links, p, up, Entry(p, done, cur))
    {
      if done.Entry? {
        SegLast(s.links, s.links.next[p], p, done, menu);
        LastInTops(done);
        TopsInIds(done);
        SegRelink(s.links, t.links, s.links.next[p], p, done, menu, -1);
        SegRep(t.links, s.links.next[p], p, done, -1, Nil);
        AppendAssoc(done, Nil, Nil);
        RepFrame(s.links, t.links, menu, up, cur);
      }
    }

    lemma NotInSubmenu(f: Forest, done: Forest, cur: Forest)
      requires f.Entry? && Distinct(f) && Preorder(Append(done, cur)) == Preorder(f.rest)
      ensures f.id !in Preorder(done)
    {
      SamePreorder(Append(done, cur), f.rest);
      AppendIds(done, cur);
      PreorderIds(done);
    }

    lemma SubmenuDone(a: Snap, s: Snap, p: nat, up: int, f: Forest, done: Forest, cur: Forest)
      requires Ready(a, p, up, f) && f.kids == Nil
      requires SubmenuLinked(a.(log := a.log + [p]), s, p, up, f, done, cur)
      ensures f.rest != f && s.log == a.log + ([p] + Preorder(done)) && p !in s.direct &&
              EntryChosen(a, s, Entry(p, done, cur))
    {
      hide Rep, Seg, HandedUpTo, FlatBelow, SuffixOf, ParsedKids, Distinct, Deep, DeepUpTo;
      hide SameOutside, SameData, Grown, Filled, Requiring;
      NotInSubmenu(f, done, cur);
      assert s.log == a.log + [p] + Preorder(done);
    }

    /** The entry, its submenu, and what its symbol now depends on. */
    lemma DirectAdded(a: Snap, b: Snap, s: Snap, p: nat, up: int, f: Forest, h: Forest)
      requires Ready(a, p, up, f) && f.kids == Nil && p < |syms| && syms[p].Some? && h.Entry? && h.id == p
      requires SubmenuLinked(a.(log := a.log + [p]), b, p, up, f, h.kids, h.rest) && f.rest != f
      requires b.log == a.log + ([p] + Preorder(h.kids)) && Sized(a.links)
      requires s == b.(data := b.data.(dirDep := s.data.dirDep), direct := b.direct + [p]) &&
               |s.data.dirDep| == |b.data.dirDep|
      ensures EntryDone(a, s, p, up, f, h)
    {
      SubmenuOrder(f, h);
      SubmenuStepped(a, b, s, p, f, h);
      HandedUpToFrame(b.data, s.data, f.rest, h.rest);
    }

    lemma SubmenuOrder(f: Forest, h: Forest)
      requires f.Entry? && f.kids == Nil && Distinct(f) && f.rest != f && h.Entry? && h.id == f.id &&
               SuffixOf(h.rest, f.rest)
      requires Distinct(Append(h.kids, h.rest)) && Preorder(Append(h.kids, h.rest)) == Preorder(f.rest)
      ensures Distinct(h) && Preorder(h) == Preorder(f) && DeepUpTo(f, h.rest) == DeepUpTo(f.rest, h.rest) &&
              f != h.rest
    {
      SameRest(f, h);
      SuffixFacts(h.rest, f.rest);
    }

    lemma SameRest(f: Forest, h: Forest)
      requires f.Entry? && f.kids == Nil && Distinct(f) && h.Entry? && h.id == f.id
      requires Distinct(Append(h.kids, h.rest)) && Preorder(Append(h.kids, h.rest)) == Preorder(f.rest)
      ensures Distinct(h) && Preorder(h) == Preorder(f)
    {
      AppendPreorder(h.kids, h.rest);
      AppendDistinct(h.kids, h.rest);
      SamePreorder(Append(h.kids, h.rest), f.rest);
      AppendIds(h.kids, h.rest);
      assert [] + Preorder(f.rest) == Preorder(f.rest);
    }

    lemma SubmenuStepped(a: Snap, b: Snap, s: Snap, p: nat, f: Forest, h: Forest)
      requires f.Entry? && h.Entry? && DataSized(a.data) && p < |syms| && syms[p].Some? && f.id == p && p !in blocks
      requires Stepped(a.(log := a.log + [p]), b.(links := a.links), f.rest, h.rest, Preorder(h.kids))
      requires SameOutside(a.links, b.links, Ids(f)) && DeepUpTo(f, h.rest) == DeepUpTo(f.rest, h.rest)
      requires b.log == a.log + ([p] + Preorder(h.kids))
      requires s == b.(data := b.data.(dirDep := s.data.dirDep), direct := b.direct + [p]) &&
               |s.data.dirDep| == |b.data.dirDep|
      ensures Stepped(a, s, f, h.rest, [p] + Preorder(h.kids))
    {
    }

    // ----- the whole tree

    /** Nothing has been finalised yet. */
    ghost predicate Parsed()
      reads this
      requires Sane()
    {
      data == initial && Bare(data) && log == [] && order == [] && direct == [] && joined == NOBODY
    }

    /** `menu_finalize` of the root menu, whose children are `g`: the nodes keep their order, each is finalised
        exactly once, every parent pointer names the node whose list the entry is in, no entry without a prompt
        keeps children, every node has inherited the conditions of the blocks it was written in, and all that is left in
        the list of a choice are its choice values. */
    method FinalizeRoot(root: nat, ghost g: Forest) returns (ghost h: Forest)
      requires Sane() && Parsed() && Rep(links, root, -1, Entry(root, g, Nil))
      requires Distinct(Entry(root, g, Nil)) && ParsedKids(Entry(root, g, Nil))
      modifies this
      ensures Sane() && Collecting() && Rep(links, root, -1, Entry(root, h, Nil)) && Distinct(Entry(root, h, Nil))
      ensures Preorder(h) == Preorder(g) && log == [root] + Preorder(g) && Flat(h)
      ensures Entry(root, h, Nil) == FinalEntry(Shape(), data, Entry(root, g, Nil))
      ensures Handed(data, g, root) && data.dep[root] == initial.dep[root] && |data.dirDep| == |old(data.dirDep)|
      ensures Filled(Shape(), joined, Entry(root, h, Nil))
      ensures forall s :: s in joined.valueOf ==> joined.valueOf[s].node in Ids(Entry(root, g, Nil))
      ensures forall i :: Inherited(i) in order <==> i in Ids(g)
      ensures forall i :: Required(i) in order <==> (i == root || i in Ids(g)) && Requiring(Shape(), i)
      ensures forall i :: i in direct <==> (i == root || i in Ids(g)) && syms[i].Some? && i !in blocks
    {
      ghost var f := Entry(root, g, Nil);
      RepBounds(links, root, -1, f);
      ghost var end := Finalize(root, -1, f);
      h := end.kids;
      RootDone(old(Now()), Now(), root, f, end);
    }

    lemma RootDone(a: Snap, s: Snap, root: nat, f: Forest, end: Forest)
      requires f.Entry? && f.rest == Nil && f.id == root < |syms| && Distinct(f) && Finalized(a, s, root, -1, f, end)
      requires a.log == [] && a.order == [] && a.direct == [] && a.joined == NOBODY
      requires forall i :: i in Ids(f) ==> i < |syms|
      ensures end == Entry(root, end.kids, Nil) && Preorder(end.kids) == Preorder(f.kids) &&
              s.log == [root] + Preorder(f.kids)
      ensures Handed(s.data, f.kids, root) && s.data.dep[root] == a.data.dep[root]
      ensures forall v :: v in s.joined.valueOf ==> s.joined.valueOf[v].node in Ids(f)
      ensures forall i :: Inherited(i) in s.order <==> i in Ids(f.kids)
      ensures forall i :: Required(i) in s.order <==> (i == root || i in Ids(f.kids)) && Requiring(Shape(), i)
      ensures forall i :: i in s.direct <==> (i == root || i in Ids(f.kids)) && syms[i].Some? && i !in blocks
    {
      hide Rep, Distinct, Flat, FlatBelow, Filled, Ids, Preorder, DeepUpTo, SameOutside, Requiring;
      RootOrder(f, end);
      assert s.log == [] + ([root] + Preorder(end.kids));
      assert Handed(s.data, f.kids, f.id);
    }

    lemma RootOrder(f: Forest, end: Forest)
      requires f.Entry? && f.rest == Nil && end.Entry? && end.id == f.id && Preorder(end) == Preorder(f) &&
               SuffixOf(end.rest, Nil)
      requires Distinct(f)
      ensures end.rest == Nil && Preorder(end.kids) == Preorder(f.kids) && DeepUpTo(f, Nil) == Ids(f.kids)
      ensures f.id !in Ids(f.kids) && Ids(f) == {f.id} + Ids(f.kids)
      ensures forall i :: i in [f.id] + Preorder(end.kids) <==> i == f.id || i in Ids(f.kids)
    {
      PreorderIds(f.kids);
      assert [f.id] + (Preorder(end.kids) + []) == [f.id] + (Preorder(f.kids) + []);
      assert Preorder(end.kids) == ([f.id] + (Preorder(end.kids) + []))[1..];
      assert Preorder(f.kids) == ([f.id] + (Preorder(f.kids) + []))[1..];
    }
  }
}
