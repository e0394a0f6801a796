/** The walk over the menu tree in `conf_write` and `conf_write_defconfig`, which needs no stack: it goes down a
    list, along the next pointers, and back up the parent pointers. */
module MenuWalk {
  import opened MenuForest
  import opened MenuFinalize

  /** Enter: the entry is written. Leave: its "end of" comment is written, after its last child. */
  datatype Event = Enter(node: nat) | Leave(node: nat)

  function Leaving(f: Forest): seq<Event>
    requires f.Entry?
  {
    if f.kids.Entry? then [Leave(f.id)] else []
  }

  /** What the walk does with the entries `f`. */
  function Events(f: Forest): seq<Event> {
    if f.Nil? then [] else [Enter(f.id)] + (Events(f.kids) + (Leaving(f) + Events(f.rest)))
  }

  function Entered(events: seq<Event>): seq<nat> {
    if events == [] then []
    else (if events[0].Enter? then [events[0].node] else []) + Entered(events[1..])
  }

  lemma {:induction false} EnteredConcat(a: seq<Event>, b: seq<Event>)
    ensures Entered(a + b) == Entered(a) + Entered(b)
  {
    if a == [] {
      assert a + b == b;
    } else {
      EnteredConcat(a[1..], b);
      assert (a + b)[0] == a[0] && (a + b)[1..] == a[1..] + b;
      var first := if a[0].Enter? then [a[0].node] else [];
      assert first + (Entered(a[1..]) + Entered(b)) == (first + Entered(a[1..])) + Entered(b);
    }
  }

  /** The entries are entered in preorder. */
  lemma {:induction false} EventsPreorder(f: Forest)
    ensures Entered(Events(f)) == Preorder(f)
  {
    if f.Entry? {
      EventsPreorder(f.kids);
      EventsPreorder(f.rest);
      EnteredConcat([Enter(f.id)], Events(f.kids) + (Leaving(f) + Events(f.rest)));
      EnteredConcat(Events(f.kids), Leaving(f) + Events(f.rest));
      EnteredConcat(Leaving(f), Events(f.rest));
      assert Entered([Enter(f.id)]) == [f.id];
      assert Entered(Leaving(f)) == [];
      assert [] + Preorder(f.rest) == Preorder(f.rest);
    }
  }

  /** What happens from entering node n to leaving it: all its children in between, and "end of" only for a block. */
  function BlockEvents(n: nat, kids: Forest): seq<Event> {
    [Enter(n)] + (Events(kids) + if kids.Entry? then [Leave(n)] else [])
  }

  /** For every entry the walk does that in one go. */
  lemma {:induction false} BlockInOneGo(f: Forest, n: nat) returns (a: seq<Event>, b: seq<Event>)
    requires n in Ids(f)
    ensures Events(f) == a + (BlockEvents(n, KidsOf(f, n)) + b)
  {
    if n == f.id {
      a, b := [], Events(f.rest);
    } else if n in Ids(f.kids) {
      var c, d := BlockInOneGo(f.kids, n);
      a, b := [Enter(f.id)] + c, d + (Leaving(f) + Events(f.rest));
    } else {
      var c, d := BlockInOneGo(f.rest, n);
      a, b := [Enter(f.id)] + (Events(f.kids) + (Leaving(f) + c)), d;
    }
  }

  /** And it leaves every block once, and no other entry. */
  function Left(events: seq<Event>): seq<nat> {
    if events == [] then [] else (if events[0].Leave? then [events[0].node] else []) + Left(events[1..])
  }

  /** The nodes that have children, innermost first. */
  function BlocksUpward(f: Forest): seq<nat> {
    if f.Nil? then [] else BlocksUpward(f.kids) + ((if f.kids.Entry? then [f.id] else []) + BlocksUpward(f.rest))
  }

  lemma {:induction false} LeftConcat(a: seq<Event>, b: seq<Event>)
    ensures Left(a + b) == Left(a) + Left(b)
  {
    if a == [] {
      assert a + b == b;
    } else {
      LeftConcat(a[1..], b);
      assert (a + b)[0] == a[0] && (a + b)[1..] == a[1..] + b;
      var first := if a[0].Leave? then [a[0].node] else [];
      assert first + (Left(a[1..]) + Left(b)) == (first + Left(a[1..])) + Left(b);
    }
  }

  lemma {:induction false} EventsLeave(f: Forest)
    ensures Left(Events(f)) == BlocksUpward(f)
  {
    if f.Entry? {
      EventsLeave(f.kids);
      EventsLeave(f.rest);
      LeftConcat([Enter(f.id)], Events(f.kids) + (Leaving(f) + Events(f.rest)));
      LeftConcat(Events(f.kids), Leaving(f) + Events(f.rest));
      LeftConcat(Leaving(f), Events(f.rest));
      assert Left([Enter(f.id)]) == [];
      assert Left(Leaving(f)) == if f.kids.Entry? then [f.id] else [];
      assert [] + Left(Events(f.kids) + (Leaving(f) + Events(f.rest))) ==
             Left(Events(f.kids) + (Leaving(f) + Events(f.rest)));
    }
  }

  /** The blocks around the current entry, innermost first, each with the entries after it. */
  datatype Around = Top | Inside(id: nat, rest: Forest, around: Around)

  function Owner(root: nat, s: Around): nat { if s.Top? then root else s.id }

  /** What is left to do after the current list of entries. */
  function Pending(s: Around): seq<Event> {
    if s.Top? then [] else [Leave(s.id)] + (Events(s.rest) + Pending(s.around))
  }

  function Depth(s: Around): nat { if s.Top? then 0 else 1 + Depth(s.around) }

  predicate Linked(l: Links, root: nat, s: Around)
    requires Sized(l) && root < |l.next|
  {
    if s.Top? then l.next[root] == -1 && l.parent[root] == -1
    else
      && s.id < |l.next| && s.id != root && l.parent[s.id] == Owner(root, s.around)
      && Rep(l, l.next[s.id], Owner(root, s.around), s.rest) && Linked(l, root, s.around)
  }

  /** The walk stands at the first entry of `cur`, inside `s`, or is over. */
  predicate At(l: Links, root: nat, menu: int, cur: Forest, s: Around) {
    && Sized(l) && root < |l.next| && (menu == -1 ==> cur.Nil? && s.Top?) && (menu != -1 ==> cur.Entry?)
    && Rep(l, menu, Owner(root, s), cur) && Linked(l, root, s) && root !in Ids(cur) && RootOutside(root, s)
  }

  predicate RootOutside(root: nat, s: Around) { s.Inside? ==> root !in Ids(s.rest) && RootOutside(root, s.around) }

  function Remaining(cur: Forest, s: Around): seq<Event> { Events(cur) + Pending(s) }

  /** The walk has done `visited` of `all`. */
  predicate Done(visited: seq<Event>, cur: Forest, s: Around, all: seq<Event>) { visited + Remaining(cur, s) == all }

  /** The whole walk. */
  method Walk(l: Links, root: nat, ghost g: Forest) returns (visited: seq<Event>)
    requires Sized(l) && Rep(l, root, -1, Entry(root, g, Nil)) && Distinct(Entry(root, g, Nil))
    ensures visited == Events(g)
  {
    var menu := l.list[root];
    ghost var cur, s := g, Top;
    visited := [];
    while menu != -1
      invariant At(l, root, menu, cur, s) && Done(visited, cur, s, Events(g))
      decreases |Remaining(cur, s)|
    {
      Step(l, root, menu, cur, s, visited, Events(g));
      visited := visited + [Enter(menu)];
      if l.list[menu] != -1 {
        s := Inside(cur.id, cur.rest, s);
        cur := cur.kids;
        menu := l.list[menu];
      } else if l.next[menu] != -1 {
        cur := cur.rest;
        menu := l.next[menu];
      } else {
        menu, visited, cur, s := Climb(l, root, menu, visited, cur.rest, s, Events(g));
      }
    }
  }

  /** After an entry come its children, or else the entries after it. */
  lemma Step(l: Links, root: nat, menu: nat, cur: Forest, s: Around, visited: seq<Event>, all: seq<Event>)
    requires At(l, root, menu, cur, s) && Done(visited, cur, s, all)
    ensures menu < |l.next| && menu != root && l.parent[menu] == Owner(root, s)
    ensures l.list[menu] != -1 ==>
              var t := Inside(cur.id, cur.rest, s);
              At(l, root, l.list[menu], cur.kids, t) && Done(visited + [Enter(menu)], cur.kids, t, all) &&
              |Remaining(cur.kids, t)| < |Remaining(cur, s)|
    ensures l.list[menu] == -1 ==>
              Done(visited + [Enter(menu)], cur.rest, s, all) && |Remaining(cur.rest, s)| < |Remaining(cur, s)|
    ensures l.list[menu] == -1 && l.next[menu] != -1 ==> At(l, root, l.next[menu], cur.rest, s)
    ensures l.list[menu] == -1 && l.next[menu] == -1 ==> cur.rest.Nil?
  {
    assert Rep(l, l.list[menu], cur.id, cur.kids) && Rep(l, l.next[menu], Owner(root, s), cur.rest);
    if cur.kids.Entry? {
      Down(cur, s, visited, all);
    } else {
      Along(cur, s, visited, all);
    }
  }

  lemma Down(cur: Forest, s: Around, visited: seq<Event>, all: seq<Event>)
    requires cur.Entry? && cur.kids.Entry? && Done(visited, cur, s, all)
    ensures var t := Inside(cur.id, cur.rest, s);
            Done(visited + [Enter(cur.id)], cur.kids, t, all) && |Remaining(cur.kids, t)| < |Remaining(cur, s)|
  {
    var t := Inside(cur.id, cur.rest, s);
    assert Remaining(cur, s) == [Enter(cur.id)] + Remaining(cur.kids, t);
  }

  lemma Along(cur: Forest, s: Around, visited: seq<Event>, all: seq<Event>)
    requires cur.Entry? && cur.kids.Nil? && Done(visited, cur, s, all)
    ensures Done(visited + [Enter(cur.id)], cur.rest, s, all) && |Remaining(cur.rest, s)| < |Remaining(cur, s)|
  {
    assert Events(cur) == [Enter(cur.id)] + Events(cur.rest);
    assert Remaining(cur, s) == [Enter(cur.id)] + Remaining(cur.rest, s);
  }

  /** From the last entry of a list up to the next entry after one of the blocks around it. */
  method Climb(l: Links, root: nat, from: nat, visited: seq<Event>, ghost cur: Forest, ghost s: Around,
               ghost all: seq<Event>)
    returns (menu: int, visited': seq<Event>, ghost cur': Forest, ghost s': Around)
    requires Sized(l) && root < |l.next| && from < |l.next| && l.parent[from] == Owner(root, s)
    requires Linked(l, root, s) && RootOutside(root, s) && cur.Nil? && Done(visited, cur, s, all)
    ensures At(l, root, menu, cur', s') && Done(visited', cur', s', all)
    ensures |Remaining(cur', s')| <= |Remaining(cur, s)|
  {
    menu, visited', cur', s' := l.parent[from], visited, cur, s;
    while menu != -1
      invariant Linked(l, root, s') && RootOutside(root, s') && cur' == Nil
      invariant menu == -1 ==> s'.Top?
      invariant menu != -1 ==> menu == Owner(root, s')
      invariant Done(visited', cur', s', all) && |Remaining(cur', s')| <= |Remaining(cur, s)|
      decreases if menu == -1 then 0 else 1 + Depth(s')
    {
      if menu != root {
        Up(s', visited', all);
        visited' := visited' + [Leave(menu)];
        cur', s' := s'.rest, s'.around;
      }
      if l.next[menu] != -1 {
        menu := l.next[menu];
        return;
      }
      menu := l.parent[menu];
    }
  }

  lemma Up(s: Around, visited: seq<Event>, all: seq<Event>)
    requires s.Inside? && Done(visited, Nil, s, all)
    ensures Done(visited + [Leave(s.id)], s.rest, s.around, all)
    ensures |Remaining(s.rest, s.around)| < |Remaining(Nil, s)|
  {
  }

  /** Finalising the menus and then walking over them enters every entry once, in the order of the Kconfig files. */
  method FinalizeAndWalk(t: MenuTree, root: nat, ghost g: Forest) returns (visited: seq<Event>)
    requires t.Sane() && t.Parsed() && Rep(t.links, root, -1, Entry(root, g, Nil))
    requires Distinct(Entry(root, g, Nil)) && t.ParsedKids(Entry(root, g, Nil))
    modifies t
    ensures Entered(visited) == Preorder(g)
  {
    ghost var h := t.FinalizeRoot(root, g);
    visited := Walk(t.links, root, h);
    EventsPreorder(h);
  }
}
