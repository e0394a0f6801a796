/** The linked menu nodes as values. A node holds a pointer to its next sibling, to its first child and to its
    parent; here pointers are indices and -1 is the null pointer. */
module MenuForest {

  /** A first entry with its children, and the entries after it. */
  datatype Forest = Nil | Entry(id: nat, kids: Forest, rest: Forest)

  function NodeCount(f: Forest): nat {
    if f.Nil? then 0 else 1 + NodeCount(f.kids) + NodeCount(f.rest)
  }

  function Preorder(f: Forest): (s: seq<nat>)
    ensures |s| == NodeCount(f)
  {
    if f.Nil? then [] else [f.id] + (Preorder(f.kids) + Preorder(f.rest))
  }

  function Ids(f: Forest): set<nat> {
    if f.Nil? then {} else {f.id} + Ids(f.kids) + Ids(f.rest)
  }

  /** The ids at the top level. */
  function Tops(f: Forest): set<nat> {
    if f.Nil? then {} else {f.id} + Tops(f.rest)
  }

  /** The children of node n. */
  function KidsOf(f: Forest, n: nat): Forest
    requires n in Ids(f)
  {
    if n == f.id then f.kids else if n in Ids(f.kids) then KidsOf(f.kids, n) else KidsOf(f.rest, n)
  }

  /** No node occurs twice. */
  predicate Distinct(f: Forest) {
    f.Entry? ==>
      && f.id !in Ids(f.kids) && f.id !in Ids(f.rest) && Ids(f.kids) !! Ids(f.rest)
      && Distinct(f.kids) && Distinct(f.rest)
  }

  /** The pointers of all nodes. */
  datatype Links = Links(next: seq<int>, list: seq<int>, parent: seq<int>)

  predicate Sized(l: Links) { |l.next| == |l.list| == |l.parent| }

  /** Pointer `p` leads to the entries `f`, whose parent pointers all say `up`. */
  predicate Rep(l: Links, p: int, up: int, f: Forest)
    decreases f
  {
    if f.Nil? then p == -1
    else
      && Sized(l) && p == f.id < |l.next| && l.parent[p] == up
      && Rep(l, l.list[p], f.id, f.kids) && Rep(l, l.next[p], up, f.rest)
  }

  /** Pointer `p` leads over the entries `f` to pointer `q`. */
  predicate Seg(l: Links, p: int, up: int, f: Forest, q: int)
    decreases f
  {
    if f.Nil? then p == q
    else
      && Sized(l) && p == f.id < |l.next| && l.parent[p] == up
      && Rep(l, l.list[p], f.id, f.kids) && Seg(l, l.next[p], up, f.rest, q)
  }

  function Append(f: Forest, g: Forest): Forest {
    if f.Nil? then g else Entry(f.id, f.kids, Append(f.rest, g))
  }

  /** The same pointers at all nodes outside `ids`. */
  predicate SameOutside(l: Links, m: Links, ids: set<nat>) {
    && Sized(l) && Sized(m) && |l.next| == |m.next|
    && forall i :: 0 <= i < |l.next| && i !in ids ==>
                     l.next[i] == m.next[i] && l.list[i] == m.list[i] && l.parent[i] == m.parent[i]
  }

  /** The same pointers at all nodes in `ids`. */
  predicate SameAt(l: Links, m: Links, ids: set<nat>) {
    && Sized(l) && Sized(m) && |l.next| == |m.next|
    && forall i :: i in ids && i < |l.next| ==>
                     l.next[i] == m.next[i] && l.list[i] == m.list[i] && l.parent[i] == m.parent[i]
  }

  lemma {:induction false} RepFrame(l: Links, m: Links, p: int, up: int, f: Forest)
    requires Rep(l, p, up, f) && SameAt(l, m, Ids(f))
    ensures Rep(m, p, up, f)
    decreases f
  {
    if f.Entry? {
      RepFrame(l, m, l.list[p], f.id, f.kids);
      RepFrame(l, m, l.next[p], up, f.rest);
    }
  }

  lemma {:induction false} SegFrame(l: Links, m: Links, p: int, up: int, f: Forest, q: int)
    requires Seg(l, p, up, f, q) && SameAt(l, m, Ids(f))
    ensures Seg(m, p, up, f, q)
    decreases f
  {
    if f.Entry? {
      RepFrame(l, m, l.list[p], f.id, f.kids);
      SegFrame(l, m, l.next[p], up, f.rest, q);
    }
  }

  lemma {:induction false} SegRep(l: Links, p: int, up: int, f: Forest, q: int, g: Forest)
    requires Seg(l, p, up, f, q) && Rep(l, q, up, g)
    ensures Rep(l, p, up, Append(f, g))
    decreases f
  {
    if f.Entry? { SegRep(l, l.next[p], up, f.rest, q, g); }
  }

  /** One more entry at the end of a segment. */
  lemma {:induction false} SegExtend(l: Links, p: int, up: int, f: Forest, q: int, kids: Forest)
    requires Seg(l, p, up, f, q) && Sized(l) && 0 <= q < |l.next| && l.parent[q] == up && Rep(l, l.list[q], q, kids)
    ensures Seg(l, p, up, Append(f, Entry(q, kids, Nil)), l.next[q])
    decreases f
  {
    if f.Entry? { SegExtend(l, l.next[p], up, f.rest, q, kids); }
  }

  lemma {:induction false} AppendIds(f: Forest, g: Forest)
    ensures Ids(Append(f, g)) == Ids(f) + Ids(g) && Tops(Append(f, g)) == Tops(f) + Tops(g)
  {
    if f.Entry? { AppendIds(f.rest, g); }
  }

  lemma Concat(a: seq<nat>, b: seq<nat>, c: seq<nat>)
    ensures a + (b + c) == (a + b) + c
  {
  }

  lemma {:induction false} AppendPreorder(f: Forest, g: Forest)
    ensures Preorder(Append(f, g)) == Preorder(f) + Preorder(g)
    ensures NodeCount(Append(f, g)) == NodeCount(f) + NodeCount(g)
  {
    if f.Nil? {
      assert [] + Preorder(g) == Preorder(g);
    } else {
      AppendPreorder(f.rest, g);
      Concat(Preorder(f.kids), Preorder(f.rest), Preorder(g));
      Concat([f.id], Preorder(f.kids) + Preorder(f.rest), Preorder(g));
    }
  }

  lemma {:induction false} AppendDistinct(f: Forest, g: Forest)
    ensures Distinct(f) && Distinct(g) && Ids(f) !! Ids(g) <==> Distinct(Append(f, g))
  {
    if f.Entry? {
      AppendDistinct(f.rest, g);
      AppendIds(f.rest, g);
    }
  }

  lemma {:induction false} AppendKids(f: Forest, g: Forest, n: nat)
    requires Distinct(Append(f, g)) && n in Ids(Append(f, g))
    ensures n in Ids(f) || n in Ids(g)
    ensures KidsOf(Append(f, g), n) == if n in Ids(f) then KidsOf(f, n) else KidsOf(g, n)
  {
    AppendIds(f, g);
    if f.Entry? {
      AppendIds(f.rest, g);
      if n != f.id && n !in Ids(f.kids) { AppendKids(f.rest, g, n); }
    }
  }

  lemma {:induction false} AppendAssoc(f: Forest, g: Forest, h: Forest)
    ensures Append(Append(f, g), h) == Append(f, Append(g, h)) && Append(f, Nil) == f
  {
    if f.Entry? { AppendAssoc(f.rest, g, h); }
  }

  lemma {:induction false} AppendEntry(f: Forest, id: nat, kids: Forest, g: Forest)
    ensures Append(Append(f, Entry(id, kids, Nil)), g) == Append(f, Entry(id, kids, g))
  {
    if f.Entry? { AppendEntry(f.rest, id, kids, g); }
  }

  lemma {:induction false} TopsInIds(f: Forest)
    ensures Tops(f) <= Ids(f)
  {
    if f.Entry? { TopsInIds(f.rest); }
  }

  lemma {:induction false} RepBounds(l: Links, p: int, up: int, f: Forest)
    requires Rep(l, p, up, f) && Sized(l)
    ensures forall i :: i in Ids(f) ==> i < |l.next|
    decreases f
  {
    if f.Entry? {
      RepBounds(l, l.list[p], f.id, f.kids);
      RepBounds(l, l.next[p], up, f.rest);
    }
  }

  lemma {:induction false} PreorderIds(f: Forest)
    ensures forall i :: i in Preorder(f) <==> i in Ids(f)
  {
    if f.Entry? { PreorderIds(f.kids); PreorderIds(f.rest); }
  }

  /** In a forest without repetitions the preorder visits every node exactly once. */
  lemma {:induction false} PreorderDistinct(f: Forest)
    requires Distinct(f)
    ensures forall i, j :: 0 <= i < j < |Preorder(f)| ==> Preorder(f)[i] != Preorder(f)[j]
  {
    if f.Entry? {
      PreorderDistinct(f.kids);
      PreorderDistinct(f.rest);
      PreorderIds(f.kids);
      PreorderIds(f.rest);
      var a, b := Preorder(f.kids), Preorder(f.rest);
      var s := [f.id] + (a + b);
      forall i, j | 0 <= i < j < |s| ensures s[i] != s[j] {
        assert 0 < j <= |a| ==> s[j] == a[j - 1] && s[j] in a;
        assert |a| < j ==> s[j] == b[j - 1 - |a|] && s[j] in b;
        assert 0 < i <= |a| ==> s[i] == a[i - 1] && s[i] in a;
        assert |a| < i ==> s[i] == b[i - 1 - |a|];
      }
    }
  }

  /** Equal preorders have equal sets of nodes and equal distinctness. */
  lemma SamePreorder(f: Forest, g: Forest)
    requires Preorder(f) == Preorder(g)
    ensures Ids(f) == Ids(g) && NodeCount(f) == NodeCount(g)
  {
    PreorderIds(f);
    PreorderIds(g);
  }

  /** The forest that pointer p leads to is determined by the pointers. */
  lemma {:induction false} RepUnique(l: Links, p: int, up: int, f: Forest, g: Forest)
    requires Rep(l, p, up, f) && Rep(l, p, up, g)
    ensures f == g
    decreases f
  {
    if f.Entry? && g.Entry? {
      RepUnique(l, l.list[p], f.id, f.kids, g.kids);
      RepUnique(l, l.next[p], up, f.rest, g.rest);
    }
  }

  /** The last entry at the top level. */
  function LastId(f: Forest): nat
    requires f.Entry?
  {
    if f.rest.Nil? then f.id else LastId(f.rest)
  }

  lemma {:induction false} LastInTops(f: Forest)
    requires f.Entry?
    ensures LastId(f) in Tops(f)
  {
    if f.rest.Entry? { LastInTops(f.rest); }
  }

  lemma {:induction false} LastAppend(f: Forest, g: Forest)
    requires g.Entry?
    ensures Append(f, g).Entry? && LastId(Append(f, g)) == LastId(g)
  {
    if f.Entry? { LastAppend(f.rest, g); }
  }

  lemma {:induction false} SegLast(l: Links, p: int, up: int, f: Forest, q: int)
    requires Seg(l, p, up, f, q) && f.Entry?
    ensures LastId(f) < |l.next| && l.next[LastId(f)] == q
    decreases f
  {
    if f.rest.Entry? { SegLast(l, l.next[p], up, f.rest, q); }
  }

  /** Pointing the last entry of a segment somewhere else moves the end of the segment. */
  lemma {:induction false} SegRelink(l: Links, m: Links, p: int, up: int, f: Forest, q: int, r: int)
    requires Seg(l, p, up, f, q) && f.Entry? && Distinct(f)
    requires Sized(l) && Sized(m) && |l.next| == |m.next|
    requires forall i :: i in Ids(f) && i < |l.next| ==> l.list[i] == m.list[i] && l.parent[i] == m.parent[i]
    requires forall i :: i in Ids(f) && i < |l.next| && i != LastId(f) ==> l.next[i] == m.next[i]
    requires LastId(f) < |m.next| && m.next[LastId(f)] == r
    ensures Seg(m, p, up, f, r)
    decreases f
  {
    LastInTops(f);
    if f.rest.Entry? {
      LastInTops(f.rest);
      TopsInIds(f.rest);
      RepFrame(l, m, l.list[p], f.id, f.kids);
      SegRelink(l, m, l.next[p], up, f.rest, q, r);
    } else {
      RepFrame(l, m, l.list[p], f.id, f.kids);
    }
  }
}
