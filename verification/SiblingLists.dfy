/** The linked-list operations of mu-container.c, in place. The ghost
    arguments name the forests the lists hold before the call. */
module SiblingLists {
  import opened Options
  import opened Forests
  import opened Cells
  import opened Containers

  /** set_parent */
  method SetParents(T: IdTable, c: Container?, p: Container?, ghost g: Forest, ghost q: Option<Id>, ghost m: Cache)
    requires T.Valid() && T.Known(c) && T.Known(p)
    requires IdOf(c) == Head(g) && NoDup(g) && ListRep(T.cells, g, q, m, None)
    modifies T`cells, T.table.Values
    ensures T.Valid() && T.cells == old(Reparent(T.cells, g, IdOf(p)))
    ensures ListRep(T.cells, g, IdOf(p), m, None)
  {
    var cur := c;
    ghost var todo, m1 := g, m;
    ghost var done := Nil;
    while cur != null
      invariant T.Valid() && T.Known(cur) && T.Known(p)
      invariant IdOf(cur) == Head(todo) && NoDup(todo) && g == Append(done, todo)
      invariant ListRep(T.cells, todo, q, m1, None)
      invariant m1 == if done.Nil? then m else TailCache(m)
      invariant ListRep(T.cells, done, IdOf(p), m, Head(todo))
      invariant Reparent(T.cells, todo, IdOf(p)) == old(Reparent(T.cells, g, IdOf(p)))
      decreases todo
    {
      ghost var before := T.cells;
      ghost var one := Cons(todo.top, todo.kids, Nil);
      AppendNoDup(done, todo);
      T.SetParent(cur, p);
      ReparentOne(before, T.cells, todo, q, IdOf(p), m1);
      Frame(before, T.cells, done, IdOf(p), m, Some(todo.top.id));
      Split(T.cells, done, one, IdOf(p), m, Head(todo.rest));
      AppendAssoc(done, one, todo.rest);
      cur := T.Next(cur);
      done, todo, m1 := Append(done, one), todo.rest, TailCache(m1);
    }
    AppendNil(done);
  }

  lemma {:induction false} ReparentOne(H: Cells, H': Cells, g: Forest, q: Option<Id>, p: Option<Id>, m: Cache)
    requires g.Cons? && NoDup(g) && ListRep(H, g, q, m, None)
    requires H' == H[g.top.id := H[g.top.id].(parent := p)]
    ensures ListRep(H', Cons(g.top, g.kids, Nil), p, m, Head(g.rest))
    ensures ListRep(H', g.rest, q, TailCache(m), None)
  {
    Frame(H, H', g.kids, Some(g.top.id), KidsCache(m, g.kids), None);
    Frame(H, H', g.rest, q, TailCache(m), None);
  }

  /** set_parent, for a single tree. */
  method SetParentOfOne(T: IdTable, c: Container, p: Container?, ghost g: Forest, ghost q: Option<Id>)
    requires T.Valid() && T.Known(c) && T.Known(p)
    requires g.Cons? && g.rest.Nil? && g.top.id == c.id && NoDup(g) && ListRep(T.cells, g, q, InTail, None)
    modifies T`cells, T.table.Values
    ensures T.Valid() && OnlyIn(old(T.cells), T.cells, {c.id})
    ensures T.cells[c.id] == old(T.cells)[c.id].(parent := IdOf(p))
    ensures ListRep(T.cells, g, IdOf(p), InTail, None)
  {
    ghost var H := T.cells;
    assert Reparent(H, g, IdOf(p)) == H[c.id := H[c.id].(parent := IdOf(p))];
    SetParents(T, c, p, g, q, InTail);
  }

  /** Walks to the end of the chain. */
  method LastSibling(T: IdTable, c: Container, ghost f: Forest, ghost p: Option<Id>, ghost m: Cache)
    returns (end: Container)
    requires T.Valid() && T.Known(c) && f.Cons? && f.top.id == c.id && ListRep(T.cells, f, p, m, None)
    ensures T.Known(end) && end.id == LastId(f)
  {
    end := c;
    ghost var todo, m1 := f, m;
    while T.Next(end) != null
      invariant T.Known(end) && todo.Cons? && todo.top.id == end.id && LastId(todo) == LastId(f)
      invariant ListRep(T.cells, todo, p, m1, None)
      decreases todo
    {
      end := T.Next(end);
      todo, m1 := todo.rest, TailCache(m1);
    }
  }

  /** mu_container_append_siblings, for a list that has a first member and a
      single tree to append. The cached `last` and a walk down the chain give
      the same end. */
  method AppendSiblings(T: IdTable, c: Container, sibling: Container, ghost f: Forest, ghost g: Forest,
                        ghost p: Option<Id>, ghost q: Option<Id>)
    returns (r: Container)
    requires T.Valid() && T.Known(c) && T.Known(sibling)
    requires f.Cons? && f.top.id == c.id && Sibs(T.cells, f, p)
    requires g.Cons? && g.rest.Nil? && g.top.id == sibling.id && ListRep(T.cells, g, q, InTail, None)
    requires NoDup(f) && NoDup(g) && Ids(f) !! Ids(g)
    modifies T`cells, T.table.Values
    ensures T.Valid() && r == c
    ensures Sibs(T.cells, Append(f, g), p)
    ensures OnlyIn(old(T.cells), T.cells, Tops(f) + {sibling.id})
    ensures sibling.id in T.cells && T.cells[sibling.id] == old(T.cells)[sibling.id].(parent := p)
  {
    ghost var H0 := T.cells;
    TopsInIds(f);
    SetParentOfOne(T, sibling, T.Parent(c), g, q);
    ghost var H1 := T.cells;
    Frame(H0, H1, f, p, HeadCache(f), None);
    LinkAtEndRep(H1, f, g, p);
    if T.Last(c) != null {
      T.SetNext(T.Last(c), sibling);
    } else {
      var end := LastSibling(T, c, f, p, HeadCache(f));
      T.SetNext(end, sibling);
    }
    T.SetLast(c, if T.Last(sibling) != null then T.Last(sibling) else sibling);
    r := c;
  }

  /** The search of mu_container_remove_sibling: the member before the sibling,
      null if there is none. */
  method FindSibling(T: IdTable, c: Container, sibling: Container, ghost d: Forest, ghost e: Forest,
                     ghost p: Option<Id>)
    returns (prev: Container?)
    requires T.Valid() && T.Known(c) && T.Known(sibling) && e.Cons? && sibling.id == e.top.id
    requires NoDup(Append(d, e)) && Head(Append(d, e)) == Some(c.id) && Sibs(T.cells, Append(d, e), p)
    ensures T.Known(prev) && if d.Nil? then prev == null else prev != null && prev.id == LastId(d)
  {
    ghost var f := Append(d, e);
    ghost var m := HeadCache(f);
    var cur: Container? := c;
    prev := null;
    ghost var done, todo := Nil, f;
    AppendTops(d, e);
    while cur != null && cur != sibling
      invariant T.Known(cur) && T.Known(prev)
      invariant f == Append(done, todo) && IdOf(cur) == Head(todo) && e.top.id in Tops(todo)
      invariant ListRep(T.cells, todo, p, if done.Nil? then m else TailCache(m), None)
      invariant if done.Nil? then prev == null else prev != null && prev.id == LastId(done)
      decreases todo
    {
      AppendAssoc(done, Cons(todo.top, todo.kids, Nil), todo.rest);
      AppendLast(done, Cons(todo.top, todo.kids, Nil));
      prev, cur := cur, T.Next(cur);
      done, todo := Append(done, Cons(todo.top, todo.kids, Nil)), todo.rest;
    }
    UniqueSplit(d, e, done, todo);
  }

  /** mu_container_remove_sibling */
  method RemoveSibling(T: IdTable, c: Container, sibling: Container, ghost d: Forest, ghost t: Label, ghost k: Forest,
                       ghost r: Forest, ghost p: Option<Id>)
    returns (c': Container?)
    requires T.Valid() && T.Known(c) && T.Known(sibling) && sibling.id == t.id
    requires NoDup(Append(d, Cons(t, k, r))) && Head(Append(d, Cons(t, k, r))) == Some(c.id)
    requires Sibs(T.cells, Append(d, Cons(t, k, r)), p)
    modifies T`cells, T.table.Values
    ensures T.Valid() && T.Known(c') && IdOf(c') == Head(Append(d, r))
    ensures Sibs(T.cells, Append(d, r), p)
    ensures OnlyIn(old(T.cells), T.cells, Tops(d) + Tops(r))
    ensures ListRep(T.cells, k, Some(t.id), HeadCache(k), None)
  {
    ghost var e := Cons(t, k, r);
    var prev := FindSibling(T, c, sibling, d, e, p);
    Split(T.cells, d, e, p, HeadCache(Append(d, e)), None);
    UnlinkRep(T.cells, d, t, k, r, p);
    c' := c;
    if prev == null {
      c' := T.Next(sibling);
    } else {
      T.SetNext(prev, T.Next(sibling));
    }
    if c' != null {
      T.SetLast(c', null);
    }
  }

  /** Makes a complete list with parent c the child list of c. */
  method SetChildList(T: IdTable, c: Container, head: Container?, ghost f: Forest)
    requires T.Valid() && T.Known(c) && T.Known(head) && IdOf(head) == Head(f)
    requires Sibs(T.cells, f, Some(c.id)) && c.id !in Ids(f)
    modifies T`cells, T.table.Values
    ensures T.Valid() && T.cells == old(T.cells)[c.id := old(T.cells)[c.id].(child := Head(f))]
    ensures Sibs(T.cells, f, Some(c.id))
  {
    ghost var H := T.cells;
    T.SetChild(c, head);
    Frame(H, T.cells, f, Some(c.id), HeadCache(f), None);
  }

  /** mu_container_append_children, for a single tree. */
  method AppendChildren(T: IdTable, c: Container, child: Container, ghost k: Forest, ghost g: Forest,
                        ghost q: Option<Id>)
    returns (r: Container)
    requires T.Valid() && T.Known(c) && T.Known(child)
    requires T.cells[c.id].child == Head(k) && Sibs(T.cells, k, Some(c.id))
    requires g.Cons? && g.rest.Nil? && g.top.id == child.id && ListRep(T.cells, g, q, InTail, None)
    requires NoDup(k) && NoDup(g) && Ids(k) !! Ids(g) && c.id !in Ids(k) && c.id !in Ids(g)
    modifies T`cells, T.table.Values
    ensures T.Valid() && r == c
    ensures Sibs(T.cells, Append(k, g), Some(c.id))
    ensures OnlyIn(old(T.cells), T.cells, {c.id} + Tops(k) + {child.id})
    ensures T.cells[c.id] == old(T.cells)[c.id].(child := Head(Append(k, g)))
    ensures T.cells[child.id] == old(T.cells)[child.id].(parent := Some(c.id))
  {
    ghost var H0 := T.cells;
    TopsInIds(k);
    AppendIds(k, g);
    SetParentOfOne(T, child, c, g, q);
    Frame(H0, T.cells, k, Some(c.id), HeadCache(k), None);
    if T.Child(c) == null {
      TailIsHead(T.cells, g, Some(c.id), None);
      SetChildList(T, c, child, g);
    } else {
      var head := AppendSiblings(T, T.Child(c), child, k, g, Some(c.id), Some(c.id));
      SetChildList(T, c, head, Append(k, g));
    }
    r := c;
  }

  /** mu_container_remove_child: only a childless child may be removed. */
  method RemoveChild(T: IdTable, c: Container, child: Container, ghost d: Forest, ghost t: Label, ghost r: Forest)
    returns (c': Container)
    requires T.Valid() && T.Known(c) && T.Known(child) && child.id == t.id
    requires NoDup(Append(d, Cons(t, Nil, r))) && c.id !in Ids(Append(d, Cons(t, Nil, r)))
    requires T.cells[c.id].child == Head(Append(d, Cons(t, Nil, r)))
    requires Sibs(T.cells, Append(d, Cons(t, Nil, r)), Some(c.id))
    modifies T`cells, T.table.Values
    ensures T.Valid() && c' == c
    ensures Sibs(T.cells, Append(d, r), Some(c.id))
    ensures OnlyIn(old(T.cells), T.cells, {c.id} + Tops(d) + Tops(r))
    ensures T.cells[c.id] == old(T.cells)[c.id].(child := Head(Append(d, r)))
  {
    AppendIds(d, Cons(t, Nil, r));
    AppendIds(d, r);
    TopsInIds(d);
    TopsInIds(r);
    var head := RemoveSibling(T, T.Child(c), child, d, t, Nil, r, Some(c.id));
    SetChildList(T, c, head, Append(d, r));
    c' := c;
  }

  /** The only child of `child`, which gives it up. */
  method TakeOnlyChild(T: IdTable, child: Container, ghost d: Forest, ghost t: Label, ghost k: Forest, ghost r: Forest,
                       ghost p: Option<Id>)
    returns (x: Container)
    requires T.Valid() && T.Known(child) && child.id == t.id && k.Cons?
    requires NoDup(Append(d, Cons(t, k, r))) && Sibs(T.cells, Append(d, Cons(t, k, r)), p)
    modifies T`cells, T.table.Values
    ensures T.Valid() && T.Known(x) && x.id == k.top.id
    ensures T.cells == old(T.cells)[t.id := old(T.cells)[t.id].(child := None)]
    ensures Sibs(T.cells, Append(d, Cons(t, Nil, r)), p) && ListRep(T.cells, k, Some(t.id), HeadCache(k), None)
  {
    CutKids(T.cells, d, t, k, r, p);
    x := T.Child(child);
    T.SetChild(child, null);
  }

  /** mu_container_splice_children: the only child of `child` takes its place,
      at the end of the list. */
  method SpliceChildren(T: IdTable, c: Container, child: Container, ghost d: Forest, ghost t: Label, ghost k: Forest,
                        ghost r: Forest)
    returns (c': Container)
    requires T.Valid() && T.Known(c) && T.Known(child) && child.id == t.id
    requires k.Cons? && k.rest.Nil?
    requires NoDup(Append(d, Cons(t, k, r))) && c.id !in Ids(Append(d, Cons(t, k, r)))
    requires T.cells[c.id].child == Head(Append(d, Cons(t, k, r)))
    requires Sibs(T.cells, Append(d, Cons(t, k, r)), Some(c.id))
    modifies T`cells, T.table.Values
    ensures T.Valid() && c' == c
    ensures Sibs(T.cells, Append(Append(d, r), k), Some(c.id))
    ensures OnlyIn(old(T.cells), T.cells, {c.id} + Ids(Append(d, Cons(t, k, r))))
    ensures T.cells[c.id] == old(T.cells)[c.id].(child := Head(Append(Append(d, r), k)))
    ensures T.cells[t.id] == old(T.cells)[t.id].(child := None)
  {
    SpliceParts(d, t, k, r);
    var newchild := TakeOnlyChild(T, child, d, t, k, r, Some(c.id));
    HeadUnchanged(d, t, k, r);
    ghost var H1 := T.cells;
    c' := RemoveChild(T, c, child, d, t, r);
    ghost var H2 := T.cells;
    KidsUntouched(H1, H2, c.id, d, t, k, r);
    c' := AppendChildren(T, c, newchild, Append(d, r), k, Some(t.id));
    SpliceTouches(H1, H2, T.cells, c.id, d, t, k, r);
  }

  lemma {:induction false} KidsUntouched(H1: Cells, H2: Cells, c: Id, d: Forest, t: Label, k: Forest, r: Forest)
    requires NoDup(Append(d, Cons(t, k, r))) && c !in Ids(Append(d, Cons(t, k, r)))
    requires ListRep(H1, k, Some(t.id), HeadCache(k), None) && OnlyIn(H1, H2, {c} + Tops(d) + Tops(r))
    ensures ListRep(H2, k, Some(t.id), HeadCache(k), None)
  {
    SpliceParts(d, t, k, r);
    Frame(H1, H2, k, Some(t.id), HeadCache(k), None);
  }

  lemma {:induction false} SpliceTouches(H1: Cells, H2: Cells, H3: Cells, c: Id, d: Forest, t: Label, k: Forest,
                                         r: Forest)
    requires NoDup(Append(d, Cons(t, k, r))) && c !in Ids(Append(d, Cons(t, k, r))) && k.Cons? && t.id in H1
    requires OnlyIn(H1, H2, {c} + Tops(d) + Tops(r)) && OnlyIn(H2, H3, {c} + Tops(Append(d, r)) + {k.top.id})
    ensures OnlyIn(H1, H3, {c} + Ids(Append(d, Cons(t, k, r)))) && t.id in H3 && H3[t.id] == H1[t.id]
  {
    SpliceParts(d, t, k, r);
  }

  lemma {:induction false} SpliceParts(d: Forest, t: Label, k: Forest, r: Forest)
    requires NoDup(Append(d, Cons(t, k, r)))
    ensures Ids(Append(d, Cons(t, k, r))) == Ids(d) + Ids(r) + Ids(k) + {t.id}
    ensures Ids(Append(d, Cons(t, Nil, r))) == Ids(d) + Ids(r) + {t.id}
    ensures NoDup(Append(d, Cons(t, Nil, r))) && NoDup(Append(d, r)) && NoDup(k)
    ensures Ids(Append(d, r)) == Ids(d) + Ids(r)
    ensures t.id !in Ids(d) + Ids(r) + Ids(k) && Ids(k) !! Ids(d) + Ids(r)
    ensures Tops(d) <= Ids(d) && Tops(r) <= Ids(r) && Tops(Append(d, r)) <= Ids(d) + Ids(r)
  {
    AppendIds(d, Cons(t, k, r));
    AppendNoDup(d, Cons(t, k, r));
    AppendIds(d, Cons(t, Nil, r));
    AppendNoDup(d, Cons(t, Nil, r));
    AppendIds(d, r);
    AppendNoDup(d, r);
    TopsInIds(d);
    TopsInIds(r);
    TopsInIds(Append(d, r));
  }

  lemma HeadUnchanged(d: Forest, t: Label, k: Forest, r: Forest)
    ensures Head(Append(d, Cons(t, Nil, r))) == Head(Append(d, Cons(t, k, r)))
  {
  }
}
