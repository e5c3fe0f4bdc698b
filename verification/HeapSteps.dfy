/** How the edits of step 1 look in the heap. */
module HeapSteps {
  import opened Options
  import opened Forests
  import opened ForestEdits
  import opened Cells

  /** The `child` and `next` pointers spell the forest f. */
  ghost predicate Chain(H: Cells, f: Forest) {
    match f
    case Nil => true
    case Cons(t, k, r) => t.id in H && H[t.id].child == Head(k) && H[t.id].next == Head(r) && Chain(H, k) && Chain(H, r)
  }

  lemma {:induction false} ListIsChain(H: Cells, f: Forest, p: Option<Id>, m: Cache)
    requires ListRep(H, f, p, m, None)
    ensures Chain(H, f)
  {
    if f.Cons? {
      ListIsChain(H, f.kids, Some(f.top.id), KidsCache(m, f.kids));
      ListIsChain(H, f.rest, p, TailCache(m));
    }
  }

  /** What can be reached from x through `child` and `next`, inside a list. */
  ghost function From(f: Forest, x: Id): (g: Forest)
    requires x in Ids(f)
    ensures g.Cons? && g.top.id == x && Ids(g) <= Ids(f)
  {
    if x == f.top.id then f
    else if x in Ids(f.kids) then From(f.kids, x)
    else From(f.rest, x)
  }

  /** The same in step 1, where the outermost containers have no `next`. */
  ghost function FromRoots(f: Forest, x: Id): (g: Forest)
    requires x in Ids(f)
    ensures g.Cons? && g.top.id == x
  {
    if x == f.top.id then Single(f.top, f.kids)
    else if x in Ids(f.kids) then From(f.kids, x)
    else FromRoots(f.rest, x)
  }

  lemma {:induction false} FromChain(H: Cells, f: Forest, x: Id)
    requires Chain(H, f) && x in Ids(f)
    ensures Chain(H, From(f, x))
  {
    if x != f.top.id {
      if x in Ids(f.kids) { FromChain(H, f.kids, x); } else { FromChain(H, f.rest, x); }
    }
  }

  lemma {:induction false} FromRootsChain(H: Cells, f: Forest, x: Id)
    requires RootsRep(H, f) && x in Ids(f)
    ensures Chain(H, FromRoots(f, x))
  {
    ListIsChain(H, f.kids, Some(f.top.id), HeadCache(f.kids));
    if x != f.top.id {
      if x in Ids(f.kids) { FromChain(H, f.kids, x); } else { FromRootsChain(H, f.rest, x); }
    }
  }

  /** From a parentless container one reaches its own tree, nothing else. */
  lemma {:induction false} FromTop(f: Forest, x: Id)
    requires NoDup(f) && x in Tops(f)
    ensures x in Ids(f) && FromRoots(f, x) == TreeOf(f, x)
  {
    TreeOfTop(f, x);
    if x != f.top.id {
      FromTop(f.rest, x);
    }
  }

  /** A parentless container is reached from itself only, although the walk
      also follows the siblings of where it starts. */
  lemma {:induction false} TopNotReached(f: Forest, x: Id, p: Id)
    requires NoDup(f) && x in Tops(f) && p in Ids(f)
    ensures x in Ids(FromRoots(f, p)) <==> x == p
  {
    TreeOfTop(f, x);
    TopsInIds(f.rest);
    if p == f.top.id {
      assert Ids(FromRoots(f, p)) == {p} + Ids(f.kids) by { assert Ids(Nil) == {}; }
    } else if p in Ids(f.kids) {
      assert Ids(FromRoots(f, p)) <= Ids(f.kids);
    } else if x != f.top.id {
      TopNotReached(f.rest, x, p);
    } else {
      FromRootsInside(f.rest, p);
    }
  }

  lemma {:induction false} FromRootsInside(f: Forest, p: Id)
    requires p in Ids(f)
    ensures Ids(FromRoots(f, p)) <= Ids(f)
  {
    assert Ids(Nil) == {};
    if p != f.top.id && p !in Ids(f.kids) {
      FromRootsInside(f.rest, p);
    }
  }

  // ---- reading the heap of step 1 ----

  lemma {:induction false} RootsKids(H: Cells, f: Forest, p: Id)
    requires RootsRep(H, f) && p in Ids(f)
    ensures p in H && H[p].child == Head(KidsOf(f, p)) && Sibs(H, KidsOf(f, p), Some(p)) && Holds(H[p], LabelOf(f, p))
  {
    if p != f.top.id {
      if p in Ids(f.kids) {
        ListKids(H, f.kids, p, Some(f.top.id), HeadCache(f.kids));
      } else {
        RootsKids(H, f.rest, p);
      }
    }
  }

  lemma {:induction false} ListKids(H: Cells, f: Forest, x: Id, p: Option<Id>, m: Cache)
    requires ListRep(H, f, p, m, None) && !m.Stale? && x in Ids(f)
    ensures x in H && H[x].child == Head(KidsOf(f, x)) && Sibs(H, KidsOf(f, x), Some(x)) && Holds(H[x], LabelOf(f, x))
  {
    if x != f.top.id {
      if x in Ids(f.kids) {
        ListKids(H, f.kids, x, Some(f.top.id), KidsCache(m, f.kids));
      } else {
        ListKids(H, f.rest, x, p, TailCache(m));
      }
    }
  }

  /** The `parent` field is the parent relation. */
  lemma {:induction false} RootsParents(H: Cells, f: Forest)
    requires RootsRep(H, f)
    ensures forall e :: e in Edges(f, None) ==> e.1 in H && H[e.1].parent == e.0
  {
    if f.Cons? {
      ListParents(H, f.kids, Some(f.top.id), HeadCache(f.kids), None);
      RootsParents(H, f.rest);
    }
  }

  lemma {:induction false} ListParents(H: Cells, f: Forest, p: Option<Id>, m: Cache, nxt: Option<Id>)
    requires ListRep(H, f, p, m, nxt)
    ensures forall e :: e in Edges(f, p) ==> e.1 in H && H[e.1].parent == e.0
  {
    if f.Cons? {
      ListParents(H, f.kids, Some(f.top.id), KidsCache(m, f.kids), None);
      ListParents(H, f.rest, p, TailCache(m), nxt);
    }
  }

  lemma {:induction false} ParentlessIsTop(H: Cells, f: Forest, x: Id)
    requires RootsRep(H, f) && NoDup(f) && x in Ids(f)
    ensures x in H && (H[x].parent.None? <==> x in Tops(f))
  {
    var q := EdgeTotal(f, None, x);
    RootsParents(H, f);
    TopsByEdge(f, None, x);
    if x in Tops(f) { EdgeUnique(f, None, x, q, None); }
  }

  // ---- taking a tree out of the roots ----

  lemma {:induction false} RootsRemove(H: Cells, f: Forest, x: Id)
    requires RootsRep(H, f) && NoDup(f) && x in Tops(f)
    ensures x in Ids(f) && RootsRep(H, RemoveTop(f, x)) && ListRep(H, TreeOf(f, x), None, InTail, None)
  {
    TreeOfTop(f, x);
    if x != f.top.id {
      RootsRemove(H, f.rest, x);
    }
  }

  lemma {:induction false} RootsAdd(H: Cells, H': Cells, f: Forest, t: Label)
    requires RootsRep(H, f) && t.id !in Ids(f)
    requires H' == H[t.id := Cell(None, None, None, None, t.msg, t.docid, t.flags)]
    ensures RootsRep(H', Append(f, Leaf(t)))
  {
    if f.Cons? {
      Frame(H, H', f.kids, Some(f.top.id), HeadCache(f.kids), None);
      RootsAdd(H, H', f.rest, t);
    }
  }

  // ---- hanging a tree under a container ----

  lemma {:induction false} GraftShape(f: Forest, p: Id, g: Forest)
    requires p in Ids(f)
    ensures Graft(f, p, g).Cons? && Head(Graft(f, p, g)) == Head(f)
    ensures HeadCache(Graft(f, p, g)) == HeadCache(f) && LastId(Graft(f, p, g)) == LastId(f)
  {
    if p != f.top.id && p !in Ids(f.kids) {
      GraftShape(f.rest, p, g);
    }
  }

  /** The child list of p now ends with g; nothing else changed. */
  ghost predicate Grafted(H: Cells, H': Cells, f: Forest, p: Id, g: Forest)
    requires p in Ids(f)
  {
    p in H && p in H'
    && H'[p] == H[p].(child := Head(Append(KidsOf(f, p), g)))
    && Sibs(H', Append(KidsOf(f, p), g), Some(p))
    && SameOn(H, H', Ids(f) - {p} - Ids(KidsOf(f, p)))
  }

  lemma GraftedBelow(H: Cells, H': Cells, f: Forest, p: Id, g: Forest)
    requires NoDup(f) && p in Ids(f) && Grafted(H, H', f, p, g)
    ensures p != f.top.id ==> SameOn(H, H', {f.top.id})
    ensures p != f.top.id && p in Ids(f.kids) ==> Grafted(H, H', f.kids, p, g)
    ensures p != f.top.id && p in Ids(f.rest) ==> Grafted(H, H', f.rest, p, g)
    ensures p !in Ids(f.kids) && p != f.top.id ==> SameOn(H, H', Ids(f.kids))
    ensures p !in Ids(f.rest) ==> SameOn(H, H', Ids(f.rest))
  {
  }

  lemma {:induction false} GraftList(H: Cells, H': Cells, f: Forest, q: Option<Id>, m: Cache, nxt: Option<Id>, p: Id,
                              g: Forest)
    requires ListRep(H, f, q, m, nxt) && !m.Stale? && NoDup(f) && p in Ids(f)
    requires Grafted(H, H', f, p, g)
    ensures ListRep(H', Graft(f, p, g), q, m, nxt)
  {
    var Cons(t, k, r) := f;
    GraftedBelow(H, H', f, p, g);
    if p == t.id {
      Frame(H, H', r, q, TailCache(m), nxt);
    } else if p in Ids(k) {
      GraftShape(k, p, g);
      GraftList(H, H', k, Some(t.id), KidsCache(m, k), None, p, g);
      Frame(H, H', r, q, TailCache(m), nxt);
    } else {
      GraftShape(r, p, g);
      Frame(H, H', k, Some(t.id), KidsCache(m, k), None);
      GraftList(H, H', r, q, TailCache(m), nxt, p, g);
    }
  }

  lemma {:induction false} GraftRoots(H: Cells, H': Cells, f: Forest, p: Id, g: Forest)
    requires RootsRep(H, f) && NoDup(f) && p in Ids(f)
    requires Grafted(H, H', f, p, g)
    ensures RootsRep(H', Graft(f, p, g))
  {
    var Cons(t, k, r) := f;
    if p == t.id {
      RootsFrame(H, H', r);
    } else if p in Ids(k) {
      GraftShape(k, p, g);
      GraftList(H, H', k, Some(t.id), HeadCache(k), None, p, g);
      RootsFrame(H, H', r);
    } else {
      Frame(H, H', k, Some(t.id), HeadCache(k), None);
      GraftRoots(H, H', r, p, g);
    }
  }

  // ---- storing a message ----

  lemma {:induction false} StoreList(H: Cells, H': Cells, f: Forest, q: Option<Id>, m: Cache, nxt: Option<Id>, x: Id,
                              d: Match)
    requires ListRep(H, f, q, m, nxt) && NoDup(f) && x in Ids(f) && x in H
    requires H' == H[x := H[x].(msg := Some(d.msg), docid := d.docid)]
    ensures ListRep(H', SetMsg(f, x, d), q, m, nxt)
    ensures Head(SetMsg(f, x, d)) == Head(f) && HeadCache(SetMsg(f, x, d)) == HeadCache(f)
            && LastId(SetMsg(f, x, d)) == LastId(f)
  {
    var Cons(t, k, r) := f;
    if x == t.id {
      Frame(H, H', k, Some(t.id), KidsCache(m, k), None);
      Frame(H, H', r, q, TailCache(m), nxt);
    } else if x in Ids(k) {
      StoreList(H, H', k, Some(t.id), KidsCache(m, k), None, x, d);
      Frame(H, H', r, q, TailCache(m), nxt);
    } else {
      Frame(H, H', k, Some(t.id), KidsCache(m, k), None);
      StoreList(H, H', r, q, TailCache(m), nxt, x, d);
    }
  }

  lemma {:induction false} StoreRoots(H: Cells, H': Cells, f: Forest, x: Id, d: Match)
    requires RootsRep(H, f) && NoDup(f) && x in Ids(f) && x in H
    requires H' == H[x := H[x].(msg := Some(d.msg), docid := d.docid)]
    ensures RootsRep(H', SetMsg(f, x, d))
  {
    var Cons(t, k, r) := f;
    if x == t.id {
      Frame(H, H', k, Some(t.id), HeadCache(k), None);
      RootsFrame(H, H', r);
    } else if x in Ids(k) {
      StoreList(H, H', k, Some(t.id), HeadCache(k), None, x, d);
      RootsFrame(H, H', r);
    } else {
      Frame(H, H', k, Some(t.id), HeadCache(k), None);
      StoreRoots(H, H', r, x, d);
    }
  }
}
