/** What it means for a heap of containers to hold a forest. A heap is seen as
    a map from id-table keys to the fields of the container; the pointers are
    keys. */
module Cells {
  import opened Options
  import opened Forests

  datatype Cell = Cell(
    parent: Option<Id>,
    child: Option<Id>,
    next: Option<Id>,
    last: Option<Id>,
    msg: Option<Msg>,
    docid: nat,
    flags: set<Flag>)

  type Cells = map<Id, Cell>

  /** What is known of the cached `last` of a list member: at the head of a
      list of two or more it is unset or names the end of the list, everywhere
      else it is unset; after sorting nothing is known. */
  datatype Cache = AtHead(end: Id) | InTail | Stale

  ghost predicate CacheOk(last: Option<Id>, m: Cache) {
    match m
    case AtHead(e) => last.None? || last == Some(e)
    case InTail => last.None?
    case Stale => true
  }

  ghost function HeadCache(f: Forest): Cache {
    if f.Cons? && f.rest.Cons? then AtHead(LastId(f)) else InTail
  }

  ghost function KidsCache(m: Cache, k: Forest): Cache {
    if m.Stale? then Stale else HeadCache(k)
  }

  ghost function TailCache(m: Cache): Cache {
    if m.Stale? then Stale else InTail
  }

  ghost function HeadOr(f: Forest, nxt: Option<Id>): Option<Id> {
    if f.Cons? then Some(f.top.id) else nxt
  }

  ghost predicate Holds(c: Cell, t: Label) {
    c.msg == t.msg && c.docid == t.docid && c.flags == t.flags
  }

  /** The heap holds the sibling list f with parent p; the last member's `next`
      is nxt. */
  ghost predicate ListRep(H: Cells, f: Forest, p: Option<Id>, m: Cache, nxt: Option<Id>) {
    match f
    case Nil => true
    case Cons(t, k, r) =>
      t.id in H
      && Holds(H[t.id], t)
      && H[t.id].parent == p
      && H[t.id].child == Head(k)
      && H[t.id].next == HeadOr(r, nxt)
      && CacheOk(H[t.id].last, m)
      && ListRep(H, k, Some(t.id), KidsCache(m, k), None)
      && ListRep(H, r, p, TailCache(m), nxt)
  }

  /** A complete sibling list, with its cache coherent at every depth. */
  ghost predicate Sibs(H: Cells, f: Forest, p: Option<Id>) {
    ListRep(H, f, p, HeadCache(f), None)
  }

  /** The state during step 1: the members of the outermost list are not
      linked to each other. */
  ghost predicate RootsRep(H: Cells, f: Forest) {
    match f
    case Nil => true
    case Cons(t, k, r) =>
      t.id in H
      && Holds(H[t.id], t)
      && H[t.id].parent.None? && H[t.id].next.None? && H[t.id].last.None?
      && H[t.id].child == Head(k)
      && Sibs(H, k, Some(t.id))
      && RootsRep(H, r)
  }

  /** H' differs from H at most on S. */
  ghost predicate OnlyIn(H: Cells, H': Cells, S: set<Id>) {
    H.Keys == H'.Keys && forall i :: i in H && i !in S ==> H'[i] == H[i]
  }

  ghost predicate SameOn(H: Cells, H': Cells, S: set<Id>) {
    forall i :: i in S && i in H ==> i in H' && H'[i] == H[i]
  }

  // ---- frame ----

  lemma {:induction false} Frame(H: Cells, H': Cells, f: Forest, p: Option<Id>, m: Cache, nxt: Option<Id>)
    requires ListRep(H, f, p, m, nxt) && SameOn(H, H', Ids(f))
    ensures ListRep(H', f, p, m, nxt)
  {
    match f
    case Nil =>
    case Cons(t, k, r) =>
      Frame(H, H', k, Some(t.id), KidsCache(m, k), None);
      Frame(H, H', r, p, TailCache(m), nxt);
  }

  lemma {:induction false} RootsFrame(H: Cells, H': Cells, f: Forest)
    requires RootsRep(H, f) && SameOn(H, H', Ids(f))
    ensures RootsRep(H', f)
  {
    match f
    case Nil =>
    case Cons(t, k, r) =>
      Frame(H, H', k, Some(t.id), HeadCache(k), None);
      RootsFrame(H, H', r);
  }

  lemma {:induction false} RepDomain(H: Cells, f: Forest, p: Option<Id>, m: Cache, nxt: Option<Id>)
    requires ListRep(H, f, p, m, nxt)
    ensures Ids(f) <= H.Keys
  {
    match f
    case Nil =>
    case Cons(t, k, r) =>
      RepDomain(H, k, Some(t.id), KidsCache(m, k), None);
      RepDomain(H, r, p, TailCache(m), nxt);
  }

  lemma {:induction false} RootsDomain(H: Cells, f: Forest)
    requires RootsRep(H, f)
    ensures Ids(f) <= H.Keys
  {
    if f.Cons? {
      RepDomain(H, f.kids, Some(f.top.id), HeadCache(f.kids), None);
      RootsDomain(H, f.rest);
    }
  }

  // ---- list segments ----

  lemma {:induction false} Split(H: Cells, d: Forest, e: Forest, p: Option<Id>, m: Cache, nxt: Option<Id>)
    ensures ListRep(H, Append(d, e), p, m, nxt) <==>
              ListRep(H, d, p, m, HeadOr(e, nxt))
              && ListRep(H, e, p, if d.Nil? then m else TailCache(m), nxt)
  {
    if d.Cons? {
      Split(H, d.rest, e, p, TailCache(m), nxt);
    }
  }

  lemma {:induction false} Relink(H: Cells, H': Cells, d: Forest, p: Option<Id>, m: Cache, nxt: Option<Id>,
                              nxt': Option<Id>)
    requires d.Cons? && NoDup(d) && ListRep(H, d, p, m, nxt)
    requires LastId(d) in H && H' == H[LastId(d) := H[LastId(d)].(next := nxt')]
    ensures ListRep(H', d, p, m, nxt')
  {
    var Cons(t, k, r) := d;
    Frame(H, H', k, Some(t.id), KidsCache(m, k), None) by { TopsInIds(r); }
    if r.Cons? {
      TopsInIds(r);
      Relink(H, H', r, p, TailCache(m), nxt, nxt');
    }
  }

  lemma {:induction false} Recache(H: Cells, H': Cells, d: Forest, p: Option<Id>, m: Cache, m': Cache,
                              nxt: Option<Id>, last: Option<Id>)
    requires d.Cons? && NoDup(d) && ListRep(H, d, p, m, nxt) && !m.Stale? && !m'.Stale?
    requires H' == H[d.top.id := H[d.top.id].(last := last)] && CacheOk(last, m')
    ensures ListRep(H', d, p, m', nxt)
  {
    var Cons(t, k, r) := d;
    Frame(H, H', k, Some(t.id), KidsCache(m, k), None);
    Frame(H, H', r, p, TailCache(m), nxt);
  }

  lemma {:induction false} Forget(H: Cells, f: Forest, p: Option<Id>, m: Cache, nxt: Option<Id>)
    requires ListRep(H, f, p, m, nxt)
    ensures ListRep(H, f, p, Stale, nxt)
  {
    if f.Cons? {
      Forget(H, f.kids, Some(f.top.id), KidsCache(m, f.kids), None);
      Forget(H, f.rest, p, TailCache(m), nxt);
    }
  }

  lemma {:induction false} LastKnown(H: Cells, f: Forest, p: Option<Id>, m: Cache, nxt: Option<Id>)
    requires f.Cons? && ListRep(H, f, p, m, nxt)
    ensures LastId(f) in H && LastId(f) in Ids(f) && H[LastId(f)].next == nxt
  {
    TopsInIds(f);
    if f.rest.Cons? {
      LastKnown(H, f.rest, p, TailCache(m), nxt);
    }
  }

  /** The end of a list is found at one place only. */
  lemma {:induction false} UniqueSplit(d: Forest, e: Forest, d': Forest, e': Forest)
    requires Append(d, e) == Append(d', e') && NoDup(Append(d, e))
    requires e.Cons? && e'.Cons? && e.top.id == e'.top.id
    ensures d == d' && e == e'
  {
    AppendTops(d, e);
    AppendTops(d', e');
    if d.Cons? && d'.Cons? {
      UniqueSplit(d.rest, e, d'.rest, e');
    } else if d.Cons? {
      AppendTops(d.rest, e);
      TopsInIds(Append(d.rest, e));
    } else if d'.Cons? {
      AppendTops(d'.rest, e');
      TopsInIds(Append(d'.rest, e'));
    }
  }

  // ---- giving a list another parent ----

  ghost function Reparent(H: Cells, g: Forest, p: Option<Id>): Cells
    decreases g
  {
    match g
    case Nil => H
    case Cons(t, _, r) => Reparent(if t.id in H then H[t.id := H[t.id].(parent := p)] else H, r, p)
  }

  lemma {:induction false} ReparentOnly(H: Cells, g: Forest, p: Option<Id>)
    ensures OnlyIn(H, Reparent(H, g, p), Tops(g))
  {
    if g.Cons? {
      var H1 := if g.top.id in H then H[g.top.id := H[g.top.id].(parent := p)] else H;
      ReparentOnly(H1, g.rest, p);
    }
  }

  // ---- appending a single tree to a list (mu_container_append_siblings) ----

  /** The list f, then the single tree g linked in at the end, with the cache
      set to g. */
  ghost function LinkAtEnd(H: Cells, f: Forest, x: Id): Cells
    requires f.Cons? && f.top.id in H && LastId(f) in H
  {
    var H1 := H[LastId(f) := H[LastId(f)].(next := Some(x))];
    H1[f.top.id := H1[f.top.id].(last := Some(x))]
  }

  lemma {:induction false} LinkAtEndRep(H: Cells, f: Forest, g: Forest, p: Option<Id>)
    requires f.Cons? && Sibs(H, f, p)
    requires g.Cons? && g.rest.Nil? && ListRep(H, g, p, InTail, None)
    requires NoDup(f) && NoDup(g) && Ids(f) !! Ids(g)
    ensures f.top.id in H && LastId(f) in H && LastId(f) in Tops(f)
    ensures Sibs(LinkAtEnd(H, f, g.top.id), Append(f, g), p)
    ensures OnlyIn(H, LinkAtEnd(H, f, g.top.id), {f.top.id, LastId(f)})
  {
    LastKnown(H, f, p, HeadCache(f), None);
    TopsInIds(f);
    var x := Some(g.top.id);
    var H1 := H[LastId(f) := H[LastId(f)].(next := x)];
    var H2 := LinkAtEnd(H, f, g.top.id);
    Relink(H, H1, f, p, HeadCache(f), None, x);
    Recache(H1, H2, f, p, HeadCache(f), AtHead(g.top.id), x, x);
    Frame(H, H2, g, p, InTail, None);
    AppendLast(f, g);
    Split(H2, f, g, p, AtHead(g.top.id), None);
  }

  /** The cached end is right after an append if and only if a single tree was
      appended: the code stores the first appended container as the end. */
  lemma {:induction false} CacheNeedsSingleAppend(H: Cells, f: Forest, g: Forest, p: Option<Id>)
    requires f.Cons? && Sibs(H, f, p)
    requires g.Cons? && ListRep(H, g, p, InTail, None)
    requires NoDup(f) && NoDup(g) && Ids(f) !! Ids(g)
    ensures f.top.id in H && LastId(f) in H
    ensures Sibs(LinkAtEnd(H, f, g.top.id), Append(f, g), p) <==> g.rest.Nil?
  {
    LastKnown(H, f, p, HeadCache(f), None);
    if g.rest.Nil? {
      LinkAtEndRep(H, f, g, p);
    } else {
      AppendLast(f, g);
      TopsInIds(g.rest);
    }
  }

  // ---- taking one member out of a list (mu_container_remove_sibling) ----

  ghost function Unlink(H: Cells, d: Forest, r: Forest): Cells
    requires d.Cons? ==> LastId(d) in H && d.top.id in H
    requires d.Nil? && r.Cons? ==> r.top.id in H
  {
    if d.Cons? then
      var H1 := H[LastId(d) := H[LastId(d)].(next := Head(r))];
      H1[d.top.id := H1[d.top.id].(last := None)]
    else if r.Cons? then H[r.top.id := H[r.top.id].(last := None)]
    else H
  }

  lemma {:induction false} UnlinkRep(H: Cells, d: Forest, t: Label, k: Forest, r: Forest, p: Option<Id>)
    requires Sibs(H, Append(d, Cons(t, k, r)), p) && NoDup(Append(d, Cons(t, k, r)))
    ensures d.Cons? ==> LastId(d) in H && d.top.id in H && LastId(d) in Tops(d)
    ensures r.Cons? ==> r.top.id in H
    ensures Sibs(Unlink(H, d, r), Append(d, r), p)
    ensures OnlyIn(H, Unlink(H, d, r), Tops(d) + Tops(r))
    ensures ListRep(Unlink(H, d, r), k, Some(t.id), HeadCache(k), None)
  {
    var e := Cons(t, k, r);
    AppendIds(d, e);
    AppendNoDup(d, e);
    Split(H, d, e, p, HeadCache(Append(d, e)), None);
    TopsInIds(d);
    TopsInIds(r);
    if d.Cons? { LastKnown(H, d, p, HeadCache(Append(d, e)), Some(t.id)); }
    var H2 := Unlink(H, d, r);
    if d.Cons? {
      var H1 := H[LastId(d) := H[LastId(d)].(next := Head(r))];
      Relink(H, H1, d, p, HeadCache(Append(d, e)), Some(t.id), Head(r));
      Recache(H1, H2, d, p, HeadCache(Append(d, e)), HeadCache(Append(d, r)), Head(r), None);
      Frame(H, H2, r, p, InTail, None);
      Split(H2, d, r, p, HeadCache(Append(d, r)), None);
    } else if r.Cons? {
      Recache(H, H2, r, p, InTail, HeadCache(r), None, None);
    }
    Frame(H, H2, k, Some(t.id), HeadCache(k), None);
  }

  // ---- cutting off the children of a member ----

  lemma {:induction false} CutKids(H: Cells, d: Forest, t: Label, k: Forest, r: Forest, p: Option<Id>)
    requires Sibs(H, Append(d, Cons(t, k, r)), p) && NoDup(Append(d, Cons(t, k, r)))
    ensures t.id in H && H[t.id].child == Head(k) && H[t.id].next == Head(r)
    ensures var H' := H[t.id := H[t.id].(child := None)];
            Sibs(H', Append(d, Cons(t, Nil, r)), p) && Sibs(H', k, Some(t.id))
  {
    var e, e' := Cons(t, k, r), Cons(t, Nil, r);
    var m := HeadCache(Append(d, e));
    AppendNoDup(d, e);
    AppendLast(d, e);
    AppendLast(d, e');
    if d.Cons? { assert Append(d, e).rest == Append(d.rest, e) && Append(d, e').rest == Append(d.rest, e'); }
    assert HeadCache(Append(d, e')) == m;
    Split(H, d, e, p, m, None);
    var H' := H[t.id := H[t.id].(child := None)];
    Frame(H, H', d, p, m, Some(t.id));
    Frame(H, H', r, p, InTail, None);
    Frame(H, H', k, Some(t.id), HeadCache(k), None);
    Split(H', d, e', p, m, None);
  }

  lemma {:induction false} TailIsHead(H: Cells, f: Forest, p: Option<Id>, nxt: Option<Id>)
    requires ListRep(H, f, p, InTail, nxt)
    ensures ListRep(H, f, p, HeadCache(f), nxt)
  {
  }
}
