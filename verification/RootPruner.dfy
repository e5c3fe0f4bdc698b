/** Steps 2 and 4 of mu-threader.c on the heap: the root list is gathered from
    the id table, and empty containers are pruned while the very lists they
    stand in are walked. */
module RootPruner {
  import opened Options
  import opened Forests
  import opened ForestEdits
  import opened RootSet
  import opened Prune
  import opened Cells
  import opened HeapSteps
  import opened Containers
  import opened SiblingLists
  import opened ThreadBuilder

  // ---- step 2 ----

  ghost predicate NoDupRoots(f: Forest) {
    forall t :: t in Labels(f) && Dup in t.flags ==> t.id !in Tops(f)
  }

  lemma {:induction false} GatheredParent(H: Cells, done: Forest, rem: Forest, x: Id)
    requires Sibs(H, done, None) && RootsRep(H, rem) && NoDup(done) && NoDup(rem)
    requires x in Ids(done) + Ids(rem) && x !in Tops(done) && Ids(done) !! Ids(rem)
    ensures x in H && (H[x].parent.None? <==> x in Tops(rem))
  {
    TopsInIds(rem);
    if x in Ids(rem) {
      ParentlessIsTop(H, rem, x);
    } else {
      var q := EdgeTotal(done, None, x);
      TopsByEdge(done, None, x);
      ListParents(H, done, None, HeadCache(done), None);
    }
  }

  /** filter_root_set, for one container of the table. */
  method FilterRootSet(T: IdTable, c: Container, root: Container?, ghost done: Forest, ghost rem: Forest)
    returns (root': Container?)
    requires T.Valid() && T.Known(c) && T.Known(root) && IdOf(root) == Head(done)
    requires Sibs(T.cells, done, None) && RootsRep(T.cells, rem)
    requires NoDup(done) && NoDup(rem) && Ids(done) !! Ids(rem)
    requires c.id in Ids(done) + Ids(rem) && c.id !in Tops(done) && NoDupRoots(rem)
    modifies T`cells, T.table.Values
    ensures T.Valid() && T.Known(root')
    ensures if c.id in Tops(rem) then
              c.id in Ids(rem) && IdOf(root') == Head(Append(done, TreeOf(rem, c.id)))
              && Sibs(T.cells, Append(done, TreeOf(rem, c.id)), None) && RootsRep(T.cells, RemoveTop(rem, c.id))
            else root' == root && Sibs(T.cells, done, None) && RootsRep(T.cells, rem)
  {
    GatheredParent(T.cells, done, rem, c.id);
    root' := root;
    if T.Parent(c) != null {
      return;
    }
    TopsInIds(rem);
    RootsKids(T.cells, rem, c.id);
    LabelsIds(rem);
    if Dup in T.Flags(c) {
      return;
    }
    ghost var g, rem' := TreeOf(rem, c.id), RemoveTop(rem, c.id);
    RootsRemove(T.cells, rem, c.id);
    RemoveTopIds(rem, c.id);
    ghost var H := T.cells;
    if root == null {
      root' := c;
    } else {
      TopsInIds(done);
      root' := AppendSiblings(T, root, c, done, g, None, None);
      RootsFrame(H, T.cells, rem');
    }
  }

  ghost predicate Gathered(T: IdTable, f: Forest, order: seq<Id>, i: nat, root: Container?, done: Forest, rem: Forest)
    requires NoDup(f) && i <= |order|
    reads T, T.table.Values
  {
    T.Valid() && T.Known(root) && Ids(f) == T.table.Keys
    && (done, rem) == Gather(f, order[..i]) && IdOf(root) == Head(done)
    && Sibs(T.cells, done, None) && RootsRep(T.cells, rem)
  }

  method GatherOne(T: IdTable, order: seq<Id>, i: nat, root: Container?, ghost f: Forest, ghost done: Forest,
                   ghost rem: Forest)
    returns (root': Container?, ghost done': Forest, ghost rem': Forest)
    requires i < |order| && NoDup(f) && Enumerates(order, Ids(f)) && NoDupRoots(f)
    requires Gathered(T, f, order, i, root, done, rem)
    modifies T`cells, T.table.Values
    ensures Gathered(T, f, order, i + 1, root', done', rem')
  {
    var x := order[i];
    GatherNext(f, order, i);
    root' := FilterRootSet(T, T.Lookup(x), root, done, rem);
    done', rem' := done, rem;
    if x in Tops(rem) {
      done', rem' := Append(done, TreeOf(rem, x)), RemoveTop(rem, x);
    }
  }

  /** find_root_set, for any enumeration order of the hash table. */
  method FindRootSet(T: IdTable, order: seq<Id>, ghost f: Forest) returns (root: Container?)
    requires Building(T, f) && Enumerates(order, Ids(f)) && NoDupRoots(f)
    modifies T`cells, T.table.Values
    ensures T.Valid() && T.Known(root)
    ensures IdOf(root) == Head(Gather(f, order).0) && Sibs(T.cells, Gather(f, order).0, None)
  {
    root := null;
    ghost var done, rem := Nil, f;
    var i := 0;
    while i < |order|
      invariant 0 <= i <= |order| && Gathered(T, f, order, i, root, done, rem)
    {
      root, done, rem := GatherOne(T, order, i, root, f, done, rem);
      i := i + 1;
    }
    assert order[..i] == order;
  }

  lemma {:induction false} GatherNext(f: Forest, order: seq<Id>, i: nat)
    requires NoDup(f) && Enumerates(order, Ids(f)) && i < |order| && NoDupRoots(f)
    ensures order[i] in Ids(f) && order[i] !in Tops(Gather(f, order[..i]).0) && NoDupRoots(Gather(f, order[..i]).1)
    ensures var r, x := Gather(f, order[..i]), order[i];
            Gather(f, order[..i + 1]) ==
              if x in Tops(r.1) then
                assert x in Ids(r.1) by { TopsInIds(r.1); }
                (Append(r.0, TreeOf(r.1, x)), RemoveTop(r.1, x))
              else r
  {
    assert order[..i + 1][..i] == order[..i];
    assert order[i] in order;
    GatherTops(f, order[..i]);
    GatherKeeps(f, order[..i]);
  }

  // ---- step 4 ----

  /** The state of the loop in prune_maybe: `done` was looked at, `todo` is
      still ahead, and handling `todo` gives what handling k would have. */
  ghost predicate Pruning(H: Cells, c: Id, k: Forest, done: Forest, todo: Forest) {
    c in H
    && Sibs(H, Append(done, todo), Some(c))
    && H[c].child == Head(Append(done, todo))
    && NoDup(Append(done, todo)) && Ids(Append(done, todo)) <= Ids(k)
    && Settled(todo)
    && Append(done, Collapse(todo)) == Collapse(k)
  }

  ghost function Marked(f: Forest): nat {
    match f
    case Nil => 0
    case Cons(t, _, r) => (if Unflagged(t) then 0 else 1) + Marked(r)
  }

  lemma MarkedAppend(f: Forest, g: Forest)
    ensures Marked(Append(f, g)) == Marked(f) + Marked(g)
  {
  }

  lemma PrunedIsSettled(f: Forest)
    requires Pruned(f)
    ensures Settled(f) && Marked(f) == 0
  {
  }

  lemma AppendSettled(f: Forest, g: Forest)
    ensures Settled(Append(f, g)) <==> Settled(f) && Settled(g)
  {
  }

  lemma {:induction false} CollapseAppend(r: Forest, k: Forest)
    requires Pruned(k) && k.Cons? && k.rest.Nil?
    ensures Collapse(Append(r, k)) == Append(Kept(r), Append(k, Promoted(r)))
  {
    KeptAppend(r, k);
    assert Kept(k) == k && Promoted(k) == Nil;
    AppendNil(Promoted(r));
    AppendAssoc(Kept(r), k, Promoted(r));
  }

  lemma {:induction false} KeptAppend(r: Forest, k: Forest)
    ensures Kept(Append(r, k)) == Append(Kept(r), Kept(k))
    ensures Promoted(Append(r, k)) == Append(Promoted(r), Promoted(k))
  {
    if r.Cons? {
      KeptAppend(r.rest, k);
      AppendAssoc(r.kids, Promoted(r.rest), Promoted(k));
    }
  }

  /** A member without mark is passed over. */
  lemma {:induction false} PassOver(H: Cells, c: Id, k: Forest, done: Forest, todo: Forest)
    requires Pruning(H, c, k, done, todo) && todo.Cons? && Unflagged(todo.top)
    ensures Pruning(H, c, k, Append(done, Single(todo.top, todo.kids)), todo.rest)
  {
    var one := Single(todo.top, todo.kids);
    AppendAssoc(done, one, todo.rest);
    AppendAssoc(done, one, Collapse(todo.rest));
  }

  /** A deleted member leaves no trace. */
  lemma {:induction false} AfterDelete(H: Cells, H': Cells, c: Id, k: Forest, done: Forest, todo: Forest)
    requires Pruning(H, c, k, done, todo) && todo.Cons? && Delete in todo.top.flags
    requires c in H' && Sibs(H', Append(done, todo.rest), Some(c)) && H'[c].child == Head(Append(done, todo.rest))
    ensures Pruning(H', c, k, done, todo.rest)
  {
    AppendIds(done, todo);
    AppendNoDup(done, todo);
    AppendIds(done, todo.rest);
    AppendNoDup(done, todo.rest);
  }

  /** The only child of a spliced member is at the end of the list, where the
      walk finds it, unmarked, if the spliced member was not the last. */
  lemma {:induction false} AfterSplice(H: Cells, H': Cells, c: Id, k: Forest, done: Forest, todo: Forest)
    requires Pruning(H, c, k, done, todo) && todo.Cons? && Delete !in todo.top.flags && Splice in todo.top.flags
    requires c in H' && Sibs(H', Append(Append(done, todo.rest), todo.kids), Some(c))
    requires H'[c].child == Head(Append(Append(done, todo.rest), todo.kids))
    ensures if todo.rest.Cons? then Pruning(H', c, k, done, Append(todo.rest, todo.kids))
            else Pruning(H', c, k, Append(done, todo.kids), Nil)
  {
    var r, g := todo.rest, todo.kids;
    assert g.Cons? && g.rest.Nil? && Pruned(g);
    SplicedIds(done, todo.top, g, r);
    AppendAssoc(done, r, g);
    PrunedIsSettled(g);
    AppendSettled(r, g);
    CollapseAppend(r, g);
    assert Collapse(todo) == Append(Kept(r), Append(g, Promoted(r)));
    if r.Nil? {
      AppendNil(done);
      AppendNil(g);
      assert Collapse(todo) == g && Collapse(Nil) == Nil;
      AppendNil(Append(done, g));
    }
  }

  lemma {:induction false} SplicedIds(d: Forest, t: Label, g: Forest, r: Forest)
    requires NoDup(Append(d, Cons(t, g, r)))
    ensures Ids(Append(Append(d, r), g)) <= Ids(Append(d, Cons(t, g, r)))
    ensures NoDup(Append(Append(d, r), g))
  {
    AppendIds(d, Cons(t, g, r));
    AppendNoDup(d, Cons(t, g, r));
    AppendIds(d, r);
    AppendNoDup(d, r);
    AppendIds(Append(d, r), g);
    AppendNoDup(Append(d, r), g);
  }

  lemma {:induction false} MemberCell(H: Cells, c: Id, k: Forest, done: Forest, todo: Forest)
    requires Pruning(H, c, k, done, todo) && todo.Cons?
    ensures todo.top.id in H && H[todo.top.id].flags == todo.top.flags
    ensures H[todo.top.id].next == Head(todo.rest) && H[todo.top.id].child == Head(todo.kids)
  {
    Split(H, done, todo, Some(c), HeadCache(Append(done, todo)), None);
  }

  /** One round of the loop in prune_maybe, on the member `cur`. */
  method PruneMember(T: IdTable, c: Container, cur: Container, ghost k: Forest, ghost done: Forest, ghost todo: Forest)
    returns (next: Container?, ghost done': Forest, ghost todo': Forest)
    requires T.Valid() && T.Known(c) && T.Known(cur) && c.id !in Ids(k)
    requires Pruning(T.cells, c.id, k, done, todo) && Head(todo) == Some(cur.id)
    modifies T`cells, T.table.Values
    ensures T.Valid() && T.Known(next) && IdOf(next) == Head(todo')
    ensures Pruning(T.cells, c.id, k, done', todo')
    ensures Marked(todo') < Marked(todo) || (Marked(todo') == Marked(todo) && Len(todo') < Len(todo))
    ensures OnlyIn(old(T.cells), T.cells, {c.id} + Ids(k))
    ensures T.cells[c.id] == old(T.cells)[c.id].(child := T.cells[c.id].child)
  {
    ghost var H := T.cells;
    ghost var t, g, r := todo.top, todo.kids, todo.rest;
    MemberCell(H, c.id, k, done, todo);
    AppendIds(done, todo);
    AppendNoDup(done, todo);
    TopsInIds(done);
    TopsInIds(r);
    if Delete in T.Flags(cur) {
      var c' := RemoveChild(T, c, cur, done, t, r);
      AfterDelete(H, T.cells, c.id, k, done, todo);
      done', todo' := done, r;
    } else if Splice in T.Flags(cur) {
      var c' := SpliceChildren(T, c, cur, done, t, g, r);
      AfterSplice(H, T.cells, c.id, k, done, todo);
      MarkedAppend(r, g);
      PrunedIsSettled(g);
      done', todo' := if r.Cons? then done else Append(done, g), if r.Cons? then Append(r, g) else Nil;
    } else {
      PassOver(H, c.id, k, done, todo);
      done', todo' := Append(done, Single(t, g)), r;
    }
    next := T.Next(cur);
  }

  /** prune_maybe: the walk over the child list removes and appends members of
      that list, visits what it appended, and ends with the collapsed list. */
  method PruneMaybe(T: IdTable, c: Container, ghost k: Forest)
    requires T.Valid() && T.Known(c) && c.id !in Ids(k) && NoDup(k)
    requires T.cells[c.id].child == Head(k) && Sibs(T.cells, k, Some(c.id)) && Settled(k)
    modifies T`cells, T.table.Values
    ensures T.Valid()
    ensures Sibs(T.cells, Collapse(k), Some(c.id))
    ensures OnlyIn(old(T.cells), T.cells, {c.id} + Ids(k))
    ensures T.cells[c.id] == Remarked(old(T.cells)[c.id], Collapse(k))
  {
    var cur := T.Child(c);
    ghost var done, todo := Nil, k;
    while cur != null
      invariant T.Valid() && T.Known(cur) && IdOf(cur) == Head(todo)
      invariant Pruning(T.cells, c.id, k, done, todo)
      invariant OnlyIn(old(T.cells), T.cells, {c.id} + Ids(k))
      invariant T.cells[c.id] == old(T.cells)[c.id].(child := T.cells[c.id].child)
      decreases Marked(todo), Len(todo)
    {
      cur, done, todo := PruneMember(T, c, cur, k, done, todo);
    }
    AppendNil(done);
    assert Collapse(Nil) == Nil;
    assert done == Collapse(k);
    MarkContainer(T, c, done);
  }

  /** The cell after prune_maybe set the mark. */
  ghost function Remarked(l: Cell, k: Forest): Cell {
    l.(child := Head(k),
       flags := if l.msg.Some? then l.flags
                else if k.Nil? then l.flags + {Delete}
                else if k.rest.Cons? then l.flags
                else l.flags + {Splice})
  }

  /** The second half of prune_maybe. */
  method MarkContainer(T: IdTable, c: Container, ghost k: Forest)
    requires T.Valid() && T.Known(c) && c.id !in Ids(k)
    requires T.cells[c.id].child == Head(k) && Sibs(T.cells, k, Some(c.id))
    modifies T`cells, T.table.Values
    ensures T.Valid() && Sibs(T.cells, k, Some(c.id))
    ensures OnlyIn(old(T.cells), T.cells, {c.id})
    ensures T.cells[c.id] == Remarked(old(T.cells)[c.id], k)
  {
    if T.Message(c) != None {
      return;
    }
    ghost var H := T.cells;
    if T.Child(c) == null {
      T.AddFlag(c, Delete);
      Frame(H, T.cells, k, Some(c.id), HeadCache(k), None);
      return;
    }
    if T.Next(T.Child(c)) != null {
      return;
    }
    T.AddFlag(c, Splice);
    Frame(H, T.cells, k, Some(c.id), HeadCache(k), None);
  }

  // ---- the bottom-up walk ----

  lemma {:induction false} MarkShape(f: Forest)
    ensures Head(Mark(f)) == Head(f) && HeadCache(Mark(f)) == HeadCache(f) && Tops(Mark(f)) == Tops(f)
    ensures f.Cons? ==> LastId(Mark(f)) == LastId(f)
  {
    if f.Cons? {
      MarkShape(f.rest);
    }
  }

  lemma {:induction false} MarkedTree(H: Cells, H': Cells, f: Forest, p: Option<Id>, m: Cache)
    requires f.Cons? && NoDup(f) && AllUnflagged(f) && !m.Stale?
    requires f.top.id in H && Holds(H[f.top.id], f.top) && H[f.top.id].parent == p
    requires H[f.top.id].next == Head(f.rest) && CacheOk(H[f.top.id].last, m)
    requires ListRep(H, Mark(f.rest), p, InTail, None)
    requires f.top.id in H' && H'[f.top.id] == Remarked(H[f.top.id], Collapse(Mark(f.kids)))
    requires Sibs(H', Collapse(Mark(f.kids)), Some(f.top.id))
    requires OnlyIn(H, H', {f.top.id} + Ids(f.kids))
    ensures ListRep(H', Mark(f), p, m, None)
  {
    MarkShape(f.rest);
    MarkIds(f.rest);
    Frame(H, H', Mark(f.rest), p, InTail, None);
    assert Mark(f).top == MarkLabel(f.top, Collapse(Mark(f.kids)));
  }

  /** mu_container_foreach with the callback prune_maybe: children first, then
      later siblings, then the container itself. */
  method ForeachPrune(T: IdTable, c: Container?, ghost f: Forest, ghost p: Option<Id>, ghost m: Cache)
    requires T.Valid() && T.Known(c) && IdOf(c) == Head(f)
    requires ListRep(T.cells, f, p, m, None) && !m.Stale? && NoDup(f) && AllUnflagged(f)
    modifies T`cells, T.table.Values
    ensures T.Valid() && ListRep(T.cells, Mark(f), p, m, None)
    ensures OnlyIn(old(T.cells), T.cells, Ids(f))
    decreases f
  {
    if c == null {
      return;
    }
    ghost var H0 := T.cells;
    ghost var Cons(t, k, r) := f;
    ForeachPrune(T, T.Child(c), k, Some(t.id), HeadCache(k));
    ghost var H1 := T.cells;
    Frame(H0, H1, r, p, InTail, None);
    ForeachPrune(T, T.Next(c), r, p, InTail);
    ghost var H2 := T.cells;
    MarkIds(k);
    MarkShape(k);
    MarkSettles(k);
    Frame(H1, H2, Mark(k), Some(t.id), HeadCache(k), None);
    PruneMaybe(T, c, Mark(k));
    MarkedTree(H2, T.cells, f, p, m);
  }

  // ---- the root list itself ----

  /** The state of the loop over the root list. */
  ghost predicate PruningRoots(H: Cells, f: Forest, root: Option<Id>, done: Forest, todo: Forest) {
    Sibs(H, Append(done, todo), None)
    && root == Head(Append(done, todo))
    && NoDup(Append(done, todo))
    && Settled(todo)
    && Append(done, CollapseRoots(todo)) == CollapseRoots(f)
  }

  lemma {:induction false} PassOverRoot(H: Cells, f: Forest, root: Option<Id>, done: Forest, todo: Forest)
    requires PruningRoots(H, f, root, done, todo) && todo.Cons? && Unflagged(todo.top)
    ensures PruningRoots(H, f, root, Append(done, Single(todo.top, todo.kids)), todo.rest)
  {
    var one := Single(todo.top, todo.kids);
    AppendAssoc(done, one, todo.rest);
    AppendAssoc(done, one, CollapseRoots(todo.rest));
  }

  lemma {:induction false} AfterRootDelete(H: Cells, H': Cells, f: Forest, root: Option<Id>, root': Option<Id>,
                              done: Forest, todo: Forest)
    requires PruningRoots(H, f, root, done, todo) && todo.Cons? && Delete in todo.top.flags
    requires Sibs(H', Append(done, todo.rest), None) && root' == Head(Append(done, todo.rest))
    ensures PruningRoots(H', f, root', done, todo.rest)
  {
    AppendIds(done, todo);
    AppendNoDup(done, todo);
    AppendIds(done, todo.rest);
    AppendNoDup(done, todo.rest);
  }

  lemma PrunedKeepsRoots(k: Forest)
    requires Pruned(k)
    ensures KeptRoots(k) == k && Promoted(k) == Nil
  {
  }

  lemma {:induction false} KeptRootsAppend(r: Forest, k: Forest)
    ensures KeptRoots(Append(r, k)) == Append(KeptRoots(r), KeptRoots(k))
  {
    if r.Cons? {
      KeptRootsAppend(r.rest, k);
    }
  }

  /** The spliced root stays as a shell, its child goes to the end of the
      root list. */
  lemma {:induction false} AfterRootSplice(H: Cells, H': Cells, f: Forest, root: Option<Id>, done: Forest, todo: Forest)
    requires PruningRoots(H, f, root, done, todo) && todo.Cons? && Delete !in todo.top.flags && Splice in todo.top.flags
    requires Sibs(H', Append(Append(done, Cons(todo.top, Nil, todo.rest)), todo.kids), None)
    ensures PruningRoots(H', f, root, Append(done, Single(todo.top, Nil)), Append(todo.rest, todo.kids))
  {
    var t, k, r := todo.top, todo.kids, todo.rest;
    var shell := Single(t, Nil);
    assert k.Cons? && k.rest.Nil? && Pruned(k);
    RootSpliceLists(done, t, k, r);
    RootSpliceIds(done, t, k, r);
    PrunedIsSettled(k);
    AppendSettled(r, k);
    RootSpliceCollapse(done, t, k, r);
  }

  lemma {:induction false} RootSpliceLists(d: Forest, t: Label, k: Forest, r: Forest)
    ensures Append(Append(d, Cons(t, Nil, r)), k) == Append(Append(d, Single(t, Nil)), Append(r, k))
    ensures Head(Append(Append(d, Single(t, Nil)), Append(r, k))) == Head(Append(d, Cons(t, k, r)))
  {
    AppendAssoc(d, Cons(t, Nil, r), k);
    AppendAssoc(d, Single(t, Nil), Append(r, k));
  }

  lemma {:induction false} RootSpliceIds(d: Forest, t: Label, k: Forest, r: Forest)
    requires NoDup(Append(d, Cons(t, k, r)))
    ensures NoDup(Append(d, Cons(t, Nil, r))) && Ids(Append(d, Cons(t, Nil, r))) !! Ids(k) && NoDup(k)
    ensures NoDup(Append(Append(d, Cons(t, Nil, r)), k))
  {
    AppendIds(d, Cons(t, k, r));
    AppendNoDup(d, Cons(t, k, r));
    AppendIds(d, Cons(t, Nil, r));
    AppendNoDup(d, Cons(t, Nil, r));
    AppendNoDup(Append(d, Cons(t, Nil, r)), k);
  }

  lemma {:induction false} RootSpliceCollapse(d: Forest, t: Label, k: Forest, r: Forest)
    requires Pruned(k) && k.Cons? && k.rest.Nil? && Delete !in t.flags && Splice in t.flags
    ensures Append(Append(d, Single(t, Nil)), CollapseRoots(Append(r, k))) == Append(d, CollapseRoots(Cons(t, k, r)))
  {
    var shell := Single(t, Nil);
    KeptRootsAppend(r, k);
    KeptAppend(r, k);
    PrunedKeepsRoots(k);
    AppendNil(Promoted(r));
    AppendAssoc(KeptRoots(r), k, Promoted(r));
    AppendNil(Promoted(Append(r, k)));
    assert Promoted(Append(r, k)) == Promoted(r);
    assert CollapseRoots(Append(r, k)) == Append(Append(KeptRoots(r), k), Promoted(r));
    assert CollapseRoots(Cons(t, k, r)) == Append(shell, Append(KeptRoots(r), Append(k, Promoted(r))));
    AppendAssoc(d, shell, CollapseRoots(Append(r, k)));
  }

  /** One round of the loop over the root list. */
  method PruneRoot(T: IdTable, root: Container, cur: Container, ghost f: Forest, ghost done: Forest, ghost todo: Forest)
    returns (root': Container?, next: Container?, ghost done': Forest, ghost todo': Forest)
    requires T.Valid() && T.Known(root) && T.Known(cur)
    requires PruningRoots(T.cells, f, Some(root.id), done, todo) && Head(todo) == Some(cur.id)
    modifies T`cells, T.table.Values
    ensures T.Valid() && T.Known(root') && T.Known(next) && IdOf(next) == Head(todo')
    ensures PruningRoots(T.cells, f, IdOf(root'), done', todo')
    ensures Marked(todo') < Marked(todo) || (Marked(todo') == Marked(todo) && Len(todo') < Len(todo))
  {
    ghost var H := T.cells;
    ghost var t, k, r := todo.top, todo.kids, todo.rest;
    Split(H, done, todo, None, HeadCache(Append(done, todo)), None);
    AppendNoDup(done, todo);
    AppendIds(done, todo);
    TopsInIds(done);
    TopsInIds(r);
    root' := root;
    if Delete in T.Flags(cur) {
      root' := RemoveSibling(T, root, cur, done, t, Nil, r, None);
      AfterRootDelete(H, T.cells, f, Some(root.id), IdOf(root'), done, todo);
      done', todo' := done, r;
      next := T.Next(cur);
    } else if Splice in T.Flags(cur) {
      SpliceRoot(T, root, cur, done, t, k, r);
      AfterRootSplice(H, T.cells, f, Some(root.id), done, todo);
      MarkedAppend(r, k);
      PrunedIsSettled(k);
      done', todo' := Append(done, Single(t, Nil)), Append(r, k);
      Split(T.cells, done', todo', None, HeadCache(Append(done', todo')), None);
      Split(T.cells, done, Single(t, Nil), None, HeadCache(Append(done', todo')), Head(todo'));
      next := T.Next(cur);
    } else {
      PassOverRoot(H, f, Some(root.id), done, todo);
      done', todo' := Append(done, Single(t, k)), r;
      next := T.Next(cur);
    }
  }

  method SpliceRoot(T: IdTable, root: Container, cur: Container, ghost d: Forest, ghost t: Label, ghost k: Forest,
                    ghost r: Forest)
    requires T.Valid() && T.Known(root) && T.Known(cur) && cur.id == t.id
    requires k.Cons? && k.rest.Nil? && Head(Append(d, Cons(t, k, r))) == Some(root.id)
    requires Sibs(T.cells, Append(d, Cons(t, k, r)), None) && NoDup(Append(d, Cons(t, k, r)))
    modifies T`cells, T.table.Values
    ensures T.Valid() && Sibs(T.cells, Append(Append(d, Cons(t, Nil, r)), k), None)
  {
    CutKids(T.cells, d, t, k, r, None);
    RootSpliceIds(d, t, k, r);
    HeadUnchanged(d, t, k, r);
    var newchild := T.Child(cur);
    T.SetChild(cur, null);
    var root' := AppendSiblings(T, root, newchild, Append(d, Cons(t, Nil, r)), k, None, Some(t.id));
  }

  /** prune_empty_containers */
  method PruneEmptyContainers(T: IdTable, root: Container?, ghost f: Forest) returns (root': Container?)
    requires T.Valid() && T.Known(root) && IdOf(root) == Head(f)
    requires Sibs(T.cells, f, None) && NoDup(f) && AllUnflagged(f)
    modifies T`cells, T.table.Values
    ensures T.Valid() && T.Known(root') && IdOf(root') == Head(PruneForest(f))
    ensures Sibs(T.cells, PruneForest(f), None)
  {
    ForeachPrune(T, root, f, None, HeadCache(f));
    MarkShape(f);
    MarkIds(f);
    MarkSettles(f);
    ghost var g := Mark(f);
    root' := root;
    var cur := root;
    ghost var done, todo := Nil, g;
    while cur != null
      invariant T.Valid() && T.Known(root') && T.Known(cur) && IdOf(cur) == Head(todo)
      invariant PruningRoots(T.cells, g, IdOf(root'), done, todo)
      decreases Marked(todo), Len(todo)
    {
      AppendTops(done, todo);
      root', cur, done, todo := PruneRoot(T, root', cur, g, done, todo);
    }
    AppendNil(done);
    assert CollapseRoots(Nil) == Nil;
  }
}
