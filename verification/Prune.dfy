/** Step 4: empty containers are marked bottom-up, then taken out of the
    sibling lists they stand in. */
module Prune {
  import opened Options
  import opened Forests

  /** What is left of a child list when its marked members are handled:
      members without a mark keep their order, and the only child of every
      spliced member goes to the end of the list, in order. */
  ghost function Kept(f: Forest): Forest {
    match f
    case Nil => Nil
    case Cons(t, k, r) => if Unflagged(t) then Cons(t, k, Kept(r)) else Kept(r)
  }

  ghost function Promoted(f: Forest): Forest {
    match f
    case Nil => Nil
    case Cons(t, k, r) => if Delete !in t.flags && Splice in t.flags then Append(k, Promoted(r)) else Promoted(r)
  }

  ghost function Collapse(f: Forest): Forest {
    Append(Kept(f), Promoted(f))
  }

  /** The mark a container gets, given its child list after collapsing. */
  ghost function MarkLabel(t: Label, k: Forest): Label {
    if t.msg.Some? then t
    else if k.Nil? then t.(flags := t.flags + {Delete})
    else if k.rest.Cons? then t
    else t.(flags := t.flags + {Splice})
  }

  ghost function Mark(f: Forest): Forest {
    match f
    case Nil => Nil
    case Cons(t, k, r) => Cons(MarkLabel(t, Collapse(Mark(k))), Collapse(Mark(k)), Mark(r))
  }

  /** A spliced root stays behind as an empty shell. */
  ghost function KeptRoots(f: Forest): Forest {
    match f
    case Nil => Nil
    case Cons(t, k, r) =>
      if Delete in t.flags then KeptRoots(r)
      else if Splice in t.flags then Cons(t, Nil, KeptRoots(r))
      else Cons(t, k, KeptRoots(r))
  }

  ghost function CollapseRoots(f: Forest): Forest {
    Append(KeptRoots(f), Promoted(f))
  }

  ghost function PruneForest(f: Forest): Forest {
    CollapseRoots(Mark(f))
  }

  // ---- shape of marked and pruned forests ----

  /** Below the outermost list: no marks, and every empty container has at
      least two children. */
  ghost predicate Pruned(f: Forest) {
    match f
    case Nil => true
    case Cons(t, k, r) =>
      Unflagged(t) && (t.msg.Some? || (k.Cons? && k.rest.Cons?)) && Pruned(k) && Pruned(r)
  }

  /** A root may also be a bare shell. */
  ghost predicate PrunedRoots(f: Forest) {
    match f
    case Nil => true
    case Cons(t, k, r) =>
      Delete !in t.flags
      && (t.msg.Some? || k.Nil? || k.rest.Cons?)
      && (Splice in t.flags ==> t.msg.None? && k.Nil?)
      && (t.msg.None? && k.Nil? ==> Splice in t.flags)
      && Pruned(k) && PrunedRoots(r)
  }

  /** A sibling list whose members were all handled by prune_maybe. */
  ghost predicate Settled(f: Forest) {
    match f
    case Nil => true
    case Cons(t, k, r) =>
      Pruned(k) && Settled(r)
      && (if t.msg.Some? then Unflagged(t)
          else if k.Nil? then Delete in t.flags && Splice !in t.flags
          else if k.rest.Cons? then Unflagged(t)
          else Delete !in t.flags && Splice in t.flags)
  }

  lemma AppendPruned(f: Forest, g: Forest)
    ensures Pruned(Append(f, g)) <==> Pruned(f) && Pruned(g)
  {
  }

  lemma PrunedIsPrunedRoots(g: Forest)
    requires Pruned(g)
    ensures PrunedRoots(g)
  {
  }

  lemma AppendPrunedRoots(f: Forest, g: Forest)
    requires PrunedRoots(f) && Pruned(g)
    ensures PrunedRoots(Append(f, g))
  {
    PrunedIsPrunedRoots(g);
  }

  lemma CollapsePruned(f: Forest)
    requires Settled(f)
    ensures Pruned(Kept(f)) && Pruned(Promoted(f)) && Pruned(Collapse(f))
  {
    if f.Cons? {
      CollapsePruned(f.rest);
      if f.kids.Cons? { AppendPruned(f.kids, Promoted(f.rest)); }
    }
    AppendPruned(Kept(f), Promoted(f));
  }

  lemma KeptRootsPruned(f: Forest)
    requires Settled(f)
    ensures PrunedRoots(KeptRoots(f))
  {
  }

  /** Marking settles every list: by the time a container is looked at, its
      children carry final marks and whatever a splice promotes is free of
      marks. */
  lemma {:induction false} MarkSettles(f: Forest)
    requires AllUnflagged(f)
    ensures Settled(Mark(f))
  {
    if f.Cons? {
      MarkSettles(f.kids);
      MarkSettles(f.rest);
      CollapsePruned(Mark(f.kids));
    }
  }

  /** The shape the pruned forest has. */
  lemma {:induction false} PruneShape(f: Forest)
    requires AllUnflagged(f)
    ensures PrunedRoots(PruneForest(f))
  {
    MarkSettles(f);
    KeptRootsPruned(Mark(f));
    CollapsePruned(Mark(f));
    AppendPrunedRoots(KeptRoots(Mark(f)), Promoted(Mark(f)));
  }

  // ---- meaning is preserved ----

  /** A member that is deleted holds nothing; a spliced one holds only its child. */
  lemma {:induction false} CollapseThreads(f: Forest, a: Option<Id>)
    requires Settled(f)
    ensures Threads(Kept(f), a) + Threads(Promoted(f), a) == Threads(f, a)
    ensures Threads(KeptRoots(f), a) + Threads(Promoted(f), a) == Threads(f, a)
  {
    assert Threads(Nil, a) == {};
    if f.Cons? {
      CollapseThreads(f.rest, a);
      AppendRelations(f.kids, Promoted(f.rest), a);
    }
  }

  lemma {:induction false} CollapseMessages(f: Forest)
    requires Settled(f)
    ensures Messages(Kept(f)) + Messages(Promoted(f)) == Messages(f)
    ensures Messages(KeptRoots(f)) == Messages(Kept(f))
  {
    KeptRootsMessages(f);
    match f
    case Nil =>
    case Cons(t, k, r) =>
      CollapseMessages(r);
      if Unflagged(t) {
        assert Promoted(f) == Promoted(r) && Kept(f) == Cons(t, k, Kept(r));
        Exchange(Messages(Single(t, k)), Messages(Kept(r)), Messages(Promoted(r)));
        HeadMessages(t, k, r);
        HeadMessages(t, k, Kept(r));
      } else if Delete in t.flags {
        assert Messages(k) == multiset{};
      } else {
        AppendMessages(k, Promoted(r));
        Exchange(Messages(k), Messages(Kept(r)), Messages(Promoted(r)));
      }
  }

  lemma HeadMessages(t: Label, k: Forest, r: Forest)
    ensures Messages(Cons(t, k, r)) == Messages(Single(t, k)) + Messages(r)
  {
    assert Messages(Nil) == multiset{};
  }

  lemma Exchange<T>(a: multiset<T>, b: multiset<T>, c: multiset<T>)
    ensures (a + b) + c == a + (b + c) && b + (a + c) == a + (b + c)
  {
  }

  lemma {:induction false} KeptRootsMessages(f: Forest)
    requires Settled(f)
    ensures Messages(KeptRoots(f)) == Messages(Kept(f))
  {
    assert Messages(Nil) == multiset{};
    if f.Cons? {
      KeptRootsMessages(f.rest);
    }
  }

  lemma {:induction false} MarkThreads(f: Forest, a: Option<Id>)
    requires AllUnflagged(f)
    ensures Threads(Mark(f), a) == Threads(f, a)
  {
    match f
    case Nil =>
    case Cons(t, k, r) =>
      var b := if t.msg.Some? then Some(t.id) else a;
      MarkThreads(k, b);
      MarkThreads(r, a);
      MarkSettles(k);
      CollapseThreads(Mark(k), b);
      AppendRelations(Kept(Mark(k)), Promoted(Mark(k)), b);
  }

  lemma {:induction false} MarkMessages(f: Forest)
    requires AllUnflagged(f)
    ensures Messages(Mark(f)) == Messages(f)
  {
    if f.Cons? {
      var k := f.kids;
      MarkMessages(k);
      MarkMessages(f.rest);
      MarkSettles(k);
      CollapseMessages(Mark(k));
      AppendMessages(Kept(Mark(k)), Promoted(Mark(k)));
    }
  }

  /** Pruning keeps every message, exactly once, and leaves its nearest
      message-carrying ancestor what it was. */
  lemma {:induction false} PrunePreservesThreads(f: Forest)
    requires AllUnflagged(f)
    ensures Threads(PruneForest(f), None) == Threads(f, None)
    ensures Messages(PruneForest(f)) == Messages(f)
  {
    var g := Mark(f);
    MarkSettles(f);
    MarkThreads(f, None);
    MarkMessages(f);
    CollapseThreads(g, None);
    CollapseMessages(g);
    AppendRelations(KeptRoots(g), Promoted(g), None);
    AppendMessages(KeptRoots(g), Promoted(g));
  }

  // ---- no container is duplicated ----

  lemma {:induction false} CollapseIds(f: Forest)
    requires NoDup(f)
    ensures Ids(Kept(f)) + Ids(Promoted(f)) <= Ids(f) && Ids(Kept(f)) !! Ids(Promoted(f))
    ensures NoDup(Kept(f)) && NoDup(Promoted(f))
  {
    if f.Cons? {
      CollapseIds(f.rest);
      AppendIds(f.kids, Promoted(f.rest));
      AppendNoDup(f.kids, Promoted(f.rest));
    }
  }

  lemma {:induction false} CollapseRootIds(f: Forest)
    requires NoDup(f)
    ensures Ids(KeptRoots(f)) + Ids(Promoted(f)) <= Ids(f) && Ids(KeptRoots(f)) !! Ids(Promoted(f))
    ensures NoDup(KeptRoots(f)) && NoDup(Promoted(f))
  {
    if f.Cons? {
      CollapseRootIds(f.rest);
      AppendIds(f.kids, Promoted(f.rest));
      AppendNoDup(f.kids, Promoted(f.rest));
      assert Ids(Nil) == {};
    }
  }

  lemma {:induction false} MarkIds(f: Forest)
    requires NoDup(f)
    ensures Ids(Mark(f)) <= Ids(f) && NoDup(Mark(f))
  {
    if f.Cons? {
      var k := f.kids;
      MarkIds(k);
      MarkIds(f.rest);
      CollapseIds(Mark(k));
      AppendIds(Kept(Mark(k)), Promoted(Mark(k)));
      AppendNoDup(Kept(Mark(k)), Promoted(Mark(k)));
    }
  }

  lemma {:induction false} PruneIds(f: Forest)
    requires NoDup(f)
    ensures Ids(PruneForest(f)) <= Ids(f) && NoDup(PruneForest(f))
  {
    var g := Mark(f);
    MarkIds(f);
    CollapseRootIds(g);
    AppendIds(KeptRoots(g), Promoted(g));
    AppendNoDup(KeptRoots(g), Promoted(g));
  }
}
