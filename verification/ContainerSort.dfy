/** mu_container_sort on the heap. */
module ContainerSort {
  import opened Options
  import opened Forests
  import opened Sort
  import opened Cells
  import opened Containers

  // ---- members of a sibling list, taken out of the list ----

  /** The heap holds the tree u with parent p; its `next` is not looked at. */
  ghost predicate TreeRep(H: Cells, u: Tree, p: Option<Id>) {
    u.top.id in H
    && Holds(H[u.top.id], u.top)
    && H[u.top.id].parent == p
    && H[u.top.id].child == Head(u.kids)
    && ListRep(H, u.kids, Some(u.top.id), Stale, None)
  }

  ghost predicate TreesRep(H: Cells, us: seq<Tree>, p: Option<Id>) {
    forall u :: u in us ==> TreeRep(H, u, p)
  }

  /** The list of containers xs stands for the trees us. */
  ghost predicate Matches(T: IdTable, xs: seq<Container>, us: seq<Tree>)
    reads T
  {
    |xs| == |us| && forall i :: 0 <= i < |xs| ==> T.Known(xs[i]) && xs[i].id == us[i].top.id
  }

  lemma {:induction false} ListTrees(H: Cells, f: Forest, p: Option<Id>, nxt: Option<Id>)
    requires ListRep(H, f, p, Stale, nxt)
    ensures TreesRep(H, Trees(f), p)
  {
    if f.Cons? {
      ListTrees(H, f.rest, p, nxt);
    }
  }

  lemma {:induction false} PermutedTreesRep(H: Cells, us: seq<Tree>, vs: seq<Tree>, p: Option<Id>)
    requires TreesRep(H, us, p) && multiset(us) == multiset(vs)
    ensures TreesRep(H, vs, p)
  {
    forall v | v in vs ensures TreeRep(H, v, p) {
      assert v in multiset(us);
    }
  }

  // ---- the comparator ----

  /** The walk down the first children to a container with a message. */
  method LeftmostContainer(T: IdTable, a: Container, ghost u: Tree, ghost p: Option<Id>) returns (a1: Container)
    requires T.Valid() && T.Known(a) && a.id == u.top.id && TreeRep(T.cells, u, p)
    ensures T.Known(a1) && a1.id == Key(u).id && T.cells[a1.id].msg == Key(u).msg
  {
    a1 := a;
    ghost var v, q := u, p;
    while T.Message(a1) == None && T.Child(a1) != null
      invariant T.Known(a1) && a1.id == v.top.id && TreeRep(T.cells, v, q) && Key(v) == Key(u)
      decreases v.kids
    {
      a1 := T.Child(a1);
      q := Some(v.top.id);
      v := Tree(v.kids.top, v.kids.kids);
    }
  }

  /** sort_func_wrapper */
  method SortFuncWrapper(T: IdTable, a: Container, b: Container, o: Order, ghost u: Tree, ghost v: Tree,
                         ghost p: Option<Id>) returns (r: int)
    requires T.Valid() && T.Known(a) && T.Known(b) && a.id == u.top.id && b.id == v.top.id
    requires TreeRep(T.cells, u, p) && TreeRep(T.cells, v, p)
    ensures r == Compare(o, u, v)
    ensures Key(u).msg.Some? && Key(v).msg.Some? && Key(u).id != Key(v).id ==>
              var x, y := Key(u).msg.value, Key(v).msg.value; r == if o.revert then o.cmp(y, x) else o.cmp(x, y)
  {
    var a1 := LeftmostContainer(T, a, u, p);
    var b1 := LeftmostContainer(T, b, v, p);
    if a1 == b1 {
      return 0;
    } else if T.Message(a1) == None {
      return 1;
    } else if T.Message(b1) == None {
      return -1;
    }
    var x, y := T.Message(a1).value, T.Message(b1).value;
    if o.revert {
      return o.cmp(y, x);
    } else {
      return o.cmp(x, y);
    }
  }

  // ---- g_slist_sort_with_data: a stable merge sort ----

  method MergeLists(T: IdTable, xs: seq<Container>, ys: seq<Container>, o: Order, ghost us: seq<Tree>,
                    ghost vs: seq<Tree>, ghost p: Option<Id>)
    returns (zs: seq<Container>)
    requires T.Valid() && Matches(T, xs, us) && Matches(T, ys, vs)
    requires TreesRep(T.cells, us, p) && TreesRep(T.cells, vs, p)
    ensures Matches(T, zs, Merge(o, us, vs))
    decreases |xs| + |ys|
  {
    if xs == [] {
      return ys;
    }
    if ys == [] {
      return xs;
    }
    var c := SortFuncWrapper(T, xs[0], ys[0], o, us[0], vs[0], p);
    if c <= 0 {
      zs := MergeLists(T, xs[1..], ys, o, us[1..], vs, p);
      zs := [xs[0]] + zs;
    } else {
      zs := MergeLists(T, xs, ys[1..], o, us, vs[1..], p);
      zs := [ys[0]] + zs;
    }
  }

  method SortList(T: IdTable, xs: seq<Container>, o: Order, ghost us: seq<Tree>, ghost p: Option<Id>)
    returns (zs: seq<Container>)
    requires T.Valid() && Matches(T, xs, us) && TreesRep(T.cells, us, p)
    ensures Matches(T, zs, MergeSort(o, us))
    decreases |xs|
  {
    if |xs| < 2 {
      return xs;
    }
    var h := |xs| / 2;
    var a := SortList(T, xs[..h], o, us[..h], p);
    var b := SortList(T, xs[h..], o, us[h..], p);
    SortPermutes(o, us[..h]);
    SortPermutes(o, us[h..]);
    PermutedTreesRep(T.cells, us[..h], MergeSort(o, us[..h]), p);
    PermutedTreesRep(T.cells, us[h..], MergeSort(o, us[h..]), p);
    zs := MergeLists(T, a, b, o, MergeSort(o, us[..h]), MergeSort(o, us[h..]), p);
  }

  // ---- lists to and fro ----

  lemma {:induction false} ReverseSnoc(us: seq<Tree>, u: Tree)
    ensures Reverse(us + [u]) == [u] + Reverse(us)
    decreases |us|
  {
    if us == [] {
      assert (us + [u])[1..] == [];
    } else {
      assert (us + [u])[1..] == us[1..] + [u];
      ReverseSnoc(us[1..], u);
    }
  }

  lemma {:induction false} TreesAppend(f: Forest, g: Forest)
    ensures Trees(Append(f, g)) == Trees(f) + Trees(g)
  {
    if f.Cons? {
      TreesAppend(f.rest, g);
    }
  }

  /** mu_container_to_list: by prepending, so in reverse. */
  method ToList(T: IdTable, c: Container?, ghost f: Forest, ghost p: Option<Id>) returns (lst: seq<Container>)
    requires T.Valid() && T.Known(c) && IdOf(c) == Head(f) && ListRep(T.cells, f, p, Stale, None)
    ensures Matches(T, lst, Reverse(Trees(f)))
  {
    lst := [];
    var cur := c;
    ghost var done, todo := Nil, f;
    while cur != null
      invariant T.Known(cur) && IdOf(cur) == Head(todo) && ListRep(T.cells, todo, p, Stale, None)
      invariant f == Append(done, todo) && Matches(T, lst, Reverse(Trees(done)))
      decreases todo
    {
      ghost var one := Single(todo.top, todo.kids);
      AppendAssoc(done, one, todo.rest);
      TreesAppend(done, one);
      assert Trees(one) == [Tree(todo.top, todo.kids)] by { assert Trees(Nil) == []; }
      assert Trees(Append(done, one)) == Trees(done) + [Tree(todo.top, todo.kids)];
      ReverseSnoc(Trees(done), Tree(todo.top, todo.kids));
      lst := [cur] + lst;
      cur := T.Next(cur);
      done, todo := Append(done, one), todo.rest;
    }
    AppendNil(done);
  }

  ghost predicate Heads(us: seq<Tree>, S: set<Id>) {
    forall i :: 0 <= i < |us| ==> us[i].top.id in S
  }

  /** Only `next` fields differ, and only on S. */
  ghost predicate OnlyNext(H: Cells, H': Cells, S: set<Id>) {
    OnlyIn(H, H', S) && forall i :: i in S && i in H ==> H'[i] == H[i].(next := H'[i].next)
  }

  ghost predicate LinkedOn(H: Cells, us: seq<Tree>, j: nat)
    requires j < |us|
  {
    us[j].top.id in H && H[us[j].top.id].next == (if j + 1 < |us| then Some(us[j + 1].top.id) else None)
  }

  ghost predicate Linked(H: Cells, us: seq<Tree>, n: int) {
    forall j :: 0 <= j < n && j < |us| ==> LinkedOn(H, us, j)
  }

  /** mu_container_from_list. The first round links the first container to
      itself; the next round puts that right. */
  method FromList(T: IdTable, lst: seq<Container>, ghost us: seq<Tree>, ghost S: set<Id>) returns (c: Container?)
    requires T.Valid() && Matches(T, lst, us) && Heads(us, S)
    requires forall i, j :: 0 <= i < j < |us| ==> us[i].top.id != us[j].top.id
    modifies T`cells, T.table.Values
    ensures T.Valid() && T.Known(c) && IdOf(c) == Head(FromTrees(us))
    ensures OnlyNext(old(T.cells), T.cells, S) && Linked(T.cells, us, |us|)
  {
    if lst == [] {
      return null;
    }
    c := lst[0];
    var cur: Container? := c;
    var i := 0;
    while cur != null
      invariant 0 <= i <= |lst| + 1 && T.Valid() && T.Known(cur)
      invariant cur == if i == 0 then lst[0] else if i <= |lst| then lst[i - 1] else null
      invariant OnlyNext(old(T.cells), T.cells, S)
      invariant Linked(T.cells, us, i - 1)
      decreases |lst| + 1 - i
    {
      ghost var H := T.cells;
      T.SetNext(cur, if i < |lst| then lst[i] else null);
      StillLinked(H, T.cells, us, i);
      cur := T.Next(cur);
      i := i + 1;
    }
  }

  lemma {:induction false} StillLinked(H: Cells, H': Cells, us: seq<Tree>, i: nat)
    requires us != [] && i <= |us| && Linked(H, us, i - 1)
    requires forall a, b :: 0 <= a < b < |us| ==> us[a].top.id != us[b].top.id
    requires var x := us[if i == 0 then 0 else i - 1].top.id;
             x in H && H' == H[x := H[x].(next := if i < |us| then Some(us[i].top.id) else None)]
    ensures Linked(H', us, i)
  {
    forall j | 0 <= j < i && j < |us| ensures LinkedOn(H', us, j) {
      if j < i - 1 { assert LinkedOn(H, us, j); }
    }
  }

  lemma HeadOfTail(us: seq<Tree>, n: nat)
    requires n <= |us|
    ensures HeadOr(FromTrees(us[n..]), None) == if n < |us| then Some(us[n].top.id) else None
  {
    if n < |us| { assert us[n..][0] == us[n]; }
  }

  lemma LinkedAt(H: Cells, us: seq<Tree>, n: nat)
    requires n < |us| && Linked(H, us, |us|)
    ensures us[n].top.id in H && H[us[n].top.id].next == HeadOr(FromTrees(us[n + 1..]), None)
  {
    HeadOfTail(us, n + 1);
    assert LinkedOn(H, us, n);
  }

  lemma {:induction false} RelinkedRep(H: Cells, H': Cells, us: seq<Tree>, n: nat, p: Option<Id>, S: set<Id>)
    requires n <= |us| && TreesRep(H, us, p) && OnlyNext(H, H', S) && Heads(us, S) && Linked(H', us, |us|)
    requires forall u :: u in us ==> Ids(u.kids) !! S
    ensures ListRep(H', FromTrees(us[n..]), p, Stale, None)
    decreases |us| - n
  {
    if n < |us| {
      RelinkedRep(H, H', us, n + 1, p, S);
      var u := us[n];
      assert us[n..] == [u] + us[n + 1..];
      assert FromTrees(us[n..]) == Cons(u.top, u.kids, FromTrees(us[n + 1..]));
      LinkedAt(H', us, n);
      assert u in us && TreeRep(H, u, p);
      Frame(H, H', u.kids, Some(u.top.id), Stale, None);
    }
  }

  // ---- the recursion ----

  lemma {:induction false} SortKidsAppend(o: Order, f: Forest, g: Forest)
    ensures SortKids(o, Append(f, g)) == SortKids(o, f) + SortKids(o, g)
  {
    if f.Cons? {
      SortKidsAppend(o, f.rest, g);
    }
  }

  ghost function KidsSorted(o: Order, f: Forest): Forest {
    FromTrees(SortKids(o, f))
  }

  lemma {:induction false} KidsSortedSnoc(o: Order, done: Forest, t: Label, k: Forest)
    ensures KidsSorted(o, Append(done, Single(t, k))) == Append(KidsSorted(o, done), Single(t, SortForest(o, k)))
  {
    SortKidsAppend(o, done, Single(t, k));
    assert SortKids(o, Single(t, k)) == [Tree(t, SortForest(o, k))] by { assert SortKids(o, Nil) == []; }
    FromTreesConcat(SortKids(o, done), [Tree(t, SortForest(o, k))]);
    assert FromTrees([Tree(t, SortForest(o, k))]) == Single(t, SortForest(o, k)) by { assert FromTrees([]) == Nil; }
  }

  lemma {:induction false} SortIds(o: Order, f: Forest)
    ensures Ids(KidsSorted(o, f)) == Ids(f) && Ids(SortForest(o, f)) == Ids(f)
    ensures NoDup(f) ==> NoDup(KidsSorted(o, f))
  {
    SortKidsSame(o, f);
    SortKeepsForest(o, f);
  }

  /** The state of the loop that sorts the child lists. */
  ghost predicate SortingKids(H: Cells, o: Order, f: Forest, p: Option<Id>, done: Forest, todo: Forest) {
    f == Append(done, todo)
    && ListRep(H, KidsSorted(o, done), p, Stale, Head(todo))
    && ListRep(H, todo, p, Stale, None)
  }

  lemma {:induction false} DoneAndRestUntouched(H: Cells, H2: Cells, o: Order, f: Forest, p: Option<Id>, done: Forest,
                              todo: Forest)
    requires SortingKids(H, o, f, p, done, todo) && todo.Cons? && NoDup(f)
    requires OnlyIn(H, H2, Ids(todo.kids) + {todo.top.id})
    ensures ListRep(H2, KidsSorted(o, done), p, Stale, Some(todo.top.id))
    ensures ListRep(H2, todo.rest, p, Stale, None)
  {
    AppendNoDup(done, todo);
    SortIds(o, done);
    Frame(H, H2, KidsSorted(o, done), p, Stale, Some(todo.top.id));
    Frame(H, H2, todo.rest, p, Stale, None);
  }

  lemma {:induction false} KidSorted(H: Cells, H1: Cells, H2: Cells, o: Order, f: Forest, p: Option<Id>, done: Forest,
                              todo: Forest)
    requires SortingKids(H, o, f, p, done, todo) && todo.Cons? && NoDup(f)
    requires OnlyIn(H, H1, Ids(todo.kids)) && ListRep(H1, SortForest(o, todo.kids), Some(todo.top.id), Stale, None)
    requires todo.top.id in H1 && H2 == H1[todo.top.id := H1[todo.top.id].(child := Head(SortForest(o, todo.kids)))]
    ensures SortingKids(H2, o, f, p, Append(done, Single(todo.top, todo.kids)), todo.rest)
  {
    var Cons(t, k, r) := todo;
    var sk := SortForest(o, k);
    KidTreeRep(H, H1, H2, t, k, sk, p, r, o, f, done);
    DoneAndRestUntouched(H, H2, o, f, p, done, todo);
    AppendAssoc(done, Single(t, k), r);
    KidsSortedSnoc(o, done, t, k);
    Split(H2, KidsSorted(o, done), Single(t, sk), p, Stale, Head(r));
  }

  lemma {:induction false} KidTreeRep(H: Cells, H1: Cells, H2: Cells, t: Label, k: Forest, sk: Forest, p: Option<Id>,
                              r: Forest, o: Order, f: Forest, done: Forest)
    requires SortingKids(H, o, f, p, done, Cons(t, k, r)) && NoDup(f) && sk == SortForest(o, k)
    requires OnlyIn(H, H1, Ids(k)) && ListRep(H1, sk, Some(t.id), Stale, None)
    requires t.id in H1 && H2 == H1[t.id := H1[t.id].(child := Head(sk))]
    ensures ListRep(H2, Single(t, sk), p, Stale, Head(r))
  {
    AppendNoDup(done, Cons(t, k, r));
    SortIds(o, k);
    Frame(H1, H2, sk, Some(t.id), Stale, None);
  }

  lemma {:induction false} KidSmaller(f: Forest, done: Forest, todo: Forest)
    requires f == Append(done, todo) && todo.Cons? && NoDup(f)
    ensures (f decreases to todo.kids) && Ids(todo.kids) + {todo.top.id} <= Ids(f) && NoDup(todo.kids)
            && todo.top.id !in Ids(todo.kids)
    decreases f
  {
    AppendIds(done, todo);
    AppendNoDup(done, todo);
    if done.Cons? {
      AppendNoDup(done.rest, todo);
      KidSmaller(f.rest, done.rest, todo);
    }
  }

  lemma {:induction false} NextKept(H: Cells, o: Order, f: Forest, p: Option<Id>, done: Forest, t: Label, k: Forest,
                              r: Forest)
    requires SortingKids(H, o, f, p, Append(done, Single(t, k)), r)
    ensures t.id in H && H[t.id].next == Head(r)
  {
    KidsSortedSnoc(o, done, t, k);
    Split(H, KidsSorted(o, done), Single(t, SortForest(o, k)), p, Stale, Head(r));
  }

  lemma {:induction false} SortedTrees(o: Order, f: Forest, us: seq<Tree>)
    requires NoDup(f) && us == MergeSort(o, Reverse(SortKids(o, f)))
    ensures Trees(KidsSorted(o, f)) == SortKids(o, f) && multiset(us) == multiset(SortKids(o, f))
    ensures SortForest(o, f) == FromTrees(us)
    ensures forall i, j :: 0 <= i < j < |us| ==> us[i].top.id != us[j].top.id
    ensures Heads(us, Tops(FromTrees(us))) && Tops(FromTrees(us)) <= Ids(f)
    ensures forall u :: u in us ==> Ids(u.kids) !! Tops(FromTrees(us))
  {
    TreesOfFromTrees(SortKids(o, f));
    ReversePermutes(SortKids(o, f));
    SortPermutes(o, Reverse(SortKids(o, f)));
    SortKeepsForest(o, f);
    TopsInIds(FromTrees(us));
    TreesApart(us);
  }

  lemma {:induction false} TreesApart(us: seq<Tree>)
    requires NoDup(FromTrees(us))
    ensures forall i, j :: 0 <= i < j < |us| ==> us[i].top.id != us[j].top.id
    ensures Heads(us, Tops(FromTrees(us)))
    ensures forall u :: u in us ==> Ids(u.kids) <= Ids(FromTrees(us)) && Ids(u.kids) !! Tops(FromTrees(us))
    decreases |us|
  {
    if us != [] {
      TreesApart(us[1..]);
      TopsInIds(FromTrees(us[1..]));
      assert forall u :: u in us <==> u == us[0] || u in us[1..];
    }
  }

  /** The second half of container_sort_real: list, sort, relink. */
  method SortSiblings(T: IdTable, c: Container, o: Order, ghost f: Forest, ghost p: Option<Id>) returns (c': Container?)
    requires T.Valid() && T.Known(c) && Some(c.id) == Head(KidsSorted(o, f))
    requires ListRep(T.cells, KidsSorted(o, f), p, Stale, None) && NoDup(f)
    modifies T`cells, T.table.Values
    ensures T.Valid() && T.Known(c') && IdOf(c') == Head(SortForest(o, f))
    ensures ListRep(T.cells, SortForest(o, f), p, Stale, None)
    ensures OnlyIn(old(T.cells), T.cells, Ids(f))
  {
    ghost var ts := Reverse(SortKids(o, f));
    ghost var us := MergeSort(o, ts);
    ghost var S := Tops(FromTrees(us));
    SortedTrees(o, f, us);
    ReversePermutes(SortKids(o, f));
    ListTrees(T.cells, KidsSorted(o, f), p, None);
    PermutedTreesRep(T.cells, SortKids(o, f), ts, p);
    PermutedTreesRep(T.cells, SortKids(o, f), us, p);
    ghost var H := T.cells;
    var lst := ToList(T, c, KidsSorted(o, f), p);
    lst := SortList(T, lst, o, ts, p);
    c' := FromList(T, lst, us, S);
    RelinkedRep(H, T.cells, us, 0, p, S);
    assert us[0..] == us;
  }

  /** container_sort_real */
  method ContainerSortReal(T: IdTable, c: Container?, o: Order, ghost f: Forest, ghost p: Option<Id>)
    returns (c': Container?)
    requires T.Valid() && T.Known(c) && IdOf(c) == Head(f)
    requires ListRep(T.cells, f, p, Stale, None) && NoDup(f)
    modifies T`cells, T.table.Values
    ensures T.Valid() && T.Known(c') && IdOf(c') == Head(SortForest(o, f))
    ensures ListRep(T.cells, SortForest(o, f), p, Stale, None)
    ensures OnlyIn(old(T.cells), T.cells, Ids(f))
    decreases f
  {
    if c == null {
      assert SortForest(o, Nil) == Nil;
      return null;
    }
    var cur: Container? := c;
    ghost var done, todo := Nil, f;
    while cur != null
      invariant T.Valid() && T.Known(cur) && IdOf(cur) == Head(todo)
      invariant SortingKids(T.cells, o, f, p, done, todo)
      invariant OnlyIn(old(T.cells), T.cells, Ids(f))
      decreases todo
    {
      ghost var H := T.cells;
      ghost var Cons(t, k, r) := todo;
      KidSmaller(f, done, todo);
      if T.Child(cur) != null {
        var kid := ContainerSortReal(T, T.Child(cur), o, k, Some(t.id));
        ghost var H1 := T.cells;
        T.SetChild(cur, kid);
        KidSorted(H, H1, T.cells, o, f, p, done, todo);
      } else {
        assert SortForest(o, Nil) == Nil;
        assert T.cells == T.cells[t.id := T.cells[t.id].(child := None)];
        KidSorted(H, H, H, o, f, p, done, todo);
      }
      NextKept(T.cells, o, f, p, done, t, k, r);
      cur := T.Next(cur);
      done, todo := Append(done, Single(t, k)), r;
    }
    AppendNil(done);
    c' := SortSiblings(T, c, o, f, p);
  }

  /** mu_container_sort; afterwards the cached ends are out of date. */
  method SortContainers(T: IdTable, c: Container?, o: Order, ghost f: Forest) returns (c': Container?)
    requires T.Valid() && T.Known(c) && IdOf(c) == Head(f)
    requires ListRep(T.cells, f, None, Stale, None) && NoDup(f)
    modifies T`cells, T.table.Values
    ensures T.Valid() && T.Known(c') && IdOf(c') == Head(SortForest(o, f))
    ensures ListRep(T.cells, SortForest(o, f), None, Stale, None)
  {
    c' := ContainerSortReal(T, c, o, f, None);
  }
}
