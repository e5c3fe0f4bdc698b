/** Step 2: the parentless containers become one sibling list, in whatever
    order the id table enumerates its keys. */
module RootSet {
  import opened Options
  import opened Forests
  import opened ForestEdits

  /** (the sibling list built so far, the trees not yet listed). */
  ghost function Gather(f: Forest, order: seq<Id>): (r: (Forest, Forest))
    requires NoDup(f)
    ensures NoDup(r.0) && NoDup(r.1) && Ids(r.0) !! Ids(r.1) && Ids(f) == Ids(r.0) + Ids(r.1)
    decreases |order|
  {
    if order == [] then (Nil, f)
    else
      var n, x := |order| - 1, order[|order| - 1];
      var r := Gather(f, order[..n]);
      if x in Tops(r.1) then
        RemoveTopIds(r.1, x);
        AppendIds(r.0, TreeOf(r.1, x));
        AppendNoDup(r.0, TreeOf(r.1, x));
        (Append(r.0, TreeOf(r.1, x)), RemoveTop(r.1, x))
      else r
  }

  ghost predicate Enumerates(order: seq<Id>, ids: set<Id>) {
    (forall x :: x in order <==> x in ids)
    && (forall i, j :: 0 <= i < j < |order| ==> order[i] != order[j])
  }

  lemma {:induction false} GatherTops(f: Forest, order: seq<Id>)
    requires NoDup(f)
    ensures Tops(Gather(f, order).1) == Tops(f) - (set x | x in order)
    ensures Tops(Gather(f, order).0) == Tops(f) * (set x | x in order)
    decreases |order|
  {
    if order != [] {
      var n, x := |order| - 1, order[|order| - 1];
      assert order == order[..n] + [x];
      GatherTops(f, order[..n]);
      var r := Gather(f, order[..n]);
      if x in Tops(r.1) {
        RemoveTopTops(r.1, x);
        TopsInIds(r.1);
        AppendTops(r.0, TreeOf(r.1, x));
        assert Tops(TreeOf(r.1, x)) == {x} by { assert Tops(Nil) == {}; }
      }
    }
  }

  lemma {:induction false} GatherKeeps(f: Forest, order: seq<Id>)
    requires NoDup(f)
    ensures var r := Gather(f, order);
            Labels(f) == Labels(r.0) + Labels(r.1)
            && Messages(f) == Messages(r.0) + Messages(r.1)
    decreases |order|
  {
    if order != [] {
      var n, x := |order| - 1, order[|order| - 1];
      GatherKeeps(f, order[..n]);
      var r := Gather(f, order[..n]);
      if x in Tops(r.1) {
        RemoveTopLabels(r.1, x);
        RemoveTopMessages(r.1, x);
        AppendLabels(r.0, TreeOf(r.1, x));
        AppendMessages(r.0, TreeOf(r.1, x));
      }
    } else {
      assert Labels(Nil) == {} && Messages(Nil) == multiset{};
    }
  }

  lemma {:induction false} GatherRelations(f: Forest, order: seq<Id>)
    requires NoDup(f)
    ensures var r := Gather(f, order);
            Edges(f, None) == Edges(r.0, None) + Edges(r.1, None)
            && Threads(f, None) == Threads(r.0, None) + Threads(r.1, None)
    decreases |order|
  {
    if order != [] {
      var n, x := |order| - 1, order[|order| - 1];
      GatherRelations(f, order[..n]);
      var r := Gather(f, order[..n]);
      if x in Tops(r.1) {
        RemoveTopEdges(r.1, x, None);
        RemoveTopThreads(r.1, x, None);
        AppendRelations(r.0, TreeOf(r.1, x), None);
      }
    } else {
      assert Edges(Nil, None) == {} && Threads(Nil, None) == {};
    }
  }

  /** Whatever the enumeration order, the root list is the same forest up to
      the order of the roots. */
  lemma {:induction false} RootListKeepsForest(f: Forest, order: seq<Id>)
    requires NoDup(f) && Enumerates(order, Ids(f))
    ensures var g := Gather(f, order).0;
            NoDup(g) && Ids(g) == Ids(f) && Labels(g) == Labels(f) && Messages(g) == Messages(f)
            && Tops(g) == Tops(f)
            && Edges(g, None) == Edges(f, None) && Threads(g, None) == Threads(f, None)
  {
    GatherTops(f, order);
    GatherKeeps(f, order);
    GatherRelations(f, order);
    TopsInIds(f);
    var r := Gather(f, order);
    assert Tops(r.1) == {};
    NothingLeft(r.0, r.1);
  }

  lemma NothingLeft(f: Forest, g: Forest)
    requires Tops(g) == {}
    ensures Ids(f) + Ids(g) == Ids(f) && Labels(f) + Labels(g) == Labels(f) && Messages(f) + Messages(g) == Messages(f)
    ensures Edges(f, None) + Edges(g, None) == Edges(f, None) && Threads(f, None) + Threads(g, None) == Threads(f, None)
  {
    assert g == Nil;
  }
}
