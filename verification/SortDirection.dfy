/** Which way the sorted threads run, said of the comparison function itself:
    by the first message of each thread as a reader meets it. */
module SortDirection {
  import opened Forests
  import opened Prune
  import opened Sort

  /** The messages in the order of the walk. */
  ghost function Walk(f: Forest): seq<Msg> {
    match f
    case Nil => []
    case Cons(t, k, r) => (if t.msg.Some? then [t.msg.value] else []) + Walk(k) + Walk(r)
  }

  /** Thread a may stand before thread b: a thread without messages comes last,
      and otherwise the first messages are in ascending order, or in descending
      order if that is asked for. */
  ghost predicate MayPrecede(o: Order, a: Tree, b: Tree) {
    var xs, ys := Walk(Single(a.top, a.kids)), Walk(Single(b.top, b.kids));
    ys == [] || (xs != [] && if o.revert then o.cmp(ys[0], xs[0]) <= 0 else o.cmp(xs[0], ys[0]) <= 0)
  }

  ghost predicate ListRuns(o: Order, f: Forest) {
    forall i, j :: 0 <= i < j < |Trees(f)| ==> MayPrecede(o, Trees(f)[i], Trees(f)[j])
  }

  /** The roots and every child list run that way. */
  ghost predicate ThreadsRun(o: Order, f: Forest) {
    ListRuns(o, f) && forall q :: q in Ids(f) ==> ListRuns(o, KidsOf(f, q))
  }

  lemma {:induction false} WalkOfSingle(t: Label, k: Forest)
    ensures Walk(Single(t, k)) == (if t.msg.Some? then [t.msg.value] else []) + Walk(k)
  {
    assert Walk(Nil) == [];
    assert Walk(k) + [] == Walk(k);
  }

  lemma {:induction false} WalkOfCons(f: Forest)
    requires f.Cons?
    ensures Walk(f) == Walk(Single(f.top, f.kids)) + Walk(f.rest)
  {
    WalkOfSingle(f.top, f.kids);
  }

  /** In a pruned list the message that the sort looks at is the first one. */
  lemma {:induction false} LeftmostIsFirst(t: Label, k: Forest)
    requires Pruned(k)
    ensures var xs := Walk(Single(t, k));
            if Leftmost(t, k).msg.Some? then xs != [] && Leftmost(t, k).msg.value == xs[0] else xs == []
    decreases k
  {
    WalkOfSingle(t, k);
    if t.msg.None? && k.Cons? {
      LeftmostIsFirst(k.top, k.kids);
      PrunedLeftmost(k.top, k.kids);
      WalkOfCons(k);
    } else if t.msg.None? {
      assert Walk(Nil) == [];
    }
  }

  lemma {:induction false} TreePruned(f: Forest, i: nat)
    requires PrunedRoots(f) && i < |Trees(f)|
    ensures Pruned(Trees(f)[i].kids)
    decreases f
  {
    if i > 0 { TreePruned(f.rest, i - 1); }
  }

  lemma {:induction false} OrderedRuns(o: Order, a: Tree, b: Tree)
    requires Pruned(a.kids) && Pruned(b.kids) && Before(o, a, b)
    ensures MayPrecede(o, a, b)
  {
    LeftmostIsFirst(a.top, a.kids);
    LeftmostIsFirst(b.top, b.kids);
  }

  lemma {:induction false} PrunedAreRoots(f: Forest)
    requires Pruned(f)
    ensures PrunedRoots(f)
  {
    if f.Cons? { PrunedAreRoots(f.rest); }
  }

  lemma {:induction false} OrderedListRuns(o: Order, f: Forest)
    requires PrunedRoots(f) && Ordered(o, Trees(f))
    ensures ListRuns(o, f)
  {
    forall i, j | 0 <= i < j < |Trees(f)| ensures MayPrecede(o, Trees(f)[i], Trees(f)[j]) {
      TreePruned(f, i);
      TreePruned(f, j);
      OrderedRuns(o, Trees(f)[i], Trees(f)[j]);
    }
  }

  lemma {:induction false} KidsRun(o: Order, f: Forest, q: Id)
    requires PrunedRoots(f) && KidsOrdered(o, f) && q in Ids(f)
    ensures ListRuns(o, KidsOf(f, q))
  {
    PrunedAreRoots(f.kids);
    if q == f.top.id {
      OrderedListRuns(o, f.kids);
    } else if q in Ids(f.kids) {
      KidsRun(o, f.kids, q);
    } else {
      KidsRun(o, f.rest, q);
    }
  }

  /** In the sorted forest the roots and every child list run in the direction
      asked for, by the first message of each thread. */
  lemma {:induction false} OrderedThreadsRun(o: Order, f: Forest)
    requires PrunedRoots(f) && DeepOrdered(o, f)
    ensures ThreadsRun(o, f)
  {
    OrderedListRuns(o, f);
    forall q | q in Ids(f) ensures ListRuns(o, KidsOf(f, q)) {
      KidsRun(o, f, q);
    }
  }

  // ---- ties ----

  ghost predicate TiesWith(o: Order, t: Tree, x: Msg) {
    var m := Key(t).msg;
    m.Some? && o.cmp(m.value, x) <= 0 && o.cmp(x, m.value) <= 0
  }

  ghost function TieClass(o: Order, x: Msg): iset<Tree> {
    iset t: Tree | TiesWith(o, t, x)
  }

  /** The members of c, in their order. */
  ghost function Only(c: iset<Tree>, ts: seq<Tree>): seq<Tree> {
    if ts == [] then [] else (if ts[0] in c then [ts[0]] else []) + Only(c, ts[1..])
  }

  /** The threads whose first message ties with x. */
  ghost function Ties(o: Order, ts: seq<Tree>, x: Msg): seq<Tree> {
    Only(TieClass(o, x), ts)
  }

  lemma OnlyFront(c: iset<Tree>, t: Tree, ts: seq<Tree>)
    ensures Only(c, [t] + ts) == (if t in c then [t] else []) + Only(c, ts)
  {
    assert ([t] + ts)[1..] == ts;
  }

  lemma Regrouped(a: seq<Tree>, b: seq<Tree>, c: seq<Tree>)
    ensures a + (b + c) == a + b + c
  {
  }

  lemma {:induction false} OnlyConcat(c: iset<Tree>, xs: seq<Tree>, ys: seq<Tree>)
    ensures Only(c, xs + ys) == Only(c, xs) + Only(c, ys)
    decreases |xs|
  {
    if xs == [] {
      assert xs + ys == ys;
    } else {
      var t, rest := xs[0], xs[1..];
      OnlyConcat(c, rest, ys);
      assert xs + ys == [t] + (rest + ys) && xs == [t] + rest;
      OnlyFront(c, t, rest + ys);
      OnlyFront(c, t, rest);
      Regrouped(if t in c then [t] else [], Only(c, rest), Only(c, ys));
    }
  }

  lemma {:induction false} OnlyNone(c: iset<Tree>, xs: seq<Tree>)
    requires forall t :: t in xs ==> t !in c
    ensures Only(c, xs) == []
    decreases |xs|
  {
    if xs != [] { OnlyNone(c, xs[1..]); }
  }

  ghost predicate MayTie(o: Order, a: Tree, t: Tree) {
    a == t || Before(o, a, t)
  }

  /** No member of c, and nothing that may stand before one, comes strictly
      after another member. */
  ghost predicate Tied(o: Order, c: iset<Tree>) {
    forall a, t, y {:trigger MayTie(o, a, t), Compare(o, a, y)} ::
      t in c && y in c && Key(y).id != Key(a).id && MayTie(o, a, t) ==> Compare(o, a, y) <= 0
  }

  lemma Through(o: Order, a: Msg, b: Msg, c: Msg)
    requires TotalPreorder(o.cmp)
    ensures o.cmp(a, b) <= 0 && o.cmp(b, c) <= 0 ==> o.cmp(a, c) <= 0
  {
  }

  lemma {:induction false} TiesAreTied(o: Order, x: Msg)
    requires TotalPreorder(o.cmp)
    ensures Tied(o, TieClass(o, x))
  {
    forall a, t, y | TiesWith(o, t, x) && TiesWith(o, y, x) && Key(y).id != Key(a).id && MayTie(o, a, t)
      ensures Compare(o, a, y) <= 0
    {
      var k, m, n := Key(a).msg.value, Key(t).msg.value, Key(y).msg.value;
      Through(o, m, x, n);
      Through(o, n, x, m);
      Through(o, k, m, n);
      Through(o, n, m, k);
    }
  }

  /** Nothing in a list that starts strictly after a member of c is one. */
  lemma {:induction false} NoneLater(o: Order, c: iset<Tree>, xs: seq<Tree>, y: Tree)
    requires Tied(o, c) && Ordered(o, xs) && xs != [] && y in c && Key(y).id != Key(xs[0]).id
    requires Compare(o, xs[0], y) > 0
    ensures Only(c, xs) == []
  {
    forall t | t in xs ensures t !in c {
      var i :| 0 <= i < |xs| && xs[i] == t;
      assert MayTie(o, xs[0], t);
    }
    OnlyNone(c, xs);
  }

  lemma {:induction false} TakeLeft(c: iset<Tree>, t: Tree, xs: seq<Tree>, ys: seq<Tree>, zs: seq<Tree>)
    requires Only(c, zs) == Only(c, xs) + Only(c, ys)
    ensures Only(c, [t] + zs) == Only(c, [t] + xs) + Only(c, ys)
  {
    OnlyFront(c, t, zs);
    OnlyFront(c, t, xs);
  }

  lemma {:induction false} TakeRight(c: iset<Tree>, t: Tree, xs: seq<Tree>, ys: seq<Tree>, zs: seq<Tree>)
    requires Only(c, zs) == Only(c, xs) + Only(c, ys)
    requires t in c ==> Only(c, xs) == []
    ensures Only(c, [t] + zs) == Only(c, xs) + Only(c, [t] + ys)
  {
    OnlyFront(c, t, zs);
    OnlyFront(c, t, ys);
  }

  lemma {:induction false} MergeKeepsOnly(o: Order, c: iset<Tree>, xs: seq<Tree>, ys: seq<Tree>)
    requires Tied(o, c) && Ordered(o, xs) && CrossKeys(xs, ys)
    ensures Only(c, Merge(o, xs, ys)) == Only(c, xs) + Only(c, ys)
    decreases |xs| + |ys|
  {
    if xs == [] {
    } else if ys == [] {
    } else if Compare(o, xs[0], ys[0]) <= 0 {
      MergeKeepsOnly(o, c, xs[1..], ys);
      TakeLeft(c, xs[0], xs[1..], ys, Merge(o, xs[1..], ys));
      assert xs == [xs[0]] + xs[1..];
    } else {
      MergeKeepsOnly(o, c, xs, ys[1..]);
      if ys[0] in c { NoneLater(o, c, xs, ys[0]); }
      TakeRight(c, ys[0], xs, ys[1..], Merge(o, xs, ys[1..]));
      assert ys == [ys[0]] + ys[1..];
    }
  }

  lemma {:induction false} HalvesReady(o: Order, ts: seq<Tree>, n: nat)
    requires TotalPreorder(o.cmp) && DistinctKeys(ts) && n <= |ts|
    ensures DistinctKeys(ts[..n]) && DistinctKeys(ts[n..])
    ensures Ordered(o, MergeSort(o, ts[..n])) && CrossKeys(MergeSort(o, ts[..n]), MergeSort(o, ts[n..]))
  {
    SortOrders(o, ts[..n]);
    HalvesCross(o, ts, n);
  }

  lemma {:induction false} MergedHalves(o: Order, c: iset<Tree>, a: seq<Tree>, b: seq<Tree>)
    requires Tied(o, c) && Ordered(o, MergeSort(o, a)) && CrossKeys(MergeSort(o, a), MergeSort(o, b))
    requires Only(c, MergeSort(o, a)) == Only(c, a) && Only(c, MergeSort(o, b)) == Only(c, b)
    ensures Only(c, Merge(o, MergeSort(o, a), MergeSort(o, b))) == Only(c, a + b)
  {
    MergeKeepsOnly(o, c, MergeSort(o, a), MergeSort(o, b));
    OnlyConcat(c, a, b);
  }

  lemma SortSplits(o: Order, ts: seq<Tree>)
    requires |ts| >= 2
    ensures var n := |ts| / 2; MergeSort(o, ts) == Merge(o, MergeSort(o, ts[..n]), MergeSort(o, ts[n..]))
  {
  }

  lemma {:induction false} SortKeepsOnly(o: Order, c: iset<Tree>, ts: seq<Tree>)
    requires TotalPreorder(o.cmp) && Tied(o, c) && DistinctKeys(ts)
    ensures Only(c, MergeSort(o, ts)) == Only(c, ts)
    decreases |ts|
  {
    if |ts| >= 2 {
      var n := |ts| / 2;
      HalvesReady(o, ts, n);
      var xs, ys := ts[..n], ts[n..];
      assert xs + ys == ts;
      SortKeepsOnly(o, c, xs);
      SortKeepsOnly(o, c, ys);
      MergedHalves(o, c, xs, ys);
      SortSplits(o, ts);
    }
  }

  lemma {:induction false} OnlyReversed(c: iset<Tree>, ts: seq<Tree>)
    ensures Only(c, Reverse(ts)) == Reverse(Only(c, ts))
    decreases |ts|
  {
    if ts != [] {
      OnlyReversed(c, ts[1..]);
      OnlyConcat(c, Reverse(ts[1..]), [ts[0]]);
      assert Only(c, [ts[0]]) == if ts[0] in c then [ts[0]] else [] by { assert Only(c, []) == []; }
      var rest := Only(c, ts[1..]);
      if ts[0] in c { assert ([ts[0]] + rest)[1..] == rest; } else { assert [] + rest == rest; }
      assert Reverse(rest) + [] == Reverse(rest);
    }
  }

  lemma {:induction false} ReversedEverywhere(ts: seq<Tree>)
    ensures |Reverse(ts)| == |ts| && forall k :: 0 <= k < |ts| ==> Reverse(ts)[k] == ts[|ts| - 1 - k]
    decreases |ts|
  {
    if ts != [] { ReversedEverywhere(ts[1..]); }
  }

  lemma {:induction false} SortedOnly(o: Order, c: iset<Tree>, f: Forest)
    requires TotalPreorder(o.cmp) && Tied(o, c) && NoDup(f)
    ensures Only(c, Trees(SortForest(o, f))) == Only(c, Reverse(SortKids(o, f)))
  {
    var ts := Reverse(SortKids(o, f));
    SortKidsSame(o, f);
    ReversePermutes(SortKids(o, f));
    PermutedSame(ts, SortKids(o, f));
    TreesHaveDistinctKeys(FromTrees(ts));
    TreesOfFromTrees(ts);
    TreesOfFromTrees(MergeSort(o, ts));
    SortKeepsOnly(o, c, ts);
  }

  /** Threads that tie come out in the opposite order: the list to sort is built
      from its end, and the sort is stable. */
  lemma {:induction false} TiesComeReversed(o: Order, f: Forest, x: Msg)
    requires TotalPreorder(o.cmp) && NoDup(f)
    ensures var before, after := Ties(o, SortKids(o, f), x), Ties(o, Trees(SortForest(o, f)), x);
            |after| == |before| && forall k :: 0 <= k < |after| ==> after[k] == before[|before| - 1 - k]
  {
    var c := TieClass(o, x);
    TiesAreTied(o, x);
    SortedOnly(o, c, f);
    OnlyReversed(c, SortKids(o, f));
    ReversedEverywhere(Only(c, SortKids(o, f)));
  }
}
