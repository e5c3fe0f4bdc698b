/** Sorting of the sibling lists, at every depth, by leftmost message
    (mu-container.c). */
module Sort {
  import opened Options
  import opened Forests
  import opened Prune

  /** One member of a sibling list. */
  datatype Tree = Tree(top: Label, kids: Forest)

  ghost function Trees(f: Forest): seq<Tree> {
    match f
    case Nil => []
    case Cons(t, k, r) => [Tree(t, k)] + Trees(r)
  }

  ghost function FromTrees(ts: seq<Tree>): Forest {
    if ts == [] then Nil else Cons(ts[0].top, ts[0].kids, FromTrees(ts[1..]))
  }

  /** How two messages compare on the sort field: negative, zero or positive. */
  datatype Order = Order(cmp: (Msg, Msg) -> int, revert: bool)

  /** `cmp` is a total preorder. */
  ghost predicate TotalPreorder(cmp: (Msg, Msg) -> int) {
    (forall a, b :: cmp(a, b) <= 0 || cmp(b, a) <= 0)
    && (forall a, b :: cmp(a, b) > 0 ==> cmp(b, a) <= 0)
    && (forall a, b, c :: cmp(a, b) <= 0 && cmp(b, c) <= 0 ==> cmp(a, c) <= 0)
  }

  /** The container whose message stands for the tree: the first one with a
      message on the way down the first children, or where that way ends. */
  ghost function Leftmost(t: Label, k: Forest): Label
    decreases k
  {
    if t.msg.None? && k.Cons? then Leftmost(k.top, k.kids) else t
  }

  ghost function Key(t: Tree): Label {
    Leftmost(t.top, t.kids)
  }

  ghost function CompareMsgs(o: Order, a: Msg, b: Msg): int {
    if o.revert then o.cmp(b, a) else o.cmp(a, b)
  }

  ghost function CompareLabels(o: Order, a: Label, b: Label): int {
    if a.id == b.id then 0
    else if a.msg.None? then 1
    else if b.msg.None? then -1
    else CompareMsgs(o, a.msg.value, b.msg.value)
  }

  ghost function Compare(o: Order, a: Tree, b: Tree): int {
    CompareLabels(o, Key(a), Key(b))
  }

  ghost function Merge(o: Order, xs: seq<Tree>, ys: seq<Tree>): seq<Tree>
    decreases |xs| + |ys|
  {
    if xs == [] then ys
    else if ys == [] then xs
    else if Compare(o, xs[0], ys[0]) <= 0 then [xs[0]] + Merge(o, xs[1..], ys)
    else [ys[0]] + Merge(o, xs, ys[1..])
  }

  ghost function MergeSort(o: Order, ts: seq<Tree>): seq<Tree>
    decreases |ts|
  {
    if |ts| < 2 then ts
    else Merge(o, MergeSort(o, ts[..|ts| / 2]), MergeSort(o, ts[|ts| / 2..]))
  }

  ghost function Reverse(ts: seq<Tree>): seq<Tree> {
    if ts == [] then [] else Reverse(ts[1..]) + [ts[0]]
  }

  ghost function SortKids(o: Order, f: Forest): seq<Tree>
    decreases f, 0
  {
    match f
    case Nil => []
    case Cons(t, k, r) => [Tree(t, SortForest(o, k))] + SortKids(o, r)
  }

  /** The list handed to the sort is built by prepending, hence reversed. */
  ghost function SortForest(o: Order, f: Forest): Forest
    decreases f, 1
  {
    FromTrees(MergeSort(o, Reverse(SortKids(o, f))))
  }

  // ---- the sort permutes ----

  lemma FrontApart<T>(xs: seq<T>)
    requires xs != []
    ensures multiset(xs) == multiset{xs[0]} + multiset(xs[1..])
  {
    assert xs == [xs[0]] + xs[1..];
  }

  lemma {:induction false} MergePermutes(o: Order, xs: seq<Tree>, ys: seq<Tree>)
    ensures multiset(Merge(o, xs, ys)) == multiset(xs) + multiset(ys)
    decreases |xs| + |ys|
  {
    if xs == [] || ys == [] {
    } else if Compare(o, xs[0], ys[0]) <= 0 {
      MergePermutes(o, xs[1..], ys);
      FrontApart(xs);
      FrontApart(Merge(o, xs, ys));
    } else {
      MergePermutes(o, xs, ys[1..]);
      FrontApart(ys);
      FrontApart(Merge(o, xs, ys));
    }
  }

  lemma {:induction false} SortPermutes(o: Order, ts: seq<Tree>)
    ensures multiset(MergeSort(o, ts)) == multiset(ts)
    decreases |ts|
  {
    if |ts| >= 2 {
      var a, b := ts[..|ts| / 2], ts[|ts| / 2..];
      SortPermutes(o, a);
      SortPermutes(o, b);
      MergePermutes(o, MergeSort(o, a), MergeSort(o, b));
      assert MergeSort(o, ts) == Merge(o, MergeSort(o, a), MergeSort(o, b));
      assert ts == a + b;
    }
  }

  lemma {:induction false} ReversePermutes(ts: seq<Tree>)
    ensures multiset(Reverse(ts)) == multiset(ts) && |Reverse(ts)| == |ts|
  {
    if ts != [] {
      ReversePermutes(ts[1..]);
      assert ts == [ts[0]] + ts[1..];
    }
  }

  // ---- a permuted sibling list is the same forest up to sibling order ----

  ghost predicate SameContents(f: Forest, g: Forest) {
    Ids(f) == Ids(g) && Labels(f) == Labels(g) && Messages(f) == Messages(g) && (NoDup(f) <==> NoDup(g))
  }

  ghost predicate SameRelations(f: Forest, g: Forest) {
    (forall p :: Edges(f, p) == Edges(g, p)) && (forall p :: Threads(f, p) == Threads(g, p))
  }

  ghost predicate SameThreads(f: Forest, g: Forest) {
    SameContents(f, g) && SameRelations(f, g)
  }

  lemma {:induction false} FromTreesConcat(xs: seq<Tree>, ys: seq<Tree>)
    ensures FromTrees(xs + ys) == Append(FromTrees(xs), FromTrees(ys))
    decreases |xs|
  {
    if xs == [] {
      assert xs + ys == ys;
    } else {
      assert (xs + ys)[1..] == xs[1..] + ys;
      FromTreesConcat(xs[1..], ys);
    }
  }

  lemma {:induction false} TreesOfFromTrees(ts: seq<Tree>)
    ensures Trees(FromTrees(ts)) == ts
    decreases |ts|
  {
    if ts != [] {
      TreesOfFromTrees(ts[1..]);
    }
  }

  lemma {:induction false} AppendSwaps(f: Forest, g: Forest)
    ensures SameThreads(Append(f, g), Append(g, f))
  {
    SwapContents(f, g);
    SwapRelations(f, g);
  }

  lemma {:induction false} SwapContents(f: Forest, g: Forest)
    ensures SameContents(Append(f, g), Append(g, f))
  {
    AppendContents(f, g);
    AppendContents(g, f);
    SetsCommute(Ids(f), Ids(g));
    SetsCommute(Labels(f), Labels(g));
    BagsCommute(Messages(f), Messages(g));
  }

  lemma SetsCommute<T>(a: set<T>, b: set<T>)
    ensures a + b == b + a && (a !! b <==> b !! a)
  {
  }

  lemma BagsCommute<T>(a: multiset<T>, b: multiset<T>)
    ensures a + b == b + a
  {
  }

  lemma {:induction false} SwapRelations(f: Forest, g: Forest)
    ensures SameRelations(Append(f, g), Append(g, f))
  {
    forall p
      ensures Edges(Append(f, g), p) == Edges(Append(g, f), p)
      ensures Threads(Append(f, g), p) == Threads(Append(g, f), p)
    {
      AppendRelations(f, g, p);
      AppendRelations(g, f, p);
    }
  }

  lemma {:induction false} AppendContents(f: Forest, g: Forest)
    ensures Ids(Append(f, g)) == Ids(f) + Ids(g)
    ensures Labels(Append(f, g)) == Labels(f) + Labels(g)
    ensures Messages(Append(f, g)) == Messages(f) + Messages(g)
    ensures NoDup(Append(f, g)) <==> NoDup(f) && NoDup(g) && Ids(f) !! Ids(g)
  {
    AppendIds(f, g);
    AppendLabels(f, g);
    AppendMessages(f, g);
    AppendNoDup(f, g);
  }

  lemma {:induction false} AppendSame(f: Forest, g: Forest, g': Forest)
    requires SameThreads(g, g')
    ensures SameThreads(Append(f, g), Append(f, g'))
  {
    AppendContents(f, g);
    AppendContents(f, g');
    forall p
      ensures Edges(Append(f, g), p) == Edges(Append(f, g'), p)
      ensures Threads(Append(f, g), p) == Threads(Append(f, g'), p)
    {
      AppendRelations(f, g, p);
      AppendRelations(f, g', p);
    }
  }

  lemma {:induction false} PermutedSame(xs: seq<Tree>, ys: seq<Tree>)
    requires multiset(xs) == multiset(ys)
    ensures SameThreads(FromTrees(xs), FromTrees(ys))
    decreases |xs|
  {
    if xs == [] {
      assert |multiset(ys)| == 0;
    } else {
      var t := xs[0];
      assert xs == [t] + xs[1..];
      assert t in multiset(ys);
      var i :| 0 <= i < |ys| && ys[i] == t;
      var a, b := ys[..i], ys[i + 1..];
      RemoveOne(xs, ys, i);
      PermutedSame(xs[1..], b + a);
      MoveToFront(a, t, b);
      FromTreesConcat([t], xs[1..]);
      FromTreesConcat([t], b + a);
      AppendSame(FromTrees([t]), FromTrees(xs[1..]), FromTrees(b + a));
      assert ys == a + ([t] + b);
    }
  }

  lemma {:induction false} RemoveOne(xs: seq<Tree>, ys: seq<Tree>, i: nat)
    requires multiset(xs) == multiset(ys) && xs != [] && i < |ys| && ys[i] == xs[0]
    ensures multiset(xs[1..]) == multiset(ys[i + 1..] + ys[..i])
  {
    WithoutFirst(xs);
    WithoutOne(ys, i);
  }

  lemma {:induction false} WithoutFirst(xs: seq<Tree>)
    requires xs != []
    ensures multiset(xs[1..]) == multiset(xs) - multiset{xs[0]}
  {
    assert xs == [xs[0]] + xs[1..];
  }

  lemma {:induction false} WithoutOne(ys: seq<Tree>, i: nat)
    requires i < |ys|
    ensures multiset(ys[i + 1..] + ys[..i]) == multiset(ys) - multiset{ys[i]}
  {
    assert ys == ys[..i] + ([ys[i]] + ys[i + 1..]);
    assert multiset(ys) == multiset(ys[..i]) + (multiset{ys[i]} + multiset(ys[i + 1..]));
  }

  lemma {:induction false} MoveToFront(a: seq<Tree>, t: Tree, b: seq<Tree>)
    ensures SameThreads(FromTrees([t] + (b + a)), FromTrees(a + ([t] + b)))
  {
    assert [t] + (b + a) == ([t] + b) + a;
    FromTreesConcat([t] + b, a);
    FromTreesConcat(a, [t] + b);
    AppendSwaps(FromTrees(a), FromTrees([t] + b));
  }

  lemma {:induction false} ConsSame(t: Label, k: Forest, k': Forest, r: Forest, r': Forest)
    requires SameThreads(k, k') && SameThreads(r, r')
    ensures SameThreads(Cons(t, k, r), Cons(t, k', r'))
  {
    ConsSameContents(t, k, k', r, r');
    ConsSameRelations(t, k, k', r, r');
  }

  lemma {:induction false} ConsSameContents(t: Label, k: Forest, k': Forest, r: Forest, r': Forest)
    requires SameContents(k, k') && SameContents(r, r')
    ensures SameContents(Cons(t, k, r), Cons(t, k', r'))
  {
  }

  lemma {:induction false} ConsSameRelations(t: Label, k: Forest, k': Forest, r: Forest, r': Forest)
    requires SameRelations(k, k') && SameRelations(r, r')
    ensures SameRelations(Cons(t, k, r), Cons(t, k', r'))
  {
    forall p ensures Threads(Cons(t, k, r), p) == Threads(Cons(t, k', r'), p) {
      var b := if t.msg.Some? then Some(t.id) else p;
      assert Threads(k, b) == Threads(k', b) && Threads(r, p) == Threads(r', p);
    }
  }

  /** Sorting keeps the containers, the parent relation, the thread relation
      and the messages; it only permutes sibling lists. */
  lemma {:induction false} SortKeepsForest(o: Order, f: Forest)
    ensures SameThreads(SortForest(o, f), f)
    decreases f, 1
  {
    var ts := SortKids(o, f);
    SortKidsSame(o, f);
    ReversePermutes(ts);
    SortPermutes(o, Reverse(ts));
    PermutedSame(MergeSort(o, Reverse(ts)), ts);
  }

  lemma {:induction false} SortKidsSame(o: Order, f: Forest)
    ensures SameThreads(FromTrees(SortKids(o, f)), f)
    decreases f, 0
  {
    if f.Cons? {
      SortKeepsForest(o, f.kids);
      SortKidsSame(o, f.rest);
      assert SortKids(o, f)[1..] == SortKids(o, f.rest);
      ConsSame(f.top, SortForest(o, f.kids), f.kids, FromTrees(SortKids(o, f.rest)), f.rest);
    }
  }

  // ---- the sort orders ----

  /** a may stand before b: by the sort field, shells last. */
  ghost predicate Before(o: Order, a: Tree, b: Tree) {
    Key(b).msg.None? || (Key(a).msg.Some? && CompareMsgs(o, Key(a).msg.value, Key(b).msg.value) <= 0)
  }

  ghost predicate Ordered(o: Order, ts: seq<Tree>) {
    forall i, j :: 0 <= i < j < |ts| ==> Before(o, ts[i], ts[j])
  }

  lemma {:induction false} CompareDecides(o: Order, a: Tree, b: Tree)
    requires TotalPreorder(o.cmp) && Key(a).id != Key(b).id
    ensures if Compare(o, a, b) <= 0 then Before(o, a, b) else Before(o, b, a)
  {
    if Key(a).msg.Some? && Key(b).msg.Some? {
      var x, y := Key(a).msg.value, Key(b).msg.value;
      assert o.cmp(x, y) <= 0 || o.cmp(y, x) <= 0;
      assert o.cmp(x, y) > 0 ==> o.cmp(y, x) <= 0;
      assert o.cmp(y, x) > 0 ==> o.cmp(x, y) <= 0;
    }
  }

  lemma {:induction false} BeforeTransitive(o: Order, a: Tree, b: Tree, c: Tree)
    requires TotalPreorder(o.cmp) && Before(o, a, b) && Before(o, b, c)
    ensures Before(o, a, c)
  {
    if Key(a).msg.Some? && Key(b).msg.Some? && Key(c).msg.Some? {
      var x, y, z := Key(a).msg.value, Key(b).msg.value, Key(c).msg.value;
      assert o.cmp(x, y) <= 0 && o.cmp(y, z) <= 0 ==> o.cmp(x, z) <= 0;
      assert o.cmp(z, y) <= 0 && o.cmp(y, x) <= 0 ==> o.cmp(z, x) <= 0;
    }
  }

  /** The list is free of two members that share a leftmost container. */
  ghost predicate DistinctKeys(ts: seq<Tree>) {
    forall i, j :: 0 <= i < j < |ts| ==> Key(ts[i]).id != Key(ts[j]).id
  }

  ghost predicate CrossKeys(xs: seq<Tree>, ys: seq<Tree>) {
    forall a, b :: a in xs && b in ys ==> Key(a).id != Key(b).id
  }

  lemma {:induction false} ConsOrdered(o: Order, t: Tree, ts: seq<Tree>)
    requires Ordered(o, ts) && forall u :: u in ts ==> Before(o, t, u)
    ensures Ordered(o, [t] + ts)
  {
  }

  lemma {:induction false} HeadFirst(o: Order, t: Tree, ts: seq<Tree>)
    requires TotalPreorder(o.cmp) && Ordered(o, ts) && ts != [] && Before(o, t, ts[0])
    ensures forall u :: u in ts ==> Before(o, t, u)
  {
    forall u | u in ts ensures Before(o, t, u) {
      var i :| 0 <= i < |ts| && ts[i] == u;
      if i > 0 { BeforeTransitive(o, t, ts[0], ts[i]); }
    }
  }

  lemma {:induction false} MergeOrdered(o: Order, xs: seq<Tree>, ys: seq<Tree>)
    requires TotalPreorder(o.cmp) && Ordered(o, xs) && Ordered(o, ys) && CrossKeys(xs, ys)
    ensures Ordered(o, Merge(o, xs, ys))
    decreases |xs| + |ys|, 0
  {
    if xs != [] && ys != [] {
      CompareDecides(o, xs[0], ys[0]);
      if Compare(o, xs[0], ys[0]) <= 0 {
        MergeStep(o, xs[0], xs[1..], ys, xs, ys);
      } else {
        MergeStep(o, ys[0], xs, ys[1..], xs, ys);
      }
    }
  }

  lemma {:induction false} MergeStep(o: Order, t: Tree, xs: seq<Tree>, ys: seq<Tree>, xs0: seq<Tree>, ys0: seq<Tree>)
    requires TotalPreorder(o.cmp) && Ordered(o, xs0) && Ordered(o, ys0) && CrossKeys(xs0, ys0)
    requires xs0 != [] && ys0 != []
    requires (t == xs0[0] && xs == xs0[1..] && ys == ys0 && Before(o, t, ys0[0]))
          || (t == ys0[0] && xs == xs0 && ys == ys0[1..] && Before(o, t, xs0[0]))
    ensures Ordered(o, [t] + Merge(o, xs, ys))
    decreases |xs| + |ys|, 1
  {
    MergeOrdered(o, xs, ys);
    MergePermutes(o, xs, ys);
    if t == xs0[0] && ys == ys0 && Before(o, t, ys0[0]) { HeadFirst(o, t, ys0); } else { HeadFirst(o, t, xs0); }
    forall u | u in Merge(o, xs, ys) ensures Before(o, t, u) {
      assert u in multiset(xs) + multiset(ys);
    }
    ConsOrdered(o, t, Merge(o, xs, ys));
  }

  lemma {:induction false} SortOrders(o: Order, ts: seq<Tree>)
    requires TotalPreorder(o.cmp) && DistinctKeys(ts)
    ensures Ordered(o, MergeSort(o, ts))
    decreases |ts|
  {
    if |ts| >= 2 {
      var a, b := ts[..|ts| / 2], ts[|ts| / 2..];
      SortOrders(o, a);
      SortOrders(o, b);
      HalvesCross(o, ts, |ts| / 2);
      MergeOrdered(o, MergeSort(o, a), MergeSort(o, b));
    }
  }

  lemma {:induction false} HalvesCross(o: Order, ts: seq<Tree>, n: nat)
    requires DistinctKeys(ts) && n <= |ts|
    ensures CrossKeys(MergeSort(o, ts[..n]), MergeSort(o, ts[n..]))
  {
    var a, b := ts[..n], ts[n..];
    SortPermutes(o, a);
    SortPermutes(o, b);
    forall x, y | x in MergeSort(o, a) && y in MergeSort(o, b) ensures Key(x).id != Key(y).id {
      assert x in multiset(a) && y in multiset(b);
      var i :| 0 <= i < |a| && a[i] == x;
      var j :| 0 <= j < |b| && b[j] == y;
      assert ts[i] == x && ts[n + j] == y;
    }
  }

  /** Every sibling list of the forest is ordered. */
  ghost predicate DeepOrdered(o: Order, f: Forest) {
    Ordered(o, Trees(f)) && KidsOrdered(o, f)
  }

  ghost predicate KidsOrdered(o: Order, f: Forest) {
    match f
    case Nil => true
    case Cons(t, k, r) => Ordered(o, Trees(k)) && KidsOrdered(o, k) && KidsOrdered(o, r)
  }

  lemma {:induction false} LeftmostInside(t: Label, k: Forest)
    ensures Leftmost(t, k).id in {t.id} + Ids(k)
    decreases k
  {
    if t.msg.None? && k.Cons? {
      LeftmostInside(k.top, k.kids);
    }
  }

  lemma {:induction false} KeyInside(f: Forest, i: nat)
    requires i < |Trees(f)|
    ensures Key(Trees(f)[i]).id in Ids(f)
    decreases f
  {
    if i == 0 {
      LeftmostInside(f.top, f.kids);
    } else {
      KeyInside(f.rest, i - 1);
    }
  }

  lemma {:induction false} TreesHaveDistinctKeys(f: Forest)
    requires NoDup(f)
    ensures DistinctKeys(Trees(f))
  {
    if f.Cons? {
      TreesHaveDistinctKeys(f.rest);
      LeftmostInside(f.top, f.kids);
      forall i | 0 <= i < |Trees(f.rest)| ensures Key(Trees(f.rest)[i]).id != Leftmost(f.top, f.kids).id {
        KeyInside(f.rest, i);
      }
    }
  }

  lemma {:induction false} KidsOrderedByTrees(o: Order, ts: seq<Tree>)
    ensures KidsOrdered(o, FromTrees(ts)) <==> forall t :: t in ts ==> DeepOrdered(o, t.kids)
    decreases |ts|
  {
    if ts != [] {
      KidsOrderedByTrees(o, ts[1..]);
      assert ts == [ts[0]] + ts[1..];
    }
  }

  /** The sort orders every sibling list, at every depth, by leftmost message
      with all shells last. */
  lemma {:induction false} SortForestOrders(o: Order, f: Forest)
    requires TotalPreorder(o.cmp) && NoDup(f)
    ensures DeepOrdered(o, SortForest(o, f))
    decreases f, 1
  {
    var ts := Reverse(SortKids(o, f));
    SortKidsSame(o, f);
    ReversePermutes(SortKids(o, f));
    PermutedSame(ts, SortKids(o, f));
    TreesHaveDistinctKeys(FromTrees(ts));
    TreesOfFromTrees(ts);
    SortOrders(o, ts);
    SortPermutes(o, ts);
    TreesOfFromTrees(MergeSort(o, ts));
    SortKidsDeep(o, f);
    KidsOrderedByTrees(o, MergeSort(o, ts));
    forall t | t in MergeSort(o, ts) ensures DeepOrdered(o, t.kids) {
      assert t in multiset(SortKids(o, f));
    }
  }

  lemma {:induction false} SortKidsDeep(o: Order, f: Forest)
    requires TotalPreorder(o.cmp) && NoDup(f)
    ensures forall t :: t in SortKids(o, f) ==> DeepOrdered(o, t.kids)
    decreases f, 0
  {
    if f.Cons? {
      SortForestOrders(o, f.kids);
      SortKidsDeep(o, f.rest);
    }
  }

  // ---- the comparator ----

  lemma {:induction false} PrunedLeftmost(t: Label, k: Forest)
    requires Pruned(k) && (t.msg.Some? || k.Cons?)
    ensures Leftmost(t, k).msg.Some?
    decreases k
  {
    if t.msg.None? {
      PrunedLeftmost(k.top, k.kids);
    }
  }

  /** On the non-shell members of one pruned sibling list the comparator is a
      total preorder. */
  lemma {:induction false} ComparatorIsTotalPreorder(o: Order, f: Forest, i: nat, j: nat, k: nat)
    requires TotalPreorder(o.cmp) && NoDup(f) && PrunedRoots(f)
    requires i < |Trees(f)| && j < |Trees(f)| && k < |Trees(f)|
    requires forall m :: m in [i, j, k] ==> Trees(f)[m].top.msg.Some? || Trees(f)[m].kids.Cons?
    ensures var a, b, c := Trees(f)[i], Trees(f)[j], Trees(f)[k];
            && Compare(o, a, a) == 0
            && (Compare(o, a, b) <= 0 || Compare(o, b, a) <= 0)
            && (Compare(o, a, b) <= 0 && Compare(o, b, c) <= 0 ==> Compare(o, a, c) <= 0)
  {
    var ts := Trees(f);
    assert i in [i, j, k] && j in [i, j, k] && k in [i, j, k];
    TreesHaveDistinctKeys(f);
    NonShellKey(f, i);
    NonShellKey(f, j);
    NonShellKey(f, k);
    MessageKeysPreorder(o, Key(ts[i]).msg.value, Key(ts[j]).msg.value, Key(ts[k]).msg.value);
  }

  lemma {:induction false} MessageKeysPreorder(o: Order, x: Msg, y: Msg, z: Msg)
    requires TotalPreorder(o.cmp)
    ensures CompareMsgs(o, x, x) <= 0
    ensures CompareMsgs(o, x, y) <= 0 || CompareMsgs(o, y, x) <= 0
    ensures CompareMsgs(o, x, y) <= 0 && CompareMsgs(o, y, z) <= 0 ==> CompareMsgs(o, x, z) <= 0
  {
    assert o.cmp(x, x) <= 0 || o.cmp(x, x) <= 0;
    assert o.cmp(x, y) <= 0 || o.cmp(y, x) <= 0;
    assert o.cmp(x, y) <= 0 && o.cmp(y, z) <= 0 ==> o.cmp(x, z) <= 0;
    assert o.cmp(z, y) <= 0 && o.cmp(y, x) <= 0 ==> o.cmp(z, x) <= 0;
  }

  lemma {:induction false} NonShellKey(f: Forest, i: nat)
    requires PrunedRoots(f) && i < |Trees(f)|
    requires Trees(f)[i].top.msg.Some? || Trees(f)[i].kids.Cons?
    ensures Key(Trees(f)[i]).msg.Some?
    decreases f
  {
    if i == 0 {
      PrunedLeftmost(f.top, f.kids);
    } else {
      NonShellKey(f.rest, i - 1);
    }
  }

  ghost predicate IsShell(t: Label, k: Forest) {
    t.msg.None? && k.Nil?
  }

  ghost predicate AtMostOneShell(ts: seq<Tree>) {
    forall i, j :: 0 <= i < j < |ts| ==> !(IsShell(ts[i].top, ts[i].kids) && IsShell(ts[j].top, ts[j].kids))
  }

  /** The comparator is reflexive, total and transitive on the members of ts. */
  ghost predicate PreorderOn(o: Order, ts: seq<Tree>) {
    (forall a :: a in ts ==> Compare(o, a, a) <= 0)
    && (forall a, b :: a in ts && b in ts ==> Compare(o, a, b) <= 0 || Compare(o, b, a) <= 0)
    && (forall a, b, c :: a in ts && b in ts && c in ts && Compare(o, a, b) <= 0 && Compare(o, b, c) <= 0 ==>
          Compare(o, a, c) <= 0)
  }

  /** With one shell at most, it compares greater than every message. */
  lemma {:induction false} OneShellIsFine(o: Order, f: Forest, i: nat, j: nat, k: nat)
    requires TotalPreorder(o.cmp) && NoDup(f) && PrunedRoots(f) && AtMostOneShell(Trees(f))
    requires i < |Trees(f)| && j < |Trees(f)| && k < |Trees(f)|
    ensures var a, b, c := Trees(f)[i], Trees(f)[j], Trees(f)[k];
            && Compare(o, a, a) == 0
            && (Compare(o, a, b) <= 0 || Compare(o, b, a) <= 0)
            && (Compare(o, a, b) <= 0 && Compare(o, b, c) <= 0 ==> Compare(o, a, c) <= 0)
  {
    var ts := Trees(f);
    TreesHaveDistinctKeys(f);
    if !IsShell(ts[i].top, ts[i].kids) { NonShellKey(f, i); }
    if !IsShell(ts[j].top, ts[j].kids) { NonShellKey(f, j); }
    if !IsShell(ts[k].top, ts[k].kids) { NonShellKey(f, k); }
    if !IsShell(ts[i].top, ts[i].kids) && !IsShell(ts[j].top, ts[j].kids) {
      MessageKeysPreorder(o, Key(ts[i]).msg.value, Key(ts[j]).msg.value, Key(ts[j]).msg.value);
      if !IsShell(ts[k].top, ts[k].kids) {
        MessageKeysPreorder(o, Key(ts[i]).msg.value, Key(ts[j]).msg.value, Key(ts[k]).msg.value);
      }
    }
  }

  /** On a list of a pruned forest the comparator is a total preorder if and
      only if the list holds at most one shell: two shells each compare greater
      than the other. */
  lemma {:induction false} PreorderIffOneShell(o: Order, f: Forest)
    requires TotalPreorder(o.cmp) && NoDup(f) && PrunedRoots(f)
    ensures PreorderOn(o, Trees(f)) <==> AtMostOneShell(Trees(f))
  {
    var ts := Trees(f);
    TreesHaveDistinctKeys(f);
    if AtMostOneShell(ts) {
      forall a, b, c | a in ts && b in ts && c in ts
        ensures Compare(o, a, a) <= 0 && (Compare(o, a, b) <= 0 || Compare(o, b, a) <= 0)
        ensures Compare(o, a, b) <= 0 && Compare(o, b, c) <= 0 ==> Compare(o, a, c) <= 0
      {
        var i :| 0 <= i < |ts| && ts[i] == a;
        var j :| 0 <= j < |ts| && ts[j] == b;
        var k :| 0 <= k < |ts| && ts[k] == c;
        OneShellIsFine(o, f, i, j, k);
      }
    } else {
      var i, j :| 0 <= i < j < |ts| && IsShell(ts[i].top, ts[i].kids) && IsShell(ts[j].top, ts[j].kids);
      assert ts[i] in ts && ts[j] in ts && Key(ts[i]).id != Key(ts[j]).id;
      assert Compare(o, ts[i], ts[j]) > 0 && Compare(o, ts[j], ts[i]) > 0;
    }
  }
}
