/** Positions of the containers of a sorted forest, the thread-info table made
    from them, and the bound that keeps every message key within its width. */
module ThreadPaths {
  import opened Options
  import opened Forests
  import opened Prune
  import opened Sort
  import opened ThreadKeys

  datatype Prop = Root | FirstChild | EmptyParent | HasChild | IsDup

  datatype ThreadInfo = ThreadInfo(threadpath: string, level: nat, prop: set<Prop>)

  /** What the traversal reports for one container: its label, its 0-based
      sibling indices from the root down, and its properties. */
  datatype Entry = Entry(node: Label, pos: seq<nat>, prop: set<Prop>)

  function Props(t: Label, k: Forest, parent: Option<Label>, i: nat): set<Prop> {
    (if parent.None? then {Root} else {})
    + (if parent.Some? && i == 0 then {FirstChild} else {})
    + (if parent.Some? && parent.value.msg.None? then {EmptyParent} else {})
    + (if Dup in t.flags then {IsDup} else {})
    + (if k.Cons? then {HasChild} else {})
  }

  /** The preorder walk of a sibling list whose first member has index i. */
  ghost function Entries(f: Forest, pfx: seq<nat>, i: nat, parent: Option<Label>): seq<Entry> {
    match f
    case Nil => []
    case Cons(t, k, r) =>
      [Entry(t, pfx + [i], Props(t, k, parent, i))]
      + Entries(k, pfx + [i], 0, Some(t))
      + Entries(r, pfx, i + 1, parent)
  }

  ghost function Info(e: Entry, d: nat): ThreadInfo
    requires e.pos != []
  {
    ThreadInfo(PathString(e.pos, d), |e.pos| - 1, e.prop)
  }

  /** Later entries replace earlier ones with the same docid. */
  ghost function Tabulate(h: map<nat, ThreadInfo>, es: seq<Entry>, d: nat): map<nat, ThreadInfo>
    requires forall e :: e in es ==> e.pos != []
    decreases |es|
  {
    if es == [] then h
    else Tabulate(h[es[0].node.docid := Info(es[0], d)], es[1..], d)
  }

  // ---- positions ----

  ghost predicate Under(pfx: seq<nat>, i: nat, pos: seq<nat>) {
    |pos| > |pfx| && pfx <= pos && pos[|pfx|] >= i
  }

  lemma {:induction false} EntriesUnder(f: Forest, pfx: seq<nat>, i: nat, parent: Option<Label>)
    ensures forall e :: e in Entries(f, pfx, i, parent) ==> Under(pfx, i, e.pos)
    decreases f
  {
    if f.Cons? {
      EntriesUnder(f.kids, pfx + [i], 0, Some(f.top));
      EntriesUnder(f.rest, pfx, i + 1, parent);
      forall e | e in Entries(f.kids, pfx + [i], 0, Some(f.top)) ensures Under(pfx, i, e.pos) {
        assert Under(pfx + [i], 0, e.pos);
        assert e.pos[|pfx|] == (pfx + [i])[|pfx|];
      }
    }
  }

  lemma {:induction false} SplitPosLess(c: seq<nat>, a: seq<nat>, b: seq<nat>)
    ensures PosLess(c + a, c + b) <==> PosLess(a, b)
    decreases |c|
  {
    if c == [] {
      assert c + a == a && c + b == b;
    } else {
      assert (c + a)[1..] == c[1..] + a && (c + b)[1..] == c[1..] + b;
      SplitPosLess(c[1..], a, b);
    }
  }

  lemma {:induction false} PosLessAt(pfx: seq<nat>, a: seq<nat>, b: seq<nat>)
    requires pfx <= a && pfx <= b && |b| > |pfx|
    requires |a| == |pfx| || a[|pfx|] < b[|pfx|]
    ensures PosLess(a, b)
  {
    var a', b' := a[|pfx|..], b[|pfx|..];
    assert a == pfx + a' && b == pfx + b';
    SplitPosLess(pfx, a', b');
  }

  ghost predicate Increasing(es: seq<Entry>) {
    forall x, y :: 0 <= x < y < |es| ==> PosLess(es[x].pos, es[y].pos)
  }

  lemma {:induction false} IncreasingConcat(xs: seq<Entry>, ys: seq<Entry>)
    requires Increasing(xs) && Increasing(ys)
    requires forall a, b :: a in xs && b in ys ==> PosLess(a.pos, b.pos)
    ensures Increasing(xs + ys)
  {
  }

  /** The entries of one tree. */
  ghost function TreeEntries(t: Label, k: Forest, pfx: seq<nat>, i: nat, parent: Option<Label>): seq<Entry> {
    [Entry(t, pfx + [i], Props(t, k, parent, i))] + Entries(k, pfx + [i], 0, Some(t))
  }

  lemma {:induction false} TreeEntriesPrefix(t: Label, k: Forest, pfx: seq<nat>, i: nat, parent: Option<Label>)
    ensures forall e :: e in TreeEntries(t, k, pfx, i, parent) ==> pfx + [i] <= e.pos
    ensures forall e :: e in TreeEntries(t, k, pfx, i, parent) ==> pfx <= e.pos && |e.pos| > |pfx| && e.pos[|pfx|] == i
  {
    EntriesUnder(k, pfx + [i], 0, Some(t));
    forall e | e in TreeEntries(t, k, pfx, i, parent)
      ensures pfx + [i] <= e.pos && pfx <= e.pos && |e.pos| > |pfx| && e.pos[|pfx|] == i
    {
      assert e.pos == pfx + [i] || Under(pfx + [i], 0, e.pos);
      assert pfx + [i] <= e.pos;
      assert e.pos[|pfx|] == (pfx + [i])[|pfx|];
    }
  }

  lemma {:induction false} TreeIncreases(t: Label, k: Forest, pfx: seq<nat>, i: nat, parent: Option<Label>)
    requires Increasing(Entries(k, pfx + [i], 0, Some(t)))
    ensures Increasing(TreeEntries(t, k, pfx, i, parent))
  {
    var first := Entry(t, pfx + [i], Props(t, k, parent, i));
    EntriesUnder(k, pfx + [i], 0, Some(t));
    forall b | b in Entries(k, pfx + [i], 0, Some(t)) ensures PosLess(first.pos, b.pos) {
      PosLessAt(pfx + [i], first.pos, b.pos);
    }
    IncreasingConcat([first], Entries(k, pfx + [i], 0, Some(t)));
  }

  /** The walk reports positions in strictly increasing order. */
  lemma {:induction false} EntriesIncrease(f: Forest, pfx: seq<nat>, i: nat, parent: Option<Label>)
    ensures Increasing(Entries(f, pfx, i, parent))
    decreases f
  {
    if f.Cons? {
      var ts, rs := TreeEntries(f.top, f.kids, pfx, i, parent), Entries(f.rest, pfx, i + 1, parent);
      EntriesIncrease(f.kids, pfx + [i], 0, Some(f.top));
      EntriesIncrease(f.rest, pfx, i + 1, parent);
      TreeIncreases(f.top, f.kids, pfx, i, parent);
      TreeEntriesPrefix(f.top, f.kids, pfx, i, parent);
      EntriesUnder(f.rest, pfx, i + 1, parent);
      forall a, b | a in ts && b in rs ensures PosLess(a.pos, b.pos) {
        assert Under(pfx, i + 1, b.pos);
        PosLessAt(pfx, a.pos, b.pos);
      }
      IncreasingConcat(ts, rs);
      assert Entries(f, pfx, i, parent) == ts + rs;
    }
  }

  lemma {:induction false} EntriesIds(f: Forest, pfx: seq<nat>, i: nat, parent: Option<Label>)
    ensures forall e :: e in Entries(f, pfx, i, parent) ==> e.node in Labels(f) && e.node.id in Ids(f)
    ensures forall t :: t in Labels(f) ==> exists e :: e in Entries(f, pfx, i, parent) && e.node == t
    decreases f
  {
    if f.Cons? {
      EntriesIds(f.kids, pfx + [i], 0, Some(f.top));
      EntriesIds(f.rest, pfx, i + 1, parent);
      var ks, rs := Entries(f.kids, pfx + [i], 0, Some(f.top)), Entries(f.rest, pfx, i + 1, parent);
      var es := Entries(f, pfx, i, parent);
      forall t | t in Labels(f) ensures exists e :: e in es && e.node == t {
        if t == f.top {
          assert es[0].node == t && es[0] in es;
        } else if t in Labels(f.kids) {
          var e :| e in ks && e.node == t;
          assert e in es;
        } else {
          var e :| e in rs && e.node == t;
          assert e in es;
        }
      }
    }
  }

  lemma {:induction false} TreePrefixIsAncestor(t: Label, k: Forest, pfx: seq<nat>, i: nat, parent: Option<Label>,
                              a: Entry, b: Entry)
    requires t.id !in Ids(k)
    requires a == Entry(t, pfx + [i], Props(t, k, parent, i)) && b in TreeEntries(t, k, pfx, i, parent)
    ensures a.pos < b.pos <==> b.node.id in Ids(k)
  {
    EntriesUnder(k, pfx + [i], 0, Some(t));
    EntriesIds(k, pfx + [i], 0, Some(t));
    if b in Entries(k, pfx + [i], 0, Some(t)) {
      assert Under(pfx + [i], 0, b.pos);
    }
  }

  lemma {:induction false} KidNotAbove(t: Label, k: Forest, pfx: seq<nat>, i: nat, parent: Option<Label>, a: Entry)
    requires a in Entries(k, pfx + [i], 0, Some(t))
    ensures !(a.pos < pfx + [i])
  {
    EntriesUnder(k, pfx + [i], 0, Some(t));
    assert Under(pfx + [i], 0, a.pos);
  }

  lemma {:induction false} TreesNotNested(f: Forest, pfx: seq<nat>, i: nat, parent: Option<Label>, a: Entry, b: Entry)
    requires f.Cons? && a in TreeEntries(f.top, f.kids, pfx, i, parent) && b in Entries(f.rest, pfx, i + 1, parent)
    ensures !(a.pos <= b.pos) && !(b.pos <= a.pos)
  {
    TreeEntriesPrefix(f.top, f.kids, pfx, i, parent);
    EntriesUnder(f.rest, pfx, i + 1, parent);
    DifferentTrees(pfx, i, a.pos, b.pos);
  }

  /** A position starts with another exactly when the container is a
      descendant. */
  lemma {:induction false} PrefixIsAncestor(f: Forest, pfx: seq<nat>, i: nat, parent: Option<Label>, a: Entry, b: Entry)
    requires NoDup(f) && a in Entries(f, pfx, i, parent) && b in Entries(f, pfx, i, parent)
    ensures a.node.id in Ids(f)
    ensures a.pos < b.pos <==> b.node.id in Ids(KidsOf(f, a.node.id))
    decreases f
  {
    var rs := Entries(f.rest, pfx, i + 1, parent);
    assert Entries(f, pfx, i, parent) == TreeEntries(f.top, f.kids, pfx, i, parent) + rs;
    if a in rs && b in rs {
      EntriesIds(f.rest, pfx, i + 1, parent);
      PrefixIsAncestor(f.rest, pfx, i + 1, parent, a, b);
      KidsOfRest(f, a.node.id);
    } else if a in rs {
      CrossNotAncestor(f, pfx, i, parent, b, a);
    } else if b in rs {
      CrossNotAncestor(f, pfx, i, parent, a, b);
    } else {
      InnerPrefixIsAncestor(f, pfx, i, parent, a, b);
    }
  }

  lemma KidsOfRest(f: Forest, x: Id)
    requires NoDup(f) && f.Cons? && x in Ids(f.rest)
    ensures x in Ids(f) && KidsOf(f, x) == KidsOf(f.rest, x)
  {
  }

  lemma {:induction false} CrossNotAncestor(f: Forest, pfx: seq<nat>, i: nat, parent: Option<Label>, a: Entry, b: Entry)
    requires NoDup(f) && f.Cons?
    requires a in TreeEntries(f.top, f.kids, pfx, i, parent) && b in Entries(f.rest, pfx, i + 1, parent)
    ensures !(a.pos < b.pos) && !(b.pos < a.pos)
    ensures a.node.id in Ids(f) && b.node.id in Ids(f)
    ensures b.node.id !in Ids(KidsOf(f, a.node.id)) && a.node.id !in Ids(KidsOf(f, b.node.id))
  {
    TreesNotNested(f, pfx, i, parent, a, b);
    EntriesIds(f.rest, pfx, i + 1, parent);
    EntriesIds(f.kids, pfx + [i], 0, Some(f.top));
    KidsStayInTree(f, a.node.id, b.node.id);
  }

  lemma {:induction false} KidsStayInTree(f: Forest, x: Id, y: Id)
    requires NoDup(f) && f.Cons? && x in {f.top.id} + Ids(f.kids) && y in Ids(f.rest)
    ensures y !in Ids(KidsOf(f, x)) && x !in Ids(KidsOf(f, y))
  {
  }

  lemma {:induction false} InnerPrefixIsAncestor(f: Forest, pfx: seq<nat>, i: nat, parent: Option<Label>, a: Entry,
                              b: Entry)
    requires NoDup(f) && f.Cons?
    requires a in TreeEntries(f.top, f.kids, pfx, i, parent) && b in TreeEntries(f.top, f.kids, pfx, i, parent)
    ensures a.node.id in Ids(f)
    ensures a.pos < b.pos <==> b.node.id in Ids(KidsOf(f, a.node.id))
    decreases f, 0
  {
    var first := Entry(f.top, pfx + [i], Props(f.top, f.kids, parent, i));
    EntriesIds(f.kids, pfx + [i], 0, Some(f.top));
    if a == first {
      TreePrefixIsAncestor(f.top, f.kids, pfx, i, parent, a, b);
    } else if b == first {
      KidNotAbove(f.top, f.kids, pfx, i, parent, a);
    } else {
      PrefixIsAncestor(f.kids, pfx + [i], 0, Some(f.top), a, b);
    }
  }

  lemma {:induction false} DifferentTrees(pfx: seq<nat>, i: nat, a: seq<nat>, b: seq<nat>)
    requires pfx + [i] <= a && Under(pfx, i + 1, b)
    ensures !(a <= b) && !(b <= a)
  {
    assert a[|pfx|] == (pfx + [i])[|pfx|];
  }

  // ---- the bound ----

  lemma {:induction false} FertileTree(t: Label, k: Forest)
    requires Pruned(k) && (t.msg.Some? || k.Cons?)
    ensures |Messages(Single(t, k))| >= 1
    decreases k
  {
    if t.msg.None? {
      FertileTree(k.top, k.kids);
      assert Messages(k) == Messages(Single(k.top, k.kids)) + Messages(k.rest) by {
        assert Messages(Nil) == multiset{};
      }
    }
    assert Messages(Nil) == multiset{};
  }

  lemma {:induction false} MessagesOfCons(t: Label, k: Forest, r: Forest)
    requires Pruned(k) && (t.msg.Some? || k.Cons?)
    ensures |Messages(Cons(t, k, r))| >= 1 + |Messages(r)| && |Messages(Cons(t, k, r))| >= |Messages(k)|
  {
    FertileTree(t, k);
    assert Messages(Cons(t, k, r)) == Messages(Single(t, k)) + Messages(r) by { assert Messages(Nil) == multiset{}; }
  }

  ghost predicate Below(pos: seq<nat>, n: nat, from: nat) {
    forall j :: from <= j < |pos| ==> pos[j] < n
  }

  lemma {:induction false} PrunedPositionBounded(f: Forest, pfx: seq<nat>, i: nat, parent: Option<Label>, n: nat,
                              e: Entry)
    requires Pruned(f) && i + |Messages(f)| <= n && e in Entries(f, pfx, i, parent)
    ensures Below(e.pos, n, |pfx|)
    decreases f, 0
  {
    MessagesOfCons(f.top, f.kids, f.rest);
    assert Entries(f, pfx, i, parent)
        == TreeEntries(f.top, f.kids, pfx, i, parent) + Entries(f.rest, pfx, i + 1, parent);
    if e in Entries(f.rest, pfx, i + 1, parent) {
      PrunedPositionBounded(f.rest, pfx, i + 1, parent, n, e);
    } else {
      TreePositionBounded(f.top, f.kids, pfx, i, parent, n, e);
    }
  }

  lemma {:induction false} TreePositionBounded(t: Label, k: Forest, pfx: seq<nat>, i: nat, parent: Option<Label>,
                              n: nat, e: Entry)
    requires Pruned(k) && |Messages(k)| <= n && i < n && e in TreeEntries(t, k, pfx, i, parent)
    ensures Below(e.pos, n, |pfx|)
    decreases k, 1
  {
    TreeEntriesPrefix(t, k, pfx, i, parent);
    if e in Entries(k, pfx + [i], 0, Some(t)) {
      PrunedPositionBounded(k, pfx + [i], 0, Some(t), n, e);
    }
  }

  ghost predicate AllShells(f: Forest) {
    match f
    case Nil => true
    case Cons(t, k, r) => IsShell(t, k) && AllShells(r)
  }

  ghost predicate ShellsLast(f: Forest) {
    match f
    case Nil => true
    case Cons(t, k, r) => if IsShell(t, k) then AllShells(r) else ShellsLast(r)
  }

  lemma {:induction false} ShellsHoldNothing(f: Forest, i: nat)
    requires AllShells(f)
    ensures forall e :: e in Entries(f, [], i, None) ==> e.node.msg.None?
    decreases f
  {
    if f.Cons? {
      ShellsHoldNothing(f.rest, i + 1);
    }
  }

  /** In a pruned forest with its shells last, every segment of a message's
      position is below the number of messages. */
  lemma {:induction false} MessagePositionBounded(f: Forest, i: nat, n: nat, e: Entry)
    requires PrunedRoots(f) && ShellsLast(f) && i + |Messages(f)| <= n
    requires e in Entries(f, [], i, None) && e.node.msg.Some?
    ensures Below(e.pos, n, 0)
    decreases f
  {
    if IsShell(f.top, f.kids) {
      ShellsHoldNothing(f, i);
    } else {
      MessagesOfCons(f.top, f.kids, f.rest);
      if e in Entries(f.rest, [], i + 1, None) {
        MessagePositionBounded(f.rest, i + 1, n, e);
      } else {
        TreePositionBounded(f.top, f.kids, [], i, None, n, e);
      }
    }
  }

  // ---- a sorted pruned forest has the shape the bound needs ----

  ghost predicate RootOk(t: Tree) {
    Delete !in t.top.flags
    && (t.top.msg.Some? || t.kids.Nil? || t.kids.rest.Cons?)
    && (Splice in t.top.flags ==> t.top.msg.None? && t.kids.Nil?)
    && (t.top.msg.None? && t.kids.Nil? ==> Splice in t.top.flags)
    && Pruned(t.kids)
  }

  ghost predicate ChildOk(t: Tree) {
    Unflagged(t.top) && (t.top.msg.Some? || (t.kids.Cons? && t.kids.rest.Cons?)) && Pruned(t.kids)
  }

  lemma {:induction false} PrunedByTrees(ts: seq<Tree>)
    ensures Pruned(FromTrees(ts)) <==> forall t :: t in ts ==> ChildOk(t)
    ensures PrunedRoots(FromTrees(ts)) <==> forall t :: t in ts ==> RootOk(t)
    decreases |ts|
  {
    if ts != [] {
      PrunedByTrees(ts[1..]);
      assert forall t :: t in ts <==> t == ts[0] || t in ts[1..];
      assert Pruned(FromTrees(ts)) <==> ChildOk(ts[0]) && Pruned(FromTrees(ts[1..]));
      assert PrunedRoots(FromTrees(ts)) <==> RootOk(ts[0]) && PrunedRoots(FromTrees(ts[1..]));
    }
  }

  lemma {:induction false} LenOfTrees(f: Forest)
    ensures |Trees(f)| == Len(f)
    ensures f.Nil? <==> Len(f) == 0
    ensures f.Cons? && f.rest.Cons? <==> Len(f) >= 2
    decreases f
  {
    if f.Cons? { LenOfTrees(f.rest); }
  }

  lemma {:induction false} SortKeepsLen(o: Order, f: Forest)
    ensures Len(SortForest(o, f)) == Len(f)
  {
    var ts := SortKids(o, f);
    SortKidsLen(o, f);
    ReversePermutes(ts);
    SortPermutes(o, Reverse(ts));
    assert |multiset(MergeSort(o, Reverse(ts)))| == |MergeSort(o, Reverse(ts))|;
    assert |multiset(Reverse(ts))| == |ts|;
    TreesOfFromTrees(MergeSort(o, Reverse(ts)));
    LenOfTrees(SortForest(o, f));
  }

  lemma SortKidsLen(o: Order, f: Forest)
    ensures |SortKids(o, f)| == Len(f)
  {
  }

  lemma {:induction false} SortKeepsPruned(o: Order, f: Forest)
    ensures Pruned(f) ==> Pruned(SortForest(o, f))
    ensures PrunedRoots(f) ==> PrunedRoots(SortForest(o, f))
    decreases f, 1
  {
    var ts := SortKids(o, f);
    var us := MergeSort(o, Reverse(ts));
    SortKidsPruned(o, f);
    ReversePermutes(ts);
    SortPermutes(o, Reverse(ts));
    PrunedByTrees(us);
    PrunedByTrees(ts);
    assert forall t :: t in us <==> t in multiset(us);
    assert forall t :: t in ts <==> t in multiset(ts);
  }

  lemma {:induction false} SortKidsPruned(o: Order, f: Forest)
    ensures Pruned(f) ==> Pruned(FromTrees(SortKids(o, f)))
    ensures PrunedRoots(f) ==> PrunedRoots(FromTrees(SortKids(o, f)))
    decreases f, 0
  {
    if f.Cons? {
      SortKeepsPruned(o, f.kids);
      SortKidsPruned(o, f.rest);
      SortKeepsLen(o, f.kids);
      LenOfTrees(f.kids);
      LenOfTrees(SortForest(o, f.kids));
      assert SortKids(o, f)[1..] == SortKids(o, f.rest);
    }
  }

  lemma {:induction false} OrderedShellsLast(o: Order, f: Forest)
    requires PrunedRoots(f) && Ordered(o, Trees(f))
    ensures ShellsLast(f)
    decreases f
  {
    if f.Cons? {
      assert Trees(f)[0] == Tree(f.top, f.kids) && Trees(f)[1..] == Trees(f.rest);
      if IsShell(f.top, f.kids) {
        forall t | t in Trees(f.rest) ensures Key(t).msg.None? {
          var j :| 0 <= j < |Trees(f.rest)| && Trees(f.rest)[j] == t;
          assert Before(o, Trees(f)[0], Trees(f)[j + 1]);
        }
        KeylessAreShells(f.rest);
      } else {
        OrderedShellsLast(o, f.rest);
      }
    }
  }

  lemma {:induction false} KeylessAreShells(f: Forest)
    requires PrunedRoots(f) && forall t :: t in Trees(f) ==> Key(t).msg.None?
    ensures AllShells(f)
    decreases f
  {
    if f.Cons? {
      assert Trees(f)[0] == Tree(f.top, f.kids) && Trees(f)[0] in Trees(f);
      if !IsShell(f.top, f.kids) {
        PrunedLeftmost(f.top, f.kids);
      } else {
        forall t | t in Trees(f.rest) ensures Key(t).msg.None? { assert t in Trees(f); }
        KeylessAreShells(f.rest);
      }
    }
  }

  // ---- the table ----

  ghost predicate Located(es: seq<Entry>) {
    forall e :: e in es ==> e.pos != []
  }

  lemma {:induction false} TabulateSkips(h: map<nat, ThreadInfo>, es: seq<Entry>, d: nat, docid: nat)
    requires Located(es) && forall e :: e in es ==> e.node.docid != docid
    ensures docid in Tabulate(h, es, d) <==> docid in h
    ensures docid in h ==> Tabulate(h, es, d)[docid] == h[docid]
    decreases |es|
  {
    if es != [] {
      TabulateSkips(h[es[0].node.docid := Info(es[0], d)], es[1..], d, docid);
    }
  }

  /** An entry whose docid is its own is found again under that docid. */
  lemma {:induction false} TabulateFinds(h: map<nat, ThreadInfo>, es: seq<Entry>, d: nat, i: nat)
    requires Located(es) && i < |es|
    requires forall j :: 0 <= j < |es| && j != i ==> es[j].node.docid != es[i].node.docid
    ensures es[i].node.docid in Tabulate(h, es, d) && Tabulate(h, es, d)[es[i].node.docid] == Info(es[i], d)
    decreases |es|
  {
    var h' := h[es[0].node.docid := Info(es[0], d)];
    if i == 0 {
      TabulateSkips(h', es[1..], d, es[0].node.docid);
    } else {
      TabulateFinds(h', es[1..], d, i - 1);
    }
  }

  lemma {:induction false} TabulateKeys(h: map<nat, ThreadInfo>, es: seq<Entry>, d: nat)
    requires Located(es)
    ensures Tabulate(h, es, d).Keys == h.Keys + (set e | e in es :: e.node.docid)
    decreases |es|
  {
    if es != [] {
      TabulateKeys(h[es[0].node.docid := Info(es[0], d)], es[1..], d);
      assert es == [es[0]] + es[1..];
    }
  }

  lemma {:induction false} TabulateConcat(h: map<nat, ThreadInfo>, xs: seq<Entry>, ys: seq<Entry>, d: nat)
    requires Located(xs) && Located(ys)
    ensures Tabulate(h, xs + ys, d) == Tabulate(Tabulate(h, xs, d), ys, d)
    decreases |xs|
  {
    if xs == [] {
      assert xs + ys == ys;
    } else {
      assert (xs + ys)[1..] == xs[1..] + ys;
      TabulateConcat(h[xs[0].node.docid := Info(xs[0], d)], xs[1..], ys, d);
    }
  }
}
