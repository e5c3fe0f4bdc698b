/** Unsorted threads can come out of order: a match list on which they do. Each
    message answers one that is not in the list, so each of them leaves a shell
    behind, and the shells push the messages past the width of a segment. */
module UnsortedThreads {
  import opened Options
  import opened Forests
  import opened ForestEdits
  import opened ThreadBuild
  import opened RootSet
  import opened Prune
  import opened ThreadKeys
  import opened KeyOrder
  import opened ThreadPaths
  import opened Threading
  import opened ThreadOrder
  import opened RootOrder
  import opened MsgIter

  // ---- the match list ----

  function Name(i: nat): (s: string)
    ensures |s| == i
  {
    seq(i, _ => 'x')
  }

  function Sent(i: nat): Id {
    MsgId("m" + Name(i))
  }

  function Missing(i: nat): Id {
    MsgId("r" + Name(i))
  }

  /** The i-th message, which refers to a missing one of its own. */
  function Orphan(i: nat): Match {
    Match(i + 1, Msg(Name(i), Some("m" + Name(i)), ["r" + Name(i)]))
  }

  function Orphans(n: nat): (docs: seq<Match>)
    ensures |docs| == n && (forall i :: 0 <= i < n ==> docs[i] == Orphan(i)) && DistinctDocs(docs)
  {
    seq(n, i requires 0 <= i < n => Orphan(i))
  }

  lemma NamesDiffer(i: nat, j: nat)
    requires i != j
    ensures Sent(i) != Sent(j) && Missing(i) != Missing(j)
  {
    assert |"m" + Name(i)| != |"m" + Name(j)| && |"r" + Name(i)| != |"r" + Name(j)|;
  }

  lemma SentIsNotMissing(i: nat, j: nat)
    ensures Sent(i) != Missing(j)
  {
    assert ("m" + Name(i))[0] != ("r" + Name(j))[0];
  }

  // ---- step 1 ----

  /** Every root is empty and has one childless child, a message. */
  ghost predicate EmptyOverMessage(f: Forest) {
    match f
    case Nil => true
    case Cons(t, k, r) =>
      t.msg.None? && Unflagged(t) && k.Cons? && k.kids.Nil? && k.rest.Nil? && k.top.msg.Some? && Unflagged(k.top)
      && EmptyOverMessage(r)
  }

  ghost function OrphanIds(n: nat): set<Id> {
    (set i | 0 <= i < n :: Sent(i)) + (set i | 0 <= i < n :: Missing(i))
  }

  lemma {:induction false} NextIsNew(n: nat)
    ensures Sent(n) !in OrphanIds(n) && Missing(n) !in OrphanIds(n)
    ensures OrphanIds(n + 1) == OrphanIds(n) + {Sent(n), Missing(n)}
  {
    forall i | 0 <= i < n
      ensures Sent(n) != Sent(i) && Sent(n) != Missing(i) && Missing(n) != Sent(i) && Missing(n) != Missing(i)
    {
      NamesDiffer(n, i);
      SentIsNotMissing(n, i);
      SentIsNotMissing(i, n);
    }
    assert forall x :: x in OrphanIds(n + 1) ==> x in OrphanIds(n) + {Sent(n), Missing(n)};
  }

  ghost function MissingIds(n: nat): set<Id> {
    set i | 0 <= i < n :: Missing(i)
  }

  ghost predicate Built(f: Forest, n: nat) {
    EmptyOverMessage(f) && Len(f) == n && Ids(f) == OrphanIds(n) && Tops(f) == MissingIds(n)
  }

  lemma {:induction false} AppendPairs(f: Forest, g: Forest)
    ensures EmptyOverMessage(Append(f, g)) <==> EmptyOverMessage(f) && EmptyOverMessage(g)
    ensures Len(Append(f, g)) == Len(f) + Len(g)
  {
    if f.Cons? { AppendPairs(f.rest, g); }
  }

  lemma {:induction false} LastPart(f: Forest, g: Forest, x: Id)
    requires x !in Ids(f)
    ensures RemoveTop(Append(f, g), x) == Append(f, RemoveTop(g, x))
    ensures x in Ids(g) ==> x in Ids(Append(f, g)) && TreeOf(Append(f, g), x) == TreeOf(g, x)
    ensures x in Ids(g) ==> forall h :: Graft(Append(f, g), x, h) == Append(f, Graft(g, x, h))
  {
    AppendIds(f, g);
    if f.Cons? {
      LastPart(f.rest, g, x);
      AppendIds(f.rest, g);
    }
  }

  ghost function Pair(n: nat): Forest {
    Single(Label(Missing(n), None, 0, {}), Leaf(Label(Sent(n), Some(Orphan(n).msg), n + 1, {})))
  }

  /** Adding the n-th message hangs it under a new empty root. */
  lemma {:induction false} AddOrphan(f: Forest, n: nat)
    requires NoDup(f) && Ids(f) == OrphanIds(n)
    ensures AddMessage(f, Orphan(n)) == Append(f, Pair(n))
  {
    var m, x, r := Orphan(n), Sent(n), Missing(n);
    var l, e := Label(x, Some(m.msg), m.docid, {}), Label(r, None, 0, {});
    NextIsNew(n);
    SentIsNotMissing(n, n);
    AddLeafFacts(f, l);
    var g := Append(f, Leaf(l));
    assert Store(f, m) == g && OwnId(m.msg) == x;
    AddLeafFacts(g, e);
    var h := Append(g, Leaf(e));
    assert FoldRefs(g, None, m.msg.refs) == (h, Some(r)) by {
      assert m.msg.refs[1..] == [];
      assert EnsureId(g, r) == h;
      assert TryLink(h, None, r) == h;
      assert FoldRefs(h, Some(r), []) == (h, Some(r));
    }
    AppendAssoc(f, Leaf(l), Leaf(e));
    LinkOrphan(f, l, e);
  }

  lemma {:induction false} LinkOrphan(f: Forest, l: Label, e: Label)
    requires NoDup(f) && l.id !in Ids(f) && e.id !in Ids(f) && l.id != e.id
    requires NoDup(Append(f, Cons(l, Nil, Leaf(e))))
    ensures var h := Append(f, Cons(l, Nil, Leaf(e)));
            l.id in Ids(h) && e.id in Ids(h) && TryLink(h, Some(e.id), l.id) == Append(f, Single(e, Leaf(l)))
  {
    var both := Cons(l, Nil, Leaf(e));
    var h := Append(f, both);
    assert Ids(Nil) == {} && Tops(Nil) == {} && Ids(Leaf(e)) == {e.id} && Ids(both) == {l.id, e.id};
    AppendIds(f, both);
    AppendTops(f, both);
    assert l.id in Tops(both);
    LastPart(f, both, l.id);
    LastPart(f, Leaf(e), e.id);
    assert TreeOf(both, l.id) == Leaf(l) && RemoveTop(both, l.id) == Leaf(e);
    assert Ids(Leaf(l)) == {l.id};
    assert Graft(Leaf(e), e.id, Leaf(l)) == Single(e, Leaf(l)) by { assert Append(Nil, Leaf(l)) == Leaf(l); }
  }

  lemma {:induction false} PairFacts(n: nat)
    ensures EmptyOverMessage(Pair(n)) && Len(Pair(n)) == 1
    ensures Ids(Pair(n)) == {Sent(n), Missing(n)} && Tops(Pair(n)) == {Missing(n)}
    ensures MissingIds(n + 1) == MissingIds(n) + {Missing(n)}
  {
    assert EmptyOverMessage(Nil) && Len(Nil) == 0 && Ids(Nil) == {} && Tops(Nil) == {};
    assert Ids(Pair(n).kids) == {Sent(n)};
  }

  lemma {:induction false} OneMore(f: Forest, n: nat)
    requires NoDup(f) && Built(f, n)
    ensures Built(AddMessage(f, Orphan(n)), n + 1)
  {
    AddOrphan(f, n);
    NextIsNew(n);
    PairFacts(n);
    AppendPairs(f, Pair(n));
    AppendIds(f, Pair(n));
    AppendTops(f, Pair(n));
  }

  lemma {:induction false} BuildLast(n: nat)
    requires n > 0
    ensures Build(Orphans(n)) == AddMessage(Build(Orphans(n - 1)), Orphan(n - 1))
  {
    assert Orphans(n)[..n - 1] == Orphans(n - 1);
  }

  lemma {:induction false} BuildOrphans(n: nat)
    ensures Built(Build(Orphans(n)), n)
  {
    if n == 0 {
      assert Orphans(0) == [] && OrphanIds(0) == {};
    } else {
      BuildOrphans(n - 1);
      BuildLast(n);
      OneMore(Build(Orphans(n - 1)), n - 1);
    }
  }

  // ---- step 2 ----

  lemma {:induction false} GatherPairs(f: Forest, order: seq<Id>)
    requires NoDup(f) && EmptyOverMessage(f)
    ensures var r := Gather(f, order);
            EmptyOverMessage(r.0) && EmptyOverMessage(r.1) && Len(r.0) + Len(r.1) == Len(f)
    decreases |order|
  {
    if order != [] {
      var n, x := |order| - 1, order[|order| - 1];
      GatherPairs(f, order[..n]);
      var r := Gather(f, order[..n]);
      if x in Tops(r.1) {
        TakePair(r.1, x);
        AppendPairs(r.0, TreeOf(r.1, x));
      }
    }
  }

  lemma {:induction false} AllGathered(f: Forest, order: seq<Id>)
    requires NoDup(f) && Enumerates(order, Ids(f))
    ensures Gather(f, order).1 == Nil
  {
    GatherTops(f, order);
    TopsInIds(f);
    assert Tops(Gather(f, order).1) == {};
  }

  lemma {:induction false} TakePair(f: Forest, x: Id)
    requires NoDup(f) && EmptyOverMessage(f) && x in Tops(f)
    ensures x in Ids(f) && EmptyOverMessage(TreeOf(f, x)) && Len(TreeOf(f, x)) == 1
    ensures EmptyOverMessage(RemoveTop(f, x)) && Len(RemoveTop(f, x)) == Len(f) - 1
  {
    TreeOfTop(f, x);
    if x != f.top.id { TakePair(f.rest, x); }
  }

  // ---- step 4 ----

  /** Childless roots, s without a message and then the messages. */
  ghost predicate ShellsThenMessages(f: Forest, s: nat) {
    match f
    case Nil => true
    case Cons(t, k, r) =>
      k.Nil? && (if s > 0 then t.msg.None? && ShellsThenMessages(r, s - 1) else t.msg.Some? && ShellsThenMessages(r, 0))
  }

  lemma {:induction false} PrunePairs(f: Forest)
    requires EmptyOverMessage(f)
    ensures ShellsThenMessages(KeptRoots(Mark(f)), Len(f)) && Len(KeptRoots(Mark(f))) == Len(f)
    ensures ShellsThenMessages(Promoted(Mark(f)), 0) && Len(Promoted(Mark(f))) == Len(f)
  {
    if f.Cons? {
      PrunePairs(f.rest);
      var k := f.kids;
      assert Mark(k) == k && Collapse(k) == k by {
        assert Mark(Nil) == Nil && Collapse(Nil) == Nil;
        assert Kept(k) == k && Promoted(k) == Nil;
        AppendNil(k);
      }
      AppendLen(k, Promoted(Mark(f.rest)));
    }
  }

  lemma {:induction false} AppendLen(f: Forest, g: Forest)
    ensures Len(Append(f, g)) == Len(f) + Len(g)
    ensures forall s: nat :: s >= Len(f) && ShellsThenMessages(f, s) && ShellsThenMessages(g, s - Len(f)) ==>
              ShellsThenMessages(Append(f, g), s)
    ensures ShellsThenMessages(f, 0) && ShellsThenMessages(g, 0) ==> ShellsThenMessages(Append(f, g), 0)
  {
    if f.Cons? { AppendLen(f.rest, g); }
  }

  // ---- positions ----

  lemma {:induction false} FlatEntries(f: Forest, i: nat, s: nat, k: nat)
    requires ShellsThenMessages(f, s) && k < Len(f)
    ensures |Entries(f, [], i, None)| == Len(f)
    ensures Entries(f, [], i, None)[k].pos == [i + k]
    ensures k >= s ==> Entries(f, [], i, None)[k].node.msg.Some?
    decreases f
  {
    assert Entries(Nil, [] + [i], 0, Some(f.top)) == [] && Entries(Nil, [], i + 1, None) == [];
    if f.rest.Cons? {
      FlatEntries(f.rest, i + 1, if s > 0 then s - 1 else 0, if k > 0 then k - 1 else 0);
    }
  }

  lemma {:induction false} OneDigit(n: nat)
    requires 2 <= n <= 16
    ensures DigitNum(n) == 1
  {
    assert Pow16(0) == 1 && Pow16(1) == 16;
    assert DigitsFrom(n, 0) == DigitsFrom(n, 1) == 1;
  }

  lemma {:induction false} FlatMisorders(f: Forest, n: nat)
    requires 9 <= n <= 15 && ShellsThenMessages(f, n) && Len(f) == 2 * n
    ensures !WalkAscends(f, n)
  {
    FlatEntries(f, 0, n, 15);
    FlatEntries(f, 0, n, 16);
    OneDigit(n);
    NarrowKeysMisorder();
    assert AllEntries(f)[15].pos == [15] && AllEntries(f)[16].pos == [16];
  }

  lemma {:induction false} PrunedShape(f: Forest)
    requires EmptyOverMessage(f)
    ensures ShellsThenMessages(PruneForest(f), Len(f)) && Len(PruneForest(f)) == 2 * Len(f)
  {
    PrunePairs(f);
    AppendLen(KeptRoots(Mark(f)), Promoted(Mark(f)));
  }

  lemma {:induction false} GatheredShape(n: nat, order: seq<Id>)
    requires Enumerates(order, Ids(Build(Orphans(n))))
    ensures var g := Gather(Build(Orphans(n)), order).0; EmptyOverMessage(g) && Len(g) == n
  {
    var b := Build(Orphans(n));
    BuildOrphans(n);
    GatherPairs(b, order);
    AllGathered(b, order);
  }

  lemma {:induction false} OrphansMisorder(n: nat, order: seq<Id>)
    requires 9 <= n <= 15 && Enumerates(order, Ids(Build(Orphans(n))))
    ensures !WalkAscends(FinalForest(Orphans(n), order, None), n)
  {
    GatheredShape(n, order);
    PrunedShape(Gather(Build(Orphans(n)), order).0);
    FlatMisorders(FinalForest(Orphans(n), order, None), n);
  }

  /** Nine to fifteen messages that each answer a missing one: threaded without
      a sort field, they are not delivered in the order of the threads, however
      the hash table enumerates and although nothing is cut. */
  lemma {:induction false} UnsortedOutOfOrder(n: nat, maxnum: nat, order: seq<Id>)
    requires 9 <= n <= 15 && n <= maxnum && Enumerates(order, Ids(Build(Orphans(n))))
    ensures Take(Orphans(n), maxnum) == Orphans(n)
    ensures Delivered(Orphans(n), maxnum, order, None) != PreorderDocIds(FinalForest(Orphans(n), order, None))
  {
    OrphansMisorder(n, order);
    FinalHoldsDocs(Orphans(n), order, None);
    WalkAscendsIffRootsDo(FinalForest(Orphans(n), order, None), Orphans(n));
    ThreadedOrderIff(Orphans(n), maxnum, order, None);
  }

  // ---- a path that extends the path of a stranger ----

  /** A message that refers to none. */
  function Loner(n: nat): Match {
    Match(n + 1, Msg("p", Some("a"), []))
  }

  const LONER: Id := MsgId("a")

  function LonerLabel(n: nat): Label {
    Label(LONER, Some(Loner(n).msg), n + 1, {})
  }

  function OrphansAndLoner(n: nat): (docs: seq<Match>)
    ensures |docs| == n + 1 && DistinctDocs(docs) && docs == Orphans(n) + [Loner(n)]
  {
    LonerIsNew(n);
    Orphans(n) + [Loner(n)]
  }

  lemma LonerIsNew(n: nat)
    ensures LONER !in OrphanIds(n) && forall i :: 0 <= i < n ==> Name(i) != "p"
  {
    forall i: nat ensures LONER != Sent(i) && LONER != Missing(i) {
      assert "a"[0] != ("m" + Name(i))[0] && "a"[0] != ("r" + Name(i))[0];
    }
    forall i | 0 <= i < n ensures Name(i) != "p" {
      if i > 0 { assert Name(i)[0] != "p"[0]; }
    }
  }

  lemma {:induction false} BuildLoner(n: nat)
    ensures var b := Build(Orphans(n));
            NoDup(Append(b, Leaf(LonerLabel(n)))) && LONER !in Ids(b) && Built(b, n)
            && Build(OrphansAndLoner(n)) == Append(b, Leaf(LonerLabel(n)))
  {
    var b, docs := Build(Orphans(n)), OrphansAndLoner(n);
    LonerIsNew(n);
    BuildOrphans(n);
    assert docs[..n] == Orphans(n) && docs[n] == Loner(n);
    AddLeafFacts(b, LonerLabel(n));
    assert !IsDuplicate(b, Loner(n));
  }

  /** An enumeration that comes upon a missing message, then the loner. */
  ghost predicate LonerSecond(n: nat, order: seq<Id>) {
    Enumerates(order, Ids(Build(OrphansAndLoner(n))))
    && |order| > 1 && order[0] == Missing(0) && order[1] == LONER
  }

  lemma {:induction false} Enumeration(ids: set<Id>) returns (order: seq<Id>)
    ensures Enumerates(order, ids)
    decreases |ids|
  {
    order := [];
    if x :| x in ids {
      order := Enumeration(ids - {x});
      order := [x] + order;
    }
  }

  /** There is such an enumeration. */
  lemma {:induction false} SomeLonerSecond(n: nat) returns (order: seq<Id>)
    requires n > 0
    ensures LonerSecond(n, order)
  {
    LonerIds(n);
    order := EnumerationFrom(Ids(Build(OrphansAndLoner(n))), Missing(0), LONER);
  }

  lemma {:induction false} LonerIds(n: nat)
    requires n > 0
    ensures Missing(0) in Ids(Build(OrphansAndLoner(n))) && LONER in Ids(Build(OrphansAndLoner(n)))
    ensures Missing(0) != LONER
  {
    var b := Build(Orphans(n));
    BuildLoner(n);
    assert Missing(0) in MissingIds(n);
    TopsInIds(b);
    AppendIds(b, Leaf(LonerLabel(n)));
    assert LONER in Ids(Leaf(LonerLabel(n)));
  }

  lemma {:induction false} EnumerationFrom(ids: set<Id>, x: Id, y: Id) returns (order: seq<Id>)
    requires x in ids && y in ids && x != y
    ensures Enumerates(order, ids) && |order| > 1 && order[0] == x && order[1] == y
  {
    var rest := Enumeration(ids - {x, y});
    order := [x, y] + rest;
  }

  lemma {:induction false} FirstPart(f: Forest, g: Forest, x: Id)
    requires x in Tops(f) && Ids(f) !! Ids(g)
    ensures x in Ids(f) && x in Ids(Append(f, g))
    ensures RemoveTop(Append(f, g), x) == Append(RemoveTop(f, x), g) && TreeOf(Append(f, g), x) == TreeOf(f, x)
  {
    TopsInIds(f);
    KidsOfAppend(f, g, x);
    if f.top.id != x { FirstPart(f.rest, g, x); }
  }

  /** The first two roots that are gathered. */
  lemma {:induction false} GatherTwo(b: Forest, l: Label, x: Id)
    requires NoDup(Append(b, Leaf(l))) && NoDup(b) && l.id !in Ids(b) && EmptyOverMessage(b) && x in Tops(b)
    ensures x in Ids(b) && EmptyOverMessage(TreeOf(b, x)) && EmptyOverMessage(RemoveTop(b, x))
    ensures Len(RemoveTop(b, x)) == Len(b) - 1
    ensures Gather(Append(b, Leaf(l)), [x, l.id]) == (Append(TreeOf(b, x), Leaf(l)), RemoveTop(b, x))
  {
    var f, b' := Append(b, Leaf(l)), RemoveTop(b, x);
    TakePair(b, x);
    RemoveTopIds(b, x);
    assert Ids(Leaf(l)) == {l.id} && Tops(Leaf(l)) == {l.id} by { assert Ids(Nil) == {} && Tops(Nil) == {}; }
    FirstPart(b, Leaf(l), x);
    AppendTops(b, Leaf(l));
    AppendTops(b', Leaf(l));
    assert [x, l.id][..1] == [x] && [x][..0] == [];
    assert Gather(f, []) == (Nil, f);
    assert Gather(f, [x]) == (Append(Nil, TreeOf(f, x)), RemoveTop(f, x));
    LastPart(b', Leaf(l), l.id);
    AppendNil(b');
    assert RemoveTop(Leaf(l), l.id) == Nil && TreeOf(Leaf(l), l.id) == Leaf(l);
  }

  /** What is gathered after the first k. */
  lemma {:induction false} GatherAfter(f: Forest, order: seq<Id>, k: nat) returns (h: Forest)
    requires NoDup(f) && k <= |order| && EmptyOverMessage(Gather(f, order[..k]).1)
    ensures var r := Gather(f, order);
            && r.0 == Append(Gather(f, order[..k]).0, h) && EmptyOverMessage(h) && EmptyOverMessage(r.1)
            && Len(h) + Len(r.1) == Len(Gather(f, order[..k]).1)
    decreases |order|
  {
    var first := Gather(f, order[..k]);
    if k == |order| {
      assert order[..k] == order;
      h := Nil;
      AppendNil(first.0);
    } else {
      var n, x := |order| - 1, order[|order| - 1];
      assert order[..n][..k] == order[..k];
      h := GatherAfter(f, order[..n], k);
      var r := Gather(f, order[..n]);
      if x in Tops(r.1) {
        TakePair(r.1, x);
        AppendAssoc(first.0, h, TreeOf(r.1, x));
        AppendPairs(h, TreeOf(r.1, x));
        h := Append(h, TreeOf(r.1, x));
      }
    }
  }

  /** A root list of one pair, a message and further pairs. */
  ghost predicate LonerBetween(n: nat, g: Forest, l: Label) {
    g.Cons? && EmptyOverMessage(Single(g.top, g.kids)) && l.msg.Some? && Unflagged(l)
    && g.rest.Cons? && g.rest.top == l && g.rest.kids.Nil?
    && EmptyOverMessage(g.rest.rest) && Len(g.rest.rest) == n - 1
  }

  lemma {:induction false} GatherPair(b: Forest, l: Label, x: Id) returns (g: Forest)
    requires NoDup(Append(b, Leaf(l))) && NoDup(b) && l.id !in Ids(b) && EmptyOverMessage(b) && x in Tops(b)
    ensures g.Cons? && g.rest.Nil? && EmptyOverMessage(g)
    ensures var r := Gather(Append(b, Leaf(l)), [x, l.id]);
            r.0 == Append(g, Leaf(l)) && EmptyOverMessage(r.1) && Len(r.1) == Len(b) - 1
  {
    GatherTwo(b, l, x);
    PairAlone(b, x);
    g := TreeOf(b, x);
  }

  lemma {:induction false} GatherLoner(n: nat, b: Forest, l: Label, order: seq<Id>)
    requires NoDup(b) && NoDup(Append(b, Leaf(l))) && l.id !in Ids(b) && EmptyOverMessage(b) && Len(b) == n
    requires n > 0 && l.msg.Some? && Unflagged(l) && Enumerates(order, Ids(Append(b, Leaf(l))))
    requires |order| > 1 && order[0] in Tops(b) && order[1] == l.id
    ensures LonerBetween(n, Gather(Append(b, Leaf(l)), order).0, l)
  {
    var f := Append(b, Leaf(l));
    assert order[..2] == [order[0], l.id];
    var g := GatherPair(b, l, order[0]);
    var h := GatherAfter(f, order, 2);
    AllGathered(f, order);
    assert Len(Nil) == 0;
    PairThen(g, l, h);
  }

  lemma PairAlone(f: Forest, x: Id)
    requires NoDup(f) && x in Ids(f) && EmptyOverMessage(TreeOf(f, x))
    ensures TreeOf(f, x).Cons? && TreeOf(f, x).rest.Nil?
  {
  }

  lemma PairThen(g: Forest, l: Label, h: Forest)
    requires g.Cons? && g.rest.Nil?
    ensures Append(Append(g, Leaf(l)), h) == Cons(g.top, g.kids, Cons(l, Nil, h))
    ensures g == Single(g.top, g.kids)
  {
    assert Append(Nil, h) == h && Append(Nil, Leaf(l)) == Leaf(l);
  }

  /** The pruned roots: a shell, the loner, the other shells, the messages. */
  ghost predicate LonerAfterShell(n: nat, f: Forest, l: Label) {
    f.Cons? && f.kids.Nil?
    && f.rest.Cons? && f.rest.top == l && f.rest.kids.Nil?
    && n > 0 && ShellsThenMessages(f.rest.rest, n - 1) && Len(f.rest.rest) == 2 * n - 1
  }

  lemma {:induction false} MarkLeaf(k: Forest)
    requires k.Cons? && k.kids.Nil? && k.rest.Nil? && k.top.msg.Some? && Unflagged(k.top)
    ensures Mark(k) == k && Collapse(k) == k && Kept(k) == k && Promoted(k) == Nil
    ensures ShellsThenMessages(k, 0) && Len(k) == 1
  {
    assert Mark(Nil) == Nil && Collapse(Nil) == Nil && Kept(Nil) == Nil && Promoted(Nil) == Nil;
    assert ShellsThenMessages(Nil, 0) && Len(Nil) == 0;
    AppendNil(k);
  }

  lemma {:induction false} MarkLoner(n: nat, g: Forest, l: Label)
    requires LonerBetween(n, g, l)
    ensures Mark(g) == Cons(g.top.(flags := g.top.flags + {Splice}), g.kids, Cons(g.rest.top, Nil, Mark(g.rest.rest)))
  {
    MarkLeaf(g.kids);
    assert Mark(Nil) == Nil && Collapse(Nil) == Nil;
    assert Mark(g.rest) == Cons(g.rest.top, Nil, Mark(g.rest.rest));
  }

  lemma {:induction false} CollapseLoner(t: Label, k: Forest, l: Label, m: Forest)
    requires t.msg.None? && Delete !in t.flags && Splice in t.flags && Unflagged(l)
    ensures CollapseRoots(Cons(t, k, Cons(l, Nil, m)))
         == Cons(t, Nil, Cons(l, Nil, Append(KeptRoots(m), Append(k, Promoted(m)))))
  {
    var rest := Cons(l, Nil, m);
    assert KeptRoots(rest) == Cons(l, Nil, KeptRoots(m)) && Promoted(rest) == Promoted(m);
    assert KeptRoots(Cons(t, k, rest)) == Cons(t, Nil, KeptRoots(rest));
    assert Promoted(Cons(t, k, rest)) == Append(k, Promoted(m));
    var back := Append(k, Promoted(m));
    assert Append(Cons(l, Nil, KeptRoots(m)), back) == Cons(l, Nil, Append(KeptRoots(m), back));
  }

  lemma {:induction false} PruneLoner(n: nat, g: Forest, l: Label)
    requires LonerBetween(n, g, l)
    ensures LonerAfterShell(n, PruneForest(g), l)
  {
    var k, m := g.kids, Mark(g.rest.rest);
    MarkLoner(n, g, l);
    MarkLeaf(k);
    CollapseLoner(g.top.(flags := g.top.flags + {Splice}), k, l, m);
    PrunePairs(g.rest.rest);
    AppendLen(k, Promoted(m));
    AppendLen(KeptRoots(m), Append(k, Promoted(m)));
  }

  lemma {:induction false} LonerEntries(n: nat, f: Forest, l: Label)
    requires 8 <= n <= 15 && LonerAfterShell(n, f, l)
    ensures |AllEntries(f)| > 16 && AllEntries(f)[1].pos == [1] && AllEntries(f)[1].node == l
    ensures AllEntries(f)[16].pos == [16] && AllEntries(f)[16].node.msg.Some?
  {
    var tail := Entries(f.rest.rest, [], 2, None);
    FlatEntries(f.rest.rest, 2, n - 1, 14);
    assert Entries(f.rest, [], 1, None) == [Entry(f.rest.top, [] + [1], Props(f.rest.top, Nil, None, 1))] + tail by {
      assert Entries(Nil, [] + [1], 0, Some(f.rest.top)) == [];
    }
    assert AllEntries(f) == [Entry(f.top, [] + [0], Props(f.top, Nil, None, 0))] + Entries(f.rest, [], 1, None) by {
      assert Entries(Nil, [] + [0], 0, Some(f.top)) == [];
    }
  }

  /** Threaded without a sort field, the path of the loner is the beginning of
      the path of a message that has nothing to do with it. */
  lemma {:induction false} PathOfAStranger(n: nat, order: seq<Id>) returns (x: Label, y: Label)
    requires 8 <= n <= 15 && LonerSecond(n, order)
    ensures var f := FinalForest(OrphansAndLoner(n), order, None);
            && x in Labels(f) && x.msg == Some(Loner(n).msg) && y in Labels(f) && y.msg.Some?
            && x.id in Ids(f) && y.id !in Ids(KidsOf(f, x.id))
            && PathOf(f, OrphansAndLoner(n), x.docid) == "1" && PathOf(f, OrphansAndLoner(n), y.docid) == "10"
  {
    var docs := OrphansAndLoner(n);
    var f := FinalForest(docs, order, None);
    FinalLoner(n, order);
    LonerEntries(n, f, LonerLabel(n));
    FinalHoldsDocs(docs, order, None);
    x, y := AllEntries(f)[1].node, AllEntries(f)[16].node;
    NotBelow(f, AllEntries(f)[1], AllEntries(f)[16]);
    PathAt(f, docs, 1);
    PathAt(f, docs, 16);
    OneDigit(n + 1);
    NarrowKeysLookAbove();
  }

  lemma {:induction false} FinalLoner(n: nat, order: seq<Id>)
    requires n > 0 && LonerSecond(n, order)
    ensures LonerAfterShell(n, FinalForest(OrphansAndLoner(n), order, None), LonerLabel(n))
  {
    BuildLoner(n);
    assert Missing(0) in MissingIds(n);
    GatherLoner(n, Build(Orphans(n)), LonerLabel(n), order);
    PruneLoner(n, Gather(Build(OrphansAndLoner(n)), order).0, LonerLabel(n));
  }

  lemma {:induction false} NotBelow(f: Forest, a: Entry, b: Entry)
    requires NoDup(f) && a in AllEntries(f) && b in AllEntries(f) && !(a.pos < b.pos)
    ensures a.node in Labels(f) && b.node in Labels(f) && a.node.id in Ids(f)
    ensures b.node.id !in Ids(KidsOf(f, a.node.id))
  {
    EntriesIds(f, [], 0, None);
    PrefixIsAncestor(f, [], 0, None, a, b);
  }

  lemma {:induction false} PathAt(f: Forest, docs: seq<Match>, i: nat)
    requires HoldsDocs(f, docs) && i < |AllEntries(f)| && AllEntries(f)[i].node.msg.Some?
    ensures PathOf(f, docs, AllEntries(f)[i].node.docid) == PathString(AllEntries(f)[i].pos, DigitNum(|docs|))
  {
    TableFinds(f, docs, i);
  }
}
