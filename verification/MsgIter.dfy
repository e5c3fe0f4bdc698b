/** mu_threader_calculate, and the message iterator that threads its matches
    and sorts them again by thread path (mu-threader.c, mu-msg-iter.cc). */
module MsgIter {
  import opened Options
  import opened Forests
  import opened ThreadBuild
  import opened RootSet
  import opened Prune
  import opened Sort
  import opened ThreadKeys
  import opened KeyOrder
  import opened ThreadPaths
  import opened Threading
  import opened ThreadOrder
  import opened RootOrder
  import opened Cells
  import opened ThreadBuilder
  import opened RootPruner
  import opened ContainerSort
  import opened PathWalk

  /** mu_threader_calculate: for any match list, whatever the References say
      and however the hash table enumerates, the thread-info table is the one
      of the final forest. */
  method Calculate(docs: seq<Match>, sort: Option<Order>, order: seq<Id>) returns (info: ThreadInfoTable)
    requires DistinctDocs(docs) && docs != [] && Enumerates(order, Ids(Build(docs)))
    ensures fresh(info) && info.hash == ThreadTable(FinalForest(docs, order, sort), |docs|)
  {
    FinalHoldsDocs(docs, order, sort);
    BuiltForest(docs, order);
    var T := CreateContainers(docs);
    var root := FindRootSet(T, order, Build(docs));
    ghost var g := Gather(Build(docs), order).0;
    root := PruneEmptyContainers(T, root, g);
    ghost var f := PruneForest(g);
    PruneIds(g);
    Forget(T.cells, f, None, HeadCache(f), None);
    if sort.Some? {
      root := SortContainers(T, root, sort.value, f);
      f := SortForest(sort.value, f);
    }
    NotEmpty(f, docs);
    info := ThreadInfoHashNew(T, root, |docs|, f);
  }

  lemma NotEmpty(f: Forest, docs: seq<Match>)
    requires HoldsDocs(f, docs)
    ensures f.Cons?
  {
    assert docs[0] in docs;
    assert Stores(f, docs[0]);
  }

  // ---- the second query ----

  function Take(ms: seq<Match>, n: nat): (r: seq<Match>)
    ensures DistinctDocs(ms) ==> DistinctDocs(r)
  {
    if n < |ms| then ms[..n] else ms
  }

  /** ThreadKeyMaker: a document without thread info has the empty key. */
  function MakeKey(table: map<nat, ThreadInfo>, m: Match): string {
    if m.docid in table then table[m.docid].threadpath else ""
  }

  function Insert(table: map<nat, ThreadInfo>, m: Match, ms: seq<Match>): seq<Match> {
    if ms == [] then [m]
    else if StrLess(MakeKey(table, ms[0]), MakeKey(table, m)) then [ms[0]] + Insert(table, m, ms[1..])
    else [m] + ms
  }

  /** The documents in ascending order of their keys. */
  function SortByKey(table: map<nat, ThreadInfo>, ms: seq<Match>): seq<Match> {
    if ms == [] then [] else Insert(table, ms[0], SortByKey(table, ms[1..]))
  }

  class MsgIter {
    var matches: seq<Match>
    var cursor: nat
    var threadHash: ThreadInfoTable?

    ghost predicate Valid()
      reads this
    {
      cursor <= |matches|
    }

    /** `total` is every document the query matches, in the default order;
        `maxnum` limits each of the two queries. */
    constructor (total: seq<Match>, maxnum: nat, threads: bool, sort: Option<Order>, order: seq<Id>)
      requires DistinctDocs(total)
      requires Enumerates(order, Ids(Build(Take(total, maxnum))))
      ensures Valid() && cursor == 0
      ensures var first := Take(total, maxnum);
              if threads && first != [] then
                threadHash != null && threadHash.hash == ThreadTable(FinalForest(first, order, sort), |first|)
                && matches == Take(SortByKey(threadHash.hash, total), maxnum)
              else threadHash == null && matches == first
      ensures threads && Take(total, maxnum) != [] ==> DocIds(matches) == Delivered(total, maxnum, order, sort)
      ensures threads && Take(total, maxnum) != [] && sort.Some? && TotalPreorder(sort.value.cmp) ==>
                (DocIds(matches) == PreorderDocIds(FinalForest(Take(total, maxnum), order, sort))
                 <==> |total| <= maxnum)
    {
      matches := Take(total, maxnum);
      threadHash := null;
      cursor := 0;
      new;
      if threads && matches != [] {
        threadHash := Calculate(matches, sort, order);
        matches := Take(SortByKey(threadHash.hash, total), maxnum);
        if sort.Some? && TotalPreorder(sort.value.cmp) {
          ThreadedOrderIffNotCut(total, maxnum, order, sort);
        }
      }
      cursor := 0;
    }

    /** mu_msg_iter_reset */
    method Reset()
      modifies this`cursor
      ensures Valid() && cursor == 0
    {
      cursor := 0;
    }

    /** mu_msg_iter_is_done */
    predicate IsDone()
      reads this
    {
      cursor == |matches|
    }

    /** mu_msg_iter_next */
    method Next() returns (more: bool)
      requires Valid()
      modifies this`cursor
      ensures Valid() && cursor == (if old(IsDone()) then old(cursor) else old(cursor) + 1)
      ensures more <==> !IsDone()
    {
      if IsDone() {
        return false;
      }
      cursor := cursor + 1;
      more := !IsDone();
    }

    /** mu_msg_iter_get_thread_info */
    method GetThreadInfo() returns (ti: Option<ThreadInfo>)
      requires Valid() && !IsDone() && threadHash != null
      ensures var d := matches[cursor].docid;
              ti == if d in threadHash.hash then Some(threadHash.hash[d]) else None
    {
      var d := matches[cursor].docid;
      ti := if d in threadHash.hash then Some(threadHash.hash[d]) else None;
    }
  }

  // ---- the sorted documents are the preorder walk ----

  ghost predicate InKeyOrder(table: map<nat, ThreadInfo>, ms: seq<Match>) {
    forall i, j :: 0 <= i < j < |ms| ==> !StrLess(MakeKey(table, ms[j]), MakeKey(table, ms[i]))
  }

  lemma {:induction false} NotLessTrans(a: string, b: string, c: string)
    requires !StrLess(b, a) && !StrLess(c, b)
    ensures !StrLess(c, a)
  {
    StrTotal(a, b);
    StrTotal(b, c);
    if StrLess(a, b) && StrLess(b, c) {
      StrTransitive(a, b, c);
      StrAsymmetric(a, c);
    }
  }

  lemma StrTotal(a: string, b: string)
    ensures a == b || StrLess(a, b) || StrLess(b, a)
  {
    if a != [] && b != [] && a[0] == b[0] {
      StrTotal(a[1..], b[1..]);
    }
  }

  lemma {:induction false} InsertPermutes(table: map<nat, ThreadInfo>, m: Match, ms: seq<Match>)
    ensures multiset(Insert(table, m, ms)) == multiset{m} + multiset(ms)
    decreases |ms|
  {
    if ms != [] {
      InsertPermutes(table, m, ms[1..]);
      assert ms == [ms[0]] + ms[1..];
    }
  }

  lemma {:induction false} InFront(table: map<nat, ThreadInfo>, m: Match, ms: seq<Match>)
    requires InKeyOrder(table, ms) && forall x :: x in ms ==> !StrLess(MakeKey(table, x), MakeKey(table, m))
    ensures InKeyOrder(table, [m] + ms)
  {
  }

  lemma {:induction false} HeadIsLeast(table: map<nat, ThreadInfo>, m: Match, ms: seq<Match>)
    requires InKeyOrder(table, ms) && ms != [] && !StrLess(MakeKey(table, ms[0]), MakeKey(table, m))
    ensures forall x :: x in ms ==> !StrLess(MakeKey(table, x), MakeKey(table, m))
  {
    forall j | 0 <= j < |ms| ensures !StrLess(MakeKey(table, ms[j]), MakeKey(table, m)) {
      if j > 0 { NotLessTrans(MakeKey(table, m), MakeKey(table, ms[0]), MakeKey(table, ms[j])); }
    }
  }

  lemma {:induction false} InsertSorted(table: map<nat, ThreadInfo>, m: Match, ms: seq<Match>)
    requires InKeyOrder(table, ms)
    ensures InKeyOrder(table, Insert(table, m, ms))
    ensures multiset(Insert(table, m, ms)) == multiset{m} + multiset(ms)
    decreases |ms|
  {
    InsertPermutes(table, m, ms);
    if ms != [] && StrLess(MakeKey(table, ms[0]), MakeKey(table, m)) {
      var r := Insert(table, m, ms[1..]);
      InsertSorted(table, m, ms[1..]);
      StrAsymmetric(MakeKey(table, ms[0]), MakeKey(table, m));
      forall x | x in r ensures !StrLess(MakeKey(table, x), MakeKey(table, ms[0])) {
        assert x in multiset(r);
      }
      InFront(table, ms[0], r);
    } else if ms != [] {
      HeadIsLeast(table, m, ms);
      InFront(table, m, ms);
    }
  }

  lemma {:induction false} SortByKeySorts(table: map<nat, ThreadInfo>, ms: seq<Match>)
    ensures InKeyOrder(table, SortByKey(table, ms)) && multiset(SortByKey(table, ms)) == multiset(ms)
    decreases |ms|
  {
    if ms != [] {
      SortByKeySorts(table, ms[1..]);
      InsertSorted(table, ms[0], SortByKey(table, ms[1..]));
      assert SortByKey(table, ms) == Insert(table, ms[0], SortByKey(table, ms[1..]));
      assert ms == [ms[0]] + ms[1..];
    }
  }

  ghost function DocIds(ms: seq<Match>): seq<nat> {
    seq(|ms|, i requires 0 <= i < |ms| => ms[i].docid)
  }

  lemma {:induction false} SameAscending(f: Forest, docs: seq<Match>, xs: seq<nat>, ys: seq<nat>)
    requires docs != [] && Ascending(f, docs, xs) && Ascending(f, docs, ys)
    requires forall d :: d in xs <==> d in ys
    ensures xs == ys
    decreases |xs|
  {
    assert xs != [] ==> xs[0] in xs;
    assert ys != [] ==> ys[0] in ys;
    if xs != [] && ys != [] {
      assert ys[0] in xs && xs[0] in ys;
      var i :| 0 <= i < |xs| && xs[i] == ys[0];
      var j :| 0 <= j < |ys| && ys[j] == xs[0];
      if i > 0 && j > 0 {
        StrAsymmetric(PathOf(f, docs, xs[0]), PathOf(f, docs, xs[i]));
      }
      assert xs[0] == ys[0];
      AscendingTail(f, docs, xs);
      AscendingTail(f, docs, ys);
      forall d ensures d in xs[1..] <==> d in ys[1..] {
        assert d in xs <==> d in ys;
      }
      SameAscending(f, docs, xs[1..], ys[1..]);
    }
  }

  lemma {:induction false} AscendingTail(f: Forest, docs: seq<Match>, xs: seq<nat>)
    requires docs != [] && xs != [] && Ascending(f, docs, xs)
    ensures Ascending(f, docs, xs[1..]) && xs[0] !in xs[1..]
  {
    forall k | 1 <= k < |xs| ensures xs[k] != xs[0] {
      StrIrreflexive(PathOf(f, docs, xs[0]));
    }
  }

  lemma TakeAll(ms: seq<Match>, n: nat)
    ensures |ms| <= n ==> Take(ms, n) == ms
  {
  }

  lemma {:induction false} SortedAscends(f: Forest, docs: seq<Match>, r: seq<Match>)
    requires HoldsDocs(f, docs) && WalkAscends(f, |docs|)
    requires InKeyOrder(ThreadTable(f, |docs|), r) && multiset(r) == multiset(docs)
    ensures Ascending(f, docs, DocIds(r))
  {
    var table, ids, pre := ThreadTable(f, |docs|), DocIds(r), PreorderDocIds(f);
    PreorderAscends(f, docs);
    PreorderListsDocs(f, docs);
    SortedDistinct(docs, r);
    forall a, b | 0 <= a < b < |ids| ensures StrLess(PathOf(f, docs, ids[a]), PathOf(f, docs, ids[b])) {
      assert r[a] in multiset(docs) && r[b] in multiset(docs);
      assert ids[a] in pre && ids[b] in pre;
      PathsDiffer(f, docs, pre, ids[a], ids[b]);
      assert !StrLess(MakeKey(table, r[b]), MakeKey(table, r[a]));
    }
  }

  /** Two entries of an ascending list are one below the other. */
  lemma {:induction false} PathsDiffer(f: Forest, docs: seq<Match>, pre: seq<nat>, d: nat, e: nat)
    requires docs != [] && Ascending(f, docs, pre) && d in pre && e in pre && d != e
    ensures StrLess(PathOf(f, docs, d), PathOf(f, docs, e)) || StrLess(PathOf(f, docs, e), PathOf(f, docs, d))
  {
    var i :| 0 <= i < |pre| && pre[i] == d;
    var j :| 0 <= j < |pre| && pre[j] == e;
    assert i < j || j < i;
  }

  lemma {:induction false} SortedDistinct(docs: seq<Match>, r: seq<Match>)
    requires DistinctDocs(docs) && multiset(r) == multiset(docs)
    ensures forall a, b :: 0 <= a < b < |r| ==> r[a].docid != r[b].docid
  {
    forall a, b | 0 <= a < b < |r| ensures r[a].docid != r[b].docid {
      if r[a].docid == r[b].docid {
        assert r[a] in multiset(docs) && r[b] in multiset(docs);
        var i :| 0 <= i < |docs| && docs[i] == r[a];
        var j :| 0 <= j < |docs| && docs[j] == r[b];
        assert i == j;
        TwiceInSeq(r, a, b);
        OnceInSeq(docs, i);
      }
    }
  }

  lemma {:induction false} TwiceInSeq(r: seq<Match>, a: nat, b: nat)
    requires a < b < |r| && r[a] == r[b]
    ensures multiset(r)[r[a]] >= 2
  {
    assert r == r[..b] + r[b..];
    assert r[a] in multiset(r[..b]) && r[b] in multiset(r[b..]);
  }

  lemma {:induction false} OnceInSeq(docs: seq<Match>, i: nat)
    requires i < |docs| && DistinctDocs(docs)
    ensures multiset(docs)[docs[i]] == 1
  {
    var m := docs[i];
    assert docs == docs[..i] + [m] + docs[i + 1..];
    assert m !in docs[..i] && m !in docs[i + 1..];
    assert multiset(docs[..i])[m] == 0 && multiset(docs[i + 1..])[m] == 0;
  }

  /** The matches as the iterator delivers them. */
  ghost function Delivered(total: seq<Match>, maxnum: nat, order: seq<Id>, sort: Option<Order>): seq<nat>
    requires DistinctDocs(total) && Take(total, maxnum) != []
  {
    var first := Take(total, maxnum);
    DocIds(Take(SortByKey(ThreadTable(FinalForest(first, order, sort), |first|), total), maxnum))
  }

  /** When every match of the query fits into maxnum, sorting by thread path
      delivers exactly the preorder walk of the threads if and only if the
      numbers of the roots ascend as keys. */
  lemma {:induction false} ThreadedOrder(total: seq<Match>, maxnum: nat, order: seq<Id>, sort: Option<Order>)
    requires DistinctDocs(total) && Take(total, maxnum) != [] && |total| <= maxnum
    requires Enumerates(order, Ids(Build(Take(total, maxnum))))
    ensures var f := FinalForest(Take(total, maxnum), order, sort);
            Delivered(total, maxnum, order, sort) == PreorderDocIds(f) <==> RootsAscend(f, DigitNum(|total|))
  {
    TakeAll(total, maxnum);
    var f := FinalForest(total, order, sort);
    var r := SortByKey(ThreadTable(f, |total|), total);
    FinalHoldsDocs(total, order, sort);
    SortByKeySorts(ThreadTable(f, |total|), total);
    assert |r| == |total| by { assert |multiset(r)| == |multiset(total)|; }
    TakeAll(r, maxnum);
    WalkAscendsIffRootsDo(f, total);
    if WalkAscends(f, |total|) {
      AscendingIsPreorder(f, total, r);
    } else if DocIds(r) == PreorderDocIds(f) {
      PreorderMustAscend(f, total, r);
      assert false;
    }
  }

  lemma {:induction false} AscendingIsPreorder(f: Forest, docs: seq<Match>, r: seq<Match>)
    requires HoldsDocs(f, docs) && WalkAscends(f, |docs|)
    requires InKeyOrder(ThreadTable(f, |docs|), r) && multiset(r) == multiset(docs)
    ensures DocIds(r) == PreorderDocIds(f)
  {
    SortedAscends(f, docs, r);
    PreorderAscends(f, docs);
    PreorderListsDocs(f, docs);
    forall d ensures d in DocIds(r) <==> d in PreorderDocIds(f) {
      SameDocIds(docs, r, d);
    }
    SameAscending(f, docs, DocIds(r), PreorderDocIds(f));
  }

  lemma {:induction false} PreorderMustAscend(f: Forest, docs: seq<Match>, r: seq<Match>)
    requires HoldsDocs(f, docs) && InKeyOrder(ThreadTable(f, |docs|), r) && DocIds(r) == PreorderDocIds(f)
    ensures WalkAscends(f, |docs|)
  {
    var es := AllEntries(f);
    forall i, j | 0 <= i < j < |es| && es[i].node.msg.Some? && es[j].node.msg.Some?
      ensures KeysAscend(es[i].pos, es[j].pos, DigitNum(|docs|))
    {
      var a, b := |MessageDocIds(es[..i])|, |MessageDocIds(es[..j])|;
      MessageListed(es, i);
      MessageListed(es, j);
      LaterListedLater(es, i, j);
      assert DocIds(r)[a] == es[i].node.docid && DocIds(r)[b] == es[j].node.docid;
      assert !StrLess(PathOf(f, docs, es[j].node.docid), PathOf(f, docs, es[i].node.docid));
      PathOrderIff(f, docs, i, j);
    }
  }

  lemma {:induction false} SameDocIds(docs: seq<Match>, r: seq<Match>, d: nat)
    requires multiset(r) == multiset(docs)
    ensures d in DocIds(r) <==> exists m :: m in docs && m.docid == d
  {
    if d in DocIds(r) {
      var i :| 0 <= i < |r| && DocIds(r)[i] == d;
      assert r[i] in multiset(docs);
    }
    if exists m :: m in docs && m.docid == d {
      var m :| m in docs && m.docid == d;
      assert m in multiset(r);
      var i :| 0 <= i < |r| && r[i] == m;
      assert DocIds(r)[i] == d;
    }
  }

  /** When maxnum cuts the match list, the second query puts documents without
      thread info in front, and the delivered list is not the walk, sorted or
      not. */
  lemma {:induction false} CutListIsNotThreaded(total: seq<Match>, maxnum: nat, order: seq<Id>, sort: Option<Order>)
    requires DistinctDocs(total) && Take(total, maxnum) != [] && |total| > maxnum
    requires Enumerates(order, Ids(Build(Take(total, maxnum))))
    ensures Delivered(total, maxnum, order, sort) != PreorderDocIds(FinalForest(Take(total, maxnum), order, sort))
  {
    var first := Take(total, maxnum);
    var f := FinalForest(first, order, sort);
    FinalHoldsDocs(first, order, sort);
    var d := FirstDelivered(total, maxnum, f);
    PreorderListsDocs(f, first);
    var ids := DocIds(Take(SortByKey(ThreadTable(f, |first|), total), maxnum));
    if d in PreorderDocIds(f) {
      var m :| m in first && m.docid == d;
      MatchedKey(f, first, m);
    }
    assert ids[0] in ids;
  }

  /** The document delivered first has no thread info. */
  lemma {:induction false} FirstDelivered(total: seq<Match>, maxnum: nat, f: Forest) returns (d: nat)
    requires DistinctDocs(total) && maxnum < |total| && Take(total, maxnum) != [] && HoldsDocs(f, Take(total, maxnum))
    ensures var first := Take(total, maxnum);
            var table := ThreadTable(f, |first|);
            var ids := DocIds(Take(SortByKey(table, total), maxnum));
            ids != [] && ids[0] == d && (d in table ==> table[d].threadpath == "")
  {
    var table := ThreadTable(f, |Take(total, maxnum)|);
    var r := SortByKey(table, total);
    SortByKeySorts(table, total);
    assert |multiset(r)| == |r| && |multiset(total)| == |total|;
    LeftOutKey(total, maxnum, f);
    assert total[maxnum] in multiset(r);
    var k :| 0 <= k < |r| && r[k] == total[maxnum];
    assert MakeKey(table, r[0]) == "";
    d := r[0].docid;
  }

  lemma {:induction false} LeftOutKey(total: seq<Match>, maxnum: nat, f: Forest)
    requires DistinctDocs(total) && maxnum < |total| && Take(total, maxnum) != [] && HoldsDocs(f, Take(total, maxnum))
    ensures MakeKey(ThreadTable(f, |Take(total, maxnum)|), total[maxnum]) == ""
  {
    var first := Take(total, maxnum);
    TableCoversDocs(f, first);
    forall m | m in first ensures m.docid != total[maxnum].docid {
      var i :| 0 <= i < |first| && first[i] == m;
      assert total[i] == m;
    }
  }

  lemma {:induction false} MatchedKey(f: Forest, docs: seq<Match>, m: Match)
    requires HoldsDocs(f, docs) && m in docs
    ensures MakeKey(ThreadTable(f, |docs|), m) != ""
  {
    var i := DocIndex(f, docs, m);
    TableFinds(f, docs, i);
    LevelIsDepth(AllEntries(f)[i].pos, DigitNum(|docs|));
  }

  /** The iterator delivers the threads in reading order if and only if the
      query's limit does not cut the match list and the numbers of the roots
      ascend as keys, sorted on a field or not. */
  lemma {:induction false} ThreadedOrderIff(total: seq<Match>, maxnum: nat, order: seq<Id>, sort: Option<Order>)
    requires DistinctDocs(total) && Take(total, maxnum) != []
    requires Enumerates(order, Ids(Build(Take(total, maxnum))))
    ensures var f := FinalForest(Take(total, maxnum), order, sort);
            Delivered(total, maxnum, order, sort) == PreorderDocIds(f)
            <==> |total| <= maxnum && RootsAscend(f, DigitNum(|Take(total, maxnum)|))
  {
    if |total| <= maxnum {
      TakeAll(total, maxnum);
      ThreadedOrder(total, maxnum, order, sort);
    } else {
      CutListIsNotThreaded(total, maxnum, order, sort);
    }
  }

  /** Threads sorted on a field have their shells last, so their positions
      always ascend; and so they do in unsorted threads without shells. */
  lemma {:induction false} ThreadedOrderIffNotCut(total: seq<Match>, maxnum: nat, order: seq<Id>, sort: Option<Order>)
    requires DistinctDocs(total) && Take(total, maxnum) != []
    requires Enumerates(order, Ids(Build(Take(total, maxnum))))
    requires (sort.Some? && TotalPreorder(sort.value.cmp)) || ShellsLast(FinalForest(Take(total, maxnum), order, sort))
    ensures Delivered(total, maxnum, order, sort) == PreorderDocIds(FinalForest(Take(total, maxnum), order, sort))
            <==> |total| <= maxnum
  {
    var first := Take(total, maxnum);
    FinalForestFacts(first, order, sort);
    FinalHoldsDocs(first, order, sort);
    ShellsLastAscends(FinalForest(first, order, sort), first);
    WalkAscendsIffRootsDo(FinalForest(first, order, sort), first);
    ThreadedOrderIff(total, maxnum, order, sort);
  }
}
