/** The whole of threading, from match list to thread-info table, and what its
    result means. */
module Threading {
  import opened Options
  import opened Forests
  import opened ForestEdits
  import opened ThreadBuild
  import opened RootSet
  import opened Prune
  import opened Sort
  import opened SortDirection
  import opened ThreadKeys
  import opened ThreadPaths

  /** The forest that the thread paths describe. `order` is the order in which
      the hash table enumerates its keys; without a sort field the lists stay
      as they are. */
  ghost function FinalForest(docs: seq<Match>, order: seq<Id>, sort: Option<Order>): Forest
    requires DistinctDocs(docs)
  {
    var f := PruneForest(Gather(Build(docs), order).0);
    if sort.Some? then SortForest(sort.value, f) else f
  }

  ghost function AllEntries(f: Forest): (es: seq<Entry>)
    ensures Located(es)
  {
    EntriesUnder(f, [], 0, None);
    Entries(f, [], 0, None)
  }

  ghost function ThreadTable(f: Forest, matchnum: nat): map<nat, ThreadInfo>
    requires matchnum > 0
  {
    Tabulate(map[], AllEntries(f), DigitNum(matchnum))
  }

  lemma {:induction false} UnflaggedBySet(f: Forest)
    requires forall t :: t in Labels(f) ==> Unflagged(t)
    ensures AllUnflagged(f)
  {
    if f.Cons? {
      UnflaggedBySet(f.kids);
      UnflaggedBySet(f.rest);
    }
  }

  lemma {:induction false} BuiltForest(docs: seq<Match>, order: seq<Id>)
    requires DistinctDocs(docs) && Enumerates(order, Ids(Build(docs)))
    ensures var f, g := Build(docs), Gather(Build(docs), order).0;
            NoDup(g) && AllUnflagged(g) && Labels(g) == Labels(f) && Messages(g) == Messages(f)
            && Threads(g, None) == Threads(f, None)
  {
    var f := Build(docs);
    RootListKeepsForest(f, order);
    ReachedUnflagged(f, docs);
    UnflaggedBySet(Gather(f, order).0);
  }

  lemma {:induction false} ReachedUnflagged(f: Forest, docs: seq<Match>)
    requires Reached(f, docs)
    ensures forall t :: t in Labels(f) ==> Unflagged(t)
  {
    forall t | t in Labels(f) ensures Unflagged(t) {
      assert LabelShape(t, docs);
    }
  }

  /** What threading keeps and what it establishes. */
  lemma {:induction false} FinalForestFacts(docs: seq<Match>, order: seq<Id>, sort: Option<Order>)
    requires DistinctDocs(docs) && Enumerates(order, Ids(Build(docs)))
    ensures var f := FinalForest(docs, order, sort);
            NoDup(f) && PrunedRoots(f)
            && Messages(f) == Messages(Build(docs))
            && Threads(f, None) == Threads(Build(docs), None)
            && (sort.Some? && TotalPreorder(sort.value.cmp) ==>
                  DeepOrdered(sort.value, f) && ThreadsRun(sort.value, f) && ShellsLast(f))
  {
    var g := Gather(Build(docs), order).0;
    var h := PruneForest(g);
    BuiltForest(docs, order);
    PruneShape(g);
    PrunePreservesThreads(g);
    PruneIds(g);
    if sort.Some? {
      var o := sort.value;
      SortKeepsForest(o, h);
      SortKeepsPruned(o, h);
      if TotalPreorder(o.cmp) {
        SortForestOrders(o, h);
        OrderedThreadsRun(o, SortForest(o, h));
        OrderedShellsLast(o, SortForest(o, h));
      }
    }
  }

  // ---- messages as labels ----

  lemma {:induction false} MessagesAreLabels(f: Forest, t: Label)
    ensures t in Messages(f) <==> t in Labels(f) && t.msg.Some?
  {
    if f.Cons? {
      MessagesAreLabels(f.kids, t);
      MessagesAreLabels(f.rest, t);
    }
  }

  lemma {:induction false} StoresMoves(f: Forest, g: Forest, m: Match)
    requires Messages(f) == Messages(g) && Stores(f, m)
    ensures Stores(g, m)
  {
    var t :| t in Labels(f) && t.msg == Some(m.msg) && t.docid == m.docid;
    MessagesAreLabels(f, t);
    MessagesAreLabels(g, t);
  }

  lemma {:induction false} LabelMoves(f: Forest, g: Forest, docs: seq<Match>, t: Label)
    requires Messages(f) == Messages(g) && Reached(f, docs) && t in Labels(g) && t.msg.Some?
    ensures Match(t.docid, t.msg.value) in docs
  {
    MessagesAreLabels(f, t);
    MessagesAreLabels(g, t);
    assert LabelShape(t, docs);
  }

  /** The final forest holds the documents, and nothing but. */
  lemma {:induction false} FinalDocs(docs: seq<Match>, order: seq<Id>, sort: Option<Order>)
    requires DistinctDocs(docs) && Enumerates(order, Ids(Build(docs)))
    ensures var f := FinalForest(docs, order, sort);
            (forall t :: t in Labels(f) && t.msg.Some? ==> Match(t.docid, t.msg.value) in docs)
            && (forall m :: m in docs ==> Stores(f, m))
            && |Messages(f)| == |docs|
  {
    var f, b := FinalForest(docs, order, sort), Build(docs);
    FinalForestFacts(docs, order, sort);
    forall t | t in Labels(f) && t.msg.Some? ensures Match(t.docid, t.msg.value) in docs {
      LabelMoves(b, f, docs, t);
    }
    forall m | m in docs ensures Stores(f, m) {
      StoresMoves(b, f, m);
    }
  }

  // ---- every document is one message ----

  ghost predicate UniqueDocIds(bag: multiset<Label>) {
    forall t, u :: t in bag && u in bag && t.docid == u.docid ==> t == u
  }

  lemma {:induction false} HandleKeepsMessages(f: Forest, x: Id, refs: seq<string>)
    requires NoDup(f) && x in Ids(f)
    ensures Messages(HandleReferences(f, x, refs)) == Messages(f)
  {
    if refs != [] {
      FoldKeepsMessages(f, None, refs);
      var r := FoldRefs(f, None, refs);
      TryLinkFacts(r.0, r.1, x);
    }
  }

  lemma {:induction false} FoldKeepsMessages(f: Forest, prev: Option<Id>, refs: seq<string>)
    requires NoDup(f) && (prev.Some? ==> prev.value in Ids(f))
    ensures Messages(FoldRefs(f, prev, refs).0) == Messages(f)
    decreases |refs|
  {
    if refs != [] {
      var x := MsgId(refs[0]);
      EnsureFacts(f, x);
      TryLinkFacts(EnsureId(f, x), prev, x);
      FoldKeepsMessages(TryLink(EnsureId(f, x), prev, x), Some(x), refs[1..]);
    }
  }

  /** A document adds one message, its own. */
  lemma {:induction false} AddsOneMessage(f: Forest, m: Match) returns (l: Label)
    requires NoDup(f)
    ensures l.msg == Some(m.msg) && l.docid == m.docid
    ensures Messages(AddMessage(f, m)) == Messages(f) + multiset{l}
    ensures if IsDuplicate(f, m) then l.id == PathId(m.msg.path) && l.flags == {Dup}
            else l.id == OwnId(m.msg) && l.flags == (if l.id in Ids(f) then LabelOf(f, l.id).flags else {})
  {
    var x := OwnId(m.msg);
    if IsDuplicate(f, m) {
      l := Label(PathId(m.msg.path), Some(m.msg), m.docid, {Dup});
      LeafFacts(l);
      GraftMessages(f, x, Leaf(l));
    } else {
      if x in Ids(f) {
        l := Fill(LabelOf(f, x), m);
        SetMsgMessages(f, x, m);
      } else {
        l := Label(x, Some(m.msg), m.docid, {});
        AddLeafFacts(f, l);
      }
      HandleKeepsMessages(Store(f, m), x, m.msg.refs);
    }
  }

  lemma {:induction false} DocIdsUnique(docs: seq<Match>)
    requires DistinctDocs(docs)
    ensures UniqueDocIds(Messages(Build(docs)))
    decreases |docs|
  {
    if docs != [] {
      var n := |docs| - 1;
      var f, m := Build(docs[..n]), docs[n];
      assert docs == docs[..n] + [m];
      DocIdsUnique(docs[..n]);
      DistinctLast(docs[..n], m);
      var l := AddsOneMessage(f, m);
      forall t | t in Messages(f) ensures t.docid != l.docid {
        MessagesAreLabels(f, t);
        assert LabelShape(t, docs[..n]);
      }
    } else {
      assert Messages(Nil) == multiset{};
    }
  }

  // ---- empty containers have docid 0 ----

  ghost predicate EmptyAreZero(f: Forest) {
    match f
    case Nil => true
    case Cons(t, k, r) => (t.msg.None? ==> t.docid == 0) && EmptyAreZero(k) && EmptyAreZero(r)
  }

  lemma EmptyAreZeroBySet(f: Forest)
    ensures EmptyAreZero(f) <==> forall t :: t in Labels(f) && t.msg.None? ==> t.docid == 0
  {
  }

  lemma AppendEmptyAreZero(f: Forest, g: Forest)
    ensures EmptyAreZero(Append(f, g)) <==> EmptyAreZero(f) && EmptyAreZero(g)
  {
  }

  lemma {:induction false} CollapseEmptyAreZero(f: Forest)
    requires EmptyAreZero(f)
    ensures EmptyAreZero(Kept(f)) && EmptyAreZero(KeptRoots(f)) && EmptyAreZero(Promoted(f))
  {
    if f.Cons? {
      CollapseEmptyAreZero(f.rest);
      AppendEmptyAreZero(f.kids, Promoted(f.rest));
    }
  }

  lemma {:induction false} MarkEmptyAreZero(f: Forest)
    requires EmptyAreZero(f)
    ensures EmptyAreZero(Mark(f))
  {
    if f.Cons? {
      MarkEmptyAreZero(f.kids);
      MarkEmptyAreZero(f.rest);
      CollapseEmptyAreZero(Mark(f.kids));
      AppendEmptyAreZero(Kept(Mark(f.kids)), Promoted(Mark(f.kids)));
    }
  }

  lemma {:induction false} FinalEmptyAreZero(docs: seq<Match>, order: seq<Id>, sort: Option<Order>)
    requires DistinctDocs(docs) && Enumerates(order, Ids(Build(docs)))
    ensures EmptyAreZero(FinalForest(docs, order, sort))
  {
    var g := Gather(Build(docs), order).0;
    BuiltForest(docs, order);
    assert Reached(Build(docs), docs);
    EmptyAreZeroBySet(g);
    MarkEmptyAreZero(g);
    CollapseEmptyAreZero(Mark(g));
    AppendEmptyAreZero(KeptRoots(Mark(g)), Promoted(Mark(g)));
    if sort.Some? {
      SortKeepsForest(sort.value, PruneForest(g));
      EmptyAreZeroBySet(PruneForest(g));
      EmptyAreZeroBySet(SortForest(sort.value, PruneForest(g)));
    }
  }
}
