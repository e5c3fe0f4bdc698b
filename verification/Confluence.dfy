/** When the References chains tell one story, step 1 finds exactly that story,
    whatever the order in which the messages arrive. */
module Confluence {
  import opened Options
  import opened Forests
  import opened ForestEdits
  import opened ThreadBuild

  ghost function RefIds(refs: seq<string>): (c: seq<Id>)
    ensures |c| == |refs|
    ensures refs != [] ==> c[|c| - 1] == MsgId(refs[|refs| - 1])
  {
    if refs == [] then [] else [MsgId(refs[0])] + RefIds(refs[1..])
  }

  /** The containers a message names, oldest first, itself last: under its
      Message-ID, or under its path if it has none. */
  ghost function Chain(m: Msg): seq<Id> {
    RefIds(m.refs) + [if m.msgid == None then PathId(m.path) else MsgId(m.msgid.value)]
  }

  /** The parent-child pairs a chain asserts. */
  ghost function Pairs(c: seq<Id>): set<(Id, Id)> {
    if |c| < 2 then {} else {(c[0], c[1])} + Pairs(c[1..])
  }

  ghost function AllPairs(docs: seq<Match>): set<(Id, Id)> {
    set m, e | m in docs && e in Pairs(Chain(m.msg)) :: e
  }

  ghost function AllIds(docs: seq<Match>): set<Id> {
    set m, x | m in docs && x in Chain(m.msg) :: x
  }

  /** The pairs agree with the parent function `par`, and following `par`
      upward never returns: `rank` falls at every step. */
  ghost predicate Agrees(pairs: set<(Id, Id)>, par: map<Id, Id>, rank: map<Id, nat>) {
    forall a, b :: (a, b) in pairs ==>
      b in par && par[b] == a && a in rank && b in rank && rank[a] < rank[b]
  }

  /** No two messages have the same Message-ID. */
  ghost predicate DistinctIds(docs: seq<Match>) {
    forall i, j :: 0 <= i < j < |docs| && docs[i].msg.msgid.Some? ==> docs[i].msg.msgid != docs[j].msg.msgid
  }

  /** The links of a forest, without the parentless containers. */
  ghost function Links(f: Forest): set<(Id, Id)> {
    set e | e in Edges(f, None) && e.0.Some? :: (e.0.value, e.1)
  }

  /** Ranks rise along every path down a forest whose links agree. */
  lemma {:induction false} RankRises(f: Forest, p: Option<Id>, par: map<Id, Id>, rank: map<Id, nat>, x: Id, y: Id)
    requires forall e :: e in Edges(f, p) && e.0.Some? ==>
               e.0.value in rank && e.1 in rank && rank[e.0.value] < rank[e.1]
    requires x in Ids(f) && y in Ids(KidsOf(f, x))
    ensures x in rank && y in rank && rank[x] < rank[y]
  {
    if x == f.top.id {
      RankBelow(f.kids, x, rank, y);
    } else if x in Ids(f.kids) {
      RankRises(f.kids, Some(f.top.id), par, rank, x, y);
    } else {
      RankRises(f.rest, p, par, rank, x, y);
    }
  }

  lemma {:induction false} RankBelow(f: Forest, x: Id, rank: map<Id, nat>, y: Id)
    requires forall e :: e in Edges(f, Some(x)) && e.0.Some? ==>
               e.0.value in rank && e.1 in rank && rank[e.0.value] < rank[e.1]
    requires y in Ids(f)
    ensures x in rank && y in rank && rank[x] < rank[y]
  {
    assert (Some(x), f.top.id) in Edges(f, Some(x));
    if y in Ids(f.kids) {
      RankBelow(f.kids, f.top.id, rank, y);
    } else if y != f.top.id {
      RankBelow(f.rest, x, rank, y);
    }
  }

  /** The heart of the matter: a link that agrees with everything linked so
      far is either there already or is not refused. */
  lemma {:induction false} AgreedLinkIsMade(f: Forest, p: Id, x: Id, par: map<Id, Id>, rank: map<Id, nat>)
    requires NoDup(f) && p in Ids(f) && x in Ids(f)
    requires Agrees(Links(f) + {(p, x)}, par, rank)
    ensures Links(TryLink(f, Some(p), x)) == Links(f) + {(p, x)}
  {
    if x in Tops(f) {
      if p in Ids(TreeOf(f, x)) {
        AgreedIsNotLoop(f, p, x, par, rank);
      } else {
        LinkEdges(f, p, x);
      }
    } else {
      var q := EdgeTotal(f, None, x);
      TopsByEdge(f, None, x);
      assert (q.value, x) in Links(f);
    }
  }

  lemma {:induction false} AgreedIsNotLoop(f: Forest, p: Id, x: Id, par: map<Id, Id>, rank: map<Id, nat>)
    requires NoDup(f) && p in Ids(f) && x in Ids(f)
    requires Agrees(Links(f) + {(p, x)}, par, rank)
    ensures p !in Ids(TreeOf(f, x))
  {
    assert (p, x) in Links(f) + {(p, x)};
    if p in Ids(KidsOf(f, x)) {
      forall e | e in Edges(f, None) && e.0.Some?
        ensures e.0.value in rank && e.1 in rank && rank[e.0.value] < rank[e.1]
      {
        assert (e.0.value, e.1) in Links(f);
      }
      RankRises(f, None, par, rank, x, p);
    }
  }

  ghost function Named(prev: Option<Id>, refs: seq<string>): seq<Id> {
    (if prev.Some? then [prev.value] else []) + RefIds(refs)
  }

  lemma {:induction false} EnsureLinks(f: Forest, x: Id)
    requires NoDup(f)
    ensures Links(EnsureId(f, x)) == Links(f)
  {
    EnsureFacts(f, x);
  }

  lemma {:induction false} FoldPairs(f: Forest, prev: Option<Id>, refs: seq<string>, par: map<Id, Id>,
                              rank: map<Id, nat>)
    requires NoDup(f) && (prev.Some? ==> prev.value in Ids(f))
    requires Agrees(Links(f) + Pairs(Named(prev, refs)), par, rank)
    ensures Links(FoldRefs(f, prev, refs).0) == Links(f) + Pairs(Named(prev, refs))
    decreases |refs|
  {
    if refs != [] {
      var x := MsgId(refs[0]);
      EnsureFacts(f, x);
      EnsureLinks(f, x);
      TryLinkFacts(EnsureId(f, x), prev, x);
      FirstPair(f, prev, refs, par, rank);
      FoldPairs(TryLink(EnsureId(f, x), prev, x), Some(x), refs[1..], par, rank);
    }
  }

  lemma {:induction false} FirstPair(f: Forest, prev: Option<Id>, refs: seq<string>, par: map<Id, Id>,
                              rank: map<Id, nat>)
    requires NoDup(f) && (prev.Some? ==> prev.value in Ids(f)) && refs != []
    requires Agrees(Links(f) + Pairs(Named(prev, refs)), par, rank)
    ensures var x := MsgId(refs[0]);
            NoDup(EnsureId(f, x)) && x in Ids(EnsureId(f, x)) && (prev.Some? ==> prev.value in Ids(EnsureId(f, x)))
            && Links(TryLink(EnsureId(f, x), prev, x)) + Pairs(Named(Some(x), refs[1..]))
               == Links(f) + Pairs(Named(prev, refs))
  {
    var x := MsgId(refs[0]);
    EnsureFacts(f, x);
    EnsureLinks(f, x);
    assert Named(Some(x), refs[1..]) == RefIds(refs);
    if prev.Some? {
      assert Named(prev, refs)[1..] == RefIds(refs);
      AgreedLinkIsMade(EnsureId(f, x), prev.value, x, par, rank);
    } else {
      assert Named(prev, refs) == RefIds(refs);
    }
  }

  lemma {:induction false} FoldIds(f: Forest, prev: Option<Id>, refs: seq<string>)
    requires NoDup(f) && (prev.Some? ==> prev.value in Ids(f))
    ensures Ids(FoldRefs(f, prev, refs).0) == Ids(f) + (set x | x in RefIds(refs))
    decreases |refs|
  {
    if refs != [] {
      var x := MsgId(refs[0]);
      EnsureFacts(f, x);
      TryLinkFacts(EnsureId(f, x), prev, x);
      FoldIds(TryLink(EnsureId(f, x), prev, x), Some(x), refs[1..]);
    }
  }

  lemma {:induction false} PairsSnoc(c: seq<Id>, b: Id)
    requires c != []
    ensures Pairs(c + [b]) == Pairs(c) + {(c[|c| - 1], b)}
    decreases |c|
  {
    if |c| == 1 {
      assert (c + [b])[1..] == [b];
    } else {
      assert (c + [b])[1..] == c[1..] + [b];
      PairsSnoc(c[1..], b);
    }
  }

  lemma {:induction false} HandlePairs(f: Forest, m: Msg, par: map<Id, Id>, rank: map<Id, nat>)
    requires NoDup(f) && OwnId(m) in Ids(f)
    requires Agrees(Links(f) + Pairs(Chain(m)), par, rank)
    ensures Links(HandleReferences(f, OwnId(m), m.refs)) == Links(f) + Pairs(Chain(m))
  {
    if m.refs != [] {
      var c := RefIds(m.refs);
      PairsSnoc(c, OwnId(m));
      assert Named(None, m.refs) == c;
      FoldPairs(f, None, m.refs, par, rank);
      var r := FoldRefs(f, None, m.refs);
      AgreedLinkIsMade(r.0, r.1.value, OwnId(m), par, rank);
    }
  }

  lemma {:induction false} HandleIds(f: Forest, m: Msg)
    requires NoDup(f) && OwnId(m) in Ids(f)
    ensures Ids(HandleReferences(f, OwnId(m), m.refs)) == Ids(f) + (set x | x in Chain(m))
  {
    if m.refs != [] {
      FoldIds(f, None, m.refs);
      var r := FoldRefs(f, None, m.refs);
      TryLinkFacts(r.0, r.1, OwnId(m));
    }
  }

  lemma {:induction false} NotDuplicate(f: Forest, docs: seq<Match>, m: Match)
    requires Reached(f, docs) && DistinctDocs(docs + [m]) && DistinctIds(docs + [m])
    ensures !IsDuplicate(f, m)
  {
    DistinctLast(docs, m);
    if IsDuplicate(f, m) {
      LabelsIds(f);
      var t := LabelOf(f, OwnId(m.msg));
      assert LabelShape(t, docs);
      var i :| 0 <= i < |docs| && docs[i] == Match(t.docid, t.msg.value);
      OwnIdsDiffer(docs, m, i);
    }
  }

  lemma {:induction false} OwnIdsDiffer(docs: seq<Match>, m: Match, i: nat)
    requires DistinctDocs(docs + [m]) && DistinctIds(docs + [m]) && i < |docs|
    ensures OwnId(docs[i].msg) != OwnId(m.msg)
  {
    var all := docs + [m];
    assert all[i] == docs[i] && all[|docs|] == m;
  }

  /** With distinct Message-IDs and chains that agree on one acyclic parent
      function, the links after step 1 are the pairs the chains mention, no
      more and no fewer, and the containers are the ids they name. */
  lemma {:induction false} BuildFindsTheStory(docs: seq<Match>, par: map<Id, Id>, rank: map<Id, nat>)
    requires DistinctDocs(docs) && DistinctIds(docs) && Agrees(AllPairs(docs), par, rank)
    ensures Links(Build(docs)) == AllPairs(docs)
    ensures Ids(Build(docs)) == AllIds(docs)
    decreases |docs|
  {
    if docs != [] {
      var n := |docs| - 1;
      var ds, m := docs[..n], docs[n];
      assert docs == ds + [m];
      SnocPairs(ds, m);
      FewerAgree(ds, m);
      BuildFindsTheStory(ds, par, rank);
      AddPairs(Build(ds), ds, m, par, rank);
    }
  }

  lemma FewerAgree(ds: seq<Match>, m: Match)
    ensures DistinctDocs(ds + [m]) ==> DistinctDocs(ds)
    ensures DistinctIds(ds + [m]) ==> DistinctIds(ds)
  {
    assert (ds + [m])[..|ds|] == ds;
    assert forall i :: 0 <= i < |ds| ==> (ds + [m])[i] == ds[i];
  }

  lemma {:induction false} AddPairs(f: Forest, ds: seq<Match>, m: Match, par: map<Id, Id>, rank: map<Id, nat>)
    requires Reached(f, ds) && DistinctDocs(ds + [m]) && DistinctIds(ds + [m])
    requires Agrees(Links(f) + Pairs(Chain(m.msg)), par, rank)
    ensures Links(AddMessage(f, m)) == Links(f) + Pairs(Chain(m.msg))
    ensures Ids(AddMessage(f, m)) == Ids(f) + (set x | x in Chain(m.msg))
  {
    NotDuplicate(f, ds, m);
    StoreLinks(f, m);
    HandlePairs(Store(f, m), m.msg, par, rank);
    HandleIds(Store(f, m), m.msg);
    assert Chain(m.msg)[|m.msg.refs|] == OwnId(m.msg);
  }

  lemma {:induction false} SnocPairs(ds: seq<Match>, m: Match)
    ensures AllPairs(ds + [m]) == AllPairs(ds) + Pairs(Chain(m.msg))
    ensures AllIds(ds + [m]) == AllIds(ds) + (set x | x in Chain(m.msg))
    ensures OwnId(m.msg) in Chain(m.msg)
  {
    assert Chain(m.msg)[|m.msg.refs|] == OwnId(m.msg);
  }

  lemma {:induction false} StoreLinks(f: Forest, m: Match)
    requires NoDup(f) && !IsDuplicate(f, m)
    ensures Links(Store(f, m)) == Links(f) && Ids(Store(f, m)) == Ids(f) + {OwnId(m.msg)}
  {
    StoreGrows(f, m);
  }

  /** Order independence: any two arrival orders of the same documents give
      the same containers and the same parent relation. */
  lemma {:induction false} ArrivalOrderIsIrrelevant(docs: seq<Match>, docs': seq<Match>, par: map<Id, Id>,
                              rank: map<Id, nat>)
    requires DistinctDocs(docs) && DistinctIds(docs) && Agrees(AllPairs(docs), par, rank)
    requires DistinctDocs(docs') && DistinctIds(docs') && multiset(docs) == multiset(docs')
    ensures Links(Build(docs)) == Links(Build(docs')) && Ids(Build(docs)) == Ids(Build(docs'))
  {
    assert forall m :: m in docs <==> m in multiset(docs);
    assert forall m :: m in docs' <==> m in multiset(docs');
    assert AllPairs(docs) == AllPairs(docs');
    assert AllIds(docs) == AllIds(docs');
    BuildFindsTheStory(docs, par, rank);
    BuildFindsTheStory(docs', par, rank);
  }
}
