/** What the thread-info table means: the statements a user of the thread paths
    relies on. */
module ThreadOrder {
  import opened Options
  import opened Forests
  import opened ThreadBuild
  import opened RootSet
  import opened Prune
  import opened Sort
  import opened ThreadKeys
  import opened KeyOrder
  import opened ThreadPaths
  import opened Threading

  /** f holds exactly the documents docs, each as one message. */
  ghost predicate HoldsDocs(f: Forest, docs: seq<Match>) {
    DistinctDocs(docs) && docs != [] && NoDup(f) && PrunedRoots(f) && EmptyAreZero(f)
    && UniqueDocIds(Messages(f)) && |Messages(f)| == |docs|
    && (forall t :: t in Labels(f) && t.msg.Some? ==> Match(t.docid, t.msg.value) in docs)
    && (forall m :: m in docs ==> Stores(f, m))
  }

  lemma {:induction false} FinalHoldsDocs(docs: seq<Match>, order: seq<Id>, sort: Option<Order>)
    requires DistinctDocs(docs) && docs != [] && Enumerates(order, Ids(Build(docs)))
    ensures HoldsDocs(FinalForest(docs, order, sort), docs)
  {
    FinalForestFacts(docs, order, sort);
    FinalDocs(docs, order, sort);
    FinalEmptyAreZero(docs, order, sort);
    DocIdsUnique(docs);
  }

  lemma {:induction false} EntriesDistinct(f: Forest, pfx: seq<nat>, i: nat, parent: Option<Label>)
    requires NoDup(f)
    ensures forall x, y :: 0 <= x < y < |Entries(f, pfx, i, parent)| ==>
              Entries(f, pfx, i, parent)[x].node.id != Entries(f, pfx, i, parent)[y].node.id
    decreases f
  {
    if f.Cons? {
      var first := [Entry(f.top, pfx + [i], Props(f.top, f.kids, parent, i))];
      var ks, rs := Entries(f.kids, pfx + [i], 0, Some(f.top)), Entries(f.rest, pfx, i + 1, parent);
      EntriesDistinct(f.kids, pfx + [i], 0, Some(f.top));
      EntriesDistinct(f.rest, pfx, i + 1, parent);
      EntriesIds(f.kids, pfx + [i], 0, Some(f.top));
      EntriesIds(f.rest, pfx, i + 1, parent);
      DistinctConcat(first, ks);
      DistinctConcat(first + ks, rs);
    }
  }

  lemma {:induction false} DistinctConcat(xs: seq<Entry>, ys: seq<Entry>)
    requires forall x, y :: 0 <= x < y < |xs| ==> xs[x].node.id != xs[y].node.id
    requires forall x, y :: 0 <= x < y < |ys| ==> ys[x].node.id != ys[y].node.id
    requires forall a, b :: a in xs && b in ys ==> a.node.id != b.node.id
    ensures forall x, y :: 0 <= x < y < |xs + ys| ==> (xs + ys)[x].node.id != (xs + ys)[y].node.id
  {
  }

  /** The docid of a message entry belongs to no other entry. */
  lemma {:induction false} OwnDocId(f: Forest, docs: seq<Match>, i: nat, j: nat)
    requires HoldsDocs(f, docs) && i < |AllEntries(f)| && j < |AllEntries(f)| && i != j
    requires AllEntries(f)[i].node.msg.Some?
    ensures AllEntries(f)[j].node.docid != AllEntries(f)[i].node.docid
  {
    var es := AllEntries(f);
    var t, u := es[i].node, es[j].node;
    EntriesDistinct(f, [], 0, None);
    EntriesIds(f, [], 0, None);
    assert es[i] in es && es[j] in es;
    MessagesAreLabels(f, t);
    MessagesAreLabels(f, u);
    EmptyAreZeroBySet(f);
    var n :| 0 <= n < |docs| && docs[n] == Match(t.docid, t.msg.value);
  }

  /** The table holds what the walk reported for each message. */
  lemma {:induction false} TableFinds(f: Forest, docs: seq<Match>, i: nat)
    requires HoldsDocs(f, docs) && i < |AllEntries(f)| && AllEntries(f)[i].node.msg.Some?
    ensures var e := AllEntries(f)[i];
            e.node.docid in ThreadTable(f, |docs|) && ThreadTable(f, |docs|)[e.node.docid] == Info(e, DigitNum(|docs|))
  {
    var es := AllEntries(f);
    forall j | 0 <= j < |es| && j != i ensures es[j].node.docid != es[i].node.docid {
      OwnDocId(f, docs, i, j);
    }
    TabulateFinds(map[], es, DigitNum(|docs|), i);
  }

  /** The index of a document in the walk. */
  lemma {:induction false} DocIndex(f: Forest, docs: seq<Match>, m: Match) returns (i: nat)
    requires HoldsDocs(f, docs) && m in docs
    ensures i < |AllEntries(f)| && AllEntries(f)[i].node.msg == Some(m.msg) && AllEntries(f)[i].node.docid == m.docid
  {
    assert Stores(f, m);
    var t :| t in Labels(f) && t.msg == Some(m.msg) && t.docid == m.docid;
    EntriesIds(f, [], 0, None);
    var e :| e in Entries(f, [], 0, None) && e.node == t;
    i :| 0 <= i < |AllEntries(f)| && AllEntries(f)[i] == e;
  }

  /** Every document has a path, and nothing else has, save that docid 0 may
      stand for the empty containers. */
  lemma {:induction false} TableCoversDocs(f: Forest, docs: seq<Match>)
    requires HoldsDocs(f, docs)
    ensures forall m :: m in docs ==> m.docid in ThreadTable(f, |docs|)
    ensures forall d :: d in ThreadTable(f, |docs|) ==> d == 0 || exists m :: m in docs && m.docid == d
  {
    var es := AllEntries(f);
    TabulateKeys(map[], es, DigitNum(|docs|));
    forall m | m in docs ensures m.docid in ThreadTable(f, |docs|) {
      var i := DocIndex(f, docs, m);
      TableFinds(f, docs, i);
    }
    forall d | d in ThreadTable(f, |docs|) ensures d == 0 || exists m :: m in docs && m.docid == d {
      var e :| e in es && e.node.docid == d;
      EntriesIds(f, [], 0, None);
      EmptyAreZeroBySet(f);
      if d != 0 {
        assert Match(e.node.docid, e.node.msg.value) in docs;
      }
    }
  }

  lemma {:induction false} MessageFits(f: Forest, docs: seq<Match>, e: Entry)
    requires HoldsDocs(f, docs) && ShellsLast(f) && e in AllEntries(f) && e.node.msg.Some?
    ensures e.pos != [] && Fits(e.pos, DigitNum(|docs|))
  {
    MessagePositionBounded(f, 0, |docs|, e);
  }

  ghost function PathOf(f: Forest, docs: seq<Match>, docid: nat): string
    requires docs != []
  {
    if docid in ThreadTable(f, |docs|) then ThreadTable(f, |docs|)[docid].threadpath else ""
  }

  lemma {:induction false} LabelIndex(f: Forest, t: Label) returns (i: nat)
    requires t in Labels(f)
    ensures i < |AllEntries(f)| && AllEntries(f)[i].node == t
  {
    EntriesIds(f, [], 0, None);
    var e :| e in Entries(f, [], 0, None) && e.node == t;
    i :| 0 <= i < |AllEntries(f)| && AllEntries(f)[i] == e;
  }

  /** One message's path starts with another's exactly when it is a descendant
      of the other in the final forest. */
  lemma {:induction false} PathExtendsIffDescendant(f: Forest, docs: seq<Match>, t: Label, u: Label)
    requires HoldsDocs(f, docs) && ShellsLast(f)
    requires t in Labels(f) && u in Labels(f) && t.msg.Some? && u.msg.Some?
    ensures t.id in Ids(f)
    ensures PathOf(f, docs, t.docid) < PathOf(f, docs, u.docid) <==> u.id in Ids(KidsOf(f, t.id))
  {
    var es, d := AllEntries(f), DigitNum(|docs|);
    var i := LabelIndex(f, t);
    var j := LabelIndex(f, u);
    var x, y := es[i], es[j];
    assert x in es && y in es;
    TableFinds(f, docs, i);
    TableFinds(f, docs, j);
    MessageFits(f, docs, x);
    MessageFits(f, docs, y);
    KeysEmbedPositions(x.pos, y.pos, d);
    KeysEmbedPositions(y.pos, x.pos, d);
    PrefixIsAncestor(f, [], 0, None, x, y);
  }

  /** Shells last or not, it does exactly when it is a descendant, or when its
      position only looks like one. */
  lemma {:induction false} PathExtendsByPosition(f: Forest, docs: seq<Match>, i: nat, j: nat)
    requires HoldsDocs(f, docs) && i < |AllEntries(f)| && j < |AllEntries(f)| && i != j
    requires AllEntries(f)[i].node.msg.Some? && AllEntries(f)[j].node.msg.Some?
    ensures var x, y := AllEntries(f)[i], AllEntries(f)[j];
            && x.node.id in Ids(f)
            && (PathOf(f, docs, x.node.docid) <= PathOf(f, docs, y.node.docid)
                <==> y.node.id in Ids(KidsOf(f, x.node.id)) || LooksAbove(x.pos, y.pos, DigitNum(|docs|)))
  {
    var x, y := AllEntries(f)[i], AllEntries(f)[j];
    assert x in AllEntries(f) && y in AllEntries(f);
    TableFinds(f, docs, i);
    TableFinds(f, docs, j);
    PrefixIsAncestor(f, [], 0, None, x, y);
    PositionsDiffer(f, i, j);
    KeyPrefixIff(x.pos, y.pos, DigitNum(|docs|));
  }

  lemma {:induction false} PositionsDiffer(f: Forest, i: nat, j: nat)
    requires i < |AllEntries(f)| && j < |AllEntries(f)| && i != j
    ensures AllEntries(f)[i].pos != AllEntries(f)[j].pos
  {
    var a, b := AllEntries(f)[i].pos, AllEntries(f)[j].pos;
    EntriesIncrease(f, [], 0, None);
    NotBelowItself(a);
    if i < j { assert PosLess(a, b); } else { assert PosLess(b, a); }
  }

  lemma NotBelowItself(a: seq<nat>)
    ensures !PosLess(a, a)
  {
  }

  /** The reported level is the depth in the final forest. */
  lemma {:induction false} LevelIsForestDepth(f: Forest, docs: seq<Match>, t: Label)
    requires HoldsDocs(f, docs) && t in Labels(f) && t.msg.Some?
    ensures t.docid in ThreadTable(f, |docs|) && t.id in Ids(f)
    ensures ThreadTable(f, |docs|)[t.docid].level == Depth(f, t.id)
  {
    var i := LabelIndex(f, t);
    TableFinds(f, docs, i);
    var e := AllEntries(f)[i];
    assert e in AllEntries(f);
    EntryDepth(f, [], 0, None, e);
  }

  lemma {:induction false} EntryDepth(f: Forest, pfx: seq<nat>, i: nat, parent: Option<Label>, e: Entry)
    requires NoDup(f) && e in Entries(f, pfx, i, parent)
    ensures e.node.id in Ids(f) && |e.pos| == |pfx| + 1 + Depth(f, e.node.id)
    decreases f
  {
    var ks, rs := Entries(f.kids, pfx + [i], 0, Some(f.top)), Entries(f.rest, pfx, i + 1, parent);
    assert Entries(f, pfx, i, parent) == TreeEntries(f.top, f.kids, pfx, i, parent) + rs;
    if e in rs {
      EntryDepth(f.rest, pfx, i + 1, parent, e);
    } else if e in ks {
      EntryDepth(f.kids, pfx + [i], 0, Some(f.top), e);
    }
  }

  /** Of two messages, the one met first in the preorder walk has the smaller
      path string if and only if their positions ascend as keys; otherwise it
      has the larger one. */
  lemma {:induction false} PathOrderIff(f: Forest, docs: seq<Match>, i: nat, j: nat)
    requires HoldsDocs(f, docs) && i < j < |AllEntries(f)|
    requires AllEntries(f)[i].node.msg.Some? && AllEntries(f)[j].node.msg.Some?
    ensures var x, y := AllEntries(f)[i], AllEntries(f)[j];
            if KeysAscend(x.pos, y.pos, DigitNum(|docs|))
            then StrLess(PathOf(f, docs, x.node.docid), PathOf(f, docs, y.node.docid))
            else StrLess(PathOf(f, docs, y.node.docid), PathOf(f, docs, x.node.docid))
  {
    var x, y := AllEntries(f)[i], AllEntries(f)[j];
    assert x in AllEntries(f) && y in AllEntries(f);
    TableFinds(f, docs, i);
    TableFinds(f, docs, j);
    EntriesIncrease(f, [], 0, None);
    KeyOrderIff(x.pos, y.pos, DigitNum(|docs|));
  }

  /** With the shells at the end of the root list positions always ascend. */
  lemma {:induction false} PathOrderIsPreorder(f: Forest, docs: seq<Match>, i: nat, j: nat)
    requires HoldsDocs(f, docs) && ShellsLast(f) && i < j < |AllEntries(f)|
    requires AllEntries(f)[i].node.msg.Some? && AllEntries(f)[j].node.msg.Some?
    ensures KeysAscend(AllEntries(f)[i].pos, AllEntries(f)[j].pos, DigitNum(|docs|))
    ensures StrLess(PathOf(f, docs, AllEntries(f)[i].node.docid), PathOf(f, docs, AllEntries(f)[j].node.docid))
  {
    var x, y := AllEntries(f)[i], AllEntries(f)[j];
    assert x in AllEntries(f) && y in AllEntries(f);
    MessageFits(f, docs, x);
    MessageFits(f, docs, y);
    EntriesIncrease(f, [], 0, None);
    FittingKeysAscend(x.pos, y.pos, DigitNum(|docs|));
    PathOrderIff(f, docs, i, j);
  }

  /** The messages of the walk ascend as keys in the width for n documents. */
  ghost predicate WalkAscends(f: Forest, n: nat)
    requires n > 0
  {
    forall i, j :: 0 <= i < j < |AllEntries(f)|
                   && AllEntries(f)[i].node.msg.Some? && AllEntries(f)[j].node.msg.Some? ==>
      KeysAscend(AllEntries(f)[i].pos, AllEntries(f)[j].pos, DigitNum(n))
  }

  lemma {:induction false} ShellsLastAscends(f: Forest, docs: seq<Match>)
    requires HoldsDocs(f, docs) && ShellsLast(f)
    ensures WalkAscends(f, |docs|)
  {
    forall i, j | 0 <= i < j < |AllEntries(f)| && AllEntries(f)[i].node.msg.Some? && AllEntries(f)[j].node.msg.Some?
      ensures KeysAscend(AllEntries(f)[i].pos, AllEntries(f)[j].pos, DigitNum(|docs|))
    {
      PathOrderIsPreorder(f, docs, i, j);
    }
  }

  // ---- the list of documents in preorder ----

  ghost function MessageDocIds(es: seq<Entry>): seq<nat> {
    if es == [] then []
    else (if es[0].node.msg.Some? then [es[0].node.docid] else []) + MessageDocIds(es[1..])
  }

  /** The documents as a reader of the threads meets them. */
  ghost function PreorderDocIds(f: Forest): seq<nat> {
    MessageDocIds(AllEntries(f))
  }

  /** The k-th document of the walk is an entry of the walk, later ones later. */
  lemma {:induction false} MessageIndex(es: seq<Entry>, k: nat) returns (i: nat)
    requires k < |MessageDocIds(es)|
    ensures i < |es| && es[i].node.msg.Some? && es[i].node.docid == MessageDocIds(es)[k]
    ensures k == |MessageDocIds(es[..i])|
    decreases |es|
  {
    if es[0].node.msg.Some? && k == 0 {
      i := 0;
    } else {
      i := MessageIndex(es[1..], if es[0].node.msg.Some? then k - 1 else k);
      i := i + 1;
      assert es[..i][1..] == es[1..][..i - 1];
    }
  }

  lemma {:induction false} MessageCountMonotone(es: seq<Entry>, i: nat, j: nat)
    requires i <= j <= |es|
    ensures |MessageDocIds(es[..i])| <= |MessageDocIds(es[..j])|
    decreases |es|
  {
    if i > 0 {
      assert es[..i][1..] == es[1..][..i - 1] && es[..j][1..] == es[1..][..j - 1];
      MessageCountMonotone(es[1..], i - 1, j - 1);
    }
  }

  lemma {:induction false} MessageListed(es: seq<Entry>, i: nat)
    requires i < |es| && es[i].node.msg.Some?
    ensures |MessageDocIds(es[..i])| < |MessageDocIds(es)|
    ensures MessageDocIds(es)[|MessageDocIds(es[..i])|] == es[i].node.docid
    decreases |es|
  {
    if i > 0 {
      MessageListed(es[1..], i - 1);
      assert es[..i][1..] == es[1..][..i - 1];
    }
  }

  lemma {:induction false} LaterListedLater(es: seq<Entry>, i: nat, j: nat)
    requires i < j <= |es| && es[i].node.msg.Some?
    ensures |MessageDocIds(es[..i])| < |MessageDocIds(es[..j])|
  {
    MessageListed(es[..j], i);
    assert es[..j][..i] == es[..i];
  }

  ghost predicate Ascending(f: Forest, docs: seq<Match>, ids: seq<nat>)
    requires docs != []
  {
    forall a, b :: 0 <= a < b < |ids| ==> StrLess(PathOf(f, docs, ids[a]), PathOf(f, docs, ids[b]))
  }

  lemma {:induction false} PreorderAscends(f: Forest, docs: seq<Match>)
    requires HoldsDocs(f, docs) && WalkAscends(f, |docs|)
    ensures Ascending(f, docs, PreorderDocIds(f))
  {
    var es, ids := AllEntries(f), PreorderDocIds(f);
    forall a, b | 0 <= a < b < |ids| ensures StrLess(PathOf(f, docs, ids[a]), PathOf(f, docs, ids[b])) {
      var i := MessageIndex(es, a);
      var j := MessageIndex(es, b);
      if j <= i { MessageCountMonotone(es, j, i); }
      PathOrderIff(f, docs, i, j);
    }
  }

  /** The preorder walk lists the documents, each once. */
  lemma {:induction false} PreorderListsDocs(f: Forest, docs: seq<Match>)
    requires HoldsDocs(f, docs)
    ensures forall d :: d in PreorderDocIds(f) <==> exists m :: m in docs && m.docid == d
  {
    var es, ids := AllEntries(f), PreorderDocIds(f);
    EntriesIds(f, [], 0, None);
    forall d ensures d in ids <==> exists m :: m in docs && m.docid == d {
      if d in ids {
        var k :| 0 <= k < |ids| && ids[k] == d;
        var i := MessageIndex(es, k);
        assert es[i] in es;
        assert Match(es[i].node.docid, es[i].node.msg.value) in docs;
      }
      if exists m :: m in docs && m.docid == d {
        var m :| m in docs && m.docid == d;
        var i := DocIndex(f, docs, m);
        MessageListed(es, i);
      }
    }
  }
}
