/** Where duplicates end up: under the message whose Message-ID they share. */
module Duplicates {
  import opened Options
  import opened Forests
  import opened ForestEdits
  import opened ThreadBuild
  import opened RootSet
  import opened Sort
  import opened Threading
  import opened Holders

  /** t is a child of the container of its Message-ID, which holds another message. */
  ghost predicate Placed(f: Forest, t: Label)
    requires t.msg.Some?
  {
    (Some(OwnId(t.msg.value)), t.id) in Edges(f, None)
    && exists u :: u in Messages(f) && u.id == OwnId(t.msg.value) && u.msg.Some?
  }

  ghost predicate AllPlaced(f: Forest) {
    forall t :: t in Messages(f) && t.msg.Some? && Dup in t.flags ==> Placed(f, t)
  }

  lemma {:induction false} StaysPlaced(f: Forest, g: Forest, t: Label)
    requires t.msg.Some? && Placed(f, t) && Grows(f, g) && Messages(f) <= Messages(g)
    ensures Placed(g, t)
  {
  }

  lemma {:induction false} NewDuplicatePlaced(f: Forest, m: Match, l: Label)
    requires NoDup(f) && IsDuplicate(f, m) && Messages(f) <= Messages(AddMessage(f, m))
    requires l.id == PathId(m.msg.path) && l.msg == Some(m.msg)
    ensures Placed(AddMessage(f, m), l)
  {
    var x := OwnId(m.msg);
    GraftEdges(f, x, Leaf(Label(PathId(m.msg.path), Some(m.msg), m.docid, {Dup})), None);
    LabelsIds(f);
    MessagesAreLabels(f, LabelOf(f, x));
    assert LabelOf(f, x) in Messages(AddMessage(f, m));
  }

  lemma {:induction false} NewMessageUnmarked(f: Forest, docs: seq<Match>, x: Id)
    requires Reached(f, docs) && x in Ids(f) && LabelOf(f, x).msg.None?
    ensures LabelOf(f, x).flags == {}
  {
    LabelsIds(f);
    assert LabelShape(LabelOf(f, x), docs);
  }

  lemma {:induction false} BuildPlaces(docs: seq<Match>)
    requires DistinctDocs(docs)
    ensures AllPlaced(Build(docs))
    decreases |docs|
  {
    if docs != [] {
      var n := |docs| - 1;
      var f, m := Build(docs[..n]), docs[n];
      assert docs == docs[..n] + [m];
      BuildPlaces(docs[..n]);
      AddMessageReached(f, docs[..n], m);
      var l := AddsOneMessage(f, m);
      forall t | t in Messages(Build(docs)) && t.msg.Some? && Dup in t.flags ensures Placed(Build(docs), t) {
        if t in Messages(f) {
          StaysPlaced(f, AddMessage(f, m), t);
        } else if IsDuplicate(f, m) {
          NewDuplicatePlaced(f, m, l);
        } else if l.id in Ids(f) {
          NewMessageUnmarked(f, docs[..n], l.id);
        }
      }
    } else {
      assert Messages(Nil) == multiset{};
    }
  }

  lemma {:induction false} TopIsThread(f: Forest, above: Option<Id>, x: Id)
    requires NoDup(f) && x in Tops(f) && x in Ids(f) && LabelOf(f, x).msg.Some?
    ensures (above, x) in Threads(f, above)
  {
    if x != f.top.id {
      TopsInIds(f.rest);
      TopIsThread(f.rest, above, x);
    }
  }

  /** A message whose parent carries a message has it as nearest message. */
  lemma {:induction false} EdgeIsThread(f: Forest, parent: Option<Id>, above: Option<Id>, p: Id, x: Id)
    requires NoDup(f) && (parent.Some? ==> parent.value !in Ids(f)) && p in Ids(f) && x in Ids(f)
    requires (Some(p), x) in Edges(f, parent) && LabelOf(f, p).msg.Some? && LabelOf(f, x).msg.Some?
    ensures (Some(p), x) in Threads(f, above)
  {
    EdgesIds(f.kids, Some(f.top.id));
    EdgesIds(f.rest, parent);
    var t := f.top;
    if p == t.id {
      KidsByEdge(f, parent, p, x);
      TopsInIds(f.kids);
      TopIsThread(f.kids, Some(t.id), x);
    } else if p in Ids(f.kids) {
      EdgeIsThread(f.kids, Some(t.id), if t.msg.Some? then Some(t.id) else above, p, x);
    } else {
      EdgeIsThread(f.rest, parent, above, p, x);
    }
  }

  lemma {:induction false} PlacedIsThread(docs: seq<Match>, t: Label)
    requires DistinctDocs(docs) && t in Messages(Build(docs)) && t.msg.Some? && Dup in t.flags
    ensures (Some(OwnId(t.msg.value)), t.id) in Threads(Build(docs), None)
  {
    var b := Build(docs);
    BuildPlaces(docs);
    MessagesAreLabels(b, t);
    var u :| u in Messages(b) && u.id == OwnId(t.msg.value) && u.msg.Some?;
    MessagesAreLabels(b, u);
    LabelsIds(b);
    LabelUnique(b, t);
    LabelUnique(b, u);
    EdgeIsThread(b, None, None, u.id, t.id);
  }

  /** In the final forest, for every document whose Message-ID came before, the
      nearest message above it is the first one with that Message-ID, whatever
      was pruned and sorted. */
  lemma {:induction false} DuplicatesFollowTheirMessage(docs: seq<Match>, order: seq<Id>, sort: Option<Order>, i: nat)
    returns (j: nat)
    requires DistinctDocs(docs) && Enumerates(order, Ids(Build(docs))) && i < |docs|
    requires CameBefore(docs, i)
    ensures j < i && docs[j].msg.msgid == docs[i].msg.msgid && !CameBefore(docs, j)
    ensures var f, s := FinalForest(docs, order, sort), docs[i].msg.msgid.value;
            && (Some(MsgId(s)), PathId(docs[i].msg.path)) in Threads(f, None)
            && Label(MsgId(s), Some(docs[j].msg), docs[j].docid, {}) in Labels(f)
            && Label(PathId(docs[i].msg.path), Some(docs[i].msg), docs[i].docid, {Dup}) in Labels(f)
  {
    j := FirstWith(docs, i);
    BuildHolds(docs);
    PlacedIsThread(docs, Holder(docs, i));
    FinalForestFacts(docs, order, sort);
    FinalHolders(docs, order, sort, i);
    FinalHolders(docs, order, sort, j);
  }
}
