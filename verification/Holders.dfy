/** Which container holds which message, said of Message-IDs and paths alone. */
module Holders {
  import opened Options
  import opened Forests
  import opened ThreadBuild
  import opened RootSet
  import opened Sort
  import opened Threading

  /** An earlier document has the same Message-ID. */
  ghost predicate CameBefore(docs: seq<Match>, i: nat)
    requires i < |docs|
  {
    docs[i].msg.msgid.Some? && exists j :: 0 <= j < i && docs[j].msg.msgid == docs[i].msg.msgid
  }

  /** The container of the i-th document: the first message with a Message-ID
      is under that id; one without, and every later one, under its path. */
  ghost function Holder(docs: seq<Match>, i: nat): Label
    requires i < |docs|
  {
    var m := docs[i];
    if CameBefore(docs, i) then Label(PathId(m.msg.path), Some(m.msg), m.docid, {Dup})
    else if m.msg.msgid == None then Label(PathId(m.msg.path), Some(m.msg), m.docid, {})
    else Label(MsgId(m.msg.msgid.value), Some(m.msg), m.docid, {})
  }

  ghost predicate AllHeld(f: Forest, docs: seq<Match>) {
    forall i :: 0 <= i < |docs| ==> Holder(docs, i) in Messages(f)
  }

  lemma {:induction false} HolderOfFront(docs: seq<Match>, n: nat, i: nat)
    requires i < n <= |docs|
    ensures Holder(docs[..n], i) == Holder(docs, i)
  {
    var ds := docs[..n];
    assert ds[i] == docs[i];
    assert forall j :: 0 <= j < i ==> ds[j] == docs[j];
  }

  /** A message is a duplicate exactly when its Message-ID came before. */
  lemma {:induction false} DuplicateIffCameBefore(f: Forest, docs: seq<Match>, n: nat)
    requires DistinctDocs(docs) && n < |docs| && Reached(f, docs[..n]) && AllHeld(f, docs[..n])
    ensures IsDuplicate(f, docs[n]) <==> CameBefore(docs, n)
  {
    var ds, m := docs[..n], docs[n];
    var x := OwnId(m.msg);
    LabelsIds(f);
    if CameBefore(docs, n) {
      var j := FirstWith(docs, n);
      HolderOfFront(docs, n, j);
      MessagesAreLabels(f, Holder(ds, j));
      LabelUnique(f, Holder(ds, j));
    }
    if IsDuplicate(f, m) {
      var t := LabelOf(f, x);
      assert LabelShape(t, ds);
      var j :| 0 <= j < n && ds[j] == Match(t.docid, t.msg.value);
      assert docs[j] == ds[j];
    }
  }

  lemma {:induction false} FirstWith(docs: seq<Match>, i: nat) returns (j: nat)
    requires i < |docs| && CameBefore(docs, i)
    ensures j < i && docs[j].msg.msgid == docs[i].msg.msgid && !CameBefore(docs, j)
    decreases i
  {
    j :| 0 <= j < i && docs[j].msg.msgid == docs[i].msg.msgid;
    if CameBefore(docs, j) {
      j := FirstWith(docs, j);
    }
  }

  lemma {:induction false} NewHolder(f: Forest, docs: seq<Match>, n: nat, l: Label)
    requires DistinctDocs(docs) && n < |docs| && Reached(f, docs[..n])
    requires IsDuplicate(f, docs[n]) <==> CameBefore(docs, n)
    requires l.msg == Some(docs[n].msg) && l.docid == docs[n].docid
    requires if IsDuplicate(f, docs[n]) then l.id == PathId(docs[n].msg.path) && l.flags == {Dup}
             else l.id == OwnId(docs[n].msg) && l.flags == (if l.id in Ids(f) then LabelOf(f, l.id).flags else {})
    ensures l == Holder(docs, n)
  {
    if !IsDuplicate(f, docs[n]) && l.id in Ids(f) {
      LabelsIds(f);
      assert LabelShape(LabelOf(f, l.id), docs[..n]);
    }
  }

  lemma {:induction false} BuildHolds(docs: seq<Match>)
    requires DistinctDocs(docs)
    ensures AllHeld(Build(docs), docs)
    decreases |docs|
  {
    if docs != [] {
      var n := |docs| - 1;
      var f, m := Build(docs[..n]), docs[n];
      BuildHolds(docs[..n]);
      DuplicateIffCameBefore(f, docs, n);
      var l := AddsOneMessage(f, m);
      NewHolder(f, docs, n, l);
      OneMoreHeld(docs, n, Messages(f), l);
    }
  }

  lemma {:induction false} OneMoreHeld(docs: seq<Match>, n: nat, held: multiset<Label>, l: Label)
    requires |docs| == n + 1 && l == Holder(docs, n)
    requires forall i :: 0 <= i < n ==> Holder(docs[..n], i) in held
    ensures forall i :: 0 <= i < |docs| ==> Holder(docs, i) in held + multiset{l}
  {
    forall i | 0 <= i < |docs| ensures Holder(docs, i) in held + multiset{l} {
      if i < n { HolderOfFront(docs, n, i); }
    }
  }

  /** In the final forest, as after step 1: the container of every Message-ID
      that a document has holds the first such document, and every other
      document is held under its path. */
  lemma {:induction false} FinalHolders(docs: seq<Match>, order: seq<Id>, sort: Option<Order>, i: nat)
    requires DistinctDocs(docs) && Enumerates(order, Ids(Build(docs))) && i < |docs|
    ensures Holder(docs, i) in Labels(Build(docs)) && Holder(docs, i) in Labels(FinalForest(docs, order, sort))
  {
    BuildHolds(docs);
    FinalForestFacts(docs, order, sort);
    MessagesAreLabels(Build(docs), Holder(docs, i));
    MessagesAreLabels(FinalForest(docs, order, sort), Holder(docs, i));
  }
}
