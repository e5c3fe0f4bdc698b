/** Step 1 of the threading algorithm (mu-threader.c) on forests: what the id
    table holds after every message of the match list was processed. The
    outermost list is the set of parentless containers; its order is only the
    order in which they were created. */
module ThreadBuild {
  import opened Options
  import opened Forests
  import opened ForestEdits

  ghost function OwnId(m: Msg): Id {
    if m.msgid.Some? then MsgId(m.msgid.value) else PathId(m.path)
  }

  ghost function EnsureId(f: Forest, x: Id): Forest {
    if x in Ids(f) then f else Append(f, Leaf(Label(x, None, 0, {})))
  }

  /** The link p -> x may be added: x has no parent, and p is not in the tree
      of x. */
  ghost predicate Eligible(f: Forest, p: Id, x: Id)
    requires p in Ids(f) && x in Ids(f)
  {
    x in Tops(f) && p !in Ids(TreeOf(f, x))
  }

  ghost function Link(f: Forest, p: Id, x: Id): Forest
    requires NoDup(f) && x in Tops(f) && p in Ids(f) && x in Ids(f) && p !in Ids(TreeOf(f, x))
  {
    RemoveTopIds(f, x);
    Graft(RemoveTop(f, x), p, TreeOf(f, x))
  }

  ghost function TryLink(f: Forest, p: Option<Id>, x: Id): Forest
    requires NoDup(f) && x in Ids(f) && (p.Some? ==> p.value in Ids(f))
  {
    if p.Some? && Eligible(f, p.value, x) then Link(f, p.value, x) else f
  }

  /** The loop over the References list, from the container `prev`. */
  ghost function FoldRefs(f: Forest, prev: Option<Id>, refs: seq<string>): (r: (Forest, Option<Id>))
    requires NoDup(f) && (prev.Some? ==> prev.value in Ids(f))
    ensures NoDup(r.0) && Ids(f) <= Ids(r.0) && (r.1.Some? ==> r.1.value in Ids(r.0))
    ensures refs != [] ==> r.1 == Some(MsgId(refs[|refs| - 1]))
    decreases |refs|
  {
    if refs == [] then (f, prev)
    else
      var x := MsgId(refs[0]);
      EnsureFacts(f, x);
      TryLinkFacts(EnsureId(f, x), prev, x);
      FoldRefs(TryLink(EnsureId(f, x), prev, x), Some(x), refs[1..])
  }

  ghost function HandleReferences(f: Forest, x: Id, refs: seq<string>): Forest
    requires NoDup(f) && x in Ids(f)
  {
    if refs == [] then f
    else
      var r := FoldRefs(f, None, refs);
      TryLink(r.0, r.1, x)
  }

  /** A second message with a known Message-ID becomes a child of the first. */
  ghost function AddDuplicate(f: Forest, x: Id, m: Match): Forest
    requires x in Ids(f)
  {
    Graft(f, x, Leaf(Label(PathId(m.msg.path), Some(m.msg), m.docid, {Dup})))
  }

  ghost predicate IsDuplicate(f: Forest, m: Match) {
    OwnId(m.msg) in Ids(f) && LabelOf(f, OwnId(m.msg)).msg.Some?
  }

  ghost function Store(f: Forest, m: Match): (f': Forest)
    requires NoDup(f) && !IsDuplicate(f, m)
    ensures OwnId(m.msg) in Ids(f') && NoDup(f')
  {
    var x := OwnId(m.msg);
    if x in Ids(f) then
      SetMsgIds(f, x, m); SetMsgNoDup(f, x, m);
      SetMsg(f, x, m)
    else
      AddLeafFacts(f, Label(x, Some(m.msg), m.docid, {}));
      Append(f, Leaf(Label(x, Some(m.msg), m.docid, {})))
  }

  ghost function AddMessage(f: Forest, m: Match): Forest
    requires NoDup(f)
  {
    if IsDuplicate(f, m) then AddDuplicate(f, OwnId(m.msg), m)
    else HandleReferences(Store(f, m), OwnId(m.msg), m.msg.refs)
  }

  // ---- structure of the single steps ----

  lemma {:induction false} AddLeafFacts(f: Forest, t: Label)
    requires NoDup(f) && t.id !in Ids(f)
    ensures NoDup(Append(f, Leaf(t)))
    ensures Ids(Append(f, Leaf(t))) == Ids(f) + {t.id}
    ensures Tops(Append(f, Leaf(t))) == Tops(f) + {t.id}
    ensures Labels(Append(f, Leaf(t))) == Labels(f) + {t}
    ensures Messages(Append(f, Leaf(t))) == Messages(f) + (if t.msg.Some? then multiset{t} else multiset{})
    ensures Edges(Append(f, Leaf(t)), None) == Edges(f, None) + {(None, t.id)}
  {
    LeafFacts(t);
    AppendIds(f, Leaf(t));
    AppendNoDup(f, Leaf(t));
    AppendTops(f, Leaf(t));
    AppendLabels(f, Leaf(t));
    AppendMessages(f, Leaf(t));
    AppendRelations(f, Leaf(t), None);
  }

  lemma {:induction false} EnsureFacts(f: Forest, x: Id)
    requires NoDup(f)
    ensures NoDup(EnsureId(f, x)) && Ids(EnsureId(f, x)) == Ids(f) + {x}
    ensures Tops(f) <= Tops(EnsureId(f, x)) <= Tops(f) + {x}
    ensures Messages(EnsureId(f, x)) == Messages(f)
    ensures Labels(f) <= Labels(EnsureId(f, x)) <= Labels(f) + {Label(x, None, 0, {})}
    ensures Edges(f, None) <= Edges(EnsureId(f, x), None) <= Edges(f, None) + {(None, x)}
  {
    if x !in Ids(f) {
      AddLeafFacts(f, Label(x, None, 0, {}));
    }
  }

  lemma {:induction false} LinkFacts(f: Forest, p: Id, x: Id)
    requires NoDup(f) && x in Tops(f) && x in Ids(f) && p in Ids(f) && p !in Ids(TreeOf(f, x))
    ensures Ids(Link(f, p, x)) == Ids(f) && NoDup(Link(f, p, x))
    ensures Tops(Link(f, p, x)) == Tops(f) - {x}
    ensures Labels(Link(f, p, x)) == Labels(f)
    ensures Messages(Link(f, p, x)) == Messages(f)
  {
    var g, t := RemoveTop(f, x), TreeOf(f, x);
    RemoveTopIds(f, x);
    RemoveTopTops(f, x);
    RemoveTopLabels(f, x);
    RemoveTopMessages(f, x);
    GraftIds(g, p, t);
    GraftNoDup(g, p, t);
    GraftLabels(g, p, t);
    GraftMessages(g, p, t);
  }

  /** Linking changes the parent of `x`, and of nothing else. */
  lemma {:induction false} LinkEdges(f: Forest, p: Id, x: Id)
    requires NoDup(f) && x in Tops(f) && x in Ids(f) && p in Ids(f) && p !in Ids(TreeOf(f, x))
    ensures Edges(Link(f, p, x), None) == Edges(f, None) - {(None, x)} + {(Some(p), x)}
  {
    var g, t := RemoveTop(f, x), TreeOf(f, x);
    RemoveTopIds(f, x);
    RemoveTopEdges(f, x, None);
    GraftEdges(g, p, t, None);
    assert Edges(t, None) == {(None, x)} + Edges(KidsOf(f, x), Some(x));
    assert Edges(t, Some(p)) == {(Some(p), x)} + Edges(KidsOf(f, x), Some(x));
    EdgesIds(g, None);
    EdgesIds(KidsOf(f, x), Some(x));
  }

  lemma {:induction false} TryLinkFacts(f: Forest, p: Option<Id>, x: Id)
    requires NoDup(f) && x in Ids(f) && (p.Some? ==> p.value in Ids(f))
    ensures Ids(TryLink(f, p, x)) == Ids(f) && NoDup(TryLink(f, p, x))
    ensures Tops(f) - {x} <= Tops(TryLink(f, p, x)) <= Tops(f)
    ensures Labels(TryLink(f, p, x)) == Labels(f)
    ensures Messages(TryLink(f, p, x)) == Messages(f)
    ensures forall q, y :: (Some(q), y) in Edges(f, None) ==> (Some(q), y) in Edges(TryLink(f, p, x), None)
  {
    if p.Some? && Eligible(f, p.value, x) {
      LinkFacts(f, p.value, x);
      LinkEdges(f, p.value, x);
    }
  }

  // ---- what every step keeps ----

  /** No parent is replaced, no container lost. */
  ghost predicate Grows(f: Forest, f': Forest) {
    Ids(f) <= Ids(f')
    && forall q, x :: (Some(q), x) in Edges(f, None) ==> (Some(q), x) in Edges(f', None)
  }

  ghost predicate LabelShape(t: Label, docs: seq<Match>) {
    if t.msg.None? then t.docid == 0 && t.flags == {} && t.id.MsgId?
    else
      Match(t.docid, t.msg.value) in docs && t.docid > 0
      && (if Dup in t.flags then t.id == PathId(t.msg.value.path) && t.flags == {Dup}
          else t.id == OwnId(t.msg.value) && t.flags == {})
  }

  ghost predicate Stores(f: Forest, m: Match) {
    exists t :: t in Labels(f) && t.msg == Some(m.msg) && t.docid == m.docid
  }

  /** The state of step 1 after the documents `docs`. */
  ghost predicate Reached(f: Forest, docs: seq<Match>) {
    NoDup(f)
    && (forall t :: t in Labels(f) ==> LabelShape(t, docs) && (Dup in t.flags ==> t.id !in Tops(f)))
    && |Messages(f)| == |docs|
    && (forall m :: m in docs ==> Stores(f, m))
  }

  /** What a match list always is: documents are distinct, have a non-zero
      docid, and are stored under distinct paths. */
  ghost predicate DistinctDocs(docs: seq<Match>) {
    (forall i :: 0 <= i < |docs| ==> docs[i].docid > 0)
    && (forall i, j :: 0 <= i < j < |docs| ==> docs[i].docid != docs[j].docid && docs[i].msg.path != docs[j].msg.path)
  }

  ghost function Build(docs: seq<Match>): (f: Forest)
    requires DistinctDocs(docs)
    ensures Reached(f, docs)
    decreases |docs|
  {
    if docs == [] then Nil
    else
      var n := |docs| - 1;
      assert docs == docs[..n] + [docs[n]];
      AddMessageReached(Build(docs[..n]), docs[..n], docs[n]);
      AddMessage(Build(docs[..n]), docs[n])
  }

  lemma {:induction false} DistinctLast(docs: seq<Match>, m: Match)
    requires DistinctDocs(docs + [m])
    ensures DistinctDocs(docs) && m.docid > 0
    ensures forall i :: 0 <= i < |docs| ==> docs[i].msg.path != m.msg.path && docs[i].docid != m.docid
  {
    var all := docs + [m];
    assert all[|docs|] == m;
    assert forall i :: 0 <= i < |docs| ==> all[i] == docs[i];
  }

  lemma {:induction false} PathUsed(f: Forest, docs: seq<Match>, p: string) returns (i: nat)
    requires Reached(f, docs) && PathId(p) in Ids(f)
    ensures i < |docs| && docs[i].msg.path == p
  {
    LabelsIds(f);
    var t := LabelOf(f, PathId(p));
    assert LabelShape(t, docs);
    i :| 0 <= i < |docs| && docs[i] == Match(t.docid, t.msg.value);
  }

  lemma {:induction false} PathFresh(f: Forest, docs: seq<Match>, m: Match)
    requires Reached(f, docs) && DistinctDocs(docs + [m])
    ensures PathId(m.msg.path) !in Ids(f)
  {
    DistinctLast(docs, m);
    if PathId(m.msg.path) in Ids(f) {
      var i := PathUsed(f, docs, m.msg.path);
    }
  }

  lemma {:induction false} ShapeGrows(f: Forest, docs: seq<Match>, m: Match)
    requires Reached(f, docs)
    ensures forall t :: t in Labels(f) ==> LabelShape(t, docs + [m])
  {
  }

  lemma {:induction false} DuplicateReached(f: Forest, docs: seq<Match>, m: Match)
    requires Reached(f, docs) && DistinctDocs(docs + [m]) && IsDuplicate(f, m)
    ensures Reached(AddDuplicate(f, OwnId(m.msg), m), docs + [m])
  {
    var x, t := OwnId(m.msg), Label(PathId(m.msg.path), Some(m.msg), m.docid, {Dup});
    var g := AddDuplicate(f, x, m);
    PathFresh(f, docs, m);
    LeafFacts(t);
    GraftIds(f, x, Leaf(t));
    GraftNoDup(f, x, Leaf(t));
    GraftLabels(f, x, Leaf(t));
    GraftMessages(f, x, Leaf(t));
    TopsInIds(f);
    NewShape(t, docs, m);
    ShapeGrows(f, docs, m);
    AllStored(f, g, docs, m, t);
  }

  lemma {:induction false} NewShape(t: Label, docs: seq<Match>, m: Match)
    requires DistinctDocs(docs + [m]) && t.msg == Some(m.msg) && t.docid == m.docid
    requires (t.id == PathId(m.msg.path) && t.flags == {Dup}) || (t.id == OwnId(m.msg) && t.flags == {})
    ensures LabelShape(t, docs + [m])
  {
    assert (docs + [m])[|docs|] == m;
  }

  lemma {:induction false} AllStored(f: Forest, g: Forest, docs: seq<Match>, m: Match, t: Label)
    requires Labels(f) <= Labels(g) && forall n :: n in docs ==> Stores(f, n)
    requires t in Labels(g) && t.msg == Some(m.msg) && t.docid == m.docid
    ensures forall n :: n in docs + [m] ==> Stores(g, n)
  {
    StoresGrow(f, g, docs);
    assert Stores(g, m);
  }

  lemma {:induction false} StoresGrow(f: Forest, g: Forest, docs: seq<Match>)
    requires Labels(f) <= Labels(g) && forall m :: m in docs ==> Stores(f, m)
    ensures forall m :: m in docs ==> Stores(g, m)
  {
    forall m | m in docs ensures Stores(g, m) {
      var t :| t in Labels(f) && t.msg == Some(m.msg) && t.docid == m.docid;
      assert t in Labels(g);
    }
  }

  lemma {:induction false} StoreReached(f: Forest, docs: seq<Match>, m: Match)
    requires Reached(f, docs) && DistinctDocs(docs + [m]) && !IsDuplicate(f, m)
    ensures Reached(Store(f, m), docs + [m])
  {
    if OwnId(m.msg) in Ids(f) {
      FillReached(f, docs, m);
    } else {
      NewReached(f, docs, m);
    }
  }

  lemma {:induction false} NewReached(f: Forest, docs: seq<Match>, m: Match)
    requires Reached(f, docs) && DistinctDocs(docs + [m]) && OwnId(m.msg) !in Ids(f)
    ensures Reached(Append(f, Leaf(Label(OwnId(m.msg), Some(m.msg), m.docid, {}))), docs + [m])
  {
    var t := Label(OwnId(m.msg), Some(m.msg), m.docid, {});
    var g := Append(f, Leaf(t));
    AddLeafFacts(f, t);
    NewShape(t, docs, m);
    ShapeGrows(f, docs, m);
    AllStored(f, g, docs, m, t);
    LabelsIds(f);
  }

  lemma {:induction false} FillReached(f: Forest, docs: seq<Match>, m: Match)
    requires Reached(f, docs) && DistinctDocs(docs + [m]) && !IsDuplicate(f, m) && OwnId(m.msg) in Ids(f)
    ensures Reached(SetMsg(f, OwnId(m.msg), m), docs + [m])
  {
    var x := OwnId(m.msg);
    var g, t := SetMsg(f, x, m), LabelOf(f, x);
    LabelsIds(f);
    SetMsgIds(f, x, m);
    SetMsgNoDup(f, x, m);
    SetMsgLabels(f, x, m);
    SetMsgMessages(f, x, m);
    assert LabelShape(t, docs);
    NewShape(Fill(t, m), docs, m);
    ShapeGrows(f, docs, m);
    FillStores(f, docs, m);
  }

  lemma {:induction false} FillStores(f: Forest, docs: seq<Match>, m: Match)
    requires Reached(f, docs) && OwnId(m.msg) in Ids(f) && LabelOf(f, OwnId(m.msg)).msg.None?
    ensures forall n :: n in docs + [m] ==> Stores(SetMsg(f, OwnId(m.msg), m), n)
  {
    var x := OwnId(m.msg);
    var g := SetMsg(f, x, m);
    SetMsgLabels(f, x, m);
    assert Stores(g, m) by { assert Fill(LabelOf(f, x), m) in Labels(g); }
    forall n | n in docs ensures Stores(g, n) {
      assert Stores(f, n);
      var u :| u in Labels(f) && u.msg == Some(n.msg) && u.docid == n.docid;
      LabelUnique(f, u);
      assert u in Labels(g);
    }
  }

  lemma {:induction false} EnsureReached(f: Forest, docs: seq<Match>, x: Id)
    requires Reached(f, docs) && x.MsgId?
    ensures Reached(EnsureId(f, x), docs) && Grows(f, EnsureId(f, x))
  {
    EnsureFacts(f, x);
    StoresGrow(f, EnsureId(f, x), docs);
    forall t | t in Labels(EnsureId(f, x)) && Dup in t.flags ensures t.id !in Tops(EnsureId(f, x)) {
      assert t in Labels(f);
      LabelsIds(f);
      if x !in Ids(f) { assert t.id != x; }
    }
  }

  lemma {:induction false} TryLinkReached(f: Forest, docs: seq<Match>, p: Option<Id>, x: Id)
    requires Reached(f, docs) && x in Ids(f) && (p.Some? ==> p.value in Ids(f))
    ensures Reached(TryLink(f, p, x), docs) && Grows(f, TryLink(f, p, x))
  {
    TryLinkFacts(f, p, x);
    StoresGrow(f, TryLink(f, p, x), docs);
  }

  lemma {:induction false} FoldRefsReached(f: Forest, docs: seq<Match>, prev: Option<Id>, refs: seq<string>)
    requires Reached(f, docs) && (prev.Some? ==> prev.value in Ids(f))
    ensures Reached(FoldRefs(f, prev, refs).0, docs) && Grows(f, FoldRefs(f, prev, refs).0)
    decreases |refs|
  {
    if refs != [] {
      var x := MsgId(refs[0]);
      EnsureFacts(f, x);
      EnsureReached(f, docs, x);
      TryLinkFacts(EnsureId(f, x), prev, x);
      TryLinkReached(EnsureId(f, x), docs, prev, x);
      FoldRefsReached(TryLink(EnsureId(f, x), prev, x), docs, Some(x), refs[1..]);
    }
  }

  lemma {:induction false} HandleReached(f: Forest, docs: seq<Match>, x: Id, refs: seq<string>)
    requires Reached(f, docs) && x in Ids(f)
    ensures Reached(HandleReferences(f, x, refs), docs) && Grows(f, HandleReferences(f, x, refs))
  {
    if refs != [] {
      FoldRefsReached(f, docs, None, refs);
      var r := FoldRefs(f, None, refs);
      TryLinkReached(r.0, docs, r.1, x);
    }
  }

  /** Every message, whatever its References say, leaves a forest that stores
      it and keeps everything there was: no container is lost and a parent,
      once set, is never replaced. */
  lemma {:induction false} AddMessageReached(f: Forest, docs: seq<Match>, m: Match)
    requires Reached(f, docs) && DistinctDocs(docs + [m])
    ensures Reached(AddMessage(f, m), docs + [m]) && Grows(f, AddMessage(f, m))
  {
    var x := OwnId(m.msg);
    if IsDuplicate(f, m) {
      DuplicateReached(f, docs, m);
      var l := Leaf(Label(PathId(m.msg.path), Some(m.msg), m.docid, {Dup}));
      GraftEdges(f, x, l, None);
      GraftIds(f, x, l);
    } else {
      StoreReached(f, docs, m);
      StoreGrows(f, m);
      HandleReached(Store(f, m), docs + [m], x, m.msg.refs);
    }
  }

  lemma {:induction false} StoreGrows(f: Forest, m: Match)
    requires NoDup(f) && !IsDuplicate(f, m)
    ensures Grows(f, Store(f, m)) && Ids(Store(f, m)) == Ids(f) + {OwnId(m.msg)}
    ensures forall q, x :: (Some(q), x) in Edges(Store(f, m), None) ==> (Some(q), x) in Edges(f, None)
  {
    var x := OwnId(m.msg);
    if x in Ids(f) {
      SetMsgIds(f, x, m);
      SetMsgEdges(f, x, m, None);
    } else {
      AddLeafFacts(f, Label(x, Some(m.msg), m.docid, {}));
    }
  }
}
