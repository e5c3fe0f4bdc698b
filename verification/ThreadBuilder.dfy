/** Step 1 of mu-threader.c on the heap. */
module ThreadBuilder {
  import opened Options
  import opened Forests
  import opened ForestEdits
  import opened ThreadBuild
  import opened Cells
  import opened HeapSteps
  import opened PointerForest
  import opened Containers
  import opened SiblingLists

  /** The id table during step 1 holds the forest f and nothing else. */
  ghost predicate Building(T: IdTable, f: Forest)
    reads T, T.table.Values
  {
    T.Valid() && RootsRep(T.cells, f) && NoDup(f) && Ids(f) == T.table.Keys
  }

  /** Containers stay in the table, and new ones are freshly allocated. */
  twostate predicate Grown(T: IdTable)
    reads T
  {
    (forall i :: i in old(T.table) ==> i in T.table && T.table[i] == old(T.table)[i])
    && (forall i :: i in T.table && i !in old(T.table) ==> fresh(T.table[i]))
  }

  /** mu_container_foreach with the callback `unequal`: stops, and reports
      false, when it meets the needle. */
  method ForeachUnequal(T: IdTable, c: Container?, needle: Container, ghost f: Forest) returns (ok: bool)
    requires T.Valid() && T.Known(c) && T.Known(needle) && IdOf(c) == Head(f) && Chain(T.cells, f)
    ensures ok <==> needle.id !in Ids(f)
    decreases f
  {
    if c == null {
      return true;
    }
    ok := ForeachUnequal(T, T.Child(c), needle, f.kids);
    if !ok {
      return false;
    }
    ok := ForeachUnequal(T, T.Next(c), needle, f.rest);
    if !ok {
      return false;
    }
    return c != needle;
  }

  /** mu_container_reachable */
  method Reachable(T: IdTable, haystack: Container, needle: Container, ghost f: Forest) returns (r: bool)
    requires Building(T, f) && T.Known(haystack) && T.Known(needle)
    ensures r <==> needle.id in Ids(FromRoots(f, haystack.id))
  {
    FromRootsChain(T.cells, f, haystack.id);
    var ok := ForeachUnequal(T, haystack, needle, FromRoots(f, haystack.id));
    r := !ok;
  }

  /** child_elligible: the two reachability walks, which also follow sibling
      links, refuse a link exactly when the child has a parent or the parent
      stands in the child's own tree. */
  method ChildEligible(T: IdTable, parent: Container?, child: Container, ghost f: Forest) returns (e: bool)
    requires Building(T, f) && T.Known(parent) && T.Known(child)
    ensures e <==> parent != null && Eligible(f, parent.id, child.id)
  {
    if parent == null {
      return false;
    }
    ParentlessIsTop(T.cells, f, child.id);
    if T.Parent(child) != null {
      return false;
    }
    FromTop(f, child.id);
    TopNotReached(f, child.id, parent.id);
    var r := Reachable(T, parent, child, f);
    if r {
      return false;
    }
    r := Reachable(T, child, parent, f);
    return !r;
  }

  /** mu_container_append_children, for an eligible link. */
  method LinkChild(T: IdTable, parent: Container, child: Container, ghost f: Forest)
    requires Building(T, f) && T.Known(parent) && T.Known(child)
    requires Eligible(f, parent.id, child.id)
    modifies T`cells, T.table.Values
    ensures Building(T, Link(f, parent.id, child.id))
  {
    ghost var p, x := parent.id, child.id;
    ghost var f1, g := RemoveTop(f, x), TreeOf(f, x);
    RemoveTopIds(f, x);
    RootsRemove(T.cells, f, x);
    RootsKids(T.cells, f1, p);
    ghost var H := T.cells;
    LinkFacts(f, p, x);
    GraftParts(f1, p, g);
    var r := AppendChildren(T, parent, child, KidsOf(f1, p), g, None);
    GraftRoots(H, T.cells, f1, p, g);
  }

  lemma {:induction false} GraftParts(f: Forest, p: Id, g: Forest)
    requires NoDup(f) && NoDup(g) && Ids(f) !! Ids(g) && p in Ids(f)
    ensures NoDup(KidsOf(f, p)) && p !in Ids(KidsOf(f, p)) && p !in Ids(g)
    ensures Ids(KidsOf(f, p)) !! Ids(g) && Tops(KidsOf(f, p)) <= Ids(KidsOf(f, p))
  {
    TopsInIds(KidsOf(f, p));
  }

  /** mu_container_new and g_hash_table_insert. */
  method NewContainer(T: IdTable, msg: Option<Msg>, docid: nat, x: Id, ghost f: Forest) returns (c: Container)
    requires Building(T, f) && x !in Ids(f)
    modifies T
    ensures Building(T, Append(f, Leaf(Label(x, msg, docid, {}))))
    ensures Grown(T) && T.Known(c) && c.id == x && fresh(c)
  {
    ghost var t := Label(x, msg, docid, {});
    AddLeafFacts(f, t);
    RootsAdd(T.cells, T.cells[x := Cell(None, None, None, None, msg, docid, {})], f, t);
    c := new Container(msg, docid, x, {});
    T.Insert(c);
  }

  /** find_or_create_referred */
  method FindOrCreateReferred(T: IdTable, x: Id, ghost f: Forest) returns (c: Container, created: bool)
    requires Building(T, f)
    modifies T
    ensures Building(T, EnsureId(f, x)) && Grown(T)
    ensures T.Known(c) && c.id == x && (created <==> x !in Ids(f))
  {
    created := x !in T.table;
    if created {
      c := NewContainer(T, None, 0, x, f);
    } else {
      c := T.Lookup(x);
    }
  }

  /** find_or_create: null for a duplicate, which is then done with. */
  method FindOrCreate(T: IdTable, m: Match, ghost f: Forest) returns (c: Container?)
    requires Building(T, f) && PathId(m.msg.path) !in Ids(f)
    modifies T, T.table.Values
    ensures Grown(T)
    ensures c == null <==> IsDuplicate(f, m)
    ensures if c == null then Building(T, AddDuplicate(f, OwnId(m.msg), m)) else Building(T, Store(f, m))
    ensures c != null ==>
              T.Known(c) && c.id == if m.msg.msgid == None then PathId(m.msg.path) else MsgId(m.msg.msgid.value)
  {
    var msgid := if m.msg.msgid.Some? then MsgId(m.msg.msgid.value) else PathId(m.msg.path);
    if msgid in T.table {
      c := T.Lookup(msgid);
      RootsKids(T.cells, f, msgid);
      if T.Message(c) == None {
        FillContainer(T, c, m, f);
      } else {
        AddDuplicateContainer(T, c, m, f);
        c := null;
      }
    } else {
      c := NewContainer(T, Some(m.msg), m.docid, msgid, f);
    }
  }

  method FillContainer(T: IdTable, c: Container, m: Match, ghost f: Forest)
    requires Building(T, f) && T.Known(c)
    modifies T`cells, T.table.Values
    ensures Building(T, ForestEdits.SetMsg(f, c.id, m))
  {
    StoreRoots(T.cells, T.cells[c.id := T.cells[c.id].(msg := Some(m.msg), docid := m.docid)], f, c.id, m);
    SetMsgIds(f, c.id, m);
    SetMsgNoDup(f, c.id, m);
    T.SetMsg(c, m.msg, m.docid);
  }

  /** A further message with a known Message-ID: filed under its path, marked,
      and made a child of the first. */
  method AddDuplicateContainer(T: IdTable, c: Container, m: Match, ghost f: Forest)
    requires Building(T, f) && T.Known(c) && PathId(m.msg.path) !in Ids(f)
    modifies T, T.table.Values
    ensures Grown(T) && Building(T, AddDuplicate(f, c.id, m))
  {
    var x := PathId(m.msg.path);
    ghost var t := Label(x, Some(m.msg), m.docid, {Dup});
    ghost var H := T.cells;
    var c2 := new Container(Some(m.msg), m.docid, x, {Dup});
    T.Insert(c2);
    DuplicateParts(H, T.cells, f, c.id, t);
    ghost var H1 := T.cells;
    var r := AppendChildren(T, c, c2, KidsOf(f, c.id), Leaf(t), None);
    GraftRoots(H1, T.cells, f, c.id, Leaf(t));
  }

  lemma {:induction false} DuplicateParts(H: Cells, H1: Cells, f: Forest, p: Id, t: Label)
    requires RootsRep(H, f) && NoDup(f) && p in Ids(f) && t.id !in Ids(f)
    requires H1 == H[t.id := Cell(None, None, None, None, t.msg, t.docid, t.flags)]
    ensures RootsRep(H1, f) && ListRep(H1, Leaf(t), None, InTail, None)
    ensures p in H1 && H1[p].child == Head(KidsOf(f, p)) && Sibs(H1, KidsOf(f, p), Some(p))
    ensures NoDup(KidsOf(f, p)) && NoDup(Leaf(t)) && Ids(KidsOf(f, p)) !! Ids(Leaf(t)) && p !in Ids(KidsOf(f, p))
            && p !in Ids(Leaf(t))
    ensures Tops(KidsOf(f, p)) <= Ids(KidsOf(f, p))
    ensures NoDup(Graft(f, p, Leaf(t))) && Ids(Graft(f, p, Leaf(t))) == Ids(f) + {t.id}
  {
    RootsFrame(H, H1, f);
    RootsKids(H1, f, p);
    LeafFacts(t);
    GraftParts(f, p, Leaf(t));
    GraftNoDup(f, p, Leaf(t));
    GraftIds(f, p, Leaf(t));
  }

  /** handle_references */
  method HandleContainerReferences(T: IdTable, c: Container, refs: seq<string>, ghost f: Forest)
    requires Building(T, f) && T.Known(c)
    modifies T, T.table.Values
    ensures Grown(T) && Building(T, HandleReferences(f, c.id, refs))
  {
    if refs == [] {
      return;
    }
    var parent: Container? := null;
    ghost var g := f;
    var i := 0;
    while i < |refs|
      invariant 0 <= i <= |refs| && Grown(T) && Building(T, g) && T.Known(parent) && T.Known(c)
      invariant FoldRefs(g, IdOf(parent), refs[i..]) == FoldRefs(f, None, refs)
    {
      parent, g := HandleOneReference(T, parent, MsgId(refs[i]), refs[i..], g);
      i := i + 1;
    }
    TryLinkContainers(T, parent, c, g);
  }

  /** A link, unless child_elligible refuses it. */
  method TryLinkContainers(T: IdTable, parent: Container?, child: Container, ghost f: Forest)
    requires Building(T, f) && T.Known(parent) && T.Known(child)
    modifies T`cells, T.table.Values
    ensures Building(T, TryLink(f, IdOf(parent), child.id))
  {
    var e := ChildEligible(T, parent, child, f);
    if e {
      LinkChild(T, parent, child, f);
    }
  }

  lemma FoldStep(f: Forest, prev: Option<Id>, refs: seq<string>)
    requires NoDup(f) && (prev.Some? ==> prev.value in Ids(f)) && refs != []
    ensures var x := MsgId(refs[0]);
            NoDup(EnsureId(f, x)) && x in Ids(EnsureId(f, x)) && (prev.Some? ==> prev.value in Ids(EnsureId(f, x)))
            && NoDup(TryLink(EnsureId(f, x), prev, x)) && x in Ids(TryLink(EnsureId(f, x), prev, x))
            && FoldRefs(TryLink(EnsureId(f, x), prev, x), Some(x), refs[1..]) == FoldRefs(f, prev, refs)
  {
    EnsureFacts(f, MsgId(refs[0]));
    TryLinkFacts(EnsureId(f, MsgId(refs[0])), prev, MsgId(refs[0]));
  }

  method HandleOneReference(T: IdTable, parent: Container?, x: Id, ghost refs: seq<string>, ghost f: Forest)
    returns (child: Container, ghost g: Forest)
    requires Building(T, f) && T.Known(parent) && refs != [] && x == MsgId(refs[0])
    modifies T, T.table.Values
    ensures Grown(T) && Building(T, g) && T.Known(child) && child.id == x
    ensures FoldRefs(g, Some(child.id), refs[1..]) == FoldRefs(f, IdOf(parent), refs)
  {
    FoldStep(f, IdOf(parent), refs);
    var created;
    child, created := FindOrCreateReferred(T, x, f);
    TryLinkContainers(T, parent, child, EnsureId(f, x));
    g := TryLink(EnsureId(f, x), IdOf(parent), x);
  }

  /** One round of the loop over the match list. */
  method AddDocument(T: IdTable, m: Match, ghost f: Forest, ghost docs: seq<Match>)
    requires Building(T, f) && Reached(f, docs) && DistinctDocs(docs + [m])
    modifies T, T.table.Values
    ensures Grown(T) && Building(T, AddMessage(f, m))
    ensures IsPointerForest(T.cells) && ParentsKept(old(T.cells), T.cells)
  {
    ghost var H := T.cells;
    PathFresh(f, docs, m);
    StoreDocument(T, m, f);
    DocumentAdded(H, T.cells, f, docs, m);
  }

  method StoreDocument(T: IdTable, m: Match, ghost f: Forest)
    requires Building(T, f) && PathId(m.msg.path) !in Ids(f)
    modifies T, T.table.Values
    ensures Grown(T) && Building(T, AddMessage(f, m))
  {
    var c := FindOrCreate(T, m, f);
    if c != null {
      HandleContainerReferences(T, c, m.msg.refs, Store(f, m));
    }
  }

  lemma DocumentAdded(H: Cells, H': Cells, f: Forest, docs: seq<Match>, m: Match)
    requires RootsRep(H, f) && Ids(f) == H.Keys && Reached(f, docs) && DistinctDocs(docs + [m])
    requires var g := AddMessage(f, m); NoDup(g) ==> RootsRep(H', g) && Ids(g) == H'.Keys
    ensures IsPointerForest(H') && ParentsKept(H, H')
  {
    AddMessageReached(f, docs, m);
    GrowthKeepsParents(H, H', f, AddMessage(f, m));
    RootsArePointerForest(H', AddMessage(f, m));
  }

  /** A parent, once set, is never replaced; no container leaves the table. */
  ghost predicate ParentsKept(H: Cells, H': Cells) {
    H.Keys <= H'.Keys && forall x :: x in H && H[x].parent.Some? ==> x in H' && H'[x].parent == H[x].parent
  }

  lemma {:induction false} GrowthKeepsParents(H: Cells, H': Cells, f: Forest, f': Forest)
    requires RootsRep(H, f) && NoDup(f) && Ids(f) == H.Keys
    requires RootsRep(H', f') && NoDup(f') && Ids(f') == H'.Keys && Grows(f, f')
    ensures ParentsKept(H, H')
  {
    forall x | x in H && H[x].parent.Some? ensures x in H' && H'[x].parent == H[x].parent {
      ParentIsEdge(H, f, x, H[x].parent);
      ParentIsEdge(H', f', x, H[x].parent);
    }
  }

  lemma {:induction false} BuildNext(docs: seq<Match>, i: nat)
    requires DistinctDocs(docs) && i < |docs|
    ensures DistinctDocs(docs[..i]) && DistinctDocs(docs[..i + 1]) && docs[..i + 1] == docs[..i] + [docs[i]]
    ensures Build(docs[..i + 1]) == AddMessage(Build(docs[..i]), docs[i])
  {
    assert docs[..i + 1][..i] == docs[..i];
  }

  /** create_containers: for any match list, and whatever its References say,
      the table ends up holding the forest that step 1 is specified to build. */
  method CreateContainers(docs: seq<Match>) returns (T: IdTable)
    requires DistinctDocs(docs)
    ensures fresh(T) && (forall i :: i in T.table ==> fresh(T.table[i])) && Building(T, Build(docs))
  {
    T := new IdTable();
    ghost var f := Build([]);
    var i := 0;
    while i < |docs|
      invariant 0 <= i <= |docs| && fresh(T) && forall i :: i in T.table ==> fresh(T.table[i])
      invariant DistinctDocs(docs[..i]) && f == Build(docs[..i]) && Building(T, f)
    {
      BuildNext(docs, i);
      AddDocument(T, docs[i], f, docs[..i]);
      f := AddMessage(f, docs[i]);
      i := i + 1;
    }
    assert docs[..i] == docs;
  }
}
