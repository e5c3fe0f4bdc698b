/** What the property bits of the thread info say about the final forest. */
module ThreadProps {
  import opened Options
  import opened Forests
  import opened ThreadPaths
  import opened Threading
  import opened ThreadOrder

  /** q is the parent of e, and e says so. */
  ghost predicate ParentProps(f: Forest, e: Entry, q: Id) {
    q in Ids(f) && e.node.id in Tops(KidsOf(f, q)) && Root !in e.prop
    && (EmptyParent in e.prop <==> LabelOf(f, q).msg.None?)
    && (FirstChild in e.prop <==> Head(KidsOf(f, q)) == Some(e.node.id))
  }

  /** What an entry of the outermost list says of the parent of that list. */
  ghost predicate TopProps(f: Forest, i: nat, parent: Option<Label>, e: Entry) {
    (Root in e.prop <==> parent.None?)
    && (EmptyParent in e.prop <==> parent.Some? && parent.value.msg.None?)
    && (FirstChild in e.prop <==> parent.Some? && i == 0 && Head(f) == Some(e.node.id))
  }

  /** What an entry says of its own container. */
  ghost predicate OwnProps(f: Forest, e: Entry) {
    e.node.id in Ids(f)
    && (HasChild in e.prop <==> KidsOf(f, e.node.id).Cons?)
    && (IsDup in e.prop <==> Dup in e.node.flags)
  }

  lemma FromRest(f: Forest, x: Id)
    requires NoDup(f) && f.Cons? && x in Ids(f.rest)
    ensures x in Ids(f) && KidsOf(f, x) == KidsOf(f.rest, x) && LabelOf(f, x) == LabelOf(f.rest, x)
  {
  }

  lemma FromKids(f: Forest, x: Id)
    requires NoDup(f) && f.Cons? && x in Ids(f.kids)
    ensures x in Ids(f) && KidsOf(f, x) == KidsOf(f.kids, x) && LabelOf(f, x) == LabelOf(f.kids, x)
  {
  }

  lemma {:induction false} EntryProps(f: Forest, pfx: seq<nat>, i: nat, parent: Option<Label>, e: Entry)
    requires NoDup(f) && e in Entries(f, pfx, i, parent)
    ensures OwnProps(f, e)
    ensures if e.node.id in Tops(f) then TopProps(f, i, parent, e) else exists q :: ParentProps(f, e, q)
    decreases f
  {
    var rs := Entries(f.rest, pfx, i + 1, parent);
    assert Entries(f, pfx, i, parent) == TreeEntries(f.top, f.kids, pfx, i, parent) + rs;
    TopsInIds(f.rest);
    if e in rs {
      EntryProps(f.rest, pfx, i + 1, parent, e);
      FromRest(f, e.node.id);
      if e.node.id !in Tops(f.rest) {
        var q :| ParentProps(f.rest, e, q);
        FromRest(f, q);
        assert ParentProps(f, e, q);
      }
    } else {
      TreeEntryProps(f, pfx, i, parent, e);
    }
  }

  lemma {:induction false} TreeEntryProps(f: Forest, pfx: seq<nat>, i: nat, parent: Option<Label>, e: Entry)
    requires NoDup(f) && f.Cons? && e in TreeEntries(f.top, f.kids, pfx, i, parent)
    ensures OwnProps(f, e)
    ensures if e.node.id in Tops(f) then TopProps(f, i, parent, e) else exists q :: ParentProps(f, e, q)
    decreases f, 0
  {
    var ks := Entries(f.kids, pfx + [i], 0, Some(f.top));
    TopsInIds(f.rest);
    TopsInIds(f.kids);
    if e in ks {
      EntryProps(f.kids, pfx + [i], 0, Some(f.top), e);
      FromKids(f, e.node.id);
      assert e.node.id !in Tops(f);
      if e.node.id in Tops(f.kids) {
        assert ParentProps(f, e, f.top.id);
      } else {
        var q :| ParentProps(f.kids, e, q);
        FromKids(f, q);
        assert ParentProps(f, e, q);
      }
    } else {
      assert e == Entry(f.top, pfx + [i], Props(f.top, f.kids, parent, i));
    }
  }

  lemma {:induction false} OneParent(f: Forest, x: Id, q: Id, q': Id)
    requires NoDup(f) && q in Ids(f) && q' in Ids(f) && x in Tops(KidsOf(f, q)) && x in Tops(KidsOf(f, q'))
    ensures q == q' && x !in Tops(f)
  {
    KidsByEdge(f, None, q, x);
    KidsByEdge(f, None, q', x);
    TopsByEdge(f, None, x);
    EdgeUnique(f, None, x, Some(q), Some(q'));
    if x in Tops(f) { EdgeUnique(f, None, x, Some(q), None); }
  }

  ghost predicate HasEmptyParent(f: Forest, x: Id) {
    exists q :: q in Ids(f) && LabelOf(f, q).msg.None? && x in Tops(KidsOf(f, q))
  }

  ghost predicate IsFirstChild(f: Forest, x: Id) {
    exists q :: q in Ids(f) && Head(KidsOf(f, q)) == Some(x)
  }

  /** The properties reported for a message say, each exactly, whether it is a
      root, has children, is the first child of its parent, has an empty
      container for a parent, and is a duplicate. */
  lemma {:induction false} PropertiesDescribeForest(f: Forest, docs: seq<Match>, t: Label)
    requires HoldsDocs(f, docs) && t in Labels(f) && t.msg.Some?
    ensures t.docid in ThreadTable(f, |docs|) && t.id in Ids(f)
    ensures var prop := ThreadTable(f, |docs|)[t.docid].prop;
            && (Root in prop <==> t.id in Tops(f))
            && (HasChild in prop <==> KidsOf(f, t.id).Cons?)
            && (FirstChild in prop <==> IsFirstChild(f, t.id))
            && (EmptyParent in prop <==> HasEmptyParent(f, t.id))
            && (IsDup in prop <==> Dup in t.flags)
  {
    var i := LabelIndex(f, t);
    TableFinds(f, docs, i);
    var e := AllEntries(f)[i];
    assert e in AllEntries(f);
    EntryProps(f, [], 0, None, e);
    forall q | q in Ids(f) && t.id in Tops(KidsOf(f, q)) ensures t.id !in Tops(f) {
      OneParent(f, t.id, q, q);
    }
    if t.id !in Tops(f) {
      var p :| ParentProps(f, e, p);
      forall q | q in Ids(f) && t.id in Tops(KidsOf(f, q)) ensures q == p {
        OneParent(f, t.id, q, p);
      }
    }
  }
}
