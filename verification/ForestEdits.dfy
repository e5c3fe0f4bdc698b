/** The three ways step 1 of the threading algorithm changes a forest: taking
    a whole tree out of the outermost list, hanging a forest under a
    container, and storing a message in an empty container. */
module ForestEdits {
  import opened Options
  import opened Forests

  function RemoveTop(f: Forest, x: Id): Forest {
    match f
    case Nil => Nil
    case Cons(t, k, r) => if t.id == x then r else Cons(t, k, RemoveTop(r, x))
  }

  /** The tree whose root is `x`. */
  ghost function TreeOf(f: Forest, x: Id): Forest
    requires x in Ids(f)
  {
    Single(LabelOf(f, x), KidsOf(f, x))
  }

  /** Appends `g` to the child list of `p`. */
  ghost function Graft(f: Forest, p: Id, g: Forest): Forest
    requires p in Ids(f)
  {
    if p == f.top.id then Cons(f.top, Append(f.kids, g), f.rest)
    else if p in Ids(f.kids) then Cons(f.top, Graft(f.kids, p, g), f.rest)
    else Cons(f.top, f.kids, Graft(f.rest, p, g))
  }

  ghost function Fill(t: Label, m: Match): Label {
    t.(msg := Some(m.msg), docid := m.docid)
  }

  /** Stores a message in container `x`. */
  ghost function SetMsg(f: Forest, x: Id, m: Match): Forest
    requires x in Ids(f)
  {
    if x == f.top.id then Cons(Fill(f.top, m), f.kids, f.rest)
    else if x in Ids(f.kids) then Cons(f.top, SetMsg(f.kids, x, m), f.rest)
    else Cons(f.top, f.kids, SetMsg(f.rest, x, m))
  }

  // ---- RemoveTop ----

  lemma {:induction false} TreeOfTop(f: Forest, x: Id)
    requires NoDup(f) && x in Tops(f)
    ensures x in Ids(f)
    ensures f.Cons? && (f.top.id != x ==> x in Tops(f.rest) && x in Ids(f.rest) && TreeOf(f, x) == TreeOf(f.rest, x))
  {
    TopsInIds(f);
    TopsInIds(f.rest);
  }

  lemma {:induction false} RemoveTopIds(f: Forest, x: Id)
    requires NoDup(f) && x in Tops(f)
    ensures x in Ids(f)
    ensures Ids(f) == Ids(RemoveTop(f, x)) + Ids(TreeOf(f, x))
    ensures NoDup(RemoveTop(f, x)) && NoDup(TreeOf(f, x)) && Ids(RemoveTop(f, x)) !! Ids(TreeOf(f, x))
  {
    TreeOfTop(f, x);
    if f.top.id == x {
      assert Ids(TreeOf(f, x)) == {x} + Ids(f.kids);
    } else {
      RemoveTopIds(f.rest, x);
      assert Ids(f.rest) == Ids(RemoveTop(f.rest, x)) + Ids(TreeOf(f, x));
    }
  }

  lemma {:induction false} RemoveTopTops(f: Forest, x: Id)
    requires NoDup(f) && x in Tops(f)
    ensures Tops(RemoveTop(f, x)) == Tops(f) - {x}
  {
    TreeOfTop(f, x);
    TopsInIds(f.rest);
    if f.top.id != x {
      RemoveTopTops(f.rest, x);
    }
  }

  lemma {:induction false} RemoveTopEdges(f: Forest, x: Id, p: Option<Id>)
    requires NoDup(f) && x in Tops(f)
    ensures x in Ids(f) && Edges(f, p) == Edges(RemoveTop(f, x), p) + Edges(TreeOf(f, x), p)
  {
    TreeOfTop(f, x);
    if f.top.id != x {
      RemoveTopEdges(f.rest, x, p);
    }
  }

  lemma {:induction false} RemoveTopThreads(f: Forest, x: Id, p: Option<Id>)
    requires NoDup(f) && x in Tops(f)
    ensures x in Ids(f) && Threads(f, p) == Threads(RemoveTop(f, x), p) + Threads(TreeOf(f, x), p)
  {
    TreeOfTop(f, x);
    if f.top.id != x {
      RemoveTopThreads(f.rest, x, p);
    }
  }

  lemma {:induction false} RemoveTopLabels(f: Forest, x: Id)
    requires NoDup(f) && x in Tops(f)
    ensures x in Ids(f) && Labels(f) == Labels(RemoveTop(f, x)) + Labels(TreeOf(f, x))
  {
    TreeOfTop(f, x);
    if f.top.id != x {
      RemoveTopLabels(f.rest, x);
    }
  }

  lemma {:induction false} RemoveTopMessages(f: Forest, x: Id)
    requires NoDup(f) && x in Tops(f)
    ensures x in Ids(f) && Messages(f) == Messages(RemoveTop(f, x)) + Messages(TreeOf(f, x))
  {
    TreeOfTop(f, x);
    if f.top.id != x {
      RemoveTopMessages(f.rest, x);
    }
  }

  // ---- Graft ----

  lemma {:induction false} GraftIds(f: Forest, p: Id, g: Forest)
    requires p in Ids(f)
    ensures Ids(Graft(f, p, g)) == Ids(f) + Ids(g)
    ensures Tops(Graft(f, p, g)) == Tops(f)
  {
    if p == f.top.id {
      AppendIds(f.kids, g);
    } else if p in Ids(f.kids) {
      GraftIds(f.kids, p, g);
    } else {
      GraftIds(f.rest, p, g);
    }
  }

  lemma {:induction false} GraftNoDup(f: Forest, p: Id, g: Forest)
    requires p in Ids(f) && NoDup(f) && NoDup(g) && Ids(f) !! Ids(g)
    ensures NoDup(Graft(f, p, g))
  {
    if p == f.top.id {
      AppendIds(f.kids, g);
      AppendNoDup(f.kids, g);
    } else if p in Ids(f.kids) {
      GraftNoDup(f.kids, p, g);
      GraftIds(f.kids, p, g);
    } else {
      GraftNoDup(f.rest, p, g);
      GraftIds(f.rest, p, g);
    }
  }

  lemma {:induction false} GraftEdges(f: Forest, p: Id, g: Forest, q: Option<Id>)
    requires p in Ids(f)
    ensures Edges(Graft(f, p, g), q) == Edges(f, q) + Edges(g, Some(p))
  {
    if p == f.top.id {
      AppendRelations(f.kids, g, Some(p));
    } else if p in Ids(f.kids) {
      GraftEdges(f.kids, p, g, Some(f.top.id));
    } else {
      GraftEdges(f.rest, p, g, q);
    }
  }

  lemma {:induction false} GraftLabels(f: Forest, p: Id, g: Forest)
    requires p in Ids(f)
    ensures Labels(Graft(f, p, g)) == Labels(f) + Labels(g)
  {
    if p == f.top.id {
      AppendLabels(f.kids, g);
    } else if p in Ids(f.kids) {
      GraftLabels(f.kids, p, g);
    } else {
      GraftLabels(f.rest, p, g);
    }
  }

  lemma {:induction false} GraftMessages(f: Forest, p: Id, g: Forest)
    requires p in Ids(f)
    ensures Messages(Graft(f, p, g)) == Messages(f) + Messages(g)
  {
    if p == f.top.id {
      AppendMessages(f.kids, g);
    } else if p in Ids(f.kids) {
      GraftMessages(f.kids, p, g);
    } else {
      GraftMessages(f.rest, p, g);
    }
  }

  /** The grafted forest ends the child list of `p`; every other child list
      is what it was. */
  lemma {:induction false} GraftKids(f: Forest, p: Id, g: Forest, x: Id)
    requires p in Ids(f) && NoDup(f) && Ids(f) !! Ids(g) && x in Ids(f)
    ensures x in Ids(Graft(f, p, g))
    ensures x == p ==> KidsOf(Graft(f, p, g), p) == Append(KidsOf(f, p), g)
    ensures Tops(KidsOf(Graft(f, p, g), x)) == Tops(KidsOf(f, x)) + (if x == p then Tops(g) else {})
  {
    GraftIds(f, p, g);
    if p == f.top.id {
      AppendTops(f.kids, g);
      AppendIds(f.kids, g);
      if x in Ids(f.kids) { KidsOfAppend(f.kids, g, x); }
    } else if p in Ids(f.kids) {
      GraftIds(f.kids, p, g);
      if x in Ids(f.kids) {
        GraftKids(f.kids, p, g, x);
      }
    } else {
      GraftIds(f.rest, p, g);
      if x in Ids(f.rest) {
        GraftKids(f.rest, p, g, x);
      }
    }
    if x == f.top.id && x != p {
      if p in Ids(f.kids) { GraftIds(f.kids, p, g); }
    }
  }

  lemma {:induction false} KidsOfAppend(f: Forest, g: Forest, x: Id)
    requires x in Ids(f) && Ids(f) !! Ids(g)
    ensures x in Ids(Append(f, g)) && KidsOf(Append(f, g), x) == KidsOf(f, x)
            && LabelOf(Append(f, g), x) == LabelOf(f, x)
  {
    AppendIds(f, g);
    if x != f.top.id && x !in Ids(f.kids) {
      KidsOfAppend(f.rest, g, x);
    }
  }

  // ---- SetMsg ----

  lemma {:induction false} SetMsgIds(f: Forest, x: Id, m: Match)
    requires x in Ids(f)
    ensures Ids(SetMsg(f, x, m)) == Ids(f) && Tops(SetMsg(f, x, m)) == Tops(f)
  {
    if x != f.top.id {
      if x in Ids(f.kids) { SetMsgIds(f.kids, x, m); } else { SetMsgIds(f.rest, x, m); }
    }
  }

  lemma {:induction false} SetMsgNoDup(f: Forest, x: Id, m: Match)
    requires x in Ids(f) && NoDup(f)
    ensures NoDup(SetMsg(f, x, m))
  {
    if x != f.top.id {
      if x in Ids(f.kids) {
        SetMsgNoDup(f.kids, x, m);
        SetMsgIds(f.kids, x, m);
      } else {
        SetMsgNoDup(f.rest, x, m);
        SetMsgIds(f.rest, x, m);
      }
    }
  }

  lemma {:induction false} SetMsgEdges(f: Forest, x: Id, m: Match, p: Option<Id>)
    requires x in Ids(f)
    ensures Edges(SetMsg(f, x, m), p) == Edges(f, p)
  {
    if x != f.top.id {
      if x in Ids(f.kids) { SetMsgEdges(f.kids, x, m, Some(f.top.id)); } else { SetMsgEdges(f.rest, x, m, p); }
    }
  }

  lemma {:induction false} SetMsgLabels(f: Forest, x: Id, m: Match)
    requires x in Ids(f) && NoDup(f)
    ensures forall t :: t in Labels(SetMsg(f, x, m)) <==>
              t == Fill(LabelOf(f, x), m) || (t in Labels(f) && t.id != x)
  {
    LabelsIds(f.kids);
    LabelsIds(f.rest);
    if x != f.top.id {
      if x in Ids(f.kids) { SetMsgLabels(f.kids, x, m); } else { SetMsgLabels(f.rest, x, m); }
    }
  }

  lemma {:induction false} SetMsgMessages(f: Forest, x: Id, m: Match)
    requires x in Ids(f) && LabelOf(f, x).msg.None?
    ensures Messages(SetMsg(f, x, m)) == Messages(f) + multiset{Fill(LabelOf(f, x), m)}
  {
    var added := multiset{Fill(LabelOf(f, x), m)};
    if x == f.top.id {
    } else if x in Ids(f.kids) {
      SetMsgMessages(f.kids, x, m);
      assert Messages(SetMsg(f.kids, x, m)) == Messages(f.kids) + added;
    } else {
      SetMsgMessages(f.rest, x, m);
      assert Messages(SetMsg(f.rest, x, m)) == Messages(f.rest) + added;
    }
  }
}
