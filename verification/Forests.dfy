/** The abstract value of a heap of message containers: a finite forest in
    first-child / next-sibling form, the shape of the `child` and `next`
    pointers of `struct _MuContainer`. */
module Forests {
  import opened Options

  /** A key of the id table. A message without a Message-ID, and every
      duplicate, is keyed by its path; such keys never meet a Message-ID. */
  datatype Id = MsgId(s: string) | PathId(p: string)

  datatype Msg = Msg(path: string, msgid: Option<string>, refs: seq<string>)

  /** One document of the match list. */
  datatype Match = Match(docid: nat, msg: Msg)

  datatype Flag = Delete | Splice | Dup

  datatype Label = Label(id: Id, msg: Option<Msg>, docid: nat, flags: set<Flag>)

  datatype Forest = Nil | Cons(top: Label, kids: Forest, rest: Forest)

  function Single(t: Label, k: Forest): Forest {
    Cons(t, k, Nil)
  }

  function Leaf(t: Label): Forest {
    Cons(t, Nil, Nil)
  }

  ghost function Ids(f: Forest): set<Id> {
    match f
    case Nil => {}
    case Cons(t, k, r) => {t.id} + Ids(k) + Ids(r)
  }

  /** Every container occurs once. */
  ghost predicate NoDup(f: Forest) {
    match f
    case Nil => true
    case Cons(t, k, r) =>
      t.id !in Ids(k) && t.id !in Ids(r) && Ids(k) !! Ids(r) && NoDup(k) && NoDup(r)
  }

  /** The containers of the outermost sibling list. */
  ghost function Tops(f: Forest): set<Id> {
    match f
    case Nil => {}
    case Cons(t, _, r) => {t.id} + Tops(r)
  }

  function Append(f: Forest, g: Forest): Forest {
    match f
    case Nil => g
    case Cons(t, k, r) => Cons(t, k, Append(r, g))
  }

  /** Length of the outermost sibling list. */
  ghost function Len(f: Forest): nat {
    match f
    case Nil => 0
    case Cons(_, _, r) => 1 + Len(r)
  }

  ghost function Head(f: Forest): Option<Id> {
    match f
    case Nil => None
    case Cons(t, _, _) => Some(t.id)
  }

  ghost function LastId(f: Forest): Id
    requires f.Cons?
    ensures LastId(f) in Tops(f)
  {
    if f.rest.Nil? then f.top.id else LastId(f.rest)
  }

  ghost function LabelOf(f: Forest, x: Id): (t: Label)
    requires x in Ids(f)
    ensures t.id == x
  {
    if x == f.top.id then f.top
    else if x in Ids(f.kids) then LabelOf(f.kids, x)
    else LabelOf(f.rest, x)
  }

  ghost function KidsOf(f: Forest, x: Id): (k: Forest)
    requires x in Ids(f)
    ensures Ids(k) <= Ids(f)
    ensures NoDup(f) ==> NoDup(k) && x !in Ids(k)
  {
    if x == f.top.id then f.kids
    else if x in Ids(f.kids) then KidsOf(f.kids, x)
    else KidsOf(f.rest, x)
  }

  /** The parent relation as pairs (parent, container); members of the
      outermost list have parent `p`. */
  ghost function Edges(f: Forest, p: Option<Id>): set<(Option<Id>, Id)> {
    match f
    case Nil => {}
    case Cons(t, k, r) => {(p, t.id)} + Edges(k, Some(t.id)) + Edges(r, p)
  }

  /** The pairs (nearest message-carrying ancestor, message). This is what a
      reader sees of a thread: empty containers are transparent. */
  ghost function Threads(f: Forest, above: Option<Id>): set<(Option<Id>, Id)> {
    match f
    case Nil => {}
    case Cons(t, k, r) =>
      (if t.msg.Some? then {(above, t.id)} else {})
      + Threads(k, if t.msg.Some? then Some(t.id) else above)
      + Threads(r, above)
  }

  ghost function Labels(f: Forest): set<Label> {
    match f
    case Nil => {}
    case Cons(t, k, r) => {t} + Labels(k) + Labels(r)
  }

  /** The message-carrying labels, with multiplicity. */
  ghost function Messages(f: Forest): multiset<Label> {
    match f
    case Nil => multiset{}
    case Cons(t, k, r) =>
      (if t.msg.Some? then multiset{t} else multiset{}) + Messages(k) + Messages(r)
  }

  ghost predicate Unflagged(t: Label) {
    Delete !in t.flags && Splice !in t.flags
  }

  /** No container anywhere carries a pruning mark. */
  ghost predicate AllUnflagged(f: Forest) {
    match f
    case Nil => true
    case Cons(t, k, r) => Unflagged(t) && AllUnflagged(k) && AllUnflagged(r)
  }

  // ---- Append ----

  lemma AppendNil(f: Forest)
    ensures Append(f, Nil) == f
  {
  }

  lemma AppendAssoc(f: Forest, g: Forest, h: Forest)
    ensures Append(Append(f, g), h) == Append(f, Append(g, h))
  {
  }

  lemma AppendIds(f: Forest, g: Forest)
    ensures Ids(Append(f, g)) == Ids(f) + Ids(g)
  {
  }

  lemma AppendTops(f: Forest, g: Forest)
    ensures Tops(Append(f, g)) == Tops(f) + Tops(g)
  {
  }

  lemma AppendLabels(f: Forest, g: Forest)
    ensures Labels(Append(f, g)) == Labels(f) + Labels(g)
  {
  }

  lemma AppendMessages(f: Forest, g: Forest)
    ensures Messages(Append(f, g)) == Messages(f) + Messages(g)
  {
  }

  lemma {:induction false} AppendNoDup(f: Forest, g: Forest)
    ensures NoDup(Append(f, g)) <==> NoDup(f) && NoDup(g) && Ids(f) !! Ids(g)
  {
    if f.Cons? {
      AppendIds(f.rest, g);
      AppendNoDup(f.rest, g);
    }
  }

  lemma {:induction false} AppendLast(f: Forest, g: Forest)
    ensures g.Cons? ==> Append(f, g).Cons? && LastId(Append(f, g)) == LastId(g)
  {
    if f.Cons? {
      AppendLast(f.rest, g);
    }
  }

  lemma AppendRelations(f: Forest, g: Forest, p: Option<Id>)
    ensures Edges(Append(f, g), p) == Edges(f, p) + Edges(g, p)
    ensures Threads(Append(f, g), p) == Threads(f, p) + Threads(g, p)
  {
  }

  lemma TopsInIds(f: Forest)
    ensures Tops(f) <= Ids(f)
  {
  }

  lemma LeafFacts(t: Label)
    ensures Ids(Leaf(t)) == {t.id} && Tops(Leaf(t)) == {t.id} && NoDup(Leaf(t))
    ensures Labels(Leaf(t)) == {t}
    ensures Messages(Leaf(t)) == if t.msg.Some? then multiset{t} else multiset{}
    ensures forall p :: Edges(Leaf(t), p) == {(p, t.id)}
  {
    assert Labels(Nil) == {} && Tops(Nil) == {} && Ids(Nil) == {};
    assert forall p :: Edges(Nil, p) == {};
  }

  // ---- labels and edges ----

  lemma LabelsIds(f: Forest)
    ensures forall t :: t in Labels(f) ==> t.id in Ids(f)
    ensures forall x :: x in Ids(f) ==> LabelOf(f, x) in Labels(f)
  {
  }

  lemma LabelUnique(f: Forest, t: Label)
    requires NoDup(f) && t in Labels(f)
    ensures t.id in Ids(f) && LabelOf(f, t.id) == t
  {
    LabelsIds(f);
    if f.Cons? && t != f.top {
      LabelsIds(f.kids);
      LabelsIds(f.rest);
      if t in Labels(f.kids) { LabelUnique(f.kids, t); } else { LabelUnique(f.rest, t); }
    }
  }

  lemma EdgesIds(f: Forest, p: Option<Id>)
    ensures forall e :: e in Edges(f, p) ==> e.1 in Ids(f) && (e.0 == p || (e.0.Some? && e.0.value in Ids(f)))
  {
    if f.Cons? {
      EdgesIds(f.kids, Some(f.top.id));
      EdgesIds(f.rest, p);
    }
  }

  /** In a forest without repetition the edges are a function of the child,
      total on the containers. */
  lemma {:induction false} EdgeUnique(f: Forest, p: Option<Id>, x: Id, q: Option<Id>, q': Option<Id>)
    requires NoDup(f)
    requires (q, x) in Edges(f, p) && (q', x) in Edges(f, p)
    ensures q == q'
  {
    if f.Cons? {
      EdgesIds(f.kids, Some(f.top.id));
      EdgesIds(f.rest, p);
      if x in Ids(f.kids) {
        EdgeUnique(f.kids, Some(f.top.id), x, q, q');
      } else if x in Ids(f.rest) {
        EdgeUnique(f.rest, p, x, q, q');
      }
    }
  }

  lemma {:induction false} EdgeTotal(f: Forest, p: Option<Id>, x: Id) returns (q: Option<Id>)
    requires x in Ids(f)
    ensures (q, x) in Edges(f, p)
  {
    if x == f.top.id {
      q := p;
    } else if x in Ids(f.kids) {
      q := EdgeTotal(f.kids, Some(f.top.id), x);
    } else {
      q := EdgeTotal(f.rest, p, x);
    }
  }

  /** An outermost member is exactly a container whose parent is `p`, for a
      `p` that is not itself in the forest. */
  lemma {:induction false} TopsByEdge(f: Forest, p: Option<Id>, x: Id)
    requires NoDup(f) && (p.Some? ==> p.value !in Ids(f))
    ensures x in Tops(f) <==> (p, x) in Edges(f, p)
  {
    if f.Cons? {
      TopsInIds(f.rest);
      EdgesIds(f.kids, Some(f.top.id));
      TopsByEdge(f.rest, p, x);
    }
  }

  /** A container's own child list is exactly the set of its edges. */
  lemma {:induction false} KidsByEdge(f: Forest, p: Option<Id>, q: Id, x: Id)
    requires NoDup(f) && q in Ids(f) && (p.Some? ==> p.value !in Ids(f))
    ensures x in Tops(KidsOf(f, q)) <==> (Some(q), x) in Edges(f, p)
  {
    EdgesIds(f.kids, Some(f.top.id));
    EdgesIds(f.rest, p);
    if q == f.top.id {
      TopsByEdge(f.kids, Some(q), x);
    } else if q in Ids(f.kids) {
      KidsByEdge(f.kids, Some(f.top.id), q, x);
    } else {
      KidsByEdge(f.rest, p, q, x);
    }
  }

  // ---- depth: parent chains are well founded ----

  ghost function Depth(f: Forest, x: Id): nat
    requires x in Ids(f)
  {
    if x == f.top.id then 0
    else if x in Ids(f.kids) then 1 + Depth(f.kids, x)
    else Depth(f.rest, x)
  }

  lemma {:induction false} DepthDrops(f: Forest, p: Option<Id>, q: Id, x: Id)
    requires NoDup(f) && (p.Some? ==> p.value !in Ids(f))
    requires (Some(q), x) in Edges(f, p) && q in Ids(f)
    ensures x in Ids(f) && Depth(f, x) == Depth(f, q) + 1
  {
    EdgesIds(f, p);
    EdgesIds(f.kids, Some(f.top.id));
    EdgesIds(f.rest, p);
    if x in Ids(f.kids) {
      if q == f.top.id {
        TopsByEdge(f.kids, Some(q), x);
        DepthOfTop(f.kids, x);
      } else {
        DepthDrops(f.kids, Some(f.top.id), q, x);
      }
    } else if x in Ids(f.rest) {
      DepthDrops(f.rest, p, q, x);
    }
  }

  lemma DepthOfTop(f: Forest, x: Id)
    requires NoDup(f) && x in Tops(f)
    ensures x in Ids(f) && Depth(f, x) == 0
  {
    TopsInIds(f);
    if x != f.top.id {
      TopsInIds(f.rest);
    }
  }
}
