/** The invariant of step 1, said of the pointers alone: what the heap looks
    like to a reader who never heard of the abstract forest. */
module PointerForest {
  import opened Options
  import opened Forests
  import opened Cells
  import opened HeapSteps

  /** Following `next` from `start` visits s and stops. */
  ghost predicate Spells(H: Cells, start: Option<Id>, s: seq<Id>)
    decreases |s|
  {
    if s == [] then start.None?
    else start == Some(s[0]) && s[0] in H && Spells(H, H[s[0]].next, s[1..])
  }

  ghost predicate NoRepeats(s: seq<Id>) {
    forall i, j :: 0 <= i < j < |s| ==> s[i] != s[j]
  }

  /** The cached end is unset or right at the head, and unset elsewhere. */
  ghost predicate CacheCoherent(H: Cells, s: seq<Id>) {
    forall i :: 0 <= i < |s| && s[i] in H ==>
      H[s[i]].last.None? || (i == 0 && H[s[i]].last == Some(s[|s| - 1]))
  }

  /** s is the child list of p: each container whose parent is p once, and
      nothing else. */
  ghost predicate ChildList(H: Cells, p: Id, s: seq<Id>)
    requires p in H
  {
    Spells(H, H[p].child, s) && NoRepeats(s) && CacheCoherent(H, s)
    && (forall x :: x in s <==> x in H && H[x].parent == Some(p))
  }

  ghost predicate RanksParents(H: Cells, depth: map<Id, nat>) {
    forall x, p :: x in H && H[x].parent == Some(p) ==> p in H && x in depth && p in depth && depth[p] < depth[x]
  }

  /** Parents and child lists agree, parent chains end, and containers without
      parent stand alone. */
  ghost predicate IsPointerForest(H: Cells) {
    (forall p :: p in H ==> exists s :: ChildList(H, p, s))
    && (exists depth :: RanksParents(H, depth))
    && (forall x :: x in H && H[x].parent.None? ==> H[x].next.None? && H[x].last.None?)
  }

  ghost function TopSeq(f: Forest): seq<Id> {
    match f
    case Nil => []
    case Cons(t, _, r) => [t.id] + TopSeq(r)
  }

  lemma {:induction false} TopSeqFacts(f: Forest)
    requires NoDup(f)
    ensures NoRepeats(TopSeq(f)) && (forall x :: x in TopSeq(f) <==> x in Tops(f))
    ensures f.Cons? ==> TopSeq(f) != [] && TopSeq(f)[|TopSeq(f)| - 1] == LastId(f)
  {
    if f.Cons? {
      TopSeqFacts(f.rest);
      TopsInIds(f.rest);
    }
  }

  lemma {:induction false} ListSpells(H: Cells, f: Forest, p: Option<Id>, m: Cache)
    requires ListRep(H, f, p, m, None)
    ensures Spells(H, Head(f), TopSeq(f))
  {
    if f.Cons? {
      ListSpells(H, f.rest, p, TailCache(m));
      assert TopSeq(f)[1..] == TopSeq(f.rest);
    }
  }

  lemma {:induction false} TailUncached(H: Cells, f: Forest, p: Option<Id>)
    requires ListRep(H, f, p, InTail, None)
    ensures forall i :: 0 <= i < |TopSeq(f)| ==> TopSeq(f)[i] in H && H[TopSeq(f)[i]].last.None?
  {
    if f.Cons? {
      TailUncached(H, f.rest, p);
    }
  }

  lemma {:induction false} SibsCoherent(H: Cells, f: Forest, p: Option<Id>)
    requires Sibs(H, f, p) && NoDup(f)
    ensures CacheCoherent(H, TopSeq(f))
  {
    if f.Cons? {
      TopSeqFacts(f);
      TailUncached(H, f.rest, p);
    }
  }

  lemma {:induction false} ParentIsEdge(H: Cells, f: Forest, x: Id, q: Option<Id>)
    requires RootsRep(H, f) && NoDup(f) && x in Ids(f)
    ensures x in H && (H[x].parent == q <==> (q, x) in Edges(f, None))
  {
    var r := EdgeTotal(f, None, x);
    RootsParents(H, f);
    if (q, x) in Edges(f, None) { EdgeUnique(f, None, x, q, r); }
  }

  lemma {:induction false} HasChildList(H: Cells, f: Forest, p: Id)
    requires RootsRep(H, f) && NoDup(f) && Ids(f) == H.Keys && p in H
    ensures ChildList(H, p, TopSeq(KidsOf(f, p)))
  {
    var k := KidsOf(f, p);
    RootsKids(H, f, p);
    ListSpells(H, k, Some(p), HeadCache(k));
    TopSeqFacts(k);
    SibsCoherent(H, k, Some(p));
    forall x ensures x in TopSeq(k) <==> x in H && H[x].parent == Some(p) {
      KidsByEdge(f, None, p, x);
      EdgesIds(f, None);
      if x in H { ParentIsEdge(H, f, x, Some(p)); }
    }
  }

  lemma {:induction false} DepthRanks(H: Cells, f: Forest)
    requires RootsRep(H, f) && NoDup(f) && Ids(f) == H.Keys
    ensures RanksParents(H, map x | x in Ids(f) :: Depth(f, x))
  {
    var depth := map x | x in Ids(f) :: Depth(f, x);
    forall x, p | x in H && H[x].parent == Some(p) ensures p in H && x in depth && p in depth && depth[p] < depth[x] {
      ParentIsEdge(H, f, x, Some(p));
      EdgesIds(f, None);
      DepthDrops(f, None, p, x);
    }
  }

  lemma {:induction false} RootsStandAlone(H: Cells, f: Forest)
    requires RootsRep(H, f)
    ensures forall x :: x in Tops(f) ==> x in H && H[x].next.None? && H[x].last.None?
  {
    if f.Cons? {
      RootsStandAlone(H, f.rest);
    }
  }

  /** A heap that holds a forest during step 1 is a forest of pointers. */
  lemma {:induction false} RootsArePointerForest(H: Cells, f: Forest)
    requires RootsRep(H, f) && NoDup(f) && Ids(f) == H.Keys
    ensures IsPointerForest(H)
  {
    forall p | p in H ensures exists s :: ChildList(H, p, s) {
      HasChildList(H, f, p);
    }
    DepthRanks(H, f);
    forall x | x in H && H[x].parent.None? ensures H[x].next.None? && H[x].last.None? {
      ParentlessIsTop(H, f, x);
      RootsStandAlone(H, f);
    }
  }

  /** After step 2 the same holds of every list below the roots, and of the
      root list itself. */
  lemma {:induction false} SibsCoherentEverywhere(H: Cells, f: Forest, x: Id)
    requires Sibs(H, f, None) && NoDup(f) && x in Ids(f)
    ensures Spells(H, Head(f), TopSeq(f)) && CacheCoherent(H, TopSeq(f))
    ensures x in H && Spells(H, H[x].child, TopSeq(KidsOf(f, x))) && CacheCoherent(H, TopSeq(KidsOf(f, x)))
  {
    ListSpells(H, f, None, HeadCache(f));
    SibsCoherent(H, f, None);
    ListKids(H, f, x, None, HeadCache(f));
    ListSpells(H, KidsOf(f, x), Some(x), HeadCache(KidsOf(f, x)));
    SibsCoherent(H, KidsOf(f, x), Some(x));
  }
}
