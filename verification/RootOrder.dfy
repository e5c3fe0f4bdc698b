/** In what order path strings come is decided by the numbers of the roots:
    below a root every segment fits. */
module RootOrder {
  import opened Options
  import opened Forests
  import opened Prune
  import opened Sort
  import opened ThreadKeys
  import opened KeyOrder
  import opened ThreadPaths
  import opened Threading
  import opened ThreadOrder

  /** The keys in tree s, at root number i, come before those in tree t, at
      root number j: that of the root itself, and those below it. */
  ghost predicate InOrder(s: Tree, i: nat, t: Tree, j: nat, d: nat) {
    IsShell(s.top, s.kids) || IsShell(t.top, t.kids)
    || ((s.top.msg.Some? ==> SegmentsAscend(i, j, false, d)) && (s.kids.Cons? ==> SegmentsAscend(i, j, true, d)))
  }

  ghost predicate RootsAscend(f: Forest, d: nat) {
    forall i, j :: 0 <= i < j < |Trees(f)| ==> InOrder(Trees(f)[i], i, Trees(f)[j], j, d)
  }

  // ---- entries and their roots ----

  /** The first segment of an entry is the number of its root. */
  lemma {:induction false} EntryRoot(f: Forest, i: nat, e: Entry)
    requires e in Entries(f, [], i, None)
    ensures e.pos != [] && i <= e.pos[0] < i + |Trees(f)|
    ensures var t := Trees(f)[e.pos[0] - i]; if |e.pos| == 1 then e.node == t.top else t.kids.Cons?
    decreases f
  {
    var ks, rs := Entries(f.kids, [] + [i], 0, Some(f.top)), Entries(f.rest, [], i + 1, None);
    if e in rs {
      EntryRoot(f.rest, i + 1, e);
    } else if e in ks {
      EntriesUnder(f.kids, [] + [i], 0, Some(f.top));
      assert Under([] + [i], 0, e.pos);
    }
  }

  /** Below its root, every segment of an entry is below the number of messages. */
  lemma {:induction false} InnerSegments(f: Forest, i: nat, n: nat, e: Entry)
    requires PrunedRoots(f) && |Messages(f)| <= n && e in Entries(f, [], i, None)
    ensures Below(e.pos, n, 1)
    decreases f
  {
    var ks, rs := Entries(f.kids, [] + [i], 0, Some(f.top)), Entries(f.rest, [], i + 1, None);
    if e in rs {
      InnerSegments(f.rest, i + 1, n, e);
    } else if e in ks {
      PrunedPositionBounded(f.kids, [] + [i], 0, Some(f.top), n, e);
    }
  }

  lemma {:induction false} PrunedMessage(f: Forest, pfx: seq<nat>, i: nat, parent: Option<Label>) returns (e: Entry)
    requires Pruned(f) && f.Cons?
    ensures e in Entries(f, pfx, i, parent) && e.node.msg.Some?
    decreases f
  {
    if f.top.msg.Some? {
      e := Entry(f.top, pfx + [i], Props(f.top, f.kids, parent, i));
    } else {
      e := PrunedMessage(f.kids, pfx + [i], 0, Some(f.top));
    }
  }

  /** A message of the r-th tree, at its root or below it. */
  lemma {:induction false} TreeMessage(f: Forest, i: nat, r: nat, below: bool) returns (e: Entry)
    requires PrunedRoots(f) && r < |Trees(f)|
    requires if below then Trees(f)[r].kids.Cons? else Trees(f)[r].top.msg.Some?
    ensures e in Entries(f, [], i, None) && e.node.msg.Some?
    ensures e.pos != [] && e.pos[0] == i + r && (|e.pos| > 1 <==> below)
    decreases f
  {
    if r > 0 {
      e := TreeMessage(f.rest, i + 1, r - 1, below);
    } else if below {
      e := PrunedMessage(f.kids, [] + [i], 0, Some(f.top));
      EntriesUnder(f.kids, [] + [i], 0, Some(f.top));
      assert Under([] + [i], 0, e.pos);
    } else {
      e := Entry(f.top, [] + [i], Props(f.top, f.kids, None, i));
    }
  }

  // ---- the walk and the roots ----

  lemma {:induction false} SmallerComesFirst(f: Forest, a: nat, b: nat)
    requires a < |AllEntries(f)| && b < |AllEntries(f)|
    requires PosLess(AllEntries(f)[a].pos, AllEntries(f)[b].pos)
    ensures a < b
  {
    EntriesIncrease(f, [], 0, None);
    NotBothLess(AllEntries(f)[a].pos, AllEntries(f)[b].pos);
  }

  lemma NotBothLess(a: seq<nat>, b: seq<nat>)
    requires PosLess(a, b)
    ensures !PosLess(b, a)
  {
  }

  lemma {:induction false} WalkOrdersEntries(f: Forest, n: nat, x: Entry, y: Entry)
    requires n > 0 && WalkAscends(f, n) && x in AllEntries(f) && y in AllEntries(f)
    requires x.node.msg.Some? && y.node.msg.Some? && PosLess(x.pos, y.pos)
    ensures KeysAscend(x.pos, y.pos, DigitNum(n))
  {
    var a :| 0 <= a < |AllEntries(f)| && AllEntries(f)[a] == x;
    var b :| 0 <= b < |AllEntries(f)| && AllEntries(f)[b] == y;
    SmallerComesFirst(f, a, b);
  }

  lemma {:induction false} WalkOrdersTrees(f: Forest, n: nat, i: nat, j: nat, below: bool)
    requires n > 0 && PrunedRoots(f) && WalkAscends(f, n) && i < j < |Trees(f)|
    requires if below then Trees(f)[i].kids.Cons? else Trees(f)[i].top.msg.Some?
    requires !IsShell(Trees(f)[j].top, Trees(f)[j].kids)
    ensures SegmentsAscend(i, j, below, DigitNum(n))
  {
    var x := TreeMessage(f, 0, i, below);
    var y := TreeMessage(f, 0, j, Trees(f)[j].kids.Cons?);
    WalkOrdersEntries(f, n, x, y);
  }

  lemma {:induction false} RootsDecide(f: Forest, d: nat, i: nat, j: nat, below: bool)
    requires RootsAscend(f, d) && i < j < |Trees(f)| && !IsShell(Trees(f)[j].top, Trees(f)[j].kids)
    requires if below then Trees(f)[i].kids.Cons? else Trees(f)[i].top.msg.Some?
    ensures SegmentsAscend(i, j, below, d)
  {
    assert InOrder(Trees(f)[i], i, Trees(f)[j], j, d);
  }

  /** The tree a message is in. */
  lemma {:induction false} MessageTree(f: Forest, e: Entry) returns (i: nat)
    requires e in AllEntries(f) && e.node.msg.Some?
    ensures e.pos != [] && e.pos[0] == i < |Trees(f)| && !IsShell(Trees(f)[i].top, Trees(f)[i].kids)
    ensures if |e.pos| > 1 then Trees(f)[i].kids.Cons? else Trees(f)[i].top.msg.Some?
  {
    EntryRoot(f, 0, e);
    i := e.pos[0];
  }

  lemma {:induction false} SameRoot(a: seq<nat>, b: seq<nat>, d: nat)
    requires a != [] && b != [] && a[0] == b[0] && PosLess(a, b) && Fits(a[1..], d) && Fits(b[1..], d)
    ensures KeysAscend(a, b, d)
  {
    if |a| > 1 { FittingKeysAscend(a[1..], b[1..], d); }
  }

  lemma {:induction false} RootsOrderEntries(f: Forest, n: nat, x: Entry, y: Entry)
    requires n > 0 && PrunedRoots(f) && |Messages(f)| <= n && RootsAscend(f, DigitNum(n))
    requires x in AllEntries(f) && y in AllEntries(f) && x.node.msg.Some? && y.node.msg.Some? && PosLess(x.pos, y.pos)
    ensures KeysAscend(x.pos, y.pos, DigitNum(n))
  {
    if x.pos != [] && x.pos[0] == y.pos[0] {
      TailFits(f, n, x);
      TailFits(f, n, y);
      SameRoot(x.pos, y.pos, DigitNum(n));
    } else {
      var i := MessageTree(f, x);
      var j := MessageTree(f, y);
      RootsDecide(f, DigitNum(n), i, j, |x.pos| > 1);
    }
  }

  lemma {:induction false} TailFits(f: Forest, n: nat, e: Entry)
    requires n > 0 && PrunedRoots(f) && |Messages(f)| <= n && e in AllEntries(f) && e.pos != []
    ensures Fits(e.pos[1..], DigitNum(n))
  {
    InnerSegments(f, 0, n, e);
  }

  /** The messages of the walk ascend as keys if and only if the roots do, the
      shells left out. */
  lemma {:induction false} WalkAscendsIffRootsDo(f: Forest, docs: seq<Match>)
    requires HoldsDocs(f, docs)
    ensures WalkAscends(f, |docs|) <==> RootsAscend(f, DigitNum(|docs|))
  {
    var d := DigitNum(|docs|);
    if WalkAscends(f, |docs|) {
      forall i, j | 0 <= i < j < |Trees(f)| ensures InOrder(Trees(f)[i], i, Trees(f)[j], j, d) {
        if !IsShell(Trees(f)[j].top, Trees(f)[j].kids) {
          if Trees(f)[i].top.msg.Some? { WalkOrdersTrees(f, |docs|, i, j, false); }
          if Trees(f)[i].kids.Cons? { WalkOrdersTrees(f, |docs|, i, j, true); }
        }
      }
    }
    if RootsAscend(f, d) {
      forall a, b | 0 <= a < b < |AllEntries(f)| && AllEntries(f)[a].node.msg.Some? && AllEntries(f)[b].node.msg.Some?
        ensures KeysAscend(AllEntries(f)[a].pos, AllEntries(f)[b].pos, d)
      {
        EntriesIncrease(f, [], 0, None);
        RootsOrderEntries(f, |docs|, AllEntries(f)[a], AllEntries(f)[b]);
      }
    }
  }

  /** The path of y extends that of x exactly when y is a descendant of x, or
      when x is a root and its number is, digit for digit, the beginning of the
      wider number of y's root. */
  lemma {:induction false} PathExtendsIff(f: Forest, docs: seq<Match>, i: nat, j: nat)
    requires HoldsDocs(f, docs) && i < |AllEntries(f)| && j < |AllEntries(f)| && i != j
    requires AllEntries(f)[i].node.msg.Some? && AllEntries(f)[j].node.msg.Some?
    ensures var x, y := AllEntries(f)[i], AllEntries(f)[j];
            && x.node.id in Ids(f) && x.pos != [] && y.pos != []
            && (PathOf(f, docs, x.node.docid) <= PathOf(f, docs, y.node.docid)
                <==> y.node.id in Ids(KidsOf(f, x.node.id))
                     || (|x.pos| == 1 && SegmentStarts(x.pos[0], y.pos[0], DigitNum(|docs|))))
  {
    var x, y := AllEntries(f)[i], AllEntries(f)[j];
    assert x in AllEntries(f) && y in AllEntries(f);
    EntryRoot(f, 0, x);
    EntryRoot(f, 0, y);
    PathExtendsByPosition(f, docs, i, j);
    TailFits(f, |docs|, x);
    TailFits(f, |docs|, y);
    FittingNeverLooksAbove(x.pos[1..], y.pos[1..], DigitNum(|docs|));
  }
}
