/** Exactly when path strings are in order, whatever the width of their
    segments. */
module KeyOrder {
  import opened ThreadKeys
  import opened Arithmetic

  // ---- the digits of a segment ----

  lemma {:induction false} HexWidth(n: nat)
    ensures n < Pow16(|Hex(n)|) && (|Hex(n)| > 1 ==> n >= Pow16(|Hex(n)| - 1))
  {
    assert Pow16(1) == 16 * Pow16(0);
    if n >= 16 {
      HexWidth(n / 16);
    }
  }

  lemma {:induction false} PadWidth(s: string, d: nat)
    ensures |Pad(s, d)| == if |s| >= d then |s| else d
    decreases d - |s|
  {
    if |s| < d { PadWidth("0" + s, d); }
  }

  /** A segment is the number in as many digits as it has, and has more than
      the width only if the number needs them. */
  lemma {:induction false} SegmentShape(n: nat, d: nat)
    ensures var w := |Segment(n, d)|;
            w > 0 && Segment(n, d) == Fixed(n, w) && n < Pow16(w) && w >= d && (w > d && w > 1 ==> n >= Pow16(w - 1))
  {
    var h := |Hex(n)|;
    HexWidth(n);
    PadWidth(Hex(n), d);
    PadWidth(Hex(n), h);
    if h >= d {
      assert Segment(n, d) == Segment(n, h);
      SegmentIsFixed(n, h);
    } else {
      PowersGrow(h, d);
      SegmentIsFixed(n, d);
    }
  }

  lemma {:induction false} PowersGrow(a: nat, b: nat)
    requires a <= b
    ensures Pow16(a) <= Pow16(b)
    decreases b
  {
    if a < b { PowersGrow(a, b - 1); }
  }

  lemma {:induction false} WidthsGrow(m: nat, n: nat, d: nat)
    requires m < n
    ensures |Segment(m, d)| <= |Segment(n, d)|
  {
    SegmentShape(m, d);
    SegmentShape(n, d);
    if |Segment(m, d)| > |Segment(n, d)| {
      PowersGrow(|Segment(n, d)|, |Segment(m, d)| - 1);
    }
  }

  /** n without its last k hexadecimal digits. */
  ghost function Shifted(n: nat, k: nat): nat
    decreases k
  {
    if k == 0 then n else Shifted(n / 16, k - 1)
  }

  lemma {:induction false} ShiftDivides(n: nat, k: nat)
    ensures Shifted(n, k) == n / Pow16(k)
    decreases k
  {
    if k > 0 {
      ShiftDivides(n / 16, k - 1);
      DivideTwice(n, Pow16(k - 1));
    }
  }

  /** The leading digits of a number are those of a quotient. */
  lemma {:induction false} LeadingDigits(n: nat, w: nat, k: nat)
    ensures Fixed(n, w + k)[..w] == Fixed(Shifted(n, k), w)
    ensures k > 0 ==> Fixed(n, w + k)[w] == HEX[Shifted(n, k - 1) % 16]
    decreases k
  {
    if k > 0 {
      LeadingDigits(n / 16, w, k - 1);
    } else {
      assert Fixed(n, w)[..w] == Fixed(n, w);
    }
  }

  // ---- two segments ----

  /** For m < n: the segment of m, with or without more behind it, comes before
      that of n. Of two segments of different width the longer one's leading
      digits decide; if they are those of m, a colon meets the next digit. */
  ghost predicate SegmentsAscend(m: nat, n: nat, more: bool, d: nat) {
    var w, v := |Segment(m, d)|, |Segment(n, d)|;
    w >= v
    || m < Shifted(n, v - w)
    || (m == Shifted(n, v - w) && (more ==> Shifted(n, v - w - 1) % 16 >= 10))
  }

  lemma HexAgainstColon(h: nat)
    requires h < 16
    ensures if h >= 10 then ':' < HEX[h] else HEX[h] < ':'
  {
  }

  ghost predicate IsTail(s: string) {
    s == "" || s[0] == ':'
  }

  lemma {:induction false} SegmentTailOrder(m: nat, n: nat, s: string, t: string, d: nat)
    requires m < n && IsTail(s)
    ensures if SegmentsAscend(m, n, s != "", d) then StrLess(Segment(m, d) + s, Segment(n, d) + t)
            else StrLess(Segment(n, d) + t, Segment(m, d) + s)
  {
    var w, v := |Segment(m, d)|, |Segment(n, d)|;
    SegmentShape(m, d);
    SegmentShape(n, d);
    WidthsGrow(m, n, d);
    if w == v {
      FixedMonotone(m, n, w);
      StrExtend(Fixed(m, w), Fixed(n, w), s, t);
    } else {
      WiderSegment(m, n, s, t, w, v - w);
    }
  }

  lemma {:induction false} WiderSegment(m: nat, n: nat, s: string, t: string, w: nat, k: nat)
    requires k > 0 && m < Pow16(w) && n < Pow16(w + k) && IsTail(s)
    ensures var q := Shifted(n, k);
            if m < q || (m == q && (s != "" ==> Shifted(n, k - 1) % 16 >= 10))
            then StrLess(Fixed(m, w) + s, Fixed(n, w + k) + t)
            else StrLess(Fixed(n, w + k) + t, Fixed(m, w) + s)
  {
    var q, h, back := SplitSegment(n, t, w, k);
    LeadDecides(m, q, w, h, s, back);
  }

  lemma {:induction false} SplitSegment(n: nat, t: string, w: nat, k: nat) returns (q: nat, h: nat, back: string)
    requires k > 0 && n < Pow16(w + k)
    ensures q == Shifted(n, k) && q < Pow16(w) && h == Shifted(n, k - 1) % 16 && h < 16
    ensures Fixed(n, w + k) + t == Fixed(q, w) + back && back != "" && back[0] == HEX[h]
  {
    LeadingDigits(n, w, k);
    QuotientFits(n, w, k);
    q, h := Shifted(n, k), Shifted(n, k - 1) % 16;
    back := CutAppend(Fixed(n, w + k), w, t);
  }

  lemma CutAppend(x: string, w: nat, t: string) returns (back: string)
    requires w < |x|
    ensures x + t == x[..w] + back && back != "" && back[0] == x[w]
  {
    back := x[w..] + t;
  }

  lemma {:induction false} LeadDecides(m: nat, q: nat, w: nat, h: nat, s: string, back: string)
    requires m < Pow16(w) && q < Pow16(w) && IsTail(s) && h < 16 && back != "" && back[0] == HEX[h]
    ensures if m < q || (m == q && (s != "" ==> h >= 10)) then StrLess(Fixed(m, w) + s, Fixed(q, w) + back)
            else StrLess(Fixed(q, w) + back, Fixed(m, w) + s)
  {
    if m < q {
      FixedMonotone(m, q, w);
      StrExtend(Fixed(m, w), Fixed(q, w), s, back);
    } else if q < m {
      FixedMonotone(q, m, w);
      StrExtend(Fixed(q, w), Fixed(m, w), back, s);
    } else {
      TailAgainstDigit(s, back, h);
      StrSamePrefix(Fixed(q, w), s, back);
      StrSamePrefix(Fixed(q, w), back, s);
    }
  }

  lemma {:induction false} TailAgainstDigit(s: string, back: string, h: nat)
    requires IsTail(s) && h < 16 && back != "" && back[0] == HEX[h]
    ensures if s != "" ==> h >= 10 then StrLess(s, back) else StrLess(back, s)
  {
    HexAgainstColon(h);
  }

  lemma {:induction false} QuotientFits(n: nat, w: nat, k: nat)
    requires n < Pow16(w + k)
    ensures Shifted(n, k) < Pow16(w)
    decreases k
  {
    if k > 0 {
      QuotientFits(n / 16, w, k - 1);
    }
  }

  // ---- two positions ----

  /** For a position a that comes before b in preorder: so do their strings. */
  ghost predicate KeysAscend(a: seq<nat>, b: seq<nat>, d: nat) {
    a == [] || b == []
    || if a[0] == b[0] then KeysAscend(a[1..], b[1..], d) else SegmentsAscend(a[0], b[0], |a| > 1, d)
  }

  lemma {:induction false} TailOrderIff(a: seq<nat>, b: seq<nat>, d: nat)
    requires PosLess(a, b)
    ensures if KeysAscend(a, b, d) then StrLess(KeyTail(a, d), KeyTail(b, d)) else StrLess(KeyTail(b, d), KeyTail(a, d))
    decreases |a|
  {
    if a != [] {
      var s, t := KeyTail(a[1..], d), KeyTail(b[1..], d);
      ColonFirst(Segment(a[0], d), s, Segment(b[0], d), t);
      ColonFirst(Segment(b[0], d), t, Segment(a[0], d), s);
      if a[0] == b[0] {
        TailOrderIff(a[1..], b[1..], d);
        StrSamePrefix(Segment(a[0], d), s, t);
        StrSamePrefix(Segment(a[0], d), t, s);
      } else {
        TailStartsWithColon(a[1..], d);
        SegmentTailOrder(a[0], b[0], s, t, d);
      }
    }
  }

  lemma TailStartsWithColon(a: seq<nat>, d: nat)
    ensures IsTail(KeyTail(a, d)) && (KeyTail(a, d) == "" <==> a == [])
  {
  }

  lemma {:induction false} ColonFirst(x: string, s: string, y: string, t: string)
    ensures StrLess(":" + x + s, ":" + y + t) <==> StrLess(x + s, y + t)
  {
    assert ":" + x + s == ":" + (x + s) && ":" + y + t == ":" + (y + t);
    StrSamePrefix(":", x + s, y + t);
  }

  lemma {:induction false} TailIsPath(a: seq<nat>, d: nat)
    requires a != []
    ensures KeyTail(a, d) == ":" + PathString(a, d)
  {
    PathStringFromLeft(a, d);
  }

  /** The path strings of two positions in preorder are in string order if and
      only if the first segments that differ are; otherwise they are in the
      opposite order. */
  lemma {:induction false} KeyOrderIff(a: seq<nat>, b: seq<nat>, d: nat)
    requires a != [] && PosLess(a, b)
    ensures if KeysAscend(a, b, d) then StrLess(PathString(a, d), PathString(b, d))
            else StrLess(PathString(b, d), PathString(a, d))
  {
    TailOrderIff(a, b, d);
    TailIsPath(a, d);
    TailIsPath(b, d);
    StrSamePrefix(":", PathString(a, d), PathString(b, d));
    StrSamePrefix(":", PathString(b, d), PathString(a, d));
  }

  /** Segments that fit the width are always in order. */
  lemma {:induction false} FittingKeysAscend(a: seq<nat>, b: seq<nat>, d: nat)
    requires a != [] && PosLess(a, b) && Fits(a, d) && Fits(b, d)
    ensures KeysAscend(a, b, d)
  {
    KeyOrderIff(a, b, d);
    KeysEmbedPositions(a, b, d);
    if !KeysAscend(a, b, d) { StrAsymmetric(PathString(a, d), PathString(b, d)); }
  }

  /** Without the bound the order can fail: in width 1, position 16 sorts
      before position 15. */
  lemma {:induction false} NarrowKeysMisorder()
    ensures PosLess([15], [16]) && !KeysAscend([15], [16], 1) && StrLess(PathString([16], 1), PathString([15], 1))
  {
    assert Hex(16) == Hex(1) + [HEX[0]] == "10";
    assert Segment(16, 1) == "10" && Segment(15, 1) == "f";
    assert Pow16(1) == 16 * Pow16(0);
    KeyOrderIff([15], [16], 1);
  }

  // ---- one key as the beginning of another ----

  /** The segment of m is, digit for digit, the beginning of the wider one of n. */
  ghost predicate SegmentStarts(m: nat, n: nat, d: nat) {
    var w, v := |Segment(m, d)|, |Segment(n, d)|;
    w < v && m == Shifted(n, v - w)
  }

  /** The last segment of a is the beginning of a wider one of b at the same
      place. */
  ghost predicate LooksAbove(a: seq<nat>, b: seq<nat>, d: nat) {
    a != [] && b != []
    && if a[0] == b[0] then LooksAbove(a[1..], b[1..], d) else |a| == 1 && SegmentStarts(a[0], b[0], d)
  }

  lemma {:induction false} SegmentHasNoColon(n: nat, d: nat)
    ensures NoColon(Segment(n, d))
  {
    HexNoColon(n);
    PadNoColon(Hex(n), d);
  }

  lemma {:induction false} FixedDiffers(m: nat, n: nat, w: nat, s: string, t: string)
    requires m != n && m < Pow16(w) && n < Pow16(w)
    ensures !(Fixed(m, w) + s <= Fixed(n, w) + t)
  {
    if m < n {
      FixedMonotone(m, n, w);
      StrExtend(Fixed(m, w), Fixed(n, w), s, t);
    } else {
      FixedMonotone(n, m, w);
      StrExtend(Fixed(n, w), Fixed(m, w), t, s);
    }
  }

  /** A colon never meets a digit. */
  lemma {:induction false} ColonStops(x: string, s: string, y: string, t: string)
    requires NoColon(x) && NoColon(y) && IsTail(s) && IsTail(t)
    ensures |x| < |y| && s != "" ==> !(x + s <= y + t)
    ensures |x| > |y| ==> !(x + s <= y + t)
  {
    if |x| < |y| && s != "" {
      assert (x + s)[|x|] == ':' && (y + t)[|x|] == y[|x|];
    }
    if |x| > |y| && t != "" {
      assert (y + t)[|y|] == ':' && (x + s)[|y|] == x[|y|];
    }
  }

  lemma {:induction false} SegmentPrefix(m: nat, n: nat, s: string, t: string, d: nat)
    requires m != n && IsTail(s) && IsTail(t)
    ensures Segment(m, d) + s <= Segment(n, d) + t <==> s == "" && SegmentStarts(m, n, d)
  {
    var x, y := Segment(m, d), Segment(n, d);
    SegmentShape(m, d);
    SegmentShape(n, d);
    SegmentHasNoColon(m, d);
    SegmentHasNoColon(n, d);
    ColonStops(x, s, y, t);
    if |x| == |y| {
      FixedDiffers(m, n, |x|, s, t);
    } else if |x| < |y| && s == "" {
      WiderPrefix(m, n, t, |x|, |y| - |x|);
      assert x + s == x;
    }
  }

  lemma {:induction false} WiderPrefix(m: nat, n: nat, t: string, w: nat, k: nat)
    requires k > 0 && m < Pow16(w) && n < Pow16(w + k)
    ensures Fixed(m, w) <= Fixed(n, w + k) + t <==> m == Shifted(n, k)
  {
    var q, h, back := SplitSegment(n, t, w, k);
    if m != q {
      FixedDiffers(m, q, w, "", back);
      assert Fixed(m, w) + "" == Fixed(m, w);
    }
  }

  lemma {:induction false} TailPrefixIff(a: seq<nat>, b: seq<nat>, d: nat)
    ensures KeyTail(a, d) <= KeyTail(b, d) <==> a <= b || LooksAbove(a, b, d)
    decreases |a|
  {
    if a != [] && b != [] {
      var s, t := KeyTail(a[1..], d), KeyTail(b[1..], d);
      var x, y := Segment(a[0], d), Segment(b[0], d);
      ColonPrefix(x, s, y, t);
      PrefixByHead(a, b);
      TailStartsWithColon(a[1..], d);
      TailStartsWithColon(b[1..], d);
      if a[0] == b[0] {
        TailPrefixIff(a[1..], b[1..], d);
        StrSamePrefix(x, s, t);
      } else {
        SegmentPrefix(a[0], b[0], s, t, d);
      }
    }
  }

  lemma {:induction false} ColonPrefix(x: string, s: string, y: string, t: string)
    ensures ":" + x + s <= ":" + y + t <==> x + s <= y + t
  {
    assert ":" + x + s == ":" + (x + s) && ":" + y + t == ":" + (y + t);
    StrSamePrefix(":", x + s, y + t);
  }

  /** One path string starts with another if and only if the position does, or
      only looks as if it did. */
  lemma {:induction false} KeyPrefixIff(a: seq<nat>, b: seq<nat>, d: nat)
    requires a != [] && b != []
    ensures PathString(a, d) <= PathString(b, d) <==> a <= b || LooksAbove(a, b, d)
  {
    TailPrefixIff(a, b, d);
    TailIsPath(a, d);
    TailIsPath(b, d);
    StrSamePrefix(":", PathString(a, d), PathString(b, d));
  }

  /** Segments that fit the width never look so. */
  lemma {:induction false} FittingNeverLooksAbove(a: seq<nat>, b: seq<nat>, d: nat)
    requires Fits(a, d) && Fits(b, d)
    ensures !LooksAbove(a, b, d)
    decreases |a|
  {
    if a != [] && b != [] {
      if a[0] == b[0] {
        FittingNeverLooksAbove(a[1..], b[1..], d);
      } else {
        SegmentFixed(a[0], d);
        SegmentFixed(b[0], d);
      }
    }
  }

  /** Without the bound it can happen: in width 1, position 1 looks like an
      ancestor of position 16. */
  lemma {:induction false} NarrowKeysLookAbove()
    ensures SegmentStarts(1, 16, 1) && LooksAbove([1], [16], 1)
    ensures PathString([1], 1) == "1" && PathString([16], 1) == "10" && PathString([1], 1) <= PathString([16], 1)
  {
    assert Hex(16) == Hex(1) + [HEX[0]] == "10";
    assert Segment(16, 1) == "10" && Segment(1, 1) == "1";
    assert Shifted(16, 1) == Shifted(1, 0) == 1;
    KeyPrefixIff([1], [16], 1);
  }
}
