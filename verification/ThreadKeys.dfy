/** Thread-path strings: hexadecimal segments of one width joined by colons,
    made to be sorted by plain string comparison. */
module ThreadKeys {

  const HEX := "0123456789abcdef"

  function Pow16(d: nat): (p: nat)
    ensures p > 0
  {
    if d == 0 then 1 else 16 * Pow16(d - 1)
  }

  /** The number of hexadecimal digits that `matchnum` values need: the least
      d with 16^d >= matchnum. */
  function DigitsFrom(matchnum: nat, d: nat): (r: nat)
    requires matchnum > 0 && (d > 0 ==> Pow16(d - 1) < matchnum)
    ensures Pow16(r) >= matchnum && (r > 0 ==> Pow16(r - 1) < matchnum)
    decreases matchnum - Pow16(d)
  {
    if Pow16(d) >= matchnum then d else DigitsFrom(matchnum, d + 1)
  }

  function DigitNum(matchnum: nat): (r: nat)
    requires matchnum > 0
    ensures Pow16(r) >= matchnum && (r > 0 ==> Pow16(r - 1) < matchnum)
  {
    DigitsFrom(matchnum, 0)
  }

  function Hex(n: nat): (s: string)
    ensures |s| > 0
  {
    if n < 16 then [HEX[n]] else Hex(n / 16) + [HEX[n % 16]]
  }

  function Pad(s: string, d: nat): string
    decreases d - |s|
  {
    if |s| >= d then s else Pad("0" + s, d)
  }

  /** printf of n with the format "%0<d>x". */
  function Segment(n: nat, d: nat): string {
    Pad(Hex(n), d)
  }

  /** The string the path loop builds, left to right. */
  function PathString(pos: seq<nat>, d: nat): string {
    if pos == [] then ""
    else if |pos| == 1 then Segment(pos[0], d)
    else PathString(pos[..|pos| - 1], d) + ":" + Segment(pos[|pos| - 1], d)
  }

  // ---- string order and position order ----

  predicate StrLess(a: string, b: string) {
    b != [] && (a == [] || a[0] < b[0] || (a[0] == b[0] && StrLess(a[1..], b[1..])))
  }

  /** Preorder on positions: a prefix comes first. */
  ghost predicate PosLess(a: seq<nat>, b: seq<nat>) {
    b != [] && (a == [] || a[0] < b[0] || (a[0] == b[0] && PosLess(a[1..], b[1..])))
  }

  lemma StrIrreflexive(a: string)
    ensures !StrLess(a, a)
  {
  }

  lemma StrAsymmetric(a: string, b: string)
    requires StrLess(a, b)
    ensures !StrLess(b, a)
  {
  }

  lemma StrTransitive(a: string, b: string, c: string)
    requires StrLess(a, b) && StrLess(b, c)
    ensures StrLess(a, c)
  {
    if a != [] && a[0] == b[0] && b[0] == c[0] {
      StrTransitive(a[1..], b[1..], c[1..]);
    }
  }

  lemma PosTotal(a: seq<nat>, b: seq<nat>)
    ensures a == b || PosLess(a, b) || PosLess(b, a)
  {
  }

  lemma {:induction false} StrSamePrefix(c: string, a: string, b: string)
    ensures StrLess(c + a, c + b) <==> StrLess(a, b)
    ensures c + a <= c + b <==> a <= b
    decreases |c|
  {
    if c == [] {
      assert c + a == a && c + b == b;
    } else {
      assert (c + a)[1..] == c[1..] + a && (c + b)[1..] == c[1..] + b;
      StrSamePrefix(c[1..], a, b);
      if a <= b { assert c + a <= c + b; }
      if c + a <= c + b {
        assert forall i :: 0 <= i < |a| ==> a[i] == (c + a)[|c| + i] && b[i] == (c + b)[|c| + i];
      }
    }
  }

  lemma {:induction false} StrExtend(a: string, b: string, x: string, y: string)
    requires |a| == |b| && StrLess(a, b)
    ensures StrLess(a + x, b + y) && !(a + x <= b + y) && !(b + y <= a + x)
    decreases |a|
  {
    if a[0] == b[0] {
      assert (a + x)[1..] == a[1..] + x && (b + y)[1..] == b[1..] + y;
      StrExtend(a[1..], b[1..], x, y);
      PrefixByHead(a + x, b + y);
      PrefixByHead(b + y, a + x);
    }
  }

  // ---- segments of one width ----

  /** Exactly w digits. */
  ghost function Fixed(n: nat, w: nat): (s: string)
    ensures |s| == w
  {
    if w == 0 then "" else Fixed(n / 16, w - 1) + [HEX[n % 16]]
  }

  lemma {:induction false} PadSnoc(s: string, c: char, w: nat)
    ensures Pad(s + [c], w + 1) == Pad(s, w) + [c]
    decreases w - |s|
  {
    if |s| < w {
      assert "0" + (s + [c]) == ("0" + s) + [c];
      PadSnoc("0" + s, c, w);
    }
  }

  lemma {:induction false} ZerosAreFixed(w: nat)
    requires w > 0
    ensures Pad("0", w) == Fixed(0, w)
  {
    if w > 1 {
      ZerosAreFixed(w - 1);
      PadSnoc("0", '0', w - 1);
      PadZero(w);
    } else {
      assert Fixed(0, 0) == "";
    }
  }

  lemma PadZero(w: nat)
    requires w > 1
    ensures Pad("0", w) == Pad("0" + "0", w)
  {
  }

  lemma {:induction false} DigitIsFixed(n: nat, w: nat)
    requires w > 0 && n < 16
    ensures Segment(n, w) == Fixed(n, w)
  {
    if w > 1 {
      ZerosAreFixed(w - 1);
      PadSnoc("0", HEX[n], w - 1);
      assert Pad([HEX[n]], w) == Pad("0" + [HEX[n]], w);
    } else {
      assert Fixed(n / 16, 0) == "";
    }
  }

  lemma {:induction false} SegmentIsFixed(n: nat, w: nat)
    requires w > 0 && n < Pow16(w)
    ensures Segment(n, w) == Fixed(n, w)
  {
    if n < 16 {
      DigitIsFixed(n, w);
    } else {
      assert Pow16(1) == 16 * Pow16(0);
      assert n / 16 < Pow16(w - 1);
      SegmentIsFixed(n / 16, w - 1);
      PadSnoc(Hex(n / 16), HEX[n % 16], w - 1);
    }
  }

  lemma {:induction false} FixedMonotone(a: nat, b: nat, w: nat)
    requires a < b < Pow16(w)
    ensures StrLess(Fixed(a, w), Fixed(b, w))
    decreases w
  {
    if w > 0 {
      if a / 16 < b / 16 {
        FixedMonotone(a / 16, b / 16, w - 1);
        StrExtend(Fixed(a / 16, w - 1), Fixed(b / 16, w - 1), [HEX[a % 16]], [HEX[b % 16]]);
      } else {
        assert a / 16 == b / 16 && a % 16 < b % 16;
        StrSamePrefix(Fixed(a / 16, w - 1), [HEX[a % 16]], [HEX[b % 16]]);
        HexMonotone(a % 16, b % 16);
      }
    }
  }

  lemma HexMonotone(a: nat, b: nat)
    requires a < b < 16
    ensures HEX[a] < HEX[b]
  {
  }

  /** The width that "%0<d>x" really gives. */
  ghost function Width(d: nat): nat {
    if d == 0 then 1 else d
  }

  ghost predicate Fits(pos: seq<nat>, d: nat) {
    forall i :: 0 <= i < |pos| ==> pos[i] < Pow16(d)
  }

  lemma {:induction false} SegmentFixed(n: nat, d: nat)
    requires n < Pow16(d)
    ensures Segment(n, d) == Fixed(n, Width(d)) && n < Pow16(Width(d))
  {
    if d == 0 {
      assert Pow16(1) == 16 * Pow16(0);
      SegmentIsFixed(n, 1);
      assert Segment(0, 0) == Hex(0) == Segment(0, 1);
    } else {
      SegmentIsFixed(n, d);
    }
  }

  // ---- the order embedding ----

  /** The path string, unrolled from the left. */
  ghost function KeyTail(pos: seq<nat>, d: nat): string {
    if pos == [] then "" else ":" + Segment(pos[0], d) + KeyTail(pos[1..], d)
  }

  lemma {:induction false} KeyTailSnoc(pos: seq<nat>, n: nat, d: nat)
    ensures KeyTail(pos + [n], d) == KeyTail(pos, d) + ":" + Segment(n, d)
    decreases |pos|
  {
    if pos == [] {
      assert (pos + [n])[1..] == [];
    } else {
      assert (pos + [n])[1..] == pos[1..] + [n];
      KeyTailSnoc(pos[1..], n, d);
    }
  }

  lemma {:induction false} PathStringFromLeft(pos: seq<nat>, d: nat)
    requires pos != []
    ensures PathString(pos, d) == Segment(pos[0], d) + KeyTail(pos[1..], d)
    decreases |pos|
  {
    if |pos| > 1 {
      var n := |pos| - 1;
      PathStringFromLeft(pos[..n], d);
      assert pos[1..] == pos[..n][1..] + [pos[n]];
      KeyTailSnoc(pos[..n][1..], pos[n], d);
    }
  }

  lemma {:induction false} TailOrder(a: seq<nat>, b: seq<nat>, d: nat)
    requires Fits(a, d) && Fits(b, d)
    ensures PosLess(a, b) ==> StrLess(KeyTail(a, d), KeyTail(b, d))
    ensures a <= b <==> KeyTail(a, d) <= KeyTail(b, d)
    decreases |a|
  {
    if a != [] && b != [] {
      SegmentOrder(a[0], b[0], a[1..], b[1..], d);
      TailOrder(a[1..], b[1..], d);
      var x := Segment(a[0], d) + KeyTail(a[1..], d);
      var y := Segment(b[0], d) + KeyTail(b[1..], d);
      assert KeyTail(a, d) == ":" + x && KeyTail(b, d) == ":" + y;
      StrSamePrefix(":", x, y);
      PrefixByHead(a, b);
    }
  }

  lemma PrefixByHead<T>(a: seq<T>, b: seq<T>)
    requires a != [] && b != []
    ensures a <= b <==> a[0] == b[0] && a[1..] <= b[1..]
  {
    if a[0] == b[0] && a[1..] <= b[1..] {
      assert a == [a[0]] + a[1..] && b == [b[0]] + b[1..];
    }
  }

  lemma {:induction false} SegmentOrder(m: nat, n: nat, a: seq<nat>, b: seq<nat>, d: nat)
    requires m < Pow16(d) && n < Pow16(d)
    ensures var x, y := Segment(m, d) + KeyTail(a, d), Segment(n, d) + KeyTail(b, d);
            && (m < n ==> StrLess(x, y))
            && (m != n ==> !(x <= y))
            && (m == n ==> (StrLess(x, y) <==> StrLess(KeyTail(a, d), KeyTail(b, d))))
            && (m == n ==> (x <= y <==> KeyTail(a, d) <= KeyTail(b, d)))
  {
    SegmentFixed(m, d);
    SegmentFixed(n, d);
    var w := Width(d);
    if m < n {
      FixedMonotone(m, n, w);
      StrExtend(Fixed(m, w), Fixed(n, w), KeyTail(a, d), KeyTail(b, d));
    } else if n < m {
      FixedMonotone(n, m, w);
      StrExtend(Fixed(n, w), Fixed(m, w), KeyTail(b, d), KeyTail(a, d));
    } else {
      StrSamePrefix(Fixed(m, w), KeyTail(a, d), KeyTail(b, d));
    }
  }

  /** As long as every segment fits the width, string order on path strings is
      preorder on positions, and one string starts with another exactly when
      the position does. */
  lemma {:induction false} KeysEmbedPositions(a: seq<nat>, b: seq<nat>, d: nat)
    requires a != [] && b != [] && Fits(a, d) && Fits(b, d)
    ensures StrLess(PathString(a, d), PathString(b, d)) <==> PosLess(a, b)
    ensures PathString(a, d) <= PathString(b, d) <==> a <= b
  {
    KeyOrderForward(a, b, d);
    KeyOrderForward(b, a, d);
    PosTotal(a, b);
    StrIrreflexive(PathString(a, d));
    if StrLess(PathString(a, d), PathString(b, d)) { StrAsymmetric(PathString(a, d), PathString(b, d)); }
  }

  lemma {:induction false} KeyOrderForward(a: seq<nat>, b: seq<nat>, d: nat)
    requires a != [] && b != [] && Fits(a, d) && Fits(b, d)
    ensures PosLess(a, b) ==> StrLess(PathString(a, d), PathString(b, d))
    ensures PathString(a, d) <= PathString(b, d) <==> a <= b
  {
    PathStringFromLeft(a, d);
    PathStringFromLeft(b, d);
    SegmentOrder(a[0], b[0], a[1..], b[1..], d);
    TailOrder(a[1..], b[1..], d);
    PrefixByHead(a, b);
  }

  // ---- the nesting level ----

  function Colons(s: string): nat {
    if s == [] then 0 else (if s[0] == ':' then 1 else 0) + Colons(s[1..])
  }

  lemma {:induction false} ColonsAppend(a: string, b: string)
    ensures Colons(a + b) == Colons(a) + Colons(b)
    decreases |a|
  {
    if a == [] {
      assert a + b == b;
    } else {
      assert (a + b)[1..] == a[1..] + b;
      ColonsAppend(a[1..], b);
    }
  }

  ghost predicate NoColon(s: string) {
    forall i :: 0 <= i < |s| ==> s[i] != ':'
  }

  lemma HexNoColon(n: nat)
    ensures NoColon(Hex(n))
  {
  }

  lemma PadNoColon(s: string, d: nat)
    requires NoColon(s)
    ensures NoColon(Pad(s, d)) && |Pad(s, d)| >= |s|
    decreases d - |s|
  {
  }

  lemma ColonFree(s: string)
    requires NoColon(s)
    ensures Colons(s) == 0
  {
  }

  lemma {:induction false} SegmentNoColon(n: nat, d: nat)
    ensures |Segment(n, d)| > 0 && Segment(n, d)[0] != ':' && Colons(Segment(n, d)) == 0
  {
    HexNoColon(n);
    PadNoColon(Hex(n), d);
    ColonFree(Segment(n, d));
  }

  lemma {:induction false} OneMoreColon(s: string, t: string)
    requires s != "" && Colons(t) == 0
    ensures Colons((s + ":" + t)[1..]) == Colons(s[1..]) + 1
  {
    assert (s + ":" + t)[1..] == s[1..] + (":" + t);
    ColonsAppend(s[1..], ":" + t);
    assert (":" + t)[1..] == t;
  }

  /** Counting colons from the second character on gives the depth. */
  lemma {:induction false} LevelIsDepth(pos: seq<nat>, d: nat)
    requires pos != []
    ensures PathString(pos, d) != [] && Colons(PathString(pos, d)[1..]) == |pos| - 1
    decreases |pos|
  {
    var n := |pos| - 1;
    SegmentNoColon(pos[n], d);
    if n > 0 {
      var s := PathString(pos[..n], d);
      LevelIsDepth(pos[..n], d);
      OneMoreColon(s, Segment(pos[n], d));
    }
  }
}
