/** The language that the tokenizer reads, without the tokenizer: an argument
    string is a sequence of pieces, and the pieces fall into tokens in one way. */
module TokenLanguage {
  import opened Options
  import opened EscapedStrings

  /** A plain character, an escaped one, or a quote that opens or closes. */
  datatype Piece = Plain(c: char) | Escaped(c: char) | Quote

  ghost predicate IsPiece(p: Piece) {
    match p
    case Plain(c) => c != '"' && c != '\\'
    case Escaped(c) => c == ' ' || c == '"' || c == '\\'
    case Quote => true
  }

  ghost predicate ArePieces(ps: seq<Piece>) {
    forall i :: 0 <= i < |ps| ==> IsPiece(ps[i])
  }

  ghost function SpellOne(p: Piece): string {
    match p
    case Plain(c) => [c]
    case Escaped(c) => ['\\', c]
    case Quote => "\""
  }

  ghost function Spell(ps: seq<Piece>): string {
    if ps == [] then "" else SpellOne(ps[0]) + Spell(ps[1..])
  }

  /** What the pieces stand for. */
  ghost function Text(ps: seq<Piece>): string {
    if ps == [] then "" else (if ps[0].Quote? then "" else [ps[0].c]) + Text(ps[1..])
  }

  /** Whether a quote is open after the pieces. */
  ghost function QuoteOpen(ps: seq<Piece>): bool {
    ps != [] && QuoteOpen(ps[..|ps| - 1]) != ps[|ps| - 1].Quote?
  }

  /** White space outside quotes at the start of a token does not belong to it. */
  ghost predicate Blank(p: Piece) {
    p.Plain? && p.c in {' ', '\t', '\n', '\r', '\U{0C}'}
  }

  /** One token: no blank piece in front, and no plain blank outside quotes. */
  ghost predicate IsToken(ps: seq<Piece>) {
    (ps != [] ==> !Blank(ps[0]))
    && forall i :: 0 <= i < |ps| && ps[i] == Plain(' ') ==> QuoteOpen(ps[..i])
  }

  /** The pieces are those tokens: blank pieces in front, a token, and if more
      follows, a plain blank outside quotes and the other tokens. A blank at the
      very end ends the list. */
  ghost predicate Splits(ps: seq<Piece>, toks: seq<string>)
    decreases |toks|, 1
  {
    toks != [] && exists m, n :: 0 <= m <= n <= |ps| && SplitsAt(ps, m, n, toks)
  }

  /** The first token lies between m and n. */
  ghost predicate SplitsAt(ps: seq<Piece>, m: nat, n: nat, toks: seq<string>)
    requires m <= n <= |ps| && toks != []
    decreases |toks|, 0
  {
    TokenAt(ps, m, n, toks[0]) && if n + 1 < |ps| then Splits(ps[n + 1..], toks[1..]) else |toks| == 1
  }

  ghost predicate TokenAt(ps: seq<Piece>, m: nat, n: nat, tok: string)
    requires m <= n <= |ps|
  {
    (forall i :: 0 <= i < m ==> Blank(ps[i])) && (m < |ps| ==> !Blank(ps[m]))
    && IsToken(ps[m..n]) && tok == Text(ps[m..n])
    && (n < |ps| ==> ps[n] == Plain(' ') && !QuoteOpen(ps[m..n]))
  }

  /** Somewhere a backslash is followed by something it cannot escape. */
  ghost predicate BadEscape(s: string) {
    exists ps, rest :: ArePieces(ps) && IsBad(rest) && s == Spell(ps) + rest
  }

  ghost predicate IsBad(rest: string) {
    rest != "" && rest[0] == '\\' && (|rest| == 1 || !(rest[1] == ' ' || rest[1] == '"' || rest[1] == '\\'))
  }

  // ---- every string is pieces, or has a bad escape ----

  lemma {:induction false} Decompose(s: string) returns (ps: seq<Piece>, rest: string)
    ensures ArePieces(ps) && s == Spell(ps) + rest && (rest == "" || IsBad(rest))
    decreases |s|
  {
    if s == "" || IsBad(s) {
      ps, rest := [], s;
    } else if s[0] == '\\' {
      ps, rest := Decompose(s[2..]);
      AddPiece(Escaped(s[1]), ps, rest, s);
      ps := [Escaped(s[1])] + ps;
    } else {
      ps, rest := Decompose(s[1..]);
      var p := if s[0] == '"' then Quote else Plain(s[0]);
      AddPiece(p, ps, rest, s);
      ps := [p] + ps;
    }
  }

  lemma AddPiece(p: Piece, ps: seq<Piece>, rest: string, s: string)
    requires s == SpellOne(p) + (Spell(ps) + rest)
    ensures s == Spell([p] + ps) + rest
  {
    assert ([p] + ps)[1..] == ps;
  }

  // ---- the scan follows the pieces ----

  /** The scan of one token, from a point where quotes are open or not. */
  ghost predicate InToken(ps: seq<Piece>, open: bool) {
    forall i :: 0 <= i < |ps| && ps[i] == Plain(' ') ==> QuoteOpen(ps[..i]) != open
  }

  lemma {:induction false} QuoteOpenFront(p: Piece, ps: seq<Piece>)
    ensures QuoteOpen([p] + ps) <==> p.Quote? != QuoteOpen(ps)
    decreases |ps|
  {
    var qs := [p] + ps;
    if ps == [] {
      assert qs[..0] == [];
    } else {
      assert qs[..|qs| - 1] == [p] + ps[..|ps| - 1];
      QuoteOpenFront(p, ps[..|ps| - 1]);
    }
  }

  lemma {:induction false} InTokenRest(ps: seq<Piece>, open: bool)
    requires ps != [] && InToken(ps, open)
    ensures InToken(ps[1..], open != ps[0].Quote?)
    ensures ps[0] == Plain(' ') ==> open
  {
    if ps[0] == Plain(' ') { assert ps[..0] == []; }
    forall i | 0 <= i < |ps[1..]| && ps[1..][i] == Plain(' ')
      ensures QuoteOpen(ps[1..][..i]) != (open != ps[0].Quote?)
    {
      assert ps[..i + 1] == [ps[0]] + ps[1..][..i];
      QuoteOpenFront(ps[0], ps[1..][..i]);
    }
  }

  lemma {:induction false} EatPieces(ps: seq<Piece>, open: bool, rest: string)
    requires ArePieces(ps) && InToken(ps, open)
    ensures Eat(Spell(ps) + rest, open) == PrependAll(Text(ps), Eat(rest, open != QuoteOpen(ps)))
    decreases |ps|
  {
    if ps == [] {
      assert Spell(ps) + rest == rest;
      if Eat(rest, open).Eaten? { assert "" + Eat(rest, open).token == Eat(rest, open).token; }
    } else {
      InTokenRest(ps, open);
      EatPieces(ps[1..], open != ps[0].Quote?, rest);
      assert ps == [ps[0]] + ps[1..];
      QuoteOpenFront(ps[0], ps[1..]);
      EatPiece(ps[0], open, Spell(ps[1..]) + rest);
      assert Spell(ps) + rest == SpellOne(ps[0]) + (Spell(ps[1..]) + rest);
      TextFront(ps, Eat(rest, open != QuoteOpen(ps)));
    }
  }

  lemma {:induction false} EatPiece(p: Piece, open: bool, u: string)
    requires IsPiece(p) && (p == Plain(' ') ==> open)
    ensures Eat(SpellOne(p) + u, open)
         == if p.Quote? then Eat(u, !open) else Prepend(p.c, Eat(u, open))
  {
    var s := SpellOne(p) + u;
    if p.Escaped? {
      assert s[0] == '\\' && s[1] == p.c && s[2..] == u;
    } else {
      assert s[1..] == u;
    }
  }

  lemma TextFront(ps: seq<Piece>, e: Eaten)
    requires ps != []
    ensures PrependAll(Text(ps), e)
         == if ps[0].Quote? then PrependAll(Text(ps[1..]), e) else Prepend(ps[0].c, PrependAll(Text(ps[1..]), e))
  {
    if ps[0].Quote? {
      assert "" + Text(ps[1..]) == Text(ps[1..]);
    } else if e.Eaten? {
      assert [ps[0].c] + Text(ps[1..]) + e.token == [ps[0].c] + (Text(ps[1..]) + e.token);
    }
  }

  // ---- the front of a token ----

  lemma {:induction false} ChugBlanks(ps: seq<Piece>, m: nat, rest: string)
    requires ArePieces(ps) && m <= |ps| && forall i :: 0 <= i < m ==> Blank(ps[i])
    requires if m < |ps| then !Blank(ps[m]) else rest == "" || IsBad(rest)
    ensures Chug(Spell(ps) + rest) == Spell(ps[m..]) + rest
    decreases m
  {
    var s := Spell(ps) + rest;
    if m == 0 {
      assert ps[0..] == ps;
      if ps != [] { assert s == SpellOne(ps[0]) + (Spell(ps[1..]) + rest); }
    } else {
      assert SpellOne(ps[0]) == [ps[0].c];
      ChugOne(ps[0].c, Spell(ps[1..]), rest);
      ChugBlanks(ps[1..], m - 1, rest);
      assert ps[1..][m - 1..] == ps[m..];
    }
  }

  lemma ChugOne(c: char, s: string, rest: string)
    requires IsSpace(c)
    ensures Chug([c] + s + rest) == Chug(s + rest)
  {
    assert ([c] + s + rest)[1..] == s + rest;
  }

  /** Where the first token of some pieces is. */
  lemma {:induction false} FirstToken(ps: seq<Piece>) returns (m: nat, n: nat)
    ensures m <= n <= |ps| && TokenAt(ps, m, n, Text(ps[m..n]))
  {
    m := 0;
    while m < |ps| && Blank(ps[m])
      invariant m <= |ps| && forall i :: 0 <= i < m ==> Blank(ps[i])
    {
      m := m + 1;
    }
    n := m;
    assert ps[m..m] == [];
    while n < |ps| && !(ps[n] == Plain(' ') && !QuoteOpen(ps[m..n]))
      invariant m <= n <= |ps| && IsToken(ps[m..n])
    {
      assert ps[m..n + 1] == ps[m..n] + [ps[n]];
      LongerToken(ps[m..n], ps[n]);
      n := n + 1;
    }
  }

  lemma {:induction false} LongerToken(qs: seq<Piece>, p: Piece)
    requires IsToken(qs) && (qs == [] ==> !Blank(p)) && (p == Plain(' ') ==> QuoteOpen(qs))
    ensures IsToken(qs + [p])
  {
    var rs := qs + [p];
    forall i | 0 <= i < |rs| && rs[i] == Plain(' ') ensures QuoteOpen(rs[..i]) {
      assert rs[..i] == qs[..i];
      if i == |qs| { assert qs[..i] == qs; }
    }
  }

  /** What the scan makes of the first token and what follows. */
  lemma {:induction false} EatToken(ps: seq<Piece>, m: nat, n: nat, tok: string, rest: string)
    requires ArePieces(ps) && m <= n <= |ps| && TokenAt(ps, m, n, tok) && (rest == "" || IsBad(rest))
    ensures Eat(Chug(Spell(ps) + rest), false)
         == if n < |ps| then Eaten(tok, Spell(ps[n + 1..]) + rest)
            else if rest == "" then Eaten(tok, "") else Invalid
  {
    ChugBlanks(ps, m, rest);
    Shifted(ps, m, n);
    EatTail(ps[m..], n - m, rest);
  }

  lemma Shifted(ps: seq<Piece>, m: nat, n: nat)
    requires m <= n <= |ps|
    ensures ps[m..][..n - m] == ps[m..n]
    ensures n < |ps| ==> ps[m..][n - m + 1..] == ps[n + 1..] && ps[m..][n - m] == ps[n]
  {
  }

  lemma {:induction false} EatTail(ps: seq<Piece>, n: nat, rest: string)
    requires ArePieces(ps) && n <= |ps| && IsToken(ps[..n]) && (rest == "" || IsBad(rest))
    requires n < |ps| ==> ps[n] == Plain(' ') && !QuoteOpen(ps[..n])
    ensures Eat(Spell(ps) + rest, false)
         == if n < |ps| then Eaten(Text(ps[..n]), Spell(ps[n + 1..]) + rest)
            else if rest == "" then Eaten(Text(ps[..n]), "") else Invalid
  {
    var qs := ps[..n];
    assert InToken(qs, false);
    if n < |ps| {
      var u := Spell(ps[n + 1..]) + rest;
      SpellSplit(ps, n);
      Regroup(Spell(qs), " ", Spell(ps[n + 1..]), rest);
      EatPieces(qs, false, " " + u);
      EatBlank(u);
    } else {
      assert qs == ps;
      EatPieces(qs, false, rest);
      EatEnd(rest, QuoteOpen(qs));
    }
    assert Text(qs) + "" == Text(qs);
  }

  lemma Regroup(a: string, b: string, c: string, d: string)
    ensures a + b + c + d == a + (b + (c + d))
  {
  }

  lemma EatBlank(u: string)
    ensures Eat(" " + u, false) == Eaten("", u)
  {
    assert (" " + u)[1..] == u;
  }

  lemma EatEnd(rest: string, open: bool)
    requires rest == "" || IsBad(rest)
    ensures Eat(rest, open) == if rest == "" then Eaten("", "") else Invalid
  {
  }

  lemma {:induction false} SpellConcat(a: seq<Piece>, b: seq<Piece>)
    ensures Spell(a + b) == Spell(a) + Spell(b)
    decreases |a|
  {
    if a == [] {
      assert a + b == b;
    } else {
      assert (a + b)[1..] == a[1..] + b;
      SpellConcat(a[1..], b);
    }
  }

  lemma {:induction false} SpellSplit(ps: seq<Piece>, n: nat)
    requires n < |ps|
    ensures Spell(ps) == Spell(ps[..n]) + SpellOne(ps[n]) + Spell(ps[n + 1..])
  {
    SpellConcat(ps[..n], [ps[n]]);
    SpellConcat(ps[..n] + [ps[n]], ps[n + 1..]);
    assert ps[..n] + [ps[n]] + ps[n + 1..] == ps;
    assert Spell([ps[n]]) == SpellOne(ps[n]) + Spell([]);
  }

  // ---- the language ----

  lemma OneToken(s: string, tok: string)
    requires Eat(Chug(s), false) == Eaten(tok, "")
    ensures Tokens(s) == Some([tok])
  {
  }

  lemma MoreTokens(s: string, tok: string, rest: string, toks: seq<string>)
    requires Eat(Chug(s), false) == Eaten(tok, rest) && rest != "" && Tokens(rest) == Some(toks)
    ensures Tokens(s) == Some([tok] + toks)
  {
  }

  lemma {:induction false} EatFirst(ps: seq<Piece>, m: nat, n: nat, tok: string)
    requires ArePieces(ps) && m <= n <= |ps| && TokenAt(ps, m, n, tok)
    ensures Eat(Chug(Spell(ps)), false) == Eaten(tok, if n < |ps| then Spell(ps[n + 1..]) else "")
  {
    EatToken(ps, m, n, tok, "");
    assert Spell(ps) + "" == Spell(ps);
    if n < |ps| { assert Spell(ps[n + 1..]) + "" == Spell(ps[n + 1..]); }
  }

  lemma {:induction false} PiecesTokenize(ps: seq<Piece>, toks: seq<string>)
    requires ArePieces(ps) && Splits(ps, toks)
    ensures Tokens(Spell(ps)) == Some(toks)
    decreases |toks|
  {
    var m, n :| 0 <= m <= n <= |ps| && SplitsAt(ps, m, n, toks);
    if n + 1 < |ps| { PiecesTokenize(ps[n + 1..], toks[1..]); }
    TokenizeFirst(ps, m, n, toks);
  }

  lemma {:induction false} TokenizeFirst(ps: seq<Piece>, m: nat, n: nat, toks: seq<string>)
    requires ArePieces(ps) && m <= n <= |ps| && toks != [] && TokenAt(ps, m, n, toks[0])
    requires if n + 1 < |ps| then Tokens(Spell(ps[n + 1..])) == Some(toks[1..]) else |toks| == 1
    ensures Tokens(Spell(ps)) == Some(toks)
  {
    EatFirst(ps, m, n, toks[0]);
    if n + 1 < |ps| {
      NotEmptySpelling(ps[n + 1..]);
      MoreTokens(Spell(ps), toks[0], Spell(ps[n + 1..]), toks[1..]);
      assert toks == [toks[0]] + toks[1..];
    } else {
      OneToken(Spell(ps), toks[0]);
      assert toks == [toks[0]];
    }
  }

  lemma NotEmptySpelling(ps: seq<Piece>)
    requires ps != []
    ensures Spell(ps) != ""
  {
    assert SpellOne(ps[0]) != "";
  }

  lemma {:induction false} PiecesSplit(ps: seq<Piece>) returns (toks: seq<string>)
    ensures Splits(ps, toks)
    decreases |ps|
  {
    var m, n := FirstToken(ps);
    if n + 1 < |ps| {
      var more := PiecesSplit(ps[n + 1..]);
      toks := [Text(ps[m..n])] + more;
      assert toks[1..] == more;
    } else {
      toks := [Text(ps[m..n])];
    }
    assert SplitsAt(ps, m, n, toks);
  }

  lemma {:induction false} BadIsRefused(ps: seq<Piece>, rest: string)
    requires ArePieces(ps) && IsBad(rest)
    ensures Tokens(Spell(ps) + rest) == None
    decreases |ps|
  {
    var m, n := FirstToken(ps);
    EatToken(ps, m, n, Text(ps[m..n]), rest);
    if n < |ps| {
      BadIsRefused(ps[n + 1..], rest);
    }
  }

  lemma {:induction false} SkipIsChugged(s: string)
    ensures EscToList(s) == Tokens(s)
    decreases |s|
  {
    if s != "" && (s[0] == ' ' || s[0] == '\t') {
      SkipIsChugged(s[1..]);
    }
  }

  /** The tokenizer returns a list exactly when the string is pieces that fall
      into those tokens. */
  lemma {:induction false} TokenizerReads(s: string, toks: seq<string>)
    ensures EscToList(s) == Some(toks) <==> exists ps :: ArePieces(ps) && Spell(ps) == s && Splits(ps, toks)
  {
    SkipIsChugged(s);
    if EscToList(s) == Some(toks) {
      var ps, rest := Decompose(s);
      if IsBad(rest) { BadIsRefused(ps, rest); }
      assert s == Spell(ps);
      var toks' := PiecesSplit(ps);
      PiecesTokenize(ps, toks');
    }
    if ps :| ArePieces(ps) && Spell(ps) == s && Splits(ps, toks) {
      PiecesTokenize(ps, toks);
    }
  }

  /** It refuses a string exactly when it has a bad escape. */
  lemma {:induction false} TokenizerRefuses(s: string)
    ensures EscToList(s) == None <==> BadEscape(s)
  {
    SkipIsChugged(s);
    var ps, rest := Decompose(s);
    if rest == "" {
      var toks := PiecesSplit(ps);
      PiecesTokenize(ps, toks);
      assert s == Spell(ps);
    }
    if BadEscape(s) {
      var qs, bad :| ArePieces(qs) && IsBad(bad) && s == Spell(qs) + bad;
      BadIsRefused(qs, bad);
    }
  }

  // ---- the escaper ----

  lemma {:induction false} EscapeConcat(a: string, b: string)
    ensures EscapeChars(a + b) == EscapeChars(a) + EscapeChars(b)
    decreases |a|
  {
    if a == "" {
      assert a + b == b;
    } else {
      assert (a + b)[1..] == a[1..] + b;
      EscapeConcat(a[1..], b);
    }
  }

  lemma EscapeOne(c: char)
    ensures EscapeChars([c]) == if c == '"' then "\\\"" else if c == '\\' then "\\\\" else [c]
  {
    assert [c][1..] == "" && EscapeChars("") == "" && EscapeChars([c]) == EscapeChar(c) + "";
  }

  /** The escaper puts a backslash before every quote and every backslash and
      changes nothing else; quoting puts one quote at either end. */
  lemma {:induction false} EscaperEscapes(a: string, b: string, c: char)
    ensures Escape(a + b, false) == Escape(a, false) + Escape(b, false)
    ensures Escape([c], false) == if c == '"' then "\\\"" else if c == '\\' then "\\\\" else [c]
    ensures Escape(a, true) == "\"" + Escape(a, false) + "\""
  {
    EscapeConcat(a, b);
    EscapeOne(c);
  }
}
