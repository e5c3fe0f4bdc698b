/** The tokenizer for quoted arguments and the escaper that feeds it
    (mu-str.c). Strings are C strings: they hold no NUL. */
module EscapedStrings {
  import opened Options

  const FORM_FEED := '\U{0C}'

  /** g_ascii_isspace */
  predicate IsSpace(c: char) {
    c == ' ' || c == '\t' || c == '\n' || c == '\r' || c == FORM_FEED
  }

  /** g_strchug */
  function Chug(s: string): (r: string)
    ensures |r| <= |s| && (r != "" ==> !IsSpace(r[0]))
  {
    if s != "" && IsSpace(s[0]) then Chug(s[1..]) else s
  }

  predicate Escapable(c: char) {
    c == ' ' || c == '"' || c == '\\'
  }

  /** One token and what follows it, or an invalid escape. */
  datatype Eaten = Invalid | Eaten(token: string, rest: string)

  function Prepend(c: char, e: Eaten): Eaten {
    if e.Invalid? then Invalid else Eaten([c] + e.token, e.rest)
  }

  /** The scan of eat_esc_string, from a point where quotes are open or not. */
  function Eat(s: string, quoted: bool): (e: Eaten)
    ensures e.Eaten? ==> |e.rest| <= |s| && (s != "" ==> |e.rest| < |s|)
    decreases |s|
  {
    if s == "" then Eaten("", "")
    else if s[0] == '"' then Eat(s[1..], !quoted)
    else if s[0] == '\\' then
      if |s| < 2 || !Escapable(s[1]) then Invalid else Prepend(s[1], Eat(s[2..], quoted))
    else if s[0] == ' ' && !quoted then Eaten("", s[1..])
    else Prepend(s[0], Eat(s[1..], quoted))
  }

  function Tokens(s: string): Option<seq<string>>
    decreases |s|
  {
    var e := Eat(Chug(s), false);
    if e.Invalid? then None
    else if e.rest == "" then Some([e.token])
    else
      var ts := Tokens(e.rest);
      if ts.None? then None else Some([e.token] + ts.value)
  }

  function SkipBlanks(s: string): string {
    if s != "" && (s[0] == ' ' || s[0] == '\t') then SkipBlanks(s[1..]) else s
  }

  /** mu_str_esc_to_list */
  function EscToList(s: string): Option<seq<string>> {
    Tokens(SkipBlanks(s))
  }

  function EscapeChar(c: char): string {
    if c == '\\' then "\\\\" else if c == '"' then "\\\"" else [c]
  }

  function EscapeChars(s: string): string {
    if s == "" then "" else EscapeChar(s[0]) + EscapeChars(s[1..])
  }

  /** mu_str_escape_c_literal */
  function Escape(s: string, inQuotes: bool): string {
    if inQuotes then "\"" + EscapeChars(s) + "\"" else EscapeChars(s)
  }

  // ---- the loops ----

  ghost function PrependAll(s: string, e: Eaten): Eaten {
    if e.Invalid? then Invalid else Eaten(s + e.token, e.rest)
  }

  lemma PrependOne(s: string, c: char, e: Eaten)
    ensures PrependAll(s, Prepend(c, e)) == PrependAll(s + [c], e)
  {
    if e.Eaten? { assert s + ([c] + e.token) == s + [c] + e.token; }
  }

  /** eat_esc_string: a cursor, a quote flag and a growing token. */
  method EatEscString(strlst: string) returns (e: Eaten)
    ensures e == Eat(Chug(strlst), false)
  {
    var str := Chug(strlst);
    var token := "";
    var quoted := false;
    var i := 0;
    assert str[0..] == str;
    assert PrependAll("", Eat(str, false)) == Eat(str, false) by {
      if Eat(str, false).Eaten? { assert "" + Eat(str, false).token == Eat(str, false).token; }
    }
    while i < |str|
      invariant 0 <= i <= |str|
      invariant Eat(str, false) == PrependAll(token, Eat(str[i..], quoted))
      decreases |str| - i
    {
      var c := str[i];
      assert str[i..][0] == c && str[i..][1..] == str[i + 1..];
      if c == '"' {
        quoted := !quoted;
        i := i + 1;
      } else if c == '\\' {
        if i + 1 == |str| || !Escapable(str[i + 1]) {
          return Invalid;
        }
        assert str[i..][1] == str[i + 1] && str[i..][2..] == str[i + 2..];
        PrependOne(token, str[i + 1], Eat(str[i + 2..], quoted));
        token := token + [str[i + 1]];
        i := i + 2;
      } else if c == ' ' && !quoted {
        assert token + "" == token;
        return Eaten(token, str[i + 1..]);
      } else {
        PrependOne(token, c, Eat(str[i + 1..], quoted));
        token := token + [c];
        i := i + 1;
      }
    }
    assert str[i..] == "" && token + "" == token;
    return Eaten(token, "");
  }

  ghost function After(ts: seq<string>, more: Option<seq<string>>): Option<seq<string>> {
    if more.None? then None else Some(ts + more.value)
  }

  /** mu_str_esc_to_list: at least one token is eaten, also from nothing. */
  method EscStringsToList(strings: string) returns (r: Option<seq<string>>)
    ensures r == EscToList(strings)
  {
    var cur := 0;
    assert strings[0..] == strings;
    while cur < |strings| && (strings[cur] == ' ' || strings[cur] == '\t')
      invariant 0 <= cur <= |strings| && SkipBlanks(strings[cur..]) == SkipBlanks(strings)
    {
      assert strings[cur..][1..] == strings[cur + 1..];
      cur := cur + 1;
    }
    var mystrings := strings[cur..];
    assert mystrings == SkipBlanks(strings);
    var lst: seq<string> := [];
    var more := true;
    AfterNone(Tokens(mystrings));
    while more
      invariant if more then EscToList(strings) == After(lst, Tokens(mystrings)) else EscToList(strings) == Some(lst)
      decreases more, |mystrings|
    {
      var e := EatEscString(mystrings);
      if e == Invalid {
        return None;
      }
      NextToken(lst, mystrings);
      lst := lst + [e.token];
      more := e.rest != "";
      mystrings := e.rest;
    }
    return Some(lst);
  }

  lemma AfterNone(more: Option<seq<string>>)
    ensures After([], more) == more
  {
    if more.Some? { assert [] + more.value == more.value; }
  }

  lemma AfterOne(ts: seq<string>, t: string, more: Option<seq<string>>)
    ensures After(ts, After([t], more)) == After(ts + [t], more)
  {
    if more.Some? { assert ts + ([t] + more.value) == ts + [t] + more.value; }
  }

  lemma {:induction false} NextToken(ts: seq<string>, s: string)
    ensures var e := Eat(Chug(s), false);
            After(ts, Tokens(s)) ==
              if e.Invalid? then None
              else if e.rest == "" then Some(ts + [e.token])
              else After(ts + [e.token], Tokens(e.rest))
    ensures var e := Eat(Chug(s), false); e.Eaten? && e.rest != "" ==> |e.rest| < |s|
  {
    var e := Eat(Chug(s), false);
    if e.Eaten? && e.rest != "" {
      assert Tokens(s) == After([e.token], Tokens(e.rest));
      AfterOne(ts, e.token, Tokens(e.rest));
    }
  }

  lemma {:induction false} EscapeStep(r: string, str: string, cur: nat)
    requires cur < |str|
    ensures r + EscapeChars(str[cur..]) == r + EscapeChar(str[cur]) + EscapeChars(str[cur + 1..])
  {
    assert str[cur..][0] == str[cur] && str[cur..][1..] == str[cur + 1..];
  }

  /** mu_str_escape_c_literal */
  method EscapeCLiteral(str: string, inQuotes: bool) returns (r: string)
    ensures r == Escape(str, inQuotes)
  {
    r := if inQuotes then "\"" else "";
    ghost var open := r;
    var cur := 0;
    assert str[0..] == str;
    while cur < |str|
      invariant 0 <= cur <= |str| && r + EscapeChars(str[cur..]) == open + EscapeChars(str)
    {
      EscapeStep(r, str, cur);
      if str[cur] == '\\' {
        r := r + "\\\\";
      } else if str[cur] == '"' {
        r := r + "\\\"";
      } else {
        r := r + [str[cur]];
      }
      cur := cur + 1;
    }
    assert str[cur..] == "" && r + "" == r;
    assert "" + EscapeChars(str) == EscapeChars(str);
    if inQuotes {
      r := r + "\"";
    }
  }

  // ---- the tokenizer inverts the escaper ----

  lemma {:induction false} EatEscaped(s: string, u: string)
    ensures Eat(EscapeChars(s) + u, true) == PrependAll(s, Eat(u, true))
    decreases |s|
  {
    if s == "" {
      assert EscapeChars(s) + u == u;
      if Eat(u, true).Eaten? { assert "" + Eat(u, true).token == Eat(u, true).token; }
    } else {
      var rest := EscapeChars(s[1..]) + u;
      assert EscapeChars(s) + u == EscapeChar(s[0]) + rest;
      EatOneEscaped(s[0], rest);
      EatEscaped(s[1..], u);
      PrependFront(s, Eat(u, true));
    }
  }

  lemma PrependFront(s: string, e: Eaten)
    requires s != ""
    ensures Prepend(s[0], PrependAll(s[1..], e)) == PrependAll(s, e)
  {
    if e.Eaten? { assert [s[0]] + (s[1..] + e.token) == s + e.token; }
  }

  lemma {:induction false} EatOneEscaped(c: char, rest: string)
    ensures Eat(EscapeChar(c) + rest, true) == Prepend(c, Eat(rest, true))
  {
    var t := EscapeChar(c) + rest;
    if c == '\\' || c == '"' {
      assert t[0] == '\\' && t[1] == c && t[2..] == rest;
    } else {
      assert t[0] == c && t[1..] == rest;
    }
  }

  lemma {:induction false} EatQuote(s: string, u: string)
    ensures Eat("\"" + (EscapeChars(s) + u), false) == PrependAll(s, Eat(u, true))
  {
    var t := "\"" + (EscapeChars(s) + u);
    assert t[1..] == EscapeChars(s) + u;
    EatEscaped(s, u);
  }

  lemma CloseQuote(u: string)
    ensures Eat("\"", true) == Eaten("", "")
    ensures Eat("\" " + u, true) == Eaten("", u)
  {
    assert "\""[1..] == "";
    var v := "\" " + u;
    assert v[1..][0] == ' ' && v[1..][1..] == u;
  }

  /** A quoted token is eaten back, with what follows the next blank. */
  lemma {:induction false} EatQuoted(s: string, u: string)
    ensures Eat(Escape(s, true), false) == Eaten(s, "")
    ensures Eat(Escape(s, true) + " " + u, false) == Eaten(s, u)
  {
    CloseQuote(u);
    EatQuote(s, "\"");
    EatQuote(s, "\" " + u);
    assert s + "" == s;
    QuotedParts(EscapeChars(s), u);
  }

  lemma QuotedParts(t: string, u: string)
    ensures "\"" + t + "\"" == "\"" + (t + "\"")
    ensures "\"" + t + "\"" + " " + u == "\"" + (t + ("\" " + u))
  {
  }

  lemma QuoteStarts(s: string, u: string)
    ensures Chug(Escape(s, true) + u) == Escape(s, true) + u && SkipBlanks(Escape(s, true) + u) == Escape(s, true) + u
    ensures Escape(s, true) + u != ""
  {
    assert (Escape(s, true) + u)[0] == '"';
  }

  /** The arguments, each quoted and escaped, with single blanks between. */
  function QuoteAll(args: seq<string>): string
    requires args != []
  {
    if |args| == 1 then Escape(args[0], true) else Escape(args[0], true) + " " + QuoteAll(args[1..])
  }

  lemma {:induction false} QuotedTokens(args: seq<string>)
    requires args != []
    ensures Tokens(QuoteAll(args)) == Some(args) && QuoteAll(args) != ""
    decreases |args|
  {
    var s := args[0];
    if |args| == 1 {
      EatQuoted(s, "");
      QuoteStarts(s, "");
      assert Escape(s, true) + "" == Escape(s, true);
      assert args == [s];
    } else {
      var u := QuoteAll(args[1..]);
      QuotedTokens(args[1..]);
      EatQuoted(s, u);
      QuoteStarts(s, " " + u);
      assert Escape(s, true) + " " + u == Escape(s, true) + (" " + u);
      assert args == [s] + args[1..];
    }
  }

  /** For every non-empty list of strings, tokenizing their quoted, escaped
      and joined form gives the list back. */
  lemma {:induction false} TokenizerInvertsEscaper(args: seq<string>)
    requires args != []
    ensures EscToList(QuoteAll(args)) == Some(args)
  {
    QuotedTokens(args);
    var s := args[0];
    if |args| == 1 {
      QuoteStarts(s, "");
      assert Escape(s, true) + "" == Escape(s, true);
    } else {
      var u := " " + QuoteAll(args[1..]);
      QuoteStarts(s, u);
      assert QuoteAll(args) == Escape(s, true) + u;
    }
  }

  // ---- without quotes ----

  ghost predicate NoBlank(s: string) {
    forall i :: 0 <= i < |s| ==> s[i] != ' '
  }

  lemma {:induction false} EatOneUnquoted(c: char, rest: string)
    ensures Eat(EscapeChar(c) + rest, false) == if c == ' ' then Eaten("", rest) else Prepend(c, Eat(rest, false))
  {
    var t := EscapeChar(c) + rest;
    if c == '\\' || c == '"' {
      assert t[0] == '\\' && t[1] == c && t[2..] == rest;
    } else {
      assert t[0] == c && t[1..] == rest;
    }
  }

  /** Unquoted, the scan stops at the first blank of the string itself. */
  lemma {:induction false} EatUnquoted(s: string)
    ensures NoBlank(s) ==> Eat(EscapeChars(s), false) == Eaten(s, "")
    ensures Eat(EscapeChars(s), false).Eaten?
    ensures NoBlank(Eat(EscapeChars(s), false).token) && |Eat(EscapeChars(s), false).token| <= |s|
    decreases |s|
  {
    if s != "" {
      EatUnquoted(s[1..]);
      EatOneUnquoted(s[0], EscapeChars(s[1..]));
      assert s == [s[0]] + s[1..];
      assert NoBlank(s) ==> NoBlank(s[1..]);
    }
  }

  lemma {:induction false} ChugEscaped(s: string)
    ensures exists k :: 0 <= k <= |s| && Chug(EscapeChars(s)) == EscapeChars(s[k..])
              && (k == 0 <==> s == "" || !IsSpace(s[0]))
    decreases |s|
  {
    assert s[0..] == s;
    if s != "" && IsSpace(s[0]) {
      assert EscapeChars(s)[1..] == EscapeChars(s[1..]);
      ChugEscaped(s[1..]);
      var k :| 0 <= k <= |s[1..]| && Chug(EscapeChars(s[1..])) == EscapeChars(s[1..][k..]);
      assert s[1..][k..] == s[k + 1..];
    }
  }

  lemma {:induction false} SkipEscaped(s: string)
    ensures exists k :: 0 <= k <= |s| && SkipBlanks(EscapeChars(s)) == EscapeChars(s[k..])
              && (k == 0 <==> s == "" || !(s[0] == ' ' || s[0] == '\t'))
    decreases |s|
  {
    assert s[0..] == s;
    if s != "" && (s[0] == ' ' || s[0] == '\t') {
      assert EscapeChars(s)[1..] == EscapeChars(s[1..]);
      SkipEscaped(s[1..]);
      var k :| 0 <= k <= |s[1..]| && SkipBlanks(EscapeChars(s[1..])) == EscapeChars(s[1..][k..]);
      assert s[1..][k..] == s[k + 1..];
    }
  }

  /** Without quotes the escaper is inverted exactly on the strings that hold
      no blank and do not start with white space. */
  lemma {:induction false} UnquotedInversion(s: string)
    ensures EscToList(Escape(s, false)) == Some([s]) <==> NoBlank(s) && (s == "" || !IsSpace(s[0]))
  {
    SkipEscaped(s);
    var j :| 0 <= j <= |s| && SkipBlanks(EscapeChars(s)) == EscapeChars(s[j..])
             && (j == 0 <==> s == "" || !(s[0] == ' ' || s[0] == '\t'));
    var t := s[j..];
    ChugEscaped(t);
    var k :| 0 <= k <= |t| && Chug(EscapeChars(t)) == EscapeChars(t[k..]) && (k == 0 <==> t == "" || !IsSpace(t[0]));
    var u := t[k..];
    EatUnquoted(u);
    assert s[0..] == s && t[0..] == t;
    var e := Eat(EscapeChars(u), false);
    assert |e.token| <= |u| <= |s|;
    OneToken(EscapeChars(t), s);
    assert EscToList(Escape(s, false)) == Tokens(EscapeChars(t));
  }

  lemma {:induction false} OneToken(t: string, s: string)
    ensures Tokens(t) == Some([s]) <==> Eat(Chug(t), false) == Eaten(s, "")
  {
    var e := Eat(Chug(t), false);
    if e.Eaten? && e.rest != "" && Tokens(e.rest).Some? {
      AtLeastOneToken(e.rest);
      assert |Tokens(t).value| >= 2;
    }
  }

  lemma AtLeastOneToken(t: string)
    ensures Tokens(t).Some? ==> Tokens(t).value != []
  {
  }
}
