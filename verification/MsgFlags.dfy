/** Message flags and their letters (mu-flags.c). Strings are C strings: they
    hold no NUL. */
module MsgFlags {
  import opened Options

  datatype MsgFlag =
    DRAFT | FLAGGED | PASSED | REPLIED | SEEN | TRASHED | NEW | SIGNED | ENCRYPTED | HAS_ATTACH | UNREAD

  datatype FlagType = MAILFILE | MAILDIR | CONTENT | PSEUDO

  /** mu_flag_type */
  function TypeOf(f: MsgFlag): FlagType {
    match f
    case NEW => MAILDIR
    case UNREAD => PSEUDO
    case SIGNED | ENCRYPTED | HAS_ATTACH => CONTENT
    case _ => MAILFILE
  }

  /** mu_flag_char */
  function CharOf(f: MsgFlag): char {
    match f
    case DRAFT => 'D'
    case FLAGGED => 'F'
    case PASSED => 'P'
    case REPLIED => 'R'
    case SEEN => 'S'
    case TRASHED => 'T'
    case NEW => 'N'
    case SIGNED => 'z'
    case ENCRYPTED => 'x'
    case HAS_ATTACH => 'a'
    case UNREAD => 'u'
  }

  /** mu_flag_from_char; None is MU_FLAG_INVALID. */
  function FromChar(c: char): Option<MsgFlag> {
    if c == 'D' then Some(DRAFT)
    else if c == 'F' then Some(FLAGGED)
    else if c == 'P' then Some(PASSED)
    else if c == 'R' then Some(REPLIED)
    else if c == 'S' then Some(SEEN)
    else if c == 'T' then Some(TRASHED)
    else if c == 'N' then Some(NEW)
    else if c == 'z' then Some(SIGNED)
    else if c == 'x' then Some(ENCRYPTED)
    else if c == 'a' then Some(HAS_ATTACH)
    else if c == 'u' then Some(UNREAD)
    else None
  }

  /** The table, in its order. */
  const FLAG_INFO: seq<MsgFlag> :=
    [DRAFT, FLAGGED, PASSED, REPLIED, SEEN, TRASHED, NEW, SIGNED, ENCRYPTED, HAS_ATTACH, UNREAD]

  function ToStrFrom(flags: set<MsgFlag>, types: set<FlagType>, u: nat): string
    requires u <= |FLAG_INFO|
    decreases |FLAG_INFO| - u
  {
    if u == |FLAG_INFO| then ""
    else if FLAG_INFO[u] in flags && TypeOf(FLAG_INFO[u]) in types then
      [CharOf(FLAG_INFO[u])] + ToStrFrom(flags, types, u + 1)
    else ToStrFrom(flags, types, u + 1)
  }

  function ToStr(flags: set<MsgFlag>, types: set<FlagType>): string {
    ToStrFrom(flags, types, 0)
  }

  /** None is MU_FLAG_INVALID, for a letter that is none when those are not
      ignored. */
  function FromStr(str: string, types: set<FlagType>, ignoreInvalid: bool): Option<set<MsgFlag>> {
    if str == "" then Some({})
    else
      var f := FromChar(str[0]);
      if f.None? && !ignoreInvalid then None
      else
        var rest := FromStr(str[1..], types, ignoreInvalid);
        if rest.None? then None
        else if f.Some? && TypeOf(f.value) in types then Some({f.value} + rest.value)
        else rest
  }

  predicate IsFileLetter(c: char) {
    FromChar(c).Some? && TypeOf(FromChar(c).value) == MAILFILE
  }

  /** The letters that are not file flags. */
  function Customs(str: string): string {
    if str == "" then "" else if IsFileLetter(str[0]) then Customs(str[1..]) else [str[0]] + Customs(str[1..])
  }

  // ---- the loops ----

  lemma ToStrStep(s: string, flags: set<MsgFlag>, types: set<FlagType>, u: nat)
    requires u < |FLAG_INFO|
    ensures s + ToStrFrom(flags, types, u) ==
            (if FLAG_INFO[u] in flags && TypeOf(FLAG_INFO[u]) in types then s + [CharOf(FLAG_INFO[u])] else s)
            + ToStrFrom(flags, types, u + 1)
  {
    var rest := ToStrFrom(flags, types, u + 1);
    assert s + ([CharOf(FLAG_INFO[u])] + rest) == s + [CharOf(FLAG_INFO[u])] + rest;
  }

  /** mu_flags_to_str_s */
  method FlagsToStr(flags: set<MsgFlag>, types: set<FlagType>) returns (str: string)
    ensures str == ToStr(flags, types)
  {
    str := "";
    var u := 0;
    assert "" + ToStrFrom(flags, types, 0) == ToStrFrom(flags, types, 0);
    while u != |FLAG_INFO|
      invariant 0 <= u <= |FLAG_INFO| && str + ToStrFrom(flags, types, u) == ToStr(flags, types)
      decreases |FLAG_INFO| - u
    {
      ToStrStep(str, flags, types, u);
      if FLAG_INFO[u] in flags && TypeOf(FLAG_INFO[u]) in types {
        str := str + [CharOf(FLAG_INFO[u])];
      }
      u := u + 1;
    }
  }

  lemma AddNone(rest: Option<set<MsgFlag>>)
    ensures AddAll({}, rest) == rest
  {
    if rest.Some? { assert {} + rest.value == rest.value; }
  }

  ghost function AddAll(flag: set<MsgFlag>, rest: Option<set<MsgFlag>>): Option<set<MsgFlag>> {
    if rest.None? then None else Some(flag + rest.value)
  }

  /** mu_flags_from_str */
  method FlagsFromStr(str: string, types: set<FlagType>, ignoreInvalid: bool) returns (r: Option<set<MsgFlag>>)
    ensures r == FromStr(str, types, ignoreInvalid)
  {
    var flag: set<MsgFlag> := {};
    var cur := 0;
    assert str[0..] == str;
    AddNone(FromStr(str, types, ignoreInvalid));
    while cur < |str|
      invariant 0 <= cur <= |str|
      invariant FromStr(str, types, ignoreInvalid) == AddAll(flag, FromStr(str[cur..], types, ignoreInvalid))
    {
      var f := FromChar(str[cur]);
      FromStrStep(str[cur], str[cur + 1..], types, ignoreInvalid, flag);
      assert str[cur..] == [str[cur]] + str[cur + 1..];
      if f.None? {
        if !ignoreInvalid {
          return None;
        }
      } else if TypeOf(f.value) in types {
        flag := flag + {f.value};
      }
      cur := cur + 1;
    }
    assert str[cur..] == "";
    r := Some(flag);
  }

  lemma {:induction false} FromStrStep(c: char, s: string, types: set<FlagType>, ignoreInvalid: bool,
                              flag: set<MsgFlag>)
    ensures var f := FromChar(c);
            AddAll(flag, FromStr([c] + s, types, ignoreInvalid)) ==
              if f.None? && !ignoreInvalid then None
              else if f.Some? && TypeOf(f.value) in types then
                AddAll(flag + {f.value}, FromStr(s, types, ignoreInvalid))
              else AddAll(flag, FromStr(s, types, ignoreInvalid))
  {
    assert ([c] + s)[1..] == s;
    var rest := FromStr(s, types, ignoreInvalid);
    if rest.Some? && FromChar(c).Some? {
      assert flag + ({FromChar(c).value} + rest.value) == flag + {FromChar(c).value} + rest.value;
    }
  }

  lemma {:induction false} FromStrHead(c: char, s: string, types: set<FlagType>, ignoreInvalid: bool)
    ensures var f := FromChar(c);
            FromStr([c] + s, types, ignoreInvalid) ==
              if f.None? && !ignoreInvalid then None
              else if f.Some? && TypeOf(f.value) in types then AddAll({f.value}, FromStr(s, types, ignoreInvalid))
              else FromStr(s, types, ignoreInvalid)
  {
    assert ([c] + s)[1..] == s;
  }

  /** mu_flags_custom_from_str: None is the NULL of an empty result. */
  method CustomFromStr(str: string) returns (custom: Option<string>)
    ensures custom == if Customs(str) == "" then None else Some(Customs(str))
  {
    custom := None;
    var cur := 0;
    assert str[0..] == str;
    while cur < |str|
      invariant 0 <= cur <= |str|
      invariant custom.Some? ==> custom.value != ""
      invariant OrEmpty(custom) + Customs(str[cur..]) == Customs(str)
    {
      assert str[cur..][1..] == str[cur + 1..];
      if !IsFileLetter(str[cur]) {
        custom := Some(OrEmpty(custom) + [str[cur]]);
      }
      cur := cur + 1;
    }
    assert str[cur..] == "" && OrEmpty(custom) + "" == OrEmpty(custom);
  }

  function OrEmpty(s: Option<string>): string {
    if s.Some? then s.value else ""
  }

  // ---- letters and flags ----

  function IndexOf(f: MsgFlag): (u: nat)
    ensures u < |FLAG_INFO| && FLAG_INFO[u] == f
  {
    match f
    case DRAFT => 0
    case FLAGGED => 1
    case PASSED => 2
    case REPLIED => 3
    case SEEN => 4
    case TRASHED => 5
    case NEW => 6
    case SIGNED => 7
    case ENCRYPTED => 8
    case HAS_ATTACH => 9
    case UNREAD => 10
  }

  lemma IndexUnique(u: nat)
    requires u < |FLAG_INFO|
    ensures IndexOf(FLAG_INFO[u]) == u
  {
  }

  lemma LettersInvert(f: MsgFlag)
    ensures FromChar(CharOf(f)) == Some(f)
  {
  }

  lemma {:induction false} FromStrConcat(a: string, b: string, types: set<FlagType>)
    ensures FromStr(a, types, true).Some? && FromStr(b, types, true).Some?
    ensures FromStr(a + b, types, true) == Some(FromStr(a, types, true).value + FromStr(b, types, true).value)
    decreases |a|
  {
    FromStrTotal(a, types);
    FromStrTotal(b, types);
    if a == "" {
      assert a + b == b && {} + FromStr(b, types, true).value == FromStr(b, types, true).value;
    } else {
      assert a + b == [a[0]] + (a[1..] + b);
      assert a == [a[0]] + a[1..];
      FromStrConcat(a[1..], b, types);
      FromStrHead(a[0], a[1..] + b, types, true);
      FromStrHead(a[0], a[1..], types, true);
      var f, x, y := FromChar(a[0]), FromStr(a[1..], types, true).value, FromStr(b, types, true).value;
      if f.Some? { assert ({f.value} + x) + y == {f.value} + (x + y); }
    }
  }

  lemma FromStrTotal(a: string, types: set<FlagType>)
    ensures FromStr(a, types, true).Some?
  {
  }

  ghost function FlagsFrom(flags: set<MsgFlag>, types: set<FlagType>, u: nat): set<MsgFlag>
    requires u <= |FLAG_INFO|
    decreases |FLAG_INFO| - u
  {
    if u == |FLAG_INFO| then {}
    else if FLAG_INFO[u] in flags && TypeOf(FLAG_INFO[u]) in types then {FLAG_INFO[u]} + FlagsFrom(flags, types, u + 1)
    else FlagsFrom(flags, types, u + 1)
  }

  lemma {:induction false} FlagsFromMeans(flags: set<MsgFlag>, types: set<FlagType>, u: nat, f: MsgFlag)
    requires u <= |FLAG_INFO|
    ensures f in FlagsFrom(flags, types, u) <==> f in flags && TypeOf(f) in types && IndexOf(f) >= u
    decreases |FLAG_INFO| - u
  {
    if u < |FLAG_INFO| {
      FlagsFromMeans(flags, types, u + 1, f);
      IndexUnique(u);
    }
  }

  lemma {:induction false} FromToStrFrom(flags: set<MsgFlag>, types: set<FlagType>, u: nat, ignoreInvalid: bool)
    requires u <= |FLAG_INFO|
    ensures FromStr(ToStrFrom(flags, types, u), types, ignoreInvalid) == Some(FlagsFrom(flags, types, u))
    decreases |FLAG_INFO| - u
  {
    if u < |FLAG_INFO| {
      var f := FLAG_INFO[u];
      var rest := ToStrFrom(flags, types, u + 1);
      FromToStrFrom(flags, types, u + 1, ignoreInvalid);
      if f in flags && TypeOf(f) in types {
        LettersInvert(f);
        assert ToStrFrom(flags, types, u) == [CharOf(f)] + rest;
        FromStrHead(CharOf(f), rest, types, ignoreInvalid);
      } else {
        assert ToStrFrom(flags, types, u) == rest;
      }
    }
  }

  /** Writing flags and reading them back gives the flags of the written
      types. */
  lemma {:induction false} FlagsRoundTrip(flags: set<MsgFlag>, types: set<FlagType>, ignoreInvalid: bool)
    ensures FromStr(ToStr(flags, types), types, ignoreInvalid) == Some(set f | f in flags && TypeOf(f) in types)
  {
    FromToStrFrom(flags, types, 0, ignoreInvalid);
    forall f ensures f in FlagsFrom(flags, types, 0) <==> f in flags && TypeOf(f) in types {
      FlagsFromMeans(flags, types, 0, f);
    }
    assert FlagsFrom(flags, types, 0) == set f | f in flags && TypeOf(f) in types;
  }

  lemma {:induction false} CustomsConcat(a: string, b: string)
    ensures Customs(a + b) == Customs(a) + Customs(b)
    decreases |a|
  {
    if a == "" {
      assert a + b == b;
    } else {
      assert (a + b)[1..] == a[1..] + b;
      CustomsConcat(a[1..], b);
    }
  }

  ghost predicate NoFileLetters(s: string) {
    forall i :: 0 <= i < |s| ==> !IsFileLetter(s[i])
  }

  lemma {:induction false} CustomsFilters(str: string)
    ensures NoFileLetters(Customs(str))
    ensures forall i :: 0 <= i < |Customs(str)| ==> Customs(str)[i] in str
    decreases |str|
  {
    if str != "" {
      CustomsFilters(str[1..]);
    }
  }

  lemma {:induction false} CustomsOfCustoms(s: string)
    requires NoFileLetters(s)
    ensures Customs(s) == s && FromStr(s, {MAILFILE}, true) == Some({})
    decreases |s|
  {
    if s != "" {
      CustomsOfCustoms(s[1..]);
      assert s == [s[0]] + s[1..];
      FromStrHead(s[0], s[1..], {MAILFILE}, true);
    }
  }

  ghost predicate PlainLetter(c: char) {
    IsFileLetter(c) && c != '2' && c != ':' && c != '!' && c != '/'
  }

  ghost predicate AllPlain(s: string) {
    forall i :: 0 <= i < |s| ==> PlainLetter(s[i])
  }

  /** The letters that are written are file letters, and none of them can be
      mistaken for part of the info marker. */
  lemma {:induction false} WrittenLetters(flags: set<MsgFlag>, u: nat)
    requires u <= |FLAG_INFO|
    ensures AllPlain(ToStrFrom(flags, {MAILFILE}, u))
    decreases |FLAG_INFO| - u
  {
    if u < |FLAG_INFO| {
      var f := FLAG_INFO[u];
      WrittenLetters(flags, u + 1);
      LettersInvert(f);
      var s, rest := ToStrFrom(flags, {MAILFILE}, u), ToStrFrom(flags, {MAILFILE}, u + 1);
      if f in flags && TypeOf(f) in {MAILFILE} {
        assert PlainLetter(CharOf(f));
        assert s == [CharOf(f)] + rest;
        forall i | 0 <= i < |s| ensures PlainLetter(s[i]) {
          if i > 0 { assert s[i] == rest[i - 1]; }
        }
      } else {
        assert s == rest;
      }
    }
  }

  lemma {:induction false} NoCustomsWritten(s: string)
    requires AllPlain(s)
    ensures Customs(s) == ""
    decreases |s|
  {
    if s != "" {
      NoCustomsWritten(s[1..]);
    }
  }
}
