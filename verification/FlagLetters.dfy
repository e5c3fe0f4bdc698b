/** What is written in file names and read from them, letter by letter. */
module FlagLetters {
  import opened Options
  import opened MsgFlags
  import opened MaildirNames
  import opened NameRoundTrips

  ghost const LETTERS: map<MsgFlag, char> :=
    map[DRAFT := 'D', FLAGGED := 'F', PASSED := 'P', REPLIED := 'R', SEEN := 'S', TRASHED := 'T', NEW := 'N',
        SIGNED := 'z', ENCRYPTED := 'x', HAS_ATTACH := 'a', UNREAD := 'u']

  const FILE_FLAGS: set<MsgFlag> := {DRAFT, FLAGGED, PASSED, REPLIED, SEEN, TRASHED}

  ghost predicate OfType(f: MsgFlag, types: set<FlagType>) {
    (f in FILE_FLAGS && MAILFILE in types)
    || (f == NEW && MAILDIR in types)
    || (f in {SIGNED, ENCRYPTED, HAS_ATTACH} && CONTENT in types)
    || (f == UNREAD && PSEUDO in types)
  }

  /** The letters of all flags, in the order in which they are written. */
  const TABLE := "DFPRSTNzxau"

  /** s holds exactly the letters of the flags of the given types, each once, in
      the order of the table. */
  ghost predicate Spells(s: string, flags: set<MsgFlag>, types: set<FlagType>) {
    (forall c :: c in s <==> exists f :: f in LETTERS && f in flags && OfType(f, types) && LETTERS[f] == c)
    && forall i, j :: 0 <= i < j < |s| ==> Before(s[i], s[j])
  }

  ghost predicate Before(a: char, b: char) {
    exists i, j :: 0 <= i < j < |TABLE| && TABLE[i] == a && TABLE[j] == b
  }

  // ---- writing ----

  lemma TypeTable(f: MsgFlag, types: set<FlagType>)
    ensures TypeOf(f) in types <==> OfType(f, types)
  {
  }

  lemma LetterTable(f: MsgFlag)
    ensures f in LETTERS && CharOf(f) == LETTERS[f] && FromChar(LETTERS[f]) == Some(f)
  {
  }

  lemma TableEntry(u: nat)
    requires u < |FLAG_INFO|
    ensures FLAG_INFO[u] in LETTERS && TABLE[u] == LETTERS[FLAG_INFO[u]]
  {
  }

  /** The letters written from entry u of the table on. */
  lemma {:induction false} LettersFrom(flags: set<MsgFlag>, types: set<FlagType>, u: nat, c: char)
    requires u <= |FLAG_INFO|
    ensures c in ToStrFrom(flags, types, u)
            <==> exists v :: u <= v < |FLAG_INFO| && Written(flags, types, v) && TABLE[v] == c
    decreases |FLAG_INFO| - u
  {
    if u < |FLAG_INFO| {
      LettersFrom(flags, types, u + 1, c);
      TableEntry(u);
      LetterTable(FLAG_INFO[u]);
      TypeTable(FLAG_INFO[u], types);
    }
  }

  ghost predicate Written(flags: set<MsgFlag>, types: set<FlagType>, v: nat)
    requires v < |FLAG_INFO|
  {
    FLAG_INFO[v] in flags && OfType(FLAG_INFO[v], types)
  }

  lemma {:induction false} LaterLetter(flags: set<MsgFlag>, types: set<FlagType>, u: nat, c: char)
    requires u < |FLAG_INFO| && c in ToStrFrom(flags, types, u + 1)
    ensures FLAG_INFO[u] in LETTERS && Before(LETTERS[FLAG_INFO[u]], c)
  {
    TableEntry(u);
    LettersFrom(flags, types, u + 1, c);
  }

  lemma {:induction false} LettersInOrder(flags: set<MsgFlag>, types: set<FlagType>, u: nat, i: nat, j: nat)
    requires u <= |FLAG_INFO| && i < j < |ToStrFrom(flags, types, u)|
    ensures Before(ToStrFrom(flags, types, u)[i], ToStrFrom(flags, types, u)[j])
    decreases |FLAG_INFO| - u
  {
    var f, rest := FLAG_INFO[u], ToStrFrom(flags, types, u + 1);
    if f in flags && TypeOf(f) in types {
      if i > 0 {
        LettersInOrder(flags, types, u + 1, i - 1, j - 1);
      } else {
        LaterLetter(flags, types, u, rest[j - 1]);
        LetterTable(f);
      }
    } else {
      LettersInOrder(flags, types, u + 1, i, j);
    }
  }

  /** Flags are written as their letters, in the order of the table, and nothing
      else is. */
  lemma {:induction false} LettersWritten(flags: set<MsgFlag>, types: set<FlagType>)
    ensures Spells(ToStr(flags, types), flags, types)
  {
    var s := ToStr(flags, types);
    forall c ensures c in s <==> exists f :: f in LETTERS && f in flags && OfType(f, types) && LETTERS[f] == c {
      LettersFrom(flags, types, 0, c);
      LettersOfFlags(flags, types, c);
    }
    forall i, j | 0 <= i < j < |s| ensures Before(s[i], s[j]) {
      LettersInOrder(flags, types, 0, i, j);
    }
  }

  lemma {:induction false} LettersOfFlags(flags: set<MsgFlag>, types: set<FlagType>, c: char)
    ensures (exists v :: 0 <= v < |FLAG_INFO| && Written(flags, types, v) && TABLE[v] == c)
            <==> exists f :: f in LETTERS && f in flags && OfType(f, types) && LETTERS[f] == c
  {
    if v :| 0 <= v < |FLAG_INFO| && Written(flags, types, v) && TABLE[v] == c {
      TableEntry(v);
      assert FLAG_INFO[v] in flags;
    }
    if f :| f in LETTERS && f in flags && OfType(f, types) && LETTERS[f] == c {
      TableEntry(IndexOf(f));
      assert Written(flags, types, IndexOf(f));
    }
  }

  /** In particular, of a message's flags a name in cur/ holds these letters. */
  lemma {:induction false} FileLettersWritten(flags: set<MsgFlag>)
    ensures var s := ToStr(flags, {MAILFILE});
            && ('D' in s <==> DRAFT in flags) && ('F' in s <==> FLAGGED in flags) && ('P' in s <==> PASSED in flags)
            && ('R' in s <==> REPLIED in flags) && ('S' in s <==> SEEN in flags) && ('T' in s <==> TRASHED in flags)
            && (forall c :: c in s ==> c in "DFPRST") && (forall i, j :: 0 <= i < j < |s| ==> s[i] < s[j])
  {
    var s := ToStr(flags, {MAILFILE});
    LettersWritten(flags, {MAILFILE});
    LetterStands(flags, DRAFT);
    LetterStands(flags, FLAGGED);
    LetterStands(flags, PASSED);
    LetterStands(flags, REPLIED);
    LetterStands(flags, SEEN);
    LetterStands(flags, TRASHED);
    forall i, j | 0 <= i < j < |s| ensures s[i] < s[j] {
      assert s[i] in s && s[j] in s;
      FileLetter(flags, s[i]);
      FileLetter(flags, s[j]);
      BeforeIsLess(s[i], s[j]);
    }
    forall c | c in s ensures c in "DFPRST" {
      FileLetter(flags, c);
    }
  }

  lemma {:induction false} LetterStands(flags: set<MsgFlag>, f: MsgFlag)
    requires f in FILE_FLAGS
    ensures f in LETTERS && (LETTERS[f] in ToStr(flags, {MAILFILE}) <==> f in flags)
  {
    LettersWritten(flags, {MAILFILE});
    LetterTable(f);
    if LETTERS[f] in ToStr(flags, {MAILFILE}) {
      var g :| g in LETTERS && g in flags && OfType(g, {MAILFILE}) && LETTERS[g] == LETTERS[f];
      LetterTable(g);
    }
  }

  lemma {:induction false} FileLetter(flags: set<MsgFlag>, c: char)
    requires c in ToStr(flags, {MAILFILE})
    ensures c in "DFPRST"
  {
    LettersWritten(flags, {MAILFILE});
    var f :| f in LETTERS && f in flags && OfType(f, {MAILFILE}) && LETTERS[f] == c;
    assert f in FILE_FLAGS;
    OneOfSix(f);
  }

  lemma OneOfSix(f: MsgFlag)
    requires f in FILE_FLAGS
    ensures f in LETTERS && LETTERS[f] in "DFPRST"
  {
    var six := "DFPRST";
    assert six[0] == 'D' && six[1] == 'F' && six[2] == 'P' && six[3] == 'R' && six[4] == 'S' && six[5] == 'T';
  }

  lemma BeforeIsLess(a: char, b: char)
    requires Before(a, b) && a in "DFPRST" && b in "DFPRST"
    ensures a < b
  {
  }

  // ---- reading ----

  /** The flags of the given types whose letters occur. */
  ghost function Occurring(str: string, types: set<FlagType>): set<MsgFlag> {
    set f | f in LETTERS && OfType(f, types) && LETTERS[f] in str
  }

  lemma {:induction false} LetterRead(c: char, types: set<FlagType>)
    ensures Occurring([c], types)
         == if FromChar(c).Some? && TypeOf(FromChar(c).value) in types then {FromChar(c).value} else {}
  {
    forall f ensures f in Occurring([c], types) <==> FromChar(c) == Some(f) && TypeOf(f) in types {
      LetterTable(f);
      TypeTable(f, types);
      if FromChar(c) == Some(f) { LetterBack(c); }
    }
  }

  lemma LetterBack(c: char)
    ensures FromChar(c).Some? <==> c in TABLE
    ensures FromChar(c).Some? ==> FromChar(c).value in LETTERS && LETTERS[FromChar(c).value] == c
  {
  }

  lemma OccurringSplit(c: char, s: string, types: set<FlagType>)
    ensures Occurring([c] + s, types) == Occurring([c], types) + Occurring(s, types)
  {
  }

  ghost predicate AllKnown(str: string) {
    forall i :: 0 <= i < |str| ==> str[i] in TABLE
  }

  lemma KnownSplit(c: char, rest: string)
    ensures AllKnown([c] + rest) <==> c in TABLE && AllKnown(rest)
  {
    var s := [c] + rest;
    assert s[0] == c && forall i :: 0 <= i < |rest| ==> rest[i] == s[i + 1];
  }

  /** Reading gives exactly the flags of the given types whose letters occur, or
      nothing if a letter is none and letters that are none are refused. */
  lemma {:induction false} LettersRead(str: string, types: set<FlagType>, ignoreInvalid: bool)
    ensures FromStr(str, types, ignoreInvalid)
         == if ignoreInvalid || AllKnown(str) then Some(Occurring(str, types)) else None
    decreases |str|
  {
    if str == "" {
      assert Occurring("", types) == {};
    } else {
      var c, rest := str[0], str[1..];
      LettersRead(rest, types, ignoreInvalid);
      FromStrHead(c, rest, types, ignoreInvalid);
      assert str == [c] + rest;
      LetterBack(c);
      LetterRead(c, types);
      OccurringSplit(c, rest, types);
      KnownSplit(c, rest);
      assert {} + Occurring(rest, types) == Occurring(rest, types);
    }
  }

  /** Custom flags are what is left without the file letters. */
  lemma {:induction false} CustomLetters(a: string, b: string, c: char)
    ensures Customs(a + b) == Customs(a) + Customs(b)
    ensures Customs([c]) == if c in "DFPRST" then "" else [c]
  {
    CustomsConcat(a, b);
    assert [c][1..] == "" && Customs("") == "";
    LetterBack(c);
  }

  // ---- paths ----

  ghost function ReadFlags(info: string): set<MsgFlag> {
    set f | f in FILE_FLAGS && f in LETTERS && LETTERS[f] in info
  }

  lemma {:induction false} InfoLetters(info: string)
    ensures FromStr(info, {MAILFILE}, true) == Some(ReadFlags(info))
  {
    LettersRead(info, {MAILFILE}, true);
    assert Occurring(info, {MAILFILE}) == ReadFlags(info);
  }

  /** A name with an info part, after either separator, says which file flags a
      message in cur/ has by the letters that stand in it. */
  lemma {:induction false} PathLettersRead(m: string, base: string, sep: char, info: string, stale: set<MsgFlag>)
    requires FileName(base) && NoSlash(info) && Without(info, '2') && (sep == ':' || sep == '!')
    ensures var p := m + "/cur/" + base + [sep] + "2," + info;
            FlagsFromPath(p, stale) == if HasInfix(p, "/new/") && stale == {NEW} then {NEW} else ReadFlags(info)
  {
    var name := base + [sep] + "2," + info;
    var p := m + "/cur/" + base + [sep] + "2," + info;
    assert p == m + "/" + "cur" + "/" + name;
    LeafPath(m, "cur", name);
    MarkFound(m + "/cur/" + base, sep, info);
    InfoLetters(info);
    ReadMarked(p, info, stale);
  }

  lemma {:induction false} MarkFound(front: string, sep: char, info: string)
    requires Without(info, '2')
    ensures var p := front + [sep] + "2," + info;
            var i := LastTwo(p);
            i == |front| + 1 && p[i - 1] == sep && i + 1 < |p| && p[i + 1] == ',' && p[i + 2..] == info
  {
    var p := front + [sep] + "2," + info;
    assert p[|front|] == sep && p[|front| + 1] == '2' && p[|front| + 2] == ',';
    forall j | |front| + 1 < j < |p| ensures p[j] != '2' {
      if j >= |front| + 3 { assert p[j] == info[j - |front| - 3]; }
    }
    LastTwoAt(p, |front| + 1);
  }

  lemma ReadMarked(p: string, info: string, stale: set<MsgFlag>)
    requires BaseName(DirName(p)) == "cur" && FromStr(info, {MAILFILE}, true) == Some(ReadFlags(info))
    requires var i := LastTwo(p);
             i > 0 && (p[i - 1] == ':' || p[i - 1] == '!') && i + 1 < |p| && p[i + 1] == ',' && p[i + 2..] == info
    ensures FlagsFromPath(p, stale) == if HasInfix(p, "/new/") && stale == {NEW} then {NEW} else ReadFlags(info)
  {
    assert "cur"[0] != "new"[0];
  }

  /** A name without an info marker has no file flags. */
  lemma {:induction false} UnmarkedHasNone(p: string, stale: set<MsgFlag>)
    requires NoMarker(p)
    ensures FlagsFromPath(p, stale) == {} || (HasInfix(p, "/new/") && FlagsFromPath(p, stale) == {NEW})
  {
    var i := LastTwo(p);
    assert i > 0 ==> !MarkerAt(p, i - 1);
  }

  /** A name is cut at its info marker, after either separator. */
  lemma {:induction false} NameCut(base: string, sep: char, info: string)
    requires base != "" && NoMarker(info) && (sep == ':' || sep == '!')
    ensures var n := base + [sep] + "2," + info;
            Stem(n) == base && OrEmpty(CustomFlags(n)) == Customs(info)
  {
    var n := base + [sep] + "2," + info;
    assert n[|base|] == sep && n[|base| + 1] == '2' && n[|base| + 2] == ',';
    forall j | |base| < j < |n| ensures !MarkerAt(n, j) {
      if j >= |base| + 3 {
        assert !MarkerAt(info, j - |base| - 3);
        assert forall k :: j <= k < |n| ==> n[k] == info[k - |base| - 3];
      }
    }
    LastMarkerAt(n, |base|);
    assert n[..|base|] == base && n[|base| + 3..] == info;
  }

  /** Where a renamed message is, and what it is called: new messages under the
      bare name in new/, others in cur/ with the letters of their file flags and
      what was kept of the old ones. */
  lemma {:induction false} RenameLands(path: string, target: Option<string>, flags: set<MsgFlag>)
    requires LongEnough(path) && MaildirFromPath(path).Some?
    ensures Renamed(path, target, flags).Some? && LongEnough(Renamed(path, target, flags).value)
    ensures var p, n := Renamed(path, target, flags).value, BaseName(path);
            && MaildirFromPath(p) == (if target.Some? then target else MaildirFromPath(path))
            && BaseName(DirName(p)) == (if NEW in flags then "new" else "cur")
            && BaseName(p) == if NEW in flags then Stem(n)
                              else Stem(n) + ":2," + ToStr(flags, {MAILFILE}) + OrEmpty(CustomFlags(n))
  {
    var m := if target.Some? then target.value else MaildirFromPath(path).value;
    OriginalParts(path);
    if NEW in flags {
      NewLands(m, Stem(BaseName(path)), flags, CustomFlags(BaseName(path)));
    } else {
      NewPathIsCurPath(m, Stem(BaseName(path)), flags, CustomFlags(BaseName(path)));
      CurPathParts(m, Stem(BaseName(path)), flags, OrEmpty(CustomFlags(BaseName(path))));
    }
  }

  lemma {:induction false} NewLands(m: string, base: string, flags: set<MsgFlag>, custom: Option<string>)
    requires FileName(base) && NEW in flags
    ensures var p := NewPath(m, base, flags, custom);
            BaseName(DirName(p)) == "new" && BaseName(p) == base && LongEnough(p) && MaildirFromPath(p) == Some(m)
  {
    assert NewPath(m, base, flags, custom) == m + "/" + "new" + "/" + base;
    LeafPath(m, "new", base);
  }
}
