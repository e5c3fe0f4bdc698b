/** What the path functions promise each other. */
module NameRoundTrips {
  import opened Options
  import opened MsgFlags
  import opened MaildirNames

  ghost predicate NoSlash(s: string) {
    forall i :: 0 <= i < |s| ==> s[i] != '/'
  }

  /** A name a file can have. */
  ghost predicate FileName(s: string) {
    s != "" && NoSlash(s)
  }

  // ---- taking paths apart ----

  lemma StripFull(s: string)
    requires s != "" && s[|s| - 1] != '/'
    ensures StripSlashes(s) == s && StripAllSlashes(s) == s
    ensures StripSlashes(s + "/") == s
  {
    assert (s + "/")[..|s + "/"| - 1] == s;
  }

  lemma {:induction false} LastSlashAt(s: string, i: nat)
    requires i < |s| && s[i] == '/' && forall j :: i < j < |s| ==> s[j] != '/'
    ensures LastSlash(s) == i
  {
  }

  lemma {:induction false} BaseOf(m: string, name: string)
    requires FileName(name)
    ensures BaseName(m + "/" + name) == name
  {
    var p := m + "/" + name;
    assert p[|p| - 1] == name[|name| - 1];
    StripFull(p);
    LastSlashAt(p, |m|);
    assert p[|m| + 1..] == name;
  }

  lemma {:induction false} DirOf(d: string, name: string)
    requires FileName(name) && d != "" && d[|d| - 1] != '/'
    ensures DirName(d + "/" + name) == d
  {
    var p := d + "/" + name;
    LastSlashAt(p, |d|);
    assert p[..|d| + 1] == d + "/";
    StripFull(d);
  }

  lemma {:induction false} LeafPath(m: string, leaf: string, name: string)
    requires FileName(name) && (leaf == "cur" || leaf == "new")
    ensures var p := m + "/" + leaf + "/" + name;
            && DirName(p) == m + "/" + leaf && BaseName(p) == name && BaseName(DirName(p)) == leaf
            && LongEnough(p) && MaildirFromPath(p) == Some(m)
  {
    var d := m + "/" + leaf;
    CutLeaf(m, leaf);
    DirOf(d, name);
    BaseOf(d, name);
    BaseOf(m, leaf);
  }

  /** A path is one of a message exactly when its directory has a name that ends
      with cur or new; nothing else is renamed. */
  lemma {:induction false} MaildirIff(m: string, leaf: string, name: string)
    requires FileName(leaf) && FileName(name)
    ensures var p := m + "/" + leaf + "/" + name;
            LongEnough(p) && (MaildirFromPath(p).Some? <==> exists s :: leaf == s + "cur" || leaf == s + "new")
  {
    var d := m + "/" + leaf;
    DirOf(d, name);
    EndsWith(m, leaf, "cur");
    EndsWith(m, leaf, "new");
  }

  lemma {:induction false} ShorterName(m: string, leaf: string, t: string)
    requires NoSlash(t)
    ensures |leaf| < |t| ==> !HasSuffix(m + "/" + leaf, t)
  {
    var d := m + "/" + leaf;
    if |leaf| < |t| <= |d| {
      assert d[|d| - |t|..][|t| - 1 - |leaf|] == d[|m|];
    }
  }

  lemma {:induction false} EndsWith(m: string, leaf: string, t: string)
    requires FileName(t) && NoSlash(leaf)
    ensures HasSuffix(m + "/" + leaf, t) <==> exists s :: leaf == s + t
  {
    var d := m + "/" + leaf;
    ShorterName(m, leaf, t);
    if HasSuffix(d, t) {
      assert leaf == leaf[..|leaf| - |t|] + t;
    }
    if s :| leaf == s + t {
      assert d == (m + "/" + s) + t;
    }
  }

  lemma CutLeaf(m: string, leaf: string)
    requires |leaf| == 3
    ensures var d := m + "/" + leaf; d[|d| - 1] == leaf[2] && d[|d| - 3..] == leaf && d[..|d| - 4] == m
  {
  }

  lemma {:induction false} InfixMiddle(a: string, t: string, b: string)
    ensures HasInfix(a + t + b, t)
    decreases |a|
  {
    if a == "" {
      assert (a + t + b)[..|t|] == t;
    } else {
      assert (a + t + b)[1..] == a[1..] + t + b;
      InfixMiddle(a[1..], t, b);
    }
  }

  // ---- reading back what was written ----

  ghost predicate Without(s: string, c: char) {
    forall i :: 0 <= i < |s| ==> s[i] != c
  }

  /** The info part that get_new_path writes. */
  ghost function InfoName(base: string, flags: set<MsgFlag>, custom: string): string {
    base + ":2," + ToStr(flags, {MAILFILE}) + custom
  }

  ghost function CurPath(m: string, base: string, flags: set<MsgFlag>, custom: string): string {
    m + "/cur/" + InfoName(base, flags, custom)
  }

  lemma NewPathIsCurPath(m: string, base: string, flags: set<MsgFlag>, custom: Option<string>)
    requires NEW !in flags
    ensures NewPath(m, base, flags, custom) == CurPath(m, base, flags, OrEmpty(custom))
  {
    Regroup(m + "/cur/", base, ":2,", ToStr(flags, {MAILFILE}), OrEmpty(custom));
  }

  lemma Regroup(a: string, b: string, c: string, d: string, e: string)
    ensures a + b + c + d + e == a + (b + c + d + e)
  {
  }

  lemma LastTwoAt(s: string, i: nat)
    requires i < |s| && s[i] == '2' && forall j :: i < j < |s| ==> s[j] != '2'
    ensures LastTwo(s) == i
  {
  }

  ghost function FileFlags(flags: set<MsgFlag>): set<MsgFlag> {
    flags * {DRAFT, FLAGGED, PASSED, REPLIED, SEEN, TRASHED}
  }

  lemma {:induction false} InfoRead(flags: set<MsgFlag>, custom: string)
    requires NoFileLetters(custom)
    ensures FromStr(ToStr(flags, {MAILFILE}) + custom, {MAILFILE}, true) == Some(FileFlags(flags))
  {
    FlagsRoundTrip(flags, {MAILFILE}, true);
    CustomsOfCustoms(custom);
    FromStrConcat(ToStr(flags, {MAILFILE}), custom, {MAILFILE});
    var written := FromStr(ToStr(flags, {MAILFILE}), {MAILFILE}, true).value;
    assert written == FileFlags(flags);
    assert written + {} == written;
  }

  lemma {:induction false} InfoFound(m: string, base: string, flags: set<MsgFlag>, custom: string)
    requires Without(custom, '2')
    ensures var p := CurPath(m, base, flags, custom);
            var i := LastTwo(p);
            i > 0 && p[i - 1] == ':' && i + 1 < |p| && p[i + 1] == ','
                && p[i + 2..] == ToStr(flags, {MAILFILE}) + custom
  {
    var tail := ToStr(flags, {MAILFILE}) + custom;
    var front := m + "/cur/" + base;
    var p := CurPath(m, base, flags, custom);
    WrittenLetters(flags, 0);
    assert p == front + ":2," + tail;
    assert forall j :: 0 <= j < |ToStr(flags, {MAILFILE})| ==> PlainLetter(tail[j]);
    assert forall j :: |ToStr(flags, {MAILFILE})| <= j < |tail| ==> tail[j] == custom[j - |ToStr(flags, {MAILFILE})|];
    forall j | |front| + 1 < j < |p| ensures p[j] != '2' {
      if j >= |front| + 3 { assert p[j] == tail[j - |front| - 3]; }
    }
    LastTwoAt(p, |front| + 1);
  }

  lemma {:induction false} CurPathParts(m: string, base: string, flags: set<MsgFlag>, custom: string)
    requires FileName(base) && NoSlash(custom)
    ensures var p := CurPath(m, base, flags, custom);
            && FileName(InfoName(base, flags, custom))
            && DirName(p) == m + "/cur" && BaseName(p) == InfoName(base, flags, custom) && BaseName(DirName(p)) == "cur"
            && LongEnough(p) && MaildirFromPath(p) == Some(m)
  {
    WrittenLetters(flags, 0);
    var n := InfoName(base, flags, custom);
    assert NoSlash(n);
    assert CurPath(m, base, flags, custom) == m + "/" + "cur" + "/" + n;
    LeafPath(m, "cur", n);
  }

  /** Reading the flags of a generated path. A path in new/ always gives NEW.
      A path in cur/ gives the file flags that were written if and only if no
      folder on the way is called new while the unset variable happens to hold
      NEW, and the custom flags hold no '2', which the reader would take for the
      info marker, or there were no file flags to lose. */
  lemma {:induction false} FlagsReadBack(m: string, base: string, flags: set<MsgFlag>, custom: Option<string>,
                              stale: set<MsgFlag>)
    requires FileName(base) && NoSlash(OrEmpty(custom)) && NoFileLetters(OrEmpty(custom))
    ensures NEW in flags ==> FlagsFromPath(NewPath(m, base, flags, custom), stale) == {NEW}
    ensures NEW !in flags ==>
              (FlagsFromPath(NewPath(m, base, flags, custom), stale) == FileFlags(flags)
               <==> !(HasInfix(NewPath(m, base, flags, custom), "/new/") && stale == {NEW})
                    && (Without(OrEmpty(custom), '2') || FileFlags(flags) == {}))
  {
    if NEW in flags {
      NewReadBack(m, base, flags, custom, stale);
    } else {
      NewPathIsCurPath(m, base, flags, custom);
      if Without(OrEmpty(custom), '2') {
        CurReadBack(m, base, flags, OrEmpty(custom), stale);
      } else {
        TwoReadBack(m, base, flags, OrEmpty(custom), stale);
      }
    }
  }

  /** With a '2' among the custom flags no file flag is read. */
  lemma {:induction false} TwoReadBack(m: string, base: string, flags: set<MsgFlag>, c: string, stale: set<MsgFlag>)
    requires FileName(base) && NoSlash(c) && !Without(c, '2') && NoFileLetters(c)
    ensures FlagsFromPath(CurPath(m, base, flags, c), stale)
         == if HasInfix(CurPath(m, base, flags, c), "/new/") && stale == {NEW} then {NEW} else {}
  {
    var p, front := CurPath(m, base, flags, c), m + "/cur/" + base + ":2," + ToStr(flags, {MAILFILE});
    CurPathParts(m, base, flags, c);
    Regroup(m + "/cur/", base, ":2,", ToStr(flags, {MAILFILE}), c);
    TwoInCustom(p, front, c);
    ReadNoInfo(p, stale);
  }

  lemma {:induction false} ReadNoInfo(p: string, stale: set<MsgFlag>)
    requires BaseName(DirName(p)) == "cur"
    requires 0 <= LastTwo(p) && (LastTwo(p) + 2 <= |p| ==> FromStr(p[LastTwo(p) + 2..], {MAILFILE}, true) == Some({}))
    ensures FlagsFromPath(p, stale) == if HasInfix(p, "/new/") && stale == {NEW} then {NEW} else {}
  {
    assert "cur"[0] != "new"[0];
  }

  lemma {:induction false} TwoInCustom(p: string, front: string, c: string)
    requires p == front + c && !Without(c, '2') && NoFileLetters(c)
    ensures 0 <= LastTwo(p) && (LastTwo(p) + 2 <= |p| ==> FromStr(p[LastTwo(p) + 2..], {MAILFILE}, true) == Some({}))
  {
    var i :| 0 <= i < |c| && c[i] == '2';
    var k := LastTwo(c);
    LastTwoAt(p, |front| + k);
    if k + 2 <= |c| {
      assert p[|front| + k + 2..] == c[k + 2..];
      CustomsOfCustoms(c[k + 2..]);
    }
  }

  lemma {:induction false} NewReadBack(m: string, base: string, flags: set<MsgFlag>, custom: Option<string>,
                              stale: set<MsgFlag>)
    requires FileName(base) && NEW in flags
    ensures FlagsFromPath(NewPath(m, base, flags, custom), stale) == {NEW}
  {
    assert NewPath(m, base, flags, custom) == m + "/" + "new" + "/" + base;
    assert NewPath(m, base, flags, custom) == m + "/new/" + base;
    LeafPath(m, "new", base);
    InfixMiddle(m, "/new/", base);
  }

  lemma {:induction false} CurReadBack(m: string, base: string, flags: set<MsgFlag>, c: string, stale: set<MsgFlag>)
    requires FileName(base) && NoSlash(c) && Without(c, '2') && NoFileLetters(c)
    ensures FlagsFromPath(CurPath(m, base, flags, c), stale) == FileFlags(flags)
            <==> !(HasInfix(CurPath(m, base, flags, c), "/new/") && stale == {NEW})
  {
    CurPathParts(m, base, flags, c);
    InfoFound(m, base, flags, c);
    InfoRead(flags, c);
    ReadInfo(CurPath(m, base, flags, c), stale, ToStr(flags, {MAILFILE}) + c, FileFlags(flags));
    assert NEW !in FileFlags(flags) && NEW in {NEW};
  }

  lemma {:induction false} ReadInfo(p: string, stale: set<MsgFlag>, info: string, flags: set<MsgFlag>)
    requires BaseName(DirName(p)) == "cur" && FromStr(info, {MAILFILE}, true) == Some(flags)
    requires var i := LastTwo(p); i > 0 && p[i - 1] == ':' && i + 1 < |p| && p[i + 1] == ',' && p[i + 2..] == info
    ensures FlagsFromPath(p, stale) == if HasInfix(p, "/new/") && stale == {NEW} then {NEW} else flags
  {
    assert "cur"[0] != "new"[0];
  }

  // ---- histories of renames ----

  ghost predicate NoMarker(s: string) {
    forall i :: 0 <= i < |s| ==> !MarkerAt(s, i)
  }

  lemma {:induction false} LastMarkerAt(s: string, i: nat)
    requires i > 0 && MarkerAt(s, i) && forall j :: i < j < |s| ==> !MarkerAt(s, j)
    ensures LastMarker(s) == i
  {
  }

  /** Where the info marker of a generated name is found again. */
  lemma {:induction false} MarkersOf(base: string, flags: set<MsgFlag>, custom: string)
    ensures var n := InfoName(base, flags, custom);
            var k := |base| + 3 + |ToStr(flags, {MAILFILE})|;
            && MarkerAt(n, |base|)
            && n[..|base|] == base && n[|base| + 3..] == ToStr(flags, {MAILFILE}) + custom && n[k..] == custom
            && (forall j :: |base| < j < k ==> !MarkerAt(n, j))
            && (forall j :: k <= j < |n| ==> (MarkerAt(n, j) <==> MarkerAt(custom, j - k)))
  {
    WrittenLetters(flags, 0);
    MarkersOfParts(base, ToStr(flags, {MAILFILE}), custom);
  }

  lemma {:induction false} MarkersOfParts(base: string, letters: string, custom: string)
    requires forall i :: 0 <= i < |letters| ==> PlainLetter(letters[i])
    ensures var n := base + ":2," + letters + custom;
            var k := |base| + 3 + |letters|;
            && MarkerAt(n, |base|)
            && n[..|base|] == base && n[|base| + 3..] == letters + custom && n[k..] == custom
            && (forall j :: |base| < j < k ==> !MarkerAt(n, j))
            && (forall j :: k <= j < |n| ==> (MarkerAt(n, j) <==> MarkerAt(custom, j - k)))
  {
    var n := base + ":2," + letters + custom;
    var k := |base| + 3 + |letters|;
    assert n[|base|] == ':' && n[|base| + 1] == '2' && n[|base| + 2] == ',';
    forall j | |base| < j < k ensures !MarkerAt(n, j) {
      if j >= |base| + 3 {
        assert n[j] == letters[j - |base| - 3];
        assert PlainLetter(letters[j - |base| - 3]);
      }
    }
    assert forall j :: k <= j < |n| ==> n[j] == custom[j - k];
  }

  lemma {:induction false} StemBack(base: string, flags: set<MsgFlag>, custom: string)
    requires base != "" && NoMarker(custom) && NoFileLetters(custom)
    ensures Stem(InfoName(base, flags, custom)) == base
    ensures OrEmpty(CustomFlags(InfoName(base, flags, custom))) == custom
  {
    var n := InfoName(base, flags, custom);
    var k := |base| + 3 + |ToStr(flags, {MAILFILE})|;
    MarkersOf(base, flags, custom);
    forall j | |base| < j < |n| ensures !MarkerAt(n, j) {
      if j >= k { assert !MarkerAt(custom, j - k); }
    }
    LastMarkerAt(n, |base|);
    WrittenLetters(flags, 0);
    NoCustomsWritten(ToStr(flags, {MAILFILE}));
    CustomsConcat(ToStr(flags, {MAILFILE}), custom);
    CustomsOfCustoms(custom);
    assert "" + custom == custom;
  }

  datatype Rename = Rename(mdir: Option<string>, flags: set<MsgFlag>)

  ghost predicate ToCur(rs: seq<Rename>) {
    forall i :: 0 <= i < |rs| ==> NEW !in rs[i].flags
  }

  /** The path after a sequence of renames. */
  function RenameAll(path: string, rs: seq<Rename>): Option<string>
    decreases |rs|
  {
    if rs == [] then Some(path)
    else if !LongEnough(path) then None
    else
      var p := Renamed(path, rs[0].mdir, rs[0].flags);
      if p.None? then None else RenameAll(p.value, rs[1..])
  }

  /** The folder after a sequence of renames. */
  function LastMdir(m: string, rs: seq<Rename>): string
    decreases |rs|
  {
    if rs == [] then m else LastMdir(if rs[0].mdir.Some? then rs[0].mdir.value else m, rs[1..])
  }

  /** The flags after a sequence of renames. */
  function LastFlags(flags: set<MsgFlag>, rs: seq<Rename>): set<MsgFlag>
    decreases |rs|
  {
    if rs == [] then flags else LastFlags(rs[0].flags, rs[1..])
  }

  lemma {:induction false} LastFlagsAreTheLast(flags: set<MsgFlag>, rs: seq<Rename>)
    requires rs != []
    ensures LastFlags(flags, rs) == rs[|rs| - 1].flags
    decreases |rs|
  {
    if |rs| > 1 { LastFlagsAreTheLast(rs[0].flags, rs[1..]); }
  }

  lemma {:induction false} RenameCur(m: string, base: string, flags: set<MsgFlag>, custom: string, r: Rename)
    requires FileName(base) && NoSlash(custom) && NoMarker(custom) && NoFileLetters(custom) && NEW !in r.flags
    ensures var p := CurPath(m, base, flags, custom);
            LongEnough(p)
            && Renamed(p, r.mdir, r.flags)
            == Some(CurPath(if r.mdir.Some? then r.mdir.value else m, base, r.flags, custom))
  {
    CurPathParts(m, base, flags, custom);
    StemBack(base, flags, custom);
    var m' := if r.mdir.Some? then r.mdir.value else m;
    NewPathIsCurPath(m', base, r.flags, CustomFlags(InfoName(base, flags, custom)));
  }

  lemma {:induction false} RenamesFromCur(m: string, base: string, flags: set<MsgFlag>, custom: string, rs: seq<Rename>)
    requires FileName(base) && NoSlash(custom) && NoMarker(custom) && NoFileLetters(custom) && ToCur(rs)
    ensures RenameAll(CurPath(m, base, flags, custom), rs)
         == Some(CurPath(LastMdir(m, rs), base, LastFlags(flags, rs), custom))
    decreases |rs|
  {
    if rs != [] {
      var m' := if rs[0].mdir.Some? then rs[0].mdir.value else m;
      RenameCur(m, base, flags, custom, rs[0]);
      FirstRename(CurPath(m, base, flags, custom), rs, CurPath(m', base, rs[0].flags, custom));
      RenamesFromCur(m', base, rs[0].flags, custom, rs[1..]);
    }
  }

  lemma FirstRename(path: string, rs: seq<Rename>, p: string)
    requires rs != [] && LongEnough(path) && Renamed(path, rs[0].mdir, rs[0].flags) == Some(p)
    ensures RenameAll(path, rs) == RenameAll(p, rs[1..])
  {
  }

  /** The name, stem and custom flags of an original path. */
  lemma {:induction false} OriginalParts(path: string)
    requires LongEnough(path) && MaildirFromPath(path).Some?
    ensures FileName(BaseName(path)) && FileName(Stem(BaseName(path)))
    ensures NoSlash(OrEmpty(CustomFlags(BaseName(path)))) && NoFileLetters(OrEmpty(CustomFlags(BaseName(path))))
  {
    BaseNameIsFileName(path);
    NameParts(BaseName(path));
  }

  lemma {:induction false} NameParts(n: string)
    requires FileName(n)
    ensures FileName(Stem(n))
    ensures NoSlash(OrEmpty(CustomFlags(n))) && NoFileLetters(OrEmpty(CustomFlags(n)))
  {
    var i := LastMarker(n);
    if i > 0 {
      CustomsFilters(n[i + 3..]);
      var c := Customs(n[i + 3..]);
      forall j | 0 <= j < |c| ensures c[j] != '/' {
        assert c[j] in n[i + 3..];
      }
    }
  }

  lemma {:induction false} BaseNameIsFileName(path: string)
    requires LongEnough(path) && MaildirFromPath(path).Some?
    ensures FileName(BaseName(path))
  {
    var t := StripAllSlashes(path);
    assert DirName("") == ".";
    if path != "" {
      if t == "" { OnlySlashes(path); }
    }
  }

  lemma {:induction false} OnlySlashes(s: string)
    requires s != "" && StripAllSlashes(s) == ""
    ensures LastSlash(s) == |s| - 1 && s[..|s|] == s && StripSlashes(s) == "/"
    decreases |s|
  {
    assert s[..|s|] == s;
    if |s| > 1 {
      OnlySlashes(s[..|s| - 1]);
    } else {
      assert s == "/";
    }
  }

  /** History collapse: after any non-empty sequence of renames to cur/, the
      path depends only on the original name, the last flags and the last
      folder, as long as the custom flags do not spell an info marker. */
  lemma {:induction false} HistoryCollapses(path: string, rs: seq<Rename>)
    requires LongEnough(path) && MaildirFromPath(path).Some? && rs != [] && ToCur(rs)
    requires NoMarker(OrEmpty(CustomFlags(BaseName(path))))
    ensures var n := BaseName(path);
            RenameAll(path, rs) == Some(CurPath(LastMdir(MaildirFromPath(path).value, rs), Stem(n),
                                                rs[|rs| - 1].flags, OrEmpty(CustomFlags(n))))
  {
    var n, m := BaseName(path), MaildirFromPath(path).value;
    var m' := if rs[0].mdir.Some? then rs[0].mdir.value else m;
    OriginalParts(path);
    NewPathIsCurPath(m', Stem(n), rs[0].flags, CustomFlags(n));
    FirstRename(path, rs, CurPath(m', Stem(n), rs[0].flags, OrEmpty(CustomFlags(n))));
    RenamesFromCur(m', Stem(n), rs[0].flags, OrEmpty(CustomFlags(n)), rs[1..]);
    LastFlagsAreTheLast({}, rs);
  }

  lemma {:induction false} FindLastMarker(s: string, i: nat) returns (k: nat)
    requires i < |s| && MarkerAt(s, i)
    ensures i <= k < |s| && MarkerAt(s, k) && forall j :: k < j < |s| ==> !MarkerAt(s, j)
    decreases |s| - i
  {
    if j :| i < j < |s| && MarkerAt(s, j) {
      k := FindLastMarker(s, j);
    } else {
      k := i;
    }
  }

  lemma {:induction false} StemWithMarker(base: string, flags: set<MsgFlag>, custom: string, i: nat) returns (k: nat)
    requires i < |custom| && MarkerAt(custom, i) && NoFileLetters(custom)
    ensures k + 3 <= |custom|
    ensures var n := InfoName(base, flags, custom);
            |Stem(n)| == |base| + 3 + |ToStr(flags, {MAILFILE})| + k
            && |OrEmpty(CustomFlags(n))| == |custom| - k - 3
  {
    var n := InfoName(base, flags, custom);
    k := FindLastMarker(custom, i);
    MarkersOf(base, flags, custom);
    var off := |base| + 3 + |ToStr(flags, {MAILFILE})|;
    LastMarkerInTail(n, off, custom, k);
    CutAtMarker(n, off + k, custom[k + 3..]);
  }

  lemma {:induction false} CutAtMarker(n: string, i: nat, tail: string)
    requires 0 < i && LastMarker(n) == i && i + 3 <= |n| && n[i + 3..] == tail && NoFileLetters(tail)
    ensures |Stem(n)| == i && OrEmpty(CustomFlags(n)) == tail
  {
    CustomsOfCustoms(tail);
  }

  lemma {:induction false} LastMarkerInTail(n: string, off: nat, custom: string, k: nat)
    requires 0 < off <= |n| && n[off..] == custom && k < |custom| && MarkerAt(custom, k)
    requires forall j :: k < j < |custom| ==> !MarkerAt(custom, j)
    requires forall j :: off <= j < |n| ==> (MarkerAt(n, j) <==> MarkerAt(custom, j - off))
    ensures LastMarker(n) == off + k && n[off + k + 3..] == custom[k + 3..]
  {
    assert MarkerAt(n, off + k);
    forall j | off + k < j < |n| ensures !MarkerAt(n, j) {
      assert !MarkerAt(custom, j - off);
    }
    LastMarkerAt(n, off + k);
    assert n[off + k + 3..] == n[off..][k + 3..];
  }

  /** The condition is exact: when filtering the old flags leaves something that
      reads as an info marker, renaming twice to the same flags is not renaming
      once. */
  lemma {:induction false} CollapseNeedsNoMarker(path: string)
    requires LongEnough(path) && MaildirFromPath(path).Some?
    ensures NoMarker(OrEmpty(CustomFlags(BaseName(path)))) <==>
              RenameAll(path, [Rename(None, {SEEN}), Rename(None, {SEEN})]) == RenameAll(path, [Rename(None, {SEEN})])
  {
    var once, twice := [Rename(None, {SEEN})], [Rename(None, {SEEN}), Rename(None, {SEEN})];
    var n, m := BaseName(path), MaildirFromPath(path).value;
    var c := OrEmpty(CustomFlags(n));
    if NoMarker(c) {
      HistoryCollapses(path, once);
      HistoryCollapses(path, twice);
      assert twice[1..] == once && once[1..] == [];
    } else {
      var i :| 0 <= i < |c| && MarkerAt(c, i);
      OriginalParts(path);
      var p1 := CurPath(m, Stem(n), {SEEN}, c);
      NewPathIsCurPath(m, Stem(n), {SEEN}, CustomFlags(n));
      assert once[1..] == [];
      assert RenameAll(path, once) == Some(p1);
      SecondRenameGrows(m, Stem(n), c, i);
      assert twice[1..] == once;
      assert RenameAll(path, twice) == RenameAll(p1, once);
    }
  }

  /** There are such names: of the info `:2,:2D,` the letter D is dropped, and
      what is left of it reads as an info marker. */
  lemma {:induction false} MarkerAmongCustomFlags(base: string)
    requires FileName(base)
    ensures var path := "/m/cur/" + base + ":2,:2D,";
            && LongEnough(path) && MaildirFromPath(path).Some?
            && CustomFlags(BaseName(path)) == Some(":2,")
            && !NoMarker(OrEmpty(CustomFlags(BaseName(path))))
            && RenameAll(path, [Rename(None, {SEEN}), Rename(None, {SEEN})]) != RenameAll(path, [Rename(None, {SEEN})])
  {
    var path, n := "/m/cur/" + base + ":2,:2D,", base + ":2,:2D,";
    assert path == "/m" + "/" + "cur" + "/" + n;
    LeafPath("/m", "cur", n);
    FilteredInfo(base);
    assert MarkerAt(":2,", 0);
    CollapseNeedsNoMarker(path);
  }

  lemma {:induction false} FilteredInfo(base: string)
    requires base != ""
    ensures CustomFlags(base + ":2,:2D,") == Some(":2,")
  {
    var n, i := base + ":2,:2D,", |base|;
    assert n[i] == ':' && n[i + 1] == '2' && n[i + 2] == ',' && n[i + 3] == ':' && n[i + 4] == '2' && n[i + 5] == 'D';
    LastMarkerAt(n, i);
    assert n[i + 3..] == ":2D,";
    DraftDropped();
  }

  lemma DraftDropped()
    ensures Customs(":2D,") == ":2,"
  {
    assert ":2D,"[1..] == "2D," && "2D,"[1..] == "D," && "D,"[1..] == "," && ","[1..] == "";
    assert IsFileLetter('D') && !IsFileLetter(':') && !IsFileLetter('2') && !IsFileLetter(',');
    assert Customs("") == "";
    assert Customs(",") == ",";
    assert Customs("D,") == ",";
    assert Customs("2D,") == "2,";
  }

  lemma {:induction false} SecondRenameGrows(m: string, base: string, c: string, i: nat)
    requires FileName(base) && NoSlash(c) && NoFileLetters(c) && i < |c| && MarkerAt(c, i)
    ensures var p1 := CurPath(m, base, {SEEN}, c);
            RenameAll(p1, [Rename(None, {SEEN})]) != Some(p1)
  {
    var p1 := CurPath(m, base, {SEEN}, c);
    var once := [Rename(None, {SEEN})];
    CurPathParts(m, base, {SEEN}, c);
    var k := StemWithMarker(base, {SEEN}, c, i);
    var n := InfoName(base, {SEEN}, c);
    NewPathIsCurPath(m, Stem(n), {SEEN}, CustomFlags(n));
    SeenIsOneLetter();
    var p2 := CurPath(m, Stem(n), {SEEN}, OrEmpty(CustomFlags(n)));
    assert once[1..] == [];
    assert RenameAll(p1, once) == Some(p2);
    assert |p2| == |p1| + 1;
  }

  lemma SeenIsOneLetter()
    ensures |ToStr({SEEN}, {MAILFILE})| == 1
  {
    assert ToStrFrom({SEEN}, {MAILFILE}, 11) == "";
    assert ToStrFrom({SEEN}, {MAILFILE}, 9) == "";
    assert ToStrFrom({SEEN}, {MAILFILE}, 7) == "";
    assert ToStrFrom({SEEN}, {MAILFILE}, 5) == "";
    assert ToStrFrom({SEEN}, {MAILFILE}, 4) == "S";
    assert ToStrFrom({SEEN}, {MAILFILE}, 2) == "S";
    assert ToStrFrom({SEEN}, {MAILFILE}, 0) == "S";
  }
}
