/** File names in a maildir: flags read from a path, and the new path of a
    message whose flags or folder change (mu-maildir.c). */
module MaildirNames {
  import opened Options
  import opened MsgFlags

  // ---- GLib path functions ----

  /** Index of the last '/', or -1. */
  function LastSlash(s: string): (i: int)
    ensures -1 <= i < |s| && (i >= 0 ==> s[i] == '/') && forall j :: i < j < |s| ==> s[j] != '/'
  {
    if s == "" then -1 else if s[|s| - 1] == '/' then |s| - 1 else LastSlash(s[..|s| - 1])
  }

  function StripSlashes(s: string): (r: string)
    ensures r <= s
  {
    if |s| > 1 && s[|s| - 1] == '/' then StripSlashes(s[..|s| - 1]) else s
  }

  /** g_path_get_dirname */
  function DirName(s: string): string {
    if LastSlash(s) < 0 then "." else StripSlashes(s[..LastSlash(s) + 1])
  }

  function StripAllSlashes(s: string): (r: string)
    ensures r <= s && (r != "" ==> r[|r| - 1] != '/')
  {
    if s != "" && s[|s| - 1] == '/' then StripAllSlashes(s[..|s| - 1]) else s
  }

  /** g_path_get_basename */
  function BaseName(s: string): string {
    if s == "" then "."
    else
      var t := StripAllSlashes(s);
      if t == "" then "/" else t[LastSlash(t) + 1..]
  }

  predicate HasSuffix(s: string, t: string) {
    |t| <= |s| && s[|s| - |t|..] == t
  }

  predicate HasInfix(s: string, t: string) {
    |t| <= |s| && (s[..|t|] == t || (s != "" && HasInfix(s[1..], t)))
  }

  // ---- reading flags ----

  /** Index of the last '2', or -1 (strrchr). */
  function LastTwo(s: string): (i: int)
    ensures -1 <= i < |s| && (i >= 0 ==> s[i] == '2') && forall j :: i < j < |s| ==> s[j] != '2'
  {
    if s == "" then -1 else if s[|s| - 1] == '2' then |s| - 1 else LastTwo(s[..|s| - 1])
  }

  /** mu_maildir_get_flags_from_path. When some folder on the way, but not the
      last, is called new, the code compares a variable it never set; `stale`
      is what that variable happens to hold. */
  function FlagsFromPath(path: string, stale: set<MsgFlag>): set<MsgFlag> {
    var flags := if BaseName(DirName(path)) == "new" then {NEW} else stale;
    if HasInfix(path, "/new/") && flags == {NEW} then flags
    else
      var i := LastTwo(path);
      if i <= 0 || (path[i - 1] != ':' && path[i - 1] != '!') || i + 1 == |path| || path[i + 1] != ',' then {}
      else
        var r := FromStr(path[i + 2..], {MAILFILE}, true);
        if r.Some? then r.value else {}
  }

  // ---- writing paths ----

  /** get_new_path */
  function NewPath(mdir: string, mfile: string, flags: set<MsgFlag>, custom: Option<string>): string {
    if NEW in flags then mdir + "/new/" + mfile
    else mdir + "/cur/" + mfile + ":2," + ToStr(flags, {MAILFILE}) + OrEmpty(custom)
  }

  /** The code cuts four characters off a directory that ends with cur or
      new; a directory named just that, of a relative path, has only three. */
  predicate LongEnough(path: string) {
    DirName(path) != "cur" && DirName(path) != "new"
  }

  /** mu_maildir_get_maildir_from_path; None for a path outside cur and new. */
  function MaildirFromPath(path: string): Option<string>
    requires LongEnough(path)
  {
    var mdir := DirName(path);
    if !HasSuffix(mdir, "cur") && !HasSuffix(mdir, "new") then None
    else Some(mdir[..|mdir| - 4])
  }

  predicate MarkerAt(s: string, i: int) {
    0 <= i && i + 2 < |s| && (s[i] == ':' || s[i] == '!') && s[i + 1] == '2' && s[i + 2] == ','
  }

  /** The last info marker at or before index i, but not at the very start;
      0 if there is none. */
  function MarkerFrom(s: string, i: nat): (r: nat)
    ensures r <= i && (r > 0 ==> MarkerAt(s, r)) && forall j :: r < j <= i ==> !MarkerAt(s, j)
  {
    if i == 0 then 0 else if MarkerAt(s, i) then i else MarkerFrom(s, i - 1)
  }

  function LastMarker(s: string): (r: nat)
    ensures r == 0 || MarkerAt(s, r)
  {
    if s == "" then 0 else MarkerFrom(s, |s| - 1)
  }

  /** The name without its flags. */
  function Stem(mfile: string): string {
    if LastMarker(mfile) > 0 then mfile[..LastMarker(mfile)] else mfile
  }

  function NullIfEmpty(s: string): Option<string> {
    if s == "" then None else Some(s)
  }

  /** The flags that mean nothing to mu, kept across renames. */
  function CustomFlags(mfile: string): Option<string> {
    var i := LastMarker(mfile);
    if i > 0 then NullIfEmpty(Customs(mfile[i + 3..])) else None
  }

  /** mu_maildir_get_new_path */
  function Renamed(oldpath: string, newMdir: Option<string>, flags: set<MsgFlag>): Option<string>
    requires LongEnough(oldpath)
  {
    var mdir := MaildirFromPath(oldpath);
    if mdir.None? then None
    else
      var mfile := BaseName(oldpath);
      Some(NewPath(if newMdir.Some? then newMdir.value else mdir.value, Stem(mfile), flags, CustomFlags(mfile)))
  }

  /** The loop of mu_maildir_get_new_path: from the end back to the second
      character. */
  method StripInfo(name: string) returns (mfile: string, customFlags: Option<string>)
    ensures mfile == Stem(name) && customFlags == CustomFlags(name)
  {
    mfile, customFlags := name, None;
    var cur := |name| - 1;
    while cur > 0
      invariant cur < |name| && mfile == name && customFlags == None
      invariant LastMarker(name) == if cur < 0 then 0 else MarkerFrom(name, cur)
    {
      if MarkerAt(mfile, cur) {
        customFlags := CustomFromStr(mfile[cur + 3..]);
        mfile := mfile[..cur];
        return;
      }
      cur := cur - 1;
    }
  }

  /** mu_maildir_get_new_path: the name is cut at its info marker and gets
      new flags. */
  method GetNewPath(oldpath: string, newMdir: Option<string>, newflags: set<MsgFlag>) returns (newpath: Option<string>)
    requires LongEnough(oldpath)
    ensures newpath == Renamed(oldpath, newMdir, newflags)
  {
    var mdir := MaildirFromPath(oldpath);
    if mdir == None {
      return None;
    }
    var mfile, customFlags := StripInfo(BaseName(oldpath));
    newpath := Some(NewPath(if newMdir.Some? then newMdir.value else mdir.value, mfile, newflags, customFlags));
  }
}
