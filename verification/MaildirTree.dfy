/** The directory tree that the maildir walk goes through, and the rules by
    which it picks entries (mu-maildir.c). Paths are lists of names below the
    root of the walk. */
module MaildirTree {
  import opened Options

  type Path = seq<string>

  datatype Meta = Meta(ctime: nat, size: nat, content: string, readable: bool, parseable: bool)

  /** An entry of a directory, in the order of the inode-sorted listing. */
  datatype Entry = File(name: string, meta: Meta) | Sub(name: string, dir: Dir) | Special(name: string)

  /** `readable` is whether it can be opened, `listed` whether reading it
      reaches the end. */
  datatype Dir = Dir(entries: seq<Entry>, readable: bool, listed: bool)

  const NOINDEX := ".noindex"
  const NOUPDATE := ".noupdate"

  /** dir_contains_file */
  predicate Contains(dir: Dir, name: string) {
    exists i :: 0 <= i < |dir.entries| && dir.entries[i].name == name
  }

  predicate StartsWith(s: string, p: string) {
    p <= s
  }

  /** is_dotdir_to_ignore */
  predicate IgnoreDir(name: string) {
    name == "." || name == ".." || name == ".notmuch" || name == ".nnmaildir" || name == ".#evolution"
  }

  /** ignore_dir_entry, for a regular file */
  predicate IgnoreFile(name: string) {
    StartsWith(name, "#") || StartsWith(name, "dovecot") || StartsWith(name, ".") || StartsWith(name, "core")
  }

  /** is_maildir_new_or_cur; `atRoot` is its answer for the root of the walk. */
  predicate IsLeaf(path: Path, atRoot: bool) {
    if path == [] then atRoot else path[|path| - 1] == "cur" || path[|path| - 1] == "new"
  }

  /** get_mdir_for_path */
  function MdirFor(mdir: Option<string>, name: string): (m: string) {
    if name == "new" || name == "cur" || name == "tmp" then
      (if mdir.Some? then mdir.value else "/")
    else (if mdir.Some? then mdir.value else "") + "/" + name
  }

  /** A message file: where it is, the maildir it is reported with, and what
      stat and the parser say of it. */
  datatype Item = Item(dir: Path, name: string, mdir: Option<string>, meta: Meta) {
    function Path(): Path {
      dir + [name]
    }
  }

  /** Names in a directory are distinct, at every depth. */
  ghost predicate WellFormed(d: Dir) {
    (forall i, j :: 0 <= i < j < |d.entries| ==> d.entries[i].name != d.entries[j].name)
    && (forall i :: 0 <= i < |d.entries| && d.entries[i].Sub? ==> WellFormed(d.entries[i].dir))
  }

  /** cur/ and new/ have no subdirectory the walk would enter. */
  ghost predicate LeavesAreFlat(d: Dir, path: Path, atRoot: bool) {
    forall i :: 0 <= i < |d.entries| && d.entries[i].Sub? && !IgnoreDir(d.entries[i].name) ==>
      !IsLeaf(path, atRoot) && LeavesAreFlat(d.entries[i].dir, path + [d.entries[i].name], atRoot)
  }

  ghost function EntryItems(e: Entry, path: Path, mdir: Option<string>, atRoot: bool): set<Item>
    decreases e, 0
  {
    match e
    case File(name, meta) => if IsLeaf(path, atRoot) && !IgnoreFile(name) then {Item(path, name, mdir, meta)} else {}
    case Sub(name, d) => if IgnoreDir(name) then {} else Items(d, path + [name], Some(MdirFor(mdir, name)), atRoot)
    case Special(_) => {}
  }

  /** The message files of a directory's first n entries, at every depth,
      whether or not a marker file shields them from the walk. */
  ghost function ItemsUpTo(d: Dir, n: nat, path: Path, mdir: Option<string>, atRoot: bool): set<Item>
    requires n <= |d.entries|
    decreases d, 1, n
  {
    if n == 0 then {}
    else
      assert d.entries[n - 1] in d.entries;
      ItemsUpTo(d, n - 1, path, mdir, atRoot) + EntryItems(d.entries[n - 1], path, mdir, atRoot)
  }

  ghost function Items(d: Dir, path: Path, mdir: Option<string>, atRoot: bool): set<Item>
    decreases d, 2
  {
    ItemsUpTo(d, |d.entries|, path, mdir, atRoot)
  }

  /** The walk passes this directory by. */
  predicate Shielded(d: Dir, full: bool) {
    Contains(d, NOINDEX) || (!full && Contains(d, NOUPDATE)) || !d.readable
  }

  ghost function EntryVisited(e: Entry, path: Path, mdir: Option<string>, atRoot: bool, full: bool): set<Item>
    decreases e, 0
  {
    match e
    case File(name, meta) => EntryItems(e, path, mdir, atRoot)
    case Sub(name, d) =>
      if IgnoreDir(name) then {} else Visited(d, path + [name], Some(MdirFor(mdir, name)), atRoot, full)
    case Special(_) => {}
  }

  ghost function VisitedUpTo(d: Dir, n: nat, path: Path, mdir: Option<string>, atRoot: bool, full: bool): set<Item>
    requires n <= |d.entries|
    decreases d, 1, n
  {
    if n == 0 then {}
    else
      assert d.entries[n - 1] in d.entries;
      VisitedUpTo(d, n - 1, path, mdir, atRoot, full) + EntryVisited(d.entries[n - 1], path, mdir, atRoot, full)
  }

  /** The message files the walk reports, if nothing stops it. */
  ghost function Visited(d: Dir, path: Path, mdir: Option<string>, atRoot: bool, full: bool): set<Item>
    decreases d, 2
  {
    if Shielded(d, full) then {} else VisitedUpTo(d, |d.entries|, path, mdir, atRoot, full)
  }

  // ---- items know where they are ----

  lemma {:induction false} ItemsUnder(d: Dir, n: nat, path: Path, mdir: Option<string>, atRoot: bool)
    requires n <= |d.entries|
    ensures forall it :: it in ItemsUpTo(d, n, path, mdir, atRoot) ==> path <= it.dir
    decreases d, 1, n
  {
    if n > 0 {
      ItemsUnder(d, n - 1, path, mdir, atRoot);
      assert d.entries[n - 1] in d.entries;
      EntryItemsUnder(d.entries[n - 1], path, mdir, atRoot);
    }
  }

  lemma {:induction false} EntryItemsUnder(e: Entry, path: Path, mdir: Option<string>, atRoot: bool)
    ensures forall it :: it in EntryItems(e, path, mdir, atRoot) ==>
              path <= it.dir
              && (e.File? ==> it == Item(path, e.name, mdir, e.meta))
              && (e.Sub? ==> path + [e.name] <= it.dir)
    decreases e, 0
  {
    if e.Sub? && !IgnoreDir(e.name) {
      ItemsUnder(e.dir, |e.dir.entries|, path + [e.name], Some(MdirFor(mdir, e.name)), atRoot);
    }
  }

  lemma {:induction false} ItemsOfEntries(d: Dir, n: nat, path: Path, mdir: Option<string>, atRoot: bool)
    requires n <= |d.entries|
    ensures forall it :: it in ItemsUpTo(d, n, path, mdir, atRoot) <==>
              exists i :: 0 <= i < n && it in EntryItems(d.entries[i], path, mdir, atRoot)
    decreases n
  {
    if n > 0 {
      ItemsOfEntries(d, n - 1, path, mdir, atRoot);
    }
  }

  /** Two items of one tree with the same path are the same item. */
  lemma {:induction false} ItemsUnique(d: Dir, path: Path, mdir: Option<string>, atRoot: bool, a: Item, b: Item)
    requires WellFormed(d) && a in Items(d, path, mdir, atRoot) && b in Items(d, path, mdir, atRoot)
    requires a.Path() == b.Path()
    ensures a == b
    decreases d
  {
    ItemsOfEntries(d, |d.entries|, path, mdir, atRoot);
    var i :| 0 <= i < |d.entries| && a in EntryItems(d.entries[i], path, mdir, atRoot);
    var j :| 0 <= j < |d.entries| && b in EntryItems(d.entries[j], path, mdir, atRoot);
    var e, e' := d.entries[i], d.entries[j];
    assert e in d.entries && e' in d.entries;
    EntryItemsUnder(e, path, mdir, atRoot);
    EntryItemsUnder(e', path, mdir, atRoot);
    SamePathParts(a, b);
    SameEntry(path, e, e', a, b);
    assert i == j;
    if e.Sub? {
      ItemsUnique(e.dir, path + [e.name], Some(MdirFor(mdir, e.name)), atRoot, a, b);
    }
  }

  lemma SamePathParts(a: Item, b: Item)
    requires a.Path() == b.Path()
    ensures a.dir == b.dir && a.name == b.name
  {
    assert a.dir == a.Path()[..|a.Path()| - 1] && b.dir == b.Path()[..|b.Path()| - 1];
    assert a.Path()[|a.Path()| - 1] == a.name && b.Path()[|b.Path()| - 1] == b.name;
  }

  lemma SameEntry(path: Path, e: Entry, e': Entry, a: Item, b: Item)
    requires a.dir == b.dir && a.name == b.name && !e.Special? && !e'.Special?
    requires if e.File? then a.dir == path && a.name == e.name else path + [e.name] <= a.dir
    requires if e'.File? then b.dir == path && b.name == e'.name else path + [e'.name] <= b.dir
    ensures e.name == e'.name && e.File? == e'.File?
  {
    if e.Sub? { assert a.dir[|path|] == (path + [e.name])[|path|]; }
    if e'.Sub? { assert b.dir[|path|] == (path + [e'.name])[|path|]; }
  }

  lemma {:induction false} VisitedAreItems(d: Dir, n: nat, path: Path, mdir: Option<string>, atRoot: bool, full: bool)
    requires n <= |d.entries|
    ensures VisitedUpTo(d, n, path, mdir, atRoot, full) <= ItemsUpTo(d, n, path, mdir, atRoot)
    decreases d, n
  {
    if n > 0 {
      var e := d.entries[n - 1];
      assert e in d.entries;
      VisitedAreItems(d, n - 1, path, mdir, atRoot, full);
      if e.Sub? {
        VisitedAreItems(e.dir, |e.dir.entries|, path + [e.name], Some(MdirFor(mdir, e.name)), atRoot, full);
      }
      assert EntryVisited(e, path, mdir, atRoot, full) <= EntryItems(e, path, mdir, atRoot);
    }
  }
}
