/** Which message files a run is meant to see, on the names that stand in the
    directories, and that the walk reports exactly those. */
module Eligible {
  import opened Options
  import opened MaildirTree
  import opened MuStore
  import opened IndexRun
  import opened IndexEffect

  ghost predicate HasEntry(d: Dir, name: string) {
    exists e :: e in d.entries && e.name == name
  }

  /** A run goes into d: it can be opened and holds no `.noindex`, and no
      `.noupdate` unless the run is a full one. */
  ghost predicate Open(d: Dir, full: bool) {
    d.readable && !HasEntry(d, ".noindex") && (HasEntry(d, ".noupdate") ==> full)
  }

  /** Names of directories that are never entered. */
  ghost predicate OddDirectory(name: string) {
    name in {".", "..", ".notmuch", ".nnmaildir", ".#evolution"}
  }

  /** Names of files that are never messages: Emacs' and Dovecot's files, hidden
      files and core dumps. */
  ghost predicate OddFile(name: string) {
    (name != "" && (name[0] == '#' || name[0] == '.'))
    || (|name| >= 7 && name[..7] == "dovecot") || (|name| >= 4 && name[..4] == "core")
  }

  /** Going down from d along `dirs` one meets open directories only, and at the
      end, in a directory called cur or new, the file. */
  ghost predicate Leads(d: Dir, dirs: Path, name: string, meta: Meta, leaf: bool, full: bool)
    decreases dirs
  {
    Open(d, full)
    && if dirs == [] then leaf && !OddFile(name) && File(name, meta) in d.entries
       else !OddDirectory(dirs[0])
            && exists sub :: Sub(dirs[0], sub) in d.entries
                             && Leads(sub, dirs[1..], name, meta, dirs[0] == "cur" || dirs[0] == "new", full)
  }

  /** The maildir along directory names: cur, new and tmp do not show, and the
      top is "/". */
  ghost function MaildirAlong(mdir: Option<string>, dirs: Path): Option<string>
    decreases dirs
  {
    if dirs == [] then mdir
    else
      var above := if mdir.Some? then mdir.value else "";
      MaildirAlong(Some(if dirs[0] in {"cur", "new", "tmp"} then if mdir == None then "/" else above
                        else above + "/" + dirs[0]), dirs[1..])
  }

  lemma MaildirStep(mdir: Option<string>, dirs: Path)
    requires dirs != []
    ensures MaildirAlong(mdir, dirs) == MaildirAlong(MaildirAlong(mdir, [dirs[0]]), dirs[1..])
  {
    assert [dirs[0]][1..] == [];
  }

  // ---- the tests of the walk, on names ----

  lemma {:induction false} OpenIffNotShielded(d: Dir, full: bool)
    ensures Open(d, full) <==> !Shielded(d, full)
  {
    SameNames(d, ".noindex");
    SameNames(d, ".noupdate");
  }

  lemma SameNames(d: Dir, name: string)
    ensures HasEntry(d, name) <==> Contains(d, name)
  {
    if Contains(d, name) {
      var i :| 0 <= i < |d.entries| && d.entries[i].name == name;
      assert d.entries[i] in d.entries;
    }
  }

  lemma {:induction false} OddNames(name: string)
    ensures OddDirectory(name) <==> IgnoreDir(name)
    ensures OddFile(name) <==> IgnoreFile(name)
  {
    assert "#" <= name <==> name != "" && name[0] == '#';
    assert "." <= name <==> name != "" && name[0] == '.';
    assert "dovecot" <= name <==> |name| >= 7 && name[..7] == "dovecot";
    assert "core" <= name <==> |name| >= 4 && name[..4] == "core";
  }

  // ---- the walk reports what it is led to ----

  /** it lies below `path`, along `dirs`. */
  ghost predicate LedTo(d: Dir, path: Path, mdir: Option<string>, leaf: bool, full: bool, it: Item) {
    path <= it.dir && Leads(d, it.dir[|path|..], it.name, it.meta, leaf, full)
    && it.mdir == MaildirAlong(mdir, it.dir[|path|..])
  }

  lemma {:induction false} VisitedIffEntry(d: Dir, n: nat, path: Path, mdir: Option<string>, atRoot: bool, full: bool,
                                           it: Item)
    requires n <= |d.entries|
    ensures it in VisitedUpTo(d, n, path, mdir, atRoot, full)
            <==> exists i :: 0 <= i < n && it in EntryVisited(d.entries[i], path, mdir, atRoot, full)
    decreases n
  {
    if n > 0 { VisitedIffEntry(d, n - 1, path, mdir, atRoot, full, it); }
  }

  lemma {:induction false} VisitedIffLedTo(d: Dir, path: Path, mdir: Option<string>, atRoot: bool, full: bool, it: Item)
    ensures it in Visited(d, path, mdir, atRoot, full) <==> LedTo(d, path, mdir, IsLeaf(path, atRoot), full, it)
    decreases d, 1
  {
    OpenIffNotShielded(d, full);
    if !Shielded(d, full) {
      VisitedIffEntry(d, |d.entries|, path, mdir, atRoot, full, it);
      forall i | 0 <= i < |d.entries|
        ensures it in EntryVisited(d.entries[i], path, mdir, atRoot, full)
                <==> EntryLeads(d.entries[i], path, mdir, IsLeaf(path, atRoot), full, it)
      {
        EntryIffLeads(d, i, path, mdir, atRoot, full, it);
      }
      LedByEntry(d, path, mdir, IsLeaf(path, atRoot), full, it);
    }
  }

  ghost predicate EntryLeads(e: Entry, path: Path, mdir: Option<string>, leaf: bool, full: bool, it: Item) {
    match e
    case File(name, meta) => leaf && !OddFile(name) && it == Item(path, name, mdir, meta)
    case Sub(name, sub) =>
      !OddDirectory(name)
      && LedTo(sub, path + [name], MaildirAlong(mdir, [name]), name == "cur" || name == "new", full, it)
    case Special(_) => false
  }

  lemma {:induction false} EntryIffLeads(d: Dir, i: nat, path: Path, mdir: Option<string>, atRoot: bool, full: bool,
                                         it: Item)
    requires i < |d.entries|
    ensures it in EntryVisited(d.entries[i], path, mdir, atRoot, full)
            <==> EntryLeads(d.entries[i], path, mdir, IsLeaf(path, atRoot), full, it)
    decreases d, 0
  {
    var e := d.entries[i];
    assert e in d.entries;
    OddNames(e.name);
    if e.Sub? && !IgnoreDir(e.name) {
      VisitedIffLedTo(e.dir, path + [e.name], Some(MdirFor(mdir, e.name)), atRoot, full, it);
      assert MaildirAlong(mdir, [e.name]) == Some(MdirFor(mdir, e.name));
    }
  }

  /** One is led on by an entry. */
  lemma {:induction false} LedByEntry(d: Dir, path: Path, mdir: Option<string>, leaf: bool, full: bool, it: Item)
    requires Open(d, full)
    ensures LedTo(d, path, mdir, leaf, full, it)
            <==> exists i :: 0 <= i < |d.entries| && EntryLeads(d.entries[i], path, mdir, leaf, full, it)
  {
    if LedTo(d, path, mdir, leaf, full, it) {
      var i := EntryOf(d, path, mdir, leaf, full, it);
    }
    if i :| 0 <= i < |d.entries| && EntryLeads(d.entries[i], path, mdir, leaf, full, it) {
      EntryIsEnough(d, i, path, mdir, leaf, full, it);
    }
  }

  lemma {:induction false} EntryOf(d: Dir, path: Path, mdir: Option<string>, leaf: bool, full: bool,
                                   it: Item) returns (i: nat)
    requires LedTo(d, path, mdir, leaf, full, it)
    ensures i < |d.entries| && EntryLeads(d.entries[i], path, mdir, leaf, full, it)
  {
    var dirs := it.dir[|path|..];
    assert it.dir == path + dirs;
    if dirs == [] {
      i :| 0 <= i < |d.entries| && d.entries[i] == File(it.name, it.meta);
    } else {
      var sub :| Sub(dirs[0], sub) in d.entries
                 && Leads(sub, dirs[1..], it.name, it.meta, dirs[0] == "cur" || dirs[0] == "new", full);
      i :| 0 <= i < |d.entries| && d.entries[i] == Sub(dirs[0], sub);
      OneDown(path, dirs, it);
    }
  }

  lemma OneDown(path: Path, dirs: Path, it: Item)
    requires it.dir == path + dirs && dirs != []
    ensures path + [dirs[0]] <= it.dir && it.dir[|path| + 1..] == dirs[1..]
  {
    assert dirs == [dirs[0]] + dirs[1..];
    assert it.dir == (path + [dirs[0]]) + dirs[1..];
  }

  lemma {:induction false} EntryIsEnough(d: Dir, i: nat, path: Path, mdir: Option<string>, leaf: bool, full: bool,
                                         it: Item)
    requires Open(d, full) && i < |d.entries| && EntryLeads(d.entries[i], path, mdir, leaf, full, it)
    ensures LedTo(d, path, mdir, leaf, full, it)
  {
    var e := d.entries[i];
    assert e in d.entries;
    if e.File? {
      assert it.dir[|path|..] == [];
    } else {
      var dirs := it.dir[|path|..];
      assert path == (path + [e.name])[..|path|];
      assert it.dir == path + dirs && dirs[0] == e.name;
      OneDown(path, dirs, it);
      MaildirStep(mdir, dirs);
    }
  }

  /** What a run is meant to see is what the names lead to. */
  ghost predicate IsEligible(root: Dir, atRoot: bool, full: bool, it: Item) {
    Leads(root, it.dir, it.name, it.meta, atRoot, full) && it.mdir == MaildirAlong(None, it.dir)
  }

  lemma {:induction false} VisitedIffEligible(root: Dir, atRoot: bool, full: bool, it: Item)
    ensures it in Visited(root, [], None, atRoot, full) <==> IsEligible(root, atRoot, full, it)
  {
    VisitedIffLedTo(root, [], None, atRoot, full, it);
    assert it.dir[0..] == it.dir;
  }

  /** A run that ends with MU_OK leaves exactly these documents: an eligible
      message that fits and parses, and is not stored, looks changed, or is
      indexed in any case, is stored with its content and maildir; every other
      path keeps what it had. */
  lemma {:induction false} RunStoresTheEligible(cfg: Config, w: World, store: StoreState, now: nat, root: Dir, it: Item)
    requires store.batchSize > 0 && Tidy(root, [], cfg.atRoot) && Run(cfg, w, store, now, root).1 == MU_OK
    requires IsEligible(root, cfg.atRoot, cfg.reindex, it) && it.meta.size <= cfg.maxFilesize && it.meta.parseable
    ensures var docs, p := Run(cfg, w, store, now, root).0.store.db.docs, it.Path();
            var stamp := if it.dir in store.db.stamps then store.db.stamps[it.dir] else 0;
            if cfg.reindex || p !in store.db.docs || it.meta.ctime % 0x1_0000_0000 >= stamp % 0x1_0000_0000
            then p in docs && docs[p] == Doc(it.meta.content, MaildirAlong(None, it.dir))
            else p in docs && docs[p] == store.db.docs[p]
  {
    VisitedIffEligible(root, cfg.atRoot, cfg.reindex, it);
    RunEffect(cfg, w, store, now, root);
    RunKeepsUnindexed(cfg, w, store, now, root, it);
  }

  lemma {:induction false} RunKeepsUnindexed(cfg: Config, w: World, store: StoreState, now: nat, root: Dir, it: Item)
    requires store.batchSize > 0 && Tidy(root, [], cfg.atRoot) && Run(cfg, w, store, now, root).1 == MU_OK
    requires it in Visited(root, [], None, cfg.atRoot, cfg.reindex)
    ensures !Indexes(cfg, store.db, it) ==> SameDoc(store.db, Run(cfg, w, store, now, root).0.store.db, it.Path())
  {
    var V := Visited(root, [], None, cfg.atRoot, cfg.reindex);
    RunEffect(cfg, w, store, now, root);
    VisitedAreItems(root, |root.entries|, [], None, cfg.atRoot, cfg.reindex);
    forall x | x in V && x.Path() == it.Path() ensures x == it {
      ItemsUnique(root, [], None, cfg.atRoot, x, it);
    }
  }

  /** And nothing else is stored or lost. */
  lemma {:induction false} RunTouchesNothingElse(cfg: Config, w: World, store: StoreState, now: nat, root: Dir, p: Path)
    requires store.batchSize > 0 && Tidy(root, [], cfg.atRoot) && Run(cfg, w, store, now, root).1 == MU_OK
    requires forall it :: IsEligible(root, cfg.atRoot, cfg.reindex, it) ==> it.Path() != p
    ensures var docs := Run(cfg, w, store, now, root).0.store.db.docs;
            (p in docs <==> p in store.db.docs) && (p in docs ==> docs[p] == store.db.docs[p])
  {
    RunEffect(cfg, w, store, now, root);
    forall it | it in Visited(root, [], None, cfg.atRoot, cfg.reindex) ensures it.Path() != p {
      VisitedIffEligible(root, cfg.atRoot, cfg.reindex, it);
    }
    assert SameDoc(store.db, Run(cfg, w, store, now, root).0.store.db, p);
  }
}
