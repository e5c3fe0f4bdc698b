/** Exactly what a run that ends with MU_OK does to the documents, from any
    store and at any time, and hence exactly which messages it misses. */
module IndexEffect {
  import opened Options
  import opened MaildirTree
  import opened MuStore
  import opened IndexRun
  import opened IndexSafety

  ghost predicate SameDoc(db: Db, db': Db, p: Path) {
    (p in db.docs <==> p in db'.docs) && (p in db.docs && p in db'.docs ==> db.docs[p] == db'.docs[p])
  }

  ghost function StampOf(db: Db, p: Path): nat {
    if p in db.stamps then db.stamps[p] else 0
  }

  ghost predicate SameStamp(db: Db, db': Db, p: Path) {
    StampOf(db, p) == StampOf(db', p)
  }

  /** A run that starts on db stores this message anew when it visits it. */
  ghost predicate Indexes(cfg: Config, db: Db, it: Item) {
    Permitted(it, cfg.maxFilesize)
    && (cfg.reindex || it.Path() !in db.docs || AsUnsigned(it.meta.ctime) >= AsUnsigned(StampOf(db, it.dir)))
  }

  ghost predicate Touched(cfg: Config, V: set<Item>, db: Db, p: Path) {
    exists it :: it in V && Indexes(cfg, db, it) && it.Path() == p
  }

  /** The messages of V that need it are stored, every other document stays. */
  ghost predicate Effect(cfg: Config, V: set<Item>, db: Db, db': Db) {
    (forall it :: it in V && Indexes(cfg, db, it) ==> Stored(db', it))
    && (forall p :: !Touched(cfg, V, db, p) ==> SameDoc(db, db', p))
  }

  // ---- one file ----

  lemma {:induction false} FileEffect(cfg: Config, w: World, s: IndexState, it: Item)
    requires s.store.batchSize > 0 && s.dirstamp == GetTimestamp(s.store, it.dir)
    requires ProcessFile(cfg, w, s, it.Path(), it.mdir, it.meta).1 == MU_OK
    ensures var r := ProcessFile(cfg, w, s, it.Path(), it.mdir, it.meta).0;
            && Effect(cfg, {it}, s.store.db, r.store.db)
            && r.store.db.stamps == s.store.db.stamps && r.dirstamp == s.dirstamp
  {
    var db, db' := s.store.db, ProcessFile(cfg, w, s, it.Path(), it.mdir, it.meta).0.store.db;
    if Indexes(cfg, db, it) {
      assert db'.docs == db.docs[it.Path() := DocFor(it.meta, it.mdir)];
      forall p | !Touched(cfg, {it}, db, p) ensures SameDoc(db, db', p) {
        assert it in {it};
      }
    } else {
      assert db' == db;
    }
  }

  // ---- effects one after another ----

  lemma {:induction false} JoinEffects(cfg: Config, V: set<Item>, W: set<Item>, db: Db, db1: Db, db2: Db)
    requires Effect(cfg, V, db, db1) && Effect(cfg, W, db1, db2)
    requires forall it :: it in W ==> (Indexes(cfg, db, it) <==> Indexes(cfg, db1, it))
    requires forall a, b :: a in V && b in W ==> a.Path() != b.Path()
    ensures Effect(cfg, V + W, db, db2)
  {
    forall it | it in V && Indexes(cfg, db, it) ensures Stored(db2, it) {
      assert !Touched(cfg, W, db1, it.Path());
      assert SameDoc(db1, db2, it.Path());
    }
    forall p | !Touched(cfg, V + W, db, p) ensures SameDoc(db, db2, p) {
      NotTouchedApart(cfg, V, W, db, db1, p);
      assert SameDoc(db, db1, p) && SameDoc(db1, db2, p);
    }
  }

  lemma {:induction false} NotTouchedApart(cfg: Config, V: set<Item>, W: set<Item>, db: Db, db1: Db, p: Path)
    requires forall it :: it in W ==> (Indexes(cfg, db, it) <==> Indexes(cfg, db1, it))
    requires !Touched(cfg, V + W, db, p)
    ensures !Touched(cfg, V, db, p) && !Touched(cfg, W, db1, p)
  {
    forall it | it in V || it in W ensures !(Indexes(cfg, db, it) && it.Path() == p) {
      assert it in V + W;
    }
  }

  // ---- entries keep to their own part of the tree ----

  ghost predicate Below(path: Path, name: string, p: Path) {
    path + [name] <= p
  }

  lemma BelowOne(path: Path, a: string, b: string, p: Path)
    ensures Below(path, a, p) ==> path <= p
    ensures Below(path, a, p) && Below(path, b, p) ==> a == b
  {
    if Below(path, a, p) {
      assert path == p[..|path|];
      assert p[|path|] == (path + [a])[|path|];
    }
    if Below(path, b, p) {
      assert p[|path|] == (path + [b])[|path|];
    }
  }

  lemma BelowDir(path: Path, name: string, it: Item)
    ensures Below(path, name, it.dir) ==> Below(path, name, it.Path())
  {
    assert it.dir <= it.Path();
  }

  ghost predicate InOwnPart(path: Path, name: string, it: Item) {
    Below(path, name, it.Path()) && (it.dir == path || Below(path, name, it.dir))
  }

  lemma {:induction false} EntryVisitedUnder(e: Entry, path: Path, mdir: Option<string>, atRoot: bool, full: bool)
    ensures forall it :: it in EntryVisited(e, path, mdir, atRoot, full) ==> InOwnPart(path, e.name, it)
  {
    EntryItemsUnder(e, path, mdir, atRoot);
    if e.Sub? && !IgnoreDir(e.name) {
      var sub, m := path + [e.name], Some(MdirFor(mdir, e.name));
      VisitedAreItems(e.dir, |e.dir.entries|, sub, m, atRoot, full);
      assert Visited(e.dir, sub, m, atRoot, full) <= Items(e.dir, sub, m, atRoot);
    }
    forall it | it in EntryVisited(e, path, mdir, atRoot, full) ensures InOwnPart(path, e.name, it) {
      BelowDir(path, e.name, it);
    }
  }

  lemma {:induction false} VisitedUnder(d: Dir, n: nat, path: Path, mdir: Option<string>, atRoot: bool, full: bool,
                              it: Item)
    returns (j: nat)
    requires n <= |d.entries| && it in VisitedUpTo(d, n, path, mdir, atRoot, full)
    ensures j < n && InOwnPart(path, d.entries[j].name, it)
    decreases n
  {
    if it in VisitedUpTo(d, n - 1, path, mdir, atRoot, full) {
      j := VisitedUnder(d, n - 1, path, mdir, atRoot, full, it);
    } else {
      j := n - 1;
      EntryVisitedUnder(d.entries[j], path, mdir, atRoot, full);
    }
  }

  /** p lies in the part of none of the first n entries. */
  ghost predicate Outside(d: Dir, n: nat, path: Path, p: Path)
    requires n <= |d.entries|
  {
    forall j :: 0 <= j < n ==> !Below(path, d.entries[j].name, p)
  }

  lemma {:induction false} OwnPartOutside(d: Dir, n: nat, path: Path, it: Item)
    requires n < |d.entries| && WellFormed(d) && InOwnPart(path, d.entries[n].name, it)
    ensures Outside(d, n, path, it.Path()) && Outside(d, n, path, it.dir)
  {
    forall j | 0 <= j < n
      ensures !Below(path, d.entries[j].name, it.Path()) && !Below(path, d.entries[j].name, it.dir)
    {
      BelowOne(path, d.entries[j].name, d.entries[n].name, it.Path());
      BelowDir(path, d.entries[j].name, it);
    }
  }

  // ---- the walk ----

  /** A tree in which no directory changes the stamp of another one's files. */
  ghost predicate Tidy(d: Dir, path: Path, atRoot: bool) {
    WellFormed(d) && LeavesAreFlat(d, path, atRoot)
  }

  ghost predicate KnowsStamp(cfg: Config, s: IndexState, path: Path) {
    IsLeaf(path, cfg.atRoot) ==> s.dirstamp == GetTimestamp(s.store, path)
  }

  lemma {:induction false} EntryEffect(cfg: Config, w: World, s: IndexState, d: Dir, i: nat, path: Path,
                              mdir: Option<string>)
    requires s.store.batchSize > 0 && i < |d.entries| && Tidy(d, path, cfg.atRoot) && KnowsStamp(cfg, s, path)
    requires WalkEntry(cfg, w, s, d.entries[i], path, mdir).1 == MU_OK
    ensures var e := d.entries[i];
            var r := WalkEntry(cfg, w, s, e, path, mdir).0;
            && Effect(cfg, EntryVisited(e, path, mdir, cfg.atRoot, cfg.reindex), s.store.db, r.store.db)
            && (forall p :: !Below(path, e.name, p) ==> SameStamp(s.store.db, r.store.db, p))
            && (IsLeaf(path, cfg.atRoot) ==> r.dirstamp == s.dirstamp)
    decreases d, 0
  {
    var e := d.entries[i];
    assert e in d.entries;
    if e.File? && IsLeaf(path, cfg.atRoot) && !IgnoreFile(e.name) {
      var it := Item(path, e.name, mdir, e.meta);
      FileEffect(cfg, w, s, it);
      assert EntryVisited(e, path, mdir, cfg.atRoot, cfg.reindex) == {it};
    } else if e.Sub? && !IgnoreDir(e.name) {
      DirEffect(cfg, w, s, e.dir, path + [e.name], Some(MdirFor(mdir, e.name)));
    }
  }

  lemma {:induction false} EntriesEffect(cfg: Config, w: World, s: IndexState, d: Dir, n: nat, path: Path,
                              mdir: Option<string>)
    requires s.store.batchSize > 0 && n <= |d.entries| && Tidy(d, path, cfg.atRoot) && KnowsStamp(cfg, s, path)
    requires WalkEntries(cfg, w, s, d, n, path, mdir).1 == MU_OK
    ensures var r := WalkEntries(cfg, w, s, d, n, path, mdir).0;
            && Effect(cfg, VisitedUpTo(d, n, path, mdir, cfg.atRoot, cfg.reindex), s.store.db, r.store.db)
            && (forall p :: Outside(d, n, path, p) ==> SameStamp(s.store.db, r.store.db, p))
            && (IsLeaf(path, cfg.atRoot) ==> r.dirstamp == s.dirstamp)
    decreases d, 1, n
  {
    if n > 0 {
      var r := WalkEntries(cfg, w, s, d, n - 1, path, mdir).0;
      EntriesEffect(cfg, w, s, d, n - 1, path, mdir);
      assert Outside(d, n - 1, path, path);
      assert SameStamp(s.store.db, r.store.db, path);
      EntryEffect(cfg, w, r, d, n - 1, path, mdir);
      NextEntryApart(cfg, d, n - 1, path, mdir, s.store.db, r.store.db);
      JoinEffects(cfg, VisitedUpTo(d, n - 1, path, mdir, cfg.atRoot, cfg.reindex),
                  EntryVisited(d.entries[n - 1], path, mdir, cfg.atRoot, cfg.reindex),
                  s.store.db, r.store.db, WalkEntry(cfg, w, r, d.entries[n - 1], path, mdir).0.store.db);
      forall p | Outside(d, n, path, p) ensures Outside(d, n - 1, path, p) && !Below(path, d.entries[n - 1].name, p) {
      }
    }
  }

  /** The entries before the n-th leave its documents and stamps alone. */
  lemma {:induction false} NextEntryApart(cfg: Config, d: Dir, n: nat, path: Path, mdir: Option<string>, db: Db,
                              db1: Db)
    requires n < |d.entries| && WellFormed(d)
    requires Effect(cfg, VisitedUpTo(d, n, path, mdir, cfg.atRoot, cfg.reindex), db, db1)
    requires forall p :: Outside(d, n, path, p) ==> SameStamp(db, db1, p)
    ensures var V := VisitedUpTo(d, n, path, mdir, cfg.atRoot, cfg.reindex);
            var W := EntryVisited(d.entries[n], path, mdir, cfg.atRoot, cfg.reindex);
            && (forall it :: it in W ==> (Indexes(cfg, db, it) <==> Indexes(cfg, db1, it)))
            && (forall a, b :: a in V && b in W ==> a.Path() != b.Path())
  {
    var V := VisitedUpTo(d, n, path, mdir, cfg.atRoot, cfg.reindex);
    var W := EntryVisited(d.entries[n], path, mdir, cfg.atRoot, cfg.reindex);
    EntryVisitedUnder(d.entries[n], path, mdir, cfg.atRoot, cfg.reindex);
    forall a, b | a in V && b in W ensures a.Path() != b.Path() {
      var j := VisitedUnder(d, n, path, mdir, cfg.atRoot, cfg.reindex, a);
      OwnPartOutside(d, n, path, b);
    }
    forall it | it in W ensures Indexes(cfg, db, it) <==> Indexes(cfg, db1, it) {
      OwnPartOutside(d, n, path, it);
      assert !Touched(cfg, V, db, it.Path());
      assert SameDoc(db, db1, it.Path()) && SameStamp(db, db1, it.dir);
    }
  }

  lemma {:induction false} DirEffect(cfg: Config, w: World, s: IndexState, d: Dir, path: Path, mdir: Option<string>)
    requires s.store.batchSize > 0 && Tidy(d, path, cfg.atRoot) && WalkDir(cfg, w, s, d, path, mdir).1 == MU_OK
    ensures var r := WalkDir(cfg, w, s, d, path, mdir).0;
            && Effect(cfg, Visited(d, path, mdir, cfg.atRoot, cfg.reindex), s.store.db, r.store.db)
            && (forall p :: !(path <= p) ==> SameStamp(s.store.db, r.store.db, p))
    decreases d, 2
  {
    if !Shielded(d, cfg.reindex) {
      var a := EnterDir(w, s, path).0;
      EntriesEffect(cfg, w, a, d, |d.entries|, path, mdir);
      var b := WalkEntries(cfg, w, a, d, |d.entries|, path, mdir).0;
      forall p | !(path <= p) ensures SameStamp(s.store.db, LeaveDir(w, b, path).0.store.db, p) {
        OutsideAll(d, path, p);
        assert SameStamp(a.store.db, b.store.db, p);
      }
      DocsOnly(cfg, Visited(d, path, mdir, cfg.atRoot, cfg.reindex), s.store.db, b.store.db,
               LeaveDir(w, b, path).0.store.db);
    }
  }

  lemma OutsideAll(d: Dir, path: Path, p: Path)
    requires !(path <= p)
    ensures Outside(d, |d.entries|, path, p)
  {
    forall j | 0 <= j < |d.entries| ensures !Below(path, d.entries[j].name, p) {
      BelowOne(path, d.entries[j].name, d.entries[j].name, p);
    }
  }

  lemma {:induction false} DocsOnly(cfg: Config, V: set<Item>, db: Db, db1: Db, db2: Db)
    requires Effect(cfg, V, db, db1) && db2.docs == db1.docs
    ensures Effect(cfg, V, db, db2)
  {
    forall p | !Touched(cfg, V, db, p) ensures SameDoc(db, db2, p) {
      assert SameDoc(db, db1, p);
    }
  }

  // ---- a whole run ----

  /** The full effect of a run that ends with MU_OK, from any store: the
      visited messages that need it are stored with their current content, and
      no other document is added, changed or lost. */
  lemma {:induction false} RunEffect(cfg: Config, w: World, store: StoreState, now: nat, root: Dir)
    requires store.batchSize > 0 && Tidy(root, [], cfg.atRoot) && Run(cfg, w, store, now, root).1 == MU_OK
    ensures var r := Run(cfg, w, store, now, root).0.store;
            && Effect(cfg, Visited(root, [], None, cfg.atRoot, cfg.reindex), store.db, r.db)
            && r.saved == r.db
  {
    DirEffect(cfg, w, IndexState(store, 0, NO_STATS, now, 0), root, [], None);
  }

  /** A run that ends with MU_OK leaves a message it visits current if and only
      if it was current before or the run indexes it. */
  lemma {:induction false} RunLeavesCurrentIff(cfg: Config, w: World, store: StoreState, now: nat, root: Dir, it: Item)
    requires store.batchSize > 0 && Tidy(root, [], cfg.atRoot) && Run(cfg, w, store, now, root).1 == MU_OK
    requires it in Visited(root, [], None, cfg.atRoot, cfg.reindex) && Permitted(it, cfg.maxFilesize)
    ensures Stored(Run(cfg, w, store, now, root).0.store.db, it) <==> Stored(store.db, it) || Indexes(cfg, store.db, it)
  {
    var V := Visited(root, [], None, cfg.atRoot, cfg.reindex);
    RunEffect(cfg, w, store, now, root);
    if !Indexes(cfg, store.db, it) {
      VisitedAreItems(root, |root.entries|, [], None, cfg.atRoot, cfg.reindex);
      forall x | x in V && x.Path() == it.Path() ensures x == it {
        ItemsUnique(root, [], None, cfg.atRoot, x, it);
      }
      assert !Touched(cfg, V, store.db, it.Path());
      assert SameDoc(store.db, Run(cfg, w, store, now, root).0.store.db, it.Path());
    }
  }

  /** Stored with other content, and older than the stamp of its directory. */
  ghost predicate Outdated(db: Db, it: Item, max: nat) {
    Permitted(it, max) && Unchanged(db, it) && !Stored(db, it)
  }

  /** Before 2^32 seconds, the messages that an incremental run misses are
      exactly those that were outdated when it started. */
  lemma {:induction false} RunMissesTheOutdated(cfg: Config, w: World, store: StoreState, now: nat, root: Dir, it: Item)
    requires store.batchSize > 0 && Tidy(root, [], cfg.atRoot) && Run(cfg, w, store, now, root).1 == MU_OK
    requires !cfg.reindex && it in Visited(root, [], None, cfg.atRoot, false) && Permitted(it, cfg.maxFilesize)
    requires it.meta.ctime < UINT_RANGE && StampOf(store.db, it.dir) < UINT_RANGE
    ensures !Stored(Run(cfg, w, store, now, root).0.store.db, it) <==> Outdated(store.db, it, cfg.maxFilesize)
  {
    RunLeavesCurrentIff(cfg, w, store, now, root, it);
    assert AsUnsigned(it.meta.ctime) == it.meta.ctime;
    assert AsUnsigned(StampOf(store.db, it.dir)) == StampOf(store.db, it.dir);
  }
}
