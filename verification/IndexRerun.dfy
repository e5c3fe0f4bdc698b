/** What the stamps are for: a run after a run that went well, with no edit in
    between, stores nothing anew. */
module IndexRerun {
  import opened Options
  import opened MaildirTree
  import opened MuStore
  import opened IndexRun
  import opened IndexSafety

  // ---- a run that goes well stamps every directory it visits ----

  ghost predicate StampedSince(db: Db, p: Path, t: nat) {
    p in db.stamps && db.stamps[p] >= t
  }

  ghost predicate KeepsStamps(db: Db, db': Db, t: nat) {
    forall p :: StampedSince(db, p, t) ==> StampedSince(db', p, t)
  }

  /** The items of V are in directories stamped since t, or in `path` itself. */
  ghost predicate AllStamped(V: set<Item>, path: Option<Path>, t: nat, db: Db) {
    forall it :: it in V ==> Some(it.dir) == path || StampedSince(db, it.dir, t)
  }

  lemma {:induction false} EntryStamps(cfg: Config, w: World, s: IndexState, e: Entry, path: Path,
                              mdir: Option<string>, t: nat)
    requires s.store.batchSize > 0 && t <= s.now && WalkEntry(cfg, w, s, e, path, mdir).1 == MU_OK
    ensures var db := WalkEntry(cfg, w, s, e, path, mdir).0.store.db;
            && KeepsStamps(s.store.db, db, t)
            && AllStamped(EntryVisited(e, path, mdir, cfg.atRoot, cfg.reindex), Some(path), t, db)
    decreases e, 0
  {
    if e.Sub? && !IgnoreDir(e.name) {
      DirStamps(cfg, w, s, e.dir, path + [e.name], Some(MdirFor(mdir, e.name)), t);
    }
  }

  lemma {:induction false} EntriesStamp(cfg: Config, w: World, s: IndexState, d: Dir, n: nat, path: Path,
                              mdir: Option<string>, t: nat)
    requires s.store.batchSize > 0 && t <= s.now && n <= |d.entries|
            && WalkEntries(cfg, w, s, d, n, path, mdir).1 == MU_OK
    ensures var db := WalkEntries(cfg, w, s, d, n, path, mdir).0.store.db;
            && KeepsStamps(s.store.db, db, t)
            && AllStamped(VisitedUpTo(d, n, path, mdir, cfg.atRoot, cfg.reindex), Some(path), t, db)
    decreases d, 1, n
  {
    if n > 0 {
      var r := WalkEntries(cfg, w, s, d, n - 1, path, mdir);
      assert d.entries[n - 1] in d.entries;
      EntriesStamp(cfg, w, s, d, n - 1, path, mdir, t);
      EntriesClock(cfg, w, s, d, n - 1, path, mdir);
      EntryStamps(cfg, w, r.0, d.entries[n - 1], path, mdir, t);
    }
  }

  lemma {:induction false} DirStamps(cfg: Config, w: World, s: IndexState, d: Dir, path: Path, mdir: Option<string>,
                              t: nat)
    requires s.store.batchSize > 0 && t <= s.now && WalkDir(cfg, w, s, d, path, mdir).1 == MU_OK
    ensures var r := WalkDir(cfg, w, s, d, path, mdir).0;
            && KeepsStamps(s.store.db, r.store.db, t)
            && AllStamped(Visited(d, path, mdir, cfg.atRoot, cfg.reindex), None, t, r.store.db)
            && (!Shielded(d, cfg.reindex) ==> path in r.store.db.stamps && r.store.db.stamps[path] == r.now)
    decreases d, 2
  {
    if !Shielded(d, cfg.reindex) {
      var a := EnterDir(w, s, path).0;
      EntriesStamp(cfg, w, a, d, |d.entries|, path, mdir, t);
      EntriesClock(cfg, w, a, d, |d.entries|, path, mdir);
    }
  }

  // ---- a quiet walk ----

  /** The items were there before t, and those to be stored are stored, in a
      directory stamped since. */
  ghost predicate UpToDate(V: set<Item>, max: nat, t: nat, db: Db) {
    forall it :: it in V ==>
      it.meta.ctime < t && (Permitted(it, max) ==> it.Path() in db.docs && StampedSince(db, it.dir, t))
  }

  ghost predicate Quiet(s: IndexState, s': IndexState, t: nat) {
    s'.store.db.docs == s.store.db.docs && s'.stats.updated == s.stats.updated
    && KeepsStamps(s.store.db, s'.store.db, t) && StampsUpTo(s'.store.db, s'.now) && s'.now >= s.now
  }

  ghost predicate Untouched(s: IndexState, s': IndexState) {
    s'.store.db == s.store.db && s'.dirstamp == s.dirstamp && s'.now == s.now
  }

  /** A state from which a walk over V is quiet. */
  ghost predicate Ready(cfg: Config, s: IndexState, V: set<Item>, t: nat) {
    s.store.batchSize > 0 && !cfg.reindex && t <= s.now && StampsUpTo(s.store.db, s.now)
    && UpToDate(V, cfg.maxFilesize, t, s.store.db)
  }

  lemma {:induction false} QuietFile(cfg: Config, w: World, s: IndexState, it: Item, t: nat)
    requires Ready(cfg, s, {it}, t) && s.now < UINT_RANGE && s.dirstamp == GetTimestamp(s.store, it.dir)
    ensures var r := ProcessFile(cfg, w, s, it.Path(), it.mdir, it.meta);
            Untouched(s, r.0) && r.0.stats.updated == s.stats.updated
  {
    assert it in {it};
    if Permitted(it, cfg.maxFilesize) {
      assert s.dirstamp <= s.now;
      assert AsUnsigned(it.meta.ctime) == it.meta.ctime && AsUnsigned(s.dirstamp) == s.dirstamp;
    }
  }

  lemma {:induction false} QuietEntry(cfg: Config, w: World, s: IndexState, d: Dir, i: nat, path: Path,
                              mdir: Option<string>, V: set<Item>, t: nat)
    requires i < |d.entries| && Ready(cfg, s, V, t) && LeavesAreFlat(d, path, cfg.atRoot)
    requires EntryVisited(d.entries[i], path, mdir, cfg.atRoot, false) <= V
    requires IsLeaf(path, cfg.atRoot) ==> s.dirstamp == GetTimestamp(s.store, path)
    requires WalkEntry(cfg, w, s, d.entries[i], path, mdir).0.now < UINT_RANGE
    ensures var r := WalkEntry(cfg, w, s, d.entries[i], path, mdir);
            Quiet(s, r.0, t) && (IsLeaf(path, cfg.atRoot) ==> Untouched(s, r.0))
    decreases d, 0
  {
    var e := d.entries[i];
    assert e in d.entries;
    if e.File? && IsLeaf(path, cfg.atRoot) && !IgnoreFile(e.name) {
      var it := Item(path, e.name, mdir, e.meta);
      assert it in EntryVisited(e, path, mdir, cfg.atRoot, false);
      QuietFile(cfg, w, s, it, t);
    } else if e.Sub? && !IgnoreDir(e.name) {
      QuietDir(cfg, w, s, e.dir, path + [e.name], Some(MdirFor(mdir, e.name)), V, t);
    }
  }

  lemma {:induction false} QuietEntries(cfg: Config, w: World, s: IndexState, d: Dir, n: nat, path: Path,
                              mdir: Option<string>, V: set<Item>, t: nat)
    requires n <= |d.entries| && Ready(cfg, s, V, t) && LeavesAreFlat(d, path, cfg.atRoot)
    requires VisitedUpTo(d, n, path, mdir, cfg.atRoot, false) <= V
    requires IsLeaf(path, cfg.atRoot) ==> s.dirstamp == GetTimestamp(s.store, path)
    requires WalkEntries(cfg, w, s, d, n, path, mdir).0.now < UINT_RANGE
    ensures var r := WalkEntries(cfg, w, s, d, n, path, mdir);
            Quiet(s, r.0, t) && (IsLeaf(path, cfg.atRoot) ==> Untouched(s, r.0))
    decreases d, 1, n
  {
    if n > 0 {
      var r := WalkEntries(cfg, w, s, d, n - 1, path, mdir);
      EntriesClock(cfg, w, s, d, n, path, mdir);
      QuietEntries(cfg, w, s, d, n - 1, path, mdir, V, t);
      if r.1 == MU_OK {
        QuietEntry(cfg, w, r.0, d, n - 1, path, mdir, V, t);
      }
    }
  }

  lemma {:induction false} QuietDir(cfg: Config, w: World, s: IndexState, d: Dir, path: Path, mdir: Option<string>,
                              V: set<Item>, t: nat)
    requires Ready(cfg, s, V, t) && LeavesAreFlat(d, path, cfg.atRoot)
    requires Visited(d, path, mdir, cfg.atRoot, false) <= V
    requires WalkDir(cfg, w, s, d, path, mdir).0.now < UINT_RANGE
    ensures Quiet(s, WalkDir(cfg, w, s, d, path, mdir).0, t)
    decreases d, 2
  {
    if !Shielded(d, false) && d.listed && EnterDir(w, s, path).1 == MU_OK {
      var a := EnterDir(w, s, path).0;
      DirClock(cfg, w, s, d, path, mdir);
      QuietEntries(cfg, w, a, d, |d.entries|, path, mdir, V, t);
    }
  }

  /** With no edit in between, an incremental run after a run that ended with
      MU_OK updates nothing, whether it completes or is stopped, provided the
      messages were there before the first run. */
  lemma {:induction false} RerunUpdatesNothing(first: Config, again: Config, w: World, w': World, store: StoreState,
                              now: nat, root: Dir)
    requires ProperTree(root, first.atRoot)
    requires GoodStore(store, now, Items(root, [], None, first.atRoot), first.maxFilesize)
    requires !again.reindex && again == first.(reindex := false)
    requires forall it :: it in Items(root, [], None, first.atRoot) ==> it.meta.ctime < now
    requires var r := Run(first, w, store, now, root);
             r.1 == MU_OK && Run(again, w', r.0.store, r.0.now, root).0.now < UINT_RANGE
    ensures var r := Run(first, w, store, now, root);
            var r' := Run(again, w', r.0.store, r.0.now, root);
            r'.0.stats.updated == 0 && r'.0.store.db.docs == r.0.store.db.docs
  {
    var s := IndexState(store, 0, NO_STATS, now, 0);
    var r := Run(first, w, store, now, root).0;
    var s' := IndexState(r.store, 0, NO_STATS, r.now, 0);
    DirClock(again, w', s', root, [], None);
    RunIsSafe(first, w, store, now, root);
    DirStamps(first, w, s, root, [], None, now);
    var V := Visited(root, [], None, first.atRoot, false);
    VisitedByRun(root, first.atRoot, first.reindex);
    VisitedAreItems(root, |root.entries|, [], None, first.atRoot, false);
    assert V <= Items(root, [], None, first.atRoot);
    QuietDir(again, w', s', root, [], None, V, now);
  }

  lemma {:induction false} VisitedByRun(root: Dir, atRoot: bool, reindex: bool)
    ensures Visited(root, [], None, atRoot, false) <= Visited(root, [], None, atRoot, reindex)
  {
    if reindex { VisitedByFull(root, [], None, atRoot); }
  }
}
