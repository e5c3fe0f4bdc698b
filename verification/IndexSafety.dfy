/** What a run of the indexer keeps, and what a complete run achieves. */
module IndexSafety {
  import opened Options
  import opened MaildirTree
  import opened MuStore
  import opened IndexRun

  ghost predicate Permitted(it: Item, max: nat) {
    it.meta.size <= max && it.meta.parseable
  }

  /** The document of a message is its current content. */
  ghost predicate Stored(db: Db, it: Item) {
    it.Path() in db.docs && db.docs[it.Path()] == Doc(it.meta.content, it.mdir)
  }

  /** The stamp invariant: what was stored of a stamped directory and did not
      change since the stamp is stored with its current content. */
  ghost predicate Sound(db: Db, F: set<Item>, max: nat) {
    forall it :: it in F && Permitted(it, max) && Unchanged(db, it) ==> Stored(db, it)
  }

  /** Stored before its directory was stamped, and not changed since. */
  ghost predicate Unchanged(db: Db, it: Item) {
    it.Path() in db.docs && it.dir in db.stamps && it.meta.ctime < db.stamps[it.dir]
  }

  ghost predicate StampsUpTo(db: Db, now: nat) {
    forall d :: d in db.stamps ==> db.stamps[d] <= now
  }

  ghost predicate Good(s: IndexState, F: set<Item>, max: nat) {
    s.store.batchSize > 0
    && Sound(s.store.db, F, max) && Sound(s.store.saved, F, max)
    && StampsUpTo(s.store.db, s.now) && StampsUpTo(s.store.saved, s.now)
  }

  /** F is a set of message files, one to a path, with times before 2^32. */
  ghost predicate Filed(F: set<Item>) {
    (forall a, b :: a in F && b in F && a.Path() == b.Path() ==> a == b)
    && (forall it :: it in F ==> it.meta.ctime < UINT_RANGE)
  }

  /** What was stored stays stored. */
  ghost predicate KeepsStored(F: set<Item>, db: Db, db': Db) {
    forall it :: it in F && Stored(db, it) ==> Stored(db', it)
  }

  ghost predicate AllStored(S: set<Item>, max: nat, db: Db) {
    forall it :: it in S && Permitted(it, max) ==> Stored(db, it)
  }

  // ---- one message ----

  /** Storing the current content of a file keeps the invariant, in what is
      visible and in what is saved, also when the database fails. */
  lemma {:induction false} AddKeeps(s: IndexState, it: Item, how: Outcome, F: set<Item>, max: nat)
    requires Good(s, F, max) && Filed(F) && it in F
    ensures var r := AddMsg(s.store, it.Path(), DocFor(it.meta, it.mdir), how);
            && Good(s.(store := r.0), F, max)
            && (r.1 ==> KeepsStored(F, s.store.db, r.0.db) && Stored(r.0.db, it) && r.0.db.stamps == s.store.db.stamps)
  {
    var db := s.store.db;
    var db' := db.(docs := db.docs[it.Path() := DocFor(it.meta, it.mdir)]);
    forall x | x in F && x.Path() == it.Path() ensures x == it {
    }
    assert Sound(db', F, max);
    assert KeepsStored(F, db, db');
  }

  /** A step that keeps the store good and, if it says MU_OK, keeps what was
      stored, stores `it` if permitted, and touches no stamp. */
  ghost predicate FilePost(cfg: Config, F: set<Item>, it: Item, s: IndexState, r: (IndexState, MuError)) {
    Good(r.0, F, cfg.maxFilesize) && r.0.now == s.now
    && (r.1 == MU_OK ==>
          KeepsStored(F, s.store.db, r.0.store.db)
          && (Permitted(it, cfg.maxFilesize) ==> Stored(r.0.store.db, it))
          && r.0.store.db.stamps == s.store.db.stamps && r.0.dirstamp == s.dirstamp)
  }

  lemma {:induction false} InsertStep(cfg: Config, w: World, s: IndexState, it: Item, F: set<Item>)
    requires Good(s, F, cfg.maxFilesize) && Filed(F) && it in F && s.now < UINT_RANGE
    requires s.dirstamp == GetTimestamp(s.store, it.dir) && it.meta.size <= cfg.maxFilesize
    ensures var r := InsertOrUpdate(cfg, w, s, it.Path(), it.mdir, it.meta);
            FilePost(cfg, F, it, s, (r.0, r.1))
  {
    if !NeedsIndex(cfg, s, it.Path(), it.meta.ctime) {
      if it.meta.parseable { SkippedIsCurrent(cfg, s, it, F); }
    } else if it.meta.parseable {
      AddKeeps(s, it, w.adding(s.asked), F, cfg.maxFilesize);
    }
  }

  /** What one message file of a leaf directory goes through. */
  lemma {:induction false} FileStep(cfg: Config, w: World, s: IndexState, it: Item, F: set<Item>)
    requires Good(s, F, cfg.maxFilesize) && Filed(F) && it in F && s.now < UINT_RANGE
    requires s.dirstamp == GetTimestamp(s.store, it.dir)
    ensures FilePost(cfg, F, it, s, ProcessFile(cfg, w, s, it.Path(), it.mdir, it.meta))
  {
    if it.meta.readable && it.meta.size <= cfg.maxFilesize && w.msgCb(s.asked) == MU_OK {
      var s1 := s.(asked := s.asked + 1);
      InsertStep(cfg, w, s1, it, F);
      var r := InsertOrUpdate(cfg, w, s1, it.Path(), it.mdir, it.meta);
      CountedStep(cfg, F, it, s1, (r.0, r.1), ProcessFile(cfg, w, s, it.Path(), it.mdir, it.meta));
      UncountedStep(cfg, F, it, s, ProcessFile(cfg, w, s, it.Path(), it.mdir, it.meta));
    }
  }

  /** The counters do not matter. */
  lemma CountedStep(cfg: Config, F: set<Item>, it: Item, s: IndexState, r: (IndexState, MuError),
                    q: (IndexState, MuError))
    requires FilePost(cfg, F, it, s, r) && q.1 == r.1 && q.0 == r.0.(stats := q.0.stats)
    ensures FilePost(cfg, F, it, s, q)
  {
  }

  lemma UncountedStep(cfg: Config, F: set<Item>, it: Item, s: IndexState, r: (IndexState, MuError))
    requires FilePost(cfg, F, it, s.(asked := s.asked + 1), r)
    ensures FilePost(cfg, F, it, s, r)
  {
  }

  /** A message the indexer skips is up to date: this is what the stamp is for. */
  lemma {:induction false} SkippedIsCurrent(cfg: Config, s: IndexState, it: Item, F: set<Item>)
    requires Good(s, F, cfg.maxFilesize) && Filed(F) && it in F && s.now < UINT_RANGE
    requires s.dirstamp == GetTimestamp(s.store, it.dir) && Permitted(it, cfg.maxFilesize)
    requires !NeedsIndex(cfg, s, it.Path(), it.meta.ctime)
    ensures Stored(s.store.db, it)
  {
    assert s.dirstamp <= s.now;
    assert AsUnsigned(it.meta.ctime) == it.meta.ctime && AsUnsigned(s.dirstamp) == s.dirstamp;
  }

  /** Two times compare as their casts do exactly when they lie in the same
      period of 2^32 seconds, or the remainders order as the periods do. */
  ghost predicate CastsAgree(f: nat, d: nat) {
    f / UINT_RANGE == d / UINT_RANGE
    || (f / UINT_RANGE > d / UINT_RANGE <==> f % UINT_RANGE >= d % UINT_RANGE)
  }

  lemma {:induction false} CastComparison(f: nat, d: nat)
    ensures (AsUnsigned(f) >= AsUnsigned(d) <==> f >= d) <==> CastsAgree(f, d)
  {
    assert f == f / UINT_RANGE * UINT_RANGE + f % UINT_RANGE;
    assert d == d / UINT_RANGE * UINT_RANGE + d % UINT_RANGE;
  }

  /** A stored file is indexed again exactly when it is no older than the
      stamp, if and only if the casts agree; a file that changed after the
      stamp is skipped if and only if its remainder is the smaller one. */
  lemma {:induction false} StampComparedRightly(cfg: Config, s: IndexState, path: Path, f: nat)
    requires !cfg.reindex && path in s.store.db.docs
    ensures (NeedsIndex(cfg, s, path, f) <==> f >= s.dirstamp) <==> CastsAgree(f, s.dirstamp)
    ensures f >= s.dirstamp ==> (!NeedsIndex(cfg, s, path, f) <==> f % UINT_RANGE < s.dirstamp % UINT_RANGE)
    ensures f == UINT_RANGE && s.dirstamp == UINT_RANGE - 1 ==> !NeedsIndex(cfg, s, path, f)
  {
    CastComparison(f, s.dirstamp);
  }

  // ---- the clock ----

  lemma {:induction false} EntryClock(cfg: Config, w: World, s: IndexState, e: Entry, path: Path, mdir: Option<string>)
    requires s.store.batchSize > 0
    ensures s.now <= WalkEntry(cfg, w, s, e, path, mdir).0.now
    decreases e, 0
  {
    if e.Sub? && !IgnoreDir(e.name) {
      DirClock(cfg, w, s, e.dir, path + [e.name], Some(MdirFor(mdir, e.name)));
    }
  }

  lemma {:induction false} EntriesClock(cfg: Config, w: World, s: IndexState, d: Dir, n: nat, path: Path,
                              mdir: Option<string>)
    requires s.store.batchSize > 0 && n <= |d.entries|
    ensures s.now <= WalkEntries(cfg, w, s, d, n, path, mdir).0.now
    ensures n > 0 ==>
              WalkEntries(cfg, w, s, d, n - 1, path, mdir).0.now <= WalkEntries(cfg, w, s, d, n, path, mdir).0.now
    decreases d, 1, n
  {
    if n > 0 {
      EntriesClock(cfg, w, s, d, n - 1, path, mdir);
      var r := WalkEntries(cfg, w, s, d, n - 1, path, mdir);
      assert d.entries[n - 1] in d.entries;
      EntryClock(cfg, w, r.0, d.entries[n - 1], path, mdir);
    }
  }

  lemma {:induction false} DirClock(cfg: Config, w: World, s: IndexState, d: Dir, path: Path, mdir: Option<string>)
    requires s.store.batchSize > 0
    ensures s.now <= WalkDir(cfg, w, s, d, path, mdir).0.now
    ensures !Shielded(d, cfg.reindex) && d.listed && EnterDir(w, s, path).1 == MU_OK ==>
              WalkEntries(cfg, w, EnterDir(w, s, path).0, d, |d.entries|, path, mdir).0.now
                  <= WalkDir(cfg, w, s, d, path, mdir).0.now
    decreases d, 2
  {
    if !Shielded(d, cfg.reindex) {
      EntriesClock(cfg, w, EnterDir(w, s, path).0, d, |d.entries|, path, mdir);
    }
  }

  // ---- directories ----

  /** F holds the message files of this directory and none else under its path. */
  ghost predicate Here(F: set<Item>, d: Dir, path: Path, mdir: Option<string>, atRoot: bool) {
    WellFormed(d) && LeavesAreFlat(d, path, atRoot)
    && Items(d, path, mdir, atRoot) <= F
    && forall it :: it in F && path <= it.dir ==> it in Items(d, path, mdir, atRoot)
  }

  lemma {:induction false} ItemEntry(d: Dir, path: Path, mdir: Option<string>, atRoot: bool, it: Item) returns (i: nat)
    requires it in Items(d, path, mdir, atRoot)
    ensures i < |d.entries| && it in EntryItems(d.entries[i], path, mdir, atRoot) && !d.entries[i].Special?
    ensures path <= it.dir
    ensures if d.entries[i].File? then it.dir == path else path + [d.entries[i].name] <= it.dir
  {
    ItemsOfEntries(d, |d.entries|, path, mdir, atRoot);
    assert it in ItemsUpTo(d, |d.entries|, path, mdir, atRoot);
    i :| 0 <= i < |d.entries| && it in EntryItems(d.entries[i], path, mdir, atRoot);
    EntryItemsUnder(d.entries[i], path, mdir, atRoot);
  }

  lemma {:induction false} EntryItem(d: Dir, i: nat, path: Path, mdir: Option<string>, atRoot: bool)
    requires i < |d.entries|
    ensures EntryItems(d.entries[i], path, mdir, atRoot) <= Items(d, path, mdir, atRoot)
  {
    ItemsOfEntries(d, |d.entries|, path, mdir, atRoot);
    assert Items(d, path, mdir, atRoot) == ItemsUpTo(d, |d.entries|, path, mdir, atRoot);
  }

  lemma {:induction false} HereBelow(F: set<Item>, d: Dir, i: nat, path: Path, mdir: Option<string>, atRoot: bool)
    requires Here(F, d, path, mdir, atRoot) && i < |d.entries| && d.entries[i].Sub? && !IgnoreDir(d.entries[i].name)
    ensures Here(F, d.entries[i].dir, path + [d.entries[i].name], Some(MdirFor(mdir, d.entries[i].name)), atRoot)
  {
    var e := d.entries[i];
    var sub := path + [e.name];
    EntryItem(d, i, path, mdir, atRoot);
    var S := Items(e.dir, sub, Some(MdirFor(mdir, e.name)), atRoot);
    assert S == EntryItems(e, path, mdir, atRoot);
    forall it | it in S ensures it in F {
      assert it in Items(d, path, mdir, atRoot);
    }
    forall it | it in F && sub <= it.dir ensures it in S {
      assert path <= it.dir by { assert path == sub[..|path|]; }
      var j := ItemEntry(d, path, mdir, atRoot, it);
      OwnSubtree(path, e.name, d.entries[j], it);
    }
  }

  lemma OwnSubtree(path: Path, name: string, e: Entry, it: Item)
    requires path + [name] <= it.dir && !e.Special?
    requires if e.File? then it.dir == path else path + [e.name] <= it.dir
    ensures e.Sub? && e.name == name
  {
    assert it.dir[|path|] == (path + [name])[|path|];
    if e.Sub? { assert it.dir[|path|] == (path + [e.name])[|path|]; }
  }

  /** The files whose directory is this one are the files among its entries,
      all of them visited; if it is no leaf there are none. */
  lemma {:induction false} OwnFilesVisited(F: set<Item>, d: Dir, path: Path, mdir: Option<string>, atRoot: bool,
                              full: bool, it: Item)
    requires Here(F, d, path, mdir, atRoot) && it in F && it.dir == path
    ensures it in VisitedUpTo(d, |d.entries|, path, mdir, atRoot, full)
  {
    var i := ItemEntry(d, path, mdir, atRoot, it);
    VisitedEntry(d, |d.entries|, i, path, mdir, atRoot, full);
  }

  lemma {:induction false} VisitedEntry(d: Dir, n: nat, i: nat, path: Path, mdir: Option<string>, atRoot: bool,
                              full: bool)
    requires i < n <= |d.entries|
    ensures EntryVisited(d.entries[i], path, mdir, atRoot, full) <= VisitedUpTo(d, n, path, mdir, atRoot, full)
    decreases n
  {
    if i < n - 1 {
      VisitedEntry(d, n - 1, i, path, mdir, atRoot, full);
    }
  }

  /** The state a walk leaves behind is good; one that ends with MU_OK has
      stored everything it visited and lost nothing. */
  ghost predicate WalkPost(cfg: Config, F: set<Item>, V: set<Item>, s: IndexState, r: (IndexState, MuError)) {
    Good(r.0, F, cfg.maxFilesize)
    && (r.1 == MU_OK ==> KeepsStored(F, s.store.db, r.0.store.db) && AllStored(V, cfg.maxFilesize, r.0.store.db))
  }

  ghost predicate StampSteady(s: IndexState, r: (IndexState, MuError)) {
    r.1 == MU_OK ==> r.0.store.db.stamps == s.store.db.stamps && r.0.dirstamp == s.dirstamp
  }

  lemma {:induction false} EntryWalk(cfg: Config, w: World, s: IndexState, d: Dir, i: nat, path: Path,
                              mdir: Option<string>, F: set<Item>)
    requires Good(s, F, cfg.maxFilesize) && Filed(F) && Here(F, d, path, mdir, cfg.atRoot) && i < |d.entries|
    requires IsLeaf(path, cfg.atRoot) ==> s.dirstamp == GetTimestamp(s.store, path)
    requires WalkEntry(cfg, w, s, d.entries[i], path, mdir).0.now < UINT_RANGE
    ensures var e := d.entries[i];
            var r := WalkEntry(cfg, w, s, e, path, mdir);
            && WalkPost(cfg, F, EntryVisited(e, path, mdir, cfg.atRoot, cfg.reindex), s, r)
            && (IsLeaf(path, cfg.atRoot) ==> StampSteady(s, r))
    decreases d, 0
  {
    var e := d.entries[i];
    assert e in d.entries;
    EntryClock(cfg, w, s, e, path, mdir);
    if e.File? && IsLeaf(path, cfg.atRoot) && !IgnoreFile(e.name) {
      var it := Item(path, e.name, mdir, e.meta);
      EntryItem(d, i, path, mdir, cfg.atRoot);
      assert it in EntryItems(e, path, mdir, cfg.atRoot);
      FileStep(cfg, w, s, it, F);
    } else if e.Sub? && !IgnoreDir(e.name) {
      HereBelow(F, d, i, path, mdir, cfg.atRoot);
      DirWalk(cfg, w, s, e.dir, path + [e.name], Some(MdirFor(mdir, e.name)), F);
    }
  }

  /** One entry after others that went well. */
  lemma {:induction false} WalkJoins(cfg: Config, F: set<Item>, V: set<Item>, W: set<Item>, s: IndexState,
                                     a: (IndexState, MuError), b: (IndexState, MuError))
    requires a.1 == MU_OK && WalkPost(cfg, F, V, s, a) && WalkPost(cfg, F, W, a.0, b) && V <= F
    ensures WalkPost(cfg, F, V + W, s, b)
  {
  }

  lemma {:induction false} EntriesWalk(cfg: Config, w: World, s: IndexState, d: Dir, n: nat, path: Path,
                              mdir: Option<string>, F: set<Item>)
    requires Good(s, F, cfg.maxFilesize) && Filed(F) && Here(F, d, path, mdir, cfg.atRoot) && n <= |d.entries|
    requires IsLeaf(path, cfg.atRoot) ==> s.dirstamp == GetTimestamp(s.store, path)
    requires WalkEntries(cfg, w, s, d, n, path, mdir).0.now < UINT_RANGE
    ensures var r := WalkEntries(cfg, w, s, d, n, path, mdir);
            && WalkPost(cfg, F, VisitedUpTo(d, n, path, mdir, cfg.atRoot, cfg.reindex), s, r)
            && (IsLeaf(path, cfg.atRoot) ==> StampSteady(s, r))
    decreases d, 1, n
  {
    if n > 0 {
      var r := WalkEntries(cfg, w, s, d, n - 1, path, mdir);
      EntriesClock(cfg, w, s, d, n, path, mdir);
      EntriesWalk(cfg, w, s, d, n - 1, path, mdir, F);
      if r.1 == MU_OK {
        EntryWalk(cfg, w, r.0, d, n - 1, path, mdir, F);
        VisitedWithin(d, n - 1, path, mdir, cfg.atRoot, cfg.reindex);
        WalkJoins(cfg, F, VisitedUpTo(d, n - 1, path, mdir, cfg.atRoot, cfg.reindex),
                  EntryVisited(d.entries[n - 1], path, mdir, cfg.atRoot, cfg.reindex), s, r,
                  WalkEntry(cfg, w, r.0, d.entries[n - 1], path, mdir));
      }
    }
  }

  lemma {:induction false} VisitedWithin(d: Dir, n: nat, path: Path, mdir: Option<string>, atRoot: bool, full: bool)
    requires n <= |d.entries|
    ensures VisitedUpTo(d, n, path, mdir, atRoot, full) <= Items(d, path, mdir, atRoot)
  {
    VisitedAreItems(d, n, path, mdir, atRoot, full);
    ItemsUpToMonotone(d, n, |d.entries|, path, mdir, atRoot);
    ItemsOfEntries(d, |d.entries|, path, mdir, atRoot);
  }

  lemma {:induction false} ItemsUpToMonotone(d: Dir, m: nat, n: nat, path: Path, mdir: Option<string>, atRoot: bool)
    requires m <= n <= |d.entries|
    ensures ItemsUpTo(d, m, path, mdir, atRoot) <= ItemsUpTo(d, n, path, mdir, atRoot)
    decreases n
  {
    if m < n {
      ItemsUpToMonotone(d, m, n - 1, path, mdir, atRoot);
    }
  }

  /** Stamping a directory whose own files are all stored keeps the invariant. */
  lemma {:induction false} StampKeeps(w: World, s: IndexState, path: Path, F: set<Item>, max: nat)
    requires Good(s, F, max)
    requires forall it :: it in F && it.dir == path && Permitted(it, max) ==> Stored(s.store.db, it)
    ensures var r := LeaveDir(w, s, path);
            Good(r.0, F, max) && r.0.store.db.docs == s.store.db.docs
  {
    var db' := LeaveDir(w, s, path).0.store.db;
    forall it | it in F && Permitted(it, max) && Unchanged(db', it) ensures Stored(db', it) {
      assert Stored(s.store.db, it);
    }
  }

  lemma {:induction false} DirWalk(cfg: Config, w: World, s: IndexState, d: Dir, path: Path, mdir: Option<string>,
                              F: set<Item>)
    requires Good(s, F, cfg.maxFilesize) && Filed(F) && Here(F, d, path, mdir, cfg.atRoot)
    requires WalkDir(cfg, w, s, d, path, mdir).0.now < UINT_RANGE
    ensures WalkPost(cfg, F, Visited(d, path, mdir, cfg.atRoot, cfg.reindex), s, WalkDir(cfg, w, s, d, path, mdir))
    decreases d, 2
  {
    if !Shielded(d, cfg.reindex) && d.listed && EnterDir(w, s, path).1 == MU_OK {
      var a := EnterDir(w, s, path).0;
      var b := WalkEntries(cfg, w, a, d, |d.entries|, path, mdir);
      DirClock(cfg, w, s, d, path, mdir);
      EntriesWalk(cfg, w, a, d, |d.entries|, path, mdir, F);
      if b.1 == MU_OK {
        forall it | it in F && it.dir == path && Permitted(it, cfg.maxFilesize) ensures Stored(b.0.store.db, it) {
          OwnFilesVisited(F, d, path, mdir, cfg.atRoot, cfg.reindex, it);
        }
        StampKeeps(w, b.0, path, F, cfg.maxFilesize);
      }
    }
  }

  // ---- a whole run ----

  ghost predicate GoodStore(store: StoreState, now: nat, F: set<Item>, max: nat) {
    Good(IndexState(store, 0, NO_STATS, now, 0), F, max)
  }

  ghost predicate ProperTree(root: Dir, atRoot: bool) {
    WellFormed(root) && LeavesAreFlat(root, [], atRoot) && Filed(Items(root, [], None, atRoot))
  }

  /** Every run, complete, stopped or failed, leaves a good store behind; a
      run that ends with MU_OK has stored every message it is meant to see. */
  lemma {:induction false} RunIsSafe(cfg: Config, w: World, store: StoreState, now: nat, root: Dir)
    requires ProperTree(root, cfg.atRoot) && GoodStore(store, now, Items(root, [], None, cfg.atRoot), cfg.maxFilesize)
    requires Run(cfg, w, store, now, root).0.now < UINT_RANGE
    ensures var F := Items(root, [], None, cfg.atRoot);
            var r := Run(cfg, w, store, now, root);
            && GoodStore(r.0.store, r.0.now, F, cfg.maxFilesize) && now <= r.0.now
            && (r.1 == MU_OK ==>
                  AllStored(Visited(root, [], None, cfg.atRoot, cfg.reindex), cfg.maxFilesize, r.0.store.db)
                  && r.0.store.saved == r.0.store.db)
  {
    var s := IndexState(store, 0, NO_STATS, now, 0);
    DirWalk(cfg, w, s, root, [], None, Items(root, [], None, cfg.atRoot));
    DirClock(cfg, w, s, root, [], None);
  }

  /** Incremental and full runs that end with MU_OK agree on every message the
      incremental run visits. */
  lemma {:induction false} IncrementalEqualsFull(cfg: Config, full: Config, w: World, w': World, store: StoreState,
                              now: nat, root: Dir, it: Item)
    requires ProperTree(root, cfg.atRoot) && GoodStore(store, now, Items(root, [], None, cfg.atRoot), cfg.maxFilesize)
    requires !cfg.reindex && full == cfg.(reindex := true)
    requires Run(cfg, w, store, now, root).0.now < UINT_RANGE && Run(full, w', store, now, root).0.now < UINT_RANGE
    requires Run(cfg, w, store, now, root).1 == MU_OK && Run(full, w', store, now, root).1 == MU_OK
    requires it in Visited(root, [], None, cfg.atRoot, false) && Permitted(it, cfg.maxFilesize)
    ensures var db, db' := Run(cfg, w, store, now, root).0.store.db, Run(full, w', store, now, root).0.store.db;
            it.Path() in db.docs && it.Path() in db'.docs && db.docs[it.Path()] == db'.docs[it.Path()]
  {
    RunIsSafe(cfg, w, store, now, root);
    RunIsSafe(full, w', store, now, root);
    VisitedByFull(root, [], None, cfg.atRoot);
  }

  lemma {:induction false} VisitedByFull(d: Dir, path: Path, mdir: Option<string>, atRoot: bool)
    ensures Visited(d, path, mdir, atRoot, false) <= Visited(d, path, mdir, atRoot, true)
    decreases d, 2
  {
    if !Shielded(d, false) {
      EntriesVisitedByFull(d, |d.entries|, path, mdir, atRoot);
    }
  }

  lemma {:induction false} EntriesVisitedByFull(d: Dir, n: nat, path: Path, mdir: Option<string>, atRoot: bool)
    requires n <= |d.entries|
    ensures VisitedUpTo(d, n, path, mdir, atRoot, false) <= VisitedUpTo(d, n, path, mdir, atRoot, true)
    decreases d, 1, n
  {
    if n > 0 {
      EntriesVisitedByFull(d, n - 1, path, mdir, atRoot);
      var e := d.entries[n - 1];
      assert e in d.entries;
      if e.Sub? && !IgnoreDir(e.name) {
        VisitedByFull(e.dir, path + [e.name], Some(MdirFor(mdir, e.name)), atRoot);
      }
    }
  }
}
