/** What the statistics of a run count. */
module IndexCounts {
  import opened Options
  import opened MaildirTree
  import opened MuStore
  import opened IndexRun
  import opened IndexEffect

  ghost function Small(V: set<Item>, max: nat): set<Item> {
    set it | it in V && it.meta.size <= max
  }

  ghost function Indexed(cfg: Config, V: set<Item>, db: Db): set<Item> {
    set it | it in V && Indexes(cfg, db, it)
  }

  /** Between st and st' the messages of V were counted: the small ones as
      processed, those that were stored as updated, the others as up to date. */
  ghost predicate Counted(cfg: Config, V: set<Item>, db: Db, st: Stats, st': Stats) {
    st'.processed == st.processed + |Small(V, cfg.maxFilesize)|
    && st'.updated == st.updated + |Indexed(cfg, V, db)|
    && st'.uptodate == st.uptodate + |Small(V, cfg.maxFilesize)| - |Indexed(cfg, V, db)|
    && st'.cleanedUp == st.cleanedUp
  }

  lemma CountNone(cfg: Config, db: Db, st: Stats)
    ensures Counted(cfg, {}, db, st, st)
  {
    assert Small({}, cfg.maxFilesize) == {} && Indexed(cfg, {}, db) == {};
  }

  lemma {:induction false} CountFile(cfg: Config, w: World, s: IndexState, it: Item)
    requires s.store.batchSize > 0 && s.dirstamp == GetTimestamp(s.store, it.dir)
    requires ProcessFile(cfg, w, s, it.Path(), it.mdir, it.meta).1 == MU_OK
    ensures Counted(cfg, {it}, s.store.db, s.stats, ProcessFile(cfg, w, s, it.Path(), it.mdir, it.meta).0.stats)
  {
    var db := s.store.db;
    assert Small({it}, cfg.maxFilesize) == if it.meta.size <= cfg.maxFilesize then {it} else {};
    assert Indexed(cfg, {it}, db) == if Indexes(cfg, db, it) then {it} else {};
  }

  lemma {:induction false} CountBoth(cfg: Config, V: set<Item>, W: set<Item>, db: Db, db1: Db, st: Stats, st1: Stats,
                                     st2: Stats)
    requires Counted(cfg, V, db, st, st1) && Counted(cfg, W, db1, st1, st2)
    requires forall it :: it in W ==> (Indexes(cfg, db, it) <==> Indexes(cfg, db1, it))
    requires forall a, b :: a in V && b in W ==> a.Path() != b.Path()
    ensures Counted(cfg, V + W, db, st, st2)
  {
    assert V !! W;
    SmallUnion(V, W, cfg.maxFilesize);
    IndexedUnion(cfg, V, W, db, db1);
  }

  lemma SmallUnion(V: set<Item>, W: set<Item>, max: nat)
    requires V !! W
    ensures |Small(V + W, max)| == |Small(V, max)| + |Small(W, max)|
  {
    assert Small(V + W, max) == Small(V, max) + Small(W, max);
    CountUnion(V, W, Small(V, max), Small(W, max));
  }

  lemma IndexedUnion(cfg: Config, V: set<Item>, W: set<Item>, db: Db, db1: Db)
    requires V !! W && forall it :: it in W ==> (Indexes(cfg, db, it) <==> Indexes(cfg, db1, it))
    ensures |Indexed(cfg, V + W, db)| == |Indexed(cfg, V, db)| + |Indexed(cfg, W, db1)|
  {
    assert Indexed(cfg, V + W, db) == Indexed(cfg, V, db) + Indexed(cfg, W, db1);
    CountUnion(V, W, Indexed(cfg, V, db), Indexed(cfg, W, db1));
  }

  lemma CountUnion<T>(V: set<T>, W: set<T>, a: set<T>, b: set<T>)
    requires V !! W && a <= V && b <= W
    ensures |a + b| == |a| + |b|
  {
    assert a !! b;
  }

  lemma {:induction false} CountEntry(cfg: Config, w: World, s: IndexState, d: Dir, i: nat, path: Path,
                                      mdir: Option<string>)
    requires s.store.batchSize > 0 && i < |d.entries| && Tidy(d, path, cfg.atRoot) && KnowsStamp(cfg, s, path)
    requires WalkEntry(cfg, w, s, d.entries[i], path, mdir).1 == MU_OK
    ensures Counted(cfg, EntryVisited(d.entries[i], path, mdir, cfg.atRoot, cfg.reindex), s.store.db, s.stats,
                    WalkEntry(cfg, w, s, d.entries[i], path, mdir).0.stats)
    decreases d, 0
  {
    var e := d.entries[i];
    assert e in d.entries;
    CountNone(cfg, s.store.db, s.stats);
    if e.File? && IsLeaf(path, cfg.atRoot) && !IgnoreFile(e.name) {
      var it := Item(path, e.name, mdir, e.meta);
      CountFile(cfg, w, s, it);
      assert EntryVisited(e, path, mdir, cfg.atRoot, cfg.reindex) == {it};
    } else if e.Sub? && !IgnoreDir(e.name) {
      CountDir(cfg, w, s, e.dir, path + [e.name], Some(MdirFor(mdir, e.name)));
    }
  }

  /** The loop arrives at entry n with its stamp in place and its messages
      untouched. */
  lemma {:induction false} BeforeEntry(cfg: Config, w: World, s: IndexState, d: Dir, n: nat, path: Path,
                                       mdir: Option<string>)
    requires s.store.batchSize > 0 && n < |d.entries| && Tidy(d, path, cfg.atRoot) && KnowsStamp(cfg, s, path)
    requires WalkEntries(cfg, w, s, d, n, path, mdir).1 == MU_OK
    ensures var r := WalkEntries(cfg, w, s, d, n, path, mdir).0;
            var V := VisitedUpTo(d, n, path, mdir, cfg.atRoot, cfg.reindex);
            var W := EntryVisited(d.entries[n], path, mdir, cfg.atRoot, cfg.reindex);
            && KnowsStamp(cfg, r, path)
            && (forall it :: it in W ==> (Indexes(cfg, s.store.db, it) <==> Indexes(cfg, r.store.db, it)))
            && (forall a, b :: a in V && b in W ==> a.Path() != b.Path())
  {
    var r := WalkEntries(cfg, w, s, d, n, path, mdir).0;
    EntriesEffect(cfg, w, s, d, n, path, mdir);
    assert Outside(d, n, path, path);
    assert SameStamp(s.store.db, r.store.db, path);
    NextEntryApart(cfg, d, n, path, mdir, s.store.db, r.store.db);
  }

  lemma {:induction false} CountEntries(cfg: Config, w: World, s: IndexState, d: Dir, n: nat, path: Path,
                                        mdir: Option<string>)
    requires s.store.batchSize > 0 && n <= |d.entries| && Tidy(d, path, cfg.atRoot) && KnowsStamp(cfg, s, path)
    requires WalkEntries(cfg, w, s, d, n, path, mdir).1 == MU_OK
    ensures Counted(cfg, VisitedUpTo(d, n, path, mdir, cfg.atRoot, cfg.reindex), s.store.db, s.stats,
                    WalkEntries(cfg, w, s, d, n, path, mdir).0.stats)
    decreases d, 1, n
  {
    CountNone(cfg, s.store.db, s.stats);
    if n > 0 {
      var r := WalkEntries(cfg, w, s, d, n - 1, path, mdir).0;
      CountEntries(cfg, w, s, d, n - 1, path, mdir);
      BeforeEntry(cfg, w, s, d, n - 1, path, mdir);
      CountEntry(cfg, w, r, d, n - 1, path, mdir);
      CountBoth(cfg, VisitedUpTo(d, n - 1, path, mdir, cfg.atRoot, cfg.reindex),
                EntryVisited(d.entries[n - 1], path, mdir, cfg.atRoot, cfg.reindex), s.store.db, r.store.db, s.stats,
                r.stats, WalkEntry(cfg, w, r, d.entries[n - 1], path, mdir).0.stats);
    }
  }

  lemma {:induction false} CountDir(cfg: Config, w: World, s: IndexState, d: Dir, path: Path, mdir: Option<string>)
    requires s.store.batchSize > 0 && Tidy(d, path, cfg.atRoot) && WalkDir(cfg, w, s, d, path, mdir).1 == MU_OK
    ensures Counted(cfg, Visited(d, path, mdir, cfg.atRoot, cfg.reindex), s.store.db, s.stats,
                    WalkDir(cfg, w, s, d, path, mdir).0.stats)
    decreases d, 2
  {
    CountNone(cfg, s.store.db, s.stats);
    if !Shielded(d, cfg.reindex) {
      CountEntries(cfg, w, EnterDir(w, s, path).0, d, |d.entries|, path, mdir);
    }
  }

  /** The statistics of a run that ends with MU_OK. */
  lemma {:induction false} RunCounts(cfg: Config, w: World, store: StoreState, now: nat, root: Dir)
    requires store.batchSize > 0 && Tidy(root, [], cfg.atRoot) && Run(cfg, w, store, now, root).1 == MU_OK
    ensures var V := Visited(root, [], None, cfg.atRoot, cfg.reindex);
            var small := set it | it in V && it.meta.size <= cfg.maxFilesize;
            var stored := set it | it in V && Indexes(cfg, store.db, it);
            Run(cfg, w, store, now, root).0.stats == Stats(|small|, |stored|, |small - stored|, 0)
  {
    var V := Visited(root, [], None, cfg.atRoot, cfg.reindex);
    CountDir(cfg, w, IndexState(store, 0, NO_STATS, now, 0), root, [], None);
    Difference(Small(V, cfg.maxFilesize), Indexed(cfg, V, store.db));
    assert Indexed(cfg, V, store.db) <= Small(V, cfg.maxFilesize);
  }

  lemma Difference<T>(a: set<T>, b: set<T>)
    ensures b <= a ==> |a - b| == |a| - |b|
  {
  }
}
