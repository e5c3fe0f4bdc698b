/** The index over whole histories: edits of the mail folders, complete and
    stopped runs, cleanups and crashes, in any order. */
module IndexHistory {
  import opened Options
  import opened MaildirTree
  import opened MuStore
  import opened IndexRun
  import opened IndexSafety
  import opened IndexEffect
  import opened IndexRerun

  // ---- cleanup ----

  ghost predicate Kept(p: Path, readable: Path -> bool, order: seq<Path>, i: nat)
    requires i <= |order|
  {
    readable(p) || p !in order[i..]
  }

  /** Cleanup removes documents without a readable file, and nothing else; if
      it ends with MU_OK it removes all of them. */
  lemma {:induction false} CleanupRemoves(w: World, readable: Path -> bool, s: IndexState, order: seq<Path>, i: nat)
    requires i <= |order|
    ensures var r := CleanupFrom(w, readable, s, order, i);
            && r.0.store.db.stamps == s.store.db.stamps && r.0.store.saved == s.store.saved
            && r.0.now == s.now && r.0.store.batchSize == s.store.batchSize
            && (forall p :: p in r.0.store.db.docs ==>
                  p in s.store.db.docs && r.0.store.db.docs[p] == s.store.db.docs[p])
            && (forall p :: p in s.store.db.docs && readable(p) ==> p in r.0.store.db.docs)
            && (r.1 == MU_OK ==> forall p :: p in r.0.store.db.docs ==> Kept(p, readable, order, i))
    decreases |order| - i
  {
    if i < |order| {
      var r := CleanOne(w, readable, s, order[i]);
      if r.1 == MU_OK {
        CleanupRemoves(w, readable, r.0, order, i + 1);
        assert order[i..] == [order[i]] + order[i + 1..];
      }
    }
  }

  lemma {:induction false} FewerDocsSound(db: Db, db': Db, F: set<Item>, max: nat)
    requires Sound(db, F, max) && db'.stamps == db.stamps
    requires forall p :: p in db'.docs ==> p in db.docs && db'.docs[p] == db.docs[p]
    ensures Sound(db', F, max)
  {
    forall it | it in F && Permitted(it, max) && Unchanged(db', it) ensures Stored(db', it) {
      assert Unchanged(db, it);
    }
  }

  /** After an index run and a cleanup that both end with MU_OK, every stored
      path names a readable file, and every eligible message the run visited
      is stored with its current content. */
  lemma {:induction false} RunThenCleanup(cfg: Config, w: World, w': World, store: StoreState, now: nat, root: Dir,
                              readable: Path -> bool, order: seq<Path>)
    requires ProperTree(root, cfg.atRoot) && GoodStore(store, now, Items(root, [], None, cfg.atRoot), cfg.maxFilesize)
    requires forall it :: it in Items(root, [], None, cfg.atRoot) ==> (readable(it.Path()) <==> it.meta.readable)
    requires var r := Run(cfg, w, store, now, root);
             r.0.now < UINT_RANGE && r.1 == MU_OK
             && (forall p :: p in order <==> p in r.0.store.db.docs)
             && Cleanup(w', readable, r.0, order).1 == MU_OK
    ensures var db := Cleanup(w', readable, Run(cfg, w, store, now, root).0, order).0.store.db;
            && (forall p :: p in db.docs ==> readable(p))
            && (forall it :: it in Visited(root, [], None, cfg.atRoot, cfg.reindex) && it.meta.readable ==>
                  (Permitted(it, cfg.maxFilesize) ==> Stored(db, it)))
  {
    var r := Run(cfg, w, store, now, root).0;
    RunIsSafe(cfg, w, store, now, root);
    CleanupRemoves(w', readable, r, order, 0);
    assert order[0..] == order;
    VisitedAreItems(root, |root.entries|, [], None, cfg.atRoot, cfg.reindex);
    assert Visited(root, [], None, cfg.atRoot, cfg.reindex) <= Items(root, [], None, cfg.atRoot);
  }

  // ---- histories ----

  /** The folders, the store and the clock. A crash strikes inside a run or a
      cleanup and leaves what was saved by then: the stopping answers of the
      world say where. Between runs everything is saved. */
  datatype System = System(root: Dir, store: StoreState, now: nat)

  datatype Event =
    | Edit(root: Dir, now: nat)
    | RunIndex(reindex: bool, world: World)
    | CleanupRun(world: World, readable: Path -> bool, order: seq<Path>)
    | CrashInRun(reindex: bool, world: World)
    | CrashInCleanup(world: World, readable: Path -> bool, order: seq<Path>)

  function Step(sys: System, ev: Event, max: nat, atRoot: bool): (sys': System)
    requires sys.store.batchSize > 0
    ensures sys'.store.batchSize == sys.store.batchSize
  {
    match ev
    case Edit(root, now) => sys.(root := root, now := now)
    case RunIndex(reindex, w) =>
      var r := Run(Config(reindex, max, atRoot), w, sys.store, sys.now, sys.root);
      sys.(store := r.0.store, now := r.0.now)
    case CleanupRun(w, readable, order) =>
      CleanupRemoves(w, readable, StartOf(sys), order, 0);
      var r := Cleanup(w, readable, StartOf(sys), order);
      sys.(store := r.0.store)
    case CrashInRun(reindex, w) =>
      var r := WalkDir(Config(reindex, max, atRoot), w, StartOf(sys), sys.root, [], None);
      sys.(store := Crash(r.0.store), now := r.0.now)
    case CrashInCleanup(w, readable, order) =>
      CleanupRemoves(w, readable, StartOf(sys), order, 0);
      sys.(store := Crash(CleanupFrom(w, readable, StartOf(sys), order, 0).0.store))
  }

  function StartOf(sys: System): IndexState {
    IndexState(sys.store, 0, NO_STATS, sys.now, 0)
  }

  /** An edit is allowed if every message file it leaves is either the one
      that was at that path before, or changed no earlier than the clock
      showed, or else is not outdated all the same. The second is what the
      kernel sees to, except where a file is moved together with its folder. */
  ghost predicate Allowed(sys: System, ev: Event, max: nat, atRoot: bool)
    requires sys.store.batchSize > 0
  {
    Step(sys, ev, max, atRoot).now < UINT_RANGE
    && (ev.Edit? ==>
          sys.now <= ev.now && ProperTree(ev.root, atRoot)
          && forall it :: it in Items(ev.root, [], None, atRoot) ==>
               it in Items(sys.root, [], None, atRoot) || it.meta.ctime >= sys.now
               || (!Outdated(sys.store.db, it, max) && !Outdated(sys.store.saved, it, max)))
  }

  ghost predicate NoneOutdated(db: Db, S: set<Item>, max: nat) {
    forall it :: it in S ==> !Outdated(db, it, max)
  }

  ghost predicate Invariant(sys: System, max: nat, atRoot: bool) {
    ProperTree(sys.root, atRoot) && GoodStore(sys.store, sys.now, Items(sys.root, [], None, atRoot), max)
  }

  /** An edit keeps the stamp invariant if and only if no file it brings is
      outdated: stored with other content while it looks older than the stamp
      of its directory. */
  lemma {:induction false} EditKeepsIff(sys: System, root: Dir, now: nat, max: nat, atRoot: bool)
    requires Invariant(sys, max, atRoot) && ProperTree(root, atRoot) && sys.now <= now
    ensures var brought := Items(root, [], None, atRoot) - Items(sys.root, [], None, atRoot);
            Invariant(Step(sys, Edit(root, now), max, atRoot), max, atRoot)
            <==> NoneOutdated(sys.store.db, brought, max) && NoneOutdated(sys.store.saved, brought, max)
  {
    var F, F' := Items(sys.root, [], None, atRoot), Items(root, [], None, atRoot);
    SoundIff(sys.store.db, F, F', max);
    SoundIff(sys.store.saved, F, F', max);
  }

  lemma {:induction false} SoundIff(db: Db, F: set<Item>, F': set<Item>, max: nat)
    requires Sound(db, F, max)
    ensures Sound(db, F', max) <==> NoneOutdated(db, F' - F, max)
  {
    if !Sound(db, F', max) {
      var it :| it in F' && Permitted(it, max) && Unchanged(db, it) && !Stored(db, it);
      assert it in F' - F && Outdated(db, it, max);
    }
  }

  /** Every single event keeps the stamp invariant, for what readers see and
      for what a crash would leave. */
  lemma {:induction false} StepKeeps(sys: System, ev: Event, max: nat, atRoot: bool)
    requires Invariant(sys, max, atRoot) && Allowed(sys, ev, max, atRoot)
    ensures Invariant(Step(sys, ev, max, atRoot), max, atRoot)
  {
    var F := Items(sys.root, [], None, atRoot);
    match ev
    case Edit(root, now) =>
      EditKeepsIff(sys, root, now, max, atRoot);
    case RunIndex(reindex, w) =>
      RunIsSafe(Config(reindex, max, atRoot), w, sys.store, sys.now, sys.root);
    case CleanupRun(w, readable, order) =>
      var s := StartOf(sys);
      CleanupRemoves(w, readable, s, order, 0);
      FewerDocsSound(sys.store.db, CleanupFrom(w, readable, s, order, 0).0.store.db, F, max);
    case CrashInRun(reindex, w) =>
      DirClock(Config(reindex, max, atRoot), w, StartOf(sys), sys.root, [], None);
      DirWalk(Config(reindex, max, atRoot), w, StartOf(sys), sys.root, [], None, F);
    case CrashInCleanup(w, readable, order) =>
      CleanupRemoves(w, readable, StartOf(sys), order, 0);
  }

  function After(sys: System, events: seq<Event>, max: nat, atRoot: bool): (sys': System)
    requires sys.store.batchSize > 0
    ensures sys'.store.batchSize > 0
    decreases |events|
  {
    if events == [] then sys else After(Step(sys, events[0], max, atRoot), events[1..], max, atRoot)
  }

  ghost predicate AllAllowed(sys: System, events: seq<Event>, max: nat, atRoot: bool)
    requires sys.store.batchSize > 0
    decreases |events|
  {
    events == []
    || (Allowed(sys, events[0], max, atRoot)
        && AllAllowed(Step(sys, events[0], max, atRoot), events[1..], max, atRoot))
  }

  /** The stamp invariant holds after every history. */
  lemma {:induction false} HistoryKeeps(sys: System, events: seq<Event>, max: nat, atRoot: bool)
    requires Invariant(sys, max, atRoot) && AllAllowed(sys, events, max, atRoot)
    ensures Invariant(After(sys, events, max, atRoot), max, atRoot)
    decreases |events|
  {
    if events != [] {
      StepKeeps(sys, events[0], max, atRoot);
      HistoryKeeps(Step(sys, events[0], max, atRoot), events[1..], max, atRoot);
    }
  }

  /** Between events nothing is pending: a crash matters inside a run or a
      cleanup only. */
  lemma {:induction false} NothingPending(sys: System, events: seq<Event>, max: nat, atRoot: bool)
    requires sys.store.batchSize > 0 && sys.store.saved == sys.store.db
    ensures var store := After(sys, events, max, atRoot).store; store.saved == store.db
    decreases |events|
  {
    if events != [] {
      NothingPending(Step(sys, events[0], max, atRoot), events[1..], max, atRoot);
    }
  }

  lemma {:induction false} EmptyStoreIsGood(root: Dir, batchSize: nat, now: nat, max: nat, atRoot: bool)
    requires ProperTree(root, atRoot) && batchSize > 0
    ensures Invariant(System(root, StoreState(Db(map[], map[]), Db(map[], map[]), false, 0, batchSize), now),
                      max, atRoot)
  {
  }

  /** From an empty store on, whatever happened before, one more run that ends
      with MU_OK leaves every message it visits stored with its current
      content. */
  lemma {:induction false} LastRunIsComplete(root: Dir, batchSize: nat, now: nat, events: seq<Event>, reindex: bool,
                              w: World, max: nat, atRoot: bool)
    requires ProperTree(root, atRoot) && batchSize > 0
    requires var sys := System(root, StoreState(Db(map[], map[]), Db(map[], map[]), false, 0, batchSize), now);
             var last := After(sys, events, max, atRoot);
             && AllAllowed(sys, events, max, atRoot)
             && Allowed(last, RunIndex(reindex, w), max, atRoot)
             && Run(Config(reindex, max, atRoot), w, last.store, last.now, last.root).1 == MU_OK
    ensures var sys := System(root, StoreState(Db(map[], map[]), Db(map[], map[]), false, 0, batchSize), now);
            var last := After(sys, events, max, atRoot);
            var end := Step(last, RunIndex(reindex, w), max, atRoot);
            AllStored(Visited(end.root, [], None, atRoot, reindex), max, end.store.db)
            && end.store.saved == end.store.db
  {
    var sys := System(root, StoreState(Db(map[], map[]), Db(map[], map[]), false, 0, batchSize), now);
    EmptyStoreIsGood(root, batchSize, now, max, atRoot);
    HistoryKeeps(sys, events, max, atRoot);
    var last := After(sys, events, max, atRoot);
    RunIsSafe(Config(reindex, max, atRoot), w, last.store, last.now, last.root);
  }

  /** Why edits are restricted. A message that was stored by a run that ended
      with MU_OK, and whose path then names another file that is older than
      that run, stays stale through a later incremental run that ends with
      MU_OK. This is what a moved folder brings about. */
  lemma {:induction false} MovedFileStaysStale(cfg: Config, w: World, w': World, store: StoreState, now: nat, root: Dir,
                                               root': Dir, now': nat, it: Item, it': Item)
    requires ProperTree(root, cfg.atRoot) && ProperTree(root', cfg.atRoot) && !cfg.reindex
    requires GoodStore(store, now, Items(root, [], None, cfg.atRoot), cfg.maxFilesize)
    requires it in Visited(root, [], None, cfg.atRoot, false) && Permitted(it, cfg.maxFilesize)
    requires it' in Visited(root', [], None, cfg.atRoot, false) && Permitted(it', cfg.maxFilesize)
    requires it'.Path() == it.Path() && DocFor(it'.meta, it'.mdir) != DocFor(it.meta, it.mdir) && it'.meta.ctime < now
    requires var r := Run(cfg, w, store, now, root);
             r.1 == MU_OK && r.0.now < UINT_RANGE && Run(cfg, w', r.0.store, now', root').1 == MU_OK
    ensures var r := Run(cfg, w, store, now, root).0;
            !Stored(Run(cfg, w', r.store, now', root').0.store.db, it')
  {
    var r := Run(cfg, w, store, now, root).0;
    RunIsSafe(cfg, w, store, now, root);
    DirStamps(cfg, w, IndexState(store, 0, NO_STATS, now, 0), root, [], None, now);
    SamePathParts(it, it');
    assert Stored(r.store.db, it) && StampedSince(r.store.db, it.dir, now);
    RunMissesTheOutdated(cfg, w', r.store, now', root', it');
  }
}
