/** The indexer as the objects that carry out a run: each method does to the
    store, the directory stamp and the statistics what the run is specified
    to do. */
module Indexer {
  import opened Options
  import opened MaildirTree
  import opened MuStore
  import opened IndexRun

  /** The callback data of mu-index.c, with the environment it meets. */
  class CallbackData {
    const cfg: Config
    const world: World
    const store: Store
    var dirstamp: nat
    var stats: Stats
    var now: nat
    var asked: nat

    /** init_cb_data */
    constructor (cfg: Config, world: World, store: Store, now: nat)
      ensures this.cfg == cfg && this.world == world && this.store == store
      ensures dirstamp == 0 && stats == NO_STATS && this.now == now && asked == 0
    {
      this.cfg, this.world, this.store, this.now := cfg, world, store, now;
      dirstamp, stats, asked := 0, NO_STATS, 0;
    }

    ghost function State(): IndexState
      reads this, store
    {
      IndexState(store.State(), dirstamp, stats, now, asked)
    }

    /** insert_or_update_maybe */
    method InsertOrUpdateMaybe(path: Path, mdir: Option<string>, meta: Meta) returns (result: MuError, updated: bool)
      requires store.batchSize > 0
      modifies this, store
      ensures (State(), result, updated) == InsertOrUpdate(cfg, world, old(State()), path, mdir, meta)
    {
      updated := false;
      if !cfg.reindex && path in store.db.docs && AsUnsigned(meta.ctime) < AsUnsigned(dirstamp) {
        return MU_OK, false;
      }
      if !meta.parseable {
        return MU_OK, false;
      }
      var ok := store.Add(path, DocFor(meta, mdir), world.adding(asked));
      asked := asked + 1;
      if !ok {
        return MU_ERROR, false;
      }
      return MU_OK, true;
    }

    /** on_run_maildir_msg */
    method OnRunMaildirMsg(path: Path, mdir: Option<string>, meta: Meta) returns (result: MuError)
      requires store.batchSize > 0
      modifies this, store
      ensures (State(), result) == OnMsg(cfg, world, old(State()), path, mdir, meta)
    {
      if meta.size > cfg.maxFilesize {
        return MU_OK;
      }
      result := world.msgCb(asked);
      asked := asked + 1;
      if result != MU_OK {
        return;
      }
      var updated;
      result, updated := InsertOrUpdateMaybe(path, mdir, meta);
      if result == MU_OK {
        stats := stats.(processed := stats.processed + 1);
        stats := if updated then stats.(updated := stats.updated + 1) else stats.(uptodate := stats.uptodate + 1);
      }
    }

    /** on_run_maildir_dir */
    method OnRunMaildirDir(path: Path, enter: bool) returns (result: MuError)
      requires store.batchSize > 0
      modifies this, store
      ensures (State(), result) == if enter then EnterDir(world, old(State()), path)
                                   else LeaveDir(world, old(State()), path)
    {
      if enter {
        dirstamp := if path in store.db.stamps then store.db.stamps[path] else 0;
      } else {
        now := now + world.elapsed(asked);
        store.SetStamp(path, now);
      }
      result := world.dirCb(asked);
      asked := asked + 1;
    }

    /** process_dir_entry */
    method ProcessDirEntry(e: Entry, path: Path, mdir: Option<string>) returns (result: MuError)
      requires store.batchSize > 0
      modifies this, store
      ensures (State(), result) == WalkEntry(cfg, world, old(State()), e, path, mdir)
      decreases e, 0
    {
      match e
      case File(name, meta) =>
        if IgnoreFile(name) || !IsLeaf(path, cfg.atRoot) {
          return MU_OK;
        }
        if !meta.readable {
          return MU_ERROR;
        }
        result := OnRunMaildirMsg(path + [name], mdir, meta);
      case Sub(name, d) =>
        if IgnoreDir(name) {
          return MU_OK;
        }
        result := ProcessDir(d, path + [name], Some(MdirFor(mdir, name)));
      case Special(_) =>
        result := MU_OK;
    }

    /** process_dir_entries */
    method ProcessDirEntries(d: Dir, path: Path, mdir: Option<string>) returns (result: MuError)
      requires store.batchSize > 0
      modifies this, store
      ensures (State(), result) == WalkListing(cfg, world, old(State()), d, path, mdir)
      decreases d, 1
    {
      if !d.listed {
        return MU_ERROR_FILE;
      }
      result := MU_OK;
      var i := 0;
      while i < |d.entries| && result == MU_OK
        invariant 0 <= i <= |d.entries| && store.batchSize > 0
        invariant (State(), result) == WalkEntries(cfg, world, old(State()), d, i, path, mdir)
      {
        assert d.entries[i] in d.entries;
        result := ProcessDirEntry(d.entries[i], path, mdir);
        i := i + 1;
      }
      StoppedStays(cfg, world, old(State()), d, i, |d.entries|, path, mdir);
    }

    /** process_dir */
    method ProcessDir(d: Dir, path: Path, mdir: Option<string>) returns (result: MuError)
      requires store.batchSize > 0
      modifies this, store
      ensures (State(), result) == WalkDir(cfg, world, old(State()), d, path, mdir)
      decreases d, 2
    {
      if Contains(d, NOINDEX) || (!cfg.reindex && Contains(d, NOUPDATE)) {
        return MU_OK;
      }
      if !d.readable {
        return MU_OK;
      }
      result := OnRunMaildirDir(path, true);
      if result != MU_OK {
        return;
      }
      result := ProcessDirEntries(d, path, mdir);
      if result == MU_OK {
        result := OnRunMaildirDir(path, false);
      }
    }
  }

  lemma {:induction false} StoppedStays(cfg: Config, w: World, s: IndexState, d: Dir, i: nat, n: nat, path: Path,
                              mdir: Option<string>)
    requires s.store.batchSize > 0 && i <= n <= |d.entries|
    requires WalkEntries(cfg, w, s, d, i, path, mdir).1 != MU_OK || i == n
    ensures WalkEntries(cfg, w, s, d, n, path, mdir) == WalkEntries(cfg, w, s, d, i, path, mdir)
    decreases n
  {
    if i < n {
      StoppedStays(cfg, w, s, d, i, n - 1, path, mdir);
    }
  }

  /** mu_index_run: the store is flushed whatever the walk returned. */
  method IndexRunOnce(store: Store, cfg: Config, world: World, now: nat, root: Dir)
    returns (result: MuError, data: CallbackData)
    requires store.batchSize > 0
    modifies store
    ensures fresh(data) && data.store == store
    ensures (data.State(), result) == Run(cfg, world, old(store.State()), now, root)
  {
    data := new CallbackData(cfg, world, store, now);
    result := data.ProcessDir(root, [], None);
    store.FlushStore();
  }

  /** mu_index_cleanup over the documents of the store, in any order. */
  method IndexCleanup(data: CallbackData, readable: Path -> bool, order: seq<Path>) returns (result: MuError)
    modifies data, data.store
    ensures (data.State(), result) == Cleanup(data.world, readable, old(data.State()), order)
  {
    result := MU_OK;
    var i := 0;
    while i < |order| && result == MU_OK
      invariant 0 <= i <= |order|
      invariant if result == MU_OK
                then CleanupFrom(data.world, readable, data.State(), order, i)
                    == CleanupFrom(data.world, readable, old(data.State()), order, 0)
                else (data.State(), result) == CleanupFrom(data.world, readable, old(data.State()), order, 0)
      decreases |order| - i, result == MU_OK
    {
      result := ForeachDoc(data, readable, order[i]);
      i := i + 1;
    }
    data.store.FlushStore();
  }

  /** foreach_doc_cb */
  method ForeachDoc(data: CallbackData, readable: Path -> bool, path: Path) returns (result: MuError)
    modifies data, data.store
    ensures (data.State(), result) == CleanOne(data.world, readable, old(data.State()), path)
  {
    if !readable(path) {
      if data.world.adding(data.asked) != Fine {
        data.asked := data.asked + 1;
        return MU_ERROR;
      }
      data.store.Remove(path);
      data.stats := data.stats.(cleanedUp := data.stats.cleanedUp + 1);
    }
    data.stats := data.stats.(processed := data.stats.processed + 1);
    result := data.world.msgCb(data.asked);
    data.asked := data.asked + 1;
  }
}
