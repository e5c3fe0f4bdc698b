/** One run of the indexer (mu-index.c) over the directory walk
    (mu-maildir.c), as a function of the state it starts from. Callbacks, the
    clock and database failures are answers of the environment. */
module IndexRun {
  import opened Options
  import opened MaildirTree
  import opened MuStore

  datatype MuError = MU_OK | MU_STOP | MU_ERROR | MU_ERROR_FILE

  /** The environment: the answer to the n-th question asked during the run. */
  datatype World = World(
    msgCb: nat -> MuError,
    dirCb: nat -> MuError,
    adding: nat -> Outcome,
    elapsed: nat -> nat)

  datatype Stats = Stats(processed: nat, updated: nat, uptodate: nat, cleanedUp: nat)

  const NO_STATS := Stats(0, 0, 0, 0)

  datatype Config = Config(reindex: bool, maxFilesize: nat, atRoot: bool)

  datatype IndexState = IndexState(store: StoreState, dirstamp: nat, stats: Stats, now: nat, asked: nat)

  const UINT_RANGE := 0x1_0000_0000

  /** The cast to unsigned. */
  function AsUnsigned(t: nat): nat {
    t % UINT_RANGE
  }

  function NeedsIndex(cfg: Config, s: IndexState, path: Path, filestamp: nat): bool {
    cfg.reindex || path !in s.store.db.docs || AsUnsigned(filestamp) >= AsUnsigned(s.dirstamp)
  }

  function DocFor(meta: Meta, mdir: Option<string>): Doc {
    Doc(meta.content, mdir)
  }

  /** insert_or_update_maybe: new state, result, and whether it updated. */
  function InsertOrUpdate(cfg: Config, w: World, s: IndexState, path: Path, mdir: Option<string>, meta: Meta)
    : (IndexState, MuError, bool)
    requires s.store.batchSize > 0
  {
    if !NeedsIndex(cfg, s, path, meta.ctime) then (s, MU_OK, false)
    else if !meta.parseable then (s, MU_OK, false)
    else
      var r := AddMsg(s.store, path, DocFor(meta, mdir), w.adding(s.asked));
      var s1 := s.(store := r.0, asked := s.asked + 1);
      if r.1 then (s1, MU_OK, true) else (s1, MU_ERROR, false)
  }

  /** on_run_maildir_msg */
  function OnMsg(cfg: Config, w: World, s: IndexState, path: Path, mdir: Option<string>, meta: Meta)
    : (IndexState, MuError)
    requires s.store.batchSize > 0
  {
    if meta.size > cfg.maxFilesize then (s, MU_OK)
    else
      var answer := w.msgCb(s.asked);
      var s1 := s.(asked := s.asked + 1);
      if answer != MU_OK then (s1, answer)
      else
        var r := InsertOrUpdate(cfg, w, s1, path, mdir, meta);
        if r.1 != MU_OK then (r.0, r.1)
        else
          var st := r.0.stats.(processed := r.0.stats.processed + 1);
          (r.0.(stats := if r.2 then st.(updated := st.updated + 1) else st.(uptodate := st.uptodate + 1)), MU_OK)
  }

  /** process_file */
  function ProcessFile(cfg: Config, w: World, s: IndexState, path: Path, mdir: Option<string>, meta: Meta)
    : (IndexState, MuError)
    requires s.store.batchSize > 0
  {
    if !meta.readable then (s, MU_ERROR) else OnMsg(cfg, w, s, path, mdir, meta)
  }

  /** on_run_maildir_dir, entering */
  function EnterDir(w: World, s: IndexState, path: Path): (IndexState, MuError) {
    (s.(dirstamp := GetTimestamp(s.store, path), asked := s.asked + 1), w.dirCb(s.asked))
  }

  /** on_run_maildir_dir, leaving: the directory gets the time of day. */
  function LeaveDir(w: World, s: IndexState, path: Path): (IndexState, MuError) {
    var now := s.now + w.elapsed(s.asked);
    (s.(store := SetTimestamp(s.store, path, now), now := now, asked := s.asked + 1), w.dirCb(s.asked))
  }

  /** process_dir_entry */
  function WalkEntry(cfg: Config, w: World, s: IndexState, e: Entry, path: Path, mdir: Option<string>)
    : (r: (IndexState, MuError))
    requires s.store.batchSize > 0
    ensures r.0.store.batchSize == s.store.batchSize
    decreases e, 0
  {
    match e
    case File(name, meta) =>
      if IgnoreFile(name) || !IsLeaf(path, cfg.atRoot) then (s, MU_OK)
      else ProcessFile(cfg, w, s, path + [name], mdir, meta)
    case Sub(name, d) =>
      if IgnoreDir(name) then (s, MU_OK) else WalkDir(cfg, w, s, d, path + [name], Some(MdirFor(mdir, name)))
    case Special(_) => (s, MU_OK)
  }

  /** The loop of process_dir_entries, up to entry n: the first result other
      than MU_OK ends it. */
  function WalkEntries(cfg: Config, w: World, s: IndexState, d: Dir, n: nat, path: Path, mdir: Option<string>)
    : (r: (IndexState, MuError))
    requires s.store.batchSize > 0 && n <= |d.entries|
    ensures r.0.store.batchSize == s.store.batchSize
    decreases d, 1, n
  {
    if n == 0 then (s, MU_OK)
    else
      var r := WalkEntries(cfg, w, s, d, n - 1, path, mdir);
      assert d.entries[n - 1] in d.entries;
      if r.1 != MU_OK then r else WalkEntry(cfg, w, r.0, d.entries[n - 1], path, mdir)
  }

  /** process_dir_entries: nothing is processed unless the whole directory
      could be read. */
  function WalkListing(cfg: Config, w: World, s: IndexState, d: Dir, path: Path, mdir: Option<string>)
    : (r: (IndexState, MuError))
    requires s.store.batchSize > 0
    ensures r.0.store.batchSize == s.store.batchSize
    decreases d, 2
  {
    if !d.listed then (s, MU_ERROR_FILE) else WalkEntries(cfg, w, s, d, |d.entries|, path, mdir)
  }

  /** process_dir */
  function WalkDir(cfg: Config, w: World, s: IndexState, d: Dir, path: Path, mdir: Option<string>)
    : (r: (IndexState, MuError))
    requires s.store.batchSize > 0
    ensures r.0.store.batchSize == s.store.batchSize
    decreases d, 3
  {
    if Shielded(d, cfg.reindex) then (s, MU_OK)
    else
      var a := EnterDir(w, s, path);
      if a.1 != MU_OK then a
      else
        var b := WalkListing(cfg, w, a.0, d, path, mdir);
        if b.1 != MU_OK then b else LeaveDir(w, b.0, path)
  }

  /** mu_index_run: the walk, then a flush whatever its result. */
  function Run(cfg: Config, w: World, store: StoreState, now: nat, root: Dir): (r: (IndexState, MuError))
    requires store.batchSize > 0
    ensures r.0.store.batchSize == store.batchSize
  {
    var r := WalkDir(cfg, w, IndexState(store, 0, NO_STATS, now, 0), root, [], None);
    (r.0.(store := Flush(r.0.store)), r.1)
  }

  /** foreach_doc_cb, for one document; `readable` is access(2). */
  function CleanOne(w: World, readable: Path -> bool, s: IndexState, path: Path): (IndexState, MuError) {
    var gone := !readable(path);
    if gone && w.adding(s.asked) != Fine then (s.(asked := s.asked + 1), MU_ERROR)
    else
      var s1 := if gone then s.(store := RemovePath(s.store, path),
                                stats := s.stats.(cleanedUp := s.stats.cleanedUp + 1)) else s;
      (s1.(stats := s1.stats.(processed := s1.stats.processed + 1), asked := s.asked + 1), w.msgCb(s.asked))
  }

  /** The loop over the documents `order[i..]`; a failing removal or a callback
      ends it. */
  function CleanupFrom(w: World, readable: Path -> bool, s: IndexState, order: seq<Path>, i: nat): (IndexState, MuError)
    requires i <= |order|
    decreases |order| - i
  {
    if i == |order| then (s, MU_OK)
    else
      var r := CleanOne(w, readable, s, order[i]);
      if r.1 != MU_OK then r else CleanupFrom(w, readable, r.0, order, i + 1)
  }

  /** mu_index_cleanup */
  function Cleanup(w: World, readable: Path -> bool, s: IndexState, order: seq<Path>): (IndexState, MuError) {
    var r := CleanupFrom(w, readable, s, order, 0);
    (r.0.(store := Flush(r.0.store)), r.1)
  }
}
