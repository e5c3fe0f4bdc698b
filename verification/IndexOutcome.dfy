/** When a run succeeds, if nobody stops it and the database does not fail. */
module IndexOutcome {
  import opened Options
  import opened MaildirTree
  import opened MuStore
  import opened IndexRun

  /** Every callback says MU_OK, and no addition fails. */
  ghost predicate Smooth(w: World) {
    forall n :: w.msgCb(n) == MU_OK && w.dirCb(n) == MU_OK && w.adding(n) == Fine
  }

  /** The directories that are gone into can be read to their end. */
  ghost predicate AllListed(d: Dir, full: bool) {
    Shielded(d, full)
    || (d.listed && forall i :: 0 <= i < |d.entries| && d.entries[i].Sub? && !IgnoreDir(d.entries[i].name) ==>
          AllListed(d.entries[i].dir, full))
  }

  ghost predicate EntryListed(e: Entry, full: bool) {
    e.Sub? && !IgnoreDir(e.name) ==> AllListed(e.dir, full)
  }

  ghost predicate AllReadable(V: set<Item>) {
    forall it :: it in V ==> it.meta.readable
  }

  /** How a walk ends, given whether all it goes into can be listed and all it
      visits can be read. */
  ghost predicate EndsAs(r: MuError, listed: bool, readable: bool) {
    (r == MU_OK <==> listed && readable) && (r == MU_ERROR_FILE ==> !listed) && (r == MU_ERROR ==> !readable)
    && r != MU_STOP
  }

  lemma {:induction false} FileSucceeds(cfg: Config, w: World, s: IndexState, path: Path, mdir: Option<string>,
                                        meta: Meta)
    requires s.store.batchSize > 0 && Smooth(w)
    ensures ProcessFile(cfg, w, s, path, mdir, meta).1 == if meta.readable then MU_OK else MU_ERROR
  {
    assert w.msgCb(s.asked) == MU_OK && w.adding(s.asked + 1) == Fine;
  }

  lemma {:induction false} EntrySucceeds(cfg: Config, w: World, s: IndexState, d: Dir, i: nat, path: Path,
                                         mdir: Option<string>)
    requires s.store.batchSize > 0 && Smooth(w) && i < |d.entries|
    ensures EndsAs(WalkEntry(cfg, w, s, d.entries[i], path, mdir).1, EntryListed(d.entries[i], cfg.reindex),
                   AllReadable(EntryVisited(d.entries[i], path, mdir, cfg.atRoot, cfg.reindex)))
    decreases d, 0
  {
    var e := d.entries[i];
    assert e in d.entries;
    if e.File? && IsLeaf(path, cfg.atRoot) && !IgnoreFile(e.name) {
      FileSucceeds(cfg, w, s, path + [e.name], mdir, e.meta);
      assert EntryVisited(e, path, mdir, cfg.atRoot, cfg.reindex) == {Item(path, e.name, mdir, e.meta)};
      assert Item(path, e.name, mdir, e.meta).meta == e.meta;
    } else if e.Sub? && !IgnoreDir(e.name) {
      DirSucceeds(cfg, w, s, e.dir, path + [e.name], Some(MdirFor(mdir, e.name)));
    }
  }

  ghost predicate ListedUpTo(d: Dir, n: nat, full: bool)
    requires n <= |d.entries|
  {
    forall i :: 0 <= i < n ==> EntryListed(d.entries[i], full)
  }

  lemma {:induction false} EntriesSucceed(cfg: Config, w: World, s: IndexState, d: Dir, n: nat, path: Path,
                                          mdir: Option<string>)
    requires s.store.batchSize > 0 && Smooth(w) && n <= |d.entries|
    ensures EndsAs(WalkEntries(cfg, w, s, d, n, path, mdir).1, ListedUpTo(d, n, cfg.reindex),
                   AllReadable(VisitedUpTo(d, n, path, mdir, cfg.atRoot, cfg.reindex)))
    decreases d, 1, n
  {
    if n > 0 {
      EntriesSucceed(cfg, w, s, d, n - 1, path, mdir);
      EntrySucceeds(cfg, w, WalkEntries(cfg, w, s, d, n - 1, path, mdir).0, d, n - 1, path, mdir);
      ReadableBoth(VisitedUpTo(d, n - 1, path, mdir, cfg.atRoot, cfg.reindex),
                   EntryVisited(d.entries[n - 1], path, mdir, cfg.atRoot, cfg.reindex));
      assert ListedUpTo(d, n, cfg.reindex)
        <==> ListedUpTo(d, n - 1, cfg.reindex) && EntryListed(d.entries[n - 1], cfg.reindex);
    }
  }

  lemma ReadableBoth(V: set<Item>, W: set<Item>)
    ensures AllReadable(V + W) <==> AllReadable(V) && AllReadable(W)
  {
  }

  lemma {:induction false} DirSucceeds(cfg: Config, w: World, s: IndexState, d: Dir, path: Path, mdir: Option<string>)
    requires s.store.batchSize > 0 && Smooth(w)
    ensures EndsAs(WalkDir(cfg, w, s, d, path, mdir).1, AllListed(d, cfg.reindex),
                   AllReadable(Visited(d, path, mdir, cfg.atRoot, cfg.reindex)))
    decreases d, 2
  {
    if !Shielded(d, cfg.reindex) {
      var a := EnterDir(w, s, path).0;
      assert w.dirCb(s.asked) == MU_OK;
      EntriesSucceed(cfg, w, a, d, |d.entries|, path, mdir);
      assert w.dirCb(WalkEntries(cfg, w, a, d, |d.entries|, path, mdir).0.asked) == MU_OK;
      assert AllListed(d, cfg.reindex) <==> d.listed && ListedUpTo(d, |d.entries|, cfg.reindex);
    }
  }

  /** If every callback lets it go on and the database does not fail, a run ends
      with MU_OK exactly when the directories it goes into can be listed and the
      messages it visits can be read, and with the error of one that cannot;
      messages that are too big or do not parse are passed over. */
  lemma {:induction false} RunSucceeds(cfg: Config, w: World, store: StoreState, now: nat, root: Dir)
    requires store.batchSize > 0 && Smooth(w)
    ensures var r := Run(cfg, w, store, now, root).1;
            var listed := AllListed(root, cfg.reindex);
            var V := Visited(root, [], None, cfg.atRoot, cfg.reindex);
            && (r == MU_OK <==> listed && forall it :: it in V ==> it.meta.readable)
            && (r == MU_ERROR_FILE ==> !listed)
            && (r == MU_ERROR ==> exists it :: it in V && !it.meta.readable)
            && r != MU_STOP
  {
    DirSucceeds(cfg, w, IndexState(store, 0, NO_STATS, now, 0), root, [], None);
  }

  // ---- what a callback or the database says ----

  /** The n-th question is answered with a refusal, whichever it is. */
  ghost predicate Refused(w: World, n: nat) {
    w.msgCb(n) != MU_OK && w.dirCb(n) != MU_OK && w.adding(n) != Fine
  }

  /** Of the questions from a on and before b only the last was refused, if any,
      and r comes from that. */
  ghost predicate Heeds(w: World, a: nat, b: nat, r: MuError) {
    a <= b
    && forall n :: a <= n < b && Refused(w, n) ==>
         n + 1 == b && r != MU_OK && (r == w.msgCb(n) || r == w.dirCb(n) || r == MU_ERROR)
  }

  lemma HeedsBoth(w: World, a: nat, b: nat, c: nat, r: MuError)
    requires Heeds(w, a, b, MU_OK) && Heeds(w, b, c, r)
    ensures Heeds(w, a, c, r)
  {
  }

  lemma {:induction false} EntryHeeds(cfg: Config, w: World, s: IndexState, d: Dir, i: nat, path: Path,
                                      mdir: Option<string>)
    requires s.store.batchSize > 0 && i < |d.entries|
    ensures var r := WalkEntry(cfg, w, s, d.entries[i], path, mdir); Heeds(w, s.asked, r.0.asked, r.1)
    decreases d, 0
  {
    var e := d.entries[i];
    assert e in d.entries;
    if e.Sub? && !IgnoreDir(e.name) {
      DirHeeds(cfg, w, s, e.dir, path + [e.name], Some(MdirFor(mdir, e.name)));
    }
  }

  lemma {:induction false} EntriesHeed(cfg: Config, w: World, s: IndexState, d: Dir, n: nat, path: Path,
                                       mdir: Option<string>)
    requires s.store.batchSize > 0 && n <= |d.entries|
    ensures var r := WalkEntries(cfg, w, s, d, n, path, mdir); Heeds(w, s.asked, r.0.asked, r.1)
    decreases d, 1, n
  {
    if n > 0 {
      var r := WalkEntries(cfg, w, s, d, n - 1, path, mdir);
      EntriesHeed(cfg, w, s, d, n - 1, path, mdir);
      if r.1 == MU_OK {
        EntryHeeds(cfg, w, r.0, d, n - 1, path, mdir);
        var r' := WalkEntry(cfg, w, r.0, d.entries[n - 1], path, mdir);
        HeedsBoth(w, s.asked, r.0.asked, r'.0.asked, r'.1);
      }
    }
  }

  lemma {:induction false} DirHeeds(cfg: Config, w: World, s: IndexState, d: Dir, path: Path, mdir: Option<string>)
    requires s.store.batchSize > 0
    ensures var r := WalkDir(cfg, w, s, d, path, mdir); Heeds(w, s.asked, r.0.asked, r.1)
    decreases d, 2
  {
    if !Shielded(d, cfg.reindex) {
      var a := EnterDir(w, s, path).0;
      EntriesHeed(cfg, w, a, d, |d.entries|, path, mdir);
    }
  }

  /** A run asks nothing more once it was refused: the refusal is the last
      question, and the result is the answer, or MU_ERROR. */
  lemma {:induction false} RunHeedsRefusals(cfg: Config, w: World, store: StoreState, now: nat, root: Dir, n: nat)
    requires store.batchSize > 0 && w.msgCb(n) != MU_OK && w.dirCb(n) != MU_OK && w.adding(n) != Fine
    ensures var r := Run(cfg, w, store, now, root);
            n < r.0.asked ==>
              n + 1 == r.0.asked && r.1 != MU_OK && (r.1 == w.msgCb(n) || r.1 == w.dirCb(n) || r.1 == MU_ERROR)
  {
    DirHeeds(cfg, w, IndexState(store, 0, NO_STATS, now, 0), root, [], None);
    assert Refused(w, n);
  }
}
