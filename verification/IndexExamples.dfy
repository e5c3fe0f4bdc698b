/** Two small histories, computed: what a crash inside a run loses, and a
    message that stays stale because a folder was moved over it. */
module IndexExamples {
  import opened Options
  import opened MaildirTree
  import opened MuStore
  import opened IndexRun
  import opened IndexSafety
  import opened IndexHistory

  function Message(content: string): Meta {
    Meta(0, 1, content, true, true)
  }

  function Cur(content: string): Dir {
    Dir([File("m", Message(content))], true, true)
  }

  /** A maildir with one message. */
  function OneMessage(content: string): Dir {
    Dir([Sub("cur", Cur(content))], true, true)
  }

  const MESSAGE: Path := ["cur", "m"]

  function TheItem(content: string): Item {
    Item(["cur"], "m", Some("/"), Message(content))
  }

  /** Nothing fails, nobody stops the run, and a second passes at every stamp. */
  const SMOOTH := World(_ => MU_OK, _ => MU_OK, _ => Fine, _ => 1)

  const EMPTY := StoreState(Db(map[], map[]), Db(map[], map[]), false, 0, DEFAULT_BATCH_SIZE)

  const PLAIN := Config(false, 1000, false)

  // ---- the tree ----

  lemma Names()
    ensures !IgnoreFile("m") && !IgnoreDir("cur") && MdirFor(None, "cur") == "/" && [] + ["cur"] == ["cur"]
  {
    assert "m"[0] != "#"[0] && "m"[0] != "dovecot"[0] && "m"[0] != "."[0] && "m"[0] != "core"[0];
    assert "cur"[0] != "."[0];
  }

  lemma CurItems(content: string)
    ensures Items(Cur(content), ["cur"], Some("/"), false) == {TheItem(content)}
    ensures VisitedUpTo(Cur(content), 1, ["cur"], Some("/"), false, false) == {TheItem(content)}
  {
    var d := Cur(content);
    Names();
    assert ItemsUpTo(d, 0, ["cur"], Some("/"), false) == {};
    assert EntryItems(d.entries[0], ["cur"], Some("/"), false) == {TheItem(content)};
    assert VisitedUpTo(d, 0, ["cur"], Some("/"), false, false) == {};
  }

  lemma RootItems(content: string)
    ensures Items(OneMessage(content), [], None, false) == {TheItem(content)}
    ensures Visited(OneMessage(content), [], None, false, false) == {TheItem(content)}
  {
    var d := OneMessage(content);
    CurItems(content);
    Names();
    assert ItemsUpTo(d, 0, [], None, false) == {};
    assert VisitedUpTo(d, 0, [], None, false, false) == {};
    assert d.entries[0] == Sub("cur", Cur(content));
    assert EntryItems(d.entries[0], [], None, false) == {TheItem(content)};
    NoMarkers(content);
    assert Visited(Cur(content), ["cur"], Some("/"), false, false) == {TheItem(content)};
    assert EntryVisited(d.entries[0], [], None, false, false) == {TheItem(content)};
  }

  lemma NoMarkers(content: string)
    ensures !Shielded(OneMessage(content), false) && !Shielded(Cur(content), false)
  {
    assert "cur"[0] != '.' && "m"[0] != '.';
  }

  lemma Proper(content: string)
    ensures ProperTree(OneMessage(content), false)
  {
    RootItems(content);
    assert WellFormed(Cur(content));
    assert LeavesAreFlat(Cur(content), ["cur"], false);
  }

  // ---- a smooth run over it ----

  /** What becomes of the one message file. */
  function OnMessage(s: IndexState, content: string): (IndexState, MuError)
    requires s.store.batchSize > 0
  {
    OnMsg(PLAIN, SMOOTH, s, MESSAGE, Some("/"), Message(content))
  }

  lemma SmoothMessage(s: IndexState, content: string)
    requires s.store.batchSize > 0
    ensures OnMessage(s, content).1 == MU_OK && OnMessage(s, content).0.now == s.now
  {
  }

  lemma SmoothFile(a: IndexState, content: string)
    requires a.store.batchSize > 0
    ensures WalkListing(PLAIN, SMOOTH, a, Cur(content), ["cur"], Some("/")) == OnMessage(a, content)
  {
    var d := Cur(content);
    Names();
    assert ["cur"] + ["m"] == MESSAGE;
    assert WalkEntries(PLAIN, SMOOTH, a, d, 0, ["cur"], Some("/")) == (a, MU_OK);
    assert d.entries[0] == File("m", Message(content));
    assert WalkEntry(PLAIN, SMOOTH, a, d.entries[0], ["cur"], Some("/")) == OnMessage(a, content);
  }

  lemma SmoothCur(s: IndexState, content: string)
    requires s.store.batchSize > 0
    ensures var b := OnMessage(EnterDir(SMOOTH, s, ["cur"]).0, content);
            && b.1 == MU_OK && b.0.now == s.now
            && WalkDir(PLAIN, SMOOTH, s, Cur(content), ["cur"], Some("/")) == LeaveDir(SMOOTH, b.0, ["cur"])
  {
    var a := EnterDir(SMOOTH, s, ["cur"]).0;
    NoMarkers(content);
    SmoothMessage(a, content);
    SmoothFile(a, content);
  }

  lemma SmoothEntry(a: IndexState, content: string)
    requires a.store.batchSize > 0
    ensures WalkListing(PLAIN, SMOOTH, a, OneMessage(content), [], None)
         == WalkDir(PLAIN, SMOOTH, a, Cur(content), ["cur"], Some("/"))
  {
    var d := OneMessage(content);
    Names();
    assert WalkEntries(PLAIN, SMOOTH, a, d, 0, [], None) == (a, MU_OK);
    assert d.entries[0] == Sub("cur", Cur(content));
    assert WalkEntry(PLAIN, SMOOTH, a, d.entries[0], [], None)
        == WalkDir(PLAIN, SMOOTH, a, Cur(content), ["cur"], Some("/"));
  }

  lemma SmoothWalk(s: IndexState, content: string)
    requires s.store.batchSize > 0
    ensures var a := EnterDir(SMOOTH, s, []).0;
            var r := WalkDir(PLAIN, SMOOTH, s, OneMessage(content), [], None);
            && r == LeaveDir(SMOOTH, WalkDir(PLAIN, SMOOTH, a, Cur(content), ["cur"], Some("/")).0, [])
            && r.1 == MU_OK && r.0.now == s.now + 2
  {
    var a := EnterDir(SMOOTH, s, []).0;
    NoMarkers(content);
    SmoothCur(a, content);
    SmoothEntry(a, content);
  }

  // ---- the histories ----

  /** A crash at the end of a first run, before the flush, loses the message,
      and the stamp with it; the run itself would have stored both. */
  lemma {:induction false} CrashLosesMessageAndStamp(content: string)
    ensures var sys := System(OneMessage(content), EMPTY, 1);
            var done := Step(sys, RunIndex(false, SMOOTH), 1000, false).store.db;
            var lost := Step(sys, CrashInRun(false, SMOOTH), 1000, false).store.db;
            && Stored(done, TheItem(content)) && ["cur"] in done.stamps
            && MESSAGE !in lost.docs && ["cur"] !in lost.stamps
  {
    var s := IndexState(EMPTY, 0, NO_STATS, 1, 0);
    var a := EnterDir(SMOOTH, s, []).0;
    SmoothWalk(s, content);
    SmoothCur(a, content);
    assert TheItem(content).Path() == MESSAGE;
  }

  /** Another message, as old as the first, is moved to its path between two
      runs: the second run succeeds and leaves the old content in the store. */
  lemma {:induction false} MovedMessageStaysStale(content: string, other: string)
    requires content != other
    ensures var first := Step(System(OneMessage(content), EMPTY, 1), RunIndex(false, SMOOTH), 1000, false);
            var moved := Step(first, Edit(OneMessage(other), first.now), 1000, false);
            var again := Run(PLAIN, SMOOTH, moved.store, moved.now, moved.root);
            && again.1 == MU_OK && !Stored(again.0.store.db, TheItem(other))
  {
    var s := IndexState(EMPTY, 0, NO_STATS, 1, 0);
    SmoothWalk(s, content);
    var r := Run(PLAIN, SMOOTH, EMPTY, 1, OneMessage(content)).0;
    SmoothWalk(IndexState(r.store, 0, NO_STATS, r.now, 0), other);
    Proper(content);
    Proper(other);
    RootItems(content);
    RootItems(other);
    MovedFileStaysStale(PLAIN, SMOOTH, SMOOTH, EMPTY, 1, OneMessage(content), OneMessage(other), r.now,
                        TheItem(content), TheItem(other));
  }
}
