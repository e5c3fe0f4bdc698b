/** What the store has saved at any time: whole batches, and what was flushed. */
module StoreBatches {
  import opened MaildirTree
  import opened MuStore
  import opened Arithmetic

  datatype Addition = Addition(path: Path, doc: Doc)

  /** The documents after some additions; a later one for a path wins. */
  function WithAll(docs: map<Path, Doc>, adds: seq<Addition>): map<Path, Doc> {
    if adds == [] then docs
    else
      var last := adds[|adds| - 1];
      WithAll(docs, adds[..|adds| - 1])[last.path := last.doc]
  }

  /** The store after some messages were added without a failure. */
  function AddAll(s: StoreState, adds: seq<Addition>): (r: StoreState)
    requires s.batchSize > 0
    ensures r.batchSize == s.batchSize
  {
    if adds == [] then s
    else
      var last := adds[|adds| - 1];
      AddMsg(AddAll(s, adds[..|adds| - 1]), last.path, last.doc, Fine).0
  }

  /** After `adds`, the first k are saved and p are pending. */
  ghost predicate Batched(s: StoreState, adds: seq<Addition>, r: StoreState, k: nat, p: nat) {
    k <= |adds|
    && r.db == s.db.(docs := WithAll(s.db.docs, adds)) && r.saved == s.db.(docs := WithAll(s.db.docs, adds[..k]))
    && (r.inTransaction <==> p > 0) && r.processed == s.processed + |adds|
  }

  lemma {:induction false} OneMore(s: StoreState, adds: seq<Addition>, r: StoreState, r': StoreState, k: nat, p: nat)
    requires adds != [] && Batched(s, adds[..|adds| - 1], r, k, p)
    requires r'.db == r.db.(docs := r.db.docs[adds[|adds| - 1].path := adds[|adds| - 1].doc])
    requires r'.processed == r.processed + 1
    ensures r'.saved == r.saved && r'.inTransaction ==> Batched(s, adds, r', k, p + 1)
    ensures r'.saved == r'.db && !r'.inTransaction ==> Batched(s, adds, r', |adds|, 0)
  {
    assert adds[..|adds| - 1][..k] == adds[..k];
    assert adds[..|adds|] == adds;
  }

  ghost predicate AtBatch(s: StoreState, p: nat) {
    s.batchSize > 0 && s.processed % s.batchSize == p
  }

  /** After q batches and p more. */
  lemma {:induction false} BatchesAndMore(s: StoreState, adds: seq<Addition>) returns (q: nat, p: nat)
    requires AtBatch(s, 0) && !s.inTransaction && s.saved == s.db
    ensures p < s.batchSize && |adds| == q * s.batchSize + p
    ensures p <= |adds| && Batched(s, adds, AddAll(s, adds), |adds| - p, p) && AtBatch(AddAll(s, adds), p)
    decreases |adds|
  {
    if adds == [] {
      assert adds[..0] == adds;
      q, p := 0, 0;
    } else {
      q, p := BatchesAndMore(s, adds[..|adds| - 1]);
      StepBatched(s, adds, |adds| - 1 - p, p);
      TimesGrows(q + 1, q + 1, s.batchSize);
      if p == s.batchSize - 1 {
        q, p := q + 1, 0;
      } else {
        p := p + 1;
      }
    }
  }

  /** From a flushed store at the start of a batch: readers see every message at
      once, what is saved is all whole batches, and a transaction is open while
      a batch is begun. */
  lemma {:induction false} WholeBatchesAreSaved(s: StoreState, adds: seq<Addition>)
    requires AtBatch(s, 0) && !s.inTransaction && s.saved == s.db
    ensures var pending := |adds| % s.batchSize;
            pending <= |adds| && Batched(s, adds, AddAll(s, adds), |adds| - pending, pending)
  {
    var q, p := BatchesAndMore(s, adds);
    RemainderOf(|adds|, s.batchSize, q, p);
  }

  lemma {:induction false} StepBatched(s: StoreState, adds: seq<Addition>, k: nat, p: nat)
    requires s.batchSize > 0 && adds != []
    requires Batched(s, adds[..|adds| - 1], AddAll(s, adds[..|adds| - 1]), k, p) && k + p == |adds| - 1
    requires AtBatch(AddAll(s, adds[..|adds| - 1]), p)
    ensures var r := AddAll(s, adds);
            if p == s.batchSize - 1 then Batched(s, adds, r, |adds|, 0) && AtBatch(r, 0)
            else Batched(s, adds, r, k, p + 1) && AtBatch(r, p + 1)
  {
    var r, last := AddAll(s, adds[..|adds| - 1]), adds[|adds| - 1];
    if p == 0 { assert adds[..|adds| - 1][..k] == adds[..|adds| - 1]; }
    AddOne(r, last, p);
    OneMore(s, adds, r, AddMsg(r, last.path, last.doc, Fine).0, k, p);
  }

  /** One addition, with p messages pending. */
  lemma {:induction false} AddOne(s: StoreState, add: Addition, p: nat)
    requires s.batchSize > 0 && s.processed % s.batchSize == p
    requires (s.inTransaction <==> p > 0) && (p == 0 ==> s.saved == s.db)
    ensures var r := AddMsg(s, add.path, add.doc, Fine).0;
            && r.db == s.db.(docs := s.db.docs[add.path := add.doc])
            && r.processed == s.processed + 1
            && (if p == s.batchSize - 1 then r.saved == r.db && !r.inTransaction && r.processed % s.batchSize == 0
                else r.saved == s.saved && r.inTransaction && r.processed % s.batchSize == p + 1)
  {
    NextRemainder(s.processed, s.batchSize);
  }

  /** A failing addition takes readers back to what was saved, unless it failed
      before a transaction was open, and leaves none open. */
  lemma {:induction false} FailureRollsBack(s: StoreState, path: Path, doc: Doc, how: Outcome)
    requires s.batchSize > 0 && how != Fine
    ensures var r := AddMsg(s, path, doc, how);
            && !r.1 && !r.0.inTransaction && r.0.processed == s.processed
            && (if s.inTransaction then r.0.db == s.saved && r.0.saved == s.saved
                else r.0.db == s.db && (r.0.saved == s.saved || r.0.saved == s.db))
  {
  }
}
