/** The store: a database of documents and directory stamps, written in
    batches (mu-store-write.cc, mu-store-priv.hh). */
module MuStore {
  import opened Options
  import opened MaildirTree

  datatype Doc = Doc(content: string, mdir: Option<string>)

  datatype Db = Db(docs: map<Path, Doc>, stamps: map<Path, nat>)

  /** Where an exception of the database strikes while a message is added. */
  datatype Outcome = Fine | FailsBeforeBegin | FailsInTransaction

  /** `db` is what readers see; `saved` is what survives a crash, and what
      cancelling a transaction goes back to. */
  datatype StoreState = StoreState(db: Db, saved: Db, inTransaction: bool, processed: nat, batchSize: nat)

  const DEFAULT_BATCH_SIZE := 30000

  /** Starting a transaction first commits what is pending outside one. */
  function Begin(s: StoreState): StoreState {
    s.(inTransaction := true, saved := s.db)
  }

  function Commit(s: StoreState): StoreState {
    s.(inTransaction := false, saved := s.db)
  }

  function Rollback(s: StoreState): StoreState {
    s.(inTransaction := false, db := s.saved)
  }

  /** mu_store_flush */
  function Flush(s: StoreState): StoreState {
    s.(inTransaction := false, saved := s.db)
  }

  /** mu_store_add_msg */
  function AddMsg(s: StoreState, path: Path, doc: Doc, how: Outcome): (r: (StoreState, bool))
    requires s.batchSize > 0
  {
    if how.FailsBeforeBegin? then (if s.inTransaction then Rollback(s) else s, false)
    else
      var s1 := if s.inTransaction then s else Begin(s);
      if how.FailsInTransaction? then (Rollback(s1), false)
      else
        var s2 := s1.(db := s1.db.(docs := s1.db.docs[path := doc]), processed := s1.processed + 1);
        (if s2.processed % s2.batchSize == 0 then Commit(s2) else s2, true)
  }

  /** mu_store_remove_path */
  function RemovePath(s: StoreState, path: Path): StoreState {
    s.(db := s.db.(docs := s.db.docs - {path}), processed := s.processed + 1)
  }

  /** mu_store_set_timestamp */
  function SetTimestamp(s: StoreState, path: Path, stamp: nat): StoreState {
    s.(db := s.db.(stamps := s.db.stamps[path := stamp]))
  }

  /** mu_store_get_timestamp: 0 when there is none. */
  function GetTimestamp(s: StoreState, path: Path): nat {
    if path in s.db.stamps then s.db.stamps[path] else 0
  }

  /** A crash: the process starts again on what was saved. */
  function Crash(s: StoreState): StoreState {
    s.(db := s.saved, inTransaction := false, processed := 0)
  }

  class Store {
    var db: Db
    var saved: Db
    var inTransaction: bool
    var processed: nat
    var batchSize: nat

    ghost function State(): StoreState
      reads this
    {
      StoreState(db, saved, inTransaction, processed, batchSize)
    }

    constructor (db: Db)
      ensures State() == StoreState(db, db, false, 0, DEFAULT_BATCH_SIZE)
    {
      this.db, this.saved := db, db;
      inTransaction, processed, batchSize := false, 0, DEFAULT_BATCH_SIZE;
    }

    /** set_batch_size: 0 means the default. */
    method SetBatchSize(n: nat)
      modifies this`batchSize
      ensures batchSize == if n == 0 then DEFAULT_BATCH_SIZE else n
    {
      batchSize := if n == 0 then DEFAULT_BATCH_SIZE else n;
    }

    method BeginTransaction()
      modifies this
      ensures State() == Begin(old(State()))
    {
      saved := db;
      inTransaction := true;
    }

    method CommitTransaction()
      modifies this
      ensures State() == Commit(old(State()))
    {
      inTransaction := false;
      saved := db;
    }

    method RollbackTransaction()
      modifies this
      ensures State() == Rollback(old(State()))
    {
      inTransaction := false;
      db := saved;
    }

    method FlushStore()
      modifies this
      ensures State() == Flush(old(State()))
    {
      if inTransaction {
        CommitTransaction();
      }
      saved := db;
    }

    method Add(path: Path, doc: Doc, how: Outcome) returns (ok: bool)
      requires batchSize > 0
      modifies this
      ensures (State(), ok) == AddMsg(old(State()), path, doc, how)
    {
      if how != FailsBeforeBegin {
        if !inTransaction {
          BeginTransaction();
        }
        if how != FailsInTransaction {
          db := db.(docs := db.docs[path := doc]);
          processed := processed + 1;
          if processed % batchSize == 0 {
            CommitTransaction();
          }
          return true;
        }
      }
      if inTransaction {
        RollbackTransaction();
      }
      return false;
    }

    method Remove(path: Path)
      modifies this
      ensures State() == RemovePath(old(State()), path)
    {
      db := db.(docs := db.docs - {path});
      processed := processed + 1;
    }

    method SetStamp(path: Path, stamp: nat)
      modifies this
      ensures State() == SetTimestamp(old(State()), path, stamp)
    {
      db := db.(stamps := db.stamps[path := stamp]);
    }
  }
}
