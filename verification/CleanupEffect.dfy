/** Exactly what a cleanup does, and where it stops. */
module CleanupEffect {
  import opened MaildirTree
  import opened MuStore
  import opened IndexRun

  /** How many of the paths i to k name no readable file. */
  ghost function Gone(readable: Path -> bool, order: seq<Path>, i: nat, k: nat): nat
    requires i <= k <= |order|
    decreases k - i
  {
    if i == k then 0 else (if readable(order[i]) then 0 else 1) + Gone(readable, order, i + 1, k)
  }

  /** The cleanup looked at the paths i to k: of those it removed the ones
      without a readable file, and changed nothing else but the counters. */
  ghost predicate LookedAt(readable: Path -> bool, order: seq<Path>, i: nat, k: nat, s: IndexState, r: IndexState)
    requires i <= k <= |order|
  {
    (forall p :: p in r.store.db.docs <==> p in s.store.db.docs && (readable(p) || p !in order[i..k]))
    && (forall p :: p in r.store.db.docs ==> p in s.store.db.docs && r.store.db.docs[p] == s.store.db.docs[p])
    && r.stats == s.stats.(processed := s.stats.processed + k - i,
                           cleanedUp := s.stats.cleanedUp + Gone(readable, order, i, k))
    && r.store == s.store.(db := s.store.db.(docs := r.store.db.docs),
                           processed := s.store.processed + Gone(readable, order, i, k))
  }

  /** Every callback from question a on agreed to go on, n times. */
  ghost predicate GoOn(w: World, a: nat, n: nat) {
    forall j :: a <= j < a + n ==> w.msgCb(j) == MU_OK
  }

  /** It stops at path k for one of three reasons: there is no more, the
      callback after the last one said so, or removing the next one failed. */
  ghost predicate StopsAt(w: World, readable: Path -> bool, order: seq<Path>, i: nat, k: nat, a: nat, result: MuError)
    requires i <= k <= |order|
  {
    if result == MU_OK then k == |order| && GoOn(w, a, k - i)
    else if k > i && w.msgCb(a + k - i - 1) != MU_OK then result == w.msgCb(a + k - i - 1) && GoOn(w, a, k - i - 1)
    else GoOn(w, a, k - i) && result == MU_ERROR && k < |order| && !readable(order[k]) && w.adding(a + k - i) != Fine
  }

  lemma {:induction false} CleanupExact(w: World, readable: Path -> bool, s: IndexState, order: seq<Path>, i: nat)
    returns (k: nat)
    requires i <= |order|
    ensures i <= k <= |order|
    ensures LookedAt(readable, order, i, k, s, CleanupFrom(w, readable, s, order, i).0)
    ensures StopsAt(w, readable, order, i, k, s.asked, CleanupFrom(w, readable, s, order, i).1)
    decreases |order| - i
  {
    if i == |order| {
      k := i;
      NoneLookedAt(readable, order, i, s, s);
    } else {
      var r := CleanOne(w, readable, s, order[i]);
      if r.1 != MU_OK {
        k := StopsHere(w, readable, s, order, i);
      } else {
        OneLookedAt(readable, order, i, s, r.0);
        k := CleanupExact(w, readable, r.0, order, i + 1);
        MoreLookedAt(readable, order, i, k, s, r.0, CleanupFrom(w, readable, r.0, order, i + 1).0);
        LaterStop(w, readable, order, i, k, s.asked, CleanupFrom(w, readable, r.0, order, i + 1).1);
      }
    }
  }

  lemma {:induction false} StopsHere(w: World, readable: Path -> bool, s: IndexState, order: seq<Path>, i: nat)
    returns (k: nat)
    requires i < |order| && CleanOne(w, readable, s, order[i]).1 != MU_OK
    ensures i <= k <= i + 1
    ensures LookedAt(readable, order, i, k, s, CleanOne(w, readable, s, order[i]).0)
    ensures StopsAt(w, readable, order, i, k, s.asked, CleanOne(w, readable, s, order[i]).1)
  {
    var r := CleanOne(w, readable, s, order[i]).0;
    if !readable(order[i]) && w.adding(s.asked) != Fine {
      k := i;
      NoneLookedAt(readable, order, i, s, r);
    } else {
      k := i + 1;
      OneLookedAt(readable, order, i, s, r);
    }
  }

  lemma NoneLookedAt(readable: Path -> bool, order: seq<Path>, i: nat, s: IndexState, r: IndexState)
    requires i <= |order| && r.store == s.store && r.stats == s.stats
    ensures LookedAt(readable, order, i, i, s, r)
  {
    assert order[i..i] == [] && Gone(readable, order, i, i) == 0;
  }

  lemma {:induction false} OneLookedAt(readable: Path -> bool, order: seq<Path>, i: nat, s: IndexState, r: IndexState)
    requires i < |order|
    requires r.store == if readable(order[i]) then s.store else RemovePath(s.store, order[i])
    requires r.stats == s.stats.(processed := s.stats.processed + 1,
                                 cleanedUp := s.stats.cleanedUp + if readable(order[i]) then 0 else 1)
    ensures LookedAt(readable, order, i, i + 1, s, r)
  {
    assert order[i..i + 1] == [order[i]];
    assert Gone(readable, order, i + 1, i + 1) == 0;
  }

  lemma {:induction false} MoreLookedAt(readable: Path -> bool, order: seq<Path>, i: nat, k: nat, s: IndexState,
                                        s1: IndexState, r: IndexState)
    requires i < k <= |order|
    requires LookedAt(readable, order, i, i + 1, s, s1) && LookedAt(readable, order, i + 1, k, s1, r)
    ensures LookedAt(readable, order, i, k, s, r)
  {
    assert order[i..k] == order[i..i + 1] + order[i + 1..k];
    assert Gone(readable, order, i, i + 1) == if readable(order[i]) then 0 else 1 by {
      assert Gone(readable, order, i + 1, i + 1) == 0;
    }
  }

  lemma LaterStop(w: World, readable: Path -> bool, order: seq<Path>, i: nat, k: nat, a: nat, result: MuError)
    requires i < k <= |order| && w.msgCb(a) == MU_OK && StopsAt(w, readable, order, i + 1, k, a + 1, result)
    ensures StopsAt(w, readable, order, i, k, a, result)
  {
    assert GoOn(w, a + 1, k - i - 1) ==> GoOn(w, a, k - i);
    if k > i + 1 { assert GoOn(w, a + 1, k - i - 2) ==> GoOn(w, a, k - i - 1); }
  }
}
