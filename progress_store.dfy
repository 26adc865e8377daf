/** The progress store of App.js: loading a user's record list and recording one answer. */
module ProgressStore {
  import opened QuizData

  /** One all-zero record per card, in dataset order. */
  function FreshRecords(cards: seq<Card>): (rs: seq<Record>)
    ensures |rs| == |cards|
    ensures forall k :: 0 <= k < |cards| ==> rs[k].id == cards[k].id && rs[k].shown == 0
    ensures AllConsistent(rs)
  {
    seq(|cards|, k requires 0 <= k < |cards| => Record(cards[k].id, 0, 0, 0))
  }

  /** `loadUserData`: the stored list when there is one, otherwise a fresh list for the whole dataset. */
  function LoadUserData(storage: Storage, cards: seq<Card>, email: string): (rs: seq<Record>)
    ensures email in storage ==> rs == storage[email]
    ensures email !in storage ==> |rs| == |cards|
    ensures email !in storage ==> forall k :: 0 <= k < |cards| ==>
      rs[k].id == cards[k].id && rs[k].shown == 0 && rs[k].correct == 0 && rs[k].incorrect == 0
  {
    if email in storage then storage[email] else FreshRecords(cards)
  }

  /** Loading never produces a list that breaks the counter invariant, as long as the store holds none. */
  lemma LoadedIsConsistent(storage: Storage, cards: seq<Card>, email: string)
    requires StoreConsistent(storage)
    ensures AllConsistent(LoadUserData(storage, cards, email))
  {
    if email !in storage {
      var rs := LoadUserData(storage, cards, email);
      forall k | 0 <= k < |rs| ensures Consistent(rs[k]) {
        assert rs[k] == Record(cards[k].id, 0, 0, 0);
      }
    }
  }

  /** The record after one answer to its card. */
  function Answered(r: Record, isCorrect: bool): (a: Record)
    ensures a.id == r.id && a.shown == r.shown + 1
    ensures a.correct + a.incorrect == r.correct + r.incorrect + 1
    ensures isCorrect <==> a.correct == r.correct + 1
    ensures isCorrect ==> a.incorrect == r.incorrect
    ensures !isCorrect ==> a.correct == r.correct && a.incorrect == r.incorrect + 1
    ensures Consistent(r) ==> Consistent(a)
  {
    r.(shown := r.shown + 1,
       correct := if isCorrect then r.correct + 1 else r.correct,
       incorrect := if isCorrect then r.incorrect else r.incorrect + 1)
  }

  /** The list `updateUserData` hands back to the state setter. */
  function UpdatedRecords(prev: seq<Record>, cardId: int, isCorrect: bool): (rs: seq<Record>)
    ensures |rs| == |prev|
    ensures forall k :: 0 <= k < |prev| && prev[k].id != cardId ==> rs[k] == prev[k]
    ensures forall k :: 0 <= k < |prev| && prev[k].id == cardId ==>
      && rs[k].id == cardId
      && rs[k].shown == prev[k].shown + 1
      && rs[k].correct == (if isCorrect then prev[k].correct + 1 else prev[k].correct)
      && rs[k].incorrect == (if isCorrect then prev[k].incorrect else prev[k].incorrect + 1)
  {
    seq(|prev|, k requires 0 <= k < |prev| =>
      if prev[k].id == cardId then Answered(prev[k], isCorrect) else prev[k])
  }

  /** Recording an answer keeps the counter invariant of every record. */
  lemma UpdatePreservesConsistency(prev: seq<Record>, cardId: int, isCorrect: bool)
    requires AllConsistent(prev)
    ensures AllConsistent(UpdatedRecords(prev, cardId, isCorrect))
  {
    var rs := UpdatedRecords(prev, cardId, isCorrect);
    forall k | 0 <= k < |rs| ensures Consistent(rs[k]) {
      assert Consistent(prev[k]);
    }
  }

  predicate HasRecord(rs: seq<Record>, cardId: int)
  {
    exists k :: 0 <= k < |rs| && rs[k].id == cardId
  }

  /** The storage after `updateUserData`: the write happens inside the map callback,
      once per matching record, and always writes the list as it was BEFORE the update. */
  function PersistedAfterUpdate(storage: Storage, email: string, prev: seq<Record>, cardId: int): (s: Storage)
    ensures s.Keys == if HasRecord(prev, cardId) then storage.Keys + {email} else storage.Keys
    ensures forall e :: e in s && e != email ==> s[e] == storage[e]
    ensures HasRecord(prev, cardId) ==> s[email] == prev
  {
    if HasRecord(prev, cardId) then storage[email := prev] else storage
  }

  /** Storage lags the in-memory list by one answer: loading right after an update
      gives back the list before it, which differs from the in-memory one exactly
      at the answered card's records. */
  lemma StorageLagsOneAnswer(storage: Storage, cards: seq<Card>, email: string,
                             prev: seq<Record>, cardId: int, isCorrect: bool)
    requires HasRecord(prev, cardId)
    ensures LoadUserData(PersistedAfterUpdate(storage, email, prev, cardId), cards, email) == prev
    ensures LoadUserData(PersistedAfterUpdate(storage, email, prev, cardId), cards, email)
            != UpdatedRecords(prev, cardId, isCorrect)
  {
    var k :| 0 <= k < |prev| && prev[k].id == cardId;
    assert UpdatedRecords(prev, cardId, isCorrect)[k].shown != prev[k].shown;
  }

  /** An answer to a card without a record changes neither the list nor the store. */
  lemma UnknownCardChangesNothing(storage: Storage, email: string, prev: seq<Record>, cardId: int, isCorrect: bool)
    requires !HasRecord(prev, cardId)
    ensures UpdatedRecords(prev, cardId, isCorrect) == prev
    ensures PersistedAfterUpdate(storage, email, prev, cardId) == storage
  {
  }

  /** Recording an answer keeps a consistent store consistent. */
  lemma PersistPreservesConsistency(storage: Storage, email: string, prev: seq<Record>, cardId: int)
    requires StoreConsistent(storage) && AllConsistent(prev)
    ensures StoreConsistent(PersistedAfterUpdate(storage, email, prev, cardId))
  {
  }
}
