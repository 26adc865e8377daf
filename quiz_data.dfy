/** The entities the quiz logic works on: cards of the bundled dataset and
    per-user progress records, plus the optional value JavaScript expresses
    with `undefined`. */
module QuizData {

  datatype Option<T> = None | Some(value: T)

  /** One card of the bundled dataset, with the fields the quiz logic reads
      (name, keywords, element, sign and image are display data only). */
  datatype Card = Card(id: int, uprightMeaning: string, reversedMeaning: string)

  /** A user's tally for one card: how often it was shown, answered right, answered wrong. */
  datatype Record = Record(id: int, shown: int, correct: int, incorrect: int)

  /** Local storage: a user's email maps to the record list stored under it;
      a missing key is what `localStorage.getItem` reports as null. */
  type Storage = map<string, seq<Record>>

  /** The counter invariant: counts are non-negative and every showing was answered once. */
  predicate Consistent(r: Record)
  {
    0 <= r.correct && 0 <= r.incorrect && r.shown == r.correct + r.incorrect
  }

  predicate AllConsistent(rs: seq<Record>)
  {
    forall k :: 0 <= k < |rs| ==> Consistent(rs[k])
  }

  predicate StoreConsistent(storage: Storage)
  {
    forall e :: e in storage ==> AllConsistent(storage[e])
  }
}
