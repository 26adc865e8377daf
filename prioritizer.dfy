/** `prioritizeQuestions` and `shuffleQuestions` of App.js: records never shown
    come first in random order, then the shown ones (sorted by error ratio and
    shuffled again), each mapped to its dataset card, and the list is cut to
    the session length. */
module Prioritizer {
  import opened QuizData
  import opened Shuffle

  /** `userData.filter((data) => data.shown === 0)` */
  function NeverShown(u: seq<Record>): (r: seq<Record>)
    ensures forall k :: 0 <= k < |r| ==> r[k].shown == 0
    ensures |r| <= |u|
  {
    if u == [] then [] else (if u[0].shown == 0 then [u[0]] else []) + NeverShown(u[1..])
  }

  /** `userData.filter((data) => data.shown > 0)` */
  function Shown(u: seq<Record>): (r: seq<Record>)
    ensures forall k :: 0 <= k < |r| ==> r[k].shown > 0
    ensures |r| <= |u|
  {
    if u == [] then [] else (if u[0].shown > 0 then [u[0]] else []) + Shown(u[1..])
  }

  /** The two filters split the records between them; a record with a negative
      `shown` (which only a corrupted store could hold) lands in neither. */
  lemma {:induction false} FiltersSplit(u: seq<Record>)
    ensures multiset(NeverShown(u)) + multiset(Shown(u)) == multiset(NonNegativeShown(u))
  {
    if u != [] {
      var t := u[1..];
      FiltersSplit(t);
      assert u == [u[0]] + t;
      if u[0].shown == 0 {
        assert multiset(NeverShown(u)) == multiset{u[0]} + multiset(NeverShown(t));
        assert multiset(Shown(u)) == multiset(Shown(t));
        assert multiset(NonNegativeShown(u)) == multiset{u[0]} + multiset(NonNegativeShown(t));
      } else if u[0].shown > 0 {
        assert multiset(NeverShown(u)) == multiset(NeverShown(t));
        assert multiset(Shown(u)) == multiset{u[0]} + multiset(Shown(t));
        assert multiset(NonNegativeShown(u)) == multiset{u[0]} + multiset(NonNegativeShown(t));
      } else {
        assert multiset(NeverShown(u)) == multiset(NeverShown(t));
        assert multiset(Shown(u)) == multiset(Shown(t));
        assert multiset(NonNegativeShown(u)) == multiset(NonNegativeShown(t));
      }
    }
  }

  function NonNegativeShown(u: seq<Record>): (r: seq<Record>)
    ensures (forall k :: 0 <= k < |u| ==> u[k].shown >= 0) ==> r == u
  {
    if u == [] then [] else (if u[0].shown >= 0 then [u[0]] else []) + NonNegativeShown(u[1..])
  }

  /** The sort key of the shown records: incorrect / (correct + 1). */
  function Ratio(r: Record): (q: real)
    ensures r.incorrect == 0 ==> q == 0.0
    ensures r.correct >= 0 && r.incorrect >= 0 ==> 0.0 <= q <= r.incorrect as real
  {
    if r.correct + 1 == 0 then 0.0 else (r.incorrect as real) / ((r.correct + 1) as real)
  }

  ghost predicate Descending(s: seq<Record>)
  {
    forall i, j :: 0 <= i < j < |s| ==> Ratio(s[i]) >= Ratio(s[j])
  }

  /** Inserts `x` before the first element whose ratio is not above its own. */
  function InsertByRatio(x: Record, s: seq<Record>): (r: seq<Record>)
    ensures |r| == |s| + 1
    ensures multiset(r) == multiset(s) + multiset{x}
  {
    if s == [] then [x]
    else if Ratio(s[0]) <= Ratio(x) then [x] + s
    else
      assert s == [s[0]] + s[1..];
      [s[0]] + InsertByRatio(x, s[1..])
  }

  /** Inserting under a bound that `x` and all of `s` respect keeps the result under it. */
  lemma {:induction false} InsertBelow(x: Record, s: seq<Record>, bound: real)
    requires Ratio(x) <= bound
    requires forall k :: 0 <= k < |s| ==> Ratio(s[k]) <= bound
    ensures forall k :: 0 <= k < |InsertByRatio(x, s)| ==> Ratio(InsertByRatio(x, s)[k]) <= bound
  {
    if s != [] && Ratio(s[0]) > Ratio(x) {
      var t := s[1..];
      InsertBelow(x, t, bound);
      assert InsertByRatio(x, s) == [s[0]] + InsertByRatio(x, t);
    }
  }

  lemma {:induction false} InsertKeepsDescending(x: Record, s: seq<Record>)
    requires Descending(s)
    ensures Descending(InsertByRatio(x, s))
  {
    if s != [] && Ratio(s[0]) > Ratio(x) {
      var t := s[1..];
      assert Descending(t) by {
        forall i, j | 0 <= i < j < |t| ensures Ratio(t[i]) >= Ratio(t[j]) {
          assert t[i] == s[i + 1] && t[j] == s[j + 1];
        }
      }
      assert forall k :: 0 <= k < |t| ==> Ratio(t[k]) <= Ratio(s[0]) by {
        forall k | 0 <= k < |t| ensures Ratio(t[k]) <= Ratio(s[0]) {
          assert t[k] == s[k + 1];
        }
      }
      var rest := InsertByRatio(x, t);
      InsertKeepsDescending(x, t);
      InsertBelow(x, t, Ratio(s[0]));
      var r := [s[0]] + rest;
      assert InsertByRatio(x, s) == r;
      forall i, j | 0 <= i < j < |r| ensures Ratio(r[i]) >= Ratio(r[j]) {
        assert r[j] == rest[j - 1];
        if i > 0 {
          assert r[i] == rest[i - 1];
        }
      }
    }
  }

  /** `shown.sort((a, b) => ratio(b) - ratio(a))`: highest error ratio first, as an
      insertion sort that keeps equal-ratio records in their input order. */
  function SortByRatio(s: seq<Record>): (r: seq<Record>)
    ensures |r| == |s|
    ensures multiset(r) == multiset(s)
  {
    if s == [] then []
    else
      assert s == [s[0]] + s[1..];
      InsertByRatio(s[0], SortByRatio(s[1..]))
  }

  /** The sort puts the records in non-increasing order of error ratio. */
  lemma {:induction false} SortByRatioDescending(s: seq<Record>)
    ensures Descending(SortByRatio(s))
  {
    if s != [] {
      SortByRatioDescending(s[1..]);
      InsertKeepsDescending(s[0], SortByRatio(s[1..]));
    }
  }

  /** The draws that `prioritizeQuestions` needs: one per shuffled list. */
  predicate ValidDraws(u: seq<Record>, neverShownSwaps: seq<nat>, shownSwaps: seq<nat>)
  {
    ValidSwaps(neverShownSwaps, |NeverShown(u)|) && ValidSwaps(shownSwaps, |Shown(u)|)
  }

  /** The record order `prioritizeQuestions` produces before mapping ids to cards. */
  function PrioritizedRecords(u: seq<Record>, neverShownSwaps: seq<nat>, shownSwaps: seq<nat>): (r: seq<Record>)
    requires ValidDraws(u, neverShownSwaps, shownSwaps)
    ensures |r| == |NeverShown(u)| + |Shown(u)|
  {
    Shuffled(NeverShown(u), neverShownSwaps) + Shuffled(SortByRatio(Shown(u)), shownSwaps)
  }

  lemma ShuffledNeverShownAreZero(u: seq<Record>, js: seq<nat>)
    requires ValidSwaps(js, |NeverShown(u)|)
    ensures forall k :: 0 <= k < |Shuffled(NeverShown(u), js)| ==> Shuffled(NeverShown(u), js)[k].shown == 0
  {
    var a := Shuffled(NeverShown(u), js);
    forall k | 0 <= k < |a| ensures a[k].shown == 0 {
      ShuffledMembers(NeverShown(u), js, a[k]);
    }
  }

  lemma ShuffledShownArePositive(u: seq<Record>, js: seq<nat>)
    requires ValidSwaps(js, |Shown(u)|)
    ensures forall k :: 0 <= k < |Shuffled(SortByRatio(Shown(u)), js)| ==> Shuffled(SortByRatio(Shown(u)), js)[k].shown > 0
  {
    var sorted := SortByRatio(Shown(u));
    var b := Shuffled(sorted, js);
    forall k | 0 <= k < |b| ensures b[k].shown > 0 {
      ShuffledMembers(sorted, js, b[k]);
      assert b[k] in multiset(sorted);
      assert b[k] in Shown(u);
    }
  }

  /** Every never-shown record comes before every shown record. */
  lemma NeverShownComeFirst(u: seq<Record>, neverShownSwaps: seq<nat>, shownSwaps: seq<nat>)
    requires ValidDraws(u, neverShownSwaps, shownSwaps)
    ensures var p := PrioritizedRecords(u, neverShownSwaps, shownSwaps);
      forall i, j :: 0 <= i < |p| && 0 <= j < |p| && p[i].shown == 0 && p[j].shown > 0 ==> i < j
  {
    var a := Shuffled(NeverShown(u), neverShownSwaps);
    var b := Shuffled(SortByRatio(Shown(u)), shownSwaps);
    ShuffledNeverShownAreZero(u, neverShownSwaps);
    ShuffledShownArePositive(u, shownSwaps);
    var p := a + b;
    assert forall k :: 0 <= k < |a| ==> p[k] == a[k];
    assert forall k :: |a| <= k < |p| ==> p[k] == b[k - |a|];
  }

  /** The output holds every input record with a non-negative `shown`, each as often as the input does. */
  lemma PrioritizedPermutes(u: seq<Record>, neverShownSwaps: seq<nat>, shownSwaps: seq<nat>)
    requires ValidDraws(u, neverShownSwaps, shownSwaps)
    ensures multiset(PrioritizedRecords(u, neverShownSwaps, shownSwaps)) == multiset(NonNegativeShown(u))
  {
    ShuffledPermutes(NeverShown(u), neverShownSwaps);
    ShuffledPermutes(SortByRatio(Shown(u)), shownSwaps);
    FiltersSplit(u);
  }

  /** With non-negative counts the output is a permutation of the input records. */
  lemma PrioritizedIsPermutation(u: seq<Record>, neverShownSwaps: seq<nat>, shownSwaps: seq<nat>)
    requires ValidDraws(u, neverShownSwaps, shownSwaps)
    requires forall k :: 0 <= k < |u| ==> u[k].shown >= 0
    ensures multiset(PrioritizedRecords(u, neverShownSwaps, shownSwaps)) == multiset(u)
    ensures |PrioritizedRecords(u, neverShownSwaps, shownSwaps)| == |u|
  {
    PrioritizedPermutes(u, neverShownSwaps, shownSwaps);
    assert |multiset(PrioritizedRecords(u, neverShownSwaps, shownSwaps))| == |multiset(u)|;
  }

  /** `cardData.find((card) => card.id === id)`: the first card with that id, or nothing. */
  function FindCard(cards: seq<Card>, id: int): (r: Option<Card>)
    ensures r.Some? ==> r.value in cards && r.value.id == id
    ensures r.None? <==> forall k :: 0 <= k < |cards| ==> cards[k].id != id
    ensures r.Some? ==> exists k :: 0 <= k < |cards| && cards[k] == r.value &&
                                   forall m :: 0 <= m < k ==> cards[m].id != id
  {
    if cards == [] then None
    else if cards[0].id == id then Some(cards[0])
    else FindCard(cards[1..], id)
  }

  /** The `map` of record ids to cards at the end of `prioritizeQuestions`. */
  function ToCards(rs: seq<Record>, cards: seq<Card>): (r: seq<Option<Card>>)
    ensures |r| == |rs|
  {
    seq(|rs|, k requires 0 <= k < |rs| => FindCard(cards, rs[k].id))
  }

  /** Entry k of the mapped list is the card for record k, or nothing when no card has its id. */
  lemma ToCardsMatch(rs: seq<Record>, cards: seq<Card>, k: nat)
    requires k < |rs|
    ensures var r := ToCards(rs, cards);
      && (r[k].Some? ==> r[k].value in cards && r[k].value.id == rs[k].id)
      && (r[k].None? <==> forall m :: 0 <= m < |cards| ==> cards[m].id != rs[k].id)
  {
  }

  /** `prioritizeQuestions`: filters into local arrays, shuffles the never-shown one,
      sorts then shuffles the shown one, concatenates and maps ids to cards. */
  method PrioritizeQuestions(userData: seq<Record>, cardData: seq<Card>,
                             neverShownSwaps: seq<nat>, shownSwaps: seq<nat>)
    returns (prioritizedCards: seq<Option<Card>>)
    requires ValidDraws(userData, neverShownSwaps, shownSwaps)
    ensures prioritizedCards == ToCards(PrioritizedRecords(userData, neverShownSwaps, shownSwaps), cardData)
    ensures |prioritizedCards| == |NeverShown(userData)| + |Shown(userData)|
  {
    var neverShown := NewArray(NeverShown(userData));
    ShuffleArray(neverShown, neverShownSwaps);
    var shown := NewArray(SortByRatio(Shown(userData)));
    ShuffleArray(shown, shownSwaps);
    prioritizedCards := ToCards(neverShown[..] + shown[..], cardData);
  }

  /** A fresh local array holding `s`, as the arrays `filter` returns. */
  method NewArray(s: seq<Record>) returns (a: array<Record>)
    ensures fresh(a) && a[..] == s
  {
    a := new Record[|s|](k requires 0 <= k < |s| => s[k]);
    assert a[..] == s;
  }

  /** `prioritizedQuestions.slice(0, questionCount)` */
  function Take<T>(s: seq<T>, n: nat): (r: seq<T>)
    ensures |r| == if n < |s| then n else |s|
    ensures forall k :: 0 <= k < |r| ==> r[k] == s[k]
  {
    if n < |s| then s[..n] else s
  }

  /** The session `shuffleQuestions` stores: the prioritised cards cut to the session length. */
  function SessionCards(u: seq<Record>, cards: seq<Card>, neverShownSwaps: seq<nat>, shownSwaps: seq<nat>, n: nat)
    : (r: seq<Option<Card>>)
    requires ValidDraws(u, neverShownSwaps, shownSwaps)
    ensures |r| <= n && |r| <= |NeverShown(u)| + |Shown(u)|
  {
    Take(ToCards(PrioritizedRecords(u, neverShownSwaps, shownSwaps), cards), n)
  }

  /** The session holds min(n, |prioritised|) entries, the first ones of the prioritised list,
      entry k being the card of the k-th prioritised record. */
  lemma SessionIsPrefix(u: seq<Record>, cards: seq<Card>, neverShownSwaps: seq<nat>, shownSwaps: seq<nat>, n: nat)
    requires ValidDraws(u, neverShownSwaps, shownSwaps)
    ensures var p := PrioritizedRecords(u, neverShownSwaps, shownSwaps);
      var session := SessionCards(u, cards, neverShownSwaps, shownSwaps, n);
      && |session| == (if n < |p| then n else |p|)
      && forall k :: 0 <= k < |session| ==> session[k] == FindCard(cards, p[k].id)
  {
  }

  /** A user with no history (every record fresh) who asks for n questions from a
      dataset of at least n cards gets n of them, each a dataset card. */
  lemma FreshSessionLength(u: seq<Record>, cards: seq<Card>, neverShownSwaps: seq<nat>, shownSwaps: seq<nat>, n: nat)
    requires ValidDraws(u, neverShownSwaps, shownSwaps)
    requires |u| == |cards| && n <= |cards|
    requires forall k :: 0 <= k < |u| ==> u[k] == Record(cards[k].id, 0, 0, 0)
    ensures var session := SessionCards(u, cards, neverShownSwaps, shownSwaps, n);
      |session| == n && forall k :: 0 <= k < n ==> session[k].Some?
  {
    var p := PrioritizedRecords(u, neverShownSwaps, shownSwaps);
    PrioritizedIsPermutation(u, neverShownSwaps, shownSwaps);
    SessionIsPrefix(u, cards, neverShownSwaps, shownSwaps, n);
    forall k | 0 <= k < n ensures FindCard(cards, p[k].id).Some? {
      assert p[k] in multiset(u);
      var i :| 0 <= i < |u| && u[i] == p[k];
      assert cards[i].id == p[k].id;
    }
  }
}
