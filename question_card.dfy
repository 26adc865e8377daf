/** The logic of the `QuestionCard` component: which meaning is asked for,
    building the four answer options, and submitting an answer. */
module QuestionCard {
  import opened QuizData
  import opened ProgressStore
  import opened QuizApp

  /** The meaning a question type asks for: the upright meaning for "meaning",
      the reversed meaning for any other type. Used both for `correctAnswer` and
      for the option each sampled card offers. */
  function Meaning(card: Card, questionType: string): (m: string)
    ensures questionType == "meaning" ==> m == card.uprightMeaning
    ensures questionType != "meaning" ==> m == card.reversedMeaning
  {
    if questionType == "meaning" then card.uprightMeaning else card.reversedMeaning
  }

  predicate Distinct(s: seq<string>)
  {
    forall i, j :: 0 <= i < j < |s| ==> s[i] != s[j]
  }

  function Elements(s: seq<string>): set<string>
  {
    set x | x in s
  }

  lemma {:induction false} DistinctElements(s: seq<string>)
    requires Distinct(s)
    ensures |Elements(s)| == |s|
  {
    if s != [] {
      DistinctElements(s[1..]);
      assert Elements(s) == {s[0]} + Elements(s[1..]);
      assert s[0] !in Elements(s[1..]);
    }
  }

  /** `picks[k]` is the index of the k-th card drawn by `Math.random`. */
  predicate ValidPicks(picks: seq<nat>, cardCount: nat)
  {
    forall k :: 0 <= k < |picks| ==> picks[k] < cardCount
  }

  /** Every string the loop can collect from the drawn cards, with the correct answer. */
  function Candidates(correctAnswer: string, questionType: string, cardData: seq<Card>, picks: seq<nat>): set<string>
    requires ValidPicks(picks, |cardData|)
  {
    {correctAnswer} + set k | 0 <= k < |picks| :: Meaning(cardData[picks[k]], questionType)
  }

  /** `order` lists 0, 1, 2, 3 in some order: the outcome of the random-comparator sort. */
  predicate IsOrderOfFour(order: seq<nat>)
  {
    && |order| == 4
    && (forall k :: 0 <= k < 4 ==> order[k] < 4)
    && (forall i, j :: 0 <= i < j < 4 ==> order[i] != order[j])
  }

  lemma OrderOfFourCovers(order: seq<nat>, v: nat)
    requires IsOrderOfFour(order) && v < 4
    ensures exists k :: 0 <= k < 4 && order[k] == v
  {
    if order[0] != v && order[1] != v && order[2] != v {
      assert order[3] == v;
    }
  }

  lemma CandidatesStep(correctAnswer: string, questionType: string, cardData: seq<Card>, picks: seq<nat>, k: nat)
    requires ValidPicks(picks, |cardData|) && k < |picks|
    ensures Candidates(correctAnswer, questionType, cardData, picks[..k + 1])
         == Candidates(correctAnswer, questionType, cardData, picks[..k]) + {Meaning(cardData[picks[k]], questionType)}
  {
    assert picks[..k + 1] == picks[..k] + [picks[k]];
  }

  lemma CandidatesOfPrefix(correctAnswer: string, questionType: string, cardData: seq<Card>, picks: seq<nat>, k: nat)
    requires ValidPicks(picks, |cardData|) && k <= |picks|
    ensures Candidates(correctAnswer, questionType, cardData, picks[..k])
         <= Candidates(correctAnswer, questionType, cardData, picks)
  {
    forall x | x in Candidates(correctAnswer, questionType, cardData, picks[..k])
      ensures x in Candidates(correctAnswer, questionType, cardData, picks)
    {
      if x != correctAnswer {
        var m :| 0 <= m < k && x == Meaning(cardData[picks[..k][m]], questionType);
        assert x == Meaning(cardData[picks[m]], questionType);
      }
    }
  }

  lemma SubsetSize(a: set<string>, b: set<string>)
    requires a <= b
    ensures |a| <= |b|
  {
    assert b == a + (b - a);
  }

  lemma ElementsAppend(s: seq<string>, x: string)
    ensures Elements(s + [x]) == Elements(s) + {x}
  {
  }

  /** Each candidate other than the correct answer is the asked-for meaning of some dataset card. */
  lemma CandidateIsMeaning(correctAnswer: string, questionType: string, cardData: seq<Card>, picks: seq<nat>, x: string)
    requires ValidPicks(picks, |cardData|)
    requires x in Candidates(correctAnswer, questionType, cardData, picks) && x != correctAnswer
    ensures exists c :: 0 <= c < |cardData| && x == Meaning(cardData[c], questionType)
  {
    var k :| 0 <= k < |picks| && x == Meaning(cardData[picks[k]], questionType);
    assert x == Meaning(cardData[picks[k]], questionType);
  }

  /** The options placed in the order the sort produced: `r[i] == options[order[i]]`. */
  function Arrange(options: seq<string>, order: seq<nat>): (r: seq<string>)
    requires |options| == 4 && IsOrderOfFour(order)
    ensures |r| == 4
    ensures Elements(r) == Elements(options)
    ensures Distinct(options) ==> Distinct(r)
  {
    var r := seq(4, i requires 0 <= i < 4 => options[order[i]]);
    assert forall x :: x in options ==> x in r by {
      forall x | x in options ensures x in r {
        var m :| 0 <= m < 4 && options[m] == x;
        OrderOfFourCovers(order, m);
        var i :| 0 <= i < 4 && order[i] == m;
        assert r[i] == x;
      }
    }
    r
  }

  /** `generateOptions`: seed the list with the correct answer, then draw cards and
      append each new string until there are four, then put them in the order
      the sort produced. The source loops until it succeeds; here the draws are a
      finite list, and the result is None when they run out first, which happens
      exactly when they offer fewer than four different strings. */
  method GenerateOptions(correctAnswer: string, questionType: string, cardData: seq<Card>,
                         picks: seq<nat>, order: seq<nat>)
    returns (r: Option<seq<string>>)
    requires ValidPicks(picks, |cardData|)
    requires IsOrderOfFour(order)
    ensures r.None? <==> |Candidates(correctAnswer, questionType, cardData, picks)| < 4
    ensures r.Some? ==> |r.value| == 4 && Distinct(r.value) && correctAnswer in r.value
    ensures r.Some? ==> forall x :: x in r.value ==> x in Candidates(correctAnswer, questionType, cardData, picks)
    ensures r.Some? ==> forall x :: x in r.value && x != correctAnswer ==>
      exists c :: 0 <= c < |cardData| && x == Meaning(cardData[c], questionType)
  {
    var options := [correctAnswer];
    var k := 0;
    assert picks[..0] == [];
    while |options| < 4 && k < |picks|
      invariant 1 <= |options| <= 4
      invariant k <= |picks|
      invariant options[0] == correctAnswer
      invariant Distinct(options)
      invariant Elements(options) == Candidates(correctAnswer, questionType, cardData, picks[..k])
    {
      var randomCard := cardData[picks[k]];
      var option := Meaning(randomCard, questionType);
      CandidatesStep(correctAnswer, questionType, cardData, picks, k);
      if option !in options {
        ElementsAppend(options, option);
        options := options + [option];
      }
      k := k + 1;
    }
    DistinctElements(options);
    if |options| < 4 {
      assert picks[..k] == picks;
      return None;
    }
    CandidatesOfPrefix(correctAnswer, questionType, cardData, picks, k);
    SubsetSize(Elements(options), Candidates(correctAnswer, questionType, cardData, picks));
    var arranged := Arrange(options, order);
    assert correctAnswer in Elements(options);
    forall x | x in arranged && x != correctAnswer
      ensures exists c :: 0 <= c < |cardData| && x == Meaning(cardData[c], questionType)
    {
      CandidateIsMeaning(correctAnswer, questionType, cardData, picks, x);
    }
    r := Some(arranged);
  }

  /** `handleSubmit` on the card being asked: the score goes up exactly when the
      selected answer is the correct one, the answer is recorded with that outcome,
      and the answer is revealed. */
  method HandleSubmit(app: App, selectedAnswer: string)
    requires app.Valid() && app.CurrentPhase() == InProgress && !app.showAnswer
    requires app.CurrentCard().Some?
    modifies app`score, app`showAnswer, app`userData, app`storage
    ensures app.Valid() && app.showAnswer && app.CurrentPhase() == InProgress
    ensures var card := old(app.CurrentCard()).value;
      var isCorrect := selectedAnswer == Meaning(card, app.questionType);
      && app.score == old(app.score) + (if isCorrect then 1 else 0)
      && app.userData == UpdatedRecords(old(app.userData), card.id, isCorrect)
      && app.storage == PersistedAfterUpdate(old(app.storage), app.email, old(app.userData), card.id)
    ensures app.currentCardIndex == old(app.currentCardIndex) && app.shuffledCardData == old(app.shuffledCardData)
    ensures app.questionType == old(app.questionType) && app.email == old(app.email)
    ensures app.questionCount == old(app.questionCount)
  {
    var card := app.CurrentCard().value;
    var correctAnswer := Meaning(card, app.questionType);
    // React applies the three state updates together; the record update comes
    // first here so that it runs on a valid state.
    if selectedAnswer == correctAnswer {
      app.UpdateUserData(card.id, true);
      app.score := app.score + 1;
    } else {
      app.UpdateUserData(card.id, false);
    }
    app.showAnswer := true;
  }
}
