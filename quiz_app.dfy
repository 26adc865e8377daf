/** The session state of the `App` component: who is playing, the prioritised
    session, the position in it, the score and the screen flags. Each React
    state setter becomes a direct assignment to a field. */
module QuizApp {
  import opened QuizData
  import opened ProgressStore
  import opened Prioritizer

  const QuestionTypes: seq<string> := ["meaning", "reversed_meaning"]

  /** `getRandomQuestionType`, with the random index as an input. */
  function RandomQuestionType(pick: nat): (t: string)
    requires pick < |QuestionTypes|
    ensures t == "meaning" || t == "reversed_meaning"
    ensures (t == "meaning") <==> pick == 0
  {
    QuestionTypes[pick]
  }

  /** The screens: the start form, a running quiz, the results. */
  datatype Phase = NotStarted | InProgress | Complete

  class App {
    const cardData: seq<Card>
    var email: string
    var questionCount: nat
    var isQuizStarted: bool
    var isQuizComplete: bool
    var shuffledCardData: seq<Option<Card>>
    var currentCardIndex: nat
    var score: nat
    var showAnswer: bool
    var questionType: string
    var userData: seq<Record>
    var storage: Storage

    /** The screen the flags select (App.js renders the results first, then the form). */
    function CurrentPhase(): (p: Phase)
      reads this
      ensures (p == Complete) <==> isQuizComplete
      ensures (p == NotStarted) <==> !isQuizComplete && !isQuizStarted
      ensures (p == InProgress) <==> isQuizStarted && !isQuizComplete
    {
      if isQuizComplete then Complete else if !isQuizStarted then NotStarted else InProgress
    }

    /** `shuffledCardData[currentCardIndex]`, which is `undefined` past the end. */
    function CurrentCard(): (c: Option<Card>)
      reads this
      ensures currentCardIndex >= |shuffledCardData| ==> c.None?
      ensures currentCardIndex < |shuffledCardData| ==> c == shuffledCardData[currentCardIndex]
    {
      if currentCardIndex < |shuffledCardData| then shuffledCardData[currentCardIndex] else None
    }

    /** The invariant of the screen flags and counters. */
    ghost predicate SessionValid()
      reads this`isQuizStarted, this`isQuizComplete, this`questionCount, this`currentCardIndex,
            this`score, this`showAnswer, this`questionType
    {
      && !(isQuizStarted && isQuizComplete)
      && questionCount >= 1
      && currentCardIndex < questionCount
      && (!isQuizStarted && !isQuizComplete ==> currentCardIndex == 0 && score == 0)
      // the score is at most the index, plus one while an answer is shown
      && score <= currentCardIndex + (if showAnswer then 1 else 0)
      && (questionType == "meaning" || questionType == "reversed_meaning")
    }

    /** The counter invariant of every record, in memory and in storage. */
    ghost predicate DataValid()
      reads this`userData, this`storage
    {
      AllConsistent(userData) && StoreConsistent(storage)
    }

    ghost predicate Valid()
      reads this
    {
      SessionValid() && DataValid()
    }

    /** The initial state of the component. */
    constructor (cards: seq<Card>, stored: Storage)
      requires StoreConsistent(stored)
      ensures Valid() && CurrentPhase() == NotStarted
      ensures cardData == cards && storage == stored
      ensures email == "" && questionCount == 15 && shuffledCardData == [] && userData == []
      ensures currentCardIndex == 0 && score == 0 && !showAnswer && questionType == "meaning"
    {
      cardData := cards;
      email := "";
      questionCount := 15;
      isQuizStarted := false;
      isQuizComplete := false;
      shuffledCardData := [];
      currentCardIndex := 0;
      score := 0;
      showAnswer := false;
      questionType := "meaning";
      userData := [];
      storage := stored;
    }

    /** `shuffleQuestions`: the session is the prioritised list cut to `questionCount`. */
    method ShuffleQuestions(neverShownSwaps: seq<nat>, shownSwaps: seq<nat>)
      requires ValidDraws(userData, neverShownSwaps, shownSwaps)
      modifies this`shuffledCardData
      ensures shuffledCardData ==
        SessionCards(userData, cardData, neverShownSwaps, shownSwaps, questionCount)
      ensures |shuffledCardData| <= questionCount
    {
      var prioritizedQuestions := PrioritizeQuestions(userData, cardData, neverShownSwaps, shownSwaps);
      shuffledCardData := Take(prioritizedQuestions, questionCount);
    }

    /** The effect that runs when the email changes to a non-empty one: load that
        user's records and build a session from them. */
    method LoadUser(neverShownSwaps: seq<nat>, shownSwaps: seq<nat>)
      requires Valid()
      requires ValidDraws(LoadUserData(storage, cardData, email), neverShownSwaps, shownSwaps)
      modifies this`userData, this`shuffledCardData
      ensures Valid()
      ensures userData == LoadUserData(storage, cardData, email)
      ensures shuffledCardData ==
        SessionCards(userData, cardData, neverShownSwaps, shownSwaps, questionCount)
    {
      LoadedIsConsistent(storage, cardData, email);
      userData := LoadUserData(storage, cardData, email);
      ShuffleQuestions(neverShownSwaps, shownSwaps);
    }

    /** Typing an email on the start form; the effect runs only when the email
        changed and is not empty. */
    method ChangeEmail(newEmail: string, neverShownSwaps: seq<nat>, shownSwaps: seq<nat>)
      requires Valid() && CurrentPhase() == NotStarted
      requires ValidDraws(LoadUserData(storage, cardData, newEmail), neverShownSwaps, shownSwaps)
      modifies this`email, this`userData, this`shuffledCardData
      ensures Valid() && email == newEmail
      ensures newEmail != old(email) && newEmail != "" ==>
        userData == LoadUserData(storage, cardData, newEmail)
      ensures newEmail != old(email) && newEmail != "" ==>
        shuffledCardData == SessionCards(userData, cardData, neverShownSwaps, shownSwaps, questionCount)
      ensures !(newEmail != old(email) && newEmail != "") ==>
        userData == old(userData) && shuffledCardData == old(shuffledCardData)
    {
      var changed := newEmail != email;
      email := newEmail;
      if changed && email != "" {
        LoadUser(neverShownSwaps, shownSwaps);
      }
    }

    /** Choosing a session length on the start form (the select offers 15, 35 and 78). */
    method ChangeQuestionCount(n: nat)
      requires Valid() && CurrentPhase() == NotStarted
      requires n == 15 || n == 35 || n == 78
      modifies this`questionCount
      ensures Valid() && questionCount == n
    {
      questionCount := n;
    }

    /** `handleFormSubmit` */
    method HandleFormSubmit()
      requires Valid() && CurrentPhase() == NotStarted
      modifies this`isQuizStarted
      ensures Valid() && CurrentPhase() == InProgress
    {
      isQuizStarted := true;
    }

    /** `handleNextQuestion`, offered once the answer is shown; `pick` is the
        random index of `getRandomQuestionType`. */
    method HandleNextQuestion(pick: nat)
      requires Valid() && CurrentPhase() == InProgress && showAnswer
      requires pick < |QuestionTypes|
      modifies this`currentCardIndex, this`showAnswer, this`questionType, this`isQuizComplete, this`isQuizStarted
      ensures Valid()
      ensures if old(currentCardIndex) + 1 < questionCount then
          && currentCardIndex == old(currentCardIndex) + 1
          && !showAnswer && questionType == RandomQuestionType(pick)
          && CurrentPhase() == InProgress
        else
          && isQuizComplete && !isQuizStarted && CurrentPhase() == Complete
          && currentCardIndex == old(currentCardIndex)
          && showAnswer && questionType == old(questionType)
    {
      if currentCardIndex + 1 < questionCount {
        currentCardIndex := currentCardIndex + 1;
        showAnswer := false;
        questionType := RandomQuestionType(pick);
      } else {
        isQuizComplete := true;
        isQuizStarted := false;
      }
    }

    /** `resetQuiz`, offered on the results screen. It does not touch `showAnswer`,
        which stays true from the last answer. */
    method ResetQuiz()
      requires Valid() && CurrentPhase() == Complete
      modifies this`isQuizComplete, this`isQuizStarted, this`score, this`currentCardIndex
      ensures Valid() && CurrentPhase() == NotStarted
      ensures !isQuizComplete && !isQuizStarted && score == 0 && currentCardIndex == 0
    {
      isQuizComplete := false;
      isQuizStarted := false;
      score := 0;
      currentCardIndex := 0;
    }

    /** `updateUserData`: the answered card's records are bumped in memory, and the
        list as it was before the answer is written under the user's email. */
    method UpdateUserData(cardId: int, isCorrect: bool)
      requires Valid()
      modifies this`userData, this`storage
      ensures Valid()
      ensures userData == UpdatedRecords(old(userData), cardId, isCorrect)
      ensures storage == PersistedAfterUpdate(old(storage), email, old(userData), cardId)
    {
      UpdatePreservesConsistency(userData, cardId, isCorrect);
      PersistPreservesConsistency(storage, email, userData, cardId);
      var prevUserData := userData;
      userData := UpdatedRecords(prevUserData, cardId, isCorrect);
      storage := PersistedAfterUpdate(storage, email, prevUserData, cardId);
    }
  }

  /** Playing again from the results screen: `resetQuiz` then `handleFormSubmit`.
      The new quiz starts at its first question with the answer already shown,
      because `resetQuiz` leaves `showAnswer` set. */
  method PlayAgain(app: App)
    requires app.Valid() && app.CurrentPhase() == Complete && app.showAnswer
    modifies app`isQuizComplete, app`isQuizStarted, app`score, app`currentCardIndex
    ensures app.Valid() && app.CurrentPhase() == InProgress
    ensures app.currentCardIndex == 0 && app.score == 0 && app.showAnswer
  {
    app.ResetQuiz();
    app.HandleFormSubmit();
  }
}
