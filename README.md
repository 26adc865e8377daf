# Tarot quiz: a Dafny model of the quiz logic

The quiz shows multiple-choice questions about a fixed tarot card dataset. It keeps
one progress record per card and per user (shown / correct / incorrect counts) in
the browser's local storage, keyed by the user's email. The next session puts the
never-seen cards first. This project models the logic behind that:

- the progress store (`loadUserData`, `updateUserData`);
- the prioritiser (`prioritizeQuestions`, the in-place Fisher–Yates `shuffleArray`,
  and the `slice` in `shuffleQuestions`);
- the session state held by the `App` component (`handleFormSubmit`,
  `handleNextQuestion`, `resetQuiz`, the effect that loads a user when the email
  changes);
- the `QuestionCard` logic (`correctAnswer`, `generateOptions`, `handleSubmit`).

Modules, one per component:

- `QuizData` (`quiz_data.dfy`): cards, progress records, the storage map, and the
  counter invariant `shown == correct + incorrect` with both counts non-negative.
- `ProgressStore` (`progress_store.dfy`): loading and updating records as functions
  on values, and the storage write as a function on the storage map.
- `Shuffle` (`shuffle.dfy`): the Fisher–Yates loop as a method on an `array`, proved equal
  to a specification function. That function is proved to be a permutation.
- `Prioritizer` (`prioritizer.dfy`): the two filters, the ratio sort, the record order
  `prioritizeQuestions` builds, the id-to-card mapping and the session cut.
- `QuizApp` (`quiz_app.dfy`): a class `App` whose fields are the component's state
  variables. Each React setter becomes an assignment. `Valid()` keeps these facts:
  the quiz flags are never both set, the index stays below `questionCount`, the score
  is at most `currentCardIndex`, plus one while an answer is shown (`showAnswer`), and
  every record stays consistent. Because `resetQuiz` leaves `showAnswer` set, this
  bound can exceed the number of answers given by one on the start form.
- `QuestionCard` (`question_card.dfy`): the meaning a question asks for, the
  option-generation loop, and answer submission acting on an `App`.

Randomness comes in as inputs:

- a shuffle takes a list `js`: it swaps `a[i]` with `a[js[i]]`, with `js[i]` in `[0, i]`;
- `generateOptions` takes the indices of the cards it draws, plus the order the final sort produces;
- the random question type takes an index below 2.

Behaviour of the code that the model keeps as written:

- `updateUserData` writes the list as it was before the answer, so the stored list
  lags the in-memory one by one answer (`StorageLagsOneAnswer`).
- `JSON.parse` throws on malformed text. A missing key or a stored falsy JSON value
  (`null`, `false`, `0`, `""`) falls back to fresh records, since `data || ...` tests
  for any falsy value. The model has no parsing: a key is absent or holds a record list.
- `resetQuiz` clears the score, the index and both flags, but not `showAnswer`.
  So a quiz started again begins at index 0 with the answer already shown
  (`PlayAgain`). Its first question cannot be answered, since the submit button only
  renders while `showAnswer` is false (`HandleSubmit` requires it). Its score can
  therefore reach at most `questionCount - 1`. `resetQuiz` does not rebuild the
  session either; that happens only when the email changes.
- `handleNextQuestion` compares against `questionCount`, not the length of the
  session list. So `CurrentCard()` can be `None` when the session is shorter.
- A record with a negative `shown` (possible only in a corrupted store) passes
  neither filter and is dropped (`PrioritizedPermutes`).

## Model

| member | source | states |
|---|---|---|
| ProgressStore.LoadUserData | src/App.js:20-31 | the stored list when the email has one; otherwise one record per dataset card, in dataset order, with the card's id and all three counts 0 |
| ProgressStore.LoadedIsConsistent | src/App.js:20-31 | a loaded list satisfies the counter invariant whenever the store does (fresh records have all counts 0) |
| ProgressStore.UpdatedRecords | src/App.js:98-108 | same length and order; records with another id unchanged; a matching record keeps its id, `shown` goes up by 1, and `correct` (if the answer was right) or else `incorrect` goes up by 1 while the other stays |
| ProgressStore.UpdatePreservesConsistency | src/App.js:103-107 | recording an answer keeps `shown == correct + incorrect` and non-negative counts for every record |
| ProgressStore.FreshRecords | src/App.js:24-29 | one record per dataset card, in dataset order, with the card's id and `shown` 0, each satisfying the counter invariant |
| ProgressStore.Answered | src/App.js:101-108 | the answered record keeps its id, `shown` goes up by 1, exactly one of `correct` / `incorrect` goes up by 1 (`correct` exactly when the answer was right), and the counter invariant is kept |
| ProgressStore.PersistedAfterUpdate | src/App.js:109-112 | the email gets a key only when some record matched the card, and then holds the list from before the answer; every other email's stored list is unchanged |
| ProgressStore.StorageLagsOneAnswer | src/App.js:98-113 | after an update, loading that email returns the list from before the answer, which differs from the new in-memory list |
| ProgressStore.UnknownCardChangesNothing | src/App.js:99-116 | an answer for a card id with no record changes neither the list nor the storage |
| ProgressStore.PersistPreservesConsistency | src/App.js:109-112 | the write keeps every stored list consistent |
| Shuffle.Swap | src/App.js:65 | the destructuring swap exchanges positions i and j and leaves every other position alone |
| Shuffle.SwapPermutes | src/App.js:65 | a swap keeps the multiset of elements |
| Shuffle.ShuffledFrom | src/App.js:63-66 | running the loop from position i down to 1 keeps the length and leaves every position above i as it was |
| Shuffle.Shuffled | src/App.js:62-67 | a shuffle keeps the length, and a list of zero or one elements comes back unchanged since the loop body never runs |
| Shuffle.ShuffledFromPermutes | src/App.js:63-66 | running the loop from position i down to 1 keeps the multiset of elements |
| Shuffle.ShuffledPermutes | src/App.js:62-67 | a shuffle keeps the length and the multiset of elements |
| Shuffle.ShuffledMembers | src/App.js:62-67 | an element is in the shuffled list exactly when it is in the input |
| Shuffle.ShuffleArray | src/App.js:62-67 | the in-place loop, with every swap index in [0, i], leaves the array equal to the shuffle function of its old contents, and so a permutation of them |
| Prioritizer.NeverShown | src/App.js:46 | every record kept has `shown == 0`, and there are no more than in the input |
| Prioritizer.Shown | src/App.js:47 | every record kept has `shown > 0`, and there are no more than in the input |
| Prioritizer.FiltersSplit | src/App.js:46-47 | the two filters together hold exactly the input records with non-negative `shown`, with multiplicity |
| Prioritizer.Ratio | src/App.js:50-51 | the sort key incorrect/(correct+1) is 0 for a record with no incorrect answers, and lies between 0 and `incorrect` when both counts are non-negative |
| Prioritizer.InsertByRatio | src/App.js:49-53 | inserting adds exactly the one record |
| Prioritizer.InsertKeepsDescending | src/App.js:49-53 | inserting into a list in non-increasing order of incorrect/(correct+1) keeps it in that order |
| Prioritizer.SortByRatio | src/App.js:49-53 | the sort keeps the length and the multiset of records |
| Prioritizer.SortByRatioDescending | src/App.js:49-53 | the sorted list is in non-increasing order of incorrect/(correct+1) |
| Prioritizer.PrioritizedRecords | src/App.js:46-55 | the record order (shuffled never-shown records, then the sorted and shuffled shown ones) has one entry per record of either filter; its order and contents are stated by `NeverShownComeFirst` and `PrioritizedPermutes` |
| Prioritizer.NeverShownComeFirst | src/App.js:46-55 | in the prioritised order every record with `shown == 0` comes before every record with `shown > 0` |
| Prioritizer.PrioritizedPermutes | src/App.js:45-57 | the prioritised order holds exactly the input records with non-negative `shown`, with multiplicity |
| Prioritizer.PrioritizedIsPermutation | src/App.js:45-57 | with non-negative counts the prioritised order is a permutation of the input: same length, same multiset |
| Prioritizer.FindCard | src/App.js:56 | a found card is the first dataset card with that id; nothing is found exactly when no card has the id |
| Prioritizer.ToCards | src/App.js:55-57 | one entry per prioritised record |
| Prioritizer.ToCardsMatch | src/App.js:55-57 | entry k is a dataset card with record k's id, or nothing exactly when no card has that id |
| Prioritizer.PrioritizeQuestions | src/App.js:45-60 | the method on local arrays (two shuffles in place, the shown part sorted first) returns the cards of the prioritised order, one per never-shown or shown record |
| Prioritizer.Take | src/App.js:42 | `slice(0, n)` keeps min(n, length) entries, the first ones |
| Prioritizer.SessionCards | src/App.js:41-42 | the session list has at most `questionCount` entries and no more than the prioritised list; its entries are stated by `SessionIsPrefix` |
| Prioritizer.SessionIsPrefix | src/App.js:40-43 | the session has min(questionCount, prioritised length) entries, each the card of the prioritised record at the same position |
| Prioritizer.FreshSessionLength | src/App.js:40-57 | a user with only fresh records who asks for n questions out of at least n cards gets n entries, each a card |
| QuizApp.RandomQuestionType | src/App.js:85-88 | the result is "meaning" for index 0 and "reversed_meaning" for index 1 |
| QuizApp.App.CurrentPhase | src/App.js:120 | the results screen shows exactly when `isQuizComplete` is set (line 120); otherwise the start form shows exactly when `isQuizStarted` is not set (line 145), and the running quiz when it is |
| QuizApp.App.CurrentCard | src/App.js:208 | `shuffledCardData[currentCardIndex]`: the entry at the index while it is in range, and nothing (JavaScript's `undefined`) past the end |
| QuizApp.App.constructor | src/App.js:6-18 | the initial state: empty email, 15 questions, not started, empty session, index and score 0, answer hidden, type "meaning", no records |
| QuizApp.App.ShuffleQuestions | src/App.js:40-43 | the session becomes the prioritised cards of the current records cut to `questionCount` |
| QuizApp.App.LoadUser | src/App.js:33-38 | the records become those loaded for the email and the session is rebuilt from them; the invariant is kept |
| QuizApp.App.ChangeEmail | src/App.js:33-38 | the email input's setter (src/App.js:176-179) sets the email; the effect then loads the user and rebuilds the session only when the email changed and is not empty, otherwise records and session stay |
| QuizApp.App.ChangeQuestionCount | src/App.js:182-196 | on the start form the requested question count becomes n, one of 15, 35 or 78; the session list stays as it was |
| QuizApp.App.HandleFormSubmit | src/App.js:69-72 | submitting the start form moves from the form to the running quiz |
| QuizApp.App.HandleNextQuestion | src/App.js:74-83 | if index + 1 < questionCount the index goes up by 1 (still below questionCount), the answer is hidden and the new type is the drawn one; otherwise the quiz is complete and not started, and the index and type are unchanged |
| QuizApp.App.ResetQuiz | src/App.js:90-95 | score and index become 0 and both flags false, so the start form shows again; records, storage and `showAnswer` are untouched |
| QuizApp.PlayAgain | src/App.js:90-95 | restarting from the results screen (reset, then the start form's submit) gives a running quiz at index 0 with score 0 and the answer still shown |
| QuizApp.App.UpdateUserData | src/App.js:97-117 | the records become the updated list and the storage holds the pre-update list under the email; the invariant is kept |
| QuestionCard.Meaning | src/QuestionCard.js:18-21 | the upright meaning when the type is "meaning", the reversed meaning for any other type |
| QuestionCard.CandidateIsMeaning | src/QuestionCard.js:164-169 | every drawn option other than the seed is the asked-for meaning of some dataset card |
| QuestionCard.Arrange | src/QuestionCard.js:174 | reordering the four options by a permutation keeps the same elements and keeps them distinct |
| QuestionCard.GenerateOptions | src/QuestionCard.js:161-175 | when the draws offer at least four different strings, the result is exactly 4 pairwise distinct options; they contain the correct answer, and every other one is the asked-for meaning of a drawn dataset card; the result is None exactly when the draws offer fewer than four |
| QuestionCard.HandleSubmit | src/QuestionCard.js:28-36 | the score goes up by 1 exactly when the selected answer equals the correct one; the card's records are updated with that outcome; the answer is revealed; only the score, `showAnswer`, the records and the storage change |

## Left out

- Rendering: all JSX, class names, the image rotation, the question text (src/App.js:120-236, src/QuestionCard.js:38-157). This is display, not logic.
- The score percentage with `toFixed(2)` (src/App.js:121): floating-point display.
- The glossary lookups (src/QuestionCard.js:43-44): static display data.
- The `name` field of the user and the `selectedAnswer` / `showExplanation` state of `QuestionCard`. They are UI state. `HandleSubmit` takes the selected answer as an input.
- React scheduling. State updates are direct assignments. In particular, the effect at src/App.js:33-38 builds the session from the `userData` of the previous render, because `setUserData` has not yet taken effect. `LoadUser` uses the freshly loaded records instead.
- `localStorage` and JSON: the store is a map from email to record list. A missing key stands for `getItem` returning null. Parse errors are not modelled.
- `Math.random`: replaced by explicit index inputs, as described above. The model does not capture that the draws are uniformly random.
- Prioritizer.SortByRatio: runs on a sequence before the local array is made, not in place on the array. The ratios are exact reals rather than floating point. `Ratio` is 0 when `correct + 1 == 0`, where JavaScript would give Infinity or NaN; that needs `correct == -1`, which only a corrupted store can hold. The model's insertion sort keeps equal-ratio records in input order, like the runtime's stable sort; that property is not proved.
- QuestionCard.GenerateOptions: the random-comparator sort is modelled as a given permutation of the four positions. The source loop never ends when fewer than four distinct meanings exist. The model takes a finite list of draws and returns None when they run out; the result says when that happens, but not how many draws the browser would take. The unused `correctCard` parameter is dropped.
- QuizApp.App.constructor: requires the initial storage to hold only lists that satisfy the counter invariant. The browser's storage is outside the program, and a store edited by hand could break it; `Valid()` relies on it.
- QuizApp.App.ChangeQuestionCount: does not model `parseInt` of arbitrary text. The select offers only 15, 35 and 78.
