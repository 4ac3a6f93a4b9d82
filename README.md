# Android trivia quiz: the game screen's state machine

This project models the game screen of a small Android trivia app
(`GameFragment`). When the screen is created, it takes a bank of
questions. Each question has four answers, and the first answer is the
correct one. The screen computes how many questions one game asks:
half the bank rounded up, at most three. It shuffles the bank and shows
the first question with its answers in shuffled order. Each click on the
submit button reads the checked radio button and maps it to an answer
position. It then compares the answer shown there with the question's
correct answer, by string value. A correct answer moves on to the next
question with freshly shuffled answers, or wins the game after the last
question. A wrong answer loses the game. A click with no button checked
does nothing.

The model has three modules:

- `Trivia` (`trivia.dfy`): the `Question` value, the four-answer
  convention, the session length, the correctness check, the shuffle and
  the shipped ten-question bank. The shuffle is a nondeterministic
  permutation: any reordering may come out. The file also holds lemmas
  about permutations: they keep a bank well formed and keep answers
  distinct, and exactly one position shows the correct answer.
- `GameState` (`game_state.dfy`): the screen's state as a value
  (`Session`), its invariant (`Valid`, `Awaiting`), the radio-button
  mapping (`SelectedIndex`), and one submission as a function
  (`SubmitStep`). Its `deal` parameter is the new shuffled answer order.
  `Run` chains submissions. The lemmas state what one submission and a
  whole game do.
- `Game` (`game_fragment.dfy`): the class `GameFragment`, with the
  fields the source updates in place and one method per handler.
  `Submit` is proved to follow `SubmitStep` and to keep the invariant.
  The other methods state their effect field by field.

Two behaviours of the code are kept as written:

- The first radio button has no case in the mapping, so it leaves the
  answer index at its previous value. That value is 0 only until a
  later button has been used. After that, the first answer shown can
  never be chosen. If the correct answer is shown first, every
  submission loses (`FirstPositionUnselectable`, `CorrectShownFirstLoses`).
- The click handler reads a local `numQuestions`, which shadows the field
  of the same name. The field is never assigned and stays 0. The model
  keeps both: `sessionLength` is the local and `numQuestions` is the
  field. The "game won" screen is given the field, so it receives 0 and
  the final question index: `(0, 3)` after a three-question game.

Two more behaviours of the code:

- The bank is not checked up front. An empty bank throws when the first
  question is read (`setQuestion`). A question with no answers throws when
  its correct answer is read in the click handler. A question with one to
  three answers throws only when a button past its last answer is judged.
  A question with more than four answers never throws, but its answers
  beyond the fourth can never be chosen. The model covers only the
  convention the code documents: a non-empty bank of four-answer
  questions, which creating the screen requires.
- The bank is not truncated to the session length. The whole shuffled
  bank is kept, and only its first `sessionLength` questions are asked.

## Model

| member | source | states |
|---|---|---|
| `Trivia.SessionLength` | app/src/main/java/com/example/android/navigation/GameFragment.kt:72 | The number of questions per game is half the bank rounded up, capped at three. It is at most the bank size, and positive for a non-empty bank. |
| `Trivia.TriviaBankFacts` | app/src/main/java/com/example/android/navigation/GameFragment.kt:49-72 | The shipped bank has ten questions, each with four distinct answers, so a game asks three questions. |
| `Trivia.Shuffle` | app/src/main/java/com/example/android/navigation/GameFragment.kt:118 | A shuffle returns a permutation of its input (multiset equality). |
| `Trivia.PermutationKeepsWellFormed` | app/src/main/java/com/example/android/navigation/GameFragment.kt:117-118 | Shuffling a bank of four-answer questions yields a bank of four-answer questions. |
| `Trivia.PermutationKeepsDistinct` | app/src/main/java/com/example/android/navigation/GameFragment.kt:127-128 | A shuffled copy of answers without repetitions has no repetitions either. |
| `Trivia.OneCorrectPosition` | app/src/main/java/com/example/android/navigation/GameFragment.kt:87-89 | However the answers are shuffled, some shown position holds the correct answer. When the answers are distinct, exactly one position is judged correct, so correctness depends on the text and not on the display order. |
| `GameState.SelectedIndexCases` | app/src/main/java/com/example/android/navigation/GameFragment.kt:108-114 | The second, third and fourth buttons select positions 1, 2 and 3. The first button, and any other id, keep the previous index. The index stays within 0..3. |
| `GameState.FirstPositionUnselectable` | app/src/main/java/com/example/android/navigation/GameFragment.kt:108-114 | Once the index is not 0, no button selects position 0. |
| `GameState.CorrectShownFirstLoses` | app/src/main/java/com/example/android/navigation/GameFragment.kt:86-101 | If the index is not 0 and the correct answer is shown first, every submission with a button checked loses. |
| `GameState.CorrectAnswerSelectable` | app/src/main/java/com/example/android/navigation/GameFragment.kt:86-89 | Otherwise one of the four buttons submits the correct answer. |
| `GameState.NothingCheckedChangesNothing` | app/src/main/java/com/example/android/navigation/GameFragment.kt:84-85 | A click with no button checked (-1) leaves the whole state unchanged and is ignored. |
| `GameState.SubmitOutcome` | app/src/main/java/com/example/android/navigation/GameFragment.kt:85-101 | With a button checked, the game is lost iff the judged answer's text differs from the correct answer. Otherwise it continues iff questions remain, and is won iff this was the last question. |
| `GameState.SubmitStepValid` | app/src/main/java/com/example/android/navigation/GameFragment.kt:89-101 | Every submission keeps the invariant and the question list. Continuing advances the index by exactly one, makes `questions[questionIndex]` current and shows a permutation of its answers. Winning leaves the index at the session length, on the "game won" screen with arguments (0, length). Losing keeps the index and shows "game over". The game awaits an answer iff the outcome is Ignored or Continue. |
| `GameState.RunValid` | app/src/main/java/com/example/android/navigation/GameFragment.kt:82-104 | Any sequence of clicks keeps the invariant and leaves the question list unchanged. |
| `GameState.NothingCheckedRun` | app/src/main/java/com/example/android/navigation/GameFragment.kt:84-85 | Any number of clicks with no button checked leaves the state unchanged (idempotence). |
| `GameState.RunWon` | app/src/main/java/com/example/android/navigation/GameFragment.kt:91-98 | A won game ends with the index equal to the session length, and the "game won" screen is given (0, length). It took at least one click per remaining question. |
| `GameState.RunLost` | app/src/main/java/com/example/android/navigation/GameFragment.kt:99-101 | A lost game ends on "game over". The question answered wrongly is still current, its index is below the session length, and its judged answer is not the correct one. |
| `GameState.AllCorrectWins` | app/src/main/java/com/example/android/navigation/GameFragment.kt:89-98 | One checked click per remaining question, none answered wrongly, ends the game Won, on the "game won" screen with arguments (0, length). |
| `GameState.RunEnded` | app/src/main/java/com/example/android/navigation/GameFragment.kt:96-101 | Won and lost are final: clicks after the game ended change nothing. This follows from `Run` stopping at Won or Lost, because navigation leaves the game screen; the handler itself has no guard. |
| `GameState.TriviaGameWon` | app/src/main/java/com/example/android/navigation/GameFragment.kt:72 | With a ten-question bank, a won game took at least three clicks and shows "game won" with arguments (0, 3). |
| `Game.GameFragment.constructor` | app/src/main/java/com/example/android/navigation/GameFragment.kt:49-78 | Creating the screen sets the session length from the bank and leaves the field `numQuestions` at 0. The questions are a permutation of the bank, the index is 0, the first question is current, and its answers are shown in some permutation. The game awaits an answer. |
| `Game.GameFragment.RandomizeQuestions` | app/src/main/java/com/example/android/navigation/GameFragment.kt:117-121 | Permutes the questions, resets the index to 0 and shows the first question with its answers permuted. |
| `Game.GameFragment.SetQuestion` | app/src/main/java/com/example/android/navigation/GameFragment.kt:125-128 | Makes `questions[questionIndex]` current and shows a permutation of its answers. |
| `Game.GameFragment.SetTheAnswerIndex` | app/src/main/java/com/example/android/navigation/GameFragment.kt:108-114 | Sets the answer index as `SelectedIndex` says; the first button leaves it unchanged. |
| `Game.GameFragment.NavigateToGameWon` | app/src/main/java/com/example/android/navigation/GameFragment.kt:132-134 | Goes to "game won" with the field `numQuestions` and the question index. |
| `Game.GameFragment.NavigateToGameOver` | app/src/main/java/com/example/android/navigation/GameFragment.kt:136-138 | Goes to "game over". |
| `Game.GameFragment.Submit` | app/src/main/java/com/example/android/navigation/GameFragment.kt:82-104 | One click: the new state and the outcome are those of `SubmitStep`, with the newly shuffled answers as the deal. It keeps the invariant and the question list. No selection changes nothing. Continue advances the index by one; Won ends at the session length with "game won" (0, length); Lost keeps the index. |

## Left out

- Android UI plumbing is not modelled: view inflation, data binding (`invalidateAll`), the toasts and the navigation controller. Navigation is recorded as the `screen` field, and each click returns an `Outcome`.
- The action-bar title "question i of N" is not modelled, because it is a string-resource lookup. It is built from the field `numQuestions`, so it would show N = 0.
- The question texts are not modelled, because they are string-resource lookups. Every question reads the same resource, so the shipped bank gives all ten the same text.
- The shuffle's randomness and its distribution are not modelled: the library call is specified only as "some permutation".
- The radio-button ids are generated resource ids, so they are a parameter of the model (`RadioIds`).
- Kotlin's 32-bit `Int` is not modelled. `(size + 1) / 2` would overflow only for a list of 2^31 - 1 elements, and the indices never exceed three.
- The fields declared `lateinit` are not modelled before the screen is created, because no handler can run before then.
- Clicks after navigation has left the game screen are excluded: `Submit` requires the game screen, because the button is gone by then. `Run` therefore stops at Won or Lost.
- `TitleFragment` is not part of this model. It only inflates a layout and navigates to the game.
