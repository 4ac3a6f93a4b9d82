/** The state of one quiz game as a value, and the effect of one click on
    the submit button as a function of that value. The class GameFragment
    (module Game) holds the same state in mutable fields; its Submit
    method is proved to follow SubmitStep and keep Valid. */
module GameState {
  import opened Trivia

  /** The ids of the four radio buttons of the answer group. They are
      generated resource ids: distinct, and never -1, the id the radio
      group reports when no button is checked. */
  datatype RadioIds = RadioIds(first: int, second: int, third: int, fourth: int)

  predicate ValidIds(ids: RadioIds) {
    && ids.first != NothingChecked && ids.second != NothingChecked
    && ids.third != NothingChecked && ids.fourth != NothingChecked
    && ids.first != ids.second && ids.first != ids.third && ids.first != ids.fourth
    && ids.second != ids.third && ids.second != ids.fourth && ids.third != ids.fourth
  }

  /** The checked id the radio group reports when no button is checked. */
  const NothingChecked: int := -1

  /** Where navigation has taken the user. GameWon carries the two
      arguments passed to the "game won" screen. */
  datatype Screen = Game | GameWon(numQuestions: int, questionIndex: int) | GameOver

  /** What one click on the submit button did: nothing (no answer chosen),
      moved on to the next question, or ended the game. */
  datatype Outcome = Ignored | Continue | Won | Lost

  /** The fragment's state.
      - sessionLength is the local `numQuestions` computed when the view is
        created and read by the click handler;
      - numQuestions is the field of the same name, which that local shadows
        and which nothing assigns, so it keeps its initial 0;
      - answers is the shuffled copy of currentQuestion's answers on screen. */
  datatype Session = Session(
    ids: RadioIds,
    sessionLength: int,
    numQuestions: int,
    questions: seq<Question>,
    questionIndex: int,
    answerIndex: int,
    currentQuestion: Question,
    answers: seq<string>,
    screen: Screen)

  /** What holds of every state the fragment reaches. */
  predicate Valid(s: Session) {
    && |s.questions| > 0 && WellFormedBank(s.questions)
    && s.sessionLength == SessionLength(|s.questions|)
    && s.numQuestions == 0
    && 0 <= s.answerIndex <= 3
    && WellFormed(s.currentQuestion)
    && |s.answers| == |s.currentQuestion.answers|
    && multiset(s.answers) == multiset(s.currentQuestion.answers)
    && match s.screen
       case GameWon(n, i) =>
         && n == s.numQuestions && i == s.questionIndex
         && s.questionIndex == s.sessionLength
         && s.currentQuestion == s.questions[s.questionIndex - 1]
       case _ =>
         && 0 <= s.questionIndex < s.sessionLength
         && s.currentQuestion == s.questions[s.questionIndex]
  }

  /** The game screen is showing and waits for an answer. */
  predicate Awaiting(s: Session) {
    Valid(s) && s.screen == Game
  }

  /** The answer index after the radio button `checkedId` is checked: the
      second, third and fourth buttons select positions 1, 2 and 3; any
      other id, the first button's included, leaves the index as it was. */
  function SelectedIndex(ids: RadioIds, checkedId: int, previous: int): int {
    if checkedId == ids.second then 1
    else if checkedId == ids.third then 2
    else if checkedId == ids.fourth then 3
    else previous
  }

  /** The answer position judged when `checkedId` is submitted in `s`. */
  function Judged(s: Session, checkedId: int): int {
    SelectedIndex(s.ids, checkedId, s.answerIndex)
  }

  /** A `deal` fits `s` when it is a reordering of the answers of the
      question after the current one (when there is such a question). */
  predicate DealFits(s: Session, deal: seq<string>) {
    0 <= s.questionIndex + 1 < |s.questions| ==>
      multiset(deal) == multiset(s.questions[s.questionIndex + 1].answers)
  }

  /** One click on the submit button with `checkedId` checked. `deal` is
      the shuffled order in which the next question's answers are shown; it
      is used only when the game moves on to that question. */
  function SubmitStep(s: Session, checkedId: int, deal: seq<string>): (Session, Outcome)
    requires Awaiting(s)
  {
    if checkedId == NothingChecked then (s, Ignored)
    else
      var index := SelectedIndex(s.ids, checkedId, s.answerIndex);
      if IsCorrect(s.answers, index, s.currentQuestion) then
        var next := s.questionIndex + 1;
        if next < s.sessionLength then
          (s.(answerIndex := index, questionIndex := next,
              currentQuestion := s.questions[next], answers := deal), Continue)
        else
          (s.(answerIndex := index, questionIndex := next,
              screen := GameWon(s.numQuestions, next)), Won)
      else
        (s.(answerIndex := index, screen := GameOver), Lost)
  }

  // ---------------------------------------------------------------------
  // The radio buttons

  /** Each of the last three buttons selects its own position; the first
      button, and every id that is not one of the last three, keeps the
      previous index, and the index stays among the four positions. */
  lemma SelectedIndexCases(ids: RadioIds, checkedId: int, previous: int)
    requires ValidIds(ids)
    ensures SelectedIndex(ids, ids.second, previous) == 1
    ensures SelectedIndex(ids, ids.third, previous) == 2
    ensures SelectedIndex(ids, ids.fourth, previous) == 3
    ensures SelectedIndex(ids, ids.first, previous) == previous
    ensures checkedId !in {ids.second, ids.third, ids.fourth} ==>
      SelectedIndex(ids, checkedId, previous) == previous
    ensures 0 <= previous <= 3 ==> 0 <= SelectedIndex(ids, checkedId, previous) <= 3
  {
  }

  /** Once the index is not 0, no button selects position 0: the first
      answer shown can no longer be chosen. */
  lemma FirstPositionUnselectable(ids: RadioIds, checkedId: int, previous: int)
    requires previous != 0
    ensures SelectedIndex(ids, checkedId, previous) != 0
  {
  }

  /** Hence, once the index is not 0 and the correct answer is shown first,
      every submission with a button checked loses the game. */
  lemma CorrectShownFirstLoses(s: Session, checkedId: int, deal: seq<string>)
    requires Awaiting(s) && Distinct(s.currentQuestion.answers)
    requires s.answerIndex != 0 && s.answers[0] == s.currentQuestion.answers[0]
    requires checkedId != NothingChecked
    ensures SubmitStep(s, checkedId, deal).1 == Lost
  {
    OneCorrectPosition(s.answers, s.currentQuestion);
    assert IsCorrect(s.answers, 0, s.currentQuestion);
  }

  /** Otherwise some button submits the correct answer: the one showing it,
      or the first button when that one shows it and the index is still 0. */
  lemma CorrectAnswerSelectable(s: Session)
    requires Awaiting(s) && ValidIds(s.ids)
    requires s.answerIndex == 0 || s.answers[0] != s.currentQuestion.answers[0]
    ensures exists c ::
      (c in [s.ids.first, s.ids.second, s.ids.third, s.ids.fourth] &&
       IsCorrect(s.answers, Judged(s, c), s.currentQuestion))
  {
    OneCorrectPosition(s.answers, s.currentQuestion);
    var p :| 0 <= p < |s.answers| && IsCorrect(s.answers, p, s.currentQuestion);
    var buttons := [s.ids.first, s.ids.second, s.ids.third, s.ids.fourth];
    assert Judged(s, buttons[p]) == p;
    assert buttons[p] in buttons;
  }

  // ---------------------------------------------------------------------
  // One submission

  /** A click with no button checked changes nothing. */
  lemma NothingCheckedChangesNothing(s: Session, deal: seq<string>)
    requires Awaiting(s)
    ensures SubmitStep(s, NothingChecked, deal) == (s, Ignored)
  {
  }

  /** How a click with a button checked ends: lost exactly when the answer
      at the judged position differs from the correct one; otherwise the
      game moves to the next question while questions remain and is won on
      the last one. */
  lemma SubmitOutcome(s: Session, checkedId: int, deal: seq<string>)
    requires Awaiting(s) && checkedId != NothingChecked
    ensures var (s', o) := SubmitStep(s, checkedId, deal);
      && s'.answerIndex == Judged(s, checkedId)
      && (o == Lost <==> !IsCorrect(s.answers, Judged(s, checkedId), s.currentQuestion))
      && (o == Continue <==>
            IsCorrect(s.answers, Judged(s, checkedId), s.currentQuestion) && s.questionIndex + 1 < s.sessionLength)
      && (o == Won <==>
            IsCorrect(s.answers, Judged(s, checkedId), s.currentQuestion) && s.questionIndex + 1 == s.sessionLength)
  {
  }

  /** What a submission leaves behind. Every step keeps the question list
      and the invariant. Moving on advances the question index by one, makes
      the question at the new index current and shows the deal; winning
      leaves the index at the session length and reports the field
      numQuestions, which is 0; losing keeps the index. */
  lemma SubmitStepValid(s: Session, checkedId: int, deal: seq<string>)
    requires Awaiting(s) && DealFits(s, deal)
    ensures var (s', o) := SubmitStep(s, checkedId, deal);
      && Valid(s') && s'.questions == s.questions
      && s'.ids == s.ids && s'.sessionLength == s.sessionLength
      && (Awaiting(s') <==> o == Ignored || o == Continue)
      && (o == Continue ==>
            && s'.questionIndex == s.questionIndex + 1
            && s'.currentQuestion == s.questions[s'.questionIndex]
            && s'.answers == deal
            && multiset(s'.answers) == multiset(s'.currentQuestion.answers))
      && (o == Won ==> s'.questionIndex == s.sessionLength && s'.screen == GameWon(0, s.sessionLength))
      && (o == Lost ==> s'.questionIndex == s.questionIndex && s'.screen == GameOver)
  {
  }

  // ---------------------------------------------------------------------
  // A sequence of submissions

  /** One shuffled order per question of the bank, fixed in advance; the
      k-th is the order the answers of question k are shown in when the
      game moves to that question. */
  predicate Dealing(questions: seq<Question>, deals: seq<seq<string>>) {
    && |deals| == |questions|
    && forall k :: 0 <= k < |deals| ==> multiset(deals[k]) == multiset(questions[k].answers)
  }

  function NextDeal(s: Session, deals: seq<seq<string>>): seq<string> {
    if 0 <= s.questionIndex + 1 < |deals| then deals[s.questionIndex + 1] else []
  }

  /** The clicks `clicks`, one after the other, from `s`. Once the game is
      won or lost navigation leaves the game screen, so later clicks never
      reach the handler. The outcome is that of the last click handled. */
  function Run(s: Session, clicks: seq<int>, deals: seq<seq<string>>): (Session, Outcome)
    requires Awaiting(s) && Dealing(s.questions, deals)
    decreases |clicks|
  {
    if clicks == [] then (s, Ignored)
    else
      SubmitStepValid(s, clicks[0], NextDeal(s, deals));
      var (s', o) := SubmitStep(s, clicks[0], NextDeal(s, deals));
      if o == Won || o == Lost then (s', o)
      else Run(s', clicks[1..], deals)
  }

  /** A run keeps the question list and the invariant. */
  lemma {:induction false} RunValid(s: Session, clicks: seq<int>, deals: seq<seq<string>>)
    requires Awaiting(s) && Dealing(s.questions, deals)
    ensures Valid(Run(s, clicks, deals).0) && Run(s, clicks, deals).0.questions == s.questions
    decreases |clicks|
  {
    if clicks != [] {
      SubmitStepValid(s, clicks[0], NextDeal(s, deals));
      var (s', o) := SubmitStep(s, clicks[0], NextDeal(s, deals));
      if o != Won && o != Lost {
        RunValid(s', clicks[1..], deals);
      }
    }
  }

  /** Clicks with no button checked, however many, change nothing. */
  lemma {:induction false} NothingCheckedRun(s: Session, clicks: seq<int>, deals: seq<seq<string>>)
    requires Awaiting(s) && Dealing(s.questions, deals)
    requires forall i :: 0 <= i < |clicks| ==> clicks[i] == NothingChecked
    ensures Run(s, clicks, deals) == (s, Ignored)
    decreases |clicks|
  {
    if clicks != [] {
      NothingCheckedChangesNothing(s, NextDeal(s, deals));
      NothingCheckedRun(s, clicks[1..], deals);
    }
  }

  /** A won game ends with the question index at the session length and the
      "game won" screen given the field numQuestions, 0, and that index; it
      took at least one click for each question still to answer. */
  lemma {:induction false} RunWon(s: Session, clicks: seq<int>, deals: seq<seq<string>>)
    requires Awaiting(s) && Dealing(s.questions, deals)
    requires Run(s, clicks, deals).1 == Won
    ensures Run(s, clicks, deals).0.questionIndex == s.sessionLength
    ensures Run(s, clicks, deals).0.screen == GameWon(0, s.sessionLength)
    ensures s.sessionLength - s.questionIndex <= |clicks|
    decreases |clicks|
  {
    SubmitStepValid(s, clicks[0], NextDeal(s, deals));
    var (s', o) := SubmitStep(s, clicks[0], NextDeal(s, deals));
    if o != Won {
      RunWon(s', clicks[1..], deals);
    }
  }

  /** A lost game ends on the "game over" screen at the question that was
      answered wrongly, which is still the current one. */
  lemma {:induction false} RunLost(s: Session, clicks: seq<int>, deals: seq<seq<string>>)
    requires Awaiting(s) && Dealing(s.questions, deals)
    requires Run(s, clicks, deals).1 == Lost
    ensures var f := Run(s, clicks, deals).0;
      && Valid(f)
      && f.screen == GameOver
      && s.questionIndex <= f.questionIndex < s.sessionLength
      && f.currentQuestion == s.questions[f.questionIndex]
      && !IsCorrect(f.answers, f.answerIndex, f.currentQuestion)
    decreases |clicks|
  {
    RunValid(s, clicks, deals);
    SubmitStepValid(s, clicks[0], NextDeal(s, deals));
    var (s', o) := SubmitStep(s, clicks[0], NextDeal(s, deals));
    if o != Lost {
      RunLost(s', clicks[1..], deals);
    }
  }

  /** Won and lost are final: clicks after the game ended change nothing.
      This follows from Run stopping at Won or Lost, which stands for
      navigation leaving the game screen; the click handler itself has no
      such guard. */
  lemma {:induction false} RunEnded(s: Session, clicks: seq<int>, later: seq<int>, deals: seq<seq<string>>)
    requires Awaiting(s) && Dealing(s.questions, deals)
    requires Run(s, clicks, deals).1 == Won || Run(s, clicks, deals).1 == Lost
    ensures Run(s, clicks + later, deals) == Run(s, clicks, deals)
    decreases |clicks|
  {
    assert (clicks + later)[0] == clicks[0];
    SubmitStepValid(s, clicks[0], NextDeal(s, deals));
    var (s', o) := SubmitStep(s, clicks[0], NextDeal(s, deals));
    if o != Won && o != Lost {
      assert (clicks + later)[1..] == clicks[1..] + later;
      RunEnded(s', clicks[1..], later, deals);
    }
  }

  /** Conversely, one checked click per remaining question, none of them
      answered wrongly, wins the game: the "game won" screen is given 0 and
      the session length. */
  lemma {:induction false} AllCorrectWins(s: Session, clicks: seq<int>, deals: seq<seq<string>>)
    requires Awaiting(s) && Dealing(s.questions, deals)
    requires forall i :: 0 <= i < |clicks| ==> clicks[i] != NothingChecked
    requires |clicks| == s.sessionLength - s.questionIndex
    requires Run(s, clicks, deals).1 != Lost
    ensures Run(s, clicks, deals).1 == Won
    ensures Run(s, clicks, deals).0.screen == GameWon(0, s.sessionLength)
    decreases |clicks|
  {
    SubmitStepValid(s, clicks[0], NextDeal(s, deals));
    var (s', o) := SubmitStep(s, clicks[0], NextDeal(s, deals));
    if o == Continue {
      AllCorrectWins(s', clicks[1..], deals);
    }
  }

  /** With the shipped ten-question bank, a won game asked three questions,
      took at least three clicks, and the "game won" screen is given 0 and
      3 as its two arguments. */
  lemma TriviaGameWon(s: Session, clicks: seq<int>, deals: seq<seq<string>>)
    requires Awaiting(s) && Dealing(s.questions, deals)
    requires |s.questions| == 10 && s.questionIndex == 0
    requires Run(s, clicks, deals).1 == Won
    ensures Run(s, clicks, deals).0.screen == GameWon(0, 3)
    ensures 3 <= |clicks|
  {
    RunWon(s, clicks, deals);
  }
}
