/** The game screen: the fields it updates as the user answers, and its
    handlers. Navigation to the "game won" and "game over" screens is
    recorded in the field `screen`, and each click on the submit button
    returns its Outcome. */
module Game {
  import opened Trivia
  import opened GameState

  class GameFragment {
    /** The ids of the four radio buttons. */
    const ids: RadioIds
    /** The local `numQuestions` of the view's creation, which the click
        handler reads. */
    const sessionLength: int
    /** The field `numQuestions`, shadowed by that local and never assigned. */
    var numQuestions: int
    /** The question list the click handler captures; shuffled once. */
    var questions: seq<Question>
    var questionIndex: int
    var answerIndex: int
    var currentQuestion: Question
    /** The answers of currentQuestion in the order they are shown. */
    var answers: seq<string>
    var screen: Screen

    /** The fields as one value. */
    function State(): Session
      reads this
    {
      Session(ids, sessionLength, numQuestions, questions, questionIndex,
              answerIndex, currentQuestion, answers, screen)
    }

    /** Creating the view: compute the session length from the bank, then
        shuffle the questions and show the first one. The bank must be
        non-empty and keep the four-answer convention. */
    constructor (bank: seq<Question>, ids: RadioIds)
      requires |bank| > 0 && WellFormedBank(bank)
      ensures Awaiting(State())
      ensures this.ids == ids && sessionLength == SessionLength(|bank|)
      ensures numQuestions == 0 && answerIndex == 0
      ensures multiset(questions) == multiset(bank)
      ensures questionIndex == 0 && currentQuestion == questions[0]
      ensures multiset(answers) == multiset(currentQuestion.answers)
    {
      this.ids := ids;
      sessionLength := SessionLength(|bank|);
      numQuestions := 0;
      questions := bank;
      questionIndex := 0;
      answerIndex := 0;
      screen := Game;
      new;
      RandomizeQuestions();
      PermutationKeepsWellFormed(bank, questions);
      assert |questions| == |multiset(questions)| == |bank|;
    }

    /** Shuffles the questions and shows the first one. */
    method RandomizeQuestions()
      requires |questions| > 0
      modifies this
      ensures multiset(questions) == multiset(old(questions))
      ensures questionIndex == 0 && currentQuestion == questions[0]
      ensures multiset(answers) == multiset(currentQuestion.answers)
      ensures |answers| == |currentQuestion.answers|
      ensures answerIndex == old(answerIndex) && numQuestions == old(numQuestions)
      ensures screen == old(screen)
    {
      questions := Shuffle(questions);
      assert |questions| == |multiset(questions)| == |multiset(old(questions))|;
      questionIndex := 0;
      SetQuestion();
    }

    /** Makes the question at questionIndex current and shows a shuffled
        copy of its answers. */
    method SetQuestion()
      requires 0 <= questionIndex < |questions|
      modifies this`currentQuestion, this`answers
      ensures currentQuestion == questions[questionIndex]
      ensures multiset(answers) == multiset(currentQuestion.answers)
      ensures |answers| == |currentQuestion.answers|
    {
      currentQuestion := questions[questionIndex];
      answers := Shuffle(currentQuestion.answers);
      assert |answers| == |multiset(answers)|;
    }

    /** Records which answer position the checked radio button selects. */
    method SetTheAnswerIndex(checkedId: int)
      modifies this`answerIndex
      ensures answerIndex == SelectedIndex(ids, checkedId, old(answerIndex))
    {
      if checkedId == ids.second {
        answerIndex := 1;
      } else if checkedId == ids.third {
        answerIndex := 2;
      } else if checkedId == ids.fourth {
        answerIndex := 3;
      }
    }

    method NavigateToGameWon()
      modifies this`screen
      ensures screen == GameWon(numQuestions, questionIndex)
    {
      screen := GameWon(numQuestions, questionIndex);
    }

    method NavigateToGameOver()
      modifies this`screen
      ensures screen == GameOver
    {
      screen := GameOver;
    }

    /** A click on the submit button while radio button `checkedId` is
        checked (NothingChecked when none is). The new state is the one
        SubmitStep gives, where the deal is the freshly shuffled order of
        the next question's answers. */
    method Submit(checkedId: int) returns (outcome: Outcome)
      requires Awaiting(State())
      modifies this
      ensures outcome == Continue ==> multiset(answers) == multiset(currentQuestion.answers)
      ensures (State(), outcome) == SubmitStep(old(State()), checkedId, answers)
      ensures Valid(State()) && questions == old(questions)
      ensures checkedId == NothingChecked ==> outcome == Ignored && State() == old(State())
      ensures outcome == Continue ==>
        questionIndex == old(questionIndex) + 1 && currentQuestion == questions[questionIndex]
      ensures outcome == Won ==> questionIndex == sessionLength && screen == GameWon(0, sessionLength)
      ensures outcome == Lost ==> questionIndex == old(questionIndex) && screen == GameOver
    {
      if NothingChecked != checkedId {
        SetTheAnswerIndex(checkedId);
        if answers[answerIndex] == currentQuestion.answers[0] {
          questionIndex := questionIndex + 1;
          if questionIndex < sessionLength {
            currentQuestion := questions[questionIndex];
            SetQuestion();
            outcome := Continue;
          } else {
            NavigateToGameWon();
            outcome := Won;
          }
        } else {
          NavigateToGameOver();
          outcome := Lost;
        }
      } else {
        outcome := Ignored;
      }
    }
  }

  /** With a ten-question bank, such as the shipped one, a game asks three
      questions. A player who gets the first right with the second radio
      button is then shown the second question; a click with no button
      checked changes nothing. */
  method FirstMoves(bank: seq<Question>, ids: RadioIds)
    requires |bank| == 10 && WellFormedBank(bank) && ValidIds(ids)
  {
    var game := new GameFragment(bank, ids);
    assert game.sessionLength == 3;
    if game.answers[1] == game.currentQuestion.answers[0] {
      var outcome := game.Submit(ids.second);
      assert outcome == Continue && game.questionIndex == 1 && game.answerIndex == 1;
    } else {
      var outcome := game.Submit(NothingChecked);
      assert outcome == Ignored && game.questionIndex == 0;
    }
  }
}
