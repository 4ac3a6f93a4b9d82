/** The questions of the trivia game, the rule that judges an answer, the
    number of questions one game asks, and the random shuffle the game
    applies to its questions and to the answers of each question. */
module Trivia {

  /** A question: its text and its answers. By convention answers[0] is the
      correct answer and every question has four answers; the game shows
      the answers in a shuffled order. */
  datatype Question = Question(text: string, answers: seq<string>)

  /** The convention every question must follow: four answers. */
  predicate WellFormed(q: Question) {
    |q.answers| == 4
  }

  predicate WellFormedBank(bank: seq<Question>) {
    forall i :: 0 <= i < |bank| ==> WellFormed(bank[i])
  }

  /** No string occurs twice in `s`. */
  predicate Distinct(s: seq<string>) {
    forall i, j :: 0 <= i < j < |s| ==> s[i] != s[j]
  }

  function Min(a: int, b: int): int {
    if a < b then a else b
  }

  /** The number of questions one game asks for a bank of `size` questions:
      half the bank rounded up, but never more than three. */
  function SessionLength(size: nat): (n: nat)
    ensures n <= 3
    ensures 2 * n <= size + 1           // at most half the bank, rounded up
    ensures n == 3 || size <= 2 * n     // and exactly that unless capped at three
    ensures n <= size && (size > 0 ==> n > 0)
  {
    Min((size + 1) / 2, 3)
  }

  /** The check of the submit handler: the answer shown at `position` has
      the same text as the question's first, correct, answer. Equality is
      by string value, so the order of the shown answers does not matter. */
  predicate IsCorrect(shown: seq<string>, position: int, q: Question)
    requires 0 <= position < |shown| && |q.answers| > 0
  {
    shown[position] == q.answers[0]
  }

  /** The library shuffle: any reordering of `s` may come out. */
  method Shuffle<T(==)>(s: seq<T>) returns (r: seq<T>)
    ensures multiset(r) == multiset(s)
  {
    r :| multiset(r) == multiset(s);
  }

  /** The bank the game ships with. Every question reads the same string
      resource for its text, so all ten share `text`. */
  function TriviaBank(text: string): seq<Question> {
    [ Question(text, ["all of these", "tools", "documentation", "libraries"]),
      Question(text, ["ViewGroup", "ViewSet", "ViewCollection", "ViewRoot"]),
      Question(text, ["ConstraintLayout", "GridLayout", "LinearLayout", "FrameLayout"]),
      Question(text, ["Data Binding", "Data Pushing", "Set Text", "OnClick"]),
      Question(text, ["onCreateView", "onViewCreated", "onCreateLayout", "onInflateLayout"]),
      Question(text, ["Gradle", "Graddle", "Grodle", "Groyle"]),
      Question(text, ["VectorDrawable", "AndroidVectorDrawable", "DrawableVector", "AndroidVector"]),
      Question(text, ["NavController", "NavCentral", "NavMaster", "NavSwitcher"]),
      Question(text, ["intent-filter", "app-registry", "launcher-registry", "app-launcher"]),
      Question(text, ["<layout>", "<binding>", "<data-binding>", "<dbinding>"]) ]
  }

  /** The shipped bank keeps the four-answer convention, has no repeated
      answer within a question, and yields games of three questions. */
  lemma TriviaBankFacts(text: string)
    ensures |TriviaBank(text)| == 10 && WellFormedBank(TriviaBank(text))
    ensures forall i :: 0 <= i < |TriviaBank(text)| ==> Distinct(TriviaBank(text)[i].answers)
    ensures SessionLength(|TriviaBank(text)|) == 3
  {
  }

  // ---------------------------------------------------------------------
  // Permutations

  /** A permutation of a bank of four-answer questions is one too. */
  lemma PermutationKeepsWellFormed(a: seq<Question>, b: seq<Question>)
    requires WellFormedBank(a) && multiset(a) == multiset(b)
    ensures WellFormedBank(b)
  {
    forall i | 0 <= i < |b|
      ensures WellFormed(b[i])
    {
      assert b[i] in multiset(b);
      assert b[i] in a;
    }
  }

  /** In a sequence without repetitions, every string occurs at most once. */
  lemma {:induction false} DistinctCountsAtMostOne(s: seq<string>, x: string)
    requires Distinct(s)
    ensures multiset(s)[x] <= 1
  {
    if s != [] {
      assert s == [s[0]] + s[1..];
      assert multiset(s) == multiset{s[0]} + multiset(s[1..]);
      assert Distinct(s[1..]) by {
        forall i, j | 0 <= i < j < |s[1..]|
          ensures s[1..][i] != s[1..][j]
        {
          assert s[1..][i] == s[i + 1] && s[1..][j] == s[j + 1];
        }
      }
      DistinctCountsAtMostOne(s[1..], x);
      if s[0] == x {
        assert x !in s[1..] by {
          forall k | 0 <= k < |s[1..]|
            ensures s[1..][k] != x
          {
            assert s[1..][k] == s[k + 1];
          }
        }
      }
    }
  }

  /** A string found at two positions occurs at least twice. */
  lemma RepeatCountsTwice(s: seq<string>, i: int, j: int)
    requires 0 <= i < j < |s| && s[i] == s[j]
    ensures multiset(s)[s[i]] >= 2
  {
    assert s == s[..j] + [s[j]] + s[j + 1..];
    assert multiset(s) == multiset(s[..j]) + multiset{s[j]} + multiset(s[j + 1..]);
    assert s[..j][i] == s[i];
    assert s[i] in multiset(s[..j]);
  }

  /** Reordering keeps a sequence free of repetitions. */
  lemma PermutationKeepsDistinct(a: seq<string>, b: seq<string>)
    requires Distinct(a) && multiset(a) == multiset(b)
    ensures Distinct(b)
  {
    forall i, j | 0 <= i < j < |b|
      ensures b[i] != b[j]
    {
      if b[i] == b[j] {
        RepeatCountsTwice(b, i, j);
        DistinctCountsAtMostOne(a, b[i]);
        assert false;
      }
    }
  }

  /** However the answers of a question are shuffled, the correct answer is
      shown somewhere; when the question repeats no answer, it is shown at
      exactly one position, and that is the only position judged correct. */
  lemma OneCorrectPosition(shown: seq<string>, q: Question)
    requires WellFormed(q) && multiset(shown) == multiset(q.answers)
    ensures exists p :: 0 <= p < |shown| && IsCorrect(shown, p, q)
    ensures Distinct(q.answers) ==>
      forall i, j ::
        (0 <= i < |shown| && 0 <= j < |shown| && IsCorrect(shown, i, q) && IsCorrect(shown, j, q)) ==> i == j
  {
    assert q.answers[0] in multiset(q.answers);
    var p :| 0 <= p < |shown| && shown[p] == q.answers[0];
    assert IsCorrect(shown, p, q);
    if Distinct(q.answers) {
      PermutationKeepsDistinct(q.answers, shown);
    }
  }
}
