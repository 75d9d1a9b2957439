/**
 * The quiz runner's session state and its transitions: starting a quiz
 * (all questions, a random sample, or only the questions answered wrongly
 * before), grading the answer to the current question once, and moving
 * on to the next question or to the summary.
 */
module QuizSession {
  import opened Wrappers
  import opened Questions

  /** The screen the runner shows: 'menu', 'quiz' or 'summary'. */
  datatype Screen = Menu | Quiz | Summary

  /** The letters of a list, as the set Python builds from it. */
  function Letters(s: seq<char>): set<char> {
    set c | c in s
  }

  /** An answer is right when the selected letters are exactly the correct letters, whatever their order or repetitions. */
  predicate SameAnswers(selection: seq<char>, correct: seq<char>)
    ensures SameAnswers(selection, correct) <==> (forall c :: c in selection <==> c in correct)
  {
    assert forall c :: c in Letters(selection) <==> c in selection;
    assert forall c :: c in Letters(correct) <==> c in correct;
    Letters(selection) == Letters(correct)
  }

  /** With correct letters a and c, only a selection of exactly a and c is right. */
  lemma GradingExamples()
    ensures SameAnswers(['a', 'c'], ['a', 'c'])
    ensures SameAnswers(['c', 'a'], ['a', 'c'])
    ensures SameAnswers(['a', 'c', 'a'], ['a', 'c'])
    ensures !SameAnswers(['a'], ['a', 'c'])
    ensures !SameAnswers(['a', 'b', 'c'], ['a', 'c'])
    ensures !SameAnswers([], ['a', 'c'])
  {
    assert 'c' in Letters(['a', 'c']) && 'c' !in Letters(['a']);
    assert 'b' in Letters(['a', 'b', 'c']) && 'b' !in Letters(['a', 'c']);
    assert 'a' in Letters(['a', 'c']) && 'a' !in Letters([]);
  }

  /**
   * The review pool before shuffling: the questions whose id is among
   * `ids`, in list order. Each such question occurs as often as in the
   * list, any other not at all.
   */
  function WithIds(questions: seq<Question>, ids: set<nat>): (r: seq<Question>)
    ensures forall q :: multiset(r)[q] == if q.id in ids then multiset(questions)[q] else 0
    ensures forall q :: q in r <==> q in questions && q.id in ids
  {
    if questions == [] then []
    else
      var prefix := questions[..|questions| - 1];
      var last := questions[|questions| - 1];
      assert questions == prefix + [last];
      WithIds(prefix, ids) + (if last.id in ids then [last] else [])
  }

  function Min(a: nat, b: nat): nat { if a <= b then a else b }

  /** The list a new quiz draws from, before sampling and shuffling. */
  function Candidates(questions: seq<Question>, reviewOnly: bool, ids: set<nat>): seq<Question> {
    if reviewOnly then WithIds(questions, ids) else questions
  }

  /** A random sample is taken when a non-zero number of questions is asked for (and not in review mode). */
  predicate Sampling(reviewOnly: bool, numQuestions: Option<nat>) {
    !reviewOnly && numQuestions.Some? && numQuestions.value != 0
  }

  /**
   * What the random choices may produce: in review mode some ordering of
   * the questions with a wrongly answered id; with a sample size, that
   * many questions (at most all of them) drawn from distinct positions of
   * the list, in some order; otherwise some ordering of all questions.
   */
  ghost predicate IsPool(pool: seq<Question>, questions: seq<Question>, reviewOnly: bool,
                         numQuestions: Option<nat>, ids: set<nat>)
    ensures IsPool(pool, questions, reviewOnly, numQuestions, ids) ==> multiset(pool) <= multiset(questions)
  {
    if Sampling(reviewOnly, numQuestions) then
      |pool| == Min(numQuestions.value, |questions|) && multiset(pool) <= multiset(questions)
    else
      multiset(pool) == multiset(Candidates(questions, reviewOnly, ids))
  }

  /** A prefix of a list is a valid sample of its length. */
  lemma PrefixIsSample(questions: seq<Question>, k: nat)
    requires k <= |questions|
    ensures multiset(questions[..k]) <= multiset(questions)
  {
    assert questions == questions[..k] + questions[k..];
  }

  /** A list without repetitions has every element at most once in its multiset. */
  lemma {:induction false} DistinctCounts(qs: seq<Question>, q: Question)
    requires forall i, j :: 0 <= i < j < |qs| ==> qs[i] != qs[j]
    ensures multiset(qs)[q] <= 1
  {
    if qs != [] {
      var prefix := qs[..|qs| - 1];
      assert qs == prefix + [qs[|qs| - 1]];
      DistinctCounts(prefix, q);
      if q == qs[|qs| - 1] {
        assert q !in prefix;
      }
    }
  }

  /** A random sample of a list without repeated questions has no repeated questions either. */
  lemma SampleHasNoRepeats(pool: seq<Question>, questions: seq<Question>)
    requires multiset(pool) <= multiset(questions)
    requires forall i, j :: 0 <= i < j < |questions| ==> questions[i] != questions[j]
    ensures forall i, j :: 0 <= i < j < |pool| ==> pool[i] != pool[j]
  {
    forall i, j | 0 <= i < j < |pool| ensures pool[i] != pool[j] {
      if pool[i] == pool[j] {
        var q := pool[i];
        assert pool == pool[..i] + [q] + pool[i + 1..j] + [q] + pool[j + 1..];
        assert multiset(pool)[q] >= 2;
        DistinctCounts(questions, q);
      }
    }
  }

  /**
   * The pool of a new quiz in shuffled order: the questions whose id is
   * among the recorded mistakes in review mode (none when no mistake is
   * recorded), a random sample of the requested size, or all questions.
   * The pool is empty exactly when there is nothing to ask.
   */
  method DrawPool(questions: seq<Question>, reviewOnly: bool, numQuestions: Option<nat>, ids: set<nat>)
    returns (pool: seq<Question>)
    ensures IsPool(pool, questions, reviewOnly, numQuestions, ids)
    ensures pool == [] <==> Candidates(questions, reviewOnly, ids) == []
  {
    var drawn: seq<Question>;
    if reviewOnly {
      if ids == {} {
        return [];
      }
      drawn := WithIds(questions, ids);
    } else if numQuestions.Some? && numQuestions.value != 0 {
      var k := Min(numQuestions.value, |questions|);
      PrefixIsSample(questions, k);
      drawn :| |drawn| == k && multiset(drawn) <= multiset(questions);
    } else {
      drawn := questions;
    }
    pool :| multiset(pool) == multiset(drawn);
  }

  /** The runner's `st.session_state`. */
  class Session {
    var screen: Screen
    var score: nat
    var currentIndex: nat
    var newlyIncorrect: nat
    var incorrectIds: set<nat>
    var answerSubmitted: bool
    var scoreCalculated: bool
    var userSelection: seq<char>
    var questionsToAsk: seq<Question>

    /**
     * The session invariant: on the quiz and summary screens the index
     * names a question of the session; a grade is recorded only for a
     * submitted answer; and each question shown so far has added at most
     * one to the score or to the count of new mistakes.
     */
    ghost predicate Valid()
      reads this
    {
      && (screen != Menu ==> currentIndex < |questionsToAsk|)
      && (scoreCalculated ==> answerSubmitted)
      && score + newlyIncorrect <= currentIndex + (if scoreCalculated then 1 else 0)
    }

    /** A fresh session: the menu, no mistakes recorded, zero counters, no questions. */
    constructor ()
      ensures Valid()
      ensures screen == Menu && incorrectIds == {} && score == 0 && currentIndex == 0
      ensures newlyIncorrect == 0 && questionsToAsk == []
    {
      screen := Menu;
      incorrectIds := {};
      score := 0;
      currentIndex := 0;
      newlyIncorrect := 0;
      questionsToAsk := [];
      answerSubmitted := false;
      scoreCalculated := false;
      userSelection := [];
    }

    /**
     * Start a quiz: reset the counters and flags, build the pool (review
     * mode, a random sample, or all questions), and switch to the quiz
     * screen with the shuffled pool, unless review mode has no mistakes to
     * review or the pool is empty, in which case screen and questions stay.
     */
    method StartQuiz(questions: seq<Question>, reviewOnly: bool, numQuestions: Option<nat>)
      requires Valid()
      modifies this
      ensures Valid()
      ensures score == 0 && currentIndex == 0 && newlyIncorrect == 0
      ensures !answerSubmitted && !scoreCalculated && userSelection == []
      ensures incorrectIds == old(incorrectIds)
      ensures if (reviewOnly && old(incorrectIds) == {}) || Candidates(questions, reviewOnly, old(incorrectIds)) == []
              then screen == old(screen) && questionsToAsk == old(questionsToAsk)
              else screen == Quiz && questionsToAsk != [] &&
                   IsPool(questionsToAsk, questions, reviewOnly, numQuestions, incorrectIds)
    {
      score := 0;
      currentIndex := 0;
      newlyIncorrect := 0;
      answerSubmitted := false;
      scoreCalculated := false;
      userSelection := [];

      var pool := DrawPool(questions, reviewOnly, numQuestions, incorrectIds);
      if pool == [] {
        return;
      }
      questionsToAsk := pool;
      screen := Quiz;
    }

    /** The "check answer" button: the answer counts as submitted. */
    method Submit()
      requires Valid()
      modifies this`answerSubmitted
      ensures Valid() && answerSubmitted
    {
      answerSubmitted := true;
    }

    /**
     * One pass of the question screen after the selection is read: if the
     * answer is submitted and not yet graded, an exact match of the
     * selected and correct letters adds one to the score and clears the
     * question's id from the mistakes; a mismatch records the id and counts
     * a new mistake only if the id was not recorded before. The grade is
     * then marked as calculated, so a second pass changes nothing.
     */
    method Grade(selection: seq<char>)
      requires Valid() && screen == Quiz
      modifies this`userSelection, this`score, this`incorrectIds, this`newlyIncorrect, this`scoreCalculated
      ensures Valid()
      ensures userSelection == selection
      ensures var q := questionsToAsk[currentIndex];
              var right := SameAnswers(selection, q.correct);
              if old(answerSubmitted && !scoreCalculated) then
                && scoreCalculated
                && score == old(score) + (if right then 1 else 0)
                && incorrectIds == (if right then old(incorrectIds) - {q.id} else old(incorrectIds) + {q.id})
                && newlyIncorrect == old(newlyIncorrect) + (if !right && q.id !in old(incorrectIds) then 1 else 0)
              else
                && scoreCalculated == old(scoreCalculated)
                && score == old(score) && incorrectIds == old(incorrectIds)
                && newlyIncorrect == old(newlyIncorrect)
    {
      userSelection := selection;
      var q := questionsToAsk[currentIndex];
      if answerSubmitted && !scoreCalculated {
        if Letters(userSelection) == Letters(q.correct) {
          score := score + 1;
          incorrectIds := incorrectIds - {q.id};
        } else {
          if q.id !in incorrectIds {
            newlyIncorrect := newlyIncorrect + 1;
          }
          incorrectIds := incorrectIds + {q.id};
        }
        scoreCalculated := true;
      }
    }

    /**
     * The "next question" button: advance to the next question and clear
     * both flags, or, after the last question, show the summary and keep
     * the index.
     */
    method NextQuestion()
      requires Valid() && screen == Quiz
      modifies this`currentIndex, this`answerSubmitted, this`scoreCalculated, this`screen
      ensures Valid()
      ensures if old(currentIndex) + 1 < |questionsToAsk| then
                currentIndex == old(currentIndex) + 1 && !answerSubmitted && !scoreCalculated && screen == Quiz
              else
                screen == Summary && currentIndex == old(currentIndex) &&
                answerSubmitted == old(answerSubmitted) && scoreCalculated == old(scoreCalculated)
    {
      if currentIndex + 1 < |questionsToAsk| {
        currentIndex := currentIndex + 1;
        answerSubmitted := false;
        scoreCalculated := false;
      } else {
        screen := Summary;
      }
    }
  }

  /**
   * While a quiz runs or its summary is shown, the score plus the new
   * mistakes never exceed the number of questions in the session: each
   * question is graded at most once.
   */
  lemma ScoreWithinSession(s: Session)
    requires s.Valid() && s.screen != Menu
    ensures s.score + s.newlyIncorrect <= |s.questionsToAsk|
  {
  }
}
