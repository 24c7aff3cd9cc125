/**
 * The quiz page: one question at a time, Previous / Next navigation, an
 * answer slot per question, a Submit button that is enabled once every
 * question has an answer, a score with a three-tier verdict, and Play Again.
 *
 * The page's session state (the current question index, the answers list
 * and the submitted flag) is a `QuizSession` object; each button press is a
 * method that updates it.
 */
module Quiz {
  import opened Wrappers

  datatype Question = Question(text: string, options: seq<string>, answer: string)

  /** The questions the page ships with. */
  const QuizData: seq<Question> := [
    Question("Which planet is known as the Red Planet?",
             ["Earth", "Mars", "Jupiter", "Saturn"], "Mars"),
    Question("Who developed the theory of relativity?",
             ["Isaac Newton", "Albert Einstein", "Galileo", "Marie Curie"], "Albert Einstein"),
    Question("What is the capital of France?",
             ["Paris", "London", "Berlin", "Madrid"], "Paris"),
    Question("Which is the largest ocean on Earth?",
             ["Indian Ocean", "Atlantic Ocean", "Arctic Ocean", "Pacific Ocean"], "Pacific Ocean"),
    Question("Who wrote 'Romeo and Juliet'?",
             ["Charles Dickens", "William Shakespeare", "Leo Tolstoy", "Mark Twain"], "William Shakespeare")
  ]

  /** No question has an answer yet: one `None` per question. */
  function Unanswered(n: nat): (answers: seq<Option<string>>)
    ensures |answers| == n && forall i :: 0 <= i < n ==> answers[i] == None
  {
    seq(n, _ => None)
  }

  predicate AllAnswered(answers: seq<Option<string>>) {
    forall i :: 0 <= i < |answers| ==> answers[i].Some?
  }

  // ---------------------------------------------------------------------
  // Scoring
  // ---------------------------------------------------------------------

  predicate Correct(answer: Option<string>, q: Question) {
    answer == Some(q.answer)
  }

  /** The number of questions whose answer equals the correct one. */
  function CountCorrect(answers: seq<Option<string>>, quiz: seq<Question>): (n: nat)
    requires |answers| == |quiz|
    ensures n <= |quiz|
    ensures n == |quiz| <==> forall i :: 0 <= i < |quiz| ==> Correct(answers[i], quiz[i])
    ensures n == 0 <==> forall i :: 0 <= i < |quiz| ==> !Correct(answers[i], quiz[i])
  {
    if quiz == [] then 0
    else
      var last := |quiz| - 1;
      var n' := CountCorrect(answers[..last], quiz[..last]);
      assert forall i :: 0 <= i < last ==> answers[..last][i] == answers[i] && quiz[..last][i] == quiz[i];
      n' + if Correct(answers[last], quiz[last]) then 1 else 0
  }

  /** An answer left empty is never correct. */
  lemma {:induction false} UnansweredScoresZero(quiz: seq<Question>)
    ensures CountCorrect(Unanswered(|quiz|), quiz) == 0
  {
    assert forall i :: 0 <= i < |quiz| ==> !Correct(Unanswered(|quiz|)[i], quiz[i]);
  }

  datatype Verdict = Perfect | Great | KeepLearning

  /** Perfect at full marks, Great at 70% or more, Keep learning otherwise. */
  function VerdictFor(score: nat, n: nat): (v: Verdict)
    ensures v == Perfect <==> score == n
    ensures v == Great <==> score != n && 10 * score >= 7 * n
    ensures v == KeepLearning <==> score != n && 10 * score < 7 * n
  {
    if score == n then Perfect else if 10 * score >= 7 * n then Great else KeepLearning
  }

  /** With the five shipped questions, Great means exactly four right answers. */
  lemma FiveQuestionTiers(score: nat)
    requires score <= |QuizData|
    ensures VerdictFor(score, |QuizData|) == Great <==> score == 4
    ensures VerdictFor(score, |QuizData|) == KeepLearning <==> score <= 3
  {
  }

  // ---------------------------------------------------------------------
  // The session
  // ---------------------------------------------------------------------

  class QuizSession {
    const quiz: seq<Question>
    var currentQ: int
    var answers: seq<Option<string>>
    var submitted: bool

    ghost predicate Valid()
      reads this
    {
      |quiz| > 0 && |answers| == |quiz|
    }

    /** The index is on a question: true after the clamp that starts every run. */
    ghost predicate OnQuestion()
      reads this
    {
      Valid() && 0 <= currentQ < |quiz|
    }

    /** First visit: question 0, no answers, not submitted. */
    constructor(quiz: seq<Question>)
      requires |quiz| > 0
      ensures this.quiz == quiz && Valid()
      ensures currentQ == 0 && answers == Unanswered(|quiz|) && !submitted
    {
      this.quiz := quiz;
      currentQ := 0;
      answers := Unanswered(|quiz|);
      submitted := false;
    }

    /** Every run starts by clamping the index into `[0, n-1]`. */
    method Clamp()
      requires Valid()
      modifies this
      ensures OnQuestion()
      ensures currentQ == if old(currentQ) < 0 then 0 else if old(currentQ) > |quiz| - 1 then |quiz| - 1 else old(currentQ)
      ensures answers == old(answers) && submitted == old(submitted)
    {
      var upper := if currentQ < |quiz| - 1 then currentQ else |quiz| - 1;
      currentQ := if 0 < upper then upper else 0;
    }

    /** The radio button writes its choice into the current question's slot only. */
    method Answer(choice: Option<string>)
      requires OnQuestion() && !submitted
      requires choice.Some? ==> choice.value in quiz[currentQ].options
      modifies this
      ensures OnQuestion()
      ensures answers == old(answers)[old(currentQ) := choice]
      ensures currentQ == old(currentQ) && submitted == old(submitted)
    {
      answers := answers[currentQ := choice];
    }

    /** Previous is disabled on the first question; otherwise it moves back one. */
    method Previous() returns (enabled: bool)
      requires OnQuestion() && !submitted
      modifies this
      ensures OnQuestion()
      ensures enabled <==> old(currentQ) != 0
      ensures currentQ == if enabled then old(currentQ) - 1 else old(currentQ)
      ensures answers == old(answers) && submitted == old(submitted)
    {
      enabled := currentQ != 0;
      if enabled {
        currentQ := if currentQ - 1 > 0 then currentQ - 1 else 0;
      }
    }

    /** Next is disabled on the last question; otherwise it moves on one. */
    method Next() returns (enabled: bool)
      requires OnQuestion() && !submitted
      modifies this
      ensures OnQuestion()
      ensures enabled <==> old(currentQ) != |quiz| - 1
      ensures currentQ == if enabled then old(currentQ) + 1 else old(currentQ)
      ensures answers == old(answers) && submitted == old(submitted)
    {
      enabled := currentQ != |quiz| - 1;
      if enabled {
        currentQ := if currentQ + 1 < |quiz| - 1 then currentQ + 1 else |quiz| - 1;
      }
    }

    /** Submit is enabled only when every question has an answer. */
    method Submit() returns (enabled: bool)
      requires OnQuestion() && !submitted
      modifies this
      ensures OnQuestion()
      ensures enabled <==> AllAnswered(old(answers))
      ensures submitted == enabled
      ensures answers == old(answers) && currentQ == old(currentQ)
    {
      enabled := forall i :: 0 <= i < |answers| ==> answers[i].Some?;
      if enabled {
        submitted := true;
      }
    }

    /** The result page counts the correct answers one question at a time. */
    method Score() returns (score: nat)
      requires Valid()
      ensures score == CountCorrect(answers, quiz)
    {
      score := 0;
      for i := 0 to |quiz|
        invariant score == CountCorrect(answers[..i], quiz[..i])
      {
        assert answers[..i + 1][..i] == answers[..i] && quiz[..i + 1][..i] == quiz[..i];
        if answers[i] == Some(quiz[i].answer) {
          score := score + 1;
        }
      }
      assert answers[..|quiz|] == answers && quiz[..|quiz|] == quiz;
    }

    /** Play Again returns to the first question with no answers. */
    method PlayAgain()
      requires Valid() && submitted
      modifies this
      ensures OnQuestion()
      ensures currentQ == 0 && answers == Unanswered(|quiz|) && !submitted
    {
      currentQ := 0;
      answers := Unanswered(|quiz|);
      submitted := false;
    }
  }

  /**
   * A full round: answer every question in order with the right option,
   * submit, and score. The verdict is Perfect; Play Again then starts over.
   */
  method PerfectRound() returns (score: nat, verdict: Verdict, submittedAfterReset: bool)
    ensures score == |QuizData| && verdict == Perfect && !submittedAfterReset
  {
    var session := new QuizSession(QuizData);
    var i := 0;
    while i < |QuizData|
      invariant i <= |QuizData|
      invariant session.OnQuestion() && !session.submitted && session.quiz == QuizData
      invariant session.currentQ == if i < |QuizData| then i else |QuizData| - 1
      invariant forall k :: 0 <= k < i ==> session.answers[k] == Some(QuizData[k].answer)
    {
      session.Answer(Some(QuizData[i].answer));
      if i < |QuizData| - 1 {
        var moved := session.Next();
      }
      i := i + 1;
    }
    var enabled := session.Submit();
    score := session.Score();
    verdict := VerdictFor(score, |QuizData|);
    session.PlayAgain();
    submittedAfterReset := session.submitted;
  }
}
