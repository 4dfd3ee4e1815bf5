/**
  The quiz session of app/main.py. Behind the web routes sits a small state
  machine over three session slots: the current question, the current topic
  and the feedback text. Each route is a method of `Session` that reads the
  form values it is given, updates the slots, and answers with an `Outcome`
  tag standing for a redirect or a rendered page.
 */
module QuizSession {
  import opened Wrappers
  import opened QuestionGenerator

  /** What a route hands back to the web framework. */
  datatype Outcome =
    | RedirectToIndex
    | RedirectToFeedback
      /** The quiz page, showing `question` and, when there is one, `feedback`. */
    | QuizPage(question: Question, feedback: Option<string>)

  const SelectAnAnswer: string := "Please select an answer."
  const QuestionMismatch: string := "There was an issue with the question. Please try the current one."
  const Correct: string := "Correct!"
  const NoExplanation: string := "No explanation provided."
  const IncorrectLead: string := "Incorrect. The correct answer was: "
  const ExplanationLead: string := ". Explanation: "

  /** A form value Python treats as true: present and not empty. */
  predicate Present(v: Option<string>) {
    v.Some? && v.value != ""
  }

  /** `part` sits in `whole` starting at position `at`. */
  predicate OccursAt(part: string, whole: string, at: nat) {
    at + |part| <= |whole| && whole[at..at + |part|] == part
  }

  /**
    The feedback for a wrong answer to `q`. It is never "Correct!", and it
    quotes the correct answer and then the explanation, or a stock sentence
    when the question has none.
   */
  function IncorrectFeedback(q: Question): (fb: string)
    ensures fb != Correct
    ensures OccursAt(q.correctAnswer, fb, |IncorrectLead|)
    ensures OccursAt(q.explanation.GetOr(NoExplanation), fb,
                     |IncorrectLead| + |q.correctAnswer| + |ExplanationLead|)
  {
    var fb := IncorrectLead + q.correctAnswer + ExplanationLead + q.explanation.GetOr(NoExplanation);
    assert fb[0] != Correct[0];
    fb
  }

  /** How an answer is marked: "Correct!" exactly when the selected answer is the correct one. */
  function Grade(q: Question, selected: string): (fb: string)
    ensures fb == Correct <==> selected == q.correctAnswer
    ensures selected != q.correctAnswer ==> fb == IncorrectFeedback(q)
  {
    if selected == q.correctAnswer then Correct else IncorrectFeedback(q)
  }

  /** The texts the feedback slot can hold while `q` is the current question. */
  predicate IsFeedbackFor(fb: string, q: Question) {
    fb == SelectAnAnswer || fb == QuestionMismatch || fb == Correct || fb == IncorrectFeedback(q)
  }

  /**
    When a question's options are distinct and its answer is among them, exactly
    one option is graded "Correct!": the one at index `k`.
   */
  lemma OneCorrectOption(q: Question) returns (k: nat)
    requires Distinct(q.options) && q.correctAnswer in q.options
    ensures k < |q.options|
    ensures forall i :: 0 <= i < |q.options| ==> (Grade(q, q.options[i]) == Correct <==> i == k)
  {
    k :| k < |q.options| && q.options[k] == q.correctAnswer;
    forall i | 0 <= i < |q.options|
      ensures Grade(q, q.options[i]) == Correct <==> i == k
    {
      if i != k {
        assert q.options[i] != q.options[k];
      }
    }
  }

  /** Among the four options of a generated question exactly one is graded "Correct!". */
  lemma ExactlyOneOptionIsCorrect(topic: string) returns (k: nat)
    ensures k < |GenerateQuizQuestion(topic).options| == 4
    ensures forall i :: 0 <= i < 4 ==>
      (Grade(GenerateQuizQuestion(topic), GenerateQuizQuestion(topic).options[i]) == Correct <==> i == k)
  {
    k := OneCorrectOption(GenerateQuizQuestion(topic));
  }

  /** The session slots the routes share. */
  class Session {
    var currentQuestion: Option<Question>
    var currentTopic: Option<string>
    var feedback: Option<string>

    /**
      What the routes maintain: a stored topic is not empty, a stored question
      is the generated question for the stored topic, and stored feedback is one
      of the texts for the current question.
     */
    ghost predicate Valid()
      reads this
    {
      && (currentTopic.Some? ==> currentTopic.value != "")
      && (currentQuestion.Some? ==>
            currentTopic.Some? && currentQuestion.value == GenerateQuizQuestion(currentTopic.value))
      && (feedback.Some? ==> currentQuestion.Some? && IsFeedbackFor(feedback.value, currentQuestion.value))
    }

    /** A fresh session holds none of the three slots. */
    constructor ()
      ensures Valid()
      ensures currentQuestion == None && currentTopic == None && feedback == None
    {
      currentQuestion, currentTopic, feedback := None, None, None;
    }

    /**
      `start_quiz`: without a topic nothing changes and the user goes back to the
      index; otherwise the generated question and the topic are stored, old
      feedback is dropped and the quiz page shows the new question.
     */
    method StartQuiz(topic: Option<string>) returns (o: Outcome)
      modifies this
      ensures !Present(topic) ==>
        o == RedirectToIndex &&
        currentQuestion == old(currentQuestion) && currentTopic == old(currentTopic) && feedback == old(feedback)
      ensures Present(topic) ==>
        && currentQuestion == Some(GenerateQuizQuestion(topic.value))
        && currentTopic == topic
        && feedback == None
        && o == QuizPage(GenerateQuizQuestion(topic.value), None)
      ensures old(Valid()) ==> Valid()
    {
      if !Present(topic) {
        return RedirectToIndex;
      }
      var question := GenerateQuizQuestion(topic.value);
      currentQuestion := Some(question);
      currentTopic := topic;
      feedback := None;
      o := QuizPage(question, None);
    }

    /**
      `submit_answer`: only the feedback slot may change. Without a current
      question nothing changes; a missing answer or question id asks the user
      to select an answer; an id that is not the current question's reports a
      mismatch; otherwise the answer is graded.
     */
    method SubmitAnswer(answer: Option<string>, questionId: Option<string>) returns (o: Outcome)
      modifies this`feedback
      ensures currentQuestion.None? ==> o == RedirectToIndex && feedback == old(feedback)
      ensures currentQuestion.Some? && (!Present(answer) || !Present(questionId)) ==>
        o == RedirectToFeedback && feedback == Some(SelectAnAnswer)
      ensures currentQuestion.Some? && Present(answer) && Present(questionId)
              && questionId.value != currentQuestion.value.id ==>
        o == RedirectToIndex && feedback == Some(QuestionMismatch)
      ensures currentQuestion.Some? && Present(answer) && Present(questionId)
              && questionId.value == currentQuestion.value.id ==>
        o == RedirectToFeedback && feedback == Some(Grade(currentQuestion.value, answer.value))
      ensures old(Valid()) ==> Valid()
    {
      if currentQuestion.None? {
        return RedirectToIndex;
      }
      var question := currentQuestion.value;
      if !Present(answer) || !Present(questionId) {
        feedback := Some(SelectAnAnswer);
        return RedirectToFeedback;
      }
      if questionId.value != question.id {
        feedback := Some(QuestionMismatch);
        return RedirectToIndex;
      }
      feedback := Some(Grade(question, answer.value));
      o := RedirectToFeedback;
    }

    /**
      `show_feedback`: changes nothing. Without a current question the user goes
      back to the index; otherwise the quiz page shows the question again with
      whatever feedback is stored.
     */
    method ShowFeedback() returns (o: Outcome)
      ensures currentQuestion.None? ==> o == RedirectToIndex
      ensures currentQuestion.Some? ==> o == QuizPage(currentQuestion.value, feedback)
    {
      var stored := feedback;
      if currentQuestion.None? {
        return RedirectToIndex;
      }
      o := QuizPage(currentQuestion.value, stored);
    }

    /**
      `next_question`: without a stored topic nothing changes; otherwise a fresh
      question for the same topic replaces the current one, the topic is kept
      and the feedback is dropped.
     */
    method NextQuestion() returns (o: Outcome)
      modifies this`currentQuestion, this`feedback
      ensures !Present(currentTopic) ==>
        o == RedirectToIndex && currentQuestion == old(currentQuestion) && feedback == old(feedback)
      ensures Present(currentTopic) ==>
        && currentQuestion == Some(GenerateQuizQuestion(currentTopic.value))
        && feedback == None
        && o == QuizPage(GenerateQuizQuestion(currentTopic.value), None)
      ensures old(Valid()) ==> Valid()
    {
      if !Present(currentTopic) {
        return RedirectToIndex;
      }
      var question := GenerateQuizQuestion(currentTopic.value);
      currentQuestion := Some(question);
      feedback := None;
      o := QuizPage(question, None);
    }
  }

  /**
    In a session that keeps its invariant, the stored question is well formed:
    four distinct options with the answer among them, an id that is the slug of
    the stored topic, and stored feedback that is one of the texts for it.
   */
  lemma StoredQuestionWellFormed(s: Session)
    requires s.Valid() && s.currentQuestion.Some?
    ensures s.currentTopic.Some? && s.currentTopic.value != ""
    ensures |s.currentQuestion.value.options| == 4 && Distinct(s.currentQuestion.value.options)
    ensures s.currentQuestion.value.correctAnswer in s.currentQuestion.value.options
    ensures s.currentQuestion.value.id == QuestionId(s.currentTopic.value)
    ensures s.currentQuestion.value.topic == s.currentTopic.value
    ensures s.feedback.Some? ==> IsFeedbackFor(s.feedback.value, s.currentQuestion.value)
  {
  }

  /**
    A quiz played through the routes: starting on a topic and submitting the
    question's own correct answer under its own id yields "Correct!", and asking
    for the next question brings the same question back with the feedback gone.
   */
  method CorrectAnswerRound(topic: string) returns (fb: Option<string>, next: Outcome)
    requires topic != ""
    ensures fb == Some(Correct)
    ensures next == QuizPage(GenerateQuizQuestion(topic), None)
  {
    var session := new Session();
    var started := session.StartQuiz(Some(topic));
    var question := GenerateQuizQuestion(topic);
    QuestionIsAnswerable(topic);
    var submitted := session.SubmitAnswer(Some(question.correctAnswer), Some(question.id));
    fb := session.feedback;
    next := session.NextQuestion();
  }
}
