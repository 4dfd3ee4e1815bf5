/**
  The placeholder question generator of app/llm_integration.py: a pure function
  from a topic to a multiple-choice question record. Two topics are recognised
  whatever their casing; every other topic gets a generic question built from
  the topic text. The record's `id` is a slug of the topic and its `topic` is
  the topic exactly as given.
 */
module QuestionGenerator {
  import opened Wrappers

  /** A question record, with the keys the generator's dictionary holds. */
  datatype Question = Question(
    id: string,
    topic: string,
    questionText: string,
    questionType: string,
    options: seq<string>,
    correctAnswer: string,
    explanation: Option<string>)

  /** The one question type this generator produces. */
  const MCQ: string := "MCQ"

  /** The two topics with a dedicated question, in lower case. */
  const PythonBasics: string := "python basics"
  const Addition: string := "addition"

  /** No two entries of `s` are equal. */
  predicate Distinct(s: seq<string>) {
    forall i, j :: 0 <= i < j < |s| ==> s[i] != s[j]
  }

  predicate IsUpper(c: char) {
    'A' <= c <= 'Z'
  }

  /** Lower case of one character; only the ASCII letters A-Z change. */
  function LowerChar(c: char): char {
    if IsUpper(c) then (c as int - 'A' as int + 'a' as int) as char else c
  }

  /** `s.lower()`: each character lower-cased on its own, the length kept. */
  function Lower(s: string): (r: string)
    ensures |r| == |s|
  {
    seq(|s|, i requires 0 <= i < |s| => LowerChar(s[i]))
  }

  /** `s.replace(" ", "_")`: every space character, and nothing else, becomes an underscore. */
  function ReplaceSpaces(s: string): (r: string)
    ensures |r| == |s|
  {
    seq(|s|, i requires 0 <= i < |s| => if s[i] == ' ' then '_' else s[i])
  }

  /** The id the generator gives a topic: "q_" followed by its slug. */
  function QuestionId(topic: string): string {
    "q_" + ReplaceSpaces(Lower(topic))
  }

  /**
    The id is "q_" followed by the topic lower-cased with its spaces replaced,
    position by position. Other whitespace (tabs, newlines) is kept; no space
    and no upper-case ASCII letter survives.
   */
  lemma IdIsSlug(topic: string)
    ensures |QuestionId(topic)| == 2 + |topic|
    ensures QuestionId(topic)[..2] == "q_"
    ensures forall i :: 0 <= i < |topic| ==>
      QuestionId(topic)[2 + i] == if topic[i] == ' ' then '_' else LowerChar(topic[i])
    ensures ' ' !in QuestionId(topic)
    ensures forall i :: 2 <= i < |QuestionId(topic)| ==> !IsUpper(QuestionId(topic)[i])
  {
    var slug := ReplaceSpaces(Lower(topic));
    assert forall i :: 0 <= i < |topic| ==> slug[i] == if topic[i] == ' ' then '_' else LowerChar(topic[i]);
  }

  /** The text of a generic option: "Placeholder Option <letter> for <topic>". */
  function Placeholder(letter: char, topic: string): string {
    "Placeholder Option " + [letter] + " for " + topic
  }

  /** Two generic options for one topic are equal only when their letters are. */
  lemma PlaceholderLetter(a: char, b: char, topic: string)
    requires Placeholder(a, topic) == Placeholder(b, topic)
    ensures a == b
  {
    assert Placeholder(a, topic)[19] == a;
    assert Placeholder(b, topic)[19] == b;
  }

  /** Every generic option ends with the topic. */
  lemma PlaceholderEndsWithTopic(letter: char, topic: string)
    ensures |Placeholder(letter, topic)| == 25 + |topic|
    ensures Placeholder(letter, topic)[25..] == topic
  {
  }

  /** The question for "python basics"; `id` and `topic` are filled in afterwards. */
  const PythonBasicsQuestion: Question := Question(
    "", "",
    "Which of the following is a mutable data type in Python?",
    MCQ,
    ["Tuple", "List", "String", "Integer"],
    "List",
    Some("Lists are mutable, meaning their contents can be changed after creation. Tuples and Strings are immutable."))

  /** The question for "addition"; `id` and `topic` are filled in afterwards. */
  const AdditionQuestion: Question := Question(
    "", "",
    "What is 5 + 7?",
    MCQ,
    ["10", "11", "12", "13"],
    "12",
    Some("Adding 5 and 7 results in 12."))

  /** The four generic options: distinct, the first is "Option A", and each ends with the topic. */
  function GenericOptions(topic: string): (options: seq<string>)
    ensures |options| == 4 && Distinct(options)
    ensures options[0] == Placeholder('A', topic)
    ensures forall o :: o in options ==> |o| == 25 + |topic| && o[25..] == topic
  {
    var letters := "ABCD";
    var options := [Placeholder('A', topic), Placeholder('B', topic),
                    Placeholder('C', topic), Placeholder('D', topic)];
    assert forall k :: 0 <= k < 4 ==> options[k] == Placeholder(letters[k], topic);
    assert Distinct(options) by {
      forall i, j | 0 <= i < j < 4 ensures options[i] != options[j] {
        if options[i] == options[j] {
          PlaceholderLetter(letters[i], letters[j], topic);
        }
      }
    }
    forall o | o in options ensures |o| == 25 + |topic| && o[25..] == topic {
      var k :| 0 <= k < 4 && options[k] == o;
      PlaceholderEndsWithTopic(letters[k], topic);
    }
    options
  }

  /** The generic question text, which quotes the topic at position 42. */
  function GenericText(topic: string): (text: string)
    ensures |text| == 44 + |topic| && text[42..42 + |topic|] == topic
  {
    "What is a fundamental concept related to '" + topic + "'?"
  }

  /**
    The generic question for any other topic; `id` and `topic` are filled in
    afterwards. Its answer is the first option, "Option A".
   */
  function GenericQuestion(topic: string): Question {
    Question(
      "", "",
      GenericText(topic),
      MCQ,
      GenericOptions(topic),
      Placeholder('A', topic),
      Some("This is a placeholder explanation for why Option A is correct for the topic '" + topic + "'."))
  }

  /** The two dedicated questions offer four distinct options, the answer among them. */
  lemma DedicatedQuestionsWellFormed()
    ensures Distinct(PythonBasicsQuestion.options)
    ensures PythonBasicsQuestion.correctAnswer == PythonBasicsQuestion.options[1]
    ensures Distinct(AdditionQuestion.options)
    ensures AdditionQuestion.correctAnswer == AdditionQuestion.options[2]
  {
    var p := PythonBasicsQuestion.options;
    assert p[0][0] == 'T' && p[1][0] == 'L' && p[2][0] == 'S' && p[3][0] == 'I';
    var a := AdditionQuestion.options;
    assert a[0][1] == '0' && a[1][1] == '1' && a[2][1] == '2' && a[3][1] == '3';
  }

  /**
    `generate_quiz_question(topic)`: dispatch on the lower-cased topic, then add
    the `id` and `topic` keys. Being a function, it yields the same record for
    the same topic every time.
   */
  function GenerateQuizQuestion(topic: string): (q: Question)
    ensures q.topic == topic
    ensures q.id == QuestionId(topic)
    ensures q.questionType == MCQ
    ensures |q.options| == 4 && Distinct(q.options)
    ensures q.correctAnswer in q.options
    ensures q.explanation.Some?
  {
    DedicatedQuestionsWellFormed();
    var key := Lower(topic);
    var data :=
      if key == PythonBasics then PythonBasicsQuestion
      else if key == Addition then AdditionQuestion
      else GenericQuestion(topic);
    data.(id := QuestionId(topic), topic := topic)
  }

  /** The id slugs of the two dedicated topics. */
  lemma PythonBasicsSlug()
    ensures QuestionId("python basics") == "q_python_basics"
  {
    assert Lower("python basics") == "python basics";
    assert ReplaceSpaces("python basics") == "python_basics";
  }

  lemma AdditionSlug()
    ensures QuestionId("addition") == "q_addition"
  {
    assert Lower("addition") == "addition";
    assert ReplaceSpaces("addition") == "addition";
  }

  /** Any casing of "python basics" gets the mutable-type question, answered by "List". */
  lemma PythonBasicsAnyCasing(topic: string)
    requires Lower(topic) == PythonBasics
    ensures GenerateQuizQuestion(topic).questionText == "Which of the following is a mutable data type in Python?"
    ensures GenerateQuizQuestion(topic).options == ["Tuple", "List", "String", "Integer"]
    ensures GenerateQuizQuestion(topic).correctAnswer == "List"
    ensures GenerateQuizQuestion(topic).id == "q_python_basics"
  {
    PythonBasicsSlug();
  }

  /** Any casing of "addition" gets "What is 5 + 7?", answered by "12". */
  lemma AdditionAnyCasing(topic: string)
    requires Lower(topic) == Addition
    ensures GenerateQuizQuestion(topic).questionText == "What is 5 + 7?"
    ensures GenerateQuizQuestion(topic).options == ["10", "11", "12", "13"]
    ensures GenerateQuizQuestion(topic).correctAnswer == "12"
    ensures GenerateQuizQuestion(topic).id == "q_addition"
  {
    AdditionSlug();
  }

  /**
    Two topics that differ only in letter case get the same question and the same
    id when they name a dedicated topic; only the `topic` field tells them apart.
   */
  lemma CaseInsensitiveDispatch(t: string, u: string)
    requires Lower(t) == Lower(u)
    requires Lower(t) == PythonBasics || Lower(t) == Addition
    ensures GenerateQuizQuestion(u) == GenerateQuizQuestion(t).(topic := u)
  {
  }

  /**
    Any other topic gets the generic question: its answer is the "Option A"
    placeholder, and the question text and every option embed the topic.
   */
  lemma GenericTopic(topic: string)
    requires Lower(topic) != PythonBasics && Lower(topic) != Addition
    ensures GenerateQuizQuestion(topic).correctAnswer == Placeholder('A', topic)
    ensures GenerateQuizQuestion(topic).questionText[42..42 + |topic|] == topic
    ensures forall o :: o in GenerateQuizQuestion(topic).options ==>
      |o| == 25 + |topic| && o[25..] == topic
  {
    assert GenerateQuizQuestion(topic) == GenericQuestion(topic).(id := QuestionId(topic), topic := topic);
    assert GenerateQuizQuestion(topic).options == GenericOptions(topic);
  }

  /** The example of app/llm_integration.py:47: "Python Basics" gets the id "q_python_basics". */
  lemma PythonBasicsExample()
    ensures GenerateQuizQuestion("Python Basics").id == "q_python_basics"
    ensures GenerateQuizQuestion("Python Basics").topic == "Python Basics"
  {
    assert Lower("Python Basics") == PythonBasics;
    PythonBasicsAnyCasing("Python Basics");
  }

  /** Every generated question has an id and a correct answer a form can submit. */
  lemma QuestionIsAnswerable(topic: string)
    ensures GenerateQuizQuestion(topic).id != ""
    ensures GenerateQuizQuestion(topic).correctAnswer != ""
  {
    IdIsSlug(topic);
    if Lower(topic) == PythonBasics {
      PythonBasicsAnyCasing(topic);
    } else if Lower(topic) == Addition {
      AdditionAnyCasing(topic);
    } else {
      GenericTopic(topic);
      PlaceholderEndsWithTopic('A', topic);
    }
  }
}
