# Quiz app core in Dafny

A model of the logic of a small Flask quiz application, with proofs about it.
It has three parts.

- **The placeholder question generator** (`generate_quiz_question`). It is a
  pure function from a topic to a multiple-choice question record. It
  dispatches case-insensitively on two known topics ("python basics",
  "addition") and otherwise builds a generic question around the topic. The
  record's `id` is a slug of the topic and its `topic` is the input
  (`question_generator.dfy`, module `QuestionGenerator`).
- **The quiz session** behind the routes `start_quiz`, `submit_answer`,
  `show_feedback` and `next_question`. It is a class `Session` with the three
  session slots (`current_question`, `current_topic`, `feedback`) as optional
  fields and one method per route. Redirects and rendered pages become an
  `Outcome` tag. Marking an answer and the feedback texts are functions
  (`quiz_session.dfy`, module `QuizSession`).
- **The drag-and-drop answer page.** It keeps the `currentSelections` object
  from item text to drop-zone value and mirrors it into a hidden form input as
  JSON. The page is a class `Board` whose methods are the drop handler,
  `updateHiddenInput` and the submit handler (`drag_drop.dfy`, module
  `DragDrop`). The object is kept as a sequence of members in JavaScript's
  enumeration order, and `Selections()` reads it as a map. `JSON.stringify`
  for such objects is modelled in `json.dfy` (module `Json`), together with
  a decoder. Writing an object and decoding the text gives the same members
  back.

`wrappers.dfy` holds the `Option` type.

The main results are these:

- Every generated question has four distinct options, and its correct answer
  is among them.
- Its id is `"q_"` followed by the lower-cased topic with spaces replaced by
  `_`, and its topic is the input.
- Each route changes exactly the slots it names, and the session invariant
  holds after every route.
- An answer is marked "Correct!" exactly when the answer is the correct one.
- A drop, read as a map, deletes the dragged item's entry. On a zone it also
  deletes the zone's previous occupant and records the item there.
- A drop keeps one item per zone, and the hidden input always decodes to the
  selections.

## Model

| member | source | states |
|---|---|---|
| QuestionGenerator.GenerateQuizQuestion | app/llm_integration.py:6-50 | the record's topic is the input and its id is the topic's slug; the type is "MCQ" on every branch; there are exactly four pairwise-distinct options; the correct answer is one of them; an explanation is always present |
| QuestionGenerator.IdIsSlug | app/llm_integration.py:47 | the id is "q_" followed by the topic with each character lower-cased and each ' ' replaced by '_'; it is two characters longer than the topic, contains no space and no upper-case letter after the prefix |
| QuestionGenerator.PythonBasicsSlug | app/llm_integration.py:47 | the topic "python basics" gets the id "q_python_basics" |
| QuestionGenerator.AdditionSlug | app/llm_integration.py:47 | the topic "addition" gets the id "q_addition" |
| QuestionGenerator.PythonBasicsExample | app/llm_integration.py:47 | "Python Basics" gets the id "q_python_basics" and keeps its own casing in `topic` |
| QuestionGenerator.PlaceholderLetter | app/llm_integration.py:39 | placeholder options for the same topic are equal only when their letters are, so options A to D differ |
| QuestionGenerator.PlaceholderEndsWithTopic | app/llm_integration.py:39-40 | every placeholder option ends with the topic, after a fixed 25-character lead |
| QuestionGenerator.GenericOptions | app/llm_integration.py:39 | the generic options are four distinct strings, the first is "Option A", and each ends with the topic |
| QuestionGenerator.GenericText | app/llm_integration.py:37 | the generic question text quotes the topic at position 42 |
| QuestionGenerator.DedicatedQuestionsWellFormed | app/llm_integration.py:21-31 | the two dedicated questions have distinct options, and their answers are "List" (option 2) and "12" (option 3) |
| QuestionGenerator.PythonBasicsAnyCasing | app/llm_integration.py:17-24 | any topic that lower-cases to "python basics" gets the mutable-type question, its four options, the answer "List" and the id "q_python_basics" |
| QuestionGenerator.AdditionAnyCasing | app/llm_integration.py:26-33 | any topic that lower-cases to "addition" gets "What is 5 + 7?", its four options, the answer "12" and the id "q_addition" |
| QuestionGenerator.CaseInsensitiveDispatch | app/llm_integration.py:17-33 | two casings of a dedicated topic yield the same record except for the `topic` field |
| QuestionGenerator.GenericTopic | app/llm_integration.py:35-41 | any other topic gets "Placeholder Option A for <topic>" as its answer; the topic appears in the question text and at the end of every option |
| QuestionGenerator.QuestionIsAnswerable | app/llm_integration.py:17-47 | every generated question has a non-empty id and a non-empty correct answer |
| QuizSession.IncorrectFeedback | app/main.py:82-84 | the feedback for a wrong answer is never "Correct!"; it quotes the correct answer after the lead, then the explanation or "No explanation provided." after ". Explanation: " |
| QuizSession.Grade | app/main.py:77-84 | the feedback is "Correct!" if and only if the selected answer is the correct answer; otherwise it is the incorrect-answer text |
| QuizSession.OneCorrectOption | app/main.py:77 | for a question with distinct options that include the answer, exactly one option is graded "Correct!" |
| QuizSession.ExactlyOneOptionIsCorrect | app/main.py:77 | exactly one of the four options of any generated question is graded "Correct!" |
| QuizSession.Session.constructor | app/main.py:56-58 | a new session holds no question, topic or feedback, and satisfies the session invariant |
| QuizSession.Session.StartQuiz | app/main.py:28-41 | a missing or empty topic redirects to the index and changes nothing; otherwise it stores the generated question and the topic, drops the feedback and shows the question; the invariant is kept |
| QuizSession.Session.SubmitAnswer | app/main.py:56-86 | only the feedback slot changes; no question means a redirect to the index and no change; a missing answer or id gives "Please select an answer."; a wrong id gives the mismatch text and a redirect to the index; otherwise the feedback is the grade; the invariant is kept |
| QuizSession.Session.ShowFeedback | app/main.py:96-107 | changes nothing; with no question it redirects to the index, otherwise it shows the stored question with the stored feedback |
| QuizSession.Session.NextQuestion | app/main.py:119-129 | with no topic nothing changes; otherwise a fresh question for the same topic replaces the current one, the topic is kept and the feedback is dropped; the invariant is kept |
| QuizSession.StoredQuestionWellFormed | app/main.py:34-37 | in a session that keeps the invariant, a stored question comes with a non-empty stored topic; it has four distinct options including its answer; its id is the slug of that topic and its topic is that topic; stored feedback is one of the texts for it |
| QuizSession.CorrectAnswerRound | app/main.py:77-80 | starting a quiz, submitting the question's own answer under its own id gives "Correct!", and the next question is the same question without feedback |
| Json.Stringify | static/js/drag_drop.js:12 | the text is wrapped in braces, and it is "{}" exactly when the object has no members |
| Json.UnescapeEscapeChar | static/js/drag_drop.js:12 | every character's escape starts with a backslash and decodes back to that character, taking exactly the escape's length; a character written as itself is not a quote, a backslash or a control character |
| Json.ParseEscapeChar | static/js/drag_drop.js:12 | decoding the way one character is written yields that character in front of whatever follows decodes to |
| Json.ParseEscapeString | static/js/drag_drop.js:12 | decoding an escaped string body followed by a closing quote gives the string back and leaves the rest |
| Json.ParseMemberText | static/js/drag_drop.js:12 | decoding a written member gives the member back |
| Json.ParseMembersText | static/js/drag_drop.js:12 | decoding the written members up to the closing brace gives the same members in order |
| Json.RoundTrip | static/js/drag_drop.js:12 | decoding the text written for an object gives exactly its members |
| DragDrop.AsMapMembers | static/js/drag_drop.js:8 | the map has a key for every member, and every map entry is a member |
| DragDrop.AsMapValue | static/js/drag_drop.js:8 | with distinct keys, each member's value is what the map holds for its key |
| DragDrop.WithoutMembers | static/js/drag_drop.js:62-66 | deleting a key keeps exactly the members with another key |
| DragDrop.AsMapWithout | static/js/drag_drop.js:62-66 | read as a map, deleting a key's members removes just that key |
| DragDrop.AsMapSnoc | static/js/drag_drop.js:83 | recording a new key at the end sets that key in the map |
| DragDrop.Holder | static/js/drag_drop.js:71 | a found occupant of a zone is a member on that zone; when none is found, no member is on it |
| DragDrop.HolderUnique | static/js/drag_drop.js:71-72 | with one item per zone, any member on a zone is the occupant found |
| DragDrop.ZoneHolder | static/js/drag_drop.js:71-79 | read as a map, the keys on a zone are exactly its occupant |
| DragDrop.WithoutDistinct | static/js/drag_drop.js:62-66 | deleting entries keeps keys distinct and keeps one item per zone |
| DragDrop.KeysDistinctSnoc | static/js/drag_drop.js:83 | recording a key not yet present keeps the keys distinct |
| DragDrop.ValuesDistinctSnoc | static/js/drag_drop.js:83 | recording an item on a free zone keeps one item per zone |
| DragDrop.AsMapInjective | static/js/drag_drop.js:71-79 | an object with distinct keys and one item per zone reads as an injective map |
| DragDrop.VacateDistinct | static/js/drag_drop.js:62-79 | deleting the dragged item and the evicted occupant keeps keys distinct and one item per zone |
| DragDrop.VacateFrees | static/js/drag_drop.js:62-79 | after those deletions, neither the dragged item nor any item on the target zone is left |
| DragDrop.VacateMap | static/js/drag_drop.js:62-79 | read as a map, those deletions remove the dragged item and every key on the zone |
| DragDrop.DropCorrect | static/js/drag_drop.js:62-89 | the object the handler builds keeps distinct keys and one item per zone, and read as a map it is the drop specification applied to the map before |
| DragDrop.DropKeepsOthers | static/js/drag_drop.js:62-83 | an item other than the dragged one and the target's occupant keeps its entry and zone |
| DragDrop.DropPlacesItem | static/js/drag_drop.js:82-89 | a drop on a zone records the item on it, except that an item whose text is "__proto__" is recorded nowhere, because the assignment reaches the inherited prototype setter; a drop on the source container removes the item's entry and adds or changes no other |
| DragDrop.DropOnZone | static/js/drag_drop.js:71-83 | after a drop on a zone, only the dragged item sits on it, and every other entry was already there with the same zone |
| DragDrop.DropKeepsInjective | static/js/drag_drop.js:71-79 | if no two items share a zone before a drop, none do after it |
| DragDrop.DropIdempotent | static/js/drag_drop.js:44-90 | dropping the same item on the same target twice has the effect of dropping it once |
| DragDrop.SelectionsInjective | static/js/drag_drop.js:71-79 | on a page in its invariant, no two items are recorded against the same zone |
| DragDrop.HiddenInputDecodes | static/js/drag_drop.js:11-12 | on a page in its invariant, the hidden input decodes to exactly the selections |
| DragDrop.Board.constructor | static/js/drag_drop.js:107-108 | the page starts with no selections and the input holding "{}" |
| DragDrop.Board.UpdateHiddenInput | static/js/drag_drop.js:11-12 | the input is set to the selections written as JSON; nothing else changes |
| DragDrop.Board.DeleteKey | static/js/drag_drop.js:62-66 | the selections lose the members with that key and keep the others in order |
| DragDrop.Board.Drop | static/js/drag_drop.js:44-91 | when the dragged item is not found nothing changes; otherwise the new object is the handler's result and the input mirrors it; from a state in the invariant, the invariant holds again and the map is the drop specification applied to the old map; an item whose text is "__proto__" is never recorded |
| DragDrop.Board.Submit | static/js/drag_drop.js:94-101 | with no selections and an empty input, the input becomes "{}"; otherwise it is unchanged; on a page in its invariant nothing changes |

## Left out

- Logging (app/llm_integration.py:4, 12 and drag_drop.js's console output) and the `__main__` demo blocks have no effect on the state, so they are not modelled.
- The Flask machinery is not modelled: routing, the `index` route, `redirect`/`url_for`, template rendering, the secret key and `app.run`. Route results are `Outcome` tags.
- app/rendering_engine.py is not part of this model. A rendered quiz page is `QuizPage(question, feedback)`.
- The branch of `start_quiz` for requests other than POST (app/main.py:43-44) cannot be reached, because the route accepts only POST.
- The `'N/A'` default for a missing correct answer (app/main.py:83) cannot be reached. Every stored question comes from the generator and has a correct answer.
- QuizSession.Session.SubmitAnswer: a stored question that is an empty, falsy dict is not modelled. The slot holds either no question or a generated one.
- QuestionGenerator.Lower: lower-cases ASCII letters only. Python's Unicode case mapping is not modelled.
- QuestionGenerator.GenerateQuizQuestion: its determinism holds by construction, because it is a function; no separate lemma states it.
- The browser side of the drag-and-drop page is not modelled: the drag-start, drag-end, drag-over and drag-leave CSS toggling, `dataTransfer`, `appendChild` node moves and listener wiring.
- DragDrop.Board.Drop: the dropped item is given by its text, and the zone's current occupant is read from the selections rather than the DOM. Both agree while each zone shows the item recorded against it.
- DragDrop.Board.Drop: a drop zone without a `data-target-value` attribute is not modelled. JavaScript would record `undefined` for it, which `JSON.stringify` then omits.
- DragDrop.Board.Drop: two distinct page items with the same text are one item in the model, as they are one key in `currentSelections`.
- DragDrop.Board.Drop: the map specification is stated only from a state in the invariant. Any reachable page state is such a state.
- Json.Stringify: JavaScript lists array-index-like keys (such as "3") before the others in ascending order. The model keeps every key in insertion order.
- Json.Stringify: lone surrogate code units, which `JSON.stringify` writes as `\uXXXX` escapes, are not modelled. A Dafny `char` is a Unicode scalar value, and the decoder rejects surrogate escapes.
