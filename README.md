# codestorm-mi, modelled in Dafny

codestorm-mi is a study platform. Teachers upload course PDFs and generate quizzes and
assignments with an AI service. Students take the quizzes, flip flashcards and read the
materials. Two small Python services turn videos and photographed notes into answers or
LaTeX. This project models the deterministic logic threaded through it and proves what that
logic promises.

- **Structured-response extraction** (`xml_tree`, `tag_match`, `student_parsers`,
  `teacher_dashboard`):
  - the first lazy `<root>…</root>` match and the markdown-fence unwrap, as string searches;
  - the parser's result, taken as an element tree given from outside;
  - `querySelector` and `querySelectorAll` as the first or all descendants in document order;
  - the quiz, assignment and grade readers of the student dashboard, with their `''` defaults;
  - the teacher dashboard's assignment reader, with its `<homework>`/`<assignment>` fallback.
  - The teacher dashboard's `parseQuizXml` is the same function as the student one, so the
    student model stands for both.
- **The quiz attempt and the flashcards** (`quiz_attempt`, `flashcards`):
  - the `list → quiz → results → list` attempt as a class whose answer list is upserted;
  - the score in integer tenths;
  - the flashcard deck as a class, with swipe classification.
- **The teacher's lists** (`teacher_board`, `keyed_lists`): prepend on save and filter on
  delete.
- **The Flask routes over Redis** (`redis_store`, `saved_items`, `quiz_routes`,
  `assignment_routes`, `materials_routes`, `materials_sync`, `legacy_routes`, `pdf_routes`,
  `request_models`):
  - Redis is a class holding a map from keys to hashes;
  - each route is a method returning its status and body and updating the map;
  - the AI name generator is a function parameter that may fail;
  - the request models are field validators.
- **UI state machines** (`materials_list`, `pdf_viewer`, `pdf_uploader`, `auth_store`,
  `app_routes`): each handler is one atomic transition of a class, and the route guards are
  functions of the store's state.
- **The Python services** (`upload_paths`, `video_understanding`, `latex_writing`):
  - the YouTube link pattern as an explicit prefix-by-prefix reader, proved equal to the
    pattern;
  - the task × language prompt dispatch;
  - the per-file bookkeeping of the LaTeX upload.
- **Shared helpers** (`wrappers`, `strings`, `sorting`): `Option`, string search, split and
  join, trim, integer parsing and printing, and a sort by key.

Floating point is modelled exactly: the quiz score in tenths, the zoom in hundredths, and the
progress as an integer formula.

## Model

| member | source | states |
|---|---|---|
| Strings.Trim | web-interface/frontned/src/components/PdfUploader.tsx:86 | trimming leaves no white space at either end and is empty exactly when the text is all white space |
| Strings.TrimUnchanged | web-interface/frontned/src/components/PdfUploader.tsx:86 | text without white space at its ends is left as it is |
| Strings.TrimIdempotent | web-interface/frontned/src/components/PdfUploader.tsx:86 | trimming twice is trimming once |
| Strings.TrimSlice | web-interface/frontned/src/components/PdfUploader.tsx:86 | the trim is a slice of the text with only white space cut off before and after it |
| Strings.Split | web-interface/backend/assignment_routes.py:62 | splitting gives at least one part |
| Strings.JoinSplit | web-interface/backend/assignment_routes.py:62 | joining the parts with the separator gives the text back, and no part holds the separator |
| Strings.SplitTwo | web-interface/backend/assignment_routes.py:62-64 | a prefix, the separator and a separator-free rest split into exactly those two parts |
| Strings.SplitThree | web-interface/backend/quiz_routes.py:227-229 | three separator-free fields joined by the separator split back into those three |
| Strings.LastSegment | web-interface/backend/pdf_handler_routes.py:68 | the last part after the separator is a separator-free tail of the text, preceded by the separator when shorter |
| Strings.NatToString | web-interface/backend/assignment_routes.py:64 | an index is written as decimal digits without a leading zero |
| Strings.NatToStringInjective | web-interface/backend/assignment_routes.py:64 | different indices give different keys |
| Strings.ParseInt | web-interface/backend/assignment_routes.py:64 | a parsed integer has at least one digit |
| Strings.ParseIntOfNat | web-interface/backend/assignment_routes.py:64 | parsing a written index gives that index back |
| Sorting.SortBy | web-interface/backend/legacy_routes.py:89 | the result is sorted by the key and is a permutation of the input |
| MaterialsRoutes.HitsOf | web-interface/backend/materials_routes.py:582-614 | the corrected search yields at most one hit per match; the written search's failures on a bad timestamp or an undecodable `pdf_data` are `SearchFailsAsWritten` (Findings) |
| XmlTree.AttrIn | web-interface/frontned/src/pages/student/Dashboard.tsx:571 | `getAttribute`: nothing exactly when no attribute has the name, otherwise the value of one that has it |
| XmlTree.QueryAll | web-interface/frontned/src/pages/student/Dashboard.tsx:582 | `querySelectorAll` on an element yields only elements with the name; QueryAllInOrder and QueryAllMembers state that it yields all of them, in document order |
| XmlTree.QueryAllOf | web-interface/frontned/src/pages/student/Dashboard.tsx:582 | the same over a list of children: only elements with the name |
| XmlTree.Query | web-interface/frontned/src/pages/student/Dashboard.tsx:578 | `querySelector` on an element yields, if anything, an element with the name; QueryFirst states that it is the first one |
| XmlTree.DocQueryAll | web-interface/frontned/src/pages/student/Dashboard.tsx:568 | `querySelectorAll` on a document yields only elements with the name; DocQueryAllInOrder states which |
| XmlTree.DocQuery | web-interface/frontned/src/pages/student/Dashboard.tsx:562 | `querySelector` on a document yields, if anything, an element with the name; DocQueryFirst states which |
| XmlTree.FindChild | web-interface/backend/quiz_routes.py:36 | ElementTree `find`: the first direct child with the name, or none exactly when no direct child has it |
| XmlTree.FindChildIn | web-interface/backend/quiz_routes.py:43 | the first child with the name among the given children, with no named child before it, or none when none has it |
| XmlTree.NamedAmongConcat | web-interface/frontned/src/pages/student/Dashboard.tsx:582 | picking the named elements of two lists one after the other is picking them from the joined list |
| XmlTree.NamedAmongMember | web-interface/frontned/src/pages/student/Dashboard.tsx:582 | a node is picked exactly when it occurs in the list and carries the name |
| XmlTree.NamedAmongFirst | web-interface/frontned/src/pages/student/Dashboard.tsx:578 | the first picked node is the first named node of the list, and nothing is picked exactly when no node is named |
| XmlTree.QueryAllInOrder | web-interface/frontned/src/pages/student/Dashboard.tsx:582 | `querySelectorAll` on an element is exactly the named elements among its descendants in document order, each occurrence once |
| XmlTree.QueryAllOfInOrder | web-interface/backend/quiz_routes.py:40 | the same for a list of children and their descendants, as `findall('.//name')` walks them |
| XmlTree.DescendantsBelow | web-interface/frontned/src/pages/student/Dashboard.tsx:582 | the descendants listed in document order are exactly the nodes below the element |
| XmlTree.DescendantsOfBelow | web-interface/frontned/src/pages/student/Dashboard.tsx:582 | the nodes listed for a list of children are exactly those children and the nodes below them |
| XmlTree.QueryAllMembers | web-interface/frontned/src/pages/student/Dashboard.tsx:582 | a node is yielded exactly when it is an element with the name below the element: nothing is missed |
| XmlTree.QueryFirst | web-interface/frontned/src/pages/student/Dashboard.tsx:578 | `querySelector` yields the first named element in document order, and nothing exactly when no element below carries the name |
| XmlTree.DocQueryAllInOrder | web-interface/frontned/src/pages/student/Dashboard.tsx:568 | on a document the root is a candidate too, ahead of its descendants in document order |
| XmlTree.DocQueryFirst | web-interface/frontned/src/pages/student/Dashboard.tsx:562 | on a document `querySelector` yields the root when it carries the name, and otherwise the first named element below it |
| XmlTree.LeadingText | web-interface/backend/quiz_routes.py:37 | ElementTree `.text`: the element's leading text, which is never empty when present |
| TagMatch.AnyAtSome | web-interface/backend/quiz_routes.py:24 | an alternation matches at a position exactly when one of its alternatives does |
| TagMatch.FirstAny | web-interface/backend/quiz_routes.py:24 | the search for an opener or closer returns a position within the text |
| TagMatch.FirstAnyLeftmost | web-interface/backend/quiz_routes.py:24-25 | the search returns the leftmost matching position, and none only when no position matches |
| TagMatch.Single | web-interface/frontned/src/pages/student/Dashboard.tsx:545 | the pattern `<tag>[\\s\\S]*?</tag>` is well formed |
| TagMatch.FirstLazyBounds | web-interface/frontned/src/pages/student/Dashboard.tsx:545-546 | a match spans at least an opener and a closer and lies within the text |
| TagMatch.FirstLazyFound | web-interface/frontned/src/pages/student/Dashboard.tsx:545-546 | a match starts at the leftmost opener and ends at the first closer after it (the lazy quantifier) |
| TagMatch.FirstLazyNone | web-interface/frontned/src/pages/student/Dashboard.tsx:548-550 | no match exactly when no opener is followed by a closer |
| TagMatch.MatchText | web-interface/frontned/src/pages/student/Dashboard.tsx:546-552 | `match[0]` exists exactly when the pattern matches, and holds at least an opener and a closer |
| TagMatch.WrappedDocument | web-interface/frontned/src/pages/student/Dashboard.tsx:545-552 | in text holding a tagged block, with no opener before it and no closer inside it, the match is exactly that block |
| TagMatch.WrappedMatchText | web-interface/frontned/src/pages/student/Dashboard.tsx:545-552 | the matched text of such a block is the block itself |
| TagMatch.WrappedLiteral | web-interface/frontned/src/pages/student/Dashboard.tsx:1095 | the same for any literal opener and closer |
| TagMatch.WrappedCharFree | web-interface/frontned/src/pages/student/Dashboard.tsx:1095 | a fenced block whose prefix and body do not contain the fence's first character is matched exactly |
| TagMatch.NoOpenerNoMatch | web-interface/frontned/src/pages/student/Dashboard.tsx:1095-1099 | without an opener there is no match |
| StudentParsers.RootOf | web-interface/frontned/src/pages/student/Dashboard.tsx:545-559 | the document is the first `<tag>…</tag>` block, parsed, and it is rejected when there is no block or the parser reports an error |
| StudentParsers.RootOfWrapped | web-interface/frontned/src/pages/student/Dashboard.tsx:545-559 | for text holding one tagged block the root is that block's parse, unless the parser rejects it |
| StudentParsers.Each | web-interface/frontned/src/pages/student/Dashboard.tsx:568-594 | a forEach that pushes one entry per element gives one entry per element |
| StudentParsers.EachAt | web-interface/frontned/src/pages/student/Dashboard.tsx:568-594 | the i-th entry is read from the i-th element |
| StudentParsers.ReadEach | web-interface/frontned/src/pages/student/Dashboard.tsx:569-594 | the forEach loop builds exactly that list |
| StudentParsers.ParseQuizXml | web-interface/frontned/src/pages/student/Dashboard.tsx:542-603 | null exactly when there is no `<test>` block or it does not parse; otherwise the topic and the questions read from the document |
| StudentParsers.QuizQuestionAt | web-interface/frontned/src/pages/student/Dashboard.tsx:568-594 | the i-th question comes from the i-th `<question>`; a missing id or text reads as "" |
| StudentParsers.QuizOptionAt | web-interface/frontned/src/pages/student/Dashboard.tsx:582-591 | an option's text is its text content, and it is correct exactly when `correct` is the string `true` |
| StudentParsers.QuestionOf | web-interface/frontned/src/pages/student/Dashboard.tsx:569-593 | a question keeps its `id` and `type` attributes, each "" when absent; its text is the text content of its first `<text>` descendant, "" when there is none; it has one option per `<option>` below it |
| StudentParsers.QuizContentOf | web-interface/frontned/src/pages/student/Dashboard.tsx:561-569 | the topic is the text content of the first `<topic>`, "" when there is none; one question per `<question>` |
| StudentParsers.UpperCaseTrueIsNotCorrect | web-interface/frontned/src/pages/student/Dashboard.tsx:584 | `correct="TRUE"` does not count as correct here, unlike in the backend parser |
| StudentParsers.QuizList | web-interface/frontned/src/pages/student/Dashboard.tsx:526-531 | every fetched quiz is kept |
| StudentParsers.QuizListKeepsEveryQuiz | web-interface/frontned/src/pages/student/Dashboard.tsx:526-531 | each quiz keeps its key, topic, timestamp and xml, and has no questions when its XML does not parse |
| StudentParsers.ParseAssignmentXml | web-interface/frontned/src/pages/student/Dashboard.tsx:699-748 | nothing exactly when there is no `<homework>` block or it does not parse; otherwise topic, title, description, tasks and instructions read from the document |
| StudentParsers.Merged | web-interface/frontned/src/pages/student/Dashboard.tsx:683-688 | the parsed fields override the saved ones, including the topic, and the key, timestamp and xml are kept |
| StudentParsers.ParseGradeXml | web-interface/frontned/src/pages/student/Dashboard.tsx:850-902 | null exactly when there is no `<gradingReport>` block or it does not parse; otherwise the topic, task grades, overall feedback and final score |
| StudentParsers.LatexFence | web-interface/frontned/src/pages/student/Dashboard.tsx:1095 | the fence pattern is well formed, with an eight-character opener and a three-character closer |
| StudentParsers.Inside | web-interface/frontned/src/pages/student/Dashboard.tsx:1095 | the inner text exists exactly when the fence pattern matches |
| StudentParsers.LatexCode | web-interface/frontned/src/pages/student/Dashboard.tsx:1093-1100 | the extracted code never starts or ends with whitespace |
| StudentParsers.LatexCodeFenced | web-interface/frontned/src/pages/student/Dashboard.tsx:1095-1097 | a fenced block with non-blank content yields that content trimmed |
| StudentParsers.LatexCodeUnfenced | web-interface/frontned/src/pages/student/Dashboard.tsx:1098-1099 | without a fence the whole reply, trimmed, is the code |
| QuizAttempt.FindFrom | web-interface/frontned/src/pages/student/Dashboard.tsx:615 | `findIndex`: the first answer for the question at or after the start, or none when there is none |
| QuizAttempt.UpsertReplaces | web-interface/frontned/src/pages/student/Dashboard.tsx:617-624 | an existing answer is replaced in place; the list keeps its length and every other question's answer |
| QuizAttempt.UpsertAppends | web-interface/frontned/src/pages/student/Dashboard.tsx:625-633 | an answer to a question not yet answered is appended |
| QuizAttempt.UpsertRecorded | web-interface/frontned/src/pages/student/Dashboard.tsx:613-635 | after selecting, the question's answer is the selected option and every other question's answer is as before |
| QuizAttempt.UpsertKeepsUnique | web-interface/frontned/src/pages/student/Dashboard.tsx:613-635 | selecting keeps at most one answer per question |
| QuizAttempt.CountCorrect | web-interface/frontned/src/pages/student/Dashboard.tsx:641-652 | the number of correctly answered questions is at most the number of questions |
| QuizAttempt.AllEarnedCountsAll | web-interface/frontned/src/pages/student/Dashboard.tsx:643-652 | when every question has a correct chosen option, every question is counted |
| QuizAttempt.NoneEarnedCountsNone | web-interface/frontned/src/pages/student/Dashboard.tsx:643-652 | when no question has a correct chosen option, none is counted |
| QuizAttempt.RoundTenths | web-interface/frontned/src/pages/student/Dashboard.tsx:655-656 | `toFixed(1)` of the score out of 10, in tenths: the nearest tenth, halves rounded up |
| QuizAttempt.ScoreAsWritten | web-interface/frontned/src/pages/student/Dashboard.tsx:655-656 | the score as written is NaN exactly when the quiz has no questions |
| QuizAttempt.QuizScore | web-interface/frontned/src/pages/student/Dashboard.tsx:655-656 | the intended score is at most 10.0 and agrees with the written one whenever the quiz has questions; a quiz without questions is never scored |
| QuizAttempt.RoundTenthsAtMost | web-interface/frontned/src/pages/student/Dashboard.tsx:655-656 | the rounded score never exceeds 100 tenths |
| QuizAttempt.ScoreBounds | web-interface/frontned/src/pages/student/Dashboard.tsx:655-656 | all correct scores 10.0, none correct scores 0, and more correct answers never score less |
| QuizAttempt.UnparsedQuizScoresNaN | web-interface/frontned/src/pages/student/Dashboard.tsx:526-531 | a saved quiz whose XML does not parse can be submitted at once and scores NaN as written |
| QuizAttempt.CanSubmit | web-interface/frontned/src/pages/student/Dashboard.tsx:1757 | the submit button is enabled at once for a quiz without questions and never while there are fewer answers than questions |
| QuizAttempt.QuestionIdsCount | web-interface/frontned/src/pages/student/Dashboard.tsx:1752 | questions of distinct ids have as many ids as questions |
| QuizAttempt.AnswerIdsCount | web-interface/frontned/src/pages/student/Dashboard.tsx:1752 | one answer per question gives as many answered ids as answers |
| QuizAttempt.SubmitMeansAllAnswered | web-interface/frontned/src/pages/student/Dashboard.tsx:1752-1757 | when the answers are for the quiz's own questions, one each, and question ids differ, "n of m answered" reaching m means every question has an answer, and the other way round |
| QuizAttempt.Attempt.constructor | web-interface/frontned/src/pages/student/Dashboard.tsx:606-611 | the attempt starts on the list with no quiz, answers or score |
| QuizAttempt.Attempt.StartQuiz | web-interface/frontned/src/pages/student/Dashboard.tsx:606-611 | starting shows the quiz with no answers and no score |
| QuizAttempt.Attempt.SelectOption | web-interface/frontned/src/pages/student/Dashboard.tsx:613-635 | selecting upserts the answer and changes nothing else |
| QuizAttempt.Attempt.SubmitEnabled | web-interface/frontned/src/pages/student/Dashboard.tsx:1752-1757 | in a valid state whose answers are for the chosen quiz's questions, the button is enabled exactly when every question has an answer |
| QuizAttempt.Attempt.SubmitQuiz | web-interface/frontned/src/pages/student/Dashboard.tsx:637-660 | without a quiz, or for a quiz without questions as the guard at line 638 intends, nothing changes; otherwise the results step shows the score of the correct answers, equal to the written score |
| QuizAttempt.Attempt.ResetQuiz | web-interface/frontned/src/pages/student/Dashboard.tsx:662-667 | reset returns to the list with no quiz, answers or score |
| Flashcards.Toggled | web-interface/frontned/src/pages/student/Dashboard.tsx:455-467 | a shown explanation is hidden; an unflipped card flips and turns by 180 degrees; a flipped card shows its explanation |
| Flashcards.ToggleCycle | web-interface/frontned/src/pages/student/Dashboard.tsx:455-467 | toggling always leaves the card flipped; twice from a flipped card returns to the start; three taps from a fresh card give a flipped card at 180 degrees |
| Flashcards.SwipeOf | web-interface/frontned/src/pages/student/Dashboard.tsx:497-511 | a swipe over 50 goes back, under -50 goes forward, a movement under 20 either way is a tap, anything else does nothing |
| Flashcards.SwipeMirror | web-interface/frontned/src/pages/student/Dashboard.tsx:497-511 | mirroring a swipe exchanges back and forward and keeps taps and ignored movements |
| Flashcards.ApplyKeepsDeck | web-interface/frontned/src/pages/student/Dashboard.tsx:475-487 | navigation keeps the index inside the deck and moves by one at most, and a move resets the card |
| Flashcards.NextPrevInverse | web-interface/frontned/src/pages/student/Dashboard.tsx:475-487 | going forward then back, or back then forward, returns to the same card, reset |
| Flashcards.FlashcardView.constructor | web-interface/frontned/src/pages/student/Dashboard.tsx:429-432 | a new deck shows its first card, reset |
| Flashcards.FlashcardView.ToggleAnswer | web-interface/frontned/src/pages/student/Dashboard.tsx:455-467 | a tap toggles the card face and keeps the deck and index |
| Flashcards.FlashcardView.ResetCard | web-interface/frontned/src/pages/student/Dashboard.tsx:469-473 | reset shows the front, with no explanation and no rotation |
| Flashcards.FlashcardView.NextFlashcard | web-interface/frontned/src/pages/student/Dashboard.tsx:475-480 | forward moves to the next card, reset, unless at the last card |
| Flashcards.FlashcardView.PrevFlashcard | web-interface/frontned/src/pages/student/Dashboard.tsx:482-487 | back moves to the previous card, reset, unless at the first card |
| Flashcards.FlashcardView.TouchEnd | web-interface/frontned/src/pages/student/Dashboard.tsx:497-511 | a touch end applies the action its swipe distance selects |
| TeacherDashboard.CleanXml | web-interface/frontned/src/pages/teacher/Dashboard.tsx:750-757 | the text is kept, or replaced by the non-empty inside of its first markdown fence |
| TeacherDashboard.FenceOpenerAt | web-interface/frontned/src/pages/teacher/Dashboard.tsx:754 | a fence opener placed after backtick-free text is found right there |
| TeacherDashboard.XmlOpenerAt | web-interface/frontned/src/pages/teacher/Dashboard.tsx:754 | the opener found is `\`\`\`xml` exactly when the fence is tagged `xml` |
| TeacherDashboard.FenceInnerOf | web-interface/frontned/src/pages/teacher/Dashboard.tsx:754-756 | the captured group of a fenced reply is the fence's body |
| TeacherDashboard.FenceInnerParts | web-interface/frontned/src/pages/teacher/Dashboard.tsx:754 | a captured group is the text between the opener and the closing fence |
| TeacherDashboard.FenceUnwrapped | web-interface/frontned/src/pages/teacher/Dashboard.tsx:750-757 | a reply wrapped in a (possibly `xml`-tagged) fence, with backtick-free text before it and in it, is unwrapped to the fence body when that body is non-empty |
| TeacherDashboard.NoFenceKeepsAnswer | web-interface/frontned/src/pages/teacher/Dashboard.tsx:750-757 | a reply without a fence is kept as it is |
| TeacherDashboard.AssignmentRoot | web-interface/frontned/src/pages/teacher/Dashboard.tsx:759-768 | the first `<homework>` block when there is one, otherwise the first `<assignment>` block, otherwise nothing |
| TeacherDashboard.HomeworkPreferred | web-interface/frontned/src/pages/teacher/Dashboard.tsx:760-763 | a reply holding a `<homework>` block yields exactly that block |
| TeacherDashboard.AssignmentFallback | web-interface/frontned/src/pages/teacher/Dashboard.tsx:761-763 | a reply holding only an `<assignment>` block yields exactly that block |
| TeacherDashboard.DefaultTaskIdsDiffer | web-interface/frontned/src/pages/teacher/Dashboard.tsx:797 | the generated ids `task-{index+1}` of different positions differ |
| TeacherDashboard.TaskAt | web-interface/frontned/src/pages/teacher/Dashboard.tsx:796-804 | a task keeps a non-empty `id` attribute, and one without an id (or with an empty one) gets the id of its position; its text is the text content of its first `<text>` descendant, or its own text content when there is none |
| TeacherDashboard.TasksOf | web-interface/frontned/src/pages/teacher/Dashboard.tsx:795-805 | one task per `<task>` element |
| TeacherDashboard.TasksOfPrefix | web-interface/frontned/src/pages/teacher/Dashboard.tsx:795-805 | reading one more element appends its task, numbered by position |
| TeacherDashboard.ReadTasks | web-interface/frontned/src/pages/teacher/Dashboard.tsx:795-805 | the forEach loop builds exactly the specified task list |
| TeacherDashboard.TasksOfAt | web-interface/frontned/src/pages/teacher/Dashboard.tsx:795-805 | the i-th task is read from the i-th element with index i |
| TeacherDashboard.ParseAssignmentXml | web-interface/frontned/src/pages/teacher/Dashboard.tsx:743-817 | the parser yields exactly the specified assignment: nothing without a block or on a parser error, otherwise title, description, tasks and instructions |
| TeacherBoard.QuizDraft | web-interface/frontned/src/pages/teacher/Dashboard.tsx:495-509 | a draft exists exactly when the reply parses to at least one question, and carries the topic, the time as key and timestamp, and the questions |
| TeacherBoard.HomeworkDraft | web-interface/frontned/src/pages/teacher/Dashboard.tsx:715-733 | a draft exists exactly when the reply parses, with the topic, the reply text, the tasks and the title or `Assignment on {topic}` |
| TeacherBoard.LoadedHomework | web-interface/frontned/src/pages/teacher/Dashboard.tsx:873-882 | a listed assignment keeps its key, topic, timestamp and xml; unparsable XML gives the topic as title and no tasks |
| TeacherBoard.LoadedQuiz | web-interface/frontned/src/pages/teacher/Dashboard.tsx:636-643 | a listed quiz keeps its key, topic and timestamp; unparsable XML gives no questions |
| TeacherBoard.ReadReply | web-interface/frontned/src/pages/teacher/Dashboard.tsx:485-512 | a failed request shows its message; a reply without data shows the no-data message; otherwise the text (or response) is kept and either becomes the unsaved draft or shows the parse-failure message |
| TeacherBoard.Board.constructor | web-interface/frontned/src/pages/teacher/Dashboard.tsx:465-933 | the board starts with empty lists, empty forms and no delete errors |
| TeacherBoard.Board.GenerateQuiz | web-interface/frontned/src/pages/teacher/Dashboard.tsx:465-516 | a blank topic only sets the topic error; otherwise the quiz form follows the generator's reply; nothing else changes |
| TeacherBoard.Board.SaveQuiz | web-interface/frontned/src/pages/teacher/Dashboard.tsx:584-625 | without a draft or XML only the error is set; a saved quiz is put first in the list with the server's key; a failed save sets the server's error or the default |
| TeacherBoard.Board.LoadQuizzes | web-interface/frontned/src/pages/teacher/Dashboard.tsx:628-655 | a listing replaces the quiz list with the loaded quizzes, in order; a failure keeps the list and sets the error |
| TeacherBoard.Board.DeleteQuiz | web-interface/frontned/src/pages/teacher/Dashboard.tsx:658-682 | nothing happens unless confirmed; a successful delete removes every quiz with the key; a failure keeps the list and sets the delete error |
| TeacherBoard.Board.GenerateHomework | web-interface/frontned/src/pages/teacher/Dashboard.tsx:685-740 | a blank topic only sets the topic error; otherwise the assignment form follows the generator's reply; nothing else changes |
| TeacherBoard.Board.SaveHomework | web-interface/frontned/src/pages/teacher/Dashboard.tsx:820-862 | without a draft or XML only the error is set; a saved assignment is put first with the server's key; a failed save sets the error |
| TeacherBoard.Board.LoadHomework | web-interface/frontned/src/pages/teacher/Dashboard.tsx:865-895 | a listing replaces the assignment list with the loaded assignments, in order; a failure keeps the list and sets the error |
| TeacherBoard.Board.DeleteHomework | web-interface/frontned/src/pages/teacher/Dashboard.tsx:898-922 | nothing happens unless confirmed; a successful delete removes every assignment with the key; a failure sets the delete error |
| KeyedLists.MapAll | web-interface/frontned/src/pages/teacher/Dashboard.tsx:636-643 | `map` keeps the length and reads each item in place |
| KeyedLists.WithoutKey | web-interface/frontned/src/pages/teacher/Dashboard.tsx:672 | `filter` never lengthens the list |
| KeyedLists.WithoutKeyMembers | web-interface/frontned/src/pages/teacher/Dashboard.tsx:672 | an item survives the filter exactly when it was in the list and has another key |
| KeyedLists.WithoutKeyConcat | web-interface/frontned/src/pages/teacher/Dashboard.tsx:607 | filtering a list with an item put first filters both parts |
| KeyedLists.WithoutAbsentKey | web-interface/frontned/src/pages/teacher/Dashboard.tsx:672 | deleting a key no item has leaves the list unchanged |
| KeyedLists.WithoutKeyIdempotent | web-interface/frontned/src/pages/teacher/Dashboard.tsx:672 | deleting the same key twice is the same as deleting it once |
| QuizRoutes.QuizPattern | web-interface/backend/quiz_routes.py:24 | the extraction pattern is well formed, with a six-character opener and a seven-character closer |
| QuizRoutes.QuestionOf | web-interface/backend/quiz_routes.py:41-55 | a question keeps its `id` attribute, `q{idx+1}` when absent, and its `type` attribute, `unknown` when absent; its text is the stripped text of its `<text>` child, `No question text` when the child or its text is missing; one option per `<option>` below it |
| QuizRoutes.QuizOf | web-interface/backend/quiz_routes.py:36-40 | the topic is the stripped text of the `<topic>` child, `Untitled Quiz` when the child or its text is missing; one question per `<question>` below the root, none exactly when no `<question>` lies below it |
| QuizRoutes.OptionsOf | web-interface/backend/quiz_routes.py:52-55 | one option is read per descendant `<option>` of the question |
| QuizRoutes.OptionListAt | web-interface/backend/quiz_routes.py:52-55 | the i-th option read comes from the i-th `<option>` element and is numbered i |
| QuizRoutes.QuestionListAt | web-interface/backend/quiz_routes.py:40-56 | the i-th question read comes from the i-th `<question>` element and is numbered i |
| QuizRoutes.QuizQuestions | web-interface/backend/quiz_routes.py:39-59 | the parsed quiz has exactly one question per descendant `<question>`, in document order |
| QuizRoutes.ParseOptions | web-interface/backend/quiz_routes.py:52-55 | the option loop yields exactly the specified option list |
| QuizRoutes.ParseQuestion | web-interface/backend/quiz_routes.py:41-56 | one pass of the question loop yields the question with its id or `q{idx+1}`, its type or `unknown`, its text or `No question text` and its options |
| QuizRoutes.ParseQuizXml | web-interface/backend/quiz_routes.py:20-65 | the parse error is raised exactly when the extracted or whole text does not parse; otherwise the result is the quiz read from the parsed root |
| QuizRoutes.ReadQuiz | web-interface/backend/quiz_routes.py:36-59 | the reading after parsing yields the topic (or `Untitled Quiz`) and the questions as specified |
| QuizRoutes.MismatchedRootAccepted | web-interface/backend/quiz_routes.py:24-27 | an opener `<TEST>` paired with a closer `</quiz>` is extracted as a document |
| QuizRoutes.OptionOf | web-interface/backend/quiz_routes.py:53-54 | an option is correct exactly when its `correct` attribute lower-cases to `true`, so a missing one means incorrect; its text is its stripped leading text, or `Option {idx+1}` when it has none |
| QuizRoutes.UpperCaseTrueIsCorrect | web-interface/backend/quiz_routes.py:53 | `correct="TRUE"` counts as correct |
| QuizRoutes.QuizKeySplit | web-interface/backend/quiz_routes.py:227-229 | a quiz key with a colon-free suffix splits into exactly three parts, the third being the suffix |
| QuizRoutes.QuizKeyIndex | web-interface/backend/quiz_routes.py:227-229 | a key has an index only when it is three colon-free fields whose last reads as that integer; a key without a colon has none |
| QuizRoutes.NewQuizKey | web-interface/backend/quiz_routes.py:236 | a new quiz key is the `doc:brasov-tests:` prefix followed by decimal digits |
| QuizRoutes.NewQuizKeyIndex | web-interface/backend/quiz_routes.py:224-236 | the key written for index n is read back as index n |
| QuizRoutes.NewQuizKeyFresh | web-interface/backend/quiz_routes.py:223-236 | the key for one more than the highest index is not an existing key |
| QuizRoutes.SaveQuiz | web-interface/backend/quiz_routes.py:211-249 | 400 exactly when the body is missing or invalid, with the store unchanged; otherwise one new hash (xml, topic, timestamp) under the next free key and nothing else changes |
| QuizRoutes.StoreNewQuiz | web-interface/backend/quiz_routes.py:220-245 | the key is the next free index's key and the store gains exactly that hash |
| QuizRoutes.GetQuizzes | web-interface/backend/quiz_routes.py:287-316 | the listed quizzes are a permutation of the non-empty quiz hashes read with their defaults, sorted newest first |
| QuizRoutes.NormaliseQuizKey | web-interface/backend/quiz_routes.py:375-381 | a key with the quiz prefix is kept, a colon-free key gets the prefix, any other key is kept |
| QuizRoutes.NormaliseQuizKeyIdempotent | web-interface/backend/quiz_routes.py:375-381 | normalising a key twice gives the same key as normalising it once |
| QuizRoutes.QuizKeyToDelete | web-interface/backend/quiz_routes.py:375-403 | the normalised key if it exists, else the legacy `brasov-quizzes:` key of the last segment if that exists, else none; a chosen key always exists |
| QuizRoutes.LegacyQuizKey | web-interface/backend/quiz_routes.py:395 | the fallback key always has the `brasov-quizzes:` prefix, followed by the key itself when it has no colon |
| QuizRoutes.LegacyQuizKeySuffix | web-interface/backend/quiz_routes.py:393-397 | a bare index and any colon-separated key ending in it, such as `doc:brasov-tests:5` and `5`, fall back to the same legacy key |
| QuizRoutes.DeleteQuiz | web-interface/backend/quiz_routes.py:356-410 | OPTIONS answers 200 with no change; an invalid body answers 400 with no change; otherwise 404 with no change when neither key exists, or 200 with exactly the chosen key removed |
| QuizRoutes.DeleteRemovesOneKey | web-interface/backend/quiz_routes.py:392-405 | a successful delete shrinks the store by exactly one key |
| AssignmentRoutes.NewAssignmentKeyIndex | web-interface/backend/assignment_routes.py:62-71 | the key written for index n is read back as index n |
| AssignmentRoutes.NewAssignmentKeyFresh | web-interface/backend/assignment_routes.py:58-71 | the key for one more than the highest index is not an existing key |
| AssignmentRoutes.AssignmentKeyIndex | web-interface/backend/assignment_routes.py:62-64 | a key has an index only when it is two colon-free fields whose second reads as that integer; a key without a colon has none |
| AssignmentRoutes.NewAssignmentKey | web-interface/backend/assignment_routes.py:71 | a new assignment key is the `brasov-assignments:` prefix followed by decimal digits |
| AssignmentRoutes.SaveAssignment | web-interface/backend/assignment_routes.py:46-84 | 400 exactly when the body is missing or invalid, with the store unchanged; otherwise one new hash (xml, topic, timestamp) under the next free `brasov-assignments:` key and nothing else changes |
| AssignmentRoutes.StoreNewAssignment | web-interface/backend/assignment_routes.py:55-80 | the key is the next free index's key and the store gains exactly that hash |
| AssignmentRoutes.GetAssignments | web-interface/backend/assignment_routes.py:125-159 | OPTIONS lists nothing; otherwise the listed assignments are a permutation of the non-empty assignment hashes read with their defaults, sorted newest first |
| AssignmentRoutes.NormaliseAssignmentKey | web-interface/backend/assignment_routes.py:218-221 | a colon-free key gets the `brasov-assignments:` prefix, any other key is kept |
| AssignmentRoutes.NormaliseAssignmentKeyIdempotent | web-interface/backend/assignment_routes.py:218-221 | a normalised key contains a colon and normalising it again changes nothing |
| AssignmentRoutes.DeleteAssignment | web-interface/backend/assignment_routes.py:202-236 | OPTIONS answers 200 with no change; an invalid body answers 400 with no change; otherwise 200 with exactly the normalised key removed when it exists, else 404 with no change |
| SavedItems.HighestIndexStep | web-interface/backend/quiz_routes.py:224-230 | taking one more key into the running maximum keeps it the highest index of the keys seen |
| SavedItems.HighestIndex | web-interface/backend/quiz_routes.py:223-233 | the loop yields the highest parsable index of the keys, or 0 |
| SavedItems.ItemOf | web-interface/backend/quiz_routes.py:296-305 | an empty hash is skipped; a hash with an integer timestamp is listed under its key; missing fields read as the default topic, timestamp 0 and empty xml |
| SavedItems.ListedItemsAdd | web-interface/backend/quiz_routes.py:293-312 | reading one more key adds its item, new to the listing, or nothing when it is skipped |
| SavedItems.ListItems | web-interface/backend/quiz_routes.py:287-316 | the listed items are a permutation of the readable items of the prefixed keys, sorted newest first |
| SavedItems.BadTimestampFailsListing | web-interface/backend/quiz_routes.py:307-312 | a hash whose timestamp is not an integer makes the listing as written fail, while the intended listing skips it |
| RedisStore.KeysWithPrefix | web-interface/backend/config.py:33-35 | the keys a `prefix*` pattern selects are stored keys, and every stored key with the prefix is selected |
| RedisStore.AsciiPrefixUtf8 | web-interface/backend/redis_utils.py:20-23 | an ASCII prefix neither makes nor spoils well-formed UTF-8 |
| RedisStore.AsciiUtf8 | web-interface/backend/redis_utils.py:20-23 | ASCII bytes decode on the decoding connection |
| RedisStore.PdfHeader | web-interface/backend/pdf_handler_routes.py:61-80 | a PDF file opens with `%PDF-` and a comment line of bytes above 0x7F |
| RedisStore.PdfHeaderNotUtf8 | web-interface/backend/redis_utils.py:20-23 | bytes opening with a PDF header are not UTF-8, whatever follows |
| RedisStore.Store.constructor | web-interface/backend/quiz_routes.py:220 | the store holds the given hashes |
| RedisStore.Store.Keys | web-interface/backend/quiz_routes.py:221 | KEYS with a prefix pattern returns exactly the keys with that prefix |
| RedisStore.Store.KeyList | web-interface/backend/materials_routes.py:416 | the key list has no repeats and holds exactly the keys with the prefix |
| RedisStore.Store.HSet | web-interface/backend/quiz_routes.py:238-245 | HSET merges the given fields into the key's hash, creating it if absent, and changes no other key |
| RedisStore.Store.Delete | web-interface/backend/quiz_routes.py:405 | DEL removes exactly the given key |
| RequestModels.RequiredText | web-interface/backend/models.py:16 | a required field is accepted exactly when it is a string of at least one character, and its value is kept |
| RequestModels.UploadRequest | web-interface/backend/models.py:15-16 | accepted exactly when `text` is a non-empty string |
| RequestModels.KeyRequest | web-interface/backend/models.py:18-22 | accepted exactly when `key` is a non-empty string, whose value is returned |
| RequestModels.GenerateRequest | web-interface/backend/models.py:36-37 | accepted exactly when `topic` is a non-empty string |
| RequestModels.SaveRequest | web-interface/backend/models.py:39-41 | accepted exactly when `xml` and `topic` are both non-empty strings, returned in that order |
| RequestModels.LaxInt | web-interface/backend/models.py:26 | lax integers: a JSON integer as is, a boolean as 0 or 1, a float exactly when it has no fractional part, a string as `int()` reads it; null, arrays and objects rejected |
| RequestModels.SearchRequest | web-interface/backend/models.py:24-26 | accepted exactly when the query is a non-empty string and the limit is absent, null, or reads in lax mode as an integer in 1..100; an absent limit is 10, a null one none, any other the integer read |
| RequestModels.LaxBool | web-interface/backend/models.py:33 | lax booleans: a JSON boolean as is; 0 and 1, 0.0 and 1.0 as false and true; the true and false words in any case; anything else rejected |
| RequestModels.SyncAllRequest | web-interface/backend/models.py:32-33 | an absent or null `force_rename` reads as false; any other value is read as a lax boolean, and arrays and objects are rejected |
| RequestModels.ReadBody | web-interface/backend/quiz_routes.py:212-216 | a missing or empty body is the "No JSON data provided" case; otherwise the body is accepted with exactly what the validator returns, or rejected when it returns nothing |
| RequestModels.SuccessResponse | web-interface/backend/models.py:5-7 | a success reply with the message and no error |
| RequestModels.ErrorResponse | web-interface/backend/models.py:9-12 | a failure reply with the error and the details and no message |
| MaterialsRoutes.DocumentKeys | web-interface/backend/materials_routes.py:129-130 | the listed keys are exactly the stored course keys that do not end in `:name` |
| MaterialsRoutes.MaterialOf | web-interface/backend/materials_routes.py:136-145 | an empty hash is skipped; otherwise the entry carries the key as id, content and name or "", and has_pdf exactly when `pdf_data` is present |
| MaterialsRoutes.ListedMaterialsAdd | web-interface/backend/materials_routes.py:133-146 | reading one more key adds its entry, new to the listing, or nothing when its hash is empty |
| MaterialsRoutes.GetMaterials | web-interface/backend/materials_routes.py:127-149 | the documents are, as a multiset, exactly the entries of the non-empty course hashes |
| MaterialsRoutes.ReadMaterials | web-interface/backend/materials_routes.py:132-148 | the loop over the keys lists exactly their entries |
| MaterialsRoutes.SyncDocumentName | web-interface/backend/materials_routes.py:253-287 | 400 for a missing or invalid body; 404 when the key is absent or has no content; 500 when no name is generated; 200 with the generated name written as the `name` field and nothing else changed; every error leaves the store unchanged |
| MaterialsRoutes.DeleteMaterial | web-interface/backend/materials_routes.py:328-356 | 400 for a missing or invalid body; otherwise 200 with exactly the key removed when it exists, else 404 with no change |
| MaterialsRoutes.KeyTimestamp | web-interface/backend/materials_routes.py:608 | a key without a colon has timestamp 0, otherwise the integer value of its last segment, if any |
| MaterialsRoutes.TitleOf | web-interface/backend/materials_routes.py:607 | the title field, else the name field, else "" |
| MaterialsRoutes.HitOf | web-interface/backend/materials_routes.py:582-614 | as intended, a match yields a hit exactly when it has a non-empty key whose stored hash has content and whose timestamp parses; the hit carries the content, title, timestamp, pdf flag and score (0 when absent); a binary `pdf_data` gives has_pdf, where the written read fails (Findings) |
| MaterialsRoutes.HitsOfFrom | web-interface/backend/materials_routes.py:582-614 | every returned hit comes from some match; with no usable match the result is empty |
| MaterialsRoutes.HitsOfTo | web-interface/backend/materials_routes.py:582-614 | every usable match contributes its hit |
| MaterialsRoutes.SearchMaterials | web-interface/backend/materials_routes.py:562-626 | as intended, 400 for a missing or invalid body; otherwise 200 with the hits of the matches the search service returns for the query and limit; the written route's 500 cases are `SearchFailsAsWritten` (Findings) |
| MaterialsRoutes.NamedKeyFailsSearch | web-interface/backend/materials_routes.py:608 | a course key whose last segment is not a number makes the search as written fail, while the intended search skips it |
| MaterialsRoutes.UndecodablePdfFailsSearch | web-interface/backend/materials_routes.py:591-602 | a usable match whose `pdf_data` is not UTF-8 fails the search as written, while the intended search returns its hit with has_pdf |
| MaterialsRoutes.PdfDocumentFailsSearch | web-interface/backend/materials_routes.py:591-602 | a course document holding a PDF file fails the written search and is returned with has_pdf by the intended one |
| MaterialsSync.SyncDecision | web-interface/backend/materials_routes.py:442-496 | a document without content is an error; content shorter than five characters or `#` is deleted; a named document is skipped unless renaming is forced; otherwise it is named or renamed with the generated name, or counted as an error when none is generated |
| MaterialsSync.OutcomesOf | web-interface/backend/materials_routes.py:439-502 | every scanned key has exactly the outcome its own hash decides |
| MaterialsSync.SyncEffect | web-interface/backend/materials_routes.py:456-496 | after the pass a key is missing exactly when it was processed and its content was short; a kept document changes at most its name, and only when it was named or renamed |
| MaterialsSync.Preview | web-interface/backend/materials_routes.py:458 | the preview is the first 30 characters of the text, or all of it |
| MaterialsSync.SyncOne | web-interface/backend/materials_routes.py:440-496 | one key is decided by its own hash; a short document is deleted, a named one gets its new name, and nothing else changes |
| MaterialsSync.SyncAllDocuments | web-interface/backend/materials_routes.py:405-507 | an invalid `force_rename` rejects the request with no change; otherwise every course key is scanned once, the counters count the outcomes, and the store is exactly the synced store |
| MaterialsSync.ReplaySynced | web-interface/backend/materials_routes.py:439-502 | replaying the outcomes key by key in list order gives the same store as applying them to the set of keys |
| MaterialsSync.CountSeqSet | web-interface/backend/materials_routes.py:425-502 | counting over the key list equals counting over its set, which has as many keys as the list |
| MaterialsSync.CountedOfSeq | web-interface/backend/materials_routes.py:425-502 | counters that count the key list count its set |
| MaterialsSync.SyncKey | web-interface/backend/materials_routes.py:439-502 | one pass of the loop applies the next key's outcome and counts it |
| MaterialsSync.SyncPass | web-interface/backend/materials_routes.py:439-502 | the loop scans every key, applies each outcome and counts each once |
| LegacyRoutes.BeforeFinalNewline | web-interface/backend/legacy_routes.py:14 | what `$` may end before: the key itself or the key without one final newline |
| LegacyRoutes.TrailingDigits | web-interface/backend/legacy_routes.py:14 | the longest run of digits at the end of the text |
| LegacyRoutes.ExtractNumericIndex | web-interface/backend/legacy_routes.py:12-17 | the index is -1 or a number |
| LegacyRoutes.ExtractNumericIndexMatches | web-interface/backend/legacy_routes.py:12-17 | -1 exactly when no `:` followed only by digits ends the key (before an optional final newline); otherwise the value of those digits |
| LegacyRoutes.ExtractNumericIndexOfKey | web-interface/backend/legacy_routes.py:12-17 | a key ending in `:` and the decimal form of n has index n |
| LegacyRoutes.NoColonNoIndex | web-interface/backend/legacy_routes.py:12-17 | a key without a colon has index -1 |
| LegacyRoutes.IndexedKeys | web-interface/backend/legacy_routes.py:82-88 | the keys kept by the scan are stored keys |
| LegacyRoutes.Indexed | web-interface/backend/legacy_routes.py:82-88 | a key is kept exactly when it has an index |
| LegacyRoutes.IndexedDistinct | web-interface/backend/legacy_routes.py:82-88 | filtering a repeat-free key list keeps it repeat-free |
| LegacyRoutes.SliceOutput | web-interface/backend/legacy_routes.py:96-111 | the output has exactly the fetched keys, each mapped to its content or the `<content field missing or null>` placeholder |
| LegacyRoutes.SliceOutputSize | web-interface/backend/legacy_routes.py:96-111 | fetching distinct keys gives one entry per key |
| LegacyRoutes.SliceBounds | web-interface/backend/legacy_routes.py:67-73 | accepted bounds satisfy start <= stop |
| LegacyRoutes.SliceBoundsChecks | web-interface/backend/legacy_routes.py:67-73 | the request is rejected exactly when a bound is not an integer, start is negative or stop is below start; otherwise the bounds are the parsed integers |
| LegacyRoutes.GetSlice | web-interface/backend/legacy_routes.py:67-113 | 400 with no output exactly for rejected bounds; otherwise 200 with the contents of the keys at positions start..stop (clamped) of the indexed keys sorted by index |
| LegacyRoutes.SliceAnswer | web-interface/backend/legacy_routes.py:75-113 | the output is the clamped slice of the sorted key list, one entry per key |
| LegacyRoutes.SortedKeys | web-interface/backend/legacy_routes.py:79-90 | the list holds each indexed key once, sorted by index |
| LegacyRoutes.FilterIndexed | web-interface/backend/legacy_routes.py:82-88 | the scan loop keeps exactly the indexed keys in order |
| LegacyRoutes.FetchContents | web-interface/backend/legacy_routes.py:100-111 | the fetch loop builds exactly the specified output |
| PdfRoutes.DownloadName | web-interface/backend/pdf_handler_routes.py:67-83 | the download name is the stored name or the fallback, followed by `.pdf` |
| PdfRoutes.PdfByKey | web-interface/backend/pdf_handler_routes.py:50-84 | 404 "Document not found" for an absent key, 404 "Document has no PDF data" without a `pdf_data` field, 404 for empty data; otherwise the PDF bytes under the download name, with the key's last segment as fallback |
| PdfRoutes.PdfByShortId | web-interface/backend/pdf_handler_routes.py:119-151 | the short id names `doc:brasov-cursuri:{id}`; 404 "Document not found" or "No PDF data for this document"; otherwise the bytes under the download name with the id as fallback |
| PdfRoutes.ShortIdMatchesFullKey | web-interface/backend/pdf_handler_routes.py:50-151 | for a colon-free id both routes serve the same PDF, and serve it in the same cases |
| MaterialsList.MaterialOf | web-interface/frontned/src/components/MaterialsList.tsx:69-76 | a listed document becomes an entry with no title and timestamp 0, its content as text and its name, each "" when absent, its id or "" as key, and a pdf flag only when `has_pdf` is true |
| MaterialsList.DisplayName | web-interface/frontned/src/components/MaterialsList.tsx:281-299 | the shown name is never empty: a name different from the key is shown as is, and an entry without a key shows its name or `Unnamed Document` |
| MaterialsList.DisplayNameOfKey | web-interface/frontned/src/components/MaterialsList.tsx:288-295 | an unnamed entry whose key ends in the segment `0` shows `Initial Document`, an empty segment `Document #unknown`, any other `Document #{segment}` |
| MaterialsList.PageTurn | web-interface/frontned/src/components/MaterialsList.tsx:270-275 | a page within range is shown with the selection cleared; any other page changes nothing |
| MaterialsList.Navigated | web-interface/frontned/src/components/MaterialsList.tsx:301-350 | an empty list changes nothing; with nothing selected the first entry is selected; a page change moves one page in the direction asked and clears the selection |
| MaterialsList.NavigateInList | web-interface/frontned/src/components/MaterialsList.tsx:301-350 | navigation keeps the selection inside the list and the page in range; in a non-empty list it selects something or turns the page; within a page it moves the selection by at most one |
| MaterialsList.SinglePageNavigation | web-interface/frontned/src/components/MaterialsList.tsx:311-343 | with one page the page never changes and a selection is kept |
| MaterialsList.NavigateInverse | web-interface/frontned/src/components/MaterialsList.tsx:324-348 | next then previous, or previous then next, returns to the same entry |
| MaterialsList.SelectionAsWritten | web-interface/frontned/src/components/MaterialsList.tsx:230-244 | as written, the selection after a delete is at or before the old one and shows the entry at that index of the list before the delete |
| MaterialsList.DeletedDocumentShownAsWritten | web-interface/frontned/src/components/MaterialsList.tsx:225-244 | deleting the second of three entries while the third is selected shows the deleted entry as written |
| MaterialsList.SelectionAfterDelete | web-interface/frontned/src/components/MaterialsList.tsx:230-244 | without a selection nothing is selected after a delete |
| MaterialsList.SelectionFollowsDocument | web-interface/frontned/src/components/MaterialsList.tsx:225-244 | when another entry was selected, the corrected selection points at that same entry in the filtered list |
| MaterialsList.Retry | web-interface/frontned/src/components/MaterialsList.tsx:95-125 | the retry loop tries at most three times; it succeeds exactly when one of the three attempts succeeds, after the failures before the first success |
| MaterialsList.Decided | web-interface/frontned/src/components/MaterialsList.tsx:100-125 | the reply acted on is a successful one exactly when one of the first three attempts succeeds |
| MaterialsList.Renamed | web-interface/frontned/src/components/MaterialsList.tsx:129-135 | every entry with the key gets the new name and the others are kept |
| MaterialsList.RenamedShowsName | web-interface/frontned/src/components/MaterialsList.tsx:127-135 | a renamed entry shows the new name |
| MaterialsList.MaterialsView.constructor | web-interface/frontned/src/components/MaterialsList.tsx:41-52 | the view starts with no entries, no selection, page 1 of 1 and no error; the sync results start as the truthy `{}`, so the teacher's view shows the results panel with blank counts before any sync |
| MaterialsList.MaterialsView.AutoSelect | web-interface/frontned/src/components/MaterialsList.tsx:260-268 | a non-empty list without a selection selects the first entry, an empty list selects nothing, an existing selection stays |
| MaterialsList.MaterialsView.Load | web-interface/frontned/src/components/MaterialsList.tsx:54-88 | a successful load lists the mapped documents on page 1 of 1 and clears the error; a failure keeps the list and sets `Failed to load documents: …`; then the automatic selection applies |
| MaterialsList.MaterialsView.PageChange | web-interface/frontned/src/components/MaterialsList.tsx:270-275 | the view follows the page-turn rule |
| MaterialsList.MaterialsView.Navigate | web-interface/frontned/src/components/MaterialsList.tsx:301-350 | the view follows the navigation rule |
| MaterialsList.MaterialsView.DeleteMaterial | web-interface/frontned/src/components/MaterialsList.tsx:205-253 | a successful delete filters the key out, clears the error and keeps the selection on the same entry (or falls back to the first); a failure keeps the list and sets `Failed to delete document: …` |
| MaterialsList.MaterialsView.SyncName | web-interface/frontned/src/components/MaterialsList.tsx:90-145 | after the retries, a generated name renames the entries with the key; an empty name or a failure sets the matching error; the selection and page are kept |
| MaterialsList.MaterialsView.SyncAll | web-interface/frontned/src/components/MaterialsList.tsx:147-203 | after the retries, a failure hides the panel, keeps the list, selection and pages, and sets `Failed to sync documents: …`; a success shows the counts and reloads the list: a good reload lists the documents on page 1 of 1, a failed one keeps the list and pages, and the selection follows the auto-select rule; the error is the naming warning when more documents failed than were named, otherwise none after a good reload and the load failure after a failed one |
| MaterialsList.MaterialsView.DismissResults | web-interface/frontned/src/components/MaterialsList.tsx:399-404 | dismissing hides the results panel and changes nothing else |
| PdfViewer.DocId | web-interface/frontned/src/components/PdfViewer.tsx:21-27 | the document id always carries the course prefix, and a key that already has it is kept |
| PdfViewer.DocIdIdempotent | web-interface/frontned/src/components/PdfViewer.tsx:21-27 | normalising an id twice gives the same id as once |
| PdfViewer.DocIdKeepsLastSegment | web-interface/frontned/src/components/PdfViewer.tsx:21-27 | normalising keeps the key's last segment |
| PdfViewer.DocIdOfShortId | web-interface/frontned/src/components/PdfViewer.tsx:21-27 | a colon-free id becomes the prefix followed by the id |
| PdfViewer.DownloadFileName | web-interface/frontned/src/components/PdfViewer.tsx:67 | the download name is the document name or `document`, ending in `.pdf` |
| PdfViewer.PageAfter | web-interface/frontned/src/components/PdfViewer.tsx:48-54 | without a page count nothing changes; otherwise the page moves by the offset only when it stays within the document |
| PdfViewer.PageStaysInDocument | web-interface/frontned/src/components/PdfViewer.tsx:48-54 | starting inside a document, the page stays inside it |
| PdfViewer.ZoomedIn | web-interface/frontned/src/components/PdfViewer.tsx:59 | zooming in adds 0.2 up to the 3.0 cap |
| PdfViewer.ZoomedOut | web-interface/frontned/src/components/PdfViewer.tsx:60 | zooming out subtracts 0.2 down to the 0.5 floor |
| PdfViewer.ZoomBounds | web-interface/frontned/src/components/PdfViewer.tsx:59-60 | both stay within 0.5..3.0, in never lowers and out never raises the scale, and away from the caps each undoes the other |
| PdfViewer.ZoomGridShifts | web-interface/frontned/src/components/PdfViewer.tsx:59-60 | three steps out from 1.0 reach the floor 0.5, and three steps in from there reach 1.1, not 1.0 |
| PdfViewer.Rotated | web-interface/frontned/src/components/PdfViewer.tsx:61 | rotation is a quarter turn clockwise modulo 360 |
| PdfViewer.RotationCycle | web-interface/frontned/src/components/PdfViewer.tsx:61 | rotation stays on quarter turns and four rotations return to the start |
| PdfViewer.PdfView.constructor | web-interface/frontned/src/components/PdfViewer.tsx:14-19 | the viewer starts loading at page 1, scale 1.0, no rotation and no error |
| PdfViewer.PdfView.LoadSucceeded | web-interface/frontned/src/components/PdfViewer.tsx:37-40 | a load records the page count and stops loading, changing nothing else |
| PdfViewer.PdfView.LoadFailed | web-interface/frontned/src/components/PdfViewer.tsx:42-46 | a failure records `Failed to load PDF document` and stops loading |
| PdfViewer.PdfView.ChangePage | web-interface/frontned/src/components/PdfViewer.tsx:48-57 | the page follows the page rule and nothing else changes |
| PdfViewer.PdfView.ZoomIn | web-interface/frontned/src/components/PdfViewer.tsx:59 | the scale follows the zoom-in rule and nothing else changes |
| PdfViewer.PdfView.ZoomOut | web-interface/frontned/src/components/PdfViewer.tsx:60 | the scale follows the zoom-out rule and nothing else changes |
| PdfViewer.PdfView.Rotate | web-interface/frontned/src/components/PdfViewer.tsx:61 | the rotation follows the rotation rule and nothing else changes |
| PdfUploader.TitleOf | web-interface/frontned/src/components/PdfUploader.tsx:31-34 | the title is the file name with its first `.pdf` taken out, or the name itself when it has none |
| PdfUploader.TitleOfPdfName | web-interface/frontned/src/components/PdfUploader.tsx:31-34 | a name that is a base plus `.pdf` gives back the base |
| PdfUploader.PageText | web-interface/frontned/src/components/PdfUploader.tsx:79 | a page's text is its items joined by spaces: one item gives that item, none gives the empty text |
| PdfUploader.PagesTextPrefix | web-interface/frontned/src/components/PdfUploader.tsx:76-84 | the extraction buffer grows by each page's text followed by a blank line |
| PdfUploader.SinglePageText | web-interface/frontned/src/components/PdfUploader.tsx:76-86 | a one-page document with no surrounding white space comes out as its items joined by spaces |
| PdfUploader.Progress | web-interface/frontned/src/components/PdfUploader.tsx:83 | the extraction progress is at most 100 and reaches 100 on the last page |
| PdfUploader.ProgressMonotone | web-interface/frontned/src/components/PdfUploader.tsx:83 | the progress never goes down as pages are read |
| PdfUploader.Uploader.constructor | web-interface/frontned/src/components/PdfUploader.tsx:12-21 | the form starts empty on the select step, with no error and no progress |
| PdfUploader.Uploader.Accept | web-interface/frontned/src/components/PdfUploader.tsx:26-34 | accepting a PDF stores it, clears the error, moves to extraction and titles it from a non-empty name |
| PdfUploader.Uploader.FileChosen | web-interface/frontned/src/components/PdfUploader.tsx:24-39 | a chosen PDF is accepted; anything else, or nothing, clears the file and shows the selection error |
| PdfUploader.Uploader.Dropped | web-interface/frontned/src/components/PdfUploader.tsx:41-61 | an empty drop changes nothing; a dropped PDF is accepted; another type shows the drop error and keeps the file |
| PdfUploader.Uploader.ReadPages | web-interface/frontned/src/components/PdfUploader.tsx:71-84 | the loop builds exactly the page buffer, with progress 100 after any page and 0 when there are none |
| PdfUploader.Uploader.ExtractText | web-interface/frontned/src/components/PdfUploader.tsx:143-165 | without a file the form asks for one; extracted text moves to confirmation; a failed extraction returns to selection |
| PdfUploader.Uploader.ConfirmUpload | web-interface/frontned/src/components/PdfUploader.tsx:93-209 | no text is refused; an upload stores the generated name and shows success; a failure goes back to confirmation |
| PdfUploader.Uploader.SuccessTimerFired | web-interface/frontned/src/components/PdfUploader.tsx:185-200 | the success timer clears the file, text and title and returns to selection |
| PdfUploader.Uploader.Cancel | web-interface/frontned/src/components/PdfUploader.tsx:211-220 | cancelling clears the file, text, title and error and returns to selection |
| UploadPaths.PathName | video_understanding/video_understanding.py:112 | the safe file name is one path component: no separator, never `.`, and no longer than the path |
| UploadPaths.PathNameOfFile | video_understanding/video_understanding.py:112 | a directory followed by a plain file name gives that file name |
| UploadPaths.PathNameTrailingSlash | video_understanding/video_understanding.py:112 | a trailing separator does not change the name |
| UploadPaths.PathNameIdempotent | video_understanding/video_understanding.py:112 | taking the name of a name changes nothing |
| UploadPaths.PathNameOfPlain | video_understanding/video_understanding.py:112 | a separator-free name other than `.` is its own name |
| UploadPaths.Suffix | video_understanding/video_understanding.py:81 | a suffix is a dot and at least one other character, with no further dot, ending a longer name |
| UploadPaths.SlashFreeSuffix | latex_writing/latex_writing.py:108 | a separator-free name has a separator-free suffix |
| UploadPaths.SuffixOfExtension | latex_writing/latex_writing.py:108 | a base, a dot and a dot-free extension give that extension as suffix |
| UploadPaths.NoSuffix | latex_writing/latex_writing.py:108 | a name without a dot, or a dot file without another dot, has no suffix |
| UploadPaths.UniqueFilename | video_understanding/video_understanding.py:79-83 | the unique name starts with the id and ends with the original name's suffix |
| UploadPaths.SuffixAfterId | latex_writing/latex_writing.py:106-110 | a dot-free id followed by a suffix has that suffix |
| UploadPaths.UniqueFilenameKeepsSuffix | latex_writing/latex_writing.py:106-110 | the unique name keeps the original file's extension |
| UploadPaths.UniqueFilenameIsPlain | latex_writing/latex_writing.py:106-110 | for a dot-free, separator-free id the unique name is a plain file name |
| VideoUnderstanding.SplitScheme | video_understanding/video_understanding.py:32 | the optional `http://` or `https://` prefix is split off, and the parts rebuild the link |
| VideoUnderstanding.SplitWww | video_understanding/video_understanding.py:32 | the optional `www.` is split off, and the parts rebuild the text |
| VideoUnderstanding.SplitHost | video_understanding/video_understanding.py:32 | a recognised host and path prefix is split off, and the parts rebuild the text |
| VideoUnderstanding.VideoIdOf | video_understanding/video_understanding.py:170-171 | a found video id is eleven letters, digits, `_` or `-` |
| VideoUnderstanding.SchemeOf | video_understanding/video_understanding.py:32 | a scheme followed by the start of a host splits at the scheme |
| VideoUnderstanding.WwwOf | video_understanding/video_understanding.py:32 | `www.` followed by a host splits after `www.` |
| VideoUnderstanding.HostOf | video_understanding/video_understanding.py:32 | each accepted host and path prefix is recognised |
| VideoUnderstanding.VideoIdComplete | video_understanding/video_understanding.py:32 | every way of reading a link as the pattern yields that reading's id |
| VideoUnderstanding.VideoIdSound | video_understanding/video_understanding.py:32 | a link with a found id matches the pattern |
| VideoUnderstanding.VideoIdMatchesRegex | video_understanding/video_understanding.py:57-64 | an id is found exactly when the link matches the YouTube pattern |
| VideoUnderstanding.TaskOf | video_understanding/video_understanding.py:188-234 | a task is known exactly when it is one of the four tasks, and `explain` maps to Explain |
| VideoUnderstanding.LanguageOf | video_understanding/video_understanding.py:188-234 | a language is known exactly when it is one of the five codes, and `en` maps to En |
| VideoUnderstanding.Question | video_understanding/video_understanding.py:188-234 | a prompt exists exactly for a known task and language, and explain in English asks about the video |
| VideoUnderstanding.QuestionText | video_understanding/video_understanding.py:188-234 | the table of prompts by task and language; it has no contract of its own, and Question states which pairs have an entry |
| VideoUnderstanding.QuestionAsWritten | video_understanding/video_understanding.py:212-214 | the prompt table as written: the same cases, with explain in English held as a one-element tuple |
| VideoUnderstanding.GenerateAsWritten | video_understanding/video_understanding.py:184-271 | as written: an unknown mode is refused and an unknown task or language fails on the unbound question |
| VideoUnderstanding.Generate | video_understanding/video_understanding.py:236-271 | an unknown mode is refused, an unknown task or language fails, and otherwise the question is sent with the link or the uploaded file |
| VideoUnderstanding.ExplainEnglishSendsTuple | video_understanding/video_understanding.py:212-240 | as written, explain in English sends the tuple's text; the corrected table sends the plain question |
| VideoUnderstanding.AsWrittenAgreesElsewhere | video_understanding/video_understanding.py:184-271 | outside explain in English the written and corrected services agree |
| VideoUnderstanding.UploadVideo | video_understanding/video_understanding.py:92-149 | a missing name or non-video type is refused; a saved video keeps only the name's last component and is sent from the upload directory |
| VideoUnderstanding.UploadYouTube | video_understanding/video_understanding.py:152-182 | a link is received exactly when it is an http(s) link matching the pattern, with its video id |
| VideoUnderstanding.ShortLinkReceived | video_understanding/video_understanding.py:152-182 | a short `youtu.be` link with a valid id is received with that id |
| LatexWriting.TaskOf | latex_writing/latex_writing.py:199-288 | a task is known exactly when it is one of the four writing tasks |
| LatexWriting.LanguageOf | latex_writing/latex_writing.py:199-288 | a language is known exactly when it has a prompt |
| LatexWriting.Generate | latex_writing/latex_writing.py:195-315 | an unknown task is refused first; without latex mode and files the mode is refused; an unknown language fails on the unbound question; otherwise the files are sent with the task's prompt |
| LatexWriting.StoredPath | latex_writing/latex_writing.py:155-156 | a named file is stored under the upload directory |
| LatexWriting.InfoOf | latex_writing/latex_writing.py:139-179 | a file's record keeps its name and type, and has a saved path exactly when it is named and saved, and an error otherwise |
| LatexWriting.Infos | latex_writing/latex_writing.py:138-179 | the corrected bookkeeping: one record per file, in order |
| LatexWriting.Paths | latex_writing/latex_writing.py:155-157 | at most one stored path per file |
| LatexWriting.SavedNames | latex_writing/latex_writing.py:159-164 | at most one saved name per file |
| LatexWriting.NamelessCount | latex_writing/latex_writing.py:147-151 | the nameless files are some of the files |
| LatexWriting.InfosAsWritten | latex_writing/latex_writing.py:138-179 | as written, each nameless file is recorded twice, so there are as many records as files plus nameless files |
| LatexWriting.NamelessFileCountedTwice | latex_writing/latex_writing.py:147-185 | as written a nameless file appears twice and the message miscounts; the corrected records hold it once |
| LatexWriting.PathsCoverNamed | latex_writing/latex_writing.py:153-157 | every named file's stored path is sent on |
| LatexWriting.PathsPrefix | latex_writing/latex_writing.py:155-157 | the paths of the first files begin the list of paths |
| LatexWriting.SavedNamesSaved | latex_writing/latex_writing.py:159-164 | every saved name belongs to a named file that was saved without error |
| LatexWriting.BookkeepingPrefix | latex_writing/latex_writing.py:138-179 | the records, paths and saved names grow file by file |
| LatexWriting.UploadFiles | latex_writing/latex_writing.py:117-193 | no files are refused; otherwise an unknown task or language is a server error, and the reply holds the count message, one record per file, the saved names and the generated answer |
| AuthStore.Auth.constructor | web-interface/frontned/src/store/auth.ts:12-14 | the store starts signed out with no role |
| AuthStore.Auth.Login | web-interface/frontned/src/store/auth.ts:15 | logging in signs in with the given role |
| AuthStore.Auth.Logout | web-interface/frontned/src/store/auth.ts:16 | logging out signs out and clears the role |
| AuthStore.LoginThenLogout | web-interface/frontned/src/store/auth.ts:12-17 | logging in and then out returns the store to its initial signed-out state |
| AppRoutes.Protected | web-interface/frontned/src/App.tsx:9-21 | a signed-out visitor is sent to the login page; the page renders exactly for a signed-in user with the allowed role; any other role is sent to its own area |
| AppRoutes.RootRedirect | web-interface/frontned/src/App.tsx:24-32 | the root always redirects: to the login page when signed out, otherwise to the role's area |
| AppRoutes.AreaInitial | web-interface/frontned/src/App.tsx:42-52 | teacher-area and student-area paths differ in their second character |
| AppRoutes.RouteOf | web-interface/frontned/src/App.tsx:37-59 | each path is routed to login, the teacher area, the student area or the root exactly when it is that path or area |
| AppRoutes.App | web-interface/frontned/src/App.tsx:37-59 | a page renders exactly on the login route or on an area route for a signed-in user of that area's role; every redirect goes to the login page or, when signed in, to the user's own area |
| AppRoutes.DashboardsGuarded | web-interface/frontned/src/App.tsx:37-59 | a dashboard shows only to a signed-in user of its role inside its area, and a signed-out visitor sees only the login page or a redirect to it |
| AppRoutes.RedirectsSettle | web-interface/frontned/src/App.tsx:9-59 | for a consistent store, following any redirect once lands on a rendered page |
| AppRoutes.MissingRoleEndsAtLogin | web-interface/frontned/src/App.tsx:16-58 | a signed-in store without a role is sent to `/null` and from there to the login page |

## Left out

- Network and AI services:
  - HTTP transport and the Flowise endpoints are not modelled;
  - Gemini uploads, polling and streaming are not modelled;
  - each AI result (a document name, quiz text, generated LaTeX) is a parameter that may fail;
  - the video and LaTeX `generate` answer with what they would send to the model.
- Parsers: DOMParser and `xml.etree` are functions given from outside, over an element
  tree. Their well-formedness checks are not modelled.
- Redis, Flask and logging plumbing:
  - connection pools, blueprints and CORS are not modelled;
  - log lines and the `named_documents_log` entries are not modelled;
  - the order of `KEYS`/`SCAN` results is left open, so loops pick keys from a shrinking set;
  - JSON key order is not modelled.
- Error responses:
  - the 500 and 503 responses raised by a failing Redis connection are not modelled;
  - in the legacy route, only the responses its own checks produce are modelled.
- `redis` is not imported in pdf_handler_routes.py. It only matters on the Redis error path,
  which is left out.
- pdf_handler_routes.py:48 is a stray indented `return`, so that module does not compile as
  written. The routes are modelled from line 50 onward, as evidently intended.
- MaterialsSync: sync-all is modelled up to the end of its loop, covering the store changes
  and the counters. Its response is not modelled:
  - materials_routes.py:506 names an undefined counter, so the handler always ends in an
    error after the loop;
  - the handler has no validation-error branch.
- Strings.Trim: only the six ASCII white-space characters are cut. Unicode white space that
  Python `strip()` and JavaScript `trim()` also remove, such as U+00A0, is kept.
- Strings.Lower: only `A`-`Z` are lower-cased. Python `lower()` on other letters is not
  modelled.
- TagMatch.IsAtFold: case-insensitive matching folds ASCII letters only. Unicode case folding
  under `re.IGNORECASE`, such as `ſ` (U+017F) matching `s`, is not modelled.
- RequestModels.ReadBody: a JSON body that is not an object (a non-empty array, a number or
  a string) is not modelled. The source passes it to the model as keyword arguments, which
  raises `TypeError` and answers 500.
- RequestModels.LaxInt: a JSON float is an exact real, so binary rounding and floats too
  large to be finite are not modelled; a numeric string is read by `int()`'s rules, and any
  further string forms Pydantic may accept are not modelled.
- Integer parsing (`int()`, `parseInt`):
  - only ASCII digits are accepted;
  - Unicode digits and `_` separators are not accepted;
  - white space is ASCII white space.
- RedisStore: `pdf_data` is the one field held as raw bytes, one character per byte. Every
  other field is held as the text it decodes to, since the routes write them as text.
- Empty hashes: Redis never stores an empty hash, but the model allows one. The routes skip
  it where the source tests for it.
- QuizAttempt:
  - questions without an id share one answer entry, as in the source;
  - `toFixed(1)` is modelled as rounding half up in tenths, so the binary rounding of
    halves is not modelled.
- TeacherBoard and TeacherDashboard: `Date.now()` is one `now` parameter per handler.
- Flashcards: `generateFlashcards` needs the network and `JSON.parse`, so it is left out.
- Timers:
  - the PdfUploader success timer is the one timer modelled, as the separate step
    `SuccessTimerFired`;
  - the 2 s form resets after a save on the teacher dashboard are left out: the saved form
    stays as it is until the next handler runs;
  - the 500 ms timers in MaterialsList navigation, which select a document after a page
    turn, are left out. Every listing sets `totalPages` to 1, so after a load the page-turn
    branches that start them (MaterialsList.tsx:316-338) are never reached;
  - the 1 s waits between retries and the 100 ms pause are left out. The retries themselves
    are the loop of `Retry`, with no time between attempts.
- Error messages: an error thrown as something other than an `Error` shows "An unknown error
  occurred". Only the `Error` case is modelled.
- MaterialsList: the stale `activeIndex` that a React state closure can read between updates
  is not modelled.
- PdfViewer:
  - `pageNumber` is not reset when a new document loads, as in the source;
  - the zoom is kept in integer hundredths, so the 0.2 steps are exact.
- PdfViewer.Rotated: uses Dafny's non-negative remainder. JavaScript's `%` differs only for
  negative angles, which the viewer never reaches.
- PdfUploader:
  - the `loading` flag is not modelled;
  - a failed extraction is modelled as failing before any page is read;
  - pdf.js text extraction and the base64 encoding of the upload are left out;
  - the file passed on is only its name and MIME type.
- PdfUploader.ReadPages: states the buffer through `PagesText`. A closed form of the
  concatenated text (pages joined by blank lines) is not proved.
- VideoUnderstanding:
  - Pydantic `HttpUrl` normalisation is not modelled: the link is taken as the string the
    validator sees;
  - writing the video to disk and its failure are left out;
  - in video mode an unknown task or language fails only after the file has been saved,
    as modelled.
- LatexWriting:
  - prompt texts are represented by their (task, language) pair;
  - the outer "File processing error" branch is left out, since nothing inside its `try`
    raises once saving is modelled;
  - `uuid4` values are given as a sequence of ids;
  - `Path.suffix` follows the rule of Python before 3.13.
- AppRoutes:
  - React Router matches paths case-insensitively and tolerates a trailing slash;
  - here paths are matched exactly.
- MaterialsRoutes: no modelled route writes `:name` sub-keys. The listing only skips keys
  with that suffix, as the source does, and does not cross-check them with the documents
  they name.

## Findings

| source | as written | input that shows it | evidently intended | confidence | as-written member | corrected member |
|---|---|---|---|---|---|---|
| latex_writing/latex_writing.py:147-185 | a file without a name is appended in the `try` and again in `finally`, so the message miscounts | one upload with no file name gives two records and "Successfully processed 2 file(s)." | one record per file | high, not executed | LatexWriting.InfosAsWritten | LatexWriting.Infos |
| video_understanding/video_understanding.py:212-240 | the explain-in-English prompt ends in a comma, so it is a one-element tuple and its text is sent | task `explain`, language `en` sends `('Tell me about this video',)` | the plain question | high, not executed | VideoUnderstanding.GenerateAsWritten | VideoUnderstanding.Generate |
| web-interface/frontned/src/pages/student/Dashboard.tsx:650-656 | the score divides by the number of questions, which is 0 for a quiz whose XML does not parse | starting and submitting an unparsable quiz scores NaN | submitting a quiz with no questions does nothing, as the `!selectedQuiz.questions` guard at line 638 means to ensure | high, not executed | QuizAttempt.ScoreAsWritten | QuizAttempt.Attempt.SubmitQuiz |
| web-interface/backend/quiz_routes.py:303-308 | the per-item handler names `redis`, which the module never imports, so a bad timestamp fails the whole listing | a saved hash with timestamp `soon` | the bad item is skipped and the rest are listed | high, not executed | SavedItems.ListingFailsAsWritten | SavedItems.ListItems |
| web-interface/backend/assignment_routes.py:145-150 | the per-item handler names `redis`, which the module never imports, so a bad timestamp fails the whole assignment listing | a saved assignment hash with timestamp `soon` | the bad item is skipped and the rest are listed | high, not executed | SavedItems.ListingFailsAsWritten | SavedItems.ListItems |
| web-interface/backend/materials_routes.py:608-617 | a match whose key ends in a name, not a number, raises inside a handler that names the unimported `redis`, so the search fails | a match for `doc:brasov-cursuri:intro` | that match is skipped | medium, not executed | MaterialsRoutes.SearchFailsAsWritten | MaterialsRoutes.HitsOf |
| web-interface/backend/materials_routes.py:591-617 | each matched hash is read whole through the decoding connection, so a binary `pdf_data` raises `UnicodeDecodeError`; the handler naming the unimported `redis` turns it into a `NameError`, and the search fails | a match for a course document whose `pdf_data` holds a PDF file | the hit is returned with has_pdf, as the binary check at lines 601-602 intends | medium, not executed | MaterialsRoutes.SearchFailsAsWritten | MaterialsRoutes.HitOf |
| web-interface/frontned/src/components/MaterialsList.tsx:230-244 | after a delete, the selection is moved using the list from before the delete | deleting `b` from `[a, b, c]` with `c` selected hands the parent the deleted `b` | the selected document stays selected | medium, not executed | MaterialsList.SelectionAsWritten | MaterialsList.SelectionAfterDelete |
