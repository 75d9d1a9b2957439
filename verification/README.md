# Quiz extraction and quiz session, modelled in Dafny

The system turns a PDF of multiple-choice exam questions into a JSON
question bank and then runs a quiz over that bank in a web page. The
correct answers in the PDF are marked with green or yellow highlighter
rectangles. The extractor:

1. collects the highlight rectangles of each page;
2. groups the page's words into lines by their vertical position;
3. computes each line's bounding box;
4. classifies each line as a question header (`12. text`), an option
   (`b) text`) or a continuation line;
5. records an option as correct when its line box intersects a
   highlight rectangle.

The quiz runner keeps a session: the screen, the score, the index of the
current question, the ids of the questions answered wrongly, and the
flags that make each answer graded once.

This project models that core in Dafny. The modules follow the
program's structure:

- `Geometry` (geometry.dfy): boxes, the strict rectangle-intersection
  test, a line's bounding box, and the highlight loop as a method.
- `Colors` (colors.dfy): the highlight-colour test and the per-page
  collection of highlight rectangles.
- `Text` (text.dfy): whitespace stripping, the two line patterns, and
  line classification. Round-trip lemmas show that a header or option
  line written out is read back as the same number, letter and text.
- `Lines` (lines.dfy): grouping words into lines. It is specified by
  `Group` and characterised by `ValidGrouping`: no empty line, order
  kept, consecutive words of a line close, lines split exactly where
  words are not close. Lemmas prove that `Group` is valid and that the
  valid grouping is unique.
- `Questions` (questions.dfy): question records. Options form an
  insertion-ordered dictionary, kept as an association list.
- `Parser` (parser.dfy): the extraction state machine as a pure `Step`
  over line events, and the imperative extractor (`FeedLine`, `FeedPage`,
  `ExtractQuestions`) proved equal to it.
- `Cleanup` (cleanup.dfy): the deduplicate-and-sort of correct letters
  and the dropping of empty questions.
- `QuizSession` (session.dfy): the session state as a class with the
  start, submit, grade and next-question transitions.

A page is given as its rectangles (box, fill colour, stroke colour) and
its words (text and box). Reading the PDF is outside the model.

## Model

| member | source | states |
|---|---|---|
| `Colors.IsHighlightColor` | extract_questions.py:5-43 | A missing, scalar or non-numeric colour is never a highlight. A 3-component colour is one exactly when G > 0.8 and either R < 0.9 and B < 0.9 (green family) or R > 0.8 and B < 0.6 (yellow family). A 4-component colour is one exactly when Y > 0.8 and K < 0.2. Every other length is rejected. |
| `Colors.ReferenceColors` | extract_questions.py:24-41 | Pure green, pure yellow, light green (0.5, 1, 0.5) and CMYK yellow are highlights. Red, blue, black, white, the empty tuple and a grey level are not. |
| `Colors.HighlightBoxes` | extract_questions.py:54-60 | A box is collected exactly when some rectangle with that box has a highlight fill or stroke colour. Never more boxes than rectangles. |
| `Colors.CollectHighlights` | extract_questions.py:54-60 | The loop that tests fill, then stroke, returns exactly `HighlightBoxes` of the page's rectangles, in page order. |
| `Geometry.Intersects` | extract_questions.py:144-149 | The overlap test of the highlight loop: the edge-wise max/min intersection must have positive width and height. Only boxes that both have positive width and height can intersect. |
| `Geometry.IntersectsIffIntervalsOverlap` | extract_questions.py:143-149 | The max/min intersection test holds exactly when both boxes have positive width and height and their x-intervals and y-intervals overlap strictly. |
| `Geometry.IntersectsSymmetric` | extract_questions.py:144-149 | The intersection test does not depend on argument order. |
| `Geometry.TouchingBoxesDoNotIntersect` | extract_questions.py:149 | Boxes that only share an edge do not intersect, because the comparisons are strict. |
| `Geometry.DegenerateBoxIntersectsNothing` | extract_questions.py:149 | A line box of zero width or height never marks an option. |
| `Geometry.LineBox` | extract_questions.py:95-99 | Every word of the line lies inside the line box, and each of the box's four edges is the matching edge of some word. |
| `Geometry.FindOverlap` | extract_questions.py:132-154 | The highlight loop with early exit returns true exactly when some highlight rectangle intersects the line box. |
| `Text.Strip` | extract_questions.py:93 | `str.strip()`: the result is a slice of the input with only whitespace cut at both ends, and it neither starts nor ends with whitespace. |
| `Text.StripTrimmed` | extract_questions.py:112 | Stripping text that has no surrounding whitespace changes nothing, so the extra `.strip()` on a captured group is idempotent. |
| `Text.TakeLine` | extract_questions.py:103 | `.*` takes the longest prefix without a line break, and stops only at a line break or at the end. |
| `Text.DropLeadingSpaces` | extract_questions.py:103 | `\s*` removes exactly the leading whitespace. |
| `Text.LeadingDigits` | extract_questions.py:103 | `\d+` consumes the maximal run of leading digits. |
| `Text.ParseDecimal` | extract_questions.py:111 | `int()` reads a decimal numeral back as the number it denotes. |
| `Text.CapturedText` | extract_questions.py:103-104 | The text captured after a marker contains no line break and has no surrounding whitespace. |
| `Text.HeaderPattern` | extract_questions.py:103 | "Starts with one or more digits followed by a full stop" is equivalent to "the maximal leading digit run is non-empty and followed by a full stop". |
| `Text.Classify` | extract_questions.py:103-126 | A line is a header exactly when it starts with digits and a full stop. Its id is the value of the whole leading digit run, leading zeros included, and its text is what `\s*(.*)` captures after the full stop, stripped. Otherwise a line is an option exactly when it starts with a lower-case letter and `)`. Its key is that letter and its text is what is captured after the `)`, stripped. The captured text is trimmed and has no line break. |
| `Text.HeaderRoundTrip` | extract_questions.py:111-112 | A line written as `n. text`, with the text trimmed and on one line, is classified as a header with id `n` and exactly that text. |
| `Text.OptionRoundTrip` | extract_questions.py:125-126 | A line written as `k) text`, with `k` lower-case, is classified as option `k` with exactly that text. |
| `Lines.Group` | extract_questions.py:80-88 | The reference grouping, one word at a time: a word joins the current line when its top is within 5 points of the previous word's top, and otherwise starts a new line. There are lines exactly when there are words. `Lines.GroupIsValid` and `Lines.GroupingUnique` characterise it completely. |
| `Lines.GroupIsValid` | extract_questions.py:80-88 | The grouping of a page's words is valid: no empty line, the lines concatenate back to the words, words within a line are within 5 points vertically, and consecutive lines are split where they are not. |
| `Lines.GroupingUnique` | extract_questions.py:80-88 | Any valid grouping of the words is the one the extractor builds. |
| `Lines.GroupWords` | extract_questions.py:76-88 | The loop with a running `current_line` returns exactly `Group(words)`, which is a valid grouping. |
| `Lines.LineText` | extract_questions.py:93 | A line's text (its word texts joined by spaces, then stripped) has no surrounding whitespace. |
| `Questions.Lookup` | extract_questions.py:128 | A letter has an entry in the options exactly when it is among their keys. |
| `Questions.Put` | extract_questions.py:128 | Dictionary assignment. An existing key keeps its position and a new key goes last. The key then maps to the new text, every other key keeps its text, and distinct keys stay distinct. |
| `Questions.PutNewKeyAppends` | extract_questions.py:128 | A letter not seen before is appended after all existing options. |
| `Questions.AppendToLast` | extract_questions.py:171-174 | Appending to the last-inserted option keeps every key and every earlier option, and extends only the last option's text by the suffix. |
| `Parser.Step` | extract_questions.py:106-186 | The transition for one line: a header finalises the question in progress and opens a new record, an option line records the option, and any other line continues the question or the last option. Finished questions are never changed or dropped. The ids of the questions the state stands for gain one entry, the header's id, exactly when the line is a header. |
| `Parser.ParseFollowsHeaders` | extract_questions.py:106-119 | Every header line yields exactly one question, in document order: the ids of the output are the ids of the header lines. |
| `Parser.StepWellFormed` | extract_questions.py:106-186 | One line step keeps every question well formed: distinct option letters, and every correct letter names an option. |
| `Parser.ParseWellFormed` | extract_questions.py:106-191 | Every extracted question is well formed. |
| `Parser.NoHeaderNoChange` | extract_questions.py:124-159 | Before the first header there is no question in progress, so option and continuation lines change nothing. |
| `Parser.LinesBeforeFirstHeaderIgnored` | extract_questions.py:124-159 | Prepending lines that contain no header leaves the extraction result unchanged. |
| `Parser.HeaderOpensEmptyRecord` | extract_questions.py:106-119 | A header line finalises the question in progress. It appends a record with the header's id and text, no options and no correct answers. |
| `Parser.HeaderLineStep` | extract_questions.py:106-119 | A `n. text` line closes the current question and opens question `n` with that text. |
| `Parser.NewOptionStep` | extract_questions.py:124-157 | An option line with a new letter appends that option. The letter is marked correct exactly when the line is highlighted. |
| `Parser.HeaderThenOption` | extract_questions.py:106-157 | A header followed by option `a` yields a question with that single option. `a` is correct exactly when its line is highlighted. |
| `Parser.ContinuationExtendsLastOption` | extract_questions.py:168-186 | A continuation line after the options extends the last option's text by a space and the line. The id, the question text, the letters and every earlier option are unchanged. The last letter becomes correct exactly when it already was or the line is highlighted. It is appended only when it was not marked before, so it is never marked twice. Every other letter keeps its status. |
| `Parser.ContinuationExtendsQuestion` | extract_questions.py:159-167 | A continuation line between a header and its first option is appended to the question text after one space. |
| `Parser.FeedLine` | extract_questions.py:91-186 | One pass of the line loop: classify, update and test highlights. The new state is exactly `Step` applied to the line's event. |
| `Parser.FeedPage` | extract_questions.py:52-186 | One page: collect highlights, skip a page without words, otherwise group the words and feed each line. The new state is `RunFrom` over the page's events. |
| `Parser.ExtractQuestions` | extract_questions.py:45-191 | The whole extractor returns `Parse` of the document's line events. Its ids are the header ids and every question is well formed. |
| `Cleanup.SortedSet` | extract_questions.py:203 | `sorted(list(set(xs)))`: strictly increasing, with exactly the letters of `xs`. |
| `Cleanup.SortedListsWithSameElementsAreEqual` | extract_questions.py:203 | Two strictly sorted lists with the same letters are equal, so the normalised answer list is determined by the set of correct letters. |
| `Cleanup.Normalize` | extract_questions.py:203 | Normalising keeps id, text and options. It makes the correct letters strictly sorted, keeps the same set of letters, and preserves well-formedness. |
| `Cleanup.KeptPositionsAreKept` | extract_questions.py:205-207 | The kept positions are increasing and in range. They name exactly the questions with non-empty text and at least one option. |
| `Cleanup.Cleaned` | extract_questions.py:200-207 | The clean-up as a function: each question with text and options, normalised, in the original order. It never returns more questions than it was given. `Cleanup.CleanedIsSelection` and `Cleanup.CleanedQuestionsValid` state what it keeps. |
| `Cleanup.CleanedIsSelection` | extract_questions.py:200-207 | The clean-up is an order-preserving selection. Its i-th output is the normalised question at the i-th kept position, and every question with text and options is kept. |
| `Cleanup.CleanedQuestionsValid` | extract_questions.py:200-207 | Every surviving question has text, options and strictly sorted correct letters, and well-formedness is preserved. |
| `Cleanup.ExtractedQuestionsValid` | extract_questions.py:197-207 | Every saved question has text and options. Its correct letters are sorted, distinct and among its option letters, and the option letters are distinct. |
| `Cleanup.CleanUp` | extract_questions.py:200-207 | The clean-up loop returns exactly `Cleaned(data)`, and every result is kept and sorted. |
| `QuizSession.SameAnswers` | streamlit_app.py:249-252 | An answer is right exactly when every selected letter is a correct letter and every correct letter is selected. Order and repetition do not matter. |
| `QuizSession.GradingExamples` | streamlit_app.py:249-252 | Grading compares letter sets. With correct letters a and c, the selections `[a, c]`, `[c, a]` and `[a, c, a]` are right. `[a]`, `[a, b, c]` and `[]` are wrong. |
| `QuizSession.WithIds` | streamlit_app.py:121 | The review pool holds each question whose id is among the recorded mistakes, as often as in the bank, and no other question. |
| `QuizSession.SampleHasNoRepeats` | streamlit_app.py:123 | When the bank has no duplicate question, a sample drawn from it repeats no question. |
| `QuizSession.IsPool` | streamlit_app.py:116-131 | What the random choices may produce. In review mode it is a reordering of the questions with a recorded id. With a sample size it is that many questions, capped at the bank size. Otherwise it is a reordering of the bank. Every pool is drawn from the bank: no question occurs more often than in the bank. |
| `QuizSession.DrawPool` | streamlit_app.py:116-131 | The pool is one of three things. In review mode it is a permutation of the questions answered wrongly, and empty when none are recorded. With a sample size it is that many questions (capped at the bank size) drawn without replacement. Otherwise it is a permutation of the whole bank. It is empty exactly when there is nothing to ask. |
| `QuizSession.Session.constructor` | streamlit_app.py:89-102 | A new session is on the menu with no mistakes, zero counters and no questions. |
| `QuizSession.Session.StartQuiz` | streamlit_app.py:108-133 | Counters and flags are reset and the mistakes are kept. When review mode has no mistakes, or the pool is empty, screen and questions stay as they were. Otherwise the quiz screen shows a pool as `DrawPool` describes. |
| `QuizSession.Session.Submit` | streamlit_app.py:232-235 | The answer is marked as submitted. |
| `QuizSession.Session.Grade` | streamlit_app.py:248-260 | A submitted, ungraded answer is graded once. A right answer adds one to the score and clears the id from the mistakes. A wrong one records the id and counts a new mistake only when the id was not recorded before. Any other pass changes nothing. |
| `QuizSession.Session.NextQuestion` | streamlit_app.py:237-245 | Moves to the next question and clears both flags. After the last question it shows the summary and keeps the index. |
| `QuizSession.ScoreWithinSession` | streamlit_app.py:248-260 | During a quiz or on its summary, score plus new mistakes never exceeds the number of questions asked. |

## Left out

- Reading the PDF is not modelled. The model takes each page's rectangles and words as input: their boxes, colours and texts.
- Writing the JSON file, loading it in the quiz runner, and the `print` calls are not modelled.
- Python's `re` is replaced by character predicates. `\d` and `int()` are restricted to ASCII digits, although Python also accepts other Unicode decimal digits. Whitespace is the full `str.isspace` set.
- Coordinates and colour components are exact reals, not doubles. Comparisons, minima and maxima agree with the program's. Two boundary cases differ. First, the line grouping subtracts two word tops, and the program rounds that difference to a double. With tops 2.0000000000000004 and 7.0 the exact difference is just under 5, so `Lines.Close` joins the words, but the rounded difference is 5.0 and the program starts a new line. Second, the colour thresholds are the exact values 0.8, 0.9, 0.6 and 0.2. The program compares against the doubles nearest them, so a component equal to the double nearest 0.8 passes the model's `> 0.8` test and fails the program's.
- Colours that the PDF layer reports as strings or patterns are a single `NonNumeric` case, which is never a highlight.
- The unused `line_area` computation and the unused `last_y` variable are not modelled.
- Streamlit rendering is not modelled: widgets, toasts, error messages, `st.rerun`, the sidebar and summary "back to menu" buttons, and the percentage on the summary screen.
- `random.sample` and `random.shuffle` are not modelled as algorithms. The model chooses any result with the right size and multiset.
- `QuizSession.Session.StartQuiz`: a negative `num_questions` cannot be expressed, because the count is a natural number; `random.sample` would raise on it.
- `QuizSession.Session.constructor` also sets the answer flags and the selection, which `initialize_session_state` leaves unset until a quiz starts. The constructor does not model calling `initialize_session_state` again on every rerun, which changes nothing.
- The global `quiz_logic_ref` and the `QuizLogic` wrapper are not modelled. The question list is passed as a parameter.
- Blank lines are not skipped. The code classifies every reconstructed line, and a blank line becomes a continuation that appends a single space; the model does the same.
- The parser keeps the code's behaviour for continuation lines. Any highlighted continuation line after the options marks the last option correct, whatever the line is, for example a page footer; `Parser.ContinuationExtendsLastOption` states this as written.
