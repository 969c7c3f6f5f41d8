# Gnosis Gen: quiz grading and request handling, modelled in Dafny

Gnosis Gen is a web tool. The user asks for study notes or a quiz, optionally
uploading a PDF or pasting text. The backend endpoint `/generate` checks the form
fields, assembles the material, asks a chat model, and returns a JSON dictionary.
The browser page shows the returned quiz, grades each answer and keeps a score.

This project models two parts of that:

- The evaluator and score keeper of the quiz page (`frontend/src/App.jsx`):
  - `normalizeAnswer` and the multiple-choice and short-answer verdicts (module
    `Grading`);
  - the `checked` map and the `recalcScore` loop (module `Scoring`);
  - the four state variables `answers`, `shortAnswers`, `checked` and `score`, with
    the event handlers that update them and the reset when a new result arrives
    (class `Session.QuizSession`).
- The validation and assembly steps of `generate_content` (`backend/main.py`), in
  module `Generate`. It covers the PDF filename check, joining the page texts,
  appending the text input, the empty-input check, strip and truncation to 12000
  characters, case-insensitive mode dispatch, the chat request for each mode, the
  fallback search for a fenced ```` ```json ```` block, and the shape of every
  returned dictionary. `GenerateContent` is the endpoint written step by step. It
  is proved equal to the function `GenerateSpec`, and the lemmas state the
  endpoint's promises about that function.

Module `Text` holds the string primitives:

- trimming by ECMAScript's whitespace set (JavaScript `trim`);
- trimming by Python's whitespace set (`str.strip`);
- ASCII lower-casing;
- suffix tests and prefixes.

Module `Wrappers` holds `Option` and `Result`.

A JavaScript `undefined` and a Python `None` are both `Option.None`. This makes two
absent values compare equal, as `===` does on two `undefined`s. The keys `mcq-<i>`
and `short-<i>` are the datatype `Scoring.Key`. Events are applied one at a time,
in order.

These collaborators become parameters:

- the PDF reader: each page's extracted text is an `Option<string>` in
  `Generate.Upload.pages`;
- the chat-completion call: `llm: ChatRequest -> Result<string, string>`, where
  `Err` carries the text of a raised exception;
- `json.loads`: `parse: string -> Option<J>`.

Three facts about the code shape the model:

- A short answer is graded by exact equality of the two normalised strings
  (`frontend/src/App.jsx:86`). There is no word-based matching.
- Re-grading a question can lower the score (`Scoring.CorrectToWrongLowersScore`).
- The reset runs whenever `result` changes. That includes `setResult(null)` at the
  start of every submission (`frontend/src/App.jsx:37`).
  `Session.QuizSession.ReceiveResult(None)` models that case.

## Model

| member | source | states |
|---|---|---|
| `Text.TrimStart` | frontend/src/App.jsx:8 | leading-whitespace removal leaves a string that does not start with whitespace |
| `Text.TrimEnd` | frontend/src/App.jsx:8 | trailing-whitespace removal leaves a string that does not end with whitespace |
| `Text.TrimStartIsSuffix` | backend/main.py:72 | what `TrimStart` keeps is a suffix of the input, and everything it drops is whitespace |
| `Text.TrimEndIsPrefix` | backend/main.py:72 | what `TrimEnd` keeps is a prefix of the input, and everything it drops is whitespace |
| `Text.Trim` | frontend/src/App.jsx:8 | `trim()` / `strip()` leave no whitespace at either end |
| `Text.TrimIsSlice` | backend/main.py:72 | a trimmed string is one contiguous slice of the input, with only whitespace outside it |
| `Text.TrimOfTrimmed` | frontend/src/App.jsx:8 | a string with no surrounding whitespace is unchanged by trimming |
| `Text.TrimIdempotent` | frontend/src/App.jsx:8 | trimming twice is trimming once |
| `Text.Lower` | frontend/src/App.jsx:8 | lower-casing keeps the length and lower-cases each character in place |
| `Text.LowerHasNoCapital` | frontend/src/App.jsx:8 | no ASCII capital letter is left after lower-casing |
| `Text.LowerIdempotent` | frontend/src/App.jsx:8 | lower-casing twice is lower-casing once |
| `Text.LowerKeepsTrimmed` | frontend/src/App.jsx:8 | lower-casing a trimmed string leaves it trimmed |
| `Text.Take` | backend/main.py:72 | `s[:n]` is the whole string when it is short enough, otherwise exactly its first `n` characters |
| `Grading.Normalize` | frontend/src/App.jsx:7-9 | absent stays absent; a present value comes out with no surrounding whitespace and no capital letters |
| `Grading.NormalizeIdempotent` | frontend/src/App.jsx:7-9 | normalising twice gives the same result as normalising once |
| `Grading.NormalizeIsTrimmedLower` | frontend/src/App.jsx:7-9 | the normalised value is the lower-cased text between the leading and trailing whitespace |
| `Grading.PositionLetter` | frontend/src/App.jsx:71 | option `idx` (below 26) carries the letter `a`+`idx` |
| `Grading.PositionLetterWraps` | frontend/src/App.jsx:71 | `String.fromCharCode` keeps only the low 16 bits: positions 2^16 apart carry the same letter |
| `Grading.McqVerdict` | frontend/src/App.jsx:66-71 | an option is correct iff its trimmed, lower-cased text equals the trimmed, lower-cased correct answer (both absent also counts as equal), or that normalised answer is the option's letter |
| `Grading.McqVerdictIff` | frontend/src/App.jsx:66-71 | an MCQ verdict is true iff the normalised option text equals the normalised correct answer, or that answer is the option's letter |
| `Grading.LetterAnswerMarksPosition` | frontend/src/App.jsx:69-71 | a correct answer that is a capital letter padded by any whitespace before and after it makes the option at that position correct, whatever its text |
| `Grading.TextAnswerMarksOption` | frontend/src/App.jsx:70 | an option whose text equals the correct answer up to surrounding whitespace and ASCII case is judged correct |
| `Grading.BothMissingIsCorrect` | frontend/src/App.jsx:70 | a missing option and a missing correct answer compare equal, so the option is judged correct |
| `Grading.ShortVerdict` | frontend/src/App.jsx:84-86 | a short answer is correct iff it equals the correct answer up to surrounding whitespace and ASCII case, an untyped answer counting as ""; a missing correct answer accepts nothing |
| `Grading.ShortUntypedIsEmpty` | frontend/src/App.jsx:84-86 | an answer never typed is correct iff the correct answer is present and all whitespace |
| `Scoring.KeyOf` | frontend/src/App.jsx:95-101 | the key for index `i` carries `i` and names the array it belongs to |
| `Scoring.Count` | frontend/src/App.jsx:94-103 | the number of true verdicts among the first `n` indices is at most `n` |
| `Scoring.ScoreOf` | frontend/src/App.jsx:91-106 | the score never exceeds `mcq.length + short_answer.length`, the denominator shown at line 227 |
| `Scoring.RecalcScore` | frontend/src/App.jsx:91-106 | the loops over both arrays compute exactly `ScoreOf`, and a missing array adds 0 |
| `Scoring.CountIsCardinality` | frontend/src/App.jsx:94-103 | the count equals the size of the set of indices whose verdict is true |
| `Scoring.ScoreIsCorrectCount` | frontend/src/App.jsx:91-106 | the score is the number of correct MCQ indices plus the number of correct short-answer indices |
| `Scoring.CountEmpty` | frontend/src/App.jsx:30-31 | with no verdicts the count is 0 |
| `Scoring.ScoreOfEmpty` | frontend/src/App.jsx:27-32 | after a reset the score is 0 whatever the quiz |
| `Scoring.CountOtherKey` | frontend/src/App.jsx:73-74 | a verdict outside the counted range does not change the count |
| `Scoring.CountUpdate` | frontend/src/App.jsx:73-74 | replacing one verdict in range replaces exactly its contribution to the count |
| `Scoring.ScoreAfterRegrade` | frontend/src/App.jsx:73-74 | re-grading a question moves the score by the new verdict minus the old one |
| `Scoring.CorrectToWrongLowersScore` | frontend/src/App.jsx:87-88 | going from correct to incorrect lowers the score by exactly 1 |
| `Session.QuizSession.constructor` | frontend/src/App.jsx:22-25 | the initial state is empty maps and score 0 |
| `Session.QuizSession.ReceiveResult` | frontend/src/App.jsx:27-32 | a new result clears answers, shortAnswers and checked, and sets score to 0 |
| `Session.QuizSession.HandleSelect` | frontend/src/App.jsx:62-75 | only `answers[mcq-i]` and `checked[mcq-i]` change and earlier values are overwritten; the score stays equal to `ScoreOf` and changes by the verdict difference |
| `Session.QuizSession.HandleShortAnswer` | frontend/src/App.jsx:77-80 | only `shortAnswers[short-i]` changes; verdicts and score are untouched |
| `Session.QuizSession.SubmitShortAnswer` | frontend/src/App.jsx:82-89 | only `checked[short-i]` changes, to the verdict on the typed text; the score stays equal to `ScoreOf` |
| `Session.Get` | frontend/src/App.jsx:84 | a map lookup is present exactly when the key is in the map, and then gives its value |
| `Session.LinkedListExample` | frontend/src/App.jsx:62-75 | options Array, Linked List, Tree, Graph with answer "B": selecting index 1 is correct and scores 1 of 1 |
| `Generate.GenerateContent` | backend/main.py:51-170 | the step-by-step endpoint, with its early returns and in-place parameter updates, returns exactly `GenerateSpec` |
| `Generate.GatherContent` | backend/main.py:51-67 | the page loop and the appended text input build exactly `Gathered` |
| `Generate.GatheredParts` | backend/main.py:51-67 | the material starts with the page text of the upload, ends with a newline and the pasted text when there is any, and is empty with neither |
| `Generate.PageText` | backend/main.py:60-63 | non-empty page text always ends in a newline |
| `Generate.Prepare` | backend/main.py:54-134 | validation fails only with one of the three fixed messages, and with the PDF one for a bad filename; on success the material is a prefix of the stripped text, at most 12000 long, the request names the model and has two messages, and the mode is quiz iff the lower-cased field is "quiz" |
| `Generate.ParseModeIff` | backend/main.py:80-97 | the mode is notes (quiz) iff the field is five (four) characters that lower-case to "notes" ("quiz") |
| `Generate.JsonBlock` | backend/main.py:149-152 | a found block is the text between an occurrence of "```json\n" and an occurrence of "\n```" |
| `Generate.Respond` | backend/main.py:137-170 | an error response iff the call raised, carrying its text; notes iff the call succeeded in notes mode; a quiz that came from parsing the stripped reply or its fenced block; a warning only when the stripped reply does not parse, carrying that reply |
| `Generate.GenerateSpec` | backend/main.py:51-170 | an error is one of the three fixed messages or the text of the model's exception; any other response means validation passed and the model answered; a bad filename always gives the PDF error |
| `Generate.PageTextAppend` | backend/main.py:60-63 | the page text of two runs of pages is the first run's page text followed by the second's |
| `Generate.PageTextAt` | backend/main.py:60-63 | a page with text adds that text and a newline in its place; a blank or missing page adds nothing |
| `Generate.PageTextAllBlank` | backend/main.py:60-63 | pages with no text give no material |
| `Generate.NonPdfRefusedFirst` | backend/main.py:54-56 | a file whose lower-cased name does not end in ".pdf" gets `{"error": "Only PDF files are supported."}`, whatever the other fields |
| `Generate.NoInputIff` | backend/main.py:69-70 | the "Please provide" error is returned iff the file check passed, the stripped material is empty and the user request is absent or empty |
| `Generate.EmptyInputBeatsBadMode` | backend/main.py:69-134 | with no input, an unknown mode still gets the "Please provide" error, because that check comes first |
| `Generate.InvalidModeIff` | backend/main.py:80-134 | the invalid-mode error is returned iff both earlier checks pass and the lower-cased mode is neither "notes" nor "quiz" |
| `Generate.PrepareOkIff` | backend/main.py:54-134 | validation passes iff the filename is acceptable, some input exists and the mode is "notes" or "quiz" in any letter case |
| `Generate.ContentIsStrippedPrefix` | backend/main.py:72 | the material is a prefix of the stripped gathered text, at most 12000 long, and all of it when short enough |
| `Generate.PromptCarriesMaterial` | backend/main.py:83-130 | the request has two messages: the system prompt of its mode, then a user prompt that starts with the topic and request header followed by the material or the no-material text |
| `Generate.ModeCaseInsensitive` | backend/main.py:80-97 | modes that agree after lower-casing select the same branch |
| `Generate.ModeExamples` | backend/main.py:80-97 | "Quiz" and "QUIZ" select quiz, "notes" and "NoTeS" select notes, "quizzes" selects none |
| `Generate.JsonFormatOnlyForQuiz` | backend/main.py:131 | `response_format` is set, to json_object, iff the mode is quiz |
| `Generate.IndexOf` | backend/main.py:149 | finds the first occurrence of a pattern at or after a position, or reports that there is none |
| `Generate.JsonBlockFound` | backend/main.py:149-152 | a found block lies between the leftmost "```json\n" and the first "\n```" after it |
| `Generate.JsonBlockNone` | backend/main.py:149-150 | no block is found iff no opener is followed by a closer |
| `Generate.ModelErrorReturned` | backend/main.py:137-170 | when validation passes and the model call raises, the endpoint returns the dictionary `{"error": str(e)}` and nothing else |
| `Generate.NotesReply` | backend/main.py:139-167 | notes mode returns status success, mode notes and the stripped reply as notes |
| `Generate.QuizDirectParse` | backend/main.py:141-145 | a reply that parses as it stands is returned as the quiz, with status success |
| `Generate.QuizFencedParse` | backend/main.py:147-154 | failing that, a fenced JSON block that parses gives exactly `{"status": "success", "mode": "quiz", "quiz": …}` with the parsed block |
| `Generate.QuizWarningKeepsReply` | backend/main.py:158-164 | otherwise the response has status warning, the fixed message and `raw_output` equal to the stripped reply |
| `Generate.DictShape` | backend/main.py:56-170 | every response is either a lone "error" entry or has "status" and "mode"; status is "warning" only for the raw-output fallback |
| `Generate.ResponseMode` | backend/main.py:141-167 | when validation passes and the model answers, the response's "mode" is "quiz" iff the lower-cased mode field is "quiz", and "notes" otherwise |
| `Generate.RespondMode` | backend/main.py:141-167 | a reply that is not an error is shaped in the mode it was asked in |

## Left out

- `submit` (frontend/src/App.jsx:34-60) is left out: it builds the form, calls `fetch`, and handles the loading flag and error messages. That is network I/O and asynchronous. Its effect on the answer state is the reset, which is `ReceiveResult`.
- JSX rendering, styling and dark mode (frontend/src/App.jsx:108-349) are UI and are left out. The UI only calls `handleSelect` for questions and options it renders, and the model's preconditions require only that the quiz and question exist.
- React batching and stale closures of `useState` are left out. Events are applied one at a time, in order.
- frontend/tailwind.config.js is styling configuration and is not part of this model.
- Grading.Normalize: lower-cases ASCII letters only. JavaScript's `toLowerCase` lower-cases all Unicode letters, so answers that differ only in the case of non-ASCII letters are judged different here. `toString()` on non-string JSON values (numbers, booleans) is not modelled; values are strings or absent.
- Grading.PositionLetter: does not lower-case non-ASCII letters. Such letters only arise for option positions past 61. A character code in the surrogate block never matches, because this model's strings cannot hold a lone surrogate.
- Session.QuizSession.HandleSelect: requires a quiz with an `mcq` array and question `i`. Without them the source throws a `TypeError`, and that crash is not modelled. The same holds for `SubmitShortAnswer` and `short_answer`.
- JSON shapes other than the modelled ones are not modelled, for example an `mcq` field that is not an array, or a warning response that the page tries to render as a quiz.
- backend/main.py: these are not part of this model:
  - environment loading and the API-key check (lines 11-16);
  - the chat client and the call itself (lines 19-22, 138), which is the `llm` parameter;
  - CORS (lines 27-33);
  - PyPDF2 reading (lines 58-61): the page texts it extracts are the input `Upload.pages`. Its exceptions are raised outside the `try` at line 137, so a corrupt PDF ends in a server error, which is not modelled;
  - `json.loads`, which is the `parse` parameter.
- The FastAPI form validation is not modelled: a missing `mode` is refused before the handler runs, and a file without a filename would raise inside it.
- The regular-expression engine is not modelled in general. Only the one pattern used at backend/main.py:149 is modelled, by `JsonBlock`.
- Generate.ParseMode: lower-cases ASCII letters only, where Python's `str.lower` covers all of Unicode. A non-ASCII character whose lower case contains a plain letter of "notes", "quiz" or ".pdf" also brings a combining mark (U+0130 becomes "i" followed by U+0307), and that mark stays, so the lower-cased field still differs from these words. The mode dispatch and the filename check therefore decide the same way here. The Kelvin sign, which lower-cases to "k", occurs in none of these words.
- Exceptions inside the reply handling other than a JSON decode error (backend/main.py:169-170) are covered only for the model call, whose failure the `llm` parameter reports.
