# MCQ-Generator output cleaning, modelled in Dafny

The MCQ generator asks a language model for a quiz as JSON wrapped in a
markdown code fence (```` ```json ... ``` ````), then cleans the reply and
turns it into table rows for display and CSV export. This project models
the utilities that do that work, in `src/mcq_generator/utils.py`:

- `read_file`: dispatch on the upload's extension. A `.pdf` file has its
  page texts joined in page order. A `.txt` file is decoded as UTF-8. Any
  other extension is rejected.
- `extract_json`: cut the payload out of the fenced reply. It uses
  `str.find` for the first ```` ```json ```` and for the next ```` ``` ````
  after it, slices between them and calls `strip()`. The model keeps
  Python's exact semantics. A missing opening fence makes `start` equal 6
  (`-1 + 7`) instead of failing. A missing closing fence makes `end`
  equal -1, so the slice drops the last character.
- `get_table_data`: parse the cleaned text with `json.loads` and flatten
  each question into a row `{MCQ, CHOICES, CORRECT ANSWER}`. Every
  exception becomes the result `False`. As written, the loop reads the
  unbound name `data`, so the function returns `False` for every input.
  `GetTableData` models that. `GetTableDataIntended` models the loop over
  `quiz_dict.values()` that was evidently meant (see Findings).

Files:

- `wrappers.dfy`: `Option`/`Result`, standing in for "returned a value" or
  "raised".
- `py_str.dfy` (module `PyStr`): the Python `str` operations used:
  `find`, slicing with clamped and negative bounds, `strip()` with
  CPython's whitespace set, and `endswith`.
- `json_values.dfy` (module `JsonValues`): the values `json.loads`
  produces, dict subscripting and `dict.values()`.
- `utils.dfy` (module `Utils`): the three utilities and their properties.

`json.loads` is a parameter `loads: string -> Option<Json>`, where `None`
means it raised. PyPDF2's page extraction and the UTF-8 decoding are also
parameters of `ReadFile`.

## Model

| member | source | states |
|---|---|---|
| `PyStr.Find` | src/mcq_generator/utils.py:34-35 | `str.find` returns -1 or an index at or after `start` with room for the marker |
| `PyStr.FindSpec` | src/mcq_generator/utils.py:34-35 | `find` returns an occurrence with none before it from `start`; -1 only when there is no occurrence at or after `start` |
| `PyStr.FindIsFirst` | src/mcq_generator/utils.py:34-35 | conversely, the first occurrence at or after `start` is what `find` returns |
| `PyStr.FindAbsent` | src/mcq_generator/utils.py:35 | with no occurrence at or after `start`, `find` returns -1 |
| `PyStr.SliceIndex` | src/mcq_generator/utils.py:36 | an in-range bound is kept, a negative bound counts from the end (0 when it reaches past the start), and a bound past the end becomes `len` |
| `PyStr.Slice` | src/mcq_generator/utils.py:36 | `s[i:j]` is `s[i..j]` for in-range bounds and never longer than `s` |
| `PyStr.SliceToMinusOne` | src/mcq_generator/utils.py:35-36 | a slice ending at -1 stops just before the last character, and is empty from the last character on |
| `PyStr.Strip` | src/mcq_generator/utils.py:36 | `strip()` never lengthens and leaves no whitespace at either end |
| `PyStr.StripSpan` | src/mcq_generator/utils.py:36 | `strip()` keeps one window of the string and drops only whitespace outside it |
| `PyStr.StripUnique` | src/mcq_generator/utils.py:36 | any window with only whitespace outside it and none at its ends is the result of `strip()` |
| `PyStr.StripPadded` | src/mcq_generator/utils.py:36 | whitespace padding around a trimmed string is exactly what `strip()` removes |
| `PyStr.StripTrimmed` | src/mcq_generator/utils.py:36 | a string without whitespace at its ends is its own `strip()` |
| `PyStr.StripIdempotent` | src/mcq_generator/utils.py:36 | stripping twice is stripping once |
| `PyStr.StripWindow` | src/mcq_generator/utils.py:36 | stripping a window of a string leaves a window inside it |
| `PyStr.EndsWithSpec` | src/mcq_generator/utils.py:11 | `endswith(suffix)` holds exactly when the string is some prefix followed by the suffix |
| `PyStr.NoOccurrenceInSlice` | src/mcq_generator/utils.py:35-36 | a window in which no marker starts does not contain the marker |
| `JsonValues.LookupMember` | src/mcq_generator/utils.py:49-51 | a key lookup misses exactly when no entry has that key, and a hit is one of the dict's entries |
| `JsonValues.Lookup` | src/mcq_generator/utils.py:49-51 | `question[key]` succeeds only on a dict that holds the key; a missing key or a non-dict raises |
| `JsonValues.LookupThree` | src/mcq_generator/utils.py:53-57 | each key of a three-entry dict literal with distinct keys reads back its own value |
| `JsonValues.Values` | src/mcq_generator/utils.py:48 | `.values()` succeeds exactly on a dict and gives its values in insertion order |
| `Utils.ConcatAppend` | src/mcq_generator/utils.py:14-16 | joining page texts distributes over splitting the page list, which is what the accumulating loop relies on |
| `Utils.ReadFile` | src/mcq_generator/utils.py:10-28 | `.pdf` gives the pages joined in order or the PDF error; otherwise `.txt` gives the decoded text or the decode error; any other name gives the unsupported-format error |
| `Utils.ExtractStart` | src/mcq_generator/utils.py:32-34 | `start` is at least 6, and beyond 6 it lies within the text |
| `Utils.ExtractStartSpec` | src/mcq_generator/utils.py:32-34 | `start` is 6 exactly when there is no opening fence; otherwise it is just past the first one |
| `Utils.ExtractEnd` | src/mcq_generator/utils.py:33-35 | `end` is -1 or the index of a fence at or after `start` |
| `Utils.ExtractEndSpec` | src/mcq_generator/utils.py:35 | `end` is the first closing fence at or after `start`, and -1 only when there is none |
| `Utils.ExtractJson` | src/mcq_generator/utils.py:31-36 | the result is no longer than the input and has no whitespace at either end |
| `Utils.ExtractSpan` | src/mcq_generator/utils.py:34-36 | the result is a window of the input starting at or after `start` and ending at or before `end`, or before the last character when `end` is -1 |
| `Utils.ExtractFenced` | src/mcq_generator/utils.py:32-36 | with the first opening fence at `i` and the first closing fence after it at `j`, the result is `strip(s[i+7..j])` |
| `Utils.ExtractWithoutOpening` | src/mcq_generator/utils.py:34-36 | with no opening fence, `start` is 6 with no error, and the first six characters are never part of the result |
| `Utils.ExtractWithoutClosing` | src/mcq_generator/utils.py:35-36 | with no closing fence after `start`, `end` is -1, the last character is dropped, and the result is empty when `start >= len - 1` |
| `Utils.ExtractHasNoFence` | src/mcq_generator/utils.py:35-36 | the result never contains ```` ``` ```` |
| `Utils.ExtractIsTrimmedSubstring` | src/mcq_generator/utils.py:36 | the result is empty or occurs in the input at index 6 or later, with no whitespace at its ends |
| `Utils.ExtractUnfenced` | src/mcq_generator/utils.py:34-36 | on text without backticks the result is `strip(s[6..len-1])`, so unfenced input is not passed through |
| `Utils.ExtractFromFencedReply` | src/mcq_generator/utils.py:31-36 | prose without backticks, a fence, a payload without a closing fence, a closing fence and any tail give back the stripped payload |
| `Utils.ExtractUnfencedExample` | src/mcq_generator/utils.py:34-36 | `extract_json("[1, 2, 3]")` is `"3"` |
| `Utils.ExtractBareFence` | src/mcq_generator/utils.py:31-36 | a reply that is only a fenced payload gives back the stripped payload |
| `Utils.NoBacktickNoFence` | src/mcq_generator/utils.py:32-33 | text without backticks holds neither marker |
| `Utils.ExtractFencedPayload` | src/mcq_generator/utils.py:31-36 | a trimmed payload without backticks comes out of its fence unchanged |
| `Utils.ExtractNotIdempotent` | src/mcq_generator/utils.py:34-36 | extracting again from an extracted non-empty payload shortens it, so extraction is not idempotent |
| `Utils.ExtractMissingCloseExample` | src/mcq_generator/utils.py:35-36 | a reply whose closing fence is missing, such as ```` ```json {} ````, loses its last character and gives `"{"` |
| `Utils.RowOfCopies` | src/mcq_generator/utils.py:49-57 | the row built for a question carries its `mcq`, `options` and `correct` verbatim under `MCQ`, `CHOICES` and `CORRECT ANSWER` |
| `Utils.TableOf` | src/mcq_generator/utils.py:41-63 | the intended table exists exactly when parsing succeeds, gives a dict, and every value holds the three fields; it then has one row per value |
| `Utils.TableRowsCopyQuestions` | src/mcq_generator/utils.py:48-59 | row `k` of the table copies the fields of the dict's `k`-th value, in iteration order |
| `Utils.GetTableData` | src/mcq_generator/utils.py:40-63 | as written, every input yields `False`: a parse error is caught, and otherwise the unbound name `data` raises and is caught |
| `Utils.TableOfFails` | src/mcq_generator/utils.py:48-51 | one question missing a field makes the whole table `False` |
| `Utils.TableOfRows` | src/mcq_generator/utils.py:45-59 | rows built from every value of the dict, in order, are the table |
| `Utils.QuestionRow` | src/mcq_generator/utils.py:49-57 | the loop body builds a row exactly when the question holds all three fields, and the row is that question's row |
| `Utils.GetTableDataIntended` | src/mcq_generator/utils.py:41-63 | the loop over `quiz_dict.values()` returns exactly the table `TableOf` describes, with `False` on any exception |
| `Utils.EmptyQuizIsEmptyTable` | src/mcq_generator/utils.py:45-59 | the empty dict `{}` gives an empty table, not `False` |
| `Utils.EmptyQuizDiscrepancy` | src/mcq_generator/utils.py:43-48 | when `"{}"` parses to the empty dict, `GetTableData` returns `False` while `GetTableDataIntended` returns the empty table |
| `Utils.QuestionJson` | src/mcq_generator/utils.py:49-51 | a question in the requested response format, with distinct option labels, is a dict with one entry per key holding the three fields the loop reads |
| `Utils.OptionsJson` | src/mcq_generator/utils.py:50 | option labels that are distinct give an `options` dict with one entry per label, in order |
| `Utils.QuizJson` | src/mcq_generator/utils.py:43-48 | a quiz of n questions under n distinct keys is a dict with n entries, one per key |
| `Utils.TableOfQuiz` | src/mcq_generator/utils.py:45-59 | a well-formed quiz of n questions becomes n rows, in order, with each field copied verbatim |
| `Utils.FencedQuizToTable` | src/mcq_generator/utils.py:31-59 | a fenced reply whose payload parses to n questions gives n rows carrying those questions' fields |

## Left out

- `read_file`'s I/O is not modelled. Opening the PDF, PyPDF2's per-page
  `extract_text` and the bytes' UTF-8 decoding are parameters. `pages` is
  `None` when PyPDF2 raises anywhere, and `decoded` is `None` when decoding
  raises. The names and texts of the two Python exceptions are not kept:
  the model has one error value per raise.
- `json.loads` is a parameter, not a JSON parser. A JSON object is kept as
  its entries in order. A document with a duplicate key is not folded the
  way Python's dict folds it, where the last value wins at the first key's
  position: the model assumes the parsed object has one entry per key, and
  the quizzes built for the end-to-end lemmas (`Utils.QuizJson`,
  `Utils.OptionsJson`) require distinct question keys and option labels.
- `traceback.print_exception` at src/mcq_generator/utils.py:62 only logs,
  and is left out.
- `ExtractJson`'s integer arithmetic is unbounded, as Python's is.
- `PyStr.Find` only accepts a non-negative `start`. `extract_json` never
  passes a negative one, because `start` is at least 6.
- Row values are the parsed JSON values themselves. The `CHOICES` dict is
  not rendered as text, because rendering belongs to the UI.
- `src/mcq_generator/generate_mcq.py` is not part of this model. It
  configures LangChain and Gemini: the prompt templates, the two-stage
  generate-then-review chain and the LLM calls are library objects behind
  the network.
- `app.py` is not part of this model. It is the Streamlit UI: upload
  widgets, loading `response.json`, pandas rendering and CSV download. Its
  check `table_data is not None` lets `False` through to pandas, which is
  a UI concern.
- `setup.py` is packaging metadata and is not part of this model.
- Extraction is not idempotent on text that is already unfenced: it drops
  the first six characters and the last one (`Utils.ExtractUnfenced`,
  `Utils.ExtractNotIdempotent`).

## Findings

| source | as written | input that shows it | evidently intended | confidence | as-written member | corrected member |
|---|---|---|---|---|---|---|
| src/mcq_generator/utils.py:48 | the loop iterates `data.values()`, but `data` is bound nowhere, so NameError is raised and caught, and every call returns `False` | `"{}"`, or any valid quiz such as the payload of a well-formed fenced reply | iterate `quiz_dict.values()`, the dict parsed at line 43 | high; not executed | `Utils.GetTableData` | `Utils.GetTableDataIntended` |

`Utils.EmptyQuizDiscrepancy` runs both methods on the input `"{}"`: the
intended loop returns an empty table, and `Utils.GetTableData` returns
`False`.
`Utils.TableOfQuiz` and `Utils.FencedQuizToTable` prove the intended
behaviour for well-formed quizzes.
