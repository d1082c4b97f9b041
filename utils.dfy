/**
 * The MCQ generator's utilities: reading an uploaded file, cutting the JSON
 * payload out of the model's markdown-fenced reply, and flattening the parsed
 * quiz into table rows.
 */
module Utils {
  import opened Wrappers
  import opened PyStr
  import opened JsonValues

  // ---------------------------------------------------------------------
  // read_file
  // ---------------------------------------------------------------------

  /** The exceptions `read_file` raises. */
  datatype ReadError =
    | PdfReadError      // any failure inside the PDF branch, re-raised as "error reading the PDF file"
    | DecodeError       // the `.txt` bytes are not UTF-8 (propagates unwrapped)
    | UnsupportedFormat // neither `.pdf` nor `.txt`

  /** The page texts joined in page order, as the PDF branch accumulates them. */
  function Concat(pages: seq<string>): string {
    if pages == [] then "" else pages[0] + Concat(pages[1..])
  }

  lemma {:induction false} ConcatAppend(a: seq<string>, b: seq<string>)
    ensures Concat(a + b) == Concat(a) + Concat(b)
  {
    if a == [] {
      assert a + b == b;
    } else {
      assert (a + b)[1..] == a[1..] + b;
      ConcatAppend(a[1..], b);
    }
  }

  /**
   * `read_file(file)`. `pages` is what PyPDF2 extracts from each page, None
   * when opening the file or extracting any page raises; `decoded` is the
   * file's bytes decoded as UTF-8, None when decoding raises.
   */
  method ReadFile(name: string, pages: Option<seq<string>>, decoded: Option<string>)
    returns (r: Result<string, ReadError>)
    ensures EndsWith(name, ".pdf") ==>
      r == if pages.Some? then Success(Concat(pages.value)) else Failure(PdfReadError)
    ensures !EndsWith(name, ".pdf") && EndsWith(name, ".txt") ==>
      r == if decoded.Some? then Success(decoded.value) else Failure(DecodeError)
    ensures !EndsWith(name, ".pdf") && !EndsWith(name, ".txt") ==> r == Failure(UnsupportedFormat)
  {
    if EndsWith(name, ".pdf") {
      if pages.None? {
        return Failure(PdfReadError);
      }
      var text := "";
      var i := 0;
      while i < |pages.value|
        invariant 0 <= i <= |pages.value|
        invariant text == Concat(pages.value[..i])
      {
        ConcatAppend(pages.value[..i], [pages.value[i]]);
        assert pages.value[..i + 1] == pages.value[..i] + [pages.value[i]];
        text := text + pages.value[i];
        i := i + 1;
      }
      assert pages.value[..i] == pages.value;
      return Success(text);
    } else if EndsWith(name, ".txt") {
      if decoded.None? {
        return Failure(DecodeError);
      }
      return Success(decoded.value);
    } else {
      return Failure(UnsupportedFormat);
    }
  }

  // ---------------------------------------------------------------------
  // extract_json
  // ---------------------------------------------------------------------

  const StartMarker: string := "```json"
  const EndMarker: string := "```"

  /**
   * `start`: the index just past the first opening marker. When there is no
   * opening marker, `find` gives -1 and `start` is 6, not a failure.
   */
  function ExtractStart(s: string): (r: int)
    ensures r >= 6
    ensures r > 6 ==> r <= |s|
  {
    Find(s, StartMarker, 0) + |StartMarker|
  }

  /**
   * `start` is 6 exactly when there is no opening marker; otherwise it sits
   * just past the first one.
   */
  lemma ExtractStartSpec(s: string)
    ensures ExtractStart(s) == 6 <==> !Contains(s, StartMarker)
    ensures ExtractStart(s) > 6 ==> OccursAt(s, StartMarker, ExtractStart(s) - 7)
    ensures ExtractStart(s) > 6 ==> forall k :: 0 <= k < ExtractStart(s) - 7 ==> !OccursAt(s, StartMarker, k)
  {
    FindSpec(s, StartMarker, 0);
    if Find(s, StartMarker, 0) >= 0 {
      assert OccursAt(s, StartMarker, Find(s, StartMarker, 0));
    }
  }

  /** `end`: the first closing marker at or after `start`, or -1. */
  function ExtractEnd(s: string): (r: int)
    ensures r == -1 || (ExtractStart(s) <= r && r + 3 <= |s|)
  {
    Find(s, EndMarker, ExtractStart(s))
  }

  /** `end` is a closing marker with none between `start` and it, or there is none at all. */
  lemma ExtractEndSpec(s: string)
    ensures ExtractEnd(s) != -1 ==> OccursAt(s, EndMarker, ExtractEnd(s))
    ensures ExtractEnd(s) == -1 ==> forall k :: ExtractStart(s) <= k ==> !OccursAt(s, EndMarker, k)
    ensures ExtractEnd(s) != -1 ==> forall k :: ExtractStart(s) <= k < ExtractEnd(s) ==> !OccursAt(s, EndMarker, k)
  {
    FindSpec(s, EndMarker, ExtractStart(s));
  }

  /** `extract_json(markdown_string)`: `markdown_string[start:end].strip()`. */
  function ExtractJson(s: string): (r: string)
    ensures |r| <= |s|
    ensures r == [] || (!IsSpace(r[0]) && !IsSpace(r[|r| - 1]))
  {
    Strip(Slice(s, ExtractStart(s), ExtractEnd(s)))
  }

  /**
   * Where the result sits in the input: `s[p..q]`, starting at or after
   * `start` and ending at or before `end` (before the last character when
   * there is no closing marker).
   */
  lemma ExtractSpan(s: string) returns (p: nat, q: nat)
    ensures p <= q <= |s| && ExtractJson(s) == s[p..q]
    ensures p < q ==> ExtractStart(s) <= p
    ensures p < q && ExtractEnd(s) != -1 ==> q <= ExtractEnd(s)
    ensures p < q && ExtractEnd(s) == -1 ==> q < |s|
  {
    var st, en := ExtractStart(s), ExtractEnd(s);
    var lo, hi := SliceIndex(st, |s|), SliceIndex(en, |s|);
    if lo <= hi {
      assert Slice(s, st, en) == s[lo..hi];
      p, q := StripWindow(s, lo, hi);
    } else {
      assert Slice(s, st, en) == [];
      StripTrimmed([]);
      p, q := 0, 0;
    }
  }

  /**
   * With an opening marker first at `i` and a closing marker first at `j`
   * at or after `i + 7`, the result is the trimmed text between them.
   */
  lemma ExtractFenced(s: string, i: int, j: int)
    requires OccursAt(s, StartMarker, i)
    requires forall k :: 0 <= k < i ==> !OccursAt(s, StartMarker, k)
    requires i + 7 <= j && OccursAt(s, EndMarker, j)
    requires forall k :: i + 7 <= k < j ==> !OccursAt(s, EndMarker, k)
    ensures ExtractJson(s) == Strip(s[i + 7..j])
  {
    FindIsFirst(s, StartMarker, 0, i);
    FindIsFirst(s, EndMarker, i + 7, j);
  }

  /**
   * Without an opening marker, `start` is 6, no error is raised, and the
   * first six characters are never part of the result.
   */
  lemma ExtractWithoutOpening(s: string)
    requires !Contains(s, StartMarker)
    ensures ExtractStart(s) == 6
    ensures Find(s, EndMarker, 6) != -1 ==> ExtractJson(s) == Strip(s[6..Find(s, EndMarker, 6)])
    ensures Find(s, EndMarker, 6) == -1 ==>
      ExtractJson(s) == if 6 < |s| then Strip(s[6..|s| - 1]) else []
  {
    ExtractStartSpec(s);
    SliceToMinusOne(s, 6);
  }

  /**
   * Without a closing marker at or after `start`, `end` is -1 and the slice
   * loses the last character; the result is empty when `start >= |s| - 1`.
   */
  lemma ExtractWithoutClosing(s: string)
    requires forall k :: ExtractStart(s) <= k ==> !OccursAt(s, EndMarker, k)
    ensures ExtractEnd(s) == -1
    ensures ExtractJson(s) ==
      if ExtractStart(s) < |s| then Strip(s[ExtractStart(s)..|s| - 1]) else []
    ensures ExtractStart(s) >= |s| - 1 ==> ExtractJson(s) == []
  {
    FindAbsent(s, EndMarker, ExtractStart(s));
    SliceToMinusOne(s, ExtractStart(s));
    if ExtractStart(s) == |s| - 1 {
      assert s[ExtractStart(s)..|s| - 1] == [];
    }
  }

  /**
   * The result never contains a closing marker: with one found, `end` is
   * the first at or after `start`; without one, there is none to contain.
   */
  lemma ExtractHasNoFence(s: string)
    ensures !Contains(ExtractJson(s), EndMarker)
  {
    var p, q := ExtractSpan(s);
    if p < q {
      ExtractEndSpec(s);
      NoOccurrenceInSlice(s, EndMarker, p, q);
    } else {
      assert forall k :: !OccursAt(s[p..q], EndMarker, k);
    }
  }

  /**
   * The result is a contiguous piece of the input found at index 6 or later,
   * with no whitespace at either end.
   */
  lemma ExtractIsTrimmedSubstring(s: string)
    ensures var r := ExtractJson(s);
      r == [] || ((exists a :: 6 <= a && OccursAt(s, r, a)) && !IsSpace(r[0]) && !IsSpace(r[|r| - 1]))
  {
    var p, q := ExtractSpan(s);
    if p < q {
      assert p + |ExtractJson(s)| == q;
      assert OccursAt(s, ExtractJson(s), p);
    }
  }

  /** On a string with no backtick, the result is `s[6..|s| - 1]` trimmed. */
  lemma ExtractUnfenced(s: string)
    requires forall k :: 0 <= k < |s| ==> s[k] != '`'
    ensures ExtractJson(s) == if 6 < |s| then Strip(s[6..|s| - 1]) else []
  {
    NoBacktickNoFence(s);
    FindAbsent(s, EndMarker, 6);
    ExtractWithoutOpening(s);
  }

  /**
   * A reply shaped as prose, an opening marker, the payload, a closing
   * marker and anything after gives back the trimmed payload, provided the
   * prose has no backtick and the payload holds no closing marker and does
   * not end in a backtick.
   */
  lemma ExtractFromFencedReply(prose: string, payload: string, rest: string)
    requires forall k :: 0 <= k < |prose| ==> prose[k] != '`'
    requires !Contains(payload, EndMarker)
    requires payload == [] || payload[|payload| - 1] != '`'
    ensures ExtractJson(prose + StartMarker + payload + EndMarker + rest) == Strip(payload)
  {
    var s := prose + StartMarker + payload + EndMarker + rest;
    var i, j := |prose|, |prose| + 7 + |payload|;
    assert s[i..i + 7] == StartMarker;
    assert s[j..j + 3] == EndMarker;
    assert s[i + 7..j] == payload;
    assert forall k :: 0 <= k < i ==> !OccursAt(s, StartMarker, k) by {
      forall k | 0 <= k < i ensures !OccursAt(s, StartMarker, k) {
        assert s[k] == prose[k];
        assert k + 7 <= |s| ==> s[k..k + 7][0] == s[k];
      }
    }
    assert forall k :: i + 7 <= k < j ==> !OccursAt(s, EndMarker, k) by {
      forall k | i + 7 <= k < j ensures !OccursAt(s, EndMarker, k) {
        if k + 3 <= j {
          SliceOfSlice(s, i + 7, j, k - (i + 7), k - (i + 7) + 3);
          assert !OccursAt(payload, EndMarker, k - (i + 7));
        } else if k + 3 <= |s| {
          assert s[j - 1] == payload[|payload| - 1] != '`';
          assert s[k..k + 3][j - 1 - k] == s[j - 1];
          assert EndMarker[j - 1 - k] == '`';
        }
      }
    }
    ExtractFenced(s, i, j);
  }

  /** Unfenced text is not passed through: six leading characters and the last one are cut. */
  lemma ExtractUnfencedExample(s: string)
    requires s == "[1, 2, 3]"
    ensures ExtractJson(s) == "3"
  {
    assert forall k :: 0 <= k < |s| ==> s[k] != '`';
    ExtractUnfenced(s);
    StripAfterSpace(s[6..8]);
  }

  /** A reply that is nothing but a fenced payload gives back the trimmed payload. */
  lemma ExtractBareFence(payload: string)
    requires !Contains(payload, EndMarker)
    requires payload == [] || payload[|payload| - 1] != '`'
    ensures ExtractJson(StartMarker + payload + EndMarker) == Strip(payload)
  {
    var s := StartMarker + payload + EndMarker;
    assert s == "" + StartMarker + payload + EndMarker + "" by {
      assert "" + StartMarker == StartMarker;
      assert s + "" == s;
    }
    ExtractFromFencedReply("", payload, "");
  }

  /** Text without a backtick holds neither marker. */
  lemma NoBacktickNoFence(t: string)
    requires forall k :: 0 <= k < |t| ==> t[k] != '`'
    ensures !Contains(t, StartMarker) && !Contains(t, EndMarker)
  {
    forall k ensures !OccursAt(t, StartMarker, k) && !OccursAt(t, EndMarker, k) {
      if 0 <= k && k + 3 <= |t| {
        assert t[k..k + 3][0] == t[k];
      }
      if 0 <= k && k + 7 <= |t| {
        assert t[k..k + 7][0] == t[k];
      }
    }
  }

  /** A trimmed payload without backticks comes out of its fence unchanged. */
  lemma ExtractFencedPayload(payload: string)
    requires payload == [] || (!IsSpace(payload[0]) && !IsSpace(payload[|payload| - 1]))
    requires forall k :: 0 <= k < |payload| ==> payload[k] != '`'
    ensures ExtractJson(StartMarker + payload + EndMarker) == payload
  {
    NoBacktickNoFence(payload);
    StripTrimmed(payload);
    ExtractBareFence(payload);
  }

  /**
   * So extracting twice is not extracting once: extracting again from an
   * extracted, non-empty payload shortens it.
   */
  lemma ExtractNotIdempotent(payload: string)
    requires payload != [] && !IsSpace(payload[0]) && !IsSpace(payload[|payload| - 1])
    requires forall k :: 0 <= k < |payload| ==> payload[k] != '`'
    ensures |ExtractJson(ExtractJson(StartMarker + payload + EndMarker))| < |payload|
  {
    ExtractFencedPayload(payload);
    ExtractUnfenced(payload);
  }

  /** A missing closing marker costs the payload its last character. */
  lemma ExtractMissingCloseExample(s: string)
    requires s == "```json {}"
    ensures ExtractJson(s) == "{"
  {
    assert OccursAt(s, StartMarker, 0);
    FindIsFirst(s, StartMarker, 0, 0);
    assert ExtractStart(s) == 7;
    forall k | 7 <= k ensures !OccursAt(s, EndMarker, k) {
      if k + 3 <= |s| {
        assert s[k..k + 3][0] == s[k];
      }
    }
    ExtractWithoutClosing(s);
    StripAfterSpace(s[7..9]);
  }

  // ---------------------------------------------------------------------
  // get_table_data
  // ---------------------------------------------------------------------

  /** What `get_table_data` returns: `False`, or the list of row dicts. */
  datatype TableResult = BuildFailed | Table(rows: seq<Json>)

  /** A parsed question holds the three keys the loop body reads. */
  predicate IsQuestion(q: Json) {
    Lookup(q, "mcq").Some? && Lookup(q, "options").Some? && Lookup(q, "correct").Some?
  }

  /** The row dict `{"MCQ": ..., "CHOICES": ..., "CORRECT ANSWER": ...}`. */
  function Row(mcq: Json, options: Json, correct: Json): Json {
    JObject([("MCQ", mcq), ("CHOICES", options), ("CORRECT ANSWER", correct)])
  }

  /** The row dict built for one question. */
  function RowOf(q: Json): Json
    requires IsQuestion(q)
  {
    Row(Lookup(q, "mcq").value, Lookup(q, "options").value, Lookup(q, "correct").value)
  }

  /** A row carries a question's three fields under the table's column names. */
  predicate RowCopies(row: Json, q: Json) {
    && Lookup(row, "MCQ") == Lookup(q, "mcq")
    && Lookup(row, "CHOICES") == Lookup(q, "options")
    && Lookup(row, "CORRECT ANSWER") == Lookup(q, "correct")
  }

  /** The row built for a question copies its `mcq`, `options` and `correct` verbatim. */
  lemma RowOfCopies(q: Json)
    requires IsQuestion(q)
    ensures RowCopies(RowOf(q), q)
  {
    LookupThree("MCQ", Lookup(q, "mcq").value, "CHOICES", Lookup(q, "options").value,
                "CORRECT ANSWER", Lookup(q, "correct").value);
  }

  /**
   * The table the loop is meant to build from what `json.loads` returned
   * (None: it raised): one row per value of the parsed dict, in order; any
   * exception on the way gives `False`.
   */
  function TableOf(parsed: Option<Json>): (r: TableResult)
    ensures r.Table? <==>
      && parsed.Some? && parsed.value.JObject?
      && forall k :: 0 <= k < |parsed.value.members| ==> IsQuestion(parsed.value.members[k].1)
    ensures r.Table? ==> |r.rows| == |parsed.value.members|
  {
    if parsed.None? then BuildFailed
    else
      match Values(parsed.value)
      case None => BuildFailed
      case Some(qs) =>
        if forall k :: 0 <= k < |qs| ==> IsQuestion(qs[k])
        then Table(seq(|qs|, k requires 0 <= k < |qs| => RowOf(qs[k])))
        else BuildFailed
  }

  /**
   * Each row of the table carries the fields of the question at the same
   * position of the dict, verbatim.
   */
  lemma TableRowsCopyQuestions(parsed: Option<Json>)
    requires TableOf(parsed).Table?
    ensures forall k :: 0 <= k < |TableOf(parsed).rows| ==>
      RowCopies(TableOf(parsed).rows[k], parsed.value.members[k].1)
  {
    var qs := Values(parsed.value).value;
    forall k | 0 <= k < |qs| ensures RowCopies(TableOf(parsed).rows[k], qs[k]) {
      RowOfCopies(qs[k]);
    }
  }

  /**
   * `get_table_data(cleaned_json)` as written: the loop reads `data`, a
   * name bound nowhere in the function or the module, so a NameError is
   * raised once `json.loads` has succeeded, and caught. Every input gives
   * `False`. `loads` is `json.loads`; None means it raised.
   */
  method GetTableData(cleanedJson: string, loads: string -> Option<Json>) returns (r: TableResult)
    ensures r == BuildFailed
  {
    var quizDict := loads(cleanedJson);
    if quizDict.None? {
      return BuildFailed;
    }
    // `for question in data.values()`: NameError before the first iteration.
    return BuildFailed;
  }

  /** The first question that is missing a field makes the whole table fail. */
  lemma TableOfFails(parsed: Json, qs: seq<Json>, i: int)
    requires Values(parsed) == Some(qs)
    requires 0 <= i < |qs| && !IsQuestion(qs[i])
    ensures TableOf(Some(parsed)) == BuildFailed
  {
  }

  /** Rows built from every value of the dict, in order, are the table. */
  lemma TableOfRows(parsed: Json, qs: seq<Json>, rows: seq<Json>)
    requires Values(parsed) == Some(qs)
    requires forall k :: 0 <= k < |qs| ==> IsQuestion(qs[k])
    requires |rows| == |qs| && forall k :: 0 <= k < |qs| ==> rows[k] == RowOf(qs[k])
    ensures TableOf(Some(parsed)) == Table(rows)
  {
    assert rows == seq(|qs|, k requires 0 <= k < |qs| => RowOf(qs[k]));
  }

  /**
   * The body of the loop for one question: read `mcq`, `options` and
   * `correct` in that order and build the row; None when a read raises.
   */
  method QuestionRow(question: Json) returns (row: Option<Json>)
    ensures row.Some? <==> IsQuestion(question)
    ensures row.Some? ==> row.value == RowOf(question)
  {
    var mcq := Lookup(question, "mcq");
    if mcq.None? {
      return None;
    }
    var options := Lookup(question, "options");
    if options.None? {
      return None;
    }
    var correctValue := Lookup(question, "correct");
    if correctValue.None? {
      return None;
    }
    return Some(Row(mcq.value, options.value, correctValue.value));
  }

  /**
   * `get_table_data` with the loop over `quiz_dict.values()`, as intended:
   * the first question lacking a field raises KeyError (or TypeError when
   * it is not a dict), which yields `False` for the whole table.
   */
  method GetTableDataIntended(cleanedJson: string, loads: string -> Option<Json>) returns (r: TableResult)
    ensures r == TableOf(loads(cleanedJson))
  {
    var quizDict := loads(cleanedJson);
    if quizDict.None? {
      return BuildFailed;
    }
    var questions := Values(quizDict.value);
    if questions.None? {
      return BuildFailed;
    }
    var qs := questions.value;
    var quizData: seq<Json> := [];
    var i := 0;
    while i < |qs|
      invariant 0 <= i <= |qs| && |quizData| == i
      invariant forall k :: 0 <= k < i ==> IsQuestion(qs[k]) && quizData[k] == RowOf(qs[k])
    {
      var row := QuestionRow(qs[i]);
      if row.None? {
        TableOfFails(quizDict.value, qs, i);
        return BuildFailed;
      }
      quizData := quizData + [row.value];
      i := i + 1;
    }
    TableOfRows(quizDict.value, qs, quizData);
    return Table(quizData);
  }

  /** A syntactically valid but empty quiz `{}` is an empty table, not a failure. */
  lemma EmptyQuizIsEmptyTable()
    ensures TableOf(Some(JObject([]))) == Table([])
  {
  }

  /**
   * The input on which the code as written and the intended loop part:
   * `"{}"` parses to an empty dict; the intended loop returns an empty
   * table, yet `GetTableData` returns `False`.
   */
  method EmptyQuizDiscrepancy(loads: string -> Option<Json>) returns (asWritten: TableResult, intended: TableResult)
    requires loads("{}") == Some(JObject([]))
    ensures asWritten == BuildFailed && intended == Table([])
  {
    asWritten := GetTableData("{}", loads);
    intended := GetTableDataIntended("{}", loads);
    EmptyQuizIsEmptyTable();
  }

  /** One question as the response format describes it: a stem, labelled options, the correct label. */
  datatype Question = Question(mcq: string, options: seq<(string, string)>, correct: string)

  /** Option labels are the keys of the `options` dict, so no label appears twice. */
  predicate WellLabelled(q: Question) {
    forall a, b :: 0 <= a < b < |q.options| ==> q.options[a].0 != q.options[b].0
  }

  function QuestionJson(q: Question): (j: Json)
    requires WellLabelled(q)
    ensures IsQuestion(j) && DistinctKeys(j.members)
    ensures Lookup(j, "mcq") == Some(JString(q.mcq))
    ensures Lookup(j, "options") == Some(OptionsJson(q.options))
    ensures Lookup(j, "correct") == Some(JString(q.correct))
  {
    LookupThree("mcq", JString(q.mcq), "options", OptionsJson(q.options), "correct", JString(q.correct));
    JObject([
      ("mcq", JString(q.mcq)),
      ("options", OptionsJson(q.options)),
      ("correct", JString(q.correct))])
  }

  /** The `options` dict: label `k` maps to the text of option `k`. */
  function OptionsJson(options: seq<(string, string)>): (j: Json)
    requires forall a, b :: 0 <= a < b < |options| ==> options[a].0 != options[b].0
    ensures j.JObject? && DistinctKeys(j.members) && |j.members| == |options|
  {
    JObject(seq(|options|, k requires 0 <= k < |options| => (options[k].0, JString(options[k].1))))
  }

  /** Question keys of a quiz are the keys of a dict, so no key appears twice. */
  predicate WellKeyed(keys: seq<string>, qs: seq<Question>) {
    && |keys| == |qs|
    && (forall a, b :: 0 <= a < b < |keys| ==> keys[a] != keys[b])
    && forall k :: 0 <= k < |qs| ==> WellLabelled(qs[k])
  }

  /** The quiz dict the model is asked to produce: question `k` under `keys[k]`. */
  function QuizJson(keys: seq<string>, qs: seq<Question>): (j: Json)
    requires WellKeyed(keys, qs)
    ensures j.JObject? && DistinctKeys(j.members) && |j.members| == |qs|
  {
    JObject(seq(|qs|, k requires 0 <= k < |qs| => (keys[k], QuestionJson(qs[k]))))
  }

  /**
   * A well-formed quiz of n questions becomes n rows, in order, whose fields
   * are the questions' fields verbatim.
   */
  lemma TableOfQuiz(keys: seq<string>, qs: seq<Question>)
    requires WellKeyed(keys, qs)
    ensures var r := TableOf(Some(QuizJson(keys, qs)));
      && r.Table? && |r.rows| == |qs|
      && forall k :: 0 <= k < |qs| ==>
        && Lookup(r.rows[k], "MCQ") == Some(JString(qs[k].mcq))
        && Lookup(r.rows[k], "CHOICES") == Some(OptionsJson(qs[k].options))
        && Lookup(r.rows[k], "CORRECT ANSWER") == Some(JString(qs[k].correct))
  {
    var j := QuizJson(keys, qs);
    forall k | 0 <= k < |qs| ensures IsQuestion(j.members[k].1) && j.members[k].1 == QuestionJson(qs[k]) {
    }
    var r := TableOf(Some(j));
    TableRowsCopyQuestions(Some(j));
    forall k | 0 <= k < |qs|
      ensures Lookup(r.rows[k], "CHOICES") == Some(OptionsJson(qs[k].options))
    {
      assert RowCopies(r.rows[k], j.members[k].1);
    }
  }

  /**
   * The intended path end to end: a fenced reply whose payload parses to a
   * quiz of n questions yields n rows carrying the questions' fields.
   */
  lemma FencedQuizToTable(prose: string, payload: string, rest: string,
                          loads: string -> Option<Json>, keys: seq<string>, qs: seq<Question>)
    requires forall k :: 0 <= k < |prose| ==> prose[k] != '`'
    requires !Contains(payload, EndMarker)
    requires payload == [] || payload[|payload| - 1] != '`'
    requires WellKeyed(keys, qs) && loads(Strip(payload)) == Some(QuizJson(keys, qs))
    ensures var r := TableOf(loads(ExtractJson(prose + StartMarker + payload + EndMarker + rest)));
      && r.Table? && |r.rows| == |qs|
      && forall k :: 0 <= k < |qs| ==>
        && Lookup(r.rows[k], "MCQ") == Some(JString(qs[k].mcq))
        && Lookup(r.rows[k], "CHOICES") == Some(OptionsJson(qs[k].options))
        && Lookup(r.rows[k], "CORRECT ANSWER") == Some(JString(qs[k].correct))
  {
    ExtractFromFencedReply(prose, payload, rest);
    TableOfQuiz(keys, qs);
  }
}
