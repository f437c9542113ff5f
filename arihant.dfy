/**
 * The Arihant MCQ book extractor (`recipe/arihant/__init__.py`) and its index
 * converter (`recipe/arihant/index.py`).
 *
 * The subject index is read as CSV rows; the PDF text is a parameter and the
 * regex engine an input (`findQuestions`, `findAnswers`). The index line
 * pattern, being small, is modelled outright.
 */
module Arihant {
  import opened Wrappers
  import opened Text
  import opened PyDict
  import opened Dedup

  // ---------------------------------------------------------------------------
  // subjects

  /** `int(s)`: optional surrounding whitespace, an optional sign, then decimal digits. */
  function PyInt(s: string): (r: Option<int>)
    ensures r.Some? ==> Strip(s) != []
  {
    var t := Strip(s);
    if t == [] then None
    else if t[0] == '-' && AllDigits(t[1..]) then Some(0 - DigitsValue(t[1..]) as int)
    else if t[0] == '+' && AllDigits(t[1..]) then Some(DigitsValue(t[1..]))
    else if AllDigits(t) then Some(DigitsValue(t))
    else None
  }

  /** A plain run of digits reads as its decimal value. */
  lemma {:induction false} PyIntDigits(s: string)
    requires AllDigits(s)
    ensures PyInt(s) == Some(DigitsValue(s))
  {
    assert !IsSpace(s[0]) && !IsSpace(s[|s| - 1]);
    StripNoEdgeSpace(s);
  }

  /** Python's `range(start, stop)`. */
  datatype PyRange = PyRange(start: int, stop: int) {
    predicate Contains(i: int) { start <= i < stop }
    function Length(): nat { if stop <= start then 0 else stop - start }
  }

  datatype Subject = Subject(name: string, pages: PyRange)

  /** What `subjects()` raises on a bad row. */
  datatype RowError = MissingColumn | NotAnInteger

  /** One row: `(row[0] + " - " + row[1], range(int(row[2]) - 1, int(row[3])))`, evaluated left to right. */
  function SubjectOf(row: seq<string>): Result<Subject, RowError> {
    if |row| < 3 then Err(MissingColumn)
    else if PyInt(row[2]).None? then Err(NotAnInteger)
    else if |row| < 4 then Err(MissingColumn)
    else if PyInt(row[3]).None? then Err(NotAnInteger)
    else Ok(Subject(row[0] + " - " + row[1], PyRange(PyInt(row[2]).value - 1, PyInt(row[3]).value)))
  }

  function SubjectsOf(rows: seq<seq<string>>): Result<seq<Subject>, RowError> {
    if rows == [] then Ok([])
    else match SubjectOf(rows[0])
      case Err(e) => Err(e)
      case Ok(s) => match SubjectsOf(rows[1..])
        case Err(e) => Err(e)
        case Ok(rest) => Ok([s] + rest)
  }

  /** `subjects()`: the rows after the header line. */
  function Subjects(csvRows: seq<seq<string>>): Result<seq<Subject>, RowError> {
    SubjectsOf(if csvRows == [] then [] else csvRows[1..])
  }

  /**
   * The 1-based inclusive page range `start`..`end` of a row becomes the 0-based
   * half-open range: page index `i` is in it exactly when `start <= i + 1 <= end`.
   */
  lemma {:induction false} SubjectOfSpec(row: seq<string>)
    requires SubjectOf(row).Ok?
    ensures |row| >= 4 && PyInt(row[2]).Some? && PyInt(row[3]).Some?
    ensures var s := SubjectOf(row).value;
      && s.name == row[0] + " - " + row[1]
      && (forall i :: s.pages.Contains(i) <==> PyInt(row[2]).value <= i + 1 <= PyInt(row[3]).value)
      && s.pages.Length() == if PyInt(row[3]).value < PyInt(row[2]).value then 0 else PyInt(row[3]).value - PyInt(row[2]).value + 1
  {
  }

  /** The list is built exactly when every row is good, and then holds one subject per row, in order. */
  lemma {:induction false} SubjectsOfSpec(rows: seq<seq<string>>)
    ensures SubjectsOf(rows).Ok? <==> forall k :: 0 <= k < |rows| ==> SubjectOf(rows[k]).Ok?
    ensures SubjectsOf(rows).Ok? ==>
      (|SubjectsOf(rows).value| == |rows| && forall k :: 0 <= k < |rows| ==> SubjectsOf(rows).value[k] == SubjectOf(rows[k]).value)
  {
    if rows != [] {
      SubjectsOfSpec(rows[1..]);
      if forall k :: 0 <= k < |rows| ==> SubjectOf(rows[k]).Ok? {
        forall k | 0 <= k < |rows[1..]| ensures SubjectOf(rows[1..][k]).Ok? {
          assert rows[1..][k] == rows[k + 1];
        }
      }
    }
  }

  /** A bad row stops the reading: the error is that of the first bad row. */
  lemma {:induction false} SubjectsOfFirstError(rows: seq<seq<string>>, k: nat)
    requires k < |rows| && SubjectOf(rows[k]).Err?
    requires forall j :: 0 <= j < k ==> SubjectOf(rows[j]).Ok?
    ensures SubjectsOf(rows) == Err(SubjectOf(rows[k]).error)
  {
    if k > 0 {
      forall j | 0 <= j < k - 1 ensures SubjectOf(rows[1..][j]).Ok? {
        assert rows[1..][j] == rows[j + 1];
      }
      SubjectsOfFirstError(rows[1..], k - 1);
      assert SubjectOf(rows[0]).Ok?;
    }
  }

  // ---------------------------------------------------------------------------
  // ArihantMCQExtractor

  /** The groups of one question match: number, question and options (a) to (d). */
  datatype McqMatch = McqMatch(number: string, question: string, a: string, b: string, c: string, d: string)

  /** The groups of one answer match: number and the answer character. */
  datatype AnswerMatch = AnswerMatch(number: string, letter: char)

  datatype Question = Question(questionNo: nat, question: string, a: string, b: string, c: string, d: string)

  datatype Row = Row(
    questionNo: nat, question: string, a: string, b: string, c: string, d: string,
    source: string, subject: Option<string>, answer: string)

  const DefaultSource: string := "Arihant 14000 MCQs"

  function QuestionOf(m: McqMatch): Question {
    Question(DigitsValue(m.number), Strip(m.question), Strip(m.a), Strip(m.b), Strip(m.c), Strip(m.d))
  }

  function MatchNumber(m: McqMatch): nat {
    DigitsValue(m.number)
  }

  function AnswerNumber(m: AnswerMatch): nat {
    DigitsValue(m.number)
  }

  /** `process_questions`: each match stored under its number, a later match replacing an earlier one. */
  function Stored(d: Dict<nat, Question>, ms: seq<McqMatch>): (r: Dict<nat, Question>)
    requires d.Valid()
    ensures r.Valid()
  {
    if ms == [] then d
    else
      var m := ms[|ms| - 1];
      Stored(d, ms[..|ms| - 1]).Put(MatchNumber(m), QuestionOf(m))
  }

  /** Every stored question sits under its own number. */
  ghost predicate Numbered(d: Dict<nat, Question>) {
    d.Valid() && forall n :: n in d.values ==> d.values[n].questionNo == n
  }

  /** No later match has the same number. */
  predicate LastOfNumber(ms: seq<McqMatch>, i: nat)
    requires i < |ms|
  {
    forall j :: i < j < |ms| ==> MatchNumber(ms[j]) != MatchNumber(ms[i])
  }

  /** The numbers stored are the old ones, then the new ones in first-seen order. */
  lemma {:induction false} StoredKeys(d: Dict<nat, Question>, ms: seq<McqMatch>)
    requires d.Valid()
    ensures Stored(d, ms).keys == Unique(d.keys + Keys(ms, MatchNumber))
  {
    if ms == [] {
      assert d.keys + Keys(ms, MatchNumber) == d.keys;
      UniqueOfDistinct(d.keys);
    } else {
      var n := |ms| - 1;
      var k := MatchNumber(ms[n]);
      var before := d.keys + Keys(ms[..n], MatchNumber);
      StoredKeys(d, ms[..n]);
      UniqueSpec(before);
      UniqueSnoc(before, k);
      AppendAssoc(d.keys, Keys(ms[..n], MatchNumber), [k]);
    }
  }

  /** One more match puts its question under its number. */
  lemma {:induction false} StoredSnoc(d: Dict<nat, Question>, ms: seq<McqMatch>)
    requires d.Valid() && ms != []
    ensures Stored(d, ms).values == Stored(d, ms[..|ms| - 1]).values[MatchNumber(ms[|ms| - 1]) := QuestionOf(ms[|ms| - 1])]
  {
  }

  /** The number of the last match with it holds that match's question. */
  lemma {:induction false} StoredLast(d: Dict<nat, Question>, ms: seq<McqMatch>, i: nat)
    requires d.Valid() && i < |ms| && LastOfNumber(ms, i)
    ensures MatchNumber(ms[i]) in Stored(d, ms).values
    ensures Stored(d, ms).values[MatchNumber(ms[i])] == QuestionOf(ms[i])
  {
    var n := |ms| - 1;
    StoredSnoc(d, ms);
    if i < n {
      assert LastOfNumber(ms[..n], i) by {
        forall j | i < j < n ensures MatchNumber(ms[..n][j]) != MatchNumber(ms[..n][i]) {
          assert ms[..n][j] == ms[j];
        }
      }
      StoredLast(d, ms[..n], i);
      assert MatchNumber(ms[n]) != MatchNumber(ms[i]);
    }
  }

  /** A number no match has keeps its old question. */
  lemma {:induction false} StoredUntouched(d: Dict<nat, Question>, ms: seq<McqMatch>, k: nat)
    requires d.Valid() && k in d.values
    requires forall i :: 0 <= i < |ms| ==> MatchNumber(ms[i]) != k
    ensures k in Stored(d, ms).values && Stored(d, ms).values[k] == d.values[k]
  {
    if ms != [] {
      var n := |ms| - 1;
      forall i | 0 <= i < n ensures MatchNumber(ms[..n][i]) != k {
        assert ms[..n][i] == ms[i];
      }
      StoredUntouched(d, ms[..n], k);
    }
  }

  /** Every question stays under its own number. */
  lemma {:induction false} StoredNumbered(d: Dict<nat, Question>, ms: seq<McqMatch>)
    requires Numbered(d)
    ensures Numbered(Stored(d, ms))
  {
    if ms != [] {
      StoredNumbered(d, ms[..|ms| - 1]);
    }
  }

  /** `process_explanation`: a lower-cased answer, recorded only for numbers that have a question. */
  function Answered(e: Dict<nat, string>, questions: Dict<nat, Question>, ms: seq<AnswerMatch>): (r: Dict<nat, string>)
    requires e.Valid()
    ensures r.Valid()
  {
    if ms == [] then e
    else
      var m := ms[|ms| - 1];
      var r := Answered(e, questions, ms[..|ms| - 1]);
      if AnswerNumber(m) in questions.values then r.Put(AnswerNumber(m), [Lower(m.letter)]) else r
  }

  /** A number has an answer exactly when it had one before, or has a question and an answer match. */
  lemma {:induction false} AnsweredHas(e: Dict<nat, string>, questions: Dict<nat, Question>, ms: seq<AnswerMatch>, k: nat)
    requires e.Valid()
    ensures k in Answered(e, questions, ms).values <==>
      k in e.values || (k in questions.values && exists i :: 0 <= i < |ms| && AnswerNumber(ms[i]) == k)
  {
    if ms != [] {
      var last := |ms| - 1;
      var init := ms[..last];
      AnsweredHas(e, questions, init, k);
      if k in questions.values && (exists i :: 0 <= i < |ms| && AnswerNumber(ms[i]) == k) {
        var i :| 0 <= i < |ms| && AnswerNumber(ms[i]) == k;
        if i < last {
          assert init[i] == ms[i];
        }
      }
      if exists i :: 0 <= i < |init| && AnswerNumber(init[i]) == k {
        var i :| 0 <= i < |init| && AnswerNumber(init[i]) == k;
        assert ms[i] == init[i];
      }
    }
  }

  /** The answer recorded for a number is the lower-cased character of its last answer match. */
  lemma {:induction false} AnsweredLast(e: Dict<nat, string>, questions: Dict<nat, Question>, ms: seq<AnswerMatch>, i: nat)
    requires e.Valid() && i < |ms| && AnswerNumber(ms[i]) in questions.values
    requires forall j :: i < j < |ms| ==> AnswerNumber(ms[j]) != AnswerNumber(ms[i])
    ensures AnswerNumber(ms[i]) in Answered(e, questions, ms).values
    ensures Answered(e, questions, ms).values[AnswerNumber(ms[i])] == [Lower(ms[i].letter)]
  {
    var n := |ms| - 1;
    if i < n {
      AnsweredLast(e, questions, ms[..n], i);
    }
  }

  /** A recorded answer is a single character. */
  lemma {:induction false} AnsweredOneChar(e: Dict<nat, string>, questions: Dict<nat, Question>, ms: seq<AnswerMatch>, k: nat)
    requires e.Valid() && (k in e.values ==> |e.values[k]| == 1)
    ensures k in Answered(e, questions, ms).values ==> |Answered(e, questions, ms).values[k]| == 1
  {
    if ms != [] {
      AnsweredOneChar(e, questions, ms[..|ms| - 1], k);
    }
  }

  /** `get_mcqs`: one row per question, in insertion order; `''` when no answer was recorded. */
  function Rows(questions: Dict<nat, Question>, explanations: Dict<nat, string>, source: string, subject: Option<string>): (rows: seq<Row>)
    requires questions.Valid()
    ensures |rows| == |questions.keys|
  {
    seq(|questions.keys|, i requires 0 <= i < |questions.keys| =>
      var q := questions.values[questions.keys[i]];
      Row(q.questionNo, q.question, q.a, q.b, q.c, q.d, source, subject,
        if questions.keys[i] in explanations.values then explanations.values[questions.keys[i]] else ""))
  }

  /** `kwargs.get("source", "Arihant 14000 MCQs")` */
  function SourceOr(source: Option<string>): string {
    if source.Some? then source.value else DefaultSource
  }

  function RowNumber(r: Row): nat {
    r.questionNo
  }

  /** The rows of a run are numbered by the distinct question numbers, in first-seen order. */
  lemma {:induction false} RunRowsNumbers(qms: seq<McqMatch>, answers: Dict<nat, string>, source: string, subject: Option<string>)
    ensures Keys(Rows(Stored(Empty(), qms), answers, source, subject), RowNumber) == Unique(Keys(qms, MatchNumber))
  {
    var questions := Stored(Empty(), qms);
    var rows := Rows(questions, answers, source, subject);
    StoredKeys(Empty(), qms);
    StoredNumbered(Empty(), qms);
    assert Empty<nat, Question>().keys + Keys(qms, MatchNumber) == Keys(qms, MatchNumber);
    assert Keys(rows, RowNumber) == questions.keys by {
      forall k | 0 <= k < |rows| ensures RowNumber(rows[k]) == questions.keys[k] {
        assert questions.keys[k] in questions.values;
      }
    }
  }

  /** The row of a question number carries the question of that number's last match. */
  lemma {:induction false} RunRowQuestion(qms: seq<McqMatch>, answers: Dict<nat, string>, source: string, subject: Option<string>, k: nat, i: nat)
    requires k < |Stored(Empty(), qms).keys| && i < |qms| && LastOfNumber(qms, i)
    requires MatchNumber(qms[i]) == Stored(Empty(), qms).keys[k]
    ensures var row := Rows(Stored(Empty(), qms), answers, source, subject)[k];
      && row.questionNo == MatchNumber(qms[i])
      && row.question == Strip(qms[i].question)
      && [row.a, row.b, row.c, row.d] == [Strip(qms[i].a), Strip(qms[i].b), Strip(qms[i].c), Strip(qms[i].d)]
      && row.source == source && row.subject == subject
  {
    StoredLast(Empty(), qms, i);
  }

  /** A row has an answer exactly when some answer match carries its number. */
  lemma {:induction false} RunRowAnswer(questions: Dict<nat, Question>, ams: seq<AnswerMatch>, source: string, subject: Option<string>, k: nat)
    requires questions.Valid() && k < |questions.keys|
    ensures var row := Rows(questions, Answered(Empty(), questions, ams), source, subject)[k];
      row.answer != [] <==> exists j :: 0 <= j < |ams| && AnswerNumber(ams[j]) == questions.keys[k]
  {
    var n := questions.keys[k];
    AnsweredHas(Empty(), questions, ams, n);
    AnsweredOneChar(Empty(), questions, ams, n);
  }

  /** `ArihantMCQExtractor`: questions and answers are dicts keyed by number, filled from the text. */
  class Extractor {
    var text: string
    var questions: Dict<nat, Question>
    var explanations: Dict<nat, string>
    var mcqs: seq<Row>
    var source: string
    var subject: Option<string>

    ghost predicate Valid()
      reads this
    {
      questions.Valid() && explanations.Valid()
    }

    constructor(source: Option<string>, subject: Option<string>)
      ensures Valid() && text == [] && questions == Empty() && explanations == Empty() && mcqs == []
      ensures this.source == SourceOr(source) && this.subject == subject
    {
      text := [];
      questions := Empty();
      explanations := Empty();
      mcqs := [];
      this.source := SourceOr(source);
      this.subject := subject;
    }

    /** `process_questions` */
    method ProcessQuestions(ms: seq<McqMatch>)
      requires Valid()
      modifies this
      ensures Valid()
      ensures questions == Stored(old(questions), ms)
      ensures explanations == old(explanations) && mcqs == old(mcqs) && text == old(text)
      ensures source == old(source) && subject == old(subject)
    {
      var i := 0;
      while i < |ms|
        invariant 0 <= i <= |ms|
        invariant questions == Stored(old(questions), ms[..i]) && Valid()
        invariant explanations == old(explanations) && mcqs == old(mcqs) && text == old(text)
        invariant source == old(source) && subject == old(subject)
      {
        var m := ms[i];
        var questionNo := DigitsValue(m.number);
        assert ms[..i + 1][..i] == ms[..i];
        questions := questions.Put(questionNo, Question(questionNo, Strip(m.question), Strip(m.a), Strip(m.b), Strip(m.c), Strip(m.d)));
        i := i + 1;
      }
      assert ms[..i] == ms;
    }

    /** `process_explanation` */
    method ProcessExplanation(ms: seq<AnswerMatch>)
      requires Valid()
      modifies this
      ensures Valid()
      ensures explanations == Answered(old(explanations), questions, ms)
      ensures questions == old(questions) && mcqs == old(mcqs) && text == old(text)
      ensures source == old(source) && subject == old(subject)
    {
      var i := 0;
      while i < |ms|
        invariant 0 <= i <= |ms|
        invariant explanations == Answered(old(explanations), questions, ms[..i]) && Valid()
        invariant questions == old(questions) && mcqs == old(mcqs) && text == old(text)
        invariant source == old(source) && subject == old(subject)
      {
        var questionNo := DigitsValue(ms[i].number);
        var answer := [Lower(ms[i].letter)];
        assert ms[..i + 1][..i] == ms[..i];
        if questionNo in questions.values {
          explanations := explanations.Put(questionNo, answer);
        }
        i := i + 1;
      }
      assert ms[..i] == ms;
    }

    /** `get_mcqs` */
    method GetMcqs()
      requires Valid()
      modifies this
      ensures Valid()
      ensures mcqs == Rows(questions, explanations, source, subject)
      ensures questions == old(questions) && explanations == old(explanations) && text == old(text)
      ensures source == old(source) && subject == old(subject)
    {
      mcqs := Rows(questions, explanations, source, subject);
    }

    /** `run`: questions, then answers, then rows, over the extracted text. */
    method Run(text: string, findQuestions: string -> seq<McqMatch>, findAnswers: string -> seq<AnswerMatch>)
      returns (rows: seq<Row>)
      requires Valid()
      modifies this
      ensures Valid()
      ensures this.text == text
      ensures questions == Stored(old(questions), findQuestions(text))
      ensures explanations == Answered(old(explanations), questions, findAnswers(text))
      ensures rows == mcqs == Rows(questions, explanations, source, subject)
    {
      this.text := text;
      ProcessQuestions(findQuestions(text));
      ProcessExplanation(findAnswers(text));
      GetMcqs();
      rows := mcqs;
    }
  }

  // ---------------------------------------------------------------------------
  // index.py: process_text_file

  const Header: string := "Category,Start,End"

  /** The length of the run of characters satisfying `p` from `i` on. */
  function RunLength(s: string, i: nat, p: char -> bool): (n: nat)
    requires i <= |s|
    ensures i + n <= |s|
    ensures forall k :: i <= k < i + n ==> p(s[k])
    ensures i + n < |s| ==> !p(s[i + n])
    decreases |s| - i
  {
    if i < |s| && p(s[i]) then 1 + RunLength(s, i + 1, p) else 0
  }

  /** The three groups of a match. */
  datatype IndexEntry = IndexEntry(category: string, start: string, end: string)

  /**
   * `\s+(\d+)-(\d+)` tried right after a category of length `k`. The greedy
   * runs never need to give anything back: a shorter run would leave a space
   * where a digit is needed, or a digit where `-` is needed.
   */
  function MatchAfter(s: string, k: nat): (r: Option<IndexEntry>)
    requires k <= |s|
    ensures r.Some? ==> r.value.category == s[..k] && k < |s|
  {
    var p := k + RunLength(s, k, IsSpace);
    if p == k then None
    else
      var q := p + RunLength(s, p, IsDigit);
      if q == p || q == |s| || s[q] != '-' then None
      else
        var r := q + 1 + RunLength(s, q + 1, IsDigit);
        if r == q + 1 then None else Some(IndexEntry(s[..k], s[p..q], s[q + 1..r]))
  }

  /** `re.match(r"(.+?)\s+(\d+)-(\d+)", line)`: the shortest category, of one or more non-newline characters, that works. */
  function LazyMatch(s: string, k: nat): (r: Option<IndexEntry>)
    requires 1 <= k
    ensures r.Some? ==>
      (&& k <= |r.value.category| < |s| && r.value.category == s[..|r.value.category|]
       && forall j :: k - 1 <= j < |r.value.category| ==> s[j] != '\n')
    decreases |s| - k
  {
    if k >= |s| || s[k - 1] == '\n' then None
    else
      var m := MatchAfter(s, k);
      if m.Some? then m else LazyMatch(s, k + 1)
  }

  function MatchLine(s: string): Option<IndexEntry> {
    LazyMatch(s, 1)
  }

  /** A match takes the shortest category that works, and its numbers are digit runs. */
  lemma {:induction false} LazyMatchSpec(s: string, k: nat)
    requires 1 <= k
    ensures var r := LazyMatch(s, k);
      r.Some? ==>
        (&& r == MatchAfter(s, |r.value.category|)
         && forall j :: k <= j < |r.value.category| ==> MatchAfter(s, j).None?)
    decreases |s| - k
  {
    var r := LazyMatch(s, k);
    if k < |s| && s[k - 1] != '\n' {
      var m := MatchAfter(s, k);
      if m.None? {
        assert r == LazyMatch(s, k + 1);
        LazyMatchSpec(s, k + 1);
      }
    }
  }

  /** No match means no category of non-newline characters is followed by spaces and a page range. */
  lemma {:induction false} LazyMatchNone(s: string, k: nat)
    requires 1 <= k && LazyMatch(s, k).None?
    ensures forall j :: k <= j < |s| && (forall i :: k - 1 <= i < j ==> s[i] != '\n') ==> MatchAfter(s, j).None?
    decreases |s| - k
  {
    if k < |s| && s[k - 1] != '\n' {
      LazyMatchNone(s, k + 1);
    }
  }

  /** The page numbers of a match are runs of digits, and the category is followed by whitespace. */
  lemma {:induction false} MatchAfterSpec(s: string, k: nat)
    requires k <= |s| && MatchAfter(s, k).Some?
    ensures var e := MatchAfter(s, k).value;
      && e.category == s[..k] && k < |s| && IsSpace(s[k])
      && e.start != [] && AllDigits(e.start) && e.end != [] && AllDigits(e.end)
  {
  }

  /** The output line for one input line: nothing for a blank or non-matching line. */
  function Converted(line: string): seq<string> {
    var t := Strip(line);
    if t == [] then []
    else match MatchLine(t)
      case None => []
      case Some(e) => [Strip(e.category) + "," + Strip(e.start) + "," + Strip(e.end)]
  }

  function ConvertedAll(lines: seq<string>): seq<string> {
    if lines == [] then [] else ConvertedAll(lines[..|lines| - 1]) + Converted(lines[|lines| - 1])
  }

  /** `process_text_file`: the header, then one line per matching input line, in input order. */
  method ProcessTextFile(lines: seq<string>) returns (output: seq<string>)
    ensures output == [Header] + ConvertedAll(lines)
  {
    output := [Header];
    var i := 0;
    while i < |lines|
      invariant 0 <= i <= |lines|
      invariant output == [Header] + ConvertedAll(lines[..i])
    {
      ghost var done := ConvertedAll(lines[..i]);
      PrefixStep(lines, i);
      var line := Strip(lines[i]);
      if line != [] {
        var m := MatchLine(line);
        if m.Some? {
          output := output + [Strip(m.value.category) + "," + Strip(m.value.start) + "," + Strip(m.value.end)];
        }
      }
      AppendAssoc([Header], done, Converted(lines[i]));
      i := i + 1;
    }
    assert lines[..i] == lines;
  }

  /** At most one output line per input line, and none for a blank line. */
  lemma {:induction false} ConvertedAllSize(lines: seq<string>)
    ensures |ConvertedAll(lines)| <= |lines|
    ensures (forall i :: 0 <= i < |lines| ==> IsBlank(lines[i])) ==> ConvertedAll(lines) == []
  {
    if lines != [] {
      var init := lines[..|lines| - 1];
      ConvertedAllSize(init);
      if forall i :: 0 <= i < |lines| ==> IsBlank(lines[i]) {
        assert forall i :: 0 <= i < |init| ==> IsBlank(init[i]) by {
          forall i | 0 <= i < |init| ensures IsBlank(init[i]) {
            assert init[i] == lines[i];
          }
        }
        assert IsBlank(lines[|lines| - 1]);
      }
    }
  }

  /** An index line: the category, then the page range; text after the range is ignored. */
  lemma {:induction false} IndexLineExample()
    ensures MatchLine("A 1-2 x") == Some(IndexEntry("A", "1", "2"))
  {
    var s := "A 1-2 x";
    assert s[1] == ' ' && s[2] == '1' && s[3] == '-' && s[4] == '2' && s[5] == ' ';
    assert RunLength(s, 2, IsSpace) == 0;
    assert RunLength(s, 1, IsSpace) == 1;
    assert RunLength(s, 3, IsDigit) == 0;
    assert RunLength(s, 2, IsDigit) == 1;
    assert RunLength(s, 5, IsDigit) == 0;
    assert RunLength(s, 4, IsDigit) == 1;
    assert s[..1] == "A" && s[2..3] == "1" && s[4..5] == "2";
  }
}
