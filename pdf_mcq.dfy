/**
 * The PDF question-bank reader (`core/pdf.py`): the cleaning of each page's
 * text, the records built from the question matches, the answer table, and
 * the two checks that the question numbers run in order.
 *
 * The PDF library and the regular expressions are inputs: a document is the
 * list of its page texts (`None` when it cannot be opened), and each pattern
 * is given as the list of its matches' groups. Writing JSON is left out.
 */
module PdfMcq {
  import opened Wrappers
  import opened Text
  import opened PyDict
  import opened Dedup
  import BaseScraper

  // ---------------------------------------------------------------------------
  // cleaning

  /** `re.sub(r'\s+', ' ', s)`: every run of whitespace becomes one space. */
  function Squash(s: string): (r: string)
    ensures |r| <= |s|
    ensures s != [] ==> r != [] && r[0] == if IsSpace(s[0]) then ' ' else s[0]
    decreases |s|
  {
    if s == [] then []
    else if |s| >= 2 && IsSpace(s[0]) && IsSpace(s[1]) then Squash(s[1..])
    else [if IsSpace(s[0]) then ' ' else s[0]] + Squash(s[1..])
  }

  /** The only whitespace is the plain space, and never two in a row. */
  predicate Spaced(s: string) {
    (forall i :: 0 <= i < |s| && IsSpace(s[i]) ==> s[i] == ' ')
    && (forall i :: 0 <= i < |s| - 1 ==> !(IsSpace(s[i]) && IsSpace(s[i + 1])))
  }

  /** The text of a page as stored: empty text as it is, other text with every whitespace run one space, stripped. */
  function Clean(text: string): string {
    if text == [] then [] else Strip(Squash(ReplaceChar(text, '\n', ' ')))
  }

  lemma {:induction false} SquashSpaced(s: string)
    ensures Spaced(Squash(s))
    decreases |s|
  {
    if s != [] {
      SquashSpaced(s[1..]);
      if !(|s| >= 2 && IsSpace(s[0]) && IsSpace(s[1])) {
        var rest := Squash(s[1..]);
        var r := [if IsSpace(s[0]) then ' ' else s[0]] + rest;
        assert r == Squash(s);
        forall i | 0 <= i < |r| - 1 ensures !(IsSpace(r[i]) && IsSpace(r[i + 1])) {
          if i > 0 {
            assert r[i] == rest[i - 1] && r[i + 1] == rest[i];
          }
        }
        forall i | 0 <= i < |r| && IsSpace(r[i]) ensures r[i] == ' ' {
          if i > 0 {
            assert r[i] == rest[i - 1];
          }
        }
      }
    }
  }

  /** Squashing changes whitespace only: the visible characters stay, in order. */
  lemma {:induction false} SquashVisible(s: string)
    ensures BaseScraper.Visible(Squash(s)) == BaseScraper.Visible(s)
    decreases |s|
  {
    if s != [] {
      SquashVisible(s[1..]);
      if !(|s| >= 2 && IsSpace(s[0]) && IsSpace(s[1])) {
        var r := [if IsSpace(s[0]) then ' ' else s[0]] + Squash(s[1..]);
        assert r[1..] == Squash(s[1..]);
      }
    }
  }

  /** Text already spaced is left alone. */
  lemma {:induction false} SquashFixed(s: string)
    requires Spaced(s)
    ensures Squash(s) == s
    decreases |s|
  {
    if s != [] {
      assert Spaced(s[1..]) by {
        forall i | 0 <= i < |s[1..]| - 1 ensures !(IsSpace(s[1..][i]) && IsSpace(s[1..][i + 1])) {
          assert s[1..][i] == s[i + 1] && s[1..][i + 1] == s[i + 2];
        }
      }
      SquashFixed(s[1..]);
      assert [s[0]] + s[1..] == s;
    }
  }

  /** Newlines are whitespace already: turning them into spaces first changes nothing. */
  lemma {:induction false} SquashNewlines(s: string)
    ensures Squash(ReplaceChar(s, '\n', ' ')) == Squash(s)
    decreases |s|
  {
    if s != [] {
      var t := ReplaceChar(s, '\n', ' ');
      assert t[1..] == ReplaceChar(s[1..], '\n', ' ');
      SquashNewlines(s[1..]);
    }
  }

  lemma {:induction false} SpacedSlice(s: string, i: nat, j: nat)
    requires Spaced(s) && i <= j <= |s|
    ensures Spaced(s[i..j])
  {
    forall k | 0 <= k < j - i - 1 ensures !(IsSpace(s[i..j][k]) && IsSpace(s[i..j][k + 1])) {
      assert s[i..j][k] == s[i + k] && s[i..j][k + 1] == s[i + k + 1];
    }
  }

  /**
   * A cleaned page neither starts nor ends with whitespace and holds no
   * whitespace but single spaces.
   */
  lemma {:induction false} CleanSpec(text: string)
    ensures var r := Clean(text);
      && (r != [] ==> !IsSpace(r[0]) && !IsSpace(r[|r| - 1]))
      && Spaced(r)
  {
    if text != [] {
      var q := Squash(ReplaceChar(text, '\n', ' '));
      SquashSpaced(ReplaceChar(text, '\n', ' '));
      var i := StripIsSlice(q);
      SpacedSlice(q, i, i + |Strip(q)|);
      if Strip(q) != [] {
        StripEdges(q);
      }
    }
  }

  /** Replacing the newlines first makes no difference. */
  lemma {:induction false} CleanNewlines(text: string)
    ensures text != [] ==> Clean(text) == Strip(Squash(text))
  {
    SquashNewlines(text);
  }

  /** Cleaning keeps every visible character, in order. */
  lemma {:induction false} CleanVisible(text: string)
    ensures BaseScraper.Visible(Clean(text)) == BaseScraper.Visible(text)
  {
    if text != [] {
      SquashNewlines(text);
      SquashVisible(text);
      BaseScraper.StripVisible(Squash(text));
    }
  }

  lemma {:induction false} StripEdges(s: string)
    requires Strip(s) != []
    ensures !IsSpace(Strip(s)[0]) && !IsSpace(Strip(s)[|Strip(s)| - 1])
  {
    LStripDropsSpace(s);
    RStripDropsSpace(LStrip(s));
    LStripSuffix(s);
    RStripPrefix(LStrip(s));
  }

  /** Cleaning twice is cleaning once. */
  lemma {:induction false} CleanIdempotent(text: string)
    ensures Clean(Clean(text)) == Clean(text)
  {
    var r := Clean(text);
    CleanSpec(text);
    if r != [] {
      CleanNewlines(r);
      SquashFixed(r);
      StripNoEdgeSpace(r);
    }
  }

  // ---------------------------------------------------------------------------
  // extract_text

  /** `range(n)` */
  function Range(n: nat): (r: seq<nat>)
    ensures |r| == n && forall i :: 0 <= i < n ==> r[i] == i
  {
    seq(n, i requires 0 <= i < n => i)
  }

  /** The pages to read: those asked for, or every page of the document. */
  function Targets(doc: seq<string>, pages: Option<seq<nat>>): seq<nat> {
    if pages.None? then Range(|doc|) else pages.value
  }

  /** What reading the pages `ts` of the document gives: each page cleaned, stored under its number; `None` at the first page not in it. */
  function PagesRead(d: seq<string>, ts: seq<nat>): (r: Option<Dict<nat, string>>)
    ensures r.Some? ==> r.value.Valid()
  {
    if ts == [] then Some(Empty())
    else
      var p := ts[|ts| - 1];
      match PagesRead(d, ts[..|ts| - 1])
      case None => None
      case Some(x) => if p < |d| then Some(x.Put(p, Clean(d[p]))) else None
  }

  /** `extract_text`'s result for a document that may not open. */
  function Extracted(doc: Option<seq<string>>, pages: Option<seq<nat>>): (r: Option<Dict<nat, string>>)
    ensures r.Some? ==> doc.Some? && r.value.Valid()
  {
    if doc.None? then None else PagesRead(doc.value, Targets(doc.value, pages))
  }

  /**
   * Reading succeeds exactly when every page asked for is in the document;
   * then each such page is a key once, in first-asked order, holding its
   * cleaned text.
   */
  lemma {:induction false} PagesReadSpec(d: seq<string>, ts: seq<nat>)
    ensures PagesRead(d, ts).Some? <==> forall i :: 0 <= i < |ts| ==> ts[i] < |d|
    ensures PagesRead(d, ts).Some? ==> PagesRead(d, ts).value.keys == Unique(ts)
    ensures PagesRead(d, ts).Some? ==> forall p :: p in PagesRead(d, ts).value.values ==> p < |d| && PagesRead(d, ts).value.values[p] == Clean(d[p])
  {
    if ts != [] {
      var n := |ts| - 1;
      PagesReadSpec(d, ts[..n]);
      UniqueSpec(ts[..n]);
      UniqueSnoc(ts[..n], ts[n]);
      assert ts[..n] + [ts[n]] == ts;
    }
  }

  /** `extract_text`: the pages asked for (every page when none are), read in order, stopping at the first error. */
  method ExtractText(doc: Option<seq<string>>, pages: Option<seq<nat>>) returns (r: Option<Dict<nat, string>>)
    ensures r == Extracted(doc, pages)
  {
    if doc.None? {
      return None;
    }
    var d := doc.value;
    var targets := if pages.None? then Range(|d|) else pages.value;
    r := ReadPages(d, targets);
  }

  /** The loop of `extract_text` over the pages `targets`. */
  method ReadPages(d: seq<string>, targets: seq<nat>) returns (r: Option<Dict<nat, string>>)
    ensures r == PagesRead(d, targets)
  {
    var extracted: Dict<nat, string> := Empty();
    var i := 0;
    while i < |targets|
      invariant 0 <= i <= |targets|
      invariant PagesRead(d, targets[..i]) == Some(extracted)
    {
      assert targets[..i + 1] == targets[..i] + [targets[i]];
      var next := ReadPage(d, targets[..i], extracted, targets[i]);
      if next.None? {
        PagesReadStops(d, targets, i + 1);
        return None;
      }
      extracted := next.value;
      i := i + 1;
    }
    assert targets[..i] == targets;
    return Some(extracted);
  }

  /** A page out of range stops the reading for good. */
  lemma {:induction false} PagesReadStops(d: seq<string>, ts: seq<nat>, n: nat)
    requires n <= |ts| && PagesRead(d, ts[..n]).None?
    ensures PagesRead(d, ts).None?
    decreases |ts| - n
  {
    if n < |ts| {
      assert ts[..n + 1][..n] == ts[..n];
      PagesReadStops(d, ts, n + 1);
    } else {
      assert ts[..n] == ts;
    }
  }

  /** One page of `extract_text`: its cleaned text stored under its number, or `None` when it is out of range. */
  method ReadPage(d: seq<string>, ghost ts: seq<nat>, extracted: Dict<nat, string>, p: nat) returns (r: Option<Dict<nat, string>>)
    requires PagesRead(d, ts) == Some(extracted)
    ensures r == PagesRead(d, ts + [p])
  {
    assert (ts + [p])[..|ts|] == ts;
    if p >= |d| {
      return None;
    }
    var text := d[p];
    if text != [] {
      text := ReplaceChar(text, '\n', ' ');
      text := Strip(Squash(text));
    }
    r := Some(extracted.Put(p, text));
  }

  // ---------------------------------------------------------------------------
  // records

  /** A match of the question pattern: its number, stem and options (1) to (3), unstripped. */
  datatype McqMatch = McqMatch(number: string, stem: string, one: string, two: string, three: string)

  /** A stored record: `question` is the stem with the three options after it; `a` holds the stem and `b` to `d` the options. */
  datatype Mcq = Mcq(questionNo: string, question: string, a: string, b: string, c: string, d: string)

  function RecordOf(m: McqMatch): Mcq {
    var q, a, b, c := Strip(m.stem), Strip(m.one), Strip(m.two), Strip(m.three);
    Mcq(Strip(m.number), q + " " + Join([a, b, c], " "), q, a, b, c)
  }

  function Records(ms: seq<McqMatch>): (rs: seq<Mcq>)
    ensures |rs| == |ms| && forall i :: 0 <= i < |ms| ==> rs[i] == RecordOf(ms[i])
  {
    seq(|ms|, i requires 0 <= i < |ms| => RecordOf(ms[i]))
  }

  /** The question reads the stem and the options (1) to (3), space-separated, each stripped. */
  lemma {:induction false} RecordSpec(m: McqMatch)
    ensures var r := RecordOf(m);
      && r.question == r.a + " " + r.b + " " + r.c + " " + r.d
      && r.a == Strip(m.stem) && r.b == Strip(m.one) && r.c == Strip(m.two) && r.d == Strip(m.three)
      && r.questionNo == Strip(m.number)
  {
    var a, b, c := Strip(m.one), Strip(m.two), Strip(m.three);
    Join3(a, b, c, " ");
  }

  lemma {:induction false} Join3(a: string, b: string, c: string, sep: string)
    ensures Join([a, b, c], sep) == a + sep + b + sep + c
  {
    assert [a, b, c][1..] == [b, c];
    assert [b, c][1..] == [c];
    assert Join([b, c], sep) == b + sep + c;
    assert a + sep + (b + sep + c) == a + sep + b + sep + c;
  }

  // ---------------------------------------------------------------------------
  // answers

  /** A match of the answer pattern `(\d+)\.\s+\((\d)\)`: the number and the answer digit. */
  datatype AnswerMatch = AnswerMatch(number: string, answer: string)

  function AnswerNumber(m: AnswerMatch): string {
    m.number
  }

  /** The answer dict after storing the matches in order. */
  function Answers(ms: seq<AnswerMatch>): (d: Dict<string, string>)
    ensures d.Valid()
  {
    if ms == [] then Empty()
    else Answers(ms[..|ms| - 1]).Put(ms[|ms| - 1].number, ms[|ms| - 1].answer)
  }

  /** No later match has the same number. */
  predicate LastOfNumber(ms: seq<AnswerMatch>, i: nat)
    requires i < |ms|
  {
    forall j :: i < j < |ms| ==> ms[j].number != ms[i].number
  }

  /** Every number matched is a key once, in first-seen order. */
  lemma {:induction false} AnswersKeys(ms: seq<AnswerMatch>)
    ensures Answers(ms).keys == Unique(Keys(ms, AnswerNumber))
  {
    if ms != [] {
      var n := |ms| - 1;
      AnswersKeys(ms[..n]);
      UniqueSpec(Keys(ms[..n], AnswerNumber));
      UniqueSnoc(Keys(ms[..n], AnswerNumber), ms[n].number);
    }
  }

  /** Every number matched holds the answer of its last match. */
  lemma {:induction false} AnswersLast(ms: seq<AnswerMatch>)
    ensures forall i :: 0 <= i < |ms| ==> ms[i].number in Answers(ms).values
    ensures forall i :: 0 <= i < |ms| && LastOfNumber(ms, i) ==> Answers(ms).values[ms[i].number] == ms[i].answer
  {
    if ms != [] {
      var n := |ms| - 1;
      var init := ms[..n];
      AnswersLast(init);
      var d0, d := Answers(init), Answers(ms);
      assert d.values == d0.values[ms[n].number := ms[n].answer];
      forall i | 0 <= i < n ensures ms[i].number in d.values {
        assert ms[i] == init[i];
      }
      forall i | 0 <= i < n && LastOfNumber(ms, i) ensures d.values[ms[i].number] == ms[i].answer {
        assert ms[i] == init[i] && ms[i].number != ms[n].number;
        assert LastOfNumber(init, i);
      }
    }
  }

  // ---------------------------------------------------------------------------
  // the order checks

  /** `int(s)` for the digit strings the patterns capture; anything else raises. */
  function IntOf(s: string): Option<nat> {
    if AllDigits(s) then Some(DigitsValue(s)) else None
  }

  /** The numbers that are let through, each counting for two. */
  const SkipList: seq<string> := ["83", "247", "616", "1085"]

  /** How far the expected number moves past a record. */
  function Step(m: Mcq): nat {
    if m.questionNo in SkipList then 2 else 1
  }

  /** The expected number after the records `ms`. */
  function ExpectedAfter(ms: seq<Mcq>): nat {
    if ms == [] then 1 else ExpectedAfter(ms[..|ms| - 1]) + Step(ms[|ms| - 1])
  }

  /** How many of the records are on the skip list. */
  function SkipCount(ms: seq<Mcq>): nat {
    if ms == [] then 0 else SkipCount(ms[..|ms| - 1]) + (if ms[|ms| - 1].questionNo in SkipList then 1 else 0)
  }

  /** Record `i` passes: it is on the skip list, or its number is the one expected. */
  predicate Passes(ms: seq<Mcq>, i: nat)
    requires i < |ms|
  {
    ms[i].questionNo in SkipList || IntOf(ms[i].questionNo) == Some(ExpectedAfter(ms[..i]))
  }

  /** The exception raised: the number found and the number expected. */
  datatype OrderError = OrderError(number: string, expected: nat)

  /** Each record counts one, and one more if it is on the skip list. */
  lemma {:induction false} ExpectedCount(ms: seq<Mcq>)
    ensures ExpectedAfter(ms) == 1 + |ms| + SkipCount(ms)
  {
    if ms != [] {
      ExpectedCount(ms[..|ms| - 1]);
    }
  }

  /**
   * Without skip-listed numbers the serial check and the answer-order check
   * agree: both pass exactly when record `i` is numbered `i + 1`.
   */
  lemma {:induction false} SerialWithoutSkips(ms: seq<Mcq>)
    requires forall i :: 0 <= i < |ms| ==> ms[i].questionNo !in SkipList
    ensures (forall i :: 0 <= i < |ms| ==> Passes(ms, i)) <==> (forall i :: 0 <= i < |ms| ==> IntOf(ms[i].questionNo) == Some(i + 1))
  {
    forall i | 0 <= i < |ms| ensures Passes(ms, i) <==> IntOf(ms[i].questionNo) == Some(i + 1) {
      ExpectedCount(ms[..i]);
      NoSkips(ms[..i]);
    }
  }

  lemma {:induction false} NoSkips(ms: seq<Mcq>)
    requires forall i :: 0 <= i < |ms| ==> ms[i].questionNo !in SkipList
    ensures SkipCount(ms) == 0
  {
    if ms != [] {
      NoSkips(ms[..|ms| - 1]);
    }
  }

  // ---------------------------------------------------------------------------
  // the extractor

  /** Why `run` stops: the text could not be extracted, or a number is out of order. */
  datatype RunError = NoText | OutOfOrder(error: OrderError)

  /** `MCQExtractor`. */
  class Extractor {
    var mcqs: seq<Mcq>
    var answerDict: Option<Dict<string, string>>

    constructor ()
      ensures mcqs == [] && answerDict == None
    {
      mcqs := [];
      answerDict := None;
    }

    /** `process_mcqs`: one record per match, appended in order. */
    method ProcessMcqs(ms: seq<McqMatch>)
      modifies this
      ensures mcqs == old(mcqs) + Records(ms)
      ensures answerDict == old(answerDict)
    {
      var i := 0;
      while i < |ms|
        invariant 0 <= i <= |ms|
        invariant mcqs == old(mcqs) + Records(ms)[..i]
        invariant answerDict == old(answerDict)
      {
        var m := ms[i];
        var q, a, b, c := Strip(m.stem), Strip(m.one), Strip(m.two), Strip(m.three);
        mcqs := mcqs + [Mcq(Strip(m.number), q + " " + Join([a, b, c], " "), q, a, b, c)];
        assert Records(ms)[..i + 1] == Records(ms)[..i] + [RecordOf(m)];
        i := i + 1;
      }
      assert Records(ms)[..i] == Records(ms);
    }

    /** `process_answers`: the answer dict is built afresh from the matches. */
    method ProcessAnswers(ms: seq<AnswerMatch>)
      modifies this
      ensures answerDict == Some(Answers(ms))
      ensures mcqs == old(mcqs)
    {
      var d := Empty();
      var i := 0;
      while i < |ms|
        invariant 0 <= i <= |ms|
        invariant d == Answers(ms[..i])
      {
        assert ms[..i + 1][..i] == ms[..i];
        d := d.Put(ms[i].number, ms[i].answer);
        i := i + 1;
      }
      assert ms[..i] == ms;
      answerDict := Some(d);
    }

    /**
     * `validate_serial_no_in_order`: nothing when every record passes;
     * otherwise the first record that does not, with the number expected there.
     */
    method ValidateSerial() returns (r: Option<OrderError>)
      ensures r.None? <==> forall i :: 0 <= i < |mcqs| ==> Passes(mcqs, i)
      ensures r.Some? ==> exists i :: (0 <= i < |mcqs| && !Passes(mcqs, i) && (forall j :: 0 <= j < i ==> Passes(mcqs, j))
        && r.value == OrderError(mcqs[i].questionNo, ExpectedAfter(mcqs[..i])))
    {
      var expected := 1;
      var i := 0;
      while i < |mcqs|
        invariant 0 <= i <= |mcqs|
        invariant expected == ExpectedAfter(mcqs[..i])
        invariant forall j :: 0 <= j < i ==> Passes(mcqs, j)
      {
        var m := mcqs[i];
        assert mcqs[..i + 1][..i] == mcqs[..i];
        if m.questionNo in SkipList {
          expected := expected + 2;
        } else {
          var actual := IntOf(m.questionNo);
          if actual != Some(expected) {
            assert !Passes(mcqs, i);
            return Some(OrderError(m.questionNo, expected));
          }
          expected := expected + 1;
        }
        i := i + 1;
      }
      return None;
    }

    /** `validate_answer_serial_no_in_order`: the first position `i` whose record is not numbered `i + 1`, if any. */
    method ValidateAnswerOrder() returns (r: Option<nat>)
      ensures r.None? <==> forall i :: 0 <= i < |mcqs| ==> IntOf(mcqs[i].questionNo) == Some(i + 1)
      ensures r.Some? ==> r.value < |mcqs| && IntOf(mcqs[r.value].questionNo) != Some(r.value + 1)
      ensures r.Some? ==> forall j :: 0 <= j < r.value ==> IntOf(mcqs[j].questionNo) == Some(j + 1)
    {
      var i := 0;
      while i < |mcqs|
        invariant 0 <= i <= |mcqs|
        invariant forall j :: 0 <= j < i ==> IntOf(mcqs[j].questionNo) == Some(j + 1)
      {
        if IntOf(mcqs[i].questionNo) != Some(i + 1) {
          return Some(i);
        }
        i := i + 1;
      }
      return None;
    }

    /** The loop of `run`: the records of each page text, in order. */
    method ProcessPages(pages: seq<seq<McqMatch>>)
      modifies this
      ensures mcqs == old(mcqs) + AllRecords(pages)
    {
      var i := 0;
      while i < |pages|
        invariant 0 <= i <= |pages|
        invariant mcqs == old(mcqs) + AllRecords(pages[..i])
      {
        ghost var done := AllRecords(pages[..i]);
        var page := pages[i];
        AllRecordsStep(pages, i);
        ProcessMcqs(page);
        Dedup.AppendAssoc(old(mcqs), done, Records(page));
        i := i + 1;
      }
      assert pages[..i] == pages;
    }

    /**
     * `run`: the records of every extracted page, in page order, appended and
     * then checked; the records when the check passes.
     */
    method Run(doc: Option<seq<string>>, pages: Option<seq<nat>>, find: string -> seq<McqMatch>) returns (r: Result<seq<Mcq>, RunError>)
      modifies this
      ensures r.Ok? ==> r.value == mcqs && forall i :: 0 <= i < |mcqs| ==> Passes(mcqs, i)
      ensures r.Err? && r.error.OutOfOrder? ==> exists i :: (0 <= i < |mcqs| && !Passes(mcqs, i) && (forall j :: 0 <= j < i ==> Passes(mcqs, j))
        && r.error == OutOfOrder(OrderError(mcqs[i].questionNo, ExpectedAfter(mcqs[..i]))))
      ensures r == Err(NoText) <==> Extracted(doc, pages).None?
      ensures r == Err(NoText) ==> mcqs == old(mcqs)
      ensures r != Err(NoText) ==> mcqs == old(mcqs) + AllRecords(MatchesOf(Extracted(doc, pages).value.Values(), find))
    {
      var text := ExtractText(doc, pages);
      if text.None? {
        return Err(NoText);
      }
      var values := text.value.Values();
      ProcessPages(MatchesOf(values, find));
      var check := ValidateSerial();
      if check.Some? {
        return Err(OutOfOrder(check.value));
      }
      return Ok(mcqs);
    }
  }

  lemma {:induction false} AllRecordsStep(pages: seq<seq<McqMatch>>, i: nat)
    requires i < |pages|
    ensures AllRecords(pages[..i + 1]) == AllRecords(pages[..i]) + Records(pages[i])
  {
    assert pages[..i + 1][..i] == pages[..i];
  }

  /** The matches `finditer` yields on each page text. */
  function MatchesOf(texts: seq<string>, find: string -> seq<McqMatch>): (r: seq<seq<McqMatch>>)
    ensures |r| == |texts| && forall k :: 0 <= k < |texts| ==> r[k] == find(texts[k])
  {
    seq(|texts|, k requires 0 <= k < |texts| => find(texts[k]))
  }

  /** The records of the pages, page after page. */
  function AllRecords(pages: seq<seq<McqMatch>>): seq<Mcq> {
    if pages == [] then [] else AllRecords(pages[..|pages| - 1]) + Records(pages[|pages| - 1])
  }
}
