/**
 * The generic PDF MCQ extractor of `core/services/kiran/__init__.py`.
 *
 * The extracted text comes in as a string. The two patterns run over the
 * whole text, the question pattern and the explanation marker, are inputs:
 * the question matches as (number, body) pairs in text order, the marker
 * matches with their positions, number and answer letter. The option pattern
 * `^\([a-f]\)\s*(.+)$` is applied line by line to each body and is modelled
 * here, as is the rest of the bookkeeping: the consecutive-number filter, the
 * question and explanation dicts, and the rows.
 */
module Kiran {
  import opened Wrappers
  import opened Text
  import opened PyDict
  import Dedup

  // ---------------------------------------------------------------------------
  // the consecutive-number filter

  /** Whether a match numbered `n` is taken when the counter is `last` (0 while none was taken). */
  predicate Accepts(last: nat, n: nat) {
    !(n != last + 1 && last != 0)
  }

  /** `last_question_no` after the loop has seen `xs`. */
  function Counter<T>(xs: seq<T>, num: T -> nat): nat {
    if xs == [] then 0
    else
      var c := Counter(xs[..|xs| - 1], num);
      if Accepts(c, num(xs[|xs| - 1])) then num(xs[|xs| - 1]) else c
  }

  /** The matches the loop goes on to store, in text order. */
  function Kept<T>(xs: seq<T>, num: T -> nat): (ks: seq<T>)
    ensures |ks| <= |xs|
  {
    if xs == [] then []
    else
      var init := xs[..|xs| - 1];
      Kept(init, num) + (if Accepts(Counter(init, num), num(xs[|xs| - 1])) then [xs[|xs| - 1]] else [])
  }

  /** Only matches of the input are kept, in their order: the kept ones are the input with some left out. */
  lemma {:induction false} KeptSubsequence<T>(xs: seq<T>, num: T -> nat)
    ensures forall k :: k in Kept(xs, num) ==> k in xs
  {
    if xs != [] {
      var init := xs[..|xs| - 1];
      KeptSubsequence(init, num);
      assert forall k :: k in init ==> k in xs;
    }
  }

  /** The counter is the number of the last match kept, or 0 while none was. */
  lemma {:induction false} CounterIsLastKept<T>(xs: seq<T>, num: T -> nat)
    ensures var ks := Kept(xs, num);
      Counter(xs, num) == if ks == [] then 0 else num(ks[|ks| - 1])
  {
    if xs != [] {
      CounterIsLastKept(xs[..|xs| - 1], num);
    }
  }

  /** The first match is always kept. */
  lemma {:induction false} FirstKept<T>(xs: seq<T>, num: T -> nat)
    requires xs != []
    ensures Kept(xs, num) != [] && Kept(xs, num)[0] == xs[0]
  {
    var init := xs[..|xs| - 1];
    if init == [] {
      assert xs == [xs[0]];
    } else {
      FirstKept(init, num);
      assert init[0] == xs[0];
    }
  }

  /**
   * With no match numbered 0, the kept numbers run consecutively from the
   * first one: each is one more than the one kept before it.
   */
  lemma {:induction false} KeptConsecutive<T>(xs: seq<T>, num: T -> nat)
    requires forall i :: 0 <= i < |xs| ==> num(xs[i]) != 0
    ensures Consecutive(Dedup.Keys(Kept(xs, num), num))
  {
    if xs != [] {
      var init := xs[..|xs| - 1];
      var x := xs[|xs| - 1];
      KeptConsecutive(init, num);
      CounterIsLastKept(init, num);
      KeptSubsequence(init, num);
      var ks := Kept(init, num);
      if Accepts(Counter(init, num), num(x)) && ks != [] {
        assert ks[|ks| - 1] in init;
        assert Counter(init, num) != 0;
        var ns := Dedup.Keys(Kept(xs, num), num);
        var nsInit := Dedup.Keys(ks, num);
        assert Kept(xs, num) == ks + [x];
        forall i | 0 <= i < |ns| ensures ns[i] == ns[0] + i {
          assert ns[0] == nsInit[0];
          if i < |ks| {
            assert ns[i] == nsInit[i];
          } else {
            assert ns[i] == num(x);
            assert num(ks[|ks| - 1]) == nsInit[|ks| - 1] == Counter(init, num);
          }
        }
      }
    }
  }

  /** One more step of the loop: the counter and the kept matches after element `i`. */
  lemma {:induction false} KeptStep<T>(xs: seq<T>, i: nat, num: T -> nat)
    requires i < |xs|
    ensures Accepts(Counter(xs[..i], num), num(xs[i])) ==>
      Counter(xs[..i + 1], num) == num(xs[i]) && Kept(xs[..i + 1], num) == Kept(xs[..i], num) + [xs[i]]
    ensures !Accepts(Counter(xs[..i], num), num(xs[i])) ==>
      Counter(xs[..i + 1], num) == Counter(xs[..i], num) && Kept(xs[..i + 1], num) == Kept(xs[..i], num)
  {
    assert xs[..i + 1][..i] == xs[..i];
  }

  /**
   * The counter's 0 also stands for "none kept yet": once a match numbered 0
   * is kept, the next one is kept whatever its number.
   */
  lemma {:induction false} ZeroRestarts<T>(xs: seq<T>, x: T, y: T, num: T -> nat)
    requires Counter(xs, num) == 0 && num(x) == 0
    ensures Kept(xs + [x, y], num) == Kept(xs, num) + [x, y]
  {
    assert (xs + [x, y])[..|xs| + 1] == xs + [x];
    assert (xs + [x])[..|xs|] == xs;
  }

  /** The numbers run on from the first one without a gap: each is one more than the one before it. */
  predicate Consecutive(ns: seq<nat>) {
    forall i :: 0 <= i < |ns| ==> ns[i] == ns[0] + i
  }

  // ---------------------------------------------------------------------------
  // options: `^\([a-f]\)\s*(.+)$`, line by line

  /** The lines of a text, as `^` and `$` see them under MULTILINE. */
  function Lines(t: string): seq<string> {
    Split(t, "\n")
  }

  /** The option of a line `(x) text` with x from a to f: the text after the blanks; `None` for any other line. */
  function OptionText(line: string): Option<string> {
    if |line| >= 3 && line[0] == '(' && 'a' <= line[1] <= 'f' && line[2] == ')' && LStrip(line[3..]) != []
    then Some(LStrip(line[3..]))
    else None
  }

  predicate IsOptionLine(line: string) {
    OptionText(line).Some?
  }

  /** The line is '(', a letter from a to f, ')', the blanks `pad`, then `o`, which is not empty and does not start blank. */
  predicate OptionShape(line: string, letter: char, pad: string, o: string) {
    && 'a' <= letter <= 'f' && (forall i :: 0 <= i < |pad| ==> IsSpace(pad[i]))
    && o != [] && !IsSpace(o[0]) && line == ['(', letter, ')'] + pad + o
  }

  /** Every option line has the shape, with the option as its last part. */
  lemma {:induction false} OptionLineHasShape(line: string) returns (pad: string)
    requires IsOptionLine(line)
    ensures OptionShape(line, line[1], pad, OptionText(line).value)
  {
    var rest := line[3..];
    pad := Blanks(rest);
    assert line == ['(', line[1], ')'] + rest;
  }

  /** What `lstrip()` drops: the blanks before what it keeps. */
  lemma {:induction false} Blanks(s: string) returns (pad: string)
    ensures s == pad + LStrip(s) && forall i :: 0 <= i < |pad| ==> IsSpace(pad[i])
  {
    LStripSuffix(s);
    LStripDropsSpace(s);
    pad := s[..|s| - |LStrip(s)|];
  }

  /** Every line of the shape is an option line, and its option is the last part. */
  lemma {:induction false} ShapeIsOptionLine(line: string, letter: char, pad: string, o: string)
    requires OptionShape(line, letter, pad, o)
    ensures OptionText(line) == Some(o)
  {
    assert line[3..] == pad + o;
    LStripPad(pad, o);
  }

  /** A line is an option line with option `o` exactly when it has the shape with `o` as its last part. */
  lemma {:induction false} OptionLineShape(line: string, o: string)
    ensures OptionText(line) == Some(o) <==> exists letter, pad :: OptionShape(line, letter, pad, o)
  {
    if OptionText(line) == Some(o) {
      var pad := OptionLineHasShape(line);
    }
    if exists letter, pad :: OptionShape(line, letter, pad, o) {
      var letter, pad :| OptionShape(line, letter, pad, o);
      ShapeIsOptionLine(line, letter, pad, o);
    }
  }

  lemma {:induction false} LStripPad(pad: string, o: string)
    requires forall i :: 0 <= i < |pad| ==> IsSpace(pad[i])
    requires o != [] && !IsSpace(o[0])
    ensures LStrip(pad + o) == o
  {
    if pad == [] {
      assert pad + o == o;
    } else {
      assert (pad + o)[1..] == pad[1..] + o;
      LStripPad(pad[1..], o);
    }
  }

  /** `findall` of the option pattern: the options of the option lines, in order. */
  function OptionsOf(lines: seq<string>): (os: seq<string>)
    ensures |os| <= |lines|
    ensures forall o :: o in os ==> o != [] && !IsSpace(o[0])
  {
    if lines == [] then []
    else
      var n := |lines| - 1;
      OptionsOf(lines[..n]) + (match OptionText(lines[n]) case Some(o) => [o] case None => [])
  }

  /** The lines with every line `drop` picks emptied: what `sub("", ...)` leaves of a whole-line pattern. */
  function Blanked(lines: seq<string>, drop: string -> bool): (r: seq<string>)
    ensures |r| == |lines|
    ensures forall i :: 0 <= i < |lines| ==> r[i] == if drop(lines[i]) then [] else lines[i]
  {
    if lines == [] then [] else Blanked(lines[..|lines| - 1], drop) + [if drop(lines[|lines| - 1]) then [] else lines[|lines| - 1]]
  }

  /** `_remove_options_from_text`: every option line emptied, the line breaks kept. */
  function RemoveOptions(t: string): string {
    Join(Blanked(Lines(t), IsOptionLine), "\n")
  }

  /** The pieces of a split on a line break hold no line break. */
  lemma {:induction false} LinesFree(t: string)
    ensures forall k :: 0 <= k < |Lines(t)| ==> '\n' !in Lines(t)[k]
  {
    SplitPiecesFree(t, "\n");
    forall k, j | 0 <= k < |Lines(t)| && 0 <= j < |Lines(t)[k]| ensures Lines(t)[k][j] != '\n' {
      OccursAtChar(Lines(t)[k], '\n', j);
    }
  }

  /** Emptying whole lines keeps the other lines and their breaks: the text after it splits into the emptied lines. */
  lemma {:induction false} BlankedLines(t: string, drop: string -> bool)
    ensures Lines(Join(Blanked(Lines(t), drop), "\n")) == Blanked(Lines(t), drop)
  {
    LinesFree(t);
    SplitJoin(Blanked(Lines(t), drop), "\n");
  }

  /**
   * After the removal no line is an option line, and every other line is
   * where it was.
   */
  lemma {:induction false} OptionsRemoved(t: string)
    ensures |Lines(RemoveOptions(t))| == |Lines(t)|
    ensures forall k :: 0 <= k < |Lines(t)| ==> !IsOptionLine(Lines(RemoveOptions(t))[k])
    ensures forall k :: 0 <= k < |Lines(t)| && !IsOptionLine(Lines(t)[k]) ==> Lines(RemoveOptions(t))[k] == Lines(t)[k]
  {
    BlankedLines(t, IsOptionLine);
  }

  // ---------------------------------------------------------------------------
  // questions and explanations

  /** A match of the question pattern: the number its digits spell and the text after it. */
  datatype QuestionMatch = QuestionMatch(number: nat, body: string)

  /** A stored question: its number, its text without the option lines, stripped, and its options, labelled a, b, ... in order. */
  datatype Question = Question(number: nat, text: string, options: seq<string>)

  function QuestionNumber(q: Question): nat {
    q.number
  }

  /** The question stored for a match. */
  function QuestionOf(m: QuestionMatch): Question {
    Question(m.number, Strip(RemoveOptions(m.body)), OptionsOf(Lines(m.body)))
  }

  /** The question of every match, in order. */
  function Parsed(ms: seq<QuestionMatch>): seq<Question> {
    seq(|ms|, i requires 0 <= i < |ms| => QuestionOf(ms[i]))
  }

  /** A match of the marker `^Q\s*(\d+)\.([A-F | a-f])`: where it starts and ends, its number and its letter. */
  datatype MarkerMatch = MarkerMatch(start: nat, end: nat, number: nat, letter: char)

  /** The matches lie in the text, in order, without overlapping, as `finditer` gives them. */
  predicate InOrder(text: string, ms: seq<MarkerMatch>) {
    (forall i :: 0 <= i < |ms| ==> ms[i].start <= ms[i].end <= |text|)
    && (forall i, j :: 0 <= i < j < |ms| ==> ms[i].end <= ms[j].start)
  }

  /** The first position from `p` on whose character fails `c` (or the end of the text). */
  function SkipWhile(text: string, p: nat, c: char -> bool): (q: nat)
    requires p <= |text|
    ensures p <= q <= |text|
    ensures q < |text| ==> !c(text[q])
    ensures forall k :: p <= k < q ==> c(text[k])
    decreases |text| - p
  {
    if p < |text| && c(text[p]) then SkipWhile(text, p + 1, c) else p
  }

  /** The letters `[A-F | a-f]` admits: A to F, a to f, ' ' and '|'. */
  predicate IsMarkerLetter(c: char) {
    'A' <= c <= 'F' || 'a' <= c <= 'f' || c == ' ' || c == '|'
  }

  /**
   * The marker pattern without its `^`: 'Q', blanks, digits, '.' and a
   * marker letter, from position `p`.
   */
  predicate MarkerAt(text: string, p: nat) {
    p < |text| && text[p] == 'Q' &&
    var q := SkipWhile(text, p + 1, IsSpace);
    var r := SkipWhile(text, q, IsDigit);
    q < r && r + 1 < |text| && text[r] == '.' && IsMarkerLetter(text[r + 1])
  }

  /**
   * Where the explanation after marker `i` ends: the first match of the
   * marker pattern in `text[end:]`. There `^` also holds at offset 0, so a
   * marker directly after this one ends it at once; otherwise it is the
   * next marker of the text, whatever its number, or the end of the text.
   */
  function ContentEnd(text: string, ms: seq<MarkerMatch>, i: nat): (e: nat)
    requires InOrder(text, ms) && i < |ms|
    ensures ms[i].end <= e <= |text|
  {
    if MarkerAt(text, ms[i].end) then ms[i].end
    else if i + 1 < |ms| then ms[i + 1].start else |text|
  }

  /** `_get_explanation_content`: the text between the marker and where it ends, stripped. */
  function Content(text: string, ms: seq<MarkerMatch>, i: nat): string
    requires InOrder(text, ms) && i < |ms|
  {
    Strip(text[ms[i].end..ContentEnd(text, ms, i)])
  }

  /** The explanation is one stretch of the text between its marker and the next, with no whitespace at either end. */
  lemma {:induction false} ContentSpec(text: string, ms: seq<MarkerMatch>, i: nat) returns (a: nat)
    requires InOrder(text, ms) && i < |ms|
    ensures var c := Content(text, ms, i);
      && ms[i].end <= a && a + |c| <= ContentEnd(text, ms, i)
      && c == text[a..a + |c|] && Strip(c) == c
  {
    var e := ContentEnd(text, ms, i);
    var region := text[ms[i].end..e];
    var k := StripIsSlice(region);
    var n := |Strip(region)|;
    a := ms[i].end + k;
    var inRegion, inText := region[k..k + n], text[a..a + n];
    forall p | 0 <= p < n ensures inRegion[p] == inText[p] {
      assert region[k + p] == text[ms[i].end + k + p];
    }
    assert inRegion == inText;
    StripIdempotent(region);
  }

  /** A marker written straight after another one, on the same line, cuts the first one's explanation to nothing. */
  lemma {:induction false} ContentAtMarker(text: string, ms: seq<MarkerMatch>, i: nat)
    requires InOrder(text, ms) && i < |ms| && MarkerAt(text, ms[i].end)
    ensures Content(text, ms, i) == []
  {
  }

  /** Otherwise the explanation runs to the next marker of the text, or to its end. */
  lemma {:induction false} ContentToNext(text: string, ms: seq<MarkerMatch>, i: nat)
    requires InOrder(text, ms) && i < |ms| && !MarkerAt(text, ms[i].end)
    ensures i + 1 < |ms| ==> Content(text, ms, i) == Strip(text[ms[i].end..ms[i + 1].start])
    ensures i + 1 == |ms| ==> Content(text, ms, i) == Strip(text[ms[i].end..])
  {
    assert text[ms[i].end..|text|] == text[ms[i].end..];
  }

  /**
   * In "Q1.AQ2.B rest" only "Q1.A" is a marker of the text (the second 'Q'
   * does not start a line), yet the tail search matches "Q2.B" at its
   * offset 0, so question 1's explanation is empty.
   */
  lemma {:induction false} ContentExample()
    ensures Content("Q1.AQ2.B rest", [MarkerMatch(0, 4, 1, 'A')], 0) == []
  {
    var text := "Q1.AQ2.B rest";
    assert SkipWhile(text, 6, IsDigit) == 6;
    assert SkipWhile(text, 5, IsDigit) == 6;
    assert SkipWhile(text, 5, IsSpace) == 5;
    assert MarkerAt(text, 4);
    ContentAtMarker(text, [MarkerMatch(0, 4, 1, 'A')], 0);
  }

  /** A stored explanation: the lowered answer letter and the content. */
  datatype Explanation = Explanation(number: nat, answer: string, explanation: string)

  function ExplanationNumber(e: Explanation): nat {
    e.number
  }

  /** The explanation of marker `i`. */
  function ExplanationOf(text: string, ms: seq<MarkerMatch>, i: nat): Explanation
    requires InOrder(text, ms) && i < |ms|
  {
    Explanation(ms[i].number, [Lower(ms[i].letter)], Content(text, ms, i))
  }

  /** The explanation of every marker, in order. */
  function Explained(text: string, ms: seq<MarkerMatch>): (es: seq<Explanation>)
    requires InOrder(text, ms)
    ensures |es| == |ms|
    ensures forall i :: 0 <= i < |ms| ==> es[i] == ExplanationOf(text, ms, i)
  {
    seq(|ms|, i requires 0 <= i < |ms| => ExplanationOf(text, ms, i))
  }

  /** A dict whose entries are each stored under their own number. */
  ghost predicate Numbered<V>(d: Dict<nat, V>, num: V -> nat) {
    d.Valid() && forall n :: n in d.values ==> num(d.values[n]) == n
  }

  /** Storing each value under its number, in order; a later value replaces an earlier one with the same number. */
  function PutAll<V>(d: Dict<nat, V>, vs: seq<V>, num: V -> nat): (r: Dict<nat, V>)
    requires d.Valid()
    ensures r.Valid()
  {
    if vs == [] then d
    else PutAll(d, vs[..|vs| - 1], num).Put(num(vs[|vs| - 1]), vs[|vs| - 1])
  }

  lemma {:induction false} PutAllSnoc<V>(d: Dict<nat, V>, vs: seq<V>, v: V, num: V -> nat)
    requires d.Valid()
    ensures PutAll(d, vs + [v], num) == PutAll(d, vs, num).Put(num(v), v)
  {
    assert (vs + [v])[..|vs|] == vs;
  }

  /** Storing values with numbers all new and all different lists them after the old keys, in order. */
  lemma {:induction false} PutAllNew<V>(d: Dict<nat, V>, vs: seq<V>, num: V -> nat)
    requires d.Valid()
    requires forall i :: 0 <= i < |vs| ==> num(vs[i]) !in d.keys
    requires forall i, j :: 0 <= i < j < |vs| ==> num(vs[i]) != num(vs[j])
    ensures PutAll(d, vs, num).keys == d.keys + Dedup.Keys(vs, num)
  {
    if vs != [] {
      var init, v := vs[..|vs| - 1], vs[|vs| - 1];
      PutAllNew(d, init, num);
      var ks := Dedup.Keys(init, num);
      assert forall i :: 0 <= i < |ks| ==> ks[i] == num(init[i]) != num(v);
      assert num(v) !in PutAll(d, init, num).keys;
      assert Dedup.Keys(vs, num) == ks + [num(v)];
    }
  }

  /** A row of `get_mcqs`; `answer` and `explanation` are `None` when the number has no explanation. */
  datatype Row = Row(number: nat, question: string, a: string, b: string, c: string, d: string,
                     source: string, answer: Option<string>, explanation: Option<string>)

  /** `question.get(letter, "")` for the `i`-th option letter. */
  function OptionAt(q: Question, i: nat): string {
    if i < |q.options| then q.options[i] else []
  }

  function RowNumber(r: Row): nat {
    r.number
  }

  function RowOf(q: Question, es: map<nat, Explanation>, source: string): Row {
    Row(q.number, q.text, OptionAt(q, 0), OptionAt(q, 1), OptionAt(q, 2), OptionAt(q, 3), source,
        if q.number in es then Some(es[q.number].answer) else None,
        if q.number in es then Some(es[q.number].explanation) else None)
  }

  /** The rows for the given keys of the question dict, in order. */
  function RowsOf(keys: seq<nat>, qs: map<nat, Question>, es: map<nat, Explanation>, source: string): (rows: seq<Row>)
    requires forall k :: k in keys ==> k in qs
    ensures |rows| == |keys|
    ensures forall i :: 0 <= i < |keys| ==> rows[i] == RowOf(qs[keys[i]], es, source)
  {
    if keys == [] then [] else RowsOf(keys[..|keys| - 1], qs, es, source) + [RowOf(qs[keys[|keys| - 1]], es, source)]
  }

  /**
   * A row carries its key's number, question and options a to d ('' when
   * missing); answer and explanation are present exactly when that number
   * has an explanation.
   */
  lemma {:induction false} RowsSpec(keys: seq<nat>, qs: map<nat, Question>, es: map<nat, Explanation>, source: string, i: nat)
    requires forall k :: k in keys ==> k in qs
    requires forall k :: k in qs ==> qs[k].number == k
    requires i < |keys|
    ensures var r := RowsOf(keys, qs, es, source)[i];
      && r.number == keys[i] && r.question == qs[keys[i]].text && r.source == source
      && (|qs[keys[i]].options| > 0 ==> r.a == qs[keys[i]].options[0])
      && (|qs[keys[i]].options| == 0 ==> r.a == [])
      && (r.answer.Some? <==> keys[i] in es) && (r.explanation.Some? <==> keys[i] in es)
      && (keys[i] in es ==> r.answer == Some(es[keys[i]].answer) && r.explanation == Some(es[keys[i]].explanation))
  {
  }

  /**
   * The loop both passes share: each value whose number the filter accepts is
   * stored under that number and becomes the counter; the others are skipped.
   */
  method StoreConsecutive<V>(d: Dict<nat, V>, vs: seq<V>, num: V -> nat) returns (r: Dict<nat, V>)
    requires d.Valid()
    ensures r == PutAll(d, Kept(vs, num), num)
    ensures Numbered(d, num) ==> Numbered(r, num)
  {
    var last := 0;
    var i := 0;
    r := d;
    while i < |vs|
      invariant 0 <= i <= |vs| && r.Valid()
      invariant last == Counter(vs[..i], num)
      invariant r == PutAll(d, Kept(vs[..i], num), num)
      invariant Numbered(d, num) ==> Numbered(r, num)
    {
      KeptStep(vs, i, num);
      PutAllSnoc(d, Kept(vs[..i], num), vs[i], num);
      var n := num(vs[i]);
      if n == last + 1 || last == 0 {
        r := r.Put(n, vs[i]);
        last := n;
      }
      i := i + 1;
    }
    assert vs[..|vs|] == vs;
  }

  // ---------------------------------------------------------------------------
  // the extractor

  /** `GenericMCQExtractor`. */
  class Extractor {
    var text: string
    var questions: Dict<nat, Question>
    var explanations: Dict<nat, Explanation>
    var mcqs: seq<Row>

    /** Every question and explanation is stored under its own number. */
    ghost predicate Valid()
      reads this
    {
      Numbered(questions, QuestionNumber) && Numbered(explanations, ExplanationNumber)
    }

    constructor ()
      ensures Valid()
      ensures text == [] && questions == Empty() && explanations == Empty() && mcqs == []
    {
      text := [];
      questions := Empty();
      explanations := Empty();
      mcqs := [];
    }

    /** `process_questions`: the kept matches' questions are stored by number. */
    method ProcessQuestions(ms: seq<QuestionMatch>)
      requires Valid()
      modifies this
      ensures Valid()
      ensures questions == PutAll(old(questions), Kept(Parsed(ms), QuestionNumber), QuestionNumber)
      ensures text == old(text) && explanations == old(explanations) && mcqs == old(mcqs)
    {
      questions := StoreConsecutive(questions, Parsed(ms), QuestionNumber);
    }

    /** `process_explanation`: the kept markers' answers and explanations are stored by number. */
    method ProcessExplanation(ms: seq<MarkerMatch>)
      requires Valid() && InOrder(text, ms)
      modifies this
      ensures text == old(text) && questions == old(questions) && mcqs == old(mcqs)
      ensures Valid()
      ensures explanations == PutAll(old(explanations), Kept(Explained(text, ms), ExplanationNumber), ExplanationNumber)
    {
      explanations := StoreConsecutive(explanations, Explained(text, ms), ExplanationNumber);
    }

    /** `get_mcqs`: one row per stored question, in the dict's order. */
    method GetMcqs(source: string)
      requires Valid()
      modifies this
      ensures Valid()
      ensures mcqs == RowsOf(questions.keys, questions.values, explanations.values, source)
      ensures text == old(text) && questions == old(questions) && explanations == old(explanations)
    {
      mcqs := RowsOf(questions.keys, questions.values, explanations.values, source);
    }

    /** `run`: questions, then explanations, then rows, over the extracted text. */
    method Run(source: string, extracted: string, questionMatches: seq<QuestionMatch>, markers: seq<MarkerMatch>)
      requires Valid() && InOrder(extracted, markers)
      modifies this
      ensures Valid() && text == extracted
      ensures questions == PutAll(old(questions), Kept(Parsed(questionMatches), QuestionNumber), QuestionNumber)
      ensures explanations == PutAll(old(explanations), Kept(Explained(extracted, markers), ExplanationNumber), ExplanationNumber)
      ensures mcqs == RowsOf(questions.keys, questions.values, explanations.values, source)
    {
      text := extracted;
      ProcessQuestions(questionMatches);
      ProcessExplanation(markers);
      GetMcqs(source);
    }
  }

  /** With no match numbered 0, no two kept matches share a number. */
  lemma {:induction false} KeptDistinct<T>(xs: seq<T>, num: T -> nat)
    requires forall i :: 0 <= i < |xs| ==> num(xs[i]) != 0
    ensures forall a, b :: 0 <= a < b < |Kept(xs, num)| ==> num(Kept(xs, num)[a]) != num(Kept(xs, num)[b])
  {
    KeptConsecutive(xs, num);
    ConsecutiveDistinct(Kept(xs, num), num);
  }

  /**
   * On a fresh extractor, with no question numbered 0, the rows follow the
   * kept questions one to one, in text order, and their numbers run
   * consecutively.
   */
  lemma {:induction false} FreshRows(ms: seq<QuestionMatch>, es: map<nat, Explanation>, source: string)
    requires forall i :: 0 <= i < |ms| ==> ms[i].number != 0
    ensures var kept := Kept(Parsed(ms), QuestionNumber);
      var d := PutAll(Empty(), kept, QuestionNumber);
      var rows := RowsOf(d.keys, d.values, es, source);
      && d.keys == Dedup.Keys(kept, QuestionNumber)
      && |rows| == |kept|
      && (forall i :: 0 <= i < |kept| ==> rows[i] == RowOf(kept[i], es, source))
      && Consecutive(Dedup.Keys(rows, RowNumber))
  {
    var qs := Parsed(ms);
    assert forall i :: 0 <= i < |qs| ==> QuestionNumber(qs[i]) != 0;
    KeptConsecutive(qs, QuestionNumber);
    FreshRowsOf(Kept(qs, QuestionNumber), es, source);
  }

  /** The rows of a fresh dict filled with consecutively numbered questions follow those questions. */
  lemma {:induction false} FreshRowsOf(kept: seq<Question>, es: map<nat, Explanation>, source: string)
    requires Consecutive(Dedup.Keys(kept, QuestionNumber))
    ensures var d := PutAll(Empty(), kept, QuestionNumber);
      var rows := RowsOf(d.keys, d.values, es, source);
      && d.keys == Dedup.Keys(kept, QuestionNumber)
      && |rows| == |kept|
      && (forall i :: 0 <= i < |kept| ==> rows[i] == RowOf(kept[i], es, source))
      && Dedup.Keys(rows, RowNumber) == Dedup.Keys(kept, QuestionNumber)
  {
    FreshDict(kept);
    var d := PutAll(Empty(), kept, QuestionNumber);
    RowsFollow(d.keys, d.values, es, source, kept);
  }

  /** A fresh dict filled with consecutively numbered questions lists their numbers in order and maps each to its question. */
  lemma {:induction false} FreshDict(kept: seq<Question>)
    requires Consecutive(Dedup.Keys(kept, QuestionNumber))
    ensures var d := PutAll(Empty(), kept, QuestionNumber);
      && d.keys == Dedup.Keys(kept, QuestionNumber)
      && forall i :: 0 <= i < |kept| ==> d.keys[i] in d.values && d.values[d.keys[i]] == kept[i]
  {
    var e: Dict<nat, Question> := Empty();
    var ns := Dedup.Keys(kept, QuestionNumber);
    ConsecutiveDistinct(kept, QuestionNumber);
    PutAllNew(e, kept, QuestionNumber);
    StoredAll(e, kept, QuestionNumber);
    var d := PutAll(e, kept, QuestionNumber);
    assert d.keys == ns by {
      assert e.keys + ns == ns;
    }
    forall i | 0 <= i < |kept| ensures d.keys[i] in d.values && d.values[d.keys[i]] == kept[i] {
      assert d.keys[i] == QuestionNumber(kept[i]);
    }
  }

  /** Consecutively numbered values have different numbers. */
  lemma {:induction false} ConsecutiveDistinct<T>(xs: seq<T>, num: T -> nat)
    requires Consecutive(Dedup.Keys(xs, num))
    ensures forall a, b :: 0 <= a < b < |xs| ==> num(xs[a]) != num(xs[b])
  {
    var ns := Dedup.Keys(xs, num);
    forall a, b | 0 <= a < b < |xs| ensures num(xs[a]) != num(xs[b]) {
      assert ns[a] == ns[0] + a && ns[b] == ns[0] + b;
    }
  }

  /** With all numbers different, every value is stored under its number. */
  lemma {:induction false} StoredAll<V>(d: Dict<nat, V>, vs: seq<V>, num: V -> nat)
    requires d.Valid()
    requires forall a, b :: 0 <= a < b < |vs| ==> num(vs[a]) != num(vs[b])
    ensures forall i :: 0 <= i < |vs| ==> num(vs[i]) in PutAll(d, vs, num).values && PutAll(d, vs, num).values[num(vs[i])] == vs[i]
  {
    forall i | 0 <= i < |vs| ensures num(vs[i]) in PutAll(d, vs, num).values && PutAll(d, vs, num).values[num(vs[i])] == vs[i] {
      KeptStored(d, vs, num, i);
    }
  }

  /** Rows for keys that look up the given questions follow those questions. */
  lemma {:induction false} RowsFollow(keys: seq<nat>, qs: map<nat, Question>, es: map<nat, Explanation>, source: string, kept: seq<Question>)
    requires forall k :: k in keys ==> k in qs
    requires |keys| == |kept| && forall i :: 0 <= i < |keys| ==> qs[keys[i]] == kept[i]
    ensures forall i :: 0 <= i < |kept| ==> RowsOf(keys, qs, es, source)[i] == RowOf(kept[i], es, source)
    ensures Dedup.Keys(RowsOf(keys, qs, es, source), RowNumber) == Dedup.Keys(kept, QuestionNumber)
  {
    var rows := RowsOf(keys, qs, es, source);
    forall i | 0 <= i < |kept| ensures rows[i].number == kept[i].number {
      assert rows[i] == RowOf(kept[i], es, source);
    }
  }

  /** With all numbers different, each value is what its number maps to. */
  lemma {:induction false} KeptStored<V>(d: Dict<nat, V>, vs: seq<V>, num: V -> nat, i: nat)
    requires d.Valid() && i < |vs|
    requires forall a, b :: 0 <= a < b < |vs| ==> num(vs[a]) != num(vs[b])
    ensures num(vs[i]) in PutAll(d, vs, num).values
    ensures PutAll(d, vs, num).values[num(vs[i])] == vs[i]
  {
    var n := |vs| - 1;
    if i < n {
      KeptStored(d, vs[..n], num, i);
    }
  }
}
