/**
 * The agriculture previous-year-question parser
 * (`src/recipes/agriculture/krushna_pyq.py`): the text is cut into units at
 * `UNIT-n title` lines, each unit into sub-units at `d.d title` headings, and
 * each sub-unit's text into numbered questions with their marks, word limit,
 * exam and year.
 *
 * The regex engine is an input: `findUnits`, `findSubunits` and `findQuestions`
 * give the matches of the three patterns, with their spans and groups.
 */
module Krushna {
  import opened Wrappers
  import opened Text
  import Dedup

  // ---------------------------------------------------------------------------
  // Headings and the text after them

  /** A heading match: its span and its two groups, the number and the title. */
  datatype Heading = Heading(start: nat, end: nat, number: string, title: string)

  /** A `(number, title, text)` triple. */
  datatype Section = Section(number: string, title: string, content: string)

  /** The text after heading `i` runs to the next heading, or to the end. */
  function BodyEnd(text: string, hs: seq<Heading>, i: nat): nat
    requires i < |hs|
  {
    if i + 1 < |hs| then hs[i + 1].start else |text|
  }

  function Body(text: string, hs: seq<Heading>, i: nat): string
    requires i < |hs|
  {
    PySlice(text, hs[i].end, BodyEnd(text, hs, i))
  }

  /** What the regex engine guarantees: spans inside the text, one after the other. */
  predicate Ordered(text: string, hs: seq<Heading>) {
    (forall i :: 0 <= i < |hs| ==> hs[i].start <= hs[i].end <= |text|)
    && (forall i, j :: 0 <= i < j < |hs| ==> hs[i].end <= hs[j].start)
  }

  /** The heading's own text followed by its body. */
  function HeadedBody(text: string, hs: seq<Heading>, i: nat): string
    requires i < |hs|
  {
    PySlice(text, hs[i].start, hs[i].end) + Body(text, hs, i)
  }

  function HeadedBodies(text: string, hs: seq<Heading>): (r: seq<string>)
    ensures |r| == |hs| && forall i :: 0 <= i < |hs| ==> r[i] == HeadedBody(text, hs, i)
  {
    seq(|hs|, i requires 0 <= i < |hs| => HeadedBody(text, hs, i))
  }

  lemma {:induction false} TilePrefix(text: string, hs: seq<Heading>, k: nat)
    requires Ordered(text, hs) && 1 <= k <= |hs|
    ensures hs[0].start <= BodyEnd(text, hs, k - 1) <= |text|
    ensures Concat(HeadedBodies(text, hs)[..k]) == text[hs[0].start..BodyEnd(text, hs, k - 1)]
  {
    var parts := HeadedBodies(text, hs);
    var s, a, c := hs[0].start, hs[k - 1].start, BodyEnd(text, hs, k - 1);
    HeadedBodySpan(text, hs, k - 1);
    ConcatPrefix(parts, k);
    if k == 1 {
      assert parts[..0] == [];
    } else {
      TilePrefix(text, hs, k - 1);
      assert s <= hs[0].end <= a;
      SliceJoin(text, s, a, c);
    }
  }

  /** A heading with its body is the text from the heading's start to the next heading. */
  lemma {:induction false} HeadedBodySpan(text: string, hs: seq<Heading>, i: nat)
    requires Ordered(text, hs) && i < |hs|
    ensures hs[i].start <= BodyEnd(text, hs, i) <= |text|
    ensures HeadedBody(text, hs, i) == text[hs[i].start..BodyEnd(text, hs, i)]
  {
    var a, b, c := hs[i].start, hs[i].end, BodyEnd(text, hs, i);
    assert text[a..b] + text[b..c] == text[a..c];
  }

  /**
   * From the first heading on, headings and bodies tile the text: the bodies
   * lose nothing but what comes before the first heading.
   */
  lemma {:induction false} BodiesTile(text: string, hs: seq<Heading>)
    requires Ordered(text, hs) && hs != []
    ensures Concat(HeadedBodies(text, hs)) == text[hs[0].start..]
  {
    TilePrefix(text, hs, |hs|);
    assert HeadedBodies(text, hs)[..|hs|] == HeadedBodies(text, hs);
  }

  // ---------------------------------------------------------------------------
  // split_units

  /** The groups and pieces `re.split` yields from heading `i` on: number, title, body, and so on. */
  function SplitFrom(text: string, hs: seq<Heading>, i: nat): (r: seq<string>)
    requires i <= |hs|
    ensures |r| == 3 * (|hs| - i)
    decreases |hs| - i
  {
    if i == |hs| then [] else [hs[i].number, hs[i].title, Body(text, hs, i)] + SplitFrom(text, hs, i + 1)
  }

  /** `re.split(r"\nUNIT-(\d+) (.+)\n", text)`: the text before the first heading, then three items per heading. */
  function ReSplit(text: string, hs: seq<Heading>): (r: seq<string>)
    ensures |r| == 1 + 3 * |hs|
  {
    [PySlice(text, 0, if hs == [] then |text| else hs[0].start)] + SplitFrom(text, hs, 0)
  }

  /** `split_units`: the split list without its head, read three items at a time, the title stripped. */
  function SplitUnits(text: string, hs: seq<Heading>): seq<Section> {
    var u := ReSplit(text, hs)[1..];
    seq(|u| / 3, k requires 0 <= k < |u| / 3 => Section(u[3 * k], Strip(u[3 * k + 1]), u[3 * k + 2]))
  }

  lemma {:induction false} SplitFromAt(text: string, hs: seq<Heading>, i: nat, k: nat)
    requires i <= k < |hs|
    ensures var r := SplitFrom(text, hs, i);
      r[3 * (k - i)] == hs[k].number && r[3 * (k - i) + 1] == hs[k].title && r[3 * (k - i) + 2] == Body(text, hs, k)
    decreases k - i
  {
    if i < k {
      SplitFromAt(text, hs, i + 1, k);
    }
  }

  /**
   * One unit per heading, in order: its number, its stripped title and the
   * unstripped text up to the next heading; the text before the first heading
   * is dropped.
   */
  lemma {:induction false} SplitUnitsSpec(text: string, hs: seq<Heading>)
    ensures |SplitUnits(text, hs)| == |hs|
    ensures forall k :: 0 <= k < |hs| ==>
      SplitUnits(text, hs)[k] == Section(hs[k].number, Strip(hs[k].title), Body(text, hs, k))
  {
    var units := SplitUnits(text, hs);
    assert |ReSplit(text, hs)[1..]| / 3 == |hs|;
    forall k | 0 <= k < |hs|
      ensures units[k] == Section(hs[k].number, Strip(hs[k].title), Body(text, hs, k))
    {
      SplitFromAt(text, hs, 0, k);
    }
  }

  // ---------------------------------------------------------------------------
  // split_subunits

  /** Sub-unit `i`: number, stripped title and the stripped text up to the next heading. */
  function SubunitAt(content: string, hs: seq<Heading>, i: nat): Section
    requires i < |hs|
  {
    Section(hs[i].number, Strip(hs[i].title), Strip(Body(content, hs, i)))
  }

  function Subunits(content: string, hs: seq<Heading>): (r: seq<Section>)
    ensures |r| == |hs|
  {
    seq(|hs|, i requires 0 <= i < |hs| => SubunitAt(content, hs, i))
  }

  /** `split_subunits`, as the loop that builds the list. */
  method SplitSubunits(content: string, hs: seq<Heading>) returns (subunits: seq<Section>)
    ensures subunits == Subunits(content, hs)
  {
    subunits := [];
    var i := 0;
    while i < |hs|
      invariant 0 <= i <= |hs|
      invariant subunits == Subunits(content, hs)[..i]
    {
      var startIndex := hs[i].end;
      var endIndex := if i + 1 < |hs| then hs[i + 1].start else |content|;
      Dedup.PrefixStep(Subunits(content, hs), i);
      subunits := subunits + [Section(hs[i].number, Strip(hs[i].title), Strip(PySlice(content, startIndex, endIndex)))];
      i := i + 1;
    }
    assert Subunits(content, hs)[..i] == Subunits(content, hs);
  }

  /** Each sub-unit's text is its body with the edges stripped, and the bodies tile the unit. */
  lemma {:induction false} SubunitsSpec(content: string, hs: seq<Heading>)
    requires Ordered(content, hs) && hs != []
    ensures forall i :: 0 <= i < |hs| ==> Subunits(content, hs)[i].content == Strip(Body(content, hs, i))
    ensures Concat(HeadedBodies(content, hs)) == content[hs[0].start..]
  {
    BodiesTile(content, hs);
  }

  // ---------------------------------------------------------------------------
  // extract_questions

  /**
   * A match of the question pattern: its span, the number, the first line, and
   * the optional groups for marks, words, exam and year.
   */
  datatype QuestionMatch = QuestionMatch(
    start: nat, end: nat, number: string, firstLine: string,
    marks: Option<string>, words: Option<string>, exam: Option<string>, year: Option<string>)

  datatype Question = Question(
    unit: string, subUnit: string, questionNo: nat, question: string,
    marks: Option<nat>, words: Option<nat>, exam: Option<string>, year: Option<nat>)

  /** A group that took part in the match with some text (`if match.group(n)`). */
  predicate Present(g: Option<string>) {
    g.Some? && g.value != []
  }

  /** `int(g) if g else None` */
  function IntGroup(g: Option<string>): (r: Option<nat>)
    ensures r.Some? <==> Present(g)
  {
    if Present(g) then Some(DigitsValue(g.value)) else None
  }

  /** `g if g else None` */
  function TextGroup(g: Option<string>): (r: Option<string>)
    ensures r.Some? <==> Present(g)
    ensures r.Some? ==> r == g
  {
    if Present(g) then g else None
  }

  /** Where the question after match `i` starts: the next match, or the end of the text. */
  function NextStart(text: string, ms: seq<QuestionMatch>, i: nat): nat
    requires i < |ms|
  {
    if i + 1 < |ms| then ms[i + 1].start else |text|
  }

  /** The first line and the rest of the question, joined with no separator and stripped. */
  function FullQuestion(firstLine: string, rest: string): string {
    Strip(Strip(firstLine) + Strip(rest))
  }

  /** When the first line has text, the question is the stripped first line followed directly by the stripped rest. */
  lemma {:induction false} FullQuestionJoin(firstLine: string, rest: string)
    requires !IsBlank(firstLine)
    ensures FullQuestion(firstLine, rest) == Strip(firstLine) + Strip(rest)
  {
    var a, b := Strip(firstLine), Strip(rest);
    var ab := a + b;
    assert ab[0] == a[0];
    assert ab[|ab| - 1] == if b == [] then a[|a| - 1] else b[|b| - 1];
    StripNoEdgeSpace(ab);
  }

  function QuestionAt(unit: string, subUnit: string, text: string, ms: seq<QuestionMatch>, i: nat): Question
    requires i < |ms|
  {
    var m := ms[i];
    var rest := PySlice(text, m.end, NextStart(text, ms, i));
    Question(unit, subUnit, DigitsValue(m.number), FullQuestion(m.firstLine, rest),
      IntGroup(m.marks), IntGroup(m.words), TextGroup(m.exam), IntGroup(m.year))
  }

  /**
   * Each record carries its unit and sub-unit; marks, words and year are numbers
   * exactly when their groups matched; the exam is the matched `CSE` or `IFoS`
   * or nothing; and the question text is stripped.
   */
  lemma {:induction false} QuestionAtSpec(unit: string, subUnit: string, text: string, ms: seq<QuestionMatch>, i: nat)
    requires i < |ms|
    requires ms[i].exam.Some? ==> ms[i].exam.value in ["CSE", "IFoS"]
    ensures var q := QuestionAt(unit, subUnit, text, ms, i);
      && q.unit == unit && q.subUnit == subUnit
      && (q.marks.Some? <==> Present(ms[i].marks)) && (q.words.Some? <==> Present(ms[i].words))
      && (q.year.Some? <==> Present(ms[i].year))
      && (q.exam == None || q.exam == Some("CSE") || q.exam == Some("IFoS"))
      && Strip(q.question) == q.question
  {
    StripIdempotent(Strip(ms[i].firstLine) + Strip(PySlice(text, ms[i].end, NextStart(text, ms, i))));
  }

  /** The records of one sub-unit, in match order. */
  function QuestionsOf(unit: string, subUnit: string, text: string, ms: seq<QuestionMatch>): (qs: seq<Question>)
    ensures |qs| == |ms|
  {
    seq(|ms|, i requires 0 <= i < |ms| => QuestionAt(unit, subUnit, text, ms, i))
  }

  /** The records of a unit's sub-units, sub-unit after sub-unit. */
  function SubunitQuestions(unit: string, subs: seq<Section>, findQuestions: string -> seq<QuestionMatch>): seq<Question> {
    if subs == [] then []
    else
      var last := subs[|subs| - 1];
      SubunitQuestions(unit, subs[..|subs| - 1], findQuestions)
      + QuestionsOf(unit, last.title, last.content, findQuestions(last.content))
  }

  /** The sub-units of a unit. */
  function SubunitsOf(unit: Section, findSubunits: string -> seq<Heading>): seq<Section> {
    Subunits(unit.content, findSubunits(unit.content))
  }

  /** The records of the units, unit after unit. */
  function UnitQuestions(units: seq<Section>, findSubunits: string -> seq<Heading>,
                         findQuestions: string -> seq<QuestionMatch>): seq<Question> {
    if units == [] then []
    else
      var last := units[|units| - 1];
      UnitQuestions(units[..|units| - 1], findSubunits, findQuestions)
      + SubunitQuestions(last.title, SubunitsOf(last, findSubunits), findQuestions)
  }

  /** `parse_questions` on a text. */
  function Parsed(text: string, findUnits: string -> seq<Heading>, findSubunits: string -> seq<Heading>,
                  findQuestions: string -> seq<QuestionMatch>): seq<Question> {
    UnitQuestions(SplitUnits(text, findUnits(text)), findSubunits, findQuestions)
  }

  /** Every record of a unit names that unit and one of its sub-units. */
  lemma {:induction false} SubunitQuestionsTagged(unit: string, subs: seq<Section>, findQuestions: string -> seq<QuestionMatch>)
    ensures forall k :: 0 <= k < |SubunitQuestions(unit, subs, findQuestions)| ==>
      SubunitQuestions(unit, subs, findQuestions)[k].unit == unit
      && exists j :: 0 <= j < |subs| && SubunitQuestions(unit, subs, findQuestions)[k].subUnit == subs[j].title
  {
    if subs != [] {
      var n := |subs| - 1;
      var init := subs[..n];
      SubunitQuestionsTagged(unit, init, findQuestions);
      var front: seq<Question> := SubunitQuestions(unit, init, findQuestions);
      var back: seq<Question> := QuestionsOf(unit, subs[n].title, subs[n].content, findQuestions(subs[n].content));
      forall k | 0 <= k < |front| + |back|
        ensures (front + back)[k].unit == unit
        ensures exists j :: 0 <= j < |subs| && (front + back)[k].subUnit == subs[j].title
      {
        if k < |front| {
          var j :| 0 <= j < |init| && front[k].subUnit == init[j].title;
          assert subs[j] == init[j];
        } else {
          assert back[k - |front|].subUnit == subs[n].title;
        }
      }
    }
  }

  /** `q` names one of the units and one of that unit's sub-units. */
  predicate TaggedBy(q: Question, units: seq<Section>, findSubunits: string -> seq<Heading>) {
    exists u :: 0 <= u < |units| && q.unit == units[u].title
      && (exists j :: 0 <= j < |SubunitsOf(units[u], findSubunits)| && q.subUnit == SubunitsOf(units[u], findSubunits)[j].title)
  }

  /** Every record names one of the units and one of that unit's sub-units. */
  lemma {:induction false} UnitQuestionsTagged(units: seq<Section>, findSubunits: string -> seq<Heading>,
                                               findQuestions: string -> seq<QuestionMatch>)
    ensures forall k :: 0 <= k < |UnitQuestions(units, findSubunits, findQuestions)| ==>
      TaggedBy(UnitQuestions(units, findSubunits, findQuestions)[k], units, findSubunits)
  {
    if units != [] {
      var n := |units| - 1;
      var init := units[..n];
      UnitQuestionsTagged(init, findSubunits, findQuestions);
      var front: seq<Question> := UnitQuestions(init, findSubunits, findQuestions);
      var subs := SubunitsOf(units[n], findSubunits);
      var back: seq<Question> := SubunitQuestions(units[n].title, subs, findQuestions);
      SubunitQuestionsTagged(units[n].title, subs, findQuestions);
      forall k | 0 <= k < |front| + |back|
        ensures TaggedBy((front + back)[k], units, findSubunits)
      {
        if k < |front| {
          TaggedPrefix(front[k], units, n, findSubunits);
        } else {
          TaggedLast(back[k - |front|], units, findSubunits);
        }
      }
    }
  }

  lemma {:induction false} TaggedPrefix(q: Question, units: seq<Section>, n: nat, findSubunits: string -> seq<Heading>)
    requires n <= |units| && TaggedBy(q, units[..n], findSubunits)
    ensures TaggedBy(q, units, findSubunits)
  {
    var init := units[..n];
    var u :| 0 <= u < |init| && q.unit == init[u].title
      && (exists j :: 0 <= j < |SubunitsOf(init[u], findSubunits)| && q.subUnit == SubunitsOf(init[u], findSubunits)[j].title);
    assert units[u] == init[u];
  }

  lemma {:induction false} TaggedLast(q: Question, units: seq<Section>, findSubunits: string -> seq<Heading>)
    requires units != []
    requires var last := units[|units| - 1];
      q.unit == last.title
      && exists j :: 0 <= j < |SubunitsOf(last, findSubunits)| && q.subUnit == SubunitsOf(last, findSubunits)[j].title
    ensures TaggedBy(q, units, findSubunits)
  {
  }

  lemma {:induction false} SubunitQuestionsStep(unit: string, subs: seq<Section>, i: nat, findQuestions: string -> seq<QuestionMatch>)
    requires i < |subs|
    ensures SubunitQuestions(unit, subs[..i + 1], findQuestions)
      == SubunitQuestions(unit, subs[..i], findQuestions)
         + QuestionsOf(unit, subs[i].title, subs[i].content, findQuestions(subs[i].content))
  {
    assert subs[..i + 1][..i] == subs[..i];
  }

  lemma {:induction false} UnitQuestionsStep(units: seq<Section>, i: nat, findSubunits: string -> seq<Heading>,
                          findQuestions: string -> seq<QuestionMatch>)
    requires i < |units|
    ensures UnitQuestions(units[..i + 1], findSubunits, findQuestions)
      == UnitQuestions(units[..i], findSubunits, findQuestions)
         + SubunitQuestions(units[i].title, SubunitsOf(units[i], findSubunits), findQuestions)
  {
    assert units[..i + 1][..i] == units[..i];
  }

  /**
   * `QuestionParser`: the records accumulate in the `questions` field. The
   * `unit` and `sub_unit` fields are set at construction and never changed.
   */
  class QuestionParser {
    var text: string
    var unit: string
    var subUnit: string
    var questions: seq<Question>

    constructor(text: string)
      ensures this.text == text && unit == [] && subUnit == [] && questions == []
    {
      this.text := text;
      unit := [];
      subUnit := [];
      questions := [];
    }

    /** `extract_questions`: a local list of the sub-unit's records, then `extend`. */
    method ExtractQuestions(unitTitle: string, subUnitTitle: string, questionsText: string, ms: seq<QuestionMatch>)
      modifies this
      ensures questions == old(questions) + QuestionsOf(unitTitle, subUnitTitle, questionsText, ms)
      ensures text == old(text)
    {
      var found: seq<Question> := [];
      var i := 0;
      while i < |ms|
        invariant 0 <= i <= |ms|
        invariant found == QuestionsOf(unitTitle, subUnitTitle, questionsText, ms)[..i]
        invariant questions == old(questions) && text == old(text)
      {
        var m := ms[i];
        var startIdx := m.end;
        var endIdx := if i + 1 < |ms| then ms[i + 1].start else |questionsText|;
        var fullQuestionText := Strip(PySlice(questionsText, startIdx, endIdx));
        var fullQuestion := Strip(Strip(m.firstLine) + fullQuestionText);
        Dedup.PrefixStep(QuestionsOf(unitTitle, subUnitTitle, questionsText, ms), i);
        found := found + [Question(unitTitle, subUnitTitle, DigitsValue(m.number), fullQuestion,
          IntGroup(m.marks), IntGroup(m.words), TextGroup(m.exam), IntGroup(m.year))];
        i := i + 1;
      }
      assert QuestionsOf(unitTitle, subUnitTitle, questionsText, ms)[..i] == QuestionsOf(unitTitle, subUnitTitle, questionsText, ms);
      questions := questions + found;
    }

    /** The inner loop of `parse_questions`: every sub-unit of one unit. */
    method ExtractUnit(unitTitle: string, subunits: seq<Section>, findQuestions: string -> seq<QuestionMatch>)
      modifies this
      ensures questions == old(questions) + SubunitQuestions(unitTitle, subunits, findQuestions)
      ensures text == old(text)
    {
      var i := 0;
      while i < |subunits|
        invariant 0 <= i <= |subunits|
        invariant questions == old(questions) + SubunitQuestions(unitTitle, subunits[..i], findQuestions)
        invariant text == old(text)
      {
        ghost var done := SubunitQuestions(unitTitle, subunits[..i], findQuestions);
        var sub := subunits[i];
        var ms := findQuestions(sub.content);
        SubunitQuestionsStep(unitTitle, subunits, i, findQuestions);
        ExtractQuestions(unitTitle, sub.title, sub.content, ms);
        Dedup.AppendAssoc(old(questions), done, QuestionsOf(unitTitle, sub.title, sub.content, ms));
        i := i + 1;
      }
      assert subunits[..i] == subunits;
    }

    /** `parse_questions`: unit after unit, sub-unit after sub-unit, question after question. */
    method ParseQuestions(text: string, findUnits: string -> seq<Heading>, findSubunits: string -> seq<Heading>,
                          findQuestions: string -> seq<QuestionMatch>)
      modifies this
      ensures questions == old(questions) + Parsed(text, findUnits, findSubunits, findQuestions)
      ensures this.text == old(this.text)
    {
      var units := SplitUnits(text, findUnits(text));
      var i := 0;
      while i < |units|
        invariant 0 <= i <= |units|
        invariant questions == old(questions) + UnitQuestions(units[..i], findSubunits, findQuestions)
        invariant this.text == old(this.text)
      {
        ghost var done := UnitQuestions(units[..i], findSubunits, findQuestions);
        var unit := units[i];
        var subunits := SplitSubunits(unit.content, findSubunits(unit.content));
        UnitQuestionsStep(units, i, findSubunits, findQuestions);
        ExtractUnit(unit.title, subunits, findQuestions);
        Dedup.AppendAssoc(old(questions), done, SubunitQuestions(unit.title, subunits, findQuestions));
        i := i + 1;
      }
      assert units[..i] == units;
    }

    /** `parse`: `parse_questions` on the stored text. */
    method Parse(findUnits: string -> seq<Heading>, findSubunits: string -> seq<Heading>,
                 findQuestions: string -> seq<QuestionMatch>)
      modifies this
      ensures questions == old(questions) + Parsed(text, findUnits, findSubunits, findQuestions)
      ensures text == old(text)
    {
      ParseQuestions(text, findUnits, findSubunits, findQuestions);
    }
  }
}
