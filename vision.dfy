/**
 * The Vision IAS test-paper extractor (`vision.py`): the same consecutive
 * question and explanation passes as the generic extractor, with the
 * question text stripped and cut at the page footer, and rows of only the
 * question, option a, answer and explanation.
 *
 * The regular expressions are inputs, as in `Kiran`; the debugging `print`
 * of the question after number 21 is left out.
 */
module Vision {
  import opened Wrappers
  import opened Text
  import opened PyDict
  import Kiran
  import Dedup

  /** The footer printed on every page of the papers. */
  const Copyright: string := "Copyright \U{00A9} by Vision IAS"

  /** An occurrence in a slice is an occurrence in the text, shifted by where the slice starts. */
  lemma {:induction false} OccursInSlice(s: string, sep: string, a: nat, b: nat, j: nat)
    requires a <= b <= |s| && OccursAt(s[a..b], sep, j)
    ensures OccursAt(s, sep, a + j)
  {
    var t := s[a..b];
    forall p | 0 <= p < |sep| ensures s[a + j + p] == sep[p] {
      assert t[j..j + |sep|][p] == t[j + p] == s[a + j + p];
    }
    assert s[a + j..a + j + |sep|] == sep;
  }

  /** A slice of a text free of `sep` is free of it too. */
  lemma {:induction false} SliceFree(s: string, sep: string, a: nat, b: nat)
    requires a <= b <= |s| && !Contains(s, sep)
    ensures !Contains(s[a..b], sep)
  {
    if Contains(s[a..b], sep) {
      OccursInSlice(s, sep, a, b, Find(s[a..b], sep).value);
      assert false;
    }
  }

  /** Stripping cannot bring `sep` in. */
  lemma {:induction false} StripFree(s: string, sep: string)
    requires !Contains(s, sep)
    ensures !Contains(Strip(s), sep)
  {
    var i := StripIsSlice(s);
    SliceFree(s, sep, i, i + |Strip(s)|);
  }

  /**
   * The cut at the footer: with a footer, the text before its first
   * occurrence, stripped; without one, the text itself. No footer is left.
   */
  function CutCopyright(t: string): (r: string)
    ensures !Contains(r, Copyright)
    ensures !Contains(t, Copyright) ==> r == t
    ensures Contains(t, Copyright) ==> r == Strip(t[..Find(t, Copyright).value])
  {
    if Contains(t, Copyright) then
      SplitPiecesFree(t, Copyright);
      var head := Split(t, Copyright)[0];
      StripFree(head, Copyright);
      Strip(head)
    else t
  }

  /** `mcq.group(2).strip()`, then cut at the footer: a stripped text with no footer in it. */
  function QuestionText(body: string): (t: string)
    ensures !Contains(t, Copyright)
    ensures Strip(t) == t
  {
    var s := Strip(body);
    StripIdempotent(body);
    var t := CutCopyright(s);
    if Contains(s, Copyright) then
      StripIdempotent(s[..Find(s, Copyright).value]);
      t
    else t
  }

  // ---------------------------------------------------------------------------
  // the option lines

  /** A line the removal pattern `^[a-f]\)\s*(.+)$` takes: a letter from a to f, ')', then text. */
  predicate IsLetterLine(line: string) {
    |line| >= 2 && 'a' <= line[0] <= 'f' && line[1] == ')' && LStrip(line[2..]) != []
  }

  /** `_remove_options_from_text` as written: the lines `x) text` emptied. */
  function RemoveLetterLines(t: string): string {
    Join(Kiran.Blanked(Kiran.Lines(t), IsLetterLine), "\n")
  }

  /** The question stored for a match, as written: the option lines `(x) text` stay in its text. */
  function QuestionAsWritten(m: Kiran.QuestionMatch): Kiran.Question {
    var t := QuestionText(m.body);
    Kiran.Question(m.number, Strip(RemoveLetterLines(t)), Kiran.OptionsOf(Kiran.Lines(t)))
  }

  /** The question stored for a match, with the option lines it takes the options from removed from its text. */
  function QuestionOf(m: Kiran.QuestionMatch): Kiran.Question {
    var t := QuestionText(m.body);
    Kiran.Question(m.number, Strip(Kiran.RemoveOptions(t)), Kiran.OptionsOf(Kiran.Lines(t)))
  }

  /** An option line starts with '(', so the removal as written never touches it. */
  lemma {:induction false} LetterRemovalKeepsOptions(t: string)
    ensures |Kiran.Lines(RemoveLetterLines(t))| == |Kiran.Lines(t)|
    ensures forall k :: 0 <= k < |Kiran.Lines(t)| && Kiran.IsOptionLine(Kiran.Lines(t)[k]) ==>
      Kiran.Lines(RemoveLetterLines(t))[k] == Kiran.Lines(t)[k]
  {
    Kiran.BlankedLines(t, IsLetterLine);
  }

  /** A question with one option: the option is taken, yet its line stays in the question text as written. */
  lemma {:induction false} OptionLeftInQuestion()
    ensures QuestionAsWritten(Kiran.QuestionMatch(1, "Q\n(a) one")) == Kiran.Question(1, "Q\n(a) one", ["one"])
    ensures QuestionOf(Kiran.QuestionMatch(1, "Q\n(a) one")) == Kiran.Question(1, "Q", ["one"])
  {
    ExampleText();
    ExampleAsWritten();
    ExampleRemoved();
    ExampleOptions();
    ExampleStrip();
  }

  lemma {:induction false} ExampleAsWritten()
    ensures RemoveLetterLines("Q\n(a) one") == "Q\n(a) one"
  {
    ExampleLines();
    assert !IsLetterLine("Q") && !IsLetterLine("(a) one");
    assert Kiran.Blanked(["Q", "(a) one"], IsLetterLine) == ["Q", "(a) one"];
    assert Join(["Q", "(a) one"], "\n") == "Q\n(a) one";
  }

  lemma {:induction false} ExampleRemoved()
    ensures Kiran.RemoveOptions("Q\n(a) one") == "Q\n"
  {
    ExampleLines();
    ExampleOption();
    assert Kiran.Blanked(["Q", "(a) one"], Kiran.IsOptionLine) == ["Q", []];
    assert Join(["Q", []], "\n") == "Q\n";
  }

  lemma {:induction false} ExampleOptions()
    ensures Kiran.OptionsOf(Kiran.Lines("Q\n(a) one")) == ["one"]
  {
    ExampleLines();
    ExampleOption();
    assert Kiran.OptionsOf(["Q", "(a) one"]) == ["one"];
  }

  lemma {:induction false} ExampleText()
    ensures QuestionText("Q\n(a) one") == "Q\n(a) one"
  {
    var body := "Q\n(a) one";
    assert LStrip(body) == body;
    assert RStrip(body) == body;
    assert Find(body, Copyright) == None;
  }

  lemma {:induction false} ExampleLines()
    ensures Kiran.Lines("Q\n(a) one") == ["Q", "(a) one"]
  {
    var body := "Q\n(a) one";
    assert body[0..1][0] == 'Q';
    assert !OccursAt(body, "\n", 0);
    assert body[1..2] == "\n";
    FirstOccurrence(body, "\n", 1);
    assert body[..1] == "Q" && body[2..] == "(a) one";
    NoOccurrence("(a) one", "\n");
  }

  lemma {:induction false} ExampleOption()
    ensures Kiran.OptionText("(a) one") == Some("one")
  {
    assert "(a) one"[3..] == " one";
    assert " one"[1..] == "one";
  }

  lemma {:induction false} ExampleStrip()
    ensures Strip("Q\n") == "Q"
  {
    assert LStrip("Q\n") == "Q\n";
    assert "Q\n"[..1] == "Q";
  }

  /**
   * The corrected question: its options are those of the option lines, in
   * order, and before the final strip every option line is emptied and every
   * other line is where it was.
   */
  lemma {:induction false} QuestionOfRemovesOptions(m: Kiran.QuestionMatch)
    ensures var t := QuestionText(m.body);
      var u := Kiran.RemoveOptions(t);
      && QuestionOf(m).text == Strip(u)
      && |Kiran.Lines(u)| == |Kiran.Lines(t)|
      && (forall k :: 0 <= k < |Kiran.Lines(t)| ==> !Kiran.IsOptionLine(Kiran.Lines(u)[k]))
      && (forall k :: 0 <= k < |Kiran.Lines(t)| && !Kiran.IsOptionLine(Kiran.Lines(t)[k]) ==> Kiran.Lines(u)[k] == Kiran.Lines(t)[k])
  {
    Kiran.OptionsRemoved(QuestionText(m.body));
  }

  /** The question of every match, in order, as `process_questions` stores it. */
  function Parsed(ms: seq<Kiran.QuestionMatch>): (qs: seq<Kiran.Question>)
    ensures |qs| == |ms|
    ensures forall i :: 0 <= i < |ms| ==> qs[i] == QuestionAsWritten(ms[i]) && qs[i].number == ms[i].number
  {
    seq(|ms|, i requires 0 <= i < |ms| => QuestionAsWritten(ms[i]))
  }

  // ---------------------------------------------------------------------------
  // rows

  /** A row of `get_mcqs`: the question, option a ('' when missing), the answer and the explanation. */
  datatype Row = Row(question: string, a: string, answer: Option<string>, explanation: Option<string>)

  /** The fields a Vision row keeps of a full row. */
  function Brief(r: Kiran.Row): Row {
    Row(r.question, r.a, r.answer, r.explanation)
  }

  /** The rows for the given keys of the question dict, in order. */
  function RowsOf(keys: seq<nat>, qs: map<nat, Kiran.Question>, es: map<nat, Kiran.Explanation>): (rows: seq<Row>)
    requires forall k :: k in keys ==> k in qs
    ensures |rows| == |keys|
    ensures forall i :: 0 <= i < |keys| ==> rows[i] == Brief(Kiran.RowOf(qs[keys[i]], es, []))
  {
    var full := Kiran.RowsOf(keys, qs, es, []);
    seq(|keys|, i requires 0 <= i < |keys| => Brief(full[i]))
  }

  /**
   * A row carries its question's text and first option ('' when it has
   * none); answer and explanation are present exactly when that number has
   * an explanation.
   */
  lemma {:induction false} RowsSpec(keys: seq<nat>, qs: map<nat, Kiran.Question>, es: map<nat, Kiran.Explanation>, i: nat)
    requires forall k :: k in keys ==> k in qs
    requires forall k :: k in qs ==> qs[k].number == k
    requires i < |keys|
    ensures var r := RowsOf(keys, qs, es)[i];
      && r.question == qs[keys[i]].text
      && (|qs[keys[i]].options| > 0 ==> r.a == qs[keys[i]].options[0])
      && (|qs[keys[i]].options| == 0 ==> r.a == [])
      && (r.answer.Some? <==> keys[i] in es) && (r.explanation.Some? <==> keys[i] in es)
      && (keys[i] in es ==> r.answer == Some(es[keys[i]].answer) && r.explanation == Some(es[keys[i]].explanation))
  {
    Kiran.RowsSpec(keys, qs, es, [], i);
  }

  // ---------------------------------------------------------------------------
  // the extractor

  /** `VisionMCQExtractor`. */
  class Extractor {
    var text: string
    var questions: Dict<nat, Kiran.Question>
    var explanations: Dict<nat, Kiran.Explanation>
    var mcqs: seq<Row>

    /** Every question and explanation is stored under its own number. */
    ghost predicate Valid()
      reads this
    {
      Kiran.Numbered(questions, Kiran.QuestionNumber) && Kiran.Numbered(explanations, Kiran.ExplanationNumber)
    }

    constructor ()
      ensures Valid()
      ensures text == [] && questions == Empty() && explanations == Empty() && mcqs == []
    {
      text := [];
      questions := Empty();
      explanations := Empty();
      mcqs := [];
    }

    /**
     * `process_questions`: the kept matches' questions, cut at the footer and
     * with the `x) text` lines emptied, are stored by number.
     */
    method ProcessQuestions(ms: seq<Kiran.QuestionMatch>)
      requires Valid()
      modifies this
      ensures Valid()
      ensures questions == Kiran.PutAll(old(questions), Kiran.Kept(Parsed(ms), Kiran.QuestionNumber), Kiran.QuestionNumber)
      ensures text == old(text) && explanations == old(explanations) && mcqs == old(mcqs)
    {
      questions := Kiran.StoreConsecutive(questions, Parsed(ms), Kiran.QuestionNumber);
    }

    /** `process_explanation`: the kept markers' answers and explanations are stored by number. */
    method ProcessExplanation(ms: seq<Kiran.MarkerMatch>)
      requires Valid() && Kiran.InOrder(text, ms)
      modifies this
      ensures text == old(text) && questions == old(questions) && mcqs == old(mcqs)
      ensures Valid()
      ensures explanations == Kiran.PutAll(old(explanations), Kiran.Kept(Kiran.Explained(text, ms), Kiran.ExplanationNumber), Kiran.ExplanationNumber)
    {
      explanations := Kiran.StoreConsecutive(explanations, Kiran.Explained(text, ms), Kiran.ExplanationNumber);
    }

    /** `get_mcqs`: one row per stored question, in the dict's order. */
    method GetMcqs()
      requires Valid()
      modifies this
      ensures Valid()
      ensures mcqs == RowsOf(questions.keys, questions.values, explanations.values)
      ensures text == old(text) && questions == old(questions) && explanations == old(explanations)
    {
      mcqs := RowsOf(questions.keys, questions.values, explanations.values);
    }

    /** `run`: questions, then explanations, then rows, over the extracted text. */
    method Run(extracted: string, questionMatches: seq<Kiran.QuestionMatch>, markers: seq<Kiran.MarkerMatch>)
      requires Valid() && Kiran.InOrder(extracted, markers)
      modifies this
      ensures Valid() && text == extracted
      ensures questions == Kiran.PutAll(old(questions), Kiran.Kept(Parsed(questionMatches), Kiran.QuestionNumber), Kiran.QuestionNumber)
      ensures explanations == Kiran.PutAll(old(explanations), Kiran.Kept(Kiran.Explained(extracted, markers), Kiran.ExplanationNumber), Kiran.ExplanationNumber)
      ensures mcqs == RowsOf(questions.keys, questions.values, explanations.values)
    {
      text := extracted;
      ProcessQuestions(questionMatches);
      ProcessExplanation(markers);
      GetMcqs();
    }
  }

  /**
   * On a fresh extractor, with no question numbered 0, there is one row per
   * kept question, in text order, and the kept numbers run consecutively.
   */
  lemma {:induction false} FreshRows(ms: seq<Kiran.QuestionMatch>, es: map<nat, Kiran.Explanation>)
    requires forall i :: 0 <= i < |ms| ==> ms[i].number != 0
    ensures var kept := Kiran.Kept(Parsed(ms), Kiran.QuestionNumber);
      var d := Kiran.PutAll(Empty(), kept, Kiran.QuestionNumber);
      var rows := RowsOf(d.keys, d.values, es);
      && Kiran.Consecutive(Dedup.Keys(kept, Kiran.QuestionNumber))
      && d.keys == Dedup.Keys(kept, Kiran.QuestionNumber)
      && |rows| == |kept|
      && (forall i :: 0 <= i < |kept| ==> rows[i] == Brief(Kiran.RowOf(kept[i], es, [])))
  {
    var qs := Parsed(ms);
    assert forall i :: 0 <= i < |qs| ==> Kiran.QuestionNumber(qs[i]) != 0;
    Kiran.KeptConsecutive(qs, Kiran.QuestionNumber);
    Kiran.FreshRowsOf(Kiran.Kept(qs, Kiran.QuestionNumber), es, []);
  }
}
