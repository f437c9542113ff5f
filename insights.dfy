/**
 * The quiz and topic scrapers of `src/utils/scraper.py`: the correct
 * answers read from the quiz script, the question records built from the
 * quiz items, and the topic lists of the iasscore pages.
 *
 * The HTML parser and `json.loads` are inputs: a quiz item is the texts of
 * its question, options and explanation; the script is the text of the
 * matching `<script>` tag, if any; decoding gives each question's `correct`
 * list in order, or nothing for invalid JSON. Fetching is the base
 * scraper's (`BaseScraper`).
 */
module Insights {
  import opened Wrappers
  import opened Text
  import opened Dedup
  import opened BaseScraper

  // ---------------------------------------------------------------------------
  // extract_correct_answers

  /** `json.loads` followed by reading each question's `correct` list, in order; `None` for invalid JSON. */
  type Decode = string -> Option<seq<seq<int>>>

  /**
   * The text the code hands to `json.loads`: from just after the first
   * 'json:' to just after the first '}}' from there. Both `find`s may give
   * -1, and the slice is taken as computed.
   */
  function JsonText(content: string): string {
    var start := PyFind(content, "json:", 0) + 5;
    var end := PyFind(content, "}}", start) + 2;
    PySlice(content, start, end)
  }

  /** With 'json:' at `i` and the first '}}' after it at `j`, the text is everything in between, with the braces. */
  lemma {:induction false} JsonTextFound(content: string, i: nat, j: nat)
    requires FindAfter(content, "json:", 0) == Some(i)
    requires FindAfter(content, "}}", i + 5) == Some(j)
    ensures JsonText(content) == content[i + 5..j + 2]
  {
  }

  /** Why building the questions raised. */
  datatype AnswerError =
    | NoCorrectOption(question: nat)  // `list.index(1)` found no 1: ValueError
    | UnknownAnswer(position: nat)    // an index with no letter: KeyError
    | MissingAnswer(item: nat)        // more items than answers: IndexError

  /** `k` is the position of the first 1 in `xs`. */
  predicate FirstOne(xs: seq<int>, k: nat) {
    k < |xs| && xs[k] == 1 && forall j :: 0 <= j < k ==> xs[j] != 1
  }

  /** `xs.index(1)`, or `None` when it raises. */
  function IndexOfOne(xs: seq<int>): (r: Option<nat>)
    ensures r.Some? ==> FirstOne(xs, r.value)
    ensures r.None? <==> 1 !in xs
  {
    if xs == [] then None
    else if xs[0] == 1 then Some(0)
    else match IndexOfOne(xs[1..])
      case None => None
      case Some(k) => Some(k + 1)
  }

  /** The loop over the decoded questions: the position of each one's correct option. */
  method CorrectIndexes(entries: seq<seq<int>>) returns (r: Result<seq<nat>, AnswerError>)
    ensures r.Ok? <==> forall i :: 0 <= i < |entries| ==> 1 in entries[i]
    ensures r.Ok? ==> |r.value| == |entries| && forall i :: 0 <= i < |entries| ==> FirstOne(entries[i], r.value[i])
    ensures r.Err? ==> r.error.NoCorrectOption? && r.error.question < |entries|
    ensures r.Err? ==> 1 !in entries[r.error.question]
    ensures r.Err? ==> forall i :: 0 <= i < r.error.question ==> 1 in entries[i]
  {
    var answers: seq<nat> := [];
    var i := 0;
    while i < |entries|
      invariant 0 <= i <= |entries| && |answers| == i
      invariant forall k :: 0 <= k < i ==> FirstOne(entries[k], answers[k]) && 1 in entries[k]
    {
      var k := IndexOfOne(entries[i]);
      if k.None? {
        return Err(NoCorrectOption(i));
      }
      answers := answers + [k.value];
      i := i + 1;
    }
    r := Ok(answers);
  }

  /** `extract_correct_answers`: `None` without the script or with invalid JSON. */
  method ExtractCorrectAnswers(script: Option<string>, decode: Decode) returns (r: Result<Option<seq<nat>>, AnswerError>)
    ensures script.None? ==> r == Ok(None)
    ensures script.Some? && decode(JsonText(script.value)).None? ==> r == Ok(None)
    ensures script.Some? && decode(JsonText(script.value)).Some? ==>
      var entries := decode(JsonText(script.value)).value;
      && (r.Ok? <==> forall i :: 0 <= i < |entries| ==> 1 in entries[i])
      && (r.Ok? ==> r.value.Some? && |r.value.value| == |entries|)
      && (r.Ok? ==> forall i :: 0 <= i < |entries| ==> FirstOne(entries[i], r.value.value[i]))
  {
    if script.None? {
      return Ok(None);
    }
    var data := decode(JsonText(script.value));
    if data.None? {
      return Ok(None);
    }
    var indexes := CorrectIndexes(data.value);
    if indexes.Err? {
      return Err(indexes.error);
    }
    r := Ok(Some(indexes.value));
  }

  // ---------------------------------------------------------------------------
  // get_questions

  /** The letters answers and options are labelled with. */
  const Letters: string := "abcdef"

  /** The answers used when none could be read: six times 'f'. */
  const DefaultAnswers: seq<string> := ["f", "f", "f", "f", "f", "f"]

  /** The letter of each answer index; an index past 'f' raises. */
  method AnswerLetters(correct: Option<seq<nat>>) returns (r: Result<seq<string>, AnswerError>)
    ensures correct.None? || correct.value == [] ==> r == Ok(DefaultAnswers)
    ensures correct.Some? && correct.value != [] ==>
      var ns := correct.value;
      && (r.Ok? <==> forall i :: 0 <= i < |ns| ==> ns[i] < |Letters|)
      && (r.Ok? ==> |r.value| == |ns| && forall i :: 0 <= i < |ns| ==> r.value[i] == [Letters[ns[i]]])
      && (r.Err? ==> r.error.UnknownAnswer? && r.error.position < |ns| && ns[r.error.position] >= |Letters|)
  {
    if correct.None? || correct.value == [] {
      return Ok(DefaultAnswers);
    }
    var ns := correct.value;
    var letters: seq<string> := [];
    var i := 0;
    while i < |ns|
      invariant 0 <= i <= |ns| && |letters| == i
      invariant forall k :: 0 <= k < i ==> ns[k] < |Letters| && letters[k] == [Letters[ns[k]]]
    {
      if ns[i] >= |Letters| {
        return Err(UnknownAnswer(i));
      }
      letters := letters + [[Letters[ns[i]]]];
      i := i + 1;
    }
    r := Ok(letters);
  }

  /** A `.wpProQuiz_listItem`: the texts of its question, its options and its explanation. */
  datatype QuizItem = QuizItem(question: string, options: seq<string>, explanation: string)

  /** The dict built for an item; `options` are the values of keys 'a', 'b', ... in order. */
  datatype QuizQuestion = QuizQuestion(question: string, answer: string, explanation: string, options: seq<string>)

  function Normalized(t: string): string {
    NormalizeWhitespace(Some(t))
  }

  /** Each text normalised, in order. */
  function NormalizedAll(ts: seq<string>): (r: seq<string>)
    ensures |r| == |ts|
  {
    if ts == [] then [] else [Normalized(ts[0])] + NormalizedAll(ts[1..])
  }

  lemma {:induction false} NormalizedAt(ts: seq<string>, i: nat)
    requires i < |ts|
    ensures NormalizedAll(ts)[i] == Normalized(ts[i])
  {
    if i > 0 {
      NormalizedAt(ts[1..], i - 1);
    }
  }

  /** The record of one item: texts normalised, options past the sixth dropped. */
  function QuestionOf(item: QuizItem, answer: string): QuizQuestion {
    QuizQuestion(Normalized(item.question), answer, Normalized(item.explanation), Take(NormalizedAll(item.options), |Letters|))
  }

  /** Option `i` is labelled with the i-th letter and holds the i-th option text, normalised; there are at most six. */
  lemma {:induction false} QuestionOptions(item: QuizItem, answer: string)
    ensures var q := QuestionOf(item, answer);
      && |q.options| <= |Letters|
      && |q.options| == (if |item.options| < |Letters| then |item.options| else |Letters|)
      && forall i :: 0 <= i < |q.options| ==> q.options[i] == Normalized(item.options[i])
  {
    var q := QuestionOf(item, answer);
    forall i | 0 <= i < |q.options| ensures q.options[i] == Normalized(item.options[i]) {
      NormalizedAt(item.options, i);
    }
  }

  /** The item loop: item `i` gets answer `i`; an item without one raises. */
  method BuildQuestions(items: seq<QuizItem>, answers: seq<string>) returns (r: Result<seq<QuizQuestion>, AnswerError>)
    ensures r.Ok? <==> |items| <= |answers|
    ensures r.Ok? ==> |r.value| == |items| && forall i :: 0 <= i < |items| ==> r.value[i] == QuestionOf(items[i], answers[i])
    ensures r.Err? ==> r.error == MissingAnswer(|answers|)
  {
    var questions: seq<QuizQuestion> := [];
    var index := 0;
    while index < |items|
      invariant 0 <= index <= |items| && |questions| == index && index <= |answers|
      invariant forall k :: 0 <= k < index ==> questions[k] == QuestionOf(items[k], answers[k])
    {
      if index >= |answers| {
        return Err(MissingAnswer(index));
      }
      questions := questions + [QuestionOf(items[index], answers[index])];
      index := index + 1;
    }
    r := Ok(questions);
  }

  /** The letter of a decoded question's first correct option; `None` when it has no 1 or the 1 is past 'f'. */
  function LetterOf(entry: seq<int>): Option<string> {
    match IndexOfOne(entry)
    case None => None
    case Some(k) => if k < |Letters| then Some([Letters[k]]) else None
  }

  /** There is one first 1. */
  lemma {:induction false} FirstOneUnique(xs: seq<int>, k: nat, k': nat)
    requires FirstOne(xs, k) && FirstOne(xs, k')
    ensures k == k'
  {
  }

  /** No answers could be read: the script is missing, its JSON is invalid, or it lists no question. */
  predicate Unreadable(script: Option<string>, decode: Decode) {
    script.None? || decode(JsonText(script.value)).None? || decode(JsonText(script.value)).value == []
  }

  /**
   * `get_questions`: one record per quiz item, in page order. Item `i`
   * gets the letter of the first correct option of the script's question
   * `i`, and the call raises when a question has no correct option or one
   * past 'f', or when there are more items than questions. Without
   * readable answers every answer is 'f', which fails past the sixth item.
   */
  method GetQuestions(items: seq<QuizItem>, script: Option<string>, decode: Decode)
    returns (r: Result<seq<QuizQuestion>, AnswerError>)
    ensures r.Ok? ==> |r.value| == |items|
    ensures r.Ok? ==> forall i :: 0 <= i < |items| ==> |r.value[i].answer| == 1 && r.value[i].answer[0] in Letters
    ensures Unreadable(script, decode) ==> (r.Ok? <==> |items| <= |DefaultAnswers|)
    ensures Unreadable(script, decode) && r.Ok? ==> forall i :: 0 <= i < |items| ==> r.value[i] == QuestionOf(items[i], "f")
    ensures !Unreadable(script, decode) ==>
      var entries := decode(JsonText(script.value)).value;
      && (r.Ok? <==> |items| <= |entries| && forall i :: 0 <= i < |entries| ==> LetterOf(entries[i]).Some?)
      && (r.Ok? ==> forall i :: 0 <= i < |items| ==> r.value[i] == QuestionOf(items[i], LetterOf(entries[i]).value))
  {
    var correct := ExtractCorrectAnswers(script, decode);
    if correct.Err? {
      assert script.Some? && decode(JsonText(script.value)).Some?;
      ghost var entries := decode(JsonText(script.value)).value;
      ghost var q :| 0 <= q < |entries| && 1 !in entries[q];
      assert LetterOf(entries[q]).None?;
      return Err(correct.error);
    }
    var letters := AnswerLetters(correct.value);
    if letters.Err? {
      ghost var entries := decode(JsonText(script.value)).value;
      ghost var k := letters.error.position;
      FirstOneUnique(entries[k], correct.value.value[k], IndexOfOne(entries[k]).value);
      assert LetterOf(entries[k]).None?;
      return Err(letters.error);
    }
    assert forall i :: 0 <= i < |letters.value| ==> |letters.value[i]| == 1 && letters.value[i][0] in Letters;
    if !Unreadable(script, decode) {
      ghost var entries := decode(JsonText(script.value)).value;
      forall i | 0 <= i < |entries| ensures LetterOf(entries[i]) == Some(letters.value[i]) {
        FirstOneUnique(entries[i], correct.value.value[i], IndexOfOne(entries[i]).value);
      }
    }
    r := BuildQuestions(items, letters.value);
  }

  // ---------------------------------------------------------------------------
  // the iasscore pages

  const IasscoreHost: string := "https://iasscore.in"

  /** Each link made absolute on the iasscore host, in order. */
  function Absolute(hrefs: seq<string>): (urls: seq<string>)
    ensures |urls| == |hrefs|
    ensures forall i :: 0 <= i < |hrefs| ==> urls[i] == IasscoreHost + hrefs[i]
  {
    if hrefs == [] then [] else [IasscoreHost + hrefs[0]] + Absolute(hrefs[1..])
  }

  /** `MicroTopicsIasscoreUrls`: collects the subject links of the pages it parses. */
  class MicroTopicsUrls {
    var baseUrl: string
    var urls: seq<string>

    constructor (baseUrl: string)
      ensures this.baseUrl == Strip(baseUrl) && urls == []
    {
      this.baseUrl := Strip(baseUrl);
      urls := [];
    }

    /** `parse_page`: the page's links, made absolute, are added after those collected before. */
    method ParsePage(hrefs: seq<string>)
      modifies this
      ensures urls == old(urls) + Absolute(hrefs)
      ensures baseUrl == old(baseUrl)
    {
      urls := urls + Absolute(hrefs);
    }
  }

  /** A `.brick`: the text of its title and of each of its section items. */
  datatype Brick = Brick(title: string, themes: seq<string>)

  /** One topic entry; `subtheme` is present only when the theme had a blank line in it. */
  datatype Topic = Topic(subject: string, section: string, topic: string, theme: string, subtheme: Option<string>)

  /** A path segment as a name: `' '.join(t.split('-')).title()`, that is every '-' a space, then title case. */
  function SegmentName(t: string): string {
    Title(ReplaceChar(t, '-', ' '))
  }

  /** Subject and section: the last two '/'-separated segments of the URL, or `None` when there is only one (the unpacking raises). */
  function SubjectSection(url: string): Option<(string, string)> {
    var p := Split(url, "/");
    if |p| < 2 then None else Some((SegmentName(p[|p| - 2]), SegmentName(p[|p| - 1])))
  }

  const ThemeSep: string := "\n\n"

  /** The entry for one theme: split at blank lines into theme and subtheme, later pieces dropped. */
  function TopicOf(subject: string, section: string, topic: string, theme: string): Topic {
    var parts := Split(theme, ThemeSep);
    if |parts| > 1 then Topic(subject, section, topic, parts[0], Some(parts[1]))
    else Topic(subject, section, topic, theme, None)
  }

  /** The entries of one brick, one per theme in order, texts stripped. */
  function BrickTopics(subject: string, section: string, b: Brick): (ts: seq<Topic>)
    ensures |ts| == |b.themes|
    decreases |b.themes|
  {
    if b.themes == [] then []
    else
      var n := |b.themes| - 1;
      BrickTopics(subject, section, Brick(b.title, b.themes[..n])) + [TopicOf(subject, section, Strip(b.title), Strip(b.themes[n]))]
  }

  /** The entries of all bricks, brick by brick. */
  function AllTopics(subject: string, section: string, bricks: seq<Brick>): seq<Topic> {
    if bricks == [] then []
    else
      var n := |bricks| - 1;
      AllTopics(subject, section, bricks[..n]) + BrickTopics(subject, section, bricks[n])
  }

  /** The number of themes over all bricks. */
  function ThemeCount(bricks: seq<Brick>): nat {
    if bricks == [] then 0 else ThemeCount(bricks[..|bricks| - 1]) + |bricks[|bricks| - 1].themes|
  }

  /** `MicroTopicsIasscore`: the topics of the page it parsed last. */
  class MicroTopics {
    var baseUrl: string
    var topics: seq<Topic>

    constructor (baseUrl: string)
      ensures this.baseUrl == Strip(baseUrl) && topics == []
    {
      this.baseUrl := Strip(baseUrl);
      topics := [];
    }

    /** `parse_page`: the topic list is started afresh; a URL with a single segment raises after that. */
    method ParsePage(bricks: seq<Brick>) returns (ok: bool)
      modifies this
      ensures baseUrl == old(baseUrl)
      ensures ok <==> SubjectSection(baseUrl).Some?
      ensures !ok ==> topics == []
      ensures ok ==> var (subject, section) := SubjectSection(baseUrl).value;
        topics == AllTopics(subject, section, bricks)
    {
      topics := [];
      var names := SubjectSection(baseUrl);
      if names.None? {
        return false;
      }
      var (subject, section) := names.value;
      var i := 0;
      while i < |bricks|
        invariant 0 <= i <= |bricks| && baseUrl == old(baseUrl)
        invariant topics == AllTopics(subject, section, bricks[..i])
      {
        assert bricks[..i + 1][..i] == bricks[..i];
        AddBrick(subject, section, bricks[i]);
        i := i + 1;
      }
      assert bricks[..|bricks|] == bricks;
      ok := true;
    }

    /** The loop over one brick's themes. */
    method AddBrick(subject: string, section: string, b: Brick)
      modifies this
      ensures baseUrl == old(baseUrl)
      ensures topics == old(topics) + BrickTopics(subject, section, b)
    {
      var topic := Strip(b.title);
      var j := 0;
      ghost var start := topics;
      while j < |b.themes|
        invariant 0 <= j <= |b.themes| && baseUrl == old(baseUrl)
        invariant topics == start + BrickTopics(subject, section, Brick(b.title, b.themes[..j]))
      {
        assert b.themes[..j + 1][..j] == b.themes[..j];
        topics := topics + [TopicOf(subject, section, topic, Strip(b.themes[j]))];
        j := j + 1;
      }
      assert b.themes[..|b.themes|] == b.themes;
    }
  }

  // ---------------------------------------------------------------------------
  // properties of the topic list

  /** One entry per theme, every one with the page's subject and section. */
  lemma {:induction false} AllTopicsShape(subject: string, section: string, bricks: seq<Brick>)
    ensures |AllTopics(subject, section, bricks)| == ThemeCount(bricks)
    ensures forall t :: t in AllTopics(subject, section, bricks) ==> t.subject == subject && t.section == section
  {
    if bricks != [] {
      var n := |bricks| - 1;
      AllTopicsShape(subject, section, bricks[..n]);
      BrickTopicsShape(subject, section, bricks[n]);
    }
  }

  lemma {:induction false} BrickTopicsShape(subject: string, section: string, b: Brick)
    ensures forall t :: t in BrickTopics(subject, section, b) ==> t.subject == subject && t.section == section
    decreases |b.themes|
  {
    if b.themes != [] {
      BrickTopicsShape(subject, section, Brick(b.title, b.themes[..|b.themes| - 1]));
    }
  }

  /**
   * A theme with a blank line in it becomes its first piece, with the
   * second as subtheme: the original begins with theme, separator and
   * subtheme, followed by nothing or by the separator and the rest. Neither
   * piece holds the separator; a theme kept whole has none either.
   */
  lemma {:induction false} TopicSplit(subject: string, section: string, topic: string, theme: string)
    ensures var t := TopicOf(subject, section, topic, theme);
      && !Contains(t.theme, ThemeSep)
      && (t.subtheme.None? ==> t.theme == theme)
      && (t.subtheme.Some? ==> !Contains(t.subtheme.value, ThemeSep))
      && (t.subtheme.Some? ==> exists rest ::
            && theme == t.theme + ThemeSep + t.subtheme.value + rest
            && (rest == [] || (|rest| >= |ThemeSep| && rest[..|ThemeSep|] == ThemeSep)))
  {
    SplitPiecesFree(theme, ThemeSep);
    SplitFirstTwo(theme, ThemeSep);
  }
}
