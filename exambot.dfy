/**
 * The ExamBot question page parser (`recipe/exambot/scrape.py`).
 *
 * The HTML tree is an input: a page is its text and, when it has a
 * `div.content-inner`, the texts of the elements the parser selects inside it
 * and its radio inputs in page order. `labels` stands for
 * `soup.find("label", {"for": id}).get_text(strip=True)`, `None` when no label
 * is found.
 */
module ExamBot {
  import opened Wrappers
  import opened Text

  /** A radio input's `value`, `id` and `onclick` attributes. */
  datatype Radio = Radio(value: Option<string>, id: Option<string>, onclick: Option<string>)

  /** The texts of `div.card.card-body`, `div.field-item.even` and `tbody tr td`, and the radio inputs. */
  datatype Content = Content(explanation: Option<string>, subject: Option<string>, question: Option<string>, radios: seq<Radio>)

  datatype Page = Page(html: string, content: Option<Content>)

  /** One entry of `options`: the radio's value and its label's text. */
  datatype Choice = Choice(value: Option<string>, labelText: string)

  /** The record `parse_page` returns; `None` stands for Python's `None`. */
  datatype Data = Data(
    subject: Option<string>, question: Option<string>, correctOption: Option<string>,
    explanation: Option<string>, options: Option<seq<Choice>>, html: Option<string>)

  /** What `parse_page` raises: `AttributeError` on a missing label or onclick, `IndexError` on an onclick without `(`. */
  datatype ParseError = NoLabel | NoOnclick | NoOpenParen

  function StripAll(parts: seq<string>): (r: seq<string>)
    ensures |r| == |parts|
    ensures forall k :: 0 <= k < |parts| ==> r[k] == Strip(parts[k])
  {
    seq(|parts|, k requires 0 <= k < |parts| => Strip(parts[k]))
  }

  /** `[arg.strip() for arg in onclick.split("(")[1].split(")")[0].split(",")]` */
  function OnclickArgs(onclick: string): (r: Result<seq<string>, ParseError>)
    ensures r.Ok? ==> |r.value| >= 1
  {
    var parts := Split(onclick, "(");
    if |parts| < 2 then Err(NoOpenParen)
    else Ok(StripAll(Split(Split(parts[1], ")")[0], ",")))
  }

  /** `onclick.split("(")` has a second piece exactly when `onclick` holds a `(`. */
  lemma {:induction false} SplitOpenParen(onclick: string)
    ensures |Split(onclick, "(")| >= 2 <==> '(' in onclick
  {
    SplitHead(onclick, "(");
    if '(' in onclick {
      var j :| 0 <= j < |onclick| && onclick[j] == '(';
      OccursAtChar(onclick, '(', j);
    } else {
      match Find(onclick, "(")
      case None =>
      case Some(i) => OccursAtChar(onclick, '(', i);
    }
  }

  /** The arguments are there exactly when the onclick holds a `(`; otherwise it raises. */
  lemma {:induction false} OnclickArgsOk(onclick: string)
    ensures OnclickArgs(onclick).Ok? <==> '(' in onclick
  {
    SplitOpenParen(onclick);
  }

  /** `inner` follows the first `(` of `onclick` and runs up to the next `(` or `)`, or to the end. */
  predicate Bracketed(onclick: string, pre: string, inner: string, post: string) {
    && onclick == pre + "(" + inner + post
    && '(' !in pre && '(' !in inner && ')' !in inner
    && (post == [] || post[0] == '(' || post[0] == ')')
  }

  /**
   * The arguments are read from the text after the first `(`, up to the next
   * `(` or `)` or the end, split on `,` and stripped.
   */
  lemma {:induction false} OnclickArgsInner(onclick: string)
    requires '(' in onclick
    ensures OnclickArgs(onclick).Ok?
    ensures exists pre, inner, post :: Bracketed(onclick, pre, inner, post) && OnclickArgs(onclick).value == StripAll(Split(inner, ","))
  {
    SplitOpenParen(onclick);
    var parts := Split(onclick, "(");
    var rest := OpenParenPieces(onclick);
    var inner := Split(parts[1], ")")[0];
    var after := CloseParenPieces(parts[1]);
    BracketedJoin(onclick, parts[0], parts[1], rest, inner, after);
  }

  lemma {:induction false} BracketedJoin(onclick: string, pre: string, mid: string, rest: string, inner: string, after: string)
    requires onclick == pre + "(" + mid + rest && (rest == [] || rest[0] == '(') && '(' !in pre
    requires mid == inner + after && (after == [] || after[0] == ')') && '(' !in inner && ')' !in inner
    ensures Bracketed(onclick, pre, inner, after + rest)
  {
    assert mid + rest == inner + (after + rest);
    if after != [] {
      assert (after + rest)[0] == after[0];
    }
  }

  /** The pieces around the first `(`, and what follows the second piece. */
  lemma {:induction false} OpenParenPieces(onclick: string) returns (rest: string)
    requires |Split(onclick, "(")| >= 2
    ensures var parts := Split(onclick, "(");
      && onclick == parts[0] + "(" + parts[1] + rest
      && (rest == [] || rest[0] == '(')
      && '(' !in parts[0] && '(' !in parts[1]
  {
    var parts := Split(onclick, "(");
    SplitFirstTwo(onclick, "(");
    rest :| onclick == parts[0] + "(" + parts[1] + rest && (rest == [] || (|rest| >= 1 && rest[..1] == "("));
    if rest != [] {
      assert rest[0] == rest[..1][0];
    }
    SplitPiecesFree(onclick, "(");
    NoCharInFree(parts[0], '(');
    NoCharInFree(parts[1], '(');
  }

  /** The text up to the first `)`, and what follows it. */
  lemma {:induction false} CloseParenPieces(s: string) returns (after: string)
    requires '(' !in s
    ensures var inner := Split(s, ")")[0];
      && s == inner + after
      && (after == [] || after[0] == ')')
      && '(' !in inner && ')' !in inner
  {
    var inner := Split(s, ")")[0];
    after := SplitRest(s, ")");
    SplitHead(s, ")");
    SplitPiecesFree(s, ")");
    NoCharInFree(inner, ')');
    if after != [] {
      assert after[0] == after[..1][0];
    }
    forall k | 0 <= k < |inner| ensures inner[k] != '(' {
      assert inner[k] == s[k];
    }
  }

  /** A piece that does not contain the one-character separator does not hold that character. */
  lemma {:induction false} NoCharInFree(s: string, c: char)
    requires !Contains(s, [c])
    ensures c !in s
  {
    if c in s {
      var j :| 0 <= j < |s| && s[j] == c;
      OccursAtChar(s, c, j);
    }
  }

  /** One radio: its option and its last onclick argument, or what it raises. */
  function RadioOf(radio: Radio, labels: Option<string> -> Option<string>): Result<(Choice, string), ParseError> {
    var labelText := labels(radio.id);
    if labelText.None? then Err(NoLabel)
    else if radio.onclick.None? then Err(NoOnclick)
    else match OnclickArgs(radio.onclick.value)
      case Err(e) => Err(e)
      case Ok(args) => Ok((Choice(radio.value, labelText.value), args[|args| - 1]))
  }

  /** The radio loop: the options so far and the last radio's correct option. */
  function Collected(radios: seq<Radio>, labels: Option<string> -> Option<string>): Result<(seq<Choice>, Option<string>), ParseError> {
    if radios == [] then Ok(([], None))
    else match Collected(radios[..|radios| - 1], labels)
      case Err(e) => Err(e)
      case Ok(acc) => match RadioOf(radios[|radios| - 1], labels)
        case Err(e) => Err(e)
        case Ok(one) => Ok((acc.0 + [one.0], Some(one.1)))
  }

  /** The text of a selected element, `''` when it is missing. */
  function TextOr(element: Option<string>): string {
    if element.Some? then Strip(element.value) else ""
  }

  /** `parse_page` */
  function Parsed(page: Page, labels: Option<string> -> Option<string>): Result<Data, ParseError> {
    if page.content.None? then Ok(Data(None, None, None, None, None, Some(page.html)))
    else
      var c := page.content.value;
      match Collected(c.radios, labels)
      case Err(e) => Err(e)
      case Ok(acc) => Ok(Data(Some(TextOr(c.subject)), Some(TextOr(c.question)), acc.1, Some(TextOr(c.explanation)), Some(acc.0), None))
  }

  /** One more radio: the loop stops at its error, or appends its option and takes its correct option. */
  lemma {:induction false} CollectedSnoc(radios: seq<Radio>, labels: Option<string> -> Option<string>, i: nat)
    requires i < |radios|
    ensures var before := Collected(radios[..i], labels);
      var one := RadioOf(radios[i], labels);
      Collected(radios[..i + 1], labels) ==
        if before.Err? then before
        else if one.Err? then Err(one.error)
        else Ok((before.value.0 + [one.value.0], Some(one.value.1)))
  {
    assert radios[..i + 1][..i] == radios[..i];
  }

  /** The loop succeeds exactly when every radio does. */
  lemma {:induction false} CollectedOk(radios: seq<Radio>, labels: Option<string> -> Option<string>)
    ensures Collected(radios, labels).Ok? <==> forall k :: 0 <= k < |radios| ==> RadioOf(radios[k], labels).Ok?
  {
    if radios != [] {
      var n := |radios| - 1;
      CollectedOk(radios[..n], labels);
      CollectedSnoc(radios, labels, n);
      assert radios[..n + 1] == radios;
      assert forall k :: 0 <= k < n ==> radios[..n][k] == radios[k];
    }
  }

  /**
   * Then there is one option per radio in page order, and the correct option
   * is the last radio's last onclick argument, `None` when there are no radios.
   */
  lemma {:induction false} CollectedValue(radios: seq<Radio>, labels: Option<string> -> Option<string>)
    requires Collected(radios, labels).Ok?
    ensures var acc := Collected(radios, labels).value;
      && |acc.0| == |radios|
      && (forall k :: 0 <= k < |radios| ==> RadioOf(radios[k], labels).Ok? && acc.0[k] == RadioOf(radios[k], labels).value.0)
      && (acc.1.None? <==> radios == [])
      && (radios != [] ==> acc.1 == Some(RadioOf(radios[|radios| - 1], labels).value.1))
  {
    if radios != [] {
      var n := |radios| - 1;
      CollectedSnoc(radios, labels, n);
      assert radios[..n + 1] == radios;
      CollectedValue(radios[..n], labels);
      assert forall k :: 0 <= k < n ==> radios[..n][k] == radios[k];
    }
  }

  /** A radio with a label and a well-formed onclick gives its value and label, and its last stripped argument. */
  lemma {:induction false} RadioOfSpec(radio: Radio, labels: Option<string> -> Option<string>)
    ensures RadioOf(radio, labels).Ok? <==>
      labels(radio.id).Some? && radio.onclick.Some? && '(' in radio.onclick.value
    ensures RadioOf(radio, labels).Ok? ==>
      var args := OnclickArgs(radio.onclick.value).value;
      RadioOf(radio, labels).value == (Choice(radio.value, labels(radio.id).value), args[|args| - 1])
  {
    if radio.onclick.Some? {
      OnclickArgsOk(radio.onclick.value);
    }
  }

  /** Without `div.content-inner` only `html` is set, to the whole page. */
  lemma {:induction false} NoContentSpec(page: Page, labels: Option<string> -> Option<string>)
    requires page.content.None?
    ensures Parsed(page, labels).Ok?
    ensures var d := Parsed(page, labels).value;
      && d.html == Some(page.html)
      && d.subject.None? && d.question.None? && d.correctOption.None? && d.explanation.None? && d.options.None?
  {
  }

  /**
   * With content, every field but `html` is set: a missing element's text is
   * `''`, and the options and correct option are those of the radio loop.
   */
  lemma {:induction false} ContentSpec(page: Page, labels: Option<string> -> Option<string>)
    requires page.content.Some? && Parsed(page, labels).Ok?
    ensures var d := Parsed(page, labels).value;
      var c := page.content.value;
      && d.html.None?
      && d.subject.Some? && d.question.Some? && d.explanation.Some? && d.options.Some?
      && (c.subject.None? ==> d.subject == Some(""))
      && (c.question.None? ==> d.question == Some(""))
      && (c.explanation.None? ==> d.explanation == Some(""))
      && |d.options.value| == |c.radios|
      && (d.correctOption.None? <==> c.radios == [])
  {
    CollectedValue(page.content.value.radios, labels);
  }

  /** `ExamBot.parse_page`: the radio loop overwrites the correct option and appends each option. */
  method ParsePage(page: Page, labels: Option<string> -> Option<string>) returns (data: Result<Data, ParseError>)
    ensures data == Parsed(page, labels)
  {
    if page.content.None? {
      return Ok(Data(None, None, None, None, None, Some(page.html)));
    }
    var c := page.content.value;
    var options: seq<Choice> := [];
    var correctOption: Option<string> := None;
    var i := 0;
    while i < |c.radios|
      invariant 0 <= i <= |c.radios|
      invariant Collected(c.radios[..i], labels) == Ok((options, correctOption))
    {
      CollectedSnoc(c.radios, labels, i);
      var one := RadioOf(c.radios[i], labels);
      if one.Err? {
        CollectedErr(c.radios, labels, i + 1);
        return Err(one.error);
      }
      correctOption := Some(one.value.1);
      options := options + [one.value.0];
      i := i + 1;
    }
    assert c.radios[..i] == c.radios;
    data := Ok(Data(Some(TextOr(c.subject)), Some(TextOr(c.question)), correctOption, Some(TextOr(c.explanation)), Some(options), None));
  }

  /** An error in the first `n` radios is the error of the whole loop. */
  lemma {:induction false} CollectedErr(radios: seq<Radio>, labels: Option<string> -> Option<string>, n: nat)
    requires n <= |radios| && Collected(radios[..n], labels).Err?
    ensures Collected(radios, labels) == Collected(radios[..n], labels)
    decreases |radios| - n
  {
    if n < |radios| {
      CollectedSnoc(radios, labels, n);
      CollectedErr(radios, labels, n + 1);
    } else {
      assert radios[..n] == radios;
    }
  }
}
