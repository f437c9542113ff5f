/**
 * The base scraper (`src/core/base_scraper.py`, and its twin
 * `src/scraper/core/base.py`): whitespace normalisation, the classification
 * of an HTTP answer, which content gets parsed, and how results are saved.
 *
 * The network is a parameter: `response` is what the server answers if the
 * scraper asks. The HTML parser is left out; the "soup" is the page text.
 */
module BaseScraper {
  import opened Wrappers
  import opened Text
  import opened PyDict

  // ---------------------------------------------------------------------------
  // normalize_whitespace

  /** `re.sub(r'(\s)\1+', r'\1', s)`: every run of one repeated whitespace character becomes one. */
  function CollapseRuns(s: string): (r: string)
    ensures |r| <= |s|
    ensures s != [] ==> r != [] && r[0] == s[0]
    decreases |s|
  {
    if |s| < 2 then s
    else if IsSpace(s[0]) && s[1] == s[0] then CollapseRuns(s[1..])
    else [s[0]] + CollapseRuns(s[1..])
  }

  /** No whitespace character is immediately followed by the same character. */
  predicate NoRepeatedSpace(s: string) {
    forall i :: 0 <= i < |s| - 1 ==> !(IsSpace(s[i]) && s[i + 1] == s[i])
  }

  /** The characters of `s` that are not whitespace, in order. */
  function Visible(s: string): string {
    if s == [] then [] else (if IsSpace(s[0]) then [] else [s[0]]) + Visible(s[1..])
  }

  /** `normalize_whitespace`: `''` for `None` or `''`, else collapse repeated whitespace and strip. */
  function NormalizeWhitespace(text: Option<string>): (r: string)
  {
    if text.None? || text.value == [] then [] else Strip(CollapseRuns(text.value))
  }

  lemma {:induction false} CollapseRunsNoRepeat(s: string)
    ensures NoRepeatedSpace(CollapseRuns(s))
    decreases |s|
  {
    if |s| >= 2 {
      CollapseRunsNoRepeat(s[1..]);
      if !(IsSpace(s[0]) && s[1] == s[0]) {
        var rest := CollapseRuns(s[1..]);
        assert rest[0] == s[1];
        assert CollapseRuns(s) == [s[0]] + rest;
      }
    }
  }

  /** Text already free of repeated whitespace is left alone. */
  lemma {:induction false} CollapseRunsFixed(s: string)
    requires NoRepeatedSpace(s)
    ensures CollapseRuns(s) == s
    decreases |s|
  {
    if |s| >= 2 {
      CollapseRunsFixed(s[1..]);
      assert [s[0]] + s[1..] == s;
    }
  }

  /** Collapsing only drops whitespace: the visible characters stay, in order. */
  lemma {:induction false} CollapseRunsVisible(s: string)
    ensures Visible(CollapseRuns(s)) == Visible(s)
    decreases |s|
  {
    if |s| >= 2 {
      CollapseRunsVisible(s[1..]);
      if !(IsSpace(s[0]) && s[1] == s[0]) {
        assert ([s[0]] + CollapseRuns(s[1..]))[1..] == CollapseRuns(s[1..]);
      }
    }
  }

  /** A piece of a string without repeated whitespace has none either. */
  lemma {:induction false} NoRepeatedSlice(s: string, i: nat, j: nat)
    requires NoRepeatedSpace(s) && i <= j <= |s|
    ensures NoRepeatedSpace(s[i..j])
  {
    forall k | 0 <= k < j - i - 1 ensures !(IsSpace(s[i..j][k]) && s[i..j][k + 1] == s[i..j][k]) {
      assert s[i..j][k] == s[i + k] && s[i..j][k + 1] == s[i + k + 1];
    }
  }

  /**
   * The result neither starts nor ends with whitespace, has no whitespace
   * character twice in a row, and keeps every visible character in order.
   */
  lemma {:induction false} NormalizeSpec(text: Option<string>)
    ensures var r := NormalizeWhitespace(text);
      && (r != [] ==> !IsSpace(r[0]) && !IsSpace(r[|r| - 1]))
      && NoRepeatedSpace(r)
      && (text.Some? ==> Visible(r) == Visible(text.value))
  {
    if text.Some? && text.value != [] {
      var c := CollapseRuns(text.value);
      CollapseRunsNoRepeat(text.value);
      var i := StripIsSlice(c);
      NoRepeatedSlice(c, i, i + |Strip(c)|);
      CollapseRunsVisible(text.value);
      StripVisible(c);
    }
  }

  /** Stripping drops whitespace only. */
  lemma {:induction false} StripVisible(s: string)
    ensures Visible(Strip(s)) == Visible(s)
  {
    LStripVisible(s);
    RStripVisible(LStrip(s));
  }

  lemma {:induction false} LStripVisible(s: string)
    ensures Visible(LStrip(s)) == Visible(s)
    decreases |s|
  {
    if s != [] && IsSpace(s[0]) {
      LStripVisible(s[1..]);
    }
  }

  lemma {:induction false} RStripVisible(s: string)
    ensures Visible(RStrip(s)) == Visible(s)
    decreases |s|
  {
    if s != [] && IsSpace(s[|s| - 1]) {
      var n := |s| - 1;
      RStripVisible(s[..n]);
      VisibleAppend(s[..n], [s[n]]);
      assert s[..n] + [s[n]] == s;
    }
  }

  lemma {:induction false} VisibleAppend(a: string, b: string)
    ensures Visible(a + b) == Visible(a) + Visible(b)
    decreases |a|
  {
    if a != [] {
      VisibleAppend(a[1..], b);
      assert (a + b)[1..] == a[1..] + b;
    } else {
      assert a + b == b;
    }
  }

  /** Normalising twice is normalising once. */
  lemma {:induction false} NormalizeIdempotent(text: Option<string>)
    ensures NormalizeWhitespace(Some(NormalizeWhitespace(text))) == NormalizeWhitespace(text)
  {
    var r := NormalizeWhitespace(text);
    NormalizeSpec(text);
    if r != [] {
      CollapseRunsFixed(r);
      StripNoEdgeSpace(r);
    }
  }

  // ---------------------------------------------------------------------------
  // fetch_page

  /** What the server answered: a status code and a body. */
  datatype Response = Response(status: int, text: string)

  /** The exceptions `fetch_page` raises. */
  datatype FetchError = TooManyRequests | FetchFailed(status: int)

  /**
   * `fetch_page` without the delay and the retries: 404 gives the empty
   * page, 200 the body, and every other status raises, 429 with its own message.
   */
  function FetchPage(r: Response): (res: Result<string, FetchError>)
    ensures res.Ok? <==> r.status == 200 || r.status == 404
    ensures r.status == 404 ==> res.value == []
    ensures r.status == 200 ==> res.value == r.text
    ensures res.Err? ==> res.error == if r.status == 429 then TooManyRequests else FetchFailed(r.status)
  {
    if r.status == 404 then Ok([])
    else if r.status == 429 then Err(TooManyRequests)
    else if r.status != 200 then Err(FetchFailed(r.status))
    else Ok(r.text)
  }

  // ---------------------------------------------------------------------------
  // the scraper object

  /** A value Python treats as true: present and non-empty. */
  predicate Truthy(s: Option<string>) {
    s.Some? && s.value != []
  }

  /** `self.content or content`: the first truthy content given, if any. */
  function GivenContent(own: Option<string>, arg: Option<string>): (r: Option<string>)
    ensures r.Some? <==> Truthy(own) || Truthy(arg)
    ensures Truthy(own) ==> r == own
    ensures !Truthy(own) && Truthy(arg) ==> r == arg
  {
    if Truthy(own) then own else if Truthy(arg) then arg else None
  }

  /** Why scraping failed: the fetch raised, or the base class's `parse_page` did. */
  datatype ScrapeError = Fetch(error: FetchError) | NotImplemented

  class Scraper {
    var baseUrl: string
    var content: Option<string>
    /** The page handed to the parser by `pre_parse`; `None` before any parse. */
    var soup: Option<string>

    constructor (baseUrl: string, content: Option<string>)
      ensures this.baseUrl == Strip(baseUrl) && this.content == content && soup.None?
    {
      this.baseUrl := Strip(baseUrl);
      this.content := content;
      soup := None;
    }

    /**
     * `get_html`: `''` while nothing has been parsed, else the parsed page
     * serialised by `prettify`, the parser's `soup.prettify()`.
     */
    function GetHtml(prettify: string -> string): (h: string)
      reads this
      ensures soup.None? ==> h == []
      ensures soup.Some? ==> h == prettify(soup.value)
    {
      if soup.Some? then prettify(soup.value) else []
    }

    /**
     * `extract` / `scrape` up to the parse: the page is the constructor's
     * content, else the call's, else the fetched page, the first that is
     * non-empty; the server is asked only in the last case. A fetch error
     * propagates and leaves the soup as it was.
     */
    method Prepare(arg: Option<string>, response: Response) returns (page: Result<string, ScrapeError>, fetched: bool)
      modifies this
      ensures fetched <==> !Truthy(content) && !Truthy(arg)
      ensures baseUrl == old(baseUrl) && content == old(content)
      ensures !fetched ==> page == Ok(GivenContent(content, arg).value)
      ensures fetched ==> match FetchPage(response)
        case Ok(body) => page == Ok(body)
        case Err(e) => page == Err(Fetch(e))
      ensures page.Ok? ==> soup == Some(page.value)
      ensures page.Err? ==> soup == old(soup)
    {
      var given := GivenContent(content, arg);
      fetched := given.None?;
      var html;
      if given.Some? {
        html := given.value;
      } else {
        var f := FetchPage(response);
        if f.Err? {
          return Err(Fetch(f.error)), fetched;
        }
        html := f.value;
      }
      soup := Some(html);
      page := Ok(html);
    }

    /**
     * The base class's `extract`: once a page is prepared, its `parse_page`
     * raises `NotImplementedError`, which `extract` re-raises.
     */
    method Extract(arg: Option<string>, response: Response) returns (r: Result<seq<Dict<string, string>>, ScrapeError>)
      modifies this
      ensures r.Err?
      ensures !Truthy(old(content)) && !Truthy(arg) && FetchPage(response).Err? ==> r == Err(Fetch(FetchPage(response).error))
      ensures Truthy(old(content)) || Truthy(arg) || FetchPage(response).Ok? ==> r == Err(NotImplemented)
    {
      var page, _ := Prepare(arg, response);
      if page.Err? {
        return Err(page.error);
      }
      r := Err(NotImplemented);
    }
  }

  // ---------------------------------------------------------------------------
  // save

  /** A result row: a Python dict, whose key order gives the CSV header. */
  type Record = Dict<string, string>

  /** What `save` leaves on disk. */
  datatype Written =
    | NothingWritten
    | CsvFile(path: string, header: seq<string>, rows: seq<seq<string>>)
    | JsonFile(path: string, data: seq<Record>)

  datatype SaveError =
      /** `os.makedirs('')` raises `FileNotFoundError` */
    | NoDirectory
      /** neither `.csv` nor `.json` */
    | Unsupported
      /** `csv.DictWriter` raises `ValueError` for a key outside the header */
    | ExtraKey

  /** `os.path.dirname(path) == ''`: the path has no directory part. */
  predicate BareName(path: string) {
    '/' !in path
  }

  /** `csv.DictWriter(fieldnames=header).writerow(row)`: one cell per header field, `''` when absent. */
  function CsvLine(header: seq<string>, row: Record): (line: seq<string>)
    ensures |line| == |header|
    ensures forall j :: 0 <= j < |header| ==>
      line[j] == if header[j] in row.values then row.values[header[j]] else []
  {
    if header == [] then []
    else [if header[0] in row.values then row.values[header[0]] else []] + CsvLine(header[1..], row)
  }

  /** Some row has a key the header does not list. */
  predicate HasExtraKey(header: seq<string>, data: seq<Record>) {
    exists i, k :: 0 <= i < |data| && k in data[i].values && k !in header
  }

  function CsvLines(header: seq<string>, data: seq<Record>): (rows: seq<seq<string>>)
    ensures |rows| == |data|
    ensures forall i :: 0 <= i < |data| ==> rows[i] == CsvLine(header, data[i])
  {
    if data == [] then [] else [CsvLine(header, data[0])] + CsvLines(header, data[1..])
  }

  /** `_save_to_csv`: nothing for no data; else the first row's keys as header, then every row. */
  function SaveCsv(data: seq<Record>, path: string): (r: Result<Written, SaveError>)
  {
    if data == [] then Ok(NothingWritten)
    else
      var header := data[0].keys;
      if HasExtraKey(header, data) then Err(ExtraKey)
      else Ok(CsvFile(path, header, CsvLines(header, data)))
  }

  /** The format chosen from the path's ending. */
  function SaveByFormat(data: seq<Record>, path: string): (r: Result<Written, SaveError>)
  {
    if EndsWith(path, ".csv") then SaveCsv(data, path)
    else if EndsWith(path, ".json") then Ok(JsonFile(path, data))
    else Err(Unsupported)
  }

  /**
   * `save` as written: the directory is created first, and for a bare file
   * name `os.makedirs('')` raises before the format is even looked at.
   */
  function SaveAsWritten(data: seq<Record>, path: string): (r: Result<Written, SaveError>)
  {
    if BareName(path) then Err(NoDirectory) else SaveByFormat(data, path)
  }

  /** `save` as evidently intended: a bare file name is saved in the current directory. */
  function Save(data: seq<Record>, path: string): (r: Result<Written, SaveError>)
  {
    SaveByFormat(data, path)
  }

  /** Every bare file name fails as written, whatever the data and the format. */
  lemma {:induction false} BareNameAlwaysFails(data: seq<Record>, path: string)
    requires BareName(path)
    ensures SaveAsWritten(data, path) == Err(NoDirectory)
  {
  }

  /** The input that shows it: saving JSON to `out.json` raises as written and succeeds as intended. */
  lemma {:induction false} BareNameFinding()
    ensures SaveAsWritten([], "out.json").Err?
    ensures Save([], "out.json") == Ok(JsonFile("out.json", []))
  {
    assert "out.json"[|"out.json"| - 4..] != ".csv";
    assert "out.json"[|"out.json"| - 5..] == ".json";
  }

  /** Both agree on every path that names a directory. */
  lemma {:induction false} SaveAgrees(data: seq<Record>, path: string)
    requires !BareName(path)
    ensures SaveAsWritten(data, path) == Save(data, path)
  {
  }

  /**
   * `save`: `.csv` writes CSV (nothing for no data), `.json` writes JSON,
   * anything else raises `ValueError`; a CSV row with a key outside the first
   * row's keys raises too.
   */
  lemma {:induction false} SaveDispatch(data: seq<Record>, path: string)
    ensures var r := Save(data, path);
      && (EndsWith(path, ".csv") ==>
          && (data == [] ==> r == Ok(NothingWritten))
          && (data != [] ==> (r.Err? <==> HasExtraKey(data[0].keys, data)))
          && (r.Ok? && data != [] ==> r.value.CsvFile? && r.value.path == path && r.value.header == data[0].keys))
      && (!EndsWith(path, ".csv") && EndsWith(path, ".json") ==> r == Ok(JsonFile(path, data)))
      && (!EndsWith(path, ".csv") && !EndsWith(path, ".json") ==> r == Err(Unsupported))
  {
  }

  /** Reading a CSV line back against its header (`csv.DictReader`): a later column wins a repeated name. */
  function ReadLine(header: seq<string>, line: seq<string>): (m: map<string, string>)
    requires |line| == |header|
    ensures m.Keys == set j | 0 <= j < |header| :: header[j]
  {
    if header == [] then map[] else map[header[0] := line[0]] + ReadLine(header[1..], line[1..])
  }

  /** A line written for a row whose keys cover the header reads back as the row restricted to the header. */
  lemma {:induction false} ReadLineOf(header: seq<string>, row: Record)
    requires forall k :: k in header ==> k in row.values
    ensures ReadLine(header, CsvLine(header, row)) == map k | k in header :: row.values[k]
  {
    if header != [] {
      ReadLineOf(header[1..], row);
      var line := CsvLine(header, row);
      assert line[1..] == CsvLine(header[1..], row);
    }
  }

  /**
   * A CSV save loses nothing when every row has exactly the header's keys:
   * reading each line back gives the row's contents.
   */
  lemma {:induction false} CsvRoundTrip(data: seq<Record>, path: string)
    requires data != [] && EndsWith(path, ".csv")
    requires forall i :: 0 <= i < |data| ==> forall k :: k in data[i].values <==> k in data[0].keys
    ensures Save(data, path).Ok?
    ensures var w := Save(data, path).value;
      w.CsvFile? && forall i :: 0 <= i < |data| ==> ReadLine(w.header, w.rows[i]) == data[i].values
  {
    var header := data[0].keys;
    assert !HasExtraKey(header, data);
    var w := Save(data, path).value;
    forall i | 0 <= i < |data| ensures ReadLine(w.header, w.rows[i]) == data[i].values {
      ReadLineOf(header, data[i]);
    }
  }
}
