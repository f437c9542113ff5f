/**
 * The one-shot GST CSV scraper (`recipe/gst/__init__.py`): every input row
 * with a GSTIN is scraped and written as one output line, in input order,
 * after a header line; the first failing scrape aborts the run.
 *
 * Reading and writing CSV is left out: the input is the list of row dicts,
 * the output the list of lines, each the cells in field-name order. Fetching
 * and parsing a page is an input function from a URL to the label entries
 * of the page or the exception it raised.
 */
module GstCsv {
  import opened Wrappers
  import opened Text
  import opened GstRecipe

  type Row = map<string, string>

  /** Scraping the page at a URL: its label entries, or the exception raised. */
  type Fetch = string -> Result<seq<LabelEntry>, string>

  /**
   * `GSTScraper.parse_page`: labels and values used as found. Without a
   * parsed page the attribute access raises and the empty dict is returned.
   */
  method ParsePage(soup: Option<seq<LabelEntry>>) returns (data: map<string, string>)
    ensures soup.None? ==> data == map[]
    ensures soup.Some? ==> data == Labels(Verbatim, soup.value)
  {
    data := map[];
    if soup.Some? {
      data := CollectLabels(Verbatim, soup.value);
    }
  }

  const Fieldnames: seq<string> := ["GSTIN", "Legal Name", "Trade Name", "Status", "Constitution", "Principal Place"]

  const UrlPrefix: string := "https://gst.jamku.app/gstin/"

  function Url(gstin: string): string {
    UrlPrefix + gstin
  }

  /** `row.get("gstin", "").strip()` */
  function GstinOf(row: Row): (g: string)
    ensures "gstin" !in row ==> g == []
  {
    if "gstin" in row then Strip(row["gstin"]) else []
  }

  /** The labels each output cell after the GSTIN is read from. */
  const Sources: seq<string> := ["Legal Name", "Trade Name", "Registration Status", "Entity Type", "Place of Business (Address)"]

  /** The output line for a GSTIN and its label dict. */
  function OutputLine(gstin: string, data: map<string, string>): (line: seq<string>)
    ensures |line| == |Fieldnames| && line[0] == gstin
  {
    [gstin, Get(data, "Legal Name"), Get(data, "Trade Name"), Get(data, "Registration Status"),
     Get(data, "Entity Type"), Get(data, "Place of Business (Address)")]
  }

  /** Each cell after the GSTIN is the value of its source label, or 'N/A' when the page lacks it. */
  lemma {:induction false} OutputCells(gstin: string, data: map<string, string>, i: nat)
    requires i < |Sources|
    ensures var line := OutputLine(gstin, data);
      && (Sources[i] in data ==> line[i + 1] == data[Sources[i]])
      && (Sources[i] !in data ==> line[i + 1] == NA)
  {
  }

  /** What a run writes after the header, and the exception that ended it early, if any. */
  datatype Outcome = Outcome(lines: seq<seq<string>>, error: Option<string>)

  /** The stripped `gstin` cell of each row, in order. */
  function Cells(input: seq<Row>): (cs: seq<string>)
    ensures |cs| == |input|
  {
    if input == [] then [] else [GstinOf(input[0])] + Cells(input[1..])
  }

  lemma {:induction false} CellAt(input: seq<Row>, k: nat)
    requires k < |input|
    ensures Cells(input)[k] == GstinOf(input[k])
  {
    if k > 0 {
      CellAt(input[1..], k - 1);
    }
  }

  lemma {:induction false} CellsAppend(a: seq<Row>, b: seq<Row>)
    ensures Cells(a + b) == Cells(a) + Cells(b)
  {
    if a == [] {
      assert a + b == b;
    } else {
      assert (a + b)[0] == a[0];
      assert (a + b)[1..] == a[1..] + b;
      CellsAppend(a[1..], b);
    }
  }

  /** The run over the rows' GSTIN cells: a blank one is skipped, a failing scrape ends the run. */
  function Run(cells: seq<string>, fetch: Fetch): Outcome
  {
    if cells == [] then Outcome([], None)
    else if cells[0] == [] then Run(cells[1..], fetch)
    else match fetch(Url(cells[0]))
      case Err(e) => Outcome([], Some(e))
      case Ok(entries) =>
        var rest := Run(cells[1..], fetch);
        Outcome([OutputLine(cells[0], Labels(Verbatim, entries))] + rest.lines, rest.error)
  }

  /** What `process_csv` writes after the header for the given input rows. */
  function Process(input: seq<Row>, fetch: Fetch): Outcome {
    Run(Cells(input), fetch)
  }

  /** `process_csv`: the header, then one line per row with a GSTIN, until a scrape raises. */
  method ProcessCsv(input: seq<Row>, fetch: Fetch) returns (lines: seq<seq<string>>, error: Option<string>)
    ensures lines == [Fieldnames] + Process(input, fetch).lines
    ensures error == Process(input, fetch).error
  {
    ghost var cells := Cells(input);
    ghost var written: seq<seq<string>> := [];
    lines := [Fieldnames];
    error := None;
    var i := 0;
    while i < |input|
      invariant 0 <= i <= |input| && lines == [Fieldnames] + written
      invariant Run(cells, fetch) == Outcome(written + Run(cells[i..], fetch).lines, Run(cells[i..], fetch).error)
    {
      var gstin := GstinOf(input[i]);
      CellAt(input, i);
      RunFrom(cells, i, fetch);
      if gstin != [] {
        var page := fetch(Url(gstin));
        if page.Err? {
          error := Some(page.error);
          assert written + [] == written;
          return;
        }
        var data := ParsePage(Some(page.value));
        lines := lines + [OutputLine(gstin, data)];
        written := written + [LineFor(gstin, fetch)];
      }
      i := i + 1;
    }
    assert written + [] == written;
  }

  /** How the run from cell `i` on begins. */
  lemma {:induction false} RunFrom(cells: seq<string>, i: nat, fetch: Fetch)
    requires i < |cells|
    ensures var c := cells[i];
      var rest := Run(cells[i + 1..], fetch);
      && (c == [] ==> Run(cells[i..], fetch) == rest)
      && (c != [] && fetch(Url(c)).Err? ==> Run(cells[i..], fetch) == Outcome([], Some(fetch(Url(c)).error)))
      && (c != [] && fetch(Url(c)).Ok? ==>
          Run(cells[i..], fetch) == Outcome([LineFor(c, fetch)] + rest.lines, rest.error))
  {
    assert cells[i..][1..] == cells[i + 1..];
  }

  // ---------------------------------------------------------------------------
  // what a run writes

  /** The non-blank cells, in order, repeats kept. */
  function NonBlank(cells: seq<string>): (gs: seq<string>)
    ensures |gs| <= |cells|
    ensures forall k :: 0 <= k < |gs| ==> gs[k] != [] && gs[k] in cells
  {
    if cells == [] then []
    else if cells[0] == [] then NonBlank(cells[1..])
    else [cells[0]] + NonBlank(cells[1..])
  }

  /** The stripped GSTINs of the rows that have one, in input order, repeats kept. */
  function Gstins(input: seq<Row>): seq<string> {
    NonBlank(Cells(input))
  }

  /** The line written for a GSTIN whose scrape succeeded. */
  function LineFor(gstin: string, fetch: Fetch): seq<string>
    requires fetch(Url(gstin)).Ok?
  {
    OutputLine(gstin, Labels(Verbatim, fetch(Url(gstin)).value))
  }

  /**
   * A run writes one line per non-blank cell, in order: the lines are for a
   * prefix of the non-blank cells, each from a scrape that succeeded.
   */
  lemma {:induction false} RunLines(cells: seq<string>, fetch: Fetch)
    ensures var o := Run(cells, fetch);
      var gs := NonBlank(cells);
      && |o.lines| <= |gs|
      && (forall k :: 0 <= k < |o.lines| ==> fetch(Url(gs[k])).Ok? && o.lines[k] == LineFor(gs[k], fetch))
  {
    if cells != [] {
      RunLines(cells[1..], fetch);
      if cells[0] != [] && fetch(Url(cells[0])).Ok? {
        var o := Run(cells, fetch);
        var rest := Run(cells[1..], fetch);
        var gs := NonBlank(cells);
        forall k | 0 <= k < |o.lines| ensures fetch(Url(gs[k])).Ok? && o.lines[k] == LineFor(gs[k], fetch) {
          if k > 0 {
            assert o.lines[k] == rest.lines[k - 1];
            assert gs[k] == NonBlank(cells[1..])[k - 1];
          }
        }
      }
    }
  }

  /**
   * The run ends early exactly when a scrape fails, and then stops at the
   * first failing cell: its error is that scrape's.
   */
  lemma {:induction false} RunError(cells: seq<string>, fetch: Fetch)
    ensures var o := Run(cells, fetch);
      var gs := NonBlank(cells);
      && (o.error.None? <==> |o.lines| == |gs|)
      && (o.error.Some? ==> |o.lines| < |gs| && fetch(Url(gs[|o.lines|])) == Err(o.error.value))
  {
    if cells != [] {
      RunError(cells[1..], fetch);
      RunLines(cells[1..], fetch);
      if cells[0] != [] && fetch(Url(cells[0])).Ok? {
        var rest := Run(cells[1..], fetch);
        if rest.error.Some? {
          assert NonBlank(cells)[|rest.lines| + 1] == NonBlank(cells[1..])[|rest.lines|];
        }
      }
    }
  }

  /** `process_csv` writes one line per row with a GSTIN, in input order, up to the first failing scrape. */
  lemma {:induction false} ProcessSpec(input: seq<Row>, fetch: Fetch)
    ensures var o := Process(input, fetch);
      var gs := Gstins(input);
      && |o.lines| <= |gs|
      && (forall k :: 0 <= k < |o.lines| ==> fetch(Url(gs[k])).Ok? && o.lines[k] == LineFor(gs[k], fetch))
      && (o.error.None? <==> |o.lines| == |gs|)
      && (o.error.Some? ==> fetch(Url(gs[|o.lines|])) == Err(o.error.value))
  {
    RunLines(Cells(input), fetch);
    RunError(Cells(input), fetch);
  }

  /** Every GSTIN written is non-blank and already stripped. */
  lemma {:induction false} GstinsStripped(input: seq<Row>)
    ensures forall g :: g in Gstins(input) ==> g != [] && Strip(g) == g
  {
    forall g | g in Gstins(input) ensures g != [] && Strip(g) == g {
      var k :| 0 <= k < |input| && Cells(input)[k] == g;
      CellAt(input, k);
      var row := input[k];
      StripIdempotent(row["gstin"]);
    }
  }

  /** A blank cell produces nothing: inserting one anywhere leaves the run unchanged. */
  lemma {:induction false} BlankCellIgnored(pre: seq<string>, post: seq<string>, fetch: Fetch)
    ensures Run(pre + [[]] + post, fetch) == Run(pre + post, fetch)
    decreases |pre|
  {
    if pre == [] {
      assert pre + [[]] + post == [[]] + post && pre + post == post;
      assert ([[]] + post)[1..] == post;
    } else {
      assert (pre + [[]] + post)[0] == (pre + post)[0] == pre[0];
      assert (pre + [[]] + post)[1..] == pre[1..] + [[]] + post;
      assert (pre + post)[1..] == pre[1..] + post;
      BlankCellIgnored(pre[1..], post, fetch);
    }
  }

  /** Rows without a GSTIN produce nothing: inserting one anywhere leaves the run unchanged. */
  lemma {:induction false} BlankRowIgnored(pre: seq<Row>, row: Row, post: seq<Row>, fetch: Fetch)
    requires GstinOf(row) == []
    ensures Process(pre + [row] + post, fetch) == Process(pre + post, fetch)
  {
    CellsAppend(pre + [row], post);
    CellsAppend(pre, [row]);
    CellsAppend(pre, post);
    assert Cells([row]) == [[]];
    BlankCellIgnored(Cells(pre), Cells(post), fetch);
  }
}
