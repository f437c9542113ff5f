/**
 * The incremental GST scraper plugin (`src/scraper/plugins/gst.py`): which
 * input rows are scraped, how results are appended to the output file one
 * by one, and how a second run skips what the first one saved.
 *
 * Files are a map from path to the rows they hold (the CSV or Excel
 * encoding is left out); the scraper is a function from a GSTIN to its
 * label dict or the exception it raised.
 */
module GstPlugin {
  import opened Wrappers
  import opened Text
  import opened Dedup
  import opened Paths
  import opened GstRecipe

  type Row = map<string, string>

  /** What every output file holds: its rows, in order. */
  type Files = map<string, seq<Row>>

  /** `GSTScraper(...).scrape()`: the label dict, or the exception raised while fetching. */
  type Scrape = string -> Result<map<string, string>, string>

  // ---------------------------------------------------------------------------
  // parse_page

  /**
   * `GSTScraper.parse_page`: the title-cased label dict. Without a parsed
   * page the attribute access raises and the dict built so far, here the
   * empty one, is returned.
   */
  method ParsePage(soup: Option<seq<LabelEntry>>) returns (data: map<string, string>)
    ensures soup.None? ==> data == map[]
    ensures soup.Some? ==> data == Labels(Titled, soup.value)
  {
    data := map[];
    if soup.Some? {
      data := CollectLabels(Titled, soup.value);
    }
  }

  // ---------------------------------------------------------------------------
  // the GSTIN of an input row

  /** The input columns tried for the GSTIN, in order. */
  const GstinKeys: seq<string> := ["gstin", "Gstin", "GSTIN", "gst_number", "GST Number"]

  /** The value of the first key present with a non-empty value (`if key in row and row[key]`). */
  function FirstFilled(row: Row, keys: seq<string>): Option<string>
  {
    if keys == [] then None
    else if keys[0] in row && row[keys[0]] != [] then Some(row[keys[0]])
    else FirstFilled(row, keys[1..])
  }

  /** The keys are tried in order: the value found is that of the first key with a non-empty value. */
  lemma {:induction false} FirstFilledSpec(row: Row, keys: seq<string>)
    ensures FirstFilled(row, keys).None? <==> forall i :: 0 <= i < |keys| ==> keys[i] !in row || row[keys[i]] == []
    ensures FirstFilled(row, keys).Some? ==>
      exists i :: (0 <= i < |keys| && keys[i] in row && row[keys[i]] == FirstFilled(row, keys).value != [] &&
        (forall j :: 0 <= j < i ==> keys[j] !in row || row[keys[j]] == []))
  {
    if keys != [] && !(keys[0] in row && row[keys[0]] != []) {
      FirstFilledSpec(row, keys[1..]);
      assert forall i :: 1 <= i < |keys| ==> keys[i] == keys[1..][i - 1];
      if FirstFilled(row, keys).Some? {
        var i :| 0 <= i < |keys[1..]| && keys[1..][i] in row && row[keys[1..][i]] == FirstFilled(row, keys).value != [] &&
          (forall j :: 0 <= j < i ==> keys[1..][j] !in row || row[keys[1..][j]] == []);
        assert keys[i + 1] == keys[1..][i];
      }
    }
  }

  /** The stripped GSTIN of a row, or `None` when the row is skipped for having none. */
  function GstinOf(row: Row): Option<string>
  {
    match FirstFilled(row, GstinKeys)
    case None => None
    case Some(v) => if Strip(v) == [] then None else Some(Strip(v))
  }

  /** A GSTIN found is non-empty and has no surrounding whitespace. */
  lemma {:induction false} GstinStripped(row: Row)
    ensures GstinOf(row).Some? ==> GstinOf(row).value != [] && Strip(GstinOf(row).value) == GstinOf(row).value
  {
    if FirstFilled(row, GstinKeys).Some? {
      StripIdempotent(FirstFilled(row, GstinKeys).value);
    }
  }

  /**
   * The first filled column decides: one holding only spaces hides a
   * later column with a real GSTIN, and the row is skipped.
   */
  lemma {:induction false} BlankColumnShadows()
    ensures GstinOf(map["gstin" := " ", "GSTIN" := "27AAAAA0000A1Z5"]) == None
  {
    var row := map["gstin" := " ", "GSTIN" := "27AAAAA0000A1Z5"];
    assert "gstin" in row && row["gstin"] != [];
    assert FirstFilled(row, GstinKeys) == Some(" ");
    assert LStrip(" ") == [];
  }

  // ---------------------------------------------------------------------------
  // the output file

  const GstinField: string := "Gstin"

  /** `load_existing_gstins`: every row's 'Gstin' (`''` when it has none), or nothing when the file is absent. */
  function LoadExisting(files: Files, path: string): set<string>
  {
    if path in files then set r | r in files[path] :: if GstinField in r then r[GstinField] else [] else {}
  }

  /** `Path(path).suffix.lower()` */
  function Extension(path: string): string {
    LowerStr(Suffix(path))
  }

  predicate Recognised(ext: string) {
    ext == ".csv" || ext == ".xlsx" || ext == ".xls"
  }

  /** A save: `append` keeps what the file holds when it exists, otherwise the file holds the one row. */
  function Write(files: Files, path: string, append: bool, row: Row): Files
  {
    files[path := (if append && path in files then files[path] else []) + [row]]
  }

  /**
   * `save_result` as written: the append decision looks at `output_file`,
   * but an unrecognised extension is written to the `.csv` path beside it;
   * `None` when `with_suffix` raises.
   */
  function SaveResultAsWritten(files: Files, row: Row, path: string, isFirst: bool): Option<Files> {
    SaveAsWrittenTo(files, row, path, Target(path), isFirst)
  }

  /** A save to `target` whose append decision looks at `path`. */
  function SaveAsWrittenTo(files: Files, row: Row, path: string, target: Option<string>, isFirst: bool): Option<Files> {
    match target
    case None => None
    case Some(t) => Some(Write(files, t, !isFirst && path in files, row))
  }

  /** The file the results go to: the output path, or its `.csv` sibling for an unrecognised extension. */
  function Target(path: string): Option<string> {
    if Recognised(Extension(path)) then Some(path) else WithSuffix(path, ".csv")
  }

  /** A save to the file results go to, appending when it exists and this is not the first save. */
  function SaveTo(files: Files, row: Row, target: Option<string>, isFirst: bool): Option<Files> {
    match target
    case None => None
    case Some(t) => Some(Write(files, t, !isFirst && t in files, row))
  }

  /** `save_result` as evidently intended: the append decision looks at the file that is written. */
  function SaveResult(files: Files, row: Row, path: string, isFirst: bool): Option<Files> {
    SaveTo(files, row, Target(path), isFirst)
  }

  /** The two agree for `.csv`, `.xlsx` and `.xls` outputs. */
  lemma {:induction false} SaveAgrees(files: Files, row: Row, path: string, isFirst: bool)
    requires Recognised(Extension(path))
    ensures SaveResultAsWritten(files, row, path, isFirst) == SaveResult(files, row, path, isFirst)
  {
  }

  /**
   * With an unrecognised extension (say `out.txt`) and no such file yet,
   * two results saved in turn leave only the second in the `.csv` file as
   * written, and both, in order, as intended.
   */
  lemma {:induction false} UnrecognisedOverwrites(files: Files, path: string, r1: Row, r2: Row)
    requires !Recognised(Extension(path)) && Name(path) != [] && path !in files
    ensures var c := WithSuffix(path, ".csv").value;
      && SaveResultAsWritten(files, r1, path, true) == Some(files[c := [r1]])
      && SaveResultAsWritten(files[c := [r1]], r2, path, false) == Some(files[c := [r2]])
      && SaveResult(files, r1, path, true) == Some(files[c := [r1]])
      && SaveResult(files[c := [r1]], r2, path, false) == Some(files[c := [r1, r2]])
  {
    CsvSibling(path);
    var c := WithSuffix(path, ".csv").value;
    assert Target(path) == Some(c);
    AsWrittenTwice(files, path, c, r1, r2);
    IntendedTwice(files, c, r1, r2);
  }

  lemma {:induction false} AsWrittenTwice(files: Files, path: string, c: string, r1: Row, r2: Row)
    requires c != path && path !in files
    ensures SaveAsWrittenTo(files, r1, path, Some(c), true) == Some(files[c := [r1]])
    ensures SaveAsWrittenTo(files[c := [r1]], r2, path, Some(c), false) == Some(files[c := [r2]])
  {
    var f1 := files[c := [r1]];
    assert [] + [r1] == [r1] && [] + [r2] == [r2];
    assert path !in f1;
    assert Write(f1, c, false, r2) == f1[c := [r2]] == files[c := [r2]];
  }

  lemma {:induction false} IntendedTwice(files: Files, c: string, r1: Row, r2: Row)
    ensures SaveTo(files, r1, Some(c), true) == Some(files[c := [r1]])
    ensures SaveTo(files[c := [r1]], r2, Some(c), false) == Some(files[c := [r1, r2]])
  {
    var f1 := files[c := [r1]];
    assert [] + [r1] == [r1];
    assert c in f1 && f1[c] + [r2] == [r1, r2];
    assert Write(f1, c, true, r2) == files[c := [r1, r2]];
  }

  /** The `.csv` sibling of a path with an unrecognised extension is another file. */
  lemma {:induction false} CsvSibling(path: string)
    requires !Recognised(Extension(path)) && Name(path) != []
    ensures WithSuffix(path, ".csv").Some? && WithSuffix(path, ".csv").value != path
  {
    var c := WithSuffix(path, ".csv").value;
    WithSuffixSpec(path, ".csv");
    CsvExtension(c);
  }

  lemma {:induction false} CsvExtension(c: string)
    requires Suffix(c) == ".csv"
    ensures Recognised(Extension(c))
  {
    CsvLower();
  }

  lemma {:induction false} CsvLower()
    ensures LowerStr(".csv") == ".csv"
  {
    var e := ".csv";
    assert !IsUpper(e[0]) && !IsUpper(e[1]) && !IsUpper(e[2]) && !IsUpper(e[3]);
    LowerStrFixed(e);
  }

  // ---------------------------------------------------------------------------
  // process_data

  /** The row saved for a GSTIN. */
  function ResultRow(g: string, data: map<string, string>): (r: Row)
    ensures GstinField in r && r[GstinField] == g
  {
    var address := Get(data, AddressLabel);
    var a := ExtractAddressParts(address);
    map[
      GstinField := g,
      "Legal Name" := Get(data, "Legal Name"),
      "Trade Name" := Get(data, "Trade Name"),
      "Status" := Get(data, "Registration Status"),
      "Constitution" := Get(data, "Entity Type"),
      "Principal Place" := address,
      "City" := a.city,
      "District" := a.district,
      "State" := a.state,
      "Pincode" := a.pincode]
  }

  /** The loop's variables, and the GSTINs saved so far. */
  datatype Progress = Progress(files: Files, existing: set<string>, isFirst: bool, count: nat, saved: seq<string>)

  /**
   * Before the loop: the GSTINs already in `output_file`, and whether it
   * exists yet. Both look at the output path, not at the file written.
   */
  function Start(files: Files, path: string): Progress {
    Progress(files, LoadExisting(files, path), path !in files, 0, [])
  }

  /**
   * One input row: skip it, or scrape, save and record its GSTIN; a failure
   * skips it too. The save goes to `target` and decides on appending by
   * looking at `path`, as `save_result` does.
   */
  function Step(st: Progress, row: Row, path: string, target: Option<string>, scrape: Scrape): Progress {
    StepOn(st, GstinOf(row), path, target, scrape)
  }

  /** One input row whose GSTIN lookup gave `gstin`. */
  function StepOn(st: Progress, gstin: Option<string>, path: string, target: Option<string>, scrape: Scrape): Progress {
    match gstin
    case None => st
    case Some(g) =>
      if g in st.existing then st
      else match scrape(g)
        case Err(_) => st
        case Ok(data) =>
          match SaveAsWrittenTo(st.files, ResultRow(g, data), path, target, st.isFirst)
          case None => st
          case Some(files) => Progress(files, st.existing + {g}, false, st.count + 1, st.saved + [g])
  }

  function Run(st: Progress, rows: seq<Row>, path: string, target: Option<string>, scrape: Scrape): Progress {
    if rows == [] then st
    else Step(Run(st, rows[..|rows| - 1], path, target, scrape), rows[|rows| - 1], path, target, scrape)
  }

  /** `process_data`, from loading the output to the end of the loop. */
  method ProcessData(files0: Files, path: string, input: seq<Row>, scrape: Scrape)
    returns (files: Files, existing: set<string>, processedCount: nat)
    ensures var p := Run(Start(files0, path), input, path, Target(path), scrape);
      files == p.files && existing == p.existing && processedCount == p.count
  {
    files, existing, processedCount := ProcessRows(files0, path, Target(path), input, scrape);
  }

  /** The loop of `process_data`, writing to `target`. */
  method ProcessRows(files0: Files, path: string, target: Option<string>, input: seq<Row>, scrape: Scrape)
    returns (files: Files, existing: set<string>, processedCount: nat)
    ensures var p := Run(Start(files0, path), input, path, target, scrape);
      files == p.files && existing == p.existing && processedCount == p.count
  {
    var start := Start(files0, path);
    files := files0;
    existing := start.existing;
    var isFirst := start.isFirst;
    processedCount := 0;
    ghost var saved: seq<string> := [];
    var i := 0;
    while i < |input|
      invariant 0 <= i <= |input|
      invariant Run(start, input[..i], path, target, scrape) == Progress(files, existing, isFirst, processedCount, saved)
    {
      assert input[..i] + [input[i]] == input[..i + 1];
      RunLast(start, input[..i], input[i], path, target, scrape);
      var gstin := GstinOf(input[i]);
      files, existing, isFirst, processedCount, saved :=
        ProcessRow(files, existing, isFirst, processedCount, saved, gstin, path, target, scrape);
      i := i + 1;
    }
    assert input[..|input|] == input;
  }

  /** The body of the loop over the input rows. */
  method ProcessRow(files: Files, existing: set<string>, isFirst: bool, count: nat, ghost saved: seq<string>,
                    gstin: Option<string>, path: string, target: Option<string>, scrape: Scrape)
    returns (files': Files, existing': set<string>, isFirst': bool, count': nat, ghost saved': seq<string>)
    ensures Progress(files', existing', isFirst', count', saved')
         == StepOn(Progress(files, existing, isFirst, count, saved), gstin, path, target, scrape)
  {
    files', existing', isFirst', count', saved' := files, existing, isFirst, count, saved;
    if gstin.Some? && gstin.value !in existing {
      var g := gstin.value;
      var scraped := scrape(g);
      if scraped.Ok? {
        var written := SaveAsWrittenTo(files, ResultRow(g, scraped.value), path, target, isFirst);
        if written.Some? {
          files' := written.value;
          isFirst' := false;
          count' := count + 1;
          existing' := existing + {g};
          saved' := saved + [g];
        }
      }
    }
  }

  lemma {:induction false} RunLast(st: Progress, rows: seq<Row>, row: Row, path: string, target: Option<string>, scrape: Scrape)
    ensures Run(st, rows + [row], path, target, scrape) == Step(Run(st, rows, path, target, scrape), row, path, target, scrape)
  {
    assert (rows + [row])[..|rows|] == rows;
  }

  /**
   * `process_data` as evidently intended: the GSTINs are loaded from, and
   * the append decision looks at, the file the results are written to.
   */
  function IntendedRun(files0: Files, path: string, input: seq<Row>, scrape: Scrape): Progress {
    var t := Target(path).GetOr(path);
    Run(Start(files0, t), input, t, Target(path), scrape)
  }

  /** For `.csv`, `.xlsx` and `.xls` outputs the run as written is the intended one. */
  lemma {:induction false} IntendedAgrees(files0: Files, path: string, input: seq<Row>, scrape: Scrape)
    requires Recognised(Extension(path))
    ensures IntendedRun(files0, path, input, scrape) == Run(Start(files0, path), input, path, Target(path), scrape)
  {
  }

  // ---------------------------------------------------------------------------
  // what the loop keeps

  /** The rows the saved GSTINs were written as. */
  function Rows(saved: seq<string>, scrape: Scrape): (rs: seq<Row>)
    ensures |rs| == |saved|
  {
    if saved == [] then []
    else
      var n := |saved| - 1;
      Rows(saved[..n], scrape) + [ResultRow(saved[n], match scrape(saved[n]) case Ok(d) => d case Err(_) => map[])]
  }

  /** What the target file held before the run. */
  function Base(files: Files, t: string): seq<Row> {
    if t in files then files[t] else []
  }

  /** The bookkeeping: one count per save, each saved GSTIN new and recorded. */
  ghost predicate Counted(start: Progress, st: Progress) {
    && st.count == |st.saved|
    && Distinct(st.saved)
    && (forall g :: g in st.saved ==> g !in start.existing)
    && (forall g :: g in st.existing <==> g in start.existing || g in st.saved)
    && st.isFirst == (start.isFirst && st.saved == [])
  }

  /** No file but `t` changed. */
  ghost predicate OthersKept(start: Progress, st: Progress, t: string) {
    && (forall q :: q != t ==> (q in st.files <==> q in start.files))
    && (forall q :: q != t && q in start.files ==> st.files[q] == start.files[q])
  }

  /** The target file holds what it held before and then one row per save; no other file changes. */
  ghost predicate Stored(start: Progress, st: Progress, t: string, scrape: Scrape) {
    && (st.saved == [] ==> st.files == start.files)
    && (st.saved != [] ==> t in st.files && st.files[t] == Base(start.files, t) + Rows(st.saved, scrape))
    && OthersKept(start, st, t)
  }

  /** The target file holds only the row of the last save; no other file changes. */
  ghost predicate Overwritten(start: Progress, st: Progress, t: string, scrape: Scrape) {
    && (st.saved == [] ==> st.files == start.files)
    && (st.saved != [] ==> t in st.files && st.files[t] == [Rows(st.saved, scrape)[|st.saved| - 1]])
    && OthersKept(start, st, t)
  }

  /** The GSTIN lookup of each row, in order. */
  function Gstins(rows: seq<Row>): (r: seq<Option<string>>)
    ensures |r| == |rows|
  {
    if rows == [] then [] else Gstins(rows[..|rows| - 1]) + [GstinOf(rows[|rows| - 1])]
  }

  lemma {:induction false} GstinsAt(rows: seq<Row>, i: nat)
    requires i < |rows|
    ensures Gstins(rows)[i] == GstinOf(rows[i])
    decreases |rows|
  {
    var n := |rows| - 1;
    if i < n {
      GstinsAt(rows[..n], i);
    }
  }

  /** Every saved GSTIN is the GSTIN of a row processed so far, and scraped without error. */
  ghost predicate FromInput(st: Progress, seen: seq<Row>, scrape: Scrape) {
    forall g :: g in st.saved ==> scrape(g).Ok? && Some(g) in Gstins(seen)
  }

  /**
   * How one row changes the state: not at all, or by one save of its
   * GSTIN, appending exactly when this is not the first save and the output
   * path exists.
   */
  lemma {:induction false} StepCases(st: Progress, row: Row, path: string, target: Option<string>, scrape: Scrape)
    ensures var st' := Step(st, row, path, target, scrape);
      || st' == st
      || (&& GstinOf(row).Some? && target.Some?
          && var g := GstinOf(row).value;
          && g !in st.existing && scrape(g).Ok?
          && var t := target.value;
          && st' == Progress(Write(st.files, t, !st.isFirst && path in st.files, ResultRow(g, scrape(g).value)),
                             st.existing + {g}, false, st.count + 1, st.saved + [g]))
  {
  }

  lemma {:induction false} StepCounted(start: Progress, st: Progress, row: Row, path: string, target: Option<string>, scrape: Scrape)
    requires Counted(start, st)
    ensures Counted(start, Step(st, row, path, target, scrape))
  {
    var st' := Step(st, row, path, target, scrape);
    StepCases(st, row, path, target, scrape);
    if st' != st {
      var g := GstinOf(row).value;
      assert st'.saved == st.saved + [g];
    }
  }

  /** One more save adds its result row after the rows of the earlier ones. */
  lemma {:induction false} RowsSnoc(saved: seq<string>, g: string, scrape: Scrape)
    requires scrape(g).Ok?
    ensures Rows(saved + [g], scrape) == Rows(saved, scrape) + [ResultRow(g, scrape(g).value)]
  {
    assert (saved + [g])[..|saved|] == saved;
  }

  /** When the output path is the file written, a save appends after the first one. */
  lemma {:induction false} StepStored(start: Progress, st: Progress, row: Row, t: string, scrape: Scrape)
    requires start.isFirst == (t !in start.files)
    requires Counted(start, st) && Stored(start, st, t, scrape)
    ensures Stored(start, Step(st, row, t, Some(t), scrape), t, scrape)
  {
    var st' := Step(st, row, t, Some(t), scrape);
    StepCases(st, row, t, Some(t), scrape);
    if st' != st {
      StoredSave(start, st, GstinOf(row).value, t, scrape);
    }
  }

  /** The save case of `StepStored`. */
  lemma {:induction false} StoredSave(start: Progress, st: Progress, g: string, t: string, scrape: Scrape)
    requires start.isFirst == (t !in start.files) && scrape(g).Ok?
    requires st.isFirst == (start.isFirst && st.saved == []) && Stored(start, st, t, scrape)
    ensures Stored(start, Progress(Write(st.files, t, !st.isFirst && t in st.files, ResultRow(g, scrape(g).value)),
                                   st.existing + {g}, false, st.count + 1, st.saved + [g]), t, scrape)
  {
    var row := ResultRow(g, scrape(g).value);
    var st' := Progress(Write(st.files, t, !st.isFirst && t in st.files, row), st.existing + {g}, false, st.count + 1, st.saved + [g]);
    RowsSnoc(st.saved, g, scrape);
    if st.saved == [] {
      assert st.files == start.files;
    }
    var v := Base(start.files, t) + Rows(st.saved, scrape) + [row];
    AppendedRow(Base(start.files, t), Rows(st.saved, scrape), st.files, t, st.isFirst, row);
    assert v == Base(start.files, t) + Rows(st'.saved, scrape);
    OthersUpdated(start, st, st', t, v);
  }

  /** A save to a file holding `base + rows` (empty on the first save) leaves it holding `base + rows + [row]`. */
  lemma {:induction false} AppendedRow(base: seq<Row>, rows: seq<Row>, files: Files, t: string, isFirst: bool, row: Row)
    requires isFirst ==> rows == [] && base == []
    requires !isFirst ==> t in files && files[t] == base + rows
    ensures Write(files, t, !isFirst && t in files, row) == files[t := base + rows + [row]]
  {
    if isFirst {
      assert base + rows + [row] == [] + [row];
    } else {
      assert base + rows + [row] == files[t] + [row];
    }
  }

  /** Changing only the file written keeps every other file. */
  lemma {:induction false} OthersUpdated(start: Progress, st: Progress, st': Progress, t: string, v: seq<Row>)
    requires OthersKept(start, st, t) && st'.files == st.files[t := v]
    ensures OthersKept(start, st', t)
  {
  }

  /** When the output path is another file that does not exist, every save truncates the file written. */
  lemma {:induction false} StepOverwritten(start: Progress, st: Progress, row: Row, path: string, t: string, scrape: Scrape)
    requires path != t && path !in start.files
    requires Overwritten(start, st, t, scrape)
    ensures Overwritten(start, Step(st, row, path, Some(t), scrape), t, scrape)
  {
    var st' := Step(st, row, path, Some(t), scrape);
    StepCases(st, row, path, Some(t), scrape);
    if st' != st {
      var g := GstinOf(row).value;
      RowsSnoc(st.saved, g, scrape);
      assert path !in st.files;
      assert st'.files[t] == [ResultRow(g, scrape(g).value)];
    }
  }

  lemma {:induction false} StepFromInput(st: Progress, seen: seq<Row>, row: Row, path: string, target: Option<string>, scrape: Scrape)
    requires FromInput(st, seen, scrape)
    ensures FromInput(Step(st, row, path, target, scrape), seen + [row], scrape)
  {
    StepCases(st, row, path, target, scrape);
    assert (seen + [row])[..|seen|] == seen;
    assert Gstins(seen + [row]) == Gstins(seen) + [GstinOf(row)];
  }

  /**
   * After the loop: `processed_count` is the number of saves, no GSTIN is
   * saved twice or was already loaded, the existing set has grown by
   * exactly the saved ones, `is_first_result` held only until the first
   * save, and every saved GSTIN came from the input and scraped cleanly.
   */
  lemma {:induction false} RunCounted(start: Progress, input: seq<Row>, path: string, target: Option<string>, scrape: Scrape)
    requires start.count == 0 && start.saved == []
    ensures var p := Run(start, input, path, target, scrape);
      Counted(start, p) && FromInput(p, input, scrape)
    decreases |input|
  {
    if input != [] {
      var n := |input| - 1;
      RunCounted(start, input[..n], path, target, scrape);
      var p := Run(start, input[..n], path, target, scrape);
      StepCounted(start, p, input[n], path, target, scrape);
      StepFromInput(p, input[..n], input[n], path, target, scrape);
      assert input[..n] + [input[n]] == input;
    }
  }

  /**
   * After the loop, when the output path is the file written (a `.csv`,
   * `.xlsx` or `.xls` output): that file holds its earlier rows followed by
   * one result row per save, in order, and no other file changed.
   */
  lemma {:induction false} RunStored(start: Progress, input: seq<Row>, t: string, scrape: Scrape)
    requires start.count == 0 && start.saved == [] && start.isFirst == (t !in start.files)
    ensures Stored(start, Run(start, input, t, Some(t), scrape), t, scrape)
    decreases |input|
  {
    if input != [] {
      var n := |input| - 1;
      RunStored(start, input[..n], t, scrape);
      RunCounted(start, input[..n], t, Some(t), scrape);
      StepStored(start, Run(start, input[..n], t, Some(t), scrape), input[n], t, scrape);
    }
  }

  /**
   * After the loop, when the results go to another file than a missing
   * output path (the `.csv` sibling of `out.txt`): that file holds only the
   * row of the last save, and no other file changed.
   */
  lemma {:induction false} RunOverwritten(start: Progress, input: seq<Row>, path: string, t: string, scrape: Scrape)
    requires start.saved == [] && path != t && path !in start.files
    ensures Overwritten(start, Run(start, input, path, Some(t), scrape), t, scrape)
    decreases |input|
  {
    if input != [] {
      var n := |input| - 1;
      RunOverwritten(start, input[..n], path, t, scrape);
      StepOverwritten(start, Run(start, input[..n], path, Some(t), scrape), input[n], path, t, scrape);
    }
  }

  /** The `.csv` sibling of an output with an unrecognised extension, when there is one, is another file. */
  lemma {:induction false} TargetElsewhere(path: string)
    requires !Recognised(Extension(path))
    ensures Target(path) != Some(path)
  {
    assert Target(path) == WithSuffix(path, ".csv");
    if Name(path) != [] {
      CsvSibling(path);
    }
  }

  /**
   * `process_data` on an output with an unrecognised extension that does
   * not exist: every save truncates the `.csv` file, which is left holding
   * the last result only.
   */
  lemma {:induction false} ProcessOverwrites(files0: Files, path: string, input: seq<Row>, scrape: Scrape)
    requires !Recognised(Extension(path)) && path !in files0 && Target(path).Some?
    ensures var p := Run(Start(files0, path), input, path, Target(path), scrape);
      var c := Target(path).value;
      && (p.saved == [] ==> p.files == files0)
      && (p.saved != [] ==> c in p.files && p.files[c] == [Rows(p.saved, scrape)[|p.saved| - 1]])
  {
    TargetElsewhere(path);
    RunOverwritten(Start(files0, path), input, path, Target(path).value, scrape);
  }

  /** A run never creates a path it does not write to. */
  lemma {:induction false} RunKeepsOut(st: Progress, rows: seq<Row>, path: string, target: Option<string>, scrape: Scrape)
    requires target != Some(path) && path !in st.files
    ensures path !in Run(st, rows, path, target, scrape).files
    decreases |rows|
  {
    if rows != [] {
      var n := |rows| - 1;
      RunKeepsOut(st, rows[..n], path, target, scrape);
      StepCases(Run(st, rows[..n], path, target, scrape), rows[n], path, target, scrape);
    }
  }

  /**
   * A second `process_data` on an unrecognised output that did not exist
   * loads no GSTIN and takes its first save as the first: it scrapes every
   * row again, whatever the first run saved.
   */
  lemma {:induction false} ResumeRescrapes(files0: Files, path: string, input: seq<Row>, scrape: Scrape)
    requires !Recognised(Extension(path)) && path !in files0
    ensures var p := Run(Start(files0, path), input, path, Target(path), scrape);
      Start(p.files, path).existing == {} && Start(p.files, path).isFirst
  {
    TargetElsewhere(path);
    RunKeepsOut(Start(files0, path), input, path, Target(path), scrape);
  }

  /** The existing set only grows. */
  lemma {:induction false} RunGrows(st: Progress, rows: seq<Row>, path: string, target: Option<string>, scrape: Scrape)
    ensures st.existing <= Run(st, rows, path, target, scrape).existing
    decreases |rows|
  {
    if rows != [] {
      RunGrows(st, rows[..|rows| - 1], path, target, scrape);
      StepCases(Run(st, rows[..|rows| - 1], path, target, scrape), rows[|rows| - 1], path, target, scrape);
    }
  }

  /**
   * Every input row with a GSTIN that scrapes cleanly ends up known: it was
   * loaded already, or it was saved (when there is a file to write).
   */
  lemma {:induction false} RunComplete(st: Progress, rows: seq<Row>, path: string, t: string, scrape: Scrape, i: nat)
    requires i < |rows| && GstinOf(rows[i]).Some? && scrape(GstinOf(rows[i]).value).Ok?
    ensures GstinOf(rows[i]).value in Run(st, rows, path, Some(t), scrape).existing
    decreases |rows|
  {
    var n := |rows| - 1;
    var pre := rows[..n];
    var p := Run(st, pre, path, Some(t), scrape);
    StepCases(p, rows[n], path, Some(t), scrape);
    if i < n {
      assert pre[i] == rows[i];
      RunComplete(st, pre, path, t, scrape, i);
    }
  }

  /**
   * For a `.csv`, `.xlsx` or `.xls` output, a second run over the files the
   * first one left scrapes nothing the first one saved: every saved GSTIN
   * is in the set it loads.
   */
  lemma {:induction false} ResumeSkipsSaved(files0: Files, path: string, input: seq<Row>, scrape: Scrape)
    requires Recognised(Extension(path))
    ensures var p := Run(Start(files0, path), input, path, Target(path), scrape);
      forall g :: g in p.saved ==> g in Start(p.files, path).existing
  {
    SavedLoaded(Start(files0, path), input, path, scrape);
  }

  /** As intended, for every output that can be written: a second run skips what the first one saved. */
  lemma {:induction false} IntendedResume(files0: Files, path: string, input: seq<Row>, scrape: Scrape)
    requires Target(path).Some?
    ensures var p := IntendedRun(files0, path, input, scrape);
      forall g :: g in p.saved ==> g in Start(p.files, Target(path).value).existing
  {
    var t := Target(path).value;
    IntendedIsRun(files0, path, input, scrape);
    SavedLoaded(Start(files0, t), input, t, scrape);
  }

  /** As intended, the `.csv` file of an `out.txt` output keeps every result, after its earlier rows. */
  lemma {:induction false} IntendedStored(files0: Files, path: string, input: seq<Row>, scrape: Scrape)
    requires Target(path).Some?
    ensures var p := IntendedRun(files0, path, input, scrape);
      var t := Target(path).value;
      p.saved != [] ==> t in p.files && p.files[t] == Base(files0, t) + Rows(p.saved, scrape)
  {
    var t := Target(path).value;
    IntendedIsRun(files0, path, input, scrape);
    RunStored(Start(files0, t), input, t, scrape);
  }

  lemma {:induction false} IntendedIsRun(files0: Files, path: string, input: seq<Row>, scrape: Scrape)
    requires Target(path).Some?
    ensures var t := Target(path).value;
      IntendedRun(files0, path, input, scrape) == Run(Start(files0, t), input, t, Some(t), scrape)
  {
  }

  /** Every GSTIN a run saved is among those loaded back from the file it writes, when that is the output path. */
  lemma {:induction false} SavedLoaded(start: Progress, input: seq<Row>, t: string, scrape: Scrape)
    requires start.count == 0 && start.saved == [] && start.isFirst == (t !in start.files)
    ensures var p := Run(start, input, t, Some(t), scrape);
      forall g :: g in p.saved ==> g in LoadExisting(p.files, t)
  {
    var p := Run(start, input, t, Some(t), scrape);
    RunStored(start, input, t, scrape);
    forall g | g in p.saved ensures g in LoadExisting(p.files, t) {
      var k :| 0 <= k < |p.saved| && p.saved[k] == g;
      SavedRowLoaded(p.files, t, Base(start.files, t), p.saved, scrape, k);
    }
  }

  lemma {:induction false} SavedRowLoaded(files: Files, t: string, base: seq<Row>, saved: seq<string>, scrape: Scrape, k: nat)
    requires k < |saved| && t in files && files[t] == base + Rows(saved, scrape)
    ensures saved[k] in LoadExisting(files, t)
  {
    var r := files[t][|base| + k];
    assert r == Rows(saved, scrape)[k];
    RowsGstin(saved, scrape, k);
    assert r in files[t];
  }

  lemma {:induction false} RowsGstin(saved: seq<string>, scrape: Scrape, k: nat)
    requires k < |saved|
    ensures GstinField in Rows(saved, scrape)[k] && Rows(saved, scrape)[k][GstinField] == saved[k]
    decreases |saved|
  {
    var n := |saved| - 1;
    var r := Rows(saved, scrape);
    assert r[..n] == Rows(saved[..n], scrape);
    if k < n {
      RowsGstin(saved[..n], scrape, k);
      assert r[k] == r[..n][k];
    }
  }
}
