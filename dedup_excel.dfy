/**
 * De-duplicating a spreadsheet by its GSTIN column
 * (`src/scripts/deduplicate_excel.py`): the first row of each GSTIN is kept,
 * the duplicates are counted and reported, and the result is written only
 * when something was removed.
 *
 * Reading and writing the workbook and copying the backup are left out: the
 * sheet is its column names and its rows, the clock's timestamp is a
 * parameter, and the outcome says what would be written where.
 */
module DedupExcel {
  import opened Wrappers
  import opened Text
  import opened Dedup

  type Row = map<string, string>

  /** A loaded sheet: its column names and its rows. */
  datatype Sheet = Sheet(columns: seq<string>, rows: seq<Row>)

  const GstinColumn: string := "GSTIN"

  /** A row's GSTIN cell; an empty cell (NaN to pandas) is `None`, and all empty cells are alike. */
  function GstinKey(row: Row): Option<string> {
    if GstinColumn in row then Some(row[GstinColumn]) else None
  }

  /** The GSTINs listed one by one, and how many more there were. */
  datatype Report = Report(listed: seq<(string, nat)>, more: nat)

  datatype Outcome =
    | NoGstinColumn
    | AlreadyClean
    | Deduplicated(rows: seq<Row>, path: string, duplicateCount: nat, report: Report)

  const ListedMax: nat := 10

  /** The key of each row that repeats an earlier row's key, in order (`df[df.duplicated(...)]['GSTIN']`). */
  function DuplicateKeys<T, K(==)>(xs: seq<T>, key: T -> K): seq<K>
  {
    if xs == [] then []
    else
      var n := |xs| - 1;
      DuplicateKeys(xs[..n], key) + (if Duplicated(xs, key, n) then [key(xs[n])] else [])
  }

  /**
   * `value_counts()` of the duplicate keys, listed up to ten, each with its
   * number of appearances in the sheet; empty cells are not counted.
   */
  function ReportOf(dups: seq<Option<string>>): Report {
    var present := Somes(dups);
    var keys := Unique(present);
    Report(seq(|Take(keys, ListedMax)|, i requires 0 <= i < |Take(keys, ListedMax)| =>
             (keys[i], multiset(present)[keys[i]] + 1)),
           if |keys| > ListedMax then |keys| - ListedMax else 0)
  }

  /** `output_file or input_file` */
  function OutputPath(input: string, output: Option<string>): string {
    if output.Some? && output.value != [] then output.value else input
  }

  /** The backup's name: every '.xlsx' in the input path becomes '_before_dedup_<stamp>.xlsx'. */
  function BackupName(input: string, stamp: string): string {
    Replace(input, ".xlsx", "_before_dedup_" + stamp + ".xlsx")
  }

  /** `deduplicate_excel` after loading the sheet. */
  function DeduplicateExcel(sheet: Sheet, input: string, output: Option<string>): Outcome {
    if GstinColumn !in sheet.columns then NoGstinColumn
    else
      var dups := DuplicateKeys(sheet.rows, GstinKey);
      if |dups| == 0 then AlreadyClean
      else Deduplicated(KeepFirstBy(sheet.rows, GstinKey), OutputPath(input, output), |dups|, ReportOf(dups))
  }

  // ---------------------------------------------------------------------------
  // properties

  /** There are as many duplicate keys as duplicate rows, and each is a key of the sheet. */
  lemma {:induction false} DuplicateKeysCount<T, K>(xs: seq<T>, key: T -> K)
    ensures |DuplicateKeys(xs, key)| == DuplicateCount(xs, key)
    ensures forall k :: k in DuplicateKeys(xs, key) ==> k in Keys(xs, key)
  {
    if xs != [] {
      var n := |xs| - 1;
      DuplicateKeysCount(xs[..n], key);
    }
  }

  /** A sheet has a duplicate row exactly when two rows share a key. */
  lemma {:induction false} NoDuplicatesIff<T, K>(xs: seq<T>, key: T -> K)
    ensures DuplicateCount(xs, key) == 0 <==> DistinctKeys(xs, key)
  {
    if DistinctKeys(xs, key) {
      KeepFirstByNoDuplicates(xs, key);
    }
    if DuplicateCount(xs, key) == 0 {
      KeepFirstByCount(xs, key);
      KeepFirstByFull(xs, key);
      KeepFirstByDistinct(xs, key);
    }
  }

  /**
   * Without a GSTIN column nothing is written; with no repeated GSTIN
   * nothing is written either; otherwise the written rows are the first row
   * of each GSTIN in their original order, no GSTIN twice, none lost, and
   * the removed count is the difference in length.
   */
  lemma {:induction false} DeduplicateSpec(sheet: Sheet, input: string, output: Option<string>)
    ensures var o := DeduplicateExcel(sheet, input, output);
      && (o.NoGstinColumn? <==> GstinColumn !in sheet.columns)
      && (o.AlreadyClean? <==> GstinColumn in sheet.columns && DistinctKeys(sheet.rows, GstinKey))
      && (o.Deduplicated? ==>
            && o.rows == KeepFirstBy(sheet.rows, GstinKey)
            && DistinctKeys(o.rows, GstinKey)
            && (forall k :: k in Keys(o.rows, GstinKey) <==> k in Keys(sheet.rows, GstinKey))
            && |o.rows| + o.duplicateCount == |sheet.rows|
            && o.duplicateCount > 0
            && o.path == OutputPath(input, output))
  {
    var key := GstinKey;
    DuplicateKeysCount(sheet.rows, key);
    NoDuplicatesIff(sheet.rows, key);
    KeepFirstByDistinct(sheet.rows, key);
    KeepFirstByKeys(sheet.rows, key);
    KeepFirstByCount(sheet.rows, key);
  }

  /** The output path is the one given, or the input path when none (or an empty one) is given. */
  lemma {:induction false} OutputPathSpec(input: string, output: Option<string>)
    ensures OutputPath(input, output) == input || (output.Some? && OutputPath(input, output) == output.value != [])
    ensures output.None? ==> OutputPath(input, output) == input
  {
  }

  /**
   * The report lists at most ten GSTINs, distinct, each a duplicated one
   * with its number of appearances (its count among the duplicates plus
   * the first occurrence), and counts the rest in `more`. Empty cells are
   * left out of the report, as `value_counts` drops NaN.
   */
  lemma {:induction false} ReportSpec(dups: seq<Option<string>>)
    ensures var r := ReportOf(dups);
      var present := Somes(dups);
      && |r.listed| <= ListedMax
      && |r.listed| + r.more == |Unique(present)|
      && (forall i :: 0 <= i < |r.listed| ==> Some(r.listed[i].0) in dups && r.listed[i].1 == multiset(present)[r.listed[i].0] + 1)
      && (forall i, j :: 0 <= i < j < |r.listed| ==> r.listed[i].0 != r.listed[j].0)
      && (forall i :: 0 <= i < |r.listed| ==> r.listed[i].1 >= 2)
  {
    var present := Somes(dups);
    var keys := Unique(present);
    UniqueSpec(present);
    SomesSpec(dups);
    var r := ReportOf(dups);
    forall i | 0 <= i < |r.listed| ensures Some(r.listed[i].0) in dups && r.listed[i].1 >= 2 {
      assert r.listed[i].0 == keys[i];
      assert keys[i] in keys;
      assert keys[i] in present;
    }
  }

  /** A path without '.xlsx' is its own backup name, so the copy onto itself fails and only a warning is logged. */
  lemma {:induction false} BackupOfOtherFile(input: string, stamp: string)
    requires Find(input, ".xlsx") == None
    ensures BackupName(input, stamp) == input
  {
    ReplaceAbsent(input, ".xlsx", "_before_dedup_" + stamp + ".xlsx");
  }
}
