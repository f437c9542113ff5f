/**
 * The spreadsheet filler: collect the distinct GSTINs of the sheet, look up
 * those not yet in the checkpointed cache, save the cache every ten
 * completions and at the end, fill every row from the cache, and keep the
 * first row per GSTIN.
 *
 * A row is a map from column name to cell text; a missing key is an empty
 * (NaN) cell. The thread pool is sequentialised: `order` is the order in which
 * lookups complete, a permutation of the scheduled GSTINs, and Ctrl+C is an
 * `Interrupt` saying when the shutdown flag was first seen.
 */
module FillRapl {
  import opened Wrappers
  import opened Text
  import opened Dedup
  import opened GstService

  const MaxWorkers: nat := 3
  const BatchSize: nat := 10

  type Row = map<string, string>

  /** The checkpoint file, a JSON object; the cache is its "gstin_cache" member. */
  type CheckpointFile = map<string, Cache>

  const CacheKey: string := "gstin_cache"

  /** `load_checkpoint`: the file's object, or one holding an empty cache when there is no file. */
  function LoadCheckpoint(file: Option<CheckpointFile>): (cp: CheckpointFile)
    ensures file.Some? ==> cp == file.value
    ensures file.None? ==> CacheKey in cp && cp[CacheKey] == map[]
  {
    match file
    case Some(obj) => obj
    case None => map[CacheKey := map[]]
  }

  /** `checkpoint.get("gstin_cache", {})` */
  function CacheOf(cp: CheckpointFile): Cache {
    if CacheKey in cp then cp[CacheKey] else map[]
  }

  /** `save_checkpoint`: the object written to the file. */
  function SaveCheckpoint(c: Cache): CheckpointFile {
    map[CacheKey := c]
  }

  /** A saved cache loads back unchanged, and a missing file loads as an empty cache. */
  lemma {:induction false} CheckpointRoundTrip(c: Cache)
    ensures CacheOf(LoadCheckpoint(Some(SaveCheckpoint(c)))) == c
    ensures CacheOf(LoadCheckpoint(None)) == map[]
  {
  }

  /** The raw GSTIN cell of a row: `None` for an empty cell. */
  function GstinCell(row: Row): Option<string> {
    if "GSTIN" in row then Some(row["GSTIN"]) else None
  }

  /** The GSTIN a row is filled by: the stripped cell, or `None` when it is empty or blank. */
  function RowKey(row: Row): (k: Option<string>)
    ensures k.Some? <==> "GSTIN" in row && !IsBlank(row["GSTIN"])
    ensures k.Some? ==> k.value == Strip(row["GSTIN"])
  {
    if "GSTIN" in row && Strip(row["GSTIN"]) != [] then Some(Strip(row["GSTIN"])) else None
  }

  /** `df['GSTIN'].dropna().astype(str).str.strip()` followed by the blank filter. */
  function PresentGstins(rows: seq<Row>): seq<string> {
    Somes(Keys(rows, RowKey))
  }

  /** The present GSTINs are exactly the keys of the rows that have one. */
  lemma {:induction false} PresentGstinsSpec(rows: seq<Row>)
    ensures forall g :: g in PresentGstins(rows) <==> exists i :: 0 <= i < |rows| && RowKey(rows[i]) == Some(g)
  {
    var ks := Keys(rows, RowKey);
    SomesSpec(ks);
    forall g ensures Some(g) in ks <==> exists i :: 0 <= i < |rows| && RowKey(rows[i]) == Some(g) {
      if Some(g) in ks {
        var i :| 0 <= i < |ks| && ks[i] == Some(g);
        assert RowKey(rows[i]) == Some(g);
      }
    }
  }

  /** `extract_unique_gstins`: each present GSTIN once, in order of first appearance. */
  function UniqueGstins(rows: seq<Row>): seq<string> {
    Unique(PresentGstins(rows))
  }

  /** The unique GSTINs are exactly the non-blank stripped cells, each listed once. */
  lemma {:induction false} UniqueGstinsSpec(rows: seq<Row>)
    ensures forall g :: g in UniqueGstins(rows) <==> exists i :: 0 <= i < |rows| && RowKey(rows[i]) == Some(g)
    ensures Distinct(UniqueGstins(rows))
  {
    UniqueSpec(PresentGstins(rows));
    PresentGstinsSpec(rows);
  }

  /** `[g for g in unique_gstins if g not in gstin_cache]` */
  function Uncached(gs: seq<string>, c: Cache): seq<string> {
    if gs == [] then [] else Uncached(gs[..|gs| - 1], c) + (if gs[|gs| - 1] in c then [] else [gs[|gs| - 1]])
  }

  /** The scheduled GSTINs are exactly the uncached ones, and none is scheduled twice. */
  lemma {:induction false} UncachedSpec(gs: seq<string>, c: Cache)
    ensures forall g :: g in Uncached(gs, c) <==> g in gs && g !in c
    ensures Distinct(gs) ==> Distinct(Uncached(gs, c))
  {
    if gs != [] {
      var n := |gs| - 1;
      UncachedSpec(gs[..n], c);
      assert forall g :: g in gs <==> g in gs[..n] || g == gs[n];
    }
  }

  /** A lookup once the run is over: the checkpointed value, or a fresh fetch's outcome. */
  function Resolved(loaded: Cache, fetch: Fetch, g: string): Option<Record> {
    if g in loaded then loaded[g] else Outcome(fetch(g))
  }

  /** The value of `get_gst_data` for a row, read from the cache it leaves behind. */
  function RowData(row: Row, c: Cache, isShutdown: bool): Option<Record> {
    match RowKey(row)
    case None => None
    case Some(g) => if isShutdown || g !in c then None else c[g]
  }

  /** `dict.get(key, 'N/A')` */
  function GetOrNA(data: Record, key: string): string {
    if key in data then data[key] else "N/A"
  }

  /** The 13 columns that are added when absent (source lines 114-119). */
  const NewColumns: seq<string> := [
    "Legal Name", "Trade Name", "Status", "Registration Date",
    "City", "District", "State", "Pincode",
    "E-Invoice Mandatory", "Aggregate Turnover",
    "Central Jurisdiction", "State Jurisdiction", "HSN Codes"]

  /** The columns a filled row may gain beyond `NewColumns`, in the order they are first written. */
  const WrittenColumns: seq<string> := ["Customer Name", "Address", "Type"]

  /** `pd.isna(v) or str(v).strip() == ''` */
  predicate IsMissing(row: Row, col: string) {
    col !in row || IsBlank(row[col])
  }

  /** A record counts only when it is a non-empty dict (`if data:`). */
  predicate HasData(data: Option<Record>) {
    data.Some? && |data.value| > 0
  }

  /** `data.get(c, 'N/A')` for each column `c` of `cols`: the cells `df.at[index, c] = ...` writes. */
  function FieldsOf(data: Record, cols: seq<string>): (m: map<string, string>)
    ensures forall c :: c in m <==> c in cols
  {
    map c | c in cols :: GetOrNA(data, c)
  }

  lemma {:induction false} NamesApart()
    ensures "Customer Name" !in NewColumns && "Address" !in NewColumns && "Type" !in NewColumns
    ensures WrittenColumns == ["Customer Name", "Address", "Type"]
  {
  }

  /** One row of `fill_dataframe` (source lines 126-157). */
  function ApplyData(row: Row, data: Option<Record>): (r: Row)
    ensures !HasData(data) ==> r == row
  {
    if !HasData(data) then row
    else
      var d := data.value;
      var r1 := if IsMissing(row, "Customer Name") then row["Customer Name" := GetOrNA(d, "Legal Name")] else row;
      var r2 := if IsMissing(row, "Address") then r1["Address" := GetOrNA(d, "Principal Place")] else r1;
      r2["Type" := GetOrNA(d, "Constitution")] + FieldsOf(d, NewColumns)
  }

  /**
   * With a record, Customer Name and Address are set only when missing, and
   * Type and the 13 new columns are always set, each from its record field
   * or 'N/A'; no other cell changes.
   */
  lemma {:induction false} ApplyDataSpec(row: Row, d: Record)
    requires |d| > 0
    ensures var r := ApplyData(row, Some(d));
      && r["Customer Name"] == (if IsMissing(row, "Customer Name") then GetOrNA(d, "Legal Name") else row["Customer Name"])
      && r["Address"] == (if IsMissing(row, "Address") then GetOrNA(d, "Principal Place") else row["Address"])
      && r["Type"] == GetOrNA(d, "Constitution")
      && (forall c :: c in NewColumns ==> c in r && r[c] == GetOrNA(d, c))
      && (forall c :: c !in WrittenColumns && c !in NewColumns ==> (c in r <==> c in row) && (c in row ==> r[c] == row[c]))
  {
    ApplyDataWritten(row, d);
    ApplyDataOthers(row, d);
  }

  lemma {:induction false} ApplyDataWritten(row: Row, d: Record)
    requires |d| > 0
    ensures var r := ApplyData(row, Some(d));
      && r["Customer Name"] == (if IsMissing(row, "Customer Name") then GetOrNA(d, "Legal Name") else row["Customer Name"])
      && r["Address"] == (if IsMissing(row, "Address") then GetOrNA(d, "Principal Place") else row["Address"])
      && r["Type"] == GetOrNA(d, "Constitution")
  {
    var r1 := if IsMissing(row, "Customer Name") then row["Customer Name" := GetOrNA(d, "Legal Name")] else row;
    var r2 := if IsMissing(row, "Address") then r1["Address" := GetOrNA(d, "Principal Place")] else r1;
    var r3 := r2["Type" := GetOrNA(d, "Constitution")];
    var f := FieldsOf(d, NewColumns);
    NamesApart();
    assert "Customer Name" !in f && "Address" !in f && "Type" !in f;
    assert r1["Customer Name"] == (if IsMissing(row, "Customer Name") then GetOrNA(d, "Legal Name") else row["Customer Name"]);
    assert r3["Customer Name"] == r1["Customer Name"];
    assert r3["Address"] == (if IsMissing(row, "Address") then GetOrNA(d, "Principal Place") else row["Address"]);
  }

  lemma {:induction false} ApplyDataOthers(row: Row, d: Record)
    requires |d| > 0
    ensures var r := ApplyData(row, Some(d));
      && (forall c :: c in NewColumns ==> c in r && r[c] == GetOrNA(d, c))
      && (forall c :: c !in WrittenColumns && c !in NewColumns ==> (c in r <==> c in row) && (c in row ==> r[c] == row[c]))
  {
    var r1 := if IsMissing(row, "Customer Name") then row["Customer Name" := GetOrNA(d, "Legal Name")] else row;
    var r2 := if IsMissing(row, "Address") then r1["Address" := GetOrNA(d, "Principal Place")] else r1;
    var r3 := r2["Type" := GetOrNA(d, "Constitution")];
    forall c | c !in WrittenColumns && c !in NewColumns
      ensures (c in r3 <==> c in row) && (c in row ==> r3[c] == row[c])
    {
      assert c != "Customer Name" && c != "Address" && c != "Type";
    }
  }

  /** Rows with the same GSTIN, filled from the same cache, get the same derived values. */
  lemma {:induction false} SameKeySameDerived(r1: Row, r2: Row, c: Cache, isShutdown: bool, col: string)
    requires RowKey(r1) == RowKey(r2) && (col in NewColumns || col == "Type")
    requires HasData(RowData(r1, c, isShutdown))
    ensures ApplyData(r1, RowData(r1, c, isShutdown))[col] == ApplyData(r2, RowData(r2, c, isShutdown))[col]
  {
  }

  /** The filled rows, each looked up in the final cache. */
  function FillRows(rows: seq<Row>, c: Cache, isShutdown: bool): (r: seq<Row>)
    ensures |r| == |rows|
    ensures forall i :: 0 <= i < |rows| ==> r[i] == ApplyData(rows[i], RowData(rows[i], c, isShutdown))
  {
    if rows == [] then []
    else FillRows(rows[..|rows| - 1], c, isShutdown) + [ApplyData(rows[|rows| - 1], RowData(rows[|rows| - 1], c, isShutdown))]
  }

  /** `for col in cols: if col not in df.columns: add col` */
  function AddMissing(cols: seq<string>, extra: seq<string>): (r: seq<string>)
    ensures forall c :: c in r <==> c in cols || c in extra
    ensures |cols| <= |r| && r[..|cols|] == cols
    ensures Distinct(cols) ==> Distinct(r)
  {
    if extra == [] then cols
    else
      var n := |extra| - 1;
      var c := AddMissing(cols, extra[..n]);
      assert forall x :: x in extra <==> x in extra[..n] || x == extra[n];
      if extra[n] in c then c else c + [extra[n]]
  }

  /** Adding columns that are all present already changes nothing. */
  lemma {:induction false} AddMissingPresent(cols: seq<string>, extra: seq<string>)
    requires forall c :: c in extra ==> c in cols
    ensures AddMissing(cols, extra) == cols
  {
    if extra != [] {
      AddMissingPresent(cols, extra[..|extra| - 1]);
    }
  }

  lemma {:induction false} AddMissingIdempotent(cols: seq<string>, extra: seq<string>)
    ensures AddMissing(AddMissing(cols, extra), extra) == AddMissing(cols, extra)
  {
    AddMissingPresent(AddMissing(cols, extra), extra);
  }

  /** The cache a finished run leaves: every GSTIN of the sheet resolved. */
  function ResolvedCache(rows: seq<Row>, loaded: Cache, fetch: Fetch): (c: Cache)
    ensures forall g :: g in UniqueGstins(rows) ==> g in c && c[g] == Resolved(loaded, fetch, g)
  {
    map g | g in UniqueGstins(rows) :: Resolved(loaded, fetch, g)
  }

  /** Filling depends only on the cache entries of the sheet's own GSTINs. */
  lemma {:induction false} ResolvedRows(rows: seq<Row>, c: Cache, loaded: Cache, fetch: Fetch)
    requires forall g :: g in UniqueGstins(rows) ==> g in c && c[g] == Resolved(loaded, fetch, g)
    ensures FillRows(rows, c, false) == FillRows(rows, ResolvedCache(rows, loaded, fetch), false)
  {
    UniqueGstinsSpec(rows);
    var rc := ResolvedCache(rows, loaded, fetch);
    forall i | 0 <= i < |rows| ensures RowData(rows[i], c, false) == RowData(rows[i], rc, false) {
      if RowKey(rows[i]).Some? {
        assert RowKey(rows[i]).value in UniqueGstins(rows);
      }
    }
  }

  /** None of the scheduled GSTINs is cached, so each is requested. */
  lemma {:induction false} UncachedAllNew(gs: seq<string>, c: Cache)
    requires forall g :: g in gs ==> g !in c
    ensures Uncached(gs, c) == gs
  {
    if gs != [] {
      UncachedAllNew(gs[..|gs| - 1], c);
      assert gs[..|gs| - 1] + [gs[|gs| - 1]] == gs;
    }
  }

  /** A data frame: its column order and its rows; `fill_dataframe` updates it in place. */
  class DataFrame {
    var columns: seq<string>
    var rows: seq<Row>

    constructor (columns: seq<string>, rows: seq<Row>)
      ensures this.columns == columns && this.rows == rows
    {
      this.columns := columns;
      this.rows := rows;
    }
  }

  /** When Ctrl+C was first seen, relative to the run. */
  datatype Interrupt =
    | NoInterrupt
      /** before the scrape is started (or skipped) */
    | BeforeScrape
      /**
       * at the top of completion number `stop` of the scrape loop; the lookups
       * `order[..started]` had already passed the service's shutdown check
       */
    | InScrape(stop: nat, started: nat)
      /** after the scrape loop ended, before the rows are filled */
    | AfterScrape

  /**
   * `covered` holds what looking up `keys` in turn, starting from `start`,
   * leaves in the cache: the entries of `start` unchanged, and every other key
   * of `keys` bound to the outcome of its fetch.
   */
  ghost predicate Covers(start: Cache, covered: Cache, keys: seq<string>, fetch: Fetch) {
    && Extends(start, covered)
    && (forall k :: k in covered <==> k in start || k in keys)
    && (forall k :: k in covered && k !in start ==> covered[k] == Outcome(fetch(k)))
  }

  lemma {:induction false} CoversTrans(c0: Cache, c1: Cache, c2: Cache, a: seq<string>, b: seq<string>, fetch: Fetch)
    requires Covers(c0, c1, a, fetch) && Covers(c1, c2, b, fetch)
    ensures Covers(c0, c2, a + b, fetch)
  {
    assert forall k :: k in a + b <==> k in a || k in b;
  }

  /** Filtering a concatenation filters each part. */
  lemma {:induction false} UncachedAppend(a: seq<string>, b: seq<string>, c: Cache)
    ensures Uncached(a + b, c) == Uncached(a, c) + Uncached(b, c)
  {
    if b == [] {
      assert a + b == a;
    } else {
      var n := |b| - 1;
      UncachedAppend(a, b[..n], c);
      assert (a + b)[..|a + b| - 1] == a + b[..n];
    }
  }

  lemma {:induction false} UncachedSplit(xs: seq<string>, i: nat, j: nat, c: Cache)
    requires i <= j <= |xs|
    ensures Uncached(xs[..j], c) == Uncached(xs[..i], c) + Uncached(xs[i..j], c)
  {
    assert xs[..j] == xs[..i] + xs[i..j];
    UncachedAppend(xs[..i], xs[i..j], c);
  }

  /** The filter only asks about the listed keys. */
  lemma {:induction false} UncachedSame(a: seq<string>, c1: Cache, c2: Cache)
    requires forall k :: k in a ==> (k in c1 <==> k in c2)
    ensures Uncached(a, c1) == Uncached(a, c2)
  {
    if a != [] {
      UncachedSame(a[..|a| - 1], c1, c2);
    }
  }

  /** One more lookup, of a key not looked up before, keeps `Covers` and the request log in step. */
  lemma {:induction false} LookupStep(c0: Cache, c: Cache, keys: seq<string>, k: string, fetch: Fetch, c2: Cache)
    requires Covers(c0, c, keys, fetch) && k !in keys
    requires c2 == if k in c then c else c[k := Outcome(fetch(k))]
    ensures Covers(c0, c2, keys + [k], fetch)
    ensures Uncached(keys + [k], c0) == Uncached(keys, c0) + (if k in c then [] else [k])
  {
    assert (keys + [k])[..|keys|] == keys;
    assert forall x :: x in keys + [k] <==> x in keys || x == k;
  }

  /** `get_gst_data` for one more key, seen against the keys already looked up since `c0`. */
  method Lookup(service: GstDataService, ghost c0: Cache, ghost r0: seq<string>, ghost done: seq<string>, k: string, fetch: Fetch)
    returns (data: Option<Record>)
    requires service.Valid() && !service.isShutdown && k !in done
    requires Covers(c0, service.cache, done, fetch) && service.requests == r0 + Uncached(done, c0)
    modifies service
    ensures service.Valid() && !service.isShutdown
    ensures Covers(c0, service.cache, done + [k], fetch) && service.requests == r0 + Uncached(done + [k], c0)
    ensures Extends(old(service.cache), service.cache) && k in service.cache && data == service.cache[k]
  {
    ghost var before := service.cache;
    data := service.GetGstData(k, fetch);
    LookupStep(c0, before, done, k, fetch, service.cache);
  }


  /** The thread pool running the lookups of `keys` to completion. */
  method RunLookups(service: GstDataService, keys: seq<string>, fetch: Fetch)
    requires service.Valid() && !service.isShutdown && Distinct(keys)
    modifies service
    ensures service.Valid() && !service.isShutdown
    ensures Covers(old(service.cache), service.cache, keys, fetch)
    ensures service.requests == old(service.requests) + Uncached(keys, old(service.cache))
  {
    ghost var cache0, requests0 := service.cache, service.requests;
    ghost var done: seq<string> := [];
    var j := 0;
    while j < |keys|
      invariant 0 <= j <= |keys| && done == keys[..j]
      invariant service.Valid() && !service.isShutdown
      invariant Covers(cache0, service.cache, done, fetch)
      invariant service.requests == requests0 + Uncached(done, cache0)
    {
      NextFresh(keys, j);
      var _ := Lookup(service, cache0, requests0, done, keys[j], fetch);
      done := done + [keys[j]];
      j := j + 1;
    }
    assert keys[..j] == keys;
  }

  /** The next key of a list without repeats was not among the ones before it. */
  lemma {:induction false} NextFresh(keys: seq<string>, j: nat)
    requires Distinct(keys) && j < |keys|
    ensures keys[j] !in keys[..j] && keys[..j + 1] == keys[..j] + [keys[j]]
  {
    DistinctSlice(keys, j, j + 1);
  }


  /** The lookups already past the check share no key with those completed before them. */
  lemma {:induction false} Disjoint(order: seq<string>, i: nat, started: nat)
    requires Distinct(order) && i <= started <= |order|
    ensures Distinct(order[i..started]) && forall k :: k in order[i..started] ==> k !in order[..i]
    ensures order[..started] == order[..i] + order[i..started]
  {
    DistinctSlice(order, i, started);
    forall k | k in order[i..started] ensures k !in order[..i] {
      var m :| 0 <= m < started - i && order[i..started][m] == k;
      assert order[i + m] == k;
    }
  }

  /** Lookups of `a` and then of `b`, keys `a` does not have, cover `a + b`. */
  lemma {:induction false} LookupsChain(a: seq<string>, b: seq<string>, c0: Cache, c1: Cache, c2: Cache,
                     r0: seq<string>, r1: seq<string>, r2: seq<string>, fetch: Fetch)
    requires forall k :: k in b ==> k !in a
    requires Covers(c0, c1, a, fetch) && r1 == r0 + Uncached(a, c0)
    requires Covers(c1, c2, b, fetch) && r2 == r1 + Uncached(b, c1)
    ensures Covers(c0, c2, a + b, fetch) && r2 == r0 + Uncached(a + b, c0)
  {
    CoversTrans(c0, c1, c2, a, b, fetch);
    assert forall k :: k in b ==> (k in c1 <==> k in c0);
    UncachedSame(b, c1, c0);
    UncachedAppend(a, b, c0);
    AppendAssoc(r0, Uncached(a, c0), Uncached(b, c0));
  }

  /**
   * After the loop has seen the shutdown flag at completion `i`: the lookups
   * `order[i..started]` that had already passed the service's check finish,
   * the service is shut down, and the executor runs the queued rest, which
   * all return `None`.
   */
  method WindDown(service: GstDataService, ghost cache0: Cache, ghost requests0: seq<string>,
                  order: seq<string>, i: nat, started: nat, fetch: Fetch)
    requires service.Valid() && !service.isShutdown && Distinct(order) && i < started <= |order|
    requires Covers(cache0, service.cache, order[..i], fetch)
    requires service.requests == requests0 + Uncached(order[..i], cache0)
    modifies service
    ensures service.Valid() && service.isShutdown && Extends(old(service.cache), service.cache)
    ensures Covers(cache0, service.cache, order[..started], fetch)
    ensures service.requests == requests0 + Uncached(order[..started], cache0)
  {
    ghost var c1, r1 := service.cache, service.requests;
    ghost var a := order[..i];
    var b := order[i..started];
    Disjoint(order, i, started);
    RunLookups(service, b, fetch);
    LookupsChain(a, b, cache0, c1, service.cache, requests0, r1, service.requests, fetch);
    Drain(service, order[started..], fetch);
  }

  /** The executor runs the queued lookups after shutdown; none of them changes anything. */
  method Drain(service: GstDataService, keys: seq<string>, fetch: Fetch)
    requires service.Valid()
    modifies service
    ensures service.Valid() && service.isShutdown
    ensures service.cache == old(service.cache) && service.requests == old(service.requests)
  {
    service.Shutdown();
    var j := 0;
    while j < |keys|
      invariant 0 <= j <= |keys|
      invariant service.Valid() && service.isShutdown
      invariant service.cache == old(service.cache) && service.requests == old(service.requests)
    {
      var data := service.GetGstData(keys[j], fetch);
      assert data.None?;
      j := j + 1;
    }
  }

  /** `results` lists the first completions of `order`, each with what `c` holds for it. */
  ghost predicate Recorded(results: seq<(string, Option<Record>)>, order: seq<string>, c: Cache) {
    && |results| <= |order|
    && forall j :: 0 <= j < |results| ==>
      results[j].0 == order[j] && order[j] in c && results[j].1 == c[order[j]]
  }

  /** A cache that only grows keeps what was recorded, and the next completion adds its entry. */
  lemma {:induction false} RecordedStep(results: seq<(string, Option<Record>)>, order: seq<string>, c: Cache, c2: Cache, data: Option<Record>)
    requires Recorded(results, order, c) && Extends(c, c2) && |results| < |order|
    requires order[|results|] in c2 && data == c2[order[|results|]]
    ensures Recorded(results + [(order[|results|], data)], order, c2)
  {
  }

  lemma {:induction false} RecordedExtends(results: seq<(string, Option<Record>)>, order: seq<string>, c: Cache, c2: Cache)
    requires Recorded(results, order, c) && Extends(c, c2)
    ensures Recorded(results, order, c2)
  {
  }

  /** `s` full batches and `b` more completions make `s` full batches, as the division says. */
  lemma {:induction false} Batches(s: nat, b: nat)
    requires b < BatchSize
    ensures (s * BatchSize + b) / BatchSize == s
  {
  }

  lemma {:induction false} SliceAll(xs: seq<string>)
    ensures xs[..|xs|] == xs
  {
  }

  /**
   * The scraping loop's state after the completions `results`: the service
   * runs, has looked up exactly the uncached GSTINs among them, caches them
   * all, and each completion holds its cached outcome.
   */
  ghost predicate Scraped(service: GstDataService, cache0: Cache, requests0: seq<string>,
                          order: seq<string>, results: seq<(string, Option<Record>)>, fetch: Fetch)
    reads service
  {
    && service.Valid() && !service.isShutdown && |results| <= |order|
    && Covers(cache0, service.cache, order[..|results|], fetch)
    && service.requests == requests0 + Uncached(order[..|results|], cache0)
    && Recorded(results, order, service.cache)
  }

  /** One completion of the scrape loop: the lookup of `order[|results|]`, recorded. */
  method Complete(service: GstDataService, ghost cache0: Cache, ghost requests0: seq<string>,
                  order: seq<string>, results: seq<(string, Option<Record>)>, fetch: Fetch)
    returns (results': seq<(string, Option<Record>)>)
    requires Scraped(service, cache0, requests0, order, results, fetch) && Distinct(order) && |results| < |order|
    modifies service
    ensures Scraped(service, cache0, requests0, order, results', fetch) && |results'| == |results| + 1
  {
    var i := |results|;
    NextFresh(order, i);
    ghost var before := service.cache;
    var data := Lookup(service, cache0, requests0, order[..i], order[i], fetch);
    RecordedStep(results, order, before, service.cache, data);
    results' := results + [(order[i], data)];
  }


  /**
   * `scrape_unique_gstins`, sequentialised. Lookups complete in `order`. With
   * `stop`, the loop sees the shutdown flag at completion `stop.value`: the
   * lookups already past the service's check (`order[..started]`) finish and
   * are cached, the service is shut down, and the lookups still queued return
   * `None`. A checkpoint is saved after every `BatchSize` completions and
   * once at the end.
   */
  method ScrapeUniqueGstins(service: GstDataService, order: seq<string>, stop: Option<nat>, started: nat, fetch: Fetch)
    returns (results: seq<(string, Option<Record>)>, saves: seq<Cache>)
    requires service.Valid() && !service.isShutdown
    requires Distinct(order)
    requires stop.Some? ==> stop.value < started <= |order|
    modifies service
    ensures service.Valid() && service.isShutdown == stop.Some?
    ensures var n := if stop.Some? then started else |order|;
      && Covers(old(service.cache), service.cache, order[..n], fetch)
      && service.requests == old(service.requests) + Uncached(order[..n], old(service.cache))
    ensures |results| == (if stop.Some? then stop.value else |order|)
    ensures forall i :: 0 <= i < |results| ==>
      results[i].0 == order[i] && order[i] in service.cache && results[i].1 == service.cache[order[i]]
    ensures |saves| == |results| / BatchSize + 1 && saves[|saves| - 1] == service.cache
  {
    ghost var cache0, requests0 := service.cache, service.requests;
    var limit := if stop.Some? then stop.value else |order|;
    var batchCount;
    results, saves, batchCount := ScrapeLoop(service, order, limit, fetch);
    if stop.Some? {
      ghost var before := service.cache;
      WindDown(service, cache0, requests0, order, limit, started, fetch);
      RecordedExtends(results, order, before, service.cache);
    } else {
      SliceAll(order);
    }
    Batches(|saves|, batchCount);
    saves := saves + [service.cache];
  }

  /**
   * The loop of `scrape_unique_gstins` up to completion `limit`: each
   * completion is recorded, and a checkpoint is saved after every `BatchSize`.
   */
  method ScrapeLoop(service: GstDataService, order: seq<string>, limit: nat, fetch: Fetch)
    returns (results: seq<(string, Option<Record>)>, saves: seq<Cache>, batchCount: nat)
    requires service.Valid() && !service.isShutdown && Distinct(order) && limit <= |order|
    modifies service
    ensures service.Valid() && !service.isShutdown
    ensures Covers(old(service.cache), service.cache, order[..limit], fetch)
    ensures service.requests == old(service.requests) + Uncached(order[..limit], old(service.cache))
    ensures |results| == limit && Recorded(results, order, service.cache)
    ensures batchCount < BatchSize && limit == |saves| * BatchSize + batchCount
  {
    var i := 0;
    batchCount := 0;
    results, saves := [], [];
    ghost var cache0 := service.cache;
    ghost var requests0 := service.requests;
    while i < limit
      invariant 0 <= i <= limit && |results| == i
      invariant Scraped(service, cache0, requests0, order, results, fetch)
      invariant batchCount < BatchSize && i == |saves| * BatchSize + batchCount
    {
      results := Complete(service, cache0, requests0, order, results, fetch);
      saves, batchCount := Tick(saves, batchCount, service.cache);
      i := i + 1;
    }
  }

  /** One completion counted: after every `BatchSize` of them the cache is saved as a checkpoint. */
  method Tick(saves: seq<Cache>, batchCount: nat, cache: Cache) returns (saves': seq<Cache>, batchCount': nat)
    requires batchCount < BatchSize
    ensures batchCount' < BatchSize && |saves'| * BatchSize + batchCount' == |saves| * BatchSize + batchCount + 1
    ensures saves' == saves || saves' == saves + [cache]
  {
    saves', batchCount' := saves, batchCount + 1;
    if batchCount' >= BatchSize {
      saves' := saves + [cache];
      batchCount' := 0;
    }
  }



  /** The loop of `fill_dataframe` that adds each absent column of `extra`, in order. */
  method AddColumns(df: DataFrame, extra: seq<string>)
    modifies df
    ensures df.columns == AddMissing(old(df.columns), extra) && df.rows == old(df.rows)
  {
    var k := 0;
    while k < |extra|
      invariant 0 <= k <= |extra| && df.rows == old(df.rows)
      invariant df.columns == AddMissing(old(df.columns), extra[..k])
    {
      if extra[k] !in df.columns {
        df.columns := df.columns + [extra[k]];
      }
      assert extra[..k + 1][..k] == extra[..k];
      k := k + 1;
    }
    assert extra[..k] == extra;
  }

  /** The row's GSTIN, if it has one, has its cache entry (or the lookups are off). */
  predicate Settled(row: Row, c: Cache, isShutdown: bool) {
    isShutdown || RowKey(row).None? || RowKey(row).value in c
  }

  /** Once settled, a row's data no longer changes as the cache grows. */
  lemma {:induction false} SettledStable(row: Row, c: Cache, c2: Cache, isShutdown: bool)
    requires Settled(row, c, isShutdown) && Extends(c, c2)
    ensures Settled(row, c2, isShutdown) && RowData(row, c2, isShutdown) == RowData(row, c, isShutdown)
  {
  }

  /** Some row among the first `i` got data: the columns written by filling have been added. */
  ghost predicate AnyData(rows0: seq<Row>, i: nat, c: Cache, isShutdown: bool)
    requires i <= |rows0|
  {
    exists j :: 0 <= j < i && HasData(RowData(rows0[j], c, isShutdown))
  }

  /** The first `i` rows of `rows0` are settled and filled from `c`; the rest are untouched. */
  ghost predicate RowsFilled(rows0: seq<Row>, rows: seq<Row>, i: nat, c: Cache, isShutdown: bool) {
    && |rows| == |rows0| && i <= |rows0|
    && (forall j :: i <= j < |rows0| ==> rows[j] == rows0[j])
    && (forall j :: 0 <= j < i ==> Settled(rows0[j], c, isShutdown))
    && (forall j :: 0 <= j < i ==> rows[j] == ApplyData(rows0[j], RowData(rows0[j], c, isShutdown)))
  }

  /** The columns are `base`, plus the written ones once one of the first `i` rows got data. */
  ghost predicate ColumnsFilled(rows0: seq<Row>, columns: seq<string>, base: seq<string>, i: nat, c: Cache, isShutdown: bool) {
    i <= |rows0| && columns == if AnyData(rows0, i, c, isShutdown) then AddMissing(base, WrittenColumns) else base
  }

  ghost predicate FilledUpTo(rows0: seq<Row>, rows: seq<Row>, columns: seq<string>, base: seq<string>,
                             i: nat, c: Cache, isShutdown: bool) {
    RowsFilled(rows0, rows, i, c, isShutdown) && ColumnsFilled(rows0, columns, base, i, c, isShutdown)
  }

  lemma {:induction false} FilledExtends(rows0: seq<Row>, rows: seq<Row>, columns: seq<string>, base: seq<string>,
                      i: nat, c: Cache, c2: Cache, isShutdown: bool)
    requires FilledUpTo(rows0, rows, columns, base, i, c, isShutdown) && Extends(c, c2)
    ensures FilledUpTo(rows0, rows, columns, base, i, c2, isShutdown)
  {
    forall j | 0 <= j < i
      ensures Settled(rows0[j], c2, isShutdown) && RowData(rows0[j], c2, isShutdown) == RowData(rows0[j], c, isShutdown)
    {
      SettledStable(rows0[j], c, c2, isShutdown);
    }
    assert AnyData(rows0, i, c, isShutdown) == AnyData(rows0, i, c2, isShutdown);
  }

  lemma {:induction false} RowsStep(rows0: seq<Row>, rows: seq<Row>, i: nat, c: Cache, isShutdown: bool, rows': seq<Row>)
    requires RowsFilled(rows0, rows, i, c, isShutdown)
    requires i < |rows0| && Settled(rows0[i], c, isShutdown)
    requires var data := RowData(rows0[i], c, isShutdown);
      rows' == (if HasData(data) then rows[i := ApplyData(rows0[i], data)] else rows)
    ensures RowsFilled(rows0, rows', i + 1, c, isShutdown)
  {
    var filled := ApplyData(rows0[i], RowData(rows0[i], c, isShutdown));
    assert rows'[i] == filled;
    assert forall j :: 0 <= j < |rows0| && j != i ==> rows'[j] == rows[j];
  }

  lemma {:induction false} ColumnsStep(rows0: seq<Row>, columns: seq<string>, base: seq<string>, i: nat, c: Cache, isShutdown: bool, columns': seq<string>)
    requires ColumnsFilled(rows0, columns, base, i, c, isShutdown) && i < |rows0|
    requires var data := RowData(rows0[i], c, isShutdown);
      columns' == (if HasData(data) then AddMissing(columns, WrittenColumns) else columns)
    ensures ColumnsFilled(rows0, columns', base, i + 1, c, isShutdown)
  {
    AddMissingIdempotent(base, WrittenColumns);
    if HasData(RowData(rows0[i], c, isShutdown)) {
      assert AnyData(rows0, i + 1, c, isShutdown);
    } else {
      assert AnyData(rows0, i + 1, c, isShutdown) == AnyData(rows0, i, c, isShutdown);
    }
  }

  /** All rows filled: the rows are those of `FillRows`. */
  lemma {:induction false} RowsDone(rows0: seq<Row>, rows: seq<Row>, c: Cache, isShutdown: bool)
    requires RowsFilled(rows0, rows, |rows0|, c, isShutdown)
    ensures rows == FillRows(rows0, c, isShutdown)
  {
  }

  /** One pass of the row loop of `fill_dataframe` (source lines 121-157). */
  method FillRow(df: DataFrame, service: GstDataService, ghost rows0: seq<Row>, ghost base: seq<string>, i: nat, fetch: Fetch)
    requires service.Valid() && FilledUpTo(rows0, df.rows, df.columns, base, i, service.cache, service.isShutdown)
    requires i < |rows0|
    modifies df, service
    ensures service.Valid() && service.isShutdown == old(service.isShutdown)
    ensures Extends(old(service.cache), service.cache)
    ensures FilledUpTo(rows0, df.rows, df.columns, base, i + 1, service.cache, service.isShutdown)
    ensures Settled(rows0[i], old(service.cache), service.isShutdown) ==>
      service.cache == old(service.cache) && service.requests == old(service.requests)
  {
    ghost var c := service.cache;
    var row := df.rows[i];
    var key := RowKey(row);
    if key.Some? {
      var data := service.GetGstData(key.value, fetch);
      FilledExtends(rows0, df.rows, df.columns, base, i, c, service.cache, service.isShutdown);
      assert data == RowData(row, service.cache, service.isShutdown);
      ghost var rows, columns := df.rows, df.columns;
      if HasData(data) {
        df.rows := df.rows[i := ApplyData(row, data)];
        df.columns := AddMissing(df.columns, WrittenColumns);
      }
      RowsStep(rows0, rows, i, service.cache, service.isShutdown, df.rows);
      ColumnsStep(rows0, columns, base, i, service.cache, service.isShutdown, df.columns);
    } else {
      RowsStep(rows0, df.rows, i, service.cache, service.isShutdown, df.rows);
      ColumnsStep(rows0, df.columns, base, i, service.cache, service.isShutdown, df.columns);
    }
  }

  /**
   * `fill_dataframe`: add the 13 columns that are absent, then fill each row
   * from the service (source lines 109-162). Every row is filled from the cache
   * as it stands at the end, and a row's GSTIN, once looked up, has its entry.
   */
  method FillDataFrame(df: DataFrame, service: GstDataService, fetch: Fetch)
    requires service.Valid()
    modifies df, service
    ensures service.Valid() && service.isShutdown == old(service.isShutdown)
    ensures Extends(old(service.cache), service.cache)
    ensures forall i :: 0 <= i < |old(df.rows)| ==> Settled(old(df.rows)[i], service.cache, service.isShutdown)
    ensures df.rows == FillRows(old(df.rows), service.cache, service.isShutdown)
    ensures var base := AddMissing(old(df.columns), NewColumns);
      df.columns == if exists i :: 0 <= i < |old(df.rows)| && HasData(RowData(old(df.rows)[i], service.cache, service.isShutdown))
        then AddMissing(base, WrittenColumns) else base
    ensures (forall i :: 0 <= i < |old(df.rows)| ==> Settled(old(df.rows)[i], old(service.cache), service.isShutdown))
      ==> service.cache == old(service.cache) && service.requests == old(service.requests)
  {
    AddColumns(df, NewColumns);
    ghost var base := df.columns;
    ghost var rows0 := df.rows;
    ghost var allSettled := forall j :: 0 <= j < |rows0| ==> Settled(rows0[j], old(service.cache), service.isShutdown);
    var i := 0;
    while i < |df.rows|
      invariant 0 <= i <= |rows0|
      invariant service.Valid() && service.isShutdown == old(service.isShutdown)
      invariant Extends(old(service.cache), service.cache)
      invariant allSettled ==> service.cache == old(service.cache) && service.requests == old(service.requests)
      invariant FilledUpTo(rows0, df.rows, df.columns, base, i, service.cache, service.isShutdown)
    {
      FillRow(df, service, rows0, base, i, fetch);
      i := i + 1;
    }
    FilledAll(rows0, df.rows, df.columns, base, service.cache, service.isShutdown);
  }

  /** After the last row: every row is settled and filled, and the columns say whether any row got data. */
  lemma {:induction false} FilledAll(rows0: seq<Row>, rows: seq<Row>, columns: seq<string>, base: seq<string>, c: Cache, isShutdown: bool)
    requires FilledUpTo(rows0, rows, columns, base, |rows0|, c, isShutdown)
    ensures rows == FillRows(rows0, c, isShutdown)
    ensures forall i :: 0 <= i < |rows0| ==> Settled(rows0[i], c, isShutdown)
    ensures columns == if exists i :: 0 <= i < |rows0| && HasData(RowData(rows0[i], c, isShutdown))
      then AddMissing(base, WrittenColumns) else base
  {
    RowsDone(rows0, rows, c, isShutdown);
  }

  /** What one run of the filler leaves behind. */
  datatype RunOutcome = RunOutcome(
    /** the rows written to the output sheet, if it was written */
    output: Option<seq<Row>>,
    /** the checkpoint file afterwards: `None` once it has been deleted */
    checkpoint: Option<CheckpointFile>,
    /** the GSTINs looked up over the network, in order */
    requests: seq<string>)

  /** The column the sheet's GSTINs are read from. */
  const GstinColumn: string := "GSTIN"

  /**
   * `main`, without the backup copy and the spreadsheet I/O: `columns` and
   * `rows` are the input sheet, `file` the checkpoint file (if any), `order`
   * the completion order of the scheduled lookups. A sheet without a
   * `GSTIN` column fails with `KeyError: 'GSTIN'` before anything is looked
   * up or written.
   */
  method RunFill(columns: seq<string>, rows: seq<Row>, file: Option<CheckpointFile>, interrupt: Interrupt, order: seq<string>, fetch: Fetch)
    returns (out: Result<RunOutcome, string>)
    requires multiset(order) == multiset(Uncached(UniqueGstins(rows), CacheOf(LoadCheckpoint(file))))
    requires interrupt.InScrape? ==> interrupt.stop < interrupt.started <= |order|
    ensures out.Err? <==> GstinColumn !in columns
    ensures out.Err? ==> out.error == GstinColumn
    ensures out.Ok? ==> var loaded := CacheOf(LoadCheckpoint(file));
      && Distinct(out.value.requests)
      && (forall g :: g in out.value.requests ==> g in UniqueGstins(rows) && g !in loaded)
    ensures out.Ok? ==> var loaded := CacheOf(LoadCheckpoint(file));
      interrupt.NoInterrupt? ==>
        && (forall g :: g in out.value.requests <==> g in UniqueGstins(rows) && g !in loaded)
        && out.value.checkpoint.None?
        && out.value.output == Some(KeepFirstBy(FillRows(rows, ResolvedCache(rows, loaded, fetch), false), GstinCell))
    ensures out.Ok? ==> var loaded := CacheOf(LoadCheckpoint(file));
      !interrupt.NoInterrupt? ==>
        && out.value.output.None?
        && (out.value.checkpoint.Some? ==> Extends(loaded, CacheOf(out.value.checkpoint.value)))
        && (out.value.requests != [] ==> out.value.checkpoint.Some? && forall g :: g in out.value.requests ==> g in CacheOf(out.value.checkpoint.value))
  {
    if GstinColumn !in columns {
      return Err(GstinColumn);
    }
    var outcome := FillSheet(rows, file, interrupt, order, fetch);
    out := Ok(outcome);
  }

  /** `main` once the sheet has a `GSTIN` column. */
  method FillSheet(rows: seq<Row>, file: Option<CheckpointFile>, interrupt: Interrupt, order: seq<string>, fetch: Fetch)
    returns (out: RunOutcome)
    requires multiset(order) == multiset(Uncached(UniqueGstins(rows), CacheOf(LoadCheckpoint(file))))
    requires interrupt.InScrape? ==> interrupt.stop < interrupt.started <= |order|
    ensures var loaded := CacheOf(LoadCheckpoint(file));
      && Distinct(out.requests)
      && (forall g :: g in out.requests ==> g in UniqueGstins(rows) && g !in loaded)
    ensures var loaded := CacheOf(LoadCheckpoint(file));
      interrupt.NoInterrupt? ==>
        && (forall g :: g in out.requests <==> g in UniqueGstins(rows) && g !in loaded)
        && out.checkpoint.None?
        && out.output == Some(KeepFirstBy(FillRows(rows, ResolvedCache(rows, loaded, fetch), false), GstinCell))
    ensures var loaded := CacheOf(LoadCheckpoint(file));
      !interrupt.NoInterrupt? ==>
        && out.output.None?
        && (out.checkpoint.Some? ==> Extends(loaded, CacheOf(out.checkpoint.value)))
        && (out.requests != [] ==> out.checkpoint.Some? && forall g :: g in out.requests ==> g in CacheOf(out.checkpoint.value))
  {
    var loaded := CacheOf(LoadCheckpoint(file));
    var service := new GstDataService(loaded);
    var unique := UniqueGstins(rows);
    var uncached := Uncached(unique, loaded);
    Scheduled(rows, loaded, order);
    var checkpoint := file;
    if uncached != [] && !interrupt.BeforeScrape? {
      var stop := if interrupt.InScrape? then Some(interrupt.stop) else None;
      var started := if interrupt.InScrape? then interrupt.started else 0;
      var _, saves := ScrapeUniqueGstins(service, order, stop, started, fetch);
      checkpoint := Some(SaveCheckpoint(saves[|saves| - 1]));
      CheckpointRoundTrip(saves[|saves| - 1]);
      var n := if stop.Some? then started else |order|;
      ScrapedRequests(order, n, loaded, unique, service.cache, service.requests, fetch);
    } else {
      assert uncached == [] ==> forall g :: g in unique ==> g in loaded by {
        UncachedSpec(unique, loaded);
      }
    }
    if interrupt.NoInterrupt? {
      var output := FillAndDedup(rows, service, loaded, fetch);
      out := RunOutcome(Some(output), None, service.requests);
    } else {
      out := RunOutcome(None, checkpoint, service.requests);
    }
  }

  /** The scheduled lookups: the sheet's GSTINs not in the checkpoint, each once. */
  lemma {:induction false} Scheduled(rows: seq<Row>, loaded: Cache, order: seq<string>)
    requires multiset(order) == multiset(Uncached(UniqueGstins(rows), loaded))
    ensures Distinct(order) && forall g :: g in order <==> g in UniqueGstins(rows) && g !in loaded
    ensures Uncached(UniqueGstins(rows), loaded) == [] <==> order == []
  {
    UniqueGstinsSpec(rows);
    UncachedSpec(UniqueGstins(rows), loaded);
    DistinctPermutation(Uncached(UniqueGstins(rows), loaded), order);
  }

  /**
   * After the scrape of the first `n` completions of `order`, none of them
   * cached before, the requests are exactly those keys, and the cache holds
   * each of them.
   */
  lemma {:induction false} ScrapedRequests(order: seq<string>, n: nat, loaded: Cache, unique: seq<string>,
                        c: Cache, requests: seq<string>, fetch: Fetch)
    requires Distinct(order) && n <= |order| && forall g :: g in order <==> g in unique && g !in loaded
    requires Covers(loaded, c, order[..n], fetch) && requests == [] + Uncached(order[..n], loaded)
    ensures requests == order[..n] && Distinct(requests)
    ensures forall g :: g in requests ==> g in unique && g !in loaded && g in c
    ensures n == |order| ==> forall g :: g in unique ==> g in c && c[g] == Resolved(loaded, fetch, g)
  {
    PrefixRequested(order, n, loaded);
    if n == |order| {
      SliceAll(order);
      CoveredResolves(order, loaded, c, unique, fetch);
    }
  }

  /** A prefix of a list of uncached keys without repeats is requested in full, in order. */
  lemma {:induction false} PrefixRequested(order: seq<string>, n: nat, loaded: Cache)
    requires Distinct(order) && n <= |order| && forall g :: g in order ==> g !in loaded
    ensures Uncached(order[..n], loaded) == order[..n] && Distinct(order[..n])
    ensures forall g :: g in order[..n] ==> g in order
  {
    UncachedAllNew(order[..n], loaded);
    DistinctSlice(order, 0, n);
    assert order[0..n] == order[..n];
  }

  /** Once every uncached key has been looked up, every key resolves as a finished run resolves it. */
  lemma {:induction false} CoveredResolves(order: seq<string>, loaded: Cache, c: Cache, unique: seq<string>, fetch: Fetch)
    requires forall g :: g in order <==> g in unique && g !in loaded
    requires Covers(loaded, c, order, fetch)
    ensures forall g :: g in unique ==> g in c && c[g] == Resolved(loaded, fetch, g)
  {
  }


  /** A cache holding every GSTIN of the sheet settles every row. */
  lemma {:induction false} SheetSettled(rows: seq<Row>, c: Cache)
    requires forall g :: g in UniqueGstins(rows) ==> g in c
    ensures forall i :: 0 <= i < |rows| ==> Settled(rows[i], c, false)
  {
    UniqueGstinsSpec(rows);
    forall i | 0 <= i < |rows| ensures Settled(rows[i], c, false) {
      if RowKey(rows[i]).Some? {
        assert RowKey(rows[i]).value in UniqueGstins(rows);
      }
    }
  }

  /**
   * The end of a run that was not interrupted: fill the sheet from the
   * service, whose cache resolves every GSTIN of the sheet, and drop later
   * rows whose GSTIN cell repeats an earlier one.
   */
  method FillAndDedup(rows: seq<Row>, service: GstDataService, ghost loaded: Cache, fetch: Fetch)
    returns (output: seq<Row>)
    requires service.Valid() && !service.isShutdown
    requires forall g :: g in UniqueGstins(rows) ==> g in service.cache && service.cache[g] == Resolved(loaded, fetch, g)
    modifies service
    ensures service.requests == old(service.requests)
    ensures output == KeepFirstBy(FillRows(rows, ResolvedCache(rows, loaded, fetch), false), GstinCell)
  {
    var df := FillResolved(rows, service, loaded, fetch);
    var deduped := KeepFirstBy(df.rows, GstinCell);
    if |deduped| < |df.rows| {
      df.rows := deduped;
    } else {
      KeepFirstByCount(df.rows, GstinCell);
      KeepFirstByFull(df.rows, GstinCell);
    }
    output := df.rows;
  }

  /** A sheet whose every GSTIN the cache resolves is filled from it without a new request. */
  method FillResolved(rows: seq<Row>, service: GstDataService, ghost loaded: Cache, fetch: Fetch)
    returns (df: DataFrame)
    requires service.Valid() && !service.isShutdown
    requires forall g :: g in UniqueGstins(rows) ==> g in service.cache && service.cache[g] == Resolved(loaded, fetch, g)
    modifies service
    ensures fresh(df)
    ensures service.requests == old(service.requests)
    ensures df.rows == FillRows(rows, ResolvedCache(rows, loaded, fetch), false)
  {
    df := new DataFrame([], rows);
    ghost var c := service.cache;
    SheetSettled(rows, c);
    FillDataFrame(df, service, fetch);
    ResolvedRows(rows, c, loaded, fetch);
  }
}
