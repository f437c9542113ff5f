/**
 * The current-affairs quiz recipe (`src/recipes/insights/current_affairs_quiz.py`):
 * reading a range of stored URLs, collecting new quiz URLs, storing the pages
 * of URLs not yet stored, and writing the questions out as CSV rows.
 *
 * Files, the database, the scrapers and the clock are inputs: a file is its
 * lines or rows (`None` when missing), a scraped page is the URLs or question
 * dicts its scraper produced, the store is a list of (url, html) rows.
 */
module CurrentAffairs {
  import opened Wrappers
  import opened Text
  import opened Dedup

  // ---------------------------------------------------------------------------
  // get_url

  /** `get_url(start, end)`: lines `start`..`end`, numbered from 1, or `[]` when the file is missing. */
  function GetUrl(lines: Option<seq<string>>, start: Option<int>, end: Option<int>): seq<string> {
    if lines.None? then []
    else
      var from := if start.None? then 0 else start.value - 1;
      var to := if end.None? then |lines.value| else end.value;
      PySlice(lines.value, from, to)
  }

  /**
   * A missing file gives nothing; no bounds give the whole file; bounds
   * `1 <= start` and `end <= len(lines)` give lines `start` to `end`
   * inclusive, counted from 1.
   */
  lemma {:induction false} GetUrlSpec(lines: Option<seq<string>>, start: Option<int>, end: Option<int>)
    ensures lines.None? ==> GetUrl(lines, start, end) == []
    ensures lines.Some? && start.None? && end.None? ==> GetUrl(lines, start, end) == lines.value
    ensures lines.Some? && start.Some? && end.Some? && 1 <= start.value <= end.value + 1 && end.value <= |lines.value| ==>
      var r := GetUrl(lines, start, end);
      && |r| == end.value - start.value + 1
      && forall k :: 0 <= k < |r| ==> r[k] == lines.value[start.value - 1 + k]
  {
  }

  // ---------------------------------------------------------------------------
  // get_url_csv

  /** `existing_urls`, read from the rows after the header; `None` when a row is empty (`row[0]` raises). */
  function KnownUrls(rows: seq<seq<string>>): Option<set<string>> {
    if rows == [] then Some({})
    else
      var n := |rows| - 1;
      match KnownUrls(rows[..n])
      case None => None
      case Some(known) => if rows[n] == [] then None else Some(known + {rows[n][0]})
  }

  /** The URL file's known URLs: none when it is missing, else those of the rows after `next(reader, None)`. */
  function KnownOf(csvRows: Option<seq<seq<string>>>): Option<set<string>> {
    if csvRows.None? || csvRows.value == [] then Some({}) else KnownUrls(csvRows.value[1..])
  }

  function Unknown(known: set<string>): string -> bool {
    (u: string) => u !in known
  }

  /** The URLs appended to `scraped_urls`: each one not known and not appended already. */
  function Added(known: set<string>, urls: seq<string>): seq<string> {
    if urls == [] then []
    else
      var n := |urls| - 1;
      var a := Added(known, urls[..n]);
      a + (if urls[n] in known || urls[n] in a then [] else [urls[n]])
  }

  function Flatten<T>(xss: seq<seq<T>>): seq<T> {
    if xss == [] then [] else Flatten(xss[..|xss| - 1]) + xss[|xss| - 1]
  }

  function Elements(xs: seq<string>): set<string> {
    set x | x in xs
  }

  /** What `get_url_csv` does: the new URLs, and the URLs the file is rewritten with, if it is. */
  datatype UrlCsv = UrlCsv(scraped: seq<string>, rewritten: Option<set<string>>)

  /** `get_url_csv` over the scraped URL lists of its pages; `None` when reading the file raises. */
  function UrlCsvOf(csvRows: Option<seq<seq<string>>>, pages: seq<seq<string>>): Option<UrlCsv> {
    match KnownOf(csvRows)
    case None => None
    case Some(known) =>
      var added := Added(known, Flatten(pages));
      Some(UrlCsv(added, if added == [] then None else Some(known + Elements(added))))
  }

  /**
   * The new URLs are the scraped URLs not known before, each once, in the
   * order they were first scraped.
   */
  lemma {:induction false} AddedUnique(known: set<string>, urls: seq<string>)
    ensures Added(known, urls) == Unique(Filter(urls, Unknown(known)))
  {
    if urls != [] {
      var n := |urls| - 1;
      var f := Filter(urls[..n], Unknown(known));
      AddedUnique(known, urls[..n]);
      FilterUnknownSnoc(known, urls);
      UniqueUnknownSnoc(known, f, urls[n]);
    }
  }

  lemma {:induction false} FilterUnknownSnoc(known: set<string>, urls: seq<string>)
    requires urls != []
    ensures var n := |urls| - 1;
      Filter(urls, Unknown(known)) == Filter(urls[..n], Unknown(known)) + (if urls[n] in known then [] else [urls[n]])
  {
  }

  lemma {:induction false} UniqueUnknownSnoc(known: set<string>, f: seq<string>, u: string)
    ensures Unique(f + (if u in known then [] else [u])) == Unique(f) + (if u in known || u in Unique(f) then [] else [u])
  {
    UniqueSpec(f);
    if u in known {
      assert f + [] == f;
    } else {
      UniqueSnoc(f, u);
    }
  }

  /** A URL is added exactly when it was scraped and not known; none is added twice. */
  lemma {:induction false} AddedSpec(known: set<string>, urls: seq<string>)
    ensures forall u :: u in Added(known, urls) <==> u in urls && u !in known
    ensures Distinct(Added(known, urls))
  {
    AddedUnique(known, urls);
    UniqueSpec(Filter(urls, Unknown(known)));
  }

  /**
   * The file is rewritten exactly when some scraped URL was not known, and
   * then with every known and every scraped URL, once each.
   */
  lemma {:induction false} UrlCsvSpec(csvRows: Option<seq<seq<string>>>, pages: seq<seq<string>>)
    requires UrlCsvOf(csvRows, pages).Some?
    ensures var known := KnownOf(csvRows).value;
      var r := UrlCsvOf(csvRows, pages).value;
      && (r.rewritten.Some? <==> exists u :: u in Flatten(pages) && u !in known)
      && (r.rewritten.Some? ==> r.rewritten.value == known + Elements(Flatten(pages)))
  {
    var known := KnownOf(csvRows).value;
    var added := Added(known, Flatten(pages));
    AddedSpec(known, Flatten(pages));
    if exists u :: u in Flatten(pages) && u !in known {
      var u :| u in Flatten(pages) && u !in known;
      assert u in added;
    }
    if added != [] {
      assert added[0] in added;
    }
    AddedElements(known, Flatten(pages));
  }

  /** Adding the new URLs to the known ones gives the known and all scraped ones. */
  lemma {:induction false} AddedElements(known: set<string>, urls: seq<string>)
    ensures known + Elements(Added(known, urls)) == known + Elements(urls)
  {
    AddedSpec(known, urls);
  }

  /** A missing URL file reads as no known URLs. */
  lemma {:induction false} MissingFileKnowsNothing(pages: seq<seq<string>>)
    ensures UrlCsvOf(None, pages).Some?
    ensures UrlCsvOf(None, pages).value.scraped == Unique(Flatten(pages))
  {
    AddedUnique({}, Flatten(pages));
    FilterAll(Flatten(pages), Unknown({}));
  }

  lemma {:induction false} FilterAll(xs: seq<string>, p: string -> bool)
    requires forall x :: p(x)
    ensures Filter(xs, p) == xs
  {
    if xs != [] {
      FilterAll(xs[..|xs| - 1], p);
      assert xs == xs[..|xs| - 1] + [xs[|xs| - 1]];
    }
  }

  /** `get_url_csv`: read the known URLs, then add each new scraped URL, page by page. */
  method GetUrlCsv(csvRows: Option<seq<seq<string>>>, pages: seq<seq<string>>) returns (r: Option<UrlCsv>)
    ensures r == UrlCsvOf(csvRows, pages)
  {
    var existingUrls: set<string> := {};
    if csvRows.Some? && csvRows.value != [] {
      var rows := csvRows.value[1..];
      var i := 0;
      while i < |rows|
        invariant 0 <= i <= |rows|
        invariant KnownUrls(rows[..i]) == Some(existingUrls)
      {
        assert rows[..i + 1][..i] == rows[..i];
        if rows[i] == [] {
          KnownUrlsErr(rows, i + 1);
          return None;
        }
        existingUrls := existingUrls + {rows[i][0]};
        i := i + 1;
      }
      assert rows[..i] == rows;
    }
    ghost var known := existingUrls;
    var scrapedUrls: seq<string> := [];
    var p := 0;
    while p < |pages|
      invariant 0 <= p <= |pages|
      invariant scrapedUrls == Added(known, Flatten(pages[..p]))
      invariant existingUrls == known + Elements(scrapedUrls)
    {
      assert Flatten(pages[..p + 1]) == Flatten(pages[..p]) + pages[p] by {
        assert pages[..p + 1][..p] == pages[..p];
      }
      scrapedUrls, existingUrls := AddPage(known, Flatten(pages[..p]), scrapedUrls, existingUrls, pages[p]);
      p := p + 1;
    }
    assert pages[..p] == pages;
    if scrapedUrls != [] {
      r := Some(UrlCsv(scrapedUrls, Some(existingUrls)));
    } else {
      r := Some(UrlCsv(scrapedUrls, None));
    }
  }

  /** The inner loop of `get_url_csv`: the URLs of one page, each checked against the growing set. */
  method AddPage(ghost known: set<string>, ghost before: seq<string>, scraped: seq<string>, existing: set<string>, urls: seq<string>)
    returns (scraped': seq<string>, existing': set<string>)
    requires scraped == Added(known, before) && existing == known + Elements(scraped)
    ensures scraped' == Added(known, before + urls) && existing' == known + Elements(scraped')
  {
    scraped', existing' := scraped, existing;
    var j := 0;
    assert before + urls[..0] == before;
    while j < |urls|
      invariant 0 <= j <= |urls|
      invariant scraped' == Added(known, before + urls[..j])
      invariant existing' == known + Elements(scraped')
    {
      assert urls[..j + 1] == urls[..j] + [urls[j]];
      AppendAssoc(before, urls[..j], [urls[j]]);
      scraped', existing' := AddUrl(known, before + urls[..j], scraped', existing', urls[j]);
      j := j + 1;
    }
    assert urls[..j] == urls;
  }

  /** One URL of a page: appended and recorded unless the set already holds it. */
  method AddUrl(ghost known: set<string>, ghost before: seq<string>, scraped: seq<string>, existing: set<string>, url: string)
    returns (scraped': seq<string>, existing': set<string>)
    requires scraped == Added(known, before) && existing == known + Elements(scraped)
    ensures scraped' == Added(known, before + [url]) && existing' == known + Elements(scraped')
  {
    ghost var all := before + [url];
    assert all[..|all| - 1] == before;
    scraped', existing' := scraped, existing;
    if url !in existing {
      scraped' := scraped + [url];
      existing' := existing + {url};
    }
  }

  /** An empty row stops the reading. */
  lemma {:induction false} KnownUrlsErr(rows: seq<seq<string>>, n: nat)
    requires n <= |rows| && KnownUrls(rows[..n]).None?
    ensures KnownUrls(rows).None?
    decreases |rows| - n
  {
    if n < |rows| {
      assert rows[..n + 1][..n] == rows[..n];
      KnownUrlsErr(rows, n + 1);
    } else {
      assert rows[..n] == rows;
    }
  }

  // ---------------------------------------------------------------------------
  // html_to_db

  /** The `current` table: (url, html) rows. */
  class UrlStore {
    var rows: seq<(string, string)>

    constructor(rows: seq<(string, string)>)
      ensures this.rows == rows
    {
      this.rows := rows;
    }

    /** `db.url_exists(source, url)` */
    predicate UrlExists(url: string)
      reads this
    {
      exists k :: 0 <= k < |rows| && rows[k].0 == url
    }

    /** `db.insert(source, {"url": url, "html": html})` */
    method Insert(url: string, html: string)
      modifies this
      ensures rows == old(rows) + [(url, html)]
    {
      rows := rows + [(url, html)];
    }
  }

  function UrlsOf(rows: seq<(string, string)>): set<string> {
    set k | 0 <= k < |rows| :: rows[k].0
  }

  lemma {:induction false} UrlsOfSnoc(rows: seq<(string, string)>, row: (string, string))
    ensures UrlsOf(rows + [row]) == UrlsOf(rows) + {row.0}
  {
    var r := rows + [row];
    assert r[|rows|] == row;
    forall u | u in UrlsOf(rows) ensures u in UrlsOf(r) {
      var k :| 0 <= k < |rows| && rows[k].0 == u;
      assert r[k] == rows[k];
    }
  }

  /** The rows stored for new URLs: each with the html fetched for it. */
  function Fetched(urls: seq<string>, fetch: string -> string): (r: seq<(string, string)>)
    ensures |r| == |urls|
    ensures forall k :: 0 <= k < |urls| ==> r[k] == (urls[k], fetch(urls[k]))
  {
    seq(|urls|, k requires 0 <= k < |urls| => (urls[k], fetch(urls[k])))
  }

  /** `html_to_db`: every URL not stored yet is fetched and stored, in order; a repeated URL is stored once. */
  method HtmlToDb(store: UrlStore, urls: seq<string>, fetch: string -> string)
    modifies store
    ensures store.rows == old(store.rows) + Fetched(Added(UrlsOf(old(store.rows)), urls), fetch)
  {
    ghost var stored := UrlsOf(store.rows);
    ghost var start := store.rows;
    var i := 0;
    while i < |urls|
      invariant 0 <= i <= |urls|
      invariant store.rows == start + Fetched(Added(stored, urls[..i]), fetch)
      invariant UrlsOf(store.rows) == stored + Elements(Added(stored, urls[..i]))
    {
      assert urls[..i + 1] == urls[..i] + [urls[i]];
      StoreUrl(store, stored, start, urls[..i], urls[i], fetch);
      i := i + 1;
    }
    assert urls[..i] == urls;
  }

  /** One URL of `html_to_db`: fetched and stored unless the table already holds it. */
  method StoreUrl(store: UrlStore, ghost stored: set<string>, ghost start: seq<(string, string)>,
                  ghost before: seq<string>, url: string, fetch: string -> string)
    requires store.rows == start + Fetched(Added(stored, before), fetch)
    requires UrlsOf(store.rows) == stored + Elements(Added(stored, before))
    modifies store
    ensures store.rows == start + Fetched(Added(stored, before + [url]), fetch)
    ensures UrlsOf(store.rows) == stored + Elements(Added(stored, before + [url]))
  {
    ghost var added := Added(stored, before);
    ghost var all := before + [url];
    assert all[..|all| - 1] == before;
    assert store.UrlExists(url) <==> url in UrlsOf(store.rows) by {
      if url in UrlsOf(store.rows) {
        var k :| 0 <= k < |store.rows| && store.rows[k].0 == url;
      }
    }
    if !store.UrlExists(url) {
      var html := fetch(url);
      store.Insert(url, html);
      assert Fetched(added + [url], fetch) == Fetched(added, fetch) + [(url, html)];
      AppendAssoc(start, Fetched(added, fetch), [(url, html)]);
      UrlsOfSnoc(start + Fetched(added, fetch), (url, html));
      assert Elements(added + [url]) == Elements(added) + {url};
    }
  }

  /** Stored URLs stay distinct: every new URL is fetched and stored once. */
  lemma {:induction false} HtmlToDbDistinct(rows: seq<(string, string)>, urls: seq<string>, fetch: string -> string)
    requires forall i, j :: 0 <= i < j < |rows| ==> rows[i].0 != rows[j].0
    ensures var r := rows + Fetched(Added(UrlsOf(rows), urls), fetch);
      forall i, j :: 0 <= i < j < |r| ==> r[i].0 != r[j].0
  {
    AddedSpec(UrlsOf(rows), urls);
    var added := Added(UrlsOf(rows), urls);
    var r := rows + Fetched(added, fetch);
    forall i, j | 0 <= i < j < |r| ensures r[i].0 != r[j].0 {
      if i < |rows| && j >= |rows| {
        assert r[j].0 == added[j - |rows|];
        assert r[i].0 in UrlsOf(rows);
      } else if i >= |rows| {
        assert r[i].0 == added[i - |rows|] && r[j].0 == added[j - |rows|];
      }
    }
  }

  // ---------------------------------------------------------------------------
  // to_csv

  const Header: seq<string> := ["question", "answer", "explanation", "a", "b", "c", "d", "e", "f", "source"]

  /** The keys read from a question, in column order. */
  const Fields: seq<string> := ["question", "answer", "explanation", "a", "b", "c", "d", "e", "f"]

  /** A stored page, and what the insights scraper made of it (`scraper.scraped_data`). */
  datatype Scraped = Scraped(url: string, data: seq<seq<map<string, string>>>)

  function Get(q: map<string, string>, key: string): string {
    if key in q then q[key] else ""
  }

  /** One CSV row: the question's fields, `''` for a missing one, then the page URL. */
  function RowOf(q: map<string, string>, url: string): seq<string> {
    seq(|Fields|, k requires 0 <= k < |Fields| => Get(q, Fields[k])) + [url]
  }

  /** `scraper.scraped_data[0] if scraper.scraped_data else []` */
  function QuestionsOf(page: Scraped): seq<map<string, string>> {
    if page.data == [] then [] else page.data[0]
  }

  function PageRows(page: Scraped): (rows: seq<seq<string>>)
    ensures |rows| == |QuestionsOf(page)|
    ensures forall k :: 0 <= k < |rows| ==> rows[k] == RowOf(QuestionsOf(page)[k], page.url)
  {
    seq(|QuestionsOf(page)|, k requires 0 <= k < |QuestionsOf(page)| => RowOf(QuestionsOf(page)[k], page.url))
  }

  function AllRows(pages: seq<Scraped>): seq<seq<string>> {
    if pages == [] then [] else AllRows(pages[..|pages| - 1]) + PageRows(pages[|pages| - 1])
  }

  function QuestionCount(pages: seq<Scraped>): nat {
    if pages == [] then 0 else QuestionCount(pages[..|pages| - 1]) + |QuestionsOf(pages[|pages| - 1])|
  }

  /** Every row has the ten columns of the header: the question's fields, `''` when missing, then the URL. */
  lemma {:induction false} RowOfSpec(q: map<string, string>, url: string)
    ensures |RowOf(q, url)| == |Header|
    ensures RowOf(q, url)[|Header| - 1] == url
    ensures forall k :: 0 <= k < |Fields| ==>
      (Header[k] == Fields[k] && RowOf(q, url)[k] == (if Fields[k] in q then q[Fields[k]] else ""))
  {
  }

  /**
   * One row per question of every page, pages with no questions giving none;
   * each row ends with the URL of a page that has questions.
   */
  lemma {:induction false} AllRowsSpec(pages: seq<Scraped>)
    ensures |AllRows(pages)| == QuestionCount(pages)
    ensures forall r :: r in AllRows(pages) ==>
      (|r| == |Header| && exists p :: p in pages && QuestionsOf(p) != [] && r[|Header| - 1] == p.url)
  {
    if pages != [] {
      var n := |pages| - 1;
      AllRowsSpec(pages[..n]);
      forall r | r in AllRows(pages)
        ensures |r| == |Header| && exists p :: p in pages && QuestionsOf(p) != [] && r[|Header| - 1] == p.url
      {
        if r in AllRows(pages[..n]) {
          var p :| p in pages[..n] && QuestionsOf(p) != [] && r[|Header| - 1] == p.url;
          assert p in pages;
        } else {
          assert r in PageRows(pages[n]);
          var k :| 0 <= k < |PageRows(pages[n])| && PageRows(pages[n])[k] == r;
          RowOfSpec(QuestionsOf(pages[n])[k], pages[n].url);
          assert pages[n] in pages;
        }
      }
    }
  }

  /** `to_csv`: the header, then the rows of each page in order. */
  method ToCsv(pages: seq<Scraped>) returns (rows: seq<seq<string>>)
    ensures rows == [Header] + AllRows(pages)
  {
    rows := [Header];
    var i := 0;
    while i < |pages|
      invariant 0 <= i <= |pages|
      invariant rows == [Header] + AllRows(pages[..i])
    {
      ghost var done := AllRows(pages[..i]);
      PrefixStep(pages, i);
      var questions := QuestionsOf(pages[i]);
      if questions != [] {
        var j := 0;
        while j < |questions|
          invariant 0 <= j <= |questions|
          invariant rows == [Header] + done + PageRows(pages[i])[..j]
        {
          PrefixStep(PageRows(pages[i]), j);
          AppendAssoc([Header] + done, PageRows(pages[i])[..j], [RowOf(questions[j], pages[i].url)]);
          rows := rows + [RowOf(questions[j], pages[i].url)];
          j := j + 1;
        }
        assert PageRows(pages[i])[..j] == PageRows(pages[i]);
      }
      AppendAssoc([Header], done, PageRows(pages[i]));
      i := i + 1;
    }
    assert pages[..i] == pages;
  }
}
