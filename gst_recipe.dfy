/**
 * Shaping a GST portal page into a record (`src/recipes/gst_recipe.py`):
 * the label loop, the address split with its pincode, the status default
 * and the HSN-code list.
 *
 * The HTML parser is an input: a page is the list of label paragraphs with
 * the text of their next `h2`/`p` sibling, the texts of its `<li>` elements,
 * and what the code regex finds in the page text.
 */
module GstRecipe {
  import opened Wrappers
  import opened Text
  import opened Dedup

  const NA: string := "N/A"

  // ---------------------------------------------------------------------------
  // labels

  /** Whether label and value texts are title-cased (`.title()`) or used as found. */
  datatype LabelCase = Verbatim | Titled

  function Cased(c: LabelCase, s: string): string {
    if c == Titled then Title(s) else s
  }

  /** One `<p class="text-cyan-700">`: its text, and the text of the next `h2`/`p` sibling if there is one. */
  datatype LabelEntry = LabelEntry(text: string, value: Option<string>)

  function ValueOf(c: LabelCase, e: LabelEntry): string {
    if e.value.Some? then Cased(c, e.value.value) else NA
  }

  /** The dict the label loop builds: `data[label] = value` for each entry in turn. */
  function Labels(c: LabelCase, entries: seq<LabelEntry>): map<string, string>
  {
    if entries == [] then map[]
    else
      var n := |entries| - 1;
      Labels(c, entries[..n])[Cased(c, entries[n].text) := ValueOf(c, entries[n])]
  }

  /** The keys are exactly the (cased) labels. */
  lemma {:induction false} LabelsKeys(c: LabelCase, entries: seq<LabelEntry>)
    ensures forall k :: k in Labels(c, entries) <==> exists i :: 0 <= i < |entries| && Cased(c, entries[i].text) == k
  {
    if entries != [] {
      var n := |entries| - 1;
      var pre := entries[..n];
      LabelsKeys(c, pre);
      forall k ensures k in Labels(c, entries) <==> exists i :: 0 <= i < |entries| && Cased(c, entries[i].text) == k {
        if k in Labels(c, pre) {
          var i :| 0 <= i < |pre| && Cased(c, pre[i].text) == k;
          assert entries[i] == pre[i];
        }
        if exists i :: 0 <= i < |entries| && Cased(c, entries[i].text) == k {
          var i :| 0 <= i < |entries| && Cased(c, entries[i].text) == k;
          if i < n {
            assert pre[i] == entries[i];
          }
        }
      }
    }
  }

  /** Each label holds the value of its last entry: a repeated label overwrites, a missing sibling gives 'N/A'. */
  lemma {:induction false} LabelsLast(c: LabelCase, entries: seq<LabelEntry>, i: nat)
    requires i < |entries|
    requires forall j :: i < j < |entries| ==> Cased(c, entries[j].text) != Cased(c, entries[i].text)
    ensures Cased(c, entries[i].text) in Labels(c, entries)
    ensures Labels(c, entries)[Cased(c, entries[i].text)] == ValueOf(c, entries[i])
  {
    var n := |entries| - 1;
    if i < n {
      var pre := entries[..n];
      assert pre[i] == entries[i];
      forall j | i < j < |pre| ensures Cased(c, pre[j].text) != Cased(c, pre[i].text) {
        assert pre[j] == entries[j];
      }
      LabelsLast(c, pre, i);
    }
  }

  /** The label loop of `parse_page`. */
  method CollectLabels(c: LabelCase, entries: seq<LabelEntry>) returns (data: map<string, string>)
    ensures data == Labels(c, entries)
  {
    data := map[];
    var i := 0;
    while i < |entries|
      invariant 0 <= i <= |entries|
      invariant data == Labels(c, entries[..i])
    {
      assert entries[..i + 1][..i] == entries[..i];
      data := data[Cased(c, entries[i].text) := ValueOf(c, entries[i])];
      i := i + 1;
    }
    assert entries[..|entries|] == entries;
  }

  /** `data.get(key, 'N/A')` */
  function Get(data: map<string, string>, key: string): (v: string)
    ensures key !in data ==> v == NA
  {
    if key in data then data[key] else NA
  }

  // ---------------------------------------------------------------------------
  // address

  const Sep: string := ", "

  datatype AddressParts = AddressParts(city: string, district: string, state: string, pincode: string)

  const NoAddress: AddressParts := AddressParts(NA, NA, NA, NA)

  /**
   * `re.search(r"\d{6}$", last)`: six digits closing the text, where `$`
   * also matches just before one final newline; 'N/A' when there are none.
   */
  function Pincode(last: string): (p: string)
    ensures p == NA || (|p| == 6 && AllDigits(p))
    ensures p != NA ==> EndsWith(last, p) || EndsWith(last, p + "\n")
  {
    var n := |last|;
    if n >= 6 && AllDigits(last[n - 6..]) then last[n - 6..]
    else if n >= 7 && last[n - 1] == '\n' && AllDigits(last[n - 7..n - 1]) then
      assert last[n - 7..] == last[n - 7..n - 1] + "\n";
      last[n - 7..n - 1]
    else NA
  }

  /** `extract_address_parts`: the last four ', '-separated pieces, or 'N/A' four times when there are fewer. */
  function ExtractAddressParts(address: string): (r: AddressParts)
    ensures |Split(address, Sep)| < 4 ==> r == NoAddress
  {
    PartsOf(Split(address, Sep))
  }

  /** What `extract_address_parts` makes of the pieces. */
  function PartsOf(parts: seq<string>): AddressParts {
    var n := |parts|;
    if n >= 4 then AddressParts(Strip(parts[n - 4]), Strip(parts[n - 3]), Strip(parts[n - 2]), Pincode(parts[n - 1]))
    else NoAddress
  }

  /** An address closing in six digits gives them as the pincode. */
  lemma {:induction false} PincodeOf(street: string, digits: string)
    requires |digits| == 6 && AllDigits(digits)
    ensures Pincode(street + digits) == digits
  {
    var s := street + digits;
    assert s[|s| - 6..] == digits;
  }

  /**
   * Reading back an address written as `..., city, district, state, last`:
   * the three names come back as written and the pincode is read off the
   * last piece, whatever comes before.
   */
  lemma {:induction false} AddressRoundTrip(parts: seq<string>)
    requires |parts| >= 4 && forall k :: 0 <= k < |parts| ==> ',' !in parts[k]
    requires forall k :: |parts| - 4 <= k < |parts| - 1 ==> Strip(parts[k]) == parts[k]
    ensures var n := |parts|;
      ExtractAddressParts(Join(parts, Sep)) == AddressParts(parts[n - 4], parts[n - 3], parts[n - 2], Pincode(parts[n - 1]))
  {
    var address := Join(parts, Sep);
    SplitOfParts(parts);
    var n := |parts|;
    assert Strip(parts[n - 4]) == parts[n - 4];
    assert Strip(parts[n - 3]) == parts[n - 3];
    assert Strip(parts[n - 2]) == parts[n - 2];
    assert ExtractAddressParts(address) == PartsOf(parts);
  }

  lemma {:induction false} SplitOfParts(parts: seq<string>)
    requires |parts| >= 1 && forall k :: 0 <= k < |parts| ==> ',' !in parts[k]
    ensures Split(Join(parts, Sep), Sep) == parts
  {
    assert Sep[0] == ',';
    SplitJoin(parts, Sep);
  }

  /** An address with at most two ', ' separators has no parts. */
  lemma {:induction false} ShortAddress(a: string, b: string, c: string)
    requires ',' !in a && ',' !in b && ',' !in c
    ensures ExtractAddressParts(Join([a, b, c], Sep)) == NoAddress
  {
    assert Sep[0] == ',';
    SplitJoin([a, b, c], Sep);
  }

  // ---------------------------------------------------------------------------
  // status

  const StatusLabel: string := "Registration Status"

  /** The status, with 'Active' assumed when the page gives none, 'N/A' or only whitespace. */
  function StatusOf(data: map<string, string>): (s: string)
    ensures s != NA && !IsBlank(s)
    ensures StatusLabel in data && data[StatusLabel] != NA && !IsBlank(data[StatusLabel]) ==> s == data[StatusLabel]
    ensures !(StatusLabel in data && data[StatusLabel] != NA && !IsBlank(data[StatusLabel])) ==> s == "Active"
  {
    var st := Get(data, StatusLabel);
    if st == NA || IsBlank(st) then "Active" else st
  }

  // ---------------------------------------------------------------------------
  // HSN codes

  /** An `<li>` text counted as an HSN code: only digits, six or eight of them. */
  predicate ListCode(t: string) {
    AllDigits(t) && (|t| == 6 || |t| == 8)
  }

  const ExcludedPrefixes: set<string> := {"19", "20", "01", "02", "03", "04", "05", "06", "07", "08", "09", "10", "11", "12"}

  /** A fallback match taken for a year or a registration number. */
  predicate Excluded(m: string) {
    |m| >= 2 && m[..2] in ExcludedPrefixes
  }

  predicate Kept(m: string) {
    !Excluded(m)
  }

  /** The codes before de-duplication: the `<li>` codes, or the fallback matches when there are none. */
  function HsnCandidates(items: seq<string>, matches: seq<string>): seq<string> {
    var listed := Filter(items, ListCode);
    if listed != [] then listed else Filter(matches, Kept)
  }

  const MaxCodes: nat := 10

  /** The 'HSN Codes' field: at most ten distinct codes in first-seen order joined by ', ', or 'N/A'. */
  function HsnField(items: seq<string>, matches: seq<string>): string {
    var u := Unique(HsnCandidates(items, matches));
    if u == [] then NA else Join(Take(u, MaxCodes), Sep)
  }

  /** `extract_hsn_codes`: two append loops, then `dict.fromkeys` and the join. */
  method ExtractHsnCodes(items: seq<string>, matches: seq<string>) returns (field: string)
    ensures field == HsnField(items, matches)
  {
    var codes := ListCodes(items);
    if codes == [] {
      codes := FallbackCodes(matches);
    }
    var unique := Unique(codes);
    if unique == [] {
      field := NA;
    } else {
      field := Join(Take(unique, MaxCodes), Sep);
    }
  }

  /** The first loop: the `<li>` texts that are codes. */
  method ListCodes(items: seq<string>) returns (codes: seq<string>)
    ensures codes == Filter(items, ListCode)
  {
    codes := [];
    var i := 0;
    while i < |items|
      invariant 0 <= i <= |items|
      invariant codes == Filter(items[..i], ListCode)
    {
      assert items[..i + 1][..i] == items[..i];
      if ListCode(items[i]) {
        codes := codes + [items[i]];
      }
      i := i + 1;
    }
    assert items[..|items|] == items;
  }

  /** The fallback loop: the regex matches without an excluded prefix. */
  method FallbackCodes(matches: seq<string>) returns (codes: seq<string>)
    ensures codes == Filter(matches, Kept)
  {
    codes := [];
    var j := 0;
    while j < |matches|
      invariant 0 <= j <= |matches|
      invariant codes == Filter(matches[..j], Kept)
    {
      assert matches[..j + 1][..j] == matches[..j];
      if !Excluded(matches[j]) {
        codes := codes + [matches[j]];
      }
      j := j + 1;
    }
    assert matches[..|matches|] == matches;
  }

  /** The field is 'N/A' exactly when no candidate code was found. */
  lemma {:induction false} HsnAbsent(items: seq<string>, matches: seq<string>)
    requires forall m :: m in matches ==> ListCode(m)
    ensures HsnField(items, matches) == NA <==> HsnCandidates(items, matches) == []
  {
    var cs := HsnCandidates(items, matches);
    var u := Unique(cs);
    UniqueSpec(cs);
    if u != [] {
      assert forall x :: x in u ==> ListCode(x);
      HsnNotNA(Take(u, MaxCodes));
    }
    assert cs != [] ==> cs[0] in u;
  }

  /**
   * A field other than 'N/A' splits back into one to ten distinct codes in
   * first-seen order, taken from the `<li>` list whenever that list had any,
   * and otherwise from the fallback matches without an excluded prefix.
   * `matches` are what `\b(\d{6}|\d{8})\b` captures, so they are codes too.
   */
  lemma {:induction false} HsnCodes(items: seq<string>, matches: seq<string>)
    requires forall m :: m in matches ==> ListCode(m)
    requires HsnField(items, matches) != NA
    ensures var cs := HsnCandidates(items, matches);
      var codes := Split(HsnField(items, matches), Sep);
      && 1 <= |codes| <= MaxCodes
      && Distinct(codes)
      && codes == Take(Unique(cs), MaxCodes)
      && (forall x :: x in codes ==> ListCode(x))
      && (Filter(items, ListCode) != [] ==> forall x :: x in codes ==> x in items)
      && (Filter(items, ListCode) == [] ==> forall x :: x in codes ==> x in matches && !Excluded(x))
  {
    var cs := HsnCandidates(items, matches);
    var u := Unique(cs);
    UniqueSpec(cs);
    var t := Take(u, MaxCodes);
    assert t == u[..|t|];
    forall k | 0 <= k < |t| ensures ',' !in t[k] && t[k] in cs {
      assert t[k] == u[k];
      assert t[k] in cs && ListCode(t[k]);
      DigitsNoComma(t[k]);
    }
    SplitOfParts(t);
    forall a, b | 0 <= a < b < |t| ensures t[a] != t[b] {
      assert t[a] == u[a] && t[b] == u[b];
    }
  }

  lemma {:induction false} DigitsNoComma(x: string)
    requires AllDigits(x)
    ensures ',' !in x
  {
  }

  /** A list of codes joined by ', ' is never 'N/A'. */
  lemma {:induction false} HsnNotNA(t: seq<string>)
    requires t != [] && forall x :: x in t ==> ListCode(x)
    ensures Join(t, Sep) != NA
  {
    assert Sep[0] == ',';
    forall k | 0 <= k < |t| ensures ',' !in t[k] {
      assert ListCode(t[k]);
    }
    var j := Join(t, Sep);
    assert ListCode(t[0]);
    if |t| == 1 {
      assert j == t[0];
    } else {
      assert j == t[0] + Sep + Join(t[1..], Sep);
      assert j[0] == t[0][0];
    }
    assert IsDigit(j[0]) && !IsDigit(NA[0]);
  }

  // ---------------------------------------------------------------------------
  // the record

  /** What the parser sees of a GST page. */
  datatype Page = Page(labels: seq<LabelEntry>, listItems: seq<string>, codeMatches: seq<string>)

  /** The fifteen fields of a record, in the order the record lists them. */
  datatype GstRecord = GstRecord(
    legalName: string, tradeName: string, status: string, registrationDate: string, constitution: string,
    principalPlace: string, city: string, district: string, state: string, pincode: string,
    eInvoiceMandatory: string, aggregateTurnover: string, centralJurisdiction: string,
    stateJurisdiction: string, hsnCodes: string)

  const AddressLabel: string := "Place Of Business (Address)"

  /** The record built from the (title-cased) label dict and the HSN field. */
  function RecordOf(data: map<string, string>, hsn: string): (r: GstRecord)
    ensures r.status == StatusOf(data) && r.hsnCodes == hsn
    ensures r.principalPlace == Get(data, AddressLabel)
    ensures var a := ExtractAddressParts(r.principalPlace);
      r.city == a.city && r.district == a.district && r.state == a.state && r.pincode == a.pincode
  {
    var address := Get(data, AddressLabel);
    var a := ExtractAddressParts(address);
    GstRecord(
      Get(data, "Legal Name"), Get(data, "Trade Name"), StatusOf(data), Get(data, "Registration Date"),
      Get(data, "Entity Type"), address, a.city, a.district, a.state, a.pincode,
      Get(data, "E-Invoice Mandatory?"), Get(data, "Aggregate Turnover"), Get(data, "Central Jurisdiction"),
      Get(data, "State Jurisdiction"), hsn)
  }

  /**
   * `GstExtractor.parse_page`: one record for a parsed page. Without a parsed
   * page (`self.soup` is `None`) the attribute access raises and the `except`
   * gives the empty list.
   */
  method ParsePage(soup: Option<Page>) returns (records: seq<GstRecord>)
    ensures soup.None? ==> records == []
    ensures soup.Some? ==> records == [RecordOf(Labels(Titled, soup.value.labels), HsnField(soup.value.listItems, soup.value.codeMatches))]
  {
    if soup.None? {
      return [];
    }
    var page := soup.value;
    var data := CollectLabels(Titled, page.labels);
    var hsn := ExtractHsnCodes(page.listItems, page.codeMatches);
    records := [RecordOf(data, hsn)];
  }

  /**
   * A page without labels gives 'N/A' for each label-backed field, 'Active'
   * for the status and no address parts.
   */
  lemma {:induction false} RecordDefaults(page: Page)
    requires page.labels == []
    ensures var r := RecordOf(Labels(Titled, page.labels), HsnField(page.listItems, page.codeMatches));
      && r.legalName == NA && r.tradeName == NA && r.registrationDate == NA && r.constitution == NA
      && r.eInvoiceMandatory == NA && r.aggregateTurnover == NA && r.centralJurisdiction == NA && r.stateJurisdiction == NA
      && r.status == "Active" && r.principalPlace == NA
      && r.city == NA && r.district == NA && r.state == NA && r.pincode == NA
  {
    assert Sep[0] == ',';
    SplitJoin([NA], Sep);
  }
}
