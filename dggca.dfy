/**
 * The DGGCA question-paper parser (`recipe/dggca/__init__.py`, and its twin
 * `src/recipes/dggca_recipe.py`): the text is normalised, cut into one
 * segment per date line, and each segment's questions are read into records.
 *
 * Unicode NFKC normalisation is a parameter (`nfkc`); the regex engine is an
 * input: `findDates` gives the date-line matches of a text and `find` the
 * question matches of a segment.
 */
module Dggca {
  import opened Wrappers
  import opened Text
  import BaseScraper
  import Dedup

  // ---------------------------------------------------------------------------
  // normalize_text

  /** The embedding and override marks U+202A to U+202E. */
  predicate IsMark(c: char) { '\U{202A}' <= c <= '\U{202E}' }

  /** `\w`, on ASCII: letters, digits and the underscore. */
  predicate IsWord(c: char) { IsLetter(c) || IsDigit(c) || c == '_' }

  predicate NoMarks(s: string) {
    forall i :: 0 <= i < |s| ==> !IsMark(s[i])
  }

  /** `x` is directly followed by `y` somewhere in `s`. */
  predicate HasPair(s: string, x: char, y: char) {
    exists i :: 0 <= i < |s| - 1 && s[i] == x && s[i + 1] == y
  }

  /** The pairs of `[a] + t` are those of `t` and the one across the boundary. */
  lemma {:induction false} PairCons(a: char, t: string, x: char, y: char)
    ensures HasPair([a] + t, x, y) <==> (a == x && t != [] && t[0] == y) || HasPair(t, x, y)
  {
    var s := [a] + t;
    if HasPair(s, x, y) {
      var i :| 0 <= i < |s| - 1 && s[i] == x && s[i + 1] == y;
      if i > 0 {
        assert t[i - 1] == x && t[i] == y;
      }
    }
    if a == x && t != [] && t[0] == y {
      assert s[0] == x && s[1] == y;
    }
    if HasPair(t, x, y) {
      var i :| 0 <= i < |t| - 1 && t[i] == x && t[i + 1] == y;
      assert s[i + 1] == x && s[i + 2] == y;
    }
  }

  /** A pair inside a slice is a pair of the whole string. */
  lemma {:induction false} PairInSlice(s: string, i: nat, j: nat, x: char, y: char)
    requires i <= j <= |s|
    ensures HasPair(s[i..j], x, y) ==> HasPair(s, x, y)
  {
    var t := s[i..j];
    if HasPair(t, x, y) {
      var k :| 0 <= k < |t| - 1 && t[k] == x && t[k + 1] == y;
      assert s[i + k] == x && s[i + k + 1] == y;
    }
  }

  lemma {:induction false} PairInSuffix(s: string, i: nat, x: char, y: char)
    requires i <= |s|
    ensures HasPair(s[i..], x, y) ==> HasPair(s, x, y)
  {
    assert s[i..] == s[i..|s|];
    PairInSlice(s, i, |s|, x, y);
  }

  /** The pairs of a space put between `a` and `b`, in front of `t`. */
  lemma {:induction false} PairSpaced(a: char, b: char, t: string, x: char, y: char)
    ensures HasPair([a, ' ', b] + t, x, y) ==>
      (a == x && y == ' ') || (x == ' ' && b == y) || (b == x && t != [] && t[0] == y) || HasPair(t, x, y)
  {
    assert [a, ' ', b] + t == [a] + ([' '] + ([b] + t));
    PairCons(b, t, x, y);
    PairCons(' ', [b] + t, x, y);
    PairCons(a, [' '] + ([b] + t), x, y);
  }

  /** `re.sub(r'[\u202A-\u202E]', '', s)`: the marks are dropped. */
  function RemoveMarks(s: string): (r: string)
    ensures NoMarks(r)
    ensures forall i :: 0 <= i < |r| ==> r[i] in s
  {
    if s == [] then [] else (if IsMark(s[0]) then [] else [s[0]]) + RemoveMarks(s[1..])
  }

  /** Removing the marks keeps every other character, as often as it occurs. */
  lemma {:induction false} RemoveMarksCount(s: string, c: char)
    requires !IsMark(c)
    ensures multiset(RemoveMarks(s))[c] == multiset(s)[c]
  {
    if s != [] {
      var t := s[1..];
      var h := if IsMark(s[0]) then [] else [s[0]];
      RemoveMarksCount(t, c);
      assert s == [s[0]] + t;
      assert multiset(RemoveMarks(s)) == multiset(h) + multiset(RemoveMarks(t));
      assert multiset(h)[c] == multiset([s[0]])[c];
    }
  }

  /** A text without marks is left as it is. */
  lemma {:induction false} RemoveMarksFixed(s: string)
    requires NoMarks(s)
    ensures RemoveMarks(s) == s
  {
    if s != [] {
      RemoveMarksFixed(s[1..]);
    }
  }

  /** What a leading run of class characters leaves. */
  function SkipClass(s: string, cls: set<char>): (r: string)
    ensures |r| <= |s| && r == s[|s| - |r|..]
    ensures r != [] ==> r[0] !in cls
  {
    if s != [] && s[0] in cls then SkipClass(s[1..], cls) else s
  }

  /**
   * `re.sub('[cls]+', rep, s)`: each maximal run of class characters becomes
   * one `rep`; the rest is kept.
   */
  function Collapse(s: string, cls: set<char>, rep: char): (r: string)
    ensures s == [] <==> r == []
    ensures s != [] ==> r[0] == if s[0] in cls then rep else s[0]
    ensures forall i :: 0 <= i < |r| ==> r[i] == rep || r[i] in s
    decreases |s|
  {
    if s == [] then []
    else if s[0] in cls then [rep] + Collapse(SkipClass(s[1..], cls), cls, rep)
    else [s[0]] + Collapse(s[1..], cls, rep)
  }

  /** After collapsing, no class character but `rep` is left and no two `rep` touch. */
  lemma {:induction false} CollapseRuns(s: string, cls: set<char>, rep: char)
    requires rep in cls
    ensures forall i :: 0 <= i < |Collapse(s, cls, rep)| ==> (Collapse(s, cls, rep)[i] in cls ==> Collapse(s, cls, rep)[i] == rep)
    ensures !HasPair(Collapse(s, cls, rep), rep, rep)
    decreases |s|
  {
    if s != [] {
      var t := if s[0] in cls then SkipClass(s[1..], cls) else s[1..];
      var tail := Collapse(t, cls, rep);
      CollapseRuns(t, cls, rep);
      PairCons(if s[0] in cls then rep else s[0], tail, rep, rep);
    }
  }

  /** Pairs of characters outside the class come from the input. */
  lemma {:induction false} CollapsePairs(s: string, cls: set<char>, rep: char, x: char, y: char)
    requires rep in cls && x !in cls && y !in cls
    ensures HasPair(Collapse(s, cls, rep), x, y) ==> HasPair(s, x, y)
    decreases |s|
  {
    if s != [] {
      if s[0] in cls {
        var t := SkipClass(s[1..], cls);
        CollapsePairs(t, cls, rep, x, y);
        PairCons(rep, Collapse(t, cls, rep), x, y);
        assert t == s[|s| - |t|..];
        PairInSuffix(s, |s| - |t|, x, y);
      } else {
        CollapsePairs(s[1..], cls, rep, x, y);
        PairCons(s[0], Collapse(s[1..], cls, rep), x, y);
        PairCons(s[0], s[1..], x, y);
        assert [s[0]] + s[1..] == s;
      }
    }
  }

  /** Skipping whitespace leaves the visible text unchanged. */
  lemma {:induction false} SkipClassVisible(s: string, cls: set<char>)
    requires forall c :: c in cls ==> IsSpace(c)
    ensures BaseScraper.Visible(SkipClass(s, cls)) == BaseScraper.Visible(s)
  {
    if s != [] && s[0] in cls {
      SkipClassVisible(s[1..], cls);
    }
  }

  /** Collapsing runs of whitespace into whitespace changes whitespace only. */
  lemma {:induction false} CollapseVisible(s: string, cls: set<char>, rep: char)
    requires IsSpace(rep) && forall c :: c in cls ==> IsSpace(c)
    ensures BaseScraper.Visible(Collapse(s, cls, rep)) == BaseScraper.Visible(s)
    decreases |s|
  {
    if s != [] {
      var t := if s[0] in cls then SkipClass(s[1..], cls) else s[1..];
      var r := Collapse(s, cls, rep);
      CollapseVisible(t, cls, rep);
      assert r[1..] == Collapse(t, cls, rep);
      if s[0] in cls {
        SkipClassVisible(s[1..], cls);
      }
    }
  }

  /**
   * `re.sub(r'(\w)([A-Z])', r'\1 \2', s)`: scanning left to right, a space goes
   * between a word character and the capital after it. The capital is used up
   * by the match, so `ABC` becomes `A BC`.
   */
  function SplitCamel(s: string): (r: string)
    ensures s == [] <==> r == []
    ensures s != [] ==> r[0] == s[0]
    ensures forall i :: 0 <= i < |r| ==> r[i] == ' ' || r[i] in s
  {
    if |s| >= 2 && IsWord(s[0]) && IsUpper(s[1]) then [s[0], ' ', s[1]] + SplitCamel(s[2..])
    else if s == [] then [] else [s[0]] + SplitCamel(s[1..])
  }

  /** The only new neighbours are a word character before a space and a space before a capital. */
  lemma {:induction false} SplitCamelPairs(s: string, x: char, y: char)
    ensures HasPair(SplitCamel(s), x, y) ==>
      HasPair(s, x, y) || (IsWord(x) && y == ' ') || (x == ' ' && IsUpper(y))
    decreases |s|
  {
    if |s| >= 2 && IsWord(s[0]) && IsUpper(s[1]) {
      var t := SplitCamel(s[2..]);
      SplitCamelPairs(s[2..], x, y);
      PairSpaced(s[0], s[1], t, x, y);
      if s[1] == x && t != [] && t[0] == y {
        assert s[1] == x && s[2] == y;
      }
      PairInSuffix(s, 2, x, y);
    } else if s != [] {
      SplitCamelPairs(s[1..], x, y);
      PairCons(s[0], SplitCamel(s[1..]), x, y);
      PairCons(s[0], s[1..], x, y);
      assert [s[0]] + s[1..] == s;
    }
  }

  /** Only spaces are inserted. */
  lemma {:induction false} SplitCamelVisible(s: string)
    ensures BaseScraper.Visible(SplitCamel(s)) == BaseScraper.Visible(s)
    decreases |s|
  {
    if |s| >= 2 && IsWord(s[0]) && IsUpper(s[1]) {
      SplitCamelVisible(s[2..]);
      BaseScraper.VisibleAppend([s[0], ' ', s[1]], SplitCamel(s[2..]));
      BaseScraper.VisibleAppend([s[0], s[1]], s[2..]);
      assert [s[0], s[1]] + s[2..] == s;
      SpacedVisible(s[0], s[1]);
    } else if s != [] {
      SplitCamelVisible(s[1..]);
      assert SplitCamel(s)[1..] == SplitCamel(s[1..]);
    }
  }

  lemma {:induction false} SpacedVisible(a: char, b: char)
    requires IsWord(a) && IsUpper(b)
    ensures BaseScraper.Visible([a, ' ', b]) == BaseScraper.Visible([a, b]) == [a, b]
  {
    assert !IsSpace(a) && !IsSpace(b);
    assert [b][1..] == [];
    assert BaseScraper.Visible([b]) == [b];
    assert [' ', b][1..] == [b];
    assert BaseScraper.Visible([' ', b]) == [b];
    assert [a, ' ', b][1..] == [' ', b];
    assert [a, b][1..] == [b];
  }

  /** Merged words: `ABC` is read as `A` followed by `BC`. */
  lemma {:induction false} SplitCamelExample()
    ensures SplitCamel("ABC") == "A BC"
  {
    assert "ABC"[2..] == "C";
    assert SplitCamel("C") == "C";
  }

  /** `s.replace(' ' + c, c)`: left to right, each space directly before `c` is removed. */
  function DropSpaceBefore(s: string, c: char): (r: string)
    ensures s == [] <==> r == []
    ensures s != [] ==> r[0] == if |s| >= 2 && s[0] == ' ' && s[1] == c then c else s[0]
    ensures forall i :: 0 <= i < |r| ==> r[i] in s
  {
    if |s| >= 2 && s[0] == ' ' && s[1] == c then [c] + DropSpaceBefore(s[2..], c)
    else if s == [] then [] else [s[0]] + DropSpaceBefore(s[1..], c)
  }

  /** The only new neighbours end in `c`. */
  lemma {:induction false} DropSpacePairs(s: string, c: char, x: char, y: char)
    ensures HasPair(DropSpaceBefore(s, c), x, y) ==> HasPair(s, x, y) || y == c
    decreases |s|
  {
    if |s| >= 2 && s[0] == ' ' && s[1] == c {
      var t := DropSpaceBefore(s[2..], c);
      DropSpacePairs(s[2..], c, x, y);
      PairCons(c, t, x, y);
      if c == x && t != [] && t[0] == y && y != c {
        assert s[1] == x && s[2] == y;
      }
      PairInSuffix(s, 2, x, y);
    } else if s != [] {
      DropSpacePairs(s[1..], c, x, y);
      PairCons(s[0], DropSpaceBefore(s[1..], c), x, y);
      PairCons(s[0], s[1..], x, y);
      assert [s[0]] + s[1..] == s;
    }
  }

  /** Without two spaces in a row, no space is left before `c`. */
  lemma {:induction false} DropSpaceGone(s: string, c: char)
    requires c != ' ' && !HasPair(s, ' ', ' ')
    ensures !HasPair(DropSpaceBefore(s, c), ' ', c)
    decreases |s|
  {
    if |s| >= 2 && s[0] == ' ' && s[1] == c {
      PairInSuffix(s, 2, ' ', ' ');
      DropSpaceGone(s[2..], c);
      PairCons(c, DropSpaceBefore(s[2..], c), ' ', c);
    } else if s != [] {
      PairCons(s[0], s[1..], ' ', ' ');
      assert [s[0]] + s[1..] == s;
      DropSpaceGone(s[1..], c);
      PairCons(s[0], DropSpaceBefore(s[1..], c), ' ', c);
    }
  }

  /** Only spaces are removed. */
  lemma {:induction false} DropSpaceVisible(s: string, c: char)
    ensures BaseScraper.Visible(DropSpaceBefore(s, c)) == BaseScraper.Visible(s)
    decreases |s|
  {
    if |s| >= 2 && s[0] == ' ' && s[1] == c {
      DropSpaceVisible(s[2..], c);
      assert DropSpaceBefore(s, c)[1..] == DropSpaceBefore(s[2..], c);
      assert s[1..][1..] == s[2..];
    } else if s != [] {
      DropSpaceVisible(s[1..], c);
      assert DropSpaceBefore(s, c)[1..] == DropSpaceBefore(s[1..], c);
    }
  }

  /** The whitespace steps of `normalize_text`, after NFKC. */
  function Normalized(s: string): string {
    var noMarks := RemoveMarks(s);
    var blanks := Collapse(noMarks, {' ', '\t'}, ' ');
    var lines := Collapse(blanks, {'\n'}, '\n');
    var words := SplitCamel(lines);
    var punct := DropSpaceBefore(DropSpaceBefore(words, '.'), ',');
    var parens := DropSpaceBefore(DropSpaceBefore(punct, '('), ')');
    Strip(parens)
  }

  /** `normalize_text` */
  function NormalizeText(text: string, nfkc: string -> string): string {
    Normalized(nfkc(text))
  }

  /** No tab, no mark, no two spaces and no two newlines in a row. */
  predicate Tidy(s: string) {
    '\t' !in s && NoMarks(s) && !HasPair(s, ' ', ' ') && !HasPair(s, '\n', '\n')
  }

  /** No space before `.`, `,`, `(` or `)`. */
  predicate Punctuated(s: string) {
    !HasPair(s, ' ', '.') && !HasPair(s, ' ', ',') && !HasPair(s, ' ', '(') && !HasPair(s, ' ', ')')
  }

  /** After the two collapsing steps the text is tidy. */
  lemma {:induction false} CollapsedTidy(s: string)
    ensures Tidy(Collapse(Collapse(RemoveMarks(s), {' ', '\t'}, ' '), {'\n'}, '\n'))
  {
    var noMarks := RemoveMarks(s);
    var blanks := Collapse(noMarks, {' ', '\t'}, ' ');
    var lines := Collapse(blanks, {'\n'}, '\n');
    CollapseRuns(noMarks, {' ', '\t'}, ' ');
    CollapseRuns(blanks, {'\n'}, '\n');
    CollapsePairs(blanks, {'\n'}, '\n', ' ', ' ');
    assert '\t' !in blanks;
  }

  lemma {:induction false} SplitCamelTidy(s: string)
    requires Tidy(s)
    ensures Tidy(SplitCamel(s))
  {
    SplitCamelPairs(s, ' ', ' ');
    SplitCamelPairs(s, '\n', '\n');
  }

  lemma {:induction false} DropSpaceTidy(s: string, c: char)
    requires Tidy(s) && c != ' ' && c != '\n'
    ensures Tidy(DropSpaceBefore(s, c))
  {
    DropSpacePairs(s, c, ' ', ' ');
    DropSpacePairs(s, c, '\n', '\n');
  }

  /** A later removal keeps an earlier one: it only creates pairs ending in its own character. */
  lemma {:induction false} DropSpaceKeeps(s: string, c: char, d: char)
    requires !HasPair(s, ' ', d) && d != c
    ensures !HasPair(DropSpaceBefore(s, c), ' ', d)
  {
    DropSpacePairs(s, c, ' ', d);
  }

  lemma {:induction false} StripPairs(s: string, x: char, y: char)
    ensures HasPair(Strip(s), x, y) ==> HasPair(s, x, y)
  {
    var i := StripIsSlice(s);
    if HasPair(Strip(s), x, y) {
      PairInSlice(s, i, i + |Strip(s)|, x, y);
    }
  }

  lemma {:induction false} StripTidy(s: string)
    requires Tidy(s) && Punctuated(s)
    ensures Tidy(Strip(s)) && Punctuated(Strip(s))
  {
    var i := StripIsSlice(s);
    var r := Strip(s);
    assert forall k :: 0 <= k < |r| ==> r[k] == s[i + k];
    StripPairs(s, ' ', ' ');
    StripPairs(s, '\n', '\n');
    StripPairs(s, ' ', '.');
    StripPairs(s, ' ', ',');
    StripPairs(s, ' ', '(');
    StripPairs(s, ' ', ')');
  }

  /** The punctuation steps leave a tidy text tidy and with no space before punctuation. */
  lemma {:induction false} PunctuationSpec(words: string)
    requires Tidy(words)
    ensures var punct := DropSpaceBefore(DropSpaceBefore(words, '.'), ',');
      var parens := DropSpaceBefore(DropSpaceBefore(punct, '('), ')');
      Tidy(parens) && Punctuated(parens)
  {
    var dot := DropSpaceBefore(words, '.');
    var comma := DropSpaceBefore(dot, ',');
    var open := DropSpaceBefore(comma, '(');
    var close := DropSpaceBefore(open, ')');
    DropSpaceTidy(words, '.');
    DropSpaceTidy(dot, ',');
    DropSpaceTidy(comma, '(');
    DropSpaceTidy(open, ')');
    DropSpaceGone(words, '.');
    DropSpaceGone(dot, ',');
    DropSpaceGone(comma, '(');
    DropSpaceGone(open, ')');
    DropSpaceKeeps(dot, ',', '.');
    DropSpaceKeeps(comma, '(', '.');
    DropSpaceKeeps(comma, '(', ',');
    DropSpaceKeeps(open, ')', '.');
    DropSpaceKeeps(open, ')', ',');
    DropSpaceKeeps(open, ')', '(');
  }

  /**
   * The normalised text has no tab, no mark, no two spaces or newlines in a
   * row, no space before `.`, `,`, `(` or `)`, and no whitespace at either end.
   */
  lemma {:induction false} NormalizedSpec(s: string)
    ensures var r := Normalized(s);
      Tidy(r) && Punctuated(r) && (r != [] ==> !IsSpace(r[0]) && !IsSpace(r[|r| - 1]))
  {
    var lines := Collapse(Collapse(RemoveMarks(s), {' ', '\t'}, ' '), {'\n'}, '\n');
    CollapsedTidy(s);
    SplitCamelTidy(lines);
    var words := SplitCamel(lines);
    PunctuationSpec(words);
    var punct := DropSpaceBefore(DropSpaceBefore(words, '.'), ',');
    StripTidy(DropSpaceBefore(DropSpaceBefore(punct, '('), ')'));
  }

  /** Apart from the marks, normalising changes whitespace only. */
  lemma {:induction false} NormalizedVisible(s: string)
    ensures BaseScraper.Visible(Normalized(s)) == BaseScraper.Visible(RemoveMarks(s))
  {
    var noMarks := RemoveMarks(s);
    var blanks := Collapse(noMarks, {' ', '\t'}, ' ');
    var lines := Collapse(blanks, {'\n'}, '\n');
    var words := SplitCamel(lines);
    var dot := DropSpaceBefore(words, '.');
    var comma := DropSpaceBefore(dot, ',');
    var open := DropSpaceBefore(comma, '(');
    var close := DropSpaceBefore(open, ')');
    CollapseVisible(noMarks, {' ', '\t'}, ' ');
    CollapseVisible(blanks, {'\n'}, '\n');
    SplitCamelVisible(lines);
    DropSpaceVisible(words, '.');
    DropSpaceVisible(dot, ',');
    DropSpaceVisible(comma, '(');
    DropSpaceVisible(open, ')');
    BaseScraper.StripVisible(close);
  }

  // ---------------------------------------------------------------------------
  // split_dates

  /**
   * A match of `^(\d{1,2}(?:st|nd|rd|th)\s+\w+)$` over the lines of the text:
   * where the date line starts and the date it reads.
   */
  datatype DateMatch = DateMatch(start: nat, date: string)

  /** A `(date, content)` pair. */
  datatype Dated = Dated(date: string, content: string)

  /** Segment `i` ends where the next date line starts, or at the end of the text. */
  function SegmentEnd(text: string, ms: seq<DateMatch>, i: nat): nat
    requires i < |ms|
  {
    if i + 1 < |ms| then ms[i + 1].start else |text|
  }

  /** `text[start_idx:end_idx]` for segment `i`. */
  function RawSegment(text: string, ms: seq<DateMatch>, i: nat): string
    requires i < |ms|
  {
    PySlice(text, ms[i].start, SegmentEnd(text, ms, i))
  }

  /** `split_dates`: one stripped segment per date line; nothing when there is no date line. */
  function Segments(text: string, ms: seq<DateMatch>): seq<Dated> {
    if ms == [] then []
    else seq(|ms|, i requires 0 <= i < |ms| => Dated(ms[i].date, Strip(RawSegment(text, ms, i))))
  }

  /** What the regex engine guarantees: matches inside the text, in text order. */
  predicate Ordered(text: string, ms: seq<DateMatch>) {
    (forall i :: 0 <= i < |ms| ==> ms[i].start <= |text|)
    && (forall i, j :: 0 <= i < j < |ms| ==> ms[i].start <= ms[j].start)
  }

  function RawSegments(text: string, ms: seq<DateMatch>): (r: seq<string>)
    ensures |r| == |ms| && forall i :: 0 <= i < |ms| ==> r[i] == RawSegment(text, ms, i)
  {
    seq(|ms|, i requires 0 <= i < |ms| => RawSegment(text, ms, i))
  }

  lemma {:induction false} TilePrefix(text: string, ms: seq<DateMatch>, k: nat)
    requires Ordered(text, ms) && 1 <= k <= |ms|
    ensures ms[0].start <= SegmentEnd(text, ms, k - 1) <= |text|
    ensures Concat(RawSegments(text, ms)[..k]) == text[ms[0].start..SegmentEnd(text, ms, k - 1)]
  {
    var raw := RawSegments(text, ms);
    assert raw[..k][..k - 1] == raw[..k - 1];
    if k == 1 {
      assert raw[..k][..0] == [];
    } else {
      TilePrefix(text, ms, k - 1);
      var a, b, c := ms[0].start, ms[k - 1].start, SegmentEnd(text, ms, k - 1);
      assert text[a..b] + text[b..c] == text[a..c];
    }
  }

  /** From the first date line on, the segments tile the text: only what comes before it is dropped. */
  lemma {:induction false} SegmentsTile(text: string, ms: seq<DateMatch>)
    requires Ordered(text, ms) && ms != []
    ensures Concat(RawSegments(text, ms)) == text[ms[0].start..]
    ensures forall i :: 0 <= i < |ms| ==> Segments(text, ms)[i] == Dated(ms[i].date, Strip(RawSegments(text, ms)[i]))
  {
    TilePrefix(text, ms, |ms|);
    assert RawSegments(text, ms)[..|ms|] == RawSegments(text, ms);
  }

  /** The text of `m` is its date line: a digit first, a word character last. */
  predicate DateLineAt(text: string, m: DateMatch) {
    m.date != [] && IsDigit(m.date[0]) && IsWord(m.date[|m.date| - 1])
    && m.start + |m.date| <= |text| && text[m.start..m.start + |m.date|] == m.date
  }

  /** Each segment starts with its own date line. */
  lemma {:induction false} SegmentStartsWithDate(text: string, ms: seq<DateMatch>, i: nat)
    requires Ordered(text, ms) && i < |ms| && DateLineAt(text, ms[i])
    requires ms[i].start + |ms[i].date| <= SegmentEnd(text, ms, i)
    ensures StartsWith(Segments(text, ms)[i].content, ms[i].date)
  {
    var raw := RawSegment(text, ms, i);
    var date := ms[i].date;
    var n := |date|;
    assert raw == text[ms[i].start..SegmentEnd(text, ms, i)];
    assert raw[..n] == date;
    assert !IsSpace(raw[0]) by {
      assert raw[0] == date[0];
    }
    assert LStrip(raw) == raw;
    var r := RStrip(raw);
    RStripPrefix(raw);
    RStripDropsSpace(raw);
    assert !IsSpace(raw[n - 1]) by {
      assert raw[n - 1] == date[n - 1];
    }
    assert |r| >= n;
    assert r[..n] == raw[..n];
  }

  /** `split_dates`, as the loop that builds the list. */
  method SplitDates(text: string, ms: seq<DateMatch>) returns (r: seq<Dated>)
    ensures r == Segments(text, ms)
  {
    if |ms| == 0 {
      return [];
    }
    r := [];
    var i := 0;
    while i < |ms|
      invariant 0 <= i <= |ms|
      invariant r == Segments(text, ms)[..i]
    {
      var startIdx := ms[i].start;
      var endIdx := if i + 1 < |ms| then ms[i + 1].start else |text|;
      Dedup.PrefixStep(Segments(text, ms), i);
      r := r + [Dated(ms[i].date, Strip(PySlice(text, startIdx, endIdx)))];
      i := i + 1;
    }
    assert Segments(text, ms)[..i] == Segments(text, ms);
  }

  // ---------------------------------------------------------------------------
  // extract_questions

  /**
   * The groups of one match of the question pattern: question, options A to D,
   * the answer letter, the correct option's text and the explanation.
   */
  datatype QuestionMatch = QuestionMatch(
    question: string, a: string, b: string, c: string, d: string,
    answer: string, correctOption: string, explanation: string)

  /** One question record; `metadata` holds the date. */
  datatype Question = Question(
    date: string, question: string, a: string, b: string, c: string, d: string,
    answer: string, explanation: Option<string>, source: Option<string>)

  function QuestionOf(date: string, m: QuestionMatch, source: Option<string>): Question {
    var e := Strip(m.explanation);
    Question(date, Strip(m.question), Strip(m.a), Strip(m.b), Strip(m.c), Strip(m.d),
      LowerStr(Strip(m.answer)), if e == [] then None else Some(e), source)
  }

  /**
   * Every field is stripped, the answer is lower case, a blank explanation is
   * `None`, and the record carries the segment's date and the source.
   */
  lemma {:induction false} QuestionOfSpec(date: string, m: QuestionMatch, source: Option<string>)
    ensures var q := QuestionOf(date, m, source);
      && q.date == date && q.source == source
      && Strip(q.question) == q.question && Strip(q.a) == q.a && Strip(q.b) == q.b
      && Strip(q.c) == q.c && Strip(q.d) == q.d
      && (forall i :: 0 <= i < |q.answer| ==> !IsUpper(q.answer[i]))
      && (q.explanation.None? <==> IsBlank(m.explanation))
      && (q.explanation.Some? ==> q.explanation.value != [] && Strip(q.explanation.value) == q.explanation.value)
  {
    StripIdempotent(m.question);
    StripIdempotent(m.a);
    StripIdempotent(m.b);
    StripIdempotent(m.c);
    StripIdempotent(m.d);
    StripIdempotent(m.explanation);
  }

  /** The letter `[A-D]` the pattern captures becomes `a` to `d`. */
  lemma {:induction false} AnswerLetter(date: string, m: QuestionMatch, source: Option<string>)
    requires |m.answer| == 1 && 'A' <= m.answer[0] <= 'D'
    ensures var answer := QuestionOf(date, m, source).answer;
      |answer| == 1 && 'a' <= answer[0] <= 'd' && answer[0] as int == m.answer[0] as int + 32
  {
    var x := m.answer;
    assert !IsSpace(x[0]);
    StripNoEdgeSpace(x);
  }

  /** The records of one segment's matches, in match order. */
  function QuestionsOf(date: string, ms: seq<QuestionMatch>, source: Option<string>): (qs: seq<Question>)
    ensures |qs| == |ms|
  {
    seq(|ms|, i requires 0 <= i < |ms| => QuestionOf(date, ms[i], source))
  }

  /** The records of every segment, segment after segment. */
  function AllQuestions(segs: seq<Dated>, find: string -> seq<QuestionMatch>, source: Option<string>): seq<Question> {
    if segs == [] then []
    else
      var last := segs[|segs| - 1];
      AllQuestions(segs[..|segs| - 1], find, source) + QuestionsOf(last.date, find(last.content), source)
  }

  lemma {:induction false} AllQuestionsStep(segs: seq<Dated>, i: nat, find: string -> seq<QuestionMatch>, source: Option<string>)
    requires i < |segs|
    ensures AllQuestions(segs[..i + 1], find, source)
      == AllQuestions(segs[..i], find, source) + QuestionsOf(segs[i].date, find(segs[i].content), source)
  {
    assert segs[..i + 1][..i] == segs[..i];
  }

  /** Every record comes from one of the segments and carries that segment's date and the source. */
  lemma {:induction false} AllQuestionsDated(segs: seq<Dated>, find: string -> seq<QuestionMatch>, source: Option<string>)
    ensures forall k :: 0 <= k < |AllQuestions(segs, find, source)| ==>
      AllQuestions(segs, find, source)[k].source == source
      && exists j :: 0 <= j < |segs| && AllQuestions(segs, find, source)[k].date == segs[j].date
  {
    if segs != [] {
      var n := |segs| - 1;
      var init := segs[..n];
      AllQuestionsDated(init, find, source);
      var front: seq<Question> := AllQuestions(init, find, source);
      var back: seq<Question> := QuestionsOf(segs[n].date, find(segs[n].content), source);
      forall k | 0 <= k < |front| + |back|
        ensures (front + back)[k].source == source
        ensures exists j :: 0 <= j < |segs| && (front + back)[k].date == segs[j].date
      {
        if k < |front| {
          var j :| 0 <= j < |init| && front[k].date == init[j].date;
          assert segs[j] == init[j];
        } else {
          assert back[k - |front|].date == segs[n].date;
        }
      }
    }
  }

  /** `extract_questions` of `src/recipes/dggca_recipe.py`: a fresh list per segment. */
  method ExtractQuestions(date: string, ms: seq<QuestionMatch>, source: Option<string>) returns (qs: seq<Question>)
    ensures qs == QuestionsOf(date, ms, source)
  {
    qs := [];
    var i := 0;
    while i < |ms|
      invariant 0 <= i <= |ms|
      invariant qs == QuestionsOf(date, ms, source)[..i]
    {
      Dedup.PrefixStep(QuestionsOf(date, ms, source), i);
      qs := qs + [QuestionOf(date, ms[i], source)];
      i := i + 1;
    }
    assert QuestionsOf(date, ms, source)[..i] == QuestionsOf(date, ms, source);
  }

  /**
   * `DggcaExtractor.parse`: normalise, split at the date lines, and concatenate
   * each segment's records in date order.
   */
  method Parse(text: string, nfkc: string -> string, findDates: string -> seq<DateMatch>,
               find: string -> seq<QuestionMatch>, source: Option<string>) returns (all: seq<Question>)
    ensures var normalized := NormalizeText(text, nfkc);
      all == AllQuestions(Segments(normalized, findDates(normalized)), find, source)
  {
    var normalized := NormalizeText(text, nfkc);
    var dates := SplitDates(normalized, findDates(normalized));
    all := [];
    var i := 0;
    while i < |dates|
      invariant 0 <= i <= |dates|
      invariant all == AllQuestions(dates[..i], find, source)
    {
      var questions := ExtractQuestions(dates[i].date, find(dates[i].content), source);
      AllQuestionsStep(dates, i, find, source);
      all := all + questions;
      i := i + 1;
    }
    assert dates[..i] == dates;
  }

  /**
   * `QuestionParser` of `recipe/dggca/__init__.py`: the text is normalised once,
   * at construction, and the records accumulate in the `questions` field.
   */
  class QuestionParser {
    var text: string
    var questions: seq<Question>
    var source: Option<string>

    constructor(text: string, nfkc: string -> string, source: Option<string>)
      ensures this.text == NormalizeText(text, nfkc) && questions == [] && this.source == source
    {
      this.text := NormalizeText(text, nfkc);
      questions := [];
      this.source := source;
    }

    /** `extract_questions`: the segment's records are appended. */
    method ExtractQuestions(date: string, ms: seq<QuestionMatch>)
      modifies this
      ensures questions == old(questions) + QuestionsOf(date, ms, source)
      ensures text == old(text) && source == old(source)
    {
      var i := 0;
      while i < |ms|
        invariant 0 <= i <= |ms|
        invariant questions == old(questions) + QuestionsOf(date, ms, source)[..i]
        invariant text == old(text) && source == old(source)
      {
        Dedup.PrefixStep(QuestionsOf(date, ms, source), i);
        Dedup.AppendAssoc(old(questions), QuestionsOf(date, ms, source)[..i], [QuestionOf(date, ms[i], source)]);
        questions := questions + [QuestionOf(date, ms[i], source)];
        i := i + 1;
      }
      assert QuestionsOf(date, ms, source)[..i] == QuestionsOf(date, ms, source);
    }

    /** `parse`: the segments' records are appended in date order. */
    method Parse(findDates: string -> seq<DateMatch>, find: string -> seq<QuestionMatch>)
      modifies this
      ensures questions == old(questions) + AllQuestions(Segments(text, findDates(text)), find, source)
      ensures text == old(text) && source == old(source)
    {
      var dates := SplitDates(text, findDates(text));
      var i := 0;
      while i < |dates|
        invariant 0 <= i <= |dates|
        invariant questions == old(questions) + AllQuestions(dates[..i], find, source)
        invariant text == old(text) && source == old(source)
      {
        ghost var done := AllQuestions(dates[..i], find, source);
        var ms := find(dates[i].content);
        AllQuestionsStep(dates, i, find, source);
        ExtractQuestions(dates[i].date, ms);
        Dedup.AppendAssoc(old(questions), done, QuestionsOf(dates[i].date, ms, source));
        i := i + 1;
      }
      assert dates[..i] == dates;
    }
  }
}
