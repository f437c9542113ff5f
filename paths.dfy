/**
 * The parts of `pathlib.PurePosixPath` and `os.path` the scrapers use, on
 * path strings that are already in normal form (no trailing '/', no "//").
 */
module Paths {
  import opened Wrappers
  import opened Text

  /** The position of the last `c` in `s` (`str.rfind`), if any. */
  function LastIndexOf(s: string, c: char): (r: Option<nat>)
    ensures r.Some? ==> r.value < |s| && s[r.value] == c && forall j :: r.value < j < |s| ==> s[j] != c
    ensures r.None? ==> c !in s
  {
    if s == [] then None
    else if s[|s| - 1] == c then Some(|s| - 1)
    else LastIndexOf(s[..|s| - 1], c)
  }

  /** `PurePath.name`: what follows the last '/'. */
  function Name(p: string): (n: string)
    ensures |n| <= |p| && n == p[|p| - |n|..] && '/' !in n
    ensures |n| < |p| ==> p[|p| - |n| - 1] == '/'
  {
    match LastIndexOf(p, '/')
    case None => p
    case Some(i) => p[i + 1..]
  }

  /** `PurePath.suffix`: from the last '.' of the name, unless that dot starts or ends the name. */
  function Suffix(p: string): (s: string)
    ensures |s| <= |Name(p)| && (Name(p) != [] ==> |s| < |Name(p)|)
  {
    NameSuffix(Name(p))
  }

  /** The suffix of a name. */
  function NameSuffix(n: string): (s: string)
    ensures |s| <= |n| && (n != [] ==> |s| < |n|)
  {
    match LastIndexOf(n, '.')
    case None => []
    case Some(i) => if 0 < i < |n| - 1 then n[i..] else []
  }

  /** A suffix is empty or a valid one, and it ends the name. */
  lemma {:induction false} SuffixShape(p: string)
    ensures Suffix(p) == [] || ValidSuffix(Suffix(p))
    ensures EndsWith(Name(p), Suffix(p))
  {
    NameSuffixShape(Name(p));
  }

  /** The suffix of a name without '/' is empty or valid, and ends the name. */
  lemma {:induction false} NameSuffixShape(n: string)
    requires '/' !in n
    ensures NameSuffix(n) == [] || ValidSuffix(NameSuffix(n))
    ensures EndsWith(n, NameSuffix(n))
  {
    match LastIndexOf(n, '.')
    case None =>
    case Some(i) =>
      if 0 < i < |n| - 1 {
        TailFromLastDot(n, i);
      }
  }

  /** The tail of a name from its last dot, neither first nor last, is a valid suffix. */
  lemma {:induction false} TailFromLastDot(n: string, i: nat)
    requires 0 < i < |n| - 1 && n[i] == '.' && '/' !in n
    requires forall j :: i < j < |n| ==> n[j] != '.'
    ensures ValidSuffix(n[i..]) && EndsWith(n, n[i..])
  {
    var t := n[i..];
    assert forall k :: 0 <= k < |t| ==> t[k] == n[i + k];
    assert forall k :: 0 <= k < |t| - 1 ==> t[1..][k] == n[i + 1 + k];
  }

  /** A suffix `with_suffix` accepts: a dot and then at least one character, none of them a dot or '/'. */
  predicate ValidSuffix(s: string) {
    |s| >= 2 && s[0] == '.' && '.' !in s[1..] && '/' !in s
  }

  /**
   * `PurePath.with_suffix(suffix)`: the last suffix replaced, or `suffix`
   * appended when there is none; `None` for a path with an empty name, where
   * Python raises `ValueError`.
   */
  function WithSuffix(p: string, suffix: string): (r: Option<string>)
    ensures r.None? <==> Name(p) == []
  {
    if Name(p) == [] then None else Some(Stem(p) + suffix)
  }

  lemma {:induction false} WithSuffixSpec(p: string, suffix: string)
    requires Name(p) != [] && ValidSuffix(suffix)
    ensures var q := WithSuffix(p, suffix).value;
      && Suffix(q) == suffix
      && q[..|p| - |Name(p)|] == p[..|p| - |Name(p)|]
  {
    WithSuffixSuffix(p, suffix);
    WithSuffixDir(p, suffix);
  }

  /** The new path has the requested suffix. */
  lemma {:induction false} WithSuffixSuffix(p: string, suffix: string)
    requires Name(p) != [] && ValidSuffix(suffix)
    ensures Suffix(WithSuffix(p, suffix).value) == suffix
  {
    assert WithSuffix(p, suffix) == Some(Stem(p) + suffix);
    StemSuffix(p, suffix);
  }

  /** Everything before the name is kept. */
  lemma {:induction false} WithSuffixDir(p: string, suffix: string)
    requires Name(p) != []
    ensures var q := WithSuffix(p, suffix).value;
      q[..|p| - |Name(p)|] == p[..|p| - |Name(p)|]
  {
    assert WithSuffix(p, suffix) == Some(Stem(p) + suffix);
    PrefixKept(p, |Suffix(p)|, suffix, |p| - |Name(p)|);
  }

  /** The path without its suffix. */
  function Stem(p: string): string {
    p[..|p| - |Suffix(p)|]
  }

  /** The stem followed by a valid suffix has that suffix. */
  lemma {:induction false} StemSuffix(p: string, suffix: string)
    requires Name(p) != [] && ValidSuffix(suffix)
    ensures Suffix(Stem(p) + suffix) == suffix
  {
    var stem := Stem(p);
    var stemName := StemName(p);
    NameOfAppend(stem, suffix, stemName);
    NewSuffix(stem + suffix, stemName, suffix);
  }

  /** The name of the stem is the name without its suffix, and it is not empty. */
  lemma {:induction false} StemName(p: string) returns (stemName: string)
    requires Name(p) != []
    ensures Name(Stem(p)) == stemName && stemName != []
  {
    var s := Suffix(p);
    var n := Name(p);
    stemName := n[..|n| - |s|];
    NameOfPrefix(p, |s|);
  }

  /** A name made of a non-empty stem and a valid suffix ends in that suffix. */
  lemma {:induction false} NewSuffix(q: string, stemName: string, suffix: string)
    requires Name(q) == stemName + suffix && stemName != [] && ValidSuffix(suffix)
    ensures Suffix(q) == suffix
  {
    LastDotOfAppend(stemName, suffix);
    SuffixAt(q, |stemName|);
    assert Name(q)[|stemName|..] == suffix;
  }

  lemma {:induction false} PrefixKept(p: string, cut: nat, suffix: string, k: nat)
    requires k + cut <= |p|
    ensures (p[..|p| - cut] + suffix)[..k] == p[..k]
  {
  }

  /** A dot that is the name's last, neither first nor last character, starts the suffix. */
  lemma {:induction false} SuffixAt(q: string, i: nat)
    requires 0 < i < |Name(q)| - 1 && LastIndexOf(Name(q), '.') == Some(i)
    ensures Suffix(q) == Name(q)[i..]
  {
  }

  /** Cutting `k` characters off the end of the name shortens the name by `k`. */
  lemma {:induction false} NameOfPrefix(p: string, k: nat)
    requires k < |Name(p)|
    ensures Name(p[..|p| - k]) == Name(p)[..|Name(p)| - k]
  {
    var n := Name(p);
    var q := p[..|p| - k];
    var start := |p| - |n|;
    match LastIndexOf(p, '/')
    case None =>
      assert '/' !in q;
      NoSlashName(q);
    case Some(i) =>
      assert i == start - 1;
      assert q[i] == '/' && forall j :: i < j < |q| ==> q[j] != '/';
      LastAt(q, '/', i);
  }

  lemma {:induction false} NoSlashName(q: string)
    requires '/' !in q
    ensures Name(q) == q
  {
  }

  lemma {:induction false} LastAt(q: string, c: char, i: nat)
    requires i < |q| && q[i] == c && forall j :: i < j < |q| ==> q[j] != c
    ensures LastIndexOf(q, c) == Some(i)
    decreases |q|
  {
    if |q| - 1 != i {
      LastAt(q[..|q| - 1], c, i);
    }
  }

  /** Appending a piece without '/' to a path extends its name by that piece. */
  lemma {:induction false} NameOfAppend(stem: string, suffix: string, stemName: string)
    requires Name(stem) == stemName && '/' !in suffix
    ensures Name(stem + suffix) == stemName + suffix
  {
    LastSlashOfAppend(stem, suffix);
    match LastIndexOf(stem, '/')
    case None =>
    case Some(i) =>
      assert (stem + suffix)[i + 1..] == stem[i + 1..] + suffix;
  }

  lemma {:induction false} LastSlashOfAppend(a: string, b: string)
    requires '/' !in b
    ensures LastIndexOf(a + b, '/') == LastIndexOf(a, '/')
    decreases |b|
  {
    if b != [] {
      var q := a + b;
      assert q[..|q| - 1] == a + b[..|b| - 1];
      LastSlashOfAppend(a, b[..|b| - 1]);
    } else {
      assert a + b == a;
    }
  }

  /** A name made of a non-empty stem and a valid suffix has that suffix. */
  lemma {:induction false} LastDotOfAppend(stem: string, suffix: string)
    requires stem != [] && ValidSuffix(suffix)
    ensures LastIndexOf(stem + suffix, '.') == Some(|stem|)
  {
    var q := stem + suffix;
    LastAt(q, '.', |stem|);
  }
}
