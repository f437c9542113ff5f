/**
 * The subtheme splitting step of the IAS Score micro-topics recipe
 * (`convert_splitting_themes` in `recipe/iasscore/__init__.py`).
 *
 * A topic whose subtheme holds line breaks is removed from the list and
 * replaced by one copy per line, all copies going to the end of the list.
 * Topics are those the micro-topics scraper builds (`Insights.Topic`); the
 * list is changed in place, so it is the field of a class here.
 */
module Iasscore {
  import opened Wrappers
  import opened Text
  import opened Dedup
  import opened Insights

  /** `"\n" in topic.get("subtheme", "")` */
  predicate IsSplit(t: Topic) {
    t.subtheme.Some? && '\n' in t.subtheme.value
  }

  predicate Unsplit(t: Topic) {
    !IsSplit(t)
  }

  /** The topics that stay where they are, in order. */
  function Kept(topics: seq<Topic>): seq<Topic> {
    Filter(topics, Unsplit)
  }

  /** One copy of `t` per piece, its subtheme the stripped piece (`dict(topic)` with `subtheme` replaced). */
  function Copies(t: Topic, pieces: seq<string>): (r: seq<Topic>)
    ensures |r| == |pieces|
    ensures forall k :: 0 <= k < |pieces| ==> r[k] == t.(subtheme := Some(Strip(pieces[k])))
  {
    seq(|pieces|, k requires 0 <= k < |pieces| => t.(subtheme := Some(Strip(pieces[k]))))
  }

  /** The copies a split topic is replaced by: one per line of its subtheme. */
  function SplitCopies(t: Topic): seq<Topic>
    requires IsSplit(t)
  {
    Copies(t, Split(t.subtheme.value, "\n"))
  }

  /** All copies, in the order of the topics they come from. */
  function CopiesOf(topics: seq<Topic>): seq<Topic> {
    if topics == [] then []
    else
      var n := |topics| - 1;
      CopiesOf(topics[..n]) + (if IsSplit(topics[n]) then SplitCopies(topics[n]) else [])
  }

  /** The list after `convert_splitting_themes`. */
  function Converted(topics: seq<Topic>): seq<Topic> {
    Kept(topics) + CopiesOf(topics)
  }

  /** `list.remove(x)`: the first element equal to `x` is taken out. */
  function RemoveFirst(xs: seq<Topic>, x: Topic): (r: seq<Topic>)
    requires x in xs
    ensures |r| == |xs| - 1
  {
    if xs[0] == x then xs[1..] else [xs[0]] + RemoveFirst(xs[1..], x)
  }

  /** An element not among the first ones is removed at its own place. */
  lemma {:induction false} RemoveFirstAfter(a: seq<Topic>, x: Topic, b: seq<Topic>)
    requires x !in a
    ensures RemoveFirst(a + [x] + b, x) == a + b
  {
    if a != [] {
      var xs := a + [x] + b;
      assert xs[0] == a[0] && a[0] != x;
      assert xs[1..] == a[1..] + [x] + b;
      RemoveFirstAfter(a[1..], x, b);
      assert RemoveFirst(xs, x) == [a[0]] + (a[1..] + b);
      assert [a[0]] + (a[1..] + b) == a + b;
    }
  }

  /** Topics changed in place. */
  class TopicList {
    var items: seq<Topic>

    constructor(items: seq<Topic>)
      ensures this.items == items
    {
      this.items := items;
    }

    /** `convert_splitting_themes(topics)` */
    method ConvertSplittingThemes()
      modifies this
      ensures items == Converted(old(items))
    {
      var snapshot := items;
      var topics := items;
      var splitTopics: seq<Topic> := [];
      var i := 0;
      assert Visited(snapshot, 0, topics, splitTopics) by {
        assert snapshot[..0] == [] && snapshot[0..] == snapshot;
      }
      while i < |snapshot|
        invariant Visited(snapshot, i, topics, splitTopics)
      {
        topics, splitTopics := VisitTopic(snapshot, i, topics, splitTopics);
        i := i + 1;
      }
      VisitedAll(snapshot, topics, splitTopics);
      items := topics + splitTopics;
    }
  }

  /**
   * The lists after the first `i` topics: `topics` holds the kept ones, then
   * those not yet visited; `splitTopics` the copies made so far.
   */
  predicate Visited(snapshot: seq<Topic>, i: nat, topics: seq<Topic>, splitTopics: seq<Topic>) {
    i <= |snapshot| && topics == Kept(snapshot[..i]) + snapshot[i..] && splitTopics == CopiesOf(snapshot[..i])
  }

  lemma {:induction false} VisitedAll(snapshot: seq<Topic>, topics: seq<Topic>, splitTopics: seq<Topic>)
    requires Visited(snapshot, |snapshot|, topics, splitTopics)
    ensures topics + splitTopics == Converted(snapshot)
  {
    assert snapshot[..|snapshot|] == snapshot;
  }

  /** One pass of the outer loop: a split topic is removed and its copies are appended. */
  method VisitTopic(snapshot: seq<Topic>, i: nat, topics: seq<Topic>, splitTopics: seq<Topic>)
    returns (topics': seq<Topic>, splitTopics': seq<Topic>)
    requires i < |snapshot| && Visited(snapshot, i, topics, splitTopics)
    ensures Visited(snapshot, i + 1, topics', splitTopics')
  {
    var topic := snapshot[i];
    topics', splitTopics' := topics, splitTopics;
    if IsSplit(topic) {
      var pieces := Split(topic.subtheme.value, "\n");
      assert topic in topics && RemoveFirst(topics, topic) == Kept(snapshot[..i + 1]) + snapshot[i + 1..] by {
        ConvertStep(snapshot, i);
      }
      assert CopiesOf(snapshot[..i + 1]) == splitTopics + Copies(topic, pieces) by {
        KeptStep(snapshot, i);
      }
      topics' := RemoveFirst(topics, topic);
      splitTopics' := AppendCopies(splitTopics, topic, pieces);
    } else {
      assert topics == Kept(snapshot[..i + 1]) + snapshot[i + 1..] by {
        ConvertStep(snapshot, i);
      }
      assert CopiesOf(snapshot[..i + 1]) == splitTopics by {
        KeptStep(snapshot, i);
      }
    }
  }

  /** The inner loop of `convert_splitting_themes`: one copy per piece, appended in order. */
  method AppendCopies(splitTopics: seq<Topic>, topic: Topic, pieces: seq<string>) returns (r: seq<Topic>)
    ensures r == splitTopics + Copies(topic, pieces)
  {
    r := splitTopics;
    var j := 0;
    while j < |pieces|
      invariant 0 <= j <= |pieces|
      invariant r == splitTopics + Copies(topic, pieces[..j])
    {
      var splitTopic := topic.(subtheme := Some(Strip(pieces[j])));
      assert Copies(topic, pieces[..j + 1]) == Copies(topic, pieces[..j]) + [splitTopic];
      AppendAssoc(splitTopics, Copies(topic, pieces[..j]), [splitTopic]);
      r := r + [splitTopic];
      j := j + 1;
    }
    assert pieces[..j] == pieces;
  }

  /** One more topic: kept at the end when unsplit, dropped when split. */
  lemma {:induction false} KeptStep(topics: seq<Topic>, i: nat)
    requires i < |topics|
    ensures Kept(topics[..i + 1]) == Kept(topics[..i]) + (if IsSplit(topics[i]) then [] else [topics[i]])
    ensures CopiesOf(topics[..i + 1]) == CopiesOf(topics[..i]) + (if IsSplit(topics[i]) then SplitCopies(topics[i]) else [])
  {
    assert topics[..i + 1][..i] == topics[..i];
  }

  /** The list during the loop: the kept topics so far, then the topics not yet visited. */
  lemma {:induction false} ConvertStep(topics: seq<Topic>, i: nat)
    requires i < |topics|
    ensures IsSplit(topics[i]) ==>
      (topics[i] in Kept(topics[..i]) + topics[i..]
       && RemoveFirst(Kept(topics[..i]) + topics[i..], topics[i]) == Kept(topics[..i + 1]) + topics[i + 1..])
    ensures !IsSplit(topics[i]) ==> Kept(topics[..i]) + topics[i..] == Kept(topics[..i + 1]) + topics[i + 1..]
  {
    KeptStep(topics, i);
    assert topics[i..] == [topics[i]] + topics[i + 1..];
    AppendAssoc(Kept(topics[..i]), [topics[i]], topics[i + 1..]);
    if IsSplit(topics[i]) {
      RemoveFirstAfter(Kept(topics[..i]), topics[i], topics[i + 1..]);
    }
  }

  /** A subtheme with `k` line breaks gives `k + 1` copies. */
  lemma {:induction false} SplitCopiesCount(t: Topic)
    requires IsSplit(t)
    ensures |SplitCopies(t)| == CountChar(t.subtheme.value, '\n') + 1
  {
    SplitCharCount(t.subtheme.value, '\n');
  }

  /**
   * Each copy keeps every other field of its topic, and its subtheme is a
   * stripped line of the original subtheme, with no line break left in it.
   */
  lemma {:induction false} SplitCopiesSpec(t: Topic)
    requires IsSplit(t)
    ensures var pieces := Split(t.subtheme.value, "\n");
      && |SplitCopies(t)| == |pieces|
      && forall k :: 0 <= k < |pieces| ==>
        && SplitCopies(t)[k].(subtheme := t.subtheme) == t
        && SplitCopies(t)[k].subtheme == Some(Strip(pieces[k]))
        && '\n' !in Strip(pieces[k])
  {
    var pieces := Split(t.subtheme.value, "\n");
    SplitPiecesFree(t.subtheme.value, "\n");
    forall k | 0 <= k < |pieces| ensures '\n' !in Strip(pieces[k]) {
      LineFree(pieces[k]);
    }
  }

  /** A stripped piece with no `"\n"` in it has no line break. */
  lemma {:induction false} LineFree(s: string)
    requires !Contains(s, "\n")
    ensures '\n' !in Strip(s)
  {
    var i := StripIsSlice(s);
    if '\n' in Strip(s) {
      var j :| 0 <= j < |Strip(s)| && Strip(s)[j] == '\n';
      assert s[i + j] == '\n';
      OccursAtChar(s, '\n', i + j);
    }
  }

  /** No copy has a line break in its subtheme. */
  lemma {:induction false} CopiesOfUnsplit(topics: seq<Topic>)
    ensures forall c :: c in CopiesOf(topics) ==> Unsplit(c)
  {
    if topics != [] {
      var n := |topics| - 1;
      CopiesOfUnsplit(topics[..n]);
      if IsSplit(topics[n]) {
        SplitCopiesSpec(topics[n]);
        forall c | c in SplitCopies(topics[n]) ensures Unsplit(c) {
          var k :| 0 <= k < |SplitCopies(topics[n])| && SplitCopies(topics[n])[k] == c;
        }
      }
    }
  }

  /**
   * After the conversion no topic has a line break in its subtheme; the
   * topics that had none, including those without a subtheme, come first in
   * their original order.
   */
  lemma {:induction false} ConvertedSpec(topics: seq<Topic>)
    ensures forall t :: t in Converted(topics) ==> !IsSplit(t)
    ensures Converted(topics)[..|Kept(topics)|] == Kept(topics)
    ensures forall t :: t in topics && t.subtheme.None? ==> t in Converted(topics)[..|Kept(topics)|]
  {
    CopiesOfUnsplit(topics);
    assert Converted(topics)[..|Kept(topics)|] == Kept(topics);
  }

  /** Converting a second time changes nothing. */
  lemma {:induction false} ConvertedIdempotent(topics: seq<Topic>)
    ensures Converted(Converted(topics)) == Converted(topics)
  {
    var r := Converted(topics);
    ConvertedSpec(topics);
    KeptAll(r);
    NoCopies(r);
  }

  /** Only topics with line breaks make copies. */
  lemma {:induction false} NoCopies(topics: seq<Topic>)
    requires forall t :: t in topics ==> Unsplit(t)
    ensures CopiesOf(topics) == []
  {
    if topics != [] {
      var n := |topics| - 1;
      assert topics[n] in topics;
      assert forall t :: t in topics[..n] ==> t in topics;
      NoCopies(topics[..n]);
    }
  }

  /** When no topic has a line break, all are kept as they are. */
  lemma {:induction false} KeptAll(topics: seq<Topic>)
    requires forall t :: t in topics ==> Unsplit(t)
    ensures Kept(topics) == topics
  {
    if topics != [] {
      var n := |topics| - 1;
      assert topics[n] in topics;
      assert forall t :: t in topics[..n] ==> t in topics;
      KeptAll(topics[..n]);
      assert topics == topics[..n] + [topics[n]];
    }
  }
}
