/**
 Literal search in a text. A global regular expression finds its matches greedily:
 the leftmost occurrence, then the leftmost one after its end, and so on. Characters
 are compared through `fold`, the identity for a case-sensitive search and any case
 folding otherwise.
 */
module Matching {
  import opened Options
  import opened Sequences

  predicate OccursAt(text: string, query: string, fold: char -> char, i: nat) {
    i + |query| <= |text| && forall k :: 0 <= k < |query| ==> fold(text[i + k]) == fold(query[k])
  }

  /** The leftmost occurrence at or after `from`. */
  function FirstFrom(text: string, query: string, fold: char -> char, from: nat): (i: Option<nat>)
    ensures i.Some? ==> from <= i.value && OccursAt(text, query, fold, i.value)
    decreases |text| - from
  {
    if from + |query| > |text| then None
    else if OccursAt(text, query, fold, from) then Some(from)
    else FirstFrom(text, query, fold, from + 1)
  }

  lemma {:induction false} FirstIsLeftmost(text: string, query: string, fold: char -> char, from: nat, p: nat)
    requires from <= p && OccursAt(text, query, fold, p)
    ensures FirstFrom(text, query, fold, from).Some? && FirstFrom(text, query, fold, from).value <= p
    decreases |text| - from
  {
    if !OccursAt(text, query, fold, from) {
      FirstIsLeftmost(text, query, fold, from + 1, p);
    }
  }

  /** The matches of one pass over the text, by the position where each begins. */
  function Matches(text: string, query: string, fold: char -> char, from: nat): seq<nat>
    requires query != ""
    decreases |text| - from
  {
    var i := FirstFrom(text, query, fold, from);
    if i.None? then [] else [i.value] + Matches(text, query, fold, i.value + |query|)
  }

  /** Occurrences from `from` on, in order, none overlapping the next. */
  ghost predicate Separate(text: string, query: string, fold: char -> char, from: nat, ms: seq<nat>) {
    && (forall k :: 0 <= k < |ms| ==> from <= ms[k] && OccursAt(text, query, fold, ms[k]))
    && (forall j, k :: 0 <= j < k < |ms| ==> ms[j] + |query| <= ms[k])
  }

  lemma {:induction false} MatchesSeparate(text: string, query: string, fold: char -> char, from: nat)
    requires query != ""
    ensures Separate(text, query, fold, from, Matches(text, query, fold, from))
    decreases |text| - from
  {
    var i := FirstFrom(text, query, fold, from);
    if i.Some? {
      MatchesSeparate(text, query, fold, i.value + |query|);
    }
  }

  /** Every occurrence overlaps a match that begins no later: the matches are leftmost and leave no room. */
  lemma {:induction false} EveryOccurrenceIsCovered(text: string, query: string, fold: char -> char, from: nat, p: nat)
    requires query != "" && from <= p && OccursAt(text, query, fold, p)
    ensures exists m :: m in Matches(text, query, fold, from) && m <= p < m + |query|
    decreases |text| - from
  {
    FirstIsLeftmost(text, query, fold, from, p);
    var i := FirstFrom(text, query, fold, from).value;
    var next := i + |query|;
    assert Matches(text, query, fold, from) == [i] + Matches(text, query, fold, next);
    if p >= next {
      EveryOccurrenceIsCovered(text, query, fold, next, p);
      var m :| m in Matches(text, query, fold, next) && m <= p < m + |query|;
      assert m in Matches(text, query, fold, from);
    } else {
      assert i in Matches(text, query, fold, from);
    }
  }

  // ---------- Optimality ----------

  /** Positions of occurrences that keep the length of the query apart. */
  ghost predicate Packing(text: string, query: string, fold: char -> char, from: nat, ps: set<nat>) {
    && (forall p :: p in ps ==> from <= p && OccursAt(text, query, fold, p))
    && (forall p, q :: p in ps && q in ps && p < q ==> p + |query| <= q)
  }

  lemma {:induction false} Least(ps: set<nat>) returns (least: nat)
    requires ps != {}
    ensures least in ps && forall p :: p in ps ==> least <= p
    decreases |ps|
  {
    var p :| p in ps;
    least := p;
    if ps - {p} != {} {
      var other := Least(ps - {p});
      least := if other < p then other else p;
    }
    forall q | q in ps ensures least <= q {
      assert q == p || q in ps - {p};
    }
  }

  /** No set of non-overlapping occurrences is larger than the matches of the greedy pass. */
  lemma {:induction false} GreedyIsMaximum(text: string, query: string, fold: char -> char, from: nat, ps: set<nat>)
    requires query != "" && Packing(text, query, fold, from, ps)
    ensures |ps| <= |Matches(text, query, fold, from)|
    decreases |ps|
  {
    if ps != {} {
      var p := Least(ps);
      FirstIsLeftmost(text, query, fold, from, p);
      var i := FirstFrom(text, query, fold, from).value;
      var next := i + |query|;
      assert Matches(text, query, fold, from) == [i] + Matches(text, query, fold, next);
      assert Packing(text, query, fold, next, ps - {p});
      GreedyIsMaximum(text, query, fold, next, ps - {p});
    }
  }

  ghost function Positions(ms: seq<nat>): set<nat> {
    set m | m in ms
  }

  lemma {:induction false} DistinctPositions(ms: seq<nat>)
    requires forall j, k :: 0 <= j < k < |ms| ==> ms[j] < ms[k]
    ensures |Positions(ms)| == |ms|
  {
    if ms != [] {
      var init, last := ms[..|ms| - 1], ms[|ms| - 1];
      DistinctPositions(init);
      assert ms == init + [last];
      assert Positions(ms) == Positions(init) + {last};
    }
  }

  /** The matches are themselves such a set, so the bound is attained. */
  lemma MatchesArePacking(text: string, query: string, fold: char -> char)
    requires query != ""
    ensures Packing(text, query, fold, 0, Positions(Matches(text, query, fold, 0)))
    ensures |Positions(Matches(text, query, fold, 0))| == |Matches(text, query, fold, 0)|
  {
    var ms := Matches(text, query, fold, 0);
    MatchesSeparate(text, query, fold, 0);
    DistinctPositions(ms);
    forall p, q | p in Positions(ms) && q in Positions(ms) && p < q ensures p + |query| <= q {
      var j :| 0 <= j < |ms| && ms[j] == p;
      var k :| 0 <= k < |ms| && ms[k] == q;
      assert j < k;
    }
  }

  // ---------- Replacing every match ----------

  /** Stretches of that length within the text from `from` on, in order and not overlapping. */
  ghost predicate Fits(text: string, ms: seq<nat>, length: nat, from: nat) {
    && from <= |text|
    && (forall k :: 0 <= k < |ms| ==> from <= ms[k] && ms[k] + length <= |text|)
    && (forall j, k :: 0 <= j < k < |ms| ==> ms[j] + length <= ms[k])
  }

  lemma FitsRest(text: string, ms: seq<nat>, length: nat, from: nat)
    requires ms != [] && Fits(text, ms, length, from)
    ensures Fits(text, ms[1..], length, ms[0] + length)
  {
  }

  lemma MatchesFit(text: string, query: string, fold: char -> char)
    requires query != ""
    ensures Fits(text, Matches(text, query, fold, 0), |query|, 0)
  {
    var ms := Matches(text, query, fold, 0);
    MatchesSeparate(text, query, fold, 0);
    forall k | 0 <= k < |ms| ensures ms[k] + |query| <= |text| {
      assert OccursAt(text, query, fold, ms[k]);
    }
  }

  /** The text from `from` on, with each of the stretches replaced. */
  ghost function Splice(text: string, ms: seq<nat>, length: nat, replacement: string, from: nat): string
    requires Fits(text, ms, length, from)
    decreases |ms|
  {
    if ms == [] then text[from..]
    else (text[from..ms[0]] + replacement) + Splice(text, ms[1..], length, replacement, ms[0] + length)
  }

  /** The text with every match replaced. */
  ghost function Replaced(text: string, query: string, fold: char -> char, replacement: string): string
    requires query != ""
  {
    MatchesFit(text, query, fold);
    Splice(text, Matches(text, query, fold, 0), |query|, replacement, 0)
  }

  /** A text cut into the stretches a pass keeps and those it matches. */
  datatype Segment = Kept(text: string) | Hit(text: string)

  ghost function Cut(text: string, ms: seq<nat>, length: nat, from: nat): seq<Segment>
    requires Fits(text, ms, length, from)
    decreases |ms|
  {
    if ms == [] then [Kept(text[from..])]
    else [Kept(text[from..ms[0]]), Hit(text[ms[0]..ms[0] + length])] + Cut(text, ms[1..], length, ms[0] + length)
  }

  function Joined(segments: seq<Segment>): string {
    if segments == [] then "" else segments[0].text + Joined(segments[1..])
  }

  /** The same segments with every matched one exchanged. */
  function Exchanged(segments: seq<Segment>, replacement: string): string {
    if segments == [] then ""
    else (if segments[0].Hit? then replacement else segments[0].text) + Exchanged(segments[1..], replacement)
  }

  function HitCount(segments: seq<Segment>): nat {
    if segments == [] then 0 else (if segments[0].Hit? then 1 else 0) + HitCount(segments[1..])
  }

  /** The stretch is the query up to folding. */
  ghost predicate FoldsTo(s: string, query: string, fold: char -> char) {
    |s| == |query| && forall k :: 0 <= k < |s| ==> fold(s[k]) == fold(query[k])
  }

  lemma TwoSegments(a: Segment, b: Segment, rest: seq<Segment>, replacement: string)
    requires a.Kept? && b.Hit?
    ensures Joined([a, b] + rest) == (a.text + b.text) + Joined(rest)
    ensures Exchanged([a, b] + rest, replacement) == (a.text + replacement) + Exchanged(rest, replacement)
    ensures HitCount([a, b] + rest) == 1 + HitCount(rest)
  {
    assert ([a, b] + rest)[1..] == [b] + rest;
    assert ([b] + rest)[1..] == rest;
    Regroup(a.text, b.text, Joined(rest));
    Regroup(a.text, replacement, Exchanged(rest, replacement));
  }

  lemma OneSegment(a: Segment, replacement: string)
    requires a.Kept?
    ensures Joined([a]) == a.text && Exchanged([a], replacement) == a.text && HitCount([a]) == 0
  {
    assert [a][1..] == [];
  }

  lemma {:induction false} CutAndJoin(text: string, ms: seq<nat>, length: nat, from: nat, replacement: string)
    requires Fits(text, ms, length, from)
    ensures Joined(Cut(text, ms, length, from)) == text[from..]
    ensures Exchanged(Cut(text, ms, length, from), replacement) == Splice(text, ms, length, replacement, from)
    ensures HitCount(Cut(text, ms, length, from)) == |ms|
    decreases |ms|
  {
    if ms == [] {
      OneSegment(Kept(text[from..]), replacement);
    } else {
      var next := ms[0] + length;
      FitsRest(text, ms, length, from);
      CutAndJoin(text, ms[1..], length, next, replacement);
      TwoSegments(Kept(text[from..ms[0]]), Hit(text[ms[0]..next]), Cut(text, ms[1..], length, next), replacement);
      assert text[from..] == (text[from..ms[0]] + text[ms[0]..next]) + text[next..];
    }
  }

  lemma {:induction false} HitsFoldToQuery(text: string, query: string, fold: char -> char, ms: seq<nat>, from: nat)
    requires Fits(text, ms, |query|, from) && forall k :: 0 <= k < |ms| ==> OccursAt(text, query, fold, ms[k])
    ensures forall s :: s in Cut(text, ms, |query|, from) && s.Hit? ==> FoldsTo(s.text, query, fold)
    decreases |ms|
  {
    if ms != [] {
      FitsRest(text, ms, |query|, from);
      assert OccursAt(text, query, fold, ms[0]);
      assert FoldsTo(text[ms[0]..ms[0] + |query|], query, fold);
      HitsFoldToQuery(text, query, fold, ms[1..], ms[0] + |query|);
    }
  }

  /** The segments that a search cuts a text into. */
  ghost function SegmentsOf(text: string, query: string, fold: char -> char): seq<Segment>
    requires query != ""
  {
    MatchesFit(text, query, fold);
    Cut(text, Matches(text, query, fold, 0), |query|, 0)
  }

  /**
   Replacing all matches keeps the text between them: the text and the result are the
   same segments, except that each matched stretch, the query up to folding, is
   exchanged for the replacement.
   */
  lemma ReplaceKeepsTheRest(text: string, query: string, fold: char -> char, replacement: string)
    requires query != ""
    ensures var segments := SegmentsOf(text, query, fold);
            && text == Joined(segments)
            && Replaced(text, query, fold, replacement) == Exchanged(segments, replacement)
            && HitCount(segments) == |Matches(text, query, fold, 0)|
            && forall s :: s in segments && s.Hit? ==> FoldsTo(s.text, query, fold)
  {
    var ms := Matches(text, query, fold, 0);
    MatchesFit(text, query, fold);
    MatchesSeparate(text, query, fold, 0);
    CutAndJoin(text, ms, |query|, 0, replacement);
    HitsFoldToQuery(text, query, fold, ms, 0);
    assert text[0..] == text;
  }

  lemma OneMoreTimes(n: int, d: int)
    ensures (1 + n) * d == d + n * d
  {
  }

  lemma {:induction false} ExchangedLength(segments: seq<Segment>, length: nat, replacement: string, count: nat)
    requires count == HitCount(segments) && forall s :: s in segments && s.Hit? ==> |s.text| == length
    ensures |Exchanged(segments, replacement)| == |Joined(segments)| + count * (|replacement| - length)
    decreases |segments|
  {
    if segments != [] {
      var head, d := segments[0], |replacement| - length;
      if head.Hit? {
        assert |head.text| == length;
        ExchangedLength(segments[1..], length, replacement, count - 1);
        OneMoreTimes(count - 1, d);
      } else {
        ExchangedLength(segments[1..], length, replacement, count);
      }
    }
  }

  lemma FoldingKeepsLength(segments: seq<Segment>, query: string, fold: char -> char)
    requires forall s :: s in segments && s.Hit? ==> FoldsTo(s.text, query, fold)
    ensures forall s :: s in segments && s.Hit? ==> |s.text| == |query|
  {
  }

  /** The length changes by the difference of the two lengths, once per match. */
  lemma ReplaceLength(text: string, query: string, fold: char -> char, replacement: string)
    requires query != ""
    ensures |Replaced(text, query, fold, replacement)|
            == |text| + |Matches(text, query, fold, 0)| * (|replacement| - |query|)
  {
    var segments, count := SegmentsOf(text, query, fold), |Matches(text, query, fold, 0)|;
    ReplaceKeepsTheRest(text, query, fold, replacement);
    FoldingKeepsLength(segments, query, fold);
    ExchangedLength(segments, |query|, replacement, count);
  }

  lemma {:induction false} ExchangeBySelf(segments: seq<Segment>, query: string)
    requires forall s :: s in segments && s.Hit? ==> s.text == query
    ensures Exchanged(segments, query) == Joined(segments)
  {
    if segments != [] {
      ExchangeBySelf(segments[1..], query);
    }
  }

  /** The comparison of a case-sensitive search. */
  function Same(c: char): char { c }

  /** In a case-sensitive search, replacing a query by itself changes nothing. */
  lemma ReplaceBySelf(text: string, query: string)
    requires query != ""
    ensures Replaced(text, query, Same, query) == text
  {
    var segments := SegmentsOf(text, query, Same);
    ReplaceKeepsTheRest(text, query, Same, query);
    forall s | s in segments && s.Hit? ensures s.text == query {
      assert FoldsTo(s.text, query, Same);
    }
    ExchangeBySelf(segments, query);
  }
}
