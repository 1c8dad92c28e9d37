/**
 The find-and-replace bar of the file editor, in literal mode: the text, the query,
 the selection in the text area and the "n of N" counter, updated by each command.
 */
module FindReplace {
  import opened Matching
  import opened Options
  import opened Sequences

  datatype Heading = Next | Previous

  // ---------- Which match is selected ----------

  function FirstFromPosition(ms: seq<nat>, start: nat): Option<nat> {
    if ms == [] then None else if ms[0] >= start then Some(ms[0]) else FirstFromPosition(ms[1..], start)
  }

  function EndingBy(ms: seq<nat>, length: nat, start: nat): seq<nat> {
    if ms == [] then []
    else (if ms[0] + length <= start then [ms[0]] else []) + EndingBy(ms[1..], length, start)
  }

  /**
   The match to select: the next one from the end of the selection or the last one before
   its start, wrapping around.
   */
  function Target(ms: seq<nat>, length: nat, heading: Heading, selStart: nat, selEnd: nat): nat
    requires ms != []
  {
    match heading
    case Next =>
      var found := FirstFromPosition(ms, selEnd);
      if found.Some? then found.value else ms[0]
    case Previous =>
      var before := EndingBy(ms, length, selStart);
      if before != [] then before[|before| - 1] else ms[|ms| - 1]
  }

  function IndexOf(ms: seq<nat>, m: nat): nat {
    if ms == [] then 0 else if ms[0] == m then 0 else 1 + IndexOf(ms[1..], m)
  }

  /** The matches begin at least `length` apart. */
  ghost predicate Spaced(ms: seq<nat>, length: nat) {
    forall j, k :: 0 <= j < k < |ms| ==> ms[j] + length <= ms[k]
  }

  lemma {:induction false} FirstFromIndex(ms: seq<nat>, start: nat, k: nat)
    requires k <= |ms|
    requires forall j :: 0 <= j < k ==> ms[j] < start
    requires k < |ms| ==> ms[k] >= start
    ensures FirstFromPosition(ms, start) == if k < |ms| then Some(ms[k]) else None
  {
    if k > 0 {
      FirstFromIndex(ms[1..], start, k - 1);
    }
  }

  lemma {:induction false} EndingByIndex(ms: seq<nat>, length: nat, start: nat, k: nat)
    requires k <= |ms|
    requires forall j :: 0 <= j < |ms| ==> (ms[j] + length <= start <==> j < k)
    ensures EndingBy(ms, length, start) == ms[..k]
  {
    if ms != [] {
      if k > 0 {
        EndingByIndex(ms[1..], length, start, k - 1);
        assert ms[..k] == [ms[0]] + ms[1..][..k - 1];
      } else {
        EndingByIndex(ms[1..], length, start, 0);
      }
    }
  }

  lemma {:induction false} IndexOfMatch(ms: seq<nat>, length: nat, k: nat)
    requires length > 0 && Spaced(ms, length) && k < |ms|
    ensures IndexOf(ms, ms[k]) == k
  {
    if k > 0 {
      assert Spaced(ms[1..], length);
      IndexOfMatch(ms[1..], length, k - 1);
    }
  }

  /** The rank after this one, and the rank before it, around the circle of n. */
  function Succ(k: nat, n: nat): nat { if k + 1 < n then k + 1 else 0 }

  function Pred(k: nat, n: nat): nat
    requires n > 0
  {
    if k > 0 then k - 1 else n - 1
  }

  /** With the selection on match k of n, next selects match k+1 and previous match k-1, modulo n. */
  lemma StepsAroundTheCircle(ms: seq<nat>, length: nat, k: nat)
    requires length > 0 && Spaced(ms, length) && k < |ms|
    ensures Target(ms, length, Next, ms[k], ms[k] + length) == ms[Succ(k, |ms|)]
    ensures Target(ms, length, Previous, ms[k], ms[k] + length) == ms[Pred(k, |ms|)]
  {
    FirstFromIndex(ms, ms[k] + length, k + 1);
    EndingByIndex(ms, length, ms[k], k);
  }

  lemma NextUndoesPrevious(ms: seq<nat>, length: nat, k: nat)
    requires length > 0 && Spaced(ms, length) && k < |ms|
    ensures var next := Target(ms, length, Next, ms[k], ms[k] + length);
            Target(ms, length, Previous, next, next + length) == ms[k]
    ensures var previous := Target(ms, length, Previous, ms[k], ms[k] + length);
            Target(ms, length, Next, previous, previous + length) == ms[k]
  {
    StepsAroundTheCircle(ms, length, k);
    StepsAroundTheCircle(ms, length, Succ(k, |ms|));
    StepsAroundTheCircle(ms, length, Pred(k, |ms|));
  }

  /** The position selected after pressing next that many times. */
  function AfterPresses(ms: seq<nat>, length: nat, selected: nat, presses: nat): nat
    requires ms != []
  {
    if presses == 0 then selected
    else
      var before := AfterPresses(ms, length, selected, presses - 1);
      Target(ms, length, Next, before, before + length)
  }

  /** The rank k positions further around the circle of n. */
  function Around(k: nat, steps: nat, n: nat): nat
    requires k < n && steps <= n
  {
    if k + steps < n then k + steps else k + steps - n
  }

  /** Pressing next visits every match once and comes back after n presses. */
  lemma {:induction false} PressesCycle(ms: seq<nat>, length: nat, k: nat, presses: nat)
    requires length > 0 && Spaced(ms, length) && k < |ms| && presses <= |ms|
    ensures Around(k, presses, |ms|) < |ms|
    ensures AfterPresses(ms, length, ms[k], presses) == ms[Around(k, presses, |ms|)]
  {
    if presses > 0 {
      PressesCycle(ms, length, k, presses - 1);
      StepsAroundTheCircle(ms, length, Around(k, presses - 1, |ms|));
    }
  }

  /** Wherever the caret is, next selects the first match at or after it, or the first of all. */
  lemma NextFromAnywhere(ms: seq<nat>, length: nat, selStart: nat, selEnd: nat)
    requires length > 0 && Spaced(ms, length) && ms != []
    ensures var t := Target(ms, length, Next, selStart, selEnd);
            && t in ms
            && (forall m :: m in ms && selEnd <= m ==> selEnd <= t <= m)
            && ((forall m :: m in ms ==> m < selEnd) ==> t == ms[0])
  {
    FirstFromIsFirst(ms, length, selEnd);
  }

  lemma {:induction false} FirstFromIsFirst(ms: seq<nat>, length: nat, start: nat)
    requires Spaced(ms, length)
    ensures FirstFromPosition(ms, start).None? ==> forall m :: m in ms ==> m < start
    ensures FirstFromPosition(ms, start).Some? ==>
              var t := FirstFromPosition(ms, start).value;
              t in ms && start <= t && forall m :: m in ms && start <= m ==> t <= m
  {
    if ms != [] {
      assert Spaced(ms[1..], length);
      FirstFromIsFirst(ms[1..], length, start);
      assert ms == [ms[0]] + ms[1..];
      forall m | m in ms ensures ms[0] <= m {
        var j :| 0 <= j < |ms| && ms[j] == m;
      }
    }
  }

  /** And previous selects the last match that ends at or before the selection, or the last of all. */
  lemma PreviousFromAnywhere(ms: seq<nat>, length: nat, selStart: nat, selEnd: nat)
    requires length > 0 && Spaced(ms, length) && ms != []
    ensures var t := Target(ms, length, Previous, selStart, selEnd);
            && t in ms
            && (forall m :: m in ms && m + length <= selStart ==> m <= t && t + length <= selStart)
            && ((forall m :: m in ms ==> m + length > selStart) ==> t == ms[|ms| - 1])
  {
    EndingByEndsLast(ms, length, selStart);
  }

  /** `ending` closes with the greatest member of `ms` that ends by `start`, and is empty when there is none. */
  ghost predicate EndsWithLast(ms: seq<nat>, length: nat, start: nat, ending: seq<nat>) {
    if ending == [] then forall m :: m in ms ==> m + length > start
    else
      var t := ending[|ending| - 1];
      t in ms && t + length <= start && forall m :: m in ms && m + length <= start ==> m <= t
  }

  lemma EndsWithLastStep(ms: seq<nat>, length: nat, start: nat, ending: seq<nat>)
    requires ms != [] && EndsWithLast(ms[1..], length, start, ending)
    requires forall m :: m in ms[1..] ==> ms[0] <= m
    ensures EndsWithLast(ms, length, start, (if ms[0] + length <= start then [ms[0]] else []) + ending)
  {
    assert forall m :: m in ms ==> m == ms[0] || m in ms[1..];
  }

  lemma {:induction false} EndingByEndsLast(ms: seq<nat>, length: nat, start: nat)
    requires Spaced(ms, length)
    ensures EndsWithLast(ms, length, start, EndingBy(ms, length, start))
  {
    if ms != [] {
      assert Spaced(ms[1..], length);
      EndingByEndsLast(ms[1..], length, start);
      EndsWithLastStep(ms, length, start, EndingBy(ms[1..], length, start));
    }
  }

  // ---------- The passes over the text ----------

  /** Where the search resumes after the first k matches. */
  function ResumeAt(ms: seq<nat>, length: nat, k: nat): nat
    requires k <= |ms|
  {
    if k == 0 then 0 else ms[k - 1] + length
  }

  /** The search, as `next`, yields `ms` when each time it resumes after the last one found. */
  ghost predicate YieldsFrom(next: nat -> Option<nat>, length: nat, from: nat, ms: seq<nat>)
    decreases |ms|
  {
    if ms == [] then next(from) == None
    else next(from) == Some(ms[0]) && YieldsFrom(next, length, ms[0] + length, ms[1..])
  }

  lemma {:induction false} YieldsInOrder(next: nat -> Option<nat>, length: nat, from: nat, ms: seq<nat>, k: nat)
    requires YieldsFrom(next, length, from, ms) && k <= |ms|
    ensures next(if k == 0 then from else ms[k - 1] + length) == if k < |ms| then Some(ms[k]) else None
    decreases k
  {
    if k > 0 {
      YieldsInOrder(next, length, ms[0] + length, ms[1..], k - 1);
    }
  }

  function Searching(text: string, query: string, fold: char -> char): nat -> Option<nat> {
    from => FirstFrom(text, query, fold, from)
  }

  lemma {:induction false} MatchesYield(text: string, query: string, fold: char -> char, from: nat)
    requires query != ""
    ensures YieldsFrom(Searching(text, query, fold), |query|, from, Matches(text, query, fold, from))
    decreases |text| - from
  {
    var i := FirstFrom(text, query, fold, from);
    if i.Some? {
      MatchesYield(text, query, fold, i.value + |query|);
    }
  }

  /** After the first k matches the search finds the next one. */
  lemma NextMatch(text: string, query: string, fold: char -> char, ms: seq<nat>, k: nat)
    requires query != "" && ms == Matches(text, query, fold, 0) && k <= |ms|
    ensures FirstFrom(text, query, fold, ResumeAt(ms, |query|, k)) == if k < |ms| then Some(ms[k]) else None
  {
    MatchesYield(text, query, fold, 0);
    YieldsInOrder(Searching(text, query, fold), |query|, 0, ms, k);
  }

  /** The exec loop: every match of the text, in order. */
  method CollectMatches(text: string, query: string, fold: char -> char) returns (ms: seq<nat>)
    requires query != ""
    ensures ms == Matches(text, query, fold, 0)
  {
    ghost var all := Matches(text, query, fold, 0);
    ms := [];
    var lastIndex: nat := 0;
    NextMatch(text, query, fold, all, 0);
    var m := FirstFrom(text, query, fold, lastIndex);
    while m.Some?
      invariant |ms| <= |all| && forall k :: 0 <= k < |ms| ==> ms[k] == all[k]
      invariant m == if |ms| < |all| then Some(all[|ms|]) else None
      decreases |all| - |ms|
    {
      ms := ms + [m.value];
      lastIndex := m.value + |query|;
      NextMatch(text, query, fold, all, |ms|);
      m := FirstFrom(text, query, fold, lastIndex);
    }
  }

  /** The rank noted while the first k of `ms` are counted, in order. */
  ghost predicate Noted(ms: seq<nat>, caret: nat, k: nat, cursorIdx: nat) {
    k <= |ms| && cursorIdx == Recounted(ms[..k], caret)
  }

  lemma NotedStep(ms: seq<nat>, length: nat, caret: nat, k: nat, cursorIdx: nat)
    requires Spaced(ms, length) && k < |ms| && Noted(ms, caret, k, cursorIdx)
    ensures Noted(ms, caret, k + 1, if ms[k] <= caret && cursorIdx == 0 then k + 1 else cursorIdx)
  {
    assert ms[..k + 1][0] == ms[0] && ms[0] <= ms[k];
  }

  /** Counts the matches, and notes the first one that begins at or before the caret. */
  method CountMatches(text: string, query: string, fold: char -> char, caret: nat) returns (count: nat, cursorIdx: nat)
    requires query != ""
    ensures count == |Matches(text, query, fold, 0)|
    ensures cursorIdx == Recounted(Matches(text, query, fold, 0), caret)
  {
    ghost var all := Matches(text, query, fold, 0);
    MatchesAscend(text, query, fold);
    count, cursorIdx := 0, 0;
    var lastIndex: nat := 0;
    NextMatch(text, query, fold, all, 0);
    var m := FirstFrom(text, query, fold, lastIndex);
    while m.Some?
      invariant Noted(all, caret, count, cursorIdx)
      invariant m == if count < |all| then Some(all[count]) else None
      decreases |all| - count
    {
      NotedStep(all, |query|, caret, count, cursorIdx);
      count := count + 1;
      if m.value <= caret && cursorIdx == 0 {
        cursorIdx := count;
      }
      lastIndex := m.value + |query|;
      NextMatch(text, query, fold, all, count);
      m := FirstFrom(text, query, fold, lastIndex);
    }
    assert all[..count] == all;
  }

  /** The copy so far, and the rest of the text with the later stretches replaced, make the whole result. */
  ghost predicate Copied(text: string, ms: seq<nat>, length: nat, replacement: string, copy: string, k: nat) {
    && k <= |ms| && Fits(text, ms, length, 0) && Fits(text, ms[k..], length, ResumeAt(ms, length, k))
    && copy + Splice(text, ms[k..], length, replacement, ResumeAt(ms, length, k))
       == Splice(text, ms, length, replacement, 0)
  }

  lemma SpliceHead(text: string, ms: seq<nat>, length: nat, replacement: string, from: nat, k: nat)
    requires k < |ms| && Fits(text, ms[k..], length, from)
    ensures from <= ms[k] <= |text| && Fits(text, ms[k + 1..], length, ms[k] + length)
    ensures Splice(text, ms[k..], length, replacement, from)
            == (text[from..ms[k]] + replacement) + Splice(text, ms[k + 1..], length, replacement, ms[k] + length)
  {
    FitsRest(text, ms[k..], length, from);
    assert ms[k..][0] == ms[k] && ms[k..][1..] == ms[k + 1..];
  }

  lemma CopyStep(text: string, ms: seq<nat>, length: nat, replacement: string, copy: string, k: nat)
    requires Copied(text, ms, length, replacement, copy, k) && k < |ms|
    ensures ResumeAt(ms, length, k) <= ms[k] <= |text|
    ensures Copied(text, ms, length, replacement, copy + (text[ResumeAt(ms, length, k)..ms[k]] + replacement), k + 1)
  {
    var from := ResumeAt(ms, length, k);
    SpliceHead(text, ms, length, replacement, from, k);
    Regroup(copy, text[from..ms[k]] + replacement, Splice(text, ms[k + 1..], length, replacement, ms[k] + length));
  }

  lemma CopyEnds(text: string, ms: seq<nat>, length: nat, replacement: string, copy: string)
    requires Copied(text, ms, length, replacement, copy, |ms|)
    ensures ResumeAt(ms, length, |ms|) <= |text|
    ensures copy + text[ResumeAt(ms, length, |ms|)..] == Splice(text, ms, length, replacement, 0)
  {
    assert ms[|ms|..] == [];
  }

  /** Copies the text, putting the replacement in place of each match. */
  method ReplaceIn(text: string, query: string, fold: char -> char, replacement: string)
    returns (after: string, count: nat)
    requires query != ""
    ensures after == Replaced(text, query, fold, replacement)
    ensures count == |Matches(text, query, fold, 0)|
  {
    ghost var all := Matches(text, query, fold, 0);
    MatchesFit(text, query, fold);
    NextMatch(text, query, fold, all, 0);
    after, count := "", 0;
    var lastIndex: nat := 0;
    var m := FirstFrom(text, query, fold, lastIndex);
    while m.Some?
      invariant count <= |all| && lastIndex == ResumeAt(all, |query|, count)
      invariant Copied(text, all, |query|, replacement, after, count)
      invariant m == if count < |all| then Some(all[count]) else None
      decreases |all| - count
    {
      CopyStep(text, all, |query|, replacement, after, count);
      after := after + (text[lastIndex..m.value] + replacement);
      count := count + 1;
      lastIndex := m.value + |query|;
      NextMatch(text, query, fold, all, count);
      m := FirstFrom(text, query, fold, lastIndex);
    }
    CopyEnds(text, all, |query|, replacement, after);
    after := after + text[lastIndex..];
  }

  // ---------- The editor ----------

  /** Letter for letter in a case-sensitive search and up to case folding otherwise, the query stands here. */
  ghost predicate StandsAt(contents: string, query: string, caseSensitive: bool, caseFold: char -> char, i: nat) {
    && i + |query| <= |contents|
    && if caseSensitive then contents[i..i + |query|] == query
       else FoldsTo(contents[i..i + |query|], query, caseFold)
  }

  ghost predicate Stands(contents: string, query: string, caseSensitive: bool, caseFold: char -> char) {
    exists i :: StandsAt(contents, query, caseSensitive, caseFold, i)
  }

  /** `fold` compares as the mode of the search says. */
  ghost predicate Compares(fold: char -> char, caseSensitive: bool, caseFold: char -> char) {
    (caseSensitive ==> forall c :: fold(c) == c) && (!caseSensitive ==> fold == caseFold)
  }

  lemma OccursWhereItStands(contents: string, query: string, fold: char -> char, caseSensitive: bool,
                            caseFold: char -> char, i: nat)
    requires Compares(fold, caseSensitive, caseFold)
    ensures OccursAt(contents, query, fold, i) <==> StandsAt(contents, query, caseSensitive, caseFold, i)
  {
    if i + |query| <= |contents| {
      var stretch := contents[i..i + |query|];
      assert forall k :: 0 <= k < |query| ==> stretch[k] == contents[i + k];
      if OccursAt(contents, query, fold, i) && caseSensitive {
        assert stretch == query;
      }
    }
  }

  /** There are matches exactly when the query stands somewhere, and it stands at each of them. */
  lemma MatchesStand(contents: string, query: string, fold: char -> char, caseSensitive: bool, caseFold: char -> char)
    requires query != "" && Compares(fold, caseSensitive, caseFold)
    ensures Matches(contents, query, fold, 0) != [] <==> Stands(contents, query, caseSensitive, caseFold)
    ensures forall m :: m in Matches(contents, query, fold, 0) ==>
                          StandsAt(contents, query, caseSensitive, caseFold, m)
  {
    var ms := Matches(contents, query, fold, 0);
    MatchesSeparate(contents, query, fold, 0);
    forall i: nat
      ensures OccursAt(contents, query, fold, i) <==> StandsAt(contents, query, caseSensitive, caseFold, i)
    {
      OccursWhereItStands(contents, query, fold, caseSensitive, caseFold, i);
    }
    if Stands(contents, query, caseSensitive, caseFold) {
      var i :| StandsAt(contents, query, caseSensitive, caseFold, i);
      EveryOccurrenceIsCovered(contents, query, fold, 0, i);
    }
    if ms != [] {
      assert StandsAt(contents, query, caseSensitive, caseFold, ms[0]);
    }
  }

  datatype Selection = Selection(start: nat, end: nat)

  /** The target match is selected and ranked, or there is none. */
  ghost predicate Selects(ms: seq<nat>, length: nat, heading: Heading, before: Selection, after: Selection,
                          matchCount: nat, matchIdx: nat)
  {
    && matchCount == |ms|
    && if ms == [] then after == before && matchIdx == 0
       else
         && after.start == Target(ms, length, heading, before.start, before.end) && after.end == after.start + length
         && 1 <= matchIdx <= |ms| && ms[matchIdx - 1] == after.start
  }

  class Editor {
    const caseFold: char -> char
    var mounted: bool        // the text area exists
    var contents: string
    var findQuery: string
    var replaceQuery: string
    var caseSensitive: bool
    var selStart: nat
    var selEnd: nat
    var matchCount: nat
    var matchIdx: nat

    constructor (caseFold: char -> char, mounted: bool, contents: string)
      ensures this.caseFold == caseFold && this.mounted == mounted && this.contents == contents
      ensures findQuery == replaceQuery == "" && selStart == selEnd == matchCount == matchIdx == 0
    {
      this.caseFold, this.mounted, this.contents := caseFold, mounted, contents;
      findQuery, replaceQuery, caseSensitive := "", "", false;
      selStart, selEnd, matchCount, matchIdx := 0, 0, 0, 0;
    }

    function Fold(): char -> char
      reads `caseSensitive
    {
      if caseSensitive then Same else caseFold
    }

    method FindNext(heading: Heading)
      modifies this`selStart, this`selEnd, this`matchCount, this`matchIdx
      ensures !mounted || findQuery == "" ==>
                && selStart == old(selStart) && selEnd == old(selEnd)
                && matchCount == old(matchCount) && matchIdx == old(matchIdx)
      ensures mounted && findQuery != "" && caseSensitive ==>
                Selects(Matches(contents, findQuery, Same, 0), |findQuery|, heading,
                        old(Selection(selStart, selEnd)), Selection(selStart, selEnd), matchCount, matchIdx)
      ensures mounted && findQuery != "" && !caseSensitive ==>
                Selects(Matches(contents, findQuery, caseFold, 0), |findQuery|, heading,
                        old(Selection(selStart, selEnd)), Selection(selStart, selEnd), matchCount, matchIdx)
      ensures mounted && findQuery != "" ==>
                if Stands(contents, findQuery, caseSensitive, caseFold) then
                  matchCount > 0 && StandsAt(contents, findQuery, caseSensitive, caseFold, selStart)
                else matchCount == 0
    {
      if !mounted || findQuery == "" {
        return;
      }
      var matches := CollectMatches(contents, findQuery, Fold());
      MatchesStand(contents, findQuery, Fold(), caseSensitive, caseFold);
      if matches == [] {
        matchCount, matchIdx := 0, 0;
        return;
      }
      var target := Target(matches, |findQuery|, heading, selStart, selEnd);
      TargetIsMatch(matches, |findQuery|, heading, selStart, selEnd);
      IndexInRange(matches, target);
      selStart, selEnd := target, target + |findQuery|;
      matchCount := |matches|;
      matchIdx := IndexOf(matches, target) + 1;
    }

    /** The counter shows what a recount gives for the text and the caret. */
    ghost predicate CounterIsCurrent()
      reads this
    {
      if !mounted || findQuery == "" then matchCount == matchIdx == 0
      else
        && (caseSensitive ==> Counts(Matches(contents, findQuery, Same, 0)))
        && (!caseSensitive ==> Counts(Matches(contents, findQuery, caseFold, 0)))
        && (matchCount > 0 <==> Stands(contents, findQuery, caseSensitive, caseFold))
    }

    ghost predicate Counts(ms: seq<nat>)
      reads this
    {
      matchCount == |ms| && matchIdx == Recounted(ms, selStart)
    }

    /** Counts the matches; the index is meant to be the rank of the match the caret is on. */
    method RecountMatches()
      modifies this`matchCount, this`matchIdx
      ensures CounterIsCurrent()
    {
      if !mounted || findQuery == "" {
        matchCount, matchIdx := 0, 0;
        return;
      }
      MatchesStand(contents, findQuery, Fold(), caseSensitive, caseFold);
      matchCount, matchIdx := CountMatches(contents, findQuery, Fold(), selStart);
    }

    /** Replaces every match, then puts the caret at the start and recounts. */
    method ReplaceAll()
      modifies this`contents, this`selStart, this`selEnd, this`matchCount, this`matchIdx
      ensures findQuery == "" || !Stands(old(contents), findQuery, caseSensitive, caseFold) ==>
                contents == old(contents) && selStart == old(selStart) && selEnd == old(selEnd)
                && matchCount == old(matchCount) && matchIdx == old(matchIdx)
      ensures findQuery != "" && caseSensitive ==>
                contents == Replaced(old(contents), findQuery, Same, replaceQuery)
      ensures findQuery != "" && !caseSensitive ==>
                contents == Replaced(old(contents), findQuery, caseFold, replaceQuery)
      ensures findQuery != "" && Stands(old(contents), findQuery, caseSensitive, caseFold) ==>
                && CounterIsCurrent()
                && if mounted then selStart == selEnd == 0 else selStart == old(selStart) && selEnd == old(selEnd)
    {
      if findQuery == "" {
        return;
      }
      MatchesStand(contents, findQuery, Fold(), caseSensitive, caseFold);
      var after, count := ReplaceIn(contents, findQuery, Fold(), replaceQuery);
      NothingReplaced(contents, findQuery, Fold(), replaceQuery);
      if count > 0 {
        contents := after;
        if mounted {
          selStart, selEnd := 0, 0;
        }
        RecountMatches();
      }
    }
  }

  lemma NothingReplaced(text: string, query: string, fold: char -> char, replacement: string)
    requires query != ""
    ensures Matches(text, query, fold, 0) == [] ==> Replaced(text, query, fold, replacement) == text
  {
  }

  lemma {:induction false} TargetIsMatch(ms: seq<nat>, length: nat, heading: Heading, selStart: nat, selEnd: nat)
    requires ms != []
    ensures Target(ms, length, heading, selStart, selEnd) in ms
  {
    FirstFromIn(ms, selEnd);
    EndingByIn(ms, length, selStart);
  }

  lemma {:induction false} FirstFromIn(ms: seq<nat>, start: nat)
    ensures FirstFromPosition(ms, start).Some? ==> FirstFromPosition(ms, start).value in ms
  {
    if ms != [] {
      FirstFromIn(ms[1..], start);
    }
  }

  lemma {:induction false} EndingByIn(ms: seq<nat>, length: nat, start: nat)
    ensures forall m :: m in EndingBy(ms, length, start) ==> m in ms
  {
    if ms != [] {
      EndingByIn(ms[1..], length, start);
    }
  }

  lemma {:induction false} IndexInRange(ms: seq<nat>, m: nat)
    requires m in ms
    ensures IndexOf(ms, m) < |ms| && ms[IndexOf(ms, m)] == m
  {
    if ms[0] != m {
      IndexInRange(ms[1..], m);
    }
  }

  lemma MatchesAscend(text: string, query: string, fold: char -> char)
    requires query != ""
    ensures Spaced(Matches(text, query, fold, 0), |query|)
  {
    MatchesSeparate(text, query, fold, 0);
  }

  // ---------- The recounted index ----------

  /** The recount latches onto the first match that begins at or before the caret. */
  function Recounted(ms: seq<nat>, caret: nat): nat {
    if ms != [] && ms[0] <= caret then 1 else 0
  }

  /** Wherever the caret is, the recounted index says only whether some match begins at or before it. */
  lemma RecountFromAnywhere(ms: seq<nat>, length: nat, caret: nat)
    requires Spaced(ms, length)
    ensures Recounted(ms, caret) == if exists m :: m in ms && m <= caret then 1 else 0
  {
    if ms != [] {
      assert ms[0] in ms;
    }
    if m :| m in ms && m <= caret {
      var j :| 0 <= j < |ms| && ms[j] == m;
      assert ms[0] <= ms[j];
    }
  }

  /** So with the selection on match k the recounted index is its rank exactly when it is the first match. */
  lemma RecountIsRankIff(ms: seq<nat>, length: nat, k: nat)
    requires length > 0 && Spaced(ms, length) && k < |ms|
    ensures Recounted(ms, ms[k]) == k + 1 <==> k == 0
  {
    if k > 0 {
      assert ms[0] + length <= ms[k];
    }
  }

  /** With the second match of a text selected, the counter shows the first. */
  lemma SecondMatchIsMiscounted()
    ensures Matches("xx", "x", Same, 0) == [0, 1]
    ensures Recounted(Matches("xx", "x", Same, 0), 1) == 1
  {
    assert OccursAt("xx", "x", Same, 0) && OccursAt("xx", "x", Same, 1);
    assert FirstFrom("xx", "x", Same, 0) == Some(0) && FirstFrom("xx", "x", Same, 1) == Some(1);
    assert Matches("xx", "x", Same, 2) == [];
    assert Matches("xx", "x", Same, 1) == [1] + Matches("xx", "x", Same, 2);
  }
}
