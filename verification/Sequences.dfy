/** Facts about sequences that several proofs share. */
module Sequences {
  ghost predicate NoRepeat<T>(s: seq<T>) {
    forall i, j :: 0 <= i < j < |s| ==> s[i] != s[j]
  }

  /** Distinct elements of a finite set are at most as many as the set holds. */
  lemma {:induction false} DistinctFits<T>(s: seq<T>, universe: set<T>)
    requires NoRepeat(s) && forall x :: x in s ==> x in universe
    ensures |s| <= |universe|
    decreases |s|
  {
    if s != [] {
      var last, rest := s[|s| - 1], s[..|s| - 1];
      assert forall x :: x in rest ==> x in universe - {last};
      DistinctFits(rest, universe - {last});
    }
  }

  lemma Regroup<T>(a: seq<T>, b: seq<T>, c: seq<T>)
    ensures a + (b + c) == (a + b) + c
  {
  }

  // ---------- Filtering, said without recursion ----------

  /** The positions `at` ascend and are exactly those of the elements to keep. */
  ghost predicate KeptAt<T>(s: seq<T>, keep: T -> bool, at: seq<nat>) {
    && (forall j, k :: 0 <= j < k < |at| ==> at[j] < at[k])
    && (forall i: nat :: i in at <==> i < |s| && keep(s[i]))
  }

  ghost predicate TakenAt<T>(s: seq<T>, at: seq<nat>, r: seq<T>) {
    |r| == |at| && forall k :: 0 <= k < |at| ==> at[k] < |s| && r[k] == s[at[k]]
  }

  /** The elements to keep, all of them, in order. */
  ghost predicate Filtered<T>(s: seq<T>, keep: T -> bool, r: seq<T>) {
    exists at :: KeptAt(s, keep, at) && TakenAt(s, at, r)
  }

  ghost function Shifted(at: seq<nat>): (r: seq<nat>)
    ensures |r| == |at|
    ensures forall k :: 0 <= k < |at| ==> r[k] == at[k] + 1
  {
    seq(|at|, k requires 0 <= k < |at| => at[k] + 1)
  }

  lemma FilteredNone<T>(keep: T -> bool)
    ensures Filtered([], keep, [])
  {
    var none: seq<T> := [];
    assert KeptAt(none, keep, []) && TakenAt(none, [], none);
  }

  lemma FilteredCons<T>(s: seq<T>, keep: T -> bool, r: seq<T>)
    requires s != [] && Filtered(s[1..], keep, r)
    ensures Filtered(s, keep, (if keep(s[0]) then [s[0]] else []) + r)
  {
    var at :| KeptAt(s[1..], keep, at) && TakenAt(s[1..], at, r);
    KeptAtCons(s, keep, at);
    TakenAtCons(s, at, r, keep(s[0]));
  }

  lemma TakenAtCons<T>(s: seq<T>, at: seq<nat>, r: seq<T>, first: bool)
    requires s != [] && TakenAt(s[1..], at, r)
    ensures TakenAt(s, (if first then [0] else []) + Shifted(at), (if first then [s[0]] else []) + r)
  {
    forall k | 0 <= k < |at| ensures Shifted(at)[k] < |s| && r[k] == s[Shifted(at)[k]] {
      assert r[k] == s[1..][at[k]];
    }
  }

  lemma KeptAtCons<T>(s: seq<T>, keep: T -> bool, at: seq<nat>)
    requires s != [] && KeptAt(s[1..], keep, at)
    ensures KeptAt(s, keep, (if keep(s[0]) then [0] else []) + Shifted(at))
  {
    var head := if keep(s[0]) then [0] else [];
    var all := head + Shifted(at);
    forall i: nat ensures i in all <==> i < |s| && keep(s[i]) {
      InAppended(head, Shifted(at), i);
      ShiftedMembers(at, i);
      if i > 0 {
        assert i < |s| ==> s[1..][i - 1] == s[i];
      }
    }
  }

  lemma InAppended<T>(a: seq<T>, b: seq<T>, x: T)
    ensures x in a + b <==> x in a || x in b
  {
  }

  lemma ShiftedMembers(at: seq<nat>, i: nat)
    ensures i in Shifted(at) <==> i > 0 && i - 1 in at
  {
    if i > 0 && i - 1 in at {
      var k :| 0 <= k < |at| && at[k] == i - 1;
      assert Shifted(at)[k] == i;
    }
  }
}
