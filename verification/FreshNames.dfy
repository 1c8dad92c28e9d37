/**
 The loops that look for a free session name: base, base-2, base-3 and so on.
 Nothing in the loop bounds the suffix; it ends because suffixes never repeat and
 the taken names are finitely many.
 */
module FreshNames {
  import opened Options
  import opened Sequences

  // ---------- Decimal suffixes ----------

  function Digit(d: nat): char
    requires d < 10
  {
    ('0' as int + d) as char
  }

  function Decimal(n: nat): (s: string)
    ensures s != []
  {
    if n < 10 then [Digit(n)] else Decimal(n / 10) + [Digit(n % 10)]
  }

  /** The number that a digit string denotes. */
  function Value(s: string): int {
    if s == [] then 0 else 10 * Value(s[..|s| - 1]) + (s[|s| - 1] as int - '0' as int)
  }

  lemma {:induction false} DecimalRoundTrip(n: nat)
    ensures Value(Decimal(n)) == n
  {
    if n >= 10 {
      DecimalRoundTrip(n / 10);
      assert Decimal(n)[..|Decimal(n)| - 1] == Decimal(n / 10);
    } else {
      assert [Digit(n)][..0] == [];
    }
  }

  // ---------- The sequence of candidates ----------

  /** The k-th name tried, counting from 1. */
  function Candidate(base: string, k: nat): string {
    if k <= 1 then base else base + "-" + Decimal(k)
  }

  lemma CandidatesDiffer(base: string, j: nat, k: nat)
    requires 1 <= j < k
    ensures Candidate(base, j) != Candidate(base, k)
  {
    var a, b := Candidate(base, j), Candidate(base, k);
    assert |b| > |base|;
    if j > 1 && a == b {
      assert a[|base| + 1..] == Decimal(j) && b[|base| + 1..] == Decimal(k);
      DecimalRoundTrip(j);
      DecimalRoundTrip(k);
    }
  }

  ghost predicate AllDigits(s: string) {
    forall c :: c in s ==> '0' <= c <= '9'
  }

  lemma {:induction false} DecimalHasDigits(n: nat)
    ensures AllDigits(Decimal(n))
  {
    if n >= 10 {
      DecimalHasDigits(n / 10);
    }
  }

  /** The first name is the base; each later one is the base, a hyphen and the digits of its number. */
  lemma CandidateReadsBack(base: string, k: nat)
    requires k >= 1
    ensures var name := Candidate(base, k);
            if k == 1 then name == base
            else
              && |name| > |base| + 1 && name[..|base| + 1] == base + "-"
              && AllDigits(name[|base| + 1..]) && Value(name[|base| + 1..]) == k
  {
    if k > 1 {
      assert Candidate(base, k)[|base| + 1..] == Decimal(k);
      DecimalHasDigits(k);
      DecimalRoundTrip(k);
    }
  }

  ghost function CandidatesUpTo(base: string, k: nat): seq<string> {
    seq(k, i requires 0 <= i < k => Candidate(base, i + 1))
  }

  /** If the first k names are all taken, at least k names are. */
  lemma TakenBoundsTries(base: string, taken: set<string>, k: nat)
    requires forall j :: 1 <= j <= k ==> Candidate(base, j) in taken
    ensures k <= |taken|
  {
    var names := CandidatesUpTo(base, k);
    forall i, j | 0 <= i < j < |names| ensures names[i] != names[j] {
      CandidatesDiffer(base, i + 1, j + 1);
    }
    forall name | name in names ensures name in taken {
      var i :| 0 <= i < |names| && names[i] == name;
    }
    DistinctFits(names, taken);
  }

  /** The name is the first of the sequence that is free. */
  ghost predicate FirstFree(base: string, taken: set<string>, k: nat, name: string) {
    && 1 <= k <= |taken| + 1
    && name == Candidate(base, k) && name !in taken
    && forall j :: 1 <= j < k ==> Candidate(base, j) in taken
  }

  method FreshName(base: string, taken: set<string>) returns (name: string)
    ensures exists k: nat :: FirstFree(base, taken, k, name)
  {
    name := base;
    var n := 2;
    while name in taken
      invariant n >= 2 && name == Candidate(base, n - 1)
      invariant forall j :: 1 <= j < n - 1 ==> Candidate(base, j) in taken
      invariant n - 2 <= |taken|
      decreases |taken| + 2 - n
    {
      TakenBoundsTries(base, taken, n - 1);
      name := base + "-" + Decimal(n);
      n := n + 1;
    }
    assert FirstFree(base, taken, n - 1, name);
  }

  // ---------- Its two callers ----------

  predicate Plain(c: char) {
    'A' <= c <= 'Z' || 'a' <= c <= 'z' || '0' <= c <= '9' || c == '_' || c == '-'
  }

  function OnlyPlain(s: string): string {
    if s == [] then [] else (if Plain(s[0]) then [s[0]] else []) + OnlyPlain(s[1..])
  }

  ghost predicate AllPlain(s: string) {
    forall c :: c in s ==> Plain(c)
  }

  lemma {:induction false} OnlyPlainIsPlain(s: string)
    ensures AllPlain(OnlyPlain(s)) && Filtered(s, Plain, OnlyPlain(s))
  {
    if s == [] {
      FilteredNone(Plain);
    } else {
      OnlyPlainIsPlain(s[1..]);
      FilteredCons(s, Plain, OnlyPlain(s[1..]));
    }
  }

  lemma {:induction false} DecimalIsPlain(n: nat)
    ensures AllPlain(Decimal(n))
  {
    if n >= 10 {
      DecimalIsPlain(n / 10);
    }
  }

  /** Every name in use on the host, in the memory of the root, or on a row. */
  function Taken(listed: seq<string>, known: seq<string>, rows: seq<Option<string>>): (taken: set<string>)
    ensures forall name :: name != "" ==> (name in taken <==> name in listed || name in known || Some(name) in rows)
  {
    (set x | x in listed) + (set x | x in known) + (set r | r in rows && r.Some? && r.value != "" :: r.value)
  }

  /** The base of a row's name: the plain characters of the workspace's, all of them in order, or a default. */
  ghost predicate BaseNameOf(workspaceName: string, base: string) {
    exists plain :: Filtered(workspaceName, Plain, plain) && base == if plain == "" then "ymux" else plain
  }

  lemma CandidateIsPlain(base: string, k: nat)
    requires base != "" && AllPlain(base)
    ensures Candidate(base, k) != "" && AllPlain(Candidate(base, k))
  {
    DecimalIsPlain(k);
  }

  /**
   The name of a new session row: the workspace's name without unusual characters, or
   a default when nothing is left, made free among the host's sessions, the sessions
   its root remembers and the sessions of all rows.
   */
  method NewSessionRowName(workspaceName: string, listed: seq<string>, known: seq<string>, rows: seq<Option<string>>)
    returns (name: string)
    ensures name != "" && AllPlain(name)
    ensures name !in listed && name !in known && Some(name) !in rows
    ensures exists base, k: nat :: BaseNameOf(workspaceName, base)
                                   && FirstFree(base, Taken(listed, known, rows), k, name)
  {
    var base := OnlyPlain(workspaceName);
    OnlyPlainIsPlain(workspaceName);
    if base == "" {
      base := "ymux";
    }
    name := FreshName(base, Taken(listed, known, rows));
    ghost var k: nat :| FirstFree(base, Taken(listed, known, rows), k, name);
    CandidateIsPlain(base, k);
    assert BaseNameOf(workspaceName, base) && FirstFree(base, Taken(listed, known, rows), k, name);
  }

  /** A new session beside an existing one; without an answer from the host the base name itself is used. */
  method NewSessionBeside(base: string, listed: Option<seq<string>>) returns (name: string)
    ensures listed.None? ==> name == base
    ensures listed.Some? ==> name !in listed.value
    ensures listed.Some? ==> exists k: nat :: FirstFree(base, Taken(listed.value, [], []), k, name)
  {
    var taken := if listed.Some? then listed.value else [];
    name := FreshName(base, Taken(taken, [], []));
  }
}
