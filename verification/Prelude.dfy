// Shared vocabulary: optional values, results, instants, and the few facts about
// finite sets and prefixes that several proofs below need.

module Prelude {

  datatype Option<+T> = None | Some(value: T)

  datatype Result<+T, +E> = Ok(value: T) | Err(error: E)

  /** Identifiers are strings, and may be empty where one is missing. */
  type Id = string

  /** An instant is a number of nanoseconds on some clock. */
  type Instant = int

  const SECOND: int := 1_000_000_000

  /** Time since an instant: zero when the clock went backwards. */
  function Elapsed(since: Instant, now: Instant): nat
  {
    if now >= since then now - since else 0
  }

  function MinNat(a: nat, b: nat): nat
  {
    if a <= b then a else b
  }

  /** Nothing is left after trimming (white space is ASCII here). */
  predicate Blank(s: string)
  {
    forall c | c in s :: c in " \t\r\n"
  }

  /** Trimmed of ASCII white space at both ends. */
  function Trim(s: string): string
    decreases |s|
  {
    if s == "" then ""
    else if s[0] in " \t\r\n" then Trim(s[1..])
    else if s[|s| - 1] in " \t\r\n" then Trim(s[..|s| - 1])
    else s
  }

  /** White space stands before `k` and from `m` on. */
  predicate Around(s: string, k: nat, m: nat)
  {
    k <= m <= |s| && Blank(s[..k]) && Blank(s[m..])
  }

  lemma AroundMore(s: string, k: nat, m: nat)
    requires s != "" && Around(s[1..], k, m) && s[0] in " \t\r\n"
    ensures Around(s, k + 1, m + 1) && s[k + 1..m + 1] == s[1..][k..m]
  {
    var rest := s[1..];
    assert s[..k + 1] == [s[0]] + rest[..k] && s[m + 1..] == rest[m..] && s[k + 1..m + 1] == rest[k..m];
  }

  lemma AroundLess(s: string, k: nat, m: nat)
    requires s != "" && Around(s[..|s| - 1], k, m) && s[|s| - 1] in " \t\r\n"
    ensures Around(s, k, m) && s[k..m] == s[..|s| - 1][k..m]
  {
    var rest := s[..|s| - 1];
    assert s[..k] == rest[..k] && s[m..] == rest[m..] + [s[|s| - 1]];
  }

  /** What is trimmed away is white space, and what is left starts and ends with something else. */
  lemma {:induction false} TrimLeavesTheRest(s: string) returns (k: nat, m: nat)
    ensures Around(s, k, m) && Trim(s) == s[k..m]
    ensures Trim(s) != "" ==> Trim(s)[0] !in " \t\r\n" && Trim(s)[|Trim(s)| - 1] !in " \t\r\n"
    decreases |s|
  {
    if s == "" {
      k, m := 0, 0;
    } else if s[0] in " \t\r\n" {
      k, m := TrimLeavesTheRest(s[1..]);
      AroundMore(s, k, m);
      k, m := k + 1, m + 1;
    } else if s[|s| - 1] in " \t\r\n" {
      k, m := TrimLeavesTheRest(s[..|s| - 1]);
      AroundLess(s, k, m);
    } else {
      k, m := 0, |s|;
    }
  }

  /** Only what is blank trims to nothing. */
  lemma TrimsToNothingIff(s: string)
    ensures Trim(s) == "" <==> Blank(s)
  {
    var k, m := TrimLeavesTheRest(s);
    assert s == s[..k] + Trim(s) + s[m..];
    if Trim(s) != "" {
      assert Trim(s)[0] in s;
    }
  }

  /** The last `n` elements of `s`, or all of it. */
  function LastN<T>(s: seq<T>, n: nat): (r: seq<T>)
    ensures |r| == MinNat(|s|, n)
    ensures r == s[|s| - |r|..]
  {
    if |s| <= n then s else s[|s| - n..]
  }

  lemma LastNPush<T>(s: seq<T>, x: T, n: nat)
    requires n > 0
    ensures LastN(s + [x], n) == (if |LastN(s, n)| >= n then LastN(s, n)[|LastN(s, n)| + 1 - n..] else LastN(s, n)) + [x]
  {}

  /** `a` is a suffix of `b`. */
  ghost predicate IsSuffix<T>(a: seq<T>, b: seq<T>)
  {
    |a| <= |b| && a == b[|b| - |a|..]
  }

  function Filter<T(!new)>(s: seq<T>, keep: T -> bool): (r: seq<T>)
    ensures forall x :: x in r <==> x in s && keep(x)
    ensures |r| <= |s|
  {
    if s == [] then []
    else
      assert s == [s[0]] + s[1..];
      (if keep(s[0]) then [s[0]] else []) + Filter(s[1..], keep)
  }

  lemma {:induction false} FilterConcat<T(!new)>(a: seq<T>, b: seq<T>, keep: T -> bool)
    ensures Filter(a + b, keep) == Filter(a, keep) + Filter(b, keep)
  {
    if a == [] {
      assert a + b == b;
    } else {
      assert (a + b)[1..] == a[1..] + b;
      FilterConcat(a[1..], b, keep);
    }
  }

  lemma SubsetCardinality<T>(a: set<T>, b: set<T>)
    requires a <= b
    ensures |a| <= |b|
    decreases a
  {
    if a != {} {
      var x :| x in a;
      SubsetCardinality(a - {x}, b - {x});
    }
  }

  /** Two subsets of a finite universe that together outnumber it share a member. */
  lemma Pigeonhole<T>(a: set<T>, b: set<T>, universe: set<T>)
    requires a <= universe && b <= universe
    requires |a| + |b| > |universe|
    ensures a * b != {}
  {
    if a * b == {} {
      assert |a + b| == |a| + |b|;
      SubsetCardinality(a + b, universe);
    }
  }
}
