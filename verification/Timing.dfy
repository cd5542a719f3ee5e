// Two small machines that read the clock: the retry backoff, and the floor between the relay
// recomputations that nudges cause.

module Timing {
  import opened Prelude

  /** The longest duration the language can hold, in nanoseconds. */
  const DURATION_MAX: nat := 0xFFFF_FFFF_FFFF_FFFF * SECOND + (SECOND - 1)

  const U32_MAX: nat := 0xFFFF_FFFF

  function Pow2(n: nat): (r: nat)
    ensures r >= 1
  {
    if n == 0 then 1 else 2 * Pow2(n - 1)
  }

  function Max(a: nat, b: nat): nat
  {
    if a >= b then a else b
  }

  /** The delay after `n` failures in a row. */
  function Delay(base: nat, max: nat, n: nat): nat
  {
    MinNat(base * Pow2(n), Max(base, max))
  }

  lemma DelayDoubles(base: nat, max: nat, n: nat)
    ensures Delay(base, max, n + 1) == MinNat(2 * Delay(base, max, n), Max(base, max))
  {
    assert base * Pow2(n + 1) == 2 * (base * Pow2(n));
  }

  lemma DelayAtFloor(base: nat, max: nat)
    ensures Delay(base, max, 0) == base
  {
    assert base * Pow2(0) == base;
  }

  /** What a caller does: fail or succeed. */
  datatype Call = Fails | Succeeds

  function FailuresSince(calls: seq<Call>): nat
  {
    if calls == [] || calls[|calls| - 1].Succeeds? then 0 else FailuresSince(calls[..|calls| - 1]) + 1
  }

  /** The delay held after a sequence of calls, and none once doubling it has overflowed. */
  function Held(base: nat, max: nat, calls: seq<Call>): Option<nat>
  {
    if calls == [] then Some(base)
    else match Held(base, max, calls[..|calls| - 1])
      case None => None
      case Some(current) =>
        if calls[|calls| - 1].Succeeds? then Some(base)
        else if 2 * current > DURATION_MAX then None
        else Some(MinNat(2 * current, Max(base, max)))
  }

  class Backoff {
    const base: nat
    const max: nat
    var current: nat
    var consecutiveFailures: nat

    /** The calls so far. */
    ghost var calls: seq<Call>

    ghost predicate Valid()
      reads this
    {
      max >= base && Held(base, max, calls) == Some(current) && consecutiveFailures == MinNat(FailuresSince(calls), U32_MAX)
    }

    constructor (base: nat, max: nat)
      ensures Valid() && calls == []
      ensures this.base == base && this.max == Max(base, max)
    {
      this.base, this.max := base, Max(base, max);
      current, consecutiveFailures, calls := base, 0, [];
    }

    /**
     * The delay before the next attempt, the base doubled once per failure since the last
     * success and cut at the ceiling; nothing when doubling it again overflows, which aborts.
     */
    method Fail() returns (wait: Option<nat>)
      requires Valid()
      modifies this
      ensures wait.None? <==> Held(base, max, old(calls) + [Fails]).None?
      ensures wait.None? <==> 2 * Delay(base, max, FailuresSince(old(calls))) > DURATION_MAX
      ensures wait.Some? ==> Valid() && calls == old(calls) + [Fails] && wait.value == Delay(base, max, FailuresSince(old(calls)))
      ensures wait.None? ==> Valid() && calls == old(calls)
    {
      HeldIsTheDelay(base, max, calls);
      assert (calls + [Fails])[..|calls|] == calls;
      if current * 2 > DURATION_MAX {
        return None;
      }
      wait := Some(current);
      current := MinNat(current * 2, max);
      consecutiveFailures := if consecutiveFailures < U32_MAX then consecutiveFailures + 1 else U32_MAX;
      calls := calls + [Fails];
    }

    method Succeed()
      requires Valid()
      modifies this
      ensures Valid() && calls == old(calls) + [Succeeds] && current == base
    {
      assert (calls + [Succeeds])[..|calls|] == calls;
      current, consecutiveFailures := base, 0;
      calls := calls + [Succeeds];
    }

    method Peek() returns (wait: nat)
      requires Valid()
      ensures wait == Delay(base, max, FailuresSince(calls))
    {
      HeldIsTheDelay(base, max, calls);
      wait := current;
    }

    /** The ceiling is reached exactly when one more failure would not lengthen the delay. */
    method AtCeiling() returns (ceiling: bool)
      requires Valid()
      ensures ceiling <==> Delay(base, max, FailuresSince(calls)) == Max(base, max)
    {
      HeldIsTheDelay(base, max, calls);
      ceiling := current >= max;
    }
  }

  /**
   * Over any call sequence the delay held is the base doubled once per failure since the last
   * success and cut at the ceiling, as long as no doubling overflowed.
   */
  lemma {:induction false} HeldIsTheDelay(base: nat, max: nat, calls: seq<Call>)
    ensures Held(base, max, calls).Some? ==> Held(base, max, calls).value == Delay(base, max, FailuresSince(calls))
  {
    DelayAtFloor(base, max);
    if calls != [] {
      HeldIsTheDelay(base, max, calls[..|calls| - 1]);
      DelayDoubles(base, max, FailuresSince(calls[..|calls| - 1]));
    }
  }

  /** No call sequence ever overflows exactly when the ceiling itself can be doubled, or the base is zero and so never grows. */
  lemma NeverOverflowsIff(base: nat, max: nat)
    ensures (forall calls :: Held(base, max, calls).Some?) <==> 2 * Max(base, max) <= DURATION_MAX || base == 0
  {
    if 2 * Max(base, max) <= DURATION_MAX || base == 0 {
      forall calls
        ensures Held(base, max, calls).Some?
      {
        StaysInRange(base, max, calls);
      }
    } else {
      var n := Max(base, max);
      CeilingReached(base, max, n);
      AllFailCount(n);
      HeldIsTheDelay(base, max, AllFail(n));
      assert Held(base, max, AllFail(n + 1)).None?;
    }
  }

  lemma {:induction false} StaysInRange(base: nat, max: nat, calls: seq<Call>)
    requires 2 * Max(base, max) <= DURATION_MAX || base == 0
    ensures Held(base, max, calls).Some? && 2 * Held(base, max, calls).value <= DURATION_MAX
  {
    HeldIsTheDelay(base, max, calls);
    if base == 0 {
      assert Delay(base, max, FailuresSince(calls)) == 0;
    }
    if calls != [] {
      StaysInRange(base, max, calls[..|calls| - 1]);
    }
  }

  function AllFail(n: nat): (r: seq<Call>)
    ensures |r| == n
  {
    if n == 0 then [] else AllFail(n - 1) + [Fails]
  }

  lemma {:induction false} AllFailCount(n: nat)
    ensures FailuresSince(AllFail(n)) == n
  {
    if n > 0 {
      AllFailCount(n - 1);
      assert AllFail(n)[..n - 1] == AllFail(n - 1);
    }
  }

  lemma {:induction false} CeilingReached(base: nat, max: nat, n: nat)
    requires base > 0
    ensures 1 <= Delay(base, max, n) && Delay(base, max, n) >= MinNat(n, Max(base, max))
  {
    if n == 0 {
      DelayAtFloor(base, max);
    } else {
      CeilingReached(base, max, n - 1);
      DelayDoubles(base, max, n - 1);
    }
  }

  // ---- relay recomputations ------------------------------------------------

  const NUDGE_FLOOR: nat := 15 * SECOND

  predicate NudgeMayRecompute(last: Option<Instant>, now: Instant)
  {
    last.None? || Elapsed(last.value, now) >= NUDGE_FLOOR
  }

  /** One call of the refresh: when it started, whether it was periodic, whether the node relayed then. */
  datatype Pass = Pass(started: Instant, periodic: bool, relaying: bool)

  /** When the last recomputation started. */
  class RelayClock {
    var lastPass: Option<Instant>

    constructor ()
      ensures lastPass == None
    {
      lastPass := None;
    }

    method Refresh(pass: Pass) returns (recomputes: bool)
      modifies this
      ensures recomputes == Recomputes(old(lastPass), pass)
      ensures lastPass == if recomputes then Some(pass.started) else old(lastPass)
    {
      if !pass.periodic && !pass.relaying {
        return false;
      }
      if !pass.periodic && !NudgeMayRecompute(lastPass, pass.started) {
        return false;
      }
      lastPass := Some(pass.started);
      return true;
    }
  }

  predicate Recomputes(last: Option<Instant>, pass: Pass)
  {
    pass.periodic || (pass.relaying && NudgeMayRecompute(last, pass.started))
  }

  ghost predicate Ordered(passes: seq<Pass>)
  {
    forall i, j | 0 <= i < j < |passes| :: passes[i].started <= passes[j].started
  }

  function LastPass(passes: seq<Pass>): Option<Instant>
  {
    if passes == [] then None
    else
      var last, pass := LastPass(passes[..|passes| - 1]), passes[|passes| - 1];
      if Recomputes(last, pass) then Some(pass.started) else last
  }

  predicate RecomputedAt(passes: seq<Pass>, i: int)
  {
    0 <= i < |passes| && Recomputes(LastPass(passes[..i]), passes[i])
  }

  /** `last` is when the latest recomputation started, if there was one. */
  ghost predicate IsLatest(passes: seq<Pass>, last: Option<Instant>)
  {
    && (last.None? ==> forall i :: !RecomputedAt(passes, i))
    && (last.Some? ==>
          && (exists i :: RecomputedAt(passes, i) && passes[i].started == last.value)
          && forall i | RecomputedAt(passes, i) :: passes[i].started <= last.value)
  }

  lemma RecomputedExtends(pre: seq<Pass>, pass: Pass, i: int)
    ensures i < |pre| ==> RecomputedAt(pre + [pass], i) == RecomputedAt(pre, i)
    ensures RecomputedAt(pre + [pass], |pre|) <==> Recomputes(LastPass(pre), pass)
  {
    var passes := pre + [pass];
    assert passes[..|pre|] == pre && passes[|pre|] == pass;
    if 0 <= i < |pre| {
      assert passes[..i] == pre[..i] && passes[i] == pre[i];
    }
  }

  lemma LatestExtends(pre: seq<Pass>, pass: Pass)
    requires IsLatest(pre, LastPass(pre)) && forall p | p in pre :: p.started <= pass.started
    ensures IsLatest(pre + [pass], if Recomputes(LastPass(pre), pass) then Some(pass.started) else LastPass(pre))
  {
    var passes, last := pre + [pass], LastPass(pre);
    forall i
      ensures i < |pre| ==> RecomputedAt(passes, i) == RecomputedAt(pre, i)
    {
      RecomputedExtends(pre, pass, i);
    }
    RecomputedExtends(pre, pass, |pre|);
    forall i | RecomputedAt(passes, i)
      ensures passes[i].started <= pass.started
    {
      assert i < |pre| ==> passes[i] in pre;
    }
    if Recomputes(last, pass) {
      assert passes[|pre|].started == pass.started;
    } else if last.Some? {
      var i :| RecomputedAt(pre, i) && pre[i].started == last.value;
      assert RecomputedAt(passes, i) && passes[i] == pre[i];
    }
  }

  /** The last pass is the latest recomputation, when there was one. */
  lemma {:induction false} LastPassIsLatest(passes: seq<Pass>)
    requires Ordered(passes)
    ensures IsLatest(passes, LastPass(passes))
  {
    if passes != [] {
      var pre, pass := passes[..|passes| - 1], passes[|passes| - 1];
      LastPassIsLatest(pre);
      forall p | p in pre
        ensures p.started <= pass.started
      {
        var i :| 0 <= i < |pre| && pre[i] == p;
        assert passes[i] == p;
      }
      LatestExtends(pre, pass);
      assert pre + [pass] == passes;
    }
  }

  /**
   * When a pass recomputes, over any sequence of calls: a periodic one always; a nudged one
   * exactly when the node relays and every recomputation before it started at least fifteen
   * seconds earlier.
   */
  lemma RecomputesIff(passes: seq<Pass>, i: nat)
    requires Ordered(passes) && i < |passes|
    ensures RecomputedAt(passes, i) <==>
      || passes[i].periodic
      || (passes[i].relaying
          && forall j | 0 <= j < i && RecomputedAt(passes, j) :: passes[i].started - passes[j].started >= 15 * SECOND)
  {
    var pre := passes[..i];
    forall j | 0 <= j < i
      ensures RecomputedAt(passes, j) == RecomputedAt(pre, j) && passes[j].started <= passes[i].started
    {
      assert pre[..j] == passes[..j];
    }
    LastPassIsLatest(pre);
    if LastPass(pre).Some? {
      var j :| RecomputedAt(pre, j) && pre[j].started == LastPass(pre).value;
      assert RecomputedAt(passes, j);
    }
  }

  /** The recomputations nudges caused that started in `[from, to]`. */
  function Nudged(passes: seq<Pass>, from: Instant, to: Instant): nat
  {
    if passes == [] then 0
    else
      var pre, pass := passes[..|passes| - 1], passes[|passes| - 1];
      Nudged(pre, from, to) +
        if !pass.periodic && Recomputes(LastPass(pre), pass) && from <= pass.started <= to then 1 else 0
  }

  lemma {:induction false} LastPassIsPast(passes: seq<Pass>, now: Instant)
    requires Ordered(passes) && (passes != [] ==> passes[|passes| - 1].started <= now)
    ensures LastPass(passes).Some? ==> LastPass(passes).value <= now
  {
    if passes != [] {
      var pre := passes[..|passes| - 1];
      if pre != [] {
        assert passes[|pre| - 1].started <= passes[|pre|].started;
      }
      LastPassIsPast(pre, now);
    }
  }

  /** Each nudged recomputation in the window used up its own floor before the last pass. */
  lemma {:induction false} NudgesAreSpaced(passes: seq<Pass>, from: Instant, to: Instant)
    requires Ordered(passes)
    ensures Nudged(passes, from, to) > 0 ==>
      && LastPass(passes).Some?
      && (Nudged(passes, from, to) - 1) * NUDGE_FLOOR <= LastPass(passes).value - from
      && (Nudged(passes, from, to) - 1) * NUDGE_FLOOR <= to - from
  {
    if passes != [] {
      var pre, pass := passes[..|passes| - 1], passes[|passes| - 1];
      NudgesAreSpaced(pre, from, to);
      if pre != [] {
        assert passes[|pre| - 1].started <= passes[|pre|].started;
      }
      LastPassIsPast(pre, pass.started);
    }
  }

  /** So in a window of length `L` nudges cause at most `L / 15 s + 1` recomputations. */
  lemma NudgesBounded(passes: seq<Pass>, from: Instant, to: Instant)
    requires Ordered(passes) && from <= to
    ensures Nudged(passes, from, to) <= (to - from) / NUDGE_FLOOR + 1
  {
    NudgesAreSpaced(passes, from, to);
    var n := Nudged(passes, from, to);
    if n > 0 {
      assert (n - 1) * NUDGE_FLOOR <= to - from;
    }
  }
}
