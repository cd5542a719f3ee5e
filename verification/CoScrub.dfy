// The display store of co-scrub partials and its gossip.  An arrival takes two locks, one
// after the other: the loop-stop's, then the list's.  Between them other arrivals and clears
// run.  The list is proved against what survives of everything ever inserted.

module CoScrubs {
  import opened Prelude

  const MAX_PENDING_COSCRUBS: nat := 256

  /** A partial for display: whose record it is, how many distinct scrubs it carries, the rest. */
  datatype Entry = Entry(target: Id, count: nat, detail: string)

  type Key = (Id, nat)

  function KeyOf(e: Entry): Key
  {
    (e.target, e.count)
  }

  // ---- one insertion -------------------------------------------------------

  predicate Supersedes(e: Entry, p: Entry)
  {
    p.target == e.target && p.count <= e.count
  }

  function Retained(pending: seq<Entry>, e: Entry): seq<Entry>
  {
    Filter(pending, p => !Supersedes(e, p))
  }

  function Upserted(pending: seq<Entry>, e: Entry): seq<Entry>
  {
    LastN(Retained(pending, e) + [e], MAX_PENDING_COSCRUBS)
  }

  function Cleared(pending: seq<Entry>, target: Id): seq<Entry>
  {
    Filter(pending, (p: Entry) => p.target != target)
  }

  /** A partial is displayable when it carries a scrub and names a target. */
  predicate WellFormed(e: Entry)
  {
    e.count > 0 && !Blank(e.target)
  }

  class CoscrubStore {
    var seen: set<Key>
    var pending: seq<Entry>
    var gossiped: seq<Key>

    constructor ()
      ensures seen == {} && pending == [] && gossiped == []
    {
      seen, pending, gossiped := {}, [], [];
    }

    /** Under the first lock: the re-gossip loop-stop. */
    method Sight(e: Entry) returns (unseen: bool)
      modifies this`seen
      ensures unseen <==> KeyOf(e) !in old(seen)
      ensures seen == old(seen) + {KeyOf(e)}
    {
      unseen := KeyOf(e) !in seen;
      seen := seen + {KeyOf(e)};
    }

    /** Under the second lock. */
    method Insert(e: Entry)
      modifies this`pending
      ensures pending == Upserted(old(pending), e)
    {
      pending := Retained(pending, e);
      pending := pending + [e];
      if |pending| > MAX_PENDING_COSCRUBS {
        var overflow := |pending| - MAX_PENDING_COSCRUBS;
        pending := pending[overflow..];
      }
    }

    method UpsertPending(e: Entry) returns (unseen: bool)
      modifies this`seen, this`pending
      ensures unseen <==> KeyOf(e) !in old(seen)
      ensures seen == old(seen) + {KeyOf(e)}
      ensures unseen ==> pending == Upserted(old(pending), e)
      ensures !unseen ==> pending == old(pending)
    {
      unseen := Sight(e);
      if unseen {
        Insert(e);
      }
    }

    method ClearPending(target: Id)
      modifies this`pending
      ensures pending == Cleared(old(pending), target)
    {
      pending := Cleared(pending, target);
    }

    /** Validate, store, and gossip onward what was not seen before. */
    method Ingest(e: Entry) returns (r: Result<bool, ()>)
      modifies this
      ensures r.Err? <==> e.count == 0 || Blank(e.target)
      ensures r.Err? ==> seen == old(seen) && pending == old(pending) && gossiped == old(gossiped)
      ensures r.Ok? ==> r.value == (KeyOf(e) !in old(seen)) && seen == old(seen) + {KeyOf(e)}
      ensures r == Ok(true) ==> pending == Upserted(old(pending), e) && gossiped == old(gossiped) + [KeyOf(e)]
      ensures r == Ok(false) ==> pending == old(pending) && gossiped == old(gossiped)
    {
      if e.count == 0 || Blank(e.target) {
        return Err(());
      }
      var unseen := UpsertPending(e);
      if unseen {
        gossiped := gossiped + [KeyOf(e)];
      }
      return Ok(unseen);
    }
  }

  // ---- every interleaving --------------------------------------------------

  datatype Event = Put(e: Entry) | Clears(target: Id)

  /** The store, the arrivals between their two locks, and what reached the list so far. */
  datatype Store = Store(
    seen: set<Key>, pending: seq<Entry>, tasks: map<nat, Entry>, gossiped: seq<Key>, events: seq<Event>)

  const Empty: Store := Store({}, [], map[], [], [])

  datatype Step = Arrive(t: nat, e: Entry) | Finish(t: nat) | Clear(target: Id)

  predicate Enabled(s: Store, step: Step)
  {
    match step
    case Arrive(t, e) => t !in s.tasks && WellFormed(e)
    case Finish(t) => t in s.tasks
    case Clear(_) => true
  }

  function Next(s: Store, step: Step): Store
    requires Enabled(s, step)
  {
    match step
    case Arrive(t, e) =>
      if KeyOf(e) in s.seen then s else s.(seen := s.seen + {KeyOf(e)}, tasks := s.tasks[t := e])
    case Finish(t) =>
      var e := s.tasks[t];
      Store(s.seen, Upserted(s.pending, e), s.tasks - {t}, s.gossiped + [KeyOf(e)], s.events + [Put(e)])
    case Clear(target) => s.(pending := Cleared(s.pending, target), events := s.events + [Clears(target)])
  }

  function After(run: seq<Step>): Store
  {
    if run == [] then Empty
    else
      var s, step := After(run[..|run| - 1]), run[|run| - 1];
      if Enabled(s, step) then Next(s, step) else s
  }

  predicate Valid(run: seq<Step>)
  {
    run == [] || (Valid(run[..|run| - 1]) && Enabled(After(run[..|run| - 1]), run[|run| - 1]))
  }

  // ---- what survives, told from the whole history --------------------------

  /** Event `ev` takes `e` off the list. */
  predicate Removes(ev: Event, e: Entry)
  {
    match ev
    case Put(later) => Supersedes(later, e)
    case Clears(target) => e.target == target
  }

  predicate Survives(events: seq<Event>, k: int)
  {
    0 <= k < |events| && events[k].Put? && forall j | k < j < |events| :: !Removes(events[j], events[k].e)
  }

  /** What survives among the first `n` events, judged by all of them. */
  function SurvivorsOf(events: seq<Event>, n: nat): seq<Entry>
    requires n <= |events|
  {
    if n == 0 then []
    else SurvivorsOf(events, n - 1) + SurvivorIn(events, n - 1)
  }

  function Survivors(events: seq<Event>): seq<Entry>
  {
    SurvivorsOf(events, |events|)
  }

  function Unremoved(s: seq<Entry>, ev: Event): seq<Entry>
  {
    Filter(s, e => !Removes(ev, e))
  }

  lemma UnremovedConcat(a: seq<Entry>, b: seq<Entry>, ev: Event)
    ensures Unremoved(a + b, ev) == Unremoved(a, ev) + Unremoved(b, ev)
  {
    FilterConcat(a, b, e => !Removes(ev, e));
  }

  function SurvivorIn(events: seq<Event>, k: nat): seq<Entry>
    requires k < |events|
  {
    if Survives(events, k) then [events[k].e] else []
  }

  lemma SurvivorInAfter(events: seq<Event>, ev: Event, all: seq<Event>, k: nat)
    requires all == events + [ev] && k < |events|
    ensures SurvivorIn(all, k) == Unremoved(SurvivorIn(events, k), ev)
  {
    SurvivesAfter(events, ev, all, k);
    if Survives(events, k) {
      assert [events[k].e][1..] == [];
    }
  }

  lemma SurvivorsGrow(events: seq<Event>, ev: Event, all: seq<Event>, n: nat)
    requires all == events + [ev] && 0 < n <= |events|
    requires SurvivorsOf(all, n - 1) == Unremoved(SurvivorsOf(events, n - 1), ev)
    ensures SurvivorsOf(all, n) == Unremoved(SurvivorsOf(events, n), ev)
  {
    SurvivorInAfter(events, ev, all, n - 1);
    OneMoreSurvivor(events, n);
    OneMoreSurvivor(all, n);
    UnremovedConcat(SurvivorsOf(events, n - 1), SurvivorIn(events, n - 1), ev);
  }

  lemma OneMoreSurvivor(events: seq<Event>, n: nat)
    requires 0 < n <= |events|
    ensures SurvivorsOf(events, n) == SurvivorsOf(events, n - 1) + SurvivorIn(events, n - 1)
  {}

  lemma NothingSurvivesYet(a: seq<Event>, b: seq<Event>, ev: Event)
    ensures SurvivorsOf(a, 0) == Unremoved(SurvivorsOf(b, 0), ev)
  {}

  lemma {:induction false} SurvivorsAfter(events: seq<Event>, ev: Event, all: seq<Event>, n: nat)
    requires all == events + [ev] && n <= |events|
    ensures SurvivorsOf(all, n) == Unremoved(SurvivorsOf(events, n), ev)
  {
    if n == 0 {
      NothingSurvivesYet(all, events, ev);
    } else {
      SurvivorsAfter(events, ev, all, n - 1);
      SurvivorsGrow(events, ev, all, n);
    }
  }

  lemma SurvivesAfter(events: seq<Event>, ev: Event, all: seq<Event>, k: nat)
    requires all == events + [ev] && k < |events|
    ensures Survives(all, k) <==> Survives(events, k) && !Removes(ev, events[k].e)
  {
    assert all[|events|] == ev && forall j | 0 <= j < |events| :: all[j] == events[j];
  }

  /** The next event filters the survivors, and an insertion adds one. */
  lemma SurvivorsStep(events: seq<Event>, ev: Event)
    ensures Survivors(events + [ev]) == Unremoved(Survivors(events), ev) + if ev.Put? then [ev.e] else []
  {
    SurvivorsAfter(events, ev, events + [ev], |events|);
    assert Survives(events + [ev], |events|) <==> ev.Put?;
  }

  lemma {:induction false} SurvivorAt(events: seq<Event>, n: nat, i: nat) returns (k: nat)
    requires n <= |events| && i < |SurvivorsOf(events, n)|
    ensures k < n && Survives(events, k) && events[k].e == SurvivorsOf(events, n)[i]
  {
    if i < |SurvivorsOf(events, n - 1)| {
      k := SurvivorAt(events, n - 1, i);
    } else {
      k := n - 1;
    }
  }

  lemma {:induction false} SurvivorsOrdered(events: seq<Event>, n: nat, i: nat, j: nat)
    requires n <= |events| && i < j < |SurvivorsOf(events, n)|
    requires SurvivorsOf(events, n)[i].target == SurvivorsOf(events, n)[j].target
    ensures SurvivorsOf(events, n)[i].count > SurvivorsOf(events, n)[j].count
  {
    if j < |SurvivorsOf(events, n - 1)| {
      SurvivorsOrdered(events, n - 1, i, j);
    } else {
      var k := SurvivorAt(events, n - 1, i);
      assert !Removes(events[n - 1], events[k].e);
    }
  }

  lemma {:induction false} SurvivesIsListed(events: seq<Event>, n: nat, k: nat)
    requires k < n <= |events| && Survives(events, k)
    ensures events[k].e in SurvivorsOf(events, n)
  {
    if k < n - 1 {
      SurvivesIsListed(events, n - 1, k);
    }
  }

  // ---- the store refines it ------------------------------------------------

  lemma {:induction false} FilterSuffix<T(!new)>(a: seq<T>, b: seq<T>, keep: T -> bool)
    requires IsSuffix(a, b)
    ensures IsSuffix(Filter(a, keep), Filter(b, keep))
  {
    var cut := |b| - |a|;
    assert b == b[..cut] + a;
    FilterConcat(b[..cut], a, keep);
  }

  lemma SuffixPush<T>(a: seq<T>, b: seq<T>, x: seq<T>)
    requires IsSuffix(a, b)
    ensures IsSuffix(a + x, b + x)
  {
    assert (b + x)[|b| - |a|..] == b[|b| - |a|..] + x;
  }

  lemma LastNSuffix<T>(a: seq<T>, b: seq<T>, n: nat)
    requires IsSuffix(a, b)
    ensures IsSuffix(LastN(a, n), b)
  {}

  /** A filter's result depends on the members it keeps only. */
  lemma {:induction false} FilterAgrees<T(!new)>(s: seq<T>, f: T -> bool, g: T -> bool)
    requires forall x | x in s :: f(x) == g(x)
    ensures Filter(s, f) == Filter(s, g)
  {
    if s != [] {
      FilterAgrees(s[1..], f, g);
    }
  }

  lemma UpsertIsEvent(pending: seq<Entry>, e: Entry)
    ensures Retained(pending, e) == Unremoved(pending, Put(e))
  {
    FilterAgrees(pending, p => !Supersedes(e, p), p => !Removes(Put(e), p));
  }

  lemma ClearIsEvent(pending: seq<Entry>, target: Id)
    ensures Cleared(pending, target) == Unremoved(pending, Clears(target))
  {
    FilterAgrees(pending, (p: Entry) => p.target != target, p => !Removes(Clears(target), p));
  }

  lemma UpsertRefines(pending: seq<Entry>, events: seq<Event>, e: Entry)
    requires IsSuffix(pending, Survivors(events))
    ensures IsSuffix(Upserted(pending, e), Survivors(events + [Put(e)]))
    ensures pending == Survivors(events) && |Survivors(events + [Put(e)])| <= MAX_PENDING_COSCRUBS ==>
      Upserted(pending, e) == Survivors(events + [Put(e)])
  {
    SurvivorsStep(events, Put(e));
    UpsertIsEvent(pending, e);
    FilterSuffix(pending, Survivors(events), x => !Removes(Put(e), x));
    SuffixPush(Retained(pending, e), Unremoved(Survivors(events), Put(e)), [e]);
    LastNSuffix(Retained(pending, e) + [e], Survivors(events + [Put(e)]), MAX_PENDING_COSCRUBS);
  }

  lemma ClearRefines(pending: seq<Entry>, events: seq<Event>, target: Id)
    requires IsSuffix(pending, Survivors(events))
    ensures IsSuffix(Cleared(pending, target), Survivors(events + [Clears(target)]))
    ensures pending == Survivors(events) ==> Cleared(pending, target) == Survivors(events + [Clears(target)])
  {
    SurvivorsStep(events, Clears(target));
    ClearIsEvent(pending, target);
    FilterSuffix(pending, Survivors(events), x => !Removes(Clears(target), x));
  }

  lemma StepRefines(s: Store, step: Step)
    requires Enabled(s, step) && IsSuffix(s.pending, Survivors(s.events)) && |s.pending| <= MAX_PENDING_COSCRUBS
    ensures IsSuffix(Next(s, step).pending, Survivors(Next(s, step).events)) && |Next(s, step).pending| <= MAX_PENDING_COSCRUBS
    ensures s.pending == Survivors(s.events) && |Survivors(Next(s, step).events)| <= MAX_PENDING_COSCRUBS ==>
      Next(s, step).pending == Survivors(Next(s, step).events)
  {
    match step
    case Arrive(_, _) =>
    case Finish(t) => UpsertRefines(s.pending, s.events, s.tasks[t]);
    case Clear(target) => ClearRefines(s.pending, s.events, target);
  }

  lemma {:induction false} StoreRefinesSurvivors(run: seq<Step>)
    requires Valid(run)
    ensures IsSuffix(After(run).pending, Survivors(After(run).events))
    ensures |After(run).pending| <= MAX_PENDING_COSCRUBS
  {
    if run != [] {
      StoreRefinesSurvivors(run[..|run| - 1]);
      StepRefines(After(run[..|run| - 1]), run[|run| - 1]);
    }
  }

  /** Until more than the ceiling have survived at once, the list is exactly what survives. */
  lemma {:induction false} ExactUntilFull(run: seq<Step>)
    requires Valid(run)
    requires forall i | 0 <= i <= |run| :: |Survivors(After(run[..i]).events)| <= MAX_PENDING_COSCRUBS
    ensures After(run).pending == Survivors(After(run).events)
  {
    assert run[..|run|] == run;
    if run != [] {
      var pre := run[..|run| - 1];
      forall i | 0 <= i <= |pre|
        ensures |Survivors(After(pre[..i]).events)| <= MAX_PENDING_COSCRUBS
      {
        assert pre[..i] == run[..i];
      }
      ExactUntilFull(pre);
      StepRefines(After(pre), run[|run| - 1]);
    }
  }

  // ---- the loop-stop -------------------------------------------------------

  /** An arrival of the key is between its two locks. */
  ghost predicate BetweenLocks(s: Store, key: Key)
  {
    exists t :: t in s.tasks && KeyOf(s.tasks[t]) == key
  }

  /** Every key seen is either between its two locks or was gossiped, never both and never twice. */
  ghost predicate LoopStopped(s: Store)
  {
    && (forall i, j | 0 <= i < j < |s.gossiped| :: s.gossiped[i] != s.gossiped[j])
    && (forall t, u | t in s.tasks && u in s.tasks && t != u :: KeyOf(s.tasks[t]) != KeyOf(s.tasks[u]))
    && (forall t | t in s.tasks :: KeyOf(s.tasks[t]) in s.seen && KeyOf(s.tasks[t]) !in s.gossiped)
    && (forall k | k in s.gossiped :: k in s.seen)
    && (forall k | k in s.seen :: k in s.gossiped || BetweenLocks(s, k))
    && PutsAreGossips(s)
  }

  /** What was put on the list, in order, is what was gossiped. */
  ghost predicate PutsAreGossips(s: Store)
  {
    && (forall k | 0 <= k < |s.events| && s.events[k].Put? :: KeyOf(s.events[k].e) in s.gossiped)
    && (forall i, j | 0 <= i < j < |s.events| && s.events[i].Put? && s.events[j].Put? ::
          KeyOf(s.events[i].e) != KeyOf(s.events[j].e))
  }

  lemma ArriveKeepsLoopStop(s: Store, t: nat, e: Entry)
    requires LoopStopped(s) && t !in s.tasks && KeyOf(e) !in s.seen
    ensures LoopStopped(s.(seen := s.seen + {KeyOf(e)}, tasks := s.tasks[t := e]))
  {
    var z := s.(seen := s.seen + {KeyOf(e)}, tasks := s.tasks[t := e]);
    forall k | k in z.seen
      ensures k in z.gossiped || BetweenLocks(z, k)
    {
      if k == KeyOf(e) {
        assert z.tasks[t] == e;
      } else if k !in s.gossiped {
        var u :| u in s.tasks && KeyOf(s.tasks[u]) == k;
        assert u in z.tasks && z.tasks[u] == s.tasks[u];
      }
    }
  }

  lemma FinishKeepsLoopStop(s: Store, t: nat)
    requires LoopStopped(s) && t in s.tasks
    ensures LoopStopped(Next(s, Finish(t)))
  {
    var z, key := Next(s, Finish(t)), KeyOf(s.tasks[t]);
    assert z.gossiped == s.gossiped + [key];
    forall k | k in z.seen
      ensures k in z.gossiped || BetweenLocks(z, k)
    {
      if k !in z.gossiped {
        var u :| u in s.tasks && KeyOf(s.tasks[u]) == k;
        assert u in z.tasks;
      }
    }
    PutIsGossiped(s, s.tasks[t]);
  }

  lemma PutIsGossiped(s: Store, e: Entry)
    requires PutsAreGossips(s) && KeyOf(e) !in s.gossiped
    ensures PutsAreGossips(s.(gossiped := s.gossiped + [KeyOf(e)], events := s.events + [Put(e)]))
  {}

  lemma LoopStopKept(s: Store, step: Step)
    requires Enabled(s, step) && LoopStopped(s)
    ensures LoopStopped(Next(s, step))
  {
    match step
    case Arrive(t, e) => if KeyOf(e) !in s.seen { ArriveKeepsLoopStop(s, t, e); }
    case Finish(t) => FinishKeepsLoopStop(s, t);
    case Clear(_) =>
  }

  lemma {:induction false} AlwaysLoopStopped(run: seq<Step>)
    requires Valid(run)
    ensures LoopStopped(After(run))
  {
    if run != [] {
      AlwaysLoopStopped(run[..|run| - 1]);
      LoopStopKept(After(run[..|run| - 1]), run[|run| - 1]);
    }
  }

  lemma ListedWasGossiped(s: Store, e: Entry)
    requires PutsAreGossips(s) && IsSuffix(s.pending, Survivors(s.events)) && e in s.pending
    ensures KeyOf(e) in s.gossiped
  {
    var i :| 0 <= i < |s.pending| && s.pending[i] == e;
    var k := SurvivorAt(s.events, |s.events|, |Survivors(s.events)| - |s.pending| + i);
  }

  lemma ListedInOrder(s: Store, i: nat, j: nat)
    requires IsSuffix(s.pending, Survivors(s.events))
    requires i < j < |s.pending| && s.pending[i].target == s.pending[j].target
    ensures s.pending[i].count > s.pending[j].count
  {
    var cut := |Survivors(s.events)| - |s.pending|;
    SurvivorsOrdered(s.events, |s.events|, cut + i, cut + j);
  }

  /** What arrives has a scrub and a target, so what is listed or about to be does. */
  lemma {:induction false} AlwaysDisplayable(run: seq<Step>)
    requires Valid(run)
    ensures forall e | e in After(run).pending :: WellFormed(e)
    ensures forall t | t in After(run).tasks :: WellFormed(After(run).tasks[t])
  {
    if run != [] {
      AlwaysDisplayable(run[..|run| - 1]);
    }
  }

  /**
   * For any arrival order, with arrivals and clears between the two locks of any other: at most
   * 256 entries, each with a scrub and a target, its key seen and gossiped, and for each target
   * the counts strictly decrease down the list.
   */
  lemma CoscrubListIsSound(run: seq<Step>)
    requires Valid(run)
    ensures
      var s := After(run);
      && |s.pending| <= MAX_PENDING_COSCRUBS
      && (forall e | e in s.pending ::
            e.count > 0 && (exists c :: c in e.target && c !in " \t\r\n") && KeyOf(e) in s.seen && KeyOf(e) in s.gossiped)
      && (forall i, j | 0 <= i < j < |s.pending| && s.pending[i].target == s.pending[j].target ::
            s.pending[i].count > s.pending[j].count)
  {
    StoreRefinesSurvivors(run);
    AlwaysLoopStopped(run);
    var s := After(run);
    AlwaysDisplayable(run);
    forall e | e in s.pending
      ensures KeyOf(e) in s.gossiped
    {
      ListedWasGossiped(s, e);
    }
    forall i, j | 0 <= i < j < |s.pending| && s.pending[i].target == s.pending[j].target
      ensures s.pending[i].count > s.pending[j].count
    {
      ListedInOrder(s, i, j);
    }
  }

  /**
   * Whatever order partials arrive in, the best one for a target outlives every other: it
   * survives exactly if the target was not cleared after it was put on the list.
   */
  lemma BestPartialSurvives(run: seq<Step>, k: nat)
    requires Valid(run) && k < |After(run).events| && After(run).events[k].Put?
    requires forall j | 0 <= j < |After(run).events| && After(run).events[j].Put?
      && After(run).events[j].e.target == After(run).events[k].e.target ::
      After(run).events[j].e.count <= After(run).events[k].e.count
    ensures After(run).events[k].e in Survivors(After(run).events) <==>
      forall j | k < j < |After(run).events| :: After(run).events[j] != Clears(After(run).events[k].e.target)
  {
    AlwaysLoopStopped(run);
    BestSurvives(After(run), k);
  }

  lemma BestSurvives(s: Store, k: nat)
    requires PutsAreGossips(s) && k < |s.events| && s.events[k].Put?
    requires forall j | 0 <= j < |s.events| && s.events[j].Put? && s.events[j].e.target == s.events[k].e.target ::
      s.events[j].e.count <= s.events[k].e.count
    ensures s.events[k].e in Survivors(s.events) <==>
      forall j | k < j < |s.events| :: s.events[j] != Clears(s.events[k].e.target)
  {
    if Survives(s.events, k) {
      SurvivesIsListed(s.events, |s.events|, k);
    }
    if s.events[k].e in Survivors(s.events) {
      ListedSurvives(s, k);
    }
    NothingBetterCame(s, k);
  }

  /** Keys are put on the list once, so a listed entry survives where it was put. */
  lemma ListedSurvives(s: Store, k: nat)
    requires PutsAreGossips(s) && k < |s.events| && s.events[k].Put? && s.events[k].e in Survivors(s.events)
    ensures Survives(s.events, k)
  {
    var i :| 0 <= i < |Survivors(s.events)| && Survivors(s.events)[i] == s.events[k].e;
    var m := SurvivorAt(s.events, |s.events|, i);
    assert m < k || k < m || m == k;
  }

  lemma NothingBetterCame(s: Store, k: nat)
    requires PutsAreGossips(s) && k < |s.events| && s.events[k].Put?
    requires forall j | 0 <= j < |s.events| && s.events[j].Put? && s.events[j].e.target == s.events[k].e.target ::
      s.events[j].e.count <= s.events[k].e.count
    ensures Survives(s.events, k) <==> forall j | k < j < |s.events| :: s.events[j] != Clears(s.events[k].e.target)
  {
    forall j | k < j < |s.events|
      ensures Removes(s.events[j], s.events[k].e) <==> s.events[j] == Clears(s.events[k].e.target)
    {
      assert s.events[j].Put? ==> KeyOf(s.events[k].e) != KeyOf(s.events[j].e);
    }
  }

  // ---- what was evicted or cleared -----------------------------------------

  ghost predicate Lists(s: Store, key: Key)
  {
    exists e :: e in s.pending && KeyOf(e) == key
  }

  /** The key was seen, and is neither listed nor about to be. */
  ghost predicate Gone(s: Store, key: Key)
  {
    key in s.seen && !Lists(s, key) && !BetweenLocks(s, key)
  }

  lemma GoneStep(s: Store, step: Step, key: Key)
    requires Enabled(s, step) && Gone(s, key)
    ensures Gone(Next(s, step), key)
  {
    var s' := Next(s, step);
    forall t | t in s'.tasks
      ensures KeyOf(s'.tasks[t]) != key
    {
      assert t in s.tasks ==> KeyOf(s.tasks[t]) != key;
    }
    forall e | e in s'.pending
      ensures KeyOf(e) != key
    {
      assert e in s.pending || (step.Finish? && e == s.tasks[step.t]);
    }
  }

  lemma {:induction false} GoneForGood(run: seq<Step>, longer: seq<Step>, key: Key)
    requires Valid(longer) && run <= longer && Gone(After(run), key)
    ensures Gone(After(longer), key)
    decreases |longer|
  {
    if longer != run {
      var pre := longer[..|longer| - 1];
      GoneForGood(run, pre, key);
      GoneStep(After(pre), longer[|longer| - 1], key);
    }
  }

  lemma StepOn(run: seq<Step>, step: Step) returns (longer: seq<Step>)
    requires Valid(run) && Enabled(After(run), step)
    ensures longer == run + [step] && Valid(longer) && After(longer) == Next(After(run), step)
  {
    longer := run + [step];
    assert longer[..|longer| - 1] == run && longer[|longer| - 1] == step;
  }

  ghost predicate ListsLater(run: seq<Step>, longer: seq<Step>, key: Key)
  {
    Valid(longer) && run <= longer && Lists(After(longer), key)
  }

  /**
   * A key that was seen and is not on the list, superseded, evicted by the ceiling or cleared,
   * is ever listed again exactly when its one arrival is still between the two locks: what
   * left the list can never come back.
   */
  lemma ListedAgainIff(run: seq<Step>, key: Key)
    requires Valid(run) && key in After(run).seen && !Lists(After(run), key)
    ensures (exists longer :: ListsLater(run, longer, key)) <==> BetweenLocks(After(run), key)
    ensures BetweenLocks(After(run), key) <==> key !in After(run).gossiped
  {
    AlwaysLoopStopped(run);
    var s := After(run);
    if t :| t in s.tasks && KeyOf(s.tasks[t]) == key {
      var longer := StepOn(run, Finish(t));
      var pending := After(longer).pending;
      assert pending[|pending| - 1] == s.tasks[t];
      assert ListsLater(run, longer, key);
    } else {
      forall longer
        ensures !ListsLater(run, longer, key)
      {
        if ListsLater(run, longer, key) {
          GoneForGood(run, longer, key);
        }
      }
    }
  }

  // ---- gossip --------------------------------------------------------------

  lemma {:induction false} DistinctWithin<T>(s: seq<T>, universe: set<T>)
    requires forall i, j | 0 <= i < j < |s| :: s[i] != s[j]
    requires forall x | x in s :: x in universe
    ensures |s| <= |universe|
    decreases |s|
  {
    if s != [] {
      var n := |s| - 1;
      forall x | x in s[..n]
        ensures x in universe - {s[n]}
      {
        var i :| 0 <= i < n && s[i] == x;
      }
      DistinctWithin(s[..n], universe - {s[n]});
    }
  }

  // ---- what is not bounded -------------------------------------------------

  lemma OneMoreArrives(run: seq<Step>, e: Entry) returns (longer: seq<Step>)
    requires Valid(run) && After(run).tasks == map[] && WellFormed(e) && KeyOf(e) !in After(run).seen
    ensures Valid(longer) && After(longer).tasks == map[] && After(longer).seen == After(run).seen + {KeyOf(e)}
  {
    var arrived := StepOn(run, Arrive(0, e));
    assert After(arrived).tasks == map[0 := e];
    longer := StepOn(arrived, Finish(0));
  }

  /** `n` partials of one target, each better than the one before, one at a time. */
  lemma {:induction false} ImprovingRun(n: nat) returns (run: seq<Step>)
    ensures Valid(run) && After(run).tasks == map[]
    ensures |After(run).seen| == n && forall k | k in After(run).seen :: k.1 <= n
  {
    if n == 0 {
      run := [];
    } else {
      var shorter := ImprovingRun(n - 1);
      var e := Entry("t", n, "");
      assert e.target[0] in e.target && 't' !in " \t\r\n";
      run := OneMoreArrives(shorter, e);
    }
  }

  /** The list is bounded, the set of keys seen is not: for any `n` some run has seen `n` and lists at most 256. */
  lemma SeenIsUnbounded(n: nat)
    ensures exists run :: Valid(run) && |After(run).seen| == n && |After(run).pending| <= MAX_PENDING_COSCRUBS
  {
    var run := ImprovingRun(n);
    StoreRefinesSurvivors(run);
  }
}
