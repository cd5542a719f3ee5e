// The surfaced, non-binding accord events: a bounded log that refuses a repeat of
// anything it still holds and drops its oldest entries on overflow.

module EventLog {
  import opened Prelude

  const MAX_ACCORD_EVENTS: nat := 1024

  datatype EventType = DrillEvent | AnnounceEvent

  datatype Event = Event(
    eventType: EventType, invocationId: Id, recordedAt: Instant,
    signers: set<Id>, quorumThreshold: nat, message: Option<string>)

  predicate Same(a: Event, b: Event)
  {
    a.eventType == b.eventType && a.invocationId == b.invocationId
  }

  predicate Known(log: seq<Event>, e: Event)
  {
    exists i | 0 <= i < |log| :: Same(log[i], e)
  }

  function Record(log: seq<Event>, e: Event): seq<Event>
  {
    if Known(log, e) then log
    else if |log| >= MAX_ACCORD_EVENTS then log[|log| + 1 - MAX_ACCORD_EVENTS..] + [e]
    else log + [e]
  }

  predicate NoRepeats(log: seq<Event>)
  {
    forall i, j | 0 <= i < j < |log| :: !Same(log[i], log[j])
  }

  // ---- the unbounded log it refines ----------------------------------------

  /** Every event offered that the node answered "newly recorded" for, in order. */
  function NewlyRecorded(offered: seq<Event>): seq<Event>
  {
    if offered == [] then []
    else
      var before, e := offered[..|offered| - 1], offered[|offered| - 1];
      NewlyRecorded(before) + (if Known(LogAfter(before), e) then [] else [e])
  }

  function LogAfter(offered: seq<Event>): seq<Event>
  {
    if offered == [] then [] else Record(LogAfter(offered[..|offered| - 1]), offered[|offered| - 1])
  }

  lemma RecordKeepsNoRepeats(log: seq<Event>, e: Event)
    requires NoRepeats(log)
    ensures NoRepeats(Record(log, e))
  {
    if !Known(log, e) {
      var tail := if |log| >= MAX_ACCORD_EVENTS then log[|log| + 1 - MAX_ACCORD_EVENTS..] else log;
      forall i | 0 <= i < |tail|
        ensures !Same(tail[i], e)
      {
        assert tail[i] == log[i + |log| - |tail|];
      }
    }
  }

  /**
   * After any run the log is exactly the last 1024 of the events newly recorded so far,
   * and no (type, id) occurs in it twice.
   */
  lemma {:induction false} LogRefinesUnbounded(offered: seq<Event>)
    ensures LogAfter(offered) == LastN(NewlyRecorded(offered), MAX_ACCORD_EVENTS)
    ensures NoRepeats(LogAfter(offered))
  {
    if offered != [] {
      var before, e := offered[..|offered| - 1], offered[|offered| - 1];
      LogRefinesUnbounded(before);
      RecordKeepsNoRepeats(LogAfter(before), e);
      LastNPush(NewlyRecorded(before), e, MAX_ACCORD_EVENTS);
      assert NewlyRecorded(before) + [] == NewlyRecorded(before);
    }
  }

  // ---- listing -------------------------------------------------------------

  /** Most recent first, one type only. */
  function Listed(log: seq<Event>, t: EventType): seq<Event>
  {
    if log == [] then []
    else
      var e := log[|log| - 1];
      (if e.eventType == t then [e] else []) + Listed(log[..|log| - 1], t)
  }

  /** What the entries from position `i` on contribute to a listing. */
  function ListedFrom(log: seq<Event>, i: nat, t: EventType): seq<Event>
    requires i <= |log|
    decreases |log| - i
  {
    if i == |log| then [] else ListedFrom(log, i + 1, t) + if log[i].eventType == t then [log[i]] else []
  }

  lemma {:induction false} ListedSplits(log: seq<Event>, i: nat, t: EventType)
    requires i <= |log|
    ensures Listed(log, t) == ListedFrom(log, i, t) + Listed(log[..i], t)
    decreases |log| - i
  {
    if i == |log| {
      assert log[..i] == log;
    } else {
      ListedSplits(log, i + 1, t);
      assert log[..i + 1][..i] == log[..i];
      Reassociates(ListedFrom(log, i + 1, t), if log[i].eventType == t then [log[i]] else [], Listed(log[..i], t));
    }
  }

  lemma Reassociates<T>(a: seq<T>, b: seq<T>, c: seq<T>)
    ensures a + (b + c) == (a + b) + c
  {}

  ghost predicate StrictlyIncreasing(at: seq<nat>)
  {
    forall i, j | 0 <= i < j < |at| :: at[i] < at[j]
  }

  /**
   * A listing is the exact reversed subsequence of its type: there is an increasing list of
   * positions holding precisely the entries of that type, and the listing reads it backwards.
   */
  ghost predicate Positions(at: seq<nat>, log: seq<Event>, t: EventType)
  {
    && StrictlyIncreasing(at)
    && (forall i | 0 <= i < |at| :: at[i] < |log| && log[at[i]].eventType == t)
    && (forall k | 0 <= k < |log| && log[k].eventType == t :: exists i | 0 <= i < |at| :: at[i] == k)
  }

  lemma PositionsExtend(at: seq<nat>, log: seq<Event>, e: Event, t: EventType)
    requires Positions(at, log, t)
    ensures Positions(if e.eventType == t then at + [|log|] else at, log + [e], t)
  {
    var next := if e.eventType == t then at + [|log|] else at;
    forall k | 0 <= k < |log| + 1 && (log + [e])[k].eventType == t
      ensures exists i | 0 <= i < |next| :: next[i] == k
    {
      if k < |log| {
        assert log[k].eventType == t;
        var i :| 0 <= i < |at| && at[i] == k;
        assert next[i] == k;
      } else {
        assert next[|at|] == k;
      }
    }
  }

  ghost function PositionsOf(log: seq<Event>, t: EventType): (at: seq<nat>)
    ensures Positions(at, log, t)
  {
    if log == [] then []
    else
      var front, e := log[..|log| - 1], log[|log| - 1];
      assert log == front + [e];
      var before := PositionsOf(front, t);
      PositionsExtend(before, front, e, t);
      if e.eventType == t then before + [|front|] else before
  }

  /**
   * A listing is the exact reversed subsequence of its type: read backwards it is the log
   * at precisely the positions, in order, that hold that type.
   */
  lemma {:induction false} ListedIsReversedSubsequence(log: seq<Event>, t: EventType, i: nat)
    requires i < |PositionsOf(log, t)|
    ensures |Listed(log, t)| == |PositionsOf(log, t)|
    ensures Listed(log, t)[|PositionsOf(log, t)| - 1 - i] == log[PositionsOf(log, t)[i]]
  {
    var front, e := log[..|log| - 1], log[|log| - 1];
    ListedLength(log, t);
    ListedLength(front, t);
    if i < |PositionsOf(front, t)| {
      ListedIsReversedSubsequence(front, t, i);
    }
  }

  lemma {:induction false} ListedLength(log: seq<Event>, t: EventType)
    ensures |Listed(log, t)| == |PositionsOf(log, t)|
  {
    if log != [] {
      ListedLength(log[..|log| - 1], t);
    }
  }
}
