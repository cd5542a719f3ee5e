// Relaying a halt: every latch write was preceded by a relay of that halt, and the handler that
// sighted it first latches only once it has sent it everywhere.

module HaltRelays {
  import opened Prelude
  import opened Accord
  import opened HaltRecords
  import opened HaltPlane
  import opened HaltHistory

  // ---- every latch write was relayed ---------------------------------------

  /** Step `j` received the row of `key` at its binding threshold, not having it in the seen set. */
  ghost predicate SightedFirst(cfg: Config, run: seq<Step>, j: int, key: SeenKey)
  {
    && 0 <= j < |run| && run[j].Receive? && key.binding
    && KeyOf(run[j].row, run[j].roster) == key
    && FirstSight(After(cfg, run[..j]), key)
  }

  lemma SightedFirstExtends(cfg: Config, pre: seq<Step>, step: Step, j: int, key: SeenKey)
    requires SightedFirst(cfg, pre, j, key)
    ensures SightedFirst(cfg, pre + [step], j, key)
  {
    assert (pre + [step])[..j] == pre[..j];
  }

  /** A binding key enters the seen set only where its binding row was first sighted. */
  lemma {:induction false} SeenTellsItsStory(cfg: Config, run: seq<Step>, key: SeenKey)
    requires Valid(cfg, run) && key.binding && key in After(cfg, run).seen
    ensures exists j :: SightedFirst(cfg, run, j, key)
  {
    var pre, step := run[..|run| - 1], run[|run| - 1];
    assert run == pre + [step];
    if key in After(cfg, pre).seen {
      SeenTellsItsStory(cfg, pre, key);
      var j :| SightedFirst(cfg, pre, j, key);
      SightedFirstExtends(cfg, pre, step, j, key);
    } else {
      assert SightedFirst(cfg, run, |pre|, key);
    }
  }

  /**
   * Sub-threshold sightings, and every other row, never spend the first sight of a binding
   * row: if the run holds no earlier binding sighting of the key, the next one is first.
   */
  lemma OnlyBindingSightingsSilence(cfg: Config, run: seq<Step>, row: Row, roster: seq<Member>)
    requires Valid(cfg, run) && Binding(row, roster)
    requires forall j | 0 <= j < |run| && run[j].Receive? :: KeyOf(run[j].row, run[j].roster) != KeyOf(row, roster)
    ensures FirstSight(After(cfg, run), KeyOf(row, roster))
  {
    var key := KeyOf(row, roster);
    if key in After(cfg, run).seen {
      SeenTellsItsStory(cfg, run, key);
      assert false;
    }
  }

  // ---- what the node remembers having seen ---------------------------------

  /** A crash forgets everything seen, and so does a sighting that finds the set full. */
  predicate ForgetsSeen(s: Node, step: Step)
  {
    step.Crash? || (step.Receive? && Authentic(step.row, step.roster) && |s.seen| >= MAX_SEEN_INVOCATIONS)
  }

  /** Step `j` received an authentic row of this key and nothing was forgotten since. */
  ghost predicate Remembered(cfg: Config, run: seq<Step>, j: int, key: SeenKey)
  {
    && 0 <= j < |run| && run[j].Receive? && Authentic(run[j].row, run[j].roster) && KeyOf(run[j].row, run[j].roster) == key
    && forall k: nat | j < k < |run| :: !ForgetsAt(cfg, run, k)
  }

  predicate ForgetsAt(cfg: Config, run: seq<Step>, k: nat)
    requires k < |run|
  {
    ForgetsSeen(After(cfg, run[..k]), run[k])
  }

  lemma RememberedExtends(cfg: Config, run: seq<Step>, step: Step, j: int, key: SeenKey)
    ensures j < |run| ==> (Remembered(cfg, run + [step], j, key) <==> Remembered(cfg, run, j, key) && !ForgetsSeen(After(cfg, run), step))
    ensures Remembered(cfg, run + [step], |run|, key) <==>
      step.Receive? && Authentic(step.row, step.roster) && KeyOf(step.row, step.roster) == key
  {
    var longer := run + [step];
    assert longer[|run|] == step && longer[..|run|] == run;
    assert ForgetsAt(cfg, longer, |run|) == ForgetsSeen(After(cfg, run), step);
    forall k: nat | k < |run|
      ensures longer[k] == run[k] && ForgetsAt(cfg, longer, k) == ForgetsAt(cfg, run, k)
    {
      assert longer[..k] == run[..k];
    }
  }

  lemma SeenMoves(cfg: Config, s: Node, step: Step, key: SeenKey)
    requires Enabled(cfg, s, step)
    ensures key in Effect(cfg, s, step).seen <==>
      || (step.Receive? && Authentic(step.row, step.roster) && KeyOf(step.row, step.roster) == key)
      || (key in s.seen && !ForgetsSeen(s, step))
    ensures |s.seen| <= MAX_SEEN_INVOCATIONS ==> |Effect(cfg, s, step).seen| <= MAX_SEEN_INVOCATIONS
  {}

  /**
   * A key is in the seen set exactly if an authentic row of it was received and nothing was
   * forgotten since, and the set stays within its bound: so a sighting is first exactly if the
   * key is not remembered, or the set is full and about to be cleared.
   */
  lemma {:induction false} SeenIffRemembered(cfg: Config, run: seq<Step>, key: SeenKey)
    requires Valid(cfg, run)
    ensures key in After(cfg, run).seen <==> exists j :: Remembered(cfg, run, j, key)
    ensures |After(cfg, run).seen| <= MAX_SEEN_INVOCATIONS
    ensures FirstSight(After(cfg, run), key) <==>
      |After(cfg, run).seen| == MAX_SEEN_INVOCATIONS || !exists j :: Remembered(cfg, run, j, key)
  {
    if run != [] {
      var pre, step := run[..|run| - 1], run[|run| - 1];
      assert run == pre + [step];
      SeenIffRemembered(cfg, pre, key);
      SeenMoves(cfg, After(cfg, pre), step, key);
      forall j
        ensures j < |pre| ==> (Remembered(cfg, run, j, key) <==> Remembered(cfg, pre, j, key) && !ForgetsSeen(After(cfg, pre), step))
      {
        RememberedExtends(cfg, pre, step, j, key);
      }
      RememberedExtends(cfg, pre, step, |pre|, key);
    }
  }

  /** A halt handler's proc carries what step `j` received, and no crash has come since. */
  ghost predicate CameFrom(run: seq<Step>, p: nat, proc: Proc, j: int)
  {
    && 0 <= j < |run| && proc.Halting? && run[j].Receive?
    && run[j] == Receive(p, proc.row, run[j].roster, proc.received)
    && proc.row.inv.kind.Constitutional? && QuorumMet(proc.row, run[j].roster)
    && proc.signers == ValidSigners(run[j].roster, proc.row.inv, proc.row.sigs)
    && proc.threshold == HaltPlaneThreshold(Constitutional, |run[j].roster|)
    && forall k | j < k < |run| :: !run[k].Crash?
  }

  function HaltKey(id: Id): SeenKey
  {
    SeenKey(Constitutional, id, true)
  }

  ghost predicate Origin(cfg: Config, run: seq<Step>, p: nat, proc: Proc, j: int, r: int)
  {
    CameFrom(run, p, proc, j) && r <= j && SightedFirst(cfg, run, r, HaltKey(proc.row.inv.id))
  }

  /** Two states of one halt handler: they differ at most in what is left to send. */
  predicate SameHandler(a: Proc, b: Proc)
  {
    && a.Halting? && b.Halting?
    && a.row == b.row && a.signers == b.signers && a.threshold == b.threshold && a.received == b.received
  }

  /** A halt handler is born in a binding receipt and afterwards only its sends move it. */
  lemma HaltingMoves(cfg: Config, s: Node, step: Step, p: nat)
    requires Enabled(cfg, s, step)
    requires p in Effect(cfg, s, step).procs && Effect(cfg, s, step).procs[p].Halting?
    ensures
      var proc := Effect(cfg, s, step).procs[p];
      if p in s.procs && s.procs[p].Halting? then
        && !step.Crash?
        && SameHandler(proc, s.procs[p])
        && proc.todo == s.procs[p].todo - (if step.Send? && step.p == p then multiset{step.dst} else multiset{})
      else
        && step.Receive? && step.p == p && CameFrom([step], p, proc, 0)
        && proc.todo == ToPeers(cfg, FirstSight(s, HaltKey(proc.row.inv.id)))
  {}

  lemma CameFromExtends(pre: seq<Step>, step: Step, p: nat, proc: Proc, next: Proc, j: int)
    requires CameFrom(pre, p, proc, j) && !step.Crash? && SameHandler(next, proc)
    ensures CameFrom(pre + [step], p, next, j)
  {}

  lemma {:induction false} HaltingHasOrigin(cfg: Config, run: seq<Step>, p: nat)
    requires Valid(cfg, run) && p in After(cfg, run).procs && After(cfg, run).procs[p].Halting?
    ensures exists j, r :: Origin(cfg, run, p, After(cfg, run).procs[p], j, r)
  {
    var pre, step := run[..|run| - 1], run[|run| - 1];
    assert run == pre + [step];
    var s, proc := After(cfg, pre), After(cfg, run).procs[p];
    HaltingMoves(cfg, s, step, p);
    var key := HaltKey(proc.row.inv.id);
    if p in s.procs && s.procs[p].Halting? {
      HaltingHasOrigin(cfg, pre, p);
      var j, r :| Origin(cfg, pre, p, s.procs[p], j, r);
      CameFromExtends(pre, step, p, s.procs[p], proc, j);
      SightedFirstExtends(cfg, pre, step, r, key);
      assert Origin(cfg, run, p, proc, j, r);
    } else {
      assert CameFrom(run, p, proc, |pre|);
      HaltingBornSighted(cfg, pre, step, key);
      var r :| r <= |pre| && SightedFirst(cfg, run, r, key);
      assert Origin(cfg, run, p, proc, |pre|, r);
    }
  }

  lemma HaltingBornSighted(cfg: Config, pre: seq<Step>, step: Step, key: SeenKey)
    requires Valid(cfg, pre) && step.Receive? && key.binding && KeyOf(step.row, step.roster) == key
    ensures exists r :: r <= |pre| && SightedFirst(cfg, pre + [step], r, key)
  {
    if FirstSight(After(cfg, pre), key) {
      assert (pre + [step])[..|pre|] == pre;
      assert SightedFirst(cfg, pre + [step], |pre|, key);
    } else {
      SeenTellsItsStory(cfg, pre, key);
      var r :| SightedFirst(cfg, pre, r, key);
      SightedFirstExtends(cfg, pre, step, r, key);
    }
  }

  /** The handler that sighted a halt first is left to send it to every peer. */
  lemma FirstSightRelays(cfg: Config, run: seq<Step>, r: nat, h: Id)
    requires Valid(cfg, run) && SightedFirst(cfg, run, r, HaltKey(h))
    ensures run[r].Receive? && run[r].row.inv.id == h && run[r].p in After(cfg, run[..r + 1]).procs
    ensures After(cfg, run[..r + 1]).procs[run[r].p].Halting?
    ensures Todo(After(cfg, run[..r + 1]).procs[run[r].p]) == multiset(cfg.peers)
  {
    PrefixValid(cfg, run, r);
    QuorumNeedsASeat(run[r].row, run[r].roster);
  }

  lemma WriteHasOrigin(cfg: Config, run: seq<Step>, i: nat) returns (j: nat, r: nat)
    requires Valid(cfg, run) && i < |run| && run[i].WriteHalt?
    ensures r <= j < i && SightedFirst(cfg, run, r, HaltKey(run[i].rec.invocationId))
    ensures run[j].Receive? && run[j].row.inv.kind.Constitutional? && QuorumMet(run[j].row, run[j].roster)
    ensures run[i].rec.invocationId == run[j].row.inv.id && run[i].rec.ReceivedAt() == run[j].now
    ensures run[i].rec.validSigners == ValidSigners(run[j].roster, run[j].row.inv, run[j].row.sigs)
  {
    PrefixValid(cfg, run, i);
    var pre, p := run[..i], run[i].p;
    var proc := After(cfg, pre).procs[p];
    HaltingHasOrigin(cfg, pre, p);
    var j0, r0 :| Origin(cfg, pre, p, proc, j0, r0);
    j, r := j0, r0;
    assert pre[..r] == run[..r] && run[j] == pre[j] && run[r] == pre[r];
  }

  /**
   * Every latch write goes back to a binding constitutional row this node received in the
   * same life (`j`), with that row's id, signers and instant of receipt, and to a relay of
   * that halt to every peer begun no later than that receipt (`r`), whatever was re-delivered
   * and however often the seen set was cleared.
   */
  lemma LatchWriteWasRelayed(cfg: Config, run: seq<Step>, i: nat)
    requires Valid(cfg, run) && i < |run| && run[i].WriteHalt?
    ensures exists j, r ::
      && 0 <= r <= j < i
      && run[j].Receive? && run[j].row.inv.kind.Constitutional? && QuorumMet(run[j].row, run[j].roster)
      && run[i].rec.invocationId == run[j].row.inv.id && run[i].rec.ReceivedAt() == run[j].now
      && run[i].rec.validSigners == ValidSigners(run[j].roster, run[j].row.inv, run[j].row.sigs)
      && run[r].Receive? && run[r].row.inv.id == run[i].rec.invocationId
      && run[r].p in After(cfg, run[..r + 1]).procs
      && After(cfg, run[..r + 1]).procs[run[r].p].Halting?
      && Todo(After(cfg, run[..r + 1]).procs[run[r].p]) == multiset(cfg.peers)
  {
    var j, r := WriteHasOrigin(cfg, run, i);
    FirstSightRelays(cfg, run, r, run[i].rec.invocationId);
  }

  // ---- relay first, latch second -------------------------------------------

  function SentIn(p: nat, step: Step): multiset<Id>
  {
    if step.Send? && step.p == p then multiset{step.dst} else multiset{}
  }

  /** What halt handler `p` has left to send after the first `i` steps, if it is there. */
  ghost function LeftToSend(cfg: Config, run: seq<Step>, p: nat, i: nat): Option<multiset<Id>>
    requires i <= |run|
  {
    var procs := After(cfg, run[..i]).procs;
    if p in procs && procs[p].Halting? then Some(procs[p].todo) else None
  }

  lemma HaltingGoesOn(cfg: Config, run: seq<Step>, p: nat, i: nat)
    requires Valid(cfg, run) && i < |run| && LeftToSend(cfg, run, p, i).Some?
    requires !run[i].Crash? && !(run[i].WriteHalt? && run[i].p == p) && !(run[i].End? && run[i].p == p)
    ensures LeftToSend(cfg, run, p, i + 1).Some?
    ensures LeftToSend(cfg, run, p, i).value == LeftToSend(cfg, run, p, i + 1).value + SentIn(p, run[i])
  {
    PrefixValid(cfg, run, i);
  }

  /** What handler `p` sent from step `from` up to step `to`. */
  function SentBy(p: nat, run: seq<Step>, from: nat, to: nat): multiset<Id>
    requires from <= to <= |run|
  {
    if from == to then multiset{} else SentBy(p, run, from, to - 1) + SentIn(p, run[to - 1])
  }

  ghost predicate Uninterrupted(run: seq<Step>, p: nat, j: nat, i: nat)
  {
    forall k | j < k < i && k < |run| ::
      !run[k].Crash? && !(run[k].WriteHalt? && run[k].p == p) && !(run[k].End? && run[k].p == p)
  }

  /** What handler `p` has sent since step `j` and has left makes up what its receipt left it to send. */
  ghost predicate Accounts(cfg: Config, run: seq<Step>, p: nat, j: nat, i: nat)
    requires j < i <= |run| && LeftToSend(cfg, run, p, j + 1).Some?
  {
    && LeftToSend(cfg, run, p, i).Some?
    && SentBy(p, run, j + 1, i) + LeftToSend(cfg, run, p, i).value == LeftToSend(cfg, run, p, j + 1).value
  }

  lemma AccountsNext(cfg: Config, run: seq<Step>, p: nat, j: nat, i: nat)
    requires Valid(cfg, run) && j < i < |run| && LeftToSend(cfg, run, p, j + 1).Some? && Accounts(cfg, run, p, j, i)
    requires !run[i].Crash? && !(run[i].WriteHalt? && run[i].p == p) && !(run[i].End? && run[i].p == p)
    ensures Accounts(cfg, run, p, j, i + 1)
  {
    HaltingGoesOn(cfg, run, p, i);
    SumsUp(SentBy(p, run, j + 1, i), SentIn(p, run[i]), LeftToSend(cfg, run, p, i + 1).value,
           LeftToSend(cfg, run, p, i).value, LeftToSend(cfg, run, p, j + 1).value);
  }

  lemma {:induction false} RelayAccounted(cfg: Config, run: seq<Step>, p: nat, j: nat, i: nat)
    requires Valid(cfg, run) && j < i <= |run| && Uninterrupted(run, p, j, i)
    requires LeftToSend(cfg, run, p, j + 1).Some?
    ensures Accounts(cfg, run, p, j, i)
    decreases i
  {
    if i > j + 1 {
      RelayAccounted(cfg, run, p, j, i - 1);
      AccountsNext(cfg, run, p, j, i - 1);
    } else {
      assert SentBy(p, run, i, i) == multiset{};
    }
  }

  lemma SumsUp(sent: multiset<Id>, now: multiset<Id>, left: multiset<Id>, before: multiset<Id>, whole: multiset<Id>)
    requires before == left + now && sent + before == whole
    ensures (sent + now) + left == whole
  {}

  /** What handler `p` sent before latching is what its receipt left it to send. */
  lemma SentBeforeLatching(cfg: Config, run: seq<Step>, p: nat, j: nat, i: nat)
    requires Valid(cfg, run) && j < i < |run| && Uninterrupted(run, p, j, i)
    requires run[j].Receive? && run[j].p == p && run[j].row.inv.kind.Constitutional? && QuorumMet(run[j].row, run[j].roster)
    requires run[i].WriteHalt? && run[i].p == p
    ensures SentBy(p, run, j + 1, i) == ToPeers(cfg, FirstSight(After(cfg, run[..j]), HaltKey(run[j].row.inv.id)))
  {
    PrefixValid(cfg, run, j);
    PrefixValid(cfg, run, i);
    QuorumNeedsASeat(run[j].row, run[j].roster);
    RelayAccounted(cfg, run, p, j, i);
    assert SentBy(p, run, j + 1, i) + multiset{} == SentBy(p, run, j + 1, i);
  }

  /**
   * Between receiving a halt (`j`) and writing the latch (`i`) a handler has sent it to every
   * peer, each exactly as often as it is listed, exactly when it sighted the halt first or
   * there is nobody to send it to.
   */
  lemma RelaysBeforeLatchingIff(cfg: Config, run: seq<Step>, p: nat, j: nat, i: nat)
    requires Valid(cfg, run) && j < i < |run| && Uninterrupted(run, p, j, i)
    requires run[j].Receive? && run[j].p == p && run[j].row.inv.kind.Constitutional? && QuorumMet(run[j].row, run[j].roster)
    requires run[i].WriteHalt? && run[i].p == p
    ensures SentBy(p, run, j + 1, i) == multiset(cfg.peers) <==>
      FirstSight(After(cfg, run[..j]), HaltKey(run[j].row.inv.id)) || cfg.peers == []
  {
    SentBeforeLatching(cfg, run, p, j, i);
    if cfg.peers != [] {
      assert cfg.peers[0] in multiset(cfg.peers);
    }
  }

  /**
   * A handler that did not sight it first need not wait: with any peer at all, a duplicate
   * delivered while the first handler is still relaying latches the node before one send.
   */
  lemma DuplicateLatchesBeforeTheRelay(cfg: Config, row: Row, roster: seq<Member>, t: Instant)
    requires cfg.home && cfg.peers != []
    requires row.inv.kind.Constitutional? && QuorumMet(row, roster)
    ensures
      var run := DuplicateRun(cfg, row, roster, t);
      && Valid(cfg, run) && After(cfg, run).latch.Holds?
      && After(cfg, run).latch.rec.invocationId == row.inv.id
      && 0 in After(cfg, run).procs && Todo(After(cfg, run).procs[0]) == multiset(cfg.peers) != multiset{}
  {
    QuorumNeedsASeat(row, roster);
    var steps := DuplicateRun(cfg, row, roster, t);
    assert Valid(cfg, []) && After(cfg, []) == FirstBoot;
    OneMore(cfg, [], steps[0]);
    OneMore(cfg, [] + [steps[0]], steps[1]);
    OneMore(cfg, [] + [steps[0]] + [steps[1]], steps[2]);
    assert [] + [steps[0]] + [steps[1]] + [steps[2]] == steps;
    assert cfg.peers[0] in multiset(cfg.peers);
  }

  function DuplicateRun(cfg: Config, row: Row, roster: seq<Member>, t: Instant): seq<Step>
  {
    var signers, m := ValidSigners(roster, row.inv, row.sigs), HaltPlaneThreshold(Constitutional, |roster|);
    [Receive(0, row, roster, t), Receive(1, row, roster, t),
     WriteHalt(1, RecordFor(cfg, Halting(row, signers, m, t, multiset{}), None))]
  }
}
