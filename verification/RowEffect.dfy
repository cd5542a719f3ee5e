// What a row of each kind does to a node that handles it without interruption, and what it is
// answered: told from the row, the roster and the latch alone.

module RowEffects {
  import opened Prelude
  import opened Accord
  import opened HaltRecords
  import opened HaltPlane
  import opened AccordNode

  /** Strictly more than half of the roster's seats signed the row. */
  predicate ByMajority(row: Row, roster: seq<Member>)
  {
    2 * |ValidSigners(roster, row.inv, row.sigs)| > |roster|
  }

  /** One row's handling: the node before and after, what was put in flight and what was answered. */
  datatype Handling = Handling(before: Node, after: Node, sent: seq<Delivery>, answer: Outcome)

  function Handled(
    cfg: Config, s: Node, row: Row, roster: seq<Member>, now: Instant, readAt: Instant, latchId: Option<Id>): Handling
  {
    Handling(s, RunFrom(cfg, s, Handler(cfg, s, row, roster, now, readAt, latchId)),
             Outbox(cfg, s, row, roster, now, readAt), OutcomeOf(cfg, s, row, roster, readAt))
  }

  /** The latch and the journal are as they were and no token was consumed. */
  predicate LeavesTheHalt(h: Handling)
  {
    h.after.latch == h.before.latch && h.after.journal == h.before.journal && h.after.tokenFile == h.before.tokenFile
  }

  function Relayed(cfg: Config, s: Node, row: Row, key: SeenKey): seq<Delivery>
  {
    if FirstSight(s, key) then ToAll(cfg.peers, row) else []
  }

  /** A row nobody on the roster signed leaves the node as it is, is sent nowhere and fires nothing. */
  lemma ForgedDoesNothing(
    cfg: Config, s: Node, row: Row, roster: seq<Member>, now: Instant, readAt: Instant, latchId: Option<Id>)
    requires s.procs == map[] && ValidSigners(roster, row.inv, row.sigs) == {}
    ensures
      var h := Handled(cfg, s, row, roster, now, readAt, latchId);
      h.after == s && h.sent == [] && h.answer == Outcome(false, false, {}, false, false, false, None)
  {
    QuorumIff(row, roster);
    HandlerRuns(cfg, s, row, roster, now, readAt, latchId);
  }

  /**
   * A resumption that a strict majority signed ends the halt that stands exactly when it names
   * it, on a node that has a latch at all: journaled with its signers, relayed at first sight.
   * Otherwise it ends nothing and is told why.
   */
  lemma ResumptionReleasesIff(
    cfg: Config, s: Node, row: Row, roster: seq<Member>, now: Instant, readAt: Instant, latchId: Option<Id>)
    requires s.procs == map[] && row.inv.kind == LifecycleActive && ByMajority(row, roster)
    ensures
      var h := Handled(cfg, s, row, roster, now, readAt, latchId);
      var signers := ValidSigners(roster, row.inv, row.sigs);
      if cfg.home && s.latch.Holds? && row.inv.resumesHaltId == Some(s.latch.rec.invocationId) then
        && h.after.latch == Absent && h.after.tokenFile == s.tokenFile
        && h.after.journal == s.journal + [HonoredOverWire(now, row.inv.id, signers, |roster| / 2 + 1, s.latch.rec)]
        && h.sent == Relayed(cfg, s, row, SeenKey(LifecycleActive, row.inv.id, true))
        && h.answer == Outcome(true, true, signers, false, false, true, None)
      else
        && LeavesTheHalt(h) && h.sent == []
        && h.answer == Outcome(true, true, signers, false, false, false, Some(
             if !cfg.home then NoLatchHome else if s.latch.Unreadable? then LatchUnreadable else ResumesUnknownHalt))
  {
    QuorumIff(row, roster);
    QuorumNeedsASeat(row, roster);
    HandlerRuns(cfg, s, row, roster, now, readAt, latchId);
  }

  /**
   * A confirmation that a strict majority signed takes effect exactly when it names the halt
   * that stands and that is still in effect: the first one confirms it, with its signers and
   * the instant the latch was read, and is relayed at first sight; a later one changes nothing.
   */
  lemma ConfirmationConfirmsIff(
    cfg: Config, s: Node, row: Row, roster: seq<Member>, now: Instant, readAt: Instant, latchId: Option<Id>)
    requires s.procs == map[] && row.inv.kind == LifecycleConfirmed && ByMajority(row, roster)
    ensures
      var h := Handled(cfg, s, row, roster, now, readAt, latchId);
      var signers := ValidSigners(roster, row.inv, row.sigs);
      var names := s.latch.Holds? && row.inv.confirmsHaltId == Some(s.latch.rec.invocationId);
      if cfg.home && names && (s.latch.rec.confirmed.Some? || readAt < s.latch.rec.LapsesAt()) then
        && h.answer == Outcome(true, true, signers, false, true, false, None)
        && h.after.journal == s.journal && h.after.tokenFile == s.tokenFile
        && (if s.latch.rec.confirmed.Some? then h.after.latch == s.latch && h.sent == []
            else
              && h.after.latch == Holds(s.latch.rec.(confirmed := Some(HaltConfirmation(row.inv.id, signers, At(readAt)))))
              && h.sent == Relayed(cfg, s, row, SeenKey(LifecycleConfirmed, row.inv.id, true)))
      else
        && LeavesTheHalt(h) && h.sent == []
        && h.answer == Outcome(true, true, signers, false, false, false, Some(
             if !cfg.home then NoLatchHome else if s.latch.Unreadable? then LatchUnreadable
             else if names then HaltFuseLapsed else ConfirmsUnknownHalt))
  {
    QuorumIff(row, roster);
    QuorumNeedsASeat(row, roster);
    HandlerRuns(cfg, s, row, roster, now, readAt, latchId);
  }

  /** Without a strict majority neither does anything but travel. */
  lemma MinorityOnlyTravels(
    cfg: Config, s: Node, row: Row, roster: seq<Member>, now: Instant, readAt: Instant, latchId: Option<Id>)
    requires s.procs == map[] && (row.inv.kind == LifecycleConfirmed || row.inv.kind == LifecycleActive)
    requires !ByMajority(row, roster) && Authentic(row, roster)
    ensures
      var h := Handled(cfg, s, row, roster, now, readAt, latchId);
      && LeavesTheHalt(h) && h.sent == Relayed(cfg, s, row, SeenKey(row.inv.kind, row.inv.id, false))
      && h.answer == Outcome(true, false, ValidSigners(roster, row.inv, row.sigs), false, false, false, None)
  {
    QuorumIff(row, roster);
    HandlerRuns(cfg, s, row, roster, now, readAt, latchId);
  }

  /**
   * A constitutional row one seat signed latches this very halt, unconfirmed, counted from its
   * receipt, on a node that has a place for it, over whatever was latched before.
   */
  lemma HaltLatches(
    cfg: Config, s: Node, row: Row, roster: seq<Member>, now: Instant, readAt: Instant, latchId: Option<Id>)
    requires s.procs == map[] && row.inv.kind == Constitutional && Authentic(row, roster)
    ensures
      var h := Handled(cfg, s, row, roster, now, readAt, latchId);
      var signers := ValidSigners(roster, row.inv, row.sigs);
      && h.sent == Relayed(cfg, s, row, SeenKey(Constitutional, row.inv.id, true))
      && h.answer == Outcome(true, true, signers, true, false, false, None)
      && h.after.journal == s.journal && h.after.tokenFile == s.tokenFile
      && (if cfg.home then
            && h.after.latch.Holds?
            && var rec := h.after.latch.rec;
               && rec.kind == Constitutional && rec.invocationId == row.inv.id && rec.validSigners == signers
               && rec.quorumThreshold == 1 && rec.ReceivedAt() == now && rec.confirmed.None? && rec.latchId == latchId
               && rec.nodeId == cfg.nodeId && rec.haltPayload == Some(row.inv.payload)
               && rec.LapsesAt() == now + MinNat(cfg.fuse, I64_MAX) * SECOND
          else h.after.latch == s.latch)
  {
    QuorumIff(row, roster);
    QuorumNeedsASeat(row, roster);
    HandlerRuns(cfg, s, row, roster, now, readAt, latchId);
  }

  /** Drills and announcements leave the latch alone. */
  lemma NonBindingOnlyTravels(
    cfg: Config, s: Node, row: Row, roster: seq<Member>, now: Instant, readAt: Instant, latchId: Option<Id>)
    requires s.procs == map[] && (row.inv.kind == Drill || row.inv.kind == Notify) && Authentic(row, roster)
    ensures
      var h := Handled(cfg, s, row, roster, now, readAt, latchId);
      && LeavesTheHalt(h) && h.sent == Relayed(cfg, s, row, SeenKey(row.inv.kind, row.inv.id, false))
      && h.answer == Outcome(true, true, ValidSigners(roster, row.inv, row.sigs), false, false, false, None)
  {
    QuorumIff(row, roster);
    HandlerRuns(cfg, s, row, roster, now, readAt, latchId);
  }

  // ---- what is put in flight is what the handler sends ---------------------

  function Deliveries(steps: seq<Step>, row: Row): seq<Delivery>
  {
    if steps == [] then []
    else (if steps[0].Send? then [Delivery(steps[0].dst, row)] else []) + Deliveries(steps[1..], row)
  }

  lemma {:induction false} DeliveriesConcat(a: seq<Step>, b: seq<Step>, row: Row)
    ensures Deliveries(a + b, row) == Deliveries(a, row) + Deliveries(b, row)
  {
    if a == [] {
      assert a + b == b;
    } else {
      assert (a + b)[1..] == a[1..] + b;
      DeliveriesConcat(a[1..], b, row);
    }
  }

  lemma {:induction false} SendAllDelivers(peers: seq<Id>, row: Row)
    ensures Deliveries(SendAll(peers), row) == ToAll(peers, row)
  {
    if peers != [] {
      SendAllDelivers(peers[1..], row);
      var rest := SendAll(peers[1..]);
      assert ([Send(0, peers[0])] + rest)[1..] == rest;
    }
  }

  lemma OneSends(step: Step, row: Row)
    requires !step.Send?
    ensures Deliveries([step], row) == []
  {
    assert [step][1..] == [];
  }

  lemma RelayDelivers(cfg: Config, first: bool, row: Row)
    ensures Deliveries(Relay(cfg, first), row) == if first then ToAll(cfg.peers, row) else []
  {
    var sends := if first then SendAll(cfg.peers) else [];
    DeliveriesConcat(sends, [End(0)], row);
    SendAllDelivers(cfg.peers, row);
    OneSends(End(0), row);
  }

  lemma ActingDelivers(cfg: Config, proc: Option<Proc>, row: Row)
    requires proc.Some? ==> proc.value.Confirming? || proc.value.Resuming?
    ensures Deliveries(Acting(cfg, proc), row) == if proc.Some? && proc.value.first then ToAll(cfg.peers, row) else []
  {
    match proc
    case Some(Confirming(_, rec, first)) =>
      DeliveriesConcat([Confirm(0, rec)], Relay(cfg, first), row);
      OneSends(Confirm(0, rec), row);
      RelayDelivers(cfg, first, row);
    case Some(Resuming(_, _, _, _, first)) =>
      DeliveriesConcat([Journal(0)] + [Remove(0)], Relay(cfg, first), row);
      DeliveriesConcat([Journal(0)], [Remove(0)], row);
      assert [Journal(0)] + [Remove(0)] == [Journal(0), Remove(0)];
      OneSends(Journal(0), row);
      OneSends(Remove(0), row);
      RelayDelivers(cfg, first, row);
    case _ =>
  }

  /** A receipt sends nothing, so a handler sends what the rest of its steps send. */
  lemma AfterReceipt(receive: Step, rest: seq<Step>, row: Row)
    requires receive.Receive?
    ensures Deliveries([receive] + rest, row) == Deliveries(rest, row)
  {
    DeliveriesConcat([receive], rest, row);
    OneSends(receive, row);
  }

  lemma SendsThenLast(cfg: Config, first: bool, last: Step, row: Row)
    requires !last.Send?
    ensures Deliveries((if first then SendAll(cfg.peers) else []) + [last], row) == if first then ToAll(cfg.peers, row) else []
  {
    DeliveriesConcat(if first then SendAll(cfg.peers) else [], [last], row);
    SendAllDelivers(cfg.peers, row);
    OneSends(last, row);
  }

  lemma DecideThenActs(cfg: Config, decide: Step, proc: Option<Proc>, row: Row)
    requires decide.Decide? && (proc.Some? ==> proc.value.Confirming? || proc.value.Resuming?)
    ensures Deliveries([decide] + Acting(cfg, proc), row) == if proc.Some? && proc.value.first then ToAll(cfg.peers, row) else []
  {
    DeliveriesConcat([decide], Acting(cfg, proc), row);
    OneSends(decide, row);
    ActingDelivers(cfg, proc, row);
  }

  lemma DecidedIsActive(latch: LatchFile, proc: Proc, at: Instant)
    requires proc.Deciding? && Decided(latch, proc, at).Some?
    ensures
      var next := Decided(latch, proc, at).value;
      (next.Confirming? || next.Resuming?) && next.first == proc.first
  {}

  lemma DecidingDelivers(
    cfg: Config, s: Node, row: Row, roster: seq<Member>, now: Instant, readAt: Instant, latchId: Option<Id>, proc: Proc)
    requires Opened(cfg, s, row, roster, now) == Some(proc) && proc.Deciding?
    ensures Deliveries(Handler(cfg, s, row, roster, now, readAt, latchId), row)
         == if proc.first && Decided(s.latch, proc, readAt).Some? then ToAll(cfg.peers, row) else []
  {
    var decided, decide := Decided(s.latch, proc, readAt), Decide(0, row, roster, readAt);
    if decided.Some? {
      DecidedIsActive(s.latch, proc, readAt);
    }
    AfterReceipt(Receive(0, row, roster, now), [decide] + Acting(cfg, decided), row);
    DecideThenActs(cfg, decide, decided, row);
  }

  /** What the node puts in flight for a row is, in order, what its handler's steps send. */
  lemma OutboxIsWhatIsSent(
    cfg: Config, s: Node, row: Row, roster: seq<Member>, now: Instant, readAt: Instant, latchId: Option<Id>)
    ensures Outbox(cfg, s, row, roster, now, readAt)
         == Deliveries(Handler(cfg, s, row, roster, now, readAt, latchId), row)
  {
    var receive, first := Receive(0, row, roster, now), FirstSight(s, KeyOf(row, roster));
    match Opened(cfg, s, row, roster, now)
    case None => AfterReceipt(receive, [], row);
    case Some(proc) =>
      if proc.Halting? {
        var last := if cfg.home then WriteHalt(0, RecordFor(cfg, proc, latchId)) else End(0);
        AfterReceipt(receive, (if first then SendAll(cfg.peers) else []) + [last], row);
        SendsThenLast(cfg, first, last, row);
      } else if proc.Deciding? {
        DecidingDelivers(cfg, s, row, roster, now, readAt, latchId, proc);
      } else {
        AfterReceipt(receive, Relay(cfg, first), row);
        RelayDelivers(cfg, first, row);
      }
  }
}
