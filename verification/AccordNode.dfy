// One node as the program keeps it: the files under its home, the in-memory loop-stop and
// event log, and the handlers that change them.  Each handler, run without interruption, is
// proved to be one particular run of the halt plane.

module AccordNode {
  import opened Prelude
  import opened Accord
  import opened HaltRecords
  import opened Releases
  import opened HaltPlane
  import opened HaltHistory
  import EventLog

  datatype Delivery = Delivery(dst: Id, row: Row)

  datatype Inaction =
    | ConfirmsUnknownHalt | HaltFuseLapsed | ResumesUnknownHalt | LatchUnreadable | NoLatchHome

  datatype Outcome = Outcome(
    authentic: bool, quorumMet: bool, validSigners: set<Id>,
    halted: bool, confirmed: bool, released: bool, refusal: Option<Inaction>)

  // ---- the run an uninterrupted handler is ---------------------------------

  function SendAll(peers: seq<Id>): seq<Step>
  {
    if peers == [] then [] else [Send(0, peers[0])] + SendAll(peers[1..])
  }

  /** Sending to every peer if the row was sighted first, and ending. */
  function Relay(cfg: Config, first: bool): seq<Step>
  {
    (if first then SendAll(cfg.peers) else []) + [End(0)]
  }

  /** The steps a decided confirmation or resumption takes. */
  function Acting(cfg: Config, proc: Option<Proc>): seq<Step>
  {
    match proc
    case Some(Confirming(_, rec, first)) => [Confirm(0, rec)] + Relay(cfg, first)
    case Some(Resuming(_, _, _, _, first)) => [Journal(0), Remove(0)] + Relay(cfg, first)
    case _ => []
  }

  /** The steps a row's handler takes, from what its receipt opened. */
  function Handler(
    cfg: Config, s: Node, row: Row, roster: seq<Member>, now: Instant, readAt: Instant, latchId: Option<Id>): seq<Step>
  {
    [Receive(0, row, roster, now)] +
    match Opened(cfg, s, row, roster, now)
    case None => []
    case Some(proc) =>
      match proc
      case Halting(_, _, _, _, _) =>
        (if FirstSight(s, KeyOf(row, roster)) then SendAll(cfg.peers) else [])
          + [if cfg.home then WriteHalt(0, RecordFor(cfg, proc, latchId)) else End(0)]
      case Deciding(_, _, _, _) => [Decide(0, row, roster, readAt)] + Acting(cfg, Decided(s.latch, proc, readAt))
      case _ => Relay(cfg, FirstSight(s, KeyOf(row, roster)))
  }

  /** What that handler sends, in order. */
  function Outbox(cfg: Config, s: Node, row: Row, roster: seq<Member>, now: Instant, readAt: Instant): seq<Delivery>
  {
    match Opened(cfg, s, row, roster, now)
    case None => []
    case Some(proc) =>
      if FirstSight(s, KeyOf(row, roster)) && (proc.Deciding? ==> Decided(s.latch, proc, readAt).Some?)
      then ToAll(cfg.peers, row) else []
  }

  /** Why a confirmation or resumption at its threshold does not take effect. */
  function WhyInactive(cfg: Config, latch: LatchFile, row: Row): Inaction
  {
    if !cfg.home then NoLatchHome
    else if latch.Unreadable? then LatchUnreadable
    else if row.inv.kind.LifecycleActive? then ResumesUnknownHalt
    else if latch.Holds? && row.inv.confirmsHaltId == Some(latch.rec.invocationId) then HaltFuseLapsed
    else ConfirmsUnknownHalt
  }

  function ToAll(peers: seq<Id>, row: Row): (r: seq<Delivery>)
    ensures |r| == |peers| && forall k | 0 <= k < |r| :: r[k] == Delivery(peers[k], row)
  {
    seq(|peers|, k requires 0 <= k < |peers| => Delivery(peers[k], row))
  }

  /** The steps of reading a token and, if it verifies, honoring it. */
  function TokenHandler(rec: HaltRecord, token: ReleaseToken, auth: Authority, at: Stamp, wallClock: Instant): seq<Step>
  {
    [ReadToken(0, token, auth, at, wallClock)] +
    if VerifyReleaseToken(rec, token, auth, at, wallClock).Ok? then [Journal(0), Remove(0), Consume(0)] else []
  }

  lemma {:induction false} RunFromConcat(cfg: Config, s: Node, a: seq<Step>, b: seq<Step>)
    ensures RunFrom(cfg, s, a + b) == RunFrom(cfg, RunFrom(cfg, s, a), b)
  {
    if b == [] {
      assert a + b == a;
    } else {
      var n := |b| - 1;
      assert (a + b)[..|a| + n] == a + b[..n];
      RunFromConcat(cfg, s, a, b[..n]);
    }
  }

  lemma RunOne(cfg: Config, s: Node, step: Step)
    ensures RunFrom(cfg, s, [step]) == Next(cfg, s, step)
  {
    assert RunFrom(cfg, s, []) == s;
    assert [step][..0] == [];
  }

  // What each of a lone handler's steps makes of the node.

  lemma NextJournal(cfg: Config, s: Node, proc: Proc)
    requires s.procs == map[0 := proc] && IsReleaser(proc) && !proc.journaled
    ensures Next(cfg, s, Journal(0)) == s.(journal := s.journal + [proc.line], procs := map[0 := Journaled(proc)])
  {
    assert Put(s.procs, 0, Some(Journaled(proc))) == map[0 := Journaled(proc)];
  }

  lemma NextDecide(cfg: Config, s: Node, proc: Proc, readAt: Instant)
    requires s.procs == map[0 := proc] && proc.Deciding?
    ensures Next(cfg, s, Decide(0, proc.row, proc.roster, readAt))
         == s.(procs := match Decided(s.latch, proc, readAt) case None => map[] case Some(p) => map[0 := p])
  {
    assert Put(s.procs, 0, None) == map[];
  }

  lemma NextConfirm(cfg: Config, s: Node, proc: Proc)
    requires s.procs == map[0 := proc] && proc.Confirming?
    ensures Next(cfg, s, Confirm(0, proc.rec))
         == s.(latch := Holds(proc.rec), procs := map[0 := Relaying(proc.row, ToPeers(cfg, proc.first))])
  {
    assert Put(s.procs, 0, Some(Relaying(proc.row, ToPeers(cfg, proc.first))))
        == map[0 := Relaying(proc.row, ToPeers(cfg, proc.first))];
  }

  lemma NextRemove(cfg: Config, s: Node, proc: Proc)
    requires s.procs == map[0 := proc] && proc.Resuming? && proc.journaled
    ensures Next(cfg, s, Remove(0)) == s.(latch := Absent, procs := map[0 := Relaying(proc.row, ToPeers(cfg, proc.first))])
  {
    assert Put(s.procs, 0, Some(Relaying(proc.row, ToPeers(cfg, proc.first))))
        == map[0 := Relaying(proc.row, ToPeers(cfg, proc.first))];
  }

  lemma NextRemoveForToken(cfg: Config, s: Node, proc: Proc)
    requires s.procs == map[0 := proc] && proc.Honoring? && proc.journaled && !s.latch.Absent?
    ensures Next(cfg, s, Remove(0)) == s.(latch := Absent, procs := map[0 := Consuming])
  {
    assert Put(s.procs, 0, Some(Consuming)) == map[0 := Consuming];
  }

  lemma NextConsume(cfg: Config, s: Node)
    requires s.procs == map[0 := Consuming]
    ensures Next(cfg, s, Consume(0)) == s.(tokenFile := None, procs := map[])
  {
    assert Put(s.procs, 0, None) == map[];
  }

  lemma NextEnd(cfg: Config, s: Node, proc: Proc)
    requires s.procs == map[0 := proc] && Todo(proc) == multiset{}
    requires proc.Relaying? || (proc.Halting? && !cfg.home)
    ensures Next(cfg, s, End(0)) == s.(procs := map[])
  {
    assert Put(s.procs, 0, None) == map[];
  }

  lemma NextWriteHalt(cfg: Config, s: Node, proc: Proc, latchId: Option<Id>)
    requires cfg.home && s.procs == map[0 := proc] && proc.Halting? && proc.todo == multiset{}
    ensures Next(cfg, s, WriteHalt(0, RecordFor(cfg, proc, latchId)))
         == s.(latch := Holds(RecordFor(cfg, proc, latchId)), procs := map[])
  {
    assert Put(s.procs, 0, None) == map[];
  }

  lemma NextSend(cfg: Config, s: Node, proc: Proc, dst: Id)
    requires s.procs == map[0 := proc] && dst in Todo(proc)
    ensures Next(cfg, s, Send(0, dst)) == s.(procs := map[0 := Sent(proc, dst)])
  {
    assert Put(s.procs, 0, Some(Sent(proc, dst))) == map[0 := Sent(proc, dst)];
  }

  lemma TwoSteps(cfg: Config, s: Node, a: Step, b: Step)
    ensures RunFrom(cfg, s, [a, b]) == Next(cfg, Next(cfg, s, a), b)
  {
    RunFromConcat(cfg, s, [a], [b]);
    assert [a] + [b] == [a, b];
    RunOne(cfg, s, a);
    RunOne(cfg, Next(cfg, s, a), b);
  }

  function WithTodo(proc: Proc, todo: multiset<Id>): Proc
    requires proc.Halting? || proc.Relaying?
  {
    match proc
    case Halting(row, signers, m, received, _) => Halting(row, signers, m, received, todo)
    case Relaying(row, _) => Relaying(row, todo)
  }

  /** Sending to every peer in turn empties what is left to send and touches nothing else. */
  lemma {:induction false} SendAllRuns(cfg: Config, s: Node, proc: Proc, peers: seq<Id>)
    requires s.procs == map[0 := proc] && (proc.Halting? || proc.Relaying?) && Todo(proc) == multiset(peers)
    ensures RunFrom(cfg, s, SendAll(peers)) == s.(procs := map[0 := WithTodo(proc, multiset{})])
    decreases |peers|
  {
    if peers == [] {
      assert RunFrom(cfg, s, []) == s;
    } else {
      assert peers == [peers[0]] + peers[1..];
      RunFromConcat(cfg, s, [Send(0, peers[0])], SendAll(peers[1..]));
      RunOne(cfg, s, Send(0, peers[0]));
      NextSend(cfg, s, proc, peers[0]);
      assert multiset(peers) - multiset{peers[0]} == multiset(peers[1..]);
      SendAllRuns(cfg, s.(procs := map[0 := Sent(proc, peers[0])]), Sent(proc, peers[0]), peers[1..]);
    }
  }

  // ---- what a row does, and what is answered -------------------------------

  function LatchAfter(
    cfg: Config, s: Node, row: Row, roster: seq<Member>, now: Instant, readAt: Instant, latchId: Option<Id>): LatchFile
  {
    if !cfg.home || !QuorumMet(row, roster) then s.latch
    else if row.inv.kind.Constitutional? then
      Holds(NewRecord(Constitutional, row.inv.id, ValidSigners(roster, row.inv, row.sigs),
                      HaltPlaneThreshold(row.inv.kind, |roster|), now, cfg.nodeId, row.inv.payload, latchId, cfg.fuse))
    else if FreshlyConfirms(s.latch, row, readAt) then Holds(Confirmed(s.latch.rec, row, roster, readAt))
    else if Resumes(s.latch, row) then Absent
    else s.latch
  }

  function JournalAfter(cfg: Config, s: Node, row: Row, roster: seq<Member>, now: Instant, readAt: Instant): seq<Line>
  {
    if cfg.home && QuorumMet(row, roster) && Resumes(s.latch, row) then
      s.journal + [HonoredOverWire(now, row.inv.id, ValidSigners(roster, row.inv, row.sigs),
                                   HaltPlaneThreshold(row.inv.kind, |roster|), s.latch.rec)]
    else s.journal
  }

  /** The answer: what took effect, or for a confirmation or resumption at its threshold, why not. */
  function OutcomeOf(cfg: Config, s: Node, row: Row, roster: seq<Member>, readAt: Instant): Outcome
  {
    var quorum := QuorumMet(row, roster);
    var confirmed := cfg.home && quorum && row.inv.kind.LifecycleConfirmed? && NamesStanding(s.latch, row, readAt);
    var released := cfg.home && quorum && Resumes(s.latch, row);
    Outcome(Authentic(row, roster), quorum, ValidSigners(roster, row.inv, row.sigs),
            quorum && row.inv.kind.Constitutional?, confirmed, released,
            if quorum && IsLifecycle(row.inv.kind) && !confirmed && !released
            then Some(WhyInactive(cfg, s.latch, row)) else None)
  }

  // ---- the node ------------------------------------------------------------

  class Server {
    const cfg: Config
    var latch: LatchFile
    var journal: seq<Line>
    var tokenFile: Option<ReleaseToken>
    var seen: set<SeenKey>
    var events: seq<EventLog.Event>
    var outbox: seq<Delivery>

    constructor (cfg: Config)
      ensures this.cfg == cfg && State() == FirstBoot && outbox == []
    {
      this.cfg := cfg;
      latch, journal, tokenFile, seen, events, outbox := Absent, [], None, {}, [], [];
    }

    /** The node with no handler part-way. */
    ghost function State(): Node
      reads this
    {
      Node(latch, journal, tokenFile, seen, events, map[])
    }

    /** Idempotent and bounded; answers whether the event was newly recorded. */
    method RecordEvent(event: EventLog.Event) returns (newly: bool)
      modifies this`events
      ensures events == EventLog.Record(old(events), event)
      ensures newly <==> !EventLog.Known(old(events), event)
    {
      for i := 0 to |events|
        invariant forall k | 0 <= k < i :: !EventLog.Same(events[k], event)
      {
        if EventLog.Same(events[i], event) {
          return false;
        }
      }
      if |events| >= EventLog.MAX_ACCORD_EVENTS {
        var overflow := |events| + 1 - EventLog.MAX_ACCORD_EVENTS;
        events := events[overflow..];
      }
      events := events + [event];
      return true;
    }

    /** The surfaced events by type, most recent first. */
    method ListEvents() returns (drills: seq<EventLog.Event>, announcements: seq<EventLog.Event>)
      ensures drills == EventLog.Listed(events, EventLog.DrillEvent)
      ensures announcements == EventLog.Listed(events, EventLog.AnnounceEvent)
    {
      drills, announcements := [], [];
      var i := |events|;
      while i > 0
        invariant 0 <= i <= |events|
        invariant EventLog.ListedFrom(events, i, EventLog.DrillEvent) == drills
        invariant EventLog.ListedFrom(events, i, EventLog.AnnounceEvent) == announcements
      {
        i := i - 1;
        match events[i].eventType
        case DrillEvent => drills := drills + [events[i]];
        case AnnounceEvent => announcements := announcements + [events[i]];
      }
      EventLog.ListedSplits(events, 0, EventLog.DrillEvent);
      EventLog.ListedSplits(events, 0, EventLog.AnnounceEvent);
    }

    method HaltStatus(now: Instant) returns (status: Status)
      ensures status == if cfg.home then StatusAt(latch, now) else NotHalted(false)
    {
      if !cfg.home {
        return NotHalted(false);
      }
      match latch
      case Absent => status := NotHalted(false);
      case Unreadable => status := Unknown;
      case Holds(rec) =>
        match rec.StandingAt(now)
        case InEffect(_) => status := Halted;
        case Lapsed(_) => status := NotHalted(true);
    }

    method ReplicateToPeers(row: Row)
      modifies this`outbox
      ensures outbox == old(outbox) + ToAll(cfg.peers, row)
    {
      for k := 0 to |cfg.peers|
        invariant outbox == old(outbox) + ToAll(cfg.peers[..k], row)
      {
        outbox := outbox + [Delivery(cfg.peers[k], row)];
      }
      assert cfg.peers[..|cfg.peers|] == cfg.peers;
    }

    /** The sighting: clears an overflowing set, then inserts; answers whether the key was new. */
    method Sight(key: SeenKey) returns (first: bool)
      modifies this`seen
      ensures first == FirstSight(old(State()), key)
      ensures seen == Sighted(old(State()), key)
    {
      if |seen| >= MAX_SEEN_INVOCATIONS {
        seen := {};
      }
      first := key !in seen;
      seen := seen + {key};
    }

    method Surface(row: Row, roster: seq<Member>, now: Instant)
      modifies this`events
      ensures events == Surfaced(old(events), row, roster, now)
    {
      var signers := ValidSigners(roster, row.inv, row.sigs);
      if row.inv.kind.Drill? && QuorumMet(row, roster) {
        var _ := RecordEvent(EventLog.Event(
          EventLog.DrillEvent, row.inv.id, now, signers, HaltPlaneThreshold(Drill, |roster|), None));
      } else if row.inv.kind.Notify? {
        var message := None;
        if row.message.Some? && OfText(row.message.value) == row.inv.payload {
          message := row.message;
        }
        var _ := RecordEvent(EventLog.Event(EventLog.AnnounceEvent, row.inv.id, now, signers, 1, message));
      }
    }

    /** Journal first, then remove; a latch already gone is no error here. */
    method ReleaseHalt(line: Line)
      modifies this`journal, this`latch
      ensures journal == old(journal) + [line] && latch == Absent
    {
      journal := journal + [line];
      latch := Absent;
    }

    /**
     * The one path every accord row takes.  Run to its end without another handler or a crash
     * in between, it leaves the node where the halt plane's steps for that row leave it, and
     * puts in flight exactly what those steps send.
     */
    method ReplicateAndMaybeHalt(row: Row, roster: seq<Member>, now: Instant, readAt: Instant, latchId: Option<Id>)
      returns (outcome: Outcome)
      modifies this
      ensures State() == RunFrom(cfg, old(State()), Handler(cfg, old(State()), row, roster, now, readAt, latchId))
      ensures outbox == old(outbox) + Outbox(cfg, old(State()), row, roster, now, readAt)
      ensures outcome == OutcomeOf(cfg, old(State()), row, roster, readAt)
    {
      ghost var s := State();
      var signers := ValidSigners(roster, row.inv, row.sigs);
      var m := HaltPlaneThreshold(row.inv.kind, |roster|);
      var quorum := |signers| >= m;
      QuorumIsAuthentic(row, roster);
      HandlerRuns(cfg, s, row, roster, now, readAt, latchId);
      if signers == {} {
        return Outcome(false, quorum, signers, false, false, false, None);
      }
      Surface(row, roster, now);
      var binding := quorum
        && (row.inv.kind.Constitutional? || row.inv.kind.LifecycleConfirmed? || row.inv.kind.LifecycleActive?);
      var first := Sight(SeenKey(row.inv.kind, row.inv.id, binding));
      outcome := Act(s, row, roster, signers, m, first, now, readAt, latchId);
    }

    /** What an authentic row does once surfaced and sighted. */
    method Act(
      ghost s: Node, row: Row, roster: seq<Member>, signers: set<Id>, m: nat, first: bool,
      now: Instant, readAt: Instant, latchId: Option<Id>) returns (outcome: Outcome)
      requires Authentic(row, roster) && s.latch == latch && s.journal == journal
      requires signers == ValidSigners(roster, row.inv, row.sigs) && m == HaltPlaneThreshold(row.inv.kind, |roster|)
      requires first == FirstSight(s, KeyOf(row, roster))
      modifies this`latch, this`journal, this`outbox
      ensures latch == LatchAfter(cfg, s, row, roster, now, readAt, latchId)
      ensures journal == JournalAfter(cfg, s, row, roster, now, readAt)
      ensures outbox == old(outbox) + Outbox(cfg, s, row, roster, now, readAt)
      ensures outcome == OutcomeOf(cfg, s, row, roster, readAt)
    {
      var quorum := |signers| >= m;
      outcome := Outcome(true, quorum, signers, false, false, false, None);
      if row.inv.kind.Constitutional? && quorum {
        HonorHalt(row, signers, m, first, now, latchId);
        outcome := outcome.(halted := true);
      } else if row.inv.kind.LifecycleConfirmed? && quorum {
        var r := HonorConfirmation(row, signers, first, readAt);
        outcome := outcome.(confirmed := r.Ok?, refusal := if r.Ok? then None else Some(r.error));
      } else if row.inv.kind.LifecycleActive? && quorum {
        var r := HonorResumption(row, signers, m, first, now);
        outcome := outcome.(released := r.Ok?, refusal := if r.Ok? then None else Some(r.error));
      } else if first {
        ReplicateToPeers(row);
      }
    }

    /** Relay first, latch second. */
    method HonorHalt(row: Row, signers: set<Id>, m: nat, first: bool, now: Instant, latchId: Option<Id>)
      modifies this`outbox, this`latch
      ensures outbox == old(outbox) + if first then ToAll(cfg.peers, row) else []
      ensures latch == if cfg.home then Holds(NewRecord(Constitutional, row.inv.id, signers, m, now,
                                                        cfg.nodeId, row.inv.payload, latchId, cfg.fuse)) else old(latch)
    {
      if first {
        ReplicateToPeers(row);
      }
      if cfg.home {
        latch := Holds(NewRecord(Constitutional, row.inv.id, signers, m, now,
                                 cfg.nodeId, row.inv.payload, latchId, cfg.fuse));
      }
    }

    /** Confirm the halt the row names if it is in effect; once is enough, and only then is it relayed. */
    method HonorConfirmation(row: Row, signers: set<Id>, first: bool, readAt: Instant) returns (r: Result<(), Inaction>)
      requires row.inv.kind.LifecycleConfirmed?
      modifies this`outbox, this`latch
      ensures r == if cfg.home && NamesStanding(old(latch), row, readAt) then Ok(()) else Err(WhyInactive(cfg, old(latch), row))
      ensures
        if cfg.home && FreshlyConfirms(old(latch), row, readAt) then
          && latch == Holds(old(latch).rec.(confirmed := Some(HaltConfirmation(row.inv.id, signers, At(readAt)))))
          && outbox == old(outbox) + if first then ToAll(cfg.peers, row) else []
        else latch == old(latch) && outbox == old(outbox)
    {
      if !cfg.home {
        return Err(NoLatchHome);
      }
      match latch
      case Absent => return Err(ConfirmsUnknownHalt);
      case Unreadable => return Err(LatchUnreadable);
      case Holds(rec) =>
        if row.inv.confirmsHaltId != Some(rec.invocationId) {
          return Err(ConfirmsUnknownHalt);
        }
        if !rec.InEffectAt(readAt) {
          return Err(HaltFuseLapsed);
        }
        if rec.confirmed.None? {
          latch := Holds(rec.(confirmed := Some(HaltConfirmation(row.inv.id, signers, At(readAt)))));
          if first {
            ReplicateToPeers(row);
          }
        }
        return Ok(());
    }

    /** Release the halt the row names, journaling it first. */
    method HonorResumption(row: Row, signers: set<Id>, m: nat, first: bool, now: Instant) returns (r: Result<(), Inaction>)
      requires row.inv.kind.LifecycleActive?
      modifies this`outbox, this`latch, this`journal
      ensures r == if cfg.home && Resumes(old(latch), row) then Ok(()) else Err(WhyInactive(cfg, old(latch), row))
      ensures
        if r.Ok? then
          && latch == Absent && journal == old(journal) + [HonoredOverWire(now, row.inv.id, signers, m, old(latch).rec)]
          && outbox == old(outbox) + if first then ToAll(cfg.peers, row) else []
        else latch == old(latch) && journal == old(journal) && outbox == old(outbox)
    {
      if !cfg.home {
        return Err(NoLatchHome);
      }
      match latch
      case Absent => return Err(ResumesUnknownHalt);
      case Unreadable => return Err(LatchUnreadable);
      case Holds(rec) =>
        if row.inv.resumesHaltId != Some(rec.invocationId) {
          return Err(ResumesUnknownHalt);
        }
        ReleaseHalt(HonoredOverWire(now, row.inv.id, signers, m, rec));
        if first {
          ReplicateToPeers(row);
        }
        return Ok(());
    }

    // ---- the offline token -------------------------------------------------

    /** A refusal is journaled, but not the same refusal twice in a row. */
    method JournalRefusal(rec: HaltRecord, token: ReleaseToken, at: Stamp, reason: Refusal)
      modifies this`journal
      ensures journal == JournalRejection(old(journal), Refused(at, reason, token, rec.invocationId, rec.latchId))
    {
      if |journal| > 0 {
        var last := journal[|journal| - 1];
        if last.Refused? && last.token == token && last.reason == reason {
          return;
        }
      }
      journal := journal + [Refused(at, reason, token, rec.invocationId, rec.latchId)];
    }

    /** Verify a token against a record and, on success, journal, remove the latch, consume the file. */
    method HonorReleaseToken(rec: HaltRecord, token: ReleaseToken, auth: Authority, at: Stamp, wallClock: Instant)
      returns (r: Result<Verdict, Option<Refusal>>)
      modifies this`journal, this`latch, this`tokenFile
      ensures
        match VerifyReleaseToken(rec, token, auth, at, wallClock)
        case Err(reason) =>
          && r == Err(Some(reason)) && latch == old(latch) && tokenFile == old(tokenFile)
          && journal == JournalRejection(old(journal), Refused(at, reason, token, rec.invocationId, rec.latchId))
        case Ok(v) =>
          var line := Honored(at, v, rec, token);
          if old(latch).Absent? then
            r == Err(None) && latch == Absent && tokenFile == old(tokenFile)
            && journal == old(journal) + [line, RemovalFailed(at)]
          else
            r == Ok(v) && latch == Absent && tokenFile == None && journal == old(journal) + [line]
      ensures old(latch) == Holds(rec) ==>
        State() == RunFrom(cfg, old(State()), TokenHandler(rec, token, auth, at, wallClock))
    {
      ghost var s := State();
      match VerifyReleaseToken(rec, token, auth, at, wallClock) {
        case Err(reason) =>
          JournalRefusal(rec, token, at, reason);
          r := Err(Some(reason));
        case Ok(v) =>
          journal := journal + [Honored(at, v, rec, token)];
          if latch.Absent? {
            journal := journal + [RemovalFailed(at)];
            r := Err(None);
          } else {
            latch := Absent;
            tokenFile := None;
            r := Ok(v);
          }
      }
      if s.latch == Holds(rec) {
        TokenRuns(cfg, s, rec, token, auth, at, wallClock);
      }
    }

    /** Boot: read the latch, consume a presented token, and say what stands.  Never refuses. */
    method LoadHaltLatch(auth: Authority, at: Stamp, wallClock: Instant)
      returns (r: Result<Option<HaltRecord>, ()>)
      modifies this`journal, this`latch, this`tokenFile
      ensures r.Err? <==> old(latch).Unreadable?
      ensures r.Ok? ==> (if r.value.Some? then latch == Holds(r.value.value) else latch == Absent)
      ensures latch != old(latch) ==>
        && old(latch).Holds? && old(tokenFile).Some? && latch == Absent && tokenFile == None
        && VerifyReleaseToken(old(latch).rec, old(tokenFile).value, auth, at, wallClock).Ok?
      ensures !(old(latch).Holds? && old(tokenFile).Some?) ==> State() == old(State())
      ensures old(latch).Holds? && old(tokenFile).Some? ==>
        State() == RunFrom(cfg, old(State()), TokenHandler(old(latch).rec, old(tokenFile).value, auth, at, wallClock))
    {
      match latch
      case Absent => r := Ok(None);
      case Unreadable => r := Err(());
      case Holds(rec) =>
        if tokenFile.Some? {
          var v := HonorReleaseToken(rec, tokenFile.value, auth, at, wallClock);
          if v.Ok? {
            return Ok(None);
          }
        }
        r := Ok(Some(rec));
    }
  }

  // ---- the handlers are runs -----------------------------------------------

  lemma ReceiveRuns(cfg: Config, s: Node, row: Row, roster: seq<Member>, now: Instant, rest: seq<Step>)
    requires s.procs == map[]
    ensures RunFrom(cfg, s, [Receive(0, row, roster, now)] + rest)
         == RunFrom(cfg, Effect(cfg, s, Receive(0, row, roster, now)), rest)
    ensures Effect(cfg, s, Receive(0, row, roster, now)).procs
         == match Opened(cfg, s, row, roster, now) case None => map[] case Some(proc) => map[0 := proc]
  {
    RunFromConcat(cfg, s, [Receive(0, row, roster, now)], rest);
    RunOne(cfg, s, Receive(0, row, roster, now));
  }

  /** Relaying if first sighted, then one last step. */
  lemma RelayThen(cfg: Config, s: Node, proc: Proc, first: bool, last: Step)
    requires s.procs == map[0 := proc] && (proc.Halting? || proc.Relaying?) && Todo(proc) == ToPeers(cfg, first)
    ensures RunFrom(cfg, s, (if first then SendAll(cfg.peers) else []) + [last])
         == Next(cfg, s.(procs := map[0 := WithTodo(proc, multiset{})]), last)
  {
    var sends := if first then SendAll(cfg.peers) else [];
    RunFromConcat(cfg, s, sends, [last]);
    if first {
      SendAllRuns(cfg, s, proc, cfg.peers);
    } else {
      assert RunFrom(cfg, s, []) == s;
      assert WithTodo(proc, multiset{}) == proc;
    }
    RunOne(cfg, s.(procs := map[0 := WithTodo(proc, multiset{})]), last);
  }

  lemma QuorumIsAuthentic(row: Row, roster: seq<Member>)
    ensures QuorumMet(row, roster) ==> Authentic(row, roster)
  {
    if QuorumMet(row, roster) {
      QuorumNeedsASeat(row, roster);
    }
  }

  /** What a sighting leaves besides its handler. */
  function AfterSight(s: Node, row: Row, roster: seq<Member>, now: Instant): Node
  {
    s.(seen := Sighted(s, KeyOf(row, roster)), events := Surfaced(s.events, row, roster, now))
  }

  lemma ForgedRuns(
    cfg: Config, s: Node, row: Row, roster: seq<Member>, now: Instant, readAt: Instant, latchId: Option<Id>)
    requires s.procs == map[] && !Authentic(row, roster)
    ensures RunFrom(cfg, s, Handler(cfg, s, row, roster, now, readAt, latchId)) == s
  {
    RunOne(cfg, s, Receive(0, row, roster, now));
    assert Handler(cfg, s, row, roster, now, readAt, latchId) == [Receive(0, row, roster, now)];
    assert Put(s.procs, 0, None) == map[];
  }

  lemma HaltRuns(
    cfg: Config, s: Node, row: Row, roster: seq<Member>, now: Instant, readAt: Instant, latchId: Option<Id>)
    requires s.procs == map[] && Authentic(row, roster)
    requires row.inv.kind.Constitutional? && QuorumMet(row, roster)
    ensures
      var proc := Opened(cfg, s, row, roster, now).value;
      RunFrom(cfg, s, Handler(cfg, s, row, roster, now, readAt, latchId))
        == AfterSight(s, row, roster, now).(latch := if cfg.home then Holds(RecordFor(cfg, proc, latchId)) else s.latch)
  {
    var first, proc := FirstSight(s, KeyOf(row, roster)), Opened(cfg, s, row, roster, now).value;
    var last := if cfg.home then WriteHalt(0, RecordFor(cfg, proc, latchId)) else End(0);
    var rest := (if first then SendAll(cfg.peers) else []) + [last];
    ReceiveRuns(cfg, s, row, roster, now, rest);
    HaltSendsAndLatches(cfg, Effect(cfg, s, Receive(0, row, roster, now)), proc, first, latchId);
  }

  lemma HaltSendsAndLatches(cfg: Config, s: Node, proc: Proc, first: bool, latchId: Option<Id>)
    requires s.procs == map[0 := proc] && proc.Halting? && proc.todo == ToPeers(cfg, first)
    ensures
      var last := if cfg.home then WriteHalt(0, RecordFor(cfg, proc, latchId)) else End(0);
      RunFrom(cfg, s, (if first then SendAll(cfg.peers) else []) + [last])
        == s.(latch := if cfg.home then Holds(RecordFor(cfg, proc, latchId)) else s.latch, procs := map[])
  {
    var last := if cfg.home then WriteHalt(0, RecordFor(cfg, proc, latchId)) else End(0);
    RelayThen(cfg, s, proc, first, last);
    var done := WithTodo(proc, multiset{});
    if cfg.home {
      NextWriteHalt(cfg, s.(procs := map[0 := done]), done, latchId);
    } else {
      NextEnd(cfg, s.(procs := map[0 := done]), done);
    }
  }

  lemma RelayEnds(cfg: Config, s: Node, proc: Proc, first: bool)
    requires s.procs == map[0 := proc] && proc.Relaying? && proc.todo == ToPeers(cfg, first)
    ensures RunFrom(cfg, s, Relay(cfg, first)) == s.(procs := map[])
  {
    RelayThen(cfg, s, proc, first, End(0));
    NextEnd(cfg, s.(procs := map[0 := WithTodo(proc, multiset{})]), WithTodo(proc, multiset{}));
  }

  lemma ResumeRuns(cfg: Config, s: Node, proc: Proc)
    requires s.procs == map[0 := proc] && proc.Resuming? && !proc.journaled
    ensures RunFrom(cfg, s, [Journal(0), Remove(0)] + Relay(cfg, proc.first))
         == s.(journal := s.journal + [proc.line], latch := Absent, procs := map[])
  {
    RunFromConcat(cfg, s, [Journal(0), Remove(0)], Relay(cfg, proc.first));
    TwoSteps(cfg, s, Journal(0), Remove(0));
    NextJournal(cfg, s, proc);
    var s1 := s.(journal := s.journal + [proc.line], procs := map[0 := Journaled(proc)]);
    NextRemove(cfg, s1, Journaled(proc));
    var sending := Relaying(proc.row, ToPeers(cfg, proc.first));
    RelayEnds(cfg, s1.(latch := Absent, procs := map[0 := sending]), sending, proc.first);
  }

  lemma ConfirmRuns(cfg: Config, s: Node, proc: Proc)
    requires s.procs == map[0 := proc] && proc.Confirming?
    ensures RunFrom(cfg, s, [Confirm(0, proc.rec)] + Relay(cfg, proc.first)) == s.(latch := Holds(proc.rec), procs := map[])
  {
    RunFromConcat(cfg, s, [Confirm(0, proc.rec)], Relay(cfg, proc.first));
    RunOne(cfg, s, Confirm(0, proc.rec));
    NextConfirm(cfg, s, proc);
    var sending := Relaying(proc.row, ToPeers(cfg, proc.first));
    RelayEnds(cfg, s.(latch := Holds(proc.rec), procs := map[0 := sending]), sending, proc.first);
  }

  /** A handler that decides, run to its end: the confirmation written, the latch released, or nothing. */
  lemma DecidingRuns(cfg: Config, s: Node, proc: Proc, readAt: Instant)
    requires s.procs == map[0 := proc] && proc.Deciding?
    ensures
      RunFrom(cfg, s, [Decide(0, proc.row, proc.roster, readAt)] + Acting(cfg, Decided(s.latch, proc, readAt)))
        == match Decided(s.latch, proc, readAt)
           case Some(Confirming(_, rec, _)) => s.(latch := Holds(rec), procs := map[])
           case Some(Resuming(_, _, line, _, _)) => s.(journal := s.journal + [line], latch := Absent, procs := map[])
           case _ => s.(procs := map[])
  {
    var decided := Decided(s.latch, proc, readAt);
    RunFromConcat(cfg, s, [Decide(0, proc.row, proc.roster, readAt)], Acting(cfg, decided));
    RunOne(cfg, s, Decide(0, proc.row, proc.roster, readAt));
    NextDecide(cfg, s, proc, readAt);
    if decided.None? {
      assert RunFrom(cfg, s.(procs := map[]), []) == s.(procs := map[]);
    } else if decided.value.Confirming? {
      ConfirmRuns(cfg, s.(procs := map[0 := decided.value]), decided.value);
    } else {
      ResumeRuns(cfg, s.(procs := map[0 := decided.value]), decided.value);
    }
  }

  lemma LifecycleRuns(
    cfg: Config, s: Node, row: Row, roster: seq<Member>, now: Instant, readAt: Instant, latchId: Option<Id>)
    requires s.procs == map[] && Authentic(row, roster) && IsLifecycle(row.inv.kind) && QuorumMet(row, roster)
    ensures
      var s' := RunFrom(cfg, s, Handler(cfg, s, row, roster, now, readAt, latchId));
      var seen := AfterSight(s, row, roster, now);
      if cfg.home && FreshlyConfirms(s.latch, row, readAt) then
        s' == seen.(latch := Holds(Confirmed(s.latch.rec, row, roster, readAt)))
      else if cfg.home && Resumes(s.latch, row) then
        s' == seen.(latch := Absent, journal := s.journal + [HonoredOverWire(now, row.inv.id, ValidSigners(roster, row.inv, row.sigs),
                      HaltPlaneThreshold(row.inv.kind, |roster|), s.latch.rec)])
      else s' == seen
  {
    var s1 := Effect(cfg, s, Receive(0, row, roster, now));
    match Opened(cfg, s, row, roster, now)
    case None =>
      ReceiveRuns(cfg, s, row, roster, now, []);
      assert RunFrom(cfg, s1, []) == s1;
    case Some(proc) =>
      ReceiveRuns(cfg, s, row, roster, now, [Decide(0, row, roster, readAt)] + Acting(cfg, Decided(s.latch, proc, readAt)));
      DecidingRuns(cfg, s1, proc, readAt);
  }

  /** Any other row's handler only relays, if the row was sighted first. */
  lemma OtherHandler(
    cfg: Config, s: Node, row: Row, roster: seq<Member>, now: Instant, readAt: Instant, latchId: Option<Id>)
    requires Authentic(row, roster) && !((row.inv.kind.Constitutional? || IsLifecycle(row.inv.kind)) && QuorumMet(row, roster))
    ensures
      var own := Opened(cfg, s, row, roster, now);
      && own == (if FirstSight(s, KeyOf(row, roster)) then Some(Relaying(row, multiset(cfg.peers))) else None)
      && Handler(cfg, s, row, roster, now, readAt, latchId)
         == [Receive(0, row, roster, now)] + if own.Some? then Relay(cfg, true) else []
  {}

  lemma OtherRuns(
    cfg: Config, s: Node, row: Row, roster: seq<Member>, now: Instant, readAt: Instant, latchId: Option<Id>)
    requires s.procs == map[] && Authentic(row, roster)
    requires !((row.inv.kind.Constitutional? || IsLifecycle(row.inv.kind)) && QuorumMet(row, roster))
    ensures RunFrom(cfg, s, Handler(cfg, s, row, roster, now, readAt, latchId)) == AfterSight(s, row, roster, now)
  {
    var s1, own := Effect(cfg, s, Receive(0, row, roster, now)), Opened(cfg, s, row, roster, now);
    OtherHandler(cfg, s, row, roster, now, readAt, latchId);
    ReceiveRuns(cfg, s, row, roster, now, if own.Some? then Relay(cfg, true) else []);
    if own.Some? {
      RelayEnds(cfg, s1, own.value, true);
    } else {
      assert RunFrom(cfg, s1, []) == s1;
    }
  }

  /** Every handler, run to its end. */
  lemma HandlerRuns(
    cfg: Config, s: Node, row: Row, roster: seq<Member>, now: Instant, readAt: Instant, latchId: Option<Id>)
    requires s.procs == map[]
    ensures RunFrom(cfg, s, Handler(cfg, s, row, roster, now, readAt, latchId)) ==
      if !Authentic(row, roster) then s
      else AfterSight(s, row, roster, now).(
        latch := LatchAfter(cfg, s, row, roster, now, readAt, latchId),
        journal := JournalAfter(cfg, s, row, roster, now, readAt))
  {
    if !Authentic(row, roster) {
      ForgedRuns(cfg, s, row, roster, now, readAt, latchId);
    } else if row.inv.kind.Constitutional? && QuorumMet(row, roster) {
      HaltRuns(cfg, s, row, roster, now, readAt, latchId);
    } else if IsLifecycle(row.inv.kind) && QuorumMet(row, roster) {
      LifecycleRuns(cfg, s, row, roster, now, readAt, latchId);
    } else {
      OtherRuns(cfg, s, row, roster, now, readAt, latchId);
    }
  }

  lemma HonorRuns(cfg: Config, s: Node, proc: Proc)
    requires s.procs == map[0 := proc] && proc.Honoring? && !proc.journaled && !s.latch.Absent?
    ensures RunFrom(cfg, s, [Journal(0), Remove(0)] + [Consume(0)])
         == s.(journal := s.journal + [proc.line], latch := Absent, tokenFile := None, procs := map[])
  {
    RunFromConcat(cfg, s, [Journal(0), Remove(0)], [Consume(0)]);
    TwoSteps(cfg, s, Journal(0), Remove(0));
    NextJournal(cfg, s, proc);
    var s1 := s.(journal := s.journal + [proc.line], procs := map[0 := Journaled(proc)]);
    NextRemoveForToken(cfg, s1, Journaled(proc));
    var s2 := s1.(latch := Absent, procs := map[0 := Consuming]);
    RunOne(cfg, s2, Consume(0));
    NextConsume(cfg, s2);
  }

  lemma TokenRuns(
    cfg: Config, s: Node, rec: HaltRecord, token: ReleaseToken, auth: Authority, at: Stamp, wallClock: Instant)
    requires s.procs == map[] && s.latch == Holds(rec)
    ensures
      RunFrom(cfg, s, TokenHandler(rec, token, auth, at, wallClock))
        == match VerifyReleaseToken(rec, token, auth, at, wallClock)
           case Err(reason) =>
             s.(journal := JournalRejection(s.journal, Refused(at, reason, token, rec.invocationId, rec.latchId)))
           case Ok(v) => s.(journal := s.journal + [Honored(at, v, rec, token)], latch := Absent, tokenFile := None)
  {
    var read := ReadToken(0, token, auth, at, wallClock);
    RunOne(cfg, s, read);
    match VerifyReleaseToken(rec, token, auth, at, wallClock)
    case Err(_) =>
      assert Put(s.procs, 0, None) == map[];
      assert TokenHandler(rec, token, auth, at, wallClock) == [read];
    case Ok(v) =>
      var proc := Honoring(rec, Honored(at, v, rec, token), at, false);
      assert Put(s.procs, 0, Some(proc)) == map[0 := proc];
      assert TokenHandler(rec, token, auth, at, wallClock) == [read] + ([Journal(0), Remove(0)] + [Consume(0)]);
      RunFromConcat(cfg, s, [read], [Journal(0), Remove(0)] + [Consume(0)]);
      HonorRuns(cfg, s.(procs := map[0 := proc]), proc);
  }

  /** A confirmation seen before that takes effect now confirms, and is relayed to nobody. */
  lemma SeenConfirms(cfg: Config, s: Node, conf: Row, roster: seq<Member>, t: Instant, latchId: Option<Id>)
    requires s.procs == map[] && cfg.home && conf.inv.kind.LifecycleConfirmed? && QuorumMet(conf, roster)
    requires KeyOf(conf, roster) in s.seen && |s.seen| < MAX_SEEN_INVOCATIONS && FreshlyConfirms(s.latch, conf, t)
    ensures Outbox(cfg, s, conf, roster, t, t) == []
    ensures forall at :: StatusAt(RunFrom(cfg, s, Handler(cfg, s, conf, roster, t, t, latchId)).latch, at).Halted?
  {
    QuorumNeedsASeat(conf, roster);
    LifecycleRuns(cfg, s, conf, roster, t, t, latchId);
  }

  /**
   * A confirmation that arrives before its halt is refused, and the same one arriving again
   * afterwards confirms: so a node may hold a confirmed halt it never told its peers about.
   */
  lemma RefusedThenConfirms(
    cfg: Config, halt: Row, conf: Row, roster: seq<Member>, t: Instant, latchId: Option<Id>)
    requires cfg.home && 0 < cfg.fuse <= I64_MAX
    requires halt.inv.kind.Constitutional? && QuorumMet(halt, roster)
    requires conf.inv.kind.LifecycleConfirmed? && QuorumMet(conf, roster) && conf.inv.confirmsHaltId == Some(halt.inv.id)
    ensures
      var s1 := RunFrom(cfg, FirstBoot, Handler(cfg, FirstBoot, conf, roster, t, t, latchId));
      var s2 := RunFrom(cfg, s1, Handler(cfg, s1, halt, roster, t, t, latchId));
      var s3 := RunFrom(cfg, s2, Handler(cfg, s2, conf, roster, t, t, latchId));
      && Outbox(cfg, FirstBoot, conf, roster, t, t) == [] == Outbox(cfg, s2, conf, roster, t, t)
      && s1.latch == Absent && (forall at :: StatusAt(s3.latch, at).Halted?)
  {
    QuorumNeedsASeat(conf, roster);
    QuorumNeedsASeat(halt, roster);
    LifecycleRuns(cfg, FirstBoot, conf, roster, t, t, latchId);
    var s1 := AfterSight(FirstBoot, conf, roster, t);
    HaltRuns(cfg, s1, halt, roster, t, t, latchId);
    var s2 := AfterSight(s1, halt, roster, t).(
      latch := Holds(RecordFor(cfg, Opened(cfg, s1, halt, roster, t).value, latchId)));
    assert KeyOf(conf, roster) in s2.seen && |s1.seen| == 1 && |s2.seen| == 2;
    SeenConfirms(cfg, s2, conf, roster, t, latchId);
  }
}
