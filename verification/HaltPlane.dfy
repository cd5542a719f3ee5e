// The halt plane of one node, step by step.
//
// Handlers run in parallel.  A constitutional row is relayed before the latch is written; a
// confirmation or resumption is sighted, then reads the latch, then writes or removes it; a
// release journals before it removes.  Each of those points is a separate step here, so other
// handlers and crashes come in between.  Release commands are processes of their own and may
// outlive a crash of the node.  Handlers are identified by a number, and a run is any sequence
// of enabled steps.

module HaltPlane {
  import opened Prelude
  import opened Accord
  import opened HaltRecords
  import opened Releases
  import EventLog

  const MAX_SEEN_INVOCATIONS: nat := 16_384

  /** `home` is whether this node has a place for the latch at all. */
  datatype Config = Config(home: bool, nodeId: Option<Id>, peers: seq<Id>, fuse: nat)

  datatype LatchFile = Absent | Unreadable | Holds(rec: HaltRecord)

  /** The loop-stop: sightings that bind are tracked apart from those that do not. */
  datatype SeenKey = SeenKey(kind: Kind, id: Id, binding: bool)

  /** A journal line.  A refusal carries the token's digest, here the token itself. */
  datatype Line =
    | Honored(releasedAt: Stamp, verdict: Verdict, rec: HaltRecord, token: ReleaseToken)
    | HonoredOverWire(at: Instant, resumptionId: Id, signers: set<Id>, threshold: nat, rec: HaltRecord)
    | RemovalFailed(releasedAt: Stamp)
    | Refused(attemptedAt: Stamp, reason: Refusal, token: ReleaseToken, haltId: Id, latchId: Option<Id>)

  /**
   * A handler part-way.  A confirmation holds the record it will write, the one it read with
   * itself added.
   */
  datatype Proc =
    | Halting(row: Row, signers: set<Id>, threshold: nat, received: Instant, todo: multiset<Id>)
    | Relaying(row: Row, todo: multiset<Id>)
    | Deciding(row: Row, roster: seq<Member>, received: Instant, first: bool)
    | Confirming(row: Row, rec: HaltRecord, first: bool)
    | Resuming(row: Row, rec: HaltRecord, line: Line, journaled: bool, first: bool)
    | Honoring(rec: HaltRecord, line: Line, at: Stamp, journaled: bool)
    | Consuming

  datatype Node = Node(
    latch: LatchFile, journal: seq<Line>, tokenFile: Option<ReleaseToken>,
    seen: set<SeenKey>, events: seq<EventLog.Event>, procs: map<nat, Proc>)

  const FirstBoot: Node := Node(Absent, [], None, {}, [], map[])

  datatype Step =
    | Receive(p: nat, row: Row, roster: seq<Member>, now: Instant)
    | Send(p: nat, dst: Id)
    | WriteHalt(p: nat, rec: HaltRecord)
    | Decide(p: nat, row: Row, roster: seq<Member>, readAt: Instant)
    | Confirm(p: nat, rec: HaltRecord)
    | Journal(p: nat)
    | Remove(p: nat)
    | Consume(p: nat)
    | End(p: nat)
    | Present(token: ReleaseToken)
    | ReadToken(p: nat, token: ReleaseToken, auth: Authority, at: Stamp, wallClock: Instant)
    | Crash(apart: set<nat>)
    | Reactivate
    | Damage

  // ---- receiving a row -----------------------------------------------------

  function KeyOf(row: Row, roster: seq<Member>): SeenKey
  {
    SeenKey(row.inv.kind, row.inv.id, Binding(row, roster))
  }

  predicate FirstSight(s: Node, key: SeenKey)
  {
    |s.seen| >= MAX_SEEN_INVOCATIONS || key !in s.seen
  }

  function Sighted(s: Node, key: SeenKey): set<SeenKey>
  {
    (if |s.seen| >= MAX_SEEN_INVOCATIONS then {} else s.seen) + {key}
  }

  function Surfaced(events: seq<EventLog.Event>, row: Row, roster: seq<Member>, now: Instant): seq<EventLog.Event>
  {
    var signers := ValidSigners(roster, row.inv, row.sigs);
    if row.inv.kind.Drill? && QuorumMet(row, roster) then
      EventLog.Record(events, EventLog.Event(
        EventLog.DrillEvent, row.inv.id, now, signers, HaltPlaneThreshold(Drill, |roster|), None))
    else if row.inv.kind.Notify? then
      var bound := row.message.Some? && OfText(row.message.value) == row.inv.payload;
      EventLog.Record(events, EventLog.Event(
        EventLog.AnnounceEvent, row.inv.id, now, signers, 1, if bound then row.message else None))
    else events
  }

  /**
   * A drill is surfaced on one valid signature, however large the roster: no family quorum is
   * asked of it.
   */
  lemma OneSignerSurfacesADrill(events: seq<EventLog.Event>, row: Row, roster: seq<Member>, now: Instant)
    requires row.inv.kind.Drill?
    ensures
      var e := EventLog.Event(EventLog.DrillEvent, row.inv.id, now, ValidSigners(roster, row.inv, row.sigs), 1, None);
      if ValidSigners(roster, row.inv, row.sigs) != {}
      then Surfaced(events, row, roster, now) == EventLog.Record(events, e) && EventLog.Known(Surfaced(events, row, roster, now), e)
      else Surfaced(events, row, roster, now) == events
  {
    var signers := ValidSigners(roster, row.inv, row.sigs);
    if signers != {} {
      var id :| id in signers;
      assert id in Seats(roster) && |signers| >= 1 by {
        SubsetCardinality({id}, signers);
      }
      assert roster != [];
      var e := EventLog.Event(EventLog.DrillEvent, row.inv.id, now, signers, 1, None);
      assert EventLog.Known(events, e) || EventLog.Record(events, e)[|EventLog.Record(events, e)| - 1] == e;
    } else if QuorumMet(row, roster) {
      QuorumNeedsASeat(row, roster);
    }
  }

  predicate IsLifecycle(kind: Kind)
  {
    kind.LifecycleConfirmed? || kind.LifecycleActive?
  }

  predicate NamesStanding(latch: LatchFile, row: Row, at: Instant)
  {
    latch.Holds? && row.inv.confirmsHaltId == Some(latch.rec.invocationId) && latch.rec.InEffectAt(at)
  }

  /** A confirmation that finds the halt it names in effect and not confirmed yet. */
  predicate FreshlyConfirms(latch: LatchFile, row: Row, at: Instant)
  {
    row.inv.kind.LifecycleConfirmed? && NamesStanding(latch, row, at) && latch.rec.confirmed.None?
  }

  predicate Resumes(latch: LatchFile, row: Row)
  {
    row.inv.kind.LifecycleActive? && latch.Holds? && row.inv.resumesHaltId == Some(latch.rec.invocationId)
  }

  function Confirmed(rec: HaltRecord, row: Row, roster: seq<Member>, at: Instant): HaltRecord
  {
    rec.(confirmed := Some(HaltConfirmation(row.inv.id, ValidSigners(roster, row.inv, row.sigs), At(at))))
  }

  function ToPeers(cfg: Config, first: bool): multiset<Id>
  {
    if first then multiset(cfg.peers) else multiset{}
  }

  /** The handler an authentic row leaves behind once it is sighted, if any. */
  function Opened(cfg: Config, s: Node, row: Row, roster: seq<Member>, now: Instant): Option<Proc>
  {
    var first := FirstSight(s, KeyOf(row, roster));
    if !Authentic(row, roster) then None
    else if row.inv.kind.Constitutional? && QuorumMet(row, roster) then
      Some(Halting(row, ValidSigners(roster, row.inv, row.sigs),
                   HaltPlaneThreshold(row.inv.kind, |roster|), now, ToPeers(cfg, first)))
    else if IsLifecycle(row.inv.kind) && QuorumMet(row, roster) then
      if cfg.home then Some(Deciding(row, roster, now, first)) else None
    else if first then Some(Relaying(row, multiset(cfg.peers)))
    else None
  }

  /** What reading the latch makes of a confirmation or resumption: it takes effect or is refused. */
  function Decided(latch: LatchFile, proc: Proc, at: Instant): Option<Proc>
    requires proc.Deciding?
  {
    var row, roster := proc.row, proc.roster;
    if FreshlyConfirms(latch, row, at) then Some(Confirming(row, Confirmed(latch.rec, row, roster, at), proc.first))
    else if Resumes(latch, row) then
      var line := HonoredOverWire(proc.received, row.inv.id, ValidSigners(roster, row.inv, row.sigs),
                                  HaltPlaneThreshold(row.inv.kind, |roster|), latch.rec);
      Some(Resuming(row, latch.rec, line, false, proc.first))
    else None
  }

  // ---- the other steps -----------------------------------------------------

  function Todo(proc: Proc): multiset<Id>
  {
    match proc
    case Halting(_, _, _, _, todo) => todo
    case Relaying(_, todo) => todo
    case _ => multiset{}
  }

  function Sent(proc: Proc, dst: Id): Proc
  {
    match proc
    case Halting(row, signers, m, received, todo) => Halting(row, signers, m, received, todo - multiset{dst})
    case Relaying(row, todo) => Relaying(row, todo - multiset{dst})
    case _ => proc
  }

  function Journaled(proc: Proc): Proc
  {
    match proc
    case Resuming(row, rec, line, _, first) => Resuming(row, rec, line, true, first)
    case Honoring(rec, line, at, _) => Honoring(rec, line, at, true)
    case _ => proc
  }

  predicate IsReleaser(proc: Proc)
  {
    proc.Resuming? || proc.Honoring?
  }

  function RecordFor(cfg: Config, proc: Proc, latchId: Option<Id>): HaltRecord
    requires proc.Halting?
  {
    NewRecord(Constitutional, proc.row.inv.id, proc.signers, proc.threshold, proc.received,
              cfg.nodeId, proc.row.inv.payload, latchId, cfg.fuse)
  }

  /** The restart-loop guard: an identical refusal is not written twice in a row. */
  function JournalRejection(journal: seq<Line>, line: Line): seq<Line>
    requires line.Refused?
  {
    if journal != [] && RepeatedRefusal(journal[|journal| - 1], line) then journal else journal + [line]
  }

  predicate RepeatedRefusal(a: Line, b: Line)
  {
    a.Refused? && b.Refused? && a.token == b.token && a.reason == b.reason
  }

  predicate Enabled(cfg: Config, s: Node, step: Step)
  {
    match step
    case Receive(p, _, _, _) => p !in s.procs
    case Send(p, dst) => p in s.procs && dst in Todo(s.procs[p])
    case WriteHalt(p, rec) =>
      && cfg.home && p in s.procs && s.procs[p].Halting? && s.procs[p].todo == multiset{}
      && rec == RecordFor(cfg, s.procs[p], rec.latchId)
    case Decide(p, row, roster, _) =>
      p in s.procs && s.procs[p].Deciding? && s.procs[p].row == row && s.procs[p].roster == roster
    case Confirm(p, rec) => p in s.procs && s.procs[p].Confirming? && s.procs[p].rec == rec
    case Journal(p) => p in s.procs && IsReleaser(s.procs[p]) && !s.procs[p].journaled
    case Remove(p) => p in s.procs && IsReleaser(s.procs[p]) && s.procs[p].journaled
    case Consume(p) => p in s.procs && s.procs[p].Consuming?
    case End(p) =>
      && p in s.procs && Todo(s.procs[p]) == multiset{}
      && (s.procs[p].Relaying? || (s.procs[p].Halting? && !cfg.home))
    case Present(_) => true
    case ReadToken(p, _, _, _, _) => p !in s.procs && s.latch.Holds?
    case Crash(_) => true
    case Reactivate => s.latch != Absent
    case Damage => s.latch.Holds?
  }

  function LatchNext(cfg: Config, s: Node, step: Step): LatchFile
  {
    match step
    case WriteHalt(_, rec) => Holds(rec)
    case Confirm(_, rec) => Holds(rec)
    case Remove(_) => Absent
    case Reactivate => Absent
    case Damage => Unreadable
    case _ => s.latch
  }

  function JournalNext(cfg: Config, s: Node, step: Step): seq<Line>
    requires Enabled(cfg, s, step)
  {
    match step
    case Journal(p) => s.journal + [s.procs[p].line]
    case Remove(p) =>
      if s.procs[p].Honoring? && s.latch.Absent? then s.journal + [RemovalFailed(s.procs[p].at)] else s.journal
    case ReadToken(p, token, auth, at, wallClock) =>
      (match VerifyReleaseToken(s.latch.rec, token, auth, at, wallClock)
       case Err(reason) =>
         JournalRejection(s.journal, Refused(at, reason, token, s.latch.rec.invocationId, s.latch.rec.latchId))
       case Ok(_) => s.journal)
    case _ => s.journal
  }

  /** What the step leaves of the handler it belongs to. */
  function Own(cfg: Config, s: Node, step: Step): Option<Proc>
    requires Enabled(cfg, s, step)
  {
    match step
    case Receive(_, row, roster, now) => Opened(cfg, s, row, roster, now)
    case Send(p, dst) => Some(Sent(s.procs[p], dst))
    case Decide(p, _, _, at) => Decided(s.latch, s.procs[p], at)
    case Confirm(p, _) =>
      (match s.procs[p]
       case Confirming(row, _, first) => Some(Relaying(row, ToPeers(cfg, first))))
    case Journal(p) => Some(Journaled(s.procs[p]))
    case Remove(p) =>
      (match s.procs[p]
       case Resuming(row, _, _, _, first) => Some(Relaying(row, ToPeers(cfg, first)))
       case _ => if s.latch.Absent? then None else Some(Consuming))
    case ReadToken(_, token, auth, at, wallClock) =>
      (match VerifyReleaseToken(s.latch.rec, token, auth, at, wallClock)
       case Err(_) => None
       case Ok(v) => Some(Honoring(s.latch.rec, Honored(at, v, s.latch.rec, token), at, false)))
    case _ => None
  }

  /** The handler a step belongs to. */
  function Owner(step: Step): Option<nat>
  {
    match step
    case Present(_) => None
    case Crash(_) => None
    case Reactivate => None
    case Damage => None
    case _ => Some(step.p)
  }

  function Put(procs: map<nat, Proc>, p: nat, proc: Option<Proc>): (r: map<nat, Proc>)
    ensures forall q | q != p :: (q in r <==> q in procs) && (q in procs ==> r[q] == procs[q])
    ensures p in r <==> proc.Some?
    ensures proc.Some? ==> r[p] == proc.value
  {
    if proc.Some? then procs[p := proc.value] else procs - {p}
  }

  /**
   * What a crash of the node leaves: token handlers in `apart` are release commands, processes
   * of their own.
   */
  function Outlive(procs: map<nat, Proc>, apart: set<nat>): (r: map<nat, Proc>)
    ensures forall p | p in r :: p in procs && r[p] == procs[p] && (r[p].Honoring? || r[p].Consuming?)
  {
    map p | p in procs && p in apart && (procs[p].Honoring? || procs[p].Consuming?) :: procs[p]
  }

  function ProcsNext(cfg: Config, s: Node, step: Step): map<nat, Proc>
    requires Enabled(cfg, s, step)
  {
    if step.Crash? then Outlive(s.procs, step.apart)
    else match Owner(step)
      case Some(p) => Put(s.procs, p, Own(cfg, s, step))
      case None => s.procs
  }

  function SeenNext(s: Node, step: Step): set<SeenKey>
  {
    match step
    case Receive(_, row, roster, _) =>
      if Authentic(row, roster) then Sighted(s, KeyOf(row, roster)) else s.seen
    case Crash(_) => {}
    case _ => s.seen
  }

  function EventsNext(s: Node, step: Step): seq<EventLog.Event>
  {
    match step
    case Receive(_, row, roster, now) =>
      if Authentic(row, roster) then Surfaced(s.events, row, roster, now) else s.events
    case Crash(_) => []
    case _ => s.events
  }

  function TokenNext(s: Node, step: Step): Option<ReleaseToken>
  {
    match step
    case Present(token) => Some(token)
    case Consume(_) => None
    case _ => s.tokenFile
  }

  function Effect(cfg: Config, s: Node, step: Step): Node
    requires Enabled(cfg, s, step)
  {
    Node(LatchNext(cfg, s, step), JournalNext(cfg, s, step), TokenNext(s, step),
         SeenNext(s, step), EventsNext(s, step), ProcsNext(cfg, s, step))
  }

  function Next(cfg: Config, s: Node, step: Step): Node
  {
    if Enabled(cfg, s, step) then Effect(cfg, s, step) else s
  }

  // ---- runs ----------------------------------------------------------------

  function RunFrom(cfg: Config, s: Node, run: seq<Step>): Node
  {
    if run == [] then s else Next(cfg, RunFrom(cfg, s, run[..|run| - 1]), run[|run| - 1])
  }

  function After(cfg: Config, run: seq<Step>): Node
  {
    RunFrom(cfg, FirstBoot, run)
  }

  predicate Valid(cfg: Config, run: seq<Step>)
  {
    run == []
    || (Valid(cfg, run[..|run| - 1]) && Enabled(cfg, After(cfg, run[..|run| - 1]), run[|run| - 1]))
  }

  lemma {:induction false} PrefixValid(cfg: Config, run: seq<Step>, i: nat)
    requires Valid(cfg, run) && i <= |run|
    ensures Valid(cfg, run[..i])
    ensures i < |run| ==>
      Enabled(cfg, After(cfg, run[..i]), run[i]) && After(cfg, run[..i + 1]) == Effect(cfg, After(cfg, run[..i]), run[i])
  {
    if i == |run| {
      assert run[..i] == run;
    } else if i == |run| - 1 {
      assert run[..i + 1] == run;
    } else {
      var pre := run[..|run| - 1];
      PrefixValid(cfg, pre, i);
      assert pre[..i] == run[..i] && pre[..i + 1] == run[..i + 1] && pre[i] == run[i];
    }
  }
}
