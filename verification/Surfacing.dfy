// The surfaced drills and announcements of a node: each one goes back to a row somebody on the
// roster signed, and shows an announcement's text exactly when the signature covers it.

module Surfacing {
  import opened Prelude
  import opened Accord
  import opened HaltPlane
  import EventLog

  /** The event tells of the row this step received. */
  ghost predicate TellsOf(e: EventLog.Event, step: Step)
  {
    && step.Receive? && ValidSigners(step.roster, step.row.inv, step.row.sigs) != {}
    && e.invocationId == step.row.inv.id && e.recordedAt == step.now && e.quorumThreshold == 1
    && e.signers == ValidSigners(step.roster, step.row.inv, step.row.sigs)
    && match e.eventType
       case DrillEvent => step.row.inv.kind == Drill && e.message == None
       case AnnounceEvent =>
         && step.row.inv.kind == Notify
         && forall t :: e.message == Some(t) <==> step.row.message == Some(t) && OfText(t) == step.row.inv.payload
  }

  /** Everything surfaced was in the log before or tells of the row just received. */
  lemma EventMoves(cfg: Config, s: Node, step: Step, e: EventLog.Event)
    requires Enabled(cfg, s, step) && e in Effect(cfg, s, step).events
    ensures e in s.events || TellsOf(e, step)
  {
    if step.Receive? {
      QuorumIff(step.row, step.roster);
    }
  }

  /**
   * Over every run, every drill and every announcement surfaced goes back to a row of that kind
   * that seats of the roster signed, with those signers and the instant of receipt; and an
   * announcement shows a text exactly when that is the text whose digest they signed.
   */
  lemma {:induction false} EveryEventWasSigned(cfg: Config, run: seq<Step>, e: EventLog.Event)
    requires Valid(cfg, run) && e in After(cfg, run).events
    ensures exists j :: 0 <= j < |run| && TellsOf(e, run[j])
  {
    var pre, step := run[..|run| - 1], run[|run| - 1];
    EventMoves(cfg, After(cfg, pre), step, e);
    if e in After(cfg, pre).events {
      EveryEventWasSigned(cfg, pre, e);
      var j :| 0 <= j < |pre| && TellsOf(e, pre[j]);
      assert run[j] == pre[j];
    } else {
      assert TellsOf(e, run[|pre|]);
    }
  }

  function EventTypeOf(kind: Kind): Option<EventLog.EventType>
  {
    match kind
    case Drill => Some(EventLog.DrillEvent)
    case Notify => Some(EventLog.AnnounceEvent)
    case _ => None
  }

  /** The log holds an event of this type and id. */
  predicate Surfaces(events: seq<EventLog.Event>, t: EventLog.EventType, id: Id)
  {
    exists e :: e in events && e.eventType == t && e.invocationId == id
  }

  lemma KnownIffHeld(events: seq<EventLog.Event>, e: EventLog.Event)
    ensures EventLog.Known(events, e) <==> Surfaces(events, e.eventType, e.invocationId)
  {
    if x :| x in events && x.eventType == e.eventType && x.invocationId == e.invocationId {
      var i :| 0 <= i < |events| && events[i] == x;
      assert EventLog.Same(events[i], e);
    }
  }

  lemma {:induction false} LogStaysBounded(cfg: Config, run: seq<Step>)
    requires Valid(cfg, run)
    ensures |After(cfg, run).events| <= EventLog.MAX_ACCORD_EVENTS
  {
    if run != [] {
      LogStaysBounded(cfg, run[..|run| - 1]);
    }
  }

  /**
   * Exactly what a receipt surfaces: a signed drill or announcement not held yet is put last,
   * the oldest event giving way when the log is full, and any other row changes nothing.
   */
  lemma SurfacesExactly(cfg: Config, run: seq<Step>)
    requires Valid(cfg, run) && run != [] && run[|run| - 1].Receive?
    ensures
      var step := run[|run| - 1];
      var log, log' := After(cfg, run[..|run| - 1]).events, After(cfg, run).events;
      var t := EventTypeOf(step.row.inv.kind);
      if t.Some? && ValidSigners(step.roster, step.row.inv, step.row.sigs) != {} && !Surfaces(log, t.value, step.row.inv.id) then
        && log' != [] && log'[|log'| - 1].eventType == t.value && TellsOf(log'[|log'| - 1], step)
        && log'[..|log'| - 1] == if |log| < EventLog.MAX_ACCORD_EVENTS then log else log[1..]
      else log' == log
  {
    var step := run[|run| - 1];
    LogStaysBounded(cfg, run[..|run| - 1]);
    if Authentic(step.row, step.roster) {
      SurfacedOne(After(cfg, run[..|run| - 1]).events, step);
    }
  }

  lemma SurfacedOne(log: seq<EventLog.Event>, step: Step)
    requires step.Receive? && |log| <= EventLog.MAX_ACCORD_EVENTS && Authentic(step.row, step.roster)
    ensures
      var t, log' := EventTypeOf(step.row.inv.kind), Surfaced(log, step.row, step.roster, step.now);
      if t.Some? && !Surfaces(log, t.value, step.row.inv.id) then
        && log' != [] && log'[|log'| - 1].eventType == t.value && TellsOf(log'[|log'| - 1], step)
        && log'[..|log'| - 1] == if |log| < EventLog.MAX_ACCORD_EVENTS then log else log[1..]
      else log' == log
  {
    QuorumIff(step.row, step.roster);
    var signers := ValidSigners(step.roster, step.row.inv, step.row.sigs);
    var t := EventTypeOf(step.row.inv.kind);
    if t.Some? {
      KnownIffHeld(log, EventLog.Event(t.value, step.row.inv.id, step.now, signers, 1, None));
      KnownIffHeld(log, EventLog.Event(t.value, step.row.inv.id, step.now, signers, 1, step.row.message));
    }
  }

  /** Nothing but a receipt surfaces anything, and a crash clears the log. */
  lemma OnlyReceiptsSurface(cfg: Config, s: Node, step: Step)
    requires Enabled(cfg, s, step) && !step.Receive?
    ensures Effect(cfg, s, step).events == if step.Crash? then [] else s.events
  {}
}
