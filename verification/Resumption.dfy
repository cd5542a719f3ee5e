// What a resumption over the wire may end: over every run, only the halt it names, by a strict
// majority, and only what is in the journal by then.

module Resumptions {
  import opened Prelude
  import opened Accord
  import opened HaltRecords
  import opened HaltPlane
  import opened HaltHistory
  import opened HaltEnding

  /**
   * Step `d` read the latch for a resumption by a strict majority, found it to hold the record
   * of `line` and the row to name that very halt; the line tells who resumed it.
   */
  ghost predicate ResumedBy(cfg: Config, run: seq<Step>, d: int, line: Line)
  {
    && 0 <= d < |run| && run[d].Decide? && line.HonoredOverWire?
    && After(cfg, run[..d]).latch == Holds(line.rec)
    && var row, roster := run[d].row, run[d].roster;
       && row.inv.kind == LifecycleActive && row.inv.resumesHaltId == Some(line.rec.invocationId)
       && line.resumptionId == row.inv.id && line.signers == ValidSigners(roster, row.inv, row.sigs)
       && 2 * |line.signers| > |roster| && line.threshold == |roster| / 2 + 1
  }

  ghost predicate Resumed(cfg: Config, run: seq<Step>, line: Line)
  {
    exists d :: ResumedBy(cfg, run, d, line)
  }

  lemma ResumedExtends(cfg: Config, pre: seq<Step>, step: Step, line: Line)
    requires Resumed(cfg, pre, line)
    ensures Resumed(cfg, pre + [step], line)
  {
    var d :| ResumedBy(cfg, pre, d, line);
    assert (pre + [step])[..d] == pre[..d];
    assert ResumedBy(cfg, pre + [step], d, line);
  }

  /** A resumption part-way is one that just read the latch, or was part-way before. */
  lemma ResumerMoves(cfg: Config, s: Node, step: Step, p: nat)
    requires Enabled(cfg, s, step) && p in Effect(cfg, s, step).procs && Effect(cfg, s, step).procs[p].Resuming?
    ensures
      var proc := Effect(cfg, s, step).procs[p];
      if p in s.procs && s.procs[p].Resuming? then
        proc.line == s.procs[p].line && proc.rec == s.procs[p].rec
      else
        && step.Decide? && step.p == p && p in s.procs && s.procs[p].Deciding?
        && s.procs[p].row == step.row && s.procs[p].roster == step.roster
        && Decided(s.latch, s.procs[p], step.readAt) == Some(proc)
  {}

  lemma DecidedResumes(cfg: Config, s: Node, deciding: Proc, at: Instant, proc: Proc)
    requires deciding.Deciding? && Decided(s.latch, deciding, at) == Some(proc) && proc.Resuming?
    requires IsLifecycle(deciding.row.inv.kind) && QuorumMet(deciding.row, deciding.roster)
    ensures proc.line.HonoredOverWire? && proc.rec == proc.line.rec && s.latch == Holds(proc.rec)
    ensures
      var row, roster := deciding.row, deciding.roster;
      && row.inv.kind == LifecycleActive && row.inv.resumesHaltId == Some(proc.rec.invocationId)
      && proc.line.resumptionId == row.inv.id && proc.line.signers == ValidSigners(roster, row.inv, row.sigs)
      && 2 * |proc.line.signers| > |roster| && proc.line.threshold == |roster| / 2 + 1
  {
    QuorumIff(deciding.row, deciding.roster);
    QuorumNeedsASeat(deciding.row, deciding.roster);
  }

  lemma NewLineIsAHandlers(cfg: Config, s: Node, step: Step, line: Line)
    requires Enabled(cfg, s, step) && line.HonoredOverWire?
    ensures line in Effect(cfg, s, step).journal && line !in s.journal ==>
      step.Journal? && IsReleaser(s.procs[step.p]) && s.procs[step.p].line == line
  {}

  lemma {:induction false} ResumersHaveResumed(cfg: Config, run: seq<Step>, p: nat)
    requires Valid(cfg, run) && p in After(cfg, run).procs && After(cfg, run).procs[p].Resuming?
    ensures
      var proc := After(cfg, run).procs[p];
      proc.line.HonoredOverWire? && proc.rec == proc.line.rec && Resumed(cfg, run, proc.line)
  {
    var pre, step := run[..|run| - 1], run[|run| - 1];
    assert run == pre + [step];
    var s, proc := After(cfg, pre), After(cfg, run).procs[p];
    ResumerMoves(cfg, s, step, p);
    if p in s.procs && s.procs[p].Resuming? {
      ResumersHaveResumed(cfg, pre, p);
      ResumedExtends(cfg, pre, step, proc.line);
    } else {
      DecidersMeetQuorum(cfg, pre);
      DecidedResumes(cfg, s, s.procs[p], step.readAt, proc);
      assert run[..|pre|] == pre;
      assert ResumedBy(cfg, run, |pre|, proc.line);
    }
  }

  /** No token handler journals a line as if it came over the wire. */
  lemma {:induction false} TokensAreNotWire(cfg: Config, run: seq<Step>, p: nat)
    requires Valid(cfg, run) && p in After(cfg, run).procs && After(cfg, run).procs[p].Honoring?
    ensures After(cfg, run).procs[p].line.Honored?
  {
    if run != [] {
      var pre, step := run[..|run| - 1], run[|run| - 1];
      var s := After(cfg, pre);
      if p in s.procs && s.procs[p].Honoring? {
        TokensAreNotWire(cfg, pre, p);
      }
    }
  }

  /**
   * Over every run, whatever is interleaved: every line that says a halt was resumed over the
   * wire goes back to a reading of the latch that held that very halt, for a resumption by a
   * strict majority that named it, with the signers that made it.
   */
  lemma {:induction false} EveryResumptionNamedItsHalt(cfg: Config, run: seq<Step>, line: Line)
    requires Valid(cfg, run) && line in After(cfg, run).journal && line.HonoredOverWire?
    ensures Resumed(cfg, run, line)
  {
    if run != [] {
      var pre, step := run[..|run| - 1], run[|run| - 1];
      assert run == pre + [step];
      NewLineIsAHandlers(cfg, After(cfg, pre), step, line);
      if line in After(cfg, pre).journal {
        EveryResumptionNamedItsHalt(cfg, pre, line);
      } else if After(cfg, pre).procs[step.p].Honoring? {
        TokensAreNotWire(cfg, pre, step.p);
      } else {
        ResumersHaveResumed(cfg, pre, step.p);
      }
      if Resumed(cfg, pre, line) {
        ResumedExtends(cfg, pre, step, line);
      }
    }
  }

  /**
   * And a handler of a resumption removes a latch only with such a line in the journal: no
   * resumption that names another halt, or none, ends anything.
   */
  lemma RemovalsAreResumed(cfg: Config, run: seq<Step>, i: nat, p: nat)
    requires Valid(cfg, run) && i < |run| && run[i] == Remove(p) && p in After(cfg, run[..i]).procs
    requires After(cfg, run[..i]).procs[p].Resuming?
    ensures
      var line := After(cfg, run[..i]).procs[p].line;
      line in After(cfg, run[..i]).journal && Resumed(cfg, run[..i], line)
  {
    PrefixValid(cfg, run, i);
    ReleasersFaithful(cfg, run[..i], p);
    ResumersHaveResumed(cfg, run[..i], p);
  }
}
