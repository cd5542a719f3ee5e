// How a halt ends on one node: the journal is written before the latch is removed, a crash
// may fall between the two, and other handlers may run between them as well.

module HaltEnding {
  import opened Prelude
  import opened Accord
  import opened HaltRecords
  import opened Releases
  import opened HaltPlane
  import opened HaltHistory

  // ---- what a releaser removes ---------------------------------------------

  /** The record a journal line says was released. */
  function Authorizes(line: Line): Option<HaltRecord>
  {
    match line
    case Honored(_, _, rec, _) => Some(rec)
    case HonoredOverWire(_, _, _, _, rec) => Some(rec)
    case _ => None
  }

  /** A releaser's line is about the record it read, and once journaled it is in the journal. */
  ghost predicate Faithful(s: Node, proc: Proc)
  {
    IsReleaser(proc) ==>
      && Authorizes(proc.line) == Some(proc.rec)
      && (proc.journaled ==> proc.line in s.journal)
  }

  lemma JournalGrows(cfg: Config, s: Node, step: Step)
    requires Enabled(cfg, s, step)
    ensures s.journal <= Effect(cfg, s, step).journal
    ensures step.Journal? ==> Effect(cfg, s, step).journal == s.journal + [s.procs[step.p].line]
  {}

  lemma PrefixMembers<T>(a: seq<T>, b: seq<T>, x: T)
    requires a <= b && x in a
    ensures x in b
  {
    var k :| 0 <= k < |a| && a[k] == x;
    assert b[k] == x;
  }

  /** A releaser is born in a reading and afterwards only its journaling moves it. */
  lemma ReleaserMoves(cfg: Config, s: Node, step: Step, p: nat)
    requires Enabled(cfg, s, step)
    requires p in Effect(cfg, s, step).procs && IsReleaser(Effect(cfg, s, step).procs[p])
    ensures
      var proc := Effect(cfg, s, step).procs[p];
      if p in s.procs && IsReleaser(s.procs[p]) then
        && proc.line == s.procs[p].line && proc.rec == s.procs[p].rec
        && (proc.journaled ==> s.procs[p].journaled || step == Journal(p))
      else
        !proc.journaled && Authorizes(proc.line) == Some(proc.rec)
  {}

  lemma FaithfulKept(cfg: Config, s: Node, step: Step, p: nat)
    requires Enabled(cfg, s, step) && p in Effect(cfg, s, step).procs
    requires p in s.procs ==> Faithful(s, s.procs[p])
    ensures Faithful(Effect(cfg, s, step), Effect(cfg, s, step).procs[p])
  {
    var s' := Effect(cfg, s, step);
    if IsReleaser(s'.procs[p]) {
      ReleaserMoves(cfg, s, step, p);
      JournalGrows(cfg, s, step);
      if s'.procs[p].journaled {
        if step == Journal(p) {
          assert s'.procs[p].line in [s.procs[p].line];
        } else {
          PrefixMembers(s.journal, s'.journal, s.procs[p].line);
        }
      }
    }
  }

  lemma {:induction false} ReleasersFaithful(cfg: Config, run: seq<Step>, p: nat)
    requires Valid(cfg, run) && p in After(cfg, run).procs
    ensures Faithful(After(cfg, run), After(cfg, run).procs[p])
  {
    if run != [] {
      var pre := run[..|run| - 1];
      if p in After(cfg, pre).procs {
        ReleasersFaithful(cfg, pre, p);
      }
      FaithfulKept(cfg, After(cfg, pre), run[|run| - 1], p);
    }
  }

  /**
   * Wherever a run is cut (before any step, so at any crash): a handler about to remove the
   * latch has an honored line for the exact record it read already in the journal.
   */
  lemma RemovalIsJournaledFirst(cfg: Config, run: seq<Step>, i: nat)
    requires Valid(cfg, run) && i < |run| && run[i].Remove?
    ensures
      var s := After(cfg, run[..i]);
      run[i].p in s.procs && IsReleaser(s.procs[run[i].p])
      && exists line :: line in s.journal && Authorizes(line) == Some(s.procs[run[i].p].rec)
  {
    PrefixValid(cfg, run, i);
    ReleasersFaithful(cfg, run[..i], run[i].p);
    assert After(cfg, run[..i]).procs[run[i].p].line in After(cfg, run[..i]).journal;
  }

  // ---- what reaches the disk -----------------------------------------------

  /**
   * The journal grows by a releaser's line when it journals, by a failure when a token's handler
   * finds the latch gone, and by a refusal when a token does not verify, unless the last line
   * refuses that token for that reason already; and by nothing else.
   */
  lemma JournalGrowsExactly(cfg: Config, s: Node, step: Step)
    requires Enabled(cfg, s, step)
    ensures
      var journal := Effect(cfg, s, step).journal;
      match step
      case Journal(p) => journal == s.journal + [s.procs[p].line]
      case Remove(p) =>
        journal == if s.procs[p].Honoring? && s.latch == Absent then s.journal + [RemovalFailed(s.procs[p].at)] else s.journal
      case ReadToken(_, token, auth, at, wallClock) =>
        (match VerifyReleaseToken(s.latch.rec, token, auth, at, wallClock)
         case Ok(_) => journal == s.journal
         case Err(reason) =>
           var line := Refused(at, reason, token, s.latch.rec.invocationId, s.latch.rec.latchId);
           journal == if s.journal != [] && s.journal[|s.journal| - 1].Refused? && s.journal[|s.journal| - 1].token == token
                         && s.journal[|s.journal| - 1].reason == reason
                      then s.journal else s.journal + [line])
      case _ => journal == s.journal
  {}

  /** A token is on disk from its presentation to its consumption, whatever else happens. */
  lemma TokenFileMoves(cfg: Config, s: Node, step: Step)
    requires Enabled(cfg, s, step)
    ensures Effect(cfg, s, step).tokenFile ==
      if step.Present? then Some(step.token) else if step.Consume? then None else s.tokenFile
  {}

  /** A crash forgets what is in memory, keeps what is on disk, and ends every handler but the release commands apart. */
  lemma CrashKeepsTheDisk(cfg: Config, s: Node, apart: set<nat>)
    ensures
      var s' := Effect(cfg, s, Crash(apart));
      && s'.latch == s.latch && s'.journal == s.journal && s'.tokenFile == s.tokenFile && s'.seen == {} && s'.events == []
      && (forall p :: p in s'.procs <==> p in s.procs && p in apart && (s.procs[p].Honoring? || s.procs[p].Consuming?))
      && forall p | p in s'.procs :: s'.procs[p] == s.procs[p]
  {}

  // ---- the gap between reading and removing --------------------------------

  /** Every latch write so far minted an id, and no two the same one. */
  ghost predicate FreshLatchIds(run: seq<Step>)
  {
    && (forall a | 0 <= a < |run| && run[a].WriteHalt? :: run[a].rec.latchId.Some?)
    && (forall a, b | 0 <= a < b < |run| && run[a].WriteHalt? && run[b].WriteHalt? ::
          run[a].rec.latchId != run[b].rec.latchId)
  }

  /** Handler `p` is releasing `rec` after the first `i` steps. */
  ghost predicate Releasing(cfg: Config, run: seq<Step>, i: nat, p: nat, rec: HaltRecord)
    requires i <= |run|
  {
    var procs := After(cfg, run[..i]).procs;
    p in procs && IsReleaser(procs[p]) && procs[p].rec == rec
  }

  /** Step `j` is where handler `p` read the latch it means to release. */
  ghost predicate Opens(cfg: Config, run: seq<Step>, j: nat, p: nat, rec: HaltRecord)
  {
    && j < |run| && (run[j].Decide? || run[j].ReadToken?) && run[j].p == p
    && Releasing(cfg, run, j + 1, p, rec)
  }

  /** Nothing moved the latch file in steps `j+1 .. i-1`. */
  ghost predicate Untouched(cfg: Config, run: seq<Step>, j: nat, i: nat)
    requires i <= |run|
  {
    forall k | j < k < i :: After(cfg, run[..k + 1]).latch == After(cfg, run[..k]).latch
  }

  ghost predicate Continues(run: seq<Step>, j: nat, i: nat, p: nat)
    requires i <= |run|
  {
    forall k | j < k < i :: !run[k].Crash? && !(run[k].Remove? && run[k].p == p)
  }

  /** A step after `j` and before `i` wrote this very record again, and nothing moved the latch since. */
  ghost predicate Rewritten(cfg: Config, run: seq<Step>, j: nat, i: nat, rec: HaltRecord)
    requires i <= |run|
  {
    exists k: nat :: j < k < i && Writes(run[k]) && run[k].rec == rec && Untouched(cfg, run, k, i)
  }

  lemma OpensAtTheLatch(cfg: Config, run: seq<Step>, j: nat, p: nat, rec: HaltRecord)
    requires Valid(cfg, run) && Opens(cfg, run, j, p, rec)
    ensures After(cfg, run[..j]).latch == Holds(rec) == After(cfg, run[..j + 1]).latch
  {
    PrefixValid(cfg, run, j);
  }

  lemma ReleasingGoesOn(cfg: Config, run: seq<Step>, i: nat, p: nat, rec: HaltRecord)
    requires Valid(cfg, run) && i < |run| && Releasing(cfg, run, i, p, rec)
    requires !run[i].Crash? && !(run[i].Remove? && run[i].p == p)
    ensures Releasing(cfg, run, i + 1, p, rec)
  {
    PrefixValid(cfg, run, i);
  }

  lemma {:induction false} GapKeepsReleasing(cfg: Config, run: seq<Step>, j: nat, i: nat, p: nat, rec: HaltRecord)
    requires Valid(cfg, run) && Opens(cfg, run, j, p, rec) && j < i <= |run| && Continues(run, j, i, p)
    ensures Releasing(cfg, run, i, p, rec)
    decreases i
  {
    if i > j + 1 {
      GapKeepsReleasing(cfg, run, j, i - 1, p, rec);
      ReleasingGoesOn(cfg, run, i - 1, p, rec);
    }
  }

  lemma OpensUnjournaled(cfg: Config, run: seq<Step>, j: nat, p: nat, rec: HaltRecord)
    requires Valid(cfg, run) && Opens(cfg, run, j, p, rec)
    ensures !After(cfg, run[..j + 1]).procs[p].journaled
  {
    PrefixValid(cfg, run, j);
  }

  lemma JournalingShows(cfg: Config, run: seq<Step>, i: nat, p: nat, rec: HaltRecord)
    requires Valid(cfg, run) && i < |run| && Releasing(cfg, run, i, p, rec) && Releasing(cfg, run, i + 1, p, rec)
    requires !run[i].Crash?
    ensures After(cfg, run[..i + 1]).procs[p].journaled <==> After(cfg, run[..i]).procs[p].journaled || run[i] == Journal(p)
    ensures run[i] == Journal(p) ==> !After(cfg, run[..i]).procs[p].journaled
  {
    PrefixValid(cfg, run, i);
  }

  lemma {:induction false} JournaledSince(cfg: Config, run: seq<Step>, j: nat, i: nat, p: nat, rec: HaltRecord)
    requires Valid(cfg, run) && Opens(cfg, run, j, p, rec) && j < i <= |run| && Continues(run, j, i, p)
    ensures Releasing(cfg, run, i, p, rec)
    ensures After(cfg, run[..i]).procs[p].journaled <==> exists k :: j < k < i && run[k] == Journal(p)
    ensures forall k, m | j < k < m < i && run[k] == Journal(p) :: run[m] != Journal(p)
    decreases i
  {
    if i == j + 1 {
      OpensUnjournaled(cfg, run, j, p, rec);
    } else {
      JournaledSince(cfg, run, j, i - 1, p, rec);
      ReleasingGoesOn(cfg, run, i - 1, p, rec);
      JournalingShows(cfg, run, i - 1, p, rec);
    }
  }

  /** A release is journaled once: between its reading of the latch and its removal there is exactly one journaling. */
  lemma JournaledOnce(cfg: Config, run: seq<Step>, j: nat, i: nat, p: nat, rec: HaltRecord)
    requires Valid(cfg, run) && Opens(cfg, run, j, p, rec) && j < i < |run| && Continues(run, j, i, p)
    requires run[i] == Remove(p)
    ensures exists k :: j < k < i && run[k] == Journal(p) && forall m | j < m < i && run[m] == Journal(p) :: m == k
  {
    JournaledSince(cfg, run, j, i, p, rec);
    PrefixValid(cfg, run, i);
    var k :| j < k < i && run[k] == Journal(p);
    forall m | j < m < i && run[m] == Journal(p)
      ensures m == k
    {
      assert m < k || k < m || m == k;
    }
  }

  lemma {:induction false} GapUntouched(cfg: Config, run: seq<Step>, j: nat, i: nat, rec: HaltRecord)
    requires Valid(cfg, run) && j < i <= |run| && Untouched(cfg, run, j, i)
    requires After(cfg, run[..j + 1]).latch == Holds(rec)
    ensures After(cfg, run[..i]).latch == Holds(rec)
    decreases i
  {
    if i > j + 1 {
      GapUntouched(cfg, run, j, i - 1, rec);
    }
  }

  lemma HoldsByWriting(cfg: Config, run: seq<Step>, i: nat, rec: HaltRecord)
    requires Valid(cfg, run) && i < |run| && After(cfg, run[..i + 1]).latch == Holds(rec)
    ensures After(cfg, run[..i]).latch == Holds(rec) || (Writes(run[i]) && run[i].rec == rec)
  {
    PrefixValid(cfg, run, i);
    LatchMoves(cfg, After(cfg, run[..i]), run[i]);
  }

  lemma StaysUntouched(cfg: Config, run: seq<Step>, j: nat, i: nat)
    requires j < i < |run| && Untouched(cfg, run, j, i) && After(cfg, run[..i + 1]).latch == After(cfg, run[..i]).latch
    ensures Untouched(cfg, run, j, i + 1)
  {}

  lemma StaysRewritten(cfg: Config, run: seq<Step>, j: nat, i: nat, rec: HaltRecord)
    requires j < i < |run| && Rewritten(cfg, run, j, i, rec) && After(cfg, run[..i + 1]).latch == After(cfg, run[..i]).latch
    ensures Rewritten(cfg, run, j, i + 1, rec)
  {
    var k: nat :| j < k < i && Writes(run[k]) && run[k].rec == rec && Untouched(cfg, run, k, i);
    StaysUntouched(cfg, run, k, i);
  }

  lemma GapGoesOn(cfg: Config, run: seq<Step>, j: nat, i: nat, rec: HaltRecord)
    requires j < i < |run| && After(cfg, run[..i + 1]).latch == After(cfg, run[..i]).latch
    requires Untouched(cfg, run, j, i) || Rewritten(cfg, run, j, i, rec)
    ensures Untouched(cfg, run, j, i + 1) || Rewritten(cfg, run, j, i + 1, rec)
  {
    if Untouched(cfg, run, j, i) {
      StaysUntouched(cfg, run, j, i);
    } else {
      StaysRewritten(cfg, run, j, i, rec);
    }
  }

  lemma {:induction false} GapRewrites(cfg: Config, run: seq<Step>, j: nat, i: nat, rec: HaltRecord)
    requires Valid(cfg, run) && j < i <= |run| && After(cfg, run[..i]).latch == Holds(rec)
    ensures Untouched(cfg, run, j, i) || Rewritten(cfg, run, j, i, rec)
    decreases i
  {
    if i > j + 1 {
      HoldsByWriting(cfg, run, i - 1, rec);
      if After(cfg, run[..i - 1]).latch != Holds(rec) {
        assert Untouched(cfg, run, i - 1, i);
      } else {
        GapRewrites(cfg, run, j, i - 1, rec);
        GapGoesOn(cfg, run, j, i - 1, rec);
      }
    }
  }

  lemma RewrittenHolds(cfg: Config, run: seq<Step>, j: nat, i: nat, rec: HaltRecord)
    requires Valid(cfg, run) && j < i <= |run| && Rewritten(cfg, run, j, i, rec)
    ensures After(cfg, run[..i]).latch == Holds(rec)
  {
    var k: nat :| j < k < i && Writes(run[k]) && run[k].rec == rec && Untouched(cfg, run, k, i);
    PrefixValid(cfg, run, k);
    LatchMoves(cfg, After(cfg, run[..k]), run[k]);
    GapUntouched(cfg, run, k, i, rec);
  }

  /** With fresh latch ids a record that is not confirmed is written once, so not in the gap again. */
  lemma UnconfirmedIsWrittenOnce(cfg: Config, run: seq<Step>, j: nat, i: nat, rec: HaltRecord)
    requires Valid(cfg, run) && FreshLatchIds(run) && j < i <= |run|
    requires After(cfg, run[..j]).latch == Holds(rec) && rec.confirmed.None?
    ensures !Rewritten(cfg, run, j, i, rec)
  {
    var i0 := ReadsAWrite(cfg, run, j);
    if Rewritten(cfg, run, j, i, rec) {
      var k: nat :| j < k < i && Writes(run[k]) && run[k].rec == rec && Untouched(cfg, run, k, i);
      if run[k].Confirm? {
        ConfirmedWhenWritten(cfg, run, k);
      }
    }
  }

  /**
   * Whatever the interleaving, the record a release read has its honored line before the
   * removal, and the removal takes away exactly that record if and only if nothing moved the
   * latch between the reading and the removal, or the last step that did wrote the very same
   * record.  With fresh latch ids the second cannot be for a halt not confirmed yet.
   */
  lemma RemovesWhatItJournaledIffUntouched(cfg: Config, run: seq<Step>, j: nat, i: nat, p: nat, rec: HaltRecord)
    requires Valid(cfg, run) && Opens(cfg, run, j, p, rec) && j < i < |run| && Continues(run, j, i, p)
    requires run[i] == Remove(p)
    ensures exists line :: line in After(cfg, run[..i]).journal && Authorizes(line) == Some(rec)
    ensures After(cfg, run[..i]).latch == Holds(rec) <==> Untouched(cfg, run, j, i) || Rewritten(cfg, run, j, i, rec)
    ensures FreshLatchIds(run) && rec.confirmed.None? ==>
      (After(cfg, run[..i]).latch == Holds(rec) <==> Untouched(cfg, run, j, i))
    ensures !After(cfg, run[..i + 1]).latch.Holds?
  {
    OpensAtTheLatch(cfg, run, j, p, rec);
    GapKeepsReleasing(cfg, run, j, i, p, rec);
    RemovalIsJournaledFirst(cfg, run, i);
    RemovedIffUntouched(cfg, run, j, i, rec);
    PrefixValid(cfg, run, i);
  }

  lemma RemovedIffUntouched(cfg: Config, run: seq<Step>, j: nat, i: nat, rec: HaltRecord)
    requires Valid(cfg, run) && j < i <= |run|
    requires After(cfg, run[..j]).latch == Holds(rec) == After(cfg, run[..j + 1]).latch
    ensures After(cfg, run[..i]).latch == Holds(rec) <==> Untouched(cfg, run, j, i) || Rewritten(cfg, run, j, i, rec)
    ensures FreshLatchIds(run) && rec.confirmed.None? ==> !Rewritten(cfg, run, j, i, rec)
  {
    if After(cfg, run[..i]).latch == Holds(rec) {
      GapRewrites(cfg, run, j, i, rec);
    }
    if Untouched(cfg, run, j, i) {
      GapUntouched(cfg, run, j, i, rec);
    }
    if Rewritten(cfg, run, j, i, rec) {
      RewrittenHolds(cfg, run, j, i, rec);
    }
    if FreshLatchIds(run) && rec.confirmed.None? {
      UnconfirmedIsWrittenOnce(cfg, run, j, i, rec);
    }
  }

  // ---- a crash before the removal ------------------------------------------

  /** Every honored token line records a token that verified for its record. */
  ghost predicate Vouched(line: Line)
  {
    line.Honored? ==>
      exists auth, at, wallClock :: VerifyReleaseToken(line.rec, line.token, auth, at, wallClock).Ok?
  }

  lemma {:induction false} HonoredLinesVouched(cfg: Config, run: seq<Step>)
    requires Valid(cfg, run)
    ensures forall line | line in After(cfg, run).journal :: Vouched(line)
    ensures forall p | p in After(cfg, run).procs && IsReleaser(After(cfg, run).procs[p]) ::
      Vouched(After(cfg, run).procs[p].line)
  {
    if run != [] {
      HonoredLinesVouched(cfg, run[..|run| - 1]);
      VouchedKept(cfg, After(cfg, run[..|run| - 1]), run[|run| - 1]);
    }
  }

  lemma VouchedKept(cfg: Config, s: Node, step: Step)
    requires Enabled(cfg, s, step)
    requires forall line | line in s.journal :: Vouched(line)
    requires forall p | p in s.procs && IsReleaser(s.procs[p]) :: Vouched(s.procs[p].line)
    ensures forall line | line in Effect(cfg, s, step).journal :: Vouched(line)
    ensures forall p | p in Effect(cfg, s, step).procs && IsReleaser(Effect(cfg, s, step).procs[p]) ::
      Vouched(Effect(cfg, s, step).procs[p].line)
  {
    var s' := Effect(cfg, s, step);
    forall p | p in s'.procs && IsReleaser(s'.procs[p])
      ensures Vouched(s'.procs[p].line)
    {
      if step.ReadToken? && step.p == p {
        assert VerifyReleaseToken(s.latch.rec, step.token, step.auth, step.at, step.wallClock).Ok?;
      }
    }
  }

  /**
   * After a crash anywhere, presenting a token whose honored line is already journaled is
   * accepted only for a latch of the very binding that line names: no other latch ends by it.
   */
  lemma RebootHonorsOnlyTheSameLatch(
    cfg: Config, run: seq<Step>, line: Line, p: nat, auth: Authority, at: Stamp, wallClock: Instant)
    requires Valid(cfg, run) && line in After(cfg, run).journal && line.Honored?
    requires p !in After(cfg, run).procs && After(cfg, run).latch.Holds?
    requires p in Next(cfg, After(cfg, run), ReadToken(p, line.token, auth, at, wallClock)).procs
    ensures BindingOf(After(cfg, run).latch.rec) == BindingOf(line.rec) && BindingOf(line.rec).Some?
    ensures After(cfg, run).latch.rec.latchId == line.rec.latchId
  {
    HonoredLinesVouched(cfg, run);
    var auth1, at1, wall1 :| VerifyReleaseToken(line.rec, line.token, auth1, at1, wall1).Ok?;
    TokenNamesOneLatch(line.token, line.rec, auth1, at1, wall1, After(cfg, run).latch.rec, auth, at, wallClock);
  }

  // ---- refusals ------------------------------------------------------------

  ghost predicate NoRepeatedRefusals(journal: seq<Line>)
  {
    forall k | 0 < k < |journal| :: !RepeatedRefusal(journal[k - 1], journal[k])
  }

  /** Over every run no two adjacent journal lines refuse the same token for the same reason. */
  lemma {:induction false} RefusalsNeverRepeat(cfg: Config, run: seq<Step>)
    requires Valid(cfg, run)
    ensures NoRepeatedRefusals(After(cfg, run).journal)
    ensures forall p | p in After(cfg, run).procs && IsReleaser(After(cfg, run).procs[p]) ::
      !After(cfg, run).procs[p].line.Refused?
  {
    if run != [] {
      RefusalsNeverRepeat(cfg, run[..|run| - 1]);
      RefusalStep(cfg, After(cfg, run[..|run| - 1]), run[|run| - 1]);
    }
  }

  lemma RefusalStep(cfg: Config, s: Node, step: Step)
    requires Enabled(cfg, s, step) && NoRepeatedRefusals(s.journal)
    requires forall p | p in s.procs && IsReleaser(s.procs[p]) :: !s.procs[p].line.Refused?
    ensures NoRepeatedRefusals(Effect(cfg, s, step).journal)
    ensures forall p | p in Effect(cfg, s, step).procs && IsReleaser(Effect(cfg, s, step).procs[p]) ::
      !Effect(cfg, s, step).procs[p].line.Refused?
  {}

  /** One boot of a node supervised in a restart loop: everything in memory is gone, the token is read. */
  datatype Boot = Boot(at: Stamp, wallClock: Instant)

  function BootLoop(cfg: Config, s: Node, token: ReleaseToken, auth: Authority, boots: seq<Boot>): Node
  {
    if boots == [] then s
    else
      var b := boots[|boots| - 1];
      Next(cfg, Next(cfg, BootLoop(cfg, s, token, auth, boots[..|boots| - 1]), Crash({})),
           ReadToken(0, token, auth, b.at, b.wallClock))
  }

  function ReasonAt(rec: HaltRecord, token: ReleaseToken, auth: Authority, b: Boot): Option<Refusal>
  {
    match VerifyReleaseToken(rec, token, auth, b.at, b.wallClock)
    case Ok(_) => None
    case Err(reason) => Some(reason)
  }

  /** The reason the journal's last line gives for refusing this token, if that is what it is. */
  function LastReason(journal: seq<Line>, token: ReleaseToken): Option<Refusal>
  {
    if journal != [] && journal[|journal| - 1].Refused? && journal[|journal| - 1].token == token
    then Some(journal[|journal| - 1].reason) else None
  }

  /** How often the reason differs from the one before, starting from `last`. */
  function Changes(last: Option<Refusal>, reasons: seq<Option<Refusal>>): nat
    decreases |reasons|
  {
    if reasons == [] then 0
    else (if reasons[0] == last then 0 else 1) + Changes(reasons[0], reasons[1..])
  }

  function Reasons(rec: HaltRecord, token: ReleaseToken, auth: Authority, boots: seq<Boot>): seq<Option<Refusal>>
  {
    seq(|boots|, i requires 0 <= i < |boots| => ReasonAt(rec, token, auth, boots[i]))
  }

  function LastOf(last: Option<Refusal>, reasons: seq<Option<Refusal>>): Option<Refusal>
  {
    if reasons == [] then last else reasons[|reasons| - 1]
  }

  lemma ReasonsAppend(rec: HaltRecord, token: ReleaseToken, auth: Authority, boots: seq<Boot>)
    requires boots != []
    ensures Reasons(rec, token, auth, boots)
         == Reasons(rec, token, auth, boots[..|boots| - 1]) + [ReasonAt(rec, token, auth, boots[|boots| - 1])]
  {}

  lemma {:induction false} ChangesAppend(last: Option<Refusal>, reasons: seq<Option<Refusal>>, r: Option<Refusal>)
    ensures Changes(last, reasons + [r])
         == Changes(last, reasons) + (if r == LastOf(last, reasons) then 0 else 1)
    decreases |reasons|
  {
    if reasons == [] {
      assert ([r])[1..] == [];
    } else {
      assert (reasons + [r])[1..] == reasons[1..] + [r];
      ChangesAppend(reasons[0], reasons[1..], r);
    }
  }

  lemma BootOnce(cfg: Config, s: Node, token: ReleaseToken, auth: Authority, b: Boot, reason: Refusal)
    requires s.latch.Holds? && ReasonAt(s.latch.rec, token, auth, b) == Some(reason)
    ensures
      var s' := Next(cfg, Next(cfg, s, Crash({})), ReadToken(0, token, auth, b.at, b.wallClock));
      && s'.latch == s.latch
      && |s'.journal| == |s.journal| + (if LastReason(s.journal, token) == Some(reason) then 0 else 1)
      && LastReason(s'.journal, token) == Some(reason)
  {}

  /**
   * A refused token restarted against the same latch any number of times leaves the latch as
   * it was and adds exactly one journal line per change of reason.
   */
  lemma {:induction false} RestartLoopCounts(
    cfg: Config, s: Node, token: ReleaseToken, auth: Authority, boots: seq<Boot>)
    requires s.latch.Holds?
    requires forall b | b in boots :: ReasonAt(s.latch.rec, token, auth, b).Some?
    ensures
      var s' := BootLoop(cfg, s, token, auth, boots);
      var reasons := Reasons(s.latch.rec, token, auth, boots);
      && s'.latch == s.latch
      && |s'.journal| == |s.journal| + Changes(LastReason(s.journal, token), reasons)
      && LastReason(s'.journal, token) == LastOf(LastReason(s.journal, token), reasons)
  {
    if boots != [] {
      var pre, b := boots[..|boots| - 1], boots[|boots| - 1];
      RestartLoopCounts(cfg, s, token, auth, pre);
      BootOnce(cfg, BootLoop(cfg, s, token, auth, pre), token, auth, b, ReasonAt(s.latch.rec, token, auth, b).value);
      ReasonsAppend(s.latch.rec, token, auth, boots);
      ChangesAppend(LastReason(s.journal, token), Reasons(s.latch.rec, token, auth, pre),
                    ReasonAt(s.latch.rec, token, auth, b));
    }
  }

  lemma {:induction false} SameReasonChangesOnce(last: Option<Refusal>, reasons: seq<Option<Refusal>>, r: Option<Refusal>)
    requires forall k | 0 <= k < |reasons| :: reasons[k] == r
    ensures Changes(last, reasons) <= 1
    ensures last == r ==> Changes(last, reasons) == 0
    decreases |reasons|
  {
    if reasons != [] {
      SameReasonChangesOnce(r, reasons[1..], r);
    }
  }

  /** For a reason that does not read the clock, a restart loop adds at most one line. */
  lemma ClockFreeRefusalJournaledOnce(
    cfg: Config, s: Node, token: ReleaseToken, auth: Authority, boots: seq<Boot>, reason: Refusal)
    requires s.latch.Holds?
    requires forall b | b in boots :: ReasonAt(s.latch.rec, token, auth, b) == Some(reason)
    ensures |BootLoop(cfg, s, token, auth, boots).journal| <= |s.journal| + 1
    ensures BootLoop(cfg, s, token, auth, boots).latch == s.latch
  {
    RestartLoopCounts(cfg, s, token, auth, boots);
    SameReasonChangesOnce(LastReason(s.journal, token), Reasons(s.latch.rec, token, auth, boots), Some(reason));
  }

  lemma {:induction false} DistinctReasonsChangeAlways(last: Option<Refusal>, reasons: seq<Option<Refusal>>)
    requires reasons != [] ==> reasons[0] != last
    requires forall k | 0 < k < |reasons| :: reasons[k] != reasons[k - 1]
    ensures Changes(last, reasons) == |reasons|
    decreases |reasons|
  {
    if reasons != [] {
      DistinctReasonsChangeAlways(reasons[0], reasons[1..]);
    }
  }

  lemma ExpiredReasonNamesTheClock(rec: HaltRecord, token: ReleaseToken, auth: Authority, b: Boot)
    requires ReasonAt(rec, token, auth, b).Some? && ReasonAt(rec, token, auth, b).value.Expired?
    ensures ReasonAt(rec, token, auth, b).value.now == b.at
  {}

  /**
   * An expired token is not such a reason: its text carries the clock, so every boot whose
   * clock reads differently from the boot before adds a line, and the loop grows the journal
   * without bound.
   */
  lemma ExpiredRefusalJournaledEveryBoot(
    cfg: Config, s: Node, token: ReleaseToken, auth: Authority, boots: seq<Boot>)
    requires s.latch.Holds?
    requires forall b | b in boots ::
      ReasonAt(s.latch.rec, token, auth, b).Some? && ReasonAt(s.latch.rec, token, auth, b).value.Expired?
    requires forall k | 0 < k < |boots| :: boots[k].at != boots[k - 1].at
    requires LastReason(s.journal, token).None?
    ensures |BootLoop(cfg, s, token, auth, boots).journal| == |s.journal| + |boots|
  {
    RestartLoopCounts(cfg, s, token, auth, boots);
    var reasons := Reasons(s.latch.rec, token, auth, boots);
    forall k | 0 < k < |reasons|
      ensures reasons[k] != reasons[k - 1]
    {
      ExpiredReasonNamesTheClock(s.latch.rec, token, auth, boots[k]);
      ExpiredReasonNamesTheClock(s.latch.rec, token, auth, boots[k - 1]);
    }
    DistinctReasonsChangeAlways(LastReason(s.journal, token), reasons);
  }
}
