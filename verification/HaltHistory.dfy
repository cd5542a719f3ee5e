// What the latch says, told from the history alone.  A confirmation reads the latch and writes
// it back later, and a handler in between may have ended or replaced the halt it read: the
// latch agrees with history exactly where no such stale confirmation has the last word.

module HaltHistory {
  import opened Prelude
  import opened Accord
  import opened HaltRecords
  import opened HaltPlane

  /** What the status surface answers; an unreadable latch must not read as "not halted". */
  datatype Status = Halted | NotHalted(lapsed: bool) | Unknown

  function StatusAt(latch: LatchFile, t: Instant): Status
  {
    match latch
    case Absent => NotHalted(false)
    case Unreadable => Unknown
    case Holds(rec) => if rec.InEffectAt(t) then Halted else NotHalted(true)
  }

  // ---- history -------------------------------------------------------------

  predicate EndsTheLatch(step: Step)
  {
    step.Remove? || step.Reactivate? || step.Damage?
  }

  predicate Writes(step: Step)
  {
    step.WriteHalt? || step.Confirm?
  }

  /** A step after which whatever halt stood before is no longer the one that stands. */
  predicate Turns(step: Step)
  {
    step.WriteHalt? || EndsTheLatch(step)
  }

  /** Step `i` wrote the latch for a constitutional row and nothing since replaced or ended it. */
  ghost predicate Standing(run: seq<Step>, i: int)
  {
    0 <= i < |run| && run[i].WriteHalt? && forall k | i < k < |run| :: !Turns(run[k])
  }

  /** Step `r` is where the handler that writes in step `j` read the latch. */
  ghost predicate ReadAt(run: seq<Step>, r: int, j: int)
  {
    && 0 <= r < j < |run| && run[r].Decide? && run[j].Confirm? && run[r].p == run[j].p
    && forall m | r < m < j :: !run[m].Crash? && !(run[m].Decide? && run[m].p == run[j].p)
  }

  /** Step `r` is a strict majority's confirmation naming the halt of step `i`, inside its fuse. */
  predicate NamesInTime(i: Step, r: Step)
  {
    && i.WriteHalt? && r.Decide?
    && r.row.inv.kind.LifecycleConfirmed? && QuorumMet(r.row, r.roster)
    && r.row.inv.confirmsHaltId == Some(i.rec.invocationId) && r.readAt < i.rec.LapsesAt()
  }

  /** Such a confirmation was read in step `r`, after the halt was written in `i`, and written in `j`. */
  ghost predicate ConfirmedInTime(run: seq<Step>, i: int, r: int, j: int)
  {
    0 <= i < r && ReadAt(run, r, j) && NamesInTime(run[i], run[r])
  }

  /**
   * What is promised: a halt stands, and either its fuse has not run out or a strict majority
   * confirmed it inside the fuse.
   */
  ghost predicate Promised(run: seq<Step>, t: Instant)
  {
    exists i :: Standing(run, i) && (t < run[i].rec.LapsesAt() || exists r, j :: ConfirmedInTime(run, i, r, j))
  }

  // ---- the last write ------------------------------------------------------

  /** Step `i` wrote the latch and nothing since wrote or ended it. */
  ghost predicate LastWrite(run: seq<Step>, i: int)
  {
    0 <= i < |run| && Writes(run[i]) && forall k | i < k < |run| :: !Writes(run[k]) && !EndsTheLatch(run[k])
  }

  lemma LastWriteExtends(pre: seq<Step>, step: Step, i: int)
    ensures i < |pre| ==> (LastWrite(pre + [step], i) <==> LastWrite(pre, i) && !Writes(step) && !EndsTheLatch(step))
    ensures LastWrite(pre + [step], |pre|) <==> Writes(step)
  {
    var run := pre + [step];
    assert forall k | 0 <= k < |pre| :: run[k] == pre[k];
    assert run[|pre|] == step;
  }

  /** The only ways a step moves the latch. */
  lemma LatchMoves(cfg: Config, s: Node, step: Step)
    requires Enabled(cfg, s, step)
    ensures Writes(step) ==> Effect(cfg, s, step).latch == Holds(step.rec)
    ensures step.WriteHalt? ==> step.rec.confirmed.None?
    ensures EndsTheLatch(step) ==> !Effect(cfg, s, step).latch.Holds?
    ensures !Writes(step) && !EndsTheLatch(step) ==> Effect(cfg, s, step).latch == s.latch
  {}

  /** The latch is what the last write wrote, and nothing is on disk that no last write wrote. */
  lemma {:induction false} LatchIsLastWrite(cfg: Config, run: seq<Step>)
    requires Valid(cfg, run)
    ensures After(cfg, run).latch.Holds? ==> exists i :: LastWrite(run, i) && run[i].rec == After(cfg, run).latch.rec
    ensures !After(cfg, run).latch.Holds? ==> forall i :: !LastWrite(run, i)
  {
    if run != [] {
      var pre, step := run[..|run| - 1], run[|run| - 1];
      assert run == pre + [step];
      LatchIsLastWrite(cfg, pre);
      LatchMoves(cfg, After(cfg, pre), step);
      forall i
        ensures i < |pre| ==> (LastWrite(run, i) <==> LastWrite(pre, i) && !Writes(step) && !EndsTheLatch(step))
      {
        LastWriteExtends(pre, step, i);
      }
      LastWriteExtends(pre, step, |pre|);
      if Writes(step) {
        assert LastWrite(run, |pre|);
      } else if After(cfg, run).latch.Holds? {
        var i :| LastWrite(pre, i) && pre[i].rec == After(cfg, pre).latch.rec;
        assert LastWrite(run, i);
      }
    }
  }

  /** After a write that nothing ended there is a last one, no earlier. */
  lemma {:induction false} SomeLastWrite(run: seq<Step>, i: int) returns (k: int)
    requires 0 <= i < |run| && Writes(run[i]) && forall m | i < m < |run| :: !EndsTheLatch(run[m])
    ensures i <= k && LastWrite(run, k)
    decreases |run| - i
  {
    if j :| i < j < |run| && Writes(run[j]) {
      k := SomeLastWrite(run, j);
    } else {
      k := i;
    }
  }

  // ---- what the status tells -----------------------------------------------

  /** Nothing latched, a latch that lapsed, one in effect and one that cannot be read are each told as what they are. */
  lemma StatusTells(latch: LatchFile, t: Instant)
    ensures StatusAt(latch, t) == NotHalted(false) <==> latch == Absent
    ensures StatusAt(latch, t) == Unknown <==> latch == Unreadable
    ensures StatusAt(latch, t) == NotHalted(true) <==> latch.Holds? && latch.rec.confirmed.None? && latch.rec.LapsesAt() <= t
    ensures StatusAt(latch, t) == Halted <==> latch.Holds? && (latch.rec.confirmed.Some? || t < latch.rec.LapsesAt())
  {}

  /** Step `k` damaged the latch and nothing since wrote or ended it. */
  ghost predicate Damaged(run: seq<Step>, k: int)
  {
    0 <= k < |run| && run[k].Damage? && forall m | k < m < |run| :: !Writes(run[m]) && !EndsTheLatch(run[m])
  }

  lemma DamagedExtends(pre: seq<Step>, step: Step, k: int)
    ensures k < |pre| ==> (Damaged(pre + [step], k) <==> Damaged(pre, k) && !Writes(step) && !EndsTheLatch(step))
    ensures Damaged(pre + [step], |pre|) <==> step.Damage?
  {
    var run := pre + [step];
    assert run[|pre|] == step && forall m | 0 <= m < |pre| :: run[m] == pre[m];
  }

  /**
   * A damaged latch is never told as "not halted": from the damage until something writes or
   * removes the latch, and only then, the status is Unknown, at every instant.
   */
  lemma {:induction false} DamageIsToldUnknown(cfg: Config, run: seq<Step>, t: Instant)
    requires Valid(cfg, run)
    ensures StatusAt(After(cfg, run).latch, t) == Unknown <==> exists k :: Damaged(run, k)
  {
    if run != [] {
      var pre, step := run[..|run| - 1], run[|run| - 1];
      assert run == pre + [step];
      DamageIsToldUnknown(cfg, pre, t);
      StatusTells(After(cfg, pre).latch, t);
      StatusTells(After(cfg, run).latch, t);
      LatchMoves(cfg, After(cfg, pre), step);
      forall k
        ensures k < |pre| ==> (Damaged(run, k) <==> Damaged(pre, k) && !Writes(step) && !EndsTheLatch(step))
      {
        DamagedExtends(pre, step, k);
      }
      DamagedExtends(pre, step, |pre|);
    }
  }

  // ---- where a confirmation comes from -------------------------------------

  /** Handler `p` read the latch in step `r` and has held `rec` to write since. */
  ghost predicate HeldSince(cfg: Config, run: seq<Step>, p: nat, rec: HaltRecord, r: int)
  {
    && 0 <= r < |run| && run[r].Decide? && run[r].p == p
    && (forall m | r < m < |run| :: !run[m].Crash? && !(run[m].Decide? && run[m].p == p))
    && QuorumMet(run[r].row, run[r].roster)
    && FreshlyConfirms(After(cfg, run[..r]).latch, run[r].row, run[r].readAt)
    && rec == Confirmed(After(cfg, run[..r]).latch.rec, run[r].row, run[r].roster, run[r].readAt)
  }

  /** Every handler that decides carries a row at its threshold, on a node with a home. */
  ghost predicate Deciders(cfg: Config, s: Node)
  {
    forall p | p in s.procs && s.procs[p].Deciding? ::
      cfg.home && IsLifecycle(s.procs[p].row.inv.kind) && QuorumMet(s.procs[p].row, s.procs[p].roster)
  }

  lemma DeciderMoves(cfg: Config, s: Node, step: Step, p: nat)
    requires Enabled(cfg, s, step) && p in Effect(cfg, s, step).procs && Effect(cfg, s, step).procs[p].Deciding?
    ensures
      var proc := Effect(cfg, s, step).procs[p];
      if p in s.procs && s.procs[p].Deciding? then proc == s.procs[p] && !step.Crash?
      else
        && step.Receive? && step.p == p && step.row == proc.row && step.roster == proc.roster
        && cfg.home && IsLifecycle(proc.row.inv.kind) && QuorumMet(proc.row, proc.roster)
  {}

  lemma {:induction false} DecidersMeetQuorum(cfg: Config, run: seq<Step>)
    requires Valid(cfg, run)
    ensures Deciders(cfg, After(cfg, run))
  {
    if run != [] {
      var pre := run[..|run| - 1];
      DecidersMeetQuorum(cfg, pre);
      forall p | p in After(cfg, run).procs && After(cfg, run).procs[p].Deciding?
        ensures var proc := After(cfg, run).procs[p];
          cfg.home && IsLifecycle(proc.row.inv.kind) && QuorumMet(proc.row, proc.roster)
      {
        DeciderMoves(cfg, After(cfg, pre), run[|run| - 1], p);
      }
    }
  }

  lemma ConfirmerMoves(cfg: Config, s: Node, step: Step, p: nat)
    requires Enabled(cfg, s, step) && p in Effect(cfg, s, step).procs && Effect(cfg, s, step).procs[p].Confirming?
    ensures
      var proc := Effect(cfg, s, step).procs[p];
      if p in s.procs && s.procs[p].Confirming? then
        proc == s.procs[p] && !step.Crash? && !(step.Decide? && step.p == p)
      else
        && step.Decide? && step.p == p && p in s.procs && s.procs[p].Deciding?
        && s.procs[p].row == step.row && s.procs[p].roster == step.roster
        && FreshlyConfirms(s.latch, step.row, step.readAt)
        && proc.rec == Confirmed(s.latch.rec, step.row, step.roster, step.readAt)
  {}

  lemma {:induction false} ConfirmerHasRead(cfg: Config, run: seq<Step>, p: nat)
    requires Valid(cfg, run) && p in After(cfg, run).procs && After(cfg, run).procs[p].Confirming?
    ensures exists r :: HeldSince(cfg, run, p, After(cfg, run).procs[p].rec, r)
  {
    var pre, step := run[..|run| - 1], run[|run| - 1];
    assert run == pre + [step];
    ConfirmerMoves(cfg, After(cfg, pre), step, p);
    if p in After(cfg, pre).procs && After(cfg, pre).procs[p].Confirming? {
      ConfirmerHasRead(cfg, pre, p);
      var r :| HeldSince(cfg, pre, p, After(cfg, pre).procs[p].rec, r);
      assert run[..r] == pre[..r];
      assert HeldSince(cfg, run, p, After(cfg, run).procs[p].rec, r);
    } else {
      DecidersMeetQuorum(cfg, pre);
      assert run[..|pre|] == pre;
      assert HeldSince(cfg, run, p, After(cfg, run).procs[p].rec, |pre|);
    }
  }

  /**
   * A confirmation written in step `j` was read in a step `r` of the same handler, found the
   * halt of a constitutional write `i` still standing, named it and was inside its fuse.
   */
  lemma ConfirmationHasOrigin(cfg: Config, run: seq<Step>, j: int) returns (i: int, r: int)
    requires Valid(cfg, run) && 0 <= j < |run| && run[j].Confirm?
    ensures ReadAt(run, r, j) && 0 <= i < r && NamesInTime(run[i], run[r])
    ensures run[j].rec == Confirmed(run[i].rec, run[r].row, run[r].roster, run[r].readAt)
    ensures forall k | i < k < r :: !Turns(run[k]) && !Writes(run[k])
  {
    r := ConfirmationWasRead(cfg, run, j);
    i := ReadsAWrite(cfg, run, r);
  }

  lemma ConfirmationWasRead(cfg: Config, run: seq<Step>, j: int) returns (r: int)
    requires Valid(cfg, run) && 0 <= j < |run| && run[j].Confirm?
    ensures ReadAt(run, r, j) && QuorumMet(run[r].row, run[r].roster)
    ensures FreshlyConfirms(After(cfg, run[..r]).latch, run[r].row, run[r].readAt)
    ensures run[j].rec == Confirmed(After(cfg, run[..r]).latch.rec, run[r].row, run[r].roster, run[r].readAt)
  {
    PrefixValid(cfg, run, j);
    var pre, p := run[..j], run[j].p;
    ConfirmerHasRead(cfg, pre, p);
    r :| HeldSince(cfg, pre, p, run[j].rec, r);
    assert run[..r] == pre[..r] && forall m | 0 <= m < j :: run[m] == pre[m];
  }

  /** A latch that is not confirmed was written by the halt path, and nothing wrote or ended it since. */
  lemma ReadsAWrite(cfg: Config, run: seq<Step>, r: int) returns (i: int)
    requires Valid(cfg, run) && 0 <= r <= |run| && After(cfg, run[..r]).latch.Holds?
    requires After(cfg, run[..r]).latch.rec.confirmed.None?
    ensures 0 <= i < r && run[i].WriteHalt? && run[i].rec == After(cfg, run[..r]).latch.rec
    ensures forall k | i < k < r :: !Turns(run[k]) && !Writes(run[k])
  {
    PrefixValid(cfg, run, r);
    LatchIsLastWrite(cfg, run[..r]);
    i :| LastWrite(run[..r], i) && run[..r][i].rec == After(cfg, run[..r]).latch.rec;
    assert run[i] == run[..r][i] && forall k | i < k < r :: run[k] == run[..r][k];
    if run[i].Confirm? {
      ConfirmedWhenWritten(cfg, run, i);
    }
  }

  lemma ConfirmedWhenWritten(cfg: Config, run: seq<Step>, j: int)
    requires Valid(cfg, run) && 0 <= j < |run| && run[j].Confirm?
    ensures run[j].rec.confirmed.Some?
  {
    PrefixValid(cfg, run, j);
    ConfirmerHasRead(cfg, run[..j], run[j].p);
  }

  lemma OneRead(run: seq<Step>, r1: int, r2: int, j: int)
    requires ReadAt(run, r1, j) && ReadAt(run, r2, j)
    ensures r1 == r2
  {}

  // ---- the exact condition -------------------------------------------------

  /** A confirmation written in step `j` that no later step turned over. */
  ghost predicate StandingConfirmation(run: seq<Step>, j: int)
  {
    0 <= j < |run| && run[j].Confirm? && forall k | j < k < |run| :: !Turns(run[k])
  }

  /** Between its reading and its writing the halt it read was ended or replaced. */
  ghost predicate Overtaken(run: seq<Step>, j: int)
  {
    exists r, m :: ReadAt(run, r, j) && r < m < j && Turns(run[m])
  }

  /** The latch holds a confirmation, and every confirmation since the last turn is a stale one. */
  ghost predicate Haunted(run: seq<Step>)
  {
    && (exists j :: StandingConfirmation(run, j))
    && forall j | StandingConfirmation(run, j) :: Overtaken(run, j)
  }

  /** A confirmation that was not overtaken confirms the very halt that stands. */
  lemma NotOvertakenConfirms(cfg: Config, run: seq<Step>, j: int) returns (i: int, r: int)
    requires Valid(cfg, run) && StandingConfirmation(run, j) && !Overtaken(run, j)
    ensures Standing(run, i) && ConfirmedInTime(run, i, r, j)
  {
    i, r := ConfirmationHasOrigin(cfg, run, j);
    forall k | i < k < |run|
      ensures !Turns(run[k])
    {
      if r < k < j {
        assert ReadAt(run, r, j);
      }
    }
  }

  /** One that was overtaken confirms nothing that stands. */
  lemma OvertakenConfirmsNothing(run: seq<Step>, i: int, r: int, j: int)
    requires Overtaken(run, j) && Standing(run, i)
    ensures !ConfirmedInTime(run, i, r, j)
  {
    var r', m :| ReadAt(run, r', j) && r' < m < j && Turns(run[m]);
    if ConfirmedInTime(run, i, r, j) {
      OneRead(run, r, r', j);
    }
  }

  lemma OnlyOneStands(run: seq<Step>, i: int, k: int)
    requires Standing(run, i) && Standing(run, k)
    ensures i == k
  {}

  /** Where the last write is the halt path's own, status and promise agree. */
  lemma AgreesAfterAHalt(cfg: Config, run: seq<Step>, i: int, t: Instant)
    requires Valid(cfg, run) && LastWrite(run, i) && run[i].WriteHalt?
    requires After(cfg, run).latch == Holds(run[i].rec)
    ensures StatusAt(After(cfg, run).latch, t).Halted? <==> Promised(run, t)
  {
    PrefixValid(cfg, run, i);
    assert Standing(run, i);
    forall k | Standing(run, k)
      ensures k == i
    {
      OnlyOneStands(run, i, k);
    }
  }

  /** The status at `t` is Halted exactly when the last write is a confirmation, or `t` is inside its fuse. */
  lemma StatusIsLastWrite(cfg: Config, run: seq<Step>, i: int, t: Instant)
    requires Valid(cfg, run) && LastWrite(run, i)
    ensures After(cfg, run).latch == Holds(run[i].rec)
    ensures StatusAt(After(cfg, run).latch, t).Halted? <==> run[i].Confirm? || t < run[i].rec.LapsesAt()
  {
    LatchIsLastWrite(cfg, run);
    var k :| LastWrite(run, k) && run[k].rec == After(cfg, run).latch.rec;
    assert i == k;
    if run[i].Confirm? {
      ConfirmedWhenWritten(cfg, run, i);
    } else {
      PrefixValid(cfg, run, i);
    }
  }

  lemma AgreesUnlessHaunted(cfg: Config, run: seq<Step>, t: Instant)
    requires Valid(cfg, run) && !Haunted(run)
    ensures StatusAt(After(cfg, run).latch, t).Halted? <==> Promised(run, t)
  {
    LatchIsLastWrite(cfg, run);
    if k :| LastWrite(run, k) {
      StatusIsLastWrite(cfg, run, k, t);
      if run[k].Confirm? {
        assert StandingConfirmation(run, k);
        var j :| StandingConfirmation(run, j) && !Overtaken(run, j);
        var i, r := NotOvertakenConfirms(cfg, run, j);
      } else {
        AgreesAfterAHalt(cfg, run, k, t);
      }
    } else {
      forall i | Standing(run, i)
        ensures false
      {
        var k := SomeLastWrite(run, i);
      }
    }
  }

  /** What a haunted latch gets wrong: Halted at every instant, promised at none past any fuse. */
  lemma HauntedIsHaltedForever(cfg: Config, run: seq<Step>, t: Instant)
    requires Valid(cfg, run) && Haunted(run)
    ensures StatusAt(After(cfg, run).latch, t).Halted?
    ensures Promised(run, t) <==> exists i :: Standing(run, i) && t < run[i].rec.LapsesAt()
  {
    var j :| StandingConfirmation(run, j);
    var k := SomeLastWrite(run, j);
    StatusIsLastWrite(cfg, run, k, t);
    forall i, r, j' | Standing(run, i) && ConfirmedInTime(run, i, r, j')
      ensures false
    {
      assert StandingConfirmation(run, j');
      OvertakenConfirmsNothing(run, i, r, j');
    }
  }

  lemma PastEveryFuse(run: seq<Step>) returns (t: Instant)
    ensures forall i | Standing(run, i) :: run[i].rec.LapsesAt() <= t
  {
    t := 0;
    if i :| Standing(run, i) {
      t := run[i].rec.LapsesAt();
      forall k | Standing(run, k)
        ensures k == i
      {
        OnlyOneStands(run, i, k);
      }
    }
  }

  /**
   * Over every run from first boot, the status agrees with history at every instant exactly
   * when the latch is not haunted: either no confirmation was written since the halt that
   * stands was, or one of those that were found the latch untouched between its reading and
   * its writing.
   */
  lemma StatusAgreesWithHistory(cfg: Config, run: seq<Step>)
    requires Valid(cfg, run)
    ensures (forall t :: StatusAt(After(cfg, run).latch, t).Halted? <==> Promised(run, t)) <==> !Haunted(run)
  {
    if Haunted(run) {
      var t := PastEveryFuse(run);
      HauntedIsHaltedForever(cfg, run, t);
    } else {
      forall t
        ensures StatusAt(After(cfg, run).latch, t).Halted? <==> Promised(run, t)
      {
        AgreesUnlessHaunted(cfg, run, t);
      }
    }
  }

  // ---- a stale confirmation ------------------------------------------------

  lemma OneMore(cfg: Config, run: seq<Step>, step: Step)
    requires Valid(cfg, run) && Enabled(cfg, After(cfg, run), step)
    ensures Valid(cfg, run + [step]) && After(cfg, run + [step]) == Effect(cfg, After(cfg, run), step)
  {
    assert (run + [step])[..|run|] == run;
  }

  /** The run goes on without latching a constitutional row and without a crash. */
  ghost predicate GoesOn(run: seq<Step>, longer: seq<Step>)
  {
    run <= longer && forall k | |run| <= k < |longer| :: !longer[k].WriteHalt? && !longer[k].Crash?
  }

  /** Handler `p` is `own`, or over, and everything else a reader of the latch sees is as it was. */
  ghost predicate OnlyReads(s: Node, s': Node, p: nat, own: Option<Proc>)
  {
    && s'.latch == s.latch && (p in s'.procs <==> own.Some?) && (own.Some? ==> s'.procs[p] == own.value)
    && forall q | q != p :: (q in s'.procs <==> q in s.procs) && (q in s.procs ==> s'.procs[q] == s.procs[q])
  }

  function Sighting(s: Node, row: Row, roster: seq<Member>, at: Instant): Proc
  {
    Deciding(row, roster, at, FirstSight(s, KeyOf(row, roster)))
  }

  lemma ReceivesToDecide(cfg: Config, s: Node, p: nat, row: Row, roster: seq<Member>, at: Instant)
    requires cfg.home && p !in s.procs && IsLifecycle(row.inv.kind) && QuorumMet(row, roster)
    ensures Enabled(cfg, s, Receive(p, row, roster, at))
    ensures OnlyReads(s, Effect(cfg, s, Receive(p, row, roster, at)), p, Some(Sighting(s, row, roster, at)))
  {
    QuorumNeedsASeat(row, roster);
  }

  lemma DecidesNow(cfg: Config, s: Node, p: nat, proc: Proc, at: Instant)
    requires p in s.procs && s.procs[p] == proc && proc.Deciding?
    ensures Enabled(cfg, s, Decide(p, proc.row, proc.roster, at))
    ensures OnlyReads(s, Effect(cfg, s, Decide(p, proc.row, proc.roster, at)), p, Decided(s.latch, proc, at))
  {}

  lemma ReadsOn(a: Node, b: Node, c: Node, p: nat, mid: Option<Proc>, own: Option<Proc>)
    requires OnlyReads(a, b, p, mid) && OnlyReads(b, c, p, own)
    ensures OnlyReads(a, c, p, own)
  {}

  lemma GoesOnByTwo(run: seq<Step>, a: Step, b: Step)
    requires !a.WriteHalt? && !a.Crash? && !b.WriteHalt? && !b.Crash?
    ensures GoesOn(run, run + [a] + [b])
  {}

  /** Receiving a confirmation or resumption and then reading the latch, with nothing in between. */
  lemma ReadsTheLatch(cfg: Config, run: seq<Step>, p: nat, row: Row, roster: seq<Member>, at: Instant) returns (longer: seq<Step>)
    requires Valid(cfg, run) && cfg.home && p !in After(cfg, run).procs
    requires IsLifecycle(row.inv.kind) && QuorumMet(row, roster)
    ensures GoesOn(run, longer) && Valid(cfg, longer)
    ensures
      var s := After(cfg, run);
      OnlyReads(s, After(cfg, longer), p, Decided(s.latch, Sighting(s, row, roster, at), at))
  {
    var s := After(cfg, run);
    ReceivesToDecide(cfg, s, p, row, roster, at);
    OneMore(cfg, run, Receive(p, row, roster, at));
    var next := run + [Receive(p, row, roster, at)];
    DecidesNow(cfg, After(cfg, next), p, Sighting(s, row, roster, at), at);
    OneMore(cfg, next, Decide(p, row, roster, at));
    longer := next + [Decide(p, row, roster, at)];
    GoesOnByTwo(run, Receive(p, row, roster, at), Decide(p, row, roster, at));
    ReadsOn(s, After(cfg, next), After(cfg, longer), p, Some(Sighting(s, row, roster, at)),
            Decided(s.latch, Sighting(s, row, roster, at), at));
  }

  /** A releaser journals and removes, with nothing in between. */
  lemma ReleaserFinishes(cfg: Config, run: seq<Step>, p: nat) returns (longer: seq<Step>)
    requires Valid(cfg, run) && p in After(cfg, run).procs
    requires After(cfg, run).procs[p].Resuming? && !After(cfg, run).procs[p].journaled
    ensures GoesOn(run, longer) && Valid(cfg, longer) && longer != [] && longer[|longer| - 1] == Remove(p)
    ensures forall q | q != p && q in After(cfg, run).procs ::
      q in After(cfg, longer).procs && After(cfg, longer).procs[q] == After(cfg, run).procs[q]
  {
    OneMore(cfg, run, Journal(p));
    OneMore(cfg, run + [Journal(p)], Remove(p));
    longer := run + [Journal(p)] + [Remove(p)];
  }

  /** One handler holds a confirmation when another removes the latch. */
  lemma OvertakesAConfirmation(
    cfg: Config, run: seq<Step>, conf: Row, resumption: Row, roster: seq<Member>, at: Instant) returns (longer: seq<Step>)
    requires Valid(cfg, run) && cfg.home && After(cfg, run).procs == map[]
    requires QuorumMet(conf, roster) && FreshlyConfirms(After(cfg, run).latch, conf, at)
    requires QuorumMet(resumption, roster) && Resumes(After(cfg, run).latch, resumption)
    ensures Valid(cfg, longer) && GoesOn(run, longer) && longer != [] && longer[|longer| - 1].Remove?
    ensures 0 in After(cfg, longer).procs && After(cfg, longer).procs[0].Confirming?
  {
    var read := ReadsTheLatch(cfg, run, 0, conf, roster, at);
    var both := ReadsTheLatch(cfg, read, 1, resumption, roster, at);
    longer := ReleaserFinishes(cfg, both, 1);
    GoesOnAndOn(run, read, both);
    GoesOnAndOn(run, both, longer);
  }

  lemma GoesOnAndOn(a: seq<Step>, b: seq<Step>, c: seq<Step>)
    requires GoesOn(a, b) && GoesOn(b, c)
    ensures GoesOn(a, c)
  {}

  /**
   * From any quiet state in which an unconfirmed halt is in effect: a confirmation reads the
   * latch, a strict majority's resumption naming the same halt journals and removes it, the
   * confirmation writes what it read.  The status is Halted at every instant from then on, and
   * no halt stands.
   */
  lemma StaleConfirmationRevives(
    cfg: Config, run: seq<Step>, conf: Row, resumption: Row, roster: seq<Member>, at: Instant) returns (longer: seq<Step>)
    requires Valid(cfg, run) && cfg.home && After(cfg, run).procs == map[]
    requires QuorumMet(conf, roster) && FreshlyConfirms(After(cfg, run).latch, conf, at)
    requires QuorumMet(resumption, roster) && Resumes(After(cfg, run).latch, resumption)
    ensures Valid(cfg, longer) && GoesOn(run, longer)
    ensures forall t :: StatusAt(After(cfg, longer).latch, t).Halted? && !Promised(longer, t)
  {
    var released := OvertakesAConfirmation(cfg, run, conf, resumption, roster, at);
    var step := Confirm(0, After(cfg, released).procs[0].rec);
    OneMore(cfg, released, step);
    longer := released + [step];
    GoesOnAndOn(run, released, longer);
    ConfirmedWhenWritten(cfg, longer, |released|);
    forall i
      ensures !Standing(longer, i)
    {
      NoneStandsAfter(longer, i, |released| - 1);
    }
  }

  /** Such a quiet state is one receipt and one write away, here on a node with no peers. */
  lemma AHaltStands(cfg: Config, row: Row, roster: seq<Member>, now: Instant) returns (run: seq<Step>)
    requires cfg.home && cfg.peers == [] && row.inv.kind.Constitutional? && QuorumMet(row, roster)
    ensures Valid(cfg, run) && After(cfg, run).procs == map[] && After(cfg, run).latch.Holds?
    ensures After(cfg, run).latch.rec.invocationId == row.inv.id && After(cfg, run).latch.rec.confirmed.None?
    ensures After(cfg, run).latch.rec.LapsesAt() == now + MinNat(cfg.fuse, I64_MAX) * SECOND
  {
    QuorumNeedsASeat(row, roster);
    assert Valid(cfg, []) && After(cfg, []) == FirstBoot;
    OneMore(cfg, [], Receive(0, row, roster, now));
    run := [] + [Receive(0, row, roster, now)];
    var write := WriteHalt(0, RecordFor(cfg, After(cfg, run).procs[0], None));
    OneMore(cfg, run, write);
    run := run + [write];
  }

  /** So on a node with no peers that first boots, any halt and any two such rows that name it will do. */
  lemma StaleConfirmationFromBoot(
    cfg: Config, halt: Row, conf: Row, resumption: Row, roster: seq<Member>, at: Instant) returns (run: seq<Step>)
    requires cfg.home && cfg.peers == [] && 0 < cfg.fuse && halt.inv.kind.Constitutional? && QuorumMet(halt, roster)
    requires conf.inv.kind.LifecycleConfirmed? && QuorumMet(conf, roster) && conf.inv.confirmsHaltId == Some(halt.inv.id)
    requires resumption.inv.kind.LifecycleActive? && QuorumMet(resumption, roster)
    requires resumption.inv.resumesHaltId == Some(halt.inv.id)
    ensures Valid(cfg, run) && forall t :: StatusAt(After(cfg, run).latch, t).Halted? && !Promised(run, t)
  {
    var halted := AHaltStands(cfg, halt, roster, at);
    run := StaleConfirmationRevives(cfg, halted, conf, resumption, roster, at);
  }

  lemma NoneStandsAfter(run: seq<Step>, i: int, k: int)
    requires 0 <= k < |run| && EndsTheLatch(run[k]) && forall m | k < m < |run| :: !run[m].WriteHalt?
    ensures !Standing(run, i)
  {}

  // ---- a lapsed latch is history -------------------------------------------

  /** No handler holds a confirmation it has yet to write. */
  ghost predicate NoneConfirming(s: Node)
  {
    forall p | p in s.procs :: !s.procs[p].Confirming?
  }

  /** No constitutional row is latched, and the clock never reads earlier than `t` where a latch is read. */
  predicate Onward(steps: seq<Step>, t: Instant)
  {
    forall k | 0 <= k < |steps| :: !steps[k].WriteHalt? && (steps[k].Decide? ==> steps[k].readAt >= t)
  }

  lemma LapsedStep(cfg: Config, s: Node, step: Step, t: Instant)
    requires Enabled(cfg, s, step) && NoneConfirming(s) && !StatusAt(s.latch, t).Halted?
    requires !step.WriteHalt? && (step.Decide? ==> step.readAt >= t)
    ensures NoneConfirming(Effect(cfg, s, step)) && !StatusAt(Effect(cfg, s, step).latch, t).Halted?
    ensures Effect(cfg, s, step).latch.Holds? ==> Effect(cfg, s, step).latch == s.latch
  {
    forall p | p in Effect(cfg, s, step).procs
      ensures !Effect(cfg, s, step).procs[p].Confirming?
    {
      if Effect(cfg, s, step).procs[p].Confirming? {
        ConfirmerMoves(cfg, s, step, p);
      }
    }
  }

  /**
   * Once lapsed at `t`, with no confirmation part-way, and as long as the clock never again
   * reads earlier than `t`, the latch is not in effect at any later instant until a
   * constitutional row writes a new one.
   */
  lemma {:induction false} LapsedStaysLapsed(cfg: Config, run: seq<Step>, cont: seq<Step>, t: Instant, later: Instant)
    requires Valid(cfg, run + cont) && Onward(cont, t) && t <= later
    requires !StatusAt(After(cfg, run).latch, t).Halted? && NoneConfirming(After(cfg, run))
    ensures !StatusAt(After(cfg, run + cont).latch, later).Halted?
    ensures !StatusAt(After(cfg, run + cont).latch, t).Halted? && NoneConfirming(After(cfg, run + cont))
    ensures After(cfg, run + cont).latch.Holds? ==> After(cfg, run + cont).latch == After(cfg, run).latch
    decreases |cont|
  {
    if cont == [] {
      assert run + cont == run;
    } else {
      var n := |cont| - 1;
      assert (run + cont)[..|run| + n] == run + cont[..n] && (run + cont)[|run| + n] == cont[n];
      LapsedStaysLapsed(cfg, run, cont[..n], t, later);
      LapsedStep(cfg, After(cfg, run + cont[..n]), cont[n], t);
    }
  }

  ghost predicate Revives(cfg: Config, run: seq<Step>, cont: seq<Step>, t: Instant, later: Instant)
  {
    && Valid(cfg, run + cont) && Onward(cont, t) && t <= later
    && StatusAt(After(cfg, run + cont).latch, later).Halted?
  }

  /**
   * Exactly then: the status can be Halted again after a latch lapsed, with neither a new
   * constitutional row nor a clock that goes back, exactly when some confirmation is part-way,
   * of this halt or of one before it.
   */
  lemma LapsedRevivedIff(cfg: Config, run: seq<Step>, t: Instant)
    requires Valid(cfg, run) && StatusAt(After(cfg, run).latch, t) == NotHalted(true)
    ensures (exists cont, later :: Revives(cfg, run, cont, t, later)) <==> !NoneConfirming(After(cfg, run))
  {
    if cont, later :| Revives(cfg, run, cont, t, later) {
      if NoneConfirming(After(cfg, run)) {
        LapsedStaysLapsed(cfg, run, cont, t, later);
      }
    }
    if p :| p in After(cfg, run).procs && After(cfg, run).procs[p].Confirming? {
      var step := Confirm(p, After(cfg, run).procs[p].rec);
      OneMore(cfg, run, step);
      ConfirmedWhenWritten(cfg, run + [step], |run|);
      assert Revives(cfg, run, [step], t, t);
    }
  }

  // ---- a confirmed latch ---------------------------------------------------

  predicate IsConfirmed(latch: LatchFile)
  {
    latch.Holds? && latch.rec.confirmed.Some?
  }

  ghost predicate ConfirmedAt(cfg: Config, run: seq<Step>, k: nat)
    requires k <= |run|
  {
    IsConfirmed(After(cfg, run[..k]).latch)
  }

  lemma ConfirmedNext(cfg: Config, run: seq<Step>, k: nat)
    requires Valid(cfg, run) && k < |run| && ConfirmedAt(cfg, run, k)
    ensures ConfirmedAt(cfg, run, k + 1) <==> !Turns(run[k])
  {
    PrefixValid(cfg, run, k);
    LatchMoves(cfg, After(cfg, run[..k]), run[k]);
    if run[k].Confirm? {
      ConfirmedWhenWritten(cfg, run, k);
    }
  }

  lemma {:induction false} UnturnedStays(cfg: Config, run: seq<Step>, i: nat, k: nat)
    requires Valid(cfg, run) && i <= k <= |run| && ConfirmedAt(cfg, run, i)
    requires forall m | i <= m < k :: !Turns(run[m])
    ensures ConfirmedAt(cfg, run, k)
    decreases k
  {
    if i < k {
      UnturnedStays(cfg, run, i, k - 1);
      ConfirmedNext(cfg, run, k - 1);
    }
  }

  /**
   * When a confirmed halt stands: a latch confirmed after `i` steps of a run is confirmed at
   * every point from there to its end, and so in effect at every instant, exactly when no step
   * in between latches a constitutional row, removes the latch, reactivates or damages it.
   */
  lemma ConfirmedStandsIff(cfg: Config, run: seq<Step>, i: nat)
    requires Valid(cfg, run) && i <= |run| && ConfirmedAt(cfg, run, i)
    ensures (forall k: nat | i <= k <= |run| :: ConfirmedAt(cfg, run, k)) <==> (forall k | i <= k < |run| :: !Turns(run[k]))
  {
    if forall k | i <= k < |run| :: !Turns(run[k]) {
      forall k: nat | i <= k <= |run|
        ensures ConfirmedAt(cfg, run, k)
      {
        UnturnedStays(cfg, run, i, k);
      }
    } else {
      var k :| i <= k < |run| && Turns(run[k]);
      if ConfirmedAt(cfg, run, k) {
        ConfirmedNext(cfg, run, k);
      }
    }
  }

  /**
   * A confirmed latch does not lapse by itself, but a repeated delivery of the very row that
   * fired it does end the confirmation: the rewritten latch is unconfirmed and lapses.
   */
  lemma RepeatedDeliveryUndoesConfirmation(
    cfg: Config, s: Node, p: nat, row: Row, roster: seq<Member>, now: Instant, latchId: Option<Id>)
    requires cfg.home && p !in s.procs
    requires s.latch.Holds? && s.latch.rec.confirmed.Some? && s.latch.rec.invocationId == row.inv.id
    requires row.inv.kind.Constitutional? && QuorumMet(row, roster)
    requires !FirstSight(s, KeyOf(row, roster))
    ensures
      var s1 := Next(cfg, s, Receive(p, row, roster, now));
      var s2 := Next(cfg, s1, WriteHalt(p, RecordFor(cfg, s1.procs[p], latchId)));
      && (forall t :: StatusAt(s.latch, t).Halted?)
      && s2.latch.Holds? && s2.latch.rec.invocationId == row.inv.id && s2.latch.rec.latchId == latchId
      && (forall t :: StatusAt(s2.latch, t).Halted? <==> t < now + MinNat(cfg.fuse, I64_MAX) * SECOND)
  {
    QuorumNeedsASeat(row, roster);
  }
}
