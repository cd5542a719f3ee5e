// Every interleaving of the join plane with the owner's approvals: a message, a denial or a
// sweep may fall between an approval's reading of a request and its recording, and a held
// approval comes back later by itself.

module JoinRuns {
  import opened Prelude
  import opened JoinApprovals
  import opened JoinHosts

  /** An approval part-way: signing with no lock held, or waiting for the roster to land the key. */
  datatype Task =
    | Signs(id: Id, sender: Id, req: JoinRequest, resumed: bool)
    | Waits(id: Id)

  /** A window the owner opened. */
  datatype Opening = Opening(at: Instant, until: Instant)

  /** How a request came to be held: who asked what, and the window that stood when it was admitted. */
  datatype Issue = Issue(sender: Id, req: JoinRequest, at: Instant, open: Instant, window: Option<Opening>)

  /**
   * The host and its approvals part-way, then what has happened: requests ever held, those the
   * owner's consent found pending, when each was first held by the roster, the last window opened.
   */
  datatype System = System(
    host: State, tasks: map<nat, Task>,
    issued: map<Id, Issue>, consents: set<Id>, heldAt: map<Id, Instant>, standing: Option<Opening>)

  const Start: System := System(Fresh, map[], map[], {}, map[], None)

  datatype Step =
    | Message(sender: Id, op: Op, clocks: Clocks, newId: Id)
    | OpenFor(now: Instant, seconds: Option<nat>)
    | List(now: Instant)
    | Deny(id: Id, now: Instant)
    | Read(a: nat, id: Id)
    | Record(a: nat, dev: Approver, now: Instant)
    | Hold(a: nat, dev: Approver, now: Instant)
    | GiveUp(a: nat)
    | Wake(a: nat, now: Instant)
    | Restart

  predicate Ticking(clocks: Clocks)
  {
    clocks.sweep <= clocks.open <= clocks.stamp
  }

  predicate Signing(y: System, a: nat)
  {
    a in y.tasks && y.tasks[a].Signs?
  }

  function SignedBy(cfg: Setting, task: Task, dev: Approver): Result<Approval, SignError>
    requires task.Signs?
  {
    SignAndRecord(cfg.fp, dev, task.sender, task.req).outcome
  }

  predicate Enabled(cfg: Setting, y: System, step: Step)
  {
    match step
    case Message(_, _, clocks, newId) => Ticking(clocks) && newId !in y.issued
    case Read(a, _) => a !in y.tasks
    case Record(a, dev, _) => Signing(y, a) && SignedBy(cfg, y.tasks[a], dev).Ok?
    case Hold(a, dev, _) =>
      Signing(y, a) && !y.tasks[a].resumed && SignedBy(cfg, y.tasks[a], dev) == Err(RosterHolds)
    case GiveUp(a) => Signing(y, a)
    case Wake(a, _) => a in y.tasks && y.tasks[a].Waits?
    case _ => true
  }

  function HostNext(cfg: Setting, y: System, step: Step): State
    requires Enabled(cfg, y, step)
  {
    match step
    case Message(sender, op, clocks, newId) => Answered(cfg, y.host, sender, op, clocks, newId).0
    case OpenFor(now, seconds) => y.host.(windowUntil := Some(now + WindowFor(seconds)))
    case List(now) => Swept(cfg, y.host, now)
    case Deny(id, now) => if DeniedAt(y.host, id, now).Some? then DeniedAt(y.host, id, now).value else y.host
    case Record(a, dev, now) =>
      var task := y.tasks[a];
      Recorded(y.host, task.id, task.sender, task.req, SignedBy(cfg, task, dev).value, now)
    case Hold(a, _, now) => MarkedHeld(y.host, y.tasks[a].id, now)
    case Wake(_, now) => Swept(cfg, y.host, now)
    case Restart => Fresh
    case _ => y.host
  }

  function Reading(pending: seq<Held>, id: Id): Option<Task>
  {
    match ById(pending, id)
    case Some(k) => Some(Signs(id, pending[k].sender, pending[k].req, false))
    case None => None
  }

  function Resuming(pending: seq<Held>, id: Id): Option<Task>
  {
    match HeldById(pending, id)
    case Some(p) => Some(Signs(id, p.sender, p.req, true))
    case None => None
  }

  function Set(tasks: map<nat, Task>, a: nat, task: Option<Task>): map<nat, Task>
  {
    if task.Some? then tasks[a := task.value] else tasks - {a}
  }

  function TasksNext(cfg: Setting, y: System, step: Step): map<nat, Task>
    requires Enabled(cfg, y, step)
  {
    match step
    case Read(a, id) => Set(y.tasks, a, Reading(y.host.pending, id))
    case Record(a, _, _) => y.tasks - {a}
    case Hold(a, _, _) => y.tasks[a := Waits(y.tasks[a].id)]
    case GiveUp(a) => Set(y.tasks, a, if y.tasks[a].resumed then Some(Waits(y.tasks[a].id)) else None)
    case Wake(a, now) => Set(y.tasks, a, Resuming(Swept(cfg, y.host, now).pending, y.tasks[a].id))
    case Restart => map[]
    case _ => y.tasks
  }

  function IssuedNext(cfg: Setting, y: System, step: Step): map<Id, Issue>
  {
    if step.Message? && step.op.Join? then
      var t := Swept(cfg, y.host, step.clocks.sweep);
      if Admits(t, step.sender, step.op.req, step.clocks.open)
      then y.issued[step.newId := Issue(step.sender, step.op.req, step.clocks.stamp, step.clocks.open, y.standing)]
      else y.issued
    else y.issued
  }

  function HeldAtNext(cfg: Setting, y: System, step: Step): map<Id, Instant>
    requires Enabled(cfg, y, step)
  {
    if step.Hold? && ById(y.host.pending, y.tasks[step.a].id).Some? && y.tasks[step.a].id !in y.heldAt
    then y.heldAt[y.tasks[step.a].id := step.now] else y.heldAt
  }

  function Next(cfg: Setting, y: System, step: Step): System
    requires Enabled(cfg, y, step)
  {
    System(
      HostNext(cfg, y, step), TasksNext(cfg, y, step), IssuedNext(cfg, y, step),
      if step.Read? && ById(y.host.pending, step.id).Some? then y.consents + {step.id} else y.consents,
      HeldAtNext(cfg, y, step),
      if step.OpenFor? then Some(Opening(step.now, step.now + WindowFor(step.seconds)))
      else if step.Restart? then None else y.standing)
  }

  function After(cfg: Setting, y: System, run: seq<Step>): System
  {
    if run == [] then y
    else
      var z, step := After(cfg, y, run[..|run| - 1]), run[|run| - 1];
      if Enabled(cfg, z, step) then Next(cfg, z, step) else z
  }

  predicate Valid(cfg: Setting, y: System, run: seq<Step>)
  {
    run == []
    || (Valid(cfg, y, run[..|run| - 1]) && Enabled(cfg, After(cfg, y, run[..|run| - 1]), run[|run| - 1]))
  }

  // ---- the invariant -------------------------------------------------------

  /** No two pending requests share an id or a sender. */
  ghost predicate NoTwins(pending: seq<Held>)
  {
    forall i, j | 0 <= i < j < |pending| :: pending[i].id != pending[j].id && pending[i].sender != pending[j].sender
  }

  /** A pending request is the one issued under its id, with that sender's own code. */
  ghost predicate Genuine(cfg: Setting, y: System, p: Held)
  {
    && p.id in y.issued
    && p.sender == y.issued[p.id].sender && p.req == y.issued[p.id].req && p.at == y.issued[p.id].at
    && p.code == MatchCode(cfg, p.sender, p.req.challenge)
    && p.heldSince == (if p.id in y.heldAt then Some(y.heldAt[p.id]) else None)
    && p.id !in y.host.decided
  }

  ghost predicate SignedFor(cfg: Setting, approval: Approval, sender: Id, req: JoinRequest)
  {
    exists dev :: SignAndRecord(cfg.fp, dev, sender, req).outcome == Ok(approval)
  }

  /** A decision is about the request issued under its id, and an approval was consented to. */
  ghost predicate Grounded(cfg: Setting, y: System, id: Id, d: Decided)
  {
    && id in y.issued
    && d.sender == y.issued[id].sender && d.challenge == y.issued[id].req.challenge
    && (d.decision.Approves? ==>
          id in y.consents && SignedFor(cfg, d.decision.approval, y.issued[id].sender, y.issued[id].req))
  }

  ghost predicate Commissioned(y: System, task: Task)
  {
    && task.id in y.issued && task.id in y.consents
    && (task.Signs? ==> task.sender == y.issued[task.id].sender && task.req == y.issued[task.id].req)
  }

  /** A request was admitted before the end of the window that stood, at most half an hour wide. */
  predicate InWindow(issue: Issue)
  {
    && WellFormed(issue.req, issue.sender) && issue.window.Some?
    && issue.open < issue.window.value.until <= issue.window.value.at + WINDOW_MAX
  }

  /** While the host takes requests, it does so until the end of the window that stands. */
  predicate WindowStands(y: System)
  {
    y.host.windowUntil.Some? ==>
      && y.standing.Some? && y.host.windowUntil.value == y.standing.value.until
      && y.standing.value.until <= y.standing.value.at + WINDOW_MAX
  }

  ghost predicate Sound(cfg: Setting, y: System)
  {
    && |y.host.pending| <= PENDING_CEILING && NoTwins(y.host.pending)
    && (forall p | p in y.host.pending :: Genuine(cfg, y, p))
    && (forall id | id in y.host.decided :: Grounded(cfg, y, id, y.host.decided[id]))
    && (forall a | a in y.tasks :: Commissioned(y, y.tasks[a]))
    && (forall id | id in y.issued :: InWindow(y.issued[id]))
    && (forall id | id in y.heldAt :: id in y.issued)
    && WindowStands(y)
  }

  lemma {:induction false} FilterNoTwins(pending: seq<Held>, keep: Held -> bool)
    requires NoTwins(pending)
    ensures NoTwins(Filter(pending, keep))
  {
    if pending != [] {
      FilterNoTwins(pending[1..], keep);
      assert forall p | p in pending[1..] :: p.id != pending[0].id && p.sender != pending[0].sender;
    }
  }

  // What each operation makes of the pending and the decided.

  lemma SweepKeeps(cfg: Setting, s: State, now: Instant)
    ensures
      var t := Swept(cfg, s, now);
      && |t.pending| <= |s.pending| && (NoTwins(s.pending) ==> NoTwins(t.pending))
      && (forall p | p in t.pending :: p in s.pending)
      && (forall id | id in t.decided :: id in s.decided && t.decided[id] == s.decided[id])
      && (t.windowUntil == s.windowUntil || t.windowUntil.None?)
  {
    if NoTwins(s.pending) {
      FilterNoTwins(s.pending, (p: Held) => Alive(cfg, p, now));
    }
  }

  lemma JoinKeeps(cfg: Setting, s: State, sender: Id, req: JoinRequest, clocks: Clocks, newId: Id)
    requires NoTwins(s.pending) && |s.pending| <= PENDING_CEILING && forall p | p in s.pending :: p.id != newId
    ensures
      var t := AnswerJoin(cfg, s, sender, req, clocks, newId).0;
      && |t.pending| <= PENDING_CEILING && NoTwins(t.pending)
      && t.decided == s.decided && t.windowUntil == s.windowUntil
      && (forall p | p in t.pending :: p in s.pending
            || (Admits(s, sender, req, clocks.open)
                && p == Held(newId, sender, req, MatchCode(cfg, sender, req.challenge), clocks.stamp, None)))
  {
    forall k | 0 <= k < |s.pending|
      ensures s.pending[k].id != newId && (BySender(s.pending, sender).None? ==> s.pending[k].sender != sender)
    {
      assert s.pending[k] in s.pending;
    }
  }

  lemma WithdrawKeeps(s: State, sender: Id, id: Id, challenge: string)
    requires NoTwins(s.pending)
    ensures
      var t := AnswerWithdraw(s, sender, id, challenge).0;
      && |t.pending| <= |s.pending| && NoTwins(t.pending) && t.windowUntil == s.windowUntil
      && (forall p | p in t.pending :: p in s.pending)
      && (forall i | i in t.decided :: i in s.decided && t.decided[i] == s.decided[i])
  {
    FilterNoTwins(s.pending, (p: Held) => !Matches(p, id, sender, challenge));
  }

  lemma DenyKeeps(s: State, id: Id, now: Instant)
    requires NoTwins(s.pending) && DeniedAt(s, id, now).Some?
    ensures
      var t := DeniedAt(s, id, now).value;
      && |t.pending| <= |s.pending| && NoTwins(t.pending) && t.windowUntil == s.windowUntil
      && (forall p | p in t.pending :: p in s.pending && p.id != id)
      && (forall i | i in t.decided && i != id :: i in s.decided && t.decided[i] == s.decided[i])
      && exists p :: p in s.pending && p.id == id && t.decided[id] == Decided(p.sender, p.req.challenge, Denies, now)
  {
    var k := ById(s.pending, id).value;
    assert s.pending[k] in s.pending;
  }

  lemma RecordKeeps(s: State, id: Id, sender: Id, req: JoinRequest, approval: Approval, now: Instant)
    requires NoTwins(s.pending)
    ensures
      var t := Recorded(s, id, sender, req, approval, now);
      && |t.pending| <= |s.pending| && NoTwins(t.pending) && t.windowUntil == s.windowUntil
      && (forall p | p in t.pending :: p in s.pending && p.id != id)
  {
    FilterNoTwins(s.pending, (p: Held) => p.id != id);
  }

  lemma HoldKeeps(s: State, id: Id, now: Instant)
    requires NoTwins(s.pending)
    ensures
      var t := MarkedHeld(s, id, now);
      && |t.pending| == |s.pending| && NoTwins(t.pending)
      && t.decided == s.decided && t.windowUntil == s.windowUntil
      && forall k | 0 <= k < |s.pending| :: t.pending[k] ==
           if s.pending[k].id == id && s.pending[k].heldSince.None? then s.pending[k].(heldSince := Some(now)) else s.pending[k]
  {
    forall k | 0 <= k < |s.pending| && s.pending[k].id == id
      ensures ById(s.pending, id) == Some(k)
    {
      assert s.pending[k] in s.pending;
      var first := ById(s.pending, id).value;
      assert first < k || first > k || first == k;
    }
  }

  // ---- each step keeps the invariant ---------------------------------------

  lemma HistoryGrows(cfg: Setting, y: System, step: Step)
    requires Enabled(cfg, y, step)
    ensures forall id | id in y.issued :: id in Next(cfg, y, step).issued && Next(cfg, y, step).issued[id] == y.issued[id]
    ensures y.consents <= Next(cfg, y, step).consents
    ensures forall id | id in y.heldAt :: id in Next(cfg, y, step).heldAt && Next(cfg, y, step).heldAt[id] == y.heldAt[id]
    ensures forall id | id in Next(cfg, y, step).issued && id !in y.issued :: step.Message? && id == step.newId
  {}

  /** The pending list after a message, request by request. */
  lemma MessagePending(cfg: Setting, y: System, step: Step, p: Held)
    requires Enabled(cfg, y, step) && Sound(cfg, y) && step.Message?
    requires p in HostNext(cfg, y, step).pending
    ensures p in y.host.pending
         || (p.id == step.newId && p.id in IssuedNext(cfg, y, step) && Genuine(cfg, Next(cfg, y, step), p))
  {
    var t := Swept(cfg, y.host, step.clocks.sweep);
    SweepKeeps(cfg, y.host, step.clocks.sweep);
    match step.op
    case Join(req) => JoinKeeps(cfg, t, step.sender, req, step.clocks, step.newId);
    case Withdraw(id, challenge) => WithdrawKeeps(t, step.sender, id, challenge);
    case _ =>
  }

  lemma MessageKeeps(cfg: Setting, y: System, step: Step)
    requires Enabled(cfg, y, step) && Sound(cfg, y) && step.Message?
    ensures
      var t := HostNext(cfg, y, step);
      && |t.pending| <= PENDING_CEILING && NoTwins(t.pending)
      && (forall id | id in t.decided :: id in y.host.decided && t.decided[id] == y.host.decided[id])
      && (t.windowUntil == y.host.windowUntil || t.windowUntil.None?)
  {
    var t := Swept(cfg, y.host, step.clocks.sweep);
    SweepKeeps(cfg, y.host, step.clocks.sweep);
    match step.op
    case Join(req) => JoinKeeps(cfg, t, step.sender, req, step.clocks, step.newId);
    case Withdraw(id, challenge) => WithdrawKeeps(t, step.sender, id, challenge);
    case _ =>
  }

  lemma PendingKept(cfg: Setting, y: System, step: Step)
    requires Enabled(cfg, y, step) && Sound(cfg, y)
    ensures |HostNext(cfg, y, step).pending| <= PENDING_CEILING && NoTwins(HostNext(cfg, y, step).pending)
  {
    match step
    case Message(_, _, _, _) => MessageKeeps(cfg, y, step);
    case List(now) => SweepKeeps(cfg, y.host, now);
    case Wake(_, now) => SweepKeeps(cfg, y.host, now);
    case Deny(id, now) => if DeniedAt(y.host, id, now).Some? { DenyKeeps(y.host, id, now); }
    case Record(a, dev, now) =>
      RecordKeeps(y.host, y.tasks[a].id, y.tasks[a].sender, y.tasks[a].req, SignedBy(cfg, y.tasks[a], dev).value, now);
    case Hold(a, _, now) => HoldKeeps(y.host, y.tasks[a].id, now);
    case _ =>
  }

  lemma GenuineKept(cfg: Setting, y: System, step: Step, p: Held)
    requires Enabled(cfg, y, step) && Sound(cfg, y) && p in HostNext(cfg, y, step).pending
    ensures Genuine(cfg, Next(cfg, y, step), p)
  {
    HistoryGrows(cfg, y, step);
    match step
    case Message(_, _, _, _) =>
      MessageKeeps(cfg, y, step);
      MessagePending(cfg, y, step, p);
    case List(now) => SweepKeeps(cfg, y.host, now);
    case Wake(_, now) => SweepKeeps(cfg, y.host, now);
    case Deny(id, now) => if DeniedAt(y.host, id, now).Some? { DenyKeeps(y.host, id, now); }
    case Record(a, dev, now) =>
      RecordKeeps(y.host, y.tasks[a].id, y.tasks[a].sender, y.tasks[a].req, SignedBy(cfg, y.tasks[a], dev).value, now);
    case Hold(a, _, now) => HeldIsGenuine(cfg, y, step, p);
    case _ =>
  }

  lemma HeldIsGenuine(cfg: Setting, y: System, step: Step, p: Held)
    requires Enabled(cfg, y, step) && Sound(cfg, y) && step.Hold? && p in HostNext(cfg, y, step).pending
    ensures Genuine(cfg, Next(cfg, y, step), p)
  {
    var id := y.tasks[step.a].id;
    HoldKeeps(y.host, id, step.now);
    var k :| 0 <= k < |y.host.pending| && HostNext(cfg, y, step).pending[k] == p;
    var q := y.host.pending[k];
    assert q in y.host.pending && Genuine(cfg, y, q);
    GenuineOnceHeld(cfg, y, Next(cfg, y, step), q, p, id, step.now);
  }

  lemma GenuineOnceHeld(cfg: Setting, y: System, z: System, q: Held, p: Held, id: Id, now: Instant)
    requires Genuine(cfg, y, q)
    requires p == if q.id == id && q.heldSince.None? then q.(heldSince := Some(now)) else q
    requires z.issued == y.issued && z.host.decided == y.host.decided
    requires z.heldAt == y.heldAt || z.heldAt == y.heldAt[id := now]
    requires q.id == id && id !in y.heldAt ==> z.heldAt == y.heldAt[id := now]
    requires id in y.heldAt ==> z.heldAt == y.heldAt
    ensures Genuine(cfg, z, p)
  {}

  lemma GroundedKept(cfg: Setting, y: System, step: Step, id: Id)
    requires Enabled(cfg, y, step) && Sound(cfg, y) && id in HostNext(cfg, y, step).decided
    ensures Grounded(cfg, Next(cfg, y, step), id, HostNext(cfg, y, step).decided[id])
  {
    HistoryGrows(cfg, y, step);
    match step
    case Message(_, _, _, _) => MessageKeeps(cfg, y, step);
    case List(now) => SweepKeeps(cfg, y.host, now);
    case Wake(_, now) => SweepKeeps(cfg, y.host, now);
    case Deny(i, now) => if DeniedAt(y.host, i, now).Some? { DenyKeeps(y.host, i, now); }
    case Record(a, dev, now) =>
      if id == y.tasks[a].id {
        assert Commissioned(y, y.tasks[a]);
        assert SignedFor(cfg, SignedBy(cfg, y.tasks[a], dev).value, y.tasks[a].sender, y.tasks[a].req);
      }
    case _ =>
  }

  lemma ReadIsCommissioned(cfg: Setting, y: System, id: Id)
    requires Sound(cfg, y) && Reading(y.host.pending, id).Some?
    ensures Commissioned(y.(consents := y.consents + {id}), Reading(y.host.pending, id).value)
  {
    var k := ById(y.host.pending, id).value;
    assert Genuine(cfg, y, y.host.pending[k]);
  }

  lemma ResumedIsCommissioned(cfg: Setting, y: System, id: Id, now: Instant)
    requires Sound(cfg, y) && id in y.consents && Resuming(Swept(cfg, y.host, now).pending, id).Some?
    ensures Commissioned(y, Resuming(Swept(cfg, y.host, now).pending, id).value)
  {
    SweepKeeps(cfg, y.host, now);
    var p := HeldById(Swept(cfg, y.host, now).pending, id).value;
    assert p in y.host.pending && Genuine(cfg, y, p);
  }

  lemma StaysCommissioned(y: System, z: System, task: Task)
    requires Commissioned(y, task) && y.consents <= z.consents
    requires forall id | id in y.issued :: id in z.issued && z.issued[id] == y.issued[id]
    ensures Commissioned(z, task)
  {}

  lemma CommissionedKept(cfg: Setting, y: System, step: Step, a: nat)
    requires Enabled(cfg, y, step) && Sound(cfg, y) && a in TasksNext(cfg, y, step)
    ensures Commissioned(Next(cfg, y, step), TasksNext(cfg, y, step)[a])
  {
    var z, task := Next(cfg, y, step), TasksNext(cfg, y, step)[a];
    HistoryGrows(cfg, y, step);
    if step.Read? && step.a == a {
      ReadIsCommissioned(cfg, y, step.id);
      StaysCommissioned(y.(consents := y.consents + {step.id}), z, task);
    } else if step.Wake? && step.a == a {
      assert Commissioned(y, y.tasks[a]);
      ResumedIsCommissioned(cfg, y, y.tasks[a].id, step.now);
      StaysCommissioned(y, z, task);
    } else {
      assert Commissioned(y, y.tasks[a]);
      StaysCommissioned(y, z, task);
    }
  }

  lemma WindowsKept(cfg: Setting, y: System, step: Step)
    requires Enabled(cfg, y, step) && Sound(cfg, y)
    ensures WindowStands(Next(cfg, y, step))
    ensures forall id | id in IssuedNext(cfg, y, step) :: InWindow(IssuedNext(cfg, y, step)[id])
  {
    match step
    case Message(_, _, clocks, _) =>
      MessageKeeps(cfg, y, step);
      SweepKeeps(cfg, y.host, clocks.sweep);
    case List(now) => SweepKeeps(cfg, y.host, now);
    case Wake(_, now) => SweepKeeps(cfg, y.host, now);
    case _ =>
  }

  lemma SoundKept(cfg: Setting, y: System, step: Step)
    requires Enabled(cfg, y, step) && Sound(cfg, y)
    ensures Sound(cfg, Next(cfg, y, step))
  {
    var z := Next(cfg, y, step);
    PendingKept(cfg, y, step);
    WindowsKept(cfg, y, step);
    HistoryGrows(cfg, y, step);
    forall p | p in z.host.pending ensures Genuine(cfg, z, p) { GenuineKept(cfg, y, step, p); }
    forall id | id in z.host.decided ensures Grounded(cfg, z, id, z.host.decided[id]) { GroundedKept(cfg, y, step, id); }
    forall a | a in z.tasks ensures Commissioned(z, z.tasks[a]) { CommissionedKept(cfg, y, step, a); }
    forall id | id in z.heldAt ensures id in z.issued {
      if step.Hold? { assert Commissioned(y, y.tasks[step.a]); }
    }
  }

  /** Every reachable state is sound, whatever the interleaving. */
  lemma {:induction false} AlwaysSound(cfg: Setting, run: seq<Step>)
    requires Valid(cfg, Start, run)
    ensures Sound(cfg, After(cfg, Start, run))
  {
    if run != [] {
      AlwaysSound(cfg, run[..|run| - 1]);
      SoundKept(cfg, After(cfg, Start, run[..|run| - 1]), run[|run| - 1]);
    }
  }

  // ---- what a poll sees ----------------------------------------------------

  /**
   * In every reachable state a poll is answered Approved only for the sender and challenge
   * that created that id, only after the owner's consent found the request pending, and with
   * an approval signed for that very request.
   */
  lemma PollSeesOnlyItsOwnApproval(
    cfg: Setting, run: seq<Step>, sender: Id, id: Id, challenge: string, clocks: Clocks, newId: Id)
    requires Valid(cfg, Start, run)
    ensures
      var y := After(cfg, Start, run);
      var body := Answered(cfg, y.host, sender, Status(id, challenge), clocks, newId).1.body;
      body.Approved? ==>
        && id in y.issued && y.issued[id].sender == sender && y.issued[id].req.challenge == challenge
        && id in y.consents && SignedFor(cfg, body.approval, sender, y.issued[id].req)
  {
    AlwaysSound(cfg, run);
    SweepKeeps(cfg, After(cfg, Start, run).host, clocks.sweep);
  }

  /**
   * From join to acceptance: whatever approval the new device's poll brings back, its offline
   * check accepts it for the identity the person entered exactly when the pen that signed is
   * the registered one, that identity's id names its key and the claim PIN is still there.
   */
  lemma JoinEndToEnd(
    cfg: Setting, run: seq<Step>, sender: Id, id: Id, challenge: string, clocks: Clocks, newId: Id,
    st: Joiner, expected: Id)
    requires Valid(cfg, Start, run)
    requires Answered(cfg, After(cfg, Start, run).host, sender, Status(id, challenge), clocks, newId).1.body.Approved?
    requires id in After(cfg, Start, run).issued ==>
      && st.nodeCode == After(cfg, Start, run).issued[id].req.nodeCode
      && RosterKeyNamedUnder(cfg.fp, expected, After(cfg, Start, run).issued[id].req.occurrenceKey).Ok?
    ensures
      var y := After(cfg, Start, run);
      var a := Answered(cfg, y.host, sender, Status(id, challenge), clocks, newId).1.body.approval;
      && id in y.issued
      && exists dev ::
        && SignAndRecord(cfg.fp, dev, sender, y.issued[id].req).outcome == Ok(a) && dev.pen.Some?
        && (Preflight(cfg.fp, st, a, expected, y.issued[id].req.occurrenceKey.keyId) == Ok(expected) <==>
              PenMatchesDirectory(dev, dev.pen.value) && NamesItsKey(cfg.fp, expected, dev.pen.value.ed) && !Blank(st.claimPin))
  {
    PollSeesOnlyItsOwnApproval(cfg, run, sender, id, challenge, clocks, newId);
    var y := After(cfg, Start, run);
    var a := Answered(cfg, y.host, sender, Status(id, challenge), clocks, newId).1.body.approval;
    var dev :| SignAndRecord(cfg.fp, dev, sender, y.issued[id].req).outcome == Ok(a);
    SignedOnlyForTheEnteredIdentity(cfg.fp, dev, sender, y.issued[id].req, st, expected);
  }

  // ---- admitted inside a window --------------------------------------------

  /** The first and last clock readings a step takes, if it takes any. */
  function Readings(step: Step): Option<(Instant, Instant)>
  {
    match step
    case Message(_, _, clocks, _) => Some((clocks.sweep, clocks.stamp))
    case Read(_, _) => None
    case GiveUp(_) => None
    case Restart => None
    case _ => Some((step.now, step.now))
  }

  /** The clock of the run does not go back from one step to a later one. */
  ghost predicate Nondecreasing(run: seq<Step>)
  {
    forall i, j | 0 <= i < j < |run| && Readings(run[i]).Some? && Readings(run[j]).Some? ::
      Readings(run[i]).value.1 <= Readings(run[j]).value.0
  }

  ghost predicate ReadBefore(run: seq<Step>, t: Instant)
  {
    forall i | 0 <= i < |run| && Readings(run[i]).Some? :: Readings(run[i]).value.1 <= t
  }

  lemma {:induction false} StandingIsPast(cfg: Setting, run: seq<Step>, t: Instant)
    requires ReadBefore(run, t)
    ensures After(cfg, Start, run).standing.Some? ==> After(cfg, Start, run).standing.value.at <= t
  {
    if run != [] {
      StandingIsPast(cfg, run[..|run| - 1], t);
      assert Readings(run[|run| - 1]).Some? ==> Readings(run[|run| - 1]).value.1 <= t;
    }
  }

  lemma {:induction false} OpenedBeforeAdmitted(cfg: Setting, run: seq<Step>, id: Id)
    requires Valid(cfg, Start, run) && Nondecreasing(run) && id in After(cfg, Start, run).issued
    ensures
      var issue := After(cfg, Start, run).issued[id];
      issue.window.Some? ==> issue.window.value.at <= issue.open
  {
    if run != [] {
      var pre, step := run[..|run| - 1], run[|run| - 1];
      if id in After(cfg, Start, pre).issued {
        HistoryGrows(cfg, After(cfg, Start, pre), step);
        OpenedBeforeAdmitted(cfg, pre, id);
      } else {
        forall i | 0 <= i < |pre| && Readings(pre[i]).Some?
          ensures Readings(pre[i]).value.1 <= step.clocks.sweep
        {
          assert Readings(run[i]).value.1 <= Readings(run[|run| - 1]).value.0;
        }
        StandingIsPast(cfg, pre, step.clocks.sweep);
      }
    }
  }

  /**
   * With a clock that does not go back, every request ever held was admitted inside the window
   * that stood at that moment: no earlier than the owner opened it, before its end, and that at
   * most half an hour later.
   */
  lemma RequestsJoinInsideAWindow(cfg: Setting, run: seq<Step>, id: Id)
    requires Valid(cfg, Start, run) && id in After(cfg, Start, run).issued
    ensures
      var issue := After(cfg, Start, run).issued[id];
      && issue.window.Some? && issue.open < issue.window.value.until <= issue.window.value.at + WINDOW_MAX
      && (Nondecreasing(run) ==> issue.window.value.at <= issue.open)
  {
    AlwaysSound(cfg, run);
    if Nondecreasing(run) {
      OpenedBeforeAdmitted(cfg, run, id);
    }
  }

  // ---- no unjustified refusal ----------------------------------------------

  /** Sender `o` has request `id` pending, and at `now` its time to live has not run out. */
  ghost predicate Occupies(cfg: Setting, y: System, id: Id, o: Id, now: Instant)
  {
    && id in y.issued && y.issued[id].sender == o && (exists p :: p in y.host.pending && p.id == id)
    && if id in y.heldAt then Elapsed(y.heldAt[id], now) < cfg.heldTtl else Elapsed(y.issued[id].at, now) < REQUEST_TTL
  }

  ghost predicate HasSlot(cfg: Setting, y: System, o: Id, now: Instant)
  {
    exists id :: Occupies(cfg, y, id, o, now)
  }

  function Senders(pending: seq<Held>): (r: set<Id>)
    ensures forall o :: o in r <==> exists p :: p in pending && p.sender == o
  {
    set p | p in pending :: p.sender
  }

  lemma SendersOfCons(p: Held, rest: seq<Held>)
    ensures Senders([p] + rest) == {p.sender} + Senders(rest)
  {
    assert p in [p] + rest;
    assert forall q :: q in [p] + rest <==> q == p || q in rest;
  }

  lemma {:induction false} SendersCount(pending: seq<Held>)
    ensures |Senders(pending)| <= |pending|
    ensures NoTwins(pending) ==> |Senders(pending)| == |pending|
  {
    if pending != [] {
      var rest := pending[1..];
      assert pending == [pending[0]] + rest;
      SendersOfCons(pending[0], rest);
      SendersCount(rest);
      if NoTwins(pending) {
        assert NoTwins(rest);
        assert forall p | p in rest :: p.sender != pending[0].sender;
        assert pending[0].sender !in Senders(rest);
      }
    }
  }

  /** A pending request is live exactly when the slot of its id is. */
  lemma LiveOccupies(cfg: Setting, y: System, p: Held, now: Instant)
    requires Genuine(cfg, y, p) && p in y.host.pending
    ensures Occupies(cfg, y, p.id, p.sender, now) <==> Alive(cfg, p, now)
  {}

  lemma SlotIsLive(cfg: Setting, y: System, o: Id, now: Instant)
    requires Sound(cfg, y)
    ensures HasSlot(cfg, y, o, now) <==> o in Senders(Live(cfg, y.host.pending, now))
  {
    var live := Live(cfg, y.host.pending, now);
    if id :| Occupies(cfg, y, id, o, now) {
      var p :| p in y.host.pending && p.id == id;
      LiveOccupies(cfg, y, p, now);
      assert p in live;
    }
    if p :| p in live && p.sender == o {
      LiveOccupies(cfg, y, p, now);
    }
  }

  lemma SenderFound(pending: seq<Held>, sender: Id)
    ensures BySender(pending, sender).None? <==> sender !in Senders(pending)
  {
    var k := BySender(pending, sender);
    if k.Some? {
      assert pending[k.value] in pending;
    }
  }

  ghost predicate EightSlots(cfg: Setting, y: System, now: Instant)
  {
    exists others: set<Id> :: |others| == PENDING_CEILING && forall o | o in others :: HasSlot(cfg, y, o, now)
  }

  lemma FullIffEightSlots(cfg: Setting, y: System, now: Instant)
    requires Sound(cfg, y)
    ensures |Live(cfg, y.host.pending, now)| >= PENDING_CEILING <==> EightSlots(cfg, y, now)
  {
    var live := Live(cfg, y.host.pending, now);
    SweepKeeps(cfg, y.host, now);
    SendersCount(live);
    forall o ensures HasSlot(cfg, y, o, now) <==> o in Senders(live) {
      SlotIsLive(cfg, y, o, now);
    }
    if others: set<Id> :| |others| == PENDING_CEILING && forall o | o in others :: HasSlot(cfg, y, o, now) {
      assert others <= Senders(live);
      SubsetCardinality(others, Senders(live));
    }
  }

  /**
   * A join is refused for the ceiling exactly when the window is open, the join is well formed,
   * its sender has no slot, and eight other senders have one: each of them joined within the
   * request time to live, or is held by the roster within the held one.
   */
  lemma CeilingRefusalJustified(
    cfg: Setting, run: seq<Step>, sender: Id, req: JoinRequest, clocks: Clocks, newId: Id)
    requires Valid(cfg, Start, run) && Ticking(clocks)
    ensures
      var y := After(cfg, Start, run);
      Answered(cfg, y.host, sender, Join(req), clocks, newId).1.status == 503 <==>
        && IsOpen(y.host.windowUntil, clocks.open) && WellFormed(req, sender)
        && !HasSlot(cfg, y, sender, clocks.sweep) && EightSlots(cfg, y, clocks.sweep)
  {
    AlwaysSound(cfg, run);
    var y := After(cfg, Start, run);
    SweepKeeps(cfg, y.host, clocks.sweep);
    FullIffEightSlots(cfg, y, clocks.sweep);
    SlotIsLive(cfg, y, sender, clocks.sweep);
    SenderFound(Live(cfg, y.host.pending, clocks.sweep), sender);
  }

  /** While its request is live a sender that asks again, with whatever challenge, is told the same id and code. */
  lemma RepeatJoinIsIdempotent(
    cfg: Setting, run: seq<Step>, p: Held, req: JoinRequest, clocks: Clocks, newId: Id)
    requires Valid(cfg, Start, run) && Ticking(clocks)
    requires p in After(cfg, Start, run).host.pending && Alive(cfg, p, clocks.sweep)
    requires IsOpen(After(cfg, Start, run).host.windowUntil, clocks.open) && WellFormed(req, p.sender)
    ensures
      var y := After(cfg, Start, run);
      && Answered(cfg, y.host, p.sender, Join(req), clocks, newId)
         == (Swept(cfg, y.host, clocks.sweep), Answer(202, Pending(p.id, p.code)))
      && p.id in y.issued && p.code == MatchCode(cfg, p.sender, y.issued[p.id].req.challenge)
  {
    AlwaysSound(cfg, run);
    var t := Swept(cfg, After(cfg, Start, run).host, clocks.sweep);
    SweepKeeps(cfg, After(cfg, Start, run).host, clocks.sweep);
    assert p in t.pending && Genuine(cfg, After(cfg, Start, run), p);
    var i := BySender(t.pending, p.sender).value;
    var j :| 0 <= j < |t.pending| && t.pending[j] == p;
    assert i < j || j < i || i == j;
  }

  // ---- decisions and approvals in flight -----------------------------------

  ghost predicate IsPending(s: State, id: Id)
  {
    exists p :: p in s.pending && p.id == id
  }

  predicate IsApproved(s: State, id: Id)
  {
    id in s.decided && s.decided[id].decision.Approves?
  }

  /** The request was held once, has left the pending list, and is not approved. */
  ghost predicate Gone(y: System, id: Id)
  {
    id in y.issued && !IsPending(y.host, id) && !IsApproved(y.host, id)
  }

  ghost predicate BeingSigned(y: System, id: Id)
  {
    exists a :: Signing(y, a) && y.tasks[a].id == id
  }

  /** Denied, withdrawn or expired: a request that leaves the list other than by an approval is gone. */
  lemma LeavesUnapproved(cfg: Setting, y: System, step: Step, id: Id)
    requires Enabled(cfg, y, step) && Sound(cfg, y)
    requires IsPending(y.host, id) && !IsPending(Next(cfg, y, step).host, id)
    requires !(step.Record? && y.tasks[step.a].id == id)
    ensures Gone(Next(cfg, y, step), id)
  {
    HistoryGrows(cfg, y, step);
    var p :| p in y.host.pending && p.id == id;
    assert Genuine(cfg, y, p);
    match step
    case Message(_, _, _, _) => MessageKeeps(cfg, y, step);
    case List(now) => SweepKeeps(cfg, y.host, now);
    case Wake(_, now) => SweepKeeps(cfg, y.host, now);
    case Deny(i, now) => if DeniedAt(y.host, i, now).Some? { DenyKeeps(y.host, i, now); }
    case _ =>
  }

  lemma NotApprovedByAStep(cfg: Setting, y: System, step: Step, id: Id)
    requires Enabled(cfg, y, step) && Sound(cfg, y) && Gone(y, id)
    requires step.Record? ==> y.tasks[step.a].id != id
    ensures !IsApproved(HostNext(cfg, y, step), id)
  {
    match step
    case Message(_, _, _, _) => MessageKeeps(cfg, y, step);
    case List(now) => SweepKeeps(cfg, y.host, now);
    case Wake(_, now) => SweepKeeps(cfg, y.host, now);
    case Deny(i, now) => if DeniedAt(y.host, i, now).Some? { DenyKeeps(y.host, i, now); }
    case _ =>
  }

  lemma GoneStep(cfg: Setting, y: System, step: Step, id: Id)
    requires Enabled(cfg, y, step) && Sound(cfg, y) && Gone(y, id) && !BeingSigned(y, id)
    ensures Gone(Next(cfg, y, step), id) && !BeingSigned(Next(cfg, y, step), id)
  {
    HistoryGrows(cfg, y, step);
    NotApprovedByAStep(cfg, y, step, id);
    forall p | p in HostNext(cfg, y, step).pending
      ensures p.id != id
    {
      GoneFromList(cfg, y, step, id, p);
    }
    forall a | Signing(Next(cfg, y, step), a)
      ensures Next(cfg, y, step).tasks[a].id != id
    {
      NobodyTakesItUp(cfg, y, step, id, a);
    }
  }

  lemma GoneFromList(cfg: Setting, y: System, step: Step, id: Id, p: Held)
    requires Enabled(cfg, y, step) && Sound(cfg, y) && Gone(y, id) && p in HostNext(cfg, y, step).pending
    ensures p.id != id
  {
    match step
    case Message(_, _, _, _) => MessagePending(cfg, y, step, p);
    case List(now) => SweepKeeps(cfg, y.host, now);
    case Wake(_, now) => SweepKeeps(cfg, y.host, now);
    case Deny(i, now) => if DeniedAt(y.host, i, now).Some? { DenyKeeps(y.host, i, now); }
    case Record(a, dev, now) =>
      RecordKeeps(y.host, y.tasks[a].id, y.tasks[a].sender, y.tasks[a].req, SignedBy(cfg, y.tasks[a], dev).value, now);
    case Hold(a, _, now) =>
      HoldKeeps(y.host, y.tasks[a].id, now);
      var k :| 0 <= k < |y.host.pending| && HostNext(cfg, y, step).pending[k] == p;
      assert y.host.pending[k] in y.host.pending && y.host.pending[k].id == p.id;
    case _ =>
  }

  lemma NobodyTakesItUp(cfg: Setting, y: System, step: Step, id: Id, a: nat)
    requires Enabled(cfg, y, step) && Sound(cfg, y) && Gone(y, id) && !BeingSigned(y, id)
    requires Signing(Next(cfg, y, step), a)
    ensures Next(cfg, y, step).tasks[a].id != id
  {
    if step.Read? && step.a == a {
      var k := ById(y.host.pending, step.id).value;
      assert y.host.pending[k] in y.host.pending;
    } else if step.Wake? && step.a == a {
      SweepKeeps(cfg, y.host, step.now);
      assert HeldById(Swept(cfg, y.host, step.now).pending, y.tasks[a].id).value in y.host.pending;
    } else {
      assert Signing(y, a);
    }
  }

  lemma {:induction false} GoneForGood(cfg: Setting, y: System, run: seq<Step>, id: Id)
    requires Sound(cfg, y) && Valid(cfg, y, run)
    ensures Sound(cfg, After(cfg, y, run))
    ensures Gone(y, id) && !BeingSigned(y, id) ==> Gone(After(cfg, y, run), id) && !BeingSigned(After(cfg, y, run), id)
    ensures id in y.issued ==> id in After(cfg, y, run).issued && After(cfg, y, run).issued[id] == y.issued[id]
  {
    if run != [] {
      var pre, step := run[..|run| - 1], run[|run| - 1];
      GoneForGood(cfg, y, pre, id);
      SoundKept(cfg, After(cfg, y, pre), step);
      HistoryGrows(cfg, After(cfg, y, pre), step);
      if Gone(y, id) && !BeingSigned(y, id) {
        GoneStep(cfg, After(cfg, y, pre), step, id);
      }
    }
  }

  /**
   * A request that was denied, withdrawn or has expired can still end up approved exactly when
   * an approval of it is being signed at that moment by a device that can sign it.  One merely
   * held by the roster is not enough, nor is any later act of the owner.
   */
  lemma GoneCanBeApprovedIffBeingSigned(cfg: Setting, y: System, id: Id)
    requires Sound(cfg, y) && Gone(y, id)
    ensures (exists run :: Valid(cfg, y, run) && IsApproved(After(cfg, y, run).host, id))
       <==> exists a, dev :: Signing(y, a) && y.tasks[a].id == id && SignedBy(cfg, y.tasks[a], dev).Ok?
  {
    if run :| Valid(cfg, y, run) && IsApproved(After(cfg, y, run).host, id) {
      GoneForGood(cfg, y, run, id);
      var a :| Signing(y, a) && y.tasks[a].id == id;
      assert Commissioned(y, y.tasks[a]) && Grounded(cfg, After(cfg, y, run), id, After(cfg, y, run).host.decided[id]);
      var dev :| SignAndRecord(cfg.fp, dev, y.issued[id].sender, y.issued[id].req).outcome
              == Ok(After(cfg, y, run).host.decided[id].decision.approval);
      assert SignedBy(cfg, y.tasks[a], dev).Ok?;
    }
    if a, dev :| Signing(y, a) && y.tasks[a].id == id && SignedBy(cfg, y.tasks[a], dev).Ok? {
      OneStep(cfg, y, Record(a, dev, 0));
      assert IsApproved(After(cfg, y, [Record(a, dev, 0)]).host, id);
    }
  }

  lemma OneStep(cfg: Setting, y: System, step: Step)
    requires Enabled(cfg, y, step)
    ensures Valid(cfg, y, [step]) && After(cfg, y, [step]) == Next(cfg, y, step)
  {
    assert [step][..0] == [];
    assert Valid(cfg, y, []) && After(cfg, y, []) == y;
  }

  lemma PollOfDecided(cfg: Setting, s: State, id: Id, d: Decided, clocks: Clocks, newId: Id)
    requires id in s.decided && s.decided[id] == d && Elapsed(d.at, clocks.sweep) < DECIDED_TTL
    ensures Answered(cfg, s, d.sender, Status(id, d.challenge), clocks, newId).1.body
         == match d.decision case Approves(a) => Approved(a) case Denies => Denied
  {
    assert id in Swept(cfg, s, clocks.sweep).decided;
  }

  lemma FoundById(y: System, cfg: Setting, p: Held)
    requires Sound(cfg, y) && p in y.host.pending
    ensures ById(y.host.pending, p.id).Some? && y.host.pending[ById(y.host.pending, p.id).value] == p
  {
    var k := ById(y.host.pending, p.id).value;
    var j :| 0 <= j < |y.host.pending| && y.host.pending[j] == p;
    assert j < k || k < j || k == j;
  }

  /**
   * So the owner's denial can be undone by the owner's own earlier consent: read, deny, record,
   * and the poll that would have been told Denied is told Approved.
   */
  lemma DenialOverwritten(cfg: Setting, y: System, p: Held, a: nat, dev: Approver, now: Instant, clocks: Clocks, newId: Id)
    requires Sound(cfg, y) && p in y.host.pending && a !in y.tasks
    requires SignAndRecord(cfg.fp, dev, p.sender, p.req).outcome.Ok? && clocks.sweep == now
    ensures
      var s1 := Next(cfg, y, Read(a, p.id));
      && Enabled(cfg, s1, Deny(p.id, now))
      && var s2 := Next(cfg, s1, Deny(p.id, now));
      && Answered(cfg, s2.host, p.sender, Status(p.id, p.req.challenge), clocks, newId).1.body == Denied
      && Enabled(cfg, s2, Record(a, dev, now))
      && var s3 := Next(cfg, s2, Record(a, dev, now));
      && Answered(cfg, s3.host, p.sender, Status(p.id, p.req.challenge), clocks, newId).1.body.Approved?
  {
    FoundById(y, cfg, p);
    var s1 := Next(cfg, y, Read(a, p.id));
    assert s1.host == y.host && s1.tasks[a] == Signs(p.id, p.sender, p.req, false);
    var s2 := Next(cfg, s1, Deny(p.id, now));
    var denied := Decided(p.sender, p.req.challenge, Denies, now);
    assert s2.host.decided[p.id] == denied && s2.tasks == s1.tasks;
    PollOfDecided(cfg, s2.host, p.id, denied, clocks, newId);
    var approval := SignAndRecord(cfg.fp, dev, p.sender, p.req).outcome.value;
    var approved := Decided(p.sender, p.req.challenge, Approves(approval), now);
    assert Next(cfg, s2, Record(a, dev, now)).host.decided[p.id] == approved;
    PollOfDecided(cfg, Next(cfg, s2, Record(a, dev, now)).host, p.id, approved, clocks, newId);
  }
}
