// What each message of the join plane is answered, and what it changes, in every reachable
// state: told from the requests and decisions a sweep leaves, not from how they are searched.

module JoinAnswers {
  import opened Prelude
  import opened JoinApprovals
  import opened JoinHosts
  import opened JoinRuns

  /** The host in some reachable state, after the sweep every message begins with. */
  ghost predicate ReachedAndSwept(cfg: Setting, run: seq<Step>, clocks: Clocks, s: State, t: State)
  {
    Valid(cfg, Start, run) && Ticking(clocks) && s == After(cfg, Start, run).host && t == Swept(cfg, s, clocks.sweep)
  }

  /** Request `k` of the list is this sender's, under this id and challenge. */
  predicate Asks(pending: seq<Held>, k: int, id: Id, sender: Id, challenge: string)
  {
    0 <= k < |pending| && pending[k].id == id && pending[k].sender == sender && pending[k].req.challenge == challenge
  }

  /** This id was decided for this sender and challenge. */
  predicate DecidedFor(decided: map<Id, Decided>, id: Id, sender: Id, challenge: string)
  {
    id in decided && decided[id].sender == sender && decided[id].challenge == challenge
  }

  function Dropped(pending: seq<Held>, k: nat): seq<Held>
    requires k < |pending|
  {
    pending[..k] + pending[k + 1..]
  }

  lemma {:induction false} FilterAllKept<T(!new)>(s: seq<T>, keep: T -> bool)
    requires forall x | x in s :: keep(x)
    ensures Filter(s, keep) == s
  {
    if s != [] {
      FilterAllKept(s[1..], keep);
    }
  }

  lemma DropsInTheTail<T>(s: seq<T>, k: nat)
    requires 0 < k < |s|
    ensures [s[0]] + (s[1..][..k - 1] + s[1..][k..]) == s[..k] + s[k + 1..]
  {
    var rest := s[1..];
    assert s[..k] == [s[0]] + rest[..k - 1] && s[k + 1..] == rest[k..];
  }

  lemma {:induction false} FilterDropsOne<T(!new)>(s: seq<T>, keep: T -> bool, k: nat)
    requires k < |s| && !keep(s[k]) && forall i | 0 <= i < |s| && i != k :: keep(s[i])
    ensures Filter(s, keep) == s[..k] + s[k + 1..]
  {
    if k == 0 {
      FilterAllKept(s[1..], keep);
      assert s[..0] + s[1..] == s[1..];
    } else {
      assert keep(s[0]);
      FilterDropsOne(s[1..], keep, k - 1);
      DropsInTheTail(s, k);
    }
  }

  // ---- the sweep -----------------------------------------------------------

  /** Two of a list, in the order they stand there. */
  ghost predicate StandInOrder<T>(s: seq<T>, x: T, y: T)
  {
    exists k, m :: 0 <= k < m < |s| && s[k] == x && s[m] == y
  }

  lemma {:induction false} FilterKeepsOrder<T(!new)>(s: seq<T>, keep: T -> bool, i: nat, j: nat)
    requires i < j < |Filter(s, keep)|
    ensures StandInOrder(s, Filter(s, keep)[i], Filter(s, keep)[j])
  {
    var rest := Filter(s[1..], keep);
    if keep(s[0]) && i == 0 {
      assert Filter(s, keep)[j] == rest[j - 1] && rest[j - 1] in rest && rest[j - 1] in s[1..];
      var m :| 0 <= m < |s[1..]| && s[1..][m] == rest[j - 1];
      assert s[0] == Filter(s, keep)[i] && s[m + 1] == Filter(s, keep)[j];
    } else {
      var d := if keep(s[0]) then 1 else 0;
      FilterKeepsOrder(s[1..], keep, i - d, j - d);
      var k, m :| 0 <= k < m < |s[1..]| && s[1..][k] == rest[i - d] && s[1..][m] == rest[j - d];
      assert s[k + 1] == Filter(s, keep)[i] && s[m + 1] == Filter(s, keep)[j];
    }
  }

  /** Less than `ttl` has passed since `since`; a clock that went back counts as none. */
  predicate Within(since: Instant, ttl: nat, now: Instant)
  {
    ttl > 0 && now < since + ttl
  }

  lemma LiveIff(cfg: Setting, pending: seq<Held>, now: Instant, p: Held)
    ensures p in Live(cfg, pending, now) <==>
      && p in pending
      && (if p.heldSince.Some? then Within(p.heldSince.value, cfg.heldTtl, now) else Within(p.at, 15 * 60 * SECOND, now))
  {
    assert p in Live(cfg, pending, now) <==> p in pending && Alive(cfg, p, now);
  }

  lemma LiveInOrder(cfg: Setting, pending: seq<Held>, now: Instant, i: nat, j: nat)
    requires i < j < |Live(cfg, pending, now)|
    ensures StandInOrder(pending, Live(cfg, pending, now)[i], Live(cfg, pending, now)[j])
  {
    FilterKeepsOrder(pending, (p: Held) => Alive(cfg, p, now), i, j);
  }

  /**
   * A sweep keeps exactly the requests within a quarter of an hour of their join, or, once the
   * roster holds them, within that approval's own time, in their order; the decisions less than
   * a quarter of an hour old; and a window that has not ended.
   */
  lemma SweepKeepsExactly(cfg: Setting, s: State, now: Instant)
    ensures
      var t := Swept(cfg, s, now);
      && (forall p :: p in t.pending <==>
            && p in s.pending
            && (if p.heldSince.Some? then Within(p.heldSince.value, cfg.heldTtl, now) else Within(p.at, 15 * 60 * SECOND, now)))
      && (forall i: nat, j: nat | i < j < |t.pending| :: StandInOrder(s.pending, t.pending[i], t.pending[j]))
      && (forall id :: id in t.decided <==> id in s.decided && Within(s.decided[id].at, 15 * 60 * SECOND, now))
      && (forall id | id in t.decided :: t.decided[id] == s.decided[id])
      && (forall u :: t.windowUntil == Some(u) <==> s.windowUntil == Some(u) && now < u)
      && t.undone == s.undone
  {
    var t := Swept(cfg, s, now);
    forall p
      ensures p in t.pending <==>
        && p in s.pending
        && (if p.heldSince.Some? then Within(p.heldSince.value, cfg.heldTtl, now) else Within(p.at, 15 * 60 * SECOND, now))
    {
      LiveIff(cfg, s.pending, now, p);
    }
    forall i: nat, j: nat | i < j < |t.pending|
      ensures StandInOrder(s.pending, t.pending[i], t.pending[j])
    {
      LiveInOrder(cfg, s.pending, now, i, j);
    }
  }

  lemma SweptStaysSound(cfg: Setting, run: seq<Step>, clocks: Clocks, s: State, t: State)
    requires ReachedAndSwept(cfg, run, clocks, s, t)
    ensures NoTwins(t.pending) && |t.pending| <= PENDING_CEILING
    ensures forall k | 0 <= k < |t.pending| :: t.pending[k].id !in t.decided
  {
    AlwaysSound(cfg, run);
    SweepKeeps(cfg, s, clocks.sweep);
    forall k | 0 <= k < |t.pending|
      ensures t.pending[k].id !in t.decided
    {
      assert t.pending[k] in s.pending && Genuine(cfg, After(cfg, Start, run), t.pending[k]);
    }
  }

  // ---- withdrawing ---------------------------------------------------------

  lemma AskedIsDropped(pending: seq<Held>, k: nat, id: Id, sender: Id, challenge: string)
    requires NoTwins(pending) && Asks(pending, k, id, sender, challenge)
    ensures Unmatched(pending, id, sender, challenge) == Dropped(pending, k)
    ensures forall m | Asks(pending, m, id, sender, challenge) :: m == k
  {
    FilterDropsOne(pending, (p: Held) => !Matches(p, id, sender, challenge), k);
  }

  lemma NotAskedStays(pending: seq<Held>, id: Id, sender: Id, challenge: string)
    requires forall k :: !Asks(pending, k, id, sender, challenge)
    ensures Unmatched(pending, id, sender, challenge) == pending
  {
    forall p | p in pending
      ensures !Matches(p, id, sender, challenge)
    {
      var k :| 0 <= k < |pending| && pending[k] == p;
      assert !Asks(pending, k, id, sender, challenge);
    }
    FilterAllKept(pending, (p: Held) => !Matches(p, id, sender, challenge));
  }

  /**
   * A withdrawal is answered 200 exactly if the id is pending or decided for that very sender
   * and challenge.  Then this request alone leaves the list, or this decision alone the decided
   * ones, and an approval it held is handed over for eviction.  Otherwise it is answered 404
   * and changes nothing.
   */
  lemma WithdrawalIsTheSendersOwn(
    cfg: Setting, run: seq<Step>, sender: Id, id: Id, challenge: string, clocks: Clocks, newId: Id, s: State, t: State)
    requires ReachedAndSwept(cfg, run, clocks, s, t)
    ensures
      var (z, answer) := Answered(cfg, s, sender, Withdraw(id, challenge), clocks, newId);
      && answer.body == Unknown
      && (answer.status == 200 || answer.status == 404)
      && (answer.status == 200 <==>
            (exists k :: Asks(t.pending, k, id, sender, challenge)) || DecidedFor(t.decided, id, sender, challenge))
      && (forall k | Asks(t.pending, k, id, sender, challenge) :: z == t.(pending := Dropped(t.pending, k)))
      && (DecidedFor(t.decided, id, sender, challenge) ==>
            z == t.(decided := t.decided - {id},
                    undone := t.undone + match t.decided[id].decision case Approves(a) => [a] case Denies => []))
      && (answer.status == 404 ==> z == t)
  {
    SweptStaysSound(cfg, run, clocks, s, t);
    if k :| Asks(t.pending, k, id, sender, challenge) {
      AskedIsDropped(t.pending, k, id, sender, challenge);
    } else {
      NotAskedStays(t.pending, id, sender, challenge);
    }
  }

  // ---- polling -------------------------------------------------------------

  /**
   * A poll changes nothing but for the sweep.  It is told the decision, or that the request is
   * still pending under its code, exactly if that is this sender's own, with its challenge; and
   * anything else is unknown.
   */
  lemma PollIsTheSendersOwn(
    cfg: Setting, run: seq<Step>, sender: Id, id: Id, challenge: string, clocks: Clocks, newId: Id, s: State, t: State)
    requires ReachedAndSwept(cfg, run, clocks, s, t)
    ensures
      var (z, answer) := Answered(cfg, s, sender, Status(id, challenge), clocks, newId);
      && z == t
      && (DecidedFor(t.decided, id, sender, challenge) ==>
            answer == Answer(200, match t.decided[id].decision case Approves(a) => Approved(a) case Denies => Denied))
      && (forall k | Asks(t.pending, k, id, sender, challenge) :: answer == Answer(202, Pending(id, t.pending[k].code)))
      && (!DecidedFor(t.decided, id, sender, challenge) && (forall k :: !Asks(t.pending, k, id, sender, challenge)) ==>
            answer == Answer(404, Unknown))
  {
    SweptStaysSound(cfg, run, clocks, s, t);
    var found := Asked(t.pending, id, sender, challenge);
    if found.Some? {
      assert Asks(t.pending, found.value, id, sender, challenge);
    }
    forall k | Asks(t.pending, k, id, sender, challenge)
      ensures found == Some(k)
    {
      assert t.pending[k] in t.pending && Matches(t.pending[k], id, sender, challenge);
      assert found.value < k || k < found.value || k == found.value;
    }
  }

  // ---- joining -------------------------------------------------------------

  /** The window the owner opened has not ended. */
  predicate TakesRequests(s: State, now: Instant)
  {
    s.windowUntil.Some? && now < s.windowUntil.value
  }

  predicate ProperRequest(req: JoinRequest, sender: Id)
  {
    req.nodeCode.Names? && req.nodeCode.keyId == sender && |req.challenge| >= 32
  }

  /**
   * What a join is answered: 403 outside the window; 400 for a request whose node code does not
   * name its sender or whose challenge is short; the same id and code to a sender whose request
   * is pending; 503 when eight are; and otherwise the request is held, last, under the new id
   * and the sender's own code.  Only the last changes anything.
   */
  lemma JoinIsAnswered(
    cfg: Setting, run: seq<Step>, sender: Id, req: JoinRequest, clocks: Clocks, newId: Id, s: State, t: State)
    requires ReachedAndSwept(cfg, run, clocks, s, t)
    ensures
      var (z, answer) := Answered(cfg, s, sender, Join(req), clocks, newId);
      var code := MatchCode(cfg, sender, req.challenge);
      if !TakesRequests(s, clocks.open) then z == t && answer == Answer(403, NotAccepting)
      else if !ProperRequest(req, sender) then z == t && answer == Answer(400, NotAccepting)
      else if exists k :: 0 <= k < |t.pending| && t.pending[k].sender == sender then
        z == t && forall k | 0 <= k < |t.pending| && t.pending[k].sender == sender ::
          answer == Answer(202, Pending(t.pending[k].id, t.pending[k].code))
      else if |t.pending| == 8 then z == t && answer == Answer(503, NotAccepting)
      else
        && z == t.(pending := t.pending + [Held(newId, sender, req, code, clocks.stamp, None)])
        && answer == Answer(202, Pending(newId, code))
  {
    SweptStaysSound(cfg, run, clocks, s, t);
    var found := BySender(t.pending, sender);
    forall k | 0 <= k < |t.pending| && t.pending[k].sender == sender
      ensures found == Some(k)
    {
      assert t.pending[k] in t.pending;
      assert found.value < k || k < found.value || k == found.value;
    }
  }

  /** What cannot be read is answered 400 and changes nothing: it does not even sweep. */
  lemma GarbledChangesNothing(cfg: Setting, s: State, sender: Id, clocks: Clocks, newId: Id)
    ensures Answered(cfg, s, sender, Garbled, clocks, newId) == (s, Answer(400, Unknown))
  {}

  // ---- the owner -----------------------------------------------------------

  predicate NoneOf(pending: seq<Held>, id: Id)
  {
    forall p | p in pending :: p.id != id
  }

  lemma FoundAt(pending: seq<Held>, id: Id)
    requires NoTwins(pending)
    ensures forall k | 0 <= k < |pending| && pending[k].id == id :: ById(pending, id) == Some(k)
    ensures ById(pending, id).None? <==> NoneOf(pending, id)
  {
    var found := ById(pending, id);
    if found.Some? {
      assert pending[found.value] in pending;
    }
    forall k | 0 <= k < |pending| && pending[k].id == id
      ensures found == Some(k)
    {
      assert pending[k] in pending;
      assert found.value < k || k < found.value || k == found.value;
    }
  }

  lemma DeniesAt(s: State, id: Id, now: Instant, k: nat)
    requires NoTwins(s.pending) && k < |s.pending| && s.pending[k].id == id
    ensures DeniedAt(s, id, now) == Some(s.(
      pending := Dropped(s.pending, k),
      decided := s.decided[id := Decided(s.pending[k].sender, s.pending[k].req.challenge, Denies, now)]))
  {
    FoundAt(s.pending, id);
  }

  /** The owner is told a request is unknown exactly if none of that id is pending; otherwise that one alone is denied. */
  lemma DenialIsOfOne(cfg: Setting, run: seq<Step>, id: Id, now: Instant)
    requires Valid(cfg, Start, run)
    ensures
      var s := After(cfg, Start, run).host;
      && (DeniedAt(s, id, now).None? <==> NoneOf(s.pending, id))
      && forall k | 0 <= k < |s.pending| && s.pending[k].id == id ::
           DeniedAt(s, id, now) == Some(s.(
             pending := Dropped(s.pending, k),
             decided := s.decided[id := Decided(s.pending[k].sender, s.pending[k].req.challenge, Denies, now)]))
  {
    AlwaysSound(cfg, run);
    var s := After(cfg, Start, run).host;
    FoundAt(s.pending, id);
    forall k: nat | k < |s.pending| && s.pending[k].id == id
      ensures DeniedAt(s, id, now) == Some(s.(
        pending := Dropped(s.pending, k),
        decided := s.decided[id := Decided(s.pending[k].sender, s.pending[k].req.challenge, Denies, now)]))
    {
      DeniesAt(s, id, now, k);
    }
  }

  lemma WithoutIsDropped(pending: seq<Held>, id: Id, k: nat)
    requires NoTwins(pending) && k < |pending| && pending[k].id == id
    ensures Without(pending, id) == Dropped(pending, k)
  {
    FilterDropsOne(pending, (p: Held) => p.id != id, k);
  }

  lemma WithoutNobody(pending: seq<Held>, id: Id)
    requires NoneOf(pending, id)
    ensures Without(pending, id) == pending
  {
    FilterAllKept(pending, (p: Held) => p.id != id);
  }

  /** Recording an approval decides that id approved and drops its request and no other, if it is still pending. */
  lemma RecordsOne(cfg: Setting, run: seq<Step>, id: Id, sender: Id, req: JoinRequest, approval: Approval, now: Instant)
    requires Valid(cfg, Start, run)
    ensures
      var s := After(cfg, Start, run).host;
      var t := Recorded(s, id, sender, req, approval, now);
      && t.decided == s.decided[id := Decided(sender, req.challenge, Approves(approval), now)]
      && t.windowUntil == s.windowUntil && t.undone == s.undone
      && (NoneOf(s.pending, id) ==> t.pending == s.pending)
      && forall k | 0 <= k < |s.pending| && s.pending[k].id == id :: t.pending == Dropped(s.pending, k)
  {
    AlwaysSound(cfg, run);
    var pending := After(cfg, Start, run).host.pending;
    forall k | 0 <= k < |pending| && pending[k].id == id
      ensures Without(pending, id) == Dropped(pending, k)
    {
      WithoutIsDropped(pending, id, k);
    }
    if NoneOf(pending, id) {
      WithoutNobody(pending, id);
    }
  }

  /** Holding one stamps the request of that id and no other, unless it was held already. */
  lemma HoldsOne(cfg: Setting, run: seq<Step>, id: Id, now: Instant)
    requires Valid(cfg, Start, run)
    ensures
      var s := After(cfg, Start, run).host;
      && (NoneOf(s.pending, id) ==> MarkedHeld(s, id, now) == s)
      && forall k | 0 <= k < |s.pending| && s.pending[k].id == id ::
           MarkedHeld(s, id, now) ==
             if s.pending[k].heldSince.Some? then s
             else s.(pending := s.pending[k := s.pending[k].(heldSince := Some(now))])
  {
    AlwaysSound(cfg, run);
    FoundAt(After(cfg, Start, run).host.pending, id);
  }

  /** A window lasts ten minutes, or as asked, and never more than thirty. */
  lemma WindowLasts(seconds: Option<nat>)
    ensures WindowFor(seconds) ==
      match seconds
      case None => 600 * SECOND
      case Some(n) => if n <= 1800 then n * SECOND else 1800 * SECOND
  {}

  // ---- approvals part-way --------------------------------------------------

  lemma HeldByIdIff(pending: seq<Held>, id: Id)
    requires NoTwins(pending)
    ensures forall k | 0 <= k < |pending| && pending[k].id == id ::
      HeldById(pending, id) == if pending[k].heldSince.Some? then Some(pending[k]) else None
    ensures NoneOf(pending, id) ==> HeldById(pending, id).None?
  {
    var found := Position(pending, (p: Held) => p.id == id && p.heldSince.Some?);
    if found.Some? {
      assert pending[found.value] in pending;
    }
    forall k | 0 <= k < |pending| && pending[k].id == id
      ensures HeldById(pending, id) == if pending[k].heldSince.Some? then Some(pending[k]) else None
    {
      assert pending[k] in pending;
      assert found.Some? ==> found.value < k || k < found.value || k == found.value;
    }
  }

  /** The request of this id is pending, and held by the roster or not. */
  ghost predicate Stands(pending: seq<Held>, id: Id, held: bool)
  {
    exists p :: p in pending && p.id == id && (held ==> p.heldSince.Some?)
  }

  /** The approval of request `id`, taken up. */
  function Taken(y: System, id: Id, resumed: bool): Task
    requires id in y.issued
  {
    Signs(id, y.issued[id].sender, y.issued[id].req, resumed)
  }

  lemma TakesUp(cfg: Setting, y: System, pending: seq<Held>, id: Id)
    requires NoTwins(pending) && forall p | p in pending :: Genuine(cfg, y, p)
    ensures Reading(pending, id) ==
      if Stands(pending, id, false) && id in y.issued then Some(Taken(y, id, false)) else None
    ensures JoinRuns.Resuming(pending, id) ==
      if Stands(pending, id, true) && id in y.issued then Some(Taken(y, id, true)) else None
    ensures Stands(pending, id, false) || Stands(pending, id, true) ==> id in y.issued
  {
    FoundAt(pending, id);
    HeldByIdIff(pending, id);
    if p :| p in pending && p.id == id {
      var k :| 0 <= k < |pending| && pending[k] == p;
      assert Genuine(cfg, y, p);
      assert forall q | q in pending && q.id == id :: q == p;
    }
  }

  lemma TakingUp(cfg: Setting, y: System, a: nat, id: Id, now: Instant)
    ensures a !in y.tasks ==> Next(cfg, y, Read(a, id)).tasks == Set(y.tasks, a, Reading(y.host.pending, id))
    ensures a in y.tasks && y.tasks[a].Waits? ==>
      Next(cfg, y, Wake(a, now)).tasks == Set(y.tasks, a, JoinRuns.Resuming(Swept(cfg, y.host, now).pending, y.tasks[a].id))
  {}

  lemma SweptIsGenuine(cfg: Setting, y: System, now: Instant)
    requires Sound(cfg, y)
    ensures NoTwins(y.host.pending) && forall p | p in y.host.pending :: Genuine(cfg, y, p)
    ensures
      var t := Swept(cfg, y.host, now);
      NoTwins(t.pending) && forall p | p in t.pending :: Genuine(cfg, y, p)
  {
    SweepKeeps(cfg, y.host, now);
  }

  /** Consent takes up a request exactly if it is pending, with its sender and what it asked. */
  lemma ConsentTakesUp(cfg: Setting, y: System, a: nat, id: Id)
    requires Sound(cfg, y) && a !in y.tasks
    ensures
      var tasks := Next(cfg, y, Read(a, id)).tasks;
      if Stands(y.host.pending, id, false) then id in y.issued && tasks == y.tasks[a := Taken(y, id, false)]
      else tasks == y.tasks
  {
    SweptIsGenuine(cfg, y, 0);
    TakesUp(cfg, y, y.host.pending, id);
    TakingUp(cfg, y, a, id, 0);
  }

  /** A waiting approval is taken up again exactly if its request is pending and held after a sweep, and dropped otherwise. */
  lemma WakingTakesUp(cfg: Setting, y: System, a: nat, now: Instant)
    requires Sound(cfg, y) && a in y.tasks && y.tasks[a].Waits?
    ensures
      var id, tasks := y.tasks[a].id, Next(cfg, y, Wake(a, now)).tasks;
      if Stands(Swept(cfg, y.host, now).pending, id, true) then id in y.issued && tasks == y.tasks[a := Taken(y, id, true)]
      else tasks == y.tasks - {a}
  {
    SweptIsGenuine(cfg, y, now);
    TakesUp(cfg, y, Swept(cfg, y.host, now).pending, y.tasks[a].id);
    TakingUp(cfg, y, a, y.tasks[a].id, now);
  }

  /**
   * Recording ends an approval, the roster holding it makes it wait, a restart ends all of
   * them, and giving up ends one unless it was held before and so waits again.  Nothing else
   * touches one.
   */
  lemma ApprovalsEnd(cfg: Setting, y: System, step: Step)
    requires Enabled(cfg, y, step) && !step.Read? && !step.Wake?
    ensures
      var tasks := Next(cfg, y, step).tasks;
      match step
      case Record(a, _, _) => tasks == y.tasks - {a}
      case Hold(a, _, _) => tasks == y.tasks[a := Waits(y.tasks[a].id)]
      case GiveUp(a) => tasks == if y.tasks[a].resumed then y.tasks[a := Waits(y.tasks[a].id)] else y.tasks - {a}
      case Restart => tasks == map[]
      case _ => tasks == y.tasks
  {}
}
