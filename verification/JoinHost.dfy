// The owner's device as a host of join requests: a bounded list of pending requests, the
// decided ones until they are collected, and the window in which it takes requests at all.
// An approval reads a request, signs with no lock held, and records later; joins, denials,
// withdrawals and sweeps come in between.

module JoinHosts {
  import opened Prelude
  import opened JoinApprovals

  const PENDING_CEILING: nat := 8
  const REQUEST_TTL: nat := 15 * 60 * SECOND
  const DECIDED_TTL: nat := 15 * 60 * SECOND
  const WINDOW_DEFAULT: nat := 10 * 60 * SECOND
  const WINDOW_MAX: nat := 30 * 60 * SECOND
  const MIN_CHALLENGE: nat := 32

  /**
   * `digest` is the first four bytes of the hash over a sender and a challenge, `fp` the key
   * fingerprint, `heldTtl` how long an approval the self roster holds stays resumable.
   */
  datatype Setting = Setting(digest: (Id, string) -> nat, fp: Id -> string, heldTtl: nat)

  datatype Held = Held(id: Id, sender: Id, req: JoinRequest, code: string, at: Instant, heldSince: Option<Instant>)

  datatype Decision = Approves(approval: Approval) | Denies

  datatype Decided = Decided(sender: Id, challenge: string, decision: Decision, at: Instant)

  /** `undone` lists the approvals whose requester withdrew them, handed over for eviction. */
  datatype State = State(
    windowUntil: Option<Instant>, pending: seq<Held>, decided: map<Id, Decided>, undone: seq<Approval>)

  const Fresh: State := State(None, [], map[], [])

  datatype Op =
    | Join(req: JoinRequest)
    | Status(id: Id, challenge: string)
    | Withdraw(id: Id, challenge: string)
    | Garbled

  datatype Body = Pending(id: Id, code: string) | Approved(approval: Approval) | Denied | Unknown | NotAccepting

  datatype Answer = Answer(status: nat, body: Body)

  /** The three clock readings of one message: the sweep's, the window check's, the stamp's. */
  datatype Clocks = Clocks(sweep: Instant, open: Instant, stamp: Instant)

  // ---- the matching code ---------------------------------------------------

  function Digits(n: nat, width: nat): (r: string)
    ensures |r| == width && forall k | 0 <= k < |r| :: '0' <= r[k] <= '9'
    decreases width
  {
    if width == 0 then "" else Digits(n / 10, width - 1) + [(n % 10) as char + '0']
  }

  /** Six digits, from the requester's key and its challenge. */
  function MatchCode(cfg: Setting, sender: Id, challenge: string): string
  {
    Digits(cfg.digest(sender, challenge) % 1_000_000, 6)
  }

  function Value(s: string): nat
    requires forall k | 0 <= k < |s| :: '0' <= s[k] <= '9'
  {
    if s == "" then 0 else 10 * Value(s[..|s| - 1]) + (s[|s| - 1] - '0') as nat
  }

  function TenTo(width: nat): nat
  {
    if width == 0 then 1 else 10 * TenTo(width - 1)
  }

  lemma {:induction false} DigitsRoundTrip(n: nat, width: nat)
    requires n < TenTo(width)
    ensures Value(Digits(n, width)) == n
    decreases width
  {
    if width > 0 {
      DigitsRoundTrip(n / 10, width - 1);
      assert Digits(n, width)[..width - 1] == Digits(n / 10, width - 1);
    }
  }

  /** Two requests show the same code exactly when their digests agree in the last six digits. */
  lemma CodesAgreeIff(cfg: Setting, sender1: Id, challenge1: string, sender2: Id, challenge2: string)
    ensures MatchCode(cfg, sender1, challenge1) == MatchCode(cfg, sender2, challenge2) <==>
      cfg.digest(sender1, challenge1) % 1_000_000 == cfg.digest(sender2, challenge2) % 1_000_000
  {
    assert TenTo(6) == 1_000_000;
    DigitsRoundTrip(cfg.digest(sender1, challenge1) % 1_000_000, 6);
    DigitsRoundTrip(cfg.digest(sender2, challenge2) % 1_000_000, 6);
  }

  // ---- the operations under the lock ---------------------------------------

  predicate Alive(cfg: Setting, p: Held, now: Instant)
  {
    if p.heldSince.Some? then Elapsed(p.heldSince.value, now) < cfg.heldTtl else Elapsed(p.at, now) < REQUEST_TTL
  }

  function Live(cfg: Setting, pending: seq<Held>, now: Instant): seq<Held>
  {
    Filter(pending, (p: Held) => Alive(cfg, p, now))
  }

  function Collectable(decided: map<Id, Decided>, now: Instant): map<Id, Decided>
  {
    map id | id in decided && Elapsed(decided[id].at, now) < DECIDED_TTL :: decided[id]
  }

  function StillOpen(until: Option<Instant>, now: Instant): Option<Instant>
  {
    if until.Some? && now >= until.value then None else until
  }

  function Swept(cfg: Setting, s: State, now: Instant): State
  {
    State(StillOpen(s.windowUntil, now), Live(cfg, s.pending, now), Collectable(s.decided, now), s.undone)
  }

  predicate IsOpen(until: Option<Instant>, now: Instant)
  {
    until.Some? && now < until.value
  }

  predicate WellFormed(req: JoinRequest, sender: Id)
  {
    req.nodeCode.Names? && req.nodeCode.keyId == sender && |req.challenge| >= MIN_CHALLENGE
  }

  predicate Matches(p: Held, id: Id, sender: Id, challenge: string)
  {
    p.id == id && p.sender == sender && p.req.challenge == challenge
  }

  /** Where the first pending request satisfying `want` stands. */
  function Position(pending: seq<Held>, want: Held -> bool): (r: Option<nat>)
    ensures r.Some? ==> r.value < |pending| && want(pending[r.value])
    ensures r.None? ==> forall p | p in pending :: !want(p)
  {
    if pending == [] then None
    else if want(pending[0]) then Some(0)
    else match Position(pending[1..], want)
      case Some(k) => Some(k + 1)
      case None => None
  }

  function BySender(pending: seq<Held>, sender: Id): Option<nat>
  {
    Position(pending, (p: Held) => p.sender == sender)
  }

  function ById(pending: seq<Held>, id: Id): Option<nat>
  {
    Position(pending, (p: Held) => p.id == id)
  }

  function Asked(pending: seq<Held>, id: Id, sender: Id, challenge: string): Option<nat>
  {
    Position(pending, (p: Held) => Matches(p, id, sender, challenge))
  }

  function Without(pending: seq<Held>, id: Id): seq<Held>
  {
    Filter(pending, (p: Held) => p.id != id)
  }

  function Unmatched(pending: seq<Held>, id: Id, sender: Id, challenge: string): seq<Held>
  {
    Filter(pending, (p: Held) => !Matches(p, id, sender, challenge))
  }

  /** A join that is held as a new request. */
  predicate Admits(s: State, sender: Id, req: JoinRequest, open: Instant)
  {
    && IsOpen(s.windowUntil, open) && WellFormed(req, sender)
    && BySender(s.pending, sender).None? && |s.pending| < PENDING_CEILING
  }

  function AnswerJoin(cfg: Setting, s: State, sender: Id, req: JoinRequest, clocks: Clocks, newId: Id): (State, Answer)
  {
    if !IsOpen(s.windowUntil, clocks.open) then (s, Answer(403, NotAccepting))
    else if !WellFormed(req, sender) then (s, Answer(400, NotAccepting))
    else match BySender(s.pending, sender)
      case Some(k) => (s, Answer(202, Pending(s.pending[k].id, s.pending[k].code)))
      case None =>
        if |s.pending| >= PENDING_CEILING then (s, Answer(503, NotAccepting))
        else
          var code := MatchCode(cfg, sender, req.challenge);
          (s.(pending := s.pending + [Held(newId, sender, req, code, clocks.stamp, None)]),
           Answer(202, Pending(newId, code)))
  }

  function AnswerWithdraw(s: State, sender: Id, id: Id, challenge: string): (State, Answer)
  {
    var kept := Unmatched(s.pending, id, sender, challenge);
    if |kept| != |s.pending| then (s.(pending := kept), Answer(200, Unknown))
    else if id in s.decided && s.decided[id].sender == sender && s.decided[id].challenge == challenge then
      var undone := match s.decided[id].decision case Approves(a) => [a] case Denies => [];
      (s.(decided := s.decided - {id}, undone := s.undone + undone), Answer(200, Unknown))
    else (s, Answer(404, Unknown))
  }

  function AnswerStatus(s: State, sender: Id, id: Id, challenge: string): Answer
  {
    if id in s.decided then
      var d := s.decided[id];
      if d.sender != sender || d.challenge != challenge then Answer(404, Unknown)
      else match d.decision
        case Approves(a) => Answer(200, Approved(a))
        case Denies => Answer(200, Denied)
    else match Asked(s.pending, id, sender, challenge)
      case Some(k) => Answer(202, Pending(id, s.pending[k].code))
      case None => Answer(404, Unknown)
  }

  function Answered(cfg: Setting, s: State, sender: Id, op: Op, clocks: Clocks, newId: Id): (State, Answer)
  {
    var t := Swept(cfg, s, clocks.sweep);
    match op
    case Garbled => (s, Answer(400, Unknown))
    case Join(req) => AnswerJoin(cfg, t, sender, req, clocks, newId)
    case Withdraw(id, challenge) => AnswerWithdraw(t, sender, id, challenge)
    case Status(id, challenge) => (t, AnswerStatus(t, sender, id, challenge))
  }

  function WindowFor(seconds: Option<nat>): nat
  {
    MinNat(if seconds.Some? then seconds.value * SECOND else WINDOW_DEFAULT, WINDOW_MAX)
  }

  /** The owner's refusal; it does not sweep first. */
  function DeniedAt(s: State, id: Id, now: Instant): Option<State>
  {
    match ById(s.pending, id)
    case None => None
    case Some(k) =>
      Some(s.(pending := s.pending[..k] + s.pending[k + 1..],
              decided := s.decided[id := Decided(s.pending[k].sender, s.pending[k].req.challenge, Denies, now)]))
  }

  function Recorded(s: State, id: Id, sender: Id, req: JoinRequest, approval: Approval, now: Instant): State
  {
    s.(pending := Without(s.pending, id),
       decided := s.decided[id := Decided(sender, req.challenge, Approves(approval), now)])
  }

  /** Held by the roster since `now`, unless it already was since earlier. */
  function MarkedHeld(s: State, id: Id, now: Instant): State
  {
    match ById(s.pending, id)
    case Some(k) =>
      if s.pending[k].heldSince.None? then s.(pending := s.pending[k := s.pending[k].(heldSince := Some(now))]) else s
    case None => s
  }

  // ---- the host ------------------------------------------------------------

  class Host {
    const cfg: Setting
    var windowUntil: Option<Instant>
    var pending: seq<Held>
    var decided: map<Id, Decided>
    var undone: seq<Approval>

    constructor (cfg: Setting)
      ensures this.cfg == cfg && Now() == Fresh
    {
      this.cfg := cfg;
      windowUntil, pending, decided, undone := None, [], map[], [];
    }

    function Now(): State
      reads this
    {
      State(windowUntil, pending, decided, undone)
    }

    method Sweep(now: Instant)
      modifies this`windowUntil, this`pending, this`decided
      ensures Now() == Swept(cfg, old(Now()), now)
    {
      pending := Live(cfg, pending, now);
      decided := Collectable(decided, now);
      if windowUntil.Some? && now >= windowUntil.value {
        windowUntil := None;
      }
    }

    /** One message of the join plane, answered under the lock. */
    method Respond(sender: Id, op: Op, clocks: Clocks, newId: Id) returns (answer: Answer)
      modifies this
      ensures (Now(), answer) == Answered(cfg, old(Now()), sender, op, clocks, newId)
    {
      if op.Garbled? {
        return Answer(400, Unknown);
      }
      Sweep(clocks.sweep);
      match op {
        case Join(req) =>
          if !IsOpen(windowUntil, clocks.open) {
            return Answer(403, NotAccepting);
          }
          if !WellFormed(req, sender) {
            return Answer(400, NotAccepting);
          }
          var held := BySender(pending, sender);
          if held.Some? {
            return Answer(202, Pending(pending[held.value].id, pending[held.value].code));
          }
          if |pending| >= PENDING_CEILING {
            return Answer(503, NotAccepting);
          }
          var code := MatchCode(cfg, sender, req.challenge);
          pending := pending + [Held(newId, sender, req, code, clocks.stamp, None)];
          return Answer(202, Pending(newId, code));
        case Withdraw(id, challenge) =>
          var before := |pending|;
          UnmatchedAll(pending, id, sender, challenge);
          pending := Unmatched(pending, id, sender, challenge);
          if |pending| != before {
            return Answer(200, Unknown);
          }
          if id in decided && decided[id].sender == sender && decided[id].challenge == challenge {
            var d := decided[id].decision;
            decided := decided - {id};
            assert undone + [] == undone;
            if d.Approves? {
              undone := undone + [d.approval];
            }
            return Answer(200, Unknown);
          }
          return Answer(404, Unknown);
        case Status(id, challenge) =>
          return AnswerStatus(Now(), sender, id, challenge);
      }
    }

    method OpenWindow(now: Instant, seconds: Option<nat>)
      modifies this`windowUntil
      ensures Now() == old(Now()).(windowUntil := Some(now + WindowFor(seconds)))
    {
      windowUntil := Some(now + WindowFor(seconds));
    }

    method Deny(id: Id, now: Instant) returns (known: bool)
      modifies this`pending, this`decided
      ensures known <==> DeniedAt(old(Now()), id, now).Some?
      ensures Now() == if known then DeniedAt(old(Now()), id, now).value else old(Now())
    {
      var pos := ById(pending, id);
      if pos.None? {
        return false;
      }
      var held := pending[pos.value];
      pending := pending[..pos.value] + pending[pos.value + 1..];
      decided := decided[id := Decided(held.sender, held.req.challenge, Denies, now)];
      return true;
    }

    method RecordApproved(id: Id, sender: Id, req: JoinRequest, approval: Approval, now: Instant)
      modifies this`pending, this`decided
      ensures Now() == Recorded(old(Now()), id, sender, req, approval, now)
    {
      pending := Without(pending, id);
      decided := decided[id := Decided(sender, req.challenge, Approves(approval), now)];
    }

    method Hold(id: Id, now: Instant)
      modifies this`pending
      ensures Now() == MarkedHeld(old(Now()), id, now)
    {
      var pos := ById(pending, id);
      if pos.Some? {
        if pending[pos.value].heldSince.None? {
          pending := pending[pos.value := pending[pos.value].(heldSince := Some(now))];
        }
      }
    }

    /** The resumption's tick: sweep, then the request if it is still pending and held. */
    method HeldRequest(id: Id, now: Instant) returns (held: Option<Held>)
      modifies this`windowUntil, this`pending, this`decided
      ensures Now() == Swept(cfg, old(Now()), now)
      ensures held == HeldById(pending, id)
    {
      Sweep(now);
      held := HeldById(pending, id);
    }
  }

  function HeldById(pending: seq<Held>, id: Id): Option<Held>
  {
    match Position(pending, (p: Held) => p.id == id && p.heldSince.Some?)
    case Some(k) => Some(pending[k])
    case None => None
  }

  lemma {:induction false} FilterAll<T(!new)>(s: seq<T>, keep: T -> bool)
    ensures |Filter(s, keep)| == |s| ==> Filter(s, keep) == s
  {
    if s != [] {
      FilterAll(s[1..], keep);
    }
  }

  lemma UnmatchedAll(pending: seq<Held>, id: Id, sender: Id, challenge: string)
    ensures |Unmatched(pending, id, sender, challenge)| == |pending| ==>
      Unmatched(pending, id, sender, challenge) == pending
  {
    FilterAll(pending, (p: Held) => !Matches(p, id, sender, challenge));
  }
}
