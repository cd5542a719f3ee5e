// The offline release token: an accord:lifecycle:active invocation bound by digest to
// one latch instance, checked against a pinned authority without network or database.

module Releases {
  import opened Prelude
  import opened Accord
  import opened HaltRecords

  /** `binding` is advisory; nothing below reads it. */
  datatype ReleaseToken = ReleaseToken(inv: Invocation, sigs: seq<Signature>, binding: Option<ReleaseBinding>)

  datatype Authority = Authority(roster: seq<Member>, threshold: nat, source: string)

  datatype Verdict = Verdict(
    releaseInvocationId: Id, validSigners: nat, threshold: nat, rosterSize: nat,
    source: string, boundPayload: Digest, latchId: Id, nodeId: Id)

  /** Why a token was refused, with the data its text carries. */
  datatype Refusal =
    | NoBinding
    | WrongKind(kind: Kind)
    | WrongHalt(resumes: Option<Id>, latched: Id)
    | NotThisLatch(expected: Digest, carried: Digest)
    | UnreadableWindow(validUntil: Stamp)
    | Expired(validUntil: Stamp, reference: Instant, now: Stamp, latchedAt: Stamp)
    | QuorumNotMet(threshold: nat, rosterSize: nat, source: string)

  /** Expiry is judged at the node's clock, floored at the latch already on disk. */
  function ReleaseReferenceTime(rec: HaltRecord, now: Stamp, wallClock: Instant): (r: Instant)
    ensures r >= (if now.At? then now.instant else wallClock)
    ensures rec.latchedAt.At? ==> r >= rec.latchedAt.instant
    ensures r == (if now.At? then now.instant else wallClock) || rec.latchedAt == At(r)
  {
    var t := if now.At? then now.instant else wallClock;
    if rec.latchedAt.At? && rec.latchedAt.instant > t then rec.latchedAt.instant else t
  }

  function VerifyReleaseToken(
    rec: HaltRecord, token: ReleaseToken, auth: Authority, now: Stamp, wallClock: Instant)
    : Result<Verdict, Refusal>
  {
    match BindingOf(rec)
    case None => Err(NoBinding)
    case Some(b) =>
      var expected := OfBinding(b);
      var inv := token.inv;
      if inv.kind != LifecycleActive then Err(WrongKind(inv.kind))
      else if inv.resumesHaltId != Some(b.haltInvocationId) then Err(WrongHalt(inv.resumesHaltId, b.haltInvocationId))
      else if inv.payload != expected then Err(NotThisLatch(expected, inv.payload))
      else if inv.validUntil.Unparseable? then Err(UnreadableWindow(inv.validUntil))
      else if inv.validUntil.instant < ReleaseReferenceTime(rec, now, wallClock) then
        Err(Expired(inv.validUntil, ReleaseReferenceTime(rec, now, wallClock), now, rec.latchedAt))
      else
        var valid := |ValidSigners(auth.roster, inv, token.sigs)|;
        if valid < auth.threshold then Err(QuorumNotMet(auth.threshold, |auth.roster|, auth.source))
        else Ok(Verdict(inv.id, valid, auth.threshold, |auth.roster|, auth.source, expected, b.latchId, b.nodeId))
  }

  /** The unsigned invocation the seats cosign to release one latch. */
  function BuildReleaseInvocation(
    b: ReleaseBinding, id: Id, nonce: string, assertedAt: Stamp, validUntil: Stamp): Invocation
  {
    Invocation(LifecycleActive, id, Some(b.haltInvocationId), None, nonce, assertedAt, validUntil, OfBinding(b))
  }

  function Cosign(inv: Invocation, seats: seq<Member>): (sigs: seq<Signature>)
    requires forall m | m in seats :: m.pq.Some?
    ensures forall m | m in seats :: SignedBy(m, inv, sigs)
    ensures forall s | s in sigs :: s.over == inv
  {
    if seats == [] then []
    else
      assert seats == [seats[0]] + seats[1..];
      var first, rest := Signature(seats[0].id, seats[0].ed, seats[0].pq.value, inv), Cosign(inv, seats[1..]);
      assert forall s :: s in [first] + rest <==> s == first || s in rest;
      [first] + rest
  }

  /**
   * Producer and verifier agree: a token built from a latch's own binding and cosigned by
   * enough seats is accepted for that latch exactly while its window reaches the reference
   * instant, whatever the clock says and whatever its advisory block claims.
   */
  lemma RoundTrip(
    rec: HaltRecord, b: ReleaseBinding, auth: Authority, seats: seq<Member>, advisory: Option<ReleaseBinding>,
    id: Id, nonce: string, assertedAt: Stamp, until: Instant, now: Stamp, wallClock: Instant)
    requires BindingOf(rec) == Some(b)
    requires forall m | m in seats :: m in auth.roster && m.pq.Some?
    requires |Seats(seats)| >= auth.threshold
    ensures
      var inv := BuildReleaseInvocation(b, id, nonce, assertedAt, At(until));
      var token := ReleaseToken(inv, Cosign(inv, seats), advisory);
      VerifyReleaseToken(rec, token, auth, now, wallClock).Ok?
      <==> until >= ReleaseReferenceTime(rec, now, wallClock)
  {
    var inv := BuildReleaseInvocation(b, id, nonce, assertedAt, At(until));
    var sigs := Cosign(inv, seats);
    assert Seats(seats) <= ValidSigners(auth.roster, inv, sigs);
    SubsetCardinality(Seats(seats), ValidSigners(auth.roster, inv, sigs));
  }

  /**
   * What any token must be to be accepted for a latch, at any clock and under any authority:
   * a resumption of the very halt latched, signing the digest of the latch's own binding, with
   * a readable window that reaches the reference instant, by at least the threshold of distinct
   * seats.  The verdict then says who released what.
   */
  lemma AcceptedIff(rec: HaltRecord, token: ReleaseToken, auth: Authority, now: Stamp, wallClock: Instant)
    ensures
      var inv := token.inv;
      var signers := ValidSigners(auth.roster, inv, token.sigs);
      && (VerifyReleaseToken(rec, token, auth, now, wallClock).Ok? <==>
            && BindingOf(rec).Some? && inv.kind == LifecycleActive && inv.resumesHaltId == Some(rec.invocationId)
            && inv.payload == OfBinding(BindingOf(rec).value)
            && inv.validUntil.At? && inv.validUntil.instant >= ReleaseReferenceTime(rec, now, wallClock)
            && |signers| >= auth.threshold)
      && (VerifyReleaseToken(rec, token, auth, now, wallClock).Ok? ==>
            VerifyReleaseToken(rec, token, auth, now, wallClock).value ==
              Verdict(inv.id, |signers|, auth.threshold, |auth.roster|, auth.source, inv.payload,
                      rec.latchId.value, rec.nodeId.value))
  {}

  /** A refusal names the first of those conditions that fails, in that order. */
  lemma RefusedWhy(rec: HaltRecord, token: ReleaseToken, auth: Authority, now: Stamp, wallClock: Instant)
    requires VerifyReleaseToken(rec, token, auth, now, wallClock).Err?
    ensures
      var reason, inv := VerifyReleaseToken(rec, token, auth, now, wallClock).error, token.inv;
      var reference := ReleaseReferenceTime(rec, now, wallClock);
      match reason
      case NoBinding => BindingOf(rec).None?
      case WrongKind(kind) => BindingOf(rec).Some? && kind == inv.kind != LifecycleActive
      case WrongHalt(resumes, latched) =>
        inv.kind == LifecycleActive && resumes == inv.resumesHaltId && latched == rec.invocationId && resumes != Some(latched)
      case NotThisLatch(expected, carried) =>
        && inv.resumesHaltId == Some(rec.invocationId) && BindingOf(rec).Some?
        && expected == OfBinding(BindingOf(rec).value) && carried == inv.payload != expected
      case UnreadableWindow(until) => inv.payload == OfBinding(BindingOf(rec).value) && until == inv.validUntil && !until.At?
      case Expired(until, at, stamp, latchedAt) =>
        && until == inv.validUntil && until.At? && until.instant < at == reference && stamp == now && latchedAt == rec.latchedAt
      case QuorumNotMet(threshold, size, source) =>
        && threshold == auth.threshold && size == |auth.roster| && source == auth.source
        && inv.validUntil.At? && inv.validUntil.instant >= reference
        && |ValidSigners(auth.roster, inv, token.sigs)| < threshold
  {}

  /**
   * A token accepted for two latches, on any nodes, at any instants and under any
   * authorities, was accepted for one latch instance: same node, halt, payload and latch id.
   */
  lemma TokenNamesOneLatch(
    token: ReleaseToken,
    rec1: HaltRecord, auth1: Authority, now1: Stamp, wall1: Instant,
    rec2: HaltRecord, auth2: Authority, now2: Stamp, wall2: Instant)
    requires VerifyReleaseToken(rec1, token, auth1, now1, wall1).Ok?
    requires VerifyReleaseToken(rec2, token, auth2, now2, wall2).Ok?
    ensures BindingOf(rec1) == BindingOf(rec2) && BindingOf(rec1).Some?
    ensures rec1.nodeId == rec2.nodeId && rec1.invocationId == rec2.invocationId
    ensures rec1.haltPayload == rec2.haltPayload && rec1.latchId == rec2.latchId
  {
    assert token.inv.payload == OfBinding(BindingOf(rec1).value) == OfBinding(BindingOf(rec2).value);
  }

  /** Confirming a latch changes nothing a token is bound to, nor does its stored digest count. */
  lemma ConfirmationKeepsTheToken(
    rec: HaltRecord, token: ReleaseToken, auth: Authority, now: Stamp, wallClock: Instant,
    c: HaltConfirmation, stored: Option<Digest>)
    ensures VerifyReleaseToken(rec.(confirmed := Some(c), releasePayload := stored), token, auth, now, wallClock)
         == VerifyReleaseToken(rec, token, auth, now, wallClock)
  {
    assert BindingOf(rec.(confirmed := Some(c), releasePayload := stored)) == BindingOf(rec);
  }

  /** The digest a fresh latch stores beside its binding is the one its release must carry. */
  lemma StoredDigestIsDemanded(
    kind: Kind, id: Id, signers: set<Id>, threshold: nat, received: Instant, nodeId: Option<Id>, payload: Digest,
    latchId: Option<Id>, fuse: nat, token: ReleaseToken, auth: Authority, now: Stamp, wallClock: Instant)
    ensures
      var rec := NewRecord(kind, id, signers, threshold, received, nodeId, payload, latchId, fuse);
      VerifyReleaseToken(rec, token, auth, now, wallClock).Ok? ==> rec.releasePayload == Some(token.inv.payload)
  {}

  /** What the seats signed is what is checked: a token whose signatures cover anything else is refused. */
  lemma TamperedTokenRefused(
    rec: HaltRecord, token: ReleaseToken, auth: Authority, now: Stamp, wallClock: Instant)
    requires auth.threshold > 0
    requires forall s | s in token.sigs :: s.over != token.inv
    ensures VerifyReleaseToken(rec, token, auth, now, wallClock).Err?
  {
    assert ValidSigners(auth.roster, token.inv, token.sigs) == {};
  }
}
