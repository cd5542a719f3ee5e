// The latch: what one node records about the halt that paused its agents, and the one
// predicate everything reads, whether it is in effect at an instant.

module HaltRecords {
  import opened Prelude
  import opened Accord

  const HALT_FUSE_SECS_DEFAULT: nat := 86_400

  const I64_MAX: nat := 0x7FFF_FFFF_FFFF_FFFF

  /** The earliest instant the clock library can name. */
  const MIN_UTC: Instant := -8_334_601_228_800 * SECOND

  datatype HaltConfirmation = HaltConfirmation(invocationId: Id, signers: set<Id>, receivedAt: Stamp)

  datatype HaltRecord = HaltRecord(
    kind: Kind,
    invocationId: Id,
    validSigners: set<Id>,
    quorumThreshold: nat,
    latchedAt: Stamp,
    receivedAt: Option<Stamp>,
    fuseSecs: Option<nat>,
    confirmed: Option<HaltConfirmation>,
    nodeId: Option<Id>,
    haltPayload: Option<Digest>,
    latchId: Option<Id>,
    releasePayload: Option<Digest>)
  {
    /** The instant the fuse counts from; an unreadable one never reads as fresh. */
    function ReceivedAt(): Instant
    {
      match if receivedAt.Some? then receivedAt.value else latchedAt
      case At(t) => t
      case Unparseable(_) => MIN_UTC
    }

    function FuseSecs(): nat
    {
      if fuseSecs.Some? then fuseSecs.value else HALT_FUSE_SECS_DEFAULT
    }

    function LapsesAt(): Instant
    {
      ReceivedAt() + MinNat(FuseSecs(), I64_MAX) * SECOND
    }

    function StandingAt(now: Instant): HaltStanding
    {
      if confirmed.Some? then InEffect(None)
      else if now < LapsesAt() then InEffect(Some(LapsesAt()))
      else Lapsed(LapsesAt())
    }

    predicate InEffectAt(now: Instant)
    {
      StandingAt(now).InEffect?
    }
  }

  datatype HaltStanding = InEffect(lapsesAt: Option<Instant>) | Lapsed(lapsedAt: Instant)

  /** The binding a record demands, or nothing when any of its three parts is absent. */
  function BindingOf(rec: HaltRecord): Option<ReleaseBinding>
  {
    if rec.nodeId.Some? && rec.nodeId.value != ""
       && rec.haltPayload.Some? && rec.haltPayload.value != Blank
       && rec.latchId.Some? && rec.latchId.value != ""
    then Some(ReleaseBinding(rec.nodeId.value, rec.invocationId, rec.haltPayload.value, rec.latchId.value))
    else None
  }

  /**
   * The record the halt path latches: unconfirmed, its fuse counted from `received`, and
   * the digest a release must carry written beside it as documentation.
   */
  function NewRecord(
    kind: Kind, id: Id, signers: set<Id>, threshold: nat, received: Instant,
    nodeId: Option<Id>, payload: Digest, latchId: Option<Id>, fuse: nat): (rec: HaltRecord)
    ensures rec.confirmed.None? && rec.kind == kind && rec.invocationId == id && rec.latchId == latchId
    ensures rec.validSigners == signers && rec.quorumThreshold == threshold
    ensures rec.nodeId == nodeId && rec.haltPayload == Some(payload)
    ensures rec.ReceivedAt() == received && rec.LapsesAt() == received + MinNat(fuse, I64_MAX) * SECOND
    ensures rec.releasePayload == if BindingOf(rec).Some? then Some(OfBinding(BindingOf(rec).value)) else None
  {
    var bare := HaltRecord(kind, id, signers, threshold, At(received), Some(At(received)), Some(fuse),
                           None, nodeId, Some(payload), latchId, None);
    match BindingOf(bare)
    case Some(b) => bare.(releasePayload := Some(OfBinding(b)))
    case None => bare
  }

  /** What a release is bound to is all there, or nothing is. */
  lemma BindingIff(rec: HaltRecord, b: ReleaseBinding)
    ensures BindingOf(rec) == Some(b) <==>
      && rec.nodeId == Some(b.nodeId) && b.nodeId != "" && rec.invocationId == b.haltInvocationId
      && rec.haltPayload == Some(b.haltPayload) && b.haltPayload != Blank && rec.latchId == Some(b.latchId) && b.latchId != ""
  {}

  /** A latch is in effect for good once confirmed, and else until its fuse has run from its receipt. */
  lemma InEffectIff(rec: HaltRecord, now: Instant)
    ensures rec.InEffectAt(now) <==> rec.confirmed.Some? || now < rec.LapsesAt()
    ensures rec.StandingAt(now) ==
      if rec.confirmed.Some? then InEffect(None) else if rec.InEffectAt(now) then InEffect(Some(rec.LapsesAt())) else Lapsed(rec.LapsesAt())
    ensures rec.receivedAt.Some? && !rec.receivedAt.value.At? ==> rec.ReceivedAt() == MIN_UTC
  {}

  /** A latch written before the receipt field existed counts from `latchedAt`, at the default fuse. */
  lemma OlderLatchLapses(rec: HaltRecord, latched: Instant, now: Instant)
    requires rec.latchedAt == At(latched) && rec.receivedAt.None? && rec.fuseSecs.None? && rec.confirmed.None?
    ensures rec.InEffectAt(now) <==> now < latched + 86_400 * SECOND
  {
    assert rec.LapsesAt() == latched + 86_400 * SECOND;
  }
}
