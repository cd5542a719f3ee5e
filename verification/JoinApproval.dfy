// The approval an owner's device signs for a new device, and the check the new device runs
// on it offline.  Keys and signatures are symbolic: a signature knows which key made it and
// over what, a commitment is injective, and the key fingerprint is any function at all.

module JoinApprovals {
  import opened Prelude

  /** What should be the base64 of a key. */
  datatype KeyText = Base64(raw: Id) | NotBase64(text: string)

  /** A node code as written; two texts may name the same node. */
  datatype NodeCode = Names(keyId: Id, form: string) | Unreadable(text: string)

  datatype Purpose = OwnerBindingPurpose | OtherPurpose(text: string)

  datatype Scope = Infra(name: string) | Agency(name: string)

  datatype Envelope =
    | BindingEnvelope(attestingKeyId: Id, nodeKeyId: Id, purpose: Purpose, scopes: seq<Scope>, cohort: string)
    | OccurrenceEnvelope(
        attestingKeyId: Id, identityKeyId: Id, occurrenceKeyId: Id, deviceClass: string, encryption: string,
        assertedAt: Instant)

  /** One half of a hybrid signature. */
  datatype Half = Half(key: Id, over: Envelope)

  datatype SignedBinding = SignedBinding(
    envelope: Envelope, attestingKeyId: Id, ed: KeyText, pqc: KeyText, edHalf: Half, pqcHalf: Half)

  datatype SignedOccurrence = SignedOccurrence(
    attestingKeyId: Id, identityKeyId: Id, occurrenceKeyId: Id, signed: Envelope, edHalf: Half, pqcHalf: Half)

  datatype Commitment = Sha256(key: Id)

  datatype FedCode = FedCode(keyId: Id, ed: KeyText, commitment: Option<Commitment>, ownedNode: Option<(Id, Id)>)

  datatype CodeText = Encoded(code: FedCode) | Undecodable(text: string)

  datatype KeyRecord = KeyRecord(keyId: Id, ed: KeyText, pqc: Option<KeyText>, isUser: bool)

  datatype JoinRequest = JoinRequest(
    nodeCode: NodeCode, challenge: string, deviceName: string, deviceClass: string, occurrenceKey: KeyRecord,
    encryption: string)

  datatype Approval = Approval(
    nodeCode: NodeCode, cohort: string, binding: SignedBinding, claimer: Option<KeyRecord>,
    occurrence: SignedOccurrence, ownerCode: Option<CodeText>)

  const INFRA_SCOPES: seq<Scope> := [
    Infra("hold_community_membership"), Infra("hold_family_membership"), Infra("network_presence"), Infra("serve")]

  // ---- names and fingerprints ----------------------------------------------

  function DeriveKeyId(fp: Id -> string, alias: string, ed: Id): Id
  {
    alias + "-" + fp(ed)
  }

  /** What follows the last dash. */
  function LastSegment(s: string): (r: string)
    ensures |r| <= |s| && r == s[|s| - |r|..]
    ensures '-' !in r
    ensures |r| < |s| ==> s[|s| - |r| - 1] == '-'
  {
    if s == "" || s[|s| - 1] == '-' then "" else LastSegment(s[..|s| - 1]) + [s[|s| - 1]]
  }

  predicate EndsWith(s: string, tail: string)
  {
    |tail| <= |s| && s[|s| - |tail|..] == tail
  }

  /** The id closes with the last segment of the name its own key would be derived under. */
  predicate NamesItsKey(fp: Id -> string, keyId: Id, ed: Id)
  {
    var segment := LastSegment(DeriveKeyId(fp, "x", ed));
    segment != "" && EndsWith(keyId, segment)
  }

  /** A roster key of `fedId` is named the fedID, then its own key's fingerprint. */
  function RosterKeyNamedUnder(fp: Id -> string, fedId: Id, record: KeyRecord): Result<(), SignError>
  {
    if record.ed.NotBase64? then Err(KeyUnreadable)
    else if record.keyId != DeriveKeyId(fp, fedId, record.ed.raw) then Err(NotNamedUnder)
    else Ok(())
  }

  /** No key is a roster key of two identities. */
  lemma NamedUnderOneIdentity(fp: Id -> string, a: Id, b: Id, record: KeyRecord)
    requires RosterKeyNamedUnder(fp, a, record).Ok? && RosterKeyNamedUnder(fp, b, record).Ok?
    ensures a == b
  {
    var tail := "-" + fp(record.ed.raw);
    assert DeriveKeyId(fp, a, record.ed.raw) == a + tail && DeriveKeyId(fp, b, record.ed.raw) == b + tail;
    assert a == (a + tail)[..|record.keyId| - |tail|] && b == (b + tail)[..|record.keyId| - |tail|];
  }

  /** A roster key names its own key, so what a fingerprint check accepts is what the name says. */
  lemma RosterKeyNamesItsKey(fp: Id -> string, fedId: Id, record: KeyRecord)
    requires RosterKeyNamedUnder(fp, fedId, record).Ok?
    requires '-' !in fp(record.ed.raw) && fp(record.ed.raw) != ""
    ensures NamesItsKey(fp, record.keyId, record.ed.raw)
  {
    var mark := fp(record.ed.raw);
    LastSegmentOfDerived("x", mark);
    assert record.keyId[|record.keyId| - |mark|..] == mark;
  }

  lemma {:induction false} LastSegmentOfDerived(alias: string, mark: string)
    requires '-' !in mark
    ensures LastSegment(alias + "-" + mark) == mark
    decreases |mark|
  {
    var s := alias + "-" + mark;
    if mark != "" {
      assert s[..|s| - 1] == alias + "-" + mark[..|mark| - 1];
      LastSegmentOfDerived(alias, mark[..|mark| - 1]);
    }
  }

  // ---- verifying -----------------------------------------------------------

  predicate HybridVerifies(ed: KeyText, pqc: KeyText, edHalf: Half, pqcHalf: Half, over: Envelope)
  {
    ed.Base64? && pqc.Base64? && edHalf == Half(ed.raw, over) && pqcHalf == Half(pqc.raw, over)
  }

  predicate InfraOnly(scopes: seq<Scope>)
  {
    forall s | s in scopes :: s.Infra?
  }

  predicate BindingVerifies(nodeKeyId: Id, b: SignedBinding)
  {
    && b.envelope.BindingEnvelope?
    && b.envelope.nodeKeyId == nodeKeyId && b.envelope.purpose == OwnerBindingPurpose
    && InfraOnly(b.envelope.scopes)
    && b.envelope.attestingKeyId != "" && b.envelope.attestingKeyId == b.attestingKeyId
    && HybridVerifies(b.ed, b.pqc, b.edHalf, b.pqcHalf, b.envelope)
  }

  /** The device that asked: its own node code, and its claim PIN while it has one. */
  datatype Joiner = Joiner(nodeCode: NodeCode, claimPin: string)

  datatype Mismatch =
    | OtherNode | OwnCodeUnreadable | NoOwnerCodeCarried | OwnerCodeUnreadable | OtherOwner | CodeKeyUnreadable
    | IdDoesNotNameItsKey | BindingBySomeoneElse | BindingKeyIsNotTheCodes | BindingPqcUnreadable
    | CommitmentDiffers | BindingDoesNotVerify | OccurrenceIsNotTheOwners | OtherOccurrenceKey
    | OccurrenceDoesNotVerify | NoClaimPin

  /** The new device's offline check; answers the owner's fedID. */
  function Preflight(fp: Id -> string, st: Joiner, a: Approval, expected: Id, minted: Id): Result<Id, Mismatch>
  {
    if a.nodeCode != st.nodeCode then Err(OtherNode)
    else if st.nodeCode.Unreadable? then Err(OwnCodeUnreadable)
    else if a.ownerCode.None? then Err(NoOwnerCodeCarried)
    else if a.ownerCode.value.Undecodable? then Err(OwnerCodeUnreadable)
    else
      var fc, b, occ := a.ownerCode.value.code, a.binding, a.occurrence;
      if fc.keyId != expected then Err(OtherOwner)
      else if fc.ed.NotBase64? then Err(CodeKeyUnreadable)
      else if !NamesItsKey(fp, fc.keyId, fc.ed.raw) then Err(IdDoesNotNameItsKey)
      else if b.attestingKeyId != fc.keyId then Err(BindingBySomeoneElse)
      else if b.ed != fc.ed then Err(BindingKeyIsNotTheCodes)
      else if b.pqc.NotBase64? then Err(BindingPqcUnreadable)
      else if fc.commitment != Some(Sha256(b.pqc.raw)) then Err(CommitmentDiffers)
      else if !BindingVerifies(st.nodeCode.keyId, b) then Err(BindingDoesNotVerify)
      else if occ.attestingKeyId != fc.keyId || occ.identityKeyId != fc.keyId then Err(OccurrenceIsNotTheOwners)
      else if occ.occurrenceKeyId != minted then Err(OtherOccurrenceKey)
      else if !HybridVerifies(fc.ed, b.pqc, occ.edHalf, occ.pqcHalf, occ.signed) then Err(OccurrenceDoesNotVerify)
      else if Blank(st.claimPin) then Err(NoClaimPin)
      else Ok(fc.keyId)
  }

  // ---- signing -------------------------------------------------------------

  /** The owner's pen: its registered id and the two keys it signs with. */
  datatype Pen = Pen(keyId: Id, ed: Id, pqc: Id)

  datatype Landing = Lands | HeldByRoster | RefusedByStore

  /**
   * The approving device as one approval meets it: what its store will answer is part of it,
   * since the store is not this program's.
   */
  datatype Approver = Approver(
    pen: Option<Pen>, directory: map<Id, KeyRecord>, ownRoute: Option<(Id, Id)>, selfRecord: Option<KeyRecord>,
    storesBinding: bool, admitsKey: bool, landing: Landing, encodesCode: bool, now: Instant)

  datatype SignError =
    | NoPen | KeyUnreadable | NotNamedUnder | NodeCodeUnreadable | NodeCodeIsNotTheSigners
    | BindingNotRecorded | KeyNotRegistered | RosterHolds | OccurrenceNotRecorded | NoOwnerCode

  datatype Row = BindingRow(binding: SignedBinding) | KeyRow(key: KeyRecord) | OccurrenceRow(occurrence: SignedOccurrence)

  /** How an approval ended, and the rows the device recorded before it did. */
  datatype Signing = Signing(outcome: Result<Approval, SignError>, recorded: seq<Row>)

  function Signed(pen: Pen, over: Envelope): (Half, Half)
  {
    (Half(pen.ed, over), Half(pen.pqc, over))
  }

  function BindingBy(pen: Pen, node: Id, cohort: string): SignedBinding
  {
    var envelope := BindingEnvelope(pen.keyId, node, OwnerBindingPurpose, INFRA_SCOPES, cohort);
    var halves := Signed(pen, envelope);
    SignedBinding(envelope, pen.keyId, Base64(pen.ed), Base64(pen.pqc), halves.0, halves.1)
  }

  function OccurrenceBy(pen: Pen, req: JoinRequest, at: Instant): SignedOccurrence
  {
    var key := req.occurrenceKey.keyId;
    var envelope := OccurrenceEnvelope(pen.keyId, pen.keyId, key, req.deviceClass, req.encryption, at);
    var halves := Signed(pen, envelope);
    SignedOccurrence(pen.keyId, pen.keyId, key, envelope, halves.0, halves.1)
  }

  /** Recording a binding registers the owner's key unless a user record already holds its id. */
  function OwnerRecord(dev: Approver, pen: Pen): KeyRecord
  {
    if pen.keyId in dev.directory && dev.directory[pen.keyId].isUser then dev.directory[pen.keyId]
    else KeyRecord(pen.keyId, Base64(pen.ed), Some(Base64(pen.pqc)), true)
  }

  function OwnerCode(dev: Approver, pen: Pen): Option<CodeText>
  {
    var rec := OwnerRecord(dev, pen);
    if rec.pqc.None? || rec.pqc.value.NotBase64? || !dev.encodesCode then None
    else Some(Encoded(FedCode(pen.keyId, rec.ed, Some(Sha256(rec.pqc.value.raw)), dev.ownRoute)))
  }

  /** Sign the binding and the occurrence with the owner's pen, record both, and build the approval. */
  function SignAndRecord(fp: Id -> string, dev: Approver, sender: Id, req: JoinRequest): Signing
  {
    if dev.pen.None? then Signing(Err(NoPen), [])
    else
      var pen := dev.pen.value;
      var named := RosterKeyNamedUnder(fp, pen.keyId, req.occurrenceKey);
      if named.Err? then Signing(Err(named.error), [])
      else if req.nodeCode.Unreadable? then Signing(Err(NodeCodeUnreadable), [])
      else if req.nodeCode.keyId != sender then Signing(Err(NodeCodeIsNotTheSigners), [])
      else
        var binding := BindingBy(pen, sender, "self");
        if !BindingVerifies(sender, binding) || !dev.storesBinding then Signing(Err(BindingNotRecorded), [])
        else
          var known := req.occurrenceKey.keyId in dev.directory;
          var rows := [BindingRow(binding)];
          if !known && !dev.admitsKey then Signing(Err(KeyNotRegistered), rows)
          else
            var keyed := rows + if known then [] else [KeyRow(req.occurrenceKey)];
            var occurrence := OccurrenceBy(pen, req, dev.now);
            match dev.landing
            case HeldByRoster => Signing(Err(RosterHolds), keyed)
            case RefusedByStore => Signing(Err(OccurrenceNotRecorded), keyed)
            case Lands =>
              var all := keyed + [OccurrenceRow(occurrence)];
              var code := OwnerCode(dev, pen);
              if code.None? then Signing(Err(NoOwnerCode), all)
              else Signing(Ok(Approval(req.nodeCode, "self", binding, dev.selfRecord, occurrence, code)), all)
  }

  // ---- what the two sides guarantee each other -----------------------------

  /** The owner's registered record, where there is one, carries the pen's own keys. */
  predicate PenMatchesDirectory(dev: Approver, pen: Pen)
  {
    pen.keyId in dev.directory && dev.directory[pen.keyId].isUser ==>
      dev.directory[pen.keyId].ed == Base64(pen.ed) && dev.directory[pen.keyId].pqc == Some(Base64(pen.pqc))
  }

  lemma PenMatchesTheCode(dev: Approver, pen: Pen)
    requires OwnerCode(dev, pen).Some?
    ensures PenMatchesDirectory(dev, pen) <==>
      && OwnerCode(dev, pen).value.code.ed == Base64(pen.ed)
      && OwnerCode(dev, pen).value.code.commitment == Some(Sha256(pen.pqc))
  {}

  /**
   * Whatever approval the owner's device returns for a request, the device that made the
   * request accepts it exactly when the person entered the pen's identity, the pen's keys are
   * the registered ones, that identity's id names its own key, and the claim PIN is there.
   */
  lemma ProducedIsAccepted(
    fp: Id -> string, dev: Approver, sender: Id, req: JoinRequest, st: Joiner, expected: Id, minted: Id)
    requires SignAndRecord(fp, dev, sender, req).outcome.Ok?
    requires st.nodeCode == req.nodeCode && minted == req.occurrenceKey.keyId
    ensures
      var pen := dev.pen.value;
      Preflight(fp, st, SignAndRecord(fp, dev, sender, req).outcome.value, expected, minted).Ok?
      <==> && expected == pen.keyId && PenMatchesDirectory(dev, pen)
           && NamesItsKey(fp, pen.keyId, pen.ed) && !Blank(st.claimPin)
  {
    PenMatchesTheCode(dev, dev.pen.value);
  }

  /**
   * The new device mints its key under the identity the person entered, and a request whose
   * key is named under another identity is never signed: so of the conditions above, the
   * entered identity takes care of itself.
   */
  lemma SignedOnlyForTheEnteredIdentity(
    fp: Id -> string, dev: Approver, sender: Id, req: JoinRequest, st: Joiner, expected: Id)
    requires RosterKeyNamedUnder(fp, expected, req.occurrenceKey).Ok?
    requires SignAndRecord(fp, dev, sender, req).outcome.Ok? && st.nodeCode == req.nodeCode
    ensures dev.pen.value.keyId == expected
    ensures
      var accepted := Preflight(fp, st, SignAndRecord(fp, dev, sender, req).outcome.value, expected, req.occurrenceKey.keyId);
      accepted == Ok(expected) <==>
        && PenMatchesDirectory(dev, dev.pen.value) && NamesItsKey(fp, expected, dev.pen.value.ed) && !Blank(st.claimPin)
  {
    NamedUnderOneIdentity(fp, expected, dev.pen.value.keyId, req.occurrenceKey);
    ProducedIsAccepted(fp, dev, sender, req, st, expected, req.occurrenceKey.keyId);
  }

  /**
   * An accepted approval names one owner, this node and the minted key throughout, and one
   * pair of keys, the Ed25519 half of which the owner's id names, signed both its parts.
   */
  lemma AcceptedNamesOneOwner(fp: Id -> string, st: Joiner, a: Approval, expected: Id, minted: Id)
    requires Preflight(fp, st, a, expected, minted).Ok?
    ensures Preflight(fp, st, a, expected, minted).value == expected
    ensures a.nodeCode == st.nodeCode && a.binding.envelope.BindingEnvelope?
    ensures st.nodeCode.Names? && a.binding.envelope.nodeKeyId == st.nodeCode.keyId
    ensures a.ownerCode.value.code.keyId == expected == a.binding.attestingKeyId == a.binding.envelope.attestingKeyId
    ensures a.occurrence.attestingKeyId == expected == a.occurrence.identityKeyId && a.occurrence.occurrenceKeyId == minted
    ensures InfraOnly(a.binding.envelope.scopes) && a.binding.envelope.purpose == OwnerBindingPurpose
    ensures exists ed, pqc ::
      && NamesItsKey(fp, expected, ed) && a.ownerCode.value.code.commitment == Some(Sha256(pqc))
      && a.binding.edHalf == Half(ed, a.binding.envelope) && a.binding.pqcHalf == Half(pqc, a.binding.envelope)
      && a.occurrence.edHalf == Half(ed, a.occurrence.signed) && a.occurrence.pqcHalf == Half(pqc, a.occurrence.signed)
  {
    var ed, pqc := a.ownerCode.value.code.ed.raw, a.binding.pqc.raw;
    assert a.occurrence.edHalf == Half(ed, a.occurrence.signed) && a.occurrence.pqcHalf == Half(pqc, a.occurrence.signed);
  }

  /** One approval is accepted by one device, for one identity and one minted key. */
  lemma ApprovalFitsOneDevice(
    fp: Id -> string, a: Approval, st1: Joiner, owner1: Id, minted1: Id, st2: Joiner, owner2: Id, minted2: Id)
    requires Preflight(fp, st1, a, owner1, minted1).Ok? && Preflight(fp, st2, a, owner2, minted2).Ok?
    ensures st1.nodeCode == st2.nodeCode && owner1 == owner2 && minted1 == minted2
  {
    AcceptedNamesOneOwner(fp, st1, a, owner1, minted1);
    AcceptedNamesOneOwner(fp, st2, a, owner2, minted2);
  }

  /**
   * What an approval leaves behind, however it ends: nothing for a key not named under the
   * owner or a node code that does not name the sender; the binding always before the
   * occurrence; and the occurrence whenever the approval succeeds.
   */
  lemma RecordedInOrder(fp: Id -> string, dev: Approver, sender: Id, req: JoinRequest)
    ensures
      var s := SignAndRecord(fp, dev, sender, req);
      && (s.recorded != [] ==>
            && dev.pen.Some? && RosterKeyNamedUnder(fp, dev.pen.value.keyId, req.occurrenceKey).Ok?
            && req.nodeCode.Names? && req.nodeCode.keyId == sender
            && s.recorded[0].BindingRow? && BindingVerifies(sender, s.recorded[0].binding))
      && (forall k | 0 <= k < |s.recorded| && s.recorded[k].OccurrenceRow? :: k == |s.recorded| - 1 > 0)
      && (s.outcome.Ok? ==>
            && s.recorded != [] && s.recorded[0] == BindingRow(s.outcome.value.binding)
            && s.recorded[|s.recorded| - 1] == OccurrenceRow(s.outcome.value.occurrence))
      && (s.outcome == Err(RosterHolds) ==> s.recorded != [] && forall row | row in s.recorded :: !row.OccurrenceRow?)
  {}

  /** The binding a pen signs for a node: its own, for the owner's purpose, over the infrastructure scopes alone. */
  predicate IsBindingOf(b: SignedBinding, pen: Pen, node: Id)
  {
    && b.envelope == BindingEnvelope(pen.keyId, node, OwnerBindingPurpose, [
         Infra("hold_community_membership"), Infra("hold_family_membership"), Infra("network_presence"), Infra("serve")], "self")
    && b.attestingKeyId == pen.keyId && b.ed == Base64(pen.ed) && b.pqc == Base64(pen.pqc)
    && b.edHalf == Half(pen.ed, b.envelope) && b.pqcHalf == Half(pen.pqc, b.envelope)
  }

  /** The occurrence a pen signs for a request: of the pen's identity, with the request's own key, class and encryption. */
  predicate IsOccurrenceOf(o: SignedOccurrence, pen: Pen, req: JoinRequest, at: Instant)
  {
    && o.attestingKeyId == pen.keyId == o.identityKeyId && o.occurrenceKeyId == req.occurrenceKey.keyId
    && o.signed == OccurrenceEnvelope(pen.keyId, pen.keyId, req.occurrenceKey.keyId, req.deviceClass, req.encryption, at)
    && o.edHalf == Half(pen.ed, o.signed) && o.pqcHalf == Half(pen.pqc, o.signed)
  }

  /**
   * Whatever an approval records is a first part of: the binding; the minted key, unless the
   * directory had it; the occurrence.  The minted key is registered before its occurrence, and
   * each row is about this request, this sender and this pen.
   */
  lemma RowsAreTheRequests(fp: Id -> string, dev: Approver, sender: Id, req: JoinRequest)
    requires SignAndRecord(fp, dev, sender, req).recorded != []
    ensures dev.pen.Some?
    ensures exists b, o ::
      && IsBindingOf(b, dev.pen.value, sender) && IsOccurrenceOf(o, dev.pen.value, req, dev.now)
      && SignAndRecord(fp, dev, sender, req).recorded <=
           [BindingRow(b)] + (if req.occurrenceKey.keyId in dev.directory then [] else [KeyRow(req.occurrenceKey)])
             + [OccurrenceRow(o)]
  {
    var b, o := BindingBy(dev.pen.value, sender, "self"), OccurrenceBy(dev.pen.value, req, dev.now);
    assert IsBindingOf(b, dev.pen.value, sender) && IsOccurrenceOf(o, dev.pen.value, req, dev.now);
  }

  /**
   * An approval comes back exactly if the device holds a pen, the request's key is named under
   * it, the node code names the sender, the store takes the binding and the key, the occurrence
   * lands and the owner's code can be written.  It then carries the two rows recorded, the
   * request's node code, and the pen's own code.
   */
  lemma ApprovedIff(fp: Id -> string, dev: Approver, sender: Id, req: JoinRequest)
    ensures
      var s := SignAndRecord(fp, dev, sender, req);
      && (s.outcome.Ok? <==>
            && dev.pen.Some? && dev.pen.value.keyId != ""
            && req.occurrenceKey.ed.Base64? && req.occurrenceKey.keyId == dev.pen.value.keyId + "-" + fp(req.occurrenceKey.ed.raw)
            && req.nodeCode.Names? && req.nodeCode.keyId == sender && dev.storesBinding
            && (req.occurrenceKey.keyId in dev.directory || dev.admitsKey) && dev.landing == Lands
            && OwnerCode(dev, dev.pen.value).Some?)
      && (s.outcome.Ok? ==>
            var a := s.outcome.value;
            && a.nodeCode == req.nodeCode && a.cohort == "self" && a.claimer == dev.selfRecord
            && IsBindingOf(a.binding, dev.pen.value, sender) && IsOccurrenceOf(a.occurrence, dev.pen.value, req, dev.now)
            && a.ownerCode.Some? && a.ownerCode.value.Encoded? && a.ownerCode.value.code.keyId == dev.pen.value.keyId
            && a.ownerCode.value.code.ownedNode == dev.ownRoute)
  {}

  /** Why no approval comes back, in the order in which it can fail, and what was recorded by then. */
  lemma NotApprovedWhy(fp: Id -> string, dev: Approver, sender: Id, req: JoinRequest)
    requires SignAndRecord(fp, dev, sender, req).outcome.Err?
    ensures
      var s := SignAndRecord(fp, dev, sender, req);
      var rows := 1 + if req.occurrenceKey.keyId in dev.directory then 0 else 1;
      match s.outcome.error
      case NoPen => dev.pen.None? && s.recorded == []
      case KeyUnreadable => req.occurrenceKey.ed.NotBase64? && s.recorded == []
      case NotNamedUnder => req.occurrenceKey.keyId != dev.pen.value.keyId + "-" + fp(req.occurrenceKey.ed.raw) && s.recorded == []
      case NodeCodeUnreadable => req.nodeCode.Unreadable? && s.recorded == []
      case NodeCodeIsNotTheSigners => req.nodeCode.keyId != sender && s.recorded == []
      case BindingNotRecorded => (!dev.storesBinding || dev.pen.value.keyId == "") && s.recorded == []
      case KeyNotRegistered => !dev.admitsKey && req.occurrenceKey.keyId !in dev.directory && |s.recorded| == 1
      case RosterHolds => dev.landing == HeldByRoster && |s.recorded| == rows
      case OccurrenceNotRecorded => dev.landing == RefusedByStore && |s.recorded| == rows
      case NoOwnerCode => dev.landing == Lands && OwnerCode(dev, dev.pen.value).None? && |s.recorded| == rows + 1
  {}
}
