// What the rows of this door say is what was asked of it: each one was stored by one request,
// one answer or one amendment, and carries what that step was given.

module DeferralAnswers {
  import opened Prelude
  import opened Deferrals

  // ---- what is accepted, and what is stored --------------------------------

  /** The identity an agent's rows are about: the first agent among this engine's principals, else its own key. */
  lemma {:induction false} IdentityIsTheFirstAgent(principals: seq<Principal>, occurrence: Id)
    ensures
      match FirstAgent(principals, occurrence)
      case None => forall p | p in principals :: p.isAgent ==> p.id == occurrence
      case Some(id) =>
        exists k :: 0 <= k < |principals| && principals[k] == Principal(id, true) && id != occurrence
          && forall i | 0 <= i < k :: principals[i].isAgent ==> principals[i].id == occurrence
  {
    if principals != [] && !(principals[0].id != occurrence && principals[0].isAgent) {
      var rest := principals[1..];
      IdentityIsTheFirstAgent(rest, occurrence);
      if FirstAgent(rest, occurrence).Some? {
        var k :| 0 <= k < |rest| && rest[k] == Principal(FirstAgent(rest, occurrence).value, true)
          && forall i | 0 <= i < k :: rest[i].isAgent ==> rest[i].id == occurrence;
        assert principals[k + 1] == rest[k] && forall i | 0 < i < k + 1 :: principals[i] == rest[i - 1];
      }
    }
  }

  /** A SHA-256 digest in lower-case hexadecimal. */
  predicate Digest(s: string)
  {
    |s| == 64 && forall k | 0 <= k < 64 :: s[k] in "0123456789abcdef"
  }

  lemma DigestIff(s: string)
    ensures Hex64(s) <==> Digest(s)
  {
    if Hex64(s) {
      forall k | 0 <= k < 64
        ensures s[k] in "0123456789abcdef"
      {
        var c := s[k];
        assert c in s;
        HexDigit(c);
      }
    }
    if Digest(s) {
      forall c | c in s
        ensures '0' <= c <= '9' || 'a' <= c <= 'f'
      {
        var k :| 0 <= k < |s| && s[k] == c;
        HexDigit(c);
      }
    }
  }

  lemma HexDigit(c: char)
    ensures c in "0123456789abcdef" <==> '0' <= c <= '9' || 'a' <= c <= 'f'
  {
    var digits := "0123456789abcdef";
    if '0' <= c <= '9' {
      assert digits[c as int - '0' as int] == c;
    } else if 'a' <= c <= 'f' {
      assert digits[10 + c as int - 'a' as int] == c;
    }
  }

  predicate IsRoom(room: string)
  {
    "chat:pair:v1:" <= room || "chat:room:v1:" <= room
  }

  /**
   * A deferral is stored exactly if its three ids are there, its reason is a digest and the
   * room it names, if any, is one.  It is then about this agent, signed by this engine, in the
   * room named, else in the pair room with the owner's self, else in none.
   */
  lemma RequestStoredIff(w: World, d: Directory, q: Question, at: Instant, newId: Id)
    ensures
      var named := q.roomId.Some? && Trim(q.roomId.value) != "";
      match RequestRow(w, d, q, at, newId)
      case Ok(row) =>
        && !Blank(q.deferralId) && !Blank(q.taskId) && !Blank(q.thoughtId) && Digest(q.reasonDigest)
        && (named ==> IsRoom(Trim(q.roomId.value)))
        && row == Row(newId, DeferralRequest, w.occurrence, Identity(w, d), at, None, None, [], row.room, Some(q.deferralId), None)
        && row.room == (if named then Some(Trim(q.roomId.value)) else if d.owner.None? then None
                        else Some(w.pairRoom(Identity(w, d), w.selfOf(d.owner.value, at))))
      case Err(e) =>
        && e == BadInput
        && (Blank(q.deferralId) || Blank(q.taskId) || Blank(q.thoughtId) || !Digest(q.reasonDigest)
            || (named && !IsRoom(Trim(q.roomId.value))))
  {
    DigestIff(q.reasonDigest);
  }

  /**
   * An answer is stored exactly if the deferral it names is, and the session holds the owner's
   * pen.  It says yes exactly if the owner did, is signed by that pen, and copies the agent,
   * the room and the deferral's own id.
   */
  lemma ResponseStoredIff(rows: seq<Row>, session: Session, requestId: Id, approved: bool, at: Instant, newId: Id)
    requires UniqueIds(rows)
    ensures
      var known := !Blank(requestId) && exists row :: row in rows && row.id == requestId && row.dimension == DeferralRequest;
      match ResponseRow(rows, session, requestId, approved, at, newId)
      case Ok(row) =>
        && known && session == OwnersPen(row.attesting)
        && row.dimension == (if approved then ResponseApproved else ResponseRejected)
        && forall request | request in rows && request.id == requestId ::
             row == Row(newId, row.dimension, row.attesting, request.attested, at, Some(requestId), None, [],
                        request.room, request.deferralId, None)
      case Err(BadInput) => Blank(requestId)
      case Err(UnknownDeferral) => !Blank(requestId) && !known
      case Err(NeedsSession) => known && session == NotSignedIn
      case Err(DelegatedSession) => known && session == Delegated
      case Err(ResolverHasNoKey) => known && session == NotTheOwner
      case Err(NoIdentity) => known && session == NoFedIdentity
      case Err(_) => false
  {
    forall request | request in rows && request.id == requestId
      ensures Lookup(rows, requestId) == Some(request)
    {
      LookupFinds(rows, request);
    }
  }

  lemma UsedWasAuthorized(w: World, d: Directory, rows: seq<Row>, digest: string, authorizedBy: Id, requestId: Id)
    requires CheckAmendment(w, d, rows, digest, authorizedBy, requestId) == Err(ResponseAlreadyUsed)
    ensures exists response: Row, request: Row ::
      response.id == authorizedBy && request.id == requestId && Authorizes(w, d, rows, response, request)
  {
    assert Authorizes(w, d, rows, Lookup(rows, authorizedBy).value, Lookup(rows, requestId).value);
  }

  /** Why a well-formed amendment is refused: only a used response is told apart from an unauthorized one. */
  lemma AmendmentRefusedWhy(w: World, d: Directory, rows: seq<Row>, digest: string, authorizedBy: Id, requestId: Id)
    requires UniqueIds(rows) && CheckAmendment(w, d, rows, digest, authorizedBy, requestId).Err?
    ensures
      var proper := Digest(digest) && !Blank(authorizedBy) && !Blank(requestId);
      var authorized := exists response: Row, request: Row ::
        response.id == authorizedBy && request.id == requestId && Authorizes(w, d, rows, response, request);
      CheckAmendment(w, d, rows, digest, authorizedBy, requestId).error ==
        if !proper then BadInput else if authorized then ResponseAlreadyUsed else Unauthorized
  {
    DigestIff(digest);
    CheckIsTheRule(w, d, rows, digest, authorizedBy, requestId);
    if response: Row, request: Row :|
      response.id == authorizedBy && request.id == requestId && Authorizes(w, d, rows, response, request)
    {
      LookupFinds(rows, response);
      LookupFinds(rows, request);
    }
    if CheckAmendment(w, d, rows, digest, authorizedBy, requestId) == Err(ResponseAlreadyUsed) {
      UsedWasAuthorized(w, d, rows, digest, authorizedBy, requestId);
    }
  }

  // ---- over every run ------------------------------------------------------

  /** Step `c` of the run, taken by this door, stored `row`. */
  ghost predicate StoredBy(w: World, d: Directory, run: seq<Step>, c: int, row: Row)
  {
    && 0 <= c < |run| && !run[c].Replicate? && Enabled(w, After(w, d, run[..c]), run[c])
    && Stored(w, After(w, d, run[..c]), run[c]) == Some(row)
  }

  lemma {:induction false} AuthoredWasStored(w: World, d: Directory, run: seq<Step>, row: Row) returns (c: int)
    requires Valid(w, d, run) && row in After(w, d, run).rows && row.id in After(w, d, run).authored
    ensures StoredBy(w, d, run, c, row)
  {
    var pre, n := run[..|run| - 1], |run| - 1;
    var s := After(w, d, pre);
    AlwaysInOrder(w, d, pre);
    StepStores(w, s, run[n]);
    if row in s.rows {
      c := AuthoredWasStored(w, d, pre, row);
      assert pre[..c] == run[..c];
    } else {
      c := n;
    }
  }

  /** Step `c` answered a deferral that stood in the store, and the row says what it answered, and by whose pen. */
  ghost predicate AnsweredBy(w: World, d: Directory, run: seq<Step>, c: int, row: Row)
  {
    && 0 <= c < |run| && run[c].Answer? && run[c].newId == row.id && run[c].at == row.assertedAt
    && run[c].session == OwnersPen(row.attesting) && row.references == Some(run[c].requestId)
    && row.dimension == (if run[c].approved then ResponseApproved else ResponseRejected)
    && exists request ::
         && request in After(w, d, run[..c]).rows && request.id == run[c].requestId && request.dimension == DeferralRequest
         && row.attested == request.attested && row.room == request.room && row.deferralId == request.deferralId
  }

  /**
   * Over every run, each response this door stored says what the owner said in the step that
   * stored it, approval or rejection, in a session that held the very pen that signs it; and it
   * answers a deferral that stood in the store at that moment.
   */
  lemma ResponsesSayWhatWasAnswered(w: World, d: Directory, run: seq<Step>, row: Row)
    requires Valid(w, d, run) && row in After(w, d, run).rows && row.id in After(w, d, run).authored && IsResponse(row)
    ensures exists c :: AnsweredBy(w, d, run, c, row)
  {
    var c := AuthoredWasStored(w, d, run, row);
    Deferrals.PrefixValid(w, d, run, c);
    AlwaysInOrder(w, d, run[..c]);
    StepIsItsKind(w, After(w, d, run[..c]), run[c], row);
    ResponseStoredIff(After(w, d, run[..c]).rows, run[c].session, run[c].requestId, run[c].approved, run[c].at, run[c].newId);
    assert AnsweredBy(w, d, run, c, row);
  }

  lemma StepIsItsKind(w: World, s: Desk, step: Step, row: Row)
    requires Enabled(w, s, step) && !step.Replicate? && Stored(w, s, step) == Some(row)
    ensures IsResponse(row) ==> step.Answer?
    ensures row.dimension.DeferralRequest? ==> step.Ask?
    ensures row.dimension.IdentityAmendment? ==> step.Write?
  {}

  /** Each deferral this door stored was asked by an agent then behind this engine, and says what it asked. */
  lemma RequestsSayWhatWasAsked(w: World, d: Directory, run: seq<Step>, row: Row)
    requires Valid(w, d, run) && row in After(w, d, run).rows && row.id in After(w, d, run).authored
    requires row.dimension.DeferralRequest?
    ensures exists c ::
      && 0 <= c < |run| && run[c].Ask? && run[c].newId == row.id && run[c].at == row.assertedAt
      && row.attesting == w.occurrence && row.attested == Identity(w, After(w, d, run[..c]).d)
      && row.deferralId == Some(run[c].q.deferralId)
  {
    var c := AuthoredWasStored(w, d, run, row);
    StepIsItsKind(w, After(w, d, run[..c]), run[c], row);
    RequestStoredIff(w, After(w, d, run[..c]).d, run[c].q, run[c].at, run[c].newId);
  }

  /** Each amendment this door stored is signed by this engine, cites one response and dates from its writing. */
  lemma AmendmentsAreDated(w: World, d: Directory, run: seq<Step>, row: Row)
    requires Valid(w, d, run) && row in After(w, d, run).rows && row.id in After(w, d, run).authored
    requires row.dimension.IdentityAmendment?
    ensures row.authorizedBy.Some? && row.digest.Some? && exists c ::
      && 0 <= c < |run| && run[c].Write? && run[c].t in After(w, d, run[..c]).drafts
      && After(w, d, run[..c]).drafts[run[c].t] == DraftOf(row)
      && row == Row(run[c].newId, IdentityAmendment, w.occurrence, row.attested, run[c].at, None, row.authorizedBy,
                    [row.authorizedBy.value], row.room, None, row.digest)
  {
    var c := AuthoredWasStored(w, d, run, row);
    StepIsItsKind(w, After(w, d, run[..c]), run[c], row);
    assert After(w, d, run[..c]).drafts[run[c].t] == DraftOf(row);
  }

  /**
   * So where the response an amendment of this door's cites is this door's own as well, the
   * owner said yes: in a session that held the pen that signs it, to this agent's deferral.
   */
  lemma EveryAmendmentWasApproved(w: World, d: Directory, run: seq<Step>, row: Row, response: Row)
    requires Valid(w, d, run) && row in After(w, d, run).rows && response in After(w, d, run).rows
    requires row.dimension.IdentityAmendment? && row.id in After(w, d, run).authored
    requires row.authorizedBy == Some(response.id) && response.id in After(w, d, run).authored
    ensures exists c :: AnsweredBy(w, d, run, c, response) && run[c].approved
    ensures row.attesting == w.occurrence && row.attested == response.attested && row.room == response.room
  {
    var rows := After(w, d, run).rows;
    var k :| 0 <= k < |rows| && rows[k] == row;
    AmendmentCitesApproved(w, d, run, k, response);
    ResponsesSayWhatWasAnswered(w, d, run, response);
    var c := AuthoredWasStored(w, d, run, row);
    StepIsItsKind(w, After(w, d, run[..c]), run[c], row);
  }

  lemma AmendmentCitesApproved(w: World, d: Directory, run: seq<Step>, k: nat, response: Row)
    requires Valid(w, d, run) && k < |After(w, d, run).rows| && response in After(w, d, run).rows
    requires After(w, d, run).rows[k].dimension.IdentityAmendment? && After(w, d, run).rows[k].id in After(w, d, run).authored
    requires After(w, d, run).rows[k].authorizedBy == Some(response.id)
    ensures response.dimension == ResponseApproved
    ensures After(w, d, run).rows[k].attested == response.attested && After(w, d, run).rows[k].room == response.room
  {
    var s, row := After(w, d, run), After(w, d, run).rows[k];
    AlwaysInOrder(w, d, run);
    var c := AmendmentWasAuthorized(w, d, run, k);
    RowsAppend(w, d, run, c);
    var at := After(w, d, run[..c]);
    var cited: Row, request: Row :|
      && cited.id == row.authorizedBy.value && request.id == run[c].requestId && cited.room == row.room
      && Authorizes(w, at.d, at.rows, cited, request);
    var i := MemberOfPrefix(at.rows, s.rows, cited);
    var j :| 0 <= j < |s.rows| && s.rows[j] == response;
    assert i < j || j < i || i == j;
  }
}
