// An agent's deferral, the Wise Authority's answer and the amendment it authorizes, as rows of
// an append-only store that other nodes' rows also reach.  An amendment is checked against the
// store and written later; anything may be stored in between.

module Deferrals {
  import opened Prelude

  datatype Dimension = DeferralRequest | ResponseApproved | ResponseRejected | IdentityAmendment | OtherDimension(name: string)

  /** A row as stored: who signed it, about whom, when, and the envelope members this code reads. */
  datatype Row = Row(
    id: Id, dimension: Dimension, attesting: Id, attested: Id, assertedAt: Instant,
    references: Option<Id>, authorizedBy: Option<Id>, evidence: seq<Id>,
    room: Option<Id>, deferralId: Option<string>, digest: Option<string>)

  /** What an agent hands in when it defers. */
  datatype Question = Question(
    deferralId: string, taskId: string, thoughtId: string, reasonDigest: string, roomId: Option<string>)

  datatype Principal = Principal(id: Id, isAgent: bool)

  /** What the directory says now: the node's owner, and the identities behind this engine's key. */
  datatype Directory = Directory(owner: Option<Id>, principals: seq<Principal>)

  /** Which self a key was a key of at an instant, the pair room of two selves, and this engine's key. */
  datatype World = World(selfOf: (Id, Instant) -> Id, pairRoom: (Id, Id) -> Id, occurrence: Id)

  datatype Session = NotSignedIn | Delegated | NotTheOwner | NoFedIdentity | OwnersPen(keyId: Id)

  datatype Refusal =
    | BadInput | UnknownDeferral | NeedsSession | DelegatedSession | ResolverHasNoKey | NoIdentity
    | ResponseAlreadyUsed | Unauthorized

  const PAIR_PREFIX: string := "chat:pair:v1:"
  const ROOM_PREFIX: string := "chat:room:v1:"

  // ---- inputs and lookups --------------------------------------------------

  predicate Hex64(s: string)
  {
    |s| == 64 && forall c | c in s :: '0' <= c <= '9' || 'a' <= c <= 'f'
  }

  predicate RoomOk(room: string)
  {
    PAIR_PREFIX <= room || ROOM_PREFIX <= room
  }

  function Lookup(rows: seq<Row>, id: Id): (r: Option<Row>)
    ensures r.Some? ==> r.value in rows && r.value.id == id
    ensures r.None? ==> forall row | row in rows :: row.id != id
  {
    if rows == [] then None
    else if rows[0].id == id then Some(rows[0])
    else Lookup(rows[1..], id)
  }

  function FirstAgent(principals: seq<Principal>, occurrence: Id): Option<Id>
  {
    if principals == [] then None
    else if principals[0].id != occurrence && principals[0].isAgent then Some(principals[0].id)
    else FirstAgent(principals[1..], occurrence)
  }

  /** The agent behind this engine's key: a principal registered as an agent, else the key itself. */
  function Identity(w: World, d: Directory): Id
  {
    match FirstAgent(d.principals, w.occurrence)
    case Some(p) => p
    case None => w.occurrence
  }

  function RequestRoom(w: World, d: Directory, roomId: Option<string>, at: Instant): Result<Option<Id>, Refusal>
  {
    if roomId.Some? && Trim(roomId.value) != "" then
      if RoomOk(Trim(roomId.value)) then Ok(Some(Trim(roomId.value))) else Err(BadInput)
    else match d.owner
      case None => Ok(None)
      case Some(owner) => Ok(Some(w.pairRoom(Identity(w, d), w.selfOf(owner, at))))
  }

  // ---- the three rows ------------------------------------------------------

  function RequestRow(w: World, d: Directory, q: Question, at: Instant, newId: Id): Result<Row, Refusal>
  {
    if Blank(q.deferralId) || Blank(q.taskId) || Blank(q.thoughtId) || !Hex64(q.reasonDigest) then Err(BadInput)
    else match RequestRoom(w, d, q.roomId, at)
      case Err(e) => Err(e)
      case Ok(room) =>
        Ok(Row(newId, DeferralRequest, w.occurrence, Identity(w, d), at, None, None, [], room, Some(q.deferralId), None))
  }

  function AdmittedRequest(rows: seq<Row>, id: Id): Result<Row, Refusal>
  {
    match Lookup(rows, id)
    case Some(row) => if row.dimension.DeferralRequest? then Ok(row) else Err(UnknownDeferral)
    case None => Err(UnknownDeferral)
  }

  function ResponseRow(rows: seq<Row>, session: Session, requestId: Id, approved: bool, at: Instant, newId: Id): Result<Row, Refusal>
  {
    if Blank(requestId) then Err(BadInput)
    else match AdmittedRequest(rows, requestId)
      case Err(e) => Err(e)
      case Ok(request) =>
        match session
        case NotSignedIn => Err(NeedsSession)
        case Delegated => Err(DelegatedSession)
        case NotTheOwner => Err(ResolverHasNoKey)
        case NoFedIdentity => Err(NoIdentity)
        case OwnersPen(key) =>
          Ok(Row(newId, if approved then ResponseApproved else ResponseRejected, key, request.attested, at,
                 Some(requestId), None, [], request.room, request.deferralId, None))
  }

  /** An amendment that passed its check, not written yet. */
  datatype Draft = Draft(digest: string, authorizedBy: Id, identity: Id, room: Option<Id>)

  predicate Cites(row: Row, id: Id)
  {
    row.dimension.IdentityAmendment? && id in row.evidence
  }

  function CheckAmendment(
    w: World, d: Directory, rows: seq<Row>, digest: string, authorizedBy: Id, requestId: Id): Result<Draft, Refusal>
  {
    if !Hex64(digest) || Blank(authorizedBy) || Blank(requestId) then Err(BadInput)
    else match Lookup(rows, authorizedBy)
      case None => Err(Unauthorized)
      case Some(response) =>
        var identity := Identity(w, d);
        if !response.dimension.ResponseApproved? then Err(Unauthorized)
        else if response.attested != identity then Err(Unauthorized)
        else if response.references != Some(requestId) then Err(Unauthorized)
        else match Lookup(rows, requestId)
          case None => Err(Unauthorized)
          case Some(request) =>
            if !request.dimension.DeferralRequest? || request.attested != identity then Err(Unauthorized)
            else if d.owner.None? then Err(Unauthorized)
            else if w.selfOf(response.attesting, response.assertedAt) != w.selfOf(d.owner.value, response.assertedAt)
            then Err(Unauthorized)
            else if exists row :: row in rows && Cites(row, authorizedBy) then Err(ResponseAlreadyUsed)
            else Ok(Draft(digest, authorizedBy, identity, response.room))
  }

  function AmendmentRow(w: World, draft: Draft, at: Instant, newId: Id): Row
  {
    Row(newId, IdentityAmendment, w.occurrence, draft.identity, at, None, Some(draft.authorizedBy), [draft.authorizedBy],
        draft.room, None, Some(draft.digest))
  }

  /** The rule an amendment must meet, over the store as it is. */
  ghost predicate Authorizes(w: World, d: Directory, rows: seq<Row>, response: Row, request: Row)
  {
    && response in rows && request in rows
    && response.dimension.ResponseApproved? && request.dimension.DeferralRequest?
    && response.attested == Identity(w, d) == request.attested
    && response.references == Some(request.id)
    && d.owner.Some?
    && w.selfOf(response.attesting, response.assertedAt) == w.selfOf(d.owner.value, response.assertedAt)
  }

  ghost predicate UniqueIds(rows: seq<Row>)
  {
    forall i, j | 0 <= i < j < |rows| :: rows[i].id != rows[j].id
  }

  lemma {:induction false} LookupFinds(rows: seq<Row>, row: Row)
    requires UniqueIds(rows) && row in rows
    ensures Lookup(rows, row.id) == Some(row)
  {
    if rows[0] != row {
      LookupFinds(rows[1..], row);
      var k :| 0 <= k < |rows| && rows[k] == row;
      assert rows[0].id != rows[k].id;
    }
  }

  /** The check passes exactly for well-formed input, an authorizing pair of rows, and a response not used yet. */
  lemma CheckIsTheRule(
    w: World, d: Directory, rows: seq<Row>, digest: string, authorizedBy: Id, requestId: Id)
    requires UniqueIds(rows)
    ensures CheckAmendment(w, d, rows, digest, authorizedBy, requestId).Ok? <==>
      && Hex64(digest) && !Blank(authorizedBy) && !Blank(requestId)
      && (exists response: Row, request: Row ::
            response.id == authorizedBy && request.id == requestId && Authorizes(w, d, rows, response, request))
      && !(exists row :: row in rows && Cites(row, authorizedBy))
  {
    if response: Row, request: Row :|
      response.id == authorizedBy && request.id == requestId && Authorizes(w, d, rows, response, request)
    {
      LookupFinds(rows, response);
      LookupFinds(rows, request);
    }
    if CheckAmendment(w, d, rows, digest, authorizedBy, requestId).Ok? {
      assert Authorizes(w, d, rows, Lookup(rows, authorizedBy).value, Lookup(rows, requestId).value);
    }
  }

  // ---- the door ------------------------------------------------------------

  class Door {
    const w: World
    var d: Directory
    var rows: seq<Row>

    constructor (w: World, d: Directory)
      ensures this.w == w && this.d == d && rows == []
    {
      this.w, this.d, rows := w, d, [];
    }

    method EmitRequest(q: Question, at: Instant, newId: Id) returns (r: Result<Id, Refusal>)
      modifies this`rows
      ensures match RequestRow(w, d, q, at, newId)
        case Ok(row) => r == Ok(newId) && rows == old(rows) + [row]
        case Err(e) => r == Err(e) && rows == old(rows)
    {
      if Blank(q.deferralId) || Blank(q.taskId) || Blank(q.thoughtId) || !Hex64(q.reasonDigest) {
        return Err(BadInput);
      }
      var identity := Identity(w, d);
      var body := Row(newId, DeferralRequest, w.occurrence, identity, at, None, None, [], None, Some(q.deferralId), None);
      if q.roomId.Some? && Trim(q.roomId.value) != "" {
        var room := Trim(q.roomId.value);
        if !RoomOk(room) {
          return Err(BadInput);
        }
        body := body.(room := Some(room));
      } else if d.owner.Some? {
        body := body.(room := Some(w.pairRoom(identity, w.selfOf(d.owner.value, at))));
      }
      rows := rows + [body];
      return Ok(newId);
    }

    method EmitResponse(session: Session, requestId: Id, approved: bool, at: Instant, newId: Id)
      returns (r: Result<Id, Refusal>)
      modifies this`rows
      ensures match ResponseRow(old(rows), session, requestId, approved, at, newId)
        case Ok(row) => r == Ok(newId) && rows == old(rows) + [row]
        case Err(e) => r == Err(e) && rows == old(rows)
    {
      if Blank(requestId) {
        return Err(BadInput);
      }
      var admitted := AdmittedRequest(rows, requestId);
      if admitted.Err? {
        return Err(admitted.error);
      }
      var request := admitted.value;
      match session
      case NotSignedIn => r := Err(NeedsSession);
      case Delegated => r := Err(DelegatedSession);
      case NotTheOwner => r := Err(ResolverHasNoKey);
      case NoFedIdentity => r := Err(NoIdentity);
      case OwnersPen(key) =>
        var dimension := if approved then ResponseApproved else ResponseRejected;
        var body := Row(newId, dimension, key, request.attested, at, Some(requestId), None, [], None, None, None);
        if request.deferralId.Some? {
          body := body.(deferralId := request.deferralId);
        }
        if request.room.Some? {
          body := body.(room := request.room);
        }
        rows := rows + [body];
        r := Ok(newId);
    }

    /** Check and write with nothing stored in between. */
    method EmitAmendment(digest: string, authorizedBy: Id, requestId: Id, at: Instant, newId: Id)
      returns (r: Result<Id, Refusal>)
      modifies this`rows
      ensures match CheckAmendment(w, d, old(rows), digest, authorizedBy, requestId)
        case Ok(draft) => r == Ok(newId) && rows == old(rows) + [AmendmentRow(w, draft, at, newId)]
        case Err(e) => r == Err(e) && rows == old(rows)
    {
      var checked := CheckAmendment(w, d, rows, digest, authorizedBy, requestId);
      if checked.Err? {
        return Err(checked.error);
      }
      var draft := checked.value;
      var body := Row(newId, IdentityAmendment, w.occurrence, draft.identity, at, None, Some(authorizedBy), [authorizedBy],
                      None, None, Some(digest));
      if draft.room.Some? {
        body := body.(room := draft.room);
      }
      rows := rows + [body];
      return Ok(newId);
    }
  }

  // ---- every interleaving --------------------------------------------------

  /** The store, the directory, the amendments checked but not written, and the ids of the rows this door wrote. */
  datatype Desk = Desk(rows: seq<Row>, d: Directory, drafts: map<nat, Draft>, authored: set<Id>)

  datatype Step =
    | Ask(q: Question, at: Instant, newId: Id)
    | Answer(session: Session, requestId: Id, approved: bool, at: Instant, newId: Id)
    | Check(t: nat, digest: string, authorizedBy: Id, requestId: Id)
    | Write(t: nat, at: Instant, newId: Id)
    | Replicate(row: Row)
    | Update(d: Directory)

  function Opening(d: Directory): Desk
  {
    Desk([], d, map[], {})
  }

  predicate FreshId(rows: seq<Row>, id: Id)
  {
    forall row | row in rows :: row.id != id
  }

  predicate Enabled(w: World, s: Desk, step: Step)
  {
    match step
    case Ask(q, at, newId) => FreshId(s.rows, newId) && RequestRow(w, s.d, q, at, newId).Ok?
    case Answer(session, requestId, approved, at, newId) =>
      FreshId(s.rows, newId) && ResponseRow(s.rows, session, requestId, approved, at, newId).Ok?
    case Check(t, digest, authorizedBy, requestId) =>
      t !in s.drafts && CheckAmendment(w, s.d, s.rows, digest, authorizedBy, requestId).Ok?
    case Write(t, _, newId) => t in s.drafts && FreshId(s.rows, newId)
    case Replicate(row) => FreshId(s.rows, row.id)
    case Update(_) => true
  }

  function Authored(s: Desk, row: Row): Desk
  {
    s.(rows := s.rows + [row], authored := s.authored + {row.id})
  }

  function Next(w: World, s: Desk, step: Step): Desk
    requires Enabled(w, s, step)
  {
    match step
    case Ask(q, at, newId) => Authored(s, RequestRow(w, s.d, q, at, newId).value)
    case Answer(session, requestId, approved, at, newId) =>
      Authored(s, ResponseRow(s.rows, session, requestId, approved, at, newId).value)
    case Check(t, digest, authorizedBy, requestId) =>
      s.(drafts := s.drafts[t := CheckAmendment(w, s.d, s.rows, digest, authorizedBy, requestId).value])
    case Write(t, at, newId) =>
      Authored(s, AmendmentRow(w, s.drafts[t], at, newId)).(drafts := s.drafts - {t})
    case Replicate(row) => s.(rows := s.rows + [row])
    case Update(d) => s.(d := d)
  }

  function After(w: World, d: Directory, run: seq<Step>): Desk
  {
    if run == [] then Opening(d)
    else
      var s, step := After(w, d, run[..|run| - 1]), run[|run| - 1];
      if Enabled(w, s, step) then Next(w, s, step) else s
  }

  predicate Valid(w: World, d: Directory, run: seq<Step>)
  {
    run == []
    || (Valid(w, d, run[..|run| - 1]) && Enabled(w, After(w, d, run[..|run| - 1]), run[|run| - 1]))
  }

  // ---- what stands in the store --------------------------------------------

  /** A response of this door's own copies the request it answers, which stands before it. */
  ghost predicate Copies(rows: seq<Row>, k: int, j: int)
  {
    && 0 <= j < k < |rows| && rows[k].references == Some(rows[j].id) && rows[j].dimension.DeferralRequest?
    && rows[k].attested == rows[j].attested && rows[k].room == rows[j].room && rows[k].deferralId == rows[j].deferralId
  }

  predicate IsResponse(row: Row)
  {
    row.dimension.ResponseApproved? || row.dimension.ResponseRejected?
  }

  ghost predicate Answers(s: Desk, k: int)
    requires 0 <= k < |s.rows|
  {
    s.rows[k].id in s.authored && IsResponse(s.rows[k]) ==> exists j :: Copies(s.rows, k, j)
  }

  ghost predicate InOrder(s: Desk)
  {
    && UniqueIds(s.rows)
    && (forall id | id in s.authored :: !FreshId(s.rows, id))
    && (forall k | 0 <= k < |s.rows| :: Answers(s, k))
  }

  /** The row a step stores, if it stores one. */
  function Stored(w: World, s: Desk, step: Step): Option<Row>
    requires Enabled(w, s, step)
  {
    match step
    case Ask(q, at, newId) => Some(RequestRow(w, s.d, q, at, newId).value)
    case Answer(session, requestId, approved, at, newId) =>
      Some(ResponseRow(s.rows, session, requestId, approved, at, newId).value)
    case Write(t, at, newId) => Some(AmendmentRow(w, s.drafts[t], at, newId))
    case Replicate(row) => Some(row)
    case _ => None
  }

  lemma StepStores(w: World, s: Desk, step: Step)
    requires Enabled(w, s, step)
    ensures
      var z := Next(w, s, step);
      match Stored(w, s, step)
      case Some(row) =>
        && FreshId(s.rows, row.id) && z.rows == s.rows + [row] && z.d == s.d
        && z.authored == (if step.Replicate? then s.authored else s.authored + {row.id})
      case None => z.rows == s.rows && z.authored == s.authored
  {}

  lemma StillAnswers(s: Desk, z: Desk, row: Row, k: int)
    requires 0 <= k < |s.rows| && Answers(s, k) && z.rows == s.rows + [row]
    requires FreshId(s.rows, row.id) && z.authored <= s.authored + {row.id}
    ensures Answers(z, k)
  {
    assert s.rows[k] in s.rows && z.rows[k] == s.rows[k];
    if z.rows[k].id in z.authored && IsResponse(z.rows[k]) {
      var j :| Copies(s.rows, k, j);
      assert Copies(z.rows, k, j);
    }
  }

  lemma NewAnswers(w: World, s: Desk, step: Step)
    requires Enabled(w, s, step) && InOrder(s) && Stored(w, s, step).Some?
    ensures |Next(w, s, step).rows| == |s.rows| + 1 && Answers(Next(w, s, step), |s.rows|)
  {
    StepStores(w, s, step);
    if step.Answer? {
      var j :| 0 <= j < |s.rows| && s.rows[j] == Lookup(s.rows, step.requestId).value;
      assert Copies(Next(w, s, step).rows, |s.rows|, j);
    }
  }

  lemma AuthoredStays(s: Desk, z: Desk, row: Row, id: Id)
    requires z.rows == s.rows + [row] && (id == row.id || !FreshId(s.rows, id))
    ensures !FreshId(z.rows, id)
  {
    assert z.rows[|s.rows|] == row && row in z.rows;
    if id != row.id {
      var r :| r in s.rows && r.id == id;
      assert r in z.rows;
    }
  }

  lemma OrderKept(w: World, s: Desk, step: Step)
    requires Enabled(w, s, step) && InOrder(s)
    ensures InOrder(Next(w, s, step))
  {
    StepStores(w, s, step);
    var z := Next(w, s, step);
    if Stored(w, s, step).Some? {
      var row := Stored(w, s, step).value;
      NewAnswers(w, s, step);
      forall k | 0 <= k < |s.rows|
        ensures Answers(z, k) && z.rows[k].id != row.id
      {
        StillAnswers(s, z, row, k);
        assert s.rows[k] in s.rows;
      }
      forall id | id in z.authored
        ensures !FreshId(z.rows, id)
      {
        AuthoredStays(s, z, row, id);
      }
    } else {
      assert forall k | 0 <= k < |z.rows| :: Answers(s, k) ==> Answers(z, k);
    }
  }

  lemma {:induction false} AlwaysInOrder(w: World, d: Directory, run: seq<Step>)
    requires Valid(w, d, run)
    ensures InOrder(After(w, d, run))
  {
    if run != [] {
      AlwaysInOrder(w, d, run[..|run| - 1]);
      OrderKept(w, After(w, d, run[..|run| - 1]), run[|run| - 1]);
    }
  }

  // ---- provenance ----------------------------------------------------------

  /** The draft an amendment was written from. */
  function DraftOf(row: Row): Draft
    requires row.digest.Some? && row.authorizedBy.Some?
  {
    Draft(row.digest.value, row.authorizedBy.value, row.attested, row.room)
  }

  /**
   * Step `c` checked this draft: at that very moment the rule held, of that owner, over that
   * store, and no amendment cited the response yet.
   */
  ghost predicate AuthorizedAt(w: World, d: Directory, run: seq<Step>, c: int, draft: Draft)
  {
    && 0 <= c < |run| && run[c].Check? && run[c].authorizedBy == draft.authorizedBy && run[c].digest == draft.digest
    && var s := After(w, d, run[..c]);
       && draft.identity == Identity(w, s.d)
       && (forall row | row in s.rows :: !Cites(row, draft.authorizedBy))
       && exists response: Row, request: Row ::
            && response.id == draft.authorizedBy && request.id == run[c].requestId && response.room == draft.room
            && Authorizes(w, s.d, s.rows, response, request)
  }

  lemma CheckAuthorizes(w: World, s: Desk, step: Step)
    requires Enabled(w, s, step) && step.Check?
    ensures
      var draft := Next(w, s, step).drafts[step.t];
      && draft.authorizedBy == step.authorizedBy && draft.digest == step.digest && draft.identity == Identity(w, s.d)
      && (forall row | row in s.rows :: !Cites(row, draft.authorizedBy))
      && exists response: Row, request: Row ::
           && response.id == step.authorizedBy && request.id == step.requestId && response.room == draft.room
           && Authorizes(w, s.d, s.rows, response, request)
  {
    assert Authorizes(w, s.d, s.rows, Lookup(s.rows, step.authorizedBy).value, Lookup(s.rows, step.requestId).value);
  }

  lemma AuthorizedBefore(w: World, d: Directory, run: seq<Step>, c: int, draft: Draft)
    requires run != [] && AuthorizedAt(w, d, run[..|run| - 1], c, draft)
    ensures AuthorizedAt(w, d, run, c, draft)
    ensures run[..|run| - 1][..c] == run[..c]
  {
    assert run[..|run| - 1][..c] == run[..c];
  }

  lemma {:induction false} DraftWasAuthorized(w: World, d: Directory, run: seq<Step>, t: nat) returns (c: int)
    requires Valid(w, d, run) && t in After(w, d, run).drafts
    ensures
      var draft := After(w, d, run).drafts[t];
      AuthorizedAt(w, d, run, c, draft)
      && |After(w, d, run[..c]).rows| <= |After(w, d, run).rows|
  {
    var pre, n := run[..|run| - 1], |run| - 1;
    var s, draft := After(w, d, pre), After(w, d, run).drafts[t];
    StepStores(w, s, run[n]);
    if run[n].Check? && run[n].t == t {
      CheckAuthorizes(w, s, run[n]);
      c := n;
    } else {
      c := DraftWasAuthorized(w, d, pre, t);
      AuthorizedBefore(w, d, run, c, draft);
    }
  }

  /** A row of this door's own was stored by one of its steps, and an amendment by a writing of a draft. */
  lemma AuthoredAmendmentMoves(w: World, s: Desk, step: Step, k: int)
    requires Enabled(w, s, step) && InOrder(s) && 0 <= k < |Next(w, s, step).rows|
    requires Next(w, s, step).rows[k].id in Next(w, s, step).authored && Next(w, s, step).rows[k].dimension.IdentityAmendment?
    ensures
      if k < |s.rows| then s.rows[k] == Next(w, s, step).rows[k] && s.rows[k].id in s.authored
      else step.Write? && k == |s.rows| && Next(w, s, step).rows[k] == AmendmentRow(w, s.drafts[step.t], step.at, step.newId)
  {
    StepStores(w, s, step);
    if k < |s.rows| {
      assert s.rows[k] in s.rows;
    }
  }

  lemma {:induction false} AmendmentWasAuthorized(w: World, d: Directory, run: seq<Step>, k: int) returns (c: int)
    requires Valid(w, d, run) && 0 <= k < |After(w, d, run).rows|
    requires After(w, d, run).rows[k].dimension.IdentityAmendment? && After(w, d, run).rows[k].id in After(w, d, run).authored
    ensures
      var row := After(w, d, run).rows[k];
      && row.authorizedBy.Some? && row.evidence == [row.authorizedBy.value] && row.digest.Some?
      && AuthorizedAt(w, d, run, c, DraftOf(row))
      && |After(w, d, run[..c]).rows| <= k
  {
    var pre, n := run[..|run| - 1], |run| - 1;
    var s, row := After(w, d, pre), After(w, d, run).rows[k];
    AlwaysInOrder(w, d, pre);
    AuthoredAmendmentMoves(w, s, run[n], k);
    if k < |s.rows| {
      c := AmendmentWasAuthorized(w, d, pre, k);
    } else {
      c := DraftWasAuthorized(w, d, pre, run[n].t);
    }
    AuthorizedBefore(w, d, run, c, DraftOf(row));
  }

  /**
   * Over every run, whatever is stored or changes between an amendment's check and its
   * writing: for every amendment this door wrote there was a moment, a check, at which a
   * stored approved response about the agent's identity of that moment answered a stored
   * request by it, was signed by a key whose self at the signing was the self of the owner of
   * that moment, and was cited by no amendment.  The amendment cites that response, is about
   * that identity, carries the digest checked and the response's room, and stands after both
   * rows.
   */
  lemma EveryAmendmentHasProvenance(w: World, d: Directory, run: seq<Step>, k: nat)
    requires Valid(w, d, run) && k < |After(w, d, run).rows|
    requires After(w, d, run).rows[k].dimension.IdentityAmendment? && After(w, d, run).rows[k].id in After(w, d, run).authored
    ensures
      var row := After(w, d, run).rows[k];
      && row.authorizedBy.Some? && row.evidence == [row.authorizedBy.value] && row.digest.Some?
      && exists c ::
           && AuthorizedAt(w, d, run, c, DraftOf(row))
           && After(w, d, run[..c]).rows <= After(w, d, run).rows[..k]
  {
    var c := AmendmentWasAuthorized(w, d, run, k);
    RowsAppend(w, d, run, c);
    var rows := After(w, d, run).rows;
    assert After(w, d, run[..c]).rows == rows[..k][..|After(w, d, run[..c]).rows|];
  }

  lemma MemberOfPrefix(a: seq<Row>, b: seq<Row>, row: Row) returns (i: int)
    requires a <= b && row in a
    ensures 0 <= i < |a| && b[i] == row
  {
    i :| 0 <= i < |a| && a[i] == row;
  }

  /** Where the response is this door's own as well, request, response and amendment share one room. */
  lemma OneRoomAlongTheChain(w: World, d: Directory, run: seq<Step>, k: nat)
    requires Valid(w, d, run) && k < |After(w, d, run).rows|
    requires After(w, d, run).rows[k].dimension.IdentityAmendment? && After(w, d, run).rows[k].id in After(w, d, run).authored
    requires After(w, d, run).rows[k].authorizedBy.Some? ==> After(w, d, run).rows[k].authorizedBy.value in After(w, d, run).authored
    ensures exists i, j ::
      && 0 <= j < i < k
      && After(w, d, run).rows[k].authorizedBy == Some(After(w, d, run).rows[i].id)
      && After(w, d, run).rows[i].references == Some(After(w, d, run).rows[j].id)
      && After(w, d, run).rows[j].dimension.DeferralRequest?
      && After(w, d, run).rows[k].room == After(w, d, run).rows[i].room == After(w, d, run).rows[j].room
  {
    AlwaysInOrder(w, d, run);
    var s, row := After(w, d, run), After(w, d, run).rows[k];
    var c := AmendmentWasAuthorized(w, d, run, k);
    RowsAppend(w, d, run, c);
    var at := After(w, d, run[..c]);
    var response: Row, request: Row :|
      && response.id == row.authorizedBy.value && request.id == run[c].requestId && response.room == row.room
      && Authorizes(w, at.d, at.rows, response, request);
    var i := MemberOfPrefix(at.rows, s.rows, response);
    assert Answers(s, i);
    var j :| Copies(s.rows, i, j);
  }

  // ---- one response, one amendment -----------------------------------------

  /** In the store, amendment `k` cites the response another row before it already cites. */
  ghost predicate Repeats(rows: seq<Row>, k: int)
  {
    && 0 <= k < |rows| && rows[k].dimension.IdentityAmendment? && rows[k].authorizedBy.Some?
    && exists i :: 0 <= i < k && Cites(rows[i], rows[k].authorizedBy.value)
  }

  lemma {:induction false} RowsAppend(w: World, d: Directory, run: seq<Step>, c: nat)
    requires c <= |run|
    ensures After(w, d, run[..c]).rows <= After(w, d, run).rows
  {
    if c == |run| {
      assert run[..c] == run;
    } else {
      assert run[..|run| - 1][..c] == run[..c];
      RowsAppend(w, d, run[..|run| - 1], c);
    }
  }

  lemma {:induction false} PrefixValid(w: World, d: Directory, run: seq<Step>, i: nat)
    requires Valid(w, d, run) && i < |run|
    ensures Valid(w, d, run[..i]) && Enabled(w, After(w, d, run[..i]), run[i])
    ensures After(w, d, run[..i + 1]) == Next(w, After(w, d, run[..i]), run[i])
  {
    assert run[..i + 1][..i] == run[..i];
    if i == |run| - 1 {
      assert run[..i + 1] == run;
    } else {
      assert run[..|run| - 1][..i] == run[..i] && run[..|run| - 1][..i + 1] == run[..i + 1];
      PrefixValid(w, d, run[..|run| - 1], i);
    }
  }

  /** Draft `t`, checked in step `c`, is written in step `i` and untouched in between. */
  ghost predicate WrittenAt(run: seq<Step>, t: nat, c: nat, i: nat)
  {
    && c < i < |run| && run[c].Check? && run[c].t == t && run[i].Write? && run[i].t == t
    && forall m | c < m < i :: !(run[m].Write? && run[m].t == t)
  }

  lemma {:induction false} DraftKept(w: World, d: Directory, run: seq<Step>, t: nat, c: nat, i: nat)
    requires Valid(w, d, run) && c < i < |run| && run[c].Check? && run[c].t == t
    requires forall m | c < m < i :: !(run[m].Write? && run[m].t == t)
    ensures t in After(w, d, run[..i]).drafts
    ensures After(w, d, run[..i]).drafts[t].authorizedBy == run[c].authorizedBy
    decreases i
  {
    PrefixValid(w, d, run, i - 1);
    if i - 1 == c {
      CheckAuthorizes(w, After(w, d, run[..c]), run[c]);
    } else {
      DraftKept(w, d, run, t, c, i - 1);
    }
  }

  lemma RepeatsIffCitedSince(checked: seq<Row>, before: seq<Row>, row: Row, authorizedBy: Id)
    requires checked <= before && forall r | r in checked :: !Cites(r, authorizedBy)
    requires row.dimension.IdentityAmendment? && row.authorizedBy == Some(authorizedBy)
    ensures Repeats(before + [row], |before|) <==> exists m :: |checked| <= m < |before| && Cites(before[m], authorizedBy)
  {
    var now := before + [row];
    forall m | 0 <= m < |before|
      ensures now[m] == before[m]
      ensures m < |checked| ==> !Cites(before[m], authorizedBy)
    {
      if m < |checked| {
        assert before[m] == checked[m] && checked[m] in checked;
      }
    }
    if m :| |checked| <= m < |before| && Cites(before[m], authorizedBy) {
      assert Cites(now[m], authorizedBy);
    }
  }

  /**
   * An amendment repeats a response exactly when another amendment citing that response was
   * stored between its check and its writing: so never when a handler runs undisturbed.
   */
  lemma RepeatsIffStoredInBetween(w: World, d: Directory, run: seq<Step>, t: nat, c: nat, i: nat)
    requires Valid(w, d, run) && WrittenAt(run, t, c, i)
    ensures
      var before, checked := After(w, d, run[..i]).rows, After(w, d, run[..c]).rows;
      && |checked| <= |before| && |After(w, d, run[..i + 1]).rows| == |before| + 1
      && (Repeats(After(w, d, run[..i + 1]).rows, |before|) <==>
            exists m :: |checked| <= m < |before| && Cites(before[m], run[c].authorizedBy))
      && (i == c + 1 ==> !Repeats(After(w, d, run[..i + 1]).rows, |before|))
  {
    PrefixValid(w, d, run, c);
    PrefixValid(w, d, run, i);
    DraftKept(w, d, run, t, c, i);
    var before, checked, now := After(w, d, run[..i]).rows, After(w, d, run[..c]).rows, After(w, d, run[..i + 1]).rows;
    assert run[..i][..c] == run[..c];
    RowsAppend(w, d, run[..i], c);
    assert now == before + [AmendmentRow(w, After(w, d, run[..i]).drafts[t], run[i].at, run[i].newId)];
    NotCitedWhenChecked(w, After(w, d, run[..c]), run[c]);
    RepeatsIffCitedSince(checked, before, now[|before|], run[c].authorizedBy);
  }

  lemma NotCitedWhenChecked(w: World, s: Desk, step: Step)
    requires step.Check? && Enabled(w, s, step)
    ensures forall row | row in s.rows :: !Cites(row, step.authorizedBy)
  {}

  /** Every amendment is written right after its own check: each handler is one atomic step. */
  predicate Atomic(run: seq<Step>)
  {
    forall i | 0 <= i < |run| && run[i].Write? :: i > 0 && run[i - 1].Check? && run[i - 1].t == run[i].t
  }

  ghost predicate NoneRepeats(s: Desk)
  {
    forall k | 0 <= k < |s.rows| && s.rows[k].id in s.authored :: !Repeats(s.rows, k)
  }

  lemma NoneRepeatsKept(w: World, s: Desk, step: Step)
    requires Enabled(w, s, step) && InOrder(s) && NoneRepeats(s)
    requires step.Write? ==> !Repeats(Next(w, s, step).rows, |s.rows|)
    ensures NoneRepeats(Next(w, s, step))
  {
    StepStores(w, s, step);
    var z := Next(w, s, step);
    forall k | 0 <= k < |z.rows| && z.rows[k].id in z.authored
      ensures !Repeats(z.rows, k)
    {
      if k < |s.rows| {
        assert s.rows[k] in s.rows && z.rows[k] == s.rows[k];
        assert Repeats(z.rows, k) ==> Repeats(s.rows, k);
      }
    }
  }

  /** With handlers that are each one atomic step, no response ever backs a second amendment of this door's. */
  lemma {:induction false} OneResponseOneAmendment(w: World, d: Directory, run: seq<Step>)
    requires Valid(w, d, run) && Atomic(run)
    ensures NoneRepeats(After(w, d, run))
  {
    if run != [] {
      var pre, n := run[..|run| - 1], |run| - 1;
      OneResponseOneAmendment(w, d, pre);
      AlwaysInOrder(w, d, pre);
      if run[n].Write? {
        assert run[..n] == pre && run[..n + 1] == run;
        RepeatsIffStoredInBetween(w, d, run, run[n].t, n - 1, n);
      }
      NoneRepeatsKept(w, After(w, d, pre), run[n]);
    }
  }

  /** Two checks in flight for one approval are both written: the check does not reserve the response. */
  lemma TwoChecksTwoAmendments(
    w: World, s: Desk, digest: string, authorizedBy: Id, requestId: Id, at: Instant, id1: Id, id2: Id)
    requires s.drafts == map[] && FreshId(s.rows, id1) && FreshId(s.rows, id2) && id1 != id2
    requires CheckAmendment(w, s.d, s.rows, digest, authorizedBy, requestId).Ok?
    ensures
      var s1 := Next(w, s, Check(0, digest, authorizedBy, requestId));
      && Enabled(w, s1, Check(1, digest, authorizedBy, requestId))
      && var s2 := Next(w, s1, Check(1, digest, authorizedBy, requestId));
      && Enabled(w, s2, Write(0, at, id1))
      && var s3 := Next(w, s2, Write(0, at, id1));
      && Enabled(w, s3, Write(1, at, id2))
      && Repeats(Next(w, s3, Write(1, at, id2)).rows, |s.rows| + 1)
  {
    var s1 := Next(w, s, Check(0, digest, authorizedBy, requestId));
    var s2 := Next(w, s1, Check(1, digest, authorizedBy, requestId));
    var s3 := Next(w, s2, Write(0, at, id1));
    assert s2.drafts[0].authorizedBy == authorizedBy == s2.drafts[1].authorizedBy;
    assert s3.rows[|s.rows|].evidence == [authorizedBy] && authorizedBy in [authorizedBy];
    var rows := Next(w, s3, Write(1, at, id2)).rows;
    assert rows[|s.rows|] == s3.rows[|s.rows|] && Cites(rows[|s.rows|], authorizedBy);
  }
}
