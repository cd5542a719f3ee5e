// The words of the accord plane: invocations, signatures, the roster that counts
// them, and the thresholds a row must reach.
//
// Cryptography is symbolic.  A digest is the value it was taken of, so it is
// injective by construction; a signature is the key that made it together with
// the invocation it covers, so it verifies exactly where it was made.

module Accord {
  import opened Prelude

  // ---- rows ----------------------------------------------------------------

  datatype Kind = Constitutional | Drill | Notify | LifecycleConfirmed | LifecycleActive

  /** What a release token must name: one latch instance, of one halt, on one node. */
  datatype ReleaseBinding = ReleaseBinding(
    nodeId: Id, haltInvocationId: Id, haltPayload: Digest, latchId: Id)

  /** SHA-256, symbolically.  `Blank` is the empty string where a digest should be. */
  datatype Digest = Blank | OfText(text: string) | OfBinding(binding: ReleaseBinding)

  /** An RFC 3339 instant as it appears in a file or on the wire. */
  datatype Stamp = At(instant: Instant) | Unparseable(text: string)

  datatype Invocation = Invocation(
    kind: Kind,
    id: Id,
    resumesHaltId: Option<Id>,
    confirmsHaltId: Option<Id>,
    nonce: string,
    assertedAt: Stamp,
    validUntil: Stamp,
    payload: Digest)

  /** A roster seat: a member and its two public keys. */
  datatype Member = Member(id: Id, ed: string, pq: Option<string>)

  /** A hybrid signature: which member it claims, the keys that made it, what it covers. */
  datatype Signature = Signature(memberId: Id, ed: string, pq: string, over: Invocation)

  /** The object that travels: an invocation, its signatures, and an announcement's text. */
  datatype Row = Row(inv: Invocation, sigs: seq<Signature>, message: Option<string>)

  // ---- counting signers ----------------------------------------------------

  predicate SignedBy(m: Member, inv: Invocation, sigs: seq<Signature>)
  {
    m.pq.Some? && Signature(m.id, m.ed, m.pq.value, inv) in sigs
  }

  function Seats(roster: seq<Member>): set<Id>
  {
    set m | m in roster :: m.id
  }

  /** The distinct seats whose signature over `inv` verifies against `roster`. */
  function ValidSigners(roster: seq<Member>, inv: Invocation, sigs: seq<Signature>): (r: set<Id>)
    ensures r <= Seats(roster)
  {
    set m | m in roster && SignedBy(m, inv, sigs) :: m.id
  }

  const USIZE_MAX: nat := 0xFFFF_FFFF_FFFF_FFFF

  /** Signatures per kind: one holder fires, a strict majority confirms or resumes. */
  function RequiredSignatures(kind: Kind, rosterLen: nat): Option<nat>
  {
    if rosterLen == 0 then None
    else match kind
      case Constitutional | Drill | Notify => Some(1)
      case LifecycleConfirmed | LifecycleActive => Some(rosterLen / 2 + 1)
  }

  function HaltPlaneThreshold(kind: Kind, rosterLen: nat): nat
  {
    match RequiredSignatures(kind, rosterLen)
    case Some(m) => m
    case None => USIZE_MAX
  }

  predicate QuorumMet(row: Row, roster: seq<Member>)
  {
    |ValidSigners(roster, row.inv, row.sigs)| >= HaltPlaneThreshold(row.inv.kind, |roster|)
  }

  predicate Authentic(row: Row, roster: seq<Member>)
  {
    ValidSigners(roster, row.inv, row.sigs) != {}
  }

  /** A row that binds at its threshold: a fire, a confirmation or a resumption. */
  predicate Binding(row: Row, roster: seq<Member>)
  {
    QuorumMet(row, roster)
    && (row.inv.kind.Constitutional? || row.inv.kind.LifecycleConfirmed? || row.inv.kind.LifecycleActive?)
  }

  lemma {:induction false} SeatsBound(roster: seq<Member>)
    ensures |Seats(roster)| <= |roster|
  {
    if roster != [] {
      SeatsBound(roster[1..]);
      assert roster == [roster[0]] + roster[1..];
      assert Seats(roster) == {roster[0].id} + Seats(roster[1..]);
    }
  }

  lemma SetOfNone<T>(s: set<T>)
    requires |s| >= 1
    ensures s != {}
  {}

  /** An empty roster admits nothing, and a row that meets its threshold is authentic. */
  lemma QuorumNeedsASeat(row: Row, roster: seq<Member>)
    requires QuorumMet(row, roster)
    ensures roster != [] && Authentic(row, roster)
  {
    SeatsBound(roster);
    SubsetCardinality(ValidSigners(roster, row.inv, row.sigs), Seats(roster));
    SetOfNone(ValidSigners(roster, row.inv, row.sigs));
  }

  /** A seat counts exactly if it has both keys and they signed this very invocation in its name. */
  lemma CountsIff(roster: seq<Member>, inv: Invocation, sigs: seq<Signature>, id: Id)
    ensures id in ValidSigners(roster, inv, sigs) <==>
      exists m: Member, s: Signature :: m in roster && s in sigs && m.id == id == s.memberId && s.ed == m.ed && m.pq == Some(s.pq) && s.over == inv
  {
    if m, s :| m in roster && s in sigs && m.id == id == s.memberId && s.ed == m.ed && m.pq == Some(s.pq) && s.over == inv {
      assert s == Signature(m.id, m.ed, m.pq.value, inv);
      assert SignedBy(m, inv, sigs);
    }
    if id in ValidSigners(roster, inv, sigs) {
      var m :| m in roster && SignedBy(m, inv, sigs) && m.id == id;
      var s := Signature(m.id, m.ed, m.pq.value, inv);
      assert s in sigs;
    }
  }

  /**
   * What each kind asks: one seat of any roster fires a halt, a drill or an announcement; a
   * confirmation or a resumption takes strictly more than half of the seats.
   */
  lemma QuorumIff(row: Row, roster: seq<Member>)
    ensures QuorumMet(row, roster) <==>
      if row.inv.kind.LifecycleConfirmed? || row.inv.kind.LifecycleActive?
      then 2 * |ValidSigners(roster, row.inv, row.sigs)| > |roster|
      else Authentic(row, roster)
  {
    if roster == [] {
      assert Seats(roster) == {};
    }
    if Authentic(row, roster) {
      var id :| id in ValidSigners(roster, row.inv, row.sigs);
      SubsetCardinality({id}, ValidSigners(roster, row.inv, row.sigs));
      assert id in Seats(roster);
    }
    if QuorumMet(row, roster) {
      QuorumNeedsASeat(row, roster);
    }
  }

  // ---- one key, one seat ---------------------------------------------------

  predicate DistinctKeys(roster: seq<Member>)
  {
    && (forall i, j | 0 <= i < j < |roster| :: roster[i].ed != roster[j].ed)
    && (forall i, j | 0 <= i < j < |roster| && roster[i].pq.Some? && roster[j].pq.Some? ::
          roster[i].pq.value != roster[j].pq.value)
  }

  datatype RosterFault = DuplicateEd25519(memberId: Id) | DuplicateMlDsa65(memberId: Id)

  /** The distinct-key gate: accepts exactly the rosters in which no key holds two seats. */
  method AssertDistinctRoster(roster: seq<Member>) returns (r: Result<(), RosterFault>)
    ensures r.Ok? <==> DistinctKeys(roster)
    ensures r.Err? && r.error.DuplicateEd25519? ==>
      exists i, j | 0 <= i < j < |roster| :: roster[i].ed == roster[j].ed && roster[j].id == r.error.memberId
    ensures r.Err? && r.error.DuplicateMlDsa65? ==>
      exists i, j | 0 <= i < j < |roster| ::
        roster[i].pq.Some? && roster[i].pq == roster[j].pq && roster[j].id == r.error.memberId
  {
    var ed: set<string>, pq: set<string> := {}, {};
    for k := 0 to |roster|
      invariant DistinctKeys(roster[..k])
      invariant forall e :: e in ed <==> exists i | 0 <= i < k :: roster[i].ed == e
      invariant forall q :: q in pq <==> exists i | 0 <= i < k :: roster[i].pq == Some(q)
    {
      var m := roster[k];
      if m.ed in ed {
        return Err(DuplicateEd25519(m.id));
      }
      ed := ed + {m.ed};
      if m.pq.Some? {
        if m.pq.value in pq {
          return Err(DuplicateMlDsa65(m.id));
        }
        pq := pq + {m.pq.value};
      }
      assert roster[..k + 1] == roster[..k] + [m];
    }
    assert roster[..|roster|] == roster;
    return Ok(());
  }

  /** The Ed25519 keys that actually signed. */
  function SigningKeys(roster: seq<Member>, inv: Invocation, sigs: seq<Signature>): set<string>
  {
    set m | m in roster && SignedBy(m, inv, sigs) :: m.ed
  }

  lemma SignersSplit(h: Member, rest: seq<Member>, inv: Invocation, sigs: seq<Signature>)
    ensures ValidSigners([h] + rest, inv, sigs)
         == (if SignedBy(h, inv, sigs) then {h.id} else {}) + ValidSigners(rest, inv, sigs)
    ensures SigningKeys([h] + rest, inv, sigs)
         == (if SignedBy(h, inv, sigs) then {h.ed} else {}) + SigningKeys(rest, inv, sigs)
  {
    assert forall m :: m in [h] + rest <==> m == h || m in rest;
  }

  predicate DistinctEd25519(roster: seq<Member>)
  {
    forall i, j | 0 <= i < j < |roster| :: roster[i].ed != roster[j].ed
  }

  lemma FirstKeyApart(roster: seq<Member>)
    requires roster != [] && DistinctEd25519(roster)
    ensures DistinctEd25519(roster[1..]) && forall m | m in roster[1..] :: m.ed != roster[0].ed
  {
    var rest := roster[1..];
    forall m | m in rest
      ensures m.ed != roster[0].ed
    {
      var j :| 0 <= j < |rest| && rest[j] == m;
      assert roster[j + 1] == m;
    }
  }

  lemma {:induction false} DistinctSigningKeys(roster: seq<Member>, inv: Invocation, sigs: seq<Signature>)
    requires DistinctEd25519(roster)
    ensures |ValidSigners(roster, inv, sigs)| <= |SigningKeys(roster, inv, sigs)|
  {
    if roster != [] {
      var h, rest := roster[0], roster[1..];
      FirstKeyApart(roster);
      DistinctSigningKeys(rest, inv, sigs);
      assert roster == [h] + rest;
      SignersSplit(h, rest, inv, sigs);
      assert h.ed !in SigningKeys(rest, inv, sigs);
    }
  }

  /**
   * Any confirmation and any resumption honored over one roster share a seat, and over
   * a roster that passes the distinct-key gate each of them is the act of at least a
   * strict majority of distinct keys.
   */
  lemma MajoritiesIntersect(a: Row, b: Row, roster: seq<Member>)
    requires a.inv.kind.LifecycleConfirmed? || a.inv.kind.LifecycleActive?
    requires b.inv.kind.LifecycleConfirmed? || b.inv.kind.LifecycleActive?
    requires QuorumMet(a, roster) && QuorumMet(b, roster)
    ensures ValidSigners(roster, a.inv, a.sigs) * ValidSigners(roster, b.inv, b.sigs) != {}
    ensures DistinctKeys(roster) ==> 2 * |SigningKeys(roster, a.inv, a.sigs)| > |roster|
  {
    SeatsBound(roster);
    QuorumNeedsASeat(a, roster);
    Pigeonhole(ValidSigners(roster, a.inv, a.sigs), ValidSigners(roster, b.inv, b.sigs), Seats(roster));
    if DistinctKeys(roster) {
      DistinctSigningKeys(roster, a.inv, a.sigs);
    }
  }

  // ---- when a majority of seats is one of keys -----------------------------

  predicate DistinctSeats(seats: seq<Member>)
  {
    forall i, j | 0 <= i < j < |seats| :: seats[i].id != seats[j].id
  }

  /** Distinct seats, each with both keys. */
  predicate ProperSeats(roster: seq<Member>)
  {
    DistinctSeats(roster) && forall i | 0 <= i < |roster| :: roster[i].pq.Some?
  }

  /** Any lifecycle row that reaches its threshold is the act of a strict majority of keys. */
  ghost predicate MajoritiesAreOfKeys(roster: seq<Member>)
  {
    forall row: Row | (row.inv.kind.LifecycleConfirmed? || row.inv.kind.LifecycleActive?) && QuorumMet(row, roster) ::
      2 * |SigningKeys(roster, row.inv, row.sigs)| > |roster|
  }

  /** The listed seats' signatures over `inv`. */
  function SignaturesOf(seats: seq<Member>, inv: Invocation): (sigs: seq<Signature>)
    requires forall m | m in seats :: m.pq.Some?
    ensures forall s :: s in sigs <==> exists m :: m in seats && s == Signature(m.id, m.ed, m.pq.value, inv)
  {
    if seats == [] then []
    else
      assert seats == [seats[0]] + seats[1..];
      [Signature(seats[0].id, seats[0].ed, seats[0].pq.value, inv)] + SignaturesOf(seats[1..], inv)
  }

  function KeysOf(seats: seq<Member>): set<string>
  {
    set m | m in seats :: m.ed
  }

  lemma {:induction false} KeysBound(seats: seq<Member>)
    ensures |KeysOf(seats)| <= |seats|
  {
    if seats != [] {
      KeysBound(seats[1..]);
      assert seats == [seats[0]] + seats[1..];
      assert KeysOf(seats) == {seats[0].ed} + KeysOf(seats[1..]);
    }
  }

  /** Two seats on one key make one key fewer. */
  lemma SharedKeyCounts(a: Member, b: Member, rest: seq<Member>)
    requires a.ed == b.ed
    ensures |KeysOf([a, b] + rest)| <= 1 + |rest|
  {
    KeysBound([b] + rest);
    assert [a, b] + rest == [a] + ([b] + rest);
    assert KeysOf([a, b] + rest) == KeysOf([b] + rest) by {
      assert forall m :: m in [a, b] + rest <==> m == a || m == b || m in rest;
      assert b in [b] + rest && a in [a, b] + rest;
    }
  }

  lemma FirstSeatApart(seats: seq<Member>)
    requires seats != [] && DistinctSeats(seats)
    ensures DistinctSeats(seats[1..]) && seats[0].id !in Seats(seats[1..])
    ensures Seats(seats) == {seats[0].id} + Seats(seats[1..])
  {
    var rest := seats[1..];
    assert seats == [seats[0]] + rest;
    forall m | m in rest
      ensures m.id != seats[0].id
    {
      var j :| 0 <= j < |rest| && rest[j] == m;
      assert seats[j + 1] == m;
    }
  }

  lemma {:induction false} DistinctSeatsCount(seats: seq<Member>)
    requires DistinctSeats(seats)
    ensures |Seats(seats)| == |seats|
  {
    if seats != [] {
      FirstSeatApart(seats);
      DistinctSeatsCount(seats[1..]);
    }
  }

  /** Seats of the roster that sign are counted, with their keys and nobody else's. */
  lemma SignersAreTheSeats(roster: seq<Member>, seats: seq<Member>, inv: Invocation)
    requires forall m | m in seats :: m in roster && m.pq.Some?
    ensures Seats(seats) <= ValidSigners(roster, inv, SignaturesOf(seats, inv))
    ensures SigningKeys(roster, inv, SignaturesOf(seats, inv)) <= KeysOf(seats)
  {
    var sigs := SignaturesOf(seats, inv);
    forall m | m in seats
      ensures SignedBy(m, inv, sigs)
    {
      assert Signature(m.id, m.ed, m.pq.value, inv) in sigs;
    }
    forall ed | ed in SigningKeys(roster, inv, sigs)
      ensures ed in KeysOf(seats)
    {
      var m :| m in roster && SignedBy(m, inv, sigs) && m.ed == ed;
      var n :| n in seats && Signature(m.id, m.ed, m.pq.value, inv) == Signature(n.id, n.ed, n.pq.value, inv);
    }
  }

  /** All seats but two. */
  function Others(roster: seq<Member>, i: nat, j: nat): (r: seq<Member>)
    requires i < j < |roster|
    ensures |r| == |roster| - 2 && forall m | m in r :: m in roster
  {
    roster[..i] + roster[i + 1..j] + roster[j + 1..]
  }

  lemma OthersAreDistinct(roster: seq<Member>, i: nat, j: nat, n: nat)
    requires ProperSeats(roster) && i < j < |roster| && n <= |roster| - 2
    ensures
      var seats := [roster[i], roster[j]] + Others(roster, i, j)[..n];
      forall a, b | 0 <= a < b < |seats| :: seats[a].id != seats[b].id
  {
    var seats := [roster[i], roster[j]] + Others(roster, i, j)[..n];
    forall a, b | 0 <= a < b < |seats|
      ensures seats[a].id != seats[b].id
    {
      assert seats[a] == roster[Place(|roster|, i, j, a)] && seats[b] == roster[Place(|roster|, i, j, b)];
    }
  }

  /** Where the `a`-th of "`i`, `j`, and the others" sits in the roster. */
  function Place(len: nat, i: nat, j: nat, a: nat): (r: nat)
    requires i < j < len && a < len
    ensures r < len
  {
    if a == 0 then i
    else if a == 1 then j
    else if a - 2 < i then a - 2
    else if a - 2 < j - 1 then a - 1
    else a
  }

  lemma SeatsHaveBothKeys(roster: seq<Member>, seats: seq<Member>)
    requires ProperSeats(roster) && forall m | m in seats :: m in roster
    ensures forall m | m in seats :: m.pq.Some?
  {
    forall m | m in seats
      ensures m.pq.Some?
    {
      var k :| 0 <= k < |roster| && roster[k] == m;
    }
  }

  /** A strict majority of seats signs a row that meets its threshold, with no other keys than theirs. */
  lemma EnoughSeatsSign(roster: seq<Member>, seats: seq<Member>, inv: Invocation) returns (row: Row)
    requires forall m | m in seats :: m in roster && m.pq.Some?
    requires DistinctSeats(seats)
    requires 2 * |seats| > |roster| && (inv.kind.LifecycleConfirmed? || inv.kind.LifecycleActive?)
    ensures row.inv == inv && QuorumMet(row, roster) && |SigningKeys(roster, inv, row.sigs)| <= |KeysOf(seats)|
  {
    row := Row(inv, SignaturesOf(seats, inv), None);
    SignersAreTheSeats(roster, seats, inv);
    DistinctSeatsCount(seats);
    SubsetCardinality(Seats(seats), ValidSigners(roster, inv, row.sigs));
    SubsetCardinality(SigningKeys(roster, inv, row.sigs), KeysOf(seats));
  }

  /** A row that a shared key's two seats and as many others as a strict majority needs have signed. */
  lemma SharedKeyStealsAMajority(roster: seq<Member>, i: nat, j: nat, inv: Invocation) returns (row: Row)
    requires ProperSeats(roster) && i < j < |roster| && roster[i].ed == roster[j].ed
    requires inv.kind.LifecycleConfirmed? || inv.kind.LifecycleActive?
    ensures row.inv == inv && QuorumMet(row, roster) && 2 * |SigningKeys(roster, inv, row.sigs)| <= |roster|
  {
    var rest := Others(roster, i, j)[..|roster| / 2 - 1];
    var seats := [roster[i], roster[j]] + rest;
    SeatsHaveBothKeys(roster, seats);
    OthersAreDistinct(roster, i, j, |roster| / 2 - 1);
    row := EnoughSeatsSign(roster, seats, inv);
    SharedKeyCounts(roster[i], roster[j], rest);
  }

  /**
   * Over any roster of distinct seats with both keys, every confirmation and resumption that
   * reaches its threshold is the act of a strict majority of keys exactly when no two seats
   * share an Ed25519 key: what the dropped answer of the gate would have told, and the
   * ML-DSA-65 half of it is not needed for this.
   */
  lemma MajoritiesAreOfKeysIff(roster: seq<Member>)
    requires ProperSeats(roster)
    ensures MajoritiesAreOfKeys(roster) <==> DistinctEd25519(roster)
  {
    if DistinctEd25519(roster) {
      forall row: Row | (row.inv.kind.LifecycleConfirmed? || row.inv.kind.LifecycleActive?) && QuorumMet(row, roster)
        ensures 2 * |SigningKeys(roster, row.inv, row.sigs)| > |roster|
      {
        QuorumNeedsASeat(row, roster);
        DistinctSigningKeys(roster, row.inv, row.sigs);
      }
    } else {
      var i, j :| 0 <= i < j < |roster| && roster[i].ed == roster[j].ed;
      var row := SharedKeyStealsAMajority(
        roster, i, j, Invocation(LifecycleActive, "", None, None, "", At(0), At(0), Blank));
    }
  }
}
