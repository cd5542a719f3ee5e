// Conferring a duty: one holder proposes, others add their scrubs to the same bytes, and the
// row is stored only at quorum.  Holders are counted by sorting and removing repeats.

module Duties {
  import opened Prelude

  // ---- sorting and removing repeats ----------------------------------------

  /** The order on strings. */
  predicate Le(a: string, b: string)
  {
    a == "" || (b != "" && (a[0] < b[0] || (a[0] == b[0] && Le(a[1..], b[1..]))))
  }

  lemma {:induction false} LeTotal(a: string, b: string)
    ensures Le(a, b) || Le(b, a)
  {
    if a != "" && b != "" && a[0] == b[0] {
      LeTotal(a[1..], b[1..]);
    }
  }

  lemma {:induction false} LeAntisymmetric(a: string, b: string)
    requires Le(a, b) && Le(b, a)
    ensures a == b
  {
    if a != "" && b != "" {
      LeAntisymmetric(a[1..], b[1..]);
      assert a == [a[0]] + a[1..] && b == [b[0]] + b[1..];
    }
  }

  lemma {:induction false} LeTransitive(a: string, b: string, c: string)
    requires Le(a, b) && Le(b, c)
    ensures Le(a, c)
  {
    if a != "" && b != "" && c != "" && a[0] == b[0] == c[0] {
      LeTransitive(a[1..], b[1..], c[1..]);
    }
  }

  function Insert(x: string, s: seq<string>): (r: seq<string>)
    ensures forall y :: y in r <==> y == x || y in s
    decreases |s|
  {
    if s == [] then [x]
    else if Le(x, s[0]) then [x] + s
    else
      assert s == [s[0]] + s[1..];
      [s[0]] + Insert(x, s[1..])
  }

  function Sort(s: seq<string>): (r: seq<string>)
    ensures forall y :: y in r <==> y in s
  {
    if s == [] then []
    else
      assert s == [s[0]] + s[1..];
      Insert(s[0], Sort(s[1..]))
  }

  /** Consecutive repeats removed. */
  function Dedup(s: seq<string>): (r: seq<string>)
    ensures forall y :: y in r <==> y in s
    ensures s != [] ==> r != [] && r[0] == s[0]
  {
    if |s| <= 1 then s
    else
      assert s == [s[0]] + s[1..];
      if s[0] == s[1] then Dedup(s[1..]) else [s[0]] + Dedup(s[1..])
  }

  /** Never descending, told link by link. */
  ghost predicate Ascending(s: seq<string>)
  {
    forall k | 0 < k < |s| :: Le(s[k - 1], s[k])
  }

  /** The head is below every later member, strictly, and so on down. */
  ghost predicate Strict(s: seq<string>)
  {
    s != [] ==> (forall y | y in s[1..] :: Le(s[0], y) && s[0] != y) && Strict(s[1..])
  }

  lemma {:induction false} InsertAscends(x: string, s: seq<string>)
    requires Ascending(s)
    ensures Ascending(Insert(x, s))
    ensures Insert(x, s)[0] == x || (s != [] && Insert(x, s)[0] == s[0])
    decreases |s|
  {
    if s != [] && !Le(x, s[0]) {
      LeTotal(x, s[0]);
      InsertAscends(x, s[1..]);
    }
  }

  lemma {:induction false} SortAscends(s: seq<string>)
    ensures Ascending(Sort(s))
  {
    if s != [] {
      SortAscends(s[1..]);
      InsertAscends(s[0], Sort(s[1..]));
    }
  }

  lemma {:induction false} HeadIsLeast(s: seq<string>, y: string)
    requires Ascending(s) && y in s
    ensures Le(s[0], y)
    decreases |s|
  {
    if y == s[0] {
      LeTotal(y, y);
    } else {
      assert s == [s[0]] + s[1..];
      HeadIsLeast(s[1..], y);
      LeTransitive(s[0], s[1], y);
    }
  }

  lemma {:induction false} DedupIsStrict(s: seq<string>)
    requires Ascending(s)
    ensures Strict(Dedup(s))
    decreases |s|
  {
    if |s| == 1 {
      assert Strict(s[1..]);
    } else if |s| > 1 {
      DedupIsStrict(s[1..]);
      if s[0] != s[1] {
        var rest := Dedup(s[1..]);
        assert ([s[0]] + rest)[1..] == rest;
        forall y | y in rest
          ensures Le(s[0], y) && s[0] != y
        {
          HeadIsLeast(s[1..], y);
          LeTransitive(s[0], s[1], y);
          if s[0] == y {
            LeAntisymmetric(s[0], s[1]);
          }
        }
      }
    }
  }

  lemma {:induction false} StrictCounts(s: seq<string>, members: set<string>)
    requires Strict(s) && forall y :: y in s <==> y in members
    ensures |s| == |members|
    decreases |s|
  {
    if s == [] {
      assert members == {};
    } else {
      assert s == [s[0]] + s[1..];
      assert s[0] in members;
      StrictCounts(s[1..], members - {s[0]});
    }
  }

  lemma HasMember(s: seq<string>)
    requires s != []
    ensures exists y :: y in s
  {
    assert s[0] in s;
  }

  /** A strictly ascending list is fixed by its members. */
  lemma {:induction false} StrictIsCanonical(a: seq<string>, b: seq<string>)
    requires Strict(a) && Strict(b) && forall y :: y in a <==> y in b
    ensures a == b
    decreases |a|
  {
    if a == [] {
      if b != [] {
        HasMember(b);
      }
    } else {
      assert a[0] in b;
      assert a == [a[0]] + a[1..] && b == [b[0]] + b[1..];
      assert b[0] in a;
      if a[0] != b[0] {
        LeAntisymmetric(a[0], b[0]);
      }
      forall y
        ensures y in a[1..] <==> y in b[1..]
      {
        assert y in a[1..] <==> y in a && y != a[0];
        assert y in b[1..] <==> y in b && y != b[0];
      }
      StrictIsCanonical(a[1..], b[1..]);
    }
  }

  /** Sorting and removing repeats lists each member once, in an order its members alone fix. */
  lemma SortedOnce(s: seq<string>)
    ensures Strict(Dedup(Sort(s)))
    ensures |Dedup(Sort(s))| == |(set y | y in s)|
  {
    SortAscends(s);
    DedupIsStrict(Sort(s));
    StrictCounts(Dedup(Sort(s)), set y | y in s);
  }

  lemma OrderDoesNotMatter(a: seq<string>, b: seq<string>)
    requires forall y :: y in a <==> y in b
    ensures Dedup(Sort(a)) == Dedup(Sort(b))
  {
    SortedOnce(a);
    SortedOnce(b);
    StrictIsCanonical(Dedup(Sort(a)), Dedup(Sort(b)));
  }

  // ---- the conferral -------------------------------------------------------

  const MAX_DELEGATION_DEPTH: nat := 5

  /** What every holder signs. */
  datatype Envelope = Envelope(subject: Id, duties: seq<string>, subDelegation: bool, depth: Option<nat>)

  datatype ContentHash = HashOf(envelope: Envelope) | OtherHash(text: string)

  datatype Scrub = Scrub(keyId: Id, signature: string)

  datatype Conferral = Conferral(
    envelope: Envelope, contentHash: ContentHash, attesting: Id, scrub: Scrub, additional: seq<Scrub>)

  datatype Refusal =
    | NoDuty | UnknownDuty | NoSubject | DepthOverRail | DepthWithoutDelegation | HolderMismatch
    | HolderCustody | PartialTampered | AlreadySigned | RefusedByStore

  /** A holder's custody: what it opens as and signs with, or nothing when it does not open. */
  type Custody = Option<Scrub>

  datatype Proposal = Proposal(
    holder: Id, subject: string, duties: seq<string>, duty: Option<string>, subDelegation: bool, depth: Option<nat>)

  function TrimmedDuties(duties: seq<string>): (r: seq<string>)
    ensures forall y :: y in r <==> y != "" && exists k :: 0 <= k < |duties| && Trim(duties[k]) == y
  {
    if duties == [] then []
    else
      var last := Trim(duties[|duties| - 1]);
      var r := TrimmedDuties(duties[..|duties| - 1]) + if last != "" then [last] else [];
      assert forall y | y in r :: y != "" && exists k :: 0 <= k < |duties| && Trim(duties[k]) == y by {
        assert Trim(duties[|duties| - 1]) == last;
      }
      r
  }

  /** Both spellings folded, trimmed, blanks dropped, sorted, each once. */
  function FoldedDuties(p: Proposal): seq<string>
  {
    Dedup(Sort(TrimmedDuties(p.duties + if p.duty.Some? then [p.duty.value] else [])))
  }

  function Propose(conferrable: set<string>, p: Proposal, custody: Custody): Result<Conferral, Refusal>
  {
    var duties := FoldedDuties(p);
    if duties == [] then Err(NoDuty)
    else if exists d :: d in duties && d !in conferrable then Err(UnknownDuty)
    else if Trim(p.subject) == "" then Err(NoSubject)
    else if p.depth.Some? && p.depth.value > MAX_DELEGATION_DEPTH then Err(DepthOverRail)
    else if p.depth.Some? && !p.subDelegation then Err(DepthWithoutDelegation)
    else if custody.None? then Err(HolderCustody)
    else if custody.value.keyId != Trim(p.holder) then Err(HolderMismatch)
    else
      var envelope := Envelope(Trim(p.subject), duties, p.subDelegation, p.depth);
      Ok(Conferral(envelope, HashOf(envelope), Trim(p.holder), custody.value, []))
  }

  /** The proposal asks for this duty, in either spelling. */
  ghost predicate AsksFor(p: Proposal, duty: string)
  {
    duty != "" && ((exists k :: 0 <= k < |p.duties| && Trim(p.duties[k]) == duty) || (p.duty.Some? && Trim(p.duty.value) == duty))
  }

  lemma FoldedIff(p: Proposal)
    ensures forall y :: y in FoldedDuties(p) <==> AsksFor(p, y)
    ensures Strict(FoldedDuties(p)) && (FoldedDuties(p) == [] <==> forall y :: !AsksFor(p, y))
  {
    var all := p.duties + if p.duty.Some? then [p.duty.value] else [];
    SortedOnce(TrimmedDuties(all));
    forall y
      ensures y in FoldedDuties(p) <==> AsksFor(p, y)
    {
      if k :| 0 <= k < |p.duties| && Trim(p.duties[k]) == y {
        assert all[k] == p.duties[k];
      }
      if p.duty.Some? && Trim(p.duty.value) == y {
        assert all[|p.duties|] == p.duty.value;
      }
      if k :| 0 <= k < |all| && Trim(all[k]) == y {
        assert k < |p.duties| ==> p.duties[k] == all[k];
      }
    }
    if FoldedDuties(p) != [] {
      HasMember(FoldedDuties(p));
    }
  }

  /**
   * A proposal is accepted exactly if it asks for some duty and for conferrable ones only, of a
   * named subject, delegated no deeper than the rail and only where it delegates at all, and
   * its holder's own custody opens.  The partial then carries what was asked, each duty once,
   * signed by that holder alone.
   */
  lemma ProposedIff(conferrable: set<string>, p: Proposal, custody: Custody)
    ensures
      match Propose(conferrable, p, custody)
      case Ok(c) =>
        && (exists y :: AsksFor(p, y)) && (forall y | AsksFor(p, y) :: y in conferrable) && Trim(p.subject) != ""
        && (p.depth.Some? ==> p.depth.value <= 5 && p.subDelegation)
        && custody.Some? && custody.value.keyId == Trim(p.holder)
        && c.envelope.subject == Trim(p.subject) && c.envelope.subDelegation == p.subDelegation && c.envelope.depth == p.depth
        && (forall y :: y in c.envelope.duties <==> AsksFor(p, y)) && Strict(c.envelope.duties)
        && c.contentHash == HashOf(c.envelope) && c.attesting == Trim(p.holder) && c.scrub == custody.value && c.additional == []
      case Err(NoDuty) => forall y :: !AsksFor(p, y)
      case Err(UnknownDuty) => exists y :: AsksFor(p, y) && y !in conferrable
      case Err(NoSubject) => Trim(p.subject) == ""
      case Err(DepthOverRail) => p.depth.Some? && p.depth.value > 5
      case Err(DepthWithoutDelegation) => p.depth.Some? && !p.subDelegation
      case Err(HolderCustody) => custody.None?
      case Err(HolderMismatch) => custody.Some? && custody.value.keyId != Trim(p.holder)
      case Err(_) => false
  {
    FoldedIff(p);
  }

  /** What is signed does not depend on the order, repetition or spelling the duties came in. */
  lemma SameDutiesSameEnvelope(conferrable: set<string>, p: Proposal, q: Proposal, c1: Custody, c2: Custody)
    requires forall y :: y in FoldedDuties(p) <==> y in FoldedDuties(q)
    requires Trim(p.subject) == Trim(q.subject) && p.subDelegation == q.subDelegation && p.depth == q.depth
    requires Propose(conferrable, p, c1).Ok? && Propose(conferrable, q, c2).Ok?
    ensures Propose(conferrable, p, c1).value.envelope == Propose(conferrable, q, c2).value.envelope
    ensures Propose(conferrable, p, c1).value.contentHash == Propose(conferrable, q, c2).value.contentHash
  {
    OrderDoesNotMatter(TrimmedDuties(p.duties + if p.duty.Some? then [p.duty.value] else []),
                       TrimmedDuties(q.duties + if q.duty.Some? then [q.duty.value] else []));
  }

  function ScrubIds(row: Conferral): (r: seq<Id>)
    ensures |r| == 1 + |row.additional|
  {
    [row.scrub.keyId] + seq(|row.additional|, k requires 0 <= k < |row.additional| => row.additional[k].keyId)
  }

  function Holders(row: Conferral): set<Id>
  {
    set id | id in ScrubIds(row)
  }

  /** What `max(1, M)` is for a family quorum of `m`. */
  function Needed(m: nat): nat
  {
    if m < 1 then 1 else m
  }

  datatype Cosigning = Cosigning(partial: Conferral, count: nat, adopted: bool)

  function WithScrub(row: Conferral, scrub: Scrub): Conferral
  {
    row.(additional := row.additional + [scrub])
  }

  function Cosigned(partial: Conferral, custody: Custody, m: nat, admits: bool): Result<Cosigning, Refusal>
  {
    if partial.contentHash != HashOf(partial.envelope) then Err(PartialTampered)
    else if custody.None? then Err(HolderCustody)
    else if custody.value.keyId in Holders(partial) then Err(AlreadySigned)
    else
      var row := WithScrub(partial, custody.value);
      if |Holders(row)| < Needed(m) then Ok(Cosigning(row, |Holders(row)|, false))
      else if !admits then Err(RefusedByStore)
      else Ok(Cosigning(row, |Holders(row)|, true))
  }

  class DutyDesk {
    /** The rows this desk handed to the store. */
    var stored: seq<Conferral>

    constructor ()
      ensures stored == []
    {
      stored := [];
    }

    /** Holders counted by collecting, sorting and removing repeats: the number of distinct ones. */
    method DistinctScrubs(row: Conferral) returns (n: nat)
      ensures n == |Holders(row)|
    {
      var ids := [row.scrub.keyId];
      for k := 0 to |row.additional|
        invariant ids == ScrubIds(row)[..k + 1]
      {
        ids := ids + [row.additional[k].keyId];
      }
      SortedOnce(ids);
      assert Holders(row) == set y | y in ids;
      ids := Sort(ids);
      ids := Dedup(ids);
      n := |ids|;
    }

    method Cosign(partial: Conferral, custody: Custody, m: nat, admits: bool) returns (r: Result<Cosigning, Refusal>)
      modifies this
      ensures r == Cosigned(partial, custody, m, admits)
      ensures stored == old(stored) + if r.Ok? && r.value.adopted then [r.value.partial] else []
    {
      if partial.contentHash != HashOf(partial.envelope) {
        return Err(PartialTampered);
      }
      if custody.None? {
        return Err(HolderCustody);
      }
      var scrub := custody.value;
      SignedIff(partial, scrub.keyId);
      if scrub.keyId == partial.scrub.keyId || exists s :: s in partial.additional && s.keyId == scrub.keyId {
        return Err(AlreadySigned);
      }
      var row := partial.(additional := partial.additional + [scrub]);
      var needed := if m < 1 then 1 else m;
      var count := DistinctScrubs(row);
      if count < needed {
        return Ok(Cosigning(row, count, false));
      }
      if !admits {
        return Err(RefusedByStore);
      }
      stored := stored + [row];
      return Ok(Cosigning(row, count, true));
    }
  }

  lemma SignedIff(row: Conferral, id: Id)
    ensures id in Holders(row) <==> id == row.scrub.keyId || exists s :: s in row.additional && s.keyId == id
  {
    var ids := ScrubIds(row);
    forall k | 0 <= k < |row.additional|
      ensures ids[k + 1] == row.additional[k].keyId && row.additional[k] in row.additional
    {}
    if id in ids {
      var k :| 0 <= k < |ids| && ids[k] == id;
      assert k > 0 ==> row.additional[k - 1] in row.additional;
    }
    assert ids[0] == row.scrub.keyId;
  }

  lemma HoldersGrow(row: Conferral, scrub: Scrub)
    ensures Holders(WithScrub(row, scrub)) == Holders(row) + {scrub.keyId}
  {
    assert ScrubIds(WithScrub(row, scrub)) == ScrubIds(row) + [scrub.keyId];
  }

  /** Each accepted cosign, adopted or not, adds exactly one holder and changes nothing that was signed. */
  lemma CosignAddsOne(partial: Conferral, custody: Custody, m: nat, admits: bool)
    requires Cosigned(partial, custody, m, admits).Ok?
    ensures
      var c := Cosigned(partial, custody, m, admits).value;
      && c.count == |Holders(c.partial)| == |Holders(partial)| + 1
      && c.partial.envelope == partial.envelope && c.partial.contentHash == partial.contentHash == HashOf(partial.envelope)
      && c.partial.attesting == partial.attesting && c.partial.scrub == partial.scrub
      && (c.adopted <==> |Holders(partial)| + 1 >= Needed(m))
  {
    HoldersGrow(partial, custody.value);
  }

  /**
   * A cosign is accepted exactly if the partial's bytes are intact, the holder's custody opens,
   * that holder has not signed yet, and either the quorum is still open or the store admits the
   * row.  Its scrub then goes last.
   */
  lemma CosignedIff(partial: Conferral, custody: Custody, m: nat, admits: bool)
    ensures
      var intact := partial.contentHash == HashOf(partial.envelope);
      var signed := custody.Some? &&
        (custody.value.keyId == partial.scrub.keyId || exists s :: s in partial.additional && s.keyId == custody.value.keyId);
      var reaches := |Holders(partial)| + 1 >= m;
      match Cosigned(partial, custody, m, admits)
      case Ok(c) =>
        && intact && custody.Some? && !signed && (reaches ==> admits) && c.adopted == reaches && c.count == |Holders(partial)| + 1
        && c.partial == partial.(additional := partial.additional + [custody.value])
      case Err(PartialTampered) => !intact
      case Err(HolderCustody) => intact && custody.None?
      case Err(AlreadySigned) => intact && signed
      case Err(RefusedByStore) => intact && custody.Some? && !signed && reaches && !admits
      case Err(_) => false
  {
    if custody.Some? {
      SignedIff(partial, custody.value.keyId);
      HoldersGrow(partial, custody.value);
      if custody.value.keyId !in Holders(partial) {
        assert |Holders(partial) + {custody.value.keyId}| == |Holders(partial)| + 1;
      }
    }
  }

  // ---- a whole ceremony ----------------------------------------------------

  /** One holder's turn: the custody that opened, the quorum then, and whether the store would admit. */
  datatype Turn = Turn(custody: Custody, m: nat, admits: bool)

  /** The partial after a sequence of turns, each on the partial the one before returned; refused turns change nothing. */
  function Ceremony(partial: Conferral, turns: seq<Turn>): Conferral
  {
    if turns == [] then partial
    else
      var p, t := Ceremony(partial, turns[..|turns| - 1]), turns[|turns| - 1];
      match Cosigned(p, t.custody, t.m, t.admits)
      case Ok(c) => c.partial
      case Err(_) => p
  }

  function Accepted(partial: Conferral, turns: seq<Turn>): nat
  {
    if turns == [] then 0
    else
      var pre, t := turns[..|turns| - 1], turns[|turns| - 1];
      Accepted(partial, pre) + if Cosigned(Ceremony(partial, pre), t.custody, t.m, t.admits).Ok? then 1 else 0
  }

  /** What one turn on partial `p` stores. */
  function StoredIn(p: Conferral, t: Turn): seq<Conferral>
  {
    match Cosigned(p, t.custody, t.m, t.admits)
    case Ok(c) => if c.adopted then [c.partial] else []
    case Err(_) => []
  }

  /** The rows a ceremony stored. */
  function StoredBy(partial: Conferral, turns: seq<Turn>): seq<Conferral>
  {
    if turns == [] then []
    else
      var pre, t := turns[..|turns| - 1], turns[|turns| - 1];
      StoredBy(partial, pre) + StoredIn(Ceremony(partial, pre), t)
  }

  lemma TurnStores(p: Conferral, t: Turn)
    ensures StoredIn(p, t) != [] ==> Cosigned(p, t.custody, t.m, t.admits).Ok? && |Holders(p)| + 1 >= Needed(t.m)
    ensures forall row | row in StoredIn(p, t) ::
      row.envelope == p.envelope && row.contentHash == HashOf(p.envelope) && |Holders(row)| >= Needed(t.m)
  {
    if Cosigned(p, t.custody, t.m, t.admits).Ok? {
      CosignAddsOne(p, t.custody, t.m, t.admits);
    }
  }

  /**
   * Whatever partial a ceremony starts from, well counted or not, the holders it ends with are
   * those it began with and one more per accepted turn, over the same envelope.
   */
  lemma {:induction false} CeremonyCounts(partial: Conferral, turns: seq<Turn>)
    ensures |Holders(Ceremony(partial, turns))| == |Holders(partial)| + Accepted(partial, turns)
    ensures Ceremony(partial, turns).envelope == partial.envelope
    ensures Ceremony(partial, turns).contentHash == partial.contentHash
  {
    if turns != [] {
      var pre, t := turns[..|turns| - 1], turns[|turns| - 1];
      CeremonyCounts(partial, pre);
      if Cosigned(Ceremony(partial, pre), t.custody, t.m, t.admits).Ok? {
        CosignAddsOne(Ceremony(partial, pre), t.custody, t.m, t.admits);
      }
    }
  }

  /** Turn `k` of the ceremony stored `row`. */
  ghost predicate StoredAt(partial: Conferral, turns: seq<Turn>, k: int, row: Conferral)
  {
    0 <= k < |turns| && row in StoredIn(Ceremony(partial, turns[..k]), turns[k])
  }

  lemma {:induction false} StoredInATurn(partial: Conferral, turns: seq<Turn>, row: Conferral) returns (k: int)
    requires row in StoredBy(partial, turns)
    ensures StoredAt(partial, turns, k, row)
  {
    var n := |turns| - 1;
    if row in StoredBy(partial, turns[..n]) {
      k := StoredInATurn(partial, turns[..n], row);
      assert turns[..n][..k] == turns[..k];
    } else {
      k := n;
    }
  }

  /** While the holders counted stay below every quorum asked, a ceremony stores nothing. */
  lemma {:induction false} NothingStoredBelowQuorum(partial: Conferral, turns: seq<Turn>)
    requires forall t | t in turns :: |Holders(partial)| + Accepted(partial, turns) < Needed(t.m)
    ensures StoredBy(partial, turns) == []
  {
    if turns != [] {
      var pre, t := turns[..|turns| - 1], turns[|turns| - 1];
      assert t in turns && forall u | u in pre :: u in turns;
      NothingStoredBelowQuorum(partial, pre);
      CeremonyCounts(partial, pre);
      TurnStores(Ceremony(partial, pre), t);
    }
  }

  /**
   * Every row a ceremony stores was stored in a turn, at the quorum asked in that very turn,
   * carrying the first holder's envelope.
   */
  lemma StoredAtItsQuorum(partial: Conferral, turns: seq<Turn>, row: Conferral)
    requires row in StoredBy(partial, turns)
    ensures row.envelope == partial.envelope && row.contentHash == HashOf(partial.envelope)
    ensures exists k ::
      && StoredAt(partial, turns, k, row) && |Holders(row)| >= Needed(turns[k].m)
      && |Holders(row)| == |Holders(partial)| + Accepted(partial, turns[..k]) + 1
  {
    var k := StoredInATurn(partial, turns, row);
    var p := Ceremony(partial, turns[..k]);
    CeremonyCounts(partial, turns[..k]);
    TurnStores(p, turns[k]);
    CosignAddsOne(p, turns[k].custody, turns[k].m, turns[k].admits);
  }

  // ---- who can adopt -------------------------------------------------------

  /** Every turn is at quorum `m`, before an admitting store, and by one of `holders` if its custody opens. */
  predicate TurnsBy(turns: seq<Turn>, holders: set<Id>, m: nat)
  {
    forall t | t in turns :: t.m == m && t.admits && (t.custody.Some? ==> t.custody.value.keyId in holders)
  }

  lemma {:induction false} OnlyTheseHolders(partial: Conferral, turns: seq<Turn>, holders: set<Id>, m: nat)
    requires TurnsBy(turns, holders, m)
    ensures Holders(Ceremony(partial, turns)) <= Holders(partial) + holders
    ensures forall row | row in StoredBy(partial, turns) ::
      && Holders(row) <= Holders(partial) + holders && |Holders(row)| >= Needed(m) && |Holders(row)| > |Holders(partial)|
  {
    if turns != [] {
      var pre, t := turns[..|turns| - 1], turns[|turns| - 1];
      assert t in turns && forall u | u in pre :: u in turns;
      OnlyTheseHolders(partial, pre, holders, m);
      CeremonyCounts(partial, pre);
      var p := Ceremony(partial, pre);
      if Cosigned(p, t.custody, t.m, t.admits).Ok? {
        HoldersGrow(p, t.custody.value);
        CosignAddsOne(p, t.custody, t.m, t.admits);
      }
    }
  }

  /** These turns leave a partial signed by `holders` as well, and stored if that is a quorum. */
  ghost predicate AllSigned(partial: Conferral, turns: seq<Turn>, holders: set<Id>, m: nat)
  {
    && TurnsBy(turns, holders, m) && Holders(Ceremony(partial, turns)) == Holders(partial) + holders
    && Ceremony(partial, turns).contentHash == HashOf(Ceremony(partial, turns).envelope)
    && (holders != {} && |Holders(partial) + holders| >= Needed(m) ==> StoredBy(partial, turns) != [])
  }

  /** Each of `holders` who has not signed yet takes a turn. */
  lemma EveryoneSigns(partial: Conferral, holders: set<Id>, m: nat) returns (turns: seq<Turn>)
    requires partial.contentHash == HashOf(partial.envelope) && holders !! Holders(partial)
    ensures AllSigned(partial, turns, holders, m)
    decreases holders
  {
    if holders == {} {
      turns := [];
    } else {
      var id :| id in holders;
      var before := EveryoneSigns(partial, holders - {id}, m);
      turns := before + [Turn(Some(Scrub(id, "")), m, true)];
      PutBack(Holders(partial), holders, id);
      OneMoreSigns(partial, before, holders - {id}, holders, id, m);
    }
  }

  lemma OneMoreSigns(partial: Conferral, turns: seq<Turn>, signed: set<Id>, holders: set<Id>, id: Id, m: nat)
    requires AllSigned(partial, turns, signed, m) && id in holders && signed <= holders && id !in Holders(partial) + signed
    requires Holders(partial) + signed + {id} == Holders(partial) + holders
    ensures AllSigned(partial, turns + [Turn(Some(Scrub(id, "")), m, true)], holders, m)
  {
    var t := Turn(Some(Scrub(id, "")), m, true);
    NewHolderSigns(Ceremony(partial, turns), id, m);
    LastTurn(partial, turns, t);
    assert forall u | u in turns + [t] :: u in turns || u == t;
  }

  lemma PutBack(a: set<Id>, b: set<Id>, id: Id)
    requires id in b
    ensures a + (b - {id}) + {id} == a + b
  {}

  lemma LastTurn(partial: Conferral, turns: seq<Turn>, t: Turn)
    ensures
      var p, c := Ceremony(partial, turns), Cosigned(Ceremony(partial, turns), t.custody, t.m, t.admits);
      && Ceremony(partial, turns + [t]) == (if c.Ok? then c.value.partial else p)
      && StoredBy(partial, turns + [t]) == StoredBy(partial, turns) + StoredIn(p, t)
  {
    assert (turns + [t])[..|turns|] == turns;
  }

  lemma NewHolderSigns(p: Conferral, id: Id, m: nat)
    requires p.contentHash == HashOf(p.envelope) && id !in Holders(p)
    ensures
      var t := Turn(Some(Scrub(id, "")), m, true);
      && Cosigned(p, t.custody, t.m, t.admits).Ok?
      && var next := Cosigned(p, t.custody, t.m, t.admits).value.partial;
      && Holders(next) == Holders(p) + {id} && next.contentHash == HashOf(next.envelope)
      && (StoredIn(p, t) != [] <==> |Holders(p) + {id}| >= Needed(m))
  {
    HoldersGrow(p, Scrub(id, ""));
  }

  ghost predicate Adopts(partial: Conferral, turns: seq<Turn>, holders: set<Id>, m: nat)
  {
    TurnsBy(turns, holders, m) && StoredBy(partial, turns) != []
  }

  /**
   * At a fixed quorum `m` and before an admitting store, some turns of `holders` adopt a
   * proposal exactly when they and its proposer are at least `m`, and at least two: proposing
   * stores nothing and the proposer may not cosign.  A family of one never adopts.
   */
  lemma AdoptedIff(conferrable: set<string>, p: Proposal, custody: Custody, holders: set<Id>, m: nat)
    requires Propose(conferrable, p, custody).Ok?
    ensures
      var partial := Propose(conferrable, p, custody).value;
      (exists turns :: Adopts(partial, turns, holders, m)) <==>
      |holders + {Trim(p.holder)}| >= Needed(m) && |holders + {Trim(p.holder)}| >= 2
  {
    var partial := Propose(conferrable, p, custody).value;
    assert ScrubIds(partial) == [Trim(p.holder)];
    assert Holders(partial) == {Trim(p.holder)};
    var all := holders + {Trim(p.holder)};
    if turns :| Adopts(partial, turns, holders, m) {
      OnlyTheseHolders(partial, turns, holders, m);
      var row := StoredBy(partial, turns)[0];
      assert row in StoredBy(partial, turns);
      SubsetCardinality(Holders(row), all);
    }
    if |all| >= Needed(m) && |all| >= 2 {
      var rest := holders - {Trim(p.holder)};
      assert Holders(partial) + rest == all;
      var turns := EveryoneSigns(partial, rest, m);
      assert rest != {};
      assert Adopts(partial, turns, holders, m);
    }
  }
}
