// What one release token can end, across all nodes and all runs: one latch instance, and more
// than once only through handlers that overlapped or a confirmation that wrote it back.

module TokenEndings {
  import opened Prelude
  import opened Accord
  import opened HaltRecords
  import opened Releases
  import opened HaltPlane
  import opened HaltNetwork

  // ---- where a latch instance is -------------------------------------------

  /** Confirmation `p` on node `n` is about to write an instance with id `l`. */
  ghost predicate CarriedBy(net: Net, n: Id, p: nat, l: Id)
  {
    && n in net.nodes && p in net.nodes[n].procs && net.nodes[n].procs[p].Confirming?
    && net.nodes[n].procs[p].rec.latchId == Some(l)
  }

  ghost predicate Carried(net: Net, n: Id, l: Id)
  {
    exists p :: CarriedBy(net, n, p, l)
  }

  /** A token handler on node `n` read an instance with id `l`. */
  ghost predicate BeingEnded(net: Net, n: Id, p: nat, l: Id)
  {
    && n in net.nodes && p in net.nodes[n].procs && net.nodes[n].procs[p].Honoring?
    && net.nodes[n].procs[p].rec.latchId == Some(l)
  }

  /** Node `n` minted id `l`, and `rec` is the record it wrote then, confirmed or not. */
  ghost predicate Minted(net: Net, n: Id, l: Id, rec: HaltRecord)
  {
    l in net.minted && net.minted[l].node == n && net.minted[l].rec == rec.(confirmed := None)
  }

  /** A latch id is only ever on the node that minted it, and there it is the record written then. */
  ghost predicate InPlace(net: Net)
  {
    && (forall n, l | OnDisk(net, n, l) :: Minted(net, n, l, net.nodes[n].latch.rec))
    && (forall n, p, l | CarriedBy(net, n, p, l) :: Minted(net, n, l, net.nodes[n].procs[p].rec))
    && (forall n, p, l | BeingEnded(net, n, p, l) :: Minted(net, n, l, net.nodes[n].procs[p].rec))
    && (forall k, l | 0 <= k < |net.endings| && net.endings[k].read.latchId == Some(l) ::
          Minted(net, net.endings[k].node, l, net.endings[k].read))
  }

  lemma DiskMoves(mesh: Mesh, net: Net, step: NetStep, n: Id, l: Id)
    requires CanStep(mesh, net, step) && OnDisk(NetEffect(mesh, net, step), n, l)
    ensures
      var rec := NetEffect(mesh, net, step).nodes[n].latch.rec;
      || (OnDisk(net, n, l) && net.nodes[n].latch.rec == rec)
      || (step.n == n && step.Local?
          && ((step.step.WriteHalt? && l !in net.minted && Minted(NetEffect(mesh, net, step), n, l, rec))
              || (step.step.Confirm? && step.step.rec == rec && CarriedBy(net, n, step.step.p, l)
                  && net.nodes[n].procs[step.step.p].rec == rec)))
  {}

  lemma CarriedMoves(mesh: Mesh, net: Net, step: NetStep, n: Id, p: nat, l: Id)
    requires CanStep(mesh, net, step) && CarriedBy(NetEffect(mesh, net, step), n, p, l)
    ensures
      var rec := NetEffect(mesh, net, step).nodes[n].procs[p].rec;
      || (CarriedBy(net, n, p, l) && net.nodes[n].procs[p].rec == rec)
      || (OnDisk(net, n, l) && net.nodes[n].latch.rec.(confirmed := None) == rec.(confirmed := None))
  {
    if step.n == n {
      ConfirmingMoves(mesh.cfgs[n], net.nodes[n], NodeStep(mesh, step), p);
    }
  }

  lemma ConfirmingMoves(cfg: Config, s: Node, step: Step, p: nat)
    requires Enabled(cfg, s, step) && p in Effect(cfg, s, step).procs && Effect(cfg, s, step).procs[p].Confirming?
    ensures
      var rec := Effect(cfg, s, step).procs[p].rec;
      || (p in s.procs && s.procs[p].Confirming? && s.procs[p].rec == rec)
      || (s.latch.Holds? && s.latch.rec.(confirmed := None) == rec.(confirmed := None))
  {}

  lemma TokenHandlerMoves(cfg: Config, s: Node, step: Step, p: nat)
    requires Enabled(cfg, s, step)
    requires p in Effect(cfg, s, step).procs && Effect(cfg, s, step).procs[p].Honoring?
    ensures
      if step.ReadToken? && step.p == p then p !in s.procs && s.latch == Holds(Effect(cfg, s, step).procs[p].rec)
      else p in s.procs && s.procs[p].Honoring? && s.procs[p].rec == Effect(cfg, s, step).procs[p].rec
  {}

  lemma ReadTimeMoves(mesh: Mesh, net: Net, step: NetStep, n: Id, p: nat)
    requires CanStep(mesh, net, step)
    ensures ReadTime(NetEffect(mesh, net, step), n, p)
         == if step.n == n && NodeStep(mesh, step).ReadToken? && NodeStep(mesh, step).p == p then net.time else ReadTime(net, n, p)
  {}

  lemma BeingEndedMoves(mesh: Mesh, net: Net, step: NetStep, n: Id, p: nat, l: Id)
    requires CanStep(mesh, net, step) && BeingEnded(NetEffect(mesh, net, step), n, p, l)
    ensures if BeingEnded(net, n, p, l) then ReadTime(NetEffect(mesh, net, step), n, p) == ReadTime(net, n, p)
            else OnDisk(net, n, l) && ReadTime(NetEffect(mesh, net, step), n, p) == net.time
    ensures NetEffect(mesh, net, step).nodes[n].procs[p].rec ==
            if BeingEnded(net, n, p, l) then net.nodes[n].procs[p].rec else net.nodes[n].latch.rec
  {
    ReadTimeMoves(mesh, net, step, n, p);
    if step.n == n {
      TokenHandlerMoves(mesh.cfgs[n], net.nodes[n], NodeStep(mesh, step), p);
    }
  }

  /** The removal took away instance `l`. */
  predicate Took(e: Ending, l: Id)
  {
    e.removed.Some? && e.removed.value.latchId == Some(l)
  }

  lemma EndingMoves(mesh: Mesh, net: Net, step: NetStep)
    requires CanStep(mesh, net, step)
    ensures
      var net' := NetEffect(mesh, net, step);
      net'.endings == net.endings ||
      (&& step.Local? && step.step.Remove? && !net'.nodes[step.n].latch.Holds?
       && |net'.endings| == |net.endings| + 1 && net'.endings[..|net.endings|] == net.endings
       && var e := net'.endings[|net.endings|];
          && e.node == step.n && e.endedAt == net.time && e.readAt == ReadTime(net, step.n, step.step.p)
          && (forall l | e.read.latchId == Some(l) ::
                BeingEnded(net, step.n, step.step.p, l) && e.read == net.nodes[step.n].procs[step.step.p].rec)
          && (forall l | Took(e, l) :: OnDisk(net, step.n, l)))
  {}

  lemma MintedGrows(mesh: Mesh, net: Net, step: NetStep, n: Id, l: Id, rec: HaltRecord)
    requires CanStep(mesh, net, step) && Minted(net, n, l, rec)
    ensures Minted(NetEffect(mesh, net, step), n, l, rec)
  {}

  lemma InPlaceKept(mesh: Mesh, net: Net, step: NetStep)
    requires CanStep(mesh, net, step) && InPlace(net)
    ensures InPlace(NetEffect(mesh, net, step))
  {
    var net' := NetEffect(mesh, net, step);
    forall n, l, rec | Minted(net, n, l, rec) ensures Minted(net', n, l, rec) { MintedGrows(mesh, net, step, n, l, rec); }
    forall n, l | OnDisk(net', n, l) ensures Minted(net', n, l, net'.nodes[n].latch.rec) {
      DiskMoves(mesh, net, step, n, l);
    }
    forall n, p, l | CarriedBy(net', n, p, l) ensures Minted(net', n, l, net'.nodes[n].procs[p].rec) {
      CarriedMoves(mesh, net, step, n, p, l);
    }
    forall n, p, l | BeingEnded(net', n, p, l) ensures Minted(net', n, l, net'.nodes[n].procs[p].rec) {
      BeingEndedMoves(mesh, net, step, n, p, l);
    }
    EndingMoves(mesh, net, step);
    forall k, l | 0 <= k < |net'.endings| && net'.endings[k].read.latchId == Some(l)
      ensures Minted(net', net'.endings[k].node, l, net'.endings[k].read)
    {
      if k < |net.endings| {
        assert net'.endings[k] == net.endings[k];
      }
    }
  }

  // ---- endings and revivals in time ----------------------------------------

  /** A confirmation wrote instance `l` back after `from` and before `until`. */
  ghost predicate RevivedBetween(net: Net, l: Id, since: int, until: int)
  {
    exists v :: 0 <= v < |net.revivals| && net.revivals[v].latchId == Some(l) && since < net.revivals[v].at < until
  }

  ghost predicate ReadIn(net: Net, k: int, l: Id)
  {
    0 <= k < |net.endings| && net.endings[k].read.latchId == Some(l)
  }

  /** Ending `k` of instance `l` leaves `l` off the disk until it is written back. */
  ghost predicate OffDisk(net: Net, k: int, l: Id)
  {
    ReadIn(net, k, l) ==>
      && net.endings[k].endedAt < net.time
      && (forall n | OnDisk(net, n, l) :: RevivedBetween(net, l, net.endings[k].endedAt, net.time))
      && (forall n, p | BeingEnded(net, n, p, l) ::
            ReadTime(net, n, p) < net.endings[k].endedAt || RevivedBetween(net, l, net.endings[k].endedAt, ReadTime(net, n, p)))
  }

  /** Ending `b` read its instance before ending `a` removed anything, or after it was written back. */
  ghost predicate OverlapsOrRevived(net: Net, a: int, b: int, l: Id)
    requires 0 <= a < |net.endings| && 0 <= b < |net.endings|
  {
    net.endings[b].readAt < net.endings[a].endedAt || RevivedBetween(net, l, net.endings[a].endedAt, net.endings[b].readAt)
  }

  ghost predicate Separated(net: Net, a: int, b: int, l: Id)
  {
    0 <= a < b < |net.endings| && ReadIn(net, a, l) ==>
      && (ReadIn(net, b, l) ==> OverlapsOrRevived(net, a, b, l))
      && (Took(net.endings[b], l) ==>
            RevivedBetween(net, l, net.endings[a].endedAt, net.endings[b].endedAt))
  }

  lemma RevivalsMove(mesh: Mesh, net: Net, step: NetStep, l: Id, since: int, until: int)
    requires CanStep(mesh, net, step)
    ensures RevivedBetween(net, l, since, until) ==> RevivedBetween(NetEffect(mesh, net, step), l, since, until)
    ensures
      (step.Local? && step.step.Confirm? && step.step.rec.latchId == Some(l) && !OnDisk(net, step.n, l) && since < net.time < until)
      ==> RevivedBetween(NetEffect(mesh, net, step), l, since, until)
  {
    var net' := NetEffect(mesh, net, step);
    if v :| 0 <= v < |net.revivals| && net.revivals[v].latchId == Some(l) && since < net.revivals[v].at < until {
      assert net'.revivals[v] == net.revivals[v];
    }
    if step.Local? && step.step.Confirm? && step.step.rec.latchId == Some(l) && !OnDisk(net, step.n, l) {
      assert net'.revivals[|net.revivals|].at == net.time;
    }
  }

  lemma Later(net: Net, l: Id, since: int, until: int, later: int)
    requires RevivedBetween(net, l, since, until) && until <= later
    ensures RevivedBetween(net, l, since, later)
  {}

  lemma DiskStaysOff(mesh: Mesh, net: Net, step: NetStep, k: int, l: Id, n: Id)
    requires CanStep(mesh, net, step) && InPlace(net) && OffDisk(net, k, l) && ReadIn(net, k, l)
    requires OnDisk(NetEffect(mesh, net, step), n, l)
    ensures RevivedBetween(NetEffect(mesh, net, step), l, net.endings[k].endedAt, net.time + 1)
  {
    DiskMoves(mesh, net, step, n, l);
    if OnDisk(net, n, l) {
      RevivalsMove(mesh, net, step, l, net.endings[k].endedAt, net.time);
      Later(NetEffect(mesh, net, step), l, net.endings[k].endedAt, net.time, net.time + 1);
    } else {
      RevivalsMove(mesh, net, step, l, net.endings[k].endedAt, net.time + 1);
    }
  }

  lemma HandlersStayApart(mesh: Mesh, net: Net, step: NetStep, k: int, l: Id, n: Id, p: nat)
    requires CanStep(mesh, net, step) && OffDisk(net, k, l) && ReadIn(net, k, l)
    requires BeingEnded(NetEffect(mesh, net, step), n, p, l)
    ensures
      var net' := NetEffect(mesh, net, step);
      ReadTime(net', n, p) < net.endings[k].endedAt || RevivedBetween(net', l, net.endings[k].endedAt, ReadTime(net', n, p))
  {
    BeingEndedMoves(mesh, net, step, n, p, l);
    if BeingEnded(net, n, p, l) {
      RevivalsMove(mesh, net, step, l, net.endings[k].endedAt, ReadTime(net, n, p));
    } else {
      RevivalsMove(mesh, net, step, l, net.endings[k].endedAt, net.time);
    }
  }

  /** A new ending leaves its node's disk empty, and no other node may hold the instance it read. */
  lemma NewEndingIsOff(mesh: Mesh, net: Net, step: NetStep, k: int, l: Id)
    requires CanStep(mesh, net, step) && InPlace(net) && ReadIn(NetEffect(mesh, net, step), k, l) && k == |net.endings|
    requires forall n, p | BeingEnded(net, n, p, l) :: ReadTime(net, n, p) < net.time
    ensures OffDisk(NetEffect(mesh, net, step), k, l)
  {
    var net' := NetEffect(mesh, net, step);
    EndingMoves(mesh, net, step);
    InPlaceKept(mesh, net, step);
    assert Minted(net', step.n, l, net'.endings[k].read);
    assert forall n :: !OnDisk(net', n, l);
    forall n, p | BeingEnded(net', n, p, l)
      ensures ReadTime(net', n, p) < net.time
    {
      BeingEndedMoves(mesh, net, step, n, p, l);
    }
  }

  lemma OffDiskKept(mesh: Mesh, net: Net, step: NetStep, k: int, l: Id)
    requires CanStep(mesh, net, step) && InPlace(net) && OffDisk(net, k, l)
    requires forall n, p | BeingEnded(net, n, p, l) :: ReadTime(net, n, p) < net.time
    ensures OffDisk(NetEffect(mesh, net, step), k, l)
  {
    var net' := NetEffect(mesh, net, step);
    EndingMoves(mesh, net, step);
    if ReadIn(net', k, l) {
      if k == |net.endings| {
        NewEndingIsOff(mesh, net, step, k, l);
      } else {
        assert net'.endings[k] == net.endings[k];
        forall n | OnDisk(net', n, l)
          ensures RevivedBetween(net', l, net'.endings[k].endedAt, net'.time)
        {
          DiskStaysOff(mesh, net, step, k, l, n);
        }
        forall n, p | BeingEnded(net', n, p, l)
          ensures ReadTime(net', n, p) < net'.endings[k].endedAt
               || RevivedBetween(net', l, net'.endings[k].endedAt, ReadTime(net', n, p))
        {
          HandlersStayApart(mesh, net, step, k, l, n, p);
        }
      }
    }
  }

  lemma SeparatedKept(mesh: Mesh, net: Net, step: NetStep, a: int, b: int, l: Id)
    requires CanStep(mesh, net, step) && OffDisk(net, a, l) && Separated(net, a, b, l)
    ensures Separated(NetEffect(mesh, net, step), a, b, l)
  {
    var net' := NetEffect(mesh, net, step);
    EndingMoves(mesh, net, step);
    if 0 <= a < b < |net'.endings| && ReadIn(net', a, l) {
      assert net'.endings[a] == net.endings[a];
      var x := net.endings[a];
      if b < |net.endings| {
        assert net'.endings[b] == net.endings[b];
        RevivalsMove(mesh, net, step, l, x.endedAt, net.endings[b].readAt);
        RevivalsMove(mesh, net, step, l, x.endedAt, net.endings[b].endedAt);
      } else {
        RevivalsMove(mesh, net, step, l, x.endedAt, net'.endings[b].readAt);
        RevivalsMove(mesh, net, step, l, x.endedAt, net.time);
      }
    }
  }

  lemma {:induction false} AlwaysInPlace(mesh: Mesh, run: seq<NetStep>)
    requires NetValid(mesh, run)
    ensures InPlace(NetAfter(mesh, run))
  {
    if run != [] {
      AlwaysInPlace(mesh, run[..|run| - 1]);
      InPlaceKept(mesh, NetAfter(mesh, run[..|run| - 1]), run[|run| - 1]);
    }
  }

  lemma {:induction false} ReadsArePast(mesh: Mesh, run: seq<NetStep>, n: Id, p: nat, l: Id)
    requires NetValid(mesh, run) && BeingEnded(NetAfter(mesh, run), n, p, l)
    ensures ReadTime(NetAfter(mesh, run), n, p) < NetAfter(mesh, run).time
  {
    if run != [] {
      var pre := run[..|run| - 1];
      BeingEndedMoves(mesh, NetAfter(mesh, pre), run[|run| - 1], n, p, l);
      if BeingEnded(NetAfter(mesh, pre), n, p, l) {
        ReadsArePast(mesh, pre, n, p, l);
      }
    }
  }

  lemma {:induction false} EndingsInTime(mesh: Mesh, run: seq<NetStep>, a: int, b: int, l: Id)
    requires NetValid(mesh, run)
    ensures OffDisk(NetAfter(mesh, run), a, l) && Separated(NetAfter(mesh, run), a, b, l)
  {
    if run != [] {
      var pre := run[..|run| - 1];
      EndingsInTime(mesh, pre, a, b, l);
      AlwaysInPlace(mesh, pre);
      forall n, p | BeingEnded(NetAfter(mesh, pre), n, p, l)
        ensures ReadTime(NetAfter(mesh, pre), n, p) < NetAfter(mesh, pre).time
      {
        ReadsArePast(mesh, pre, n, p, l);
      }
      OffDiskKept(mesh, NetAfter(mesh, pre), run[|run| - 1], a, l);
      SeparatedKept(mesh, NetAfter(mesh, pre), run[|run| - 1], a, b, l);
    }
  }

  // ---- what a token is good for --------------------------------------------

  /** A token handler holds a line for a token that verified for the record it read. */
  ghost predicate VouchedFor(token: ReleaseToken, rec: HaltRecord)
  {
    exists auth, at, wallClock :: VerifyReleaseToken(rec, token, auth, at, wallClock).Ok?
  }

  ghost predicate TokensVouched(net: Net)
  {
    && (forall n, p | n in net.nodes && p in net.nodes[n].procs && net.nodes[n].procs[p].Honoring? ::
          && net.nodes[n].procs[p].line.Honored?
          && VouchedFor(net.nodes[n].procs[p].line.token, net.nodes[n].procs[p].rec))
    && (forall k | 0 <= k < |net.endings| :: VouchedFor(net.endings[k].token, net.endings[k].read))
  }

  lemma HonoringMoves(cfg: Config, s: Node, step: Step, p: nat)
    requires Enabled(cfg, s, step)
    requires p in Effect(cfg, s, step).procs && Effect(cfg, s, step).procs[p].Honoring?
    ensures
      var proc := Effect(cfg, s, step).procs[p];
      if p in s.procs && s.procs[p].Honoring? then proc.line == s.procs[p].line && proc.rec == s.procs[p].rec
      else proc.line.Honored? && VouchedFor(proc.line.token, proc.rec)
  {
    if step.ReadToken? && step.p == p {
      assert VerifyReleaseToken(s.latch.rec, step.token, step.auth, step.at, step.wallClock).Ok?;
    }
  }

  lemma TokensVouchedKept(mesh: Mesh, net: Net, step: NetStep)
    requires CanStep(mesh, net, step) && TokensVouched(net)
    ensures TokensVouched(NetEffect(mesh, net, step))
  {
    var net' := NetEffect(mesh, net, step);
    forall n, p | n in net'.nodes && p in net'.nodes[n].procs && net'.nodes[n].procs[p].Honoring?
      ensures net'.nodes[n].procs[p].line.Honored?
      ensures VouchedFor(net'.nodes[n].procs[p].line.token, net'.nodes[n].procs[p].rec)
    {
      if n == step.n {
        HonoringMoves(mesh.cfgs[n], net.nodes[n], NodeStep(mesh, step), p);
      }
    }
  }

  lemma {:induction false} TokensStayVouched(mesh: Mesh, run: seq<NetStep>)
    requires NetValid(mesh, run)
    ensures TokensVouched(NetAfter(mesh, run))
  {
    if run != [] {
      TokensStayVouched(mesh, run[..|run| - 1]);
      TokensVouchedKept(mesh, NetAfter(mesh, run[..|run| - 1]), run[|run| - 1]);
    }
  }

  /**
   * Across all nodes and all runs, with fresh latch ids: the endings of one token are all of
   * handlers that read one latch instance, on one node.  A later one removed that instance only
   * if a confirmation had written it back since the earlier; and there is a later one at all
   * only if its handler read the latch before the earlier removed it, or after such a revival.
   */
  lemma TokenEndsOneInstance(mesh: Mesh, run: seq<NetStep>, a: nat, b: nat)
    requires NetValid(mesh, run) && a < b < |NetAfter(mesh, run).endings|
    requires NetAfter(mesh, run).endings[a].token == NetAfter(mesh, run).endings[b].token
    ensures
      var net, x, y := NetAfter(mesh, run), NetAfter(mesh, run).endings[a], NetAfter(mesh, run).endings[b];
      && BindingOf(x.read) == BindingOf(y.read) && BindingOf(x.read).Some? && x.read.latchId.Some? && x.node == y.node
      && OverlapsOrRevived(net, a, b, x.read.latchId.value)
      && (Took(y, x.read.latchId.value) ==> RevivedBetween(net, x.read.latchId.value, x.endedAt, y.endedAt))
  {
    TokensStayVouched(mesh, run);
    AlwaysInPlace(mesh, run);
    var net, x, y := NetAfter(mesh, run), NetAfter(mesh, run).endings[a], NetAfter(mesh, run).endings[b];
    var auth1, at1, w1 :| VerifyReleaseToken(x.read, x.token, auth1, at1, w1).Ok?;
    var auth2, at2, w2 :| VerifyReleaseToken(y.read, y.token, auth2, at2, w2).Ok?;
    TokenNamesOneLatch(x.token, x.read, auth1, at1, w1, y.read, auth2, at2, w2);
    EndingsInTime(mesh, run, a, b, x.read.latchId.value);
  }
}
