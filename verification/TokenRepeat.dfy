// When a release token that ended a latch can end one again: exactly while a handler of it is
// part-way, or its latch instance is on disk or about to be written back there.

module TokenRepeats {
  import opened Prelude
  import opened Accord
  import opened HaltRecords
  import opened Releases
  import opened HaltPlane
  import opened HaltRelays
  import opened HaltNetwork
  import opened TokenEndings

  /** Ending `k` is one of token `t`. */
  ghost predicate EndsAt(net: Net, t: ReleaseToken, k: int)
  {
    0 <= k < |net.endings| && net.endings[k].token == t
  }

  /** Handler `p` on node `n` has accepted token `t` and has not removed the latch yet. */
  ghost predicate Honors(net: Net, n: Id, p: nat, t: ReleaseToken)
  {
    && n in net.nodes && p in net.nodes[n].procs && net.nodes[n].procs[p].Honoring?
    && net.nodes[n].procs[p].line.Honored? && net.nodes[n].procs[p].line.token == t
  }

  ghost predicate BeingHonored(net: Net, n: Id, t: ReleaseToken)
  {
    exists p :: Honors(net, n, p, t)
  }

  // ---- no more endings -----------------------------------------------------

  /** Instance `l` is nowhere and nobody honors token `t`. */
  ghost predicate Over(net: Net, t: ReleaseToken, l: Id)
  {
    && l in net.minted
    && (forall n :: !OnDisk(net, n, l) && !Carried(net, n, l))
    && (forall n, p :: !Honors(net, n, p, t))
  }

  lemma HonorsMoves(mesh: Mesh, net: Net, step: NetStep, n: Id, p: nat, t: ReleaseToken)
    requires CanStep(mesh, net, step) && Honors(NetEffect(mesh, net, step), n, p, t)
    ensures Honors(net, n, p, t) || (n == step.n && net.nodes[n].latch.Holds? && VouchedFor(t, net.nodes[n].latch.rec))
  {
    if n == step.n {
      HonoringMoves(mesh.cfgs[n], net.nodes[n], NodeStep(mesh, step), p);
      TokenHandlerMoves(mesh.cfgs[n], net.nodes[n], NodeStep(mesh, step), p);
    }
  }

  lemma VouchedNamesOne(t: ReleaseToken, rec1: HaltRecord, rec2: HaltRecord)
    requires VouchedFor(t, rec1) && VouchedFor(t, rec2)
    ensures rec1.latchId == rec2.latchId
  {
    var auth1, at1, w1 :| VerifyReleaseToken(rec1, t, auth1, at1, w1).Ok?;
    var auth2, at2, w2 :| VerifyReleaseToken(rec2, t, auth2, at2, w2).Ok?;
    TokenNamesOneLatch(t, rec1, auth1, at1, w1, rec2, auth2, at2, w2);
  }

  lemma NotWrittenBack(mesh: Mesh, net: Net, step: NetStep, n: Id, l: Id)
    requires CanStep(mesh, net, step) && l in net.minted && !OnDisk(net, n, l) && !Carried(net, n, l)
    ensures !OnDisk(NetEffect(mesh, net, step), n, l) && !Carried(NetEffect(mesh, net, step), n, l)
  {
    assert forall p :: !CarriedBy(net, n, p, l);
    if OnDisk(NetEffect(mesh, net, step), n, l) {
      DiskMoves(mesh, net, step, n, l);
    }
    if p :| CarriedBy(NetEffect(mesh, net, step), n, p, l) {
      CarriedMoves(mesh, net, step, n, p, l);
    }
  }

  lemma OverKept(mesh: Mesh, net: Net, step: NetStep, t: ReleaseToken, l: Id, rec: HaltRecord)
    requires CanStep(mesh, net, step) && Over(net, t, l) && VouchedFor(t, rec) && rec.latchId == Some(l)
    ensures Over(NetEffect(mesh, net, step), t, l)
  {
    forall n
      ensures !OnDisk(NetEffect(mesh, net, step), n, l) && !Carried(NetEffect(mesh, net, step), n, l)
    {
      NotWrittenBack(mesh, net, step, n, l);
    }
    forall n, p
      ensures !Honors(NetEffect(mesh, net, step), n, p, t)
    {
      if Honors(NetEffect(mesh, net, step), n, p, t) {
        HonorsMoves(mesh, net, step, n, p, t);
        assert !Honors(net, n, p, t) && !OnDisk(net, n, l);
        VouchedNamesOne(t, rec, net.nodes[n].latch.rec);
      }
    }
  }

  lemma OverEndsNothing(mesh: Mesh, net: Net, step: NetStep, t: ReleaseToken, l: Id, b: int)
    requires CanStep(mesh, net, step) && Over(net, t, l) && |net.endings| <= b
    ensures !EndsAt(NetEffect(mesh, net, step), t, b)
  {
    if step.Local? && step.step.Remove? {
      assert !Honors(net, step.n, step.step.p, t);
    }
  }

  lemma {:induction false} StaysOver(
    mesh: Mesh, run: seq<NetStep>, longer: seq<NetStep>, t: ReleaseToken, l: Id, rec: HaltRecord)
    requires NetValid(mesh, longer) && run <= longer && Over(NetAfter(mesh, run), t, l)
    requires VouchedFor(t, rec) && rec.latchId == Some(l)
    ensures Over(NetAfter(mesh, longer), t, l)
    ensures forall b | |NetAfter(mesh, run).endings| <= b :: !EndsAt(NetAfter(mesh, longer), t, b)
    decreases |longer|
  {
    if longer == run {
    } else {
      var pre, step := longer[..|longer| - 1], longer[|longer| - 1];
      StaysOver(mesh, run, pre, t, l, rec);
      EndingMoves(mesh, NetAfter(mesh, pre), step);
      OverKept(mesh, NetAfter(mesh, pre), step, t, l, rec);
      forall b | |NetAfter(mesh, run).endings| <= b
        ensures !EndsAt(NetAfter(mesh, longer), t, b)
      {
        if b < |NetAfter(mesh, pre).endings| {
          assert !EndsAt(NetAfter(mesh, pre), t, b);
        } else {
          OverEndsNothing(mesh, NetAfter(mesh, pre), step, t, l, b);
        }
      }
    }
  }

  /** Whoever honors the token, or holds the instance, is on the node that minted the instance. */
  lemma OverWhenOverHere(mesh: Mesh, run: seq<NetStep>, t: ReleaseToken, l: Id, rec: HaltRecord, n: Id)
    requires NetValid(mesh, run) && VouchedFor(t, rec) && Minted(NetAfter(mesh, run), n, l, rec) && rec.latchId == Some(l)
    requires
      var net := NetAfter(mesh, run);
      !BeingHonored(net, n, t) && !Carried(net, n, l) && !OnDisk(net, n, l)
    ensures Over(NetAfter(mesh, run), t, l)
  {
    var net := NetAfter(mesh, run);
    AlwaysInPlace(mesh, run);
    TokensStayVouched(mesh, run);
    forall v, p
      ensures !Honors(net, v, p, t)
    {
      if Honors(net, v, p, t) {
        VouchedNamesOne(t, rec, net.nodes[v].procs[p].rec);
        assert BeingEnded(net, v, p, l);
      }
    }
    forall v
      ensures !Carried(net, v, l)
    {
      if p :| CarriedBy(net, v, p, l) {
        assert Minted(net, v, l, net.nodes[v].procs[p].rec);
      }
    }
  }

  // ---- a halt can always be latched again ----------------------------------

  predicate IsHalt(mesh: Mesh, row: Row)
  {
    row.inv.kind.Constitutional? && QuorumMet(row, mesh.roster)
  }

  /** Node `n` has a place for a latch, and some row reaches the halt threshold. */
  ghost predicate CanLatch(mesh: Mesh, n: Id)
  {
    n in mesh.cfgs && mesh.cfgs[n].home && exists row :: IsHalt(mesh, row)
  }

  ghost predicate Latchable(mesh: Mesh, net: Net)
  {
    && (forall n, p | n in net.nodes && p in net.nodes[n].procs && net.nodes[n].procs[p].Halting? ::
          IsHalt(mesh, net.nodes[n].procs[p].row))
    && (forall l | l in net.minted :: CanLatch(mesh, net.minted[l].node))
  }

  lemma HaltHandlerMoves(cfg: Config, s: Node, step: Step, p: nat)
    requires Enabled(cfg, s, step) && p in Effect(cfg, s, step).procs && Effect(cfg, s, step).procs[p].Halting?
    ensures
      var row := Effect(cfg, s, step).procs[p].row;
      || (p in s.procs && s.procs[p].Halting? && s.procs[p].row == row)
      || (step.Receive? && row.inv.kind.Constitutional? && QuorumMet(row, step.roster))
  {}

  lemma LatchableKept(mesh: Mesh, net: Net, step: NetStep)
    requires CanStep(mesh, net, step) && Latchable(mesh, net)
    ensures Latchable(mesh, NetEffect(mesh, net, step))
  {
    var net', s := NetEffect(mesh, net, step), NodeStep(mesh, step);
    forall n, p | n in net'.nodes && p in net'.nodes[n].procs && net'.nodes[n].procs[p].Halting?
      ensures IsHalt(mesh, net'.nodes[n].procs[p].row)
    {
      if n == step.n {
        HaltHandlerMoves(mesh.cfgs[n], net.nodes[n], s, p);
      }
    }
    if s.WriteHalt? {
      assert IsHalt(mesh, net.nodes[step.n].procs[s.p].row);
    }
  }

  lemma {:induction false} AlwaysLatchable(mesh: Mesh, run: seq<NetStep>)
    requires NetValid(mesh, run)
    ensures Latchable(mesh, NetAfter(mesh, run))
  {
    if run != [] {
      AlwaysLatchable(mesh, run[..|run| - 1]);
      LatchableKept(mesh, NetAfter(mesh, run[..|run| - 1]), run[|run| - 1]);
    }
  }

  // ---- going on ------------------------------------------------------------

  lemma NetOneMore(mesh: Mesh, run: seq<NetStep>, step: NetStep)
    requires NetValid(mesh, run) && CanStep(mesh, NetAfter(mesh, run), step)
    ensures NetValid(mesh, run + [step])
    ensures NetAfter(mesh, run + [step]) == NetEffect(mesh, NetAfter(mesh, run), step)
  {
    var longer := run + [step];
    assert longer[..|longer| - 1] == run && longer[|longer| - 1] == step;
  }

  lemma Unused(used: set<nat>) returns (p: nat)
    ensures p !in used && forall q | q in used :: q < p
  {
    if used == {} {
      p := 0;
    } else {
      var q :| q in used;
      var r := Unused(used - {q});
      p := if q < r then r else q + 1;
      assert forall x | x in used :: x == q || x in used - {q};
    }
  }

  /** On node `n` the handlers `but` is not about are as they were, and no ending was added. */
  ghost predicate Keeps(net: Net, net': Net, n: Id, but: nat)
    requires n in net.nodes
  {
    && n in net'.nodes && net'.endings == net.endings
    && forall q | q != but && q in net.nodes[n].procs ::
         q in net'.nodes[n].procs && net'.nodes[n].procs[q] == net.nodes[n].procs[q]
  }

  lemma ReceivesHalt(mesh: Mesh, net: Net, n: Id, h: nat, row: Row, now: Instant)
    requires n in mesh.cfgs && n in net.nodes && h !in net.nodes[n].procs && IsHalt(mesh, row)
    ensures CanStep(mesh, net, Inject(n, h, row, now))
    ensures
      var net' := NetEffect(mesh, net, Inject(n, h, row, now));
      && Keeps(net, net', n, h) && net'.minted == net.minted
      && h in net'.nodes[n].procs && net'.nodes[n].procs[h].Halting? && net'.nodes[n].procs[h].row == row
  {
    QuorumNeedsASeat(row, mesh.roster);
  }

  lemma SendsOne(mesh: Mesh, net: Net, n: Id, h: nat, dst: Id)
    requires n in mesh.cfgs && n in net.nodes && h in net.nodes[n].procs && net.nodes[n].procs[h].Halting?
    requires dst in net.nodes[n].procs[h].todo
    ensures CanStep(mesh, net, Local(n, Send(h, dst)))
    ensures
      var net' := NetEffect(mesh, net, Local(n, Send(h, dst)));
      && Keeps(net, net', n, h) && net'.minted == net.minted && h in net'.nodes[n].procs
      && SameHandler(net'.nodes[n].procs[h], net.nodes[n].procs[h])
      && |net'.nodes[n].procs[h].todo| == |net.nodes[n].procs[h].todo| - 1
  {
    var todo := net.nodes[n].procs[h].todo;
    assert todo == (todo - multiset{dst}) + multiset{dst};
  }

  lemma KeepsAlong(a: Net, b: Net, c: Net, n: Id, h: nat)
    requires n in a.nodes && Keeps(a, b, n, h) && Keeps(b, c, n, h)
    ensures Keeps(a, c, n, h)
  {}

  lemma SendsNext(mesh: Mesh, run: seq<NetStep>, n: Id, h: nat) returns (longer: seq<NetStep>)
    requires NetValid(mesh, run) && n in mesh.cfgs && n in NetAfter(mesh, run).nodes
    requires h in NetAfter(mesh, run).nodes[n].procs && NetAfter(mesh, run).nodes[n].procs[h].Halting?
    requires NetAfter(mesh, run).nodes[n].procs[h].todo != multiset{}
    ensures NetValid(mesh, longer) && run <= longer
    ensures
      var net, net' := NetAfter(mesh, run), NetAfter(mesh, longer);
      && Keeps(net, net', n, h) && net'.minted == net.minted && h in net'.nodes[n].procs
      && SameHandler(net'.nodes[n].procs[h], net.nodes[n].procs[h])
      && |net'.nodes[n].procs[h].todo| == |net.nodes[n].procs[h].todo| - 1
  {
    var dst :| dst in NetAfter(mesh, run).nodes[n].procs[h].todo;
    SendsOne(mesh, NetAfter(mesh, run), n, h, dst);
    NetOneMore(mesh, run, Local(n, Send(h, dst)));
    longer := run + [Local(n, Send(h, dst))];
  }

  /** Its sends are all there is between a halt handler and its write. */
  lemma {:induction false} SendsRest(mesh: Mesh, run: seq<NetStep>, n: Id, h: nat, left: nat) returns (longer: seq<NetStep>)
    requires NetValid(mesh, run) && n in mesh.cfgs && n in NetAfter(mesh, run).nodes
    requires h in NetAfter(mesh, run).nodes[n].procs && NetAfter(mesh, run).nodes[n].procs[h].Halting?
    requires left == |NetAfter(mesh, run).nodes[n].procs[h].todo|
    ensures NetValid(mesh, longer) && run <= longer
    ensures
      var net, net' := NetAfter(mesh, run), NetAfter(mesh, longer);
      && Keeps(net, net', n, h) && net'.minted == net.minted && h in net'.nodes[n].procs
      && SameHandler(net'.nodes[n].procs[h], net.nodes[n].procs[h]) && net'.nodes[n].procs[h].todo == multiset{}
    decreases left
  {
    if left == 0 {
      longer := run;
    } else {
      var next := SendsNext(mesh, run, n, h);
      longer := SendsRest(mesh, next, n, h, left - 1);
      KeepsAlong(NetAfter(mesh, run), NetAfter(mesh, next), NetAfter(mesh, longer), n, h);
    }
  }

  lemma WritesHalt(mesh: Mesh, net: Net, n: Id, h: nat, latchId: Option<Id>)
    requires n in mesh.cfgs && mesh.cfgs[n].home && n in net.nodes && h in net.nodes[n].procs
    requires net.nodes[n].procs[h].Halting? && net.nodes[n].procs[h].todo == multiset{}
    requires latchId.Some? ==> latchId.value !in net.minted
    ensures
      var rec := RecordFor(mesh.cfgs[n], net.nodes[n].procs[h], latchId);
      && CanStep(mesh, net, Local(n, WriteHalt(h, rec)))
      && var net' := NetEffect(mesh, net, Local(n, WriteHalt(h, rec)));
         Keeps(net, net', n, h) && net'.nodes[n].latch == Holds(rec)
  {}

  lemma HaltGetsReady(mesh: Mesh, run: seq<NetStep>, n: Id, h: nat, row: Row) returns (longer: seq<NetStep>)
    requires NetValid(mesh, run) && n in mesh.cfgs && n in NetAfter(mesh, run).nodes
    requires h !in NetAfter(mesh, run).nodes[n].procs && IsHalt(mesh, row)
    ensures NetValid(mesh, longer) && run <= longer
    ensures
      var net, net' := NetAfter(mesh, run), NetAfter(mesh, longer);
      && Keeps(net, net', n, h) && net'.minted == net.minted && h in net'.nodes[n].procs
      && net'.nodes[n].procs[h].Halting? && net'.nodes[n].procs[h].todo == multiset{} && net'.nodes[n].procs[h].row == row
  {
    var next := run + [Inject(n, h, row, 0)];
    ReceivesHalt(mesh, NetAfter(mesh, run), n, h, row, 0);
    NetOneMore(mesh, run, Inject(n, h, row, 0));
    longer := SendsRest(mesh, next, n, h, |NetAfter(mesh, next).nodes[n].procs[h].todo|);
    KeepsAlong(NetAfter(mesh, run), NetAfter(mesh, next), NetAfter(mesh, longer), n, h);
  }

  /** A halt is injected, relayed and latched, under a fresh latch id or none. */
  lemma Latches(mesh: Mesh, run: seq<NetStep>, n: Id, row: Row, latchId: Option<Id>) returns (longer: seq<NetStep>)
    requires NetValid(mesh, run) && n in mesh.cfgs && mesh.cfgs[n].home && n in NetAfter(mesh, run).nodes
    requires IsHalt(mesh, row) && (latchId.Some? ==> latchId.value !in NetAfter(mesh, run).minted)
    ensures NetValid(mesh, longer) && run <= longer
    ensures
      var net, net' := NetAfter(mesh, run), NetAfter(mesh, longer);
      && n in net'.nodes && net'.endings == net.endings && net'.nodes[n].latch.Holds?
      && net'.nodes[n].latch.rec.invocationId == row.inv.id && net'.nodes[n].latch.rec.latchId == latchId
      && forall q | q in net.nodes[n].procs :: q in net'.nodes[n].procs && net'.nodes[n].procs[q] == net.nodes[n].procs[q]
  {
    var h := Unused(NetAfter(mesh, run).nodes[n].procs.Keys);
    var sent := HaltGetsReady(mesh, run, n, h, row);
    var write := Local(n, WriteHalt(h, RecordFor(mesh.cfgs[n], NetAfter(mesh, sent).nodes[n].procs[h], latchId)));
    WritesHalt(mesh, NetAfter(mesh, sent), n, h, latchId);
    NetOneMore(mesh, sent, write);
    longer := sent + [write];
    KeepsAlong(NetAfter(mesh, run), NetAfter(mesh, sent), NetAfter(mesh, longer), n, h);
  }

  // ---- another ending ------------------------------------------------------

  ghost predicate Ready(net: Net, n: Id, p: nat, t: ReleaseToken)
  {
    Honors(net, n, p, t) && net.nodes[n].procs[p].journaled
  }

  lemma RemoveEnds(mesh: Mesh, net: Net, n: Id, p: nat, t: ReleaseToken)
    requires n in mesh.cfgs && Ready(net, n, p, t) && !net.nodes[n].latch.Absent?
    ensures CanStep(mesh, net, Local(n, Remove(p)))
    ensures
      var net' := NetEffect(mesh, net, Local(n, Remove(p)));
      && |net'.endings| == |net.endings| + 1 && EndsAt(net', t, |net.endings|) && net'.endings[..|net.endings|] == net.endings
      && net'.endings[|net.endings|].removed == Removed(net.nodes[n].latch) && net'.minted == net.minted
      && n in net'.nodes && forall q | q != p && q in net.nodes[n].procs ::
           q in net'.nodes[n].procs && net'.nodes[n].procs[q] == net.nodes[n].procs[q]
  {}

  lemma JournalReadies(mesh: Mesh, net: Net, n: Id, p: nat, t: ReleaseToken)
    requires n in mesh.cfgs && Honors(net, n, p, t) && !net.nodes[n].procs[p].journaled
    ensures CanStep(mesh, net, Local(n, Journal(p)))
    ensures
      var net' := NetEffect(mesh, net, Local(n, Journal(p)));
      && Keeps(net, net', n, p) && Ready(net', n, p, t) && net'.nodes[n].latch == net.nodes[n].latch && net'.minted == net.minted
  {}

  lemma GetsReady(mesh: Mesh, run: seq<NetStep>, n: Id, p: nat, t: ReleaseToken) returns (longer: seq<NetStep>)
    requires NetValid(mesh, run) && n in mesh.cfgs && Honors(NetAfter(mesh, run), n, p, t)
    ensures NetValid(mesh, longer) && run <= longer
    ensures
      var net, net' := NetAfter(mesh, run), NetAfter(mesh, longer);
      && Keeps(net, net', n, p) && Ready(net', n, p, t) && net'.nodes[n].latch == net.nodes[n].latch && net'.minted == net.minted
  {
    longer := run;
    if !NetAfter(mesh, run).nodes[n].procs[p].journaled {
      JournalReadies(mesh, NetAfter(mesh, run), n, p, t);
      NetOneMore(mesh, run, Local(n, Journal(p)));
      longer := run + [Local(n, Journal(p))];
    }
  }

  /** Some continuation adds an ending of token `t`. */
  ghost predicate EndsAgain(mesh: Mesh, run: seq<NetStep>, longer: seq<NetStep>, t: ReleaseToken)
  {
    && NetValid(mesh, longer) && run <= longer
    && exists b :: |NetAfter(mesh, run).endings| <= b && EndsAt(NetAfter(mesh, longer), t, b)
  }

  lemma FinallyRemoves(mesh: Mesh, run: seq<NetStep>, ready: seq<NetStep>, n: Id, p: nat, t: ReleaseToken)
    requires NetValid(mesh, ready) && run <= ready && NetAfter(mesh, ready).endings == NetAfter(mesh, run).endings
    requires n in mesh.cfgs && Ready(NetAfter(mesh, ready), n, p, t) && !NetAfter(mesh, ready).nodes[n].latch.Absent?
    ensures exists longer :: EndsAgain(mesh, run, longer, t)
  {
    RemoveEnds(mesh, NetAfter(mesh, ready), n, p, t);
    NetOneMore(mesh, ready, Local(n, Remove(p)));
    var longer := ready + [Local(n, Remove(p))];
    assert EndsAt(NetAfter(mesh, longer), t, |NetAfter(mesh, run).endings|);
    assert EndsAgain(mesh, run, longer, t);
  }

  /** A handler of the token ends whatever is latched by then. */
  lemma HonoringEnds(mesh: Mesh, run: seq<NetStep>, n: Id, p: nat, t: ReleaseToken)
    requires NetValid(mesh, run) && CanLatch(mesh, n) && Honors(NetAfter(mesh, run), n, p, t)
    ensures exists longer :: EndsAgain(mesh, run, longer, t)
  {
    var ready := GetsReady(mesh, run, n, p, t);
    if NetAfter(mesh, ready).nodes[n].latch.Absent? {
      var row :| IsHalt(mesh, row);
      ready := Latches(mesh, ready, n, row, None);
    }
    FinallyRemoves(mesh, run, ready, n, p, t);
  }

  lemma AcceptsToken(mesh: Mesh, net: Net, n: Id, p: nat, t: ReleaseToken, auth: Authority, at: Stamp, wallClock: Instant)
    requires n in mesh.cfgs && n in net.nodes && p !in net.nodes[n].procs && net.nodes[n].latch.Holds?
    requires VerifyReleaseToken(net.nodes[n].latch.rec, t, auth, at, wallClock).Ok?
    ensures CanStep(mesh, net, Local(n, ReadToken(p, t, auth, at, wallClock)))
    ensures
      var net' := NetEffect(mesh, net, Local(n, ReadToken(p, t, auth, at, wallClock)));
      && Keeps(net, net', n, p) && Honors(net', n, p, t) && net'.nodes[n].latch == net.nodes[n].latch && net'.minted == net.minted
  {}

  lemma SameVerdict(
    rec1: HaltRecord, rec2: HaltRecord, t: ReleaseToken, auth: Authority, at: Stamp, wallClock: Instant)
    requires rec1.(confirmed := None) == rec2.(confirmed := None)
    ensures VerifyReleaseToken(rec1, t, auth, at, wallClock) == VerifyReleaseToken(rec2, t, auth, at, wallClock)
  {
    assert BindingOf(rec1) == BindingOf(rec2) && rec1.latchedAt == rec2.latchedAt;
  }

  /** An instance on disk that the token was once accepted for is read and ended by it. */
  lemma OnDiskEnds(mesh: Mesh, run: seq<NetStep>, n: Id, t: ReleaseToken, l: Id, rec: HaltRecord)
    requires NetValid(mesh, run) && CanLatch(mesh, n) && OnDisk(NetAfter(mesh, run), n, l)
    requires VouchedFor(t, rec) && Minted(NetAfter(mesh, run), n, l, rec)
    ensures exists longer :: EndsAgain(mesh, run, longer, t)
  {
    AlwaysInPlace(mesh, run);
    var net := NetAfter(mesh, run);
    var auth, at, wallClock :| VerifyReleaseToken(rec, t, auth, at, wallClock).Ok?;
    SameVerdict(rec, net.nodes[n].latch.rec, t, auth, at, wallClock);
    var p := Unused(net.nodes[n].procs.Keys);
    var read := Local(n, ReadToken(p, t, auth, at, wallClock));
    AcceptsToken(mesh, net, n, p, t, auth, at, wallClock);
    NetOneMore(mesh, run, read);
    HonoringEnds(mesh, run + [read], n, p, t);
    var longer :| EndsAgain(mesh, run + [read], longer, t);
    assert EndsAgain(mesh, run, longer, t);
  }

  lemma ConfirmWritesBack(mesh: Mesh, net: Net, n: Id, p: nat, l: Id)
    requires n in mesh.cfgs && CarriedBy(net, n, p, l)
    ensures CanStep(mesh, net, Local(n, Confirm(p, net.nodes[n].procs[p].rec)))
    ensures
      var net' := NetEffect(mesh, net, Local(n, Confirm(p, net.nodes[n].procs[p].rec)));
      OnDisk(net', n, l) && net'.endings == net.endings && net'.minted == net.minted
  {}

  lemma CarriedEnds(mesh: Mesh, run: seq<NetStep>, n: Id, p: nat, t: ReleaseToken, l: Id, rec: HaltRecord)
    requires NetValid(mesh, run) && CanLatch(mesh, n) && CarriedBy(NetAfter(mesh, run), n, p, l)
    requires VouchedFor(t, rec) && Minted(NetAfter(mesh, run), n, l, rec)
    ensures exists longer :: EndsAgain(mesh, run, longer, t)
  {
    var confirm := Local(n, Confirm(p, NetAfter(mesh, run).nodes[n].procs[p].rec));
    ConfirmWritesBack(mesh, NetAfter(mesh, run), n, p, l);
    NetOneMore(mesh, run, confirm);
    OnDiskEnds(mesh, run + [confirm], n, t, l, rec);
    var longer :| EndsAgain(mesh, run + [confirm], longer, t);
    assert EndsAgain(mesh, run, longer, t);
  }

  /**
   * Once a token has ended a latch, having been accepted for instance `l` of node `n`, some
   * continuation of the run has it end a latch again exactly when a handler of it is part-way
   * on `n`, or a confirmation there is about to write `l` back, or `l` is on `n`'s disk.  In
   * every other state that ending was its last.
   */
  lemma CanEndAgainIff(mesh: Mesh, run: seq<NetStep>, t: ReleaseToken, k: nat, l: Id)
    requires NetValid(mesh, run) && EndsAt(NetAfter(mesh, run), t, k) && ReadIn(NetAfter(mesh, run), k, l)
    ensures
      var net := NetAfter(mesh, run);
      var n := net.endings[k].node;
      (exists longer :: EndsAgain(mesh, run, longer, t)) <==>
      BeingHonored(net, n, t) || Carried(net, n, l) || OnDisk(net, n, l)
  {
    var net := NetAfter(mesh, run);
    var n, rec := net.endings[k].node, net.endings[k].read;
    AlwaysInPlace(mesh, run);
    AlwaysLatchable(mesh, run);
    TokensStayVouched(mesh, run);
    assert VouchedFor(t, rec) && Minted(net, n, l, rec) && CanLatch(mesh, n);
    if p :| Honors(net, n, p, t) {
      HonoringEnds(mesh, run, n, p, t);
    } else if OnDisk(net, n, l) {
      OnDiskEnds(mesh, run, n, t, l, rec);
    } else if p :| CarriedBy(net, n, p, l) {
      CarriedEnds(mesh, run, n, p, t, l, rec);
    } else {
      OverWhenOverHere(mesh, run, t, l, rec, n);
      forall longer
        ensures !EndsAgain(mesh, run, longer, t)
      {
        if EndsAgain(mesh, run, longer, t) {
          StaysOver(mesh, run, longer, t, l, rec);
        }
      }
    }
  }

  // ---- two endings ---------------------------------------------------------

  /** Two handlers have accepted and journaled the token for the latch that stands. */
  lemma BothReady(
    mesh: Mesh, run: seq<NetStep>, n: Id, t: ReleaseToken, auth: Authority, at: Stamp, wallClock: Instant)
    returns (longer: seq<NetStep>, p: nat, q: nat)
    requires NetValid(mesh, run) && n in mesh.cfgs && n in NetAfter(mesh, run).nodes
    requires NetAfter(mesh, run).nodes[n].latch.Holds?
    requires VerifyReleaseToken(NetAfter(mesh, run).nodes[n].latch.rec, t, auth, at, wallClock).Ok?
    ensures NetValid(mesh, longer) && run <= longer && p != q
    ensures
      var net, net' := NetAfter(mesh, run), NetAfter(mesh, longer);
      && Ready(net', n, p, t) && Ready(net', n, q, t) && net'.nodes[n].latch == net.nodes[n].latch
      && net'.minted == net.minted && net'.endings == net.endings
  {
    var one;
    one, p := OneReady(mesh, run, n, t, auth, at, wallClock);
    longer, q := OneReady(mesh, one, n, t, auth, at, wallClock);
  }

  lemma OneReady(
    mesh: Mesh, run: seq<NetStep>, n: Id, t: ReleaseToken, auth: Authority, at: Stamp, wallClock: Instant)
    returns (longer: seq<NetStep>, p: nat)
    requires NetValid(mesh, run) && n in mesh.cfgs && n in NetAfter(mesh, run).nodes
    requires NetAfter(mesh, run).nodes[n].latch.Holds?
    requires VerifyReleaseToken(NetAfter(mesh, run).nodes[n].latch.rec, t, auth, at, wallClock).Ok?
    ensures NetValid(mesh, longer) && run <= longer
    ensures
      var net, net' := NetAfter(mesh, run), NetAfter(mesh, longer);
      && Keeps(net, net', n, p) && p !in net.nodes[n].procs && Ready(net', n, p, t)
      && net'.nodes[n].latch == net.nodes[n].latch && net'.minted == net.minted
  {
    p := Unused(NetAfter(mesh, run).nodes[n].procs.Keys);
    var read := Local(n, ReadToken(p, t, auth, at, wallClock));
    AcceptsToken(mesh, NetAfter(mesh, run), n, p, t, auth, at, wallClock);
    NetOneMore(mesh, run, read);
    longer := GetsReady(mesh, run + [read], n, p, t);
    KeepsAlong(NetAfter(mesh, run), NetAfter(mesh, run + [read]), NetAfter(mesh, longer), n, p);
  }

  /** From the `k`-th on the endings are two of token `t`, the second of instance `l` of halt `h`. */
  ghost predicate EndsTwo(net: Net, t: ReleaseToken, k: nat, l: Id, h: Id)
  {
    && |net.endings| == k + 2 && EndsAt(net, t, k) && EndsAt(net, t, k + 1)
    && Took(net.endings[k + 1], l) && net.endings[k + 1].removed.value.invocationId == h
  }

  /**
   * Overlap is enough: from any run that leaves a latch a token verifies for, two handlers of
   * it, with any halt latched between their removals, end two latches, the second of them the
   * new halt's, which neither ever read.
   */
  lemma OverlapEndsTwo(
    mesh: Mesh, run: seq<NetStep>, n: Id, t: ReleaseToken, auth: Authority, at: Stamp, wallClock: Instant, row: Row, l: Id)
    returns (longer: seq<NetStep>)
    requires NetValid(mesh, run) && n in mesh.cfgs && mesh.cfgs[n].home && n in NetAfter(mesh, run).nodes
    requires NetAfter(mesh, run).nodes[n].latch.Holds?
    requires VerifyReleaseToken(NetAfter(mesh, run).nodes[n].latch.rec, t, auth, at, wallClock).Ok?
    requires IsHalt(mesh, row) && l !in NetAfter(mesh, run).minted
    ensures NetValid(mesh, longer) && run <= longer
    ensures EndsTwo(NetAfter(mesh, longer), t, |NetAfter(mesh, run).endings|, l, row.inv.id)
  {
    var ready, p, q := BothReady(mesh, run, n, t, auth, at, wallClock);
    RemoveEnds(mesh, NetAfter(mesh, ready), n, p, t);
    NetOneMore(mesh, ready, Local(n, Remove(p)));
    var once := ready + [Local(n, Remove(p))];
    var again := Latches(mesh, once, n, row, Some(l));
    RemoveEnds(mesh, NetAfter(mesh, again), n, q, t);
    NetOneMore(mesh, again, Local(n, Remove(q)));
    longer := again + [Local(n, Remove(q))];
  }
}
