// What a halt costs: while no node forgets what it has seen, each sends it to each peer at most
// as often as that peer is listed.

module HaltFloods {
  import opened Prelude
  import opened PeerGraphs
  import opened Accord
  import opened HaltRecords
  import opened HaltPlane
  import opened HaltRelays
  import opened HaltNetwork
  import opened Floods

  // ---- the flood is bounded ------------------------------------------------

  /** No node's seen set overflows, so none is ever cleared, and no node crashes. */
  predicate NeverForgets(mesh: Mesh, run: seq<NetStep>)
  {
    forall k | 0 <= k < |run| ::
      && (run[k].Local? ==> !run[k].step.Crash?)
      && (run[k].n in NetAfter(mesh, run[..k]).nodes ==>
            |NetAfter(mesh, run[..k]).nodes[run[k].n].seen| < MAX_SEEN_INVOCATIONS)
  }

  function LeftIn(proc: Proc, h: Id): multiset<Id>
  {
    if proc.Halting? && proc.row.inv.id == h then proc.todo else multiset{}
  }

  function LeftOf(node: Node, h: Id, p: nat): multiset<Id>
  {
    if p in node.procs then LeftIn(node.procs[p], h) else multiset{}
  }

  /** Handler `c` alone has anything of halt `h` left to send, and with what was sent it makes up the peers. */
  ghost predicate Carrier(mesh: Mesh, net: Net, n: Id, h: Id, c: nat)
    requires n in mesh.cfgs && n in net.nodes
  {
    var node := net.nodes[n];
    && (forall p | p != c :: LeftOf(node, h, p) == multiset{})
    && SentOf(net, n, h) + LeftOf(node, h, c)
       == (if HaltKey(h) in node.seen then multiset(mesh.cfgs[n].peers) else multiset{})
    && (forall p | p in node.procs && node.procs[p].Halting? :: HaltKey(node.procs[p].row.inv.id) in node.seen)
  }

  /** The step that sights halt `h` for the first time on this node. */
  predicate Sights(node: Node, s: Step, h: Id)
  {
    s.Receive? && Authentic(s.row, s.roster) && KeyOf(s.row, s.roster) == HaltKey(h) && HaltKey(h) !in node.seen
  }

  lemma SumOfNone(a: multiset<Id>, b: multiset<Id>)
    requires a + b == multiset{}
    ensures a == multiset{} && b == multiset{}
  {
    forall x
      ensures a[x] == 0 && b[x] == 0
    {
      assert (a + b)[x] == 0;
    }
  }

  lemma Moved(sent: multiset<Id>, left: multiset<Id>, x: Id)
    requires x in left
    ensures sent + multiset{x} + (left - multiset{x}) == sent + left
  {}

  lemma NotThere(left: multiset<Id>, x: Id)
    requires x !in left
    ensures left - multiset{x} == left
  {}

  /** What was sent of `h` after a step. */
  function SentAfter(node: Node, s: Step, h: Id, sent: multiset<Id>): multiset<Id>
  {
    if s.Send? && s.dst in LeftOf(node, h, s.p) then sent + multiset{s.dst} else sent
  }

  lemma OthersIdle(cfg: Config, node: Node, s: Step, h: Id, p: nat)
    requires Enabled(cfg, node, s) && |node.seen| < MAX_SEEN_INVOCATIONS
    requires LeftOf(node, h, p) == multiset{}
    requires !(Sights(node, s, h) && s.p == p)
    ensures LeftAfter(cfg, node, s, h, p) == multiset{}
  {}

  lemma SendMoves(cfg: Config, node: Node, s: Step, h: Id, c: nat, sent: multiset<Id>)
    requires Enabled(cfg, node, s) && !Sights(node, s, h) && |node.seen| < MAX_SEEN_INVOCATIONS
    requires forall p | p != c :: LeftOf(node, h, p) == multiset{}
    ensures SentAfter(node, s, h, sent) + LeftAfter(cfg, node, s, h, c) == sent + LeftOf(node, h, c)
  {
    var left := LeftOf(node, h, c);
    if s.Send? && s.p == c {
      if s.dst in left {
        Moved(sent, left, s.dst);
      } else {
        NotThere(left, s.dst);
      }
    }
  }

  /** The arithmetic of one step: what was sent and what its carrier has left still make up the peers. */
  lemma CarrierSum(cfg: Config, node: Node, s: Step, h: Id, c: nat, sent: multiset<Id>)
    requires Enabled(cfg, node, s) && !s.Crash? && |node.seen| < MAX_SEEN_INVOCATIONS
    requires forall p | p != c :: LeftOf(node, h, p) == multiset{}
    requires sent + LeftOf(node, h, c) == (if HaltKey(h) in node.seen then multiset(cfg.peers) else multiset{})
    ensures
      var c' := if Sights(node, s, h) then s.p else c;
      && (forall p | p != c' :: LeftAfter(cfg, node, s, h, p) == multiset{})
      && SentAfter(node, s, h, sent) + LeftAfter(cfg, node, s, h, c')
         == if HaltKey(h) in node.seen || Sights(node, s, h) then multiset(cfg.peers) else multiset{}
  {
    var c' := if Sights(node, s, h) then s.p else c;
    if Sights(node, s, h) {
      SumOfNone(sent, LeftOf(node, h, c));
    } else {
      SendMoves(cfg, node, s, h, c, sent);
    }
    forall p | p != c'
      ensures LeftAfter(cfg, node, s, h, p) == multiset{}
    {
      OthersIdle(cfg, node, s, h, p);
    }
  }

  lemma CarrierKept(mesh: Mesh, net: Net, step: NetStep, h: Id, c: nat) returns (c': nat)
    requires CanStep(mesh, net, step) && Carrier(mesh, net, step.n, h, c)
    requires !NodeStep(mesh, step).Crash? && |net.nodes[step.n].seen| < MAX_SEEN_INVOCATIONS
    ensures Carrier(mesh, NetEffect(mesh, net, step), step.n, h, c')
  {
    var cfg, s, node := mesh.cfgs[step.n], NodeStep(mesh, step), net.nodes[step.n];
    c' := if Sights(node, s, h) then s.p else c;
    CarrierSum(cfg, node, s, h, c, SentOf(net, step.n, h));
    CarrierSeen(cfg, node, s, h);
    SentMoves(mesh, net, step, h);
    forall p
      ensures LeftOf(NetEffect(mesh, net, step).nodes[step.n], h, p) == LeftAfter(cfg, node, s, h, p)
    {
      LeftMoves(cfg, node, s, h, p);
    }
  }

  lemma CarrierSeen(cfg: Config, node: Node, s: Step, h: Id)
    requires Enabled(cfg, node, s) && !s.Crash? && |node.seen| < MAX_SEEN_INVOCATIONS
    requires forall p | p in node.procs && node.procs[p].Halting? :: HaltKey(node.procs[p].row.inv.id) in node.seen
    ensures forall p | p in Effect(cfg, node, s).procs && Effect(cfg, node, s).procs[p].Halting? ::
      HaltKey(Effect(cfg, node, s).procs[p].row.inv.id) in Effect(cfg, node, s).seen
    ensures HaltKey(h) in Effect(cfg, node, s).seen <==> HaltKey(h) in node.seen || Sights(node, s, h)
  {
    forall p | p in Effect(cfg, node, s).procs && Effect(cfg, node, s).procs[p].Halting?
      ensures HaltKey(Effect(cfg, node, s).procs[p].row.inv.id) in Effect(cfg, node, s).seen
    {
      HaltingMoves(cfg, node, s, p);
    }
  }

  /** What is left to send of `h` after a step, computed from what was left before it. */
  function LeftAfter(cfg: Config, node: Node, s: Step, h: Id, p: nat): multiset<Id>
  {
    if s.Receive? && s.p == p then
      if Authentic(s.row, s.roster) && KeyOf(s.row, s.roster) == HaltKey(h)
      then ToPeers(cfg, FirstSight(node, HaltKey(h))) else multiset{}
    else if s.Send? && s.p == p then LeftOf(node, h, p) - multiset{s.dst}
    else LeftOf(node, h, p)
  }

  /** Handler `p` after a step: untouched unless the step is its own. */
  lemma ProcMoves(cfg: Config, node: Node, s: Step, p: nat)
    requires Enabled(cfg, node, s) && !s.Crash?
    ensures
      var procs := Effect(cfg, node, s).procs;
      if Owner(s) == Some(p) then (p in procs <==> Own(cfg, node, s).Some?) && (p in procs ==> procs[p] == Own(cfg, node, s).value)
      else (p in procs <==> p in node.procs) && (p in procs ==> procs[p] == node.procs[p])
  {}

  lemma OwnLeft(cfg: Config, node: Node, s: Step, h: Id, p: nat)
    requires Enabled(cfg, node, s) && Owner(s) == Some(p) && !s.Receive?
    ensures
      var proc := Own(cfg, node, s);
      (if proc.Some? then LeftIn(proc.value, h) else multiset{})
      == if s.Send? then LeftOf(node, h, p) - multiset{s.dst} else LeftOf(node, h, p)
  {}

  lemma OpenedLeft(cfg: Config, node: Node, row: Row, roster: seq<Member>, now: Instant, h: Id)
    ensures
      var proc := Opened(cfg, node, row, roster, now);
      (if proc.Some? then LeftIn(proc.value, h) else multiset{})
      == if Authentic(row, roster) && KeyOf(row, roster) == HaltKey(h)
         then ToPeers(cfg, FirstSight(node, HaltKey(h))) else multiset{}
  {}

  lemma LeftMoves(cfg: Config, node: Node, s: Step, h: Id, p: nat)
    requires Enabled(cfg, node, s) && !s.Crash?
    ensures LeftOf(Effect(cfg, node, s), h, p) == LeftAfter(cfg, node, s, h, p)
  {
    ProcMoves(cfg, node, s, p);
    if Owner(s) == Some(p) {
      if s.Receive? {
        OpenedLeft(cfg, node, s.row, s.roster, s.now, h);
      } else {
        OwnLeft(cfg, node, s, h, p);
      }
    }
  }

  lemma SentMoves(mesh: Mesh, net: Net, step: NetStep, h: Id)
    requires CanStep(mesh, net, step)
    ensures
      var s, node := NodeStep(mesh, step), net.nodes[step.n];
      SentOf(NetEffect(mesh, net, step), step.n, h) == SentAfter(node, s, h, SentOf(net, step.n, h))
  {
    HaltSentIsLeft(mesh, net, step, h);
    var sent, sent' := net.sent, NetEffect(mesh, net, step).sent;
    assert HaltSent(net, step).None? ==> sent' == sent;
  }

  lemma HaltSentIsLeft(mesh: Mesh, net: Net, step: NetStep, h: Id)
    requires CanStep(mesh, net, step)
    ensures
      var s, node := NodeStep(mesh, step), net.nodes[step.n];
      HaltSent(net, step) == Some(h) <==> s.Send? && s.dst in LeftOf(node, h, s.p)
  {}

  lemma CarrierElsewhere(mesh: Mesh, net: Net, step: NetStep, n: Id, h: Id, c: nat)
    requires CanStep(mesh, net, step) && n in mesh.cfgs && n in net.nodes && n != step.n && Carrier(mesh, net, n, h, c)
    ensures Carrier(mesh, NetEffect(mesh, net, step), n, h, c)
  {}

  lemma NeverForgot(mesh: Mesh, run: seq<NetStep>)
    requires NeverForgets(mesh, run) && run != []
    ensures NeverForgets(mesh, run[..|run| - 1])
  {
    var pre := run[..|run| - 1];
    forall k | 0 <= k < |pre|
      ensures pre[..k] == run[..k] && pre[k] == run[k]
    {}
  }

  lemma {:induction false} EveryNodeHasACarrier(mesh: Mesh, run: seq<NetStep>, n: Id, h: Id) returns (c: nat)
    requires NetValid(mesh, run) && NeverForgets(mesh, run) && n in mesh.cfgs
    ensures n in NetAfter(mesh, run).nodes && Carrier(mesh, NetAfter(mesh, run), n, h, c)
  {
    NodesStay(mesh, run);
    if run == [] {
      c := 0;
    } else {
      var pre, step := run[..|run| - 1], run[|run| - 1];
      NeverForgot(mesh, run);
      c := EveryNodeHasACarrier(mesh, pre, n, h);
      if step.n == n {
        c := CarrierKept(mesh, NetAfter(mesh, pre), step, h, c);
      } else {
        CarrierElsewhere(mesh, NetAfter(mesh, pre), step, n, h, c);
      }
    }
  }

  /** A halt handler's row is a halt at its threshold over the shared roster. */
  lemma {:induction false} HaltersAreKeyed(mesh: Mesh, run: seq<NetStep>, n: Id, p: nat)
    requires NetValid(mesh, run) && n in NetAfter(mesh, run).nodes && p in NetAfter(mesh, run).nodes[n].procs
    requires NetAfter(mesh, run).nodes[n].procs[p].Halting?
    ensures KeyOf(NetAfter(mesh, run).nodes[n].procs[p].row, mesh.roster) == HaltKey(NetAfter(mesh, run).nodes[n].procs[p].row.inv.id)
  {
    if run != [] {
      var pre, step := run[..|run| - 1], run[|run| - 1];
      if step.n == n {
        HaltingMoves(mesh.cfgs[n], NetAfter(mesh, pre).nodes[n], NodeStep(mesh, step), p);
      }
      if n in NetAfter(mesh, pre).nodes && p in NetAfter(mesh, pre).nodes[n].procs
         && NetAfter(mesh, pre).nodes[n].procs[p].Halting?
      {
        HaltersAreKeyed(mesh, pre, n, p);
      }
    }
  }

  lemma NothingLeftWhenSettled(mesh: Mesh, run: seq<NetStep>, n: Id, h: Id, c: nat)
    requires NetValid(mesh, run) && n in mesh.cfgs && n in NetAfter(mesh, run).nodes
    requires Settled(mesh, NetAfter(mesh, run), HaltKey(h))
    ensures LeftOf(NetAfter(mesh, run).nodes[n], h, c) == multiset{}
  {
    var net := NetAfter(mesh, run);
    var left := LeftOf(net.nodes[n], h, c);
    if left != multiset{} {
      var v :| v in left;
      HaltersAreKeyed(mesh, run, n, c);
      assert CarriesTo(mesh, mesh.cfgs[n], net.nodes[n].procs[c], HaltKey(h), v);
      assert StillToSend(mesh, net, n, HaltKey(h), v);
    }
  }

  /**
   * While no seen set is cleared, a node sends a halt to each peer at most as often as it is
   * listed; and exactly that often once the halt has settled, if the node ever received it.
   */
  lemma EachPeerSentAtMostOnce(mesh: Mesh, run: seq<NetStep>, n: Id, h: Id)
    requires NetValid(mesh, run) && NeverForgets(mesh, run) && n in mesh.cfgs
    ensures SentOf(NetAfter(mesh, run), n, h) <= multiset(mesh.cfgs[n].peers)
    ensures |SentOf(NetAfter(mesh, run), n, h)| <= |mesh.cfgs[n].peers|
    ensures n in NetAfter(mesh, run).nodes
    ensures Settled(mesh, NetAfter(mesh, run), HaltKey(h)) && HaltKey(h) in NetAfter(mesh, run).nodes[n].seen ==>
      SentOf(NetAfter(mesh, run), n, h) == multiset(mesh.cfgs[n].peers)
  {
    var c := EveryNodeHasACarrier(mesh, run, n, h);
    var net := NetAfter(mesh, run);
    WithinThePeers(SentOf(net, n, h), LeftOf(net.nodes[n], h, c), mesh.cfgs[n].peers);
    if Settled(mesh, net, HaltKey(h)) {
      NothingLeftWhenSettled(mesh, run, n, h, c);
    }
  }

  lemma WithinThePeers(sent: multiset<Id>, left: multiset<Id>, peers: seq<Id>)
    requires sent + left == multiset(peers) || sent + left == multiset{}
    ensures sent <= multiset(peers) && |sent| <= |peers|
    ensures left == multiset{} && sent + left == multiset(peers) ==> sent == multiset(peers)
  {
    assert |multiset(peers)| == |peers|;
    assert |sent + left| == |sent| + |left|;
  }

  /** Messages of halt `h` sent by the listed nodes. */
  function MessagesOf(net: Net, ns: seq<Id>, h: Id): nat
  {
    if ns == [] then 0 else |SentOf(net, ns[0], h)| + MessagesOf(net, ns[1..], h)
  }

  /** So one halt costs the mesh at most the sum of its out-degrees in messages: the flood ends. */
  lemma {:induction false} HaltFloodBounded(mesh: Mesh, run: seq<NetStep>, ns: seq<Id>, h: Id)
    requires NetValid(mesh, run) && NeverForgets(mesh, run)
    requires forall n | n in ns :: n in mesh.cfgs
    ensures MessagesOf(NetAfter(mesh, run), ns, h) <= OutDegrees(PeersOf(mesh), ns)
  {
    if ns != [] {
      EachPeerSentAtMostOnce(mesh, run, ns[0], h);
      HaltFloodBounded(mesh, run, ns[1..], h);
    }
  }
}
