// Flooding: which nodes a row reaches, over any peer graph and any run, and what it costs.

module Floods {
  import opened Prelude
  import opened PeerGraphs
  import opened Accord
  import opened HaltRecords
  import opened HaltPlane
  import opened HaltRelays
  import opened HaltNetwork

  // ---- what a node has committed to send -----------------------------------

  /** Handler `proc` will yet put a row of `key` in flight to `v`. */
  predicate CarriesTo(mesh: Mesh, cfg: Config, proc: Proc, key: SeenKey, v: Id)
  {
    match proc
    case Halting(row, _, _, _, todo) => KeyOf(row, mesh.roster) == key && v in todo
    case Relaying(row, todo) => KeyOf(row, mesh.roster) == key && v in todo
    case Confirming(row, _, first) => KeyOf(row, mesh.roster) == key && first && v in cfg.peers
    case Resuming(row, _, _, _, first) => KeyOf(row, mesh.roster) == key && first && v in cfg.peers
    case _ => false
  }

  ghost predicate StillToSend(mesh: Mesh, net: Net, n: Id, key: SeenKey, v: Id)
    requires n in mesh.cfgs && n in net.nodes
  {
    exists p :: p in net.nodes[n].procs && CarriesTo(mesh, mesh.cfgs[n], net.nodes[n].procs[p], key, v)
  }

  ghost predicate OnTheWay(mesh: Mesh, net: Net, v: Id, key: SeenKey)
  {
    exists row :: Message(v, row) in net.inFlight && KeyOf(row, mesh.roster) == key
  }

  /** What relaying node `n` owes its peers. */
  ghost predicate Owes(mesh: Mesh, net: Net, n: Id, key: SeenKey)
    requires n in mesh.cfgs && n in net.nodes
  {
    (n, key) in net.relayed ==>
      forall v | v in mesh.cfgs[n].peers && v in net.nodes ::
        (v, key) in net.received || OnTheWay(mesh, net, v, key) || StillToSend(mesh, net, n, key, v)
  }

  /** No node crashes. */
  predicate Reliable(run: seq<NetStep>)
  {
    forall k | 0 <= k < |run| :: run[k].Local? ==> !run[k].step.Crash?
  }

  /** A handler keeps what it has to send, but for what it just sent. */
  lemma CarrierGoesOn(mesh: Mesh, cfg: Config, node: Node, s: Step, p: nat, key: SeenKey, v: Id)
    requires Enabled(cfg, node, s) && !s.Crash? && p in node.procs && CarriesTo(mesh, cfg, node.procs[p], key, v)
    ensures s == Send(p, v) || (p in Effect(cfg, node, s).procs && CarriesTo(mesh, cfg, Effect(cfg, node, s).procs[p], key, v))
  {}

  lemma SendWorkGoesOn(mesh: Mesh, net: Net, step: NetStep, key: SeenKey, v: Id)
    requires CanStep(mesh, net, step) && !NodeStep(mesh, step).Crash?
    requires v in net.nodes && StillToSend(mesh, net, step.n, key, v)
    ensures OnTheWay(mesh, NetEffect(mesh, net, step), v, key) || StillToSend(mesh, NetEffect(mesh, net, step), step.n, key, v)
  {
    var s, node, net' := NodeStep(mesh, step), net.nodes[step.n], NetEffect(mesh, net, step);
    var p :| p in node.procs && CarriesTo(mesh, mesh.cfgs[step.n], node.procs[p], key, v);
    CarrierGoesOn(mesh, mesh.cfgs[step.n], node, s, p, key, v);
    if s == Send(p, v) {
      assert Message(v, ProcRow(node.procs[p]).value) in net'.inFlight;
    } else {
      assert CarriesTo(mesh, mesh.cfgs[step.n], net'.nodes[step.n].procs[p], key, v);
    }
  }

  lemma FlightGoesOn(mesh: Mesh, net: Net, step: NetStep, v: Id, key: SeenKey)
    requires CanStep(mesh, net, step) && OnTheWay(mesh, net, v, key)
    ensures (v, key) in NetEffect(mesh, net, step).received || OnTheWay(mesh, NetEffect(mesh, net, step), v, key)
  {
    var row :| Message(v, row) in net.inFlight && KeyOf(row, mesh.roster) == key;
    if step.Deliver? && step.n == v && step.row == row {
      assert (v, key) in NetEffect(mesh, net, step).received;
    } else {
      assert Message(v, row) in NetEffect(mesh, net, step).inFlight;
    }
  }

  lemma LaunchOwns(mesh: Mesh, cfg: Config, node: Node, s: Step, key: SeenKey, v: Id)
    requires Enabled(cfg, node, s) && Launched(cfg, node, s) == Some(key) && v in cfg.peers
    requires s.Receive? || s.Decide? ==> s.roster == mesh.roster
    ensures s.Receive? || s.Decide?
    ensures Own(cfg, node, s).Some? && CarriesTo(mesh, cfg, Own(cfg, node, s).value, key, v)
  {
    assert v in multiset(cfg.peers);
  }

  /** A launch leaves a handler with every peer still to send to. */
  lemma LaunchCarries(mesh: Mesh, cfg: Config, node: Node, s: Step, key: SeenKey, v: Id)
    requires Enabled(cfg, node, s) && Launched(cfg, node, s) == Some(key) && v in cfg.peers
    requires s.Receive? || s.Decide? ==> s.roster == mesh.roster
    ensures s.Receive? || s.Decide?
    ensures s.p in Effect(cfg, node, s).procs && CarriesTo(mesh, cfg, Effect(cfg, node, s).procs[s.p], key, v)
  {
    LaunchOwns(mesh, cfg, node, s, key, v);
  }

  lemma OwesKept(mesh: Mesh, net: Net, step: NetStep, n: Id, key: SeenKey)
    requires CanStep(mesh, net, step) && !NodeStep(mesh, step).Crash?
    requires n in mesh.cfgs && n in net.nodes && Owes(mesh, net, n, key)
    ensures Owes(mesh, NetEffect(mesh, net, step), n, key)
  {
    var net' := NetEffect(mesh, net, step);
    if (n, key) in net'.relayed {
      forall v | v in mesh.cfgs[n].peers && v in net'.nodes
        ensures (v, key) in net'.received || OnTheWay(mesh, net', v, key) || StillToSend(mesh, net', n, key, v)
      {
        if (n, key) !in net.relayed {
          LaunchCarries(mesh, mesh.cfgs[n], net.nodes[n], NodeStep(mesh, step), key, v);
        } else if OnTheWay(mesh, net, v, key) {
          FlightGoesOn(mesh, net, step, v, key);
        } else if StillToSend(mesh, net, n, key, v) {
          if n == step.n {
            SendWorkGoesOn(mesh, net, step, key, v);
          } else {
            assert net'.nodes[n] == net.nodes[n];
          }
        }
      }
    }
  }

  lemma {:induction false} EveryoneOwes(mesh: Mesh, run: seq<NetStep>, n: Id, key: SeenKey)
    requires NetValid(mesh, run) && Reliable(run) && n in mesh.cfgs
    ensures n in NetAfter(mesh, run).nodes && Owes(mesh, NetAfter(mesh, run), n, key)
  {
    NodesStay(mesh, run);
    if run != [] {
      EveryoneOwes(mesh, run[..|run| - 1], n, key);
      OwesKept(mesh, NetAfter(mesh, run[..|run| - 1]), run[|run| - 1], n, key);
    }
  }

  // ---- what is in flight ---------------------------------------------------

  /** What a step puts in flight: the row its handler is about, to the peer it sends to, if that is a node. */
  function PutsInFlight(net: Net, step: NetStep): multiset<Message>
  {
    if step.Local? && step.step.Send? && step.n in net.nodes && step.step.p in net.nodes[step.n].procs
       && ProcRow(net.nodes[step.n].procs[step.step.p]).Some? && step.step.dst in net.nodes
    then multiset{Message(step.step.dst, ProcRow(net.nodes[step.n].procs[step.step.p]).value)} else multiset{}
  }

  function AllSent(mesh: Mesh, run: seq<NetStep>): multiset<Message>
  {
    if run == [] then multiset{}
    else AllSent(mesh, run[..|run| - 1]) + PutsInFlight(NetAfter(mesh, run[..|run| - 1]), run[|run| - 1])
  }

  function AllDelivered(run: seq<NetStep>): multiset<Message>
  {
    if run == [] then multiset{}
    else
      var step := run[|run| - 1];
      AllDelivered(run[..|run| - 1]) + if step.Deliver? then multiset{Message(step.n, step.row)} else multiset{}
  }

  lemma FlightMoves(mesh: Mesh, net: Net, step: NetStep)
    requires CanStep(mesh, net, step)
    ensures NetEffect(mesh, net, step).inFlight + (if step.Deliver? then multiset{Message(step.n, step.row)} else multiset{})
         == net.inFlight + PutsInFlight(net, step)
  {}

  /** No message is lost, made up or delivered twice: what was sent is what was delivered and what is in flight. */
  lemma {:induction false} FlightConserved(mesh: Mesh, run: seq<NetStep>)
    requires NetValid(mesh, run)
    ensures AllSent(mesh, run) == AllDelivered(run) + NetAfter(mesh, run).inFlight
  {
    if run != [] {
      FlightConserved(mesh, run[..|run| - 1]);
      FlightMoves(mesh, NetAfter(mesh, run[..|run| - 1]), run[|run| - 1]);
    }
  }

  // ---- where a received row came from --------------------------------------

  /** Node `n` relayed the row, and `v` is one of its peers. */
  ghost predicate Feeds(mesh: Mesh, net: Net, n: Id, v: Id, key: SeenKey)
  {
    n in mesh.cfgs && (n, key) in net.relayed && v in mesh.cfgs[n].peers
  }

  /** From an injection along peers, each node but the last relaying. */
  ghost predicate Route(mesh: Mesh, net: Net, path: seq<Id>, key: SeenKey)
  {
    && path != [] && (forall k | 0 <= k < |path| :: path[k] in mesh.cfgs)
    && (path[0], key) in net.injected
    && forall k | 0 < k < |path| :: Feeds(mesh, net, path[k - 1], path[k], key)
  }

  ghost predicate Traced(mesh: Mesh, net: Net, v: Id, key: SeenKey)
  {
    exists path :: Route(mesh, net, path, key) && path[|path| - 1] == v
  }

  /** Handlers are about rows received here. */
  ghost predicate HeardHere(mesh: Mesh, net: Net, n: Id)
    requires n in net.nodes
  {
    forall p | p in net.nodes[n].procs && ProcRow(net.nodes[n].procs[p]).Some? ::
      (n, KeyOf(ProcRow(net.nodes[n].procs[p]).value, mesh.roster)) in net.received
  }

  /** Handlers send only rows relayed here, and only to peers. */
  ghost predicate SendsHere(mesh: Mesh, net: Net, n: Id)
    requires n in mesh.cfgs && n in net.nodes
  {
    forall p, key, v | p in net.nodes[n].procs && CarriesTo(mesh, mesh.cfgs[n], net.nodes[n].procs[p], key, v) ::
      Feeds(mesh, net, n, v, key)
  }

  ghost predicate FromARelay(mesh: Mesh, net: Net, m: Message)
  {
    exists n :: Feeds(mesh, net, n, m.dst, KeyOf(m.row, mesh.roster))
  }

  lemma RowMoves(cfg: Config, node: Node, s: Step, p: nat)
    requires Enabled(cfg, node, s) && p in Effect(cfg, node, s).procs && ProcRow(Effect(cfg, node, s).procs[p]).Some?
    ensures
      var row := ProcRow(Effect(cfg, node, s).procs[p]).value;
      (p in node.procs && ProcRow(node.procs[p]) == Some(row)) || (s.Receive? && s.row == row)
  {}

  lemma OwnCarries(mesh: Mesh, cfg: Config, node: Node, s: Step, key: SeenKey, v: Id)
    requires Enabled(cfg, node, s) && !s.Crash? && Owner(s).Some? && Own(cfg, node, s).Some?
    requires CarriesTo(mesh, cfg, Own(cfg, node, s).value, key, v)
    requires s.Receive? || s.Decide? ==> s.roster == mesh.roster
    ensures (Owner(s).value in node.procs && CarriesTo(mesh, cfg, node.procs[Owner(s).value], key, v))
         || (Launched(cfg, node, s) == Some(key) && v in cfg.peers)
  {}

  lemma CarrierMoves(mesh: Mesh, cfg: Config, node: Node, s: Step, p: nat, key: SeenKey, v: Id)
    requires Enabled(cfg, node, s) && p in Effect(cfg, node, s).procs
    requires CarriesTo(mesh, cfg, Effect(cfg, node, s).procs[p], key, v)
    requires s.Receive? || s.Decide? ==> s.roster == mesh.roster
    ensures (p in node.procs && CarriesTo(mesh, cfg, node.procs[p], key, v))
         || (Launched(cfg, node, s) == Some(key) && v in cfg.peers)
  {
    if !s.Crash? && Owner(s) == Some(p) {
      OwnCarries(mesh, cfg, node, s, key, v);
    }
  }

  lemma LaunchWasReceived(mesh: Mesh, cfg: Config, node: Node, s: Step)
    requires Enabled(cfg, node, s) && Launched(cfg, node, s).Some?
    ensures s.Receive? || (s.Decide? && s.p in node.procs && ProcRow(node.procs[s.p]) == Some(s.row))
    ensures Launched(cfg, node, s).value == KeyOf(s.row, s.roster)
  {}

  lemma HeardHereKept(mesh: Mesh, net: Net, step: NetStep, n: Id)
    requires CanStep(mesh, net, step) && n in net.nodes && HeardHere(mesh, net, n)
    ensures HeardHere(mesh, NetEffect(mesh, net, step), n)
  {
    var net', s := NetEffect(mesh, net, step), NodeStep(mesh, step);
    if n == step.n {
      forall p | p in net'.nodes[n].procs && ProcRow(net'.nodes[n].procs[p]).Some?
        ensures (n, KeyOf(ProcRow(net'.nodes[n].procs[p]).value, mesh.roster)) in net'.received
      {
        RowMoves(mesh.cfgs[n], net.nodes[n], s, p);
      }
    }
  }

  lemma SendsHereKept(mesh: Mesh, net: Net, step: NetStep, n: Id)
    requires CanStep(mesh, net, step) && n in mesh.cfgs && n in net.nodes && SendsHere(mesh, net, n)
    ensures SendsHere(mesh, NetEffect(mesh, net, step), n)
  {
    var net', s := NetEffect(mesh, net, step), NodeStep(mesh, step);
    forall p, key, v | p in net'.nodes[n].procs && CarriesTo(mesh, mesh.cfgs[n], net'.nodes[n].procs[p], key, v)
      ensures Feeds(mesh, net', n, v, key)
    {
      if n == step.n {
        CarrierMoves(mesh, mesh.cfgs[n], net.nodes[n], s, p, key, v);
      }
      assert Feeds(mesh, net, n, v, key) || (n, key) in net'.relayed;
    }
  }

  lemma SendCarries(mesh: Mesh, cfg: Config, node: Node, s: Step)
    requires Enabled(cfg, node, s) && s.Send?
    ensures ProcRow(node.procs[s.p]).Some?
    ensures CarriesTo(mesh, cfg, node.procs[s.p], KeyOf(ProcRow(node.procs[s.p]).value, mesh.roster), s.dst)
  {}

  lemma InFlightKept(mesh: Mesh, net: Net, step: NetStep, m: Message)
    requires CanStep(mesh, net, step) && m in NetEffect(mesh, net, step).inFlight
    requires SendsHere(mesh, net, step.n) && (m in net.inFlight ==> FromARelay(mesh, net, m))
    ensures FromARelay(mesh, NetEffect(mesh, net, step), m)
  {
    var net', s, key := NetEffect(mesh, net, step), NodeStep(mesh, step), KeyOf(m.row, mesh.roster);
    if m in net.inFlight {
      var n :| Feeds(mesh, net, n, m.dst, key);
      assert Feeds(mesh, net', n, m.dst, key);
    } else {
      SendCarries(mesh, mesh.cfgs[step.n], net.nodes[step.n], s);
      assert Feeds(mesh, net, step.n, m.dst, key);
      assert Feeds(mesh, net', step.n, m.dst, key);
    }
  }

  lemma RouteGrows(mesh: Mesh, net: Net, net': Net, path: seq<Id>, key: SeenKey)
    requires Route(mesh, net, path, key) && net.injected <= net'.injected && net.relayed <= net'.relayed
    ensures Route(mesh, net', path, key)
  {
    forall k | 0 < k < |path|
      ensures Feeds(mesh, net', path[k - 1], path[k], key)
    {
      assert Feeds(mesh, net, path[k - 1], path[k], key);
    }
  }

  lemma RouteExtends(mesh: Mesh, net: Net, path: seq<Id>, v: Id, key: SeenKey)
    requires Route(mesh, net, path, key) && v in mesh.cfgs && Feeds(mesh, net, path[|path| - 1], v, key)
    ensures Traced(mesh, net, v, key)
  {
    var longer := path + [v];
    forall k | 0 < k < |longer|
      ensures Feeds(mesh, net, longer[k - 1], longer[k], key)
    {
      assert k < |path| ==> Feeds(mesh, net, path[k - 1], path[k], key);
    }
    assert Route(mesh, net, longer, key);
  }

  lemma HistoryOnlyGrows(mesh: Mesh, net: Net, step: NetStep)
    requires CanStep(mesh, net, step)
    ensures net.injected <= NetEffect(mesh, net, step).injected && net.relayed <= NetEffect(mesh, net, step).relayed
    ensures net.received <= NetEffect(mesh, net, step).received
    ensures NetEffect(mesh, net, step).received
         == net.received + if step.Local? then {} else {(step.n, KeyOf(step.row, mesh.roster))}
    ensures step.Inject? ==> (step.n, KeyOf(step.row, mesh.roster)) in NetEffect(mesh, net, step).injected
  {}

  /** What a node is handed was injected there, or came from a relaying neighbour that has a route itself. */
  lemma HandedIsTraced(mesh: Mesh, net: Net, net': Net, step: NetStep, key: SeenKey)
    requires step.n in mesh.cfgs && net.injected <= net'.injected && net.relayed <= net'.relayed
    requires step.Inject? ==> (step.n, key) in net'.injected
    requires step.Deliver? ==> exists n :: Feeds(mesh, net, n, step.n, key) && Traced(mesh, net, n, key)
    requires !step.Local?
    ensures Traced(mesh, net', step.n, key)
  {
    if step.Inject? {
      assert Route(mesh, net', [step.n], key);
    } else {
      var n :| Feeds(mesh, net, n, step.n, key) && Traced(mesh, net, n, key);
      var path :| Route(mesh, net, path, key) && path[|path| - 1] == n;
      RouteGrows(mesh, net, net', path, key);
      RouteExtends(mesh, net', path, step.n, key);
    }
  }

  lemma {:induction false} NodesSendWhatTheyRelay(mesh: Mesh, run: seq<NetStep>, n: Id)
    requires NetValid(mesh, run) && n in mesh.cfgs
    ensures n in NetAfter(mesh, run).nodes && HeardHere(mesh, NetAfter(mesh, run), n) && SendsHere(mesh, NetAfter(mesh, run), n)
  {
    NodesStay(mesh, run);
    if run != [] {
      NodesSendWhatTheyRelay(mesh, run[..|run| - 1], n);
      HeardHereKept(mesh, NetAfter(mesh, run[..|run| - 1]), run[|run| - 1], n);
      SendsHereKept(mesh, NetAfter(mesh, run[..|run| - 1]), run[|run| - 1], n);
    }
  }

  lemma {:induction false} FlightsComeFromRelays(mesh: Mesh, run: seq<NetStep>, m: Message)
    requires NetValid(mesh, run) && m in NetAfter(mesh, run).inFlight
    ensures FromARelay(mesh, NetAfter(mesh, run), m)
  {
    if run != [] {
      var pre, step := run[..|run| - 1], run[|run| - 1];
      if m in NetAfter(mesh, pre).inFlight {
        FlightsComeFromRelays(mesh, pre, m);
      }
      NodesSendWhatTheyRelay(mesh, pre, step.n);
      InFlightKept(mesh, NetAfter(mesh, pre), step, m);
    }
  }

  lemma {:induction false} RelayedWasReceived(mesh: Mesh, run: seq<NetStep>)
    requires NetValid(mesh, run)
    ensures NetAfter(mesh, run).relayed <= NetAfter(mesh, run).received
    ensures NetAfter(mesh, run).injected <= NetAfter(mesh, run).received
  {
    if run != [] {
      var pre, step := run[..|run| - 1], run[|run| - 1];
      RelayedWasReceived(mesh, pre);
      NodesSendWhatTheyRelay(mesh, pre, step.n);
      LaunchIsReceived(mesh, NetAfter(mesh, pre), step);
      HistoryOnlyGrows(mesh, NetAfter(mesh, pre), step);
    }
  }

  lemma LaunchIsReceived(mesh: Mesh, net: Net, step: NetStep)
    requires CanStep(mesh, net, step) && HeardHere(mesh, net, step.n)
    ensures
      var launched := Launched(mesh.cfgs[step.n], net.nodes[step.n], NodeStep(mesh, step));
      launched.Some? ==> (step.n, launched.value) in NetEffect(mesh, net, step).received
  {
    if Launched(mesh.cfgs[step.n], net.nodes[step.n], NodeStep(mesh, step)).Some? {
      LaunchWasReceived(mesh, mesh.cfgs[step.n], net.nodes[step.n], NodeStep(mesh, step));
    }
  }

  lemma {:induction false} ReceivedIsTraced(mesh: Mesh, run: seq<NetStep>, v: Id, key: SeenKey)
    requires NetValid(mesh, run) && (v, key) in NetAfter(mesh, run).received
    ensures Traced(mesh, NetAfter(mesh, run), v, key)
  {
    if run != [] {
      var pre, step := run[..|run| - 1], run[|run| - 1];
      var net, net' := NetAfter(mesh, pre), NetAfter(mesh, run);
      HistoryOnlyGrows(mesh, net, step);
      if (v, key) in net.received {
        ReceivedIsTraced(mesh, pre, v, key);
        var path :| Route(mesh, net, path, key) && path[|path| - 1] == v;
        RouteGrows(mesh, net, net', path, key);
      } else {
        if step.Deliver? {
          FlightsComeFromRelays(mesh, pre, Message(v, step.row));
          RelayedWasReceived(mesh, pre);
          var n :| Feeds(mesh, net, n, v, key);
          ReceivedIsTraced(mesh, pre, n, key);
        }
        HandedIsTraced(mesh, net, net', step, key);
      }
    }
  }

  // ---- exactly whom a row reaches ------------------------------------------

  /** Nothing of the row is in flight and no handler has it to send. */
  ghost predicate Settled(mesh: Mesh, net: Net, key: SeenKey)
  {
    && (forall v | v in net.nodes :: !OnTheWay(mesh, net, v, key))
    && (forall n, v | n in net.nodes && n in mesh.cfgs :: !StillToSend(mesh, net, n, key, v))
  }

  /** A settled row has reached every node a relaying one feeds. */
  lemma FedHasReceived(mesh: Mesh, run: seq<NetStep>, n: Id, v: Id, key: SeenKey)
    requires NetValid(mesh, run) && Reliable(run) && Settled(mesh, NetAfter(mesh, run), key)
    requires Feeds(mesh, NetAfter(mesh, run), n, v, key) && v in mesh.cfgs
    ensures (v, key) in NetAfter(mesh, run).received
  {
    NodesStay(mesh, run);
    EveryoneOwes(mesh, run, n, key);
  }

  /**
   * Exactly whom any row reaches, over any peer graph and any run: at every moment only nodes
   * with a route from an injection along nodes that relayed it, and, with reliable delivery,
   * once the row has settled all of those.  A node relays what it sights first, if it takes
   * effect there.
   */
  lemma FloodReachesExactly(mesh: Mesh, run: seq<NetStep>, v: Id, key: SeenKey)
    requires NetValid(mesh, run)
    ensures (v, key) in NetAfter(mesh, run).received ==> Traced(mesh, NetAfter(mesh, run), v, key)
    ensures Reliable(run) && Settled(mesh, NetAfter(mesh, run), key) ==>
      ((v, key) in NetAfter(mesh, run).received <==> Traced(mesh, NetAfter(mesh, run), v, key))
  {
    var net := NetAfter(mesh, run);
    if (v, key) in net.received {
      ReceivedIsTraced(mesh, run, v, key);
    }
    if Reliable(run) && Settled(mesh, net, key) && Traced(mesh, net, v, key) {
      RelayedWasReceived(mesh, run);
      var path :| Route(mesh, net, path, key) && path[|path| - 1] == v;
      if |path| > 1 {
        FedHasReceived(mesh, run, path[|path| - 2], v, key);
      }
    }
  }

  // ---- halts reach everyone ------------------------------------------------

  ghost predicate StillToLatch(node: Node, h: Id)
  {
    exists p :: p in node.procs && node.procs[p].Halting? && node.procs[p].row.inv.id == h
  }

  /** A node that received halt `h` relayed it, and has latched it or has a handler about to. */
  ghost predicate HonorsHalt(net: Net, n: Id, h: Id)
    requires n in net.nodes
  {
    && (HaltKey(h) in net.nodes[n].seen ==> (n, HaltKey(h)) in net.received)
    && ((n, HaltKey(h)) in net.received ==>
          (n, HaltKey(h)) in net.relayed && ((n, h) in net.latched || StillToLatch(net.nodes[n], h)))
  }

  /** A halt handler stays until it writes its latch. */
  lemma HaltingStays(cfg: Config, node: Node, s: Step, p: nat)
    requires Enabled(cfg, node, s) && cfg.home && !s.Crash? && p in node.procs && node.procs[p].Halting?
    ensures
      if s.WriteHalt? && s.p == p then s.rec.invocationId == node.procs[p].row.inv.id
      else p in Effect(cfg, node, s).procs && SameHandler(Effect(cfg, node, s).procs[p], node.procs[p])
  {}

  lemma LatchWorkGoesOn(mesh: Mesh, net: Net, step: NetStep, h: Id)
    requires CanStep(mesh, net, step) && mesh.cfgs[step.n].home && !NodeStep(mesh, step).Crash?
    requires StillToLatch(net.nodes[step.n], h)
    ensures (step.n, h) in NetEffect(mesh, net, step).latched || StillToLatch(NetEffect(mesh, net, step).nodes[step.n], h)
  {
    var node, node' := net.nodes[step.n], NetEffect(mesh, net, step).nodes[step.n];
    var p :| p in node.procs && node.procs[p].Halting? && node.procs[p].row.inv.id == h;
    HaltingStays(mesh.cfgs[step.n], node, NodeStep(mesh, step), p);
    if p in node'.procs && node'.procs[p].Halting? && node'.procs[p].row.inv.id == h {
      assert StillToLatch(node', h);
    }
  }

  /** The first receipt of a halt is sighted first: it is relayed, and its handler will latch. */
  lemma FirstReceiptHonors(cfg: Config, node: Node, s: Step, h: Id)
    requires Enabled(cfg, node, s) && s.Receive? && KeyOf(s.row, s.roster) == HaltKey(h) && HaltKey(h) !in node.seen
    ensures Launched(cfg, node, s) == Some(HaltKey(h)) && StillToLatch(Effect(cfg, node, s), h)
  {
    QuorumNeedsASeat(s.row, s.roster);
    assert Effect(cfg, node, s).procs[s.p].Halting?;
  }

  lemma SeenWasReceived(cfg: Config, node: Node, s: Step, key: SeenKey)
    requires Enabled(cfg, node, s) && key in Effect(cfg, node, s).seen
    ensures key in node.seen || (s.Receive? && KeyOf(s.row, s.roster) == key)
  {}

  lemma HonorsHaltKept(mesh: Mesh, net: Net, step: NetStep, h: Id)
    requires CanStep(mesh, net, step) && mesh.cfgs[step.n].home && !NodeStep(mesh, step).Crash?
    requires HonorsHalt(net, step.n, h)
    ensures HonorsHalt(NetEffect(mesh, net, step), step.n, h)
  {
    var net', s, key := NetEffect(mesh, net, step), NodeStep(mesh, step), HaltKey(h);
    HistoryOnlyGrows(mesh, net, step);
    if key in net'.nodes[step.n].seen {
      SeenWasReceived(mesh.cfgs[step.n], net.nodes[step.n], s, key);
    }
    if (step.n, key) in net'.received {
      if (step.n, key) !in net.received {
        FirstReceiptHonors(mesh.cfgs[step.n], net.nodes[step.n], s, h);
      } else if StillToLatch(net.nodes[step.n], h) {
        LatchWorkGoesOn(mesh, net, step, h);
      }
    }
  }

  /** Every node has a place for its latch. */
  predicate Homes(mesh: Mesh)
  {
    forall n | n in mesh.cfgs :: mesh.cfgs[n].home
  }

  lemma {:induction false} EveryoneHonorsHalts(mesh: Mesh, run: seq<NetStep>, n: Id, h: Id)
    requires NetValid(mesh, run) && Reliable(run) && Homes(mesh) && n in mesh.cfgs
    ensures n in NetAfter(mesh, run).nodes && HonorsHalt(NetAfter(mesh, run), n, h)
  {
    NodesStay(mesh, run);
    if run != [] {
      var pre, step := run[..|run| - 1], run[|run| - 1];
      EveryoneHonorsHalts(mesh, pre, n, h);
      if step.n == n {
        HonorsHaltKept(mesh, NetAfter(mesh, pre), step, h);
      } else {
        HistoryOnlyGrows(mesh, NetAfter(mesh, pre), step);
      }
    }
  }

  /**
   * With reliable delivery over any peer graph, once a halt has settled every node reachable
   * from one that received it has received and latched it, however often seen sets were
   * cleared, whatever other traffic was mixed in, and whatever happened to those latches since.
   */
  lemma {:induction false} HaltFloodReaches(mesh: Mesh, run: seq<NetStep>, path: seq<Id>, h: Id)
    requires NetValid(mesh, run) && Reliable(run) && Homes(mesh)
    requires Settled(mesh, NetAfter(mesh, run), HaltKey(h))
    requires forall n | n in NetAfter(mesh, run).nodes :: !StillToLatch(NetAfter(mesh, run).nodes[n], h)
    requires Path(PeersOf(mesh), path) && (path[0], HaltKey(h)) in NetAfter(mesh, run).received
    ensures (path[|path| - 1], HaltKey(h)) in NetAfter(mesh, run).received
    ensures (path[|path| - 1], h) in NetAfter(mesh, run).latched
  {
    EveryoneHonorsHalts(mesh, run, path[|path| - 1], h);
    if |path| > 1 {
      var prev := path[|path| - 2];
      HaltFloodReaches(mesh, run, path[..|path| - 1], h);
      EveryoneHonorsHalts(mesh, run, prev, h);
      FedHasReceived(mesh, run, prev, path[|path| - 1], HaltKey(h));
    }
  }
}
