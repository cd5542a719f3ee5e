// The co-scrub store on many nodes: a partial a node sees for the first time is put in flight to
// each of its peers, and a delivery is an arrival there.

module CoScrubMesh {
  import opened Prelude
  import opened PeerGraphs
  import opened CoScrubs

  datatype Message = Message(dst: Id, e: Entry)

  /** The stores, what is in flight, and how many messages each node has sent. */
  datatype Net = Net(stores: map<Id, Store>, inFlight: multiset<Message>, sent: map<Id, nat>)

  datatype NetStep =
    | Inject(n: Id, t: nat, e: Entry)
    | Deliver(n: Id, t: nat, e: Entry)
    | Finishes(n: Id, t: nat)
    | ClearsAt(n: Id, target: Id)

  function Quiet0(peers: Peers): Net
  {
    Net(map n | n in peers :: Empty, multiset{}, map n | n in peers :: 0)
  }

  function StoreStep(step: NetStep): Step
  {
    match step
    case Inject(_, t, e) => Arrive(t, e)
    case Deliver(_, t, e) => Arrive(t, e)
    case Finishes(_, t) => Finish(t)
    case ClearsAt(_, target) => Clear(target)
  }

  predicate CanStep(peers: Peers, net: Net, step: NetStep)
  {
    && step.n in peers && step.n in net.stores && step.n in net.sent
    && Enabled(net.stores[step.n], StoreStep(step))
    && (step.Deliver? ==> Message(step.n, step.e) in net.inFlight)
  }

  /** One message to each peer. */
  function FanOut(to: seq<Id>, e: Entry): multiset<Message>
  {
    multiset(seq(|to|, k requires 0 <= k < |to| => Message(to[k], e)))
  }

  lemma FanOutReaches(to: seq<Id>, e: Entry, v: Id)
    requires v in to
    ensures Message(v, e) in FanOut(to, e)
  {
    var k :| 0 <= k < |to| && to[k] == v;
    var messages := seq(|to|, k requires 0 <= k < |to| => Message(to[k], e));
    assert messages[k] == Message(v, e);
  }

  function NetEffect(peers: Peers, net: Net, step: NetStep): Net
    requires CanStep(peers, net, step)
  {
    var n := step.n;
    Net(
      net.stores[n := Next(net.stores[n], StoreStep(step))],
      match step
      case Deliver(_, _, e) => net.inFlight - multiset{Message(n, e)}
      case Finishes(_, t) => net.inFlight + FanOut(peers[n], net.stores[n].tasks[t])
      case _ => net.inFlight,
      if step.Finishes? then net.sent[n := net.sent[n] + |peers[n]|] else net.sent)
  }

  function NetAfter(peers: Peers, run: seq<NetStep>): Net
  {
    if run == [] then Quiet0(peers)
    else
      var net, step := NetAfter(peers, run[..|run| - 1]), run[|run| - 1];
      if CanStep(peers, net, step) then NetEffect(peers, net, step) else net
  }

  predicate NetValid(peers: Peers, run: seq<NetStep>)
  {
    run == []
    || (NetValid(peers, run[..|run| - 1]) && CanStep(peers, NetAfter(peers, run[..|run| - 1]), run[|run| - 1]))
  }

  // ---- each node keeps its loop-stop, and gossips to every peer ------------

  lemma SentStep(peers: Peers, net: Net, step: NetStep, n: Id)
    requires CanStep(peers, net, step) && n in peers && n in net.stores && n in net.sent
    requires LoopStopped(net.stores[n]) && net.sent[n] == |net.stores[n].gossiped| * |peers[n]|
    ensures
      var net' := NetEffect(peers, net, step);
      && n in net'.stores && n in net'.sent && LoopStopped(net'.stores[n])
      && net'.sent[n] == |net'.stores[n].gossiped| * |peers[n]|
  {
    if step.n == n {
      LoopStopKept(net.stores[n], StoreStep(step));
      OneMoreTimes(|net.stores[n].gossiped|, |peers[n]|);
    }
  }

  lemma {:induction false} NodesLoopStopped(peers: Peers, run: seq<NetStep>, n: Id)
    requires NetValid(peers, run) && n in peers
    ensures n in NetAfter(peers, run).stores && n in NetAfter(peers, run).sent
    ensures LoopStopped(NetAfter(peers, run).stores[n])
    ensures NetAfter(peers, run).sent[n] == |NetAfter(peers, run).stores[n].gossiped| * |peers[n]|
  {
    if run != [] {
      var pre, step := run[..|run| - 1], run[|run| - 1];
      NodesLoopStopped(peers, pre, n);
      SentStep(peers, NetAfter(peers, pre), step, n);
    }
  }

  lemma OneMoreTimes(a: nat, x: nat)
    ensures a * x + x == (a + 1) * x
  {}

  ghost predicate OnTheWay(net: Net, v: Id, key: Key)
  {
    exists e :: Message(v, e) in net.inFlight && KeyOf(e) == key
  }

  /** What a node gossiped each peer has seen, or is about to be handed. */
  ghost predicate Told(peers: Peers, net: Net, n: Id, v: Id, key: Key)
    requires n in peers && n in net.stores
  {
    key in net.stores[n].gossiped && v in peers[n] && v in net.stores ==> key in net.stores[v].seen || OnTheWay(net, v, key)
  }

  lemma FlightLands(peers: Peers, net: Net, step: NetStep, v: Id, key: Key)
    requires CanStep(peers, net, step) && v in net.stores && OnTheWay(net, v, key)
    ensures key in NetEffect(peers, net, step).stores[v].seen || OnTheWay(NetEffect(peers, net, step), v, key)
  {
    var e :| Message(v, e) in net.inFlight && KeyOf(e) == key;
    if !(step.Deliver? && step.n == v && step.e == e) {
      assert Message(v, e) in NetEffect(peers, net, step).inFlight;
    }
  }

  lemma SeenStays(s: Store, step: Step)
    requires Enabled(s, step)
    ensures s.seen <= Next(s, step).seen
    ensures forall key | key in Next(s, step).gossiped :: key in s.gossiped || (step.Finish? && key == KeyOf(s.tasks[step.t]))
  {}

  lemma ToldKept(peers: Peers, net: Net, step: NetStep, n: Id, v: Id, key: Key)
    requires CanStep(peers, net, step) && n in peers && n in net.stores && Told(peers, net, n, v, key)
    ensures Told(peers, NetEffect(peers, net, step), n, v, key)
  {
    var net' := NetEffect(peers, net, step);
    SeenStays(net.stores[step.n], StoreStep(step));
    if key in net'.stores[n].gossiped && v in peers[n] && v in net.stores {
      if key !in net.stores[n].gossiped {
        var e := net.stores[n].tasks[step.t];
        FanOutReaches(peers[n], e, v);
        assert Message(v, e) in net'.inFlight;
      } else if OnTheWay(net, v, key) {
        FlightLands(peers, net, step, v, key);
      }
    }
  }

  lemma {:induction false} EveryPeerTold(peers: Peers, run: seq<NetStep>, n: Id, v: Id, key: Key)
    requires NetValid(peers, run) && n in peers && v in peers
    ensures n in NetAfter(peers, run).stores && v in NetAfter(peers, run).stores
    ensures Told(peers, NetAfter(peers, run), n, v, key)
  {
    NodesLoopStopped(peers, run, n);
    NodesLoopStopped(peers, run, v);
    if run != [] {
      EveryPeerTold(peers, run[..|run| - 1], n, v, key);
      ToldKept(peers, NetAfter(peers, run[..|run| - 1]), run[|run| - 1], n, v, key);
    }
  }

  // ---- where gossip goes, and what it costs --------------------------------

  /** Nothing of the key is in flight and no arrival of it is between its two locks. */
  ghost predicate AtRest(net: Net, key: Key)
  {
    && (forall v | v in net.stores :: !OnTheWay(net, v, key))
    && (forall n | n in net.stores :: !BetweenLocks(net.stores[n], key))
  }

  /** With reliable delivery over any peer graph, a key at rest has been seen wherever a node that saw it leads. */
  lemma {:induction false} GossipReaches(peers: Peers, run: seq<NetStep>, path: seq<Id>, key: Key)
    requires NetValid(peers, run) && AtRest(NetAfter(peers, run), key) && Path(peers, path)
    requires path[0] in NetAfter(peers, run).stores && key in NetAfter(peers, run).stores[path[0]].seen
    ensures path[|path| - 1] in NetAfter(peers, run).stores
    ensures key in NetAfter(peers, run).stores[path[|path| - 1]].seen
  {
    if |path| > 1 {
      var prev, last := path[|path| - 2], path[|path| - 1];
      GossipReaches(peers, run, path[..|path| - 1], key);
      NodesLoopStopped(peers, run, prev);
      EveryPeerTold(peers, run, prev, last, key);
      assert !BetweenLocks(NetAfter(peers, run).stores[prev], key);
    }
  }

  /** Messages the listed nodes have sent. */
  function Messages(net: Net, ns: seq<Id>): nat
    requires forall n | n in ns :: n in net.sent
  {
    if ns == [] then 0 else net.sent[ns[0]] + Messages(net, ns[1..])
  }

  lemma Scaled(a: nat, k: nat, x: nat, m: nat, y: nat)
    requires a <= k && m <= k * y
    ensures a * x + m <= k * (x + y)
  {
    TimesGrows(a, k, x);
    Distributes(k, x, y);
  }

  lemma Distributes(k: nat, x: nat, y: nat)
    ensures k * x + k * y == k * (x + y)
  {}

  lemma TimesGrows(a: nat, k: nat, x: nat)
    requires a <= k
    ensures a * x <= k * x
  {}

  /** Gossiping finitely many keys costs the mesh at most that many times its out-degrees in messages. */
  lemma {:induction false} FloodEnds(peers: Peers, run: seq<NetStep>, ns: seq<Id>, keys: set<Key>)
    requires NetValid(peers, run) && forall n | n in ns :: n in peers
    requires forall n | n in ns && n in NetAfter(peers, run).stores :: NetAfter(peers, run).stores[n].seen <= keys
    ensures forall n | n in ns :: n in NetAfter(peers, run).sent
    ensures Messages(NetAfter(peers, run), ns) <= |keys| * OutDegrees(peers, ns)
    decreases |ns|
  {
    forall n | n in ns
      ensures n in NetAfter(peers, run).sent
    {
      NodesLoopStopped(peers, run, n);
    }
    if ns != [] {
      NodesLoopStopped(peers, run, ns[0]);
      var s := NetAfter(peers, run).stores[ns[0]];
      DistinctWithin(s.gossiped, keys);
      FloodEnds(peers, run, ns[1..], keys);
      Scaled(|s.gossiped|, |keys|, |peers[ns[0]]|, Messages(NetAfter(peers, run), ns[1..]), OutDegrees(peers, ns[1..]));
    }
  }
}
