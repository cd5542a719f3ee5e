// Many nodes, any peer graph, one shared roster: every node runs the halt plane, a relay
// puts a row in flight, and a delivery hands it to the handler that may relay it again.

module HaltNetwork {
  import opened Prelude
  import opened PeerGraphs
  import opened Accord
  import opened HaltRecords
  import opened Releases
  import opened HaltPlane

  datatype Mesh = Mesh(cfgs: map<Id, Config>, roster: seq<Member>)

  function PeersOf(mesh: Mesh): Peers
  {
    map n | n in mesh.cfgs :: mesh.cfgs[n].peers
  }

  datatype Message = Message(dst: Id, row: Row)

  /**
   * A token honored on `node`: the record it was honored for and when that was read, the record
   * its removal took away, unless the latch was unreadable by then, and when.
   */
  datatype Ending = Ending(
    node: Id, token: ReleaseToken, read: HaltRecord, readAt: nat, removed: Option<HaltRecord>, endedAt: nat)

  /** A latch instance: the node that minted its id and the record it wrote. */
  datatype Instance = Instance(node: Id, rec: HaltRecord)

  /** A confirmation that wrote back a latch instance that was no longer on disk. */
  datatype Revival = Revival(node: Id, latchId: Option<Id>, at: nat)

  /**
   * The nodes and what is in flight, then what has happened so far: which latch instances were
   * written; which row was injected at, received by and relayed by which node; which node
   * latched which halt; what each node sent of each halt; how many steps were taken; when each
   * honored token's handler read its latch; which latches ended by a token and which were
   * written back.
   */
  datatype Net = Net(
    nodes: map<Id, Node>, inFlight: multiset<Message>,
    minted: map<Id, Instance>,
    injected: set<(Id, SeenKey)>, received: set<(Id, SeenKey)>, relayed: set<(Id, SeenKey)>,
    latched: set<(Id, Id)>, sent: map<(Id, Id), multiset<Id>>,
    time: nat, readTimes: map<(Id, nat), nat>, endings: seq<Ending>, revivals: seq<Revival>)

  datatype NetStep =
    | Inject(n: Id, p: nat, row: Row, now: Instant)
    | Deliver(n: Id, p: nat, row: Row, now: Instant)
    | Local(n: Id, step: Step)

  function Quiet0(mesh: Mesh): Net
  {
    Net(map n | n in mesh.cfgs :: FirstBoot, multiset{}, map[], {}, {}, {}, {}, map[], 0, map[], [], [])
  }

  function NodeStep(mesh: Mesh, step: NetStep): Step
  {
    match step
    case Inject(_, p, row, now) => Receive(p, row, mesh.roster, now)
    case Deliver(_, p, row, now) => Receive(p, row, mesh.roster, now)
    case Local(_, s) => s
  }

  predicate CanStep(mesh: Mesh, net: Net, step: NetStep)
  {
    && step.n in mesh.cfgs && step.n in net.nodes
    && Enabled(mesh.cfgs[step.n], net.nodes[step.n], NodeStep(mesh, step))
    && (step.Deliver? ==> Message(step.n, step.row) in net.inFlight)
    && (step.Local? ==> !step.step.Receive? && (step.step.Decide? ==> step.step.roster == mesh.roster))
    && (step.Local? && step.step.WriteHalt? && step.step.rec.latchId.Some? ==>
          step.step.rec.latchId.value !in net.minted)
  }

  /** The row a handler is about, and may send on. */
  function ProcRow(proc: Proc): Option<Row>
  {
    match proc
    case Halting(row, _, _, _, _) => Some(row)
    case Relaying(row, _) => Some(row)
    case Deciding(row, _, _, _) => Some(row)
    case Confirming(row, _, _) => Some(row)
    case Resuming(row, _, _, _, _) => Some(row)
    case Honoring(_, _, _, _) => None
    case Consuming => None
  }

  /** The row a step commits its node to relay to every peer: sighted first, and taking effect. */
  function Launched(cfg: Config, s: Node, step: Step): Option<SeenKey>
    requires Enabled(cfg, s, step)
  {
    match step
    case Receive(_, row, roster, now) =>
      var proc := Opened(cfg, s, row, roster, now);
      if proc.Some? && !proc.value.Deciding? && FirstSight(s, KeyOf(row, roster)) then Some(KeyOf(row, roster)) else None
    case Decide(p, row, roster, at) =>
      if Decided(s.latch, s.procs[p], at).Some? && s.procs[p].first then Some(KeyOf(row, roster)) else None
    case _ => None
  }

  function InFlightNext(mesh: Mesh, net: Net, step: NetStep): multiset<Message>
    requires CanStep(mesh, net, step)
  {
    match step
    case Inject(_, _, _, _) => net.inFlight
    case Deliver(n, _, row, _) => net.inFlight - multiset{Message(n, row)}
    case Local(n, s) =>
      if s.Send? && s.dst in net.nodes && ProcRow(net.nodes[n].procs[s.p]).Some?
      then net.inFlight + multiset{Message(s.dst, ProcRow(net.nodes[n].procs[s.p]).value)}
      else net.inFlight
  }

  function SentOf(net: Net, n: Id, h: Id): multiset<Id>
  {
    if (n, h) in net.sent then net.sent[(n, h)] else multiset{}
  }

  /** The halt a step sends on, if it sends one. */
  function HaltSent(net: Net, step: NetStep): Option<Id>
    requires step.n in net.nodes
    requires step.Local? && step.step.Send? ==> step.step.p in net.nodes[step.n].procs
  {
    if step.Local? && step.step.Send? && net.nodes[step.n].procs[step.step.p].Halting?
    then Some(net.nodes[step.n].procs[step.step.p].row.inv.id) else None
  }

  /** When handler `p` on node `n` read the latch it honors a token for. */
  function ReadTime(net: Net, n: Id, p: nat): nat
  {
    if (n, p) in net.readTimes then net.readTimes[(n, p)] else 0
  }

  function Removed(latch: LatchFile): Option<HaltRecord>
  {
    if latch.Holds? then Some(latch.rec) else None
  }

  function EndingsNext(mesh: Mesh, net: Net, step: NetStep): seq<Ending>
    requires CanStep(mesh, net, step)
  {
    if step.Local? && step.step.Remove? && net.nodes[step.n].procs[step.step.p].Honoring?
       && net.nodes[step.n].procs[step.step.p].line.Honored? && !net.nodes[step.n].latch.Absent?
    then
      var proc := net.nodes[step.n].procs[step.step.p];
      net.endings + [Ending(step.n, proc.line.token, proc.rec, ReadTime(net, step.n, step.step.p),
                            Removed(net.nodes[step.n].latch), net.time)]
    else net.endings
  }

  predicate OnDisk(net: Net, n: Id, l: Id)
  {
    n in net.nodes && net.nodes[n].latch.Holds? && net.nodes[n].latch.rec.latchId == Some(l)
  }

  function RevivalsNext(net: Net, step: NetStep): seq<Revival>
  {
    if step.Local? && step.step.Confirm? && step.step.rec.latchId.Some? && !OnDisk(net, step.n, step.step.rec.latchId.value)
    then net.revivals + [Revival(step.n, step.step.rec.latchId, net.time)] else net.revivals
  }

  function NetEffect(mesh: Mesh, net: Net, step: NetStep): Net
    requires CanStep(mesh, net, step)
  {
    var n, s := step.n, NodeStep(mesh, step);
    var h, launched := HaltSent(net, step), Launched(mesh.cfgs[n], net.nodes[n], s);
    Net(
      net.nodes[n := Effect(mesh.cfgs[n], net.nodes[n], s)],
      InFlightNext(mesh, net, step),
      if s.WriteHalt? && s.rec.latchId.Some? then net.minted[s.rec.latchId.value := Instance(n, s.rec)] else net.minted,
      if step.Inject? then net.injected + {(n, KeyOf(step.row, mesh.roster))} else net.injected,
      if s.Receive? then net.received + {(n, KeyOf(s.row, mesh.roster))} else net.received,
      if launched.Some? then net.relayed + {(n, launched.value)} else net.relayed,
      if s.WriteHalt? then net.latched + {(n, s.rec.invocationId)} else net.latched,
      if h.Some? then net.sent[(n, h.value) := SentOf(net, n, h.value) + multiset{step.step.dst}] else net.sent,
      net.time + 1,
      if s.ReadToken? then net.readTimes[(n, s.p) := net.time] else net.readTimes,
      EndingsNext(mesh, net, step),
      RevivalsNext(net, step))
  }

  function NetAfter(mesh: Mesh, run: seq<NetStep>): Net
  {
    if run == [] then Quiet0(mesh)
    else
      var net, step := NetAfter(mesh, run[..|run| - 1]), run[|run| - 1];
      if CanStep(mesh, net, step) then NetEffect(mesh, net, step) else net
  }

  predicate NetValid(mesh: Mesh, run: seq<NetStep>)
  {
    run == []
    || (NetValid(mesh, run[..|run| - 1]) && CanStep(mesh, NetAfter(mesh, run[..|run| - 1]), run[|run| - 1]))
  }

  lemma {:induction false} NodesStay(mesh: Mesh, run: seq<NetStep>)
    requires NetValid(mesh, run)
    ensures NetAfter(mesh, run).nodes.Keys == mesh.cfgs.Keys
  {
    if run != [] {
      NodesStay(mesh, run[..|run| - 1]);
    }
  }
}
