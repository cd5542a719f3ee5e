// Each node of a mesh on its own: the steps it took are a run of the halt plane, so what is
// proved of one node's runs holds of every node of every mesh.

module NodeRuns {
  import opened Prelude
  import opened HaltPlane
  import opened HaltHistory
  import opened HaltNetwork

  /** The steps of a mesh run that were node `n`'s. */
  function NodeRun(mesh: Mesh, run: seq<NetStep>, n: Id): seq<Step>
  {
    if run == [] then []
    else
      var pre, step := run[..|run| - 1], run[|run| - 1];
      if step.n == n then NodeRun(mesh, pre, n) + [NodeStep(mesh, step)] else NodeRun(mesh, pre, n)
  }

  lemma {:induction false} NodeRunIsTheNode(mesh: Mesh, run: seq<NetStep>, n: Id)
    requires NetValid(mesh, run) && n in mesh.cfgs
    ensures Valid(mesh.cfgs[n], NodeRun(mesh, run, n))
    ensures n in NetAfter(mesh, run).nodes && NetAfter(mesh, run).nodes[n] == After(mesh.cfgs[n], NodeRun(mesh, run, n))
  {
    if run != [] {
      var pre, step := run[..|run| - 1], run[|run| - 1];
      NodeRunIsTheNode(mesh, pre, n);
      if step.n == n {
        OneMore(mesh.cfgs[n], NodeRun(mesh, pre, n), NodeStep(mesh, step));
      }
    }
  }

  /** So on every node of every mesh the status agrees with that node's history exactly when its latch is not haunted. */
  lemma EveryNodeAgreesWithHistory(mesh: Mesh, run: seq<NetStep>, n: Id)
    requires NetValid(mesh, run) && n in mesh.cfgs
    ensures n in NetAfter(mesh, run).nodes
    ensures (forall t :: StatusAt(NetAfter(mesh, run).nodes[n].latch, t).Halted? <==> Promised(NodeRun(mesh, run, n), t))
      <==> !Haunted(NodeRun(mesh, run, n))
  {
    NodeRunIsTheNode(mesh, run, n);
    StatusAgreesWithHistory(mesh.cfgs[n], NodeRun(mesh, run, n));
  }

  // ---- relaying, told by the node's own run --------------------------------

  /** The row step `m` of a run commits the node to relay, if it does. */
  function LaunchedAt(cfg: Config, run: seq<Step>, m: nat): Option<SeenKey>
    requires m < |run|
  {
    if Enabled(cfg, After(cfg, run[..m]), run[m]) then Launched(cfg, After(cfg, run[..m]), run[m]) else None
  }

  ghost predicate Launches(cfg: Config, run: seq<Step>, key: SeenKey)
  {
    exists m: nat :: m < |run| && LaunchedAt(cfg, run, m) == Some(key)
  }

  lemma LaunchesExtends(cfg: Config, run: seq<Step>, step: Step, key: SeenKey)
    requires Enabled(cfg, After(cfg, run), step)
    ensures Launches(cfg, run + [step], key) <==> Launches(cfg, run, key) || Launched(cfg, After(cfg, run), step) == Some(key)
  {
    var longer := run + [step];
    assert longer[..|run|] == run && longer[|run|] == step;
    forall m: nat | m < |run|
      ensures LaunchedAt(cfg, longer, m) == LaunchedAt(cfg, run, m)
    {
      assert longer[..m] == run[..m];
    }
    assert LaunchedAt(cfg, longer, |run|) == Launched(cfg, After(cfg, run), step);
    if m: nat :| m < |run| && LaunchedAt(cfg, run, m) == Some(key) {
      assert LaunchedAt(cfg, longer, m) == Some(key);
    }
  }

  lemma RelayedMoves(mesh: Mesh, net: Net, step: NetStep, n: Id, key: SeenKey)
    requires CanStep(mesh, net, step)
    ensures (n, key) in NetEffect(mesh, net, step).relayed <==>
      (n, key) in net.relayed
      || (step.n == n && Launched(mesh.cfgs[n], net.nodes[n], NodeStep(mesh, step)) == Some(key))
  {}

  /** What the mesh says a node relayed is what that node's own run launched. */
  lemma {:induction false} RelayedIffLaunched(mesh: Mesh, run: seq<NetStep>, n: Id, key: SeenKey)
    requires NetValid(mesh, run) && n in mesh.cfgs
    ensures (n, key) in NetAfter(mesh, run).relayed <==> Launches(mesh.cfgs[n], NodeRun(mesh, run, n), key)
  {
    if run != [] {
      var pre, step := run[..|run| - 1], run[|run| - 1];
      RelayedIffLaunched(mesh, pre, n, key);
      RelayedMoves(mesh, NetAfter(mesh, pre), step, n, key);
      NodeRunIsTheNode(mesh, pre, n);
      if step.n == n {
        LaunchesExtends(mesh.cfgs[n], NodeRun(mesh, pre, n), NodeStep(mesh, step), key);
      }
    }
  }
}
