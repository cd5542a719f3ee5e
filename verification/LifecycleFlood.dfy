// Confirmations and resumptions do not flood as halts do: while a node remembers what it has
// seen, it relays one exactly if the first sighting of it took effect there.

module LifecycleFlood {
  import opened Prelude
  import opened Accord
  import opened HaltRecords
  import opened HaltPlane
  import opened HaltHistory
  import opened HaltNetwork
  import opened Floods
  import opened NodeRuns

  /** A binding confirmation or resumption's key. */
  predicate IsLifecycleKey(key: SeenKey)
  {
    key.binding && IsLifecycle(key.kind)
  }

  /** Handler `p` is the one that sighted the row of `key` first, and has not read the latch yet. */
  predicate DecidesFirst(s: Node, p: nat, key: SeenKey)
  {
    p in s.procs && s.procs[p].Deciding? && s.procs[p].first && KeyOf(s.procs[p].row, s.procs[p].roster) == key
  }

  /** The first sighting of the row is over: it was seen, and no handler that sighted it first is undecided. */
  ghost predicate Spent(s: Node, key: SeenKey)
  {
    key in s.seen && forall p :: !DecidesFirst(s, p, key)
  }

  predicate Forgets(s: Node, step: Step)
  {
    step.Crash? || |s.seen| >= MAX_SEEN_INVOCATIONS
  }

  lemma FirstDeciderMoves(cfg: Config, s: Node, step: Step, p: nat, key: SeenKey)
    requires Enabled(cfg, s, step) && !step.Crash? && DecidesFirst(Effect(cfg, s, step), p, key)
    ensures DecidesFirst(s, p, key)
         || (step.Receive? && step.p == p && KeyOf(step.row, step.roster) == key && FirstSight(s, key))
    ensures !(step.Decide? && step.p == p)
  {}

  /** Of a lifecycle row, only the reading by the handler that sighted it first can launch a relay. */
  lemma OnlyFirstDecidersLaunch(cfg: Config, s: Node, step: Step, key: SeenKey)
    requires Enabled(cfg, s, step) && IsLifecycleKey(key) && Launched(cfg, s, step) == Some(key)
    ensures step.Decide? && DecidesFirst(s, step.p, key)
  {}

  lemma StaysSeen(cfg: Config, s: Node, step: Step, key: SeenKey)
    requires Enabled(cfg, s, step) && !Forgets(s, step)
    ensures key in s.seen ==> key in Effect(cfg, s, step).seen
    ensures step.Receive? && Authentic(step.row, step.roster) ==> KeyOf(step.row, step.roster) in Effect(cfg, s, step).seen
  {}

  /** Once spent, a lifecycle row is never relayed by this node while it remembers. */
  lemma SpentStep(cfg: Config, s: Node, step: Step, key: SeenKey)
    requires Enabled(cfg, s, step) && !Forgets(s, step) && IsLifecycleKey(key) && Spent(s, key)
    ensures Spent(Effect(cfg, s, step), key) && Launched(cfg, s, step) != Some(key)
  {
    StaysSeen(cfg, s, step, key);
    forall p
      ensures !DecidesFirst(Effect(cfg, s, step), p, key)
    {
      if DecidesFirst(Effect(cfg, s, step), p, key) {
        FirstDeciderMoves(cfg, s, step, p, key);
      }
    }
    if Launched(cfg, s, step) == Some(key) {
      OnlyFirstDecidersLaunch(cfg, s, step, key);
    }
  }

  // ---- one node ------------------------------------------------------------

  predicate RemembersAt(cfg: Config, run: seq<Step>, m: nat)
    requires m < |run|
  {
    !Forgets(After(cfg, run[..m]), run[m])
  }

  /** The node neither crashed nor cleared its seen set in the first `k` steps. */
  ghost predicate Remembers(cfg: Config, run: seq<Step>, k: nat)
    requires k <= |run|
  {
    forall m: nat | m < k :: RemembersAt(cfg, run, m)
  }

  /** At most one handler sighted the row first, and only of a row seen. */
  ghost predicate OneFirst(s: Node, key: SeenKey)
  {
    && (forall p | DecidesFirst(s, p, key) :: key in s.seen)
    && (forall p, q | DecidesFirst(s, p, key) && DecidesFirst(s, q, key) :: p == q)
  }

  lemma OneFirstKept(cfg: Config, s: Node, step: Step, key: SeenKey)
    requires Enabled(cfg, s, step) && !Forgets(s, step) && OneFirst(s, key) && IsLifecycleKey(key)
    ensures OneFirst(Effect(cfg, s, step), key)
  {
    var s' := Effect(cfg, s, step);
    StaysSeen(cfg, s, step, key);
    forall p | DecidesFirst(s', p, key)
      ensures DecidesFirst(s, p, key) || (step.Receive? && step.p == p && key !in s.seen)
      ensures key in s'.seen
    {
      FirstDeciderMoves(cfg, s, step, p, key);
      DeciderMoves(cfg, s, step, p);
      if !DecidesFirst(s, p, key) {
        QuorumNeedsASeat(step.row, step.roster);
      }
    }
  }

  lemma {:induction false} RememberedOneFirst(cfg: Config, run: seq<Step>, k: nat, key: SeenKey)
    requires Valid(cfg, run) && k <= |run| && Remembers(cfg, run, k) && IsLifecycleKey(key)
    ensures OneFirst(After(cfg, run[..k]), key)
  {
    if k > 0 {
      RememberedOneFirst(cfg, run, k - 1, key);
      PrefixValid(cfg, run, k - 1);
      assert RemembersAt(cfg, run, k - 1);
      OneFirstKept(cfg, After(cfg, run[..k - 1]), run[k - 1], key);
    }
  }

  /** The reading of the handler that sighted the row first spends it, whatever it finds. */
  lemma DecidingSpends(cfg: Config, s: Node, step: Step, key: SeenKey)
    requires Enabled(cfg, s, step) && !Forgets(s, step) && OneFirst(s, key)
    requires step.Decide? && DecidesFirst(s, step.p, key)
    ensures Spent(Effect(cfg, s, step), key)
  {
    StaysSeen(cfg, s, step, key);
    forall p
      ensures !DecidesFirst(Effect(cfg, s, step), p, key)
    {
      if DecidesFirst(Effect(cfg, s, step), p, key) {
        FirstDeciderMoves(cfg, s, step, p, key);
      }
    }
  }

  lemma SpentNext(cfg: Config, run: seq<Step>, m: nat, key: SeenKey)
    requires Valid(cfg, run) && m < |run| && RemembersAt(cfg, run, m) && IsLifecycleKey(key)
    requires Spent(After(cfg, run[..m]), key)
    ensures Spent(After(cfg, run[..m + 1]), key)
  {
    PrefixValid(cfg, run, m);
    SpentStep(cfg, After(cfg, run[..m]), run[m], key);
  }

  lemma {:induction false} SpentForGood(cfg: Config, run: seq<Step>, i: nat, k: nat, key: SeenKey)
    requires Valid(cfg, run) && i <= k <= |run| && Remembers(cfg, run, k) && IsLifecycleKey(key)
    requires Spent(After(cfg, run[..i]), key)
    ensures Spent(After(cfg, run[..k]), key)
    decreases k
  {
    if i < k {
      SpentForGood(cfg, run, i, k - 1, key);
      SpentNext(cfg, run, k - 1, key);
    }
  }

  /** Step `d` is the reading of the latch by a handler that sighted the row of `key` first. */
  ghost predicate FirstDecision(cfg: Config, run: seq<Step>, d: int, key: SeenKey)
  {
    0 <= d < |run| && run[d].Decide? && DecidesFirst(After(cfg, run[..d]), run[d].p, key)
  }

  /** That reading found the row to take effect. */
  ghost predicate TookEffect(cfg: Config, run: seq<Step>, d: int, key: SeenKey)
  {
    && FirstDecision(cfg, run, d, key)
    && Decided(After(cfg, run[..d]).latch, After(cfg, run[..d]).procs[run[d].p], run[d].readAt).Some?
  }

  /** Of a lifecycle row a step launches a relay exactly if it is a first decision that took effect. */
  lemma LaunchedIffTookEffect(cfg: Config, run: seq<Step>, d: nat, key: SeenKey)
    requires Valid(cfg, run) && d < |run| && IsLifecycleKey(key)
    ensures LaunchedAt(cfg, run, d) == Some(key) <==> TookEffect(cfg, run, d, key)
  {
    PrefixValid(cfg, run, d);
    if LaunchedAt(cfg, run, d) == Some(key) {
      OnlyFirstDecidersLaunch(cfg, After(cfg, run[..d]), run[d], key);
    }
  }

  /**
   * While a node remembers, it relays a confirmation or resumption exactly if the handler that
   * sighted it first found it to take effect (in step `d`), and no other step decides it first.
   * One refused then is never relayed by this node, even if a later delivery of it is honored
   * here.
   */
  lemma RelayedIffFirstSightingTookEffect(cfg: Config, run: seq<Step>, d: nat, key: SeenKey)
    requires Valid(cfg, run) && Remembers(cfg, run, |run|) && IsLifecycleKey(key) && FirstDecision(cfg, run, d, key)
    ensures Launches(cfg, run, key) <==> TookEffect(cfg, run, d, key)
    ensures forall e | FirstDecision(cfg, run, e, key) :: e == d
  {
    forall e | FirstDecision(cfg, run, e, key)
      ensures e == d
    {
      if e < d {
        OneFirstDecision(cfg, run, e, d, key);
      } else if d < e {
        OneFirstDecision(cfg, run, d, e, key);
      }
    }
    LaunchedIffTookEffect(cfg, run, d, key);
    if m: nat :| m < |run| && LaunchedAt(cfg, run, m) == Some(key) {
      LaunchedIffTookEffect(cfg, run, m, key);
    }
  }

  lemma OneFirstDecision(cfg: Config, run: seq<Step>, d: nat, e: nat, key: SeenKey)
    requires Valid(cfg, run) && Remembers(cfg, run, |run|) && IsLifecycleKey(key) && d < e
    requires FirstDecision(cfg, run, d, key)
    ensures !FirstDecision(cfg, run, e, key)
  {
    if e < |run| {
      PrefixValid(cfg, run, d);
      RememberedOneFirst(cfg, run, d, key);
      assert RemembersAt(cfg, run, d);
      DecidingSpends(cfg, After(cfg, run[..d]), run[d], key);
      SpentForGood(cfg, run, d + 1, e, key);
    }
  }

  // ---- the mesh ------------------------------------------------------------

  /** A first decision of the row took effect on node `n`; while the node remembers there is but one. */
  ghost predicate TookEffectOn(mesh: Mesh, run: seq<NetStep>, n: Id, key: SeenKey)
  {
    n in mesh.cfgs && exists d :: TookEffect(mesh.cfgs[n], NodeRun(mesh, run, n), d, key)
  }

  lemma RelayedIffTookEffect(mesh: Mesh, run: seq<NetStep>, n: Id, key: SeenKey)
    requires NetValid(mesh, run) && n in mesh.cfgs && IsLifecycleKey(key)
    ensures (n, key) in NetAfter(mesh, run).relayed <==> TookEffectOn(mesh, run, n, key)
  {
    NodeRunIsTheNode(mesh, run, n);
    RelayedIffLaunched(mesh, run, n, key);
    forall d: nat | d < |NodeRun(mesh, run, n)|
      ensures LaunchedAt(mesh.cfgs[n], NodeRun(mesh, run, n), d) == Some(key)
         <==> TookEffect(mesh.cfgs[n], NodeRun(mesh, run, n), d, key)
    {
      LaunchedIffTookEffect(mesh.cfgs[n], NodeRun(mesh, run, n), d, key);
    }
  }

  /** The row took effect at first sight on node `n`, and `v` is one of its peers. */
  ghost predicate Passes(mesh: Mesh, run: seq<NetStep>, n: Id, v: Id, key: SeenKey)
  {
    n in mesh.cfgs && TookEffectOn(mesh, run, n, key) && v in mesh.cfgs[n].peers
  }

  /** From an injection along peers, the row having taken effect at first sight on each node but the last. */
  ghost predicate EffectiveRoute(mesh: Mesh, run: seq<NetStep>, path: seq<Id>, key: SeenKey)
  {
    && path != [] && (forall k | 0 <= k < |path| :: path[k] in mesh.cfgs)
    && (path[0], key) in NetAfter(mesh, run).injected
    && forall k | 0 < k < |path| :: Passes(mesh, run, path[k - 1], path[k], key)
  }

  ghost predicate EffectivelyTraced(mesh: Mesh, run: seq<NetStep>, v: Id, key: SeenKey)
  {
    exists path :: EffectiveRoute(mesh, run, path, key) && path[|path| - 1] == v
  }

  lemma FeedsIffPasses(mesh: Mesh, run: seq<NetStep>, n: Id, v: Id, key: SeenKey)
    requires NetValid(mesh, run) && IsLifecycleKey(key)
    ensures Feeds(mesh, NetAfter(mesh, run), n, v, key) <==> Passes(mesh, run, n, v, key)
  {
    if n in mesh.cfgs {
      RelayedIffTookEffect(mesh, run, n, key);
    }
  }

  lemma RouteIffEffective(mesh: Mesh, run: seq<NetStep>, path: seq<Id>, key: SeenKey)
    requires NetValid(mesh, run) && IsLifecycleKey(key)
    ensures Route(mesh, NetAfter(mesh, run), path, key) <==> EffectiveRoute(mesh, run, path, key)
  {
    forall k | 0 < k < |path|
      ensures Feeds(mesh, NetAfter(mesh, run), path[k - 1], path[k], key) <==> Passes(mesh, run, path[k - 1], path[k], key)
    {
      FeedsIffPasses(mesh, run, path[k - 1], path[k], key);
    }
  }

  /**
   * Exactly whom a confirmation or resumption reaches, over any peer graph and any run: only
   * nodes with a route from an injection along nodes where it took effect when first decided,
   * and, with reliable delivery, once it has settled, all of those.
   */
  lemma LifecycleReachesExactly(mesh: Mesh, run: seq<NetStep>, v: Id, key: SeenKey)
    requires NetValid(mesh, run) && IsLifecycleKey(key)
    ensures (v, key) in NetAfter(mesh, run).received ==> EffectivelyTraced(mesh, run, v, key)
    ensures Reliable(run) && Settled(mesh, NetAfter(mesh, run), key) ==>
      ((v, key) in NetAfter(mesh, run).received <==> EffectivelyTraced(mesh, run, v, key))
  {
    FloodReachesExactly(mesh, run, v, key);
    if path :| Route(mesh, NetAfter(mesh, run), path, key) && path[|path| - 1] == v {
      RouteIffEffective(mesh, run, path, key);
    }
    if path :| EffectiveRoute(mesh, run, path, key) && path[|path| - 1] == v {
      RouteIffEffective(mesh, run, path, key);
    }
  }

  /** The row was injected at `b` alone, `b`'s first sighting of it is over, and nobody relayed it. */
  ghost predicate StoppedAt(net: Net, b: Id, key: SeenKey)
  {
    && b in net.nodes && Spent(net.nodes[b], key)
    && (forall n | (n, key) in net.injected :: n == b)
    && (forall n :: (n, key) !in net.relayed)
  }

  /** This step injects the row at `b` or not at all, and leaves `b` remembering. */
  predicate StepsOnlyAt(mesh: Mesh, net: Net, step: NetStep, b: Id, key: SeenKey)
  {
    && (step.Inject? && KeyOf(step.row, mesh.roster) == key ==> step.n == b)
    && (step.n == b && b in net.nodes ==> !Forgets(net.nodes[b], NodeStep(mesh, step)))
  }

  /** What nobody relayed has reached only where it was injected. */
  lemma UnrelayedReachesNobody(mesh: Mesh, run: seq<NetStep>, b: Id, v: Id, key: SeenKey)
    requires NetValid(mesh, run) && (v, key) in NetAfter(mesh, run).received
    requires forall n | (n, key) in NetAfter(mesh, run).injected :: n == b
    requires (b, key) !in NetAfter(mesh, run).relayed
    ensures v == b
  {
    FloodReachesExactly(mesh, run, v, key);
    var path :| Route(mesh, NetAfter(mesh, run), path, key) && path[|path| - 1] == v;
    assert |path| > 1 ==> Feeds(mesh, NetAfter(mesh, run), path[1 - 1], path[1], key);
  }

  lemma NobodyLaunches(mesh: Mesh, run: seq<NetStep>, step: NetStep, b: Id, key: SeenKey)
    requires NetValid(mesh, run + [step]) && IsLifecycleKey(key) && StoppedAt(NetAfter(mesh, run), b, key)
    requires StepsOnlyAt(mesh, NetAfter(mesh, run), step, b, key)
    requires CanStep(mesh, NetAfter(mesh, run), step)
    requires NetAfter(mesh, run + [step]) == NetEffect(mesh, NetAfter(mesh, run), step)
    ensures Launched(mesh.cfgs[step.n], NetAfter(mesh, run).nodes[step.n], NodeStep(mesh, step)) != Some(key)
  {
    var net := NetAfter(mesh, run);
    if step.n == b {
      SpentStep(mesh.cfgs[b], net.nodes[b], NodeStep(mesh, step), key);
    } else if Launched(mesh.cfgs[step.n], net.nodes[step.n], NodeStep(mesh, step)) == Some(key) {
      assert (run + [step])[..|run|] == run;
      NodesSendWhatTheyRelay(mesh, run, step.n);
      LaunchIsReceived(mesh, net, step);
      UnrelayedReachesNobody(mesh, run + [step], b, step.n, key);
    }
  }

  lemma StoppedStep(mesh: Mesh, net: Net, step: NetStep, b: Id, key: SeenKey)
    requires CanStep(mesh, net, step) && IsLifecycleKey(key) && StoppedAt(net, b, key)
    requires StepsOnlyAt(mesh, net, step, b, key)
    requires Launched(mesh.cfgs[step.n], net.nodes[step.n], NodeStep(mesh, step)) != Some(key)
    ensures StoppedAt(NetEffect(mesh, net, step), b, key)
  {
    if step.n == b {
      SpentStep(mesh.cfgs[b], net.nodes[b], NodeStep(mesh, step), key);
    }
  }

  /** In these steps the row is injected at `b` only, and `b` remembers. */
  ghost predicate OnlyAt(mesh: Mesh, run: seq<NetStep>, b: Id, key: SeenKey)
  {
    forall k: nat | k < |run| :: StepsOnlyAt(mesh, NetAfter(mesh, run[..k]), run[k], b, key)
  }

  lemma OnlyAtBefore(mesh: Mesh, run: seq<NetStep>, b: Id, key: SeenKey)
    requires run != [] && OnlyAt(mesh, run, b, key)
    ensures OnlyAt(mesh, run[..|run| - 1], b, key)
    ensures StepsOnlyAt(mesh, NetAfter(mesh, run[..|run| - 1]), run[|run| - 1], b, key)
  {
    var pre := run[..|run| - 1];
    forall k | 0 <= k < |pre|
      ensures pre[..k] == run[..k] && pre[k] == run[k]
    {}
  }

  lemma StaysStopped(mesh: Mesh, run: seq<NetStep>, b: Id, key: SeenKey)
    requires run != [] && NetValid(mesh, run) && IsLifecycleKey(key) && OnlyAt(mesh, run, b, key)
    requires StoppedAt(NetAfter(mesh, run[..|run| - 1]), b, key)
    ensures StoppedAt(NetAfter(mesh, run), b, key)
  {
    var pre, step := run[..|run| - 1], run[|run| - 1];
    OnlyAtBefore(mesh, run, b, key);
    assert pre + [step] == run;
    NobodyLaunches(mesh, pre, step, b, key);
    StoppedStep(mesh, NetAfter(mesh, pre), step, b, key);
  }

  lemma {:induction false} StoppedForGood(mesh: Mesh, run: seq<NetStep>, i: nat, b: Id, key: SeenKey)
    requires NetValid(mesh, run) && i <= |run| && IsLifecycleKey(key) && OnlyAt(mesh, run, b, key)
    requires StoppedAt(NetAfter(mesh, run[..i]), b, key)
    ensures StoppedAt(NetAfter(mesh, run), b, key)
    decreases |run|
  {
    if i == |run| {
      assert run[..i] == run;
    } else {
      assert run[..|run| - 1][..i] == run[..i];
      OnlyAtBefore(mesh, run, b, key);
      StoppedForGood(mesh, run[..|run| - 1], i, b, key);
      StaysStopped(mesh, run, b, key);
    }
  }

  /** Node `b` alone has the row, undecided, and no latch. */
  ghost predicate Undecided(mesh: Mesh, net: Net, b: Id, conf: Row, t: Instant)
  {
    && b in net.nodes && net.nodes[b].latch == Absent && net.nodes[b].procs == map[0 := Deciding(conf, mesh.roster, t, true)]
    && KeyOf(conf, mesh.roster) in net.nodes[b].seen
    && net.injected == {(b, KeyOf(conf, mesh.roster))} && net.relayed == {}
  }

  lemma ArrivesFirst(mesh: Mesh, b: Id, conf: Row, t: Instant)
    requires b in mesh.cfgs && mesh.cfgs[b].home && IsLifecycle(conf.inv.kind) && QuorumMet(conf, mesh.roster)
    ensures CanStep(mesh, Quiet0(mesh), Inject(b, 0, conf, t))
    ensures Undecided(mesh, NetEffect(mesh, Quiet0(mesh), Inject(b, 0, conf, t)), b, conf, t)
  {
    QuorumNeedsASeat(conf, mesh.roster);
  }

  lemma NothingToDecide(mesh: Mesh, net: Net, b: Id, conf: Row, t: Instant, readAt: Instant)
    requires Undecided(mesh, net, b, conf, t) && CanStep(mesh, net, Local(b, Decide(0, conf, mesh.roster, readAt)))
    ensures StoppedAt(NetEffect(mesh, net, Local(b, Decide(0, conf, mesh.roster, readAt))), b, KeyOf(conf, mesh.roster))
  {}

  /** A confirmation that arrives at a fresh mesh before the halt it names. */
  lemma EarlyConfirmationStops(mesh: Mesh, run: seq<NetStep>, b: Id, conf: Row, t: Instant, readAt: Instant)
    requires NetValid(mesh, run) && |run| == 2 && b in mesh.cfgs && mesh.cfgs[b].home
    requires run[0] == Inject(b, 0, conf, t) && run[1] == Local(b, Decide(0, conf, mesh.roster, readAt))
    requires IsLifecycle(conf.inv.kind) && QuorumMet(conf, mesh.roster)
    ensures StoppedAt(NetAfter(mesh, run), b, KeyOf(conf, mesh.roster))
  {
    var one := run[..1];
    assert one[..0] == [] && one[0] == run[0];
    ArrivesFirst(mesh, b, conf, t);
    assert NetAfter(mesh, one) == NetEffect(mesh, Quiet0(mesh), run[0]);
    NothingToDecide(mesh, NetAfter(mesh, one), b, conf, t, readAt);
  }

  /**
   * So a strict majority's confirmation can stop half-way, over any mesh: if it reaches node
   * `b` before the halt it names, then, as long as it is injected nowhere else and `b`
   * remembers, no other node ever receives it, whatever else happens, even if it is injected
   * at `b` again and confirms there, and although the halt itself reaches everyone.
   */
  lemma ConfirmationCanStopHalfWay(
    mesh: Mesh, run: seq<NetStep>, b: Id, conf: Row, t: Instant, readAt: Instant, v: Id)
    requires NetValid(mesh, run) && |run| >= 2 && b in mesh.cfgs && mesh.cfgs[b].home
    requires run[0] == Inject(b, 0, conf, t) && run[1] == Local(b, Decide(0, conf, mesh.roster, readAt))
    requires IsLifecycle(conf.inv.kind) && QuorumMet(conf, mesh.roster)
    requires OnlyAt(mesh, run, b, KeyOf(conf, mesh.roster))
    ensures (v, KeyOf(conf, mesh.roster)) in NetAfter(mesh, run).received ==> v == b
  {
    var key := KeyOf(conf, mesh.roster);
    NetPrefixValid(mesh, run, 2);
    EarlyConfirmationStops(mesh, run[..2], b, conf, t, readAt);
    StoppedForGood(mesh, run, 2, b, key);
    if (v, key) in NetAfter(mesh, run).received {
      UnrelayedReachesNobody(mesh, run, b, v, key);
    }
  }

  lemma {:induction false} NetPrefixValid(mesh: Mesh, run: seq<NetStep>, i: nat)
    requires NetValid(mesh, run) && i <= |run|
    ensures NetValid(mesh, run[..i])
    decreases |run|
  {
    if i == |run| {
      assert run[..i] == run;
    } else {
      assert run[..|run| - 1][..i] == run[..i];
      NetPrefixValid(mesh, run[..|run| - 1], i);
    }
  }
}
