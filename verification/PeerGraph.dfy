// The peer graph: whom each node was told to replicate to.

module PeerGraphs {
  import opened Prelude

  type Peers = map<Id, seq<Id>>

  /** A path in the peer graph. */
  ghost predicate Path(peers: Peers, path: seq<Id>)
  {
    && path != [] && (forall k | 0 <= k < |path| :: path[k] in peers)
    && forall k | 0 < k < |path| :: path[k] in peers[path[k - 1]]
  }

  /** The listed nodes' peers, as often as each is listed. */
  function OutDegrees(peers: Peers, ns: seq<Id>): nat
    requires forall n | n in ns :: n in peers
  {
    if ns == [] then 0 else |peers[ns[0]]| + OutDegrees(peers, ns[1..])
  }
}
