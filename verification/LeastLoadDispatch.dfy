/** The retry loop with least-load, the scheduler configured by default. */
module LeastLoadDispatch {
  import opened Types
  import opened Pinning
  import opened Dispatch
  import opened Placement

  /** `get_all_nodes`: the values of the info hash, each once, in any order. */
  ghost predicate Lists(nodes: seq<NodeInfo>, info: map<NodeName, NodeInfo>) {
    DistinctNames(nodes) && forall n :: n in nodes <==> n in info.Values
  }

  /** What `Schedulers.LeastLoadNodeSelect` promises about its answer. */
  ghost predicate LeastLoadAnswer(nodes: seq<NodeInfo>, r: Option<NodeInfo>) {
    && (r.None? <==> forall n <- nodes :: !n.HasRoom())
    && (r.Some? ==> IsBest(LeastLoad, nodes, r.value))
  }

  /** A pick that hands the registered nodes to least-load, in whatever order they are listed. */
  ghost predicate PicksLeastLoad(pick: Scheduler) {
    forall t: nat, info: map<NodeName, NodeInfo> {:trigger pick(t, info)} :: WellKeyed(info) ==>
      exists nodes :: Lists(nodes, info) && LeastLoadAnswer(nodes, pick(t, info))
  }

  lemma ListedIsRegistered(nodes: seq<NodeInfo>, info: map<NodeName, NodeInfo>, n: NodeInfo)
    requires WellKeyed(info) && Lists(nodes, info)
    ensures n in nodes <==> n.hostname in info && info[n.hostname] == n
  {
    if n in nodes {
      var k :| k in info && info[k] == n;
    }
    if n.hostname in info && info[n.hostname] == n {
      assert n in info.Values;
    }
  }

  /** Least-load is a scheduler the retry theorem applies to. */
  lemma LeastLoadIsSound(pick: Scheduler)
    requires PicksLeastLoad(pick)
    ensures Sound(pick)
  {
    forall t: nat, info: map<NodeName, NodeInfo> | WellKeyed(info)
      ensures match pick(t, info)
              case Some(n) => n.hostname in info && info[n.hostname] == n && n.HasRoom()
              case None => forall m | m in info :: !info[m].HasRoom()
    {
      var nodes :| Lists(nodes, info) && LeastLoadAnswer(nodes, pick(t, info));
      match pick(t, info) {
        case Some(n) => ListedIsRegistered(nodes, info, n);
        case None =>
          forall m | m in info ensures !info[m].HasRoom() {
            ListedIsRegistered(nodes, info, info[m]);
          }
      }
    }
  }

  /** With least-load, at most three dead nodes and a live one with room, dispatch finds a live node. */
  lemma LeastLoadReachesLiveNode(st: Store, host: Host, alive: Liveness, pick: Scheduler)
    requires WellKeyed(st.info) && PicksLeastLoad(pick)
    requires LiveRoom(st.info, alive) && |Dead(st.info, alive)| <= 3
    ensures var (st', node) := Attempts(st, host, alive, pick, 0);
            node.Some? && alive(node.value.queue) && node.value in st'.info.Values && OnlyDeadForgotten(st, st', alive)
  {
    LeastLoadIsSound(pick);
    AttemptsReachLiveNode(st, host, alive, pick, 0);
  }
}
