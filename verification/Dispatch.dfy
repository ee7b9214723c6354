/** The controller's side: finding a live node for a pinned host, with retries. */
module Dispatch {
  import opened Types
  import opened Pinning
  import opened PinningSafety
  import opened NodeWorker

  /** Which queues have a live worker. Liveness does not change during one call. */
  type Liveness = Queue -> bool

  /** The scheduler, given the number of the attempt and the registered nodes; None is an exception. */
  type Scheduler = (nat, map<NodeName, NodeInfo>) -> Option<NodeInfo>

  /** Every node publishes its info under its own name, with its own queue. */
  ghost predicate WellKeyed(info: map<NodeName, NodeInfo>) {
    forall n | n in info :: info[n].hostname == n && info[n].queue == NodeQueue(n)
  }

  /** The scheduler only returns registered nodes with room, and finds one when there is one. */
  ghost predicate Sound(pick: Scheduler) {
    forall t: nat, info: map<NodeName, NodeInfo> {:trigger pick(t, info)} :: WellKeyed(info) ==>
      match pick(t, info)
      case Some(n) => n.hostname in info && info[n.hostname] == n && n.HasRoom()
      case None => forall m | m in info :: !info[m].HasRoom()
  }

  function Assigned(st: Store, host: Host): Option<NodeInfo> {
    if host in st.owner && st.owner[host] in st.info then Some(st.info[st.owner[host]]) else None
  }

  ghost function Forget(st: Store, node: NodeInfo): Store {
    DeletePipeline(st, node.hostname, Owned(st, node.hostname))
  }

  const MAX_RETRIES: nat := 3

  /** One round: the assigned or else a scheduled node; a dead one is force-deleted. */
  ghost function Attempt(st: Store, host: Host, alive: Liveness, pick: Scheduler, t: nat): (Store, Option<NodeInfo>) {
    var node := if Assigned(st, host).Some? then Assigned(st, host) else pick(t, st.info);
    match node
    case None => (st, None)
    case Some(n) => if alive(n.queue) then (st, node) else (Forget(st, n), None)
  }

  ghost function Attempts(st: Store, host: Host, alive: Liveness, pick: Scheduler, t: nat): (Store, Option<NodeInfo>)
    decreases MAX_RETRIES + 1 - t
  {
    if t > MAX_RETRIES then (st, None)
    else
      var (st', node) := Attempt(st, host, alive, pick, t);
      if node.Some? then (st', node) else Attempts(st', host, alive, pick, t + 1)
  }

  datatype Spawn = Spawn(queue: Queue, host: Host)

  class Controller {
    const rdb: Redis
    var spawned: seq<Spawn>  // the start_pinned_worker jobs put on node queues

    constructor (rdb: Redis)
      ensures this.rdb == rdb && spawned == []
    {
      this.rdb, spawned := rdb, [];
    }

    /** `_get_assigned_node_for_host` for a list. */
    method GetAssigned(hosts: seq<Host>) returns (nodes: seq<Option<NodeInfo>>)
      ensures |nodes| == |hosts| && forall i :: 0 <= i < |hosts| ==> nodes[i] == Assigned(rdb.Hashes(), hosts[i])
      // the node both hashes name, however full it is
      ensures forall i :: 0 <= i < |hosts| ==>
                nodes[i] == if hosts[i] in rdb.owner && rdb.owner[hosts[i]] in rdb.info
                            then Some(rdb.info[rdb.owner[hosts[i]]]) else None
    {
      nodes := seq(|hosts|, _ => None);
      for i := 0 to |hosts|
        invariant |nodes| == |hosts|
        invariant forall j :: 0 <= j < |hosts| ==> nodes[j] == if j < i then Assigned(rdb.Hashes(), hosts[j]) else None
      {
        if hosts[i] in rdb.owner && rdb.owner[hosts[i]] in rdb.info {
          nodes := nodes[i := Some(rdb.info[rdb.owner[hosts[i]]])];
        }
      }
    }

    method ForceDelete(node: NodeInfo)
      modifies rdb
      ensures rdb.Hashes() == Forget(old(rdb.Hashes()), node)
      ensures rdb.owner == map h | h in old(rdb.owner) && old(rdb.owner)[h] != node.hostname :: old(rdb.owner)[h]
      ensures rdb.info == old(rdb.info) - {node.hostname}
    {
      var keys := rdb.ScanOwned(node.hostname);
      rdb.DeleteNode(keys, node.hostname);
    }

    method DispatchPinned(host: Host, alive: Liveness, pick: Scheduler) returns (r: Option<NodeInfo>)
      modifies rdb, this`spawned
      ensures (rdb.Hashes(), r) == Attempts(old(rdb.Hashes()), host, alive, pick, 0)
      // a pinned host whose node is alive stays there, whether or not the node is full, and nothing changes
      ensures host in old(rdb.owner) && old(rdb.owner)[host] in old(rdb.info)
              && alive(old(rdb.info)[old(rdb.owner)[host]].queue) ==>
                r == Some(old(rdb.info)[old(rdb.owner)[host]]) && rdb.Hashes() == old(rdb.Hashes())
      ensures spawned == old(spawned) +
                (if r.Some? && !alive(HostQueue(host)) then [Spawn(r.value.queue, host)] else [])
    {
      PinnedHostStays(rdb.Hashes(), host, alive, pick);
      var cnt: nat := 0;
      r := None;
      while cnt <= MAX_RETRIES
        invariant r == None && spawned == old(spawned)
        invariant Attempts(rdb.Hashes(), host, alive, pick, cnt) == Attempts(old(rdb.Hashes()), host, alive, pick, 0)
        decreases MAX_RETRIES + 1 - cnt
      {
        cnt := cnt + 1;
        var known := GetAssigned([host]);
        var node := known[0];
        if node.None? {
          node := pick(cnt - 1, rdb.info);
          if node.None? {
            continue;
          }
        }
        if !alive(node.value.queue) {
          ForceDelete(node.value);
          node := None;
        }
        if node.Some? {
          r := node;
          break;
        }
      }
      if r.Some? && !alive(HostQueue(host)) {
        spawned := spawned + [Spawn(r.value.queue, host)];
      }
    }
  }

  // ---------------------------------------------------------------- what the retries guarantee

  ghost function Dead(info: map<NodeName, NodeInfo>, alive: Liveness): set<NodeName> {
    set n | n in info && !alive(info[n].queue)
  }

  /** From st to st' only dead nodes were forgotten; every other node kept its info and all its entries. */
  ghost predicate OnlyDeadForgotten(st: Store, st': Store, alive: Liveness) {
    && st'.info.Keys <= st.info.Keys
    && (forall n | n in st'.info :: st'.info[n] == st.info[n])
    && (forall n | n in st.info && n !in st'.info :: !alive(st.info[n].queue))
    && (forall h | h in st'.owner :: h in st.owner && st'.owner[h] == st.owner[h])
    && (forall h | h in st.owner && h !in st'.owner :: st.owner[h] in st.info && !alive(st.info[st.owner[h]].queue))
  }

  ghost predicate LiveRoom(info: map<NodeName, NodeInfo>, alive: Liveness) {
    exists n :: n in info && alive(info[n].queue) && info[n].HasRoom()
  }

  /** A round that finds no live node forgets exactly one dead one. */
  lemma AttemptStep(st: Store, host: Host, alive: Liveness, pick: Scheduler, t: nat)
    requires WellKeyed(st.info) && Sound(pick)
    ensures var (st', node) := Attempt(st, host, alive, pick, t);
            && OnlyDeadForgotten(st, st', alive) && WellKeyed(st'.info)
            && (node.Some? ==> st' == st && node.value in st.info.Values && alive(node.value.queue))
            && (node.Some? ==> Assigned(st, host) == node || (Assigned(st, host).None? && node.value.HasRoom()))
            && (node.None? && LiveRoom(st.info, alive) ==>
                  LiveRoom(st'.info, alive) && |Dead(st'.info, alive)| == |Dead(st.info, alive)| - 1)
  {
    var candidate := if Assigned(st, host).Some? then Assigned(st, host) else pick(t, st.info);
    if candidate.Some? && !alive(candidate.value.queue) {
      var n, st' := candidate.value, Forget(st, candidate.value);
      assert n.hostname in st.info && st.info[n.hostname] == n;
      assert Dead(st'.info, alive) == Dead(st.info, alive) - {n.hostname};
      if m :| m in st.info && alive(st.info[m].queue) && st.info[m].HasRoom() {
        assert m in st'.info;
      }
    }
  }

  lemma OnlyDeadTransitive(a: Store, b: Store, c: Store, alive: Liveness)
    requires OnlyDeadForgotten(a, b, alive) && OnlyDeadForgotten(b, c, alive)
    ensures OnlyDeadForgotten(a, c, alive)
  {
  }

  /** Whatever happens, only dead nodes are forgotten, and a node returned is registered, alive, and either
      the one the host is assigned to or, for a host that by then has none, one with room. With a
      live node that has room and at most three dead registered nodes the call succeeds. */
  lemma {:induction false} AttemptsReachLiveNode(st: Store, host: Host, alive: Liveness, pick: Scheduler, t: nat)
    requires WellKeyed(st.info) && Sound(pick)
    ensures var (st', node) := Attempts(st, host, alive, pick, t);
            && OnlyDeadForgotten(st, st', alive)
            && (node.Some? ==> node.value in st'.info.Values && alive(node.value.queue))
            && (node.Some? ==> Assigned(st', host) == node || (Assigned(st', host).None? && node.value.HasRoom()))
            && (LiveRoom(st.info, alive) && |Dead(st.info, alive)| + t <= 3 ==> node.Some?)
    decreases MAX_RETRIES + 1 - t
  {
    if t <= MAX_RETRIES {
      AttemptStep(st, host, alive, pick, t);
      var (st1, node) := Attempt(st, host, alive, pick, t);
      if node.None? {
        AttemptsReachLiveNode(st1, host, alive, pick, t + 1);
        OnlyDeadTransitive(st, st1, Attempts(st1, host, alive, pick, t + 1).0, alive);
      }
    }
  }

  /** A host whose entry names a registered live node stays there, at once, full or not, and without any
      change. */
  lemma PinnedHostStays(st: Store, host: Host, alive: Liveness, pick: Scheduler)
    ensures host in st.owner && st.owner[host] in st.info && alive(st.info[st.owner[host]].queue) ==>
              Attempts(st, host, alive, pick, 0) == (st, Some(st.info[st.owner[host]]))
  {
    if host in st.owner && st.owner[host] in st.info && alive(st.info[st.owner[host]].queue) {
      assert Attempt(st, host, alive, pick, 0) == (st, Some(st.info[st.owner[host]]));
    }
  }

  /** In every state of every run of the protocol, a host that a running node tracks is dispatched to that
      node if its queue has a live worker. */
  lemma TrackedHostStays(run: seq<State>, steps: seq<Step>, i: nat, n: NodeName, host: Host, alive: Liveness, pick: Scheduler)
    requires IsRun(run, steps) && Initial(run[0]) && i < |run|
    requires n in run[i].nodes && Up(run[i].nodes[n].phase) && host in run[i].nodes[n].pids.Values
    requires alive(NodeQueue(n))
    ensures n in run[i].store.info
    ensures Attempts(run[i].store, host, alive, pick, 0) == (run[i].store, Some(run[i].store.info[n]))
  {
    RunKeepsInv(run, steps, i);
    assert UpOk(run[i].store, n, run[i].nodes[n]);
    assert host in Owned(run[i].store, n);
    PinnedHostStays(run[i].store, host, alive, pick);
  }

  /** A scheduler that looks at dead nodes first, as long as one has room. */
  ghost predicate DeadFirst(pick: Scheduler, alive: Liveness) {
    forall t: nat, info: map<NodeName, NodeInfo> {:trigger pick(t, info)} ::
      (exists n :: n in info && !alive(info[n].queue) && info[n].HasRoom()) ==>
        pick(t, info).Some? && !alive(pick(t, info).value.queue)
  }

  /** Three is the exact limit: against a scheduler that meets dead nodes first, an unassigned host is
      placed if and only if at most three registered nodes are dead. */
  lemma {:induction false} ThreeDeadIsTheLimit(st: Store, host: Host, alive: Liveness, pick: Scheduler, t: nat)
    requires WellKeyed(st.info) && Sound(pick) && DeadFirst(pick, alive)
    requires host !in st.owner && LiveRoom(st.info, alive)
    requires forall n | n in Dead(st.info, alive) :: st.info[n].HasRoom()
    ensures Attempts(st, host, alive, pick, t).1.Some? <==> |Dead(st.info, alive)| + t <= 3
    decreases MAX_RETRIES + 1 - t
  {
    AttemptsReachLiveNode(st, host, alive, pick, t);
    if t <= MAX_RETRIES && |Dead(st.info, alive)| > 0 {
      var n :| n in Dead(st.info, alive);
      AttemptStep(st, host, alive, pick, t);
      ThreeDeadIsTheLimit(Attempt(st, host, alive, pick, t).0, host, alive, pick, t + 1);
    }
  }
}
