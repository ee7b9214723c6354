/** The Redis hashes and the node daemon as objects updated in place. Every method is proved to do
    exactly the actions of the pinning state machine that its source lines stand for, back to back. */
module NodeWorker {
  import opened Types
  import opened Pinning
  import opened PinningSafety

  class Redis {
    var owner: map<Host, NodeName>
    var info: map<NodeName, NodeInfo>

    ghost function Hashes(): Store
      reads this
    {
      Store(owner, info)
    }

    /** Both places that forget a node first scan the owner hash for its hosts. */
    method ScanOwned(n: NodeName) returns (keys: set<Host>)
      ensures keys == Owned(Hashes(), n) == set h | h in owner && owner[h] == n
    {
      keys := {};
      var todo := owner.Keys;
      while todo != {}
        invariant todo <= owner.Keys
        invariant keys == set h | h in owner && owner[h] == n && h !in todo
        decreases todo
      {
        var h :| h in todo;
        if owner[h] == n {
          keys := keys + {h};
        }
        todo := todo - {h};
      }
    }

    /** The pipeline `hdel owner keys; hdel info n`. */
    method DeleteNode(keys: set<Host>, n: NodeName)
      modifies this
      ensures Hashes() == DeletePipeline(old(Hashes()), n, keys)
      ensures owner == old(owner) - keys && info == old(info) - {n}
    {
      owner := owner - keys;
      info := info - {n};
    }
  }

  datatype AddResult = Skipped | NoNode | Preempted | AlreadyPinned | StartFailed | Added

  /** The actions of one uninterrupted add; `child` is the pid of the new process, if it starts. */
  function AddRun(v: View, n: NodeName, host: Host, child: Option<Pid>): View
    requires v.me.phase.Idle?
  {
    var v1 := DoAddCheck(v, n, host);
    if !v1.me.phase.Checked? then v1
    else
      var v2 := DoAddReserve(v1, n);
      if !v2.me.phase.Reserved? then v2
      else match child
        case None => DoStartFail(v2)
        case Some(pid) => DoCommit(DoTrack(DoStartOk(v2, pid)), n)
  }

  /** The actions of one uninterrupted _remove. */
  function RemoveRun(v: View, n: NodeName, job: Job): View
    requires v.me.phase.Idle?
  {
    var v1 := DoPopJob(v, job);
    if !v1.me.phase.Popped? then v1
    else
      var v2 := DoReadInfo(v1, n);
      if !v2.me.phase.Removing? then v2 else DoCommitRemove(v2, n)
  }

  class Worker {
    const name: NodeName
    const rdb: Redis
    var pids: map<Pid, Host>
    var jobs: set<Job>  // the removals waiting in this node's queue
    ghost var debt: Debt  // what abandoned jobs have left behind

    constructor (name: NodeName, rdb: Redis, jobs: set<Job>)
      ensures this.name == name && this.rdb == rdb && pids == map[] && this.jobs == jobs && debt == NO_DEBT
    {
      this.name, this.rdb, this.pids, this.jobs, this.debt := name, rdb, map[], jobs, NO_DEBT;
    }

    /** This worker and Redis as the state machine sees them in phase p. */
    ghost function At(p: Phase): View
      reads this, rdb
    {
      View(rdb.Hashes(), Local(p, pids, jobs, debt))
    }

    method Register(capacity: int)
      modifies this, rdb
      ensures At(Idle) == DoRegister(old(At(Down)), name, capacity)
      ensures rdb.owner == map h | h in old(rdb.owner) && old(rdb.owner)[h] != name :: old(rdb.owner)[h]
      ensures rdb.info == old(rdb.info)[name := NodeInfo(name, 0, capacity, NodeQueue(name))]
      ensures pids == map[] && jobs == old(jobs)
    {
      var keys := rdb.ScanOwned(name);
      rdb.owner := rdb.owner - keys;
      rdb.info := rdb.info[name := NodeInfo(name, 0, capacity, NodeQueue(name))];
      pids, debt := map[], NO_DEBT;
    }

    method IsTracked(host: Host) returns (found: bool)
      ensures found <==> host in pids.Values
    {
      var todo := pids.Keys;
      while todo != {}
        invariant todo <= pids.Keys
        invariant forall p | p in pids && p !in todo :: pids[p] != host
        decreases todo
      {
        var p :| p in todo;
        if pids[p] == host {
          return true;
        }
        todo := todo - {p};
      }
      return false;
    }

    method Add(host: Host, child: Option<Pid>) returns (r: AddResult)
      modifies this, rdb
      ensures At(if r.NoNode? then Leaving(pids.Values) else Idle) == AddRun(old(At(Idle)), name, host, child)
      ensures r.Skipped? <==> host in old(pids).Values
      ensures r.Added? <==> && host !in old(pids).Values && host !in old(rdb.owner) && child.Some?
                            && name in old(rdb.info) && old(rdb.info)[name].HasRoom()
      ensures r.Added? ==> && pids == old(pids)[child.value := host] && rdb.owner == old(rdb.owner)[host := name]
                           && rdb.info == old(rdb.info)[name := old(rdb.info)[name].(count := old(rdb.info)[name].count + 1)]
      ensures r.NoNode? <==> host !in old(pids).Values && name !in old(rdb.info)
      ensures r.Preempted? <==> host !in old(pids).Values && name in old(rdb.info) && !old(rdb.info)[name].HasRoom()
      ensures r.AlreadyPinned? <==> && host !in old(pids).Values && host in old(rdb.owner)
                                    && name in old(rdb.info) && old(rdb.info)[name].HasRoom()
      ensures r.StartFailed? <==> && host !in old(pids).Values && host !in old(rdb.owner) && child.None?
                                  && name in old(rdb.info) && old(rdb.info)[name].HasRoom()
      // nothing changes unless the host is pinned
      ensures r.Added? || (rdb.Hashes() == old(rdb.Hashes()) && pids == old(pids))
    {
      var tracked := IsTracked(host);
      if tracked {
        return Skipped;
      }
      if name !in rdb.info {
        return NoNode;
      }
      var nodeInfo := rdb.info[name];
      if nodeInfo.count >= nodeInfo.capacity {
        return Preempted;
      }
      nodeInfo := nodeInfo.(count := nodeInfo.count + 1);
      if host in rdb.owner {
        return AlreadyPinned;
      }
      rdb.owner := rdb.owner[host := name];
      match child
      case None =>
        rdb.owner := rdb.owner - {host};
        return StartFailed;
      case Some(pid) =>
        pids := pids[pid := host];
        rdb.info := rdb.info[name := nodeInfo];
        return Added;
    }

    /** SIGCHLD for a reaped child. */
    method Reap(pid: Pid)
      modifies this
      ensures pid in old(pids) ==> At(Idle) == DoChildExit(old(At(Idle)), pid)
      ensures pid !in old(pids) ==> At(Idle) == old(At(Idle))
      ensures pids == old(pids)
      ensures jobs == old(jobs) + if pid in pids && pids[pid] != "" then {Job(pid, pids[pid])} else {}
    {
      if pid in pids && pids[pid] != "" {
        jobs := jobs + {Job(pid, pids[pid])};
      }
    }

    method Remove(job: Job)
      modifies this, rdb
      ensures At(Idle) == RemoveRun(old(At(Idle)), name, job)
      ensures jobs == old(jobs) - {job} && pids == old(pids) - {job.pid}
      ensures if job.pid in old(pids) && name in old(rdb.info)
              then && rdb.owner == old(rdb.owner) - {job.host}
                   && rdb.info == old(rdb.info)[name := old(rdb.info)[name].(count := old(rdb.info)[name].count - 1)]
              else rdb.Hashes() == old(rdb.Hashes())
    {
      jobs := jobs - {job};
      if job.pid !in pids {
        return;
      }
      pids := pids - {job.pid};
      if name !in rdb.info {
        return;
      }
      var nodeInfo := rdb.info[name];
      nodeInfo := nodeInfo.(count := nodeInfo.count - 1);
      rdb.owner := rdb.owner - {job.host};
      rdb.info := rdb.info[name := nodeInfo];
    }

    /** The process ends here, and with it the pid map. Queued removals stay. */
    method Cleanup()
      modifies this, rdb
      ensures At(Down) == DoFinishCleanup(DoBeginCleanup(old(At(Idle))), name)
      ensures rdb.owner == old(rdb.owner) - old(pids).Values && rdb.info == old(rdb.info) - {name}
      ensures pids == map[] && jobs == old(jobs)
    {
      var keys: set<Host> := {};
      var todo := pids.Keys;
      while todo != {}
        invariant todo <= pids.Keys
        invariant keys == set p | p in pids && p !in todo :: pids[p]
        decreases todo
      {
        var p :| p in todo;
        keys := keys + {pids[p]};
        todo := todo - {p};
      }
      assert keys == pids.Values;
      rdb.DeleteNode(keys, name);
      pids := map[];
    }
  }

  // ---------------------------------------------------------------- what the methods compute

  /** The view after a successful add. */
  function Pinned(v: View, n: NodeName, host: Host, pid: Pid): View
    requires n in v.store.info
  {
    var pub := v.store.info[n];
    View(Store(v.store.owner[host := n], v.store.info[n := pub.(count := pub.count + 1)]),
         v.me.(pids := v.me.pids[pid := host]))
  }

  lemma AddShape(v: View, n: NodeName, host: Host, child: Option<Pid>)
    requires v.me.phase.Idle? && n in v.store.info
    requires host in v.me.pids.Values ==> host in v.store.owner
    ensures AddRun(v, n, host, child) ==
              if host in v.store.owner || !v.store.info[n].HasRoom() || child.None? then v
              else Pinned(v, n, host, child.value)
  {
    var v1 := DoAddCheck(v, n, host);
    if v1.me.phase.Checked? && host !in v.store.owner && child.None? {
      assert DoAddReserve(v1, n).store.owner - {host} == v.store.owner;
    }
  }

  lemma PinnedGood(v: View, n: NodeName, host: Host, pid: Pid)
    requires v.me.phase.Idle? && UpOk(v.store, n, v.me) && FreshPid(v.me, pid, host)
    requires host !in v.store.owner && v.store.info[n].HasRoom() && host !in v.me.pids.Values
    ensures GoodMove(v, Pinned(v, n, host, pid), n)
  {
    var v1 := DoAddCheck(v, n, host);
    AddCheckGood(v, n, host);
    var v2 := DoAddReserve(v1, n);
    AddReserveGood(v1, n);
    var v3 := DoStartOk(v2, pid);
    StartOkGood(v2, n, pid);
    var v4 := DoTrack(v3);
    TrackGood(v3, n);
    CommitGood(v4, n);
    SparesTransitive(v.store, v4.store, DoCommit(v4, n).store, n);
    AddShape(v, n, host, Some(pid));
  }

  lemma SparesTransitive(a: Store, b: Store, c: Store, n: NodeName)
    requires SparesOthers(a, b, n) && SparesOthers(b, c, n)
    ensures SparesOthers(a, c, n)
  {
  }

  /** A consistent idle node pins the host exactly when nobody has it, there is room and the child
      starts; otherwise nothing changes. Either way it stays consistent and spares the other nodes. */
  lemma AddOutcome(v: View, n: NodeName, host: Host, child: Option<Pid>)
    requires v.me.phase.Idle? && UpOk(v.store, n, v.me)
    requires child.Some? ==> FreshPid(v.me, child.value, host)
    ensures AddRun(v, n, host, child) ==
              if host in v.store.owner || !v.store.info[n].HasRoom() || child.None? then v
              else Pinned(v, n, host, child.value)
    ensures GoodMove(v, AddRun(v, n, host, child), n)
  {
    assert host in v.me.pids.Values ==> host in Owned(v.store, n);
    AddShape(v, n, host, child);
    if !(host in v.store.owner || !v.store.info[n].HasRoom() || child.None?) {
      PinnedGood(v, n, host, child.value);
    }
  }

  /** The removal queued when a child exits undoes the add that started it. */
  lemma RemoveUndoesAdd(v: View, n: NodeName, host: Host, pid: Pid)
    requires v.me.phase.Idle? && UpOk(v.store, n, v.me) && host != ""
    requires FreshPid(v.me, pid, host) && Job(pid, host) !in v.me.jobs
    ensures var v' := AddRun(v, n, host, Some(pid));
            v' != v ==> RemoveRun(DoChildExit(v', pid), n, Job(pid, host)) == v
  {
    AddOutcome(v, n, host, Some(pid));
    if AddRun(v, n, host, Some(pid)) != v {
      UndoPinned(v, n, host, pid);
    }
  }

  lemma UndoPinned(v: View, n: NodeName, host: Host, pid: Pid)
    requires v.me.phase.Idle? && n in v.store.info && host != ""
    requires pid !in v.me.pids && host !in v.store.owner && Job(pid, host) !in v.me.jobs
    ensures RemoveRun(DoChildExit(Pinned(v, n, host, pid), pid), n, Job(pid, host)) == v
  {
    var v1 := Pinned(v, n, host, pid);
    var v2 := RemoveRun(DoChildExit(v1, pid), n, Job(pid, host));
    assert v2.me.pids == v1.me.pids - {pid} == v.me.pids;
    assert v2.store.owner == v1.store.owner - {host} == v.store.owner;
    assert v2.me.jobs == (v.me.jobs + {Job(pid, host)}) - {Job(pid, host)} == v.me.jobs;
    assert v2.store.info == v.store.info;
  }
}
