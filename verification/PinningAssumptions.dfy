/** The assumptions of the pinning protocol, one by one: for each the exact condition under which it can
    be given up, and a run that goes wrong without it. */
module PinningAssumptions {
  import opened Types
  import opened Pinning
  import opened PinningSafety

  /** Node m still relies on the entry of host h. */
  ghost predicate Claims(s: State, m: NodeName, h: Host) {
    m in s.nodes && (Up(s.nodes[m].phase) || (s.nodes[m].phase.Leaving? && h in s.nodes[m].phase.keys))
  }

  lemma SameOwnedStaysOk(st: Store, st': Store, m: NodeName, me: Local)
    requires UpOk(st, m, me) && Owned(st', m) == Owned(st, m) && m in st'.info && st'.info[m] == st.info[m]
    ensures UpOk(st', m, me)
  {
  }

  lemma UnclaimedApart(s: State, keys: set<Host>, m: NodeName)
    requires m in s.nodes && Up(s.nodes[m].phase)
    requires forall h | h in keys && h in s.store.owner :: !Claims(s, s.store.owner[h], h)
    ensures Owned(s.store, m) - keys == Owned(s.store, m)
  {
    forall h | h in Owned(s.store, m) ensures h !in keys {
      assert Claims(s, m, h);
    }
  }

  // A node survives the loss of keys it does not rely on.
  lemma UnclaimedKeysHarmless(s: State, st': Store, keys: set<Host>, m: NodeName)
    requires m in s.nodes && NodeOk(s.store, m, s.nodes[m])
    requires Owned(st', m) == Owned(s.store, m) - keys
    requires Up(s.nodes[m].phase) && m in s.store.info ==> m in st'.info && st'.info[m] == s.store.info[m]
    requires forall h | h in keys && h in s.store.owner :: !Claims(s, s.store.owner[h], h)
    ensures NodeOk(st', m, s.nodes[m])
  {
    if Up(s.nodes[m].phase) {
      UnclaimedApart(s, keys, m);
      SameOwnedStaysOk(s.store, st', m, s.nodes[m]);
    } else if s.nodes[m].phase.Leaving? {
      forall h | h in s.nodes[m].phase.keys ensures h in Owned(st', m) {
        assert h in Owned(s.store, m) && Claims(s, m, h);
      }
    }
  }

  lemma DeletionOwns(st: Store, n: NodeName, keys: set<Host>, m: NodeName)
    ensures Owned(DeletePipeline(st, n, keys), m) == Owned(st, m) - keys
  {
  }

  lemma ClaimedKeyHarms(s: State, n: NodeName, keys: set<Host>, h: Host)
    requires Inv(s) && h in keys && h in s.store.owner && Claims(s, s.store.owner[h], h)
    ensures !Inv(s.(store := DeletePipeline(s.store, n, keys)))
  {
    var m, st' := s.store.owner[h], DeletePipeline(s.store, n, keys);
    assert NodeOk(s.store, m, s.nodes[m]) && h in Owned(s.store, m) && h !in Owned(st', m);
  }

  /** A delete pipeline run with keys scanned earlier is harmless exactly when no key has meanwhile
      been taken over by a node that relies on it. */
  lemma StaleScanExact(s: State, n: NodeName, keys: set<Host>)
    requires Inv(s) && (n in s.nodes ==> s.nodes[n].phase.Down?)
    ensures Inv(s.(store := DeletePipeline(s.store, n, keys))) <==>
              forall h | h in keys && h in s.store.owner :: !Claims(s, s.store.owner[h], h)
  {
    if forall h | h in keys && h in s.store.owner :: !Claims(s, s.store.owner[h], h) {
      forall m | m in s.nodes ensures NodeOk(DeletePipeline(s.store, n, keys), m, s.nodes[m]) {
        DeletionOwns(s.store, n, keys, m);
        UnclaimedKeysHarmless(s, DeletePipeline(s.store, n, keys), keys, m);
      }
    } else {
      var h :| h in keys && h in s.store.owner && Claims(s, s.store.owner[h], h);
      ClaimedKeyHarms(s, n, keys, h);
    }
  }

  /** The pipeline that ends registration, with the keys collected before it. */
  function RegisterPipeline(st: Store, n: NodeName, keys: set<Host>, capacity: int): Store {
    Store(st.owner - keys, st.info[n := NodeInfo(n, 0, capacity, NodeQueue(n))])
  }

  function Registered(s: State, n: NodeName, keys: set<Host>, capacity: int): State
    requires n in s.nodes
  {
    State(RegisterPipeline(s.store, n, keys, capacity),
          s.nodes[n := Local(Idle, map[], s.nodes[n].jobs, NO_DEBT)])
  }

  /** With the keys owned at that moment this is the machine's own step. */
  lemma FreshScanRegisters(v: View, n: NodeName, capacity: int)
    ensures DoRegister(v, n, capacity).store == RegisterPipeline(v.store, n, Owned(v.store, n), capacity)
  {
    var st := RegisterPipeline(v.store, n, Owned(v.store, n), capacity);
    assert DoRegister(v, n, capacity).store.owner == st.owner;
  }

  lemma RegistrationOwns(st: Store, n: NodeName, keys: set<Host>, capacity: int, m: NodeName)
    ensures Owned(RegisterPipeline(st, n, keys, capacity), m) == Owned(st, m) - keys
  {
  }

  lemma FreshNodeOk(owned: set<Host>, info: map<NodeName, NodeInfo>, n: NodeName, capacity: int, jobs: set<Job>)
    requires n in info && info[n] == NodeInfo(n, 0, capacity, NodeQueue(n))
    ensures UpWith(owned, info, n, Local(Idle, map[], jobs, NO_DEBT)) <==> owned == {}
  {
  }

  lemma NothingLeft(owned: set<Host>, keys: set<Host>)
    ensures owned - keys == {} <==> owned <= keys
  {
    if owned - keys == {} {
      forall h | h in owned ensures h in keys {
        assert h !in owned - keys;
      }
    }
  }

  lemma RegisteredCleanly(st: Store, n: NodeName, keys: set<Host>, capacity: int, jobs: set<Job>)
    ensures UpOk(RegisterPipeline(st, n, keys, capacity), n, Local(Idle, map[], jobs, NO_DEBT)) <==> Owned(st, n) <= keys
  {
    RegistrationOwns(st, n, keys, capacity, n);
    var st' := RegisterPipeline(st, n, keys, capacity);
    FreshNodeOk(Owned(st', n), st'.info, n, capacity, jobs);
    NothingLeft(Owned(st, n), keys);
  }

  lemma ClaimedKeyHarmsRegistration(s: State, n: NodeName, keys: set<Host>, capacity: int, h: Host)
    requires Inv(s) && n in s.nodes && s.nodes[n].phase.Down?
    requires h in keys && h in s.store.owner && Claims(s, s.store.owner[h], h)
    ensures !Inv(Registered(s, n, keys, capacity))
  {
    var m, s' := s.store.owner[h], Registered(s, n, keys, capacity);
    assert m != n && s'.nodes[m] == s.nodes[m];
    assert NodeOk(s.store, m, s.nodes[m]) && h in Owned(s.store, m) && h !in Owned(s'.store, m);
    assert !NodeOk(s'.store, m, s'.nodes[m]);
  }

  /** A registration run with keys scanned earlier is harmless exactly when they cover all the node still
      owns and no key has meanwhile been taken over by a node that relies on it. */
  lemma StaleRegistrationExact(s: State, n: NodeName, keys: set<Host>, capacity: int)
    requires Inv(s) && n in s.nodes && s.nodes[n].phase.Down?
    ensures Inv(Registered(s, n, keys, capacity)) <==>
              && Owned(s.store, n) <= keys
              && forall h | h in keys && h in s.store.owner :: !Claims(s, s.store.owner[h], h)
  {
    var s' := Registered(s, n, keys, capacity);
    RegisteredCleanly(s.store, n, keys, capacity, s.nodes[n].jobs);
    if forall h | h in keys && h in s.store.owner :: !Claims(s, s.store.owner[h], h) {
      forall m | m in s.nodes && m != n ensures NodeOk(s'.store, m, s'.nodes[m]) {
        RegistrationOwns(s.store, n, keys, capacity, m);
        UnclaimedKeysHarmless(s, s'.store, keys, m);
      }
      assert Inv(s') <==> NodeOk(s'.store, n, s'.nodes[n]);
    } else {
      var h :| h in keys && h in s.store.owner && Claims(s, s.store.owner[h], h);
      ClaimedKeyHarmsRegistration(s, n, keys, capacity, h);
    }
  }

  /** Force-deleting a node is harmless exactly when it is neither running nor about to clean up hosts.
      rq registers a worker's death before cleanup runs, so the second case can look dead. */
  lemma ForceDeleteExact(s: State, n: NodeName)
    requires Inv(s) && n in s.nodes
    ensures Inv(s.(store := DeletePipeline(s.store, n, Owned(s.store, n)))) <==>
              !Up(s.nodes[n].phase) && (s.nodes[n].phase.Leaving? ==> s.nodes[n].phase.keys == {})
  {
    var st, st' := s.store, DeletePipeline(s.store, n, Owned(s.store, n));
    ForceDeleteSpares(st, n);
    forall m | m in s.nodes && m != n ensures NodeOk(st', m, s.nodes[m]) {
      OthersStayOk(st, st', n, m, s.nodes[m]);
    }
  }

  /** Tracking a child keeps the agreement exactly when its pid is fresh. */
  lemma PidReuseExact(v: View, n: NodeName, pid: Pid)
    requires v.me.phase.Reserved? && NodeOk(v.store, n, v.me)
    ensures var v' := DoTrack(DoStartOk(v, pid));
            NodeOk(v'.store, n, v'.me) <==> FreshPid(v.me, pid, v.me.phase.host)
  {
    var v1 := DoStartOk(v, pid);
    var v2 := DoTrack(v1);
    if FreshPid(v.me, pid, v.me.phase.host) {
      StartOkGood(v, n, pid);
      TrackGood(v1, n);
    } else if pid in v.me.pids {
      assert v2.me.pids.Keys == v.me.pids.Keys;
      assert |v2.me.pids| == |v2.me.pids.Keys| == |v.me.pids.Keys| == |v.me.pids|;
    } else {
      var j :| j in v.me.jobs && j.pid == pid && j.host != v.me.phase.host;
      assert v2.me.pids[pid] == v.me.phase.host;
    }
  }

  // ---------------------------------------------------------------- a run with a stale scan

  /** The steps between the scan and the pipeline: another controller force-deletes the dead node a, and
      node b pins the freed host. */
  function Takeover(a: NodeName, b: NodeName, h: Host, capacity: int, pid: Pid): seq<Step> {
    [NodeStep(b, Register(capacity)), ForceDelete(a), NodeStep(b, AddCheck(h)), NodeStep(b, AddReserve),
     NodeStep(b, StartOk(pid)), NodeStep(b, Track), NodeStep(b, Commit)]
  }

  function TakeoverStates(a: NodeName, b: NodeName, h: Host, capacity: int, pid: Pid, info: NodeInfo): seq<State> {
    var down, idle := Local(Down, map[], {}, NO_DEBT), Local(Idle, map[], {}, NO_DEBT);
    var pub := NodeInfo(b, 0, capacity, NodeQueue(b));
    var next := pub.(count := 1);
    var freed := Store(map[], map[b := pub]);
    var pinned := Store(map[h := b], map[b := pub]);
    [State(Store(map[h := a], map[a := info]), map[a := down, b := down]),
     State(Store(map[h := a], map[a := info, b := pub]), map[a := down, b := idle]),
     State(freed, map[a := down, b := idle]),
     State(freed, map[a := down, b := idle.(phase := Checked(h, next))]),
     State(pinned, map[a := down, b := idle.(phase := Reserved(h, next))]),
     State(pinned, map[a := down, b := idle.(phase := Started(h, pid, next))]),
     State(pinned, map[a := down, b := idle.(phase := Tracked(next), pids := map[pid := h])]),
     State(Store(map[h := b], map[b := next]), map[a := down, b := idle.(pids := map[pid := h])])]
  }

  lemma TakeoverFrees(a: NodeName, b: NodeName, h: Host, capacity: int, pid: Pid, info: NodeInfo, i: nat)
    requires a != b && i < 2
    ensures var run, steps := TakeoverStates(a, b, h, capacity, pid, info), Takeover(a, b, h, capacity, pid);
            CanStep(run[i], steps[i]) && run[i + 1] == Apply(run[i], steps[i])
  {
    var run := TakeoverStates(a, b, h, capacity, pid, info);
    if i == 1 {
      assert Owned(run[1].store, a) == {h};
    }
  }

  lemma TakeoverPins(a: NodeName, b: NodeName, h: Host, capacity: int, pid: Pid, info: NodeInfo, i: nat)
    requires a != b && capacity >= 1 && 2 <= i < 7
    ensures var run, steps := TakeoverStates(a, b, h, capacity, pid, info), Takeover(a, b, h, capacity, pid);
            CanStep(run[i], steps[i]) && run[i + 1] == Apply(run[i], steps[i])
  {
    assert i == 2 || i == 3 || i == 4 || i == 5 || i == 6;
  }

  lemma TakeoverIsRun(a: NodeName, b: NodeName, h: Host, capacity: int, pid: Pid, info: NodeInfo)
    requires a != b && capacity >= 1
    ensures IsRun(TakeoverStates(a, b, h, capacity, pid, info), Takeover(a, b, h, capacity, pid))
  {
    var run, steps := TakeoverStates(a, b, h, capacity, pid, info), Takeover(a, b, h, capacity, pid);
    forall i: nat | i < |steps| ensures CanStep(run[i], steps[i]) && run[i + 1] == Apply(run[i], steps[i]) {
      if i < 2 {
        TakeoverFrees(a, b, h, capacity, pid, info, i);
      } else {
        TakeoverPins(a, b, h, capacity, pid, info, i);
      }
    }
  }

  /** Why the scan and the pipeline must be one step: with the keys scanned before such a run, the pipeline
      of a force-delete of a, or of its registration, deletes the entry of the host that b now tracks. */
  lemma StaleScanHarms(a: NodeName, b: NodeName, h: Host, capacity: int, pid: Pid, info: NodeInfo)
    requires a != b && capacity >= 1
    ensures var run := TakeoverStates(a, b, h, capacity, pid, info);
            var keys, end := Owned(run[0].store, a), run[|run| - 1];
            && IsRun(run, Takeover(a, b, h, capacity, pid)) && Initial(run[0])
            && end.nodes[b].pids == map[pid := h] && end.store.owner == map[h := b]
            && h !in DeletePipeline(end.store, a, keys).owner
            && h !in RegisterPipeline(end.store, a, keys, capacity).owner
            && !Inv(end.(store := DeletePipeline(end.store, a, keys)))
            && !Inv(Registered(end, a, keys, capacity))
  {
    var run, steps := TakeoverStates(a, b, h, capacity, pid, info), Takeover(a, b, h, capacity, pid);
    TakeoverIsRun(a, b, h, capacity, pid, info);
    RunKeepsInv(run, steps, 7);
    var keys, end := Owned(run[0].store, a), run[7];
    assert h in keys && Claims(end, b, h);
    StaleScanExact(end, a, keys);
    ClaimedKeyHarmsRegistration(end, a, keys, capacity, h);
  }

  // ---------------------------------------------------------------- a force-delete during cleanup

  /** Node a pins a host and then begins to clean up. */
  function Shutdown(a: NodeName, b: NodeName, h: Host, capacity: int, pid: Pid): seq<Step> {
    [NodeStep(b, Register(capacity)), NodeStep(a, Register(capacity)), NodeStep(a, AddCheck(h)),
     NodeStep(a, AddReserve), NodeStep(a, StartOk(pid)), NodeStep(a, Track), NodeStep(a, Commit),
     NodeStep(a, BeginCleanup)]
  }

  function Published(n: NodeName, count: int, capacity: int): NodeInfo {
    NodeInfo(n, count, capacity, NodeQueue(n))
  }

  function ShutdownStates(a: NodeName, b: NodeName, h: Host, capacity: int, pid: Pid): seq<State> {
    var down, idle := Local(Down, map[], {}, NO_DEBT), Local(Idle, map[], {}, NO_DEBT);
    var next := Published(a, 1, capacity);
    var info := map[b := Published(b, 0, capacity), a := Published(a, 0, capacity)];
    [State(Store(map[], map[]), map[a := down, b := down]),
     State(Store(map[], map[b := Published(b, 0, capacity)]), map[a := down, b := idle]),
     State(Store(map[], info), map[a := idle, b := idle]),
     State(Store(map[], info), map[a := idle.(phase := Checked(h, next)), b := idle]),
     State(Store(map[h := a], info), map[a := idle.(phase := Reserved(h, next)), b := idle]),
     State(Store(map[h := a], info), map[a := idle.(phase := Started(h, pid, next)), b := idle]),
     State(Store(map[h := a], info), map[a := idle.(phase := Tracked(next), pids := map[pid := h]), b := idle]),
     State(Store(map[h := a], info[a := next]), map[a := idle.(pids := map[pid := h]), b := idle]),
     State(Store(map[h := a], info[a := next]), map[a := idle.(phase := Leaving({h}), pids := map[pid := h]), b := idle])]
  }

  /** Node b pins the freed host, and node a's cleanup pipeline comes last. */
  function LateCleanup(a: NodeName, b: NodeName, h: Host, pid: Pid): seq<Step> {
    [NodeStep(b, AddCheck(h)), NodeStep(b, AddReserve), NodeStep(b, StartOk(pid)), NodeStep(b, Track),
     NodeStep(b, Commit), NodeStep(a, FinishCleanup)]
  }

  function LateCleanupStates(a: NodeName, b: NodeName, h: Host, capacity: int, oldPid: Pid, pid: Pid): seq<State> {
    var idle := Local(Idle, map[], {}, NO_DEBT);
    var leaving := Local(Leaving({h}), map[oldPid := h], {}, NO_DEBT);
    var next := Published(b, 1, capacity);
    var info := map[b := Published(b, 0, capacity)];
    [State(Store(map[], info), map[a := leaving, b := idle]),
     State(Store(map[], info), map[a := leaving, b := idle.(phase := Checked(h, next))]),
     State(Store(map[h := b], info), map[a := leaving, b := idle.(phase := Reserved(h, next))]),
     State(Store(map[h := b], info), map[a := leaving, b := idle.(phase := Started(h, pid, next))]),
     State(Store(map[h := b], info), map[a := leaving, b := idle.(phase := Tracked(next), pids := map[pid := h])]),
     State(Store(map[h := b], map[b := next]), map[a := leaving, b := idle.(pids := map[pid := h])]),
     State(Store(map[], map[b := next]),
           map[a := leaving.(phase := Down, pids := map[]), b := idle.(pids := map[pid := h])])]
  }

  lemma ShutdownRegisters(a: NodeName, b: NodeName, h: Host, capacity: int, pid: Pid, i: nat)
    requires a != b && i < 2
    ensures var run, steps := ShutdownStates(a, b, h, capacity, pid), Shutdown(a, b, h, capacity, pid);
            CanStep(run[i], steps[i]) && run[i + 1] == Apply(run[i], steps[i])
  {
    assert i == 0 || i == 1;
  }

  lemma ShutdownPins(a: NodeName, b: NodeName, h: Host, capacity: int, pid: Pid, i: nat)
    requires a != b && capacity >= 1 && 2 <= i < 5
    ensures var run, steps := ShutdownStates(a, b, h, capacity, pid), Shutdown(a, b, h, capacity, pid);
            CanStep(run[i], steps[i]) && run[i + 1] == Apply(run[i], steps[i])
  {
    assert i == 2 || i == 3 || i == 4;
  }

  lemma ShutdownLeaves(a: NodeName, b: NodeName, h: Host, capacity: int, pid: Pid, i: nat)
    requires a != b && capacity >= 1 && 5 <= i < 8
    ensures var run, steps := ShutdownStates(a, b, h, capacity, pid), Shutdown(a, b, h, capacity, pid);
            CanStep(run[i], steps[i]) && run[i + 1] == Apply(run[i], steps[i])
  {
    OneHost(pid, h);
    assert i == 5 || i == 6 || i == 7;
  }

  lemma OneHost(pid: Pid, h: Host)
    ensures map[pid := h].Values == {h}
  {
    assert pid in map[pid := h];
  }

  lemma ShutdownIsRun(a: NodeName, b: NodeName, h: Host, capacity: int, pid: Pid)
    requires a != b && capacity >= 1
    ensures IsRun(ShutdownStates(a, b, h, capacity, pid), Shutdown(a, b, h, capacity, pid))
  {
    var run, steps := ShutdownStates(a, b, h, capacity, pid), Shutdown(a, b, h, capacity, pid);
    forall i: nat | i < |steps| ensures CanStep(run[i], steps[i]) && run[i + 1] == Apply(run[i], steps[i]) {
      if i < 2 {
        ShutdownRegisters(a, b, h, capacity, pid, i);
      } else if i < 5 {
        ShutdownPins(a, b, h, capacity, pid, i);
      } else {
        ShutdownLeaves(a, b, h, capacity, pid, i);
      }
    }
  }

  lemma LateCleanupPins(a: NodeName, b: NodeName, h: Host, capacity: int, oldPid: Pid, pid: Pid, i: nat)
    requires a != b && capacity >= 1 && i < 3
    ensures var run, steps := LateCleanupStates(a, b, h, capacity, oldPid, pid), LateCleanup(a, b, h, pid);
            CanStep(run[i], steps[i]) && run[i + 1] == Apply(run[i], steps[i])
  {
    assert i == 0 || i == 1 || i == 2;
  }

  lemma LateCleanupEnds(a: NodeName, b: NodeName, h: Host, capacity: int, oldPid: Pid, pid: Pid, i: nat)
    requires a != b && capacity >= 1 && 3 <= i < 6
    ensures var run, steps := LateCleanupStates(a, b, h, capacity, oldPid, pid), LateCleanup(a, b, h, pid);
            CanStep(run[i], steps[i]) && run[i + 1] == Apply(run[i], steps[i])
  {
    assert i == 3 || i == 4 || i == 5;
  }

  lemma LateCleanupIsRun(a: NodeName, b: NodeName, h: Host, capacity: int, oldPid: Pid, pid: Pid)
    requires a != b && capacity >= 1
    ensures IsRun(LateCleanupStates(a, b, h, capacity, oldPid, pid), LateCleanup(a, b, h, pid))
  {
    var run, steps := LateCleanupStates(a, b, h, capacity, oldPid, pid), LateCleanup(a, b, h, pid);
    forall i: nat | i < |steps| ensures CanStep(run[i], steps[i]) && run[i + 1] == Apply(run[i], steps[i]) {
      if i < 3 {
        LateCleanupPins(a, b, h, capacity, oldPid, pid, i);
      } else {
        LateCleanupEnds(a, b, h, capacity, oldPid, pid, i);
      }
    }
  }

  /** Why only nodes that are down may be force-deleted. A run from an initial state brings node a to the
      point where it has collected its hosts but not deleted them; a controller that takes it for dead
      force-deletes it, the one step here that is not allowed; the run goes on, b pins the freed host, and
      a's pipeline deletes the entry of the host that b tracks. */
  lemma ForceDeleteDuringCleanup(a: NodeName, b: NodeName, h: Host, capacity: int, oldPid: Pid, pid: Pid)
    requires a != b && capacity >= 1
    ensures var before := ShutdownStates(a, b, h, capacity, oldPid);
            var after := LateCleanupStates(a, b, h, capacity, oldPid, pid);
            var s, end := before[|before| - 1], after[|after| - 1];
            && IsRun(before, Shutdown(a, b, h, capacity, oldPid)) && Initial(before[0])
            && !CanStep(s, ForceDelete(a))
            && after[0] == s.(store := DeletePipeline(s.store, a, Owned(s.store, a)))
            && IsRun(after, LateCleanup(a, b, h, pid))
            && end.nodes[b].pids == map[pid := h] && h !in end.store.owner && !Inv(end)
  {
    var before, after := ShutdownStates(a, b, h, capacity, oldPid), LateCleanupStates(a, b, h, capacity, oldPid, pid);
    ShutdownIsRun(a, b, h, capacity, oldPid);
    LateCleanupIsRun(a, b, h, capacity, oldPid, pid);
    assert Owned(before[8].store, a) == {h};
    assert before[8].store.info - {a} == after[0].store.info;
    OneHost(pid, h);
    assert h !in Owned(after[6].store, b);
    assert !NodeOk(after[6].store, b, after[6].nodes[b]);
  }
}
