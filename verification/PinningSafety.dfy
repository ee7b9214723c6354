/** Safety and recovery of the pinning protocol over every run. */
module PinningSafety {
  import opened Types
  import opened Pinning

  ghost predicate Injective(m: map<Pid, Host>) {
    forall p, q :: p in m && q in m && m[p] == m[q] ==> p == q
  }

  /** The owned hosts are the tracked ones, the one in flight and the locked ones, without overlap. */
  predicate Ledger(owned: set<Host>, tracked: set<Host>, inFlight: set<Host>, locked: set<Host>) {
    && tracked !! inFlight && tracked !! locked && inFlight !! locked
    && owned == tracked + inFlight + locked
  }

  lemma LedgerReserve(owned: set<Host>, tracked: set<Host>, locked: set<Host>, h: Host)
    requires Ledger(owned, tracked, {}, locked) && h !in owned
    ensures Ledger(owned + {h}, tracked, {h}, locked)
  {
  }

  lemma LedgerRelease(owned: set<Host>, tracked: set<Host>, locked: set<Host>, h: Host)
    requires Ledger(owned, tracked, {h}, locked)
    ensures Ledger(owned - {h}, tracked, {}, locked)
  {
  }

  lemma LedgerTrack(owned: set<Host>, tracked: set<Host>, locked: set<Host>, h: Host)
    requires Ledger(owned, tracked, {h}, locked)
    ensures Ledger(owned, tracked + {h}, {}, locked)
  {
  }

  lemma LedgerPop(owned: set<Host>, tracked: set<Host>, locked: set<Host>, h: Host)
    requires Ledger(owned, tracked + {h}, {}, locked) && h !in tracked
    ensures Ledger(owned, tracked, {h}, locked)
  {
  }

  lemma LedgerLock(owned: set<Host>, tracked: set<Host>, inFlight: set<Host>, locked: set<Host>)
    requires Ledger(owned, tracked, inFlight, locked)
    ensures Ledger(owned, tracked, {}, locked + inFlight)
  {
  }

  /** Published count minus number of tracked children. */
  function Skew(p: Phase): int {
    if p.Tracked? then -1 else if p.Popped? || p.Removing? then 1 else 0
  }

  /** The private copy of the info differs from the published one in its count, as it should. */
  ghost predicate CopyOk(pub: NodeInfo, me: Local) {
    match me.phase
    case Checked(h, next) => h !in me.pids.Values && next == pub.(count := pub.count + 1) && pub.HasRoom()
    case Reserved(_, next) => next == pub.(count := pub.count + 1) && pub.HasRoom()
    case Started(h, pid, next) =>
      next == pub.(count := pub.count + 1) && pub.HasRoom() && FreshPid(me, pid, h)
    case Tracked(next) => next == pub.(count := pub.count + 1) && pub.HasRoom()
    case Removing(_, next) => next == pub.(count := pub.count - 1)
    case _ => true
  }

  /** A running node that owns exactly these entries, and the published infos. */
  ghost predicate UpWith(owned: set<Host>, info: map<NodeName, NodeInfo>, n: NodeName, me: Local) {
    && n in info
    && info[n].hostname == n
    && info[n].queue == NodeQueue(n)
    && info[n].count == |me.pids| + Skew(me.phase) + me.debt.overcounted - me.debt.uncounted
    && info[n].count <= Max(0, info[n].capacity)
    && Injective(me.pids)
    && Ledger(owned, me.pids.Values, InFlight(me.phase), me.debt.locked)
    && (forall j <- me.jobs :: j.pid in me.pids ==> me.pids[j.pid] == j.host)
    && CopyOk(info[n], me)
  }

  ghost predicate UpOk(st: Store, n: NodeName, me: Local) {
    UpWith(Owned(st, n), st.info, n, me)
  }

  ghost predicate NodeOk(st: Store, n: NodeName, me: Local) {
    if Up(me.phase) then UpOk(st, n, me)
    else me.phase.Leaving? ==> me.phase.keys <= Owned(st, n)
  }

  ghost predicate Inv(s: State) {
    forall n <- s.nodes :: NodeOk(s.store, n, s.nodes[n])
  }

  // ---------------------------------------------------------------- one step

  /** The entries and the info of every node but n are the same in both stores. */
  ghost predicate SparesOthers(st: Store, st': Store, n: NodeName) {
    && (forall h | h in st.owner && st.owner[h] != n :: h in st'.owner && st'.owner[h] == st.owner[h])
    && (forall h | h in st'.owner && st'.owner[h] != n :: h in st.owner)
    && (forall h | h in st.owner && h in st'.owner && st.owner[h] == n :: st'.owner[h] == n)
    && st'.info - {n} == st.info - {n}
  }

  lemma MapRemoveSize(m: map<Pid, Host>, p: Pid)
    requires p in m
    ensures |m - {p}| == |m| - 1
  {
    assert (m - {p}).Keys == m.Keys - {p};
    assert m.Keys == (m - {p}).Keys + {p};
    assert |m| == |m.Keys| && |m - {p}| == |(m - {p}).Keys|;
  }

  lemma MapRemoveValues(m: map<Pid, Host>, p: Pid)
    requires p in m
    ensures m.Values == (m - {p}).Values + {m[p]}
  {
    forall h | h in m.Values ensures h in (m - {p}).Values + {m[p]} {
      var q :| q in m && m[q] == h;
      assert q != p ==> q in m - {p} && (m - {p})[q] == h;
    }
  }

  /** Removing entries, all of them n's, from the owner hash. */
  lemma RemoveSpares(st: Store, keys: set<Host>, info': map<NodeName, NodeInfo>, n: NodeName)
    requires keys <= Owned(st, n) && info' - {n} == st.info - {n}
    ensures SparesOthers(st, Store(st.owner - keys, info'), n)
    ensures Owned(Store(st.owner - keys, info'), n) == Owned(st, n) - keys
  {
  }

  lemma SparesSelf(st: Store, n: NodeName)
    ensures SparesOthers(st, st, n)
  {
  }

  ghost predicate GoodMove(v: View, v': View, n: NodeName) {
    SparesOthers(v.store, v'.store, n) && NodeOk(v'.store, n, v'.me)
  }

  lemma RegisterGood(v: View, n: NodeName, capacity: int)
    ensures GoodMove(v, DoRegister(v, n, capacity), n)
    ensures Owned(DoRegister(v, n, capacity).store, n) == {}
  {
    assert Owned(DoRegister(v, n, capacity).store, n) == {};
  }

  lemma AddCheckGood(v: View, n: NodeName, host: Host)
    requires v.me.phase.Idle? && UpOk(v.store, n, v.me)
    ensures GoodMove(v, DoAddCheck(v, n, host), n)
  {
  }

  /** hsetnx on a free host. */
  lemma ReserveSpares(st: Store, n: NodeName, h: Host)
    requires h !in st.owner
    ensures SparesOthers(st, st.(owner := st.owner[h := n]), n)
    ensures Owned(st.(owner := st.owner[h := n]), n) == Owned(st, n) + {h}
    ensures h !in Owned(st, n)
  {
  }

  lemma ReservedOk(owned: set<Host>, info: map<NodeName, NodeInfo>, n: NodeName, me: Local)
    requires me.phase.Checked? && UpWith(owned, info, n, me) && me.phase.host !in owned
    ensures UpWith(owned + {me.phase.host}, info, n, me.(phase := Reserved(me.phase.host, me.phase.next)))
  {
    LedgerReserve(owned, me.pids.Values, me.debt.locked, me.phase.host);
  }

  lemma AddReserveGood(v: View, n: NodeName)
    requires v.me.phase.Checked? && UpOk(v.store, n, v.me)
    ensures GoodMove(v, DoAddReserve(v, n), n)
  {
    var h := v.me.phase.host;
    if h !in v.store.owner {
      ReserveSpares(v.store, n, h);
      ReservedOk(Owned(v.store, n), v.store.info, n, v.me);
    }
  }

  lemma ReleasedOk(owned: set<Host>, info: map<NodeName, NodeInfo>, n: NodeName, me: Local)
    requires me.phase.Reserved? && UpWith(owned, info, n, me)
    ensures UpWith(owned - {me.phase.host}, info, n, me.(phase := Idle))
  {
    LedgerRelease(owned, me.pids.Values, me.debt.locked, me.phase.host);
  }

  lemma StartFailGood(v: View, n: NodeName)
    requires v.me.phase.Reserved? && UpOk(v.store, n, v.me)
    ensures GoodMove(v, DoStartFail(v), n)
  {
    RemoveSpares(v.store, {v.me.phase.host}, v.store.info, n);
    ReleasedOk(Owned(v.store, n), v.store.info, n, v.me);
  }

  lemma MapAddValues(m: map<Pid, Host>, p: Pid, h: Host)
    requires p !in m
    ensures m[p := h].Values == m.Values + {h}
  {
    var m' := m[p := h];
    assert m'[p] == h;
    forall x | x in m.Values ensures x in m'.Values {
      var q :| q in m && m[q] == x;
      assert q in m' && m'[q] == x;
    }
  }

  lemma MapAddSize(m: map<Pid, Host>, p: Pid, h: Host)
    requires p !in m
    ensures |m[p := h]| == |m| + 1
  {
    var m' := m[p := h];
    assert m'.Keys == m.Keys + {p};
    assert |m'| == |m'.Keys| && |m| == |m.Keys|;
  }

  // What tracking one more child does to the map.
  ghost predicate OneMore(m: map<Pid, Host>, more: map<Pid, Host>, p: Pid, h: Host) {
    && |more| == |m| + 1 && Injective(more) && more.Values == m.Values + {h}
    && (forall q :: q in more ==> q == p || q in m) && p in more
    && (forall q :: q in more ==> more[q] == if q == p then h else m[q])
  }

  lemma AddedPid(m: map<Pid, Host>, p: Pid, h: Host)
    requires p !in m && h !in m.Values && Injective(m)
    ensures OneMore(m, m[p := h], p, h)
  {
    MapAddValues(m, p, h);
    MapAddSize(m, p, h);
  }

  lemma TrackedOk(owned: set<Host>, info: map<NodeName, NodeInfo>, n: NodeName, me: Local, more: map<Pid, Host>)
    requires me.phase.Started? && UpWith(owned, info, n, me)
    requires OneMore(me.pids, more, me.phase.pid, me.phase.host)
    ensures UpWith(owned, info, n, me.(phase := Tracked(me.phase.next), pids := more))
  {
    LedgerTrack(owned, me.pids.Values, me.debt.locked, me.phase.host);
  }

  lemma TrackGood(v: View, n: NodeName)
    requires v.me.phase.Started? && UpOk(v.store, n, v.me)
    ensures GoodMove(v, DoTrack(v), n)
  {
    var Started(h, pid, _) := v.me.phase;
    AddedPid(v.me.pids, pid, h);
    TrackedOk(Owned(v.store, n), v.store.info, n, v.me, v.me.pids[pid := h]);
  }

  lemma CommitGood(v: View, n: NodeName)
    requires v.me.phase.Tracked? && UpOk(v.store, n, v.me)
    ensures GoodMove(v, DoCommit(v, n), n)
  {
    assert Owned(DoCommit(v, n).store, n) == Owned(v.store, n);
  }

  // What forgetting one child does to the map.
  ghost predicate OneLess(m: map<Pid, Host>, rest: map<Pid, Host>, h: Host) {
    && |rest| == |m| - 1 && Injective(rest) && m.Values == rest.Values + {h} && h !in rest.Values
    && (forall q :: q in rest ==> q in m && rest[q] == m[q])
  }

  lemma RemovedPid(m: map<Pid, Host>, p: Pid)
    requires p in m && Injective(m)
    ensures OneLess(m, m - {p}, m[p])
  {
    MapRemoveSize(m, p);
    MapRemoveValues(m, p);
  }

  // Untracking a child keeps its host in flight.
  lemma PoppedOk(owned: set<Host>, info: map<NodeName, NodeInfo>, n: NodeName, me: Local, rest: map<Pid, Host>, h: Host)
    requires me.phase.Idle? && UpWith(owned, info, n, me) && OneLess(me.pids, rest, h)
    ensures UpWith(owned, info, n, me.(phase := Popped(h), pids := rest))
  {
    LedgerPop(owned, rest.Values, me.debt.locked, h);
  }

  lemma PopJobGood(v: View, n: NodeName, job: Job)
    requires v.me.phase.Idle? && job in v.me.jobs && UpOk(v.store, n, v.me)
    ensures GoodMove(v, DoPopJob(v, job), n)
  {
    var me := v.me.(jobs := v.me.jobs - {job});
    if job.pid in me.pids {
      RemovedPid(me.pids, job.pid);
      PoppedOk(Owned(v.store, n), v.store.info, n, me, me.pids - {job.pid}, job.host);
    }
  }

  lemma ReadOk(owned: set<Host>, info: map<NodeName, NodeInfo>, n: NodeName, me: Local)
    requires me.phase.Popped? && UpWith(owned, info, n, me)
    ensures UpWith(owned, info, n, me.(phase := Removing(me.phase.host, info[n].(count := info[n].count - 1))))
  {
  }

  lemma ReadInfoGood(v: View, n: NodeName)
    requires v.me.phase.Popped? && UpOk(v.store, n, v.me)
    ensures GoodMove(v, DoReadInfo(v, n), n)
  {
    ReadOk(Owned(v.store, n), v.store.info, n, v.me);
    SparesSelf(v.store, n);
  }

  // Once the released host's entry and the new count are published, the node is idle and in order.
  lemma RemovedOk(owned: set<Host>, info: map<NodeName, NodeInfo>, n: NodeName, me: Local)
    requires me.phase.Removing? && UpWith(owned, info, n, me)
    ensures UpWith(owned - {me.phase.host}, info[n := me.phase.next], n, me.(phase := Idle))
  {
    LedgerRelease(owned, me.pids.Values, me.debt.locked, me.phase.host);
  }

  lemma CommitRemoveGood(v: View, n: NodeName)
    requires v.me.phase.Removing? && UpOk(v.store, n, v.me)
    ensures GoodMove(v, DoCommitRemove(v, n), n)
  {
    RemoveSpares(v.store, {v.me.phase.host}, v.store.info[n := v.me.phase.next], n);
    RemovedOk(Owned(v.store, n), v.store.info, n, v.me);
  }

  lemma AbandonedOk(owned: set<Host>, info: map<NodeName, NodeInfo>, n: NodeName, v: View)
    requires Up(v.me.phase) && UpWith(owned, info, n, v.me)
    ensures UpWith(owned, info, n, DoAbandon(v).me)
  {
    LedgerLock(owned, v.me.pids.Values, InFlight(v.me.phase), v.me.debt.locked);
  }

  lemma AbandonGood(v: View, n: NodeName)
    requires Up(v.me.phase) && UpOk(v.store, n, v.me)
    ensures GoodMove(v, DoAbandon(v), n)
  {
    AbandonedOk(Owned(v.store, n), v.store.info, n, v);
  }

  lemma FinishCleanupGood(v: View, n: NodeName)
    requires v.me.phase.Leaving? && NodeOk(v.store, n, v.me)
    ensures GoodMove(v, DoFinishCleanup(v, n), n)
  {
    RemoveSpares(v.store, v.me.phase.keys, v.store.info - {n}, n);
  }

  lemma LocalMovesGood(v: View, n: NodeName)
    requires NodeOk(v.store, n, v.me)
    ensures GoodMove(v, DoCrash(v), n)
    ensures Up(v.me.phase) ==> GoodMove(v, DoBeginCleanup(v), n)
    ensures v.me.phase.Down? ==> GoodMove(v, DoAbortStart(v, n), n)
  {
  }

  lemma StartOkGood(v: View, n: NodeName, pid: Pid)
    requires v.me.phase.Reserved? && FreshPid(v.me, pid, v.me.phase.host) && UpOk(v.store, n, v.me)
    ensures GoodMove(v, DoStartOk(v, pid), n)
  {
  }

  lemma ChildExitGood(v: View, n: NodeName, pid: Pid)
    requires Up(v.me.phase) && pid in v.me.pids && UpOk(v.store, n, v.me)
    ensures GoodMove(v, DoChildExit(v, pid), n)
  {
  }

  lemma LoseJobGood(v: View, n: NodeName, job: Job)
    requires NodeOk(v.store, n, v.me)
    ensures GoodMove(v, v.(me := v.me.(jobs := v.me.jobs - {job})), n)
  {
  }

  lemma ActGood(v: View, n: NodeName, a: Action)
    requires Enabled(v, a) && NodeOk(v.store, n, v.me)
    ensures GoodMove(v, Act(v, n, a), n)
  {
    match a
    case Register(capacity) => RegisterGood(v, n, capacity);
    case AddCheck(host) => AddCheckGood(v, n, host);
    case AddReserve => AddReserveGood(v, n);
    case StartFail => StartFailGood(v, n);
    case Track => TrackGood(v, n);
    case Commit => CommitGood(v, n);
    case PopJob(job) => PopJobGood(v, n, job);
    case ReadInfo => ReadInfoGood(v, n);
    case CommitRemove => CommitRemoveGood(v, n);
    case Abandon => AbandonGood(v, n);
    case FinishCleanup => FinishCleanupGood(v, n);
    case StartOk(pid) => StartOkGood(v, n, pid);
    case ChildExit(pid) => ChildExitGood(v, n, pid);
    case LoseJob(job) => LoseJobGood(v, n, job);
    case AbortStart => LocalMovesGood(v, n);
    case BeginCleanup => LocalMovesGood(v, n);
    case Crash => LocalMovesGood(v, n);
  }

  // ---------------------------------------------------------------- every run

  lemma OthersStayOk(st: Store, st': Store, n: NodeName, m: NodeName, me: Local)
    requires m != n && SparesOthers(st, st', n) && NodeOk(st, m, me)
    ensures NodeOk(st', m, me) && Owned(st', m) == Owned(st, m)
  {
    assert Owned(st', m) == Owned(st, m);
    assert m in st.info <==> m in st'.info - {n};
    assert m in st.info ==> (st'.info - {n})[m] == (st.info - {n})[m];
  }

  lemma ForceDeleteSpares(st: Store, n: NodeName)
    ensures var st' := DeletePipeline(st, n, Owned(st, n)); SparesOthers(st, st', n) && Owned(st', n) == {}
  {
    RemoveSpares(st, Owned(st, n), st.info - {n}, n);
  }

  lemma StepKeepsInv(s: State, step: Step)
    requires Inv(s) && CanStep(s, step)
    ensures Inv(Apply(s, step)) && SparesOthers(s.store, Apply(s, step).store, step.node)
  {
    var s', n := Apply(s, step), step.node;
    match step {
      case NodeStep(_, a) => ActGood(View(s.store, s.nodes[n]), n, a);
      case ForceDelete(_) => ForceDeleteSpares(s.store, n);
    }
    forall m | m in s'.nodes && m != n ensures NodeOk(s'.store, m, s'.nodes[m]) {
      OthersStayOk(s.store, s'.store, n, m, s.nodes[m]);
    }
  }

  lemma RunStepKeepsInv(run: seq<State>, steps: seq<Step>, i: nat)
    requires IsRun(run, steps) && 0 < i < |run| && Inv(run[i - 1])
    ensures Inv(run[i]) && run[i].nodes.Keys == run[i - 1].nodes.Keys
  {
    assert Leads(run, steps, i - 1);
    StepKeepsInv(run[i - 1], steps[i - 1]);
  }

  lemma {:induction false} RunKeepsInv(run: seq<State>, steps: seq<Step>, i: nat)
    requires IsRun(run, steps) && Initial(run[0]) && i < |run|
    ensures Inv(run[i]) && run[i].nodes.Keys == run[0].nodes.Keys
  {
    if i > 0 {
      RunKeepsInv(run, steps, i - 1);
      RunStepKeepsInv(run, steps, i);
    }
  }

  /** What Redis and node n's own memory say about each other. */
  ghost predicate Agrees(st: Store, n: NodeName, me: Local) {
    && n in st.info
    && st.info[n].count == |me.pids| + Skew(me.phase) + me.debt.overcounted - me.debt.uncounted
    && st.info[n].count <= Max(0, st.info[n].capacity)
    && |me.pids| + me.debt.overcounted - me.debt.uncounted <= Max(0, st.info[n].capacity)
    && Injective(me.pids)
    && Ledger(Owned(st, n), me.pids.Values, InFlight(me.phase), me.debt.locked)
  }

  lemma UpAgrees(st: Store, n: NodeName, me: Local)
    requires UpOk(st, n, me)
    ensures Agrees(st, n, me)
  {
    // a tracked child that is not counted yet has a place, because the node had room for it
    assert me.phase.Tracked? ==> st.info[n].HasRoom();
  }

  /** The main result: at every moment of every interleaving, each running node agrees with Redis up to
      what abandoned jobs left behind, no host is tracked by two running nodes, and the "node does not
      exist" exit of add is unreachable. */
  lemma RunningNodesAgree(run: seq<State>, steps: seq<Step>, i: nat)
    requires IsRun(run, steps) && Initial(run[0]) && i < |run|
    ensures forall n <- run[i].nodes | Up(run[i].nodes[n].phase) :: Agrees(run[i].store, n, run[i].nodes[n])
    ensures forall n <- run[i].nodes, m <- run[i].nodes |
              n != m && Up(run[i].nodes[n].phase) && Up(run[i].nodes[m].phase) ::
              run[i].nodes[n].pids.Values !! run[i].nodes[m].pids.Values
    ensures i < |steps| && steps[i].NodeStep? && steps[i].action.AddCheck? ==> steps[i].node in run[i].store.info
  {
    RunKeepsInv(run, steps, i);
    forall n | n in run[i].nodes && Up(run[i].nodes[n].phase) ensures Agrees(run[i].store, n, run[i].nodes[n]) {
      UpAgrees(run[i].store, n, run[i].nodes[n]);
    }
    TrackedApart(run[i]);
    if i < |steps| && steps[i].NodeStep? && steps[i].action.AddCheck? {
      assert CanStep(run[i], steps[i]);
    }
  }

  lemma TrackedApart(s: State)
    requires Inv(s)
    ensures forall n <- s.nodes, m <- s.nodes | n != m && Up(s.nodes[n].phase) && Up(s.nodes[m].phase) ::
              s.nodes[n].pids.Values !! s.nodes[m].pids.Values
  {
    forall n, m | n in s.nodes && m in s.nodes && n != m && Up(s.nodes[n].phase) && Up(s.nodes[m].phase)
      ensures s.nodes[n].pids.Values !! s.nodes[m].pids.Values
    {
      assert NodeOk(s.store, n, s.nodes[n]) && NodeOk(s.store, m, s.nodes[m]);
      assert s.nodes[n].pids.Values <= Owned(s.store, n) && s.nodes[m].pids.Values <= Owned(s.store, m);
    }
  }

  /** How many jobs of node n were abandoned in the first i steps. */
  function Abandoned(steps: seq<Step>, n: NodeName, i: nat): nat
    requires i <= |steps|
  {
    if i == 0 then 0
    else Abandoned(steps, n, i - 1) + if steps[i - 1] == NodeStep(n, Abandon) then 1 else 0
  }

  ghost predicate DebtWithin(me: Local, k: nat) {
    me.phase.Down? || (me.debt.uncounted + me.debt.overcounted <= k && |me.debt.locked| <= k)
  }

  lemma OneMoreLocked(locked: set<Host>, inFlight: set<Host>)
    requires |inFlight| <= 1
    ensures |locked + inFlight| <= |locked| + 1
  {
    assert |locked + inFlight| == |locked| + |inFlight| - |locked * inFlight|;
  }

  lemma ActDebt(v: View, n: NodeName, a: Action, k: nat)
    requires Enabled(v, a) && DebtWithin(v.me, k)
    ensures DebtWithin(Act(v, n, a).me, k + if a.Abandon? then 1 else 0)
  {
    if a.Abandon? {
      OneMoreLocked(v.me.debt.locked, InFlight(v.me.phase));
    }
  }

  lemma RunStepDebt(run: seq<State>, steps: seq<Step>, i: nat, n: NodeName, k: nat)
    requires IsRun(run, steps) && 0 < i < |run| && n in run[i].nodes
    requires n in run[i - 1].nodes ==> DebtWithin(run[i - 1].nodes[n], k)
    ensures DebtWithin(run[i].nodes[n], k + if steps[i - 1] == NodeStep(n, Abandon) then 1 else 0)
  {
    var s, step := run[i - 1], steps[i - 1];
    assert Leads(run, steps, i - 1);
    if step.NodeStep? && step.node == n {
      ActDebt(View(s.store, s.nodes[n]), n, step.action, k);
    }
  }

  /** Each abandoned job leaves at most one host locked and the count off by at most one. */
  lemma {:induction false} DebtBounded(run: seq<State>, steps: seq<Step>, i: nat, n: NodeName)
    requires IsRun(run, steps) && Initial(run[0]) && i < |run| && n in run[i].nodes
    ensures DebtWithin(run[i].nodes[n], Abandoned(steps, n, i))
  {
    if i > 0 {
      if n in run[i - 1].nodes {
        DebtBounded(run, steps, i - 1, n);
      }
      RunStepDebt(run, steps, i, n, Abandoned(steps, n, i - 1));
    }
  }

  /** As long as none of its jobs is abandoned, a running node agrees with Redis exactly: the count is the
      number of its children and its entries are its hosts, up to the add or removal in progress, and it
      never has more children than its capacity. */
  lemma ExactAgreement(run: seq<State>, steps: seq<Step>, i: nat, n: NodeName)
    requires IsRun(run, steps) && Initial(run[0]) && i < |run|
    requires n in run[i].nodes && Up(run[i].nodes[n].phase) && Abandoned(steps, n, i) == 0
    ensures var st, me := run[i].store, run[i].nodes[n];
            && n in st.info && st.info[n].count == |me.pids| + Skew(me.phase)
            && |me.pids| <= Max(0, st.info[n].capacity)
            && Owned(st, n) == me.pids.Values + InFlight(me.phase)
  {
    RunKeepsInv(run, steps, i);
    DebtBounded(run, steps, i, n);
    UpAgrees(run[i].store, n, run[i].nodes[n]);
    assert run[i].nodes[n].debt.locked == {};
  }

  /** With abandoned jobs a node can have more children than its capacity, but by no more than their number. */
  lemma CapacityExceededBy(run: seq<State>, steps: seq<Step>, i: nat, n: NodeName)
    requires IsRun(run, steps) && Initial(run[0]) && i < |run|
    requires n in run[i].nodes && Up(run[i].nodes[n].phase)
    ensures n in run[i].store.info
    ensures |run[i].nodes[n].pids| <= Max(0, run[i].store.info[n].capacity) + Abandoned(steps, n, i)
  {
    RunKeepsInv(run, steps, i);
    DebtBounded(run, steps, i, n);
    UpAgrees(run[i].store, n, run[i].nodes[n]);
  }

  // ---------------------------------------------------------------- crash recovery

  ghost predicate Recovers(step: Step, n: NodeName) {
    step == ForceDelete(n) || (step.NodeStep? && step.node == n && step.action.Register?)
  }

  /** A node that is down, as another node's step leaves it. */
  lemma OthersLeaveOwned(st: Store, st': Store, n: NodeName, m: NodeName)
    requires m != n && SparesOthers(st, st', n)
    ensures Owned(st', m) == Owned(st, m)
  {
  }

  lemma DownStaysFrozen(s: State, step: Step, n: NodeName)
    requires Inv(s) && CanStep(s, step) && !Recovers(step, n)
    requires n in s.nodes && s.nodes[n].phase.Down?
    ensures n in Apply(s, step).nodes && Apply(s, step).nodes[n].phase.Down?
    ensures Owned(Apply(s, step).store, n) == Owned(s.store, n)
  {
    if step.node == n {
      OwnStepWhileDown(View(s.store, s.nodes[n]), n, step.action);
    } else {
      StepSpares(s, step, n);
    }
  }

  lemma StepSpares(s: State, step: Step, n: NodeName)
    requires Inv(s) && CanStep(s, step) && n != step.node
    ensures Owned(Apply(s, step).store, n) == Owned(s.store, n)
  {
    StepKeepsInv(s, step);
    OthersLeaveOwned(s.store, Apply(s, step).store, step.node, n);
  }

  lemma OwnStepWhileDown(v: View, n: NodeName, a: Action)
    requires Enabled(v, a) && v.me.phase.Down? && !a.Register?
    ensures Act(v, n, a).me.phase.Down? && Act(v, n, a).store.owner == v.store.owner
  {
  }

  lemma RunStepFrozen(run: seq<State>, steps: seq<Step>, i: nat, n: NodeName)
    requires IsRun(run, steps) && 0 < i < |run| && Inv(run[i - 1]) && !Recovers(steps[i - 1], n)
    requires n in run[i - 1].nodes && run[i - 1].nodes[n].phase.Down?
    ensures n in run[i].nodes && run[i].nodes[n].phase.Down?
    ensures Owned(run[i].store, n) == Owned(run[i - 1].store, n)
  {
    assert Leads(run, steps, i - 1);
    DownStaysFrozen(run[i - 1], steps[i - 1], n);
  }

  /** While n is down and nobody recovers it, its leftovers neither shrink nor grow, whatever others do. */
  lemma {:induction false} LeftoversFrozen(run: seq<State>, steps: seq<Step>, i: nat, j: nat, n: NodeName)
    requires IsRun(run, steps) && Initial(run[0]) && i <= j <= |steps|
    requires n in run[i].nodes && run[i].nodes[n].phase.Down?
    requires forall k | i <= k < j :: !Recovers(steps[k], n)
    ensures n in run[j].nodes && run[j].nodes[n].phase.Down?
    ensures Owned(run[j].store, n) == Owned(run[i].store, n)
    decreases j - i
  {
    if i < j {
      LeftoversFrozen(run, steps, i, j - 1, n);
      RunKeepsInv(run, steps, j - 1);
      RunStepFrozen(run, steps, j, n);
    }
  }

  lemma RecoveryClears(s: State, step: Step, n: NodeName)
    requires Inv(s) && CanStep(s, step) && Recovers(step, n)
    ensures Owned(Apply(s, step).store, n) == {}
    ensures SparesOthers(s.store, Apply(s, step).store, n)
  {
    match step {
      case NodeStep(_, a) => RegisterGood(View(s.store, s.nodes[n]), n, a.capacity);
      case ForceDelete(_) => ForceDeleteSpares(s.store, n);
    }
  }

  /** Node n crashes anywhere in add, _remove or cleanup; step j is the first registration or force
      delete of n after that. Until j exactly the entries n had at the crash stay locked, whatever the
      other nodes do meanwhile; step j removes them all and touches nobody else's. */
  lemma CrashThenRecover(run: seq<State>, steps: seq<Step>, i: nat, j: nat, n: NodeName)
    requires IsRun(run, steps) && Initial(run[0]) && i < j < |steps|
    requires steps[i] == NodeStep(n, Crash)
    requires Recovers(steps[j], n) && forall k | i < k < j :: !Recovers(steps[k], n)
    ensures Owned(run[j].store, n) == Owned(run[i].store, n)
    ensures var me := run[i].nodes[n];
            Up(me.phase) ==> Owned(run[j].store, n) == me.pids.Values + InFlight(me.phase) + me.debt.locked
    ensures Owned(run[j + 1].store, n) == {}
    ensures SparesOthers(run[j].store, run[j + 1].store, n)
    ensures Inv(run[j + 1])
  {
    CrashLeaves(run, steps, i, n);
    LeftoversFrozen(run, steps, i + 1, j, n);
    RecoveryInRun(run, steps, j, n);
  }

  lemma CrashLeaves(run: seq<State>, steps: seq<Step>, i: nat, n: NodeName)
    requires IsRun(run, steps) && Initial(run[0]) && i < |steps| && steps[i] == NodeStep(n, Crash)
    ensures n in run[i + 1].nodes && run[i + 1].nodes[n].phase.Down?
    ensures Owned(run[i + 1].store, n) == Owned(run[i].store, n)
    ensures var me := run[i].nodes[n];
            Up(me.phase) ==> Owned(run[i].store, n) == me.pids.Values + InFlight(me.phase) + me.debt.locked
  {
    RunKeepsInv(run, steps, i);
    assert Leads(run, steps, i);
  }

  lemma RecoveryInRun(run: seq<State>, steps: seq<Step>, j: nat, n: NodeName)
    requires IsRun(run, steps) && Initial(run[0]) && j < |steps| && Recovers(steps[j], n)
    ensures Owned(run[j + 1].store, n) == {} && Inv(run[j + 1])
    ensures SparesOthers(run[j].store, run[j + 1].store, n)
  {
    RunKeepsInv(run, steps, j);
    assert Leads(run, steps, j);
    RecoveryClears(run[j], steps[j], n);
    StepKeepsInv(run[j], steps[j]);
  }
}
