/** The life of a node over every run: when it is registered, what a clean shutdown leaves behind, which
    removals wait for it, and that it is never stuck. */
module PinningLifecycle {
  import opened Types
  import opened Pinning
  import opened PinningSafety

  // ---------------------------------------------------------------- registration

  /** Under which capacity node n is registered after one more step, None for not at all. */
  function Updated(step: Step, n: NodeName, before: Option<int>): Option<int> {
    if step.node != n then before
    else
      match step
      case NodeStep(_, Register(capacity)) => Some(capacity)
      case NodeStep(_, AbortStart) => None
      case NodeStep(_, FinishCleanup) => None
      case ForceDelete(_) => None
      case _ => before
  }

  function Registration(steps: seq<Step>, n: NodeName, i: nat, start: Option<int>): Option<int>
    requires i <= |steps|
  {
    if i == 0 then start else Updated(steps[i - 1], n, Registration(steps, n, i - 1, start))
  }

  /** What Redis holds. */
  function CapacityOf(st: Store, n: NodeName): Option<int> {
    if n in st.info then Some(st.info[n].capacity) else None
  }

  /** The private copy of a node's info has the published capacity. */
  ghost predicate CopyHasCapacity(st: Store, n: NodeName, p: Phase) {
    p.Tracked? || p.Removing? ==> n in st.info && p.next.capacity == st.info[n].capacity
  }

  lemma CopiesHaveCapacity(st: Store, n: NodeName, me: Local)
    requires NodeOk(st, n, me)
    ensures CopyHasCapacity(st, n, me.phase)
  {
    assert Up(me.phase) ==> n in st.info && CopyOk(st.info[n], me);
  }

  lemma OwnStepRegistration(v: View, n: NodeName, a: Action)
    requires Enabled(v, a) && CopyHasCapacity(v.store, n, v.me.phase)
    ensures CapacityOf(Act(v, n, a).store, n) == Updated(NodeStep(n, a), n, CapacityOf(v.store, n))
  {
  }

  lemma StepRegistration(s: State, step: Step, n: NodeName)
    requires Inv(s) && CanStep(s, step)
    ensures CapacityOf(Apply(s, step).store, n) == Updated(step, n, CapacityOf(s.store, n))
  {
    if step.node != n {
      StepKeepsInv(s, step);
      var info, info' := s.store.info, Apply(s, step).store.info;
      assert n in info <==> n in info - {step.node};
      assert n in info' <==> n in info' - {step.node};
      assert n in info ==> (info - {step.node})[n] == info[n] && (info' - {step.node})[n] == info'[n];
    } else if step.NodeStep? {
      CopiesHaveCapacity(s.store, n, s.nodes[n]);
      OwnStepRegistration(View(s.store, s.nodes[n]), n, step.action);
    }
  }

  lemma RunStepRegistration(run: seq<State>, steps: seq<Step>, i: nat, n: NodeName)
    requires IsRun(run, steps) && 0 < i < |run| && Inv(run[i - 1])
    ensures CapacityOf(run[i].store, n) == Updated(steps[i - 1], n, CapacityOf(run[i - 1].store, n))
  {
    assert Leads(run, steps, i - 1);
    StepRegistration(run[i - 1], steps[i - 1], n);
  }

  lemma {:induction false} RunRegistration(run: seq<State>, steps: seq<Step>, i: nat, n: NodeName)
    requires IsRun(run, steps) && Initial(run[0]) && i < |run|
    ensures CapacityOf(run[i].store, n) == Registration(steps, n, i, CapacityOf(run[0].store, n))
  {
    if i > 0 {
      RunRegistration(run, steps, i - 1, n);
      RunKeepsInv(run, steps, i - 1);
      RunStepRegistration(run, steps, i, n);
    }
  }

  /** A node is registered exactly when its last registration came after its last completed cleanup, failed
      start and force-delete, and then with the capacity it registered; its jobs and the other nodes
      change neither. */
  lemma RegisteredExactly(run: seq<State>, steps: seq<Step>, i: nat, n: NodeName)
    requires IsRun(run, steps) && Initial(run[0]) && i < |run|
    ensures var start := if n in run[0].store.info then Some(run[0].store.info[n].capacity) else None;
            && (n in run[i].store.info <==> Registration(steps, n, i, start).Some?)
            && (n in run[i].store.info ==> Registration(steps, n, i, start) == Some(run[i].store.info[n].capacity))
  {
    RunRegistration(run, steps, i, n);
  }

  // ---------------------------------------------------------------- a clean shutdown

  ghost predicate EndsLeaving(step: Step, n: NodeName) {
    step == NodeStep(n, Crash) || step == NodeStep(n, FinishCleanup)
  }

  lemma OwnStepWhileLeaving(v: View, n: NodeName, a: Action)
    requires Enabled(v, a) && v.me.phase.Leaving? && !a.Crash? && !a.FinishCleanup?
    ensures Act(v, n, a).me.phase == v.me.phase && Act(v, n, a).store == v.store
  {
  }

  lemma LeavingStays(s: State, step: Step, n: NodeName)
    requires Inv(s) && CanStep(s, step) && !EndsLeaving(step, n)
    requires n in s.nodes && s.nodes[n].phase.Leaving?
    ensures n in Apply(s, step).nodes && Apply(s, step).nodes[n].phase == s.nodes[n].phase
    ensures Owned(Apply(s, step).store, n) == Owned(s.store, n)
  {
    if step.node != n {
      StepSpares(s, step, n);
    } else {
      OwnStepWhileLeaving(View(s.store, s.nodes[n]), n, step.action);
    }
  }

  lemma RunStepLeaving(run: seq<State>, steps: seq<Step>, k: nat, n: NodeName)
    requires IsRun(run, steps) && Initial(run[0]) && k < |steps| && !EndsLeaving(steps[k], n)
    requires n in run[k].nodes && run[k].nodes[n].phase.Leaving?
    ensures n in run[k + 1].nodes && run[k + 1].nodes[n].phase == run[k].nodes[n].phase
    ensures Owned(run[k + 1].store, n) == Owned(run[k].store, n)
  {
    RunKeepsInv(run, steps, k);
    assert Leads(run, steps, k);
    LeavingStays(run[k], steps[k], n);
  }

  lemma {:induction false} LeavingFrozen(run: seq<State>, steps: seq<Step>, i: nat, j: nat, n: NodeName)
    requires IsRun(run, steps) && Initial(run[0]) && i <= j <= |steps|
    requires n in run[i].nodes && run[i].nodes[n].phase.Leaving?
    requires forall k | i <= k < j :: !EndsLeaving(steps[k], n)
    ensures n in run[j].nodes && run[j].nodes[n].phase == run[i].nodes[n].phase
    ensures Owned(run[j].store, n) == Owned(run[i].store, n)
    decreases j - i
  {
    if i < j {
      LeavingFrozen(run, steps, i, j - 1, n);
      RunStepLeaving(run, steps, j - 1, n);
    }
  }

  lemma CleanupBegun(run: seq<State>, steps: seq<Step>, i: nat, n: NodeName)
    requires IsRun(run, steps) && Initial(run[0]) && i < |steps| && steps[i] == NodeStep(n, BeginCleanup)
    ensures n in run[i].nodes && Up(run[i].nodes[n].phase) && n in run[i + 1].nodes
    ensures run[i + 1].nodes[n].phase == Leaving(run[i].nodes[n].pids.Values)
    ensures Owned(run[i + 1].store, n) == Owned(run[i].store, n)
    ensures var me := run[i].nodes[n]; Ledger(Owned(run[i].store, n), me.pids.Values, InFlight(me.phase), me.debt.locked)
  {
    RunKeepsInv(run, steps, i);
    assert Leads(run, steps, i);
    UpAgrees(run[i].store, n, run[i].nodes[n]);
  }

  lemma FinishRemoves(v: View, n: NodeName)
    requires v.me.phase.Leaving? && v.me.phase.keys <= Owned(v.store, n)
    ensures var v' := DoFinishCleanup(v, n);
            && v'.me.phase.Down? && n !in v'.store.info && SparesOthers(v.store, v'.store, n)
            && Owned(v'.store, n) == Owned(v.store, n) - v.me.phase.keys
  {
    RemoveSpares(v.store, v.me.phase.keys, v.store.info - {n}, n);
  }

  lemma CleanupFinished(run: seq<State>, steps: seq<Step>, j: nat, n: NodeName)
    requires IsRun(run, steps) && Initial(run[0]) && j < |steps| && steps[j] == NodeStep(n, FinishCleanup)
    ensures n in run[j].nodes && run[j].nodes[n].phase.Leaving?
    ensures n in run[j + 1].nodes && run[j + 1].nodes[n].phase.Down? && n !in run[j + 1].store.info
    ensures Owned(run[j + 1].store, n) == Owned(run[j].store, n) - run[j].nodes[n].phase.keys
    ensures SparesOthers(run[j].store, run[j + 1].store, n)
  {
    RunKeepsInv(run, steps, j);
    var s := run[j];
    assert Leads(run, steps, j);
    assert NodeOk(s.store, n, s.nodes[n]);
    FinishRemoves(View(s.store, s.nodes[n]), n);
  }

  lemma LeftAfterCleanup(st: Store, n: NodeName, owned: set<Host>, tracked: set<Host>, inFlight: set<Host>, locked: set<Host>)
    requires Ledger(owned, tracked, inFlight, locked) && Owned(st, n) == owned - tracked
    ensures forall h :: h in st.owner && st.owner[h] == n <==> h in inFlight + locked
  {
    forall h ensures h in st.owner && st.owner[h] == n <==> h in inFlight + locked {
      assert h in Owned(st, n) <==> h in owned - tracked;
    }
  }

  /** Cleanup begins at step i and ends at step j. Afterwards the node is no longer registered and its entries
      are exactly the host that was in flight and those that abandoned jobs had left locked: none at all if
      it was idle and no job of it had been abandoned. No other node is touched. */
  lemma CleanShutdown(run: seq<State>, steps: seq<Step>, i: nat, j: nat, n: NodeName)
    requires IsRun(run, steps) && Initial(run[0]) && i < j < |steps|
    requires steps[i] == NodeStep(n, BeginCleanup) && steps[j] == NodeStep(n, FinishCleanup)
    requires forall k | i < k < j :: !EndsLeaving(steps[k], n)
    ensures n in run[i].nodes && n !in run[j + 1].store.info
    ensures var me, owner := run[i].nodes[n], run[j + 1].store.owner;
            && (forall h :: h in owner && owner[h] == n <==> h in InFlight(me.phase) + me.debt.locked)
            && (me.phase.Idle? && Abandoned(steps, n, i) == 0 ==> n !in owner.Values)
    ensures SparesOthers(run[j].store, run[j + 1].store, n)
  {
    CleanupBegun(run, steps, i, n);
    LeavingFrozen(run, steps, i + 1, j, n);
    CleanupFinished(run, steps, j, n);
    DebtBounded(run, steps, i, n);
    var me := run[i].nodes[n];
    LeftAfterCleanup(run[j + 1].store, n, Owned(run[i].store, n), me.pids.Values, InFlight(me.phase), me.debt.locked);
  }

  // ---------------------------------------------------------------- queued removals

  lemma JobStays(s: State, step: Step, n: NodeName, job: Job)
    requires CanStep(s, step) && n in s.nodes && job in s.nodes[n].jobs
    requires step != NodeStep(n, PopJob(job)) && step != NodeStep(n, LoseJob(job))
    ensures n in Apply(s, step).nodes && job in Apply(s, step).nodes[n].jobs
  {
  }

  /** The removal of a child that exited at step i waits until the node takes it up, through crashes and
      restarts of the node, unless the queue loses it. */
  lemma {:induction false} RemovalWaits(run: seq<State>, steps: seq<Step>, i: nat, j: nat, n: NodeName, pid: Pid)
    requires IsRun(run, steps) && i < j <= |steps| && steps[i] == NodeStep(n, ChildExit(pid))
    requires n in run[i].nodes && pid in run[i].nodes[n].pids && run[i].nodes[n].pids[pid] != ""
    requires var job := Job(pid, run[i].nodes[n].pids[pid]);
             forall k | i < k < j :: steps[k] != NodeStep(n, PopJob(job)) && steps[k] != NodeStep(n, LoseJob(job))
    ensures n in run[j].nodes && Job(pid, run[i].nodes[n].pids[pid]) in run[j].nodes[n].jobs
    decreases j
  {
    assert Leads(run, steps, j - 1);
    if i < j - 1 {
      RemovalWaits(run, steps, i, j - 1, n, pid);
      JobStays(run[j - 1], steps[j - 1], n, Job(pid, run[i].nodes[n].pids[pid]));
    }
  }

  // ---------------------------------------------------------------- no node is ever stuck

  /** The run ends with node n and Redis in this view. */
  ghost predicate Reaches(run: seq<State>, steps: seq<Step>, n: NodeName, v: View) {
    IsRun(run, steps) && Initial(run[0]) && n in run[|steps|].nodes && View(run[|steps|].store, run[|steps|].nodes[n]) == v
  }

  lemma RunGoesOn(run: seq<State>, steps: seq<Step>, step: Step, s: State)
    requires IsRun(run, steps) && CanStep(run[|steps|], step) && s == Apply(run[|steps|], step)
    ensures IsRun(run + [s], steps + [step])
  {
    var run', steps' := run + [s], steps + [step];
    forall i: nat | i < |steps'| ensures CanStep(run'[i], steps'[i]) && run'[i + 1] == Apply(run'[i], steps'[i]) {
      if i < |steps| {
        assert Leads(run, steps, i);
      }
    }
    assert forall i: nat :: i < |steps'| ==> Leads(run', steps', i);
  }

  /** One more action of node n. */
  lemma Go(run: seq<State>, steps: seq<Step>, n: NodeName, v: View, a: Action, v': View) returns (run': seq<State>)
    requires Reaches(run, steps, n, v) && Enabled(v, a) && v' == Act(v, n, a)
    ensures Reaches(run', steps + [NodeStep(n, a)], n, v') && run <= run'
  {
    var s := Apply(run[|steps|], NodeStep(n, a));
    RunGoesOn(run, steps, NodeStep(n, a), s);
    run' := run + [s];
  }

  lemma ReachedOk(run: seq<State>, steps: seq<Step>, n: NodeName, v: View)
    requires Reaches(run, steps, n, v)
    ensures NodeOk(v.store, n, v.me)
  {
    RunKeepsInv(run, steps, |steps|);
  }

  /** What the node's thread does next in the middle of a job, if the child does not start. */
  function Next(p: Phase): Action
    requires Up(p) && !p.Idle?
  {
    match p
    case Checked(_, _) => AddReserve
    case Reserved(_, _) => StartFail
    case Started(_, _, _) => Track
    case Tracked(_) => Commit
    case Popped(_) => ReadInfo
    case Removing(_, _) => CommitRemove
  }

  function StepsLeft(p: Phase): nat {
    if p.Idle? then 0
    else if p.Reserved? || p.Tracked? || p.Removing? then 1
    else 2
  }

  lemma NextLeadsOn(v: View, n: NodeName)
    requires Up(v.me.phase) && !v.me.phase.Idle?
    ensures Enabled(v, Next(v.me.phase))
    ensures var p := Act(v, n, Next(v.me.phase)).me.phase; Up(p) && StepsLeft(p) < StepsLeft(v.me.phase)
  {
  }

  /** Whatever the others did, a node in the middle of a job can end it by itself in at most two actions. */
  lemma {:induction false} JobEnds(run: seq<State>, steps: seq<Step>, n: NodeName, v: View)
    returns (run': seq<State>, own: seq<Step>, v': View)
    requires Reaches(run, steps, n, v) && Up(v.me.phase)
    ensures Reaches(run', steps + own, n, v') && v'.me.phase.Idle? && run <= run'
    ensures |own| <= StepsLeft(v.me.phase) <= 2
    ensures forall step <- own :: step.node == n && step != NodeStep(n, Abandon)
    decreases StepsLeft(v.me.phase)
  {
    run', own, v' := run, [], v;
    assert steps + [] == steps;
    if !v.me.phase.Idle? {
      var a := Next(v.me.phase);
      NextLeadsOn(v, n);
      v' := Act(v, n, a);
      run' := Go(run, steps, n, v, a, v');
      var rest;
      run', rest, v' := JobEnds(run', steps + [NodeStep(n, a)], n, v');
      own := [NodeStep(n, a)] + rest;
      assert steps + own == steps + [NodeStep(n, a)] + rest;
    }
  }

  lemma ExitThenPop(v: View, n: NodeName, pid: Pid, h: Host) returns (v': View)
    requires v.me.phase.Idle? && UpOk(v.store, n, v.me) && pid in v.me.pids && v.me.pids[pid] == h != ""
    ensures var v1 := Act(v, n, ChildExit(pid)); Enabled(v1, PopJob(Job(pid, h))) && v' == Act(v1, n, PopJob(Job(pid, h)))
    ensures v'.store == v.store && v'.me.phase == Popped(h) && v'.me.pids == v.me.pids - {pid}
    ensures h in v.store.owner && n in v.store.info
  {
    v' := Act(Act(v, n, ChildExit(pid)), n, PopJob(Job(pid, h)));
    assert h in v.me.pids.Values && v.me.pids.Values <= Owned(v.store, n);
  }

  lemma ReadThenCommit(v: View, n: NodeName, h: Host) returns (v': View)
    requires v.me.phase == Popped(h) && n in v.store.info
    ensures var v1 := Act(v, n, ReadInfo); Enabled(v1, CommitRemove) && v' == Act(v1, n, CommitRemove)
    ensures v'.me.phase.Idle? && v'.me.pids == v.me.pids && v'.store.owner == v.store.owner - {h}
    ensures v'.store.info == v.store.info[n := v.store.info[n].(count := v.store.info[n].count - 1)]
  {
    v' := Act(Act(v, n, ReadInfo), n, CommitRemove);
  }

  lemma ExitTakenUp(run: seq<State>, steps: seq<Step>, n: NodeName, v: View, pid: Pid, h: Host)
    returns (run': seq<State>, v': View)
    requires Reaches(run, steps, n, v) && v.me.phase.Idle? && pid in v.me.pids && v.me.pids[pid] == h != ""
    ensures Reaches(run', steps + [NodeStep(n, ChildExit(pid))] + [NodeStep(n, PopJob(Job(pid, h)))], n, v') && run <= run'
    ensures v'.store == v.store && v'.me.phase == Popped(h) && v'.me.pids == v.me.pids - {pid}
    ensures h in v.store.owner && n in v.store.info
  {
    ReachedOk(run, steps, n, v);
    var v1 := Act(v, n, ChildExit(pid));
    v' := ExitThenPop(v, n, pid, h);
    run' := Go(run, steps, n, v, ChildExit(pid), v1);
    run' := Go(run', steps + [NodeStep(n, ChildExit(pid))], n, v1, PopJob(Job(pid, h)), v');
  }

  lemma ReadAndCommitted(run: seq<State>, steps: seq<Step>, n: NodeName, v: View, h: Host)
    returns (run': seq<State>, v': View)
    requires Reaches(run, steps, n, v) && v.me.phase == Popped(h) && n in v.store.info
    ensures Reaches(run', steps + [NodeStep(n, ReadInfo)] + [NodeStep(n, CommitRemove)], n, v') && run <= run'
    ensures v'.me.phase.Idle? && v'.me.pids == v.me.pids && v'.store.owner == v.store.owner - {h}
    ensures v'.store.info == v.store.info[n := v.store.info[n].(count := v.store.info[n].count - 1)]
  {
    var v1 := Act(v, n, ReadInfo);
    v' := ReadThenCommit(v, n, h);
    run' := Go(run, steps, n, v, ReadInfo, v1);
    run' := Go(run', steps + [NodeStep(n, ReadInfo)], n, v1, CommitRemove, v');
  }

  /** An idle node releases the host of a child that exits, by itself: afterwards nobody has the host. */
  lemma ExitReleases(run: seq<State>, steps: seq<Step>, n: NodeName, v: View, pid: Pid)
    returns (run': seq<State>, v': View)
    requires Reaches(run, steps, n, v) && v.me.phase.Idle? && pid in v.me.pids && v.me.pids[pid] != ""
    ensures var h := v.me.pids[pid];
            && Reaches(run', steps + [NodeStep(n, ChildExit(pid))] + [NodeStep(n, PopJob(Job(pid, h)))]
                             + [NodeStep(n, ReadInfo)] + [NodeStep(n, CommitRemove)], n, v')
            && run <= run'
            && v'.me.phase.Idle? && v'.me.pids == v.me.pids - {pid}
            && h in v.store.owner && v'.store.owner == v.store.owner - {h}
            && n in v.store.info
            && v'.store.info == v.store.info[n := v.store.info[n].(count := v.store.info[n].count - 1)]
  {
    var h := v.me.pids[pid];
    var v1;
    run', v1 := ExitTakenUp(run, steps, n, v, pid, h);
    var taken := steps + [NodeStep(n, ChildExit(pid))] + [NodeStep(n, PopJob(Job(pid, h)))];
    run', v' := ReadAndCommitted(run', taken, n, v1, h);
  }

  /** A tracked child can exit at any moment; its removal is queued, and nothing else changes. */
  lemma ExitsAnywhere(run: seq<State>, steps: seq<Step>, n: NodeName, v: View, pid: Pid) returns (run': seq<State>, v': View)
    requires Reaches(run, steps, n, v) && Up(v.me.phase) && pid in v.me.pids
    ensures Reaches(run', steps + [NodeStep(n, ChildExit(pid))], n, v') && run <= run'
    ensures v'.store == v.store && v'.me.phase == v.me.phase && v'.me.pids == v.me.pids
    ensures v'.me.jobs == v.me.jobs + if v.me.pids[pid] == "" then {} else {Job(pid, v.me.pids[pid])}
  {
    v' := Act(v, n, ChildExit(pid));
    run' := Go(run, steps, n, v, ChildExit(pid), v');
  }

  /** An idle node takes up any queued removal; one of a pid it does not track is dropped without effect. */
  lemma RemovalsTakenUp(run: seq<State>, steps: seq<Step>, n: NodeName, v: View, job: Job) returns (run': seq<State>, v': View)
    requires Reaches(run, steps, n, v) && v.me.phase.Idle? && job in v.me.jobs
    ensures Reaches(run', steps + [NodeStep(n, PopJob(job))], n, v') && run <= run'
    ensures v'.store == v.store && v'.me.jobs == v.me.jobs - {job} && v'.me.pids == v.me.pids - {job.pid}
    ensures v'.me.phase == if job.pid in v.me.pids then Popped(v.me.pids[job.pid]) else Idle
  {
    ReachedOk(run, steps, n, v);
    v' := Act(v, n, PopJob(job));
    run' := Go(run, steps, n, v, PopJob(job), v');
  }

  /** An idle node can be asked for any host: it goes on exactly when it does not track the host already and
      has published room. */
  lemma AnyHostCanBeAsked(run: seq<State>, steps: seq<Step>, n: NodeName, v: View, host: Host)
    returns (run': seq<State>, v': View)
    requires Reaches(run, steps, n, v) && v.me.phase.Idle?
    ensures Reaches(run', steps + [NodeStep(n, AddCheck(host))], n, v') && run <= run'
    ensures n in v.store.info && v'.store == v.store && v'.me.pids == v.me.pids && v'.me.jobs == v.me.jobs
    ensures if host in v.me.pids.Values || v.store.info[n].count >= v.store.info[n].capacity then v'.me.phase.Idle?
            else v'.me.phase.Checked? && v'.me.phase.host == host
  {
    ReachedOk(run, steps, n, v);
    v' := Act(v, n, AddCheck(host));
    run' := Go(run, steps, n, v, AddCheck(host), v');
  }

  /** Any node that is not running can be force-deleted, one that nobody runs included. */
  lemma StoppedCanBeForgotten(run: seq<State>, steps: seq<Step>, n: NodeName) returns (run': seq<State>)
    requires IsRun(run, steps) && Initial(run[0])
    requires n in run[|steps|].nodes ==> run[|steps|].nodes[n].phase.Down?
    ensures IsRun(run', steps + [ForceDelete(n)]) && run <= run'
    ensures var st := run'[|steps| + 1].store; n !in st.info && n !in st.owner.Values
    ensures run'[|steps| + 1].nodes == run[|steps|].nodes
  {
    var s := Apply(run[|steps|], ForceDelete(n));
    RunGoesOn(run, steps, ForceDelete(n), s);
    run' := run + [s];
  }

  lemma FreshStart(v: View, n: NodeName, capacity: int) returns (v': View)
    requires v.me.phase.Down?
    ensures Enabled(v, Register(capacity)) && v' == Act(v, n, Register(capacity))
    ensures v'.me.phase.Idle? && v'.me.pids == map[] && n !in v'.store.owner.Values
    ensures n in v'.store.info && v'.store.info[n] == NodeInfo(n, 0, capacity, NodeQueue(n))
  {
    v' := Act(v, n, Register(capacity));
  }

  /** A node can crash at any moment, also while it cleans up, and start again empty-handed. */
  lemma CrashesAnywhere(run: seq<State>, steps: seq<Step>, n: NodeName, v: View, capacity: int)
    returns (run': seq<State>, v': View)
    requires Reaches(run, steps, n, v) && !v.me.phase.Down?
    ensures Reaches(run', steps + [NodeStep(n, Crash)] + [NodeStep(n, Register(capacity))], n, v') && run <= run'
    ensures v'.me.phase.Idle? && v'.me.pids == map[] && n !in v'.store.owner.Values
    ensures n in v'.store.info && v'.store.info[n] == NodeInfo(n, 0, capacity, NodeQueue(n))
  {
    var v1 := Act(v, n, Crash);
    run' := Go(run, steps, n, v, Crash, v1);
    v' := FreshStart(v1, n, capacity);
    run' := Go(run', steps + [NodeStep(n, Crash)], n, v1, Register(capacity), v');
  }

  /** A job can be abandoned wherever it stands: Redis and the tracked children stay as they are. */
  lemma AbandonsAnywhere(run: seq<State>, steps: seq<Step>, n: NodeName, v: View) returns (run': seq<State>, v': View)
    requires Reaches(run, steps, n, v) && Up(v.me.phase) && !v.me.phase.Idle?
    ensures Reaches(run', steps + [NodeStep(n, Abandon)], n, v') && run <= run'
    ensures v'.store == v.store && v'.me.phase.Idle? && v'.me.pids == v.me.pids && v'.me.jobs == v.me.jobs
  {
    v' := Act(v, n, Abandon);
    run' := Go(run, steps, n, v, Abandon, v');
  }

  /** A running node can be stopped in good order at any moment. */
  lemma StopsAnywhere(run: seq<State>, steps: seq<Step>, n: NodeName, v: View) returns (run': seq<State>, v': View)
    requires Reaches(run, steps, n, v) && Up(v.me.phase)
    ensures Reaches(run', steps + [NodeStep(n, BeginCleanup)] + [NodeStep(n, FinishCleanup)], n, v') && run <= run'
    ensures v'.me.phase.Down? && n !in v'.store.info && v'.store.owner == v.store.owner - v.me.pids.Values
  {
    var v1 := Act(v, n, BeginCleanup);
    v' := Act(v1, n, FinishCleanup);
    run' := Go(run, steps, n, v, BeginCleanup, v1);
    run' := Go(run', steps + [NodeStep(n, BeginCleanup)], n, v1, FinishCleanup, v');
  }
}
