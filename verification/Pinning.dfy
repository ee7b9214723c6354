/** The host-pinning protocol as a state machine.

    Every NodeWorker shares two Redis hashes: `owner` (host to node) and `info` (node to its published
    count and capacity). An `Action` is one atomic Redis access, or one change of a node's own memory,
    so `Apply` interleaves any number of nodes and controllers at that grain. */
module Pinning {
  import opened Types

  type Pid = nat

  /** A queued call of `_remove`. It lives in Redis and outlives the process that queued it. */
  datatype Job = Job(pid: Pid, host: Host)

  datatype Store = Store(owner: map<Host, NodeName>, info: map<NodeName, NodeInfo>)

  /** Where a node's one serial thread stands. `next` is its private copy of the info it will publish. */
  datatype Phase =
    | Down
    | Idle
    | Checked(host: Host, next: NodeInfo)            // add: capacity checked
    | Reserved(host: Host, next: NodeInfo)           // add: hsetnx succeeded
    | Started(host: Host, pid: Pid, next: NodeInfo)  // add: child is running, not tracked yet
    | Tracked(next: NodeInfo)                        // add: child is tracked, count not published yet
    | Popped(host: Host)                             // _remove: pid forgotten
    | Removing(host: Host, next: NodeInfo)           // _remove: info read back
    | Leaving(keys: set<Host>)                       // cleanup: hosts collected, pipeline not executed yet

  /** What abandoned jobs have left behind since the node registered: hosts that stay locked although
      nobody tracks them, tracked children that were never counted, and counted ones that are gone.
      The code keeps no such record; it is here so that the agreement can be stated in spite of them. */
  datatype Debt = Debt(locked: set<Host>, uncounted: nat, overcounted: nat)

  const NO_DEBT := Debt({}, 0, 0)

  datatype Local = Local(phase: Phase, pids: map<Pid, Host>, jobs: set<Job>, debt: Debt)

  /** What one node can see and change. */
  datatype View = View(store: Store, me: Local)

  datatype Action =
    | Register(capacity: int)
    | AbortStart
    | AddCheck(host: Host)
    | AddReserve
    | StartOk(pid: Pid)
    | StartFail
    | Track
    | Commit
    | ChildExit(pid: Pid)
    | PopJob(job: Job)
    | LoseJob(job: Job)
    | ReadInfo
    | CommitRemove
    | Abandon
    | BeginCleanup
    | FinishCleanup
    | Crash

  /** A process that has registered and has not begun to clean up. */
  predicate Up(p: Phase) { !p.Down? && !p.Leaving? }

  ghost function Owned(st: Store, n: NodeName): set<Host> {
    set h | h in st.owner && st.owner[h] == n
  }

  /** The assumption about process ids: a new child's pid is not still tracked, and a removal queued
      earlier under that pid names the same host. It is weaker than never reusing a pid. */
  predicate FreshPid(me: Local, pid: Pid, host: Host) {
    && pid !in me.pids
    && forall j <- me.jobs :: j.pid == pid ==> j.host == host
  }

  /** The host an unfinished add has locked, or an unfinished _remove has not released yet. */
  function InFlight(p: Phase): set<Host> {
    match p
    case Reserved(h, _) => {h}
    case Started(h, _, _) => {h}
    case Popped(h) => {h}
    case Removing(h, _) => {h}
    case _ => {}
  }

  predicate Enabled(v: View, a: Action) {
    var p := v.me.phase;
    match a
    case Register(_) => p.Down?
    case AbortStart => p.Down?
    case AddCheck(_) => p.Idle?
    case AddReserve => p.Checked?
    case StartOk(pid) => p.Reserved? && FreshPid(v.me, pid, p.host)
    case StartFail => p.Reserved?
    case Track => p.Started?
    case Commit => p.Tracked?
    case ChildExit(pid) => Up(p) && pid in v.me.pids
    case PopJob(job) => p.Idle? && job in v.me.jobs
    case LoseJob(_) => true
    case ReadInfo => p.Popped?
    case CommitRemove => p.Removing?
    case Abandon => Up(p) && !p.Idle?
    case BeginCleanup => Up(p)
    case FinishCleanup => p.Leaving?
    case Crash => !p.Down?
  }

  /** listen: drop the entries left by an earlier process, publish a fresh info. */
  function DoRegister(v: View, n: NodeName, capacity: int): View {
    var kept := map h | h in v.store.owner && v.store.owner[h] != n :: v.store.owner[h];
    View(Store(kept, v.store.info[n := NodeInfo(n, 0, capacity, NodeQueue(n))]), Local(Idle, map[], v.me.jobs, NO_DEBT))
  }

  /** listen fails before it registered: cleanup of an empty pid map. */
  function DoAbortStart(v: View, n: NodeName): View {
    v.(store := v.store.(info := v.store.info - {n}))
  }

  function DoAddCheck(v: View, n: NodeName, host: Host): View {
    var st, me := v.store, v.me;
    if host in me.pids.Values then v
    else if n !in st.info then v.(me := me.(phase := Leaving(me.pids.Values)))
    else if st.info[n].count >= st.info[n].capacity then v
    else v.(me := me.(phase := Checked(host, st.info[n].(count := st.info[n].count + 1))))
  }

  function DoAddReserve(v: View, n: NodeName): View
    requires v.me.phase.Checked?
  {
    var Checked(host, next) := v.me.phase;
    if host in v.store.owner then v.(me := v.me.(phase := Idle))
    else View(v.store.(owner := v.store.owner[host := n]), v.me.(phase := Reserved(host, next)))
  }

  function DoStartOk(v: View, pid: Pid): View
    requires v.me.phase.Reserved?
  {
    v.(me := v.me.(phase := Started(v.me.phase.host, pid, v.me.phase.next)))
  }

  function DoStartFail(v: View): View
    requires v.me.phase.Reserved?
  {
    View(v.store.(owner := v.store.owner - {v.me.phase.host}), v.me.(phase := Idle))
  }

  function DoTrack(v: View): View
    requires v.me.phase.Started?
  {
    var Started(host, pid, next) := v.me.phase;
    v.(me := v.me.(phase := Tracked(next), pids := v.me.pids[pid := host]))
  }

  function DoCommit(v: View, n: NodeName): View
    requires v.me.phase.Tracked?
  {
    View(v.store.(info := v.store.info[n := v.me.phase.next]), v.me.(phase := Idle))
  }

  /** sigchld_handler and remove: only queues a job. */
  function DoChildExit(v: View, pid: Pid): View
    requires pid in v.me.pids
  {
    if v.me.pids[pid] == "" then v
    else v.(me := v.me.(jobs := v.me.jobs + {Job(pid, v.me.pids[pid])}))
  }

  function DoPopJob(v: View, job: Job): View {
    var me := v.me.(jobs := v.me.jobs - {job});
    if job.pid in me.pids then v.(me := me.(phase := Popped(job.host), pids := me.pids - {job.pid}))
    else v.(me := me)
  }

  function DoReadInfo(v: View, n: NodeName): View
    requires v.me.phase.Popped?
  {
    if n !in v.store.info then v.(me := v.me.(phase := Idle))
    else
      var pub := v.store.info[n];
      v.(me := v.me.(phase := Removing(v.me.phase.host, pub.(count := pub.count - 1))))
  }

  function DoCommitRemove(v: View, n: NodeName): View
    requires v.me.phase.Removing?
  {
    View(Store(v.store.owner - {v.me.phase.host}, v.store.info[n := v.me.phase.next]), v.me.(phase := Idle))
  }

  /** An exception, a failing Redis call above all, ends `add` or `_remove` where it stands: rq catches
      it, the node runs on, and nothing is undone. A reply that is lost after Redis has done its part
      is the completed access followed by this. */
  function DoAbandon(v: View): View {
    var debt := v.me.debt;
    var p := v.me.phase;
    var debt' := Debt(debt.locked + InFlight(p),
                      debt.uncounted + (if p.Tracked? then 1 else 0),
                      debt.overcounted + (if p.Popped? || p.Removing? then 1 else 0));
    v.(me := v.me.(phase := Idle, debt := debt'))
  }

  function DoBeginCleanup(v: View): View {
    v.(me := v.me.(phase := Leaving(v.me.pids.Values)))
  }

  function DoFinishCleanup(v: View, n: NodeName): View
    requires v.me.phase.Leaving?
  {
    View(DeletePipeline(v.store, n, v.me.phase.keys), v.me.(phase := Down, pids := map[]))
  }

  function DoCrash(v: View): View {
    v.(me := v.me.(phase := Down, pids := map[]))
  }

  /** The pipeline that ends cleanup and `_force_delete_node`, with the keys collected before it. */
  function DeletePipeline(st: Store, n: NodeName, keys: set<Host>): Store {
    Store(st.owner - keys, st.info - {n})
  }

  /** One action of node n. */
  function Act(v: View, n: NodeName, a: Action): View
    requires Enabled(v, a)
  {
    match a
    case Register(capacity) => DoRegister(v, n, capacity)
    case AbortStart => DoAbortStart(v, n)
    case AddCheck(host) => DoAddCheck(v, n, host)
    case AddReserve => DoAddReserve(v, n)
    case StartOk(pid) => DoStartOk(v, pid)
    case StartFail => DoStartFail(v)
    case Track => DoTrack(v)
    case Commit => DoCommit(v, n)
    case ChildExit(pid) => DoChildExit(v, pid)
    case PopJob(job) => DoPopJob(v, job)
    case LoseJob(job) => v.(me := v.me.(jobs := v.me.jobs - {job}))
    case ReadInfo => DoReadInfo(v, n)
    case CommitRemove => DoCommitRemove(v, n)
    case Abandon => DoAbandon(v)
    case BeginCleanup => DoBeginCleanup(v)
    case FinishCleanup => DoFinishCleanup(v, n)
    case Crash => DoCrash(v)
  }

  // ---------------------------------------------------------------- the whole system

  datatype State = State(store: Store, nodes: map<NodeName, Local>)

  datatype Step = NodeStep(node: NodeName, action: Action) | ForceDelete(node: NodeName)

  /** ForceDelete stands for scan and pipeline in one step, on a node that is really down. */
  ghost predicate CanStep(s: State, step: Step) {
    match step
    case NodeStep(n, a) => n in s.nodes && Enabled(View(s.store, s.nodes[n]), a)
    case ForceDelete(n) => n in s.nodes ==> s.nodes[n].phase.Down?
  }

  ghost function Apply(s: State, step: Step): State
    requires CanStep(s, step)
  {
    match step
    case NodeStep(n, a) =>
      var v := Act(View(s.store, s.nodes[n]), n, a);
      State(v.store, s.nodes[n := v.me])
    case ForceDelete(n) => s.(store := DeletePipeline(s.store, n, Owned(s.store, n)))
  }

  /** Redis may hold anything an earlier deployment left behind. */
  ghost predicate Initial(s: State) {
    forall n <- s.nodes :: s.nodes[n].phase.Down?
  }

  /** The i-th step leads from one state of the run to the next. */
  ghost predicate Leads(run: seq<State>, steps: seq<Step>, i: nat)
    requires |run| == |steps| + 1 && i < |steps|
  {
    CanStep(run[i], steps[i]) && run[i + 1] == Apply(run[i], steps[i])
  }

  ghost predicate IsRun(run: seq<State>, steps: seq<Step>) {
    && |run| == |steps| + 1
    && (forall i :: 0 <= i < |steps| ==> CanStep(run[i], steps[i]))
    && (forall i: nat :: i < |steps| ==> Leads(run, steps, i))
  }
}
