/** Dispatching one job to each of many pinned hosts, with every way it can partly fail.

    The scheduler's list, every liveness probe, every launch and the final pipeline are arbitrary inputs;
    None, or a Fault, stands for an exception raised there. */
module BulkDispatch {
  import opened Types
  import opened Pinning
  import opened NodeWorker
  import opened Dispatch

  datatype Reason = NoCapacity | NodeDead | LaunchError | SchedulingError | RedisError

  datatype Failed = Failed(host: Host, reason: Reason)

  datatype Sent<K> = Sent(queue: Queue, kwargs: K)

  /** What happens to the node picked for the k-th unassigned host. A launch that raises may have been
      queued all the same; the fault that ends the loop may come after a force-delete has done its part. */
  datatype Outcome = Launched | LaunchRaises(queued: bool) | FoundDead | Fault(deleted: bool)
  {
    predicate Deletes() { FoundDead? || (Fault? && deleted) }

    predicate Queues() { Launched? || (LaunchRaises? && queued) }

    predicate FailsHost() { FoundDead? || LaunchRaises? }
  }

  predicate FailedHost(failed: seq<Failed>, h: Host) {
    exists k :: 0 <= k < |failed| && failed[k].host == h
  }

  /** `idx` names, entry by entry, the positions the failures are about; no position twice. */
  ghost predicate Tracks(hosts: seq<Host>, failed: seq<Failed>, idx: seq<nat>) {
    && |idx| == |failed|
    && (forall k :: 0 <= k < |idx| ==> idx[k] < |hosts| && failed[k].host == hosts[idx[k]])
    && (forall k, l :: 0 <= k < l < |idx| ==> idx[k] != idx[l])
  }

  method AddFailure(hosts: seq<Host>, i: nat, reason: Reason, failed0: seq<Failed>, ghost idx0: seq<nat>)
    returns (failed: seq<Failed>, ghost idx: seq<nat>)
    requires i < |hosts| && Tracks(hosts, failed0, idx0) && i !in idx0
    ensures failed == failed0 + [Failed(hosts[i], reason)] && idx == idx0 + [i]
    ensures Tracks(hosts, failed, idx)
  {
    failed, idx := failed0 + [Failed(hosts[i], reason)], idx0 + [i];
  }

  ghost predicate Positions(hosts: seq<Host>, idx: seq<nat>) {
    && (forall k :: 0 <= k < |idx| ==> idx[k] < |hosts|)
    && (forall k, l :: 0 <= k < l < |idx| ==> idx[k] != idx[l])
  }

  /** Position i may be sent to: its picked node was seen alive and the launch was put on its queue. */
  ghost predicate LaunchedOn(selected: seq<Option<NodeInfo>>, outcome: nat -> Outcome, k: nat,
                             host: Host, spawned: seq<Spawn>) {
    && k < |selected| && selected[k].Some? && outcome(k) == Launched
    && Spawn(selected[k].value.queue, host) in spawned
  }

  /** Scheduling n hosts raises: no list, an empty one, one that is too long, or a fault while probing. */
  ghost predicate Raises(n: nat, selected: Option<seq<Option<NodeInfo>>>, outcome: nat -> Outcome) {
    || selected.None? || selected.value == [] || |selected.value| > n
    || exists k :: 0 <= k < |selected.value| && selected.value[k].Some? && outcome(k).Fault?
  }

  /** The reason given for the k-th of n unassigned hosts is the true one. */
  ghost predicate Why(n: nat, selected: Option<seq<Option<NodeInfo>>>, outcome: nat -> Outcome, k: nat, reason: Reason) {
    match reason
    case NoCapacity => selected.Some? && k < |selected.value| && selected.value[k].None?
    case NodeDead => selected.Some? && k < |selected.value| && selected.value[k].Some? && outcome(k).FoundDead?
    case LaunchError => selected.Some? && k < |selected.value| && selected.value[k].Some? && outcome(k).LaunchRaises?
    case SchedulingError => Raises(n, selected, outcome)
    case RedisError => false
  }

  /** Every reported failure has a true reason. */
  ghost predicate Explained(unassigned: seq<nat>, selected: Option<seq<Option<NodeInfo>>>, outcome: nat -> Outcome,
                            i: nat, reason: Reason) {
    exists k :: 0 <= k < |unassigned| && unassigned[k] == i && Why(|unassigned|, selected, outcome, k, reason)
  }

  ghost predicate AllExplained(unassigned: seq<nat>, selected: Option<seq<Option<NodeInfo>>>, outcome: nat -> Outcome,
                               failed: seq<Failed>, idx: seq<nat>) {
    |failed| == |idx| && forall l :: 0 <= l < |idx| ==> Explained(unassigned, selected, outcome, idx[l], failed[l].reason)
  }

  lemma ExplainOneMore(unassigned: seq<nat>, selected: Option<seq<Option<NodeInfo>>>, outcome: nat -> Outcome,
                       failed: seq<Failed>, idx: seq<nat>, k: nat, f: Failed)
    requires AllExplained(unassigned, selected, outcome, failed, idx)
    requires k < |unassigned| && Why(|unassigned|, selected, outcome, k, f.reason)
    ensures AllExplained(unassigned, selected, outcome, failed + [f], idx + [unassigned[k]])
  {
    assert Explained(unassigned, selected, outcome, unassigned[k], f.reason);
  }

  /** The first loop over the scheduler's list: positions without a node fail; a list longer than the
      hosts raises. */
  method FailUnplaced(hosts: seq<Host>, unassigned: seq<nat>, selected: seq<Option<NodeInfo>>,
                      ghost outcome: nat -> Outcome)
    returns (failed: seq<Failed>, ghost idx: seq<nat>, raised: bool)
    requires Positions(hosts, unassigned)
    ensures Tracks(hosts, failed, idx)
    ensures AllExplained(unassigned, Some(selected), outcome, failed, idx)
    ensures raised <==> |selected| > |unassigned|
    ensures forall i :: i in idx <==>
              exists k :: 0 <= k < Min(|selected|, |unassigned|) && unassigned[k] == i && selected[k].None?
  {
    failed, idx, raised := [], [], false;
    var k: nat := 0;
    while k < |selected|
      invariant k <= |selected| && k <= |unassigned| && !raised
      invariant Tracks(hosts, failed, idx)
      invariant AllExplained(unassigned, Some(selected), outcome, failed, idx)
      invariant forall i :: i in idx <==> exists j :: 0 <= j < k && unassigned[j] == i && selected[j].None?
    {
      if k >= |unassigned| {
        return failed, idx, true;
      }
      if selected[k].None? {
        ExplainOneMore(unassigned, Some(selected), outcome, failed, idx, k, Failed(hosts[unassigned[k]], NoCapacity));
        failed, idx := AddFailure(hosts, unassigned[k], NoCapacity, failed, idx);
      }
      k := k + 1;
    }
  }

  /** What probing the first k picks does to Redis: every one found dead is forgotten. */
  ghost function ForgetDead(st: Store, selected: seq<Option<NodeInfo>>, outcome: nat -> Outcome, k: nat): Store
    requires k <= |selected|
  {
    if k == 0 then st
    else
      var st0 := ForgetDead(st, selected, outcome, k - 1);
      if selected[k - 1].Some? && outcome(k - 1).Deletes() then Forget(st0, selected[k - 1].value) else st0
  }

  ghost function NewLaunch(hosts: seq<Host>, unassigned: seq<nat>, selected: seq<Option<NodeInfo>>,
                           outcome: nat -> Outcome, k: nat): seq<Spawn>
    requires Positions(hosts, unassigned) && k < |selected| && k < |unassigned|
  {
    if selected[k].Some? && outcome(k).Queues() then [Spawn(selected[k].value.queue, hosts[unassigned[k]])] else []
  }

  /** The launches queued for the first k picks, in order. */
  ghost function Launches(hosts: seq<Host>, unassigned: seq<nat>, selected: seq<Option<NodeInfo>>,
                          outcome: nat -> Outcome, k: nat): seq<Spawn>
    requires Positions(hosts, unassigned) && k <= |selected| && k <= |unassigned|
  {
    if k == 0 then []
    else
      Launches(hosts, unassigned, selected, outcome, k - 1) + NewLaunch(hosts, unassigned, selected, outcome, k - 1)
  }

  /** One of the first k picks was node n, found dead; a fault may end the loop after n was deleted. */
  ghost predicate FoundDeadBefore(selected: seq<Option<NodeInfo>>, outcome: nat -> Outcome, k: nat, n: NodeName) {
    exists j :: 0 <= j < k && j < |selected| && selected[j].Some? && selected[j].value.hostname == n
                && (outcome(j) == FoundDead || outcome(j) == Fault(true))
  }

  /** Exactly the picks found dead are gone, with all their entries; every other node is untouched. */
  lemma {:induction false} OnlyFoundDeadForgotten(st: Store, selected: seq<Option<NodeInfo>>,
                                                  outcome: nat -> Outcome, k: nat)
    requires k <= |selected|
    ensures var st' := ForgetDead(st, selected, outcome, k);
            && (forall n :: n in st'.info <==> n in st.info && !FoundDeadBefore(selected, outcome, k, n))
            && (forall n :: n in st'.info ==> st'.info[n] == st.info[n])
            && (forall h :: h in st'.owner <==> h in st.owner && !FoundDeadBefore(selected, outcome, k, st.owner[h]))
            && (forall h :: h in st'.owner ==> st'.owner[h] == st.owner[h])
  {
    if k > 0 {
      OnlyFoundDeadForgotten(st, selected, outcome, k - 1);
      forall n ensures FoundDeadBefore(selected, outcome, k, n) <==>
                         || FoundDeadBefore(selected, outcome, k - 1, n)
                         || (selected[k - 1].Some? && selected[k - 1].value.hostname == n
                             && (outcome(k - 1) == FoundDead || outcome(k - 1) == Fault(true)))
      {}
    }
  }

  /** A node all of whose picks were alive keeps its info and every entry, whatever became of the launches. */
  lemma LivePicksKept(st: Store, selected: seq<Option<NodeInfo>>, outcome: nat -> Outcome, k: nat, n: NodeName)
    requires k <= |selected|
    requires forall j | 0 <= j < k && selected[j].Some? && selected[j].value.hostname == n ::
               outcome(j) == Launched || outcome(j).LaunchRaises?
    ensures var st' := ForgetDead(st, selected, outcome, k);
            && (n in st.info ==> n in st'.info && st'.info[n] == st.info[n])
            && (forall h :: h in st.owner && st.owner[h] == n ==> h in st'.owner && st'.owner[h] == n)
  {
    OnlyFoundDeadForgotten(st, selected, outcome, k);
  }

  /** The picks whose launch was put on the queue. */
  ghost predicate QueuedAt(selected: seq<Option<NodeInfo>>, outcome: nat -> Outcome, j: nat) {
    j < |selected| && selected[j].Some? && (outcome(j) == Launched || outcome(j) == LaunchRaises(true))
  }

  ghost function QueuedPicks(selected: seq<Option<NodeInfo>>, outcome: nat -> Outcome, k: nat): set<nat> {
    set j: nat | j < k && QueuedAt(selected, outcome, j)
  }

  lemma QueuedOneMore(selected: seq<Option<NodeInfo>>, outcome: nat -> Outcome, k: nat)
    ensures |QueuedPicks(selected, outcome, k + 1)| ==
            |QueuedPicks(selected, outcome, k)| + if QueuedAt(selected, outcome, k) then 1 else 0
  {
    var before, after := QueuedPicks(selected, outcome, k), QueuedPicks(selected, outcome, k + 1);
    assert k !in before;
    assert after == if QueuedAt(selected, outcome, k) then before + {k} else before;
  }

  lemma {:induction false} LaunchCount(hosts: seq<Host>, unassigned: seq<nat>, selected: seq<Option<NodeInfo>>,
                                       outcome: nat -> Outcome, k: nat)
    requires Positions(hosts, unassigned) && k <= |selected| && k <= |unassigned|
    ensures |Launches(hosts, unassigned, selected, outcome, k)| == |QueuedPicks(selected, outcome, k)|
  {
    if k > 0 {
      LaunchCount(hosts, unassigned, selected, outcome, k - 1);
      QueuedOneMore(selected, outcome, k - 1);
    }
  }

  /** One launch for every pick that was launched or raised after queueing, and no other: it stands where the
      earlier ones end, on the picked node's queue and for the host at the same place. */
  lemma {:induction false} LaunchesExactly(hosts: seq<Host>, unassigned: seq<nat>, selected: seq<Option<NodeInfo>>,
                                           outcome: nat -> Outcome, k: nat, j: nat)
    requires Positions(hosts, unassigned) && j < k <= |selected| && k <= |unassigned|
    ensures var r, at := Launches(hosts, unassigned, selected, outcome, k), |QueuedPicks(selected, outcome, j)|;
            && |r| == |QueuedPicks(selected, outcome, k)|
            && (selected[j].Some? && (outcome(j) == Launched || outcome(j) == LaunchRaises(true)) ==>
                  at < |r| && r[at] == Spawn(selected[j].value.queue, hosts[unassigned[j]]))
  {
    LaunchCount(hosts, unassigned, selected, outcome, k);
    LaunchCount(hosts, unassigned, selected, outcome, j);
    if j < k - 1 {
      LaunchesExactly(hosts, unassigned, selected, outcome, k - 1, j);
    }
  }

  function ReasonOf(o: Outcome): Reason { if o.FoundDead? then NodeDead else LaunchError }

  /** One pick: probe its node, then launch or force-delete. */
  method LaunchOne(c: Controller, hosts: seq<Host>, i: nat, n: NodeInfo, o: Outcome,
                   failed0: seq<Failed>, ghost idx0: seq<nat>)
    returns (failed: seq<Failed>, ghost idx: seq<nat>, raised: bool)
    requires i < |hosts| && Tracks(hosts, failed0, idx0) && i !in idx0
    modifies c.rdb, c`spawned
    ensures raised <==> o.Fault?
    ensures Tracks(hosts, failed, idx)
    ensures idx == if o == FoundDead || o.LaunchRaises? then idx0 + [i] else idx0
    ensures failed == match o
                      case FoundDead => failed0 + [Failed(hosts[i], NodeDead)]
                      case LaunchRaises(_) => failed0 + [Failed(hosts[i], LaunchError)]
                      case _ => failed0
    ensures c.rdb.Hashes() == if o == FoundDead || o == Fault(true) then Forget(old(c.rdb.Hashes()), n) else old(c.rdb.Hashes())
    ensures c.spawned == old(c.spawned) + (if o == Launched || o == LaunchRaises(true) then [Spawn(n.queue, hosts[i])] else [])
  {
    failed, idx, raised := failed0, idx0, false;
    if o.Deletes() {
      c.ForceDelete(n);
    }
    if o.Fault? {
      raised := true;
    } else if o.FoundDead? {
      failed, idx := AddFailure(hosts, i, NodeDead, failed, idx);
    } else {
      if o.Queues() {
        c.spawned := c.spawned + [Spawn(n.queue, hosts[i])];
      }
      if o.LaunchRaises? {
        failed, idx := AddFailure(hosts, i, LaunchError, failed, idx);
      }
    }
  }

  ghost function NewBadPick(unassigned: seq<nat>, selected: seq<Option<NodeInfo>>, outcome: nat -> Outcome, k: nat): seq<nat>
    requires k < |selected| && k < |unassigned|
  {
    if selected[k].Some? && outcome(k).FailsHost() then [unassigned[k]] else []
  }

  /** The positions that fail at the first k picks. */
  ghost function BadPicks(unassigned: seq<nat>, selected: seq<Option<NodeInfo>>, outcome: nat -> Outcome, k: nat): seq<nat>
    requires k <= |selected| && k <= |unassigned|
  {
    if k == 0 then []
    else
      BadPicks(unassigned, selected, outcome, k - 1) + NewBadPick(unassigned, selected, outcome, k - 1)
  }

  lemma {:induction false} BadPicksMembers(unassigned: seq<nat>, selected: seq<Option<NodeInfo>>,
                                           outcome: nat -> Outcome, k: nat, i: nat)
    requires k <= |selected| && k <= |unassigned|
    ensures i in BadPicks(unassigned, selected, outcome, k) <==>
              exists j :: 0 <= j < k && unassigned[j] == i && selected[j].Some?
                          && (outcome(j) == FoundDead || outcome(j).LaunchRaises?)
  {
    if k > 0 {
      BadPicksMembers(unassigned, selected, outcome, k - 1, i);
    }
  }

  lemma NotYetFailed(hosts: seq<Host>, unassigned: seq<nat>, selected: seq<Option<NodeInfo>>,
                     outcome: nat -> Outcome, k: nat, idx0: seq<nat>)
    requires Positions(hosts, unassigned) && k < |selected| <= |unassigned| && unassigned[k] !in idx0
    ensures unassigned[k] !in idx0 + BadPicks(unassigned, selected, outcome, k)
  {
    BadPicksMembers(unassigned, selected, outcome, k, unassigned[k]);
  }

  /** Where the second loop stands after k picks. */
  ghost predicate PicksDone(hosts: seq<Host>, unassigned: seq<nat>, selected: seq<Option<NodeInfo>>,
                            outcome: nat -> Outcome, k: nat, st: Store, st': Store, spawned: seq<Spawn>,
                            spawned': seq<Spawn>, failed: seq<Failed>, idx0: seq<nat>, idx: seq<nat>)
    requires k <= |selected| <= |unassigned| && Positions(hosts, unassigned)
  {
    && Tracks(hosts, failed, idx) && idx == idx0 + BadPicks(unassigned, selected, outcome, k)
    && AllExplained(unassigned, Some(selected), outcome, failed, idx)
    && st' == ForgetDead(st, selected, outcome, k)
    && spawned' == spawned + Launches(hosts, unassigned, selected, outcome, k)
  }

  /** One more pick, launched or not. */
  method LaunchNext(c: Controller, hosts: seq<Host>, unassigned: seq<nat>, selected: seq<Option<NodeInfo>>,
                    outcome: nat -> Outcome, k: nat, ghost st: Store, ghost spawned: seq<Spawn>,
                    failed1: seq<Failed>, ghost idx0: seq<nat>, ghost idx1: seq<nat>)
    returns (failed: seq<Failed>, ghost idx: seq<nat>, raised: bool)
    requires k < |selected| <= |unassigned| && Positions(hosts, unassigned)
    requires selected[k].Some? ==> unassigned[k] !in idx0
    requires PicksDone(hosts, unassigned, selected, outcome, k, st, c.rdb.Hashes(), spawned, c.spawned, failed1, idx0, idx1)
    modifies c.rdb, c`spawned
    ensures raised <==> selected[k].Some? && outcome(k).Fault?
    ensures PicksDone(hosts, unassigned, selected, outcome, k + 1, st, c.rdb.Hashes(), spawned, c.spawned, failed, idx0, idx)
  {
    failed, idx, raised := failed1, idx1, false;
    ghost var bad, launches := BadPicks(unassigned, selected, outcome, k), Launches(hosts, unassigned, selected, outcome, k);
    assert bad + [] == bad && launches + [] == launches;
    if selected[k].Some? {
      NotYetFailed(hosts, unassigned, selected, outcome, k, idx0);
      if outcome(k).FailsHost() {
        ExplainOneMore(unassigned, Some(selected), outcome, failed, idx, k,
                       Failed(hosts[unassigned[k]], ReasonOf(outcome(k))));
        assert idx + [unassigned[k]] == idx0 + (bad + [unassigned[k]]);
      }
      failed, idx, raised := LaunchOne(c, hosts, unassigned[k], selected[k].value, outcome(k), failed, idx);
    }
  }

  /** The second loop: probe each picked node, launch on live ones, force-delete dead ones. The first fault
      ends it; `probed` counts the picks up to and including that one. */
  method LaunchAll(c: Controller, hosts: seq<Host>, unassigned: seq<nat>, selected: seq<Option<NodeInfo>>,
                   outcome: nat -> Outcome, failed0: seq<Failed>, ghost idx0: seq<nat>)
    returns (failed: seq<Failed>, ghost idx: seq<nat>, raised: bool, ghost probed: nat)
    requires |selected| <= |unassigned| && Positions(hosts, unassigned)
    requires Tracks(hosts, failed0, idx0) && AllExplained(unassigned, Some(selected), outcome, failed0, idx0)
    requires forall k :: 0 <= k < |selected| && selected[k].Some? ==> unassigned[k] !in idx0
    modifies c.rdb, c`spawned
    ensures probed <= |selected| && (!raised ==> probed == |selected|)
    ensures forall k :: 0 <= k < probed && selected[k].Some? && outcome(k).Fault? ==> raised && k == probed - 1
    ensures raised ==> probed > 0 && selected[probed - 1].Some? && outcome(probed - 1).Fault?
    ensures PicksDone(hosts, unassigned, selected, outcome, probed, old(c.rdb.Hashes()), c.rdb.Hashes(),
                      old(c.spawned), c.spawned, failed, idx0, idx)
  {
    failed, idx, raised, probed := failed0, idx0, false, |selected|;
    ghost var st, spawned := c.rdb.Hashes(), c.spawned;
    assert idx0 + [] == idx0 && spawned + [] == spawned;
    for k := 0 to |selected|
      invariant !raised && forall j :: 0 <= j < k && selected[j].Some? ==> !outcome(j).Fault?
      invariant PicksDone(hosts, unassigned, selected, outcome, k, st, c.rdb.Hashes(), spawned, c.spawned, failed, idx0, idx)
    {
      failed, idx, raised := LaunchNext(c, hosts, unassigned, selected, outcome, k, st, spawned, failed, idx0, idx);
      if raised {
        return failed, idx, true, k + 1;
      }
    }
  }

  /** The outer handler: every unassigned host that has not failed yet fails now. */
  method FailTheRest(hosts: seq<Host>, unassigned: seq<nat>, ghost selected: Option<seq<Option<NodeInfo>>>,
                     ghost outcome: nat -> Outcome, failed0: seq<Failed>, ghost idx0: seq<nat>)
    returns (failed: seq<Failed>, ghost idx: seq<nat>)
    requires Raises(|unassigned|, selected, outcome) && AllExplained(unassigned, selected, outcome, failed0, idx0)
    requires forall k :: 0 <= k < |unassigned| ==> unassigned[k] < |hosts|
    requires Tracks(hosts, failed0, idx0)
    ensures AllExplained(unassigned, selected, outcome, failed, idx)
    ensures Tracks(hosts, failed, idx)
    ensures forall i :: i in idx ==> i in idx0 || i in unassigned
    ensures forall k :: 0 <= k < |unassigned| ==> FailedHost(failed, hosts[unassigned[k]])
  {
    failed, idx := failed0, idx0;
    for k := 0 to |unassigned|
      invariant Tracks(hosts, failed, idx) && AllExplained(unassigned, selected, outcome, failed, idx)
      invariant forall i :: i in idx ==> i in idx0 || i in unassigned
      invariant forall j :: 0 <= j < k ==> FailedHost(failed, hosts[unassigned[j]])
    {
      var i := unassigned[k];
      ghost var before := failed;
      if !FailedHost(failed, hosts[i]) {
        assert i !in idx;
        ExplainOneMore(unassigned, selected, outcome, failed, idx, k, Failed(hosts[i], SchedulingError));
        failed, idx := AddFailure(hosts, i, SchedulingError, failed, idx);
        assert failed[|before|].host == hosts[i];
      }
      forall j | 0 <= j <= k ensures FailedHost(failed, hosts[unassigned[j]]) {
        if j < k {
          var l :| 0 <= l < |before| && before[l].host == hosts[unassigned[j]];
          assert failed[l].host == hosts[unassigned[j]];
        }
      }
    }
  }

  // ---------------------------------------------------------------- the whole call

  /** The positions of the hosts that no registered node has. */
  function Unassigned(st: Store, hosts: seq<Host>, n: nat): (r: seq<nat>)
    requires n <= |hosts|
    ensures forall k :: 0 <= k < |r| ==> r[k] < n && Assigned(st, hosts[r[k]]).None?
    ensures forall k, l :: 0 <= k < l < |r| ==> r[k] < r[l]
    ensures forall i :: 0 <= i < n && Assigned(st, hosts[i]).None? ==> i in r
  {
    if n == 0 then []
    else
      var r0 := Unassigned(st, hosts, n - 1);
      if Assigned(st, hosts[n - 1]).None? then
        assert forall i :: i in r0 ==> i in r0 + [n - 1];
        r0 + [n - 1]
      else r0
  }

  /** The k-th unassigned host may be sent to: its launch was queued on a node seen alive, or the
      scheduler's (non-empty) list was too short to reach it. */
  ghost predicate Placeable(selected: Option<seq<Option<NodeInfo>>>, outcome: nat -> Outcome,
                            spawned: seq<Spawn>, k: nat, host: Host) {
    && selected.Some? && selected.value != []
    && (k >= |selected.value| || LaunchedOn(selected.value, outcome, k, host, spawned))
  }

  ghost predicate Entitled(st: Store, hosts: seq<Host>, selected: Option<seq<Option<NodeInfo>>>,
                           outcome: nat -> Outcome, spawned: seq<Spawn>, i: nat)
    requires i < |hosts|
  {
    || Assigned(st, hosts[i]).Some?
    || (!Raises(|Unassigned(st, hosts, |hosts|)|, selected, outcome)
        && exists k :: 0 <= k < |Unassigned(st, hosts, |hosts|)| && Unassigned(st, hosts, |hosts|)[k] == i
             && Placeable(selected, outcome, spawned, k, hosts[i]))
  }

  /** What scheduling did outside: the first `probed` picks were probed, the dead ones forgotten and the
      live ones launched on; nothing else changed. */
  ghost predicate Probes(st: Store, spawned: seq<Spawn>, st': Store, spawned': seq<Spawn>, hosts: seq<Host>,
                         unassigned: seq<nat>, selected: Option<seq<Option<NodeInfo>>>,
                         outcome: nat -> Outcome, probed: nat)
    requires Positions(hosts, unassigned)
  {
    var picks := if selected.Some? then selected.value else [];
    && probed <= |picks| && probed <= |unassigned|
    && st' == ForgetDead(st, picks, outcome, probed)
    && spawned' == spawned + Launches(hosts, unassigned, picks, outcome, probed)
  }

  /** Scheduling, launching and the handler around them. */
  method Schedule(c: Controller, hosts: seq<Host>, unassigned: seq<nat>, selected: Option<seq<Option<NodeInfo>>>,
                  outcome: nat -> Outcome)
    returns (failed: seq<Failed>, ghost idx: seq<nat>, ghost probed: nat)
    requires Positions(hosts, unassigned)
    modifies c.rdb, c`spawned
    ensures Probes(old(c.rdb.Hashes()), old(c.spawned), c.rdb.Hashes(), c.spawned,
                   hosts, unassigned, selected, outcome, probed)
    ensures Tracks(hosts, failed, idx) && forall i :: i in idx ==> i in unassigned
    ensures AllExplained(unassigned, selected, outcome, failed, idx)
    ensures forall k :: 0 <= k < |unassigned| ==>
              || FailedHost(failed, hosts[unassigned[k]])
              || (!Raises(|unassigned|, selected, outcome)
                  && Placeable(selected, outcome, c.spawned, k, hosts[unassigned[k]]))
  {
    failed, idx, probed := [], [], 0;
    if unassigned == [] {
      return;
    }
    var raised := true;
    if selected.Some? && selected.value != [] {
      failed, idx, raised, probed := PlaceAll(c, hosts, unassigned, selected.value, outcome);
    }
    if raised {
      failed, idx := FailTheRest(hosts, unassigned, selected, outcome, failed, idx);
    }
  }

  /** The body of the try block, once the scheduler has returned a list. */
  method PlaceAll(c: Controller, hosts: seq<Host>, unassigned: seq<nat>, selected: seq<Option<NodeInfo>>,
                  outcome: nat -> Outcome)
    returns (failed: seq<Failed>, ghost idx: seq<nat>, raised: bool, ghost probed: nat)
    requires Positions(hosts, unassigned) && selected != []
    modifies c.rdb, c`spawned
    ensures Probes(old(c.rdb.Hashes()), old(c.spawned), c.rdb.Hashes(), c.spawned,
                   hosts, unassigned, Some(selected), outcome, probed)
    ensures Tracks(hosts, failed, idx) && forall i :: i in idx ==> i in unassigned
    ensures AllExplained(unassigned, Some(selected), outcome, failed, idx)
    ensures raised <==> Raises(|unassigned|, Some(selected), outcome)
    ensures !raised ==> forall k :: 0 <= k < |unassigned| ==>
              || FailedHost(failed, hosts[unassigned[k]])
              || Placeable(Some(selected), outcome, c.spawned, k, hosts[unassigned[k]])
  {
    probed := 0;
    ghost var spawned := c.spawned;
    failed, idx, raised := FailUnplaced(hosts, unassigned, selected, outcome);
    if !raised {
      ghost var idx0 := idx;
      failed, idx, raised, probed := LaunchAll(c, hosts, unassigned, selected, outcome, failed, idx);
      AllUnassigned(hosts, unassigned, selected, outcome, probed, idx0);
      if !raised {
        LaunchedOrFailed(hosts, unassigned, selected, outcome, spawned, failed, idx0, idx);
      }
    }
  }

  lemma {:induction false} LaunchesHave(hosts: seq<Host>, unassigned: seq<nat>, selected: seq<Option<NodeInfo>>,
                                        outcome: nat -> Outcome, k: nat, j: nat)
    requires Positions(hosts, unassigned) && j < k <= |selected| && k <= |unassigned|
    requires selected[j].Some? && outcome(j).Launched?
    ensures Spawn(selected[j].value.queue, hosts[unassigned[j]]) in Launches(hosts, unassigned, selected, outcome, k)
  {
    if j < k - 1 {
      LaunchesHave(hosts, unassigned, selected, outcome, k - 1, j);
    }
  }

  // A pick that did not fault has launched its host or failed it.
  lemma PickSettled(hosts: seq<Host>, unassigned: seq<nat>, selected: seq<Option<NodeInfo>>,
                    outcome: nat -> Outcome, failed: seq<Failed>, idx0: seq<nat>, idx: seq<nat>, k: nat)
    requires Positions(hosts, unassigned) && Tracks(hosts, failed, idx)
    requires k < |selected| <= |unassigned| && idx == idx0 + BadPicks(unassigned, selected, outcome, |selected|)
    requires selected[k].None? ==> unassigned[k] in idx0
    requires selected[k].Some? ==> !outcome(k).Fault?
    ensures FailedHost(failed, hosts[unassigned[k]])
            || LaunchedOn(selected, outcome, k, hosts[unassigned[k]], Launches(hosts, unassigned, selected, outcome, |selected|))
  {
    BadPicksMembers(unassigned, selected, outcome, |selected|, unassigned[k]);
    if unassigned[k] in idx {
      TrackedFailed(hosts, failed, idx, unassigned[k]);
    } else {
      LaunchesHave(hosts, unassigned, selected, outcome, |selected|, k);
    }
  }

  lemma LaunchedOrFailed(hosts: seq<Host>, unassigned: seq<nat>, selected: seq<Option<NodeInfo>>,
                         outcome: nat -> Outcome, spawned: seq<Spawn>, failed: seq<Failed>, idx0: seq<nat>, idx: seq<nat>)
    requires Positions(hosts, unassigned) && Tracks(hosts, failed, idx) && selected != []
    requires |selected| <= |unassigned| && idx == idx0 + BadPicks(unassigned, selected, outcome, |selected|)
    requires forall k :: 0 <= k < |selected| && selected[k].None? ==> unassigned[k] in idx0
    requires forall k :: 0 <= k < |selected| && selected[k].Some? ==> !outcome(k).Fault?
    ensures var spawned' := spawned + Launches(hosts, unassigned, selected, outcome, |selected|);
            forall k :: 0 <= k < |unassigned| ==>
              || FailedHost(failed, hosts[unassigned[k]])
              || Placeable(Some(selected), outcome, spawned', k, hosts[unassigned[k]])
  {
    forall k | 0 <= k < |selected|
      ensures FailedHost(failed, hosts[unassigned[k]])
              || LaunchedOn(selected, outcome, k, hosts[unassigned[k]],
                            Launches(hosts, unassigned, selected, outcome, |selected|))
    {
      PickSettled(hosts, unassigned, selected, outcome, failed, idx0, idx, k);
    }
  }

  lemma AllUnassigned(hosts: seq<Host>, unassigned: seq<nat>, selected: seq<Option<NodeInfo>>,
                      outcome: nat -> Outcome, k: nat, idx0: seq<nat>)
    requires Positions(hosts, unassigned) && k <= |selected| && k <= |unassigned|
    requires forall i :: i in idx0 ==> i in unassigned
    ensures forall i :: i in idx0 + BadPicks(unassigned, selected, outcome, k) ==> i in unassigned
  {
    forall i | i in BadPicks(unassigned, selected, outcome, k) ensures i in unassigned {
      BadPicksMembers(unassigned, selected, outcome, k, i);
    }
  }

  lemma TrackedFailed(hosts: seq<Host>, failed: seq<Failed>, idx: seq<nat>, i: nat)
    requires Tracks(hosts, failed, idx) && i in idx
    ensures i < |hosts| && FailedHost(failed, hosts[i])
  {
    var k :| 0 <= k < |idx| && idx[k] == i;
    assert failed[k].host == hosts[i];
  }

  /** The partition every outcome must respect. */
  ghost predicate Partition(hosts: seq<Host>, sentIdx: seq<nat>, failed: seq<Failed>, failedIdx: seq<nat>) {
    && Tracks(hosts, failed, failedIdx)
    && Positions(hosts, sentIdx)
    // a host is never both sent to and reported as failed
    && (forall i :: i in sentIdx ==> i < |hosts| && !FailedHost(failed, hosts[i]))
    // and every host is one of the two
    && (forall i :: 0 <= i < |hosts| ==> i in sentIdx || FailedHost(failed, hosts[i]))
  }

  ghost predicate Rising(idx: seq<nat>) {
    forall k, l :: 0 <= k < l < |idx| ==> idx[k] < idx[l]
  }

  /** Jobs are sent in the order of the hosts, those of hosts that had a node first. */
  ghost predicate SendOrder(st: Store, hosts: seq<Host>, idx: seq<nat>) {
    forall k, l :: 0 <= k < l < |idx| ==>
      if HasNode(st, hosts, idx[k]) == HasNode(st, hosts, idx[l]) then idx[k] < idx[l] else HasNode(st, hosts, idx[k])
  }

  method AssignedPositions(hosts: seq<Host>, nodes: seq<Option<NodeInfo>>) returns (r: seq<nat>)
    requires |nodes| == |hosts|
    ensures Positions(hosts, r) && forall i: nat :: i in r <==> i < |hosts| && nodes[i].Some?
    ensures Rising(r)
  {
    r := [];
    for i := 0 to |hosts|
      invariant Positions(hosts, r) && Rising(r) && forall k :: 0 <= k < |r| ==> r[k] < i
      invariant forall j: nat :: j in r <==> j < i && nodes[j].Some?
    {
      if nodes[i].Some? {
        forall k | 0 <= k < |r| ensures r[k] != i { assert r[k] in r; }
        r := r + [i];
      }
    }
  }

  ghost predicate Unfailed(hosts: seq<Host>, unassigned: seq<nat>, failed: seq<Failed>, i: nat) {
    i in unassigned && i < |hosts| && !FailedHost(failed, hosts[i])
  }

  ghost predicate HasNode(st: Store, hosts: seq<Host>, i: nat) {
    i < |hosts| && Assigned(st, hosts[i]).Some?
  }

  /** The assigned positions, then the unassigned ones whose host has not failed. */
  method Ready(hosts: seq<Host>, ready0: seq<nat>, unassigned: seq<nat>, failed: seq<Failed>)
    returns (ready: seq<nat>)
    requires Positions(hosts, ready0) && Positions(hosts, unassigned) && Rising(unassigned)
    requires forall i :: i in ready0 ==> i !in unassigned
    ensures Positions(hosts, ready)
    ensures ready0 <= ready && Rising(ready[|ready0|..])
    ensures forall k :: |ready0| <= k < |ready| ==> ready[k] in unassigned
    ensures forall i: nat :: i in ready <==> i in ready0 || Unfailed(hosts, unassigned, failed, i)
  {
    ready := ready0;
    for k := 0 to |unassigned|
      invariant Positions(hosts, ready)
      invariant ready0 <= ready && Rising(ready[|ready0|..])
      invariant forall l :: |ready0| <= l < |ready| ==> ready[l] in unassigned[..k]
      invariant forall i: nat :: i in ready <==> i in ready0 || Unfailed(hosts, unassigned[..k], failed, i)
    {
      var i := unassigned[k];
      assert unassigned[..k + 1] == unassigned[..k] + [i];
      assert i !in unassigned[..k] && i in unassigned;
      if !FailedHost(failed, hosts[i]) {
        forall l | 0 <= l < |ready| ensures ready[l] != i { assert ready[l] in ready; }
        ready := ready + [i];
      }
    }
    assert unassigned[..|unassigned|] == unassigned;
  }

  lemma ReadyInOrder(st: Store, hosts: seq<Host>, ready0: seq<nat>, ready: seq<nat>)
    requires ready0 <= ready && Rising(ready0) && Rising(ready[|ready0|..])
    requires forall k :: 0 <= k < |ready0| ==> HasNode(st, hosts, ready0[k])
    requires forall k :: |ready0| <= k < |ready| ==> !HasNode(st, hosts, ready[k])
    ensures SendOrder(st, hosts, ready)
  {
    forall k, l | 0 <= k < l < |ready|
      ensures if HasNode(st, hosts, ready[k]) == HasNode(st, hosts, ready[l]) then ready[k] < ready[l] else HasNode(st, hosts, ready[k])
    {
      if k >= |ready0| {
        assert ready[|ready0|..][k - |ready0|] < ready[|ready0|..][l - |ready0|];
      }
    }
  }

  lemma ReadyPartitions(st: Store, hosts: seq<Host>, unassigned: seq<nat>, failed: seq<Failed>, idx: seq<nat>,
                        ready: seq<nat>)
    requires unassigned == Unassigned(st, hosts, |hosts|)
    requires Tracks(hosts, failed, idx) && forall i :: i in idx ==> i in unassigned
    requires Positions(hosts, ready)
    requires forall i: nat :: i in ready <==> HasNode(st, hosts, i) || Unfailed(hosts, unassigned, failed, i)
    ensures Partition(hosts, ready, failed, idx)
  {
    forall i: nat | i in ready ensures i < |hosts| && !FailedHost(failed, hosts[i]) {
      // equal hosts have equal assignments, and only unassigned hosts have failed
      forall k | 0 <= k < |failed| && failed[k].host == hosts[i] ensures Assigned(st, hosts[i]).None? {
        assert idx[k] in idx && idx[k] in unassigned;
      }
    }
    forall i: nat | i < |hosts| ensures i in ready || FailedHost(failed, hosts[i]) {
      assert Assigned(st, hosts[i]).None? ==> i in unassigned;
    }
  }

  /** The pipeline failed: every position that was ready is reported. */
  method FailReady(hosts: seq<Host>, ready: seq<nat>, failed0: seq<Failed>, ghost idx0: seq<nat>)
    returns (failed: seq<Failed>, ghost idx: seq<nat>)
    requires Partition(hosts, ready, failed0, idx0)
    ensures Partition(hosts, [], failed, idx)
    ensures failed0 <= failed && idx == idx0 + ready
    ensures forall k :: |failed0| <= k < |failed| ==> failed[k].reason == RedisError
  {
    failed, idx := failed0, idx0;
    forall i | i in ready ensures i !in idx0 {
      if i in idx0 { TrackedFailed(hosts, failed0, idx0, i); }
    }
    for k := 0 to |ready|
      invariant Tracks(hosts, failed, idx) && idx == idx0 + ready[..k]
      invariant failed0 <= failed
      invariant forall l :: |failed0| <= l < |failed| ==> failed[l].reason == RedisError
    {
      failed, idx := AddFailure(hosts, ready[k], RedisError, failed, idx);
    }
    assert ready[..|ready|] == ready;
    forall i | 0 <= i < |hosts| ensures FailedHost(failed, hosts[i]) {
      if i in ready {
        assert i in idx;
        TrackedFailed(hosts, failed, idx, i);
      } else {
        var k :| 0 <= k < |failed0| && failed0[k].host == hosts[i];
        assert failed[k].host == hosts[i];
      }
    }
  }

  method UnassignedPositions(ghost st: Store, hosts: seq<Host>, nodes: seq<Option<NodeInfo>>) returns (r: seq<nat>)
    requires |nodes| == |hosts| && forall i :: 0 <= i < |hosts| ==> nodes[i] == Assigned(st, hosts[i])
    ensures r == Unassigned(st, hosts, |hosts|)
  {
    r := [];
    for i := 0 to |hosts|
      invariant r == Unassigned(st, hosts, i)
    {
      if nodes[i].None? {
        r := r + [i];
      }
    }
  }

  /** The pipeline: all ready jobs are sent, or none and all are reported. */
  method SendReady<K>(hosts: seq<Host>, kwargses: seq<K>, ready: seq<nat>, failed0: seq<Failed>, ghost idx0: seq<nat>,
                      sendOk: bool)
    returns (sent: seq<Sent<K>>, failed: seq<Failed>, ghost sentIdx: seq<nat>, ghost failedIdx: seq<nat>)
    requires |hosts| == |kwargses| && Partition(hosts, ready, failed0, idx0)
    ensures Partition(hosts, sentIdx, failed, failedIdx)
    ensures sentIdx == if sendOk then ready else []
    ensures failed0 <= failed && idx0 <= failedIdx && (sendOk ==> failed == failed0)
    ensures forall k :: |failed0| <= k < |failed| ==> failed[k].reason == RedisError
    ensures |sent| == |sentIdx| && forall k :: 0 <= k < |sent| ==>
              sent[k] == Sent(HostQueue(hosts[sentIdx[k]]), kwargses[sentIdx[k]])
  {
    sent, sentIdx, failed, failedIdx := [], [], failed0, idx0;
    if sendOk {
      sent := SendAll(hosts, kwargses, ready);
      sentIdx := ready;
    } else {
      failed, failedIdx := FailReady(hosts, ready, failed0, idx0);
    }
  }

  /** Everything before the pipeline: which positions are ready to be sent to, and what has failed. */
  method ReadyJobs(c: Controller, hosts: seq<Host>, selected: Option<seq<Option<NodeInfo>>>, outcome: nat -> Outcome)
    returns (ready: seq<nat>, failed: seq<Failed>, ghost idx: seq<nat>, ghost probed: nat)
    modifies c.rdb, c`spawned
    ensures Partition(hosts, ready, failed, idx) && SendOrder(old(c.rdb.Hashes()), hosts, ready)
    ensures AllExplained(Unassigned(old(c.rdb.Hashes()), hosts, |hosts|), selected, outcome, failed, idx)
    ensures Probes(old(c.rdb.Hashes()), old(c.spawned), c.rdb.Hashes(), c.spawned, hosts,
                   Unassigned(old(c.rdb.Hashes()), hosts, |hosts|), selected, outcome, probed)
    ensures forall k :: 0 <= k < |ready| ==>
              Entitled(old(c.rdb.Hashes()), hosts, selected, outcome, c.spawned, ready[k])
  {
    ghost var st := c.rdb.Hashes();
    var nodes := c.GetAssigned(hosts);
    var unassigned := UnassignedPositions(st, hosts, nodes);
    failed, idx, probed := Schedule(c, hosts, unassigned, selected, outcome);
    var ready0 := AssignedPositions(hosts, nodes);
    ready := Ready(hosts, ready0, unassigned, failed);
    ReadyPartitions(st, hosts, unassigned, failed, idx, ready);
    ReadyInOrder(st, hosts, ready0, ready);
    ReadyEntitled(st, hosts, unassigned, failed, ready, selected, outcome, c.spawned);
  }

  method DispatchBulk<K>(c: Controller, hosts: seq<Host>, kwargses: seq<K>,
                         selected: Option<seq<Option<NodeInfo>>>, outcome: nat -> Outcome, sendOk: bool)
    returns (sent: seq<Sent<K>>, failed: seq<Failed>, ghost sentIdx: seq<nat>, ghost failedIdx: seq<nat>,
             ghost probed: nat)
    requires |hosts| == |kwargses|
    modifies c.rdb, c`spawned
    ensures Partition(hosts, sentIdx, failed, failedIdx)
    ensures !sendOk ==> sent == []
    ensures Probes(old(c.rdb.Hashes()), old(c.spawned), c.rdb.Hashes(), c.spawned, hosts,
                   Unassigned(old(c.rdb.Hashes()), hosts, |hosts|), selected, outcome, probed)
    // every failure is reported with its true reason
    ensures forall k :: 0 <= k < |failed| ==>
              if failed[k].reason == RedisError then !sendOk
              else Explained(Unassigned(old(c.rdb.Hashes()), hosts, |hosts|), selected, outcome,
                             failedIdx[k], failed[k].reason)
    // each job goes to its own host's queue with its own arguments
    ensures |sent| == |sentIdx| && forall k :: 0 <= k < |sent| ==>
              sent[k] == Sent(HostQueue(hosts[sentIdx[k]]), kwargses[sentIdx[k]])
    ensures forall k :: 0 <= k < |sentIdx| ==>
              Entitled(old(c.rdb.Hashes()), hosts, selected, outcome, c.spawned, sentIdx[k])
    ensures SendOrder(old(c.rdb.Hashes()), hosts, sentIdx)
  {
    var ready;
    ghost var idx;
    ready, failed, idx, probed := ReadyJobs(c, hosts, selected, outcome);
    sent, failed, sentIdx, failedIdx := SendReady(hosts, kwargses, ready, failed, idx, sendOk);
  }

  lemma ReadyEntitled(st: Store, hosts: seq<Host>, unassigned: seq<nat>, failed: seq<Failed>, ready: seq<nat>,
                      selected: Option<seq<Option<NodeInfo>>>, outcome: nat -> Outcome, spawned: seq<Spawn>)
    requires unassigned == Unassigned(st, hosts, |hosts|)
    requires forall i: nat :: i in ready ==> HasNode(st, hosts, i) || Unfailed(hosts, unassigned, failed, i)
    requires forall k :: 0 <= k < |unassigned| ==>
               || FailedHost(failed, hosts[unassigned[k]])
               || (!Raises(|unassigned|, selected, outcome)
                   && Placeable(selected, outcome, spawned, k, hosts[unassigned[k]]))
    ensures forall k :: 0 <= k < |ready| ==>
              ready[k] < |hosts| && Entitled(st, hosts, selected, outcome, spawned, ready[k])
  {
    forall k | 0 <= k < |ready| ensures ready[k] < |hosts| && Entitled(st, hosts, selected, outcome, spawned, ready[k]) {
      assert ready[k] in ready;
      if Assigned(st, hosts[ready[k]]).None? {
        var l :| 0 <= l < |unassigned| && unassigned[l] == ready[k];
      }
    }
  }

  /** The host of position i already had a node, or its launch was queued on a node seen alive. */
  ghost predicate Backed(st: Store, hosts: seq<Host>, selected: seq<Option<NodeInfo>>, outcome: nat -> Outcome,
                         spawned: seq<Spawn>, i: nat)
    requires i < |hosts|
  {
    || Assigned(st, hosts[i]).Some?
    || exists k :: 0 <= k < |selected| && k < |Unassigned(st, hosts, |hosts|)| && Unassigned(st, hosts, |hosts|)[k] == i
         && LaunchedOn(selected, outcome, k, hosts[i], spawned)
  }

  lemma FullListBacks(st: Store, hosts: seq<Host>, selected: seq<Option<NodeInfo>>, outcome: nat -> Outcome,
                      spawned: seq<Spawn>, i: nat)
    requires i < |hosts| && |selected| == |Unassigned(st, hosts, |hosts|)|
    requires Entitled(st, hosts, Some(selected), outcome, spawned, i)
    ensures Backed(st, hosts, selected, outcome, spawned, i)
  {
  }

  // Past the end of the list there is no reason to report a host as failed.
  lemma BeyondListUnfailed(hosts: seq<Host>, unassigned: seq<nat>, selected: seq<Option<NodeInfo>>,
                           outcome: nat -> Outcome, failed: seq<Failed>, failedIdx: seq<nat>, k: nat)
    requires forall i, j :: 0 <= i < j < |hosts| ==> hosts[i] != hosts[j]
    requires Positions(hosts, unassigned) && Tracks(hosts, failed, failedIdx)
    requires AllExplained(unassigned, Some(selected), outcome, failed, failedIdx)
    requires !Raises(|unassigned|, Some(selected), outcome) && |selected| <= k < |unassigned|
    ensures !FailedHost(failed, hosts[unassigned[k]])
  {
    forall l | 0 <= l < |failed| ensures failed[l].host != hosts[unassigned[k]] {
      assert Explained(unassigned, Some(selected), outcome, failedIdx[l], failed[l].reason);
      assert failedIdx[l] != unassigned[k];
    }
  }

  /** Whether every job that is sent has a worker to run it. When scheduling did not raise, the pipeline
      worked and the hosts are distinct, every job sent is for a host that had a node or whose launch was
      queued if and only if the scheduler's list has one entry per unassigned host, as the lists of all four
      schedulers do. A list one short leaves a job without a launch. */
  lemma SentAreBackedExactly(st: Store, hosts: seq<Host>, selected: seq<Option<NodeInfo>>, outcome: nat -> Outcome,
                             spawned: seq<Spawn>, sentIdx: seq<nat>, failed: seq<Failed>, failedIdx: seq<nat>)
    requires forall i, j :: 0 <= i < j < |hosts| ==> hosts[i] != hosts[j]
    requires Partition(hosts, sentIdx, failed, failedIdx)
    requires AllExplained(Unassigned(st, hosts, |hosts|), Some(selected), outcome, failed, failedIdx)
    requires !Raises(|Unassigned(st, hosts, |hosts|)|, Some(selected), outcome)
    requires forall k :: 0 <= k < |sentIdx| ==> Entitled(st, hosts, Some(selected), outcome, spawned, sentIdx[k])
    ensures (forall k :: 0 <= k < |sentIdx| ==> Backed(st, hosts, selected, outcome, spawned, sentIdx[k])) <==>
              |selected| == |Unassigned(st, hosts, |hosts|)|
  {
    var unassigned, n := Unassigned(st, hosts, |hosts|), |selected|;
    if n == |unassigned| {
      forall k | 0 <= k < |sentIdx| ensures Backed(st, hosts, selected, outcome, spawned, sentIdx[k]) {
        FullListBacks(st, hosts, selected, outcome, spawned, sentIdx[k]);
      }
    } else {
      BeyondListUnfailed(hosts, unassigned, selected, outcome, failed, failedIdx, n);
      assert unassigned[n] in sentIdx;
      assert !Backed(st, hosts, selected, outcome, spawned, unassigned[n]);
    }
  }

  /** The shortest example: two new hosts and a list with one node. The job of the second is sent, and the
      only launch is for the first. */
  lemma ShortListSendsUnlaunched(g: Host, h: Host, n: NodeInfo, outcome: nat -> Outcome, sentIdx: seq<nat>,
                                 failed: seq<Failed>, failedIdx: seq<nat>)
    requires g != h && outcome(0).Launched?
    requires Partition([g, h], sentIdx, failed, failedIdx)
    requires AllExplained([0, 1], Some([Some(n)]), outcome, failed, failedIdx)
    ensures 1 in sentIdx
    ensures forall s <- Launches([g, h], [0, 1], [Some(n)], outcome, 1) :: s.host == g
  {
    BeyondListUnfailed([g, h], [0, 1], [Some(n)], outcome, failed, failedIdx, 1);
    assert Launches([g, h], [0, 1], [Some(n)], outcome, 0) == [];
  }

  method SendAll<K>(hosts: seq<Host>, kwargses: seq<K>, ready: seq<nat>) returns (sent: seq<Sent<K>>)
    requires |hosts| == |kwargses| && Positions(hosts, ready)
    ensures |sent| == |ready|
    ensures forall k :: 0 <= k < |sent| ==> sent[k] == Sent(HostQueue(hosts[ready[k]]), kwargses[ready[k]])
  {
    sent := [];
    for k := 0 to |ready|
      invariant |sent| == k
      invariant forall j :: 0 <= j < k ==> sent[j] == Sent(HostQueue(hosts[ready[j]]), kwargses[ready[j]])
    {
      sent := sent + [Sent(HostQueue(hosts[ready[k]]), kwargses[ready[k]])];
    }
  }

  /** The hosts of a partition, sent ones first. */
  function ReportedHosts(hosts: seq<Host>, sentIdx: seq<nat>, failed: seq<Failed>): seq<Host>
    requires forall k :: 0 <= k < |sentIdx| ==> sentIdx[k] < |hosts|
  {
    seq(|sentIdx| + |failed|, k requires 0 <= k < |sentIdx| + |failed| =>
      if k < |sentIdx| then hosts[sentIdx[k]] else failed[k - |sentIdx|].host)
  }

  /** With distinct hosts, every host is reported exactly once. */
  lemma DistinctHostsReportedOnce(hosts: seq<Host>, sentIdx: seq<nat>, failed: seq<Failed>, failedIdx: seq<nat>)
    requires Partition(hosts, sentIdx, failed, failedIdx)
    requires forall i, j :: 0 <= i < j < |hosts| ==> hosts[i] != hosts[j]
    ensures var r := ReportedHosts(hosts, sentIdx, failed);
            && (forall a, b :: 0 <= a < b < |r| ==> r[a] != r[b])
            && (forall h :: h in r <==> h in hosts)
  {
    var r := ReportedHosts(hosts, sentIdx, failed);
    forall a, b | 0 <= a < b < |r| ensures r[a] != r[b] {
      if b < |sentIdx| {
        assert sentIdx[a] != sentIdx[b];
      } else if a < |sentIdx| {
        assert sentIdx[a] in sentIdx;
      } else {
        assert failedIdx[a - |sentIdx|] != failedIdx[b - |sentIdx|];
      }
    }
    forall h | h in hosts ensures h in r {
      var i :| 0 <= i < |hosts| && hosts[i] == h;
      if i in sentIdx {
        var k :| 0 <= k < |sentIdx| && sentIdx[k] == i;
        assert r[k] == h;
      } else {
        var k :| 0 <= k < |failed| && failed[k].host == h;
        assert r[|sentIdx| + k] == h;
      }
    }
  }
}
