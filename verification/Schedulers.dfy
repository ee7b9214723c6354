/** The two deterministic schedulers. `None` as a whole result stands for WorkerUnavailableError. */
module Schedulers {
  import opened Types
  import opened Placement

  function Somes(s: seq<NodeInfo>): (r: seq<Option<NodeInfo>>)
    ensures |r| == |s| && forall i :: 0 <= i < |s| ==> r[i] == Some(s[i])
  {
    seq(|s|, i requires 0 <= i < |s| => Some(s[i]))
  }

  // ---------------------------------------------------------------- least_load

  /** The best of the nodes looked at so far. */
  ghost predicate BestOf(seen: seq<NodeInfo>, s: NodeInfo) {
    s in seen && forall m <- seen | m != s :: Before(LeastLoad, s, m)
  }

  lemma BestOfOneMore(seen: seq<NodeInfo>, s: NodeInfo, n: NodeInfo)
    requires BestOf(seen, s) && s.hostname != n.hostname
    ensures BestOf(seen + [n], if Before(LeastLoad, n, s) then n else s)
  {
    BeforeTotal(LeastLoad, s, n);
    if Before(LeastLoad, n, s) {
      forall m | m in seen && m != s ensures Before(LeastLoad, n, m) {
        BeforeTransitive(LeastLoad, n, s, m);
      }
    }
  }

  method LeastLoadNodeSelect(nodes: seq<NodeInfo>) returns (r: Option<NodeInfo>)
    requires DistinctNames(nodes)
    ensures r.None? <==> forall n <- nodes :: !n.HasRoom()
    ensures r.Some? ==> IsBest(LeastLoad, nodes, r.value)
    // least count first, then most capacity left, then the smallest hostname
    ensures r.Some? ==> forall m <- nodes | m.count < m.capacity && m != r.value ::
              || r.value.count < m.count
              || (r.value.count == m.count && r.value.capacity > m.capacity)
              || (r.value.count == m.count && r.value.capacity == m.capacity && StrLess(r.value.hostname, m.hostname))
  {
    var available := Available(nodes);
    AvailableDistinct(nodes);
    forall n ensures n in available <==> n in nodes && n.HasRoom() { AvailableMembers(nodes, n); }
    if available == [] {
      return None;
    }
    var selected := BestNode(available);
    return Some(selected);
  }

  /** The loop over the nodes with room. */
  method BestNode(available: seq<NodeInfo>) returns (selected: NodeInfo)
    requires available != [] && DistinctNames(available)
    ensures BestOf(available, selected)
  {
    selected := available[0];
    assert available[..1] == [available[0]];
    for i := 1 to |available|
      invariant BestOf(available[..i], selected)
    {
      var node := available[i];
      var k :| 0 <= k < i && available[k] == selected;
      BestOfOneMore(available[..i], selected, node);
      assert available[..i + 1] == available[..i] + [node];
      if node.count < selected.count {
        selected := node;
      } else if node.count == selected.count {
        if node.Room() > selected.Room() {
          selected := node;
        } else if node.Room() == selected.Room() {
          if StrLess(node.hostname, selected.hostname) {
            selected := node;
          }
        }
      }
    }
    assert available[..|available|] == available;
  }

  function Get(groups: map<int, seq<NodeInfo>>, c: int): seq<NodeInfo> {
    if c in groups then groups[c] else []
  }

  ghost predicate GroupsOf(groups: map<int, seq<NodeInfo>>, nodes: seq<NodeInfo>) {
    forall c {:trigger AtLevel(nodes, c)} :: Get(groups, c) == AtLevel(nodes, c)
  }

  lemma GroupsStep(groups: map<int, seq<NodeInfo>>, nodes: seq<NodeInfo>, n: NodeInfo)
    requires GroupsOf(groups, nodes)
    ensures GroupsOf(groups[n.count := Get(groups, n.count) + [n]], nodes + [n])
  {
    var groups' := groups[n.count := Get(groups, n.count) + [n]];
    forall c ensures Get(groups', c) == AtLevel(nodes + [n], c) {
      LevelOfSnoc(nodes, n, c, nodes + [n]);
      assert Get(groups, c) == AtLevel(nodes, c);
    }
  }

  ghost predicate KeysOf(keys: seq<int>, groups: map<int, seq<NodeInfo>>) {
    && (forall i, j :: 0 <= i < j < |keys| ==> keys[i] != keys[j])
    && (forall c :: c in keys <==> c in groups)
  }

  lemma KeysStep(keys: seq<int>, groups: map<int, seq<NodeInfo>>, c: int, level: seq<NodeInfo>)
    requires KeysOf(keys, groups)
    ensures KeysOf(if c in groups then keys else keys + [c], groups[c := level])
  {
    var keys' := if c in groups then keys else keys + [c];
    forall x ensures x in keys' <==> x in groups[c := level] {
      assert x in keys <==> x in groups;
    }
    forall i | 0 <= i < |keys| ensures c !in groups ==> keys[i] != c {
      assert keys[i] in keys;
    }
  }

  lemma GroupOneMore(groups: map<int, seq<NodeInfo>>, keys: seq<int>, seen: seq<NodeInfo>, n: NodeInfo,
                     level: seq<NodeInfo>, groups': map<int, seq<NodeInfo>>, keys': seq<int>)
    requires GroupsOf(groups, seen) && KeysOf(keys, groups)
    requires level == Get(groups, n.count) + [n] && groups' == groups[n.count := level]
    requires keys' == if n.count in groups then keys else keys + [n.count]
    ensures GroupsOf(groups', seen + [n]) && KeysOf(keys', groups')
  {
    GroupsStep(groups, seen, n);
    KeysStep(keys, groups, n.count, level);
  }

  /** The dict of groups, and its keys in the order they were first seen. */
  method GroupByCount(available: seq<NodeInfo>) returns (groups: map<int, seq<NodeInfo>>, keys: seq<int>)
    ensures GroupsOf(groups, available) && KeysOf(keys, groups)
  {
    groups, keys := map[], [];
    for i := 0 to |available|
      invariant GroupsOf(groups, available[..i]) && KeysOf(keys, groups)
    {
      var node := available[i];
      var level := Get(groups, node.count) + [node];
      var keys' := if node.count in groups then keys else keys + [node.count];
      GroupOneMore(groups, keys, available[..i], node, level, groups[node.count := level], keys');
      assert available[..i + 1] == available[..i] + [node];
      keys, groups := keys', groups[node.count := level];
    }
    assert available[..|available|] == available;
  }

  ghost predicate Ascending(s: seq<int>) {
    forall i, j :: 0 <= i < j < |s| ==> s[i] < s[j]
  }

  function InsertKey(c: int, s: seq<int>): (r: seq<int>)
    ensures multiset(r) == multiset(s) + multiset{c}
  {
    if s != [] && s[0] <= c then
      assert s == [s[0]] + s[1..];
      [s[0]] + InsertKey(c, s[1..])
    else [c] + s
  }

  lemma InsertKeyMembers(c: int, s: seq<int>, x: int)
    ensures x in InsertKey(c, s) <==> x == c || x in s
  {
    assert x in InsertKey(c, s) <==> x in multiset(s) + multiset{c};
  }

  lemma {:induction false} InsertKeyAscending(c: int, s: seq<int>)
    requires Ascending(s) && c !in s
    ensures Ascending(InsertKey(c, s))
  {
    if s != [] && s[0] <= c {
      var r := InsertKey(c, s[1..]);
      InsertKeyAscending(c, s[1..]);
      forall i | 0 <= i < |r| ensures s[0] < r[i] {
        assert r[i] in r;
        InsertKeyMembers(c, s[1..], r[i]);
      }
    }
  }

  method SortedKeys(keys: seq<int>) returns (r: seq<int>)
    requires forall i, j :: 0 <= i < j < |keys| ==> keys[i] != keys[j]
    ensures Ascending(r) && forall c :: c in r <==> c in keys
  {
    r := [];
    for i := 0 to |keys|
      invariant Ascending(r) && forall c :: c in r <==> c in keys[..i]
    {
      assert keys[..i + 1] == keys[..i] + [keys[i]];
      InsertKeyAscending(keys[i], r);
      forall c ensures c in InsertKey(keys[i], r) <==> c in keys[..i + 1] {
        InsertKeyMembers(keys[i], r, c);
      }
      r := InsertKey(keys[i], r);
    }
    assert keys[..|keys|] == keys;
  }

  lemma {:induction false} LevelUses(s: seq<NodeInfo>, c: int, n: NodeInfo)
    ensures Uses(AtLevel(s, c), n) == if n.count == c then Uses(s, n) else 0
  {
    if s != [] {
      Snoc(s);
      LevelUses(s[..|s| - 1], c, n);
    }
  }

  /** `done` is the sorted part of the ranking with counts among `levels`. */
  ghost predicate Covers(done: seq<NodeInfo>, available: seq<NodeInfo>, levels: seq<int>) {
    && Sorted(LeastLoad, done)
    && forall n :: Uses(done, n) == if n.count in levels then Uses(available, n) else 0
  }

  lemma CoversNextLevel(done: seq<NodeInfo>, available: seq<NodeInfo>, levels: seq<int>, c: int)
    requires DistinctNames(available) && Covers(done, available, levels) && Below(levels, c)
    ensures Covers(done + SortBy(LeastLoad, AtLevel(available, c)), available, levels + [c])
  {
    var level := AtLevel(available, c);
    var sorted := SortBy(LeastLoad, level);
    LevelDistinct(available, c);
    SortBySorted(LeastLoad, level);
    forall n ensures Uses(sorted, n) == if n.count == c then Uses(available, n) else 0 {
      LevelUses(available, c, n);
    }
    CoversAppend(done, available, levels, c, sorted);
  }

  lemma CoversAppend(done: seq<NodeInfo>, available: seq<NodeInfo>, levels: seq<int>, c: int, sorted: seq<NodeInfo>)
    requires Covers(done, available, levels) && Below(levels, c) && Sorted(LeastLoad, sorted)
    requires forall n :: Uses(sorted, n) == if n.count == c then Uses(available, n) else 0
    ensures Covers(done + sorted, available, levels + [c])
  {
    forall n ensures Uses(done + sorted, n) == if n.count in levels + [c] then Uses(available, n) else 0 {
      assert Uses(done + sorted, n) == Uses(done, n) + Uses(sorted, n);
    }
    forall i, j | 0 <= i < |done| && 0 <= j < |sorted| ensures Before(LeastLoad, done[i], sorted[j]) {
      assert Uses(done, done[i]) > 0 && Uses(sorted, sorted[j]) > 0;
      assert done[i].count in levels;
    }
    SortedAppend(done, sorted);
  }

  lemma SortedAppend(s: seq<NodeInfo>, t: seq<NodeInfo>)
    requires Sorted(LeastLoad, s) && Sorted(LeastLoad, t)
    requires forall i, j :: 0 <= i < |s| && 0 <= j < |t| ==> Before(LeastLoad, s[i], t[j])
    ensures Sorted(LeastLoad, s + t)
  {
  }

  lemma {:induction false} LevelDistinct(s: seq<NodeInfo>, c: int)
    requires DistinctNames(s)
    ensures DistinctNames(AtLevel(s, c))
  {
    if s != [] {
      var o, n := s[..|s| - 1], s[|s| - 1];
      LevelDistinct(o, c);
      forall m | m in AtLevel(o, c) ensures m.hostname != n.hostname { AtLevelMembers(o, c, m); }
    }
  }

  lemma CoversAll(done: seq<NodeInfo>, nodes: seq<NodeInfo>, levels: seq<int>)
    requires DistinctNames(nodes) && Covers(done, Available(nodes), levels)
    requires forall n <- Available(nodes) :: n.count in levels
    ensures done == Ranking(LeastLoad, nodes)
  {
    var available := Available(nodes);
    AvailableDistinct(nodes);
    SortBySorted(LeastLoad, available);
    assert multiset(done) == multiset(available) by {
      forall n ensures multiset(done)[n] == multiset(available)[n] {
        assert Uses(done, n) == if n.count in levels then Uses(available, n) else 0;
      }
    }
    SortedUnique(LeastLoad, done, SortBy(LeastLoad, available));
  }

  /** The result list with the hosts placed so far, and None for the others. */
  ghost predicate Holds(result: seq<Option<NodeInfo>>, placed: seq<NodeInfo>, k: nat) {
    && |placed| <= |result| == k
    && (forall i :: 0 <= i < |placed| ==> result[i] == Some(placed[i]))
    && (forall i :: |placed| <= i < k ==> result[i] == None)
  }

  /** The innermost loop: one node taken `times` times. */
  method AssignNode(result0: seq<Option<NodeInfo>>, ghost placed: seq<NodeInfo>, hostIndex0: nat,
                    node: NodeInfo, times: nat)
    returns (result: seq<Option<NodeInfo>>, hostIndex: nat)
    requires Holds(result0, placed, |result0|) && hostIndex0 == |placed| && hostIndex0 + times <= |result0|
    ensures Holds(result, placed + Repeat(node, times), |result0|) && hostIndex == hostIndex0 + times
  {
    result, hostIndex := result0, hostIndex0;
    for t := 0 to times
      invariant hostIndex == hostIndex0 + t
      invariant Holds(result, placed + Repeat(node, t), |result0|)
    {
      result := result[hostIndex := Some(node)];
      hostIndex := hostIndex + 1;
    }
  }

  lemma PourStep(cur: seq<NodeInfo>, n: NodeInfo, k: nat, t: nat)
    requires AllHaveRoom(cur) && n.HasRoom() && t == Share(n, k - |Fill(cur, k)|)
    ensures Fill(cur + [n], k) == Fill(cur, k) + Repeat(n, t)
  {
    FillLength(cur, k);
    FillSnoc(cur, n, k);
    assert t == Share(n, k - TotalRoom(cur));
  }

  /** What the level still has room for, cut off at the hosts still to place. */
  lemma ShareOfLevel(level: seq<NodeInfo>, i: nat, left: nat, rest: int, rest': int)
    requires AllHaveRoom(level) && i < |level|
    requires rest == TotalRoom(level) - TotalRoom(level[..i])
    requires rest' == TotalRoom(level) - TotalRoom(level[..i + 1])
    ensures rest' == rest - level[i].Room() && rest' >= 0
    ensures Share(level[i], left) == Min(level[i].Room(), Min(rest, left))
    ensures Min(rest, left) - Share(level[i], left) == Min(rest', left - Share(level[i], left))
  {
    TotalRoomTake(level, i);
    var whole := level[..|level|];
    assert whole == level;
    TotalRoomPrefix(level, i + 1, |level|);
  }

  /** One round of the loop over load levels. */
  method FillLevel(level: seq<NodeInfo>, result0: seq<Option<NodeInfo>>, hostIndex0: nat, hostCount: nat,
                   ghost done: seq<NodeInfo>)
    returns (result: seq<Option<NodeInfo>>, hostIndex: nat)
    requires AllHaveRoom(level) && AllHaveRoom(done)
    requires Holds(result0, Fill(done, hostCount), hostCount) && hostIndex0 == |Fill(done, hostCount)|
    ensures Holds(result, Fill(done + level, hostCount), hostCount)
    ensures hostIndex == |Fill(done + level, hostCount)|
  {
    result, hostIndex := result0, hostIndex0;
    var remainingInLevel := Min(TotalRoom(level), hostCount - hostIndex);
    var nodeIndex := 0;
    ghost var cur, rest := done, TotalRoom(level);
    assert level[..0] == [];
    while remainingInLevel > 0 && nodeIndex < |level|
      invariant InLevel(done, level, nodeIndex, hostCount, cur, rest)
      invariant Holds(result, Fill(cur, hostCount), hostCount) && hostIndex == |Fill(cur, hostCount)|
      invariant remainingInLevel == Min(rest, hostCount - hostIndex)
    {
      var node := level[nodeIndex];
      var assignments := Min(node.Room(), remainingInLevel);
      ghost var next := InLevelStep(done, level, nodeIndex, hostCount, cur, rest, assignments);
      result, hostIndex := AssignNode(result, Fill(cur, hostCount), hostIndex, node, assignments);
      remainingInLevel := remainingInLevel - assignments;
      nodeIndex := nodeIndex + 1;
      cur, rest := next, rest - node.Room();
    }
    RestOfLevel(done, cur, level, nodeIndex, hostCount);
  }

  /** `cur` is what has been filled before the i-th node of the level, `rest` the room from there on. */
  ghost predicate InLevel(done: seq<NodeInfo>, level: seq<NodeInfo>, i: nat, k: nat, cur: seq<NodeInfo>, rest: int) {
    && i <= |level| && cur == done + level[..i] && AllHaveRoom(cur)
    && rest == TotalRoom(level) - TotalRoom(level[..i])
  }

  lemma InLevelStep(done: seq<NodeInfo>, level: seq<NodeInfo>, i: nat, k: nat, cur: seq<NodeInfo>, rest: int, t: nat)
    returns (next: seq<NodeInfo>)
    requires AllHaveRoom(level) && InLevel(done, level, i, k, cur, rest) && i < |level|
    requires |Fill(cur, k)| <= k && t == Min(level[i].Room(), Min(rest, k - |Fill(cur, k)|))
    ensures InLevel(done, level, i + 1, k, next, rest - level[i].Room())
    ensures Fill(next, k) == Fill(cur, k) + Repeat(level[i], t)
    ensures Min(rest, k - |Fill(cur, k)|) - t == Min(rest - level[i].Room(), k - (|Fill(cur, k)| + t))
  {
    ShareOfLevel(level, i, k - |Fill(cur, k)|, rest, TotalRoom(level) - TotalRoom(level[..i + 1]));
    next := NextCur(done, cur, level, i);
    PourStep(cur, level[i], k, t);
  }

  lemma NextCur(done: seq<NodeInfo>, cur: seq<NodeInfo>, level: seq<NodeInfo>, i: nat) returns (next: seq<NodeInfo>)
    requires i < |level| && cur == done + level[..i] && AllHaveRoom(cur) && AllHaveRoom(level)
    ensures next == cur + [level[i]] == done + level[..i + 1] && AllHaveRoom(next)
  {
    next := cur + [level[i]];
    assert level[..i + 1] == level[..i] + [level[i]];
  }

  /** The level loop ends when the level is used up or every host is placed. */
  lemma RestOfLevel(done: seq<NodeInfo>, cur: seq<NodeInfo>, level: seq<NodeInfo>, i: nat, k: nat)
    requires AllHaveRoom(level) && AllHaveRoom(cur) && i <= |level| && cur == done + level[..i]
    requires i == |level| || Min(TotalRoom(level) - TotalRoom(level[..i]), k - |Fill(cur, k)|) <= 0
    ensures Fill(done + level, k) == Fill(cur, k)
  {
    assert level[..|level|] == level;
    if i < |level| {
      TotalRoomPrefix(level, i, |level|);
      assert done + level == cur + level[i..];
      FillDoneAppend(cur, level[i..], k);
    }
  }

  lemma FillDoneAppend(done: seq<NodeInfo>, rest: seq<NodeInfo>, k: nat)
    requires AllHaveRoom(done) && AllHaveRoom(rest) && |Fill(done, k)| >= k
    ensures Fill(done + rest, k) == Fill(done, k)
  {
    FillLength(done, k);
    assert (done + rest)[..|done|] == done;
    FillDone(done + rest, k, |done|);
  }

  function LevelAt(nodes: seq<NodeInfo>, c: int): seq<NodeInfo> {
    SortBy(LeastLoad, AtLevel(Available(nodes), c))
  }

  ghost predicate Below(levels: seq<int>, c: int) {
    forall i :: 0 <= i < |levels| ==> levels[i] < c
  }

  lemma NextLevel(done: seq<NodeInfo>, nodes: seq<NodeInfo>, keys: seq<int>, l: nat)
    requires DistinctNames(nodes) && l < |keys| && Covers(done, Available(nodes), keys[..l])
    requires Ascending(keys)
    ensures Covers(done + LevelAt(nodes, keys[l]), Available(nodes), keys[..l + 1])
    ensures AllHaveRoom(LevelAt(nodes, keys[l]))
  {
    LevelHasRoom(nodes, keys[l]);
    AvailableDistinct(nodes);
    BelowNext(keys, l);
    CoversNextLevel(done, Available(nodes), keys[..l], keys[l]);
  }

  lemma BelowNext(keys: seq<int>, l: nat)
    requires Ascending(keys) && l < |keys|
    ensures Below(keys[..l], keys[l]) && keys[..l + 1] == keys[..l] + [keys[l]]
  {
  }

  /** The levels after a break complete the ranking. */
  lemma {:induction false} RestOfRanking(done: seq<NodeInfo>, nodes: seq<NodeInfo>, keys: seq<int>, l: nat)
    returns (rest: seq<NodeInfo>)
    requires DistinctNames(nodes) && l <= |keys| && Covers(done, Available(nodes), keys[..l])
    requires Ascending(keys)
    requires forall n <- Available(nodes) :: n.count in keys
    ensures done + rest == Ranking(LeastLoad, nodes)
    ensures l == |keys| ==> rest == []
    decreases |keys| - l
  {
    rest := [];
    if l == |keys| {
      assert keys[..l] == keys && done + rest == done;
      CoversAll(done, nodes, keys);
    } else {
      NextLevel(done, nodes, keys, l);
      var level := LevelAt(nodes, keys[l]);
      var more := RestOfRanking(done + level, nodes, keys, l + 1);
      rest := level + more;
      Associative(done, level, more);
    }
  }

  lemma Associative(a: seq<NodeInfo>, b: seq<NodeInfo>, c: seq<NodeInfo>)
    ensures a + (b + c) == (a + b) + c
  {
  }

  lemma FillIsWhole(done: seq<NodeInfo>, rest: seq<NodeInfo>, nodes: seq<NodeInfo>, k: nat)
    requires DistinctNames(nodes) && k <= TotalRoom(nodes) && AllHaveRoom(done)
    requires done + rest == Ranking(LeastLoad, nodes)
    requires rest == [] || |Fill(done, k)| >= k
    ensures Fill(done, k) == Placed(LeastLoad, nodes, k) && |Placed(LeastLoad, nodes, k)| == k
  {
    RankingOk(LeastLoad, nodes);
    FillLength(Ranking(LeastLoad, nodes), k);
    if rest == [] {
      assert done + rest == done;
    } else {
      forall i | 0 <= i < |rest| ensures rest[i].HasRoom() { assert (done + rest)[|done| + i] == rest[i]; }
      FillDoneAppend(done, rest, k);
    }
  }

  method LeastLoadBatch(nodes: seq<NodeInfo>, hosts: seq<Host>)
    returns (r: Option<seq<Option<NodeInfo>>>)
    requires DistinctNames(nodes)
    ensures r.None? <==> hosts != [] && TotalRoom(nodes) < |hosts|
    ensures r.Some? ==> r.value == Somes(Placed(LeastLoad, nodes, |hosts|)) && |r.value| == |hosts|
  {
    var hostCount := |hosts|;
    if hosts == [] {
      PlacedWithinRoom(LeastLoad, nodes, 0);
      return Some([]);
    }
    if TotalRoom(nodes) < hostCount {
      return None;
    }
    var groups, keys := LevelsOf(nodes);
    var result: seq<Option<NodeInfo>> := seq(hostCount, _ => None);
    var hostIndex: nat := 0;
    ghost var done: seq<NodeInfo> := [];
    var l := 0;
    while l < |keys|
      invariant 0 <= l <= |keys|
      invariant Covers(done, Available(nodes), keys[..l]) && AllHaveRoom(done)
      invariant Holds(result, Fill(done, hostCount), hostCount) && hostIndex == |Fill(done, hostCount)|
    {
      if hostIndex >= hostCount {
        break;
      }
      NextLevel(done, nodes, keys, l);
      var level := groups[keys[l]];
      result, hostIndex := FillLevel(level, result, hostIndex, hostCount, done);
      done := done + level;
      l := l + 1;
    }
    ghost var rest := RestOfRanking(done, nodes, keys, l);
    FillIsWhole(done, rest, nodes, hostCount);
    return Some(result);
  }

  /** The nodes with room grouped by count, and the counts in ascending order. */
  method GroupsOfAvailable(nodes: seq<NodeInfo>) returns (groups: map<int, seq<NodeInfo>>, keys: seq<int>)
    ensures Ascending(keys) && forall c :: c in keys <==> c in groups
    ensures forall n :: n in nodes && n.HasRoom() ==> n.count in keys
    ensures forall c :: c in groups ==> groups[c] == AtLevel(Available(nodes), c)
  {
    var available := Available(nodes);
    var seen;
    groups, seen := GroupByCount(available);
    keys := SortedKeys(seen);
    forall c | c in groups ensures groups[c] == AtLevel(available, c) {
      assert Get(groups, c) == AtLevel(available, c);
    }
    forall n | n in nodes && n.HasRoom() ensures n.count in keys {
      AvailableMembers(nodes, n);
      AtLevelMembers(available, n.count, n);
      assert Get(groups, n.count) == AtLevel(available, n.count);
    }
  }

  /** The same with each group sorted. */
  method LevelsOf(nodes: seq<NodeInfo>) returns (groups: map<int, seq<NodeInfo>>, keys: seq<int>)
    ensures Ascending(keys)
    ensures forall n <- Available(nodes) :: n.count in keys
    ensures forall i :: 0 <= i < |keys| ==> keys[i] in groups && groups[keys[i]] == LevelAt(nodes, keys[i])
  {
    var unsorted;
    unsorted, keys := GroupsOfAvailable(nodes);
    groups := map c | c in unsorted :: SortBy(LeastLoad, unsorted[c]);
    forall n | n in Available(nodes) ensures n.count in keys {
      AvailableMembers(nodes, n);
    }
    forall j | 0 <= j < |keys| ensures keys[j] in groups && groups[keys[j]] == LevelAt(nodes, keys[j]) {
      assert keys[j] in keys;
    }
  }

  lemma LevelHasRoom(nodes: seq<NodeInfo>, c: int)
    ensures AllHaveRoom(LevelAt(nodes, c))
  {
    forall n | n in LevelAt(nodes, c) ensures n.HasRoom() {
      assert n in multiset(LevelAt(nodes, c));
      AtLevelMembers(Available(nodes), c, n);
      AvailableMembers(nodes, n);
    }
  }

  /** The batch of one host and the single choice agree. */
  lemma BatchAgreesWithSingle(nodes: seq<NodeInfo>, single: NodeInfo)
    requires DistinctNames(nodes) && IsBest(LeastLoad, nodes, single)
    ensures Somes(Placed(LeastLoad, nodes, 1)) == [Some(single)]
  {
    BatchOfOneIsBest(LeastLoad, nodes, single);
  }

  // ---------------------------------------------------------------- greedy

  method GreedyBatch(nodes: seq<NodeInfo>, hosts: seq<Host>) returns (r: Option<seq<NodeInfo>>)
    requires DistinctNames(nodes)
    ensures r.None? <==> hosts != [] && TotalRoom(nodes) < |hosts|
    ensures r.Some? ==> r.value == Placed(Greedy, nodes, |hosts|) && |r.value| == |hosts|
  {
    var hostCount := |hosts|;
    if hostCount == 0 {
      PlacedWithinRoom(Greedy, nodes, 0);
      return Some([]);
    }
    if TotalRoom(nodes) < hostCount {
      return None;
    }
    var available := SortBy(Greedy, Available(nodes));
    RankingOk(Greedy, nodes);
    FillLength(available, hostCount);

    var result: seq<NodeInfo> := [];
    var remaining: int := hostCount;
    ghost var cur: seq<NodeInfo> := [];
    var i := 0;
    while i < |available|
      invariant 0 <= i <= |available| && cur == available[..i] && AllHaveRoom(cur)
      invariant result == Fill(cur, hostCount) && remaining == hostCount - |result| >= 0
    {
      if remaining <= 0 {
        break;
      }
      var node := available[i];
      var assign := Min(node.Room(), remaining);
      cur := GreedyStep(cur, available, i, hostCount, result, assign);
      result := result + Repeat(node, assign);
      remaining := remaining - assign;
      i := i + 1;
    }
    Leftover(cur, available, i, hostCount);
    return Some(result);
  }

  lemma GreedyStep(cur: seq<NodeInfo>, order: seq<NodeInfo>, i: nat, k: nat, result: seq<NodeInfo>, t: nat)
    returns (next: seq<NodeInfo>)
    requires i < |order| && AllHaveRoom(order) && AllHaveRoom(cur) && cur == order[..i]
    requires result == Fill(cur, k) && |result| < k && t == Min(order[i].Room(), k - |result|)
    ensures next == order[..i + 1] && AllHaveRoom(next) && Fill(next, k) == result + Repeat(order[i], t)
  {
    next := NextPrefix(cur, order, i);
    PourStep(cur, order[i], k, t);
  }

  lemma NextPrefix(cur: seq<NodeInfo>, order: seq<NodeInfo>, i: nat) returns (next: seq<NodeInfo>)
    requires i < |order| && cur == order[..i] && AllHaveRoom(order)
    ensures next == cur + [order[i]] == order[..i + 1] && AllHaveRoom(next)
  {
    next := cur + [order[i]];
    assert order[..i + 1] == order[..i] + [order[i]];
  }

  lemma Leftover(cur: seq<NodeInfo>, order: seq<NodeInfo>, i: nat, k: nat)
    requires i <= |order| && AllHaveRoom(order) && cur == order[..i]
    requires i == |order| || |Fill(cur, k)| >= k
    ensures Fill(order, k) == Fill(cur, k)
  {
    if i == |order| {
      assert order[..i] == order;
    } else {
      FillLength(cur, k);
      FillDone(order, k, i);
    }
  }

  /** Greedy leaves at most one used node with room to spare, and it is the least preferred used node. */
  lemma GreedySaturates(nodes: seq<NodeInfo>, k: nat, n: NodeInfo, m: NodeInfo)
    requires DistinctNames(nodes) && n != m
    requires n in Placed(Greedy, nodes, k) && m in Placed(Greedy, nodes, k)
    requires Uses(Placed(Greedy, nodes, k), n) < n.Room()
    ensures Uses(Placed(Greedy, nodes, k), m) == m.Room() && Before(Greedy, m, n)
  {
    PlacedWithinRoom(Greedy, nodes, k);
    DistinctHostnames(nodes, n, m);
    BeforeTotal(Greedy, n, m);
    if Before(Greedy, n, m) {
      PreferredNodesAreFull(Greedy, nodes, k, m, n);
    } else {
      PreferredNodesAreFull(Greedy, nodes, k, n, m);
    }
  }

  lemma DistinctHostnames(nodes: seq<NodeInfo>, n: NodeInfo, m: NodeInfo)
    requires DistinctNames(nodes) && n in nodes && m in nodes && n != m
    ensures n.hostname != m.hostname
  {
    var i :| 0 <= i < |nodes| && nodes[i] == n;
    var j :| 0 <= j < |nodes| && nodes[j] == m;
    assert if i < j then nodes[i].hostname != nodes[j].hostname else nodes[j].hostname != nodes[i].hostname;
  }
}
