/** What the deterministic schedulers promise: hosts are poured into the nodes that have room, node after
    node, in the order of a policy. `Fill` is that idea on its own; its properties hold for both policies. */
module Placement {
  import opened Types

  // ---------------------------------------------------------------- orders

  /** Python's order on strings. */
  predicate StrLess(a: string, b: string) {
    if a == [] then b != []
    else b != [] && (a[0] < b[0] || (a[0] == b[0] && StrLess(a[1..], b[1..])))
  }

  /** The first difference decides, and a proper beginning is less. */
  ghost predicate DiffersAt(a: string, b: string, i: nat) {
    i < |a| && i < |b| && a[..i] == b[..i] && a[i] < b[i]
  }

  lemma {:induction false} StrLessExactly(a: string, b: string)
    ensures StrLess(a, b) <==> a < b || exists i: nat :: DiffersAt(a, b, i)
  {
    if a != [] && b != [] {
      var a', b' := a[1..], b[1..];
      StrLessExactly(a', b');
      if a[0] < b[0] {
        assert DiffersAt(a, b, 0);
      } else if a[0] == b[0] {
        assert a < b <==> a' < b' by { assert a == [a[0]] + a' && b == [b[0]] + b'; }
        StrLessTail(a, b);
      } else {
        forall i: nat ensures !DiffersAt(a, b, i) {
          assert i > 0 && i < |a| && i < |b| ==> a[..i][0] != b[..i][0];
        }
      }
    }
  }

  lemma StrLessTail(a: string, b: string)
    requires a != [] && b != [] && a[0] == b[0]
    ensures (exists i: nat :: DiffersAt(a, b, i)) <==> (exists i: nat :: DiffersAt(a[1..], b[1..], i))
  {
    forall i: nat | i < |a| - 1 && i < |b| - 1 ensures DiffersAt(a, b, i + 1) <==> DiffersAt(a[1..], b[1..], i) {
      assert a[..i + 1] == [a[0]] + a[1..][..i] && b[..i + 1] == [b[0]] + b[1..][..i];
      assert a[1..][..i] == a[..i + 1][1..] && b[1..][..i] == b[..i + 1][1..];
    }
    if i: nat :| DiffersAt(a, b, i) {
      assert DiffersAt(a[1..], b[1..], i - 1);
    }
    if i: nat :| DiffersAt(a[1..], b[1..], i) {
      assert DiffersAt(a, b, i + 1);
    }
  }

  datatype Policy = LeastLoad | Greedy

  /** n is strictly preferred to m: by count (least first, or most first for Greedy), then by more room,
      then by hostname. */
  predicate Before(p: Policy, n: NodeInfo, m: NodeInfo) {
    if n.count != m.count then (if p.LeastLoad? then n.count < m.count else m.count < n.count)
    else if n.Room() != m.Room() then n.Room() > m.Room()
    else StrLess(n.hostname, m.hostname)
  }

  lemma {:induction false} StrLessTransitive(a: string, b: string, c: string)
    requires StrLess(a, b) && StrLess(b, c)
    ensures StrLess(a, c)
  {
    if a != [] && a[0] == b[0] == c[0] {
      StrLessTransitive(a[1..], b[1..], c[1..]);
    }
  }

  lemma {:induction false} StrLessTotal(a: string, b: string)
    ensures a == b || StrLess(a, b) || StrLess(b, a)
    ensures StrLess(a, b) ==> !StrLess(b, a) && a != b
  {
    if a != [] && b != [] && a[0] == b[0] {
      assert a == [a[0]] + a[1..] && b == [b[0]] + b[1..];
      StrLessTotal(a[1..], b[1..]);
    }
  }

  lemma BeforeTransitive(p: Policy, a: NodeInfo, b: NodeInfo, c: NodeInfo)
    requires Before(p, a, b) && Before(p, b, c)
    ensures Before(p, a, c)
  {
    if StrLess(a.hostname, b.hostname) && StrLess(b.hostname, c.hostname) {
      StrLessTransitive(a.hostname, b.hostname, c.hostname);
    }
  }

  lemma BeforeTotal(p: Policy, a: NodeInfo, b: NodeInfo)
    ensures a.hostname != b.hostname ==> Before(p, a, b) || Before(p, b, a)
    ensures Before(p, a, b) ==> !Before(p, b, a)
  {
    StrLessTotal(a.hostname, b.hostname);
  }

  // ---------------------------------------------------------------- nodes in order

  ghost predicate DistinctNames(s: seq<NodeInfo>) {
    forall i, j :: 0 <= i < j < |s| ==> s[i].hostname != s[j].hostname
  }

  ghost predicate Sorted(p: Policy, s: seq<NodeInfo>) {
    forall i, j :: 0 <= i < j < |s| ==> Before(p, s[i], s[j])
  }

  function Available(nodes: seq<NodeInfo>): seq<NodeInfo> {
    if nodes == [] then []
    else
      var last := nodes[|nodes| - 1];
      Available(nodes[..|nodes| - 1]) + (if last.HasRoom() then [last] else [])
  }

  lemma {:induction false} AvailableMembers(nodes: seq<NodeInfo>, n: NodeInfo)
    ensures n in Available(nodes) <==> n in nodes && n.HasRoom()
  {
    if nodes != [] {
      AvailableMembers(nodes[..|nodes| - 1], n);
    }
  }

  function TotalRoom(nodes: seq<NodeInfo>): int {
    if nodes == [] then 0 else TotalRoom(nodes[..|nodes| - 1]) + nodes[|nodes| - 1].Room()
  }

  /** The capacities less the counts, over-full nodes counting against the rest. */
  lemma {:induction false} TotalRoomAdds(s: seq<NodeInfo>, t: seq<NodeInfo>, n: NodeInfo)
    ensures TotalRoom([]) == 0 && TotalRoom([n]) == n.capacity - n.count
    ensures TotalRoom(s + t) == TotalRoom(s) + TotalRoom(t)
  {
    assert [n][..0] == [];
    if t == [] {
      assert s + t == s;
    } else {
      assert (s + t)[..|s + t| - 1] == s + t[..|t| - 1];
      TotalRoomAdds(s, t[..|t| - 1], n);
    }
  }

  function InsertBy(p: Policy, n: NodeInfo, s: seq<NodeInfo>): (r: seq<NodeInfo>)
    ensures multiset(r) == multiset(s) + multiset{n}
  {
    if s == [] then [n]
    else if Before(p, s[0], n) then
      assert s == [s[0]] + s[1..];
      [s[0]] + InsertBy(p, n, s[1..])
    else [n] + s
  }

  /** `list.sort` with the policy's key. */
  function SortBy(p: Policy, s: seq<NodeInfo>): (r: seq<NodeInfo>)
    ensures multiset(r) == multiset(s)
  {
    if s == [] then []
    else
      assert s == s[..|s| - 1] + [s[|s| - 1]];
      InsertBy(p, s[|s| - 1], SortBy(p, s[..|s| - 1]))
  }

  lemma {:induction false} InsertBySorted(p: Policy, n: NodeInfo, s: seq<NodeInfo>)
    requires Sorted(p, s) && forall m <- s :: m.hostname != n.hostname
    ensures Sorted(p, InsertBy(p, n, s))
  {
    if s != [] {
      BeforeTotal(p, n, s[0]);
      if Before(p, s[0], n) {
        InsertBySorted(p, n, s[1..]);
        var r := InsertBy(p, n, s[1..]);
        forall j | 0 <= j < |r| ensures Before(p, s[0], r[j]) {
          assert r[j] in multiset(s[1..]) + multiset{n} by { assert r[j] in multiset(r); }
          if r[j] != n {
            assert r[j] in s[1..];
          }
        }
      } else {
        forall j | 0 <= j < |s| ensures Before(p, n, s[j]) {
          if j > 0 { BeforeTransitive(p, n, s[0], s[j]); }
        }
      }
    }
  }

  lemma {:induction false} SortBySorted(p: Policy, s: seq<NodeInfo>)
    requires DistinctNames(s)
    ensures Sorted(p, SortBy(p, s))
  {
    if s != [] {
      var init := s[..|s| - 1];
      SortBySorted(p, init);
      forall m | m in SortBy(p, init) ensures m.hostname != s[|s| - 1].hostname {
        assert m in multiset(SortBy(p, init));
        assert m in init;
      }
      InsertBySorted(p, s[|s| - 1], SortBy(p, init));
    }
  }

  lemma TailMultiset(s: seq<NodeInfo>, n: NodeInfo, s': seq<NodeInfo>)
    requires s != [] && s[0] == n && s[1..] == s'
    ensures multiset(s') == multiset(s) - multiset{n} && s == [n] + s'
  {
    assert s == [n] + s';
  }

  lemma SameFirst(p: Policy, s: seq<NodeInfo>, t: seq<NodeInfo>)
    requires Sorted(p, s) && Sorted(p, t) && multiset(s) == multiset(t) && s != [] && t != []
    ensures s[0] == t[0]
  {
    assert s[0] in multiset(t) && t[0] in multiset(s);
    var i :| 0 <= i < |t| && t[i] == s[0];
    var j :| 0 <= j < |s| && s[j] == t[0];
    BeforeTotal(p, s[0], t[0]);
  }

  /** There is only one way to sort. */
  lemma {:induction false} SortedUnique(p: Policy, s: seq<NodeInfo>, t: seq<NodeInfo>)
    requires Sorted(p, s) && Sorted(p, t) && multiset(s) == multiset(t)
    ensures s == t
  {
    assert |s| == |multiset(s)| == |multiset(t)| == |t|;
    if s != [] {
      SameFirst(p, s, t);
      var s', t' := s[1..], t[1..];
      TailMultiset(s, s[0], s');
      TailMultiset(t, t[0], t');
      SortedUnique(p, s', t');
    }
  }

  /** The nodes with room, in the policy's order. */
  function Ranking(p: Policy, nodes: seq<NodeInfo>): seq<NodeInfo> {
    SortBy(p, Available(nodes))
  }

  // ---------------------------------------------------------------- filling

  function Repeat(n: NodeInfo, k: nat): (r: seq<NodeInfo>)
    ensures |r| == k && forall i :: 0 <= i < k ==> r[i] == n
  {
    seq(k, _ => n)
  }

  /** How many of the hosts left node n takes. */
  function Share(n: NodeInfo, left: int): nat {
    if n.Room() <= 0 || left <= 0 then 0 else Min(n.Room(), left)
  }

  /** Up to k hosts poured into the nodes of `order` one after the other: each node takes what the room
      of the nodes before it leaves over. */
  function Fill(order: seq<NodeInfo>, k: nat): seq<NodeInfo> {
    if order == [] then []
    else
      var o, n := order[..|order| - 1], order[|order| - 1];
      Fill(o, k) + Repeat(n, Share(n, k - TotalRoom(o)))
  }

  function Uses(r: seq<NodeInfo>, n: NodeInfo): nat { multiset(r)[n] }

  ghost predicate Distinct(s: seq<NodeInfo>) {
    forall i, j :: 0 <= i < j < |s| ==> s[i] != s[j]
  }

  ghost predicate AllHaveRoom(order: seq<NodeInfo>) {
    forall i :: 0 <= i < |order| ==> order[i].HasRoom()
  }

  lemma Snoc(order: seq<NodeInfo>)
    requires order != []
    ensures order == order[..|order| - 1] + [order[|order| - 1]]
  {
  }

  lemma RepeatUses(n: NodeInfo, k: nat, m: NodeInfo)
    ensures Uses(Repeat(n, k), m) == if m == n then k else 0
    decreases k
  {
    if k > 0 {
      assert Repeat(n, k) == Repeat(n, k - 1) + [n];
      RepeatUses(n, k - 1, m);
    }
  }

  lemma {:induction false} TotalRoomPrefix(order: seq<NodeInfo>, i: nat, j: nat)
    requires AllHaveRoom(order) && i <= j <= |order|
    ensures 0 <= TotalRoom(order[..i]) <= TotalRoom(order[..j])
    ensures i < j ==> TotalRoom(order[..i]) < TotalRoom(order[..j])
    decreases j
  {
    if j > 0 {
      assert order[..j][..j - 1] == order[..j - 1];
      assert order[j - 1] in order;
      TotalRoomPrefix(order, if i < j then i else j - 1, j - 1);
    }
  }

  lemma {:induction false} FillLength(order: seq<NodeInfo>, k: nat)
    requires AllHaveRoom(order)
    ensures |Fill(order, k)| == Min(k, TotalRoom(order)) && TotalRoom(order) >= 0
  {
    if order != [] {
      FillLength(order[..|order| - 1], k);
      assert order[|order| - 1] in order;
    }
  }

  lemma UsesAppend(r: seq<NodeInfo>, n: NodeInfo, k: nat, m: NodeInfo)
    ensures Uses(r + Repeat(n, k), m) == Uses(r, m) + (if m == n then k else 0)
  {
    RepeatUses(n, k, m);
  }

  lemma FillSnoc(o: seq<NodeInfo>, n: NodeInfo, k: nat)
    ensures Fill(o + [n], k) == Fill(o, k) + Repeat(n, Share(n, k - TotalRoom(o)))
    ensures TotalRoom(o + [n]) == TotalRoom(o) + n.Room()
  {
    assert (o + [n])[..|o|] == o;
  }

  lemma {:induction false} FillUsesNone(order: seq<NodeInfo>, k: nat, n: NodeInfo)
    requires n !in order
    ensures Uses(Fill(order, k), n) == 0
  {
    if order != [] {
      var o, m := order[..|order| - 1], order[|order| - 1];
      FillUsesNone(o, k, n);
      Snoc(order);
      FillSnoc(o, m, k);
      UsesAppend(Fill(o, k), m, Share(m, k - TotalRoom(o)), n);
    }
  }

  lemma FillMembers(order: seq<NodeInfo>, k: nat)
    ensures forall n <- Fill(order, k) :: n in order
  {
    forall n | n in Fill(order, k) ensures n in order {
      if n !in order { FillUsesNone(order, k, n); }
    }
  }

  lemma FillUsesStep(order: seq<NodeInfo>, o: seq<NodeInfo>, n: NodeInfo, k: nat, m: NodeInfo, t: nat)
    requires order == o + [n] && t == Share(n, k - TotalRoom(o))
    ensures Uses(Fill(order, k), m) == Uses(Fill(o, k), m) + (if m == n then t else 0)
  {
    FillSnoc(o, n, k);
    UsesAppend(Fill(o, k), n, t, m);
  }

  /** How many hosts each node gets, exactly: what is left after the nodes before it, up to its room. */
  lemma FillUses(order: seq<NodeInfo>, k: nat, i: nat)
    requires Distinct(order) && i < |order|
    ensures Uses(Fill(order, k), order[i]) == Share(order[i], k - TotalRoom(order[..i]))
  {
    FillUsesAfter(order, k, i, order[..i]);
  }

  lemma {:induction false} FillUsesAfter(order: seq<NodeInfo>, k: nat, i: nat, before: seq<NodeInfo>)
    requires Distinct(order) && i < |order| && before == order[..i]
    ensures Uses(Fill(order, k), order[i]) == Share(order[i], k - TotalRoom(before))
    decreases |order|
  {
    var last := |order| - 1;
    var o, n := order[..last], order[last];
    if i == last {
      LastUses(order, o, n, k);
    } else {
      SameBefore(order, o, i);
      FillUsesAfter(o, k, i, before);
      EarlierUses(order, o, n, k, order[i]);
    }
  }

  lemma LastUses(order: seq<NodeInfo>, o: seq<NodeInfo>, n: NodeInfo, k: nat)
    requires order != [] && Distinct(order) && o == order[..|order| - 1] && n == order[|order| - 1]
    ensures Uses(Fill(order, k), n) == Share(n, k - TotalRoom(o))
  {
    LastApart(order, o, n);
    FillUsesStep(order, o, n, k, n, Share(n, k - TotalRoom(o)));
    FillUsesNone(o, k, n);
  }

  lemma EarlierUses(order: seq<NodeInfo>, o: seq<NodeInfo>, n: NodeInfo, k: nat, m: NodeInfo)
    requires order != [] && Distinct(order) && o == order[..|order| - 1] && n == order[|order| - 1] && m != n
    ensures Uses(Fill(order, k), m) == Uses(Fill(o, k), m)
  {
    LastApart(order, o, n);
    FillUsesStep(order, o, n, k, m, Share(n, k - TotalRoom(o)));
  }

  lemma LastApart(order: seq<NodeInfo>, o: seq<NodeInfo>, n: NodeInfo)
    requires order != [] && Distinct(order) && o == order[..|order| - 1] && n == order[|order| - 1]
    ensures order == o + [n] && Distinct(o) && n !in o
  {
  }

  lemma SameBefore(order: seq<NodeInfo>, o: seq<NodeInfo>, i: nat)
    requires Distinct(order) && i < |order| - 1 && o == order[..|order| - 1]
    ensures Distinct(o) && o[i] == order[i] && o[..i] == order[..i] && order[i] != order[|order| - 1]
  {
  }

  /** A node is used only when everything before it is full. */
  lemma FillSaturates(order: seq<NodeInfo>, k: nat, i: nat, j: nat)
    requires AllHaveRoom(order) && Distinct(order) && i < j < |order|
    requires order[j] in Fill(order, k)
    ensures Uses(Fill(order, k), order[i]) == order[i].Room()
  {
    FillUses(order, k, i);
    FillUses(order, k, j);
    RoomBefore(order, i, j);
    TakesAll(order[i], order[j], k, TotalRoom(order[..i]), TotalRoom(order[..j]));
  }

  lemma RoomBefore(order: seq<NodeInfo>, i: nat, j: nat)
    requires AllHaveRoom(order) && i < j <= |order|
    ensures TotalRoom(order[..i]) + order[i].Room() <= TotalRoom(order[..j])
  {
    TotalRoomPrefix(order, i + 1, j);
    assert order[..i + 1][..i] == order[..i];
  }

  lemma TakesAll(n: NodeInfo, m: NodeInfo, k: nat, before: int, later: int)
    requires n.HasRoom() && before + n.Room() <= later && Share(m, k - later) > 0
    ensures Share(n, k - before) == n.Room()
  {
  }

  lemma {:induction false} FillFirst(order: seq<NodeInfo>, k: nat)
    requires AllHaveRoom(order) && order != [] && k > 0
    ensures |Fill(order, k)| > 0 && Fill(order, k)[0] == order[0]
  {
    assert order[0] in order;
    if |order| > 1 {
      FillFirst(order[..|order| - 1], k);
    }
  }

  /** Once every host is placed the remaining nodes get nothing. */
  lemma {:induction false} FillDone(order: seq<NodeInfo>, k: nat, i: nat)
    requires AllHaveRoom(order) && i <= |order| && TotalRoom(order[..i]) >= k
    ensures Fill(order, k) == Fill(order[..i], k)
    decreases |order| - i
  {
    if i == |order| {
      assert order[..i] == order;
    } else {
      var o, o' := order[..i], order[..i + 1];
      assert o' == o + [order[i]];
      FillSnoc(o, order[i], k);
      assert Repeat(order[i], 0) == [];
      FillDone(order, k, i + 1);
    }
  }

  // ---------------------------------------------------------------- fewest nodes within a level

  function AtLevel(s: seq<NodeInfo>, c: int): seq<NodeInfo> {
    if s == [] then []
    else AtLevel(s[..|s| - 1], c) + (if s[|s| - 1].count == c then [s[|s| - 1]] else [])
  }

  lemma {:induction false} AtLevelMembers(s: seq<NodeInfo>, c: int, n: NodeInfo)
    ensures n in AtLevel(s, c) <==> n in s && n.count == c
  {
    if s != [] {
      AtLevelMembers(s[..|s| - 1], c, n);
    }
  }

  ghost function Elements(s: seq<NodeInfo>): set<NodeInfo> { set n | n in s }

  ghost predicate RoomDescending(s: seq<NodeInfo>) {
    forall i, j :: 0 <= i < j < |s| ==> s[i].Room() >= s[j].Room()
  }

  lemma {:induction false} TotalRoomRemove(s: seq<NodeInfo>, i: nat)
    requires i < |s|
    ensures TotalRoom(s) == TotalRoom(s[..i] + s[i + 1..]) + s[i].Room()
  {
    var last := |s| - 1;
    var t := s[..i] + s[i + 1..];
    if i == last {
      assert t == s[..last];
    } else {
      assert t[..|t| - 1] == s[..last][..i] + s[..last][i + 1..];
      assert t[|t| - 1] == s[last];
      TotalRoomRemove(s[..last], i);
    }
  }

  ghost predicate DrawnFrom(few: seq<NodeInfo>, level: seq<NodeInfo>) {
    Distinct(few) && forall n <- few :: n in level
  }

  lemma WithoutOne(few: seq<NodeInfo>, i: nat, rest: seq<NodeInfo>)
    requires Distinct(few) && i < |few| && rest == few[..i] + few[i + 1..]
    ensures Distinct(rest) && forall x <- rest :: x in few && x != few[i]
  {
    assert forall a :: 0 <= a < |rest| ==> rest[a] == few[if a < i then a else a + 1];
  }

  lemma DrawnFromSnoc(few: seq<NodeInfo>, o: seq<NodeInfo>, n: NodeInfo) returns (i: nat)
    requires DrawnFrom(few, o + [n])
    ensures i <= |few|
    ensures if i == |few| then DrawnFrom(few, o) else few[i] == n && DrawnFrom(few[..i] + few[i + 1..], o)
  {
    if n in few {
      i :| i < |few| && few[i] == n;
      var rest := few[..i] + few[i + 1..];
      WithoutOne(few, i, rest);
      forall x | x in rest ensures x in o {
        assert x in few && x in o + [n];
      }
    } else {
      i := |few|;
    }
  }

  lemma TotalRoomTake(s: seq<NodeInfo>, i: nat)
    requires i < |s|
    ensures TotalRoom(s[..i + 1]) == TotalRoom(s[..i]) + s[i].Room()
  {
    assert s[..i + 1][..i] == s[..i];
  }

  ghost predicate AtMostFirst(level: seq<NodeInfo>, few: seq<NodeInfo>) {
    |few| <= |level| && TotalRoom(few) <= TotalRoom(level[..|few|])
  }

  lemma OneMore(level: seq<NodeInfo>, few: seq<NodeInfo>, i: nat)
    requires level != [] && RoomDescending(level) && i < |few| && few[i] == level[|level| - 1]
    requires AtMostFirst(level[..|level| - 1], few[..i] + few[i + 1..])
    ensures AtMostFirst(level, few)
  {
    var m := |few| - 1;
    assert level[..|level| - 1][..m] == level[..m];
    TotalRoomRemove(few, i);
    TotalRoomTake(level, m);
    assert m < |level| - 1 ==> level[m].Room() >= level[|level| - 1].Room();
  }

  /** Any few nodes of a room-descending list have at most the room of as many first nodes. */
  lemma {:induction false} FirstHaveMostRoom(level: seq<NodeInfo>, few: seq<NodeInfo>)
    requires RoomDescending(level) && DrawnFrom(few, level)
    ensures AtMostFirst(level, few)
    decreases |level|
  {
    if few == [] {
      assert level[..0] == [];
    } else {
      assert few[0] in level;
      var o, n := level[..|level| - 1], level[|level| - 1];
      Snoc(level);
      var i := DrawnFromSnoc(few, o, n);
      if i == |few| {
        FirstHaveMostRoom(o, few);
        assert o[..|few|] == level[..|few|];
      } else {
        FirstHaveMostRoom(o, few[..i] + few[i + 1..]);
        OneMore(level, few, i);
      }
    }
  }

  /** The nodes a fill uses are a shortest prefix of the order that has the room. */
  ghost predicate UsedPrefix(order: seq<NodeInfo>, k: nat, u: nat) {
    && u <= |order|
    && Elements(Fill(order, k)) == Elements(order[..u])
    && (u > 0 ==> TotalRoom(order[..u - 1]) < |Fill(order, k)|)
  }

  lemma {:induction false} FillUsesPrefix(order: seq<NodeInfo>, k: nat) returns (u: nat)
    requires AllHaveRoom(order)
    ensures UsedPrefix(order, k, u)
  {
    if order == [] {
      u := 0;
    } else {
      var o, n := order[..|order| - 1], order[|order| - 1];
      Snoc(order);
      assert n in order;
      if k <= TotalRoom(o) {
        u := FillUsesPrefix(o, k);
        FillSnoc(o, n, k);
        assert Fill(o + [n], k) == Fill(o, k);
        assert order[..u] == o[..u];
        assert u > 0 ==> order[..u - 1] == o[..u - 1];
      } else {
        u := |order|;
        UsedAll(o, n, k);
      }
    }
  }

  lemma ElementsAppend(f: seq<NodeInfo>, n: NodeInfo, t: nat)
    requires t > 0
    ensures Elements(f + Repeat(n, t)) == Elements(f) + {n}
  {
    assert (f + Repeat(n, t))[|f|] == n;
  }

  lemma UsedAll(o: seq<NodeInfo>, n: NodeInfo, k: nat)
    requires AllHaveRoom(o) && n.HasRoom() && k > TotalRoom(o)
    ensures UsedPrefix(o + [n], k, |o| + 1)
  {
    var order, f, t := o + [n], Fill(o, k), Share(n, k - TotalRoom(o));
    FillLength(o, k);
    FillAllUsed(o, k);
    FillSnoc(o, n, k);
    ElementsAppend(f, n, t);
    assert Elements(order) == Elements(o) + {n};
    assert order[..|o| + 1] == order && order[..|o|] == o;
  }

  lemma {:induction false} FillAllUsed(order: seq<NodeInfo>, k: nat)
    requires AllHaveRoom(order) && k > TotalRoom(order)
    ensures Elements(Fill(order, k)) == Elements(order)
  {
    if order != [] {
      var o, n := order[..|order| - 1], order[|order| - 1];
      Snoc(order);
      FillAllUsed(o, k);
      FillSnoc(o, n, k);
      ElementsAppend(Fill(o, k), n, Share(n, k - TotalRoom(o)));
      assert Elements(order) == Elements(o) + {n};
    }
  }

  lemma {:induction false} DistinctSize(s: seq<NodeInfo>)
    requires Distinct(s)
    ensures |Elements(s)| == |s|
  {
    if s != [] {
      var o, n := s[..|s| - 1], s[|s| - 1];
      DistinctSize(o);
      assert Elements(s) == Elements(o) + {n} && n !in Elements(o);
    }
  }

  lemma UsedCount(order: seq<NodeInfo>, k: nat) returns (u: nat)
    requires AllHaveRoom(order) && Distinct(order)
    ensures u <= |order| && |Elements(Fill(order, k))| == u
    ensures u > 0 ==> TotalRoom(order[..u - 1]) < |Fill(order, k)|
  {
    u := FillUsesPrefix(order, k);
    DistinctSize(order[..u]);
  }

  lemma FewerHaveLessRoom(level: seq<NodeInfo>, few: seq<NodeInfo>, u: nat)
    requires AllHaveRoom(level) && RoomDescending(level) && DrawnFrom(few, level)
    requires |few| < u <= |level|
    ensures TotalRoom(few) <= TotalRoom(level[..u - 1])
  {
    FirstHaveMostRoom(level, few);
    TotalRoomPrefix(level, |few|, u - 1);
  }

  lemma FillFewest(level: seq<NodeInfo>, k: nat, few: seq<NodeInfo>)
    requires AllHaveRoom(level) && Distinct(level) && RoomDescending(level)
    requires DrawnFrom(few, level) && TotalRoom(few) >= |Fill(level, k)|
    ensures |few| >= |Elements(Fill(level, k))|
  {
    var u := UsedCount(level, k);
    if |few| < u {
      FewerHaveLessRoom(level, few, u);
    }
  }

  lemma AtLevelSnoc(s: seq<NodeInfo>, n: NodeInfo, c: int)
    ensures AtLevel(s + [n], c) == AtLevel(s, c) + (if n.count == c then [n] else [])
  {
    assert (s + [n])[..|s|] == s;
  }

  lemma {:induction false} AtLevelRepeat(r: seq<NodeInfo>, n: NodeInfo, m: nat, c: int)
    ensures AtLevel(r + Repeat(n, m), c) == AtLevel(r, c) + (if n.count == c then Repeat(n, m) else [])
  {
    if m == 0 {
      assert r + Repeat(n, m) == r;
    } else {
      RepeatSnoc(r, n, m);
      AtLevelSnoc(r + Repeat(n, m - 1), n, c);
      AtLevelRepeat(r, n, m - 1, c);
      RepeatSnoc(AtLevel(r, c), n, m);
      assert AtLevel(r, c) + [] == AtLevel(r, c);
    }
  }

  lemma RepeatSnoc(r: seq<NodeInfo>, n: NodeInfo, m: nat)
    requires m > 0
    ensures r + Repeat(n, m) == (r + Repeat(n, m - 1)) + [n]
  {
  }

  lemma FullSnoc(o: seq<NodeInfo>, n: NodeInfo, k: nat)
    requires n.HasRoom() && k > TotalRoom(o) + n.Room()
    ensures Fill(o + [n], k) == Fill(o, k) + Repeat(n, n.Room())
  {
    FillSnoc(o, n, k);
  }

  lemma LevelOfAppend(r: seq<NodeInfo>, n: NodeInfo, m: nat, c: int, r': seq<NodeInfo>)
    requires r' == r + Repeat(n, m)
    ensures n.count == c ==> AtLevel(r', c) == AtLevel(r, c) + Repeat(n, m)
    ensures n.count != c ==> AtLevel(r', c) == AtLevel(r, c)
  {
    AtLevelRepeat(r, n, m, c);
  }

  lemma LevelOfSnoc(s: seq<NodeInfo>, n: NodeInfo, c: int, s': seq<NodeInfo>)
    requires s' == s + [n]
    ensures n.count == c ==> AtLevel(s', c) == AtLevel(s, c) + [n]
    ensures n.count != c ==> AtLevel(s', c) == AtLevel(s, c)
  {
    AtLevelSnoc(s, n, c);
  }

  /** When hosts are left over, every level is full. */
  lemma {:induction false} FullAtLevel(order: seq<NodeInfo>, k: nat, c: int)
    requires AllHaveRoom(order) && k > TotalRoom(order)
    ensures |AtLevel(Fill(order, k), c)| == TotalRoom(AtLevel(order, c))
  {
    if order != [] {
      var o, n := order[..|order| - 1], order[|order| - 1];
      Snoc(order);
      FullAtLevel(o, k, c);
      FullSnoc(o, n, k);
      FullAtLevelStep(o, n, c, order, Fill(o, k), Fill(order, k));
    }
  }

  lemma FullAtLevelStep(o: seq<NodeInfo>, n: NodeInfo, c: int, o': seq<NodeInfo>,
                        r: seq<NodeInfo>, r': seq<NodeInfo>)
    requires n.HasRoom() && o' == o + [n] && r' == r + Repeat(n, n.Room())
    requires |AtLevel(r, c)| == TotalRoom(AtLevel(o, c))
    ensures |AtLevel(r', c)| == TotalRoom(AtLevel(o', c))
  {
    LevelOfAppend(r, n, n.Room(), c, r');
    LevelOfSnoc(o, n, c, o');
    FillSnoc(AtLevel(o, c), n, 0);
  }

  /** Beyond the total room, k does not matter. */
  lemma {:induction false} FillSame(order: seq<NodeInfo>, k: nat, k': nat)
    requires AllHaveRoom(order) && TotalRoom(order) <= k <= k'
    ensures Fill(order, k) == Fill(order, k')
  {
    if order != [] {
      assert order[|order| - 1] in order;
      FillLength(order[..|order| - 1], k);
      FillLength(order[..|order| - 1], k');
      FillSame(order[..|order| - 1], k, k');
    }
  }

  /** Seen at one level, a fill is a fill of that level. */
  lemma {:induction false} FillAtLevel(order: seq<NodeInfo>, k: nat, c: int) returns (k': nat)
    requires AllHaveRoom(order)
    ensures AtLevel(Fill(order, k), c) == Fill(AtLevel(order, c), k')
  {
    if order == [] {
      k' := 0;
    } else {
      var o, n := order[..|order| - 1], order[|order| - 1];
      Snoc(order);
      k' := FillAtLevel(o, k, c);
      var m := Share(n, k - TotalRoom(o));
      FillSnoc(o, n, k);
      LevelOfAppend(Fill(o, k), n, m, c, Fill(order, k));
      LevelOfSnoc(o, n, c, order);
      if n.count == c {
        AtLevelHasRoom(o, c);
        if k > TotalRoom(o) {
          FullAtLevel(o, k, c);
        }
        k' := LevelTakesShare(AtLevel(o, c), n, k', m);
      }
    }
  }

  lemma LevelTakesShare(l: seq<NodeInfo>, n: NodeInfo, k: nat, m: nat) returns (k': nat)
    requires AllHaveRoom(l) && n.HasRoom() && m <= n.Room()
    requires m > 0 ==> |Fill(l, k)| == TotalRoom(l)
    ensures Fill(l + [n], k') == Fill(l, k) + Repeat(n, m)
  {
    FillLength(l, k);
    if k < TotalRoom(l) {
      k' := k;
    } else {
      k' := TotalRoom(l) + m;
      FillSame(l, TotalRoom(l), k);
      FillSame(l, TotalRoom(l), k');
    }
    assert Share(n, k' - TotalRoom(l)) == m;
    FillSnoc(l, n, k');
  }

  lemma AtLevelHasRoom(s: seq<NodeInfo>, c: int)
    requires AllHaveRoom(s)
    ensures AllHaveRoom(AtLevel(s, c))
  {
    forall n | n in AtLevel(s, c) ensures n.HasRoom() {
      AtLevelMembers(s, c, n);
    }
  }

  // ---------------------------------------------------------------- the two policies on a node list

  /** The placement of k hosts: hosts are interchangeable, so only the node of each position counts. */
  function Placed(p: Policy, nodes: seq<NodeInfo>, k: nat): seq<NodeInfo> {
    Fill(Ranking(p, nodes), k)
  }

  lemma {:induction false} AvailableDistinct(nodes: seq<NodeInfo>)
    requires DistinctNames(nodes)
    ensures DistinctNames(Available(nodes))
    ensures TotalRoom(nodes) <= TotalRoom(Available(nodes))
  {
    if nodes != [] {
      var o, n := nodes[..|nodes| - 1], nodes[|nodes| - 1];
      AvailableDistinct(o);
      AvailableSnoc(o, n, nodes);
    }
  }

  lemma AvailableSnoc(o: seq<NodeInfo>, n: NodeInfo, nodes: seq<NodeInfo>)
    requires DistinctNames(nodes) && nodes != [] && o == nodes[..|nodes| - 1] && n == nodes[|nodes| - 1]
    requires DistinctNames(Available(o)) && TotalRoom(o) <= TotalRoom(Available(o))
    ensures DistinctNames(Available(nodes)) && TotalRoom(nodes) <= TotalRoom(Available(nodes))
  {
    if n.HasRoom() {
      forall i | 0 <= i < |Available(o)| ensures Available(o)[i].hostname != n.hostname {
        AvailableMembers(o, Available(o)[i]);
      }
      SnocRoom(Available(o), n);
    } else {
      assert Available(nodes) == Available(o);
    }
  }

  lemma SnocRoom(s: seq<NodeInfo>, n: NodeInfo)
    ensures TotalRoom(s + [n]) == TotalRoom(s) + n.Room()
  {
    assert (s + [n])[..|s|] == s;
  }

  lemma {:induction false} TotalRoomCons(n: NodeInfo, s: seq<NodeInfo>)
    ensures TotalRoom([n] + s) == n.Room() + TotalRoom(s)
  {
    if s == [] {
      assert [n] + s == [n];
    } else {
      assert ([n] + s)[..|s|] == [n] + s[..|s| - 1];
      TotalRoomCons(n, s[..|s| - 1]);
    }
  }

  lemma {:induction false} TotalRoomInsert(p: Policy, n: NodeInfo, s: seq<NodeInfo>)
    ensures TotalRoom(InsertBy(p, n, s)) == n.Room() + TotalRoom(s)
  {
    if s == [] {
    } else if Before(p, s[0], n) {
      TotalRoomInsert(p, n, s[1..]);
      TotalRoomCons(s[0], InsertBy(p, n, s[1..]));
      TotalRoomCons(s[0], s[1..]);
      assert s == [s[0]] + s[1..];
    } else {
      TotalRoomCons(n, s);
    }
  }

  lemma {:induction false} TotalRoomSort(p: Policy, s: seq<NodeInfo>)
    ensures TotalRoom(SortBy(p, s)) == TotalRoom(s)
  {
    if s != [] {
      TotalRoomSort(p, s[..|s| - 1]);
      TotalRoomInsert(p, s[|s| - 1], SortBy(p, s[..|s| - 1]));
    }
  }

  lemma RankingMembers(p: Policy, nodes: seq<NodeInfo>, n: NodeInfo)
    ensures n in Ranking(p, nodes) <==> n in nodes && n.HasRoom()
  {
    AvailableMembers(nodes, n);
    assert n in Ranking(p, nodes) <==> n in multiset(Ranking(p, nodes));
  }

  ghost predicate IsRanking(p: Policy, order: seq<NodeInfo>) {
    AllHaveRoom(order) && Sorted(p, order) && Distinct(order)
  }

  lemma RankingOk(p: Policy, nodes: seq<NodeInfo>)
    requires DistinctNames(nodes)
    ensures IsRanking(p, Ranking(p, nodes))
    ensures TotalRoom(Ranking(p, nodes)) == TotalRoom(Available(nodes)) >= TotalRoom(nodes)
  {
    AvailableDistinct(nodes);
    SortBySorted(p, Available(nodes));
    TotalRoomSort(p, Available(nodes));
    forall n | n in Ranking(p, nodes) ensures n.HasRoom() {
      RankingMembers(p, nodes, n);
    }
    forall i, j | 0 <= i < j < |Ranking(p, nodes)| ensures Ranking(p, nodes)[i] != Ranking(p, nodes)[j] {
      BeforeTotal(p, Ranking(p, nodes)[i], Ranking(p, nodes)[j]);
    }
  }

  /** Only nodes with room are used, none beyond its room, and all the room is used before a host is left out. */
  lemma PlacedWithinRoom(p: Policy, nodes: seq<NodeInfo>, k: nat)
    requires DistinctNames(nodes)
    ensures |Placed(p, nodes, k)| == Min(k, TotalRoom(Available(nodes)))
    ensures k <= TotalRoom(nodes) ==> |Placed(p, nodes, k)| == k
    ensures forall n <- Placed(p, nodes, k) :: n in nodes && n.HasRoom()
    ensures forall n <- nodes :: Uses(Placed(p, nodes, k), n) <= Max(0, n.Room())
  {
    var order := Ranking(p, nodes);
    RankingOk(p, nodes);
    FillLength(order, k);
    FillMembers(order, k);
    forall n | n in Placed(p, nodes, k) ensures n in nodes && n.HasRoom() {
      RankingMembers(p, nodes, n);
    }
    forall n | n in nodes ensures Uses(Fill(order, k), n) <= Max(0, n.Room()) {
      UsesWithinRoom(order, k, n);
    }
  }

  /** Hosts are placed in the order of the policy: of two hosts on different nodes the earlier one is on the
      preferred node. */
  lemma PlacedInOrder(p: Policy, nodes: seq<NodeInfo>, k: nat, i: nat, j: nat)
    requires DistinctNames(nodes) && i < j < |Placed(p, nodes, k)|
    ensures var n, m := Placed(p, nodes, k)[i], Placed(p, nodes, k)[j];
            n == m || Before(p, n, m)
  {
    RankingOk(p, nodes);
    FillInOrder(p, Ranking(p, nodes), k, i, j);
  }

  lemma {:induction false} FillInOrder(p: Policy, order: seq<NodeInfo>, k: nat, i: nat, j: nat)
    requires Sorted(p, order) && i < j < |Fill(order, k)|
    ensures Fill(order, k)[i] == Fill(order, k)[j] || Before(p, Fill(order, k)[i], Fill(order, k)[j])
  {
    if order != [] {
      var o, n := order[..|order| - 1], order[|order| - 1];
      if j < |Fill(o, k)| {
        FillInOrder(p, o, k, i, j);
      } else if i < |Fill(o, k)| {
        FillMembers(o, k);
        assert Fill(o, k)[i] in Fill(o, k);
        var l :| 0 <= l < |o| && o[l] == Fill(o, k)[i];
        assert order[l] == o[l];
      }
    }
  }

  lemma UsesWithinRoom(order: seq<NodeInfo>, k: nat, n: NodeInfo)
    requires AllHaveRoom(order) && Distinct(order)
    ensures Uses(Fill(order, k), n) <= Max(0, n.Room())
  {
    if n in order {
      var i :| 0 <= i < |order| && order[i] == n;
      FillUses(order, k, i);
    } else {
      FillMembers(order, k);
      assert n !in Fill(order, k);
    }
  }

  /** A node is used only when every node the policy prefers to it, and that had room, is full. */
  lemma PreferredNodesAreFull(p: Policy, nodes: seq<NodeInfo>, k: nat, n: NodeInfo, m: NodeInfo)
    requires DistinctNames(nodes) && n in Placed(p, nodes, k)
    requires m in nodes && m.HasRoom() && Before(p, m, n)
    ensures Uses(Placed(p, nodes, k), m) == m.Room()
  {
    var order := Ranking(p, nodes);
    RankingOk(p, nodes);
    FillMembers(order, k);
    RankingMembers(p, nodes, m);
    var j :| 0 <= j < |order| && order[j] == n;
    var i :| 0 <= i < |order| && order[i] == m;
    BeforeTotal(p, m, n);
    FillSaturates(order, k, i, j);
  }

  lemma {:induction false} LevelSorted(p: Policy, order: seq<NodeInfo>, c: int)
    requires Sorted(p, order)
    ensures RoomDescending(AtLevel(order, c)) && Sorted(p, AtLevel(order, c))
  {
    if order != [] {
      var o, n := order[..|order| - 1], order[|order| - 1];
      LevelSorted(p, o, c);
      forall i | 0 <= i < |AtLevel(o, c)| ensures Before(p, AtLevel(o, c)[i], n) && AtLevel(o, c)[i].count == c {
        LevelBeforeLast(p, order, c, AtLevel(o, c)[i]);
      }
      if n.count == c {
        SortedSnoc(p, AtLevel(o, c), n);
      }
    }
  }

  lemma LevelBeforeLast(p: Policy, order: seq<NodeInfo>, c: int, m: NodeInfo)
    requires order != [] && Sorted(p, order) && m in AtLevel(order[..|order| - 1], c)
    ensures Before(p, m, order[|order| - 1]) && m.count == c
  {
    AtLevelMembers(order[..|order| - 1], c, m);
    var i :| 0 <= i < |order| - 1 && order[i] == m;
  }

  lemma SortedSnoc(p: Policy, s: seq<NodeInfo>, n: NodeInfo)
    requires Sorted(p, s) && RoomDescending(s) && forall i :: 0 <= i < |s| ==> Before(p, s[i], n) && s[i].count == n.count
    ensures Sorted(p, s + [n]) && RoomDescending(s + [n])
  {
  }

  /** Within each load level no smaller set of nodes could hold the hosts that were placed there. */
  lemma FewestNodesPerLevel(p: Policy, nodes: seq<NodeInfo>, k: nat, c: int, few: seq<NodeInfo>)
    requires DistinctNames(nodes) && Distinct(few)
    requires forall n <- few :: n in nodes && n.count == c && n.HasRoom()
    requires TotalRoom(few) >= |AtLevel(Placed(p, nodes, k), c)|
    ensures |few| >= |Elements(AtLevel(Placed(p, nodes, k), c))|
  {
    var order := Ranking(p, nodes);
    var level := AtLevel(order, c);
    RankingOk(p, nodes);
    var k' := FillAtLevel(order, k, c);
    LevelSorted(p, order, c);
    AtLevelHasRoom(order, c);
    forall i, j | 0 <= i < j < |level| ensures level[i] != level[j] {
      BeforeTotal(p, level[i], level[j]);
    }
    forall n | n in few ensures n in level {
      RankingMembers(p, nodes, n);
      AtLevelMembers(order, c, n);
    }
    FillFewest(level, k', few);
  }

  /** The single choice of a scheduler: the node with room that beats every other one. */
  ghost predicate IsBest(p: Policy, nodes: seq<NodeInfo>, n: NodeInfo) {
    && n in nodes && n.HasRoom()
    && forall m <- nodes | m.HasRoom() && m != n :: Before(p, n, m)
  }

  /** A batch of one host goes to the best node, and there is only one best node. */
  lemma BatchOfOneIsBest(p: Policy, nodes: seq<NodeInfo>, n: NodeInfo)
    requires DistinctNames(nodes)
    ensures IsBest(p, nodes, n) <==> Placed(p, nodes, 1) == [n]
  {
    var order := Ranking(p, nodes);
    RankingOk(p, nodes);
    FillMembers(order, 1);
    RankingMembers(p, nodes, n);
    if order != [] {
      FillFirst(order, 1);
      FillLength(order, 1);
      assert Placed(p, nodes, 1) == [order[0]];
      RankingMembers(p, nodes, order[0]);
      if IsBest(p, nodes, n) && n != order[0] {
        assert Before(p, n, order[0]);
        var i :| 0 <= i < |order| && order[i] == n;
        BeforeTotal(p, n, order[0]);
        assert false;
      }
      if n == order[0] {
        forall m | m in nodes && m.HasRoom() && m != n ensures Before(p, n, m) {
          RankingMembers(p, nodes, m);
          var i :| 0 <= i < |order| && order[i] == m;
        }
      }
    }
  }
}
