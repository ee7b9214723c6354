/** When a batch uses as few nodes as possible, which both deterministic schedulers promise outright
    ("minimum node amount", "least nodes"). Within a load level they always do; over the whole list the
    promise holds exactly when filling by room alone would not get by with fewer nodes. */
module FewestNodes {
  import opened Types
  import opened Placement

  /** How many nodes, taken in this order, have room for k hosts together. */
  function Needed(order: seq<NodeInfo>, k: nat): nat {
    if order == [] then 0
    else if TotalRoom(order[..|order| - 1]) >= k then Needed(order[..|order| - 1], k)
    else |order|
  }

  function InsertByRoom(n: NodeInfo, s: seq<NodeInfo>): (r: seq<NodeInfo>)
    ensures multiset(r) == multiset(s) + multiset{n}
  {
    if s != [] && s[0].Room() > n.Room() then
      assert s == [s[0]] + s[1..];
      [s[0]] + InsertByRoom(n, s[1..])
    else [n] + s
  }

  /** The same nodes, those with most room first. */
  function Roomiest(s: seq<NodeInfo>): (r: seq<NodeInfo>)
    ensures multiset(r) == multiset(s)
  {
    if s == [] then []
    else
      assert s == s[..|s| - 1] + [s[|s| - 1]];
      InsertByRoom(s[|s| - 1], Roomiest(s[..|s| - 1]))
  }

  lemma {:induction false} InsertByRoomDescending(n: NodeInfo, s: seq<NodeInfo>)
    requires RoomDescending(s)
    ensures RoomDescending(InsertByRoom(n, s))
  {
    if s != [] && s[0].Room() > n.Room() {
      InsertByRoomDescending(n, s[1..]);
      var r := InsertByRoom(n, s[1..]);
      forall j | 0 <= j < |r| ensures s[0].Room() >= r[j].Room() {
        assert r[j] in multiset(r);
        assert r[j] == n || r[j] in s[1..];
      }
    }
  }

  lemma {:induction false} RoomiestDescending(s: seq<NodeInfo>)
    ensures RoomDescending(Roomiest(s))
  {
    if s != [] {
      RoomiestDescending(s[..|s| - 1]);
      InsertByRoomDescending(s[|s| - 1], Roomiest(s[..|s| - 1]));
    }
  }

  lemma SameMembers(s: seq<NodeInfo>, t: seq<NodeInfo>)
    requires multiset(s) == multiset(t)
    ensures forall n :: n in s <==> n in t
  {
    forall n ensures n in s <==> n in t {
      assert n in multiset(s) <==> n in multiset(t);
    }
  }

  lemma RoomiestKeeps(s: seq<NodeInfo>)
    requires AllHaveRoom(s) && Distinct(s)
    ensures |Roomiest(s)| == |s| && AllHaveRoom(Roomiest(s)) && Distinct(Roomiest(s))
    ensures forall n :: n in Roomiest(s) <==> n in s
  {
    var r := Roomiest(s);
    SameMembers(s, r);
    assert |multiset(s)| == |s| && |multiset(r)| == |r|;
    SameSizeDistinct(s, r);
    forall i | 0 <= i < |r| ensures r[i].HasRoom() {
      assert r[i] in s;
    }
  }

  lemma SameSizeDistinct(s: seq<NodeInfo>, t: seq<NodeInfo>)
    requires Distinct(s) && |s| == |t| && forall n :: n in s <==> n in t
    ensures Distinct(t)
  {
    DistinctSize(s);
    assert Elements(s) == Elements(t);
    SmallerIfRepeated(t);
  }

  lemma {:induction false} SmallerIfRepeated(t: seq<NodeInfo>)
    ensures |Elements(t)| <= |t| && (|Elements(t)| == |t| ==> Distinct(t))
  {
    if t != [] {
      var o, n := t[..|t| - 1], t[|t| - 1];
      SmallerIfRepeated(o);
      assert Elements(t) == Elements(o) + {n};
      if n in Elements(o) {
        assert Elements(t) == Elements(o);
      }
    }
  }

  /** A fill uses as many nodes as it needs. */
  lemma {:induction false} UsedIsNeeded(order: seq<NodeInfo>, k: nat)
    requires AllHaveRoom(order) && Distinct(order) && k <= TotalRoom(order)
    ensures |Elements(Fill(order, k))| == Needed(order, k) <= |order|
    ensures Needed(order, k) > 0 ==> TotalRoom(order[..Needed(order, k) - 1]) < k
  {
    if order != [] {
      var o, n := order[..|order| - 1], order[|order| - 1];
      Snoc(order);
      if TotalRoom(o) >= k {
        FillDone(order, k, |o|);
        UsedIsNeeded(o, k);
        assert Needed(o, k) > 0 ==> order[..Needed(o, k) - 1] == o[..Needed(o, k) - 1];
      } else {
        UsedAll(o, n, k);
        DistinctSize(order);
        assert order[..|o| + 1] == order;
      }
    }
  }

  /** These nodes could hold k hosts. */
  ghost predicate CouldHold(nodes: seq<NodeInfo>, few: seq<NodeInfo>, k: nat) {
    Distinct(few) && (forall n <- few :: n in nodes && n.HasRoom()) && TotalRoom(few) >= k
  }

  /** The promise: no smaller set of nodes could hold the hosts. */
  ghost predicate FewestOverall(p: Policy, nodes: seq<NodeInfo>, k: nat) {
    forall few: seq<NodeInfo> :: CouldHold(nodes, few, k) ==> |few| >= |Elements(Placed(p, nodes, k))|
  }

  /** What a caller can check beforehand: as many nodes as the policy needs, less one, do not have the room
      even if they are the ones with most room. */
  predicate NoneToSpare(order: seq<NodeInfo>, k: nat)
    requires Needed(order, k) <= |Roomiest(order)|
  {
    Needed(order, k) > 0 ==> TotalRoom(Roomiest(order)[..Needed(order, k) - 1]) < k
  }

  lemma PlacedIsRanked(p: Policy, nodes: seq<NodeInfo>, k: nat)
    requires DistinctNames(nodes) && k <= TotalRoom(nodes)
    ensures AllHaveRoom(Ranking(p, nodes)) && Distinct(Ranking(p, nodes)) && k <= TotalRoom(Ranking(p, nodes))
    ensures |Elements(Placed(p, nodes, k))| == Needed(Ranking(p, nodes), k) <= |Roomiest(Ranking(p, nodes))|
  {
    RankingOk(p, nodes);
    UsedIsNeeded(Ranking(p, nodes), k);
    RoomiestKeeps(Ranking(p, nodes));
  }

  lemma SpareBreaksPromise(p: Policy, nodes: seq<NodeInfo>, k: nat, order: seq<NodeInfo>, u: nat)
    requires order == Ranking(p, nodes) && AllHaveRoom(order) && Distinct(order)
    requires 0 < u <= |Roomiest(order)| && TotalRoom(Roomiest(order)[..u - 1]) >= k
    ensures CouldHold(nodes, Roomiest(order)[..u - 1], k) && |Roomiest(order)[..u - 1]| < u
  {
    RoomiestKeeps(order);
    var few := Roomiest(order)[..u - 1];
    forall n | n in few ensures n in nodes && n.HasRoom() {
      assert n in Roomiest(order);
      RankingMembers(p, nodes, n);
    }
  }

  lemma NoSpareKeepsPromise(p: Policy, nodes: seq<NodeInfo>, k: nat, order: seq<NodeInfo>, u: nat, few: seq<NodeInfo>)
    requires order == Ranking(p, nodes) && AllHaveRoom(order) && Distinct(order)
    requires u <= |Roomiest(order)| && (u > 0 ==> TotalRoom(Roomiest(order)[..u - 1]) < k)
    requires CouldHold(nodes, few, k)
    ensures |few| >= u
  {
    if |few| < u {
      RoomiestKeeps(order);
      RoomiestDescending(order);
      forall n | n in few ensures n in Roomiest(order) {
        RankingMembers(p, nodes, n);
      }
      FewerHaveLessRoom(Roomiest(order), few, u);
    }
  }

  /** Both schedulers keep their promise exactly on these inputs. */
  lemma FewestOverallExactly(p: Policy, nodes: seq<NodeInfo>, k: nat)
    requires DistinctNames(nodes) && k <= TotalRoom(nodes)
    ensures Needed(Ranking(p, nodes), k) <= |Roomiest(Ranking(p, nodes))|
    ensures FewestOverall(p, nodes, k) <==> NoneToSpare(Ranking(p, nodes), k)
  {
    var order := Ranking(p, nodes);
    var u := Needed(order, k);
    PlacedIsRanked(p, nodes, k);
    if NoneToSpare(order, k) {
      forall few: seq<NodeInfo> | CouldHold(nodes, few, k) ensures |few| >= u {
        NoSpareKeepsPromise(p, nodes, k, order, u, few);
      }
    } else {
      SpareBreaksPromise(p, nodes, k, order, u);
    }
  }

  /** The promise is broken whenever the policy prefers a, with room for one host, to b, with room for two:
      least-load when b is more loaded, greedy when it is less. Two hosts are spread over both nodes
      although b alone could take them. */
  lemma NotFewestNodesOverall(p: Policy, a: NodeInfo, b: NodeInfo)
    requires if p.LeastLoad? then a.count < b.count else a.count > b.count
    requires a.Room() == 1 && b.Room() >= 2
    ensures Placed(p, [a, b], 2) == [a, b] && !FewestOverall(p, [a, b], 2)
  {
    TwoPlaced(p, a, b);
    assert TotalRoom([b]) == b.Room() by { assert [b][..0] == []; }
    assert CouldHold([a, b], [b], 2);
    assert Elements([a, b]) == {a, b} && a != b;
  }

  lemma TwoPlaced(p: Policy, a: NodeInfo, b: NodeInfo)
    requires Before(p, a, b) && a.Room() == 1 && b.Room() >= 2
    ensures Placed(p, [a, b], 2) == [a, b]
  {
    AvailableTwo(a, b);
    SortTwo(p, a, b);
    OneEach(a, b);
  }

  lemma OneEach(a: NodeInfo, b: NodeInfo)
    requires a.Room() == 1 && b.Room() >= 2
    ensures Fill([a, b], 2) == [a, b]
  {
    FillTwo(a, b, 2);
    assert Repeat(a, 1) + Repeat(b, 1) == [a, b];
  }

  lemma AvailableTwo(a: NodeInfo, b: NodeInfo)
    requires a.HasRoom() && b.HasRoom()
    ensures Available([a, b]) == [a, b]
  {
    assert [a, b][..1] == [a] && [a][..0] == [];
    assert Available([a]) == [a];
  }

  lemma SortTwo(p: Policy, a: NodeInfo, b: NodeInfo)
    requires Before(p, a, b)
    ensures SortBy(p, [a, b]) == [a, b]
  {
    assert [a, b][..1] == [a] && [a][..0] == [];
    assert SortBy(p, [a]) == [a];
    assert InsertBy(p, b, [a]) == [a] + InsertBy(p, b, [a][1..]);
  }

  lemma FillTwo(a: NodeInfo, b: NodeInfo, k: nat)
    ensures Fill([a, b], k) == Repeat(a, Share(a, k)) + Repeat(b, Share(b, k - a.Room()))
  {
    assert [a, b] == [a] + [b] && [] + [a] == [a];
    FillSnoc([a], b, k);
    FillSnoc([], a, k);
  }
}
