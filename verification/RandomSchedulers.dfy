/** The two randomised schedulers. The random draws are inputs, so what is proved holds for every sequence
    of draws. Weights are reals: rounding is not modelled. */
module RandomSchedulers {
  import opened Types
  import opened Placement
  import opened Schedulers

  // ---------------------------------------------------------------- least_load_random

  function MaxRoom(level: seq<NodeInfo>): int
    requires level != []
  {
    if |level| == 1 then level[0].Room() else Max(level[0].Room(), MaxRoom(level[1..]))
  }

  /** The nodes of a level with the given room. */
  function WithRoom(level: seq<NodeInfo>, room: int): seq<NodeInfo> {
    if level == [] then []
    else WithRoom(level[..|level| - 1], room) + (if level[|level| - 1].Room() == room then [level[|level| - 1]] else [])
  }

  /** The group a level offers to the draws: its nodes with the most room. */
  function Offer(nodes: seq<NodeInfo>, c: int): seq<NodeInfo> {
    var level := AtLevel(Available(nodes), c);
    if level == [] then [] else WithRoom(level, MaxRoom(level))
  }

  /** The room of the offers of some levels together. */
  function OfferedRoom(nodes: seq<NodeInfo>, levels: seq<int>): int {
    if levels == [] then 0
    else OfferedRoom(nodes, levels[..|levels| - 1]) + TotalRoom(Offer(nodes, levels[|levels| - 1]))
  }

  /** One entry of `best_nodes`. */
  datatype Slot = Slot(node: NodeInfo, left: int)

  function SumLeft(best: seq<Slot>): int {
    if best == [] then 0 else SumLeft(best[..|best| - 1]) + best[|best| - 1].left
  }

  lemma {:induction false} SumLeftUpdate(best: seq<Slot>, i: nat, s: Slot, best': seq<Slot>)
    requires i < |best| && best' == best[i := s]
    ensures SumLeft(best') == SumLeft(best) - best[i].left + s.left
  {
    var last := |best| - 1;
    if i == last {
      assert best'[..last] == best[..last];
    } else {
      assert best'[..last] == best[..last][i := s];
      SumLeftUpdate(best[..last], i, s, best'[..last]);
    }
  }

  lemma {:induction false} SumLeftPop(best: seq<Slot>, i: nat, best': seq<Slot>)
    requires i < |best| && best' == best[..i] + best[i + 1..]
    ensures SumLeft(best') == SumLeft(best) - best[i].left
  {
    var last := |best| - 1;
    if i == last {
      assert best' == best[..last];
    } else {
      assert best'[..|best'| - 1] == best[..last][..i] + best[..last][i + 1..];
      SumLeftPop(best[..last], i, best'[..|best'| - 1]);
    }
  }

  lemma {:induction false} SumLeftSigns(best: seq<Slot>)
    requires forall i :: 0 <= i < |best| ==> best[i].left >= 0
    ensures SumLeft(best) >= 0
    ensures SumLeft(best) == 0 ==> forall i :: 0 <= i < |best| ==> best[i].left == 0
  {
    if best != [] {
      SumLeftSigns(best[..|best| - 1]);
    }
  }

  /** Every node of the offer has its unused room in `best`, or is full and was popped. */
  ghost predicate Drawing(offer: seq<NodeInfo>, best: seq<Slot>, p: seq<NodeInfo>) {
    && (forall i :: 0 <= i < |best| ==>
          best[i].left >= 0 && best[i].node in offer && Uses(p, best[i].node) + best[i].left == best[i].node.Room())
    && (forall i, j :: 0 <= i < j < |best| ==> best[i].node != best[j].node)
    && (forall n {:trigger Uses(p, n)} ::
          && Uses(p, n) <= (if n in offer then n.Room() else 0)
          && (n in offer && Uses(p, n) < n.Room() ==> exists i :: 0 <= i < |best| && best[i].node == n))
    && SumLeft(best) == TotalRoom(offer) - |p|
  }

  /** What the draws of one level may produce. */
  ghost predicate LevelDraw(offer: seq<NodeInfo>, p: seq<NodeInfo>) {
    && |p| <= TotalRoom(offer)
    && forall n {:trigger Uses(p, n)} ::
         && Uses(p, n) <= (if n in offer then n.Room() else 0)
         && (n in offer && |p| == TotalRoom(offer) ==> Uses(p, n) == n.Room())
  }

  lemma DrawOne(offer: seq<NodeInfo>, best: seq<Slot>, p: seq<NodeInfo>, i: nat, best': seq<Slot>)
    requires Drawing(offer, best, p) && i < |best| && best[i].left > 0
    requires best' == best[i := Slot(best[i].node, best[i].left - 1)]
    ensures Drawing(offer, best', p + [best[i].node])
  {
    var n := best[i].node;
    var p' := p + [n];
    SumLeftUpdate(best, i, Slot(n, best[i].left - 1), best');
    forall m ensures Uses(p', m) == Uses(p, m) + (if m == n then 1 else 0) {}
    forall m | m in offer && Uses(p', m) < m.Room() ensures exists j :: 0 <= j < |best'| && best'[j].node == m {
      assert Uses(p, m) < m.Room();
      var j :| 0 <= j < |best| && best[j].node == m;
      assert best'[j].node == m;
    }
  }

  /** best' is best without its i-th slot. */
  ghost predicate Dropped(best: seq<Slot>, i: nat, best': seq<Slot>) {
    && |best'| == |best| - 1
    && (forall j {:trigger best'[j]} :: 0 <= j < |best'| ==> best'[j] == best[if j < i then j else j + 1])
  }

  lemma KeepsSlots(offer: seq<NodeInfo>, best: seq<Slot>, p: seq<NodeInfo>, i: nat, best': seq<Slot>, m: NodeInfo)
    requires Drawing(offer, best, p) && i < |best| && best[i].left == 0 && Dropped(best, i, best')
    requires m in offer && Uses(p, m) < m.Room()
    ensures exists j :: 0 <= j < |best'| && best'[j].node == m
  {
    var j :| 0 <= j < |best| && best[j].node == m;
    assert best'[if j < i then j else j - 1].node == m;
  }

  lemma DroppedDrawing(offer: seq<NodeInfo>, best: seq<Slot>, p: seq<NodeInfo>, i: nat, best': seq<Slot>)
    requires Drawing(offer, best, p) && i < |best| && best[i].left == 0 && Dropped(best, i, best')
    requires SumLeft(best') == SumLeft(best)
    ensures Drawing(offer, best', p)
  {
    forall m | m in offer && Uses(p, m) < m.Room() ensures exists j :: 0 <= j < |best'| && best'[j].node == m {
      KeepsSlots(offer, best, p, i, best', m);
    }
  }

  lemma PopFull(offer: seq<NodeInfo>, best: seq<Slot>, p: seq<NodeInfo>, i: nat, best': seq<Slot>)
    requires Drawing(offer, best, p) && i < |best| && best[i].left == 0
    requires best' == best[..i] + best[i + 1..]
    ensures Drawing(offer, best', p)
  {
    SumLeftPop(best, i, best');
    assert Dropped(best, i, best');
    DroppedDrawing(offer, best, p, i, best');
  }

  function Slots(offer: seq<NodeInfo>): (r: seq<Slot>)
    ensures |r| == |offer| && forall i :: 0 <= i < |r| ==> r[i] == Slot(offer[i], offer[i].Room())
  {
    seq(|offer|, i requires 0 <= i < |offer| => Slot(offer[i], offer[i].Room()))
  }

  lemma {:induction false} SumLeftSlots(offer: seq<NodeInfo>)
    ensures SumLeft(Slots(offer)) == TotalRoom(offer)
  {
    if offer != [] {
      assert Slots(offer)[..|offer| - 1] == Slots(offer[..|offer| - 1]);
      SumLeftSlots(offer[..|offer| - 1]);
    }
  }

  lemma DrawStart(offer: seq<NodeInfo>)
    requires AllHaveRoom(offer) && Distinct(offer)
    ensures Drawing(offer, Slots(offer), [])
  {
    SumLeftSlots(offer);
    forall n | n in offer ensures exists i :: 0 <= i < |Slots(offer)| && Slots(offer)[i].node == n {
      var i :| 0 <= i < |offer| && offer[i] == n;
      assert Slots(offer)[i].node == n;
    }
  }

  lemma DrawDone(offer: seq<NodeInfo>, best: seq<Slot>, p: seq<NodeInfo>)
    requires Drawing(offer, best, p)
    ensures LevelDraw(offer, p)
  {
    SumLeftSigns(best);
  }

  lemma CanDraw(offer: seq<NodeInfo>, best: seq<Slot>, p: seq<NodeInfo>)
    requires Drawing(offer, best, p) && |p| < TotalRoom(offer)
    ensures best != [] && forall i :: 0 <= i < |best| ==> best[i].left >= 0
  {
    SumLeftSigns(best);
  }

  /** The nodes k hosts get from these slots: the t-th draw, `random.randrange`, picks a slot; a full one is
      dropped, any other gives its node to a host. */
  ghost function Drawn(best: seq<Slot>, draw: nat -> nat, t: nat, k: nat): seq<NodeInfo>
    decreases k, |best|
  {
    if k == 0 || best == [] then []
    else
      var i := draw(t) % |best|;
      if best[i].left == 0 then Drawn(best[..i] + best[i + 1..], draw, t + 1, k)
      else [best[i].node] + Drawn(best[i := Slot(best[i].node, best[i].left - 1)], draw, t + 1, k - 1)
  }

  /** The number of the first draw that is left over. */
  ghost function DrawnUntil(best: seq<Slot>, draw: nat -> nat, t: nat, k: nat): nat
    decreases k, |best|
  {
    if k == 0 || best == [] then t
    else
      var i := draw(t) % |best|;
      if best[i].left == 0 then DrawnUntil(best[..i] + best[i + 1..], draw, t + 1, k)
      else DrawnUntil(best[i := Slot(best[i].node, best[i].left - 1)], draw, t + 1, k - 1)
  }

  lemma DrawnPop(best: seq<Slot>, draw: nat -> nat, t: nat, k: nat, i: nat, best': seq<Slot>, p: seq<NodeInfo>)
    requires best != [] && k > 0 && i == draw(t) % |best| && best[i].left == 0 && best' == best[..i] + best[i + 1..]
    ensures p + Drawn(best', draw, t + 1, k) == p + Drawn(best, draw, t, k)
    ensures DrawnUntil(best', draw, t + 1, k) == DrawnUntil(best, draw, t, k)
  {
  }

  lemma DrawnHost(best: seq<Slot>, draw: nat -> nat, t: nat, k: nat, i: nat, best': seq<Slot>, p0: seq<NodeInfo>, p: seq<NodeInfo>)
    requires best != [] && k > 0 && i == draw(t) % |best| && best[i].left != 0
    requires best' == best[i := Slot(best[i].node, best[i].left - 1)] && p == p0 + [best[i].node]
    ensures p + Drawn(best', draw, t + 1, k - 1) == p0 + Drawn(best, draw, t, k)
    ensures DrawnUntil(best', draw, t + 1, k - 1) == DrawnUntil(best, draw, t, k)
  {
  }

  lemma PlacedOneMore(placed: seq<NodeInfo>, p0: seq<NodeInfo>, n: NodeInfo)
    ensures placed + p0 + [n] == placed + (p0 + [n])
  {
  }

  /** One turn of the loop below: a draw from a list that is not empty either pops a full node or assigns a host. */
  method DrawOnce(offer: seq<NodeInfo>, best0: seq<Slot>, draw: nat -> nat, t: nat, remaining0: nat,
                  result0: seq<Option<NodeInfo>>, hostIndex0: nat, ghost placed: seq<NodeInfo>, ghost p0: seq<NodeInfo>)
    returns (best: seq<Slot>, result: seq<Option<NodeInfo>>, hostIndex: nat, remaining: nat, ghost p: seq<NodeInfo>)
    requires Drawing(offer, best0, p0) && remaining0 > 0 && |p0| + remaining0 <= TotalRoom(offer)
    requires Holds(result0, placed + p0, |result0|) && hostIndex0 == |placed + p0| < |result0|
    ensures Drawing(offer, best, p) && |p| + remaining == |p0| + remaining0
    ensures Holds(result, placed + p, |result0|) && hostIndex == |placed + p|
    ensures p + Drawn(best, draw, t + 1, remaining) == p0 + Drawn(best0, draw, t, remaining0)
    ensures DrawnUntil(best, draw, t + 1, remaining) == DrawnUntil(best0, draw, t, remaining0)
    ensures remaining < remaining0 || (remaining == remaining0 && |best| < |best0|)
  {
    CanDraw(offer, best0, p0);
    var i := draw(t) % |best0|;
    var node, left := best0[i].node, best0[i].left;
    if left == 0 {
      best := best0[..i] + best0[i + 1..];
      result, hostIndex, remaining, p := result0, hostIndex0, remaining0, p0;
      PopFull(offer, best0, p0, i, best);
      DrawnPop(best0, draw, t, remaining0, i, best, p0);
    } else {
      best := best0[i := Slot(node, left - 1)];
      p, remaining := p0 + [node], remaining0 - 1;
      DrawOne(offer, best0, p0, i, best);
      DrawnHost(best0, draw, t, remaining0, i, best, p0, p);
      PlacedOneMore(placed, p0, node);
      ghost var all;
      result, hostIndex, all := WriteOne(result0, hostIndex0, node, placed + p0);
    }
  }

  /** The draw-and-pop loop: for every sequence of draws it ends, and it never draws from an empty list. */
  method DrawLevel(offer: seq<NodeInfo>, hostsForLevel: nat, draw: nat -> nat, t0: nat,
                   result0: seq<Option<NodeInfo>>, hostIndex0: nat, ghost placed: seq<NodeInfo>)
    returns (result: seq<Option<NodeInfo>>, hostIndex: nat, t: nat, ghost p: seq<NodeInfo>)
    requires AllHaveRoom(offer) && Distinct(offer) && hostsForLevel <= TotalRoom(offer)
    requires Holds(result0, placed, |result0|) && hostIndex0 == |placed| && hostIndex0 + hostsForLevel <= |result0|
    ensures |p| == hostsForLevel && LevelDraw(offer, p)
    ensures p == Drawn(Slots(offer), draw, t0, hostsForLevel) && t == DrawnUntil(Slots(offer), draw, t0, hostsForLevel)
    ensures Holds(result, placed + Drawn(Slots(offer), draw, t0, hostsForLevel), |result0|)
    ensures hostIndex == hostIndex0 + hostsForLevel
  {
    result, hostIndex, t := result0, hostIndex0, t0;
    var best := Slots(offer);
    p := [];
    assert placed + [] == placed;
    var remaining := hostsForLevel;
    DrawStart(offer);
    while remaining > 0
      invariant Drawing(offer, best, p)
      invariant remaining == hostsForLevel - |p| >= 0
      invariant Holds(result, placed + p, |result0|) && hostIndex == |placed + p|
      invariant p + Drawn(best, draw, t, remaining) == Drawn(Slots(offer), draw, t0, hostsForLevel)
      invariant DrawnUntil(best, draw, t, remaining) == DrawnUntil(Slots(offer), draw, t0, hostsForLevel)
      decreases remaining, |best|
    {
      best, result, hostIndex, remaining, p := DrawOnce(offer, best, draw, t, remaining, result, hostIndex, placed, p);
      t := t + 1;
    }
    assert p + [] == p;
    DrawDone(offer, best, p);
  }

  method WriteOne(result0: seq<Option<NodeInfo>>, hostIndex0: nat, node: NodeInfo, ghost all0: seq<NodeInfo>)
    returns (result: seq<Option<NodeInfo>>, hostIndex: nat, ghost all: seq<NodeInfo>)
    requires Holds(result0, all0, |result0|) && hostIndex0 == |all0| < |result0|
    ensures all == all0 + [node] && Holds(result, all, |result0|) && hostIndex == |all|
  {
    result, hostIndex, all := result0[hostIndex0 := Some(node)], hostIndex0 + 1, all0 + [node];
  }

  // ---------------------------------------------------------------- over all levels

  ghost predicate Offered(nodes: seq<NodeInfo>, n: NodeInfo) { n in Offer(nodes, n.count) }

  /** Only offered nodes are used, none beyond its room. */
  ghost predicate OnlyOffered(nodes: seq<NodeInfo>, levels: seq<int>, placed: seq<NodeInfo>) {
    forall n {:trigger Uses(placed, n)} ::
      Uses(placed, n) <= if Offered(nodes, n) && n.count in levels then n.Room() else 0
  }

  /** Every offer of these levels is used up. */
  ghost predicate UsedUp(nodes: seq<NodeInfo>, levels: seq<int>, placed: seq<NodeInfo>) {
    forall n {:trigger Uses(placed, n)} ::
      Offered(nodes, n) && n.count in levels ==> Uses(placed, n) == n.Room()
  }

  /** A level is used only when the offers of all lower levels are used up. */
  ghost predicate LowerFirst(nodes: seq<NodeInfo>, levels: seq<int>, placed: seq<NodeInfo>) {
    forall n, m {:trigger Uses(placed, n), Uses(placed, m)} ::
      Uses(placed, n) > 0 && Offered(nodes, m) && m.count in levels && m.count < n.count ==>
        Uses(placed, m) == m.Room()
  }

  /** What any sequence of draws places on some lowest levels: as many hosts as the offers have room for. */
  ghost predicate RandomPlacement(nodes: seq<NodeInfo>, levels: seq<int>, k: nat, placed: seq<NodeInfo>) {
    && |placed| == Min(k, OfferedRoom(nodes, levels))
    && OnlyOffered(nodes, levels, placed)
    && (|placed| == OfferedRoom(nodes, levels) ==> UsedUp(nodes, levels, placed))
    && LowerFirst(nodes, levels, placed)
  }

  lemma {:induction false} WithRoomMembers(level: seq<NodeInfo>, room: int, n: NodeInfo)
    ensures n in WithRoom(level, room) <==> n in level && n.Room() == room
  {
    if level != [] {
      WithRoomMembers(level[..|level| - 1], room, n);
    }
  }

  lemma {:induction false} WithRoomDistinct(level: seq<NodeInfo>, room: int)
    requires DistinctNames(level)
    ensures DistinctNames(WithRoom(level, room))
  {
    if level != [] {
      var o, n := level[..|level| - 1], level[|level| - 1];
      WithRoomDistinct(o, room);
      forall m | m in WithRoom(o, room) ensures m.hostname != n.hostname { WithRoomMembers(o, room, m); }
    }
  }

  lemma OfferOk(nodes: seq<NodeInfo>, c: int)
    requires DistinctNames(nodes)
    ensures AllHaveRoom(Offer(nodes, c)) && Distinct(Offer(nodes, c))
    ensures forall n | n in Offer(nodes, c) :: n.count == c
  {
    var level := AtLevel(Available(nodes), c);
    AvailableDistinct(nodes);
    LevelDistinct(Available(nodes), c);
    if level != [] {
      WithRoomDistinct(level, MaxRoom(level));
      forall n | n in Offer(nodes, c) ensures n.HasRoom() && n.count == c {
        WithRoomMembers(level, MaxRoom(level), n);
        AtLevelMembers(Available(nodes), c, n);
        AvailableMembers(nodes, n);
      }
      assert forall i | 0 <= i < |Offer(nodes, c)| :: Offer(nodes, c)[i] in Offer(nodes, c);
    }
  }

  /** The draws p of a level c above `levels` touch no node counted in `placed`. */
  lemma UsesApart(nodes: seq<NodeInfo>, levels: seq<int>, c: int, placed: seq<NodeInfo>, p: seq<NodeInfo>, n: NodeInfo)
    requires DistinctNames(nodes) && Below(levels, c) && OnlyOffered(nodes, levels, placed)
    requires LevelDraw(Offer(nodes, c), p)
    ensures Uses(placed + p, n) == if n.count == c then Uses(p, n) else Uses(placed, n)
    ensures Uses(p, n) <= if Offered(nodes, n) && n.count == c then n.Room() else 0
  {
    OfferOk(nodes, c);
    assert Uses(placed + p, n) == Uses(placed, n) + Uses(p, n);
  }

  lemma AddLevelOnlyOffered(nodes: seq<NodeInfo>, levels: seq<int>, c: int, placed: seq<NodeInfo>, p: seq<NodeInfo>)
    requires DistinctNames(nodes) && Below(levels, c) && OnlyOffered(nodes, levels, placed)
    requires LevelDraw(Offer(nodes, c), p)
    ensures OnlyOffered(nodes, levels + [c], placed + p)
  {
    var levels', placed' := levels + [c], placed + p;
    forall n ensures Uses(placed', n) <= if Offered(nodes, n) && n.count in levels' then n.Room() else 0 {
      UsesApart(nodes, levels, c, placed, p, n);
      assert Uses(placed, n) <= if Offered(nodes, n) && n.count in levels then n.Room() else 0;
    }
  }

  lemma AddLevelUsedUp(nodes: seq<NodeInfo>, levels: seq<int>, c: int, placed: seq<NodeInfo>, p: seq<NodeInfo>)
    requires DistinctNames(nodes) && Below(levels, c) && OnlyOffered(nodes, levels, placed)
    requires UsedUp(nodes, levels, placed)
    requires LevelDraw(Offer(nodes, c), p)
    ensures |p| == TotalRoom(Offer(nodes, c)) ==> UsedUp(nodes, levels + [c], placed + p)
    ensures LowerFirst(nodes, levels + [c], placed + p)
  {
    var levels', placed' := levels + [c], placed + p;
    forall n ensures Offered(nodes, n) && n.count in levels ==> Uses(placed', n) == n.Room() {
      UsesApart(nodes, levels, c, placed, p, n);
      assert Offered(nodes, n) && n.count in levels ==> Uses(placed, n) == n.Room();
    }
    forall n | |p| == TotalRoom(Offer(nodes, c)) && Offered(nodes, n) && n.count == c
      ensures Uses(placed', n) == n.Room()
    {
      UsesApart(nodes, levels, c, placed, p, n);
      assert Uses(p, n) == n.Room();
    }
    forall n ensures Uses(placed', n) > 0 ==> n.count <= c {
      UsesApart(nodes, levels, c, placed, p, n);
      assert Uses(placed, n) > 0 ==> n.count in levels;
    }
  }

  lemma AddLevel(nodes: seq<NodeInfo>, levels: seq<int>, c: int, k: nat, placed: seq<NodeInfo>, p: seq<NodeInfo>)
    requires DistinctNames(nodes) && Below(levels, c)
    requires RandomPlacement(nodes, levels, k, placed)
    requires LevelDraw(Offer(nodes, c), p) && |p| == Min(TotalRoom(Offer(nodes, c)), k - |placed|)
    ensures RandomPlacement(nodes, levels + [c], k, placed + p)
  {
    assert (levels + [c])[..|levels|] == levels;
    AddLevelOnlyOffered(nodes, levels, c, placed, p);
    if |placed| == OfferedRoom(nodes, levels) {
      AddLevelUsedUp(nodes, levels, c, placed, p);
    } else {
      assert placed + p == placed;
      AddNothing(nodes, levels, c, placed);
    }
  }

  lemma AddNothing(nodes: seq<NodeInfo>, levels: seq<int>, c: int, placed: seq<NodeInfo>)
    requires Below(levels, c) && OnlyOffered(nodes, levels, placed) && LowerFirst(nodes, levels, placed)
    ensures LowerFirst(nodes, levels + [c], placed)
  {
    forall n ensures Uses(placed, n) > 0 ==> n.count < c {
      assert Uses(placed, n) > 0 ==> n.count in levels;
    }
  }

  lemma {:induction false} MaxRoomIsMost(level: seq<NodeInfo>)
    requires level != []
    ensures forall i :: 0 <= i < |level| ==> level[i].Room() <= MaxRoom(level)
    ensures exists i :: 0 <= i < |level| && level[i].Room() == MaxRoom(level)
  {
    if |level| > 1 {
      MaxRoomIsMost(level[1..]);
      var i :| 0 <= i < |level[1..]| && level[1..][i].Room() == MaxRoom(level[1..]);
      assert level[i + 1] == level[1..][i] && level[0].Room() <= MaxRoom(level);
      assert forall j :: 1 <= j < |level| ==> level[j] == level[1..][j - 1];
    }
  }

  /** No node with room and the same count has more capacity left. */
  ghost predicate MostRoom(nodes: seq<NodeInfo>, n: NodeInfo) {
    && n in nodes && n.count < n.capacity
    && forall m <- nodes | m.count < m.capacity && m.count == n.count :: m.capacity <= n.capacity
  }

  /** A level offers exactly its nodes with most capacity left. */
  lemma OfferExactly(nodes: seq<NodeInfo>, c: int, n: NodeInfo)
    ensures n in Offer(nodes, c) <==> n.count == c && MostRoom(nodes, n)
  {
    var level := AtLevel(Available(nodes), c);
    forall m ensures m in level <==> m in nodes && m.HasRoom() && m.count == c {
      AvailableMembers(nodes, m);
      AtLevelMembers(Available(nodes), c, m);
    }
    if level != [] {
      MaxRoomIsMost(level);
      WithRoomMembers(level, MaxRoom(level), n);
      forall m | m in level ensures m.Room() <= MaxRoom(level) {
        var i :| 0 <= i < |level| && level[i] == m;
      }
      var i :| 0 <= i < |level| && level[i].Room() == MaxRoom(level);
      assert level[i] in level;
    }
  }

  /** What any sequence of draws may come to: only nodes with most room at their count are used, none beyond
      its room; a higher count is used only when all of these with a lower one are full; and a host is left
      out only when all of them are full. */
  ghost predicate RandomOutcome(nodes: seq<NodeInfo>, k: nat, placed: seq<NodeInfo>) {
    && |placed| <= k
    && (forall n {:trigger Uses(placed, n)} :: Uses(placed, n) <= if MostRoom(nodes, n) then n.capacity - n.count else 0)
    && (forall n, m {:trigger Uses(placed, n), Uses(placed, m)} ::
          Uses(placed, n) > 0 && MostRoom(nodes, m) && m.count < n.count ==> Uses(placed, m) == m.capacity - m.count)
    && (|placed| < k ==>
          forall n {:trigger Uses(placed, n)} :: MostRoom(nodes, n) ==> Uses(placed, n) == n.capacity - n.count)
  }

  lemma PlacementIsOutcome(nodes: seq<NodeInfo>, levels: seq<int>, k: nat, placed: seq<NodeInfo>)
    requires RandomPlacement(nodes, levels, k, placed)
    requires forall n | n in nodes && n.HasRoom() :: n.count in levels
    ensures RandomOutcome(nodes, k, placed)
  {
    forall n ensures Offered(nodes, n) <==> MostRoom(nodes, n) {
      OfferExactly(nodes, n.count, n);
    }
    forall n | MostRoom(nodes, n) ensures n.count in levels {}
  }

  /** Raises exactly when the capacities less the counts do not reach; otherwise every position up to some
      point has a node and the rest none. */
  method LeastLoadRandomBatch(nodes: seq<NodeInfo>, hosts: seq<Host>, draw: nat -> nat)
    returns (r: Option<seq<Option<NodeInfo>>>, ghost placed: seq<NodeInfo>)
    requires DistinctNames(nodes)
    ensures r.None? <==> hosts != [] && TotalRoom(nodes) < |hosts|
    ensures r.Some? ==> Holds(r.value, placed, |hosts|) && RandomOutcome(nodes, |hosts|, placed)
  {
    var hostCount := |hosts|;
    placed := [];
    if hosts == [] {
      return Some([]), [];
    }
    if TotalRoom(nodes) < hostCount {
      return None, [];
    }
    var result;
    ghost var keys;
    result, placed, keys := DrawLevels(nodes, hostCount, draw);
    PlacementIsOutcome(nodes, keys, hostCount, placed);
    return Some(result), placed;
  }

  lemma NothingPlaced(nodes: seq<NodeInfo>, k: nat)
    ensures RandomPlacement(nodes, [], k, [])
  {
    forall n ensures Uses([], n) == 0 {}
  }

  /** The loop over the load levels. */
  method DrawLevels(nodes: seq<NodeInfo>, hostCount: nat, draw: nat -> nat)
    returns (result: seq<Option<NodeInfo>>, ghost placed: seq<NodeInfo>, ghost levels: seq<int>)
    requires DistinctNames(nodes)
    ensures Holds(result, placed, hostCount) && RandomPlacement(nodes, levels, hostCount, placed)
    ensures forall n | n in nodes && n.HasRoom() :: n.count in levels
  {
    var offers, keys := OffersOf(nodes);
    result, placed, levels := seq(hostCount, _ => None), [], keys;
    var hostIndex: nat := 0;
    var l, t := 0, 0;
    NothingPlaced(nodes, hostCount);
    assert keys[..0] == [];
    while l < |keys|
      invariant 0 <= l <= |keys|
      invariant Holds(result, placed, hostCount) && hostIndex == |placed|
      invariant RandomPlacement(nodes, keys[..l], hostCount, placed)
    {
      if hostIndex >= hostCount {
        break;
      }
      result, hostIndex, t, placed := RandomLevel(nodes, keys, l, offers[l], draw, t, result, hostIndex, placed);
      l := l + 1;
    }
    SkipLevels(nodes, keys, l, hostCount, placed);
  }

  /** The load levels in ascending order, each with its nodes of most room. */
  method OffersOf(nodes: seq<NodeInfo>) returns (offers: seq<seq<NodeInfo>>, keys: seq<int>)
    ensures Ascending(keys) && |offers| == |keys|
    ensures forall n | n in nodes && n.HasRoom() :: n.count in keys
    ensures forall l :: 0 <= l < |keys| ==> offers[l] == Offer(nodes, keys[l])
  {
    var groups;
    groups, keys := GroupsOfAvailable(nodes);
    offers := [];
    for l := 0 to |keys|
      invariant |offers| == l
      invariant forall j :: 0 <= j < l ==> offers[j] == Offer(nodes, keys[j])
    {
      assert keys[l] in keys;
      var level := groups[keys[l]];
      offers := offers + [if level == [] then [] else WithRoom(level, MaxRoom(level))];
    }
  }

  /** One round of the loop over load levels. */
  method RandomLevel(ghost nodes: seq<NodeInfo>, ghost keys: seq<int>, ghost l: nat, best: seq<NodeInfo>,
                     draw: nat -> nat, t0: nat, result0: seq<Option<NodeInfo>>, hostIndex0: nat, ghost placed0: seq<NodeInfo>)
    returns (result: seq<Option<NodeInfo>>, hostIndex: nat, t: nat, ghost placed: seq<NodeInfo>)
    requires DistinctNames(nodes) && Ascending(keys) && l < |keys| && best == Offer(nodes, keys[l])
    requires Holds(result0, placed0, |result0|) && hostIndex0 == |placed0|
    requires RandomPlacement(nodes, keys[..l], |result0|, placed0)
    ensures Holds(result, placed, |result0|) && hostIndex == |placed|
    ensures RandomPlacement(nodes, keys[..l + 1], |result0|, placed)
    ensures placed == placed0 + Drawn(Slots(best), draw, t0, Max(0, Min(TotalRoom(best), |result0| - |placed0|)))
  {
    OfferOk(nodes, keys[l]);
    OfferedRoomSigns(nodes, keys[l]);
    var hostsForLevel := Min(TotalRoom(best), |result0| - hostIndex0);
    ghost var p;
    result, hostIndex, t, p := DrawLevel(best, hostsForLevel, draw, t0, result0, hostIndex0, placed0);
    placed := placed0 + p;
    AddNextLevel(nodes, keys, l, |result0|, placed0, p);
  }

  lemma AddNextLevel(nodes: seq<NodeInfo>, keys: seq<int>, l: nat, k: nat, placed: seq<NodeInfo>, p: seq<NodeInfo>)
    requires DistinctNames(nodes) && Ascending(keys) && l < |keys|
    requires RandomPlacement(nodes, keys[..l], k, placed)
    requires LevelDraw(Offer(nodes, keys[l]), p) && |p| == Min(TotalRoom(Offer(nodes, keys[l])), k - |placed|)
    ensures RandomPlacement(nodes, keys[..l + 1], k, placed + p)
  {
    BelowNext(keys, l);
    AddLevel(nodes, keys[..l], keys[l], k, placed, p);
  }

  lemma OfferedRoomSigns(nodes: seq<NodeInfo>, c: int)
    requires DistinctNames(nodes)
    ensures TotalRoom(Offer(nodes, c)) >= 0
  {
    OfferOk(nodes, c);
    var offer := Offer(nodes, c);
    TotalRoomPrefix(offer, 0, |offer|);
    assert offer[..|offer|] == offer;
  }

  /** Levels after the break get nothing. */
  lemma {:induction false} SkipLevels(nodes: seq<NodeInfo>, keys: seq<int>, l: nat, k: nat, placed: seq<NodeInfo>)
    requires DistinctNames(nodes) && Ascending(keys) && l <= |keys|
    requires RandomPlacement(nodes, keys[..l], k, placed) && (l == |keys| || |placed| >= k)
    ensures RandomPlacement(nodes, keys, k, placed)
    decreases |keys| - l
  {
    if l == |keys| {
      assert keys[..l] == keys;
    } else {
      OfferedRoomSigns(nodes, keys[l]);
      BelowNext(keys, l);
      SkipLevel(nodes, keys[..l], keys[l], k, placed);
      SkipLevels(nodes, keys, l + 1, k, placed);
    }
  }

  lemma SkipLevel(nodes: seq<NodeInfo>, before: seq<int>, c: int, k: nat, placed: seq<NodeInfo>)
    requires DistinctNames(nodes) && Below(before, c) && |placed| >= k
    requires RandomPlacement(nodes, before, k, placed) && TotalRoom(Offer(nodes, c)) >= 0
    ensures RandomPlacement(nodes, before + [c], k, placed)
  {
    OfferOk(nodes, c);
    var offer := Offer(nodes, c);
    assert offer[..|offer|] == offer;
    TotalRoomPrefix(offer, 0, |offer|);
    assert placed + [] == placed;
    AddLevel(nodes, before, c, k, placed, []);
  }

  // ---------------------------------------------------------------- load_weighted_random

  function Candidates(nodes: seq<NodeInfo>, remaining: map<NodeInfo, int>): (r: seq<NodeInfo>)
    requires forall i :: 0 <= i < |nodes| ==> nodes[i] in remaining
    ensures forall i :: 0 <= i < |r| ==> r[i] in nodes && r[i] in remaining && remaining[r[i]] > 0
  {
    if nodes == [] then []
    else
      var o, n := nodes[..|nodes| - 1], nodes[|nodes| - 1];
      Candidates(o, remaining) + (if remaining[n] > 0 then [n] else [])
  }

  /** The room left on the nodes that have any. */
  function PositiveRoom(nodes: seq<NodeInfo>, remaining: map<NodeInfo, int>): nat
    requires forall i :: 0 <= i < |nodes| ==> nodes[i] in remaining
  {
    if nodes == [] then 0
    else PositiveRoom(nodes[..|nodes| - 1], remaining) + Max(0, remaining[nodes[|nodes| - 1]])
  }

  lemma {:induction false} SomeCandidate(nodes: seq<NodeInfo>, remaining: map<NodeInfo, int>)
    requires forall i :: 0 <= i < |nodes| ==> nodes[i] in remaining
    ensures PositiveRoom(nodes, remaining) > 0 ==> Candidates(nodes, remaining) != []
  {
    if nodes != [] {
      SomeCandidate(nodes[..|nodes| - 1], remaining);
    }
  }

  lemma {:induction false} PositiveRoomCovers(nodes: seq<NodeInfo>, remaining: map<NodeInfo, int>)
    requires forall i :: 0 <= i < |nodes| ==> nodes[i] in remaining && remaining[nodes[i]] == nodes[i].Room()
    ensures PositiveRoom(nodes, remaining) >= TotalRoom(nodes)
  {
    if nodes != [] {
      PositiveRoomCovers(nodes[..|nodes| - 1], remaining);
    }
  }

  lemma {:induction false} PositiveRoomUse(nodes: seq<NodeInfo>, remaining: map<NodeInfo, int>, n: NodeInfo)
    requires Distinct(nodes) && forall i :: 0 <= i < |nodes| ==> nodes[i] in remaining
    requires n in remaining && remaining[n] > 0
    ensures PositiveRoom(nodes, remaining[n := remaining[n] - 1]) ==
              PositiveRoom(nodes, remaining) - (if n in nodes then 1 else 0)
  {
    if nodes != [] {
      Snoc(nodes);
      PositiveRoomUse(nodes[..|nodes| - 1], remaining, n);
    }
  }

  function SumReal(ws: seq<real>): real {
    if ws == [] then 0.0 else SumReal(ws[..|ws| - 1]) + ws[|ws| - 1]
  }

  /** `random.random`. */
  type Fraction = x: real | 0.0 <= x <= 1.0 witness 0.0

  function Product(a: real, b: real): (p: real)
    ensures a > 0.0 && b > 0.0 ==> p > 0.0
  {
    a * b
  }

  lemma ProductBetween(a: real, lo: real, b: real, hi: real)
    requires a >= 0.0 && lo <= b <= hi
    ensures Product(a, lo) <= Product(a, b) <= Product(a, hi)
  {
    assert a * (b - lo) >= 0.0 && a * (hi - b) >= 0.0;
  }

  /** `random.uniform`, from the fraction drawn: from one end of the interval to the other. */
  function Uniform(lo: real, hi: real, u: Fraction): (x: real)
    ensures lo <= hi ==> lo <= x <= hi
    ensures (u == 0.0 ==> x == lo) && (u == 1.0 ==> x == hi)
  {
    ProductBetween(if lo <= hi then hi - lo else 0.0, 0.0, u, 1.0);
    lo + Product(hi - lo, u)
  }

  /** A square of the base with up to 5% of noise either way. */
  function Weight(base: real, u: Fraction): real {
    Product(Product(base, base), Uniform(0.95, 1.05, u))
  }

  lemma {:induction false} SumRealPositive(ws: seq<real>)
    requires forall i :: 0 <= i < |ws| ==> ws[i] > 0.0
    ensures SumReal(ws) >= 0.0
  {
    if ws != [] {
      SumRealPositive(ws[..|ws| - 1]);
    }
  }

  /** A weight is the square, give or take 5%, as the fraction drawn says. */
  lemma WeightRange(base: real, u: Fraction)
    requires base > 0.0
    ensures Weight(base, u) > 0.0
    ensures Product(base * base, 0.95) <= Weight(base, u) <= Product(base * base, 1.05)
    ensures u == 0.0 ==> Weight(base, u) == Product(base * base, 0.95)
    ensures u == 1.0 ==> Weight(base, u) == Product(base * base, 1.05)
  {
    ProductBetween(Product(base, base), 0.95, Uniform(0.95, 1.05, u), 1.05);
  }

  /** The weight of a node comes from the room left on it plus one; the draws begin with the t-th. */
  ghost predicate AreWeights(ws: seq<real>, candidates: seq<NodeInfo>, remaining: map<NodeInfo, int>,
                             random: nat -> Fraction, t: nat) {
    && |ws| == |candidates|
    && forall i :: 0 <= i < |ws| ==>
         candidates[i] in remaining && ws[i] == Weight((remaining[candidates[i]] + 1) as real, random(t + i))
  }

  method NoisyWeights(candidates: seq<NodeInfo>, remaining: map<NodeInfo, int>, random: nat -> Fraction, t: nat)
    returns (ws: seq<real>)
    requires forall i :: 0 <= i < |candidates| ==> candidates[i] in remaining && remaining[candidates[i]] > 0
    ensures AreWeights(ws, candidates, remaining, random, t)
    ensures forall i :: 0 <= i < |ws| ==> ws[i] > 0.0
  {
    ws := [];
    for i := 0 to |candidates|
      invariant |ws| == i
      invariant forall j :: 0 <= j < i ==>
                  ws[j] > 0.0 && ws[j] == Weight((remaining[candidates[j]] + 1) as real, random(t + j))
    {
      var w := (remaining[candidates[i]] + 1) as real;
      WeightRange(w, random(t + i));
      ws := ws + [Product(Product(w, w), Uniform(0.95, 1.05, random(t + i)))];
    }
  }

  /** The i-th candidate is the one whose part of the total the draw r falls into. */
  ghost predicate Hits(ws: seq<real>, r: real, i: nat) {
    i < |ws| && r <= SumReal(ws[..i + 1]) && forall j :: 0 < j <= i ==> SumReal(ws[..j]) < r
  }

  ghost predicate PickedBy(candidates: seq<NodeInfo>, ws: seq<real>, r: real, n: NodeInfo) {
    |ws| == |candidates| && exists i: nat :: Hits(ws, r, i) && candidates[i] == n
  }

  /** Walk the running sum up to the draw r: with exact sums some candidate is always reached. */
  method SelectWeighted(candidates: seq<NodeInfo>, ws: seq<real>, r: real) returns (selected: Option<NodeInfo>)
    requires |ws| == |candidates| > 0 && 0.0 <= r <= SumReal(ws)
    ensures selected.Some? && PickedBy(candidates, ws, r, selected.value)
  {
    selected := None;
    var acc := 0.0;
    assert ws[..0] == [] && ws[..|ws|] == ws;
    for i := 0 to |candidates|
      invariant acc == SumReal(ws[..i])
      invariant forall j :: 0 < j <= i ==> SumReal(ws[..j]) < r
    {
      assert ws[..i + 1][..i] == ws[..i];
      acc := acc + ws[i];
      if r <= acc {
        assert Hits(ws, r, i);
        return Some(candidates[i]);
      }
    }
  }

  ghost predicate Known(nodes: seq<NodeInfo>, remaining: map<NodeInfo, int>) {
    forall i :: 0 <= i < |nodes| ==> nodes[i] in remaining
  }

  ghost predicate RoomKept(remaining: map<NodeInfo, int>, result: seq<NodeInfo>, n: NodeInfo)
    requires n in remaining
  {
    Uses(result, n) + remaining[n] == n.Room() && remaining[n] >= Min(0, n.Room())
  }

  /** Uses so far and room left add up to the room every node began with; room that was there is never
      overdrawn and over-full nodes are never touched. */
  ghost predicate Balanced(nodes: seq<NodeInfo>, remaining: map<NodeInfo, int>, result: seq<NodeInfo>) {
    && Known(nodes, remaining)
    && (forall n :: n in nodes && n in remaining ==> RoomKept(remaining, result, n))
    && (forall n {:trigger Uses(result, n)} :: n !in nodes ==> Uses(result, n) == 0)
  }

  lemma UsesOneMore(result: seq<NodeInfo>, n: NodeInfo, m: NodeInfo)
    ensures Uses(result + [n], m) == Uses(result, m) + (if m == n then 1 else 0)
  {
  }

  lemma RoomKeptOneMore(remaining: map<NodeInfo, int>, result: seq<NodeInfo>, n: NodeInfo, m: NodeInfo)
    requires n in remaining && remaining[n] > 0 && m in remaining && RoomKept(remaining, result, m)
    ensures RoomKept(remaining[n := remaining[n] - 1], result + [n], m)
  {
    UsesOneMore(result, n, m);
  }

  lemma UseOne(nodes: seq<NodeInfo>, remaining: map<NodeInfo, int>, result: seq<NodeInfo>, n: NodeInfo)
    requires Balanced(nodes, remaining, result) && n in nodes && n in remaining && remaining[n] > 0
    ensures Balanced(nodes, remaining[n := remaining[n] - 1], result + [n])
  {
    var remaining' := remaining[n := remaining[n] - 1];
    forall m | m in nodes && m in remaining' ensures RoomKept(remaining', result + [n], m) {
      assert RoomKept(remaining, result, m);
      RoomKeptOneMore(remaining, result, n, m);
    }
    forall m | m !in nodes ensures Uses(result + [n], m) == 0 {
      UsesOneMore(result, n, m);
    }
  }

  lemma BalancedStart(nodes: seq<NodeInfo>, remaining: map<NodeInfo, int>)
    requires remaining == map n | n in nodes :: n.Room()
    ensures Balanced(nodes, remaining, [])
  {
    forall n ensures Uses([], n) == 0 {}
  }

  /** One weighted choice: a weight is drawn for every candidate, then a point of their sum. */
  ghost predicate ChosenBy(candidates: seq<NodeInfo>, remaining: map<NodeInfo, int>, random: nat -> Fraction, t: nat, n: NodeInfo) {
    exists ws: seq<real> ::
      && AreWeights(ws, candidates, remaining, random, t)
      && PickedBy(candidates, ws, Uniform(0.0, SumReal(ws), random(t + |candidates|)), n)
  }

  /** The nodes that have room left after these choices, in the order of the list. */
  ghost function StillFree(nodes: seq<NodeInfo>, chosen: seq<NodeInfo>): seq<NodeInfo> {
    if nodes == [] then []
    else
      var o, n := nodes[..|nodes| - 1], nodes[|nodes| - 1];
      StillFree(o, chosen) + (if Uses(chosen, n) < n.capacity - n.count then [n] else [])
  }

  ghost function RoomLeft(nodes: seq<NodeInfo>, chosen: seq<NodeInfo>): map<NodeInfo, int> {
    map n | n in nodes :: n.capacity - n.count - Uses(chosen, n)
  }

  lemma {:induction false} CandidatesAreFree(nodes: seq<NodeInfo>, remaining: map<NodeInfo, int>, chosen: seq<NodeInfo>)
    requires Known(nodes, remaining) && forall n :: n in nodes && n in remaining ==> RoomKept(remaining, chosen, n)
    ensures Candidates(nodes, remaining) == StillFree(nodes, chosen)
  {
    if nodes != [] {
      CandidatesAreFree(nodes[..|nodes| - 1], remaining, chosen);
    }
  }

  /** How many draws these choices took. */
  ghost function DrawsTaken(nodes: seq<NodeInfo>, chosen: seq<NodeInfo>): nat {
    if chosen == [] then 0
    else
      var before := chosen[..|chosen| - 1];
      DrawsTaken(nodes, before) + |StillFree(nodes, before)| + 1
  }

  /** The choice after some others: weighted by squared room, among the nodes with room, by the next draws. */
  ghost predicate WeightedChoice(nodes: seq<NodeInfo>, chosen: seq<NodeInfo>, random: nat -> Fraction, n: NodeInfo) {
    ChosenBy(StillFree(nodes, chosen), RoomLeft(nodes, chosen), random, DrawsTaken(nodes, chosen), n)
  }

  lemma SameWeights(ws: seq<real>, candidates: seq<NodeInfo>, remaining: map<NodeInfo, int>, chosen: seq<NodeInfo>,
                    nodes: seq<NodeInfo>, random: nat -> Fraction, t: nat)
    requires Balanced(nodes, remaining, chosen) && AreWeights(ws, candidates, remaining, random, t)
    requires forall i :: 0 <= i < |candidates| ==> candidates[i] in nodes
    ensures AreWeights(ws, candidates, RoomLeft(nodes, chosen), random, t)
  {
    forall i | 0 <= i < |candidates| ensures remaining[candidates[i]] == RoomLeft(nodes, chosen)[candidates[i]] {
      assert RoomKept(remaining, chosen, candidates[i]);
    }
  }

  lemma ChoiceIsWeighted(nodes: seq<NodeInfo>, remaining: map<NodeInfo, int>, chosen: seq<NodeInfo>,
                         ws: seq<real>, candidates: seq<NodeInfo>, random: nat -> Fraction, t: nat, n: NodeInfo)
    requires Balanced(nodes, remaining, chosen) && candidates == Candidates(nodes, remaining) && t == DrawsTaken(nodes, chosen)
    requires AreWeights(ws, candidates, remaining, random, t)
    requires PickedBy(candidates, ws, Uniform(0.0, SumReal(ws), random(t + |candidates|)), n)
    ensures WeightedChoice(nodes, chosen, random, n)
  {
    SameWeights(ws, candidates, remaining, chosen, nodes, random, t);
    CandidatesAreFree(nodes, remaining, chosen);
    ChosenFrom(ws, candidates, RoomLeft(nodes, chosen), random, t, n);
  }

  lemma ChosenFrom(ws: seq<real>, candidates: seq<NodeInfo>, remaining: map<NodeInfo, int>, random: nat -> Fraction, t: nat, n: NodeInfo)
    requires AreWeights(ws, candidates, remaining, random, t)
    requires PickedBy(candidates, ws, Uniform(0.0, SumReal(ws), random(t + |candidates|)), n)
    ensures ChosenBy(candidates, remaining, random, t, n)
  {
  }

  /** The choice for one host; neither of its two exceptions can be raised while there is room. */
  method SelectNode(nodes: seq<NodeInfo>, remaining: map<NodeInfo, int>, random: nat -> Fraction, t: nat)
    returns (selected: NodeInfo, t': nat)
    requires (forall i :: 0 <= i < |nodes| ==> nodes[i] in remaining) && PositiveRoom(nodes, remaining) > 0
    ensures selected in nodes && selected in remaining && remaining[selected] > 0
    ensures ChosenBy(Candidates(nodes, remaining), remaining, random, t, selected)
    ensures t' == t + |Candidates(nodes, remaining)| + 1
  {
    SomeCandidate(nodes, remaining);
    var candidates := Candidates(nodes, remaining);
    if candidates == [] {
      assert false;  // "No available nodes during selection"
    }
    var ws := NoisyWeights(candidates, remaining, random, t);
    SumRealPositive(ws);
    var choice := SelectWeighted(candidates, ws, Uniform(0.0, SumReal(ws), random(t + |candidates|)));
    ChosenFrom(ws, candidates, remaining, random, t, choice.value);
    if choice.None? || remaining[choice.value] <= 0 {
      assert false;  // "Selection failed unexpectedly"
    }
    return choice.value, t + |candidates| + 1;
  }

  ghost predicate ChoiceAt(nodes: seq<NodeInfo>, result: seq<NodeInfo>, random: nat -> Fraction, h: int)
    requires 0 <= h < |result|
  {
    WeightedChoice(nodes, result[..h], random, result[h])
  }

  lemma ChoiceStays(nodes: seq<NodeInfo>, result: seq<NodeInfo>, random: nat -> Fraction, n: NodeInfo, h: nat)
    requires h < |result| && ChoiceAt(nodes, result, random, h)
    ensures ChoiceAt(nodes, result + [n], random, h)
  {
    assert (result + [n])[..h] == result[..h];
  }

  lemma OneMoreChoice(nodes: seq<NodeInfo>, result: seq<NodeInfo>, random: nat -> Fraction, n: NodeInfo)
    requires WeightedChoice(nodes, result, random, n)
    requires AllWeighted(nodes, result, random)
    ensures AllWeighted(nodes, result + [n], random)
    ensures DrawsTaken(nodes, result + [n]) == DrawsTaken(nodes, result) + |StillFree(nodes, result)| + 1
  {
    assert (result + [n])[..|result|] == result;
    forall h | 0 <= h < |result| ensures ChoiceAt(nodes, result + [n], random, h) {
      ChoiceStays(nodes, result, random, n, h);
    }
  }

  method LoadWeightedRandomBatch(nodes: seq<NodeInfo>, hosts: seq<Host>, random: nat -> Fraction)
    returns (r: Option<seq<NodeInfo>>, ghost left: map<NodeInfo, int>)
    requires DistinctNames(nodes)
    ensures r.None? <==> |hosts| > TotalRoom(nodes)
    ensures r.Some? ==> |r.value| == |hosts| && Balanced(nodes, left, r.value)
    // every choice is a weighted draw among the nodes the earlier choices left room on
    ensures r.Some? ==> AllWeighted(nodes, r.value, random)
  {
    var remaining := map n | n in nodes :: n.Room();
    left := remaining;
    if |hosts| > TotalRoom(nodes) {
      return None, left;
    }
    PositiveRoomCovers(nodes, remaining);
    BalancedStart(nodes, remaining);
    DistinctFromNames(nodes);
    var result: seq<NodeInfo> := [];
    var t := 0;
    for h := 0 to |hosts|
      invariant |result| == h && Balanced(nodes, remaining, result) && AllWeighted(nodes, result, random)
      invariant PositiveRoom(nodes, remaining) >= |hosts| - h && t == DrawsTaken(nodes, result)
    {
      result, remaining, t := ChooseOne(nodes, result, remaining, random, t);
    }
    return Some(result), remaining;
  }

  ghost predicate AllWeighted(nodes: seq<NodeInfo>, result: seq<NodeInfo>, random: nat -> Fraction) {
    forall h :: 0 <= h < |result| ==> ChoiceAt(nodes, result, random, h)
  }

  /** One turn of the loop over the hosts. */
  method ChooseOne(nodes: seq<NodeInfo>, result0: seq<NodeInfo>, remaining0: map<NodeInfo, int>, random: nat -> Fraction, t0: nat)
    returns (result: seq<NodeInfo>, remaining: map<NodeInfo, int>, t: nat)
    requires Distinct(nodes) && Balanced(nodes, remaining0, result0) && AllWeighted(nodes, result0, random)
    requires PositiveRoom(nodes, remaining0) > 0 && t0 == DrawsTaken(nodes, result0)
    ensures |result| == |result0| + 1 && Balanced(nodes, remaining, result) && AllWeighted(nodes, result, random)
    ensures PositiveRoom(nodes, remaining) == PositiveRoom(nodes, remaining0) - 1 && t == DrawsTaken(nodes, result)
  {
    var selected;
    selected, t := SelectNode(nodes, remaining0, random, t0);
    remaining := remaining0[selected := remaining0[selected] - 1];
    result := result0 + [selected];
    WeightedOneMore(nodes, result0, remaining0, random, t0, Candidates(nodes, remaining0), selected, result, t);
    RoomOneLess(nodes, result0, remaining0, selected, result, remaining);
  }

  lemma WeightedOneMore(nodes: seq<NodeInfo>, result0: seq<NodeInfo>, remaining: map<NodeInfo, int>, random: nat -> Fraction,
                        t0: nat, candidates: seq<NodeInfo>, n: NodeInfo, result: seq<NodeInfo>, t: nat)
    requires Balanced(nodes, remaining, result0) && AllWeighted(nodes, result0, random) && t0 == DrawsTaken(nodes, result0)
    requires candidates == Candidates(nodes, remaining) && ChosenBy(candidates, remaining, random, t0, n)
    requires result == result0 + [n] && t == t0 + |candidates| + 1
    ensures AllWeighted(nodes, result, random) && t == DrawsTaken(nodes, result)
  {
    CandidatesAreFree(nodes, remaining, result0);
    var ws :| AreWeights(ws, candidates, remaining, random, t0)
              && PickedBy(candidates, ws, Uniform(0.0, SumReal(ws), random(t0 + |candidates|)), n);
    ChoiceIsWeighted(nodes, remaining, result0, ws, candidates, random, t0, n);
    OneMoreChoice(nodes, result0, random, n);
  }

  lemma RoomOneLess(nodes: seq<NodeInfo>, result0: seq<NodeInfo>, remaining0: map<NodeInfo, int>, n: NodeInfo,
                    result: seq<NodeInfo>, remaining: map<NodeInfo, int>)
    requires Distinct(nodes) && Balanced(nodes, remaining0, result0) && n in nodes && n in remaining0 && remaining0[n] > 0
    requires result == result0 + [n] && remaining == remaining0[n := remaining0[n] - 1]
    ensures Balanced(nodes, remaining, result)
    ensures PositiveRoom(nodes, remaining) == PositiveRoom(nodes, remaining0) - 1
  {
    UseOne(nodes, remaining0, result0, n);
    PositiveRoomUse(nodes, remaining0, n);
  }

  lemma DistinctFromNames(nodes: seq<NodeInfo>)
    requires DistinctNames(nodes)
    ensures Distinct(nodes)
  {
  }
}
