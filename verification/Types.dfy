/** Entities shared by the controller, the node workers and the schedulers. */
module Types {
  datatype Option<+T> = None | Some(value: T)

  type Host = string
  type NodeName = string
  type Queue = string

  /** What a node publishes about itself. Nothing forbids count > capacity or a negative capacity. */
  datatype NodeInfo = NodeInfo(hostname: NodeName, count: int, capacity: int, queue: Queue)
  {
    function Room(): int { capacity - count }

    predicate HasRoom() { count < capacity }
  }

  function NodeQueue(node: NodeName): Queue { "NodeQ_" + node }

  function HostQueue(host: Host): Queue { "HostQ_" + host }

  /** Every host and every node has a queue of its own. */
  lemma QueuesApart(g: string, h: string)
    ensures HostQueue(g) == HostQueue(h) <==> g == h
    ensures NodeQueue(g) == NodeQueue(h) <==> g == h
    ensures HostQueue(g) != NodeQueue(h)
  {
    assert HostQueue(g)[6..] == g && HostQueue(h)[6..] == h;
    assert NodeQueue(g)[6..] == g && NodeQueue(h)[6..] == h;
    assert HostQueue(g)[0] == 'H' && NodeQueue(h)[0] == 'N';
  }

  function Min(a: int, b: int): int { if a <= b then a else b }

  function Max(a: int, b: int): int { if a <= b then b else a }
}
