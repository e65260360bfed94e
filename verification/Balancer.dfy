/** JudgeWorkerBalancer: least load first, round robin among equals. */
module Balancer {
  import opened Arith

  /** std::numeric_limits<std::uint64_t>::max() */
  const MAX_LOAD: nat := 0xFFFF_FFFF_FFFF_FFFF

  datatype WorkerConfig = WorkerConfig(host: string, port: int, healthPath: string, judgePath: string, timeoutMs: int)

  datatype WorkerNode = WorkerNode(cfg: WorkerConfig, load: nat, online: bool)

  predicate SameEndpoint(a: WorkerConfig, b: WorkerConfig) {
    a.host == b.host && a.port == b.port
  }

  /** A worker the loop can take: its load is below the initial best_load. */
  predicate Selectable(node: WorkerNode) {
    node.online && node.load < MAX_LOAD
  }

  /** How far behind the cursor a node comes in cyclic order. */
  function Offset(n: nat, next: nat, i: nat): (o: nat)
    requires n > 0
    ensures o < n
  {
    (i - next) % n
  }

  /** `b` is the first of the least loaded online workers, counted cyclically from the cursor. */
  ghost predicate IsChoice(nodes: seq<WorkerNode>, next: nat, b: nat) {
    && b < |nodes| && Selectable(nodes[b])
    && forall i :: 0 <= i < |nodes| && nodes[i].online ==>
         && nodes[b].load <= nodes[i].load
         && (nodes[b].load == nodes[i].load ==> Offset(|nodes|, next, b) <= Offset(|nodes|, next, i))
  }

  lemma OffsetInjective(n: nat, next: nat, i: nat, j: nat)
    requires i < n && j < n && Offset(n, next, i) == Offset(n, next, j)
    ensures i == j
  {
    var a, b := (i - next) / n, (j - next) / n;
    assert i - next == n * a + (i - next) % n;
    assert j - next == n * b + (j - next) % n;
    assert n * (a - b) == n * a - n * b;
    SmallMultiple(n, a - b);
  }

  /** Position `offset` of the cyclic scan. */
  lemma ScanPosition(n: nat, next: nat, offset: nat)
    requires offset < n
    ensures (next + offset) % n < n && Offset(n, next, (next + offset) % n) == offset
  {
    var i, q := (next + offset) % n, (next + offset) / n;
    assert next + offset == n * q + i;
    assert n * (-q) == -(n * q);
    DivMod(i - next, n, -q, offset);
  }

  lemma OffsetSmall(n: nat, next: nat, i: nat)
    requires i < n && next < n
    ensures Offset(n, next, i) == if i >= next then i - next else i - next + n
  {
    if i >= next { DivMod(i - next, n, 0, i - next); } else { DivMod(i - next, n, -1, i - next + n); }
  }

  lemma ChoiceUnique(nodes: seq<WorkerNode>, next: nat, a: nat, b: nat)
    requires IsChoice(nodes, next, a) && IsChoice(nodes, next, b)
    ensures a == b
  {
    OffsetInjective(|nodes|, next, a, b);
  }

  ghost predicate DistinctEndpoints(nodes: seq<WorkerNode>) {
    forall i, j :: 0 <= i < j < |nodes| ==> !SameEndpoint(nodes[i].cfg, nodes[j].cfg)
  }

  // The saturating and resetting updates; an unknown id changes nothing.

  function Released(nodes: seq<WorkerNode>, id: int): seq<WorkerNode> {
    if 0 <= id < |nodes| && nodes[id].load > 0
    then nodes[id := nodes[id].(load := nodes[id].load - 1)] else nodes
  }

  function Offlined(nodes: seq<WorkerNode>, id: int): seq<WorkerNode> {
    if 0 <= id < |nodes| then nodes[id := nodes[id].(online := false, load := 0)] else nodes
  }

  function Onlined(nodes: seq<WorkerNode>, id: int): seq<WorkerNode> {
    if 0 <= id < |nodes| then nodes[id := nodes[id].(online := true)] else nodes
  }

  /** A new endpoint joins behind the others; a known one starts over. */
  ghost predicate Registers(nodes: seq<WorkerNode>, cfg: WorkerConfig, nodes': seq<WorkerNode>) {
    || (nodes' == nodes + [WorkerNode(cfg, 0, true)]
        && forall i :: 0 <= i < |nodes| ==> !SameEndpoint(nodes[i].cfg, cfg))
    || exists id :: 0 <= id < |nodes| && SameEndpoint(nodes[id].cfg, cfg)
                    && nodes' == nodes[id := WorkerNode(cfg, 0, true)]
  }

  /** A selection that succeeds. */
  ghost predicate Selects(nodes: seq<WorkerNode>, next: nat, b: nat, nodes': seq<WorkerNode>, next': nat) {
    && IsChoice(nodes, next, b)
    && nodes' == nodes[b := nodes[b].(load := nodes[b].load + 1)]
    && next' == (b + 1) % |nodes|
  }

  class JudgeWorkerBalancer {
    var nodes: seq<WorkerNode>
    var next: nat

    /** Every endpoint is registered once, and the cursor stays inside the list. */
    ghost predicate Valid()
      reads this
    {
      && (next < |nodes| || next == 0)
      && DistinctEndpoints(nodes)
    }

    constructor ()
      ensures Valid() && nodes == [] && next == 0
    {
      nodes, next := [], 0;
    }

    method UpsertWorker(cfg: WorkerConfig) returns (id: nat, refreshed: bool)
      requires Valid()
      modifies this
      ensures Valid() && next == old(next)
      ensures refreshed <==> exists i :: 0 <= i < |old(nodes)| && SameEndpoint(old(nodes)[i].cfg, cfg)
      ensures id < |nodes| && SameEndpoint(nodes[id].cfg, cfg)
      ensures refreshed ==> id < |old(nodes)| && SameEndpoint(old(nodes)[id].cfg, cfg)
                            && nodes == old(nodes)[id := WorkerNode(cfg, 0, true)]
      ensures !refreshed ==> nodes == old(nodes) + [WorkerNode(cfg, 0, true)]
    {
      for i := 0 to |nodes|
        invariant forall j :: 0 <= j < i ==> !SameEndpoint(nodes[j].cfg, cfg)
      {
        if SameEndpoint(nodes[i].cfg, cfg) {
          nodes := nodes[i := nodes[i].(cfg := cfg)];
          nodes := nodes[i := nodes[i].(load := 0)];
          nodes := nodes[i := nodes[i].(online := true)];
          return i, true;
        }
      }
      nodes := nodes + [WorkerNode(cfg, 0, true)];
      return |nodes| - 1, false;
    }

    method SelectWorker() returns (ok: bool, id: nat, loadBefore: nat)
      requires Valid()
      modifies this
      ensures Valid()
      ensures ok <==> exists i :: 0 <= i < |old(nodes)| && Selectable(old(nodes)[i])
      ensures ok <==> exists i :: 0 <= i < |old(nodes)| && old(nodes)[i].online
                                  && old(nodes)[i].load < 0xFFFF_FFFF_FFFF_FFFF
      ensures !ok ==> nodes == old(nodes) && next == old(next)
      ensures ok ==> IsChoice(old(nodes), old(next), id) && loadBefore == old(nodes)[id].load
      ensures ok ==> nodes == old(nodes)[id := old(nodes)[id].(load := loadBefore + 1)]
      ensures ok ==> next == (id + 1) % |nodes|
    {
      id, loadBefore := 0, 0;
      if |nodes| == 0 { return false, id, loadBefore; }
      var best := -1;
      var bestLoad := MAX_LOAD;
      var n := |nodes|;
      var offset := 0;
      while offset < n
        invariant 0 <= offset <= n && nodes == old(nodes) && next == old(next) && n == |nodes|
        invariant best == -1 ==> bestLoad == MAX_LOAD
        invariant best != -1 ==> 0 <= best < n && Selectable(nodes[best]) && bestLoad == nodes[best].load
        invariant best != -1 ==> Offset(n, next, best) < offset
        invariant forall i :: 0 <= i < n && nodes[i].online && Offset(n, next, i) < offset ==>
                    && bestLoad <= nodes[i].load
                    && (best == -1 ==> nodes[i].load >= MAX_LOAD)
                    && (best != -1 && nodes[i].load == bestLoad ==> Offset(n, next, best) <= Offset(n, next, i))
      {
        var i := (next + offset) % n;
        ScanPosition(n, next, offset);
        forall j | 0 <= j < n && Offset(n, next, j) == offset ensures j == i { OffsetInjective(n, next, i, j); }
        offset := offset + 1;
        if !nodes[i].online { continue; }
        if nodes[i].load < bestLoad {
          bestLoad := nodes[i].load;
          best := i;
        }
      }
      if best == -1 { return false, id, loadBefore; }
      nodes := nodes[best := nodes[best].(load := nodes[best].load + 1)];
      next := (best + 1) % n;
      return true, best, bestLoad;
    }

    method ReleaseWorkerLoad(id: int)
      requires Valid()
      modifies this`nodes
      ensures Valid() && nodes == Released(old(nodes), id)
      ensures |nodes| == |old(nodes)| && forall i :: 0 <= i < |nodes| && i != id ==> nodes[i] == old(nodes)[i]
      ensures 0 <= id < |nodes| ==>
                var n := old(nodes)[id]; nodes[id] == n.(load := if n.load == 0 then 0 else n.load - 1)
    {
      if id < 0 || id >= |nodes| { return; }
      if nodes[id].load > 0 {
        nodes := nodes[id := nodes[id].(load := nodes[id].load - 1)];
      }
    }

    method MarkOffline(id: int)
      requires Valid()
      modifies this`nodes
      ensures Valid() && nodes == Offlined(old(nodes), id)
      ensures |nodes| == |old(nodes)| && forall i :: 0 <= i < |nodes| && i != id ==> nodes[i] == old(nodes)[i]
      ensures 0 <= id < |nodes| ==> nodes[id] == WorkerNode(old(nodes)[id].cfg, 0, false)
    {
      if id < 0 || id >= |nodes| { return; }
      nodes := nodes[id := nodes[id].(online := false)];
      nodes := nodes[id := nodes[id].(load := 0)];
    }

    method MarkOnline(id: int)
      requires Valid()
      modifies this`nodes
      ensures Valid() && nodes == Onlined(old(nodes), id)
      ensures |nodes| == |old(nodes)| && forall i :: 0 <= i < |nodes| && i != id ==> nodes[i] == old(nodes)[i]
      ensures 0 <= id < |nodes| ==> nodes[id] == WorkerNode(old(nodes)[id].cfg, old(nodes)[id].load, true)
    {
      if id < 0 || id >= |nodes| { return; }
      nodes := nodes[id := nodes[id].(online := true)];
    }
  }
}
