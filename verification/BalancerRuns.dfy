/** The balancer under T judge threads: load accounting, the hot-spot bound, fairness. */
module BalancerRuns {
  import opened Arith
  import opened Text
  import opened Balancer

  // ---- the hot-spot bound ----

  /** threads[t] is the worker thread t has selected and not yet released. */
  datatype Cluster = Cluster(nodes: seq<WorkerNode>, next: nat, threads: seq<Option<nat>>)

  datatype Step =
    | Select(thread: nat, worker: nat)
    | Release(thread: nat)
    | Offline(id: int)
    | Online(id: int)
    | Register(cfg: WorkerConfig)

  ghost predicate Next(s: Cluster, step: Step, s': Cluster) {
    match step
    case Select(t, b) =>
      && t < |s.threads| && s.threads[t] == None
      && Selects(s.nodes, s.next, b, s'.nodes, s'.next)
      && s'.threads == s.threads[t := Some(b)]
    case Release(t) =>
      && t < |s.threads| && s.threads[t].Some?
      && s' == s.(nodes := Released(s.nodes, s.threads[t].value), threads := s.threads[t := None])
    case Offline(id) => s' == s.(nodes := Offlined(s.nodes, id))
    case Online(id) => s' == s.(nodes := Onlined(s.nodes, id))
    case Register(cfg) => Registers(s.nodes, cfg, s'.nodes) && s' == s.(nodes := s'.nodes)
  }

  /** T threads, none of them busy, and no worker yet. */
  ghost predicate Initial(s: Cluster, threads: nat) {
    s.nodes == [] && s.next == 0 && s.threads == seq(threads, _ => None)
  }

  /** Every interleaving: any thread, operator or worker may take the next step. */
  ghost predicate IsRun(states: seq<Cluster>, steps: seq<Step>, threads: nat) {
    && |states| == |steps| + 1 && Initial(states[0], threads)
    && forall i :: 0 <= i < |steps| ==> Next(states[i], steps[i], states[i + 1])
  }

  /** The dispatches to a worker that are not yet released. */
  function Outstanding(threads: seq<Option<nat>>, w: nat): nat {
    if threads == [] then 0 else (if threads[0] == Some(w) then 1 else 0) + Outstanding(threads[1..], w)
  }

  function Busy(threads: seq<Option<nat>>): nat {
    if threads == [] then 0 else (if threads[0].Some? then 1 else 0) + Busy(threads[1..])
  }

  function OnlineCount(nodes: seq<WorkerNode>): nat {
    if nodes == [] then 0 else (if nodes[0].online then 1 else 0) + OnlineCount(nodes[1..])
  }

  lemma {:induction false} OutstandingUpdate(threads: seq<Option<nat>>, t: nat, x: Option<nat>, w: nat)
    requires t < |threads|
    ensures Outstanding(threads[t := x], w) + (if threads[t] == Some(w) then 1 else 0)
         == Outstanding(threads, w) + (if x == Some(w) then 1 else 0)
  {
    if t > 0 {
      assert threads[t := x][1..] == threads[1..][t - 1 := x];
      OutstandingUpdate(threads[1..], t - 1, x, w);
    } else {
      assert threads[t := x][1..] == threads[1..];
    }
  }

  /** Each load is covered by the worker's unreleased dispatches. */
  ghost predicate Covered(s: Cluster) {
    forall w :: 0 <= w < |s.nodes| ==> s.nodes[w].load <= Outstanding(s.threads, w)
  }

  lemma StepCovered(s: Cluster, step: Step, s': Cluster)
    requires Covered(s) && Next(s, step, s')
    ensures Covered(s') && |s'.threads| == |s.threads|
  {
    forall w | 0 <= w < |s'.nodes| ensures s'.nodes[w].load <= Outstanding(s'.threads, w) {
      match step
      case Select(t, b) => OutstandingUpdate(s.threads, t, Some(b), w);
      case Release(t) => OutstandingUpdate(s.threads, t, None, w);
      case _ =>
    }
  }

  // Sums over the workers: k * (least load) <= busy threads.

  function TotalLoad(nodes: seq<WorkerNode>): nat {
    if nodes == [] then 0 else TotalLoad(nodes[..|nodes| - 1]) + nodes[|nodes| - 1].load
  }

  function BusyBelow(threads: seq<Option<nat>>, n: nat): nat {
    if threads == [] then 0
    else (if threads[0].Some? && threads[0].value < n then 1 else 0) + BusyBelow(threads[1..], n)
  }

  lemma {:induction false} BusyBelowStep(threads: seq<Option<nat>>, n: nat)
    ensures BusyBelow(threads, n + 1) == BusyBelow(threads, n) + Outstanding(threads, n)
    ensures BusyBelow(threads, 0) == 0 && BusyBelow(threads, n) <= Busy(threads) <= |threads|
  {
    if threads != [] { BusyBelowStep(threads[1..], n); }
  }

  lemma {:induction false} LoadWithinBusy(nodes: seq<WorkerNode>, threads: seq<Option<nat>>)
    requires forall w :: 0 <= w < |nodes| ==> nodes[w].load <= Outstanding(threads, w)
    ensures TotalLoad(nodes) <= BusyBelow(threads, |nodes|)
  {
    BusyBelowStep(threads, 0);
    if nodes != [] {
      var n := |nodes| - 1;
      LoadWithinBusy(nodes[..n], threads);
      BusyBelowStep(threads, n);
    }
  }

  lemma {:induction false} OnlineSnoc(nodes: seq<WorkerNode>, x: WorkerNode)
    ensures OnlineCount(nodes + [x]) == OnlineCount(nodes) + if x.online then 1 else 0
  {
    if nodes == [] {
      assert nodes + [x] == [x];
    } else {
      assert (nodes + [x])[1..] == nodes[1..] + [x];
      OnlineSnoc(nodes[1..], x);
    }
  }

  lemma {:induction false} LeastLoadTimesOnline(nodes: seq<WorkerNode>, least: nat)
    requires forall w :: 0 <= w < |nodes| && nodes[w].online ==> least <= nodes[w].load
    ensures OnlineCount(nodes) * least <= TotalLoad(nodes)
  {
    if nodes != [] {
      hide OnlineCount;
      var n, x := |nodes| - 1, nodes[|nodes| - 1];
      LeastLoadTimesOnline(nodes[..n], least);
      OnlineSnoc(nodes[..n], x);
      assert nodes == nodes[..n] + [x];
      var c := OnlineCount(nodes[..n]);
      assert (c + 1) * least == c * least + least;
    }
  }

  lemma {:induction false} BusyUpdate(threads: seq<Option<nat>>, t: nat)
    requires t < |threads| && threads[t] == None
    ensures Busy(threads) <= |threads| - 1
  {
    if t == 0 {
      BusyBelowStep(threads[1..], 0);
    } else {
      BusyUpdate(threads[1..], t - 1);
    }
  }

  /** A thread selects while at most T - 1 others hold a dispatch, so the least load is small. */
  lemma SelectionBound(s: Cluster, t: nat, b: nat, k: nat)
    requires Covered(s) && t < |s.threads| && s.threads[t] == None
    requires IsChoice(s.nodes, s.next, b)
    requires 1 <= k <= OnlineCount(s.nodes)
    ensures s.nodes[b].load <= (|s.threads| - 1) / k
  {
    LoadWithinBusy(s.nodes, s.threads);
    LeastLoadTimesOnline(s.nodes, s.nodes[b].load);
    BusyBelowStep(s.threads, |s.nodes|);
    BusyUpdate(s.threads, t);
    Monotone(k, OnlineCount(s.nodes), s.nodes[b].load);
    QuotientBound(k, s.nodes[b].load, |s.threads| - 1);
  }

  ghost predicate Bounded(s: Cluster, bound: nat) {
    forall w :: 0 <= w < |s.nodes| ==> s.nodes[w].load <= bound
  }

  lemma StepBounded(s: Cluster, step: Step, s': Cluster, k: nat)
    requires Covered(s) && Next(s, step, s') && k >= 1 && |s.threads| >= 1
    requires step.Select? ==> OnlineCount(s.nodes) >= k
    requires Bounded(s, (|s.threads| - 1) / k + 1)
    ensures Bounded(s', (|s.threads| - 1) / k + 1)
  {
    if step.Select? { SelectionBound(s, step.thread, step.worker, k); }
  }

  /**
   * In every interleaving of T threads with workers going offline, coming online and registering
   * again: a load never exceeds the worker's unreleased dispatches, and if at least k workers are
   * online at every selection no load ever exceeds (T - 1) / k + 1.
   */
  lemma {:induction false} HotSpotBound(states: seq<Cluster>, steps: seq<Step>, threads: nat, k: nat)
    requires IsRun(states, steps, threads) && threads >= 1 && k >= 1
    requires forall i :: 0 <= i < |steps| && steps[i].Select? ==> OnlineCount(states[i].nodes) >= k
    ensures forall i :: 0 <= i < |states| ==>
              && |states[i].threads| == threads
              && Covered(states[i]) && Bounded(states[i], (threads - 1) / k + 1)
    decreases |steps|
  {
    if steps != [] {
      var n := |steps| - 1;
      HotSpotBound(states[..|steps|], steps[..n], threads, k);
      assert states[..|steps|][n] == states[n];
      StepCovered(states[n], steps[n], states[n + 1]);
      StepBounded(states[n], steps[n], states[n + 1], k);
      forall i | 0 <= i < |states|
        ensures |states[i].threads| == threads && Covered(states[i]) && Bounded(states[i], (threads - 1) / k + 1)
      {
        if i <= n { assert states[..|steps|][i] == states[i]; }
      }
    }
  }

  // ---- fairness ----

  /**
   * Selections without a release between them have dealt out whole rounds: loads differ by at
   * most one, and the workers still to be served in this round come first from the cursor.
   */
  ghost predicate InRound(nodes: seq<WorkerNode>, next: nat, base: nat) {
    && (forall i :: 0 <= i < |nodes| && nodes[i].online ==> base <= nodes[i].load <= base + 1)
    && (forall i, j ::
          (0 <= i < |nodes| && 0 <= j < |nodes| && nodes[i].online && nodes[j].online
           && nodes[i].load > nodes[j].load) ==> Offset(|nodes|, next, j) < Offset(|nodes|, next, i))
  }

  /** How many online workers have already been served in the round above `base`. */
  function Served(nodes: seq<WorkerNode>, base: nat): nat {
    if nodes == [] then 0
    else (if nodes[0].online && nodes[0].load == base + 1 then 1 else 0) + Served(nodes[1..], base)
  }

  /** The first online worker at or behind the cursor. */
  ghost predicate IsNextOnline(nodes: seq<WorkerNode>, next: nat, b: nat) {
    && b < |nodes| && nodes[b].online
    && forall i :: 0 <= i < |nodes| && nodes[i].online ==> Offset(|nodes|, next, b) <= Offset(|nodes|, next, i)
  }

  /** Moving the cursor behind `b` sends `b` to the back and keeps the order of those behind it. */
  lemma OffsetAfter(n: nat, next: nat, b: nat, i: nat)
    requires b < n && i < n && next < n && Offset(n, next, b) <= Offset(n, next, i)
    ensures Offset(n, (b + 1) % n, i) == if i == b then n - 1 else Offset(n, next, i) - Offset(n, next, b) - 1
  {
    hide Offset;
    DivMod(b + 1, n, if b + 1 == n then 1 else 0, if b + 1 == n then 0 else b + 1);
    OffsetSmall(n, next, b);
    OffsetSmall(n, next, i);
    OffsetSmall(n, (b + 1) % n, i);
  }

  lemma {:induction false} ServedUpdate(nodes: seq<WorkerNode>, b: nat, base: nat)
    requires b < |nodes| && nodes[b].online && nodes[b].load == base
    ensures Served(nodes[b := nodes[b].(load := base + 1)], base) == Served(nodes, base) + 1
  {
    if b == 0 {
      assert nodes[b := nodes[b].(load := base + 1)][1..] == nodes[1..];
    } else {
      assert nodes[b := nodes[b].(load := base + 1)][1..] == nodes[1..][b - 1 := nodes[b].(load := base + 1)];
      ServedUpdate(nodes[1..], b - 1, base);
    }
  }

  /** A round is complete exactly when everyone online has been served. */
  lemma {:induction false} ServedAll(nodes: seq<WorkerNode>, base: nat)
    ensures Served(nodes, base) <= OnlineCount(nodes)
    ensures Served(nodes, base) == OnlineCount(nodes) <==>
            forall i :: 0 <= i < |nodes| && nodes[i].online ==> nodes[i].load == base + 1
    ensures Served(nodes, base) == 0 <==>
            forall i :: 0 <= i < |nodes| && nodes[i].online ==> nodes[i].load != base + 1
  {
    if nodes != [] {
      ServedAll(nodes[1..], base);
      var rest := nodes[1..];
      assert forall i :: 0 <= i < |rest| ==> rest[i] == nodes[i + 1];
      assert forall i :: 1 <= i < |nodes| ==> nodes[i] == rest[i - 1];
    }
  }

  lemma {:induction false} OnlineUpdate(nodes: seq<WorkerNode>, b: nat, x: WorkerNode)
    requires b < |nodes| && x.online == nodes[b].online
    ensures OnlineCount(nodes[b := x]) == OnlineCount(nodes)
  {
    if b == 0 {
      assert nodes[b := x][1..] == nodes[1..];
    } else {
      assert nodes[b := x][1..] == nodes[1..][b - 1 := x];
      OnlineUpdate(nodes[1..], b - 1, x);
    }
  }

  datatype Ring = Ring(nodes: seq<WorkerNode>, next: nat)

  ghost predicate Picks(s: Ring, b: nat, s': Ring) {
    Selects(s.nodes, s.next, b, s'.nodes, s'.next)
  }

  /** The choice is the next online worker in plain round robin: the ones already served come later. */
  lemma ChoiceIsNext(s: Ring, base: nat, b: nat)
    requires InRound(s.nodes, s.next, base) && Served(s.nodes, base) < OnlineCount(s.nodes)
    requires IsChoice(s.nodes, s.next, b)
    ensures IsNextOnline(s.nodes, s.next, b) && s.nodes[b].load == base
  {
    hide Offset, Served, OnlineCount;
    ServedAll(s.nodes, base);
  }

  lemma OrderKept(s: Ring, base: nat, b: nat, s': Ring)
    requires InRound(s.nodes, s.next, base) && s.next < |s.nodes|
    requires Picks(s, b, s') && IsNextOnline(s.nodes, s.next, b) && s.nodes[b].load == base
    ensures InRound(s'.nodes, s'.next, base) && s'.next < |s'.nodes| == |s.nodes|
  {
    hide Offset;
    var n := |s.nodes|;
    DivMod(b + 1, n, if b + 1 == n then 1 else 0, if b + 1 == n then 0 else b + 1);
    forall i, j | 0 <= i < n && 0 <= j < n && s'.nodes[i].online && s'.nodes[j].online
                  && s'.nodes[i].load > s'.nodes[j].load
      ensures Offset(n, s'.next, j) < Offset(n, s'.next, i)
    {
      OffsetAfter(n, s.next, b, i);
      OffsetAfter(n, s.next, b, j);
      OffsetsDiffer(n, s.next, b, j);
      if i != b { assert s.nodes[i].load > s.nodes[j].load; }
    }
  }

  lemma OffsetsDiffer(n: nat, next: nat, i: nat, j: nat)
    requires i < n && j < n
    ensures Offset(n, next, i) == Offset(n, next, j) ==> i == j
  {
    if Offset(n, next, i) == Offset(n, next, j) { OffsetInjective(n, next, i, j); }
  }

  /** Where a series of selections from equal loads stands: `base` complete rounds, then part of one. */
  ghost predicate Dealt(s: Ring, base: nat, served: nat, k: nat) {
    && s.next < |s.nodes| && OnlineCount(s.nodes) == k && served < k
    && InRound(s.nodes, s.next, base) && Served(s.nodes, base) == served
  }

  lemma DealtStep(s: Ring, base: nat, served: nat, k: nat, b: nat, s': Ring)
    requires Dealt(s, base, served, k) && Picks(s, b, s')
    ensures IsNextOnline(s.nodes, s.next, b)
    ensures if served + 1 == k then Dealt(s', base + 1, 0, k) else Dealt(s', base, served + 1, k)
  {
    hide Offset, Served, OnlineCount, InRound;
    ChoiceIsNext(s, base, b);
    OrderKept(s, base, b, s');
    ServedUpdate(s.nodes, b, base);
    OnlineUpdate(s.nodes, b, s'.nodes[b]);
    if served + 1 == k { NextRound(s'.nodes, s'.next, base); }
  }

  lemma NextRound(nodes: seq<WorkerNode>, next: nat, base: nat)
    requires InRound(nodes, next, base) && Served(nodes, base) == OnlineCount(nodes) > 0
    ensures InRound(nodes, next, base + 1) && Served(nodes, base + 1) == 0
  {
    hide Offset;
    ServedAll(nodes, base);
    ServedAll(nodes, base + 1);
  }

  ghost predicate EqualLoads(s: Ring, level: nat) {
    forall i :: 0 <= i < |s.nodes| && s.nodes[i].online ==> s.nodes[i].load == level
  }

  /** Selections with no release between them; picks[i] is the worker chosen by the i-th. */
  ghost predicate Selections(rings: seq<Ring>, picks: seq<nat>) {
    && |rings| == |picks| + 1
    && forall i :: 0 <= i < |picks| ==> Picks(rings[i], picks[i], rings[i + 1])
  }

  /** m selections from equal loads: m / k whole rounds and m % k workers served once more. */
  lemma {:induction false} RoundsDealt(rings: seq<Ring>, picks: seq<nat>, level: nat, k: nat)
    requires Selections(rings, picks) && k > 0 && rings[0].next < |rings[0].nodes|
    requires OnlineCount(rings[0].nodes) == k && EqualLoads(rings[0], level)
    ensures Dealt(rings[|picks|], level + |picks| / k, |picks| % k, k)
    decreases |picks|
  {
    hide Picks, Dealt, OnlineCount;
    if picks == [] {
      NothingDealt(rings[0], level, k);
    } else {
      var m := |picks| - 1;
      assert rings[..m + 1][0] == rings[0] && rings[..m + 1][m] == rings[m];
      RoundsDealt(rings[..m + 1], picks[..m], level, k);
      DealtStep(rings[m], level + m / k, m % k, k, picks[m], rings[m + 1]);
      Successor(m, k);
    }
  }

  lemma NothingDealt(s: Ring, level: nat, k: nat)
    requires k > 0 && s.next < |s.nodes| && OnlineCount(s.nodes) == k && EqualLoads(s, level)
    ensures Dealt(s, level + 0 / k, 0 % k, k)
  {
    DivMod(0, k, 0, 0);
    ServedAll(s.nodes, level);
  }

  /**
   * From equal loads on k online workers, m selections with no release give each of them
   * floor(m / k) or ceil(m / k) dispatches, exactly m % k of them the larger share.
   */
  lemma FairShares(rings: seq<Ring>, picks: seq<nat>, level: nat, k: nat)
    requires Selections(rings, picks) && k > 0 && rings[0].next < |rings[0].nodes|
    requires OnlineCount(rings[0].nodes) == k && EqualLoads(rings[0], level)
    ensures var m, s := |picks|, rings[|picks|];
            && (forall i :: 0 <= i < |s.nodes| && s.nodes[i].online ==>
                  level + m / k <= s.nodes[i].load <= level + m / k + (if m % k == 0 then 0 else 1))
            && Served(s.nodes, level + m / k) == m % k
  {
    hide Picks, OnlineCount, Offset;
    RoundsDealt(rings, picks, level, k);
    ServedAll(rings[|picks|].nodes, level + |picks| / k);
  }

  /** Any T selections on k idle online workers leave a load of (T - 1) / k + 1. */
  lemma LeadAfterSelections(rings: seq<Ring>, picks: seq<nat>, k: nat) returns (w: nat)
    requires Selections(rings, picks) && picks != [] && k > 0 && rings[0].next < |rings[0].nodes|
    requires OnlineCount(rings[0].nodes) == k && EqualLoads(rings[0], 0)
    ensures var s := rings[|picks|]; w < |s.nodes| && s.nodes[w].load == (|picks| - 1) / k + 1
  {
    hide Picks, OnlineCount, Offset;
    var m, s := |picks|, rings[|picks|];
    RoundsDealt(rings, picks, 0, k);
    Successor(m - 1, k);
    ServedAll(s.nodes, m / k);
    if m % k == 0 {
      w := SomebodyOnline(s.nodes);
    } else {
      w :| 0 <= w < |s.nodes| && s.nodes[w].online && s.nodes[w].load == m / k + 1;
    }
  }

  lemma {:induction false} SomebodyOnline(nodes: seq<WorkerNode>) returns (w: nat)
    requires OnlineCount(nodes) > 0
    ensures w < |nodes| && nodes[w].online
  {
    if nodes[0].online {
      w := 0;
    } else {
      w := SomebodyOnline(nodes[1..]);
      w := w + 1;
    }
  }

  /** And each of these selections takes the next online worker in cyclic order. */
  lemma PlainRoundRobin(rings: seq<Ring>, picks: seq<nat>, level: nat, k: nat, i: nat)
    requires Selections(rings, picks) && k > 0 && rings[0].next < |rings[0].nodes|
    requires OnlineCount(rings[0].nodes) == k && EqualLoads(rings[0], level)
    requires i < |picks|
    ensures IsNextOnline(rings[i].nodes, rings[i].next, picks[i])
  {
    hide Picks, OnlineCount, Dealt;
    assert rings[..i + 1][0] == rings[0] && rings[..i + 1][i] == rings[i];
    RoundsDealt(rings[..i + 1], picks[..i], level, k);
    DealtStep(rings[i], level + i / k, i % k, k, picks[i], rings[i + 1]);
  }

  /** With everybody online and equal loads the selections go round the list, from the cursor upwards. */
  lemma {:induction false} InTurn(rings: seq<Ring>, picks: seq<nat>, level: nat, i: nat)
    requires Selections(rings, picks) && rings[0].next < |rings[0].nodes| && EqualLoads(rings[0], level)
    requires forall w :: 0 <= w < |rings[0].nodes| ==> rings[0].nodes[w].online
    requires i <= |picks|
    ensures var n := |rings[0].nodes|;
            && |rings[i].nodes| == n && (forall w :: 0 <= w < n ==> rings[i].nodes[w].online)
            && rings[i].next == (rings[0].next + i) % n
            && (i < |picks| ==> picks[i] == (rings[0].next + i) % n)
    decreases i
  {
    hide OnlineCount, IsNextOnline;
    var n, start := |rings[0].nodes|, rings[0].next;
    AllOnline(rings[0].nodes);
    if i == 0 {
      DivMod(start, n, 0, start);
    } else {
      InTurn(rings, picks, level, i - 1);
      assert Picks(rings[i - 1], picks[i - 1], rings[i]);
      CursorMoves(n, start + i - 1);
    }
    if i < |picks| {
      PlainRoundRobin(rings, picks, level, n, i);
      NextIsCursor(rings[i].nodes, rings[i].next, picks[i]);
    }
  }

  lemma NextIsCursor(nodes: seq<WorkerNode>, next: nat, b: nat)
    requires IsNextOnline(nodes, next, b) && next < |nodes| && nodes[next].online
    ensures b == next
  {
    OffsetSmall(|nodes|, next, next);
    OffsetSmall(|nodes|, next, b);
  }

  // ---- a run that attains the hot-spot bound ----

  /** The i-th of the workers of such a run. */
  function Endpoint(i: int): WorkerConfig { WorkerConfig("judge", i, "", "", 0) }

  /** k workers after m selections in turn. */
  function Shared(k: nat, m: nat): (nodes: seq<WorkerNode>)
    requires k > 0
    ensures |nodes| == k
  {
    seq(k, i => WorkerNode(Endpoint(i), m / k + (if i < m % k then 1 else 0), true))
  }

  /** The i-th state: first k registrations, then one selection by each thread. */
  function BusyState(k: nat, threads: nat, i: nat): Cluster
    requires k > 0
  {
    if i < k then Cluster(seq(i, j => WorkerNode(Endpoint(j), 0, true)), 0, seq(threads, _ => None))
    else
      var m := i - k;
      Cluster(Shared(k, m), m % k, seq(threads, t requires 0 <= t => if t < m then Some(t % k) else None))
  }

  function BusyStep(k: nat, i: nat): Step
    requires k > 0
  {
    if i < k then Register(Endpoint(i)) else Select(i - k, (i - k) % k)
  }

  lemma SharedNext(k: nat, m: nat)
    requires k > 0
    ensures var b, nodes := m % k, Shared(k, m);
            b < k && nodes[b].load == m / k && Shared(k, m + 1) == nodes[b := nodes[b].(load := m / k + 1)]
  {
    Successor(m, k);
    var b, q, q', b' := m % k, m / k, (m + 1) / k, (m + 1) % k;
    var next := Shared(k, m)[b := Shared(k, m)[b].(load := q + 1)];
    forall i | 0 <= i < k ensures Shared(k, m + 1)[i] == next[i] {
      assert Shared(k, m + 1)[i].load == q' + if i < b' then 1 else 0;
    }
  }

  lemma CursorMoves(k: nat, m: nat)
    requires k > 0
    ensures (m + 1) % k == (m % k + 1) % k
  {
    Successor(m, k);
    if m % k + 1 == k { DivMod(k, k, 1, 0); } else { DivMod(m % k + 1, k, 0, m % k + 1); }
  }

  lemma SharedStep(k: nat, m: nat)
    requires k > 0 && m / k < MAX_LOAD
    ensures Selects(Shared(k, m), m % k, m % k, Shared(k, m + 1), (m + 1) % k)
  {
    hide Offset;
    SharedNext(k, m);
    CursorMoves(k, m);
    OffsetSmall(k, m % k, m % k);
  }

  lemma FirstShare(k: nat)
    requires k > 0
    ensures Shared(k, 0) == seq(k, i => WorkerNode(Endpoint(i), 0, true))
  {
    DivMod(0, k, 0, 0);
  }

  lemma ModestShare(k: nat, m: nat, n: nat)
    requires k > 0 && m <= n
    ensures m / k <= n / k
  {
    assert k * (m / k) + m % k == m;
    QuotientBound(k, m / k, n);
  }

  lemma {:induction false} AllOnline(nodes: seq<WorkerNode>)
    requires forall i :: 0 <= i < |nodes| ==> nodes[i].online
    ensures OnlineCount(nodes) == |nodes|
  {
    if nodes != [] { AllOnline(nodes[1..]); }
  }

  lemma BusyRun(k: nat, threads: nat, i: nat)
    requires k > 0 && i < k + threads && (threads - 1) / k < MAX_LOAD
    ensures Next(BusyState(k, threads, i), BusyStep(k, i), BusyState(k, threads, i + 1))
  {
    var s, s' := BusyState(k, threads, i), BusyState(k, threads, i + 1);
    if i < k {
      FirstShare(k);
      assert s'.nodes == s.nodes + [WorkerNode(Endpoint(i), 0, true)];
      assert s'.threads == s.threads;
    } else {
      var m := i - k;
      ModestShare(k, m, threads - 1);
      SharedStep(k, m);
      assert s'.threads == s.threads[m := Some(m % k)];
    }
  }

  /**
   * The bound of HotSpotBound is exact: for every T and k there is a run of T threads with k workers
   * online at every selection in which some load reaches (T - 1) / k + 1.
   */
  lemma BoundAttained(threads: nat, k: nat) returns (states: seq<Cluster>, steps: seq<Step>, w: nat)
    requires threads >= 1 && k >= 1 && (threads - 1) / k < MAX_LOAD
    ensures IsRun(states, steps, threads)
    ensures forall i :: 0 <= i < |steps| && steps[i].Select? ==> OnlineCount(states[i].nodes) >= k
    ensures var s := states[|steps|]; w < |s.nodes| && s.nodes[w].load == (threads - 1) / k + 1
  {
    hide Next, BusyState, BusyStep;
    var n := k + threads;
    states := seq(n + 1, i requires 0 <= i => BusyState(k, threads, i));
    steps := seq(n, i requires 0 <= i => BusyStep(k, i));
    w := (threads - 1) % k;
    BusyEnds(k, threads);
    forall i | 0 <= i < n
      ensures Next(states[i], steps[i], states[i + 1])
      ensures steps[i].Select? ==> OnlineCount(states[i].nodes) >= k
    {
      BusyRun(k, threads, i);
      BusyOnline(k, threads, i);
    }
  }

  lemma BusyEnds(k: nat, threads: nat)
    requires threads >= 1 && k >= 1
    ensures Initial(BusyState(k, threads, 0), threads)
    ensures var s, w := BusyState(k, threads, k + threads), (threads - 1) % k;
            w < |s.nodes| && s.nodes[w].load == (threads - 1) / k + 1
  {
    Successor(threads - 1, k);
  }

  lemma BusyOnline(k: nat, threads: nat, i: nat)
    requires k >= 1
    ensures BusyStep(k, i).Select? ==> OnlineCount(BusyState(k, threads, i).nodes) >= k
  {
    if i >= k { AllOnline(Shared(k, i - k)); }
  }
}
