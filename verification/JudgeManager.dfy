/** JudgeManager: one dispatch, its retries on other workers, and health probing. */
module JudgeManager {
  import opened Arith
  import opened Text
  import opened Balancer
  import opened BalancerRuns

  /** What SendHttpJson brings back from a worker. */
  datatype Answer = Answer(ok: bool, status: int, body: string)

  predicate Good(a: Answer) { a.ok && a.status == 200 }

  /** The balancer calls of a dispatch. */
  datatype Call = Took(worker: nat) | Freed(worker: nat) | Dropped(worker: nat)

  datatype Outcome = Outcome(ok: bool, body: string, calls: seq<Call>, nodes: seq<WorkerNode>, next: nat)

  /** The worker the balancer selects, if any. */
  ghost function Choice(nodes: seq<WorkerNode>, next: nat): (c: Option<nat>)
    ensures c.Some? ==> IsChoice(nodes, next, c.value)
    ensures c.None? ==> forall b :: !IsChoice(nodes, next, b)
  {
    if b :| IsChoice(nodes, next, b) then Some(b) else None
  }

  function Taken(nodes: seq<WorkerNode>, b: nat): seq<WorkerNode>
    requires b < |nodes|
  {
    nodes[b := nodes[b].(load := nodes[b].load + 1)]
  }

  /** The retry loop from a given attempt on; `answers` maps attempt and worker to the reply. */
  ghost function Attempts(nodes: seq<WorkerNode>, next: nat, answers: (nat, nat) -> Answer,
                          attempt: nat, retries: int): Outcome
    decreases retries - attempt
  {
    if attempt >= retries then Outcome(false, "", [], nodes, next)
    else
      var choice := Choice(nodes, next);
      if choice == None then Attempts(nodes, next, answers, attempt + 1, retries)
      else
        var b := choice.value;
        var after := Balancer.Released(Taken(nodes, b), b);
        var next' := (b + 1) % |nodes|;
        if Good(answers(attempt, b)) then
          Outcome(true, answers(attempt, b).body, [Took(b), Freed(b)], after, next')
        else
          var rest := Attempts(Offlined(after, b), next', answers, attempt + 1, retries);
          rest.(calls := [Took(b), Freed(b), Dropped(b)] + rest.calls)
  }

  // ---- what the retry loop guarantees ----

  /** The workers dispatched to, in order. */
  function Tried(calls: seq<Call>): seq<nat> {
    if calls == [] then []
    else (if calls[0].Took? then [calls[0].worker] else []) + Tried(calls[1..])
  }

  /** Every selection is followed by exactly one release of the same worker, and maybe by its removal. */
  ghost predicate Matched(calls: seq<Call>)
    decreases |calls|
  {
    || calls == []
    || (|calls| >= 2 && calls[0].Took? && calls[1] == Freed(calls[0].worker) && Matched(calls[2..]))
    || (|calls| >= 3 && calls[0].Took? && calls[1] == Freed(calls[0].worker)
        && calls[2] == Dropped(calls[0].worker) && Matched(calls[3..]))
  }

  lemma TakeThenFree(nodes: seq<WorkerNode>, b: nat)
    requires b < |nodes|
    ensures Balancer.Released(Taken(nodes, b), b) == nodes
  {
  }

  lemma TriedOne(b: nat, calls: seq<Call>)
    ensures Tried([Took(b), Freed(b), Dropped(b)] + calls) == [b] + Tried(calls)
  {
    var all := [Took(b), Freed(b), Dropped(b)] + calls;
    assert all[1..][1..][1..] == calls;
    assert all[1..][0] == Freed(b) && all[1..][1..][0] == Dropped(b);
    assert Tried(all[1..][1..]) == Tried(calls);
    assert Tried(all[1..]) == Tried(calls);
  }

  lemma TriedLast(b: nat)
    ensures Tried([Took(b), Freed(b)]) == [b]
  {
    assert [Took(b), Freed(b)][1..] == [Freed(b)] && [Freed(b)][1..] == [];
    assert Tried([Freed(b)]) == [];
  }

  ghost predicate Distinct(ws: seq<nat>) {
    forall i, j :: 0 <= i < j < |ws| ==> ws[i] != ws[j]
  }

  /** The node of a worker after a job: dropped if it was tried and did not answer, else as before. */
  function NodeAfter(node: WorkerNode, failed: bool): WorkerNode {
    if failed then node.(online := false, load := 0) else node
  }

  /** The workers that were dropped: all that were tried, but the last one when it answered. */
  ghost predicate Failed(o: Outcome, w: nat) {
    Dropped(w) in o.calls
  }

  /**
   * One job, no other actor: the attempts hit pairwise distinct workers, all online before; every
   * selection is matched by one release; afterwards exactly the failed workers are offline and no
   * load is left over.
   */
  lemma {:induction false} AttemptsAreDistinct(
      nodes: seq<WorkerNode>, next: nat, answers: (nat, nat) -> Answer, attempt: nat, retries: int)
    ensures var o := Attempts(nodes, next, answers, attempt, retries);
            && Distinct(Tried(o.calls)) && Matched(o.calls)
            && (forall w :: w in Tried(o.calls) ==> w < |nodes| && nodes[w].online)
            && (attempt <= retries ==> |Tried(o.calls)| <= retries - attempt)
            && |o.nodes| == |nodes|
            && (forall w :: 0 <= w < |nodes| ==> o.nodes[w] == NodeAfter(nodes[w], Failed(o, w)))
    decreases retries - attempt
  {
    hide Choice, IsChoice, Tried, Balancer.Released, Taken;
    if attempt < retries {
      var choice := Choice(nodes, next);
      if choice == None {
        AttemptsAreDistinct(nodes, next, answers, attempt + 1, retries);
      } else {
        var b := choice.value;
        ChosenIsOnline(nodes, next, b);
        TakeThenFree(nodes, b);
        var n' := (b + 1) % |nodes|;
        if Good(answers(attempt, b)) {
          TriedLast(b);
        } else {
          var after := Offlined(nodes, b);
          AttemptsAreDistinct(after, n', answers, attempt + 1, retries);
          var rest := Attempts(after, n', answers, attempt + 1, retries);
          TriedOne(b, rest.calls);
          assert !after[b].online && b !in Tried(rest.calls);
          var o := Attempts(nodes, next, answers, attempt, retries);
          assert o.calls[3..] == rest.calls;
          forall w: nat ensures Failed(o, w) <==> w == b || Failed(rest, w) {
            DroppedFirst(b, rest.calls, w);
          }
        }
      }
    } else {
      assert Tried([]) == [] by { NothingTried(); }
    }
  }

  lemma NothingTried()
    ensures Tried([]) == [] && Matched([])
  {
  }

  lemma DroppedFirst(b: nat, calls: seq<Call>, w: nat)
    ensures Dropped(w) in [Took(b), Freed(b), Dropped(b)] + calls <==> w == b || Dropped(w) in calls
  {
    assert ([Took(b), Freed(b), Dropped(b)] + calls)[2] == Dropped(b);
  }

  lemma ChosenIsOnline(nodes: seq<WorkerNode>, next: nat, b: nat)
    requires IsChoice(nodes, next, b)
    ensures b < |nodes| && nodes[b].online
  {
  }

  ghost predicate LoadsFit(nodes: seq<WorkerNode>) {
    forall w :: 0 <= w < |nodes| ==> nodes[w].load < MAX_LOAD
  }

  lemma {:induction false} OneFewer(nodes: seq<WorkerNode>, b: nat)
    requires b < |nodes| && nodes[b].online
    ensures OnlineCount(Offlined(nodes, b)) == OnlineCount(nodes) - 1
  {
    var x := nodes[b].(online := false, load := 0);
    if b == 0 {
      assert nodes[b := x][1..] == nodes[1..];
    } else {
      assert nodes[b := x][1..] == nodes[1..][b - 1 := x];
      OneFewer(nodes[1..], b - 1);
    }
  }

  lemma {:induction false} SomeOnline(nodes: seq<WorkerNode>, w: nat)
    requires w < |nodes| && nodes[w].online
    ensures OnlineCount(nodes) > 0
  {
    if w > 0 { SomeOnline(nodes[1..], w - 1); }
  }

  /** The scan finds somebody whenever somebody can be taken. */
  lemma ChoiceExists(nodes: seq<WorkerNode>, next: nat, w: nat)
    requires w < |nodes| && Selectable(nodes[w])
    ensures exists b :: IsChoice(nodes, next, b)
  {
    var b := BestOf(nodes, next, |nodes|, w);
    assert IsChoice(nodes, next, b);
  }

  lemma {:induction false} BestOf(nodes: seq<WorkerNode>, next: nat, n: nat, w: nat) returns (b: nat)
    requires w < |nodes| && Selectable(nodes[w]) && n <= |nodes|
    ensures b < |nodes| && Selectable(nodes[b])
    ensures forall i :: ((0 <= i < n && nodes[i].online) || i == w) ==>
              && nodes[b].load <= nodes[i].load
              && (nodes[b].load == nodes[i].load ==> Offset(|nodes|, next, b) <= Offset(|nodes|, next, i))
    decreases n
  {
    hide Offset;
    if n == 0 {
      b := w;
    } else {
      b := BestOf(nodes, next, n - 1, w);
      var i := n - 1;
      if nodes[i].online && (nodes[i].load < nodes[b].load
          || (nodes[i].load == nodes[b].load && Offset(|nodes|, next, i) < Offset(|nodes|, next, b))) {
        b := i;
      }
    }
  }

  /**
   * Failover is complete: with at least as many attempts as workers online, one online worker
   * that always answers 200 is enough for the job to succeed.
   */
  lemma {:induction false} FailoverCompletes(
      nodes: seq<WorkerNode>, next: nat, answers: (nat, nat) -> Answer, attempt: nat, retries: int, w: nat)
    requires w < |nodes| && nodes[w].online && LoadsFit(nodes)
    requires forall a :: attempt <= a < retries ==> answers(a, w).ok && answers(a, w).status == 200
    requires OnlineCount(nodes) <= retries - attempt
    ensures Attempts(nodes, next, answers, attempt, retries).ok
    decreases retries - attempt
  {
    hide IsChoice, OnlineCount;
    SomeOnline(nodes, w);
    ChoiceExists(nodes, next, w);
    var b := Choice(nodes, next).value;
    ChosenIsOnline(nodes, next, b);
    TakeThenFree(nodes, b);
    if !Good(answers(attempt, b)) {
      OneFewer(nodes, b);
      FailoverCompletes(Offlined(nodes, b), (b + 1) % |nodes|, answers, attempt + 1, retries, w);
    }
  }

  /** Only one worker ever answers. */
  function OnlyGood(w: nat): (nat, nat) -> Answer {
    (a: nat, v: nat) => if v == w then Answer(true, 200, "") else Answer(false, 0, "")
  }

  /**
   * The number of attempts in FailoverCompletes is exact: with fewer attempts than workers online
   * there is always an online worker that would answer every time and is never asked.
   */
  lemma {:induction false} FewerRetriesFail(nodes: seq<WorkerNode>, next: nat, attempt: nat, retries: int)
    returns (w: nat)
    requires LoadsFit(nodes) && attempt <= retries < attempt + OnlineCount(nodes)
    ensures w < |nodes| && nodes[w].online
    ensures !Attempts(nodes, next, OnlyGood(w), attempt, retries).ok
    decreases retries - attempt
  {
    hide IsChoice, OnlineCount;
    w := SomebodyOnline(nodes);
    if attempt < retries {
      ChoiceExists(nodes, next, w);
      var b := Choice(nodes, next).value;
      ChosenIsOnline(nodes, next, b);
      TakeThenFree(nodes, b);
      OneFewer(nodes, b);
      w := FewerRetriesFail(Offlined(nodes, b), (b + 1) % |nodes|, attempt + 1, retries);
    }
  }

  /** And it is sound: a job succeeds only with the body of a 200 answer of a worker online before. */
  lemma {:induction false} SuccessIsAnAnswer(
      nodes: seq<WorkerNode>, next: nat, answers: (nat, nat) -> Answer, attempt: nat, retries: int)
    ensures var o := Attempts(nodes, next, answers, attempt, retries);
            o.ok ==> exists a: nat, w: nat ::
              attempt <= a < retries && w < |nodes| && nodes[w].online
              && answers(a, w).ok && answers(a, w).status == 200 && o.body == answers(a, w).body && w in Tried(o.calls)
    decreases retries - attempt
  {
    hide Tried, Choice, IsChoice;
    if attempt < retries {
      var choice := Choice(nodes, next);
      if choice == None {
        SuccessIsAnAnswer(nodes, next, answers, attempt + 1, retries);
      } else {
        var b := choice.value;
        ChosenIsOnline(nodes, next, b);
        TakeThenFree(nodes, b);
        if Good(answers(attempt, b)) {
          TriedLast(b);
        } else {
          var rest := Attempts(Offlined(nodes, b), (b + 1) % |nodes|, answers, attempt + 1, retries);
          SuccessIsAnAnswer(Offlined(nodes, b), (b + 1) % |nodes|, answers, attempt + 1, retries);
          TriedOne(b, rest.calls);
        }
      }
    }
  }

  // ---- with health probes between the attempts ----

  /** What a probe leaves: healthy workers online, unhealthy ones offline with their load reset. */
  function Probed(node: WorkerNode, healthy: bool): WorkerNode {
    if healthy then node.(online := true)
    else if node.online then node.(online := false, load := 0)
    else node
  }

  /** Nothing until the interval has passed, and never without one. */
  function AfterProbe(nodes: seq<WorkerNode>, interval: int, elapsed: int, healthy: nat -> bool): seq<WorkerNode> {
    if 0 < interval <= elapsed then seq(|nodes|, i requires 0 <= i < |nodes| => Probed(nodes[i], healthy(i)))
    else nodes
  }

  /** What the clock and the health checks answer before each attempt. */
  datatype Probes = Probes(elapsed: nat -> int, healthy: nat -> (nat -> bool))

  /** The retry loop with a probe before every attempt. */
  ghost function ProbedAttempts(nodes: seq<WorkerNode>, next: nat, answers: (nat, nat) -> Answer,
                                attempt: nat, retries: int, interval: int, probes: Probes): Outcome
    decreases retries - attempt
  {
    if attempt >= retries then Outcome(false, "", [], nodes, next)
    else
      var probed := AfterProbe(nodes, interval, probes.elapsed(attempt), probes.healthy(attempt));
      var one := Attempts(probed, next, answers, attempt, attempt + 1);
      if one.ok then one
      else
        var rest := ProbedAttempts(one.nodes, one.next, answers, attempt + 1, retries, interval, probes);
        rest.(calls := one.calls + rest.calls)
  }

  /** The loop is its first attempt followed by the others. */
  lemma FirstAttempt(nodes: seq<WorkerNode>, next: nat, answers: (nat, nat) -> Answer, attempt: nat, retries: int)
    requires attempt < retries
    ensures var one := Attempts(nodes, next, answers, attempt, attempt + 1);
            Attempts(nodes, next, answers, attempt, retries)
            == if one.ok then one
               else var rest := Attempts(one.nodes, one.next, answers, attempt + 1, retries);
                    rest.(calls := one.calls + rest.calls)
  {
    hide Choice, IsChoice, Balancer.Released, Taken;
    var one := Attempts(nodes, next, answers, attempt, attempt + 1);
    var rest := Attempts(one.nodes, one.next, answers, attempt + 1, retries);
    assert [] + rest.calls == rest.calls;
    if Choice(nodes, next).Some? {
      var b := Choice(nodes, next).value;
      assert [Took(b), Freed(b), Dropped(b)] + [] == [Took(b), Freed(b), Dropped(b)];
    }
  }

  /** As long as no probe is due the two loops are one. */
  lemma {:induction false} NoProbes(nodes: seq<WorkerNode>, next: nat, answers: (nat, nat) -> Answer,
                                    attempt: nat, retries: int, interval: int, probes: Probes)
    requires forall a :: attempt <= a < retries ==> !(0 < interval <= probes.elapsed(a))
    ensures ProbedAttempts(nodes, next, answers, attempt, retries, interval, probes)
         == Attempts(nodes, next, answers, attempt, retries)
    decreases retries - attempt
  {
    hide Attempts;
    if attempt < retries {
      FirstAttempt(nodes, next, answers, attempt, retries);
      var one := Attempts(nodes, next, answers, attempt, attempt + 1);
      if !one.ok { NoProbes(one.nodes, one.next, answers, attempt + 1, retries, interval, probes); }
    } else {
      NoAttempts(nodes, next, answers, attempt, retries);
    }
  }

  lemma NoAttempts(nodes: seq<WorkerNode>, next: nat, answers: (nat, nat) -> Answer, attempt: nat, retries: int)
    requires attempt >= retries
    ensures Attempts(nodes, next, answers, attempt, retries) == Outcome(false, "", [], nodes, next)
  {
  }

  /**
   * A due probe: exactly the healthy workers are online afterwards, keeping their load, and the others
   * keep nothing but their configuration. A probe that is not due changes nothing.
   */
  lemma ProbeOutcome(nodes: seq<WorkerNode>, interval: int, elapsed: int, healthy: nat -> bool)
    ensures var after := AfterProbe(nodes, interval, elapsed, healthy);
            && |after| == |nodes|
            && (0 < interval <= elapsed ==> forall i :: 0 <= i < |nodes| ==>
                  && (after[i].online <==> healthy(i)) && after[i].cfg == nodes[i].cfg
                  && (healthy(i) ==> after[i].load == nodes[i].load)
                  && (!healthy(i) ==> after[i].load == if nodes[i].online then 0 else nodes[i].load))
            && (!(0 < interval <= elapsed) ==> after == nodes)
  {
  }

  /** How many of the first n workers are healthy. */
  function HealthyCount(n: nat, healthy: nat -> bool): nat {
    if n == 0 then 0 else HealthyCount(n - 1, healthy) + if healthy(n - 1) then 1 else 0
  }

  lemma {:induction false} OnlineIsHealthy(nodes: seq<WorkerNode>, healthy: nat -> bool)
    requires forall i :: 0 <= i < |nodes| ==> (nodes[i].online <==> healthy(i))
    ensures OnlineCount(nodes) == HealthyCount(|nodes|, healthy)
  {
    if nodes != [] {
      var n := |nodes| - 1;
      OnlineIsHealthy(nodes[..n], healthy);
      OnlineSnoc(nodes[..n], nodes[n]);
      assert nodes == nodes[..n] + [nodes[n]];
    }
  }

  /**
   * A worker that has recovered is found: if the probe before the first attempt is due and finds it
   * healthy, no other is due, and it answers 200, the job succeeds with as many attempts as workers
   * are healthy. Whether it was online before does not matter.
   */
  lemma RecoveredWorkerServes(nodes: seq<WorkerNode>, next: nat, answers: (nat, nat) -> Answer,
                              attempt: nat, retries: int, interval: int, probes: Probes, w: nat)
    requires w < |nodes| && probes.healthy(attempt)(w) && LoadsFit(nodes)
    requires 0 < interval <= probes.elapsed(attempt)
    requires forall a :: attempt < a < retries ==> probes.elapsed(a) < interval
    requires forall a :: attempt <= a < retries ==> answers(a, w).ok && answers(a, w).status == 200
    requires HealthyCount(|nodes|, probes.healthy(attempt)) <= retries - attempt
    ensures ProbedAttempts(nodes, next, answers, attempt, retries, interval, probes).ok
  {
    hide Attempts, AfterProbe, OnlineCount, HealthyCount;
    var probed := AfterProbe(nodes, interval, probes.elapsed(attempt), probes.healthy(attempt));
    ProbeOutcome(nodes, interval, probes.elapsed(attempt), probes.healthy(attempt));
    OnlineIsHealthy(probed, probes.healthy(attempt));
    SomeOnline(probed, w);
    FirstAttempt(probed, next, answers, attempt, retries);
    var one := Attempts(probed, next, answers, attempt, attempt + 1);
    if !one.ok { NoProbes(one.nodes, one.next, answers, attempt + 1, retries, interval, probes); }
    FailoverCompletes(probed, next, answers, attempt, retries, w);
  }

  lemma {:induction false} MatchedConcat(a: seq<Call>, b: seq<Call>)
    requires Matched(a) && Matched(b)
    ensures Matched(a + b)
    decreases |a|
  {
    if a == [] {
      assert a + b == b;
    } else if |a| >= 2 && a[0].Took? && a[1] == Freed(a[0].worker) && Matched(a[2..]) {
      MatchedConcat(a[2..], b);
      assert (a + b)[2..] == a[2..] + b;
    } else {
      MatchedConcat(a[3..], b);
      assert (a + b)[3..] == a[3..] + b;
    }
  }

  /**
   * Whatever the probes do between the attempts: every selection is matched by one release, there are
   * no more selections than retries, and success is a 200 answer of the worker asked last.
   */
  lemma {:induction false} ProbedJob(nodes: seq<WorkerNode>, next: nat, answers: (nat, nat) -> Answer,
                                     attempt: nat, retries: int, interval: int, probes: Probes)
    ensures var o := ProbedAttempts(nodes, next, answers, attempt, retries, interval, probes);
            && Matched(o.calls) && (attempt <= retries ==> |Tried(o.calls)| <= retries - attempt)
            && |o.nodes| == |nodes|
            && (o.ok ==> exists a: nat, v: nat ::
                  && attempt <= a < retries && v in Tried(o.calls)
                  && answers(a, v).ok && answers(a, v).status == 200 && o.body == answers(a, v).body)
    decreases retries - attempt
  {
    hide Attempts, Tried, Matched;
    if attempt < retries {
      var probed := AfterProbe(nodes, interval, probes.elapsed(attempt), probes.healthy(attempt));
      var one := Attempts(probed, next, answers, attempt, attempt + 1);
      AttemptsAreDistinct(probed, next, answers, attempt, attempt + 1);
      SuccessIsAnAnswer(probed, next, answers, attempt, attempt + 1);
      if !one.ok {
        var rest := ProbedAttempts(one.nodes, one.next, answers, attempt + 1, retries, interval, probes);
        ProbedJob(one.nodes, one.next, answers, attempt + 1, retries, interval, probes);
        MatchedConcat(one.calls, rest.calls);
        TriedConcat(one.calls, rest.calls);
      }
    } else {
      NothingTried();
    }
  }

  lemma TriedCons(c: Call, calls: seq<Call>)
    ensures Tried([c] + calls) == (if c.Took? then [c.worker] else []) + Tried(calls)
  {
    assert ([c] + calls)[1..] == calls;
  }

  lemma {:induction false} TriedConcat(a: seq<Call>, b: seq<Call>)
    ensures Tried(a + b) == Tried(a) + Tried(b)
  {
    hide Tried;
    if a == [] {
      NothingTried();
      assert a + b == b && [] + Tried(b) == Tried(b);
    } else {
      var c, rest := a[0], a[1..];
      assert a == [c] + rest && a + b == [c] + (rest + b);
      TriedConcat(rest, b);
      TriedCons(c, rest);
      TriedCons(c, rest + b);
      Assoc(if c.Took? then [c.worker] else [], Tried(rest), Tried(b));
    }
  }

  // ---- the manager object ----

  ghost predicate Registered(nodes: seq<WorkerNode>, cfg: WorkerConfig) {
    exists i :: 0 <= i < |nodes| && SameEndpoint(nodes[i].cfg, cfg)
  }

  ghost predicate LastOfEndpoint(workers: seq<WorkerConfig>, cfg: WorkerConfig) {
    exists w :: 0 <= w < |workers| && workers[w] == cfg
                && forall v :: w < v < |workers| ==> !SameEndpoint(workers[v], cfg)
  }

  /** The registered workers are the configured endpoints, each with its last configuration. */
  ghost predicate Configured(nodes: seq<WorkerNode>, workers: seq<WorkerConfig>) {
    && (forall w :: 0 <= w < |workers| ==> Registered(nodes, workers[w]))
    && (forall i :: 0 <= i < |nodes| ==> LastOfEndpoint(workers, nodes[i].cfg))
  }

  lemma RegisteredStays(nodes: seq<WorkerNode>, nodes': seq<WorkerNode>, cfg: WorkerConfig)
    requires Registered(nodes, cfg) && |nodes| <= |nodes'|
    requires forall i :: 0 <= i < |nodes| ==> SameEndpoint(nodes[i].cfg, nodes'[i].cfg)
    ensures Registered(nodes', cfg)
  {
    var i :| 0 <= i < |nodes| && SameEndpoint(nodes[i].cfg, cfg);
    assert SameEndpoint(nodes'[i].cfg, cfg);
  }

  lemma LastStays(workers: seq<WorkerConfig>, cfg: WorkerConfig, last: WorkerConfig)
    ensures LastOfEndpoint(workers + [last], last)
    ensures LastOfEndpoint(workers, cfg) && !SameEndpoint(last, cfg) ==> LastOfEndpoint(workers + [last], cfg)
  {
    var all := workers + [last];
    assert all[|workers|] == last;
    if LastOfEndpoint(workers, cfg) {
      var w :| 0 <= w < |workers| && workers[w] == cfg
               && forall v :: w < v < |workers| ==> !SameEndpoint(workers[v], cfg);
      assert all[w] == cfg;
    }
  }

  lemma ConfiguredNext(nodes: seq<WorkerNode>, nodes': seq<WorkerNode>, workers: seq<WorkerConfig>, id: nat,
                       cfg: WorkerConfig)
    requires Configured(nodes, workers) && DistinctEndpoints(nodes')
    requires id < |nodes'| && nodes'[id].cfg == cfg
    requires || (id < |nodes| && SameEndpoint(nodes[id].cfg, cfg) && nodes' == nodes[id := nodes'[id]])
             || (id == |nodes| && nodes' == nodes + [nodes'[id]])
    ensures Configured(nodes', workers + [cfg])
  {
    hide Registered, LastOfEndpoint;
    var all := workers + [cfg];
    forall w | 0 <= w < |all| ensures Registered(nodes', all[w]) {
      if w < |workers| {
        RegisteredStays(nodes, nodes', workers[w]);
      } else {
        RegisteredAt(nodes', id);
      }
    }
    forall i | 0 <= i < |nodes'| ensures LastOfEndpoint(all, nodes'[i].cfg) {
      LastStays(workers, nodes'[i].cfg, cfg);
      if i < id { assert !SameEndpoint(nodes'[i].cfg, nodes'[id].cfg); }
      if id < i { assert !SameEndpoint(nodes'[id].cfg, nodes'[i].cfg); }
    }
  }

  lemma NothingConfigured()
    ensures Configured([], [])
  {
  }

  lemma RegisteredAt(nodes: seq<WorkerNode>, i: nat)
    requires i < |nodes|
    ensures Registered(nodes, nodes[i].cfg)
  {
    assert SameEndpoint(nodes[i].cfg, nodes[i].cfg);
  }

  lemma SelectionIsChoice(nodes: seq<WorkerNode>, next: nat, found: bool, id: nat)
    requires found ==> IsChoice(nodes, next, id)
    requires !found ==> forall i :: 0 <= i < |nodes| ==> !Selectable(nodes[i])
    ensures Choice(nodes, next) == if found then Some(id) else None
  {
    if found { ChoiceUnique(nodes, next, id, Choice(nodes, next).value); }
  }

  class JudgeManager {
    const balancer: JudgeWorkerBalancer
    const retryCount: int
    const healthCheckIntervalMs: int
    var remoteMode: bool
    ghost var calls: seq<Call>

    ghost predicate Valid()
      reads this, balancer
    {
      balancer.Valid()
    }

    constructor (retryCount: int, healthCheckIntervalMs: int, workers: seq<WorkerConfig>)
      ensures Valid() && fresh(balancer) && calls == []
      ensures this.retryCount == retryCount && this.healthCheckIntervalMs == healthCheckIntervalMs
      ensures remoteMode <==> workers != []
      ensures forall i :: 0 <= i < |balancer.nodes| ==> balancer.nodes[i].load == 0 && balancer.nodes[i].online
      ensures Configured(balancer.nodes, workers)
    {
      hide Configured, DistinctEndpoints, SameEndpoint;
      this.retryCount, this.healthCheckIntervalMs := retryCount, healthCheckIntervalMs;
      assert Configured([], workers[..0]) by { NothingConfigured(); }
      var b := new JudgeWorkerBalancer();
      for i := 0 to |workers|
        invariant fresh(b) && b.Valid() && (|b.nodes| > 0 <==> i > 0)
        invariant forall k :: 0 <= k < |b.nodes| ==> b.nodes[k].load == 0 && b.nodes[k].online
        invariant Configured(b.nodes, workers[..i])
      {
        ghost var before := b.nodes;
        var id, _ := b.UpsertWorker(workers[i]);
        ConfiguredNext(before, b.nodes, workers[..i], id, workers[i]);
        assert workers[..i] + [workers[i]] == workers[..i + 1];
      }
      assert workers[..|workers|] == workers;
      balancer := b;
      remoteMode := |b.nodes| > 0;
      calls := [];
    }

    method RegisterWorker(cfg: WorkerConfig)
      requires Valid()
      modifies this`remoteMode, balancer
      ensures Valid() && remoteMode
      ensures Registers(old(balancer.nodes), cfg, balancer.nodes) && balancer.next == old(balancer.next)
    {
      var _, _ := balancer.UpsertWorker(cfg);
      remoteMode := true;
    }

    /** HealthCheck is asked once per worker, and only when the interval has passed. */
    method ProbeWorkersIfNeeded(elapsedMs: int, healthy: nat -> bool)
      requires Valid()
      modifies balancer`nodes
      ensures Valid()
      ensures balancer.nodes == AfterProbe(old(balancer.nodes), healthCheckIntervalMs, elapsedMs, healthy)
      ensures 0 < healthCheckIntervalMs <= elapsedMs ==>
                forall i :: 0 <= i < |balancer.nodes| ==> (balancer.nodes[i].online <==> healthy(i))
    {
      if healthCheckIntervalMs <= 0 { return; }
      if elapsedMs < healthCheckIntervalMs { return; }
      for id := 0 to |balancer.nodes|
        invariant balancer.Valid() && |balancer.nodes| == |old(balancer.nodes)|
        invariant forall i :: 0 <= i < id ==> balancer.nodes[i] == Probed(old(balancer.nodes)[i], healthy(i))
        invariant forall i :: id <= i < |balancer.nodes| ==> balancer.nodes[i] == old(balancer.nodes)[i]
      {
        if healthy(id) {
          if !balancer.nodes[id].online { balancer.MarkOnline(id); }
        } else {
          if balancer.nodes[id].online { balancer.MarkOffline(id); }
        }
      }
    }

    method ExecuteRemotely(attempt: nat, answers: (nat, nat) -> Answer, elapsedMs: int, healthy: nat -> bool)
      returns (ok: bool, body: string)
      requires Valid()
      modifies balancer, this`calls
      ensures Valid()
      ensures var probed := AfterProbe(old(balancer.nodes), healthCheckIntervalMs, elapsedMs, healthy);
              var o := Attempts(probed, old(balancer.next), answers, attempt, attempt + 1);
                && o.ok == ok && o.body == body && calls == old(calls) + o.calls
                && balancer.nodes == o.nodes && balancer.next == o.next
    {
      hide IsChoice, AfterProbe, Probed, OnlineCount;
      body := "";
      ProbeWorkersIfNeeded(elapsedMs, healthy);
      ghost var before, next := balancer.nodes, balancer.next;
      var found, id, _ := balancer.SelectWorker();
      SelectionIsChoice(before, next, found, id);
      if !found { return false, body; }
      var a := answers(attempt, id);
      balancer.ReleaseWorkerLoad(id);
      calls := calls + [Took(id), Freed(id)];
      if !a.ok || a.status != 200 {
        balancer.MarkOffline(id);
        calls := calls + [Dropped(id)];
        assert [Took(id), Freed(id)] + [Dropped(id)] == [Took(id), Freed(id), Dropped(id)] + [];
        return false, body;
      }
      return true, a.body;
    }

    /** What the retry loop comes to from an attempt on. */
    ghost function LoopFrom(attempt: nat, answers: (nat, nat) -> Answer, probes: Probes): Outcome
      reads this, balancer
    {
      ProbedAttempts(balancer.nodes, balancer.next, answers, attempt, retryCount, healthCheckIntervalMs, probes)
    }

    method ExecuteJob(answers: (nat, nat) -> Answer, probes: Probes) returns (ok: bool, body: string)
      requires Valid()
      modifies balancer, this`calls
      ensures Valid()
      ensures !remoteMode ==> !ok && calls == old(calls) && balancer.nodes == old(balancer.nodes)
      ensures remoteMode ==>
                var o := old(LoopFrom(0, answers, probes));
                && o.ok == ok && o.body == body && calls == old(calls) + o.calls
                && balancer.nodes == o.nodes && balancer.next == o.next
    {
      hide Attempts, AfterProbe;
      body := "";
      if !remoteMode { return false, body; }
      var attempt: nat := 0;
      ghost var whole := LoopFrom(0, answers, probes);
      while attempt < retryCount
        invariant Valid() && 0 <= attempt && body == ""
        invariant retryCount >= 0 ==> attempt <= retryCount
        invariant var rest := LoopFrom(attempt, answers, probes);
                  old(calls) + whole.calls == calls + rest.calls && whole == rest.(calls := whole.calls)
      {
        ghost var probed :=
          AfterProbe(balancer.nodes, healthCheckIntervalMs, probes.elapsed(attempt), probes.healthy(attempt));
        ghost var one := Attempts(probed, balancer.next, answers, attempt, attempt + 1);
        ghost var seen := calls;
        ok, body := ExecuteRemotely(attempt, answers, probes.elapsed(attempt), probes.healthy(attempt));
        Assoc(seen, one.calls, LoopFrom(attempt + 1, answers, probes).calls);
        if ok { return; }
        body := "";
        attempt := attempt + 1;
      }
      assert calls + [] == calls;
      return false, "";
    }
  }
}
