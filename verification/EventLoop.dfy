/** EventLoop: handing tasks to the loop thread through a locked list and an eventfd. */
module EventLoop {
  import opened Text

  type Task = nat

  /** Drained: ReadEventfd has returned and the task list is not yet swapped out. */
  datatype Phase = Polling | Handling(sees: bool) | Drained | Running

  /** A caller of QueueInLoop: Pushed is between the locked push and the eventfd write. */
  datatype Producer = Idle | Pushed

  datatype State = State(
    tasks: seq<Task>,
    counter: nat,              // the eventfd
    phase: Phase,
    batch: seq<Task>,          // the swapped-out tasks still to run
    producers: seq<Producer>,  // producers[0] is the loop thread itself
    queued: seq<Task>,         // every task ever pushed, in order
    executed: seq<Task>)       // every task ever run, in order

  datatype Step =
    | Push(p: nat, task: Task)
    | Write(p: nat)
    | WriteInterrupted(p: nat)  // EINTR: WeakUpEventFd returns without having written
    | Poll(sees: bool)          // epoll_wait returns, reporting the eventfd or not
    | ReadEventfd
    | ReadInterrupted           // EINTR or EAGAIN: ReadEventfd returns and the counter stays
    | Swap                      // RunAllTask takes the list
    | RunOne
    | BatchDone

  /** The loop thread pushes only from callbacks and tasks, and finishes the write before going on. */
  predicate Enabled(s: State, step: Step) {
    match step
    case Push(p, _) => p < |s.producers| && s.producers[p] == Idle && (p == 0 ==> s.phase != Polling)
    case Write(p) => p < |s.producers| && s.producers[p] == Pushed
    case WriteInterrupted(p) => p < |s.producers| && s.producers[p] == Pushed
    case _ =>
      && |s.producers| > 0 && s.producers[0] == Idle
      && match step {
           case Poll(sees) => s.phase == Polling && (sees ==> s.counter > 0)
           case ReadEventfd => s.phase == Handling(true)
           case ReadInterrupted => s.phase == Handling(true)
           case Swap => s.phase == Handling(false) || s.phase == Drained
           case RunOne => s.phase == Running && s.batch != []
           case BatchDone => s.phase == Running && s.batch == []
           case _ => false
         }
  }

  function Next(s: State, step: Step): State
    requires Enabled(s, step)
  {
    match step
    case Push(p, task) =>
      s.(tasks := s.tasks + [task], queued := s.queued + [task], producers := s.producers[p := Pushed])
    case Write(p) => s.(counter := s.counter + 1, producers := s.producers[p := Idle])
    case WriteInterrupted(p) => s.(producers := s.producers[p := Idle])
    case Poll(sees) => s.(phase := Handling(sees))
    case ReadEventfd => s.(counter := 0, phase := Drained)
    case ReadInterrupted => s.(phase := Drained)
    case Swap => s.(tasks := [], batch := s.tasks, phase := Running)
    case RunOne => s.(batch := s.batch[1..], executed := s.executed + [s.batch[0]])
    case BatchDone => s.(phase := Polling)
  }

  function Start(producers: nat): State {
    State([], 0, Polling, [], seq(producers, _ => Idle), [], [])
  }

  ghost predicate Possible(s: State, steps: seq<Step>)
    decreases |steps|
  {
    steps == [] || (Enabled(s, steps[0]) && Possible(Next(s, steps[0]), steps[1..]))
  }

  ghost function Run(s: State, steps: seq<Step>): State
    requires Possible(s, steps)
    decreases |steps|
  {
    if steps == [] then s else Run(Next(s, steps[0]), steps[1..])
  }

  // ---- order ----

  /** Queued tasks are run, being run, or in the list, in this order. */
  ghost predicate InOrder(s: State) {
    && s.executed + s.batch + s.tasks == s.queued
    && (s.batch != [] ==> s.phase == Running)
  }

  lemma StepInOrder(s: State, step: Step)
    requires InOrder(s) && Enabled(s, step)
    ensures InOrder(Next(s, step))
  {
    match step
    case Push(_, task) => Assoc(s.executed + s.batch, s.tasks, [task]);
    case Swap => assert s.executed + [] + s.tasks == s.executed + s.tasks + [];
    case RunOne => assert s.executed + s.batch == s.executed + [s.batch[0]] + s.batch[1..];
    case _ =>
  }

  lemma {:induction false} RunInOrder(s: State, steps: seq<Step>)
    requires InOrder(s) && Possible(s, steps)
    ensures InOrder(Run(s, steps))
    decreases |steps|
  {
    hide InOrder;
    if steps != [] {
      StepInOrder(s, steps[0]);
      RunInOrder(Next(s, steps[0]), steps[1..]);
    }
  }

  /** In every interleaving each queued task runs at most once, in queue order. */
  lemma TasksRunInOrder(producers: nat, steps: seq<Step>)
    requires Possible(Start(producers), steps)
    ensures var s := Run(Start(producers), steps);
            s.executed <= s.queued && s.queued[|s.executed|..] == s.batch + s.tasks
  {
    RunInOrder(Start(producers), steps);
    var s := Run(Start(producers), steps);
    Assoc(s.executed, s.batch, s.tasks);
  }

  // ---- wake-ups ----

  /** Outside the window between read and swap a waiting task is announced. */
  ghost predicate Announced(s: State) {
    s.tasks != [] && s.phase != Drained ==> s.counter > 0 || Pushed in s.producers
  }

  lemma StepAnnounced(s: State, step: Step)
    requires Announced(s) && Enabled(s, step) && !step.WriteInterrupted?
    ensures Announced(Next(s, step))
  {
    if step.Push? { assert Next(s, step).producers[step.p] == Pushed; }
  }

  lemma {:induction false} RunAnnounced(s: State, steps: seq<Step>)
    requires Announced(s) && Possible(s, steps)
    requires forall x :: x in steps ==> !x.WriteInterrupted?
    ensures Announced(Run(s, steps))
    decreases |steps|
  {
    hide Announced;
    if steps != [] {
      assert steps[0] in steps;
      StepAnnounced(s, steps[0]);
      RunAnnounced(Next(s, steps[0]), steps[1..]);
    }
  }

  /**
   * No lost wake-up: the loop never sleeps on a task. When it is polling, nobody is between push and
   * write and the eventfd is zero, everything ever queued has been run.
   */
  lemma NoLostTask(producers: nat, steps: seq<Step>)
    requires Possible(Start(producers), steps)
    requires forall x :: x in steps ==> !x.WriteInterrupted?
    ensures var s := Run(Start(producers), steps);
            && (s.tasks != [] && s.phase != Drained ==> s.counter > 0 || Pushed in s.producers)
            && (s.phase == Polling && s.counter == 0 && Pushed !in s.producers ==> s.executed == s.queued)
  {
    RunAnnounced(Start(producers), steps);
    RunInOrder(Start(producers), steps);
  }

  // ---- one turn of the loop ----

  function RunAll(n: nat): seq<Step> {
    if n == 0 then [BatchDone] else [RunOne] + RunAll(n - 1)
  }

  lemma {:induction false} BatchRuns(s: State)
    requires s.phase == Running && |s.producers| > 0 && s.producers[0] == Idle
    ensures var steps := RunAll(|s.batch|);
            && Possible(s, steps)
            && Run(s, steps) == s.(phase := Polling, batch := [], executed := s.executed + s.batch)
    decreases |s.batch|
  {
    var n, steps := |s.batch|, RunAll(|s.batch|);
    if n == 0 {
      assert [BatchDone][1..] == [] && s.executed + [] == s.executed;
      assert Possible(Next(s, BatchDone), []) && Run(Next(s, BatchDone), []) == Next(s, BatchDone);
    } else {
      var t := Next(s, RunOne);
      BatchRuns(t);
      assert steps[0] == RunOne && steps[1..] == RunAll(n - 1);
      assert s.batch == [s.batch[0]] + s.batch[1..];
      Assoc(s.executed, [s.batch[0]], s.batch[1..]);
    }
  }

  /** Once the poll returns, the turn can be finished: it runs every waiting task and comes back to polling. */
  lemma TurnRunsAll(s: State)
    requires s.phase == Polling && s.counter > 0 && s.batch == [] && |s.producers| > 0 && s.producers[0] == Idle
    ensures var steps := [Poll(true), ReadEventfd, Swap] + RunAll(|s.tasks|);
            && Possible(s, steps)
            && Run(s, steps) == s.(counter := 0, tasks := [], executed := s.executed + s.tasks)
  {
    var rest := RunAll(|s.tasks|);
    var steps := [Poll(true), ReadEventfd, Swap] + rest;
    var a := Next(s, Poll(true));
    var b := Next(a, ReadEventfd);
    var c := Next(b, Swap);
    BatchRuns(c);
    assert steps[0] == Poll(true) && steps[1..][0] == ReadEventfd && steps[1..][1..][0] == Swap;
    assert steps[1..][1..][1..] == rest;
    assert Possible(b, steps[1..][1..]) && Run(b, steps[1..][1..]) == Run(c, rest);
    assert Possible(a, steps[1..]) && Run(a, steps[1..]) == Run(c, rest);
  }

  // ---- exactly when a wake-up is lost ----

  /** A task has been pushed since the list was last swapped out. */
  ghost predicate PushedSinceSwap(steps: seq<Step>) {
    exists i :: 0 <= i < |steps| && steps[i].Push? && forall j :: i < j < |steps| ==> !steps[j].Swap?
  }

  /** The eventfd has been written since it was last read. */
  ghost predicate WrittenSinceRead(steps: seq<Step>) {
    exists i :: 0 <= i < |steps| && steps[i].Write? && forall j :: i < j < |steps| ==> !steps[j].ReadEventfd?
  }

  predicate Finishes(step: Step, p: nat) { step == Write(p) || step == WriteInterrupted(p) }

  /** Some push has not come to its write yet. */
  ghost predicate WritePending(steps: seq<Step>) {
    exists i :: 0 <= i < |steps| && steps[i].Push? && forall j :: i < j < |steps| ==> !Finishes(steps[j], steps[i].p)
  }

  // One step in front: the three histories unfold from the head of the run.

  lemma Shifted(steps: seq<Step>)
    requires steps != []
    ensures forall i :: 0 <= i < |steps[1..]| ==> steps[1..][i] == steps[i + 1]
    ensures forall i :: 1 <= i < |steps| ==> steps[i] == steps[1..][i - 1]
  {
  }

  lemma PushedCons(steps: seq<Step>)
    requires steps != []
    ensures PushedSinceSwap(steps) <==>
            PushedSinceSwap(steps[1..]) || (steps[0].Push? && forall y :: y in steps[1..] ==> !y.Swap?)
  {
    var rest := steps[1..];
    Shifted(steps);
    if i :| 0 <= i < |rest| && rest[i].Push? && forall j :: i < j < |rest| ==> !rest[j].Swap? {
      assert steps[i + 1].Push?;
    }
  }

  lemma WrittenCons(steps: seq<Step>)
    requires steps != []
    ensures WrittenSinceRead(steps) <==>
            WrittenSinceRead(steps[1..]) || (steps[0].Write? && forall y :: y in steps[1..] ==> !y.ReadEventfd?)
  {
    var rest := steps[1..];
    Shifted(steps);
    if i :| 0 <= i < |rest| && rest[i].Write? && forall j :: i < j < |rest| ==> !rest[j].ReadEventfd? {
      assert steps[i + 1].Write?;
    }
  }

  lemma PendingCons(steps: seq<Step>)
    requires steps != []
    ensures WritePending(steps) <==>
            WritePending(steps[1..]) || (steps[0].Push? && forall y :: y in steps[1..] ==> !Finishes(y, steps[0].p))
  {
    hide Finishes;
    var rest := steps[1..];
    Shifted(steps);
    if i :| 0 <= i < |rest| && rest[i].Push? && forall j :: i < j < |rest| ==> !Finishes(rest[j], rest[i].p) {
      assert steps[i + 1].Push?;
    }
  }

  /** The tasks waiting and the signals raised at the end of a run, told from its steps alone. */
  lemma {:induction false} HistoryTells(s: State, steps: seq<Step>)
    requires Possible(s, steps)
    ensures var t := Run(s, steps);
            && (t.tasks != [] <==> PushedSinceSwap(steps) || (s.tasks != [] && forall y :: y in steps ==> !y.Swap?))
            && (t.counter > 0 <==>
                WrittenSinceRead(steps) || (s.counter > 0 && forall y :: y in steps ==> !y.ReadEventfd?))
    decreases |steps|
  {
    hide PushedSinceSwap, WrittenSinceRead, WritePending, Enabled;
    if steps == [] {
      NoHistory();
    } else {
      PushedCons(steps);
      WrittenCons(steps);
      HistoryTells(Next(s, steps[0]), steps[1..]);
      assert forall y :: y in steps <==> y == steps[0] || y in steps[1..];
    }
  }

  lemma NoHistory()
    ensures !PushedSinceSwap([]) && !WrittenSinceRead([]) && !WritePending([])
  {
  }

  /** Producers between push and write, told from the steps. */
  lemma {:induction false} PendingTells(s: State, steps: seq<Step>)
    requires Possible(s, steps)
    ensures Pushed in Run(s, steps).producers <==>
            || WritePending(steps)
            || exists p :: 0 <= p < |s.producers| && s.producers[p] == Pushed
                           && forall y :: y in steps ==> !Finishes(y, p)
    decreases |steps|
  {
    hide PushedSinceSwap, WrittenSinceRead, WritePending;
    if steps == [] {
      NoHistory();
    } else {
      var x, rest, n := steps[0], steps[1..], Next(s, steps[0]);
      PendingCons(steps);
      PendingTells(n, rest);
      assert forall y :: y in steps <==> y == x || y in rest;
      if x.Push? && forall y :: y in rest ==> !Finishes(y, x.p) { assert n.producers[x.p] == Pushed; }
      if p :| 0 <= p < |s.producers| && s.producers[p] == Pushed && forall y :: y in steps ==> !Finishes(y, p) {
        assert x in steps && n.producers[p] == Pushed;
      }
    }
  }

  /**
   * In every interleaving, interrupted calls included: outside the window between read and swap a
   * waiting task is unannounced if and only if something was pushed since the last swap, nothing was
   * written since the last read, and no push still has its write before it.
   */
  lemma WakeUpLostExactly(producers: nat, steps: seq<Step>)
    requires Possible(Start(producers), steps) && Run(Start(producers), steps).phase != Drained
    ensures !Announced(Run(Start(producers), steps)) <==>
            PushedSinceSwap(steps) && !WrittenSinceRead(steps) && !WritePending(steps)
  {
    hide PushedSinceSwap, WrittenSinceRead, WritePending, Possible, Run;
    HistoryTells(Start(producers), steps);
    PendingTells(Start(producers), steps);
  }

  /** Such a run: the loop polls, nobody is about to write, and the task stays. */
  lemma InterruptedWriteLoses(task: Task)
    ensures var steps := [Push(1, task), WriteInterrupted(1)];
            && Possible(Start(2), steps)
            && var s := Run(Start(2), steps);
               s.phase == Polling && s.counter == 0 && Pushed !in s.producers && s.tasks == [task] && s.executed == []
  {
    var s0, a, b := Start(2), Push(1, task), WriteInterrupted(1);
    var s1 := Next(s0, a);
    var s2 := Next(s1, b);
    assert s2.producers == [Idle, Idle];
    assert [a, b][1..] == [b] && [b][1..] == [];
    assert Possible(s2, []) && Run(s2, []) == s2;
    assert Possible(s1, [b]) && Run(s1, [b]) == s2;
    assert Possible(s0, [a, b]) && Run(s0, [a, b]) == s2;
  }
}
