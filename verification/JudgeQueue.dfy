/** JudgeManager's job queue as interleaved steps of submitters, worker threads and shutdown. */
module JudgeQueue {
  import opened Text
  import opened Multisets

  type Job = nat

  /** Where a thread of worker_thread() stands; a job in flight is named by its place in the dequeue order. */
  datatype Worker = AtTop | Entering | Waiting | Woken | Busy(index: nat) | Exited

  /** Where a caller of submit() stands: outside, past the running check, or about to notify. */
  datatype Submitter = Outside | Checked(job: Job) | Pushed

  datatype State = State(
    running: bool,
    queue: seq<Job>,
    workers: seq<Worker>,
    submitters: seq<Submitter>,
    accepted: seq<Job>,      // jobs in the order they were pushed
    taken: seq<Job>,         // jobs in the order they were popped
    finished: multiset<nat>, // places in `taken` whose execution is over
    written: multiset<nat>)  // places in `taken` whose result was written

  datatype Step =
    | Check(s: nat, job: Job)                    // submit: running_ is read
    | Push(s: nat)                               // submit: the locked push
    | Notify(s: nat, wakes: Option<nat>)         // submit: notify_one
    | LoopTop(w: nat)                            // worker: while (running_)
    | Enter(w: nat)                              // worker: lock, test the predicate, pop or block
    | Spurious(w: nat)
    | Finish(w: nat, writes: bool)               // worker: at most one UpdateResult, which may throw
    | Stop                                       // shutdown: running_ = false
    | NotifyAll

  predicate SomeWaiting(s: State) {
    Waiting in s.workers
  }

  predicate Enabled(s: State, step: Step) {
    match step
    case Check(i, _) => i < |s.submitters| && s.submitters[i] == Outside
    case Push(i) => i < |s.submitters| && s.submitters[i].Checked?
    case Notify(i, wakes) =>
      && i < |s.submitters| && s.submitters[i] == Pushed
      && (if SomeWaiting(s) then wakes.Some? && wakes.value < |s.workers| && s.workers[wakes.value] == Waiting
          else wakes == None)
    case LoopTop(w) => w < |s.workers| && s.workers[w] == AtTop
    case Enter(w) => w < |s.workers| && s.workers[w] in {Entering, Woken}
    case Spurious(w) => w < |s.workers| && s.workers[w] == Waiting
    case Finish(w, _) => w < |s.workers| && s.workers[w].Busy?
    case Stop => true
    case NotifyAll => !s.running
  }

  function Set(s: State, w: nat, p: Worker): State
    requires w < |s.workers|
  {
    s.(workers := s.workers[w := p])
  }

  function Next(s: State, step: Step): State
    requires Enabled(s, step)
  {
    match step
    case Check(i, job) => if s.running then s.(submitters := s.submitters[i := Checked(job)]) else s
    case Push(i) =>
      s.(queue := s.queue + [s.submitters[i].job], accepted := s.accepted + [s.submitters[i].job],
         submitters := s.submitters[i := Pushed])
    case Notify(i, wakes) =>
      var t := s.(submitters := s.submitters[i := Outside]);
      if wakes == None then t else Set(t, wakes.value, Woken)
    case LoopTop(w) => Set(s, w, if s.running then Entering else Exited)
    case Enter(w) =>
      if s.queue == [] && s.running then Set(s, w, Waiting)
      else if s.queue == [] then Set(s, w, Exited)
      else Set(s, w, Busy(|s.taken|)).(queue := s.queue[1..], taken := s.taken + [s.queue[0]])
    case Spurious(w) => Set(s, w, Woken)
    case Finish(w, writes) =>
      var k := s.workers[w].index;
      Set(s, w, AtTop).(finished := s.finished + multiset{k},
                        written := if writes then s.written + multiset{k} else s.written)
    case Stop => s.(running := false)
    case NotifyAll => s.(workers := Awake(s.workers))
  }

  function Awake(ws: seq<Worker>): seq<Worker> {
    seq(|ws|, i requires 0 <= i < |ws| => if ws[i] == Waiting then Woken else ws[i])
  }

  function Start(threads: nat, submitters: nat): State {
    State(true, [], seq(threads, _ => AtTop), seq(submitters, _ => Outside), [], [], multiset{}, multiset{})
  }

  ghost predicate Possible(s: State, steps: seq<Step>)
    decreases |steps|
  {
    steps == [] || (Enabled(s, steps[0]) && Possible(Next(s, steps[0]), steps[1..]))
  }

  ghost function Run(s: State, steps: seq<Step>): State
    requires Possible(s, steps)
    decreases |steps|
  {
    if steps == [] then s else Run(Next(s, steps[0]), steps[1..])
  }

  // ---- the inductive invariant ----

  function InFlight(ws: seq<Worker>): multiset<nat> {
    if ws == [] then multiset{}
    else (if ws[0].Busy? then multiset{ws[0].index} else multiset{}) + InFlight(ws[1..])
  }

  function Own(w: Worker): multiset<nat> {
    if w.Busy? then multiset{w.index} else multiset{}
  }

  lemma {:induction false} InFlightUpdate(ws: seq<Worker>, i: nat, w: Worker)
    requires i < |ws|
    ensures InFlight(ws[i := w]) + Own(ws[i]) == InFlight(ws) + Own(w)
  {
    if i == 0 {
      assert ws[i := w][1..] == ws[1..];
    } else {
      assert ws[i := w][1..] == ws[1..][i - 1 := w];
      InFlightUpdate(ws[1..], i - 1, w);
      Regroup(Own(ws[0]), InFlight(ws[1..][i - 1 := w]), Own(ws[i]), InFlight(ws[1..]), Own(w));
    }
  }

  /** One worker changes phase. */
  lemma WorkerMoves(ws: seq<Worker>, i: nat, w: Worker)
    requires i < |ws|
    ensures InFlight(ws[i := w]) + Own(ws[i]) == InFlight(ws) + Own(w)
    ensures Own(ws[i]) == multiset{} ==> InFlight(ws[i := w]) == InFlight(ws) + Own(w)
    ensures Own(w) == multiset{} ==> InFlight(ws[i := w]) + Own(ws[i]) == InFlight(ws)
    ensures multiset(ws[i := w])[Woken] + (if ws[i] == Woken then 1 else 0)
         == multiset(ws)[Woken] + (if w == Woken then 1 else 0)
    ensures Waiting in ws[i := w] ==> w == Waiting || Waiting in ws
  {
    hide InFlight;
    InFlightUpdate(ws, i, w);
    CountUpdate(ws, i, w, Woken);
    if Own(ws[i]) == multiset{} { assert InFlight(ws[i := w]) + multiset{} == InFlight(ws[i := w]); }
    if Own(w) == multiset{} { assert InFlight(ws) + multiset{} == InFlight(ws); }
  }

  lemma {:induction false} InFlightAwake(ws: seq<Worker>)
    ensures InFlight(Awake(ws)) == InFlight(ws) && Waiting !in Awake(ws)
  {
    if ws != [] {
      assert Awake(ws)[1..] == Awake(ws[1..]);
      InFlightAwake(ws[1..]);
    }
  }

  lemma {:induction false} InFlightBound(ws: seq<Worker>)
    ensures |InFlight(ws)| <= |ws|
  {
    if ws != [] { InFlightBound(ws[1..]); }
  }

  /** Wake-ups on their way to a worker: notifications still to be sent and workers already woken. */
  function Pending(s: State): nat {
    multiset(s.submitters)[Pushed] + multiset(s.workers)[Woken]
  }

  ghost predicate Inv(s: State) {
    && s.accepted == s.taken + s.queue
    && s.finished + InFlight(s.workers) == Numbers(|s.taken|)
    && s.written <= s.finished
    && (s.running && SomeWaiting(s) ==> |s.queue| <= Pending(s))
  }

  lemma StartInv(threads: nat, submitters: nat)
    ensures Inv(Start(threads, submitters))
  {
    NobodyBusy(threads);
  }

  lemma {:induction false} NobodyBusy(n: nat)
    ensures InFlight(seq(n, _ => AtTop)) == multiset{} && Waiting !in seq(n, _ => AtTop)
  {
    if n > 0 {
      NobodyBusy(n - 1);
      assert seq(n, _ => AtTop)[1..] == seq(n - 1, _ => AtTop);
    }
  }

  lemma PushInv(s: State, i: nat)
    requires Inv(s) && Enabled(s, Push(i))
    ensures Inv(Next(s, Push(i)))
  {
    hide InFlight;
    Assoc(s.taken, s.queue, [s.submitters[i].job]);
    CountUpdate(s.submitters, i, Pushed, Pushed);
  }

  lemma CheckInv(s: State, i: nat, job: Job)
    requires Inv(s) && Enabled(s, Check(i, job))
    ensures Inv(Next(s, Check(i, job)))
  {
    hide InFlight;
    CountUpdate(s.submitters, i, Checked(job), Pushed);
  }

  lemma EnterInv(s: State, w: nat)
    requires Inv(s) && Enabled(s, Enter(w))
    ensures Inv(Next(s, Enter(w)))
  {
    hide InFlight, Numbers;
    if s.queue == [] {
      WorkerMoves(s.workers, w, if s.running then Waiting else Exited);
    } else {
      PopInv(s, w);
    }
  }

  /** The front of the queue goes into flight. */
  lemma PopInv(s: State, w: nat)
    requires Inv(s) && Enabled(s, Enter(w)) && s.queue != []
    ensures Inv(Next(s, Enter(w)))
  {
    hide InFlight, Numbers;
    var n := |s.taken|;
    WorkerMoves(s.workers, w, Busy(n));
    Conserved(s, w);
    assert s.queue == [s.queue[0]] + s.queue[1..];
    Assoc(s.taken, [s.queue[0]], s.queue[1..]);
  }

  lemma Conserved(s: State, w: nat)
    requires Inv(s) && Enabled(s, Enter(w))
    ensures s.finished + InFlight(s.workers[w := Busy(|s.taken|)]) == Numbers(|s.taken| + 1)
  {
    hide InFlight;
    var n := |s.taken|;
    WorkerMoves(s.workers, w, Busy(n));
    assert s.finished + (InFlight(s.workers) + multiset{n}) == (s.finished + InFlight(s.workers)) + multiset{n};
  }

  lemma NotifyInv(s: State, i: nat, wakes: Option<nat>)
    requires Inv(s) && Enabled(s, Notify(i, wakes))
    ensures Inv(Next(s, Notify(i, wakes)))
  {
    hide InFlight;
    CountUpdate(s.submitters, i, Outside, Pushed);
    if wakes.Some? { WorkerMoves(s.workers, wakes.value, Woken); }
  }

  lemma FinishInv(s: State, w: nat, writes: bool)
    requires Inv(s) && Enabled(s, Finish(w, writes))
    ensures Inv(Next(s, Finish(w, writes)))
  {
    hide InFlight, Numbers;
    WorkerMoves(s.workers, w, AtTop);
    var t, k := Next(s, Finish(w, writes)), multiset{s.workers[w].index};
    assert (s.finished + k) + InFlight(t.workers) == s.finished + (InFlight(t.workers) + k);
  }

  lemma LoopTopInv(s: State, w: nat)
    requires Inv(s) && Enabled(s, LoopTop(w))
    ensures Inv(Next(s, LoopTop(w)))
  {
    hide InFlight;
    WorkerMoves(s.workers, w, if s.running then Entering else Exited);
  }

  lemma SpuriousInv(s: State, w: nat)
    requires Inv(s) && Enabled(s, Spurious(w))
    ensures Inv(Next(s, Spurious(w)))
  {
    hide InFlight;
    WorkerMoves(s.workers, w, Woken);
  }

  lemma ShutdownInv(s: State, step: Step)
    requires Inv(s) && Enabled(s, step) && (step == Stop || step == NotifyAll)
    ensures Inv(Next(s, step))
  {
    hide InFlight;
    InFlightAwake(s.workers);
  }

  lemma StepInv(s: State, step: Step)
    requires Inv(s) && Enabled(s, step)
    ensures Inv(Next(s, step))
  {
    hide Inv, Next, Enabled;
    match step
    case Check(i, job) => CheckInv(s, i, job);
    case Push(i) => PushInv(s, i);
    case Notify(i, wakes) => NotifyInv(s, i, wakes);
    case LoopTop(w) => LoopTopInv(s, w);
    case Enter(w) => EnterInv(s, w);
    case Spurious(w) => SpuriousInv(s, w);
    case Finish(w, writes) => FinishInv(s, w, writes);
    case Stop => ShutdownInv(s, step);
    case NotifyAll => ShutdownInv(s, step);
  }

  lemma {:induction false} RunInv(s: State, steps: seq<Step>)
    requires Inv(s) && Possible(s, steps)
    ensures Inv(Run(s, steps))
    ensures |Run(s, steps).workers| == |s.workers|
    decreases |steps|
  {
    hide Inv;
    if steps != [] {
      StepInv(s, steps[0]);
      RunInv(Next(s, steps[0]), steps[1..]);
    }
  }

  /**
   * Job conservation in every interleaving: jobs leave in the order they came, every accepted job is
   * queued, in flight or finished and only one of these, at most T are in flight, and no result is
   * written twice.
   */
  lemma JobConservation(threads: nat, submitters: nat, steps: seq<Step>)
    requires Possible(Start(threads, submitters), steps)
    ensures var s := Run(Start(threads, submitters), steps);
            && s.taken <= s.accepted && s.queue == s.accepted[|s.taken|..]
            && |s.accepted| == |s.queue| + |InFlight(s.workers)| + |s.finished|
            && |InFlight(s.workers)| <= threads
            && (forall k: nat :: s.finished[k] + InFlight(s.workers)[k] == if k < |s.taken| then 1 else 0)
            && (forall k: nat :: s.written[k] <= 1)
  {
    StartInv(threads, submitters);
    RunInv(Start(threads, submitters), steps);
    var s := Run(Start(threads, submitters), steps);
    NumbersOnce(|s.taken|);
    InFlightBound(s.workers);
    var all := s.finished + InFlight(s.workers);
    assert |all| == |s.finished| + |InFlight(s.workers)|;
    forall k: nat
      ensures s.finished[k] + InFlight(s.workers)[k] == if k < |s.taken| then 1 else 0
      ensures s.written[k] <= 1
    {
      assert all[k] == Numbers(|s.taken|)[k];
      assert s.written[k] <= s.finished[k];
    }
  }

  /** No lost wake-up: while running, queued jobs beside a blocked worker are covered by wake-ups on their way. */
  lemma NoLostJob(threads: nat, submitters: nat, steps: seq<Step>)
    requires Possible(Start(threads, submitters), steps)
    ensures var s := Run(Start(threads, submitters), steps);
            s.running && SomeWaiting(s) ==> |s.queue| <= Pending(s)
  {
    StartInv(threads, submitters);
    RunInv(Start(threads, submitters), steps);
  }

  // ---- running and shutting down ----

  lemma {:induction false} RunStaysStopped(s: State, steps: seq<Step>)
    requires Possible(s, steps)
    ensures Run(s, steps).running ==> s.running
    decreases |steps|
  {
    if steps != [] { RunStaysStopped(Next(s, steps[0]), steps[1..]); }
  }

  lemma {:induction false} NobodyLeaves(s: State, steps: seq<Step>)
    requires Possible(s, steps) && Run(s, steps).running && Exited !in s.workers
    ensures Exited !in Run(s, steps).workers
    decreases |steps|
  {
    if steps != [] {
      RunStaysStopped(Next(s, steps[0]), steps[1..]);
      NobodyLeaves(Next(s, steps[0]), steps[1..]);
    }
  }

  /** While the manager runs no thread ends. */
  lemma ThreadsStay(threads: nat, submitters: nat, steps: seq<Step>)
    requires Possible(Start(threads, submitters), steps) && Run(Start(threads, submitters), steps).running
    ensures Exited !in Run(Start(threads, submitters), steps).workers
  {
    NobodyLeaves(Start(threads, submitters), steps);
  }

  /** A submitter that reads running_ as false is turned away; so once stopped only those already past it add jobs. */
  lemma {:induction false} RefusedOnceStopped(s: State, steps: seq<Step>)
    requires Possible(s, steps) && !s.running && forall i :: 0 <= i < |s.submitters| ==> !s.submitters[i].Checked?
    ensures Run(s, steps).accepted == s.accepted
    decreases |steps|
  {
    if steps != [] { RefusedOnceStopped(Next(s, steps[0]), steps[1..]); }
  }

  /** Inside the lock: the oldest job is taken, shut down or not; without one the thread blocks or ends. */
  lemma EnterOutcome(s: State, w: nat)
    requires Enabled(s, Enter(w))
    ensures var t := Next(s, Enter(w));
            if s.queue != [] then
              t.taken == s.taken + [s.queue[0]] && t.queue == s.queue[1..] && t.workers[w] == Busy(|s.taken|)
            else t.taken == s.taken && t.queue == [] && t.workers[w] == if s.running then Waiting else Exited
  {
  }

  /** How many jobs a thread takes in a run. */
  ghost function Takes(s: State, steps: seq<Step>, w: nat): nat
    requires Possible(s, steps)
    decreases |steps|
  {
    if steps == [] then 0
    else
      var t := Next(s, steps[0]);
      (if steps[0] == Enter(w) && |t.taken| > |s.taken| then 1 else 0) + Takes(t, steps[1..], w)
  }

  /** Once stopped, a thread takes at most one more job, and none unless it was already past its loop test. */
  lemma {:induction false} OneMoreAtMost(s: State, steps: seq<Step>, w: nat)
    requires Possible(s, steps) && !s.running && w < |s.workers|
    ensures Takes(s, steps, w) <= if s.workers[w] in {Entering, Waiting, Woken} then 1 else 0
    decreases |steps|
  {
    if steps != [] { OneMoreAtMost(Next(s, steps[0]), steps[1..], w); }
  }

  lemma {:induction false} NobodyBlocksAgain(s: State, steps: seq<Step>)
    requires Possible(s, steps) && !s.running && Waiting !in s.workers
    ensures Waiting !in Run(s, steps).workers
    decreases |steps|
  {
    if steps != [] { NobodyBlocksAgain(Next(s, steps[0]), steps[1..]); }
  }

  /** Behind the notify_all of a shutdown no thread is blocked, then or later. */
  lemma NobodyWaitsAfterShutdown(s: State, steps: seq<Step>)
    requires Possible(s, [NotifyAll] + steps) && !s.running
    ensures Waiting !in Run(s, [NotifyAll] + steps).workers
  {
    assert ([NotifyAll] + steps)[1..] == steps;
    InFlightAwake(s.workers);
    NobodyBlocksAgain(Next(s, NotifyAll), steps);
  }
}
