/** What the timer wheel means: a map from id to deadline, advanced one tick at a time. */
module TimerModel {

  const CAPACITY: nat := 60

  datatype Timer = Timer(at: nat, delay: nat, canceled: bool)

  /** log[k] holds the ids whose callback ran in tick k + 1. */
  datatype Model = Model(now: nat, timers: map<nat, Timer>, log: seq<set<nat>>)

  const EMPTY: Model := Model(0, map[], [])

  datatype Event = Add(id: nat, delay: nat) | Refresh(id: nat) | Cancel(id: nat) | Tick

  /** How long a delay lasts on a wheel of 60 slots. */
  function Span(delay: nat): (s: nat)
    ensures 1 <= s <= CAPACITY
  {
    (delay - 1) % CAPACITY + 1
  }

  /** The wheel keeps a delay exactly when it fits. */
  lemma SpanExact(delay: nat)
    ensures Span(delay) == delay <==> 1 <= delay <= 60
  {
  }

  function Expired(m: Model): set<nat> {
    set id | id in m.timers && m.timers[id].at == m.now + 1
  }

  function Fired(m: Model): set<nat> {
    set id | id in m.timers && m.timers[id].at == m.now + 1 && !m.timers[id].canceled
  }

  function Apply(m: Model, e: Event): Model {
    match e
    case Add(id, delay) => m.(timers := m.timers[id := Timer(m.now + Span(delay), delay, false)])
    case Refresh(id) =>
      if id !in m.timers then m
      else
        var t := m.timers[id];
        m.(timers := m.timers[id := t.(at := m.now + Span(t.delay))])
    case Cancel(id) =>
      if id !in m.timers then m else m.(timers := m.timers[id := m.timers[id].(canceled := true)])
    case Tick => Model(m.now + 1, m.timers - Expired(m), m.log + [Fired(m)])
  }

  /** A delay is an int once it is refreshed, and an id is not reused while its timer lives. */
  predicate Legal(m: Model, e: Event) {
    e.Add? ==> e.id !in m.timers && e.delay < 0x8000_0000
  }

  ghost predicate AllLegal(m: Model, es: seq<Event>)
    decreases |es|
  {
    es == [] || (Legal(m, es[0]) && AllLegal(Apply(m, es[0]), es[1..]))
  }

  function Run(m: Model, es: seq<Event>): Model
    decreases |es|
  {
    if es == [] then m else Run(Apply(m, es[0]), es[1..])
  }

  function Ticks(n: nat): seq<Event> {
    seq(n, _ => Tick)
  }

  predicate Touches(e: Event, id: nat) {
    !e.Tick? && e.id == id
  }

  predicate Wellformed(m: Model) {
    |m.log| == m.now
  }

  lemma {:induction false} RunGrows(m: Model, es: seq<Event>)
    requires Wellformed(m)
    ensures var r := Run(m, es); Wellformed(r) && m.log <= r.log
    decreases |es|
  {
    if es != [] { RunGrows(Apply(m, es[0]), es[1..]); }
  }

  /** An id without a timer does not fire until it is added again. */
  lemma {:induction false} AbsentNeverFires(m: Model, es: seq<Event>, id: nat)
    requires Wellformed(m) && id !in m.timers
    requires forall e :: e in es ==> !(e.Add? && e.id == id)
    ensures var r := Run(m, es);
            id !in r.timers && m.now <= r.now == |r.log| && forall k :: m.now <= k < r.now ==> id !in r.log[k]
    decreases |es|
  {
    RunGrows(m, es);
    if es != [] {
      assert es[0] in es;
      RunGrows(Apply(m, es[0]), es[1..]);
      AbsentNeverFires(Apply(m, es[0]), es[1..], id);
    }
  }

  /** A cancelled timer never fires, whatever refreshes follow. */
  lemma {:induction false} CanceledNeverFires(m: Model, es: seq<Event>, id: nat)
    requires Wellformed(m) && id in m.timers && m.timers[id].canceled
    requires forall e :: e in es ==> !(e.Add? && e.id == id)
    ensures var r := Run(m, es);
            m.now <= r.now == |r.log| && forall k :: m.now <= k < r.now ==> id !in r.log[k]
    decreases |es|
  {
    RunGrows(m, es);
    if es != [] {
      assert es[0] in es;
      var n := Apply(m, es[0]);
      RunGrows(n, es[1..]);
      if id in n.timers {
        CanceledNeverFires(n, es[1..], id);
      } else {
        AbsentNeverFires(n, es[1..], id);
      }
    }
  }

  /**
   * A timer left alone lives until its deadline; it fires in that tick and in no other, and not even
   * then if it was cancelled.
   */
  lemma {:induction false} FiresAtDeadline(m: Model, es: seq<Event>, id: nat)
    requires Wellformed(m) && id in m.timers && m.now < m.timers[id].at
    requires forall e :: e in es ==> !Touches(e, id)
    ensures var r, t := Run(m, es), m.timers[id];
            && m.now <= r.now == |r.log|
            && (id in r.timers <==> r.now < t.at) && (id in r.timers ==> r.timers[id] == t)
            && forall k :: m.now <= k < r.now ==> (id in r.log[k] <==> !t.canceled && k + 1 == t.at)
    decreases |es|
  {
    RunGrows(m, es);
    if es != [] {
      assert es[0] in es;
      var n := Apply(m, es[0]);
      RunGrows(n, es[1..]);
      if id in n.timers {
        FiresAtDeadline(n, es[1..], id);
      } else {
        assert forall e :: e in es[1..] ==> e in es;
        AbsentNeverFires(n, es[1..], id);
      }
    }
  }

  /** The timer an add or a refresh (re)starts. */
  predicate Starts(m: Model, e: Event, id: nat, delay: nat) {
    || e == Add(id, delay)
    || (e == Refresh(id) && id in m.timers && !m.timers[id].canceled && m.timers[id].delay == delay)
  }

  /**
   * After its last add or refresh an uncancelled timer is alive for exactly Span(delay) ticks and
   * fires exactly once, in the last of them; that is `delay` ticks if and only if 1 <= delay <= 60.
   */
  lemma FiresExactlyOnce(m: Model, e: Event, es: seq<Event>, id: nat, delay: nat)
    requires Wellformed(m) && Starts(m, e, id, delay)
    requires forall x :: x in es ==> !Touches(x, id)
    ensures var r := Run(m, [e] + es);
            && |r.log| == r.now
            && (id in r.timers <==> r.now < m.now + Span(delay))
            && forall k :: m.now <= k < r.now ==> (id in r.log[k] <==> k + 1 == m.now + Span(delay))
    ensures Span(delay) == delay <==> 1 <= delay <= 60
  {
    SpanExact(delay);
    assert ([e] + es)[1..] == es;
    FiresAtDeadline(Apply(m, e), es, id);
  }

  lemma {:induction false} RunConcat(m: Model, es: seq<Event>, fs: seq<Event>)
    ensures Run(m, es + fs) == Run(Run(m, es), fs)
    decreases |es|
  {
    if es == [] {
      assert es + fs == fs;
    } else {
      assert (es + fs)[0] == es[0] && (es + fs)[1..] == es[1..] + fs;
      RunConcat(Apply(m, es[0]), es[1..], fs);
    }
  }

  /** Refreshing is all that happens to the timer. */
  predicate OnlyRefreshes(es: seq<Event>, id: nat) {
    forall e :: e in es && Touches(e, id) ==> e.Refresh?
  }

  /** Refreshes keep the delay the timer was added with, and do not cancel. */
  lemma {:induction false} RefreshedKeepsDelay(m: Model, es: seq<Event>, id: nat)
    requires OnlyRefreshes(es, id)
    ensures var r := Run(m, es);
            id in r.timers ==> id in m.timers && r.timers[id].delay == m.timers[id].delay
                               && r.timers[id].canceled == m.timers[id].canceled
    decreases |es|
  {
    if es != [] {
      assert es[0] in es && forall e :: e in es[1..] ==> e in es;
      RefreshedKeepsDelay(Apply(m, es[0]), es[1..], id);
    }
  }

  /**
   * Refresh semantics: a timer added with a delay, refreshed any number of times and still alive, fires
   * exactly once, Span(delay) ticks after its last refresh, with the delay of the add.
   */
  lemma RefreshRestarts(m: Model, es: seq<Event>, fs: seq<Event>, id: nat, delay: nat)
    requires Wellformed(m) && OnlyRefreshes(es, id) && id in Run(m, [Add(id, delay)] + es).timers
    requires forall e :: e in fs ==> !Touches(e, id)
    ensures var n, r := Run(m, [Add(id, delay)] + es), Run(m, [Add(id, delay)] + es + [Refresh(id)] + fs);
            && n.now <= r.now == |r.log|
            && (id in r.timers <==> r.now < n.now + Span(delay))
            && forall k :: n.now <= k < r.now ==> (id in r.log[k] <==> k + 1 == n.now + Span(delay))
  {
    var start := [Add(id, delay)] + es;
    assert start[1..] == es;
    RefreshedKeepsDelay(Apply(m, Add(id, delay)), es, id);
    RunGrows(m, start);
    RunConcat(m, start, [Refresh(id)] + fs);
    assert start + ([Refresh(id)] + fs) == start + [Refresh(id)] + fs;
    FiresExactlyOnce(Run(m, start), Refresh(id), fs, id, delay);
    RunGrows(Run(m, start), [Refresh(id)] + fs);
  }

  /** A cancel stops the timer, whatever else happens short of a new add, and keeps its deadline. */
  lemma CancelStops(m: Model, es: seq<Event>, id: nat)
    requires Wellformed(m)
    requires forall e :: e in es ==> !(e.Add? && e.id == id)
    ensures var r := Run(m, [Cancel(id)] + es);
            m.now <= r.now == |r.log| && forall k :: m.now <= k < r.now ==> id !in r.log[k]
    ensures id in m.timers && m.now < m.timers[id].at && (forall e :: e in es ==> !Touches(e, id)) ==>
              var r := Run(m, [Cancel(id)] + es); id in r.timers <==> r.now < m.timers[id].at
  {
    var n := Apply(m, Cancel(id));
    assert ([Cancel(id)] + es)[1..] == es;
    if id in m.timers {
      CanceledNeverFires(n, es, id);
      if m.now < m.timers[id].at && forall e :: e in es ==> !Touches(e, id) { FiresAtDeadline(n, es, id); }
    } else {
      AbsentNeverFires(n, es, id);
    }
  }

  /** A refresh prolongs every timer that is alive, and a cancelled one stays cancelled. */
  lemma RefreshProlongs(m: Model, es: seq<Event>, id: nat)
    requires Wellformed(m) && id in m.timers && forall e :: e in es ==> !Touches(e, id)
    ensures var r, at := Run(m, [Refresh(id)] + es), m.now + Span(m.timers[id].delay);
            && m.now <= r.now == |r.log| && (id in r.timers <==> r.now < at)
            && forall k :: m.now <= k < r.now ==> (id in r.log[k] <==> !m.timers[id].canceled && k + 1 == at)
  {
    assert ([Refresh(id)] + es)[1..] == es;
    FiresAtDeadline(Apply(m, Refresh(id)), es, id);
  }

  /** The two models have the same timer under an id, or none. */
  predicate SameTimer(m: Model, n: Model, id: nat) {
    m.now == n.now && (id in m.timers <==> id in n.timers) && (id in m.timers ==> m.timers[id] == n.timers[id])
  }

  lemma {:induction false} SameTimerRuns(m: Model, n: Model, es: seq<Event>, id: nat)
    requires Wellformed(m) && Wellformed(n) && SameTimer(m, n, id)
    ensures var r, s := Run(m, es), Run(n, es);
            && m.now <= r.now == |r.log| == |s.log| && SameTimer(r, s, id)
            && forall k :: m.now <= k < r.now ==> (id in r.log[k] <==> id in s.log[k])
    decreases |es|
  {
    if es != [] {
      var a, b := Apply(m, es[0]), Apply(n, es[0]);
      RunGrows(a, es[1..]);
      RunGrows(b, es[1..]);
      SameTimerRuns(a, b, es[1..], id);
    }
  }

  /** Adding, refreshing or cancelling one timer changes nothing for any other. */
  lemma OthersUnaffected(m: Model, e: Event, es: seq<Event>, id: nat)
    requires Wellformed(m) && !e.Tick? && e.id != id
    ensures var r, s := Run(m, [e] + es), Run(m, es);
            && m.now <= r.now == |r.log| == |s.log| && (id in r.timers <==> id in s.timers)
            && forall k :: m.now <= k < r.now ==> (id in r.log[k] <==> id in s.log[k])
  {
    assert ([e] + es)[1..] == es;
    SameTimerRuns(Apply(m, e), m, es, id);
  }
}
