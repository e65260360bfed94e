/** TimerTask and TimerWheel: a wheel of counted references that refines the deadline map. */
module TimerWheel {
  import opened Arith
  import opened TimerModel

  /** The destructor runs when `refs`, the shared_ptr use count, drops to zero. */
  class TimerTask {
    const id: nat
    const timeout: nat
    var canceled: bool
    var refs: nat

    constructor (id: nat, delay: nat)
      ensures this.id == id && timeout == delay && !canceled && refs == 0
    {
      this.id, timeout, canceled, refs := id, delay, false, 0;
    }
  }

  type Slot = seq<TimerTask>

  /** How many references to a task the slots hold. */
  ghost function Refs(slots: seq<Slot>, t: TimerTask): nat {
    if slots == [] then 0 else multiset(slots[0])[t] + Refs(slots[1..], t)
  }

  lemma {:induction false} RefsUpdate(slots: seq<Slot>, p: nat, s: Slot, t: TimerTask)
    requires p < |slots|
    ensures Refs(slots[p := s], t) + multiset(slots[p])[t] == Refs(slots, t) + multiset(s)[t]
  {
    if p > 0 {
      assert slots[p := s][1..] == slots[1..][p - 1 := s];
      RefsUpdate(slots[1..], p - 1, s, t);
    } else {
      assert slots[p := s][1..] == slots[1..];
    }
  }

  lemma {:induction false} RefsPositive(slots: seq<Slot>, t: TimerTask)
    ensures Refs(slots, t) > 0 <==> exists p :: 0 <= p < |slots| && t in slots[p]
  {
    if slots != [] {
      RefsPositive(slots[1..], t);
      if p :| 0 <= p < |slots| && t in slots[p] {
        if p > 0 { assert t in slots[1..][p - 1]; }
      }
      if q :| 0 <= q < |slots[1..]| && t in slots[1..][q] {
        assert t in slots[q + 1];
      }
    }
  }

  /** The tick at which a slot is cleared next. */
  function Expiry(now: nat, slot: nat): nat {
    now + 1 + (slot - now - 1) % CAPACITY
  }

  type Timers = map<nat, TimerTask>

  /** A task sits in the slot of its deadline and in no slot cleared later. */
  ghost predicate Placed(now: nat, slots: seq<Slot>, timers: Timers, due: map<nat, Timer>) {
    && |slots| == CAPACITY && timers.Keys == due.Keys
    && (forall id :: id in timers ==> PlacedTimer(now, slots, timers[id], id, due[id]))
    && (forall p, t :: 0 <= p < CAPACITY && t in slots[p] ==>
          t.id in timers && timers[t.id] == t && Expiry(now, p) <= due[t.id].at)
  }

  ghost predicate PlacedTimer(now: nat, slots: seq<Slot>, t: TimerTask, id: nat, d: Timer)
    requires |slots| == CAPACITY
  {
    && t.id == id && t.timeout == d.delay < 0x8000_0000
    && now < d.at <= now + Span(d.delay)
    && t in slots[d.at % CAPACITY]
  }

  /** The fields of the task object agree with the wheel and the model. */
  ghost predicate Counted(slots: seq<Slot>, t: TimerTask, d: Timer)
    reads t
  {
    t.refs == Refs(slots, t) && t.canceled == d.canceled
  }

  /** The callbacks run in one tick: each id once, and exactly the ids of the model. */
  ghost predicate Batch(ids: seq<nat>, expected: set<nat>) {
    && (forall i, j :: 0 <= i < j < |ids| ==> ids[i] != ids[j])
    && (forall id :: id in ids <==> id in expected)
  }

  lemma AddSlot(now: nat, delay: nat)
    ensures Expiry(now, (now % CAPACITY + delay) % CAPACITY) == now + Span(delay)
    ensures (now + Span(delay)) % CAPACITY == (now % CAPACITY + delay) % CAPACITY
  {
    var a, q := now % CAPACITY, now / CAPACITY;
    var pos, k := (a + delay) % CAPACITY, (a + delay) / CAPACITY;
    var s, d := (delay - 1) % CAPACITY, (delay - 1) / CAPACITY;
    assert delay == CAPACITY * d + s + 1;
    DivMod(pos - now - 1, CAPACITY, d - k - q, s);
    DivMod(now + s + 1, CAPACITY, q + k - d, pos);
  }

  lemma SlotTime(now: nat, at: nat)
    requires now < at <= now + CAPACITY
    ensures Expiry(now, at % CAPACITY) == at
  {
    DivMod(at % CAPACITY - now - 1, CAPACITY, -(at / CAPACITY), at - now - 1);
  }

  lemma ClearedLater(now: nat, q: nat)
    requires q < CAPACITY
    ensures Expiry(now, q) == now + 1 <==> q == (now + 1) % CAPACITY
    ensures q != (now + 1) % CAPACITY ==> Expiry(now + 1, q) == Expiry(now, q) > now + 1
  {
    var m, r := (now + 1) / CAPACITY, (now + 1) % CAPACITY;
    if q >= r {
      DivMod(q - now - 1, CAPACITY, -m, q - r);
      if q > r { DivMod(q - now - 2, CAPACITY, -m, q - r - 1); }
    } else {
      DivMod(q - now - 1, CAPACITY, -m - 1, q - r + CAPACITY);
      DivMod(q - now - 2, CAPACITY, -m - 1, q - r - 1 + CAPACITY);
    }
  }

  lemma OthersKeepRefs(slots: seq<Slot>, pos: nat, pt: TimerTask)
    requires pos < |slots|
    ensures forall t: TimerTask :: t != pt ==> Refs(slots[pos := slots[pos] + [pt]], t) == Refs(slots, t)
  {
    forall t: TimerTask | t != pt
      ensures Refs(slots[pos := slots[pos] + [pt]], t) == Refs(slots, t)
    {
      RefsUpdate(slots, pos, slots[pos] + [pt], t);
    }
  }

  /** Pushing a task into the slot of a deadline that is `Span(delay)` ticks away. */
  lemma PlacedPush(now: nat, slots: seq<Slot>, timers: Timers, due: map<nat, Timer>, pt: TimerTask, d: Timer)
    requires Placed(now, slots, timers, due)
    requires pt.id in timers ==> timers[pt.id] == pt
    requires pt.timeout == d.delay < 0x8000_0000 && d.at == now + Span(d.delay)
    ensures var pos := (now % CAPACITY + d.delay) % CAPACITY;
            Placed(now, slots[pos := slots[pos] + [pt]], timers[pt.id := pt], due[pt.id := d])
  {
    AddSlot(now, d.delay);
    var pos := (now % CAPACITY + d.delay) % CAPACITY;
    var slots', timers', due' := slots[pos := slots[pos] + [pt]], timers[pt.id := pt], due[pt.id := d];
    forall id | id in timers' ensures PlacedTimer(now, slots', timers'[id], id, due'[id]) {
      if id != pt.id { assert PlacedTimer(now, slots, timers[id], id, due[id]); }
    }
    forall p: nat, t: TimerTask | p < CAPACITY && t in slots'[p]
      ensures t.id in timers' && timers'[t.id] == t && Expiry(now, p) <= due'[t.id].at
    {
      if t in slots[p] {
        assert t.id == pt.id ==> PlacedTimer(now, slots, timers[t.id], t.id, due[t.id]);
      }
    }
  }

  /** What holds of the tasks of the slot about to be cleared, and of all others. */
  lemma SlotTaken(now: nat, slots: seq<Slot>, timers: Timers, due: map<nat, Timer>, p: nat)
    requires Placed(now, slots, timers, due) && p == (now + 1) % CAPACITY
    ensures forall t :: t in slots[p] ==> t.id in timers && timers[t.id] == t
    ensures forall id :: id in timers ==> timers[id].id == id
    ensures forall id :: id in timers ==>
              Refs(slots, timers[id]) == Refs(slots[p := []], timers[id]) + multiset(slots[p])[timers[id]]
    ensures forall id :: id in timers ==> (Refs(slots[p := []], timers[id]) == 0 <==> due[id].at == now + 1)
  {
    hide Expiry, Refs;
    forall id | id in timers
      ensures timers[id].id == id
      ensures Refs(slots, timers[id]) == Refs(slots[p := []], timers[id]) + multiset(slots[p])[timers[id]]
      ensures Refs(slots[p := []], timers[id]) == 0 <==> due[id].at == now + 1
    {
      assert PlacedTimer(now, slots, timers[id], id, due[id]);
      RefsUpdate(slots, p, [], timers[id]);
      LastSlot(now, slots, timers, due, p, id);
    }
  }

  /** The slot being cleared holds the last references exactly of the tasks whose deadline has come. */
  lemma LastSlot(now: nat, slots: seq<Slot>, timers: Timers, due: map<nat, Timer>, p: nat, id: nat)
    requires Placed(now, slots, timers, due) && p == (now + 1) % CAPACITY && id in timers
    ensures Refs(slots[p := []], timers[id]) == 0 <==> due[id].at == now + 1
  {
    hide Expiry, Refs;
    var t, at := timers[id], due[id].at;
    assert PlacedTimer(now, slots, t, id, due[id]);
    RefsPositive(slots[p := []], t);
    SlotTime(now, at);
    if at == now + 1 {
      forall q | 0 <= q < CAPACITY && q != p ensures t !in slots[q] {
        ClearedLater(now, q);
      }
    } else {
      ClearedLater(now, at % CAPACITY);
      assert t in slots[p := []][at % CAPACITY];
    }
  }

  /** The model's tick, in terms of the ids left and the callbacks run. */
  lemma Ticked(m: Model, fired: seq<nat>, left: set<nat>)
    requires forall id :: id in left <==> id in m.timers && m.timers[id].at != m.now + 1
    requires forall id :: id in fired <==> id in m.timers && id !in left && !m.timers[id].canceled
    requires forall j, k :: 0 <= j < k < |fired| ==> fired[j] != fired[k]
    ensures Batch(fired, Fired(m))
    ensures var r := Apply(m, Tick);
            && r.now == m.now + 1 && r.log == m.log + [Fired(m)]
            && r.timers == m.timers - (set id | id in m.timers && m.timers[id].at == m.now + 1)
            && r.timers.Keys == left && forall id :: id in left ==> r.timers[id] == m.timers[id]
  {
  }

  lemma PlacedTick(now: nat, slots: seq<Slot>, timers: Timers, due: map<nat, Timer>, p: nat, timers': Timers)
    requires Placed(now, slots, timers, due) && p == (now + 1) % CAPACITY
    requires forall id :: id in timers' <==> id in timers && due[id].at != now + 1
    requires forall id :: id in timers' ==> timers'[id] == timers[id]
    ensures Placed(now + 1, slots[p := []], timers', due - (set id | id in due && due[id].at == now + 1))
  {
    hide Expiry;
    var due', slots' := due - (set id | id in due && due[id].at == now + 1), slots[p := []];
    assert timers'.Keys == due'.Keys;
    forall id | id in timers' ensures PlacedTimer(now + 1, slots', timers'[id], id, due'[id]) {
      assert PlacedTimer(now, slots, timers[id], id, due[id]);
      SlotTime(now, due[id].at);
      ClearedLater(now, due[id].at % CAPACITY);
    }
    forall q: nat, t: TimerTask | q < CAPACITY && t in slots'[q]
      ensures t.id in timers' && timers'[t.id] == t && Expiry(now + 1, q) <= due'[t.id].at
    {
      assert q != p && t in slots[q];
      ClearedLater(now, q);
    }
  }

  lemma PlacedCancel(now: nat, slots: seq<Slot>, timers: Timers, due: map<nat, Timer>, id: nat)
    requires Placed(now, slots, timers, due) && id in due
    ensures Placed(now, slots, timers, due[id := due[id].(canceled := true)])
  {
    var due' := due[id := due[id].(canceled := true)];
    forall i | i in timers ensures PlacedTimer(now, slots, timers[i], i, due'[i]) {
      assert PlacedTimer(now, slots, timers[i], i, due[i]);
    }
  }

  lemma Referenced(now: nat, slots: seq<Slot>, timers: Timers, due: map<nat, Timer>, id: nat)
    requires Placed(now, slots, timers, due) && id in timers
    ensures Refs(slots, timers[id]) > 0
  {
    assert PlacedTimer(now, slots, timers[id], id, due[id]);
    RefsPositive(slots, timers[id]);
  }

  lemma PlacedSize(now: nat, slots: seq<Slot>, timers: Timers, due: map<nat, Timer>)
    requires Placed(now, slots, timers, due)
    ensures |slots| == CAPACITY && timers.Keys == due.Keys
    ensures forall id :: id in timers ==> timers[id].id == id
  {
    forall id | id in timers ensures timers[id].id == id {
      assert PlacedTimer(now, slots, timers[id], id, due[id]);
    }
  }

  class TimerWheel {
    var tick: nat
    var wheel: seq<Slot>
    var timers: Timers                 // weak pointers
    ghost var model: Model
    ghost var batches: seq<seq<nat>>   // the callbacks run in each tick, in order

    ghost predicate Valid()
      reads this, timers.Values
    {
      && tick == model.now % CAPACITY
      && Placed(model.now, wheel, timers, model.timers)
      && (forall id :: id in timers ==> Counted(wheel, timers[id], model.timers[id]))
      && |batches| == |model.log| == model.now
      && (forall k :: 0 <= k < |batches| ==> Batch(batches[k], model.log[k]))
    }

    constructor ()
      ensures Valid() && model == EMPTY && timers == map[]
    {
      tick, wheel, timers := 0, seq(CAPACITY, _ => []), map[];
      model, batches := EMPTY, [];
    }

    /** A live task has references: the weak pointer of `timers` can always be locked. */
    lemma LockSucceeds(id: nat)
      requires Valid() && id in timers
      ensures timers[id].refs > 0
    {
      assert Counted(wheel, timers[id], model.timers[id]);
      Referenced(model.now, wheel, timers, model.timers, id);
    }

    method PushRef(pos: nat, pt: TimerTask)
      requires pos < |wheel| && pt.refs == Refs(wheel, pt)
      modifies this`wheel, pt`refs
      ensures wheel == old(wheel)[pos := old(wheel)[pos] + [pt]]
      ensures pt.refs == Refs(wheel, pt)
      ensures forall t: TimerTask :: t != pt ==> Refs(wheel, t) == Refs(old(wheel), t)
    {
      RefsUpdate(wheel, pos, wheel[pos] + [pt], pt);
      OthersKeepRefs(wheel, pos, pt);
      wheel := wheel[pos := wheel[pos] + [pt]];
      pt.refs := pt.refs + 1;
    }

    method TimerAddInLoop(id: nat, delay: nat)
      requires Valid() && Legal(model, Add(id, delay))
      modifies this`wheel, this`timers, this`model
      ensures Valid() && model == Apply(old(model), Add(id, delay))
      ensures id in timers && fresh(timers[id]) && timers == old(timers)[id := timers[id]]
    {
      hide Placed, Refs, Expiry;
      PlacedSize(model.now, wheel, timers, model.timers);
      var pt := new TimerTask(id, delay);
      NoRefs(pt);
      var pos := (tick + delay) % CAPACITY;
      PlacedPush(model.now, wheel, timers, model.timers, pt, Timer(model.now + Span(delay), delay, false));
      PushRef(pos, pt);
      timers := timers[id := pt];
      model := Apply(model, Add(id, delay));
    }

    /** A task not yet pushed anywhere. */
    lemma NoRefs(pt: TimerTask)
      requires Valid() && (pt.id in timers ==> timers[pt.id] != pt)
      ensures Refs(wheel, pt) == 0
    {
      RefsPositive(wheel, pt);
    }

    method TimerRefreshInLoop(id: nat)
      requires Valid()
      modifies this`wheel, this`model, timers.Values
      ensures Valid() && model == Apply(old(model), Refresh(id)) && timers == old(timers)
    {
      hide Placed, Refs, Expiry;
      PlacedSize(model.now, wheel, timers, model.timers);
      if id !in timers { return; }
      var pt := timers[id];
      LockSucceeds(id);
      if pt.refs == 0 { assert false; }
      TimerIs(id);
      var delay := pt.timeout;
      var pos := (tick + delay) % CAPACITY;
      ghost var d := model.timers[id].(at := model.now + Span(delay));
      PlacedPush(model.now, wheel, timers, model.timers, pt, d);
      assert timers[id := pt] == timers;
      assert Counted(wheel, pt, model.timers[id]);
      PushRef(pos, pt);
      model := Apply(model, Refresh(id));
    }

    lemma TimerIs(id: nat)
      requires Valid() && id in timers
      ensures timers[id].id == id && id in model.timers && timers[id].timeout == model.timers[id].delay < 0x8000_0000
    {
      assert PlacedTimer(model.now, wheel, timers[id], id, model.timers[id]);
    }

    method TimerCancelInLoop(id: nat)
      requires Valid()
      modifies this`model, timers.Values
      ensures Valid() && model == Apply(old(model), Cancel(id)) && timers == old(timers)
    {
      hide Refs, Expiry, Placed;
      PlacedSize(model.now, wheel, timers, model.timers);
      if id !in timers { return; }
      var pt := timers[id];
      DistinctTasks();
      assert Counted(wheel, pt, model.timers[id]);
      pt.canceled := true;
      PlacedCancel(model.now, wheel, timers, model.timers, id);
      model := Apply(model, Cancel(id));
    }

    lemma DistinctTasks()
      requires Valid()
      ensures timers.Keys == model.timers.Keys
      ensures forall i, j :: i in timers && j in timers && i != j ==> timers[i] != timers[j]
    {
      forall i | i in timers ensures timers[i].id == i { TimerIs(i); }
    }

    /** `rest` is still to be dropped; `before` are the tasks alive at the start, `fired` the callbacks run. */
    ghost predicate Dropping(before: Timers, rest: Slot, fired: seq<nat>)
      reads this, before.Values
    {
      && (forall id :: id in before ==>
            before[id].id == id && before[id].refs == Refs(wheel, before[id]) + multiset(rest)[before[id]])
      && (forall id :: id in timers <==> id in before && before[id].refs > 0)
      && (forall id :: id in timers ==> timers[id] == before[id])
      && (forall id :: id in fired <==> id in before && id !in timers && !before[id].canceled)
      && (forall j, k :: 0 <= j < k < |fired| ==> fired[j] != fired[k])
    }

    /** One shared_ptr goes; the last one takes the task with it: callback unless cancelled, then release. */
    method DropRef(t: TimerTask, ghost before: Timers, ghost rest: Slot, fired: seq<nat>) returns (fired': seq<nat>)
      requires Dropping(before, [t] + rest, fired) && t.id in before && before[t.id] == t
      modifies this`timers, t`refs
      ensures Dropping(before, rest, fired')
    {
      hide Refs;
      fired' := fired;
      t.refs := t.refs - 1;
      if t.refs == 0 {
        if !t.canceled { fired' := fired' + [t.id]; }
        timers := timers - {t.id};
      }
    }

    /** vector::clear: the references go one by one. */
    method DropAll(slot: Slot) returns (fired: seq<nat>)
      requires forall t :: t in slot ==> t.id in timers && timers[t.id] == t
      requires Dropping(timers, slot, [])
      modifies this`timers, (set id | id in timers :: timers[id])`refs
      ensures Dropping(old(timers), [], fired)
    {
      hide Dropping;
      fired := [];
      assert slot[0..] == slot;
      for i := 0 to |slot|
        invariant Dropping(old(timers), slot[i..], fired)
      {
        var t := slot[i];
        assert slot[i..] == [t] + slot[i + 1..];
        assert t in slot;
        fired := DropRef(t, old(timers), slot[i + 1..], fired);
      }
      assert slot[|slot|..] == [];
    }

    /** The slot is emptied: its tasks whose deadline has come die, the others have later references. */
    method ClearSlot(p: nat) returns (fired: seq<nat>)
      requires Placed(model.now, wheel, timers, model.timers) && p == (model.now + 1) % CAPACITY
      requires forall id :: id in timers ==> Counted(wheel, timers[id], model.timers[id])
      modifies this`wheel, this`timers, timers.Values
      ensures p < |old(wheel)| && wheel == old(wheel)[p := []]
      ensures forall id :: id in timers <==> id in old(timers) && model.timers[id].at != model.now + 1
      ensures forall id :: id in timers ==>
                timers[id] == old(timers)[id] && Counted(wheel, timers[id], model.timers[id])
      ensures forall id :: id in fired <==> id in old(timers) && id !in timers && !model.timers[id].canceled
      ensures forall j, k :: 0 <= j < k < |fired| ==> fired[j] != fired[k]
    {
      hide Placed, Refs, Expiry, Batch, Dropping;
      PlacedSize(model.now, wheel, timers, model.timers);
      SlotTaken(model.now, wheel, timers, model.timers, p);
      forall id | id in timers ensures timers[id].refs > 0 { Referenced(model.now, wheel, timers, model.timers, id); }
      var slot := wheel[p];
      ghost var before, was := timers, wheel;
      wheel := wheel[p := []];
      BeginDrop(was, slot);
      fired := DropAll(slot);
      EndDrop(before, fired);
    }

    lemma BeginDrop(was: seq<Slot>, slot: Slot)
      requires timers.Keys == model.timers.Keys
      requires forall id :: id in timers ==> timers[id].id == id && timers[id].refs > 0
      requires forall id :: id in timers ==> Counted(was, timers[id], model.timers[id])
      requires forall id :: id in timers ==>
                 Refs(was, timers[id]) == Refs(wheel, timers[id]) + multiset(slot)[timers[id]]
      ensures Dropping(timers, slot, [])
    {
      hide Refs;
      forall id | id in timers ensures timers[id].refs == Refs(was, timers[id]) {
        assert Counted(was, timers[id], model.timers[id]);
      }
    }

    lemma EndDrop(before: Timers, fired: seq<nat>)
      requires Dropping(before, [], fired)
      ensures forall id :: id in timers <==> id in before && Refs(wheel, before[id]) > 0
      ensures forall id :: id in timers ==> timers[id] == before[id] && timers[id].refs == Refs(wheel, timers[id])
      ensures forall id :: id in fired <==> id in before && id !in timers && !before[id].canceled
      ensures forall j, k :: 0 <= j < k < |fired| ==> fired[j] != fired[k]
    {
      hide Refs;
    }

    /** The second hand moves on and clears the slot it reaches. */
    method RunTimerTask()
      requires Valid()
      modifies this, timers.Values
      ensures Valid() && model == Apply(old(model), Tick)
      ensures timers.Keys <= old(timers).Keys && forall id :: id in timers ==> timers[id] == old(timers)[id]
    {
      hide Placed, Refs, Expiry, Apply, Batch, Fired;
      PlacedSize(model.now, wheel, timers, model.timers);
      ghost var m, before, was := model, timers, wheel;
      tick := (tick + 1) % CAPACITY;
      var fired := ClearSlot(tick);
      PlacedTick(m.now, was, before, m.timers, tick, timers);
      Ticked(m, fired, timers.Keys);
      model := Apply(m, Tick);
      batches := batches + [fired];
    }

    /** The timerfd reports how often it expired since it was last read. */
    method OnTime(times: nat)
      requires Valid()
      modifies this, timers.Values
      ensures Valid() && model == Run(old(model), Ticks(times)) && model.now == old(model.now) + times
      ensures timers.Keys <= old(timers).Keys && forall id :: id in timers ==> timers[id] == old(timers)[id]
    {
      hide Valid;
      ghost var before := timers;
      for i := 0 to times
        invariant Valid() && Run(model, Ticks(times - i)) == Run(old(model), Ticks(times))
        invariant model.now == old(model.now) + i
        invariant timers.Keys <= before.Keys && forall id :: id in timers ==> timers[id] == before[id]
      {
        assert Ticks(times - i)[1..] == Ticks(times - i - 1);
        RunTimerTask();
      }
    }

    function HasTimer(id: nat): (r: bool)
      requires Valid()
      reads this, timers.Values
      ensures r == (id in model.timers)
    {
      id in timers
    }
  }

  /** In every run the wheel is the deadline map: each batch of callbacks is the model's, each id once. */
  method Replay(es: seq<Event>) returns (w: TimerWheel)
    requires AllLegal(EMPTY, es)
    ensures w.Valid() && w.model == Run(EMPTY, es)
    ensures |w.batches| == |w.model.log| && forall k :: 0 <= k < |w.batches| ==> Batch(w.batches[k], w.model.log[k])
  {
    hide Placed, Counted, Batch, Apply;
    w := new TimerWheel();
    for i := 0 to |es|
      invariant fresh(w) && w.Valid() && forall id :: id in w.timers ==> fresh(w.timers[id])
      invariant AllLegal(w.model, es[i..]) && Run(w.model, es[i..]) == Run(EMPTY, es)
    {
      assert es[i..][1..] == es[i + 1..];
      match es[i] {
        case Add(id, delay) => w.TimerAddInLoop(id, delay);
        case Refresh(id) => w.TimerRefreshInLoop(id);
        case Cancel(id) => w.TimerCancelInLoop(id);
        case Tick => w.RunTimerTask();
      }
    }
  }
}
