/** The pool under concurrent clients: every interleaving of its lock-held sections. */
module PoolProtocol {
  import opened Text
  import opened Multisets
  import opened MySqlPool

  /** Where a client of Acquire stands. */
  datatype Client =
    | Outside
    | Asking            // before the lock
    | Blocked           // in cv_.wait, not notified
    | Notified          // woken, before the lock
    | Pinging(conn: Conn)
    | Dead              // the ping failed and the connection is closed, total_ not yet lowered
    | Retrying          // total_ lowered, about to start over
    | Creating
    | Failed            // the connect failed, total_ not yet lowered

  datatype State = State(
    pool: Pool,
    clients: seq<Client>,
    handles: seq<Option<Conn>>,   // every handle there ever was; None once it is empty
    closed: multiset<Conn>,       // mysql_close calls
    created: nat)                 // connections are numbered in the order of their creation

  datatype Step =
    | Call(i: nat)
    | Lock(i: nat)
    | Spurious(i: nat)
    | PingOk(i: nat)
    | PingFails(i: nat)
    | Forget(i: nat)
    | Connected(i: nat)
    | ConnectFails(i: nat)
    | GiveUp(i: nat, wakes: Option<nat>)
    | Return(h: nat, alive: bool, wakes: Option<nat>)       // a handle is destroyed or released
    | MoveNew(h: nat)                                       // move construction
    | MoveInto(src: nat, dst: nat, alive: bool, wakes: Option<nat>)
    | Shutdown

  /** notify_one wakes one blocked client if there is any. */
  predicate Wakes(clients: seq<Client>, wakes: Option<nat>) {
    if Blocked in clients then wakes.Some? && wakes.value < |clients| && clients[wakes.value] == Blocked
    else wakes == None
  }

  predicate At(s: State, i: nat, c: Client) {
    i < |s.clients| && s.clients[i] == c
  }

  predicate Holds(s: State, h: nat) {
    h < |s.handles| && s.handles[h].Some?
  }

  /** A section that ends in notify_one, or touches a pool already shut down. */
  predicate WakesIf(s: State, notifies: bool, wakes: Option<nat>) {
    if notifies then Wakes(s.clients, wakes) else wakes == None
  }

  predicate Enabled(s: State, step: Step) {
    match step
    case Call(i) => At(s, i, Outside)
    case Lock(i) => At(s, i, Asking) || At(s, i, Notified) || At(s, i, Retrying)
    case Spurious(i) => At(s, i, Blocked)
    case PingOk(i) => i < |s.clients| && s.clients[i].Pinging?
    case PingFails(i) => i < |s.clients| && s.clients[i].Pinging?
    case Forget(i) => At(s, i, Dead)
    case Connected(i) => At(s, i, Creating)
    case ConnectFails(i) => At(s, i, Creating)
    case GiveUp(i, wakes) => At(s, i, Failed) && Wakes(s.clients, wakes)
    case Return(h, _, wakes) => Holds(s, h) && WakesIf(s, !s.pool.shutdown, wakes)
    case MoveNew(h) => h < |s.handles|
    case MoveInto(src, dst, _, wakes) =>
      && src < |s.handles| && dst < |s.handles| && src != dst
      && WakesIf(s, Holds(s, dst) && !s.pool.shutdown, wakes)
    case Shutdown => true
  }

  function Woken(clients: seq<Client>, wakes: Option<nat>): seq<Client>
    requires wakes.Some? ==> wakes.value < |clients|
  {
    if wakes == None then clients else clients[wakes.value := Notified]
  }

  function AllWoken(clients: seq<Client>): seq<Client> {
    seq(|clients|, i requires 0 <= i < |clients| => if clients[i] == Blocked then Notified else clients[i])
  }

  function Moves(s: State, i: nat, c: Client): State
    requires i < |s.clients|
  {
    s.(clients := s.clients[i := c])
  }

  /** What a client that holds the lock becomes. */
  function Granted(g: Grant): Client {
    match g
    case Refused => Outside
    case Reuse(c) => Pinging(c)
    case Create => Creating
    case Wait => Blocked
  }

  function Returned(s: State, h: nat, alive: bool, wakes: Option<nat>): State
    requires Holds(s, h) && (wakes.Some? ==> wakes.value < |s.clients|)
  {
    var c := s.handles[h].value;
    s.(pool := AfterRelease(s.pool, c, alive),
       closed := if Closes(s.pool, alive) then s.closed + multiset{c} else s.closed,
       handles := s.handles[h := None],
       clients := Woken(s.clients, wakes))
  }

  function Next(s: State, step: Step): State
    requires Enabled(s, step)
  {
    match step
    case Call(i) => Moves(s, i, Asking)
    case Lock(i) => Moves(s, i, Granted(GrantOf(s.pool))).(pool := AfterGrant(s.pool))
    case Spurious(i) => Moves(s, i, Notified)
    case PingOk(i) => Moves(s, i, Outside).(handles := s.handles + [Some(s.clients[i].conn)])
    case PingFails(i) => Moves(s, i, Dead).(closed := s.closed + multiset{s.clients[i].conn})
    case Forget(i) => Moves(s, i, Retrying).(pool := s.pool.(total := Decrement(s.pool.total)))
    case Connected(i) => Moves(s, i, Outside).(handles := s.handles + [Some(s.created)], created := s.created + 1)
    case ConnectFails(i) => Moves(s, i, Failed)
    case GiveUp(i, wakes) =>
      var t := Moves(s, i, Outside).(pool := s.pool.(total := Decrement(s.pool.total)));
      t.(clients := Woken(t.clients, wakes))
    case Return(h, alive, wakes) => Returned(s, h, alive, wakes)
    case MoveNew(h) => s.(handles := s.handles[h := None] + [s.handles[h]])
    case MoveInto(src, dst, alive, wakes) =>
      var t := if Holds(s, dst) then Returned(s, dst, alive, wakes) else s;
      t.(handles := t.handles[dst := t.handles[src]][src := None])
    case Shutdown =>
      if s.pool.shutdown then s
      else s.(pool := AfterShutdown(s.pool), closed := s.closed + multiset(s.pool.idle), clients := AllWoken(s.clients))
  }

  function Start(clients: nat, max: nat): State {
    State(Pool([], 0, false, if max == 0 then 1 else max), seq(clients, _ => Outside), [], multiset{}, 0)
  }

  ghost predicate Possible(s: State, steps: seq<Step>)
    decreases |steps|
  {
    steps == [] || (Enabled(s, steps[0]) && Possible(Next(s, steps[0]), steps[1..]))
  }

  ghost function Run(s: State, steps: seq<Step>): State
    requires Possible(s, steps)
    decreases |steps|
  {
    if steps == [] then s else Run(Next(s, steps[0]), steps[1..])
  }

  // ---- sums over clients and handles ----

  function Own(c: Client): multiset<Conn> {
    if c.Pinging? then multiset{c.conn} else multiset{}
  }

  /** Whether total_ counts a connection for this client. */
  function Weight(c: Client): nat {
    if c.Pinging? || c == Dead || c == Creating || c == Failed then 1 else 0
  }

  function Pinged(cs: seq<Client>): multiset<Conn> {
    if cs == [] then multiset{} else Own(cs[0]) + Pinged(cs[1..])
  }

  function Weights(cs: seq<Client>): nat {
    if cs == [] then 0 else Weight(cs[0]) + Weights(cs[1..])
  }

  function In(h: Option<Conn>): multiset<Conn> {
    if h.Some? then multiset{h.value} else multiset{}
  }

  function Held(hs: seq<Option<Conn>>): multiset<Conn> {
    if hs == [] then multiset{} else Held(hs[..|hs| - 1]) + In(hs[|hs| - 1])
  }

  function Clients(cs: seq<Client>, c: Client): nat {
    multiset(cs)[c]
  }

  lemma Swap(a: multiset<Conn>, r: multiset<Conn>, b: multiset<Conn>)
    ensures (a + r) + b == (b + r) + a && (r + a) + b == (r + b) + a
  {
  }

  lemma {:induction false} PingedUpdate(cs: seq<Client>, i: nat, c: Client)
    requires i < |cs|
    ensures Pinged(cs[i := c]) + Own(cs[i]) == Pinged(cs) + Own(c)
    ensures Weights(cs[i := c]) + Weight(cs[i]) == Weights(cs) + Weight(c)
  {
    hide Own, Weight;
    var ds := cs[i := c];
    if i == 0 {
      assert ds[1..] == cs[1..];
      Swap(Own(c), Pinged(cs[1..]), Own(cs[0]));
    } else {
      assert ds[1..] == cs[1..][i - 1 := c];
      PingedUpdate(cs[1..], i - 1, c);
      Regroup(Own(cs[0]), Pinged(ds[1..]), Own(cs[i]), Pinged(cs[1..]), Own(c));
    }
  }

  lemma {:induction false} HeldUpdate(hs: seq<Option<Conn>>, i: nat, h: Option<Conn>)
    requires i < |hs|
    ensures Held(hs[i := h]) + In(hs[i]) == Held(hs) + In(h)
  {
    hide In;
    var n, gs := |hs| - 1, hs[i := h];
    if i == n {
      assert gs[..n] == hs[..n];
      Swap(In(h), Held(hs[..n]), In(hs[i]));
    } else {
      assert gs[..n] == hs[..n][i := h];
      HeldUpdate(hs[..n], i, h);
      Regroup(In(hs[n]), Held(gs[..n]), In(hs[i]), Held(hs[..n]), In(h));
    }
  }

  lemma HeldSnoc(hs: seq<Option<Conn>>, h: Option<Conn>)
    ensures Held(hs + [h]) == Held(hs) + In(h)
  {
    assert (hs + [h])[..|hs|] == hs;
  }

  /** One client changes phase. */
  lemma ClientMoves(cs: seq<Client>, i: nat, c: Client)
    requires i < |cs|
    ensures Own(cs[i]) == multiset{} ==> Pinged(cs[i := c]) == Pinged(cs) + Own(c)
    ensures Own(c) == multiset{} ==> Pinged(cs[i := c]) + Own(cs[i]) == Pinged(cs)
    ensures Weights(cs[i := c]) + Weight(cs[i]) == Weights(cs) + Weight(c)
    ensures forall x :: x in {Notified, Retrying} ==>
              Clients(cs[i := c], x) + (if cs[i] == x then 1 else 0) == Clients(cs, x) + (if c == x then 1 else 0)
    ensures Blocked in cs[i := c] ==> c == Blocked || Blocked in cs
  {
    hide Pinged, Own;
    PingedUpdate(cs, i, c);
    CountUpdate(cs, i, c, Notified);
    CountUpdate(cs, i, c, Retrying);
    if Own(cs[i]) == multiset{} { assert Pinged(cs[i := c]) + multiset{} == Pinged(cs[i := c]); }
    if Own(c) == multiset{} { assert Pinged(cs) + multiset{} == Pinged(cs); }
  }

  /** One client at most is woken; it then counts as notified. */
  lemma WokenClient(cs: seq<Client>, wakes: Option<nat>)
    requires Wakes(cs, wakes)
    ensures var ds := Woken(cs, wakes);
            && Pinged(ds) == Pinged(cs) && Weights(ds) == Weights(cs)
            && Clients(ds, Retrying) == Clients(cs, Retrying)
            && Clients(ds, Notified) == Clients(cs, Notified) + (if Blocked in cs then 1 else 0)
            && (Blocked in ds ==> Blocked in cs)
  {
    hide Pinged, Clients, Weights;
    if wakes.Some? {
      ClientMoves(cs, wakes.value, Notified);
      assert Pinged(cs) + multiset{} == Pinged(cs);
    }
  }

  lemma {:induction false} AllWokenClients(cs: seq<Client>)
    ensures Pinged(AllWoken(cs)) == Pinged(cs) && Weights(AllWoken(cs)) == Weights(cs) && Blocked !in AllWoken(cs)
  {
    hide Pinged, Weights;
    if cs != [] {
      var d := if cs[0] == Blocked then Notified else cs[0];
      AllWokenClients(cs[1..]);
      assert AllWoken(cs) == [d] + AllWoken(cs[1..]);
      assert cs == [cs[0]] + cs[1..];
      FirstClient(d, AllWoken(cs[1..]));
      FirstClient(cs[0], cs[1..]);
    } else {
      assert AllWoken(cs) == cs;
    }
  }

  lemma FirstClient(c: Client, cs: seq<Client>)
    ensures Pinged([c] + cs) == Own(c) + Pinged(cs)
    ensures Weights([c] + cs) == Weight(c) + Weights(cs)
  {
    assert ([c] + cs)[1..] == cs;
  }

  // ---- ownership ----

  /** Every connection ever created is in exactly one place: idle, pinged, held, or closed once. */
  ghost predicate Owned(s: State) {
    multiset(s.pool.idle) + Pinged(s.clients) + Held(s.handles) + s.closed == Numbers(s.created)
  }

  /** Moving a part from one place to another keeps the sum. */
  lemma SameSum(i: multiset<Conn>, p: multiset<Conn>, h: multiset<Conn>, c: multiset<Conn>, x: multiset<Conn>)
    ensures (i + x) + p + h + c == i + (p + x) + h + c
    ensures (i + x) + p + h + c == i + p + (h + x) + c
    ensures (i + x) + p + h + c == i + p + h + (c + x)
    ensures (i + x) + p + h + c == (i + p + h + c) + x
  {
  }

  lemma LockOwned(s: State, i: nat)
    requires Owned(s) && Enabled(s, Lock(i))
    ensures Owned(Next(s, Lock(i)))
  {
    hide Pinged, Held, Numbers;
    var c := Granted(GrantOf(s.pool));
    if c.Pinging? {
      ReuseOwned(s, i, c.conn);
    } else {
      QuietOwned(s, i, c);
    }
  }

  /** The front of the idle connections goes to a client that will ping it. */
  lemma ReuseOwned(s: State, i: nat, x: Conn)
    requires Owned(s) && i < |s.clients| && Own(s.clients[i]) == multiset{}
    requires s.pool.idle != [] && x == s.pool.idle[0]
    ensures multiset(s.pool.idle[1..]) + Pinged(s.clients[i := Pinging(x)]) + Held(s.handles) + s.closed
         == Numbers(s.created)
  {
    hide Pinged, Held, Numbers;
    ClientMoves(s.clients, i, Pinging(x));
    var rest := s.pool.idle[1..];
    assert s.pool.idle == [x] + rest;
    assert multiset(s.pool.idle) == multiset(rest) + multiset{x};
    SameSum(multiset(rest), Pinged(s.clients), Held(s.handles), s.closed, multiset{x});
  }

  lemma PingOwned(s: State, i: nat, ok: bool)
    requires Owned(s) && Enabled(s, if ok then PingOk(i) else PingFails(i))
    ensures Owned(Next(s, if ok then PingOk(i) else PingFails(i)))
  {
    hide Pinged, Held, Numbers;
    var x := s.clients[i].conn;
    ClientMoves(s.clients, i, if ok then Outside else Dead);
    HeldSnoc(s.handles, Some(x));
    var p := Pinged(s.clients[i := if ok then Outside else Dead]);
    assert Pinged(s.clients) == p + multiset{x};
    SameSum(multiset(s.pool.idle), p, Held(s.handles), s.closed, multiset{x});
  }

  lemma ConnectedOwned(s: State, i: nat)
    requires Owned(s) && Enabled(s, Connected(i))
    ensures Owned(Next(s, Connected(i)))
  {
    hide Pinged, Held, Numbers;
    QuietOwned(s, i, Outside);
    HeldSnoc(s.handles, Some(s.created));
    NumbersNext(s.created);
    SameSum(multiset(s.pool.idle), Pinged(s.clients), Held(s.handles), s.closed, multiset{s.created});
  }

  lemma NumbersNext(n: nat)
    ensures Numbers(n + 1) == Numbers(n) + multiset{n}
  {
  }

  lemma QuietOwned(s: State, i: nat, c: Client)
    requires Owned(s) && i < |s.clients| && Own(s.clients[i]) == multiset{} == Own(c)
    ensures Pinged(s.clients[i := c]) == Pinged(s.clients)
  {
    hide Pinged;
    ClientMoves(s.clients, i, c);
    assert Pinged(s.clients) + multiset{} == Pinged(s.clients);
  }

  lemma ReturnedOwned(s: State, h: nat, alive: bool, wakes: Option<nat>)
    requires Owned(s) && Holds(s, h) && WakesIf(s, !s.pool.shutdown, wakes)
    ensures Owned(Returned(s, h, alive, wakes))
  {
    hide Pinged, Held, Numbers;
    var x := s.handles[h].value;
    HeldUpdate(s.handles, h, None);
    var held := Held(s.handles[h := None]);
    assert Held(s.handles) + multiset{} == Held(s.handles);
    assert Held(s.handles) == held + multiset{x};
    if !s.pool.shutdown { WokenClient(s.clients, wakes); }
    assert multiset(s.pool.idle + [x]) == multiset(s.pool.idle) + multiset{x};
    SameSum(multiset(s.pool.idle), Pinged(s.clients), held, s.closed, multiset{x});
  }

  /** Moving between handles changes nobody's connection. */
  lemma HandleMoves(hs: seq<Option<Conn>>, src: nat, dst: nat)
    requires src < |hs| && dst < |hs| && src != dst && hs[dst] == None
    ensures Held(hs[dst := hs[src]][src := None]) == Held(hs)
  {
    hide Held;
    var x := hs[src];
    HeldUpdate(hs, dst, x);
    HeldUpdate(hs[dst := x], src, None);
    var a, b, c := Held(hs), Held(hs[dst := x]), Held(hs[dst := x][src := None]);
    assert b + multiset{} == b;
    assert c + In(x) == a + In(x);
    assert c == (c + In(x)) - In(x) && a == (a + In(x)) - In(x);
  }

  lemma HandleMovesOut(hs: seq<Option<Conn>>, h: nat)
    requires h < |hs|
    ensures Held(hs[h := None] + [hs[h]]) == Held(hs)
  {
    hide Held;
    HeldUpdate(hs, h, None);
    HeldSnoc(hs[h := None], hs[h]);
    assert Held(hs) + multiset{} == Held(hs);
  }

  lemma StepOwned(s: State, step: Step)
    requires Owned(s) && Enabled(s, step)
    ensures Owned(Next(s, step))
  {
    hide Pinged, Held, Numbers;
    match step
    case Lock(i) => LockOwned(s, i);
    case PingOk(i) => PingOwned(s, i, true);
    case PingFails(i) => PingOwned(s, i, false);
    case Connected(i) => ConnectedOwned(s, i);
    case Call(i) => QuietOwned(s, i, Asking);
    case Spurious(i) => QuietOwned(s, i, Notified);
    case Forget(i) => QuietOwned(s, i, Retrying);
    case ConnectFails(i) => QuietOwned(s, i, Failed);
    case GiveUp(i, wakes) => GiveUpOwned(s, i, wakes);
    case Return(h, alive, wakes) => ReturnedOwned(s, h, alive, wakes);
    case MoveNew(h) => HandleMovesOut(s.handles, h);
    case MoveInto(src, dst, alive, wakes) => MoveIntoOwned(s, src, dst, alive, wakes);
    case Shutdown => ShutdownOwned(s);
  }

  lemma MoveIntoOwned(s: State, src: nat, dst: nat, alive: bool, wakes: Option<nat>)
    requires Owned(s) && Enabled(s, MoveInto(src, dst, alive, wakes))
    ensures Owned(Next(s, MoveInto(src, dst, alive, wakes)))
  {
    hide Pinged, Held, Numbers;
    if Holds(s, dst) {
      ReturnedOwned(s, dst, alive, wakes);
      HandleMoves(s.handles[dst := None], src, dst);
    } else {
      HandleMoves(s.handles, src, dst);
    }
  }

  lemma GiveUpOwned(s: State, i: nat, wakes: Option<nat>)
    requires Owned(s) && Enabled(s, GiveUp(i, wakes))
    ensures Owned(Next(s, GiveUp(i, wakes)))
  {
    hide Pinged, Held, Numbers;
    QuietOwned(s, i, Outside);
    var cs := s.clients[i := Outside];
    FailedIsNotBlocked(s.clients, i, wakes);
    WokenClient(cs, wakes);
  }

  lemma FailedIsNotBlocked(cs: seq<Client>, i: nat, wakes: Option<nat>)
    requires i < |cs| && cs[i] == Failed && Wakes(cs, wakes)
    ensures Wakes(cs[i := Outside], wakes) && (Blocked in cs[i := Outside] <==> Blocked in cs)
  {
    if Blocked in cs {
      var k :| 0 <= k < |cs| && cs[k] == Blocked;
      assert cs[i := Outside][k] == Blocked;
    }
  }

  lemma ShutdownOwned(s: State)
    requires Owned(s)
    ensures Owned(Next(s, Shutdown))
  {
    hide Pinged, Held, Numbers;
    AllWokenClients(s.clients);
    var none: multiset<Conn> := multiset{};
    assert none + multiset(s.pool.idle) == multiset(s.pool.idle);
    SameSum(none, Pinged(s.clients), Held(s.handles), s.closed, multiset(s.pool.idle));
  }

  // ---- what total_ counts ----

  /** Until shutdown total_ = idle + pinging + creating + held <= max; afterwards nothing is idle and nobody blocked. */
  ghost predicate Counted(s: State) {
    if s.pool.shutdown then s.pool.idle == [] && Blocked !in s.clients
    else s.pool.total == |s.pool.idle| + Weights(s.clients) + |Held(s.handles)| <= s.pool.max
  }

  lemma HeldSizes(hs: seq<Option<Conn>>, h: nat)
    requires h < |hs| && hs[h].Some?
    ensures |Held(hs[h := None])| + 1 == |Held(hs)|
  {
    hide Held;
    HeldUpdate(hs, h, None);
    var held := Held(hs[h := None]);
    assert Held(hs) + multiset{} == Held(hs);
    assert |held + multiset{hs[h].value}| == |held| + 1;
  }

  lemma ReturnedCounted(s: State, h: nat, alive: bool, wakes: Option<nat>)
    requires Counted(s) && Holds(s, h) && WakesIf(s, !s.pool.shutdown, wakes)
    ensures Counted(Returned(s, h, alive, wakes))
  {
    hide Pinged, Held, Weights, Clients;
    HeldSizes(s.handles, h);
    if !s.pool.shutdown { WokenClient(s.clients, wakes); }
  }

  lemma GiveUpCounted(s: State, i: nat, wakes: Option<nat>)
    requires Counted(s) && Enabled(s, GiveUp(i, wakes))
    ensures Counted(Next(s, GiveUp(i, wakes)))
  {
    hide Pinged, Held, Weights, Clients;
    ClientMoves(s.clients, i, Outside);
    FailedIsNotBlocked(s.clients, i, wakes);
    WokenClient(s.clients[i := Outside], wakes);
  }

  lemma HeldGrows(hs: seq<Option<Conn>>, c: Conn)
    ensures |Held(hs + [Some(c)])| == |Held(hs)| + 1
  {
    HeldSnoc(hs, Some(c));
  }

  lemma LockCounted(s: State, i: nat)
    requires Counted(s) && Enabled(s, Lock(i))
    ensures Counted(Next(s, Lock(i)))
  {
    hide Pinged, Held, Weights, Clients;
    match GrantOf(s.pool)
    case Refused => ClientMoves(s.clients, i, Outside);
    case Reuse(c) => ClientMoves(s.clients, i, Pinging(c));
    case Create => ClientMoves(s.clients, i, Creating);
    case Wait => ClientMoves(s.clients, i, Blocked);
  }

  lemma ForgetCounted(s: State, i: nat)
    requires Counted(s) && Enabled(s, Forget(i))
    ensures Counted(Next(s, Forget(i)))
  {
    hide Pinged, Held, Weights, Clients;
    ClientMoves(s.clients, i, Retrying);
  }

  /** A client changes phase, perhaps turning its share of total_ into a handle. */
  lemma PhaseCounted(s: State, i: nat, c: Client, handles: seq<Option<Conn>>)
    requires Counted(s) && i < |s.clients| && c != Blocked
    requires Weight(c) + |Held(handles)| == Weight(s.clients[i]) + |Held(s.handles)|
    ensures Counted(Moves(s, i, c).(handles := handles))
  {
    hide Pinged, Held, Weights, Clients;
    ClientMoves(s.clients, i, c);
  }

  lemma MoveIntoCounted(s: State, src: nat, dst: nat, alive: bool, wakes: Option<nat>)
    requires Counted(s) && Enabled(s, MoveInto(src, dst, alive, wakes))
    ensures Counted(Next(s, MoveInto(src, dst, alive, wakes)))
  {
    hide Pinged, Held, Weights, Clients;
    if Holds(s, dst) {
      ReturnedCounted(s, dst, alive, wakes);
      HandleMoves(s.handles[dst := None], src, dst);
    } else {
      HandleMoves(s.handles, src, dst);
    }
  }

  lemma CountedRest(s: State, t: State)
    requires Counted(s) && t.pool == s.pool && t.handles == s.handles && t.clients == s.clients
    ensures Counted(t)
  {
  }

  lemma StepCounted(s: State, step: Step)
    requires Counted(s) && Enabled(s, step)
    ensures Counted(Next(s, step))
  {
    hide Pinged, Held, Weights, Clients, Counted;
    match step
    case Call(i) => PhaseCounted(s, i, Asking, s.handles);
    case Lock(i) => LockCounted(s, i);
    case Spurious(i) => PhaseCounted(s, i, Notified, s.handles);
    case PingOk(i) =>
      var hs := s.handles + [Some(s.clients[i].conn)];
      HeldGrows(s.handles, s.clients[i].conn);
      PhaseCounted(s, i, Outside, hs);
    case PingFails(i) =>
      PhaseCounted(s, i, Dead, s.handles);
      CountedRest(Moves(s, i, Dead), Next(s, step));
    case Forget(i) => ForgetCounted(s, i);
    case Connected(i) =>
      var hs := s.handles + [Some(s.created)];
      HeldGrows(s.handles, s.created);
      PhaseCounted(s, i, Outside, hs);
      CountedRest(Moves(s, i, Outside).(handles := hs), Next(s, step));
    case ConnectFails(i) => PhaseCounted(s, i, Failed, s.handles);
    case GiveUp(i, wakes) => GiveUpCounted(s, i, wakes);
    case Return(h, alive, wakes) => ReturnedCounted(s, h, alive, wakes);
    case MoveNew(h) => MoveNewCounted(s, h);
    case MoveInto(src, dst, alive, wakes) => MoveIntoCounted(s, src, dst, alive, wakes);
    case Shutdown => ShutdownCounted(s);
  }

  lemma MoveNewCounted(s: State, h: nat)
    requires Counted(s) && h < |s.handles|
    ensures Counted(Next(s, MoveNew(h)))
  {
    hide Held;
    HandleMovesOut(s.handles, h);
  }

  lemma ShutdownCounted(s: State)
    requires Counted(s)
    ensures Counted(Next(s, Shutdown))
  {
    AllWokenClients(s.clients);
  }

  /** The maximum never changes and a shutdown is final. */
  lemma StepKeepsConfig(s: State, step: Step)
    requires Enabled(s, step)
    ensures Next(s, step).pool.max == s.pool.max
    ensures s.pool.shutdown ==> Next(s, step).pool.shutdown
  {
  }

  // ---- wake-ups ----

  /** Capacity a blocked client could use: idle connections and room for new ones. */
  function Available(p: Pool): int { |p.idle| + p.max - p.total }

  /** Clients that will look at the pool again by themselves. */
  function Coming(cs: seq<Client>): nat { Clients(cs, Notified) + Clients(cs, Retrying) }

  /** Nobody blocks beside capacity that no one else is coming for. */
  ghost predicate Live(s: State) {
    !s.pool.shutdown && Blocked in s.clients ==> Available(s.pool) <= Coming(s.clients)
  }

  lemma ReturnedLive(s: State, h: nat, alive: bool, wakes: Option<nat>)
    requires Live(s) && Holds(s, h) && WakesIf(s, !s.pool.shutdown, wakes)
    ensures Live(Returned(s, h, alive, wakes))
  {
    hide Clients;
    if !s.pool.shutdown { WokenClient(s.clients, wakes); }
  }

  /** A client changes phase: it must not block or lower the number of those coming for what is there. */
  lemma PhaseLive(s: State, i: nat, c: Client, pool: Pool)
    requires Live(s) && i < |s.clients| && pool.shutdown == s.pool.shutdown
    requires Available(pool) - Available(s.pool) <= (if c == Retrying || c == Notified then 1 else 0)
                                   - (if s.clients[i] == Retrying || s.clients[i] == Notified then 1 else 0)
             || Available(pool) <= 0
    requires c == Blocked ==> Available(pool) <= 0
    ensures Live(Moves(s, i, c).(pool := pool))
  {
    hide Pinged, Weights, Clients;
    ClientMoves(s.clients, i, c);
  }

  lemma GiveUpLive(s: State, i: nat, wakes: Option<nat>)
    requires Live(s) && Enabled(s, GiveUp(i, wakes))
    requires !s.pool.shutdown ==> s.pool.total > 0
    ensures Live(Next(s, GiveUp(i, wakes)))
  {
    hide Pinged, Weights, Clients;
    PhaseLive(s, i, Outside, s.pool);
    FailedIsNotBlocked(s.clients, i, wakes);
    WokenClient(s.clients[i := Outside], wakes);
  }

  lemma TotalPositive(s: State, i: nat)
    requires Counted(s) && !s.pool.shutdown && i < |s.clients| && Weight(s.clients[i]) == 1
    ensures s.pool.total > 0
  {
    hide Held;
    ClientMoves(s.clients, i, Outside);
  }

  /** Before shutdown total_ stays within the maximum. */
  lemma TotalBounded(s: State)
    requires Counted(s)
    ensures !s.pool.shutdown ==> s.pool.total <= s.pool.max
    ensures s.pool.shutdown ==> Blocked !in s.clients
  {
  }

  lemma LockLive(s: State, i: nat)
    requires Live(s) && Counted(s) && Enabled(s, Lock(i))
    ensures Live(Next(s, Lock(i)))
  {
    hide Counted;
    TotalBounded(s);
    if !s.pool.shutdown {
      PhaseLive(s, i, Granted(GrantOf(s.pool)), AfterGrant(s.pool));
    }
  }

  lemma StepLive(s: State, step: Step)
    requires Live(s) && Counted(s) && Enabled(s, step)
    ensures Live(Next(s, step))
  {
    hide Pinged, Held, Weights, Clients, Counted;
    match step
    case Call(i) => PhaseLive(s, i, Asking, s.pool);
    case Lock(i) => LockLive(s, i);
    case Spurious(i) => PhaseLive(s, i, Notified, s.pool);
    case PingOk(i) => PhaseLive(s, i, Outside, s.pool);
    case PingFails(i) => PhaseLive(s, i, Dead, s.pool);
    case Forget(i) =>
      if !s.pool.shutdown { TotalPositive(s, i); }
      if !s.pool.shutdown { PhaseLive(s, i, Retrying, s.pool.(total := Decrement(s.pool.total))); }
    case Connected(i) => PhaseLive(s, i, Outside, s.pool);
    case ConnectFails(i) => PhaseLive(s, i, Failed, s.pool);
    case GiveUp(i, wakes) =>
      if !s.pool.shutdown { TotalPositive(s, i); }
      GiveUpLive(s, i, wakes);
    case Return(h, alive, wakes) => ReturnedLive(s, h, alive, wakes);
    case MoveNew(h) =>
    case MoveInto(src, dst, alive, wakes) =>
      if Holds(s, dst) { ReturnedLive(s, dst, alive, wakes); }
    case Shutdown =>
  }

  // ---- every run ----

  ghost predicate Inv(s: State) {
    Owned(s) && Counted(s) && Live(s)
  }

  lemma {:induction false} NobodyInside(n: nat)
    ensures var cs := seq(n, _ => Outside);
            Pinged(cs) == multiset{} && Weights(cs) == 0 && Blocked !in cs
  {
    if n > 0 {
      NobodyInside(n - 1);
      assert seq(n, _ => Outside)[1..] == seq(n - 1, _ => Outside);
    }
  }

  lemma StartInv(clients: nat, max: nat)
    ensures Inv(Start(clients, max))
  {
    NobodyInside(clients);
  }

  lemma {:induction false} RunInv(s: State, steps: seq<Step>)
    requires Inv(s) && Possible(s, steps)
    ensures Inv(Run(s, steps)) && Run(s, steps).pool.max == s.pool.max
    ensures s.pool.shutdown ==> Run(s, steps).pool.shutdown
    decreases |steps|
  {
    hide Owned, Counted, Live, Next, Enabled;
    if steps != [] {
      StepOwned(s, steps[0]);
      StepCounted(s, steps[0]);
      StepLive(s, steps[0]);
      StepKeepsConfig(s, steps[0]);
      RunInv(Next(s, steps[0]), steps[1..]);
    }
  }

  /**
   * Ownership in every interleaving, across handle moves and shutdown: each connection ever created
   * is in exactly one place and closed at most once; until shutdown total_ counts idle, pinging,
   * creating and held connections and stays within the maximum.
   */
  lemma Ownership(clients: nat, max: nat, steps: seq<Step>)
    requires Possible(Start(clients, max), steps)
    ensures var s := Run(Start(clients, max), steps);
            && (forall c: nat :: multiset(s.pool.idle)[c] + Pinged(s.clients)[c] + Held(s.handles)[c] + s.closed[c]
                                 == if c < s.created then 1 else 0)
            && (!s.pool.shutdown ==>
                  && s.pool.total == |s.pool.idle| + Weights(s.clients) + |Held(s.handles)|
                  && s.pool.total <= if max == 0 then 1 else max)
            && (s.pool.shutdown ==> s.pool.idle == [])
  {
    hide Next, Enabled, Held, Pinged;
    StartInv(clients, max);
    RunInv(Start(clients, max), steps);
    var s := Run(Start(clients, max), steps);
    NumbersOnce(s.created);
    var all := multiset(s.pool.idle) + Pinged(s.clients) + Held(s.handles) + s.closed;
    forall c: nat
      ensures multiset(s.pool.idle)[c] + Pinged(s.clients)[c] + Held(s.handles)[c] + s.closed[c]
           == if c < s.created then 1 else 0
    {
      assert all[c] == Numbers(s.created)[c];
    }
  }

  /**
   * No lost wake-up: before shutdown a client is only blocked beside capacity that others are already
   * coming for; when nobody is, all max connections are in use. After shutdown nobody is blocked.
   */
  lemma NoLostWakeUp(clients: nat, max: nat, steps: seq<Step>)
    requires Possible(Start(clients, max), steps)
    ensures var s := Run(Start(clients, max), steps);
            && (s.pool.shutdown ==> Blocked !in s.clients)
            && (!s.pool.shutdown && Blocked in s.clients ==>
                  && |s.pool.idle| + s.pool.max - s.pool.total <= Coming(s.clients)
                  && (Coming(s.clients) == 0 ==>
                        s.pool.idle == [] && Weights(s.clients) + |Held(s.handles)| == s.pool.max))
  {
    hide Next, Enabled;
    StartInv(clients, max);
    RunInv(Start(clients, max), steps);
  }

  /** Once shut down, a returned connection is closed and never becomes idle again. */
  lemma LateReturnCloses(clients: nat, max: nat, steps: seq<Step>, h: nat, alive: bool)
    requires Possible(Start(clients, max), steps)
    requires var s := Run(Start(clients, max), steps); s.pool.shutdown && Holds(s, h)
    ensures var s := Run(Start(clients, max), steps);
            var t := Next(s, Return(h, alive, None));
            t.closed == s.closed + multiset{s.handles[h].value} && t.pool.idle == [] && t.handles[h] == None
  {
    hide Next, Enabled, Owned, Live;
    StartInv(clients, max);
    RunInv(Start(clients, max), steps);
    LateReturn(Run(Start(clients, max), steps), h, alive);
  }

  lemma LateReturn(s: State, h: nat, alive: bool)
    requires Counted(s) && s.pool.shutdown && Holds(s, h)
    ensures var t := Next(s, Return(h, alive, None));
            t.closed == s.closed + multiset{s.handles[h].value} && t.pool.idle == [] && t.handles[h] == None
  {
    hide Pinged, Held, Weights;
  }

  // ---- what a client gets, and where a connection goes ----

  /** A client with the lock is refused after shutdown, else gets the oldest idle connection, a new one, or waits. */
  lemma LockOutcome(s: State, i: nat)
    requires Enabled(s, Lock(i))
    ensures var t, p, q := Next(s, Lock(i)), s.pool, Next(s, Lock(i)).pool;
            && |t.clients| == |s.clients| && t.handles == s.handles && t.closed == s.closed && t.created == s.created
            && (p.shutdown ==> t.clients[i] == Outside && q == p)
            && (!p.shutdown && p.idle != [] ==>
                  && t.clients[i] == Pinging(p.idle[0]) && q.idle == p.idle[1..]
                  && q.total == p.total && !q.shutdown && q.max == p.max)
            && (!p.shutdown && p.idle == [] && p.total < p.max ==>
                  && t.clients[i] == Creating && q.idle == []
                  && q.total == p.total + 1 && !q.shutdown && q.max == p.max)
            && (!p.shutdown && p.idle == [] && p.total >= p.max ==> t.clients[i] == Blocked && q == p)
  {
  }

  /** A returned connection: closed after shutdown or when its ping failed, else idle behind all others. */
  lemma ReturnOutcome(s: State, h: nat, alive: bool, wakes: Option<nat>)
    requires Enabled(s, Return(h, alive, wakes))
    ensures var t, p, c := Next(s, Return(h, alive, wakes)), s.pool, s.handles[h].value;
            && t.handles == s.handles[h := None]
            && (p.shutdown || !alive ==> t.closed == s.closed + multiset{c} && t.pool.idle == p.idle)
            && (!p.shutdown && alive ==> t.closed == s.closed && t.pool.idle == p.idle + [c])
            && (p.shutdown || alive ==> t.pool.total == p.total)
            && (!p.shutdown && !alive && p.total > 0 ==> t.pool.total == p.total - 1)
  {
  }

  /** The first shutdown closes what is idle, zeroes the total and wakes everybody; another one does nothing. */
  lemma ShutdownOutcome(s: State)
    ensures var t := Next(s, Shutdown);
            if s.pool.shutdown then t == s
            else
              && t.pool == Pool([], 0, true, s.pool.max) && t.closed == s.closed + multiset(s.pool.idle)
              && t.handles == s.handles && Blocked !in t.clients
  {
    AllWokenClients(s.clients);
  }

  /** The connections on which a step finds the ping failing. */
  function FailedPing(s: State, step: Step): multiset<Conn>
    requires Enabled(s, step)
  {
    match step
    case PingFails(i) => multiset{s.clients[i].conn}
    case Return(h, alive, _) => if alive then multiset{} else multiset{s.handles[h].value}
    case MoveInto(_, dst, alive, _) => if alive || !Holds(s, dst) then multiset{} else multiset{s.handles[dst].value}
    case _ => multiset{}
  }

  ghost function FailedPings(s: State, steps: seq<Step>): multiset<Conn>
    requires Possible(s, steps)
    decreases |steps|
  {
    if steps == [] then multiset{} else FailedPing(s, steps[0]) + FailedPings(Next(s, steps[0]), steps[1..])
  }

  lemma StepCloses(s: State, step: Step)
    requires Enabled(s, step) && !Next(s, step).pool.shutdown
    ensures !s.pool.shutdown && Next(s, step).closed == s.closed + FailedPing(s, step)
  {
    assert s.closed + multiset{} == s.closed;
  }

  lemma {:induction false} RunCloses(s: State, steps: seq<Step>)
    requires Possible(s, steps) && !Run(s, steps).pool.shutdown
    ensures !s.pool.shutdown && Run(s, steps).closed == s.closed + FailedPings(s, steps)
    decreases |steps|
  {
    hide Next, Enabled, FailedPing;
    if steps == [] {
      assert s.closed + multiset{} == s.closed;
    } else {
      RunCloses(Next(s, steps[0]), steps[1..]);
      StepCloses(s, steps[0]);
      SumAssoc(s.closed, FailedPing(s, steps[0]), FailedPings(Next(s, steps[0]), steps[1..]));
    }
  }

  lemma SumAssoc(a: multiset<Conn>, b: multiset<Conn>, c: multiset<Conn>)
    ensures (a + b) + c == a + (b + c)
  {
  }

  /** Before shutdown the connections closed are exactly those on which a ping failed, each closed once. */
  lemma PingDecides(clients: nat, max: nat, steps: seq<Step>)
    requires Possible(Start(clients, max), steps) && !Run(Start(clients, max), steps).pool.shutdown
    ensures Run(Start(clients, max), steps).closed == FailedPings(Start(clients, max), steps)
    ensures forall c :: FailedPings(Start(clients, max), steps)[c] <= 1
  {
    hide Next, Enabled, Held, Pinged, Possible, Run;
    var s0 := Start(clients, max);
    RunCloses(s0, steps);
    assert multiset{} + FailedPings(s0, steps) == FailedPings(s0, steps);
    Ownership(clients, max, steps);
    forall c ensures FailedPings(s0, steps)[c] <= 1 { assert Run(s0, steps).closed[c] <= 1; }
  }

  lemma {:induction false} ClosedGrows(s: State, steps: seq<Step>, c: Conn)
    requires Possible(s, steps)
    ensures Run(s, steps).closed[c] >= s.closed[c]
    decreases |steps|
  {
    if steps != [] { ClosedGrows(Next(s, steps[0]), steps[1..], c); }
  }

  lemma {:induction false} RunConcat(s: State, a: seq<Step>, b: seq<Step>)
    requires Possible(s, a + b)
    ensures Possible(s, a) && Possible(Run(s, a), b) && Run(s, a + b) == Run(Run(s, a), b)
    decreases |a|
  {
    hide Next, Enabled;
    if a == [] {
      assert a + b == b;
    } else {
      assert (a + b)[0] == a[0] && (a + b)[1..] == a[1..] + b;
      RunConcat(Next(s, a[0]), a[1..], b);
    }
  }

  /** A connection once closed is never idle, pinged or held again. */
  lemma ClosedForGood(clients: nat, max: nat, before: seq<Step>, after: seq<Step>, c: Conn)
    requires Possible(Start(clients, max), before + after) && Possible(Start(clients, max), before)
    requires Run(Start(clients, max), before).closed[c] > 0
    ensures var t := Run(Start(clients, max), before + after);
            t.closed[c] == 1 && c !in t.pool.idle && Pinged(t.clients)[c] == 0 && Held(t.handles)[c] == 0
  {
    hide Next, Enabled, Held, Pinged, Possible, Run;
    RunConcat(Start(clients, max), before, after);
    ClosedGrows(Run(Start(clients, max), before), after, c);
    Ownership(clients, max, before + after);
  }

  // ---- first in, first out ----

  /** The connection a step puts behind the idle ones. */
  function PutBack(s: State, step: Step): seq<Conn>
    requires Enabled(s, step)
  {
    match step
    case Return(h, alive, _) => if alive then [s.handles[h].value] else []
    case MoveInto(_, dst, alive, _) => if alive && Holds(s, dst) then [s.handles[dst].value] else []
    case _ => []
  }

  /** The connection a step hands to a client for its ping. */
  function TakenOut(s: State, step: Step): seq<Conn>
    requires Enabled(s, step)
  {
    match step
    case Lock(i) => if Next(s, step).clients[i].Pinging? then [Next(s, step).clients[i].conn] else []
    case _ => []
  }

  ghost function AllPutBack(s: State, steps: seq<Step>): seq<Conn>
    requires Possible(s, steps)
    decreases |steps|
  {
    if steps == [] then [] else PutBack(s, steps[0]) + AllPutBack(Next(s, steps[0]), steps[1..])
  }

  ghost function AllTakenOut(s: State, steps: seq<Step>): seq<Conn>
    requires Possible(s, steps)
    decreases |steps|
  {
    if steps == [] then [] else TakenOut(s, steps[0]) + AllTakenOut(Next(s, steps[0]), steps[1..])
  }

  lemma StepQueues(s: State, step: Step)
    requires Enabled(s, step) && !Next(s, step).pool.shutdown
    ensures !s.pool.shutdown && s.pool.idle + PutBack(s, step) == TakenOut(s, step) + Next(s, step).pool.idle
  {
    var idle := s.pool.idle;
    assert idle + [] == idle == [] + idle;
    if step.Lock? && idle != [] { assert idle == [idle[0]] + idle[1..]; }
    assert [] + Next(s, step).pool.idle == Next(s, step).pool.idle;
  }

  lemma {:induction false} RunQueues(s: State, steps: seq<Step>)
    requires Possible(s, steps) && !Run(s, steps).pool.shutdown
    ensures !s.pool.shutdown && s.pool.idle + AllPutBack(s, steps) == AllTakenOut(s, steps) + Run(s, steps).pool.idle
    decreases |steps|
  {
    hide Next, Enabled, PutBack, TakenOut;
    if steps == [] {
      assert s.pool.idle + [] == s.pool.idle == [] + s.pool.idle;
    } else {
      var t, rest := Next(s, steps[0]), steps[1..];
      RunQueues(t, rest);
      StepQueues(s, steps[0]);
      Assoc(s.pool.idle, PutBack(s, steps[0]), AllPutBack(t, rest));
      Assoc(TakenOut(s, steps[0]), t.pool.idle, AllPutBack(t, rest));
      Assoc(TakenOut(s, steps[0]), AllTakenOut(t, rest), Run(t, rest).pool.idle);
    }
  }

  /** Before shutdown connections are reused in the order in which they were returned. */
  lemma ReuseInOrder(clients: nat, max: nat, steps: seq<Step>)
    requires Possible(Start(clients, max), steps) && !Run(Start(clients, max), steps).pool.shutdown
    ensures var s0 := Start(clients, max);
            AllPutBack(s0, steps) == AllTakenOut(s0, steps) + Run(s0, steps).pool.idle
  {
    hide Next, Enabled, Possible, Run;
    RunQueues(Start(clients, max), steps);
    assert [] + AllPutBack(Start(clients, max), steps) == AllPutBack(Start(clients, max), steps);
  }
}
