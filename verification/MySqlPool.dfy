/** MySqlPool and its handles: what each lock-held section does. */
module MySqlPool {
  import opened Text

  type Conn = nat

  /** std::size_t */
  const SIZE_T: nat := 0x1_0000_0000_0000_0000

  function Decrement(total: nat): nat {
    if total == 0 then SIZE_T - 1 else total - 1
  }

  /** The members guarded by mu_, and the configured maximum. */
  datatype Pool = Pool(idle: seq<Conn>, total: nat, shutdown: bool, max: nat)

  /** What a client gets that holds the lock in Acquire. */
  datatype Grant = Refused | Reuse(conn: Conn) | Create | Wait

  function GrantOf(p: Pool): Grant {
    if p.shutdown then Refused
    else if p.idle != [] then Reuse(p.idle[0])
    else if p.total < p.max then Create
    else Wait
  }

  function AfterGrant(p: Pool): Pool {
    match GrantOf(p)
    case Reuse(_) => p.(idle := p.idle[1..])
    case Create => p.(total := p.total + 1)
    case _ => p
  }

  /** A returned connection is closed, or it goes back behind the idle ones. */
  predicate Closes(p: Pool, alive: bool) { p.shutdown || !alive }

  function AfterRelease(p: Pool, conn: Conn, alive: bool): Pool {
    if p.shutdown then p
    else if !alive then p.(total := if p.total > 0 then p.total - 1 else 0)
    else p.(idle := p.idle + [conn])
  }

  function AfterShutdown(p: Pool): Pool {
    if p.shutdown then p else p.(idle := [], total := 0, shutdown := true)
  }

  class MySqlPool {
    const maxConnections: nat
    var idle: seq<Conn>
    var total: nat
    var shutdown: bool
    ghost var closed: multiset<Conn>   // mysql_close calls

    ghost function State(): Pool
      reads this
    {
      Pool(idle, total, shutdown, maxConnections)
    }

    constructor (max: nat)
      ensures maxConnections == (if max == 0 then 1 else max)
      ensures State() == Pool([], 0, false, maxConnections) && closed == multiset{}
    {
      maxConnections := if max == 0 then 1 else max;
      idle, total, shutdown, closed := [], 0, false, multiset{};
    }

    /** The locked part of Acquire: on Wait the client blocks and comes back to it. */
    method TryAcquire() returns (g: Grant)
      modifies this
      ensures g == GrantOf(old(State())) && State() == AfterGrant(old(State())) && closed == old(closed)
    {
      if shutdown { return Refused; }
      if |idle| == 0 && total >= maxConnections { return Wait; }
      if |idle| != 0 {
        var c := idle[0];
        idle := idle[1..];
        return Reuse(c);
      }
      total := total + 1;
      return Create;
    }

    /** Behind a dead ping and behind a failed connect. */
    method ForgetOne()
      modifies this`total
      ensures State() == old(State()).(total := Decrement(old(total)))
    {
      total := if total == 0 then SIZE_T - 1 else total - 1;
    }

    /** The pointer may be null; `alive` is what mysql_ping would answer. */
    method Release(conn: Option<Conn>, alive: bool)
      modifies this
      ensures conn == None ==> State() == old(State()) && closed == old(closed)
      ensures conn.Some? ==> State() == AfterRelease(old(State()), conn.value, alive)
      ensures conn.Some? ==>
                closed == if Closes(old(State()), alive) then old(closed) + multiset{conn.value} else old(closed)
    {
      if shutdown {
        if conn.Some? { closed := closed + multiset{conn.value}; }
        return;
      }
      if conn == None { return; }
      if !alive {
        closed := closed + multiset{conn.value};
        if total > 0 { total := total - 1; }
        return;
      }
      idle := idle + [conn.value];
    }

    method Shutdown()
      modifies this
      ensures State() == AfterShutdown(old(State()))
      ensures closed == if old(shutdown) then old(closed) else old(closed) + multiset(old(idle))
    {
      if shutdown { return; }
      shutdown := true;
      while |idle| != 0
        invariant shutdown && total == old(total)
        invariant closed + multiset(idle) == old(closed) + multiset(old(idle))
        decreases |idle|
      {
        var c := idle[0];
        assert idle == [c] + idle[1..];
        idle := idle[1..];
        closed := closed + multiset{c};
      }
      total := 0;
    }
  }

  /** The move-only handle: moving empties the source, and only a full handle returns anything. */
  class PooledMySqlConnection {
    var pool: MySqlPool?
    var conn: Option<Conn>

    constructor (pool: MySqlPool?, conn: Option<Conn>)
      ensures this.pool == pool && this.conn == conn
    {
      this.pool, this.conn := pool, conn;
    }

    constructor Move(other: PooledMySqlConnection)
      modifies other
      ensures pool == old(other.pool) && conn == old(other.conn)
      ensures other.pool == null && other.conn == None
    {
      pool, conn := other.pool, other.conn;
      new;
      other.pool, other.conn := null, None;
    }

    /** Also the destructor. */
    method Release(alive: bool)
      modifies this, pool
      ensures pool == null && conn == None
      ensures old(pool) != null && old(conn).Some? ==>
                && old(pool).State() == AfterRelease(old(pool.State()), old(conn).value, alive)
                && old(pool).closed == (if Closes(old(pool.State()), alive)
                                        then old(pool.closed) + multiset{old(conn).value} else old(pool.closed))
      ensures old(pool) != null && old(conn) == None ==>
                old(pool).State() == old(pool.State()) && old(pool).closed == old(pool.closed)
    {
      if pool != null && conn.Some? {
        pool.Release(conn, alive);
      }
      pool, conn := null, None;
    }

    /** operator=(&&): self-assignment keeps the connection, otherwise the old one is returned first. */
    method Assign(other: PooledMySqlConnection, alive: bool)
      modifies this, other, pool
      ensures this == other ==> pool == old(pool) && conn == old(conn)
      ensures this == other && pool != null ==> pool.State() == old(pool.State()) && pool.closed == old(pool.closed)
      ensures this != other ==> pool == old(other.pool) && conn == old(other.conn)
      ensures this != other ==> other.pool == null && other.conn == None
      ensures this != other && old(pool) != null && old(conn).Some? ==>
                && old(pool).State() == AfterRelease(old(pool.State()), old(conn).value, alive)
                && old(pool).closed == (if Closes(old(pool.State()), alive)
                                        then old(pool.closed) + multiset{old(conn).value} else old(pool.closed))
      ensures this != other && old(pool) != null && old(conn) == None ==>
                old(pool).State() == old(pool.State()) && old(pool).closed == old(pool.closed)
    {
      if this == other { return; }
      Release(alive);
      pool, conn := other.pool, other.conn;
      other.pool, other.conn := null, None;
    }
  }
}
