/**
 * Runs of the pool from a caller's side: the behaviours the pool promises
 * for sequences of requests, closes and shutdowns, proved from the
 * contracts of `Pool` alone.  Concurrent callers appear as calls in one of
 * the orders the lock allows.
 */
module PoolScenarios {
  import opened Connections
  import opened PoolTable
  import opened Pool

  /** The probe of a pool whose peers are all still connected. */
  function NoneDropped(): Connection -> bool
  {
    (c: Connection) => false
  }

  /** A `close()` that never raises. */
  function NoneRaise(): Connection -> bool
  {
    (c: Connection) => false
  }

  /**
   * A new pool after one request whose body was closed with keep-alive: it
   * holds exactly that connection, IDLE, under the URL's origin, and has
   * closed nothing.
   */
  method OneIdle(url: Url, exchange: Exchange) returns (pool: ConnectionPool, c: Connection)
    requires exchange.Responded?
    ensures fresh(pool) && pool.Valid()
    ensures pool.connections == map[OriginOf(url) := {c}]
    ensures fresh(c) && c.state == Idle && c.origin == OriginOf(url)
    ensures pool.closed == multiset{}
  {
    pool := new ConnectionPool();
    var r, _ := pool.Request(url, NoneDropped(), NoneRaise(), exchange);
    c := r.value.stream.connection;
    assert Members(map[], OriginOf(url)) + {c} == {c};
    var err := r.value.stream.Close(Idle, false);
  }

  /**
   * Once a response body is closed and the engine keeps the connection
   * alive, the next request to the same origin goes out on that same
   * connection.
   */
  method ReuseAfterKeepAlive(url: Url, first: Exchange, second: Exchange)
    returns (c1: Connection, c2: Connection)
    requires first.Responded? && second.Responded?
    ensures c1 == c2
  {
    var pool;
    pool, c1 := OneIdle(url, first);
    var r2, _ := pool.Request(url, NoneDropped(), NoneRaise(), second);
    c2 := r2.value.stream.connection;
  }

  /**
   * Two requests to one origin whose responses are both still open go out on
   * two distinct connections, both held under that origin.
   */
  method TwoInFlight(url: Url, first: Exchange, second: Exchange)
    returns (pool: ConnectionPool, c1: Connection, c2: Connection, b1: ResponseByteStream, b2: ResponseByteStream)
    requires first.Responded? && second.Responded?
    ensures c1 != c2
    ensures pool.connections == map[OriginOf(url) := {c1, c2}]
    ensures fresh(pool) && pool.Valid() && fresh(c1) && fresh(c2) && pool.closed == multiset{}
    ensures b1.connection == c1 && b1.stream.connection == c1 && b1.pool == pool
    ensures b2.connection == c2 && b2.stream.connection == c2 && b2.pool == pool
  {
    var o := OriginOf(url);
    pool := new ConnectionPool();
    var r1, _ := pool.Request(url, NoneDropped(), NoneRaise(), first);
    c1 := r1.value.stream.connection;
    b1 := r1.value.stream;
    assert Members(map[], o) + {c1} == {c1};
    assert pool.connections == map[o := {c1}];
    // c1 is ACTIVE, so the second acquisition finds nothing to reuse.
    assert DroppedIdle({c1}, NoneDropped()) == {};
    var r2, _ := pool.Request(url, NoneDropped(), NoneRaise(), second);
    c2 := r2.value.stream.connection;
    b2 := r2.value.stream;
    assert Members(map[o := {c1}], o) + {c2} == {c1, c2};
  }

  /**
   * An IDLE connection whose peer has gone away is never handed out again:
   * the next request to its origin closes and removes it and goes out on a
   * fresh connection.
   */
  method DroppedIsReplaced(url: Url, first: Exchange, second: Exchange)
    returns (pool: ConnectionPool, c1: Connection, c2: Connection)
    requires first.Responded? && second.Responded?
    ensures c1 != c2
    ensures pool.closed == multiset{c1}
    ensures pool.connections == map[OriginOf(url) := {c2}]
  {
    var o := OriginOf(url);
    pool, c1 := OneIdle(url, first);
    var gone := c1;
    var probe := (c: Connection) => c == gone;
    assert DroppedIdle({c1}, probe) == {c1};
    assert Discard(pool.connections, o, {c1}) == map[];
    assert ClosesCleanly({c1}, NoneRaise());
    var r2, _ := pool.Request(url, probe, NoneRaise(), second);
    c2 := r2.value.stream.connection;
  }

  /**
   * A failed exchange leaves its connection held: the exception skips the
   * wrapping of the body, so the release callback never runs for that
   * connection.  When the engine left it ACTIVE, later requests to the
   * origin cannot reuse it and go out on a new connection beside it.
   */
  method FailedExchangeStaysHeld(url: Url, second: Exchange)
    returns (pool: ConnectionPool, r1: Result<Response, Error>, ghost c1: Connection?, c2: Connection)
    requires second.Responded?
    ensures r1 == Failure(ExchangeError)
    ensures c1 != null && c1 != c2 && c1.state == Active
    ensures pool.connections == map[OriginOf(url) := {c1, c2}]
  {
    var o := OriginOf(url);
    pool := new ConnectionPool();
    r1, c1 := pool.Request(url, NoneDropped(), NoneRaise(), Raised(Active));
    assert Members(map[], o) + {c1} == {c1};
    assert pool.connections == map[o := {c1}];
    assert DroppedIdle({c1}, NoneDropped()) == {};
    var r2, _ := pool.Request(url, NoneDropped(), NoneRaise(), second);
    c2 := r2.value.stream.connection;
    assert Members(map[o := {c1}], o) + {c2} == {c1, c2};
  }

  /**
   * A new pool after two requests to one origin whose bodies were both
   * closed with keep-alive: it holds exactly those two connections, IDLE.
   */
  method TwoIdle(url: Url, first: Exchange, second: Exchange)
    returns (pool: ConnectionPool, c1: Connection, c2: Connection)
    requires first.Responded? && second.Responded?
    ensures fresh(pool) && pool.Valid() && fresh(c1) && fresh(c2)
    ensures c1 != c2 && c1.state == Idle && c2.state == Idle
    ensures pool.connections == map[OriginOf(url) := {c1, c2}]
    ensures pool.closed == multiset{}
  {
    var b1, b2;
    pool, c1, c2, b1, b2 := TwoInFlight(url, first, second);
    var e1 := b1.Close(Idle, false);
    var e2 := b2.Close(Idle, false);
  }

  /**
   * A close that raises during acquisition strands the connection already
   * chosen for reuse: with two IDLE connections, one dropped and raising on
   * close, the request fails with the close error, the live one is left
   * ACTIVE in the table with no response bound to it, and the dropped one
   * is gone.
   */
  method CloseErrorStrandsReuse(url: Url, first: Exchange, second: Exchange, third: Exchange)
    returns (pool: ConnectionPool, r: Result<Response, Error>, ghost used: Connection?, c2: Connection)
    requires first.Responded? && second.Responded?
    ensures r == Failure(ConnectionCloseError)
    ensures used == c2 && c2.state == Active
    ensures pool.connections == map[OriginOf(url) := {c2}]
  {
    var o := OriginOf(url);
    var c1;
    pool, c1, c2 := TwoIdle(url, first, second);
    var gone := c1;
    var probe := (c: Connection) => c == gone;
    assert DroppedIdle({c1, c2}, probe) == {c1};
    assert !ClosesCleanly({c1}, probe);
    assert {c1, c2} - {c1} == {c2};
    assert Discard(pool.connections, o, {c1}) == map[o := {c2}];
    r, used := pool.Request(url, probe, probe, third);
  }

  /**
   * Closing one response body twice after the engine closed the connection
   * runs the release callback twice; the second call finds nothing to remove
   * and raises KeyError.
   */
  method DoubleClose(url: Url, exchange: Exchange)
    returns (pool: ConnectionPool, e1: Option<Error>, e2: Option<Error>)
    requires exchange.Responded?
    ensures e1 == None && e2 == Some(KeyError)
    ensures pool.connections == map[]
  {
    pool := new ConnectionPool();
    var r, _ := pool.Request(url, NoneDropped(), NoneRaise(), exchange);
    var body := r.value.stream;
    e1 := body.Close(Closed, false);
    e2 := body.Close(Closed, false);
  }

  /**
   * Two acquisitions for one origin never hand out the same connection: the
   * first leaves its connection ACTIVE, so the second cannot choose it, and
   * this holds whether or not the closes of either acquisition raise.
   */
  method AcquireTwice(pool: ConnectionPool, origin: Origin, probe1: Connection -> bool, probe2: Connection -> bool,
                      fails1: Connection -> bool, fails2: Connection -> bool)
    returns (r1: Connection?, r2: Connection?)
    requires pool.Valid()
    modifies pool, pool.Held(origin)
    ensures pool.Valid()
    ensures r1 != null ==> r1 != r2 && r1.state == Active
  {
    var e1, e2;
    r1, e1 := pool.GetConnectionFromPool(origin, probe1, fails1);
    r2, e2 := pool.GetConnectionFromPool(origin, probe2, fails2);
  }

  /**
   * Shutting down twice does what shutting down once does: the second call
   * finds an empty table, closes nothing and cannot raise.
   */
  method ShutdownTwice(pool: ConnectionPool, fails: Connection -> bool)
    returns (e1: Option<Error>, e2: Option<Error>, ghost between: multiset<Connection>)
    requires pool.Valid()
    modifies pool
    ensures pool.connections == map[]
    ensures e1 == None ==> between == old(pool.closed) + multiset(Stored(old(pool.connections)))
    ensures pool.closed == between
    ensures e2 == None
  {
    e1 := pool.Close(fails);
    between := pool.closed;
    e2 := pool.Close(fails);
    assert Stored(map[]) == {};
  }
}
