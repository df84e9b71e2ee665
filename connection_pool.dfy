/**
 * The synchronous connection pool and the response stream wrapper.
 *
 * Each block the pool runs under its thread lock is one atomic step here:
 * the body of a method between the comments that mark the locked region.
 * The liveness probe `is_connection_dropped()` is the parameter `isDropped`,
 * its answer for each connection at the moment of the call.
 */
module Pool {
  import opened Connections
  import opened PoolTable

  datatype Option<T> = None | Some(value: T)

  datatype Result<T, E> = Success(value: T) | Failure(error: E)

  /** The exceptions the core lets reach its caller. */
  datatype Error =
    | KeyError          // release of a CLOSED connection the table no longer holds
    | StreamCloseError  // raised by the engine's close hook of the response body
    | ExchangeError     // raised by the engine while exchanging the request
    | ConnectionCloseError  // raised by a connection's close() that the pool calls

  type Headers = seq<(Bytes, Bytes)>

  /**
   * What the connection's own `request` does: it either returns the
   * five-part response, or raises and leaves the connection in `after`.
   */
  datatype Exchange =
    | Responded(httpVersion: Bytes, status: int, reason: Bytes, headers: Headers, body: seq<Bytes>)
    | Raised(after: State)

  /** The response `request` returns: the engine's, with the body wrapped. */
  datatype Response =
    Response(httpVersion: Bytes, status: int, reason: Bytes, headers: Headers, stream: ResponseByteStream)

  /** An IDLE connection whose peer has not dropped it may be handed out. */
  predicate Reusable(c: Connection, isDropped: Connection -> bool)
    reads c
  {
    c.state == Idle && !isDropped(c)
  }

  /** The IDLE members of `s` that the probe reports as dropped. */
  function DroppedIdle(s: set<Connection>, isDropped: Connection -> bool): (r: set<Connection>)
    reads s
  {
    set c | c in s && c.state == Idle && isDropped(c)
  }

  /**
   * The closes logged in `log` ended at `c`, the first one that raised: `c`
   * is logged and raises, and every other logged connection closed cleanly.
   */
  predicate StoppedAt(log: multiset<Connection>, c: Connection, closeFails: Connection -> bool)
  {
    c in log && closeFails(c) && forall d :: d in log && d != c ==> !closeFails(d)
  }

  /** The closes logged in `log` ended at the first one that raised. */
  predicate RaisedLast(log: multiset<Connection>, closeFails: Connection -> bool)
  {
    exists c :: c in log && StoppedAt(log, c, closeFails)
  }

  /** None of the connections in `s` raises when the pool closes it. */
  predicate ClosesCleanly(s: set<Connection>, closeFails: Connection -> bool)
  {
    forall c :: c in s ==> !closeFails(c)
  }

  /** Closing cleanly through `done` and then raising on `c` stops there. */
  lemma RaisedLastAfterClean(log: multiset<Connection>, done: set<Connection>, c: Connection,
                             closeFails: Connection -> bool)
    requires ClosesCleanly(done, closeFails) && closeFails(c)
    requires log == multiset(done) + multiset{c}
    ensures RaisedLast(log, closeFails)
  {
    assert c in log;
    assert forall d :: d in log && d != c ==> d in done;
    assert StoppedAt(log, c, closeFails);
  }



  /**
   * The pass over `list(connections)` in acquisition: removes every dropped
   * IDLE connection from the origin's set and remembers the last IDLE, live
   * connection it meets.  The iteration order of the set is not specified,
   * so neither is which reusable connection is remembered.
   */
  method SweepIdle(conns: set<Connection>, isDropped: Connection -> bool)
    returns (kept: set<Connection>, dropped: set<Connection>, reuse: Connection?)
    ensures dropped == DroppedIdle(conns, isDropped)
    ensures kept == conns - dropped
    ensures reuse == null <==> forall c :: c in conns ==> !Reusable(c, isDropped)
    ensures reuse != null ==> reuse in kept && Reusable(reuse, isDropped)
  {
    kept, dropped, reuse := conns, {}, null;
    var pending := conns;
    while pending != {}
      invariant pending <= conns
      invariant dropped == DroppedIdle(conns - pending, isDropped)
      invariant kept == conns - dropped
      invariant reuse == null <==> forall c :: c in conns - pending ==> !Reusable(c, isDropped)
      invariant reuse != null ==> reuse in conns - pending && Reusable(reuse, isDropped)
      decreases pending
    {
      var c :| c in pending;
      if c.state == Idle {
        if isDropped(c) {
          dropped := dropped + {c};
          kept := kept - {c};
        } else {
          reuse := c;
        }
      }
      pending := pending - {c};
      assert reuse != null ==> reuse in conns - pending;
    }
  }

  /**
   * The pass over `connections.values()` in shutdown: the union of every
   * stored set.
   */
  method CollectAll(t: Table) returns (all: set<Connection>)
    ensures all == Stored(t)
  {
    all := {};
    var pending := t.Keys;
    while pending != {}
      invariant pending <= t.Keys
      invariant forall c :: c in all <==> exists o :: o in t && o !in pending && c in t[o]
      decreases pending
    {
      var o :| o in pending;
      all := all + t[o];
      pending := pending - {o};
    }
  }

  class ConnectionPool {
    /** Each origin's connections; the pool's only shared mutable table. */
    var connections: Table
    /** How many times the pool has called `close()` on each connection. */
    ghost var closed: multiset<Connection>
    /**
     * Every call of the release callback, with the state the connection had
     * when the callback looked at it.
     */
    ghost var released: seq<(Connection, State)>

    ghost predicate Valid()
      reads this
    {
      WellFormed(connections)
    }

    /** The connections the pool currently holds for `o`. */
    function Held(o: Origin): (r: set<Connection>)
      reads this
    {
      Members(connections, o)
    }

    /** A new pool holds no connections and has closed none. */
    constructor ()
      ensures Valid()
      ensures connections == map[] && closed == multiset{} && released == []
    {
      connections := map[];
      closed := multiset{};
      released := [];
    }

    /**
     * The loops that call `close()` on each collected connection, outside
     * the lock, in the set's unspecified order.  `closeFails` says whose
     * `close()` raises.  The loop has no handler, so the first exception
     * ends it and the connections not yet visited are never closed.  Closing
     * leaves the table alone.
     */
    method CloseEach(toClose: set<Connection>, closeFails: Connection -> bool) returns (ok: bool)
      modifies this
      ensures connections == old(connections) && released == old(released)
      ensures old(closed) <= closed && closed - old(closed) <= multiset(toClose)
      ensures ok <==> ClosesCleanly(toClose, closeFails)
      ensures ok ==> closed == old(closed) + multiset(toClose)
      ensures !ok ==> RaisedLast(closed - old(closed), closeFails)
    {
      ok := true;
      var pending := toClose;
      while pending != {}
        invariant pending <= toClose
        invariant connections == old(connections) && released == old(released)
        invariant closed == old(closed) + multiset(toClose - pending)
        invariant ok && ClosesCleanly(toClose - pending, closeFails)
        decreases pending
      {
        var c :| c in pending;
        assert toClose - (pending - {c}) == (toClose - pending) + {c};
        var closedCleanly := CloseOne(c, closeFails);
        if !closedCleanly {
          ok := false;
          assert closed == old(closed) + multiset(toClose - (pending - {c}));
          RaisedLastAfterClean(closed - old(closed), toClose - pending, c, closeFails);
          return;
        }
        pending := pending - {c};
      }
    }

    /** One `connection.close()` call: logged, and raising when `closeFails` says so. */
    method CloseOne(c: Connection, closeFails: Connection -> bool) returns (ok: bool)
      modifies this
      ensures closed == old(closed) + multiset{c}
      ensures connections == old(connections) && released == old(released)
      ensures ok == !closeFails(c)
    {
      closed := closed + multiset{c};
      ok := !closeFails(c);
    }

    /**
     * The locked block of acquisition: removes the origin's dropped IDLE
     * connections from its set, deletes the emptied key, and marks some
     * IDLE, live connection of the origin ACTIVE, or chooses none.  Nothing
     * is closed yet.
     */
    method EvictAndChoose(origin: Origin, isDropped: Connection -> bool)
      returns (reuse: Connection?, toClose: set<Connection>)
      requires Valid()
      modifies this, Held(origin)
      ensures Valid()
      ensures toClose == old(DroppedIdle(Held(origin), isDropped))
      ensures connections == Discard(old(connections), origin, toClose)
      ensures closed == old(closed) && released == old(released)
      ensures reuse == null <==> forall c :: c in old(Held(origin)) ==> !old(Reusable(c, isDropped))
      ensures reuse != null ==>
                && reuse in old(Held(origin)) && old(Reusable(reuse, isDropped))
                && reuse.state == Active && reuse in Held(origin)
      ensures forall c :: c in old(Held(origin)) && c != reuse ==> c.state == old(c.state)
      ensures Stored(connections) == Stored(old(connections)) - toClose
    {
      reuse := null;
      toClose := {};
      if origin in connections {
        var kept;
        kept, toClose, reuse := SweepIdle(connections[origin], isDropped);
        if kept == {} {
          connections := connections - {origin};
        } else {
          connections := connections[origin := kept];
        }
      }
      if reuse != null {
        reuse.state := Active;
      }
      StoredAfterDiscard(old(connections), origin, toClose);
    }

    /**
     * Acquisition: evicts and closes the origin's dropped IDLE connections,
     * and hands out some IDLE, live connection of the origin (now ACTIVE),
     * or null when it has none.  When one of the closes raises, `err` carries
     * the exception instead; the table edits and the ACTIVE mark were made
     * before it, so a chosen connection stays held and ACTIVE.
     */
    method GetConnectionFromPool(origin: Origin, isDropped: Connection -> bool, closeFails: Connection -> bool)
      returns (reuse: Connection?, err: Option<Error>)
      requires Valid()
      modifies this, Held(origin)
      ensures Valid()
      ensures connections == Discard(old(connections), origin, old(DroppedIdle(Held(origin), isDropped)))
      ensures old(closed) <= closed
      ensures closed - old(closed) <= multiset(old(DroppedIdle(Held(origin), isDropped)))
      ensures err == if ClosesCleanly(old(DroppedIdle(Held(origin), isDropped)), closeFails) then None
                     else Some(ConnectionCloseError)
      ensures err == None ==> closed == old(closed) + multiset(old(DroppedIdle(Held(origin), isDropped)))
      ensures err != None ==> RaisedLast(closed - old(closed), closeFails)
      ensures released == old(released)
      ensures reuse == null <==> forall c :: c in old(Held(origin)) ==> !old(Reusable(c, isDropped))
      ensures reuse != null ==>
                && reuse in old(Held(origin)) && old(Reusable(reuse, isDropped))
                && reuse.state == Active && reuse in Held(origin)
      ensures forall c :: c in old(Held(origin)) && c != reuse ==> c.state == old(c.state)
      ensures Stored(connections) == Stored(old(connections)) - old(DroppedIdle(Held(origin), isDropped))
    {
      // Under the pool's lock, as one atomic step:
      var toClose;
      reuse, toClose := EvictAndChoose(origin, isDropped);
      // The lock is released here.

      var ok := CloseEach(toClose, closeFails);
      err := if ok then None else Some(ConnectionCloseError);
    }

    /**
     * The release callback: a connection the engine left CLOSED is removed
     * from its origin's set, and the origin's entry goes with the last one.
     * A connection in any other state stays where it is.
     */
    method ResponseClosed(c: Connection) returns (err: Option<Error>)
      requires Valid()
      modifies this
      ensures Valid()
      ensures released == old(released) + [(c, c.state)]
      ensures closed == old(closed)
      ensures c.state != Closed ==> err == None && connections == old(connections)
      ensures c.state == Closed && c in old(Held(c.origin)) ==>
                && err == None && connections == Discard(old(connections), c.origin, {c})
                && Stored(connections) == Stored(old(connections)) - {c}
      ensures c.state == Closed && c !in old(Held(c.origin)) ==>
                err == Some(KeyError) && connections == old(connections)
    {
      // Under the pool's lock, as one atomic step:
      released := released + [(c, c.state)];
      err := None;
      if c.state == Closed {
        if c.origin in connections && c in connections[c.origin] {
          var rest := connections[c.origin] - {c};
          if rest == {} {
            connections := connections - {c.origin};
          } else {
            connections := connections[c.origin := rest];
          }
        } else {
          err := Some(KeyError);
        }
      }
      if c in old(Held(c.origin)) {
        StoredAfterDiscard(old(connections), c.origin, {c});
      }
    }

    /**
     * Shutdown: empties the table and closes every connection it held.  A
     * close that raises ends the closing loop, and its exception is `err`;
     * the table is empty either way.
     */
    method Close(closeFails: Connection -> bool) returns (err: Option<Error>)
      requires Valid()
      modifies this
      ensures Valid()
      ensures connections == map[]
      ensures old(closed) <= closed && closed - old(closed) <= multiset(Stored(old(connections)))
      ensures err == if ClosesCleanly(Stored(old(connections)), closeFails) then None
                     else Some(ConnectionCloseError)
      ensures err == None ==> closed == old(closed) + multiset(Stored(old(connections)))
      ensures err != None ==> RaisedLast(closed - old(closed), closeFails)
      ensures released == old(released)
    {
      // Under the pool's lock, as one atomic step:
      var toClose := CollectAll(connections);
      connections := map[];
      // The lock is released here.

      var ok := CloseEach(toClose, closeFails);
      err := if ok then None else Some(ConnectionCloseError);
    }

    /**
     * The acquisition half of `request`: takes a connection from the pool
     * for `origin`, or, when there is none to reuse, builds one and, under
     * the lock, adds it to that origin's set.  A close error of acquisition
     * ends it before any connection is built.
     */
    method Acquire(origin: Origin, isDropped: Connection -> bool, closeFails: Connection -> bool)
      returns (c: Connection?, err: Option<Error>)
      requires Valid()
      modifies this, Held(origin)
      ensures Valid()
      ensures old(closed) <= closed
      ensures closed - old(closed) <= multiset(old(DroppedIdle(Held(origin), isDropped)))
      ensures err == if ClosesCleanly(old(DroppedIdle(Held(origin), isDropped)), closeFails) then None
                     else Some(ConnectionCloseError)
      ensures err == None ==> closed == old(closed) + multiset(old(DroppedIdle(Held(origin), isDropped)))
      ensures released == old(released)
      ensures c == null <==> err != None && forall x :: x in old(Held(origin)) ==> !old(Reusable(x, isDropped))
      ensures c != null ==> c.origin == origin && c.state == Active && c in Held(origin)
      ensures c == null || c in old(Held(origin)) ==>
                connections == Discard(old(connections), origin, old(DroppedIdle(Held(origin), isDropped)))
      ensures c != null && c in old(Held(origin)) ==> old(Reusable(c, isDropped))
      ensures c != null && c !in old(Held(origin)) ==>
                && fresh(c) && err == None
                && (forall x :: x in old(Held(origin)) ==> !old(Reusable(x, isDropped)))
                && connections == Insert(Discard(old(connections), origin, old(DroppedIdle(Held(origin), isDropped))), origin, c)
      ensures forall x :: x in old(Held(origin)) && x != c ==> x.state == old(x.state)
      ensures Stored(connections) ==
                (Stored(old(connections)) - old(DroppedIdle(Held(origin), isDropped)))
                + (if c == null || c in old(Held(origin)) then {} else {c})
    {
      c, err := GetConnectionFromPool(origin, isDropped, closeFails);
      if err == None && c == null {
        c := AddConnection(origin);
      }
    }

    /**
     * The creation path of `request`: builds a connection for `origin` and,
     * under the lock, adds it to that origin's set.
     */
    method AddConnection(origin: Origin) returns (c: Connection)
      requires Valid()
      modifies this
      ensures Valid()
      ensures fresh(c) && c.origin == origin && c.state == Active
      ensures connections == Insert(old(connections), origin, c)
      ensures Stored(connections) == Stored(old(connections)) + {c}
      ensures closed == old(closed) && released == old(released)
    {
      // The http2 flag only chooses which engine is built; both are a
      // Connection here.
      c := new Connection(origin);
      // Under the pool's lock, as one atomic step:
      StoredAfterInsert(connections, origin, c);
      connections := Insert(connections, origin, c);
    }

    /**
     * `request`: acquires a connection for the URL's origin, or creates one
     * and inserts it under that origin, then lets the connection exchange the
     * request and wraps the body it returns.  `used` is the connection the
     * request went to; it is null only when acquisition raised before any
     * connection was chosen.
     */
    method Request(url: Url, isDropped: Connection -> bool, closeFails: Connection -> bool, exchange: Exchange)
      returns (r: Result<Response, Error>, ghost used: Connection?)
      requires Valid()
      modifies this, Held(OriginOf(url))
      ensures Valid()
      ensures used != null ==> used.origin == OriginOf(url)
      ensures var o := OriginOf(url);
              var dropped := old(DroppedIdle(Held(o), isDropped));
              && old(closed) <= closed && closed - old(closed) <= multiset(dropped)
              && (ClosesCleanly(dropped, closeFails) ==> closed == old(closed) + multiset(dropped))
              && (r == Failure(ConnectionCloseError) <==> !ClosesCleanly(dropped, closeFails))
      ensures used == null <==>
                && !ClosesCleanly(old(DroppedIdle(Held(OriginOf(url)), isDropped)), closeFails)
                && forall c :: c in old(Held(OriginOf(url))) ==> !old(Reusable(c, isDropped))
      ensures used == null ==>
                connections == Discard(old(connections), OriginOf(url), old(DroppedIdle(Held(OriginOf(url)), isDropped)))
      ensures used != null && used in old(Held(OriginOf(url))) ==>
                && old(Reusable(used, isDropped))
                && connections == Discard(old(connections), OriginOf(url), old(DroppedIdle(Held(OriginOf(url)), isDropped)))
      ensures used != null && used !in old(Held(OriginOf(url))) ==>
                && fresh(used)
                && (forall c :: c in old(Held(OriginOf(url))) ==> !old(Reusable(c, isDropped)))
                && ClosesCleanly(old(DroppedIdle(Held(OriginOf(url)), isDropped)), closeFails)
                && connections == Insert(Discard(old(connections), OriginOf(url), old(DroppedIdle(Held(OriginOf(url)), isDropped))), OriginOf(url), used)
      ensures forall c :: c in old(Held(OriginOf(url))) && c != used ==> c.state == old(c.state)
      ensures Stored(connections) ==
                (Stored(old(connections)) - old(DroppedIdle(Held(OriginOf(url)), isDropped)))
                + (if used == null || used in old(Held(OriginOf(url))) then {} else {used})
      ensures released == old(released)
      ensures r == Failure(ConnectionCloseError) && used != null ==>
                used.state == Active && used in Held(OriginOf(url))
      ensures r.Success? <==>
                ClosesCleanly(old(DroppedIdle(Held(OriginOf(url)), isDropped)), closeFails) && exchange.Responded?
      ensures r.Success? ==>
                && used != null
                && used.state == Active
                && r.value.httpVersion == exchange.httpVersion
                && r.value.status == exchange.status
                && r.value.reason == exchange.reason
                && r.value.headers == exchange.headers
                && r.value.stream.connection == used
                && r.value.stream.pool == this
                && r.value.stream.stream.connection == used
                && r.value.stream.stream.body == exchange.body
      ensures r == Failure(ExchangeError) ==> used != null && used.state == exchange.after
      ensures r.Failure? ==> r.error == ConnectionCloseError || r.error == ExchangeError
    {
      var origin := OriginOf(url);
      var connection, err := Acquire(origin, isDropped, closeFails);
      used := connection;
      if err != None {
        // The close error leaves `request`; a chosen connection keeps the
        // ACTIVE mark and is returned to nobody.
        r := Failure(err.value);
      } else {
        r := SendOn(connection, exchange);
      }
    }

    /**
     * The rest of `request`: the connection exchanges the request, and the
     * body it returns is wrapped so that closing it runs this pool's release
     * callback.  An exception of the exchange leaves `request` unchanged.
     */
    method SendOn(connection: Connection, exchange: Exchange) returns (r: Result<Response, Error>)
      modifies connection
      ensures r.Success? <==> exchange.Responded?
      ensures r.Success? ==>
                && connection.state == old(connection.state)
                && r.value.httpVersion == exchange.httpVersion
                && r.value.status == exchange.status
                && r.value.reason == exchange.reason
                && r.value.headers == exchange.headers
                && r.value.stream.connection == connection
                && r.value.stream.pool == this
                && r.value.stream.stream.connection == connection
                && r.value.stream.stream.body == exchange.body
      ensures r.Failure? ==> r.error == ExchangeError && connection.state == exchange.after
    {
      match exchange
      case Raised(after) =>
        connection.state := after;
        r := Failure(ExchangeError);
      case Responded(httpVersion, status, reason, headers, body) =>
        var inner := new ByteStream(connection, body);
        var wrapped := new ResponseByteStream(inner, connection, this);
        r := Success(Response(httpVersion, status, reason, headers, wrapped));
    }
  }

  /**
   * The body a caller of `request` reads: the engine's stream, bound to the
   * connection that produced it and to the pool whose release callback must
   * run when it is closed.
   */
  class ResponseByteStream {
    const stream: ByteStream
    const connection: Connection
    const pool: ConnectionPool

    constructor (stream: ByteStream, connection: Connection, pool: ConnectionPool)
      ensures this.stream == stream && this.connection == connection && this.pool == pool
    {
      this.stream := stream;
      this.connection := connection;
      this.pool := pool;
    }

    /** `__iter__`: yields the engine's chunks unchanged and in order. */
    method Iterate() returns (chunks: seq<Bytes>)
      ensures chunks == stream.body
    {
      chunks := [];
      for i := 0 to |stream.body|
        invariant chunks == stream.body[..i]
      {
        chunks := chunks + [stream.body[i]];
      }
    }

    /**
     * `close`: runs the engine's close hook, which leaves the connection in
     * `next`, and then, whether or not the hook raised, the pool's release
     * callback, exactly once.  An error the callback raises replaces the
     * hook's, as an exception raised in a `finally` block does.
     */
    method Close(next: State, innerFails: bool) returns (err: Option<Error>)
      requires pool.Valid()
      requires stream.connection == connection
      modifies connection, pool
      ensures pool.Valid()
      ensures connection.state == next
      ensures pool.released == old(pool.released) + [(connection, next)]
      ensures pool.closed == old(pool.closed)
      ensures next == Closed ==> connection !in pool.Held(connection.origin)
      ensures var held := connection in old(pool.Held(connection.origin));
              && (if next == Closed && held
                  then pool.connections == Discard(old(pool.connections), connection.origin, {connection})
                  else pool.connections == old(pool.connections))
              && err == if next == Closed && !held then Some(KeyError)
                        else if innerFails then Some(StreamCloseError)
                        else None
    {
      // The engine's close hook first ...
      var ok := stream.Close(next, innerFails);
      // ... then the callback, whether or not the hook failed.
      var callbackErr := pool.ResponseClosed(connection);
      err := if callbackErr.Some? then callbackErr
             else if !ok then Some(StreamCloseError)
             else None;
    }
  }
}
