# httpcore synchronous connection pool, modelled in Dafny

This project models the bookkeeping of httpcore's `SyncConnectionPool` and
of its `ResponseByteStream` wrapper (`httpcore/_sync/connection_pool.py`).
The pool keeps a table `connections` that maps each origin, a
(scheme, host, port) triple, to a set of connections. Each connection is
IDLE, ACTIVE or CLOSED. Four places change this table:

- acquisition (`_get_connection_from_pool`) evicts and closes the origin's
  IDLE connections that the liveness probe reports as dropped, and hands out
  one IDLE, live connection after marking it ACTIVE;
- `request` inserts a new connection under its origin when acquisition finds
  none to reuse;
- the release callback (`_response_closed`) removes a CLOSED connection;
- shutdown (`close`) collects every connection, clears the table and closes
  them all.

Every block the source runs under its thread lock is one atomic step of the
model.

None of the pool's calls of `connection.close()` is guarded by a handler.
When one raises, the loop stops there, and the remaining connections stay
unclosed. In acquisition the table edits and the ACTIVE mark come before the
closes. So a close error there leaves the chosen connection ACTIVE and held,
and no caller gets it back. Likewise, when the connection's own `request`
raises, the body is never wrapped and the release callback never runs for
that connection. If the engine left it ACTIVE or CLOSED, it stays in the
table until shutdown, because acquisition looks only at IDLE members. If the
engine left it IDLE, a later acquisition reuses it, or evicts and closes it
when the probe reports it dropped. The model keeps both behaviours and proves them in
scenarios.

Files:

- `connections.dfy` (module `Connections`): the connection abstraction the
  pool uses. It holds origins, URLs, the three states, the `Connection`
  class (a fixed `origin` and a mutable `state`) and the engine's response
  body `ByteStream`, whose close hook reports the state the engine leaves
  the connection in.
- `pool_table.dfy` (module `PoolTable`): the table as a value. It defines
  its invariant `WellFormed`: no stored set is empty, and each connection is
  stored under its own origin. It defines the two table edits, `Discard`
  and `Insert`, and `Stored`, the set of every connection the table holds.
  The lemmas say what each edit does to `Stored`.
- `connection_pool.dfy` (module `Pool`): class `ConnectionPool`, class
  `ResponseByteStream`, and the two loops the pool runs under its lock
  (`SweepIdle` and `CollectAll`). `request` is split into its acquisition
  half (`Acquire`, with `AddConnection` for the creation path) and its
  exchange half (`SendOn`). Acquisition is split into its locked block
  (`EvictAndChoose`) and the closing loop (`CloseEach`, which makes one
  `CloseOne` call per connection). The pool's calls of `close()` are counted
  in the ghost multiset `closed`. The release callback's calls are logged in
  the ghost sequence `released`, each with the state the callback saw.
- `scenarios.dfy` (module `PoolScenarios`): runs of the pool from a caller's
  side, proved from the contracts alone. They cover keep-alive reuse, two
  requests in flight, replacing a dropped connection, a double close of a
  response body, two acquisitions, a repeated shutdown, a failed exchange,
  and a close error during acquisition.

Parameters stand in for what the pool cannot see:

- `isDropped: Connection -> bool` is the answer of `is_connection_dropped()`
  for each connection at the moment of acquisition.
- `closeFails: Connection -> bool` says whose `close()` raises when the pool
  calls it. Every such exception is reported as `ConnectionCloseError`.
- `Exchange` is the outcome of the connection's own `request`: the
  five-part response, or an exception that leaves the connection in a given
  state.
- The `next` and `innerFails` arguments of `ResponseByteStream.Close` are
  the engine close hook's decisions: keep-alive or not, and whether it
  raises.

## Model

| member | source | states |
|---|---|---|
| `PoolTable.Discard` | httpcore/_sync/connection_pool.py:118-121 | removes the given connections from one origin's set and deletes that origin's key exactly when the set becomes empty; an origin with no entry and every other origin are left as they were; keeps the table well formed |
| `PoolTable.Insert` | httpcore/_sync/connection_pool.py:84-86 | adds the connection to its origin's set, creating the entry when missing; every other origin is untouched; keeps the table well formed when the connection's origin is the key |
| `PoolTable.StoredByOrigin` | httpcore/_sync/connection_pool.py:59-61 | in a well-formed table, a connection is held at all exactly when it is in the set under its own origin, so no connection is held under two origins |
| `PoolTable.StoredAfterDiscard` | httpcore/_sync/connection_pool.py:106-121 | discarding members of one origin's set stops tracking exactly those connections and no others |
| `PoolTable.StoredAfterInsert` | httpcore/_sync/connection_pool.py:84-86 | inserting a connection starts tracking it and changes nothing else |
| `Pool.SweepIdle` | httpcore/_sync/connection_pool.py:106-116 | the dropped set is exactly the IDLE members the probe reports dropped; the kept set is everything else, including ACTIVE and live IDLE members; the remembered connection is some kept IDLE, live member, and it is null exactly when there is none |
| `Pool.CollectAll` | httpcore/_sync/connection_pool.py:146-148 | returns exactly the union of all stored sets |
| `Pool.ConnectionPool.constructor` | httpcore/_sync/connection_pool.py:56-62 | a new pool has an empty table and has closed nothing |
| `Pool.ConnectionPool.CloseOne` | httpcore/_sync/connection_pool.py:130 | one close call: logged once, and raising exactly when the oracle says so; the table is untouched |
| `Pool.RaisedLastAfterClean` | httpcore/_sync/connection_pool.py:129-130 | a run of clean closes followed by one raising close has exactly one raising connection in its log |
| `Pool.ConnectionPool.CloseEach` | httpcore/_sync/connection_pool.py:128-130 | closes the given connections one at a time, each at most once, and leaves the table unchanged; it succeeds exactly when none of them raises, and then every one is closed; otherwise it stops at the first close that raised, so exactly one logged connection raised and every other logged one closed cleanly |
| `Pool.ConnectionPool.EvictAndChoose` | httpcore/_sync/connection_pool.py:103-126 | the locked block of acquisition: removes exactly the origin's IDLE connections reported dropped and returns them to be closed; deletes the emptied key; marks some IDLE, live member ACTIVE, or chooses none exactly when there is none; closes nothing |
| `Pool.ConnectionPool.GetConnectionFromPool` | httpcore/_sync/connection_pool.py:96-132 | removes from the origin's set exactly its IDLE connections reported dropped; deletes the key if the set empties; closes only removed connections, each at most once, and all of them unless a close raises; a raising close gives ConnectionCloseError, after the table edits and the ACTIVE mark, and stops the closing there; returns null exactly when no IDLE, live member exists, otherwise such a member, now ACTIVE and still held; leaves every other member's state and every other origin alone; a missing origin gives null and no change |
| `Pool.ConnectionPool.ResponseClosed` | httpcore/_sync/connection_pool.py:134-141 | a CLOSED connection that is held is removed from its origin's set, and the emptied key is deleted; otherwise the table is unchanged, with KeyError when the CLOSED connection is not held; each call is logged with the state it saw |
| `Pool.ConnectionPool.Close` | httpcore/_sync/connection_pool.py:143-153 | leaves the table empty, even when a close raises; closes only connections it held, each at most once; gives ConnectionCloseError exactly when one of their closes raises, and then the closing stopped at it; otherwise it has closed every one of them |
| `Pool.ConnectionPool.Acquire` | httpcore/_sync/connection_pool.py:72-86 | takes a connection for the origin from the pool, or, only when none is reusable and acquisition did not raise, a fresh ACTIVE one inserted under the origin; on a close error no connection is created and a chosen one stays ACTIVE and held; the tracked set loses the evicted connections and gains only the new one |
| `Pool.ConnectionPool.AddConnection` | httpcore/_sync/connection_pool.py:75-86 | builds a fresh ACTIVE connection for the origin and adds it to that origin's set; every other entry, the close log and the release log are unchanged |
| `Pool.ConnectionPool.SendOn` | httpcore/_sync/connection_pool.py:88-94 | succeeds exactly when the engine responds; then the five response parts are passed through, and the body is wrapped and bound to the connection and this pool; an engine exception gives ExchangeError and leaves the connection in the state the engine chose |
| `Pool.ConnectionPool.Request` | httpcore/_sync/connection_pool.py:64-94 | the request goes out on a reused IDLE, live connection, or, only when none exists, on a fresh ACTIVE connection inserted under the URL's origin; the tracked set loses the evicted connections and gains only the new one; the engine's response is returned with its body wrapped, bound to that connection and to this pool; an engine exception is returned as ExchangeError; a close error of acquisition is returned as ConnectionCloseError, no request is sent, and a connection chosen for reuse is left ACTIVE in the table |
| `Pool.ResponseByteStream.constructor` | httpcore/_sync/connection_pool.py:16-30 | the wrapper keeps the inner stream, the connection and the pool whose callback it runs |
| `Pool.ResponseByteStream.Iterate` | httpcore/_sync/connection_pool.py:32-34 | yields the inner stream's chunks unchanged and in order |
| `Pool.ResponseByteStream.Close` | httpcore/_sync/connection_pool.py:36-44 | runs the engine's close hook and then the pool callback, exactly once, even when the hook fails; the callback sees the state the hook left; a CLOSED connection is no longer held afterwards; the callback's KeyError replaces the hook's error |
| `Connections.Connection.constructor` | httpcore/_sync/connection_pool.py:76-83 | a new connection is bound to the given origin and starts ACTIVE |
| `Connections.ByteStream.Close` | httpcore/_sync/connection_pool.py:40 | the engine's close hook leaves the connection in the state the engine chose and reports whether it raised |
| `PoolScenarios.OneIdle` | httpcore/_sync/connection_pool.py:72-94 | one request on a new pool whose body is closed with keep-alive leaves exactly that connection IDLE under its origin, and nothing closed |
| `PoolScenarios.ReuseAfterKeepAlive` | httpcore/_sync/connection_pool.py:72-94 | after a response on a new connection is closed with keep-alive, the next request to the same origin reuses that connection |
| `PoolScenarios.TwoInFlight` | httpcore/_sync/connection_pool.py:72-86 | two requests to one origin with both responses open use two distinct connections, both held under that origin |
| `PoolScenarios.TwoIdle` | httpcore/_sync/connection_pool.py:36-44 | closing both bodies of two in-flight requests with keep-alive leaves both connections IDLE and held |
| `PoolScenarios.DroppedIsReplaced` | httpcore/_sync/connection_pool.py:103-116 | a dropped IDLE connection is closed, removed and never handed out; the next request gets a fresh connection |
| `PoolScenarios.DoubleClose` | httpcore/_sync/connection_pool.py:36-44 | closing one response body twice after the engine closed the connection runs the callback twice; the second call raises KeyError |
| `PoolScenarios.AcquireTwice` | httpcore/_sync/connection_pool.py:123-126 | two acquisitions for one origin never return the same connection, whether or not their closes raise |
| `PoolScenarios.ShutdownTwice` | httpcore/_sync/connection_pool.py:143-153 | a second shutdown closes nothing and cannot raise, whether or not the first one raised, so shutdown is idempotent |
| `PoolScenarios.FailedExchangeStaysHeld` | httpcore/_sync/connection_pool.py:88-93 | when the connection's own request raises and leaves it ACTIVE, it stays in the table, and the next request to the origin goes out on a second connection beside it |
| `PoolScenarios.CloseErrorStrandsReuse` | httpcore/_sync/connection_pool.py:123-130 | with two IDLE connections, one dropped and raising on close, the request fails with the close error, the dropped one is gone, and the live one is left ACTIVE in the table, bound to no response |

## Left out

- Thread lock and concurrency: each locked block is one atomic step.
  Interleavings of concurrent callers are not verified. The scenarios show
  single interleavings only.
- HTTP/1.1 and HTTP/2 engines: they are represented only by the connection's
  state, the `isDropped` answers, the `Exchange` outcome and the close hook's
  decisions. A successful exchange leaves the connection's state as it was,
  so a connection that responds stays ACTIVE until its body is closed. The pool never branches on which engine it holds. The `http2`
  flag and the SSL context only choose and configure the engine, so they are
  not modelled.
- Effect of `connection.close()` on the connection: the call is recorded in
  the pool's ghost multiset `closed`. What the engine then does to the
  connection's state or socket is not modelled.
- Aliasing of the per-origin set: the source edits the set object it got
  from the dictionary. The model edits the set as a value and stores it
  back within the same atomic step. Nothing outside the pool holds that set,
  so the result is the same.
- Network I/O, DNS, TLS handshakes, the probe's implementation and byte
  transfer: not modelled. Creating a connection object opens no socket.
  Creation failures therefore surface in the exchange, as `Exchange.Raised`.
- Pass-through arguments: the request method, headers, request body stream
  and timeout dictionary are handed to the engine unchanged. The pool does
  nothing with them, so they are not parameters of `Request`.
- Laziness of the response body: `Iterate` returns all the inner stream's
  chunks at once. It does not model a generator that can be consumed only once.
- The callback is always the pool's `ResponseClosed`. Dafny has no
  first-class methods, so the wrapper holds the pool rather than a callable.
