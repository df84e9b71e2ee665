/**
 * The connection abstraction the pool is built on: origins, URLs, the
 * IDLE/ACTIVE/CLOSED lifecycle, connection objects and the response body
 * stream a connection hands back.  The HTTP/1.1 and HTTP/2 engines that
 * implement these are not modelled; only the parts the pool reads or calls
 * are kept, and the engine's decisions arrive as parameters.
 */
module Connections {

  newtype byte = x: int | 0 <= x < 256

  type Bytes = seq<byte>

  /** The (scheme, host, port) triple the pool groups connections by. */
  datatype Origin = Origin(scheme: Bytes, host: Bytes, port: int)

  /** A request target: (scheme, host, port, target). */
  datatype Url = Url(scheme: Bytes, host: Bytes, port: int, target: Bytes)

  /** `url[:3]`: the first three components of the URL. */
  function OriginOf(url: Url): (r: Origin)
  {
    Origin(url.scheme, url.host, url.port)
  }

  /** Lifecycle of a connection: reusable, in use, or terminally unusable. */
  datatype State = Idle | Active | Closed

  /**
   * A connection bound to one origin for its whole life.  Its identity is the
   * object's identity, as in the hashed Python sets the pool stores it in.
   */
  class Connection {
    const origin: Origin
    var state: State

    /** A freshly built connection is about to serve its first request. */
    constructor (origin: Origin)
      ensures this.origin == origin && state == Active
    {
      this.origin := origin;
      state := Active;
    }
  }

  /**
   * The response body a connection returns from its own `request`: a finite
   * sequence of chunks, and a close hook through which the engine finishes
   * the exchange and decides whether its connection is kept alive.
   */
  class ByteStream {
    const connection: Connection
    const body: seq<Bytes>

    constructor (connection: Connection, body: seq<Bytes>)
      ensures this.connection == connection && this.body == body
    {
      this.connection := connection;
      this.body := body;
    }

    /**
     * The engine's close hook.  `next` is the state the engine leaves the
     * connection in (IDLE for keep-alive, CLOSED otherwise) and `fails`
     * whether the hook raises; both are the engine's decisions.
     */
    method Close(next: State, fails: bool) returns (ok: bool)
      modifies connection
      ensures connection.state == next
      ensures ok == !fails
    {
      connection.state := next;
      ok := !fails;
    }
  }
}
