/**
 * `HttpServer` (both copies): the handler registry, a map from method to a
 * map from path to handler, and the server channel it is started with. The
 * newer copy (`org.example.server.HttpServer`) also has `stop`.
 */
module Registry {
  import opened Wrappers

  /** The handler registered for `method` and `path`, if any: the lookup the server channel makes. */
  function Lookup<H>(handlers: map<string, map<string, H>>, httpMethod: string, path: string): (r: Option<H>)
    ensures r.Some? <==> httpMethod in handlers && path in handlers[httpMethod]
    ensures r.Some? ==> r.value == handlers[httpMethod][path]
  {
    if httpMethod in handlers && path in handlers[httpMethod] then Some(handlers[httpMethod][path]) else None
  }

  /** The registry after `addHandler(method, path, handler)`: `putIfAbsent` of an empty inner map, then `put` into it. */
  function Added<H>(handlers: map<string, map<string, H>>, httpMethod: string, path: string, handler: H)
    : (r: map<string, map<string, H>>)
    ensures r.Keys == handlers.Keys + {httpMethod}
    ensures Lookup(r, httpMethod, path) == Some(handler)
    ensures forall m, p :: (m, p) != (httpMethod, path) ==> Lookup(r, m, p) == Lookup(handlers, m, p)
  {
    var inner := if httpMethod in handlers then handlers[httpMethod] else map[];
    handlers[httpMethod := inner[path := handler]]
  }

  /** Registering the same method and path again replaces the earlier handler. */
  lemma AddedLastWins<H>(handlers: map<string, map<string, H>>, httpMethod: string, path: string, first: H, second: H)
    ensures Added(Added(handlers, httpMethod, path, first), httpMethod, path, second) == Added(handlers, httpMethod, path, second)
  {
    var inner := if httpMethod in handlers then handlers[httpMethod] else map[];
    assert inner[path := first][path := second] == inner[path := second];
  }

  /** Where the server's channel is. */
  datatype ChannelState = NoChannel | Running | Stopped

  class HttpServer<H> {
    const host: string
    const port: int
    var handlers: map<string, map<string, H>>
    var channel: ChannelState

    /** A new server has no handlers and no channel. */
    constructor (host: string, port: int)
      ensures this.host == host && this.port == port
      ensures handlers == map[] && channel == NoChannel
    {
      this.host := host;
      this.port := port;
      handlers := map[];
      channel := NoChannel;
    }

    /** `addHandler`. */
    method AddHandler(httpMethod: string, path: string, handler: H)
      modifies this
      ensures handlers == Added(old(handlers), httpMethod, path, handler)
      ensures channel == old(channel)
    {
      if httpMethod !in handlers {
        handlers := handlers[httpMethod := map[]];
      }
      handlers := handlers[httpMethod := handlers[httpMethod][path := handler]];
    }

    /** `start`: a new channel over this registry (the channel shares the map, so later registrations are seen). */
    method Start()
      modifies this
      ensures channel == Running && handlers == old(handlers)
    {
      channel := Running;
    }

    /** `stop`: stops the channel if there is one; before `start` nothing happens. */
    method Stop()
      modifies this
      ensures old(channel) == NoChannel ==> channel == NoChannel
      ensures old(channel) != NoChannel ==> channel == Stopped
      ensures handlers == old(handlers)
    {
      if channel != NoChannel {
        channel := Stopped;
      }
    }
  }
}
