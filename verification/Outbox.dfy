/** The frames queued for each connection until the client pulls them. */
module Outbox {
  import opened Bytes
  import opened Frame

  type Queues = map<uint32, seq<Wire>>

  function Queued(q: Queues, id: uint32): seq<Wire> {
    if id in q then q[id] else []
  }

  function Append(q: Queues, id: uint32, w: Wire): Queues {
    q[id := Queued(q, id) + [w]]
  }

  function Clear(q: Queues, id: uint32): Queues {
    q[id := []]
  }

  datatype Event = Queue(id: uint32, w: Wire) | Pull(id: uint32)

  /** The queues after the events, starting empty. */
  function After(es: seq<Event>): Queues {
    if es == [] then map[]
    else
      var q, e := After(es[..|es| - 1]), es[|es| - 1];
      match e
      case Queue(id, w) => Append(q, id, w)
      case Pull(id) => Clear(q, id)
  }

  /** Everything the pulls of a connection returned, in order. */
  function Pulled(es: seq<Event>, id: uint32): seq<Wire> {
    if es == [] then []
    else Pulled(es[..|es| - 1], id)
         + (if es[|es| - 1] == Pull(id) then Queued(After(es[..|es| - 1]), id) else [])
  }

  /** Everything queued for a connection, in order. */
  function Appended(es: seq<Event>, id: uint32): seq<Wire> {
    if es == [] then []
    else Appended(es[..|es| - 1], id)
         + (if es[|es| - 1].Queue? && es[|es| - 1].id == id then [es[|es| - 1].w] else [])
  }

  /** For every interleaving: what the pulls returned, followed by what still waits,
      is exactly what was queued for that connection, in order. */
  lemma {:induction false} Conservation(es: seq<Event>, id: uint32)
    ensures Pulled(es, id) + Queued(After(es), id) == Appended(es, id)
  {
    if es != [] {
      Conservation(es[..|es| - 1], id);
    }
  }
}
