/**
 A peer: one connection as seen by the hub, with its message counter and
 the list of group names it has joined, and the hub's outbound queue that
 its `Send` pushes onto.
 */
module Peers {
  import opened Msgs

  /** One outbound request: deliver `msg` to `peer`. */
  datatype DataReq = DataReq(peer: Peer, msg: Msg)

  /** The hub's buffered `send` channel, as the FIFO of requests not yet written. */
  class SendQueue {
    var items: seq<DataReq>

    constructor ()
      ensures items == []
    {
      items := [];
    }
  }

  class Peer {
    var Addr: string
    var Count: int
    var Groups: seq<string>
    const Id: Uuid
    /** The send channel of the hub this peer belongs to (`p.hub.send`). */
    const hubSend: SendQueue

    constructor (id: Uuid, addr: string, hubSend: SendQueue)
      ensures Id == id && Addr == addr && this.hubSend == hubSend
      ensures Count == 0 && Groups == []
    {
      Id := id;
      Addr := addr;
      this.hubSend := hubSend;
      Count := 0;
      Groups := [];
    }

    /** Counts the message and queues it for delivery to this peer. */
    method Send(v: Msg)
      modifies this`Count, hubSend
      ensures Count == old(Count) + 1
      ensures hubSend.items == old(hubSend.items) + [DataReq(this, v)]
      ensures Addr == old(Addr) && Groups == old(Groups)
    {
      var r := DataReq(this, v);
      Count := Count + 1;
      hubSend.items := hubSend.items + [r];
    }
  }
}
