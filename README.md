# iris hub, modelled in Dafny

iris is a small message hub. Peers connect over websockets and exchange
`Msg` envelopes. The hub keeps a registry of connected peers (`clients`,
keyed by peer id) and one registry of named groups (`groups`). A group is
either a broadcast group (`Queue == false`) or a work queue
(`Queue == true`), and both kinds share one namespace. Every inbound
message with non-empty `Data` is stamped with an id and its source; one
with empty `Data` is dropped. It is then routed in one of
three ways:
- to the peer its `Dest` names;
- to every member of a broadcast group (`Publish`);
- to one member of a work queue, chosen by a random index (`Produce`).

`Subscribe`, `Consume` and `Unsubscribe` join and leave groups. Every
delivery goes through `Peer.Send`, which counts the message and pushes a
request onto the hub's outbound queue.

The model treats the hub, with its goroutines and sockets removed, as a
sequential state machine:

- `msgs.dfy` (module `Msgs`): the `Command` tags, including the `uint8`
  values that name no constant, and the `Msg` envelope with its optional
  ids.
- `peers.dfy` (module `Peers`):
  - the `Peer` class, with its `Count` and `Groups` fields updated in place;
  - `Peer.Send`;
  - the outbound queue as a `SendQueue` object holding a FIFO sequence.
- `registry.dfy` (module `Registry`): the group registry as a value.
  - `AfterJoin`, `AfterLeave`, `AfterRemove` and `WithCounts` give the
    registry after each update.
  - Lemmas state what those updates preserve. The main ones: no group is
    ever empty, which is what keeps the `rand.Int() % len(Peers)` of the
    `Produce` case in bounds; no peer is twice in a group; and a member
    of a group names it in its own `Groups`.
- `routing.dfy` (module `Routing`): what `processData` does with one
  message, as values:
  - `Stamp` fills in the id and the source;
  - `Deliveries` and `Route` give the outbound requests;
  - `AfterCommand` gives the registry change.
- `hub.dfy` (module `Hubs`): the `Hub` class.
  - Its methods update `clients`, `groups`, the peers' fields and the
    outbound queue in place, as hub.go does.
  - Each method is proved against the functions above. The constructor
    establishes `Valid()`, and every operation of the hub (`Statics`,
    `Send`, `ProcessData`, `AddClient`, `RemoveClient`, `Join`, `Leave`)
    keeps it. `Valid()` is the registry invariants plus every known peer
    pushing onto this hub's queue. The helpers that only send (`SendDirect`,
    `PublishTo`, `ProduceTo`, `FanOut`) require it and change no field it
    reads.
  - `PingPeriod` is `NewHub`'s `(pongWait * 9) / 10` in signed 64-bit
    arithmetic.

The randomness of `Produce` is an argument `rnd`, reduced modulo the
group's size as hub.go:217 does. The id that `uuid.New()` would assign is
an argument `freshId`.

The model follows the code, including where it departs from a
general-purpose broker:
- Broadcast groups and work queues share one map, so a name can denote
  only one of them.
- A message with empty `Data` is dropped silently: the sender gets no
  reply and stays connected.
- The commands are exactly those of msg.go: `Data`, `Error`, `Subscribe`,
  `Publish`, `Unsubscribe`, `Produce`, `Consume` and `Leave`. No command
  asks for a reply.
- `Subscribe` joins with `service = false` and `Consume` with
  `service = true`. The flag matters only when the group is created: an
  existing group keeps its kind (`Registry.JoinKeepsQueueFlag`). A
  `Subscribe` to an existing work queue therefore makes the sender one of
  its workers, and a `Consume` to an existing broadcast group makes it a
  subscriber.
- `leave` does not remove the group's name from the peer's `Groups`. A
  later `Subscribe` or `Consume` of that name therefore does nothing
  (`Registry.RejoinAfterLeaveIsNoop`).

## Model

| member | source | states |
|---|---|---|
| Msgs.ToTag | msg.go:5-16 | The eight named commands have tags 0..7 in declaration order; a command is unnamed exactly when its tag is 8 or more, and an unnamed command's tag is its own `uint8` value |
| Msgs.FromTag | msg.go:5-16 | Every `uint8` value denotes a command, and `ToTag` maps it back to that value; values 8..255 denote unnamed commands |
| Msgs.TagRoundTrip | msg.go:5-16 | Converting a command to its tag and back gives the same command |
| Peers.Peer.constructor | peer.go:11-21 | A new peer has its id, address and hub queue, no messages counted and no groups |
| Peers.Peer.Send | peer.go:80-87 | `Count` grows by exactly one; exactly one request carrying this peer and the unchanged message is appended to the hub's queue; `Addr` and `Groups` are untouched (`Id` is immutable) |
| Registry.Without | hub.go:273-275 | The result holds no occurrence of the peer; it holds every other peer of the group, each as many times as before, and nothing else; without the peer, the group is unchanged |
| Registry.WithoutAppend | hub.go:273-275 | Deletion distributes over concatenation, so the remaining peers keep their original order |
| Registry.WithoutDistinct | hub.go:273-275 | Deleting a peer from a duplicate-free member list leaves it duplicate-free |
| Registry.AfterJoin | hub.go:253-267 | If the name is already in the peer's list, nothing changes. Otherwise: the group is created when absent, with `Queue` equal to the service flag and a zero `Count`, and an existing group keeps its `Queue` and `Count`; the peer is appended to its members and the name to the peer's list; every other group is unchanged |
| Registry.JoinIdempotent | hub.go:254-256 | Joining a second time changes neither the registry nor the peer's list |
| Registry.JoinKeepsQueueFlag | hub.go:257-263 | An existing group keeps its kind whatever flag the joiner passes |
| Registry.JoinKeepsInvariant | hub.go:257-265 | A join keeps every group non-empty and duplicate-free; the joiner's list still names every group holding it; no other peer gains a membership |
| Registry.JoinChangesOnlyJoiner | hub.go:264-265 | For every peer other than the joiner, group membership is exactly what it was |
| Registry.AfterLeave | hub.go:269-280 | An unknown name changes nothing. Otherwise every occurrence of the peer is deleted from that group, its kind and count kept; the group is deleted exactly when no other member remains; other groups are unchanged |
| Registry.LeaveKeepsInvariant | hub.go:273-279 | A leave keeps every group non-empty and duplicate-free, takes the peer out of the named group, and adds no membership anywhere |
| Registry.RejoinAfterLeaveIsNoop | hub.go:253-280 | After a join and a leave of the same name, joining it again changes nothing, and the peer stays out of the group |
| Registry.LeaveEach | hub.go:247-249 | Leaving each group in a set deletes the peer from exactly those groups and drops those it empties; the rest are unchanged |
| Registry.LeaveEachStep | hub.go:247-249 | One more iteration of the loop in `removeClient` leaves one more group |
| Registry.AfterRemove | hub.go:245-250 | After disconnecting, the peer is in no group; every other membership is kept and none is added; groups without the peer are unchanged; a deleted group held only that peer; group kinds are kept; no group is empty |
| Registry.RemoveKeepsDistinct | hub.go:245-250 | Disconnecting keeps every group duplicate-free |
| Registry.WithCounts | hub.go:149-151 | Every group's `Count` is its number of members; names, members and kinds are unchanged |
| Registry.WithCountsIdempotent | hub.go:149-151 | Filling in the counts twice is the same as filling them in once |
| Routing.Stamp | hub.go:167-172 | `Source` is the sender's id; an existing `Id` is kept and a missing one becomes the fresh id; `Dest`, `Cmd` and `Data` are unchanged |
| Routing.Fanout | hub.go:209-211 | One request per member, in member order, each carrying the message |
| Routing.FanoutSnoc | hub.go:209-211 | Sending to one more member appends one request at the end |
| Routing.Deliveries | hub.go:174-220 | Every request carries the message with `Dest` cleared. With a `Dest`: one request to the registered peer of that id, or none. `Publish` to a broadcast group: one request per member, in order. `Produce` to a work queue: exactly one request, to a member. Group commands reach only members of the named group. Any other command, a missing group or the wrong kind: no request |
| Routing.Route | hub.go:162-220 | Empty `Data`: no request. Otherwise every request carries the sender as `Source`, the kept or fresh `Id`, no `Dest`, and the original `Cmd` and `Data` |
| Routing.AfterCommand | hub.go:174-203 | Empty `Data`, a `Dest`, or a command other than `Subscribe`, `Consume` or `Unsubscribe`: no registry change. `Subscribe` joins with `service = false`, `Consume` with `service = true` (an existing group keeps its kind), `Unsubscribe` leaves |
| Routing.PublishReachesEachMemberOnce | hub.go:205-211 | A `Publish` to a broadcast group reaches each member exactly once and no other peer |
| Routing.RoutingAndRegistryAreSeparate | hub.go:174-220 | A message that produces a request changes no group, and one that changes a group produces no request |
| Routing.CommandKeepsInvariant | hub.go:182-203 | Every inbound message keeps groups non-empty and duplicate-free and keeps the sender's list naming its groups; no other peer gains a membership |
| Hubs.Wrap64 | hub.go:74 | The result is the signed 64-bit value congruent to the input modulo 2^64, and equals the input when that is in range |
| Hubs.Quo10 | hub.go:74 | Division by ten rounds toward zero for both signs |
| Hubs.PingPeriod | hub.go:74 | Without overflow, ten times the result is within ten below nine times the pong wait (rounded toward zero); for a positive pong wait it is strictly smaller than the pong wait |
| Hubs.Hub.constructor | hub.go:59-76 | Empty registries, a fresh empty outbound queue, the given address and waits, the derived ping period, and the invariant established |
| Hubs.Hub.Statics | hub.go:142-153 | Every group's `Count` becomes its member count and nothing else changes; the report gives the name, the number of clients and the registries after the update |
| Hubs.Hub.Send | hub.go:155-160 | Appends exactly one request for the peer and message to the queue, without counting it; the invariant is kept |
| Hubs.Hub.ProcessData | hub.go:162-220 | Appends exactly `Route` of the message to the queue; changes the registry and the sender's list exactly as `AfterCommand` says; each peer's `Count` grows by the number of requests addressed to it; `clients` is unchanged; the invariant is kept |
| Hubs.Hub.Handle | hub.go:174-220 | For a stamped message with `Data`: appends `Deliveries`, applies `AfterCommand`, counts per receiver, and keeps the invariant |
| Hubs.Hub.SendDirect | hub.go:174-180 | A message with a `Dest` goes, with `Dest` cleared, to the registered peer of that id only, or nowhere; that peer's `Count` grows by one |
| Hubs.Hub.Dispatch | hub.go:182-220 | The command switch appends `Deliveries`, applies `AfterCommand`, counts per receiver, and keeps the invariant |
| Hubs.Hub.PublishTo | hub.go:205-211 | `Publish` sends one copy to each member of the named broadcast group, in order, counting each; missing group or work queue: nothing |
| Hubs.Hub.FanOut | hub.go:209-211 | The loop appends one request per member in member order, and each peer's `Count` grows by the number of times it occurs in the list |
| Hubs.Hub.ProduceTo | hub.go:213-219 | `Produce` sends one copy to the member at position `rnd % size` of the named work queue, an index proved in bounds by the invariant; missing group or broadcast group: nothing |
| Hubs.Hub.AddClient | hub.go:239-243 | The peer is registered under its id, no error is returned, and the invariant is kept |
| Hubs.Hub.RemoveClient | hub.go:245-251 | For a peer of this hub, the peer is unregistered and the registry becomes `AfterRemove` of the old one; the invariant is kept |
| Hubs.Hub.Join | hub.go:253-267 | The registry and the peer's list become `AfterJoin` of the old ones, and the invariant is kept |
| Hubs.Hub.Leave | hub.go:269-280 | `ErrInternal` exactly when the group is unknown; the registry becomes `AfterLeave` of the old one, and the invariant is kept |

## Left out

- `Hub.Listen` and every channel used for synchronisation (`connect`, `disconnect`, `ping`, `data`) are concurrency. Three of its `select` cases are modelled as one method call each: `connect` as `AddClient`, `disconnect` as `RemoveClient`, `data` as `ProcessData`.
- The `send` case of `Listen` (hub.go:104-108) is not modelled. That case takes one request off the outbound queue, writes it to the socket, and schedules a disconnect on failure. No method removes a request from `SendQueue.items`; the queue only records what the hub enqueues.
- The `ping` case (hub.go:95-99) is not modelled: it writes to a socket. It, and the `send` case on a write error, hand the peer to `disconnect` from inside `Listen`, over an unbuffered channel that only `Listen` reads (hub.go:98, hub.go:107).
- The `ctx.Done` case (hub.go:81-82) is not modelled. It ends the loop with `ErrContextDone`. `Err.ErrContextDone` and `Err.ErrMalformed` (errors.go:6-8) exist in the model, but no modelled operation returns either; the core never returns `ErrMalformed`.
- The outbound channel's capacity of 100 (hub.go:69) is not modelled: the queue is an unbounded sequence. In the code this hides a deadlock, not just back-pressure. `Peer.Send` blocks once 100 requests are buffered (peer.go:86). The only reader of that channel is `Listen` (hub.go:104), and `Listen` is the goroutine running `processData` (hub.go:102). So a `Publish` whose fan-out meets a full buffer, such as a `Publish` to a group of 101 members, blocks the hub for good.
- `ConnectPeer`, the websocket upgrade, the `X-Real-IP` and local-address lookup, and `OringinFunc`: HTTP and websocket I/O.
- `pingClient`, `Peer.sendConn`, `Peer.fan` and `Peer.read`: socket reads and writes, deadlines, tickers, goroutines and context cancellation. The `go p.fan(...)` in `addClient` is also omitted.
- The `p.conn.Close()` result returned by `removeClient`: socket I/O. The model returns nothing.
- `DoFunc` (hub.go:222-224): a user callback started as a goroutine.
- `rand.Int()` and `uuid.New()`: foreign calls, supplied as the arguments `rnd` and `freshId`.
- JSON encoding of `Msg`, `Statics` and `Peer`: library serialisation.
- client.go and the examples directory: client dial plumbing and demo programs with no hub logic.
- `Peer.hub`: modelled only as `hubSend`, the hub's outbound queue, because that is all the core uses it for. `RemoveClient` requires `p.hubSend == send`, that is, `p.hub == h`, which the `disconnect` case of `Listen` (hub.go:89-90) meets; under that precondition, `removeClient`'s loop over `p.hub.groups` is a loop over the hub's own `groups`.
- Aliasing of `*Group` pointers and of the registry maps: groups are values in a map that the `Hub` fields hold by value. Within one method no caller can see the difference, because each update is written back to `groups`.
- Hubs.Hub.Statics: the code puts the live `h.clients` and `h.groups` maps into its result (hub.go:146-147). A later `join`, `leave`, `addClient` or `removeClient` therefore changes what an earlier `Statics` value holds. The model's `StaticsReport` is a value snapshot taken after the counts are filled in, so later registry changes cannot be seen through it.
- `Statics.Version`: never set by the code, so it is always empty.
- The loop and the command switch of `processData`: split into the helpers `Handle`, `SendDirect`, `Dispatch`, `PublishTo`, `ProduceTo` and `FanOut`, in the order the code runs them.
- Peers.Peer.Send: `Count` is an unbounded integer, so Go's `int` wrap-around after 2^63-1 messages is not modelled.
- Hubs.PingPeriod: the contract describes the result only where `pongWait * 9` does not overflow 64 bits; beyond that the body computes the wrapped value, and no ensures describes it.
