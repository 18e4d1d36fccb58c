# A verified model of noray's UDP relay

noray lets game clients reach hosts behind NAT by relaying UDP packets. Every remote address that
takes part gets a local port of its own; a packet that arrives on the port of `b` from `a` is sent
to `b` from the port of `a`. This project models that engine together with everything that drives
it: the socket pool, the relay table, the four traffic constraints, timed cleanup, dynamic relaying
with its buffers, the registrar, the host repository, the `connect-relay` command, start-up and
shutdown. Two algorithms beside it are modelled as well: expanding configured port ranges and
enumerating combinations.

## How it is organised

- `Addresses`, `Limiter`, `Engine` and `System` describe behaviour as functions on values. An
  `Engine` is a socket pool, a table, the constraint ledgers, a clock, and the trace of what the
  outside world observes (relays created and destroyed, packets sent). A `System` adds buffers,
  handlers waiting for their `await`, hosts and answers. A run is a sequence of timed operations
  (`Engine.Run`) or of outside events (`System.RunSteps`) on a clock that never goes back.
- `Invariants`, `Routing`, `Traffic`, `Reclaim`, `Dynamic`, `Guarantees`, `Connecting`, `Buffering`,
  `Queues`, `Delivery`, `Holding` and `Charging` prove properties of all runs; `Examples` gives runs in which
  what is not guaranteed goes wrong.
- `Sockets`, `Handler`, `Server` and `Startup` are the program's own classes, with the fields,
  loops and in-place updates of the source. Every operation of the program is proved to change its
  objects exactly as the function on values says: its `ensures` gives the whole new `View` in terms
  of the old one. (Some methods are parts of an operation and say what their part changes:
  `DeallocatePort`, `DeallocateNext`, `Lifetime`, `AddEntry`, `CreateMissing`, `Release`, `Ask`,
  `Send`, `Forward` and `Touch`.)
  `Startup.Serve` puts it together: after start-up and any sequence of events from outside, the
  objects are in the state that `System.RunSteps` gives, so what is proved about runs holds of them.
- `PortRanges` and `Combine` stand on their own.

The ports that dynamic relaying takes and loses are tracked as `stranded`; the source has no such
field. An exception is a `None`, `false` or `Rejected` result, with whatever was changed before it
was thrown left in place, as in the source.

## What the code does that one might not expect

- A packet that opens a bandwidth slice is accepted whatever its size, so a slice carries at most
  the larger of its budget and that packet (`Limiter.SliceWithinBudget`, `OpeningPacketOverrun`).
- A dynamic relay costs two ports: the one `#handle` takes is overwritten by `createRelay`
  (`Buffering.DropHandled`) and is never returned: until shutdown the lost ports only grow, by one
  for each packet from a sender without relay to a port with one, when nothing is buffered for the
  pair and a port is free (`Guarantees.StrandedForGood`). It happens: `Examples.LostAndStuck`.
- When fewer than two ports are free for such a packet, or when the constraints would not let all
  packets pass, one after the other, that a resuming handler has buffered, the buffer stays and no
  handler will ever drain it, even when ports become free (`Buffering.StuckForever`). These two
  failures are the only ways to get there (`Queues.StuckIff`), and a stuck buffer is reached from
  start-up (`Examples.LostAndStuck`). Without them dynamic relaying is a bundle of first-in
  first-out queues (`Queues.ServerQueues`), and with them still nothing is sent twice
  (`Delivery.AtMostOnce`).
- A port that was announced for a host can belong to another address later, while the host's record
  still names it (`Examples.PortReusedExample`). It does if and only if the last thing that happened
  to the port was that it was given to that address, after the host's relay was destroyed
  (`Holding.PortPassesOn`).
- A failed `connect-relay` is not undone (`Connecting.FailedConnectExample`). It leaves a new relay
  behind if and only if it took one for the host and then the client had not registered, or needed
  the port that the host had just taken as the last one (`Connecting.FailedConnect`).
- Configured ports are sorted as strings: 999-1001 gives 1000, 1001, 999 (`PortRanges.NotAscending`).
- The documentation of `combine` shows the last array changing fastest; in the code it is the first
  (`Combine.FirstChangesFastest`). The documentation of the registrar says that it creates a relay;
  the code only stores the address. In both cases the model follows the code.

## Model

| member | source | states |
|---|---|---|
| Addresses.AddressStringInjective | noray/src/relay/net.address.mjs:28-30 | two addresses print alike only if they are equal, even when the host part contains a colon |
| Addresses.Spelling | noray/src/relay/relay.entry.mjs:61-63 | an address, an identifier and a buffer key written out |
| Addresses.RelayIdInjective | noray/src/relay/relay.entry.mjs:61-63 | relay identifiers agree if and only if address and port do, so a ledger belongs to one relay |
| Addresses.BufferKeyInjective | noray/src/relay/dynamic.relaying.mjs:48 | buffer keys agree if and only if sender and targeted port do, so buffers never mix |
| Limiter.BandwidthLimiter.constructor | noray/src/relay/bandwidth.limiter.mjs:30-35 | a new limiter has an empty counter and its slice starts now |
| Limiter.BandwidthLimiter.Validate | noray/src/relay/bandwidth.limiter.mjs:42-54 | acceptance and every field afterwards, with the two separate clock readings of a slice opening |
| Limiter.LimitExact | noray/src/relay/bandwidth.limiter.mjs:42-54 | a packet is rejected exactly when the slice is not over and its size would take the counter over maxTraffic * interval, and what every field is afterwards |
| Limiter.RejectedIff | noray/src/relay/bandwidth.limiter.mjs:9-16 | after any run of calls a packet is rejected if and only if it falls within the interval of the slice's start and the bytes accepted in the slice and its own together exceed the budget |
| Limiter.FittingAccepted | noray/src/relay/bandwidth.limiter.mjs:14-16 | over any run, of calls within one slice whose sizes together fit into what is left of its budget none is rejected |
| Limiter.WindowStep | noray/src/relay/bandwidth.limiter.mjs:42-54 | one validation keeps the account of any time window, whether or not an accepted packet is sent in the end |
| Limiter.BandwidthBound | noray/src/relay/bandwidth.limiter.mjs:18-54 | over any run on any clock that does not go back, a window of length w carries at most floor(w / interval) + 2 times the larger of the slice budget and the largest packet |
| Limiter.SliceWithinBudget | noray/src/relay/bandwidth.limiter.mjs:9-16 | the counter is the traffic of the current slice, which is at most the larger of the budget and the packet that opened the slice, and so within the budget if and only if that packet is |
| Limiter.OpeningPacketOverrun | noray/src/relay/bandwidth.limiter.mjs:44-48 | a concrete packet that takes a slice over its budget |
| Invariants.Found | noray/src/relay/udp.relay.handler.mjs:162-165 | looking up an entry of the table by its address or by its port finds that entry: the two lookups are inverse |
| Invariants.StartExact | noray/src/relay/relay.mjs:38-58 | at start-up the bound ports are free in binding order, there are no relays and no ledgers, and the global limiter has an empty slice |
| Invariants.CreateKeeps | noray/src/relay/udp.relay.handler.mjs:81-106 | creating a relay, with or without a free port, keeps routes unambiguous, ports accounted for and ledgers owned |
| Invariants.StrandExact | noray/src/relay/dynamic.relaying.mjs:62 | the port that dynamic relaying takes and loses is the last free one, and nothing else changes |
| Invariants.StrandKeeps | noray/src/relay/dynamic.relaying.mjs:62-67 | so does the port that dynamic relaying takes and loses |
| Invariants.FreeKeeps | noray/src/relay/udp.relay.handler.mjs:125-139 | so does freeing an entry of the table |
| Invariants.PacketKeeps | noray/src/relay/udp.relay.handler.mjs:159-195 | so does relaying a packet, whatever its outcome |
| Invariants.FreeExpired | noray/src/relay/udp.relay.cleanup.mjs:22-28 | freeing the expired entries of a snapshot one by one while the table shrinks frees exactly those, in order |
| Invariants.PartsHead | noray/src/relay/udp.relay.cleanup.mjs:22-24 | an entry has expired if and only if neither timestamp is after the cutoff |
| Invariants.PartsConcat | noray/src/relay/udp.relay.cleanup.mjs:22-24 | the expired and the kept entries are each in table order |
| Invariants.CleanupExact | noray/src/relay/udp.relay.cleanup.mjs:19-28 | cleanup leaves exactly the entries whose last traffic is after the cutoff, in order, and returns exactly the other ports, in table order |
| Invariants.ClearExact | noray/src/relay/udp.relay.handler.mjs:144-148 | clearing leaves no entry and no ledger and returns every port still managed |
| Invariants.RunKeeps | noray/src/relay/udp.relay.handler.mjs:54-195 | in every reachable state table addresses and table ports are free of duplicates, every port is accounted for, and every ledger key is the identifier of a current relay |
| Invariants.LeakedForGood | noray/src/relay/dynamic.relaying.mjs:62-67 | over any run short of closing the pool the stranded ports only grow, by one each time dynamic relaying finds a port to take; they stay the same if and only if it never does |
| Invariants.PortsAccounted | noray/src/relay/udp.socket.pool.mjs:72-104 | after any run short of closing the pool, the bound ports are exactly the free, the used and the stranded ones, each once; as many are stranded as dynamic relaying took, and none if and only if it took none |
| Invariants.TouchShape | noray/src/relay/udp.relay.handler.mjs:187-189 | delivering a packet moves lastReceived of the sender and lastSent of the target, and nothing else in the table |
| Routing.SentIff | noray/src/relay/udp.relay.handler.mjs:159-195 | a packet is sent if and only if sender and target have relays, the socket is managed and all four constraints accept; then it goes from the sender's port to the target's address, otherwise nothing is observed |
| Routing.PacketExact | noray/src/relay/udp.relay.handler.mjs:159-195 | every outcome of a packet with its exact condition, and the whole engine after it |
| Routing.FreeExact | noray/src/relay/udp.relay.handler.mjs:125-139 | everything freeing does for any argument: the entry with the argument's address leaves, the argument's own port and ledgers are released, and without such an entry nothing happens |
| Routing.VetAccepts | noray/src/relay/relay.mjs:53-67 | the listeners in registration order let a packet pass if and only if each of them would on the ledgers before it |
| Routing.PacketRoute | noray/src/relay/udp.relay.handler.mjs:46-52 | with relays for a on p and b on q, a packet of a to q goes to b from p or is rejected |
| Routing.SentBetween | noray/src/relay/udp.relay.handler.mjs:162-185 | every packet sent was routed between two table entries |
| Routing.RouteStep | noray/src/relay/udp.relay.handler.mjs:54-148 | an entry survives every operation that does not announce its destruction |
| Routing.RouteRun | noray/src/relay/udp.relay.handler.mjs:54-148 | and every run |
| Routing.ReplyRoutesBack | noray/src/relay/udp.relay.handler.mjs:46-52 | a reply to the port a packet came from goes back to its sender from the port the sender addressed, after any run in which neither relay is destroyed |
| Routing.CreateIsIdempotent | noray/src/relay/udp.relay.handler.mjs:83-87 | creating a relay for an address that has one changes nothing and gives its port |
| Routing.CreateFreeUndo | noray/src/relay/udp.relay.handler.mjs:89-139 | creating a relay for a new address and freeing it restores table, free list and ledgers |
| Routing.NewIdIsFresh | noray/src/relay/constraints.mjs:29-31 | a relay created again at the same address and port starts from fresh ledgers |
| Routing.ShutdownIsComplete | noray/src/relay/relay.mjs:73-85 | from any reachable state, closing the pool and clearing the handler, in either order, leaves nothing behind and closes each managed socket once |
| Charging.VetExact | noray/src/relay/relay.mjs:53-67 | the first constraint in order that fails decides; the individual ledger is always charged, the global one unless the individual one was full, the lifetime one only if the three before it hold, and no other ledger |
| Charging.LifetimeExact | noray/src/relay/constraints.mjs:67-79 | over every run the lifetime ledger of a relay is exactly the bytes of its packets that passed the three constraints before it, since it was last destroyed |
| Traffic.CounterStep | noray/src/relay/bandwidth.limiter.mjs:42-54 | a limiter's counter stays at least what is sent in its slice, also when a later listener rejects |
| Traffic.CoveredOwn | noray/src/relay/constraints.mjs:14-79 | a vetted packet keeps its relay's individual and lifetime ledgers ahead of what the relay sends |
| Traffic.CoveredOther | noray/src/relay/constraints.mjs:14-79 | and leaves the accounts of all other relays alone |
| Traffic.RelayTrafficBound | noray/src/relay/constraints.mjs:14-32 | over every run, what a relay sends between two destructions is bounded in every time window and stays strictly below the lifetime cap |
| Traffic.GlobalTrafficBound | noray/src/relay/constraints.mjs:40-49 | over every run, all relays together are bounded in every time window |
| Traffic.CountersCoverSlices | noray/src/relay/constraints.mjs:14-49 | in every reachable state the global and the individual counters are at least what was sent in their current slice |
| Traffic.RejectionBlocks | noray/src/relay/constraints.mjs:56-74 | a rejection for age or lifetime traffic leaves the sender blocked |
| Traffic.PermanentBlock | noray/src/relay/constraints.mjs:51-74 | nothing is sent from a blocked relay in any continuation until it is destroyed |
| Reclaim.HonestRun | noray/src/relay/udp.relay.handler.mjs:98-99 | in every reachable state the timestamps in the table are the times of the traffic observed |
| Reclaim.CleanedSince | noray/src/relay/udp.relay.cleanup.mjs:19-28 | after a cleanup at T every entry was active after T minus the timeout, for the rest of the run |
| Reclaim.ReclamationDeadline | noray/src/relay/udp.relay.cleanup.mjs:14-28 | with cleanups at most c apart, an address inactive for the timeout plus c has no relay |
| Reclaim.BusySurvives | noray/src/relay/udp.relay.handler.mjs:187-189 | a relay active within the timeout of every cleanup is never destroyed by cleanup |
| Dynamic.HandlersMatchBuffers | noray/src/relay/dynamic.relaying.mjs:51-78 | under any interleaving exactly one handler waits for each buffer |
| Dynamic.FirstInFirstOut | noray/src/relay/dynamic.relaying.mjs:42-79 | under any interleaving what was dropped for a key is what was handed over followed by what is buffered, each message once and in order |
| Dynamic.NothingLeftBehind | noray/src/relay/dynamic.relaying.mjs:74-78 | when no handler waits, every dropped message was handed over and no buffer is left |
| System.FindPid | noray/src/hosts/host.repository.mjs:24-26 | the first host with the private id, or none |
| System.FindSocket | noray/src/hosts/host.repository.mjs:33-35 | the first host on the socket, or none |
| System.ActOps | noray/src/relay/relay.mjs:23-86 | every event the server reacts to is a sequence of engine operations at one instant, cleaning only when cleanup is due |
| Guarantees.RunStepsOps | noray/src/relay/relay.mjs:23-86 | every run of the server is a run of the engine with its cleanups in place |
| Guarantees.RunStepsKeep | noray/src/relay/dynamic.relaying.mjs:42-79 | in every reachable state of the server the engine invariants hold, each waiting handler has a buffer of its own, and host ids are unique |
| Guarantees.Reachable | noray/src/relay/relay.mjs:23-86 | so they do after any run from start-up, whichever ports could be bound |
| Guarantees.StepFrame | noray/src/relay/relay.mjs:23-86 | what each kind of step leaves alone |
| Guarantees.RemoveExact | noray/src/repository.mjs:127-129 | removing an id leaves exactly the hosts with other ids, in their order |
| Guarantees.UnknownUntilRegistered | noray/src/connection/connection.commands.mjs:71 | over any run an id nobody has stays unknown until it is registered, and every command naming it fails and changes nothing |
| Guarantees.DisconnectedGone | noray/src/hosts/host.commands.mjs:45-52 | a host that disconnects is gone, exactly it, and no command naming it succeeds until its id is registered again |
| Guarantees.ResumeFrame | noray/src/relay/dynamic.relaying.mjs:69-78 | a resumed handler touches no other buffer or handler; its own buffer goes if and only if its loop completed |
| Guarantees.ServerTraffic | noray/src/relay/relay.mjs:53-67 | the global, individual and lifetime bounds for every run of the server |
| Guarantees.ServerReclaims | noray/src/relay/relay.mjs:28-31 | the reclamation deadline for every run of the server |
| Guarantees.ActStrands | noray/src/relay/dynamic.relaying.mjs:42-67 | one step strands the last free port if and only if it is a packet from a sender without relay to a port with one, nothing is buffered for the pair, and a port is free |
| Guarantees.StrandedForGood | noray/src/relay/dynamic.relaying.mjs:62-67 | until shutdown stranded ports are never returned; their number grows by one for each such step, and they stay the same if and only if there is none |
| Guarantees.ServerPorts | noray/src/relay/relay.mjs:38-45 | the port ledger for every run of the server before shutdown, with the exact number of stranded ports |
| Guarantees.ServerBlocks | noray/src/relay/constraints.mjs:51-74 | the permanent block for every run of the server |
| Guarantees.ServerCounters | noray/src/relay/constraints.mjs:14-49 | counters cover their slices in every reachable state of the server |
| Guarantees.ServerKeepsBusy | noray/src/relay/udp.relay.cleanup.mjs:19-28 | until shutdown, a relay active within the timeout of every cleanup of the server keeps its port |
| Guarantees.RouteKept | noray/src/relay/udp.relay.handler.mjs:54-148 | a route survives any further steps of the server until its destruction is announced |
| Connecting.CreateIff | noray/src/relay/udp.relay.handler.mjs:81-106 | creating succeeds if and only if the address has a relay or a port is free, and what then changes |
| Connecting.CreateBoth | noray/src/connection/connection.commands.mjs:75-76 | creating two relays in turn succeeds if and only if there are enough free ports for those missing, also when the addresses are equal |
| Connecting.ConnectIff | noray/src/connection/connection.commands.mjs:59-85 | the command succeeds if and only if both parties are known and registered and the ports suffice; each side is then told the other's port, otherwise the caller gets the failure; existing routes are kept either way |
| Connecting.ConnectEffect | noray/src/connection/connection.commands.mjs:71-80 | engine, hosts and answers in every case, in terms of the two creations |
| Connecting.ConnectRecords | noray/src/connection/connection.commands.mjs:75-76 | a successful command records for the host the port told to the client and for the client the one told to the host, in no other field and for no other host |
| Connecting.FailedConnect | noray/src/connection/connection.commands.mjs:71-76 | a failed command changes the engine if and only if it took a relay for the host and the client then had no address or needed a port when the host took the last; the host's relay is recorded if and only if it had one or a port was free |
| Connecting.FailedConnectExample | noray/src/connection/connection.commands.mjs:75-76 | a state reached from start-up in which the command fails and leaves a relay behind |
| Connecting.ArrivalRouted | noray/src/relay/udp.relay.handler.mjs:92-96 | a packet arriving on the port of a from b is sent to a from the port of b exactly when all constraints accept it |
| Connecting.ConnectedBothWays | noray/src/connection/connection.commands.mjs:74-80 | after a successful command, through any further steps that destroy neither relay, each party reaches the other through the port it was told, in both directions |
| Connecting.ServerReplies | noray/src/relay/udp.relay.handler.mjs:46-52 | replies route back through any further steps of the server that destroy neither relay |
| Connecting.RegisterExact | noray/src/relay/udp.remote.registrar.mjs:92-114 | the answer tells whether the pid is known; the first address reported is kept, no other field and no other host changes, and reporting again changes nothing |
| Connecting.HostLifecycle | noray/src/repository.mjs:48-58 | a host with a new id is found under it, no other lookup changes, and removing it restores the repository; an id in use is refused |
| Connecting.AddressStep | noray/src/relay/udp.remote.registrar.mjs:97-108 | no step but its own disconnect changes a host's registered address |
| Connecting.AddressWrittenOnce | noray/src/relay/udp.remote.registrar.mjs:97-108 | the address a host registered first is the one it has, over any run |
| Connecting.SamePortAnnounced | noray/src/connection/connection.commands.mjs:93-105 | until its relay is destroyed, every successful command naming a host announces the same port |
| Buffering.DropHandled | noray/src/relay/dynamic.relaying.mjs:42-67 | a handler starts waiting if and only if two ports are free; one free port or more strands exactly one; with fewer than two the buffer is stuck |
| Buffering.DropExact | noray/src/relay/dynamic.relaying.mjs:42-67 | everything a dropped packet sets off, in every case, with the whole state after it |
| Buffering.Unheard | noray/src/relay/udp.relay.handler.mjs:92-96 | a packet on a port nobody listens on changes nothing |
| Buffering.StuckForever | noray/src/relay/dynamic.relaying.mjs:51-54 | a buffer without a handler is never drained in any continuation |
| Buffering.PassingExact | noray/src/relay/constraints.mjs:14-79 | of several messages in a row, those pass that come before the first which some constraint rejects on the ledgers its predecessors left |
| Buffering.FlushDelivers | noray/src/relay/dynamic.relaying.mjs:74-78 | with both relays in place exactly the messages that pass are sent, in order; the loop completes if and only if all do; the ledgers are charged for these and the one that did not pass |
| Buffering.FlushIff | noray/src/relay/dynamic.relaying.mjs:74-78 | the loop over a buffer completes if and only if its messages are not routed or all pass, and what it sends |
| Buffering.FirstPacket | noray/src/relay/dynamic.relaying.mjs:13-17 | with two free ports the first packet of an unknown sender gives it exactly one table entry, and reaches the target through the new port if and only if the constraints accept it; otherwise its buffer is stuck |
| Queues.ArriveRefines | noray/src/relay/dynamic.relaying.mjs:42-67 | a dropped packet is an enqueueing step of the queues of module Dynamic, or its new buffer is stuck for want of two ports |
| Queues.ResumeRefines | noray/src/relay/dynamic.relaying.mjs:69-78 | a resumed handler is a draining step of those queues, or a rejection leaves its buffer stuck |
| Queues.ResumeSends | noray/src/relay/dynamic.relaying.mjs:74-76 | a resumed handler passes its whole buffer to relay, and the packets sent are exactly those that pass |
| Queues.ServerQueues | noray/src/relay/dynamic.relaying.mjs:42-79 | in every run of the server without these failures, what was dropped for a key is what resumed handlers passed to relay followed by what is buffered, in order, and every buffer has a handler |
| Queues.StuckIff | noray/src/relay/dynamic.relaying.mjs:42-79 | after any run from start-up some buffer is stuck if and only if a first packet for a key found fewer than two free ports, or a handler resumed with buffered packets that the constraints would not all let pass in turn |
| Delivery.DropDue | noray/src/relay/dynamic.relaying.mjs:42-67 | a dropped packet is not sent at once and is owed by at most one waiting handler, of its own sender |
| Delivery.ResumeDue | noray/src/relay/dynamic.relaying.mjs:69-78 | a resumed handler sends part of what it owed and owes nothing afterwards, also when its loop is cut short |
| Delivery.AtMostOnce | noray/src/relay/dynamic.relaying.mjs:42-79 | after any run from start-up, failures included, the messages sent on behalf of an address and those its waiting handlers still hold are among the messages that arrived from it, each no more often |
| Holding.SocketsClosedOnce | noray/src/relay/relay.mjs:73-85 | after any run from start-up, with any number of shutdowns, each bound socket is managed or was closed exactly once, and after a shutdown all were |
| Holding.RunCloses | noray/src/relay/udp.socket.pool.mjs:52-56 | the same for every run of the engine |
| Holding.ServerTells | noray/src/relay/udp.relay.handler.mjs:81-139 | in every reachable state an address holds a port if and only if the last create or destroy event about the port gave it to that address |
| Holding.PortPassesOn | noray/src/relay/udp.relay.handler.mjs:81-139 | the port of one address is another's later if and only if it was last given to that one, and then the first one's relay was destroyed before |
| Examples.LostAndStuck | noray/src/relay/dynamic.relaying.mjs:61-67 | a run from start-up after which a port is lost, none is free, and a buffer is stuck |
| Examples.PortReusedExample | noray/src/relay/udp.relay.cleanup.mjs:19-28 | a run from start-up after which the port announced for a host belongs to another |
| Examples.Joined | noray/src/connection/connection.commands.mjs:59-85 | a newcomer that registers, announces its address and connects to itself gets the last free port, whatever the server's state |
| Sockets.RelayEntry.constructor | noray/src/relay/relay.entry.mjs:26-46 | a new entry has sent and received nothing |
| Sockets.UDPSocketPool.AddSocket | noray/src/relay/udp.socket.pool.mjs:72-78 | the port is managed and is the last free one |
| Sockets.UDPSocketPool.DeallocatePort | noray/src/relay/udp.socket.pool.mjs:52-56 | the socket is closed once and forgotten, with its port |
| Sockets.UDPSocketPool.GetPort | noray/src/relay/udp.socket.pool.mjs:87-90 | takes the last free port, or fails and changes nothing |
| Sockets.UDPSocketPool.ReturnPort | noray/src/relay/udp.socket.pool.mjs:98-104 | a managed port becomes the last free one, any other is ignored |
| Sockets.UDPSocketPool.Clear | noray/src/relay/udp.socket.pool.mjs:118-120 | every managed socket is closed once and nothing is left, whatever the order |
| Handler.Constraints.Individual | noray/src/relay/constraints.mjs:14-27 | the source's own limiter is made if missing and charged; the other limiters are separate objects and stay as they were |
| Handler.Constraints.Lifetime | noray/src/relay/constraints.mjs:70-74 | the charge comes before the check and stays when the check fails |
| Handler.Constraints.Transmit | noray/src/relay/relay.mjs:53-67 | the listeners in order up to the first that throws, with the ledgers they leave |
| Handler.Constraints.Destroy | noray/src/relay/constraints.mjs:29-31 | both ledgers of the relay go, no other |
| Handler.UDPRelayHandler.CreateRelay | noray/src/relay/udp.relay.handler.mjs:81-106 | the existing entry, or the argument with a fresh port, listening and last in the table, or failure for want of a port |
| Handler.UDPRelayHandler.FreeRelay | noray/src/relay/udp.relay.handler.mjs:125-139 | the entry for the argument's address leaves; the argument's port and ledgers are released |
| Handler.UDPRelayHandler.Touch | noray/src/relay/udp.relay.handler.mjs:187-189 | the two timestamps, also when sender and target are one entry |
| Handler.UDPRelayHandler.Relay | noray/src/relay/udp.relay.handler.mjs:159-195 | outcome, ledgers, timings and trace of one packet |
| Handler.UDPRelayHandler.FreeEach | noray/src/relay/udp.relay.cleanup.mjs:25-28 | a loop over a snapshot, freeing while the table changes |
| Handler.UDPRelayHandler.Clear | noray/src/relay/udp.relay.handler.mjs:144-148 | the handler after all entries were freed |
| Handler.Select | noray/src/relay/udp.relay.cleanup.mjs:22-24 | exactly the idle entries, in table order |
| Handler.CleanupUdpRelayTable | noray/src/relay/udp.relay.cleanup.mjs:19-28 | the handler after cleanup with any timeout: the entries expired at the cutoff are freed in order, as FreeExpired describes |
| Server.DynamicRelaying.Handle | noray/src/relay/dynamic.relaying.mjs:42-67 | buffers, waiting handlers and engine when a packet was dropped, up to the await |
| Server.DynamicRelaying.FlushEach | noray/src/relay/dynamic.relaying.mjs:74-76 | the loop over the buffered messages, cut short by a rejection |
| Server.DynamicRelaying.Resume | noray/src/relay/dynamic.relaying.mjs:69-78 | the handler after its await |
| Server.IndexOfOid | noray/src/repository.mjs:83-85 | the lookup by id agrees with the model's |
| Server.HostRepository.Add | noray/src/repository.mjs:48-58 | appended, unless the id is in use |
| Server.HostRepository.Remove | noray/src/repository.mjs:127-129 | the host with the id leaves, the others stay in order |
| Server.NorayServer.Arrive | noray/src/relay/udp.relay.handler.mjs:92-96 | a packet on a listening socket is relayed to that socket's port, one on any other is ignored |
| Server.NorayServer.RegisterHost | noray/src/hosts/host.commands.mjs:28-30 | the new host is in the repository, without address |
| Server.NorayServer.Disconnect | noray/src/hosts/host.commands.mjs:45-52 | the host leaves the repository |
| Server.NorayServer.RegisterAddress | noray/src/relay/udp.remote.registrar.mjs:92-114 | the address is stored if there is none yet; the answer says whether the pid is known |
| Server.NorayServer.GetRelay | noray/src/connection/connection.commands.mjs:93-105 | fails without a registered address, else creates or finds the relay |
| Server.NorayServer.ConnectRelay | noray/src/connection/connection.commands.mjs:59-85 | engine, hosts and answers after the command, also when it fails half-way or both parties are one host |
| Server.NorayServer.CleanupDue | noray/src/relay/relay.mjs:28-31 | the server after a periodic cleanup |
| Server.NorayServer.Shutdown | noray/src/relay/relay.mjs:73-85 | the pool is closed first, then the handler is cleared |
| Startup.BoundDistinct | noray/src/relay/relay.mjs:38-45 | configured ports without repetition are bound without repetition, whichever binds fail, and also if one of them is 0 |
| Startup.BindPorts | noray/src/relay/relay.mjs:38-45 | the pool manages exactly the ports that could be bound, free in the order of binding |
| Server.NorayServer.Perform | noray/src/relay/relay.mjs:23-86 | any event from outside does to the objects what it does to the state |
| Startup.Startup | noray/src/relay/relay.mjs:23-70 | start-up makes new objects in the state from which the runs start |
| Startup.Serve | noray/src/relay/relay.mjs:23-86 | after start-up and any events the objects are in the state of the corresponding run |
| PortRanges.SortCorrect | noray/src/config.parsers.mjs:157 | the sort gives a permutation in decimal-string order |
| PortRanges.OneArrangement | noray/src/config.parsers.mjs:157 | there is only one such arrangement, so the algorithm of the sort does not matter |
| PortRanges.DedupCorrect | noray/src/config.parsers.mjs:158 | removing adjacent repetitions from a sorted list removes all of them and nothing else |
| PortRanges.ParseExact | noray/src/config.parsers.mjs:153-160 | the ports are exactly those of the ranges, each once, in increasing string order; undefined if and only if all ranges are empty, and a failure if and only if some range has fewer than 0 or more than 4294967295 numbers |
| PortRanges.PortNumbersParse | noray/src/config.parsers.mjs:153-160 | ranges of port numbers that are not reversed never fail |
| PortRanges.SameSetSamePorts | noray/src/config.parsers.mjs:153-160 | ranges covering the same ports give the same sequence |
| PortRanges.AscendingIff | noray/src/config.parsers.mjs:157 | the result is in numeric order if and only if every smaller number of the ranges agrees with every larger one, which compares its digits with the leading ones of the other; negative numbers, which a relative range can give, are covered |
| PortRanges.OneDigitCount | noray/src/config.parsers.mjs:157 | so it is when all ports have equally many digits |
| PortRanges.NotAscending | noray/src/config.parsers.mjs:157 | 999-1001 gives 1000, 1001, 999 |
| Combine.Item | noray/src/utils.mjs:153-160 | the division loop, with its 32-bit truncation, picks by the mixed-radix digits of the index |
| Combine.CombineArrays | noray/src/utils.mjs:145-166 | the result lists the pick of every index in turn |
| Combine.ValueDigits | noray/src/utils.mjs:156-160 | every tuple of indexes is the digits of one number below the count |
| Combine.DigitsValue | noray/src/utils.mjs:156-160 | and of no other |
| Combine.DigitAt | noray/src/utils.mjs:156-160 | the index into each array in closed form: the number divided by the count of the arrays before it, reduced to the array's length |
| Combine.TruncateExact | noray/src/utils.mjs:159 | the truncation gives the signed 32-bit number that differs by a multiple of 2^32 |
| Combine.EveryTupleOnce | noray/src/utils.mjs:126-144 | every tuple of indexes is picked at exactly one place |
| Combine.CombinedExact | noray/src/utils.mjs:126-144 | the result holds exactly the selections of one element per array, none twice if no array repeats one |
| Combine.EmptyCount | noray/src/utils.mjs:146-150 | there are no combinations if and only if some array is empty |
| Combine.FirstChangesFastest | noray/src/utils.mjs:156-160 | the first array changes fastest |

## Left out

- Node I/O: sockets are objects with a port, a listener and a close count; what is sent is the trace. The operating system binds no port twice, and its answers at start-up are a parameter.
- Process termination: Node ends the process on an uncaught exception or rejection by default; the theorems describe the state such an event leaves behind, whether or not the process goes on.
- Clock readings: all readings made while one event is handled are the same; the limiter on its own has its two. Time is real and never goes back. Floating-point rounding is not modelled.
- Configuration: the traffic interval and, for reclamation, the timeout are assumed positive, and for reclamation the clock is not negative at start-up.
- Limiter.BandwidthLimiter.constructor: the default interval of one second and the check for a missing parameter are not modelled; the relay module always passes both.
- Handler.UDPRelayHandler.CreateRelay: an entry that is added must not have sent before nor be the listener of a socket, as every caller makes a new one (its port is overwritten in place, which would redirect that other socket); listeners of the create event do not exist in the repository and are not modelled.
- Invariants.FreeKeeps: about an argument that is an entry of the table, as both callers pass; FreeRelay itself takes any argument.
- Server.NorayServer.RegisterHost: the generated ids are parameters; nothing is assumed about them beyond the repository's own refusal. The answers set-oid and set-pid are not modelled.
- Server.NorayServer.RegisterAddress: the answer for an unknown pid is a value, its wording is not modelled.
- Server.NorayServer.ConnectRelay: how the command library reports an exception to the caller is not part of this model; it appears as one CommandFailed answer.
- Combine.Item: the same limit as CombineArrays.
- Combine.CombineArrays: the arrays after the first have at most 2147483648 combinations among them; beyond that the 32-bit truncation in the loop is no longer exact. JavaScript arrays end at 4294967295 elements, the model's sequences do not. The placeholders that range() puts into the result before the loop overwrites them are not modelled.
- PortRanges.ParseExact: whole numbers are exact and printed in plain decimal notation, as JavaScript does with integers below 2^53; it starts from parsed ranges: splitting and matching the configuration string is not modelled.
- The connect command, which exchanges addresses without relaying, and host entity fields it alone uses.
- Generic repository operations that the relay does not use: update, hasItem, mergers.
- Metrics, logging, HTTP, formatting of sizes and durations, and the remaining configuration parsers.
- The Rust programs of the repository.
