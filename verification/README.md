# Verified models of the enclave proxy and of three supporting algorithms

The repository's main piece of systems code is the AWS Nitro Enclave proxy: a SOCKS5 server
that forwards TCP connections for an enclave, its two clients, and the buffer everything
runs on. This project models that data path in Dafny and proves that it is correct over
every run, and does the same for three smaller algorithms: the content-addressed Docker
tags, the client ids of callers, and the reduction of external mounts.

The layers build on each other:

- `Blocks`, `Layout`, `BlockList`, `Storage`, `Freelist`, `Buffer`: the scatter-gather
  buffer. A class with the source's pointers and counters works on a linked list of blocks
  in an explicit memory; it is proved to be a byte queue. The argument is about memory
  *locations*: a buffer is a queue of data locations followed by a queue of free locations,
  Commit moves the border, Drain drops from the front, and neither moves anything else.
  That is why a reservation survives any Drain.
- `Protocol`, `Socks5`, `Socks5State`, `Handshake`: the SOCKS5 server of RFC 1928. A pure
  parser whose callbacks are an arbitrary function of all calls made so far, a class that
  takes its bytes out of a buffer and refines the parser, and a grammar of the streams that
  lead to a connection.
- `Bridge`, `ProxyBridge`: the forwarder. A transition system in which the environment
  decides which pending operation completes, with what bytes and with what error; theorems
  over all its runs; and a class over two buffers and a handshake whose handlers refine it
  step by step; a driver that calls the handlers as completions come goes through a run, so
  that all theorems hold of the handlers.
- `Client`, `Agreement`, `SessionPool`: the preload library's client, the pool of standby
  connections, and the agreement of both with the server, byte for byte.
- `Tunnel`: client, handshake and forwarder together, over every run.
- `Strings`, `BuildOrder`, `ImageTags`, `ContentTags`; `CallerIdentity`; `Mounts`: the smaller algorithms.

`dafny verify dfyconfig.toml` checks everything.

## What the model found

- `ConnectionSucceed` ends in success whatever happened to the final reply. The server
  forwards in every case, while the client reports success exactly when the server could
  tell its address *and* the final reply could be written (`Agreement.EndToEnd`);
  `Agreement.LostReply` is a run in which the server forwards and the client has failed.
- The session pool hands a peer over exactly when the server could tell the peer's address,
  could write the second reply, and the pool's read brought all 22 bytes of it
  (`Agreement.BindEndToEnd`). The last is certain on every connection but the first one of a
  pool, which is read with a call that returns whatever has come: a reply in two pieces makes
  the pool drop a good peer (`SessionPool.ShortRead`). And where the server sends its error
  reply of ten bytes, and forwards all the same, the other connections wait for twelve bytes
  of the peer and take them for part of the reply (`Agreement.ErrorRead`).
- The session pool indexes its vectors within bounds in every run exactly when the backlog
  is at least two (`SessionPool.InBoundsExactly`).
- A target that is not an image is dropped from the build order without a word unless an
  image that another target leads to depends on it (`BuildOrder.UnknownTarget`); if no target
  is an image, the order is empty and that is no error (`BuildOrder.NothingToDo`).
- Different build arguments can have the same tag whatever the hash, because they are hashed
  run together (`ContentTags.RunTogether`). With the same configuration and a hash that does not
  collide, differences between Dockerfiles do show in the tags, across all dependencies
  (`ContentTags.ContentAddressed`).

## Model

| member | source | states |
|---|---|---|
| Layouts.CommitStep | container-tools/cc/aws/proxy/src/buffer.h:214-226 | Committing to the block where the free space starts appends exactly the first free locations to the data, removes them from the free space, keeps the shape of the list, and makes the next step start at the next block when the block is full |
| Layouts.DrainStep | container-tools/cc/aws/proxy/src/buffer.h:243-257 | Draining the first block and pruning it when exhausted drops exactly a prefix of the data locations, leaves every free location where it was, keeps the shape, and keeps the end block as long as there is data |
| Layouts.Partition | container-tools/cc/aws/proxy/src/buffer.h:151-158 | Data, free space and what was drained of the first block add up to the capacity of all blocks, so the constant-time space computation is the total space of the blocks |
| Layouts.WalkStart | container-tools/cc/aws/proxy/src/buffer.h:324-359 | Where a space walk starts: no block before has space, every block from there on has, and all blocks behind the first of them are empty |
| Layouts.WalkDone | container-tools/cc/aws/proxy/src/buffer.h:165-203 | The regions a walk collected, one per block, are the front of the free space |
| Layouts.ResetShape | container-tools/cc/aws/proxy/src/buffer.h:258-268 | Without data the end block is the first one and can start over at offset zero |
| Layouts.PeekDone | container-tools/cc/aws/proxy/src/buffer.h:229-239 | The blocks up to the first empty one hold all the data |
| Storage.ScatterStep | container-tools/cc/aws/proxy/src/buffer.h:273-281 | Storing bytes in one reserved region disturbs neither the data in the queue nor what was stored in the earlier regions |
| Freelists.Freelist.New | container-tools/cc/aws/proxy/src/freelist.h:35-48 | Hands out a block with an initial header that is not on the freelist: the most recently freed one, or one that did not exist when none is free; no other block changes |
| Freelists.Freelist.Delete | container-tools/cc/aws/proxy/src/freelist.h:51-58 | The block becomes the first of the freelist, which stays an acyclic chain whose length is the size counter |
| Freelists.Freelist.DeleteChain | container-tools/cc/aws/proxy/src/freelist.h:61-76 | The whole chain is put in front of the freelist in its order, and the size grows by its length |
| Freelists.Freelist.Clear | container-tools/cc/aws/proxy/src/freelist.h:79-84 | Exactly the free blocks leave the memory, and the freelist is empty |
| Buffers.Buffer.constructor | container-tools/cc/aws/proxy/src/buffer.h:133-146 | An empty valid queue with nothing reserved or peeked at and no block allocated |
| Buffers.Buffer.SpaceSize | container-tools/cc/aws/proxy/src/buffer.h:151-158 | The result is the number of free locations in all blocks |
| Buffers.Buffer.AppendNewBlock | container-tools/cc/aws/proxy/src/buffer.h:305-320 | One empty block is linked behind the last; no stored byte changes, and the number of blocks ever allocated stays the largest number the list ever had |
| Buffers.Buffer.Reserve | container-tools/cc/aws/proxy/src/buffer.h:165-181 | The regions returned cover exactly `size` locations at the front of the free space, one region per block, the queue is unchanged, and blocks are added only if the last region needs the last of them |
| Buffers.Buffer.ReserveAtLeast | container-tools/cc/aws/proxy/src/buffer.h:187-211 | The regions cover at least `size` locations at the front of the free space and less than one block more, each up to the end of its block, and blocks are added only if the last region needs the last of them |
| Buffers.Buffer.Commit | container-tools/cc/aws/proxy/src/buffer.h:214-226 | Appends to the queue exactly the bytes stored in the first `size` free locations, and allocates nothing |
| Buffers.Buffer.Peek | container-tools/cc/aws/proxy/src/buffer.h:229-239 | The regions returned, none of them empty, are all the data in order |
| Buffers.Buffer.Drain | container-tools/cc/aws/proxy/src/buffer.h:243-269 | Drops exactly the first `size` bytes; with a reservation outstanding or data left, neither the free locations nor what is stored in them changes, whatever was pruned; with neither, all the capacity of the blocks is space again |
| Buffers.Buffer.Rewind | container-tools/cc/aws/proxy/src/buffer.h:258-268 | After everything was drained the list is valid again with the first block as end; a reserved block is not touched, and without a reservation nothing of the first block is lost |
| Buffers.Buffer.Receive | container-tools/cc/aws/proxy/src/proxy_bridge.cc:67-70 | Bytes that a completed read has stored at the front of the reserved regions are what its commit appends; nothing else in the queue changes |
| Buffers.Buffer.CopyIn | container-tools/cc/aws/proxy/src/buffer.h:273-281 | Appends exactly the given bytes, also none if there is a block |
| Buffers.Buffer.Gather | container-tools/cc/aws/proxy/src/buffer.h:285-298 | Copies the first min(size, data size) bytes of the queue out of the peeked regions |
| Buffers.Buffer.CopyOut | container-tools/cc/aws/proxy/src/buffer.h:285-301 | Takes the first min(size, data size) bytes off the queue, returns them unless discarded, and leaves an outstanding reservation alone |
| Buffers.Buffer.Destroy | container-tools/cc/aws/proxy/src/buffer.h:148-148 | All blocks end up on the freelist, and all that were ever allocated are as many as the list ever had at once |
| Buffers.ReserveDrainCommit | container-tools/cc/aws/proxy/src/buffer.h:214-269 | Reserve, store, any number of Peek/Drain pairs, then Commit: the queue is what it was without the drained prefix, followed by the stored bytes |
| Protocol.FillAddrPort | container-tools/cc/aws/proxy/src/protocol.cc:39-62 | Writes ATYP, address and port at the given place and nothing elsewhere, and returns 7, 19 or 0 bytes by address family |
| Protocol.PortRoundTrip | container-tools/cc/aws/proxy/src/socks5_state.cc:241-262 | A port survives the conversion to network order and back, and its higher byte comes first |
| Socks5.TakesRequired | container-tools/cc/aws/proxy/src/socks5_state.cc:70-311 | Each consuming state takes exactly the number of bytes it waits for and decides on those bytes alone; other states take none |
| Socks5.RunEnds | container-tools/cc/aws/proxy/src/proxy_bridge.cc:74-77 | The handshake loop ends waiting, failed or done, or short of bytes, and what it leaves is a suffix of what it was given |
| Socks5.RunSplit | container-tools/cc/aws/proxy/src/socks5_state.cc:70-311 | Running on the first part of the bytes and then on the rest is running on all of them |
| Socks5.ChunkIndependence | container-tools/cc/aws/proxy/src/proxy_bridge.cc:67-85 | For every stream, every cut into reads and every behaviour of the callbacks: the same calls with the same arguments, the same state (but for what a failed handshake still waits for) and the same remainder |
| Socks5States.Socks5State.CreateResp | container-tools/cc/aws/proxy/src/socks5_state.cc:35-66 | The success reply with the reported address, or the ten-byte error reply, after exactly one call for the address |
| Socks5States.Socks5State.OnGreetingHeader | container-tools/cc/aws/proxy/src/socks5_state.cc:79-100 | Refines the parser: same new state, and the buffer loses exactly the bytes the parser takes |
| Socks5States.Socks5State.OnGreetingMethods | container-tools/cc/aws/proxy/src/socks5_state.cc:101-127 | As above, with the greeting reply sent only when "no authentication" is offered |
| Socks5States.Socks5State.OnRequestHeader | container-tools/cc/aws/proxy/src/socks5_state.cc:128-184 | As above, for both commands and all address types |
| Socks5States.Socks5State.OnRequestAddr | container-tools/cc/aws/proxy/src/socks5_state.cc:185-240 | As above, with address and port taken separately and given to the connect callback |
| Socks5States.Socks5State.OnRequestBind | container-tools/cc/aws/proxy/src/socks5_state.cc:241-271 | As above, with the address discarded, and the bound port reported |
| Socks5States.Socks5State.OnResponse | container-tools/cc/aws/proxy/src/socks5_state.cc:284-297 | As above, with success only if the final reply was sent |
| Socks5States.Socks5State.Proceed | container-tools/cc/aws/proxy/src/socks5_state.cc:70-311 | One call does one transition of the parser on the bytes in the buffer, and leaves an outstanding reservation alone |
| Socks5States.Socks5State.Drive | container-tools/cc/aws/proxy/src/proxy_bridge.cc:74-75 | The handler's loop terminates and runs the parser as far as the bytes in the buffer allow |
| Socks5States.Socks5State.ConnectionSucceed | container-tools/cc/aws/proxy/src/socks5_state.cc:313-332 | In a waiting state the final reply is sent and the result is success whether or not sending worked; in any other state the handshake fails |
| Handshake.ConnectsExactly | container-tools/cc/aws/proxy/src/socks5_state.cc:79-240 | The server ends up waiting for a connection to address `a` with `tail` left over if and only if the stream is a greeting that offers no authentication, a connect request for `a`, and `tail`, and the greeting could be answered |
| Handshake.ConnectOutcome | container-tools/cc/aws/proxy/src/socks5_state.cc:185-297 | What becomes of a connect request for every answer of the callbacks: failure, waiting, or with a connection made at once the final reply and success exactly if it could be sent; the calls made are exactly those, and the tail is left |
| Handshake.BindsExactly | container-tools/cc/aws/proxy/src/socks5_state.cc:79-271 | The server ends up waiting for a peer at a port with `tail` left over if and only if the stream is a greeting that offers no authentication, a bind request for the port with an address of either family, and `tail`, and neither the greeting's reply nor the bind nor its reply fails |
| Handshake.BindOutcome | container-tools/cc/aws/proxy/src/socks5_state.cc:241-271 | What becomes of a bind request for every answer of the callbacks: without a port it fails and no reply is sent, without a reply it fails and nobody is waited for; the calls made are exactly those, and the tail is left |
| Handshake.FailsExactly | container-tools/cc/aws/proxy/src/socks5_state.cc:79-271 | The handshake fails if and only if the stream goes wrong (another version, no method or only others, a header that is not one of the four known) or a callback fails on the way (the greeting's reply, the bind, its reply); every other stream is a connect request, a bind request, or waited on for more bytes |
| Handshake.RunHeader | container-tools/cc/aws/proxy/src/socks5_state.cc:128-184 | Exactly four request headers lead on, each to its address or bind state; any other fails without a call, and fewer bytes are waited for |
| Handshake.RunGreeting | container-tools/cc/aws/proxy/src/socks5_state.cc:79-127 | The greeting is answered exactly if it offers no authentication, and the handshake goes on exactly if that could be sent; otherwise it fails with no other call |
| Client.Socket.RecvAll | container-tools/cc/aws/proxy/src/preload.cc:294-314 | However the bytes arrive, with interruptions in between, the buffer gets the first `len` of them, or all that arrive before the end; no more are taken off the socket |
| Client.FillHello | container-tools/cc/aws/proxy/src/preload.cc:341-380 | The buffer holds the greeting and the connect request for the address, or nothing for other families |
| Client.Socks5ClientConnect | container-tools/cc/aws/proxy/src/preload.cc:341-456 | The network gets the part of the greeting and request that it accepted; the result depends on the bytes that arrive and not on how they are cut; on success exactly one reply was taken off the socket and every tunnel byte is still there |
| Client.VerdictExactly | container-tools/cc/aws/proxy/src/preload.cc:394-456 | The client succeeds and takes n bytes if and only if these are the greeting's reply and a reply with REP 0 and a body that fits its kind of address, domain names included |
| Client.RefusalExactly | container-tools/cc/aws/proxy/src/preload.cc:406-419 | An error reply gives its REP as a negative number, anything else that goes wrong -1 |
| Agreement.HelloUnderstood | container-tools/cc/aws/proxy/src/socks5_state.cc:79-240 | For every IPv4 or IPv6 address the server takes exactly the client's bytes, connects to that address, and leaves the tunnel bytes |
| Agreement.ReplyUnderstood | container-tools/cc/aws/proxy/src/preload.cc:394-456 | The client takes exactly a successful reply, whatever follows it |
| Agreement.ErrorUnderstood | container-tools/cc/aws/proxy/src/socks5_state.cc:58-65 | The client fails on the server's error reply |
| Agreement.ReplyHeard | container-tools/cc/aws/proxy/src/preload.cc:394-456 | What the client makes of all that arrives, with nothing arriving behind a write that failed: success if and only if the address was known and the final reply was written, and then exactly the destination's bytes are left |
| Agreement.ReplyCut | container-tools/cc/aws/proxy/src/preload.cc:394-456 | The same for a connection that breaks after any number of bytes: success if and only if moreover both replies came before, and then a prefix of the destination's bytes is left |
| Agreement.EndToEnd | container-tools/cc/aws/proxy/src/socks5_state.cc:313-332 | Client and server together, for every address, all tunnel bytes in both directions, and every part of a failed write that may get through: same address, no tunnel byte taken on either side, the server forwards in any case, and the client succeeds if and only if the server could tell its address and could write the final reply |
| Agreement.LostReply | container-tools/cc/aws/proxy/src/socks5_state.cc:326-331 | For every address there are callbacks with which the server ends in success and forwards while the client has failed, however much of the reply gets through |
| Agreement.BindRoundTrip | container-tools/cc/aws/proxy/src/client_session_pool.cc:75-120 | The server takes exactly the pool's 13 bytes and hears the port; the pool's 12 bytes are the greeting's reply and an all-zero IPv4 address with REP 0 and the port the server bound |
| Agreement.SecondReply | container-tools/cc/aws/proxy/src/client_session_pool.cc:254-274 | The second reply has the 22 bytes the pool reads exactly when the peer's address is known and is IPv6, and ten otherwise; in 22 bytes REP, address and port are where the pool looks for them |
| Agreement.SecondRead | container-tools/cc/aws/proxy/src/client_session_pool.cc:254-280 | For every second reply about an IPv6 peer, every part of it that may arrive, and every way the read may end on that connection: the pool goes on to hand over the peer's own address and port, with all bytes of the peer left, if the address was known, the reply was written and the read brought all 22 bytes, and gives the connection up otherwise |
| Agreement.ReadEnds | container-tools/cc/aws/proxy/src/client_session_pool.cc:167-170 | The read for the second reply can end without an error if and only if one byte comes on the connection of the listen call, or 22 on any other |
| Agreement.ErrorRead | container-tools/cc/aws/proxy/src/client_session_pool.cc:239-264 | After an error reply any connection but the first waits until the peer has sent twelve bytes, takes exactly those for part of the reply, and leaves the rest |
| Agreement.ForeignRead | container-tools/cc/aws/proxy/src/client_session_pool.cc:266-274 | From a server that reports IPv4 addresses the pool would take twelve bytes of the peer for part of the reply and pack a wrong address; this server listens on IPv6 sockets only |
| Agreement.BindEndToEnd | container-tools/cc/aws/proxy/src/socks5_state.cc:241-332 | A bind from request to accepted peer: the pool hears REP 0 and the bound port in 12 bytes; when its read for the second reply ends it goes on to hand over the peer's address and port, with all bytes of the peer left, if and only if the address was known, the reply was written, and the connection is not the first or its one read brought 22 bytes, and otherwise gives the connection up; the server forwards in any case |
| Bridge.ScheduleSound | container-tools/cc/aws/proxy/src/proxy_bridge.cc:92-133 | Scheduling keeps a direction sound, leaves nothing more to schedule, and does nothing the second time |
| Bridge.ScheduleAnyOrder | container-tools/cc/aws/proxy/src/proxy_bridge.cc:92-133 | The order of the read and the write test of a direction does not matter |
| Bridge.ReadSound | container-tools/cc/aws/proxy/src/proxy_bridge.cc:135-153 | A completed read, with or without error, keeps a direction sound and adds its bytes |
| Bridge.WriteSound | container-tools/cc/aws/proxy/src/proxy_bridge.cc:155-174 | A completed write, partial or not, with or without error, keeps a direction sound |
| Bridge.RunQuiet | container-tools/cc/aws/proxy/src/socks5_state.cc:185-271 | Once a connection was asked for, the handshake waits for no more bytes, so the buffer is free for forwarding |
| Bridge.HandshakeInStep | container-tools/cc/aws/proxy/src/proxy_bridge.cc:67-90 | After every read the parser is where the whole stream so far would have led it |
| Bridge.NextInv | container-tools/cc/aws/proxy/src/proxy_bridge.cc:57-225 | Every completion the environment can choose keeps the invariant of the bridge |
| Bridge.Reachable | container-tools/cc/aws/proxy/src/proxy_bridge.cc:57-225 | The invariant holds in every reachable state |
| Bridge.StreamIntegrity | container-tools/cc/aws/proxy/src/proxy_bridge.cc:67-214 | In every reachable state, also after errors: bytes written to a sink followed by bytes buffered are the bytes read from the source, less, upstream, exactly what the handshake takes of the stream as a whole |
| Bridge.Ledger | container-tools/cc/aws/proxy/src/proxy_bridge.cc:67-214 | In every state of every run, for both directions, by the events alone: read was what the reads brought, written are as many bytes as the writes took, whatever their error flag; the source has ended if and only if a read said so, and writing has failed if and only if a write did |
| Bridge.WritesMove | container-tools/cc/aws/proxy/src/proxy_bridge.cc:155-214 | Each completed write takes exactly its bytes from the front of the buffer to the sink, and no other step writes anything |
| Bridge.Phases | container-tools/cc/aws/proxy/src/proxy_bridge.cc:67-225 | In every state of every run, by the events alone: the handshake was given up iff one of its reads failed, a connection was made or refused iff that was an event, the bridge forwards iff one was made while the handshake waited for it, and it reads for the handshake iff that was not given up and needs more bytes |
| Bridge.Refusal | container-tools/cc/aws/proxy/src/proxy_bridge.cc:216-220 | A refused connection changes nothing else: no call is made, nothing is forwarded, nothing is pending, and the run is over |
| Bridge.Backpressure | container-tools/cc/aws/proxy/src/proxy_bridge.cc:92-123 | A read of a source is started only while the source has not ended, its sink takes bytes and fewer than 32 KiB are buffered, and with at least 8 KiB of space but less than a block more |
| Bridge.FlagsAgree | container-tools/cc/aws/proxy/src/proxy_bridge.cc:57-214 | In every reachable state: reserved iff a read is pending, peeked iff a write is pending, a pending write is within the data, no assertion of a buffer ever fails, and each direction buffers less than kMaxBufferSize + kReadSize + one block |
| Bridge.NeverStalls | container-tools/cc/aws/proxy/src/proxy_bridge.cc:92-214 | While forwarding, a direction with nothing pending has failed to write, or its source has ended, every byte after the handshake was delivered, and the shutdown was issued; a read is pending whenever the source has not ended, the sink takes bytes and fewer than 32 KiB are buffered, and a write whenever the sink takes bytes and some are buffered |
| Bridge.HalfClose | container-tools/cc/aws/proxy/src/proxy_bridge.cc:135-214 | Send-shutdown is issued at most once, exactly when the source has ended and the buffer is empty, never with a write pending; from then on, and likewise once writing failed and no read is pending, nothing changes in that direction in any continuation |
| Bridge.WritesDeliver | container-tools/cc/aws/proxy/src/proxy_bridge.cc:155-214 | In every run, for either direction, from a state in which the source has ended: as long as the writes succeed each takes the direction forward, so there are at most as many as bytes were buffered, and when none is pending all those bytes have been written and the sink is shut down |
| Bridge.ReplyFirst | container-tools/cc/aws/proxy/src/proxy_bridge.cc:216-225 | In every reachable state: before forwarding nothing was read from the destination or written to the client; while forwarding the calls made are those the bytes read lead to, then the final reply, and no other |
| Tunnel.HelloDials | container-tools/cc/aws/proxy/src/proxy_bridge.cc:67-90 | In every run in which the client's whole hello was read, however it was cut: the bridge is connecting to the client's address, reads no more for the handshake, and holds exactly the bytes behind the hello; it forwards once the connection is made |
| Tunnel.TunnelDelivered | container-tools/cc/aws/proxy/src/proxy_bridge.cc:196-214 | While forwarding for such a client, written bytes followed by buffered bytes are exactly the client's tunnel bytes; when nothing is pending and no write failed, the destination has all of them and then the end |
| Tunnel.ClientHears | container-tools/cc/aws/proxy/src/proxy_bridge.cc:155-174 | In every run, what arrives at such a client are the replies followed by exactly what was written of the destination's bytes, none of it before the final reply; the client succeeds if and only if the address was known and the reply was written, and then leaves exactly those bytes |
| Tunnel.ForwardingStarts | container-tools/cc/aws/proxy/src/proxy_bridge.cc:216-225 | For every address and every size of the blocks there is a run that reaches forwarding, so the theorems about forwarding are about something |
| Tunnel.HelloPlayable | container-tools/cc/aws/proxy/src/proxy_bridge.cc:57-90 | Reading the hello byte by byte and then connecting is a choice of completions that the driver of the handlers accepts, whatever is reserved meanwhile, and it ends in forwarding |
| ProxyBridges.ProxyBridge.constructor | container-tools/cc/aws/proxy/src/proxy_bridge.h:161-171 | A bridge before the handshake: nothing pending, both sides readable and writable, both buffers empty |
| ProxyBridges.ProxyBridge.PerformSocks5Handshake | container-tools/cc/aws/proxy/src/proxy_bridge.cc:57-65 | Starts in the initial state of the transition system |
| ProxyBridges.ProxyBridge.Socks5HandshakeHandler | container-tools/cc/aws/proxy/src/proxy_bridge.cc:67-90 | Does the step of the transition system for a handshake read, and keeps the invariant |
| ProxyBridges.ProxyBridge.ForwardTraffic | container-tools/cc/aws/proxy/src/proxy_bridge.cc:92-133 | Both directions are scheduled as the transition system says, with reservations of at least kReadSize and less than a block more |
| ProxyBridges.ProxyBridge.ClientReadHandler | container-tools/cc/aws/proxy/src/proxy_bridge.cc:135-153 | Does the step for a client read, and keeps the invariant |
| ProxyBridges.ProxyBridge.ClientWriteHandler | container-tools/cc/aws/proxy/src/proxy_bridge.cc:155-174 | Does the step for a client write, and keeps the invariant |
| ProxyBridges.ProxyBridge.DestReadHandler | container-tools/cc/aws/proxy/src/proxy_bridge.cc:176-194 | Does the step for a destination read, and keeps the invariant |
| ProxyBridges.ProxyBridge.DestWriteHandler | container-tools/cc/aws/proxy/src/proxy_bridge.cc:196-214 | Does the step for a destination write, and keeps the invariant |
| ProxyBridges.ProxyBridge.ConnectHandler | container-tools/cc/aws/proxy/src/proxy_bridge.cc:216-225 | Does the step for a connection made, accepted or refused, and keeps the invariant |
| ProxyBridges.Serve | container-tools/cc/aws/proxy/src/proxy_bridge.cc:57-225 | Whatever pending operations the environment chooses to complete, and however it lets the choice depend on the reservations, the states that the handlers take the object through are a run of the transition system, so its theorems hold of them |
| SessionPool.NextInv | container-tools/cc/aws/proxy/src/client_session_pool.cc:180-328 | Every completion keeps the invariant of the pool |
| SessionPool.PoolSafety | container-tools/cc/aws/proxy/src/client_session_pool.cc:147-321 | In every state of every run with a backlog of at least two: until stopped each slot has exactly one pending operation, there are at most min(backlog, 128) slots, no index was outside of a vector, and no connection's descriptor was sent twice |
| SessionPool.StepExactly | container-tools/cc/aws/proxy/src/client_session_pool.cc:180-339 | In every run each completion changes the slots, the counters, the stop flag and the hand-overs exactly as its event says: one slot goes on to its next operation or gets a new connection, the others stay, and the pool grows by one slot with a new connection iff the first reply on its last slot was good and it has fewer than min(backlog, 128) slots |
| SessionPool.Fills | container-tools/cc/aws/proxy/src/client_session_pool.cc:241-251 | For every number of slots up to min(backlog, 128) there is a run that reaches it |
| SessionPool.HandsOver | container-tools/cc/aws/proxy/src/client_session_pool.cc:282-321 | There is a run that hands a peer over, with the address and the port of its reply |
| SessionPool.HandedOver | container-tools/cc/aws/proxy/src/client_session_pool.cc:222-321 | For every descriptor sent there is an earlier step at which the full second reply on its own connection arrived with REP 0, the message that went out holds the address and the port of that reply, and before that the first reply arrived with REP 0 |
| SessionPool.StopsForGood | container-tools/cc/aws/proxy/src/client_session_pool.cc:323-339 | A stopped pool makes no connection and sends no descriptor |
| SessionPool.InBoundsExactly | container-tools/cc/aws/proxy/src/client_session_pool.cc:155-178 | The vectors are indexed within bounds in every run if and only if the backlog is at least two |
| SessionPool.ShortRead | container-tools/cc/aws/proxy/src/client_session_pool.cc:165-170 | On the connection of the listen call every read of fewer than 22 bytes is possible and makes the pool give that connection up, with nothing confirmed |
| SessionPool.ClientSessionPool.constructor | container-tools/cc/aws/proxy/src/client_session_pool.cc:147-178 | The pool after the listen call, for every backlog, in the initial state of the transition system; with a backlog of at least two the invariant holds |
| SessionPool.ClientSessionPool.InitiateSocket | container-tools/cc/aws/proxy/src/client_session_pool.cc:180-194 | The slot gets a new connection and waits for it |
| SessionPool.ClientSessionPool.HandleConnect | container-tools/cc/aws/proxy/src/client_session_pool.cc:196-220 | Does the step for a completed connect, and keeps the invariant |
| SessionPool.ClientSessionPool.Handle1stResp | container-tools/cc/aws/proxy/src/client_session_pool.cc:222-252 | Does the step for a first reply, growing the pool from its last slot only, and keeps the invariant |
| SessionPool.ClientSessionPool.Handle2ndResp | container-tools/cc/aws/proxy/src/client_session_pool.cc:254-280 | Does the step for a second reply, packing the peer's address and port into the slot's buffer, and keeps the invariant |
| SessionPool.ClientSessionPool.HandleSendFd | container-tools/cc/aws/proxy/src/client_session_pool.cc:282-321 | Does the step for a hand-over, sending what the slot's buffer holds, and keeps the invariant |
| SessionPool.ClientSessionPool.HandleClientError | container-tools/cc/aws/proxy/src/client_session_pool.cc:323-339 | Stops the pool, and keeps the invariant |
| SessionPool.Serve | container-tools/cc/aws/proxy/src/client_session_pool.cc:147-339 | Whatever pending operations complete, the states that the handlers take the object through are a run of the transition system, so its theorems hold of them |
| BuildOrder.Closure | api/.devkit/scripts/docker/build.py:279-285 | The worklist terminates on every graph, cyclic or not, with exactly the names that some path of dependencies leads to from a target |
| BuildOrder.TopologicalSort | api/.devkit/scripts/docker/build.py:287-295 | An order of exactly the names of the graph, each once and after its dependencies, or a set of names each of which depends on one of them |
| BuildOrder.KnotHasNoOrder | api/.devkit/scripts/docker/build.py:290-295 | A graph with such a set has no order that lists any of it, so failing is justified |
| BuildOrder.GetBuildOrder | api/.devkit/scripts/docker/build.py:372-396 | For targets the order lists exactly the reachable names that are images or dependencies of a reachable image, each once and dependencies first; without targets all names; no order only because of a cycle among them |
| BuildOrder.UnknownTarget | api/.devkit/scripts/docker/build.py:279-288 | A target that is not an image is in the order if and only if an image that another target leads to depends on it |
| BuildOrder.NothingToDo | api/.devkit/scripts/docker/build.py:279-292 | If no target is an image the order is empty |
| Strings.SortedUnique | api/.devkit/scripts/docker/build.py:453-453 | Two ascending lists with the same elements are equal, so the sorted build arguments do not depend on the listing order |
| ImageTags.TagsAlike | api/.devkit/scripts/docker/build.py:409-458 | The recursively defined tag of an image depends only on the images it depends on, directly or not: not on other images, requested targets, processing order, or the order dependencies are listed in |
| ContentTags.RunTogether | api/.devkit/scripts/docker/build.py:259-267 | For every hash there are two different lists of build arguments with the same tag |
| ContentTags.Separates | api/.devkit/scripts/docker/build.py:259-267 | Dockerfiles followed by their sorted arguments, all run together, are different if the Dockerfiles or the arguments are, provided the arguments are pairwise of the same lengths and sorted alike |
| ContentTags.ContentAddressed | api/.devkit/scripts/docker/build.py:409-458 | For builders that differ in their Dockerfiles at most, with argument names that are different and without equals signs, and a hash of fixed length that does not collide on what is hashed: an image has the same tag if and only if the Dockerfiles of the image and of everything it depends on, directly or not, are the same |
| ContentTags.SplitJoin | api/.devkit/scripts/docker/build.py:448-451 | Items without spaces that were joined for a build argument can be told apart again by cutting at the spaces |
| ContentTags.ListsShow | api/.devkit/scripts/docker/build.py:441-458 | For builders that differ in the packages, the keys or the repositories of one image at most, with named arguments, items without spaces and a hash that does not collide on what is hashed: the image has the same tag if and only if the lists are the same |
| ContentTags.NoTagExactly | api/.devkit/scripts/docker/build.py:409-436 | An image has no tag if and only if it, or something it depends on, directly or not, is unknown or has no Dockerfile |
| ContentTags.PartsShow | api/.devkit/scripts/docker/build.py:364-370 | Repository, namespace, name, architecture and hash each show in a tag: a change of one alone changes the tag |
| ImageTags.DockerBuilder.CalculateTagForImage | api/.devkit/scripts/docker/build.py:409-458 | From every memo reached so far the memoised recursion returns the recursively defined tag, keeps the memo correct and closed under dependencies, and only adds to it |
| ImageTags.DockerBuilder.TagsInOrder | api/.devkit/scripts/docker/build.py:404-407 | Whatever was calculated before, the result lists the recursively defined tags in build order, or fails exactly when one of them is undefined |
| ImageTags.DockerBuilder.CalculateTags | api/.devkit/scripts/docker/build.py:398-407 | As above for targets or all images, with exactly the names that the build order lists; no order only because of a cycle; every target that is an image is included |
| ImageTags.DockerBuilder.DependencyTags | api/.devkit/scripts/docker/build.py:503-509 | Every lookup of a dependency's tag during the build is defined and gives the recursively defined tag |
| CallerIdentity.EscapeAll | java/com/google/tca/domain/CallerIdentity.java:38-48 | The loop computes the recursive escape |
| CallerIdentity.RoundTrip | java/com/google/tca/domain/CallerIdentity.java:38-57 | Every string of 16-bit units can be recovered from its escaped form |
| CallerIdentity.NoSlash | java/com/google/tca/domain/CallerIdentity.java:38-57 | An escaped string contains no slash |
| CallerIdentity.PlainStays | java/com/google/tca/domain/CallerIdentity.java:50-57 | A string of ASCII letters, digits, hyphens and periods escapes to itself |
| CallerIdentity.OtherEscaped | java/com/google/tca/domain/CallerIdentity.java:38-48 | Any other unit becomes an underscore and the four lower-case hexadecimal digits of its value |
| CallerIdentity.GetClientId | java/com/google/tca/domain/CallerIdentity.java:34-36 | Computes the client id that SameIdSameCaller is about |
| CallerIdentity.SameIdSameCaller | java/com/google/tca/domain/CallerIdentity.java:34-57 | Two callers have the same client id if and only if issuer and subject are both equal |
| Mounts.MinimizePaths | api/.devkit/scripts/list_external_mounts.py:108-129 | For every visiting order the result is exactly the input paths with no proper ancestor in the input |
| Mounts.MinimalMounts | api/.devkit/scripts/list_external_mounts.py:108-129 | That set is an antichain of input paths, and every input path lies under exactly one of them |

## Left out

- Blocks are values in a memory map from addresses to blocks that the buffer's freelist
  owns, not objects on Dafny's heap: pointers, links and aliasing are explicit addresses.
  Fresh storage holds arbitrary bytes; allocation never fails.
- Freelists shared between buffers and the lock-free compare-exchange loops: the server
  gives each buffer its own freelist and serialises all handlers on one strand.
- The NumBuffersToReserve capacity hint, which has no effect on results.
- Buffers.Buffer.Commit: requires a reservation, a block and enough space, the three
  assertions of the source; the bridge is proved to meet them in every run.
- Buffers.Buffer.CopyIn: requires a block or at least one byte, because the source's
  assertion on the first block fails otherwise.
- Boost.Asio, sockets, VSOCK and epoll: completions are events whose byte counts are bounded
  by what was offered; data written to a socket is history. Receive-shutdown has no effect
  of its own: what it causes is a failed read, which may happen at any time.
- A bridge that starts forwarding without a handshake (the second constructor), cancelling
  an inbound wait (StopWaitingInbound), and closing sockets on destruction.
- Bridge.Reachable: for callbacks as the bridge sets them, which never connect synchronously;
  the parser's own theorems hold for all callbacks.
- Socks5States.Socks5State.Proceed: all callbacks are set, as in the bridge; the source also
  allows a missing response, connect or address callback.
- Client.Socks5ClientConnect: what sending the hello returns is a parameter.
- Agreement.EndToEnd: the address the server reports is an IPv4 or IPv6 address, like the
  ones it connects to and accepts from; the reply for other families ends after three bytes.
- A connection on which a write failed delivers nothing of later writes, and a reply written
  with success arrives unless the connection breaks; that is how Agreement.Arrives and
  Agreement.ReplyCut describe what the client hears.
- Agreement.BindEndToEnd: the peers' addresses are IPv6 addresses, since the server listens on
  IPv6 sockets only.
- ContentTags.ContentAddressed: for builders with the same configuration; with other build
  arguments tags may coincide, as ContentTags.RunTogether shows.
- The handlers of a pool with a backlog of none or one, which leave the vectors' bounds;
  negative backlogs end before the pool starts.
- The type tag and the padding of the message that goes out with a descriptor.
- Handlers of different pool slots on different threads, sending the listen response, and
  closing the sockets of a stopped pool.
- ImageTags.DockerBuilder.CalculateTagForImage: for names found free of cycles by the build
  order before, as in both callers; on a cycle the source recurses without end.
- SHA-256 is an arbitrary function of a Dockerfile followed by its sorted arguments, which are
  characters and not bytes here; the search for Dockerfiles, the docker commands and the parsing of configurations are parameters. A
  missing image or Dockerfile, which ends the source's process, is a missing result.
- graphlib's sorter is modelled by a sort that takes any ready name next.
- The checks for blank issuers and subjects, which only make the set of callers smaller.
- The symlink walk that finds external mounts, the acceptor pool, the proxy server's setup,
  the Java service, and the remaining scripts.
