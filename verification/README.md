# Model of the triones network core

A Dafny model of the parts of triones where state, order and counting matter: the
life of connections, the send and receive paths of a TCP connection, message framing
and packing, the worker queue, and three self-contained cores (XML printing and
parsing, the configuration index, Base64 and flag lists). `dafny verify dfyconfig.toml`
checks all of it.

How the files fit together:

- `Bytes`, `Lists`: bytes, big-endian integers, joining, counting in lists and maps.
- `HashIndex`, `Lifetime`, `LifetimeProof`, `LifetimeProgress`, `Sweep`, `Transport`: the connection
  table. `Lifetime` is a state machine of the atomic regions of the io thread, the timeout
  thread and everybody else; `LifetimeProof` proves what every run keeps,
  `LifetimeProgress` what a run can still reach, `Sweep` whom a sweep takes, in times and
  states; `Transport` is the code over real lists and counters, each method proved to be
  a run of those steps. The results hold for any hash of socket ids; `Transport` uses the
  source's.
- `DataBuffer`, `Queues`: the buffer (three indices into one array) and the intrusive
  linked queues, on the heap, each refining a sequence.
- `TcpSend`, `WorkerQueue`: two concurrent protocols, again a state machine with its
  invariants and progress, then the code.
- `Framing`, `Escaping`, `Messages`, `MessageProof`, `MsgPacket`: from the byte stream to
  packets to messages and back.
- `XmlText`, `XmlTree`, `XmlReader`: what printing and parsing mean, the round trip, and
  the cursor loops and the printer proved equal to that meaning. `XmlRefs` and
  `XmlSpelling` say it without the reader: the value of every reference, and the trees of
  every spelling of a document.
- `ConfigIndex`, `ConfigFile`: plain counting, and the loops and lists that must agree
  with it; `ConfigMeaning` says of the lines themselves which files load.
- `Base64`, `Flags`, `FlagLists`, `FlagMeaning`: encoders, decoders, their round trips,
  and what the text between them says.

Results a reader of the code may not expect:

- An attribute value is printed and read back unchanged exactly when it holds no `&#x`,
  which the encoder lets through. A NUL survives, since it is written as a reference.
- A comm or ctfo packet with an empty body stays in the receive buffer until another
  byte follows it (`src/pack/tprotocol.cpp:433`, `src/pack/tprotocol.cpp:361`); the
  corporation list request is such a message.
- `decode808` writes the first byte twice (`src/pack/tprotocol.cpp:191-195`).
- The base64 decoder skips every character outside its alphabet; the branch meant to
  reject some (`src/utils/base64.cpp:126`) is behind a test that already takes them.
- A push can return true and leave its packet queued after the last worker has gone
  (`src/comm/queuethread.cpp:52-60`).
- A packet handed out, or a user bound, after its component was put away is safe exactly
  while the component is not listed for deletion: the deletion does not look at the count
  again (`src/net/hashioc.cpp:189-221`).
- A client that reconnects on a post gets a new id and stays in its old bucket
  (`src/net/tcpcomponent.cpp:93-99`), so `get` under its new id can miss it.
- A component that reconnects by itself stays marked used for good, so no run deletes it;
  every other one can still be deleted from any reachable state.
- `MsgPacket::pack` on a packet that held bytes, or was read from, puts a length that
  counts them, and may put it over other bytes (`src/pack/msgpack.h:92-98`).
- comm's `encode_pack` counts the header in its limit and `decode_pack` does not: a body of
  4085 to 4095 bytes can be received but not sent.
- A piece of a flag list that is 0 or no number sets the lowest bit, since C rounds
  -1 / 2 to 0 (`src/pack/gbhandler.cpp:1202-1212`).
- Before the clock has come as far as a time limit the unsigned difference wraps, and
  every older time counts as elapsed (`src/net/tcpcomponent.cpp:306`).
- `get_dword_by_flag` and `build_postion_set` let numbers through one past their range:
  65 and 66, and 45 and 46.
- `write_data` reads `packet` before assigning it when the buffer starts full
  (`src/net/tcpcomponent.cpp:452`); both outcomes are allowed for.
- The header comments of `config.h` say an item is added after the `where`-th; the code
  takes a `where` beyond the count as the count, and the model follows the code.

## Model

| member | source | states |
|---|---|---|
| LifetimeProof.StepKeeps | src/net/transport.cpp:57-168 | every one of the nineteen atomic steps (add, read, write and post events with the new id a reconnect may bring, sweep, the five stages of a removal, recycle, hand-off and deletion of packets, bind and unbind, reap) keeps the whole invariant: table and places, reference counts, nobody dangling, nothing doomed still held |
| LifetimeProof.RunKeeps | src/net/transport.cpp:57-168 | hence every run of such steps, by any number of threads, keeps it |
| LifetimeProof.NobodyDangles | src/pack/pack.cpp:20-133 | in every run no packet, user or running removal refers to a destroyed component, and each count is exactly (1 if marked used) + packets + users (+ 1 between unmarking and release) |
| LifetimeProof.ExactlyOnePlace | src/net/hashioc.cpp:36-279 | in every run each existing component is in exactly one of its bucket, the timeout list, the sweeper's hand, a remover's hand, recycle, del, the reaper's list; a destroyed one is in none; each bucket's set is its queue's elements, without repeats, and all of them hashed there when they were put; those that do not reconnect by themselves still do |
| LifetimeProof.DestroyIsSafe | src/net/hashioc.cpp:189-221 | whatever is about to be deleted has count zero and no holder, although the entries of the del list are not looked at again |
| LifetimeProof.LeavesTableOnce | src/net/hashioc.cpp:150-186 | a component out of the table never comes back, in any continuation |
| LifetimeProof.TakenIsOut | src/net/hashioc.cpp:150-279 | only a sweep of a bucket, or the detach stage of a removal of just this component, takes a component out of the table; a detach that does is one that found it |
| LifetimeProof.TakenAtMostOnce | src/net/hashioc.cpp:150-279 | over any run, however sweeps and removals race, a component is taken out of the table exactly once if it is out in the end and was not out before, and never otherwise |
| LifetimeProof.TakenExactlyOnce | src/net/hashioc.cpp:150-279 | a component that starts in the table is taken out exactly once, or is still there in the end |
| LifetimeProgress.DeletableIff | src/net/transport.cpp:96-168 | in every reachable state, some continuation deletes a component exactly when it does not reconnect by itself |
| LifetimeProgress.NothingLeaks | src/net/transport.cpp:96-168 | a component that does not reconnect and that no packet and no user refers to is deleted by a continuation that touches no packet and no user, whatever list or thread has it |
| LifetimeProgress.ReapRun | src/net/transport.cpp:96-168 | with packets and users it takes deleting just these packets and unbinding just these users |
| LifetimeProgress.StepTidy | src/net/transport.cpp:410-437 | no component that is still marked used is forgotten: it is in the table, on the timeout thread's list or in its hand, or being removed |
| LifetimeProof.FoundUnderNewIdIff | src/net/hashioc.cpp:66-88 | looking in the bucket of its current id reaches a component of the table exactly when that is the bucket of the id it was put under; always for one that does not reconnect by itself |
| LifetimeProof.MissedAfterReconnect | src/net/tcpcomponent.cpp:68-110 | for any hash and any two ids of different buckets, a client that connects under one, fails and is posted to ends up in the table under an id whose bucket does not hold it |
| Transports.ReconnectIsMissed | src/net/tcpcomponent.cpp:560-580 | with the source's hash such a run exists for every host and every table of more than one bucket |
| LifetimeProof.DoomedStaysDoomed | src/net/hashioc.cpp:189-221 | a component that waits for deletion at count zero stays at zero until it is deleted, in every continuation |
| LifetimeProof.HandOffIff | src/pack/pack.cpp:118-133 | a packet handed out late, for a component in any state, keeps the invariant exactly when the component is not listed for deletion |
| LifetimeProof.BindIff | src/net/baseuser.h:77-90 | a user bound late keeps it exactly under the same condition |
| LifetimeProof.LateHandOffStrandsIff | src/net/tcpcomponent.cpp:517-535 | some continuation leaves a late packet at a deleted component exactly when its component was listed for deletion |
| LifetimeProof.LateBindStrandsIff | src/net/baseuser.h:77-90 | some continuation leaves a late user at a deleted component exactly when its component was listed for deletion |
| LifetimeProof.DoomRun | src/net/hashioc.cpp:189-221 | whatever is listed for deletion is deleted by some continuation that touches no packet and no user, from any state of a removal under way |
| LifetimeProof.ReachableCanBind | src/net/baseuser.h:77-90 | a component reached through a packet, a user or a live connection is never listed for deletion |
| LifetimeProof.AddedCanBind | src/net/baseclient.cpp:63-96 | nor is one that has just been added, which the client binds while it is still connecting |
| LifetimeProof.LateHandOffDangles | src/net/tcpcomponent.cpp:517-535 | a run from the empty transport and a late hand-off that leaves its packet at a deleted component |
| LifetimeProof.IdleConnectionIsDoomed | src/net/transport.cpp:123-168 | a run leads from the empty transport to an idle connection listed for deletion while the io thread handles events |
| LifetimeProof.AddKeeps | src/net/transport.cpp:376-408 | add_component keeps the invariant |
| LifetimeProof.SweepKeeps | src/net/hashioc.cpp:229-279 | sweeping one bucket (check_timeout on each member, the expired ones moved to the timeout list and out of the set) keeps it |
| LifetimeProof.CloseKeeps | src/net/tcpcomponent.cpp:191-226 | close by any thread, with or without a notice packet, keeps it |
| LifetimeProof.DetachKeeps | src/net/hashioc.cpp:150-186 | taking a component out of its bucket, or finding it gone, keeps it |
| LifetimeProof.UnmarkReleaseKeeps | src/net/transport.cpp:410-437 | clearing the used flag and then dropping the table's own reference keep it, although the count is one ahead in between |
| LifetimeProof.EventKeeps | src/net/tcpcomponent.cpp:229-289 | read, write and post events keep it, whatever packets a read hands out, whatever id a reconnecting post sets and whatever the clock says |
| LifetimeProof.HolderKeeps | src/pack/pack.cpp:20-133 | packets and users that come to refer to a component not listed for deletion, or cease to refer to one, keep it |
| LifetimeProof.ListKeeps | src/net/hashioc.cpp:189-349 | the moves from list to list keep it; moveto_recycle reads the count once |
| LifetimeProof.DestroyKeeps | src/net/transport.cpp:108-119 | deleting the first entry of the reaper's list keeps it |
| Sweep.SweptIff | src/net/tcpcomponent.cpp:291-380 | for a bucket without repeats, after the clock's first thirty seconds, a component is swept exactly when it was connecting for more than two seconds and is no auto client, or was a connection from a listener idle for more than thirty, or was closed and is no auto client |
| Sweep.CheckTimeoutMeans | src/net/tcpcomponent.cpp:291-380 | check_timeout at any clock value, the wrap-around of the unsigned differences included: who is over and what becomes of the rest |
| Sweep.SweepMeans | src/net/hashioc.cpp:229-279 | one pass over a bucket: those who go and those who stay, each in queue order, and what every component becomes |
| Sweep.ReconnectingStays | src/net/tcpcomponent.cpp:303-360 | an auto client is never swept: an attempt of more than two seconds is closed, a closed one tries again after ten with the new start time, anything else is left alone |
| Sweep.ConnectedClientStays | src/net/tcpcomponent.cpp:322-346 | a connected client stays, however long it has been idle |
| Sweep.StepConn | src/net/tcpcomponent.cpp:191-289 | which steps change a connection's state, and to what: the write event of an attempt, a reconnecting post, a close, a sweep; no other step does |
| Sweep.StepClocks | src/net/tcpcomponent.cpp:229-289 | every event on a connection is its last use, a reconnecting post and a sweep that connects set its start, and no other step touches either |
| Sweep.LastUseOfRun | src/net/tcpcomponent.cpp:229-289 | so after any run the last use is the time of the last event on the component among the steps |
| Sweep.IdleIff | src/net/transport.cpp:123-140 | after any run a sweep of its bucket takes a connected component exactly when it came from a listener and its last event is more than thirty seconds old; it then goes to the timeout list |
| Sweep.CloseAnnounces | src/net/tcpcomponent.cpp:191-226 | close leaves a notice exactly when there was a connection or an attempt at one and the worker queue takes it; a removal goes on exactly for what is marked used and does not reconnect |
| LifetimeProof.SweepQueueSplits | src/net/hashioc.cpp:229-279 | a sweep splits a bucket's queue: kept and expired together are the queue, and no mark or count changes |
| Transports.Transport.Get | src/net/hashioc.cpp:66-88 | get finds something exactly when some component of the table has the id and was put under an id of the same bucket, and then the last such of that bucket's queue |
| Transports.Transport.AddComponentTo | src/net/transport.cpp:376-408 | put, set_used(true) and add_ref on the real bucket and counters are the add step |
| Transports.Transport.RemoveComponent | src/net/transport.cpp:410-437 | remove_component, from close to sub_ref, is a run of the five removal steps |
| Transports.Transport.Close | src/net/tcpcomponent.cpp:191-226 | close() is the close step |
| Transports.Transport.Detach | src/net/hashioc.cpp:150-186 | HashSock::remove's search in queue and set is the detach step |
| Transports.Transport.MovetoRecycle | src/net/hashioc.cpp:333-349 | moveto_recycle is the put-away step |
| Transports.Transport.SweepOne | src/net/hashioc.cpp:229-279 | the loop over one bucket is the sweep step: the queue becomes those who stay, the timeout list gets those who go, both in order, every member ages |
| Transports.Transport.GetTimeoutList | src/net/hashioc.cpp:229-279 | the loop over all buckets is one sweep step for each, in order; in the end just those who are over have moved, in order, to the timeout list, every component of the table has aged, and none else has changed |
| Transports.Transport.GetDelList | src/net/hashioc.cpp:189-221 | the loop over the recycle list takes exactly its free members, in order, and leaves the rest |
| Transports.Transport.DeleteReaped | src/net/transport.cpp:108-119 | the reaping loop destroys the whole list |
| Transports.Transport.RetireFirst | src/net/transport.cpp:123-168 | one round of the timeout thread's loop: pop, close and remove, put away |
| HashIndex.HashIs32Bit | src/net/hashioc.cpp:352-360 | the socket hash fits 32 bits for every id |
| HashIndex.SockHashMeans | src/net/hashioc.cpp:352-360 | the hash of flags, the address a.b.c.d and a port, the id holding both in network order: flags, address and port in host order and the port's high byte, joined by exclusive or |
| HashIndex.XorBits | src/net/hashioc.cpp:352-360 | which is the one of every bit |
| HashIndex.MaskIsRemainder | src/net/hashioc.h:76-94 | masking with size - 1 is the remainder, for every power of two |
| HashIndex.LoopEndsIff | src/net/hashioc.cpp:363-375 | the loop of next_power, in 64-bit arithmetic, ends exactly for sizes up to 2^62 |
| HashIndex.NextPower | src/net/hashioc.cpp:363-375 | and gives the least mini * 4^k that is not below the size |
| HashIndex.SameLockIff | src/net/hashioc.cpp:40-76 | get, which locks by raw hash, and put/remove/sweep, which lock by bucket index, take the same lock for every hash exactly when there are no more locks than buckets (or the table has 2^32 buckets or more) |
| HashIndex.DefaultSizesShareLocks | src/net/hashioc.cpp:10-24 | which the sizes the constructor computes satisfy |
| HashIndex.BucketsDifferIff | src/net/hashioc.cpp:352-360 | two local ports of one host fall into different buckets exactly in tables of more than one bucket |
| TcpSend.StepInOrder | src/net/tcpcomponent.cpp:382-473 | every step of the send path (post, take over, fill, write of any size, failure, end) keeps sent ++ output ++ my queue ++ output queue == everything posted |
| TcpSend.StepArmed | src/net/tcpcomponent.cpp:382-473 | and keeps the write event armed whenever data waits, unless a finishing close was asked for |
| TcpSend.RunInOrder | src/net/tcpcomponent.cpp:382-473 | so does every run, however posts and writes interleave |
| TcpSend.NothingLostNorReordered | src/net/tcpcomponent.cpp:382-473 | in every run the bytes sent are a prefix of the posts' concatenation, and the rest is still there in order |
| TcpSend.EndDisarmsIff | src/net/tcpcomponent.cpp:457-463 | the end of write_data disarms with data pending exactly when the connection is finishing |
| TcpSend.WriteEventProgress | src/net/tcpcomponent.cpp:410-452 | a write event over a socket that takes what it is given sends bytes whenever some wait |
| TcpSend.DrainsCompletely | src/net/tcpcomponent.cpp:410-452 | so enough write events send everything posted |
| TcpSend.SendAllMuch | src/net/tcpcomponent.cpp:410-452 | one call over a socket that takes everything sends all there is, or has made ten writes of at least 8192 bytes |
| TcpSend.TcpComponent.PostPacket | src/net/tcpcomponent.cpp:560-601 | post_packet is the post step: it arms only when the queue gets its first packet |
| TcpSend.TcpComponent.WriteData | src/net/tcpcomponent.cpp:382-473 | write_data, over the real buffer, for any result of each socket write and any posts in between, is a run of the steps whose k-th write answers the smaller of the socket's k-th answer and what was offered; with no posts in between and answers that take everything the new state is the one DrainsCompletely speaks of |
| TcpSend.TcpComponent.TakeOver | src/net/tcpcomponent.cpp:392-406 | the first locked region takes the output queue over, or disarms |
| TcpSend.TcpComponent.FillOutput | src/net/tcpcomponent.cpp:412-430 | the inner loop moves whole packets into the buffer until 8192 bytes wait or the queue is empty |
| TcpSend.TcpComponent.Settle | src/net/tcpcomponent.cpp:457-473 | the last locked region shrinks the buffer and decides the write event |
| DataBuffers.DoubledFitsInt | src/comm/databuffer.h:556-600 | the doubled size stays below 2^31 while contents and request stay within 2^30 |
| DataBuffers.DoubledIsTight | src/comm/databuffer.h:556-600 | doubling overshoots by less than a factor of two |
| DataBuffers.DoubledMeans | src/comm/databuffer.h:556-600 | the size is doubled as often as it takes and no more often |
| DataBuffers.DataBuffer.Expand | src/comm/databuffer.h:556-600 | expand keeps the contents, gives the space asked for, and has exactly the source's new capacity in each branch (first block, bigger block, compaction in place, nothing) |
| DataBuffers.DataBuffer.Compact | src/comm/databuffer.h:556-600 | the move to the front of the same block keeps the contents, overlapping or not |
| DataBuffers.DataBuffer.Reallocate | src/comm/databuffer.h:556-600 | so does the copy into a new block |
| DataBuffers.DataBuffer.Shrink | src/comm/databuffer.h:120-148 | shrink keeps the contents and brings a block above 2048 back to it when they fit |
| DataBuffers.DataBuffer.DrainData | src/comm/databuffer.h:93-101 | drain removes a prefix, or everything |
| DataBuffers.DataBuffer.PourData | src/comm/databuffer.h:103-107 | what the socket stored in the free space is appended |
| DataBuffers.DataBuffer.WriteBytes | src/comm/databuffer.h:205-213 | bytes are appended |
| DataBuffers.DataBuffer.WriteInt | src/comm/databuffer.h:153-203 | an integer's low-order bytes are appended, most significant first |
| DataBuffers.DataBuffer.StoreInt | src/comm/databuffer.h:227-257 | the unrolled stores write just those bytes and no other |
| DataBuffers.DataBuffer.FillInt32 | src/comm/databuffer.h:279-289 | four bytes counted from the start of the block are replaced, and no other, wherever reading has got to |
| DataBuffers.DataBuffer.ReadInt | src/comm/databuffer.h:364-440 | a checked read takes the number off the front, or nothing when too few bytes are left |
| DataBuffers.DataBuffer.ReadBytes | src/comm/databuffer.h:442-452 | likewise for bytes |
| Bytes.ReadBackBigEndian | src/comm/databuffer.h:153-440 | reading back a written integer gives it modulo its width |
| Framing.PackStable | src/pack/tprotocol.cpp:76-472 | bytes that arrive later change no packet already complete, in any of the three protocols |
| Framing.DecodeSplit | src/pack/tprotocol.cpp:43-55 | decode(A ++ B) is decode(A)'s packets followed by those of decode(unconsumed tail of A ++ B) |
| Framing.RestIsIdle | src/pack/tprotocol.cpp:43-55 | the unconsumed tail holds no packet |
| Framing.AnyChunking | src/net/tcpcomponent.cpp:493-500 | any chunking of a stream through pour, decode and drain gives the packets of the whole stream |
| Framing.LineMeaning | src/pack/tprotocol.cpp:76-121 | a text packet is what lies behind the leading blank lines through the first line end there; there is none exactly when no line end follows |
| Framing.OnlyLines | src/pack/tprotocol.cpp:76-121 | every text packet ends with its only line end and is more than that |
| Framing.CommPackMeans | src/pack/tprotocol.cpp:420-472 | the comm scan in bytes, for any input: it stops at the first place with the bytes 0, 1 and a big-endian length below 4096 at offset 8, a byte behind the header, and cuts 12 plus that many bytes, or waits |
| Framing.CtfoPackMeans | src/pack/tprotocol.cpp:350-401 | the ctfo scan in bytes: the four tag bytes, the exclusive or of the first eight as the ninth, the length at offset 4 |
| Framing.TextPackMeans | src/pack/tprotocol.cpp:76-121 | the text scan in bytes: from behind the leading 13, 10 pairs through the next such pair |
| Framing.CommPackets | src/pack/tprotocol.cpp:420-472 | so every packet of every decoding has at least 12 bytes, begins with 0, 1, and is 12 bytes longer than its length field says, which is below 4096 |
| Framing.CtfoPackets | src/pack/tprotocol.cpp:350-401 | every ctfo packet begins with the tag, carries the checksum, and is 9 bytes longer than its length field says |
| Framing.EncodersMean | src/pack/tprotocol.cpp:57-74 | the three encoders in bytes, and what they refuse |
| Framing.SeekIsFirst | src/pack/tprotocol.cpp:361-446 | the header scan stops at the first acceptable header with a byte behind it (in bytes: CommPackMeans, CtfoPackMeans) |
| Framing.PacketsBack | src/pack/tprotocol.cpp:350-472 | comm and ctfo packets sent back to back come back one by one, except that a last one with an empty body is held back |
| Framing.PacketsBackIff | src/pack/tprotocol.cpp:350-472 | so all come back exactly when the last has a body |
| Framing.CtfoIsWhole | src/pack/tprotocol.cpp:296-348 | what the ctfo encoder makes is such a packet, with the data behind its header |
| Framing.TextBackIff | src/pack/tprotocol.cpp:57-121 | encoded texts come back as sent exactly when none holds a line end of its own |
| Framing.TextDecodePack | src/pack/tprotocol.cpp:76-121 | the text scan with its three positions |
| Framing.CommDecodePack | src/pack/tprotocol.cpp:420-472 | the comm scan: version 1, body below 4096 |
| Framing.CtfoDecodePack | src/pack/tprotocol.cpp:350-401 | the ctfo scan: tag and xor of the first eight bytes |
| Framing.CheckHeader | src/pack/tprotocol.cpp:280-327 | check_header and its checksum loop |
| Framing.DecodeAll | src/pack/tprotocol.cpp:43-55 | the decode loop ends, returns the consumed length, and pushes exactly those packets |
| Framing.Receiver.ReadData | src/net/tcpcomponent.cpp:478-500 | one read, pour, decode, drain: at all times the packets handed on and queued are those of everything received so far, and the buffer is the undecoded rest |
| Framing.Receiver.HandOver | src/net/tcpcomponent.cpp:517-535 | the handler gets the queue in order |
| Escaping.NoMarkInside | src/pack/tprotocol.cpp:142-159 | no 0x7e between the end marks, for every body |
| Escaping.EscapeMeans | src/pack/tprotocol.cpp:142-159 | 0x7e becomes 7d 02, 0x7d becomes 7d 01, every other byte itself, one behind the other (section 4.4.2 of JT/T 808-2011) |
| Escaping.PlainIsCopied | src/pack/tprotocol.cpp:195-214 | where no 0x7d is followed by 1 or 2 the unescape loop copies all but the last byte |
| Escaping.UnescapeInverts | src/pack/tprotocol.cpp:195-214 | the unescape loop gives back every body, whatever is in front and behind |
| Escaping.EscapeInjective | src/pack/tprotocol.cpp:142-159 | no two bodies share an escaped form |
| Escaping.DecodedEncodedIff | src/pack/tprotocol.cpp:124-227 | decode808 of an encoded packet gives it with the first byte doubled, exactly when the first two bytes form no escape and the escaped packet fits 4096 |
| Escaping.EncodePack | src/pack/tprotocol.cpp:124-165 | the escape loop |
| Escaping.Decode808 | src/pack/tprotocol.cpp:167-227 | the unescape loop, which skips two bytes for an escape and may step past the last |
| MessageProofs.ContentBackIff | src/pack/commproto.h:309-346 | unbody of body gives the message back and consumes it exactly when strings have at most 255 bytes, lists fewer than 65536 items, and nothing is set that the mask leaves out |
| MessageProofs.TakenFits | src/pack/commproto.h:328-346 | nothing else can come off the wire, from any bytes |
| MessageProofs.SrvsBack | src/pack/commproto.h:316-344 | the server list loop pair |
| MessageProofs.CorpsBack | src/pack/commproto.h:1847-1881 | the corporation list loop pair |
| MessageProofs.MergedBack | src/pack/commproto.h:309-346 | taken into any message of its kind, a message that fits the length fields lands on top of what was there (lists grow, unsent fields stay), and is itself exactly when nothing of that shows through |
| MessageProofs.VehicleBack | src/pack/commproto.h:1287-1338 | the masked fields, in the order of the masks |
| MessageProofs.HeaderBack | src/pack/msgpack.h:30-56 | the header comes back, over any body at least as long as it says |
| MessageProofs.HeaderRefusedIff | src/pack/msgpack.h:30-56 | it is refused exactly when the body it announces is longer than what follows and its length is not negative as a signed number |
| MessageProofs.PackedBytes | src/pack/msgpack.h:92-98 | a packed message in bytes: 0, 1, the code of its kind, the sequence number and the body's length, most significant byte first, then the body |
| MessageProofs.CodeTellsKind | src/pack/commproto.h:295-303 | the code in a packed message's header leads back to its kind |
| MessageProofs.BodyLayout | src/pack/commproto.h:309-326 | the bodies field by field, the masks being 1, 2, 4, 8 and 16 |
| MessageProofs.ItemLayout | src/pack/commproto.h:1847-1866 | the list items, one behind the other, field by field |
| MessageProofs.EmptyBody | src/pack/commproto.h:328-346 | unbody of an empty body leaves a list as it was when no items are expected, and otherwise reads beyond the packet |
| MessageProofs.NewFromNothing | src/pack/commproto.h:296-303 | so a new message keeps what its constructor put there |
| MessageProofs.PackedIsWhole | src/pack/tprotocol.cpp:420-472 | a packed message with a body below 4096 bytes is a packet the comm scan accepts, of its own length |
| MessageProofs.CommSendsIff | src/pack/tprotocol.cpp:403-417 | encode_pack of comm takes exactly the messages of at most 4084 body bytes, which the decoder gives back unless the body is empty; the decoder takes up to 4095 |
| MessageProofs.UnpackedPacked | src/pack/msgpack.h:82-98 | unpacking it gives the message and the header, whose length is the body's |
| MessageProofs.StreamBackIff | src/pack/msgpack.h:82-98 | any messages sent one after another come back through framing and unpacking, exactly when the last has a body |
| MessageProofs.OnlyRequestIsEmpty | src/pack/commproto.h:1798-1801 | the message without one is the corporation list request |
| MsgPackets.WriteStr | src/pack/pack.cpp:47-58 | write_str: the length byte is the size modulo 256 |
| MsgPackets.ReadStr | src/pack/pack.cpp:34-45 | read_str: the length byte unchecked, a cut-short text leaves zeros |
| MsgPackets.MsgPacket.Body | src/pack/commproto.h:309-326 | body appends the message's bytes to any packet, the count truncated to sixteen bits and kept |
| MsgPackets.MsgPacket.Unbody | src/pack/commproto.h:328-346 | unbody on any message, new or filled before, reads over its fields, leaves those that are not sent or cut short, and appends list items; or it reads beyond the packet |
| MsgPackets.MsgPacket.UnbodyVehicle | src/pack/commproto.h:1313-1338 | the masked reads; a field the mask leaves out stays |
| MsgPackets.MsgPacket.Pack | src/pack/msgpack.h:92-98 | header and body appended to any packet, then the length of all but one header written to the block's offset 8; right for a new packet |
| MsgPackets.MsgPacket.Unpack | src/pack/msgpack.h:82-90 | header with the signed length check, then unbody, on any message |
| WorkerQueue.StepKeeps | src/comm/queuethread.cpp:39-107 | every step of producers, workers and stop keeps the invariant |
| WorkerQueue.RunKeeps | src/comm/queuethread.cpp:39-107 | so does every run, with any number of workers |
| WorkerQueue.ConservationAndOrder | src/comm/queuethread.cpp:48-107 | in every run each packet whose push returned true is in exactly one of queued, held, handled, freed; packets are popped in acceptance order; a positive limit m keeps at most m + 1 queued |
| WorkerQueue.PushAcceptedIff | src/comm/dataqueue.h:34-58 | a push is accepted, behind all others, exactly when there is no limit or not more than the limit are queued; otherwise queue and workers stay as they are |
| WorkerQueue.LimitReached | src/comm/dataqueue.h:34-58 | so in every run a limit m refuses exactly at m + 1 |
| WorkerQueue.NoLostWakeUpStep | src/comm/queuethread.cpp:59-88 | no step leaves a worker asleep while more packets are queued than workers are on their way |
| WorkerQueue.NobodySleepsOverWork | src/comm/queuethread.cpp:59-88 | in no reachable state is every worker blocked over a queue that is not empty, and once stopped nobody is blocked |
| WorkerQueue.WorkersComeToRest | src/comm/queuethread.cpp:72-107 | however the workers are scheduled, they come to rest within 2 * queued + (1 for each ready, 2 for each holding) steps |
| WorkerQueue.AtRestQueueIsEmpty | src/comm/queuethread.cpp:72-107 | and then all is handled: the queue is empty, or after stop holds just what came when every worker had left |
| WorkerQueue.LatePushStaysQueued | src/comm/queuethread.cpp:48-69 | a push that read the flag before stop and locks after the last worker left returns true and its packet stays queued |
| WorkerQueue.QueueThread.LockPush | src/comm/queuethread.cpp:59-68 | the locked half of push: accepted exactly when there is no limit or not more than the limit are queued |
| WorkerQueue.QueueThread.Turn | src/comm/queuethread.cpp:77-106 | one turn of run: take a packet, wait, or drain and leave |
| WorkerQueue.QueueThread.StopAll | src/comm/queuethread.cpp:39-45 | stop and its broadcast |
| Queues.WithoutKeeps | src/comm/tqueue.h:102-128 | erasing removes just the one member and keeps the order of the rest |
| Queues.TQueue.Push | src/comm/tqueue.h:20-35 | push appends; links both ways and size stay right |
| Queues.TQueue.Pop | src/comm/tqueue.h:38-57 | pop takes the first and clears its links |
| Queues.TQueue.Moveto | src/comm/tqueue.h:70-99 | moveto concatenates; onto itself it does nothing |
| Queues.TQueue.Erase | src/comm/tqueue.h:102-128 | erase of any member, head, tail or middle |
| Queues.PacketQueue.Push | src/pack/pack.cpp:189-209 | push appends, and ignores NULL |
| Queues.PacketQueue.Pop | src/pack/pack.cpp:170-187 | pop takes the first |
| Queues.PacketQueue.Moveto | src/pack/pack.cpp:240-263 | moveto concatenates two different queues |
| Queues.CDataQueue.Push | src/comm/dataqueue.h:34-58 | push appends unless more than the limit are in |
| Queues.CDataQueue.Pop | src/comm/dataqueue.h:61-81 | pop takes the first |
| XmlText.CharBack | src/tinyxml/tinyxml.cpp:52-133 | GetChar of an encoded character gives it back, for every character (section 4.1 and 4.6 of XML 1.0) |
| XmlRefs.DecimalReference | src/tinyxml/tinyxmlparser.cpp:438-531 | &# with any decimal digits is the character of their value, read left to right, modulo 256 |
| XmlRefs.HexReference | src/tinyxml/tinyxmlparser.cpp:438-531 | &#x with any hexadecimal digits of either case likewise, leading zeros or not |
| XmlRefs.NamedReferences | src/tinyxml/tinyxmlparser.cpp:509-531 | the five named references |
| XmlRefs.LoneAmpersand | src/tinyxml/tinyxmlparser.cpp:509-531 | an ampersand that starts none of these is dropped |
| XmlRefs.EncodesAs | src/tinyxml/tinyxml.cpp:52-133 | what the printer writes for each character: five names, a two-digit hexadecimal reference for a control character, anything else as it is |
| XmlRefs.EncodeMeans | src/tinyxml/tinyxml.cpp:52-133 | a value is printed character by character unless it goes on with "&#x" |
| XmlRefs.PassedThrough | src/tinyxml/tinyxml.cpp:60-90 | which is passed through as it is up to the next semicolon |
| XmlRefs.UnfinishedFails | src/tinyxml/tinyxmlparser.cpp:574-637 | a value whose closing quote is missing, or is the last character of the text, is refused |
| XmlRefs.ClassesAre | src/tinyxml/tinyxmlparser.cpp:314-436 | which characters are blank, begin a name and go on with one |
| XmlSpelling.ValueSpelled | src/tinyxml/tinyxmlparser.cpp:574-637 | a quoted value spelled with any mixture of plain characters, named and numeric references is read as the characters they stand for |
| XmlSpelling.AttrSpelled | src/tinyxml/tinyxmlparser.cpp:1392-1463 | an attribute with any white space around its equals sign, quoted either way or bare |
| XmlSpelling.ElementSpelled | src/tinyxml/tinyxmlparser.cpp:1043-1176 | an element in any spelling: white space, attributes, self-closing or with an end tag |
| XmlSpelling.DocumentSpelled | src/tinyxml/tinyxmlparser.cpp:704-796 | every spelling of a forest parses to its trees |
| XmlSpelling.RepeatedNameFails | src/tinyxml/tinyxmlparser.cpp:1156-1171 | an element with a repeated attribute name is refused |
| XmlSpelling.WrongEndTagFails | src/tinyxml/tinyxmlparser.cpp:1117-1140 | so is one closed by another name's end tag |
| XmlText.ValueBack | src/tinyxml/tinyxmlparser.cpp:574-637 | ReadText of a quoted encoded value gives the value and stops behind the quote, for every value without the passed-through "&#x" |
| XmlText.ValueShrinks | src/tinyxml/tinyxmlparser.cpp:438-531 | a value with "&#x" comes back shorter or not at all, or, when a semicolon behind the value completes the reference, with less of the text behind it |
| XmlText.ValueSurvivesIff | src/tinyxml/tinyxml.cpp:52-133 | for every value, either quote and every text behind it: the reader gives the value back and stops behind the quote exactly when the value holds no "&#x" |
| XmlTree.AttrBackIff | src/tinyxml/tinyxmlparser.cpp:1392-1463 | an attribute is parsed back from its place exactly when its value holds no "&#x", whatever follows |
| XmlTree.AttrBack | src/tinyxml/tinyxmlparser.cpp:1392-1463 | an attribute parses back from its printed form |
| XmlTree.AttrsBack | src/tinyxml/tinyxmlparser.cpp:1081-1175 | a start tag's attributes parse back, in order, while names differ |
| XmlTree.ElementBack | src/tinyxml/tinyxmlparser.cpp:1043-1176 | an element with all its children parses back from any layout |
| XmlTree.ChildrenBack | src/tinyxml/tinyxmlparser.cpp:1179-1247 | ReadValue gives back all children up to the end tag |
| XmlTree.DocumentBack | src/tinyxml/tinyxmlparser.cpp:704-796 | printing any forest of elements with valid names, distinct attribute names and values free of "&#x", then parsing, gives the same forest |
| XmlTree.LayoutDoesNotMatter | src/tinyxml/tinyxml.h:1785-1795 | whatever the indent and line break strings, two printings parse to the same forest |
| XmlTree.DocumentIff | src/tinyxml/tinyxml.cpp:52-133 | a forest in which no semicolon behind a value can complete a reference in it survives printing and parsing exactly when no attribute value holds "&#x" |
| XmlTree.ClosedDocumentIff | src/tinyxml/tinyxml.cpp:52-133 | in particular one whose references all have a semicolon in their own value |
| XmlTree.OneAttributeIff | src/tinyxml/tinyxml.cpp:1210-1233 | an element with one attribute survives exactly when its value holds no "&#x" |
| XmlReader.GetEntity | src/tinyxml/tinyxmlparser.cpp:438-531 | the entity scanner, digits read backwards from the semicolon; what it makes of each reference is in XmlRefs |
| XmlReader.GetChar | src/tinyxml/tinyxml.h:327-369 | one character or entity in the byte-wise mode |
| XmlReader.ReadText | src/tinyxml/tinyxmlparser.cpp:574-637 | the loop up to the closing quote |
| XmlReader.ReadName | src/tinyxml/tinyxmlparser.cpp:401-436 | the name loop |
| XmlReader.SkipWhiteSpace | src/tinyxml/tinyxmlparser.cpp:314-363 | the white space loop |
| XmlReader.ParseAttribute | src/tinyxml/tinyxmlparser.cpp:1392-1463 | TiXmlAttribute::Parse on a cursor |
| XmlReader.ParseAttributes | src/tinyxml/tinyxmlparser.cpp:1081-1175 | the attribute loop with its duplicate check |
| XmlReader.ParseElementAt | src/tinyxml/tinyxmlparser.cpp:1043-1176 | TiXmlElement::Parse |
| XmlReader.ReadValueAt | src/tinyxml/tinyxmlparser.cpp:1179-1247 | TiXmlElement::ReadValue |
| XmlReader.ParseText | src/tinyxml/tinyxmlparser.cpp:704-796 | TiXmlDocument::Parse |
| XmlReader.EncodeString | src/tinyxml/tinyxml.cpp:52-133 | the encoding loop with its raw run |
| XmlTree.IndentRepeats | src/tinyxml/tinyxml.cpp:1766-1826 | the indentation is the indent string once for every element around |
| XmlReader.TiXmlPrinter.PrintAttribute | src/tinyxml/tinyxml.cpp:1210-1233 | name and value encoded, between double quotes unless the value holds one, then between single ones |
| XmlReader.TiXmlPrinter.VisitEnter | src/tinyxml/tinyxml.cpp:1766-1800 | VisitEnter appends the start tag and deepens |
| XmlReader.TiXmlPrinter.VisitExit | src/tinyxml/tinyxml.cpp:1803-1826 | VisitExit appends the end tag, or nothing for an empty element |
| XmlReader.TiXmlPrinter.Accept | src/tinyxml/tinyxml.cpp:875-886 | the visit of an element appends exactly its printed form |
| XmlReader.PrintThenParse | src/tinyxml/tinyxml.cpp:1766-1826 | the two programs one after the other give the forest back |
| ConfigIndex.SplitJoins | src/utils/config.cpp:522-554 | cutting the file at its section headers loses and reorders no line |
| ConfigIndex.KthExistsIff | src/utils/config.cpp:793-856 | there is an n-th definition exactly for 1 up to the count |
| ConfigIndex.KthMissing | src/utils/config.cpp:793-856 | counted as a set: there is none exactly when n is not from 1 to the number of positions with the name |
| ConfigIndex.KthIsAt | src/utils/config.cpp:793-856 | the n-th definition of a name is the one with n - 1 positions of the name in front of it |
| ConfigIndex.KthVectorIsAt | src/utils/config.cpp:793-856 | likewise for vector items |
| ConfigIndex.FoundByIndex | src/utils/config.cpp:832-853 | the first token with the key and the stored index n is the n-th definition by plain counting |
| ConfigIndex.InsertKeepsIndexed | src/utils/config.cpp:1400-1542 | adding one to the later indices of the same name keeps every stored index equal to plain counting |
| ConfigIndex.InsertShifts | src/utils/config.cpp:1400-1542 | after add_token the new item answers right behind the where-th, later ones move up by one, earlier ones and all other names are as before |
| ConfigIndex.PlaceUnique | src/utils/config.cpp:1502-1514 | name and index tell one place only |
| ConfigIndex.ScalarInsertedItems | src/utils/config.cpp:1521-1531 | a new scalar line puts the item at the same place in the lines as in the chain |
| ConfigIndex.VectorInsertedItems | src/utils/config.cpp:1416-1457 | so does a vector item put into its neighbour's line |
| ConfigFile.GrownAnswers | src/utils/config.cpp:1400-1542 | what every look-up answers after add_token, for every name and number: the new value behind the where-th, or the last when where is negative or too big |
| ConfigMeaning.LoadsIff | src/utils/config.cpp:286-566 | a file loads exactly when every header has a name, every scalar an id and a value, every item a header above it and no item of the other kind since that header, and no two headers share a name |
| ConfigFile.ReadLines | src/utils/config.cpp:286-506 | the reading loop with its three flags accepts exactly the files without an item before the first section, a mixed section, or an empty name or value |
| ConfigFile.NamesUnique | src/utils/config.cpp:556-566 | the double loop finds exactly the repeated section names |
| ConfigFile.LinkSection | src/utils/config.cpp:589-625 | the linking loops chain the items of a section's lines in order |
| ConfigFile.ComputeIndex | src/utils/config.cpp:627-653 | the nested loops leave in every token 1 + the number of earlier ones of its name (vectors: 1..n) |
| ConfigFile.LinkToken | src/utils/config.cpp:1487-1539 | linking in and the loop that bumps later indices |
| ConfigFile.FindScalar | src/utils/config.cpp:1502-1519 | the walk over lines finds the where-th definition, and never misses it |
| ConfigFile.Config.Load | src/utils/config.cpp:256-656 | load succeeds exactly for such files with distinct section names, and leaves lines, chains and indices agreeing |
| ConfigFile.Config.Get | src/utils/config.cpp:793-856 | get(section, id, k) is the k-th definition, or fails when there is none |
| ConfigFile.Config.Count | src/utils/config.cpp:947-1033 | count is the number of positions with the name (of vector items: with the value), with the source's answers for a file without lines and for absent, empty and wrongly typed sections |
| ConfigFile.Config.AddScalar | src/utils/config.cpp:1460-1542 | add_token of a scalar, with its failures: its line goes below that of the where-th definition, or below the header when where is 0; every other section is untouched |
| ConfigFile.Config.AddVector | src/utils/config.cpp:1400-1458 | add_token of a vector item, into the line of the where-th item, or of the first when where is 0, or into a line of its own |
| ConfigFile.Config.AddSection | src/utils/config.cpp:1268-1367 | add_token of a section: refused for a name in use; items and indices of all others stay, trailing notes go to the new one |
| Base64.EncodedLength | src/utils/base64.cpp:42-93 | the encoded length is 4 * ceil(n / 3) |
| Base64.RoundTrip | src/utils/base64.cpp:99-172 | decoding the encoding of any bytes, with the terminating zero behind it, gives them back (section 4 of RFC 4648) |
| Base64.ReverseIff | src/utils/base64.cpp:19-40 | a character has the value v exactly when it is the v-th of A to Z, a to z, 0 to 9, + and / (table 1 of RFC 4648) |
| Base64.GroupMeans | src/utils/base64.cpp:42-93 | four letters hold the number that three bytes make, first byte and first letter the most significant |
| Base64.TailMeans | src/utils/base64.cpp:42-93 | one or two bytes left over make two or three letters, unused low bits zero, filled up with = |
| Base64.IdleIgnored | src/utils/base64.cpp:99-172 | a character outside the alphabet that is no = may be put anywhere but behind a =: the text decodes the same |
| Base64.OrAdds | src/utils/base64.cpp:132-148 | the decoder's bitwise or puts low bits under a number that has none there |
| Base64.Encode | src/utils/base64.cpp:42-93 | the encoder's loop and tail, every write inside the block it allocated; refused from 2^30 groups on |
| Base64.Decode | src/utils/base64.cpp:99-172 | the decoder's loop, switch and mop-up, every write inside length + 1 bytes |
| Flags.AtoiDecimal | src/pack/gbhandler.cpp:783-783 | atoi of a number printed with %u is the number |
| FlagMeaning.AtoiMeans | src/pack/gbhandler.cpp:1202-1203 | atoi of blanks, at most one sign, digits and anything else: the value of the digits, left to right, with the sign |
| FlagMeaning.DecimalMeans | src/pack/gbhandler.cpp:783-783 | a printed number is the digits of its value without leading zeros |
| Flags.JoinedSplit | src/utils/str.cpp:97-120 | whatever the text, joining what it splits into gives it back, and no piece holds the separator |
| Flags.SplitJoined | src/utils/str.cpp:97-120 | strsplit takes a joined list apart again, for pieces without the separator |
| Flags.StrSplit | src/utils/str.cpp:97-120 | the splitting loop |
| Flags.SetBitBits | src/pack/gbhandler.h:24-30 | setting a bit sets just it |
| FlagMeaning.FlagPiecesMean | src/pack/gbhandler.cpp:778-787 | the list of a word names its bits in order, 2k + 2 for a set one and 2k + 1 for a clear one |
| FlagMeaning.FlagsMean | src/pack/gbhandler.cpp:1191-1220 | in the word read from any list with a defined result, bit k is set exactly when some piece sets it (2k + 2; 0 too for the lowest) and none behind it clears it (2k + 1) |
| FlagMeaning.PositionPiecesMean | src/pack/gbhandler.cpp:758-775 | the position list names the 22 keys in order, 2t + 1 when the t-th key's bit is set and 2t + 2 when not |
| FlagMeaning.PositionsMean | src/pack/gbhandler.cpp:1223-1260 | the bytes read from any list with a defined result have just the bits of the keys asked for by some 2t + 1 |
| FlagMeaning.KeysMean | src/pack/gbhandler.cpp:742-756 | the keys are 1 to 3, 0x11 to 0x13, 0x20 to 0x26 and 0x40 to 0x48, in order |
| FlagLists.WordBack | src/pack/gbhandler.cpp:1191-1220 | get_dword_by_flag of get_flagbyword(n, size) is n mod 2^size, through decimal text, for sizes up to 32 |
| FlagLists.PositionsBack | src/pack/gbhandler.cpp:1223-1260 | build_postion_set of get_postion_set keeps exactly the 22 tabled bits of the 32 bytes |
| FlagLists.GetFlagByWord | src/pack/gbhandler.cpp:778-787 | the printing loop |
| FlagLists.GetDwordByFlag | src/pack/gbhandler.cpp:1191-1220 | the reading loop; the result is undefined (a shift by 32) exactly when some piece reads as 65 or 66 |
| FlagLists.FlagsUndefinedIff | src/pack/gbhandler.cpp:1191-1220 | for any list, reading has no defined result exactly when some piece reads as 65 or 66 |
| FlagLists.Flag65IsUndefined | src/pack/gbhandler.cpp:1205-1208 | the one-number list 65 is such a list |
| FlagLists.PositionsOutsideIff | src/pack/gbhandler.cpp:1223-1260 | for any list, reading goes behind the key table exactly when some piece reads as 45 or 46 |
| FlagLists.Position45IsOutside | src/pack/gbhandler.cpp:1243-1247 | the one-number list 45 is such a list |
| FlagLists.GetPostionSet | src/pack/gbhandler.cpp:758-775 | the two printing loops over bytes and bits |
| FlagLists.BuildPostionSet | src/pack/gbhandler.cpp:1223-1260 | the reading loop, in place; it reads behind the table exactly when some piece reads as 45 or 46 |

## Left out

- Sockets, epoll, DNS, files, logging, clocks and thread creation: their results are
  parameters or arbitrary choices of a step.
- HashSock::distroy, Transport::stop and the failure path of add_component: they delete
  whatever the counts say, by design.
- HashSock::erase: nothing in the transport calls it.
- LifetimeProof.HolderKeeps: a reference taken late, to a component already listed for
  deletion, is not a step of a run, because it breaks the invariant (LifetimeProof.HandOffIff,
  BindIff); what it leads to is in LateHandOffStrandsIff and LateBindStrandsIff.
- Packet::set_ioc on a packet that has a component already: a packet gets its component
  when it is made and keeps it until it is deleted.
- An event that reaches a component already closed: it only notes its time.
- The stats counters, and the table's `_size`, which the constructor does not set.
- Acceptors and the UDP component, whose slices ignore the offset.
- The ten-read cap of read_data, and reconnecting: the stream is not kept across them, so
  the claims stay within one connection and one read at a time.
- TransProtocol808::decode_pack: its scan never sets the start of a packet.
- `CTFO_TAG` is compared as a little-endian machine stores it.
- MsgPackets.MsgPacket.Unbody: a read past the end of the packet, or a field left without
  a value, is one outcome; what the program then finds there is not modelled. The other
  message classes repeat these shapes.
- DataBuffers.DataBuffer.Expand: sizes are unbounded numbers; above 1 GiB the source's
  `int` doubling can wrap (DataBuffers.DoubledFitsInt says when it does not).
- The message type dispatch, and PackFactory, which names types that are not declared.
- Queues.PacketQueue.Moveto: for two different queues, as every caller has it; onto itself
  the source would link the queue into a ring.
- Two workers' memory visibility of the stop flag: the unlocked read sees some value of it.
- XML text nodes, comments, CDATA, declarations, unknown tags and the UTF-8 mode: a text
  that needs them parses to the outcome Outside, about which nothing is claimed.
- Parent, sibling and attribute links of the XML tree: children and attributes are
  sequences.
- XmlTree.DocumentIff: says nothing of a value with a reference that lacks its own
  semicolon while one is printed behind the value; the reader then swallows the text up to
  there, across attributes and tags.
- Splitting a configuration line into name and value: lines arrive classified. A vector
  line's values are not empty, as the reader makes them.
- Case-insensitive comparison of names, which can be switched on after loading.
- Config's set, index, add_comment, del_section, dump and release; del_token reads a node
  it has released.
- Flags.Atoi: numbers are unbounded; the C library leaves an overflow undefined.
- Base64.Decode: the text is readable one byte past its length, as a C string is.
- The key tables of the 808 converter, online users and the chat programs.
