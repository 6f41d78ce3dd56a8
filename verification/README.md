# A verified model of libkrossbar's transports

libkrossbar moves messages between processes in two ways. Messages for a peer on the same machine can live in an arena of
shared memory: an allocator with boundary tags hands out blocks, a list of offsets in the same memory queues them, and a
32-bit counter with a futex tells the receiver about them. Or they are framed and pushed through a Unix domain socket. A
small RPC layer on top gives calls an id and finds the callback for each response.

This project models those parts and proves what they keep, over every run and every interleaving:

- **The allocator** (`Allocator`) is a class over an array of 8-byte words that does what `src/shmem/allocator.c` does, tag by
  tag and link by link. Each operation is proved against a function on a sequence of blocks and a free list (`Heaps`); the
  invariant `Region.Holds` says that the words lay out exactly that heap, and `RegionReads.ReadsHeap` that the words
  determine it. Theorems about whole runs (`HeapRuns`, `HeapBounds`) and about the choice of blocks and the order of the
  list (`HeapOrder`) are proved of the functions, and any row of calls on the class is such a run (`AllocatorExecution`).
- **The message arena** appears twice. `ShmArena` is `src/shmem/transport_shm.c` in place on the allocator's array. `ShmProtocol`
  is the interleaving machine: any number of senders and one receiver, each critical section one step, and each unlocked
  access (the counter's load, the read of the list's head, increment, decrement, wake) a step of its own. Both are made of
  the same functions and allocator contracts (`ShmSteps`), and the calls of the one are runs of the other
  (`ShmExecution`). The invariant is `ShmProtocol.Inv`; what follows for the program's
  own variables is in `ShmTheorems` and `ShmDelivery`.
- **The stream transport** (`UdsTransport`) is the queue, the write loop and the resumable receiver of
  `src/uds/transport_uds.c`, with the write events of `src/uds/event_manager_uds.c` (`UdsEvents`). The socket may move any
  number of bytes per call or fail; each operation is proved to do exactly what the socket's replies demand. Queue and
  stream are functions of the history of messages and replies (`UdsHistory`), about which the refinement is proved, and
  the two ends together deliver what was sent.
- **The registry of calls** (`Rpc`, `RpcLog`) is proved against a log of what happened to it.

Offsets and sizes in the shared region are counted in 8-byte words: everything in the program is aligned to 8 bytes, so
word `o` is byte offset `8 * o`. The constants in `Layout` and `ShmSteps` are the program's, divided by 8.

## Where code and intention differ

- *Freeing the block that ends at the region's end.* `allocator_free` looks for a right neighbour at an offset that the
  bounds assertion in `allocator_offset_to_block` (src/shmem/allocator.c:207) rejects. By then every write has been done,
  but the lock is held. `Allocator.Free` returns `completed`, which is false for exactly that block;
  `AllocatorFacts.LastBlockTaken` shows a first allocation that is already such a block. The resulting heap is the one
  with "no right neighbour", so that everything else proved about freeing covers this case too. In the interleaving
  machine that is the only way to stop (`StopsOnlyAtLastBlock`).
- *The size test in `allocator_create`* (src/shmem/allocator.c:126) is meant to leave room for one block. It lets through
  regions that cannot hold the first block's tags (`CreateTestTooWeak`); for the tags it is enough exactly if messages
  have more than 40 bytes (`TagsFitIff`). For a block with a message in it the test is not enough at any message size
  (`CreateTestNeverEnough`): the first allocation fails exactly if the region without its header is smaller than such a
  block (`FirstAllocFailsIff`).
- *The comments call the search best fit;* the loop stops at the first block that fits (`HeapOrder.TakesFirstFit`).
- *`free_size`* is not updated by `allocator_trim`, and a trim does not join its remainder to a free neighbour.
  `FreeSizeCell` says what the cell holds, `HeapRuns.RunKeeps` how many free neighbours there can be.
- *A header that the socket takes only in part* counts as sent (src/uds/transport_uds.c:129-137). The stream stays a
  sequence of frames exactly if that never happens (`UdsHistory.StreamIsFrames`, with `ShortHeader` a case in which it
  does).
- *After a failed `send`* no write event is asked for again. Over every run one is waited for exactly while messages are
  queued and no `send` has failed (`UdsEvents.ArmedExactly`); from the first failure on nothing is written any more, and
  the queue only grows (`StuckForEver`, with `RefusalSticks` a run in which that happens).
- *Empty bodies and bodies of 2^32 bytes and more* do not fit the stream's protocol: the first block the stream for ever
  (`BlocksForever`), the lengths of the others are cut off (`HeaderRoundTrip`). No writer of this repository produces
  them: a body is a BSON document that starts as five bytes (src/message_writer.c:7-9) and whose length is a 32-bit
  number (src/document_writer.c:50).
- *The registry keys entries by the low 32 bits of their ids.* Lookup agrees with the full ids if and only
  if no other live id has the same key (`LookupExact`): always in windows of up to 2^32 and in no wider ones
  (`WindowExact`). With two such ids one response fires the wrong callback, in whatever order the table keeps its
  entries (`WrongCallback`).

## Model

| member | source | states |
|---|---|---|
| HeapRuns.RunKeeps | src/shmem/allocator.c:21-408 | over every run of alloc, free and trim the blocks tile the region, the list visits exactly the free blocks, each once, and neighbouring free pairs never outnumber the trims that split |
| HeapRuns.NoFreeNeighbours | src/shmem/allocator.c:333-355 | runs without trims never leave two free blocks side by side |
| HeapRuns.AllFreed | src/shmem/allocator.c:279-355 | once every allocation of a run is freed, at most T + 1 blocks are left, where T is how many trims have split a block; with T = 0 the region is in its first state again |
| HeapRuns.RunSizes | src/shmem/allocator.c:266-268 | over every run allocated blocks are less than 104 bytes larger than a request, and no smaller than the smallest size requested or trimmed to |
| HeapBounds.AllocFailsIff | src/shmem/allocator.c:240-261 | an allocation fails if and only if every free block is too small |
| HeapBounds.FragmentationBound | src/shmem/allocator.c:236-272 | if after any run an allocation of `a` words fails with L live blocks and T trims that split, the region without its header has at most L(a+12) + (L+1+T)(a-1) words |
| HeapBounds.FreshCapacity | src/shmem/allocator.c:146-161 | a fresh region serves a row of exactly `Capacity` allocations, and the next one fails |
| HeapBounds.CapacityIsQuotientIff | src/shmem/allocator.c:369-372 | that is the quotient of the sizes for all regions if and only if a request takes at least 104 bytes |
| HeapBounds.SmallCapacity | src/shmem/allocator.c:369-372 | for smaller requests: none if the region is smaller than one, one below 104 bytes, and otherwise one more than fit into the region less 104 bytes |
| HeapBounds.SplitsInBytes | src/shmem/allocator.c:19-19 | a block is split for a payload exactly if it has room for the aligned payload, 40 bytes of tags and another 104 bytes |
| HeapBounds.ThresholdSeen | src/shmem/allocator.c:369-372 | a region of 248 bytes serves two messages of 64 bytes, one of 240 bytes only one |
| HeapLive.AllocLive | src/shmem/allocator.c:231-277 | an allocation adds exactly one live block, large enough and less than 104 bytes too large, and none of its words was in use |
| HeapLive.FreeLive | src/shmem/allocator.c:279-302 | freeing takes away exactly the freed block |
| HeapLive.TrimLive | src/shmem/allocator.c:357-397 | trimming replaces exactly the trimmed block by its shortened self |
| HeapOrder.TakesFirstFit | src/shmem/allocator.c:240-254 | an allocation takes a block if and only if it is large enough and none before it on the list is |
| HeapOrder.FreeOrder | src/shmem/allocator.c:297-354 | after a free the list is the freed block and then the old list in its order, less the offsets at which no free block starts any more: a block that grows keeps its place |
| HeapOrder.FreeBoundaries | src/shmem/allocator.c:333-355 | a free removes exactly the boundaries between the block and its free neighbours |
| HeapOrder.AllocOrder | src/shmem/allocator.c:263-272 | after an allocation the remainder, if at least 104 bytes were left, heads the list, and the rest of it stands as before |
| HeapOrder.TrimOrder | src/shmem/allocator.c:369-391 | a trim cuts a block with at least 104 bytes too many, and no other; the remainder heads the list and the rest of it stands as before |
| HeapInvariants.AllocKeeps | src/shmem/allocator.c:263-272 | an allocation keeps tiling and free list |
| HeapInvariants.FreeKeeps | src/shmem/allocator.c:297-299 | freeing and joining keep tiling and free list |
| HeapInvariants.TrimKeeps | src/shmem/allocator.c:379-391 | trimming keeps tiling and free list |
| HeapCounts.TrimCounts | src/shmem/allocator.c:383-391 | a trim frees exactly what it splits off and adds a free pair exactly if a free block follows |
| HeapCounts.FreeCounts | src/shmem/allocator.c:333-355 | freeing adds the block's words to the free ones and no free pair |
| HeapCounts.TakeCounts | src/shmem/allocator.c:266-272 | an allocation takes exactly its block's words out of the free ones and adds no free pair |
| Region.PushHolds | src/shmem/allocator.c:21-34 | after writing the tags and the two links, the words hold the heap with the block at the list's head, and every other allocated block is untouched |
| Region.UnlinkHolds | src/shmem/allocator.c:36-72 | after bending one link and writing the tags, the words hold the heap without the block on the list |
| Region.MergeHolds | src/shmem/allocator.c:340-346 | after writing the outer tags, the words hold the heap with the two blocks joined |
| Region.TrimHolds | src/shmem/allocator.c:379-391 | after a cut the words hold the heap with the block split, and what is left of its payload is as it was |
| Region.JoinHolds | src/shmem/allocator.c:348-354 | unlinking a free neighbour and joining it touches no allocated block |
| Region.PayloadWrite | src/shmem/allocator.c:276-276 | a client's write to its payload disturbs neither the heap nor any other block |
| RegionReads.ReadsHeap | src/shmem/allocator.h:27-58 | walking headers forwards, footers backwards and links gives the heap; the list ends |
| RegionReads.OneHeap | src/shmem/allocator.h:27-58 | the words hold at most one heap |
| AllocatorFacts.FreeSizeCell | src/shmem/allocator.c:272-295 | `free_size` is the free words less those split off by public trims, modulo 2^64 bytes, and exact if and only if that amount is 0 modulo 2^64 |
| AllocatorFacts.LeftEdge | src/shmem/allocator.c:304-316 | the word in front of the first block is the list's head, and right after the push its low half is not the FREE tag |
| AllocatorFacts.LastBlockTaken | src/shmem/allocator.c:318-330 | an allocation that takes the region's last block, whose free runs into the assertion |
| Allocator.CreateTestTooWeak | src/shmem/allocator.c:125-130 | a region that passes the test and cannot hold the first block |
| Allocator.TagsFitIff | src/shmem/allocator.c:125-130 | the test is enough for the first block's tags if and only if messages have more than 40 bytes |
| AllocatorFacts.FirstAllocFailsIff | src/shmem/allocator.c:231-261 | the first allocation in a region fails if and only if the region without its header is smaller than a block with the largest message |
| AllocatorFacts.CreateTestNeverEnough | src/shmem/allocator.c:125-130 | at every message size some region passes the test and cannot hold the first block or serves no allocation |
| Allocator.FreeSound | src/shmem/allocator.c:294-299 | a free keeps the allocator's invariant, the count of free words included |
| Allocator.UseSound | src/shmem/allocator.c:265-272 | so does an allocation |
| Allocator.TrimSound | src/shmem/allocator.c:379-391 | so does a trim, which leaves the count behind by what it splits off |
| Allocator.Allocator.Attach | src/shmem/allocator.c:166-187 | attaching to a region that holds a heap |
| Allocator.Allocator.Create | src/shmem/allocator.c:138-163 | the five header words are written as in the source, and the region holds one free block, all of it counted as free |
| Allocator.Allocator.WriteBlockTags | src/shmem/allocator.c:217-229 | writes size and type (0 for free, 1 for allocated) in the first and the last two words of a block and nothing else |
| Allocator.Allocator.AddFreeBlock | src/shmem/allocator.c:21-34 | marks a block free and puts it at the head of the list: its third word is the old head, the region's fifth the block |
| Allocator.Allocator.FindLink | src/shmem/allocator.c:46-71 | finds the word that links to a listed block; the search cannot fall off the list |
| Allocator.Allocator.RemoveFreeBlock | src/shmem/allocator.c:36-72 | takes a block off the list and marks it allocated |
| Allocator.Allocator.TrimBlock | src/shmem/allocator.c:357-397 | splits the block if at least 104 bytes remain, and only then; keeps the payload in front of the cut and heads the list with the remainder |
| Allocator.Allocator.CutBlock | src/shmem/allocator.c:379-391 | writes the tags of both parts and hooks the right one into the list |
| Allocator.Allocator.PrevAdjacentFreeBlock | src/shmem/allocator.c:304-316 | finds the free left neighbour, and none for the first block |
| Allocator.Allocator.NextAdjacentFreeBlock | src/shmem/allocator.c:318-330 | finds the free right neighbour, and stops exactly for the last block |
| Allocator.Allocator.Join | src/shmem/allocator.c:340-346 | the left block swallows its free neighbour, which leaves the list |
| Allocator.Allocator.CoalesceFreeBlocks | src/shmem/allocator.c:333-355 | joins the block to its free neighbours, to the left first |
| Allocator.Allocator.WalkList | src/shmem/allocator.c:240-254 | the loop finds what first fit finds; every offset it follows is inside the region |
| Allocator.Allocator.FindFit | src/shmem/allocator.c:240-254 | the first block on the list that is large enough, if there is one |
| Allocator.Allocator.UseBlock | src/shmem/allocator.c:265-272 | takes the block, splits it and counts its words as used |
| Allocator.Allocator.FinishAlloc | src/shmem/allocator.c:270-272 | writing the tags again changes nothing; the count wraps as `size_t` does |
| Allocator.Allocator.PushFreed | src/shmem/allocator.c:294-298 | counts the words as free and puts the block on the list |
| Allocator.Allocator.Alloc | src/shmem/allocator.c:231-277 | hands out the payload, three words into the first block on the list that is large enough, cut to size; the list keeps its order, and every allocated block is untouched |
| Allocator.Allocator.Free | src/shmem/allocator.c:279-302 | frees the block and joins it to its neighbours; the list is the block followed by what is left of the old list, in its order; completes unless it is the region's last |
| Allocator.Allocator.Trim | src/shmem/allocator.c:399-408 | cuts an allocation down, keeping its payload and every other block |
| AllocatorExecution.Perform | src/shmem/allocator.c:231-408 | one call on the allocator is one step of a run; it completes unless it frees the region's last block |
| AllocatorExecution.Execute | src/shmem/allocator.c:231-408 | any row of calls leaves the heap of the run of those made: all of them, or those up to the first that does not complete |
| AllocatorExecution.ExecuteFresh | src/shmem/allocator.c:115-408 | so does one on a new allocator, and the run starts from the fresh region |
| ShmArena.Arena.constructor | src/shmem/transport_shm.c:98-102 | a new arena has an empty list and one free block |
| ShmArena.Arena.AllocBlock | src/shmem/transport_shm.c:251-255 | the allocator's contract is the allocation step of the protocol |
| ShmArena.Arena.InitMessage | src/shmem/transport_shm.c:260-262 | the first word of a new message is the arena's message size, the second NULL |
| ShmArena.Arena.MessageInit | src/shmem/transport_shm.c:245-268 | allocates a block and sets up the message header in it, size and link, or allocates nothing |
| ShmArena.Arena.Finish | src/shmem/transport_shm.c:280-283 | sets the size and trims the block to it |
| ShmArena.Arena.Append | src/shmem/transport_shm.c:287-306 | the locked section of sending is the protocol's append |
| ShmArena.Arena.Count | src/shmem/transport_shm.c:308-308 | counts a message in, modulo 2^32 |
| ShmSteps.CountsBack | src/shmem/transport_shm.c:308-346 | counting a message in and counting it out are inverse, also where the counter wraps around |
| ShmArena.Arena.MessageSend | src/shmem/transport_shm.c:270-308 | sending is size, trim, append and count, in this order |
| ShmArena.Arena.MessageReceive | src/shmem/transport_shm.c:316-355 | receiving takes the head off the list and counts it out, if the counter is not zero; the message is at the head's offset less the arena's header of 32 bytes |
| ShmArena.Arena.MessageRelease | src/shmem/transport_shm.c:357-372 | releasing frees the message's block |
| ShmExecution.InitSteps | src/shmem/transport_shm.c:245-268 | a call of message_init is the steps Alloc and Init of the interleaving machine |
| ShmExecution.SendSteps | src/shmem/transport_shm.c:270-308 | a call of message_send is SetSize, Trim, Append and Count |
| ShmExecution.ReceiveSteps | src/shmem/transport_shm.c:316-355 | a call of message_receive is Load, ReadHead, Unlink and Uncount |
| ShmExecution.ReleaseSteps | src/shmem/transport_shm.c:357-372 | a call of message_release is Release, which stops the machine exactly if the block is the region's last |
| ShmExecution.DeliverOne | src/shmem/transport_shm.c:245-372 | creating an arena, writing, sending, receiving, reading and releasing is a run of the machine, and the word read is the word written |
| ShmTheorems.StepKeeps | src/shmem/transport_shm.c:245-372 | every step of every sender and of the receiver keeps the invariant |
| ShmTheorems.RunKeeps | src/shmem/transport_shm.c:245-372 | so it holds in every state of every run |
| ShmTheorems.OnePlace | src/shmem/transport_shm.c:245-372 | after any number of steps every allocated block is in exactly one place: with a writer, on the list, with the reader, or its writer was cancelled |
| ShmTheorems.NeverFreed | src/shmem/message_writer_shm.c:38-41 | the block of a cancelled writer stays allocated for ever |
| ShmTheorems.OneHolder | src/shmem/transport_shm.c:262-300 | no block has two writers or is on the list twice |
| ShmTheorems.InUse | src/shmem/transport_shm.c:357-372 | what writers, list and reader refer to is allocated, so nothing is freed twice or reallocated while in use |
| ShmTheorems.NothingLeaks | src/shmem/message_writer_shm.c:38-41 | when all is sent and released, the allocated blocks are exactly those whose writer some step cancelled |
| ShmTheorems.WriterHeader | src/shmem/transport_shm.c:260-268 | in every state of every run an open writer finds the arena's message size in its message's header, has that much room, and no link |
| ShmTheorems.NoWaste | src/shmem/transport_shm.c:280-283 | over every run the block of every message sent is at most 103 bytes larger than the message with its header and tags |
| ShmTheorems.StopsOnlyAtLastBlock | src/shmem/transport_shm.c:288-369 | in every run the non-NULL assertion and the bounds assertions on message offsets never fail; the program stops if and only if the block of a released message is the region's last |
| ShmTheorems.HeadStands | src/shmem/transport_shm.c:330-338 | the head read without the lock is still the head when it is unlinked under the lock |
| ShmTheorems.NoLostWakeUp | src/shmem/event_manager_shm.c:77-111 | if the receiver sleeps on a non-zero counter, some sender has counted its message and is about to wake it |
| ShmDelivery.CounterBalance | src/shmem/transport_shm.c:308-346 | list length plus the message just unlinked is the counter plus the messages about to be counted; the counter has not wrapped |
| ShmDelivery.FirstInFirstOut | src/shmem/transport_shm.c:287-346 | what was unlinked, followed by the list in memory, is what was appended, in that order; `last` is the end of the list |
| ShmDelivery.EndToEnd | src/shmem/transport_shm.c:280-353 | every message in the reader's hands has the size and the words its sender had composed when it set the size, up to the release |
| ShmInvariants.TrimKeepsInv | src/shmem/transport_shm.c:283-283 | trimming a message keeps its words |
| ShmInvariants.AllocKeepsInv | src/shmem/transport_shm.c:251-255 | an allocation disturbs no message being written, queued or read |
| ShmQueue.AppendKeeps | src/shmem/transport_shm.c:287-306 | appending links the message behind the last one and disturbs nothing else |
| ShmQueue.UnlinkKeepsInv | src/shmem/transport_shm.c:336-345 | unlinking moves exactly the oldest message from the list to the reader |
| ShmQueue.ReleaseKeeps | src/shmem/transport_shm.c:369-369 | releasing disturbs no other message |
| UdsFrames.HeaderRoundTrip | src/uds/transport_uds.h:15-20 | a header is 0x42 and the low 32 bits of the length, lowest byte first, and gives back the length if and only if it fits in 32 bits |
| UdsFrames.LengthIsLittleEndian | src/uds/transport_uds.c:191-193 | the length read from any header is the number its last four bytes stand for, lowest byte first |
| UdsHistory.StreamIsFrames | src/uds/transport_uds.c:115-164 | for every history of messages and replies of the socket: stream and queue make up the frames of all messages if and only if every header offered was refused with an error or taken whole |
| UdsHistory.ShortHeader | src/uds/transport_uds.c:129-137 | one byte of a header taken, and they do not |
| UdsHistory.HistoryRefines | src/uds/transport_uds.c:115-164 | in every history the stream falls short of the frames by exactly the header bytes left behind; only the head of the queue may have its header sent, the others are whole |
| UdsHistory.WholeReplies | src/uds/transport_uds.c:129-137 | a socket that takes offers of a header's length whole, or not at all, keeps headers whole, however it cuts up bodies |
| UdsHistory.WritesReplay | src/uds/transport_uds.c:115-164 | a call of the write loop, turn by turn, continues the history by its replies and leaves the queue that this history amounts to |
| UdsHistory.TookAllWrites | src/uds/transport_uds.c:115-164 | if the socket takes all it is offered, one call puts exactly what was pending on the stream and returns 0 |
| UdsQueue.PushRefines | src/uds/transport_uds.c:94-104 | a new message adds its frame behind everything pending |
| UdsQueue.HeaderRefines | src/uds/transport_uds.c:126-138 | sending a header, whole or in part, moves those bytes to the stream and loses the rest |
| UdsQueue.BodyRefines | src/uds/transport_uds.c:140-158 | sending part of a body moves exactly those bytes from the queue to the stream |
| UdsQueue.WritesLeaves | src/uds/transport_uds.c:115-164 | the write loop returns -1 or the number of messages left; it stops early only with an error of the last `send` or a body of which that took a part, the rest being the queue's head |
| UdsEvents.RefusedIff | src/uds/transport_uds.c:131-148 | the loop returns -1 if and only if some `send` did |
| UdsEvents.ArmedExactly | src/uds/event_manager_uds.c:107-121 | in every state of every run a write event is waited for if and only if messages are queued and no `send` has failed |
| UdsEvents.StuckForEver | src/uds/event_manager_uds.c:107-121 | after a failed `send` no write event ever completes again, and all that is queued stays there |
| UdsEvents.RefusalSticks | src/uds/transport_uds.c:99-102 | for any two messages: the first is refused, and the second finds a queue that is not empty and is never written either |
| UdsTransport.Transport.MessageInit | src/uds/transport_uds.c:59-80 | a writer is given out if and only if the queue is below its limit |
| UdsTransport.Transport.MessageCancel | src/uds/message_writer_uds.c:38-42 | the writer is gone and nothing is queued |
| UdsTransport.Transport.MessageSend | src/uds/transport_uds.c:82-113 | the message is queued, and a write event asked for if the queue was empty: a step of the runs of `UdsEvents`; the queue stays below the limit plus the number of open writers |
| UdsTransport.Transport.SendHeader | src/uds/transport_uds.c:126-138 | offers the header; whatever part is taken is on the stream, the rest is left behind for good, and the header counts as sent |
| UdsTransport.Transport.SendBody | src/uds/transport_uds.c:140-158 | offers what is left of the body; the message leaves the queue when all of it is taken |
| UdsTransport.Transport.SendFirst | src/uds/transport_uds.c:124-161 | one turn of the loop: header if still to come, then body |
| UdsTransport.Transport.WriteMessages | src/uds/transport_uds.c:115-164 | does exactly what the replies of the socket demand, and adds exactly them to the history, of which queue and stream are functions; if the socket takes everything, the queue is empty and all of it on the stream |
| UdsTransport.Transport.HandleWriteable | src/uds/event_manager_uds.c:107-121 | writes, adds exactly the socket's replies to the history, and asks for another event exactly if something is left and nothing failed: a step of those runs |
| UdsTransport.Transport.MessageReceive | src/uds/transport_uds.c:166-217 | does exactly what the replies of the socket demand: peek, pop, check the magic, read on; it moves by what `recv` took, past the header whenever a peek shows all of it, and calls that bad exactly if the magic is wrong |
| UdsTransport.Transport.ReceiveBody | src/uds/transport_uds.c:198-214 | appends what the socket gives, and delivers the message when it is complete |
| UdsTransport.Transport.MessageRelease | src/uds/transport_uds.c:219-231 | the next message can be read |
| UdsIntake.TakesInStep | src/uds/transport_uds.c:166-217 | however the bytes arrive, the magic is right and what is delivered is the next message sent |
| UdsIntake.IntakeMoves | src/uds/transport_uds.c:175-214 | every such call moves by the bytes its calls of `recv` took; a whole header is always passed, a part of one never |
| UdsIntake.NextReceived | src/uds/transport_uds.c:175-214 | if every `recv` gives what it is asked for, a call delivers the next message |
| UdsIntake.RoundsReceive | src/uds/transport_uds.c:166-231 | then n calls, each with a release, deliver the next n messages: as many as were sent deliver them all |
| UdsIntake.FrameThere | src/uds/transport_uds.c:178-201 | with a whole frame on the stream every `recv` can give what it is asked for |
| UdsIntake.BlocksForever | src/uds/transport_uds.c:198-216 | while a complete message is not released no later call reads or delivers anything; an empty message is complete from the start |
| UdsIntake.AllDelivered | src/uds/transport_uds.c:166-217 | when everything is written and read, everything has been delivered |
| UdsTransport.Connection.Write | src/uds/transport_uds.c:115-164 | writing adds exactly the socket's replies to the history and keeps the receiver in step with the sender unless they take a header in part |
| UdsTransport.Connection.Send | src/uds/transport_uds.c:82-113 | so does queueing a message |
| UdsTransport.Connection.Receive | src/uds/transport_uds.c:166-217 | if the replies to the sender took no header in part, the delivered messages are a prefix of the sent ones and the magic never fails, for every chunking; if every `recv` gives what it is asked for, the next message is delivered |
| Rpc.IdsDiffer | src/rpc.c:10-13 | ids are different unless a multiple of 2^64 has been given out in between |
| Rpc.Rpc.NextId | src/rpc.c:10-13 | a new id, used by no registered call and no open writer |
| Rpc.Rpc.SendMessage | src/rpc.c:31-41 | a one-way message takes an id and is not registered |
| Rpc.Rpc.Wrap | src/rpc.c:57-88 | takes an id if the transport has a writer |
| Rpc.Rpc.Send | src/rpc.c:90-115 | registers the call if and only if the transport's result is 0 |
| Rpc.Rpc.HandleIncoming | src/rpc.c:179-217 | without aliases a response fires exactly the callback registered with its id, if that is live, and retires a call; anything else is passed on |
| Rpc.RespondsRight | src/rpc.c:181-185 | an entry with the key fires its own callback, which without aliases is the one that waits for the id |
| Rpc.Rpc.Destroy | src/rpc.c:229-240 | frees every entry |
| Rpc.TableHolds | src/rpc.c:102-191 | the table holds exactly the unanswered calls and every sent subscription, each with its callback under its key |
| RpcLog.LookupExact | src/rpc.c:181-181 | the 32-bit key finds what the full id would, whichever of several entries it meets, if and only if no other live id has that key |
| RpcLog.LookupAgrees | src/rpc.c:181-181 | so it does with all live ids less than 2^32 away from the incoming one |
| RpcLog.WindowsUnaliased | src/rpc.c:179-200 | and over every run in such windows |
| RpcLog.WindowExact | src/rpc.h:29-36 | every lookup of ids from a window is right if and only if the window is no wider than 2^32 |
| RpcLog.WrongCallback | src/rpc.h:29-36 | of two calls 2^32 ids apart, with any callbacks, one response fires the other's callback, in whatever order the table keeps its entries |
| RpcLog.OneGoesWrong | src/rpc.c:181-181 | so for any two live ids with one key |
| RpcLog.FiresAsAnswered | src/rpc.c:179-200 | without aliases the responses to an id fire the callback registered with it and no other: a call's once if it is answered and not otherwise, a subscription's once per response |
| RpcLog.LiveIsRegistered | src/rpc.c:102-108 | what is live was registered with that kind and that callback |

## Left out

- The futex lock loops of allocator and arena (src/shmem/allocator.c:74-113, src/shmem/transport_shm.c:24-63): each critical section is one step. That they exclude each other is assumed, not proved: a failed compare-exchange stores into its `expected` object (section 7.17.7.4 of ISO/IEC 9899:2011), and `zero` is declared outside the loop. So the lock's word stays 0 in the model, also where the program stops holding it.
- A second receiver on an arena: the head is read without the lock, and the code's own comment concedes the race. One receiver is assumed throughout `ShmProtocol`.
- Regions in which 2^32 messages fit at once (192 GiB and more): `ShmProtocol.Start` excludes them, because there the 32-bit counter could wrap to zero.
- Regions whose size is no multiple of 8 bytes, and the 32-bit width of the type tags: a tag is a whole word here.
- ShmSteps.Frees: the heap it describes for the region's last block is the one without a right neighbour, as the words are when the program stops there; `ShmProtocol` lets nothing happen after that, although processes that do not need the allocator's lock would go on.
- Allocator.Allocator.Create: requires room for one block's tags, which the program's test does not guarantee.
- Allocator.Allocator.Trim: sizes near 2^64, for which payload plus tags would wrap around, are excluded.
- ShmArena.Arena.MessageSend: one process at a time, without the wake-up; interleavings are the business of `ShmProtocol`.
- Rpc.Rpc.Send: sending and registering are one step, so that a response on another thread cannot come in between; so are finding, calling and deleting in `HandleIncoming`.
- Which of several entries with equal keys the hash table finds: any of them may be.
- Failing `malloc`, including of zero bytes; the bodies are sequences, so that freeing the advanced pointer (src/uds/transport_uds.c:150-156) does not show.
- A `recv` that returns less than the preceding peek (src/uds/transport_uds.c:178-185): bytes that were seen are taken to be there.
- Read events, and the io_uring rings, memory mappings, file descriptors and logs around everything.
- The BSON documents (src/document.c, src/document_writer.c, src/array_writer.c, src/message.c, src/message_writer.c): a body is a sequence of words or bytes. libbson is not part of this model.
- RPC cancel, which calls itself through src/message_writer.c:47-52, and the encoding of the RPC header, which depends on libbson.
- src/peer.c, the performance programs and the tests.
