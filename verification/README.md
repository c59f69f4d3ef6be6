# Verification of the Wayland library's core

The repository carries libwayland: the library through which a display server and its
clients talk. This project models its hard parts in Dafny and proves what they are for.
The files are independent modules that build on one another:

* **Timers** (`Timespec`, `HeapOrder`, `TimerHeap`, `TimerDispatch`): the indexed heap of
  the event loop with its moving hole, batch expiry while callbacks change timers, and the
  one kernel timer that must never be late.
* **Object maps** (`IdMap`, `ObjectMap`): tables of tagged words with a free list threaded
  through them, refining a pair of abstract tables.
* **Connection** (`Powers`, `RingBuffer`, `FdRing`, `Reading`, `Sender`, `Connection`): ring buffers with
  free-running counters, resizing, reading, and a flush loop that mixes bytes with file
  descriptors so that none comes after its message.
* **Messages** (`Bytes`, `Signature`, `Wire`, `Closure`, `Demarshal`, `Stream`, `Delivery`, `Sending`, `Receiving`):
  serialising and demarshalling, and from end to end the stream of messages in any
  fragments, with those that are dropped because their object is gone.
* **Ids** (`Zombie`, `IdProtocol`): two peers that reuse ids over two queues, as a
  transition system over every interleaving.
* **Reader protocol** (`ReaderProtocol`) and **proxy lifetime** (`ProxyLifetime`): threads
  that share a socket, and reference counts held by queued events.
* **Signals** (`LinkedList`, `Signal`, `PrivSignal`), **globals** (`Globals`), **scanner** (`Scanner`) and
  **shared memory** (`ShmPool`).

What the source changes in place is a class whose methods are proved against a function of
the old state; what it promises is then proved about that function over all runs. `sendmsg`,
`recvmsg`, `mremap`, the clock, memory and what handlers do are inputs of the model: a
proof holds for all of them. `Options` holds the one type they share.

Where the code and its own words differ, the model follows the code:

* `timespec_add` tests its carry with `>`, so a sum can have 1000000000 nanoseconds:
  `TimespecAddNormalIff` says when.
* The message size has 16 bits: `HeaderSizeIff` says when it is read back. The receiver
  takes up to 4096 bytes, so streams are of such messages.
* Reading stops when the stored size plus one reaches a power of two, so a message of 4096
  bytes whose last byte comes late is never buffered whole: `ReadsOnIff` says exactly when
  reading goes on, and `LastByteNeverComes` gives such a read.
* Words behind the last argument of a message are ignored: `DecodedIsEncoded` names them.
* Validation nulls an argument without giving its reference back: the count of a proxy is
  exact only with those references, and `LeakedArgument` shows one.
* An id taken by `wl_proxy_create` and announced after a higher one is refused by the
  server, which ends the connection: `RefusedIffOutOfSequence` says exactly when, and
  `OutOfSequenceIsRefused` gives such a run.
* The size of a message is an integer of 32 bits: from 2 GiB on `SerializeClosure` fails
  or returns fewer bytes than it wrote.
* A `withdrawn` callback set too late never runs: `LateCallback` gives the run.
* A version of 0 passes the scanner's checks, and reads back as 1.
* The message of the scanner says that arrays may be nullable; its check refuses them.

## Model

| member | source | states |
|---|---|---|
| `Timespecs.TimeLtIsInstantOrder` | zig-pkg/N-V-__8AAA46JQABKU7sa-6xGUAN44uFsYSUS_w79UVuu7qo/src/event-loop.c:251-258 | on normalised times the field-wise comparison orders instants, both ways |
| `Timespecs.Deadline` | zig-pkg/N-V-__8AAA46JQABKU7sa-6xGUAN44uFsYSUS_w79UVuu7qo/src/event-loop.c:620-630 | the deadline is the given number of milliseconds after now, normalised, and later than now |
| `Timespecs.TimespecAddNormalIff` | zig-pkg/N-V-__8AAA46JQABKU7sa-6xGUAN44uFsYSUS_w79UVuu7qo/src/timespec-util.h:281-291 | the sum of two normalised times is the right instant, and is normalised exactly if the nanoseconds do not add up to one full second (the carry test is strict) |
| `Timespecs.TimespecAddHalves` | zig-pkg/N-V-__8AAA46JQABKU7sa-6xGUAN44uFsYSUS_w79UVuu7qo/src/timespec-util.h:281-291 | the concrete sum that is not normalised |
| `TimerHeaps.TimerHeap.HeapSet` | zig-pkg/N-V-__8AAA46JQABKU7sa-6xGUAN44uFsYSUS_w79UVuu7qo/src/event-loop.c:373-385 | stores a timer at a place and tells the timer that place; every other place stays |
| `TimerHeaps.TimerHeap.SiftUp` | zig-pkg/N-V-__8AAA46JQABKU7sa-6xGUAN44uFsYSUS_w79UVuu7qo/src/event-loop.c:421-440 | restores heap order from a timer that may be too early for its place; indices agree with places, and no timer becomes armed or disarmed |
| `TimerHeaps.TimerHeap.EarlierChild` | zig-pkg/N-V-__8AAA46JQABKU7sa-6xGUAN44uFsYSUS_w79UVuu7qo/src/event-loop.c:399-410 | picks the child with the earlier deadline, of one or two |
| `TimerHeaps.TimerHeap.SiftDown` | zig-pkg/N-V-__8AAA46JQABKU7sa-6xGUAN44uFsYSUS_w79UVuu7qo/src/event-loop.c:387-419 | sinks a timer until its children are not earlier; either the array is as it was or the whole heap is in order |
| `TimerHeaps.TimerHeap.Arm` | zig-pkg/N-V-__8AAA46JQABKU7sa-6xGUAN44uFsYSUS_w79UVuu7qo/src/event-loop.c:474-488 | adds exactly this timer with this deadline to the armed ones; heap order, indices and active <= count <= space hold |
| `TimerHeaps.TimerHeap.Disarm` | zig-pkg/N-V-__8AAA46JQABKU7sa-6xGUAN44uFsYSUS_w79UVuu7qo/src/event-loop.c:442-472 | takes exactly this timer off, wherever it is; the others keep their deadlines, and the heap is in order after both siftings |
| `TimerHeaps.TimerHeap.Reserve` | zig-pkg/N-V-__8AAA46JQABKU7sa-6xGUAN44uFsYSUS_w79UVuu7qo/src/event-loop.c:334-353 | grows the space exactly when the count reaches it; what is armed stays; a failed allocation changes nothing |
| `TimerHeaps.TimerHeap.Unreserve` | zig-pkg/N-V-__8AAA46JQABKU7sa-6xGUAN44uFsYSUS_w79UVuu7qo/src/event-loop.c:355-371 | shrinks the space by the rule of the source and never below the armed timers |
| `TimerHeaps.TimerHeap.AddTimer` | zig-pkg/N-V-__8AAA46JQABKU7sa-6xGUAN44uFsYSUS_w79UVuu7qo/src/event-loop.c:564-595 | the abstract effect of adding a timer; a new timer is disarmed and nothing else changes |
| `TimerHeaps.TimerHeap.Reschedule` | zig-pkg/N-V-__8AAA46JQABKU7sa-6xGUAN44uFsYSUS_w79UVuu7qo/src/event-loop.c:632-640 | an armed timer gets a new deadline in place, sifting up if earlier and down otherwise; order and the other deadlines hold |
| `TimerHeaps.TimerHeap.RootIsEarliest` | zig-pkg/N-V-__8AAA46JQABKU7sa-6xGUAN44uFsYSUS_w79UVuu7qo/src/event-loop.c:373-440 | of an ordered heap the first timer has the earliest armed deadline |
| `TimerHeaps.TimerHeap.UpdateTimer` | zig-pkg/N-V-__8AAA46JQABKU7sa-6xGUAN44uFsYSUS_w79UVuu7qo/src/event-loop.c:613-662 | the abstract effect of an update, for arming, re-arming and disarming; a kernel timer that was not late is not late afterwards, although most updates do not touch it |
| `TimerHeaps.TimerHeap.RemoveTimer` | zig-pkg/N-V-__8AAA46JQABKU7sa-6xGUAN44uFsYSUS_w79UVuu7qo/src/event-loop.c:831-859 | the timer is disarmed, leaves the live ones, and is marked so that a running dispatch skips it |
| `HeapOrder.StepUp` | zig-pkg/N-V-__8AAA46JQABKU7sa-6xGUAN44uFsYSUS_w79UVuu7qo/src/event-loop.c:421-440 | moving a parent down into the hole keeps the order around the hole |
| `HeapOrder.StepDown` | zig-pkg/N-V-__8AAA46JQABKU7sa-6xGUAN44uFsYSUS_w79UVuu7qo/src/event-loop.c:387-419 | moving the earlier child up into the hole keeps the order around the hole |
| `HeapOrder.RootIsLeast` | zig-pkg/N-V-__8AAA46JQABKU7sa-6xGUAN44uFsYSUS_w79UVuu7qo/src/event-loop.c:373-440 | in an ordered heap nothing is earlier than the root |
| `TimerDispatch.PopDue` | zig-pkg/N-V-__8AAA46JQABKU7sa-6xGUAN44uFsYSUS_w79UVuu7qo/src/event-loop.c:500-512 | the loop takes off exactly the timers that are due and links them in nondecreasing deadline |
| `TimerDispatch.RestIsLater` | zig-pkg/N-V-__8AAA46JQABKU7sa-6xGUAN44uFsYSUS_w79UVuu7qo/src/event-loop.c:500-512 | when the first timer is not due, none is |
| `TimerDispatch.CollectDue` | zig-pkg/N-V-__8AAA46JQABKU7sa-6xGUAN44uFsYSUS_w79UVuu7qo/src/event-loop.c:496-514 | the next_due chain ends, and lists each due timer once in order of its deadline; the rest is later than now |
| `TimerDispatch.Reprogram` | zig-pkg/N-V-__8AAA46JQABKU7sa-6xGUAN44uFsYSUS_w79UVuu7qo/src/event-loop.c:516-522 | the kernel timer is set to the new earliest deadline, or cleared |
| `TimerDispatch.RunDue` | zig-pkg/N-V-__8AAA46JQABKU7sa-6xGUAN44uFsYSUS_w79UVuu7qo/src/event-loop.c:524-530 | walking the chain while callbacks arm, disarm, add and remove timers is the recursive meaning over the list of due timers |
| `TimerDispatch.Dispatch` | zig-pkg/N-V-__8AAA46JQABKU7sa-6xGUAN44uFsYSUS_w79UVuu7qo/src/event-loop.c:491-533 | one dispatch: the due timers are exactly those with deadline at most now; callbacks run along them; if the kernel timer cannot be set, none runs |
| `TimerDispatch.LiveUnlessRemoved` | zig-pkg/N-V-__8AAA46JQABKU7sa-6xGUAN44uFsYSUS_w79UVuu7qo/src/event-loop.c:844-853 | a timer stays live under any calls exactly if none of them removes it |
| `TimerDispatch.FiredIffNotRemovedBefore` | zig-pkg/N-V-__8AAA46JQABKU7sa-6xGUAN44uFsYSUS_w79UVuu7qo/src/event-loop.c:524-530 | of the due timers, exactly those run that no earlier callback removed |
| `TimerDispatch.FiredInDeadlineOrder` | zig-pkg/N-V-__8AAA46JQABKU7sa-6xGUAN44uFsYSUS_w79UVuu7qo/src/event-loop.c:524-530 | callbacks run once each, in order of the original deadlines |
| `TimerDispatch.Run` | zig-pkg/N-V-__8AAA46JQABKU7sa-6xGUAN44uFsYSUS_w79UVuu7qo/src/event-loop.c:491-533 | in every run of calls and dispatches the heap stays consistent, and the kernel timer is never late unless setting it failed |
| `IdMaps.CallKeepsWellFormed` | zig-pkg/N-V-__8AAA46JQABKU7sa-6xGUAN44uFsYSUS_w79UVuu7qo/src/wayland-util.c:212-371 | every legal call keeps the free ids listed once each, apart from the ids in use |
| `IdMaps.InsertNewIsFresh` | zig-pkg/N-V-__8AAA46JQABKU7sa-6xGUAN44uFsYSUS_w79UVuu7qo/src/wayland-util.c:212-258 | a new id was not in use, holds what was stored with its flag, and no other id is disturbed |
| `IdMaps.InsertAtIsFound` | zig-pkg/N-V-__8AAA46JQABKU7sa-6xGUAN44uFsYSUS_w79UVuu7qo/src/wayland-util.c:261-296 | what is stored at an id is found there, and no other id changes |
| `IdMaps.RemovedIdIsReused` | zig-pkg/N-V-__8AAA46JQABKU7sa-6xGUAN44uFsYSUS_w79UVuu7qo/src/wayland-util.c:350-372 | a removed id holds nothing and is the next one handed out |
| `IdMaps.StoredUntilTouched` | zig-pkg/N-V-__8AAA46JQABKU7sa-6xGUAN44uFsYSUS_w79UVuu7qo/src/wayland-util.c:212-371 | over every legal run an id in use keeps its value and flag until it is written or removed, so it is not handed out meanwhile |
| `ObjectMaps.WordBits` | zig-pkg/N-V-__8AAA46JQABKU7sa-6xGUAN44uFsYSUS_w79UVuu7qo/src/wayland-util.c:175-196 | a word keeps its data, its flag bit and its free bit apart |
| `ObjectMaps.ChainIsVacant` | zig-pkg/N-V-__8AAA46JQABKU7sa-6xGUAN44uFsYSUS_w79UVuu7qo/src/wayland-util.c:212-258 | the free list threaded through the words visits vacant slots only, each once, and ends |
| `ObjectMaps.ObjectMap.ViewIsWellFormed` | zig-pkg/N-V-__8AAA46JQABKU7sa-6xGUAN44uFsYSUS_w79UVuu7qo/src/wayland-util.c:212-371 | what the two word arrays mean is always a well-formed pair of tables, so what is proved of those over all runs holds of the words |
| `ObjectMaps.ObjectMap.InsertNew` | zig-pkg/N-V-__8AAA46JQABKU7sa-6xGUAN44uFsYSUS_w79UVuu7qo/src/wayland-util.c:212-258 | the two word arrays with the embedded free list refine the abstract insertion, including the garbage slot left when ids run out |
| `ObjectMaps.ObjectMap.InsertAt` | zig-pkg/N-V-__8AAA46JQABKU7sa-6xGUAN44uFsYSUS_w79UVuu7qo/src/wayland-util.c:261-296 | refines the abstract insertion at an id, with its three ways to fail or append |
| `ObjectMaps.ObjectMap.ReserveNew` | zig-pkg/N-V-__8AAA46JQABKU7sa-6xGUAN44uFsYSUS_w79UVuu7qo/src/wayland-util.c:298-348 | refines the abstract reservation: the next unused id of the other side, or one that holds nothing |
| `ObjectMaps.ObjectMap.Remove` | zig-pkg/N-V-__8AAA46JQABKU7sa-6xGUAN44uFsYSUS_w79UVuu7qo/src/wayland-util.c:350-372 | refines the abstract removal: the slot goes to the front of the free list |
| `ObjectMaps.ObjectMap.Lookup` | zig-pkg/N-V-__8AAA46JQABKU7sa-6xGUAN44uFsYSUS_w79UVuu7qo/src/wayland-util.c:374-395 | finds exactly what the abstract map holds |
| `ObjectMaps.ObjectMap.LookupFlags` | zig-pkg/N-V-__8AAA46JQABKU7sa-6xGUAN44uFsYSUS_w79UVuu7qo/src/wayland-util.c:397-418 | finds exactly the flag the abstract map holds |
| `Powers.MaskedHead` | zig-pkg/N-V-__8AAA46JQABKU7sa-6xGUAN44uFsYSUS_w79UVuu7qo/src/connection.c:85-94 | masking a wrapped 64-bit counter gives the place as many bytes behind the masked tail as are stored |
| `Powers.LowIsRemainder` | zig-pkg/N-V-__8AAA46JQABKU7sa-6xGUAN44uFsYSUS_w79UVuu7qo/src/connection.c:93-93 | masking keeps the low bits, which are the remainder modulo the size |
| `Powers.Wrapped` | zig-pkg/N-V-__8AAA46JQABKU7sa-6xGUAN44uFsYSUS_w79UVuu7qo/src/connection.c:184-188 | the counters are added and subtracted modulo 2^64 |
| `RingBuffers.RingDrop` | zig-pkg/N-V-__8AAA46JQABKU7sa-6xGUAN44uFsYSUS_w79UVuu7qo/src/connection.c:385-389 | dropping bytes from a ring leaves the rest of what it held |
| `RingBuffers.WriteAppends` | zig-pkg/N-V-__8AAA46JQABKU7sa-6xGUAN44uFsYSUS_w79UVuu7qo/src/connection.c:96-116 | writing behind the stored bytes of a ring appends to them |
| `RingBuffers.SegmentsCover` | zig-pkg/N-V-__8AAA46JQABKU7sa-6xGUAN44uFsYSUS_w79UVuu7qo/src/connection.c:118-164 | the one or two segments cover exactly the given stretch of the ring, in order |
| `RingBuffers.RingBuffer.Put` | zig-pkg/N-V-__8AAA46JQABKU7sa-6xGUAN44uFsYSUS_w79UVuu7qo/src/connection.c:96-116 | appends, through the wrap and with counters that overflow |
| `RingBuffers.RingBuffer.Copy` | zig-pkg/N-V-__8AAA46JQABKU7sa-6xGUAN44uFsYSUS_w79UVuu7qo/src/connection.c:166-182 | reads a prefix of what is stored |
| `RingBuffers.RingBuffer.Consume` | zig-pkg/N-V-__8AAA46JQABKU7sa-6xGUAN44uFsYSUS_w79UVuu7qo/src/connection.c:385-389 | drops a prefix |
| `RingBuffers.RingBuffer.PutIov` | zig-pkg/N-V-__8AAA46JQABKU7sa-6xGUAN44uFsYSUS_w79UVuu7qo/src/connection.c:118-140 | the segments to write to are the free bytes, in order, exactly if there are any |
| `RingBuffers.RingBuffer.GetIov` | zig-pkg/N-V-__8AAA46JQABKU7sa-6xGUAN44uFsYSUS_w79UVuu7qo/src/connection.c:142-164 | the segments to read from gather exactly the stored bytes |
| `RingBuffers.RingBuffer.Receive` | zig-pkg/N-V-__8AAA46JQABKU7sa-6xGUAN44uFsYSUS_w79UVuu7qo/src/connection.c:535-565 | bytes that arrive in the free segments are appended |
| `RingBuffers.RingBuffer.Allocate` | zig-pkg/N-V-__8AAA46JQABKU7sa-6xGUAN44uFsYSUS_w79UVuu7qo/src/connection.c:211-228 | the contents move to the front of a new array, or nothing changes |
| `RingBuffers.MaxSizeBitsForSize` | zig-pkg/N-V-__8AAA46JQABKU7sa-6xGUAN44uFsYSUS_w79UVuu7qo/src/connection.c:196-209 | the smallest power of two that holds the size, at least the default, for every size of the type: 64 exactly beyond 2^63; or no limit for 0 |
| `RingBuffers.RingBuffer.BitsForSize` | zig-pkg/N-V-__8AAA46JQABKU7sa-6xGUAN44uFsYSUS_w79UVuu7qo/src/connection.c:230-242 | the fitting power, cut down to the limit, for every size of the type |
| `RingBuffers.RingBuffer.EnsureSpace` | zig-pkg/N-V-__8AAA46JQABKU7sa-6xGUAN44uFsYSUS_w79UVuu7qo/src/connection.c:253-279 | leaves the contents and makes the array the fitting one for as many bytes more, or fails with everything unchanged: exactly if the limit forbids it, or the array has to change and there is no memory |
| `RingBuffers.FitIsUnique` | zig-pkg/N-V-__8AAA46JQABKU7sa-6xGUAN44uFsYSUS_w79UVuu7qo/src/connection.c:196-242 | a size has one fitting power |
| `RingBuffers.RingBuffer.IsMaxSizeReached` | zig-pkg/N-V-__8AAA46JQABKU7sa-6xGUAN44uFsYSUS_w79UVuu7qo/src/connection.c:244-251 | reading stops exactly when one byte more exceeds the limit or makes a power of two, before the buffer is full |
| `FdRings.WordInRing` | zig-pkg/N-V-__8AAA46JQABKU7sa-6xGUAN44uFsYSUS_w79UVuu7qo/src/connection.c:281-296 | with aligned counters no descriptor straddles the wrap |
| `FdRings.CloseFirst` | zig-pkg/N-V-__8AAA46JQABKU7sa-6xGUAN44uFsYSUS_w79UVuu7qo/src/connection.c:281-296 | walking the array in words sees exactly the first descriptors |
| `FdRings.CloseFds` | zig-pkg/N-V-__8AAA46JQABKU7sa-6xGUAN44uFsYSUS_w79UVuu7qo/src/connection.c:335-353 | closes and drops the first descriptors, at most the given number if there is one |
| `FdRings.PutFd` | zig-pkg/N-V-__8AAA46JQABKU7sa-6xGUAN44uFsYSUS_w79UVuu7qo/src/connection.c:633-636 | appends a descriptor |
| `FdRings.TakeFd` | zig-pkg/N-V-__8AAA46JQABKU7sa-6xGUAN44uFsYSUS_w79UVuu7qo/src/connection.c:1055-1068 | takes the oldest descriptor, and fails exactly if there is none |
| `FdRings.EnsureFdSpace` | zig-pkg/N-V-__8AAA46JQABKU7sa-6xGUAN44uFsYSUS_w79UVuu7qo/src/connection.c:253-279 | making room keeps the descriptors and their alignment, and fails exactly for the same two causes |
| `Readings.DecodeCmsg` | zig-pkg/N-V-__8AAA46JQABKU7sa-6xGUAN44uFsYSUS_w79UVuu7qo/src/connection.c:413-444 | on the ring buffer, blocks are stored as the meaning of a control message says, block by block, with room made for each |
| `Readings.FirstRefused` | zig-pkg/N-V-__8AAA46JQABKU7sa-6xGUAN44uFsYSUS_w79UVuu7qo/src/connection.c:413-444 | blocks are stored in order up to the first for which there is no memory or no room within the limit; what is stored before stays, and the read fails exactly if there is such a block |
| `Readings.ReadTurn` | zig-pkg/N-V-__8AAA46JQABKU7sa-6xGUAN44uFsYSUS_w79UVuu7qo/src/connection.c:526-566 | one turn of the reading loop on the ring buffers is one turn of the meaning, for each answer of the kernel and each outcome of each allocation |
| `Readings.TurnBrings` | zig-pkg/N-V-__8AAA46JQABKU7sa-6xGUAN44uFsYSUS_w79UVuu7qo/src/connection.c:526-566 | a turn that goes on stores all descriptors of the call and as many of its bytes as there is room for, which is never none; a turn that ends the reading does so at the limit, at the end of the stream, on an empty socket, on an error, or for lack of memory or room, and stores no byte |
| `Readings.ConnectionRead` | zig-pkg/N-V-__8AAA46JQABKU7sa-6xGUAN44uFsYSUS_w79UVuu7qo/src/connection.c:517-567 | the reading loop on the ring buffers gives the result, the bytes, the descriptors and the sizes that the calls of recvmsg mean |
| `Readings.ReadsBring` | zig-pkg/N-V-__8AAA46JQABKU7sa-6xGUAN44uFsYSUS_w79UVuu7qo/src/connection.c:517-567 | whatever a read reports, what is stored is what its calls brought, one after the other: every call but the last wholly, as far as there was room, and of the last what the cause of its end allows; nothing is lost, doubled or reordered, and nothing fails without a cause |
| `Readings.ReadsOnIff` | zig-pkg/N-V-__8AAA46JQABKU7sa-6xGUAN44uFsYSUS_w79UVuu7qo/src/connection.c:244-251 | a read can add a byte exactly if one byte more does not reach the limit, which without a limit is any power of two; otherwise no answer of the socket adds one |
| `Readings.LastByteNeverComes` | zig-pkg/N-V-__8AAA46JQABKU7sa-6xGUAN44uFsYSUS_w79UVuu7qo/src/connection.c:244-251 | the concrete read: 4095 bytes into an empty buffer without a limit, after which nothing more is read |
| `Signatures.GetNextArgument` | zig-pkg/N-V-__8AAA46JQABKU7sa-6xGUAN44uFsYSUS_w79UVuu7qo/src/connection.c:639-661 | reads one argument off a signature and leaves the others |
| `Signatures.ArgCountForSignature` | zig-pkg/N-V-__8AAA46JQABKU7sa-6xGUAN44uFsYSUS_w79UVuu7qo/src/connection.c:663-681 | counts the arguments the parser reads |
| `Closures.HeaderSizeIff` | zig-pkg/N-V-__8AAA46JQABKU7sa-6xGUAN44uFsYSUS_w79UVuu7qo/src/connection.c:1419-1419 | the size in a header is read back exactly if it is below 65536 |
| `Closures.HeaderSizeOverflows` | zig-pkg/N-V-__8AAA46JQABKU7sa-6xGUAN44uFsYSUS_w79UVuu7qo/src/connection.c:1419-1419 | the smallest size that is not read back |
| `Closures.BufferSizeForClosure` | zig-pkg/N-V-__8AAA46JQABKU7sa-6xGUAN44uFsYSUS_w79UVuu7qo/src/connection.c:1287-1334 | counts the words of the encoding, and two for the header, modulo 2^32 |
| `Closures.StoreArg` | zig-pkg/N-V-__8AAA46JQABKU7sa-6xGUAN44uFsYSUS_w79UVuu7qo/src/connection.c:1355-1413 | stores one argument as an encoding of it, and overflows exactly if it does not fit |
| `Closures.SerializeClosure` | zig-pkg/N-V-__8AAA46JQABKU7sa-6xGUAN44uFsYSUS_w79UVuu7qo/src/connection.c:1337-1428 | fills exactly the counted words with a message of these arguments whenever its size is what the integer result says; the overflow branch is taken exactly if the buffer is smaller |
| `Wire.DecodeEncoded` | zig-pkg/N-V-__8AAA46JQABKU7sa-6xGUAN44uFsYSUS_w79UVuu7qo/src/connection.c:890-1084 | arguments are read back as they were encoded, with their descriptors in order, whatever the padding and whatever follows |
| `Wire.ErrorLeaves` | zig-pkg/N-V-__8AAA46JQABKU7sa-6xGUAN44uFsYSUS_w79UVuu7qo/src/connection.c:1072-1084 | after an error exactly the descriptors of the arguments before the failing one are gone, and exactly their new ids stay reserved |
| `Wire.DecodedIsEncoded` | zig-pkg/N-V-__8AAA46JQABKU7sa-6xGUAN44uFsYSUS_w79UVuu7qo/src/connection.c:890-1084 | the converse: what is accepted was an encoding of arguments that fit the signature, followed by the words that are left over |
| `Demarshalling.DemarshalString` | zig-pkg/N-V-__8AAA46JQABKU7sa-6xGUAN44uFsYSUS_w79UVuu7qo/src/connection.c:952-998 | a string is accepted exactly if it lies in the message, ends in NUL and has none before |
| `Demarshalling.DemarshalArray` | zig-pkg/N-V-__8AAA46JQABKU7sa-6xGUAN44uFsYSUS_w79UVuu7qo/src/connection.c:1034-1054 | an array is accepted exactly if it lies in the message |
| `Demarshalling.DemarshalNewId` | zig-pkg/N-V-__8AAA46JQABKU7sa-6xGUAN44uFsYSUS_w79UVuu7qo/src/connection.c:1011-1033 | a new id must not be null and is reserved in the object map; one that is refused leaves the map as it was |
| `Demarshalling.DemarshalArg` | zig-pkg/N-V-__8AAA46JQABKU7sa-6xGUAN44uFsYSUS_w79UVuu7qo/src/connection.c:930-1073 | one argument, with what it takes from the bytes, the descriptors and the map, is what the decoder says, after an error too |
| `Demarshalling.Demarshal` | zig-pkg/N-V-__8AAA46JQABKU7sa-6xGUAN44uFsYSUS_w79UVuu7qo/src/connection.c:890-1084 | the ring buffers and the object map after demarshalling are what the decoder says, on success and on every error; the message is consumed on both |
| `Senders.SendKeepsPace` | zig-pkg/N-V-__8AAA46JQABKU7sa-6xGUAN44uFsYSUS_w79UVuu7qo/src/connection.c:446-509 | one call of sendmsg keeps at most 28 descriptors waiting per waiting byte, up to the end of each message |
| `Senders.StepConserves` | zig-pkg/N-V-__8AAA46JQABKU7sa-6xGUAN44uFsYSUS_w79UVuu7qo/src/connection.c:446-509 | bytes and descriptors that left and that wait are all that was queued, in order |
| `Senders.StepKeepsPace` | zig-pkg/N-V-__8AAA46JQABKU7sa-6xGUAN44uFsYSUS_w79UVuu7qo/src/connection.c:758-764 | a message with at most 20 arguments and at least 8 bytes keeps the pace |
| `Senders.FdsBeforeBytes` | zig-pkg/N-V-__8AAA46JQABKU7sa-6xGUAN44uFsYSUS_w79UVuu7qo/src/connection.c:391-509 | in every run with flushes of any size, with the last byte of a message all its descriptors have left; nothing is lost, doubled or reordered |
| `Senders.ReachableInvariant` | zig-pkg/N-V-__8AAA46JQABKU7sa-6xGUAN44uFsYSUS_w79UVuu7qo/src/connection.c:391-509 | conservation and pace hold in every state of a sender |
| `Senders.TooManyFdsFallBehind` | zig-pkg/N-V-__8AAA46JQABKU7sa-6xGUAN44uFsYSUS_w79UVuu7qo/src/connection.c:391-411 | 29 descriptors for one byte would fall behind: the bound on arguments is needed |
| `Connections.Connection.Offer` | zig-pkg/N-V-__8AAA46JQABKU7sa-6xGUAN44uFsYSUS_w79UVuu7qo/src/connection.c:459-490 | sendmsg is offered everything, or a single byte when the descriptors fill a control message |
| `Connections.Connection.Flush` | zig-pkg/N-V-__8AAA46JQABKU7sa-6xGUAN44uFsYSUS_w79UVuu7qo/src/connection.c:446-509 | on the ring buffers, what leaves is what the answers of sendmsg take; the result is the number of bytes that left, as an integer, or -1 if some had to stay; without a wish to flush nothing happens |
| `Connections.FlushingSends` | zig-pkg/N-V-__8AAA46JQABKU7sa-6xGUAN44uFsYSUS_w79UVuu7qo/src/connection.c:446-509 | flushing is one send for each answer, of at least one byte and no more than it says or was offered; it ends with nothing left, on a full socket, or on a broken one, and exactly there |
| `Connections.Connection.PutFd` | zig-pkg/N-V-__8AAA46JQABKU7sa-6xGUAN44uFsYSUS_w79UVuu7qo/src/connection.c:624-637 | a full batch of descriptors is flushed first, then one is added; a blocked socket is no error; queues and result are what the answers and the memory make them |
| `Connections.FdQueues` | zig-pkg/N-V-__8AAA46JQABKU7sa-6xGUAN44uFsYSUS_w79UVuu7qo/src/connection.c:624-637 | a descriptor that is put joins those queued; one that is not leaves what was queued |
| `Connections.Connection.Queue` | zig-pkg/N-V-__8AAA46JQABKU7sa-6xGUAN44uFsYSUS_w79UVuu7qo/src/connection.c:569-603 | bytes are appended, after a flush if the default size would be exceeded; queues and result are what the answers and the memory make them |
| `Connections.BytesQueue` | zig-pkg/N-V-__8AAA46JQABKU7sa-6xGUAN44uFsYSUS_w79UVuu7qo/src/connection.c:569-603 | bytes that are queued are one more message of the history; otherwise at most something has left |
| `Connections.Connection.CopyFds` | zig-pkg/N-V-__8AAA46JQABKU7sa-6xGUAN44uFsYSUS_w79UVuu7qo/src/connection.c:1258-1284 | the descriptors of a closure are added one by one, up to the first that fails |
| `Connections.Connection.Send` | zig-pkg/N-V-__8AAA46JQABKU7sa-6xGUAN44uFsYSUS_w79UVuu7qo/src/connection.c:1430-1461 | first the descriptors, then the bytes, with the result and the queues that the answers and the memory make |
| `Connections.MessageQueues` | zig-pkg/N-V-__8AAA46JQABKU7sa-6xGUAN44uFsYSUS_w79UVuu7qo/src/connection.c:1430-1461 | a message that is sent joins the stream whole, with its descriptors, and is one more in the history; one that fails leaves no byte |
| `Connections.MessageFails` | zig-pkg/N-V-__8AAA46JQABKU7sa-6xGUAN44uFsYSUS_w79UVuu7qo/src/connection.c:1430-1461 | a message fails only for a cause: a broken socket, no memory, or a buffer at its limit, at the descriptor or the bytes it names |
| `Sending.Serialize` | zig-pkg/N-V-__8AAA46JQABKU7sa-6xGUAN44uFsYSUS_w79UVuu7qo/src/connection.c:1287-1428 | counting, allocating and serialising gives the bytes of a message, for every size below 2 GiB; beyond it fails, or its bytes are fewer, as 32 bits decide |
| `Sending.SendClosure` | zig-pkg/N-V-__8AAA46JQABKU7sa-6xGUAN44uFsYSUS_w79UVuu7qo/src/connection.c:1430-1461 | sends the serialised message: queues and result are those of storing its descriptors and bytes, and if it succeeds the stream is extended by exactly this message |
| `Streams.TakeTurn` | zig-pkg/N-V-__8AAA46JQABKU7sa-6xGUAN44uFsYSUS_w79UVuu7qo/src/wayland-client.c:1570-1655 | one turn of the reading loop on ring buffers is one turn of the meaning: stop, fail, take one message, or eat one for an object that is gone |
| `Streams.EatMessage` | zig-pkg/N-V-__8AAA46JQABKU7sa-6xGUAN44uFsYSUS_w79UVuu7qo/src/wayland-client.c:1611-1642 | an event for a zombie is consumed, with as many descriptors as the zombie says, or all there are |
| `Streams.ReadPart` | zig-pkg/N-V-__8AAA46JQABKU7sa-6xGUAN44uFsYSUS_w79UVuu7qo/src/wayland-client.c:1608-1609 | part of a message is left alone |
| `Streams.ReadWhole` | zig-pkg/N-V-__8AAA46JQABKU7sa-6xGUAN44uFsYSUS_w79UVuu7qo/src/wayland-server.c:412-489 | a whole message at the front of the input is read back with all its fields, or eaten with its own descriptors if its object is gone, whatever follows |
| `Streams.ReadComplete` | zig-pkg/N-V-__8AAA46JQABKU7sa-6xGUAN44uFsYSUS_w79UVuu7qo/src/wayland-client.c:1770-1778 | the loop takes exactly the messages that are complete, each with its descriptors, those to be dropped as well, and leaves the beginning of the next |
| `Deliveries.ReceiveMore` | zig-pkg/N-V-__8AAA46JQABKU7sa-6xGUAN44uFsYSUS_w79UVuu7qo/src/wayland-client.c:1770-1778 | what was read before and what comes now together are as if all had come at once |
| `Deliveries.ReceiveFragments` | zig-pkg/N-V-__8AAA46JQABKU7sa-6xGUAN44uFsYSUS_w79UVuu7qo/src/wayland-client.c:1770-1778 | however the stream is cut up, the receiver ends up the same |
| `Deliveries.StreamRoundTrip` | zig-pkg/N-V-__8AAA46JQABKU7sa-6xGUAN44uFsYSUS_w79UVuu7qo/src/connection.c:890-1428 | a whole stream in any fragments gives exactly the messages sent, but for those whose objects are gone, and nothing is left over |
| `Deliveries.CarriesOneMore` | zig-pkg/N-V-__8AAA46JQABKU7sa-6xGUAN44uFsYSUS_w79UVuu7qo/src/connection.c:1430-1461 | a message sent becomes part of the stream |
| `Deliveries.WireArrives` | zig-pkg/N-V-__8AAA46JQABKU7sa-6xGUAN44uFsYSUS_w79UVuu7qo/src/connection.c:391-509 | any part of what has left contains, with every complete message, all its descriptors |
| `Deliveries.EndToEnd` | zig-pkg/N-V-__8AAA46JQABKU7sa-6xGUAN44uFsYSUS_w79UVuu7qo/src/wayland-client.c:1770-1778 | from end to end: any run of the sender with any flushes, any cuts by the kernel; the receiver has exactly the messages that have wholly arrived, with values, sender, opcode and descriptors, and has dropped those for objects that are gone |
| `Receiving.ReceiveEvents` | zig-pkg/N-V-__8AAA46JQABKU7sa-6xGUAN44uFsYSUS_w79UVuu7qo/src/wayland-client.c:1741-1780 | one read of the socket and the loop behind it, on the ring buffers and the one object map: what is got and what is left is the course of the loop over what the calls brought, with what the receiver does to its map between the messages |
| `Receiving.ReadMore` | zig-pkg/N-V-__8AAA46JQABKU7sa-6xGUAN44uFsYSUS_w79UVuu7qo/src/wayland-client.c:1770-1778 | the loop over messages, on ring buffers and object map, follows its course to the end: the reservations of a message and the changes of the receiver are there for the next |
| `Receiving.EventsAreReceived` | zig-pkg/N-V-__8AAA46JQABKU7sa-6xGUAN44uFsYSUS_w79UVuu7qo/src/wayland-client.c:1741-1780 | that course is one delivery, of exactly what the calls of recvmsg brought, to the receiver of the end-to-end result, whose knowledge is what it has made of its map |
| `Receiving.LearntFollows` | zig-pkg/N-V-__8AAA46JQABKU7sa-6xGUAN44uFsYSUS_w79UVuu7qo/src/wayland-client.c:1570-1655 | for whatever the receiver does between the messages there is such a knowledge |
| `Receiving.EventsFromSender` | zig-pkg/N-V-__8AAA46JQABKU7sa-6xGUAN44uFsYSUS_w79UVuu7qo/src/wayland-client.c:1741-1780 | when the calls bring the next pieces of what has left a sender, the buffers of the receiver end with the messages that have wholly come by then, each with its descriptors, and the beginning of the next |
| `Zombies.MessageCountFds` | zig-pkg/N-V-__8AAA46JQABKU7sa-6xGUAN44uFsYSUS_w79UVuu7qo/src/wayland-client.c:419-433 | counts the descriptor arguments of a signature |
| `Zombies.PrepareZombie` | zig-pkg/N-V-__8AAA46JQABKU7sa-6xGUAN44uFsYSUS_w79UVuu7qo/src/wayland-client.c:435-468 | the zombie gives the right descriptor count for every event, and there is none exactly if no event has descriptors |
| `Zombies.ZombieIsUnique` | zig-pkg/N-V-__8AAA46JQABKU7sa-6xGUAN44uFsYSUS_w79UVuu7qo/src/wayland-client.c:435-468 | there is one such zombie for an interface |
| `IdProtocol.SendMakingKeeps` | zig-pkg/N-V-__8AAA46JQABKU7sa-6xGUAN44uFsYSUS_w79UVuu7qo/src/wayland-client.c:904-960 | a request that makes an object and announces it at once keeps the invariant of both sides and of all that is on the way |
| `IdProtocol.AllocateKeeps` | zig-pkg/N-V-__8AAA46JQABKU7sa-6xGUAN44uFsYSUS_w79UVuu7qo/src/wayland-client.c:529-540 | so does taking an id for a proxy the server is not told of |
| `IdProtocol.AnnounceKeeps` | zig-pkg/N-V-__8AAA46JQABKU7sa-6xGUAN44uFsYSUS_w79UVuu7qo/src/wayland-client.c:904-960 | so does the request that tells of it, at any later time |
| `IdProtocol.NoIdKeeps` | zig-pkg/N-V-__8AAA46JQABKU7sa-6xGUAN44uFsYSUS_w79UVuu7qo/src/wayland-util.c:239-253 | so does running out of ids, which spoils a slot of the table |
| `IdProtocol.DestroyProxyKeeps` | zig-pkg/N-V-__8AAA46JQABKU7sa-6xGUAN44uFsYSUS_w79UVuu7qo/src/wayland-client.c:574-600 | so does destroying a proxy, with a zombie or without |
| `IdProtocol.ReceiveKeeps` | zig-pkg/N-V-__8AAA46JQABKU7sa-6xGUAN44uFsYSUS_w79UVuu7qo/src/wayland-server.c:412-489 | so does taking a request, with a new id or without |
| `IdProtocol.CreateResourceKeeps` | zig-pkg/N-V-__8AAA46JQABKU7sa-6xGUAN44uFsYSUS_w79UVuu7qo/src/wayland-server.c:2239-2283 | so does creating the resource, at any later time |
| `IdProtocol.SendEventKeeps` | zig-pkg/N-V-__8AAA46JQABKU7sa-6xGUAN44uFsYSUS_w79UVuu7qo/src/connection.c:1258-1284 | so does sending an event with its descriptors |
| `IdProtocol.DestroyResourceKeeps` | zig-pkg/N-V-__8AAA46JQABKU7sa-6xGUAN44uFsYSUS_w79UVuu7qo/src/wayland-server.c:797-828 | so does destroying a resource, which queues delete_id and clears the entry |
| `IdProtocol.ReadKeeps` | zig-pkg/N-V-__8AAA46JQABKU7sa-6xGUAN44uFsYSUS_w79UVuu7qo/src/wayland-client.c:1570-1642 | so does reading an event or a deletion |
| `IdProtocol.DispatchKeeps` | zig-pkg/N-V-__8AAA46JQABKU7sa-6xGUAN44uFsYSUS_w79UVuu7qo/src/wayland-client.c:1126-1147 | so does dispatching a deletion: the id is vacated or the proxy marked |
| `IdProtocol.ReachableInvariant` | zig-pkg/N-V-__8AAA46JQABKU7sa-6xGUAN44uFsYSUS_w79UVuu7qo/src/wayland-client.c:435-600 | the invariant holds in every interleaving |
| `IdProtocol.NewIdsAreAccepted` | zig-pkg/N-V-__8AAA46JQABKU7sa-6xGUAN44uFsYSUS_w79UVuu7qo/src/wayland-util.c:298-348 | in every interleaving in which the ids are announced in sequence, the server takes the next new id, and no event fails for lack of an object, opcode or descriptor |
| `IdProtocol.NewIdAcceptedIff` | zig-pkg/N-V-__8AAA46JQABKU7sa-6xGUAN44uFsYSUS_w79UVuu7qo/src/wayland-util.c:298-348 | a new id on its way is accepted exactly if it leaves no gap in the table of the server |
| `IdProtocol.StepInSequence` | zig-pkg/N-V-__8AAA46JQABKU7sa-6xGUAN44uFsYSUS_w79UVuu7qo/src/wayland-util.c:298-348 | from a state where all new ids on their way are acceptable, an act spoils that exactly if it announces an id while a lower one was never announced; no later act puts it right |
| `IdProtocol.RefusedIffOutOfSequence` | zig-pkg/N-V-__8AAA46JQABKU7sa-6xGUAN44uFsYSUS_w79UVuu7qo/src/wayland-util.c:298-348 | in every run that has taken all its requests or been refused, a new id was refused exactly if one was announced out of sequence |
| `IdProtocol.AtomicRequestsAreAccepted` | zig-pkg/N-V-__8AAA46JQABKU7sa-6xGUAN44uFsYSUS_w79UVuu7qo/src/wayland-client.c:904-960 | in every run whose requests announce their new objects as they make them, no new id is refused |
| `IdProtocol.OutOfSequenceIsRefused` | zig-pkg/N-V-__8AAA46JQABKU7sa-6xGUAN44uFsYSUS_w79UVuu7qo/src/wayland-client.c:529-540 | two proxies made one after the other and announced the other way round: a reachable state with the first announcement refused |
| `IdProtocol.EventsReachTheirIncarnation` | zig-pkg/N-V-__8AAA46JQABKU7sa-6xGUAN44uFsYSUS_w79UVuu7qo/src/wayland-client.c:1608-1642 | in every interleaving an event is delivered exactly if the object the server meant still lives, otherwise discarded with the right number of descriptors; it never reaches a later object with the same id |
| `IdProtocol.FdsStayInStep` | zig-pkg/N-V-__8AAA46JQABKU7sa-6xGUAN44uFsYSUS_w79UVuu7qo/src/wayland-client.c:1611-1642 | in every interleaving the descriptors on the way are those of the events on the way, and reading an event takes exactly its own |
| `IdProtocol.RequestsReachTheirIncarnation` | zig-pkg/N-V-__8AAA46JQABKU7sa-6xGUAN44uFsYSUS_w79UVuu7qo/src/wayland-server.c:441-448 | in every interleaving a request reaches the object the client meant, or none |
| `IdProtocol.DeletedIdIsKnown` | zig-pkg/N-V-__8AAA46JQABKU7sa-6xGUAN44uFsYSUS_w79UVuu7qo/src/wayland-client.c:1126-1147 | a deletion is never for an unknown id |
| `IdProtocol.EventForZombie` | zig-pkg/N-V-__8AAA46JQABKU7sa-6xGUAN44uFsYSUS_w79UVuu7qo/src/wayland-client.c:1611-1642 | messages do cross: a reachable state in which an event with a descriptor meets a zombie |
| `ReaderProtocol.LastReaderKeeps` | zig-pkg/N-V-__8AAA46JQABKU7sa-6xGUAN44uFsYSUS_w79UVuu7qo/src/wayland-client.c:1741-1780 | the last reader fills queues when nobody is prepared, and wakes everyone on every path |
| `ReaderProtocol.StepKeeps` | zig-pkg/N-V-__8AAA46JQABKU7sa-6xGUAN44uFsYSUS_w79UVuu7qo/src/wayland-client.c:127-160 | each critical section keeps the count of prepared threads, their empty queues, and that a sleeper has someone to wake it |
| `ReaderProtocol.SomeoneWillWake` | zig-pkg/N-V-__8AAA46JQABKU7sa-6xGUAN44uFsYSUS_w79UVuu7qo/src/wayland-client.c:1781-1785 | in every interleaving, while a thread waits another one is prepared: no wakeup is lost |
| `ReaderProtocol.LastOneWakes` | zig-pkg/N-V-__8AAA46JQABKU7sa-6xGUAN44uFsYSUS_w79UVuu7qo/src/wayland-client.c:1741-1802 | the last prepared thread wakes every sleeper, by reading or cancelling, with or without an error |
| `ReaderProtocol.StaysAwake` | zig-pkg/N-V-__8AAA46JQABKU7sa-6xGUAN44uFsYSUS_w79UVuu7qo/src/wayland-client.c:1781-1785 | a thread once woken can return whatever happens later |
| `ReaderProtocol.PreparedQueueIsEmpty` | zig-pkg/N-V-__8AAA46JQABKU7sa-6xGUAN44uFsYSUS_w79UVuu7qo/src/wayland-client.c:1974-1993 | in every interleaving reader_count is the number of prepared threads, and the queue of a prepared thread is empty |
| `ReaderProtocol.CheckBeforeReading` | zig-pkg/N-V-__8AAA46JQABKU7sa-6xGUAN44uFsYSUS_w79UVuu7qo/src/wayland-client.c:1839-1853 | without the check of last_error before reading, a reachable state would lose a wakeup |
| `ReaderProtocol.Display.PrepareReadQueue` | zig-pkg/N-V-__8AAA46JQABKU7sa-6xGUAN44uFsYSUS_w79UVuu7qo/src/wayland-client.c:1974-1993 | prepares exactly if the queue is empty; the state is the step of the protocol |
| `ReaderProtocol.Display.DisplayReadEvents` | zig-pkg/N-V-__8AAA46JQABKU7sa-6xGUAN44uFsYSUS_w79UVuu7qo/src/wayland-client.c:1741-1859 | reads, sleeps or cancels as the step of the protocol says |
| `ReaderProtocol.Display.DisplayCancelRead` | zig-pkg/N-V-__8AAA46JQABKU7sa-6xGUAN44uFsYSUS_w79UVuu7qo/src/wayland-client.c:1796-1802 | cancelling is the step of the protocol |
| `ReaderProtocol.Display.DisplayFatalError` | zig-pkg/N-V-__8AAA46JQABKU7sa-6xGUAN44uFsYSUS_w79UVuu7qo/src/wayland-client.c:148-160 | the step of the protocol: the first error stays, every sleeper is woken by it, and the invariant holds even if the caller has just counted down the readers |
| `ReaderProtocol.Display.CheckSerial` | zig-pkg/N-V-__8AAA46JQABKU7sa-6xGUAN44uFsYSUS_w79UVuu7qo/src/wayland-client.c:1781-1793 | a sleeper returns exactly when the serial has moved, with the error if there is one |
| `ProxyLifetime.FreedIff` | zig-pkg/N-V-__8AAA46JQABKU7sa-6xGUAN44uFsYSUS_w79UVuu7qo/src/wayland-client.c:236-250 | a proxy is freed exactly if it was destroyed, no event refers to it, and no reference was forgotten; so no event refers to a freed proxy |
| `ProxyLifetime.DropCounts` | zig-pkg/N-V-__8AAA46JQABKU7sa-6xGUAN44uFsYSUS_w79UVuu7qo/src/wayland-client.c:236-250 | dropping a counted reference never meets either reason to abort, and keeps all counts right |
| `ProxyLifetime.ValidateCounts` | zig-pkg/N-V-__8AAA46JQABKU7sa-6xGUAN44uFsYSUS_w79UVuu7qo/src/wayland-client.c:252-275 | references nulled by validation are forgotten, not given back; the counts allow for exactly those |
| `ProxyLifetime.HeldIsInMemory` | zig-pkg/N-V-__8AAA46JQABKU7sa-6xGUAN44uFsYSUS_w79UVuu7qo/src/wayland-client.c:236-306 | what a closure holds is in memory |
| `ProxyLifetime.Client.CreateProxy` | zig-pkg/N-V-__8AAA46JQABKU7sa-6xGUAN44uFsYSUS_w79UVuu7qo/src/wayland-client.c:479-508 | a new proxy has the application's reference |
| `ProxyLifetime.Client.CreateQueue` | zig-pkg/N-V-__8AAA46JQABKU7sa-6xGUAN44uFsYSUS_w79UVuu7qo/src/wayland-client.c:383-404 | a new queue is empty, and the counts stay right |
| `ProxyLifetime.Client.DestroyProxy` | zig-pkg/N-V-__8AAA46JQABKU7sa-6xGUAN44uFsYSUS_w79UVuu7qo/src/wayland-client.c:574-600 | destroying gives the application's reference back; the count of every proxy stays right |
| `ProxyLifetime.Client.QueueEvent` | zig-pkg/N-V-__8AAA46JQABKU7sa-6xGUAN44uFsYSUS_w79UVuu7qo/src/wayland-client.c:1543-1568 | queueing counts every argument and the proxy |
| `ProxyLifetime.Client.ValidateClosureObjects` | zig-pkg/N-V-__8AAA46JQABKU7sa-6xGUAN44uFsYSUS_w79UVuu7qo/src/wayland-client.c:252-275 | exactly the arguments destroyed by now become null |
| `ProxyLifetime.Client.DestroyQueuedClosure` | zig-pkg/N-V-__8AAA46JQABKU7sa-6xGUAN44uFsYSUS_w79UVuu7qo/src/wayland-client.c:277-306 | gives back every reference of a closure, and frees what nothing else holds |
| `ProxyLifetime.Client.BeginDispatch` | zig-pkg/N-V-__8AAA46JQABKU7sa-6xGUAN44uFsYSUS_w79UVuu7qo/src/wayland-client.c:1695-1724 | takes the first event of a queue; it is given up exactly if its proxy was destroyed |
| `ProxyLifetime.Client.EndDispatch` | zig-pkg/N-V-__8AAA46JQABKU7sa-6xGUAN44uFsYSUS_w79UVuu7qo/src/wayland-client.c:1726-1739 | after the handler the references are given back, whatever was destroyed meanwhile |
| `ProxyLifetime.Client.ReleaseQueue` | zig-pkg/N-V-__8AAA46JQABKU7sa-6xGUAN44uFsYSUS_w79UVuu7qo/src/wayland-client.c:341-346 | all events of a queue are given up |
| `ProxyLifetime.DestroyInHandler` | zig-pkg/N-V-__8AAA46JQABKU7sa-6xGUAN44uFsYSUS_w79UVuu7qo/src/wayland-client.c:1726-1739 | a proxy destroyed by its own handler is freed, when the handler has returned, exactly if no other event refers to it and no reference was forgotten, whatever else is queued or dispatching |
| `ProxyLifetime.LeakedArgument` | zig-pkg/N-V-__8AAA46JQABKU7sa-6xGUAN44uFsYSUS_w79UVuu7qo/src/wayland-client.c:252-275 | an argument destroyed before its event is dispatched is never freed |
| `LinkedLists.LinkedList.Insert` | zig-pkg/N-V-__8AAA46JQABKU7sa-6xGUAN44uFsYSUS_w79UVuu7qo/src/wayland-util.c:44-51 | links a node behind another; the ring is whole |
| `LinkedLists.LinkedList.Remove` | zig-pkg/N-V-__8AAA46JQABKU7sa-6xGUAN44uFsYSUS_w79UVuu7qo/src/wayland-util.c:53-60 | unlinks a node and clears its links |
| `LinkedLists.LinkedList.Length` | zig-pkg/N-V-__8AAA46JQABKU7sa-6xGUAN44uFsYSUS_w79UVuu7qo/src/wayland-util.c:62-76 | counts what is linked |
| `LinkedLists.LinkedList.IsEmpty` | zig-pkg/N-V-__8AAA46JQABKU7sa-6xGUAN44uFsYSUS_w79UVuu7qo/src/wayland-util.c:78-82 | true exactly if nothing is linked |
| `Signals.Emission` | zig-pkg/N-V-__8AAA46JQABKU7sa-6xGUAN44uFsYSUS_w79UVuu7qo/src/wayland-server.c:2547-2581 | an emission calls each listener that was there at its start and is still linked at its turn, once and in order, and nobody else, whatever handlers add, remove, re-add and emit; one that is passed over had been removed before the next behind it was called |
| `Signals.NobodySkipped` | zig-pkg/N-V-__8AAA46JQABKU7sa-6xGUAN44uFsYSUS_w79UVuu7qo/src/wayland-server.c:2547-2581 | when somebody is called, everybody in front of them who is not called had been removed by then |
| `Signals.NotifiedUnlessRemoved` | zig-pkg/N-V-__8AAA46JQABKU7sa-6xGUAN44uFsYSUS_w79UVuu7qo/src/wayland-server.c:2547-2581 | nobody is called after being removed; whoever is not called is removed in the course of the emission |
| `Signals.NotifiedInOrder` | zig-pkg/N-V-__8AAA46JQABKU7sa-6xGUAN44uFsYSUS_w79UVuu7qo/src/wayland-server.c:2547-2581 | calls go along the list as it was at the start |
| `Signals.EmitStripped` | zig-pkg/N-V-__8AAA46JQABKU7sa-6xGUAN44uFsYSUS_w79UVuu7qo/src/wayland-server.c:2547-2581 | markers of other emissions change nothing about what happens |
| `Signals.HandlerOnParts` | zig-pkg/N-V-__8AAA46JQABKU7sa-6xGUAN44uFsYSUS_w79UVuu7qo/src/wayland-server.c:2569-2576 | a handler sees the list with the markers in it and leaves them in their place |
| `Signals.Advance` | zig-pkg/N-V-__8AAA46JQABKU7sa-6xGUAN44uFsYSUS_w79UVuu7qo/src/wayland-server.c:2569-2575 | the cursor moves behind the next node |
| `Signals.RunScript` | zig-pkg/N-V-__8AAA46JQABKU7sa-6xGUAN44uFsYSUS_w79UVuu7qo/src/wayland-server.c:2547-2581 | what a handler does to the linked list is what it means |
| `Signals.EmitMutable` | zig-pkg/N-V-__8AAA46JQABKU7sa-6xGUAN44uFsYSUS_w79UVuu7qo/src/wayland-server.c:2547-2581 | on the linked list with its two markers an emission does exactly what it means, ends, and leaves no marker |
| `PrivSignals.CallsServe` | zig-pkg/N-V-__8AAA46JQABKU7sa-6xGUAN44uFsYSUS_w79UVuu7qo/src/wayland-server.c:2678-2702 | an emission calls every listener there is at its start, itself or by an emission inside it, unless it is removed in the course of it; nobody is left to call |
| `PrivSignals.NobodySkipped` | zig-pkg/N-V-__8AAA46JQABKU7sa-6xGUAN44uFsYSUS_w79UVuu7qo/src/wayland-server.c:2678-2702 | nobody is called while one in front is still to be called: that one has been called or removed by then, or the one behind was removed and came again |
| `PrivSignals.AddedAreNotCalled` | zig-pkg/N-V-__8AAA46JQABKU7sa-6xGUAN44uFsYSUS_w79UVuu7qo/src/wayland-server.c:2678-2702 | unless handlers emit again, nobody added during an emission is called by it |
| `PrivSignals.OrderIsReversed` | zig-pkg/N-V-__8AAA46JQABKU7sa-6xGUAN44uFsYSUS_w79UVuu7qo/src/wayland-server.c:2693-2701 | an emission whose handlers change nothing calls all in order and leaves them in the opposite order; two restore it |
| `PrivSignals.SurvivorsAreReversed` | zig-pkg/N-V-__8AAA46JQABKU7sa-6xGUAN44uFsYSUS_w79UVuu7qo/src/wayland-server.c:2693-2701 | with handlers that add and remove, two listeners that were there at the start and are not removed are in the opposite order afterwards |
| `PrivSignals.PrivSignal.EmitSignal` | zig-pkg/N-V-__8AAA46JQABKU7sa-6xGUAN44uFsYSUS_w79UVuu7qo/src/wayland-server.c:2678-2702 | the loop over the second list does what an emission means, with handlers that add, remove and emit |
| `Globals.PublishAllKeeps` | zig-pkg/N-V-__8AAA46JQABKU7sa-6xGUAN44uFsYSUS_w79UVuu7qo/src/wayland-server.c:1497-1499 | publishing a new global tells exactly the registries that may see it, once each |
| `Globals.AnnounceAllKeeps` | zig-pkg/N-V-__8AAA46JQABKU7sa-6xGUAN44uFsYSUS_w79UVuu7qo/src/wayland-server.c:1222-1224 | a new registry is told exactly the published globals it may see |
| `Globals.OfferDoneFires` | zig-pkg/N-V-__8AAA46JQABKU7sa-6xGUAN44uFsYSUS_w79UVuu7qo/src/wayland-server.c:1150-1159 | an offer that is done with leaves both lists, and lets the callback run exactly if it was the last of a removed global |
| `Globals.EndOfferKeeps` | zig-pkg/N-V-__8AAA46JQABKU7sa-6xGUAN44uFsYSUS_w79UVuu7qo/src/wayland-server.c:1175-1188 | each turn of the loop of a registry that goes away is done with one of its offers, and all lists agree again before a callback can see them |
| `Globals.DropKeeps` | zig-pkg/N-V-__8AAA46JQABKU7sa-6xGUAN44uFsYSUS_w79UVuu7qo/src/wayland-server.c:1595-1611 | a global that goes away leaves the lists of all registries |
| `Globals.RegistriesAreTold` | zig-pkg/N-V-__8AAA46JQABKU7sa-6xGUAN44uFsYSUS_w79UVuu7qo/src/wayland-server.c:1117-1225 | in every run a registry is told of a global once and of its removal once, later, and knows exactly the published globals it may see |
| `Globals.WithdrawnWhenUnknown` | zig-pkg/N-V-__8AAA46JQABKU7sa-6xGUAN44uFsYSUS_w79UVuu7qo/src/wayland-server.c:1150-1159 | in every run the callback has run at most once, and it has run exactly if the global is removed, its offers are gone, and it was set at the moment when both became true; so if set before the removal and kept, exactly when both are true |
| `Globals.LateCallbackNeverRuns` | zig-pkg/N-V-__8AAA46JQABKU7sa-6xGUAN44uFsYSUS_w79UVuu7qo/src/wayland-server.c:1554-1593 | once a global is removed and its offers are gone without its callback having run, no later act makes it run, in every continuation of every run |
| `Globals.LateCallback` | zig-pkg/N-V-__8AAA46JQABKU7sa-6xGUAN44uFsYSUS_w79UVuu7qo/src/wayland-server.c:1554-1593 | such a state: a callback set after a removal that left no offers |
| `Globals.Display.GlobalCreate` | zig-pkg/N-V-__8AAA46JQABKU7sa-6xGUAN44uFsYSUS_w79UVuu7qo/src/wayland-server.c:1455-1502 | creates and publishes a global, as the step says, exactly if the version is one of the interface and there is a name left |
| `Globals.Display.DisplayGetRegistry` | zig-pkg/N-V-__8AAA46JQABKU7sa-6xGUAN44uFsYSUS_w79UVuu7qo/src/wayland-server.c:1190-1225 | creates a registry and tells it, as the step says |
| `Globals.Display.GlobalUnpublish` | zig-pkg/N-V-__8AAA46JQABKU7sa-6xGUAN44uFsYSUS_w79UVuu7qo/src/wayland-server.c:1504-1514 | every registry with an offer is told of the removal, and no other |
| `Globals.Display.GlobalRemove` | zig-pkg/N-V-__8AAA46JQABKU7sa-6xGUAN44uFsYSUS_w79UVuu7qo/src/wayland-server.c:1554-1566 | removes a global, and runs the callback if there is no offer |
| `Globals.Display.RegistryFindOffer` | zig-pkg/N-V-__8AAA46JQABKU7sa-6xGUAN44uFsYSUS_w79UVuu7qo/src/wayland-server.c:1161-1173 | finds an offer exactly if the registry was told that name and has not acknowledged |
| `Globals.Display.HandleAckGlobalRemove` | zig-pkg/N-V-__8AAA46JQABKU7sa-6xGUAN44uFsYSUS_w79UVuu7qo/src/wayland-server.c:2909-2931 | an acknowledgement is accepted exactly if the name was told to this registry and the global is removed |
| `Globals.Display.UnbindRegistry` | zig-pkg/N-V-__8AAA46JQABKU7sa-6xGUAN44uFsYSUS_w79UVuu7qo/src/wayland-server.c:1175-1188 | the loop of a registry that goes away leaves the state its meaning says: its offers are done with one by one, and each callback that runs, and only then, does what its script says, also to these offers |
| `Globals.UnbindingIsRun` | zig-pkg/N-V-__8AAA46JQABKU7sa-6xGUAN44uFsYSUS_w79UVuu7qo/src/wayland-server.c:1175-1188 | that meaning is a run of the protocol, callbacks and all: so what holds in every run holds after each of its steps |
| `Globals.Display.DoneWithFirst` | zig-pkg/N-V-__8AAA46JQABKU7sa-6xGUAN44uFsYSUS_w79UVuu7qo/src/wayland-server.c:1181-1184 | one turn of that loop, as the step says |
| `Globals.Display.GlobalDestroy` | zig-pkg/N-V-__8AAA46JQABKU7sa-6xGUAN44uFsYSUS_w79UVuu7qo/src/wayland-server.c:1595-1611 | the end of a global, as the step says |
| `Scanners.AtoiDecimal` | zig-pkg/N-V-__8AAA46JQABKU7sa-6xGUAN44uFsYSUS_w79UVuu7qo/src/scanner.c:1914-1915 | a number printed in front of a signature is read back |
| `Scanners.ArgTextReads` | zig-pkg/N-V-__8AAA46JQABKU7sa-6xGUAN44uFsYSUS_w79UVuu7qo/src/scanner.c:1917-1950 | what is printed for an argument is read back as that argument, expanded, with its nullability |
| `Scanners.EmitSignature` | zig-pkg/N-V-__8AAA46JQABKU7sa-6xGUAN44uFsYSUS_w79UVuu7qo/src/scanner.c:1914-1950 | the signature is read back as the arguments, and the version exactly if it is at least 1 |
| `Scanners.Protocol.Measure` | zig-pkg/N-V-__8AAA46JQABKU7sa-6xGUAN44uFsYSUS_w79UVuu7qo/src/scanner.c:1615-1652 | a message is marked all-null exactly if no argument has an interface, and the run of nulls is then long enough for it |
| `Scanners.Protocol.EmitRow` | zig-pkg/N-V-__8AAA46JQABKU7sa-6xGUAN44uFsYSUS_w79UVuu7qo/src/scanner.c:1869-1893 | the row of a message holds the interface, or null, of every expanded argument |
| `Scanners.Protocol.EmitTypes` | zig-pkg/N-V-__8AAA46JQABKU7sa-6xGUAN44uFsYSUS_w79UVuu7qo/src/scanner.c:1857-1895 | every message of a list has its row, all-null ones at the start of the table |
| `Scanners.EmitMessages` | zig-pkg/N-V-__8AAA46JQABKU7sa-6xGUAN44uFsYSUS_w79UVuu7qo/src/scanner.c:1897-1955 | each entry is read back as its message |
| `Scanners.EmitCode` | zig-pkg/N-V-__8AAA46JQABKU7sa-6xGUAN44uFsYSUS_w79UVuu7qo/src/scanner.c:1993-2030 | for every protocol each message is read back with its types, nullability, version and interfaces, and all-null messages share the run of nulls |
| `ShmPools.RefusedIffNotFitting` | zig-pkg/N-V-__8AAA46JQABKU7sa-6xGUAN44uFsYSUS_w79UVuu7qo/src/wayland-shm.c:264-272 | the check refuses exactly the buffers that do not lie in the pool, and neither its product nor its difference overflows |
| `ShmPools.CreatePool` | zig-pkg/N-V-__8AAA46JQABKU7sa-6xGUAN44uFsYSUS_w79UVuu7qo/src/wayland-shm.c:355-434 | a pool is made exactly if its size is positive, it can be mapped, and there is memory for it and its resource; each failure has its error, and leaves no mapping behind |
| `ShmPools.Pool.CreateBuffer` | zig-pkg/N-V-__8AAA46JQABKU7sa-6xGUAN44uFsYSUS_w79UVuu7qo/src/wayland-shm.c:248-308 | a buffer is made exactly if its format is known, it fits, and there is memory; it counts in the pool |
| `ShmPools.Pool.Resize` | zig-pkg/N-V-__8AAA46JQABKU7sa-6xGUAN44uFsYSUS_w79UVuu7qo/src/wayland-shm.c:325-347 | the size never falls below what is mapped; while the compositor holds the pool the mapping does not move |
| `ShmPools.Pool.FinishResize` | zig-pkg/N-V-__8AAA46JQABKU7sa-6xGUAN44uFsYSUS_w79UVuu7qo/src/wayland-shm.c:124-143 | a pending size is taken on if the mapping can grow; otherwise all stays |
| `ShmPools.Pool.UnrefExternal` | zig-pkg/N-V-__8AAA46JQABKU7sa-6xGUAN44uFsYSUS_w79UVuu7qo/src/wayland-shm.c:145-170 | the last external reference takes on a pending size; the pool is released exactly if both counts are zero |
| `ShmPools.Pool.UnrefBuffer` | zig-pkg/N-V-__8AAA46JQABKU7sa-6xGUAN44uFsYSUS_w79UVuu7qo/src/wayland-shm.c:172-196 | the last reference of a buffer gives the pool's back; released exactly if nothing holds the pool |
| `ShmPools.Pool.DestroyResource` | zig-pkg/N-V-__8AAA46JQABKU7sa-6xGUAN44uFsYSUS_w79UVuu7qo/src/wayland-shm.c:310-317 | the pool resource goes; the pool stays while buffers or the compositor hold it |
| `ShmPools.Pool.GetData` | zig-pkg/N-V-__8AAA46JQABKU7sa-6xGUAN44uFsYSUS_w79UVuu7qo/src/wayland-shm.c:517-526 | the bytes of a live buffer lie in what is mapped |
| `ShmPools.Pool.RefPool` | zig-pkg/N-V-__8AAA46JQABKU7sa-6xGUAN44uFsYSUS_w79UVuu7qo/src/wayland-shm.c:600-612 | a reference to the pool keeps it, and its mapping stays |
| `ShmPools.Pool.RefBuffer` | zig-pkg/N-V-__8AAA46JQABKU7sa-6xGUAN44uFsYSUS_w79UVuu7qo/src/wayland-shm.c:560-564 | a reference to a buffer keeps the pool consistent |

## Left out

- Sockets, epoll, timerfd, mmap, fcntl, SIGBUS handling, libffi calls, va_list decoding, XML parsing, header printing, logging and the environment: no logic of their own, or foreign; what the kernel answers is an input.
- Ids handed out by the server: they get no zombie, and their reuse is safe only by rules of each interface that are not in this code.
- A null array pointer in a closure: marshalling does not let it through.
- Object arguments of messages: their ids are carried as values; looking them up and checking their interface is not modelled.
- Deprecated resources, and creating a second resource at an id: they break what the map expects, by design.
- Nested dispatch of the event loop from a timer callback, which would overwrite the chain of due timers.
- The wrap of read_serial after 2^32 reads while one thread sleeps: the serial is unbounded here.
- `wl_signal_emit`, which allows no edits, and `wl_priv_signal_final_emit`.
- PrivSignals.PrivSignal.EmitSignal: its two lists are sequences; the linked list itself is `LinkedLists`.
- Forward declarations printed by the scanner, which sort and drop doubles, and the names of arrays it prints.
- Globals.Display.UnbindRegistry: a callback that ends another registry does it in the pieces that are acts of their own, and cannot end the one that is already going. An act it may not do is left out. Running out of memory for an offer is not modelled.
- IdProtocol.ReachableInvariant: the two sides are steps on values; that the maps do the same in place is proved in `ObjectMaps`. The client table is below 2^32 - 2^24 entries, which the source cannot exceed.
- IdProtocol.AnnounceKeeps: a proxy is announced once; announcing it again, or passing a destroyed one, is an error of the application.
- ProxyLifetime.Client.QueueEvent: memory is a map from handles to proxies, and freeing removes the handle; the order of list links is not modelled.
- RingBuffers.RingBuffer.EnsureSpace: a new buffer holds one byte instead of none, and at most 2^63 bytes are to be stored; the source aborts beyond that.
- Senders.FdsBeforeBytes: a call of sendmsg that is interrupted is one that is made again.
- Readings.ConnectionRead: descriptors that the kernel itself drops are not modelled, nor blocks whose size is no whole number of descriptors; a call behind the given answers finds the socket empty. The answer to a call is what the socket has: bytes there is no room for are part of the next answer.
- Receiving.ReceiveEvents: what queueing an event does besides taking it is a list of changes to the object map; a receiver that misuses the map is excluded.
- Receiving.ReadMore: the loop is a method that calls itself.
- Sending.SendClosure: messages below 2 GiB; `Closures.SerializeClosure` says what becomes of a larger one before it gets to the connection. The descriptors of a message that is then not queued stay queued, as in the source.
- Connections.Connection.Flush: a blocked and a broken socket both give -1; the model tells them apart where the source looks at errno.
- PrivSignals.OrderIsReversed: with emissions inside handlers the order is turned as often as there are emissions, and nothing is said of it.
- Demarshalling.Demarshal: the message is consumed right after it is copied, which no one sees before the end.
- Scanners.EmitCode: requests and events of all interfaces are one sequence of message lists, and printing is appending to sequences.
- ShmPools.Pool.CreateBuffer: the destroy listener of the client is not modelled.
- TimerDispatch.Dispatch: when the kernel timer cannot be set, the due timers are disarmed and no callback runs, as in the source.
