# Tube in Dafny

Tube is a staged, multi-threaded web server: stages hand connections to each other through schedulers, a paged
copy-on-write buffer carries the bytes, and a write-back stage drains the output. This project models the parts of
it that are hard to get right and proves what they promise, for every input, every run and every interleaving.

| file | what it models |
|---|---|
| `Protocol.dfy`, `ProtocolSafety.dfy`, `ProtocolTheorems.dfy` | the connection-lock protocol: workers, pollers and write-back threads as program counters over shared queues; one step is one lock-protected section or one `try_lock`, so a scan is not atomic |
| `ReadPollers.dfy` | the read pollers on top of that protocol: event batches, registrations, expired lists |
| `LockOrder.dfy` | which mutexes each operation takes and in which order |
| `TaskQueue.dfy`, `MemoryPool.dfy`, `LinkedList.dfy`, `QueueScheduler.dfy` | the scheduler's heap: free-stack pool, circular intrusive list, fd table, and the queue they refine |
| `Pages.dfy`, `Buffer.dfy`, `CopyOnWrite.dfy`, `BufferFamily.dfy` | the paged byte queue for any page size, the buffer class, families of handles that share stores, and how the objects go through the families |
| `Stream.dfy` | the output stream, its writeables, and `flush_data` |
| `IoCache.dfy`, `IoCacheClass.dfy` | the LRU file cache that gives its mutex up while it loads |
| `Parser.dfy`, `ParserTheorems.dfy`, `ParserExact.dfy` | the mark/callback machinery of the HTTP parser over any automaton |
| `Conversation.dfy`, `HttpConnection.dfy`, `HeaderLines.dfy` | a keep-alive connection with bodies, `do_parse` with its page loop and skipped bytes, and a small header grammar |
| `Fcgi.dfy`, `FcgiClasses.dfy` | FastCGI records and name/value pairs (sections 3.3 and 3.4 of the FastCGI Specification 1.0) |
| `Controller.dfy` | the thread-pool controller |
| `Dots.dfy` | path normalisation of the static handler |
| `Basics.dfy` | what every module may use |

Code that updates state in place is a class or a method with a loop, proved equal to a specification function; the
properties are lemmas about those functions. System calls (`readv`, `writev`, `sendfile`, `try_lock`, `mmap`,
`malloc`, reading a file, the clock) are parameters that stand for any answer the call may give.

Some properties that one would expect do not hold of the code as it is. For each of them there is an
if-and-only-if:

- A buffer that owns its store may be changed while a copy exists only in the cases given by
  `OwnerPopKeepsCopiesExactly`, `OwnerAppendKeepsCopiesExactly` and `OwnerReadKeepsCopiesExactly`;
  `RecycledOwnerOverwritesCopy` is the history of `http/connection.cc:257-258`, where a copy of the chunk buffer is
  stored and the original is cleared and reused.
- A read poller never has a destroyed connection in its event batch if and only if there is at most one read poller
  (`SafeExactlyWithOnePoller`).
- Adding a connection to a scheduler without holding its lock strands a sleeping worker exactly as
  `AddKeepsWakeupsExactlyWhenCovered` says; the callers in the source all hold the lock.
- The outcome of parsing depends on where the input is cut exactly when a field is marked again, read or reset while
  bytes of it are pending (`CutFreeExactlyWhenDisciplined`), and how much `do_parse` consumes depends on it exactly
  when the parser goes on behind a request with a content length (`LoopIsCutFreeExactly`), which it does when the
  request also has chunks (`LengthAndChunksDependOnPages`). The same condition decides whether it matters when the
  bytes arrive (`TimingExactly`, `LengthAndChunksDependOnTiming`).
- A file that was loaded while other threads had the cache is found again exactly as `LoadedIsHitExactly` says, since
  `add_entry` keeps an index entry that exists already.
- `flush_data` stops at the first writeable that sends nothing, so it empties the stream exactly under the condition
  of `FlushDrainsExactly`.
- `extract_record` does not count the header in its size check (`PrematureExactly`, `PrematureExample`), contents above
  65535 bytes are truncated (`WireRoundTripExactly`, `LongContentIsLost`), and lengths above 127 are written without
  their flag bit (`PairsRoundTripExactly`, `LongNameIsLost`). `set_environment` accepts a pair that crosses the limit of
  65535 bytes (`CollectedAllExactly`), and then the environment does not arrive (`EnvironmentArrivesExactly`).
- `string_remove_dots` leaves a dot component before the first slash alone (`DotsRemovedExactly`, `LeadingDotsStay`).
- The memory counter of the output stream misses exactly the bytes appended as whole buffers
  (`Stream.OutputStream.AppendBuffer`).

## Model

| member | source | states |
|---|---|---|
| `ProtocolSafety.StepInv` | core/pipeline.cc:146-250 | every step of every thread keeps the protocol invariant: program counters fit the locks, scheduler mutexes exclude, each lock has one holder, nothing refers to a destroyed connection, and no wakeup is lost |
| `ProtocolTheorems.NoLostWakeup` | core/pipeline.cc:146-228 | in every reachable state a worker that sleeps un-notified sleeps on a locking scheduler, and each connection queued there is locked, retired, or a thread has unlocked and still owes the scheduler its reschedule |
| `ProtocolTheorems.RunnableConnectionIsServed` | core/pipeline.cc:166-228 | from every reachable state a worker asleep on a queue with a runnable connection can be brought to hold a connection, unless another thread takes that connection first, by steps that only continue running threads |
| `ProtocolTheorems.OwedWakeupArrives` | core/pipeline.cc:166-173 | a reschedule that is owed can always be delivered, whoever is inside the scheduler mutexes on the way |
| `ProtocolTheorems.WokenPicks` | core/pipeline.cc:204-228 | a notified worker takes the mutex back, scans, and leaves with a locked connection unless the queued one is taken first |
| `ProtocolTheorems.AddKeepsWakeupsExactlyWhenCovered` | core/pipeline.cc:159-163 | `add_task` leaves no sleeper behind if and only if the connection is locked, retired or owed a reschedule, the queue was empty, or nobody sleeps |
| `ProtocolTheorems.LockBaton` | core/stages.cc:51-66 | over every run a taken connection lock has exactly one holder, a thread or the write-back stage it is parked in, and a free one has none |
| `ProtocolTheorems.OnlyHolderUnlocks` | core/stages.cc:61-64 | a lock is released only by a step of the thread that is its sole holder |
| `ProtocolTheorems.KeepExactlyWhenParked` | core/wrapper.cc:53-70 | when a response is destroyed, its stage returns "keep lock" if and only if the connection has been handed to write-back, and "release" if and only if the worker still holds it |
| `ProtocolTheorems.KeepExactlyWhenOpenAndPending` | core/wrapper.cc:62-70 | the return value is "keep lock" if and only if the response is not closed and has output to be written |
| `ProtocolTheorems.OutputDecides` | core/wrapper.cc:62-70 | output that was produced keeps the lock of an open response, drained output releases it |
| `ProtocolTheorems.ParkedExactlyWhenOpenAndPending` | core/wrapper.cc:53-70 | destroying a response hands the connection to write-back if and only if it is open and has output; a closed or drained one is scheduled nowhere and the worker stays its sole holder |
| `ProtocolTheorems.ResponseOutcome` | core/wrapper.cc:53-70 | from the evaluation of a response to the worker loop: parked and still locked, or unlocked with the other stages to be woken |
| `ProtocolTheorems.HangUpRetires` | core/stages.cc:269-303 | a connection that has hung up is retired, then unlocked, and nobody is woken for it |
| `ProtocolTheorems.PickedInOrder` | core/pipeline.cc:189-228 | a worker takes the head of a lock-suppressing queue, and of any other the first connection it can lock; those before it are locked, retired or owed a reschedule |
| `ProtocolTheorems.NoUseAfterDispose` | core/pipeline.cc:322-344 | no queue, no expired list, not the write poller and no thread that holds a connection refers to one that has been destroyed |
| `ReadPollers.OnePollerIsSafe` | core/stages.cc:269-303 | with one read poller no run leads to a batch of events with a destroyed connection in it |
| `ReadPollers.SafeExactlyWithOnePoller` | core/stages.cc:154-171 | a server with a handler stage, a write poller and n read pollers has a run to such a batch if and only if n is at least two |
| `LockOrder.PathsOrdered` | core/stages.cc:90-123 | every operation acquires blocking mutexes in the order PollOut, PollIn, FcgiCompletion, scheduler, controller, file cache, FastCGI connection pool and leaves with none held |
| `LockOrder.NoDeadlock` | core/stages.cc:374-406 | no run, with any number of threads and schedulers, reaches a set of threads that wait for one another |
| `LockOrder.SomeThreadCanAct` | core/pipeline.cc:166-187 | as long as an operation is under way some thread can take its next action |
| `TaskQueue.AddedPlaces` | core/pipeline.cc:146-164 | a task that was queued comes to the front, a new one to the back, and the others keep their order |
| `TaskQueue.WithoutAt` | core/pipeline.cc:240-250 | removing a queued connection cuts out just its position |
| `Memory.AlignedIsLeast` | utils/mempool.cc:10-17 | `align_size` is the least multiple of the alignment that is not below the size |
| `Memory.FillStack` | utils/mempool.cc:37-44 | the free stack starts with every slot once |
| `Memory.MemoryPool.constructor` | utils/mempool.cc:19-45 | the aligned block is cut into `blk_size / obj_size` slots, all free; a failed mapping gives none |
| `Memory.MemoryPool.AllocObject` | utils/mempool.h:60-68 | hands out an object that overlaps no live one, from the pool while it has a free slot, else from `malloc` |
| `Memory.MemoryPool.FreeObject` | utils/mempool.h:70-78 | gives an object back and keeps the partition of the slots; the stack has room for it |
| `Memory.MemoryPool.FreeSlotIsApart` | utils/mempool.cc:37-71 | a free slot lies in the pool and overlaps no live object |
| `Memory.MemoryPool.RoomToFree` | utils/mempool.cc:73-77 | while a pool object is live the free stack is not full |
| `Memory.MemoryPool.SlotsAccounted` | utils/mempool.cc:30-77 | free slots and live pool objects add up to the capacity |
| `LinkedList.EqualIteratorsAreIdentical` | utils/list.h:44-51 | on the nodes of one circular list, comparing next and prev links is comparing addresses |
| `LinkedList.InsertKeepsCircular` | utils/list.h:85-103 | linking a new node behind any node keeps the ring circular, with the node in its place |
| `LinkedList.RemoveKeepsCircular` | utils/list.h:128-134 | unlinking a node other than the sentinel keeps the ring circular, without it |
| `LinkedList.List.PushBack` | utils/list.h:85-93 | a fresh node carries the value at the end of the list |
| `LinkedList.List.PushFront` | utils/list.h:95-103 | a fresh node carries the value at the front of the list |
| `LinkedList.List.Erase` | utils/list.h:128-134 | takes exactly that node out and gives it back to the pool |
| `LinkedList.List.PopFront` | utils/list.h:108-116 | takes the first node out, or does nothing |
| `Scheduler.FDMap.Find` | utils/fdmap.h:55-58 | finds the value stored for a descriptor, if any |
| `Scheduler.FDMap.Insert` | utils/fdmap.h:71-79 | stores a value unless the descriptor has one already |
| `Scheduler.FDMap.Erase` | utils/fdmap.h:60-69 | forgets the descriptor and reports whether it was there |
| `Scheduler.BijectiveNoDup` | core/pipeline.cc:146-164 | when list and index are in bijection no connection is queued twice and the index knows exactly the queued ones |
| `Scheduler.QueueScheduler.AddTask` | core/pipeline.cc:146-164 | keeps list and index in bijection; a queued connection moves to the front, a new one to the back, and workers are notified exactly when the queue was empty |
| `Scheduler.QueueScheduler.RemoveTask` | core/pipeline.cc:240-250 | leaves neither list nor index referring to the connection and the others in order |
| `Scheduler.QueueScheduler.PickNolock` | core/pipeline.cc:189-202 | takes the oldest connection out |
| `Scheduler.QueueScheduler.Scan` | core/pipeline.cc:214-223 | the scan by link-comparing iterators ends, tries every queued connection at most once and in order, and stops at the first it can lock |
| `Scheduler.QueueScheduler.PickLock` | core/pipeline.cc:204-228 | one scan takes exactly the first connection it can lock out of the queue, and changes nothing if there is none |
| `Pages.SizeLaw` | core/buffer.cc:89-117 | the size counter is the page count times the page size less the two offsets |
| `Pages.AppendRefines` | core/buffer.cc:119-148 | append keeps the page invariant and is concatenation, for every page size |
| `Pages.PopRefines` | core/buffer.cc:209-232 | pop keeps the page invariant, also when the last page is full to its end, and drops a prefix or refuses |
| `Pages.ReadRefines` | core/buffer.cc:89-117 | a vectored read of any allowed length, also one that fills both pages, is concatenation |
| `Pages.OfferIsPrefix` | core/buffer.cc:248-274 | what is offered to `writev` is a prefix of the contents and is not empty unless they are, with any number of pages |
| `Pages.OfferLength` | core/buffer.cc:248-274 | everything is offered from at most two pages, and else two pages less the free bytes of the last page |
| `Pages.SegmentsCover` | core/buffer.cc:276-290 | the page segments, one after the other, are the contents |
| `BufferClass.Buffer.constructor` | core/buffer.cc:21-28 | a new buffer is empty and owns a store of its own |
| `BufferClass.Buffer.Copy` | core/buffer.cc:30-36 | a copy has the same bytes, shares the store and borrows it |
| `BufferClass.Buffer.Assign` | core/buffer.cc:38-48 | assignment drops one reference and borrows the other store |
| `BufferClass.Buffer.CopyForWrite` | core/buffer.cc:63-77 | moves to a new store with the same bytes, leaving the shared one untouched |
| `BufferClass.Buffer.Append` | core/buffer.cc:119-148 | the page loop computes the specified append; a handle that had to copy leaves the shared store alone |
| `BufferClass.Buffer.Pop` | core/buffer.cc:209-232 | the page loop computes the specified pop and reports whether there were enough bytes |
| `BufferClass.Buffer.Clear` | core/buffer.cc:242-246 | leaves the buffer empty |
| `BufferClass.Buffer.CopyFront` | core/buffer.cc:164-185 | copies exactly the first bytes, across pages, or refuses |
| `BufferClass.CopyPages` | core/buffer.cc:171-184 | the copying loop yields the prefix asked for |
| `BufferClass.Buffer.ReadFromFd` | core/buffer.cc:89-117 | any read result is appended; an error changes nothing |
| `BufferClass.Gather` | core/buffer.cc:255-270 | the vector of at most two pages holds the offered prefix |
| `BufferClass.Buffer.WriteToFd` | core/buffer.cc:248-274 | sends and pops exactly what was accepted |
| `CopyOnWrite.Isolation` | core/buffer.cc:21-83 | over any run of create, copy, assign, destroy and mutate in which no owner changes a shared store, every handle is a byte queue of its own and each store has at most one owner |
| `CopyOnWrite.StepRefines` | core/buffer.cc:63-83 | one such operation does to all queues what it does to independent ones |
| `CopyOnWrite.SharedIsCount` | core/buffer.cc:79-83 | another handle uses the store if and only if its use count is above one |
| `CopyOnWrite.CopiesExactly` | core/buffer.cc:63-83 | a mutation moves its handle to a new store, which it then owns, if and only if it borrows its store and another handle uses it |
| `CopyOnWrite.OwnerPopKeepsCopiesExactly` | core/buffer.cc:79-83 | a copy survives a pop by the owner of the shared store if and only if the pop is refused, stays inside the first page, or there is only one page |
| `CopyOnWrite.OwnerAppendKeepsCopiesExactly` | core/buffer.cc:119-148 | a copy survives an append by the owner of the shared store if and only if the data leaves a free byte in the owner's last page and the copy sees no other bytes where it goes |
| `CopyOnWrite.OwnerReadKeepsCopiesExactly` | core/buffer.cc:89-117 | the same for a read from a socket by the owner |
| `BufferFamily.RecountedIsCounted` | core/buffer.cc:21-83 | create, copy, assign, destroy and mutate keep the use count of every store equal to the number of handles that refer to it |
| `BufferFamily.Perform` | core/buffer.cc:21-83 | an operation on one of any number of buffer objects does to all of them, to their stores and to the use counts what it does to the family |
| `BufferFamily.PerformAll` | core/buffer.cc:21-83 | any run of operations on buffer objects ends in objects that stand for the family at the end of that run |
| `BufferFamily.ObjectsAreIsolated` | core/buffer.cc:21-83 | after any run in which no owner changes a shared store, each buffer object is intact and holds what a byte queue of its own would hold |
| `CopyOnWrite.RecycledOwnerOverwritesCopy` | http/connection.cc:257-258 | copying a buffer, clearing the original and appending to it again replaces the bytes of the copy |
| `Stream.WriteSplits` | core/filesender.cc:48-67 | a write by a buffer or a file sends a prefix of what is pending and keeps the rest |
| `Stream.OffersSomething` | core/buffer.cc:248-274 | while bytes are pending, a non-empty prefix of them is offered |
| `Stream.OfferedExactly` | core/filesender.cc:48-67 | `writev` is offered two pages of a buffer as above, `sendfile` at most one page of a file |
| `Stream.WriteReports` | core/stream.cc:36-51 | unless the first writeable is an empty buffer, a write returns what the system call returned, an error included, and sends that many of the offered bytes |
| `Stream.ErrorExactly` | core/stream.cc:36-51 | a write fails if and only if it calls the system and the call fails, with the same error |
| `Stream.DataPlaces` | core/stream.cc:53-67 | data goes into the last writeable if that is a buffer, and else into a new buffer behind it |
| `Stream.OutputStream.AppendData` | core/stream.cc:53-67 | puts the data behind everything pending, in the last buffer or a new one |
| `Stream.OutputStream.AppendFile` | core/stream.cc:69-75 | puts the bytes of a file from an offset on behind everything pending |
| `Stream.OutputStream.AppendBuffer` | core/stream.cc:78-84 | puts a whole buffer behind everything pending; its bytes are missing from the memory counter |
| `Stream.OutputStream.WriteIntoOutput` | core/stream.cc:36-51 | what the system call took, followed by what is pending, is what was pending; the result and the memory counter follow |
| `Stream.OutputConserved` | core/stream.cc:36-91 | for any interleaving of appends and partial writes, the bytes put on the wire followed by the bytes pending are all bytes appended, in order |
| `Stream.Interleave` | core/stream.cc:36-91 | the methods of the stream, called in any order, leave the queue of the specified run and hand its bytes to the system calls |
| `Stream.OutputStream.FlushData` | core/wrapper.cc:104-122 | nothing is lost; the result is an error if and only if the last system call failed, namely that error, and else the number of bytes that the calls took |
| `Stream.FlushDrainsExactly` | core/wrapper.cc:104-122 | with a socket that always accepts something the stream is emptied if and only if every file is long enough and no writeable before the last is empty |
| `Stream.EmptyWriteableStopsFlush` | core/wrapper.cc:111-117 | an empty buffer in front of data keeps the data from being flushed |
| `IoCache.LookSound` | http/io_cache.cc:106-132 | the first critical section keeps list, heap and index consistent, and a hit is fresh content of the path |
| `IoCache.HitExactly` | http/io_cache.cc:106-121 | an indexed path is a hit if and only if its entry is no older than asked for, has a stamp and has the size asked for; a hit moves the entry to the front and changes nothing else, any other entry is freed |
| `IoCache.InterleavedSafety` | http/io_cache.cc:54-155 | with any interleaving of T threads every index entry leads to a listed, allocated entry of its path, entries are listed once, and entries plus loads are at most M + T - 1 |
| `IoCache.BoundIsReached` | http/io_cache.cc:123-140 | for every T and M some run reaches M + T - 1 entries |
| `IoCache.AccessAloneIsLru` | http/io_cache.cc:142-155 | without interference an access keeps list and index in bijection, the limit, and the order of last use |
| `IoCache.ResultIsFresh` | http/io_cache.cc:106-121 | what is returned is the content of that path, with the size asked for and a stamp no older than asked for |
| `IoCache.SecondAccessHits` | http/io_cache.cc:106-155 | after an access that returned something, the same access returns the same bytes without reading the file |
| `IoCache.EvictsLeastRecentlyUsed` | http/io_cache.cc:71-81 | an entry leaves only as the stale entry of the path or, in a full cache, as the least recently used one |
| `IoCacheClass.IOCache.AccessCache` | http/io_cache.cc:142-155 | whatever other threads do while it loads, the outcome is that of its two critical sections, and every acquisition of the mutex is released |
| `IoCacheClass.IOCache.LoadCache` | http/io_cache.cc:123-140 | makes room, gives the mutex up, and adds the entry to whatever the cache has become; a large or unreadable file adds nothing |
| `IoCacheClass.IOCache.SyncCache` | http/io_cache.cc:106-121 | a fresh entry moves to the front and is returned; a stale one is freed and loaded again |
| `IoCacheClass.IOCache.DropEntry` | http/io_cache.cc:71-81 | frees the last entry, which is allocated, and forgets its path |
| `IoCacheClass.AccessIsARun` | http/io_cache.cc:123-155 | a call, with any steps of other threads while it loads, is part of a run of the interleaved cache: its critical sections are the access and the finish of its thread |
| `IoCacheClass.AccessKeepsBound` | http/io_cache.cc:123-155 | whatever T threads have done before and during a call, it leaves a sound cache with at most M + T - 1 entries |
| `IoCacheClass.LoadedIsHitExactly` | http/io_cache.cc:54-69 | after a load with interference the same access is a hit on the loaded bytes if and only if no other thread has indexed the path since, or did so with a current entry of the same bytes |
| `IoCacheClass.AloneIsSequential` | http/io_cache.cc:142-155 | without interference the outcome is that of the sequential cache |
| `IoCacheClass.SequentialRunIsLru` | http/io_cache.cc:54-155 | every run of one thread keeps the bijection, the limit and the order of last use |
| `Parser.RunSegment` | http/http_parser.rl:444-484 | the loop over a segment computes the specified run: unfinished chunk first, open fields re-marked, actions per byte, open fields delivered at the end |
| `ParserTheorems.ExecuteAgrees` | http/http_parser.rl:444-484 | a disciplined segment delivers what a byte-by-byte stream delivers, or both fail |
| `ParserTheorems.FedEats` | http/http_parser.rl:89-108 | chunk data of any length is delivered byte for byte, wherever the segment ends |
| `ParserTheorems.MarkedIsDelivered` | http/http_parser.rl:46-60 | a field receives exactly the bytes from its mark up to where it is emitted, and fails if and only if these are more than 80 KiB |
| `ParserTheorems.EventsLogged` | http/connection.cc:221-229 | a header line is read from the field and the value and from nothing else; the end of a request reads and closes all six fields |
| `ParserTheorems.EndsExactly` | http/connection.cc:256-261 | chunk data is cut at the ends of requests and nowhere else |
| `ParserTheorems.DueIsLast` | http/connection.cc:121-125 | whether a body is due is what the last completed request says |
| `ParserTheorems.RunAgrees` | http/http_parser.rl:46-60 | any cutting of a disciplined input, and the cutting after every byte of any input, ends where the stream ends |
| `ParserExact.CutsDoNotMatter` | http/http_parser.rl:264-304 | any two cuttings of a disciplined input give the same fields, chunk data and final state, or both fail |
| `ParserExact.CutFreeExactlyWhenDisciplined` | http/http_parser.rl:46-60 | an input that does not fail is parsed alike for every cutting if and only if no field is marked again, read or reset while it has pending bytes |
| `ParserExact.MarkingAgainDependsOnCuts` | http/http_parser.rl:113-116 | the condition is needed: with an automaton, not that of the grammar, that marks an open field again, two bytes are delivered differently depending on the cutting |
| `HttpConnection.GatherReplays` | http/connection.cc:180-229 | accumulating splits what is delivered at its events and loses nothing: the deliveries can be told from the strings |
| `HttpConnection.ReplayGathers` | http/connection.cc:180-229 | any strings, delivered one after the other with an event behind each, are accumulated as they are |
| `HttpConnection.GatherBytes` | http/connection.cc:180-214 | delivered bytes are appended to the current string, in as many pieces as they come |
| `HttpConnection.GatherEvent` | http/connection.cc:221-229 | an event finishes the current string and clears it |
| `HttpConnection.GatheredAlike` | http/connection.cc:180-229 | the strings a connection accumulates from each field do not depend on the cutting |
| `HttpConnection.ParsePages` | http/connection.cc:139-154 | the page loop computes the specified loop over the page segments |
| `HttpConnection.SegmentsConsume` | http/connection.cc:139-157 | however the input is cut, the loop consumes what the stream takes |
| `HttpConnection.HttpConnection.DoParse` | http/connection.cc:117-157 | for any input: nothing while a body is due, else unread body bytes are skipped, the rest is parsed as the pages cut it, and exactly what the parser did not consume stays in the buffer |
| `HttpConnection.HttpConnection.ParseMore` | http/connection.cc:117-157 | on disciplined input in which the parser stops at every due body, the pages do not matter: what is left are exactly the bytes after a header block with a positive content length, or none |
| `HttpConnection.HttpConnection.Session` | http/connection.cc:117-157 | any sequence of arrivals, calls of `do_parse` and handled bodies over such input takes the connection through the conversation it stands for, event by event, up to the first failure |
| `Conversation.TimingDoesNotMatter` | http/connection.cc:117-157 | over every run of arrivals, calls of `do_parse` and handled bodies on whose bytes the parser stops at every due body, what is parsed, skipped and left depends only on the bytes and on what the handlers left to be skipped, not on the timing |
| `Conversation.TimingExactly` | http/connection.cc:117-157 | bytes are parsed alike however they arrive and whenever `do_parse` is called if and only if the parser stops at every request with a content length that does not end them |
| `Conversation.SkipsExactly` | http/connection.cc:126-137 | after a handler has left n bytes unread, the parser goes on exactly behind the next n bytes, and waits until they have arrived |
| `Conversation.SkippedNeverParsed` | http/connection.cc:126-137 | the same over every run of arrivals and calls of `do_parse` |
| `HttpConnection.LoopIsCutFreeExactly` | http/connection.cc:139-157 | how much the loop consumes is the same for every cutting if and only if the parser stops at every request with a content length that does not end the input |
| `HeaderLines.AlwaysDisciplined` | http/http_parser.rl:360-378 | a grammar of header lines, bodies and chunks that marks, emits and reports lines never disturbs a pending field, for every input |
| `HeaderLines.HeaderLinesAreCutFree` | http/http_parser.rl:288-304 | without chunks every input of that grammar that does not fail is parsed and consumed alike however it is cut |
| `HeaderLines.LengthAndChunksDependOnPages` | http/http_parser.rl:279-304 | a request with both a length and a chunk header shows that the page loop can depend on the pages |
| `HeaderLines.LengthAndChunksDependOnTiming` | http/http_parser.rl:279-304 | what is parsed of the same request depends on when it arrives |
| `HeaderLines.HeaderLinesAreTimeFree` | http/http_parser.rl:288-304 | without chunks every input of that grammar is parsed alike however it arrives |
| `Fcgi.HeaderRoundTrip` | modules/mod_fcgi/fcgi_proto.cc:8-50 | headers encode and decode to themselves, both ways |
| `Fcgi.HeaderBytes` | modules/mod_fcgi/fcgi_proto.cc:8-19 | the fields in their order, the two 16-bit numbers with their high byte first |
| `Fcgi.TotalIsLeast` | modules/mod_fcgi/fcgi_proto.cc:57-72 | content and padding are the least multiple of four not below the content length, which is the size modulo 65536 |
| `Fcgi.PayloadBytes` | modules/mod_fcgi/fcgi_proto.cc:21-36 | the content is followed by zeros up to the total length |
| `Fcgi.WireRoundTripExactly` | modules/mod_fcgi/fcgi_proto.cc:8-72 | completely buffered records are read back unchanged, leaving nothing, if and only if no content exceeds 65535 bytes |
| `Fcgi.PrematureExactly` | modules/mod_fcgi/fcgi_proto.cc:187-200 | a record is handed out before its content is complete if and only if the buffer has at least the header and the content length but not their sum |
| `Fcgi.PrematureIsMisread` | modules/mod_fcgi/fcgi_proto.cc:187-213 | such a record is never read back as it was sent |
| `Fcgi.PrematureExample` | modules/mod_fcgi/fcgi_proto.cc:194-199 | a lone header that announces four bytes is handed out |
| `Fcgi.LongContentIsLost` | modules/mod_fcgi/fcgi_proto.cc:57-66 | a content of 65536 bytes arrives empty |
| `Fcgi.LongNameIsLost` | modules/mod_fcgi/fcgi_proto.cc:118-119 | a name of 128 bytes does not decode to itself |
| `Fcgi.LengthBytes` | modules/mod_fcgi/fcgi_proto.cc:97-124 | a length up to 127 is one byte, any other is four bytes, high byte first, of its low 32 bits |
| `Fcgi.ShortPairBytes` | modules/mod_fcgi/fcgi_proto.cc:118-129 | the length of the name, the length of the value, the name, the value |
| `Fcgi.FlaggedLengthIsRead` | modules/mod_fcgi/fcgi_proto.cc:118-124 | with the flag bit that the code leaves out every length of 31 bits would be read back |
| `Fcgi.PairsRoundTripExactly` | modules/mod_fcgi/fcgi_proto.cc:97-131 | pairs decode to themselves if and only if every name and value has at most 127 bytes |
| `Fcgi.CutPairsAreMisread` | modules/mod_fcgi/fcgi_proto.cc:97-131 | encoded pairs that are cut short anywhere do not decode to the pairs |
| `FcgiClasses.AppendContentData` | modules/mod_fcgi/fcgi_proto.cc:21-36 | appends the content and its padding, or nothing for an empty record |
| `FcgiClasses.FcgiEnvironment.BeginRequest` | modules/mod_fcgi/fcgi_proto.cc:82-95 | appends the begin record once |
| `FcgiClasses.FcgiEnvironment.SetEnvironment` | modules/mod_fcgi/fcgi_proto.cc:108-131 | appends an encoded pair, or refuses outside a request and above the limit |
| `FcgiClasses.FcgiEnvironment.CommitEnvironment` | modules/mod_fcgi/fcgi_proto.cc:133-148 | appends one parameter record and forgets the pairs |
| `FcgiClasses.FcgiEnvironment.PrepareRequest` | modules/mod_fcgi/fcgi_proto.cc:150-172 | appends the empty parameter record and the header of the body |
| `FcgiClasses.RequestBytes` | modules/mod_fcgi/fcgi_proto.cc:82-172 | the bytes of a begin request, of the empty parameter record and of the header of a body |
| `FcgiClasses.StartRequest` | modules/mod_fcgi/fcgi_proto.cc:82-148 | `begin_request`, `set_environment` for every pair and `commit_environment` append the wire form of a begin record and one record with what was collected |
| `FcgiClasses.CollectedAllExactly` | modules/mod_fcgi/fcgi_proto.cc:115-117 | no pair is refused if and only if those before the last take less than 65535 bytes |
| `FcgiClasses.CommitExactly` | modules/mod_fcgi/fcgi_proto.cc:133-148 | a committed environment arrives whole if and only if it has at most 65535 bytes |
| `FcgiClasses.EnvironmentArrivesExactly` | modules/mod_fcgi/fcgi_proto.cc:108-148 | what is committed decodes to the pairs that were set if and only if they take at most 65535 bytes and all names and values have at most 127 |
| `FcgiClasses.FcgiResponseParser.ExtractRecord` | modules/mod_fcgi/fcgi_proto.cc:187-200 | does on a paged buffer what the specification does on its bytes |
| `FcgiClasses.FcgiResponseParser.BypassContent` | modules/mod_fcgi/fcgi_proto.cc:202-206 | drops the content if all of it is there |
| `FcgiClasses.FcgiResponseParser.ReadRecords` | modules/mod_fcgi/fcgi_completion_stage.cc:120-166 | taking records until there is none depends on the bytes only, not on the pages |
| `FcgiClasses.SendAll` | modules/mod_fcgi/fcgi_proto.cc:8-36 | any list of records is appended in its wire form, whatever the pages |
| `FcgiClasses.FcgiResponseParser.ReadBack` | modules/mod_fcgi/fcgi_proto.cc:187-213 | a buffer that holds the wire form of any list of records, on any pages, is read empty, and yields the list if and only if no content exceeds 65535 bytes |
| `ControllerModel.Controller.LoadRises` | core/controller.cc:118-133 | the summing loop decides whether the later half of the history is a real load and no lower than the earlier half |
| `ControllerModel.Controller.CheckAutoCreate` | core/controller.cc:83-136 | a check creates a thread exactly when the specified decision wants one, and leaves the specified state |
| `ControllerModel.RisingLoadIsAnswered` | core/controller.cc:83-136 | a controller that is ready says yes to a load that never falls and is at least 15 in the later half |
| `ControllerModel.FallingLoadIsNot` | core/controller.cc:118-133 | a load whose later samples are all below the earlier ones gets a no |
| `ControllerModel.MoreLoadKeepsYes` | core/controller.cc:118-133 | more load in the later half or less in the earlier half never turns a yes into a no |
| `ControllerModel.IdleSampleRefuses` | core/controller.cc:118-133 | one sample below 15 in the later half gives a no |
| `ControllerModel.OnlyWhenReady` | core/controller.cc:83-117 | a yes needs an empty reserve, at most 128 threads, eight samples, and no better speed with fewer threads |
| `ControllerModel.LoadIsBalance` | core/controller.cc:34-82 | over every run the load is all increases less all decreases, and the speed the decreases since the last check |
| `ControllerModel.HistoryIsRecent` | core/controller.cc:83-100 | over every run the history are the loads at the last sixteen checks |
| `ControllerModel.BestIsRemembered` | core/controller.cc:83-100 | over every run the best speed is the highest that a check has seen, with the number of threads when it was first seen |
| `ControllerModel.Drive` | core/controller.cc:34-148 | the methods, called as any run says, go through the states of that run and create threads at its checks |
| `ControllerModel.RateBound` | core/controller.cc:83-148 | over any run creations are at least 17 checks apart, n checks create at most (n + 9) / 17 threads, at most 129 exist, and the history has at most 16 samples |
| `ControllerModel.RateIsReached` | core/controller.cc:83-148 | for every n some run of n checks creates (n + 9) / 17 threads |
| `Dots.RemoveDots` | http/static_handler.cc:16-36 | the loop splits at slashes, blanks every "." and ".." after the first slash, and joins again |
| `Dots.SplitJoin` | http/static_handler.cc:16-36 | joining slash-free components and splitting again gives the components |
| `Dots.JoinSplit` | http/static_handler.cc:16-36 | splitting any path and joining again gives the path |
| `Dots.Idempotent` | http/static_handler.cc:16-36 | normalising twice is normalising once |
| `Dots.BlankedExactly` | http/static_handler.cc:16-36 | the first component stays; any other stays or becomes empty, and is empty if and only if it was "", "." or ".." |
| `Dots.DotsRemovedExactly` | http/static_handler.cc:16-36 | a dot component is left if and only if the component before the first slash is one; a path that begins with a slash has none |
| `Dots.LeadingDotsStay` | http/static_handler.cc:16-36 | "../x" is left as it is |
| `Dots.UnchangedExactly` | http/static_handler.cc:16-36 | a path is unchanged if and only if it has no dot component after the first slash |

## Left out

- Connections with a continuation (`has_continuation`, `resched_continuation`) and the FastCGI completion stage that
  they belong to: the protocol covers runs without them; only the mutexes of that stage appear, in the lock order.
- Idle expiry of connections in the read poller (`core/stages.cc:220-231`), and that each connection is retired at
  most once.
- Poller back ends, sockets, timers as data structures, logging, configuration, compression, the C interface and the
  Python binding.
- Fairness of the operating system's scheduler and of its mutexes: liveness is stated as what the running threads can
  still do, from every reachable state.
- The generated tables of the HTTP grammar: the automaton is a parameter. That this grammar is disciplined, and
  reprocessing the very first byte in its start state, are not part of the model; neither is a chunk that ends a request of identity
  encoding (`http/http_parser.rl:101-103`), which that grammar cannot reach.
- What the parser leaves in its fields after a failure: the model states only that it has failed.
- `HttpConnection.HttpConnection.Session`: takes the number of body bytes that a handler leaves to be skipped as given;
  `Request::read_data` (core/wrapper.cc:24-43), which lowers it, copies buffered bytes without removing them and is not
  part of this model. It is stated for input that is disciplined and at whose due bodies the parser stops, the conditions
  that `CutFreeExactlyWhenDisciplined`, `LoopIsCutFreeExactly` and `TimingExactly` show to be exact.
- `HeaderLines.AlwaysDisciplined`: is about a small grammar of header lines, bodies and chunks that has the actions of
  the source's grammar, not about that grammar.
- `HeaderLines.HeaderLinesAreCutFree`: is about the same small grammar without its chunks.
- `HeaderLines.HeaderLinesAreTimeFree`: is about the same small grammar without its chunks.
- `HeaderLines.LengthAndChunksDependOnPages`: gives the failing request in the small grammar.
- `HeaderLines.LengthAndChunksDependOnTiming`: gives the failing request in the small grammar.
- `ParserExact.MarkingAgainDependsOnCuts`: shows that the condition is needed with an automaton made for it, not with an
  input of the source's grammar.
- A file whose length is not the size that `stat` reported: `http/io_cache.cc:13-30` reads to the end of the file into a
  block of that size, and the model takes the loaded bytes as a value of any length.
- `FcgiClasses.FcgiResponseParser.ReadRecords`: models taking records one after the other; what
  `FcgiCompletionStage::run_parser` does with their content, and its exit on an error there, belong to the content
  parser.
- `ProtocolTheorems.NoUseAfterDispose`: says nothing about the event batches of the read pollers, whose steps assume that
  a reported connection is alive; `ReadPollers` states exactly when that holds.
- The other back ends of the pollers: the batches are those of the epoll back end.
- Pages are values: that two stores hold different blocks of memory, and the pointers to pages that an iterator hands
  out, are not modelled, and a fresh page counts as zero-filled although `malloc` promises nothing about it.
- `Buffer::append(Buffer&)`, self-append, `pop_page` and `copy_front` into a buffer.
- The writeables of a stream are held by value: a buffer appended to a stream is isolated from its source as
  `CopyOnWrite.Isolation` says, which the stream does not restate.
- `Response::write_data` and its memory threshold, and `append_writeable` of other kinds of writeables.
- `List::clear` and `pop_back`, and the locking variant of the pool.
- `Memory.AlignedIsLeast`: states `align_size` by division for masks of low one bits instead of bit operations.
- Fixed-width arithmetic: sizes, counters and offsets are unbounded, except where 16 and 32 bits matter in FastCGI;
  the bounds checks of the fd table are preconditions, as in the source.
- The content parser of FastCGI responses, `parse_range`, directory listings and virtual hosts.
