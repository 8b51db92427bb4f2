# FeatureSpy, modelled and verified in Dafny

FeatureSpy is an encrypted, deduplicating store. A client cuts a file into chunks where a rolling hash of the content says
so, asks a key enclave for two keys per chunk, encrypts the chunks, and uploads them with a recipe; the server keeps the
chunks in container files and sends them back on a restore. An enclave on the server counts how often the first bytes of a
chunk recur, to notice clients that probe for content. The repository also vendors a lock-free queue, a JSON library and
an HTTP response parser. This project models the code that decides whether all of that is right, and proves it right, or
proves exactly when it is.

Code that updates fields and buffers is a class or a method here, proved against a specification function; concurrent code
is a state machine whose events are single atomic accesses, with any number of threads; the parts that only compute are
functions. `dafny verify dfyconfig.toml` checks everything.

## How the modules fit together

- **Lock-free queue.** `CircularIndex` is the arithmetic on wrapping 64-bit counters. `DequeueTickets` is the ticket protocol
  of one producer and any number of consumers, `SharedQueue` puts it on top of recycled blocks, `SharedIndex` adds the
  circular block index that consumers read while the producer overwrites and replaces it, `SoloQueue` says what one thread
  gets done when it goes on alone, and `ExplicitProducer` is the single-threaded code of one sub-queue with its block ring
  and growable index, refined to a FIFO sequence. `FreeList` is the reference-counted free list and `ProducerTable` the chain
  of hash tables from threads to producers. `Tiling` holds facts about consecutive ranges, which the counters of the key
  exchange and the restore batches use as well, and `Sequences` those about putting sequences together and counting in them.
- **Container store.** `ContainerStore` on top of `ContainerNames` (the next name is the next permutation), `ContainerCache`
  (a pool of 128 slots) and `LruCache`; `Bytes` is the copy into a buffer.
- **Key exchange.** `CtrSessions` follows the two counters through logins, resets and lost responses; `CtrMask` follows the
  mask bytes (`ByteBits` makes them from numbers); `CtrRuns` puts both together for whole runs; `KeyRegression` is the chain
  of session keys.
- **Parsers.** `Json` and `HttpResponse`; `HttpLanguage` is the grammar of all responses that the parser completes with.
- **Chunking and features.** `RollingHash` holds polynomials and congruences, `Chunker` the chunker, `ChunkedReads` what
  becomes of its results over several reads, `Features` the feature extraction.
- **Upload, restore, detection.** `FingerprintWorkers`, `Pipeline`, `RestoreLoop`, `Detector`.

## What turned out not to hold

Where the code does not do what it seems meant to, the code is kept and the exact condition is proved.

- With several consumers a dequeue can report an empty queue although the queue is never empty while it runs. Undisturbed, it
  does so exactly if the tail is at most the head plus the ticket units of dequeues in flight
  (`DequeueTickets.SoloDequeueIsExact`); a lost ticket that is not yet returned is enough
  (`DequeueTickets.BusyDequeueMayMissElements`). With nothing in flight the answer is exact
  (`DequeueTickets.QuietDequeueIsExact`). A queue of exactly half the index range also looks empty
  (`ExplicitProducer.Producer.Dequeue`).
- A bulk enqueue that fails for want of memory may spoil the block index. If it had reused the block ahead before the index
  grew, the place it falls back to is too far on, and every lookup after the next block finds another block
  (`ExplicitProducer.Producer.EnqueueBulk`, `ExplicitProducer.DisplacedMisleads`). Otherwise the queue stays fit for use, but
  the count of used slots is behind the list of blocks by those inserted in vain, so that a later block may overwrite the
  entry of the oldest one instead of making the index grow (`ExplicitProducer.Producer.UnfitLosesHead`).
- A client that comes with another nonce than the enclave knows is accepted if its counter is the enclave's, and both sides
  then use different nonces (`CtrSessions.LoginAgrees`). That happens to a client that lost its stored nonce while the
  enclave's counters for it are zero (`CtrSessions.LostNonceIsAccepted`), and to one whose login was rejected for its MAC: it
  draws a new nonce and keeps its counter (`Prototype/src/client/keyClient.cpp:138-140`). What its batches then get is part of
  `CtrRuns.BatchIsAnsweredExactly`.
- The two tests for the prepared mask buffer differ (`Prototype/src/enclave/km_enclave/km_enclave.cpp:316` and `:375`): for one
  size of batch the keys are masked with bytes from behind the buffer (`CtrMask.FreshMaskAgrees`). In a session of equal
  batches this happens exactly if more than half of one fits in what they leave of the buffer (`CtrMask.EqualBatchesOverrun`);
  with the configured batch size it does not (`CtrMask.ConfiguredBatchesFit`).
- Any login closes the running session of every client, so a login before the next mask generation leaves prepared masks
  stale unless the client has used none of them (`CtrMask.SecondLoginMakesMasksStale`, `CtrRuns.MasksStayFresh`). The key
  server looks for connected clients before it takes its locks (`Prototype/src/keymanage/keyServer.cpp:324-326`), so masks may
  also be prepared during a session; they are then stale unless that session has used no counters yet.
- When the key chain is used up, the enclave hashes its seed and the server whatever its result buffer held
  (`KeyRegression.KeysAgree`).
- The response parser takes more than the standard's grammar: a chunk size of letters that are no digits counts as zero, a status
  code may be written at any length as long as its value modulo 2^32 has three digits, and a header that says `chunked` and is
  continued on the next line stays chunked whatever follows. What it takes is given exactly (`HttpLanguage.CompletesExactly`).
- A bare number as a whole JSON document reads back as null (`Json.LoadOfDump`).
- The character in place of the line feed that ends a response's head is looked at only if there is no body
  (`HttpResponse.BlankLineIsNotChecked`).
- The pending part of a chunk is cleared at every read of the file (`Prototype/src/client/chunker.cpp:361`), but the rolling
  value is not. Three things follow. The bytes are lost: a file comes back exactly if at each read its bytes from the last cut
  on are zero anyway (`Chunker.ContentIsFile`); a file shorter than one read always does (`Chunker.ShortFileIsKept`), and for
  every read size some file does not (`ChunkedReads.EveryReadSizeLosesBytes`). The value no longer belongs to its window: it
  does exactly if it was zero at the read, and otherwise stays wrong until the next cut (`ChunkedReads.CarriedValueIsWrong`,
  `ChunkedReads.ValueAfterReads`). And the first cut after a read may be elsewhere than the non-rolling definition has it
  (`ChunkedReads.CutsAfterRead`). The chunks are cut from the file's own bytes as the definition says, and are those of one
  read of the whole file, exactly if at each read the bytes from the last cut on are zero (`ChunkedReads.CutsOfTheFile`,
  `ChunkedReads.ChunksOfOneRead`). So a suffix common to two files that are both cut before it is chunked alike if it is read
  in the same pieces; if one file loses nothing of it, exactly if the other loses nothing either
  (`ChunkedReads.CommonSuffixIsChunkedAlike`, `ChunkedReads.SuffixReadOtherwise`). The comment at line 123 speaks of 23 bits,
  but the value kept is 16 bits wide; the model follows the code.
- After the last permutation of the container name the first one is used again (`ContainerNames.NamesStartOver`), and the
  chunks of the first container can no longer be found (`ContainerStore.LastRotationLosesFirstChunk`). A rotation is safe
  exactly if no chunk is in a container of the next name (`ContainerStore.RotationIsSafeExactly`).

## Model

| member | source | states |
|---|---|---|
| CircularIndex.CircularLessIsLess | Prototype/include/concurrentqueue.h:469-480 | comparing wrapped indices compares the unbounded ones inside the window, and fails from half the range on |
| CircularIndex.SpanIsDifference | Prototype/include/concurrentqueue.h:2237-2246 | the bulk test on the wrapped span holds exactly if the span is positive, and then yields it |
| CircularIndex.SingleTestIsBulkTest | Prototype/include/concurrentqueue.h:1944-1977 | the test of a single dequeue equals the bulk test of the same counters, so a single dequeue is a bulk dequeue of one |
| DequeueTickets.GrantIsExact | Prototype/include/concurrentqueue.h:2237-2250 | inside the window the wrapped tests grant exactly the smaller of the wish and what the tail leaves |
| DequeueTickets.WinsBelowTail | Prototype/include/concurrentqueue.h:1964-1988 | in any order of verdicts on tickets, no more tickets win than there are elements below the tail |
| DequeueTickets.DecideKeepsWinsFit | Prototype/include/concurrentqueue.h:2244-2250 | a consumer that decides on its tickets keeps every win justified by the tail at that time |
| DequeueTickets.TakeHeadKeepsInv | Prototype/include/concurrentqueue.h:2252-2254 | the head never passes the tail when a consumer takes what it was granted |
| DequeueTickets.StepKeepsInv | Prototype/include/concurrentqueue.h:1940-2037 | every atomic step of any thread keeps the invariant of the protocol |
| DequeueTickets.RunKeepsInv | Prototype/include/concurrentqueue.h:2233-2323 | the invariant holds after every interleaving of one producer and any number of single or bulk dequeuers |
| DequeueTickets.RunIsSafe | Prototype/include/concurrentqueue.h:1940-2037 | in every interleaving the head plus all pending grants stays at or below the tail, held ranges are disjoint, and the claims cover every slot below the head exactly once |
| DequeueTickets.CountersAccount | Prototype/include/concurrentqueue.h:1964-2032 | in every reachable state, optimistic minus overcommit count is the head plus all ticket units that dequeues in flight still have to account for |
| DequeueTickets.QuietCountersAgree | Prototype/include/concurrentqueue.h:1964-2032 | so with no dequeue in flight it is the head |
| DequeueTickets.SoloDequeueIsExact | Prototype/include/concurrentqueue.h:2233-2323 | with any other dequeues in flight, a dequeue that is not disturbed comes back empty if and only if the tail is at most the head plus what is in flight, and otherwise takes what is left over |
| DequeueTickets.QuietDequeueIsExact | Prototype/include/concurrentqueue.h:2233-2323 | with nothing in flight, a dequeue comes back empty if and only if the queue is empty, and otherwise takes all it asked for or all there is |
| DequeueTickets.StaleTryIsExact | Prototype/include/concurrentqueue.h:2238-2246 | a consumer that has stopped with an old tail and overcommit count in hand gives up exactly if the tickets drawn since reach that tail, and otherwise goes for what is left below it |
| DequeueTickets.TicketIsServed | Prototype/include/concurrentqueue.h:2247-2256 | a consumer that has stopped with a ticket in hand gets exactly the units of it that are below the tail by then, and gives back the others |
| DequeueTickets.BusyDequeueMayMissElements | Prototype/include/concurrentqueue.h:2030-2033 | a reachable state in which a lost ticket that is not yet returned hides a published element, which nobody has taken or can take, from a whole undisturbed dequeue |
| SharedQueue.OpenKeepsInv | Prototype/include/concurrentqueue.h:1838-1898 | taking a block for reuse once all its flags are set, or a new one, disturbs no element that someone may still read |
| SharedQueue.ReleaseKeepsInv | Prototype/include/concurrentqueue.h:1574-1613 | setting the empty flags of released elements sets no flag twice and frees a block only when its last element is released |
| SharedQueue.StepKeepsInv | Prototype/include/concurrentqueue.h:1834-2037 | every step of the producer and the consumers on shared blocks is defined and keeps the invariant |
| SharedQueue.RunKeepsInv | Prototype/include/concurrentqueue.h:1834-2037 | the invariant of tickets, blocks and flags holds after every run |
| SharedQueue.HeldElementsAreSafe | Prototype/include/concurrentqueue.h:2004-2026 | in every interleaving an element held by a consumer is where the index says, unchanged since it was written, and its block is not reusable |
| SharedQueue.QuietRunDeliversPrefix | Prototype/include/concurrentqueue.h:1940-2037 | once consumers are idle exactly the elements below the head were delivered, each with the value written |
| SharedIndex.WrittenOk | Prototype/include/concurrentqueue.h:1919-1924 | writing the next entry over the oldest slot leaves every other entry that lookups may still reach where it was |
| SharedIndex.GrownOk | Prototype/include/concurrentqueue.h:2341-2377 | the new index of twice the size holds the used entries, oldest first, and the front to expose |
| SharedIndex.SlotFromIsPosition | Prototype/include/concurrentqueue.h:1996-2002 | from any entry at or behind the element's block, the wrapped subtraction and unsigned division land on the slot of that block |
| SharedIndex.WriteEntryKeepsInv | Prototype/include/concurrentqueue.h:1919-1924 | an entry written while consumers are looking up disturbs no lookup |
| SharedIndex.GrowKeepsInv | Prototype/include/concurrentqueue.h:2341-2377 | replacing the index while consumers hold the old one disturbs no lookup |
| SharedIndex.LoadFrontKeepsInv | Prototype/include/concurrentqueue.h:1993-1994 | the front a consumer loads, even of an index replaced meanwhile, is at or behind its block and not pushed out |
| SharedIndex.ReleaseIsExact | Prototype/include/concurrentqueue.h:2004-2026 | the element read and released through the index is the one the queue of `SharedQueue` means |
| SharedIndex.StepKeepsInv | Prototype/include/concurrentqueue.h:1834-2037 | every single access of the producer and of any number of consumers is in bounds and keeps the invariant |
| SharedIndex.StepRefines | Prototype/include/concurrentqueue.h:1834-2037 | every step is one of `SharedQueue`, with its map of owners, or leaves the queue alone |
| SharedIndex.RunKeepsInv | Prototype/include/concurrentqueue.h:1834-2037 | the invariant of queue, indexes and lookups holds after every run |
| SharedIndex.LookupsAreRight | Prototype/include/concurrentqueue.h:1989-2026 | in every interleaving a finished lookup gives the block of the consumer's next element, which it reads as written, not yet released, in a block that cannot be taken over |
| SharedIndex.QuietRunDeliversPrefix | Prototype/include/concurrentqueue.h:1940-2037 | once consumers are idle exactly the elements below the head were delivered through the index, each with the value written |
| SoloQueue.HoldingIsServed | Prototype/include/concurrentqueue.h:1989-2026 | a consumer that holds elements, left alone anywhere in its lookups, reads and releases all of them and is done |
| SoloQueue.SoloDequeueDelivers | Prototype/include/concurrentqueue.h:2232-2323 | a dequeue left alone in any reachable state hands out exactly the next elements that no dequeue in flight is going for, up to its maximum, each with the value enqueued there, and ends |
| SoloQueue.OldestServes | Prototype/include/concurrentqueue.h:1838-1852 | the block ahead of the tail block is the one opened longest ago and still serves the elements it was opened for |
| SoloQueue.SoloGrow | Prototype/include/concurrentqueue.h:2341-2377 | a full index is replaced by one twice the size, and neither the queue nor a lookup under way notices |
| SoloQueue.SoloEnqueueAppends | Prototype/include/concurrentqueue.h:1833-1937 | an enqueue left alone between two calls of the producer appends the element, in the oldest block once all of that has been handed out, or in a new one, with a larger index if need be, and changes nothing else |
| FreeList.AcquireKeepsInv | Prototype/include/concurrentqueue.h:1457-1468 | a reference can be taken only while the count is not zero, when nobody is linking the node |
| FreeList.GetDropKeepsInv | Prototype/include/concurrentqueue.h:1479-1485 | whoever drops the last reference of a node that should be on the list, and only that thread, links it |
| FreeList.StepKeepsInv | Prototype/include/concurrentqueue.h:1438-1517 | every atomic step of `add`, `try_get` and `add_knowing_refcount_is_zero` keeps the invariant for any number of threads and nodes |
| FreeList.RunKeepsInv | Prototype/include/concurrentqueue.h:1438-1517 | the invariant holds in every state of every interleaving |
| FreeList.NeverHandedOutTwice | Prototype/include/concurrentqueue.h:1452-1489 | between two times a node is handed out it has been added |
| FreeList.ListIsAcyclic | Prototype/include/concurrentqueue.h:1452-1517 | the list is a finite chain without repetition, and a freshly popped node has its flag clear, as the assertion at line 1472 says |
| FreeList.NoNodeIsLost | Prototype/include/concurrentqueue.h:1438-1517 | once threads are idle, a node is on the list with reference word 1 if and only if its user gave it up |
| FreeList.AloneEnds | Prototype/include/concurrentqueue.h:1438-1517 | in every reachable state any thread that goes on alone is done within 43 of its own steps |
| FreeList.SoloTryGetIsExact | Prototype/include/concurrentqueue.h:1452-1489 | wherever the others have stopped, a `try_get` left alone hands out the head of the list and leaves the rest, and comes back with nothing if and only if there is no head |
| FreeList.SoloAddIsExact | Prototype/include/concurrentqueue.h:1438-1449 | an `add` left alone puts a node that nobody refers to in front of the list, and leaves one that somebody refers to flagged for that thread |
| ExplicitProducer.OffsetLands | Prototype/include/concurrentqueue.h:1996-2002 | the block offset, although divided as an unsigned number, lands on the right slot of a power-of-two ring |
| ExplicitProducer.IndexFinds | Prototype/include/concurrentqueue.h:1993-2002 | looking up any element of the list from the published front finds its block, wherever the ring has wrapped |
| ExplicitProducer.IndexRotates | Prototype/include/concurrentqueue.h:1842-1852 | the index entry of a reused block displaces that block's old entry and no other |
| ExplicitProducer.IndexExtends | Prototype/include/concurrentqueue.h:1919-1924 | with a slot to spare the entry of a new block joins the others |
| ExplicitProducer.CopyUsed | Prototype/include/concurrentqueue.h:2355-2363 | growing copies exactly the used entries, oldest first |
| ExplicitProducer.FullIsDoubling | Prototype/include/concurrentqueue.h:1856-1866 | an index that doubles whenever all its slots are used is full exactly when the slots in use are a power of two that is no less than its first size |
| ExplicitProducer.SetManyEmpty | Prototype/include/concurrentqueue.h:1592-1613 | exactly the flags of the given elements become set, in their reversed places |
| ExplicitProducer.WindowAppends | Prototype/include/concurrentqueue.h:1932-1936 | writing at the tail appends to what lies between head and tail |
| ExplicitProducer.WindowRotates | Prototype/include/concurrentqueue.h:1842-1846 | moving an exhausted block to the end changes nothing between head and tail |
| ExplicitProducer.FlagsAdvance | Prototype/include/concurrentqueue.h:2310-2312 | marking a run of taken elements makes the flags reflect the new head and no other block's |
| ExplicitProducer.Producer.constructor | Prototype/include/concurrentqueue.h:1749-1765 | a new sub-queue is empty |
| ExplicitProducer.Producer.GrowIndex | Prototype/include/concurrentqueue.h:2341-2378 | doubling the index keeps the contents and puts the used entries first |
| ExplicitProducer.Producer.StartBlock | Prototype/include/concurrentqueue.h:1838-1898 | a block is started if and only if the oldest one is used up, or else the tail cannot lap the head, the index has a slot or can grow, and memory is there; a new one is taken only if no old one is used up; the contents stay |
| ExplicitProducer.Producer.Enqueue | Prototype/include/concurrentqueue.h:1833-1937 | a successful enqueue appends the element, a failed one changes nothing, and it fails if and only if it is at a block boundary where no block can be started; a new block must fit the index, which it always does if no bulk enqueue has failed |
| ExplicitProducer.Producer.UnfitLosesHead | Prototype/include/concurrentqueue.h:1868-1924 | if it does not fit, the index is not grown for it, and its entry takes the place of that of the oldest element's block: the lookup of that element finds the new block |
| ExplicitProducer.Producer.Dequeue | Prototype/include/concurrentqueue.h:1939-2037 | takes the oldest element if and only if the length is positive and below half the index range |
| ExplicitProducer.Producer.PopMany | Prototype/include/concurrentqueue.h:2256-2312 | takes the claimed elements in order, one block at a time along the index |
| ExplicitProducer.Producer.DequeueBulk | Prototype/include/concurrentqueue.h:2232-2323 | takes the longest allowed prefix, and what is taken plus what stays is the old contents |
| ExplicitProducer.Producer.ReuseAhead | Prototype/include/concurrentqueue.h:2055-2068 | takes over the used up blocks ahead, as many as there are and are needed, keeps the contents and accounts for every block still missing |
| ExplicitProducer.Producer.InsertAhead | Prototype/include/concurrentqueue.h:2070-2129 | inserts the remaining blocks, if and only if the tail cannot lap the head, every allocation succeeds, and the index can grow each time all its slots are used; otherwise it can be undone; the contents stay |
| ExplicitProducer.TurnKeepsFlags | Prototype/include/concurrentqueue.h:2079-2105 | with the tail block put back, the empty flags of all blocks, those injected ahead of it included, reflect the head |
| ExplicitProducer.TurnKeepsIndex | Prototype/include/concurrentqueue.h:2079-2105 | a front that goes back by as many slots as blocks were started has the entries of all blocks in use in place |
| ExplicitProducer.FrontTooFarDisplaces | Prototype/include/concurrentqueue.h:2097-2100 | the fallback after a growth is off by the number of blocks reused before it: each place holds the entry of a block that many numbers further on |
| ExplicitProducer.OneBlockAheadDisplaces | Prototype/include/concurrentqueue.h:2097-2100 | an index of 32 entries, doubled after one block was reused, is off by one |
| ExplicitProducer.DisplacedMisleads | Prototype/include/concurrentqueue.h:1993-2002 | from then on, once the next block has its entry, the lookup of every element in the queue finds the entry of another block |
| ExplicitProducer.Producer.RollBack | Prototype/include/concurrentqueue.h:2079-2105 | undoing keeps the contents, and leaves the index in order if and only if it did not grow, or no block ahead had been reused, or no block is in use |
| ExplicitProducer.Producer.ResetBlocks | Prototype/include/concurrentqueue.h:2131-2140 | clears the flags of exactly the blocks that are about to be filled |
| ExplicitProducer.Producer.WriteItems | Prototype/include/concurrentqueue.h:2147-2221 | writes the items behind the old contents and ends in the tail block |
| ExplicitProducer.Producer.EnqueueBulk | Prototype/include/concurrentqueue.h:2039-2230 | appends all items, as repeated single enqueues would, or none; it succeeds if and only if the blocks needed beyond the used up ones can be had, and takes no more new ones than those; after a failure the queue is fit for use if and only if the index did not grow, or the block ahead was not empty, or no block is in use |
| ProducerTable.FreeMeansAbsent | Prototype/include/concurrentqueue.h:3395-3436 | meeting a free slot on a key's probe path means that the table lacks the key |
| ProducerTable.TableHasFreeSlot | Prototype/include/concurrentqueue.h:3478-3481 | the three-quarters test leaves a free slot in every table of the chain |
| ProducerTable.ProbesAreBounded | Prototype/include/concurrentqueue.h:3396-3398 | a probe passes fewer slots than the table has |
| ProducerTable.StepKeepsInv | Prototype/include/concurrentqueue.h:3374-3524 | every step of any thread keeps the invariant, and an answer given is the thread's bound producer |
| ProducerTable.RunKeepsInv | Prototype/include/concurrentqueue.h:3374-3524 | the invariant holds in every state of every interleaving |
| ProducerTable.TablesAreTheMap | Prototype/include/concurrentqueue.h:3393-3436 | a thread is bound to a producer if and only if some table of the chain holds that pair |
| ProducerTable.ProbeLoopsEnd | Prototype/include/concurrentqueue.h:3396-3515 | in every reachable state every table has a free slot and no probe loop has run through its table |
| ProducerTable.RunKeepsBound | Prototype/include/concurrentqueue.h:3408-3429 | a thread's producer never changes, through migrations and resizes |
| ProducerTable.TablesGrowAsNeeded | Prototype/include/concurrentqueue.h:3441-3471 | in any run a table is added only when the count has reached half of the newest, and the new one is the least of its doublings that is more than twice the count |
| ProducerTable.CallsAgree | Prototype/include/concurrentqueue.h:3374-3524 | all calls of one thread return the same producer |
| ProducerTable.FlagIsHeld | Prototype/include/concurrentqueue.h:3440-3477 | in every reachable state the resize flag is set exactly while some thread is resizing |
| ProducerTable.SoloCallIsExact | Prototype/include/concurrentqueue.h:3374-3524 | a call left alone in any reachable state returns the thread's first producer, or the one made for it if it has none; it never returns if and only if it has none, three quarters of the newest table are given away, and another thread has stopped while it resizes; if none has, the newest table is then more than twice as large as the count |
| LruCache.RecencyWithout | Prototype/include/lruCache.hpp:116-123 | taking a key out leaves the others in order of last use |
| LruCache.UseMovesToFront | Prototype/include/lruCache.hpp:144-152 | moving a used key to the front keeps the list in order of last use |
| LruCache.Cache.BackIsLeastRecent | Prototype/include/lruCache.hpp:183-189 | the last key of the list is the one used longest ago; list and map have the same size |
| LruCache.Cache.PruneValue | Prototype/include/lruCache.hpp:183-189 | gives the value of the entry that goes next |
| LruCache.Cache.Get | Prototype/include/lruCache.hpp:144-152 | finds a key exactly if it is cached, and counts as a use |
| LruCache.Cache.Prune | Prototype/include/lruCache.hpp:192-205 | at the hard limit drops entries from the least recent end down to the soft limit; the others keep order and values |
| LruCache.Cache.InsertNew | Prototype/include/lruCache.hpp:125-128 | a new key goes to the front, and a full cache loses exactly its last entry |
| LruCache.Cache.Insert | Prototype/include/lruCache.hpp:116-128 | a known key gets the new value, an unknown one is added, and the evicted entry is the least recently used |
| ContainerCache.AddHolds | Prototype/src/util/cache.cpp:28-34 | a container in the next unused slot leaves live slots distinct, below the index, and each with its own bytes |
| ContainerCache.ReplaceHolds | Prototype/src/util/cache.cpp:22-27 | a container that takes over the evicted one's slot does so too |
| ContainerCache.Cache.constructor | Prototype/src/util/cache.cpp:4-16 | starts empty with slots of container size |
| ContainerCache.Cache.InsertToCache | Prototype/src/util/cache.cpp:18-36 | the container is cached; of the others at most the least recently used one goes, and only when all 128 slots are used |
| ContainerCache.Cache.ExistsInCache | Prototype/src/util/cache.cpp:38-46 | true exactly for cached names |
| ContainerCache.Cache.GetFromCache | Prototype/src/util/cache.cpp:48-55 | gives exactly the bytes of the container, followed by zeros |
| ContainerNames.LexLessIsOrder | Prototype/src/server/storageCore.cpp:372 | the order of names is irreflexive and transitive |
| ContainerNames.ReverseIsSmaller | Prototype/src/server/storageCore.cpp:372 | a name without an ascent is at or above its reverse, so starting over gives no larger name |
| ContainerNames.NextIsFresh | Prototype/src/server/storageCore.cpp:372 | the next permutation is above the last name, hence new, if and only if the name is not the last permutation |
| ContainerNames.NextIsPermutation | Prototype/src/server/storageCore.cpp:372 | the next name has the same letters |
| ContainerNames.NothingBetween | Prototype/src/server/storageCore.cpp:372 | and no name with these letters lies between a name and the next |
| ContainerNames.StartsWithLeast | Prototype/src/server/storageCore.cpp:372 | the name after the last one is the least with these letters |
| ContainerNames.NamesStartOver | Prototype/src/server/storageCore.cpp:372 | after the last permutation of the first name, the first name comes again |
| ContainerStore.AppendKeepsIndex | Prototype/src/server/storageCore.cpp:306-318 | a chunk behind the used part and its index entry leave every stored chunk findable |
| ContainerStore.RotateKeepsIndex | Prototype/src/server/storageCore.cpp:369-376 | moving the current container to its file and taking the next name loses no chunk and overwrites no file |
| ContainerStore.RotationIsSafeExactly | Prototype/src/server/storageCore.cpp:369-390 | whatever the next name, a rotation leaves every chunk findable if and only if no chunk lies in a container of that name |
| ContainerStore.LastRotationLosesFirstChunk | Prototype/src/server/storageCore.cpp:369-390 | so at the rotation after the last name a chunk of the first container can no longer be found, as its name is now that of the empty current container |
| ContainerStore.SaveKeepsIndex | Prototype/src/server/storageCore.cpp:61-74 | saving the current container under its own name changes no container |
| ContainerStore.Store.constructor | Prototype/src/server/storageCore.cpp:51-58 | a new store has nothing stored |
| ContainerStore.Store.WriteContainer | Prototype/src/server/storageCore.cpp:361-382 | the chunk lies at the returned location; a new container is started exactly if it does not fit below the limit |
| ContainerStore.Store.StartContainer | Prototype/src/server/storageCore.cpp:369-375 | the old container is in its file, the new one empty under the next name |
| ContainerStore.Store.StoreChunk | Prototype/src/server/storageCore.cpp:279-319 | the chunk becomes what is stored under its hash, or nothing changes for restores if the database refuses it |
| ContainerStore.Store.ReadContainer | Prototype/src/server/storageCore.cpp:384-420 | reading from the current container, the cache or the file gives the same bytes |
| ContainerStore.Store.RestoreChunk | Prototype/src/server/storageCore.cpp:321-359 | returns exactly what was last stored under the hash, if anything was |
| ContainerStore.Store.Restart | Prototype/src/server/storageCore.cpp:30-74 | after shutdown and reload everything stored is still stored |
| ContainerStore.Store.Run | Prototype/src/server/storageCore.cpp:279-449 | over any run of stores, restores, rotations and restarts every restore returns what was last stored under its hash |
| CtrSessions.LoginAgrees | Prototype/src/enclave/km_enclave/km_enclave.cpp:103-167 | after an accepted login both sides have the same counter, and the same nonce if and only if the client did not come with another nonce and a matching counter |
| CtrSessions.LostNonceIsAccepted | Prototype/src/enclave/km_enclave/km_enclave.cpp:156-157 | a login that is accepted although the nonces differ |
| CtrSessions.LoginIsExact | Prototype/src/enclave/km_enclave/km_enclave.cpp:103-167 | what a login leads to on both sides, for any client and any state: it goes on, is reset, or is rejected |
| CtrSessions.StepKeepsResumable | Prototype/src/client/keyClient.cpp:96-158 | that the enclave knows a client under its stored counter outlasts any event but a lost message of that client |
| CtrSessions.LoginFolds | Prototype/src/enclave/km_enclave/km_enclave.cpp:103-167 | what a login of one client makes of the counters of any client |
| CtrSessions.StepKeepsCounters | Prototype/src/client/keyClient.cpp:50-157 | every login, with whatever nonce, every batch, lost message and logout keeps the counters of both sides in step |
| CtrSessions.StepKeepsInv | Prototype/src/client/keyClient.cpp:50-157 | and the nonces too, if clients keep theirs |
| CtrSessions.ConsumeTiles | Prototype/src/client/keyClient.cpp:262-265 | the counters of a batch continue where the last batch ended |
| CtrSessions.RunKeepsInv | Prototype/src/enclave/km_enclave/km_enclave.cpp:103-167 | the invariant holds in every state of every run with any number of clients |
| CtrSessions.RunIsInLockstep | Prototype/src/client/keyClient.cpp:262-265 | in every run a live session's counter is the enclave's total, and the ranges used since the last reset are contiguous and disjoint |
| CtrMask.KeysAt | Prototype/src/enclave/km_enclave/km_enclave.cpp:362-374 | the j-th key is the hash of the j-th seed and the server secret |
| CtrMask.DistinctBlocks | Prototype/src/util/cryptoPrimitive.cpp:294-299 | with a cipher that can be undone, blocks of different counters or nonces are encrypted differently: four counter bytes and twelve nonce bytes fill the block |
| CtrMask.SomeCipherIsInjective | Prototype/src/util/cryptoPrimitive.cpp:300-311 | there are such ciphers |
| CtrMask.GenerateMask | Prototype/src/util/cryptoPrimitive.cpp:286-315 | the loop over pairs of counters produces the mask bytes, counter by counter |
| CtrMask.TestsAreOrdered | Prototype/src/enclave/km_enclave/km_enclave.cpp:316-375 | what the two tests for the prepared buffer compare, and that the first implies the second |
| CtrMask.Enclave.FoldCounters | Prototype/src/enclave/km_enclave/km_enclave.cpp:105-110 | in any order of the table, every client's session is closed and its total kept |
| CtrMask.Enclave.ClientStatusModify | Prototype/src/enclave/km_enclave/km_enclave.cpp:103-167 | the imperative login refines the login of `CtrSessions` |
| CtrMask.Enclave.SetNextEncryptionMask | Prototype/src/enclave/km_enclave/km_enclave.cpp:185-257 | the buffer holds the masks from the first client's total on, and only that client is marked |
| CtrMask.Enclave.KeygenCtr | Prototype/src/enclave/km_enclave/km_enclave.cpp:304-387 | the reply is the masked keys of the unmasked seeds with its MAC, and the counter advances by the blocks used; a bad MAC changes nothing |
| CtrMask.FreshMaskAgrees | Prototype/src/enclave/km_enclave/km_enclave.cpp:316-383 | with masks prepared for the client's base, the mask used is the on-demand one whatever lies behind the buffer, if and only if the batch does not overrun it |
| CtrMask.EqualBatchesOverrun | Prototype/src/enclave/km_enclave/km_enclave.cpp:316-375 | in a session of equal batches some batch overruns the buffer if and only if more than half of one fits in what equal batches leave of it |
| CtrMask.ConfiguredBatchesFit | Prototype/config.json:11-12 | with the configured 4096 seeds no batch of a session overruns, the last one of any size included; with 3000 seeds the one after 436 does |
| CtrMask.OfflineMaskAgrees | Prototype/src/enclave/km_enclave/km_enclave.cpp:205-217 | offline, the mask is the on-demand one if and only if it was prepared for the client's own base and nonce |
| CtrMask.LoginMeetsPreparedMasks | Prototype/src/enclave/km_enclave/km_enclave.cpp:105-110 | masks prepared between sessions are the ones the next session needs |
| CtrMask.ResetNeedsNoMasks | Prototype/src/enclave/km_enclave/km_enclave.cpp:159-163 | after a reset, or for a new client, no prepared mask is used |
| CtrMask.SecondLoginMakesMasksStale | Prototype/src/enclave/km_enclave/km_enclave.cpp:105-110 | another login keeps the masks usable if and only if none of them has been used |
| CtrMask.MasksCancel | Prototype/src/client/keyClient.cpp:465-494 | masking and unmasking on both sides leaves the plain keys |
| CtrMask.AnswerIsRight | Prototype/src/client/keyClient.cpp:465-494 | whatever the hash function, the client gets the keys of its seeds if and only if both sides use the same mask |
| CtrMask.MasksAgreeExactly | Prototype/src/enclave/km_enclave/km_enclave.cpp:313-383 | whatever lies behind the buffer, the enclave uses the client's mask if and only if their nonces agree, or seeds come from the buffer, and what comes from the buffer was prepared for the client's nonce and base and reaches to the end of the batch |
| CtrMask.KeyClient.KeyExchange | Prototype/src/client/keyClient.cpp:437-502 | the client gets what unmasking with its own mask makes of the reply under the enclave's; counters move on in any case |
| CtrMask.SessionBatch | Prototype/src/client/keyClient.cpp:262-265 | a batch that does not overrun, between two sides in step, gives the right keys and keeps them in step |
| CtrMask.UploadSession | Prototype/src/client/keyClient.cpp:249-268 | one session of two sides in step: all batches, offline or on demand, get the right keys |
| CtrRuns.SessionGoesOn | Prototype/src/enclave/km_enclave/km_enclave.cpp:157-158 | at a login after the session was saved, with any events in between but a lost message of the same client, the session goes on from exactly the counter and nonce the client has stored, and the ranges used are kept |
| CtrRuns.SavedSessionGoesOn | Prototype/src/client/keyClient.cpp:96-158 | so with events of other clients and mask preparations in between, a saved session goes on exactly as it was left |
| CtrRuns.ResetMeansLoss | Prototype/src/enclave/km_enclave/km_enclave.cpp:159-166 | a login after a save sets the counter to another than the stored one only if a message of the client was lost in between |
| CtrRuns.StepKeepsInv | Prototype/src/enclave/km_enclave/km_enclave.cpp:103-387 | logins, batches, lost messages, logouts and mask preparation keep the counters in step and the buffer prepared for what it was last prepared from |
| CtrRuns.RunKeepsInv | Prototype/src/keymanage/keyServer.cpp:311-475 | the invariant holds in every state of every run with any number of clients |
| CtrRuns.BatchIsAnsweredExactly | Prototype/src/client/keyClient.cpp:437-502 | in every run, whatever nonces clients send, a batch gets the hash of each seed with the secret if and only if the mask condition of `CtrMask.MasksAgreeExactly` holds in the state it starts from |
| CtrRuns.BatchOfKeptNonce | Prototype/src/enclave/km_enclave/km_enclave.cpp:304-387 | for clients that keep their nonce: if and only if it makes no use of the buffer, or the masks are fresh and it does not overrun |
| CtrRuns.MasksStayFresh | Prototype/src/keymanage/keyServer.cpp:324-338 | prepared masks are fresh if and only if the client had used no counters between their preparation and a later login attempt by anybody, or, if there was none, in the session they were prepared in |
| KeyRegression.EnclaveKey | Prototype/src/enclave/km_enclave/km_enclave.cpp:259-283 | the enclave's key is the hash of the chain link |
| KeyRegression.ServerKey | Prototype/src/server/dataSR.cpp:632-644 | the server's key, with the stale buffer of an empty loop |
| KeyRegression.KeysAgree | Prototype/src/server/dataSR.cpp:636-644 | both sides have the same key whatever the buffer held, if and only if the chain is not used up; the hash is only asked not to give one key for all links |
| KeyRegression.EarlierLink | Prototype/src/enclave/km_enclave/km_enclave.cpp:266-281 | each later key's link gives all earlier ones |
| Json.AssignAppends | Prototype/src/enclave/include/json.hpp:624 | assigning keys in ascending order builds the map in that order |
| Json.ConsumeWs | Prototype/src/enclave/include/json.hpp:598-602 | the loop stops at the first character that is no space |
| Json.ReadStringBody | Prototype/src/enclave/include/json.hpp:673-727 | the loop over escapes computes the specified string, and its end; a bad or cut unicode escape gives the empty string |
| Json.ReadNumber | Prototype/src/enclave/include/json.hpp:729-778 | the loop computes the specified number, null or failure |
| Json.ReadNext | Prototype/src/enclave/include/json.hpp:806-829 | the parser by offsets computes the specified result for any text |
| Json.ReadArray | Prototype/src/enclave/include/json.hpp:642-671 | the same for arrays, with the empty array for a missing bracket |
| Json.ReadObject | Prototype/src/enclave/include/json.hpp:604-640 | the same for objects, with the entries so far for a missing colon or comma |
| Json.StringReadsBack | Prototype/src/enclave/include/json.hpp:33-64 | an escaped string in quotes reads back as the string |
| Json.SpelledStringIsRead | Prototype/src/enclave/include/json.hpp:673-727 | a string literal of plain characters, escapes and codes, in any mix, reads as what its pieces mean: codes as they are spelled, an unknown escape as its backslash |
| Json.SpelledValueIsRead | Prototype/src/enclave/include/json.hpp:598-602 | so does one behind white space of any of the six kinds |
| Json.NumberReadsBack | Prototype/src/enclave/include/json.hpp:746-766 | a printed number reads back if and only if a delimiter follows |
| Json.DumpReadsBack | Prototype/src/enclave/include/json.hpp:462-507 | a printed tree at any place of a text reads back and ends where it ends |
| Json.RoundTrip | Prototype/src/enclave/include/json.hpp:806-829 | parsing the printed form of any tree without floats, at any depth and inside any text, gives the tree and stops at its end |
| Json.LoadOfDump | Prototype/src/enclave/include/json.hpp:462-507 | a whole document reads back if and only if it is not a bare number, which reads as null |
| HttpResponse.RunConcat | Prototype/src/enclave/include/httpparser/httpresponseparser.h:53-60 | input in two parts is consumed as the whole is |
| HttpResponse.PiecesAreTheWhole | Prototype/src/enclave/include/httpparser/httpresponseparser.h:53-533 | however the input is cut, feeding the pieces gives the outcome of the whole |
| HttpResponse.HttpResponseParser.Parse | Prototype/src/enclave/include/httpparser/httpresponseparser.h:42-533 | the loop over characters with its fields computes the specified run |
| HttpResponse.StatusLineIsRead | Prototype/src/enclave/include/httpparser/httpresponseparser.h:61-230 | version numbers, status code and text of any well-formed status line come out |
| HttpResponse.HeaderIsRead | Prototype/src/enclave/include/httpparser/httpresponseparser.h:231-330 | a header line adds exactly its name and value, and sets length or chunking if it says so |
| HttpResponse.HeadersAreRead | Prototype/src/enclave/include/httpparser/httpresponseparser.h:231-330 | any list of headers comes out in order |
| HttpResponse.HeadIsRead | Prototype/src/enclave/include/httpparser/httpresponseparser.h:61-330 | status line and headers together; the last length counts, and any chunked header counts |
| HttpResponse.BlankLineIsNotChecked | Prototype/src/enclave/include/httpparser/httpresponseparser.h:331-370 | a response completes with any character in place of the line feed that ends its head if and only if it has a body |
| HttpResponse.HexTextIsSize | Prototype/src/enclave/include/httpparser/httpresponseparser.h:430-446 | every size has a hexadecimal form that is read as it |
| HttpResponse.DecimalTextIsValue | Prototype/src/enclave/include/httpparser/httpresponseparser.h:300-310 | every number has a decimal form that is read as it |
| HttpResponse.ContentSizeIsNumber | Prototype/src/enclave/include/httpparser/httpresponseparser.h:300-310 | a content length behind blanks and a sign, whatever follows, is the number itself below 2^31, and otherwise the one that agrees with it modulo 2^32 among the numbers a truncated and extended int can take |
| HttpResponse.KeepAliveIsExact | Prototype/src/enclave/include/httpparser/httpresponseparser.h:332-351 | keep-alive is what the first Connection header says or, without one, whether the version is 1.1 or its major number above 1; everything else about the response stays |
| HttpResponse.ChunkIsDecoded | Prototype/src/enclave/include/httpparser/httpresponseparser.h:380-526 | one chunk with any extension adds exactly its data |
| HttpResponse.ChunkedBodyIsDecoded | Prototype/src/enclave/include/httpparser/httpresponseparser.h:380-526 | any list of non-empty chunks with a final chunk and trailers (section 4.1 of RFC 7230) completes and gives exactly the body |
| HttpResponse.FixedBodyIsDecoded | Prototype/src/enclave/include/httpparser/httpresponseparser.h:371-379 | a body of the announced length completes and is kept exactly |
| HttpResponse.ChunkedResponseIsParsed | Prototype/src/enclave/include/httpparser/httpresponseparser.h:53-533 | a whole chunked response, with any character for the line feed that ends the head: version, code, text, headers, body and keep-alive come out, and nothing else |
| HttpResponse.SizedResponseIsParsed | Prototype/src/enclave/include/httpparser/httpresponseparser.h:53-533 | so do those of a whole response with a body of known length; one without a body completes only with the line feed |
| HttpLanguage.LinesSay | Prototype/src/enclave/include/httpparser/httpresponseparser.h:231-330 | any lines, continued headers included, come out as the headers they spell, with the length of the last Content-Length header, and as chunked if some header said so at the end of some line |
| HttpLanguage.TakenIsSpelt | Prototype/src/enclave/include/httpparser/httpresponseparser.h:53-533 | whatever the parser has taken in without an error is the beginning of a message of the grammar, and its fields are what that beginning spells |
| HttpLanguage.CompletedIsMessage | Prototype/src/enclave/include/httpparser/httpresponseparser.h:53-533 | a text with which the parser completes is a message of the grammar, and the response is what the message means |
| HttpLanguage.MessageCompletes | Prototype/src/enclave/include/httpparser/httpresponseparser.h:53-533 | the parser completes with every message of the grammar, at its last character, and the response is what the message means |
| HttpLanguage.CompletesExactly | Prototype/src/enclave/include/httpparser/httpresponseparser.h:53-533 | so the texts it completes with are exactly the messages of the grammar: status codes of any length, continued headers, chunk sizes of any letters and digits, and any character for the line feed behind the head if a body follows |
| RollingHash.PolyFirst | Prototype/src/client/chunker.cpp:367-370 | the first byte of a window carries the highest power |
| RollingHash.PolySlides | Prototype/src/client/chunker.cpp:373-375 | what sliding by one byte does to the polynomial of a window |
| RollingHash.PolyAppends | Prototype/src/client/chunker.cpp:367-370 | what filling by one byte does to a shifted polynomial |
| RollingHash.CongruentEqual | Prototype/src/client/chunker.cpp:372-375 | a value in range that is congruent to another is its remainder |
| Chunker.AnchorRange | Prototype/src/client/chunker.cpp:147-154 | the shift loop ends, and the anchor mask covers the largest power of two up to the average size |
| Chunker.BuildTables | Prototype/src/client/chunker.cpp:125-145 | both lookup tables hold the specified powers and negated products |
| Chunker.NoOverflow | Prototype/src/client/chunker.cpp:129-143 | no intermediate value reaches 32 bits, in the tables and in both update rules |
| Chunker.FillKeepsRolling | Prototype/src/client/chunker.cpp:366-371 | a byte that fills the window keeps the value equal to its polynomial modulo 2^16, and leaves what it carries of lost bytes as it is |
| Chunker.SlideKeepsRolling | Prototype/src/client/chunker.cpp:372-376 | so does a byte that slides it, with the 23-bit mask and the 16-bit store; the carry is multiplied by the base |
| Chunker.RollingIsPolynomial | Prototype/src/client/chunker.cpp:362-376 | with a full window the value is the base-257 polynomial of its last bytes plus the carry, modulo 2^16 |
| Chunker.FeedIsDirect | Prototype/src/client/chunker.cpp:362-429 | with nothing carried over a read, the machine cuts after a byte if and only if the non-rolling definition does |
| Chunker.FeedAllIsDirect | Prototype/src/client/chunker.cpp:362-429 | so within the first read, and after any cut until the next read, all chunks are those of the non-rolling definition |
| Chunker.CutsAreUnique | Prototype/src/client/chunker.cpp:383-429 | the non-rolling definition allows only one way to cut a file |
| Chunker.ChunksAreDirect | Prototype/src/client/chunker.cpp:362-429 | so for a file of one read any cutting that meets it is the one the machine makes |
| Chunker.ChunkByte | Prototype/src/client/chunker.cpp:364-429 | the loop body in the chunk buffer computes the specified step |
| Chunker.ChunkBlock | Prototype/src/client/chunker.cpp:362-430 | the loop over a block computes all its steps |
| Chunker.VarSizeChunking | Prototype/src/client/chunker.cpp:330-462 | the whole method, read by read, sends the specified chunks and reports the file size |
| Chunker.ReadAllKeepsSizes | Prototype/src/client/chunker.cpp:378-458 | for any reads the sizes add up to the file and all chunks but the last are within bounds |
| Chunker.ContentIsFile | Prototype/src/client/chunker.cpp:361 | over any reads the chunks make up the file if and only if at each read the file's bytes from the last cut on are zero; otherwise they differ from it only by zeros |
| Chunker.ShortFileIsKept | Prototype/src/client/chunker.cpp:347-458 | a file shorter than one read is chunked without loss |
| ChunkedReads.ShiftKeepsMultiples | Prototype/src/client/chunker.cpp:375 | the base is invertible: a value shifted by any number of bytes is a multiple of a power of two only if it was one |
| ChunkedReads.ValueAfterRead | Prototype/src/client/chunker.cpp:361-376 | until the next cut after a read the buffer holds zeros and the new bytes, and the value is that of its window plus 257^j times the value at the read, j being the bytes that slid the window |
| ChunkedReads.WrongUntilNextCut | Prototype/src/client/chunker.cpp:361-376 | so the value is the polynomial of its window if and only if it was zero at the read, and otherwise stays wrong until the next cut |
| ChunkedReads.ValueAfterReads | Prototype/src/client/chunker.cpp:347-434 | over any reads, the value is that of its window if and only if the value carried over the last read within the current chunk was zero |
| ChunkedReads.AnchorTests | Prototype/src/client/chunker.cpp:384 | with a carry, the anchor test answers as without it if the carried value passes it; if not, the two never hit together |
| ChunkedReads.CutsAfterRead | Prototype/src/client/chunker.cpp:361-429 | in terms of the blanked bytes: the first chunk cut after a read is one of the definition if and only if few enough zeros wait, given that the carried value passes the anchor test; if it does not, never, unless the chunk is cut for its size; later chunks always are |
| ChunkedReads.ReadsCutDirectly | Prototype/src/client/chunker.cpp:347-434 | in terms of the blanked bytes, over any reads: all chunks are those of the definition if each read that is followed by a cut is harmless in this sense, and, chunks cut for their size aside, only then |
| ChunkedReads.ReadsDoNotMatter | Prototype/src/client/chunker.cpp:347-434 | if at each read the file's bytes from the last cut on are zero, the chunker ends as if it had read the file at once |
| ChunkedReads.ChunksOfOneRead | Prototype/src/client/chunker.cpp:347-458 | over any reads, the chunks are those that one read of the whole file gives if and only if at each read the file's bytes from the last cut on are zero |
| ChunkedReads.CutsOfTheFile | Prototype/src/client/chunker.cpp:347-434 | over any reads, the chunks make up the file and are cut where the non-rolling definition cuts the file's own bytes if and only if at each read the file's bytes from the last cut on are zero |
| ChunkedReads.TwoWaysToRead | Prototype/src/client/chunker.cpp:347-458 | two ways to read a file, one of which loses nothing, give the same chunks if and only if the other loses nothing |
| ChunkedReads.OneBoundary | Prototype/src/client/chunker.cpp:361 | whether a file is read across a place in one piece or two makes no difference to its chunks if and only if the bytes pending there are zero |
| ChunkedReads.HarmlessBoundary | Prototype/src/client/chunker.cpp:361 | a boundary where only zeros are pending can be left out, whatever is read after it |
| ChunkedReads.CommonSuffixIsChunkedAlike | Prototype/src/client/chunker.cpp:402-404 | two files cut before a common suffix go on as files of their own; read in the same pieces the suffix is chunked alike, and in other pieces, if one file loses nothing of it, if and only if the other loses nothing either |
| ChunkedReads.SuffixReadOtherwise | Prototype/src/client/chunker.cpp:361 | an example of two files cut before a common suffix, one of which loses a byte of it and chunks it otherwise |
| ChunkedReads.CarriedValueIsWrong | Prototype/src/client/chunker.cpp:361 | two reads after which the value is 518 and the polynomial of the window 5 |
| ChunkedReads.EveryReadSizeLosesBytes | Prototype/src/client/chunker.cpp:361 | for every read size and every usable configuration, a file of exactly that size whose chunks lose its last byte |
| Features.BuildPowers | Simulator/simCode/featureExtraction.hpp:40-48 | the table holds the powers of the base modulo 2^64 |
| Features.BuildRemoves | Simulator/simCode/featureExtraction.hpp:49-59 | the table holds the negated products modulo 2^64 |
| Features.TransformIsLinear | Simulator/simCode/featureExtraction.hpp:91-95 | the transform is the low half of the linear form in the fingerprint; cutting it to 64 bits first makes no difference |
| Features.FeatureGen.constructor | Simulator/simCode/featureExtraction.hpp:36-60 | both tables are right |
| Features.SlideIsFingerprint | Simulator/simCode/featureExtraction.hpp:85-86 | one update of the wrapping value gives the fingerprint of the next window |
| Features.FeatureGen.FingerprintList | Simulator/simCode/featureExtraction.hpp:68-88 | the k-th fingerprint is the polynomial of bytes k to k+63 modulo 2^64 |
| Features.MaxFp | Simulator/simCode/featureExtraction.hpp:91-99 | the first fingerprint with the largest transform, or zero if all transforms are zero |
| Features.FeatureGen.GetFeatureList | Simulator/simCode/featureExtraction.hpp:68-103 | all twelve features are such fingerprints of the chunk |
| Features.FeatureIsUnique | Simulator/simCode/featureExtraction.hpp:91-99 | that determines the feature |
| Features.ClearWindow | Simulator/simCode/featureExtraction.hpp:82-86 | a window clear of an edit has the same fingerprint before and after it |
| Features.EditKeepsFeature | Simulator/simCode/featureExtraction.hpp:90-101 | an edit leaves a feature unless it touches its window or creates one at least as large |
| FingerprintWorkers.StepKeepsInv | Prototype/src/client/fingerprinter.cpp:119-175 | every step of any worker and of the input side keeps the count of items and of finished workers |
| FingerprintWorkers.RunKeepsInv | Prototype/src/client/fingerprinter.cpp:109-182 | the invariant holds in every state of every interleaving |
| FingerprintWorkers.DoneMeansAllForwarded | Prototype/src/client/fingerprinter.cpp:121-175 | the done flag is set only after every item was forwarded exactly once, and is set once all workers have left |
| FingerprintWorkers.DoneMeansClosed | Prototype/src/client/fingerprinter.cpp:121-140 | in every reachable state the workers see the end of the input exactly if it has been closed |
| FingerprintWorkers.AloneExits | Prototype/src/client/fingerprinter.cpp:121-175 | once the input is closed a worker that goes on alone exits, and if it is the last one the done flag is set |
| Pipeline.SortKeeps | Prototype/src/client/keyClient.cpp:288 | sorting by ID orders the batch and keeps each item whole |
| Pipeline.SortedByPosition | Prototype/src/client/sender.cpp:58 | sorted, the item at position i has ID i |
| Pipeline.AssignKeys | Prototype/src/client/keyClient.cpp:233-331 | each chunk of a sorted batch gets its own two keys, through the map from ID to place in the batch |
| Pipeline.RunKeyClient | Prototype/src/client/keyClient.cpp:228-335 | over all batches every chunk of the file comes out once with its own keys, in any order of arrival |
| Pipeline.SplitCipherRoundTrip | Prototype/src/client/encoder.cpp:68-74 | decrypting in two parts undoes encrypting in two parts, for chunks of any length |
| Pipeline.CipherIsEncrypted | Prototype/src/client/encoder.cpp:69-74 | the first 32 bytes of what is stored decrypt under the key of the chunk's feature, the rest under the key of its hash |
| Pipeline.BuildRecipe | Prototype/src/client/sender.cpp:396-448 | the i-th recipe entry describes chunk i: its size, the hash of its ciphertext and the two keys that decrypt it |
| Pipeline.NoCollisionMeansStored | Prototype/src/enclave/src/powClient.cpp:104-122 | a store that keeps values under their hashes has the file if and only if it knows the hashes of its ciphertexts and no stored value collides with one of them |
| Pipeline.RestoreBatch | Prototype/src/server/storageCore.cpp:233-277 | the server answers if and only if every chunk of the batch is in the container store in the recipe's size, and then with exactly its frames |
| Pipeline.DecodeResponse | Prototype/src/client/recvDecode.cpp:325-366 | the client gets from the frames each chunk decrypted with its own keys |
| Pipeline.RestoreStep | Prototype/src/client/recvDecode.cpp:306-366 | one batch gives back its chunks |
| Pipeline.Restore | Prototype/src/server/dataSR.cpp:250-312 | the restore gives the file back, whatever the batch limit |
| Pipeline.Upload | Prototype/src/server/storageCore.cpp:104-124 | storing every chunk under the hash of its ciphertext leaves all of them, encrypted, in the container store, unless one of them needs a container name past the last |
| Pipeline.UploadAndRestore | Prototype/src/client/retriever.cpp:31-45 | upload in any order of arrival through the container store and restore from it: the client gets its file back, and what is stored is encrypted, unless a chunk needs a container name past the last |
| RestoreLoop.Batches | Prototype/src/server/dataSR.cpp:250-312 | the loop ends, and its batches cover all chunk IDs once, in order, none above the limit: a small file goes out as all but its last chunk and the last, another one as an empty batch, full ones and the rest |
| RestoreLoop.SlicesAreTheList | Prototype/src/server/dataSR.cpp:255-282 | put together, the batches are the whole list |
| Detector.LastOccurrence | Prototype/src/enclave/pow_enclave/pow_enclave.cpp:223-231 | the last occurrence of an indicator sees its whole count |
| Detector.WindowTriggersByMax | Prototype/src/enclave/pow_enclave/pow_enclave.cpp:211-235 | the enclave triggers in a window if and only if the largest frequency of that window exceeds the threshold |
| Detector.ToolAgreesWithEnclave | Simulator/simCode/windowCheck.cpp:66-146 | run with the enclave's window size, the tool reports more than the threshold for exactly the windows in which the enclave triggers |
| Detector.FramesOfEncoded | Prototype/src/enclave/pow_enclave/pow_enclave.cpp:191-202 | a batch of whole chunks is framed without error and gives their own first bytes as indicators |
| Detector.PowEnclave.Count | Prototype/src/enclave/pow_enclave/pow_enclave.cpp:211-235 | counting one chunk detects if and only if it exceeds the threshold in its own window of the whole stream |
| Detector.PowEnclave.NextChunk | Prototype/src/enclave/pow_enclave/pow_enclave.cpp:193-235 | a frame is counted unless it is broken |
| Detector.PowEnclave.CalcMac | Prototype/src/enclave/pow_enclave/pow_enclave.cpp:182-244 | a batch is flagged if and only if one of its chunks exceeds the threshold in its window, however the stream is cut into batches |
| Detector.MaxOfTable | Simulator/simCode/windowCheck.cpp:118-133 | the loop over the table, in any order, finds the largest frequency |
| Detector.WindowCheck | Simulator/simCode/windowCheck.cpp:15-146 | for any window size the tool reports the largest frequency of each window, the last one included |

## Left out

- ExplicitProducer.Producer.EnqueueBulk: for at most 2^64 - 32 items, for which the block arithmetic does not wrap; constructors of elements do not throw; after a failed bulk enqueue only for blocks that fit the index, as `ExplicitProducer.Producer.UnfitLosesHead` has it for one block.
- ExplicitProducer.Producer.Enqueue: a block that does not fit the index is excluded (`ExplicitProducer.Producer.UnfitLosesHead`), element constructors do not throw, and the sub-queue has no size limit other than the index range.
- ExplicitProducer.Producer.Dequeue: blocks are numbered, not addressed, and the empty flags are modelled for the default block size; releasing elements by counter, as larger blocks do, is not.
- DequeueTickets.RunIsSafe: for runs in which no two counters drift apart by half the index range, which is what the wrapped comparisons need.
- SharedQueue.StepKeepsInv: the block index is a map; `SharedIndex.StepRefines` has the circular index in its place.
- SharedQueue.RunKeepsInv: the same; `SharedIndex.RunKeepsInv` is the invariant with the circular index.
- SharedIndex.StepKeepsInv: entries are written as a whole, and blocks are marked as in use when they are taken, before their entries are written, which a bulk enqueue does afterwards; consumers look at neither meanwhile. A bulk enqueue that fails is not among the steps; `ExplicitProducer` has it for one thread.
- SoloQueue.SoloDequeueDelivers: while the counters that are compared stay within half the index range of each other.
- SoloQueue.SoloEnqueueAppends: the single enqueue, with allocations that succeed; `ExplicitProducer.Producer.Enqueue` and `ExplicitProducer.Producer.EnqueueBulk` say exactly when they are needed.
- FreeList.RunKeepsInv: for fewer than 2^31 - 2 threads, as the 31-bit count requires.
- ProducerTable.RunKeepsInv: the swap of a key and the store of its value, which only the same thread reads, are one step; allocation succeeds; threads do not exit, so keys and producers are not recycled.
- Memory orders weaker than sequential consistency, thread-exit hooks and debug branches of the queue.
- The implicit producer's own block index, and the pool that blocks come from, with the rounding of its size to a power of two. The implicit producer's dequeue follows the same ticket protocol.
- ContainerStore.Store.StoreChunk: chunks are smaller than the container limit, and the names are not used up; file errors are not modelled, a refusing database is.
- ContainerCache.Cache.InsertToCache: only for a name that is not cached, as its only caller ensures.
- CtrSessions.RunIsInLockstep: for clients that keep their stored nonce and counters that do not wrap at 32 bits; whether a login's MAC is right is a parameter. `CtrRuns.BatchIsAnsweredExactly` covers other nonces.
- CtrRuns.BatchIsAnsweredExactly: the session key does not change during a run, and the block cipher can be undone, as AES can; client counters do not wrap at 32 bits, and neither do the buffer offsets of the batch.
- CtrMask.FreshMaskAgrees: byte offsets into the buffer do not wrap at 32 bits. Prepared masks are for one client, as the original's limit on speculative clients says.
- CtrMask.Enclave.SetNextEncryptionMask: the order of the hash table is a parameter.
- CtrRuns.RunKeepsInv: preparing masks and answering a batch are one step each.
- The key server's threads, flags and timers, attestation, sealing and sockets.
- Json.RoundTrip: floats and exponents, which rest on library conversions, are not modelled; object keys are escaped strings, because the printer does not escape keys.
- Json.ReadStringBody: gives no result for text that ends within a string.
- Json.ReadNumber: gives no result for floats and exponents.
- Json.ReadNext: gives no result for floats and exponents, and for text that ends within a string.
- HttpResponse.StatusLineIsRead: version numbers do not overflow.
- HttpLanguage.CompletesExactly: version numbers do not overflow.
- Fixed-size and trace-driven chunking, and the feature extraction of the prototype, which reads entries it has not filled.
- ChunkedReads.CommonSuffixIsChunkedAlike: if both files lose bytes of the suffix, in reads of different pieces, whether the chunks agree depends on the values cleared; only boundaries that lose something matter then (`ChunkedReads.HarmlessBoundary`).
- ChunkedReads.CutsAfterRead: whether a chunk cut for its size after a carried value that fails the anchor test is one of the definition depends on its bytes; `ChunkedReads.CutsOfTheFile` decides the question for the file's own bytes.
- Chunker.ContentIsFile: stated on the bytes; the hash field of a chunk, which the chunker leaves unset, is not modelled.
- FingerprintWorkers.DoneMeansAllForwarded: the capacity of the message queues is not modelled, and feature extraction does not fail.
- Pipeline.UploadAndRestore: hash, cipher and key derivation are functions, no two ciphertexts of the file share a hash, and the database accepts every chunk; the framing of the upload, the deduplication answer, the proof of ownership, the encryption of the recipe, and a second restore on one connection, which does not reset its counters, are not modelled. The batch size is even, as two seeds per chunk require.
- Detector.PowEnclave.CalcMac: the value of the MAC is not modelled. Bytes behind a short last chunk are a parameter.
- Detector.WindowCheck: one indicator column; the columns for features and whole chunks are counted in the same way.
- The mixing of simulated snapshots (Simulator/simCode/mixedFilesGen.cpp), configuration, logging and scripts: they would only add easy members.
