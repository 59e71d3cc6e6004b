# A verified model of ngx_wasm's stateful core

The module runs WebAssembly guests inside nginx. Six of its parts keep state that outlives a call, and each of them
is modelled here as the program has it, updated in place and proved against a specification on values:

- **The shared key-value store.** `Index.dfy` is the linked search tree with its rotations and deletion, `Queue.dfy`
  the ring of recently used entries, `Zone.dfy` the public operations on both, over a slab that may refuse any
  allocation. `Cache.dfy` says what each operation does to a list of entries, most recently used first;
  `CacheLaws.dfy` reads that list as a map from key to value and expiry; `CacheRuns.dfy` and `Recency.dfy` speak of
  whole runs, and `Refinement.dfy` ties the linked store to them, the bytes it returns included. `Shape.dfy` and
  `Order.dfy` hold the theory of the tree: lookup and insertion break hash ties by different rules, and lookup is
  complete if and only if the rules agree on the keys in use. `Crc.dfy` is the store's hash, for a pair of keys on
  which they do not. `Decimal.dfy` is the integer parser and printer behind `incr`.
- **The body filter.** `BodyFilter.dfy` is the chain loop, the single read in flight and the queue; `BodyStream.dfy`
  its steps as functions. `BodyLaws.dfy`: no byte is lost, doubled or moved. `BodyDrain.dfy`: how one chain is read.
  `BodyRest.dfy`: when a whole run comes to rest with nothing queued. `BodyInput.dfy`: a run foretold from its input
  alone. `BodyFlags.dfy`: the flags that go downstream and the BUFFERED bit. `BodyMeaning.dfy`: cutting a body into
  chunks does not change what a streaming guest makes of it.
- **Resumable execution.** `Runtime.dfy` is the execution context with the Wasmtime handles it owns, `Resume.dfy` one
  run as a function of the engine's answers, `ResumeLaws.dfy` what every run keeps, `ResumeRuns.dfy` when a run
  completes or suspends and what a series of runs amounts to. `Request.dfy` adds the request: wake-up and references.
- **Metrics.** `Metrics.dfy` uses the same tree with the one consistent order; `Registry.dfy` states reload and counting.
- **The balancer.** `Balancer.dfy` walks the peers, `Tried.dfy` holds the bitmap and what selections add up to.
- **Subrequest headers.** `Subrequest.dfy` stages, clones and overrides; `Headers.dfy` says what a lookup then finds.

The outside world answers through oracles: the slab allocator and the request pool (`n`-th call succeeds or fails), the
guest as a transducer with state, Wasmtime's start, poll and fuel calls, the clock as a parameter of each operation, the
hash as an arbitrary function. Everything is proved for all their answers.

Return codes are those of `include/ngx_http_wasm_abi.h:16-18` in the store, the metrics and the subrequests, and
nginx's own elsewhere.

What the code does where one would expect something else:

- Keys of different length with equal hashes can be lost (`Shapes.CompleteIffRulesAgree`,
  `Refinement.LoseACrcKey`).
- A stored `incr` whose result is -2 returns the same code as a failure (`CacheLaws.IncrReturnAmbiguous`,
  `CacheLaws.IncrToMinusTwo`).
- Buffers behind a file buffer, and all input that arrives during a read, end up queued with no read in flight: they
  stay there, an end mark on them is not seen, and later input overtakes them (`BodyRest.RunRests`, `BodyRest.LateInput`,
  `BodyLaws.StalledFeed`, `BodyRest.Overtaken`). Only a later file buffer that is not empty can bring them out
  (`BodyRest.ReadBegins`). An empty file buffer leaves the BUFFERED bit set and swallows its end mark
  (`BodyDrain.FileChain`, `BodyDrain.EofOnce`, `BodyFlags.BodyEnds`).
- A phase that is complete, and whose response returns NGX_DONE when it is sent, gives the same code as a suspended one
  (`Requests.NoLostWakeup`, `Requests.DoneWithoutWakeup`).
- A yield followed by the end of a timeslice is forgotten (`ResumeRuns.YieldLost`); a trap after a yield is not reported,
  because the yield is tested first (`ResumeRuns.TrapAfterYield`, `ResumeRuns.TrapHidden`).
- An export that is found but is not a function leaves its item undeleted (`Runtime.ExecContext.RuntimeRun`,
  `ResumeRuns.LooksUpWhen`, `ResumeRuns.ItemLeft`).
- A header whose copy fails while it is staged stays staged without name or value, and the next launch applies it
  (`Headers.StageExactly`, `Headers.UnfinishedOverrides`).

## Model

| member | source | states |
|---|---|---|
| `Indexes.Index.Lookup` | src/ngx_http_wasm_shm.c:186-226 | the loop of the tree lookup returns the node that a bytes-first descent of the shape finds, or null |
| `Indexes.Index.Slot` | src/ngx_http_wasm_shm.c:147-184 | the descent of the insertion hook ends at a free child link where the new node respects the order of every ancestor |
| `Indexes.Index.Insert` | src/ngx_http_wasm_shm.c:329 | inserting links exactly one more node and keeps a well-linked search tree, through the hook and any rebalancing |
| `Indexes.Index.LeftRotate` | src/ngx_http_wasm_shm.c:178 | a left rotation changes links only: same nodes, same key order, still a search tree, all parent links right |
| `Indexes.Index.RightRotate` | src/ngx_http_wasm_shm.c:178 | the mirror image, and the left spine under the node becomes shorter |
| `Indexes.Index.Rebalance` | src/ngx_http_wasm_shm.c:178 | any number of rotations anywhere keeps the nodes and their key order |
| `Indexes.Index.Delete` | src/ngx_http_wasm_shm.c:344-352 | deleting takes out exactly the node given, whatever its position and children, and keeps a well-linked search tree |
| `Shapes.RotationsKeepOrder` | src/ngx_http_wasm_shm.c:178 | rotations keep the in-order sequence and undo each other |
| `Shapes.OrderedIffSorted` | src/ngx_http_wasm_shm.c:147-184 | being ordered for lookup is the same as having a sorted in-order sequence, so it does not depend on the shape of the tree |
| `Shapes.FoundIsMember` | src/ngx_http_wasm_shm.c:204-222 | lookup never returns a node whose hash and key are not those asked for |
| `Shapes.MemberIsFound` | src/ngx_http_wasm_shm.c:147-226 | in a tree kept sorted by either rule, every key is found as long as the two rules agree on the keys of the tree |
| `Shapes.CompleteIffRulesAgree` | src/ngx_http_wasm_shm.c:162-167 | lookup finds every key in every tree over a set of keys if and only if length-first and bytes-first comparison agree on that set |
| `Shapes.LostKey` | src/ngx_http_wasm_shm.c:162-216 | for any two keys on which the rules disagree, a tree in which the second key can no longer be found |
| `Shapes.OneIsLost` | src/ngx_http_wasm_shm.c:147-226 | in every ordered tree over such a pair lookup finds one key and not the other |
| `Crc.LostKeyExample` | src/ngx_http_wasm_shm.c:162-216 | "qHB+" and "X4gyM9" have one CRC-32, the rules disagree on them, and the second is not found in the tree that insertion builds |
| `Order.HashFixesLengthSuffices` | src/ngx_http_wasm_shm.c:153-169 | if equal hashes imply equal key lengths, the two rules agree |
| `Order.TagsTotal` | src/ngx_http_wasm_shm.c:153-169 | under both rules any two tags compare one way or the other, and equal only if they are the same hash and key |
| `Order.TagsTransitive` | src/ngx_http_wasm_shm.c:153-169 | both rules are transitive |
| `Order.RulesMean` | src/ngx_http_wasm_shm.c:153-222 | byte comparison is that of a dictionary; the insertion rule looks at length before it, the lookup rule does not |
| `Queues.Queue.InsertHead` | src/ngx_http_wasm_shm.c:330 | the ring then holds the new element first and all others behind it in their old order |
| `Queues.Queue.Remove` | src/ngx_http_wasm_shm.c:349 | the ring then holds all elements but the given one, in their old order |
| `Zones.Zone.DeleteLocked` | src/ngx_http_wasm_shm.c:344-352 | removes one entry from queue and tree alike; the two again hold the same nodes |
| `Zones.Zone.TouchLocked` | src/ngx_http_wasm_shm.c:354-361 | moves one entry to the front of the queue and changes nothing else |
| `Zones.Zone.FindVictim` | src/ngx_http_wasm_shm.c:375-387 | the backward scan stops at the oldest entry that is not protected, and finds none only if there is none |
| `Zones.Zone.EvictLru` | src/ngx_http_wasm_shm.c:363-388 | removes exactly the oldest unprotected entry, or refuses and changes nothing |
| `Zones.Zone.AllocNode` | src/ngx_http_wasm_shm.c:228-267 | for any behaviour of the slab: the entries evicted are the oldest unprotected ones, as many as failed attempts call for, and a node comes back exactly if an attempt succeeds |
| `Zones.Zone.SetLocked` | src/ngx_http_wasm_shm.c:281-333 | expired entry removed, existence tests, in-place or new-node write: the list and return code of `Cache.SetSpec` |
| `Zones.Zone.Get` | src/ngx_http_wasm_shm.c:474-514 | reads at most the buffer, returns the full length, moves the entry to the front, removes it if expired |
| `Zones.Zone.Exists` | src/ngx_http_wasm_shm.c:516-543 | as get, with the answer 1 or 0 |
| `Zones.Zone.Incr` | src/ngx_http_wasm_shm.c:545-617 | the parsed value plus delta is written back in canonical text with the same expiry, or an error is returned |
| `Zones.Zone.Set` | src/ngx_http_wasm_shm.c:619-641 | an unconditional write without expiry; over-long keys and values are refused |
| `Zones.Zone.SetEx` | src/ngx_http_wasm_shm.c:643-674 | a write with an expiry computed in wrapping 64-bit arithmetic, never 0 for a non-zero ttl |
| `Zones.Zone.Add` | src/ngx_http_wasm_shm.c:676-697 | a write that needs the key to be absent or expired |
| `Zones.Zone.Replace` | src/ngx_http_wasm_shm.c:699-720 | a write that needs the key to be present and not expired |
| `Zones.Zone.Delete` | src/ngx_http_wasm_shm.c:722-742 | removes the entry if there is one, and succeeds either way |
| `Cache.EvictionBounds` | src/ngx_http_wasm_shm.c:243-252 | an allocation evicts once per failed attempt, at most min(32, evictable) times; it succeeds exactly if the attempt after the evictions does |
| `Cache.KeptStep` | src/ngx_http_wasm_shm.c:375-385 | evicting one victim after another leaves what evicting them all at once leaves |
| `CacheLaws.WriteOnMap` | src/ngx_http_wasm_shm.c:281-333 | a write is the write on the map key -> (value, expiry) after the victims are gone; the victims never include the key; NOT_FOUND and ERROR leave the old value and expiry of the key; exactly when NOT_FOUND is returned |
| `CacheLaws.StoreOnMap` | src/ngx_http_wasm_shm.c:318-332 | the same for a write that needs a new node, for any slab |
| `CacheLaws.StoreCode` | src/ngx_http_wasm_shm.c:243-256 | a write with a new node fails exactly if the slab refuses it once for each other entry and once more, or 32 times; otherwise each refusal before the first success has cost one entry |
| `CacheLaws.WriteCode` | src/ngx_http_wasm_shm.c:281-333 | the code of every write from the map, the number of entries and the answers of the slab alone |
| `CacheLaws.VictimCount` | src/ngx_http_wasm_shm.c:243-256 | a successful write costs at most 31 other entries; a failed one costs 32, or all there were |
| `CacheLaws.VictimsAreOldest` | src/ngx_http_wasm_shm.c:375-385 | no surviving entry other than the protected one is older than a victim |
| `CacheLaws.LazyDeletion` | src/ngx_http_wasm_shm.c:298-301 | deleting an entry expired at one time changes the visible map at no later time |
| `CacheLaws.ReadOnMap` | src/ngx_http_wasm_shm.c:474-543 | get returns the full length of the value in the map and as many of its bytes as the buffer takes, exists whether there is one, and neither changes what a caller can see, then or later |
| `CacheLaws.DeleteOnMap` | src/ngx_http_wasm_shm.c:722-742 | delete removes exactly that key from the map |
| `CacheLaws.IncrOnMap` | src/ngx_http_wasm_shm.c:545-617 | incr keeps the expiry, returns the sum it stored, never sees NOT_FOUND from its write, and on every failure leaves the value of the key |
| `CacheLaws.IncrReturnAmbiguous` | src/ngx_http_wasm_shm.c:558-616 | an incr that stores returns the error code if and only if the value the key had and the delta add up to -2; one that does not store always returns it |
| `CacheLaws.IncrToMinusTwo` | src/ngx_http_wasm_shm.c:558-616 | a key holding "0" and a delta of -2: "-2" is stored and the code is that of a missing key |
| `CacheLaws.ExpiryVisible` | src/ngx_http_wasm_shm.c:661-666 | a key written with a ttl is visible exactly while t < now + ttl, if and only if that sum does not wrap |
| `CacheLaws.GuestExpiryVisible` | src/ngx_http_wasm_runtime.c:2212-2249 | with the ttl a guest can pass, a non-negative int32, the sum does not wrap and the key is visible exactly until it |
| `CacheRuns.CallOnMap` | src/ngx_http_wasm_shm.c:474-742 | any one call, as an effect on the map: what it writes, deletes and evicts |
| `CacheRuns.CallCode` | src/ngx_http_wasm_shm.c:474-742 | the code of every call from its arguments, the map and the answers of the slab; keys of 0 or more than 256 bytes and values of more than 65535 are refused |
| `CacheRuns.IncrRefuses` | src/ngx_http_wasm_shm.c:584-589 | an incr of a value that is no number fails and nothing visible changes, then or later |
| `CacheRuns.UndisturbedKey` | src/ngx_http_wasm_shm.c:228-742 | over any run, a key that no call writes, deletes or evicts keeps value, expiry and visibility |
| `CacheRuns.WrittenUntilExpiry` | src/ngx_http_wasm_shm.c:643-674 | after set_ex and any run that spares the key, the key is visible with its value exactly until its expiry |
| `CacheRuns.CallReads` | src/ngx_http_wasm_shm.c:474-543 | in any run a get answers with length and bytes from the map at that moment, and exists with whether the key is in it |
| `CacheRuns.ReadsWhatWasWritten` | src/ngx_http_wasm_shm.c:474-742 | after a stored write and any run that spares the key, a get returns the bytes written, as many as fit, until the expiry, and then NOT_FOUND |
| `CacheRuns.IncrStep` | src/ngx_http_wasm_shm.c:545-617 | one incr in a run: the stored text is canonical and the sum returned, or nothing changes and ERROR is returned |
| `CacheRuns.IncrementsAddUp` | src/ngx_http_wasm_shm.c:545-617 | over any run in which every call is an incr of the key or spares it, the value is the start plus the sum of the deltas that were stored, under the expiry of the start |
| `CacheRuns.RunUnique` | src/ngx_http_wasm_shm.c:281-333 | no run stores a key twice |
| `Recency.CallFronts` | src/ngx_http_wasm_shm.c:354-361 | an access puts its entry first and any call leaves the others in their order |
| `Recency.QueueSortedByAccess` | src/ngx_http_wasm_shm.c:228-742 | in every reachable state the queue is strictly sorted by the last successful access |
| `Refinement.HitIsIndex` | src/ngx_http_wasm_shm.c:186-226 | on agreeing keys, the linked tree finds exactly the entry of the key |
| `Refinement.LoseAKey` | src/ngx_http_wasm_shm.c:147-226 | two successful writes to a fresh zone of keys on which the rules disagree: both are stored, exactly one can be found, whatever the rotations |
| `Refinement.LoseACrcKey` | src/ngx_http_wasm_shm.c:633-637 | the same for "qHB+" and "X4gyM9" in a zone that hashes with CRC-32 |
| `Refinement.Serve` | src/ngx_http_wasm_shm.c:474-742 | each public operation on tree, queue and slab has the return code, the bytes read and the effect of the operation on the list, keeps the zone well formed, and reads what the map holds |
| `Refinement.Session` | src/ngx_http_wasm_shm.c:474-742 | every session on a fresh zone is a run of the list from empty, call by call, and every read in it returns length and bytes from the map at that moment |
| `Decimal.ParseI32` | src/ngx_http_wasm_shm.c:390-444 | accepts exactly an optional minus sign and one or more digits with a value in int32, any number of leading zeros included, and returns that value; the accumulator wraps at 32 bits |
| `Decimal.EmitDigits` | src/ngx_http_wasm_shm.c:454-457 | the first loop yields the decimal digits, last one first, at most ten |
| `Decimal.CopyReversed` | src/ngx_http_wasm_shm.c:459-469 | the second loop reverses them behind an optional sign |
| `Decimal.FormatI32` | src/ngx_http_wasm_shm.c:446-472 | writes the canonical text of every int32, INT32_MIN included, in at most 11 bytes |
| `Decimal.RoundTrip` | src/ngx_http_wasm_shm.c:390-472 | parsing what was printed gives the number back, for every int32 |
| `Decimal.LeadingZeros` | src/ngx_http_wasm_shm.c:418-431 | leading zeros change neither acceptance nor value |
| `Decimal.DenotesExactly` | src/ngx_http_wasm_shm.c:390-444 | which bytes are a number, and which number, by the places of the digits |
| `Decimal.Refused` | src/ngx_http_wasm_shm.c:399-422 | nothing, a bare minus sign, and any byte that is no digit where none may be are refused |
| `Decimal.CanonicalShape` | src/ngx_http_wasm_shm.c:446-472 | a minus sign for negative numbers only, and no leading zero but in 0 |
| `MetricsZone.Zone.Lookup` | src/ngx_http_wasm_metrics.c:235-276 | finds the node of exactly that name, for any hash function and any collisions |
| `MetricsZone.Zone.EnsureDefinitions` | src/ngx_http_wasm_metrics.c:156-200 | creates what is missing and stops at a kind that differs or a failed allocation; one node per name |
| `MetricsZone.Zone.CounterInc` | src/ngx_http_wasm_metrics.c:301-334 | adds to a declared counter without wrapping; refuses negative deltas, bad names, unknown names and gauges |
| `MetricsZone.Zone.GaugeSet` | src/ngx_http_wasm_metrics.c:336-362 | sets a declared gauge; refuses everything else |
| `MetricsZone.Zone.Get` | src/ngx_http_wasm_metrics.c:392-420 | returns the kind and value of the name, or tells a bad name from an unknown one |
| `Registry.EnsuredDeclares` | src/ngx_http_wasm_metrics.c:156-200 | a reload keeps every earlier value; what it adds starts at 0 with its declared kind; after OK every definition is declared with its kind |
| `Registry.EnsuredSucceeds` | src/ngx_http_wasm_metrics.c:156-200 | a reload succeeds if and only if no kind is contradicted and each of the allocations for missing names succeeds |
| `Registry.EnsuredTwice` | src/ngx_http_wasm_metrics.c:114-154 | reloading the same definitions changes nothing and needs no memory |
| `Registry.CounterAddsUp` | src/ngx_http_wasm_metrics.c:301-334 | over any sequence of increments, gauge writes and reloads a counter is min(2^63 - 1, start + sum) |
| `Registry.ApplyMeans` | src/ngx_http_wasm_metrics.c:301-362 | when an increment or a gauge write is accepted, its code, and that it changes that one value only |
| `Registry.GaugeKeepsLast` | src/ngx_http_wasm_metrics.c:336-362 | over any operations a gauge has the value that was set last |
| `BodyFilters.BodyFilter.Handler` | src/ngx_http_wasm_body_filter.c:86-138 | input while a read is in flight is queued; otherwise it is processed; unless an outside call fails, the new context is that of `BodyStream.Feed`, and the code is NGX_AGAIN for queued input and for a file buffer, else what downstream answers |
| `BodyFilters.BodyFilter.ProcessChain` | src/ngx_http_wasm_body_filter.c:190-304 | the loop over the chain: guest calls, what goes downstream, what is queued, the BUFFERED bit |
| `BodyFilters.BodyFilter.ScheduleFileChunk` | src/ngx_http_wasm_body_filter.c:353-417 | what is read, with which flags, and what is queued behind it |
| `BodyFilters.BodyFilter.CompleteFileChunk` | src/ngx_http_wasm_body_filter.c:419-473 | the bytes of the read go to the guest once; its replacement or the bytes themselves go on |
| `BodyFilters.BodyFilter.ThreadEvent` | src/ngx_http_wasm_body_filter.c:519-592 | a timed-out event changes nothing; a request that is over only gives back its hold; otherwise the chunk of the read, then the queue from its start, finalizing exactly on an outside failure or a short read; the hold on the request is there exactly while a read is in flight |
| `BodyFilters.BodyFilter.QueueRemaining` | src/ngx_http_wasm_body_filter.c:616-649 | the residual of a file buffer and all followers are queued in order |
| `BodyFilters.BodyFilter.QueueTail` | src/ngx_http_wasm_body_filter.c:596-614 | copies of all buffers are queued in order |
| `BodyLaws.BytesConserved` | src/ngx_http_wasm_body_filter.c:190-592 | for any mix of buffers, chunk size and orderly run: given to the guest ++ in flight ++ queued is all that was fed, in order |
| `BodyLaws.FeedConserves` | src/ngx_http_wasm_body_filter.c:86-138 | feeding conserves bytes whenever nothing is queued without a read |
| `BodyLaws.CompleteConserves` | src/ngx_http_wasm_body_filter.c:519-592 | completing a read conserves bytes, always |
| `BodyLaws.StalledFeed` | src/ngx_http_wasm_body_filter.c:363-366 | feeding a stalled filter keeps the order if and only if the bytes that overtake commute with the queued ones |
| `BodyDrain.ChunkCallsShape` | src/ngx_http_wasm_body_filter.c:368-396 | a file range makes ceil(length / chunk) full chunks that join to it, the end mark on the last one only |
| `BodyDrain.ReadLoop` | src/ngx_http_wasm_body_filter.c:353-592 | a file buffer is read piece by piece to its end; then its followers are queued, with no read in flight |
| `BodyDrain.FileChain` | src/ngx_http_wasm_body_filter.c:353-592 | memory buffers, one file buffer, followers: the run ends after ceil(length / chunk) reads; it drains iff there are no followers; BUFFERED clears iff it drains and the file range is not empty |
| `BodyRest.RunRests` | src/ngx_http_wasm_body_filter.c:86-592 | over any orderly run from an idle filter that ends with no read in flight: nothing is queued iff no input came during a read and none had buffers behind its first file buffer; the guest has seen an end mark iff one came in time, ahead of the first file buffer or on it and it not empty |
| `BodyRest.RestsAfter` | src/ngx_http_wasm_body_filter.c:86-592 | any callback from any state, a stalled one included: if it ends with no read in flight, exactly when it leaves the queue empty |
| `BodyRest.ReadBegins` | src/ngx_http_wasm_body_filter.c:237-252 | from any state with no read in flight, input starts one iff its first file buffer is not empty; otherwise exactly what is added to the queue |
| `BodyRest.LateInput` | src/ngx_http_wasm_body_filter.c:120-127 | input that comes while a file is read changes neither the calls nor the number of reads; all of it is queued, never read, and an end mark on it is never seen |
| `BodyRest.Overtaken` | src/ngx_http_wasm_body_filter.c:363-366 | a body "abc" of which the guest gets "ac" while "b" stays queued |
| `BodyInput.RunMeets` | src/ngx_http_wasm_body_filter.c:86-592 | any run whose input is in order goes as a count of reads foretells: when a read is in flight, when something is left behind, and every call of the guest |
| `BodyInput.EndForeseen` | src/ngx_http_wasm_body_filter.c:86-592 | with no end mark but on the last buffer and nothing left behind, the guest sees it on its last call and only there, exactly if that buffer calls the guest |
| `BodyDrain.MemoryChain` | src/ngx_http_wasm_body_filter.c:205-303 | a chain without file buffers drains at once |
| `BodyDrain.EofOnce` | src/ngx_http_wasm_body_filter.c:391-396 | with the end mark on the final file buffer alone the guest sees eof exactly once, on its last call; for an empty file range never |
| `BodyMeaning.StepFaithful` | src/ngx_http_wasm_body_filter.c:306-349 | after every callback, downstream has exactly what the guest made of its calls |
| `BodyFlags.FeedFlags` | src/ngx_http_wasm_body_filter.c:205-283 | input sends on one buffer, with the same flush, sync, last_buf and last_in_chain, for each buffer ahead of its first file buffer; during a read it sends nothing |
| `BodyFlags.CompleteFlags` | src/ngx_http_wasm_body_filter.c:442-472 | a read that is over sends on one buffer with the flags of its chunk, then one for each queued buffer ahead of a file buffer |
| `BodyFlags.ReadFlags` | src/ngx_http_wasm_body_filter.c:386-396 | the last piece of a file buffer carries its flags, an earlier piece none |
| `BodyFlags.RunFlags` | src/ngx_http_wasm_body_filter.c:86-592 | over any run whose input is in order, the flags of all that was sent and will be sent are those foreseen from the input |
| `BodyFlags.BodyEnds` | src/ngx_http_wasm_body_filter.c:86-592 | what is sent of a whole body ends with the flags of its last buffer, end mark included, and has no end mark before; an empty file range at the end takes its mark with it |
| `BodyFlags.BitAfter` | src/ngx_http_wasm_body_filter.c:125-126 | after input, BUFFERED is set exactly if a read was in flight, something was queued, or the input has a file buffer; after a read, exactly if another is in flight or something is queued |
| `BodyFlags.BitCovers` | src/ngx_http_wasm_body_filter.c:297-301 | over any run, a read in flight or a queued buffer has the bit set |
| `BodyFlags.OneBuffer` | src/ngx_http_wasm_body_filter.c:207-278 | a memory buffer calls the guest if it has bytes or an end mark, an empty one if it is flagged as the last |
| `BodyFlags.CopiesKeepFlags` | src/ngx_http_wasm_body_filter.c:596-614 | a buffer that is queued keeps its flags |
| `BodyMeaning.PlayWhole` | src/ngx_http_wasm_body_filter.c:306-349 | a guest that works byte by byte, whether or not it sets an output where it would copy, makes of any cutting into calls what it makes of the whole |
| `BodyMeaning.ChunkingKeepsMeaning` | src/ngx_http_wasm_body_filter.c:190-592 | any drained orderly run has sent downstream what the guest makes of the whole body, whatever the chunk size and buffers |
| `BodyMeaning.WholeFile` | src/ngx_http_wasm_body_filter.c:190-592 | end to end: memory buffers and a last file buffer fed to a fresh filter; after ceil(length / chunk) reads nothing is pending and downstream has what the guest makes of the whole body and its end |
| `BodyMeaning.WholeBody` | src/ngx_http_wasm_body_filter.c:86-592 | any number of inputs, all conditions on them alone: nothing is pending, the calls are those foreseen, and downstream has what the guest makes of the whole body and its end |
| `BodyMeaning.SilentRun` | src/ngx_http_wasm_body_filter.c:460-472 | with a guest that sets no output, what went downstream, is being read and is queued make up the body as fed, at every point of any orderly run |
| `BodyMeaning.SilentGuestIsIdentity` | src/ngx_http_wasm_body_filter.c:460-472 | calls to a guest that sets no output give back the bytes of their chunks |
| `Runtime.ExecContext.RuntimeRun` | src/ngx_http_wasm_runtime.c:3087-3436 | every exit keeps the handle books and the future/kind pairing; the new state and code are those of `Resume.Run`; an export item is left undeleted exactly if the export is found and is no function |
| `Runtime.ExecContext.ClearAsyncFuture` | src/ngx_http_wasm_runtime.c:1578-1585 | the future is deleted once and its kind forgotten |
| `Runtime.ExecContext.ClearAsyncOutputs` | src/ngx_http_wasm_runtime.c:1587-1601 | trap and error are deleted once |
| `Runtime.ExecContext.ResetResumeState` | src/ngx_http_wasm_runtime.c:1603-1617 | all handles are deleted once, the future before its store, and both ready bits are cleared |
| `Runtime.ExecContext.CleanupExecCtx` | src/ngx_http_wasm_runtime.c:601-608 | every store, future, trap and error ever made has been deleted exactly once; nothing twice |
| `Runtime.ExecContext.RunsThenCleanup` | src/ngx_http_wasm_runtime.c:601-608 | the same after any number of runs with any outcomes |
| `Runtime.ExecContext.FuturesHaveStores` | src/ngx_http_wasm_runtime.c:3172-3178 | every future not yet deleted runs in a store not yet deleted |
| `Runtime.ExecContext.PrepareAsyncOp` | src/ngx_http_wasm_runtime.c:1619-1647 | refuses exactly if a future exists or future and kind disagree; else both outputs are empty |
| `Runtime.ExecContext.PrepareAsyncYield` | src/ngx_http_wasm_runtime.c:1649-1674 | the interval set is what fuel is left or the timeslice, if there is one, whichever is less |
| `Runtime.ExecContext.Launch` | src/ngx_http_wasm_runtime.c:3172-3202 | a refused start leaves no future, no kind and no undeleted logged handle |
| `Runtime.ExecContext.PollAsync` | src/ngx_http_wasm_runtime.c:3205-3243 | poll, fuel reading and, once complete, deletion of the future |
| `Runtime.ExecContext.Conclude` | src/ngx_http_wasm_runtime.c:3373-3435 | after the call: error, then yield, then trap, then the result of the guest |
| `Runtime.ExecContext.HostYield` | src/ngx_http_wasm_runtime.c:3058-3085 | marks the run as yielded, in the phases that may wait |
| `Runtime.ExecContext.HostSubreq` | src/ngx_http_wasm_runtime.c:682-734 | a launched subrequest marks the run as waiting for I/O; a refused one changes nothing |
| `Runtime.ExecContext.InitRequestExec` | src/ngx_http_wasm_module.c:1753-1759 | cleans up and begins with a full fuel budget |
| `ResumeLaws.RunKeeps` | src/ngx_http_wasm_runtime.c:3087-3436 | at every exit: INSTANTIATE future only before the instance is ready, CALL future only after the function is, OK/AGAIN/ERROR match DONE/SUSPENDED/ERROR; fuel accounts exact until a first error, remaining fuel never rises, a timeslice suspension leaves fuel, and an interval that the run has set is the lesser of the fuel it had then and the timeslice |
| `ResumeRuns.RunOutcome` | src/ngx_http_wasm_runtime.c:3087-3436 | for all answers of the engine: exactly when a run completes, when it suspends, of which kind, and whether a future stays alive |
| `ResumeRuns.RunLeaves` | src/ngx_http_wasm_runtime.c:3087-3436 | what every run leaves: whether the instance and the function are ready, which future is alive, the fuel left, and the fuel for which the interval was set |
| `ResumeRuns.InitialMeans` | src/ngx_http_wasm_runtime.c:482-489 | a context before its first run is sound for every phase and budget, with all of the limit left and nothing begun |
| `ResumeRuns.FirstRunInvokes` | src/ngx_http_wasm_runtime.c:3131-3300 | a first run of any phase reaches the call exactly if the instantiation leaves fuel |
| `ResumeRuns.WaitingPhases` | src/ngx_http_wasm_runtime.c:501-558 | a yield or a subrequest suspends the run in the content, rewrite and server rewrite phases and in no other |
| `ResumeRuns.NextSubrequest` | src/ngx_http_wasm_abi.c:563-576 | once a subrequest has completed the guest may launch the next, until then not |
| `ResumeRuns.HostedMeans` | src/ngx_http_wasm_runtime.c:682-734 | the host calls of a run, without their order: yielded iff some yield or first launch, waiting for I/O iff some launch |
| `ResumeRuns.LooksUpWhen` | src/ngx_http_wasm_runtime.c:3267-3284 | exactly which runs look the export up; with a missing or unfit export they fail |
| `ResumeRuns.ItemLeft` | src/ngx_http_wasm_runtime.c:3267-3284 | a first run that finds the export and finds it to be no function |
| `ResumeRuns.SeriesKeeps` | src/ngx_http_wasm_runtime.c:3087-3436 | any series of runs, failed ones included, keeps the resume state consistent and the fuel bounded |
| `ResumeRuns.SuspensionsBounded` | src/ngx_http_wasm_runtime.c:1649-1674 | if every run that suspends burns fuel, at most fuel_limit suspensions happen, and burned + remaining is the limit |
| `ResumeRuns.CallAfterSuspension` | src/ngx_http_wasm_runtime.c:3286-3300 | after a wait of the guest the next run begins a new call; after a timeslice within the call it goes on with the same one and asks for none |
| `ResumeRuns.NoFuelNoRun` | src/ngx_http_wasm_runtime.c:1655-1657 | with fuel_limit 0 every run fails before a future exists |
| `ResumeRuns.YieldLost` | src/ngx_http_wasm_runtime.c:1548-1552 | from a fresh content phase: a yield followed by a timeslice in the first run is forgotten, and the second run completes the same call |
| `ResumeRuns.TrapAfterYield` | src/ngx_http_wasm_runtime.c:3382-3418 | a trap at the end of a call fails the run if and only if nothing in the run has yielded |
| `ResumeRuns.TrapHidden` | src/ngx_http_wasm_runtime.c:3382-3418 | a guest that yields and traps in its first run is suspended |
| `Requests.Request.InitRequestExec` | src/ngx_http_wasm_module.c:1746-1761 | a fresh execution context, marked as not completed |
| `Requests.Request.RunRequest` | src/ngx_http_wasm_module.c:1797-1844 | handler, posting, waiting mark, reference count and return code for every outcome of the run |
| `Requests.Request.Resume` | src/ngx_http_wasm_module.c:1763-1795 | a resumed request waits again, goes on through the phases, or is finalized |
| `Requests.PerformCode` | src/ngx_http_wasm_module.c:1797-1844 | the code of every run and what it does to the request: 500 for a failed run or a failed posting, NGX_DECLINED for a completed rewrite phase whose guest has set nothing, else what the sending returns, 500 for an error in it |
| `Requests.NoLostWakeup` | src/ngx_http_wasm_module.c:1797-1844 | NGX_DONE exactly if the run is suspended and any posting it needs succeeded, or the phase is complete and sending its response returned NGX_DONE; in the first case the resume handler is installed and either the request was posted once or a subrequest launched in this very run is active |
| `Requests.DoneWithoutWakeup` | src/ngx_http_wasm_module.c:1838-1843 | a completed first run whose response returns NGX_DONE: no handler, no posting, no reference |
| `Requests.OneReference` | src/ngx_http_wasm_module.c:1812-1820 | over any number of runs that suspend the request the main count rises exactly once in the content phase and never in the rewrite phases |
| `Balancers.Balancer.SelectPeer` | src/ngx_http_wasm_module.c:1284-1397 | the list walk, the tests and the updates have the effect and code of `Tried.Select` |
| `Balancers.Balancer.FindPeer` | src/ngx_http_wasm_module.c:1316-1320 | the walk returns the peer at the index, or null past the end |
| `Tried.SelectMeans` | src/ngx_http_wasm_module.c:1284-1397 | success iff not stale, in range, untried, up and below both limits; success takes one connection and never exceeds a non-zero max_conns; every refusal changes nothing |
| `Tried.SelectOnFields` | src/ngx_http_wasm_module.c:1340-1386 | the tests and updates on the fields of the peer: down, the window of failures, the limit of connections; one connection and one reference more, the time of the check if that was longer ago |
| `Tried.MarkMeans` | src/ngx_http_wasm_module.c:1331-1334 | setting the bit of a peer in its 64-bit word marks that peer and no other |
| `Tried.TriedIsChosen` | src/ngx_http_wasm_module.c:1303-1376 | over all selections of a request, stale ones that see another list of peers included, the words denote the initially tried plus the chosen peers; chosen peers are distinct, in range and were untried |
| `Tried.SelectionsBounded` | src/ngx_http_wasm_module.c:1331-1376 | so at most as many selections succeed as peers were untried |
| `Headers.SameNameEquivalence` | src/ngx_http_wasm_abi.c:616-619 | case-insensitive equality of names, as computed, is an equivalence |
| `Headers.SameBytesMean` | src/ngx_http_wasm_abi.c:616-619 | the comparison folds the letters A to Z, and ends at a zero byte |
| `Headers.SameNameMeans` | src/ngx_http_wasm_abi.c:616-619 | names without a zero byte are the same exactly if they have one length and differ in the case of letters only |
| `Headers.OverrideMeans` | src/ngx_http_wasm_abi.c:435-470 | setting a header changes the lookup of that name, up to case, and of no other |
| `Headers.OverriddenMeans` | src/ngx_http_wasm_abi.c:1603-1611 | after all overrides a lookup gives the last staged value of the name, or else the first value of the parent |
| `Headers.OverriddenKeeps` | src/ngx_http_wasm_abi.c:435-470 | overrides rename nothing and touch only the first header of a name |
| `Headers.StageExactly` | src/ngx_http_wasm_abi.c:1471-1495 | the list is unchanged iff the array or the push failed, ends in a nameless header iff the copy of the name failed, in a header without value iff the copy of the value failed; no call follows the one that failed |
| `Headers.UnfinishedOverrides` | src/ngx_http_wasm_abi.c:1483-1493 | a header whose value could not be copied still overrides at the next launch, with an empty value |
| `Headers.UnfinishedExample` | src/ngx_http_wasm_abi.c:1483-1493 | the fourth outside call fails: staging reports an error, and the launch takes the value of the parent header away |
| `Subrequests.HeaderList.FindHeader` | src/ngx_http_wasm_abi.c:596-624 | the first header whose name is equal up to case |
| `Subrequests.SubrequestState.SetHeader` | src/ngx_http_wasm_abi.c:1449-1496 | staging succeeds iff allowed, named, none active and no outside call fails; what is staged and how many outside calls are made are those of `Headers.Stage` |
| `Subrequests.SubrequestState.CloneHeaders` | src/ngx_http_wasm_abi.c:472-532 | the copy has the headers of the parent in order; fails exactly if an allocation does |
| `Subrequests.SubrequestState.SetRuntimeHeader` | src/ngx_http_wasm_abi.c:435-470 | overwrites the first match or appends; fails exactly if an allocation does |
| `Subrequests.SubrequestState.Launch` | src/ngx_http_wasm_abi.c:1498-1616 | launches exactly if allowed, with a uri and a known method, none active and no outside failure; then the new request has the overridden headers, the staged list is empty, the parent is untouched; a refusal while active changes nothing; a failure keeps the staged headers |
| `Subrequests.SubrequestState.Done` | src/ngx_http_wasm_abi.c:563-593 | marks completion and turns a captured body over the limit into an error |
| `Subrequests.StageAndLaunch` | src/ngx_http_wasm_abi.c:1449-1616 | from any staging to the lookup in the subrequest: the last staged value, or else that of the parent |

## Left out

- Null pointers for zone, key, value, module or peer data: the tests for them come before everything modelled.
- Sizes and layout of slab memory; freeing a node is taken to be its removal from tree and queue.
- Red-black colours: rebalancing is any sequence of rotations, which covers the one that the colours prescribe.
- Locks: each operation holds the mutex of its zone from start to end and is modelled as one step.
- The clock within one operation is read once.
- The hash is any function in all laws; those that need insertion and lookup to agree on the keys say so. For the
  witness it is CRC-32, bit by bit; nginx's table-driven `ngx_crc32_short` is not part of this model.
- `gauge_add`, a plain addition with no rule for overflow.
- Non-threaded builds and chunk size 0 of the body filter in the laws (`BodyFilters.BodyFilter.ProcessChain` covers size 0).
- The timer of a read, and what the connection's handler does for a request that is over.
- A body filter context that an earlier phase has made (`src/ngx_http_wasm_module.c:1670-1685`): it has no tail pointer,
  so that queueing its first buffer (`src/ngx_http_wasm_body_filter.c:690`) has nowhere to write. The model begins with a
  context that the body filter has made (`src/ngx_http_wasm_body_filter.c:165`).
- Buffers shared between chain and queue: a queued copy and its original are values here.
- Posting to thread pools, posted requests, the phase engine and finalization of nginx; only what they are asked to do.
- Wasmtime itself: its answers are arbitrary, except that a poll burns no more fuel than there is, that it fills outputs
  only when complete, and that one future runs at a time.
- Setting up the contexts of the TLS, log and filter phases; their runs are those of any context with another phase and timeslice.
- The guest's memory access and the capability tests in front of each host call, but for yield and subrequest.
- Segments of nginx header lists (a list is one sequence here), header hashes, and a parent header without lower-case name.
- A subrequest without staged headers shares its parent's list in nginx; here it starts with an equal list of its own.
- A subrequest whose launch failed after nginx had created it still runs in nginx; its late completion is not modelled.
- The socket address and name a selected peer hands to the connection; weights, and the lists of other balancers.
- The response header slot table, request body reading, TLS hooks, variables, configuration, logging: no state machine.
