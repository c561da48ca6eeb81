# Verified model of the client's storage, streaming and trust logic

This project models five connected parts of the system and proves properties of them with Dafny 4.11.

* **Video streaming.** An author cuts a file into chunks, groups them into fragments, publishes an
  index and seals the chunks. A viewer parses the index, maps a byte range to fragments, feeds each
  fragment from a bounded, evicting ciphertext cache or from fetches, decrypts, joins and slices.
  `EndToEnd.PublishAndServe`: the first request over a fresh cache of either kind and any size yields
  exactly `content[start..start + len]`, whatever direct links answer. `EndToEnd.PublishAndServeAll`:
  over one cache and any sequence of requests, each over its own direct links, which may say anything,
  every body is exactly the requested window; and as long as no read or write of the cache fails, as none
  does in RAM, a request is refused exactly where the cache it meets does not admit it
  (`ServingRuns.Admits`: some of it is held, and a direct chunk it needs does not open or the budget is too
  small for the frames up to the last one held).
  A request touches no entry of others but to evict it for room, and once served it is served again
  without fetching exactly if its frames fit the budget together (`ServingScope`).
* **The blob cache.** The class is proved, call by call, to be one ideal recency list on both its
  RAM and its disk backend; `CacheRuns` then says what any run of calls can answer.
* **Grant-graph revocation.** The worklist search, its result as a dominator set, and what cutting
  that set or learning of withheld grants does.
* **Trust.** The control chain and what its head commits to, trust-on-first-use of directory keys,
  the delegation hop and its cache, and the crash-safe pin store.
* **Card cache, key blob and upload pipeline.**

Modules follow the source files; `serve_range` takes seven: `Recency` (one pass over a recency list),
`ServingModel` (a request over a cache that does not fail, as a function), `ServingLaws` (when it is served),
`ServingRuns` (what runs of requests keep), `ServingScope` (what a request leaves to others and to the next),
`ServingCases` (requests that are refused) and `Serving` (the code, on both backends). `Machine` has the fixed-width integers and byte encodings,
`Wrappers` and `Records` shared types. Stateful parts are classes whose methods are proved against
functions of the old state; what may go wrong outside (a failing write, a lost file, a server's
answer, a crash) is left to chance inside the methods, so every theorem holds for all of it.

Cryptography is a parameter, never an axiom. An AEAD key is the table of what was sealed under it
(`Content`) or a pair of functions of which one inverts the other (`Tofu`, `ThumbCache`, `KeyBlob`).
Hashes, fingerprints and signature checks are arbitrary functions; where collision-freedom would be
needed the theorem says "or these two records collide".

## Findings

Paths are relative to the repository.

* An index of more than 2^32 fragments is accepted, but its numbers are truncated
  (crates/client-app/src/video.rs:118; `FragmentIndex.NumbersIdentifySlots`, with an accepted array in
  `FragmentIndex.LastFindsFirst`); a range whose last byte lies in a slot past 2^32 is planned and then
  not served (`Playback.AssembleRange`, with `k1 < U32_BOUND` in both directions).
* `chunk_grouped_index` aborts at exactly 2^32 fragments (crates/client-app/src/upload.rs:161), since
  release builds keep overflow checks (Cargo.toml:58; `AuthorIndex.ChunkGroupedIndex`).
* Framing is invertible exactly if every count and length fits `u32`
  (crates/client-app/src/video.rs:237; `Framing.DeframeInvertsFrame`).
* A request served by honest sources over genuine entries can be refused for lack of room:
  phase A takes a fragment for a hit and does not fetch it, and feeding the fragments before it pushes
  it out before it is read (crates/client-app/src/commands/video.rs:784-800 and 849-868). The request
  is served exactly if there is no budget, or the frames from the first slot of the request up to the
  last one held fit the budget together, frames larger than the whole budget left out
  (`ServingLaws.ServedExactly`, over any run `ServingRuns.EveryRequest`; an example in
  `ServingCases.CrampedHappens`).
  So a miss after the last hit never matters, nor does a span of which nothing is held.
* The comment at crates/client-app/src/commands/video.rs:754-757 promises that a tampered direct link
  never denies playback. Over genuine entries it does so exactly if some fragment of the request was a
  hit: the retry evicts that fragment too, and its chunks are not at hand (lines 896-918). A request is
  served exactly if none of it was held, or every direct chunk it needs opens and the budget has room
  (`ServingLaws.LinksExact`, `ServingLaws.ServedExactly`; an example in `ServingCases.LinkDenies`;
  the retry alone in `Serving.RetrySpan`). Such a link leaves nothing behind: whatever it says, and
  whether or not the request is served, every entry is genuine afterwards (`ServingRuns.RequestKeepsTidy`),
  so that condition is exact for every request of any run (`ServingRuns.EveryRequest`).
* A fragment is stored before it is opened (crates/client-app/src/video.rs:208-222), and evicted again
  only after a direct link was used and refetching worked (crates/client-app/src/commands/video.rs:869-918).
  After one bad chunk from the server its entry counts as a hit. Over any cache and honest sources a
  request is served exactly if every fragment offered opens and the budget has room
  (`ServingLaws.HonestExact`); an entry that does not open refuses every request that touches it
  (`ServingLaws.PoisonRefuses`), and a request for fragments that are all offered is refused however
  often it is made (`ServingRuns.RefusedForever`; an example in `ServingCases.PoisonedForGood`).
* `unhex32` also accepts upper case and a plus sign (crates/client-app/src/tofu.rs:248-257); exactly
  lower-case text prints back (`HexText.HexRoundTrips`; the plus sign in `HexText.PlusIsRead`).
* A new revocation is undone from the start exactly if some reinstatement already in the log, by
  whichever chain object, names the epoch it is given (`Control.NewRevocationHolds`). Two things make
  that happen. `ControlChain::resume` restarts the epoch counters
  (crates/admin-core/src/control.rs:183-189), so a revocation after a resume may get an epoch that was
  reinstated before (`Control.ResumedRevocationIsLost`); and `reinstate` takes any epoch
  (crates/admin-core/src/control.rs:224-242), also one not yet issued, within one object
  (`Control.ReinstatedInAdvance`). The comment at crates/client-core/src/revocation.rs:357-359 says a later
  re-revocation is unaffected; that holds if the object was not resumed and reinstatements name only the
  past (`Control.OnlyTheEarlierForestall`, with nothing earlier).
* The owner can be in its own revocation set, through a grant back
  (crates/admin-core/src/subtree.rs:36-55; `Subtree.OwnerMayBeRevoked`).
* `accept_key_change` has no rollback check (crates/client-core/src/directory.rs:314-332), and
  `authorize_recipient` may pin a user it then reports as revoked (lines 287-308;
  `Directory.VersionsFallOnlyByAccept`, `Directory.RefusalsChangeNothingElse`).

## Model

| member | source | states |
|---|---|---|
| Framing.DeframeInvertsFrame | crates/client-app/src/video.rs:231-277 | deframing gives back a framed list exactly if its count and lengths fit `u32` |
| Framing.FrameInjective | crates/client-app/src/video.rs:234-243 | two fitting chunk lists never share a frame |
| Framing.BodyInjective | crates/client-app/src/video.rs:234-243 | chunk records are prefix-free |
| Framing.OverlongCountIsAMiss | crates/client-app/src/video.rs:237-237 | a truncated count never passes the count check of the reader |
| Framing.FrameChunks | crates/client-app/src/video.rs:234-243 | the loop writes the frame of the list |
| Framing.RecordAt | crates/client-app/src/video.rs:234-243 | where the record of each chunk lies in a frame: its length as a little-endian word, truncated, then its bytes |
| Framing.ReadU32 | crates/client-app/src/video.rs:280-285 | the little-endian word at a place inside the blob, or nothing exactly when it would run off the end |
| Framing.DeframeChunks | crates/client-app/src/video.rs:250-277 | returns the one list whose frame the blob is, and nothing for every other blob; the early bound rejects no genuine frame |
| Framing.DeframeCount | crates/client-app/src/commands/video.rs:163-182 | the counting copy of the parser accepts the same blobs and counts the same chunks |
| FragmentIndex.ParseFragmentIndex | crates/client-app/src/video.rs:68-126 | accepts exactly the complete, numbered, contiguous arrays with non-decreasing times, and keeps every slot |
| FragmentIndex.ParsedIsWellFormed | crates/client-app/src/video.rs:53-67 | every parsed index is contiguous from zero with no empty slot |
| FragmentIndex.SlotOfChunk | crates/client-app/src/video.rs:93-117 | every covered chunk lies in exactly one slot |
| FragmentIndex.SlotsAscend | crates/client-app/src/video.rs:93-117 | times never fall and starts strictly rise along an index |
| FragmentIndex.FragmentForTime | crates/client-app/src/video.rs:132-144 | the early exit finds the last slot open at the given time, and nothing exactly before the first |
| FragmentIndex.Lookup | crates/client-app/src/video.rs:148-153 | the first entry with that number, or nothing exactly if there is none |
| FragmentIndex.LookupSlot | crates/client-app/src/video.rs:148-153 | a number below 2^32 finds its own slot in an index of any length |
| FragmentIndex.NumbersIdentifySlots | crates/client-app/src/video.rs:118-123 | every slot is found by its number exactly if there are at most 2^32 |
| FragmentIndex.LastFindsFirst | crates/client-app/src/video.rs:93-123 | an accepted array of 2^32 + 1 fragments, whose last number finds the first fragment |
| AuthorIndex.ChunkGroupedIndex | crates/client-app/src/upload.rs:152-164 | the loop yields the grouped index, and aborts exactly from 2^32 fragments on |
| AuthorIndex.GroupedIsWellFormed | crates/client-app/src/upload.rs:147-151 | a grouped index is contiguous and covers exactly the chunks given |
| AuthorIndex.PublishedParsesBack | crates/client-app/src/upload.rs:59-79 | the viewer's parser takes a published index back unchanged exactly if it is well-formed and has at most 2^32 slots |
| AuthorIndex.PrepareIndex | crates/client-app/src/upload.rs:296-328 | parsing back and re-checking the coverage never reject; only an empty file is refused, and from 2^32 chunks of 1 MiB on the build aborts; one fragment a chunk; title and tags are published as given |
| Content.SealStream | crates/crypto/src/aead.rs:81-112 | what is uploaded opens, chunk by chunk at its own index, to the content and to nothing else; under any file, version and count the key opens exactly these chunks, each at its index of this file version, and the last one only as a last one |
| Content.OpenRange | crates/client-core/src/download.rs:864-899 | refuses a range past the signed count, otherwise opens exactly if every chunk opens at its absolute index |
| Content.PlainIsContent | crates/client-core/src/download.rs:833-899 | any range that opens is that range of the content, whatever ciphertext was supplied |
| RangePlan.ResolveRange | crates/client-app/src/stream.rs:30-46 | refused exactly if no wanted byte exists; otherwise the first wanted bytes, as many as there are or the cap allows (RFC 9110 section 14.1.2) |
| RangePlan.TotalLen | crates/client-app/src/stream.rs:152-160 | fails exactly on an empty stream, a zero chunk size or 64-bit overflow |
| RangePlan.TotalLenIsContentLength | crates/client-app/src/stream.rs:148-160 | with the last chunk's own length it gives the length of the content |
| RangePlan.PlanRange | crates/client-app/src/stream.rs:63-96 | succeeds exactly if the last wanted byte is covered, and then names the slots of the first and last byte and the first slot's byte offset |
| RangePlan.LocateChunks | crates/client-app/src/stream.rs:77-86 | the search loop finds the slots of two chunks, or that none covers them |
| RangePlan.SliceRange | crates/client-app/src/stream.rs:139-146 | exactly the requested window of the assembled bytes, or nothing exactly if it does not fit |
| BlobKeys.ValidatedKey | crates/client-app/src/blob_cache.rs:392-404 | accepts exactly 1 to 64 hex digits, and changes only the case of upper-case ones |
| BlobKeys.CanonicalIsFixed | crates/client-app/src/blob_cache.rs:392-404 | all spellings of an id share one entry |
| BlobKeys.FilenameInjective | crates/client-app/src/blob_cache.rs:406-411 | two valid keys never share a file |
| BlobKeys.FilenameExample | crates/client-app/src/blob_cache.rs:406-411 | namespace, id and number of three examples, as spelled in the file name |
| BlobKeys.DecimalInjective | crates/client-app/src/blob_cache.rs:409-411 | different numbers print differently |
| Lru.ShrunkIsShortest | crates/client-app/src/blob_cache.rs:199-199 | capacity eviction drops the shortest prefix of the recency list that makes room, and always makes room |
| Lru.FittingStays | crates/client-app/src/blob_cache.rs:292-295 | nothing is dropped from a list that has the room |
| Lru.LookupFinds | crates/client-app/src/blob_cache.rs:227-251 | looking a key up finds the bytes of the item under it, and nothing exactly if there is none |
| Lru.HeadIsOldest | crates/client-app/src/blob_cache.rs:349-362 | the entry with the least stamp is the head of the list |
| Lru.TotalMinus | crates/client-app/src/blob_cache.rs:365-377 | removing a key frees exactly its bytes |
| Lru.StampsAscend | crates/client-app/src/blob_cache.rs:213-220 | stamps and keys are pairwise distinct and stamps rise along the list |
| BlobCache.BlobCache.Open | crates/client-app/src/blob_cache.rs:137-177 | starts empty with the given budget |
| BlobCache.BlobCache.Put | crates/client-app/src/blob_cache.rs:185-222 | the old entry of the key is gone; a blob that fits the budget becomes the newest entry, after the oldest others have gone until there was room and no further; a larger one is skipped; a failed write is a fault and leaves the entry out; an invalid key changes nothing |
| BlobCache.BlobCache.Get | crates/client-app/src/blob_cache.rs:227-251 | a hit returns the stored bytes and becomes the newest entry, the others staying in order; a miss changes nothing; a tracked file that cannot be read is a fault and drops its own entry only; RAM has no faults |
| BlobCache.BlobCache.Contains | crates/client-app/src/blob_cache.rs:298-303 | true exactly if the entry is held |
| BlobCache.BlobCache.Evict | crates/client-app/src/blob_cache.rs:312-316 | the items without that one, in their order, with budget and clock as they were |
| BlobCache.BlobCache.EvictPrefix | crates/client-app/src/blob_cache.rs:324-335 | the table without the entries of that file in that namespace, with budget and clock as they were |
| BlobCache.BlobCache.ClearAndZeroize | crates/client-app/src/blob_cache.rs:340-346 | no item is left |
| BlobCache.BlobCache.SetCap | crates/client-app/src/blob_cache.rs:292-295 | the new budget, the clock as it was, and the items from the first place on from which they fit; a budget they all fit changes nothing |
| BlobCache.BlobCache.EvictUntilFits | crates/client-app/src/blob_cache.rs:199-199 | the loop never stops with the budget still exceeded and removes exactly that prefix |
| BlobCache.BlobCache.EvictOne | crates/client-app/src/blob_cache.rs:349-362 | removes the head, and reports nothing to evict exactly if empty |
| BlobCache.BlobCache.RemoveEntry | crates/client-app/src/blob_cache.rs:365-377 | untracks one key, keeps the total equal to the sum of sizes |
| BlobCache.BlobCache.LoseFiles | crates/client-app/src/blob_cache.rs:232-241 | files lost behind the cache's back change nothing that is tracked |
| BlobCache.BacksWrite | crates/client-app/src/blob_cache.rs:201-212 | writing one entry's file changes no other entry |
| CacheRuns.StepInOrder | crates/client-app/src/blob_cache.rs:185-377 | no call breaks the recency order |
| CacheRuns.CacheIsHonest | crates/client-app/src/blob_cache.rs:179-251 | after any run an entry is absent or holds the bytes of the latest put with no removal since |
| CacheRuns.UncappedCacheIsExact | crates/client-app/src/blob_cache.rs:185-251 | without a budget nothing is forgotten |
| CacheRuns.PutHolds | crates/client-app/src/blob_cache.rs:185-222 | a written put holds its blob, or nothing exactly if it is over the budget; other entries are as they were or, under a budget, evicted |
| CacheRuns.GetKeeps | crates/client-app/src/blob_cache.rs:227-251 | a readable get changes no entry but for its stamp |
| CacheRuns.StampIsLastTouch | crates/client-app/src/blob_cache.rs:213-249 | a stamp is the clock of the last put or hit |
| CacheRuns.ListIsByLastUse | crates/client-app/src/blob_cache.rs:349-362 | what eviction takes first was put or hit longest ago |
| Recency.PassExact | crates/client-app/src/blob_cache.rs:185-251 | reading what was found and storing what was not, in order, under a budget: it gets through exactly if every store that still matters leaves room for what is waiting and what was used |
| Recency.LookThenPass | crates/client-app/src/blob_cache.rs:185-251 | the same after everything was looked up first, from any cache |
| Recency.RoomIsSum | crates/client-app/src/blob_cache.rs:195-199 | where whatever is held was found, that is one sum: everything up to the last found entry fits the budget |
| Recency.ShrunkKeeps | crates/client-app/src/blob_cache.rs:199-199 | eviction never reaches a recent tail that leaves room |
| Playback.CachedChunks | crates/client-app/src/video.rs:195-203 | a blob that does not deframe to the right number of chunks is a miss |
| Playback.FetchChunks | crates/client-app/src/video.rs:204-216 | fetches every chunk by its absolute index, in order; an honest source yields the uploaded ones, a map of chunks exactly what it holds |
| Playback.FeedFragment | crates/client-app/src/video.rs:172-229 | from any cache and source a success is that fragment of the content; from a clean entry and an honest source it succeeds; without a fault, from chunks at hand, the exact result and cache, also where the chunks do not open |
| Playback.CleanAfterStore | crates/client-app/src/video.rs:208-216 | storing the genuine frame leaves the entry clean even where its count is truncated |
| Playback.FeedSpan | crates/client-app/src/stream.rs:117-132 | the plaintext of the span in order; without a fault, from chunks at hand and over any cache, exactly when it is fed and what the cache is left with |
| Playback.SliceExists | crates/client-app/src/stream.rs:133-146 | the slice exists exactly if the last slot's number was not truncated |
| Playback.AssembleRange | crates/client-app/src/stream.rs:104-134 | sound for any cache and any source; complete over clean entries and an honest source exactly up to 2^32 slots, and then keeps all entries clean; without a fault, from chunks at hand, exactly when it succeeds |
| Serving.CachedFragmentValid | crates/client-app/src/commands/video.rs:147-158 | the prefetch uses the feeder's own hit condition |
| Serving.PlanFetches | crates/client-app/src/commands/video.rs:784-800 | without a fault over any cache, and over a cold span whatever the disk does, the fetch list is exactly the chunks of the fragments not offered, in order; those that are offered become the most recently used |
| Serving.Prefetch | crates/client-app/src/commands/video.rs:812-847 | every listed chunk, as the source says when asked in turn, or nothing if one fails |
| Serving.Refetch | crates/client-app/src/commands/video.rs:871-895 | every suspect chunk is fetched anew, or the request fails |
| Serving.FirstAttempt | crates/client-app/src/commands/video.rs:778-868 | phases A to C: from a cold span an honest prefetch is enough, whatever the disk does; without a fault, over any cache, the exact chunks fetched, result and cache left |
| Serving.EvictSpan | crates/client-app/src/commands/video.rs:905-907 | the entries of the planned slots are gone, and every other entry is as it was |
| Serving.RetrySpan | crates/client-app/src/commands/video.rs:896-918 | after the eviction, from any cache, a retry with uploaded chunks succeeds exactly if they cover the span and the last number fits; without a fault the exact result and cache for any chunks |
| Serving.RepairedIsUploaded | crates/client-app/src/commands/video.rs:871-895 | replacing the direct chunks by proxied ones leaves only uploaded chunks |
| Serving.ServePlan | crates/client-app/src/commands/video.rs:778-920 | any success is the content; a cold span succeeds if only direct links lie, whatever the disk does; without a fault, on either backend, over any cache and any source with a steady proxy, result and cache left are exactly those of the request as a function |
| Serving.ServeRange | crates/client-app/src/commands/video.rs:770-929 | unsatisfiable exactly if no wanted byte exists, and then nothing changes; any body is the requested content; a playable file yields one exactly if a wanted byte exists when it is cold; without a fault, on either backend, over any cache and any source with a steady proxy, exactly as the request as a function says, with the cache it leaves |
| ServingModel.ServeExact | crates/client-app/src/commands/video.rs:770-929 | over any cache: served exactly if everything listed was fetched, and either every slot opens and the budget has room, or nothing was offered, a direct link was used and everything opens once its chunks are replaced |
| ServingModel.FirstExact | crates/client-app/src/commands/video.rs:849-868 | phases A to C get through exactly if every slot opens, from the cache or from what was fetched, and the budget has room |
| ServingModel.RetryExact | crates/client-app/src/commands/video.rs:896-918 | the retry gets through exactly if nothing of the span was offered and the chunks at hand open |
| ServingModel.ListedIs | crates/client-app/src/commands/video.rs:784-800 | a chunk is listed exactly if it belongs to a planned slot that is not offered |
| ServingModel.TodoAscends | crates/client-app/src/commands/video.rs:784-800 | the list is strictly ascending, so no chunk is fetched twice |
| ServingModel.FeedIsPass | crates/client-app/src/video.rs:195-229 | feeding a span gets through exactly if every slot opens and the pass over the recency list gets through |
| ServingLaws.HonestExact | crates/client-app/src/commands/video.rs:778-868 | honest sources, over any cache: served exactly if every slot offered opens and the budget has room |
| ServingLaws.PoisonRefuses | crates/client-app/src/commands/video.rs:869-918 | an entry that is offered and does not open refuses every request for its slot, whatever the sources say |
| ServingLaws.PoisonStays | crates/client-app/src/commands/video.rs:784-868 | a request for slots that are all offered changes no entry, and succeeds exactly if they open |
| ServingLaws.TidyRoom | crates/client-app/src/blob_cache.rs:195-199 | over genuine entries the budget has room exactly if the frames up to the last held slot fit it, those over the budget left out |
| ServingLaws.LinksExact | crates/client-app/src/commands/video.rs:754-757 | over genuine entries, with links that may say anything and an honest proxy: served exactly if no slot was held, or every direct chunk opens and the budget has room for what came |
| ServingLaws.ServedExactly | crates/client-app/src/commands/video.rs:754-929 | the same with the budget condition as one sum over genuine frames, where no direct link is used or the key sealed each index once |
| ServingRuns.RequestKeepsTidy | crates/client-app/src/commands/video.rs:770-929 | with links that may say anything and an honest proxy, every entry of the file is genuine afterwards and the cache within its budget, whether or not the request is served |
| ServingRuns.RunKeepsTidy | crates/client-app/src/commands/video.rs:765-769 | so is it after any run of such requests, each with its own links, with any other calls on the shared cache between them |
| ServingRuns.EveryRequest | crates/client-app/src/commands/video.rs:765-929 | any request of any such run is served exactly if nothing of it is held, or the direct chunks it needs open and the budget has room, in the cache it meets |
| ServingRuns.RefusedForever | crates/client-app/src/commands/video.rs:869-918 | where every slot is offered and one does not open, the request is refused however often it is made and whatever the sources then say |
| ServingScope.RequestSpares | crates/client-app/src/commands/video.rs:770-929 | whatever the sources say and whether or not it is served, a request leaves every entry but those of its own slots as it was or, under a budget, evicted |
| ServingScope.ServedIsCached | crates/client-app/src/video.rs:172-229 | after a served request over genuine entries all its slots are offered exactly if there is no budget or their genuine frames fit it together |
| ServingScope.ServedAgain | crates/client-app/src/video.rs:155-171 | and then the same request lists nothing to fetch and is served again, whatever the sources say by then |
| ServingScope.FeedTail | crates/client-app/src/video.rs:195-229 | feeding uploaded chunks leaves the slots in order at the recent end of the list, if the budget has room for them all |
| ServingCases.CrampedHappens | crates/client-app/src/commands/video.rs:778-868 | an example refused for lack of room, with honest sources and either fragment to be had alone |
| ServingCases.LinkDenies | crates/client-app/src/commands/video.rs:896-918 | an example of a lying link that denies playback because the other fragment was a hit, and does not where nothing is held |
| ServingCases.PoisonedForGood | crates/client-app/src/video.rs:208-222 | an example of one bad chunk after which every later request for its fragment is refused |
| EndToEnd.TrustedTotalLen | crates/client-app/src/commands/video.rs:299-306 | a claimed length is trusted exactly if it ends within the last chunk |
| EndToEnd.TrustedIsNear | crates/client-app/src/commands/video.rs:288-306 | a trusted false length is off by less than one chunk (at most one, if the last chunk is empty) |
| EndToEnd.ProbeTotalLen | crates/client-app/src/commands/video.rs:204-286 | what it returns is the length of the content; one retry through the proxy repairs a lying direct link |
| EndToEnd.PublishAndServe | crates/client-app/src/commands/video.rs:770-929 | from author to viewer, over a fresh cache of either kind: the answer is exactly the requested window of the file or the refusal of an empty one |
| EndToEnd.PublishAndServeAll | crates/client-app/src/commands/video.rs:770-929 | from author to viewer, any sequence of requests over one cache, each over its own direct links: every body is exactly its window; without a fault each request that names a byte is refused exactly where the cache it meets does not admit it, stated of the index, key and chunks published, and every entry stays genuine |
| Subtree.ReachableFrom | crates/admin-core/src/subtree.rs:61-82 | terminates on every edge list and returns exactly the nodes reached by a walk of one or more grants that avoids the set |
| Subtree.ArcIsGrant | crates/admin-core/src/subtree.rs:22-26 | an arc of the graph is a recorded grant of this very file |
| Subtree.LeastClosed | crates/admin-core/src/subtree.rs:61-82 | the reached set lies in every closed set |
| Subtree.ReachedIsClosed | crates/admin-core/src/subtree.rs:61-82 | the reached set is closed itself |
| Subtree.RevocationSubtree | crates/admin-core/src/subtree.rs:36-55 | `r` plus the nodes reached from it that no walk of the owner without `r` reaches; a function of the file's set of grants alone |
| Subtree.RevokedIsDominated | crates/admin-core/src/subtree.rs:27-35 | for nodes the owner reaches, being revoked means every walk of the owner passes through `r` |
| Subtree.OwnerMayBeRevoked | crates/admin-core/src/subtree.rs:36-55 | a grant back to the owner puts it in the set |
| Subtree.CutIsFinal | crates/admin-core/src/subtree.rs:27-55 | unless the owner is in it, cutting the set leaves the owner exactly what it reached without `r`, and a second call returns only `r` |
| Subtree.WithheldGrantsOnlyAdd | crates/admin-core/src/subtree.rs:4-16 | further grants by users who depend on `r` never take anyone out of the set |
| Subtree.OwnerGrantMayRescue | crates/admin-core/src/subtree.rs:27-35 | a further grant by the owner does |
| Control.HeadCommits | crates/admin-core/src/control.rs:264-282 | two chains from one start with one head are equal, or the hash is broken on their own records |
| Control.ControlChain.Resume | crates/admin-core/src/control.rs:183-189 | starts counting anew from the given head |
| Control.ControlChain.constructor | crates/admin-core/src/control.rs:176-178 | starts from the genesis head |
| Control.ControlChain.Revoke | crates/admin-core/src/control.rs:199-221 | refused, changing nothing, exactly if account-wide without a co-signer; otherwise appends the next record of the chain, which names the co-signer and carries its signature exactly if there is one |
| Control.ControlChain.Reinstate | crates/admin-core/src/control.rs:224-242 | appends the next reinstatement of its scope, signed by both |
| Control.ControlChain.ReportCompromise | crates/admin-core/src/control.rs:245-261 | appends the record, signed by both, touching no epoch |
| Control.ControlChain.Finish | crates/admin-core/src/control.rs:264-282 | advances the head to the hash of the encoding and signs with each key |
| Control.IssuedIsChained | crates/admin-core/src/control.rs:264-282 | everything one object issues is chained from its start to its head |
| Control.ResumedIsChained | crates/admin-core/src/control.rs:180-189 | what one object after another issues, each resumed at the head of the last, is one chain |
| Control.EpochsCount | crates/admin-core/src/control.rs:287-295 | per kind and scope the epochs are 1, 2, 3 and so on |
| Control.EpochsIdentify | crates/admin-core/src/control.rs:287-295 | within one object scope and epoch identify a revocation |
| Control.VerifyChain | crates/client-core/src/revocation.rs:158-180 | accepts exactly contiguous chains from genesis to the anchor; a contiguous chain that ends elsewhere is a gap; otherwise the first record that does not decode or names another head decides the error |
| Control.OnlyTheIssuedChainIsAccepted | crates/client-core/src/revocation.rs:154-180 | under the head of a chain, however many objects issued it, nothing dropped, added, altered or withheld is accepted, unless the hash is broken |
| Control.TheIssuedChainIsAccepted | crates/client-core/src/revocation.rs:158-180 | a chain continued by a resumed object is accepted under its head |
| Control.NewRevocationHolds | crates/client-core/src/revocation.rs:357-369 | a new revocation is superseded exactly if a reinstatement already in the log names the epoch it is given; an account is then revoked only if it was before |
| Control.OnlyTheEarlierForestall | crates/client-core/src/revocation.rs:357-369 | where reinstatements name only epochs issued before, only those from before the resume matter |
| Control.ReinstatedInAdvance | crates/admin-core/src/control.rs:224-242 | an example within one object, of a reinstatement that undoes a revocation still to come |
| Control.ReinstatementNamesOne | crates/client-core/src/revocation.rs:360-369 | within one object a reinstatement undoes at most one revocation |
| Control.ResumedRevocationIsLost | crates/admin-core/src/control.rs:180-189 | an example where the restarted epoch undoes a re-revocation |
| Control.VerifyAuthenticated | crates/client-core/src/revocation.rs:192-212 | accepts exactly the contiguous chains from genesis to the anchor in which every record is backed by the records before it: issuer known, signature valid, admin role held and not taken away, and unless it revokes in one file only the same of another administrator who co-signed; otherwise the first record that will not do decides the error |
| Control.AuthorityExact | crates/client-core/src/revocation.rs:293-327 | the check passes a record exactly if it is backed, and otherwise says why: signer unknown, signature bad, or role missing, of the issuer first and then of the co-signer; or the co-signature missing or by the issuer itself |
| Control.SignerExact | crates/client-core/src/revocation.rs:299-309 | one signer vouches exactly if known, with a valid signature, and an administrator by the records before |
| Control.AdminIsUnstripped | crates/client-core/src/revocation.rs:329-369 | a user is an administrator exactly if its ceiling says so and every revocation of that role has a reinstatement that names scope, user and epoch |
| Control.LostAuthorityNeedsOthers | crates/client-core/src/revocation.rs:182-191 | an administrator stripped of the role signs nothing that counts and takes no part in the first reinstatement, which takes two others |
| Directory.Verdict | crates/client-core/src/directory.rs:189-236 | ok exactly if signed, in agreement with the pin and in its window, and then with every field of the binding; which failure is reported when several apply |
| Directory.DirectoryVerifier.VerifyBinding | crates/client-core/src/directory.rs:189-236 | on success the user is pinned to the version and fingerprint of the binding, on failure nothing changes |
| Directory.DirectoryVerifier.VerifyBindingWithKt | crates/client-core/src/directory.rs:252-280 | refused as not in the log exactly if the gate says so and the user is unknown; otherwise the verdict of the binding alone |
| Directory.DirectoryVerifier.AuthorizeRecipient | crates/client-core/src/directory.rs:287-308 | ok exactly if signed, in agreement with the pin, in its window and without a tombstone; revoked exactly if the first three hold and there is one; pinned whenever the first three hold; the roles are the effective ones |
| Directory.DirectoryVerifier.AcceptKeyChange | crates/client-core/src/directory.rs:314-332 | ok exactly if signed and in its window, whatever the pin, which is then overwritten; otherwise nothing changes |
| Directory.PinsAreStable | crates/client-core/src/directory.rs:189-332 | over any run, only an accepted key change moves a pin |
| Directory.SameKeysBetweenAccepts | crates/client-core/src/directory.rs:189-332 | between accepts all successful answers about a user carry one key version and one key pair, or two fingerprints collide |
| Directory.RefusalsChangeNothingElse | crates/client-core/src/directory.rs:189-308 | a refused call changes the store exactly if it is a first contact refused for its tombstone |
| Directory.FirstContactIsLogged | crates/client-core/src/directory.rs:252-280 | over any run in which every call about a user passes a gate, a user who comes to be pinned was pinned by a call whose binding was logged, signed and in its window, and to that binding still |
| Directory.AcceptedVerifies | crates/client-core/src/directory.rs:310-332 | after an accepted change the same binding verifies and changes nothing more |
| Directory.VersionsFallOnlyByAccept | crates/client-core/src/directory.rs:203-224 | a remembered version falls exactly by accepting a signed older binding |
| Delegation.CertRoundTrip | crates/crypto/src/delegation.rs:69-161 | wire form and parsed form of a certificate determine each other |
| Delegation.ParsedFields | crates/crypto/src/delegation.rs:69-161 | which bytes each parsed field is |
| Delegation.VerifyDelegation | crates/crypto/src/delegation.rs:171-183 | ok with bytes 1 to 32 exactly if 113 bytes with the version first, the last 64 a signature over the 49 before, and now within the two little-endian times; which error otherwise |
| Delegation.SignedCertVerifies | crates/crypto/src/delegation.rs:171-183 | a certificate verifies exactly if signed and in its window |
| Delegation.BuildFromBytes | crates/client-app/src/directory.rs:283-301 | succeeds exactly if the served key equals the pin and the certificate is good, with the key the certificate names |
| Delegation.Recent | crates/client-app/src/directory.rs:236-242 | a cached document serves its own host only, for less than a minute |
| Delegation.BuildDelegatedVerifier | crates/client-app/src/directory.rs:324-369 | asks exactly if nothing young is cached for the host; what each answer comes to: no connection fails as network, a good document gives the key it names, 404 the pinned key, anything else is untrusted; so the key is authorized for this moment, or is the pinned key because this call was answered 404 |
| Delegation.HitDecidesAfresh | crates/client-app/src/directory.rs:334-339 | a cache hit decides as if the stored document had just been served |
| Delegation.CachedWasFetched | crates/client-app/src/directory.rs:341-350 | over any run, what is cached was fetched from that host and found good |
| HexText.Unhex32 | crates/client-app/src/tofu.rs:248-257 | the 32 bytes that the text reads as, pair by pair, if there are any |
| HexText.ParsedReads | crates/client-app/src/tofu.rs:248-257 | parsing finds bytes exactly if the text reads as them, digit by digit of `0123456789abcdef` in either case |
| HexText.HexReads | crates/client-app/src/tofu.rs:242-245 | printed bytes read as those bytes |
| HexText.HexRoundTrips | crates/client-app/src/tofu.rs:242-257 | fingerprints survive the trip through text; text prints back exactly if lower-case |
| HexText.PlusIsRead | crates/client-app/src/tofu.rs:248-257 | a plus sign in place of a leading zero is read as the same fingerprint |
| HexText.ParsedPrintsBack | crates/client-app/src/tofu.rs:248-257 | other spellings collapse |
| Tofu.DecryptMap | crates/client-app/src/tofu.rs:218-236 | succeeds exactly if there are 12 bytes, the rest opens under them and every text reads as a fingerprint, and then with exactly these names and fingerprints |
| Tofu.DecryptedHolds | crates/client-app/src/tofu.rs:218-236 | the same of the function that the store is specified by |
| Tofu.SealedDecrypts | crates/client-app/src/tofu.rs:172-236 | what was persisted decrypts to the same pins |
| Tofu.TofuStore.Persist | crates/client-app/src/tofu.rs:172-194 | done: the live file holds the new pins; failed: it is untouched; crashed: one or the other |
| Tofu.TofuStore.CheckOrPin | crates/client-app/src/tofu.rs:118-139 | pins, matches or reports a change; RAM equals the decoded live file after every completed call |
| Tofu.TofuStore.Repin | crates/client-app/src/tofu.rs:145-157 | replaces one pin in RAM and file, or neither |
| Tofu.Open | crates/client-app/src/tofu.rs:94-108 | without a file there are no pins; with one, exactly the pins it holds; it fails exactly on a file that cannot be read or holds none |
| Tofu.Session | crates/client-app/src/tofu.rs:94-157 | any sequence of checks, repins and reopenings, with failures and power losses anywhere, is a run |
| Tofu.PinsChangeOnlyByRepin | crates/client-app/src/tofu.rs:110-157 | over any run with failures and crashes a pin is never lost and changes only by a repin of that user |
| ThumbCache.KeysCollideExactly | crates/client-app/src/thumb_cache.rs:78-83 | two cards share an entry exactly if file and low 32 version bits agree, so never below 2^32; the key is of the card namespace and its id reads as the file |
| ThumbCache.CardStepHolds | crates/client-app/src/thumb_cache.rs:90-149 | each call replaces, keeps or loses a card |
| ThumbCache.HeldIsLatest | crates/client-app/src/thumb_cache.rs:85-149 | a held card is the latest put, with the latest thumbnail put since the entry was last absent |
| ThumbCache.ThumbCache.constructor | crates/client-app/src/thumb_cache.rs:60-76 | starts empty, with the given budget in RAM and none on disk |
| ThumbCache.ThumbCache.PutCard | crates/client-app/src/thumb_cache.rs:90-108 | without a fault, as always in RAM, the card rests sealed under its key with its own thumbnail or else the one held before, or is too large for the budget; other cards are only evicted; the put is logged |
| ThumbCache.CleanPutLeaves | crates/client-app/src/thumb_cache.rs:90-108 | the same of the function of the run laws |
| ThumbCache.ThumbCache.Enrich | crates/client-app/src/thumb_cache.rs:93-103 | a card without a thumbnail takes over that of the held one, if that opens |
| ThumbCache.ThumbCache.GetMeta | crates/client-app/src/thumb_cache.rs:130-135 | returns that card, and without a fault exactly if the entry is present, changing no card |
| ThumbCache.ThumbCache.Invalidate | crates/client-app/src/thumb_cache.rs:138-141 | the entry is gone, and only it |
| ThumbCache.ThumbCache.InvalidateFile | crates/client-app/src/thumb_cache.rs:144-149 | every version of the file is gone, and nothing else |
| ThumbCache.ThumbCache.ClearAndZeroize | crates/client-app/src/thumb_cache.rs:206-208 | no card stays |
| ThumbCache.ThumbCache.SetCapMb | crates/client-app/src/thumb_cache.rs:157-162 | a disk cache stays as it is; a RAM cache drops its oldest cards until the rest fit |
| ThumbCache.ThumbCache.ApplyLocationAndCap | crates/client-app/src/thumb_cache.rs:183-202 | a change of backend starts empty, with the requested budget in RAM and none on disk, or changes nothing; without one the budget is changed |
| UploadPipeline.PutChunkRetried | crates/client-app/src/upload.rs:578-606 | at most four tries; success means the chunk is in its slot; no other slot changes |
| UploadPipeline.RunPipeline | crates/client-app/src/upload.rs:611-649 | the exact order of requests under any failures; finalize comes only after every chunk was granted; a finalized version holds exactly the bundle, whatever the client was told, and if its streams are of distinct types every chunk of every stream at its type and index and nothing else; progress counts 1, 2, 3 of the total |
| UploadPipeline.StoredIsWhole | crates/client-app/src/upload.rs:627-632 | with streams of distinct types every chunk is held at its own type and index, and nothing else is |
| UploadPipeline.SentInOrder | crates/client-app/src/upload.rs:627-632 | chunks go out stream by stream, and within a stream by index |
| UploadPipeline.TotalAdds | crates/client-app/src/upload.rs:571-573 | the total is the sum of what the streams declare |
| UploadPipeline.StoredHolds | crates/client-app/src/upload.rs:627-632 | every chunk ends in its own slot exactly if no two compete for one |
| UploadPipeline.StoredSlots | crates/client-app/src/upload.rs:627-632 | no other slot is filled |
| UploadPipeline.ProgressReachesTotal | crates/client-app/src/upload.rs:571-573 | progress ends at the announced total if the streams declare what they have |
| KeyBlob.BuildHeader | crates/client-core/src/keyblob.rs:44-59 | fills the 45-byte buffer: mark, version, three big-endian words, salt, nonce |
| KeyBlob.HeaderPrintsBack | crates/client-core/src/keyblob.rs:44-59 | the header of a well-marked blob prints back from its parsed fields |
| KeyBlob.HeaderParsesBack | crates/client-core/src/keyblob.rs:103-132 | every header parses to the fields it was built from |
| KeyBlob.Seal | crates/client-core/src/keyblob.rs:64-98 | succeeds exactly from 19 MiB, two passes and one lane on, where the library accepts them, and yields the identity sealed byte for byte in its own version |
| KeyBlob.SealedIs | crates/client-core/src/keyblob.rs:64-98 | the blob field by field is header and ciphertext joined |
| KeyBlob.Unlock | crates/client-core/src/keyblob.rs:103-159 | returns an identity exactly if the blob is a sealing of it under that password; each error exactly where it applies: mark or length wrong, version unknown, cost too low, or the ciphertext does not open |
| KeyBlob.UnlockInvertsSeal | crates/client-core/src/keyblob.rs:64-159 | both directions, for both versions |
| KeyBlob.Reseal | crates/client-core/src/keyblob.rs:164-172 | succeeds exactly if the old password opens and the parameters are acceptable, and seals the same identity; which error otherwise |
| KeyBlob.ChainKeepsIdentity | crates/client-core/src/keyblob.rs:161-172 | after any chain of password changes the newest password opens the first identity, in the same version and length |

## Left out

- Framing.FrameChunks: the capacity reserved up front is not modelled, only the bytes written.
- Playback.FeedFragment: the sink is modelled as the returned plaintext; zeroization of buffers is not modelled.
- Serving.ServePlan: the phases run one after the other; another request that uses the shared cache in between could make this one miss or fail, but not be wrong, since soundness is proved for any cache state.
- Serving.ServePlan: once a cached file could not be read or written during the request, success is promised for a cold span only.
- Serving.ServePlan: the exact results are for a proxy that says the same of a chunk whenever it is asked, since the order of the refetch is left open; soundness needs no such thing.
- Serving.ServePlan: which chunks take the direct link is given as a set fixed in advance, not decided per request.
- BlobCache.BlobCache.Get: another process rewriting a cache file is not modelled; a file may only be lost or left behind by a failed write.
- BlobCache.BlobCache.Put: byte totals and the use counter are unbounded, where the source has `u64`.
- Control.VerifyChain: the byte encoding of records is a parameter with exactly one encoding per record.
- Control.ControlChain.Revoke: epochs are unbounded, where the source aborts past 2^64.
- Directory.DirectoryVerifier.VerifyBindingWithKt: the log gate is an outcome given from outside; its checkpoint store is not modelled.
- Delegation.BuildDelegatedVerifier: the JSON and base64 of the served document are not modelled.
- HexText.Unhex32: text is one byte a character; on other text the source stops at a slice inside a character.
- Tofu.TofuStore.Persist: renaming a synced file is atomic and durable; a file system that loses a completed rename is not modelled.
- ThumbCache.ThumbCache.PutCard: serialising a card never fails.
- UploadPipeline.RunPipeline: a request whose answer was lost is not applied later than the next request; the sum of declared chunk counts is unbounded.
- KeyBlob.Unlock: unlocking reads slices of the blob as values instead of copying them into buffers.
- Network, TLS, Tor, HTTP parsing, ffmpeg, image codecs, the user interface and settings are outside the model.
- `get_card`, `gauge_fill`, the author cache of client-app/src/directory.rs and the DTOs would only add easy members.
- Scheduling: every call on a cache, store or server is one step.
