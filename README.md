# yoktez-mcp core, modelled in Dafny

yoktez-mcp is an MCP server for searching YÖK Tez Merkezi, the Turkish national
thesis archive. It fetches thesis detail pages and converts single PDF pages to
Markdown. This project models the parts of it that keep state or post-process
text, and proves what they promise:

- **The byte cache** (`cache.py`):
  - `LRUMemoryCache`: an ordered map bounded by an item cap and a byte budget. Entries are evicted least recently used first.
  - `DiskCache`: an index from key to `{url, size, cached_at, path}` kept beside the files it names. Entries have a time to live, and the cache evicts the oldest first when over its size budget.
  - `MultiTierCache`: memory in front of disk, read-through with promotion and write-through.
- **The browser pool** (`browser.py`): `BrowserContextPool` as a state machine, and `BrowserManager` delegating to it. The state is lazy initialisation, a FIFO queue of idle contexts and a counter capped by `max_contexts`.
- **Client post-processing** (`client.py`):
  - the paging and error-message assembly at the end of `search_theses`;
  - the splitting of a thesis detail page's "künye" (record) and "durum" (status) cells into fields;
  - normalisation of a search result's subject list and composition of its display title;
  - the range check on a requested PDF page.
- **Request bounds** (`models.py`): the bound checks on requests become preconditions. These are page ≥ 1, 1 ≤ limit ≤ 20 and page_number ≥ 1.

Modelling choices:

- Python dictionaries and `OrderedDict` are sequences of items with distinct keys, oldest insertion first (module `OrderedMaps`).
- Strings are `seq<char>`. Python's `strip`, `split`, `join`, `startswith`, `replace(.., "", 1)` and `str(int)` are written out in `Text`.
- Time is a reading in seconds passed to each operation.
- The files on disk are a map from path to bytes.
- The SHA-256 key derivation is a function fixed when the cache is built.
- The browser driver's answers (does Playwright start, does Chromium launch, is the browser connected, which context `new_context` hands out) are parameters of each step.

Where the source keeps state in an object, the model is a class.
`LRUMemoryCache`, `DiskCache`, `MultiTierCache`, `BrowserContextPool` and
`BrowserManager` are classes whose methods are proved to leave exactly the
state that a function of the old state gives. The properties are then proved
about those functions. The code that only computes a value is written as
functions. Where that code loops (the title scan and field loop of the künye
cell, the eviction loops), the model is a method with a loop, proved against a
function.

## Model

| member | source | states |
|---|---|---|
| MemoryTier.AfterSet | cache.py:53-71 | Defines `set`: the old entry of the key deleted, the eviction loop run for the new value's size, the new entry appended last |
| DiskTier.CachePath | cache.py:134-138 | Defines `_get_cache_path`: `<dir>/<first two characters of the key>/<key>.pdf` |
| DiskTier.Fetch | cache.py:165-200 | Defines `get`: a missing file misses and changes nothing; an expired entry misses and is deleted; otherwise the file's bytes are returned |
| DiskTier.Written | cache.py:217-226 | Defines the write of `set`: the file at the entry's path holds the data, and the index maps the key to the new metadata |
| DiskTier.Removed | cache.py:235-250 | Defines `delete`: the file at the key's path and the key's index entry are gone |
| DiskTier.EvictKeys | cache.py:268-280 | Defines the eviction loop over sorted keys: stop once within budget; a key with an entry loses it, its file and its size |
| DiskTier.SizeLimited | cache.py:252-285 | Defines `_enforce_size_limit`: nothing when within budget, otherwise the eviction loop over the keys oldest first |
| BrowserPool.Acquired | browser.py:89-128 | Defines `acquire_page` up to the `yield`: make sure of the browser, then reuse the queue head, or create under the cap, or wait |
| BrowserPool.Released | browser.py:130-151 | Defines the `finally` block: re-queue the context, or drop it and decrement the count floored at 0 |
| BrowserPool.WarmLoop | browser.py:163-172 | Defines the `warmup` loop: under the cap, create under the lock and queue; the first failure ends it; re-taking the lock hangs |
| BrowserPool.WarmupAsWritten | browser.py:153-174 | Defines `warmup` as written: the loop run min(count, max_contexts) times on the pool as it is |
| BrowserPool.Warmed | browser.py:153-174 | Defines the corrected `warmup`: when an attempt is due, make sure of the browser before the loop takes the lock |
| BrowserPool.Closed | browser.py:176-208 | Defines `close`: the queue drained, a connected browser closed, the driver stopped, the flag and count reset |
| ErrorMessage.AppendError | client.py:404 | Defines `(error_msg + "; " if error_msg else "") + fragment` |
| SearchPagination.Message | client.py:400-412 | Defines the message before the final strip: "No theses found", then the first of the past-batch, extraction-failed and beyond-data fragments that applies |
| SearchPagination.Paginate | client.py:396-421 | Defines the paging tail of `search_theses`: totals, the page slice and the stripped message |
| ThesisDetail.KunyeOf | client.py:155-174 | Defines the künye fields: titles from the lines before the first labelled one, each labelled field from its last line |
| ThesisDetail.DurumOf | client.py:177-182 | Defines the durum fields: the cell's first five lines by position |
| WatableFields.NormalizeSubjects | client.py:289-292 | Defines the subject normalisation: none for empty text, else the cleaned `;`-pieces joined with "; " |
| WatableFields.DisplayTitle | client.py:296-298 | Defines the display title: the original or "Title Not Parsed", plus " / " and a non-empty translation |
| PdfPage.CheckPage | client.py:470-473 | Defines the page check: the zero-based index for 1 ≤ page ≤ total, else the out-of-range message appended to the earlier one |
| OrderedMaps.IndexOf | cache.py:48 | The position found holds the key and no earlier item does; -1 exactly when the key is absent |
| OrderedMaps.Lookup | cache.py:48-50 | A value is found exactly when the key is in the dictionary, and that item is stored |
| OrderedMaps.Delete | cache.py:58-60 | `del d[k]` keeps exactly the items with other keys |
| OrderedMaps.DeleteKeySet | cache.py:58-60 | Deleting removes exactly the key from the key set |
| OrderedMaps.DeleteAbsent | cache.py:246-247 | Deleting an absent key changes nothing |
| OrderedMaps.DeleteKeepsDistinct | cache.py:60 | Deleting from a dictionary leaves a dictionary |
| OrderedMaps.DeleteIdempotent | cache.py:246-247 | Deleting twice is deleting once |
| OrderedMaps.DeleteRemovesEntry | cache.py:60 | Deleting a stored key takes exactly its one item out of the multiset of items |
| OrderedMaps.Without | cache.py:280 | Deleting a set of keys keeps exactly the other items and keeps keys distinct |
| OrderedMaps.WithoutKeepsOrder | cache.py:280 | What is left after deleting a set of keys is a subsequence of the dictionary: the survivors keep their order |
| OrderedMaps.WithoutAfterDelete | cache.py:280 | Deleting one key, then a set, is deleting the union |
| OrderedMaps.Put | cache.py:221-226 | `d[k] = v` adds k to the key set, k then looks up v, every other key looks up what it did, keys stay distinct |
| OrderedMaps.PutAtKeepsOthers | cache.py:221-226 | Overwriting a stored key in place keeps the key set and distinct keys, makes the key look up the new value and leaves every other key's value |
| OrderedMaps.AppendKeepsOthers | cache.py:221-226 | Appending a new key adds it to the key set, looks it up, and leaves every other key's value |
| OrderedMaps.PutEntries | cache.py:221-226 | After `d[k] = v` every item is the new one or one that was there |
| OrderedMaps.DistinctLookup | cache.py:50 | In a dictionary, the item carrying a key is the one lookup returns |
| MemoryTier.Evict | cache.py:63-68 | The eviction loop leaves a suffix of the entries (oldest popped first), and it is empty or within both budgets |
| MemoryTier.EvictOnlyWhatIsNeeded | cache.py:63-68 | Every suffix longer than the one left was over budget, so the loop evicts no more than needed |
| MemoryTier.TotalSizeAppend | cache.py:70-71 | Appending an entry adds its length to the total |
| MemoryTier.TotalSizeDelete | cache.py:58-60 | Deleting a key subtracts exactly its value's length |
| MemoryTier.MoveToEndOnlyReorders | cache.py:48-50 | A hit changes the order only: same multiset of entries, same keys, same total, same value |
| MemoryTier.SetKeepsBounds | cache.py:53-71 | After `set` the key maps to the value and is the most recent entry, at most max(max_items, 1) entries remain, and the total is within the byte budget unless the new value is alone |
| MemoryTier.LRUMemoryCache.constructor | cache.py:33-44 | Starts empty with a zero counter and the budget in bytes |
| MemoryTier.LRUMemoryCache.Get | cache.py:46-51 | Returns the stored value; a hit moves the key to the most recent end, a miss changes nothing; entries and counter stay consistent |
| MemoryTier.LRUMemoryCache.Set | cache.py:53-71 | The new entries are `AfterSet` of the old, with the bounds of `SetKeepsBounds`, and the counter stays the entries' total |
| MemoryTier.LRUMemoryCache.EvictFor | cache.py:62-68 | The while loop leaves `Evict` of the entries and keeps the counter equal to their total |
| MemoryTier.LRUMemoryCache.Has | cache.py:73-75 | True exactly when the key is stored |
| MemoryTier.LRUMemoryCache.Clear | cache.py:77-80 | Empties the cache and zeroes the counter |
| DiskTier.CachePathInjective | cache.py:134-138 | Distinct keys get distinct file paths under one directory |
| DiskTier.InsertByAge | cache.py:263-266 | Inserting adds exactly the one entry to the multiset |
| DiskTier.InsertKeepsOrder | cache.py:263-266 | Inserting by age keeps an oldest-first sequence oldest first |
| DiskTier.OldestFirst | cache.py:263-266 | The sorted order is ordered by `cached_at` and is a permutation of the index |
| DiskTier.OldestFirstSameEntries | cache.py:263-266 | The sorted order of a dictionary holds the same entries with distinct keys |
| DiskTier.EvictInOrder | cache.py:268-280 | The `for` loop over sorted keys leaves the index and files that `EvictKeys` gives |
| DiskTier.EvictKeysFindsEntries | cache.py:269-280 | Over the keys of index entries, every key is found with its own metadata, so the loop over keys equals the loop over entries |
| DiskTier.EvictedCountBounds | cache.py:269-271 | The loop stops at the first prefix after which the total is within budget; every shorter prefix left it over |
| DiskTier.EvictIndexRemovesPrefix | cache.py:269-280 | The loop deletes from the index exactly the keys of the first `EvictedCount` entries |
| DiskTier.EvictFilesRemovesPrefix | cache.py:276-278 | The loop removes exactly the files of those entries |
| DiskTier.EvictIndexSize | cache.py:257-279 | The running total stays the indexed size of what is left |
| DiskTier.IndexedSizeDelete | cache.py:257-280 | Deleting a key takes exactly its size off the indexed total |
| DiskTier.SizeLimitedByEntries | cache.py:252-285 | Over budget, `_enforce_size_limit` is the entry-by-entry loop on the index and the files |
| DiskTier.SizeLimitedEvictsPrefix | cache.py:252-285 | The limit evicts a prefix of the oldest-first order: the index loses exactly that prefix's keys and the disk exactly its files |
| DiskTier.SizeLimitedKeepsOrder | cache.py:269-280 | The entries that survive are a subsequence of the index: their insertion order is kept |
| DiskTier.SizeLimitedWithinBudget | cache.py:257-283 | Afterwards the indexed total is within budget, or the index is empty |
| DiskTier.SizeLimitedEvictsNoMore | cache.py:269-271 | Each shorter prefix would have left the total over budget |
| DiskTier.SizeLimitedEvictsOldest | cache.py:262-271 | Every evicted entry is at least as old as every kept one |
| DiskTier.SizeLimitedKeepsSurvivorFiles | cache.py:269-280 | Entries that survive keep their files and contents |
| DiskTier.WrittenHoldsEntry | cache.py:217-226 | `set` leaves a dictionary holding the new entry, and its file holds the data |
| DiskTier.SetThenFetch | cache.py:165-231 | A URL just stored reads back until its time to live runs out, unless the size limit evicted it |
| DiskTier.RemovedIdempotent | cache.py:235-250 | Deleting twice is deleting once |
| DiskTier.DiskCache.constructor | cache.py:99-128 | A disabled cache has no index; an enabled one takes the given or default directory, the budgets in bytes and seconds, and the persisted index or none |
| DiskTier.DiskCache.Get | cache.py:165-200 | Disabled: None, nothing changes. Enabled: the result and new state are `Fetch` (a missing file misses, an expired entry misses and is deleted) |
| DiskTier.DiskCache.Set | cache.py:202-233 | Disabled: nothing changes. Enabled: the new state is the file and entry written, then the size limit enforced |
| DiskTier.DiskCache.Delete | cache.py:235-250 | Removes the URL's file and its index entry when present |
| DiskTier.DiskCache.EnforceSizeLimit | cache.py:252-285 | The new state is `SizeLimited` of the old |
| DiskTier.DiskCache.Clear | cache.py:287-303 | Removes every indexed file and forgets the index |
| TieredCache.MultiTierCache.constructor | cache.py:327-358 | The disk tier exists exactly when enabled and the file library is present, with the given budgets |
| TieredCache.MultiTierCache.Get | cache.py:360-385 | An L1 hit returns and leaves L2 alone; an L1 miss returns L2's answer, and an L2 hit is stored in L1 |
| TieredCache.MultiTierCache.Set | cache.py:387-400 | Write-through: L1 gets `AfterSet`, L2 gets its write plus the size limit, and L1 then holds the value |
| TieredCache.MultiTierCache.Has | cache.py:402-404 | True exactly when L1 holds the key |
| TieredCache.MultiTierCache.Clear | cache.py:406-410 | Empties L1 and clears L2 |
| BrowserPool.Ensured | browser.py:60-76 | Deadlocks exactly when uninitialised with the lock held; ready exactly when a connected browser is there; once initialised nothing changes |
| BrowserPool.AcquireNeverDeadlocks | browser.py:105-117 | Acquiring never waits on its own lock, because the browser is made sure of first |
| BrowserPool.AcquireReusesBeforeCreating | browser.py:109-124 | The queue head is reused first; the count grows by one only when the queue is empty and under the cap; a failure changes nothing |
| BrowserPool.StepsStayBounded | browser.py:109-207 | Acquire, release and close keep the count between 0 and the cap |
| BrowserPool.WarmLoopKeeps | browser.py:163-172 | The warmup loop keeps the count bounded, only appends to the queue and counts what it queues |
| BrowserPool.WarmLoopFills | browser.py:160-169 | With every creation succeeding, the loop creates min(remaining attempts, room under the cap) contexts |
| BrowserPool.WarmLoopStopsAtFailure | browser.py:166-172 | A failed creation ends the loop: nothing is created from that attempt on |
| BrowserPool.WarmLoopIdleAtCap | browser.py:165 | At the cap the loop does nothing |
| BrowserPool.WarmupAsWrittenDeadlocks | browser.py:62-169 | `warmup` as written waits forever exactly when the pool was never initialised and an attempt is due (count and room under the cap both positive) |
| BrowserPool.WarmLoopNoDeadlock | browser.py:62-167 | On an initialised pool no attempt waits on the lock |
| BrowserPool.WarmedIsSafe | browser.py:153-174 | The corrected warmup never deadlocks, gives the same pool as the code as written wherever that one does not hang, and keeps bounds and accounting |
| BrowserPool.WarmedFillsFreshPool | browser.py:160-169 | On a fresh pool with a cooperating driver, warmup queues min(count, max_contexts) contexts |
| BrowserPool.LeasesAreAccounted | browser.py:109-151 | Acquiring and releasing keep idle plus leased contexts equal to the count |
| BrowserPool.CloseResets | browser.py:176-208 | Close empties the queue and zeroes the count; accounting survives exactly when nothing is leased; closing twice is closing once |
| BrowserPool.ReleaseAfterCloseOvercounts | browser.py:138-207 | A lease released after close is queued while the count is 0 |
| BrowserPool.BrowserContextPool.constructor | browser.py:32-58 | Starts uninitialised and empty, with the default user agent when none is given |
| BrowserPool.BrowserContextPool.EnsureBrowser | browser.py:60-76 | The new state and readiness are `Ensured` without the lock |
| BrowserPool.BrowserContextPool.AcquirePage | browser.py:89-128 | The new state and outcome are `Acquired`; the lease count follows; accounting is kept |
| BrowserPool.BrowserContextPool.ReleasePage | browser.py:130-151 | The new state is `Released`, one lease fewer, accounting kept |
| BrowserPool.BrowserContextPool.Warmup | browser.py:153-174 | The new state is `Warmed` of the old (the corrected warmup), accounting kept |
| BrowserPool.BrowserContextPool.Close | browser.py:176-208 | The new state is `Closed` of the old |
| BrowserPool.BrowserManager.constructor | browser.py:229-247 | A fresh pool of `pool_size` contexts with the default lifetime |
| BrowserPool.BrowserManager.GetPage | browser.py:249-253 | The pool's state and outcome are `Acquired`; a lease adds one to the lease count; accounting is kept |
| BrowserPool.BrowserManager.ReleasePage | browser.py:252-253 | The pool's state is `Released`, one lease fewer, accounting kept |
| BrowserPool.BrowserManager.Warmup | browser.py:255-257 | The pool's state is `Warmed` of the old, leases unchanged, accounting kept |
| BrowserPool.BrowserManager.Close | browser.py:259-261 | The pool's state is `Closed` of the old, leases unchanged |
| Text.StripSetEnds | client.py:155 | A stripped string has no stripped character at either end |
| Text.StripSetIdempotent | client.py:155 | Stripping twice is stripping once |
| Text.StripSetKeepsOut | client.py:155 | Stripping adds no character |
| Text.StripSetKeepsTail | client.py:421 | Stripping keeps a trailing piece whose own ends are not stripped |
| Text.NonBlank | client.py:155 | Cleaning lines gives no more lines, none of them empty |
| Text.NonBlankStripped | client.py:155 | Every cleaned line is already stripped |
| Text.NonBlankIdempotent | client.py:155 | Cleaning twice is cleaning once |
| Text.NonBlankKeepsOut | client.py:155 | A character no line holds is held by no cleaned line |
| Text.Split | client.py:155-165 | A split is never empty and no piece holds the separator |
| Text.SplitThenJoin | client.py:165 | Joining the pieces with the separator gives the string back |
| Text.SplitFirst | client.py:165-167 | The first piece is the text before the first separator; there are more pieces exactly when it occurs, and they split the rest |
| Text.RemoveFirst | client.py:170-174 | On a string that starts with the label, removes exactly the label |
| Text.NatToStringRoundTrip | client.py:404 | Reading the printed digits back gives the number |
| Text.NatToStringInjective | client.py:404 | Different numbers print differently |
| ErrorMessage.FinalError | client.py:421 | A message is returned exactly when a non-empty one was assembled |
| ErrorMessage.FinalErrorIsStripped | client.py:421 | The returned message has no ';' or ' ' at its ends and stripping it again changes nothing |
| ErrorMessage.AppendAllJoins | client.py:404-412 | Appending non-empty fragments from no message joins them with "; " |
| ErrorMessage.FinalErrorEndsWith | client.py:404-421 | The last fragment appended survives the final strip whole |
| SearchPagination.CeilDivBounds | client.py:416 | The page count is the least number of pages of `limit` items holding all items |
| SearchPagination.PageSlice | client.py:408-410 | The slice has Python's clamped length and holds the items from (page-1)*limit on, in order |
| SearchPagination.PaginateTotals | client.py:396-420 | The total falls back to the parsed count, the page count is its ceiling over the limit (0 for none), and the page is echoed |
| SearchPagination.PaginateSlices | client.py:402-410 | The theses returned are the requested slice, at most `limit`, and none past the batch |
| SearchPagination.PaginatePastBatch | client.py:403-404 | Past the batch nothing is returned and the message is the out-of-range fragment appended to the earlier one |
| SearchPagination.PaginateOutOfRange | client.py:403-421 | Past the batch the returned message ends with "Page p exceeds pages (n) in current batch." |
| SearchPagination.PaginateReportsErrors | client.py:400-421 | No message exactly when none came earlier, there are results, the page is within the batch, theses were parsed and the page is not past their end |
| ThesisDetail.CellPartsClean | client.py:155-177 | Every line of a cell is non-empty, stripped and holds no line break |
| ThesisDetail.LabelOfStartsWith | client.py:160-174 | A line gets a label exactly when it starts with one, and then it starts with that one |
| ThesisDetail.LabelsExclusive | client.py:170-174 | No line starts with two labels, so the order of the `elif` tests decides nothing |
| ThesisDetail.ValueAfterLabel | client.py:170-174 | A field's value is the rest of its line after the label, stripped |
| ThesisDetail.TitleLength | client.py:159-162 | The title run is the unlabelled lines before the first labelled one |
| ThesisDetail.LastLabelled | client.py:168-174 | Finds the last line carrying a label, after which none does, or none at all |
| ThesisDetail.LastWithLabelStep | client.py:168-174 | One more line sets its own label's field and leaves the others |
| ThesisDetail.ScanIsLastLabel | client.py:168-174 | The field loop fills each field with the value of the last line carrying its label and leaves the titles alone |
| ThesisDetail.CollectTitle | client.py:157-167 | The while loop stops at the first labelled line, and the titles are derived from the lines before it |
| ThesisDetail.FillLabels | client.py:168-174 | The `for` loop leaves what `Scan` gives |
| ThesisDetail.ParseKunye | client.py:155-174 | The künye fields are `KunyeOf` of the cell's lines |
| ThesisDetail.KunyeTitleLines | client.py:158-164 | The title is the joined run of lines before the first labelled one, present exactly when that run is non-empty |
| ThesisDetail.KunyeTitleSplit | client.py:165-167 | The Turkish title is the text before the first '/'; the English title exists exactly when there is a '/', and is the rest cut at '/', stripped and joined with " / " |
| ThesisDetail.KunyeLastLabelWins | client.py:168-174 | Each labelled field holds the last line carrying its label, and is absent exactly when no line carries it |
| ThesisDetail.TitleHidesNoLabel | client.py:159-174 | Searching only after the title run finds the last labelled line of the whole cell |
| ThesisDetail.LastLabelledSkipsUnlabelled | client.py:159-162 | Unlabelled leading lines change nothing in the search |
| ThesisDetail.DurumPositional | client.py:177-182 | The durum fields are the cell's first lines, in order, up to five; the rest stay absent |
| WatableFields.NormalizeSubjectsPieces | client.py:291-292 | No subject exactly for empty raw text; otherwise the "; " join of pieces that are non-empty, stripped and free of ';' |
| WatableFields.CleanPiecesRoundTrip | client.py:292 | Splitting the join of clean pieces and cleaning again gives the pieces back |
| WatableFields.NormalizeSubjectsIdempotent | client.py:292 | Normalising a normalised, non-empty subject changes nothing |
| WatableFields.NormalizeSubjectsBlank | client.py:292 | Where idempotence stops: raw text of separators and blanks normalises to the empty subject, which normalises to none |
| WatableFields.LoneSeparatorSubject | client.py:292 | The raw text ";" normalises to the empty subject, and the empty text to no subject |
| WatableFields.DisplayTitleParts | client.py:296-298 | Opens with the original title, or "Title Not Parsed" when it is empty or "N/A"; a non-empty translation closes it after " / "; without one the title is the opening alone |
| WatableFields.DisplayTitleInjective | client.py:296-298 | Different translations of one original give different display titles |
| WatableFields.UntranslatedTitleInjective | client.py:296-298 | Without a translation, different parsed originals give different display titles |
| PdfPage.CheckPageAccepts | client.py:470-473 | A page is extracted exactly when 1 ≤ page ≤ total pages, and its zero-based index is a valid page index |
| PdfPage.CheckPageRejects | client.py:470-471 | Past the end there is no page, the earlier message stays in front, and the returned message ends with "Page p out of range (1-n)." |

## Left out

- JSON persistence of the disk index (cache.py:140-163) is not modelled. The loaded index is a constructor parameter, and saving changes nothing in the model.
- File I/O through `aiofiles`, `mkdir` and `os.remove` is not modelled. Files are a map; creating directories has no effect here.
- DiskTier.DiskCache.Get: a failing read that the source turns into `None` (cache.py:198-200) is not modelled, because reads always succeed on the map.
- DiskTier.DiskCache.Set: a failing write, after which the source logs and keeps the old state (cache.py:232-233), is not modelled.
- DiskTier.DiskCache.EnforceSizeLimit: a failing `os.remove`, after which the source keeps the entry and its size (cache.py:282-283), is not modelled.
- `cached_at` is an integer clock reading, not an ISO string. Sorting and the time-to-live comparison become integer comparisons. The "1970-01-01" default for a missing `cached_at` is not modelled, because every modelled entry has a time.
- Metadata defaults for a missing `size` or `path` are not modelled, because modelled entries always carry all four fields.
- The stability of Python's `sorted` on equal `cached_at` is not stated. `OldestFirst` is proved ordered and a permutation only.
- The SHA-256 key derivation is an uninterpreted function parameter of `DiskCache`.
- The `stats` properties (cache.py:82-90, 305-318, 412-419; browser.py:210-219, 263-266) are not modelled: they are reporting only.
- The asyncio lock and concurrency are not modelled. Steps run one at a time. The lock appears only as the deadlock outcome of re-taking it, and the blocking wait at browser.py:121-124 is the `Blocked` outcome.
- Playwright, browser launch and `new_context` are parameters (`Driver`, `created`). Errors from closing a page or context are not modelled. The outcome of `put` on the queue is the `requeued` parameter.
- `context_ttl_seconds` is kept but never consulted, as in the source.
- BrowserPool.BrowserContextPool.Warmup: models the corrected warmup (`Warmed`). The as-written one is `WarmupAsWritten`; see Findings. The corrected one makes sure of the browser only when an attempt is due, so a warmup of count ≤ 0, or at the cap, leaves an uninitialised pool uninitialised, as the source does.
- Default arguments are not modelled: every parameter is passed explicitly. The defaults are `LRUMemoryCache(50, 100)` (cache.py:33), `DiskCache(None, 500, 30)` (cache.py:99-103), `MultiTierCache(50, 100, None, 500, 30, True)` (cache.py:327-335), `warmup(count=1)` (browser.py:153) and `BrowserManager(True, 3, None)` (browser.py:229-234).
- A failing `context.new_page()` (browser.py:127) is not a separate outcome. In the source the `finally` block then re-queues the context; in the model that is `AcquirePage` returning `Leased` followed by `ReleasePage`.
- HTTP fetching, BeautifulSoup DOM traversal, the regular expressions of `_parse_watable_js_data`, `html.unescape`, `ftfy`, `unicode_escape`, pypdf and MarkItDown are not modelled. Cells are given as their text with a newline per line break. The raw subject text is given after unescaping. The original and translated titles are given as scraped.
- `math.ceil(a / b)` works on floats in the source. The model uses the exact integer ceiling, which agrees for counts below 2^53.
- The warning logged at client.py:413-414 has no effect on the result and is not modelled.
- `ParseKunye` tests each line with `LabelOf`, a first-match chain over the five labels in the source's order. `LabelOfStartsWith` shows this is the `any(startswith)` test of line 160. `LabelsExclusive` shows the `elif` order of lines 170-174 decides nothing.
- The `if kunye_parts:` guard (client.py:157) changes nothing: `KunyeOf([])` leaves every field absent either way.
- `str.isspace` is the fixed character set `Text.Whitespace`. No Unicode normalisation is modelled.
- Models.py's other fields and the MCP server wiring in yoktez_mcp_server.py are not part of this model.

## Findings

| source | as written | input that shows it | evidently intended | confidence | as-written member | corrected member |
|---|---|---|---|---|---|---|
| browser.py:163-169 | `warmup` takes `_lock` and then calls `_create_context`, which calls `_ensure_browser`. On an uninitialised pool that tries to take `_lock` again, and an `asyncio.Lock` is not reentrant. | `warmup(1)` on a freshly built pool with max_contexts ≥ 1 | Make sure of the browser before taking the lock, as `acquire_page` does (browser.py:105-107) | not executed; follows from asyncio.Lock not being reentrant | BrowserPool.WarmupAsWritten, BrowserPool.WarmupAsWrittenDeadlocks | BrowserPool.Warmed, BrowserPool.WarmedIsSafe |

Two notes on the disk eviction model. `DiskTier.EvictKeys` is the eviction
loop as written, over sorted keys. `DiskTier.EvictIndex` and
`DiskTier.EvictFiles` read the same loop entry by entry. `EvictKeysFindsEntries`
proves the two agree whenever every key is found, which is always the case
inside `_enforce_size_limit`.

A context released after `close` is queued again while the count has been reset
to 0 (`ReleaseAfterCloseOvercounts`). It is recorded here; the model keeps the
source's behaviour.
