# SaguaroDB core, verified

A Dafny model of the parts of SaguaroDB whose correctness rests on long arguments, with those
arguments as proofs. `dafny verify dfyconfig.toml` checks all of it.

- **Buffer pool** (`Redo`, `Frames`, `Page`, `Allocator`, `Pool`, `PoolPages`, `PoolKept`, `PoolRuns`,
  `PoolTheorems`, `PoolTornRun`, `PoolLoads`, `PoolStaleRun`, `PoolState`, `PoolLocked`). A step machine over
  the log, the page homes (a synced image and the images written since), the frames, the guards handed out,
  the writers, the steals in flight, the checkpoint batch, the checkpoint fence and the page-number allocator.
  Every section that the code runs under one lock is one step, and the steps of any number of threads
  interleave. A page's bytes are the log records applied to it, so redo is a fold. The proof looks at the
  machine one page at a time: every step of the pool is a step of every page (`PoolPages.Projects`), and
  every page step keeps the page invariant (`Page.StepKeeps`). `PoolState` is the mutex-held structure
  itself, with the clock sweep and the allocator loops; `PoolLocked` shows that what those loops do are
  runs of the machine. In `Pool` a miss is one step; `PoolLoads` takes it apart into a lookup, a load that
  holds no lock and an insert, with anything between, and says when the two machines agree.
- **Array text** (`SqlArrays`, `ArrayText`, `ArrayParser`, `ArrayTextParser`, `ArrayAccepted`,
  `ArrayRoundTrip`, `ArrayGrammar`). The constructor and subscripts, the printer, and the recursive parser as
  an object with an offset and counters, each method proved against a function of the text and the offset.
  `ArrayGrammar` says without the parser which texts there are and what they mean.
- **Calendar, dates, intervals** (`Calendar`, `DateText`, `IntervalText`, `IntervalGrammar`, `Text`). Here too
  the grammars of the texts are apart from the parsers.
- **Catalog** (`Snapshots`, `ChangeSets`, `ChangeSetTheorems`, `CatalogOverlay`, `OverlayRuns`,
  `OverlayTheorems`, `ColumnRuns` for change sets and transaction overlays; `DropClosure`, `CatalogGraph`,
  `CatalogReferences`, `CatalogDrop` for the dependency graph and dropping tables).

`Options` and `Sequences` hold what they share.

## Findings

- **A torn page is not always rebuilt.** The checkpoint records one redo floor, the least `rec_lsn` of
  all dirty pages, and recovery replays every page from it
  (`crates/server/src/checkpoint.rs:319-323`, `crates/server/src/recovery.rs:254-256`). From a page's own
  `rec_lsn` redo always rebuilds it (`PoolTheorems.TornIsRebuilt`). From the floor a checkpoint took, in any
  later state of any run, it does if and only if the first record of the page in range is a full image or an
  init (`PoolTheorems.TornFromCheckpoint`); a delta of an earlier, already flushed life of the page comes
  first when another page holds the floor down, and then redo of the zeroed page fails.
  `PoolTornRun.TornFromFloorCanFail` is such a run. The comment at `crates/buffer/src/pool.rs:1415-1417`
  promises the repair without that condition.
- **A late insert brings back old bytes.** `read_page` and `write_page` load a page with no lock held
  (`crates/buffer/src/pool.rs:608-670`) and then insert what they loaded, again and again if need be
  (`crates/buffer/src/pool.rs:302-316`, `433-467`). If meanwhile another thread brings the page in, publishes a
  change and the page leaves the pool again, the old bytes become its clean frame. Over every trace, every
  insert gives its page the latest bytes if and only if no insert is of an image that lacks a record of the log
  (`PoolLoads.LatestIffUnraced`). For an image loaded while its page was not resident, that is if and only if
  no record of the page was logged between load and insert (`PoolLoads.RacedIffLogged`); and it is so whenever
  none was logged between lookup and insert (`PoolLoads.QuietIsUnraced`). A trace without such an insert is a
  run of the pool, so everything proved of runs holds of it (`PoolLoads.UnracedIsRun`).
  `PoolStaleRun.LateInsertLosesUpdate` is a trace with one: a reader does not see a logged change, and then a
  writer logs the old bytes as the page's full image, so the change is gone from what redo rebuilds. The
  comment at `crates/buffer/src/pool.rs:1173-1175` says that the retry loads again, which it does not.
- **An overlay conflicts with column claims.** Equality of table objects includes `next_column_object_id`
  (`crates/common/src/schema.rs:470-498`), and a claim advances that counter in the live catalog
  (`crates/catalog/src/memory.rs:218`). A claim therefore makes a journal unreadable if and only if the
  journal holds a change of a live relation whose counter the claim advances
  (`OverlayTheorems.ReadableIff`). Three consequences:
  - `CatalogOverlay::apply` claims after it has taken its change. From then on the transaction conflicts
    with itself if and only if the statement allocated a column of a relation of the live catalog, or
    touched a relation whose counter only reservations hold up; otherwise it reads exactly what the
    statement left, unless validation refuses that. This is over any journal and any
    live catalog (`OverlayTheorems.ClaimedJournalIff`); over an empty journal the condition is that a column
    of an existing relation was allocated (`ChangeSetTheorems.ClaimedBaseIff`).
  - A statement of the server claims first (`crates/executor/src/query.rs:2008-2030`), and its catalog is
    then diffed against the live one (`crates/server/src/query/exec.rs:702`), so the first column a
    transaction adds to a live table is read back. The second one conflicts
    (`OverlayTheorems.SecondColumnConflicts`).
  - A rollback to a savepoint keeps column reservations that no change of the journal carries
    (`crates/catalog/src/catalog_overlay.rs:111-127`). A transaction that creates a table, adds a column,
    rolls that back and then alters the table conflicts with itself, though no live relation is involved
    (`OverlayTheorems.RolledBackColumnConflicts`).
- **A column id can be given twice.** A claim compares every allocator but the column counters, and those it
  compares only if the statement drew from one (`crates/catalog/src/memory.rs:207-210`). Over every run, the
  column ids of a relation are distinct if and only if no statement that added a column claims after another
  has moved the counter it read, having drawn nothing else or with no other allocator moved
  (`ColumnRuns.DistinctIffUnraced`). `ColumnRuns.SameIdTwice` is a run of two transactions with one id, through
  `CatalogOverlay::apply`. The server's `ADD COLUMN` is not hit: it draws storage ids in the same claim
  (`crates/executor/src/query.rs:2451-2479`), and if whoever adds a column draws another id with it, no column id
  is given twice (`ColumnRuns.DistinctIfDrawing`).
- **`parse_date` overflows.** Its year is any `i64`, and `days_from_civil` is free of overflow exactly from
  -25252734927764585-06-07 to 25252734927766554-09-25 (`Calendar.DaysFromCivilFitsIff`). Outside those days
  the unchecked arithmetic at `crates/common/src/datetime.rs:20-30` overflows: on `30000000000000000-01-01`
  (`DateText.ParseCanOverflow`) and on January 1 of every year past 25252734927766554
  (`DateText.LateYearOverflows`).
- **One sum of `parse_interval_time` overflows** (`crates/common/src/interval.rs:292`), if and only if the
  hours are 2562047788015215 and minutes and seconds make more than 1807 seconds
  (`IntervalText.SumOverflowsIff`); `2562047788015215:59:59` is such a text. A build with overflow checks
  stops there. In one without, the wrapped sum is refused by the next checked product
  (`IntervalText.WrappedSumIsRefused`).
- **Dates of negative years do not parse back** (`DateText.DateRoundTrip`), and neither do intervals of the
  least microsecond count (`IntervalText.IntervalRoundTrip`).
- `civil_from_days` overflows on the last 719468 day counts of `i64` (`Calendar.CivilFromDaysFitsIff`).

## Assumptions

- `Pool` takes a miss as one step, and what is proved of its runs is about those. The code loads outside the
  lock; `PoolLoads.UnracedIsRun` says when that makes no difference.
- A load sees the last image written to the page's home.
- `new_page` takes its latch in the step that inserts the frame. The code latches after it has released the
  pool lock; nobody else knows the number yet.
- There is one checkpointer.
- A writer appends and publishes while it holds its guard and its share of the fence, puts `needs_fpi`
  back if the append failed, and logs a full image or an init first on a page that needs one.
- Nobody reads a page number that is abandoned, and the allocator of a file is seeded from an extent that
  covers its homes.
- A crash keeps the synced home of a page, or any image written since, or tears the page; a torn page
  fails its checksum and redo starts from zeroes (`crates/server/src/recovery.rs:596-600`).
- A frame's identity (the `Arc` that a batch holds) is a number that is never used again. A flush policy is
  any predicate of it and of the frame's log position; `dirty_txn_id` does not change while the pool is
  locked and the frame unpinned, so it is a function of the identity.
- Text is a sequence of characters: bytes from 0x80 on never equal a character the parsers look at.
- Validation of a catalog snapshot beyond the parts modelled is any predicate that implies those parts and
  that raising allocators does not make false.
- A table does not become a view under its number, nor a view a table.
- `ColumnRuns` follows one live relation that is not dropped; its counter moves only by columns added.

## Model

| member | source | states |
|---|---|---|
| Redo.ReplayGated | crates/storage/src/redo.rs:15-22 | records a page already holds change nothing when replayed |
| Redo.ReplayReaches | crates/storage/src/redo.rs:15-69 | from any version of a page, replaying a range that covers what it lacks gives the page as of the end of the range |
| Redo.ReplayTorn | crates/server/src/recovery.rs:594-606 | from a zeroed page, replay gives the page if and only if the first record in range is a base, and fails if and only if it is a delta |
| Redo.RebuildsAnyBytes | crates/storage/src/redo.rs:15-69 | over a formatted page with a given stamp, replay gives the page as of the end whatever changes the bytes hold, if and only if some full image or init in range ends past that stamp |
| Page.StepKeeps | crates/buffer/src/pool.rs:894-1011 | every step keeps a page's invariant: missing records start at its redo boundary, the boundary is a base record, captures and steals hold versions no older than the home |
| Page.FinishKeeps | crates/buffer/src/pool.rs:977-1009 | finishing a flush, of a frame that was redirtied meanwhile or not, keeps the page's invariant |
| Page.FinishDefined | crates/buffer/src/pool.rs:977-1009 | a captured frame that finishes is never in the internal-error case |
| PoolTheorems.FinishLeaves | crates/buffer/src/pool.rs:977-1009 | a finished page is clean, and counted as flushed, if and only if its synced home holds every published record of it; otherwise it is counted as redirtied and its rec_lsn is the start of the first record the home lacks |
| Page.PublishKeeps | crates/buffer/src/pool.rs:1386-1406 | publishing a record keeps the page's invariant, during a flush included |
| Page.CaptureKeeps | crates/buffer/src/pool.rs:925-956 | capturing an image for the checkpoint keeps the page's invariant |
| Page.StealFinishKeeps | crates/buffer/src/pool.rs:364-391 | a stolen frame is removed only when its home holds all of it |
| Page.WriteInOrder | crates/buffer/src/pool.rs:364-391 | an image written home is a version no older than what is there, and its records were forced |
| Allocator.TrimKeeps | crates/buffer/src/pool.rs:1130-1151 | trimming ends, changes no number in use, and leaves the top number in use |
| Allocator.AbandonKeeps | crates/buffer/src/pool.rs:1122-1128 | abandoning takes exactly one number out of use and keeps the allocator in order |
| Allocator.AllocateKeeps | crates/buffer/src/pool.rs:1084-1120 | the number picked was not in use, and exactly it comes into use |
| Allocator.AtLeastKeeps | crates/buffer/src/pool.rs:1099-1104 | raising the counter keeps the allocator in order and every number in use |
| Allocator.SeedKeeps | crates/buffer/src/pool.rs:412-431 | seeding a file's extent keeps the allocator in order and every number in use |
| PoolPages.Projects | crates/buffer/src/pool.rs:286-1011 | every step of the pool is, for every page, a step of that page |
| PoolPages.PagesKept | crates/buffer/src/pool.rs:286-1011 | every step of the pool keeps the invariant of every page |
| PoolPages.PickedHasNoHome | crates/buffer/src/pool.rs:672-700 | a number the allocator picks has no home |
| PoolKept.ReservedAccounted | crates/buffer/src/pool.rs:898-923 | the frames a batch reserves and those it skips at once are all its candidates, repeats included |
| PoolKept.FinishCapturedKeeps | crates/buffer/src/pool.rs:977-1010 | finishing one captured frame keeps pins, flags, tickets and statistics in agreement |
| PoolKept.SkipTicketKeeps | crates/buffer/src/pool.rs:925-939 | skipping a busy, clean or replaced frame keeps them in agreement |
| PoolKept.StealReserveKeeps | crates/buffer/src/pool.rs:1251-1281 | reserving a victim keeps pins and flags in agreement |
| PoolKept.StealAbortKeeps | crates/buffer/src/pool.rs:364-391 | a steal whose force, write or sync failed keeps them in agreement |
| PoolKept.NewPageKeeps | crates/buffer/src/pool.rs:672-700 | allocating a page keeps guards, pins, numbers and capacity in agreement |
| PoolKept.AbandonKeeps | crates/buffer/src/pool.rs:741-770 | giving an unpublished page back keeps them in agreement |
| PoolRuns.StepKeeps | crates/buffer/src/pool.rs:286-1011 | every step keeps the whole invariant |
| PoolRuns.ReachableInv | crates/buffer/src/pool.rs:261-274 | the invariant holds in every state of every run from a freshly opened pool |
| PoolTheorems.MissingIsCovered | crates/buffer/src/pool.rs:1386-1418 | a record that some home a crash may leave lacks starts at or after its page's rec_lsn, and the page is resident and dirty |
| PoolTheorems.CleanIsHome | crates/buffer/src/pool.rs:1408-1418 | a clean or non-resident page is whole in every home a crash may leave |
| PoolTheorems.CurrentIsLogged | crates/buffer/src/pool.rs:124-151 | with no record in flight a page holds exactly what the log says |
| PoolTheorems.FloorCovers | crates/buffer/src/pool.rs:868-892 | under the exclusive fence, every record before a floor at most every rec_lsn is in its page's synced home |
| PoolTheorems.CheckpointFloorSound | crates/server/src/checkpoint.rs:286-323 | the floor taken under the fence stays sound for the rest of the run: after a crash in any later state, replay from it over any intact home gives what the kept log says |
| PoolTheorems.CheckpointFloorRestores | crates/server/src/checkpoint.rs:286-323 | with the whole log kept that is the page as it was |
| PoolTheorems.BoundaryIsBase | crates/buffer/src/pool.rs:128-140 | the first record of a dirty page at or after its rec_lsn is a full image or an init, durable before a write of the page can tear |
| PoolTheorems.TornIsRebuilt | crates/buffer/src/pool.rs:1408-1418 | from its own rec_lsn redo rebuilds a torn page |
| PoolTheorems.TornFromFloor | crates/server/src/recovery.rs:237-256 | in one state, from a log position at most every rec_lsn, redo rebuilds a torn page if and only if its first record in range is a base, and fails otherwise |
| Page.StepStaysAbove | crates/buffer/src/pool.rs:977-1009 | a log position at or below all a page may need redo from, its rec_lsn, its first redirty and its record in flight, stays so under every step |
| PoolTheorems.FloorStays | crates/server/src/checkpoint.rs:286-323 | a floor taken under the exclusive fence is at most every rec_lsn in every later state of the run |
| PoolTheorems.TornFromCheckpoint | crates/server/src/recovery.rs:237-256 | crash in any state after a checkpoint took its floor and tear any page being written: redo from that floor rebuilds it if and only if its first kept record from the floor on is a base, and fails otherwise |
| PoolTornRun.TornFromFloorCanFail | crates/server/src/recovery.rs:237-256 | a run of the pool after which redo of a torn page from the checkpoint's floor fails |
| PoolTheorems.StepRefines | crates/buffer/src/pool.rs:286-1011 | with a miss as one step, pool and store refine one map from page to bytes: a publish applies its record to its page, and no other step changes any page |
| PoolTheorems.ReaderSeesLatest | crates/buffer/src/pool.rs:608-627 | with a miss as one step, every read guard sees all records of its page, whatever evictions, steals and flushes came between |
| PoolLoads.InsertedLatestIff | crates/buffer/src/pool.rs:1164-1191 | bytes loaded earlier are the latest of their page if and only if the log holds no record of it that they lack |
| PoolLoads.InsertIsMiss | crates/buffer/src/pool.rs:433-467 | inserting such bytes is the miss of the pool |
| PoolLoads.JoinIsPin | crates/buffer/src/pool.rs:1171-1181 | finding the page brought in by somebody else is the pin of the pool |
| PoolLoads.UnracedIsRun | crates/buffer/src/pool.rs:608-670 | a trace of lookups, loads and inserts in which no inserted image lacks a record is, state by state, a run of the pool |
| PoolLoads.UnracedReaderSeesLatest | crates/buffer/src/pool.rs:608-627 | in such a trace every read guard sees all records of its page |
| PoolLoads.LatestIffUnraced | crates/buffer/src/pool.rs:608-670 | over every trace, every insert gives its page the latest bytes if and only if no inserted image lacks a record |
| PoolLoads.InserterSeesLatestIff | crates/buffer/src/pool.rs:608-627 | a thread that inserts what it loaded and then reads sees all records of the page if and only if its image lacked none |
| PoolLoads.RacedIffLogged | crates/buffer/src/pool.rs:617-619 | an image loaded while its page was not resident lacks a record when inserted if and only if one was logged in between |
| PoolLoads.QuietIsUnraced | crates/buffer/src/pool.rs:608-670 | whatever happens between lookup and load, an access during which no record of its page is logged inserts nothing old |
| PoolStaleRun.LateInsertLosesUpdate | crates/buffer/src/pool.rs:608-670 | a trace in which a reader of inserted bytes misses a logged change and a writer then logs them over it |
| PoolTheorems.StealExcludesCheckpoint | crates/buffer/src/pool.rs:1251-1281 | a page being stolen is in no checkpoint capture, has no guard and is pinned once |
| PoolTheorems.WritesAreForcedAndOrdered | crates/buffer/src/pool.rs:957-976 | each image written home is a version of the page, not older than the last, and holds only forced records |
| PoolTheorems.DirtyAgrees | crates/buffer/src/pool.rs:874-889 | dirty, rec_lsn present and latest_page_lsn present agree, so the dirty-page table has no error case |
| PoolTheorems.BatchHasNoErrorCase | crates/buffer/src/pool.rs:925-1009 | every reserved frame can be captured or skipped and every flushed one finished without an internal error |
| PoolTheorems.BatchAccounts | crates/buffer/src/pool.rs:898-1010 | a batch that ends well has attempted = flushed + redirtied + skipped, repeats included |
| PoolTheorems.NewPageIsFresh | crates/buffer/src/pool.rs:672-700 | the number new_page picks is not resident, has no home and no log record |
| PoolState.PoolState.FixClockHand | crates/buffer/src/pool.rs:1224-1235 | the hand points into the clock again, nothing else changes |
| PoolState.PoolState.RemoveFrame | crates/buffer/src/pool.rs:1212-1216 | the frame leaves map and clock, which stay a permutation of each other |
| PoolState.PoolState.VisitHand | crates/buffer/src/pool.rs:1247-1284 | one position of the sweep takes the frame if and only if it is evictable and its reference bit is clear, else clears the bit of a frame that is neither pinned nor being flushed and moves on |
| PoolState.PoolState.ReclaimVictim | crates/buffer/src/pool.rs:1237-1287 | the victim is the first evictable frame from the hand on whose reference bit is clear, or the first evictable one if none is; the bits cleared are those of the frames passed; there is none if and only if no frame is evictable |
| PoolState.PoolState.GetOrInsertClean | crates/buffer/src/pool.rs:1164-1191 | given bytes loaded earlier: a resident frame is found and keeps its bytes, else they become a clean one if there is room; residents never exceed the capacity |
| PoolState.PoolState.InsertLoaded | crates/buffer/src/pool.rs:433-467 | the frame found or made is pinned and its number counts as allocated; otherwise nothing changes |
| PoolState.PoolState.Insert | crates/buffer/src/pool.rs:1193-1210 | a frame joins map and clock, which stay a permutation of each other |
| PoolState.PoolState.NewPage | crates/buffer/src/pool.rs:672-700 | the number taken is the least abandoned or the next one |
| PoolState.PoolState.AbandonPage | crates/buffer/src/pool.rs:741-770 | the frame goes and its number is given back as the allocator's function says, or one of the four errors changes nothing |
| PoolState.PoolState.TrimAbandonedTail | crates/buffer/src/pool.rs:1130-1151 | the loop computes the allocator's trim and ends |
| PoolState.PoolState.ReserveCandidates | crates/buffer/src/pool.rs:898-923 | exactly the resident candidates that are neither stolen nor reserved get reserved, once each |
| PoolState.PoolState.DirtyPageTable | crates/buffer/src/pool.rs:868-892 | the table holds exactly the dirty frames with their rec_lsn, sorted, and fails only if a dirty frame has none |
| PoolLocked.SweepIsRun | crates/buffer/src/pool.rs:1237-1287 | sweeping past frames is a run of the machine |
| PoolLocked.ReclaimIsRun | crates/buffer/src/pool.rs:1237-1287 | whatever the sweep returns, its effect is a run of the machine |
| PoolLocked.ReservationIsStep | crates/buffer/src/pool.rs:898-923 | the reservation loop is one step of the machine |
| PoolLocked.InsertLoadedIsMove | crates/buffer/src/pool.rs:433-467 | what a thread does with loaded bytes under the lock is an insert or a join of the machine with loads |
| PoolLocked.NewPageIsStep | crates/buffer/src/pool.rs:672-700 | what new_page does under the lock never meets a resident number and is a step of the machine |
| PoolLocked.AbandonIsStep | crates/buffer/src/pool.rs:741-770 | a writer that gives its page back never finds it missing, succeeds if and only if the page is new, unpublished and its own, and that is a step of the machine |
| PoolLocked.TableGivesFloor | crates/server/src/checkpoint.rs:319-323 | the least rec_lsn of the dirty-page table, or the end of the log, is a floor, and the highest one |
| SqlArrays.New | crates/common/src/array.rs:395-462 | accepts exactly the valid arrays whose elements are all of the element type, no array type itself, and empty ones of empty dimensions, which lose them |
| SqlArrays.Cardinality | crates/common/src/array.rs:436-442 | the checked product is the product; it overflows only where no array has that cardinality |
| SqlArrays.ElementOffset | crates/common/src/array.rs:498-513 | resolves exactly the subscripts in bounds, to the number of elements before, with no overflow |
| SqlArrays.OffsetBelow | crates/common/src/array.rs:498-513 | offsets are below the cardinality |
| SqlArrays.Subscripts | crates/common/src/array.rs:498-513 | every offset below the cardinality has subscripts in bounds that resolve to it |
| SqlArrays.OffsetIsMonotone | crates/common/src/array.rs:498-513 | offsets follow the lexicographic order of subscripts, and distinct subscripts have distinct offsets |
| ArrayText.WriteElement | crates/common/src/array.rs:337-355 | writes an element quoted and escaped as the text of elements demands |
| ArrayText.FormatLevel | crates/common/src/array.rs:309-335 | writes a level and takes exactly its elements, in row-major order |
| ArrayText.Format | crates/common/src/array.rs:279-307 | writes the bounds, if any lower bound is not 1, and the outermost level |
| ArrayText.FormatWith | crates/common/src/array.rs:279-307 | with a callback for the elements: the printed array of what it renders, or the error of the first element it does not |
| ArrayGrammar.ElementIsWritten | crates/common/src/array.rs:337-355 | an element is quoted if and only if it could not stand without quotes, with backslashes only before quotes and backslashes |
| ArrayGrammar.BoundsAreWritten | crates/common/src/array.rs:279-307 | bounds are printed if and only if a lower bound is not 1 |
| ArrayTextParser.Parser.Whitespace | crates/common/src/array.rs:134-142 | skips to the next character that is not ASCII whitespace |
| ArrayTextParser.Parser.Integer | crates/common/src/array.rs:117-132 | reads a signed 32-bit number or fails |
| ArrayTextParser.Parser.Bounds | crates/common/src/array.rs:83-115 | reads up to six bounds and the sign after them or fails with the error of the first flaw |
| ArrayTextParser.Parser.Chars | crates/common/src/array.rs:226-254 | reads the characters of an element with their escapes |
| ArrayTextParser.Parser.Element | crates/common/src/array.rs:217-274 | reads an element, trimmed if it is not quoted, with NULL told from its quoted spelling |
| ArrayTextParser.Parser.List | crates/common/src/array.rs:144-169 | reads a list within the limits on lists and depth, adding its scalars in order |
| ArrayTextParser.Parser.Items | crates/common/src/array.rs:170-215 | reads items of one shape, or scalars, and never both |
| ArrayTextParser.Parse | crates/common/src/array.rs:16-67 | gives dimensions and tokens, or the error of the first flaw |
| ArrayGrammar.ParsedIff | crates/common/src/array.rs:16-277 | the accepted texts are exactly those of the grammar, with blanks between all parts, lists of one shape at most six deep, quoted and unquoted elements with escapes, NULL in any case, and bounds that agree with the lists; they are read as what they mean |
| ArrayGrammar.SourceMeans | crates/common/src/array.rs:16-277 | a text of the grammar is refused if and only if its bounds disagree with its lists |
| ArrayGrammar.ParsedIsSource | crates/common/src/array.rs:16-277 | an accepted text is one of the grammar |
| ArrayAccepted.ListIsRectangular | crates/common/src/array.rs:144-215 | a list that is read adds as many tokens as the product of its shape, which fits the six dimensions left |
| ArrayAccepted.AcceptedIsValid | crates/common/src/array.rs:16-67 | every accepted text describes an array the constructor accepts: lengths multiply to the token count, bounds fit i32 |
| ArrayRoundTrip.ElementBack | crates/common/src/array.rs:217-274 | a printed element reads back, whatever characters it holds |
| ArrayRoundTrip.ListsFewerThanElements | crates/common/src/array.rs:11-11 | an array has at most one list for each dimension and element, so the list limit rejects no printed text |
| ArrayRoundTrip.ListBack | crates/common/src/array.rs:144-215 | a printed level reads back to its lengths and elements, whatever follows it |
| ArrayRoundTrip.BoundsBack | crates/common/src/array.rs:83-115 | printed bounds read back |
| ArrayRoundTrip.ArrayRoundTrips | crates/common/src/array.rs:16-67 | parsing what was printed gives the dimensions, lower bounds and elements of every valid array |
| ArrayRoundTrip.AcceptedReprints | crates/common/src/array.rs:279-307 | every accepted text means the same as the printed text of what it describes |
| Calendar.DaysRoundTrip | crates/common/src/datetime.rs:20-44 | civil_from_days gives a Gregorian date, and days_from_civil takes it back |
| Calendar.CivilRoundTrip | crates/common/src/datetime.rs:20-44 | for every Gregorian date civil_from_days takes days_from_civil back |
| Calendar.EpochIsZero | crates/common/src/datetime.rs:20-44 | 1970-01-01 is day 0 |
| Calendar.NextDayCounts | crates/common/src/datetime.rs:20-30 | the next calendar day has the next day count |
| Calendar.DaysAreConsecutive | crates/common/src/datetime.rs:33-44 | the next day count is the next calendar day |
| Calendar.DaysInMonthIs | crates/common/src/datetime.rs:189-199 | the length computed by subtraction is the Gregorian month length |
| Calendar.AddMonthsMoves | crates/common/src/datetime.rs:201-211 | the month index moves by exactly the months, and the day is clamped to the month's length |
| Calendar.AddMonthsUndone | crates/common/src/datetime.rs:201-211 | taking the months off again gives the day back if and only if it was not clamped |
| Calendar.AddIntervalIs | crates/common/src/datetime.rs:213-222 | for every timestamp and interval: the days and microseconds are added to the date that is the interval's months later, and there is no result if and only if one of the four sums leaves i64 |
| Calendar.AddIntervalMoves | crates/common/src/datetime.rs:213-222 | without its days and microseconds a result has the time of day of the start, its month moved by exactly the months, and its day clamped |
| Calendar.AddIntervalWithoutMonths | crates/common/src/datetime.rs:213-222 | an interval without months adds its days and microseconds, or has no result exactly where a sum leaves i64 |
| Calendar.CivilFromDaysFitsIff | crates/common/src/datetime.rs:33-44 | no intermediate value overflows i64 if and only if the day count is at most i64::MAX - 719468 |
| Calendar.DaysFromCivilFitsIff | crates/common/src/datetime.rs:20-30 | no intermediate value overflows i64 if and only if the date is from -25252734927764585-06-07 to 25252734927766554-09-25 |
| Calendar.AddIntervalFits | crates/common/src/datetime.rs:189-222 | for every timestamp and interval no unchecked operation overflows |
| DateText.FromFieldsIff | crates/common/src/datetime.rs:54-63 | for every i64 year: fields out of their ranges are refused, days outside the first and last date overflow, and of the others exactly the Gregorian days are accepted, as their day count |
| DateText.ParsesFields | crates/common/src/datetime.rs:49-63 | the text of any three fields with a year that is not negative parses to them |
| DateText.NegativeIsRefused | crates/common/src/datetime.rs:49-53 | the text of a negative year is refused whatever the month and day |
| DateText.DateRoundTrip | crates/common/src/datetime.rs:49-71 | a printed date parses back to its day count if its year is not negative, and is refused if it is |
| DateText.NumeralsMean | crates/common/src/datetime.rs:49-63 | three numerals apart by hyphens, with any white space around them, are read as those three numbers |
| DateText.OnlyNumeralsParse | crates/common/src/datetime.rs:49-63 | no other text is accepted or reaches the arithmetic |
| DateText.DateShape | crates/common/src/datetime.rs:65-71 | a printed date has four digits of the year or more without a zero in front of more, and two of month and day; ten characters for the years 0 to 9999 |
| DateText.LateYearOverflows | crates/common/src/datetime.rs:20-63 | every year past the last date's is read as a number and overflows |
| DateText.ParseCanOverflow | crates/common/src/datetime.rs:20-63 | 30000000000000000-01-01 overflows |
| IntervalText.FormatInterval | crates/common/src/interval.rs:144-161 | pushes the non-zero parts in order and joins them, as the text of intervals demands |
| IntervalText.ParseInterval | crates/common/src/interval.rs:198-244 | the token loop computes what the tokens say, or fails as they demand |
| IntervalGrammar.ParsedIff | crates/common/src/interval.rs:198-307 | the accepted texts are exactly those of fields apart by white space, numbers with units and clock times, and perhaps a last `ago`; they mean the sum of what the fields are worth, negated by `ago`, where every field and running total fits |
| IntervalGrammar.FieldsMean | crates/common/src/interval.rs:198-307 | a text of fields is refused exactly where one of those does not fit |
| IntervalGrammar.NumberAndWord | crates/common/src/interval.rs:247-267 | a number and the name of a unit, singular or plural, short or long, in any case, is that many of the unit |
| IntervalGrammar.HoursAreClock | crates/common/src/interval.rs:247-296 | n hours are the clock time n:00:00 |
| IntervalGrammar.TimeShape | crates/common/src/interval.rs:170-188 | a printed time has two digits of hours or more, two of minutes and of seconds, and a fraction without zeros at its end |
| IntervalGrammar.IntervalIsWritten | crates/common/src/interval.rs:144-161 | a printed interval has years and months of one sign, days, and a time if there is one or nothing else, each in the singular exactly for 1 |
| IntervalText.SumOverflowsIff | crates/common/src/interval.rs:292-294 | the unchecked sum of hours, minutes and seconds overflows exactly for 2562047788015215 hours and more than 1807 seconds |
| IntervalText.WrappedSumIsRefused | crates/common/src/interval.rs:292-294 | where it does, the wrapped sum in microseconds leaves i64 and the time is refused |
| IntervalText.SumCanOverflow | crates/common/src/interval.rs:292-294 | 2562047788015215:59:59 gets there |
| IntervalText.FractionRoundTrip | crates/common/src/interval.rs:300-307 | a trimmed six-digit fraction parses back |
| IntervalText.TimeRoundTrip | crates/common/src/interval.rs:170-296 | a printed time parses back, but for the least count, which is refused |
| IntervalText.ParseAmount | crates/common/src/interval.rs:247-267 | a printed quantity and unit add exactly that quantity to its component |
| IntervalText.IntervalRoundTrip | crates/common/src/interval.rs:144-307 | a printed interval parses back to the same three components if and only if its microseconds are not i64::MIN |
| ChangeSets.Between | crates/common/src/catalog_change.rs:231-259 | one mutation for each object that differs, strictly sorted by object id, with the reservations of the later snapshot |
| ChangeSets.BetweenIsUnique | crates/common/src/catalog_change.rs:230-259 | the change set is determined by the two snapshots |
| Snapshots.LessIs | crates/common/src/catalog_change.rs:23-43 | kinds of objects come in the order of their declaration, and within a kind numbers do |
| ChangeSets.ValidateShape | crates/common/src/catalog_change.rs:261-302 | accepts exactly the change sets of the version, within the limits, with real, finite mutations in strict order |
| ChangeSets.ApplyObjects | crates/catalog/src/change_set.rs:21-46 | applies the mutations in order to a copy, or fails as the first that does not fit demands |
| ChangeSets.RebuildNames | crates/catalog/src/change_set.rs:392-425 | the loop lists every name in use with an object that has it, the later one if there are two |
| ChangeSets.NamesAgree | crates/catalog/src/memory.rs:3305-3340 | looking every object's name up again fails exactly if two objects share one; otherwise the listing is the name index |
| ChangeSets.Apply | crates/catalog/src/change_set.rs:21-52 | shape, objects, reservations, names and validation in order give the applied snapshot or the first error |
| ChangeSetTheorems.BetweenHasShape | crates/common/src/catalog_change.rs:261-302 | the change set between consistent snapshots passes the shape check if and only if it is within the size limits |
| ChangeSetTheorems.ShapeIff | crates/common/src/catalog_change.rs:261-302 | the shape check takes exactly the change sets of the version and within the limits whose mutations carry one or two different images of one object, no statistics that are not numbers, and are of increasing objects |
| ChangeSetTheorems.AppliedIsRaised | crates/catalog/src/change_set.rs:21-52 | applied to the first snapshot it gives the second with lagging allocators raised, name indexes rebuilt |
| ChangeSetTheorems.AppliedNames | crates/catalog/src/change_set.rs:392-425 | in an applied snapshot every schema, and every public user table, view, index and sequence, is found under its own name in its own space, and nothing else is |
| ChangeSetTheorems.RoundTripIff | crates/catalog/src/change_set.rs:10-52 | that is exactly the second snapshot if and only if no allocator was rewound |
| ChangeSetTheorems.ApplyEffects | crates/catalog/src/change_set.rs:256-390 | on any base a change set that applies found every before-image, left untouched objects alone and gave every touched one its outcome, statistics included |
| ChangeSetTheorems.UntouchedIsKept | crates/catalog/src/change_set.rs:21-77 | an untouched object of any base is kept exactly, its column counter included |
| ChangeSetTheorems.TouchedIsReplaced | crates/catalog/src/change_set.rs:21-77 | a touched object was in the base as before and is now as after |
| ChangeSetTheorems.TouchedStatistics | crates/catalog/src/change_set.rs:337-371 | touched statistics are as after, or gone if their user table is |
| ChangeSetTheorems.MismatchConflicts | crates/catalog/src/change_set.rs:34-40 | a before-image that is not there is reported as a conflict |
| ChangeSetTheorems.FirstFailure | crates/catalog/src/change_set.rs:30-371 | after the mutations that fit, a before-image that is not there is a conflict, statistics of a column their user table lacks name that table, and nothing else stops a mutation |
| ChangeSetTheorems.ClaimedBaseIff | crates/catalog/src/change_set.rs:69-76 | over an empty journal: a base whose allocators were claimed for a change takes the change if and only if it allocates no column of an existing relation |
| ChangeSetTheorems.ClaimedBaseCanConflict | crates/catalog/src/change_set.rs:69-76 | such a change exists |
| OverlayTheorems.AppliedCommutes | crates/catalog/src/change_set.rs:21-77 | a change that avoids the relations being raised gives, on the raised base, the raised result |
| OverlayTheorems.EarlierConflicts | crates/catalog/src/catalog_overlay.rs:134-141 | a claim that advances the counter of a live relation breaks the first recorded change of that relation |
| OverlayTheorems.ReadableIff | crates/catalog/src/catalog_overlay.rs:134-141 | after any claim a journal that replayed conflicts if and only if it changes a live relation whose counter the claim advances; otherwise it gives what it gave, raised |
| OverlayTheorems.ClaimedJournalIff | crates/catalog/src/catalog_overlay.rs:54-86 | over any journal and base: after a statement's claim the transaction conflicts with itself if and only if the statement allocated a column of a live relation or touched one whose counter only reservations hold up; otherwise it reads what the statement left, or is invalid if validation refuses that |
| OverlayTheorems.SecondColumnConflicts | crates/server/src/query/exec.rs:695-702 | claiming before recording, the first column added to a live table is read back and the second conflicts |
| OverlayTheorems.RolledBackColumnConflicts | crates/catalog/src/catalog_overlay.rs:111-141 | a transaction that rolled back a column of its own new table conflicts with itself once it alters the table again |
| ColumnRuns.StepKeeps | crates/catalog/src/memory.rs:850-889 | every step keeps: the ids given are exactly those from the first up to the live counter |
| ColumnRuns.ClaimRepeatsIff | crates/catalog/src/memory.rs:196-220 | a claim is taken and gives an id again if and only if columns were added, the live counter has moved since, and either nothing else was drawn or no other allocator has moved |
| ColumnRuns.DistinctIffUnraced | crates/catalog/src/memory.rs:196-220 | over every run the column ids of a relation are distinct if and only if no claim is like that |
| ColumnRuns.DistinctIfDrawing | crates/executor/src/query.rs:2451-2479 | if whoever adds a column draws another id with it, the compare refuses every raced claim and no column id is given twice |
| ColumnRuns.SameIdTwice | crates/catalog/src/memory.rs:196-220 | a run in which two transactions that draw nothing else get the same column id |
| CatalogOverlay.LiveAllocators.Allocate | crates/catalog/src/memory.rs:2111-2130 | hands out the next id and advances past it, or fails at the limit of its kind; no allocator goes back |
| CatalogOverlay.Limits | crates/catalog/src/memory.rs:2111-2146 | ids are handed out up to 30 bits for storage, without zero, 28 bits for constraints, and below the greatest number for the other kinds |
| CatalogOverlay.LiveAllocators.ReserveId | crates/catalog/src/memory.rs:1994-2000 | advances past an id it accepts, never back |
| CatalogOverlay.LiveAllocators.ClaimChange | crates/catalog/src/memory.rs:196-220 | compare and swap of all allocators, which a taken claim raises together with the column counters it names; none goes back |
| CatalogOverlay.LiveAllocators.ReserveChange | crates/catalog/src/change_set.rs:54-77 | the loop raises every allocator, and the counter of every live relation named, to the greater one |
| CatalogOverlay.LiveAllocators.Restore | crates/catalog/src/memory.rs:439-466 | installs the greater of the live and restored allocators, and the restored relations with the greater counter |
| CatalogOverlay.Overlay.Record | crates/catalog/src/catalog_overlay.rs:80-84 | adds the change and merges its reservations |
| CatalogOverlay.Overlay.MergeInto | crates/catalog/src/change_set.rs:79-97 | the loop merges every allocator and column counter to the greater one |
| CatalogOverlay.Overlay.TakeSavepoint | crates/catalog/src/catalog_overlay.rs:100-109 | a savepoint can be rolled back to |
| CatalogOverlay.Overlay.RollbackTo | crates/catalog/src/catalog_overlay.rs:111-127 | drops the changes after the savepoint and no reservation, or refuses one that is ahead and changes nothing |
| CatalogOverlay.MaterializedAllocators | crates/catalog/src/catalog_overlay.rs:134-141 | a transaction sees the greatest of the live allocators and all it reserved |
| OverlayRuns.SeenIsLive | crates/catalog/src/catalog_overlay.rs:54-60 | in every run that is exactly the live allocators |
| OverlayRuns.StepKeeps | crates/catalog/src/catalog_overlay.rs:54-141 | every step keeps: no id given twice, all given ids below the live allocators, all reservations claimed |
| OverlayRuns.CommitKeeps | crates/catalog/src/catalog_overlay.rs:70-85 | a statement's claim, taken or refused, keeps that |
| OverlayRuns.CommitSucceedsIff | crates/catalog/src/memory.rs:207-210 | a claim is taken if and only if nothing was drawn or the live allocators are those the statement read |
| OverlayRuns.NoIdTwice | crates/catalog/src/catalog_overlay.rs:54-127 | over every run of many transactions, savepoints, commits and direct allocations no id of any kind is handed out twice |
| DropClosure.Close | crates/catalog/src/dependencies.rs:326-379 | the least set that holds the roots and is closed under owned dependents, or the root or edge for which it is refused |
| DropClosure.Grow | crates/catalog/src/dependencies.rs:347-364 | passes over the edges, in any order, end in that least set |
| DropClosure.ClosureIsUnique | crates/catalog/src/dependencies.rs:347-364 | there is one such set |
| DropClosure.RefusedIsNotAccepted | crates/catalog/src/dependencies.rs:365-377 | a drop that is refused has no acceptable closure |
| DropClosure.ClosureIsJustified | crates/catalog/src/dependencies.rs:347-364 | whatever is in the closure is a root or owned by something in it |
| DropClosure.NothingDangles | crates/catalog/src/dependencies.rs:365-378 | no edge of a surviving object leads into the closure |
| CatalogDrop.BuildDependencies | crates/catalog/src/dependencies.rs:15-131 | the sets the loops build are exactly the edges the objects imply |
| CatalogReferences.ValidIff | crates/catalog/src/dependencies.rs:474-520 | over the fields of the objects: a catalog is valid if and only if everything that a table, default, view, index, sequence or constraint names is there, a foreign key's parent, its key and columns and its supporting index included, names lead to what they name, and hidden relations and keys fit |
| CatalogReferences.ClosureIs | crates/catalog/src/dependencies.rs:347-364 | what goes with tables, over the fields: their columns, defaults, indexes, constraints and statistics, and the owned sequences their columns draw from |
| CatalogReferences.BlockedIff | crates/catalog/src/dependencies.rs:365-377 | the closure is blocked if and only if a constraint, default or view that stays names something that goes |
| CatalogReferences.OwnedIff | crates/catalog/src/dependencies.rs:326-346 | a target is owned from outside if and only if it is a hidden relation whose base is no target |
| CatalogGraph.SurvivesIff | crates/catalog/src/memory.rs:4933-4962 | an object is left if and only if it was there and is not in the closure: columns, defaults, indexes and constraints go with their table |
| CatalogGraph.EdgeSurvivesIff | crates/catalog/src/dependencies.rs:15-131 | the graph rebuilt after a drop is the old one without the edges of dropped objects |
| CatalogGraph.NamesSurvive | crates/catalog/src/memory.rs:4903-4962 | the name indexes without the closure list exactly the objects left |
| CatalogGraph.DropKeepsValid | crates/catalog/src/memory.rs:4897-4931 | dropping tables keeps the catalog valid, name indexes included, so no surviving edge, of cyclic foreign keys included, refers to a dropped object |
| CatalogDrop.TablesOfClosure | crates/catalog/src/memory.rs:4903-4927 | the tables of the closure are the targets and their hidden relations |
| CatalogDrop.RemoveTables | crates/catalog/src/memory.rs:4903-4927 | removes targets and hidden relations with their names, and fails exactly on a target that is missing, repeated or gone with another |
| CatalogDrop.RemoveOwned | crates/catalog/src/memory.rs:4933-4962 | removes exactly the constraints, indexes, sequences and statistics of the closure, and the names of the indexes and sequences |
| CatalogDrop.DropTables | crates/catalog/src/memory.rs:4897-4931 | over the fields: refused if and only if a target is hidden and its base is none, or something that stays names something that goes; undefined if and only if not refused and a target is missing, repeated or gone with another; otherwise what is left is exactly the rest, valid, with nothing it names missing |

## Left out

- `flush_dirty_pages_in` and the file-scoped bulk flush: their capture is not atomic with the latch, and a
  steal does not respect their reservation.
- `load_page`, `fetch_for_redo`, `publish_recovery_derived`, `discard_file_if_unpinned`, `remove_file`,
  `iter_pages`, `page_count`: recovery and file management around the same frames.
- Lock poisoning, memory ordering of the atomics, spinning, liveness of threads.
- Page contents: a page is the list of records applied to it, and slot and checksum formats are not modelled.
- OverlayRuns.NoIdTwice: counts the ids of the seven allocators; column ids, which can repeat, are in `ColumnRuns`.
- CatalogDrop.DropTables: keeps of views only what the graph needs, because a drop of tables that succeeds removes no view.
- Timestamps and times with zones, interval comparison and the binary wire format: they would add easy members.
- Serialization of catalogs and change sets, and most validation in `memory.rs`.
