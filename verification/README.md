# A verified model of inoxset

inoxset is a log-structured store of sets of 32-bit ids, one set for every event and period.
Writes go to a buffer with pending additions and pending removals; a flush turns the buffer
into immutable data and delta parts with ascending ids; reads fold the parts in id order and
overlay the buffer; compaction replaces the parts of a key by one. Rollup copies writes to
coarser periods, range writes touch many buckets at once, a cache holds the merged sets, a
frozen index and a dictionary answer the reverse question. This project models those pieces
in Dafny and proves that the fast forms agree with one simple thing: a relation between
(event, period) and ids.

## How it is laid out

- `Types`, `Calendar`, `PeriodRange`, `Names`: values, calendar arithmetic, exact enumeration
  of ranges, and the text names of periods, catalog keys and part files. Month lengths and leap
  years follow section 5.7 and Appendix C of RFC 3339.
- `Sorting`, `Merge`, `WriteBuffer`, `Propagation`: the ordered fold and its order-free meaning,
  the buffer object, and rollup over it.
- `Catalog`, `Durability`, `Parts`, `ReadIndex`: the catalog tables with their invariant, the
  disk as a machine that may crash between any two steps, the transactions that flush, replace
  and delete, and the cache.
- `Spec`, `Rules`, `Store`, `Query`: the simple relation with its operations, what they promise in plain
  terms, the store object whose every public method is proved to act on that relation, and set expressions
  over it.
- `Runs`, `RollupLaws`, `Client`: theorems about whole histories: last writer wins, range writes
  as loops, rollup containment, and the life of a store from an empty disk through any sequence
  of operations, reopenings and crashes.
- `Bits`, `LittleEndian`, `Roaring`, `Bytewise`, `Encoding`, `Search`: membership on serialized bytes,
  after the public RoaringFormatSpec, with the format stated once more byte by byte.
- `Codec`: the byte forms of catalog records.
- `Bloom`, `Inverted`, `Dictionary`, `DictClients`, `Reverse`: the Bloom filter, the frozen index,
  the dictionary with interleaved clients, and reverse lookup against plain reads.

## What the proofs rest on

A flush takes all data ids before any delta id (`src/lib.rs:1491`, `src/lib.rs:1556`), and a put
cancels pending removals of the bits it writes (`src/lib.rs:1157-1158`). So at a flush additions
come before removals, a bit that is still pending removal was removed after it was last put, and
the id-ordered fold of `Merge.MergeParts` gives the same set as the buffer did.

`Durability.Machine` is the finer machine underneath: part files, the last commit, the open
transaction and the next id. `Durability.Disk` records every step and what a crash after it
recovers. `Client.Life` is a store on such a disk with the history of all that was done to it and
the step at which every operation ended; `Client.Life.CrashesAreSafe` shows that a crash after any
step recovers the durable state of a moment of that history, that these moments never move back, and
that every operation ended by then is part of the moment.

Part ids are the one resource that can run out. `InoxSet.Load` bounds what may still have to come
out of the counter: ids given out, two for every buffered entry, one for every key that waits for
compaction. A flush moves one id per entry from the buffer into the counter and may leave the key
waiting, a compaction moves one more, so only new work raises the load. `Client.Lifetime` turns this
into a condition on the work alone.

## Where the code differs from its description

- A failed flush has already drained the buffer (`src/lib.rs:1446`): the drained writes are gone.
  `Store.InoxSet.FlushInternal` says when, for the one failure modelled, the end of the id space.
- Period keys of years after 9999 cannot be parsed back (`Names.PeriodKeyRoundTrip`).
- The frozen reverse lookup checks its filters before the buffer (`src/lib.rs:496-505`), so an id
  first written after the last rebuild is missed although the comment below it promises unflushed
  data. `Reverse.ReverseLookup.PutUnindexed` says so for every such put, `Reverse.UnindexedIdIsMissed`
  is one run; `Reverse.ReverseLookup.FindMemberships` states exactly when the answer is right.
- The byte search computes the end of a run in 16 bits. `Search.RunsContain` says exactly what it
  misses on ordered data: the values of a last run that passes 65535, from its start on. A debug build
  panics there, although the documentation promises none on malformed data.
- The byte search always expects an offset header, which the format leaves out below four containers
  when there are runs. `Roaring.OffsetsReadTheFormat` is the condition under which that makes no
  difference, which can be read off the cookie; `Search.SingleRunIsMissed` is a family on which it does.
- Dropping an event leaves the records and files of its deltas in place (`src/catalog.rs:704-747`).
  `Catalog.DroppedRecords` and `Store.InoxSet.DropEvent` say exactly which stay, and
  `Store.InoxSet.Open` that the sweep at the next opening does not take them either.
- With a frozen index, an operation whose commit is followed by a refused rebuild fails although its
  effect is durable (`src/lib.rs:171-180`): `Reverse.ReverseLookup.Perform`.

## Model

| member | source | states |
|---|---|---|
| `Calendar.DaysFromCivilCounts` | src/period.rs:317-325 | The 153-month closed form equals a count of whole years and whole months from 1970-01-01, in every year, month and day offset |
| `Calendar.DayCountStep` | src/period.rs:317-325 | Zero on 1970-01-01, and exactly one more at every step from a valid date to its calendar successor, across months, leap years and centuries |
| `Calendar.DayCountMonotone` | src/period.rs:317-325 | The count orders valid dates exactly as the calendar does, both directions |
| `Calendar.Normalize` | src/period.rs:284-313 | Carrying ends on every input; components that are not negative come out in range and denote the same instant, and from components no lower than the calendar's comes a valid date |
| `Calendar.DatetimeToUnix` | src/period.rs:273-280 | For all components that are not negative, month 0 and day 0 included: the Unix second of the instant they denote, 0 before the epoch |
| `Calendar.CloseBoundaryUnix` | src/period.rs:136-153 | For every period, validated or not, the saturated instant right after its components; for a valid one that is its start plus its full length, for the static period none |
| `Calendar.IsClosed` | src/period.rs:125-130 | Every period is closed exactly from its boundary on, and the static period never |
| `Calendar.ValidEnd` | src/period.rs:136-153 | The instant after the components of a valid period is its start plus its full length |
| `Calendar.ChildInsideParent` | src/period.rs:49-56 | A period starts and ends inside its parent |
| `Calendar.ClosedParentClosesChildren` | src/period.rs:125-153 | A closed parent has only closed children |
| `PeriodRange.OrdinalOrders` | src/types.rs:70-83 | The derived order of valid periods of one granularity is their order in time, with equality only for equal periods |
| `PeriodRange.NextPeriodTiles` | src/lib.rs:2176-2216 | The next period is the next valid one, and begins at the very hour its predecessor ends |
| `PeriodRange.StepBelowBound` | src/lib.rs:2139-2173 | Below a valid end bound no step overflows the 16-bit year, wherever the steps started |
| `PeriodRange.EnumeratePeriods` | src/lib.rs:2139-2173 | Ends for any bounds: empty for mixed granularities and reversed bounds, the single static period for static bounds, an enumeration of the range for valid bounds, and otherwise the steps up to the bound or the last one before it; the year overflows exactly when the steps run out below the bound, which only an out-of-range bound in year 65535 allows |
| `PeriodRange.OneOutcome` | src/lib.rs:2155-2171 | Steps that reach the bound and steps that run out of years exclude each other |
| `PeriodRange.ValidWalk` | src/lib.rs:2139-2173 | Between valid bounds the steps are the enumeration of the range |
| `PeriodRange.EnumerationIsExact` | src/lib.rs:2139-2216 | An enumeration holds exactly the valid periods between the bounds, strictly ascending, each beginning where the last one ended |
| `PeriodRange.EnumerationUnique` | src/lib.rs:2139-2173 | There is only one such sequence |
| `PeriodRange.LastChildClosesParent` | src/lib.rs:2176-2216 | For every period that has a successor: it is the last child of its parent exactly when both end at the same instant |
| `Names.PeriodKeyRoundTrip` | src/period.rs:168-211 | Parsing undoes formatting for every valid period up to year 9999, and fails for every later one |
| `Names.Reparse` | src/read_index.rs:70-81 | Reading a period back out of the catalog key of a legal event name, split at its slashes into at most three pieces: the period itself up to year 9999, nothing after that |
| `Names.CatalogKeyInjective` | src/period.rs:244-246 | Two legal event names and valid periods with the same catalog key are the same |
| `Names.PartFileNameRoundTrip` | src/part_store.rs:567-583 | The part id is recovered from every data and delta file name of any period |
| `Names.PathsAreInjective` | src/part_store.rs:62-77 | Two part files of legal event names and valid periods whose paths are equal as text are the same in every component, kind and period included, across granularities and years |
| `Names.PeriodKeyInjective` | src/period.rs:21-30 | Valid periods of whatever granularity and year have different keys |
| `Names.KeyText` | src/period.rs:21-30 | Up to year 9999 a key reads YYYY, YYYY-MM, YYYY-MM-DD or YYYY-MM-DDTHH, digit by digit, and the static period _static |
| `Names.CatalogKeyText` | src/period.rs:244-246 | A catalog key is the event, none, hour, day, month or year, and the period, with slashes between them |
| `Names.FileNameText` | src/part_store.rs:62-77 | A part file is named by its period, d_ for a delta, the id in twelve digits and .roar |
| `Types.LegalNames` | src/error.rs:108-119 | A name is legal when it is made of ASCII letters, digits and - . : _ and is not empty, . or .. |
| `Merge.NewestDataAdds` | src/merge.rs:76-99 | Among surviving bits (some data part holds the bit and no later delta does), a newest data part adds its own |
| `Merge.NewestDeltaErases` | src/merge.rs:76-99 | A newest delta takes its bits away and no others |
| `Merge.MergeParts` | src/merge.rs:76-99 | The sorted fold equals the order-free set of surviving bits |
| `WriteBuffer.MemPart.OrBitmap` | src/mempart.rs:72-86 | Bits join the pending additions of one key; the wrapping size counter moves by what the entries grow, each counted beyond the size of an empty set |
| `WriteBuffer.MemPart.OrBitmapShared` | src/mempart.rs:120-140 | Same new additions as the plain form; the counter moves by what the whole serialized sizes grow, so a vacant key is charged its whole size |
| `WriteBuffer.MemPart.OrDelta` | src/mempart.rs:92-106 | Bits join the pending removals of one key, and the counter moves by what the entries grow |
| `WriteBuffer.MemPart.ClearDeltaBits` | src/mempart.rs:149-168 | Bits leave the pending removals of one key, an emptied entry disappears, and the counter gives back what it weighed |
| `WriteBuffer.MemPart.TakeSnapshot` | src/mempart.rs:190-198 | Hands over exactly the pending maps and leaves an empty buffer with size 0 |
| `WriteBuffer.ClearAllTwice` | src/mempart.rs:149-168 | Clearing bits at one group of keys and then another is clearing them at both, dropped entries included |
| `WriteBuffer.GrownTwice` | src/mempart.rs:72-86 | Counter moves add up over any chain of buffer states, whether the register wraps on the way or not |
| `WriteBuffer.WeightUpdate` | src/mempart.rs:72-86 | Replacing or adding one entry moves the weight of all entries together by that entry's difference |
| `Rules.ReachOfOwn` | src/types.rs:182-199 | With rollup a write at a period of the finest granularity reaches its hour, day, month and year, by their fields |
| `Rules.ReachOfAuto` | src/rollup.rs:65-79 | With rollup a write at any period reaches it and all of its day, month and year that are no finer than the finest granularity |
| `Rules.ReachWithoutRollup` | src/rollup.rs:65-79 | Without rollup a write reaches its own period alone |
| `Propagation.ApplyRollup` | src/rollup.rs:65-79 | The loop over ancestors adds the bits at exactly the ancestors in the event's rollup chain; the counter moves with the entries |
| `Propagation.ApplyRollupDelta` | src/rollup.rs:96-110 | Same for pending removals, counter included |
| `Propagation.ClearRollupDelta` | src/rollup.rs:122-136 | Pending removals of the bits are cancelled at exactly those ancestors; the counter moves with the entries |
| `Propagation.PutAt` | src/lib.rs:1144-1160 | The whole buffer after a put, counter included: bits added and pending removals of them cancelled at the period and every ancestor it reaches |
| `Propagation.RemoveAt` | src/lib.rs:2229-2249 | The whole buffer after a removal, counter included: it joins the pending removals of everything it reaches and leaves pending additions alone |
| `Propagation.DistinctRollupAncestors` | src/rollup.rs:147-160 | Every ancestor of every bucket of a range, each once |
| `Propagation.RangeReachSplits` | src/rollup.rs:147-160 | What single writes to the buckets reach is the buckets and their distinct ancestors |
| `Propagation.PutRangeAt` | src/lib.rs:1226-1257 | The whole buffer after a range put, counter included: each bucket and each distinct ancestor is updated once, which adds and cancels at exactly what single puts would reach |
| `Propagation.RemoveRangeAt` | src/lib.rs:1316-1343 | Same for a range removal |
| `Propagation.RangeReachIsSmall` | src/rollup.rs:147-160 | A range of n buckets reaches at most 4n keys |
| `Catalog.ListedIds` | src/catalog.rs:985-1089 | A listed id is below the counter and has a record of the right key and kind, so lists of different keys or kinds never share an id |
| `Catalog.RecordDataEffect` | src/catalog.rs:1005-1035 | Recording a fresh data part keeps the catalog invariant and adds its bits to its key's fold only |
| `Catalog.RecordDeltaEffect` | src/catalog.rs:1005-1074 | Recording a fresh delta keeps the invariant and takes its bits out of its key's fold only |
| `Catalog.RecordReplacementEffect` | src/catalog.rs:1043-1089 | A replacement leaves its key with the new part alone and every other key as it was |
| `Catalog.DeletePeriodEffect` | src/catalog.rs:768-802 | Deleting a period empties that key and keeps the others and the invariant |
| `Catalog.DeleteEventEffect` | src/catalog.rs:685-755 | Deleting an event empties its keys and keeps the others and the invariant |
| `Catalog.MarksAfterDeletion` | src/catalog.rs:728-788 | Deleting a period or an event takes the marks of its own keys and leaves every other mark as it is |
| `Catalog.DroppedRecords` | src/catalog.rs:704-747 | A listed record survives the deletion of an event exactly when it belongs to another event or is a delta's; no list names the surviving deltas of the event any more |
| `Catalog.UnreferencedFile` | src/lib.rs:1477-1610 | A file no listed part names may appear or disappear without changing any fold |
| `Durability.StepEffect` | src/lib.rs:1477-1610 | Every step of the disk (file write, record, commit, deletion, crash) keeps the invariant; only a commit changes the committed view, and it publishes the pending one |
| `Durability.ListedPartIsStable` | src/lib.rs:1477-1610 | A part listed before and after a step keeps its record, its file and the file's content, even when ids lost in a crash are given out again |
| `Durability.RunIsSound` | src/lib.rs:1477-1610 | The invariant holds after every legal run, crashes anywhere |
| `Durability.CrashRecoversLastCommit` | src/builder.rs:219-240 | A crash after any number of steps recovers exactly what the last commit published |
| `Durability.Disk.Do` | src/lib.rs:1477-1610 | One atomic step of the disk object, with its journal and what a crash after the step recovers: a commit moves that once, every other step leaves it |
| `Durability.RecoveredAt` | src/builder.rs:219-240 | What the disk records for every number of steps is what a crash after just those steps of its journal shows |
| `Parts.WriteOnePart` | src/lib.rs:1491-1520 | Writes the file under the next reserved id and records it, field by field; the id goes to the end of the right list, a new key becomes open, and the pending view of the key moves by the bits |
| `Parts.FlushParts` | src/lib.rs:1477-1610 | One transaction, data ids before delta ids: each key becomes old bits plus additions less removals, the counter moves by one id per entry, keys with data that had no state become open, other keys' lists stay; or, exactly when the ids do not suffice, nothing changes at all |
| `Parts.ReplaceKey` | src/lib.rs:2286-2364 | One transaction leaves the key with one new part of the given level and state, removes no file, and names only files no record knows as obsolete |
| `Parts.ReplaceMany` | src/lib.rs:2408-2494 | One transaction replaces every listed period by a part of level 0; of repeated periods the last entry stays; periods without a state become open |
| `Parts.EraseKey` | src/lib.rs:412-444 | One transaction empties a key; its data and delta files become obsolete |
| `Parts.EraseAll` | src/lib.rs:375-398 | One transaction empties an event and unregisters it |
| `Parts.DeleteFiles` | src/part_store.rs:474-479 | Deleting obsolete files changes no committed set |
| `ReadIndex.ReadKey` | src/lib.rs:1717-1748 | The slow path of a read computes the same fold as the cache |
| `ReadIndex.Build` | src/read_index.rs:61-144 | The cache holds, for every listed key of a parseable period, exactly the fold of its parts, and nothing else |
| `Spec.RangeCellsAre` | src/lib.rs:2100-2133 | The cells of a range stated by its bounds are those its enumerated buckets reach |
| `Spec.OverwriteAllByKey` | src/lib.rs:2386-2505 | Replacing a list of periods leaves each of them with its last entry |
| `Rules.PutByRow` | src/lib.rs:1123-1168 | Afterwards reads show exactly what they showed and the bits, at the period and with rollup at its day, month and year |
| `Rules.RemoveByRow` | src/lib.rs:2229-2249 | Afterwards reads lack exactly the bits, at the period and with rollup at its day, month and year down to the finest level |
| `Rules.RangeByRow` | src/lib.rs:1201-1343 | A range write is about exactly what single writes at the periods between its bounds are about |
| `Rules.PutAnswer` | src/lib.rs:1123-1143 | The first of these decides: an invalid period, an illegal name, a new event over the limit, a granularity that is not the event's finest; otherwise the put is admitted |
| `Rules.RemoveAnswer` | src/lib.rs:2229-2240 | The same for a removal, which may name any valid period |
| `Rules.ReplaceAnswer` | src/lib.rs:2262-2290 | A replacement is refused for an invalid period, an illegal name or a new event over the limit, in this order, whatever the granularity; otherwise it fails exactly when the part ids have run out |
| `Rules.BulkReplaceAnswer` | src/lib.rs:2386-2420 | The same for a list, which one invalid period refuses as a whole |
| `Rules.RangeWriteAnswer` | src/lib.rs:2100-2133 | What refuses a range write, in the order of the checks, the event before the bounds; more than 8784 periods are refused |
| `Rules.OtherAnswers` | src/lib.rs:311-444 | Deleting a period or an event looks at the name alone; registering at the name and then at whether it is taken |
| `Rules.RegisteredAsAsked` | src/types.rs:170-207 | A registration adds the event with the granularity and rollup asked for, but no rollup without levels, and changes no other |
| `Rules.EventLimit` | src/lib.rs:1078-1104 | In every history without explicit registrations the number of events never passes a positive limit |
| `Rules.HoursOfOneYearAreAdmitted` | src/lib.rs:2100-2133 | Any valid hours of one year, first not after last, are admitted as a range |
| `Rules.LeapYearIsTheLongest` | src/lib.rs:145 | A leap year from its first hour to its last is admitted and one hour more is refused; another year is admitted with 24 hours more and refused with 25 |
| `Rules.RangeAnswer` | src/lib.rs:2100-2133 | The checks of a range in their order; the last refuses more than 8784 periods |
| `Store.PutRows` | src/lib.rs:1144-1160 | In the relation a put adds its cells, because it cancels pending removals |
| `Store.RemoveRows` | src/lib.rs:2229-2249 | In the relation a removal takes its cells out |
| `Store.FlushedRows` | src/lib.rs:1452-1612 | After a flush the durable relation is what reads showed before it |
| `Store.Recover` | src/builder.rs:219-228 | Opening leaves the last commit and, unless read-only, exactly the files of recorded parts; what is durable does not move |
| `Store.InoxSet.Open` | src/builder.rs:198-289 | Opening shows exactly the durable relation, with an empty buffer whose size counter is 0; unless read-only, the files left are exactly those of recorded parts |
| `Store.InoxSet.EnsureRegistered` | src/lib.rs:1078-1104 | Registers a new event with the defaults unless its name is illegal or the limit is reached; reads do not move |
| `Store.InoxSet.RegisterEvent` | src/lib.rs:311-328 | Refines registration in the relation, with its three refusals |
| `Store.InoxSet.PutBitmap` | src/lib.rs:1123-1168 | Refines a put, every refusal included; a successful one shows at its period and with rollup at its day, month and year; it flushes exactly when it is admitted and the buffer after it is over the threshold, that flush succeeds exactly when the counter can serve its entries, and without a flush the cache does not move; of the marks a compacted one of a closed period becomes closed again, and a flush opens what had none |
| `Store.InoxSet.PutBitmapRange` | src/lib.rs:1201-1257 | Refines a range put, with the same exact conditions for the flush and its success; an empty set never flushes; exactly the compacted marks of closed buckets become closed again, and a flush opens what had none |
| `Store.InoxSet.RemoveBits` | src/lib.rs:2229-2249 | Refines a removal and gives the whole buffer after it; it never flushes |
| `Store.InoxSet.RemoveBitsRange` | src/lib.rs:1302-1343 | Refines a range removal, with the same exact conditions for the flush and its success |
| `Store.InoxSet.CheckedWriteRange` | src/lib.rs:2100-2133 | Refuses exactly the static, invalid, mismatched, reversed and overlong ranges, and otherwise enumerates |
| `Store.InoxSet.RevertAll` | src/lib.rs:1377-1415 | Of the buckets, exactly those that are over and marked compacted become closed again; no other mark, no list and no read changes |
| `Store.InoxSet.ReplaceBitmap` | src/lib.rs:2262-2376 | Refines a replacement of one set, pending changes discarded; the files of the parts it supersedes go and no others, the new part is of level 0 and the state stays; without ids left the key falls back to what was durable |
| `Store.InoxSet.BulkReplace` | src/lib.rs:2386-2505 | Refines a replacement of many sets, all or none of them durable; the files of superseded parts go and no others, and periods without a state become open |
| `Store.InoxSet.DeletePeriod` | src/lib.rs:412-444 | Refines the removal of one key from reads and disk; of all files exactly those of its parts go |
| `Store.InoxSet.DropEvent` | src/lib.rs:375-398 | Refines the removal of an event from reads and disk; of all files exactly those of its listed data parts go, those of its deltas stay |
| `Store.InoxSet.FlushInternal` | src/lib.rs:1437-1612 | Everything live becomes durable, exactly when the counter can serve the entries of the buffer; otherwise nothing is written and the drained buffer is lost; keys with data that had no state become open and no other state changes |
| `Store.InoxSet.Flush` | src/lib.rs:1430-1433 | Refines a flush; it succeeds exactly when the counter can serve the entries of the buffer, and moves the counter by them |
| `Store.InoxSet.Get` | src/lib.rs:1677-1770 | Returns exactly the ids the relation holds at the key, by the cached and the uncached path |
| `Store.InoxSet.CardinalityOf` | src/lib.rs:1819-1856 | In every state the count is the size of what a read returns, also on the fast path that trusts a compacted part's record |
| `Store.SoleDataPart` | src/lib.rs:1826-1850 | With one data part and no delta the recorded cardinality is the size of the key's fold |
| `Store.InoxSet.CompactPeriod` | src/lib.rs:2572-2694 | Compaction changes no read and nothing durable and leaves its key with one data part at most and no delta, marked compacted and one level above its parts, deletes exactly the files it merged, and touches no other key; it fails exactly when the key has several data parts or a delta and no id is left |
| `Store.InoxSet.CompactEvent` | src/lib.rs:2555-2569 | Afterwards every key of the event has one data part at most and no delta; it succeeds exactly when the counter can serve its eligible keys; reads and other events' keys do not move |
| `Store.InoxSet.Compact` | src/lib.rs:2522-2549 | Reads do not move; it succeeds exactly when the counter can serve all eligible keys, then every key has one data part at most and no delta, and a run that finds none eligible changes nothing |
| `Store.EligibleIsUntidy` | src/merge.rs:142-144 | A key is eligible exactly when it lists several data parts or a delta |
| `Store.UntidyShrinks` | src/merge.rs:142-144 | Keys left with nothing to merge leave the set of eligible keys, and no other key joins it |
| `Store.UntidyGrows` | src/merge.rs:142-144 | A flush makes at most one key eligible for every part it writes |
| `Store.InoxSet.Close` | src/lib.rs:2886-2895 | Closing flushes once, with the same exact condition for success, and not at all when read-only or closed before |
| `Runs.StepByRow` | src/lib.rs:1144-1160 | What one event does to one row in memory and on disk: it writes it, erases it, makes it durable, drops it back to what was durable, or leaves it |
| `Runs.LastWriterWins` | src/merge.rs:13-30 | In every history, whatever flushes, compactions, reopenings and failures it holds: reads show a row exactly when some event wrote it that was not lost and all later events that erased it were; the disk holds it exactly when the same is true of the events that reached it |
| `Runs.NothingLost` | src/merge.rs:13-30 | Without reopenings and with ids to spare nothing is lost, and the rule is the plain one |
| `Runs.RangeIsLoop` | src/lib.rs:1195-1257 | A range put or removal gives the same relation as the loop of single ones over the enumerated buckets |
| `RollupLaws.StepKeepsRollup` | src/rollup.rs:10-50 | Every operation but the ones that set a key outright keeps rollup containment, in memory and on disk |
| `RollupLaws.RollupContainment` | src/types.rs:174-207 | Over any such history of an Auto event a coarser level holds no id its children lack; without removals it is exactly their union |
| `Client.PerformWrite` | src/lib.rs:1123-1343 | A buffered write is one step of the simple model, with a flush after it exactly when it is admitted and leaves the buffer over the threshold; that flush succeeds exactly when the counter can serve it, and the cache moves with it only |
| `Client.Perform` | src/lib.rs:1123-2555 | Any operation on an open store: relation and answer are those of one step of the simple model, with a flush after it exactly when a write filled the buffer; an event runs out of ids only if the counter cannot give the ids the operation needs |
| `Client.Advance` | src/lib.rs:1123-2555 | Any operation, reopening included, is one or two steps of the simple model, answer included; an event runs out of ids only if the counter cannot give the ids the operation needs, and the load on the counter rises by no more than the operation's cost |
| `Client.Life.constructor` | src/builder.rs:198-289 | A life begins on an empty disk with nothing done |
| `Client.Life.Do` | src/lib.rs:1123-2555 | One operation appends its events to the history and its end, in steps of the disk and in events, to the list of ends; a crash at any step it takes recovers what was durable before it or what is durable after it, first the one and then the other; what crashes at earlier steps recover stays as it was |
| `Client.Life.CrashesAreSafe` | src/builder.rs:219-240 | After any number of steps of the disk a crash recovers a moment of the history, which never goes back and is the present at the last step; every operation ended by then is part of that moment |
| `Client.WorkIsCheap` | src/lib.rs:145 | Without bulk replacements n operations raise the load on the counter by at most 70272 ids each (four periods a bucket, once for the flush and once for its compaction, 8784 buckets), without range writes by at most eight each, without buffered writes by at most one each, and not at all without replacements either |
| `Client.Lifetime` | src/builder.rs:198-289 | From an empty disk, for any work: reads and disk follow last-writer-wins; a crash after any step of the disk recovers a moment of the history that never goes back and holds every operation ended by then; no event runs out of ids while the costs of the work stay below the limit |
| `Query.GetShared` | src/lib.rs:1630-1665 | The cached set overlaid with the buffer is what a plain read returns |
| `Query.MeaningById` | src/lib.rs:2020-2046 | An id is in the meaning of an expression exactly when the expression holds of it as a boolean formula over plain reads |
| `Query.OperandLaws` | src/lib.rs:2020-2046 | Conjunction and difference part the left operand between them, the difference shares nothing with the right one, and union and conjunction together count both operands |
| `Query.Query` | src/lib.rs:2020-2046 | Evaluation with short cuts equals the plain set meaning, and has exactly the ids the expression holds of |
| `Query.QueryCardinality` | src/lib.rs:2056-2093 | The count is the size of the set of ids the expression holds of, on the two leaf-pair paths and the general one |
| `Roaring.OnlyContainer` | src/part_store.rs:284-306 | With keys in order, the one container with the right key decides membership |
| `Search.FindContainer` | src/part_store.rs:284-306 | The binary search returns a container with the key, and misses none when keys are in order; every index stays in bounds on any bytes |
| `Search.ArrayContains` | src/part_store.rs:390-408 | Binary search of an array container equals a scan of it |
| `Search.RunsContain` | src/part_store.rs:361-389 | Binary search of ordered run containers equals a scan of them, except for exactly the values from the start of a last run that passes 65535 |
| `Search.SerializedContains` | src/part_store.rs:235-419 | For any bytes a positive answer is backed by them, read byte by byte; on bytes that ascend the answer is what they stand for; on ordered data it is exact but for an overlong run; where the format stores places it is what the format says; on every encoding of a set, with or without runs, it is membership in the set |
| `Bytewise.ReaderAgrees` | src/part_store.rs:235-419 | What the reader takes for the set and for order is what the bytes say, by the numbers of the format alone: cookies 3A 30 00 00 and 3B 30, two bytes for each of up to 4096 values, 8192 bytes above |
| `Bytewise.HeadersAgree` | src/part_store.rs:244-266 | The two cookies and the number of containers are recognised by their bytes |
| `Bytewise.ContainersFollow` | src/part_store.rs:246-250 | With runs and fewer than four containers the format stores no places, and each container follows the one before by its size |
| `Search.EncodingStarts` | src/part_store.rs:244-266 | Every encoding without runs starts with 3A 30 00 00 and the number of keys, every other with 3B 30 and that number less one |
| `Search.ContainerSizes` | src/part_store.rs:390-418 | A container that is no run takes two bytes for each value up to 4096 values, and 8192 bytes above |
| `Search.EncodingStandsFor` | src/part_store.rs:226-419 | The encoding of any set ascends and stands for exactly the members of the set, byte by byte |
| `Search.OneValueIsFound` | src/part_store.rs:235-419 | In the eighteen bytes of any set with one value the search finds that value and no other |
| `Search.SingleRunIsMissed` | src/part_store.rs:246-250 | For every key and run: in the format's own layout of one run container, without offsets, the format reads exactly the run, and the search finds no value at all |
| `Search.LongRunIsMissed` | src/part_store.rs:382-384 | In complete data, header, offset and all, that holds one run passing 65535: every value from its start on is in the run, and the search finds none of them |
| `Roaring.OffsetsReadTheFormat` | src/part_store.rs:320-359 | Where the format stores offsets, that is without runs or from four containers on, looking through them is reading the format, for all bytes and values |
| `Encoding.AssembledDescriptor` | src/part_store.rs:267-333 | Key, cardinality and offset of every container are read back from the assembled headers |
| `Encoding.AssembledBody` | src/part_store.rs:320-333 | The offset of a container points at its bytes |
| `Encoding.AssembledFlag` | src/part_store.rs:313-318 | The run flag of every container is read back from the packed flags |
| `Encoding.PackedBit` | src/part_store.rs:409-418 | A bit test on a packed byte returns the packed bit |
| `Encoding.EncodingIsFaithful` | src/part_store.rs:226-419 | The encoding of any set, with any of its keys stored as runs in any correct way, is in format order and holds exactly the members of the set |
| `LittleEndian.Le64At` | src/catalog.rs:219-226 | A field reads as a number exactly when its bytes are that number's |
| `LittleEndian.NumbersByByte` | src/catalog.rs:236-268 | In a field each byte counts 256 times the one before it |
| `Codec.ReadPeriodIsExact` | src/catalog.rs:94-213 | At any offset, reading gives a period and a length exactly when the period's bytes are there; so it fails exactly on truncated data and unknown tags |
| `Codec.SerializeIds` | src/catalog.rs:219-226 | Version byte, then eight bytes per id |
| `Codec.IdsByByte` | src/catalog.rs:219-226 | A list starts with the byte 1, and each id takes eight bytes, the lowest first |
| `Codec.PeriodByByte` | src/catalog.rs:94-140 | A period is the tag 0 to 4, its year in two bytes, the lower one first, and its other fields in one each |
| `Codec.DeserializeIds` | src/catalog.rs:236-268 | Undoes serialization of every list, accepts nothing else, and fails exactly on an empty, wrongly versioned or ragged input |
| `Codec.ReadTextIsExact` | src/catalog.rs:443-480 | A length-prefixed text is read exactly when its bytes are there |
| `Codec.SerializePart` | src/catalog.rs:290-331 | Refuses exactly the records whose name or path is over 65535 bytes, and puts version, id, kind, numbers and level in their places |
| `Codec.DeserializePart` | src/catalog.rs:339-493 | Returns a record exactly when the data starts with its bytes and its texts are valid UTF-8 |
| `Bits.RaiseBitEffect` | src/bloom.rs:55-61 | Raising a bit of a word changes that bit only |
| `Bloom.BitsAreProbes` | src/bloom.rs:116-118 | The first bit of an item is its first hash modulo the size, and the hash behind each next one is the one before plus the second hash, wrapped to 64 bits |
| `Bloom.BloomFilter.WithCapacity` | src/bloom.rs:30-42 | An empty filter of the computed size, but of 64 bits and one hash at least |
| `Bloom.BloomFilter.Insert` | src/bloom.rs:55-61 | Afterwards exactly the bits of the inserted items are set, the new one included |
| `Bloom.BloomFilter.Test` | src/bloom.rs:65-71 | Yes exactly when every bit of the item comes from some inserted item; an inserted item is never missed |
| `Inverted.InlineRoundTrip` | src/types.rs:308-330 | Both ids come back from a packed membership exactly when the event id leaves the flag bit free |
| `Inverted.InvertedIndexBuilder.Add` | src/inverted.rs:156-166 | Stages one row under the hash of the id |
| `Inverted.InvertedIndexBuilder.DistinctHashes` | src/inverted.rs:198-209 | The sizing pass counts exactly the different hashes |
| `Inverted.InvertedIndexBuilder.AppendGroup` | src/inverted.rs:226-239 | One group takes every row of its hash and puts every row's own id in the filter |
| `Inverted.InvertedIndexBuilder.GroupRows` | src/inverted.rs:217-246 | Entries strictly ascend by hash and their slices partition the memberships in order |
| `Inverted.InvertedIndexBuilder.Build` | src/inverted.rs:194-255 | The frozen index satisfies its invariant for any staged rows, colliding ids included |
| `Inverted.GroupIsMatching` | src/inverted.rs:217-246 | The slice of an entry is exactly the rows of its hash |
| `Inverted.InvertedIndex.MaybeContains` | src/inverted.rs:69-71 | Exactly the Bloom condition; true for every staged id |
| `Inverted.InvertedIndex.DefinitelyContains` | src/inverted.rs:77-79 | Exactly when the hash of some staged row is the same modulo 2^32; true for every staged id |
| `Inverted.InvertedIndex.FindEntry` | src/inverted.rs:88-90 | The binary search finds the entry of a hash or shows there is none |
| `Inverted.InvertedIndex.Lookup` | src/inverted.rs:84-105 | A staged id gets exactly the multiset of rows whose 64-bit hash is its own |
| `Inverted.InvertedIndex.Contains` | src/inverted.rs:108-112 | Exactly when the filter passes and some row of that hash names the event and period |
| `Sorting.FlatMapIgnoresOrder` | src/inverted.rs:194-196 | What lookups return does not depend on how the unstable sort orders equal hashes |
| `Reverse.NumberKeys` | src/lib.rs:203-224 | Every cached event and period gets a compact number that names it, as long as the lists fit |
| `Reverse.BuildFrozen` | src/lib.rs:200-277 | Refuses exactly more than 32767 events or 65536 periods; otherwise the index describes every resolvable member of every cached set once, and nothing else |
| `Reverse.PlacesAreKeys` | src/lib.rs:239-277 | Without a hash collision the index names exactly the cached sets that hold a number resolved to the id |
| `Reverse.ReverseLookup.RebuildInvertedIndex` | src/lib.rs:187-196 | A successful rebuild describes the present cache under the present dictionary; it refuses exactly when events or periods do not fit and then keeps the old index |
| `Reverse.ReverseLookup.Perform` | src/lib.rs:171-196 | Any operation on a store with a frozen index: relation and answer are those of the simple model; the index is rebuilt exactly when the operation committed, and a rebuild that refuses turns the answer into a configuration error; without a rebuild the index goes on describing the cache |
| `Reverse.ReverseLookup.Serve` | src/lib.rs:171-196 | Any sequence of operations and dictionary changes takes effect in order, on the relation and on the dictionary, and the index goes on describing the cache, unless a rebuild refuses |
| `Reverse.ReverseLookup.ServeAndFind` | src/lib.rs:491-549 | What a lookup then finds, for a usable id that passes the filters, is exactly what those changes, carried out one by one on the relation and the dictionary, leave behind |
| `Reverse.ReverseLookup.PutUnindexed` | src/lib.rs:496-505 | Any admitted put that does not flush, of a set with the number of an id the filters do not let through: a plain read of the key returns the id afterwards, the lookup finds nothing |
| `Reverse.PlacesOnce` | src/lib.rs:239-277 | Without a hash collision the index names no place twice |
| `Reverse.ReverseLookup.IndexAgrees` | src/lib.rs:491-549 | For a usable id, index places plus buffered additions less pending removals are exactly the keys whose plain read holds it |
| `Reverse.ReverseLookup.FindMemberships` | src/lib.rs:491-549 | Frozen lookup agrees with plain reads exactly when the filters pass or no set holds the id; always for an indexed id; no pair is returned twice |
| `Reverse.ReverseLookup.ContainsId` | src/lib.rs:630-684 | The same for one event and period |
| `Reverse.UnindexedIdIsMissed` | src/lib.rs:496-505 | A concrete run through the public operations, on a new store with default settings: an id first written after the index was built is not found although a plain read returns it |
| `Reverse.ContainsBit` | src/lib.rs:763-824 | Buffer, cache and pending removals together agree with the plain read of every key the cache can hold |
| `Reverse.ContainsIdByScan` | src/lib.rs:685-691 | With the index disabled the answer is that of the plain read |
| `Reverse.FindByScan` | src/lib.rs:551-617 | With the index disabled the answer is exactly the keys whose plain read holds the id, each once, among the events known at the last rebuild |
| `Dictionary.AssignEffect` | src/dict.rs:53-84 | A single assignment keeps the tables inverse to each other and below the counter, and fails exactly for a new string with 2^32 ids used |
| `Dictionary.Dict.AssignOrGet` | src/dict.rs:53-84 | The stored transaction is that assignment, and a failing one changes nothing |
| `Dictionary.Dict.Delete` | src/dict.rs:144-156 | Both directions disappear, every other string stays, and the counter does not move |
| `Dictionary.Dict.Lookup` | src/dict.rs:94-96 | The id of a known string, nothing for another |
| `Dictionary.Dict.ReverseLookup` | src/dict.rs:104-111 | The string that has the id, if any has |
| `Dictionary.Dict.WritePhase` | src/dict.rs:190-226 | The write transaction resolves what the read phase left open and commits all of it or nothing |
| `Dictionary.BatchIsSequence` | src/dict.rs:173-227 | The two phases together give the result and the tables of single assignments in order, repeated strings included |
| `Dictionary.Dict.BatchAssignOrGet` | src/dict.rs:173-227 | The batch returns what single assignments in order return; on failure it changes nothing |
| `Dictionary.BatchFailsWhenExhausted` | src/dict.rs:199-221 | A batch fails exactly when it brings more new strings than ids are left |
| `DictClients.StepIsSound` | src/dict.rs:53-84 | Any client's step, with others between its phases, keeps the invariant, answers truthfully and never gives an old id out again |
| `DictClients.AnswersStayTruthful` | src/dict.rs:137-143 | Whatever happens later, an id given in an answer keeps its one owner |
| `DictClients.IdsAreNeverReused` | src/dict.rs:137-156 | In every interleaved run, deletions included, no id answers two different strings |
| `DictClients.RacingClientsAgree` | src/dict.rs:45-50 | In every interleaved run without deletions, equal strings and equal ids go together in all answers |

## Left out

- I/O failures, `fsync`, LMDB and `mmap`: a commit, a file write and a deletion are atomic and durable steps; a failing read or write of a file is not modelled, and neither is the loss of the drained buffer it would cause.
- Free interleaving of public store calls: every public method runs alone. `compact_period` and `replace_bitmap` read id lists outside their write transaction, a reader can fall between the drain of the buffer and the publication of the cache, and `get_range` locks once per period; no claim of linearizability is made. (Dictionary clients do interleave.)
- PeriodRange.NextPeriodTiles: not for the last period of year 65535, where the 16-bit year of the code overflows; PeriodRange.EnumeratePeriods says when an enumeration gets there, and gives no value then, where a debug build panics and a release build goes on from year 0.
- Names.Reparse: periods of years after 9999 do not survive the text form of their key, so they stay out of the cache and out of reverse lookup; plain reads still find them on disk.
- Merge.MergeParts: parts carry distinct ids, which the catalog invariant provides; the run-optimised encoding of the result is not modelled.
- Propagation.DistinctRollupAncestors: the ordered set of the code is a plain set here, so the order in which ancestors are updated is free.
- WriteBuffer.MemPart.Discard: the size counter is left as it is when pending changes are thrown away, as in the code. So the counter is not a function of the buffered sets; what every other operation does to it is stated exactly.
- The converse catalog invariant (every part record is listed): false of the code, since dropping an event leaves delta records and files behind, and a bulk replacement with a repeated period leaves one record.
- Search.RunsContain: the end of a run is computed in 16 bits, here with the wrap of a release build; a debug build panics on a run that passes 65535, although the documentation promises no panic on malformed data.
- Search.SerializedContains: the branch for encodings without offsets can not be reached in the code and is left out. On such encodings the answer may still be right by accident of the bytes, so the condition in Roaring.OffsetsReadTheFormat goes one way; Search.SingleRunIsMissed is a family on which it is wrong.
- Encoding.EncodingIsFaithful: offsets are always written, as the comment at `src/part_store.rs:248-249` says of the library; how a writer picks runs is not modelled, any correct choice is covered.
- Bloom.BloomFilter.WithCapacity: the floating-point sizing formula is any function, raised to the floor of 64 bits and one hash as in the code; no false-positive rate is stated. The base hashes are any functions.
- Inverted.InvertedIndex.Lookup: offsets and counts are 32-bit copies, so exactness is stated below 2^32 rows; slices stay in bounds for any number.
- Inverted.InlineRoundTrip: the debug assertion that event ids stay below 0x7FFF is stricter than the round trip needs and is not modelled.
- Reverse.ReverseLookup.FindMemberships: a usable id has no hash collision with an indexed one and the number it had when the index was built; ids deleted and assigned anew since the last rebuild are outside. The order of the returned pairs is not stated.
- Reverse.ReverseLookup.Perform: the rebuild of the index follows the whole operation, while the code rebuilds right after each commit, before it deletes superseded files and, in a compaction, after every key. This differs only when a rebuild refuses (more than 65536 periods or 32767 events): the code then leaves those files to the next opening and stops the compaction, and no read shows either. Closing and reopening with a frozen index are not stated.
- Reverse.ContainsBit: for keys the cache can hold, see Names.Reparse.
- Codec.DeserializePart: texts are byte strings, UTF-8 validity is a parameter, and the lossy conversion of non-Unicode paths is not modelled. The event configuration codec and the byte codes of enumerations would be easy members.
- The lifecycle of period states: a Compacted mark may stand beside later parts; its use in `cardinality` and what every operation does to it are stated, but no rule over whole histories.
- A repeated `delete_entity`, UUID variants, the `Dictionary` wrapper, `put_ids`/`get_ids`, the batch lookups, `list_periods`, `retain_periods`, `get_range`, `exists`, the many-key cardinalities, metrics, health, export, the compaction log and the flush on drop are thin layers over what is modelled.
