# Differential history transfer accessor, in Dafny

A model of `test.c` from DifferentialHistoryTransferAccesor. The program keeps a history ("bucket") of at
most seven 16-bit payloads, with the newest entry at index 0. Each insertion stores the next value of
a counter that goes up by one each time. When the bucket is full, the oldest entry is lost. Beside the
history sits a *differential accessor*: the cursor `diffAccessor` counts the live entries not yet handed
to the reader. `getFromDifferentialAccessor` hands them out oldest first, and a later transfer returns only
what was added since. `initDifferentialAccessor` marks every live entry as pending again.

The project has three modules:

- `BucketSpec` (`bucket_spec.dfy`) holds the four globals as one value, `BucketState`, and each
  operation as a function on that value. It adds:
  - `Drain`, what a reader collects by fetching until the call returns FALSE;
  - `AddItems`, several insertions in a row;
  - lemmas for what the program promises.

  The central invariant is `Valid`, which has two parts:
  - `Bounded`: `diffAccessor <= bucketItemQty <= bucketSize`, as the comment on `diffAccessor` promises;
  - `Consistent`: the check `printBucket` performs, that the live entries are the consecutive payloads
    counting down from `bucketNewPayload - 1` in 16-bit arithmetic.
- `BucketImpl` (`bucket_impl.dfy`) is the program's own form. A class holds:
  - the storage as an array of seven words;
  - the counters as fields;
  - one method per C function.

  `addItemInBucket`'s `memmove` is a loop that copies from the highest index down. Each method is proved to
  perform exactly the transition of the function of the same name and to keep `Valid`. The `word*`
  argument of `getFromDifferentialAccessor` is a `WordCell?`; `null` is the NULL pointer.
- `UnitTests` (`unit_tests.dfy`) specifies the eight scenarios of `unitTests` on one bucket. It proves the values
  each read loop collects:
  - test 1: 1..7;
  - test 2: 1..7 again;
  - test 3: 8, 9, 10;
  - test 4: 11..19;
  - test 5: nothing;
  - tests 6 and 7: 21, 22;
  - test 8: 25..31.

Test 3 (test.c:224-231) adds three items to a full bucket and reads back only `[8, 9, 10]`, not the
seven live entries `[4, ..., 10]`. Test 2 left `diffAccessor` at 0, so only the three new items are
pending (`DrainAfterExhaustion`, `UnitTests.InsertThenRead`). Reading `[4, ..., 10]` would need
`initDifferentialAccessor` first (`DrainAfterInit`).

## Model

| member | source | states |
|---|---|---|
| BucketSpec.FlushBucket | test.c:55-60 | the result is consistent, and has no live and no pending entry; the storage and the next payload stay the same |
| BucketSpec.InitBucket | test.c:62-66 | as for a flush, and the next payload is 1 again |
| BucketSpec.AddItemInBucket | test.c:68-79 | the next payload goes up by one, wrapping at 16 bits; `bucketItemQty` and `diffAccessor` each go up by one, capped at 7; both the counter invariant and the consistency check are preserved |
| BucketSpec.InitDifferentialAccessor | test.c:98-101 | the pending entries become exactly the live entries; nothing else changes; a consistent bucket stays valid |
| BucketSpec.GetFromDifferentialAccessor | test.c:103-113 | TRUE exactly when an entry is pending and the bucket is not empty; on FALSE nothing changes, including the pointee; with a non-NULL pointer a TRUE call steps the cursor back by one and writes the entry at the new cursor through the pointer; with NULL nothing changes; the invariants are preserved |
| BucketSpec.AddItemsEffect | test.c:68-79 | after `k` insertions the counters are `min(count + k, 7)`, the next payload has advanced by `k` (wrapping at 16 bits), and validity holds |
| BucketSpec.AddItemsCompose | test.c:68-79 | `m + n` insertions are `m` insertions followed by `n` more |
| BucketSpec.FlushLeavesNothing | test.c:55-60 | after a flush no fetch succeeds, whatever the pointer, and a transfer yields nothing |
| BucketSpec.AddItemShifts | test.c:70-72 | the new payload is at index 0; each moved entry is one slot further; the slots beyond the moved range are untouched |
| BucketSpec.AddItemDetermined | test.c:70-78 | conversely, any state with that shift and those counter updates is the result of an insertion |
| BucketSpec.AddItemViews | test.c:68-79 | the live and the pending entries become the new payload followed by the old ones, cut at the new counts, so the oldest entry is lost only when a count was saturated |
| BucketSpec.InitAccessorIdempotent | test.c:98-101 | resetting the accessor twice is the same as once |
| BucketSpec.FetchYieldsOldest | test.c:104-113 | a fetch through a pointer with an entry pending succeeds, yields the oldest pending entry, and removes exactly that entry from the pending ones |
| BucketSpec.FetchValue | test.c:106-110 | on a consistent bucket the fetched value is `bucketNewPayload - diffAccessor`, the `diffAccessor`-th most recent payload |
| BucketSpec.DrainAscends | test.c:194-201 | on a consistent bucket each value a transfer yields is its predecessor plus one in 16-bit arithmetic, and greater unless the counter wrapped |
| BucketSpec.FetchAfterAdding | test.c:125-137 | a fetch, then `k` insertions, then a fetch: the second fetch succeeds exactly when something is pending, and yields the first value plus one plus the number of pending entries the insertions pushed out (16-bit arithmetic) |
| BucketSpec.DrainYieldsUnread | test.c:23-26 | a transfer yields exactly the pending entries, oldest first |
| BucketSpec.UnreadConsecutive | test.c:88-90 | on a consistent bucket the pending entries, oldest first, are the last `diffAccessor` payloads inserted, in order |
| BucketSpec.DrainOfValid | test.c:14-16 | on a consistent bucket a transfer yields the last `diffAccessor` payloads inserted, in insertion order |
| BucketSpec.DrainOfAdded | test.c:16-17 | after `k` insertions a transfer yields the last `min(diffAccessor + k, 7)` payloads inserted |
| BucketSpec.DrainAfterAdding | test.c:16-17 | after `k` insertions, the old pending values followed by the `k` new ones split in two: the values lost to overflow, then exactly what the next transfer yields. Loss happens only from the old end |
| BucketSpec.DrainAfterOverflow | test.c:17 | after at least 7 insertions a transfer yields exactly the last 7 payloads |
| BucketSpec.DrainAfterExhaustion | test.c:16 | once everything was read, a transfer after `k <= 7` insertions yields exactly those `k` payloads |
| BucketSpec.DrainAfterInit | test.c:21-22 | after `initDifferentialAccessor` a transfer yields every live entry, oldest first; these are the last `bucketItemQty` payloads |
| BucketSpec.RoundYieldsInserted | test.c:232-237 | with nothing pending, an insertion followed at once by a fetch returns the payload just inserted, leaves nothing pending, and keeps the bucket consistent |
| BucketImpl.Bucket.constructor | test.c:43-53 | the static initialisation: no entries, cursor 0, next payload 1, which is a valid state |
| BucketImpl.Bucket.FlushBucket | test.c:55-60 | performs `BucketSpec.FlushBucket` on the globals and keeps `Valid` |
| BucketImpl.Bucket.InitBucket | test.c:62-66 | performs `BucketSpec.InitBucket` on the globals and keeps `Valid` |
| BucketImpl.Bucket.AddItemInBucket | test.c:68-79 | the in-place shift loop and the counter updates perform `BucketSpec.AddItemInBucket` and keep `Valid` |
| BucketImpl.Bucket.InitDifferentialAccessor | test.c:98-101 | performs `BucketSpec.InitDifferentialAccessor` and keeps `Valid` |
| BucketImpl.Bucket.GetFromDifferentialAccessor | test.c:104-113 | the return value, the new globals and the pointee are those of `BucketSpec.GetFromDifferentialAccessor`, for a NULL and for a non-NULL pointer |
| UnitTests.FetchOnce | test.c:165-193 | one call through a fresh local word set to `0xFFFF`: the outcome of `BucketSpec.GetFromDifferentialAccessor`, and on FALSE the word still holds `0xFFFF` |
| UnitTests.Insert | test.c:211-213 | `k` insertions give counts `min(count + k, 7)` and a next payload advanced by `k`, keeping `Valid` |
| UnitTests.Transfer | test.c:214-217 | `n` fetches, each through a fresh local word, collect `min(n, diffAccessor)` values: the oldest pending payloads in order, which is the whole transfer when `n` is large enough; only the cursor changes |
| UnitTests.InsertThenFetch | test.c:234-235 | one insertion, then `FetchOnce`, as the composed spec functions say |
| UnitTests.InsertAndRead | test.c:232-237 | test 4: with nothing pending, `n` rounds collect exactly the `n` payloads inserted; afterwards nothing is pending, the bucket holds `min(count + n, 7)` entries, and the next payload has advanced by `n` |
| UnitTests.TakeAllFromFull | test.c:209-217 | test 1 collects 1..7 and leaves 7 entries, nothing pending and next payload 8 |
| UnitTests.ReadAgain | test.c:218-223 | tests 2 and 7: after `initDifferentialAccessor` a read loop collects every live entry again |
| UnitTests.InsertThenRead | test.c:224-231 | tests 3, 6 and 8: insertions into a fully read bucket, then a read loop collects the last `min(k, 7)` of them |
| UnitTests.FlushThenRead | test.c:238-242 | test 5: after an insertion and a flush the first fetch returns FALSE |
| UnitTests.FirstScenarios | test.c:209-237 | tests 1 to 4 in order collect 1..7, 1..7, 8..10 and 11..19, and leave 7 entries, nothing pending and next payload 20 |
| UnitTests.LastScenarios | test.c:238-261 | from 7 entries, nothing pending and next payload 20, tests 5 to 8 collect nothing, 21..22, 21..22 and 25..31, and leave 7 entries, nothing pending and next payload 32 |
| UnitTests.RunUnitTests | test.c:206-264 | from the initial state the eight tests collect exactly the values the program's oracle expects |

## Left out

- `printBucket` prints the live entries and a warning (test.c:81-91). The printing is not modelled. The
  condition it warns about is the predicate `BucketSpec.Consistent`, and the model proves it always holds.
- The decorated wrappers and their oracle (`numberOfInsertedItems`, `valueOfOldestItem`, test.c:121-204)
  are not modelled, and neither are the verbose `printf`/`sprintf` output and `main`. Their checks are
  stated as contracts instead. `UnitTests.FetchOnce` and `BucketImpl.Bucket.GetFromDifferentialAccessor`
  state that a failed fetch leaves the word unchanged. `DrainAscends` and `FetchAfterAdding` state that
  each value is the expected successor of the previous one. The `UnitTests` methods state which values
  the read loops collect.
- `memmove` is modelled at the level of whole words, as a copy from the highest index down. Byte-level
  behaviour is not modelled.
- `bucketItemQty` and `diffAccessor` are `nat` rather than 16-bit words. They never exceed 7, so no
  wrap-around can occur. `bucketNewPayload` wraps explicitly at 16 bits (`ToWord`).
- Aliasing between `payloadRef` and the globals, such as passing `&diffAccessor` or `bucket + i`, is not
  modelled: the pointee is a separate `WordCell`.
- BucketSpec.DrainAscends: successive values increase strictly only while the 16-bit payload counter
  does not wrap. Across the wrap the model states the successor relation modulo 2^16 in place of "greater",
  and so does `BucketSpec.FetchAfterAdding`.
