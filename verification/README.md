# Top-N operator: a Dafny model

This project models the core of Presto's `TopNOperator`. The operator reads
pages of rows from a source operator and keeps the `n` rows that sort first
under a caller-supplied ordering of one key channel. It then hands those rows
back best first. While it works, it keeps a running estimate of the bytes it
holds. After each page it checks that estimate, plus a fixed overhead per kept
row, against a configured ceiling.

The model follows the operator's structure:

- `results.dfy` (module `Results`): the failures the operator raises, and a
  result type.
- `orderings.dfy` (module `Orderings`): tuples and comparators. A comparator
  is either the natural order of tuple values or the reverse of another
  comparator. `Rank` maps a tuple to an integer that sorts the way the
  comparator does.
- `selection.dfy` (module `Selection`): the reference meaning of "the first
  n". It has a plain definition, `FirstN` (insertion-sort the ranks, take a
  prefix), and a characterisation on multisets, `IsFirstN`. It also holds the
  multiset lemmas the rest of the model uses.
- `queues.dfy` (module `PriorityQueues`): the `java.util.PriorityQueue` the
  operator uses twice. It is a sequence kept in removal order, so the head is
  element 0. Entries with equal keys leave first in, first out. The JDK's
  heap breaks such ties in its own way, so see "## Left out" on ties.
- `pages.dfy` (module `Pages`): pages in column form, references to rows, and
  the rows of a page.
- `pruning.dfy` (module `Pruning`): `computePageCandidatePositions`, the
  per-page pruning scan.
- `merging.dfy` (module `Merging`): `mergeWithGlobalCandidates`. This covers
  the position sort, the cursor checks, the admit/evict step with its
  byte-size delta, and `getTuples`.
- `topn.dfy` (module `TopN`): the constructor's checks, `selectTopN` (the page
  loop, the memory check and the drain), and the whole operator as
  `SelectTopN`.
- `topn_proofs.dfy` (module `TopNProperties`): properties that relate
  several runs. The answer does not depend on how rows are cut into pages.
  Pruning never changes which keys are kept. A ceiling too low for `n` rows
  always aborts.

Orientation. The constructor stores the caller's ordering reversed
(TopNOperator.java line 51). Both priority queues are ordered by that
reversed comparator. So the head of a queue is the WORST row it keeps under
the caller's ordering, and it is the first to be evicted. The model keeps
the caller's ordering in `TopNOperator.callerOrdering` and derives
`QueueOrdering()` from it. Every statement about which keys are kept is made
on their ranks under the caller's ordering (`Kept`).

The memory estimate is modelled literally, for a given choice of which row
is evicted (see "## Left out" on ties):

- an admission into a queue with room adds the row's tuple sizes;
- an eviction subtracts the evicted row's tuple sizes, adds the new row's
  tuple sizes, and adds the key's size once more;
- the check compares the estimate plus the CURRENT number of kept rows times
  100 against the ceiling.

`OfferBytes` states this exactly for one offer. `OfferAll`,
`MergeWithGlobalCandidates`, `PruneAndMerge` and `ProcessPage` state it
exactly for a whole page: the estimate grows by the change in bytes held plus
the key bytes charged again by the evicting offers. So the estimate is never
below the bytes held. An offered row adds at most its cost: its tuple bytes
plus its key's bytes once more (`RowCost`). That gives the other direction of
the check: `IngestWithinCeiling` shows that a ceiling covering the overhead
of `n` rows plus a bound on the cost of every row read is never exceeded.

Points of the code that a reader might not expect, all followed by the model:

- The rows come out ASCENDING under the caller's ordering, that is best
  first. The class comment (line 23) only says "sorted according to the
  specified ordering". But the queues use the reversed ordering (line 51),
  and the removal order is reversed once more (lines 137–141).
- The memory check (line 132) multiplies the overhead by the current number
  of kept rows, `globalCandidates.size()`, not by `n`.
- The constructor checks its arguments at lines 41–46 but never checks
  `maxSize` for null. The model takes it as a plain `nat`.

## Model

Source paths are relative to the repository root.

| member | source | states |
|---|---|---|
| TopN.NewTopNOperator | presto-main/src/main/java/com/facebook/presto/operator/TopNOperator.java:39-52 | The constructor succeeds exactly when source, projections and ordering are present, `n > 0`, `keyChannel >= 0` and the projections are non-empty. Each failure is pinned to its kind and the source's message, in the source's check order: a null source, projections or ordering is a null-argument failure; a bad `n`, key channel or empty projections is an illegal-argument failure. On success the queue comparator is the caller's ordering reversed. |
| Orderings.Compare | presto-main/src/main/java/com/facebook/presto/operator/TopNOperator.java:51 | The comparator is negative, zero or positive exactly when the first key's rank is below, equal to or above the second's. Under `Reverse` the ranks are negated, so every comparison flips. |
| PriorityQueues.Peek | presto-main/src/main/java/com/facebook/presto/operator/TopNOperator.java:147 | The head of a queue sorts no later than any entry. |
| PriorityQueues.Remove | presto-main/src/main/java/com/facebook/presto/operator/TopNOperator.java:156 | Removal leaves an ordered queue; the head followed by the rest is the old queue. |
| PriorityQueues.Add | presto-main/src/main/java/com/facebook/presto/operator/TopNOperator.java:153 | Adding keeps the queue ordered, adds exactly the one entry as a multiset, and grows the length by one. |
| PriorityQueues.HeadIsWorst | presto-main/src/main/java/com/facebook/presto/operator/TopNOperator.java:51 | Under the reversed comparator the head holds the greatest caller-order rank in the queue: it is the worst row kept. |
| PriorityQueues.AddKeepsFirstN | presto-main/src/main/java/com/facebook/presto/operator/TopNOperator.java:180-186 | Adding to a queue with room keeps the first n of what it held plus the new key. |
| PriorityQueues.ReplaceKeepsFirstN | presto-main/src/main/java/com/facebook/presto/operator/TopNOperator.java:187-194 | Evicting the head of a full queue for a key that beats it keeps the first n of what it held plus the new key. |
| PriorityQueues.RejectKeepsFirstN | presto-main/src/main/java/com/facebook/presto/operator/TopNOperator.java:187 | Passing over a key that does not beat the head of a full queue keeps the first n. |
| Pruning.ComputePageCandidatePositions | presto-main/src/main/java/com/facebook/presto/operator/TopNOperator.java:144-162 | It returns at most n references, each naming a different real position and carrying that position's key. When the global queue is full, each one strictly beats the global head. Every key passed over is no better than the global head (global queue full) or no better than every key kept (page queue full). |
| Pruning.PruneStep | presto-main/src/main/java/com/facebook/presto/operator/TopNOperator.java:151-158 | One cursor step keeps the page queue ordered and within n entries. |
| Pruning.PruneStepAdmits | presto-main/src/main/java/com/facebook/presto/operator/TopNOperator.java:151-158 | After one step, every reference held names a scanned position, carries its key, and beats a full global queue's head. |
| Pruning.PruneStepCovers | presto-main/src/main/java/com/facebook/presto/operator/TopNOperator.java:151-158 | After one step, every key scanned but not held is covered: it is no better than the global head, or no better than all held keys. |
| Pruning.PruneFrom | presto-main/src/main/java/com/facebook/presto/operator/TopNOperator.java:149-161 | The scan from any position on ends with admissible, covering references for the whole key block. |
| Pruning.PrunedFirstN | presto-main/src/main/java/com/facebook/presto/operator/TopNOperator.java:151 | If the merge keeps the first n of the held keys plus the surviving keys, it also keeps the first n of the held keys plus ALL the page's keys. |
| Merging.SortByPosition | presto-main/src/main/java/com/facebook/presto/operator/TopNOperator.java:169 | The references come out as a permutation in ascending position order. |
| Merging.SortedWithinAdvance | presto-main/src/main/java/com/facebook/presto/operator/TopNOperator.java:176-179 | For position-sorted references, every cursor can advance to each position in turn exactly when every position lies within the page. |
| Merging.GetTuples | presto-main/src/main/java/com/facebook/presto/operator/TopNOperator.java:206-215 | There is one tuple per channel, and the key channel holds the reference's own key. |
| Merging.GetTuplesIsRow | presto-main/src/main/java/com/facebook/presto/operator/TopNOperator.java:206-215 | When the reference carries its row's key, the tuples are exactly that row of the page. |
| Merging.Offer | presto-main/src/main/java/com/facebook/presto/operator/TopNOperator.java:180-200 | An offer keeps the global queue ordered and within n rows. |
| Merging.OfferContents | presto-main/src/main/java/com/facebook/presto/operator/TopNOperator.java:180-200 | With room, the materialised row is added. On a strict beat of a full queue's head, the head is replaced by it. Otherwise nothing changes and the delta is 0. |
| Merging.OfferKeepsFirstN | presto-main/src/main/java/com/facebook/presto/operator/TopNOperator.java:180-200 | After an offer the queue keeps the first n caller-order keys of what it held plus the offered key. |
| Merging.OfferBytes | presto-main/src/main/java/com/facebook/presto/operator/TopNOperator.java:182-198 | The size delta equals the change in bytes held, plus the key's size when the offer evicts. It is never more than the offered row's cost: its tuple bytes plus its key's bytes. |
| Merging.OfferRows | presto-main/src/main/java/com/facebook/presto/operator/TopNOperator.java:181-194 | Every row held after an offer was held before or is a row of the page. |
| Merging.OfferAll | presto-main/src/main/java/com/facebook/presto/operator/TopNOperator.java:176-203 | Offering references in turn keeps the queue ordered and within n. It keeps the first n of what it held plus every offered key. The accumulated delta is exactly the change in bytes held plus the key bytes of the evicting offers, and at most the summed cost of the offered rows. Kept rows are held rows or page rows. |
| Merging.RefsCostBound | presto-main/src/main/java/com/facebook/presto/operator/TopNOperator.java:180-199 | References to page rows that each cost at most `b` cost at most `b` apiece in total. |
| Merging.MergeWithGlobalCandidates | presto-main/src/main/java/com/facebook/presto/operator/TopNOperator.java:164-204 | The merge fails exactly when some reference lies outside the page, and then with the cursor failure. On success it keeps the first n, and its delta is exactly the change in bytes held plus the key bytes of the evictions, with the references offered in position order. References to page rows always merge, and keep only held or page rows. |
| Merging.MergeCost | presto-main/src/main/java/com/facebook/presto/operator/TopNOperator.java:164-204 | A merge of references to rows that each cost at most `b` succeeds and grows the estimate by at most `b` per reference. |
| TopN.PruneAndMerge | presto-main/src/main/java/com/facebook/presto/operator/TopNOperator.java:129-130 | Pruning then merging keeps the first n of what was held plus EVERY key of the page. The delta is exactly the change in bytes held plus the key bytes of the page's evictions, and only held or page rows are kept. |
| TopN.PageCost | presto-main/src/main/java/com/facebook/presto/operator/TopNOperator.java:129-130 | A page whose rows each cost at most `b` grows the estimate by at most `b` times the smaller of n and the page's row count. |
| TopN.ProcessPage | presto-main/src/main/java/com/facebook/presto/operator/TopNOperator.java:128-134 | A page aborts, with the ceiling exceeded, exactly when the estimate after the merge plus 100 bytes per kept row is above the ceiling. Otherwise the new state is within the ceiling; it keeps the first n keys of what was held and of the page; its estimate grew by exactly the bytes added plus the key bytes of the evictions; and it holds only held or page rows. |
| TopN.ProcessPageCost | presto-main/src/main/java/com/facebook/presto/operator/TopNOperator.java:128-134 | A page whose rows each cost at most `b` does not abort when the estimate, plus `b` per row it could offer, plus the overhead of n rows, is within the ceiling. The estimate then grows by at most that much. |
| TopN.Ingest | presto-main/src/main/java/com/facebook/presto/operator/TopNOperator.java:126-136 | Over all pages: the only failure is the ceiling. On success the queue keeps the first n keys of every page and respects the ceiling. The estimate bounds the bytes held, and only rows that were read are kept. |
| TopN.IngestWithinCeiling | presto-main/src/main/java/com/facebook/presto/operator/TopNOperator.java:124-135 | Rows read that each cost at most `b` never abort a run whose estimate plus `b` per row read plus the overhead of n rows fits under the ceiling. The estimate grows by at most `b` per row read. |
| TopN.Drain | presto-main/src/main/java/com/facebook/presto/operator/TopNOperator.java:137-141 | The output is a permutation of the queue, of the same length, in descending queue order. |
| TopN.ReversedDescends | presto-main/src/main/java/com/facebook/presto/operator/TopNOperator.java:141 | Reversing the removal order turns ascending into descending queue order. |
| TopN.DrainedIsReference | presto-main/src/main/java/com/facebook/presto/operator/TopNOperator.java:137-141 | The drained rows' caller-order ranks equal the reference `FirstN` of all input keys, and there are `min(n, total)` of them. |
| TopN.SelectTopN | presto-main/src/main/java/com/facebook/presto/operator/TopNOperator.java:122-142 | It fails exactly when the run over all pages fails the line-132 check, and then with the ceiling error. That cannot happen when the ceiling covers 100 bytes for each of n rows plus, for every row read, the largest row cost read. On success the output's ranks ARE the ascending reference `FirstN` of every key read, with `min(n, total)` rows. Every row returned was read, and its bytes plus the per-row overhead fit under the ceiling. The rows returned are a permutation of those the global queue holds after the last page. |
| TopN.InputMaxCost | presto-main/src/main/java/com/facebook/presto/operator/TopNOperator.java:132 | The largest row cost read: no row read costs more, some row read costs exactly this, and it is 0 when nothing is read. |
| TopNProperties.FirstNDependsOnBag | presto-main/src/main/java/com/facebook/presto/operator/TopNOperator.java:122-142 | The reference answer depends only on the multiset of keys. |
| TopNProperties.BatchingIndependent | presto-main/src/main/java/com/facebook/presto/operator/TopNOperator.java:126-135 | Two runs over the same keys cut into pages differently keep the same keys, when neither run aborts. |
| TopNProperties.PruningIrrelevant | presto-main/src/main/java/com/facebook/presto/operator/TopNOperator.java:144-162 | Merging every row of a page never fails and keeps the same keys as merging only the rows that survive pruning. |
| TopNProperties.CeilingTooLowAborts | presto-main/src/main/java/com/facebook/presto/operator/TopNOperator.java:132-134 | With at least n rows read, each of at least `b` bytes, a ceiling below `n * (b + 100)` always aborts with the ceiling exceeded. |

## Left out

- Projections and the output page builder (lines 93–114) are left out. The operator's result is modelled as the sequence of kept rows, best first, before projection.
- The iterator lifecycle is left out: lazy first call, `endOfData`, `doClose` and closing the source. The channel-info accessors (lines 54–71) are left out too. None of these affect which rows are selected.
- `MAX_INITIAL_PRIORITY_QUEUE_SIZE` (line 28) only sizes the queues' initial capacity, so it is not modelled.
- The failure message is reduced to the ceiling. Its text formatting via `DataSize` is not modelled.
- Tuples are an integer value and an encoded byte size. Comparators are the natural order of values or a reversal of a comparator. Arbitrary Guava orderings over tuples are not modelled.
- Ties between equal keys are left open. `java.util.PriorityQueue` does not fix their order. All selection properties are stated on the multiset of key ranks, so which of several tied rows is kept is not determined.
- TopN.ProcessPage: of several tied heads, the model evicts the one inserted first, both in the page queue and in the global queue. The source's binary heap may evict a different one, since after a removal its sift-down can leave a later entry at the root. When tied rows differ in bytes, the estimate, and so whether a page aborts at line 132, can then differ from the source's. The ranks of the kept keys cannot differ. The byte and ceiling statements of `Offer`, `OfferAll`, `MergeWithGlobalCandidates`, `PruneAndMerge`, `ProcessPage`, `Ingest` and `SelectTopN` hold for the model's tie rule only.
- Java `long` and `int` arithmetic is not modelled: the estimate and positions are unbounded integers, so overflow of the running estimate is not modelled.
- Merging.MergeWithGlobalCandidates: a cursor that cannot reach a position is modelled as one check over all sorted positions before any offer. The source fails at the offending reference, after earlier offers, but the operator aborts either way and the partial queue is never observed.
- Page shape is a precondition: every block has `positionCount` tuples and the key channel exists. The source is more permissive, and more varied:
  - Against a missing key channel it fails with an unchecked index error.
  - Against a non-key block shorter than the key block it fails the cursor check at line 178, but only when a surviving reference lies at or past that block's end.
  - A non-key block longer than the key block is accepted by the source, since only the key block is scanned (line 148) and the other cursors only advance to referenced positions (lines 176–179).
  - The model's merge has the line-178 failure (`CursorAdvanceFailed`), but only for references outside the page, and pruning never produces those.
  - So at operator level this precondition excludes both shapes, and `ProcessPage`, `Ingest` and `SelectTopN` promise that the ceiling is the only failure only for rectangular pages.
- TopN.SelectTopN: `maxSize` is a `DataSize` that the constructor never checks, and line 132 calls `maxSize.toBytes()`. A null ceiling therefore fails with a null dereference at the first page, and nothing at all when the source yields no page. The model takes `maxSize` as a `nat` and has no such failure.
- TopN.NewTopNOperator: projections are a `seq<Projection>`, which cannot hold null. So the failure of `ImmutableList.copyOf` (line 50) on a null element is not modelled, and "succeeds exactly when" holds for projections without nulls.
- Merging.OfferRows, TopN.Ingest, TopN.SelectTopN: where a returned row comes from is stated as set membership among the rows read. Multiplicities of rows are stated on keys only.
- TopN.Ingest: over several pages the estimate is bounded below by the bytes held, and above by `IngestWithinCeiling`. The exact relation is stated page by page by `ProcessPage`, not summed over a run.
