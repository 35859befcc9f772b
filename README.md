# sequences-php, modelled in Dafny

This project models the lazy sequence engine of the PHP library
`bradynpoulsen/sequences-php` and proves properties of the model. The library
builds pipelines of intermediate stages over a source (`filter`, `map`,
`windowed`, `zip`, ...). Nothing runs until a terminal operation (`count`,
`first`, `sum`, `groupBy`, ...) pulls elements through the chain.

The model has four layers, with the same structure as the library:

- **The pull cursor.**
  - `Cursors.Iteration` is one class for `AbstractIteration` and its two concrete subclasses. It has the fields `state` (NOT_READY, READY, CLOSED, FAILED), `nextValue` and `nextIndex`.
  - An `IteratorIteration` is an `Adapter` over an external iterator. A `ComputingIteration` is `Computing`: either a root step script or `FilteringSequence`'s linked step over an upstream cursor.
  - Ghost fields record what a cursor has published (`Emitted`), what has been handed out (`Plucked`) and, for finite chains, the whole sequence it must produce (`Whole`).
  - `Iterations` builds and converts cursors. `ForEach` models PHP's `foreach` over a cursor.
- **Once-only and deferred plumbing.** `DeferredIterator`, `ConstrainedOnceSequence` and `TraversableSequence` are classes whose fields are nulled in place. A second use yields `Err(AlreadyIterated(...))`, which carries the sequence.
- **Intermediate stages.**
  - Each stage is a reference function over `seq<T>`: `Filtered`, `DistinctBy`, `Sort`, `Windows`, `Zipped`, `Adjacent`, `Merged`, `MapIndexed`, `Flattened`.
  - Where the library loops, a method with loop invariants is proved equal to that function.
  - The trait compositions are expressed in terms of the stages: `chunked`, `minus`, `onEach`, `constrainOnce`, `filterNot`, `sorted*`, and `windowed` with a transform.
- **Terminal reducers.** Searches, counts, extremes, sums, folds, associations and groupings. Each is a loop method tied to a reference function or quantifier. The "Nothing" sentinel becomes `Option`. Exceptions become an `Error` value in a `Result`. The value names the exception. `InvalidArgument` keeps the message built by the argument and type checks. `IndexOutOfRange` keeps the index that `elementAt`'s message names. `AlreadyIterated` keeps the sequence. Some constructors merge several exceptions:
  - `NoMatch` stands for both UnexpectedValueException messages: "No element matched the given predicate" from `first` and `last`, and "Expected exactly one element matching given predicate" from `single`.
  - `NotRewindable` stands for a cursor's BadMethodCallException "This iterator cannot be rewound", and also for a Generator's own refusal to be rewound or traversed again.
  - `TypeMismatch` stands for any TypeError, including the call of a generating sequence's builder after `close()` has set it to null.
  - `CallbackFailed` stands for whatever a user callback or an external iterator throws, and for PHP's Error from calling a method on an adapter's released (null) iterator.
  - `UndefinedMethod` and `ClassNotFound` stand for PHP's Error on a call to an undeclared static method and on a `new` of an unknown class (see Findings).
  - `IterationFailed`, `NoMoreElements`, `MoreThanOne` and `EmptySequence` each stand for one exception with a fixed message, and carry nothing.

External PHP iterators (an `ArrayIterator` that can be rewound at any time, or
a `Generator` that cannot be rewound once advanced) are `Sources.SourceIterator`.
Untyped PHP values, where the code inspects their type, are `Values.Value`.

## Model

| member | source | states |
|---|---|---|
| `Cursors.InertStepKeepsState` | src/Iteration/AbstractIteration.php:52-58 | A step that neither publishes nor closes leaves the state it was given, so `tryComputeNext`'s FAILED stays FAILED. |
| `Cursors.PublishingStepIsReady` | src/Iteration/AbstractIteration.php:70-74 | A step that calls `setNext` before any throw, and afterwards only skips or publishes, leaves the cursor READY. |
| `Cursors.ReadyStaysReady` | src/Iteration/AbstractIteration.php:70-79 | `setNext` and `skipping` never take a READY cursor out of READY. |
| `Cursors.FilteredPrefixOf` | src/Operations/Stateful/FilteringSequence.php:53-64 | The filter output over a prefix of the upstream is a prefix of the output over the whole upstream, so the filter can produce lazily. |
| `Cursors.FilteredPulled` | src/Operations/Stateful/FilteringSequence.php:54-60 | Pulling one more upstream element adds it to the output iff its verdict at its own position equals `sendWhen`. |
| `Cursors.Iteration.FromIterator` | src/Iteration/IteratorIteration.php:24-27 | A new adapter is NOT_READY, has index -1 and no pending value, and has produced nothing. Its whole output will be the source's items. |
| `Cursors.Iteration.Rooted` | src/Iteration/ComputingIteration.php:22-26 | A root cursor holds its step and no upstream, starts NOT_READY with index -1, and is not finite. |
| `Cursors.Iteration.Linked` | src/Iteration/ComputingIteration.php:22-26 | A linked filter cursor holds the upstream and the filter step. Its whole output is `Filtered` of the upstream elements not yet plucked. It is healthy when its upstream is. |
| `Cursors.Iteration.HasNext` | src/Iteration/AbstractIteration.php:27-39 | FAILED raises "Iteration failed!". CLOSED gives false and READY gives true, both with no field changed. From NOT_READY it runs the step once with the index one higher and gives true iff the step left READY. A finite cursor that gives false has produced its whole sequence. |
| `Cursors.Iteration.PluckNext` | src/Iteration/AbstractIteration.php:41-50 | Raises OutOfBounds when there is no next element. Otherwise hands out the pending value, which is the next element of the whole sequence, clears it and returns to NOT_READY. |
| `Cursors.Iteration.TakePending` | src/Iteration/AbstractIteration.php:46-49 | Hands out the pending value, clears it, returns to NOT_READY and appends the value to what has been plucked. |
| `Cursors.Iteration.TryComputeNext` | src/Iteration/AbstractIteration.php:52-58 | One more step run and an index at least one higher. For a root step, the state is the one its calls leave starting from FAILED, and the result is true iff READY, or an error iff the step threw. |
| `Cursors.Iteration.BeginStep` | src/Iteration/AbstractIteration.php:54-55 | Sets FAILED and raises the index by exactly one before the step runs. |
| `Cursors.Iteration.ComputeNext` | src/Iteration/ComputingIteration.php:28-35 | A root step leaves the state its calls produce from FAILED, and fails iff it threw. On a healthy cursor the step cannot fail, ends READY or CLOSED and keeps the output coherent. |
| `Cursors.Iteration.AdapterStep` | src/Iteration/IteratorIteration.php:29-45 | The first step rewinds the source exactly once and every later step calls `next` exactly once. A valid source is published with `setNext(current())`. An exhausted one is dropped and the cursor closes. |
| `Cursors.Iteration.FilterStep` | src/Operations/Stateful/FilteringSequence.php:53-64 | Publishes the first pulled element whose verdict at its own position equals `sendWhen`, after skipping the others. It closes when the upstream runs out, and keeps the output equal to `Filtered` of the upstream. |
| `Cursors.Iteration.FinishFilter` | src/Operations/Stateful/FilteringSequence.php:63 | Closing on an exhausted upstream leaves a healthy CLOSED cursor whose output is complete. |
| `Cursors.Iteration.ScanOne` | src/Operations/Stateful/FilteringSequence.php:54-60 | One turn of the filter loop: publish the pulled element, skip it (index one higher), or find the upstream drained. The filter invariant is kept in each case. |
| `Cursors.Iteration.Judge` | src/Operations/Stateful/FilteringSequence.php:56-60 | Publishes the element iff `pred(element, index) == sendWhen`, and skips it otherwise. |
| `Cursors.Iteration.Publish` | src/Operations/Stateful/FilteringSequence.php:56-58 | `setNext(element)` makes the filter READY with that element and keeps its output equal to `Filtered`. |
| `Cursors.Iteration.Skip` | src/Operations/Stateful/FilteringSequence.php:60 | `skipping()` raises the index by one, so the next verdict sees the next upstream position. |
| `Cursors.Iteration.FilterReadyIsCoherent` | src/Operations/Stateful/FilteringSequence.php:56-58 | A READY filter whose published elements are `Filtered` of what it has pulled, with the index at the published element's position, is coherent. |
| `Cursors.Iteration.PullUpstream` | src/Operations/Stateful/FilteringSequence.php:54-55 | `hasNext` then `pluckNext` on the upstream: the next upstream element, or none once the upstream has been read to its end. |
| `Cursors.Iteration.RunScript` | src/Iteration/ComputingIteration.php:32-33 | A root step's calls apply in order until a throw. The state becomes `StateAfter(calls)`, and the step fails iff it threw. |
| `Cursors.Iteration.Close` | src/Iteration/AbstractIteration.php:60-63 | CLOSED, with the adapter's source and the computing cursor's upstream and step all released. |
| `Cursors.Iteration.SetNext` | src/Iteration/AbstractIteration.php:70-74 | Stores the value as pending, sets READY and records the value as published. |
| `Cursors.Iteration.Skipping` | src/Iteration/AbstractIteration.php:76-79 | Raises the index by exactly one and changes nothing else. |
| `Cursors.Iteration.GetIndex` | src/Iteration/AbstractIteration.php:65-68 | The index, which `key()` also returns, is never below its initial -1. A ready adapter's index is the number of elements already plucked. A filtering cursor's index counts the upstream elements it has pulled, rejected ones included. |
| `Cursors.Iteration.IteratorRewind` | src/Iteration/AbstractIteration.php:81-86 | Raises "cannot be rewound" iff index > 0, or index == 0 while not READY. For an adapter, that means an element was consumed. A filtering cursor's index also counts rejected elements. |
| `Cursors.Iteration.IteratorCurrent` | src/Iteration/AbstractIteration.php:98-102 | On a READY cursor, the pending value, which is the next element of the whole sequence. |
| `Cursors.Iteration.IteratorNext` | src/Iteration/AbstractIteration.php:88-91 | `pluckNext` with the value discarded: exactly one more element consumed on success. |
| `Iterations.Unwrapped` | src/Iteration/Iterations.php:44-53 | Following `getIterator()` of IteratorAggregates always ends at something that is not an aggregate. |
| `Iterations.Build` | src/Iteration/Iterations.php:26-29 | A fresh root cursor with the given step and no upstream, NOT_READY at index -1. |
| `Iterations.Convert` | src/Iteration/Iterations.php:44-53 | An Iteration is returned as it is and aggregates are unwrapped recursively. Any other Iterator gets a fresh adapter whose whole output is the iterator's items. A Traversable that is neither an Iterator nor an aggregate is a type error. |
| `Iterations.BuildLinked` | src/Iteration/Iterations.php:39-42 | A fresh filter cursor linked to the converted upstream. An existing cursor is linked as it is. A plain iterator is adapted first, and the filter's whole output is `Filtered` of its items. |
| `Iterations.ForEach` | src/Iteration/AbstractIteration.php:81-102 | PHP `foreach` over a cursor. The call raises NotRewindable when, beforehand, index > 0 or index == 0 while not READY. A healthy untouched cursor yields exactly its remaining elements and then stops. |
| `Iterations.Visit` | src/Iteration/AbstractIteration.php:88-102 | `valid()` then `current()` and `next()`: the next element, or none once the whole sequence has been handed out. |
| `Iterations.IterateSource` | src/Iteration/IteratorIteration.php:29-45 | Iterating an adapter over a fresh iterator yields exactly the iterator's items. |
| `Iterations.FilterSource` | src/Operations/Stateful/FilteringSequence.php:51-65 | `filter` over a list, iterated to the end, yields exactly `Filtered(items, pred, sendWhen)`. |
| `Iterations.FilterFiltered` | src/Operations/Stateful/FilteringSequence.php:51-65 | Two stacked filters yield the second filter applied to the first one's output, with positions counted in that output. |
| `Iterations.Probe` | src/Iteration/AbstractIteration.php:27-39 | `hasNext` on a healthy adapter is true exactly while elements remain, and keeps the cursor healthy. |
| `Iterations.Pluck` | src/Iteration/AbstractIteration.php:41-50 | `pluckNext` on a healthy adapter with elements left returns the next item and advances by one. |
| `Iterations.Open` | src/Iteration/Iterations.php:44-53 | Adapting a fresh iterator gives a healthy cursor at its start. |
| `Iterations.FromTraversableAsWritten` | src/Operations/Terminal/CalculatingOperations.php:75 | As written: `Iterations::fromTraversable` is not declared by `Iterations` (src/Iteration/Iterations.php:13-54), so the call raises PHP's Error "undefined method" whatever the argument. |
| `Iterations.OpenAsWrittenVersusConvert` | src/Operations/Stateful/WindowedSequence.php:75 | Over the same iterator of items: as written the undefined method error, with `convert` in its place exactly the items. |
| `Deferred.DeferredIterator.constructor` | src/DeferredIterator.php:27-30 | Constructing does not call the supplier. |
| `Deferred.DeferredIterator.Force` | src/DeferredIterator.php:32-40 | The first call runs the supplier and clears it. Later calls return the same memoised iterator. The supplier has run exactly once afterwards. |
| `Deferred.DeferredIterator.Current` | src/DeferredIterator.php:45-48 | The element at the memoised iterator's position, or null past the end. The supplier has run exactly once. |
| `Deferred.DeferredIterator.Next` | src/DeferredIterator.php:53-56 | Advances the memoised iterator by one position, staying put at the end. |
| `Deferred.DeferredIterator.Key` | src/DeferredIterator.php:61-64 | The memoised iterator's position while valid, or null past the end. |
| `Deferred.DeferredIterator.IsValid` | src/DeferredIterator.php:69-72 | True iff the memoised iterator has an element at its position. |
| `Deferred.DeferredIterator.Rewind` | src/DeferredIterator.php:77-80 | Succeeds iff the supplied iterator can be rewound or has not advanced yet, and then puts it back at position 0. Otherwise it raises "cannot be rewound" and keeps the position. |
| `Deferred.DrainDeferred` | src/DeferredIterator.php:27-80 | `foreach` over an untouched deferred iterator yields exactly the supplied items, with the supplier called exactly once. |
| `OnceOnly.ConstrainedOnceSequence.constructor` | src/Operations/Stateless/ConstrainedOnceSequence.php:24-27 | Holds the upstream sequence. |
| `OnceOnly.ConstrainedOnceSequence.GetIterator` | src/Operations/Stateless/ConstrainedOnceSequence.php:29-38 | The first successful call hands out the upstream's elements and clears the reference. A later call raises SequenceAlreadyIterated carrying this instance. If the upstream raises, the reference is kept. An upstream that drains an external iterator first rewinds it. It raises NotRewindable when the iterator is an advanced Generator; otherwise it answers from all the iterator's items. |
| `OnceOnly.ConstrainOnce` | src/Traits/StatelessOperationsTrait.php:16-22 | A constrained sequence is returned as it is. Any other sequence gets a fresh `ConstrainedOnceSequence` around it. |
| `OnceOnly.ConstrainTwice` | src/Traits/StatelessOperationsTrait.php:18-20 | `constrainOnce()` is idempotent: the second call returns the first result. |
| `OnceOnly.UseConstrainedTwice` | src/Operations/Stateless/ConstrainedOnceSequence.php:29-38 | A constrained sequence yields its upstream's elements once, then raises SequenceAlreadyIterated. |
| `OnceOnly.UseFailingConstrainedTwice` | src/Operations/Stateless/ConstrainedOnceSequence.php:35-36 | A failing upstream does not use up the constrained sequence: both calls raise the upstream's error. |
| `OnceOnly.TraversableSequence.constructor` | src/Builder/TraversableSequence.php:31-34 | Holds the Traversable it was built from. |
| `OnceOnly.TraversableSequence.GetIterator` | src/Builder/TraversableSequence.php:36-45 | The first call hands out the very Traversable it was built from and nulls it. A later call raises SequenceAlreadyIterated carrying this instance. |
| `OnceOnly.CollectTraversableTwice` | src/Builder/TraversableSequence.php:36-45 | A sequence over an iterator, collected twice: first the items, then SequenceAlreadyIterated. |
| `Filtering.Filtered` | src/Operations/Stateful/FilteringSequence.php:53-64 | The filter output is never longer than its input. |
| `Filtering.FilteredSnoc` | src/Operations/Stateful/FilteringSequence.php:56-60 | One more upstream element joins the output iff `pred(x, position) == sendWhen`. |
| `Filtering.FilteredPrefix` | src/Operations/Stateful/FilteringSequence.php:53-64 | Filtering a prefix of the input gives a prefix of the output. |
| `Filtering.MatchesCharacterization` | src/Operations/Stateful/FilteringSequence.php:56 | The passing positions are exactly those whose verdict equals `sendWhen`, listed in strictly increasing order. |
| `Filtering.FilteredIsMatches` | src/Operations/Stateful/FilteringSequence.php:53-64 | Output i is the input at the i-th passing position: the kept elements, in upstream order. |
| `Filtering.FilteredMembership` | src/Operations/Stateful/FilteringSequence.php:56-57 | A value is in the output iff it occurs at some position whose verdict equals `sendWhen`. |
| `Filtering.FilterAndFilterNotPartition` | src/Traits/StatefulOperationsTrait.php:50-71 | `filter` and `filterNot` with the same predicate split the input: their lengths add up to its length. |
| `Distinct.Keys` | src/Operations/Stateful/DistinctSequence.php:42 | Entry i of the key list is the selector's key of element i. |
| `Distinct.DistinctBy` | src/Operations/Stateful/DistinctSequence.php:41-47 | The distinct output is never longer than its input. |
| `Distinct.Distinct` | src/Operations/Stateful/DistinctSequence.php:36-49 | The generator loop, starting from an empty seen-key list, yields exactly `DistinctBy`. |
| `Distinct.DistinctKeysUnique` | src/Operations/Stateful/DistinctSequence.php:43-45 | No two emitted elements share a key. |
| `Distinct.DistinctKeysSame` | src/Operations/Stateful/DistinctSequence.php:43-45 | A key occurs among the emitted elements' keys iff it occurs among the input's keys. |
| `Distinct.DistinctIsFirstOccurrence` | src/Operations/Stateful/DistinctSequence.php:41-47 | `distinctBy` is the filter that keeps an element iff no earlier element has its key, i.e. first occurrences in upstream order. |
| `Distinct.FirstOccurrencePrefix` | src/Operations/Stateful/DistinctSequence.php:41-47 | The first-occurrence characterisation holds for every prefix of the input. |
| `Distinct.DistinctValues` | src/Traits/StatefulOperationsTrait.php:32-37 | `distinct()` (identity key) yields no duplicates and exactly the set of values of its input. |
| `Sorting.Insert` | src/Operations/Stateful/SortingSequence.php:53-67 | Insertion adds exactly the one element. |
| `Sorting.Sort` | src/Operations/Stateful/SortingSequence.php:53-67 | The reference sort's output is a permutation of its input. |
| `Sorting.InsertKeepsOrder` | src/Operations/Stateful/SortingSequence.php:55-56 | Inserting into a list ordered by a total comparator keeps it ordered. |
| `Sorting.SortOrders` | src/Operations/Stateful/SortingSequence.php:55-56 | Under a total comparator, adjacent outputs satisfy `cmp(a, b) <= 0`. |
| `Sorting.ReverseComparator` | src/Operations/Stateful/SortingSequence.php:85-90 | `reverseComparator(cmp)(a, b) == cmp(b, a)` for all a and b. |
| `Sorting.ReverseKeepsTotal` | src/Operations/Stateful/SortingSequence.php:85-90 | Swapping the arguments keeps a comparator total. |
| `Sorting.CompareBy` | src/Operations/Stateful/SortingSequence.php:71-83 | `compareBy(selector)` is 1, -1 or 0 exactly as the first key is greater than, less than or equal to the second. |
| `Sorting.CompareByTotal` | src/Operations/Stateful/SortingSequence.php:71-83 | A key comparator is total. |
| `Sorting.SortingStage` | src/Operations/Stateful/SortingSequence.php:50-69 | The sorting stage's output is a permutation of the drained upstream, in either direction and with either comparator. |
| `Sorting.SortingStageOrders` | src/Operations/Stateful/SortingSequence.php:54-66 | Ascending output is ordered by the chosen comparator. Descending output is ordered by its reverse. |
| `Sorting.SortedNatural` | src/Traits/StatefulOperationsTrait.php:90-117 | `sorted()` and `sortedDescending()` use PHP's own order, ascending and descending, and permute the input. |
| `Sorting.SortedByKeys` | src/Traits/StatefulOperationsTrait.php:98-109 | `sortedBy(selector)` gives non-decreasing keys and `sortedByDescending(selector)` non-increasing keys. Both permute the input. |
| `Sorting.SortedWithComparator` | src/Traits/StatefulOperationsTrait.php:122-133 | `sortedWith(cmp)` is ordered by cmp and `sortedWithDescending(cmp)` by its reverse. Both permute the input. |
| `Windowing.WindowAt` | src/Operations/Stateful/WindowedSequence.php:92-140 | Window k starts at position `start + k*step` and is the input slice of length `size` from there, cut at the end. Without partial windows it is always full. |
| `Windowing.WindowsReachEnd` | src/Operations/Stateful/WindowedSequence.php:109-139 | No window is missing at the end. With partial windows they start at every step up to the end. Without them, only a window that would not fit is left out. |
| `Windowing.FullWindowFirst` | src/Operations/Stateful/WindowedSequence.php:102-107 | Where a full window fits at `start`, it is the next window, whether partial windows are kept or not. |
| `Windowing.WindowEmitted` | src/Operations/Stateful/WindowedSequence.php:126-128 | Emitting the full window at `start` moves the next window on by `step`. |
| `Windowing.WindowsCharacterization` | src/Operations/Stateful/WindowedSequence.php:71-140 | Window k of the whole input is `s[k*step .. min(k*step+size, \|s\|)]`, and is full when partial windows are off. |
| `Windowing.ChunksConcatenate` | src/Traits/StatefulOperationsTrait.php:24-27 | The chunks of `chunked(size)` concatenate back to the input. |
| `Windowing.CheckWindowArguments` | src/Operations/Stateful/WindowedSequence.php:51-63 | Raises iff size or step is 0, naming "size", "step" or "size and step", with " must be greater than zero!". |
| `Windowing.ArrayDrop` | src/Operations/Stateful/WindowedSequence.php:142-147 | Removes exactly the first `min(count, \|buffer\|)` elements (none for a negative count) and keeps the rest in order. |
| `Windowing.IsolatedWindows` | src/Operations/Stateful/WindowedSequence.php:92-112 | With `step >= size > 0`, yields exactly `Windows`. With a negative size, yields the whole input as one window iff partial windows are kept and the input is non-empty. |
| `Windowing.IsolatedRest` | src/Operations/Stateful/WindowedSequence.php:109-111 | When the input runs out, what remains is the buffer as one window iff it is non-empty and partial windows are kept. |
| `Windowing.OverlappingWindows` | src/Operations/Stateful/WindowedSequence.php:121-140 | With `0 < step < size`, yields exactly `Windows`. |
| `Windowing.OverlappingFill` | src/Operations/Stateful/WindowedSequence.php:123-130 | After the pulling loop, the emitted windows plus the windows from the buffer's start are all the windows, and the buffer is the input from there on. |
| `Windowing.EmitFull` | src/Operations/Stateful/WindowedSequence.php:126-129 | Emitting a full buffer and dropping `step` elements keeps the pulling loop's invariant. |
| `Windowing.FlushPartial` | src/Operations/Stateful/WindowedSequence.php:131-139 | The trailing loop yields exactly the partial windows that start in the leftover buffer. |
| `Windowing.StuckWindows` | src/Operations/Stateful/WindowedSequence.php:121-130 | A negative step below the size, without partial windows: the buffer never shrinks, so the only window is the first `size` elements, if the size is positive and that many exist. |
| `Windowing.Windowed` | src/Operations/Stateful/WindowedSequence.php:45-82 | Raises the constructor's error iff size or step is 0. Positive arguments yield `Windows`. A negative size (with a step not below it) yields the whole input as one window when partial windows are kept and the input is non-empty, and nothing otherwise. A negative step below the size, without partial windows, yields `s[..size]` alone when `0 < size <= \|s\|` and nothing otherwise. |
| `Windowing.Chunked` | src/Traits/StatefulOperationsTrait.php:24-27 | `chunked(size)` raises iff size is 0. Otherwise the chunks concatenate to the input, and chunk k is `s[k*size ..]` cut to `size`. |
| `Windowing.TrailingWindowsAsWritten` | src/Operations/Stateful/WindowedSequence.php:131-139 | The trailing loop as written, given `fuel` rounds. When it finishes it has produced at most `fuel + 1` windows, and each one is a suffix of the buffer (empty ones included, since a negative step lets an empty buffer through the loop test). |
| `Windowing.NegativeStepNeverEnds` | src/Operations/Stateful/WindowedSequence.php:131-135 | With a negative step, the trailing loop never finishes within any number of rounds (with `fromTraversable` at line 75 read as `convert`; as written, line 75 raises Error first). |
| `Windowing.CheckWindowArgumentsCorrected` | src/Operations/Stateful/WindowedSequence.php:51-63 | The intended check: passes iff both size and step are positive. |
| `Windowing.PositiveStepEnds` | src/Operations/Stateful/WindowedSequence.php:131-139 | With a step the corrected check accepts, the trailing loop finishes within `\|buffer\|` rounds. |
| `Windowing.TrailingFuelMonotone` | src/Operations/Stateful/WindowedSequence.php:131-139 | A trailing loop that finishes gives the same windows however many more rounds it is allowed. |
| `Windowing.WindowedChecked` | src/Operations/Stateful/WindowedSequence.php:45-82 | With the corrected check: an error iff size or step is not positive, and otherwise exactly `Windows`. |
| `Windowing.WindowedTransformed` | src/Traits/StatefulOperationsTrait.php:138-151 | `windowed` with a transform has the same error condition and message as `windowed`. In each argument case it gives `windowed`'s windows mapped by the transform, with each window's index. |
| `Slicing.CheckCount` | src/Operations/Stateless/TakeSequence.php:30-38 | Raises "count must be greater than zero" iff count <= 0. |
| `Slicing.Take` | src/Operations/Stateless/TakeSequence.php:30-54 | Raises iff count <= 0. Otherwise yields `s[..min(count, \|s\|)]` after exactly `min(count, \|s\|)` pulls, never fetching element count+1. |
| `Slicing.Drop` | src/Operations/Stateless/DropSequence.php:34-56 | Raises iff count <= 0. Otherwise yields `s[min(count, \|s\|)..]`, of length `max(0, \|s\| - count)`. |
| `Slicing.FirstFailure` | src/Operations/Stateless/TakeWhileSequence.php:39-44 | The first position whose element fails the predicate, or the length: every earlier element passes and that one fails. |
| `Slicing.TakeWhile` | src/Operations/Stateless/TakeWhileSequence.php:36-46 | The longest prefix whose elements all pass. The predicate is called once per element up to and including the first failure, and never after it. |
| `Slicing.DropWhile` | src/Operations/Stateless/DropWhileSequence.php:36-48 | The suffix from the first failing element, with later passing elements kept. The dropped prefix plus the output is the input. The predicate is not called once `complete` is set. |
| `Slicing.SubSequence.constructor` | src/Operations/Stateless/SubSequence.php:38-55 | Holds the bounds it was given once they are valid. |
| `Slicing.SubSequence.Drop` | src/Operations/Stateless/SubSequence.php:75-86 | Raises iff count < 0, with "count must be non-negative, but was" and the count. Moves the start on in place and returns itself iff something is left. Otherwise it returns an empty sequence and leaves the start alone. |
| `Slicing.SubSequence.Take` | src/Operations/Stateless/SubSequence.php:88-100 | Raises iff count < 0, with the same message as `drop`. Gives an empty sequence for 0. Otherwise it shrinks the end to `start + count` only when that is smaller, and returns itself. |
| `Slicing.SubSequence.GetIterator` | src/Operations/Stateless/SubSequence.php:57-73 | As written: the first `endIndex` elements when the start is 0, and nothing at all when the start is positive. |
| `Slicing.SubSequence.GetIteratorCorrected` | src/Operations/Stateless/SubSequence.php:57-73 | As intended: exactly `s[start..end]`, cut at the input's end. |
| `Slicing.NewSubSequence` | src/Operations/Stateless/SubSequence.php:38-55 | Raises iff start < 0, end < 0 or end <= start. The checks run in that order, and each message carries the offending numbers. The check on a negative end reuses the text "startIndex must be non-negative". Otherwise the result holds exactly those bounds. |
| `Slicing.SubSequenceFromOne` | src/Operations/Stateless/SubSequence.php:60-70 | From position 1 to 3 of [1, 2, 3]: as written [], as intended [2, 3]. |
| `Slicing.DropThenTake` | src/Operations/Stateless/SubSequence.php:75-100 | Narrowing in place by `drop` then `take`, then iterating with the corrected iterator, is the plain slice then drop then truncate. |
| `Transforming.MapIndexed` | src/Operations/Stateless/TransformingSequence.php:38-44 | Same length as the input, and output i is `transform(s[i], i)`. |
| `Transforming.Map` | src/Operations/Stateless/TransformingSequence.php:36-45 | The generator loop, with its counter starting at 0 on every iteration, yields exactly `MapIndexed`. |
| `Transforming.MapTwice` | src/Traits/StatelessOperationsTrait.php:27-30 | Two `map` stages in a row equal one `map` with the composed transform, each seeing the same index. |
| `Transforming.OnEach` | src/Traits/StatelessOperationsTrait.php:35-42 | `onEach` yields its input unchanged. The action is performed once per element, in order, on that element. |
| `Merging.Merged` | src/Operations/Stateless/MergingSequence.php:36-42 | Upstream then additional: the lengths add up, the upstream forms the front and the additional elements the back. Every upstream element precedes every additional one. |
| `Merging.MergedLaws` | src/Operations/Stateless/MergingSequence.php:36-42 | `plus` of nothing is the identity on either side, and `plus` is associative. |
| `Merging.Unwrap` | src/Operations/Stateless/DefaultingWhenEmptySequence.php:50-62 | An Iterator is used as it is and an aggregate is unwrapped recursively. Any other Traversable raises InvalidArgument naming its class. |
| `Merging.Innermost` | src/Operations/Stateless/DefaultingWhenEmptySequence.php:50-62 | Unwrapping ends below every aggregate. |
| `Merging.IfEmpty` | src/Operations/Stateless/DefaultingWhenEmptySequence.php:39-48 | A non-empty upstream yields all its elements, the peeked first one included, and the supplier is never called. An empty upstream yields the unwrapped supplier result. |
| `Flattening.Flattened` | src/Operations/Stateless/FlatteningSequence.php:42-57 | Flattening only ever fails with InvalidArgument. |
| `Flattening.FlattenedFails` | src/Operations/Stateless/FlatteningSequence.php:49-54 | The first non-iterable (transformed) value raises "Expected a iterable but got" with its type name. |
| `Flattening.FlattenedSucceeds` | src/Operations/Stateless/FlatteningSequence.php:45-56 | When every (transformed) value is iterable, the output is their items concatenated in order. |
| `Flattening.ConcatSnoc` | src/Operations/Stateless/FlatteningSequence.php:55 | One more iterable adds its items at the end. |
| `Flattening.FlatMapIsMapThenFlatten` | src/Operations/Stateless/FlatteningSequence.php:45-48 | `flatMap(f)` equals `map(f)` then `flatten()`: the transform sees each outer element and its index from 0. |
| `Flattening.FlatteningSequence.constructor` | src/Operations/Stateless/FlatteningSequence.php:34-38 | Holds the upstream and the optional transform. |
| `Flattening.FlatteningSequence.GetIterator` | src/Operations/Stateless/FlatteningSequence.php:40-58 | The generator loop yields exactly `Flattened`. |
| `Flattening.FlatteningSequence.Map` | src/Operations/Stateless/FlatteningSequence.php:60-68 | As written: with no transform yet, `f` becomes the transform in place and the same object is returned. Otherwise nothing changes and an ordinary map stage is built. |
| `Flattening.FlatteningSequence.MapCorrected` | src/Sequence.php:418-430 | As the `map` contract says: a flattening error is kept, and otherwise the result is `f` applied to each flattened item with its index. |
| `Flattening.FailurePropagates` | src/Operations/Stateless/FlatteningSequence.php:49-54 | Once a prefix fails, the whole input fails with the same error. |
| `Flattening.FlattenedSingle` | src/Operations/Stateless/FlatteningSequence.php:45-56 | A single iterable flattens to its own items. |
| `Flattening.FlattenThenMap` | src/Operations/Stateless/FlatteningSequence.php:60-65 | `flatten().map(x => [x])` over [[1, 2]]: as written [[1, 2]], as intended [[1], [2]] (with the `DeferredIterator` import at line 7 resolved; as written, line 7 makes iteration raise Error first). |
| `Flattening.FlatteningSequence.GetIteratorAsWritten` | src/Operations/Stateless/FlatteningSequence.php:7 | As written: `getIterator` builds a `DeferredIterator` from the imported namespace, where no such class exists, so it raises PHP's Error "class not found" on every call. |
| `Flattening.FlattenAsWritten` | src/Operations/Stateless/FlatteningSequence.php:38-58 | A FlatteningSequence without transform over [[1, 2]]: as written the class-not-found error, with the import resolved [1, 2]. |
| `Zipping.Zipped` | src/Operations/Stateless/ZippingSequence.php:51-53 | Length `min(\|a\|, \|b\|)`, and output i is `transform(a[i], b[i])`. |
| `Zipping.ZippedPairsUnzip` | src/Operations/Stateless/ZippingSequence.php:40-42 | With the default pair transform, the firsts and seconds of the output are the two inputs cut to the shorter length. |
| `Zipping.FirstsIndex` | src/Operations/Stateless/ZippingSequence.php:40-42 | The first components of a list of pairs, position by position. |
| `Zipping.SecondsIndex` | src/Operations/Stateless/ZippingSequence.php:40-42 | The second components of a list of pairs, position by position. |
| `Zipping.Zip` | src/Operations/Stateless/ZippingSequence.php:45-55 | Two cursors in lockstep yield exactly `Zipped`. `other` is probed only while `previous` still has elements, `min(\|a\|, \|b\|+1)` times. |
| `Zipping.ZipLoop` | src/Operations/Stateless/ZippingSequence.php:51-53 | The while loop over two fresh cursors yields `Zipped` with that probe count. |
| `Zipping.ZipRound` | src/Operations/Stateless/ZippingSequence.php:51-52 | One round either appends `transform(a[k], b[k])` or ends with the whole result when either side is exhausted. |
| `Zipping.ZipStep` | src/Operations/Stateless/ZippingSequence.php:51-52 | `previous->hasNext() && other->hasNext()` short-circuits. `other` is probed iff `previous` has an element, and a pair is plucked iff both do. |
| `Zipping.ProbeBeside` | src/Operations/Stateless/ZippingSequence.php:51 | `hasNext` on one cursor leaves the other cursor as it was. |
| `Zipping.PluckBeside` | src/Operations/Stateless/ZippingSequence.php:52 | `pluckNext` on one cursor returns its next item and leaves the other cursor as it was. |
| `Zipping.ZippedSnoc` | src/Operations/Stateless/ZippingSequence.php:52 | One more position on both sides adds exactly one output. |
| `Zipping.ZippedPrefixes` | src/Operations/Stateless/ZippingSequence.php:51 | Cutting both sides to the shorter length changes nothing. |
| `Zipping.Adjacent` | src/Operations/Stateless/ZippingWithNextSequence.php:42-51 | `max(\|s\|-1, 0)` outputs, and output i is `transform(s[i], s[i+1])`. |
| `Zipping.AdjacentPairsChain` | src/Operations/Stateless/ZippingWithNextSequence.php:34-36 | With the default pair transform, neighbouring pairs overlap in one element, and their firsts plus the last second rebuild the input. |
| `Zipping.ZipWithNext` | src/Operations/Stateless/ZippingWithNextSequence.php:39-53 | Nothing for empty input. Otherwise, each element paired with its successor: exactly `Adjacent`. |
| `Zipping.AdjacentSnoc` | src/Operations/Stateless/ZippingWithNextSequence.php:47-50 | One more element adds its pair with the element before it. |
| `Composing.FilterNotAsWritten` | src/Traits/StatefulOperationsTrait.php:68-71 | As written, `filterNot` fails on the undeclared `FilteringSequence::SEND_WHEN_FALSE`. |
| `Composing.FilterNot` | src/Traits/StatefulOperationsTrait.php:68-71 | As intended: its length plus `filter`'s length is the input's length. |
| `Composing.FilterNotKeepsRejected` | src/Traits/StatefulOperationsTrait.php:68-71 | A value is kept by `filterNot` iff it occurs at a position where the predicate is false. |
| `Composing.FilterNotAsWrittenFails` | src/Traits/StatefulOperationsTrait.php:70 | For every input, the code as written does not yield the intended elements. |
| `Composing.Minus` | src/Traits/StatefulOperationsTrait.php:76-85 | `minus` never lengthens its input. |
| `Composing.MinusMembership` | src/Traits/StatefulOperationsTrait.php:79-82 | A value survives `minus` iff it is in the input and not in the removed elements. |
| `Composing.MinusExtremes` | src/Traits/StatefulOperationsTrait.php:76-85 | Removing nothing keeps the input, and removing the input itself leaves nothing. |
| `Composing.KeepAll` | src/Traits/StatefulOperationsTrait.php:80-82 | Filtering out the members of an empty list keeps everything. |
| `Composing.DropAll` | src/Traits/StatefulOperationsTrait.php:80-82 | Filtering out a list that holds every element leaves nothing. |
| `Composing.MinusStage` | src/Traits/StatefulOperationsTrait.php:76-85 | An array or an IteratorAggregate (which is not an Iterator) gives a plain generating sequence over its items. An Iterator gives a once-only wrapper around a generating sequence that drains the Iterator on each run and then runs `filterNot`. |
| `Composing.Generated` | src/Traits/StatefulOperationsTrait.php:78-83 | The generator yields only input elements that are not removed, or, as written, raises the undefined-constant error. |
| `Composing.MinusIteratorTwice` | src/Traits/StatefulOperationsTrait.php:84 | `minus` of a fresh Iterator, rewindable or not, iterated twice: the difference, then SequenceAlreadyIterated. |
| `Composing.MinusIteratorAsWritten` | src/Traits/StatefulOperationsTrait.php:80-84 | As written, the first iteration drains the Iterator and raises the undefined-constant error, which does not use up the once-only wrapper. The second iteration raises the same error for a rewindable Iterator. For a non-empty Generator it raises NotRewindable. |
| `Matching.FirstMatch` | src/Operations/Terminal/PredicateSearchingOperations.php:42-50 | The first accepted position, or the length: no earlier element is accepted. |
| `Matching.LastMatch` | src/Operations/Terminal/PredicateSearchingOperations.php:105-117 | The last accepted position, or -1: no later element is accepted. |
| `Matching.CountMatching` | src/Operations/Terminal/PredicateSearchingOperations.php:26-35 | The count of accepted elements is at most the length. |
| `Matching.CountIsFilteredLength` | src/Operations/Terminal/PredicateSearchingOperations.php:26-35 | Counting is the length of the matching elements' filter. |
| `Matching.CountAndPositions` | src/Operations/Terminal/PredicateSearchingOperations.php:141-156 | The count is 0 iff there is no first match and iff there is no last match. It is 1 iff a first match exists and equals the last. |
| `Matching.CountPrefix` | src/Operations/Terminal/PredicateSearchingOperations.php:26-35 | A prefix never has more matches than the whole. |
| `Matching.All` | src/Operations/Terminal/PredicateMatchingOperations.php:23-32 | True iff every element passes (so true when empty). It stops at the first failure, having called the predicate exactly up to it. |
| `Matching.Any` | src/Operations/Terminal/PredicateMatchingOperations.php:39-48 | True iff some element is accepted. Without a predicate, true iff non-empty. |
| `Matching.NoneMatch` | src/Operations/Terminal/PredicateMatchingOperations.php:55-64 | True iff no element is accepted, the negation of `any`. Without a predicate, true iff empty. |
| `Searching.Count` | src/Operations/Terminal/PredicateSearchingOperations.php:26-35 | The number of accepted elements, and the length without a predicate. |
| `Searching.CountAll` | src/Operations/Terminal/PredicateSearchingOperations.php:30 | When every element is accepted, the count is the length. |
| `Searching.First` | src/Operations/Terminal/PredicateSearchingOperations.php:42-50 | The earliest accepted element. The error `NoMatch` (the UnexpectedValueException) iff there is none. |
| `Searching.FirstOrNull` | src/Operations/Terminal/PredicateSearchingOperations.php:57-67 | The earliest accepted element, or null iff there is none. |
| `Searching.IndexOfFirst` | src/Operations/Terminal/PredicateSearchingOperations.php:74-82 | The position of the first match, or -1. |
| `Searching.IndexOfLast` | src/Operations/Terminal/PredicateSearchingOperations.php:89-98 | The position of the last match, or -1. |
| `Searching.Last` | src/Operations/Terminal/PredicateSearchingOperations.php:105-117 | The latest accepted element. UnexpectedValue iff there is none, with the sentinel keeping "no match" apart from a matched value. |
| `Searching.LastOrNull` | src/Operations/Terminal/PredicateSearchingOperations.php:124-134 | The latest accepted element, or null iff there is none. |
| `Searching.FirstIsLastIffSingle` | src/Operations/Terminal/PredicateSearchingOperations.php:42-117 | When something matches, `first` and `last` pick the same position iff exactly one element matches. |
| `Searching.Single` | src/Operations/Terminal/PredicateSearchingOperations.php:141-156 | As written: with a predicate, `SingleOf`. Without one, a type error on any non-empty input, and UnexpectedValue on empty input. |
| `Searching.SingleOfIsUnique` | src/Operations/Terminal/PredicateSearchingOperations.php:141-156 | UnexpectedValue iff nothing matches, and Overflow iff two or more match. Otherwise the one matching element, which really is the only one. |
| `Searching.SingleMatch` | src/Operations/Terminal/PredicateSearchingOperations.php:143-155 | The loop raises Overflow at the second match and UnexpectedValue after no match, which is exactly `SingleOf`. |
| `Searching.FirstMatchExtends` | src/Operations/Terminal/PredicateSearchingOperations.php:144-150 | A match found in a prefix is still the first match of a longer prefix. |
| `Searching.SingleOrNull` | src/Operations/Terminal/PredicateSearchingOperations.php:161-168 | As written: null for no match and for several matches. Without a predicate, the type error is not caught. |
| `Searching.SingleCorrected` | src/Sequence.php:577-588 | As documented: without a predicate every element matches, so the one element of a one-element input, and an error otherwise. |
| `Searching.SingleWithoutPredicate` | src/Operations/Terminal/PredicateSearchingOperations.php:145 | `single()` over [5]: as written a type error, as intended 5. |
| `ElementSearching.Contains` | src/Operations/Terminal/ElementSearchingOperations.php:22-31 | True iff some element is identical to the argument. |
| `ElementSearching.ElementAt` | src/Operations/Terminal/ElementSearchingOperations.php:36-44 | The element at the index, or OutOfRange naming the index iff it is outside `0 .. \|s\|-1`. |
| `ElementSearching.ElementAtOrElse` | src/Operations/Terminal/ElementSearchingOperations.php:51-58 | The element at the index, or `defaultValue(index)` when out of range. |
| `ElementSearching.ElementAtOrNull` | src/Operations/Terminal/ElementSearchingOperations.php:65-72 | The element at the index, or null when out of range. |
| `ElementSearching.IndexOf` | src/Operations/Terminal/ElementSearchingOperations.php:77-85 | -1 iff the element is absent. Otherwise a position holding it with no earlier occurrence. |
| `ElementSearching.LastIndexOf` | src/Operations/Terminal/ElementSearchingOperations.php:90-99 | -1 iff the element is absent. Otherwise a position holding it with no later occurrence. |
| `ElementSearching.IndexOfNotAfterLastIndexOf` | src/Operations/Terminal/ElementSearchingOperations.php:77-99 | For a present element, `indexOf <= lastIndexOf` and both positions hold it. |
| `Comparing.Max` | src/Operations/Terminal/ElementComparingOperations.php:22-31 | Null iff empty. Otherwise a member of the input that no element exceeds. |
| `Comparing.Min` | src/Operations/Terminal/ElementComparingOperations.php:63-72 | Null iff empty. Otherwise a member of the input that no element is below. |
| `Comparing.Largest` | src/Operations/Terminal/ElementComparingOperations.php:49-58 | Null iff empty. Otherwise a member of the input. |
| `Comparing.Smallest` | src/Operations/Terminal/ElementComparingOperations.php:90-99 | Null iff empty. Otherwise a member of the input. |
| `Comparing.LargestIsMaximum` | src/Operations/Terminal/ElementComparingOperations.php:49-58 | No element compares greater than the `maxWith` result. |
| `Comparing.LargestIsEarliest` | src/Operations/Terminal/ElementComparingOperations.php:53-54 | The `maxWith` result occurs at a position before which every element compares strictly smaller: the earliest maximum. |
| `Comparing.SmallestIsMinimum` | src/Operations/Terminal/ElementComparingOperations.php:90-99 | No element compares smaller than the `minWith` result. |
| `Comparing.SmallestIsEarliest` | src/Operations/Terminal/ElementComparingOperations.php:94-95 | The `minWith` result occurs at a position before which every element compares strictly greater: the earliest minimum. |
| `Comparing.MaxWith` | src/Operations/Terminal/ElementComparingOperations.php:49-58 | The loop yields exactly `Largest`: null iff empty, else the earliest element that no other compares above. |
| `Comparing.MinWith` | src/Operations/Terminal/ElementComparingOperations.php:90-99 | The loop yields exactly `Smallest`: null iff empty, else the earliest element that no other compares below. |
| `Comparing.CompareByConsistent` | src/Operations/Stateful/SortingSequence.php:71-83 | A key comparator is consistent: antisymmetric in sign and transitive. |
| `Comparing.MaxBy` | src/Operations/Terminal/ElementComparingOperations.php:38-42 | `maxWith(compareBy(selector))`, i.e. `Largest` under the key comparator. Null iff empty. Otherwise a member with the greatest key, and every earlier element has a strictly smaller key. |
| `Comparing.MinBy` | src/Operations/Terminal/ElementComparingOperations.php:79-83 | `minWith(compareBy(selector))`, i.e. `Smallest` under the key comparator. Null iff empty. Otherwise a member with the least key, and every earlier element has a strictly greater key. |
| `Calculating.TotalAppend` | src/Operations/Terminal/CalculatingOperations.php:89-97 | Totals add up over a concatenation. |
| `Calculating.SumValues` | src/Operations/Terminal/CalculatingOperations.php:89-120 | Raises InvalidArgument with the given message iff some value is not a number. Otherwise the total. |
| `Calculating.Sum` | src/Operations/Terminal/CalculatingOperations.php:89-97 | 0 on empty input and the total otherwise. InvalidArgument "Element must be an integer or float" iff some element is not a number. |
| `Calculating.SumBy` | src/Operations/Terminal/CalculatingOperations.php:104-113 | The total of the selector's results. InvalidArgument "Selector must return an integer or float" iff some result is not a number. |
| `Calculating.FoldConcat` | src/Operations/Terminal/CalculatingOperations.php:59-66 | Folding a concatenation folds the second part into the first part's result, with indices continuing. |
| `Calculating.TotalIsFold` | src/Operations/Terminal/CalculatingOperations.php:59-97 | Summing integers is folding them with `+` from 0. |
| `Calculating.Fold` | src/Operations/Terminal/CalculatingOperations.php:59-66 | A left fold from `initial` with (accumulator, element, index), the index counting from 0. |
| `Calculating.ReducedConcat` | src/Operations/Terminal/CalculatingOperations.php:79-83 | Reducing a longer sequence folds the extra elements into the shorter one's result. |
| `Calculating.ReduceAsWritten` | src/Operations/Terminal/CalculatingOperations.php:73-84 | With `fromTraversable` at line 75 read as `convert` (as written, line 75 raises Error first): LengthException on empty input. On any other input, the `foreach` after the pluck trips the cursor's `rewind`. |
| `Calculating.ReduceCorrected` | src/Operations/Terminal/CalculatingOperations.php:73-84 | As intended: LengthException on empty input. Otherwise a left fold seeded with the first element over the rest, indices from 1. |
| `Calculating.FoldOneMore` | src/Operations/Terminal/CalculatingOperations.php:80-82 | Folding one more element of the tail into the seed. |
| `Calculating.ReduceOneTwo` | src/Operations/Terminal/CalculatingOperations.php:79-80 | `reduce` summing [1, 2]: with `fromTraversable` read as `convert`, a rewind error; as intended 3. |
| `Associating.KeyList` | src/Operations/Terminal/AssociateOperations.php:23-28 | A PHP array has one key per entry. |
| `Associating.KeyListAt` | src/Operations/Terminal/AssociateOperations.php:23-28 | Key i is the key of entry i. |
| `Associating.Lookup` | src/Operations/Terminal/AssociateOperations.php:26 | `$a[$k]` is defined iff k is a key of the array. |
| `Associating.Assign` | src/Operations/Terminal/AssociateOperations.php:26 | `$a[$k] = $v` keeps the key order and appends a new key at the end. Afterwards k reads v. |
| `Associating.KeyListCons` | src/Operations/Terminal/AssociateOperations.php:26 | The key list of an array with one more entry at the front. |
| `Associating.AssignLookup` | src/Operations/Terminal/AssociateOperations.php:26 | Assigning one key leaves every other key's value alone. |
| `Associating.AssignKeepsKeysUnique` | src/Operations/Terminal/AssociateOperations.php:26 | Keys stay unique under assignment. |
| `Associating.AssociatedLookup` | src/Operations/Terminal/AssociateOperations.php:21-29 | Last write wins: each key maps to the value of its last pair. |
| `Associating.AssociatedKeysUnique` | src/Operations/Terminal/AssociateOperations.php:21-29 | The result has each key once. |
| `Associating.AssociatedKeyOrder` | src/Operations/Terminal/AssociateOperations.php:21-29 | The keys appear in the order of their first occurrence. |
| `Associating.KeyOrderStep` | src/Operations/Terminal/AssociateOperations.php:26 | One assignment keeps the key list equal to the distinct keys seen so far. |
| `Associating.KeyListSnoc` | src/Operations/Terminal/AssociateOperations.php:26 | Appending an entry appends its key. |
| `Associating.DistinctSnoc` | src/Operations/Terminal/AssociateOperations.php:26 | One more key joins the distinct keys iff it is not among them yet. |
| `Associating.AssociatePairs` | src/Operations/Terminal/AssociateOperations.php:23-28 | The `foreach` assignment loop builds exactly `Associated`. |
| `Associating.PairsOf` | src/Operations/Terminal/AssociateOperations.php:25 | One (key, value) pair per element, in order. |
| `Associating.Associate` | src/Operations/Terminal/AssociateOperations.php:21-29 | Exactly `Associated` of the transformed pairs. The keys are unique and in the order of their first occurrence, and each key holds the value of its last pair. |
| `Associating.AssociateBy` | src/Operations/Terminal/AssociateOperations.php:31-41 | Keys from `keySelector` and values from `valueSelector`, last write winning. |
| `Associating.AssociateWith` | src/Operations/Terminal/AssociateOperations.php:43-50 | Each element is its own key, with the value from `valueSelector`. |
| `Associating.GroupOfAbsent` | src/Operations/Terminal/AssociateOperations.php:62-71 | A key selected for no element has no values. |
| `Associating.GroupedLookup` | src/Operations/Terminal/AssociateOperations.php:59-73 | A key selected for some element maps to the values of exactly those elements, in encounter order. No other key is present. |
| `Associating.PushLookup` | src/Operations/Terminal/AssociateOperations.php:64-70 | Pushing onto one key's list extends that list, or starts it, and leaves every other key alone. |
| `Associating.GroupedKeysUnique` | src/Operations/Terminal/AssociateOperations.php:59-73 | The result has each key once. |
| `Associating.SizeAssign` | src/Operations/Terminal/AssociateOperations.php:65-70 | Replacing one key's list changes the total size by the difference in that list's length. |
| `Associating.GroupSizes` | src/Operations/Terminal/AssociateOperations.php:62-71 | Every element adds one value to one group, so the group sizes sum to the length. |
| `Associating.GroupBy` | src/Operations/Terminal/AssociateOperations.php:59-73 | The loop builds exactly `Grouped`: a missing key's list is created, then the value is pushed. |

## Left out

- `average` and `averageBy`: these use float division, and floats are not part of this model. `sum` and `sumBy` are modelled over integers. A float element, valid in the source, is modelled as "not an integer".
- Calculating.SumValues: accepts integers only; the source also accepts floats.
- Calculating.Sum: the total is an unbounded integer. PHP's `+=` turns an integer total past PHP_INT_MAX into a float, which is not modelled.
- Calculating.SumBy: the same unbounded total as Calculating.Sum, with no overflow to float.
- Comparing.MaxWith: elements are never `null`. In the source, `null` is also the "nothing yet" marker, so a `null` element is replaced by the next element whatever the comparator says. A `null` result also cannot tell an empty input from a `null` maximum.
- Comparing.MinWith: the same `null` marker as Comparing.MaxWith is not modelled.
- Comparing.MaxBy: the `null` marker is not modelled, as for Comparing.MaxWith. Keys are `int`, so PHP's `<` and `>` on strings, floats or mixed keys are not modelled.
- Comparing.MinBy: the `null` marker is not modelled, as for Comparing.MinWith. Keys are `int`, as for Comparing.MaxBy.
- Sorting.CompareBy: keys are `int`. PHP's `<` and `>` on other key types are not modelled.
- Sorting.SortedByKeys: keys are `int`, as for Sorting.CompareBy.
- Comparing.Max, Comparing.Min: over `int` with the mathematical order. PHP's `>` and `<` on mixed types (type juggling) are not modelled.
- PHP loose comparison:
  - `in_array` in `distinct` and `minus` is modelled as strict equality.
  - `==` between the verdict and `sendWhen` in the filter is modelled as boolean equality.
- Array-key coercion in `associate*` and `groupBy` (numeric strings, floats and booleans as keys) is not modelled: a key is any value with equality.
- `list()` destructuring a non-array result of `associate`'s transform is not modelled: the transform returns a pair.
- `filterIsInstance` (`instanceof`) is not modelled: class membership is not part of the value model.
- Exceptions thrown by user callbacks are modelled only for root step scripts (`Throw`). Elsewhere, predicates, selectors and transforms are total functions.
- The `step()` operation is not part of this model: no implementation of it is part of the repository's source.
- Iterator keys: `elementAt`, `elementAtOrElse`, `elementAtOrNull`, `indexOf`, `lastIndexOf`, `indexOfFirst`, `indexOfLast`, `fold` and `reduce` read the iterator's keys. The model reads positions 0, 1, 2, ... of the sequence instead.
  - The two differ for the filter-based stages: `filter`, `filterIsInstance`, and `filterNot` and `minus` once their constant is corrected. These stages' cursor reports the upstream's index, rejected elements included; Cursors.Iteration.GetIndex states this.
  - For example, `filter(x > 1)` over [1, 2, 3] has keys 1 and 2. In the source, `elementAt(0)` raises OutOfRange and `indexOf(2)` is 1. The model gives 2 and 0.
  - Keys restarting inside `yield from` (as in `plus`) are not modelled.
- Cursors.Iteration.IteratorCurrent: the `assert($this->hasNext())` in `current()` and `key()` is not modelled. With assertions off, which is PHP's production default, both just return the fields.
- `iterator_to_array` in the sorting stage preserves keys, so duplicate keys would overwrite elements. The model drains into a list.
- Sorting.SortingStage: the internals and stability of `usort`, `sort` and `rsort` are not modelled. The stage is specified by a reference insertion sort: ordered and a permutation. PHP's own comparison is a parameter.
- `Iterations::fromTraversable` is called but not defined (see Findings). Beyond Iterations.FromTraversableAsWritten, the model uses `convert` for it: Iterations.Open, and the cursors used by zip, zipWithNext, reduce, windowed and ifEmpty.
- FlatteningSequence.php and DefaultingWhenEmptySequence.php import `DeferredIterator` from a namespace where it is not declared (see Findings). Beyond Flattening.FlatteningSequence.GetIteratorAsWritten, the model resolves the name to the one `DeferredIterator`.
- Composing.MinusStage: an IteratorAggregate is modelled by its items, as an aggregate that gives the same items on every `getIterator()`. One whose `getIterator()` answers differently on later calls, or fails, is not captured.
- Generators are not modelled as suspended computations. Each stage is a function of its whole (finite) input. Laziness is visible only where the source promises it: pull counts for `take`, `takeWhile`, `dropWhile`, `zip` and `all`, and step by step for the filter cursor.
- Cursors.Iteration: content invariants (`Whole`, `Coherent`) are kept only for finite chains, i.e. adapters and filters over them. A root cursor is not used as a filter's upstream.
- Iterations.ForEach: requires a finite cursor for the same reason.
- Windowing.Windowed: excludes a negative step below the size together with partial windows. On those arguments the trailing loop of the as-written algorithm never ends (see Findings), the stage's output is infinite, so the whole-list model has no value for it. Windowing.NegativeStepNeverEnds states that case. Without partial windows, the negative step is modelled by Windowing.StuckWindows.
- Windowing.WindowedTransformed: the same excluded case as Windowing.Windowed.
- Windowing.TrailingWindowsAsWritten runs for a bounded number of rounds, because the loop it models does not always end.
- Sources.SourceIterator: a Generator that has run to its end is closed, and a closed Generator throws when traversed again even if it never yielded. The model lets a Generator be rewound while it has not advanced, so an empty Generator can be drained twice. Composing.MinusIteratorAsWritten states its second result for that case accordingly.
- Searching.Single: the TypeError of calling `null` is modelled as the error `TypeMismatch`.
- Builders (`sequenceOf`, `sequenceFrom`, `emptySequence`, the static, empty and generating sequences) and `Compose` selectors are not modelled. A source is a list, or an iterator that can or cannot be rewound.
- `SubSequence::drop` and `take` return `emptySequence()` in some cases. This is modelled as the marker `Emptied`.

## Findings

| source | as written | input that shows it | evidently intended | confidence | as-written member | corrected member |
|---|---|---|---|---|---|---|
| src/Operations/Stateless/SubSequence.php:60-70 | The position counter moves only after a yield, so it never reaches a positive start index and nothing is yielded. | subSequence from 1 to 3 of [1, 2, 3] yields [] | [2, 3]: the elements from the start index to the end index | high (not executed) | `Slicing.SubSequenceFromOne` | `Slicing.SubSequence.GetIteratorCorrected` |
| src/Operations/Stateful/WindowedSequence.php:51 | (With line 75's `fromTraversable` read as `convert`; as written, line 75 raises Error first.) Only zero size or step is rejected. With a negative step, `arrayDrop` drops nothing, so the trailing partial-window loop never ends. | `windowed(2, -1, INCLUDE_PARTIAL_WINDOWS)` over [1, 2] | size and step must be positive (documented at src/Sequence.php:745-746), and every accepted call terminates | high (not executed) | `Windowing.NegativeStepNeverEnds` | `Windowing.WindowedChecked` |
| src/Operations/Terminal/CalculatingOperations.php:79-80 | (With line 75's `fromTraversable` read as `convert`; as written, line 75 raises Error first.) After plucking the seed, `foreach` over the cursor calls `rewind`, which raises once index 0 is no longer READY. | `reduce(fn($a, $b) => $a + $b)` over [1, 2] raises BadMethodCall | 3, a left fold seeded with the first element (tests/integration/Operations/Terminal/CalculatingOperationsTest.php:55-64) | medium (not executed) | `Calculating.ReduceOneTwo` | `Calculating.ReduceCorrected` |
| src/Operations/Stateless/FlatteningSequence.php:60-65 | (With the line 7 import resolved; as written, line 7 makes iteration raise Error first.) `map(f)` on a `flatten()` stores `f` as the flattening transform, so `f` sees the outer elements rather than the flattened items. | `flatten().map(x => [x])` over [[1, 2]] yields [[1, 2]] | [[1], [2]]: `map` applies to each element of the flattened sequence (src/Sequence.php:418-430) | high (not executed) | `Flattening.FlattenThenMap` | `Flattening.FlatteningSequence.MapCorrected` |
| src/Operations/Terminal/CalculatingOperations.php:75 | `Iterations::fromTraversable` is called, but `Iterations` declares only `build`, `buildLinked` and the private `convert` (src/Iteration/Iterations.php:26-53). The same call is at WindowedSequence.php:75, ZippingSequence.php:48-49, ZippingWithNextSequence.php:42 and DefaultingWhenEmptySequence.php:42. So `reduce`, and the sequences of those classes (`windowed`, `chunked`), raise Error on first use. | `reduce(fn($a, $b) => $a + $b)` over [1, 2] raises Error "Call to undefined method" | an adapter over the upstream iterator, as the private `convert` builds, which yields its items | high (not executed) | `Iterations.OpenAsWrittenVersusConvert` | `Iterations.IterateSource` |
| src/Operations/Stateless/FlatteningSequence.php:7 | `DeferredIterator` is imported from `BradynPoulsen\Sequences\Operations`, where no such class is declared; DefaultingWhenEmptySequence.php:7 does the same. So every sequence of those two classes raises Error when iterated. | a FlatteningSequence without transform over [[1, 2]], iterated, raises Error "Class not found" | [1, 2], through the library's own `BradynPoulsen\Sequences\DeferredIterator` | high (not executed) | `Flattening.FlattenAsWritten` | `Flattening.FlatteningSequence.GetIterator` |
| src/Operations/Terminal/PredicateSearchingOperations.php:145 | Without a predicate, `single` calls `null`, a TypeError on the first element. | `single()` over [5] | 5: the predicate is optional (src/Sequence.php:583-588), so every element matches | high (not executed) | `Searching.SingleWithoutPredicate` | `Searching.SingleCorrected` |
| src/Traits/StatefulOperationsTrait.php:70 | `FilteringSequence::SEND_WHEN_FALSE` is not declared (src/Operations/Stateful/FilteringSequence.php:17-66), so `filterNot` raises an Error. | `filterNot(fn($x) => $x > 1)` over [1, 2] | [1]: a `FilteringSequence` with `sendWhen` false | high (not executed) | `Composing.FilterNotAsWrittenFails` | `Composing.FilterNot` |
| src/Traits/StatefulOperationsTrait.php:80-84 | `minus` goes through `filterNot`, so every iteration raises the undefined-constant Error. | `minus(new ArrayIterator([2]))` over [1, 2], iterated twice | [1], then SequenceAlreadyIterated (with a Generator, the second iteration as written fails on the rewind instead) | high (not executed) | `Composing.MinusIteratorAsWritten` | `Composing.MinusIteratorTwice` |
