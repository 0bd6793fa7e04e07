# Quick-fit memory allocator — Dafny model

This project models the allocator engine `QuickFitMemoryAllocator` of the
Quick-Fit-Algorithm simulator. The engine keeps one free list per
power-of-two size class. It serves a request from the smallest class that is
large enough and still has a free block. It can also list the memory layout.

The model is functional. An allocator is an immutable `Allocator` value. It
holds the configuration, a map from size class to free count, a map from
start address to allocated `Block`, and the address counter. Initialisation,
allocation and the layout view are pure functions, and each returns the new
state together with its result.

- `wrappers.dfy`: `Option`, standing in for Python's `None`.
- `ordering.dfy`: ascending enumeration of a finite key set, the model of
  `sorted(d.keys())`.
- `size_classes.dfy`: the doubling ladder of size classes.
- `allocator.dfy`: state, invariant, construction, smallest-fit search and
  the allocation step.
- `layout.dfy`: the layout view, as `Region` records rather than text.
- `traces.dfy`: runs of allocation requests with no view in between.
- `scenario.dfy`: the default configuration (1024 KB total, 4 KB minimum)
  driven through a short session.

Each Python free list only ever holds copies of its own size, so a list is
modelled by its length, the free count. `remove` lowers the count by one.
The log strings become the `AllocResult` datatype: `Allocated(size, process,
address)` or `NoSuitableBlock(requested, process)`.

The layout view uses the same address counter as allocation. Its walk over
the free blocks advances that counter. As a result, the view is not
idempotent, and a later allocation is placed after the last view's walk. The
model keeps this behaviour as it is written. `Layout.DisplayNotIdempotent`
and `Layout.DisplayShiftsNextAllocation` state it.

Two consequences of the code are kept as they are:
- `min_block_size > total_memory` is accepted. The loop at
  quick_fit_algorithm.py:15 never runs, so there are no size classes, and
  `QuickFit.Init` does the same.
- `allocate` checks neither the request size nor the process name, so
  `QuickFit.Allocate` accepts any integer and any string. A request of zero
  or less is served from the smallest class with a free block.

## Model

| member | source | states |
|---|---|---|
| Ordering.SortedKeys | quick_fit_algorithm.py:38 | the keys are listed in strictly ascending order, each exactly once, and they are exactly the elements of the set |
| SizeClasses.Ladder | quick_fit_algorithm.py:14-17 | every class the doubling loop visits starts with a free count of one and lies between the starting size and the total memory |
| SizeClasses.LadderIsClasses | quick_fit_algorithm.py:14-17 | the classes built are exactly the sizes min·2^k that do not exceed the total memory |
| SizeClasses.DefaultLadder | quick_fit_algorithm.py:4-17 | the default configuration gives the nine classes 4, 8, …, 1024, each with one free block |
| QuickFit.Init | quick_fit_algorithm.py:4-17 | a new allocator has no allocated blocks and its counter at 0; its classes are exactly the power-of-two multiples of the minimum up to the total, each with one free block; and it satisfies the allocator invariant |
| QuickFit.ScanFit | quick_fit_algorithm.py:38-41 | the ascending scan returns a listed class that fits and is no larger than any other listed class that fits; it returns None exactly when no listed class fits |
| QuickFit.FindSuitable | quick_fit_algorithm.py:36-41 | the result is a class at least the requested size with a free block, and no smaller class has both; None is returned exactly when no class has both |
| QuickFit.FindSuitableIsLeastFit | quick_fit_algorithm.py:36-41 | a class that fits and is below every other fit is the one the search returns, so the search is fully determined by the smallest-fit rule |
| QuickFit.Take | quick_fit_algorithm.py:26-33 | a successful allocation from class b lowers b's free count by exactly one and leaves every other count alone; it adds exactly one record {b, process, not free} at the old counter and keeps the other records; the counter grows by b |
| QuickFit.Allocate | quick_fit_algorithm.py:19-34 | a request fails exactly when no class fits, and then the state is unchanged and the failure names the size and process; on success the chosen class is the smallest fit, the reported address is the counter before the call, and the state changes as `Take` states; the success names the requesting process |
| QuickFit.CounterIsFresh | quick_fit_algorithm.py:27-33 | under the invariant, the counter is not yet the address of any record, so a new record never overwrites an old one |
| QuickFit.TakeLowersTotalFree | quick_fit_algorithm.py:26 | a successful allocation lowers the total number of free blocks by exactly one |
| QuickFit.TakePreservesValid | quick_fit_algorithm.py:26-33 | a successful allocation keeps the invariant, adds exactly one record and strictly increases the counter |
| QuickFit.AllocateTakesLeastFit | quick_fit_algorithm.py:19-41 | when a class fits and no smaller class does, the request takes that class at the counter and reports that size, process and address |
| QuickFit.AllocatePreservesValid | quick_fit_algorithm.py:19-34 | each allocation keeps the invariant: declared classes, records below the counter that do not overlap, and free blocks plus records equal to one per class and to the number of classes overall |
| QuickFit.TotalFreeUpdate | quick_fit_algorithm.py:26 | setting one class's free count to v changes the total free count by v minus the old count, whatever the other classes hold |
| QuickFit.AllocateCounts | quick_fit_algorithm.py:19-34 | under the invariant, one request lowers the total free count by one and adds one record when it succeeds, and changes neither when it fails |
| QuickFit.AllocateNeverRaisesCounts | quick_fit_algorithm.py:19-34 | a request keeps the set of size classes and never raises any class's free count |
| QuickFit.OversizedRequestFails | quick_fit_algorithm.py:21-23 | a request larger than the total memory always fails and changes nothing, whatever the free counts |
| Layout.FreeRun | quick_fit_algorithm.py:51-55 | the inner loop emits one free entry of the class per free block, with no process name; the entries are laid back to back from the counter, which ends past them; their total size is size × count |
| Layout.FreeRegions | quick_fit_algorithm.py:50-55 | the walk over ascending classes emits entries in non-decreasing size order, exactly as many of each class as its free count, laid back to back from the counter; the counter ends past the total free capacity |
| Layout.UsedRegions | quick_fit_algorithm.py:46-49 | one entry per listed address, carrying that record's size, free flag and process name |
| Layout.UsedRegionsCover | quick_fit_algorithm.py:46-49 | listing ascending addresses that are exactly the record keys yields entries in strictly ascending address order, each matching its record, and every record appears in the list |
| Layout.UsedPart | quick_fit_algorithm.py:46-49 | the allocated part of the view lists every record exactly once, in strictly ascending address order, each entry matching its record |
| Layout.FreePart | quick_fit_algorithm.py:50-55 | the free part of the view has one entry per free block and all are marked free; sizes are non-decreasing; each class occurs as often as its free count; each entry's address is the starting counter plus the sizes of the earlier free entries |
| Layout.Display | quick_fit_algorithm.py:43-56 | the view is the allocated part followed by the free part; afterwards the free counts and records are unchanged and the counter has grown by the total free capacity |
| Layout.FirstFreeEntry | quick_fit_algorithm.py:50-55 | while a block is free, the first free entry follows the allocated entries and sits at the counter |
| Layout.DisplayPreservesValid | quick_fit_algorithm.py:43-56 | the view keeps the allocator invariant |
| Layout.DisplayNotIdempotent | quick_fit_algorithm.py:50-55 | while a block is free, the view strictly advances the counter and a second view returns different lines |
| Layout.DisplayShiftsNextAllocation | quick_fit_algorithm.py:43-56 | a view between allocations leaves the next request's class and its success unchanged, but moves its address forward by the total free capacity |
| Traces.RunAddressesContiguous | quick_fit_algorithm.py:27-33 | in a run of requests, each success is placed at the starting counter plus the sizes of the earlier successes, and the counter ends past all of them |
| Traces.RunKeepsValid | quick_fit_algorithm.py:19-34 | a run of requests keeps the invariant and the class set, and no free count ever rises |
| Traces.RunConserves | quick_fit_algorithm.py:19-34 | over a run, successes plus remaining free blocks equal the free blocks at the start, and each success adds exactly one record |
| Traces.FreshRun | quick_fit_algorithm.py:4-34 | from a new allocator, each success is placed at the sum of the earlier successes' sizes, and successes plus remaining free blocks equal the number of size classes |
| Scenario.DefaultAllocator | quick_fit_algorithm.py:4-17 | the default allocator has the nine classes with one free block each, no records, and its counter at 0 |
| Scenario.FirstRequest | quick_fit_algorithm.py:19-34 | in the default allocator, 10 KB for "P1" takes class 16 at address 0 |
| Scenario.SecondRequest | quick_fit_algorithm.py:19-34 | once class 16 is used up, 10 KB for "P2" falls through to class 32 at address 16 |
| Scenario.ThirdRequest | quick_fit_algorithm.py:21-23 | 2000 KB for "P3" fails and leaves the state unchanged |
| Scenario.ViewAfterSession | quick_fit_algorithm.py:43-56 | after the two requests, the view lists the record at 0, then the record at 16, then the first free entry: 4 KB at address 48 |
| Scenario.DefaultSession | quick_fit_algorithm.py:19-56 | any state with the default free lists, no records and the counter at 0 goes through the whole session with exactly those results |
| Scenario.ConstructedSession | quick_fit_algorithm.py:4-56 | the allocator built with the default arguments goes through the whole session with exactly those results |

## Left out

- The Streamlit interface (quick_fit_algorithm.py:1, 59-77) is left out. It covers the title, the sidebar inputs, the button and the text output. The input bound of 4–1024 KB is a policy of that interface, so the engine accepts any size.
- The wording of the log lines and display lines is left out. Each line becomes a record holding the values the line prints: `AllocResult` for `allocate`, `Region` for the view.
- QuickFit.Init requires `min_block_size > 0`. With a size of zero or less, the doubling loop never ends, so the source defines no result.
- Non-integer and negative configuration values are left out. Total memory and minimum block size are naturals, and the requested size is an unbounded integer, like a Python `int`. Python floats are not modelled.
- The `initialize_memory` method is modelled only as part of construction, which is the only place the source calls it.
- Deallocation, coalescing and splitting are left out because the source has none of them.
