# The PHP engine's core algorithms, in Dafny

This project models six pieces of the PHP 5 engine and its tools and proves what they promise.

* **The Zend memory manager** (`Zend/zend_alloc.c`, the 64-bit release layout). The heap is memory: a
  map from addresses to words. Blocks, tags, bucket arrays, tries, rings, segment list and cache lists
  are read from and written to those words, as the C code does. Ghost fields say what the words stand
  for, and one invariant ties the two together. `Bits`, `Rings`, `Tries`, `FreeLists` and `ListOps` are
  the data structures on their own; `FreeIndex` is the index of free blocks as a class; `Memory`,
  `Blocks`, `Sums`, `Chains`, `HeapView` and the `...Steps` files say what one write does to the whole;
  `ZendHeap` is the heap as a class; `HeapLaws` and `HeapRuns` draw the conclusions.
* **The path resolver and its cache** (`TSRM/tsrm_virtual_cwd.c`, the Unix branch). `PathText` has the
  text of paths and the component stack, `FileTree` an abstract file system with left-to-right
  resolution, `RealpathLaws` the resolver without its cache as a function. `PathBuffer` and `Realpath`
  are the code: the recursive resolver that rewrites a buffer of 4096 characters in place, with the
  chained hash cache of `RealpathCache` beside it. `RealpathSteps` says what each branch delivers,
  `CacheRuns` is about whole runs of the cache, and `VirtualCwd` has `virtual_file_ex` and the final
  statements.
* **Module ordering** (`Zend/zend_API.c`): `ModuleOrder`.
* **The thread resource manager** (`TSRM/TSRM.c`): `ThreadHistory` and `ThreadResources`.
* **The line differ of the test runner** (`run-tests.php`): `LineDiff`.
* **The printers of nested values** (`Zend/zend.c`): `Printer`.

Code that changes things in place is a class or a method over an array, with loops where the source has
loops; each such method is proved against a function or relation on values, and the lemmas beside it
say what that relation is worth. Large invariants (`HeapView.Core`, `FreeIndex.Index.Sealed`,
`Realpath.Kept`, `ThreadResources.Tsrm.Sane`) stand behind a quantifier with a marker predicate, so
that the verifier looks into them only where a proof says so (`assert Key(0)` and the like).

What the outside world does is a parameter: the storage layer may refuse or hand out any unused region
with any contents; `lstat` and `readlink` are a table by path; the clock, the hash key of a path, the
sizes of cache entries, the results of startup functions and the pattern matcher are arguments.

Where code and its documentation differ, the code was followed. `zend_startup_modules` always reports
success although its pass stops at, and unregisters, the first module that fails; `StartAll` returns
that failure.

## Model

| member | source | states |
|---|---|---|
| Bits.HighBit | Zend/zend_alloc.c:660-684 | the loop returns the position of the highest set bit |
| Bits.LowBit | Zend/zend_alloc.c:686-716 | the nibble table and its loop return the position of the lowest set bit |
| FreeLists.BucketBijection | Zend/zend_alloc.c:532-538 | for 8-aligned sizes from 32 up, bucket index and bucket size invert each other, and small means index below 64 |
| HeapBooks.TrueSizeFits | Zend/zend_alloc.c:534 | the true size is aligned and has room for the header, unless the 64-bit addition wraps, which is exactly when it falls below the request |
| Tries.InsertBelowShape | Zend/zend_alloc.c:753-778 | hanging a new size into the empty slot the walk found keeps the bitwise trie |
| Tries.RemoveLeafShape | Zend/zend_alloc.c:806-836 | taking out a leaf keeps the bitwise trie |
| Tries.RenameShape | Zend/zend_alloc.c:806-852 | putting a leaf below a node into the place of that node keeps the bitwise trie |
| FreeIndex.Index.AddToRestList | Zend/zend_alloc.c:718-733 | the index stays sound, the block joins the rest ring, and only link words change |
| FreeIndex.Index.AddToFreeList | Zend/zend_alloc.c:735-794 | exactly this block is added, to the ring of its size; tries, parent slots and both bitmaps stay right, and only link words change |
| FreeIndex.Index.RemoveFromFreeList | Zend/zend_alloc.c:796-865 | exactly this block leaves, whether it is a small block, a ring member, a tree member with a ring neighbour, a leaf or an inner node |
| FreeIndex.Index.RemoveSmall | Zend/zend_alloc.c:853-863 | a small block leaves and the small bitmap changes exactly where the code clears it, and stays sound |
| FreeIndex.Index.SearchLargeBlock | Zend/zend_alloc.c:1737-1808 | what is found is large enough, nothing is found only if no block of the tries is large enough, and an exact size is found if there is one |
| FreeIndex.Index.SearchRest | Zend/zend_alloc.c:1864-1880 | the scan of the rest list returns its best fit, and nothing only if no block there is large enough |
| FreeIndex.Index.constructor | Zend/zend_alloc.c:867-891 | over memory that holds anything, the empty index is sound |
| HeapLaws.PayloadsDisjoint | Zend/zend_alloc.c:497-518 | two allocations share no byte, and each lies between the header and the guard of one segment, away from the bucket arrays |
| HeapLaws.TiledSegment | Zend/zend_alloc.c:497-518 | every address behind a segment's header belongs to exactly one block |
| HeapLaws.BoundaryTags | Zend/zend_alloc.c:497-518 | the size word of a block is repeated in the second tag of the next one, and no two neighbours are both free |
| HeapLaws.FreeListedOnce | Zend/zend_alloc.c:718-794 | each free block is in exactly one ring: the rest list, or the ring its size belongs to |
| HeapLaws.ListedIsFree | Zend/zend_alloc.c:718-865 | what a ring holds besides its sentinel is a free block of the tiling |
| HeapLaws.Conservation | Zend/zend_alloc.c:1836-1979 | the bytes of all segments are the allocated, cached and free bytes and 32 bytes for each segment |
| ZendHeap.Heap.AllocInt | Zend/zend_alloc.c:1810-1985 | keeps the heap invariant and every other allocation, returns a block large enough for the request, stays within the limit when it takes a segment, and fails only if no listed block is large enough or the size wraps |
| HeapBooks.SegmentRoom | Zend/zend_alloc.c:1882-1892 | the rounded segment size has room for the block and 32 bytes more, unless the 64-bit addition wraps, which is exactly when it comes out below the block |
| ZendHeap.Heap.NewSegment | Zend/zend_alloc.c:1882-1930 | a new segment passes the limit test, counts in real_size, and brings one block large enough; a refusal changes nothing |
| ZendHeap.Heap.FreeInt | Zend/zend_alloc.c:1987-2045 | exactly this allocation goes, to the cache or, merged with its free neighbours, to the index or away with its segment; no other payload changes |
| ZendHeap.Heap.ReallocInt | Zend/zend_alloc.c:2047-2289 | in all five outcomes the common prefix of the contents is kept, no other allocation changes, the invariant holds and the limit is kept |
| ZendHeap.Heap.GrowSegment | Zend/zend_alloc.c:2191-2262 | growing a segment, in place or moved, keeps the contents and the invariant and ends within the limit |
| ZendHeap.Heap.DelSegment | Zend/zend_alloc.c:893-904 | the segment leaves the list and its words are unmapped, nothing else changes |
| ZendHeap.Heap.FreeCache | Zend/zend_alloc.c:906-947 | ends with every cache list empty and nothing cached; every block that was cached lies inside a listed free block or its segment is gone; allocations are untouched |
| HeapBooks.FlushedIntoFree | Zend/zend_alloc.c:906-947 | the whole extent of a block that was cached is inside one free block afterwards |
| ZendHeap.Heap.MemoryUsage | Zend/zend_alloc.c:2538-2549 | real usage is the sum of the segment sizes, the other the sum of the allocated blocks |
| HeapRuns.Run | Zend/zend_alloc.c:1810-2289 | any program of allocations, resizes, releases and writes that does not run out of memory ends with each buffer holding what was last written to it, and nothing else allocated |
| PathText.PartsOfRender | TSRM/tsrm_virtual_cwd.c:1117-1148 | splitting the text the resolver builds gives back the parts |
| PathText.NormalMeans | TSRM/tsrm_virtual_cwd.c:778-837 | the component stack has proper names only, after leading ".." if the path is relative |
| PathBuffer.PopRelative | TSRM/tsrm_virtual_cwd.c:806-837 | the in-place rewriting for ".." behind a relative path is one pop of the component stack, or one more ".." |
| Realpath.RealpathR | TSRM/tsrm_virtual_cwd.c:763-1160 | the in-place resolver delivers the component stack in expand mode and otherwise what the resolver without cache delivers, keeps the cache truthful, and ends on every file system, by the links left and then the length |
| VirtualCwd.ExpandPath | TSRM/tsrm_virtual_cwd.c:778-837 | expansion in place gives the component stack's text for absolute and relative paths, never longer than the path, and a second expansion changes nothing |
| PathText.ExpandedTwice | TSRM/tsrm_virtual_cwd.c:778-837 | the component stack's text is its own normal form |
| PathText.ExpandedNoLonger | TSRM/tsrm_virtual_cwd.c:1117-1148 | the component stack's text is never longer than the path |
| RealpathLaws.PlainAnswers | TSRM/tsrm_virtual_cwd.c:763-1160 | when resolution succeeds, the result is the path of the place that left-to-right resolution reaches |
| RealpathLaws.FoundResolves | TSRM/tsrm_virtual_cwd.c:1055-1063 | without dangling links, a path the system call finds resolves |
| VirtualCwd.PlainIsCanonical | TSRM/tsrm_virtual_cwd.c:763-1160 | in realpath mode the result has only proper names, no link among its prefixes, and names the place left-to-right resolution reaches |
| VirtualCwd.PlainFixed | TSRM/tsrm_virtual_cwd.c:1055-1148 | resolving a canonical path again follows no link and gives the path back |
| VirtualCwd.ResolvePath | TSRM/tsrm_virtual_cwd.c:838-1160 | with a truthful cache, whenever the resolver without cache succeeds the cached one gives the same path and directory flag (in realpath mode always, in filepath mode if no link dangles or the path resolves), and success means the canonical path |
| VirtualCwd.ResolveAll | TSRM/tsrm_virtual_cwd.c:843-860 | any run of questions to a cache that starts empty is answered as without a cache |
| RealpathSteps.HitResolved | TSRM/tsrm_virtual_cwd.c:849-858 | a cache hit delivers what the resolver without cache would |
| RealpathSteps.StoredTruth | TSRM/tsrm_virtual_cwd.c:1151-1154 | what is saved in the cache is true |
| RealpathSteps.LinkResolved | TSRM/tsrm_virtual_cwd.c:1070-1100 | the result for the path with the link's target in its place is the result for the path |
| VirtualCwd.CwdState.VirtualFile | TSRM/tsrm_virtual_cwd.c:1164-1371 | on any error the working directory stays; in expand mode success and the new directory are determined exactly; in realpath mode the new directory is the canonical path |
| VirtualCwd.ChdirPlace | TSRM/tsrm_virtual_cwd.c:1373-1376 | after chdir the working directory names the place that a walk along the path from the old one reaches |
| RealpathCache.FirstInChain | TSRM/tsrm_virtual_cwd.c:703-736 | looking in the chain of a path is looking in the whole list |
| RealpathCache.Cache.Find | TSRM/tsrm_virtual_cwd.c:703-736 | finds the newest entry for the path that has not expired; only expired entries are dropped; the byte counter stays the sum of the charges and within the limit |
| RealpathCache.Cache.Add | TSRM/tsrm_virtual_cwd.c:653-701 | the entry goes to the front unless it would exceed the limit |
| RealpathCache.Cache.Del | TSRM/tsrm_virtual_cwd.c:621-651 | the newest entry for the path goes, and nothing else |
| RealpathCache.Cache.Clean | TSRM/tsrm_virtual_cwd.c:604-619 | the cache is empty and its byte counter zero |
| CacheRuns.Run | TSRM/tsrm_virtual_cwd.c:604-736 | with a clock that does not go back, every run of operations is explained by one list, most recent first, from which nothing is ever dropped |
| ModuleOrder.SortModules | Zend/zend_API.c:1628-1661 | for acyclic dependencies the sort ends with a permutation in which no module that is not started stands before one it depends on |
| ModuleOrder.OrderedIsAcyclic | Zend/zend_API.c:1628-1661 | an order the sort could end with exists only if there is no cycle |
| ModuleOrder.StartModule | Zend/zend_API.c:1571-1625 | succeeds exactly with all required modules started and a working startup function, and leaves the started flag as the source does |
| ModuleOrder.StartupModules | Zend/zend_API.c:1663-1668 | a dependency can fail only because the required module is not registered; if all are and every startup function works, all modules are started |
| ThreadHistory.OnceOnly | TSRM/TSRM.c:215-379 | in a legal history no constructor or destructor runs twice for a block, and nothing happens to a freed block |
| ThreadResources.Tsrm.AllocateId | TSRM/TSRM.c:215-269 | every thread gets a block for the new resource, keeps what it had, and the table stays sound |
| ThreadResources.Tsrm.AllocateNewResource | TSRM/TSRM.c:272-311 | a thread gets one entry, in its chain, with a block for each resource that is not done |
| ThreadResources.Tsrm.ResourceEx | TSRM/TSRM.c:315-379 | with or without the thread-local fast path the caller gets the slot of its entry in the hash table, which is created if it has none |
| ThreadResources.Tsrm.FreeThread | TSRM/TSRM.c:442-480 | exactly the blocks of this thread are destroyed and freed, and it leaves its chain |
| ThreadResources.Tsrm.FreeId | TSRM/TSRM.c:530-560 | in every thread at most the slot of this id changes, and it is empty afterwards |
| ThreadResources.Tsrm.Shutdown | TSRM/TSRM.c:157-189 | every block that was ever created has been freed, after its destructor if it has one |
| ThreadResources.Run | TSRM/TSRM.c:157-560 | any interleaving of steps of any threads, then a shutdown, gives every block its life in order |
| LineDiff.LcsBounds | run-tests.php:2113-2153 | no matching of lines in both orders is longer than Lcs says |
| LineDiff.LcsAttained | run-tests.php:2113-2153 | there is a matching of that length |
| LineDiff.CountArrayDiff | run-tests.php:2113-2153 | the heuristic ends within its fractional step budget and never exceeds the longest common subsequence of the two suffixes |
| LineDiff.Merge | run-tests.php:2187-2212 | every recorded line is emitted once, those of each text in their order |
| LineDiff.GenerateArrayDiff | run-tests.php:2155-2224 | the lines the diff names are lines of the texts, in order, what it does not name agrees line by line, and it is empty exactly if the texts agree |
| LineDiff.Patched | run-tests.php:2155-2224 | in exact mode the diff and the actual text give the expected text back |
| LineDiff.GenerateDiff | run-tests.php:2226-2235 | with patterns and without, the diff is sound; in exact mode it restores the expected text |
| Printer.PrintZvalR | Zend/zend.c:373-389 | prints what the guard-free specification with a set of open tables says, ends on cyclic data, and restores every apply count |
| Printer.PrintHash | Zend/zend.c:120-175 | the same for the elements of a table |
| Printer.PrintFlatZvalR | Zend/zend.c:318-362 | the same for the flat form |
| Printer.ShownIsPlain | Zend/zend.c:373-389 | on data without cycles the text is that of a printer without any guard |
| Printer.UnmarkedIsAcyclic | Zend/zend.c:373-389 | if the recursion mark is never printed, the data has no cycle |
| Printer.AcyclicIsUnmarked | Zend/zend.c:373-389 | where there is no cycle, the mark is never printed |

## Left out

- ZendHeap.Heap.AllocInt: says nothing about the counters after a failure. The cache was flushed without adjusting `size`, and the source abandons the request; the run ends there.
- ZendHeap.Heap.ReallocInt: after a refusal of the storage layer the cache flush is not modelled, because a free neighbour has left its list by then; the run ends there.
- FreeIndex.Index.SearchLargeBlock: does not claim the smallest fitting block. The two descents take the second child where the first is present, so the code does not decide that.
- FreeIndex.Index.RemoveSmall: a set bit of the small bitmap means a non-empty ring, but not the other way round, since small blocks of the rest list share the clearing code.
- Realpath.RealpathR: symbolic links only for absolute paths, and link targets shorter than 4096 characters. A relative path without a working directory is expanded only.
- VirtualCwd.ResolvePath: with dangling links nothing is promised in filepath mode for a path that does not resolve. A dangling link is saved as "not a directory", which a later lookup below it takes for a failure.
- VirtualCwd.CwdState.VirtualFile: storage for the new path is always there.
- RealpathCache.Cache.Add: `malloc` does not fail; the hash key is any function of the path.
- ModuleOrder.StartupModules: startup functions do not register or start other modules, and globals constructors are left out.
- ThreadResources.Tsrm.FreeThread: destructor calls on NULL slots are left out.
- ThreadResources.Tsrm.ResourceEx: threads pass their own id, and the read outside the mutex is part of the step.
- ThreadResources.Tsrm.Shutdown: the table and the list of types are emptied where the source frees them.
- LineDiff.GenerateDiff: splitting and joining of texts at line ends and the three-digit form of line numbers are left out; there is one pattern for each expected line.
- Printer.PrintZvalR: tables of objects that are built for printing only are left out; keys are given as they are printed.
- The reserve block of the heap, its copy inside its own storage, debug and protection builds, leak checks, storage back ends and environment variables.
- Windows and NetWare branches, the `virtual_*` wrappers and argument parsing.
- `ts_free_worker_threads`, detached interpreter contexts and the begin and end handlers of new threads.
- The rest of `Zend/zend_API.c`, `Zend/zend.c` and `run-tests.php`.
