# Verification model of greaseLog and the allocator it ships with

greaseLog is a logger for node.js whose native half brings its own copy of tcmalloc (gperftools 2.4). This project
models the parts of both that keep intricate state, and proves what they promise for every input, every run and every
interleaving. It is plain Dafny 4.11 without libraries; `dafny verify dfyconfig.toml` checks all of it (the
configuration file only names the files, all `*.dfy` here).

| modules | what they model |
|---|---|
| `AddressMaps` | the hash of clusters, blocks and entries that maps addresses to values, with its free list and the search for the range around an address |
| `HeapProfileTables` | buckets of counters per allocation stack, totals, and objects whose value packs a pointer and two flags |
| `RegionSubtraction` | which mapped memory is a root: regions are cut out of libraries, stacks out of regions or libraries |
| `LeakCheckers` | the hooks, the flood with its explicit stack, and the check, down to the address map |
| `MappedWords`, `LeakRoots` | what the check takes for a root, said of words in mapped memory, and so what it reports |
| `SizeMaps`, `Arithmetic` | size classes, span sizes, and the flattened index from sizes to classes |
| `CentralLists`, `CentralSystems`, `CentralRuns` | the central free lists as a machine: one step per hold of a lock, any number of threads and classes |
| `CentralFreeLists` | one such list in memory, with chains linked through the objects |
| `CentralOwners`, `CentralCaching` | where every object is, over any run of the central free lists: none is lost; what is cached, and which class gives up an entry |
| `ClassSpans` | size classes and central lists together: spans of the size table |
| `FreeQueues` | the queue of freed blocks of the debug allocator, as a ring and as a machine |
| `HookLists` | the hook array with locked writers and readers without a lock |
| `LogTargets` | the buffers of a log target, as a machine and on bytes |
| `LogDelivery`, `LogReferences` | which messages are taken, and which can be lost; which references are given back |
| `FilterRouting` | filter lists, bloom masks, sifting and routing of messages |
| `FilterRules` | what is sifted out and where a message goes, said of masks, filters and targets |
| `FileRotation` | numbered log files |
| `Lists`, `Sums`, `Common` | sequences without repetition; sums over maps; optional values and the null pointer |

Each method that the code has keeps its shape: the same branches, loops and fields. It is proved against functions on
values, and the theorems are about these. Memory is indexed by integers that stand for pointers, so links are updated in
place and aliasing is explicit. Concurrent code is a machine whose steps are what happens under one hold of a lock, or
one load or store where there is none; values read without a lock may be anything. Sizes, capacities, numbers of
classes, threads, banks and names are parameters.

Alignment, page size, hash functions, the contents of memory, what the operating system maps, what the page heap gives
out, formatted headers and footers, and whether a queue to another thread has room are inputs.

## Findings

| theorem | what the code does |
|---|---|
| `FileRotation.HiddenForeverIff` | rotation replaces a file that a gap in the numbers hides, in the end, unless a limit below its number is set (`FileRotation.RotationIs`: not in the first rotation after start) |
| `FileRotation.NeverOverflowsIff` | without a limit on the number of files, or with one above ten, rotation in the end waits for ever for room in its own list; with ten, the oldest file is renamed to a name that does not exist (`FileRotation.NamedForeverIff`) |
| `FileRotation.NewestAreKept` | `max_files` rotated files are kept beside the current one; the comment at logger.h:2237 counts the current one among them |
| `FileRotation.FileTarget.CheckFiles` | a total size of 0 does not switch that limit off, although logger.h:2238 says so |
| `LogTargets.LongPrefixOverruns` | the allowance for a prefix covers header and footer but not the delimiter, and the copy after a rotation is not checked: a record can be longer than its new buffer. Exactly then (`LogTargets.WriteFits`) |
| `LogReferences.ReleasedIff` | a rotation that finds no free buffer clears the current one but not its reference: the grease thread's count never comes down to zero again. The same holds for an empty record without header in an empty buffer, and for nothing else (an instance is `LogReferences.OneStays`) |
| `FilterRouting.SiftTwice` | a message with no filter list that is to be filtered out by default is logged when it is sifted again from its cache |
| `HookLists.HookList.TraverseAsCalled` | callers of Traverse have seven places for eight slots: all hooks are returned exactly if some slot is empty, and otherwise the single hook is left out (`HookLists.RoomForAllIff`) |
| `RegionSubtraction.OnlyFirstAddressIsMissed` | the lookup of a region misses the first address of one that starts where another ends, and nothing else (`RegionSubtraction.FoundIffFindable`; an instance is `RegionSubtraction.AdjoiningRegionIsMissed`) |
| `HeapProfileTables.ConservationIff` | recording a live pointer again makes the totals drift from the objects, for good |

Where comments and code disagree, the model follows the code: the comments at logger.cc:84 and logger.cc:88 call the
second and third hash "just tag" and "just origin", which is the wrong way round (`FilterRouting.HashParts`); the header
at heap-profile-table.h:175 says that the non-live snapshot skips ignored objects, which it does not look at (they are
never reported all the same, `LeakCheckers.IgnoredIsNeverReported`).

## Model

| member | source | states |
|---|---|---|
| AddressMaps.AddressMap.FindInside | deps/gperftools-2.4/src/addressmap-inl.h:359-403 | With ranges that do not overlap, the backward walk returns the one stored range that holds the address or starts at it, and none exactly when there is none that `max_size` lets it get to; the walk goes strictly down |
| AddressMaps.ResolveIsExact | deps/gperftools-2.4/src/addressmap-inl.h:129-139 | If no stored range is larger than `max_size`, "the range found" and "the range that holds the address" are the same: stopping on `max_size` loses nothing |
| AddressMaps.SmallerStops | deps/gperftools-2.4/src/addressmap-inl.h:371-384 | A stored key at or below the address whose range does not hold it rules out every range further back, so stopping on `had_smaller_key` is right |
| AddressMaps.AddressMap.ScanBlock | deps/gperftools-2.4/src/addressmap-inl.h:370-382 | One block list is searched completely: found, or no key of the block holds the address, and whether some key is at or below it |
| AddressMaps.AddressMap.FindMutable | deps/gperftools-2.4/src/addressmap-inl.h:294-306 | Finds the entry of a key exactly when the map holds the key, with its value |
| AddressMaps.AddressMap.Insert | deps/gperftools-2.4/src/addressmap-inl.h:308-338 | The map afterwards is the old one with the key set; chains, blocks and the free list stay well formed |
| AddressMaps.AddressMap.Refill | deps/gperftools-2.4/src/addressmap-inl.h:323-331 | A batch of 64 entries, linked in place, becomes the free list; the contents do not change |
| AddressMaps.AddressMap.FindAndRemove | deps/gperftools-2.4/src/addressmap-inl.h:340-357 | Returns the value of the key if there is one and leaves the map without the key; the entry goes to the free list |
| AddressMaps.AddressMap.FindCluster | deps/gperftools-2.4/src/addressmap-inl.h:214-233 | The hash chain of an address leads to the one cluster of its id, or to NULL exactly if there is none |
| AddressMaps.AddressMap.Iterate | deps/gperftools-2.4/src/addressmap-inl.h:405-420 | Visits every stored key exactly once |
| AddressMaps.FreePlusStored | deps/gperftools-2.4/src/addressmap-inl.h:322-337 | The free list and the stored keys together are exactly 64 entries per allocated batch |
| AddressMaps.FollowFalls | deps/gperftools-2.4/src/addressmap-inl.h:162-167 | Following links from a record never comes back to it and ends in NULL: lists are acyclic |
| AddressMaps.HeadLeadsTo | deps/gperftools-2.4/src/addressmap-inl.h:156-167 | From the head of a list the links lead to exactly the records of that list, so lists are disjoint |
| AddressMaps.InsertKeepsShape | deps/gperftools-2.4/src/addressmap-inl.h:332-337 | Taking an entry off the free list and linking it into its block keeps every entry in the list of its own cluster and block |
| AddressMaps.RemoveKeepsShape | deps/gperftools-2.4/src/addressmap-inl.h:345-353 | Unlinking an entry, from the head or from behind another, and freeing it keeps the shape of all lists |
| AddressMaps.AddressBits | deps/gperftools-2.4/src/addressmap-inl.h:216-237 | The shifts and masks on 64-bit addresses are the divisions and remainders of the model |
| HeapProfileTables.ConservationIff | deps/gperftools-2.4/src/heap-profile-table.cc:210-234 | Over any sequence of calls, allocations minus frees count the recorded objects if and only if no live pointer was recorded again; then every bucket balances too, in counts and in bytes |
| HeapProfileTables.CountersMatchObjects | deps/gperftools-2.4/src/heap-profile-table.cc:210-234 | In general each counter exceeds what the map holds by exactly what was overwritten |
| HeapProfileTables.TotalIsSumOfBuckets | deps/gperftools-2.4/src/heap-profile-table.cc:210-234 | `total_` is always the sum over all buckets |
| HeapProfileTables.HeapProfileTable.GetBucket | deps/gperftools-2.4/src/heap-profile-table.cc:167-202 | One bucket per distinct stack: the one there is, or a new one at the head of its hash chain |
| HeapProfileTables.HeapProfileTable.RecordAlloc | deps/gperftools-2.4/src/heap-profile-table.cc:210-223 | The profile afterwards is the step that `AllocIsCharged` describes: one allocation more for the bucket of this very stack and for the total, and the object recorded with both flags clear |
| HeapProfileTables.AllocIsCharged | deps/gperftools-2.4/src/heap-profile-table.cc:210-223 | An allocation is charged to the bucket of its own stack, which is new only if no bucket had that stack; all other buckets stay; the object carries that bucket |
| HeapProfileTables.FreeIsCharged | deps/gperftools-2.4/src/heap-profile-table.cc:225-234 | A free is charged to the bucket where the object was allocated; all other buckets stay; an unknown pointer changes nothing |
| HeapProfileTables.RecordedIs | deps/gperftools-2.4/src/heap-profile-table.cc:210-234 | After any sequence of calls an address is recorded exactly if the last call of an allocation or free for it was an allocation; its bucket then has the stack of that call, its size is of that call, and its flags are set exactly if they were since |
| HeapProfileTables.BucketIsCharged | deps/gperftools-2.4/src/heap-profile-table.cc:210-234 | After any sequence of calls the counters of a stack are the sums over the calls that were charged to it: its allocations, and the frees of what it had allocated last |
| HeapProfileTables.HeapProfileTable.RecordFree | deps/gperftools-2.4/src/heap-profile-table.cc:225-234 | Takes a recorded object out of the map and counts the free where it was allocated; an unknown pointer changes nothing |
| HeapProfileTables.HeapProfileTable.FindInsideAlloc | deps/gperftools-2.4/src/heap-profile-table.cc:253-261 | The recorded object that an address points into, with its size |
| HeapProfileTables.HeapProfileTable.MarkAsLive | deps/gperftools-2.4/src/heap-profile-table.cc:263-270 | True exactly if the object is recorded and was not live; it is live afterwards and nothing else changes |
| HeapProfileTables.HeapProfileTable.NonLiveSnapshot | deps/gperftools-2.4/src/heap-profile-table.cc:417-430 | The snapshot holds exactly the recorded objects that are not live and not in `base`, unchanged, and its totals count exactly these; afterwards all live bits are clear |
| HeapProfileTables.Snapshot.Add | deps/gperftools-2.4/src/heap-profile-table.h:384-388 | The map gets the object; the two totals stay the count and bytes of the map exactly unless the pointer was there already: then it is counted a second time |
| HeapProfileTables.Snapshot.Empty | deps/gperftools-2.4/src/heap-profile-table.h:364-366 | Testing the two totals tells whether the snapshot holds anything |
| HeapProfileTables.AllocValue.SetLive | deps/gperftools-2.4/src/heap-profile-table.h:199-203 | Sets the live flag and leaves the bucket pointer and the ignore flag alone |
| HeapProfileTables.AllocValue.SetIgnore | deps/gperftools-2.4/src/heap-profile-table.h:205-209 | Sets the ignore flag and leaves the bucket pointer and the live flag alone |
| HeapProfileTables.PackingBits | deps/gperftools-2.4/src/heap-profile-table.h:190-219 | The masks on the packed word are the quotients and remainders of the model |
| LeakCheckers.HeapLeakChecker.DoNoLeaks | deps/gperftools-2.4/src/heap-checker.cc:1736-1810 | The verdict is "no leaks" exactly if every recorded object outside `base` is reachable from the roots; the increases are the number and bytes of the others; the second look without alignment reports whether it would find none; objects and flags end as they began, so another check is valid. What is reachable is said without the batches of roots by `LeakRoots.NotReportedIff` |
| LeakCheckers.HeapLeakChecker.FindLeaks | deps/gperftools-2.4/src/heap-checker.cc:1769-1774 | Flood and snapshot together hold exactly the unreachable objects that are not in `base`, with all live bits clear again: those that `LeakRoots.NotReportedIff` says nothing leads to |
| LeakCheckers.HeapLeakChecker.IgnoreLiveObjectsLocked | deps/gperftools-2.4/src/heap-checker.cc:1392-1507 | Afterwards the live objects are those that were, and those reachable from the stack of roots; the totals grow by exactly their number and bytes; the loop ends by the measure (objects not live, stack size) |
| LeakCheckers.HeapLeakChecker.ScanObject | deps/gperftools-2.4/src/heap-checker.cc:1407-1499 | Every aligned word of the object has been followed; the flood invariant holds and the counts follow the live set |
| LeakCheckers.FloodFinds | deps/gperftools-2.4/src/heap-checker.cc:1466-1496 | Marking and pushing what a word of a pending object points into keeps the flood sound and complete |
| LeakCheckers.FloodMarksRoot | deps/gperftools-2.4/src/heap-checker.cc:1403-1406 | Marking a popped object that must be on the heap keeps the flood sound and complete |
| LeakCheckers.FloodEnds | deps/gperftools-2.4/src/heap-checker.cc:1392-1507 | With an empty stack, sound and complete together say: live is reachable |
| LeakCheckers.ReachUnion | deps/gperftools-2.4/src/heap-checker.cc:1093-1140 | Roots can be flooded in batches: reachable from the union is reachable from one of them |
| LeakCheckers.FilterIsSafe | deps/gperftools-2.4/src/heap-checker.cc:1451-1465 | The address bounds never turn down a word that the lookup would accept, zero-sized objects included |
| LeakCheckers.AlignUp | deps/gperftools-2.4/src/heap-checker.cc:1412-1421 | The rounding of an object's start skips no aligned word that lies in it |
| LeakCheckers.HeapLeakChecker.NewHook | deps/gperftools-2.4/src/heap-checker.cc:567-593 | Widens bounds and largest size first and then records, so that the bounds hold every recorded object; new objects are not live; ranges stay apart exactly if the new one does not overlap |
| LeakCheckers.HeapLeakChecker.DeleteHook | deps/gperftools-2.4/src/heap-checker.cc:595-603 | Forgets the object and keeps all that the check relies on |
| LeakCheckers.HeapLeakChecker.IgnoreAllLiveObjectsLocked | deps/gperftools-2.4/src/heap-checker.cc:1261-1355 | After all batches of roots exactly the reachable objects are live and counted; the cap on object sizes applies to the flood only; it fails exactly if an ignored object is gone. `LeakRoots.AllRootsAre` says what the batches hold together |
| LeakCheckers.HeapLeakChecker.FloodStacks | deps/gperftools-2.4/src/heap-checker.cc:1038-1103 | Registers the stacks of the other threads, floods them, then their registers, then registers and floods the own stack; the libraries and regions come out as registration leaves them |
| LeakCheckers.HeapLeakChecker.FloodGlobals | deps/gperftools-2.4/src/heap-checker.cc:1143-1238 | Floods, library by library, what the regions leave of it |
| LeakCheckers.GlobalRootsAre | deps/gperftools-2.4/src/heap-checker.cc:1143-1232 | An address is in some global root exactly if a library has mapped it and no subtracted region holds it |
| LeakCheckers.HeapLeakChecker.PushIgnored | deps/gperftools-2.4/src/heap-checker.cc:1105-1122 | Pushes every object that was named to be ignored; fails exactly if one is gone or has another size |
| LeakCheckers.HeapLeakChecker.PickRoots | deps/gperftools-2.4/src/heap-checker.cc:725-786 | Iterating over all allocations pushes exactly the objects picked |
| LeakCheckers.CappedSize | deps/gperftools-2.4/src/heap-checker.cc:1275-1279 | The flag caps the size unless it is -1, and as an unsigned number: no negative flag caps a size below half of the address space |
| LeakCheckers.RefersIsExact | deps/gperftools-2.4/src/heap-checker.cc:2364-2377 | Without a cap below the object sizes, a word refers to the object it points into |
| LeakCheckers.FinerReportsFewer | deps/gperftools-2.4/src/heap-checker.cc:1787-1809 | Looking at every address reports no object that looking at aligned words does not |
| LeakCheckers.IgnoredIsNeverReported | deps/gperftools-2.4/src/heap-checker.cc:1126-1131 | Neither an object recorded under a Disabler nor anything it refers to is reported, although the snapshot does not look at the mark |
| LeakCheckers.BitsAreCleared | deps/gperftools-2.4/src/heap-profile-table.cc:421-422 | Clearing the live bits takes the table back to where it was before the flood |
| LeakRoots.NotReportedIff | deps/gperftools-2.4/src/heap-checker.cc:1261-1355 | An object is not reported if and only if it is in `base`, or a path of words leads to it that begins with an object the check was told of or with a word it reads as a root: in the live part of a stack, in a register, or in a library where no subtracted region and no stack is |
| LeakRoots.AllRootsAre | deps/gperftools-2.4/src/heap-checker.cc:1045-1138 | The batches together hold exactly these words, each eight bytes long, and exactly the objects named, marked or picked |
| LeakRoots.RootedLeads | deps/gperftools-2.4/src/heap-checker.cc:1392-1507 | What the roots reach at once is an object named, or one that a root word points at, or one that a word of an object named points at |
| MappedWords.RegisteredAllWords | deps/gperftools-2.4/src/heap-checker.cc:1045-1103 | After all stacks: exactly the words in use on some stack are live, a library keeps exactly the words that no stack took, and exactly the regions found by some top are marked |
| MappedWords.RegisteredWords | deps/gperftools-2.4/src/heap-checker.cc:632-723 | The same of one stack |
| MappedWords.FilteredKeepsWords | deps/gperftools-2.4/src/heap-checker.cc:1158-1221 | A word stays readable after the cutting exactly if one interval held all of it and no subtracted region has a byte of it: cutting never joins and never tears but at a region |
| RegionSubtraction.FilteredIsExact | deps/gperftools-2.4/src/heap-checker.cc:1158-1221 | After the nested loops exactly the addresses of the library that no subtracted region holds are left, and disjoint intervals stay disjoint |
| RegionSubtraction.SubtractRegion | deps/gperftools-2.4/src/heap-checker.cc:1186-1215 | One pass over the intervals, case by case, cuts the region out of all of them |
| RegionSubtraction.CutAllIsExact | deps/gperftools-2.4/src/heap-checker.cc:1188-1215 | The five cases of the cut leave, of all intervals together, exactly the addresses outside of the region |
| RegionSubtraction.CutAllKeepsDisjoint | deps/gperftools-2.4/src/heap-checker.cc:1188-1215 | Pieces of disjoint intervals are disjoint |
| RegionSubtraction.FilterByRegions | deps/gperftools-2.4/src/heap-checker.cc:1158-1221 | The loop over the regions cuts out, one after the other, exactly the regions to be subtracted, and tells whether some region has no caller |
| RegionSubtraction.ShouldSubtract | deps/gperftools-2.4/src/heap-checker.cc:1169-1183 | A region stays only if it is no stack and the first range that ends after its caller covers the caller; `RegionStaysIff` says it of the ranges |
| RegionSubtraction.RegionStaysIff | deps/gperftools-2.4/src/heap-checker.cc:1169-1183 | With ranges apart, a region is left in the libraries exactly if it is no stack, the ranges are known, it has a caller, and that is inside some range |
| RegionSubtraction.SpecialCallerIff | deps/gperftools-2.4/src/heap-checker.cc:1174-1181 | Looking at that one range finds a caller inside some range exactly if no range hides the one that covers it |
| RegionSubtraction.LibraryCallerIsFound | deps/gperftools-2.4/src/heap-checker.cc:873-887 | With ranges that do not overlap, as libraries are mapped, every caller inside of a range is found |
| RegionSubtraction.FindRegion | deps/gperftools-2.4/src/memory_region_map.cc:333-348 | One look at the first region that does not end before the address |
| RegionSubtraction.FoundIffFindable | deps/gperftools-2.4/src/memory_region_map.cc:333-348 | The lookup finds a region exactly if one holds the address and none ends at it |
| RegionSubtraction.OnlyFirstAddressIsMissed | deps/gperftools-2.4/src/memory_region_map.cc:333-348 | An address in a region is found there, except the first one of a region that begins where the one before ends: for that one nothing is found |
| RegionSubtraction.AdjoiningRegionIsMissed | deps/gperftools-2.4/src/memory_region_map.cc:333-348 | An instance: two regions side by side, and the lookup of the first address of the second one returns nothing |
| RegionSubtraction.ChoppedIsStack | deps/gperftools-2.4/src/heap-checker.cc:676-689 | What the chopping leaves holds the stack top, touches no region but one around the top, and is as large as that allows |
| RegionSubtraction.RegisterStack | deps/gperftools-2.4/src/heap-checker.cc:632-723 | Registering a stack leaves the mapping that `RegionIsRegistered` and `LibraryStackIsRegistered` describe |
| RegionSubtraction.RegionIsRegistered | deps/gperftools-2.4/src/heap-checker.cc:644-660 | With a region found: one new live piece, which holds exactly the addresses of the region from the top on, or below the top if the stack grows up; the region is marked as a stack, nothing else changes |
| RegionSubtraction.LibraryStackIsRegistered | deps/gperftools-2.4/src/heap-checker.cc:662-722 | Otherwise the stack comes out of the first library that holds the top, and the new live piece holds exactly its addresses on the used side of the top; stack and rest together hold exactly what the library held, and apart; with neither, nothing becomes live |
| RegionSubtraction.PutBackIsRest | deps/gperftools-2.4/src/heap-checker.cc:706-715 | The parts put back and the stack reassemble the interval |
| SizeMaps.SizeMap.Init | deps/gperftools-2.4/src/common.cc:122-218 | Succeeds exactly if the number of classes is as expected; then all tables are right, every class moves as many objects at a time as `NumMoveIff` says, and the double-check has passed |
| SizeMaps.SizeMap.SizeClass | deps/gperftools-2.4/src/common.h:225-227 | With the table filled, the class of every size up to the largest is the right one |
| SizeMaps.RightIsLeast | deps/gperftools-2.4/src/common.cc:191-212 | The right class is the least class that can hold the size |
| SizeMaps.SizeMap.DoubleCheck | deps/gperftools-2.4/src/common.cc:191-212 | Passes if and only if the table is right for all sizes, although it samples them |
| SizeMaps.SizeMap.FillClassArray | deps/gperftools-2.4/src/common.cc:181-189 | No index is left unfilled and each says the right class |
| SizeMaps.SameIndexIff | deps/gperftools-2.4/src/common.h:198-207 | Two sizes have one index exactly if they end in the same bucket |
| SizeMaps.BucketIsWhole | deps/gperftools-2.4/src/common.h:198-207 | No index bucket lies on both sides of a class size |
| SizeMaps.IndexSeparates | deps/gperftools-2.4/src/common.h:198-207 | Sizes on both sides of the end of a bucket have different indices, in order |
| SizeMaps.NextIsStep | deps/gperftools-2.4/src/common.cc:139-141 | Adding its alignment to a size gives a multiple of the alignment of the sum, so the check in the loop never fails |
| SizeMaps.NoStepBetween | deps/gperftools-2.4/src/common.cc:139-141 | The walk over sizes skips none that is a multiple of its own alignment |
| SizeMaps.AlignmentForSize | deps/gperftools-2.4/src/common.cc:77-97 | A power of two, at most a page, computed in three bands |
| SizeMaps.AlignmentIs | deps/gperftools-2.4/src/common.cc:77-97 | That power of two with numbers: the page above the largest size; from 128 on the one between an eighth and a sixteenth of the size, or the page; the smallest alignment or 8 below |
| SizeMaps.LgFloor | deps/gperftools-2.4/src/common.cc:63-75 | The position of the highest bit |
| SizeMaps.SpanSize | deps/gperftools-2.4/src/common.cc:144-155 | The nested page-growing loops end, with the number of bytes that SpanIsLeast characterises |
| SizeMaps.SpanIsLeast | deps/gperftools-2.4/src/common.cc:144-155 | The bytes of a span are the least number of whole pages, from the one given on, that wastes at most an eighth and holds enough objects to move, and at least one |
| SizeMaps.SpanBytesIff | deps/gperftools-2.4/src/common.cc:144-155 | The same said with numbers: the bytes of a span are the least whole pages that hold n objects with at most an eighth left over, n being a fourth of what is moved at a time, rounded down, or more; this holds of that number and of no other |
| SizeMaps.ClassesWasteLittle | deps/gperftools-2.4/src/common.cc:145-169 | Every class, merged or not, wastes at most an eighth of its span and holds at least one object |
| SizeMaps.ClassesMerge | deps/gperftools-2.4/src/common.cc:158-169 | Sizes share a class exactly as far as pages and objects per span stay the same |
| SizeMaps.SizeMap.FillNumObjectsToMove | deps/gperftools-2.4/src/common.cc:214-217 | Every class gets the number of objects to move that `NumMoveIff` describes |
| SizeMaps.NumMoveIff | deps/gperftools-2.4/src/common.cc:99-119 | The number of objects moved at a time is at most the flag, and then the largest that moves no more than 64 KB, but two if even two are more than that: this holds of that number and of no other |
| CentralRuns.RunKeepsInv | deps/gperftools-2.4/src/central_freelist.cc:82-368 | Over any interleaving of any number of threads the invariant holds at every point: spans, lists, counters, cache, hands and locks agree; and the entries of all transfer caches together, with those on their way, are what they were but for those dropped by a thread that came back to a class at its maximum, and so never grow |
| CentralRuns.NextKeepsInv | deps/gperftools-2.4/src/central_freelist.cc:82-368 | Every step of every thread, under any lock and in any state that meets the invariant, keeps the invariant |
| CentralRuns.InitialInv | deps/gperftools-2.4/src/central_freelist.cc:47-80 | The invariant holds after Init of all classes, with caches no larger than the first size |
| CentralRuns.InitialCacheIff | deps/gperftools-2.4/src/central_freelist.cc:47-80 | The cache of a class starts with 16 entries, or its maximum if that is less; the maximum is the length of the array, and then as many chains as make up no more than 1 MB, but one if even one is more: this holds of that number and of no other |
| CentralRuns.NoWaitWhileHolding | deps/gperftools-2.4/src/central_freelist.cc:138-144 | A thread that waits for the lock of a class or of the page heap holds no lock |
| CentralRuns.NoDeadlock | deps/gperftools-2.4/src/central_freelist.cc:189-214 | While some thread has work, some thread can take a lock or run: no deadlock |
| CentralRuns.SpaceAfterGrowing | deps/gperftools-2.4/src/central_freelist.cc:167-186 | When the cache is grown a slot is free, although the lock was dropped in between |
| CentralCaching.CachesIff | deps/gperftools-2.4/src/central_freelist.cc:231-242 | A chain is cached exactly if it is full and there is a free slot, or the thread has come back with an entry and the class is below its maximum; otherwise the section changes nothing but what its thread does next |
| CentralCaching.AsksIff | deps/gperftools-2.4/src/central_freelist.cc:167-186 | A class that is full and below its maximum first asks another class that seems to have an unused entry, then, if that was none or did not help, another that seems to have any, by force; else the objects go back to their spans |
| CentralCaching.GivesUpIff | deps/gperftools-2.4/src/central_freelist.cc:202-229 | A class that is asked gives up one entry exactly if it has one and that is unused or it is forced; the chain of an entry in use is then in the hands of the thread |
| CentralRuns.RemoveRangeHandsOut | deps/gperftools-2.4/src/central_freelist.cc:246-318 | At most N different objects, nobody's before, the program's after |
| CentralRuns.RemoveRangeFallsShort | deps/gperftools-2.4/src/central_freelist.cc:246-288 | Before and after asking the page heap: fewer than N only if no free object is left on a chain of the class; none at first exactly if there is neither a chain nor a slot to pop, and then the page heap is asked; none at the end exactly if it had no span either |
| CentralRuns.NextKeepsSlots | deps/gperftools-2.4/src/central_freelist.cc:233-258 | A step of any thread pops at most the last cached chain of a class or puts one behind the others; the others stay as they are |
| CentralRuns.CachedChainStays | deps/gperftools-2.4/src/central_freelist.cc:218-258 | Over any run, a cached chain stays in its slot, in its order, its objects out of reach of everyone, as long as that slot is not popped |
| CentralRuns.PoppedAsCached | deps/gperftools-2.4/src/central_freelist.cc:233-258 | So what RemoveRange pops from a slot is the chain that was cached there, whatever came on top of it and went in between |
| CentralRuns.RunIsSteps | deps/gperftools-2.4/src/central_freelist.cc:82-368 | A run takes its steps one after the other, each allowed where the run has come to |
| CentralRuns.CachesStaySmall | deps/gperftools-2.4/src/central_freelist.cc:47-80 | From the start on, over any run: the transfer caches of all classes together never have more entries than they began with, at most the first size for each class |
| CentralRuns.CallsBegin | deps/gperftools-2.4/src/central_freelist.cc:231-247 | A call begins with its thread waiting for the lock of the class and the chain in its hands; a thread that takes a free lock goes on with its work, and nothing else changes |
| CentralOwners.NothingIsLost | deps/gperftools-2.4/src/central_freelist.cc:82-368 | Whatever the run from the start: each object that a thread holds is one its work has in hand, and once all threads are done every object is on the chain of its span, in a slot of the cache, or the program's |
| CentralOwners.NextKeepsHands | deps/gperftools-2.4/src/central_freelist.cc:82-368 | No step of any thread drops an object: what is with a thread afterwards is in its hands or of the span that goes with it |
| CentralLists.RefcountIsExact | deps/gperftools-2.4/src/central_freelist.cc:116-131 | The reference count of a span is the number of its objects that are not on its chain |
| CentralLists.FetchKeepsClass | deps/gperftools-2.4/src/central_freelist.cc:290-318 | Taking objects off the first chain keeps the class |
| CentralLists.FetchMoreKeepsClass | deps/gperftools-2.4/src/central_freelist.cc:265-275 | Taking objects off one span after the other keeps the class and takes what it takes off the counter; fewer than asked only if all chains are empty |
| CentralLists.ReleaseKeepsClass | deps/gperftools-2.4/src/central_freelist.cc:104-149 | Giving back one object keeps the class, also when the span dies and leaves it |
| CentralLists.OthersAreFree | deps/gperftools-2.4/src/central_freelist.cc:129-137 | A count of one means that all other objects are on the chain: the span may go |
| CentralLists.FetchUndoesReleaseIff | deps/gperftools-2.4/src/central_freelist.cc:104-149 | Last in, first out: fetching one object takes the one released last and puts everything back, exactly if its span is the first of its list |
| CentralLists.ReleaseUndoesFetchIff | deps/gperftools-2.4/src/central_freelist.cc:290-318 | Releasing what has just been fetched puts everything back, exactly if another object of its span was out; otherwise the span goes |
| CentralLists.NewSpanKeepsClass | deps/gperftools-2.4/src/central_freelist.cc:363-367 | Adding a carved span keeps the class |
| CentralLists.PushSlotKeepsClass | deps/gperftools-2.4/src/central_freelist.cc:233-242 | Caching a chain keeps the class |
| CentralLists.PopSlotKeepsClass | deps/gperftools-2.4/src/central_freelist.cc:249-258 | Taking a chain out of the cache keeps the class and gives a full chain of different objects |
| CentralLists.ResizeKeepsClass | deps/gperftools-2.4/src/central_freelist.cc:176-183 | Growing or shrinking the cache between the slots in use and its maximum keeps the class |
| CentralSystems.SpanDiesKeepsInv | deps/gperftools-2.4/src/central_freelist.cc:131-144 | A span that leaves its class for the page heap takes all of its objects along |
| CentralSystems.ShrinkForcedKeepsInv | deps/gperftools-2.4/src/central_freelist.cc:218-226 | A cache that is shrunk by force gives up a slot, and its chain is in the hands of the thread before the lock is dropped |
| CentralSystems.TryEvictKeepsInv | deps/gperftools-2.4/src/central_freelist.cc:151-165 | Choosing a victim, with values read without its lock, keeps the invariant |
| CentralFreeLists.CentralFreeList.RemoveRange | deps/gperftools-2.4/src/central_freelist.cc:246-278 | In memory: a NULL-ended chain of exactly the number of objects returned, from start to end, all of them free before or new, and the program's now, while every other object is where it was; empty only if nothing was left and no span was to be had |
| CentralFreeLists.CentralFreeList.InsertRange | deps/gperftools-2.4/src/central_freelist.cc:231-244 | Caches the chain as it is, or releases each of its objects to its span: then each is on its chain or gone with its span, and all other objects are where they were (`AllAreGivenBack`) |
| CentralFreeLists.CentralFreeList.FetchFromOneSpans | deps/gperftools-2.4/src/central_freelist.cc:290-318 | Cuts the first chain behind the last object taken |
| CentralFreeLists.CentralFreeList.FetchObjects | deps/gperftools-2.4/src/central_freelist.cc:260-277 | Puts further chains in front until there are enough |
| CentralFreeLists.CentralFreeList.ReleaseToSpans | deps/gperftools-2.4/src/central_freelist.cc:104-149 | Links the object in front of the chain of its span, or takes the span off the lists |
| CentralFreeLists.CentralFreeList.ReleaseListToSpans | deps/gperftools-2.4/src/central_freelist.cc:82-88 | Releases every object of a chain, reading each link before it is overwritten; afterwards each object of the chain is free on its span or gone with it, the spans that die are exactly those all of whose other objects were free or in the chain, each once, and no other object moves |
| CentralFreeLists.AllAreGivenBack | deps/gperftools-2.4/src/central_freelist.cc:82-88 | What the loop computes, object by object, is that outcome: which objects become free, which spans die, what stays, and the counter |
| CentralFreeLists.OneGivenBack | deps/gperftools-2.4/src/central_freelist.cc:116-149 | Which spans die is settled by the chain as a whole: a span dies exactly if it dies with the first object or for the rest of the chain, and none of the rest belongs to one that dies first |
| CentralFreeLists.CentralFreeList.Populate | deps/gperftools-2.4/src/central_freelist.cc:321-368 | Adds a span of new objects, all on its chain |
| CentralFreeLists.CentralFreeList.MakeCacheSpace | deps/gperftools-2.4/src/central_freelist.cc:167-186 | True means that there is a free slot |
| CentralFreeLists.SpaceIff | deps/gperftools-2.4/src/central_freelist.cc:167-186 | There is space exactly if the present size, or one more with an entry given up and within the maximum, has a free slot; the cache gets the least such size |
| CentralFreeLists.Carve | deps/gperftools-2.4/src/central_freelist.cc:346-360 | Links exactly the objects that fit into the span |
| CentralFreeLists.CarvedIsApart | deps/gperftools-2.4/src/central_freelist.cc:346-360 | The carved objects lie inside the span, in order and apart |
| CentralFreeLists.ChainSplit | deps/gperftools-2.4/src/linked_list.h:67-84 | Cutting a chain makes two chains |
| CentralFreeLists.ChainJoin | deps/gperftools-2.4/src/linked_list.h:86-90 | SLL_PushRange makes one chain of two |
| ClassSpans.PopulateFillsSpan | deps/gperftools-2.4/src/central_freelist.cc:349-360 | On a span of the size table: at least one object, all inside, apart, and at most an eighth left over |
| ClassSpans.ReleaseTakesSpan | deps/gperftools-2.4/src/central_freelist.cc:131-136 | The number subtracted when a span dies is the number carved |
| ClassSpans.TablesStartRuns | deps/gperftools-2.4/src/central_freelist.cc:47-80 | With the numbers of the size tables every run of the central lists begins in the invariant |
| FreeQueues.FreeQueue.Push | deps/gperftools-2.4/src/debugallocation.cc:176-179 | The ring is a FIFO: pushing appends |
| FreeQueues.FreeQueue.Pop | deps/gperftools-2.4/src/debugallocation.cc:181-186 | Popping a queue that is not empty takes the oldest entry |
| FreeQueues.FreeQueue.Full | deps/gperftools-2.4/src/debugallocation.cc:172-174 | Full means that one place is left |
| FreeQueues.DelayedFree.TakeBatch | deps/gperftools-2.4/src/debugallocation.cc:599-617 | One hold of the lock takes the oldest entries, at most four, only as long as there is too much; the queue is not full when the lock is given up |
| FreeQueues.DelayedFree.ProcessFreeQueue | deps/gperftools-2.4/src/debugallocation.cc:579-624 | A lone call frees the oldest blocks in order and ends at or below the limit; neither check can fire |
| FreeQueues.NextKeepsInv | deps/gperftools-2.4/src/debugallocation.cc:579-624 | With any number of threads: whenever the lock is free the ring has room and the byte count is that of its entries |
| FreeQueues.FreedOnce | deps/gperftools-2.4/src/debugallocation.cc:609-613 | Each entry is freed at most once, by the thread that took it, in the order of pushing |
| FreeQueues.RunKeepsInv | deps/gperftools-2.4/src/debugallocation.cc:579-624 | Over any run of any number of threads the invariant holds; once all threads are done, every entry taken has been freed |
| FreeQueues.InitialInv | deps/gperftools-2.4/src/debugallocation.cc:586-588 | The empty queue is where runs begin |
| FreeQueues.IdleIsWithinLimit | deps/gperftools-2.4/src/debugallocation.cc:579-624 | Over any run from the start, however the threads take turns: when all are idle the queue is within its limit |
| FreeQueues.NextPushes | deps/gperftools-2.4/src/debugallocation.cc:586-588 | A block is pushed once, when its thread first gets the lock, and nothing else is pushed |
| FreeQueues.RunIsSteps | deps/gperftools-2.4/src/debugallocation.cc:579-624 | A run takes its steps one after the other |
| HookLists.HookList.Add | deps/gperftools-2.4/src/malloc_hook.cc:167-189 | Takes the first free ordinary slot, fails exactly if there is none |
| HookLists.HookList.Remove | deps/gperftools-2.4/src/malloc_hook.cc:201-219 | Clears the first slot that holds the hook, fails exactly if none does |
| HookLists.HookList.FixupPrivEndLocked | deps/gperftools-2.4/src/malloc_hook.cc:191-199 | The end is one past the last hook |
| HookLists.HookList.ExchangeSingular | deps/gperftools-2.4/src/malloc_hook.cc:236-249 | Replaces the single hook and returns the old one |
| HookLists.HookList.Traverse | deps/gperftools-2.4/src/malloc_hook.cc:221-234 | Undisturbed, it returns the hooks in order, as many as there is room for |
| HookLists.RunKeepsInv | deps/gperftools-2.4/src/malloc_hook.cc:167-249 | Over any interleaving of stores and loads: after each completed writer call `priv_end` is one past the last hook |
| HookLists.TraverseIsFair | deps/gperftools-2.4/src/malloc_hook.cc:221-234 | A reader without the lock that runs to its end with room left returns every hook that was before the end when it began and stayed in its slot; it returns nothing that was not in its slot at some time since, and no slot twice |
| HookLists.BeginsWithCompleted | deps/gperftools-2.4/src/malloc_hook.cc:183-187 | The only hook not before the end is one whose writer has yet to store it |
| HookLists.RoomForAllIff | deps/gperftools-2.4/src/malloc_hook.cc:477-478 | The callers' seven places are enough for all hooks exactly if one of the eight slots is empty; otherwise what is left out is the single hook |
| HookLists.HookList.TraverseAsCalled | deps/gperftools-2.4/src/malloc_hook.cc:477-478 | Traversing with seven places returns all hooks exactly if some slot is empty, and otherwise all but the single one |
| HookLists.InitialInv | deps/gperftools-2.4/src/malloc_hook.cc:251-254 | The empty list is where runs begin |
| HookLists.CallIsTwoStores | deps/gperftools-2.4/src/malloc_hook.cc:167-249 | The two stores of a writer change the slot that its call says, and the end to one past the last hook; readers change neither |
| HookLists.BeginsIff | deps/gperftools-2.4/src/malloc_hook.cc:167-219 | A writer may store to a slot exactly if none is at work and there is such a slot: a free ordinary one, or one that holds the hook |
| HookLists.RunIsSteps | deps/gperftools-2.4/src/malloc_hook.cc:167-249 | A run takes its steps one after the other, each allowed where the run has come to |
| LogTargets.FlushedInOrder | logger.h:1893-1997 | Over any run from the start: what is flushed is some of the accepted messages, each whole and once, in order; no queue of buffers exceeds its capacity; the count of the grease thread covers every buffer in flight |
| LogTargets.RunFits | logger.h:1943-1985 | If header, footer and delimiter stay within the allowance, no buffer is overrun in any run |
| LogTargets.WriteFits | logger.h:1927-1997 | A single write stays inside its buffer exactly if it does not put a record longer than a bank into a new one |
| LogTargets.LongPrefixOverruns | logger.h:1973-1985 | The allowance leaves out the delimiter, so a record can be longer than its new buffer |
| LogTargets.RotateHasRoom | logger.h:1900-1911 | When a free buffer was there the write-out queue has room: the branch for a full one cannot be taken |
| LogTargets.UnrefIsSafe | logger.h:558-568 | The assertion on the count holds whenever a buffer with data comes back |
| LogTargets.RotatedKeepsInv | logger.h:1893-1925 | Rotation keeps every buffer in exactly one place and the order of messages |
| LogTargets.WrittenKeepsInv | logger.h:1927-1997 | A write keeps every buffer in one place, the order of messages and the count of the grease thread |
| LogTargets.FlushedKeepsInv | logger.h:2046-2056 | Handing the oldest waiting buffer to flush keeps all three |
| LogTargets.ReturnedKeepsInv | logger.h:1817-1840 | The return of a written buffer keeps all three, and there is room for it among the free ones |
| LogTargets.FinalizedKeepsInv | logger.h:1809-1815 | The end of a callback keeps all three, and there is room for the buffer among the free ones |
| LogTargets.InitialInv | logger.cc:558-566 | The constructor sets up one current buffer and the rest free: the invariant holds and all buffers fit |
| LogDelivery.NothingIsLost | logger.h:1893-1997 | Over any run from the start the accepted messages are those that the writes took, and as long as no rotation is without a free buffer, each of them is flushed or waits in a buffer, in order |
| LogDelivery.WriteDelivers | logger.h:1927-1997 | A write takes its message exactly if it is not too large and fits into the current buffer or finds another one; it comes behind all others, and others are lost only if the buffer has data and none is free |
| LogDelivery.RotateLoses | logger.h:1893-1925 | A rotation with a free buffer loses nothing; without one it loses exactly what is in the current buffer |
| LogDelivery.WhereBuffersGo | logger.h:1809-1840 | A written buffer with data waits as it is exactly if its callback is wanted, and is emptied and free otherwise, and after the callback |
| LogReferences.ReleasedIff | logger.h:543-566 | Over any run from the start: the count of references of the grease thread is the number of buffers with data that have yet to come back, and one more for each step that overwrote a buffer or wrote nothing into an empty one; so once all are back the thread can be let go exactly if there was no such step |
| LogReferences.NextRefs | logger.h:1817-1997 | What each step does to that difference: no step gives back a reference too many, and exactly those two leave one behind |
| LogReferences.OneStays | logger.h:1913-1917 | An instance: one buffer, one message, a rotation that finds no other buffer; nothing is left to be written and the count stays at one |
| LogTargets.LogTarget.DoWrite | logger.h:1927-1997 | On buffers of bytes: too large a message is passed on, one that fits is copied whole, any other goes into a new buffer if there is one |
| LogTargets.LogTarget.DoRotate | logger.h:1893-1925 | On buffers of bytes, rotation swaps in a free buffer, or clears the current one if none is free, and tells which |
| LogTargets.LogTarget.FlushAll | logger.h:2046-2056 | Hands out the bytes of the waiting buffers, oldest first |
| LogTargets.LogTarget.ReturnBuffer | logger.h:1817-1840 | Clears the buffer or keeps it for its callback |
| LogTargets.LogTarget.FinalizeV8Callback | logger.h:1809-1815 | Clears the buffer after its callback and makes it available |
| LogTargets.CopiesMakeRecord | logger.h:1474-1487 | Up to three copies make one record: header, text, footer, delimiter |
| FilterRouting.Router.HandleNewLog | logger.cc:184-243 | A message is written once for each filter that takes it, in the first list present of (tag, origin), (origin), (tag), (neither), and to the default target if none does |
| FilterRouting.RoutedOnce | logger.cc:192-234 | One write per filter that takes the message, in the order of the list, or the one write to the default target |
| FilterRouting.TakersAre | logger.cc:196-229 | The filters that take it are exactly those that are on, whose mask meets the level, and whose target is the default or known and not ignored |
| FilterRouting.BloomIsExact | logger.h:692-706 | The bloom mask turns a level down exactly if every filter of the list does |
| FilterRouting.NoMatchNoTaker | logger.cc:194-230 | A list that is skipped on its bloom mask has no filter that takes the message |
| FilterRouting.FilterList.Add | logger.h:695-706 | Appends in the first empty place, fails exactly if there is none |
| FilterRouting.FilterList.IsValid | logger.h:692-694 | Some filter of the list meets the level |
| FilterRouting.Router.Sift | logger.cc:69-118 | Drops a message whose level is filtered out, trusts a cache that is there, and otherwise caches the hashes and the first list present in their order |
| FilterRouting.SiftTwice | logger.cc:69-118 | Sifting again changes no cache; the verdict is the same exactly unless no list was found while the default is to filter out |
| FilterRouting.HashParts | logger.h:2888-2892 | The three cached hashes are those of (tag, origin), of the origin alone and of the tag alone |
| FilterRouting.HashIsInjective | logger.h:2883-2886 | Different tags or origins have different hashes |
| FilterRouting.NoCacheHash | grease_client.h:110 | Only one tag and origin look like no cache |
| FilterRouting.Router.AddFilter | logger.h:2900-2931 | Fails exactly if the list of the tag and origin is full; otherwise the new filter, with a number above all others, is last in that list; all other lists are untouched and the next call may follow |
| FilterRouting.Router.ModifyFilter | logger.cc:1158-1216 | Changes whether the one filter with that number is disabled, and its target, and nothing else; true exactly if there is such a filter in the list of the tag and origin |
| FilterRouting.ModifiedAscends | logger.h:2900-2931 | Numbers in a list ascend, so the filter that is found by its number is the only one that has it |
| FilterRouting.FilterList.Find | logger.h:708-720 | A filter with the number, or none exactly if no filter of the list has it |
| FilterRouting.Router.RouteOne | logger.cc:196-228 | One write exactly if the filter takes the message, to its target, or to the default target if it names none |
| FilterRouting.HashBits | logger.h:2883-2892 | The masks and shifts on 64-bit words are the products and remainders of the model |
| FilterRouting.Router.RouteList | logger.cc:194-230 | The loop over one list writes for exactly its takers |
| FilterRouting.Router.IsIgnored | logger.cc:200-212 | True exactly if the message has an ignore list that names the target before its end mark |
| FilterRules.SiftedIs | logger.cc:69-118 | A level in the filter-out mask gives false; a cache is trusted; otherwise the message gets its hashes and the first list there is of (tag, origin), (origin), (tag), (neither), and passes exactly if there is one or the default is not to filter out |
| FilterRules.TakesIff | logger.cc:196-228 | A filter takes a message exactly if it is on, its mask has the level, and its target is the default or known and not named in the ignore list before its end |
| FilterRules.RoutedExactly | logger.cc:192-234 | One write for each filter that can deliver, in order, and none to a target that is disabled, ignored or unknown; one to the default target exactly if no filter can |
| FilterRules.ModifiedTakesIff | logger.cc:1199-1211 | A filter that is turned off takes no message from then on; one that is turned on takes what its mask and target let it; number and mask stay |
| FileRotation.NewestAreKept | logger.h:2581-2647 | However often files are rotated, numbers 1, 2, ... hold the newest contents in order, as many as the limit says beside the current file |
| FileRotation.RotationIs | logger.h:2587-2641 | One rotation moves every file up by one, the current one to 1, removes only numbers at or above the limit, touches nothing above, and lists what is there |
| FileRotation.HiddenIsSafe | logger.h:2587-2625 | A file behind a gap whose number is above the limit is never touched |
| FileRotation.HiddenIsReplaced | logger.h:2604-2622 | With no limit, or one not below its number, a hidden file is replaced by what was the oldest listed file |
| FileRotation.HiddenForeverIff | logger.h:2581-2647 | A hidden file outlives every run of rotations exactly if there is a limit and it is below its number |
| FileRotation.NamedForeverIff | logger.h:2565-2575 | Every file moved has a name, in every rotation of every run, exactly if there is a limit and it is below the number of names |
| FileRotation.NeverOverflowsIff | logger.h:2584-2645 | The list never overflows exactly if there is a limit and it is not above that number |
| FileRotation.ContiguousIffBase | logger.h:2628-2645 | The list of numbers is contiguous again exactly if there was a current file |
| FileRotation.FileTarget.RotateFiles | logger.h:2581-2648 | The loop moves and removes the listed files in order and renews the list; it does not return exactly if the list of moved files overflows |
| FileRotation.FileTarget.CheckFiles | logger.h:2650-2707 | Lists exactly the files up to the first gap, newest last, adds up their sizes, and says when to rotate |

## Left out

- Hash functions of stacks: parameters; only that equal keys have equal hashes is used.
- Integer widths: addresses, sizes and counters are unbounded, except where wrap-around decides a branch (the pointer offset flag, the free queue limit, the hashes).
- Records in memory have indices for pointers, and live in sequences; that they do not overlap in bytes is not modelled.
- The page heap, `Span` list primitives, spin locks and `Static`: pages given out are new and apart, locks are atomic, memory is sequentially consistent.
- CentralRuns.RunKeepsInv: the counter that picks the victim class is modelled as an arbitrary choice, and that every waiting thread gets its turn is not claimed.
- CentralFreeLists.CentralFreeList.RemoveRange: the method is one call without others in between; the interleavings are those of the machine in `CentralSystems`.
- FreeQueues.FreedOnce: checking freed blocks for dangling writes is not modelled.
- HookLists.TraverseIsFair: loads and stores are taken in program order; weaker memory orders are not modelled.
- The disabled code ranges and the test for stacks inside an object: `disabled` is a parameter that picks objects. Regions that come with new mappings during a check, thread listing and the reading of registers and maps are not part of this model.
- LeakCheckers.HeapLeakChecker.DoNoLeaks: objects in the table do not overlap, which `NewHook` keeps if the allocator hands out memory that is free; the case without frame pointers, symbolization, report printing and the self-check of the checker's own allocations are not part of this model.
- LeakRoots.NotReportedIff: the maps of a process do not overlap: library intervals are apart from each other, and so are the ranges of callers.
- TakeSnapshot, ReleaseSnapshot, profile dumps and their sorting: easy beside what is there.
- HeapProfileTables.HeapProfileTable.GetBucket: buckets are never freed, as in the code; the memory for the copied stack is not modelled.
- LogTargets.FlushedInOrder: calls on one target are taken one after the other; writes that are too large go another way that is not modelled; so is flushing in the calling thread, terminals, sockets and the `dlopen` targets.
- LogTargets.LogTarget.DoWrite: a disabled target ignores the call; that case is left out.
- FilterRouting.Router.HandleNewLog: the list that is read, if its bloom mask meets the level, is not full, for the loop stops at the end mark that a full one lacks; filters and targets do not change between sifting and routing.
- FilterRouting.Router.AddFilter: the labels that a filter may put around a message are left out; so is the target being there, which the code does not check.
- FileRotation.FileTarget.RotateFiles: operations on files that are there and have names succeed; others fail and change nothing. When to rotate after a write, and reopening the file, are left out.
- `tw_safeCircular` and the hash table of filters are a bounded queue and a finite map.
- V8 bindings, event loops, the `PipeSink`, overflow re-routing, colours, consoles and the scripts are not part of this model.
