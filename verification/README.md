# Proofs about the lookaround module and the nginx core beneath it

The repository is an nginx module that answers "who is near me" from a geo index in shared
memory, together with the nginx 1.4.1 core it runs on. This project models the parts of both
whose correctness rests on invariants, and proves those invariants, in Dafny 4.11.
`dafny verify dfyconfig.toml` checks everything.

What is modelled, and in which files:

- the red-black tree with parent pointers and a shared sentinel, as real linked nodes changed in
  place (`RbShape`, `RbRules`, `RbTree`, `RbDelete`). The ghost value of a tree is its shape; a
  loop that climbs works on a path, a tree with a hole;
- the shared-memory mutex as a state machine: any number of processes interleave at every read,
  compare-and-set, fetch-and-add and semaphore operation (`Shmtx`);
- the slab allocator (`SlabPool`, `SlabChunks`, `SlabSafety`: operations on a value and what they
  do to the live blocks; `SlabNodes`, `SlabLinks`, `SlabRep`, `SlabAllocator`: the descriptors,
  their doubly linked lists and the bitmaps, changed in place and tied to that value);
- the open file cache (`FileStore`, `FileOps`, `FileOpen`, `FileSafety`: the books and what the
  calls do to them; `FileAnswers`: what callers are told; `FileCache`: the cache as an object whose methods do the
  same to its fields);
- the geo index (`GeoMap`, `QuadTree`, `QuadUpdate`: the quadtree as a value; `GeoIndex`: the
  index with its linked lists, changed in place);
- the radix tree (`Radix`), the string map (`StrMap`), IPv6 text (`Inet6`, `Inet6Text`, and
  `InetGrammar`: what every text is read as), calendar arithmetic (`Calendar`), CRC-32 (`Crc32`),
  base64 (`Base64`, and `Base64Bits`: what it means bit by bit) and URI escaping (`Uri`).

Code that changes state is modelled by classes and loops whose contracts equate the new state
with a function of the old one; the properties are lemmas about those functions. `Lists`,
`Hexadecimal` and `Sealing` hold what several modules share. `Sealing` keeps a large invariant folded in proofs
that only pass it on.

## What the proofs found

Where the code and the evident intent or a comment disagree the model follows the code:

- `ngx_http_lookaround_remove_datanode_from_map` (src/ngx_http_lookaround_handler.c:640) returns
  at once for every data node, because its guard tests `pDataNode` where `pDataNode == NULL` must
  be meant. `QuadUpdate.SetItem` takes the guard as a parameter: as written the index stays right
  exactly for new items and for moves inside a leaf, as meant for every location in the root
  rectangle (`QuadUpdate.SetKeeps`). As written, an item that leaves its leaf and returns can make
  the leaf's list cyclic (`GeoIndex.LiteralCycle`).
- A location outside the root rectangle is counted and then dropped
  (src/ngx_http_lookaround_handler.c:498, 520-524), which breaks the counts; the same theorem
  shuts it out. Setting an item that exists changes its location, never its status or type.
- The open file cache is right exactly when the system's answers do not contradict each other
  about a file that is open (`FileSafety.OpenSafe`). There are two ways: the name now has the open
  file's identity and is a directory (a descriptor is closed and kept), or its identity changes
  between `stat` and `open` and is the old one again after `open` (a descriptor is lost).
- `ngx_slab_free_locked` notices every pointer that is no block except three kinds, of which two
  break the pool (`SlabSafety.FreeSafe`). A chunk that holds a page's bitmap is cleared in the
  bitmap. A pointer from the end of the last page up to `pool->end` passes the range test
  (nginx/src/core/ngx_slab.c:421) and leads to the descriptor after the last, which is zeroed, lies
  before the pages, or reaches into the first page (`SlabAllocator.StrayDescriptor`). One that lies
  before the pages and has the form of a descriptor breaks the pool exactly when it would put the
  missing page into a list (`SlabSafety.FullAstray` is an example). One that reaches into the first
  page, as in `SlabAllocator.StrayLayout`, is clients' data; unless it shows the pointer to be wrong
  the model stops there. The start of a free run is taken for a block, but `ngx_slab_free_pages`
  unlinks it first (nginx/src/core/ngx_slab.c:678-681), so that run only comes to the front of the
  free list and no live block is touched (`SlabSafety.FreeRunAgain`).
- Deleting the root of a red-black tree when it has exactly one child leaves the new root's parent
  pointing to the removed node (nginx/src/core/ngx_rbtree.c:190-201). Rotations and two-child
  deletions hand that pointer on to later roots until the tree is empty. `RbTree.Tree.Insert` and
  `RbDelete.Delete` state what each call does to it; all other links stay right in any case. The
  test of `subst->left` (nginx/src/core/ngx_rbtree.c:175-179) never succeeds.
- The table for NGX_ESCAPE_REFRESH does not escape the percent sign although its comment lists it
  (nginx/src/core/ngx_string.c:1426-1446); escaping is undone exactly without it (`Uri.RoundTrip`).
- `ngx_inet6_addr` takes 255.255.255.255 at the end of an address for an error, so exactly
  ::255.255.255.255 and ::ffff:255.255.255.255 are not read back (`Inet6.RoundTrip`). Of all the
  texts that section 2.2 of RFC 4291 allows it refuses those with that tail and those with "::"
  after seven groups, such as 1:2:3:4:5:6:7::, and no others (`InetGrammar.DenotedRead`). It accepts
  more than that section does: one colon before the first group is passed over.
- The comment on the escape table for arguments leaves out ";"
  (nginx/src/core/ngx_string.c:1367-1373), which the table has (`Uri.EscapedAre`).
- Deleting the empty prefix from a radix tree of one node follows the root's null parent
  (nginx/src/core/ngx_radix_tree.c:204-205), also when the prefix is stored; `Radix.RadixTree.Delete`
  returns Fault for exactly this.

## Model

| member | source | states |
|---|---|---|
| `RbTree.Tree.Insert` | nginx/src/core/ngx_rbtree.c:24-119 | the result is again a red-black tree with consistent links, and its node sequence is the old one with the node placed after all keys not greater and before all greater ones; the root's parent is null in a tree that was empty and what it was otherwise |
| `RbTree.Tree.LeftRotate` | nginx/src/core/ngx_rbtree.c:325-352 | a left rotation at any node turns the located subtree into its rotation and keeps all other links |
| `RbTree.Tree.RightRotate` | nginx/src/core/ngx_rbtree.c:355-382 | the mirror image |
| `RbShape.LeftKeepsOrder` | nginx/src/core/ngx_rbtree.c:325-352 | the rotation preserves the in-order node sequence |
| `RbShape.RightKeepsOrder` | nginx/src/core/ngx_rbtree.c:355-382 | the mirror image |
| `RbTree.Tree.Rise` | nginx/src/core/ngx_rbtree.c:46-93 | one turn of the insert fix-up, by red uncle or rotation, moves the only red-red conflict towards the root or ends it, and keeps order and black heights |
| `RbDelete.Delete` | nginx/src/core/ngx_rbtree.c:157-322 | for every valid tree and every node in it the result is valid, its node sequence is the old one minus exactly that node, and no other key changes; the new root's parent is the removed node if that was a root with at most one child and otherwise the old root's parent, so it is null if and only if it was and the node was not a root with exactly one child, or the tree is empty |
| `RbDelete.RemoveRoot` | nginx/src/core/ngx_rbtree.c:190-201 | a root with at most one child is replaced by the child, whose parent field still holds the removed node |
| `RbDelete.Fixup` | nginx/src/core/ngx_rbtree.c:249-321 | the loop ends and pays the missing black, also when the node moved up is the shared sentinel |
| `RbDelete.RemoveSubst` | nginx/src/core/ngx_rbtree.c:203-247 | the successor takes the place, links and colour of the node removed |
| `RbRules.SortedRemoved` | nginx/src/core/ngx_rbtree.c:157-322 | the sequence without the node is still sorted |
| `Shmtx.Safety` | nginx/src/core/ngx_shmtx.c:62-195 | in every run, with owners dying and force_unlock of dead owners, the invariant holds and at most one process owns the lock |
| `Shmtx.OwnershipKept` | nginx/src/core/ngx_shmtx.c:62-160 | every atomic step keeps: the lock word names the one owner, or a dead one, or is zero |
| `Shmtx.AccountedKept` | nginx/src/core/ngx_shmtx.c:83-130 | every step keeps: wait counter + claimed wake-ups + semaphore value cover the processes counted as sleeping, although the early return never gives its count back |
| `Shmtx.NoLostWakeupKept` | nginx/src/core/ngx_shmtx.c:83-195 | every step keeps: with the lock free and a process parked a post is there, a waker still runs or another process still tries |
| `Shmtx.NobodyCounted` | nginx/src/core/ngx_shmtx.c:174-180 | a waker that reads a zero counter may leave: a parked process then has a post coming |
| `Shmtx.StuckMeansDone` | nginx/src/core/ngx_shmtx.c:69-195 | no deadlock: if nothing can move and no dead process holds the lock, no call is unfinished |
| `Shmtx.RankFalls` | nginx/src/core/ngx_shmtx.c:69-195 | every step towards completing the calls in progress lowers a measure, in any order of processes |
| `Shmtx.EveryCallCompletes` | nginx/src/core/ngx_shmtx.c:69-195 | every call in progress completes, in any order of steps, once no new calls are made; also when processes have died, one of them with the lock, if another is then about to force it open: the lock ends free and all pending lock calls were granted |
| `Shmtx.StuckMeansRest` | nginx/src/core/ngx_shmtx.c:146-160 | the same for dead owners: if nothing can move, the lock was forced open |
| `Shmtx.TryLockAlone` | nginx/src/core/ngx_shmtx.c:62-66 | undisturbed, trylock takes a free lock and leaves any other as it is |
| `Shmtx.LockAlone` | nginx/src/core/ngx_shmtx.c:69-135 | undisturbed, lock takes a free lock at once; otherwise it spins as often as configured, counts itself as waiting and sleeps, or without a semaphore tries again |
| `Shmtx.UnlockAlone` | nginx/src/core/ngx_shmtx.c:136-195 | undisturbed, unlock by the owner and force_unlock of a dead owner free the lock and wake exactly one of the waiting, if any; otherwise they change nothing |
| `Shmtx.WokenAlone` | nginx/src/core/ngx_shmtx.c:106-125 | a woken process takes a free lock |
| `SlabPool.ChunkFacts` | nginx/src/core/ngx_slab.c:324-345 | for every size class chunks fill a page and the bitmap fits in the chunks reserved for it |
| `SlabPool.CutCovered` | nginx/src/core/ngx_slab.c:617-660 | cutting pages off a free run keeps every page in exactly one run |
| `SlabSafety.PagesFirstFit` | nginx/src/core/ngx_slab.c:617-663 | a request for pages fails exactly when no single free run is long enough, and otherwise takes the first that fits |
| `SlabSafety.AllocGives` | nginx/src/core/ngx_slab.c:152-395 | allocation keeps the pool in order and makes exactly one more live block, of the smallest sufficient class, or changes nothing; it fails exactly when neither a page with room nor a long enough run is left |
| `SlabSafety.FreeTakes` | nginx/src/core/ngx_slab.c:409-614 | releasing a live block keeps the pool in order and takes away exactly that block |
| `SlabSafety.FreeSafe` | nginx/src/core/ngx_slab.c:409-614 | for every pointer from pool->start on, where one behind the last page reads something of a descriptor's form that lies before the pages or shows the pointer to be wrong: the pool stays in order if and only if the pointer is neither to a chunk that holds a bitmap nor one for which what is read would be put in a list; otherwise one that is to no block changes nothing, or brings the free run that starts there to the front of the list |
| `SlabSafety.FullAstray` | nginx/src/core/ngx_slab.c:488-506 | all ones, read behind the last descriptor as a page of the exact size, put the missing page in a slot's list and break the pool |
| `SlabSafety.FreeRunAgain` | nginx/src/core/ngx_slab.c:666-690 | releasing the start of a free run leaves every live block and its size as they were |
| `SlabChunks.MoveFrontOk` | nginx/src/core/ngx_slab.c:678-687 | the pool whose free run came to the front of the list is in order |
| `SlabChunks.Disjoint` | nginx/src/core/ngx_slab.c:152-395 | live blocks never overlap |
| `SlabChunks.BlockFacts` | nginx/src/core/ngx_slab.c:152-395 | a live block lies in the pool, is aligned to its class and is clear of the bitmap in its page |
| `SlabSafety.EveryBlock` | nginx/src/core/ngx_slab.c:152-614 | over every sequence of allocations and of releases of any pointers into the pages, wrong and repeated ones included, that do not hit a bitmap, each block that a client holds is live, large enough, in the pool, aligned and clear of bitmaps |
| `SlabSafety.EveryRun` | nginx/src/core/ngx_slab.c:152-614 | and no two of them ever overlap |
| `SlabSafety.EveryListedPageHasRoom` | nginx/src/core/ngx_slab.c:192-315 | in every run a page is in a slot's list exactly when it is a page of that slot with a free chunk, so the search ends at the first page |
| `SlabSafety.PagesConserved` | nginx/src/core/ngx_slab.c:617-690 | the lengths of the free runs and the pages in use always add up to the pool |
| `SlabNodes.UnlinkedList` | nginx/src/core/ngx_slab.c:643-646 | the pointer writes of an unlink take one page out of its circular list |
| `SlabNodes.SwappedList` | nginx/src/core/ngx_slab.c:630-640 | the pointer writes of a split put the rest of a run in its place |
| `SlabRep.CutRep` | nginx/src/core/ngx_slab.c:617-663 | descriptors after ngx_slab_alloc_pages represent the pool after the cut, all lists consistent |
| `SlabRep.EmptyRep` | nginx/src/core/ngx_slab.c:470-484 | the same for a page whose last chunk is released |
| `SlabRep.MoveFrontRep` | nginx/src/core/ngx_slab.c:666-690 | the same for the start of a free run released once more |
| `SlabAllocator.FindSmall` | nginx/src/core/ngx_slab.c:199-238 | the search through a bitmap of several words finds the first free chunk and tells whether the page is full afterwards |
| `SlabAllocator.FindShift` | nginx/src/core/ngx_slab.c:177-180 | the shift loop finds the smallest size class that holds the request |
| `SlabAllocator.SmallInUse` | nginx/src/core/ngx_slab.c:464-480 | the test of the bitmap words tells whether any chunk but the reserved ones is taken |
| `SlabAllocator.LayOutFits` | nginx/src/core/ngx_slab.c:93-130 | for any memory: slots and descriptors end before the pages start, the pages end in the memory exactly when it does not end before they start, and three pages of memory give at least one |
| `SlabAllocator.StrayDescriptor` | nginx/src/core/ngx_slab.c:112-130 | all pointers to no page that pass the range test lead to the one descriptor after the last; it is one of the zeroed ones if pages were taken off again, and otherwise follows the descriptors by less than a page before the first page, into which it reaches when less than 24 bytes are left |
| `SlabAllocator.ReleaseSafe` | nginx/src/core/ngx_slab.c:112-130 | for every memory in which the descriptor after the last ends before the pages, the exact condition for every pointer; where pages were taken off again only a chunk with a bitmap breaks the pool |
| `SlabAllocator.StrayLayout` | nginx/src/core/ngx_slab.c:112-130 | a layout in which that descriptor is the start of the first page |
| `SlabAllocator.Slabs.constructor` | nginx/src/core/ngx_slab.c:76-130 | the memory written represents one free run of the pages that fit |
| `SlabAllocator.Slabs.AllocLocked` | nginx/src/core/ngx_slab.c:152-395 | the in-place code does what Alloc does to the pool and keeps all descriptors, lists and bitmaps consistent |
| `SlabAllocator.Slabs.FreeLocked` | nginx/src/core/ngx_slab.c:409-614 | the same for a release of any pointer: the memory represents what Release makes of the pool, which is in order unless the pointer was to a chunk that holds a bitmap; the result tells exactly whether the source goes on with a descriptor behind the last |
| `FileOps.ReleasedOk` | nginx/src/core/ngx_open_file_cache.c:951-961 | a use ends: an indexed entry stays, a detached one is freed exactly when this was its last user |
| `FileOps.ExpireKeeps` | nginx/src/core/ngx_open_file_cache.c:1028-1076 | eviction takes entries off the tail of the queue, at least one when forced, at most three, and keeps the books and every user's descriptor |
| `FileOps.ExpireIdle` | nginx/src/core/ngx_open_file_cache.c:1040-1056 | all that goes had been idle too long, except the one forced out |
| `FileOps.ExpireLeastRecent` | nginx/src/core/ngx_open_file_cache.c:1028-1076 | what goes was used no later than anything that stays |
| `FileAnswers.RememberedAnswer` | nginx/src/core/ngx_open_file_cache.c:191-227 | what the cache knows of a name, from no longer ago than the caller allows and with the identity it expects, is told: the descriptor, the directory or the error; nothing is opened or closed |
| `FileAnswers.AskedAnswer` | nginx/src/core/ngx_open_file_cache.c:177-482 | otherwise the caller is told the identity and kind that the system reports, with the descriptor just opened or the one whose file the name still means, or its error; the cache then remembers that as of now, errors only for callers that want it |
| `FileAnswers.ToldAgain` | nginx/src/core/ngx_open_file_cache.c:139-482 | what was told is told again, without asking the system, for as long as the next caller allows |
| `FileAnswers.IndexedUseEnds` | nginx/src/core/ngx_open_file_cache.c:965-1008 | the end of a use makes the entry the most recently used, and closes its descriptor exactly if nobody else uses it and it was asked for too seldom |
| `FileAnswers.DetachedUseEnds` | nginx/src/core/ngx_open_file_cache.c:965-1008 | a detached entry stays for its other users and goes, with its descriptor, with the last |
| `FileAnswers.ExpireStops` | nginx/src/core/ngx_open_file_cache.c:1028-1076 | eviction stops only when the oldest entry left is not idle, nothing is left, or the limit of the call is reached |
| `FileOpen.StatOutcome` | nginx/src/core/ngx_open_file_cache.c:773-877 | the descriptor returned is the one given, none, or a new one that no entry holds, and nothing else is opened or closed |
| `FileSafety.OpenGood` | nginx/src/core/ngx_open_file_cache.c:139-482 | an open keeps descriptors, counts, index and queue in agreement, leaves every user its descriptor, makes a granted request one more user of an open descriptor, and stays within the limit |
| `FileSafety.OpenSafe` | nginx/src/core/ngx_open_file_cache.c:139-482 | for all answers of the system: the books stay right if and only if the answers do not contradict each other about an open file |
| `FileSafety.EveryRun` | nginx/src/core/ngx_open_file_cache.c:139-1076 | in every run each open descriptor is held by exactly one entry, none was closed twice or in use, a detached entry is one still in use, and current, index and queue agree within the limit |
| `FileCache.OpenFileCache.OpenCachedFile` | nginx/src/core/ngx_open_file_cache.c:139-482 | for all answers of the system the method with the source's branches does to the fields what Open does to the books, and the cache stays valid if and only if the answers do not contradict each other |
| `FileCache.OpenFileCache.ExpireOld` | nginx/src/core/ngx_open_file_cache.c:1028-1076 | the loop does what Expire does |
| `FileCache.OpenFileCache.CleanupUse` | nginx/src/core/ngx_open_file_cache.c:951-961 | the cleanup handler does what Cleanup does |
| `FileCache.OpenFileCache.CloseCachedFile` | nginx/src/core/ngx_open_file_cache.c:965-1008 | closing does what CloseCached does |
| `GeoMap.CenterIs` | src/ngx_http_lookaround_map.c:14-22 | the centre is the middle of the rectangle, rounded toward zero |
| `GeoMap.Partition` | src/ngx_http_lookaround_map.c:14-31 | the four child rectangles partition their parent whatever the rounding of the centre |
| `GeoMap.ChildIndex` | src/ngx_http_lookaround_map.c:78-99 | the child chosen is the one whose rectangle holds the location; none exactly for locations outside |
| `GeoMap.Intersect` | src/ngx_http_lookaround_map.c:33-47 | a location is in both rectangles exactly when there is an intersection and it is in it |
| `QuadTree.QueryIsScan` | src/ngx_http_lookaround_handler.c:579-635 | for every well-formed tree, rectangle, filters and limit the lookup emits exactly the first matches of a linear scan, so pruning by rectangle and by count loses and repeats nothing |
| `QuadUpdate.AddOk` | src/ngx_http_lookaround_handler.c:496-532 | adding an item in the rectangle keeps the tree well formed and adds exactly it |
| `QuadUpdate.RemoveOk` | src/ngx_http_lookaround_handler.c:638-682 | removing, with the guard as meant, takes away exactly the item |
| `QuadUpdate.SetKeeps` | src/ngx_http_lookaround_handler.c:445-491 | setting an item keeps the index right if and only if the location is in the root rectangle and, with the guard as written, the item is new or stays in its leaf |
| `QuadUpdate.EveryLookup` | src/ngx_http_lookaround_handler.c:445-635 | after every run of such updates every lookup returns matching items only, none twice, no more than asked for, and all if there are fewer |
| `QuadUpdate.EveryAnswer` | src/ngx_http_lookaround_handler.c:445-635 | after every run of such updates a lookup shows, of each item at most once, the location of its last update and the status and type of its first, only of items in the rectangle with the status and type asked for, and all of those if they are fewer than asked for |
| `GeoIndex.AddChains` | src/ngx_http_lookaround_handler.c:496-532 | after adding, next and prev agree in every leaf list and nothing outside the list changed |
| `GeoIndex.RemoveChains` | src/ngx_http_lookaround_handler.c:638-682 | the same after removing |
| `GeoIndex.LiteralCycle` | src/ngx_http_lookaround_handler.c:640 | with the guard as written an item that leaves its leaf and returns forms a cycle with its predecessor |
| `GeoIndex.LookAround.SetDataLoc` | src/ngx_http_lookaround_handler.c:445-491 | for every item and location the in-place code does what SetItem does, and keeps links, leaf pointers and index consistent if and only if the location is allowed |
| `GeoIndex.LookAround.Lookup` | src/ngx_http_lookaround_handler.c:579-635 | the recursive code with its shared counter returns the first matches of the scan |
| `Radix.LongestIs` | nginx/src/core/ngx_radix_tree.c:236-261 | the reference is the value of a stored prefix of the key than which no longer one is stored |
| `Radix.RadixTree.Find` | nginx/src/core/ngx_radix_tree.c:236-261 | find returns the value of the longest stored prefix |
| `Radix.RadixTree.Insert` | nginx/src/core/ngx_radix_tree.c:108-170 | busy exactly for a stored prefix; otherwise exactly that prefix is added; it fails exactly when fewer nodes can be had, recycled ones and new ones, than are missing on the way, and then nothing stored changes; recycled nodes stay out of the tree |
| `Radix.RadixTree.Delete` | nginx/src/core/ngx_radix_tree.c:173-233 | for every prefix: exactly it is gone, a leaf goes with every ancestor that is left idle, nodes taken out go to the free list, and the call succeeds exactly when the prefix has a node that stores a value or has no children; except that for the empty prefix in a tree of one node a null pointer is followed |
| `Radix.AttachedShape` | nginx/src/core/ngx_radix_tree.c:146-166 | a new node keeps parent and child links consistent and stores nothing |
| `Radix.DetachedShape` | nginx/src/core/ngx_radix_tree.c:204-215 | taking a leaf out keeps them consistent and loses only its own value |
| `Inet6.RoundTrip` | nginx/src/core/ngx_inet.c:58-169 | for every 16-byte address, parsing the printed form gives the same bytes, except exactly for ::255.255.255.255 and ::ffff:255.255.255.255 |
| `Inet6.AllOnesPrinted` | nginx/src/core/ngx_inet.c:316-344 | these two addresses are the ones printed with the tail 255.255.255.255 |
| `InetGrammar.Inet6Exact` | nginx/src/core/ngx_inet.c:58-169 | for every text: it is read part by part between its colons, as groups of one to four digits of either case, one gap at most, and a group, a dotted quad or the gap at the end, and refused if that does not give 16 bytes |
| `InetGrammar.DenotedRead` | nginx/src/core/ngx_inet.c:58-169 | a text that denotes an address by section 2.2 of RFC 4291 is read as that address, if and only if it has no tail of 255.255.255.255 and no "::" after seven groups |
| `InetGrammar.NotationRead` | nginx/src/core/ngx_inet.c:58-169 | the same for each way to write an address |
| `InetGrammar.InetExact` | nginx/src/core/ngx_inet.c:17-53 | for every text: four parts between dots, each of decimal digits whose value in a 64-bit word is a byte, give the address; everything else is an error |
| `InetGrammar.HexPrinted` | nginx/src/core/ngx_inet.c:336 | a group is printed in small digits without leading zeros |
| `InetGrammar.DecPrinted` | nginx/src/core/ngx_inet.c:343-345 | a byte of a dotted quad is printed in decimal without leading zeros |
| `InetGrammar.QuadPrinted` | nginx/src/core/ngx_inet.c:316-345 | which addresses end in a dotted quad, by their bytes, and their whole text |
| `Inet6.LongestRunIs` | nginx/src/core/ngx_inet.c:291-314 | the run left out is the longest run of at least two zero words, the first of equals |
| `Inet6.DottedRead` | nginx/src/core/ngx_inet.c:17-53 | a printed dotted quad is read back |
| `Inet6Text.ReadInet` | nginx/src/core/ngx_inet.c:17-53 | the loop computes InetAddr |
| `Inet6Text.ReadInet6` | nginx/src/core/ngx_inet.c:58-169 | the byte loop, with the in-place shift of the bytes after "::", computes Parse |
| `Inet6Text.PrintInet6` | nginx/src/core/ngx_inet.c:275-347 | the printer's loops compute Print |
| `Calendar.GmTimeIs` | nginx/src/core/ngx_times.c:282-372 | for every t the closed forms give a valid Gregorian date whose day number, counted day by day from 1970, is t / 86400, the right weekday, and a time of day that recomposes t |
| `Calendar.EstimateIs` | nginx/src/core/ngx_times.c:313-322 | the year estimate is never low and at most one too high |
| `Calendar.MonthIs` | nginx/src/core/ngx_times.c:331-342 | the empirical formulas give the month and its first day |
| `Calendar.OneDate` | nginx/src/core/ngx_times.c:282-372 | no other date has that day number |
| `StrMap.StringMap.Get` | src/ngx_http_lookaround_strmap.c:173-193 | get returns the last value put and not removed |
| `StrMap.StringMap.GetText` | src/ngx_http_lookaround_strmap.c:142-171 | the string is copied exactly when there is a buffer it fits in; without one its size is returned |
| `StrMap.StringMap.GetPair` | src/ngx_http_lookaround_strmap.c:461-482 | the first live pair with the key is found; tombstones are passed over |
| `StrMap.StringMap.PutPtr` | src/ngx_http_lookaround_strmap.c:243-309 | the map changes at that key only, and not at all without memory; at most one live pair per key |
| `StrMap.StringMap.Put` | src/ngx_http_lookaround_strmap.c:312-396 | the same for strings, and the buffer always has room for the string in it |
| `StrMap.StringMap.Remove` | src/ngx_http_lookaround_strmap.c:195-218 | exactly that key is gone, for any hash function |
| `StrMap.StringMap.GetCount` | src/ngx_http_lookaround_strmap.c:398-425 | the count is the number of live keys and of all pairs that ever became dead |
| `StrMap.Changed` | src/ngx_http_lookaround_strmap.c:461-482 | one pair's change affects lookups of its key only |
| `Crc32.Byte8` | nginx/src/core/ngx_crc32.c:35-99 | every entry of the large table is eight shifts by the polynomial |
| `Crc32.Table16Is` | nginx/src/core/ngx_crc32.c:26-32 | every entry of the small table is four |
| `Crc32.CrcShort` | nginx/src/core/ngx_crc32.h:20-35 | the nibble-table loop computes the bit-by-bit definition (Annex D of the PNG specification) |
| `Crc32.CrcLong` | nginx/src/core/ngx_crc32.h:38-50 | so does the byte-table loop |
| `Crc32.UpdateLong` | nginx/src/core/ngx_crc32.h:57-69 | updating processes the bytes bit by bit from any value |
| `Crc32.UpdateSplit` | nginx/src/core/ngx_crc32.h:57-69 | updating over two parts equals one pass over both |
| `Crc32.DigitsCheck` | nginx/src/core/ngx_crc32.h:38-50 | the checksum of the digits from 1 to 9 is cbf43926, the value in general use |
| `Base64Bits.DecodeIs` | nginx/src/core/ngx_string.c:1101-1198 | for every text and both alphabets: the characters before the padding must be of the alphabet and not one too many, and the bits they stand for are, in order, those of the result |
| `Base64Bits.EncodeIs` | nginx/src/core/ngx_string.c:1060-1098 | the characters stand for the bits of the bytes and zeros after them, as few as hold them, padded to a multiple of four |
| `Base64Bits.UrlRoundTrip` | nginx/src/core/ngx_string.c:1128-1198 | every byte string is read back from its encoding in the alphabet of section 5 of RFC 4648, with and without padding |
| `Base64.RoundTrip` | nginx/src/core/ngx_string.c:1060-1198 | every byte string is read back from its encoding (section 4 of RFC 4648) |
| `Base64.EncodeLength` | nginx/src/core/ngx_string.c:1060-1098 | n bytes become (n + 2) / 3 * 4 characters |
| `Base64.PaddingIgnored` | nginx/src/core/ngx_string.c:1161-1170 | padding, or anything after its first character, never changes the result, valid or not |
| `Base64.EncodeText` | nginx/src/core/ngx_string.c:1060-1098 | the loop computes Encode |
| `Base64.DecodeText` | nginx/src/core/ngx_string.c:1155-1198 | the loops compute Decode, and fail exactly when it does |
| `Uri.RoundTrip` | nginx/src/core/ngx_string.c:1340-1636 | unescaping restores what was escaped if and only if the table escapes the percent sign, as all but one do, or there is none in the text |
| `Uri.EscapedAre` | nginx/src/core/ngx_string.c:1345-1462 | which characters each type escapes, by name |
| `Uri.EscapedParts` | nginx/src/core/ngx_string.c:1484-1506 | every character so named is written as a percent sign and two small digits, every other as it is, in order |
| `Uri.ReadCode` | nginx/src/core/ngx_string.c:1548-1625 | a percent sign and two digits of either case give the character; an escaped question mark ends a URI or a redirect, and a redirect keeps escapes of characters not between "%" and 7f |
| `Uri.ReadPlain` | nginx/src/core/ngx_string.c:1529-1546 | other characters stay, and a question mark ends a URI or a redirect |
| `Uri.ReadBroken` | nginx/src/core/ngx_string.c:1566-1628 | a percent sign before no digit is dropped, and so are a first digit and what follows it when that is no digit |
| `Uri.ReadCut` | nginx/src/core/ngx_string.c:1509-1636 | an escape cut off by the end of the text is dropped |
| `Uri.Shrinks` | nginx/src/core/ngx_string.c:1509-1636 | every character that only unescaping can write costs a percent sign and two more characters, or two percent signs |
| `Uri.EscapeLength` | nginx/src/core/ngx_string.c:1465-1506 | the output is longer than the input by twice the count of the sizing call |
| `Uri.CountEscapes` | nginx/src/core/ngx_string.c:1465-1482 | the sizing loop computes Count |
| `Uri.EscapeText` | nginx/src/core/ngx_string.c:1484-1506 | the writing loop computes Escape |
| `Uri.UnescapeText` | nginx/src/core/ngx_string.c:1509-1636 | the loop over three states computes Unescape for all types, stopping where it does |

## Left out

- ngx_rbtree.c: ngx_rbtree_insert_timer_value differs only in comparing keys as wrapping timer values; keys here are unbounded.
- Shmtx: sem_post failure, reuse of process ids and wrap-around of the wait counter are not modelled; processes die only while they own the lock, and force_unlock names a dead process. The file-lock variant of the mutex is not modelled.
- Slabs: pages are 4096 bytes, words 64 bits and min_shift 3, as this build sets them. A descriptor's word is modelled by the way it is read (count and flag, shift, bitmap, or bitmap over shift). A page's bitmap is kept beside the page, and `BlockFacts` says that live blocks stay clear of where it is.
- SlabAllocator.Slabs.FreeLocked: stops where the source goes on with what it reads behind the last descriptor, which is not among the nodes the class holds; `SlabSafety.FreeSafe` says what that does to the pool.
- SlabSafety.FreeSafe: says nothing of a descriptor behind the last that reaches into the first page and lets the pointer pass, nor of words there that are no descriptor (a tag with a shift that does not go with it, bits beyond the chunks of a page, a start flag without a count).
- SlabSafety.Init: does not model a pool without pages; three pages of memory suffice for one.
- Slab logging, the mutex around the calls and the filling of freed memory in debug builds.
- FileCache: vnode events, symlink checks, directio, read-ahead, the test_only call without a cache, ngx_open_file_cache_cleanup at the end of a cycle, and the width of the use counters. Entries are values in a map from addresses; the name index is a map, as the red-black tree is proved elsewhere.
- GeoIndex: requests run one at a time; the spinlock, which does not cover the lookup of the id, is not modelled. Allocation succeeds, item counts do not wrap, last_update_time and the JSON text are left out; a lookup returns the data nodes in the order they are written. Map nodes are values in a tree, which nothing shares; of the pointer to a leaf only the rectangle it leads to is used.
- Radius and distance computations in ngx_http_lookaround_map.c are floating point; lookups start from a given rectangle.
- Radix: masks may have any shape, but the code reads only their leading ones.
- Radix preallocation is a series of inserts of NO_VALUE; the 128-bit functions are the same code on longer keys.
- StrMap: the hash function is any function, so djb2 itself does not appear; freeing pool memory with free() on failed allocations, sm_enum and the sm_delete functions are left out.
- Inet6: the check of the destination's length.
- Calendar.GmTimeIs: does not model the narrowing of the year to a C int.
- Crc32: the relocation of the small table to a cache line.
- Uri: the pointers are modelled by the text written and the text left unread.
- HTTP argument parsing, rendering, configuration, the resolver, the event loop, logging, sockets and the other nginx core files are plumbing or library calls.
