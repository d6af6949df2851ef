# A verified model of an online judge's nginx core

The repository is an online judge, `OJ_Judge/code`, on top of nginx 1.28.0. This project models
the data structures and protocols of the nginx core that carry the weight, and the thread pool
of the judge, and proves what they promise. `dafny verify dfyconfig.toml` checks all of it.

- **Slab allocator** (`Slab*.dfy`): page runs that split and merge through back-pointers, three
  layouts of chunk pages with their bitmaps, and any sequence of requests of a client.
- **Red-black tree** (`Rb*.dfy`): insertion, deletion and traversal on node records with parent
  pointers, a shared sentinel and an untrusted parent field in the root. `CacheIndex.dfy` is
  the tree of the open file cache, ordered by hash and then by name.
- **Shared-memory mutex** (`Shmtx.dfy`): a step relation over any number of processes.
- **Open file cache** (`FileCacheState.dfy`, `OpenFileCache.dfy`): entries, queue, users and
  descriptors through revalidation, expiry and cleanup, with that tree inside.
- **Hashes** (`PackedHash.dfy`; `DomainNames.dfy`, `PackedTrie.dfy`, `HashKeys.dfy`,
  `Wildcard*.dfy`): the packed hash in memory, and server name patterns from `ngx_hash_add_key`
  through linked packed hashes to the answer of a lookup.
- **Queue sort** (`Ring.dfy`, `Queue*.dfy`) and **radix tree** (`Radix*.dfy`), on pointers.
- **Codecs**: IPv6 text (`Inet6*.dfy`), DNS names (`DnsNames.dfy`), HTTP dates (`HttpTime.dfy`),
  MD5 and SHA-1 (`HashWords.dfy`, `BlockHash.dfy`, `Md5.dfy`, `Sha1.dfy`, `DigestVectors.dfy`),
  CRC-32 (`Crc32.dfy`), base64 (`Base64.dfy`) and URI escaping (`Uri.dfy`).
- **Thread pool** (`ThreadPool.dfy`): push, worker and manager as interleaved locked steps.

Code that works in place is a class or a loop proved against a specification; the properties
are then lemmas about the specification, or invariants of the class. Nodes and page descriptors
are records in a map from addresses, held in a field of the class and written one field at a
time in the order of the code.

## Model

| member | source | states |
|---|---|---|
| SlabArea.AreaOf | Nginx/nginx-1.28.0/src/core/ngx_slab.c:98-165 | the pages start at the first page boundary behind their descriptors (not before it and less than a page after) and end before the memory does; after the correction of lines 132-157 one page at most is lost to the alignment, and one is lost only when it would not fit |
| SlabArea.Usable | Nginx/nginx-1.28.0/src/core/ngx_slab.c:98-165 | such an area satisfies everything the pool assumes of its geometry |
| SlabPool.SlabPool.constructor | Nginx/nginx-1.28.0/src/core/ngx_slab.c:98-165 | a new pool is sound, hands nothing out, and is one free run of all pages |
| SlabPool.SlabPool.AllocPages | Nginx/nginx-1.28.0/src/core/ngx_slab.c:677-731 | first fit: the run taken is the first one in list order that is long enough, the rest of it is listed in its place, `pfree` drops by the pages taken; NULL only if no free run is long enough, and then nothing changes |
| SlabPool.SlabPool.FreePages | Nginx/nginx-1.28.0/src/core/ngx_slab.c:733-810 | the run given back is merged with a free run on either side found through the page descriptors, the joined run comes first in the free list and its neighbours leave it, `pfree` grows by its pages, and the descriptors describe the new runs, the back-pointer from the last page of a free run included |
| SlabFree.FreedCoalesced | Nginx/nginx-1.28.0/src/core/ngx_slab.c:733-810 | after a release no two free runs are adjacent if none were before |
| SlabPages.MergeLaid | Nginx/nginx-1.28.0/src/core/ngx_slab.c:744-800 | merging two adjoining runs leaves descriptors that partition the page array, and a ring that lists exactly the free runs |
| SlabFree.AllFree | Nginx/nginx-1.28.0/src/core/ngx_slab.c:677-810 | descriptors that describe free runs only describe one run of all pages, alone in the list |
| MachineWords.ShiftFor | Nginx/nginx-1.28.0/src/core/ngx_slab.c:208-212 | the shift loop finds the smallest power of two that is not less than the size |
| MachineWords.FirstClear | Nginx/nginx-1.28.0/src/core/ngx_slab.c:233-241 | the bit scan finds the lowest clear bit of a word that is not full |
| SlabPool.SlabPool.TakeChunk | Nginx/nginx-1.28.0/src/core/ngx_slab.c:213-295 | in each of the three page layouts, exactly one chunk of the class becomes held, none of the other blocks changes, and a page that fills up leaves its list |
| SlabPool.SlabPool.NewChunk | Nginx/nginx-1.28.0/src/core/ngx_slab.c:297-395 | a fresh page is laid out for its class, its own chunks are marked, and its first free chunk becomes held; failure only when there is no free page |
| SlabPool.SlabPool.AllocLocked | Nginx/nginx-1.28.0/src/core/ngx_slab.c:183-417 | the pool stays sound and gains exactly one block, at least as large as the request, of the smallest class that serves it or of enough pages; a NULL answer means that no page run of the needed length is free (and no chunk of the class), and changes nothing |
| SlabPool.SlabPool.GiveChunk | Nginx/nginx-1.28.0/src/core/ngx_slab.c:476-625 | exactly one chunk stops being held; a page that was full goes back to its list, and a page without held chunks goes back to the page runs |
| SlabPool.SlabPool.FreeLocked | Nginx/nginx-1.28.0/src/core/ngx_slab.c:460-674 | for any address outside the bitmaps and the rest of the memory behind the last page: either the address was that of a held block, which is exactly what is lost, or it was that of none, and an error is answered with the pool unchanged |
| SlabPool.SlabPool.FreeLive | Nginx/nginx-1.28.0/src/core/ngx_slab.c:460-674 | the address of a held block is always accepted and gives back that very block |
| SlabBlocks.BlocksDisjoint | Nginx/nginx-1.28.0/src/core/ngx_slab.c:183-417 | in every sound pool two different held blocks occupy disjoint byte ranges |
| SlabBlocks.BlockPlaced | Nginx/nginx-1.28.0/src/core/ngx_slab.c:183-417 | every held block lies inside the page area, is aligned to its class or to the page size, and misses the bitmap of every page of small chunks |
| SlabBlocks.StatsRight | Nginx/nginx-1.28.0/src/core/ngx_slab.c:183-674 | per class `used` is the number of held chunks and `total` the room of its pages without the chunks that hold their bitmaps |
| SlabBlocks.NothingHeld | Nginx/nginx-1.28.0/src/core/ngx_slab.c:98-165 | a sound pool with nothing held is the initial one: one free run of all pages |
| SlabChecks.LiveNotInBitmap | Nginx/nginx-1.28.0/src/core/ngx_slab.c:460-674 | the address of a held block is never in a bitmap, so whatever was allocated can be freed |
| SlabChecks.OneBlockAt | Nginx/nginx-1.28.0/src/core/ngx_slab.c:460-674 | an address belongs to one held block at most |
| SlabClient.Serve | Nginx/nginx-1.28.0/src/core/ngx_slab.c:183-674 | for any sequence of allocations and frees of addresses in hand: the blocks in hand are those held by the pool, disjoint, inside the page area, each as long as was asked for; a NULL answer to a request means that the pool then had neither a free chunk of its class nor a run of enough pages, and with nothing in hand only a request longer than the whole pool gets one; when nothing is left in hand the pool is as it was at the start |
| SlabClient.TracksApart | Nginx/nginx-1.28.0/src/core/ngx_slab.c:183-674 | the geometry of the blocks in hand follows from the pool being sound |
| RbTree.RbTree.LeftRotate | Nginx/nginx-1.28.0/src/core/ngx_rbtree.c:318-345 | six pointer writes turn the subtree, keep its items in order, and leave the sentinel record alone |
| RbTree.RbTree.RightRotate | Nginx/nginx-1.28.0/src/core/ngx_rbtree.c:348-375 | the mirror image |
| RbTree.RbTree.FindSlot | Nginx/nginx-1.28.0/src/core/ngx_rbtree.c:95-117 | the loop ends at a leaf position with only keys not larger before it and only larger keys after it |
| RbTree.RbTree.Rebalance | Nginx/nginx-1.28.0/src/core/ngx_rbtree.c:48-92 | from a red node under a perhaps red parent the loop restores all red-black rules and keeps the items |
| RbTree.RbTree.InsertAt | Nginx/nginx-1.28.0/src/core/ngx_rbtree.c:24-92 | insertion below any slot that keeps the keys in order: the rules hold and the item is at the place of that slot |
| RbTree.RbTree.Insert | Nginx/nginx-1.28.0/src/core/ngx_rbtree.c:24-117 | the tree stays a red-black tree (black root and sentinel, no red child of a red node, equal black heights, right parent pointers below the root, keys in order) and has the new node behind all keys not larger |
| RbTree.RbTree.Fixup | Nginx/nginx-1.28.0/src/core/ngx_rbtree.c:218-315 | from a subtree one black node short the loop restores all rules and keeps the items |
| RbTree.RbTree.Delete | Nginx/nginx-1.28.0/src/core/ngx_rbtree.c:156-315 | the tree stays a red-black tree and loses exactly the given node; its record comes back with its links cleared |
| RbTree.RbTree.Next | Nginx/nginx-1.28.0/src/core/ngx_rbtree.c:378-404 | the next node in order, NULL after the last, without trusting the parent field of the root |
| RbTree.RbTree.Walk | Nginx/nginx-1.28.0/src/core/ngx_rbtree.c:378-404 | from the leftmost node on the successors visit every node once, in order |
| RbBalance.HeightBound | Nginx/nginx-1.28.0/src/core/ngx_rbtree.c:24-315 | the height of a red-black tree is at most 2 log2(n + 1) for the n items it lists |
| RbInsert.InsertedSorted | Nginx/nginx-1.28.0/src/core/ngx_rbtree.c:95-117 | inserting behind the keys not larger keeps the keys in order |
| RbTree.RbTree.Min | Nginx/nginx-1.28.0/src/core/ngx_rbtree.h:76-85 | the leftmost node of a subtree |
| Shmtx.NextInv | Nginx/nginx-1.28.0/src/core/ngx_shmtx.c:62-196 | every step of every process keeps the invariant of the lock |
| Shmtx.MutualExclusion | Nginx/nginx-1.28.0/src/core/ngx_shmtx.c:62-196 | in every state of every run two processes that have the lock are the same process |
| Shmtx.LockChanges | Nginx/nginx-1.28.0/src/core/ngx_shmtx.c:62-196 | the lock word changes only from free to the process that gets it and from the holder to free |
| Shmtx.TryLockTaken | Nginx/nginx-1.28.0/src/core/ngx_shmtx.c:62-66 | in every run, a process that calls trylock and finds the word taken at its first look is outside again without the lock |
| Shmtx.TryLock | Nginx/nginx-1.28.0/src/core/ngx_shmtx.c:62-66 | if the word is free at the first look, the process has the lock after its second one if and only if the word is free then too; else it is outside |
| Shmtx.LockFree | Nginx/nginx-1.28.0/src/core/ngx_shmtx.c:69-80 | lock has the lock after two steps of its own if the word is free at both |
| Shmtx.LockReturns | Nginx/nginx-1.28.0/src/core/ngx_shmtx.c:69-133 | a process inside lock does not come back outside without having had the lock |
| Shmtx.UnlockFrees | Nginx/nginx-1.28.0/src/core/ngx_shmtx.c:136-146 | one step of the holder frees the word, which until then names it |
| Shmtx.UnlockWakes | Nginx/nginx-1.28.0/src/core/ngx_shmtx.c:164-196 | after that it is outside if nobody waits; if somebody does, and the counter does not change under it, it takes one from the counter and posts one token, and else it starts anew |
| Shmtx.SleeperWakes | Nginx/nginx-1.28.0/src/core/ngx_shmtx.c:111-126 | a sleeper goes on only with a token, and tries again |
| Shmtx.NobodyStuck | Nginx/nginx-1.28.0/src/core/ngx_shmtx.c:62-196 | every process can take a step but a sleeper without a token; both calls can start from outside, and a held lock can be released by force |
| Shmtx.GoesToSleep | Nginx/nginx-1.28.0/src/core/ngx_shmtx.c:98-127 | a process that finds the word taken can go on to sleep on its own, counted as waiting |
| Shmtx.Spins | Nginx/nginx-1.28.0/src/core/ngx_shmtx.c:82-96 | it may look again any number of times before |
| Shmtx.CounterRange | Nginx/nginx-1.28.0/src/core/ngx_shmtx.c:86-127 | in every state the waiter counter, the posts on their way and the tokens add up to the processes that wait, and none leaves the range of the process count |
| Shmtx.NoLostWakeup | Nginx/nginx-1.28.0/src/core/ngx_shmtx.c:62-196 | in every state of every run a sleeping process implies that the lock is held, a token is there, a waker runs or another process contends |
| Shmtx.SleeperFreed | Nginx/nginx-1.28.0/src/core/ngx_shmtx.c:62-196 | whenever the lock is free and a process sleeps, the processes already inside can go on by themselves until one of them has the lock |
| OpenFileCache.OpenFileCache.OpenAndStat | Nginx/nginx-1.28.0/src/core/ngx_open_file_cache.c:839-951 | which answers of the file system open, keep or drop a descriptor |
| OpenFileCache.OpenFileCache.Retest | Nginx/nginx-1.28.0/src/core/ngx_open_file_cache.c:211-350 | revalidation keeps the cache valid if and only if the path has not become a directory with the inode number of the file that is kept open |
| OpenFileCache.OpenFileCache.Open | Nginx/nginx-1.28.0/src/core/ngx_open_file_cache.c:143-486 | the cache stays valid (index and queue agree, `current` counts them and is at most `max`, entries of errors and directories have no users, every descriptor belongs to one entry, entries with users keep theirs open) if and only if the revalidated entry of that name does not clash; the answer is what the entry now holds, and a file comes with one more user. Only the entry of the name changes and comes first in the queue: an answer from the cache keeps its age and needs it to be below `valid`, a look at the file starts it anew; an entry in use stays with its file and a new one takes its place when the file has changed; a new name in a full cache makes room as in Expire |
| OpenFileCache.OpenFileCache.Find | Nginx/nginx-1.28.0/src/core/ngx_open_file_cache.c:205-211 | the lookup in the tree of the cache gives the entry of that name, NULL if there is none |
| OpenFileCache.OpenFileCache.Enindex | Nginx/nginx-1.28.0/src/core/ngx_open_file_cache.c:380-386 | the new entry goes into the tree under its name, and `current` counts it |
| OpenFileCache.OpenFileCache.Failed | Nginx/nginx-1.28.0/src/core/ngx_open_file_cache.c:453-476 | the lines behind `failed:` in any state: the entry leaves the tree; without users it goes, and its descriptor is closed |
| OpenFileCache.OpenFileCache.OpenGone | Nginx/nginx-1.28.0/src/core/ngx_open_file_cache.c:143-486 | a request for a path that is gone, in any state whose tree is in order, the muddled one included: the error is answered, and the entry goes with its descriptor, or waits for its users outside the tree |
| OpenFileCache.ClosedUnderUser | Nginx/nginx-1.28.0/src/core/ngx_open_file_cache.c:143-486 | from a new cache, three requests for one name close a descriptor that a user still holds: a file, then a directory with its inode number, then nothing |
| OpenFileCache.OpenFileCache.Expire | Nginx/nginx-1.28.0/src/core/ngx_open_file_cache.c:1094-1142 | from the end of the queue at most 3 - n entries leave, each inactive for longer than `inactive` except the first of a forced pass, and it stops before that only at an active entry or an empty queue; those without users go, the others are marked; all else stays, and so does every descriptor in use |
| OpenFileCache.Descriptors | Nginx/nginx-1.28.0/src/core/ngx_open_file_cache.c:143-486 | in every valid state the open descriptors are exactly those of the entries |
| OpenFileCache.OpenFileCache.CloseCached | Nginx/nginx-1.28.0/src/core/ngx_open_file_cache.c:1031-1075 | a user less; a listed entry comes first in the queue, and its descriptor is closed exactly when nobody uses it and it was asked for less than `min_uses` times; a detached entry goes with its last user |
| OpenFileCache.OpenFileCache.Leave | Nginx/nginx-1.28.0/src/core/ngx_open_file_cache.c:1017-1075 | the cleanup handler is the two one after the other, keeps the cache valid and every other user's descriptor open |
| CacheIndex.CompareOrder | Nginx/nginx-1.28.0/src/core/ngx_open_file_cache.c:1162-1173 | ngx_strcmp on terminated names is zero for equal names only, antisymmetric and transitive |
| CacheIndex.CompareMeans | Nginx/nginx-1.28.0/src/core/ngx_open_file_cache.c:1162-1173 | the first byte that differs decides, and without one the names are equal |
| CacheIndex.CacheIndex.FindSlot | Nginx/nginx-1.28.0/src/core/ngx_open_file_cache.c:1145-1182 | the insert callback finds the slot between the names that precede and those that follow by hash, then name |
| CacheIndex.CacheIndex.Lookup | Nginx/nginx-1.28.0/src/core/ngx_open_file_cache.c:1186-1224 | for every hash function, collisions included, the lookup finds exactly the stored names |
| CacheIndex.CacheIndex.Insert | Nginx/nginx-1.28.0/src/core/ngx_open_file_cache.c:1145-1182 | the red-black tree stays ordered by hash and name through all rotations, and its index gains exactly the new name |
| CacheIndex.CacheIndex.Delete | Nginx/nginx-1.28.0/src/core/ngx_open_file_cache.c:1094-1142 | and loses exactly the name of the deleted node |
| PackedHash.HashKeyIs | Nginx/nginx-1.28.0/src/core/ngx_hash.c:635-646 | the key of a name is its characters as digits to the base of 31, modulo the machine word |
| PackedHash.LowersIs | Nginx/nginx-1.28.0/src/core/ngx_hash.c:664-679 | lower-casing gives the one string without capitals that has the small letter, 32 codes up, for each capital and is the same elsewhere |
| PackedHash.ChooseSize | Nginx/nginx-1.28.0/src/core/ngx_hash.c:262-325 | the size is the smallest one at which every bucket fits, or the largest allowed when none is |
| PackedHash.Init | Nginx/nginx-1.28.0/src/core/ngx_hash.c:248-486 | the size is what `ChooseSize` finds from the start computed with an unsigned limit; fails exactly when there is no size, the bucket size is too large, or too small for a name, or a bucket at that size cannot be counted; divides by zero exactly for a bucket size of 8 to 23 without keys; otherwise every element and terminator lies in the segment of its own bucket, on the path that passes the bucket size too |
| PackedHash.NoRoom | Nginx/nginx-1.28.0/src/core/ngx_hash.c:291-298 | an input on which the division by zero happens: no keys and a bucket size of 16 |
| PackedHash.TinyBuckets | Nginx/nginx-1.28.0/src/core/ngx_hash.c:291-310 | with a bucket size below 8 the limit wraps and a hash of one empty bucket is built |
| PackedHash.SegmentsApart | Nginx/nginx-1.28.0/src/core/ngx_hash.c:372-440 | the segments of different buckets do not overlap |
| PackedHash.Find | Nginx/nginx-1.28.0/src/core/ngx_hash.c:12-49 | the walk over the packed elements finds the first element of the bucket with that name, or NULL |
| PackedHash.Lookup | Nginx/nginx-1.28.0/src/core/ngx_hash.c:12-49 | for distinct lower-case names that is the value stored with the name, and NULL for any other name |
| PackedHash.Answer | Nginx/nginx-1.28.0/src/core/ngx_hash.c:12-486 | building and then looking up, for any names and any limits |
| HashKeys.CheckPattern | Nginx/nginx-1.28.0/src/core/ngx_hash.c:752-775 | the scan accepts exactly the patterns with one star at most, no empty label and no NUL |
| HashKeys.AddKey | Nginx/nginx-1.28.0/src/core/ngx_hash.c:737-1013 | which patterns are declined, which are busy, and what each array gains for the pattern with small letters for its capitals |
| HashKeys.AddAll | Nginx/nginx-1.28.0/src/core/ngx_hash.c:737-1013 | any list of patterns leaves the arrays that the rule for one pattern folds over the list, and the answers that go with them; the keys collected are those of the accepted patterns, and none has a capital |
| HashKeys.BusyBecause | Nginx/nginx-1.28.0/src/core/ngx_hash.c:737-1013 | a pattern is busy if and only if an earlier one has entered one of the names it looks for: an accepted one, or a busy ".example.com" its exact name |
| HashKeys.AllOkIff | Nginx/nginx-1.28.0/src/core/ngx_hash.c:737-1013 | every pattern of a list is accepted if and only if no two of them meet in a table of conflicts and none is malformed |
| HashKeys.BlockedName | Nginx/nginx-1.28.0/src/core/ngx_hash.c:864-904 | a refused ".a.b" still blocks the exact name "a.b" |
| WildcardFind.HeadKey | Nginx/nginx-1.28.0/src/core/ngx_hash.c:907-939 | the conversion of a leading wildcard turns its labels round |
| WildcardHash.WildcardInit | Nginx/nginx-1.28.0/src/core/ngx_hash.c:489-631 | from sorted clean names the recursion builds packed hashes of labels, linked by tagged addresses, that represent exactly those names; it fails if and only if ngx_hash_init fails for the labels that follow some path of labels |
| HashKeys.Table | Nginx/nginx-1.28.0/src/core/ngx_hash.c:489-631 | collected patterns satisfy all that the construction and the lookups need, and get tables if and only if none of these fails |
| PackedTrie.Build | Nginx/nginx-1.28.0/src/core/ngx_hash.c:251-486 | a hash of distinct lower-case names can be built if and only if ngx_hash_init neither fails nor divides by zero on them |
| PackedTrie.BlankFails | Nginx/nginx-1.28.0/src/core/ngx_hash.c:251-486 | that does not depend on the values |
| PackedTrie.SoughtIn | Nginx/nginx-1.28.0/src/core/ngx_hash.c:12-49 | searching a packed table for a label gives its tagged value if the table has it, and NULL otherwise |
| WildcardTrie.HeadCorrect | Nginx/nginx-1.28.0/src/core/ngx_hash.c:52-143 | the lookup in a table that represents a set of names answers with the longest matching leading wildcard, or none |
| WildcardTrie.TailCorrect | Nginx/nginx-1.28.0/src/core/ngx_hash.c:146-207 | the same for trailing wildcards |
| WildcardFind.FindWcHead | Nginx/nginx-1.28.0/src/core/ngx_hash.c:52-143 | the loop over the characters, the search in the packed hash and the two low bits of the value found compute that lookup, last label first |
| WildcardFind.FindWcTail | Nginx/nginx-1.28.0/src/core/ngx_hash.c:146-207 | the same for trailing wildcards, first label first |
| WildcardFind.HeadAnswer | Nginx/nginx-1.28.0/src/core/ngx_hash.c:52-143 | in terms of the patterns as written: `.example.com` matches `example.com` too, `*.example.com` does not |
| WildcardFind.TailAnswer | Nginx/nginx-1.28.0/src/core/ngx_hash.c:146-207 | the same for trailing wildcards |
| WildcardFind.FindCombined | Nginx/nginx-1.28.0/src/core/ngx_hash.c:210-245 | the exact name in its packed hash first, then the longest leading wildcard, then the longest trailing one, else NULL |
| HashKeys.Resolve | Nginx/nginx-1.28.0/src/core/ngx_hash.c:52-1013 | from any list of well-formed patterns, in whatever case, to the answer for any name, through the packed hashes: for the accepted patterns (all of them if and only if no two conflict) the exact one first, then the longest leading wildcard that matches, then the longest trailing one, else NULL; no answer if and only if one of the three hashes cannot be built |
| HashKeys.OneAnswer | Nginx/nginx-1.28.0/src/core/ngx_hash.c:52-1013 | that answer is one only: no two accepted patterns of one kind and length match the same name |
| HashKeys.SortKeys | Nginx/nginx-1.28.0/src/http/ngx_http.c:1616-1640 | the collected names in the order of ngx_dns_strcmp, each once |
| DomainNames.NamesOrdered | Nginx/nginx-1.28.0/src/core/ngx_string.c:895-923 | ngx_dns_strcmp is a strict total order on names: irreflexive, total, antisymmetric and transitive |
| DomainNames.LessFirst | Nginx/nginx-1.28.0/src/core/ngx_string.c:895-923 | the first character that differs decides, and the dot comes before all others |
| DomainNames.Between | Nginx/nginx-1.28.0/src/core/ngx_string.c:895-923 | between two names with the same first label there are only names with that label, so a table's groups are contiguous |
| QueueLinks.InsertCircle | Nginx/nginx-1.28.0/src/core/ngx_queue.h:33-50 | insertion rewires a circle into the circle with one more element at that place |
| QueueLinks.RemoveCircle | Nginx/nginx-1.28.0/src/core/ngx_queue.h:75-87 | removal rewires it into the circle without that element |
| QueueLinks.SplitCircle | Nginx/nginx-1.28.0/src/core/ngx_queue.h:90-96 | splitting makes two circles, of the elements before and from the given one |
| QueueLinks.AddCircle | Nginx/nginx-1.28.0/src/core/ngx_queue.h:99-103 | adding joins two circles in order, when the second is not empty |
| QueueSort.Queues.Middle | Nginx/nginx-1.28.0/src/core/ngx_queue.c:21-49 | the two cursors stop at the middle element |
| QueueSort.Queues.Merge | Nginx/nginx-1.28.0/src/core/ngx_queue.c:77-106 | merges two circles in place, taking from the first on ties; the tail is never spliced in when it is empty |
| QueueSort.Queues.Sort | Nginx/nginx-1.28.0/src/core/ngx_queue.c:54-74 | rewires the circle into the sorted order of its elements and touches no link outside it and the stack |
| QueueSort.SortPermutes | Nginx/nginx-1.28.0/src/core/ngx_queue.c:54-106 | the result is a permutation |
| QueueSort.SortOrdered | Nginx/nginx-1.28.0/src/core/ngx_queue.c:54-106 | it is ordered, for every total preorder |
| QueueSort.SortStable | Nginx/nginx-1.28.0/src/core/ngx_queue.c:54-106 | it is stable, for every total preorder |
| RadixTree.RadixTree.constructor | Nginx/nginx-1.28.0/src/core/ngx_radix_tree.c:15-33 | an empty tree |
| RadixTree.RadixTree.Alloc | Nginx/nginx-1.28.0/src/core/ngx_radix_tree.c:463-488 | a node from the free list or a fresh one, never a live one |
| RadixTree.RadixTree.Insert | Nginx/nginx-1.28.0/src/core/ngx_radix_tree.c:108-170 | busy exactly when the prefix is stored; otherwise the stored prefixes gain exactly it |
| RadixTree.RadixTree.Delete | Nginx/nginx-1.28.0/src/core/ngx_radix_tree.c:173-233 | succeeds exactly when the prefix is stored and is not the zero-length one in a tree with nothing else; the stored prefixes lose exactly it, and every node that leaves the tree is on the free list |
| RadixTree.RadixTree.Find | Nginx/nginx-1.28.0/src/core/ngx_radix_tree.c:236-263 | the value of the longest stored prefix of the key, or none |
| RadixTree.ChildlessRoot | Nginx/nginx-1.28.0/src/core/ngx_radix_tree.c:173-233 | the root has no child exactly when nothing but the zero-length prefix is stored |
| RadixTree.StoredBelow | Nginx/nginx-1.28.0/src/core/ngx_radix_tree.c:173-233 | below every node but the root something is stored |
| RadixTree.ZeroPrefixStays | Nginx/nginx-1.28.0/src/core/ngx_radix_tree.c:173-233 | the zero-length prefix, inserted alone into a new tree, cannot be deleted |
| Inet6Text.FindRun | Nginx/nginx-1.28.0/src/core/ngx_inet.c:303-330 | the scan finds the first longest run of two or more zero words (sections 4.2.2 and 4.2.3 of RFC 5952) |
| Inet6Text.DottedWhen | Nginx/nginx-1.28.0/src/core/ngx_inet.c:337-344 | dots are used for exactly the addresses that embed one of IPv4, but for some with nothing but the last word |
| Inet6Text.DigitIs | Nginx/nginx-1.28.0/src/core/ngx_inet.c:344-366 | digits are small letters |
| Inet6Text.Ntop | Nginx/nginx-1.28.0/src/core/ngx_inet.c:295-369 | the loop writes the text of the address with that run left out and with dots where the code wants them |
| Inet6Parse.HexValueIs | Nginx/nginx-1.28.0/src/core/ngx_inet.c:132-149 | digits of either case are read, and nothing else |
| Inet6Parse.InetAddr | Nginx/nginx-1.28.0/src/core/ngx_inet.c:19-61 | four decimal octets, or INADDR_NONE |
| Inet6Parse.Inet6Addr | Nginx/nginx-1.28.0/src/core/ngx_inet.c:64-177 | the in-place writes and the shifting of the part behind "::" compute the meaning of the text |
| Inet6RoundTrip.RoundTrip | Nginx/nginx-1.28.0/src/core/ngx_inet.c:20-369 | for every address: reading the text back gives the address, except exactly when the dotted form is used and the last four bytes are 255 |
| Inet6RoundTrip.Unread | Nginx/nginx-1.28.0/src/core/ngx_inet.c:295-369 | these are exactly the addresses ::255.255.255.255 and ::ffff:255.255.255.255 |
| Inet6RoundTrip.ThereAndBack | Nginx/nginx-1.28.0/src/core/ngx_inet.c:20-369 | writing and reading, composed: every address comes back but these two |
| Inet6RoundTrip.Broadcast | Nginx/nginx-1.28.0/src/core/ngx_inet.c:20-61 | ::ffff:255.255.255.255 is written and not read back |
| Inet6RoundTrip.TextFits | Nginx/nginx-1.28.0/src/core/ngx_inet.c:295-369 | the text never exceeds NGX_INET6_ADDRSTRLEN |
| Inet6RoundTrip.NoLeadingZero | Nginx/nginx-1.28.0/src/core/ngx_inet.c:344-366 | no word is written with a leading zero |
| DnsNames.CreateName | Nginx/nginx-1.28.0/src/core/ngx_resolver.c:3720-3757 | the question written backwards is the encoding of the labels; declined exactly for an empty name, an empty label or a label over 255 bytes |
| DnsNames.Measure | Nginx/nginx-1.28.0/src/core/ngx_resolver.c:3975-4028 | the first pass terminates on every buffer and, when it accepts, has counted the bytes of the path it followed |
| DnsNames.Copy | Nginx/nginx-1.28.0/src/core/ngx_resolver.c:3975-4069 | the second pass follows the same path and writes exactly the counted bytes, in lower case |
| DnsNames.EncodedPath | Nginx/nginx-1.28.0/src/core/ngx_resolver.c:3975-4028 | encoded labels of up to 255 bytes are read back if and only if there are fewer than the steps allowed, each of at most 63 bytes |
| DnsNames.SpelledOnce | Nginx/nginx-1.28.0/src/core/ngx_resolver.c:3720-4069 | labels of at most 63 bytes that spell a name are the labels of that name |
| DnsNames.PointerPath | Nginx/nginx-1.28.0/src/core/ngx_resolver.c:3999-4011 | a pointer with the offset in its fourteen bits, the high ones first, is followed to that offset |
| DnsNames.ReadPointed | Nginx/nginx-1.28.0/src/core/ngx_resolver.c:3663-4069 | the same as ReadBack through a pointer to the question, for at most 126 labels |
| DnsNames.LongLabel | Nginx/nginx-1.28.0/src/core/ngx_resolver.c:3720-4028 | a label of 64 bytes is written and not read |
| DnsNames.ReadBack | Nginx/nginx-1.28.0/src/core/ngx_resolver.c:3663-4069 | for every name that is accepted: reading the question back gives the name with small letters for its capitals if and only if it has at most 127 labels of at most 63 bytes |
| HttpTime.Parse | Nginx/nginx-1.28.0/src/core/ngx_parse_time.c:14-277 | the cursor scan computes the meaning of the text |
| HttpTime.GaussCorrect | Nginx/nginx-1.28.0/src/core/ngx_parse_time.c:245-276 | for every Gregorian date from year 1 on the closed formula is the naive count of seconds since 1970 |
| HttpTime.GaussExact | Nginx/nginx-1.28.0/src/core/ngx_parse_time.c:245-276 | on all accepted fields the formula is that count, except in January and February of year 0, where it is 10368 seconds more |
| HttpTime.StrictlyMonotone | Nginx/nginx-1.28.0/src/core/ngx_parse_time.c:245-276 | later dates have larger times |
| HttpTime.FinishExact | Nginx/nginx-1.28.0/src/core/ngx_parse_time.c:221-276 | which fields are refused, and the time of the others: day 0 and year 0 pass |
| HttpTime.DayZero | Nginx/nginx-1.28.0/src/core/ngx_parse_time.c:221-276 | "Mon, 00 Jan 1970 00:00:00 GMT" is accepted as the day before |
| HttpTime.YearNought | Nginx/nginx-1.28.0/src/core/ngx_parse_time.c:221-276 | "Mon, 01 Jan 0000 00:00:00 GMT" is accepted, 10368 seconds late |
| HttpTime.Accepted | Nginx/nginx-1.28.0/src/core/ngx_parse_time.c:14-277 | a text is accepted if and only if it spells, in one of the three forms, a date that passes; the result is the time of that date |
| HttpTime.ThreeForms | Nginx/nginx-1.28.0/src/core/ngx_parse_time.c:14-277 | the three forms of section 5.6.7 of RFC 9110 give the same time (years 1970 to 2069 for the two-digit form) |
| BlockHash.Context.Update | Nginx/nginx-1.28.0/src/core/ngx_md5.c:30-58 | whatever has been buffered, the context stands for the bytes given so far |
| BlockHash.Context.Body | Nginx/nginx-1.28.0/src/core/ngx_md5.c:169-283 | block by block, the loop with `Md5.Body` or `Sha1.Body` folds the block function over the data |
| BlockHash.Context.Final | Nginx/nginx-1.28.0/src/core/ngx_md5.c:61-111 | the bytes written are those of the digest: the fold of the block function over the padded message (sections 3.1 and 3.2 of RFC 1321), stored word by word |
| BlockHash.Hash | Nginx/nginx-1.28.0/src/core/ngx_md5.c:18-116 | however a message is cut into pieces, the bytes of the MD5 or SHA-1 digest are those of the whole |
| HashWords.StoredRead | Nginx/nginx-1.28.0/src/core/ngx_md5.c:93-157 | four bytes stored from a word are read as that word |
| DigestVectors.Md5OfAlphabet | Nginx/nginx-1.28.0/src/core/ngx_md5.c:18-283 | the digest of the alphabet is the one in section A.5 of RFC 1321 |
| BlockHash.PaddedWhole | Nginx/nginx-1.28.0/src/core/ngx_md5.c:61-100 | the padded message is whole blocks |
| Md5.MixRight | Nginx/nginx-1.28.0/src/core/ngx_md5.c:113-125 | the optimised F and G of the code equal their definitions in section 3.4 of RFC 1321 |
| Md5.Body | Nginx/nginx-1.28.0/src/core/ngx_md5.c:169-283 | with the registers renamed from step to step as the code does, and the words picked by name, the result is that of the indexed definition that shifts the registers |
| DigestVectors.Sha1OfAbc | Nginx/nginx-1.28.0/src/core/ngx_sha1.c:25-294 | the digest of "abc" is the one in section 7.3 of RFC 3174 |
| Sha1.Schedule | Nginx/nginx-1.28.0/src/core/ngx_sha1.c:181-190 | the message schedule is the recurrence of section 6.1 of RFC 3174 |
| Sha1.Body | Nginx/nginx-1.28.0/src/core/ngx_sha1.c:156-294 | with the schedule filled in first, the registers after eighty steps are those of the definition |
| Crc32.Short | Nginx/nginx-1.28.0/src/core/ngx_crc32.h:20-35 | the nibble table computes the bit-by-bit polynomial division |
| Crc32.Long | Nginx/nginx-1.28.0/src/core/ngx_crc32.h:38-50 | so does the byte table |
| Crc32.Update | Nginx/nginx-1.28.0/src/core/ngx_crc32.h:57-69 | so does the running form, from any state |
| Crc32.Pieces | Nginx/nginx-1.28.0/src/core/ngx_crc32.h:53-74 | however the bytes are cut, the running form gives what both others give for the whole |
| Crc32.CheckValue | Nginx/nginx-1.28.0/src/core/ngx_crc32.c:26-99 | the checksum of "123456789" is cbf43926 |
| Crc32.Nibbles | Nginx/nginx-1.28.0/src/core/ngx_crc32.c:26-31 | every entry of the small table is four steps of the division |
| Crc32.Bytes | Nginx/nginx-1.28.0/src/core/ngx_crc32.c:34-99 | every entry of the large table is eight steps of the division |
| Base64.DigitIs | Nginx/nginx-1.28.0/src/core/ngx_string.c:1186-1302 | the digits are those of the alphabets in sections 4 and 5 of RFC 4648 |
| Base64.OnlyDigits | Nginx/nginx-1.28.0/src/core/ngx_string.c:1250-1302 | no other character has a value |
| Base64.EncodeBase64 | Nginx/nginx-1.28.0/src/core/ngx_string.c:1206-1247 | the loop writes the groups of the text and the padding |
| Base64.DecodeBase64 | Nginx/nginx-1.28.0/src/core/ngx_string.c:1304-1347 | accepts exactly digits up to the padding, not one more than a multiple of four, and writes their bytes |
| Base64.DecodedEncoded | Nginx/nginx-1.28.0/src/core/ngx_string.c:1206-1347 | the bytes of the digits of a string are the string |
| Base64.ThereAndBack | Nginx/nginx-1.28.0/src/core/ngx_string.c:1186-1347 | decoding undoes encoding for every byte string, both alphabets, with and without padding |
| Uri.EscapesSpecials | Nginx/nginx-1.28.0/src/core/ngx_string.c:1494-1610 | each of the seven maps escapes exactly the characters of a list: up to the space, the printable ones of its type, and for five of the types those above the tilde |
| Uri.EscapeUri | Nginx/nginx-1.28.0/src/core/ngx_string.c:1494-1673 | the loop writes every byte, or its escape where the map says so; of the characters to be escaped the result has no more than the percent signs of its escapes, whose digits are capitals |
| Uri.CountEscapes | Nginx/nginx-1.28.0/src/core/ngx_string.c:1642-1657 | the counting mode predicts the length exactly |
| Uri.UnescapeUri | Nginx/nginx-1.28.0/src/core/ngx_string.c:1676-1803 | the loop is a run of the three-state machine and stops early only behind a question mark |
| Uri.QuotedRead | Nginx/nginx-1.28.0/src/core/ngx_string.c:1713-1790 | an escape is read whatever the case of its digits |
| Uri.QuotedRedirect | Nginx/nginx-1.28.0/src/core/ngx_string.c:1743-1785 | in a redirect only the escapes of "&" to "~" are read, and the others stay |
| Uri.OnlyRefresh | Nginx/nginx-1.28.0/src/core/ngx_string.c:1494-1610 | of the seven maps only the refresh map lets the percent sign through |
| Uri.Ambiguous | Nginx/nginx-1.28.0/src/core/ngx_string.c:1494-1803 | in the refresh map "%41" is not escaped and comes back as "A" |
| Uri.RoundTrip | Nginx/nginx-1.28.0/src/core/ngx_string.c:1494-1803 | unescaping undoes escaping if and only if the map is not the refresh map or the text has no percent sign |
| Base64.Lengths | Nginx/nginx-1.28.0/src/core/ngx_string.h:186-187 | both results stay within the length macros |
| ThreadPool.NextInv | OJ_Judge/code/pthread_pool.cpp:67-183 | every step of every thread keeps the accounting of the pool |
| ThreadPool.TasksInOrder | OJ_Judge/code/pthread_pool.cpp:67-183 | in every state of every run the pushed tasks are the taken ones followed by the queued ones, and each unfinished taken task is with exactly one worker |
| ThreadPool.LiveCount | OJ_Judge/code/pthread_pool.cpp:67-183 | `liveNum` and the workers that left it but not yet their slot are the occupied slots, so it never exceeds their number; `exitNum` is never negative |
| ThreadPool.Served | OJ_Judge/code/pthread_pool.cpp:67-98 | a ready worker takes the first task of the queue, runs it and is ready again, with `busyNum` one higher while it runs |
| ThreadPool.Exits | OJ_Judge/code/pthread_pool.cpp:72-80 | a worker that wakes up to a request to exit goes, and frees its slot |
| ThreadPool.Filled | OJ_Judge/code/pthread_pool.cpp:105-122 | the manager can fill every free slot and touches no other |
| ThreadPool.NobodyStuck | OJ_Judge/code/pthread_pool.cpp:67-171 | no worker is stuck while the manager has not got the mutex, nor is the manager |
| ThreadPool.HistoryGrows | OJ_Judge/code/pthread_pool.cpp:67-171 | a step takes one task at most, and never forgets one |

## Findings

What the code does where its documentation, or what one would expect of it, says otherwise.
Each has a lemma or method at a concrete input and the exact condition in a contract.

- **A descriptor closed under its user** (`OpenFileCache.ClosedUnderUser`, condition `Clash` in
  `OpenFileCache.OpenFileCache.Open`). `ngx_file_uniq` is the inode number without the device.
  When a path with a kept-open file comes to lead to a directory with the same number on another
  device, `ngx_open_and_stat_file` keeps the descriptor and says directory. Without users the
  entry's descriptor is then closed and stored again; with users the new entry of the directory
  shares it. When that entry is looked at again and the path is gone, the descriptor is closed
  under them (expiry frees the entry of a directory without closing anything). `Open` keeps the
  cache valid in exactly the other cases.
- **A zero-length prefix that cannot be deleted** (`RadixTree.ZeroPrefixStays`, condition
  `OnlyRoot` in `RadixTree.RadixTree.Delete`). A childless root is followed to its NULL parent;
  the model answers `NullParent` there.
- **An IPv6 address that is not read back** (`Inet6RoundTrip.Broadcast`, condition in
  `Inet6RoundTrip.ThereAndBack`): in the dotted form 255.255.255.255 is also the error value, so
  ::255.255.255.255 and ::ffff:255.255.255.255 are written and not read back.
- **The refresh map** (`Uri.Ambiguous`, condition in `Uri.RoundTrip`) lets "%" through, so its
  output is ambiguous. Its bits for "}" and "~" also differ from the comment beside them; the
  model follows the bits.
- **HTTP dates that are no dates** (`HttpTime.DayZero`, `HttpTime.YearNought`, condition in
  `HttpTime.FinishExact`): day 0 is accepted, as the last day of the month before, and year 0
  too; January and February of year 0 come out 10368 seconds late (`HttpTime.GaussExact`), as
  the unsigned year wraps before it is divided.
- **A refused pattern that blocks a name** (`HashKeys.BlockedName`, condition in
  `HashKeys.BusyBecause`): ".example.com" enters the table of exact names before the wildcard
  table refuses it, and the exact name "example.com" is then refused as well. In a list this
  happens only if two patterns conflict anyway (`HashKeys.AllOkIff`).
- **DNS labels that are written and not read** (`DnsNames.LongLabel`, condition in
  `DnsNames.ReadBack`): labels of 64 to 255 bytes are encoded although 63 is the
  limit (section 2.3.4 of RFC 1035). The reader refuses their length byte, and takes one from
  192 on for a pointer. Names of more than 127 labels are refused on reading only.
- **A plain hash without keys** (`PackedHash.NoRoom`, condition in `PackedHash.Init`): a bucket
  size of 8 to 23 leaves a zero divisor. Below 8 the unsigned limit wraps and a hash of size 1
  is built (`PackedHash.TinyBuckets`). With a key such bucket sizes are refused before.

## Left out

- Slab pool: `ngx_slab_calloc`, locking, logging, junk fills, and the `reqs` and `fails` counters; a memory too small for one page, whose page count is zero.
- SlabPool.SlabPool.FreeLocked: addresses in a bitmap or between the last page and the end are excluded, because no block is handed out there (`SlabChecks.LiveNotInBitmap`, `SlabBlocks.BlockPlaced`) and what the code does with them depends on the bits found there.
- Slab page sizes are powers of two from 64 to 65536 bytes and words have 64 bits; the branches for 32-bit words are not modelled.
- Node records, page descriptors, queue links and radix nodes are records in a map from addresses, not heap objects; aliasing with other memory of the process is not captured.
- Red-black tree: `ngx_rbtree_insert_timer_value`, with its signed difference of keys.
- Mutex: the death of a process inside the critical section, failing `sem_wait` and `sem_post`, and fairness; `ngx_shmtx_force_unlock` acts for a process that holds the lock. Spinning is stuttering and compare-and-set is strong.
- Open file cache: kernel events, symbolic links, direct I/O, read-ahead, the test-only mode and the destruction of the whole cache are not modelled; one revalidation sees one file, and callers pass a zeroed `is_dir`. Entries are records in a map from addresses, and the queue is a sequence of them.
- OpenFileCache.OpenFileCache.OpenGone: covers the requests for a missing path only, which are those that get to the lines behind `failed:` from a muddled cache.
- CacheIndex.CompareOrder: names hold no NUL, as the terminated copies in the entries do not.
- Wildcard tables: table addresses are handed out one after the other, four apart, in place of pool memory; the tables of conflicts of `ngx_hash_add_key` are sets.
- HashKeys.AddKey: the flags are `NGX_HASH_WILDCARD_KEY` alone, as in `ngx_http_server_names`; allocation failures are not modelled.
- HashKeys.AddAll: patterns hold only characters after the space and do not end in a dot; values are addresses, not NULL and with their two low bits clear. The caller's stop at the first malformed pattern is not modelled.
- PackedHash.Find: callers pass the hash of the lower-case name, as `PackedHash.Answer` does.
- Radix tree: the 128-bit variant, preallocation, storing the value that stands for none, and allocation failure. Masks are contiguous.
- DNS: the header of the query, its random identifier and the state machine of the resolver.
- HTTP dates: times are unbounded integers; the overflow check for 32-bit `time_t` is not modelled.
- Md5.Body: the code writes its sixty-four steps out, the model goes through them four at a time; the tables of constants and shifts are shared with the definition and fixed by `DigestVectors.Md5OfAlphabet`.
- Sha1.Body: the code writes its eighty steps out, the model goes through them in a loop; the round functions are shared with the definition and fixed by `DigestVectors.Sha1OfAbc`.
- URI escaping: the position of the source pointer after an early stop is bounded, not given exactly. Other unescape modes than the plain one have no inverse.
- Thread pool: construction, shutdown, the destructor, and a lower bound for the live count; tasks are opaque. Steps between two lock operations are one step.
- The judge's HTTP handlers, database calls and sandbox, and nginx processes, connections, events, configuration and logging.
