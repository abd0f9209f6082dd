# Verification of the remote cache

Dafny models of the parts of the system whose correctness is hardest to see, with proofs
about them. `dafny verify dfyconfig.toml` checks everything.

| files | what they model |
|---|---|
| `Basics`, `Division`, `Chunks` | optional results, arithmetic, and the list of chunks that carves up the cache's arena |
| `BuddySpec`, `BuddyCache`, `LossyMap`, `SetLosses` | the buddy scheme on lists of chunks, runs of commands against a lossy map, and what a set costs |
| `Dictionary`, `BuddyDictionary`, `JusticeEngine` | the same in place: one array of nodes threaded by `next` and `prev`, a pool of spare nodes, the engine's commands |
| `KeyBuffer` | the copy of a key into its node's 45-byte buffer |
| `DynamicSpec`, `DynamicFlush`, `CompactionSpec`, `DynamicRun` | dynamic partitions on lists of chunks, with right back links and compaction of whole records |
| `CompactLoop` | which requests would keep the allocation loop compacting for ever if links were right and whole records moved |
| `CodedRun`, `StaleLinks`, `ReachedStates` | dynamic partitions as coded: every node's `prev` is part of the state, what a wrong one does, and commands that lead there |
| `CompactView`, `CodedLists`, `CodedLoop`, `LoopStops` | the allocation loop as coded through compactions: when it finds a chunk, compacts for ever, or hangs on a `prev` it has made wrong itself |
| `ReachedCompactions`, `MissingVictim` | commands from an empty table that lead to each of these, and to a missing victim |
| `CompactionCount`, `DynamicReplies`, `DynamicLosses` | when the loop compacts, what gets and deletes answer, and what a set costs, with dynamic partitions |
| `CodedGets` | what a get answers after a compaction as coded |
| `DynamicDictionary`, `CompactMemory`, `DynamicEngine` | the same in place, compaction of the arena included |
| `CycleCheck`, `PendingSpec`, `PendingPlaces`, `PendingLists` | the pending-io and pending-close lists of a worker thread |
| `ReplySpec`, `ReplyBuffers`, `ReplyService` | memcached's replies: iovecs, messages, partial sends |
| `MultigetSpec`, `Multiget` | a get of many keys that blocks and resumes from its own rewritten line |
| `KeyHash`, `KeyHashValues` | the little-endian hash, its three ways of reading a key, and its value on given keys |
| `Listing`, `ListingLayout`, `DirectoryCache` | the `#`-joined directory listing and the client's cache of listings |

Code that works in place is modelled by methods over arrays and class fields. Each is proved
to compute a function of the old state, and the theorems are about those functions.
Links between nodes are positions in an array, NULL is -1. Nodes are records in one array,
so assigning a field replaces the record.

## Model

| member | source | states |
|---|---|---|
| BuddySpec.ArenaCoversTable | rc/source/diccionario_buddy.c:20-42 | the arena, whose size is rounded down to a power of two, is as large as the table exactly when the table size is a power of two |
| BuddyDictionary.SplitIntoBrothers | rc/source/diccionario_buddy.c:96-115 | the node taken from the pool becomes the upper half behind the lower one, with all links right |
| BuddyDictionary.IsFirstBrother | rc/source/diccionario_buddy.c:117-135 | the count over preceding chunks says 1 exactly when offset / size is even |
| BuddySpec.CoalesceKeeps | rc/source/diccionario_buddy.c:147-183 | the merge loop keeps the tiling by aligned dyadic chunks and leaves no two free brothers side by side |
| BuddyDictionary.Delete | rc/source/diccionario_buddy.c:137-185 | the multi-level merge in place gives the merged list and position, links right, table_current_size less by the data deleted |
| BuddyCache.SplitFindsNode | rc/source/diccionario.c:49-94 | with table / slab - 1 pool nodes, a wanted split never finds the pool empty |
| BuddyCache.QuietCount | rc/source/diccionario.c:49-94 | chunks never outnumber the nodes made available |
| BuddyCache.VictimExists | rc/source/diccionario.c:126-164 | when no chunk fits and nothing is reserved there is a victim, and it is a stored item |
| BuddyCache.AllocKeeps | rc/source/diccionario_buddy.c:55-92 | evict-and-retry ends with a blank chunk that fits and whose half would not, and evicts no item younger than one it keeps |
| BuddyDictionary.FindPlace | rc/source/diccionario_buddy.c:44-93 | the allocation loop in place ends and hands out that chunk, with the data booked; NULL exactly when the request exceeds the table |
| Dictionary.Dict.constructor | rc/source/diccionario.c:49-94 | one chunk for the whole table and a pool in array order, linked both ways |
| Dictionary.Dict.Lookup | rc/source/diccionario.c:96-124 | the first node whose key has that length and those bytes |
| Dictionary.Dict.ChooseVictim | rc/source/diccionario.c:126-164 | the first node of least non-zero hour |
| Dictionary.Dict.Search | rc/source/diccionario_dinamicas.c:69-101 | first fit, or under best fit the first of the smallest chunks that fit |
| LossyMap.SetStores | rc/source/justice_engine.c:176-239 | a set that fits stores exactly the value; every other stored chunk keeps its record and its bytes; what is evicted is no younger than what is kept |
| SetLosses.SetForRoom | rc/source/diccionario_buddy.c:55-92 | a set that fits the table drops the old value of its key, then evicts items one by one, least hour first, only while no chunk fits, and loses no other item |
| SetLosses.SetKeepsOthers | rc/source/diccionario_buddy.c:55-92 | a set loses no other key, record or byte when some chunk fits, or when the item is too big for the table |
| SetLosses.AllocForRoom | rc/source/diccionario_buddy.c:55-92 | what is handed out begins where the chunk begins that first fit, or best fit, chooses in the list the evictions leave |
| SetLosses.SetAnswers | rc/source/justice_engine.c:176-239 | a set is refused as too big exactly when its data is longer than the table |
| SetLosses.SetThenGetOther | rc/source/justice_engine.c:176-308 | then a get of another key answers after the set as before it |
| LossyMap.FlushEmpties | rc/source/diccionario.c:166-184 | a flush leaves one free chunk that spans the table |
| LossyMap.StepRefines | rc/source/justice_engine.c:176-366 | one command answers as the map of past sets allows and leaves a faithful part of it |
| LossyMap.EveryRunRefines | rc/source/justice_engine.c:176-366 | over every run from an empty table each get misses or gives exactly the bytes and flags last set and not deleted or flushed since, and hours are last uses |
| KeyBuffer.KeyCopied | rc/source/justice_engine.c:207-209 | copying a key and the character behind it into a 45-byte buffer stays inside exactly for keys shorter than 45, and then the buffer begins with the key; a longer key fills the buffer and the next write is the first outside |
| KeyBuffer.CopyInto | rc/source/justice_engine.c:209 | the copy in place gives that buffer |
| LossyMap.SetThenGet | rc/source/justice_engine.c:176-308 | a set that fits is visible to the get that follows |
| LossyMap.SetEvictsLeastRecent | rc/source/justice_engine.c:230-303 | in the map's terms, what a set evicts was stored (FIFO) or used (LRU) no later than anything kept |
| JusticeEngine.Engine.DoSetCommand | rc/source/justice_engine.c:176-239 | allocate, write, store in place give the state and reply of a set |
| JusticeEngine.Engine.DoGetCommand | rc/source/justice_engine.c:241-308 | get and get_item_info in place give the state and reply of a get |
| JusticeEngine.Engine.DoDeleteCommand | rc/source/justice_engine.c:325-348 | item_delete in place gives the state and reply of a delete |
| JusticeEngine.Engine.DoFlushCommand | rc/source/justice_engine.c:351-366 | flush in place leaves one free chunk, nothing booked |
| DynamicSpec.DiscardKeeps | rc/source/diccionario_dinamicas.c:131-183 | deletion keeps tiling, minimal size and coalescing and takes away exactly the deleted item |
| DynamicSpec.DiscardCount | rc/source/diccionario_dinamicas.c:143-149 | deletion takes away exactly the item's data from the sum of data sizes |
| DynamicSpec.HoleFindsNode | rc/source/diccionario_dinamicas.c:103-114 | a hole worth splitting always finds a pool node |
| DynamicSpec.TakeHoleKeeps | rc/source/diccionario_dinamicas.c:103-121 | the chunk handed out is less than a slab larger than asked for; no stored chunk changes |
| DynamicFlush.FlushListEmpties | rc/source/diccionario.c:166-184 | with right links a flush of any good list leaves one free chunk of the table's size |
| CompactionSpec.CompactGeometry | rc/source/diccionario_dinamicas.c:188-253 | compaction keeps the tiling, the order, sizes, keys and hours of the stored chunks, and leaves them first with at most one chunk behind |
| CompactionSpec.CompactPayloads | rc/source/diccionario_dinamicas.c:229-235 | every stored chunk keeps its bytes, overlapping moves included |
| CompactionSpec.CompactCarved | rc/source/diccionario_dinamicas.c:188-253 | moving whole records keeps a good list good, with the same items and the same data in use |
| CompactionSpec.MovedFound | rc/source/diccionario_dinamicas.c:229-247 | as coded, a moved item still answers to its key exactly when it was not the first to move and the one before it has a key of the same length |
| CompactionSpec.FoundAfterCompaction | rc/source/diccionario_dinamicas.c:229-247 | as coded, what a lookup of any key gives afterwards: an unmoved chunk, the first moved item that answers (with another item's flags), or nothing |
| CompactionSpec.RoomAfterCompaction | rc/source/diccionario_dinamicas.c:229-247 | as coded, some chunk is free afterwards exactly when nothing had to move |
| CodedGets.GetAfterCompaction | rc/source/diccionario_dinamicas.c:229-247 | what a get may answer after a compaction as coded: nothing, the value and flags last set under its key, or from a moved chunk the value of an item whose key begins with the one asked for, with flags of an item whose key has that length |
| CompactMemory.CopyBytes | rc/source/diccionario_dinamicas.c:232 | a forward byte copy to a lower address moves the old bytes |
| CompactMemory.CompactAll | rc/source/diccionario_dinamicas.c:188-253 | compaction in place gives the compacted list, nodes, `prev` links and arena, as coded |
| CompactView.CompactVLinks | rc/source/diccionario_dinamicas.c:218-252 | compaction as coded leaves every `prev` behind the first free chunk right, everything up to it as it was, and takes no spare node |
| DynamicRun.AllotKeeps | rc/source/diccionario_dinamicas.c:68-124 | the loop ends for every compaction frequency but 0 and 1, hands out a chunk that fits, keeps the surviving items with their bytes and evicts none younger than one it keeps |
| DynamicLosses.AllotTurns | rc/source/diccionario_dinamicas.c:68-124 | it hands out its chunk where the turns of the loop end, each of which finds nothing that fits and compacts or evicts as the counter says (DynamicLosses.WholeTurn) |
| DynamicLosses.DSetKeepsOthers | rc/source/diccionario_dinamicas.c:68-124 | a set loses no other key and leaves the counter when some chunk fits, or when the item is too big |
| CompactLoop.CompactsForever | rc/source/diccionario_dinamicas.c:79-86 | with frequency 0 or 1 and whole records moved, a due compaction repeats for ever exactly when the table less the occupied chunk sizes is less than the request |
| CompactLoop.NeverSettles | rc/source/diccionario_dinamicas.c:68-124 | with whole records moved, the loop never ends exactly when the frequency is 0 or 1 and the first compaction to come due cannot make room |
| DynamicRun.CompactMakesRoom | rc/source/diccionario_dinamicas.c:82 | moving whole records makes room exactly when the table less the occupied chunk sizes is enough; the guard compares data sizes |
| DynamicRun.DRunRefines | rc/source/diccionario_dinamicas.c:68-253 | with right links and whole records every run keeps tiling, minimal size, coalescing and the node bound, and refines the lossy map, compaction included |
| DynamicRun.DSetEvictsOldest | rc/source/diccionario.c:139-163 | the same eviction order holds under dynamic partitions |
| DynamicRun.DSetThenGet | rc/source/justice_engine.c:176-308 | a set that fits is visible to the get that follows |
| DynamicReplies.DGetSays | rc/source/justice_engine.c:241-308 | in every good state a get hits exactly when its key is stored, with what is stored, and changes at most that item's hour |
| DynamicReplies.DDeleteSays | rc/source/justice_engine.c:325-348 | in every good state a delete says deleted exactly when its key is stored, and takes away that item alone |
| CodedRun.RemoveLeaves | rc/source/diccionario_dinamicas.c:152-179 | from right links, deleting an item leaves a wrong `prev` exactly when an unoccupied chunk and then another chunk follow it, and that `prev` is the head of the pool |
| CodedRun.FlushGetsThrough | rc/source/diccionario.c:166-184 | as coded, a flush of a list with right links gets through exactly when no gap lies between two stored items; otherwise it comes to a node whose `prev` is the head of the pool |
| StaleLinks.AnyViewShown | rc/source/diccionario.c:49-94 | every list of chunks with its nodes, spare nodes and `prev` links is that of some array of nodes |
| StaleLinks.FlushNeverEnds | rc/source/diccionario.c:166-184 | and the deletion it comes to never ends, in whatever array shows that state, and one does |
| CodedRun.CRunIs | rc/source/diccionario_dinamicas.c:68-183 | as coded, a run keeps the list good, with table_current_size the sum of the stored data, and for any compaction frequency but 0 and 1 gives the list, arena, counter and replies of the scheme; or it stops in a good state about to delete a stored node with a wrong `prev`, or to compact |
| CodedRun.CRunStops | rc/source/diccionario_dinamicas.c:68-183 | a run that does not get through ran up to one command, and stops as that command does |
| CodedRun.CRunEvery | rc/source/diccionario_dinamicas.c:68-183 | up to such a stop a run does not depend on the compaction frequency |
| CodedRun.CodedRefines | rc/source/justice_engine.c:176-366 | as coded and for every frequency, a run that gets through answers as the lossy map allows |
| CodedRun.SplitLinks | rc/source/diccionario_dinamicas.c:103-114 | splitting a hole takes the head of the pool, sets its `prev` and that of the next node right, and changes no other node or link |
| CodedRun.TakeLinks | rc/source/diccionario_dinamicas.c:103-114 | so handing out a chunk leaves all links right when they were |
| DynamicReplies.CGetSays | rc/source/justice_engine.c:241-308 | as coded a get never stops, hits exactly when its key is stored, with what is stored, and changes at most that item's hour |
| DynamicReplies.CDeleteSays | rc/source/justice_engine.c:325-348 | as coded a delete stops exactly when its item has a wrong `prev`; otherwise it says deleted exactly when the key is stored and takes away that item alone |
| DynamicLosses.CSetForRoom | rc/source/diccionario_dinamicas.c:68-124 | as coded a set that runs evicts items one by one, least hour first, only while no chunk fits, loses no other, and leaves the compaction counter one less for each, not below zero |
| DynamicLosses.CSetRuns | rc/source/diccionario_dinamicas.c:68-124 | while a chunk fits, a set never compacts and stops exactly when its own old value has a wrong `prev` |
| DynamicLosses.CSetKeepsOthers | rc/source/diccionario_dinamicas.c:68-124 | and loses no other key, record or byte, nor does one too big for the table |
| DynamicLosses.CSetAnswers | rc/source/justice_engine.c:176-239 | a set that runs is refused as too big exactly when its data is longer than the table |
| DynamicLosses.OthersLeaveCounter | rc/source/diccionario_dinamicas.c:78 | gets, deletes and flushes leave the counter |
| CompactionCount.FailedSearch | rc/source/diccionario_dinamicas.c:78-89 | a failed search compacts exactly when the counter is 1 or 0 and the table less the data is enough, and sets it to the frequency; otherwise it evicts the item of least hour and takes 1 from a counter above zero |
| CompactionCount.GoodSearch | rc/source/diccionario_dinamicas.c:69-101 | a search that succeeds takes the first chunk that fits, or under best fit the first of the smallest |
| CompactionCount.CountsDown | rc/source/diccionario_dinamicas.c:78-89 | from a counter above n, n failed searches evict and leave it n less; a negative counter stays and never compacts |
| CompactionCount.ComesDue | rc/source/diccionario_dinamicas.c:78-86 | from a counter n + 1, as a compaction leaves it, the failed search after those compacts exactly when the table less the data is enough |
| StaleLinks.StaleDeleteNeverEnds | rc/source/diccionario_dinamicas.c:152-167 | deleting a node whose `prev` is any node of the pool never ends |
| StaleLinks.DeleteNeverEnds | rc/source/diccionario_dinamicas.c:152-167 | so for any node of the table in place whose `prev` is in its pool |
| StaleLinks.StaleDeletion | rc/source/diccionario_dinamicas.c:152-179 | deleting a stored item whose `prev` is wrong ends with the list the scheme promises exactly when that `prev` is NULL or an occupied node and the chunk before the item is occupied |
| StaleLinks.StaleFreeTarget | rc/source/diccionario_dinamicas.c:154-157 | a `prev` that is an unoccupied node takes the item's space and so claims memory of the chunk behind itself |
| ReachedStates.TwoDeletesStop | rc/source/diccionario_dinamicas.c:152-179 | from any good state with right links and a gap between two items, deleting the one before it and then the one behind it comes to a deletion that never ends |
| ReachedStates.SixCommandsNeverEnd | rc/source/diccionario_dinamicas.c:103-179 | on an empty table of three slabs: three sets and three deletes, the last of which never ends, whatever the frequency |
| CodedLoop.EvictionsComeTo | rc/source/diccionario_dinamicas.c:78-89 | evictions of the loop as coded, from links that are right or broken only as the loop breaks them: they get through, and leave such links, exactly when no chunk they take has a wrong `prev` and none is crossed, that is, no item goes after all items between the two and before that chunk; otherwise they come to a deletion that never ends |
| CodedLoop.LoopFate | rc/source/diccionario_dinamicas.c:68-253 | so whether the loop as coded finds a chunk, compacts for ever or hangs on a wrong `prev` is read off the chunks, compaction included |
| CodedLoop.OneFate | rc/source/diccionario_dinamicas.c:68-124 | a loop comes to one of the three at most |
| CodedLoop.AllotVComes | rc/source/diccionario_dinamicas.c:68-124 | a coded run follows that loop to the chunk found, to the first deletion of a node with a wrong `prev`, or to the first compaction |
| CodedLoop.CompactsEndlessly | rc/source/diccionario_dinamicas.c:79-86 | with frequency 0 or 1, whatever the links, the loop compacts for ever exactly when compaction comes due before a chunk is found, room or not, and finds a chunk exactly when one is found before that |
| LoopStops.LoopStops | rc/source/diccionario_dinamicas.c:68-124 | with any other frequency no loop goes on for ever, whatever the chunks and links |
| LoopStops.SpinsExactly | rc/source/diccionario_dinamicas.c:68-124 | for every frequency: the loop compacts for ever exactly when that is 0 or 1 and compaction comes due before a chunk is found |
| ReachedCompactions.FourSetsCompact | rc/source/diccionario_dinamicas.c:68-124 | on an empty table of three slabs a fourth set comes to compaction; with frequency 0 or 1 it never ends, with a negative frequency or one above three it does |
| ReachedCompactions.UsedAgainNeverEnds | rc/source/diccionario_dinamicas.c:68-253 | under LRU: set a and b, get a, set c, set an item as large as the table; links are right when the last set begins, and it never ends: it compacts for ever with frequency 0 or 1, and with a negative frequency or one above three hangs on a `prev` its own evictions made wrong |
| ReachedCompactions.PlaceSetAgainHangs | rc/source/diccionario_dinamicas.c:68-253 | under FIFO, four items with right links, the first place set again after the second: a request for the whole table hangs, after a compaction with frequency -1 when the items are empty, before any with every frequency when they are full |
| MissingVictim.FiveCommandsFindNoVictim | rc/source/diccionario.c:139-160 | with frequency 2, five commands end in a set that compacts three times and then logs the key of no victim |
| ReachedCompactions.GapCompacts | rc/source/diccionario_dinamicas.c:47-86 | the first search of a table to fail compacts when the guard holds, with frequency -1 as with any other |
| ReachedCompactions.CompactionDecides | rc/source/diccionario_dinamicas.c:68-253 | what becomes of a run that stops to compact: with frequency 0 or 1 it never ends, whatever the links; with a negative frequency or one above the number of stored items, links broken only as the loop breaks them, it ends or hangs exactly as the evictions that follow do |
| DynamicDictionary.Delete | rc/source/diccionario_dinamicas.c:131-183 | the coded deletion in place, all links included, of a node whose own `prev` is right |
| DynamicDictionary.FlushAll | rc/source/diccionario.c:166-184 | the coded flush in place |
| DynamicEngine.Engine.MakeRoom | rc/source/diccionario_dinamicas.c:78-89 | a failed search counts down and then compacts the table and arena as coded, links included, or evicts the victim |
| DynamicEngine.Engine.FindPlace | rc/source/diccionario_dinamicas.c:53-124 | the coded allocation loop in place |
| DynamicEngine.Engine.DoSetCommand | rc/source/justice_engine.c:176-239 | a set in place gives the state and reply of the coded step |
| DynamicEngine.Engine.DoGetCommand | rc/source/justice_engine.c:241-308 | a get in place gives the state and reply of the coded step |
| DynamicEngine.Engine.DoDeleteCommand | rc/source/justice_engine.c:325-348 | a delete in place gives the state and reply of the coded step |
| DynamicEngine.Engine.DoFlushCommand | rc/source/justice_engine.c:351-366 | a flush in place gives the state and reply of the coded step |
| CycleCheck.HasCycle | memcached-1.6/daemon/thread.c:389-402 | ends on every finite structure and says true exactly when a cycle is reachable |
| PendingSpec.StepSound | memcached-1.6/daemon/thread.c:413-676 | every section under the lock keeps the lists duplicate-free, disjoint and free of PROCESSING connections, and every assert of enlist_conn holds |
| PendingSpec.EveryRunSound | memcached-1.6/daemon/thread.c:413-676 | so at every point of every interleaving, assuming only a sound first state |
| PendingSpec.FinalizePlaces | memcached-1.6/daemon/thread.c:458-473 | after the batch each drained connection with a valid socket and a request is on exactly one list, io preferred; nothing else moves |
| PendingSpec.DeferredIoIsServed | memcached-1.6/daemon/thread.c:440-473 | an operation that completes while its connection is drained is listed when the batch ends, whatever happens between |
| PendingSpec.KeepsWaiting | memcached-1.6/daemon/thread.c:531-556 | a connection told to keep waiting is listed again exactly when its socket is still valid |
| PendingPlaces.IoDonePlaces | memcached-1.6/daemon/thread.c:666-675 | a completed operation puts its connection in front of pending_io unless it is listed; a drained one records an io request; nothing else moves |
| PendingPlaces.DisconnectPlaces | memcached-1.6/daemon/thread.c:656-665 | a disconnect takes its connection off pending_io and has it once on pending_close; a drained one records a close request; nothing else moves |
| PendingPlaces.TapDisconnectPlaces | memcached-1.6/daemon/thread.c:593-636 | a tap connection goes off both lists, then to pending_close when it is closing with its last reference, to pending_io when it is not closing, nowhere otherwise |
| PendingPlaces.DrainPlaces | memcached-1.6/daemon/thread.c:492-513 | draining takes the first max - 1 of a list in their order, marks exactly those, and leaves the close list unless its time has come |
| PendingPlaces.RequeuePlaces | memcached-1.6/daemon/thread.c:531-556 | a connection told to keep waiting records a close request and nothing moves |
| PendingPlaces.CloseConnPlaces | memcached-1.6/daemon/memcached.c:690-740 | a closed connection is on neither list and has no socket; nothing else moves |
| PendingPlaces.NukePlaces | memcached-1.6/daemon/thread.c:531-556 | closed from the batch it is off that as well |
| PendingPlaces.CompletedIoIsServed | memcached-1.6/daemon/thread.c:440-473 | from the completion itself: an operation that completes while its connection is drained and has its socket is listed for io when the batch ends, whatever happens between |
| PendingLists.Thread.constructor | memcached-1.6/daemon/thread.c:242-290 | the first state is valid and sound |
| PendingLists.Thread.ListRemove | memcached-1.6/daemon/thread.c:413-427 | the recursive removal in place gives the list without the connection, whose link becomes NULL |
| PendingLists.Thread.EnlistConn | memcached-1.6/daemon/thread.c:440-456 | enlisting in place is the step, and its asserts hold, no cycle included |
| PendingLists.Thread.Drain | memcached-1.6/daemon/thread.c:492-513 | the first section of libevent_tap_process is the drain step |
| PendingLists.Thread.Finish | memcached-1.6/daemon/thread.c:553-557 | the last section is the finalize step |
| PendingLists.Thread.TapDisconnect | memcached-1.6/daemon/thread.c:593-636 | the tap branch of notify_io_complete is its step |
| PendingLists.Thread.Disconnect | memcached-1.6/daemon/thread.c:639-665 | the disconnect branch for other connections is its step |
| PendingLists.Thread.IoDone | memcached-1.6/daemon/thread.c:666-675 | the completion branch is its step, and tells whether the thread is woken |
| PendingLists.Thread.PendingClose | memcached-1.6/daemon/memcached.c:5451-5460 | the section of conn_pending_close is the disconnect step |
| ReplySpec.AddedKeeps | memcached-1.6/daemon/memcached.c:892-943 | adding a buffer keeps every message within its limits and appends exactly its bytes |
| ReplySpec.ReplyIsConcatenation | memcached-1.6/daemon/memcached.c:892-943 | the messages of a reply carry the concatenation of its buffers |
| ReplySpec.ReplyTight | memcached-1.6/daemon/memcached.c:892-943 | every message of a reply but the last is full: it has as many pieces as it may, or it is a datagram or the first message and has 1400 bytes |
| ReplySpec.HeadedDatagram | memcached-1.6/daemon/memcached.c:945-979 | each datagram starts with 8 bytes: request id, its number and how many there are, each 16 bits high byte first, and zero; then its part of the reply; 1400 bytes at most |
| ReplySpec.SendConserves | memcached-1.6/daemon/memcached.c:5010-5032 | a partial send writes a prefix of what is to come and leaves the rest |
| ReplySpec.EveryRunSends | memcached-1.6/daemon/memcached.c:4993-5052 | any sequence of partial sends emits a prefix of the reply, and with what is left the whole |
| ReplySpec.CompleteMeansAll | memcached-1.6/daemon/memcached.c:4993-5052 | completion is reported only when all is sent |
| ReplySpec.ReplyNeverStalls | memcached-1.6/daemon/memcached.c:4993-5052 | for a reply of non-empty buffers over TCP, at every point of every run the next call has nothing to write exactly when all of the reply has gone out |
| ReplyBuffers.Conn.AddIov | memcached-1.6/daemon/memcached.c:892-943 | the arrays, grown and re-pointed, lay out the messages the specification adds |
| ReplyBuffers.Conn.EnsureIovSpace | memcached-1.6/daemon/memcached.c:862-885 | after reallocation every msg_iov is again the prefix-sum slice of the new array |
| ReplyBuffers.Conn.AddMsghdr | memcached-1.6/daemon/memcached.c:274-310 | a new message starts where the pieces in use end, with a header slot for UDP |
| ReplyBuffers.Conn.BuildUdpHeaders | memcached-1.6/daemon/memcached.c:945-979 | every slot is filled with its header |
| ReplyBuffers.Conn.Consume | memcached-1.6/daemon/memcached.c:5015-5032 | pieces written whole go, the piece written in part starts later, nothing of other messages changes |
| ReplyBuffers.Conn.Transmit | memcached-1.6/daemon/memcached.c:4993-5052 | one call writes what sendmsg took of the current message; it reports complete exactly when none is left, and a soft error exactly when sendmsg would block and the event could be updated |
| ReplyService.Answer | memcached-1.6/daemon/memcached.c:4993-5052 | a whole reply of non-empty buffers over TCP, begun, laid out and sent by any calls that write something: the next call reports completion exactly when all of the buffers have gone out |
| Multiget.TokenizeCommand | memcached-1.6/daemon/memcached.c:3527-3563 | the tokens are the first words in order, the last one tells where the others begin, and only the spaces behind those words are cut |
| Multiget.ResumedWords | memcached-1.6/daemon/memcached.c:4784-4813 | the rewritten line has the same command word and exactly the words not yet processed |
| Multiget.ResumedLine | memcached-1.6/daemon/memcached.c:4784-4819 | and still is a get line that ends where it did |
| Multiget.GetCommand.ProcessGet | memcached-1.6/daemon/memcached.c:4015-4189 | the batches of tokens visit every key once until one blocks |
| Multiget.GetCommand.TryRead | memcached-1.6/daemon/memcached.c:4646-4822 | one pass of the text branch finishes the command or leaves it ready to resume |
| Multiget.GetCommand.ServeGet | memcached-1.6/daemon/memcached.c:4646-4822 | blocking at any keys any number of times gives the reply of the run in which every key answers at once |
| MultigetSpec.ServeAtOnce | memcached-1.6/daemon/memcached.c:4015-4189 | the final answers alone decide that reply |
| MultigetSpec.ServeSays | memcached-1.6/daemon/memcached.c:4015-4189 | the reply is an error exactly when some key is longer than 250, and otherwise lists, in the order of the keys, exactly those for which the engine has an item after any number of blocks, each with that item |
| Multiget.GetCommand.Rewrite | memcached-1.6/daemon/memcached.c:4791-4813 | the rewriting in place, also of a line whose text ended at a NUL for the tokenizer: the command word right before what is left, every later NUL a space |
| Multiget.NulResumes | memcached-1.6/daemon/memcached.c:4791-4813 | after that rewriting the command asks for exactly the keys still to be looked up if and only if only spaces and NULs follow the NUL |
| MultigetSpec.NulInLine | memcached-1.6/daemon/memcached.c:4808-4811 | turning the NULs of a text into spaces leaves its words the same exactly when only spaces and NULs follow the first NUL |
| KeyHash.Hash | memcached-1.6/daemon/hash.c:121-293 | whichever of the three alignment branches runs, the result is the value of the key's bytes |
| KeyHashValues.PublishedValues | memcached-1.6/daemon/hash.c:121-293 | that value is what lookup3 publishes: for the empty key with two initial values and for a key of thirty bytes |
| KeyHashValues.RotIs | memcached-1.6/daemon/hash.c:28 | rot by k multiplies by 2 to the k and brings the k high bits in at the low end |
| KeyHashValues.XorIs | memcached-1.6/daemon/hash.c:74-118 | the exclusive or of two numbers is that of their bits |
| KeyHash.FinishBijective | memcached-1.6/daemon/hash.c:109-118 | final is undone by its inverse on every three words, both ways round; the hash is the word it leaves in c |
| KeyHash.MixBijective | memcached-1.6/daemon/hash.c:74-82 | mix is undone by its inverse on every three words, both ways round |
| KeyHash.MixWords | memcached-1.6/daemon/hash.c:74-82 | the assignments of mix compute that function |
| KeyHash.BlocksTellApart | memcached-1.6/daemon/hash.c:121-293 | keys of one length that differ in exactly one twelve-byte block are in different states after it, after every later block and when final begins |
| Listing.PayloadLength | rfs/commons/serializadores.c:289-294 | the length computed in 16-bit steps is the exact length modulo 65536 |
| Listing.Serialize | rfs/commons/serializadores.c:283-317 | every write stays inside, and the message is type, length, joined names and zeros |
| Listing.FitsExactly | rfs/commons/serializadores.c:289-296 | with no empty name the writes fit the stored length exactly when it did not wrap |
| Listing.StringSplit | fsc/commons/string.c:189-210 | splitting in place on a copy gives the pieces between hashes up to the first NUL |
| Listing.AlwaysTerminated | rfs/commons/serializadores.c:289-296 | the padding always leaves a terminator inside the payload |
| Listing.RoundTrip | rfs/commons/serializadores.c:283-317 | splitting gives the names back exactly when each is non-empty and has no hash and no NUL |
| ListingLayout.PayloadLayout | rfs/commons/serializadores.c:283-317 | each name lies behind those before it with a hash between two, a zero for each name follows the last, and there is nothing more |
| DirectoryCache.PreviousOfEntry | fsc/sources_FSC/operaciones_fuse.c:50-64 | the path computed for an entry is the directory that holds it |
| DirectoryCache.PreviousPath | fsc/sources_FSC/operaciones_fuse.c:50-64 | the prefix before the last slash, or the root |
| DirectoryCache.KeysApart | fsc/sources_FSC/manejador_memcached.c:39-61 | listing keys are distinct for distinct paths and never attribute keys |
| DirectoryCache.LibraryKey | fsc/sources_FSC/manejador_memcached.c:39-61 | the key is the prefix and the path, without a terminator |
| DirectoryCache.StepFresh | fsc/sources_FSC/operaciones_fuse.c:66-422 | every operation, and any eviction, keeps cached listings right |
| DirectoryCache.EveryRunFresh | fsc/sources_FSC/operaciones_fuse.c:66-422 | over every run any cached listing of an existing directory is the server's |
| DirectoryCache.EveryReadAnswers | fsc/sources_FSC/operaciones_fuse.c:305-396 | a read that succeeds names exactly what the server lists if and only if every name is plain |
| DirectoryCache.GoneDirectoryAnswers | fsc/sources_FSC/operaciones_fuse.c:321-334 | reading a removed directory succeeds exactly while its listing is cached, and finds it empty |
| DirectoryCache.FullRemovalGoesStale | fsc/sources_FSC/operaciones_fuse.c:398-429 | were a directory removed with entries and made again, its old listing would be served |
| DirectoryCache.Client.Read | fsc/sources_FSC/operaciones_fuse.c:305-396 | the cache, the code and the names after a read: from the cache, refused with ENOENT or ENAMETOOLONG, or sent and cached |
| DirectoryCache.Client.Create | fsc/sources_FSC/operaciones_fuse.c:66-98 | a creation returns EEXIST and ENAMETOOLONG and reports success for every other reply, and then drops the listing of the directory that holds the entry |
| DirectoryCache.Client.Remove | fsc/sources_FSC/operaciones_fuse.c:398-429 | a removal does the same with ENOENT and ENAMETOOLONG |
| DirectoryCache.Client.ReadExisting | fsc/sources_FSC/operaciones_fuse.c:305-396 | from a right cache the server's listing reaches the kernel, cached or not |

## Findings

What the proofs showed of the code, each with its exact condition in the member named.

- Dynamic deletion: the forward loop (rc/source/diccionario_dinamicas.c:169-178) never repairs the `prev` of the node behind the one it absorbs (CodedRun.RemoveLeaves). Deleting, evicting or flushing that node next never ends while the absorbed node is in the pool (StaleLinks.StaleDeleteNeverEnds); six commands lead there (ReachedStates.SixCommandsNeverEnd). Once that node is reused, the deletion still does the right thing exactly when the node is occupied, or there is none, and the chunk before the deleted one is occupied (StaleLinks.StaleDeletion); otherwise an unoccupied neighbour is not joined, or memory of another chunk is claimed (StaleLinks.StaleFreeTarget). A flush of a list with right links never ends exactly when a gap lies between two items (CodedRun.FlushGetsThrough, StaleLinks.FlushNeverEnds).
- Dynamic compaction leaves nkey and flags behind (rc/source/diccionario_dinamicas.c:230-244): most moved items are no longer found, a lookup may give another item, and the space gathered is taken for reserved (CompactionSpec.FoundAfterCompaction, CompactionSpec.RoomAfterCompaction).
- Dynamic allocation: with compaction frequency 0 or 1 a set never ends once compaction comes due, and with no other frequency does it compact for ever (LoopStops.SpinsExactly; four sets show it, ReachedCompactions.FourSetsCompact). With any frequency the evictions of one set can make a `prev` wrong and then hang on it, from a table whose links are all right: CodedLoop.EvictionsComeTo says exactly when, CodedLoop.LoopFate what becomes of the set, and ReachedCompactions.UsedAgainNeverEnds gives five commands that show it. Compacting twice in one set can leave no victim, whose key is then read through NULL (rc/source/diccionario.c:160; MissingVictim.FiveCommandsFindNoVictim). Even with right links and whole records moved a set would not end when the occupied chunks leave too little room (CompactLoop.NeverSettles). The comment at rc/source/diccionario_dinamicas.c:61 says compaction only happens when it will make room; its guard adds up data sizes, not chunk sizes (DynamicRun.CompactMakesRoom). The counter starts at zero, so the first failed search may compact even when the frequency is -1 (ReachedCompactions.GapCompacts), which the comment at line 51 says never compacts.
- The buddy arena is smaller than the table unless the table size is a power of two (BuddySpec.ArenaCoversTable).
- A key of 45 or more characters overruns its buffer: nkey + 1 bytes are copied into 45 (rc/source/justice_engine.c:209, rc/source/diccionario.c:75; KeyBuffer.KeyCopied), while memcached accepts 250.
- A connection requeued for closing after it gave its socket back drops off both lists (PendingSpec.KeepsWaiting).
- A NUL inside a get line hides the keys behind it, unless the command blocks (Multiget.NulResumes; MultigetSpec.NulExample is such a line).
- The length of a directory listing is kept in 16 bits, and a longer listing is written past its buffer (Listing.FitsExactly).
- A removed directory reads as empty while its listing stays cached (DirectoryCache.GoneDirectoryAnswers). Creation reports success for every error of the server but EEXIST and ENAMETOOLONG, removal for every one but ENOENT and ENAMETOOLONG (DirectoryCache.Client.Create, DirectoryCache.Client.Remove).

## Left out

Of the cache engine:

- One set or get at a time: nothing is reserved when a command begins. With reservations outstanding the victim search can come back empty, whose key is then read through NULL (rc/source/diccionario.c:160), and the dynamic deletion absorbs reserved neighbours.
- Release of an item that was never stored: it always calls the dynamic deletion, under the buddy scheme too.
- LossyMap.EveryRunRefines: no sets of keys of 45 characters and more, on which the code writes outside the node (KeyBuffer.KeyCopied). The same holds of the other runs.
- Dictionary.Dict.constructor: the pool has table / slab - 1 nodes; the source links one more node, which is not allocated.
- DynamicSpec.DiscardKeeps: the list the program leaves when back links are right, and when a wrong one does no harm (StaleLinks.StaleDeletion).
- DynamicFlush.FlushListEmpties: with right back links; as coded, see CodedRun.FlushGetsThrough.
- CompactionSpec.CompactCarved: whole records moved, where the code leaves nkey and flags behind; as coded, see CompactionSpec.FoundAfterCompaction and CompactionSpec.RoomAfterCompaction.
- DynamicRun.AllotKeeps: right back links and whole records; as coded, see CodedRun.CRunIs and CodedLoop.LoopFate.
- CompactLoop.CompactsForever: the same; as coded, see CodedLoop.CompactsEndlessly.
- CompactLoop.NeverSettles: the same; as coded, see LoopStops.SpinsExactly.
- DynamicRun.DRunRefines: the same; as coded, see CodedRun.CodedRefines.
- DynamicRun.DSetEvictsOldest: the same.
- DynamicRun.DSetThenGet: the same.
- CodedRun.CRunIs: followed to the first deletion of a node with a wrong `prev` or the first compaction. It stops at a harmless wrong `prev` too, because the deleted node then is an unoccupied one with a wrong `prev`, on which later deletions depend.
- CodedLoop.LoopFate: when compaction is reached, no second one before the last item can be gone, that is, a frequency below 2 or above the number of items then stored. With one between, the loop stops (LoopStops.LoopStops), but at which of a chunk, a wrong `prev` and a missing victim is not stated. Links that earlier commands broke and whose wrong `prev` is in use again are left to StaleLinks.StaleDeletion.
- CodedLoop.EvictionsComeTo: the same links.
- ReachedCompactions.CompactionDecides: the same frequencies and links.
- CodedGets.GetAfterCompaction: the lookup after one compaction; the commands of a run after it are not followed.
- In a second compaction the key bytes behind an nkey that was left behind are moved too, where the source copies nkey + 1 of them.
- DynamicDictionary.Delete: a node whose own `prev` is right.
- DynamicDictionary.FlushAll: a flush that comes to no wrong `prev`.
- DynamicEngine.Engine.MakeRoom: a victim whose `prev` is right.
- DynamicEngine.Engine.FindPlace: requests that neither compact nor evict a node with a wrong `prev`.
- DynamicEngine.Engine.DoSetCommand: the same.
- DynamicEngine.Engine.DoDeleteCommand: deletes of a node whose `prev` is right.
- DynamicEngine.Engine.DoFlushCommand: flushes that come to no wrong `prev`.
- The key buffer is the key alone: after a compaction as coded, bytes of older keys further back in a buffer are not compared. The model takes such a comparison to fail, as it does for keys without spaces or NULs.
- Sizes, hours and counters are unbounded; the clock is a parameter, positive and otherwise arbitrary.
- memcpy within the arena is a forward byte loop. A field assignment replaces the node's record in the array.
- Locks, logging, dumps, configuration, failing allocation, and the engine's unused entry points.

Of memcached:

- CQ queues, thread_libevent_process (which detaches a list without marking it), TAP shipping, SASL, the binary protocol, other commands.
- A closed connection is not reused while a batch still holds it, although conn_new resets its list_state.
- The time condition before the close list is drained is a parameter.
- Replies: buffers do not change until sent, adding ends before sending begins, sendmsg's result is a parameter, and IOV_MAX is at least 2. The stall on a message without bytes is excluded; replies of non-empty buffers have none (ReplySpec.ReplyNeverStalls).
- Multiget.GetCommand.TryRead: get lines without a NUL. What a NUL does is stated of the rewriting (Multiget.NulResumes).
- Multiget.GetCommand.ServeGet: the same.
- Gets: only get, bget and gets lines; the engine's answers are a script per key; the text of an item is abstract and the reply is the list of hits. A key longer than 250 ends the command. The zero-length token at the end of a batch is kept apart from the words.
- Hash: words are integers below 2^32 with the wrap written out, addresses are indices, memory ends on a word, and mix is a parameter of the block loops. The big-endian and the memory-checker variants are not part of this model.

Of the file system:

- Listing.Serialize: listings whose length fits 16 bits; a longer one is written past its buffer (Listing.FitsExactly).
- Sockets, FUSE, attributes and file contents. The server is abstract; its replies are parameters.
- The cache itself answers: deletes do not fail, sets may be evicted at once. The 44-byte key buffer of leer_directorio is not modelled; paths there are short enough.
- Characters stand for bytes.
